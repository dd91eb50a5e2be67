/** One price level: an intrusive doubly linked FIFO list threaded through the order arena. */
module PriceLevel {
  import opened Types
  import opened SeqFacts

  datatype PriceLevel = PriceLevel(head: int, tail: int, total: nat, count: nat) {
    predicate Empty() { count == 0 }
  }

  const EMPTY_LEVEL := PriceLevel(NIL, NIL, 0, 0)

  ghost predicate Distinct(q: seq<Resting>) {
    forall i, j :: 0 <= i < j < |q| ==> q[i].handle != q[j].handle
  }

  /** The arena cell `o` holds the resting order `r` of side `side`. */
  ghost predicate Represents(o: Order, side: Side, r: Resting) {
    && o.side == side && o.price == r.price && o.id == r.id && o.client == r.client
    && o.filled <= o.quantity < TWO32 && o.quantity - o.filled == r.rem
  }

  /** The handle at position j of the queue, NIL off either end. */
  ghost function LinkAt(q: seq<Resting>, j: int): int {
    if 0 <= j < |q| then q[j].handle else NIL
  }

  ghost predicate Linked(arena: seq<Order>, q: seq<Resting>, j: int)
    requires 0 <= j < |q| && q[j].handle < |arena|
  {
    var o := arena[q[j].handle];
    o.prev == LinkAt(q, j - 1) && o.next == LinkAt(q, j + 1)
  }

  /** The arena cells of the queue hold its orders and are linked in queue order, both ways. */
  ghost predicate Threaded(side: Side, price: nat, arena: seq<Order>, q: seq<Resting>) {
    && Distinct(q)
    && (forall j :: 0 <= j < |q| ==>
          q[j].handle < |arena| && q[j].price == price && Represents(arena[q[j].handle], side, q[j]))
    && (forall j :: 0 <= j < |q| ==> Linked(arena, q, j))
  }

  /** The level's end pointers and aggregates. `exact` is given up for good once an aggregate update has
      overflowed (see AdjustQty). */
  ghost predicate Summary(l: PriceLevel, q: seq<Resting>, exact: bool) {
    && l.head == LinkAt(q, 0) && l.tail == LinkAt(q, |q| - 1)
    && l.count == |q| < TWO32
    && (exact ==> l.total == SumRem(q) % TWO32)
  }

  /** Level `l` is a well-formed list whose orders are `q`, front first. */
  ghost predicate ListOk(side: Side, price: nat, arena: seq<Order>, l: PriceLevel, q: seq<Resting>, exact: bool) {
    Threaded(side, price, arena, q) && Summary(l, q, exact)
  }

  ghost predicate Holds(q: seq<Resting>, h: nat) { exists j :: 0 <= j < |q| && q[j].handle == h }

  /** Nothing but list links differs. */
  ghost predicate OnlyLinks(a: seq<Order>, b: seq<Order>) {
    |b| == |a| && forall h :: 0 <= h < |a| ==> b[h] == a[h].(prev := b[h].prev, next := b[h].next)
  }

  /** A list is untouched by changes to other arena cells. */
  lemma ListFrame(side: Side, price: nat, arena: seq<Order>, arena': seq<Order>, l: PriceLevel, q: seq<Resting>,
                  exact: bool)
    requires ListOk(side, price, arena, l, q, exact) && |arena'| == |arena|
    requires forall j :: 0 <= j < |q| ==> arena'[q[j].handle] == arena[q[j].handle]
    ensures ListOk(side, price, arena', l, q, exact)
  {
    forall j | 0 <= j < |q| ensures Linked(arena', q, j) { assert Linked(arena, q, j); }
  }

  /** The arena after `push` has linked order o behind the tail of l. */
  ghost function PushLinks(a: seq<Order>, l: PriceLevel, o: nat): seq<Order>
    requires o < |a| && NIL <= l.tail < |a|
  {
    var b := a[o := a[o].(prev := l.tail, next := NIL)];
    if l.tail == NIL then b else b[l.tail := b[l.tail].(next := o)]
  }

  ghost function PushLevel(l: PriceLevel, o: nat, rem: int): PriceLevel {
    PriceLevel(if l.tail == NIL then o else l.head, o, (l.total + rem) % TWO32, (l.count + 1) % TWO32)
  }

  lemma PushThreads(side: Side, a: seq<Order>, l: PriceLevel, q: seq<Resting>, r: Resting)
    requires Threaded(side, r.price, a, q) && l.tail == LinkAt(q, |q| - 1) && r.handle < |a|
    requires Represents(a[r.handle], side, r) && !Holds(q, r.handle)
    ensures Threaded(side, r.price, PushLinks(a, l, r.handle), q + [r])
    ensures forall h :: 0 <= h < |a| && h != r.handle && !Holds(q, h) ==> PushLinks(a, l, r.handle)[h] == a[h]
  {
    if q != [] { assert q[|q| - 1].handle == l.tail; }
    var b, p := PushLinks(a, l, r.handle), q + [r];
    forall j | 0 <= j < |p| ensures p[j].handle < |b| && Represents(b[p[j].handle], side, p[j]) && Linked(b, p, j) {
      if j < |q| { assert Linked(a, q, j); }
    }
  }

  lemma PushSummary(l: PriceLevel, q: seq<Resting>, r: Resting, exact: bool)
    requires Summary(l, q, exact) && |q| + 1 < TWO32
    ensures Summary(PushLevel(l, r.handle, r.rem), q + [r], exact)
  {
    SumRemAppend(q, [r]);
    assert SumRem([r]) == r.rem + SumRem([r][1..]);
    assert l.tail == NIL <==> q == [];
  }

  lemma TailInfo(side: Side, price: nat, a: seq<Order>, l: PriceLevel, q: seq<Resting>, exact: bool)
    requires ListOk(side, price, a, l, q, exact)
    ensures NIL <= l.tail < |a| && l.tail == LinkAt(q, |q| - 1)
  {
  }

  /** `PriceLevel::push`: the order joins at the back. */
  method Push(levels: array<PriceLevel>, i: nat, arena: array<Order>, o: nat,
              ghost side: Side, ghost q: seq<Resting>, ghost r: Resting, ghost exact: bool)
    requires i < levels.Length && o < arena.Length < TWO32
    requires ListOk(side, r.price, arena[..], levels[i], q, exact)
    requires r.handle == o && Represents(arena[o], side, r) && !Holds(q, o)
    modifies levels, arena
    ensures ListOk(side, r.price, arena[..], levels[i], q + [r], exact)
    ensures levels[..] == old(levels[..])[i := levels[i]]
    ensures forall h :: 0 <= h < arena.Length && h != o && !Holds(q, h) ==> arena[h] == old(arena[h])
    ensures OnlyLinks(old(arena[..]), arena[..])
  {
    TailInfo(side, r.price, arena[..], levels[i], q, exact);
    PushOnlyLinks(arena[..], levels[i], o);
    PushThreads(side, arena[..], levels[i], q, r);
    Pigeonhole(Handles(q + [r]), arena.Length);
    PushSummary(levels[i], q, r, exact);
    var l := levels[i];
    arena[o] := arena[o].(prev := l.tail, next := NIL);
    if l.tail != NIL {
      arena[l.tail] := arena[l.tail].(next := o);
    } else {
      l := l.(head := o);
    }
    levels[i] := l.(tail := o, total := (l.total + arena[o].Remaining()) % TWO32, count := (l.count + 1) % TWO32);
    assert arena[..] == PushLinks(old(arena[..]), old(levels[i]), o);
    assert levels[i] == PushLevel(old(levels[i]), o, r.rem);
  }

  function RemoveAt(q: seq<Resting>, k: nat): seq<Resting>
    requires k < |q|
  {
    q[..k] + q[k + 1..]
  }

  /** The arena after `remove` has unlinked order o. */
  ghost function UnlinkLinks(a: seq<Order>, o: nat): seq<Order>
    requires o < |a|
    requires NIL <= a[o].prev < |a| && NIL <= a[o].next < |a|
  {
    var p, n := a[o].prev, a[o].next;
    var b := if p == NIL then a else a[p := a[p].(next := n)];
    var c := if n == NIL then b else b[n := b[n].(prev := p)];
    c[o := c[o].(prev := NIL, next := NIL)]
  }

  ghost function RemoveLevel(l: PriceLevel, o: Order): PriceLevel {
    PriceLevel(if o.prev == NIL then o.next else l.head, if o.next == NIL then o.prev else l.tail,
               (l.total - o.Remaining()) % TWO32, (l.count - 1) % TWO32)
  }

  lemma RemoveDistinct(q: seq<Resting>, k: nat)
    requires Distinct(q) && k < |q|
    ensures Distinct(RemoveAt(q, k))
  {
  }

  /** After unlinking, every other order of the queue points at its new neighbours. */
  lemma RemoveLinks(side: Side, price: nat, a: seq<Order>, q: seq<Resting>, k: nat, j: nat)
    requires Threaded(side, price, a, q) && k < |q| && j < |q| && j != k
    requires a[q[k].handle].prev == LinkAt(q, k - 1) && a[q[k].handle].next == LinkAt(q, k + 1)
    ensures var b, h := UnlinkLinks(a, q[k].handle), q[j].handle;
            && b[h].prev == (if j == k + 1 then LinkAt(q, k - 1) else LinkAt(q, j - 1))
            && b[h].next == (if j == k - 1 then LinkAt(q, k + 1) else LinkAt(q, j + 1))
            && b[h] == a[h].(prev := b[h].prev, next := b[h].next)
  {
    assert Linked(a, q, j);
    if k > 0 { assert q[k - 1].handle == a[q[k].handle].prev; }
    if k + 1 < |q| { assert q[k + 1].handle == a[q[k].handle].next; }
  }

  lemma RemoveThreads(side: Side, price: nat, a: seq<Order>, q: seq<Resting>, k: nat)
    requires Threaded(side, price, a, q) && k < |q|
    ensures a[q[k].handle].prev == LinkAt(q, k - 1) && a[q[k].handle].next == LinkAt(q, k + 1)
    ensures Threaded(side, price, UnlinkLinks(a, q[k].handle), RemoveAt(q, k))
    ensures forall h :: 0 <= h < |a| && !Holds(q, h) ==> UnlinkLinks(a, q[k].handle)[h] == a[h]
  {
    assert Linked(a, q, k);
    var b, p := UnlinkLinks(a, q[k].handle), RemoveAt(q, k);
    forall j | 0 <= j < |p|
      ensures p[j].handle < |b| && p[j].price == price && Represents(b[p[j].handle], side, p[j]) && Linked(b, p, j)
    {
      RemoveLinks(side, price, a, q, k, if j < k then j else j + 1);
    }
    RemoveDistinct(q, k);
  }

  lemma {:induction false} RemoveSum(q: seq<Resting>, k: nat)
    requires k < |q|
    ensures SumRem(RemoveAt(q, k)) + q[k].rem == SumRem(q)
  {
    if k == 0 {
      assert RemoveAt(q, k) == q[1..];
    } else {
      assert RemoveAt(q, k)[1..] == RemoveAt(q[1..], k - 1);
      RemoveSum(q[1..], k - 1);
    }
  }

  lemma RemoveSummary(l: PriceLevel, q: seq<Resting>, k: nat, o: Order, exact: bool)
    requires Summary(l, q, exact) && k < |q|
    requires o.prev == LinkAt(q, k - 1) && o.next == LinkAt(q, k + 1) && o.Remaining() == q[k].rem
    ensures Summary(RemoveLevel(l, o), RemoveAt(q, k), exact)
  {
    RemoveSum(q, k);
    var sum, rest := SumRem(q), SumRem(RemoveAt(q, k));
    assert (sum % TWO32 - q[k].rem) % TWO32 == rest % TWO32;
  }

  /** The 32-bit count keeps the length of the queue modulo 2^32 through pushes and removals of any number of orders. */
  lemma CountKept(l: PriceLevel, q: seq<Resting>, r: Resting, k: nat, o: Order)
    requires l.count == |q| % TWO32
    ensures PushLevel(l, r.handle, r.rem).count == |q + [r]| % TWO32
    ensures k < |q| ==> RemoveLevel(l, o).count == |RemoveAt(q, k)| % TWO32
  {
    WrapUp(|q|);
    if |q| > 0 { WrapUp(|q| - 1); }
  }

  /** One more, modulo 2^32; read backwards, one less. */
  lemma WrapUp(n: nat)
    ensures (n % TWO32 + 1) % TWO32 == (n + 1) % TWO32 && ((n + 1) % TWO32 - 1) % TWO32 == n % TWO32
  {
    var q, r := n / TWO32, n % TWO32;
    if r + 1 < TWO32 {
      assert n + 1 == q * TWO32 + (r + 1);
      assert (n + 1) % TWO32 == r + 1;
    } else {
      assert n + 1 == (q + 1) * TWO32;
      assert (n + 1) % TWO32 == 0;
    }
  }

  /** So `empty()` is right exactly unless the queue holds a positive multiple of 2^32 orders. */
  lemma EmptyIsRight(l: PriceLevel, q: seq<Resting>)
    requires l.count == |q| % TWO32
    ensures (l.Empty() <==> q == []) <==> |q| == 0 || |q| % TWO32 != 0
  {
  }

  lemma RemoveInfo(side: Side, price: nat, a: seq<Order>, l: PriceLevel, q: seq<Resting>, k: nat, exact: bool)
    requires ListOk(side, price, a, l, q, exact) && k < |q|
    ensures q[k].handle < |a| && a[q[k].handle].Remaining() == q[k].rem
    ensures LinkAt(q, k - 1) < |a| && LinkAt(q, k + 1) < |a| && LinkAt(q, k - 1) >= NIL && LinkAt(q, k + 1) >= NIL
            && l.count > 0
  {
  }

  lemma UnlinkOnlyLinks(a: seq<Order>, o: nat)
    requires o < |a| && NIL <= a[o].prev < |a| && NIL <= a[o].next < |a|
    ensures OnlyLinks(a, UnlinkLinks(a, o)) && UnlinkLinks(a, o)[o] == a[o].(prev := NIL, next := NIL)
  {
  }

  lemma PushOnlyLinks(a: seq<Order>, l: PriceLevel, o: nat)
    requires o < |a| && NIL <= l.tail < |a|
    ensures OnlyLinks(a, PushLinks(a, l, o))
  {
  }

  /** `PriceLevel::remove`: the order leaves, wherever it stands. */
  method Remove(levels: array<PriceLevel>, i: nat, arena: array<Order>, o: nat,
                ghost side: Side, ghost price: nat, ghost q: seq<Resting>, ghost k: nat, ghost exact: bool)
    requires i < levels.Length && o < arena.Length
    requires ListOk(side, price, arena[..], levels[i], q, exact)
    requires k < |q| && q[k].handle == o
    modifies levels, arena
    ensures ListOk(side, price, arena[..], levels[i], RemoveAt(q, k), exact)
    ensures levels[..] == old(levels[..])[i := levels[i]]
    ensures forall h :: 0 <= h < arena.Length && !Holds(q, h) ==> arena[h] == old(arena[h])
    ensures OnlyLinks(old(arena[..]), arena[..])
    ensures arena[o] == old(arena[o]).(prev := NIL, next := NIL)
  {
    hide Threaded, Summary, Holds, OnlyLinks, RemoveAt;
    RemoveThreads(side, price, arena[..], q, k);
    RemoveInfo(side, price, arena[..], levels[i], q, k, exact);
    RemoveSummary(levels[i], q, k, arena[o], exact);
    UnlinkOnlyLinks(arena[..], o);
    var l, c := levels[i], arena[o];
    if c.prev != NIL {
      arena[c.prev] := arena[c.prev].(next := c.next);
    } else {
      l := l.(head := c.next);
    }
    if c.next != NIL {
      arena[c.next] := arena[c.next].(prev := c.prev);
    } else {
      l := l.(tail := c.prev);
    }
    levels[i] := l.(total := (l.total - arena[o].Remaining()) % TWO32, count := (l.count - 1) % TWO32);
    arena[o] := arena[o].(prev := NIL, next := NIL);
    assert arena[..] == UnlinkLinks(old(arena[..]), o);
    assert levels[i] == RemoveLevel(old(levels[i]), c);
  }

  /** The queue after its front order has traded f. */
  function FillFront(q: seq<Resting>, f: nat): seq<Resting>
    requires q != [] && f <= q[0].rem
  {
    q[0 := q[0].(rem := q[0].rem - f)]
  }

  lemma FillThreads(side: Side, price: nat, a: seq<Order>, q: seq<Resting>, f: nat)
    requires Threaded(side, price, a, q) && q != [] && f <= q[0].rem
    ensures Threaded(side, price, a[q[0].handle := a[q[0].handle].Filled(f)], FillFront(q, f))
  {
    var h, p := q[0].handle, FillFront(q, f);
    var b := a[h := a[h].Filled(f)];
    forall j | 0 <= j < |p| ensures p[j].handle < |b| && Represents(b[p[j].handle], side, p[j]) && Linked(b, p, j) {
      assert Linked(a, q, j);
    }
  }

  lemma FillSummary(l: PriceLevel, q: seq<Resting>, f: nat, exact: bool)
    requires Summary(l, q, exact) && q != [] && f <= q[0].rem
    ensures Summary(l.(total := (l.total - f) % TWO32), FillFront(q, f), exact)
  {
    assert FillFront(q, f)[1..] == q[1..];
  }

  /** `static_cast<int32_t>` of a uint32_t. */
  function ToInt32(q: nat): int { if q < TWO31 then q else q - TWO32 }

  /** `adjust_qty(-static_cast<int32_t>(f))`. The signed negation overflows for f = 2^31 only: the value added is
      then arbitrary and the aggregate is no longer exact. */
  method AdjustQty(levels: array<PriceLevel>, i: nat, f: nat,
                   ghost q: seq<Resting>, ghost exact: bool)
    requires i < levels.Length && f < TWO32
    requires Summary(levels[i], q, exact) && q != [] && f <= q[0].rem
    modifies levels
    ensures Summary(levels[i], FillFront(q, f), exact && f != TWO31)
    ensures levels[..] == old(levels[..])[i := levels[i]]
  {
    FillSummary(levels[i], q, f, exact);
    assert FillFront(q, f)[1..] == q[1..];
    var delta: int;
    if ToInt32(f) + TWO31 == 0 {
      delta := *;
    } else {
      delta := -ToInt32(f);
    }
    levels[i] := levels[i].(total := (levels[i].total + delta) % TWO32);
  }

  /** Follow n `next` pointers. */
  ghost function WalkForward(a: seq<Order>, p: int, n: nat): seq<nat>
    decreases n
  {
    if n == 0 || !(0 <= p < |a|) then [] else [p] + WalkForward(a, a[p].next, n - 1)
  }

  /** Follow n `prev` pointers. */
  ghost function WalkBackward(a: seq<Order>, p: int, n: nat): seq<nat>
    decreases n
  {
    if n == 0 || !(0 <= p < |a|) then [] else WalkBackward(a, a[p].prev, n - 1) + [p]
  }

  lemma LinksAt(side: Side, price: nat, a: seq<Order>, q: seq<Resting>, j: nat)
    requires Threaded(side, price, a, q) && j < |q|
    ensures q[j].handle < |a|
    ensures a[q[j].handle].prev == LinkAt(q, j - 1) && a[q[j].handle].next == LinkAt(q, j + 1)
  {
    assert Linked(a, q, j);
  }

  lemma {:induction false} WalkForwardFrom(side: Side, price: nat, a: seq<Order>, q: seq<Resting>, j: nat)
    requires Threaded(side, price, a, q) && j <= |q|
    ensures WalkForward(a, LinkAt(q, j), |q| - j) == Handles(q)[j..]
    decreases |q| - j
  {
    hide Threaded, Handles;
    if j < |q| {
      LinksAt(side, price, a, q, j);
      WalkForwardFrom(side, price, a, q, j + 1);
      assert Handles(q)[j..] == [q[j].handle] + Handles(q)[j + 1..];
    }
  }

  lemma {:induction false} WalkBackwardFrom(side: Side, price: nat, a: seq<Order>, q: seq<Resting>, j: nat)
    requires Threaded(side, price, a, q) && j <= |q|
    ensures WalkBackward(a, LinkAt(q, j - 1), j) == Handles(q)[..j]
  {
    hide Threaded, Handles;
    if j > 0 {
      LinksAt(side, price, a, q, j - 1);
      WalkBackwardFrom(side, price, a, q, j - 1);
      assert Handles(q)[..j] == Handles(q)[..j - 1] + [q[j - 1].handle];
    }
  }

  /** From the head, `next` visits the orders in arrival order; from the tail, `prev` visits the same orders
      backwards; and both walks stop at null after `count` steps. */
  lemma WalksMirror(side: Side, price: nat, a: seq<Order>, l: PriceLevel, q: seq<Resting>, exact: bool, extra: nat)
    requires ListOk(side, price, a, l, q, exact)
    ensures WalkForward(a, l.head, l.count + extra) == Handles(q)
    ensures WalkBackward(a, l.tail, l.count + extra) == Handles(q)
  {
    hide WalkForward, WalkBackward, Threaded;
    WalkForwardFrom(side, price, a, q, 0);
    WalkBackwardFrom(side, price, a, q, |q|);
    WalkForwardStops(side, price, a, q, 0, extra);
    WalkBackwardStops(side, price, a, q, |q|, extra);
  }

  lemma {:induction false} WalkForwardStops(side: Side, price: nat, a: seq<Order>, q: seq<Resting>, j: nat, extra: nat)
    requires Threaded(side, price, a, q) && j <= |q|
    ensures WalkForward(a, LinkAt(q, j), |q| - j + extra) == WalkForward(a, LinkAt(q, j), |q| - j)
    decreases |q| - j
  {
    if j < |q| {
      assert Linked(a, q, j);
      WalkForwardStops(side, price, a, q, j + 1, extra);
    }
  }

  lemma {:induction false} WalkBackwardStops(side: Side, price: nat, a: seq<Order>, q: seq<Resting>, j: nat, extra: nat)
    requires Threaded(side, price, a, q) && j <= |q|
    ensures WalkBackward(a, LinkAt(q, j - 1), j + extra) == WalkBackward(a, LinkAt(q, j - 1), j)
  {
    if j > 0 {
      assert Linked(a, q, j - 1);
      WalkBackwardStops(side, price, a, q, j - 1, extra);
    }
  }
}
