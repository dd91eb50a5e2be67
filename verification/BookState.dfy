/** The joint invariant of arena, levels, table and free list, over snapshots of the arrays. */
module BookState {
  import opened Types
  import opened SeqFacts
  import opened PriceLevel
  import opened BookSpec
  import opened Ladder
  import opened Sweep

  ghost predicate LevelOk(side: Side, a: seq<Order>, levels: seq<PriceLevel>, q: Levels, exact: bool, i: nat)
    requires i < |levels| == |q|
  {
    ListOk(side, i + MIN_PRICE, a, levels[i], q[i], exact)
  }

  /** Every level of a side is a well-formed list. */
  ghost predicate SideOk(side: Side, a: seq<Order>, levels: seq<PriceLevel>, q: Levels, exact: bool) {
    && |levels| == |q| == PRICE_LEVELS
    && forall i :: 0 <= i < PRICE_LEVELS ==> LevelOk(side, a, levels, q, exact, i)
  }

  ghost predicate AllLive(q: Levels, live: set<nat>) {
    forall i, j :: 0 <= i < |q| && 0 <= j < |q[i]| ==> q[i][j].handle in live
  }

  /** A live order stands in the queue of its own side and price. */
  ghost predicate AtHome(a: seq<Order>, bids: Levels, asks: Levels, h: nat) {
    && h < |a| && MIN_PRICE <= a[h].price <= MAX_PRICE && |bids| == |asks| == PRICE_LEVELS
    && Holds((if a[h].side == Buy then bids else asks)[a[h].price - MIN_PRICE], h)
  }

  /** Free list, resting orders and orders in hand partition the arena. */
  ghost predicate Partition(a: seq<Order>, bids: Levels, asks: Levels, free: seq<nat>, live: set<nat>, held: set<nat>) {
    && AllLive(bids, live) && AllLive(asks, live)
    && (forall h :: h in live ==> AtHome(a, bids, asks, h))
    && (forall h :: h in held ==> h < |a| && h !in live)
    && (forall h: nat :: h in free <==> h < |a| && h !in live && h !in held)
    && NoDup(free)
  }

  /** A table entry leads to an order that is resting or in hand, registered at its own slot. */
  ghost predicate EntryOk(a: seq<Order>, entry: int, s: nat, live: set<nat>, held: set<nat>) {
    entry == NIL || (0 <= entry < |a| && (entry in live || entry in held) && Slot(a[entry].id) == s)
  }

  ghost predicate TableOk(a: seq<Order>, table: seq<int>, live: set<nat>, held: set<nat>) {
    && |table| == MAX_ORDERS
    && forall s :: 0 <= s < MAX_ORDERS ==> EntryOk(a, table[s], s, live, held)
  }

  ghost function IndexOf(table: seq<int>): map<nat, nat> {
    map s: nat | s < |table| && table[s] >= 0 :: table[s]
  }

  ghost predicate Positive(q: Levels) { forall i, j :: 0 <= i < |q| && 0 <= j < |q[i]| ==> q[i][j].rem > 0 }

  /** The levels that hold orders. */
  ghost function Occupied(q: Levels): (s: set<nat>)
    ensures forall i: nat :: i in s <==> i < |q| && q[i] != []
  {
    set i: nat | i < |q| && q[i] != []
  }

  /** The cached best price: that of the best occupied level, or the side's sentinel. */
  ghost predicate BestOk(side: Side, q: Levels, best: nat) {
    if Occupied(q) == {} then best == Sentinel(side)
    else
      && best >= MIN_PRICE && best - MIN_PRICE in Occupied(q)
      && forall i :: i in Occupied(q) ==> !Better(side, i + MIN_PRICE, best)
  }

  function Sentinel(side: Side): nat { if side == Buy then INVALID_PRICE else MAX_PRICE + 1 }

  // ----- Queues do not overlap -----

  /** Two positions that hold the same handle are the same position. */
  lemma SamePlace(side: Side, side': Side, a: seq<Order>, levels: seq<PriceLevel>, levels': seq<PriceLevel>, q: Levels,
                  q': Levels, exact: bool, i: nat, j: nat, i': nat, j': nat)
    requires SideOk(side, a, levels, q, exact) && SideOk(side', a, levels', q', exact)
    requires i < |q| && j < |q[i]| && i' < |q'| && j' < |q'[i']| && q[i][j].handle == q'[i'][j'].handle
    ensures side == side' && i == i' && (q == q' ==> j == j')
  {
    assert LevelOk(side, a, levels, q, exact, i) && LevelOk(side', a, levels', q', exact, i');
  }

  lemma OnlyPlace(side: Side, a: seq<Order>, levels: seq<PriceLevel>, q: Levels, exact: bool, i: nat, j: nat)
    requires SideOk(side, a, levels, q, exact) && i < |q| && j < |q[i]|
    ensures OnlyAt(q, i, j)
  {
    forall k, m | 0 <= k < |q| && 0 <= m < |q[k]| && q[k][m].handle == q[i][j].handle ensures k == i && m == j {
      SamePlace(side, side, a, levels, levels, q, q, exact, i, j, k, m);
    }
  }

  lemma SidePlaced(side: Side, a: seq<Order>, levels: seq<PriceLevel>, q: Levels, exact: bool)
    requires SideOk(side, a, levels, q, exact)
    ensures Placed(q)
  {
    forall i, j | 0 <= i < |q| && 0 <= j < |q[i]| ensures q[i][j].price == i + MIN_PRICE {
      assert LevelOk(side, a, levels, q, exact, i);
    }
  }

  // ----- One level changes -----

  /** Arena cells outside `touched` are as before. */
  ghost predicate Same(a: seq<Order>, a': seq<Order>, touched: set<nat>) {
    |a'| == |a| && forall h :: 0 <= h < |a| && h !in touched ==> a'[h] == a[h]
  }

  ghost function HandlesAt(q: seq<Resting>): (s: set<nat>)
    ensures forall h :: h in s <==> Holds(q, h)
  {
    set j | 0 <= j < |q| :: q[j].handle
  }

  lemma SideFrame(side: Side, a: seq<Order>, a': seq<Order>, levels: seq<PriceLevel>, q: Levels, exact: bool,
                  exact': bool, touched: set<nat>)
    requires SideOk(side, a, levels, q, exact) && Same(a, a', touched) && (exact' ==> exact)
    requires forall k, j :: 0 <= k < |q| && 0 <= j < |q[k]| ==> q[k][j].handle !in touched
    ensures SideOk(side, a', levels, q, exact')
  {
    forall k | 0 <= k < PRICE_LEVELS ensures LevelOk(side, a', levels, q, exact', k) {
      assert LevelOk(side, a, levels, q, exact, k);
      ListFrame(side, k + MIN_PRICE, a, a', levels[k], q[k], exact);
    }
  }

  /** Replacing level i, when only its own orders and orders in hand were touched, keeps the side well formed. */
  lemma SideUpdate(side: Side, a: seq<Order>, a': seq<Order>, levels: seq<PriceLevel>, levels': seq<PriceLevel>,
                   q: Levels, i: nat, s: seq<Resting>, exact: bool, exact': bool, live: set<nat>, held: set<nat>)
    requires SideOk(side, a, levels, q, exact) && AllLive(q, live) && held !! live && i < PRICE_LEVELS
    requires Same(a, a', HandlesAt(q[i]) + held) && (exact' ==> exact)
    requires |levels'| == |levels| && levels' == levels[i := levels'[i]]
    requires ListOk(side, i + MIN_PRICE, a', levels'[i], s, exact')
    ensures SideOk(side, a', levels', q[i := s], exact')
  {
    var q' := q[i := s];
    forall k | 0 <= k < PRICE_LEVELS ensures LevelOk(side, a', levels', q', exact', k) {
      if k != i {
        assert LevelOk(side, a, levels, q, exact, k);
        forall j | 0 <= j < |q[k]| ensures a'[q[k][j].handle] == a[q[k][j].handle] {
          if q[k][j].handle in HandlesAt(q[i]) {
            var m :| 0 <= m < |q[i]| && q[i][m].handle == q[k][j].handle;
            SamePlace(side, side, a, levels, levels, q, q, exact, k, j, i, m);
          }
        }
        ListFrame(side, k + MIN_PRICE, a, a', levels[k], q[k], exact);
      }
    }
  }

  /** The other side does not notice. */
  lemma OtherSide(side: Side, a: seq<Order>, a': seq<Order>, levels: seq<PriceLevel>, q: Levels,
                  olevels: seq<PriceLevel>, oq: Levels, i: nat, exact: bool, exact': bool, live: set<nat>,
                    held: set<nat>)
    requires SideOk(side, a, levels, q, exact) && SideOk(side.Other(), a, olevels, oq, exact)
    requires AllLive(oq, live) && held !! live && i < PRICE_LEVELS
    requires Same(a, a', HandlesAt(q[i]) + held) && (exact' ==> exact)
    ensures SideOk(side.Other(), a', olevels, oq, exact')
  {
    forall k, j | 0 <= k < |oq| && 0 <= j < |oq[k]| ensures oq[k][j].handle !in HandlesAt(q[i]) + held {
      if oq[k][j].handle in HandlesAt(q[i]) {
        var m :| 0 <= m < |q[i]| && q[i][m].handle == oq[k][j].handle;
        SamePlace(side.Other(), side, a, olevels, levels, oq, q, exact, k, j, i, m);
      }
    }
    SideFrame(side.Other(), a, a', olevels, oq, exact, exact', HandlesAt(q[i]) + held);
  }

  lemma IndexSet(table: seq<int>, s: nat, h: nat)
    requires s < |table|
    ensures IndexOf(table[s := h]) == IndexOf(table)[s := h]
    ensures IndexOf(table[s := NIL]) == IndexOf(table) - {s}
  {
  }

  // ----- The partition of the arena, step by step -----

  /** Orders keep their side, price and id. */
  ghost predicate Keeps(a: seq<Order>, a': seq<Order>) {
    |a'| == |a| && forall h :: 0 <= h < |a| ==>
      a'[h].side == a[h].side && a'[h].price == a[h].price && a'[h].id == a[h].id
  }

  ghost function BidsWith(side: Side, bids: Levels, q: Levels): Levels { if side == Buy then q else bids }
  ghost function AsksWith(side: Side, asks: Levels, q: Levels): Levels { if side == Sell then q else asks }

  lemma RemoveHolds(q: seq<Resting>, k: nat, h: nat)
    requires k < |q| && Holds(q, h) && h != q[k].handle
    ensures Holds(RemoveAt(q, k), h)
  {
    var j :| 0 <= j < |q| && q[j].handle == h;
    assert RemoveAt(q, k)[if j < k then j else j - 1] == q[j];
  }

  lemma AppendHolds(q: seq<Resting>, r: Resting, h: nat)
    ensures Holds(q + [r], h) <==> Holds(q, h) || h == r.handle
  {
    if Holds(q, h) {
      var j :| 0 <= j < |q| && q[j].handle == h;
      assert (q + [r])[j].handle == h;
    }
    assert (q + [r])[|q|].handle == r.handle;
    if Holds(q + [r], h) {
      var j :| 0 <= j < |q + [r]| && (q + [r])[j].handle == h;
      if j < |q| { assert q[j].handle == h; }
    }
  }

  /** A resting order taken in hand. */
  lemma PartitionRemove(side: Side, a: seq<Order>, a': seq<Order>, bids: Levels, asks: Levels, free: seq<nat>,
                        live: set<nat>, held: set<nat>, i: nat, k: nat)
    requires Partition(a, bids, asks, free, live, held) && Keeps(a, a')
    requires var q: Levels := if side == Buy then bids else asks; var oq: Levels := if side == Buy then asks else bids;
             && i < |q| && k < |q[i]| && OnlyAt(q, i, k)
             && forall m, j :: 0 <= m < |oq| && 0 <= j < |oq[m]| ==> oq[m][j].handle != q[i][k].handle
    ensures var q: Levels := if side == Buy then bids else asks; var q', o := q[i := RemoveAt(q[i], k)], q[i][k].handle;
            Partition(a', BidsWith(side, bids, q'), AsksWith(side, asks, q'), free, live - {o}, held + {o})
  {
    var q: Levels := if side == Buy then bids else asks;
    var o := q[i][k].handle;
    var q': Levels := q[i := RemoveAt(q[i], k)];
    forall m, j | 0 <= m < |q'| && 0 <= j < |q'[m]| ensures q'[m][j].handle in live - {o} {
      if m == i { assert q'[m][j] == q[m][if j < k then j else j + 1]; }
    }
    var bids', asks' := BidsWith(side, bids, q'), AsksWith(side, asks, q');
    forall h | h in live - {o} ensures AtHome(a', bids', asks', h) {
      assert AtHome(a, bids, asks, h);
      if a[h].side == side && a[h].price - MIN_PRICE == i { RemoveHolds(q[i], k, h); }
    }
  }

  /** An order in hand put at the back of its level. */
  lemma PartitionPush(side: Side, a: seq<Order>, a': seq<Order>, bids: Levels, asks: Levels, free: seq<nat>,
                      live: set<nat>, held: set<nat>, i: nat, r: Resting)
    requires Partition(a, bids, asks, free, live, held) && Keeps(a, a')
    requires i < PRICE_LEVELS == |bids| == |asks| && r.handle in held && a[r.handle].side == side
             && a[r.handle].price == i + MIN_PRICE
    ensures var q: Levels := if side == Buy then bids else asks; var q' := q[i := q[i] + [r]];
            Partition(a', BidsWith(side, bids, q'), AsksWith(side, asks, q'), free, live + {r.handle},
              held - {r.handle})
  {
    var q: Levels := if side == Buy then bids else asks;
    var q' := q[i := q[i] + [r]];
    var bids', asks' := BidsWith(side, bids, q'), AsksWith(side, asks, q');
    forall h | h in live + {r.handle} ensures AtHome(a', bids', asks', h) {
      if h in live { assert AtHome(a, bids, asks, h); }
      AppendHolds(q[i], r, h);
    }
  }

  /** The front order of a level traded: the queues keep their handles. */
  lemma PartitionFill(side: Side, a: seq<Order>, a': seq<Order>, bids: Levels, asks: Levels, free: seq<nat>,
                      live: set<nat>, held: set<nat>, i: nat, f: nat)
    requires Partition(a, bids, asks, free, live, held) && Keeps(a, a')
    requires var q: Levels := if side == Buy then bids else asks; i < |q| && q[i] != [] && f <= q[i][0].rem
    ensures var q: Levels := if side == Buy then bids else asks; var q' := q[i := FillFront(q[i], f)];
            Partition(a', BidsWith(side, bids, q'), AsksWith(side, asks, q'), free, live, held)
  {
    var q: Levels := if side == Buy then bids else asks;
    var q' := q[i := FillFront(q[i], f)];
    var bids', asks' := BidsWith(side, bids, q'), AsksWith(side, asks, q');
    forall h | h in live ensures AtHome(a', bids', asks', h) {
      assert AtHome(a, bids, asks, h);
      if Holds(q[i], h) {
        var j :| 0 <= j < |q[i]| && q[i][j].handle == h;
        assert q'[i][j].handle == h;
      }
    }
  }

  /** The last free cell taken in hand and rewritten. */
  lemma PartitionAcquire(a: seq<Order>, a': seq<Order>, bids: Levels, asks: Levels, free: seq<nat>,
                         live: set<nat>, held: set<nat>)
    requires Partition(a, bids, asks, free, live, held) && free != [] && Same(a, a', {free[|free| - 1]})
    ensures Partition(a', bids, asks, free[..|free| - 1], live, held + {free[|free| - 1]})
    ensures free[|free| - 1] < |a| && free[|free| - 1] !in live && free[|free| - 1] !in held
  {
    var o, p := free[|free| - 1], free[..|free| - 1];
    assert o in free;
    assert free == p + [o];
    forall h: nat ensures h in p <==> h in free && h != o {
      if h in p { var j :| 0 <= j < |p| && p[j] == h; assert free[j] == h; }
    }
    forall h | h in live ensures AtHome(a', bids, asks, h) { assert AtHome(a, bids, asks, h); }
  }

  /** An order in hand returned to the free list. */
  lemma PartitionRelease(a: seq<Order>, a': seq<Order>, bids: Levels, asks: Levels, free: seq<nat>,
                         live: set<nat>, held: set<nat>, o: nat)
    requires Partition(a, bids, asks, free, live, held) && o in held && Keeps(a, a')
    ensures Partition(a', bids, asks, free + [o], live, held - {o})
  {
    forall h | h in live ensures AtHome(a', bids, asks, h) { assert AtHome(a, bids, asks, h); }
    forall h: nat ensures h in free + [o] <==> h < |a'| && h !in live && h !in held - {o} {}
    assert o !in free;
  }

  ghost const EMPTY_LADDER: Levels := seq(PRICE_LEVELS, _ => [])

  // ----- The whole state -----

  /** A snapshot of the book's storage, with the queue at every level and the set of resting handles. */
  datatype State = State(a: seq<Order>, bidLevels: seq<PriceLevel>, askLevels: seq<PriceLevel>, bidQ: Levels,
    askQ: Levels, free: seq<nat>, table: seq<int>, live: set<nat>, exact: bool)
  {
    ghost function L(side: Side): seq<PriceLevel> { if side == Buy then bidLevels else askLevels }
    ghost function Q(side: Side): Levels { if side == Buy then bidQ else askQ }
    ghost function WithLevels(side: Side, l: seq<PriceLevel>, q: Levels): State {
      if side == Buy then this.(bidLevels := l, bidQ := q) else this.(askLevels := l, askQ := q)
    }
  }

  /** Lists, free list and table agree; `held` are orders in hand, neither resting nor free. */
  ghost predicate Core(s: State, held: set<nat>) {
    match s
    case State(a, bidLevels, askLevels, bidQ, askQ, free, table, live, exact) =>
      && SideOk(Buy, a, bidLevels, bidQ, exact) && SideOk(Sell, a, askLevels, askQ, exact)
      && Partition(a, bidQ, askQ, free, live, held)
      && TableOk(a, table, live, held)
  }

  /** The only position of an order is its only position on either side. */
  lemma OnlySide(s: State, held: set<nat>, side: Side, i: nat, k: nat)
    requires Core(s, held) && i < PRICE_LEVELS && k < |s.Q(side)[i]|
    ensures OnlyAt(s.Q(side), i, k)
    ensures var oq := s.Q(side.Other());
            forall m, j :: 0 <= m < |oq| && 0 <= j < |oq[m]| ==> oq[m][j].handle != s.Q(side)[i][k].handle
  {
    OnlyPlace(side, s.a, s.L(side), s.Q(side), s.exact, i, k);
    var oq: Levels := s.Q(side.Other());
    forall m, j | 0 <= m < |oq| && 0 <= j < |oq[m]| ensures oq[m][j].handle != s.Q(side)[i][k].handle {
      if oq[m][j].handle == s.Q(side)[i][k].handle {
        SamePlace(side, side.Other(), s.a, s.L(side), s.L(side.Other()), s.Q(side), oq, s.exact, i, k, m, j);
      }
    }
  }

  /** Replacing level i of a side, when only its own orders and orders in hand were touched. */
  lemma ReplaceLevel(s: State, held: set<nat>, side: Side, i: nat, a': seq<Order>, l': seq<PriceLevel>,
                     r: seq<Resting>, exact': bool)
    requires Core(s, held) && i < PRICE_LEVELS
    requires Same(s.a, a', HandlesAt(s.Q(side)[i]) + held) && (exact' ==> s.exact)
    requires |l'| == PRICE_LEVELS && l' == s.L(side)[i := l'[i]]
    requires ListOk(side, i + MIN_PRICE, a', l'[i], r, exact')
    ensures SideOk(side, a', l', s.Q(side)[i := r], exact')
    ensures SideOk(side.Other(), a', s.L(side.Other()), s.Q(side.Other()), exact')
  {
    assert held !! s.live;
    SideUpdate(side, s.a, a', s.L(side), l', s.Q(side), i, r, s.exact, exact', s.live, held);
    OtherSide(side, s.a, a', s.L(side), s.Q(side), s.L(side.Other()), s.Q(side.Other()), i, s.exact, exact', s.live,
      held);
  }

  /** What Core says of one level: it is a list, its orders are in the arena and none of them is in hand. */
  lemma LevelInfo(s: State, held: set<nat>, side: Side, i: nat)
    requires Core(s, held) && i < PRICE_LEVELS
    ensures |s.L(side)| == |s.Q(side)| == PRICE_LEVELS
    ensures ListOk(side, i + MIN_PRICE, s.a, s.L(side)[i], s.Q(side)[i], s.exact)
    ensures forall j :: 0 <= j < |s.Q(side)[i]| ==> s.Q(side)[i][j].handle < |s.a|
    ensures forall h :: h in held ==> h < |s.a| && !Holds(s.Q(side)[i], h)
  {
    assert LevelOk(side, s.a, s.L(side), s.Q(side), s.exact, i);
  }

  ghost function Dropped(q: Levels, i: nat, k: nat): Levels
    requires i < |q| && k < |q[i]|
  {
    q[i := RemoveAt(q[i], k)]
  }

  /** The state after the k-th order of level i was taken in hand. */
  ghost function Unlinked(s: State, side: Side, i: nat, k: nat, a': seq<Order>, l': seq<PriceLevel>): State
    requires i < |s.Q(side)| && k < |s.Q(side)[i]|
  {
    var q := s.Q(side);
    s.WithLevels(side, l', Dropped(q, i, k)).(a := a', live := s.live - {q[i][k].handle})
  }

  lemma UnlinkOk(s: State, held: set<nat>, side: Side, i: nat, k: nat, a': seq<Order>, l': seq<PriceLevel>)
    requires Core(s, held) && i < PRICE_LEVELS && k < |s.Q(side)[i]|
    requires Same(s.a, a', HandlesAt(s.Q(side)[i])) && OnlyLinks(s.a, a')
    requires |l'| == PRICE_LEVELS && l' == s.L(side)[i := l'[i]]
    requires ListOk(side, i + MIN_PRICE, a', l'[i], RemoveAt(s.Q(side)[i], k), s.exact)
    ensures Core(Unlinked(s, side, i, k, a', l'), held + {s.Q(side)[i][k].handle})
  {
    ReplaceLevel(s, held, side, i, a', l', RemoveAt(s.Q(side)[i], k), s.exact);
    OnlySide(s, held, side, i, k);
    PartitionRemove(side, s.a, a', s.bidQ, s.askQ, s.free, s.live, held, i, k);
    forall m | 0 <= m < MAX_ORDERS
      ensures EntryOk(a', s.table[m], m, s.live - {s.Q(side)[i][k].handle}, held + {s.Q(side)[i][k].handle})
    {
      assert EntryOk(s.a, s.table[m], m, s.live, held);
    }
  }

  ghost function Grown(q: Levels, i: nat, r: Resting): Levels
    requires i < |q|
  {
    q[i := q[i] + [r]]
  }

  /** The state after an order in hand joined the back of its level. */
  ghost function Joined(s: State, side: Side, i: nat, r: Resting, a': seq<Order>, l': seq<PriceLevel>): State
    requires i < |s.Q(side)|
  {
    var q := s.Q(side);
    s.WithLevels(side, l', Grown(q, i, r)).(a := a', live := s.live + {r.handle})
  }

  lemma JoinOk(s: State, held: set<nat>, side: Side, i: nat, r: Resting, a': seq<Order>, l': seq<PriceLevel>)
    requires Core(s, held) && i < PRICE_LEVELS && r.handle in held
    requires s.a[r.handle].side == side && s.a[r.handle].price == i + MIN_PRICE
    requires Same(s.a, a', HandlesAt(s.Q(side)[i]) + {r.handle}) && OnlyLinks(s.a, a')
    requires |l'| == PRICE_LEVELS && l' == s.L(side)[i := l'[i]]
    requires ListOk(side, i + MIN_PRICE, a', l'[i], s.Q(side)[i] + [r], s.exact)
    ensures Core(Joined(s, side, i, r, a', l'), held - {r.handle})
  {
    ReplaceLevel(s, held, side, i, a', l', s.Q(side)[i] + [r], s.exact);
    PartitionPush(side, s.a, a', s.bidQ, s.askQ, s.free, s.live, held, i, r);
    forall m | 0 <= m < MAX_ORDERS ensures EntryOk(a', s.table[m], m, s.live + {r.handle}, held - {r.handle}) {
      assert EntryOk(s.a, s.table[m], m, s.live, held);
    }
  }

  ghost function Eaten(q: Levels, i: nat, f: nat): Levels
    requires i < |q| && q[i] != [] && f <= q[i][0].rem
  {
    q[i := FillFront(q[i], f)]
  }

  /** The fill between a taker and a resting order of side `side`. */
  function FillOf(side: Side, taker: Order, maker: Order, f: nat): (r: Fill)
    ensures r.price == maker.price && r.quantity == f
    ensures side == Sell ==> r.bidId == taker.id && r.bidClient == taker.client
    ensures side == Sell ==> r.askId == maker.id && r.askClient == maker.client
    ensures side == Buy ==> r.askId == taker.id && r.askClient == taker.client
    ensures side == Buy ==> r.bidId == maker.id && r.bidClient == maker.client
  {
    if side == Sell then Fill(taker.id, maker.id, taker.client, maker.client, maker.price, f)
    else Fill(maker.id, taker.id, maker.client, taker.client, maker.price, f)
  }

  /** The arena after two orders traded f. */
  ghost function Traders(a: seq<Order>, agg: nat, resting: nat, f: nat): seq<Order>
    requires agg < |a| && resting < |a|
  {
    a[agg := a[agg].Filled(f)][resting := a[resting].Filled(f)]
  }

  lemma TradersTouch(a: seq<Order>, held: set<nat>, agg: nat, resting: nat, f: nat)
    requires agg < |a| && resting < |a| && agg in held
    ensures Same(a, Traders(a, agg, resting, f), {resting} + held) && Keeps(a, Traders(a, agg, resting, f))
  {
  }

  /** Fills on both orders of a trade, and on the aggregate of the resting order's level. */
  method Exchange(levels: array<PriceLevel>, i: nat, arena: array<Order>, agg: nat, resting: nat, f: nat,
                  ghost side: Side, ghost q: seq<Resting>, ghost exact: bool)
    requires i < levels.Length && agg < arena.Length && f < TWO32
    requires ListOk(side, i + MIN_PRICE, arena[..], levels[i], q, exact) && !Holds(q, agg)
    requires q != [] && resting == q[0].handle < arena.Length && f <= q[0].rem
    modifies levels, arena
    ensures arena[..] == Traders(old(arena[..]), agg, resting, f)
    ensures ListOk(side, i + MIN_PRICE, arena[..], levels[i], FillFront(q, f), exact && f != TWO31)
    ensures levels[..] == old(levels[..])[i := levels[i]]
  {
    ghost var a := arena[..];
    assert Holds(q, resting);
    arena[agg] := arena[agg].Filled(f);
    arena[resting] := arena[resting].Filled(f);
    AdjustQty(levels, i, f, q, exact);
    assert arena[..] == Traders(a, agg, resting, f);
    EatThreads(side, i + MIN_PRICE, a, q, agg, f);
  }

  lemma HeldInfo(s: State, held: set<nat>)
    requires Core(s, held)
    ensures forall h :: h in held ==> h < |s.a|
    ensures |s.table| == MAX_ORDERS
  {
  }

  lemma FreeInfo(s: State, held: set<nat>)
    requires Core(s, held) && s.free != []
    ensures s.free[|s.free| - 1] < |s.a| && s.free[|s.free| - 1] !in held && |s.table| == MAX_ORDERS
  {
    assert s.free[|s.free| - 1] in s.free;
  }

  /** What Core says of the front order of a level. */
  lemma FrontInfo(s: State, held: set<nat>, side: Side, i: nat, agg: nat)
    requires Core(s, held) && i < PRICE_LEVELS && s.Q(side)[i] != [] && agg in held
    ensures var front := s.Q(side)[i][0];
            && front.handle < |s.a| && agg < |s.a| && front.handle != agg && front.rem < TWO32
            && s.L(side)[i].head == front.handle && Summary(s.L(side)[i], s.Q(side)[i], s.exact)
            && Represents(s.a[front.handle], side, front) && s.a[front.handle].Remaining() == front.rem
  {
    assert LevelOk(side, s.a, s.L(side), s.Q(side), s.exact, i);
    assert Holds(s.Q(side)[i], s.Q(side)[i][0].handle);
  }

  /** The level after its front order traded f with the order in hand `agg`. */
  lemma EatThreads(side: Side, price: nat, a: seq<Order>, q: seq<Resting>, agg: nat, f: nat)
    requires Threaded(side, price, a, q) && q != [] && f <= q[0].rem && agg < |a| && !Holds(q, agg)
    ensures Threaded(side, price, Traders(a, agg, q[0].handle, f), FillFront(q, f))
  {
    var h, p := q[0].handle, FillFront(q, f);
    assert Holds(q, h);
    FillThreads(side, price, a, q, f);
    var b, c := a[h := a[h].Filled(f)], Traders(a, agg, h, f);
    forall j | 0 <= j < |p| ensures c[p[j].handle] == b[p[j].handle] && Linked(c, p, j) {
      assert Holds(q, q[j].handle);
      assert Linked(b, p, j);
    }
  }

  /** The state after an order in hand traded f with the front order of level i. */
  ghost function Traded(s: State, side: Side, i: nat, f: nat, a': seq<Order>, l': seq<PriceLevel>): State
    requires i < |s.Q(side)| && s.Q(side)[i] != [] && f <= s.Q(side)[i][0].rem
  {
    var q := s.Q(side);
    s.WithLevels(side, l', Eaten(q, i, f)).(a := a', exact := s.exact && f != TWO31)
  }

  lemma TradeOk(s: State, held: set<nat>, side: Side, i: nat, f: nat, a': seq<Order>, l': seq<PriceLevel>)
    requires Core(s, held) && i < PRICE_LEVELS && s.Q(side)[i] != [] && f <= s.Q(side)[i][0].rem
    requires Same(s.a, a', {s.Q(side)[i][0].handle} + held) && Keeps(s.a, a')
    requires |l'| == PRICE_LEVELS && l' == s.L(side)[i := l'[i]]
    requires ListOk(side, i + MIN_PRICE, a', l'[i], FillFront(s.Q(side)[i], f), s.exact && f != TWO31)
    ensures Core(Traded(s, side, i, f, a', l'), held)
  {
    assert Holds(s.Q(side)[i], s.Q(side)[i][0].handle);
    ReplaceLevel(s, held, side, i, a', l', FillFront(s.Q(side)[i], f), s.exact && f != TWO31);
    PartitionFill(side, s.a, a', s.bidQ, s.askQ, s.free, s.live, held, i, f);
    forall m | 0 <= m < MAX_ORDERS ensures EntryOk(a', s.table[m], m, s.live, held) {
      assert EntryOk(s.a, s.table[m], m, s.live, held);
    }
  }

  /** The state after the order in hand `o` was unregistered and freed. */
  ghost function Released(s: State, o: nat, a': seq<Order>): State
    requires o < |s.a| && Slot(s.a[o].id) < |s.table|
  {
    s.(a := a', table := s.table[Slot(s.a[o].id) := NIL], free := s.free + [o])
  }

  lemma ReleaseOk(s: State, held: set<nat>, o: nat, a': seq<Order>)
    requires Core(s, held) && o in held && Same(s.a, a', {o}) && Keeps(s.a, a')
    ensures Core(Released(s, o, a'), held - {o})
  {
    SideFrame(Buy, s.a, a', s.bidLevels, s.bidQ, s.exact, s.exact, {o});
    SideFrame(Sell, s.a, a', s.askLevels, s.askQ, s.exact, s.exact, {o});
    PartitionRelease(s.a, a', s.bidQ, s.askQ, s.free, s.live, held, o);
    var table' := s.table[Slot(s.a[o].id) := NIL];
    forall m | 0 <= m < MAX_ORDERS ensures EntryOk(a', table'[m], m, s.live, held - {o}) {
      assert EntryOk(s.a, s.table[m], m, s.live, held);
    }
  }

  /** The state after the last free cell was allocated, written and registered. */
  ghost function Acquired(s: State, a': seq<Order>): State
    requires s.free != [] && s.free[|s.free| - 1] < |a'| && |s.table| == MAX_ORDERS
  {
    var o := s.free[|s.free| - 1];
    s.(a := a', table := s.table[Slot(a'[o].id) := o], free := s.free[..|s.free| - 1])
  }

  lemma AcquireOk(s: State, held: set<nat>, a': seq<Order>)
    requires Core(s, held) && s.free != [] && Same(s.a, a', {s.free[|s.free| - 1]})
    ensures s.free[|s.free| - 1] < |a'|
    ensures Core(Acquired(s, a'), held + {s.free[|s.free| - 1]})
  {
    var o := s.free[|s.free| - 1];
    PartitionAcquire(s.a, a', s.bidQ, s.askQ, s.free, s.live, held);
    SideFrame(Buy, s.a, a', s.bidLevels, s.bidQ, s.exact, s.exact, {o});
    SideFrame(Sell, s.a, a', s.askLevels, s.askQ, s.exact, s.exact, {o});
    var table' := s.table[Slot(a'[o].id) := o];
    forall m | 0 <= m < MAX_ORDERS ensures EntryOk(a', table'[m], m, s.live, held + {o}) {
      assert EntryOk(s.a, s.table[m], m, s.live, held);
    }
  }

  /** Freshly allocated storage is the empty book. */
  lemma InitialState(s: State, capacity: nat)
    requires |s.a| == capacity < TWO32 && s.free == InitialFree(capacity) && s.exact && s.live == {}
    requires s.bidLevels == s.askLevels == seq(PRICE_LEVELS, _ => EMPTY_LEVEL) && s.bidQ == s.askQ == EMPTY_LADDER
    requires s.table == seq(MAX_ORDERS, _ => NIL)
    ensures Core(s, {}) && IndexOf(s.table) == map[] && Occupied(EMPTY_LADDER) == {}
    ensures Flat(Buy, s.bidQ) == Flat(Sell, s.askQ) == []
  {
    hide SideOk, Partition, TableOk, Flat, InitialFree, EMPTY_LADDER, IndexOf, Occupied;
    InitialSide(Buy, s.a);
    InitialSide(Sell, s.a);
    InitialPartition(s.a);
    InitialTable(s.a, s.table);
  }

  lemma InitialSide(side: Side, a: seq<Order>)
    ensures SideOk(side, a, seq(PRICE_LEVELS, _ => EMPTY_LEVEL), EMPTY_LADDER, true)
    ensures Occupied(EMPTY_LADDER) == {} && Flat(side, EMPTY_LADDER) == []
  {
    var levels := seq(PRICE_LEVELS, _ => EMPTY_LEVEL);
    forall i | 0 <= i < PRICE_LEVELS ensures LevelOk(side, a, levels, EMPTY_LADDER, true, i) {}
    FlatSkip(side, EMPTY_LADDER, 0, PRICE_LEVELS);
  }

  lemma InitialPartition(a: seq<Order>)
    ensures Partition(a, EMPTY_LADDER, EMPTY_LADDER, InitialFree(|a|), {}, {})
  {
    var free := InitialFree(|a|);
    forall h: nat | h < |a| ensures h in free { assert free[|a| - 1 - h] == h; }
  }

  lemma InitialTable(a: seq<Order>, table: seq<int>)
    requires table == seq(MAX_ORDERS, _ => NIL)
    ensures TableOk(a, table, {}, {}) && IndexOf(table) == map[]
  {
  }

  // ----- Trading at the best level -----

  /** Level i is the best occupied level of the side, or at least none is better. */
  ghost predicate NoneBetter(side: Side, q: Levels, i: nat) {
    forall m :: 0 <= m < |q| && Better(side, m, i) ==> q[m] == []
  }

  lemma FlatAt(side: Side, q: Levels, i: nat, s: seq<Resting>) returns (rest: seq<Resting>)
    requires i < |q| && NoneBetter(side, q, i)
    ensures Flat(side, q) == q[i] + rest && Flat(side, q[i := s]) == s + rest
  {
    var p := if side == Sell then i else |q| - 1 - i;
    FlatBest(side, q, p, s);
    rest := FlatFrom(side, q, p + 1);
  }

  /** Level i after one trade of the taker's remainder `qty` with its front order, as `drain_level` leaves it. */
  ghost function OneTrade(q: Levels, i: nat, qty: nat): Levels
    requires i < |q| && q[i] != []
  {
    if q[i][0].rem <= qty then Dropped(Eaten(q, i, q[i][0].rem), i, 0) else Eaten(q, i, qty)
  }

  /** One trade at the best level is one step of the sweep over the whole side. */
  lemma OneTradeFlat(side: Side, q: Levels, i: nat, qty: nat)
    requires i < |q| && q[i] != [] && NoneBetter(side, q, i)
    ensures Flat(side, q) != [] && Flat(side, q)[0] == q[i][0]
    ensures var s := Flat(side, q); var r := s[0];
            Flat(side, OneTrade(q, i, qty)) == if r.rem <= qty then s[1..] else [r.(rem := r.rem - qty)] + s[1..]
  {
    var q' := OneTrade(q, i, qty);
    var rest := FlatAt(side, q, i, q'[i]);
    assert q' == q[i := q'[i]];
    assert (q[i] + rest)[1..] == q[i][1..] + rest;
    if q[i][0].rem <= qty {
      assert q'[i] == q[i][1..];
    } else {
      assert q'[i] == [q[i][0].(rem := q[i][0].rem - qty)] + q[i][1..];
    }
  }

  /** The sweep state of a match in progress. */
  ghost function SweepOf(s: State, side: Side, agg: nat, fills: seq<Fill>): Sweep
    requires agg < |s.a| && s.a[agg].filled <= s.a[agg].quantity
  {
    Sweep(Flat(side, s.Q(side)), s.a[agg].Remaining(), IndexOf(s.table), s.free, fills)
  }

  /** The order in hand `agg` is the taker t. */
  ghost predicate IsTaker(o: Order, t: Taker) {
    o.id == t.id && o.client == t.client && o.side == t.side && o.filled <= o.quantity < TWO32
  }

  lemma OneTradePositive(q: Levels, i: nat, qty: nat)
    requires Positive(q) && i < |q| && q[i] != []
    ensures Positive(OneTrade(q, i, qty))
  {
    var q': Levels := OneTrade(q, i, qty);
    forall m, j | 0 <= m < |q'| && 0 <= j < |q'[m]| ensures q'[m][j].rem > 0 {
      if m == i && q[i][0].rem <= qty { assert q'[m][j] == q[m][j + 1]; }
    }
  }

  /** What one pass of the `drain_level` loop does to state and fills: one step of the sweep at level i. */
  ghost predicate MatchedOne(s: State, fills: seq<Fill>, s': State, fills': seq<Fill>, side: Side, i: nat, agg: nat,
                             t: Taker)
    requires i < |s.Q(side)| && s.Q(side)[i] != [] && agg < |s.a| == |s'.a| && s.a[agg].filled <= s.a[agg].quantity
  {
    && IsTaker(s'.a[agg], t) && Positive(s'.Q(side))
    && SweepOf(s', side, agg, fills') == Step(t, SweepOf(s, side, agg, fills))
    && s'.Q(side) == OneTrade(s.Q(side), i, s.a[agg].Remaining())
    && s'.a[agg] == s.a[agg].(filled := s'.a[agg].filled)
    && s'.L(side.Other()) == s.L(side.Other()) && s'.Q(side.Other()) == s.Q(side.Other())
    && |fills'| == |fills| + 1 && s'.exact == (s.exact && fills'[|fills|].quantity != TWO31)
  }

  /** The situation before a trade. */
  ghost predicate Ready(s: State, side: Side, i: nat, agg: nat, t: Taker) {
    && i < |s.Q(side)| && s.Q(side)[i] != [] && NoneBetter(side, s.Q(side), i) && Positive(s.Q(side))
    && agg < |s.a| && IsTaker(s.a[agg], t) && t.side == side.Other() && s.a[agg].Remaining() > 0
    && s.Q(side)[i][0].handle < |s.a| && s.Q(side)[i][0].handle != agg
    && Represents(s.a[s.Q(side)[i][0].handle], side, s.Q(side)[i][0])
  }

  /** The parts of a state after one trade, put together, are one step of the sweep. */
  lemma OneTradeStep(s: State, s': State, side: Side, i: nat, agg: nat, t: Taker, fills: seq<Fill>, fills': seq<Fill>)
    requires Ready(s, side, i, agg, t) && |s'.a| == |s.a|
    requires var front := s.Q(side)[i][0]; var f := Min(s.a[agg].Remaining(), front.rem);
             && s'.a[agg] == s.a[agg].Filled(f) && s'.Q(side) == OneTrade(s.Q(side), i, s.a[agg].Remaining())
             && fills' == fills + [FillOf(side, s.a[agg], s.a[front.handle], f)]
             && (if f == front.rem then
                   IndexOf(s'.table) == IndexOf(s.table) - {Slot(front.id)} && s'.free == s.free + [front.handle]
                 else s'.table == s.table && s'.free == s.free)
    ensures IsTaker(s'.a[agg], t) && SweepOf(s', side, agg, fills') == Step(t, SweepOf(s, side, agg, fills))
  {
    hide Flat, OneTrade, Positive, NoneBetter, IndexOf, Slot;
    OneTradeFlat(side, s.Q(side), i, s.a[agg].Remaining());
  }

  /** The front order is filled exactly when the trade took its whole remainder. */
  lemma FilledWhole(s: State, side: Side, i: nat, agg: nat, t: Taker, f: nat)
    requires Ready(s, side, i, agg, t) && f == Min(s.a[agg].Remaining(), s.Q(side)[i][0].rem)
    ensures var h := s.Q(side)[i][0].handle;
            && Traders(s.a, agg, h, f)[h].IsFilled() == (f == s.Q(side)[i][0].rem)
            && Traders(s.a, agg, h, f)[agg] == s.a[agg].Filled(f)
            && Traders(s.a, agg, h, f)[h].id == s.Q(side)[i][0].id
  {
  }

  lemma PartialTrade(s: State, fills: seq<Fill>, s1: State, fills': seq<Fill>, side: Side, i: nat, agg: nat, t: Taker,
                     f: nat)
    requires Ready(s, side, i, agg, t)
    requires f == Min(s.a[agg].Remaining(), s.Q(side)[i][0].rem)
    requires s1.a == Traders(s.a, agg, s.Q(side)[i][0].handle, f) && s1 == Traded(s, side, i, f, s1.a, s1.L(side))
    requires fills' == fills + [FillOf(side, s.a[agg], s.a[s.Q(side)[i][0].handle], f)]
    requires !s1.a[s.Q(side)[i][0].handle].IsFilled()
    ensures MatchedOne(s, fills, s1, fills', side, i, agg, t)
  {
    FilledWhole(s, side, i, agg, t, f);
    hide SweepOf, Step, Flat, IsTaker, Positive, Represents, NoneBetter, IndexOf;
    OneTradePositive(s.Q(side), i, s.a[agg].Remaining());
    OneTradeStep(s, s1, side, i, agg, t, fills, fills');
  }

  lemma FullTrade(s: State, fills: seq<Fill>, s1: State, s2: State, s3: State, fills': seq<Fill>,
                  side: Side, i: nat, agg: nat, t: Taker, f: nat)
    requires Ready(s, side, i, agg, t)
    requires f == Min(s.a[agg].Remaining(), s.Q(side)[i][0].rem)
    requires s1.a == Traders(s.a, agg, s.Q(side)[i][0].handle, f) && s1 == Traded(s, side, i, f, s1.a, s1.L(side))
    requires fills' == fills + [FillOf(side, s.a[agg], s.a[s.Q(side)[i][0].handle], f)]
    requires s1.a[s.Q(side)[i][0].handle].IsFilled()
    requires OnlyLinks(s1.a, s2.a) && s2.a[agg] == s1.a[agg] && s2 == Unlinked(s1, side, i, 0, s2.a, s2.L(side))
    requires |s3.a| == |s2.a| && s3.a[agg] == s2.a[agg] && |s2.table| == MAX_ORDERS
             && s3 == Released(s2, s.Q(side)[i][0].handle, s3.a)
    ensures MatchedOne(s, fills, s3, fills', side, i, agg, t)
  {
    FilledWhole(s, side, i, agg, t, f);
    assert s2.a[s.Q(side)[i][0].handle].id == s.Q(side)[i][0].id;
    hide SweepOf, Step, Flat, IsTaker, Positive, Represents, NoneBetter, IndexOf, OnlyLinks, Slot;
    IndexSet(s2.table, Slot(s.Q(side)[i][0].id), 0);
    OneTradePositive(s.Q(side), i, s.a[agg].Remaining());
    OneTradeStep(s, s3, side, i, agg, t, fills, fills');
  }

  lemma ReadyInfo(s: State, held: set<nat>, side: Side, i: nat, agg: nat, t: Taker)
    requires Core(s, held) && Ready(s, side, i, agg, t)
    ensures i < PRICE_LEVELS == |s.Q(side)| == |s.L(side)| && s.Q(side)[i] != [] && agg < |s.a|
            && s.Q(side)[i][0].handle != agg
    ensures s.a[agg].filled <= s.a[agg].quantity < TWO32
  {
  }

  lemma TradedInfo(s: State, side: Side, i: nat, f: nat, s1: State)
    requires i < |s.Q(side)| && s.Q(side)[i] != [] && f <= s.Q(side)[i][0].rem
             && s1 == Traded(s, side, i, f, s1.a, s1.L(side))
    ensures |s1.Q(side)| == |s.Q(side)| && s1.Q(side)[i] != [] && s1.Q(side)[i][0].handle == s.Q(side)[i][0].handle
  {
  }

  // ----- Several trades in a row -----

  /** No fill has the one quantity whose aggregate update overflows. */
  ghost predicate NoOverflow(fills: seq<Fill>) { forall i :: 0 <= i < |fills| ==> fills[i].quantity != TWO31 }

  /** What a stretch of matching keeps: the final result of the sweep, and everything on the taker's own side. */
  ghost predicate Swept(s: State, fills: seq<Fill>, s': State, fills': seq<Fill>, side: Side, agg: nat, t: Taker) {
    && agg < |s.a| == |s'.a| && IsTaker(s.a[agg], t) && IsTaker(s'.a[agg], t)
    && SweepAll(t, SweepOf(s', side, agg, fills')) == SweepAll(t, SweepOf(s, side, agg, fills))
    && Positive(s'.Q(side)) && |s'.Q(side)| == |s.Q(side)| && s'.a[agg] == s.a[agg].(filled := s'.a[agg].filled)
    && s'.L(side.Other()) == s.L(side.Other()) && s'.Q(side.Other()) == s.Q(side.Other())
    && fills <= fills' && s'.exact == (s.exact && NoOverflow(fills'[|fills|..]))
  }

  lemma SweptTrans(s: State, fills: seq<Fill>, s1: State, fills1: seq<Fill>, s2: State, fills2: seq<Fill>, side: Side,
                   agg: nat, t: Taker)
    requires Swept(s, fills, s1, fills1, side, agg, t) && Swept(s1, fills1, s2, fills2, side, agg, t)
    ensures Swept(s, fills, s2, fills2, side, agg, t)
  {
    hide SweepOf, SweepAll, Positive, IsTaker;
    assert fills2[|fills|..] == fills1[|fills|..] + fills2[|fills1|..];
  }

  /** The taker's remainder and the opposite side shrink. */
  ghost predicate Less(s: State, s': State, side: Side, agg: nat)
    requires agg < |s.a| == |s'.a|
  {
    || |Flat(side, s'.Q(side))| < |Flat(side, s.Q(side))|
    || (|Flat(side, s'.Q(side))| == |Flat(side, s.Q(side))| && s'.a[agg].Remaining() < s.a[agg].Remaining())
  }

  /** One trade at a level the taker crosses. */
  lemma SweptOne(s: State, fills: seq<Fill>, s': State, fills': seq<Fill>, side: Side, i: nat, agg: nat, t: Taker)
    requires Ready(s, side, i, agg, t) && s.Q(side)[i][0].price == i + MIN_PRICE && Crosses(t, i + MIN_PRICE)
    requires |s'.a| == |s.a| && MatchedOne(s, fills, s', fills', side, i, agg, t)
    ensures Swept(s, fills, s', fills', side, agg, t) && Less(s, s', side, agg)
    ensures forall k :: 0 <= k < |s.Q(side)| && k != i ==> s'.Q(side)[k] == s.Q(side)[k]
    ensures |s'.Q(side)[i]| < |s.Q(side)[i]|
            || (|s'.Q(side)[i]| == |s.Q(side)[i]| && s'.a[agg].Remaining() < s.a[agg].Remaining())
    ensures NoneBetter(side, s'.Q(side), i)
  {
    hide Flat, IndexOf, Positive, Represents, FillOf;
    OneTradeFlat(side, s.Q(side), i, s.a[agg].Remaining());
    var w := SweepOf(s, side, agg, fills);
    assert Going(t, w);
    assert SweepAll(t, w) == SweepAll(t, Step(t, w));
    assert fills'[|fills|..] == [fills'[|fills|]];
  }

  /** The taker in hand faces level i, which no occupied level betters. */
  ghost predicate Facing(s: State, side: Side, i: nat, agg: nat, t: Taker) {
    && i < |s.Q(side)| && NoneBetter(side, s.Q(side), i) && Positive(s.Q(side))
    && agg < |s.a| && IsTaker(s.a[agg], t) && t.side == side.Other()
  }

  lemma EmptyLevel(s: State, held: set<nat>, side: Side, i: nat)
    requires Core(s, held) && i < PRICE_LEVELS
    ensures |s.Q(side)| == |s.L(side)| == PRICE_LEVELS && (s.L(side)[i].Empty() <==> s.Q(side)[i] == [])
  {
    assert LevelOk(side, s.a, s.L(side), s.Q(side), s.exact, i);
  }

  lemma FacingReady(s: State, held: set<nat>, side: Side, i: nat, agg: nat, t: Taker)
    requires Core(s, held) && agg in held && i < PRICE_LEVELS && Facing(s, side, i, agg, t) && s.Q(side)[i] != []
             && !s.a[agg].IsFilled()
    ensures Ready(s, side, i, agg, t) && s.Q(side)[i][0].price == i + MIN_PRICE
  {
    FrontInfo(s, held, side, i, agg);
    assert LevelOk(side, s.a, s.L(side), s.Q(side), s.exact, i);
  }

  lemma SweptRefl(s: State, fills: seq<Fill>, side: Side, agg: nat, t: Taker)
    requires agg < |s.a| && IsTaker(s.a[agg], t) && Positive(s.Q(side))
    ensures Swept(s, fills, s, fills, side, agg, t)
  {
  }

  /** What `drain_level` achieves at level i. */
  ghost predicate Drained(s: State, fills: seq<Fill>, s': State, fills': seq<Fill>, side: Side, i: nat, agg: nat,
                          t: Taker) {
    && Swept(s, fills, s', fills', side, agg, t) && Facing(s', side, i, agg, t) && i < |s.Q(side)|
    && (forall k :: 0 <= k < |s.Q(side)| && k != i ==> s'.Q(side)[k] == s.Q(side)[k])
    && (s' == s || Less(s, s', side, agg))
  }

  lemma DrainedRefl(s: State, fills: seq<Fill>, side: Side, i: nat, agg: nat, t: Taker)
    requires Facing(s, side, i, agg, t)
    ensures Drained(s, fills, s, fills, side, i, agg, t)
  {
    SweptRefl(s, fills, side, agg, t);
  }

  lemma DrainedOne(s: State, fills: seq<Fill>, s1: State, fills1: seq<Fill>, s2: State, fills2: seq<Fill>,
                   side: Side, i: nat, agg: nat, t: Taker)
    requires Drained(s, fills, s1, fills1, side, i, agg, t)
    requires Ready(s1, side, i, agg, t) && s1.Q(side)[i][0].price == i + MIN_PRICE && Crosses(t, i + MIN_PRICE)
    requires |s2.a| == |s1.a| && MatchedOne(s1, fills1, s2, fills2, side, i, agg, t)
    ensures Drained(s, fills, s2, fills2, side, i, agg, t) && Less(s, s2, side, agg)
    ensures |s2.Q(side)[i]| < |s1.Q(side)[i]|
            || (|s2.Q(side)[i]| == |s1.Q(side)[i]| && s2.a[agg].Remaining() < s1.a[agg].Remaining())
  {
    SweptOne(s1, fills1, s2, fills2, side, i, agg, t);
    SweptTrans(s, fills, s1, fills1, s2, fills2, side, agg, t);
  }

  /** A match counter that has advanced once per fill. */
  ghost predicate Counted(count: nat, fills: seq<Fill>, count': nat, fills': seq<Fill>) {
    |fills| <= |fills'| && count' == (count + |fills'| - |fills|) % TWO64
  }

  lemma CountedOne(count: nat, fills: seq<Fill>, count1: nat, fills1: seq<Fill>, count2: nat, fills2: seq<Fill>)
    requires Counted(count, fills, count1, fills1) && |fills2| == |fills1| + 1 && count2 == (count1 + 1) % TWO64
    ensures Counted(count, fills, count2, fills2)
  {
    WrapStep(count + |fills1| - |fills|);
  }

  lemma WrapStep(x: nat)
    ensures (x % TWO64 + 1) % TWO64 == (x + 1) % TWO64
  {
  }

  lemma CountedRefl(count: nat, fills: seq<Fill>)
    requires count < TWO64
    ensures Counted(count, fills, count, fills)
  {
  }

  lemma FacingInfo(s: State, side: Side, i: nat, agg: nat, t: Taker)
    requires Facing(s, side, i, agg, t)
    ensures agg < |s.a| && i < |s.Q(side)| && s.a[agg].filled <= s.a[agg].quantity < TWO32
  {
  }

  lemma DrainedInfo(s: State, fills: seq<Fill>, s': State, fills': seq<Fill>, side: Side, i: nat, agg: nat, t: Taker)
    requires Drained(s, fills, s', fills', side, i, agg, t)
    ensures Facing(s', side, i, agg, t)
  {
  }

  lemma MatchedOneInfo(s: State, fills: seq<Fill>, s': State, fills': seq<Fill>, side: Side, i: nat, agg: nat, t: Taker)
    requires i < |s.Q(side)| && s.Q(side)[i] != [] && agg < |s.a| == |s'.a| && s.a[agg].filled <= s.a[agg].quantity
    requires MatchedOne(s, fills, s', fills', side, i, agg, t)
    ensures s'.a[agg].filled <= s'.a[agg].quantity < TWO32 && |s'.Q(side)| == |s.Q(side)| && |fills'| == |fills| + 1
  {
  }

  // ----- Cached best prices -----

  /** The cached best is the price at the front of the side's queue, or the sentinel if the side is empty. */
  lemma BestIsFront(s: State, held: set<nat>, side: Side, best: nat)
    requires Core(s, held) && BestOk(side, s.Q(side), best)
    ensures best == Sentinel(side) <==> Flat(side, s.Q(side)) == []
    ensures best != Sentinel(side) ==>
              && MIN_PRICE <= best <= MAX_PRICE && |s.Q(side)| == PRICE_LEVELS
              && s.Q(side)[best - MIN_PRICE] != [] && NoneBetter(side, s.Q(side), best - MIN_PRICE)
              && Flat(side, s.Q(side))[0].price == best
  {
    var q := s.Q(side);
    CoreSide(s, held, side);
    hide Core, SideOk, Flat;
    if Occupied(q) == {} {
      FlatSkip(side, q, 0, |q|);
      FlatDone(side, q);
    } else {
      var i := best - MIN_PRICE;
      forall m | 0 <= m < |q| && Better(side, m, i) ensures q[m] == [] {
        assert m in Occupied(q) <==> q[m] != [];
      }
      var rest := FlatAt(side, q, i, q[i]);
    }
  }

  lemma FlatDone(side: Side, q: Levels)
    ensures FlatFrom(side, q, |q|) == [] && Flat(side, q) == FlatFrom(side, q, 0)
  {
  }

  lemma CoreSide(s: State, held: set<nat>, side: Side)
    requires Core(s, held)
    ensures |s.Q(side)| == PRICE_LEVELS && Placed(s.Q(side))
  {
    hide Partition, TableOk, SideOk, Placed;
    SidePlaced(side, s.a, s.L(side), s.Q(side), s.exact);
    SideLength(side, s.a, s.L(side), s.Q(side), s.exact);
  }

  lemma SideLength(side: Side, a: seq<Order>, levels: seq<PriceLevel>, q: Levels, exact: bool)
    requires SideOk(side, a, levels, q, exact)
    ensures |levels| == |q| == PRICE_LEVELS
  {
  }

  /** Draining the best level changes its occupancy only. */
  lemma DrainedOccupied(s: State, fills: seq<Fill>, s': State, fills': seq<Fill>, side: Side, i: nat, agg: nat,
                        t: Taker)
    requires Drained(s, fills, s', fills', side, i, agg, t) && s.Q(side)[i] != []
    ensures i < |s'.Q(side)| && Swept(s, fills, s', fills', side, agg, t) && s'.Q(side.Other()) == s.Q(side.Other())
    ensures Occupied(s'.Q(side)) == if s'.Q(side)[i] == [] then Occupied(s.Q(side)) - {i} else Occupied(s.Q(side))
  {
    hide SweepOf, Flat;
  }

  lemma FacingBest(s: State, side: Side, i: nat, agg: nat, t: Taker)
    requires agg < |s.a| && i < |s.Q(side)| && NoneBetter(side, s.Q(side), i) && Positive(s.Q(side))
    requires IsTaker(s.a[agg], t) && t.side == side.Other()
    ensures Facing(s, side, i, agg, t)
  {
  }

  lemma SweptInfo(s: State, fills: seq<Fill>, s': State, fills': seq<Fill>, side: Side, agg: nat, t: Taker)
    requires Swept(s, fills, s', fills', side, agg, t)
    ensures agg < |s'.a| == |s.a| && IsTaker(s'.a[agg], t) && s'.a[agg].filled <= s'.a[agg].quantity < TWO32
            && Positive(s'.Q(side))
  {
  }

  lemma CountedTrans(count: nat, fills: seq<Fill>, count1: nat, fills1: seq<Fill>, count2: nat, fills2: seq<Fill>)
    requires Counted(count, fills, count1, fills1) && Counted(count1, fills1, count2, fills2)
    ensures Counted(count, fills, count2, fills2)
  {
  }

  /** When the best price no longer crosses or the taker is filled, the sweep is over. */
  lemma SweptOver(s: State, fills: seq<Fill>, s': State, fills': seq<Fill>, held: set<nat>, side: Side, agg: nat,
                  t: Taker, best: nat)
    requires Swept(s, fills, s', fills', side, agg, t) && Core(s', held) && BestOk(side, s'.Q(side), best)
    requires s'.a[agg].IsFilled() || !Crosses(t, best) || best == Sentinel(side)
    ensures SweepOf(s', side, agg, fills') == SweepAll(t, SweepOf(s, side, agg, fills))
  {
    BestIsFront(s', held, side, best);
  }

  lemma LessInfo(s: State, s': State, side: Side, agg: nat)
    requires agg < |s.a| == |s'.a| && Less(s, s', side, agg)
    ensures |Flat(side, s'.Q(side))| < |Flat(side, s.Q(side))|
            || (|Flat(side, s'.Q(side))| == |Flat(side, s.Q(side))| && s'.a[agg].Remaining() < s.a[agg].Remaining())
  {
  }

  /** The best price depends on the occupied levels only. */
  lemma BestSame(side: Side, q: Levels, q': Levels, best: nat)
    requires BestOk(side, q, best) && Occupied(q') == Occupied(q)
    ensures BestOk(side, q', best)
  {
  }

  // ----- From storage to specification -----

  /** The book a state represents. */
  ghost function AbstractOf(s: State): Book {
    Book(Flat(Buy, s.bidQ), Flat(Sell, s.askQ), IndexOf(s.table), s.free)
  }

  /** Priority index of level i, the inverse of At. */
  ghost function Rank(side: Side, n: nat, i: nat): int { if side == Sell then i else n - 1 - i }

  /** A remainder that joins its level is inserted into its sorted side. */
  lemma JoinedFlat(s: State, held: set<nat>, side: Side, i: nat, r: Resting)
    requires Core(s, held) && i < PRICE_LEVELS && r.price == i + MIN_PRICE
    ensures |s.Q(side)| == PRICE_LEVELS && Flat(side, Grown(s.Q(side), i, r)) == Insert(side, Flat(side, s.Q(side)), r)
  {
    SidePlaced(side, s.a, s.L(side), s.Q(side), s.exact);
    FlatPush(side, s.Q(side), r, 0, Rank(side, PRICE_LEVELS, i));
  }

  /** The book after the matching phase of an accepted order, which is still in hand. */
  ghost function MatchedBook(b: Book, m: Matched, id: nat, side: Side): Book
    requires b.free != []
  {
    b.WithQueue(side.Other(), m.rest).(index := Unregister(b.index[Slot(id) := b.free[|b.free| - 1]], m.done),
                                       free := b.free[..|b.free| - 1] + Handles(m.done))
  }

  /** The fills and the book after the matching phase of an accepted order. */
  lemma MatchPhase(s: State, s1: State, s2: State, held: set<nat>, fills: seq<Fill>, fills': seq<Fill>,
                   id: nat, client: nat, side: Side, kind: OrderType, price: nat, qty: nat)
    requires Core(s, held) && s.free != [] && |s.a| == |s1.a| && s.free[|s.free| - 1] < |s.a| && |s.table| == MAX_ORDERS
    requires s1 == Acquired(s, s1.a)
    requires var o := s1.a[s.free[|s.free| - 1]]; o.id == id && o.quantity == qty && o.filled == 0
    requires var t := TakerOf(id, client, side, kind, price); var o := s.free[|s.free| - 1];
             && Swept(s1, fills, s2, fills', side.Other(), o, t)
             && SweepOf(s2, side.Other(), o, fills') == SweepAll(t, SweepOf(s1, side.Other(), o, fills))
    ensures var b := AbstractOf(s); var m := MatchOf(b, id, client, side, kind, price, qty);
            var o := s.free[|s.free| - 1];
            && fills' == fills + m.fills && s2.exact == (s.exact && NoOverflow(m.fills))
            && s2.a[o].filled <= s2.a[o].quantity && s2.a[o].Remaining() == m.left
            && AbstractOf(s2) == MatchedBook(b, m, id, side)
  {
    var o, t := s.free[|s.free| - 1], TakerOf(id, client, side, kind, price);
    var w := SweepOf(s1, side.Other(), o, fills);
    IndexSet(s.table, Slot(id), o);
    SweepIsMatch(t, w);
    hide Flat, Positive, SweepAll, Match, Unregister, IndexOf, Handles;
    assert w == Sweep(AbstractOf(s).Queue(side.Other()), qty, IndexOf(s.table)[Slot(id) := o], s.free[..|s.free| - 1],
           fills);
    var m := MatchOf(AbstractOf(s), id, client, side, kind, price, qty);
    assert fills'[|fills|..] == m.fills;
  }

  /** The matched order rests: its insertion completes the specified book. */
  lemma AddRests(s: State, s2: State, s3: State, held: set<nat>, m: Matched, id: nat, client: nat, side: Side,
                 price: nat, qty: nat)
    requires Core(s2, held) && s.free != [] && MIN_PRICE <= price <= MAX_PRICE
    requires m == MatchOf(AbstractOf(s), id, client, side, Limit, price, qty) && m.left > 0
    requires AbstractOf(s2) == MatchedBook(AbstractOf(s), m, id, side)
    requires var r := Resting(s.free[|s.free| - 1], id, client, price, m.left);
             |s2.Q(side)| == PRICE_LEVELS && s3 == Joined(s2, side, price - MIN_PRICE, r, s3.a, s3.L(side))
    ensures Outcome(true, AbstractOf(s3), m.fills) == Add(AbstractOf(s), id, client, side, Limit, price, qty)
  {
    JoinedFlat(s2, held, side, price - MIN_PRICE, Resting(s.free[|s.free| - 1], id, client, price, m.left));
    hide Flat, IndexOf, Match, Unregister, Handles, Insert;
  }

  /** The matched order leaves nothing to rest, or is a market order: it is freed. */
  lemma AddLeaves(s: State, s2: State, s3: State, m: Matched, id: nat, client: nat, side: Side, kind: OrderType,
                  price: nat, qty: nat)
    requires Acceptable(AbstractOf(s), kind, price) && |s2.table| == MAX_ORDERS
    requires m == MatchOf(AbstractOf(s), id, client, side, kind, price, qty) && (m.left == 0 || kind == Market)
    requires AbstractOf(s2) == MatchedBook(AbstractOf(s), m, id, side)
    requires var o := s.free[|s.free| - 1]; o < |s2.a| && s2.a[o].id == id && s3 == Released(s2, o, s3.a)
    ensures Outcome(true, AbstractOf(s3), m.fills) == Add(AbstractOf(s), id, client, side, kind, price, qty)
  {
    IndexSet(s2.table, Slot(id), 0);
    hide Flat, IndexOf, Match, Unregister, Handles;
  }

  lemma GrownOccupied(side: Side, q: Levels, i: nat, r: Resting, best: nat)
    requires i < |q| == PRICE_LEVELS && BestOk(side, q, best) && r.rem > 0
    ensures Occupied(Grown(q, i, r)) == Occupied(q) + {i}
    ensures BestOk(side, Grown(q, i, r), if Better(side, i + MIN_PRICE, best) then i + MIN_PRICE else best)
  {
  }

  lemma GrownPositive(q: Levels, i: nat, r: Resting)
    requires i < |q| && r.rem > 0
    ensures Positive(q) ==> Positive(Grown(q, i, r))
  {
    var q': Levels := Grown(q, i, r);
    forall m, j | Positive(q) && 0 <= m < |q'| && 0 <= j < |q'[m]| ensures q'[m][j].rem > 0 {
      if m == i && j < |q[m]| { assert q'[m][j] == q[m][j]; }
    }
  }

  lemma OccupiedInfo(q: Levels, i: nat)
    requires i < |q|
    ensures i in Occupied(q) <==> q[i] != []
  {
  }

  lemma JoinedInfo(s: State, side: Side, i: nat, r: Resting, s': State)
    requires i < |s.Q(side)| && s' == Joined(s, side, i, r, s'.a, s'.L(side))
    ensures s'.Q(side) == Grown(s.Q(side), i, r) && s'.Q(side.Other()) == s.Q(side.Other()) && s'.exact == s.exact
  {
  }

  /** A public call did what the specification says: it returned `r.ok`, left the book `r.book`, appended `r.fills`,
      advanced the match counter once per fill, and kept the aggregates exact unless a fill of 2^31 overflowed one. */
  ghost predicate Did(r: Outcome, ok: bool, b': Book, fills: seq<Fill>, fills': seq<Fill>, count: nat, count': nat,
                      exact: bool, exact': bool) {
    && ok == r.ok && b' == r.book && fills' == fills + r.fills
    && Counted(count, fills, count', fills') && exact' == (exact && NoOverflow(r.fills))
  }

  lemma DidNothing(b: Book, fills: seq<Fill>, count: nat, exact: bool)
    requires count < TWO64
    ensures Did(Outcome(false, b, []), false, b, fills, fills, count, count, exact, exact)
  {
  }

  lemma DidIt(r: Outcome, b': Book, fills: seq<Fill>, fills': seq<Fill>, count: nat, count': nat, exact: bool,
              exact': bool)
    requires r.ok && b' == r.book && fills' == fills + r.fills
    requires Counted(count, fills, count', fills') && exact' == (exact && NoOverflow(r.fills))
    ensures Did(r, true, b', fills, fills', count, count', exact, exact')
  {
  }

  /** What the matching phase leaves in the cell of the order in hand. */
  lemma HandAfter(s1: State, fills: seq<Fill>, s2: State, fills': seq<Fill>, side: Side, o: nat, t: Taker, r: Resting)
    requires Swept(s1, fills, s2, fills', side.Other(), o, t)
    requires s1.a[o].side == side && s1.a[o].id == r.id && s1.a[o].client == r.client && s1.a[o].price == r.price
             && r.handle == o
    requires s2.a[o].Remaining() == r.rem
    ensures Represents(s2.a[o], side, r) && s2.a[o].id == r.id
    ensures s2.a[o].IsFilled() <==> r.rem == 0
    ensures s2.Q(side) == s1.Q(side) && Positive(s2.Q(side.Other()))
  {
    hide SweepOf, SweepAll, Positive, NoOverflow;
  }

  lemma AcquiredInfo(s: State, s': State)
    requires s.free != [] && s.free[|s.free| - 1] < |s'.a| && |s.table| == MAX_ORDERS && s' == Acquired(s, s'.a)
    ensures s'.bidQ == s.bidQ && s'.askQ == s.askQ && s'.exact == s.exact
  {
  }

  lemma FreeOf(s: State)
    ensures AbstractOf(s).free == s.free
  {
  }

  lemma ReleasedInfo(s: State, o: nat, s': State)
    requires o < |s.a| && Slot(s.a[o].id) < |s.table| && s' == Released(s, o, s'.a)
    ensures s'.bidQ == s.bidQ && s'.askQ == s.askQ && s'.exact == s.exact
  {
  }

  lemma CountedBound(count: nat, fills: seq<Fill>, count': nat, fills': seq<Fill>)
    requires Counted(count, fills, count', fills')
    ensures count' < TWO64
  {
  }

  // ----- Lookup and cancel -----

  /** A table entry leads to a resting order in the queue of its side and price. */
  lemma EntryAtHome(s: State, slot: nat) returns (k: nat)
    requires Core(s, {}) && slot < MAX_ORDERS && s.table[slot] != NIL
    ensures 0 <= s.table[slot] < |s.a|
    ensures var o := s.a[s.table[slot]];
            && MIN_PRICE <= o.price <= MAX_PRICE && |s.Q(o.side)| == PRICE_LEVELS
            && k < |s.Q(o.side)[o.price - MIN_PRICE]|
            && s.Q(o.side)[o.price - MIN_PRICE][k].handle == s.table[slot]
            && Represents(o, o.side, s.Q(o.side)[o.price - MIN_PRICE][k])
  {
    assert EntryOk(s.a, s.table[slot], slot, s.live, {});
    var h := s.table[slot];
    assert AtHome(s.a, s.bidQ, s.askQ, h);
    var o := s.a[h];
    k :| 0 <= k < |s.Q(o.side)[o.price - MIN_PRICE]| && s.Q(o.side)[o.price - MIN_PRICE][k].handle == h;
    assert LevelOk(o.side, s.a, s.L(o.side), s.Q(o.side), s.exact, o.price - MIN_PRICE);
  }

  /** Searching either sorted side for a handle finds the order where it stands. */
  lemma FindInFlat(s: State, side: Side, i: nat, k: nat)
    requires Core(s, {}) && i < PRICE_LEVELS && k < |s.Q(side)[i]|
    ensures var r := s.Q(side)[i][k];
            && Find(Flat(side, s.Q(side)), r.handle) == Some(r)
            && Find(Flat(side.Other(), s.Q(side.Other())), r.handle) == None
            && Flat(side, Dropped(s.Q(side), i, k)) == Without(Flat(side, s.Q(side)), r.handle)
  {
    OnlySide(s, {}, side, i, k);
    FlatRemove(side, s.Q(side), 0, Rank(side, PRICE_LEVELS, i), k);
    FlatAbsent(side.Other(), s.Q(side.Other()), s.Q(side)[i][k].handle);
  }

  /** The table lookup is the specified one. */
  lemma LookupHit(s: State, id: nat, side: Side, i: nat, k: nat)
    requires Core(s, {}) && i < PRICE_LEVELS && k < |s.Q(side)[i]| && s.table[Slot(id)] == s.Q(side)[i][k].handle
    ensures Lookup(AbstractOf(s), id) == if s.Q(side)[i][k].id == id then Some((side, s.Q(side)[i][k])) else None
  {
    FindInFlat(s, side, i, k);
    hide Flat, Core, Find;
  }

  lemma LookupEmpty(s: State, id: nat)
    requires Core(s, {}) && s.table[Slot(id)] == NIL
    ensures Lookup(AbstractOf(s), id) == None
  {
  }

  /** Unlinking and releasing the order the table leads to is the specified cancel. */
  lemma CancelEffect(s: State, s1: State, s2: State, id: nat, side: Side, i: nat, k: nat)
    requires Core(s, {}) && i < PRICE_LEVELS && k < |s.Q(side)[i]| && s.table[Slot(id)] == s.Q(side)[i][k].handle
             && s.Q(side)[i][k].id == id
    requires s1 == Unlinked(s, side, i, k, s1.a, s1.L(side))
    requires s.Q(side)[i][k].handle < |s1.a| && s1.a[s.Q(side)[i][k].handle].id == id
             && s2 == Released(s1, s.Q(side)[i][k].handle, s2.a)
    ensures Outcome(true, AbstractOf(s2), []) == Cancel(AbstractOf(s), id)
  {
    LookupHit(s, id, side, i, k);
    FindInFlat(s, side, i, k);
    IndexSet(s.table, Slot(id), 0);
    hide Flat, Core, Find, Without, IndexOf;
  }

  /** Occupancy and best price after one order left level i. */
  lemma DroppedOccupied(side: Side, q: Levels, i: nat, k: nat, best: nat)
    requires i < |q| == PRICE_LEVELS && k < |q[i]| && BestOk(side, q, best)
    ensures var q' := Dropped(q, i, k);
            && Occupied(q') == (if q'[i] == [] then Occupied(q) - {i} else Occupied(q))
            && (i + MIN_PRICE != best || q'[i] != [] ==> BestOk(side, q', best))
  {
    var q': Levels := Dropped(q, i, k);
    assert i in Occupied(q);
    if i + MIN_PRICE != best { assert best - MIN_PRICE in Occupied(q'); }
  }

  lemma UnlinkedInfo(s: State, side: Side, i: nat, k: nat, s': State)
    requires i < |s.Q(side)| && k < |s.Q(side)[i]| && s' == Unlinked(s, side, i, k, s'.a, s'.L(side))
    ensures s'.Q(side) == Dropped(s.Q(side), i, k) && s'.Q(side.Other()) == s.Q(side.Other()) && s'.exact == s.exact
            && s'.table == s.table
  {
  }

  lemma DroppedPositive(q: Levels, i: nat, k: nat)
    requires i < |q| && k < |q[i]| && Positive(q)
    ensures Positive(Dropped(q, i, k))
  {
    var q': Levels := Dropped(q, i, k);
    forall m, j | 0 <= m < |q'| && 0 <= j < |q'[m]| ensures q'[m][j].rem > 0 {
      if m == i { assert q'[m][j] == q[m][if j < k then j else j + 1]; }
    }
  }

  lemma RepresentsInfo(o: Order, side: Side, r: Resting)
    requires Represents(o, side, r)
    ensures r.id == o.id && r.client == o.client && r.price == o.price && o.side == side
  {
  }

  lemma OnlyLinksInfo(a: seq<Order>, b: seq<Order>, h: nat)
    requires OnlyLinks(a, b) && h < |a|
    ensures |b| == |a| && b[h].id == a[h].id && b[h].side == a[h].side
  {
  }

  /** A lookup that finds something found it through the table. */
  lemma LookupEntry(s: State, id: nat)
    requires Core(s, {}) && Lookup(AbstractOf(s), id).Some?
    ensures |s.table| == MAX_ORDERS && s.table[Slot(id)] != NIL
            && s.table[Slot(id)] == Lookup(AbstractOf(s), id).value.1.handle
  {
    FindHandle(Flat(Buy, s.bidQ), IndexOf(s.table)[Slot(id)]);
    FindHandle(Flat(Sell, s.askQ), IndexOf(s.table)[Slot(id)]);
  }

  lemma {:induction false} FindHandle(q: seq<Resting>, h: nat)
    ensures Find(q, h).Some? ==> Find(q, h).value.handle == h
  {
    if q != [] { FindHandle(q[1..], h); }
  }

  /** A price that a full scan stopped at is the best price. */
  lemma ScannedBest(side: Side, q: Levels, best: nat)
    requires |q| == PRICE_LEVELS
    requires best != Sentinel(side) ==> MIN_PRICE <= best <= MAX_PRICE && q[best - MIN_PRICE] != []
    requires forall i :: 0 <= i < |q| && Better(side, i + MIN_PRICE, best) ==> q[i] == []
    ensures BestOk(side, q, best)
  {
    if best == Sentinel(side) {
      assert Occupied(q) == {};
    } else {
      assert best - MIN_PRICE in Occupied(q);
    }
  }

  lemma BestUnique(side: Side, q: Levels, best: nat, best': nat)
    requires BestOk(side, q, best)
    ensures BestOk(side, q, best') <==> best' == best
  {
  }

  /** A call whose first part appended no fills does what its second part does. */
  lemma DidThen(c: Outcome, r: Outcome, ok: bool, b1: Book, b2: Book, fills: seq<Fill>, fills1: seq<Fill>,
                fills2: seq<Fill>, count: nat, count1: nat, count2: nat, exact: bool, exact1: bool, exact2: bool)
    requires c.fills == [] && Did(c, true, b1, fills, fills1, count, count1, exact, exact1)
    requires count < TWO64 && Did(r, ok, b2, fills1, fills2, count1, count2, exact1, exact2)
    ensures Did(r, ok, b2, fills, fills2, count, count2, exact, exact2)
  {
    assert fills1 == fills;
  }

  lemma DidBook(r: Outcome, ok: bool, b': Book, fills: seq<Fill>, fills': seq<Fill>, count: nat, count': nat,
                exact: bool, exact': bool)
    requires Did(r, ok, b', fills, fills', count, count', exact, exact')
    ensures b' == r.book && ok == r.ok
  {
  }

  lemma CancelSpec(b: Book, id: nat)
    ensures Lookup(b, id) == None ==> Cancel(b, id) == Outcome(false, b, [])
    ensures Lookup(b, id) != None ==> Cancel(b, id).ok && Cancel(b, id).fills == []
  {
    hide Lookup;
  }

  lemma AddSpec(b: Book, id: nat, client: nat, side: Side, kind: OrderType, price: nat, qty: nat)
    ensures !Acceptable(b, kind, price) ==> Add(b, id, client, side, kind, price, qty) == Outcome(false, b, [])
  {
  }
}
