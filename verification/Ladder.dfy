/** From price-indexed levels to one queue in priority order. */
module Ladder {
  import opened Types
  import opened BookSpec

  type Levels = seq<seq<Resting>>

  /** The level with k-th priority: asks run up from the lowest price, bids down from the highest. */
  ghost function At(side: Side, n: nat, k: int): int { if side == Sell then k else n - 1 - k }

  ghost function FlatFrom(side: Side, q: Levels, k: nat): seq<Resting>
    requires k <= |q|
    decreases |q| - k
  {
    if k == |q| then [] else q[At(side, |q|, k)] + FlatFrom(side, q, k + 1)
  }

  /** All orders of a side, best price first, then arrival. */
  ghost function Flat(side: Side, q: Levels): seq<Resting> { FlatFrom(side, q, 0) }

  /** Every order stands at the level of its price. */
  ghost predicate Placed(q: Levels) {
    forall i, j :: 0 <= i < |q| && 0 <= j < |q[i]| ==> q[i][j].price == i + MIN_PRICE
  }

  lemma FlatStep(side: Side, q: Levels, k: nat)
    requires k < |q|
    ensures FlatFrom(side, q, k) == q[At(side, |q|, k)] + FlatFrom(side, q, k + 1)
  {
  }

  /** Levels from priority k on: only those matter to the tail of the queue. */
  lemma {:induction false} FlatFromSame(side: Side, q: Levels, q': Levels, k: nat)
    requires k <= |q| == |q'|
    requires forall m :: k <= m < |q| ==> q'[At(side, |q|, m)] == q[At(side, |q|, m)]
    ensures FlatFrom(side, q', k) == FlatFrom(side, q, k)
    decreases |q| - k
  {
    if k < |q| {
      assert q'[At(side, |q|, k)] == q[At(side, |q|, k)];
      FlatFromSame(side, q, q', k + 1);
    }
  }

  /** Empty levels ahead of priority p contribute nothing. */
  lemma {:induction false} FlatSkip(side: Side, q: Levels, k: nat, p: nat)
    requires k <= p <= |q|
    requires forall m :: k <= m < p ==> q[At(side, |q|, m)] == []
    ensures FlatFrom(side, q, k) == FlatFrom(side, q, p)
    decreases p - k
  {
    if k < p {
      assert q[At(side, |q|, k)] == [];
      FlatSkip(side, q, k + 1, p);
    }
  }

  /** With level p the best occupied one, its queue is a prefix of the whole, and replacing it replaces that prefix. */
  lemma FlatBest(side: Side, q: Levels, p: nat, s: seq<Resting>)
    requires p < |q| && forall m :: 0 <= m < p ==> q[At(side, |q|, m)] == []
    ensures Flat(side, q) == q[At(side, |q|, p)] + FlatFrom(side, q, p + 1)
    ensures Flat(side, q[At(side, |q|, p) := s]) == s + FlatFrom(side, q, p + 1)
  {
    hide FlatFrom;
    var q' := q[At(side, |q|, p) := s];
    FlatSkip(side, q, 0, p);
    FlatSkip(side, q', 0, p);
    FlatStep(side, q, p);
    FlatStep(side, q', p);
    FlatFromSame(side, q, q', p + 1);
  }

  lemma {:induction false} FlatMember(side: Side, q: Levels, k: nat, j: nat)
    requires k <= |q| && j < |FlatFrom(side, q, k)|
    ensures exists m, i ::
              k <= m < |q| && 0 <= i < |q[At(side, |q|, m)]| && q[At(side, |q|, m)][i] == FlatFrom(side, q, k)[j]
    decreases |q| - k
  {
    var head := q[At(side, |q|, k)];
    if j < |head| {
      assert head[j] == FlatFrom(side, q, k)[j];
    } else {
      FlatMember(side, q, k + 1, j - |head|);
    }
  }

  // ----- Insertion -----

  lemma {:induction false} InsertPast(side: Side, a: seq<Resting>, b: seq<Resting>, r: Resting)
    requires forall i :: 0 <= i < |a| ==> !Better(side, r.price, a[i].price)
    ensures Insert(side, a + b, r) == a + Insert(side, b, r)
  {
    if a == [] {
      assert a + b == b;
    } else {
      assert (a + b)[1..] == a[1..] + b;
      InsertPast(side, a[1..], b, r);
    }
  }

  /** Behind level p every order has a worse price. */
  lemma TailWorse(side: Side, q: Levels, p: nat, j: nat)
    requires Placed(q) && p < |q| && j < |FlatFrom(side, q, p + 1)|
    ensures Better(side, At(side, |q|, p) + MIN_PRICE, FlatFrom(side, q, p + 1)[j].price)
  {
    FlatMember(side, q, p + 1, j);
  }

  lemma FlatPushHere(side: Side, q: Levels, r: Resting, p: nat)
    requires Placed(q) && p < |q| && r.price == At(side, |q|, p) + MIN_PRICE
    ensures var i := At(side, |q|, p); FlatFrom(side, q[i := q[i] + [r]], p) == Insert(side, FlatFrom(side, q, p), r)
  {
    hide FlatFrom, Insert;
    var i := At(side, |q|, p);
    var q', head, rest := q[i := q[i] + [r]], q[i], FlatFrom(side, q, p + 1);
    FlatStep(side, q, p);
    FlatStep(side, q', p);
    FlatFromSame(side, q, q', p + 1);
    InsertPast(side, head, rest, r);
    if rest != [] { TailWorse(side, q, p, 0); }
    InsertFirst(side, rest, r);
    assert (head + [r]) + rest == head + ([r] + rest);
  }

  lemma InsertFirst(side: Side, s: seq<Resting>, r: Resting)
    ensures s == [] || Better(side, r.price, s[0].price) ==> Insert(side, s, r) == [r] + s
  {
  }

  /** Appending to the order's own level is sorted insertion into the whole side. */
  lemma {:induction false} FlatPush(side: Side, q: Levels, r: Resting, k: nat, p: nat)
    requires Placed(q) && k <= p < |q| && r.price == At(side, |q|, p) + MIN_PRICE
    ensures var i := At(side, |q|, p); FlatFrom(side, q[i := q[i] + [r]], k) == Insert(side, FlatFrom(side, q, k), r)
    decreases p - k
  {
    hide FlatFrom, Insert;
    if k == p {
      FlatPushHere(side, q, r, p);
    } else {
      FlatStep(side, q, k);
      FlatStep(side, q[At(side, |q|, p) := q[At(side, |q|, p)] + [r]], k);
      FlatPush(side, q, r, k + 1, p);
      InsertPast(side, q[At(side, |q|, k)], FlatFrom(side, q, k + 1), r);
    }
  }

  // ----- Search and removal by handle -----

  lemma {:induction false} WithoutAppend(a: seq<Resting>, b: seq<Resting>, h: nat)
    ensures Without(a + b, h) == Without(a, h) + Without(b, h)
  {
    if a == [] {
      assert a + b == b;
    } else {
      assert (a + b)[1..] == a[1..] + b;
      WithoutAppend(a[1..], b, h);
    }
  }

  lemma {:induction false} WithoutAbsent(s: seq<Resting>, h: nat)
    requires forall i :: 0 <= i < |s| ==> s[i].handle != h
    ensures Without(s, h) == s
  {
    if s != [] { WithoutAbsent(s[1..], h); }
  }

  lemma {:induction false} FindAppend(a: seq<Resting>, b: seq<Resting>, h: nat)
    ensures Find(a + b, h) == if Find(a, h).Some? then Find(a, h) else Find(b, h)
  {
    if a == [] {
      assert a + b == b;
    } else {
      assert (a + b)[1..] == a[1..] + b;
      FindAppend(a[1..], b, h);
    }
  }

  lemma {:induction false} FindAbsent(s: seq<Resting>, h: nat)
    ensures Find(s, h).None? <==> forall i :: 0 <= i < |s| ==> s[i].handle != h
  {
    if s != [] { FindAbsent(s[1..], h); }
  }

  lemma {:induction false} FlatAbsent(side: Side, q: Levels, h: nat)
    requires forall i, j :: 0 <= i < |q| && 0 <= j < |q[i]| ==> q[i][j].handle != h
    ensures Find(Flat(side, q), h) == None
  {
    var s := Flat(side, q);
    forall j | 0 <= j < |s| ensures s[j].handle != h { FlatMember(side, q, 0, j); }
    FindAbsent(s, h);
  }

  /** Position j of level i is the only place where its handle stands. */
  ghost predicate OnlyAt(q: Levels, i: nat, j: nat)
    requires i < |q| && j < |q[i]|
  {
    forall k, m :: 0 <= k < |q| && 0 <= m < |q[k]| && q[k][m].handle == q[i][j].handle ==> k == i && m == j
  }

  lemma FlatRemoveHere(side: Side, q: Levels, p: nat, j: nat)
    requires p < |q| && j < |q[At(side, |q|, p)]| && OnlyAt(q, At(side, |q|, p), j)
    ensures var i := At(side, |q|, p); var r := q[i][j];
            && Find(FlatFrom(side, q, p), r.handle) == Some(r)
            && FlatFrom(side, q[i := q[i][..j] + q[i][j + 1..]], p) == Without(FlatFrom(side, q, p), r.handle)
  {
    hide FlatFrom, Find, Without;
    var i := At(side, |q|, p);
    var h, head, rest, q' := q[i][j].handle, q[i], FlatFrom(side, q, p + 1), q[i := q[i][..j] + q[i][j + 1..]];
    forall m | 0 <= m < |rest| ensures rest[m].handle != h { NotInRest(side, q, p, j, m); }
    RemoveOnly(head, j);
    FindAppend(head, rest, h);
    WithoutAppend(head, rest, h);
    WithoutAbsent(rest, h);
    FlatStep(side, q, p);
    FlatStep(side, q', p);
    FlatFromSame(side, q, q', p + 1);
  }

  /** A handle that stands at one place only does not stand at the levels behind. */
  lemma NotInRest(side: Side, q: Levels, p: nat, j: nat, m: nat)
    requires p < |q| && j < |q[At(side, |q|, p)]| && OnlyAt(q, At(side, |q|, p), j)
    requires m < |FlatFrom(side, q, p + 1)|
    ensures FlatFrom(side, q, p + 1)[m].handle != q[At(side, |q|, p)][j].handle
  {
    hide FlatFrom;
    FlatMember(side, q, p + 1, m);
  }

  /** The order at position j of level i is the one `Find` finds, and dropping it there drops it from the whole. */
  lemma {:induction false} FlatRemove(side: Side, q: Levels, k: nat, p: nat, j: nat)
    requires k <= p < |q| && j < |q[At(side, |q|, p)]| && OnlyAt(q, At(side, |q|, p), j)
    ensures var i := At(side, |q|, p); var r := q[i][j];
            && Find(FlatFrom(side, q, k), r.handle) == Some(r)
            && FlatFrom(side, q[i := q[i][..j] + q[i][j + 1..]], k) == Without(FlatFrom(side, q, k), r.handle)
    decreases p - k
  {
    hide FlatFrom, Find, Without;
    if k == p {
      FlatRemoveHere(side, q, p, j);
    } else {
      var head, rest, h := q[At(side, |q|, k)], FlatFrom(side, q, k + 1), q[At(side, |q|, p)][j].handle;
      FlatStep(side, q, k);
      FlatStep(side, q[At(side, |q|, p) := q[At(side, |q|, p)][..j] + q[At(side, |q|, p)][j + 1..]], k);
      FlatRemove(side, q, k + 1, p, j);
      WithoutAppend(head, rest, h);
      FindAppend(head, rest, h);
      WithoutAbsent(head, h);
      FindAbsent(head, h);
    }
  }

  lemma {:induction false} RemoveOnly(s: seq<Resting>, j: nat)
    requires j < |s| && forall m :: 0 <= m < |s| && s[m].handle == s[j].handle ==> m == j
    ensures Find(s, s[j].handle) == Some(s[j])
    ensures Without(s, s[j].handle) == s[..j] + s[j + 1..]
  {
    if j == 0 {
      WithoutAbsent(s[1..], s[0].handle);
    } else {
      RemoveOnly(s[1..], j - 1);
      assert s[..j] + s[j + 1..] == [s[0]] + (s[1..][..j - 1] + s[1..][j..]);
    }
  }
}
