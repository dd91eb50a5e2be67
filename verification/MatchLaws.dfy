/** What matching does, stated without reference to how it proceeds: price-time priority and maximality. */
module MatchLaws {
  import opened Types
  import opened BookSpec

  /** Best price first. */
  ghost predicate Sorted(side: Side, s: seq<Resting>) {
    forall i, j :: 0 <= i < j < |s| ==>
      (side == Buy ==> s[i].price >= s[j].price) && (side == Sell ==> s[i].price <= s[j].price)
  }

  ghost predicate AllPositive(s: seq<Resting>) { forall i :: 0 <= i < |s| ==> s[i].rem > 0 }

  function SumFills(fills: seq<Fill>): nat {
    if fills == [] then 0 else fills[0].quantity + SumFills(fills[1..])
  }

  /** The price is no worse than the taker's limit, if it has one. */
  predicate Within(t: Taker, price: nat) {
    t.limit.Some? ==> (t.side == Buy ==> price <= t.limit.value) && (t.side == Sell ==> t.limit.value <= price)
  }

  lemma CrossesIsWithin(t: Taker, price: nat)
    ensures Crosses(t, price) <==> Within(t, price)
  {
  }

  /** Everything on the opposite side that the taker's limit admits. */
  function Crossable(t: Taker, opp: seq<Resting>): nat {
    if opp == [] then 0 else (if Within(t, opp[0].price) then opp[0].rem else 0) + Crossable(t, opp[1..])
  }

  /** The fill records a trade of q between the taker and the resting order: at the resting price, each party on the
      side it traded. */
  predicate Records(f: Fill, t: Taker, r: Resting, q: nat) {
    && f.price == r.price && f.quantity == q
    && (t.side == Buy ==> f.bidId == t.id && f.bidClient == t.client && f.askId == r.id && f.askClient == r.client)
    && (t.side == Sell ==> f.askId == t.id && f.askClient == t.client && f.bidId == r.id && f.bidClient == r.client)
  }

  lemma MakeFillRecords(t: Taker, r: Resting, q: nat)
    ensures Records(MakeFill(t, r, q), t, r, q)
  {
  }

  /** The fills take the opposite side from the front: k orders completely, and then p of the next one. */
  ghost predicate TakesPrefix(t: Taker, opp: seq<Resting>, m: Matched, k: nat, p: nat) {
    && k <= |opp| && m.done == opp[..k]
    && (p > 0 ==> k < |opp| && p < opp[k].rem && m.left == 0)
    && m.rest == (if p == 0 then opp[k..] else [opp[k].(rem := opp[k].rem - p)] + opp[k + 1..])
    && |m.fills| == (if p == 0 then k else k + 1)
    && forall i :: 0 <= i < |m.fills| ==>
         Records(m.fills[i], t, opp[i], if i < k then opp[i].rem else p) && Within(t, opp[i].price)
  }

  /** One more order taken in front. */
  lemma PrefixGrows(t: Taker, opp: seq<Resting>, m: Matched, k: nat, p: nat)
    requires opp != [] && Crosses(t, opp[0].price) && TakesPrefix(t, opp[1..], m, k, p)
    ensures var fills := [MakeFill(t, opp[0], opp[0].rem)] + m.fills;
            TakesPrefix(t, opp, Matched(fills, [opp[0]] + m.done, m.rest, m.left), k + 1, p)
  {
    hide Crosses, MakeFill, Records, Within;
    var fills, rest := [MakeFill(t, opp[0], opp[0].rem)] + m.fills, opp[1..];
    MakeFillRecords(t, opp[0], opp[0].rem);
    CrossesIsWithin(t, opp[0].price);
    TailSlices(opp, k);
    forall i | 0 <= i < |fills|
      ensures Records(fills[i], t, opp[i], if i < k + 1 then opp[i].rem else p) && Within(t, opp[i].price)
    {
      if i > 0 { assert fills[i] == m.fills[i - 1] && rest[i - 1] == opp[i]; }
    }
  }

  lemma TailSlices(s: seq<Resting>, k: nat)
    requires k + 1 <= |s|
    ensures s[1..][k..] == s[k + 1..] && [s[0]] + s[1..][..k] == s[..k + 1]
    ensures k + 1 < |s| ==> s[1..][k] == s[k + 1] && s[1..][k + 1..] == s[k + 2..]
  {
  }

  /** Price-time priority: the fills consume a prefix of the opposite queue, each at the resting order's price and never
      beyond the taker's limit; only the last order touched can stay partly filled, and then the taker is done. */
  lemma {:induction false} MatchTakesPrefix(t: Taker, opp: seq<Resting>, qty: nat) returns (k: nat, p: nat)
    ensures TakesPrefix(t, opp, Match(t, opp, qty), k, p)
  {
    if qty == 0 || opp == [] || !Crosses(t, opp[0].price) {
      k, p := 0, 0;
    } else if qty < opp[0].rem {
      k, p := 0, qty;
    } else {
      k, p := MatchTakesPrefix(t, opp[1..], qty - opp[0].rem);
      PrefixGrows(t, opp, Match(t, opp[1..], qty - opp[0].rem), k, p);
      k := k + 1;
    }
  }

  /** The i-th fill in full: at the price of the i-th resting order, never beyond the limit, buyer and seller each under
      their own id and client. */
  lemma FillsInDetail(t: Taker, opp: seq<Resting>, qty: nat, i: nat)
    requires i < |Match(t, opp, qty).fills|
    ensures i < |opp|
    ensures var f, r := Match(t, opp, qty).fills[i], opp[i];
            && f.price == r.price && f.quantity <= r.rem
            && (t.limit.Some? && t.side == Buy ==> f.price <= t.limit.value)
            && (t.limit.Some? && t.side == Sell ==> t.limit.value <= f.price)
            && (t.side == Buy ==> f.bidId == t.id && f.bidClient == t.client)
            && (t.side == Buy ==> f.askId == r.id && f.askClient == r.client)
            && (t.side == Sell ==> f.askId == t.id && f.askClient == t.client)
            && (t.side == Sell ==> f.bidId == r.id && f.bidClient == r.client)
  {
    hide Match;
    var k, p := MatchTakesPrefix(t, opp, qty);
  }

  /** Nothing is created or lost in a match. */
  lemma {:induction false} MatchConserves(t: Taker, opp: seq<Resting>, qty: nat)
    ensures var m := Match(t, opp, qty);
            && SumFills(m.fills) + m.left == qty
            && SumFills(m.fills) + SumRem(m.rest) == SumRem(opp)
  {
    if qty == 0 || opp == [] || !Crosses(t, opp[0].price) {
    } else if qty < opp[0].rem {
      var m := Match(t, opp, qty);
      assert m.rest[1..] == opp[1..] && m.fills[1..] == [];
    } else {
      MatchConserves(t, opp[1..], qty - opp[0].rem);
      var m, m' := Match(t, opp, qty), Match(t, opp[1..], qty - opp[0].rem);
      assert m.fills[1..] == m'.fills;
    }
  }

  lemma {:induction false} NoneCrossable(t: Taker, side: Side, opp: seq<Resting>)
    requires side == t.side.Other() && Sorted(side, opp) && (opp == [] || !Crosses(t, opp[0].price))
    ensures Crossable(t, opp) == 0
  {
    if opp != [] {
      if |opp| > 1 { assert !Better(side, opp[1].price, opp[0].price); }
      NoneCrossable(t, side, opp[1..]);
    }
  }

  /** Maximality: the executed quantity is the smaller of the order and the liquidity its limit admits, and the
      order keeps a remainder only when nothing left on the other side crosses it. */
  lemma {:induction false} MatchIsMaximal(t: Taker, opp: seq<Resting>, qty: nat)
    requires Sorted(t.side.Other(), opp)
    ensures var m := Match(t, opp, qty);
            && SumFills(m.fills) == Min(qty, Crossable(t, opp))
            && (m.left > 0 ==> Crossable(t, m.rest) == 0 && (m.rest == [] || !Within(t, m.rest[0].price)))
  {
    if qty == 0 || opp == [] || !Crosses(t, opp[0].price) {
      if qty > 0 { NoneCrossable(t, t.side.Other(), opp); }
    } else if qty < opp[0].rem {
      assert Match(t, opp, qty).fills[1..] == [];
    } else {
      MatchIsMaximal(t, opp[1..], qty - opp[0].rem);
      assert Match(t, opp, qty).fills[1..] == Match(t, opp[1..], qty - opp[0].rem).fills;
    }
  }

  /** A limit that every resting price satisfies is no limit. */
  lemma {:induction false} LooseLimit(t: Taker, u: Taker, opp: seq<Resting>, qty: nat)
    requires t.id == u.id && t.client == u.client && t.side == u.side
    requires forall i :: 0 <= i < |opp| ==> Crosses(t, opp[i].price) && Crosses(u, opp[i].price)
    ensures Match(t, opp, qty) == Match(u, opp, qty)
  {
    if qty > 0 && opp != [] && qty >= opp[0].rem { LooseLimit(t, u, opp[1..], qty - opp[0].rem); }
  }

  // ----- Which orders are filled, told before the match -----

  lemma SumFirst(q: seq<Resting>, i: nat)
    requires 0 < i <= |q|
    ensures SumRem(q[..i]) == q[0].rem + SumRem(q[1..][..i - 1])
  {
    assert q[..i] == [q[0]] + q[1..][..i - 1];
  }

  /** The taker has enough for the i-th opposite order and all before it, and all of them cross. */
  predicate Covers(t: Taker, opp: seq<Resting>, qty: nat, i: nat)
    requires i < |opp|
  {
    SumRem(opp[..i + 1]) <= qty && forall j :: 0 <= j <= i ==> Within(t, opp[j].price)
  }

  lemma CoversFirst(t: Taker, opp: seq<Resting>, qty: nat)
    requires opp != []
    ensures Covers(t, opp, qty, 0) <==> opp[0].rem <= qty && Within(t, opp[0].price)
  {
    SumFirst(opp, 1);
  }

  lemma CoversRest(t: Taker, opp: seq<Resting>, qty: nat, i: nat)
    requires 0 < i < |opp|
    ensures Covers(t, opp, qty, i) <==>
            opp[0].rem <= qty && Within(t, opp[0].price) && Covers(t, opp[1..], qty - opp[0].rem, i - 1)
  {
    SumFirst(opp, i + 1);
    var rest := opp[1..];
    assert forall j :: 0 < j <= i ==> opp[j] == rest[j - 1];
    if opp[0].rem <= qty && Within(t, opp[0].price) && Covers(t, rest, qty - opp[0].rem, i - 1) {
      forall j | 0 <= j <= i ensures Within(t, opp[j].price) {
        if j > 0 { assert Within(t, rest[j - 1].price); }
      }
    }
    if Covers(t, opp, qty, i) {
      forall j | 0 <= j <= i - 1 ensures Within(t, rest[j].price) { assert Within(t, opp[j + 1].price); }
    }
  }

  /** A match fills an opposite order completely exactly when the taker covers it. */
  lemma {:induction false} FilledIff(t: Taker, opp: seq<Resting>, qty: nat, i: nat)
    requires AllPositive(opp) && i < |opp|
    ensures i < |Match(t, opp, qty).done| <==> Covers(t, opp, qty, i)
    decreases |opp|
  {
    hide Covers, Crosses, Within;
    CrossesIsWithin(t, opp[0].price);
    CoversFirst(t, opp, qty);
    if i > 0 {
      CoversRest(t, opp, qty, i);
      if qty > 0 && Crosses(t, opp[0].price) && opp[0].rem <= qty {
        FilledIff(t, opp[1..], qty - opp[0].rem, i - 1);
      }
    }
  }

  // ----- What matching leaves behind -----

  /** The remaining queue is what was there, minus a prefix, with at most its first order reduced. */
  lemma {:induction false} RestKeeps(t: Taker, opp: seq<Resting>, qty: nat, side: Side)
    requires AllPositive(opp) && Sorted(side, opp)
    ensures var m := Match(t, opp, qty); AllPositive(m.rest) && Sorted(side, m.rest)
    ensures Handles(opp) == Handles(Match(t, opp, qty).done) + Handles(Match(t, opp, qty).rest)
  {
    hide Sorted, AllPositive, Handles, Crosses;
    if qty == 0 || opp == [] || !Crosses(t, opp[0].price) {
      HandlesNothing(opp);
    } else if qty < opp[0].rem {
      ReduceFront(side, opp, qty);
    } else {
      DropFront(side, opp);
      RestKeeps(t, opp[1..], qty - opp[0].rem, side);
      HandlesCons(opp[0], Match(t, opp[1..], qty - opp[0].rem).done);
      var m := Match(t, opp[1..], qty - opp[0].rem);
      assert [opp[0].handle] + (Handles(m.done) + Handles(m.rest)) ==
             [opp[0].handle] + Handles(m.done) + Handles(m.rest);
    }
  }

  lemma HandlesNothing(q: seq<Resting>)
    ensures Handles([]) + Handles(q) == Handles(q)
  {
  }

  lemma HandlesCons(r: Resting, q: seq<Resting>)
    ensures Handles([r] + q) == [r.handle] + Handles(q)
  {
    assert ([r] + q)[1..] == q;
  }

  lemma DropFront(side: Side, q: seq<Resting>)
    requires q != [] && Sorted(side, q) && AllPositive(q)
    ensures Sorted(side, q[1..]) && AllPositive(q[1..]) && Handles(q) == [q[0].handle] + Handles(q[1..])
  {
  }

  lemma ReduceFront(side: Side, q: seq<Resting>, n: nat)
    requires q != [] && n < q[0].rem && Sorted(side, q) && AllPositive(q)
    ensures var r := [q[0].(rem := q[0].rem - n)] + q[1..];
            Sorted(side, r) && AllPositive(r) && Handles(q) == Handles([]) + Handles(r)
  {
    var r := [q[0].(rem := q[0].rem - n)] + q[1..];
    assert forall i :: 1 <= i < |q| ==> r[i] == q[i];
    HandlesCons(r[0], q[1..]);
  }

  /** Every order left over was there before, up to a smaller remainder. */
  lemma {:induction false} RestFrom(t: Taker, opp: seq<Resting>, qty: nat, i: nat) returns (j: nat)
    requires i < |Match(t, opp, qty).rest|
    ensures j < |opp| && Match(t, opp, qty).rest[i] == opp[j].(rem := Match(t, opp, qty).rest[i].rem)
    ensures j == |opp| - |Match(t, opp, qty).rest| + i
  {
    if qty == 0 || opp == [] || !Crosses(t, opp[0].price) {
      j := i;
    } else if qty < opp[0].rem {
      j := i;
    } else {
      j := RestFrom(t, opp[1..], qty - opp[0].rem, i);
      j := j + 1;
    }
  }

  lemma {:induction false} DoneFrom(t: Taker, opp: seq<Resting>, qty: nat)
    ensures var m := Match(t, opp, qty); |m.done| + |m.rest| == |opp| && m.done == opp[..|m.done|]
  {
    if qty > 0 && opp != [] && Crosses(t, opp[0].price) && qty >= opp[0].rem {
      DoneFrom(t, opp[1..], qty - opp[0].rem);
    }
  }

  // ----- Sorted insertion -----

  lemma InsertSplit(s: seq<Resting>, k: nat, r: Resting)
    requires k < |s|
    ensures [s[0]] + (s[1..][..k] + [r] + s[1..][k..]) == s[..k + 1] + [r] + s[k + 1..]
  {
  }

  /** Time priority: the newcomer stands behind every order at its price or better and ahead of every worse one;
      nobody else moves. */
  lemma {:induction false} InsertPosition(side: Side, s: seq<Resting>, r: Resting) returns (k: nat)
    requires Sorted(side, s)
    ensures k <= |s| && Insert(side, s, r) == s[..k] + [r] + s[k..]
    ensures side == Buy ==> forall i :: 0 <= i < |s| ==> (s[i].price >= r.price <==> i < k)
    ensures side == Sell ==> forall i :: 0 <= i < |s| ==> (s[i].price <= r.price <==> i < k)
    ensures forall i :: 0 <= i < k ==> !Better(side, r.price, s[i].price)
    ensures forall i :: k <= i < |s| ==> Better(side, r.price, s[i].price)
    ensures Sorted(side, Insert(side, s, r))
  {
    if s == [] || Better(side, r.price, s[0].price) {
      k := 0;
      FirstBeatsAll(side, s, r);
      assert s[..0] + [r] + s[0..] == [r] + s;
    } else {
      SortedTail(side, s);
      hide Sorted;
      var k' := InsertPosition(side, s[1..], r);
      k := k' + 1;
      InsertSplit(s, k', r);
      forall i | 0 <= i < k ensures !Better(side, r.price, s[i].price) {
        if i > 0 { assert s[i] == s[1..][i - 1]; }
      }
      forall i | k <= i < |s| ensures Better(side, r.price, s[i].price) { assert s[i] == s[1..][i - 1]; }
    }
    InsertedSorted(side, s, r, k);
  }

  lemma SortedTail(side: Side, s: seq<Resting>)
    requires s != [] && Sorted(side, s)
    ensures Sorted(side, s[1..])
  {
  }

  lemma FirstBeatsAll(side: Side, s: seq<Resting>, r: Resting)
    requires Sorted(side, s) && (s == [] || Better(side, r.price, s[0].price))
    ensures forall i :: 0 <= i < |s| ==> Better(side, r.price, s[i].price)
  {
    forall i | 0 <= i < |s| ensures Better(side, r.price, s[i].price) {
      if i > 0 { assert !Better(side, s[i].price, s[0].price); }
    }
  }

  lemma InsertedSorted(side: Side, s: seq<Resting>, r: Resting, k: nat)
    requires Sorted(side, s) && k <= |s|
    requires forall i :: 0 <= i < k ==> !Better(side, r.price, s[i].price)
    requires forall i :: k <= i < |s| ==> Better(side, r.price, s[i].price)
    ensures Sorted(side, s[..k] + [r] + s[k..])
  {
    var p := s[..k] + [r] + s[k..];
    assert forall i :: 0 <= i < |p| ==> p[i] == if i < k then s[i] else if i == k then r else s[i - 1];
  }

}
