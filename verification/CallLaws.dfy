/** Laws relating calls to one another: market and limit orders, cancel as an inverse, modify, and when the id table
    finds every resting order. */
module CallLaws {
  import opened Types
  import opened SeqFacts
  import opened BookSpec
  import opened MatchLaws
  import opened BookLaws
  import opened Ladder

  // ----- Market and limit orders -----

  function LoosestPrice(side: Side): nat { if side == Buy then MAX_PRICE else MIN_PRICE }

  /** A market order trades exactly as a limit order at the extreme price, but its remainder never rests. */
  lemma MarketIsLoosestLimit(b: Book, capacity: nat, id: nat, client: nat, side: Side, price: nat, qty: nat)
    requires BookOk(b, capacity)
    ensures var market := Add(b, id, client, side, Market, price, qty);
            var limit := Add(b, id, client, side, Limit, LoosestPrice(side), qty);
            && market.ok == limit.ok == (b.free != []) && market.fills == limit.fills
            && market.book.Queue(side.Other()) == limit.book.Queue(side.Other())
            && market.book.Queue(side) == b.Queue(side)
  {
    hide Add, Match, Insert, Cells, IndexOk, Uncrossed, Sorted, AllPositive;
    var opp := b.Queue(side.Other());
    var t, u := TakerOf(id, client, side, Market, price), TakerOf(id, client, side, Limit, LoosestPrice(side));
    assert QueueOk(side.Other(), opp);
    LooseLimit(t, u, opp, qty);
    AddFields(b, id, client, side, Market, price, qty);
    AddFields(b, id, client, side, Limit, LoosestPrice(side), qty);
  }

  // ----- Cancel undoes a resting add -----

  lemma {:induction false} InsertThenWithout(side: Side, q: seq<Resting>, r: Resting)
    requires forall i :: 0 <= i < |q| ==> q[i].handle != r.handle
    ensures Without(Insert(side, q, r), r.handle) == q && Find(Insert(side, q, r), r.handle) == Some(r)
  {
    if q == [] || Better(side, r.price, q[0].price) {
      assert ([r] + q)[1..] == q;
      WithoutAbsent(q, r.handle);
    } else {
      InsertThenWithout(side, q[1..], r);
    }
  }

  /** The next free cell is in neither queue. */
  lemma FreeCellIsNew(b: Book, capacity: nat, q: seq<Resting>)
    requires BookOk(b, capacity) && b.free != [] && (q == b.bids || q == b.asks)
    ensures forall i :: 0 <= i < |q| ==> q[i].handle != b.free[|b.free| - 1]
  {
    hide NoDup, QueueOk, Uncrossed, IndexOk, Cells;
    PoolPartition(b, capacity);
    LastApart(Handles(b.bids), Handles(b.asks), b.free);
    forall i | 0 <= i < |q| ensures q[i].handle != b.free[|b.free| - 1] {
      assert Handles(q)[i] == q[i].handle;
    }
  }

  lemma LastApart(x: seq<nat>, y: seq<nat>, z: seq<nat>)
    requires NoDup(x + y + z) && z != []
    ensures forall i :: 0 <= i < |x| ==> x[i] != z[|z| - 1]
    ensures forall i :: 0 <= i < |y| ==> y[i] != z[|z| - 1]
  {
    var all := x + y + z;
    assert all[|all| - 1] == z[|z| - 1];
    assert forall i :: 0 <= i < |x| ==> all[i] == x[i];
    assert forall i :: 0 <= i < |y| ==> all[|x| + i] == y[i];
  }

  /** An order that crosses nothing rests whole. */
  lemma AddNoTrade(b: Book, id: nat, client: nat, side: Side, price: nat, qty: nat)
    requires Acceptable(b, Limit, price) && qty > 0
    requires var opp := b.Queue(side.Other());
             opp == [] || !Crosses(TakerOf(id, client, side, Limit, price), opp[0].price)
    ensures var h := b.free[|b.free| - 1];
            Add(b, id, client, side, Limit, price, qty) ==
            Outcome(true, b.WithQueue(side, Insert(side, b.Queue(side), Resting(h, id, client, price, qty))).(
                            index := b.index[Slot(id) := h], free := b.free[..|b.free| - 1]), [])
  {
    var opp, h := b.Queue(side.Other()), b.free[|b.free| - 1];
    assert MatchOf(b, id, client, side, Limit, price, qty) == Matched([], [], opp, qty);
    assert b.free[..|b.free| - 1] + Handles([]) == b.free[..|b.free| - 1];
    hide Insert, Match;
  }

  /** Cancelling an order that just rested without trading, in a slot that was free, restores the book completely:
      both queues, the id index and the free list. */
  lemma CancelUndoesAdd(b: Book, capacity: nat, id: nat, client: nat, side: Side, price: nat, qty: nat)
    requires BookOk(b, capacity) && Acceptable(b, Limit, price) && qty > 0 && Slot(id) !in b.index
    requires var opp := b.Queue(side.Other());
             opp == [] || !Crosses(TakerOf(id, client, side, Limit, price), opp[0].price)
    ensures var added := Add(b, id, client, side, Limit, price, qty);
            added.ok && added.fills == [] && Cancel(added.book, id) == Outcome(true, b, [])
  {
    hide Insert, Find, Without, BookOk, Add, Slot, Crosses;
    var h := b.free[|b.free| - 1];
    var r, own, opp := Resting(h, id, client, price, qty), b.Queue(side), b.Queue(side.Other());
    AddNoTrade(b, id, client, side, price, qty);
    FreeCellIsNew(b, capacity, own);
    FreeCellIsNew(b, capacity, opp);
    InsertThenWithout(side, own, r);
    FindAbsent(opp, h);
    var added := Add(b, id, client, side, Limit, price, qty).book;
    assert Lookup(added, id) == Some((side, r));
    assert added.index - {Slot(id)} == b.index;
    assert added.free + [h] == b.free;
  }

  // ----- Modify -----

  /** A modify succeeds exactly when the order is found and the new price is in range: it never fails for lack of
      space. */
  lemma ModifySucceeds(b: Book, id: nat, price: nat, qty: nat)
    ensures Modify(b, id, price, qty).ok <==> Lookup(b, id).Some? && MIN_PRICE <= price <= MAX_PRICE
  {
  }

  /** A rejected modify leaves the book alone exactly when the id was not found; for an out-of-range price it has
      already cancelled the order, and the outcome is that of the cancel. */
  lemma RejectedModify(b: Book, id: nat, price: nat, qty: nat)
    requires !Modify(b, id, price, qty).ok
    ensures Modify(b, id, price, qty).book == b <==> Lookup(b, id).None?
    ensures Lookup(b, id).Some? ==> Modify(b, id, price, qty) == Cancel(b, id).(ok := false)
  {
    if Lookup(b, id).Some? { assert |Cancel(b, id).book.free| == |b.free| + 1; }
  }

  /** A run in which a rejected modify destroys an order. */
  lemma RejectedModifyLosesOrder()
    ensures var b := Add(InitialBook(1), 7, 0, Buy, Limit, 100, 5).book;
            && b.bids == [Resting(0, 7, 0, 100, 5)]
            && !Modify(b, 7, 0, 5).ok && Modify(b, 7, 0, 5).book.bids == []
  {
    var b := Add(InitialBook(1), 7, 0, Buy, Limit, 100, 5).book;
    assert b.bids == [Resting(0, 7, 0, 100, 5)] && b.index == map[7 := 0];
    assert Without(b.bids, 0) == [];
  }

  // ----- When the id table finds every resting order -----

  /** The table leads to the order. */
  ghost predicate Registered(index: map<nat, nat>, r: Resting) { Slot(r.id) in index && index[Slot(r.id)] == r.handle }

  ghost predicate AllRegistered(b: Book) {
    && (forall i :: 0 <= i < |b.bids| ==> Registered(b.index, b.bids[i]))
    && (forall i :: 0 <= i < |b.asks| ==> Registered(b.index, b.asks[i]))
  }

  lemma {:induction false} FindOnly(q: seq<Resting>, i: nat)
    requires i < |q| && NoDup(Handles(q))
    ensures Find(q, q[i].handle) == Some(q[i])
  {
    FindPresent(q, i);
    var j := FindAt(q, q[i].handle);
    SameHandle(q, i, j);
  }

  /** Registration is exactly what makes lookup find an order. */
  lemma RegisteredIsFound(b: Book, capacity: nat, side: Side, i: nat)
    requires BookOk(b, capacity) && i < |b.Queue(side)|
    ensures Registered(b.index, b.Queue(side)[i]) <==> Lookup(b, b.Queue(side)[i].id) == Some((side, b.Queue(side)[i]))
  {
    var r := b.Queue(side)[i];
    HandlesOnce(b, capacity);
    FindOnly(b.Queue(side), i);
    FindAbsent(b.Queue(side.Other()), r.handle);
    if Lookup(b, r.id) == Some((side, r)) { LookupStands(b, r.id); }
  }

  /** Registered orders of one book have distinct slots. */
  lemma SlotsDistinct(b: Book, capacity: nat, side: Side, i: nat, side': Side, j: nat)
    requires BookOk(b, capacity) && AllRegistered(b) && i < |b.Queue(side)| && j < |b.Queue(side')|
    requires Slot(b.Queue(side)[i].id) == Slot(b.Queue(side')[j].id)
    ensures side == side' && i == j
  {
    hide NoDup, QueueOk, Uncrossed, IndexOk, Cells, AllRegistered, Slot, Handles;
    HandlesOnce(b, capacity);
    IsRegistered(b, side, i);
    IsRegistered(b, side', j);
    if side == side' { SameHandle(b.Queue(side), i, j); }
  }

  /** No resting order shares the id's slot. */
  ghost predicate NoClash(b: Book, id: nat) { !Among(b.bids, Slot(id)) && !Among(b.asks, Slot(id)) }

  /** The incoming order keeps a remainder that rests. */
  ghost predicate Rests(b: Book, id: nat, client: nat, side: Side, kind: OrderType, price: nat, qty: nat) {
    MatchOf(b, id, client, side, kind, price, qty).left > 0 && kind == Limit
  }

  /** The index after an accepted order, slot by slot. */
  lemma IndexAfterAdd(b: Book, id: nat, client: nat, side: Side, kind: OrderType, price: nat, qty: nat, s: nat)
    requires Acceptable(b, kind, price)
    ensures var m := MatchOf(b, id, client, side, kind, price, qty);
            var index := Add(b, id, client, side, kind, price, qty).book.index;
            && (s in index <==> if s == Slot(id) then Rests(b, id, client, side, kind, price, qty) && !Among(m.done, s)
                                else s in b.index && !Among(m.done, s))
            && (s in index ==> index[s] == if s == Slot(id) then b.free[|b.free| - 1] else b.index[s])
  {
    hide Among, Match, Insert;
    UnregisterIndex(b.index[Slot(id) := b.free[|b.free| - 1]], MatchOf(b, id, client, side, kind, price, qty).done, s);
    hide Unregister;
  }

  /** An order of a registered book that the match did not consume is not among the consumed. */
  lemma NotConsumed(b: Book, capacity: nat, id: nat, client: nat, side: Side, kind: OrderType, price: nat, qty: nat,
                    x: Side, j: nat)
    requires BookOk(b, capacity) && AllRegistered(b) && j < |b.Queue(x)|
    requires x == side || j >= |MatchOf(b, id, client, side, kind, price, qty).done|
    ensures !Among(MatchOf(b, id, client, side, kind, price, qty).done, Slot(b.Queue(x)[j].id))
  {
    var opp, m := b.Queue(side.Other()), MatchOf(b, id, client, side, kind, price, qty);
    DoneFrom(TakerOf(id, client, side, kind, price), opp, qty);
    hide Match, BookOk, AllRegistered;
    if Among(m.done, Slot(b.Queue(x)[j].id)) {
      var k :| 0 <= k < |m.done| && Slot(m.done[k].id) == Slot(b.Queue(x)[j].id);
      assert m.done[k] == opp[k];
      SlotsDistinct(b, capacity, x, j, side.Other(), k);
    }
  }

  /** No resting order shares the new order's slot, or its match fills the one that does and nothing of it rests. */
  ghost predicate Settled(b: Book, id: nat, client: nat, side: Side, kind: OrderType, price: nat, qty: nat) {
    || NoClash(b, id)
    || (Among(MatchOf(b, id, client, side, kind, price, qty).done, Slot(id))
       && !Rests(b, id, client, side, kind, price, qty))
  }

  lemma InQueueAmong(q: seq<Resting>, j: nat)
    requires j < |q|
    ensures Among(q, Slot(q[j].id))
  {
  }

  /** Under a harmless add, orders that stay keep their table entry. */
  lemma StaysRegistered(b: Book, capacity: nat, id: nat, client: nat, side: Side, kind: OrderType, price: nat,
                        qty: nat, x: Side, j: nat)
    requires BookOk(b, capacity) && AllRegistered(b) && Acceptable(b, kind, price)
             && Settled(b, id, client, side, kind, price, qty)
    requires j < |b.Queue(x)| && (x == side || j >= |MatchOf(b, id, client, side, kind, price, qty).done|)
    ensures Registered(Add(b, id, client, side, kind, price, qty).book.index, b.Queue(x)[j])
  {
    var r := b.Queue(x)[j];
    assert Registered(b.index, r);
    NotConsumed(b, capacity, id, client, side, kind, price, qty, x, j);
    IndexAfterAdd(b, id, client, side, kind, price, qty, Slot(r.id));
    InQueueAmong(b.Queue(x), j);
    hide Add, MatchOf, BookOk, AllRegistered, Slot, Among;
  }

  /** The orders of the book after an add: those of the own side, those left on the other side, and the newcomer. */
  lemma QueuesAfterAdd(b: Book, capacity: nat, id: nat, client: nat, side: Side, kind: OrderType, price: nat, qty: nat,
                       x: Side, i: nat)
    returns (j: nat)
    requires BookOk(b, capacity) && Acceptable(b, kind, price)
    requires i < |Add(b, id, client, side, kind, price, qty).book.Queue(x)|
    ensures var r := Add(b, id, client, side, kind, price, qty).book.Queue(x)[i];
            || (x == side && Rests(b, id, client, side, kind, price, qty) && r.id == id
               && r.handle == b.free[|b.free| - 1])
            || (j < |b.Queue(x)| && (x == side || j >= |MatchOf(b, id, client, side, kind, price, qty).done|)
                && r == b.Queue(x)[j].(rem := r.rem))
  {
    var opp, m := b.Queue(side.Other()), MatchOf(b, id, client, side, kind, price, qty);
    var t := TakerOf(id, client, side, kind, price);
    if x != side {
      DoneFrom(t, opp, qty);
      j := RestFrom(t, opp, qty, i);
    } else if Rests(b, id, client, side, kind, price, qty) {
      hide Match, Insert, BookOk;
      j := InsertFrom(side, b.Queue(side), Resting(b.free[|b.free| - 1], id, client, price, m.left), i);
    } else {
      hide Match, BookOk;
      j := i;
    }
  }

  /** An order of the queue after an insertion is the newcomer or was there before. */
  lemma {:induction false} InsertFrom(side: Side, q: seq<Resting>, r: Resting, i: nat) returns (j: nat)
    requires i < |Insert(side, q, r)|
    ensures Insert(side, q, r)[i] == r || (j < |q| && Insert(side, q, r)[i] == q[j])
  {
    if q == [] || Better(side, r.price, q[0].price) {
      j := if i == 0 then 0 else i - 1;
    } else if i == 0 {
      j := 0;
    } else {
      j := InsertFrom(side, q[1..], r, i - 1);
      j := j + 1;
    }
  }

  lemma HarmlessAdd(b: Book, capacity: nat, id: nat, client: nat, side: Side, kind: OrderType, price: nat, qty: nat)
    requires BookOk(b, capacity) && AllRegistered(b) && Acceptable(b, kind, price)
             && Settled(b, id, client, side, kind, price, qty)
    ensures AllRegistered(Add(b, id, client, side, kind, price, qty).book)
  {
    hide Add, BookOk, Settled, Registered, AllRegistered;
    var b' := Add(b, id, client, side, kind, price, qty).book;
    forall x: Side, i | 0 <= i < |b'.Queue(x)| ensures Registered(b'.index, b'.Queue(x)[i]) {
      HarmlessAddAt(b, capacity, id, client, side, kind, price, qty, x, i);
    }
    BothSidesRegistered(b');
  }

  lemma BothSidesRegistered(b: Book)
    requires forall x: Side, i :: 0 <= i < |b.Queue(x)| ==> Registered(b.index, b.Queue(x)[i])
    ensures AllRegistered(b)
  {
    assert forall i :: 0 <= i < |b.bids| ==> b.Queue(Buy)[i] == b.bids[i];
    assert forall i :: 0 <= i < |b.asks| ==> b.Queue(Sell)[i] == b.asks[i];
  }

  lemma HarmlessAddAt(b: Book, capacity: nat, id: nat, client: nat, side: Side, kind: OrderType, price: nat, qty: nat,
                      x: Side, i: nat)
    requires BookOk(b, capacity) && AllRegistered(b) && Acceptable(b, kind, price)
             && Settled(b, id, client, side, kind, price, qty)
    requires i < |Add(b, id, client, side, kind, price, qty).book.Queue(x)|
    ensures var b' := Add(b, id, client, side, kind, price, qty).book; Registered(b'.index, b'.Queue(x)[i])
  {
    hide Add, BookOk, AllRegistered, MatchOf, Match;
    var b' := Add(b, id, client, side, kind, price, qty).book;
    var r, m := b'.Queue(x)[i], MatchOf(b, id, client, side, kind, price, qty);
    var j := QueuesAfterAdd(b, capacity, id, client, side, kind, price, qty, x, i);
    if j < |b.Queue(x)| && (x == side || j >= |m.done|) && r == b.Queue(x)[j].(rem := r.rem) {
      StaysRegistered(b, capacity, id, client, side, kind, price, qty, x, j);
    } else {
      IndexAfterAdd(b, id, client, side, kind, price, qty, Slot(id));
      DoneAmong(b, id, client, side, kind, price, qty, Slot(id));
    }
  }

  lemma DoneAmong(b: Book, id: nat, client: nat, side: Side, kind: OrderType, price: nat, qty: nat, s: nat)
    ensures Among(MatchOf(b, id, client, side, kind, price, qty).done, s) ==> Among(b.bids, s) || Among(b.asks, s)
  {
    var opp, m := b.Queue(side.Other()), MatchOf(b, id, client, side, kind, price, qty);
    DoneFrom(TakerOf(id, client, side, kind, price), opp, qty);
    if Among(m.done, s) {
      var k :| 0 <= k < |m.done| && Slot(m.done[k].id) == s;
      assert m.done[k] == opp[k];
      assert Among(opp, s);
    }
  }

  lemma StandingEntry(b: Book, x: Side, h: nat, s: nat)
    requires AllRegistered(b) && StandsIn(b.Queue(x), h, s)
    ensures s in b.index && b.index[s] == h
  {
    var i :| 0 <= i < |b.Queue(x)| && b.Queue(x)[i].handle == h && Slot(b.Queue(x)[i].id) == s;
    assert Registered(b.index, b.Queue(x)[i]);
  }

  /** Orders that the match does not consume, and a newcomer that rests, stand in the book afterwards. */
  lemma StandsAfterAdd(b: Book, id: nat, client: nat, side: Side, kind: OrderType, price: nat, qty: nat, x: Side,
                       j: nat)
    requires Acceptable(b, kind, price)
    ensures var b' := Add(b, id, client, side, kind, price, qty).book;
            var m := MatchOf(b, id, client, side, kind, price, qty);
            && (j < |b.Queue(x)| && (x == side || j >= |m.done|) ==>
               StandsIn(b'.Queue(x), b.Queue(x)[j].handle, Slot(b.Queue(x)[j].id)))
            && (Rests(b, id, client, side, kind, price, qty) ==>
               StandsIn(b'.Queue(side), b.free[|b.free| - 1], Slot(id)))
  {
    hide Add, Match, Insert, Slot, StandsIn;
    var opp, m, h := b.Queue(side.Other()), MatchOf(b, id, client, side, kind, price, qty), b.free[|b.free| - 1];
    var t, r := TakerOf(id, client, side, kind, price), Resting(h, id, client, price, m.left);
    AddFields(b, id, client, side, kind, price, qty);
    InsertKeeps(side, b.Queue(side), r, h, Slot(id));
    if j < |b.Queue(x)| {
      var o := b.Queue(x)[j];
      StandsAt(b.Queue(x), j);
      if x == side {
        InsertKeeps(side, b.Queue(side), r, o.handle, Slot(o.id));
      } else if j >= |m.done| {
        DoneFrom(t, opp, qty);
        var j' := RestFrom(t, opp, qty, j - |m.done|);
        StandsAt(m.rest, j - |m.done|);
      }
    }
  }

  lemma StandsAt(q: seq<Resting>, j: nat)
    requires j < |q|
    ensures StandsIn(q, q[j].handle, Slot(q[j].id))
  {
  }

  /** A clash that leaves the table complete was resolved by consuming the clashing order, and nothing rests. */
  lemma ClashConsumed(b: Book, capacity: nat, id: nat, client: nat, side: Side, kind: OrderType, price: nat, qty: nat,
                      x: Side, j: nat)
    requires BookOk(b, capacity) && Acceptable(b, kind, price)
    requires AllRegistered(Add(b, id, client, side, kind, price, qty).book)
    requires j < |b.Queue(x)| && Slot(b.Queue(x)[j].id) == Slot(id)
    ensures Among(MatchOf(b, id, client, side, kind, price, qty).done, Slot(id))
            && !Rests(b, id, client, side, kind, price, qty)
  {
    var m, b' := MatchOf(b, id, client, side, kind, price, qty), Add(b, id, client, side, kind, price, qty).book;
    var t := TakerOf(id, client, side, kind, price);
    DoneFrom(t, b.Queue(side.Other()), qty);
    FreeCellIsNew(b, capacity, b.Queue(x));
    hide Add, BookOk, AllRegistered, Match, Among, StandsIn;
    StandsAfterAdd(b, id, client, side, kind, price, qty, x, j);
    IndexAfterAdd(b, id, client, side, kind, price, qty, Slot(id));
    if x == side || j >= |m.done| {
      StandingEntry(b', x, b.Queue(x)[j].handle, Slot(id));
    } else {
      AmongPrefix(m.done, b.Queue(x), j);
    }
    if Rests(b, id, client, side, kind, price, qty) {
      StandingEntry(b', side, b.free[|b.free| - 1], Slot(id));
    }
  }

  /** The order does no harm to the table, told from the book before the call: no resting order shares its slot; or an
      opposite order that does is covered by it, together with all before it, and it cannot rest, being a market order
      or having no more than the liquidity it crosses. */
  ghost predicate Harmless(b: Book, id: nat, client: nat, side: Side, kind: OrderType, price: nat, qty: nat) {
    var t, opp := TakerOf(id, client, side, kind, price), b.Queue(side.Other());
    || NoClash(b, id)
    || ((exists i :: 0 <= i < |opp| && Slot(opp[i].id) == Slot(id) && Covers(t, opp, qty, i))
        && (kind == Market || qty <= Crossable(t, opp)))
  }

  lemma CoveredAmong(t: Taker, opp: seq<Resting>, qty: nat, s: nat)
    requires AllPositive(opp)
    ensures Among(Match(t, opp, qty).done, s) <==>
            exists i :: 0 <= i < |opp| && Slot(opp[i].id) == s && Covers(t, opp, qty, i)
  {
    hide Match, Covers, Slot;
    var m := Match(t, opp, qty);
    DoneFrom(t, opp, qty);
    if Among(m.done, s) {
      var k :| 0 <= k < |m.done| && Slot(m.done[k].id) == s;
      assert m.done[k] == opp[k];
      FilledIff(t, opp, qty, k);
    }
    forall i | 0 <= i < |opp| && Slot(opp[i].id) == s && Covers(t, opp, qty, i) ensures Among(m.done, s) {
      FilledIff(t, opp, qty, i);
      assert m.done[i] == opp[i];
    }
  }

  lemma SettledIff(b: Book, capacity: nat, id: nat, client: nat, side: Side, kind: OrderType, price: nat, qty: nat)
    requires BookOk(b, capacity)
    ensures Settled(b, id, client, side, kind, price, qty) <==> Harmless(b, id, client, side, kind, price, qty)
  {
    var t, opp := TakerOf(id, client, side, kind, price), b.Queue(side.Other());
    OppositeOk(b, capacity, side.Other());
    hide BookOk, Match, Among, Covers, Sorted, NoClash;
    CoveredAmong(t, opp, qty, Slot(id));
    MatchIsMaximal(t, opp, qty);
    MatchConserves(t, opp, qty);
  }

  lemma OppositeOk(b: Book, capacity: nat, side: Side)
    requires BookOk(b, capacity)
    ensures Sorted(side, b.Queue(side)) && AllPositive(b.Queue(side))
  {
  }

  /** An accepted order leaves every resting order findable exactly when it is harmless. */
  lemma TableStaysComplete(b: Book, capacity: nat, id: nat, client: nat, side: Side, kind: OrderType, price: nat,
                           qty: nat)
    requires BookOk(b, capacity) && AllRegistered(b) && Acceptable(b, kind, price)
    ensures AllRegistered(Add(b, id, client, side, kind, price, qty).book) <==>
            Harmless(b, id, client, side, kind, price, qty)
  {
    SettledIff(b, capacity, id, client, side, kind, price, qty);
    hide Add, BookOk, AllRegistered, MatchOf, Harmless;
    if Settled(b, id, client, side, kind, price, qty) {
      HarmlessAdd(b, capacity, id, client, side, kind, price, qty);
    } else if AllRegistered(Add(b, id, client, side, kind, price, qty).book) {
      var x: Side := if Among(b.bids, Slot(id)) then Buy else Sell;
      var j :| 0 <= j < |b.Queue(x)| && Slot(b.Queue(x)[j].id) == Slot(id);
      ClashConsumed(b, capacity, id, client, side, kind, price, qty, x, j);
    }
  }

  /** Whether a call can hide an order; only an accepted add can. */
  ghost predicate HarmlessOp(b: Book, op: Op) {
    op.AddOp? && Acceptable(b, op.kind, op.price) ==>
      Harmless(b, op.id, op.client, op.side, op.kind, op.price, op.qty)
  }

  lemma OneCallComplete(b: Book, capacity: nat, op: Op)
    requires BookOk(b, capacity) && AllRegistered(b)
    ensures AllRegistered(Apply(b, op).book) <==> HarmlessOp(b, op)
  {
    hide Add, Cancel, Modify, BookOk, AllRegistered, Harmless;
    match op
    case AddOp(id, client, side, kind, price, qty) =>
      AddFields(b, id, client, side, kind, price, qty);
      if Acceptable(b, kind, price) { TableStaysComplete(b, capacity, id, client, side, kind, price, qty); }
    case CancelOp(id) => CancelRegistered(b, capacity, id);
    case ModifyOp(id, price, qty) => ModifyRegistered(b, capacity, id, price, qty);
  }

  /** Every resting order is findable in every book the run passes through. */
  ghost predicate CompleteThroughout(b: Book, ops: seq<Op>)
    decreases |ops|
  {
    AllRegistered(b) && (ops == [] || CompleteThroughout(Apply(b, ops[0]).book, ops[1..]))
  }

  ghost predicate AllHarmless(b: Book, ops: seq<Op>)
    decreases |ops|
  {
    ops == [] || (HarmlessOp(b, ops[0]) && AllHarmless(Apply(b, ops[0]).book, ops[1..]))
  }

  /** Over runs: no order is ever hidden if and only if every call is harmless to the book it finds. */
  lemma {:induction false} CompleteIffHarmless(b: Book, capacity: nat, ops: seq<Op>)
    requires BookOk(b, capacity) && AllRegistered(b)
    ensures CompleteThroughout(b, ops) <==> AllHarmless(b, ops)
    decreases |ops|
  {
    hide Apply, BookOk, AllRegistered, HarmlessOp;
    if ops != [] {
      OneCallComplete(b, capacity, ops[0]);
      ApplyKeeps(b, capacity, ops[0]);
      if HarmlessOp(b, ops[0]) { CompleteIffHarmless(Apply(b, ops[0]).book, capacity, ops[1..]); }
    }
  }

  lemma IsRegistered(b: Book, x: Side, j: nat)
    requires AllRegistered(b) && j < |b.Queue(x)|
    ensures Registered(b.index, b.Queue(x)[j])
  {
  }

  lemma BothSidesClear(b: Book, id: nat)
    requires forall x: Side, i :: 0 <= i < |b.Queue(x)| ==> Slot(b.Queue(x)[i].id) != Slot(id)
    ensures NoClash(b, id)
  {
    assert forall i :: 0 <= i < |b.bids| ==> b.Queue(Buy)[i] == b.bids[i];
    assert forall i :: 0 <= i < |b.asks| ==> b.Queue(Sell)[i] == b.asks[i];
  }

  /** Cancelling keeps the table complete. */
  lemma CancelRegistered(b: Book, capacity: nat, id: nat)
    requires BookOk(b, capacity) && AllRegistered(b)
    ensures AllRegistered(Cancel(b, id).book)
    ensures Lookup(b, id).Some? ==> NoClash(Cancel(b, id).book, id)
  {
    hide Lookup, Cancel, Without, Find, BookOk, AllRegistered, Slot;
    CancelFields(b, id);
    if Lookup(b, id).Some? {
      var (side, r) := Lookup(b, id).value;
      LookupStands(b, id);
      var k := FindAt(b.Queue(side), r.handle);
      var b' := Cancel(b, id).book;
      forall x: Side, i | 0 <= i < |b'.Queue(x)|
        ensures Registered(b'.index, b'.Queue(x)[i]) && Slot(b'.Queue(x)[i].id) != Slot(id)
      {
        var j := i;
        if x == side { j := WithoutFrom(b.Queue(side), r.handle, i); }
        IsRegistered(b, x, j);
        if Slot(b.Queue(x)[j].id) == Slot(id) { SlotsDistinct(b, capacity, x, j, side, k); }
      }
      BothSidesRegistered(b');
      BothSidesClear(b', id);
    }
  }

  /** A modify reuses the slot its own cancel freed, so it never harms the table. */
  lemma ModifyRegistered(b: Book, capacity: nat, id: nat, price: nat, qty: nat)
    requires BookOk(b, capacity) && AllRegistered(b)
    ensures AllRegistered(Modify(b, id, price, qty).book)
  {
    hide AllRegistered, BookOk, NoClash;
    if Lookup(b, id).Some? {
      var (side, r) := Lookup(b, id).value;
      CancelKeeps(b, capacity, id);
      CancelRegistered(b, capacity, id);
      var c := Cancel(b, id).book;
      if Acceptable(c, Limit, price) { TableStaysComplete(c, capacity, id, r.client, side, Limit, price, qty); }
    }
  }

  /** The add in this call, if it is one, meets no clash. */
  ghost predicate Fitting(b: Book, op: Op) { op.AddOp? ==> NoClash(b, op.id) }

  /** Every add of the run meets no clash in the book it finds. */
  ghost predicate AllFitting(b: Book, ops: seq<Op>)
    decreases |ops|
  {
    ops == [] || (Fitting(b, ops[0]) && AllFitting(Apply(b, ops[0]).book, ops[1..]))
  }

  lemma ApplyRegistered(b: Book, capacity: nat, op: Op)
    requires BookOk(b, capacity) && AllRegistered(b) && Fitting(b, op)
    ensures AllRegistered(Apply(b, op).book)
  {
    hide AllRegistered, BookOk, NoClash;
    match op
    case AddOp(id, client, side, kind, price, qty) =>
      if Acceptable(b, kind, price) { TableStaysComplete(b, capacity, id, client, side, kind, price, qty); }
    case CancelOp(id) => CancelRegistered(b, capacity, id);
    case ModifyOp(id, price, qty) => ModifyRegistered(b, capacity, id, price, qty);
  }

  /** Lookup completeness over whole runs: while live ids stay distinct modulo 2^20, every resting order is found. */
  lemma {:induction false} LookupComplete(b: Book, capacity: nat, ops: seq<Op>)
    requires BookOk(b, capacity) && AllRegistered(b) && AllFitting(b, ops)
    ensures BookOk(After(b, ops), capacity) && AllRegistered(After(b, ops))
    ensures forall side: Side, i :: 0 <= i < |After(b, ops).Queue(side)| ==>
              Lookup(After(b, ops), After(b, ops).Queue(side)[i].id) == Some((side, After(b, ops).Queue(side)[i]))
    decreases |ops|
  {
    if ops == [] {
      forall side: Side, i | 0 <= i < |b.Queue(side)|
        ensures Lookup(b, b.Queue(side)[i].id) == Some((side, b.Queue(side)[i]))
      {
        assert Registered(b.index, b.Queue(side)[i]);
        RegisteredIsFound(b, capacity, side, i);
      }
    } else {
      hide AllRegistered, BookOk, Fitting, Lookup;
      ApplyKeeps(b, capacity, ops[0]);
      ApplyRegistered(b, capacity, ops[0]);
      LookupComplete(Apply(b, ops[0]).book, capacity, ops[1..]);
    }
  }

  /** Ids assigned within the last 2^20 do not clash. */
  lemma RecentIdsFit(b: Book, id: nat)
    requires forall i :: 0 <= i < |b.bids| ==> b.bids[i].id < id < b.bids[i].id + 1_048_576
    requires forall i :: 0 <= i < |b.asks| ==> b.asks[i].id < id < b.asks[i].id + 1_048_576
    ensures NoClash(b, id)
  {
  }

  /** A run in which an id one table length later hides a resting order: the order is there, yet its cancel is
      refused. */
  lemma ClashHidesOrder()
    ensures var ops := [AddOp(1, 0, Buy, Limit, 100, 5), AddOp(1 + 1_048_576, 0, Buy, Limit, 100, 7)];
            var b := After(InitialBook(2), ops);
            b.bids == [Resting(0, 1, 0, 100, 5), Resting(1, 1 + 1_048_576, 0, 100, 7)] && !Cancel(b, 1).ok
  {
    hide Apply, InitialBook, Cancel;
    var op1, op2 := AddOp(1, 0, Buy, Limit, 100, 5), AddOp(1 + MAX_ORDERS, 0, Buy, Limit, 100, 7);
    var b1 := Apply(InitialBook(2), op1).book;
    FirstOfTwo();
    SecondOfTwo(b1);
    SecondHidesFirst(Apply(b1, op2).book);
    assert [op1, op2][1..] == [op2] && [op2][1..] == [];
    assert After(b1, [op2]) == After(Apply(b1, op2).book, []);
  }

  lemma FirstOfTwo()
    ensures Apply(InitialBook(2), AddOp(1, 0, Buy, Limit, 100, 5)).book ==
            Book([Resting(0, 1, 0, 100, 5)], [], map[1 := 0], [1])
  {
    assert InitialFree(2) == [1, 0];
    hide InitialFree, Add;
    AddNoTrade(InitialBook(2), 1, 0, Buy, 100, 5);
  }

  lemma SecondOfTwo(b: Book)
    requires b == Book([Resting(0, 1, 0, 100, 5)], [], map[1 := 0], [1])
    ensures Apply(b, AddOp(1 + MAX_ORDERS, 0, Buy, Limit, 100, 7)).book ==
            Book([Resting(0, 1, 0, 100, 5), Resting(1, 1 + MAX_ORDERS, 0, 100, 7)], [], map[1 := 1], [])
  {
    hide Add;
    var r1, r2 := Resting(0, 1, 0, 100, 5), Resting(1, 1 + MAX_ORDERS, 0, 100, 7);
    AddNoTrade(b, 1 + MAX_ORDERS, 0, Buy, 100, 7);
    assert Insert(Buy, [r1], r2) == [r1] + Insert(Buy, [r1][1..], r2);
    assert map[1 := 0][Slot(1 + MAX_ORDERS) := 1] == map[1 := 1];
  }

  lemma SecondHidesFirst(b: Book)
    requires b == Book([Resting(0, 1, 0, 100, 5), Resting(1, 1 + MAX_ORDERS, 0, 100, 7)], [], map[1 := 1], [])
    ensures !Cancel(b, 1).ok
  {
    assert b.bids[1..] == [Resting(1, 1 + MAX_ORDERS, 0, 100, 7)];
    assert Find(b.bids, 1) == Some(b.bids[1]);
  }
}
