/** The plain limit order book: two queues sorted by price then arrival, orders known by id, and nothing else. While
    live ids stay distinct modulo 2^20 the exact specification, with its id table and free list, is indistinguishable
    from it. */
module IdealBook {
  import opened Types
  import opened SeqFacts
  import opened BookSpec
  import opened BookLaws
  import opened CallLaws
  import opened Conservation

  /** Orders carry handle 0 throughout: handles have no meaning here. */
  datatype Ideal = Ideal(bids: seq<Resting>, asks: seq<Resting>, capacity: nat) {
    function Queue(side: Side): seq<Resting> { if side == Buy then bids else asks }
    function WithQueue(side: Side, s: seq<Resting>): Ideal {
      if side == Buy then this.(bids := s) else this.(asks := s)
    }
  }

  datatype IdealOutcome = IdealOutcome(ok: bool, book: Ideal, fills: seq<Fill>)

  predicate HasId(q: seq<Resting>, id: nat) { exists i :: 0 <= i < |q| && q[i].id == id }

  function FirstWithId(q: seq<Resting>, id: nat): Resting
    requires HasId(q, id)
  {
    if q[0].id == id then q[0] else
      assert HasId(q[1..], id) by { var i :| 0 <= i < |q| && q[i].id == id; assert q[1..][i - 1] == q[i]; }
      FirstWithId(q[1..], id)
  }

  function WithoutId(q: seq<Resting>, id: nat): seq<Resting> {
    if q == [] then [] else if q[0].id == id then WithoutId(q[1..], id) else [q[0]] + WithoutId(q[1..], id)
  }

  function IdealAdd(b: Ideal, id: nat, client: nat, side: Side, kind: OrderType, price: nat, qty: nat): IdealOutcome {
    if |b.bids| + |b.asks| >= b.capacity || (kind == Limit && !(MIN_PRICE <= price <= MAX_PRICE)) then
      IdealOutcome(false, b, [])
    else
      var m := Match(TakerOf(id, client, side, kind, price), b.Queue(side.Other()), qty);
      var own := if m.left > 0 && kind == Limit
                 then Insert(side, b.Queue(side), Resting(0, id, client, price, m.left))
                 else b.Queue(side);
      IdealOutcome(true, b.WithQueue(side.Other(), m.rest).WithQueue(side, own), m.fills)
  }

  function IdealCancel(b: Ideal, id: nat): IdealOutcome {
    if HasId(b.bids, id) then IdealOutcome(true, b.(bids := WithoutId(b.bids, id)), [])
    else if HasId(b.asks, id) then IdealOutcome(true, b.(asks := WithoutId(b.asks, id)), [])
    else IdealOutcome(false, b, [])
  }

  function IdealModify(b: Ideal, id: nat, price: nat, qty: nat): IdealOutcome {
    if HasId(b.bids, id) then
      IdealAdd(IdealCancel(b, id).book, id, FirstWithId(b.bids, id).client, Buy, Limit, price, qty)
    else if HasId(b.asks, id) then
      IdealAdd(IdealCancel(b, id).book, id, FirstWithId(b.asks, id).client, Sell, Limit, price, qty)
    else IdealOutcome(false, b, [])
  }

  function IdealApply(b: Ideal, op: Op): IdealOutcome {
    match op
    case AddOp(id, client, side, kind, price, qty) => IdealAdd(b, id, client, side, kind, price, qty)
    case CancelOp(id) => IdealCancel(b, id)
    case ModifyOp(id, price, qty) => IdealModify(b, id, price, qty)
  }

  function IdealRun(b: Ideal, ops: seq<Op>): (r: seq<IdealOutcome>)
    ensures |r| == |ops|
    decreases |ops|
  {
    if ops == [] then [] else [IdealApply(b, ops[0])] + IdealRun(IdealApply(b, ops[0]).book, ops[1..])
  }

  // ----- Forgetting handles -----

  function Erase(q: seq<Resting>): (p: seq<Resting>)
    ensures |p| == |q| && forall i :: 0 <= i < |q| ==> p[i] == q[i].(handle := 0)
  {
    if q == [] then [] else [q[0].(handle := 0)] + Erase(q[1..])
  }

  function Forget(b: Book, capacity: nat): Ideal { Ideal(Erase(b.bids), Erase(b.asks), capacity) }

  function ForgetOutcome(out: Outcome, capacity: nat): IdealOutcome {
    IdealOutcome(out.ok, Forget(out.book, capacity), out.fills)
  }

  lemma {:induction false} EraseMatch(t: Taker, opp: seq<Resting>, qty: nat)
    ensures var m := Match(t, opp, qty);
            Match(t, Erase(opp), qty) == Matched(m.fills, Erase(m.done), Erase(m.rest), m.left)
  {
    if qty == 0 || opp == [] || !Crosses(t, opp[0].price) {
    } else if qty < opp[0].rem {
      assert Erase(opp)[1..] == Erase(opp[1..]);
      assert Erase(Match(t, opp, qty).rest) == Match(t, Erase(opp), qty).rest;
    } else {
      EraseMatch(t, opp[1..], qty - opp[0].rem);
      var m := Match(t, opp[1..], qty - opp[0].rem);
      assert Erase(opp)[1..] == Erase(opp[1..]);
      assert Erase([opp[0]] + m.done) == [opp[0].(handle := 0)] + Erase(m.done);
    }
  }

  lemma {:induction false} EraseInsert(side: Side, q: seq<Resting>, r: Resting)
    ensures Insert(side, Erase(q), r.(handle := 0)) == Erase(Insert(side, q, r))
  {
    if q == [] || Better(side, r.price, q[0].price) {
      assert Erase([r] + q) == [r.(handle := 0)] + Erase(q);
    } else {
      EraseInsert(side, q[1..], r);
      assert Erase(q)[1..] == Erase(q[1..]);
      assert Erase([q[0]] + Insert(side, q[1..], r)) == [q[0].(handle := 0)] + Erase(Insert(side, q[1..], r));
    }
  }

  /** Where handle and id name the same order, removing by either is the same. */
  lemma {:induction false} EraseWithout(q: seq<Resting>, h: nat, id: nat)
    requires forall i :: 0 <= i < |q| ==> (q[i].handle == h <==> q[i].id == id)
    ensures WithoutId(Erase(q), id) == Erase(Without(q, h))
  {
    if q != [] {
      EraseWithout(q[1..], h, id);
      assert Erase(q)[1..] == Erase(q[1..]);
      var w := Without(q[1..], h);
      assert q[0].handle != h ==> Erase([q[0]] + w) == [q[0].(handle := 0)] + Erase(w);
    }
  }

  lemma {:induction false} EraseFirst(q: seq<Resting>, i: nat, id: nat)
    requires i < |q| && q[i].id == id && forall j :: 0 <= j < |q| && q[j].id == id ==> j == i
    ensures HasId(Erase(q), id) && FirstWithId(Erase(q), id) == q[i].(handle := 0)
  {
    assert Erase(q)[i].id == id;
    if i > 0 {
      assert Erase(q)[1..] == Erase(q[1..]);
      EraseFirst(q[1..], i - 1, id);
    }
  }

  // ----- One call -----

  lemma AddRefines(b: Book, capacity: nat, id: nat, client: nat, side: Side, kind: OrderType, price: nat, qty: nat)
    requires BookOk(b, capacity)
    ensures IdealAdd(Forget(b, capacity), id, client, side, kind, price, qty) ==
            ForgetOutcome(Add(b, id, client, side, kind, price, qty), capacity)
  {
    hide Match, Insert, BookOk, Erase, Unregister, Handles;
    RoomLeft(b, capacity);
    EraseLength(b);
    if Acceptable(b, kind, price) {
      var m, t := MatchOf(b, id, client, side, kind, price, qty), TakerOf(id, client, side, kind, price);
      EraseMatch(t, b.Queue(side.Other()), qty);
      EraseInsert(side, b.Queue(side), Resting(b.free[|b.free| - 1], id, client, price, m.left));
    }
  }

  /** The pool has a free cell exactly while fewer orders rest than it holds. */
  lemma RoomLeft(b: Book, capacity: nat)
    requires BookOk(b, capacity)
    ensures b.free != [] <==> |b.bids| + |b.asks| < capacity
  {
    PoolPartition(b, capacity);
  }

  lemma EraseLength(b: Book)
    ensures |Erase(b.bids)| == |b.bids| && |Erase(b.asks)| == |b.asks|
  {
  }

  /** In a fully registered book the lookup succeeds exactly for the ids that rest, and names the one order that has
      it. */
  lemma LookupById(b: Book, capacity: nat, id: nat)
    requires BookOk(b, capacity) && AllRegistered(b)
    ensures Lookup(b, id).None? ==> !HasId(b.bids, id) && !HasId(b.asks, id)
    ensures Lookup(b, id).Some? ==>
              var (side, r) := Lookup(b, id).value;
              && !HasId(b.Queue(side.Other()), id)
              && exists k ::
                   0 <= k < |b.Queue(side)| && b.Queue(side)[k] == r && r.id == id && OnlyOne(b.Queue(side), k)
  {
    if Lookup(b, id).None? {
      forall side: Side, i | 0 <= i < |b.Queue(side)| ensures b.Queue(side)[i].id != id {
        assert Registered(b.index, b.Queue(side)[i]);
        RegisteredIsFound(b, capacity, side, i);
      }
      assert b.Queue(Buy) == b.bids && b.Queue(Sell) == b.asks;
    } else {
      var (side, r) := Lookup(b, id).value;
      LookupStands(b, id);
      var k := FindAt(b.Queue(side), r.handle);
      OnlyOneWithId(b, capacity, side, k);
    }
  }

  /** Position k is the only one with its handle and the only one with its id. */
  ghost predicate OnlyOne(q: seq<Resting>, k: nat)
    requires k < |q|
  {
    forall i :: 0 <= i < |q| ==> (q[i].handle == q[k].handle <==> i == k) && (q[i].id == q[k].id <==> i == k)
  }

  lemma OnlyOneWithId(b: Book, capacity: nat, side: Side, k: nat)
    requires BookOk(b, capacity) && AllRegistered(b) && k < |b.Queue(side)|
    ensures OnlyOne(b.Queue(side), k) && !HasId(b.Queue(side.Other()), b.Queue(side)[k].id)
  {
    hide AllRegistered, NoDup, Handles, Slot, QueueOk, Cells, IndexOk, Uncrossed;
    HandlesOnce(b, capacity);
    var q, oq := b.Queue(side), b.Queue(side.Other());
    forall i | 0 <= i < |q| ensures (q[i].handle == q[k].handle <==> i == k) && (q[i].id == q[k].id <==> i == k) {
      if q[i].handle == q[k].handle { SameHandle(q, i, k); }
      if q[i].id == q[k].id { SlotsDistinct(b, capacity, side, i, side, k); }
    }
    forall i | 0 <= i < |oq| ensures oq[i].id != q[k].id {
      if oq[i].id == q[k].id { SlotsDistinct(b, capacity, side.Other(), i, side, k); }
    }
  }

  lemma EraseHasId(q: seq<Resting>, id: nat)
    ensures HasId(Erase(q), id) <==> HasId(q, id)
  {
    assert forall i :: 0 <= i < |q| ==> Erase(q)[i].id == q[i].id;
  }

  /** The one order an id names, in the book and in the ideal one. */
  lemma LookupErased(b: Book, capacity: nat, id: nat)
    requires BookOk(b, capacity) && AllRegistered(b)
    ensures Lookup(b, id).None? ==> !HasId(Erase(b.bids), id) && !HasId(Erase(b.asks), id)
    ensures Lookup(b, id).Some? ==>
              var (side, r) := Lookup(b, id).value; var q := b.Queue(side);
              && !HasId(Erase(b.Queue(side.Other())), id) && HasId(Erase(q), id)
              && FirstWithId(Erase(q), id).client == r.client && WithoutId(Erase(q), id) == Erase(Without(q, r.handle))
  {
    hide Lookup, BookOk, AllRegistered;
    LookupById(b, capacity, id);
    EraseHasId(b.bids, id);
    EraseHasId(b.asks, id);
    if Lookup(b, id).Some? {
      var (side, r) := Lookup(b, id).value;
      var k :| 0 <= k < |b.Queue(side)| && b.Queue(side)[k] == r && r.id == id && OnlyOne(b.Queue(side), k);
      EraseWithout(b.Queue(side), r.handle, id);
      EraseFirst(b.Queue(side), k, id);
    }
  }

  lemma CancelRefines(b: Book, capacity: nat, id: nat)
    requires BookOk(b, capacity) && AllRegistered(b)
    ensures IdealCancel(Forget(b, capacity), id) == ForgetOutcome(Cancel(b, id), capacity)
  {
    hide Lookup, Erase, BookOk, AllRegistered, Without, WithoutId, HasId, FirstWithId;
    LookupErased(b, capacity, id);
  }

  lemma ModifyRefines(b: Book, capacity: nat, id: nat, price: nat, qty: nat)
    requires BookOk(b, capacity) && AllRegistered(b)
    ensures IdealModify(Forget(b, capacity), id, price, qty) == ForgetOutcome(Modify(b, id, price, qty), capacity)
  {
    hide Lookup, Erase, BookOk, AllRegistered, Cancel, Add, IdealCancel, IdealAdd, HasId, FirstWithId, Without,
         WithoutId;
    LookupErased(b, capacity, id);
    CancelRefines(b, capacity, id);
    if Lookup(b, id).Some? {
      var (side, r) := Lookup(b, id).value;
      CancelKeeps(b, capacity, id);
      AddRefines(Cancel(b, id).book, capacity, id, r.client, side, Limit, price, qty);
    }
  }

  lemma ApplyRefines(b: Book, capacity: nat, op: Op)
    requires BookOk(b, capacity) && AllRegistered(b)
    ensures IdealApply(Forget(b, capacity), op) == ForgetOutcome(Apply(b, op), capacity)
  {
    hide BookOk, AllRegistered;
    match op
    case AddOp(id, client, side, kind, price, qty) => AddRefines(b, capacity, id, client, side, kind, price, qty);
    case CancelOp(id) => CancelRefines(b, capacity, id);
    case ModifyOp(id, price, qty) => ModifyRefines(b, capacity, id, price, qty);
  }

  // ----- Runs -----

  /** While live ids are distinct modulo 2^20, every run has the return values, fills and queues of the plain book. */
  lemma {:induction false} RunRefines(b: Book, capacity: nat, ops: seq<Op>, k: nat)
    requires BookOk(b, capacity) && AllRegistered(b) && AllFitting(b, ops) && k < |ops|
    ensures IdealRun(Forget(b, capacity), ops)[k] == ForgetOutcome(Run(b, ops)[k], capacity)
    decreases |ops|
  {
    hide BookOk, AllRegistered, Fitting, Apply, IdealApply;
    ApplyRefines(b, capacity, ops[0]);
    ApplyKeeps(b, capacity, ops[0]);
    ApplyRegistered(b, capacity, ops[0]);
    if k > 0 { RunRefines(Apply(b, ops[0]).book, capacity, ops[1..], k - 1); }
  }

  function IdealAfter(b: Ideal, ops: seq<Op>): Ideal
    decreases |ops|
  {
    if ops == [] then b else IdealAfter(IdealApply(b, ops[0]).book, ops[1..])
  }

  function IdealFills(b: Ideal, ops: seq<Op>): seq<Fill>
    decreases |ops|
  {
    if ops == [] then [] else IdealApply(b, ops[0]).fills + IdealFills(IdealApply(b, ops[0]).book, ops[1..])
  }

  /** Each id that the run adds differs modulo 2^20 from those then resting. */
  ghost predicate DistinctIds(b: Ideal, ops: seq<Op>)
    decreases |ops|
  {
    ops == [] ||
    ((ops[0].AddOp? ==> !Among(b.bids, Slot(ops[0].id)) && !Among(b.asks, Slot(ops[0].id)))
     && DistinctIds(IdealApply(b, ops[0]).book, ops[1..]))
  }

  lemma EraseAmong(q: seq<Resting>, s: nat)
    ensures Among(Erase(q), s) <==> Among(q, s)
  {
    hide Slot;
    if Among(q, s) {
      var i :| 0 <= i < |q| && Slot(q[i].id) == s;
      assert Slot(Erase(q)[i].id) == s;
    }
  }

  lemma FittingForgotten(b: Book, capacity: nat, op: Op)
    ensures (op.AddOp? ==>
               !Among(Forget(b, capacity).bids, Slot(op.id)) && !Among(Forget(b, capacity).asks, Slot(op.id)))
            <==> Fitting(b, op)
  {
    hide Slot, Among;
    if op.AddOp? {
      EraseAmong(b.bids, Slot(op.id));
      EraseAmong(b.asks, Slot(op.id));
    }
  }

  /** The condition on ids, in terms of either book. */
  lemma {:induction false} DistinctIsFitting(b: Book, capacity: nat, ops: seq<Op>)
    requires BookOk(b, capacity) && AllRegistered(b)
    ensures DistinctIds(Forget(b, capacity), ops) <==> AllFitting(b, ops)
    decreases |ops|
  {
    hide BookOk, AllRegistered, Fitting, Apply, IdealApply, Among, Forget;
    if ops != [] {
      FittingForgotten(b, capacity, ops[0]);
      if Fitting(b, ops[0]) {
        ApplyRefines(b, capacity, ops[0]);
        ApplyKeeps(b, capacity, ops[0]);
        ApplyRegistered(b, capacity, ops[0]);
        DistinctIsFitting(Apply(b, ops[0]).book, capacity, ops[1..]);
      }
    }
  }

  /** A whole run is a run of the plain book. */
  lemma {:induction false} RunIsIdeal(b: Book, capacity: nat, ops: seq<Op>)
    requires BookOk(b, capacity) && AllRegistered(b) && AllFitting(b, ops)
    ensures Forget(After(b, ops), capacity) == IdealAfter(Forget(b, capacity), ops)
    ensures RunFills(b, ops) == IdealFills(Forget(b, capacity), ops)
    decreases |ops|
  {
    hide BookOk, AllRegistered, Fitting, Apply, IdealApply, Forget;
    if ops != [] {
      ApplyRefines(b, capacity, ops[0]);
      ApplyKeeps(b, capacity, ops[0]);
      ApplyRegistered(b, capacity, ops[0]);
      RunIsIdeal(Apply(b, ops[0]).book, capacity, ops[1..]);
    }
  }

  lemma RunFromEmpty(capacity: nat, ops: seq<Op>)
    requires DistinctIds(Ideal([], [], capacity), ops)
    ensures var b, ideal := InitialBook(capacity), Ideal([], [], capacity);
            && Forget(After(b, ops), capacity) == IdealAfter(ideal, ops) && RunFills(b, ops) == IdealFills(ideal, ops)
            && forall k :: 0 <= k < |ops| ==> IdealRun(ideal, ops)[k] == ForgetOutcome(Run(b, ops)[k], capacity)
  {
    InitialOk(capacity);
    var b := InitialBook(capacity);
    assert Forget(b, capacity) == Ideal([], [], capacity);
    hide Forget, BookOk, AllFitting, DistinctIds, InitialBook;
    DistinctIsFitting(b, capacity, ops);
    RunIsIdeal(b, capacity, ops);
    forall k | 0 <= k < |ops|
      ensures IdealRun(Ideal([], [], capacity), ops)[k] == ForgetOutcome(Run(b, ops)[k], capacity)
    {
      RunRefines(b, capacity, ops, k);
    }
  }
}
