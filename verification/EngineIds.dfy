/** Ids as the engine assigns them: when they keep the id table complete, and what follows for the engine's book. */
module EngineIds {
  import opened Types
  import opened BookSpec
  import opened BookLaws
  import opened CallLaws
  import opened Conservation
  import opened EngineSpec
  import opened IdealBook

  /** Every resting id lies in the range. */
  ghost predicate IdsIn(b: Book, low: nat, high: nat) {
    forall side: Side, i :: 0 <= i < |b.Queue(side)| ==> low <= b.Queue(side)[i].id < high
  }

  lemma AddIds(b: Book, capacity: nat, id: nat, client: nat, side: Side, kind: OrderType, price: nat, qty: nat,
               low: nat, high: nat)
    requires BookOk(b, capacity) && IdsIn(b, low, high) && low <= id < high
    ensures IdsIn(Add(b, id, client, side, kind, price, qty).book, low, high)
  {
    hide Add, BookOk, MatchOf;
    AddFields(b, id, client, side, kind, price, qty);
    if Acceptable(b, kind, price) {
      var b' := Add(b, id, client, side, kind, price, qty).book;
      forall x: Side, i | 0 <= i < |b'.Queue(x)| ensures low <= b'.Queue(x)[i].id < high {
        var j := QueuesAfterAdd(b, capacity, id, client, side, kind, price, qty, x, i);
      }
    }
  }

  lemma CancelIds(b: Book, id: nat, low: nat, high: nat)
    requires IdsIn(b, low, high)
    ensures IdsIn(Cancel(b, id).book, low, high) && (Lookup(b, id).Some? ==> low <= id < high)
  {
    hide Cancel, Lookup, Without, Find;
    CancelFields(b, id);
    if Lookup(b, id).Some? {
      var (side, r) := Lookup(b, id).value;
      LookupStands(b, id);
      var k := FindAt(b.Queue(side), r.handle);
      var b' := Cancel(b, id).book;
      forall x: Side, i | 0 <= i < |b'.Queue(x)| ensures low <= b'.Queue(x)[i].id < high {
        if x == side { var j := WithoutFrom(b.Queue(side), r.handle, i); }
      }
    }
  }

  lemma ApplyIds(b: Book, capacity: nat, op: Op, low: nat, high: nat)
    requires BookOk(b, capacity) && IdsIn(b, low, high) && (op.AddOp? ==> low <= op.id < high)
    ensures IdsIn(Apply(b, op).book, low, high)
  {
    hide Add, Cancel, Lookup, BookOk, IdsIn;
    match op
    case AddOp(id, client, side, kind, price, qty) =>
      AddIds(b, capacity, id, client, side, kind, price, qty, low, high);
    case CancelOp(id) => CancelIds(b, id, low, high);
    case ModifyOp(id, price, qty) =>
      CancelIds(b, id, low, high);
      CancelKeeps(b, capacity, id);
      if Lookup(b, id).Some? {
        var (side, r) := Lookup(b, id).value;
        AddIds(Cancel(b, id).book, capacity, id, r.client, side, Limit, price, qty, low, high);
      }
  }

  /** At every new order, each resting order is among the last 2^20 ids assigned. */
  ghost predicate RecentIds(e: Engine, msgs: seq<Inbound>)
    decreases |msgs|
  {
    msgs == [] ||
    ((msgs[0].kind == NewOrder ==> IdsIn(e.book, if e.nextId < MAX_ORDERS then 0 else e.nextId - MAX_ORDERS + 1, TWO64))
     && RecentIds(Process(e, msgs[0]), msgs[1..]))
  }

  lemma WiderIds(b: Book, low: nat, high: nat, low': nat, high': nat)
    requires IdsIn(b, low, high) && low' <= low && high <= high'
    ensures IdsIn(b, low', high')
  {
  }

  lemma RecentFits(b: Book, id: nat)
    requires IdsIn(b, 0, id) && IdsIn(b, if id < MAX_ORDERS then 0 else id - MAX_ORDERS + 1, TWO64)
    ensures NoClash(b, id)
  {
    forall i | 0 <= i < |b.bids| ensures b.bids[i].id < id < b.bids[i].id + 1_048_576 {
      assert b.Queue(Buy)[i] == b.bids[i];
    }
    forall i | 0 <= i < |b.asks| ensures b.asks[i].id < id < b.asks[i].id + 1_048_576 {
      assert b.Queue(Sell)[i] == b.asks[i];
    }
    RecentIdsFit(b, id);
  }

  /** One message keeps ids below the next one and counts down the new orders to come. */
  lemma MessageIds(e: Engine, capacity: nat, msgs: seq<Inbound>, low: nat)
    requires msgs != [] && BookOk(e.book, capacity) && IdsIn(e.book, low, e.nextId) && low <= e.nextId
    requires e.nextId + NewOrders(msgs) < TWO64
    ensures var e' := Process(e, msgs[0]);
            && BookOk(e'.book, capacity) && IdsIn(e'.book, low, e'.nextId) && e.nextId <= e'.nextId
            && e'.nextId + NewOrders(msgs[1..]) == e.nextId + NewOrders(msgs)
  {
    hide Apply, BookOk, IdsIn;
    var op := ToOp(e, msgs[0]);
    if op.Some? {
      ApplyKeeps(e.book, capacity, op.value);
      WiderIds(e.book, low, e.nextId, low, e.nextId + 1);
      if msgs[0].kind == NewOrder {
        ApplyIds(e.book, capacity, op.value, low, e.nextId + 1);
      } else {
        ApplyIds(e.book, capacity, op.value, low, e.nextId);
      }
    }
  }

  /** Then no new order ever meets a clash in the id table. */
  lemma {:induction false} RecentRunsFit(e: Engine, capacity: nat, msgs: seq<Inbound>)
    requires BookOk(e.book, capacity) && IdsIn(e.book, 0, e.nextId) && e.nextId + NewOrders(msgs) < TWO64
    requires RecentIds(e, msgs)
    ensures AllFitting(e.book, Calls(e, msgs))
    decreases |msgs|
  {
    hide Apply, BookOk, IdsIn, NoClash, NewOrders;
    if msgs != [] {
      MessageIds(e, capacity, msgs, 0);
      var e', op := Process(e, msgs[0]), ToOp(e, msgs[0]);
      RecentRunsFit(e', capacity, msgs[1..]);
      var rest := Calls(e', msgs[1..]);
      if op.Some? {
        if msgs[0].kind == NewOrder { RecentFits(e.book, e.nextId); }
        assert Calls(e, msgs) == [op.value] + rest && ([op.value] + rest)[1..] == rest;
      } else {
        assert [] + rest == rest;
      }
    }
  }

  /** With at most 2^20 new orders every id is recent. */
  lemma {:induction false} FewStayRecent(e: Engine, capacity: nat, msgs: seq<Inbound>, low: nat)
    requires BookOk(e.book, capacity) && IdsIn(e.book, low, e.nextId) && low <= e.nextId
    requires e.nextId + NewOrders(msgs) <= low + MAX_ORDERS < TWO64
    ensures RecentIds(e, msgs)
    decreases |msgs|
  {
    hide BookOk, IdsIn, Process;
    if msgs != [] {
      MessageIds(e, capacity, msgs, low);
      FewStayRecent(Process(e, msgs[0]), capacity, msgs[1..], low);
      if msgs[0].kind == NewOrder {
        WiderIds(e.book, low, e.nextId, if e.nextId < MAX_ORDERS then 0 else e.nextId - MAX_ORDERS + 1, TWO64);
      }
    }
  }

  lemma InitialIds(capacity: nat)
    ensures BookOk(InitialBook(capacity), capacity) && AllRegistered(InitialBook(capacity))
    ensures IdsIn(InitialBook(capacity), 1, 1) && IdsIn(InitialBook(capacity), 0, 1)
  {
    InitialOk(capacity);
  }

  /** For every message sequence whose new orders meet only recent ids: the engine can cancel every resting order, and
      its book and trades are those of the plain two-queue book. */
  lemma EngineIsIdeal(capacity: nat, msgs: seq<Inbound>)
    requires 1 + NewOrders(msgs) < TWO64 && RecentIds(InitialEngine(capacity), msgs)
    ensures var b, calls := EngineAfter(InitialEngine(capacity), msgs).book, Calls(InitialEngine(capacity), msgs);
            && (forall side: Side, i :: 0 <= i < |b.Queue(side)| ==>
                  Lookup(b, b.Queue(side)[i].id) == Some((side, b.Queue(side)[i])) && Cancel(b, b.Queue(side)[i].id).ok)
            && Forget(b, capacity) == IdealAfter(Ideal([], [], capacity), calls)
            && RunFills(InitialBook(capacity), calls) == IdealFills(Ideal([], [], capacity), calls)
  {
    var e := InitialEngine(capacity);
    var calls := Calls(e, msgs);
    InitialIds(capacity);
    assert Forget(e.book, capacity) == Ideal([], [], capacity);
    hide BookOk, IdsIn, Forget, AllRegistered, AllFitting, InitialBook, RecentIds, Calls;
    EngineRunsBook(e, msgs);
    RecentRunsFit(e, capacity, msgs);
    RunIsIdeal(e.book, capacity, calls);
    LookupComplete(e.book, capacity, calls);
    var b := After(e.book, calls);
    forall side: Side, i | 0 <= i < |b.Queue(side)| ensures Cancel(b, b.Queue(side)[i].id).ok {
      hide Lookup, Cancel;
      CancelFields(b, b.Queue(side)[i].id);
    }
  }

  /** In particular for every message sequence with at most 2^20 new orders. */
  lemma FewOrdersAreRecent(capacity: nat, msgs: seq<Inbound>)
    requires NewOrders(msgs) <= 1_048_576
    ensures RecentIds(InitialEngine(capacity), msgs)
  {
    InitialIds(capacity);
    hide BookOk, IdsIn, InitialBook;
    FewStayRecent(InitialEngine(capacity), capacity, msgs, 1);
  }
}
