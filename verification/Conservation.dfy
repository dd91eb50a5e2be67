/** Quantity conservation over whole runs, for every order id and for each side as a whole. */
module Conservation {
  import opened Types
  import opened SeqFacts
  import opened BookSpec
  import opened MatchLaws
  import opened BookLaws
  import opened Ladder

  /** `who` is one order id, or None for everyone. */
  predicate Counts(who: Option<nat>, id: nat) { who.None? || who.value == id }

  function Share(who: Option<nat>, id: nat, qty: nat): nat { if Counts(who, id) then qty else 0 }

  function RestingQty(q: seq<Resting>, who: Option<nat>): nat {
    if q == [] then 0 else Share(who, q[0].id, q[0].rem) + RestingQty(q[1..], who)
  }

  /** Bought (on the buy side) or sold (on the sell side) quantity of the fills. */
  function Executed(side: Side, fills: seq<Fill>, who: Option<nat>): nat {
    if fills == [] then 0
    else
      Share(who, if side == Buy then fills[0].bidId else fills[0].askId, fills[0].quantity)
      + Executed(side, fills[1..], who)
  }

  /** Quantity entering the book by submission, and leaving it other than by trading. */
  datatype Flow = Flow(submitted: nat, cancelled: nat, discarded: nat) {
    function Plus(that: Flow): Flow {
      Flow(submitted + that.submitted, cancelled + that.cancelled, discarded + that.discarded)
    }
  }

  const NO_FLOW := Flow(0, 0, 0)

  function AddFlow(b: Book, id: nat, client: nat, own: Side, kind: OrderType, price: nat, qty: nat, side: Side,
                   who: Option<nat>): Flow {
    if !Acceptable(b, kind, price) || side != own then NO_FLOW
    else Flow(Share(who, id, qty), 0,
              if kind == Market then Share(who, id, MatchOf(b, id, client, own, kind, price, qty).left) else 0)
  }

  function CancelFlow(b: Book, id: nat, side: Side, who: Option<nat>): Flow {
    match Lookup(b, id)
    case None => NO_FLOW
    case Some((own, r)) => if side == own then Flow(0, Share(who, id, r.rem), 0) else NO_FLOW
  }

  function OpFlow(b: Book, op: Op, side: Side, who: Option<nat>): Flow {
    match op
    case AddOp(id, client, own, kind, price, qty) => AddFlow(b, id, client, own, kind, price, qty, side, who)
    case CancelOp(id) => CancelFlow(b, id, side, who)
    case ModifyOp(id, price, qty) =>
      match Lookup(b, id)
      case None => NO_FLOW
      case Some((own, r)) =>
        CancelFlow(b, id, side, who).Plus(AddFlow(Cancel(b, id).book, id, r.client, own, Limit, price, qty, side, who))
  }

  function RunFlow(b: Book, ops: seq<Op>, side: Side, who: Option<nat>): Flow
    decreases |ops|
  {
    if ops == [] then NO_FLOW
    else OpFlow(b, ops[0], side, who).Plus(RunFlow(Apply(b, ops[0]).book, ops[1..], side, who))
  }

  /** All fills of a run, in order. */
  function RunFills(b: Book, ops: seq<Op>): seq<Fill>
    decreases |ops|
  {
    if ops == [] then [] else Apply(b, ops[0]).fills + RunFills(Apply(b, ops[0]).book, ops[1..])
  }

  lemma {:induction false} ExecutedAppend(side: Side, a: seq<Fill>, b: seq<Fill>, who: Option<nat>)
    ensures Executed(side, a + b, who) == Executed(side, a, who) + Executed(side, b, who)
  {
    if a == [] {
      assert a + b == b;
    } else {
      assert (a + b)[1..] == a[1..] + b;
      ExecutedAppend(side, a[1..], b, who);
    }
  }

  // ----- One match -----

  /** Each side of a match is debited what the fills credit to it. */
  lemma {:induction false} MatchBalances(t: Taker, opp: seq<Resting>, qty: nat, who: Option<nat>)
    ensures var m := Match(t, opp, qty);
            && Executed(t.side.Other(), m.fills, who) + RestingQty(m.rest, who) == RestingQty(opp, who)
            && Executed(t.side, m.fills, who) + Share(who, t.id, m.left) == Share(who, t.id, qty)
  {
    var m := Match(t, opp, qty);
    if qty == 0 || opp == [] || !Crosses(t, opp[0].price) {
    } else if qty < opp[0].rem {
      assert m.fills[1..] == [] && m.rest[1..] == opp[1..];
    } else {
      MatchBalances(t, opp[1..], qty - opp[0].rem, who);
      assert m.fills[1..] == Match(t, opp[1..], qty - opp[0].rem).fills;
    }
  }

  lemma {:induction false} InsertQty(side: Side, q: seq<Resting>, r: Resting, who: Option<nat>)
    ensures RestingQty(Insert(side, q, r), who) == RestingQty(q, who) + Share(who, r.id, r.rem)
  {
    var p := Insert(side, q, r);
    if q == [] || Better(side, r.price, q[0].price) {
      assert p[1..] == q;
    } else {
      InsertQty(side, q[1..], r, who);
      assert p[1..] == Insert(side, q[1..], r);
    }
  }

  lemma {:induction false} WithoutQty(q: seq<Resting>, j: nat, who: Option<nat>)
    requires j < |q| && NoDup(Handles(q))
    ensures RestingQty(q, who) == RestingQty(Without(q, q[j].handle), who) + Share(who, q[j].id, q[j].rem)
  {
    assert forall i :: 1 <= i < |q| ==> Handles(q)[i] == Handles(q[1..])[i - 1];
    if j == 0 {
      forall i | 0 <= i < |q[1..]| ensures q[1..][i].handle != q[0].handle {
        assert Handles(q)[i + 1] != Handles(q)[0];
      }
      WithoutAbsent(q[1..], q[0].handle);
    } else {
      assert Handles(q)[0] != Handles(q)[j];
      WithoutQty(q[1..], j - 1, who);
      assert Without(q, q[j].handle)[1..] == Without(q[1..], q[j].handle);
    }
  }

  // ----- One call -----

  /** What stands after a call, plus what it executed, cancelled and discarded, is what stood before plus what it
      submitted. */
  ghost predicate Balanced(b: Book, out: Outcome, flow: Flow, side: Side, who: Option<nat>) {
    RestingQty(out.book.Queue(side), who) + Executed(side, out.fills, who) + flow.cancelled + flow.discarded
      == RestingQty(b.Queue(side), who) + flow.submitted
  }

  lemma AddBalances(b: Book, id: nat, client: nat, own: Side, kind: OrderType, price: nat, qty: nat, side: Side,
                    who: Option<nat>)
    ensures Balanced(b, Add(b, id, client, own, kind, price, qty),
            AddFlow(b, id, client, own, kind, price, qty, side, who), side, who)
  {
    if Acceptable(b, kind, price) {
      var m := MatchOf(b, id, client, own, kind, price, qty);
      MatchBalances(TakerOf(id, client, own, kind, price), b.Queue(own.Other()), qty, who);
      InsertQty(own, b.Queue(own), Resting(b.free[|b.free| - 1], id, client, price, m.left), who);
      hide Match, Insert, Unregister, Handles;
    }
  }

  lemma NothingExecuted(side: Side, who: Option<nat>)
    ensures Executed(side, [], who) == 0
  {
  }

  lemma CancelBalances(b: Book, capacity: nat, id: nat, side: Side, who: Option<nat>)
    requires BookOk(b, capacity)
    ensures Balanced(b, Cancel(b, id), CancelFlow(b, id, side, who), side, who)
  {
    hide Lookup, Without, Find, Handles, Cancel, NoDup, QueueOk, Uncrossed, IndexOk, Cells, RestingQty, Share, Executed;
    CancelFields(b, id);
    NothingExecuted(side, who);
    if Lookup(b, id).Some? {
      var (own, r) := Lookup(b, id).value;
      LookupStands(b, id);
      HandlesOnce(b, capacity);
      var j := FindAt(b.Queue(own), r.handle);
      WithoutQty(b.Queue(own), j, who);
    }
  }

  lemma ModifyBalances(b: Book, capacity: nat, id: nat, price: nat, qty: nat, side: Side, who: Option<nat>)
    requires BookOk(b, capacity)
    ensures Balanced(b, Modify(b, id, price, qty), OpFlow(b, ModifyOp(id, price, qty), side, who), side, who)
  {
    hide Lookup, Cancel, Add, CancelFlow, AddFlow, RestingQty, Executed, BookOk;
    CancelFields(b, id);
    NothingExecuted(side, who);
    if Lookup(b, id).Some? {
      var (own, r) := Lookup(b, id).value;
      CancelBalances(b, capacity, id, side, who);
      AddBalances(Cancel(b, id).book, id, r.client, own, Limit, price, qty, side, who);
    }
  }

  lemma ApplyBalances(b: Book, capacity: nat, op: Op, side: Side, who: Option<nat>)
    requires BookOk(b, capacity)
    ensures Balanced(b, Apply(b, op), OpFlow(b, op, side, who), side, who)
  {
    hide BookOk;
    match op
    case AddOp(id, client, own, kind, price, qty) => AddBalances(b, id, client, own, kind, price, qty, side, who);
    case CancelOp(id) => CancelBalances(b, capacity, id, side, who);
    case ModifyOp(id, price, qty) => ModifyBalances(b, capacity, id, price, qty, side, who);
  }

  // ----- Whole runs -----

  lemma {:induction false} RunBalances(b: Book, capacity: nat, ops: seq<Op>, side: Side, who: Option<nat>)
    requires BookOk(b, capacity)
    ensures var flow := RunFlow(b, ops, side, who);
            RestingQty(After(b, ops).Queue(side), who) + Executed(side, RunFills(b, ops), who) + flow.cancelled
              + flow.discarded
              == RestingQty(b.Queue(side), who) + flow.submitted
    decreases |ops|
  {
    if ops != [] {
      hide BookOk, Apply, OpFlow;
      ApplyBalances(b, capacity, ops[0], side, who);
      ApplyKeeps(b, capacity, ops[0]);
      RunBalances(Apply(b, ops[0]).book, capacity, ops[1..], side, who);
      ExecutedAppend(side, Apply(b, ops[0]).fills, RunFills(Apply(b, ops[0]).book, ops[1..]), who);
    }
  }

  /** Over any run on a new book, for each id (or all together) and side: submitted quantity is executed, cancelled,
      discarded with a market order's remainder, or still resting; and in total as much is bought as sold. */
  lemma ConservedOverRuns(capacity: nat, ops: seq<Op>, side: Side, who: Option<nat>)
    ensures var b := InitialBook(capacity); var flow := RunFlow(b, ops, side, who);
            flow.submitted == Executed(side, RunFills(b, ops), who) + flow.cancelled + flow.discarded
              + RestingQty(After(b, ops).Queue(side), who)
    ensures Executed(Buy, RunFills(InitialBook(capacity), ops), None) ==
            Executed(Sell, RunFills(InitialBook(capacity), ops), None)
  {
    InitialOk(capacity);
    RunBalances(InitialBook(capacity), capacity, ops, side, who);
    BoughtIsSold(RunFills(InitialBook(capacity), ops));
  }

  lemma {:induction false} BoughtIsSold(fills: seq<Fill>)
    ensures Executed(Buy, fills, None) == Executed(Sell, fills, None) == SumFills(fills)
  {
    if fills != [] { BoughtIsSold(fills[1..]); }
  }
}
