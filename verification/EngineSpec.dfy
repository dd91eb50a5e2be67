/** The matching engine as a state machine over messages. */
module EngineSpec {
  import opened Types
  import opened BookSpec
  import opened BookLaws
  import opened Conservation

  datatype MessageType =
    | NewOrder | CancelOrder | ModifyOrder
    | OrderAccepted | OrderCanceled | OrderExecuted | OrderRejected

  datatype Inbound = Inbound(kind: MessageType, side: Side, orderType: OrderType, client: nat, orderId: nat,
                             price: nat, quantity: nat, recvTsc: nat)

  datatype Outbound = Outbound(kind: MessageType, rejectReason: nat, client: nat, orderId: nat,
                               price: nat, quantity: nat, matchNumber: nat, tsc: nat)

  function Accept(client: nat, id: nat, tsc: nat): Outbound { Outbound(OrderAccepted, 0, client, id, 0, 0, 0, tsc) }
  function Reject(client: nat, id: nat, reason: nat, tsc: nat): Outbound {
    Outbound(OrderRejected, reason, client, id, 0, 0, 0, tsc)
  }
  function Canceled(client: nat, id: nat, tsc: nat): Outbound { Outbound(OrderCanceled, 0, client, id, 0, 0, 0, tsc) }

  /** `n` after one more step of a 64-bit counter. */
  function Next(n: nat): nat { (n + 1) % TWO64 }

  /** The two reports of a fill: the buyer's, then the seller's. */
  function Reports(f: Fill, number: nat, tsc: nat): seq<Outbound> {
    [Outbound(OrderExecuted, 0, f.bidClient, f.bidId, f.price, f.quantity, number, tsc),
     Outbound(OrderExecuted, 0, f.askClient, f.askId, f.price, f.quantity, number, tsc)]
  }

  /** The reports of several fills, numbered from `number` on. */
  function FillReports(fills: seq<Fill>, number: nat, tsc: nat): seq<Outbound> {
    if fills == [] then [] else Reports(fills[0], number, tsc) + FillReports(fills[1..], Next(number), tsc)
  }

  datatype Engine = Engine(book: Book, nextId: nat, matchNumber: nat)

  function InitialEngine(capacity: nat): Engine { Engine(InitialBook(capacity), 1, 1) }

  /** What a message makes the engine do to the book; messages of other kinds are ignored. */
  function ToOp(e: Engine, msg: Inbound): Option<Op> {
    match msg.kind
    case NewOrder => Some(AddOp(e.nextId, msg.client, msg.side, msg.orderType, msg.price, msg.quantity))
    case CancelOrder => Some(CancelOp(msg.orderId))
    case ModifyOrder => Some(ModifyOp(msg.orderId, msg.price, msg.quantity))
    case _ => None
  }

  /** The id a reply carries. */
  function ReplyId(e: Engine, msg: Inbound): nat { if msg.kind == NewOrder then e.nextId else msg.orderId }

  function RejectReason(kind: MessageType): nat { if kind == NewOrder then 1 else if kind == CancelOrder then 2 else 3 }

  function Process(e: Engine, msg: Inbound): Engine {
    match ToOp(e, msg)
    case None => e
    case Some(op) =>
      var out := Apply(e.book, op);
      Engine(out.book, if msg.kind == NewOrder then Next(e.nextId) else e.nextId, (e.matchNumber + |out.fills|) % TWO64)
  }

  /** The messages emitted for one inbound message. */
  function Emits(e: Engine, msg: Inbound, tsc: nat): seq<Outbound> {
    match ToOp(e, msg)
    case None => []
    case Some(op) =>
      var out := Apply(e.book, op);
      if !out.ok then [Reject(msg.client, ReplyId(e, msg), RejectReason(msg.kind), tsc)]
      else if msg.kind == CancelOrder then [Canceled(msg.client, msg.orderId, tsc)]
      else [Accept(msg.client, ReplyId(e, msg), tsc)] + FillReports(out.fills, e.matchNumber, tsc)
  }

  // ----- Message sequences -----

  function EngineAfter(e: Engine, msgs: seq<Inbound>): Engine
    decreases |msgs|
  {
    if msgs == [] then e else EngineAfter(Process(e, msgs[0]), msgs[1..])
  }

  /** The emitted log, engine timestamps aside (all zero). */
  function Log(e: Engine, msgs: seq<Inbound>): seq<Outbound>
    decreases |msgs|
  {
    if msgs == [] then [] else Emits(e, msgs[0], 0) + Log(Process(e, msgs[0]), msgs[1..])
  }

  /** The calls on the book that the messages amount to. */
  function Calls(e: Engine, msgs: seq<Inbound>): seq<Op>
    decreases |msgs|
  {
    if msgs == [] then []
    else (match ToOp(e, msgs[0]) case None => [] case Some(op) => [op]) + Calls(Process(e, msgs[0]), msgs[1..])
  }

  function Strip(log: seq<Outbound>): (r: seq<Outbound>)
    ensures |r| == |log| && forall i :: 0 <= i < |log| ==> r[i] == log[i].(tsc := 0)
  {
    if log == [] then [] else [log[0].(tsc := 0)] + Strip(log[1..])
  }

  function Executions(log: seq<Outbound>): seq<Outbound> {
    if log == [] then []
    else if log[0].kind == OrderExecuted then [log[0]] + Executions(log[1..]) else Executions(log[1..])
  }

  /** The reports of one message, whatever the clock read. */
  lemma {:induction false} StripReports(fills: seq<Fill>, number: nat, tsc: nat)
    ensures Strip(FillReports(fills, number, tsc)) == FillReports(fills, number, 0)
  {
    if fills != [] {
      StripReports(fills[1..], Next(number), tsc);
    }
  }

  lemma EmitsButForClock(e: Engine, msg: Inbound, tsc: nat)
    ensures Strip(Emits(e, msg, tsc)) == Emits(e, msg, 0)
  {
    match ToOp(e, msg)
    case None =>
    case Some(op) => StripReports(Apply(e.book, op).fills, e.matchNumber, tsc);
  }

  lemma NextPlus(n: nat, k: nat)
    ensures (Next(n) + k) % TWO64 == (n + 1 + k) % TWO64
  {
  }

  lemma {:induction false} ReportsLength(fills: seq<Fill>, number: nat, tsc: nat)
    ensures |FillReports(fills, number, tsc)| == 2 * |fills|
  {
    if fills != [] { ReportsLength(fills[1..], Next(number), tsc); }
  }

  /** Report 2k and 2k+1 are the two sides of fill k, under the k-th number from the first. */
  lemma {:induction false} ReportsAt(fills: seq<Fill>, number: nat, tsc: nat, k: nat)
    requires k < |fills| && number < TWO64
    ensures |FillReports(fills, number, tsc)| == 2 * |fills|
    ensures FillReports(fills, number, tsc)[2 * k..2 * k + 2] == Reports(fills[k], (number + k) % TWO64, tsc)
    ensures var f, n := fills[k], (number + k) % TWO64;
            && FillReports(fills, number, tsc)[2 * k] ==
               Outbound(OrderExecuted, 0, f.bidClient, f.bidId, f.price, f.quantity, n, tsc)
            && FillReports(fills, number, tsc)[2 * k + 1] ==
               Outbound(OrderExecuted, 0, f.askClient, f.askId, f.price, f.quantity, n, tsc)
  {
    TwoReports(fills[k], (number + k) % TWO64, tsc);
    ReportsLength(fills, number, tsc);
    ReportsFirst(fills, number, tsc);
    hide FillReports, Reports, Next;
    var first, rest := Reports(fills[0], number, tsc), FillReports(fills[1..], Next(number), tsc);
    if k == 0 {
      SmallNumber(number);
    } else {
      NextPlus(number, k - 1);
      NextBound(number);
      ReportsAt(fills[1..], Next(number), tsc, k - 1);
      PairAt(first, rest, k);
    }
  }

  lemma TwoReports(f: Fill, n: nat, tsc: nat)
    ensures Reports(f, n, tsc) == [Outbound(OrderExecuted, 0, f.bidClient, f.bidId, f.price, f.quantity, n, tsc),
                                   Outbound(OrderExecuted, 0, f.askClient, f.askId, f.price, f.quantity, n, tsc)]
  {
  }

  lemma ReportsFirst(fills: seq<Fill>, number: nat, tsc: nat)
    requires fills != []
    ensures FillReports(fills, number, tsc) ==
            Reports(fills[0], number, tsc) + FillReports(fills[1..], Next(number), tsc)
    ensures |Reports(fills[0], number, tsc)| == 2
  {
  }

  lemma SmallNumber(n: nat)
    ensures n < TWO64 ==> n % TWO64 == n
  {
  }

  lemma NextBound(n: nat)
    ensures Next(n) < TWO64
  {
  }

  lemma PairAt(first: seq<Outbound>, rest: seq<Outbound>, k: nat)
    requires |first| == 2 && 0 < k && 2 * k <= |rest|
    ensures (first + rest)[2 * k..2 * k + 2] == rest[2 * (k - 1)..2 * (k - 1) + 2]
  {
  }

  /** An accepted new or modified order emits one accept, then one buy/sell pair per fill of this very call,
      consecutively numbered from the engine's match number. */
  lemma AcceptedEmits(e: Engine, msg: Inbound, tsc: nat, k: nat)
    requires e.matchNumber < TWO64 && (msg.kind == NewOrder || msg.kind == ModifyOrder)
    requires Apply(e.book, ToOp(e, msg).value).ok
    ensures var fills := Apply(e.book, ToOp(e, msg).value).fills; var out := Emits(e, msg, tsc);
            && |out| == 1 + 2 * |fills| && out[0] == Accept(msg.client, ReplyId(e, msg), tsc)
            && out[0].kind == OrderAccepted && out[0].client == msg.client
            && out[0].orderId == (if msg.kind == NewOrder then e.nextId else msg.orderId)
            && (k < |fills| ==> out[1 + 2 * k..3 + 2 * k] == Reports(fills[k], (e.matchNumber + k) % TWO64, tsc))
  {
    hide Apply, FillReports, Reports;
    var fills := Apply(e.book, ToOp(e, msg).value).fills;
    ReportsLength(fills, e.matchNumber, tsc);
    var first, reports := [Accept(msg.client, ReplyId(e, msg), tsc)], FillReports(fills, e.matchNumber, tsc);
    assert Emits(e, msg, tsc) == first + reports;
    hide Emits;
    if k < |fills| {
      ReportsAt(fills, e.matchNumber, tsc, k);
      AfterFirst(first, reports, 2 * k);
    }
  }

  lemma AfterFirst(first: seq<Outbound>, rest: seq<Outbound>, k: nat)
    requires |first| == 1 && k + 2 <= |rest|
    ensures (first + rest)[1 + k..3 + k] == rest[k..k + 2]
  {
  }

  /** A message that makes the call `op`, once what the call does is known. */
  lemma CallReply(e: Engine, msg: Inbound, op: Op, tsc: nat)
    requires ToOp(e, msg) == Some(op)
    ensures var out := Apply(e.book, op);
            && Process(e, msg) == Engine(out.book, if msg.kind == NewOrder then Next(e.nextId) else e.nextId,
                                         (e.matchNumber + |out.fills|) % TWO64)
            && Emits(e, msg, tsc) == if !out.ok then [Reject(msg.client, ReplyId(e, msg), RejectReason(msg.kind), tsc)]
                                     else if msg.kind == CancelOrder then [Canceled(msg.client, msg.orderId, tsc)]
                                     else [Accept(msg.client, ReplyId(e, msg), tsc)]
                                          + FillReports(out.fills, e.matchNumber, tsc)
  {
    hide Apply, FillReports;
  }

  // ----- Whole message sequences -----

  lemma {:induction false} AfterAppend(b: Book, xs: seq<Op>, ys: seq<Op>)
    ensures After(b, xs + ys) == After(After(b, xs), ys)
    ensures RunFills(b, xs + ys) == RunFills(b, xs) + RunFills(After(b, xs), ys)
    decreases |xs|
  {
    hide Apply;
    if xs == [] {
      assert xs + ys == ys;
    } else {
      assert (xs + ys)[1..] == xs[1..] + ys;
      AfterAppend(Apply(b, xs[0]).book, xs[1..], ys);
    }
  }

  /** One message, as a call or as nothing. */
  lemma OneMessage(e: Engine, msgs: seq<Inbound>)
    requires msgs != []
    ensures var e' := Process(e, msgs[0]); var rest := Calls(e', msgs[1..]);
            match ToOp(e, msgs[0])
            case None => e' == e && Calls(e, msgs) == rest
            case Some(op) =>
              && e'.book == Apply(e.book, op).book
              && e'.matchNumber == (e.matchNumber + |Apply(e.book, op).fills|) % TWO64
              && After(e.book, Calls(e, msgs)) == After(e'.book, rest)
              && RunFills(e.book, Calls(e, msgs)) == Apply(e.book, op).fills + RunFills(e'.book, rest)
  {
    hide Apply;
    var rest := Calls(Process(e, msgs[0]), msgs[1..]);
    if ToOp(e, msgs[0]).None? {
      assert [] + rest == rest;
    } else {
      assert ([ToOp(e, msgs[0]).value] + rest)[1..] == rest;
    }
  }

  /** The book is that of the calls; the match number has advanced once per fill. */
  lemma {:induction false} EngineRunsBook(e: Engine, msgs: seq<Inbound>)
    requires e.matchNumber < TWO64
    ensures EngineAfter(e, msgs).book == After(e.book, Calls(e, msgs))
    ensures EngineAfter(e, msgs).matchNumber == (e.matchNumber + |RunFills(e.book, Calls(e, msgs))|) % TWO64
    decreases |msgs|
  {
    hide Apply, Process, ToOp, Calls;
    if msgs != [] {
      OneMessage(e, msgs);
      EngineRunsBook(Process(e, msgs[0]), msgs[1..]);
    } else {
      CallsOfNothing(e);
    }
  }

  lemma CallsOfNothing(e: Engine)
    ensures Calls(e, []) == [] && Log(e, []) == [] && Executions([]) == []
            && FillReports(RunFills(e.book, []), e.matchNumber, 0) == []
  {
  }

  lemma IgnoredEmitsNothing(e: Engine, msg: Inbound)
    ensures ToOp(e, msg).None? ==> Emits(e, msg, 0) == [] && Executions([]) == []
  {
  }

  lemma {:induction false} ExecutionsAppend(a: seq<Outbound>, b: seq<Outbound>)
    ensures Executions(a + b) == Executions(a) + Executions(b)
  {
    if a == [] {
      assert a + b == b;
    } else {
      assert (a + b)[1..] == a[1..] + b;
      ExecutionsAppend(a[1..], b);
    }
  }

  lemma {:induction false} ExecutionsOfReports(fills: seq<Fill>, number: nat, tsc: nat)
    ensures Executions(FillReports(fills, number, tsc)) == FillReports(fills, number, tsc)
  {
    if fills != [] {
      ExecutionsOfReports(fills[1..], Next(number), tsc);
      var r := Reports(fills[0], number, tsc);
      ExecutionsAppend(r, FillReports(fills[1..], Next(number), tsc));
      assert r[1..] == [r[1]] && r[1..][1..] == [];
    }
  }

  lemma {:induction false} ReportsAppend(a: seq<Fill>, b: seq<Fill>, number: nat)
    requires number < TWO64
    ensures FillReports(a + b, number, 0) == FillReports(a, number, 0) + FillReports(b, (number + |a|) % TWO64, 0)
  {
    hide FillReports, Next, Reports;
    if a == [] {
      assert a + b == b;
      SmallNumber(number);
      NoReports(number);
    } else {
      assert (a + b)[1..] == a[1..] + b && (a + b)[0] == a[0];
      NextPlus(number, |a| - 1);
      NextBound(number);
      ReportsFirst(a + b, number, 0);
      ReportsFirst(a, number, 0);
      ReportsAppend(a[1..], b, Next(number));
    }
  }

  lemma NoReports(number: nat)
    ensures FillReports([], number, 0) == []
  {
  }

  lemma ExecutionsOfOne(e: Engine, msg: Inbound)
    requires ToOp(e, msg).Some?
    ensures Executions(Emits(e, msg, 0)) == FillReports(Apply(e.book, ToOp(e, msg).value).fills, e.matchNumber, 0)
  {
    var out := Apply(e.book, ToOp(e, msg).value);
    ExecutionsOfReports(out.fills, e.matchNumber, 0);
    RejectedHasNoFills(e.book, ToOp(e, msg).value);
    hide Apply;
    var first := [Accept(msg.client, ReplyId(e, msg), 0)];
    ExecutionsAppend(first, FillReports(out.fills, e.matchNumber, 0));
    assert first[1..] == [];
  }

  lemma RejectedHasNoFills(b: Book, op: Op)
    ensures !Apply(b, op).ok || op.CancelOp? ==> Apply(b, op).fills == []
  {
  }

  /** Over any message sequence the execution reports are exactly the fills of the run, each once, in order, numbered
      consecutively from the starting match number. */
  lemma {:induction false} ReportsAreFills(e: Engine, msgs: seq<Inbound>)
    requires e.matchNumber < TWO64
    ensures Executions(Log(e, msgs)) == FillReports(RunFills(e.book, Calls(e, msgs)), e.matchNumber, 0)
    decreases |msgs|
  {
    hide Apply, Process, ToOp, Calls, FillReports, Executions, Emits, RunFills;
    if msgs == [] {
      CallsOfNothing(e);
    } else {
      var e', rest := Process(e, msgs[0]), msgs[1..];
      OneMessage(e, msgs);
      ReportsAreFills(e', rest);
      ExecutionsAppend(Emits(e, msgs[0], 0), Log(e', rest));
      IgnoredEmitsNothing(e, msgs[0]);
      if ToOp(e, msgs[0]).Some? {
        ExecutionsOfOne(e, msgs[0]);
        ReportsAppend(Apply(e.book, ToOp(e, msgs[0]).value).fills, RunFills(e'.book, Calls(e', rest)), e.matchNumber);
      }
    }
  }

  lemma {:induction false} EngineSnoc(e: Engine, msgs: seq<Inbound>, msg: Inbound)
    ensures EngineAfter(e, msgs + [msg]) == Process(EngineAfter(e, msgs), msg)
    ensures Log(e, msgs + [msg]) == Log(e, msgs) + Emits(EngineAfter(e, msgs), msg, 0)
    decreases |msgs|
  {
    hide Process, Emits;
    if msgs == [] {
      assert msgs + [msg] == [msg] && [msg][1..] == [];
    } else {
      assert (msgs + [msg])[1..] == msgs[1..] + [msg];
      EngineSnoc(Process(e, msgs[0]), msgs[1..], msg);
    }
  }

  lemma StripAppend(a: seq<Outbound>, b: seq<Outbound>)
    ensures Strip(a + b) == Strip(a) + Strip(b)
  {
  }

  // ----- Ids -----

  function NewOrders(msgs: seq<Inbound>): nat {
    if msgs == [] then 0 else (if msgs[0].kind == NewOrder then 1 else 0) + NewOrders(msgs[1..])
  }

  /** Each new order takes the next id of a 64-bit counter. */
  lemma {:induction false} IdsIncrease(e: Engine, msgs: seq<Inbound>)
    requires e.nextId < TWO64
    ensures EngineAfter(e, msgs).nextId == (e.nextId + NewOrders(msgs)) % TWO64
    ensures e.nextId + NewOrders(msgs) < TWO64 ==> EngineAfter(e, msgs).nextId == e.nextId + NewOrders(msgs)
    decreases |msgs|
  {
    hide Apply, Process;
    SmallNumber(e.nextId + NewOrders(msgs));
    if msgs != [] {
      NextIs(e, msgs[0]);
      NextBound(e.nextId);
      NextPlus(e.nextId, NewOrders(msgs[1..]));
      IdsIncrease(Process(e, msgs[0]), msgs[1..]);
    }
  }

  lemma NextIs(e: Engine, msg: Inbound)
    ensures Process(e, msg).nextId == if msg.kind == NewOrder then Next(e.nextId) else e.nextId
  {
    hide Apply;
  }

  /** For every message sequence from the start: the next id counts the new orders and the match number the fills, both
      from one and modulo 2^64; the book is a reachable book; and the reports are the fills. */
  lemma EngineInvariant(capacity: nat, msgs: seq<Inbound>)
    ensures var e := EngineAfter(InitialEngine(capacity), msgs);
            var fills := RunFills(InitialBook(capacity), Calls(InitialEngine(capacity), msgs));
            && e.nextId == (1 + NewOrders(msgs)) % TWO64 && e.matchNumber == (1 + |fills|) % TWO64
            && BookOk(e.book, capacity)
            && Executions(Log(InitialEngine(capacity), msgs)) == FillReports(fills, 1, 0)
  {
    var e := InitialEngine(capacity);
    IdsIncrease(e, msgs);
    EngineRunsBook(e, msgs);
    ReportsAreFills(e, msgs);
    ReachableOk(capacity, Calls(e, msgs));
  }
}
