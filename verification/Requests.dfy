/** What a message asks of the engine and what the engine answers, field by field. */
module Requests {
  import opened Types
  import opened BookSpec
  import opened BookLaws
  import opened CallLaws
  import opened CallDetails
  import opened IdealBook
  import opened EngineSpec

  /** A reply to the sender about one order. */
  predicate Replied(m: Outbound, kind: MessageType, reason: nat, client: nat, id: nat, tsc: nat) {
    && m.kind == kind && m.rejectReason == reason && m.client == client && m.orderId == id
    && m.price == 0 && m.quantity == 0 && m.matchNumber == 0 && m.tsc == tsc
  }

  /** An execution report. */
  predicate Executed(m: Outbound, client: nat, id: nat, price: nat, qty: nat, number: nat, tsc: nat) {
    && m.kind == OrderExecuted && m.rejectReason == 0 && m.client == client && m.orderId == id
    && m.price == price && m.quantity == qty && m.matchNumber == number && m.tsc == tsc
  }

  /** Behind the reply stand two reports for each fill, the buyer's and the seller's, under consecutive match
      numbers. */
  ghost predicate Reported(out: seq<Outbound>, fills: seq<Fill>, number: nat, tsc: nat) {
    && |out| == 1 + 2 * |fills|
    && forall k :: 0 <= k < |fills| ==> ReportedAt(out, fills, number, tsc, k)
  }

  ghost predicate ReportedAt(out: seq<Outbound>, fills: seq<Fill>, number: nat, tsc: nat, k: nat)
    requires |out| == 1 + 2 * |fills| && k < |fills|
  {
    var f, n := fills[k], (number + k) % TWO64;
    && Executed(out[1 + 2 * k], f.bidClient, f.bidId, f.price, f.quantity, n, tsc)
    && Executed(out[2 + 2 * k], f.askClient, f.askId, f.price, f.quantity, n, tsc)
  }

  lemma ReportsBehind(first: Outbound, fills: seq<Fill>, number: nat, tsc: nat)
    requires number < TWO64
    ensures Reported([first] + FillReports(fills, number, tsc), fills, number, tsc)
  {
    hide FillReports;
    ReportsLength(fills, number, tsc);
    var reports := FillReports(fills, number, tsc);
    forall k | 0 <= k < |fills| ensures ReportedAt([first] + reports, fills, number, tsc, k) {
      ReportsAt(fills, number, tsc, k);
    }
  }

  /** A new order is accepted exactly while the pool has a cell and a limit price is in range. Then an order of the
      sender, under the next id, on the message's side and with its type, price and quantity is submitted to the book,
      and its fills are reported; otherwise the book stays as it was and the reason is 1. The answer goes to the sender
      either way. */
  lemma NewOrderServed(e: Engine, capacity: nat, msg: Inbound, tsc: nat) returns (fills: seq<Fill>)
    requires BookOk(e.book, capacity) && e.matchNumber < TWO64 && msg.kind == NewOrder
    ensures var b, e', out := e.book, Process(e, msg), Emits(e, msg, tsc);
            && e'.nextId == (e.nextId + 1) % TWO64 && out != []
            && e'.matchNumber == (e.matchNumber + |fills|) % TWO64
            && (if b.free != [] && (msg.orderType == Limit ==> 1 <= msg.price <= 1_000_000) then
                  && Replied(out[0], OrderAccepted, 0, msg.client, e.nextId, tsc)
                  && Reported(out, fills, e.matchNumber, tsc)
                  && (msg.side == Buy ==>
                        Submitted(b.bids, b.asks, e'.book.bids, e'.book.asks, fills, e.nextId, msg.client, Buy,
                                  msg.orderType, msg.price, msg.quantity))
                  && (msg.side == Sell ==>
                        Submitted(b.asks, b.bids, e'.book.asks, e'.book.bids, fills, e.nextId, msg.client, Sell,
                                  msg.orderType, msg.price, msg.quantity))
                else
                  && |out| == 1 && Replied(out[0], OrderRejected, 1, msg.client, e.nextId, tsc)
                  && e'.book == b && fills == [])
  {
    hide Add, BookOk, Submitted, FillReports, Reported;
    AddInDetail(e.book, capacity, e.nextId, msg.client, msg.side, msg.orderType, msg.price, msg.quantity);
    fills := Add(e.book, e.nextId, msg.client, msg.side, msg.orderType, msg.price, msg.quantity).fills;
    ReportsBehind(Accept(msg.client, e.nextId, tsc), fills, e.matchNumber, tsc);
  }

  /** A cancel that is confirmed has taken out exactly the order with the message's id; one that is refused, with reason
      2, has changed nothing; and while the table is complete it is refused only if no resting order has the id. */
  lemma CancelServed(e: Engine, capacity: nat, msg: Inbound, tsc: nat) returns (side: Side, k: nat)
    requires BookOk(e.book, capacity) && e.matchNumber < TWO64 && msg.kind == CancelOrder
    ensures var b, e', out := e.book, Process(e, msg), Emits(e, msg, tsc);
            && e'.nextId == e.nextId && e'.matchNumber == e.matchNumber && |out| == 1
            && (Replied(out[0], OrderCanceled, 0, msg.client, msg.orderId, tsc)
                || Replied(out[0], OrderRejected, 2, msg.client, msg.orderId, tsc))
            && (out[0].kind == OrderCanceled && side == Buy ==>
                  Left(b.bids, e'.book.bids, k, msg.orderId) && e'.book.asks == b.asks)
            && (out[0].kind == OrderCanceled && side == Sell ==>
                  Left(b.asks, e'.book.asks, k, msg.orderId) && e'.book.bids == b.bids)
            && (out[0].kind == OrderRejected ==> e'.book == b)
            && (out[0].kind == OrderRejected && AllRegistered(b) ==>
                  !HasId(b.bids, msg.orderId) && !HasId(b.asks, msg.orderId))
  {
    hide Cancel, BookOk, Left, FillReports, Lookup, AllRegistered, HasId;
    SmallNumber(e.matchNumber);
    side, k := CancelInDetail(e.book, capacity, msg.orderId);
    if AllRegistered(e.book) { LookupById(e.book, capacity, msg.orderId); }
  }

  /** A modify that is accepted has taken out the order with the message's id and submitted it anew, on its side, under
      its id and for its client, at the message's price and quantity, and reports its fills. One that is refused, with
      reason 3, has taken the order out if it was found and changed nothing otherwise. */
  lemma ModifyServed(e: Engine, capacity: nat, msg: Inbound, tsc: nat)
    returns (fills: seq<Fill>, side: Side, k: nat, own: seq<Resting>)
    requires BookOk(e.book, capacity) && e.matchNumber < TWO64 && msg.kind == ModifyOrder
    ensures var b, e', out, id := e.book, Process(e, msg), Emits(e, msg, tsc), msg.orderId;
            && e'.nextId == e.nextId && e'.matchNumber == (e.matchNumber + |fills|) % TWO64 && out != []
            && (if out[0].kind == OrderAccepted then
                  && 1 <= msg.price <= 1_000_000
                  && Replied(out[0], OrderAccepted, 0, msg.client, id, tsc) && Reported(out, fills, e.matchNumber, tsc)
                  && (side == Buy ==>
                        && Left(b.bids, own, k, id)
                        && Submitted(own, b.asks, e'.book.bids, e'.book.asks, fills, id, b.bids[k].client, Buy, Limit,
                                     msg.price, msg.quantity))
                  && (side == Sell ==>
                        && Left(b.asks, own, k, id)
                        && Submitted(own, b.bids, e'.book.asks, e'.book.bids, fills, id, b.asks[k].client, Sell, Limit,
                                     msg.price, msg.quantity))
                else
                  && |out| == 1 && Replied(out[0], OrderRejected, 3, msg.client, id, tsc) && fills == []
                  && (1 <= msg.price <= 1_000_000 ==> e'.book == b)
                  && (1 <= msg.price <= 1_000_000 && AllRegistered(b) ==> !HasId(b.bids, id) && !HasId(b.asks, id))
                  && (e'.book == b
                      || (side == Buy && Left(b.bids, e'.book.bids, k, id) && e'.book.asks == b.asks)
                      || (side == Sell && Left(b.asks, e'.book.asks, k, id) && e'.book.bids == b.bids)))
  {
    hide Modify, BookOk, Submitted, FillReports, Reported, Lookup, AllRegistered, HasId;
    if AllRegistered(e.book) { LookupById(e.book, capacity, msg.orderId); }
    SmallNumber(e.matchNumber);
    side, k, own := ModifyInDetail(e.book, capacity, msg.orderId, msg.price, msg.quantity);
    fills := Modify(e.book, msg.orderId, msg.price, msg.quantity).fills;
    ReportsBehind(Accept(msg.client, msg.orderId, tsc), fills, e.matchNumber, tsc);
  }

  /** Every other message is ignored. */
  lemma OthersIgnored(e: Engine, msg: Inbound, tsc: nat)
    requires msg.kind != NewOrder && msg.kind != CancelOrder && msg.kind != ModifyOrder
    ensures Process(e, msg) == e && Emits(e, msg, tsc) == []
  {
  }
}
