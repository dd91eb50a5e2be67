/** New books, engines and rings put to use: what the contracts of the parts give a program that creates them. */
module Exchange {
  import opened Types
  import opened BookSpec
  import opened BookView
  import opened Aggregates
  import opened EngineSpec
  import opened RingSteps
  import opened Bytes
  import G = Gateway
  import O = OrderBook
  import E = MatchingEngine
  import R = SpscRing

  /** A new book, given any calls: the best prices are right, nothing crosses, and every order is accounted for. */
  method TradeOnNewBook(capacity: nat, ops: seq<Op>, ts: seq<nat>) returns (bbo: bool, active: int, bid: nat, ask: nat)
    requires capacity < TWO32 && |ts| == |ops| && forall i :: 0 <= i < |ops| ==> Sized(ops[i])
    ensures var b := After(InitialBook(capacity), ops); bbo && bid < ask && active == |b.bids| + |b.asks|
  {
    hide O.OrderBook.Valid;
    hide O.OrderBook.Abstract;
    hide After, Sized, InitialBook;
    var book := new O.OrderBook(capacity);
    bbo, active := Session(book, capacity, ops, ts);
    bid, ask := book.bestBid, book.bestAsk;
  }

  /** A new book, given calls whose live ids are distinct modulo 2^20, quotes and fills as the plain two-queue book. */
  method TradeAsIdeal(capacity: nat, ops: seq<Op>, ts: seq<nat>)
    returns (oks: seq<bool>, fills: seq<Fill>, bid: nat, ask: nat)
    requires capacity < TWO32 && |ts| == |ops| && forall i :: 0 <= i < |ops| ==> Sized(ops[i])
    requires I.DistinctIds(I.Ideal([], [], capacity), ops)
    ensures |oks| == |ops| && forall i :: 0 <= i < |ops| ==> oks[i] == I.IdealRun(I.Ideal([], [], capacity), ops)[i].ok
    ensures fills == I.IdealFills(I.Ideal([], [], capacity), ops)
    ensures var ideal := I.IdealAfter(I.Ideal([], [], capacity), ops);
            bid == BestPrice(Buy, ideal.bids) && ask == BestPrice(Sell, ideal.asks)
  {
    hide O.OrderBook.Valid;
    hide O.OrderBook.Abstract;
    hide Sized, InitialBook, BestPrice, I.DistinctIds, I.IdealRun, I.IdealFills, I.IdealAfter;
    var book := new O.OrderBook(capacity);
    oks := Refines(book, capacity, ops, ts);
    fills, bid, ask := book.fills, book.bestBid, book.bestAsk;
  }

  /** A new book, given calls each within its condition, reports at every price the quantity that rests there. */
  method QuantityAt(capacity: nat, ops: seq<Op>, ts: seq<nat>, side: Side, price: nat) returns (qty: nat)
    requires capacity < TWO32 && |ts| == |ops| && forall i :: 0 <= i < |ops| ==> Sized(ops[i])
    requires RunKeepsExact(InitialBook(capacity), ops) && MIN_PRICE <= price <= MAX_PRICE
    ensures qty == QtyAt(After(InitialBook(capacity), ops).Queue(side), price) % TWO32
  {
    var book := new O.OrderBook(capacity);
    qty := TotalAfter(book, capacity, ops, ts, side, price);
  }

  method TotalAfter(book: O.OrderBook, capacity: nat, ops: seq<Op>, ts: seq<nat>, side: Side, price: nat)
    returns (qty: nat)
    requires book.Valid() && book.Abstract() == InitialBook(capacity) && book.exact
    requires |ts| == |ops| && forall i :: 0 <= i < |ops| ==> Sized(ops[i])
    requires RunKeepsExact(InitialBook(capacity), ops) && MIN_PRICE <= price <= MAX_PRICE
    modifies book.Repr()
    ensures qty == QtyAt(After(InitialBook(capacity), ops).Queue(side), price) % TWO32
  {
    hide O.OrderBook.Valid;
    hide O.OrderBook.Abstract;
    hide Sized, InitialBook, RunKeepsExact, After, QtyAt;
    Totals(book, capacity, ops, ts);
    LevelPrices(book, side, price);
    qty := book.LevelsOf(side)[price - MIN_PRICE].total;
  }

  /** Messages that fit are all taken, in order. */
  method Offer(ring: R.SpscRing<Inbound>, msgs: seq<Inbound>)
    requires ring.Valid() && Initial(ring.model) && |msgs| <= ring.buffer.Length
    modifies ring, ring.buffer
    ensures ring.Valid() && ring.model.pushed == msgs && ring.model.popped == []
  {
    hide R.SpscRing.Valid;
    hide Runs;
    for k := 0 to |msgs|
      invariant ring.Valid() && ring.model.pushed == msgs[..k] && ring.model.popped == []
    {
      var ok, _ := ring.Push(msgs[k]);
      assert msgs[..k + 1] == msgs[..k] + [msgs[k]];
    }
    assert msgs[..|msgs|] == msgs;
  }

  /** An engine that polls often enough processes everything in the ring. */
  method Serve(engine: E.MatchingEngine, ring: R.SpscRing<Inbound>, msgs: seq<Inbound>, clock: seq<nat>)
    returns (log: seq<Outbound>)
    requires engine.Valid() && engine.emitted == [] && ring.Valid() && ring.model.popped == []
             && ring.model.pushed == msgs
    requires |msgs| < TWO64 && |msgs| <= |clock| && forall msg :: msg in msgs ==> msg.quantity < TWO32
    modifies engine, engine.book.Repr(), ring
    ensures Strip(log) == Log(old(engine.Abstract()), msgs)
  {
    hide R.SpscRing.Valid;
    hide E.MatchingEngine.Valid;
    hide E.MatchingEngine.Abstract;
    hide Log, EngineAfter, Strip;
    var done := engine.Run(ring, clock);
    WholeDone(done, msgs);
    log := engine.emitted;
  }

  /** A new engine on a new book behind a new ring: the messages that fit in the ring, once the engine has polled often
      enough, give exactly the specified log. */
  method ServeMessages(capacity: nat, size: nat, msgs: seq<Inbound>, clock: seq<nat>) returns (log: seq<Outbound>)
    requires capacity < TWO32 && IsCapacity(size) && |msgs| <= size && |msgs| <= |clock|
    requires forall msg :: msg in msgs ==> msg.quantity < TWO32
    ensures Strip(log) == Log(InitialEngine(capacity), msgs)
  {
    hide O.OrderBook.Valid;
    hide O.OrderBook.Abstract;
    hide R.SpscRing.Valid;
    hide E.MatchingEngine.Valid;
    hide E.MatchingEngine.Abstract;
    hide Runs, Log, InitialBook, InitialEngine, Strip;
    var ring := new R.SpscRing<Inbound>(size);
    Offer(ring, msgs);
    var book := new O.OrderBook(capacity);
    var engine := new E.MatchingEngine(book, capacity);
    log := Serve(engine, ring, msgs, clock);
  }

  // ----- From a client's bytes to the log -----

  /** The ring message of an offer, on which the enumerations hold declared values. */
  function ToInbound(o: G.Offer, tsc: nat): Inbound
    requires Declared(o)
  {
    var kind := match o.kind
                case 1 => NewOrder
                case 2 => CancelOrder
                case 3 => ModifyOrder
                case 10 => OrderAccepted
                case 11 => OrderCanceled
                case 12 => OrderExecuted
                case _ => OrderRejected;
    Inbound(kind, if o.side == 0 then Buy else Sell, if o.orderType == 0 then Limit else Market, o.client, o.orderId,
            o.price, o.quantity, tsc)
  }

  predicate Declared(o: G.Offer) {
    (1 <= o.kind <= 3 || 10 <= o.kind <= 13) && o.side <= 1 && o.orderType <= 1
  }

  /** The message says what the client wrote. */
  predicate Conveys(msg: Inbound, w: G.WireMessage, tsc: nat) {
    && (msg.kind == NewOrder <==> w.kind == 1) && (msg.kind == CancelOrder <==> w.kind == 2)
    && (msg.kind == ModifyOrder <==> w.kind == 3)
    && (msg.side == Buy <==> w.side == 0) && (msg.side == Sell <==> w.side == 1)
    && (msg.orderType == Limit <==> w.orderType == 0) && (msg.orderType == Market <==> w.orderType == 1)
    && msg.client == w.client && msg.orderId == w.orderId && msg.price == w.price && msg.quantity == w.quantity
    && msg.recvTsc == tsc
  }

  lemma InboundConveys(o: G.Offer, w: G.WireMessage, tsc: nat)
    requires Declared(o) && G.Copies(o, w)
    ensures Conveys(ToInbound(o, tsc), w, tsc)
  {
  }

  function Inbounds(offers: seq<G.Offer>, stamps: seq<nat>): (r: seq<Inbound>)
    requires |offers| <= |stamps| && forall i :: 0 <= i < |offers| ==> Declared(offers[i])
    ensures |r| == |offers| && forall i :: 0 <= i < |offers| ==> r[i] == ToInbound(offers[i], stamps[i])
  {
    if offers == [] then [] else [ToInbound(offers[0], stamps[0])] + Inbounds(offers[1..], stamps[1..])
  }

  /** End to end: the messages a client writes, however the network cuts them up, reach the engine in order, each saying
      what the client wrote, and its log is the one specified for them. */
  method ServeClient(capacity: nat, size: nat, turns: seq<seq<G.Arrival>>, stamps: seq<nat>, clock: seq<nat>,
                     ghost ws: seq<G.WireMessage>, ghost partial: seq<byte>)
    returns (log: seq<Outbound>, ghost msgs: seq<Inbound>)
    requires capacity < TWO32 && IsCapacity(size) && |ws| <= size && |ws| <= |clock| && |ws| <= |stamps|
    requires forall w :: w in ws ==> G.Fits(w)
    requires forall w :: w in ws ==> (1 <= w.kind <= 3 || 10 <= w.kind <= 13) && w.side <= 1 && w.orderType <= 1
    requires forall i :: 0 <= i < |turns| - 1 ==> !G.Drops(turns[i])
    requires G.AllTaken(turns) == G.EncodeAll(ws) + partial && |partial| < G.WIRE_MSG_SIZE
    ensures |msgs| == |ws| && forall i :: 0 <= i < |ws| ==> Conveys(msgs[i], ws[i], stamps[i])
    ensures Strip(log) == Log(InitialEngine(capacity), msgs)
  {
    hide Log, Strip, InitialEngine, ToInbound, Conveys, G.EncodeAll, G.AllTaken, G.Drops, IsCapacity;
    hide G.ClientState.Valid;
    var c := new G.ClientState();
    var offers := G.Connection(c, turns, ws, partial);
    forall i | 0 <= i < |offers| ensures Declared(offers[i]) && offers[i].quantity < TWO32 { assert ws[i] in ws; }
    QuantitiesFit(offers, stamps);
    var inbound := Inbounds(offers, stamps);
    msgs := inbound;
    forall i | 0 <= i < |ws| ensures Conveys(msgs[i], ws[i], stamps[i]) { InboundConveys(offers[i], ws[i], stamps[i]); }
    log := ServeMessages(capacity, size, inbound, clock);
  }

  lemma QuantitiesFit(offers: seq<G.Offer>, stamps: seq<nat>)
    requires |offers| <= |stamps| && forall i :: 0 <= i < |offers| ==> Declared(offers[i]) && offers[i].quantity < TWO32
    ensures forall msg :: msg in Inbounds(offers, stamps) ==> msg.quantity < TWO32
  {
    hide Declared;
    var r := Inbounds(offers, stamps);
    forall msg | msg in r ensures msg.quantity < TWO32 {
      var i :| 0 <= i < |r| && r[i] == msg;
      assert r[i] == ToInbound(offers[i], stamps[i]);
    }
  }

  lemma WholeDone(done: seq<Inbound>, msgs: seq<Inbound>)
    ensures [] + done <= msgs && |done| == |msgs| ==> done == msgs
    ensures Strip([]) == [] && forall l: seq<Outbound> :: [] + l == l
  {
    assert [] + done == done;
  }
}
