/** The matching engine: ids, match numbers and replies around the book. Ring pushes are recorded as emitted. */
module MatchingEngine {
  import opened Types
  import opened BookSpec
  import opened BookState
  import opened EngineSpec
  import OB = OrderBook
  import V = BookView
  import R = SpscRing

  class MatchingEngine {
    const book: OB.OrderBook
    var nextId: nat
    var matchNumber: nat
    var emitted: seq<Outbound>

    ghost predicate Valid()
      reads this, book.Repr()
    {
      && this !in book.Repr() && book.Valid()
      && nextId < TWO64 && matchNumber == (1 + book.matchCount) % TWO64
    }

    ghost function Abstract(): Engine
      reads this, book.Repr()
    {
      Engine(book.Abstract(), nextId, matchNumber)
    }

    constructor (b: OB.OrderBook, capacity: nat)
      requires b.Valid() && b.Abstract() == InitialBook(capacity) && b.matchCount == 0
      ensures Valid() && book == b && Abstract() == InitialEngine(capacity) && emitted == []
    {
      hide OB.OrderBook.Valid;
      hide OB.OrderBook.Abstract;
      book := b;
      nextId, matchNumber, emitted := 1, 1, [];
    }

    method Emit(m: Outbound)
      modifies `emitted
      ensures emitted == old(emitted) + [m]
    {
      emitted := emitted + [m];
    }

    /** `emit_fills`: two reports per fill, one match number each. */
    method EmitFills(tsc: nat)
      requires matchNumber < TWO64
      modifies `emitted, `matchNumber
      ensures emitted == old(emitted) + FillReports(book.fills, old(matchNumber), tsc)
      ensures matchNumber == (old(matchNumber) + |book.fills|) % TWO64
    {
      hide FillReports, Reports, Next;
      ghost var before, number := emitted, matchNumber;
      var fills := book.fills;
      var i := 0;
      ReportsEnd(fills, matchNumber, tsc);
      assert fills[0..] == fills;
      while i < |fills|
        invariant 0 <= i <= |fills| && matchNumber < TWO64 && book.fills == fills
        invariant before + FillReports(fills, number, tsc) == emitted + FillReports(fills[i..], matchNumber, tsc)
        invariant (matchNumber + (|fills| - i)) % TWO64 == (number + |fills|) % TWO64
      {
        var f, n := fills[i], matchNumber;
        ghost var log := emitted;
        ReportsStep(fills, i, n, tsc);
        NextPlus(n, |fills| - i - 1);
        matchNumber := Next(n);
        Emit(Outbound(OrderExecuted, 0, f.bidClient, f.bidId, f.price, f.quantity, n, tsc));
        Emit(Outbound(OrderExecuted, 0, f.askClient, f.askId, f.price, f.quantity, n, tsc));
        assert emitted == log + Reports(f, n, tsc) by { ReportsPair(f, n, tsc, log); }
        i := i + 1;
      }
      ReportsEnd(fills, matchNumber, tsc);
      assert fills[i..] == [];
    }

    /** The reply to a call on the book that was made after clearing the fills. */
    method Reply(ok: bool, client: nat, id: nat, reason: nat, tsc: nat)
      requires matchNumber < TWO64 && (!ok ==> book.fills == []) && this !in book.Repr() && book.Valid()
      modifies `emitted, `matchNumber
      ensures emitted == old(emitted)
                         + (if ok then [Accept(client, id, tsc)] + FillReports(book.fills, old(matchNumber), tsc)
                            else [Reject(client, id, reason, tsc)])
      ensures var first := emitted[|old(emitted)|];
              && first.client == client && first.orderId == id && first.tsc == tsc
              && (ok ==> first.kind == OrderAccepted)
              && (!ok ==> first.kind == OrderRejected && first.rejectReason == reason)
      ensures matchNumber == (old(matchNumber) + |book.fills|) % TWO64
      ensures book.Valid() && book.Abstract() == old(book.Abstract())
    {
      hide OB.OrderBook.Valid;
      hide OB.OrderBook.Abstract;
      hide FillReports;
      if ok {
        Emit(Accept(client, id, tsc));
        EmitFills(tsc);
      } else {
        Emit(Reject(client, id, reason, tsc));
      }
    }

    /** What a call has done to the book, told by the specification: its fills are the only ones listed when the list
        was cleared before it. */
    ghost predicate Called(b: Book, count: nat, op: Op, ok: bool)
      reads book.Repr()
    {
      var out := Apply(b, op);
      && book.Valid() && ok == out.ok && book.Abstract() == out.book
      && (1 + book.matchCount) % TWO64 == ((1 + count) % TWO64 + |out.fills|) % TWO64
      && (!ok || op.CancelOp? ==> out.fills == [])
    }

    /** The book call of a new or modified order, on a cleared list of fills. */
    method CallBook(op: Op, ts: nat) returns (ok: bool)
      requires book.Valid() && V.Sized(op) && !op.CancelOp?
      modifies book.Repr()
      ensures Called(old(book.Abstract()), old(book.matchCount), op, ok)
      ensures book.fills == Apply(old(book.Abstract()), op).fills
    {
      hide Did, Apply, V.Sized;
      hide OB.OrderBook.Valid;
      hide OB.OrderBook.Abstract;
      ghost var b, count, exact := book.Abstract(), book.matchCount, book.exact;
      book.ClearFills();
      ok := V.Call(book, op, ts);
      CallStep(b, op, ok, book.Abstract(), [], book.fills, count, book.matchCount, exact, book.exact);
    }

    method CancelBook(id: nat) returns (ok: bool)
      requires book.Valid()
      modifies book.Repr()
      ensures Called(old(book.Abstract()), old(book.matchCount), CancelOp(id), ok)
    {
      hide Did, Apply;
      hide OB.OrderBook.Valid;
      hide OB.OrderBook.Abstract;
      ghost var b, fills, count, exact := book.Abstract(), book.fills, book.matchCount, book.exact;
      ApplyCancel(b, id);
      ok := book.CancelOrder(id);
      CallStep(b, CancelOp(id), ok, book.Abstract(), fills, book.fills, count, book.matchCount, exact, book.exact);
    }

    method OnNewOrder(msg: Inbound, tsc: nat)
      requires Valid() && msg.quantity < TWO32 && msg.kind == NewOrder
      modifies this, book.Repr()
      ensures Valid() && Abstract() == EngineSpec.Process(old(Abstract()), msg)
      ensures emitted == old(emitted) + Emits(old(Abstract()), msg, tsc)
    {
      hide FillReports, EngineSpec.Process, Emits, Apply;
      hide OB.OrderBook.Valid;
      hide OB.OrderBook.Abstract;
      ghost var e := Abstract();
      var id := nextId;
      nextId := Next(nextId);
      var op := AddOp(id, msg.client, msg.side, msg.orderType, msg.price, msg.quantity);
      CallReply(e, msg, op, tsc);
      var ok := CallBook(op, msg.recvTsc);
      Reply(ok, msg.client, id, 1, tsc);
    }

    method OnCancelOrder(msg: Inbound, tsc: nat)
      requires Valid() && msg.kind == CancelOrder
      modifies this, book.Repr()
      ensures Valid() && Abstract() == EngineSpec.Process(old(Abstract()), msg)
      ensures emitted == old(emitted) + Emits(old(Abstract()), msg, tsc)
    {
      hide FillReports, EngineSpec.Process, Emits, Apply;
      hide OB.OrderBook.Valid;
      hide OB.OrderBook.Abstract;
      ghost var e := Abstract();
      CallReply(e, msg, CancelOp(msg.orderId), tsc);
      var ok := CancelBook(msg.orderId);
      if ok {
        Emit(Canceled(msg.client, msg.orderId, tsc));
      } else {
        Emit(Reject(msg.client, msg.orderId, 2, tsc));
      }
    }

    method OnModifyOrder(msg: Inbound, tsc: nat)
      requires Valid() && msg.quantity < TWO32 && msg.kind == ModifyOrder
      modifies this, book.Repr()
      ensures Valid() && Abstract() == EngineSpec.Process(old(Abstract()), msg)
      ensures emitted == old(emitted) + Emits(old(Abstract()), msg, tsc)
    {
      hide FillReports, EngineSpec.Process, Emits, Apply;
      hide OB.OrderBook.Valid;
      hide OB.OrderBook.Abstract;
      ghost var e := Abstract();
      var op := ModifyOp(msg.orderId, msg.price, msg.quantity);
      CallReply(e, msg, op, tsc);
      var ok := CallBook(op, msg.recvTsc);
      Reply(ok, msg.client, msg.orderId, 3, tsc);
    }

    method Process(msg: Inbound, tsc: nat)
      requires Valid() && msg.quantity < TWO32
      modifies this, book.Repr()
      ensures Valid() && Abstract() == EngineSpec.Process(old(Abstract()), msg)
      ensures emitted == old(emitted) + Emits(old(Abstract()), msg, tsc)
    {
      hide Apply, FillReports;
      hide OB.OrderBook.Valid;
      hide OB.OrderBook.Abstract;
      match msg.kind
      case NewOrder => OnNewOrder(msg, tsc);
      case CancelOrder => OnCancelOrder(msg, tsc);
      case ModifyOrder => OnModifyOrder(msg, tsc);
      case _ =>
    }

    /** One turn of the loop of `run`: pop, and process what the ring yields. */
    method Poll(ring: R.SpscRing<Inbound>, tsc: nat) returns (ghost done: seq<Inbound>)
      requires Valid() && ring.Valid() && forall msg :: msg in ring.model.pushed ==> msg.quantity < TWO32
      modifies this, book.Repr(), ring
      ensures Valid() && ring.Valid() && ring.model.pushed == old(ring.model.pushed)
      ensures ring.model.popped == old(ring.model.popped) + done && ring.model.popped <= ring.model.pushed
      ensures |done| <= 1
      ensures |ring.model.pushed| < TWO64 ==> (done == [] <==> |old(ring.model.popped)| == |ring.model.pushed|)
      ensures Abstract() == EngineAfter(old(Abstract()), done)
      ensures Strip(emitted) == Strip(old(emitted)) + Log(old(Abstract()), done)
    {
      hide OB.OrderBook.Valid;
      hide OB.OrderBook.Abstract;
      hide R.SpscRing.Valid;
      hide EngineSpec.Process, Emits, EngineAfter, Log, Strip, R.Pops;
      ghost var e, log := Abstract(), emitted;
      NothingDone(e);
      done := [];
      ring.Ordered();
      var msg, _ := ring.Pop();
      ring.Ordered();
      if msg.Some? {
        ghost var popped := ring.model.popped;
        assert popped[|popped| - 1] == msg.value && ring.model.pushed[|popped| - 1] == msg.value;
        Process(msg.value, tsc);
        done := [msg.value];
        OneDone(e, msg.value, log, tsc);
      }
    }

    /** The loop of `run`, one turn per reading of the clock until it is told to stop: whatever the ring yields is
        processed in order. */
    method Run(ring: R.SpscRing<Inbound>, clock: seq<nat>) returns (ghost done: seq<Inbound>)
      requires Valid() && ring.Valid() && forall msg :: msg in ring.model.pushed ==> msg.quantity < TWO32
      modifies this, book.Repr(), ring
      ensures Valid() && ring.Valid() && ring.model.pushed == old(ring.model.pushed)
      ensures ring.model.popped == old(ring.model.popped) + done <= ring.model.pushed
      ensures |ring.model.pushed| < TWO64 ==> |done| == Min(|clock|, |ring.model.pushed| - |old(ring.model.popped)|)
      ensures Abstract() == EngineAfter(old(Abstract()), done)
      ensures Strip(emitted) == Strip(old(emitted)) + Log(old(Abstract()), done)
    {
      hide Valid, Abstract;
      hide R.SpscRing.Valid;
      hide EngineAfter, Log, Strip;
      ghost var e, popped, log := Abstract(), ring.model.popped, Strip(emitted);
      done := [];
      NothingDone(e);
      ring.Ordered();
      for k := 0 to |clock|
        invariant Valid() && ring.Valid() && ring.model.pushed == old(ring.model.pushed)
        invariant ring.model.popped == popped + done && ring.model.popped <= ring.model.pushed
        invariant |ring.model.pushed| < TWO64 ==> |done| == Min(k, |ring.model.pushed| - |popped|)
        invariant Abstract() == EngineAfter(e, done) && Strip(emitted) == log + Log(e, done)
      {
        var more := Poll(ring, clock[k]);
        EngineAppend(e, done, more);
        assert log + Log(e, done) + Log(EngineAfter(e, done), more) == log + Log(e, done + more);
        assert popped + done + more == popped + (done + more);
        done := done + more;
      }
    }
  }

  lemma NothingDone(e: Engine)
    ensures EngineAfter(e, []) == e && Log(e, []) == []
  {
  }

  lemma OneDone(e: Engine, msg: Inbound, log: seq<Outbound>, tsc: nat)
    ensures EngineAfter(e, [msg]) == EngineSpec.Process(e, msg)
    ensures Strip(log + Emits(e, msg, tsc)) == Strip(log) + Log(e, [msg])
  {
    hide EngineSpec.Process, Emits, Strip;
    NothingDone(e);
    EngineSnoc(e, [], msg);
    assert [] + [msg] == [msg];
    StripAppend(log, Emits(e, msg, tsc));
    EmitsButForClock(e, msg, tsc);
  }

  lemma {:induction false} EngineAppend(e: Engine, xs: seq<Inbound>, ys: seq<Inbound>)
    ensures EngineAfter(e, xs + ys) == EngineAfter(EngineAfter(e, xs), ys)
    ensures Log(e, xs + ys) == Log(e, xs) + Log(EngineAfter(e, xs), ys)
    decreases |xs|
  {
    hide EngineSpec.Process, Emits;
    if xs == [] {
      assert xs + ys == ys;
    } else {
      assert (xs + ys)[1..] == xs[1..] + ys;
      EngineAppend(EngineSpec.Process(e, xs[0]), xs[1..], ys);
    }
  }

  lemma ReportsEnd(fills: seq<Fill>, number: nat, tsc: nat)
    ensures FillReports([], number, tsc) == []
  {
  }

  lemma ReportsStep(fills: seq<Fill>, i: nat, n: nat, tsc: nat)
    requires i < |fills|
    ensures FillReports(fills[i..], n, tsc) == Reports(fills[i], n, tsc) + FillReports(fills[i + 1..], Next(n), tsc)
            && Next(n) < TWO64
  {
    assert fills[i..][1..] == fills[i + 1..];
  }

  lemma ReportsPair(f: Fill, n: nat, tsc: nat, log: seq<Outbound>)
    ensures log + [Outbound(OrderExecuted, 0, f.bidClient, f.bidId, f.price, f.quantity, n, tsc)]
                + [Outbound(OrderExecuted, 0, f.askClient, f.askId, f.price, f.quantity, n, tsc)] ==
                  log + Reports(f, n, tsc)
  {
  }

  /** A call on the book advances the match counter by its fills, and fills nothing when it fails. */
  lemma ApplyCancel(b: Book, id: nat)
    ensures Apply(b, CancelOp(id)) == Cancel(b, id)
  {
  }

  lemma CallStep(b: Book, op: Op, ok: bool, b': Book, fills: seq<Fill>, fills': seq<Fill>, count: nat, count': nat,
                 exact: bool, exact': bool)
    requires Did(Apply(b, op), ok, b', fills, fills', count, count', exact, exact')
    ensures var out := Apply(b, op);
            && ok == out.ok && b' == out.book && fills' == fills + out.fills
            && (!ok || op.CancelOp? ==> out.fills == []) && (fills == [] ==> fills' == out.fills)
            && (1 + count') % TWO64 == ((1 + count) % TWO64 + |out.fills|) % TWO64
  {
    RejectedHasNoFills(b, op);
    hide Apply;
  }
}
