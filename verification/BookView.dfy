/** What a user of the concrete book can see, for every state a run can reach: cached best prices, occupancy, aggregates
    and counts are those of the specified book. */
module BookView {
  import opened Types
  import opened PriceLevel
  import opened BookSpec
  import opened Ladder
  import opened BookState
  import opened BookLaws
  import opened Conservation
  import opened Aggregates
  import OB = OrderBook
  import B = PriceBitset
  import I = IdealBook

  /** The best price of a sorted side, or its sentinel. */
  function BestPrice(side: Side, q: seq<Resting>): nat { if q == [] then Sentinel(side) else q[0].price }

  /** Total remainder and number of orders at a price. */
  function QtyAt(q: seq<Resting>, price: nat): nat {
    if q == [] then 0 else (if q[0].price == price then q[0].rem else 0) + QtyAt(q[1..], price)
  }

  function OrdersAt(q: seq<Resting>, price: nat): nat {
    if q == [] then 0 else (if q[0].price == price then 1 else 0) + OrdersAt(q[1..], price)
  }

  lemma {:induction false} AtAppend(a: seq<Resting>, b: seq<Resting>, price: nat)
    ensures QtyAt(a + b, price) == QtyAt(a, price) + QtyAt(b, price)
    ensures OrdersAt(a + b, price) == OrdersAt(a, price) + OrdersAt(b, price)
  {
    if a == [] {
      assert a + b == b;
    } else {
      assert (a + b)[1..] == a[1..] + b;
      AtAppend(a[1..], b, price);
    }
  }

  lemma {:induction false} AtOnePrice(q: seq<Resting>, p: nat, price: nat)
    requires forall i :: 0 <= i < |q| ==> q[i].price == p
    ensures QtyAt(q, price) == if p == price then SumRem(q) else 0
    ensures OrdersAt(q, price) == if p == price then |q| else 0
  {
    if q != [] { AtOnePrice(q[1..], p, price); }
  }

  lemma AtNothing(price: nat)
    ensures QtyAt([], price) == 0 && OrdersAt([], price) == 0
  {
  }

  /** Counting a side by price is counting its levels. */
  lemma {:induction false} AtLevel(side: Side, q: Levels, k: nat, i: nat)
    requires Placed(q) && k <= |q| && i < |q|
    ensures QtyAt(FlatFrom(side, q, k), i + MIN_PRICE) == if Rank(side, |q|, i) >= k then SumRem(q[i]) else 0
    ensures OrdersAt(FlatFrom(side, q, k), i + MIN_PRICE) == if Rank(side, |q|, i) >= k then |q[i]| else 0
    decreases |q| - k
  {
    hide FlatFrom, QtyAt, OrdersAt, SumRem;
    if k == |q| {
      FlatDone(side, q);
      AtNothing(i + MIN_PRICE);
    } else {
      var head := q[At(side, |q|, k)];
      FlatStep(side, q, k);
      AtLevel(side, q, k + 1, i);
      AtAppend(head, FlatFrom(side, q, k + 1), i + MIN_PRICE);
      AtOnePrice(head, At(side, |q|, k) + MIN_PRICE, i + MIN_PRICE);
    }
  }

  /** A level's count and aggregate, and its occupancy, in terms of the sorted side alone. */
  lemma LevelView(s: State, held: set<nat>, side: Side, i: nat)
    requires Core(s, held) && i < PRICE_LEVELS
    ensures |s.L(side)| == |s.Q(side)| == PRICE_LEVELS
    ensures var q := Flat(side, s.Q(side));
            && s.L(side)[i].count == OrdersAt(q, i + MIN_PRICE)
            && (s.exact ==> s.L(side)[i].total == QtyAt(q, i + MIN_PRICE) % TWO32)
            && (i in Occupied(s.Q(side)) <==> OrdersAt(q, i + MIN_PRICE) > 0)
  {
    SidePlaced(side, s.a, s.L(side), s.Q(side), s.exact);
    AtLevel(side, s.Q(side), 0, i);
    assert LevelOk(side, s.a, s.L(side), s.Q(side), s.exact, i);
  }

  lemma BestView(s: State, held: set<nat>, side: Side, best: nat)
    requires Core(s, held) && BestOk(side, s.Q(side), best)
    ensures best == BestPrice(side, Flat(side, s.Q(side)))
  {
    BestIsFront(s, held, side, best);
  }

  /** Cached best prices are the specified ones, and below each other if the specified book is uncrossed. */
  lemma BestPrices(book: OB.OrderBook)
    requires book.Valid()
    ensures book.bestBid == BestPrice(Buy, book.Abstract().bids)
            && book.bestAsk == BestPrice(Sell, book.Abstract().asks)
    ensures Uncrossed(book.Abstract()) ==> book.bestBid < book.bestAsk
  {
    hide Core, Flat, Positive, BestOk;
    BestView(book.Snap(), {}, Buy, book.bestBid);
    BestView(book.Snap(), {}, Sell, book.bestAsk);
    BestIsFront(book.Snap(), {}, Buy, book.bestBid);
    BestIsFront(book.Snap(), {}, Sell, book.bestAsk);
  }

  /** `bid_qty_at` and `ask_qty_at`: the quantity resting at the price, modulo 2^32, while the aggregates are exact;
      and a bit is set exactly for the prices where orders rest. */
  lemma LevelPrices(book: OB.OrderBook, side: Side, price: nat)
    requires book.Valid() && MIN_PRICE <= price <= MAX_PRICE
    ensures var q := book.Abstract().Queue(side); var i := price - MIN_PRICE;
            && i < book.LevelsOf(side).Length
            && book.LevelsOf(side)[i].count == OrdersAt(q, price)
            && (book.exact ==> book.LevelsOf(side)[i].total == QtyAt(q, price) % TWO32)
            && (i in book.BitsOf(side).Members() <==> OrdersAt(q, price) > 0)
  {
    hide Core, Flat, Positive, BestOk, Occupied, AbstractOf, QtyAt, OrdersAt;
    hide OB.OrderBook.Valid;
    hide OB.OrderBook.Shape;
    hide B.PriceBitset.Valid;
    hide B.PriceBitset.Members;
    book.Disassemble(side);
    QueueIsFlat(book.Snap(), side);
    LevelView(book.Snap(), {}, side, price - MIN_PRICE);
  }

  lemma QueueIsFlat(s: State, side: Side)
    ensures AbstractOf(s).Queue(side) == Flat(side, s.Q(side))
  {
    hide Flat;
  }

  /** Every level of the book can be walked from either end: its orders in arrival order, and their mirror. */
  lemma LevelWalks(book: OB.OrderBook, side: Side, i: nat, extra: nat)
    requires book.Valid() && i < PRICE_LEVELS
    ensures |book.Q(side)| == book.LevelsOf(side).Length == PRICE_LEVELS
    ensures var l, a, hs := book.LevelsOf(side)[i], book.pool.arena[..], Handles(book.Q(side)[i]);
            WalkForward(a, l.head, l.count + extra) == hs && WalkBackward(a, l.tail, l.count + extra) == hs
  {
    hide WalkForward, WalkBackward, ListOk, Handles;
    hide OB.OrderBook.Valid;
    LevelLists(book, side, i);
    WalksMirror(side, i + MIN_PRICE, book.pool.arena[..], book.LevelsOf(side)[i], book.Q(side)[i], book.exact, extra);
  }

  lemma LevelLists(book: OB.OrderBook, side: Side, i: nat)
    requires book.Valid() && i < PRICE_LEVELS
    ensures |book.Q(side)| == book.LevelsOf(side).Length == PRICE_LEVELS
    ensures ListOk(side, i + MIN_PRICE, book.pool.arena[..], book.LevelsOf(side)[i], book.Q(side)[i], book.exact)
  {
    hide Core, ListOk, Positive, BestOk;
    book.SnapQueue(side);
    book.SnapParts();
    CoreSide(book.Snap(), {}, side);
    LevelInfo(book.Snap(), {}, side, i);
  }

  // ----- Whole runs on the concrete book -----

  /** Quantities are 32-bit words. */
  predicate Sized(op: Op) {
    match op
    case AddOp(_, _, _, _, _, qty) => qty < TWO32
    case CancelOp(_) => true
    case ModifyOp(_, _, qty) => qty < TWO32
  }

  method Call(book: OB.OrderBook, op: Op, ts: nat) returns (ok: bool)
    requires book.Valid() && Sized(op)
    modifies book.Repr()
    ensures book.Valid()
    ensures Did(Apply(old(book.Abstract()), op), ok, book.Abstract(), old(book.fills), book.fills,
                old(book.matchCount), book.matchCount, old(book.exact), book.exact)
  {
    hide Did, Core, Positive, AbstractOf, Add, Cancel, Modify;
    match op
    case AddOp(id, client, side, kind, price, qty) => ok := book.AddOrder(id, client, side, kind, price, qty, ts);
    case CancelOp(id) => ok := book.CancelOrder(id);
    case ModifyOp(id, price, qty) => ok := book.ModifyOrder(id, price, qty, ts);
  }

  lemma {:induction false} RunSnoc(b: Book, ops: seq<Op>, op: Op)
    ensures After(b, ops + [op]) == Apply(After(b, ops), op).book
    ensures RunFills(b, ops + [op]) == RunFills(b, ops) + Apply(After(b, ops), op).fills
    ensures Run(b, ops + [op]) == Run(b, ops) + [Apply(After(b, ops), op)]
    decreases |ops|
  {
    hide Apply;
    if ops == [] {
      assert ops + [op] == [op] && [op][1..] == [];
    } else {
      assert (ops + [op])[1..] == ops[1..] + [op];
      RunSnoc(Apply(b, ops[0]).book, ops[1..], op);
    }
  }

  lemma RunNothing(b: Book)
    ensures After(b, []) == b && RunFills(b, []) == [] && Run(b, []) == []
  {
  }

  lemma DidParts(r: Outcome, ok: bool, b': Book, fills: seq<Fill>, fills': seq<Fill>, count: nat, count': nat,
                 exact: bool, exact': bool)
    requires Did(r, ok, b', fills, fills', count, count', exact, exact')
    ensures ok == r.ok && b' == r.book && fills' == fills + r.fills && Counted(count, fills, count', fills')
    ensures exact' == (exact && NoOverflow(r.fills))
  {
  }

  /** Every run of the concrete book refines the specification: same return values, same fills in order, same book. */
  method Replay(book: OB.OrderBook, ops: seq<Op>, ts: seq<nat>) returns (oks: seq<bool>)
    requires book.Valid() && |ts| == |ops| && forall i :: 0 <= i < |ops| ==> Sized(ops[i])
    modifies book.Repr()
    ensures book.Valid() && book.Abstract() == After(old(book.Abstract()), ops)
    ensures |oks| == |ops| && forall i :: 0 <= i < |ops| ==> oks[i] == Run(old(book.Abstract()), ops)[i].ok
    ensures book.fills == old(book.fills) + RunFills(old(book.Abstract()), ops)
    ensures Counted(old(book.matchCount), old(book.fills), book.matchCount, book.fills)
    ensures book.exact == (old(book.exact) && NoOverflow(RunFills(old(book.Abstract()), ops)))
  {
    hide Apply, Counted, Sized, Did, Run, RunFills, After, NoOverflow;
    hide OB.OrderBook.Valid;
    hide OB.OrderBook.Abstract;
    RunNothing(book.Abstract());
    ghost var b, fills0, count0, exact0 := book.Abstract(), book.fills, book.matchCount, book.exact;
    NoFills();
    book.CountFits();
    CountedRefl(count0, fills0);
    oks := [];
    for n := 0 to |ops|
      invariant book.Valid() && book.Abstract() == After(b, ops[..n])
      invariant |oks| == n && forall i :: 0 <= i < n ==> oks[i] == Run(b, ops[..n])[i].ok
      invariant book.fills == fills0 + RunFills(b, ops[..n]) && Counted(count0, fills0, book.matchCount, book.fills)
      invariant book.exact == (exact0 && NoOverflow(RunFills(b, ops[..n])))
    {
      ghost var b1, fills1, count1, exact1 := book.Abstract(), book.fills, book.matchCount, book.exact;
      var ok := Call(book, ops[n], ts[n]);
      DidParts(Apply(b1, ops[n]), ok, book.Abstract(), fills1, book.fills, count1, book.matchCount, exact1, book.exact);
      RunSnoc(b, ops[..n], ops[n]);
      OverflowAppend(RunFills(b, ops[..n]), Apply(b1, ops[n]).fills);
      assert ops[..n + 1] == ops[..n] + [ops[n]];
      CountedTrans(count0, fills0, count1, fills1, book.matchCount, book.fills);
      assert book.fills == fills0 + (RunFills(b, ops[..n]) + Apply(b1, ops[n]).fills);
      oks := oks + [ok];
    }
    assert ops[..|ops|] == ops;
  }

  /** After any run on a new book the scan agrees with the cached best prices, which do not cross, the number of
      allocated orders is the number resting, and no table entry dangles. */
  method Session(book: OB.OrderBook, capacity: nat, ops: seq<Op>, ts: seq<nat>) returns (bbo: bool, active: int)
    requires book.Valid() && book.Abstract() == InitialBook(capacity) && book.pool.arena.Length == capacity
    requires |ts| == |ops| && forall i :: 0 <= i < |ops| ==> Sized(ops[i])
    modifies book.Repr()
    ensures book.Valid() && bbo && book.bestBid < book.bestAsk
    ensures active == |book.Abstract().bids| + |book.Abstract().asks|
    ensures book.Abstract() == After(InitialBook(capacity), ops) && BookOk(book.Abstract(), capacity)
  {
    hide Core, Positive, AbstractOf, Counted, Sized, BookOk, BestOk;
    var _ := Replay(book, ops, ts);
    ReachableOk(capacity, ops);
    bbo := book.ValidateBbo();
    var free := book.pool.Available();
    active := capacity - free;
    BestPrices(book);
    SessionView(book.Abstract(), capacity);
    FreeOf(book.Snap());
  }

  /** Every level's quantity is the sum of the remainders resting at its price, modulo 2^32. */
  ghost predicate TotalsOk(book: OB.OrderBook)
    requires book.Valid()
    reads book.Repr()
  {
    forall side: Side, price :: MIN_PRICE <= price <= MAX_PRICE ==>
      book.LevelsOf(side)[price - MIN_PRICE].total == QtyAt(book.Abstract().Queue(side), price) % TWO32
  }

  /** After a run on a new book in which every call met its condition, as every call with a quantity below 2^31 does,
      all aggregates are exact; and a run in which some call did not has made a fill of 2^31. */
  method Totals(book: OB.OrderBook, capacity: nat, ops: seq<Op>, ts: seq<nat>)
    requires book.Valid() && book.Abstract() == InitialBook(capacity) && book.exact
    requires |ts| == |ops| && forall i :: 0 <= i < |ops| ==> Sized(ops[i])
    modifies book.Repr()
    ensures book.Valid() && book.Abstract() == After(InitialBook(capacity), ops)
    ensures book.exact == RunKeepsExact(InitialBook(capacity), ops)
    ensures RunKeepsExact(InitialBook(capacity), ops) ==> TotalsOk(book)
    ensures (forall i :: 0 <= i < |ops| ==> Small(ops[i])) ==> TotalsOk(book)
  {
    hide OB.OrderBook.Valid;
    hide OB.OrderBook.Abstract;
    hide Counted, Sized, InitialBook, RunKeepsExact, Small, NoOverflow, BookOk, TotalsOk;
    var _ := Replay(book, ops, ts);
    InitialOk(capacity);
    RunExact(InitialBook(capacity), capacity, ops);
    if forall i :: 0 <= i < |ops| ==> Small(ops[i]) { SmallRunKeepsExact(InitialBook(capacity), ops); }
    if book.exact { ExactTotals(book); }
  }

  lemma ExactTotals(book: OB.OrderBook)
    requires book.Valid() && book.exact
    ensures TotalsOk(book)
  {
    hide Core, Positive, BestOk, QtyAt;
    hide OB.OrderBook.Abstract;
    forall side: Side, price | MIN_PRICE <= price <= MAX_PRICE
      ensures book.LevelsOf(side)[price - MIN_PRICE].total == QtyAt(book.Abstract().Queue(side), price) % TWO32
    {
      LevelPrices(book, side, price);
    }
  }

  lemma SessionView(b: Book, capacity: nat)
    requires BookOk(b, capacity)
    ensures Uncrossed(b) && capacity - |b.free| == |b.bids| + |b.asks|
  {
    PoolPartition(b, capacity);
  }

  /** The whole refinement: while live ids are distinct modulo 2^20, the concrete book, from new and over any run,
      returns, fills, holds and quotes exactly what the plain two-queue book does. */
  method Refines(book: OB.OrderBook, capacity: nat, ops: seq<Op>, ts: seq<nat>) returns (oks: seq<bool>)
    requires book.Valid() && book.Abstract() == InitialBook(capacity)
    requires |ts| == |ops| && forall i :: 0 <= i < |ops| ==> Sized(ops[i])
    requires I.DistinctIds(I.Ideal([], [], capacity), ops)
    modifies book.Repr()
    ensures |oks| == |ops| && forall i :: 0 <= i < |ops| ==> oks[i] == I.IdealRun(I.Ideal([], [], capacity), ops)[i].ok
    ensures book.fills == old(book.fills) + I.IdealFills(I.Ideal([], [], capacity), ops)
    ensures var ideal := I.IdealAfter(I.Ideal([], [], capacity), ops);
            && I.Forget(book.Abstract(), capacity) == ideal
            && book.bestBid == BestPrice(Buy, ideal.bids) && book.bestAsk == BestPrice(Sell, ideal.asks)
  {
    hide OB.OrderBook.Valid;
    hide OB.OrderBook.Abstract;
    hide Counted, Sized, Uncrossed, I.DistinctIds, InitialBook;
    I.RunFromEmpty(capacity, ops);
    oks := Replay(book, ops, ts);
    BestPrices(book);
  }
}
