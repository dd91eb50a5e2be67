/** The level aggregates: exactly when a call makes a fill of 2^31, the one quantity whose signed negation overflows.
    The condition speaks of the book and the order before the call. */
module Aggregates {
  import opened Types
  import opened BookSpec
  import opened MatchLaws
  import opened BookLaws
  import opened BookState
  import opened CallLaws
  import opened Conservation

  // ----- One match -----

  /** The taker gets to the i-th opposite order: all up to there cross, and those before it do not fill it. */
  predicate Reaches(t: Taker, opp: seq<Resting>, qty: nat, i: nat)
    requires i < |opp|
  {
    SumRem(opp[..i]) < qty && forall j :: 0 <= j <= i ==> Within(t, opp[j].price)
  }

  /** What it then trades there. */
  function TradeAt(opp: seq<Resting>, qty: nat, i: nat): int
    requires i < |opp|
  {
    Min(opp[i].rem, qty - SumRem(opp[..i]))
  }

  /** No opposite order within reach is traded for exactly 2^31. */
  ghost predicate Safe(t: Taker, opp: seq<Resting>, qty: nat) {
    forall i :: 0 <= i < |opp| && Reaches(t, opp, qty, i) ==> TradeAt(opp, qty, i) != TWO31
  }

  /** Past the first order, reach and trades are those of the rest of the queue. */
  lemma ReachesRest(t: Taker, opp: seq<Resting>, qty: nat, i: nat)
    requires 0 < i < |opp| && Within(t, opp[0].price) && opp[0].rem <= qty
    ensures Reaches(t, opp, qty, i) <==> Reaches(t, opp[1..], qty - opp[0].rem, i - 1)
    ensures TradeAt(opp, qty, i) == TradeAt(opp[1..], qty - opp[0].rem, i - 1)
  {
    SumFirst(opp, i);
    var rest := opp[1..];
    assert forall j :: 0 < j <= i ==> opp[j] == rest[j - 1];
    if Reaches(t, rest, qty - opp[0].rem, i - 1) {
      forall j | 0 <= j <= i ensures Within(t, opp[j].price) {
        if j > 0 { assert Within(t, rest[j - 1].price); }
      }
    }
    if Reaches(t, opp, qty, i) {
      forall j | 0 <= j <= i - 1 ensures Within(t, rest[j].price) { assert Within(t, opp[j + 1].price); }
    }
  }

  lemma SafeRest(t: Taker, opp: seq<Resting>, qty: nat)
    requires opp != [] && Within(t, opp[0].price) && 0 < opp[0].rem <= qty
    ensures Safe(t, opp, qty) <==> opp[0].rem != TWO31 && Safe(t, opp[1..], qty - opp[0].rem)
  {
    hide Reaches, TradeAt;
    var rest, left := opp[1..], qty - opp[0].rem;
    FrontReached(t, opp, qty);
    if Safe(t, opp, qty) {
      forall i | 0 <= i < |rest| && Reaches(t, rest, left, i) ensures TradeAt(rest, left, i) != TWO31 {
        ReachesRest(t, opp, qty, i + 1);
      }
    }
    if opp[0].rem != TWO31 && Safe(t, rest, left) {
      forall i | 0 <= i < |opp| && Reaches(t, opp, qty, i) ensures TradeAt(opp, qty, i) != TWO31 {
        if i > 0 { ReachesRest(t, opp, qty, i); }
      }
    }
  }

  lemma FrontReached(t: Taker, opp: seq<Resting>, qty: nat)
    requires opp != []
    ensures Reaches(t, opp, qty, 0) <==> qty > 0 && Within(t, opp[0].price)
    ensures TradeAt(opp, qty, 0) == Min(opp[0].rem, qty)
  {
  }

  /** Behind an order that fills the taker, or one that does not cross, nothing is reached. */
  lemma NotReached(t: Taker, opp: seq<Resting>, qty: nat, i: nat)
    requires 0 < i < |opp| && (qty <= opp[0].rem || !Within(t, opp[0].price))
    ensures !Reaches(t, opp, qty, i)
  {
    SumFirst(opp, i);
  }

  lemma SafeAtFront(t: Taker, opp: seq<Resting>, qty: nat)
    requires opp != [] && (qty <= opp[0].rem || !Within(t, opp[0].price))
    ensures Safe(t, opp, qty) <==> !(qty > 0 && Within(t, opp[0].price) && Min(opp[0].rem, qty) == TWO31)
  {
    hide Reaches, TradeAt;
    FrontReached(t, opp, qty);
    forall i | 0 < i < |opp| ensures !Reaches(t, opp, qty, i) { NotReached(t, opp, qty, i); }
  }

  /** A match makes no fill of 2^31 exactly when it is safe. */
  lemma {:induction false} MatchSafe(t: Taker, opp: seq<Resting>, qty: nat)
    requires AllPositive(opp)
    ensures NoOverflow(Match(t, opp, qty).fills) <==> Safe(t, opp, qty)
    decreases |opp|
  {
    hide Safe, NoOverflow;
    if opp == [] {
      NoFills();
      SafeNothing(t, qty);
    } else if qty < opp[0].rem || !Crosses(t, opp[0].price) {
      CrossesIsWithin(t, opp[0].price);
      NoFills();
      SafeAtFront(t, opp, qty);
      OneFill(MakeFill(t, opp[0], qty), []);
    } else {
      CrossesIsWithin(t, opp[0].price);
      SafeRest(t, opp, qty);
      MatchSafe(t, opp[1..], qty - opp[0].rem);
      OneFill(MakeFill(t, opp[0], opp[0].rem), Match(t, opp[1..], qty - opp[0].rem).fills);
    }
  }

  lemma SafeNothing(t: Taker, qty: nat)
    ensures Safe(t, [], qty)
  {
  }

  lemma NoFills()
    ensures NoOverflow([])
  {
  }

  lemma OneFill(f: Fill, fills: seq<Fill>)
    ensures NoOverflow([f] + fills) <==> f.quantity != TWO31 && NoOverflow(fills)
    ensures [f] + [] == [f]
  {
    assert ([f] + fills)[0] == f;
    assert forall i :: 0 <= i < |fills| ==> ([f] + fills)[i + 1] == fills[i];
  }

  lemma OverflowAppend(a: seq<Fill>, b: seq<Fill>)
    ensures NoOverflow(a + b) <==> NoOverflow(a) && NoOverflow(b)
  {
    assert forall i :: 0 <= i < |a| ==> (a + b)[i] == a[i];
    assert forall i :: 0 <= i < |b| ==> (a + b)[|a| + i] == b[i];
  }

  // ----- One call -----

  /** The condition for a call, on the book it finds. A rejected call and a cancel make no fill. */
  ghost predicate KeepsExact(b: Book, op: Op) {
    match op
    case AddOp(id, client, side, kind, price, qty) =>
      Acceptable(b, kind, price) ==> Safe(TakerOf(id, client, side, kind, price), b.Queue(side.Other()), qty)
    case CancelOp(_) => true
    case ModifyOp(id, price, qty) =>
      Lookup(b, id).Some? && MIN_PRICE <= price <= MAX_PRICE ==>
        var (side, r) := Lookup(b, id).value;
        Safe(TakerOf(id, r.client, side, Limit, price), b.Queue(side.Other()), qty)
  }

  lemma QueuePositive(b: Book, capacity: nat, side: Side)
    requires BookOk(b, capacity)
    ensures AllPositive(b.Queue(side))
  {
  }

  lemma AddSafe(b: Book, capacity: nat, id: nat, client: nat, side: Side, kind: OrderType, price: nat, qty: nat)
    requires BookOk(b, capacity)
    ensures NoOverflow(Add(b, id, client, side, kind, price, qty).fills) <==>
            KeepsExact(b, AddOp(id, client, side, kind, price, qty))
  {
    hide Add, BookOk, Safe, NoOverflow;
    NoFills();
    AddFields(b, id, client, side, kind, price, qty);
    QueuePositive(b, capacity, side.Other());
    MatchSafe(TakerOf(id, client, side, kind, price), b.Queue(side.Other()), qty);
  }

  lemma ModifySafe(b: Book, capacity: nat, id: nat, price: nat, qty: nat)
    requires BookOk(b, capacity)
    ensures NoOverflow(Modify(b, id, price, qty).fills) <==> KeepsExact(b, ModifyOp(id, price, qty))
  {
    hide Add, Cancel, Lookup, BookOk, Safe, NoOverflow;
    NoFills();
    CancelFields(b, id);
    if Lookup(b, id).Some? {
      var (side, r) := Lookup(b, id).value;
      CancelKeeps(b, capacity, id);
      AddSafe(Cancel(b, id).book, capacity, id, r.client, side, Limit, price, qty);
    }
  }

  /** A call keeps every aggregate exact if and only if its condition holds of the book it finds. */
  lemma CallExact(b: Book, capacity: nat, op: Op)
    requires BookOk(b, capacity)
    ensures NoOverflow(Apply(b, op).fills) <==> KeepsExact(b, op)
  {
    hide BookOk, NoOverflow, KeepsExact, Add, Modify;
    match op
    case AddOp(id, client, side, kind, price, qty) => AddSafe(b, capacity, id, client, side, kind, price, qty);
    case CancelOp(id) => CancelExact(b, id);
    case ModifyOp(id, price, qty) => ModifySafe(b, capacity, id, price, qty);
  }

  lemma CancelExact(b: Book, id: nat)
    ensures NoOverflow(Cancel(b, id).fills) && KeepsExact(b, CancelOp(id))
  {
    hide Cancel;
    CancelFields(b, id);
  }

  // ----- Runs -----

  ghost predicate RunKeepsExact(b: Book, ops: seq<Op>)
    decreases |ops|
  {
    ops == [] || (KeepsExact(b, ops[0]) && RunKeepsExact(Apply(b, ops[0]).book, ops[1..]))
  }

  lemma {:induction false} RunExact(b: Book, capacity: nat, ops: seq<Op>)
    requires BookOk(b, capacity)
    ensures NoOverflow(RunFills(b, ops)) <==> RunKeepsExact(b, ops)
    decreases |ops|
  {
    hide BookOk, NoOverflow, KeepsExact, Apply;
    NoFills();
    if ops != [] {
      CallExact(b, capacity, ops[0]);
      ApplyKeeps(b, capacity, ops[0]);
      RunExact(Apply(b, ops[0]).book, capacity, ops[1..]);
      OverflowAppend(Apply(b, ops[0]).fills, RunFills(Apply(b, ops[0]).book, ops[1..]));
    }
  }

  /** Calls whose quantity is below 2^31 meet the condition whatever the book. */
  predicate Small(op: Op) {
    match op
    case AddOp(_, _, _, _, _, qty) => qty < 2_147_483_648
    case CancelOp(_) => true
    case ModifyOp(_, _, qty) => qty < 2_147_483_648
  }

  lemma SmallKeepsExact(b: Book, op: Op)
    requires Small(op)
    ensures KeepsExact(b, op)
  {
    hide Lookup;
    forall t: Taker, opp, qty: nat | qty < TWO31 ensures Safe(t, opp, qty) {}
  }

  lemma {:induction false} SmallRunKeepsExact(b: Book, ops: seq<Op>)
    requires forall i :: 0 <= i < |ops| ==> Small(ops[i])
    ensures RunKeepsExact(b, ops)
    decreases |ops|
  {
    hide KeepsExact, Apply, Small;
    if ops != [] {
      SmallKeepsExact(b, ops[0]);
      SmallRunKeepsExact(Apply(b, ops[0]).book, ops[1..]);
    }
  }

  /** The failing input: two opposite orders of quantity 2^31 at one price trade 2^31. */
  lemma HalfRangeOverflows()
    ensures var ops := [AddOp(1, 0, Sell, Limit, 100, 2_147_483_648), AddOp(2, 0, Buy, Limit, 100, 2_147_483_648)];
            RunFills(InitialBook(2), ops) == [Fill(2, 1, 0, 0, 100, 2_147_483_648)]
              && !RunKeepsExact(InitialBook(2), ops)
  {
    hide Apply, InitialBook, RunFills, RunKeepsExact, NoOverflow, BookOk;
    var op1, op2 := AddOp(1, 0, Sell, Limit, 100, TWO31), AddOp(2, 0, Buy, Limit, 100, TWO31);
    FirstRests();
    SecondTrades(Apply(InitialBook(2), op1).book);
    TwoCalls(InitialBook(2), op1, op2);
    OneFill(Fill(2, 1, 0, 0, 100, TWO31), []);
    InitialOk(2);
    RunExact(InitialBook(2), 2, [op1, op2]);
  }

  lemma FirstRests()
    ensures var out := Apply(InitialBook(2), AddOp(1, 0, Sell, Limit, 100, TWO31));
            out.fills == [] && out.book.asks == [Resting(0, 1, 0, 100, TWO31)] && out.book.free == [1]
  {
    assert InitialFree(2) == [1, 0];
    hide InitialFree, Add;
    AddNoTrade(InitialBook(2), 1, 0, Sell, 100, TWO31);
  }

  lemma SecondTrades(b: Book)
    requires b.asks == [Resting(0, 1, 0, 100, TWO31)] && b.free == [1]
    ensures Apply(b, AddOp(2, 0, Buy, Limit, 100, TWO31)).fills == [Fill(2, 1, 0, 0, 100, TWO31)]
  {
    hide Add;
    var r, t := Resting(0, 1, 0, 100, TWO31), TakerOf(2, 0, Buy, Limit, 100);
    assert Match(t, [r][1..], 0) == Matched([], [], [], 0);
    AddFields(b, 2, 0, Buy, Limit, 100, TWO31);
  }

  lemma TwoCalls(b: Book, op1: Op, op2: Op)
    ensures RunFills(b, [op1, op2]) == Apply(b, op1).fills + Apply(Apply(b, op1).book, op2).fills
  {
    hide Apply;
    assert [op1, op2][1..] == [op2] && [op2][1..] == [];
    var b1 := Apply(b, op1).book;
    assert RunFills(b1, [op2]) == Apply(b1, op2).fills + RunFills(Apply(b1, op2).book, []);
  }
}
