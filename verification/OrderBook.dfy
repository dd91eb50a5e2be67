/** The order book itself: price-indexed lists, occupancy bitsets, id table, order pool and cached best prices. */
module OrderBook {
  import opened Types
  import opened PriceLevel
  import opened BookSpec
  import opened Ladder
  import opened BookState
  import opened Sweep
  import B = PriceBitset
  import P = OrderPool

  class OrderBook {
    const bids: array<PriceLevel>
    const asks: array<PriceLevel>
    const orderTable: array<int>
    const pool: P.OrderPool
    const bidBits: B.PriceBitset
    const askBits: B.PriceBitset
    var bestBid: nat
    var bestAsk: nat
    var scanCalls: nat
    var matchCount: nat
    var fills: seq<Fill>

    /** The queue at every level, the set of resting handles, and whether every aggregate is still exact. */
    ghost var bidQ: Levels
    ghost var askQ: Levels
    ghost var live: set<nat>
    ghost var exact: bool

    ghost function Repr(): set<object> {
      {this, bids, asks, orderTable, pool, pool.arena,
       bidBits.l0, bidBits.l1, bidBits.l2, askBits.l0, askBits.l1, askBits.l2}
    }

    ghost predicate Shape() {
      && bids != asks
      && bidBits.Apart(askBits)
      && bidBits.Outside(orderTable) && askBits.Outside(orderTable)
      && bids.Length == asks.Length == bidBits.size == askBits.size == PRICE_LEVELS
      && orderTable.Length == MAX_ORDERS && pool.arena.Length < TWO32
    }

    function LevelsOf(side: Side): array<PriceLevel> { if side == Buy then bids else asks }
    function BitsOf(side: Side): B.PriceBitset { if side == Buy then bidBits else askBits }
    function Best(side: Side): nat
      reads this
    {
      if side == Buy then bestBid else bestAsk
    }

    ghost function Q(side: Side): Levels
      reads this
    {
      if side == Buy then bidQ else askQ
    }

    ghost function Snap(): State
      reads Repr()
    {
      State(pool.arena[..], bids[..], asks[..], bidQ, askQ, pool.freeList, orderTable[..], live, exact)
    }

    /** The book as specified: what the concrete structures represent. */
    ghost function Abstract(): Book
      reads Repr()
    {
      AbstractOf(Snap())
    }

    /** A bit is set iff its level is occupied, and the cached best is the best occupied level. */
    ghost predicate TopsOk(side: Side)
      reads Repr()
    {
      BitsOf(side).Valid() && BitsOf(side).Members() == Occupied(Q(side)) && BestOk(side, Q(side), Best(side))
    }

    ghost predicate Valid()
      reads Repr()
    {
      && Shape() && Core(Snap(), {}) && Positive(bidQ) && Positive(askQ) && TopsOk(Buy) && TopsOk(Sell)
      && matchCount < TWO64
    }

    constructor (capacity: nat)
      ensures capacity < TWO32 ==> Valid() && Abstract() == InitialBook(capacity)
      ensures fresh(Repr()) && pool.freeList == InitialFree(capacity)
      ensures fills == [] && matchCount == 0 && scanCalls == 0 && exact && pool.arena.Length == capacity
    {
      hide Core, Valid, Abstract, Snap, EMPTY_LADDER, InitialFree, InitialBook, Repr;
      hide B.PriceBitset.Valid;
      hide B.PriceBitset.Members;
      bids := new PriceLevel[PRICE_LEVELS](_ => EMPTY_LEVEL);
      asks := new PriceLevel[PRICE_LEVELS](_ => EMPTY_LEVEL);
      orderTable := new int[MAX_ORDERS](_ => NIL);
      pool := new P.OrderPool(capacity);
      bidBits := new B.PriceBitset(PRICE_LEVELS);
      askBits := new B.PriceBitset(PRICE_LEVELS);
      bestBid, bestAsk := INVALID_PRICE, MAX_PRICE + 1;
      matchCount, scanCalls, fills := 0, 0, [];
      bidQ, askQ := EMPTY_LADDER, EMPTY_LADDER;
      live, exact := {}, true;
      new;
      if capacity < TWO32 { Established(capacity); }
      AllNew(this);
    }

    /** A book all of whose parts are new is new. */
    static twostate lemma AllNew(new b: OrderBook)
      requires fresh(b) && fresh(b.bids) && fresh(b.asks) && fresh(b.orderTable) && fresh(b.pool) && fresh(b.pool.arena)
      requires fresh(b.bidBits.l0) && fresh(b.bidBits.l1) && fresh(b.bidBits.l2)
      requires fresh(b.askBits.l0) && fresh(b.askBits.l1) && fresh(b.askBits.l2)
      ensures fresh(b.Repr())
    {
    }

    lemma Established(capacity: nat)
      requires Shape() && pool.arena.Length == capacity && pool.freeList == InitialFree(capacity) && exact && live == {}
      requires bids[..] == asks[..] == seq(PRICE_LEVELS, _ => EMPTY_LEVEL)
               && orderTable[..] == seq(MAX_ORDERS, _ => NIL)
      requires bidQ == askQ == EMPTY_LADDER && bestBid == INVALID_PRICE && bestAsk == MAX_PRICE + 1
      requires bidBits.Valid() && bidBits.Members() == {} && askBits.Valid() && askBits.Members() == {}
               && matchCount == 0
      ensures Valid() && Abstract() == InitialBook(capacity)
    {
      hide Core;
      hide B.PriceBitset.Valid;
      hide B.PriceBitset.Members;
      InitialState(Snap(), capacity);
    }

    // ----- Single steps on the shared structures -----

    /** `PriceLevel::remove` on a level of the book. */
    method Unlink(side: Side, i: nat, o: nat, ghost k: nat, ghost held: set<nat>)
      requires Shape() && Core(Snap(), held)
      requires i < PRICE_LEVELS && k < |Q(side)[i]| && Q(side)[i][k].handle == o
      modifies `bidQ, `askQ, `live, LevelsOf(side), pool.arena
      ensures Core(Snap(), held + {o})
      ensures Snap() == Unlinked(old(Snap()), side, i, k, Snap().a, Snap().L(side))
      ensures OnlyLinks(old(pool.arena[..]), pool.arena[..])
      ensures forall h :: h in held ==> pool.arena[h] == old(pool.arena[h])
    {
      hide Core, ListOk, Holds;
      ghost var s := Snap();
      LevelInfo(s, held, side, i);
      Remove(LevelsOf(side), i, pool.arena, o, side, i + MIN_PRICE, s.Q(side)[i], k, exact);
      UnlinkOk(s, held, side, i, k, pool.arena[..], LevelsOf(side)[..]);
      live := live - {o};
      if side == Buy {
        bidQ := Dropped(bidQ, i, k);
      } else {
        askQ := Dropped(askQ, i, k);
      }
    }

    /** `PriceLevel::push` on a level of the book. */
    method Append(side: Side, i: nat, o: nat, ghost r: Resting, ghost held: set<nat>)
      requires Shape() && Core(Snap(), held)
      requires i < PRICE_LEVELS && o in held && r.handle == o && r.price == i + MIN_PRICE
               && Represents(pool.arena[o], side, r)
      modifies `bidQ, `askQ, `live, LevelsOf(side), pool.arena
      ensures Core(Snap(), held - {o})
      ensures Snap() == Joined(old(Snap()), side, i, r, Snap().a, Snap().L(side))
      ensures Q(side.Other()) == old(Q(side.Other()))
    {
      hide Core, ListOk, Holds;
      ghost var s := Snap();
      LevelInfo(s, held, side, i);
      Push(LevelsOf(side), i, pool.arena, o, side, s.Q(side)[i], r, exact);
      JoinOk(s, held, side, i, r, pool.arena[..], LevelsOf(side)[..]);
      live := live + {o};
      if side == Buy {
        bidQ := Grown(bidQ, i, r);
      } else {
        askQ := Grown(askQ, i, r);
      }
    }

    /** The same, with bitsets and cached best prices left alone. */
    method Join(side: Side, i: nat, o: nat, ghost r: Resting, ghost held: set<nat>)
      requires Shape() && Core(Snap(), held) && BitsOf(side).Valid() && TopsOk(side.Other())
      requires i < PRICE_LEVELS && o in held && r.handle == o && r.price == i + MIN_PRICE
               && Represents(pool.arena[o], side, r)
      modifies `bidQ, `askQ, `live, LevelsOf(side), pool.arena
      ensures Core(Snap(), held - {o})
      ensures Snap() == Joined(old(Snap()), side, i, r, Snap().a, Snap().L(side))
      ensures BitsOf(side).Valid() && BitsOf(side).Members() == old(BitsOf(side).Members()) && TopsOk(side.Other())
      ensures Best(side) == old(Best(side))
    {
      hide Core, BestOk, Occupied, Snap, Joined, Represents;
      hide B.PriceBitset.Valid;
      hide B.PriceBitset.Members;
      Append(side, i, o, r, held);
    }

    /** The fill record of a trade between the order in hand and a resting order of side `side`. */
    method Record(side: Side, agg: nat, resting: nat, f: nat)
      requires agg < pool.arena.Length && resting < pool.arena.Length
      modifies `fills, `matchCount
      ensures fills == old(fills) + [FillOf(side, pool.arena[agg], pool.arena[resting], f)]
      ensures var t, r, x := pool.arena[agg], pool.arena[resting], fills[|old(fills)|];
              && x.price == r.price && x.quantity == f
              && (side == Sell ==> x.bidId == t.id && x.bidClient == t.client)
              && (side == Sell ==> x.askId == r.id && x.askClient == r.client)
              && (side == Buy ==> x.askId == t.id && x.askClient == t.client)
              && (side == Buy ==> x.bidId == r.id && x.bidClient == r.client)
      ensures matchCount == (old(matchCount) + 1) % TWO64
    {
      var taker, maker := pool.arena[agg], pool.arena[resting];
      if side == Sell {
        fills := fills + [Fill(taker.id, maker.id, taker.client, maker.client, maker.price, f)];
      } else {
        fills := fills + [Fill(maker.id, taker.id, maker.client, taker.client, maker.price, f)];
      }
      matchCount := (matchCount + 1) % TWO64;
    }

    /** The trade as the arrays see it: record, aggregate and the two orders. */
    method TradeCells(side: Side, i: nat, agg: nat, ghost held: set<nat>) returns (resting: nat, f: nat)
      requires Shape() && Core(Snap(), held)
      requires i < PRICE_LEVELS && Q(side)[i] != [] && agg in held
      requires pool.arena[agg].filled <= pool.arena[agg].quantity < TWO32
      modifies `fills, `matchCount, LevelsOf(side), pool.arena
      ensures resting == old(Q(side)[i][0].handle) < pool.arena.Length && resting != agg && agg < pool.arena.Length
      ensures f == Min(old(pool.arena[agg].Remaining()), old(Q(side)[i][0].rem))
      ensures fills == old(fills) + [FillOf(side, old(pool.arena[agg]), old(pool.arena[resting]), f)]
      ensures matchCount == (old(matchCount) + 1) % TWO64
      ensures pool.arena[..] == Traders(old(pool.arena[..]), agg, resting, f)
      ensures LevelsOf(side)[..] == old(LevelsOf(side)[..])[i := LevelsOf(side)[i]]
      ensures ListOk(side, i + MIN_PRICE, pool.arena[..], LevelsOf(side)[i], FillFront(Q(side)[i], f), exact
              && f != TWO31)
    {
      hide Core, ListOk, Holds, Represents, Summary;
      ghost var s := Snap();
      FrontInfo(s, held, side, i, agg);
      LevelInfo(s, held, side, i);
      resting := LevelsOf(side)[i].head;
      f := Min(pool.arena[agg].Remaining(), pool.arena[resting].Remaining());
      Record(side, agg, resting, f);
      Exchange(LevelsOf(side), i, pool.arena, agg, resting, f, side, s.Q(side)[i], exact);
    }

    /** The first half of the `drain_level` body: the order in hand `agg` trades with the front order of level i. */
    method Trade(side: Side, i: nat, agg: nat, ghost held: set<nat>) returns (resting: nat, ghost f: nat)
      requires Shape() && Core(Snap(), held)
      requires i < PRICE_LEVELS && Q(side)[i] != [] && agg in held
      requires pool.arena[agg].filled <= pool.arena[agg].quantity < TWO32
      modifies `bidQ, `askQ, `exact, `fills, `matchCount, LevelsOf(side), pool.arena
      ensures f == Min(old(pool.arena[agg].Remaining()), old(Q(side)[i][0].rem))
      ensures resting == old(Q(side)[i][0].handle) < pool.arena.Length
      ensures fills == old(fills) + [FillOf(side, old(pool.arena[agg]), old(pool.arena[resting]), f)]
      ensures var t, r, x := old(pool.arena[agg]), old(pool.arena[resting]), fills[|old(fills)|];
              && x.price == r.price && x.quantity == f
              && (side == Sell ==> x.bidId == t.id && x.bidClient == t.client)
              && (side == Sell ==> x.askId == r.id && x.askClient == r.client)
              && (side == Buy ==> x.askId == t.id && x.askClient == t.client)
              && (side == Buy ==> x.bidId == r.id && x.bidClient == r.client)
      ensures Core(Snap(), held)
      ensures Snap() == Traded(old(Snap()), side, i, f, Snap().a, Snap().L(side))
      ensures pool.arena[..] == Traders(old(pool.arena[..]), agg, resting, f)
      ensures matchCount == (old(matchCount) + 1) % TWO64
    {
      hide Core, ListOk, Holds, Represents, Summary, Traders, FillOf, FillFront, Placed, Same, Keeps, Eaten;
      ghost var s := Snap();
      FrontInfo(s, held, side, i, agg);
      CoreSide(s, held, side);
      var fill;
      resting, fill := TradeCells(side, i, agg, held);
      f := fill;
      TradersTouch(s.a, held, agg, resting, f);
      TradeOk(s, held, side, i, f, pool.arena[..], LevelsOf(side)[..]);
      exact := exact && f != TWO31;
      if side == Buy {
        bidQ := Eaten(bidQ, i, f);
      } else {
        askQ := Eaten(askQ, i, f);
      }
    }

    /** `unreg` and `deallocate` of an order in hand. */
    method Release(o: nat, ghost held: set<nat>)
      requires Shape() && Core(Snap(), held) && o in held
      modifies orderTable, pool, pool.arena
      ensures Core(Snap(), held - {o})
      ensures Snap() == Released(old(Snap()), o, Snap().a)
      ensures forall h :: h in held && h != o ==> pool.arena[h] == old(pool.arena[h])
    {
      hide Core;
      ghost var s := Snap();
      HeldInfo(s, held);
      var slot := Slot(pool.arena[o].id);
      orderTable[slot] := NIL;
      pool.Deallocate(o);
      ReleaseOk(s, held, o, pool.arena[..]);
      assert orderTable[..] == s.table[slot := NIL];
    }

    /** Allocation, initialisation and `reg` of a new order. */
    method Acquire(id: nat, client: nat, side: Side, kind: OrderType, price: nat, qty: nat, ts: nat,
                   ghost held: set<nat>) returns (o: nat)
      requires Shape() && Core(Snap(), held) && pool.freeList != []
      modifies orderTable, pool, pool.arena
      ensures o == old(pool.freeList[|pool.freeList| - 1]) && o !in held
      ensures Core(Snap(), held + {o})
      ensures Snap() == Acquired(old(Snap()), Snap().a)
      ensures o < pool.arena.Length && pool.arena[o] == Order(price, qty, 0, side, kind, NIL, NIL, id, client, ts)
    {
      hide Core;
      ghost var s := Snap();
      FreeInfo(s, held);
      o := pool.Allocate();
      pool.arena[o] := Order(price, qty, 0, side, kind, NIL, NIL, id, client, ts);
      orderTable[Slot(id)] := o;
      assert orderTable[..] == s.table[Slot(id) := o];
      AcquireOk(s, held, pool.arena[..]);
      assert Snap() == Acquired(s, pool.arena[..]);
    }

    /** The body of the `drain_level` loop. */
    method MatchOne(side: Side, i: nat, agg: nat, ghost t: Taker)
      requires Shape() && Core(Snap(), {agg}) && Ready(Snap(), side, i, agg, t)
      modifies `bidQ, `askQ, `exact, `live, `fills, `matchCount, LevelsOf(side), orderTable, pool, pool.arena
      ensures Core(Snap(), {agg}) && MatchedOne(old(Snap()), old(fills), Snap(), fills, side, i, agg, t)
      ensures matchCount == (old(matchCount) + 1) % TWO64
    {
      hide Core, MatchedOne, Ready, Represents, Traded, Unlinked, Released, Traders, OnlyLinks;
      ghost var s, fills0 := Snap(), fills;
      ReadyInfo(s, {agg}, side, i, agg, t);
      var resting, f := Trade(side, i, agg, {agg});
      ghost var s1 := Snap();
      TradedInfo(s, side, i, f, s1);
      if pool.arena[resting].IsFilled() {
        Unlink(side, i, resting, 0, {agg});
        ghost var s2 := Snap();
        HeldInfo(s2, {agg} + {resting});
        Release(resting, {agg} + {resting});
        assert {agg} + {resting} - {resting} == {agg};
        FullTrade(s, fills0, s1, s2, Snap(), fills, side, i, agg, t, f);
      } else {
        PartialTrade(s, fills0, s1, fills, side, i, agg, t, f);
      }
    }

    /** `drain_level`: trade with the level's front order until the level is empty or the taker is filled. */
    method DrainLevel(side: Side, i: nat, agg: nat, ghost t: Taker)
      requires Shape() && Core(Snap(), {agg}) && i < PRICE_LEVELS && Facing(Snap(), side, i, agg, t)
               && Crosses(t, i + MIN_PRICE)
      requires matchCount < TWO64
      modifies `bidQ, `askQ, `exact, `live, `fills, `matchCount, LevelsOf(side), orderTable, pool, pool.arena
      ensures Core(Snap(), {agg}) && Drained(old(Snap()), old(fills), Snap(), fills, side, i, agg, t)
      ensures Counted(old(matchCount), old(fills), matchCount, fills)
      ensures LevelsOf(side)[i].Empty() || pool.arena[agg].IsFilled()
      ensures !old(LevelsOf(side)[i].Empty()) && !old(pool.arena[agg].IsFilled()) ==>
              Less(old(Snap()), Snap(), side, agg)
    {
      hide Core, MatchedOne, Ready, Drained, Facing, Less, Counted;
      ghost var s, fills0, count0 := Snap(), fills, matchCount;
      FacingInfo(s, side, i, agg, t);
      EmptyLevel(s, {agg}, side, i);
      DrainedRefl(s, fills, side, i, agg, t);
      CountedRefl(matchCount, fills);
      ghost var first := true;
      while !LevelsOf(side)[i].Empty() && !pool.arena[agg].IsFilled()
        invariant Core(Snap(), {agg}) && Drained(s, fills0, Snap(), fills, side, i, agg, t)
        invariant Counted(count0, fills0, matchCount, fills)
        invariant if first then Snap() == s else Less(s, Snap(), side, agg)
        invariant |Q(side)| == PRICE_LEVELS && pool.arena[agg].filled <= pool.arena[agg].quantity
        decreases |Q(side)[i]|, pool.arena[agg].Remaining()
      {
        ghost var s1, fills1, count1 := Snap(), fills, matchCount;
        EmptyLevel(s1, {agg}, side, i);
        DrainedInfo(s, fills0, s1, fills1, side, i, agg, t);
        FacingReady(s1, {agg}, side, i, agg, t);
        MatchOne(side, i, agg, t);
        MatchedOneInfo(s1, fills1, Snap(), fills, side, i, agg, t);
        DrainedOne(s, fills0, s1, fills1, Snap(), fills, side, i, agg, t);
        CountedOne(count0, fills0, count1, fills1, matchCount, fills);
        first := false;
      }
    }

    /** `scan_best_bid` and `scan_best_ask`. */
    method ScanBest(side: Side)
      requires Shape() && BitsOf(side).Valid() && |Q(side)| == PRICE_LEVELS
               && BitsOf(side).Members() == Occupied(Q(side))
      modifies `bestBid, `bestAsk, `scanCalls
      ensures BestOk(side, Q(side), Best(side)) && Best(side.Other()) == old(Best(side.Other()))
      ensures scanCalls == (old(scanCalls) + 1) % TWO64
    {
      hide B.PriceBitset.Valid;
      hide B.PriceBitset.Members;
      scanCalls := (scanCalls + 1) % TWO64;
      if side == Buy {
        var i := bidBits.Highest();
        bestBid := if i.None? then INVALID_PRICE else i.value + MIN_PRICE;
      } else {
        var i := askBits.Lowest();
        bestAsk := if i.None? then MAX_PRICE + 1 else i.value + MIN_PRICE;
      }
    }

    /** Clear the bit of an emptied level. */
    method ClearOne(side: Side, i: nat)
      requires Shape() && i < PRICE_LEVELS && BitsOf(side).Valid() && TopsOk(side.Other())
      modifies BitsOf(side).l0, BitsOf(side).l1, BitsOf(side).l2
      ensures BitsOf(side).Valid() && BitsOf(side).Members() == old(BitsOf(side).Members()) - {i}
      ensures TopsOk(side.Other()) && Snap() == old(Snap())
    {
      hide B.PriceBitset.Valid;
      hide B.PriceBitset.Members;
      hide BestOk, Occupied;
      BitsOf(side).Clear(i);
    }

    /** Rescan a side whose bitset is up to date. */
    method Rescan(side: Side)
      requires Shape() && |Q(side)| == PRICE_LEVELS && BitsOf(side).Valid() && TopsOk(side.Other())
      requires BitsOf(side).Members() == Occupied(Q(side))
      modifies `bestBid, `bestAsk, `scanCalls
      ensures TopsOk(side) && TopsOk(side.Other()) && Snap() == old(Snap())
      ensures scanCalls == (old(scanCalls) + 1) % TWO64
    {
      hide B.PriceBitset.Valid;
      hide B.PriceBitset.Members;
      hide BestOk, Occupied, Shape;
      ScanBest(side);
    }

    lemma TopsFrom(side: Side)
      requires BitsOf(side).Valid() && BitsOf(side).Members() == Occupied(Q(side)) && BestOk(side, Q(side), Best(side))
      ensures TopsOk(side)
    {
    }

    /** Clear the bit of an emptied level and rescan its side. */
    method Vacate(side: Side, i: nat, rescan: bool)
      requires Shape() && i < PRICE_LEVELS == |Q(side)| && BitsOf(side).Valid() && TopsOk(side.Other())
      requires BitsOf(side).Members() - {i} == Occupied(Q(side)) && (!rescan ==> BestOk(side, Q(side), Best(side)))
      modifies `bestBid, `bestAsk, `scanCalls, BitsOf(side).l0, BitsOf(side).l1, BitsOf(side).l2
      ensures TopsOk(side) && TopsOk(side.Other()) && Snap() == old(Snap())
      ensures scanCalls == if rescan then (old(scanCalls) + 1) % TWO64 else old(scanCalls)
    {
      hide B.PriceBitset.Valid;
      hide B.PriceBitset.Members;
      hide BestOk, Occupied, TopsOk, Snap, Shape;
      ClearOne(side, i);
      if rescan {
        Rescan(side);
      } else {
        TopsFrom(side);
      }
    }

    /** Draining a level leaves bitsets and cached best prices alone. */
    method DrainAside(side: Side, i: nat, agg: nat, ghost t: Taker)
      requires Shape() && Core(Snap(), {agg}) && i < PRICE_LEVELS && Facing(Snap(), side, i, agg, t)
               && Crosses(t, i + MIN_PRICE)
      requires matchCount < TWO64 && BitsOf(side).Valid() && TopsOk(side.Other())
      requires !LevelsOf(side)[i].Empty() && !pool.arena[agg].IsFilled() && |Q(side)| == PRICE_LEVELS
               && Q(side)[i] != []
      modifies `bidQ, `askQ, `exact, `live, `fills, `matchCount, LevelsOf(side), orderTable, pool, pool.arena
      ensures Core(Snap(), {agg}) && Drained(old(Snap()), old(fills), Snap(), fills, side, i, agg, t)
              && Less(old(Snap()), Snap(), side, agg)
      ensures Counted(old(matchCount), old(fills), matchCount, fills)
      ensures BitsOf(side).Valid() && BitsOf(side).Members() == old(BitsOf(side).Members()) && TopsOk(side.Other())
      ensures Best(side) == old(Best(side))
    {
      hide Core, Swept, Drained, Facing, Less, Counted, Crosses, Occupied, BestOk;
      hide B.PriceBitset.Valid;
      hide B.PriceBitset.Members;
      ghost var s, fills0 := Snap(), fills;
      DrainLevel(side, i, agg, t);
      DrainedOccupied(s, fills0, Snap(), fills, side, i, agg, t);
    }

    /** The body of the matching loops: drain the best level, then drop its bit and rescan if it is empty. */
    method DrainBest(side: Side, agg: nat, ghost t: Taker)
      requires Shape() && Core(Snap(), {agg}) && TopsOk(side) && TopsOk(side.Other()) && Positive(Q(side))
      requires agg < pool.arena.Length && IsTaker(pool.arena[agg], t) && t.side == side.Other() && matchCount < TWO64
      requires !pool.arena[agg].IsFilled() && Best(side) != Sentinel(side) && Crosses(t, Best(side))
      modifies `bidQ, `askQ, `exact, `live, `fills, `matchCount, `bestBid, `bestAsk, `scanCalls,
               LevelsOf(side), orderTable, pool, pool.arena, BitsOf(side).l0, BitsOf(side).l1, BitsOf(side).l2
      ensures Core(Snap(), {agg}) && TopsOk(side) && TopsOk(side.Other())
      ensures Swept(old(Snap()), old(fills), Snap(), fills, side, agg, t) && Less(old(Snap()), Snap(), side, agg)
      ensures Counted(old(matchCount), old(fills), matchCount, fills)
    {
      hide Core, Swept, Drained, Facing, Less, Counted, IsTaker, Positive, Flat, Occupied, BestOk, NoneBetter, Snap;
      hide B.PriceBitset.Valid;
      hide B.PriceBitset.Members;
      SnapQueue(side);
      SnapParts();
      ghost var s, fills0 := Snap(), fills;
      BestIsFront(s, {agg}, side, Best(side));
      var i := Best(side) - MIN_PRICE;
      FacingBest(s, side, i, agg, t);
      EmptyLevel(s, {agg}, side, i);
      DrainAside(side, i, agg, t);
      ghost var s1 := Snap();
      SnapQueue(side);
      DrainedOccupied(s, fills0, s1, fills, side, i, agg, t);
      EmptyLevel(s1, {agg}, side, i);
      if LevelsOf(side)[i].Empty() {
        Vacate(side, i, true);
        assert Snap() == s1;
      } else {
        BestSame(side, s.Q(side), s1.Q(side), Best(side));
        assert TopsOk(side);
      }
    }

    /** The loops of `match_limit` (with a limit) and `match_market` (without): work through the best levels of the
        opposite side `side` while the taker has quantity left and crosses them. */
    method MatchAgainst(side: Side, agg: nat, limit: Option<nat>, ghost t: Taker)
      requires Shape() && Core(Snap(), {agg}) && TopsOk(side) && TopsOk(side.Other()) && Positive(Q(side))
      requires agg < pool.arena.Length && IsTaker(pool.arena[agg], t) && t.side == side.Other() && t.limit == limit
               && matchCount < TWO64
      modifies `bidQ, `askQ, `exact, `live, `fills, `matchCount, `bestBid, `bestAsk, `scanCalls,
               LevelsOf(side), orderTable, pool, pool.arena, BitsOf(side).l0, BitsOf(side).l1, BitsOf(side).l2
      ensures Core(Snap(), {agg}) && TopsOk(side) && TopsOk(side.Other())
      ensures Swept(old(Snap()), old(fills), Snap(), fills, side, agg, t)
      ensures SweepOf(Snap(), side, agg, fills) == SweepAll(t, old(SweepOf(Snap(), side, agg, fills)))
      ensures Counted(old(matchCount), old(fills), matchCount, fills)
    {
      hide Core, Swept, Less, Positive, Flat, SweepAll, SweepOf, TopsOk;
      ghost var s, fills0, count0 := Snap(), fills, matchCount;
      SweptRefl(s, fills, side, agg, t);
      CountedRefl(matchCount, fills);
      while !pool.arena[agg].IsFilled()
            && (limit.None? || (if side == Sell then bestAsk <= limit.value else bestBid >= limit.value))
            && (if side == Sell then bestAsk <= MAX_PRICE else bestBid != INVALID_PRICE)
        invariant Core(Snap(), {agg}) && TopsOk(side) && TopsOk(side.Other())
        invariant Swept(s, fills0, Snap(), fills, side, agg, t) && Counted(count0, fills0, matchCount, fills)
        invariant pool.arena[agg].filled <= pool.arena[agg].quantity
        decreases |Flat(side, Q(side))|, pool.arena[agg].Remaining()
      {
        ghost var s1, fills1, count1 := Snap(), fills, matchCount;
        SweptInfo(s, fills0, s1, fills1, side, agg, t);
        TopsInfo(side, {agg});
        DrainBest(side, agg, t);
        SweptTrans(s, fills0, s1, fills1, Snap(), fills, side, agg, t);
        SweptInfo(s, fills0, Snap(), fills, side, agg, t);
        CountedTrans(count0, fills0, count1, fills1, matchCount, fills);
        LessInfo(s1, Snap(), side, agg);
      }
      TopsInfo(side, {agg});
      SweptOver(s, fills0, Snap(), fills, {agg}, side, agg, t, Best(side));
    }

    lemma TopsInfo(side: Side, held: set<nat>)
      requires Core(Snap(), held) && TopsOk(side)
      ensures BestOk(side, Q(side), Best(side))
              && (side == Sell ==> Best(side) <= MAX_PRICE || Best(side) == Sentinel(side))
    {
      BestIsFront(Snap(), held, side, Best(side));
    }

    /** Set the bit of level i if the level is empty. */
    method MarkLevel(side: Side, i: nat, ghost held: set<nat>)
      requires Shape() && Core(Snap(), held) && i < PRICE_LEVELS && TopsOk(side) && TopsOk(side.Other())
      modifies BitsOf(side).l0, BitsOf(side).l1, BitsOf(side).l2
      ensures Snap() == old(Snap()) && TopsOk(side.Other())
      ensures BitsOf(side).Valid() && BitsOf(side).Members() == Occupied(Q(side)) + {i}
    {
      hide Core, BestOk, Occupied;
      hide B.PriceBitset.Valid;
      hide B.PriceBitset.Members;
      EmptyLevel(Snap(), held, side, i);
      OccupiedInfo(Q(side), i);
      if LevelsOf(side)[i].Empty() { BitsOf(side).Set(i); }
    }

    /** Raise the cached best of a side to a new, possibly better price. */
    method RaiseBest(side: Side, price: nat)
      requires Shape() && BitsOf(side).Valid() && BitsOf(side).Members() == Occupied(Q(side)) && TopsOk(side.Other())
      requires BestOk(side, Q(side), if Better(side, price, Best(side)) then price else Best(side))
      modifies `bestBid, `bestAsk
      ensures TopsOk(side) && TopsOk(side.Other()) && Snap() == old(Snap())
    {
      hide BestOk, Occupied;
      hide B.PriceBitset.Valid;
      hide B.PriceBitset.Members;
      if side == Buy {
        if price > bestBid { bestBid := price; }
      } else {
        if price < bestAsk { bestAsk := price; }
      }
    }

    /** Mark the level and join its queue, with the cached best still to follow. */
    method Place(side: Side, price: nat, o: nat, ghost r: Resting)
      requires Shape() && Core(Snap(), {o}) && TopsOk(side) && TopsOk(side.Other())
      requires o < pool.arena.Length && MIN_PRICE <= price <= MAX_PRICE
      requires r.price == price && r.handle == o && r.rem > 0 && Represents(pool.arena[o], side, r)
      modifies `bidQ, `askQ, `live, LevelsOf(side), pool.arena, BitsOf(side).l0, BitsOf(side).l1, BitsOf(side).l2
      ensures Core(Snap(), {}) && TopsOk(side.Other())
      ensures BitsOf(side).Valid() && BitsOf(side).Members() == Occupied(Q(side))
      ensures BestOk(side, Q(side), if Better(side, price, Best(side)) then price else Best(side))
      ensures |old(Q(side))| == PRICE_LEVELS && Q(side) == Grown(old(Q(side)), price - MIN_PRICE, r)
      ensures Snap() == Joined(old(Snap()), side, price - MIN_PRICE, r, Snap().a, Snap().L(side))
    {
      hide Core, BestOk, Occupied, Grown, Represents, Better, TopsOk, Joined, Shape, Snap, Placed;
      hide B.PriceBitset.Valid;
      hide B.PriceBitset.Members;
      var i := price - MIN_PRICE;
      ghost var s := Snap();
      SnapQueue(side);
      CoreSide(s, {o}, side);
      TopsInfo(side, {o});
      GrownOccupied(side, s.Q(side), i, r, Best(side));
      MarkLevel(side, i, {o});
      Join(side, i, o, r, {o});
      assert {o} - {o} == {};
      JoinedInfo(s, side, i, r, Snap());
      SnapQueue(side);
    }

    lemma SnapParts()
      ensures Snap().exact == exact && Snap().free == pool.freeList && Snap().a == pool.arena[..]
              && Snap().table == orderTable[..]
    {
    }

    lemma SnapQueue(side: Side)
      ensures Snap().Q(side) == Q(side) && Snap().L(side) == LevelsOf(side)[..]
    {
    }

    /** The tail of `add_order` for a remainder: mark the level, join it, raise the cached best. */
    method Rest(side: Side, price: nat, o: nat, ghost r: Resting)
      requires Shape() && Core(Snap(), {o}) && TopsOk(side) && TopsOk(side.Other())
      requires o < pool.arena.Length && MIN_PRICE <= price <= MAX_PRICE
      requires r.price == price && r.handle == o && r.rem > 0 && Represents(pool.arena[o], side, r)
      modifies `bidQ, `askQ, `live, `bestBid, `bestAsk, `scanCalls, LevelsOf(side), pool.arena, BitsOf(side).l0,
               BitsOf(side).l1,
               BitsOf(side).l2
      ensures Core(Snap(), {}) && TopsOk(side) && TopsOk(side.Other()) && |old(Q(side))| == PRICE_LEVELS
      ensures Snap() == Joined(old(Snap()), side, price - MIN_PRICE, r, Snap().a, Snap().L(side))
      ensures Positive(old(Q(side))) ==> Positive(Q(side))
    {
      hide Core, BestOk, Occupied, Positive, Grown, Represents, Better, TopsOk, Joined, Shape;
      hide B.PriceBitset.Valid;
      hide B.PriceBitset.Members;
      ghost var q := Q(side);
      Place(side, price, o, r);
      GrownPositive(q, price - MIN_PRICE, r);
      RaiseBest(side, price);
    }

    /** Acquire, with bitsets and cached best prices left alone. */
    method Admit(id: nat, client: nat, side: Side, kind: OrderType, price: nat, qty: nat, ts: nat) returns (o: nat)
      requires Shape() && Core(Snap(), {}) && pool.freeList != [] && TopsOk(side) && TopsOk(side.Other())
      modifies orderTable, pool, pool.arena
      ensures o == old(pool.freeList[|pool.freeList| - 1]) < pool.arena.Length && |old(orderTable[..])| == MAX_ORDERS
      ensures Snap() == Acquired(old(Snap()), Snap().a)
      ensures Core(Snap(), {o}) && TopsOk(side) && TopsOk(side.Other())
      ensures pool.arena[o] == Order(price, qty, 0, side, kind, NIL, NIL, id, client, ts)
    {
      hide Core, BestOk, Occupied, Acquired;
      hide B.PriceBitset.Valid;
      hide B.PriceBitset.Members;
      o := Acquire(id, client, side, kind, price, qty, ts, {});
      assert {} + {o} == {o};
    }

    /** Release, with bitsets and cached best prices left alone. */
    method Discard(side: Side, o: nat)
      requires Shape() && Core(Snap(), {o}) && TopsOk(side) && TopsOk(side.Other())
      modifies orderTable, pool, pool.arena
      ensures Core(Snap(), {}) && TopsOk(side) && TopsOk(side.Other())
      ensures o < |old(Snap().a)| && |old(Snap().table)| == MAX_ORDERS && Snap() == Released(old(Snap()), o, Snap().a)
    {
      hide Core, BestOk, Occupied, Released;
      hide B.PriceBitset.Valid;
      hide B.PriceBitset.Members;
      HeldInfo(Snap(), {o});
      Release(o, {o});
      assert {o} - {o} == {};
    }

    /** `match_limit` and `match_market`. */
    method MatchOrder(side: Side, kind: OrderType, price: nat, o: nat, ghost t: Taker)
      requires Shape() && Core(Snap(), {o}) && TopsOk(side) && TopsOk(side.Other()) && Positive(Q(side.Other()))
      requires o < pool.arena.Length && IsTaker(pool.arena[o], t) && t.side == side && matchCount < TWO64
      requires t.limit == if kind == Limit then Some(price) else None
      modifies `bidQ, `askQ, `exact, `live, `fills, `matchCount, `bestBid, `bestAsk, `scanCalls, LevelsOf(side.Other()),
               orderTable, pool, pool.arena,
               BitsOf(side.Other()).l0, BitsOf(side.Other()).l1, BitsOf(side.Other()).l2
      ensures Core(Snap(), {o}) && TopsOk(side) && TopsOk(side.Other())
      ensures Swept(old(Snap()), old(fills), Snap(), fills, side.Other(), o, t)
      ensures SweepOf(Snap(), side.Other(), o, fills) == SweepAll(t, old(SweepOf(Snap(), side.Other(), o, fills)))
      ensures Counted(old(matchCount), old(fills), matchCount, fills)
    {
      hide Core, TopsOk, Swept, SweepOf, SweepAll, Positive, Counted;
      if kind == Market {
        MatchAgainst(side.Other(), o, None, t);
      } else {
        MatchAgainst(side.Other(), o, Some(price), t);
      }
    }

    lemma Assemble(side: Side)
      requires Shape() && Core(Snap(), {}) && TopsOk(side) && TopsOk(side.Other()) && matchCount < TWO64
      requires Positive(Snap().Q(side)) && Positive(Snap().Q(side.Other()))
      ensures Valid()
    {
      hide Core, TopsOk, Positive;
    }

    method ClearFills()
      requires Valid()
      modifies `fills
      ensures Valid() && Abstract() == old(Abstract()) && fills == []
    {
      hide Core, Positive, BestOk, Occupied, AbstractOf;
      hide B.PriceBitset.Valid;
      hide B.PriceBitset.Members;
      fills := [];
    }

    lemma CountFits()
      requires Valid()
      ensures matchCount < TWO64
    {
    }

    lemma Disassemble(side: Side)
      requires Valid()
      ensures Shape() && Core(Snap(), {}) && TopsOk(side) && TopsOk(side.Other()) && matchCount < TWO64
      ensures Positive(Snap().Q(side)) && Positive(Snap().Q(side.Other()))
    {
      hide Core, TopsOk, Positive;
    }

    /** The end of `add_order`: rest the remainder, or drop the order. */
    method Settle(side: Side, kind: OrderType, price: nat, o: nat, ghost s: State, ghost m: Matched, ghost r: Resting,
                  ghost qty: nat)
      requires Shape() && Core(Snap(), {o}) && TopsOk(side) && TopsOk(side.Other()) && matchCount < TWO64
      requires Positive(Snap().Q(side)) && Positive(Snap().Q(side.Other()))
      requires Acceptable(AbstractOf(s), kind, price) && o == s.free[|s.free| - 1] && o < pool.arena.Length
      requires m == MatchOf(AbstractOf(s), r.id, r.client, side, kind, price, qty)
               && r == Resting(o, r.id, r.client, price, m.left)
      requires AbstractOf(Snap()) == MatchedBook(AbstractOf(s), m, r.id, side)
      requires Represents(pool.arena[o], side, r) && pool.arena[o].id == r.id
               && (pool.arena[o].IsFilled() <==> r.rem == 0)
      modifies `bidQ, `askQ, `live, `bestBid, `bestAsk, `scanCalls, LevelsOf(side), pool, pool.arena, orderTable,
               BitsOf(side).l0,
               BitsOf(side).l1, BitsOf(side).l2
      ensures Valid()
      ensures Outcome(true, Abstract(), m.fills) == Add(AbstractOf(s), r.id, r.client, side, kind, price, qty)
    {
      hide Core, TopsOk, Positive, Joined, Released, AbstractOf, Represents, MatchOf, MatchedBook, Add, Valid;
      ghost var s2 := Snap();
      FreeOf(s);
      if !pool.arena[o].IsFilled() && kind == Limit {
        Rest(side, price, o, r);
        ghost var s3 := Snap();
        JoinedInfo(s2, side, price - MIN_PRICE, r, s3);
        AddRests(s, s2, s3, {o}, m, r.id, r.client, side, price, qty);
      } else {
        Discard(side, o);
        ghost var s3 := Snap();
        ReleasedInfo(s2, o, s3);
        AddLeaves(s, s2, s3, m, r.id, r.client, side, kind, price, qty);
      }
      Assemble(side);
    }

    /** The front of `add_order` for an acceptable order: allocate, register and match it. */
    method Enter(id: nat, client: nat, side: Side, kind: OrderType, price: nat, qty: nat, ts: nat)
      returns (o: nat, ghost m: Matched)
      requires Shape() && Core(Snap(), {}) && TopsOk(side) && TopsOk(side.Other()) && matchCount < TWO64
      requires Positive(Snap().Q(side)) && Positive(Snap().Q(side.Other()))
      requires qty < TWO32 && pool.freeList != []
      modifies `bidQ, `askQ, `exact, `live, `fills, `matchCount, `bestBid, `bestAsk, `scanCalls, LevelsOf(side.Other()),
               orderTable, pool, pool.arena,
               BitsOf(side.Other()).l0, BitsOf(side.Other()).l1, BitsOf(side.Other()).l2
      ensures Core(Snap(), {o}) && TopsOk(side) && TopsOk(side.Other()) && matchCount < TWO64
      ensures Positive(Snap().Q(side)) && Positive(Snap().Q(side.Other()))
      ensures o == old(pool.freeList[|pool.freeList| - 1]) < pool.arena.Length && old(AbstractOf(Snap()).free != [])
      ensures m == MatchOf(old(AbstractOf(Snap())), id, client, side, kind, price, qty)
      ensures AbstractOf(Snap()) == MatchedBook(old(AbstractOf(Snap())), m, id, side)
      ensures Represents(pool.arena[o], side, Resting(o, id, client, price, m.left)) && pool.arena[o].id == id
      ensures pool.arena[o].IsFilled() <==> m.left == 0
      ensures fills == old(fills) + m.fills && exact == (old(exact) && NoOverflow(m.fills))
              && Counted(old(matchCount), old(fills), matchCount, fills)
    {
      hide Core, TopsOk, Swept, SweepOf, SweepAll, Counted, Positive, Acquired, AbstractOf, Represents, NoOverflow,
           MatchOf, MatchedBook, Shape;
      ghost var s, fills0, count0 := Snap(), fills, matchCount;
      FreeOf(s);
      ghost var t := TakerOf(id, client, side, kind, price);
      m := MatchOf(AbstractOf(s), id, client, side, kind, price, qty);
      o := Admit(id, client, side, kind, price, qty, ts);
      ghost var s1 := Snap();
      AcquiredInfo(s, s1);
      MatchOrder(side, kind, price, o, t);
      ghost var s2 := Snap();
      MatchPhase(s, s1, s2, {}, fills0, fills, id, client, side, kind, price, qty);
      HandAfter(s1, fills0, s2, fills, side, o, t, Resting(o, id, client, price, m.left));
      CountedBound(count0, fills0, matchCount, fills);
    }

    /** An acceptable order, from allocation to rest or release. */
    method TakeOn(id: nat, client: nat, side: Side, kind: OrderType, price: nat, qty: nat, ts: nat)
      requires Valid() && qty < TWO32 && pool.freeList != []
      requires kind == Limit ==> MIN_PRICE <= price <= MAX_PRICE
      modifies Repr()
      ensures Valid()
      ensures var out := Add(old(Abstract()), id, client, side, kind, price, qty);
              && Outcome(true, Abstract(), out.fills) == out && fills == old(fills) + out.fills
              && exact == (old(exact) && NoOverflow(out.fills))
              && Counted(old(matchCount), old(fills), matchCount, fills)
    {
      hide Core, TopsOk, Counted, Positive, AbstractOf, Represents, NoOverflow, MatchOf, MatchedBook, Valid, Shape, Add,
           Snap;
      SnapParts();
      ghost var s := Snap();
      Disassemble(side);
      FreeOf(s);
      var o, m := Enter(id, client, side, kind, price, qty, ts);
      Settle(side, kind, price, o, s, m, Resting(o, id, client, price, m.left), qty);
    }

    method AddOrder(id: nat, client: nat, side: Side, kind: OrderType, price: nat, qty: nat, ts: nat) returns (ok: bool)
      requires Valid() && qty < TWO32
      modifies Repr()
      ensures Valid()
      ensures Did(Add(old(Abstract()), id, client, side, kind, price, qty), ok, Abstract(),
                  old(fills), fills, old(matchCount), matchCount, old(exact), exact)
    {
      hide Counted, Did, AbstractOf, NoOverflow, Valid, Add, Snap;
      SnapParts();
      ghost var b, fills0, count0, exact0 := Abstract(), fills, matchCount, exact;
      CountFits();
      FreeOf(Snap());
      AddSpec(b, id, client, side, kind, price, qty);
      var available := pool.Available();
      if available == 0 {
        DidNothing(b, fills, matchCount, exact);
        return false;
      }
      if kind == Limit && (price < MIN_PRICE || price > MAX_PRICE) {
        DidNothing(b, fills, matchCount, exact);
        return false;
      }
      TakeOn(id, client, side, kind, price, qty, ts);
      DidIt(Add(b, id, client, side, kind, price, qty), Abstract(), fills0, fills, count0, matchCount, exact0, exact);
      ok := true;
    }

    /** Unlink, with bitsets and cached best prices left alone. */
    method UnlinkAside(side: Side, i: nat, o: nat, ghost k: nat)
      requires Shape() && Core(Snap(), {}) && BitsOf(side).Valid() && TopsOk(side.Other())
      requires i < PRICE_LEVELS && k < |Q(side)[i]| && Q(side)[i][k].handle == o
      modifies `bidQ, `askQ, `live, LevelsOf(side), pool.arena
      ensures Core(Snap(), {o}) && OnlyLinks(old(pool.arena[..]), pool.arena[..])
      ensures Snap() == Unlinked(old(Snap()), side, i, k, Snap().a, Snap().L(side))
      ensures BitsOf(side).Valid() && BitsOf(side).Members() == old(BitsOf(side).Members()) && TopsOk(side.Other())
      ensures Best(side) == old(Best(side))
    {
      hide Core, BestOk, Occupied, Unlinked, OnlyLinks;
      hide B.PriceBitset.Valid;
      hide B.PriceBitset.Members;
      ghost var s := Snap();
      LevelInfo(s, {}, side, i);
      Unlink(side, i, o, k, {});
      assert {} + {o} == {o};
      UnlinkedInfo(s, side, i, k, Snap());
    }

    /** Unlink, then bring the bitset and the cached best of the side up to date. */
    method Withdraw(side: Side, i: nat, o: nat, ghost k: nat)
      requires Shape() && Core(Snap(), {}) && TopsOk(side) && TopsOk(side.Other())
      requires i < PRICE_LEVELS && k < |Q(side)[i]| && Q(side)[i][k].handle == o
      modifies `bidQ, `askQ, `live, `bestBid, `bestAsk, `scanCalls, LevelsOf(side), pool.arena, BitsOf(side).l0,
               BitsOf(side).l1,
               BitsOf(side).l2
      ensures Core(Snap(), {o}) && TopsOk(side) && TopsOk(side.Other())
      ensures Snap() == Unlinked(old(Snap()), side, i, k, Snap().a, Snap().L(side))
      ensures OnlyLinks(old(pool.arena[..]), pool.arena[..])
    {
      hide Core, BestOk, Occupied, Unlinked, OnlyLinks;
      hide B.PriceBitset.Valid;
      hide B.PriceBitset.Members;
      ghost var s := Snap();
      LevelInfo(s, {}, side, i);
      DroppedOccupied(side, s.Q(side), i, k, Best(side));
      UnlinkAside(side, i, o, k);
      ghost var s1 := Snap();
      UnlinkedInfo(s, side, i, k, s1);
      EmptyLevel(s1, {o}, side, i);
      if LevelsOf(side)[i].Empty() {
        Vacate(side, i, i + MIN_PRICE == Best(side));
      }
      assert Snap() == s1;
    }

    /** `lookup`: the resting order registered under the id, or NIL. */
    method LookupOrder(id: nat) returns (o: int)
      requires Valid()
      ensures match Lookup(Abstract(), id)
              case None => o == NIL
              case Some((side, r)) => o == r.handle < pool.arena.Length && Represents(pool.arena[o], side, r)
    {
      hide Core, TopsOk, Positive, AbstractOf, Represents, Lookup;
      ghost var s := Snap();
      HeldInfo(s, {});
      o := orderTable[Slot(id)];
      if o == NIL {
        LookupEmpty(s, id);
        return NIL;
      }
      ghost var k := EntryAtHome(s, Slot(id));
      ghost var side, i := s.a[o].side, s.a[o].price - MIN_PRICE;
      RepresentsInfo(s.a[o], side, s.Q(side)[i][k]);
      LookupHit(s, id, side, i, k);
      if pool.arena[o].id != id { return NIL; }
    }

    method CancelOrder(id: nat) returns (ok: bool)
      requires Valid()
      modifies Repr()
      ensures Valid()
      ensures Did(Cancel(old(Abstract()), id), ok, Abstract(), old(fills), fills, old(matchCount), matchCount,
              old(exact), exact)
    {
      hide Core, TopsOk, Did, Positive, Unlinked, Released, AbstractOf, Represents, OnlyLinks, Lookup, Cancel, Valid,
           Shape, Dropped;
      ghost var s := Snap();
      CancelSpec(AbstractOf(s), id);
      Disassemble(Buy);
      var o := LookupOrder(id);
      if o == NIL {
        DidNothing(AbstractOf(s), fills, matchCount, exact);
        return false;
      }
      LookupEntry(s, id);
      ghost var k := EntryAtHome(s, Slot(id));
      var side, price := pool.arena[o].side, pool.arena[o].price;
      RepresentsInfo(s.a[o], side, s.Q(side)[price - MIN_PRICE][k]);
      LookupHit(s, id, side, price - MIN_PRICE, k);
      TakeOut(id, side, price - MIN_PRICE, o, k);
      CountFits();
      CountedRefl(matchCount, fills);
      DidIt(Cancel(AbstractOf(s), id), Abstract(), fills, fills, matchCount, matchCount, exact, exact);
      ok := true;
    }

    /** Unlink, unregister and free an order found by its id. */
    method TakeOut(id: nat, side: Side, i: nat, o: nat, ghost k: nat)
      requires Valid() && i < PRICE_LEVELS && k < |Q(side)[i]| && Q(side)[i][k].handle == o && Q(side)[i][k].id == id
      requires orderTable.Length == MAX_ORDERS && orderTable[Slot(id)] == o < pool.arena.Length
               && pool.arena[o].id == id
      modifies Repr()
      ensures Valid() && Outcome(true, Abstract(), []) == Cancel(old(Abstract()), id)
      ensures fills == old(fills) && matchCount == old(matchCount) && exact == old(exact)
    {
      hide Core, TopsOk, Positive, Unlinked, Released, AbstractOf, OnlyLinks, Cancel, Valid, Shape, Dropped, Placed;
      ghost var s := Snap();
      Disassemble(side);
      CoreSide(s, {}, side);
      DroppedPositive(s.Q(side), i, k);
      Withdraw(side, i, o, k);
      ghost var s1 := Snap();
      UnlinkedInfo(s, side, i, k, s1);
      OnlyLinksInfo(s.a, s1.a, o);
      Discard(side, o);
      ghost var s2 := Snap();
      ReleasedInfo(s1, o, s2);
      CancelEffect(s, s1, s2, id, side, i, k);
      Assemble(side);
    }

    method ModifyOrder(id: nat, price: nat, qty: nat, ts: nat) returns (ok: bool)
      requires Valid() && qty < TWO32
      modifies Repr()
      ensures Valid()
      ensures Did(Modify(old(Abstract()), id, price, qty), ok, Abstract(), old(fills), fills, old(matchCount),
              matchCount, old(exact), exact)
    {
      hide AbstractOf, Lookup, Add, Core, TopsOk, Positive, Did;
      ghost var b, fills0, count0, exact0 := Abstract(), fills, matchCount, exact;
      var o := LookupOrder(id);
      if o == NIL {
        DidNothing(Abstract(), fills, matchCount, exact);
        return false;
      }
      var side, client := pool.arena[o].side, pool.arena[o].client;
      RepresentsInfo(pool.arena[o], side, Lookup(b, id).value.1);
      var cancelled := CancelOrder(id);
      ghost var b1, fills1, count1, exact1 := Abstract(), fills, matchCount, exact;
      DidBook(Cancel(b, id), cancelled, b1, fills0, fills1, count0, count1, exact0, exact1);
      ok := AddOrder(id, client, side, Limit, price, qty, ts);
      DidThen(Cancel(b, id), Modify(b, id, price, qty), ok, b1, Abstract(), fills0, fills1, fills, count0, count1,
        matchCount, exact0, exact1, exact);
    }

    /** `validate_bbo`: compare the cached best prices with a scan of every level. */
    method ValidateBbo() returns (ok: bool)
      requires Shape() && Core(Snap(), {})
      ensures ok <==> BestOk(Buy, bidQ, bestBid) && BestOk(Sell, askQ, bestAsk)
    {
      hide Core, BestOk;
      ghost var s := Snap();
      EmptyLevel(s, {}, Buy, 0);
      EmptyLevel(s, {}, Sell, 0);
      var bb := INVALID_PRICE;
      var p := MAX_PRICE;
      while p >= MIN_PRICE
        invariant 0 <= p <= MAX_PRICE && bb == INVALID_PRICE && |bidQ| == PRICE_LEVELS
        invariant forall i :: p <= i < PRICE_LEVELS ==> bidQ[i] == []
      {
        EmptyLevel(s, {}, Buy, p - MIN_PRICE);
        if !bids[p - MIN_PRICE].Empty() {
          bb := p;
          break;
        }
        p := p - 1;
      }
      ScannedBest(Buy, bidQ, bb);
      var ba := MAX_PRICE + 1;
      p := MIN_PRICE;
      while p <= MAX_PRICE
        invariant MIN_PRICE <= p <= MAX_PRICE + 1 && ba == MAX_PRICE + 1 && |askQ| == PRICE_LEVELS
        invariant forall i :: 0 <= i < p - MIN_PRICE ==> askQ[i] == []
      {
        EmptyLevel(s, {}, Sell, p - MIN_PRICE);
        if !asks[p - MIN_PRICE].Empty() {
          ba := p;
          break;
        }
        p := p + 1;
      }
      ScannedBest(Sell, askQ, ba);
      BestUnique(Buy, bidQ, bb, bestBid);
      BestUnique(Sell, askQ, ba, bestAsk);
      ok := bb == bestBid && ba == bestAsk;
    }
  }
}
