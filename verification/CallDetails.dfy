/** What each call does to each field, in numbers: the orders it leaves and the fills it makes, told without the
    functions that build them. */
module CallDetails {
  import opened Types
  import opened BookSpec
  import opened MatchLaws
  import opened BookLaws
  import opened CallLaws
  import opened Ladder
  import opened SeqFacts

  /** A new order joined the queue: behind every order of equal or better price, before every worse one, under its own
      id, client, price and remainder. */
  ghost predicate Joined(own: seq<Resting>, own': seq<Resting>, k: nat, id: nat, client: nat, side: Side, price: nat,
                         rem: nat) {
    && k <= |own| && |own'| == |own| + 1 && own'[..k] == own[..k] && own'[k + 1..] == own[k..]
    && own'[k].id == id && own'[k].client == client && own'[k].price == price && own'[k].rem == rem
    && (side == Buy ==> forall i :: 0 <= i < |own| ==> (own[i].price >= price <==> i < k))
    && (side == Sell ==> forall i :: 0 <= i < |own| ==> (own[i].price <= price <==> i < k))
  }

  ghost predicate Rested(own: seq<Resting>, own': seq<Resting>, id: nat, client: nat, side: Side, price: nat, rem: nat)
  {
    exists k :: Joined(own, own', k, id, client, side, price, rem)
  }

  /** The fill is between the submitted order and the resting order r, at r's price and within the limit. */
  predicate Trades(f: Fill, r: Resting, id: nat, client: nat, side: Side, kind: OrderType, price: nat) {
    && f.price == r.price && f.quantity <= r.rem
    && (side == Buy ==> f.bidId == id && f.bidClient == client && f.askId == r.id && f.askClient == r.client)
    && (side == Sell ==> f.askId == id && f.askClient == client && f.bidId == r.id && f.bidClient == r.client)
    && (side == Buy && kind == Limit ==> f.price <= price)
    && (side == Sell && kind == Limit ==> price <= f.price)
  }

  /** What is left of the opposite side after n orders have gone from its front and the next one may have shrunk. */
  predicate Consumed(opp: seq<Resting>, opp': seq<Resting>, n: nat) {
    && n <= |opp| && |opp'| == |opp| - n
    && (opp' != [] ==> opp'[0] == opp[n].(rem := opp'[0].rem) && 0 < opp'[0].rem <= opp[n].rem)
    && forall i :: 0 < i < |opp'| ==> opp'[i] == opp[n + i]
  }

  /** An order was submitted: its fills take the opposite side from the front for as long as the limit admits it,
      quantity is conserved, and what is left of a limit order joins its own side, whereas a market order leaves that
      side alone. */
  ghost predicate Submitted(own: seq<Resting>, opp: seq<Resting>, own': seq<Resting>, opp': seq<Resting>,
                            fills: seq<Fill>, id: nat, client: nat, side: Side, kind: OrderType, price: nat, qty: nat) {
    && |fills| <= |opp| && SumFills(fills) <= qty
    && (forall i :: 0 <= i < |fills| ==> Trades(fills[i], opp[i], id, client, side, kind, price))
    && SumRem(opp') + SumFills(fills) == SumRem(opp) && (exists n :: Consumed(opp, opp', n))
    && (SumFills(fills) < qty && opp' != [] ==> kind == Limit)
    && (SumFills(fills) < qty && opp' != [] && side == Buy ==> opp'[0].price > price)
    && (SumFills(fills) < qty && opp' != [] && side == Sell ==> opp'[0].price < price)
    && (kind == Limit && SumFills(fills) < qty ==>
          Rested(own, own', id, client, side, price, qty - SumFills(fills)))
    && (kind == Market || SumFills(fills) == qty ==> own' == own)
  }

  /** The order with this id left the queue, and no other. */
  predicate Left(q: seq<Resting>, q': seq<Resting>, k: nat, id: nat) {
    k < |q| && q[k].id == id && q' == q[..k] + q[k + 1..]
  }

  // ----- Add -----

  lemma FillTrades(t: Taker, opp: seq<Resting>, qty: nat, kind: OrderType, price: nat, i: nat)
    requires i < |Match(t, opp, qty).fills| && t.limit == if kind == Limit then Some(price) else None
    ensures i < |opp| && Trades(Match(t, opp, qty).fills[i], opp[i], t.id, t.client, t.side, kind, price)
  {
    hide Match;
    FillsInDetail(t, opp, qty, i);
  }

  lemma MatchConsumes(t: Taker, opp: seq<Resting>, qty: nat) returns (n: nat)
    requires AllPositive(opp)
    ensures Consumed(opp, Match(t, opp, qty).rest, n) && |Match(t, opp, qty).fills| <= |opp|
  {
    hide Match, Records, Within;
    var k, p := MatchTakesPrefix(t, opp, qty);
    n := k;
  }

  lemma InsertJoins(side: Side, own: seq<Resting>, r: Resting) returns (k: nat)
    requires Sorted(side, own)
    ensures Joined(own, Insert(side, own, r), k, r.id, r.client, side, r.price, r.rem)
  {
    hide Insert, Sorted, Better;
    k := InsertPosition(side, own, r);
    var own' := Insert(side, own, r);
    assert own'[..k] == own[..k] && own'[k + 1..] == own[k..];
  }

  lemma MatchSubmits(t: Taker, own: seq<Resting>, opp: seq<Resting>, own': seq<Resting>, kind: OrderType, price: nat,
                     qty: nat, h: nat)
    requires AllPositive(opp) && Sorted(t.side.Other(), opp) && Sorted(t.side, own)
    requires t.limit == if kind == Limit then Some(price) else None
    requires var m := Match(t, opp, qty);
             own' == if m.left > 0 && kind == Limit
                     then Insert(t.side, own, Resting(h, t.id, t.client, price, m.left))
                     else own
    ensures var m := Match(t, opp, qty);
            Submitted(own, opp, own', m.rest, m.fills, t.id, t.client, t.side, kind, price, qty)
  {
    hide Match, Insert, Sorted, Joined, Consumed, Trades, AllPositive;
    var m := Match(t, opp, qty);
    MatchConserves(t, opp, qty);
    MatchIsMaximal(t, opp, qty);
    var n := MatchConsumes(t, opp, qty);
    forall i | 0 <= i < |m.fills| ensures Trades(m.fills[i], opp[i], t.id, t.client, t.side, kind, price) {
      FillTrades(t, opp, qty, kind, price, i);
    }
    if m.left > 0 && kind == Limit {
      var k := InsertJoins(t.side, own, Resting(h, t.id, t.client, price, m.left));
    }
  }

  /** An add is accepted exactly while a cell is free and a limit price in range; it then submits the order it was
      given. */
  lemma AddInDetail(b: Book, capacity: nat, id: nat, client: nat, side: Side, kind: OrderType, price: nat, qty: nat)
    requires BookOk(b, capacity)
    ensures var out := Add(b, id, client, side, kind, price, qty);
            && (out.ok <==> b.free != [] && (kind == Limit ==> 1 <= price <= 1_000_000))
            && (!out.ok ==> out.book == b && out.fills == [])
            && (out.ok && side == Buy ==>
                  Submitted(b.bids, b.asks, out.book.bids, out.book.asks, out.fills, id, client, Buy, kind, price, qty))
            && (out.ok && side == Sell ==>
                  Submitted(b.asks, b.bids, out.book.asks, out.book.bids, out.fills, id, client, Sell, kind, price,
                            qty))
  {
    hide Add, Match, Insert, Submitted;
    AddFields(b, id, client, side, kind, price, qty);
    OppositeOk(b, capacity, side);
    OppositeOk(b, capacity, side.Other());
    hide BookOk, Sorted, AllPositive;
    var out := Add(b, id, client, side, kind, price, qty);
    if out.ok {
      var h := b.free[|b.free| - 1];
      MatchSubmits(TakerOf(id, client, side, kind, price), b.Queue(side), b.Queue(side.Other()), out.book.Queue(side),
                   kind, price, qty, h);
    }
  }

  // ----- Cancel and modify -----

  lemma WithoutLeft(q: seq<Resting>, j: nat)
    requires j < |q| && NoDup(Handles(q))
    ensures Left(q, Without(q, q[j].handle), j, q[j].id)
  {
    hide NoDup, Without, Handles;
    forall m | 0 <= m < |q| && q[m].handle == q[j].handle ensures m == j { SameHandle(q, m, j); }
    RemoveOnly(q, j);
  }

  /** A cancel that succeeds takes out one order, the one with the id; one that fails leaves the book alone. */
  lemma CancelInDetail(b: Book, capacity: nat, id: nat) returns (side: Side, k: nat)
    requires BookOk(b, capacity)
    ensures var out := Cancel(b, id);
            && out.fills == [] && (!out.ok ==> out.book == b) && (out.ok <==> Lookup(b, id).Some?)
            && (out.ok && side == Buy ==> Left(b.bids, out.book.bids, k, id) && out.book.asks == b.asks)
            && (out.ok && side == Sell ==> Left(b.asks, out.book.asks, k, id) && out.book.bids == b.bids)
            && (out.ok ==> k < |b.Queue(side)| && Lookup(b, id).value == (side, b.Queue(side)[k]))
  {
    hide Cancel, Lookup, Without, Find, QueueOk, Uncrossed, IndexOk, Cells, NoDup, Handles, Left;
    CancelFields(b, id);
    side, k := Buy, 0;
    if Lookup(b, id).Some? {
      var (x, r) := Lookup(b, id).value;
      side := x;
      LookupStands(b, id);
      HandlesOnce(b, capacity);
      k := FindAt(b.Queue(side), r.handle);
      WithoutLeft(b.Queue(side), k);
    }
  }

  /** A modify that succeeds takes out the order with the id and submits it anew, on its side and for its client, at the
      new price and quantity. One that fails for its price has taken the order out; one that fails for its id has
      not. */
  lemma ModifyInDetail(b: Book, capacity: nat, id: nat, price: nat, qty: nat)
    returns (side: Side, k: nat, own: seq<Resting>)
    requires BookOk(b, capacity)
    ensures var out := Modify(b, id, price, qty);
            && (out.ok <==> Lookup(b, id).Some? && 1 <= price <= 1_000_000) && (!out.ok ==> out.fills == [])
            && (Lookup(b, id).None? ==> out.book == b)
            && (Lookup(b, id).Some? && side == Buy ==> Left(b.bids, own, k, id))
            && (Lookup(b, id).Some? && side == Sell ==> Left(b.asks, own, k, id))
            && (Lookup(b, id).Some? && !out.ok && side == Buy ==> out.book.bids == own && out.book.asks == b.asks)
            && (Lookup(b, id).Some? && !out.ok && side == Sell ==> out.book.asks == own && out.book.bids == b.bids)
            && (out.ok && side == Buy ==>
                  Submitted(own, b.asks, out.book.bids, out.book.asks, out.fills, id, b.bids[k].client, Buy, Limit,
                            price, qty))
            && (out.ok && side == Sell ==>
                  Submitted(own, b.bids, out.book.asks, out.book.bids, out.fills, id, b.asks[k].client, Sell, Limit,
                            price, qty))
  {
    hide Add, Cancel, Lookup, BookOk, Submitted;
    side, k := CancelInDetail(b, capacity, id);
    var b1 := Cancel(b, id).book;
    own := b1.Queue(side);
    CancelFields(b, id);
    ModifySucceeds(b, id, price, qty);
    if Lookup(b, id).Some? {
      CancelKeeps(b, capacity, id);
      AddInDetail(b1, capacity, id, b.Queue(side)[k].client, side, Limit, price, qty);
    }
  }
}
