/** The order book as a trader sees it: two queues sorted by price then arrival, and a recursive match.
    Beside them stand the id index and the free list, so that the specification is exact even when ids collide. */
module BookSpec {
  import opened Types

  // ----- Matching -----

  /** The incoming side of a match; a market order has no limit. */
  datatype Taker = Taker(id: nat, client: nat, side: Side, limit: Option<nat>)

  predicate Crosses(t: Taker, price: nat) {
    match t.limit
    case None => true
    case Some(limit) => if t.side == Buy then price <= limit else limit <= price
  }

  function MakeFill(t: Taker, r: Resting, q: nat): Fill {
    if t.side == Buy then Fill(t.id, r.id, t.client, r.client, r.price, q)
    else Fill(r.id, t.id, r.client, t.client, r.price, q)
  }

  /** `done` are the resting orders filled completely, `rest` what is left of the opposite side,
      `left` what is left of the taker. */
  datatype Matched = Matched(fills: seq<Fill>, done: seq<Resting>, rest: seq<Resting>, left: nat)

  function Match(t: Taker, opp: seq<Resting>, qty: nat): Matched {
    if qty == 0 || opp == [] || !Crosses(t, opp[0].price) then
      Matched([], [], opp, qty)
    else if qty < opp[0].rem then
      Matched([MakeFill(t, opp[0], qty)], [], [opp[0].(rem := opp[0].rem - qty)] + opp[1..], 0)
    else
      var m := Match(t, opp[1..], qty - opp[0].rem);
      Matched([MakeFill(t, opp[0], opp[0].rem)] + m.fills, [opp[0]] + m.done, m.rest, m.left)
  }

  // ----- The sorted queues -----

  /** Price p has priority over price q on the given side. */
  predicate Better(side: Side, p: nat, q: nat) { if side == Buy then p > q else p < q }

  /** Join behind every order at the same or a better price. */
  function Insert(side: Side, s: seq<Resting>, r: Resting): seq<Resting> {
    if s == [] || Better(side, r.price, s[0].price) then [r] + s else [s[0]] + Insert(side, s[1..], r)
  }

  function Find(s: seq<Resting>, h: nat): Option<Resting> {
    if s == [] then None else if s[0].handle == h then Some(s[0]) else Find(s[1..], h)
  }

  function Without(s: seq<Resting>, h: nat): seq<Resting> {
    if s == [] then [] else if s[0].handle == h then Without(s[1..], h) else [s[0]] + Without(s[1..], h)
  }

  // ----- The book -----

  datatype Book = Book(bids: seq<Resting>, asks: seq<Resting>, index: map<nat, nat>, free: seq<nat>) {
    function Queue(side: Side): seq<Resting> { if side == Buy then bids else asks }
    function WithQueue(side: Side, s: seq<Resting>): Book {
      if side == Buy then this.(bids := s) else this.(asks := s)
    }
  }

  /** What a call returns, the book it leaves, and the fills it appends. */
  datatype Outcome = Outcome(ok: bool, book: Book, fills: seq<Fill>)

  function InitialFree(capacity: nat): seq<nat> { seq(capacity, i requires 0 <= i < capacity => capacity - 1 - i) }

  function InitialBook(capacity: nat): Book { Book([], [], map[], InitialFree(capacity)) }

  function Unregister(index: map<nat, nat>, done: seq<Resting>): map<nat, nat> {
    if done == [] then index else Unregister(index - {Slot(done[0].id)}, done[1..])
  }

  predicate Acceptable(b: Book, kind: OrderType, price: nat) {
    b.free != [] && (kind == Limit ==> MIN_PRICE <= price <= MAX_PRICE)
  }

  function TakerOf(id: nat, client: nat, side: Side, kind: OrderType, price: nat): Taker {
    Taker(id, client, side, if kind == Limit then Some(price) else None)
  }

  /** The match an acceptable order starts with. */
  function MatchOf(b: Book, id: nat, client: nat, side: Side, kind: OrderType, price: nat, qty: nat): Matched {
    Match(TakerOf(id, client, side, kind, price), b.Queue(side.Other()), qty)
  }

  function Add(b: Book, id: nat, client: nat, side: Side, kind: OrderType, price: nat, qty: nat): Outcome {
    if !Acceptable(b, kind, price) then Outcome(false, b, [])
    else
      var h := b.free[|b.free| - 1];
      var m := MatchOf(b, id, client, side, kind, price, qty);
      var matched := b.WithQueue(side.Other(), m.rest).(
        index := Unregister(b.index[Slot(id) := h], m.done),
        free := b.free[..|b.free| - 1] + Handles(m.done));
      if m.left > 0 && kind == Limit then
        var own := Insert(side, b.Queue(side), Resting(h, id, client, price, m.left));
        Outcome(true, matched.WithQueue(side, own), m.fills)
      else
        Outcome(true, matched.(index := matched.index - {Slot(id)}, free := matched.free + [h]), m.fills)
  }

  /** The resting order the id table leads to. */
  function Lookup(b: Book, id: nat): Option<(Side, Resting)> {
    if Slot(id) !in b.index then None
    else
      var h := b.index[Slot(id)];
      match (Find(b.bids, h), Find(b.asks, h))
      case (Some(r), _) => if r.id == id then Some((Buy, r)) else None
      case (None, Some(r)) => if r.id == id then Some((Sell, r)) else None
      case (None, None) => None
  }

  function Cancel(b: Book, id: nat): Outcome {
    match Lookup(b, id)
    case None => Outcome(false, b, [])
    case Some((side, r)) =>
      Outcome(true,
              b.WithQueue(side, Without(b.Queue(side), r.handle)).(
                index := b.index - {Slot(id)}, free := b.free + [r.handle]),
              [])
  }

  function Modify(b: Book, id: nat, price: nat, qty: nat): Outcome {
    match Lookup(b, id)
    case None => Outcome(false, b, [])
    case Some((side, r)) => Add(Cancel(b, id).book, id, r.client, side, Limit, price, qty)
  }

  // ----- Runs -----

  datatype Op =
    | AddOp(id: nat, client: nat, side: Side, kind: OrderType, price: nat, qty: nat)
    | CancelOp(id: nat)
    | ModifyOp(id: nat, price: nat, qty: nat)

  function Apply(b: Book, op: Op): Outcome {
    match op
    case AddOp(id, client, side, kind, price, qty) => Add(b, id, client, side, kind, price, qty)
    case CancelOp(id) => Cancel(b, id)
    case ModifyOp(id, price, qty) => Modify(b, id, price, qty)
  }

  /** The outcomes of a run, one per call. */
  function Run(b: Book, ops: seq<Op>): (r: seq<Outcome>)
    ensures |r| == |ops|
    decreases |ops|
  {
    if ops == [] then [] else [Apply(b, ops[0])] + Run(Apply(b, ops[0]).book, ops[1..])
  }

  function After(b: Book, ops: seq<Op>): Book
    decreases |ops|
  {
    if ops == [] then b else After(Apply(b, ops[0]).book, ops[1..])
  }
}
