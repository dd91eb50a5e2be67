/** Constants and records shared by the book, the engine and their specification. */
module Types {
  const INVALID_PRICE: nat := 0
  const MIN_PRICE: nat := 1
  const MAX_PRICE: nat := 1_000_000
  const PRICE_LEVELS: nat := MAX_PRICE - MIN_PRICE + 1
  const MAX_ORDERS: nat := 0x10_0000
  const TWO31: nat := 0x8000_0000
  const TWO32: nat := 0x1_0000_0000
  const TWO64: nat := 0x1_0000_0000_0000_0000

  /** The null `Order*`; every other pointer is an arena index. */
  const NIL: int := -1

  datatype Option<+T> = None | Some(value: T)

  datatype Side = Buy | Sell {
    function Other(): Side { if this == Buy then Sell else Buy }
  }

  datatype OrderType = Limit | Market

  datatype Order = Order(price: nat, quantity: nat, filled: nat, side: Side, kind: OrderType,
                         prev: int, next: int, id: nat, client: nat, timestamp: nat)
  {
    function Remaining(): int { quantity - filled }
    predicate IsFilled() { filled >= quantity }
    /** `fill(q)`, on a uint32_t counter. */
    function Filled(q: nat): Order { this.(filled := (filled + q) % TWO32) }
  }

  datatype Fill = Fill(bidId: nat, askId: nat, bidClient: nat, askClient: nat, price: nat, quantity: nat)

  /** A resting order as a trader sees it, with the arena slot that holds it. */
  datatype Resting = Resting(handle: nat, id: nat, client: nat, price: nat, rem: nat)

  /** `id & ORDER_MASK`. */
  function Slot(id: nat): (s: nat)
    ensures s < MAX_ORDERS
  {
    id % MAX_ORDERS
  }

  function Min(a: int, b: int): int { if a <= b then a else b }

  function Handles(q: seq<Resting>): (hs: seq<nat>)
    ensures |hs| == |q|
    ensures forall i :: 0 <= i < |q| ==> hs[i] == q[i].handle
  {
    if q == [] then [] else [q[0].handle] + Handles(q[1..])
  }

  function SumRem(q: seq<Resting>): nat {
    if q == [] then 0 else q[0].rem + SumRem(q[1..])
  }

  lemma {:induction false} SumRemAppend(a: seq<Resting>, b: seq<Resting>)
    ensures SumRem(a + b) == SumRem(a) + SumRem(b)
  {
    if a == [] {
      assert a + b == b;
    } else {
      assert (a + b)[1..] == a[1..] + b;
      SumRemAppend(a[1..], b);
    }
  }

  lemma {:induction false} HandlesAppend(a: seq<Resting>, b: seq<Resting>)
    ensures Handles(a + b) == Handles(a) + Handles(b)
  {
  }
}
