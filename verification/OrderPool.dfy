/** The pre-allocated order arena with its LIFO free list. */
module OrderPool {
  import opened Types
  import opened BookSpec

  const BLANK := Order(0, 0, 0, Buy, Limit, NIL, NIL, 0, 0, 0)

  class OrderPool {
    const arena: array<Order>
    var freeList: seq<nat>

    constructor (capacity: nat)
      ensures fresh(arena) && arena.Length == capacity
      ensures freeList == InitialFree(capacity) && |freeList| == capacity
      ensures forall i :: 0 <= i < capacity ==> freeList[i] == capacity - 1 - i
    {
      arena := new Order[capacity](_ => BLANK);
      var list: seq<nat> := [];
      var i := capacity;
      while i > 0
        invariant 0 <= i <= capacity
        invariant list == InitialFree(capacity)[..capacity - i]
      {
        list := list + [i - 1];
        i := i - 1;
      }
      freeList := list;
    }

    method Allocate() returns (o: nat)
      requires freeList != []
      modifies this
      ensures old(freeList) == freeList + [o]
    {
      o := freeList[|freeList| - 1];
      freeList := freeList[..|freeList| - 1];
    }

    method Deallocate(o: nat)
      requires o < arena.Length
      modifies this, arena
      ensures freeList == old(freeList) + [o]
      ensures arena[..] == old(arena[..])[o := old(arena[o]).(prev := NIL, next := NIL, filled := 0)]
    {
      arena[o] := arena[o].(prev := NIL);
      arena[o] := arena[o].(next := NIL);
      arena[o] := arena[o].(filled := 0);
      freeList := freeList + [o];
    }

    method Available() returns (n: nat)
      ensures n == |freeList|
    {
      n := |freeList|;
    }
  }
}
