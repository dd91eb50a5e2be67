/** Machine words as naturals: the uint64_t operations the price bitset uses, with what each does bit by bit. */
module Bits {
  const WORD_BITS: nat := 64

  function Pow2(k: nat): (r: nat)
    ensures r > 0
  {
    if k == 0 then 1 else 2 * Pow2(k - 1)
  }

  /** A uint64_t value. */
  ghost predicate IsWord(w: nat) { w < Pow2(WORD_BITS) }

  /** Bit k of w, that is `(w >> k) & 1`. */
  predicate Bit(w: nat, k: nat) {
    if k == 0 then w % 2 == 1 else Bit(w / 2, k - 1)
  }

  /** Bitwise `v | w`. */
  function Or(v: nat, w: nat): nat {
    if v == 0 && w == 0 then 0 else 2 * Or(v / 2, w / 2) + (if v % 2 == 1 || w % 2 == 1 then 1 else 0)
  }

  /** Bitwise `v & ~w`. */
  function AndNot(v: nat, w: nat): nat {
    if v == 0 then 0 else 2 * AndNot(v / 2, w / 2) + (if v % 2 == 1 && w % 2 == 0 then 1 else 0)
  }

  /** `__builtin_ctzll(w)`: undefined at zero in the source, a precondition here. */
  function Ctz(w: nat): nat
    requires w != 0
  {
    if w % 2 == 1 then 0 else 1 + Ctz(w / 2)
  }

  /** `63 - __builtin_clzll(w)`. */
  function TopBit(w: nat): nat
    requires w != 0
  {
    if w == 1 then 0 else 1 + TopBit(w / 2)
  }

  lemma {:induction false} ZeroHasNoBits(k: nat)
    ensures !Bit(0, k)
  {
    if k > 0 { ZeroHasNoBits(k - 1); }
  }

  lemma {:induction false} OrBit(v: nat, w: nat, k: nat)
    ensures Bit(Or(v, w), k) <==> Bit(v, k) || Bit(w, k)
    decreases k
  {
    if v == 0 && w == 0 {
      ZeroHasNoBits(k);
    } else if k > 0 {
      OrBit(v / 2, w / 2, k - 1);
    }
  }

  lemma {:induction false} AndNotBit(v: nat, w: nat, k: nat)
    ensures Bit(AndNot(v, w), k) <==> Bit(v, k) && !Bit(w, k)
    decreases k
  {
    if v == 0 {
      ZeroHasNoBits(k);
    } else if k > 0 {
      AndNotBit(v / 2, w / 2, k - 1);
    }
  }

  lemma {:induction false} Pow2Bit(n: nat, k: nat)
    ensures Bit(Pow2(n), k) <==> k == n
  {
    if n == 0 {
      if k > 0 { ZeroHasNoBits(k - 1); }
    } else if k > 0 {
      Pow2Bit(n - 1, k - 1);
    }
  }

  lemma {:induction false} OrBound(v: nat, w: nat, n: nat)
    requires v < Pow2(n) && w < Pow2(n)
    ensures Or(v, w) < Pow2(n)
  {
    if n > 0 && !(v == 0 && w == 0) { OrBound(v / 2, w / 2, n - 1); }
  }

  lemma {:induction false} AndNotBound(v: nat, w: nat)
    ensures AndNot(v, w) <= v
  {
    if v != 0 { AndNotBound(v / 2, w / 2); }
  }

  lemma {:induction false} Pow2Increases(m: nat, n: nat)
    requires m < n
    ensures Pow2(m) < Pow2(n)
  {
    if m + 1 < n { Pow2Increases(m, n - 1); }
  }

  /** Bits at or above the width of the value are clear. */
  lemma {:induction false} HighBitsClear(w: nat, n: nat, k: nat)
    requires w < Pow2(n) && n <= k
    ensures !Bit(w, k)
  {
    if n == 0 {
      ZeroHasNoBits(k);
    } else {
      HighBitsClear(w / 2, n - 1, k - 1);
    }
  }

  /** `ctz` finds the least set bit. */
  lemma {:induction false} CtzIsLowest(w: nat, k: nat)
    requires w != 0
    ensures Bit(w, Ctz(w))
    ensures Bit(w, k) ==> Ctz(w) <= k
    decreases w
  {
    if w % 2 == 0 { CtzIsLowest(w / 2, if k == 0 then 0 else k - 1); }
  }

  /** `63 - clz` finds the greatest set bit. */
  lemma {:induction false} TopBitIsHighest(w: nat, k: nat)
    requires w != 0
    ensures Bit(w, TopBit(w))
    ensures Bit(w, k) ==> k <= TopBit(w)
    decreases w
  {
    if w == 1 {
      if k > 0 { ZeroHasNoBits(k - 1); }
    } else {
      TopBitIsHighest(w / 2, if k == 0 then 0 else k - 1);
    }
  }

  /** A non-zero word has a set bit, at a position below the word size. */
  lemma NonZeroWord(w: nat)
    requires IsWord(w) && w != 0
    ensures Ctz(w) < WORD_BITS && TopBit(w) < WORD_BITS && Bit(w, Ctz(w)) && Bit(w, TopBit(w))
  {
    CtzIsLowest(w, 0);
    TopBitIsHighest(w, 0);
    if Ctz(w) >= WORD_BITS { HighBitsClear(w, WORD_BITS, Ctz(w)); }
    if TopBit(w) >= WORD_BITS { HighBitsClear(w, WORD_BITS, TopBit(w)); }
  }

  /** `w |= 1ULL << k` sets bit k and no other. */
  lemma SetBit(w: nat, k: nat)
    requires IsWord(w) && k < WORD_BITS
    ensures IsWord(Or(w, Pow2(k))) && Or(w, Pow2(k)) != 0
    ensures forall j: nat :: Bit(Or(w, Pow2(k)), j) <==> j == k || Bit(w, j)
  {
    Pow2Increases(k, WORD_BITS);
    OrBound(w, Pow2(k), WORD_BITS);
    forall j: nat ensures Bit(Or(w, Pow2(k)), j) <==> j == k || Bit(w, j) {
      OrBit(w, Pow2(k), j);
      Pow2Bit(k, j);
    }
    ZeroHasNoBits(k);
    assert Bit(Or(w, Pow2(k)), k);
  }

  /** `w &= ~(1ULL << k)` clears bit k and no other. */
  lemma ClearBit(w: nat, k: nat)
    requires IsWord(w) && k < WORD_BITS
    ensures IsWord(AndNot(w, Pow2(k)))
    ensures forall j: nat :: Bit(AndNot(w, Pow2(k)), j) <==> j != k && Bit(w, j)
  {
    AndNotBound(w, Pow2(k));
    forall j: nat ensures Bit(AndNot(w, Pow2(k)), j) <==> j != k && Bit(w, j) {
      AndNotBit(w, Pow2(k), j);
      Pow2Bit(k, j);
    }
  }
}
