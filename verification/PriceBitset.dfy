/** The three-tier occupancy bitset, over any number of price levels. */
module PriceBitset {
  import opened Bits
  import opened Types

  /** Words needed for n bits. */
  function Words(n: nat): nat { (n + 63) / 64 }

  ghost predicate AreWords(words: seq<nat>) { forall w :: 0 <= w < |words| ==> IsWord(words[w]) }

  /** Bit i of a bit array packed 64 to a word. */
  ghost predicate BitAt(words: seq<nat>, i: nat) { i / 64 < |words| && Bit(words[i / 64], i % 64) }

  /** The bitset's own invariant: bit w of `hi` is set iff word w of `lo` is non-zero. */
  ghost predicate Summarises(hi: seq<nat>, lo: seq<nat>) {
    && AreWords(hi) && |hi| == Words(|lo|)
    && forall w: nat {:trigger BitAt(hi, w)} :: BitAt(hi, w) <==> w < |lo| && lo[w] != 0
  }

  ghost function SetAt(words: seq<nat>, i: nat): seq<nat>
    requires i / 64 < |words|
  {
    words[i / 64 := Or(words[i / 64], Pow2(i % 64))]
  }

  ghost function ClearAt(words: seq<nat>, i: nat): seq<nat>
    requires i / 64 < |words|
  {
    words[i / 64 := AndNot(words[i / 64], Pow2(i % 64))]
  }

  lemma SetAtBits(words: seq<nat>, i: nat)
    requires AreWords(words) && i / 64 < |words|
    ensures AreWords(SetAt(words, i)) && SetAt(words, i)[i / 64] != 0
    ensures forall j: nat :: BitAt(SetAt(words, i), j) <==> j == i || BitAt(words, j)
  {
    SetBit(words[i / 64], i % 64);
  }

  lemma ClearAtBits(words: seq<nat>, i: nat)
    requires AreWords(words) && i / 64 < |words|
    ensures AreWords(ClearAt(words, i))
    ensures forall j: nat :: BitAt(ClearAt(words, i), j) <==> j != i && BitAt(words, j)
    ensures ClearAt(words, i)[i / 64] != 0 ==> words[i / 64] != 0
  {
    ClearBit(words[i / 64], i % 64);
    AndNotBound(words[i / 64], Pow2(i % 64));
  }

  /** Setting bit i below and bit i/64 above keeps the tiers in step. */
  lemma SetKeepsSummary(hi: seq<nat>, lo: seq<nat>, i: nat)
    requires AreWords(lo) && Summarises(hi, lo) && i / 64 < |lo|
    ensures Summarises(SetAt(hi, i / 64), SetAt(lo, i))
  {
    SetAtBits(lo, i);
    SetAtBits(hi, i / 64);
  }

  /** Clearing bit i below keeps the tiers in step, where the bit above is cleared only if the word became zero. */
  lemma ClearKeepsSummary(hi: seq<nat>, lo: seq<nat>, i: nat)
    requires AreWords(lo) && Summarises(hi, lo) && i / 64 < |lo|
    ensures ClearAt(lo, i)[i / 64] != 0 ==> Summarises(hi, ClearAt(lo, i))
    ensures ClearAt(lo, i)[i / 64] == 0 ==> Summarises(ClearAt(hi, i / 64), ClearAt(lo, i))
  {
    ClearAtBits(lo, i);
    ClearAtBits(hi, i / 64);
  }

  /** A non-zero word at position w of a tier: its top bit is the greatest set bit of the words up to w. */
  lemma TopOfWord(words: seq<nat>, w: nat)
    requires AreWords(words) && w < |words| && words[w] != 0
    ensures TopBit(words[w]) < 64
    ensures BitAt(words, 64 * w + TopBit(words[w]))
    ensures forall j: nat :: BitAt(words, j) && j / 64 <= w ==> j <= 64 * w + TopBit(words[w])
  {
    NonZeroWord(words[w]);
    forall j: nat | BitAt(words, j) && j / 64 == w ensures j <= 64 * w + TopBit(words[w]) {
      TopBitIsHighest(words[w], j % 64);
    }
    assert (64 * w + TopBit(words[w])) / 64 == w;
  }

  lemma BottomOfWord(words: seq<nat>, w: nat)
    requires AreWords(words) && w < |words| && words[w] != 0
    ensures Ctz(words[w]) < 64
    ensures BitAt(words, 64 * w + Ctz(words[w]))
    ensures forall j: nat :: BitAt(words, j) && j / 64 >= w ==> j >= 64 * w + Ctz(words[w])
  {
    NonZeroWord(words[w]);
    forall j: nat | BitAt(words, j) && j / 64 == w ensures j >= 64 * w + Ctz(words[w]) {
      CtzIsLowest(words[w], j % 64);
    }
    assert (64 * w + Ctz(words[w])) / 64 == w;
  }

  /** A set bit below lies in a word whose bit above is set. */
  lemma BitSummarised(hi: seq<nat>, lo: seq<nat>, i: nat)
    requires Summarises(hi, lo) && BitAt(lo, i)
    ensures BitAt(hi, i / 64)
  {
    if lo[i / 64] == 0 { ZeroHasNoBits(i % 64); }
  }

  /** The top bits of the two upper tiers lead to the greatest set bit at or below word w of the upper one. */
  lemma TopOfTier(hi: seq<nat>, lo: seq<nat>, w: nat)
    requires AreWords(lo) && Summarises(hi, lo) && w < |hi| && hi[w] != 0
    ensures var v := 64 * w + TopBit(hi[w]);
            v < |lo| && lo[v] != 0 && forall j: nat :: BitAt(lo, j) && j / 64 / 64 <= w ==> j / 64 <= v
  {
    TopOfWord(hi, w);
    forall j: nat | BitAt(lo, j) && j / 64 / 64 <= w ensures j / 64 <= 64 * w + TopBit(hi[w]) {
      BitSummarised(hi, lo, j);
    }
  }

  lemma BottomOfTier(hi: seq<nat>, lo: seq<nat>, w: nat)
    requires AreWords(lo) && Summarises(hi, lo) && w < |hi| && hi[w] != 0
    ensures var v := 64 * w + Ctz(hi[w]);
            v < |lo| && lo[v] != 0 && forall j: nat :: BitAt(lo, j) && j / 64 / 64 >= w ==> j / 64 >= v
  {
    BottomOfWord(hi, w);
    forall j: nat | BitAt(lo, j) && j / 64 / 64 >= w ensures j / 64 >= 64 * w + Ctz(hi[w]) {
      BitSummarised(hi, lo, j);
    }
  }

  /** The greatest set bit of the whole array, found from the greatest non-zero word of the top tier. */
  lemma TopThroughTiers(a2: seq<nat>, a1: seq<nat>, a0: seq<nat>, w2: nat) returns (w1: nat, w0: nat, i: nat)
    requires AreWords(a0) && Summarises(a1, a0) && Summarises(a2, a1)
    requires w2 < |a2| && a2[w2] != 0 && forall w :: w2 < w < |a2| ==> a2[w] == 0
    ensures w1 == 64 * w2 + TopBit(a2[w2]) && w1 < |a1| && a1[w1] != 0
    ensures w0 == 64 * w1 + TopBit(a1[w1]) && w0 < |a0| && a0[w0] != 0
    ensures i == 64 * w0 + TopBit(a0[w0]) && BitAt(a0, i)
    ensures forall j: nat :: BitAt(a0, j) ==> j <= i
  {
    TopOfTier(a2, a1, w2);
    w1 := 64 * w2 + TopBit(a2[w2]);
    TopOfTier(a1, a0, w1);
    w0 := 64 * w1 + TopBit(a1[w1]);
    TopOfWord(a0, w0);
    i := 64 * w0 + TopBit(a0[w0]);
    forall j: nat | BitAt(a0, j) ensures j <= i {
      BitSummarised(a1, a0, j);
      BitSummarised(a2, a1, j / 64);
      if a2[j / 64 / 64 / 64] == 0 { ZeroHasNoBits(j / 64 / 64 % 64); }
    }
  }

  /** The least set bit of the whole array, found from the least non-zero word of the top tier. */
  lemma BottomThroughTiers(a2: seq<nat>, a1: seq<nat>, a0: seq<nat>, w2: nat) returns (w1: nat, w0: nat, i: nat)
    requires AreWords(a0) && Summarises(a1, a0) && Summarises(a2, a1)
    requires w2 < |a2| && a2[w2] != 0 && forall w :: 0 <= w < w2 ==> a2[w] == 0
    ensures w1 == 64 * w2 + Ctz(a2[w2]) && w1 < |a1| && a1[w1] != 0
    ensures w0 == 64 * w1 + Ctz(a1[w1]) && w0 < |a0| && a0[w0] != 0
    ensures i == 64 * w0 + Ctz(a0[w0]) && BitAt(a0, i)
    ensures forall j: nat :: BitAt(a0, j) ==> i <= j
  {
    BottomOfTier(a2, a1, w2);
    w1 := 64 * w2 + Ctz(a2[w2]);
    BottomOfTier(a1, a0, w1);
    w0 := 64 * w1 + Ctz(a1[w1]);
    BottomOfWord(a0, w0);
    i := 64 * w0 + Ctz(a0[w0]);
    forall j: nat | BitAt(a0, j) ensures i <= j {
      BitSummarised(a1, a0, j);
      BitSummarised(a2, a1, j / 64);
      if a2[j / 64 / 64 / 64] == 0 { ZeroHasNoBits(j / 64 / 64 % 64); }
    }
  }

  /** A zero top tier means no bit is set. */
  lemma NothingThroughTiers(a2: seq<nat>, a1: seq<nat>, a0: seq<nat>)
    requires Summarises(a1, a0) && Summarises(a2, a1)
    requires forall w :: 0 <= w < |a2| ==> a2[w] == 0
    ensures forall j: nat :: !BitAt(a0, j)
  {
    forall j: nat ensures !BitAt(a0, j) {
      if BitAt(a0, j) {
        BitSummarised(a1, a0, j);
        BitSummarised(a2, a1, j / 64);
        ZeroHasNoBits(j / 64 / 64 % 64);
      }
    }
  }

  class PriceBitset {
    const size: nat
    const l0: array<nat>
    const l1: array<nat>
    const l2: array<nat>

    ghost predicate Valid()
      reads l0, l1, l2
    {
      && l0 != l1 && l1 != l2 && l0 != l2
      && l0.Length == Words(size) && AreWords(l0[..])
      && Summarises(l1[..], l0[..]) && Summarises(l2[..], l1[..])
      && forall i: nat :: BitAt(l0[..], i) ==> i < size
    }

    /** The object is none of the bitset's arrays. */
    ghost predicate Outside(o: object) { o != l0 && o != l1 && o != l2 }

    ghost predicate Apart(that: PriceBitset) { Outside(that.l0) && Outside(that.l1) && Outside(that.l2) }

    /** The set of levels the bitset represents. */
    ghost function Members(): (s: set<nat>)
      reads l0
      ensures forall i: nat :: i in s <==> i < size && BitAt(l0[..], i)
    {
      set i: nat | i < size && BitAt(l0[..], i)
    }

    constructor (n: nat)
      ensures Valid() && size == n && Members() == {}
      ensures fresh(l0) && fresh(l1) && fresh(l2)
    {
      size := n;
      l0 := new nat[Words(n)](_ => 0);
      l1 := new nat[Words(Words(n))](_ => 0);
      l2 := new nat[Words(Words(Words(n)))](_ => 0);
      new;
      forall k: nat ensures !Bit(0, k) { ZeroHasNoBits(k); }
    }

    method Set(i: nat)
      requires Valid() && i < size
      modifies l0, l1, l2
      ensures Valid() && Members() == old(Members()) + {i}
    {
      var w0 := i / 64;
      var w1 := w0 / 64;
      ghost var a0, a1, a2 := l0[..], l1[..], l2[..];
      SetKeepsSummary(a1, a0, i);
      SetKeepsSummary(a2, a1, w0);
      SetAtBits(a0, i);
      l0[w0] := Or(l0[w0], Pow2(i % 64));
      l1[w1] := Or(l1[w1], Pow2(w0 % 64));
      l2[w1 / 64] := Or(l2[w1 / 64], Pow2(w1 % 64));
      assert l0[..] == SetAt(a0, i) && l1[..] == SetAt(a1, w0) && l2[..] == SetAt(a2, w1);
    }

    method Clear(i: nat)
      requires Valid() && i < size
      modifies l0, l1, l2
      ensures Valid() && Members() == old(Members()) - {i}
    {
      var w0 := i / 64;
      ghost var a0, a1, a2 := l0[..], l1[..], l2[..];
      ClearKeepsSummary(a1, a0, i);
      ClearKeepsSummary(a2, a1, w0);
      ClearAtBits(a0, i);
      ClearAtBits(a1, w0);
      l0[w0] := AndNot(l0[w0], Pow2(i % 64));
      assert l0[..] == ClearAt(a0, i);
      if l0[w0] != 0 { return; }

      var w1 := w0 / 64;
      l1[w1] := AndNot(l1[w1], Pow2(w0 % 64));
      assert l1[..] == ClearAt(a1, w0);
      if l1[w1] != 0 { return; }

      l2[w1 / 64] := AndNot(l2[w1 / 64], Pow2(w1 % 64));
      assert l2[..] == ClearAt(a2, w1);
    }

    method Test(i: nat) returns (b: bool)
      requires Valid() && i < size
      ensures b <==> i in Members()
    {
      b := Bit(l0[i / 64], i % 64);
    }

    /** The greatest member, if there is one. */
    method Highest() returns (r: Option<nat>)
      requires Valid()
      ensures r.None? <==> Members() == {}
      ensures r.Some? ==> r.value in Members() && forall i :: i in Members() ==> i <= r.value
    {
      var w2 := l2.Length;
      while w2 > 0
        invariant 0 <= w2 <= l2.Length
        invariant forall w :: w2 <= w < l2.Length ==> l2[w] == 0
      {
        w2 := w2 - 1;
        if l2[w2] != 0 {
          ghost var g1, g0, i := TopThroughTiers(l2[..], l1[..], l0[..], w2);
          var w1 := 64 * w2 + TopBit(l2[w2]);
          var w0 := 64 * w1 + TopBit(l1[w1]);
          return Some(64 * w0 + TopBit(l0[w0]));
        }
      }
      NothingThroughTiers(l2[..], l1[..], l0[..]);
      return None;
    }

    /** The least member, if there is one. */
    method Lowest() returns (r: Option<nat>)
      requires Valid()
      ensures r.None? <==> Members() == {}
      ensures r.Some? ==> r.value in Members() && forall i :: i in Members() ==> r.value <= i
    {
      var w2 := 0;
      while w2 < l2.Length
        invariant 0 <= w2 <= l2.Length
        invariant forall w :: 0 <= w < w2 ==> l2[w] == 0
      {
        if l2[w2] != 0 {
          ghost var g1, g0, i := BottomThroughTiers(l2[..], l1[..], l0[..], w2);
          var w1 := 64 * w2 + Ctz(l2[w2]);
          var w0 := 64 * w1 + Ctz(l1[w1]);
          return Some(64 * w0 + Ctz(l0[w0]));
        }
        w2 := w2 + 1;
      }
      NothingThroughTiers(l2[..], l1[..], l0[..]);
      return None;
    }
  }
}
