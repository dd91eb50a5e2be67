/** Bytes, integers as byte strings, and exclusive or. */
module Bytes {
  import opened Types
  import opened Bits
  import opened Arithmetic

  type byte = b: nat | b < 256

  function Pow256(w: nat): (r: nat)
    ensures r > 0
  {
    if w == 0 then 1 else 256 * Pow256(w - 1)
  }

  lemma Widths()
    ensures Pow256(2) == 0x1_0000 && Pow256(4) == TWO32 && Pow256(8) == TWO64
  {
    assert Pow256(4) == TWO32;
  }

  /** `n >> 8 * k`. */
  function Shift(n: nat, k: nat): nat { if k == 0 then n else Shift(n, k - 1) / 256 }

  /** The low w bytes of n, most significant first. */
  function BigEndian(n: nat, w: nat): (r: seq<byte>)
    ensures |r| == w
  {
    if w == 0 then [] else BigEndian(n / 256, w - 1) + [n % 256]
  }

  function FromBig(s: seq<byte>): nat {
    if s == [] then 0 else 256 * FromBig(s[..|s| - 1]) + s[|s| - 1]
  }

  /** Four bytes, the first the most significant. */
  function BigFour(s: seq<byte>): nat
    requires |s| == 4
  {
    16777216 * s[0] as nat + 65536 * s[1] as nat + 256 * s[2] as nat + s[3] as nat
  }

  lemma BigDrop(s: seq<byte>, k: nat)
    requires 0 < k <= |s|
    ensures FromBig(s[..k]) == 256 * FromBig(s[..k - 1]) + s[k - 1] as nat
  {
    assert s[..k][..k - 1] == s[..k - 1];
  }

  lemma FromBigEight(s: seq<byte>)
    requires |s| == 8
    ensures FromBig(s) == 4294967296 * BigFour(s[..4]) + BigFour(s[4..])
  {
    hide FromBig;
    BigDrop(s, 1);
    BigDrop(s, 2);
    BigDrop(s, 3);
    BigDrop(s, 4);
    BigDrop(s, 5);
    BigDrop(s, 6);
    BigDrop(s, 7);
    BigDrop(s, 8);
    BigNothing(s);
    assert s[..8] == s;
  }

  lemma BigNothing(s: seq<byte>)
    ensures FromBig(s[..0]) == 0
  {
  }

  lemma {:induction false} BigRoundTrip(n: nat, w: nat)
    requires n < Pow256(w)
    ensures FromBig(BigEndian(n, w)) == n
  {
    if w > 0 {
      BigRoundTrip(n / 256, w - 1);
      assert BigEndian(n, w)[..w - 1] == BigEndian(n / 256, w - 1);
    }
  }

  lemma {:induction false} BigBound(s: seq<byte>)
    ensures FromBig(s) < Pow256(|s|)
  {
    if s != [] { BigBound(s[..|s| - 1]); }
  }

  /** The low w bytes of n, least significant first. */
  function LittleEndian(n: nat, w: nat): (r: seq<byte>)
    ensures |r| == w
  {
    if w == 0 then [] else [n % 256] + LittleEndian(n / 256, w - 1)
  }

  function FromLittle(s: seq<byte>): nat {
    if s == [] then 0 else s[0] + 256 * FromLittle(s[1..])
  }

  /** Four bytes, the first the least significant. */
  lemma LittleFour(s: seq<byte>)
    requires |s| == 4
    ensures FromLittle(s) == s[0] as nat + 256 * s[1] as nat + 65536 * s[2] as nat + 16777216 * s[3] as nat
  {
    LittleTwo(s[..2]);
    LittleTwo(s[2..]);
    LittleSplit(s);
  }

  lemma LittleTwo(s: seq<byte>)
    requires |s| == 2
    ensures FromLittle(s) == s[0] as nat + 256 * s[1] as nat
  {
    assert FromLittle(s[1..]) == s[1] as nat + 256 * FromLittle(s[1..][1..]);
  }

  lemma LittleSplit(s: seq<byte>)
    requires |s| == 4
    ensures FromLittle(s) == FromLittle(s[..2]) + 65536 * FromLittle(s[2..])
  {
    LittleTwo(s[..2]);
    assert s[1..][1..] == s[2..];
    assert FromLittle(s[1..]) == s[1] as nat + 256 * FromLittle(s[1..][1..]);
  }

  /** Eight bytes are two groups of four. */
  lemma LittleEight(s: seq<byte>)
    requires |s| == 8
    ensures FromLittle(s) == FromLittle(s[..4]) + 4294967296 * FromLittle(s[4..])
  {
    LittleFour(s[..4]);
    LittleDrop(s, 0);
    LittleDrop(s, 1);
    LittleDrop(s, 2);
    LittleDrop(s, 3);
    assert s[0..] == s;
  }

  lemma LittleDrop(s: seq<byte>, k: nat)
    requires k < |s|
    ensures FromLittle(s[k..]) == s[k] as nat + 256 * FromLittle(s[k + 1..])
  {
    assert s[k..][1..] == s[k + 1..];
  }

  lemma {:induction false} LittleRoundTrip(n: nat, w: nat)
    requires n < Pow256(w)
    ensures FromLittle(LittleEndian(n, w)) == n
  {
    if w > 0 {
      LittleRoundTrip(n / 256, w - 1);
      assert LittleEndian(n, w)[1..] == LittleEndian(n / 256, w - 1);
    }
  }

  /** All the bytes of several pieces. */
  function Concat(pieces: seq<seq<byte>>): seq<byte> {
    if pieces == [] then [] else pieces[0] + Concat(pieces[1..])
  }

  /** Bitwise `a ^ b` on k-bit values. */
  function Xor(a: nat, b: nat, k: nat): nat {
    if k == 0 then 0 else 2 * Xor(a / 2, b / 2, k - 1) + (if a % 2 == b % 2 then 0 else 1)
  }

  lemma {:induction false} XorTwice(a: nat, b: nat, k: nat)
    requires a < Pow2(k)
    ensures Xor(a, b, k) < Pow2(k) && Xor(Xor(a, b, k), b, k) == a
  {
    if k > 0 { XorTwice(a / 2, b / 2, k - 1); }
  }

  /** Each binary digit is one exactly where the digits of a and b differ. */
  lemma {:induction false} XorDigits(a: nat, b: nat, k: nat, j: nat)
    requires j < k
    ensures Bit(Xor(a, b, k), j) <==> Bit(a, j) != Bit(b, j)
    ensures Xor(a, b, k) / Pow2(j) % 2 == 1 <==> a / Pow2(j) % 2 != b / Pow2(j) % 2
  {
    XorBits(a, b, k, j);
    BitIsDigit(Xor(a, b, k), j);
    BitIsDigit(a, j);
    BitIsDigit(b, j);
  }

  lemma {:induction false} XorBits(a: nat, b: nat, k: nat, j: nat)
    requires j < k
    ensures Bit(Xor(a, b, k), j) <==> Bit(a, j) != Bit(b, j)
    decreases k
  {
    if j > 0 { XorBits(a / 2, b / 2, k - 1, j - 1); }
  }

  lemma {:induction false} BitIsDigit(w: nat, k: nat)
    ensures Bit(w, k) <==> w / Pow2(k) % 2 == 1
    decreases k
  {
    if k > 0 {
      BitIsDigit(w / 2, k - 1);
      Halve(w, Pow2(k - 1));
    }
  }

  /** Exclusive or digit by digit: what section 5.3 of RFC 6455 asks for. */
  function Differ(a: nat, b: nat, p: nat): nat
    requires p > 0
  {
    if a / p % 2 == b / p % 2 then 0 else p
  }

  function ByteXor(a: byte, b: byte): nat {
    Differ(a, b, 1) + Differ(a, b, 2) + Differ(a, b, 4) + Differ(a, b, 8)
    + Differ(a, b, 16) + Differ(a, b, 32) + Differ(a, b, 64) + Differ(a, b, 128)
  }

  lemma XorStep(a: nat, b: nat, k: nat)
    requires k > 0
    ensures Xor(a, b, k) == 2 * Xor(a / 2, b / 2, k - 1) + (if a % 2 == b % 2 then 0 else 1)
  {
  }

  /** The shifting definition computes it. */
  lemma XorByteIs(a: byte, b: byte)
    ensures XorByte(a, b) == ByteXor(a, b)
  {
    hide Xor, Differ;
    Halvings(a);
    Halvings(b);
    var d0 := XorLevel(a, b, 8, 1);
    var d1 := XorLevel(a, b, 7, 2);
    var d2 := XorLevel(a, b, 6, 4);
    var d3 := XorLevel(a, b, 5, 8);
    var d4 := XorLevel(a, b, 4, 16);
    var d5 := XorLevel(a, b, 3, 32);
    var d6 := XorLevel(a, b, 2, 64);
    var d7 := XorLevel(a, b, 1, 128);
    XorNothing(a / 128 / 2, b / 128 / 2);
  }

  /** One binary digit of both definitions. */
  lemma XorLevel(a: byte, b: byte, k: nat, p: nat) returns (d: nat)
    requires p > 0 && k > 0
    ensures d <= 1 && Differ(a, b, p) == p * d
    ensures a / p >= 0 && b / p >= 0 && Xor(a / p, b / p, k) == 2 * Xor(a / p / 2, b / p / 2, k - 1) + d
  {
    d := if a / p % 2 == b / p % 2 then 0 else 1;
    NotNegative(a, p);
    NotNegative(b, p);
    XorStep(a / p, b / p, k);
  }

  lemma NotNegative(a: nat, p: nat)
    requires p > 0
    ensures a / p >= 0
  {
  }

  lemma Halvings(a: nat)
    ensures a / 2 / 2 == a / 4 && a / 4 / 2 == a / 8 && a / 8 / 2 == a / 16 && a / 16 / 2 == a / 32
    ensures a / 32 / 2 == a / 64 && a / 64 / 2 == a / 128
  {
  }

  lemma XorNothing(a: nat, b: nat)
    ensures Xor(a, b, 0) == 0
  {
  }

  function XorByte(a: byte, b: byte): byte {
    XorTwice(a, b, 8);
    Xor(a, b, 8)
  }

  lemma XorByteTwice(a: byte, b: byte)
    ensures XorByte(XorByte(a, b), b) == a
  {
    XorTwice(a, b, 8);
  }
}
