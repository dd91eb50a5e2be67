/** RFC 3339 timestamps: the positional parser, and printing as its inverse. */
module Timestamp {
  import opened Types
  import opened Calendar

  const BILLION: nat := 1_000_000_000

  predicate IsDigit(c: char) { '0' <= c <= '9' }

  function DigitValue(c: char): nat
    requires IsDigit(c)
  {
    c as int - '0' as int
  }

  /** Conversion to `uint64_t`. */
  function U64(x: int): nat { x % TWO64 }

  // ----- What the parser computes -----

  /** The leading digits of s, read on from the value v. */
  function Leading(s: string, v: nat): nat {
    if s == [] || !IsDigit(s[0]) then v else Leading(s[1..], 10 * v + DigitValue(s[0]))
  }

  function Seconds(s: string): int
    requires |s| >= 20
  {
    DaysFromCivil(Leading(s[0..4], 0), Leading(s[5..7], 0), Leading(s[8..10], 0)) * 86400
    + Leading(s[11..13], 0) * 3600 + Leading(s[14..16], 0) * 60 + Leading(s[17..19], 0)
  }

  /** Up to n leading digits of s, scaled to a unit n decimal places further on. */
  function Scaled(s: string, v: nat, n: nat): nat
    decreases n
  {
    if n == 0 then v
    else if s == [] || !IsDigit(s[0]) then Scaled([], 10 * v, n - 1)
    else Scaled(s[1..], 10 * v + DigitValue(s[0]), n - 1)
  }

  function Parsed(s: string): nat {
    if |s| < 20 then 0
    else U64(Seconds(s) * BILLION + (if |s| > 20 && s[19] == '.' then Scaled(s[20..], 0, 9) else 0))
  }

  /** Too short a string is no timestamp. */
  lemma ShortIsZero(s: string)
    requires |s| < 20
    ensures Parsed(s) == 0
  {
  }

  /** A field is read digit by digit in base ten, up to the first character that is no digit. */
  lemma {:induction false} FieldIs(digits: string, stop: char, more: string, v: nat)
    requires forall i :: 0 <= i < |digits| ==> '0' <= digits[i] <= '9'
    requires stop < '0' || '9' < stop
    ensures Leading(digits + [stop] + more, v) == Leading(digits, v)
    ensures digits != [] ==> Leading(digits, v) == Leading(digits[1..], 10 * v + (digits[0] as int - '0' as int))
    ensures digits == [] ==> Leading(digits, v) == v
    decreases |digits|
  {
    var s := digits + [stop] + more;
    if digits == [] {
      assert s[0] == stop;
    } else {
      assert s[0] == digits[0] && s[1..] == digits[1..] + [stop] + more;
      FieldIs(digits[1..], stop, more, 10 * v + DigitValue(digits[0]));
    }
  }

  /** Digits of a fraction beyond the n-th make no difference. */
  lemma {:induction false} FractionCutOff(digits: string, more: string, v: nat, n: nat)
    requires |digits| == n && forall i :: 0 <= i < |digits| ==> '0' <= digits[i] <= '9'
    ensures Scaled(digits + more, v, n) == Leading(digits, v)
    decreases n
  {
    if n > 0 {
      assert (digits + more)[0] == digits[0] && (digits + more)[1..] == digits[1..] + more;
      FractionCutOff(digits[1..], more, 10 * v + DigitValue(digits[0]), n - 1);
    }
  }

  // ----- The parser -----

  /** The lambda `num`. */
  method Number(s: string, off: nat, len: nat) returns (v: nat)
    requires off + len <= |s|
    ensures v == Leading(s[off..off + len], 0)
  {
    v := 0;
    var i := 0;
    while i < len
      invariant i <= len && Leading(s[off + i..off + len], v) == Leading(s[off..off + len], 0)
    {
      var c := s[off + i];
      assert s[off + i..off + len][0] == c && s[off + i..off + len][1..] == s[off + i + 1..off + len];
      if !IsDigit(c) { return; }
      v := v * 10 + DigitValue(c);
      i := i + 1;
    }
  }

  method Fraction(s: string) returns (nanos: nat)
    requires |s| > 20
    ensures nanos == Scaled(s[20..], 0, 9)
  {
    hide Scaled;
    nanos := 0;
    var i, digits := 20, 0;
    while i < |s| && IsDigit(s[i]) && digits < 9
      invariant 20 <= i <= |s| && digits <= 9 && Scaled(s[i..], nanos, 9 - digits) == Scaled(s[20..], 0, 9)
      decreases |s| - i
    {
      ScaledStep(s[i..], nanos, 9 - digits);
      assert s[i..][1..] == s[i + 1..];
      nanos := nanos * 10 + DigitValue(s[i]);
      i, digits := i + 1, digits + 1;
    }
    ScaledStops(s[i..], nanos, 9 - digits);
    while digits < 9
      invariant digits <= 9 && Scaled([], nanos, 9 - digits) == Scaled(s[20..], 0, 9)
    {
      ScaledPads(nanos, 9 - digits);
      digits := digits + 1;
      nanos := nanos * 10;
    }
    ScaledDone([], nanos);
  }

  lemma ScaledStep(s: string, v: nat, n: nat)
    requires n > 0 && s != [] && IsDigit(s[0])
    ensures Scaled(s, v, n) == Scaled(s[1..], 10 * v + DigitValue(s[0]), n - 1)
  {
  }

  lemma ScaledStops(s: string, v: nat, n: nat)
    requires n == 0 || s == [] || !IsDigit(s[0])
    ensures Scaled(s, v, n) == Scaled([], v, n)
  {
  }

  lemma ScaledPads(v: nat, n: nat)
    requires n > 0
    ensures Scaled([], v, n) == Scaled([], 10 * v, n - 1)
  {
  }

  lemma ScaledDone(s: string, v: nat)
    ensures Scaled(s, v, 0) == v
  {
  }

  method ParseRfc3339(s: string) returns (r: nat)
    ensures r == Parsed(s)
  {
    if |s| < 20 { return 0; }
    var y := Number(s, 0, 4);
    var m := Number(s, 5, 2);
    var d := Number(s, 8, 2);
    var days := DaysFromCivil(y, m, d);
    var hh := Number(s, 11, 2);
    var mi := Number(s, 14, 2);
    var ss := Number(s, 17, 2);
    var secs := days * 86400 + hh * 3600 + mi * 60 + ss;
    var nanos := 0;
    if |s| > 20 && s[19] == '.' { nanos := Fraction(s); }
    WrapOnce(secs, nanos);
    r := U64(U64(U64(secs) * BILLION) + U64(nanos));
  }

  /** Wrapping at each operation is wrapping once at the end. */
  lemma WrapOnce(secs: int, nanos: int)
    ensures U64(U64(U64(secs) * BILLION) + U64(nanos)) == U64(secs * BILLION + nanos)
  {
    var a, b, c := secs / TWO64, U64(secs) * BILLION / TWO64, nanos / TWO64;
    Multiple(U64(U64(secs) * BILLION) + U64(nanos), a * BILLION + b + c);
  }

  lemma Multiple(x: int, q: int)
    ensures U64(x + q * TWO64) == U64(x)
  {
    var r := x % TWO64;
    assert x + q * TWO64 == (x / TWO64 + q) * TWO64 + r;
    Residue(x / TWO64 + q, r);
  }

  lemma Residue(q: int, r: int)
    requires 0 <= r < TWO64
    ensures (q * TWO64 + r) % TWO64 == r
  {
  }

  // ----- Instants and their printed form -----

  /** A UTC date and time of day, with its fraction of a second as decimal digits. */
  datatype Stamp = Stamp(date: Date, hour: nat, minute: nat, second: nat, fraction: seq<nat>)

  predicate ValidStamp(t: Stamp) {
    && ValidDate(t.date) && t.hour < 24 && t.minute < 60 && t.second < 60
    && |t.fraction| <= 9 && forall i :: 0 <= i < |t.fraction| ==> t.fraction[i] < 10
  }

  function DigitChar(n: nat): char
    requires n < 10
  {
    ('0' as int + n) as char
  }

  function Two(n: nat): string
    requires n < 100
  {
    [DigitChar(n / 10), DigitChar(n % 10)]
  }

  function Digits(f: seq<nat>): (r: string)
    requires forall i :: 0 <= i < |f| ==> f[i] < 10
    ensures |r| == |f|
  {
    if f == [] then [] else [DigitChar(f[0])] + Digits(f[1..])
  }

  /** `date-time` of section 5.6 of RFC 3339, with offset Z. */
  function Print(t: Stamp): string
    requires ValidStamp(t) && 0 <= t.date.y <= 9999
  {
    Two(t.date.y / 100) + Two(t.date.y % 100) + "-" + Two(t.date.m) + "-" + Two(t.date.d)
    + "T" + Two(t.hour) + ":" + Two(t.minute) + ":" + Two(t.second)
    + (if t.fraction == [] then "Z" else "." + Digits(t.fraction) + "Z")
  }

  function Pow10(n: nat): nat { if n == 0 then 1 else 10 * Pow10(n - 1) }

  /** The value of the decimal fraction f in units of the n-th decimal place. */
  function FractionValue(f: seq<nat>, n: nat): nat {
    if f == [] || n == 0 then 0 else f[0] * Pow10(n - 1) + FractionValue(f[1..], n - 1)
  }

  /** Nanoseconds since the epoch, days counted naively. */
  function Instant(t: Stamp): int
    requires ValidStamp(t)
  {
    (NaiveDays(t.date) * 86400 + t.hour * 3600 + t.minute * 60 + t.second) * BILLION
    + FractionValue(t.fraction, 9)
  }

  // ----- Round trip -----

  lemma LeadingTwo(n: nat, v: nat)
    requires n < 100
    ensures Leading(Two(n), v) == 100 * v + n
  {
    var s := Two(n);
    assert Leading(s[1..][1..], 100 * v + n) == 100 * v + n;
  }

  lemma LeadingFour(n: nat)
    requires n < 10000
    ensures Leading(Two(n / 100) + Two(n % 100), 0) == n
  {
    var a, b := n / 100, n % 100;
    var s := Two(a) + Two(b);
    assert s[1..][1..] == Two(b);
    LeadingTwo(b, a);
  }

  lemma {:induction false} ScaledEmpty(v: nat, n: nat)
    ensures Scaled([], v, n) == v * Pow10(n)
    decreases n
  {
    if n > 0 {
      ScaledEmpty(10 * v, n - 1);
      assert 10 * v * Pow10(n - 1) == v * (10 * Pow10(n - 1));
    }
  }

  lemma {:induction false} ScaledDigits(f: seq<nat>, v: nat, n: nat)
    requires |f| <= n && forall i :: 0 <= i < |f| ==> f[i] < 10
    ensures Scaled(Digits(f) + "Z", v, n) == v * Pow10(n) + FractionValue(f, n)
    decreases n
  {
    var s := Digits(f) + "Z";
    if f == [] {
      ScaledStops(s, v, n);
      ScaledEmpty(v, n);
    } else {
      assert s[0] == DigitChar(f[0]) && s[1..] == Digits(f[1..]) + "Z";
      ScaledDigits(f[1..], 10 * v + f[0], n - 1);
      ShiftIn(v, f[0], Pow10(n - 1));
    }
  }

  lemma ShiftIn(v: nat, d: nat, p: nat)
    ensures (10 * v + d) * p == v * (10 * p) + d * p
  {
  }

  /** The fields of the printed form sit where the parser looks. */
  lemma Layout(t: Stamp)
    requires ValidStamp(t) && 0 <= t.date.y <= 9999
    ensures var s := Print(t);
            && |s| == (if t.fraction == [] then 20 else 21 + |t.fraction|)
            && s[0..4] == Two(t.date.y / 100) + Two(t.date.y % 100)
            && s[5..7] == Two(t.date.m) && s[8..10] == Two(t.date.d)
            && s[11..13] == Two(t.hour) && s[14..16] == Two(t.minute) && s[17..19] == Two(t.second)
            && (t.fraction != [] ==> s[19] == '.' && s[20..] == Digits(t.fraction) + "Z")
  {
    var a, b, c := Two(t.date.y / 100), Two(t.date.y % 100), Two(t.date.m);
    var d, h, m, x := Two(t.date.d), Two(t.hour), Two(t.minute), Two(t.second);
    var z := if t.fraction == [] then "Z" else "." + Digits(t.fraction) + "Z";
    Spread(a, b, c, d, h, m, x, z);
    assert Print(t) == a + b + "-" + c + "-" + d + "T" + h + ":" + m + ":" + x + z;
    assert t.fraction != [] ==> z[0] == '.' && z[1..] == Digits(t.fraction) + "Z";
  }

  lemma Spread(a: string, b: string, c: string, d: string, h: string, m: string, x: string, z: string)
    requires |a| == |b| == |c| == |d| == |h| == |m| == |x| == 2
    ensures var s := a + b + "-" + c + "-" + d + "T" + h + ":" + m + ":" + x + z;
            && |s| == 19 + |z| && s[0..4] == a + b && s[5..7] == c && s[8..10] == d
            && s[11..13] == h && s[14..16] == m && s[17..19] == x && s[19..] == z
            && (|z| > 0 ==> s[19] == z[0] && s[20..] == z[1..])
  {
  }

  lemma SecondsPrinted(t: Stamp)
    requires ValidStamp(t) && 0 <= t.date.y <= 9999
    ensures |Print(t)| >= 20
    ensures Seconds(Print(t)) == NaiveDays(t.date) * 86400 + t.hour * 3600 + t.minute * 60 + t.second
  {
    hide Print, DaysFromCivil, NaiveDays, Two, Leading;
    Layout(t);
    LeadingFour(t.date.y);
    LeadingTwo(t.date.m, 0);
    LeadingTwo(t.date.d, 0);
    LeadingTwo(t.hour, 0);
    LeadingTwo(t.minute, 0);
    LeadingTwo(t.second, 0);
    DaysFromCivilIsNaive(t.date);
  }

  /** Parsing a printed timestamp of any four-digit year gives its instant modulo 2^64. */
  lemma ParsePrinted(t: Stamp)
    requires ValidStamp(t) && 0 <= t.date.y <= 9999
    ensures Parsed(Print(t)) == U64(Instant(t))
  {
    hide Print, Seconds, NaiveDays, Scaled, U64;
    Layout(t);
    SecondsPrinted(t);
    if t.fraction != [] {
      ScaledDigits(t.fraction, 0, 9);
      assert Pow10(9) == BILLION;
    }
  }

  lemma {:induction false} FractionBound(f: seq<nat>, n: nat)
    requires forall i :: 0 <= i < |f| ==> f[i] < 10
    ensures FractionValue(f, n) < Pow10(n)
  {
    if n > 0 {
      if f != [] {
        FractionBound(f[1..], n - 1);
        AtMost(f[0], 9, Pow10(n - 1));
      } else {
        FractionBound(f, n - 1);
      }
    }
  }

  lemma AtMost(a: nat, b: nat, unit: nat)
    requires a <= b
    ensures a * unit <= b * unit
  {
  }

  /** Years 1970 to 2553 fit in 64 bits; beyond them only part of 2554 does. */
  lemma YearsThatFit(t: Stamp)
    requires ValidStamp(t)
    ensures 1970 <= t.date.y <= 2553 ==> 0 <= Instant(t) < TWO64
    ensures 0 <= Instant(t) < TWO64 ==> 1970 <= t.date.y <= 2554
  {
    FractionBound(t.fraction, 9);
    assert Pow10(9) == BILLION;
    var y := t.date.y;
    DateInYear(t.date);
    JanuaryFirst(1970);
    JanuaryFirst(2554);
    JanuaryFirst(2555);
    if y < 1970 { YearsIncrease(y, 1970); }
    if 1970 < y { YearsIncrease(1970, y); }
    if y < 2554 { YearsIncrease(y, 2554); }
    if 2554 < y { YearsIncrease(2554, y); }
  }

  lemma DateInYear(d: Date)
    requires ValidDate(d)
    ensures DaysBeforeYear(d.y) <= NaiveDays(d) < DaysBeforeYear(d.y) + YearLength(d.y)
  {
    if d.m < 12 { MonthsIncrease(d.y, d.m, 12); }
    MonthTable(d.y, 12);
  }

  /** In those years the parser returns the exact instant. */
  lemma ParseIsExact(t: Stamp)
    requires ValidStamp(t) && 1970 <= t.date.y <= 2553
    ensures Parsed(Print(t)) == Instant(t)
  {
    hide Parsed, Print, Instant;
    ParsePrinted(t);
    YearsThatFit(t);
  }

  /** One timestamp worked out, no two of its fields alike. */
  lemma OneStamp()
    ensures Parsed("1970-01-02" + "T03:04:05" + ".25Z") == 97445250000000
  {
    var t := Stamp(Date(1970, 1, 2), 3, 4, 5, [2, 5]);
    OnePrinted();
    OneInstant();
    hide Print, Parsed, Instant;
    ParseIsExact(t);
  }

  lemma OnePrinted()
    ensures Print(Stamp(Date(1970, 1, 2), 3, 4, 5, [2, 5])) == "1970-01-02" + "T03:04:05" + ".25Z"
  {
    OneFraction();
    OneDate();
    hide Digits, Two;
    OneTime(Two(19) + Two(70) + "-" + Two(1) + "-" + Two(2));
  }

  lemma OneFraction()
    ensures "." + Digits([2, 5]) + "Z" == ".25Z"
  {
    assert [2, 5][1..] == [5] && [5][1..] == [];
    assert Digits([5]) == "5";
  }

  lemma OneDate()
    ensures Two(19) + Two(70) + "-" + Two(1) + "-" + Two(2) == "1970-01-02"
  {
    TwoDigits();
  }

  lemma OneTime(date: string)
    ensures date + "T" + Two(3) + ":" + Two(4) + ":" + Two(5) == date + "T03:04:05"
  {
    TwoDigits();
    hide Two;
    assert "T" + Two(3) + ":" + Two(4) + ":" + Two(5) == "T03:04:05";
    Together(date, "T", Two(3), ":", Two(4), Two(5));
  }

  lemma Together(a: string, b: string, c: string, d: string, e: string, f: string)
    ensures a + b + c + d + e + d + f == a + (b + c + d + e + d + f)
  {
  }

  lemma TwoDigits()
    ensures Two(19) == "19" && Two(70) == "70" && Two(1) == "01" && Two(2) == "02" && Two(3) == "03"
    ensures Two(4) == "04" && Two(5) == "05"
  {
  }

  lemma OneInstant()
    ensures Instant(Stamp(Date(1970, 1, 2), 3, 4, 5, [2, 5])) == 97445250000000
  {
    hide Instant;
    assert [2, 5][1..] == [5] && [5][1..] == [];
    assert Pow10(7) == 10000000;
    assert FractionValue([5], 8) == 50000000;
    assert FractionValue([2, 5], 9) == 250000000;
    assert NaiveDays(Date(1970, 1, 2)) == 1;
    hide FractionValue, NaiveDays, Pow10;
    InstantIs(Stamp(Date(1970, 1, 2), 3, 4, 5, [2, 5]));
  }

  lemma InstantIs(t: Stamp)
    requires ValidStamp(t)
    ensures Instant(t) == (NaiveDays(t.date) * 86400 + t.hour * 3600 + t.minute * 60 + t.second) * 1_000_000_000
                          + FractionValue(t.fraction, 9)
  {
  }

  // ----- Order -----

  function Head(f: seq<nat>): nat { if f == [] then 0 else f[0] }

  function Tail(f: seq<nat>): seq<nat> { if f == [] then [] else f[1..] }

  /** Digit by digit, missing digits reading as zero. */
  predicate FractionLess(f: seq<nat>, g: seq<nat>)
    decreases |f| + |g|
  {
    (f != [] || g != []) && (Head(f) < Head(g) || (Head(f) == Head(g) && FractionLess(Tail(f), Tail(g))))
  }

  /** Chronological order, most significant field first. */
  predicate Before(s: Stamp, t: Stamp) {
    Earlier(s.date, t.date)
    || (s.date == t.date &&
        (s.hour < t.hour
         || (s.hour == t.hour &&
             (s.minute < t.minute
              || (s.minute == t.minute &&
                  (s.second < t.second || (s.second == t.second && FractionLess(s.fraction, t.fraction))))))))
  }

  lemma FractionSplit(f: seq<nat>, n: nat)
    requires n > 0
    ensures FractionValue(f, n) == Head(f) * Pow10(n - 1) + FractionValue(Tail(f), n - 1)
  {
  }

  /** Comparing two-digit numbers in base `unit`. */
  lemma LexOrder(a: nat, x: nat, b: nat, y: nat, unit: nat)
    requires x < unit && y < unit
    ensures a * unit + x < b * unit + y <==> a < b || (a == b && x < y)
  {
    if a < b { AtMost(a + 1, b, unit); }
    if b < a { AtMost(b + 1, a, unit); }
  }

  lemma {:induction false} FractionOrder(f: seq<nat>, g: seq<nat>, n: nat)
    requires |f| <= n && |g| <= n
    requires forall i :: 0 <= i < |f| ==> f[i] < 10
    requires forall i :: 0 <= i < |g| ==> g[i] < 10
    ensures FractionLess(f, g) <==> FractionValue(f, n) < FractionValue(g, n)
    decreases n
  {
    if f != [] || g != [] {
      FractionOrder(Tail(f), Tail(g), n - 1);
      FractionBound(Tail(f), n - 1);
      FractionBound(Tail(g), n - 1);
      FractionSplit(f, n);
      FractionSplit(g, n);
      LexOrder(Head(f), FractionValue(Tail(f), n - 1), Head(g), FractionValue(Tail(g), n - 1), Pow10(n - 1));
    }
  }

  lemma InstantOrder(s: Stamp, t: Stamp)
    requires ValidStamp(s) && ValidStamp(t)
    ensures Before(s, t) <==> Instant(s) < Instant(t)
  {
    hide DaysFromCivil, NaiveDays, FractionValue, FractionLess;
    DayOrder(s.date, t.date);
    DayOrder(t.date, s.date);
    DaysFromCivilIsNaive(s.date);
    DaysFromCivilIsNaive(t.date);
    FractionOrder(s.fraction, t.fraction, 9);
    FractionBound(s.fraction, 9);
    FractionBound(t.fraction, 9);
    assert Pow10(9) == BILLION;
  }

  /** Comparing parsed timestamps as numbers compares the moments they print. */
  lemma ParsedOrder(s: Stamp, t: Stamp)
    requires ValidStamp(s) && 1970 <= s.date.y <= 2553
    requires ValidStamp(t) && 1970 <= t.date.y <= 2553
    ensures Before(s, t) <==> Parsed(Print(s)) < Parsed(Print(t))
  {
    hide Parsed, Print, Instant, Before;
    ParseIsExact(s);
    ParseIsExact(t);
    InstantOrder(s, t);
  }
}
