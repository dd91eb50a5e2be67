/** Days from civil date, against naive day counting in the proleptic Gregorian calendar. */
module Calendar {
  import opened Types

  /** C++ division truncates toward zero. */
  function TruncDiv(a: int, b: int): int
    requires b > 0
  {
    if a >= 0 then a / b else -(-a / b)
  }

  /** Conversion to `unsigned`. */
  function U32(x: int): nat { x % TWO32 }

  /** `days_from_civil`. */
  function DaysFromCivil(year: int, m: nat, d: nat): int {
    var y := if m <= 2 then year - 1 else year;
    var era := TruncDiv(if y >= 0 then y else y - 399, 400);
    var yoe := U32(y - era * 400);
    var doy := U32(U32(153 * U32(m + (if m > 2 then -3 else 9)) + 2) / 5 + d - 1);
    var doe := U32(yoe * 365 + yoe / 4 - yoe / 100 + doy);
    era * 146097 + doe - 719468
  }

  // ----- Naive counting -----

  predicate IsLeap(y: int) { y % 4 == 0 && (y % 100 != 0 || y % 400 == 0) }

  function DaysInMonth(y: int, m: nat): nat
    requires 1 <= m <= 12
  {
    if m == 2 then (if IsLeap(y) then 29 else 28)
    else if m == 4 || m == 6 || m == 9 || m == 11 then 30 else 31
  }

  datatype Date = Date(y: int, m: nat, d: nat)

  predicate ValidDate(t: Date) { 1 <= t.m <= 12 && 1 <= t.d <= DaysInMonth(t.y, t.m) }

  function YearLength(y: int): nat { if IsLeap(y) then 366 else 365 }

  /** Days from 1 January 1970 to 1 January of year y, one year at a time, forwards or backwards. */
  function DaysBeforeYear(y: int): int
    decreases if y >= 1970 then y - 1970 else 1970 - y
  {
    if y == 1970 then 0
    else if y > 1970 then DaysBeforeYear(y - 1) + YearLength(y - 1)
    else DaysBeforeYear(y + 1) - YearLength(y)
  }

  function DaysBeforeMonth(y: int, m: nat): nat
    requires 1 <= m <= 12
  {
    if m == 1 then 0 else DaysBeforeMonth(y, m - 1) + DaysInMonth(y, m - 1)
  }

  function NaiveDays(t: Date): int
    requires ValidDate(t)
  {
    DaysBeforeYear(t.y) + DaysBeforeMonth(t.y, t.m) + t.d - 1
  }

  function NextDate(t: Date): Date
    requires ValidDate(t)
  {
    if t.d < DaysInMonth(t.y, t.m) then t.(d := t.d + 1)
    else if t.m < 12 then Date(t.y, t.m + 1, 1) else Date(t.y + 1, 1, 1)
  }

  // ----- The closed form -----

  /** Days before 1 March of year y, counted from 1 March of year 0. */
  function MarchDays(y: int): int { 365 * y + y / 4 - y / 100 + y / 400 }

  lemma TruncIsFloor(y: int)
    ensures TruncDiv(if y >= 0 then y else y - 399, 400) == y / 400
  {
  }

  lemma EraSplits(y: int)
    ensures y / 4 == 100 * (y / 400) + (y % 400) / 4 && y / 100 == 4 * (y / 400) + (y % 400) / 100
  {
  }

  /** The era arithmetic is the closed form. */
  lemma ClosedForm(year: int, m: nat, d: nat)
    requires 1 <= m <= 12 && 1 <= d <= 31
    ensures DaysFromCivil(year, m, d) ==
            if m <= 2 then MarchDays(year - 1) + (153 * (m + 9) + 2) / 5 + d - 1 - 719468
            else MarchDays(year) + (153 * (m - 3) + 2) / 5 + d - 1 - 719468
  {
    hide U32, TruncDiv;
    var y, mp := if m <= 2 then year - 1 else year, if m > 2 then m - 3 else m + 9;
    var era, yoe, doy := y / 400, y % 400, (153 * mp + 2) / 5 + d - 1;
    TruncIsFloor(y);
    assert y - era * 400 == yoe;
    Small(yoe);
    Small(mp);
    Small(153 * mp + 2);
    DayOfYear(mp, d);
    DayOfEra(yoe, doy);
    Small(doy);
    Small(yoe * 365 + yoe / 4 - yoe / 100 + doy);
    MarchByEra(y);
  }

  lemma DayOfYear(mp: nat, d: nat)
    requires mp <= 11 && 1 <= d <= 31
    ensures 0 <= (153 * mp + 2) / 5 + d - 1 < 400
  {
  }

  lemma DayOfEra(yoe: nat, doy: nat)
    requires yoe < 400 && doy < 400
    ensures 0 <= yoe * 365 + yoe / 4 - yoe / 100 + doy < TWO32
  {
  }

  lemma MarchByEra(y: int)
    ensures MarchDays(y) == y / 400 * 146097 + (y % 400 * 365 + y % 400 / 4 - y % 400 / 100)
  {
    EraSplits(y);
  }

  lemma Small(x: int)
    requires 0 <= x < TWO32
    ensures U32(x) == x
  {
  }

  lemma MarchStep(y: int)
    ensures MarchDays(y) == MarchDays(y - 1) + YearLength(y)
  {
    QuotientStep(y, 4);
    QuotientStep(y, 100);
    QuotientStep(y, 400);
    hide MarchDays;
    MarchDaysIs(y);
    MarchDaysIs(y - 1);
    Centuries(y);
  }

  lemma MarchDaysIs(y: int)
    ensures MarchDays(y) == 365 * y + y / 4 - y / 100 + y / 400
  {
  }

  lemma Centuries(y: int)
    ensures (y % 400 == 0 ==> y % 100 == 0) && (y % 100 == 0 ==> y % 4 == 0)
  {
  }

  lemma QuotientStep(y: int, n: int)
    requires n == 4 || n == 100 || n == 400
    ensures y / n == (y - 1) / n + (if y % n == 0 then 1 else 0)
  {
  }

  lemma {:induction false} JanuaryFirst(y: int)
    ensures DaysBeforeYear(y) == MarchDays(y - 1) + 306 - 719468
    decreases if y >= 1970 then y - 1970 else 1970 - y
  {
    if y > 1970 {
      JanuaryFirst(y - 1);
      MarchStep(y - 1);
    } else if y < 1970 {
      JanuaryFirst(y + 1);
      MarchStep(y);
    }
  }

  lemma MonthTable(y: int, m: nat)
    requires 1 <= m <= 12
    ensures DaysBeforeMonth(y, m) ==
            if m <= 2 then 31 * (m - 1)
            else (153 * (m - 3) + 2) / 5 + (if IsLeap(y) then 60 else 59)
  {
    if m > 1 { MonthTable(y, m - 1); }
  }

  /** For every valid date of every year, the algorithm counts days exactly as the calendar does. */
  lemma DaysFromCivilIsNaive(t: Date)
    requires ValidDate(t)
    ensures DaysFromCivil(t.y, t.m, t.d) == NaiveDays(t)
  {
    ClosedForm(t.y, t.m, t.d);
    JanuaryFirst(t.y);
    MarchStep(t.y);
    MonthTable(t.y, t.m);
  }

  lemma NextYear(y: int)
    ensures DaysBeforeYear(y + 1) == DaysBeforeYear(y) + YearLength(y)
  {
    JanuaryFirst(y);
    JanuaryFirst(y + 1);
    MarchStep(y);
  }

  lemma NaiveNext(t: Date)
    requires ValidDate(t)
    ensures ValidDate(NextDate(t)) && NaiveDays(NextDate(t)) == NaiveDays(t) + 1
  {
    NextYear(t.y);
    MonthTable(t.y, t.m);
  }

  /** The epoch is day 0, and each date's successor is one day later. */
  lemma SuccessorIsNextDay(t: Date)
    requires ValidDate(t)
    ensures DaysFromCivil(1970, 1, 1) == 0
    ensures ValidDate(NextDate(t)) && DaysFromCivil(NextDate(t).y, NextDate(t).m, NextDate(t).d) ==
            DaysFromCivil(t.y, t.m, t.d) + 1
  {
    DaysFromCivilIsNaive(Date(1970, 1, 1));
    DaysFromCivilIsNaive(t);
    NaiveNext(t);
    DaysFromCivilIsNaive(NextDate(t));
  }

  // ----- The calendar itself -----

  /** Which dates there are: the month lengths of the Gregorian calendar and its leap rule. */
  lemma DatesThereAre(y: int, m: nat, d: nat)
    ensures ValidDate(Date(y, m, d)) <==>
            && 1 <= m <= 12 && 1 <= d <= 31 && (d == 31 ==> m != 4 && m != 6 && m != 9 && m != 11)
            && (m == 2 ==> d <= 29) && (m == 2 && d == 29 ==> y % 4 == 0 && (y % 100 == 0 ==> y % 400 == 0))
  {
  }

  /** The calendar repeats every 400 years, of 146097 days. */
  lemma FourCenturies(y: int, m: nat, d: nat)
    requires 1 <= m <= 12 && 1 <= d <= 31
    ensures DaysFromCivil(y + 400, m, d) == DaysFromCivil(y, m, d) + 146097
  {
    hide DaysFromCivil, MarchDays;
    ClosedForm(y, m, d);
    ClosedForm(y + 400, m, d);
    MarchRepeats(y);
    MarchRepeats(y - 1);
  }

  lemma MarchRepeats(y: int)
    ensures MarchDays(y + 400) == MarchDays(y) + 146097
  {
    hide MarchDays;
    MarchDaysIs(y);
    MarchDaysIs(y + 400);
    QuotientRepeats(y, 4);
    QuotientRepeats(y, 100);
    QuotientRepeats(y, 400);
  }

  lemma QuotientRepeats(y: int, n: int)
    requires n == 4 || n == 100 || n == 400
    ensures (y + 400) / n == y / n + 400 / n
  {
  }

  lemma SomeDays()
    ensures DaysFromCivil(1900, 3, 1) == -25508 && DaysFromCivil(2000, 2, 29) == 11016
            && DaysFromCivil(2023, 4, 6) == 19453
  {
    hide DaysFromCivil;
    ClosedForm(1900, 3, 1);
    ClosedForm(2000, 2, 29);
    ClosedForm(2023, 4, 6);
  }

  // ----- Order -----

  predicate Earlier(a: Date, b: Date) {
    a.y < b.y || (a.y == b.y && (a.m < b.m || (a.m == b.m && a.d < b.d)))
  }

  lemma {:induction false} YearsIncrease(y: int, z: int)
    requires y < z
    ensures DaysBeforeYear(y) + YearLength(y) <= DaysBeforeYear(z)
    decreases z - y
  {
    NextYear(y);
    if y + 1 < z { YearsIncrease(y + 1, z); }
  }

  lemma {:induction false} MonthsIncrease(y: int, m: nat, n: nat)
    requires 1 <= m < n <= 12
    ensures DaysBeforeMonth(y, m) + DaysInMonth(y, m) <= DaysBeforeMonth(y, n)
    decreases n - m
  {
    if m + 1 < n { MonthsIncrease(y, m, n - 1); }
  }

  lemma EarlierIsLess(a: Date, b: Date)
    requires ValidDate(a) && ValidDate(b) && Earlier(a, b)
    ensures NaiveDays(a) < NaiveDays(b)
  {
    if a.y < b.y {
      YearsIncrease(a.y, b.y);
      if a.m < 12 { MonthsIncrease(a.y, a.m, 12); }
      MonthTable(a.y, 12);
    } else if a.m < b.m {
      MonthsIncrease(a.y, a.m, b.m);
    }
  }

  /** Day numbers order dates as the calendar does, in both directions. */
  lemma DayOrder(a: Date, b: Date)
    requires ValidDate(a) && ValidDate(b)
    ensures Earlier(a, b) <==> DaysFromCivil(a.y, a.m, a.d) < DaysFromCivil(b.y, b.m, b.d)
  {
    DaysFromCivilIsNaive(a);
    DaysFromCivilIsNaive(b);
    if Earlier(a, b) { EarlierIsLess(a, b); } else if Earlier(b, a) { EarlierIsLess(b, a); }
  }
}
