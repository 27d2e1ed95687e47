/**
 * Naive proleptic-Gregorian calendar dates, the behaviour of the JavaScript
 * `Date` setters used by the recurrence engine, and the `YYYY-MM-DD` format.
 *
 * A JavaScript `Date` is a time value; the engine only ever holds midnights,
 * so a `Date` here is the calendar day it denotes and `DayNumber` plays the
 * role of the time value (comparisons between `Date` objects compare it).
 */
module Calendar {
  import opened Wrappers
  import opened Strings

  /** A calendar day; `month` runs 1..12 (JavaScript's `getMonth()` is `month - 1`). */
  datatype Date = Date(year: int, month: int, day: int)

  predicate IsLeapYear(y: int) {
    y % 4 == 0 && (y % 100 != 0 || y % 400 == 0)
  }

  function DaysInMonth(y: int, m: int): (n: int)
    requires 1 <= m <= 12
    ensures 28 <= n <= 31
    ensures n == 29 <==> m == 2 && IsLeapYear(y)
  {
    if m == 2 then (if IsLeapYear(y) then 29 else 28)
    else if m == 4 || m == 6 || m == 9 || m == 11 then 30
    else 31
  }

  predicate Valid(d: Date) {
    1 <= d.month <= 12 && 1 <= d.day <= DaysInMonth(d.year, d.month)
  }

  function YearLength(y: int): int {
    if IsLeapYear(y) then 366 else 365
  }

  /** Days from 0001-01-01 to January 1st of year `y` (negative before it). */
  function DaysBeforeYear(y: int): int {
    365 * (y - 1) + (y - 1) / 4 - (y - 1) / 100 + (y - 1) / 400
  }

  /** Days from January 1st to the first day of month `m` of year `y`. */
  function DaysBeforeMonth(y: int, m: int): int
    requires 1 <= m <= 12
  {
    var common :=
      if m == 1 then 0 else if m == 2 then 31 else if m == 3 then 59
      else if m == 4 then 90 else if m == 5 then 120 else if m == 6 then 151
      else if m == 7 then 181 else if m == 8 then 212 else if m == 9 then 243
      else if m == 10 then 273 else if m == 11 then 304 else 334;
    common + (if m > 2 && IsLeapYear(y) then 1 else 0)
  }

  /** The number of the day, counted from 0001-01-01 (day 0): the time value in days. */
  function DayNumber(d: Date): int
    requires 1 <= d.month <= 12
  {
    DaysBeforeYear(d.year) + DaysBeforeMonth(d.year, d.month) + d.day - 1
  }

  /** JavaScript `a < b` on two `Date` objects. */
  predicate Before(a: Date, b: Date)
    requires 1 <= a.month <= 12 && 1 <= b.month <= 12
  {
    DayNumber(a) < DayNumber(b)
  }

  /** Calendar order: year, then month, then day. */
  predicate LexBefore(a: Date, b: Date) {
    a.year < b.year ||
    (a.year == b.year && (a.month < b.month || (a.month == b.month && a.day < b.day)))
  }

  /** A position that grows with calendar order (a month never has more than 31 days). */
  function Ordinal(d: Date): int {
    32 * MonthIndex(d) + d.day
  }

  lemma OrdinalOrder(a: Date, b: Date)
    requires Valid(a) && Valid(b)
    ensures LexBefore(a, b) <==> Ordinal(a) < Ordinal(b)
  {
  }

  /** Going from year `y - 1` to `y` adds one multiple of `k` exactly when `k` divides `y`. */
  lemma MultiplesStep(y: int, k: int)
    requires k == 4 || k == 100 || k == 400
    ensures y / k - (y - 1) / k == if y % k == 0 then 1 else 0
  {
  }

  /** Divisibility by 400 and by 100 implies divisibility by 4. */
  lemma DivisorsChain(y: int)
    ensures y % 400 == 0 ==> y % 100 == 0
    ensures y % 100 == 0 ==> y % 4 == 0
  {
    if y % 400 == 0 {
      DivModBy100(y, 4 * (y / 400), 0);
    }
    if y % 100 == 0 {
      DivModBy4(y, 25 * (y / 100), 0);
    }
  }

  lemma DivModBy100(n: int, hi: int, lo: int)
    requires n == hi * 100 + lo && 0 <= lo <= 99
    ensures n / 100 == hi && n % 100 == lo
  {
  }

  lemma DivModBy4(n: int, q: int, r: int)
    requires n == q * 4 + r && 0 <= r <= 3
    ensures n / 4 == q && n % 4 == r
  {
  }

  lemma YearLengthStep(y: int)
    ensures DaysBeforeYear(y + 1) == DaysBeforeYear(y) + YearLength(y)
  {
    MultiplesStep(y, 4);
    MultiplesStep(y, 100);
    MultiplesStep(y, 400);
    DivisorsChain(y);
  }

  lemma MonthLengthStep(y: int, m: int)
    requires 1 <= m <= 12
    ensures DaysBeforeMonth(y, m) + DaysInMonth(y, m) ==
            if m < 12 then DaysBeforeMonth(y, m + 1) else YearLength(y)
  {
  }

  /** The month counted from year 0, month 0; JavaScript's month arithmetic works on it. */
  function MonthIndex(d: Date): int {
    12 * d.year + d.month - 1
  }

  /** The number of days of the month with index `t`. */
  function DaysInMonthAt(t: int): int {
    DaysInMonth(t / 12, t % 12 + 1)
  }

  /** Day `day` of the month after month `m` of year `y`. */
  function NextMonthDay(y: int, m: int, day: int): Date {
    if m == 12 then Date(y + 1, 1, day) else Date(y, m + 1, day)
  }

  /** The last day of the month before month `m` of year `y`. */
  function PrevMonthLast(y: int, m: int): (r: Date)
    requires 1 <= m <= 12
    ensures Valid(r) && r.day == DaysInMonth(r.year, r.month)
    ensures NextMonthDay(r.year, r.month, 1) == Date(y, m, 1)
  {
    if m == 1 then Date(y - 1, 12, 31) else Date(y, m - 1, DaysInMonth(y, m - 1))
  }

  /** A month starts right after the previous month's last day. */
  lemma MonthStartStep(y: int, m: int)
    requires 1 <= m <= 12
    ensures DayNumber(NextMonthDay(y, m, 1)) == DayNumber(Date(y, m, 1)) + DaysInMonth(y, m)
  {
    MonthLengthStep(y, m);
    if m == 12 {
      YearLengthStep(y);
    }
  }

  /**
   * Day `date` counted from the first of month `m` of year `y`: a `date`
   * past the end of the month rolls into the following months, and one
   * below 1 into the preceding months.
   */
  function MonthDay(y: int, m: int, date: int): Date
    requires 1 <= m <= 12
    decreases if date < 1 then 100 - date else date
  {
    if date < 1 then
      var p := PrevMonthLast(y, m);
      MonthDay(p.year, p.month, date + p.day)
    else if date <= DaysInMonth(y, m) then
      Date(y, m, date)
    else
      var n := NextMonthDay(y, m, 1);
      MonthDay(n.year, n.month, date - DaysInMonth(y, m))
  }

  /** Rolling over keeps the count of days: the time value is the month's first day plus `date - 1`. */
  lemma {:induction false} MonthDayNumber(y: int, m: int, date: int)
    requires 1 <= m <= 12
    ensures Valid(MonthDay(y, m, date)) && DayNumber(MonthDay(y, m, date)) == DayNumber(Date(y, m, 1)) + date - 1
    decreases if date < 1 then 100 - date else date
  {
    MonthDayValid(y, m, date);
    if date < 1 {
      var p := PrevMonthLast(y, m);
      MonthStartStep(p.year, p.month);
      MonthDayNumber(p.year, p.month, date + p.day);
    } else if date > DaysInMonth(y, m) {
      var n := NextMonthDay(y, m, 1);
      MonthStartStep(y, m);
      MonthDayNumber(n.year, n.month, date - DaysInMonth(y, m));
    }
  }

  /**
   * The date JavaScript's `MakeDay(year, month, date)` denotes, `month`
   * counted from 0: months beyond 11 carry into the year, and a `date`
   * outside the month rolls into the neighbouring months.
   */
  function MakeDate(year: int, month0: int, date: int): Date {
    MonthDay(year + month0 / 12, month0 % 12 + 1, date)
  }

  /** Whatever it rolls over, `MakeDay` denotes a real day. */
  lemma {:induction false} MonthDayValid(y: int, m: int, date: int)
    requires 1 <= m <= 12
    ensures Valid(MonthDay(y, m, date))
    decreases if date < 1 then 100 - date else date
  {
    if date < 1 {
      var p := PrevMonthLast(y, m);
      MonthDayValid(p.year, p.month, date + p.day);
    } else if date > DaysInMonth(y, m) {
      var n := NextMonthDay(y, m, 1);
      MonthDayValid(n.year, n.month, date - DaysInMonth(y, m));
    }
  }

  lemma MakeDateValid(year: int, month0: int, date: int)
    ensures Valid(MakeDate(year, month0, date))
  {
    MonthDayValid(year + month0 / 12, month0 % 12 + 1, date);
  }

  /** `MakeDay`'s definition: the first day of the normalised month, plus `date - 1` days. */
  lemma MakeDateNumber(year: int, month0: int, date: int)
    ensures Valid(MakeDate(year, month0, date))
    ensures DayNumber(MakeDate(year, month0, date)) ==
            DayNumber(Date(year + month0 / 12, month0 % 12 + 1, 1)) + date - 1
  {
    MonthDayNumber(year + month0 / 12, month0 % 12 + 1, date);
  }

  /** `d.setDate(date)`. */
  function SetDate(d: Date, date: int): Date {
    MakeDate(d.year, d.month - 1, date)
  }

  /**
   * `MakeDay(year, month0, date)` for a `date` the day of some month can
   * hold (1 to 31): that day of the normalised month, or a few days into the
   * following month when that month is shorter.
   */
  function MakeDateOfDay(year: int, month0: int, date: int): Date {
    var y, m := year + month0 / 12, month0 % 12 + 1;
    if date <= DaysInMonth(y, m) then Date(y, m, date)
    else NextMonthDay(y, m, date - DaysInMonth(y, m))
  }

  /** Within a year (`month0` from 0 to 11) no month carries into the year. */
  lemma MakeDateOfDayInYear(year: int, month0: int, date: int)
    requires 0 <= month0 <= 11
    ensures MakeDateOfDay(year, month0, date) ==
      if date <= DaysInMonth(year, month0 + 1) then Date(year, month0 + 1, date)
      else NextMonthDay(year, month0 + 1, date - DaysInMonth(year, month0 + 1))
  {
    assert month0 / 12 == 0 && month0 % 12 == month0;
  }

  /** `d.setMonth(month0)`: the day of the month is kept and may overflow. */
  function SetMonth(d: Date, month0: int): Date {
    MakeDateOfDay(d.year, month0, d.day)
  }

  /** `d.setFullYear(year)`: month and day are kept and may overflow. */
  function SetFullYear(d: Date, year: int): Date {
    MakeDateOfDay(year, d.month - 1, d.day)
  }

  /** Up to 28 days past the end of a month roll into the next month. */
  lemma MonthDayRolls(y: int, m: int, date: int)
    requires 1 <= m <= 12 && DaysInMonth(y, m) < date <= DaysInMonth(y, m) + 28
    ensures MonthDay(y, m, date) == NextMonthDay(y, m, date - DaysInMonth(y, m))
  {
    var n := NextMonthDay(y, m, 1);
    assert MonthDay(y, m, date) == MonthDay(n.year, n.month, date - DaysInMonth(y, m));
  }

  /** Day 0 of a month is the last day of the previous month. */
  lemma MonthDayZero(y: int, m: int)
    requires 1 <= m <= 12
    ensures MonthDay(y, m, 0) == PrevMonthLast(y, m)
  {
    var p := PrevMonthLast(y, m);
    assert MonthDay(y, m, 0) == MonthDay(p.year, p.month, p.day);
  }

  /**
   * `d.setDate(date)` for the arguments the engine uses: 0 is the last day
   * of the previous month, a day the month has is kept, and up to 28 days
   * past the end roll into the next month.
   */
  lemma SetDateSpec(d: Date, date: int)
    requires Valid(d) && 0 <= date <= DaysInMonth(d.year, d.month) + 28
    ensures SetDate(d, date) ==
      if date == 0 then PrevMonthLast(d.year, d.month)
      else if date <= DaysInMonth(d.year, d.month) then Date(d.year, d.month, date)
      else NextMonthDay(d.year, d.month, date - DaysInMonth(d.year, d.month))
  {
    assert (d.month - 1) / 12 == 0 && (d.month - 1) % 12 + 1 == d.month;
    if date == 0 {
      MonthDayZero(d.year, d.month);
    } else if date > DaysInMonth(d.year, d.month) {
      MonthDayRolls(d.year, d.month, date);
    }
  }

  /** For a day of the month, the short form is `MakeDay` itself. */
  lemma MakeDateOfDayAgrees(year: int, month0: int, date: int)
    requires 1 <= date <= 31
    ensures MakeDateOfDay(year, month0, date) == MakeDate(year, month0, date)
  {
    var y, m := year + month0 / 12, month0 % 12 + 1;
    if date > DaysInMonth(y, m) {
      MonthDayRolls(y, m, date);
    }
  }

  /**
   * `setMonth` and `setFullYear` on a real day are `MakeDay` with the day
   * kept: months beyond 11 carry into the year, and a day the target month
   * lacks rolls into the next month.
   */
  lemma SettersAreMakeDay(d: Date, month0: int, year: int)
    requires Valid(d)
    ensures SetMonth(d, month0) == MakeDate(d.year, month0, d.day)
    ensures SetFullYear(d, year) == MakeDate(year, d.month - 1, d.day)
  {
    MakeDateOfDayAgrees(d.year, month0, d.day);
    MakeDateOfDayAgrees(year, d.month - 1, d.day);
  }

  lemma {:induction false} DaysBeforeYearMonotone(y1: int, y2: int)
    requires y1 < y2
    ensures DaysBeforeYear(y1) + YearLength(y1) <= DaysBeforeYear(y2)
    decreases y2 - y1
  {
    YearLengthStep(y1);
    if y1 + 1 < y2 {
      DaysBeforeYearMonotone(y1 + 1, y2);
    }
  }

  lemma DayNumberWithinYear(d: Date)
    requires Valid(d)
    ensures DaysBeforeYear(d.year) <= DayNumber(d) < DaysBeforeYear(d.year) + YearLength(d.year)
  {
    MonthLengthStep(d.year, d.month);
    if d.month < 12 {
      MonthLengthStep(d.year, 12);
    }
  }

  /** The time-value order of dates is calendar order, and equal time values mean equal dates. */
  lemma DayNumberOrder(a: Date, b: Date)
    requires Valid(a) && Valid(b)
    ensures Before(a, b) <==> LexBefore(a, b)
    ensures DayNumber(a) == DayNumber(b) <==> a == b
  {
    DayNumberWithinYear(a);
    DayNumberWithinYear(b);
    if a.year < b.year {
      DaysBeforeYearMonotone(a.year, b.year);
    } else if b.year < a.year {
      DaysBeforeYearMonotone(b.year, a.year);
    } else if a.month < b.month {
      MonthLengthStep(a.year, a.month);
    } else if b.month < a.month {
      MonthLengthStep(b.year, b.month);
    }
  }

  /** Comparing time values is comparing dates field by field. */
  lemma BeforeIsLex(a: Date, b: Date)
    requires Valid(a) && Valid(b)
    ensures Before(a, b) <==> LexBefore(a, b)
  {
    DayNumberOrder(a, b);
  }

  // ---------------------------------------------------------------------
  // The YYYY-MM-DD format

  /** Two decimal digits. */
  function Pad2(n: int): (s: string)
    requires 0 <= n <= 99
    ensures |s| == 2
  {
    [Digit(n / 10), Digit(n % 10)]
  }

  /** Four decimal digits. */
  function Pad4(n: int): (s: string)
    requires 0 <= n <= 9999
    ensures |s| == 4
  {
    Pad2(n / 100) + Pad2(n % 100)
  }

  /** A date `YYYY-MM-DD` can spell: a year of four digits. */
  predicate Formattable(d: Date) {
    Valid(d) && 0 <= d.year <= 9999
  }

  /** The `YYYY-MM-DD` spelling of a date (`formatDate`). */
  function Iso(d: Date): (s: string)
    requires Formattable(d)
    ensures |s| == 10
  {
    Pad4(d.year) + "-" + Pad2(d.month) + "-" + Pad2(d.day)
  }

  predicate AllDigits(t: string) {
    forall i :: 0 <= i < |t| ==> IsDigit(t[i])
  }

  /** The value of a string of decimal digits. */
  function DigitsValue(t: string): (n: nat)
    requires AllDigits(t)
  {
    if |t| == 0 then 0 else DigitsValue(t[..|t| - 1]) * 10 + DigitValue(t[|t| - 1])
  }

  /** Reads a `YYYY-MM-DD` string; anything else, or a day the month lacks, is `None`. */
  function ParseIso(s: string): (r: Option<Date>)
    ensures r.Some? ==> Formattable(r.value)
  {
    if |s| == 10 && s[4] == '-' && s[7] == '-' &&
       AllDigits(s[0..4]) && AllDigits(s[5..7]) && AllDigits(s[8..10])
    then
      var d := Date(DigitsValue(s[0..4]), DigitsValue(s[5..7]), DigitsValue(s[8..10]));
      DigitsValueBound4(s[0..4]);
      if Valid(d) then Some(d) else None
    else None
  }

  predicate IsIsoDate(s: string) {
    ParseIso(s).Some?
  }

  lemma DigitsValue1(t: string)
    requires |t| == 1 && AllDigits(t)
    ensures DigitsValue(t) == DigitValue(t[0])
  {
    assert t[..0] == [];
  }

  lemma DigitsValue2(t: string)
    requires |t| == 2 && AllDigits(t)
    ensures DigitsValue(t) == DigitValue(t[0]) * 10 + DigitValue(t[1])
  {
    assert t[..1] == [t[0]];
    DigitsValue1(t[..1]);
  }

  lemma DigitsValue4(t: string)
    requires |t| == 4 && AllDigits(t)
    ensures DigitsValue(t) == DigitsValue(t[..2]) * 100 + DigitsValue(t[2..])
  {
    assert t[..3][..2] == t[..2];
    assert t[..3][2] == t[2];
    assert t[2..] == [t[2], t[3]];
    DigitsValue2(t[..2]);
    DigitsValue2(t[2..]);
  }

  lemma DigitsValueBound4(t: string)
    requires |t| == 4 && AllDigits(t)
    ensures DigitsValue(t) <= 9999
  {
    DigitsValue4(t);
    DigitsValue2(t[..2]);
    DigitsValue2(t[2..]);
  }

  lemma Pad2Value(n: int)
    requires 0 <= n <= 99
    ensures AllDigits(Pad2(n)) && DigitsValue(Pad2(n)) == n
  {
    DigitsValue2(Pad2(n));
  }

  lemma Pad2OfValue(t: string)
    requires |t| == 2 && AllDigits(t)
    ensures DigitsValue(t) <= 99 && Pad2(DigitsValue(t)) == t
  {
    DigitsValue2(t);
    var a, b := DigitValue(t[0]), DigitValue(t[1]);
    assert (a * 10 + b) / 10 == a && (a * 10 + b) % 10 == b;
  }

  lemma Pad4Value(n: int)
    requires 0 <= n <= 9999
    ensures AllDigits(Pad4(n)) && DigitsValue(Pad4(n)) == n
  {
    var t := Pad4(n);
    assert t[..2] == Pad2(n / 100) && t[2..] == Pad2(n % 100);
    Pad2Value(n / 100);
    Pad2Value(n % 100);
    DigitsValue4(t);
  }

  lemma Pad4OfValue(t: string)
    requires |t| == 4 && AllDigits(t)
    ensures DigitsValue(t) <= 9999 && Pad4(DigitsValue(t)) == t
  {
    var hi, lo := DigitsValue(t[..2]), DigitsValue(t[2..]);
    Pad2OfValue(t[..2]);
    Pad2OfValue(t[2..]);
    var n := DigitsValue(t);
    DigitsValue4(t);
    DivModBy100(n, hi, lo);
    assert t == t[..2] + t[2..];
  }

  /** Every date with a four-digit year reads back from its spelling. */
  lemma ParseIsoOfIso(d: Date)
    requires Formattable(d)
    ensures ParseIso(Iso(d)) == Some(d)
  {
    var s := Iso(d);
    assert s[0..4] == Pad4(d.year) && s[5..7] == Pad2(d.month) && s[8..10] == Pad2(d.day);
    assert s[4] == '-' && s[7] == '-';
    Pad4Value(d.year);
    Pad2Value(d.month);
    Pad2Value(d.day);
  }

  /** Every string that reads as a date is that date's spelling. */
  lemma IsoOfParseIso(s: string)
    requires IsIsoDate(s)
    ensures Iso(ParseIso(s).value) == s
  {
    var d := ParseIso(s).value;
    Pad4OfValue(s[0..4]);
    Pad2OfValue(s[5..7]);
    Pad2OfValue(s[8..10]);
    assert s == s[0..4] + "-" + s[5..7] + "-" + s[8..10];
  }

  lemma StrLessSingle(c: char, e: char)
    ensures StrLess([c], [e]) <==> c < e
  {
    assert [c][1..] == [] && [e][1..] == [];
  }

  lemma Pad2Order(a: int, b: int)
    requires 0 <= a <= 99 && 0 <= b <= 99
    ensures StrLess(Pad2(a), Pad2(b)) <==> a < b
    ensures Pad2(a) == Pad2(b) <==> a == b
  {
    assert Pad2(a) == [Digit(a / 10)] + [Digit(a % 10)];
    assert Pad2(b) == [Digit(b / 10)] + [Digit(b % 10)];
    StrLessAppend([Digit(a / 10)], [Digit(a % 10)], [Digit(b / 10)], [Digit(b % 10)]);
    StrLessSingle(Digit(a / 10), Digit(b / 10));
    StrLessSingle(Digit(a % 10), Digit(b % 10));
    Pad2Value(a);
    Pad2Value(b);
  }

  lemma Pad4Order(a: int, b: int)
    requires 0 <= a <= 9999 && 0 <= b <= 9999
    ensures StrLess(Pad4(a), Pad4(b)) <==> a < b
    ensures Pad4(a) == Pad4(b) <==> a == b
  {
    StrLessAppend(Pad2(a / 100), Pad2(a % 100), Pad2(b / 100), Pad2(b % 100));
    Pad2Order(a / 100, b / 100);
    Pad2Order(a % 100, b % 100);
    Pad4Value(a);
    Pad4Value(b);
  }

  /**
   * Comparing two `YYYY-MM-DD` spellings as strings orders them exactly as
   * the dates they spell.
   */
  lemma IsoOrder(a: Date, b: Date)
    requires Formattable(a) && Formattable(b)
    ensures StrLess(Iso(a), Iso(b)) <==> Before(a, b)
  {
    DayNumberOrder(a, b);
    var ra := "-" + Pad2(a.month) + "-" + Pad2(a.day);
    var rb := "-" + Pad2(b.month) + "-" + Pad2(b.day);
    assert Iso(a) == Pad4(a.year) + ra && Iso(b) == Pad4(b.year) + rb;
    StrLessAppend(Pad4(a.year), ra, Pad4(b.year), rb);
    Pad4Order(a.year, b.year);
    var ma := Pad2(a.month) + "-" + Pad2(a.day);
    var mb := Pad2(b.month) + "-" + Pad2(b.day);
    assert ra == "-" + ma && rb == "-" + mb;
    StrLessAppend("-", ma, "-", mb);
    StrLessIrreflexive("-");
    assert ma == Pad2(a.month) + ("-" + Pad2(a.day)) && mb == Pad2(b.month) + ("-" + Pad2(b.day));
    StrLessAppend(Pad2(a.month), "-" + Pad2(a.day), Pad2(b.month), "-" + Pad2(b.day));
    Pad2Order(a.month, b.month);
    StrLessAppend("-", Pad2(a.day), "-", Pad2(b.day));
    Pad2Order(a.day, b.day);
  }
}
