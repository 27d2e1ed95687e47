/**
 * The recurring-event date engine: `calculateRecurringDates` walks from the
 * start date one occurrence at a time, and `generateRepeatEvents` copies a
 * template event onto every date of the walk.
 */
module Recurrence {
  import opened Wrappers
  import opened Strings
  import opened Calendar
  import opened Types

  /** The hard ceiling: no generated date lies after it. */
  const MaxEndDate: string := "2025-10-30"

  const Ceiling: Date := Date(2025, 10, 30)

  lemma MaxEndDateParses()
    ensures Formattable(Ceiling) && Iso(Ceiling) == MaxEndDate
    ensures ParseIso(MaxEndDate) == Some(Ceiling)
  {
    assert Pad4(2025) == Pad2(20) + Pad2(25) == "2025";
    assert Pad2(10) == "10" && Pad2(30) == "30";
    ParseIsoOfIso(Ceiling);
  }

  /**
   * What the walk keeps true of the current date: it is a real day, and the
   * saved anchor month (counted from 0) and anchor day are in range. A
   * monthly walk stays on the anchor day; a yearly walk stays in the anchor
   * month on the anchor day, except that a February 29 anchor sits on
   * February 28 in a year that has no 29th.
   */
  predicate Anchored(cur: Date, repeatType: RepeatType, originalMonth: int, originalDay: int) {
    Valid(cur) && 0 <= originalMonth <= 11 && 1 <= originalDay <= 31 &&
    (repeatType == Monthly ==> cur.day == originalDay) &&
    (repeatType == Yearly ==>
      cur.month == originalMonth + 1 &&
      (cur.day == originalDay ||
       (originalMonth == 1 && originalDay == 29 && cur.day == 28 && !IsLeapYear(cur.year))))
  }

  /**
   * One step of the walk: the `switch` that derives `nextDate` from a copy of
   * `currentDate` with the `Date` setters. The switch has no case for
   * `'none'`, which leaves the copy as it is.
   */
  function NextOccurrence(cur: Date, repeatType: RepeatType, interval: int, originalMonth: int, originalDay: int): Date
  {
    match repeatType
    case Daily =>
      SetDate(cur, cur.day + interval)
    case Weekly =>
      SetDate(cur, cur.day + interval * 7)
    case Monthly =>
      var next := SetDate(SetMonth(cur, cur.month - 1 + interval), originalDay);
      if next.day != originalDay then SetDate(next, 0) else next
    case Yearly =>
      var moved :=
        if originalMonth == 1 && originalDay == 29 then SetFullYear(cur, cur.year + 4)
        else SetFullYear(cur, cur.year + interval);
      var next := SetDate(SetMonth(moved, originalMonth), originalDay);
      if next.month - 1 != originalMonth || next.day != originalDay then SetDate(next, 0) else next
    case NoRepeat =>
      cur
  }

  /** `setDate(getDate() + k)` moves a date by exactly `k` days. */
  lemma SetDateShift(cur: Date, k: int)
    requires Valid(cur)
    ensures Valid(SetDate(cur, cur.day + k))
    ensures DayNumber(SetDate(cur, cur.day + k)) == DayNumber(cur) + k
  {
    var m0 := cur.month - 1;
    assert m0 / 12 == 0 && m0 % 12 + 1 == cur.month;
    assert DayNumber(cur) == DayNumber(Date(cur.year, cur.month, 1)) + cur.day - 1;
    MakeDateNumber(cur.year, m0, cur.day + k);
  }

  /** Daily and weekly steps move the time value by `interval` and `7 * interval` days. */
  lemma DailyWeeklyStep(cur: Date, repeatType: RepeatType, interval: int, originalMonth: int, originalDay: int)
    requires Valid(cur) && (repeatType == Daily || repeatType == Weekly)
    ensures var next := NextOccurrence(cur, repeatType, interval, originalMonth, originalDay);
      Valid(next) && DayNumber(next) == DayNumber(cur) + (if repeatType == Daily then interval else 7 * interval)
  {
    if repeatType == Daily {
      SetDateShift(cur, interval);
    } else {
      SetDateShift(cur, interval * 7);
    }
  }

  /**
   * The month a monthly step aimed at month index `t` lands in: `t` itself
   * when it has day `day`, the month after otherwise.
   */
  function LandingMonth(t: int, day: int): int {
    if day <= DaysInMonthAt(t) then t else t + 1
  }

  /**
   * Month `m` of year `y`, `interval` months after `cur`'s month, as
   * `setMonth` normalises it: day `day` of it, or of the month after when it
   * is too short, lies in the month `LandingMonth` names.
   */
  lemma MonthShift(cur: Date, interval: int, day: int)
    requires Valid(cur)
    ensures var y, m := cur.year + (cur.month - 1 + interval) / 12, (cur.month - 1 + interval) % 12 + 1;
      LandingMonth(MonthIndex(cur) + interval, day) ==
        MonthIndex(if day <= DaysInMonth(y, m) then Date(y, m, day) else NextMonthDay(y, m, day))
  {
    var t := MonthIndex(cur) + interval;
    var y, m := cur.year + (cur.month - 1 + interval) / 12, (cur.month - 1 + interval) % 12 + 1;
    assert 12 * y + m - 1 == t;
    assert t / 12 == y && t % 12 + 1 == m;
    assert DaysInMonthAt(t) == DaysInMonth(y, m);
  }

  /** When `setDate` keeps the anchor day, the monthly case returns its result uncorrected. */
  lemma MonthlyNoCorrection(cur: Date, interval: int, originalMonth: int, originalDay: int)
    requires SetDate(SetMonth(cur, cur.month - 1 + interval), originalDay).day == originalDay
    ensures NextOccurrence(cur, Monthly, interval, originalMonth, originalDay) ==
            SetDate(SetMonth(cur, cur.month - 1 + interval), originalDay)
  {
  }

  /**
   * Monthly step from a date on the anchor day: `setMonth` lands on the
   * anchor day of the target month when that month has it, and otherwise
   * overflows into the following month, where `setDate` puts it back on the
   * anchor day. The end-of-month correction is never taken.
   */
  lemma MonthlyStep(cur: Date, interval: int, originalMonth: int, originalDay: int)
    requires Valid(cur) && cur.day == originalDay
    ensures var y, m := cur.year + (cur.month - 1 + interval) / 12, (cur.month - 1 + interval) % 12 + 1;
      SetDate(SetMonth(cur, cur.month - 1 + interval), originalDay).day == originalDay &&
      NextOccurrence(cur, Monthly, interval, originalMonth, originalDay) ==
        if originalDay <= DaysInMonth(y, m) then Date(y, m, originalDay) else NextMonthDay(y, m, originalDay)
  {
    var y, m := cur.year + (cur.month - 1 + interval) / 12, (cur.month - 1 + interval) % 12 + 1;
    var moved := SetMonth(cur, cur.month - 1 + interval);
    if originalDay <= DaysInMonth(y, m) {
      assert moved == Date(y, m, originalDay);
      SetDateSpec(moved, originalDay);
    } else {
      assert moved == NextMonthDay(y, m, originalDay - DaysInMonth(y, m));
      assert originalDay <= DaysInMonth(moved.year, moved.month);
      SetDateSpec(moved, originalDay);
      assert SetDate(moved, originalDay) == NextMonthDay(y, m, originalDay);
    }
    MonthlyNoCorrection(cur, interval, originalMonth, originalDay);
  }

  /** `b` is on day `day` of the month a monthly step of `interval` from `a` lands in. */
  predicate MonthlyGap(a: Date, b: Date, interval: int, day: int) {
    b.day == day && MonthIndex(b) == LandingMonth(MonthIndex(a) + interval, day)
  }

  /** Monthly steps keep the anchor day and advance by `interval` months, or one more past a short month. */
  lemma MonthlyNext(cur: Date, interval: int, originalMonth: int, originalDay: int)
    requires Valid(cur) && cur.day == originalDay
    ensures var next := NextOccurrence(cur, Monthly, interval, originalMonth, originalDay);
      Valid(next) && MonthlyGap(cur, next, interval, originalDay)
  {
    MonthlyStep(cur, interval, originalMonth, originalDay);
    MonthShift(cur, interval, originalDay);
  }

  /**
   * From an ordinary anchor, when `setDate` lands on the anchor month and
   * day, the yearly case returns its result uncorrected.
   */
  lemma YearlyNoCorrection(cur: Date, interval: int, originalMonth: int, originalDay: int)
    requires !(originalMonth == 1 && originalDay == 29)
    requires var next := SetDate(SetMonth(SetFullYear(cur, cur.year + interval), originalMonth), originalDay);
      next.month - 1 == originalMonth && next.day == originalDay
    ensures NextOccurrence(cur, Yearly, interval, originalMonth, originalDay) ==
            SetDate(SetMonth(SetFullYear(cur, cur.year + interval), originalMonth), originalDay)
  {
  }

  /** Yearly step from an ordinary anchor: same month and day, `interval` years later. */
  lemma YearlyStepOrdinary(cur: Date, interval: int, originalMonth: int, originalDay: int)
    requires Valid(cur) && cur.month == originalMonth + 1 && cur.day == originalDay
    requires !(originalMonth == 1 && originalDay == 29)
    ensures NextOccurrence(cur, Yearly, interval, originalMonth, originalDay) ==
            Date(cur.year + interval, cur.month, cur.day)
  {
    var target := Date(cur.year + interval, cur.month, cur.day);
    assert cur.day <= DaysInMonth(target.year, cur.month);
    MakeDateOfDayInYear(target.year, originalMonth, cur.day);
    var moved := SetFullYear(cur, target.year);
    assert moved == target;
    assert SetMonth(moved, originalMonth) == target;
    SetDateSpec(target, originalDay);
    assert SetDate(target, originalDay) == target;
    YearlyNoCorrection(cur, interval, originalMonth, originalDay);
  }

  /**
   * Yearly step from a February 29 anchor: four years later whatever the
   * interval, on February 29 if that year has one and on February 28 if not.
   */
  lemma YearlyStepLeapDay(cur: Date, interval: int)
    requires Valid(cur) && cur.month == 2 && (cur.day == 29 || (cur.day == 28 && !IsLeapYear(cur.year)))
    ensures NextOccurrence(cur, Yearly, interval, 1, 29) ==
            Date(cur.year + 4, 2, if IsLeapYear(cur.year + 4) then 29 else 28)
  {
    var y := cur.year + 4;
    MakeDateOfDayInYear(y, 1, cur.day);
    var moved := SetFullYear(cur, y);
    MakeDateOfDayInYear(y, 1, moved.day);
    var feb := SetMonth(moved, 1);
    assert feb.year == y && feb.month == 2;
    SetDateSpec(feb, 29);
    if !IsLeapYear(y) {
      SetDateSpec(Date(y, 3, 1), 0);
    }
  }

  /** Every step moves strictly forward and keeps the anchor facts. */
  lemma NextOccurrenceAdvances(cur: Date, repeatType: RepeatType, interval: int, originalMonth: int, originalDay: int)
    requires Anchored(cur, repeatType, originalMonth, originalDay)
    requires repeatType != NoRepeat && interval > 0
    ensures var next := NextOccurrence(cur, repeatType, interval, originalMonth, originalDay);
      Anchored(next, repeatType, originalMonth, originalDay) && LexBefore(cur, next)
  {
    var next := NextOccurrence(cur, repeatType, interval, originalMonth, originalDay);
    if repeatType == Daily || repeatType == Weekly {
      DailyWeeklyStep(cur, repeatType, interval, originalMonth, originalDay);
      DayNumberOrder(cur, next);
    } else if repeatType == Monthly {
      MonthlyNext(cur, interval, originalMonth, originalDay);
    } else if originalMonth == 1 && originalDay == 29 {
      YearlyStepLeapDay(cur, interval);
    } else {
      YearlyStepOrdinary(cur, interval, originalMonth, originalDay);
    }
  }

  /**
   * A step function and the facts it keeps: every date `keep` accepts is a
   * real day, and its next date is accepted too and comes later in the
   * calendar.
   */
  ghost predicate Advancing(next: Date -> Date, keep: Date -> bool) {
    (forall d {:trigger keep(d)} :: keep(d) ==> Valid(d)) &&
    (forall d {:trigger next(d)} :: keep(d) ==> keep(next(d)) && LexBefore(d, next(d)))
  }

  /**
   * The dates the `while` loop visits from `cur` on, for any step: every
   * date not after `end`, each one step after the previous.
   */
  function WalkBy(cur: Date, end: Date, next: Date -> Date, keep: Date -> bool): seq<Date>
    requires keep(cur) && Valid(end) && Advancing(next, keep)
    decreases Ordinal(end) - Ordinal(cur)
  {
    if LexBefore(end, cur) then []
    else
      OrdinalOrder(end, cur);
      OrdinalOrder(cur, next(cur));
      [cur] + WalkBy(next(cur), end, next, keep)
  }

  /** One turn of the loop: a walk that has not passed `end` is its first date followed by the walk from the next one. */
  lemma WalkUnfold(cur: Date, end: Date, next: Date -> Date, keep: Date -> bool)
    requires keep(cur) && Valid(end) && Advancing(next, keep) && !LexBefore(end, cur)
    ensures keep(next(cur)) && LexBefore(cur, next(cur))
    ensures WalkBy(cur, end, next, keep) == [cur] + WalkBy(next(cur), end, next, keep)
  {
  }

  /**
   * The walk is empty exactly when it starts after `end`; otherwise it
   * starts at `cur`, and the step after its last date passes `end` (the loop
   * stops only then).
   */
  lemma {:induction false} WalkEnds(cur: Date, end: Date, next: Date -> Date, keep: Date -> bool)
    requires keep(cur) && Valid(end) && Advancing(next, keep)
    ensures var w := WalkBy(cur, end, next, keep);
      (w == [] <==> LexBefore(end, cur)) &&
      (w != [] ==> w[0] == cur && LexBefore(end, next(w[|w| - 1])))
    decreases Ordinal(end) - Ordinal(cur)
  {
    if !LexBefore(end, cur) {
      OrdinalOrder(end, cur);
      OrdinalOrder(cur, next(cur));
      WalkEnds(next(cur), end, next, keep);
      var rest := WalkBy(next(cur), end, next, keep);
      var w := WalkBy(cur, end, next, keep);
      assert w == [cur] + rest;
      if rest != [] {
        assert w[|w| - 1] == rest[|rest| - 1];
      }
    }
  }

  /** Every date is accepted by `keep`. */
  predicate AllKept(ds: seq<Date>, keep: Date -> bool) {
    forall i :: 0 <= i < |ds| ==> keep(ds[i])
  }

  /** Every date lies between `lo` and `hi`, both included. */
  predicate Within(ds: seq<Date>, lo: Date, hi: Date) {
    forall i :: 0 <= i < |ds| ==> !LexBefore(ds[i], lo) && !LexBefore(hi, ds[i])
  }

  /** Each date is `next` of the previous one. */
  predicate ChainedBy(ds: seq<Date>, next: Date -> Date) {
    forall i :: 0 <= i < |ds| - 1 ==> ds[i + 1] == next(ds[i])
  }

  predicate StrictlyIncreasing(ds: seq<Date>) {
    forall i, j :: 0 <= i < j < |ds| ==> LexBefore(ds[i], ds[j])
  }

  /**
   * Every date of the walk is accepted by `keep` and lies between `cur` and
   * `end`, and each date is one step after the previous one.
   */
  lemma {:induction false} WalkSteps(cur: Date, end: Date, next: Date -> Date, keep: Date -> bool)
    requires keep(cur) && Valid(end) && Advancing(next, keep)
    ensures AllKept(WalkBy(cur, end, next, keep), keep)
    ensures Within(WalkBy(cur, end, next, keep), cur, end)
    ensures ChainedBy(WalkBy(cur, end, next, keep), next)
    decreases Ordinal(end) - Ordinal(cur)
  {
    if !LexBefore(end, cur) {
      var n := next(cur);
      OrdinalOrder(end, cur);
      OrdinalOrder(cur, n);
      WalkSteps(n, end, next, keep);
      WalkEnds(n, end, next, keep);
      var rest := WalkBy(n, end, next, keep);
      var w := WalkBy(cur, end, next, keep);
      assert w == [cur] + rest;
      forall i | 0 <= i < |w|
        ensures keep(w[i]) && !LexBefore(w[i], cur) && !LexBefore(end, w[i])
      {
        if i > 0 {
          assert w[i] == rest[i - 1];
          OrdinalOrder(w[i], n);
          OrdinalOrder(w[i], cur);
        }
      }
      forall i | 0 <= i < |w| - 1
        ensures w[i + 1] == next(w[i])
      {
        if i > 0 {
          assert w[i] == rest[i - 1] && w[i + 1] == rest[i];
        }
      }
    }
  }

  /** The dates of the walk strictly increase. */
  lemma {:induction false} WalkIncreasing(cur: Date, end: Date, next: Date -> Date, keep: Date -> bool)
    requires keep(cur) && Valid(end) && Advancing(next, keep)
    ensures StrictlyIncreasing(WalkBy(cur, end, next, keep))
    decreases Ordinal(end) - Ordinal(cur)
  {
    if !LexBefore(end, cur) {
      var n := next(cur);
      OrdinalOrder(end, cur);
      OrdinalOrder(cur, n);
      WalkIncreasing(n, end, next, keep);
      WalkSteps(n, end, next, keep);
      var rest := WalkBy(n, end, next, keep);
      var w := WalkBy(cur, end, next, keep);
      assert w == [cur] + rest;
      forall i, j | 0 <= i < j < |w| ensures LexBefore(w[i], w[j]) {
        if i == 0 {
          assert w[j] == rest[j - 1];
          OrdinalOrder(w[j], n);
          OrdinalOrder(cur, w[j]);
        } else {
          assert w[i] == rest[i - 1] && w[j] == rest[j - 1];
        }
      }
    }
  }

  /**
   * One step from the `k`-th date of a walk: the next date is the walk's
   * following date or, after its last one, a date past `end`.
   */
  lemma WalkAdvance(cur: Date, end: Date, next: Date -> Date, keep: Date -> bool, k: int)
    requires keep(cur) && Valid(end) && Advancing(next, keep)
    requires 0 <= k < |WalkBy(cur, end, next, keep)|
    ensures var w := WalkBy(cur, end, next, keep);
      keep(next(w[k])) && (k + 1 < |w| ==> w[k + 1] == next(w[k])) && (k + 1 == |w| ==> LexBefore(end, next(w[k])))
  {
    WalkSteps(cur, end, next, keep);
    WalkEnds(cur, end, next, keep);
  }

  /**
   * The walk is the only sequence that starts at `cur`, steps from each date
   * to the next, stays up to `end` and whose following step passes `end`.
   */
  lemma {:induction false} WalkIsTheChain(ds: seq<Date>, end: Date, next: Date -> Date, keep: Date -> bool)
    requires |ds| > 0 && keep(ds[0]) && Valid(end) && Advancing(next, keep)
    requires ChainedBy(ds, next)
    requires forall i :: 0 <= i < |ds| ==> !LexBefore(end, ds[i])
    requires LexBefore(end, next(ds[|ds| - 1]))
    ensures WalkBy(ds[0], end, next, keep) == ds
    decreases |ds|
  {
    WalkUnfold(ds[0], end, next, keep);
    if |ds| == 1 {
      assert WalkBy(next(ds[0]), end, next, keep) == [];
    } else {
      var rest := ds[1..];
      assert rest[0] == next(ds[0]);
      assert ChainedBy(rest, next) by {
        forall i | 0 <= i < |rest| - 1 ensures rest[i + 1] == next(rest[i]) {
          assert rest[i] == ds[i + 1] && rest[i + 1] == ds[i + 2];
        }
      }
      assert rest[|rest| - 1] == ds[|ds| - 1];
      WalkIsTheChain(rest, end, next, keep);
      assert ds == [ds[0]] + rest;
    }
  }

  predicate AllFormattable(ds: seq<Date>) {
    forall i :: 0 <= i < |ds| ==> Formattable(ds[i])
  }

  /** A walk between two four-digit-year dates stays within four-digit years. */
  lemma WalkFormattable(cur: Date, end: Date, next: Date -> Date, keep: Date -> bool)
    requires keep(cur) && Formattable(end) && Advancing(next, keep) && 0 <= cur.year
    ensures AllFormattable(WalkBy(cur, end, next, keep))
  {
    WalkSteps(cur, end, next, keep);
    var w := WalkBy(cur, end, next, keep);
    forall i | 0 <= i < |w| ensures Formattable(w[i]) {
      assert keep(w[i]);
      assert !LexBefore(w[i], cur) && !LexBefore(end, w[i]);
    }
  }

  // ---------------------------------------------------------------------
  // The walk of one repeat rule

  /** The rule's step as a function of the current date. */
  function Step(repeatType: RepeatType, interval: int, originalMonth: int, originalDay: int): Date -> Date {
    d => NextOccurrence(d, repeatType, interval, originalMonth, originalDay)
  }

  /** The rule's anchor facts as a test on dates. */
  function Keep(repeatType: RepeatType, originalMonth: int, originalDay: int): Date -> bool {
    d => Anchored(d, repeatType, originalMonth, originalDay)
  }

  /** The step of every repeat rule with a positive interval advances and keeps the anchor facts. */
  lemma StepAdvances(repeatType: RepeatType, interval: int, originalMonth: int, originalDay: int)
    requires repeatType != NoRepeat && interval > 0
    ensures Advancing(Step(repeatType, interval, originalMonth, originalDay), Keep(repeatType, originalMonth, originalDay))
  {
    var next, keep := Step(repeatType, interval, originalMonth, originalDay), Keep(repeatType, originalMonth, originalDay);
    forall d | keep(d) ensures Valid(d) && keep(next(d)) && LexBefore(d, next(d)) {
      NextOccurrenceAdvances(d, repeatType, interval, originalMonth, originalDay);
    }
    assert forall d {:trigger keep(d)} :: keep(d) ==> Valid(d);
  }

  /** The dates the loop visits for one rule, from `cur` up to `end`. */
  function Walk(cur: Date, end: Date, repeatType: RepeatType, interval: int, originalMonth: int, originalDay: int): seq<Date>
    requires Anchored(cur, repeatType, originalMonth, originalDay) && Valid(end)
    requires repeatType != NoRepeat && interval > 0
  {
    StepAdvances(repeatType, interval, originalMonth, originalDay);
    WalkBy(cur, end, Step(repeatType, interval, originalMonth, originalDay), Keep(repeatType, originalMonth, originalDay))
  }

  /** Every date keeps the anchor facts. */
  predicate AllAnchored(ds: seq<Date>, repeatType: RepeatType, originalMonth: int, originalDay: int) {
    forall i :: 0 <= i < |ds| ==> Anchored(ds[i], repeatType, originalMonth, originalDay)
  }

  /** Each date is one step after the previous one. */
  predicate Chained(ds: seq<Date>, repeatType: RepeatType, interval: int, originalMonth: int, originalDay: int) {
    forall i :: 0 <= i < |ds| - 1 ==> ds[i + 1] == NextOccurrence(ds[i], repeatType, interval, originalMonth, originalDay)
  }

  /** The earlier of the end date and the ceiling (`actualEnd`). */
  function EffectiveEnd(end: Date): (actualEnd: Date)
    requires Valid(end)
    ensures Valid(actualEnd) && !LexBefore(end, actualEnd) && !LexBefore(Ceiling, actualEnd)
    ensures actualEnd == end || actualEnd == Ceiling
  {
    if LexBefore(Ceiling, end) then Ceiling else end
  }

  /**
   * The dates of the recurring path, before formatting: nothing when the
   * start is after the end date or after the ceiling, otherwise the walk
   * from the start up to the earlier of the end date and the ceiling, with
   * the start's month and day as the anchor.
   */
  function Occurrences(start: Date, end: Date, repeatType: RepeatType, interval: int): seq<Date>
    requires Valid(start) && Valid(end) && repeatType != NoRepeat && interval > 0
  {
    if LexBefore(end, start) || LexBefore(Ceiling, start) then []
    else Walk(start, EffectiveEnd(end), repeatType, interval, start.month - 1, start.day)
  }

  /**
   * The same guards and end stated with time-value comparisons of `Date`
   * objects, as `calculateRecurringDates` writes them.
   */
  lemma OccurrencesByTimeValue(start: Date, end: Date, repeatType: RepeatType, interval: int)
    requires Valid(start) && Valid(end) && repeatType != NoRepeat && interval > 0
    ensures Occurrences(start, end, repeatType, interval) ==
      if Before(end, start) || Before(Ceiling, start) then []
      else Walk(start, if Before(Ceiling, end) then Ceiling else end, repeatType, interval, start.month - 1, start.day)
  {
    DayNumberOrder(end, start);
    DayNumberOrder(Ceiling, start);
    DayNumberOrder(Ceiling, end);
  }

  /**
   * The guards: the result is empty exactly when the start is after the end
   * date or after the ceiling, and otherwise it begins with the start date.
   */
  lemma OccurrencesEnds(start: Date, end: Date, repeatType: RepeatType, interval: int)
    requires Valid(start) && Valid(end) && repeatType != NoRepeat && interval > 0
    ensures var r := Occurrences(start, end, repeatType, interval);
      (r == [] <==> LexBefore(end, start) || LexBefore(Ceiling, start)) &&
      (r != [] ==> r[0] == start)
  {
    if !(LexBefore(end, start) || LexBefore(Ceiling, start)) {
      var om, od := start.month - 1, start.day;
      StepAdvances(repeatType, interval, om, od);
      WalkEnds(start, EffectiveEnd(end), Step(repeatType, interval, om, od), Keep(repeatType, om, od));
    }
  }

  /**
   * The walk stops only because the next step from its last date would pass
   * `end`: the loop's exit condition.
   */
  lemma WalkStop(cur: Date, end: Date, repeatType: RepeatType, interval: int, originalMonth: int, originalDay: int)
    requires Anchored(cur, repeatType, originalMonth, originalDay) && Valid(end)
    requires repeatType != NoRepeat && interval > 0
    ensures var w := Walk(cur, end, repeatType, interval, originalMonth, originalDay);
      w != [] ==> LexBefore(end, NextOccurrence(w[|w| - 1], repeatType, interval, originalMonth, originalDay))
  {
    StepAdvances(repeatType, interval, originalMonth, originalDay);
    WalkEnds(cur, end, Step(repeatType, interval, originalMonth, originalDay), Keep(repeatType, originalMonth, originalDay));
  }

  /**
   * The bounds: every date lies between the start date and both the end
   * date and the ceiling, and the dates strictly increase.
   */
  lemma OccurrencesBounds(start: Date, end: Date, repeatType: RepeatType, interval: int)
    requires Valid(start) && Valid(end) && repeatType != NoRepeat && interval > 0
    ensures Within(Occurrences(start, end, repeatType, interval), start, end)
    ensures Within(Occurrences(start, end, repeatType, interval), start, Ceiling)
    ensures StrictlyIncreasing(Occurrences(start, end, repeatType, interval))
  {
    if !(LexBefore(end, start) || LexBefore(Ceiling, start)) {
      var om, od := start.month - 1, start.day;
      StepAdvances(repeatType, interval, om, od);
      WalkSteps(start, EffectiveEnd(end), Step(repeatType, interval, om, od), Keep(repeatType, om, od));
      WalkIncreasing(start, EffectiveEnd(end), Step(repeatType, interval, om, od), Keep(repeatType, om, od));
    }
  }

  /** Every date keeps the start's anchor facts and is one step after the previous one. */
  lemma OccurrencesSteps(start: Date, end: Date, repeatType: RepeatType, interval: int)
    requires Valid(start) && Valid(end) && repeatType != NoRepeat && interval > 0
    ensures AllAnchored(Occurrences(start, end, repeatType, interval), repeatType, start.month - 1, start.day)
    ensures Chained(Occurrences(start, end, repeatType, interval), repeatType, interval, start.month - 1, start.day)
  {
    if !(LexBefore(end, start) || LexBefore(Ceiling, start)) {
      var om, od := start.month - 1, start.day;
      var next, keep := Step(repeatType, interval, om, od), Keep(repeatType, om, od);
      StepAdvances(repeatType, interval, om, od);
      WalkSteps(start, EffectiveEnd(end), next, keep);
      var r := WalkBy(start, EffectiveEnd(end), next, keep);
      assert r == Occurrences(start, end, repeatType, interval);
      forall i | 0 <= i < |r| ensures Anchored(r[i], repeatType, om, od) {
        assert keep(r[i]);
      }
      forall i | 0 <= i < |r| - 1 ensures r[i + 1] == NextOccurrence(r[i], repeatType, interval, om, od) {
        assert r[i + 1] == next(r[i]);
      }
    }
  }

  /** Daily and weekly: consecutive dates are exactly `interval` and `7 * interval` days apart. */
  lemma DailyWeeklySpacing(start: Date, end: Date, repeatType: RepeatType, interval: int)
    requires Valid(start) && Valid(end) && (repeatType == Daily || repeatType == Weekly) && interval > 0
    ensures var r := Occurrences(start, end, repeatType, interval);
      (forall i :: 0 <= i < |r| ==> Valid(r[i])) &&
      (forall i :: 0 <= i < |r| - 1 ==>
        DayNumber(r[i + 1]) == DayNumber(r[i]) + (if repeatType == Daily then interval else 7 * interval))
  {
    var r := Occurrences(start, end, repeatType, interval);
    OccurrencesSteps(start, end, repeatType, interval);
    forall i | 0 <= i < |r| - 1
      ensures DayNumber(r[i + 1]) == DayNumber(r[i]) + (if repeatType == Daily then interval else 7 * interval)
    {
      DailyWeeklyStep(r[i], repeatType, interval, start.month - 1, start.day);
    }
  }

  /**
   * Monthly: every date falls on the anchor day; the next date is in the
   * month `interval` months later when that month has the anchor day, and
   * otherwise in the month after it (the short month is skipped).
   */
  lemma MonthlySpacing(start: Date, end: Date, interval: int)
    requires Valid(start) && Valid(end) && interval > 0
    ensures var r := Occurrences(start, end, Monthly, interval);
      (forall i :: 0 <= i < |r| ==> r[i].day == start.day) &&
      (forall i :: 0 <= i < |r| - 1 ==> MonthlyGap(r[i], r[i + 1], interval, start.day))
  {
    var r := Occurrences(start, end, Monthly, interval);
    OccurrencesSteps(start, end, Monthly, interval);
    forall i | 0 <= i < |r| - 1
      ensures MonthlyGap(r[i], r[i + 1], interval, start.day)
    {
      MonthlyNext(r[i], interval, start.month - 1, start.day);
    }
  }

  /**
   * `b` is the yearly step from `a` for an anchor on day `day` of month
   * `month`: four years on for February 29, `interval` years on otherwise.
   */
  predicate YearlyGap(a: Date, b: Date, interval: int, month: int, day: int) {
    if month == 2 && day == 29 then b == LeapDayNext(a) else b == Date(a.year + interval, month, day)
  }

  /** Yearly steps from an anchored date, both kinds of anchor. */
  lemma YearlyNext(cur: Date, interval: int, originalMonth: int, originalDay: int)
    requires Anchored(cur, Yearly, originalMonth, originalDay)
    ensures YearlyGap(cur, NextOccurrence(cur, Yearly, interval, originalMonth, originalDay), interval, originalMonth + 1, originalDay)
  {
    if originalMonth == 1 && originalDay == 29 {
      YearlyStepLeapDay(cur, interval);
    } else {
      YearlyStepOrdinary(cur, interval, originalMonth, originalDay);
    }
  }

  /**
   * Yearly: an ordinary anchor keeps its month and day and moves `interval`
   * years; a February 29 anchor moves exactly four years, whatever the
   * interval, landing on February 29 in a leap year and February 28 otherwise.
   */
  lemma YearlySpacing(start: Date, end: Date, interval: int)
    requires Valid(start) && Valid(end) && interval > 0
    ensures var r := Occurrences(start, end, Yearly, interval);
      forall i :: 0 <= i < |r| - 1 ==> YearlyGap(r[i], r[i + 1], interval, start.month, start.day)
  {
    var r := Occurrences(start, end, Yearly, interval);
    OccurrencesSteps(start, end, Yearly, interval);
    forall i | 0 <= i < |r| - 1
      ensures YearlyGap(r[i], r[i + 1], interval, start.month, start.day)
    {
      YearlyNext(r[i], interval, start.month - 1, start.day);
    }
  }

  /** A monthly walk from January 31 skips February and lands on March 31. */
  lemma MonthlyFromJanuary31(y: int)
    requires 1 <= y <= 2025
    ensures Occurrences(Date(y, 1, 31), Date(y, 4, 15), Monthly, 1) == [Date(y, 1, 31), Date(y, 3, 31)]
  {
    var jan, mar, end := Date(y, 1, 31), Date(y, 3, 31), Date(y, 4, 15);
    var next := Step(Monthly, 1, 0, 31);
    MonthlyStep(jan, 1, 0, 31);
    MonthlyStep(mar, 1, 0, 31);
    StepAdvances(Monthly, 1, 0, 31);
    WalkIsTheChain([jan, mar], end, next, Keep(Monthly, 0, 31));
  }

  /** Four years after a century year that is not a leap year comes a leap year. */
  lemma CenturyThenLeap(y: int)
    requires y % 4 == 0 && !IsLeapYear(y)
    ensures IsLeapYear(y + 4)
  {
    var k := y / 100;
    assert y == 100 * k;
    assert (y + 4) % 100 == 4;
  }

  /** The date after `d` on a walk anchored on February 29: four years on, February 29 or 28. */
  function LeapDayNext(d: Date): (next: Date)
    ensures Valid(next) && next.month == 2 && (next.day == 29 || (next.day == 28 && !IsLeapYear(next.year)))
  {
    Date(d.year + 4, 2, if IsLeapYear(d.year + 4) then 29 else 28)
  }

  /** A walk anchored on February 29 is the chain of `LeapDayNext` steps, whatever the interval. */
  lemma LeapDayWalk(ds: seq<Date>, end: Date, interval: int)
    requires |ds| > 0 && Valid(ds[0]) && ds[0].month == 2
    requires ds[0].day == 29 || (ds[0].day == 28 && !IsLeapYear(ds[0].year))
    requires forall i :: 0 <= i < |ds| - 1 ==> ds[i + 1] == LeapDayNext(ds[i])
    requires forall i :: 0 <= i < |ds| ==> !LexBefore(end, ds[i])
    requires Valid(end) && interval > 0 && LexBefore(end, LeapDayNext(ds[|ds| - 1]))
    ensures Walk(ds[0], end, Yearly, interval, 1, 29) == ds
  {
    var next := Step(Yearly, interval, 1, 29);
    LeapDayChain(ds, interval);
    StepAdvances(Yearly, interval, 1, 29);
    WalkIsTheChain(ds, end, next, Keep(Yearly, 1, 29));
  }

  /** Along a chain of leap-day anchors the yearly step is `LeapDayNext`. */
  lemma LeapDayChain(ds: seq<Date>, interval: int)
    requires |ds| > 0 && Valid(ds[0]) && ds[0].month == 2
    requires ds[0].day == 29 || (ds[0].day == 28 && !IsLeapYear(ds[0].year))
    requires forall i :: 0 <= i < |ds| - 1 ==> ds[i + 1] == LeapDayNext(ds[i])
    ensures ChainedBy(ds, Step(Yearly, interval, 1, 29))
    ensures Step(Yearly, interval, 1, 29)(ds[|ds| - 1]) == LeapDayNext(ds[|ds| - 1])
  {
    var next := Step(Yearly, interval, 1, 29);
    forall i | 0 <= i < |ds|
      ensures next(ds[i]) == LeapDayNext(ds[i])
    {
      if i > 0 {
        assert ds[i] == LeapDayNext(ds[i - 1]);
      }
      YearlyStepLeapDay(ds[i], interval);
    }
  }

  /**
   * A yearly walk from a February 29 four years before a century year that
   * is not a leap year (1896, say) moves four years at a time although the
   * interval is 1, and the century year gets February 28.
   */
  lemma YearlyFromLeapDay(y: int)
    requires 1 <= y && y + 8 < 2025 && IsLeapYear(y) && !IsLeapYear(y + 4)
    ensures Occurrences(Date(y, 2, 29), Date(y + 8, 12, 31), Yearly, 1) ==
      [Date(y, 2, 29), Date(y + 4, 2, 28), Date(y + 8, 2, 29)]
  {
    var a, b, c, end := Date(y, 2, 29), Date(y + 4, 2, 28), Date(y + 8, 2, 29), Date(y + 8, 12, 31);
    assert Walk(a, end, Yearly, 1, 1, 29) == [a, b, c] by {
      CenturyThenLeap(y + 4);
      assert LeapDayNext(a) == b && LeapDayNext(b) == c;
      LeapDayWalk([a, b, c], end, 1);
    }
  }

  /** A walk that starts on the ceiling holds the ceiling alone, whatever the end date after it. */
  lemma StartOnCeiling(end: Date, interval: int)
    requires Valid(end) && !LexBefore(end, Ceiling) && interval > 0
    ensures Occurrences(Ceiling, end, Daily, interval) == [Ceiling]
  {
    var next := Step(Daily, interval, 9, 30);
    StepAdvances(Daily, interval, 9, 30);
    WalkIsTheChain([Ceiling], Ceiling, next, Keep(Daily, 9, 30));
  }

  /** Every occurrence of a start with a four-digit year can be spelled `YYYY-MM-DD`. */
  lemma OccurrencesFormattable(start: Date, end: Date, repeatType: RepeatType, interval: int)
    requires Formattable(start) && Valid(end) && repeatType != NoRepeat && interval > 0
    ensures AllFormattable(Occurrences(start, end, repeatType, interval))
  {
    if !(LexBefore(end, start) || LexBefore(Ceiling, start)) {
      var actualEnd := EffectiveEnd(end);
      assert Formattable(actualEnd) by {
        if actualEnd == end {
          assert !LexBefore(Ceiling, end);
        }
      }
      var om, od := start.month - 1, start.day;
      StepAdvances(repeatType, interval, om, od);
      WalkFormattable(start, actualEnd, Step(repeatType, interval, om, od), Keep(repeatType, om, od));
    }
  }

  function FormatAll(ds: seq<Date>): (r: seq<string>)
    requires AllFormattable(ds)
    ensures |r| == |ds| && forall i :: 0 <= i < |ds| ==> r[i] == Iso(ds[i])
  {
    seq(|ds|, i requires 0 <= i < |ds| => Iso(ds[i]))
  }

  /** Formatting one more date extends the formatted prefix by its spelling. */
  lemma FormatAllPrefix(ds: seq<Date>, k: int)
    requires AllFormattable(ds) && 0 <= k < |ds|
    ensures FormatAll(ds)[..k] + [Iso(ds[k])] == FormatAll(ds)[..k + 1]
  {
  }

  /** The date strings must be readable whenever the walk runs. */
  predicate DatesReadable(startDate: string, endDate: string, repeatType: RepeatType, interval: int) {
    repeatType != NoRepeat && interval > 0 ==> IsIsoDate(startDate) && IsIsoDate(endDate)
  }

  /**
   * What `calculateRecurringDates` returns: the start date alone, untouched,
   * when the type is `'none'` or the interval is not positive; otherwise the
   * spellings of the occurrences.
   */
  function RecurringDates(startDate: string, endDate: string, repeatType: RepeatType, interval: int): seq<string>
    requires DatesReadable(startDate, endDate, repeatType, interval)
  {
    if repeatType == NoRepeat || interval <= 0 then [startDate]
    else
      var start := ParseIso(startDate).value;
      var end := ParseIso(endDate).value;
      OccurrencesFormattable(start, end, repeatType, interval);
      FormatAll(Occurrences(start, end, repeatType, interval))
  }

  /** For two readable spellings, string order is calendar order. */
  lemma StringOrderIsDateOrder(a: string, b: string)
    requires IsIsoDate(a) && IsIsoDate(b)
    ensures StrLess(a, b) <==> LexBefore(ParseIso(a).value, ParseIso(b).value)
  {
    var da, db := ParseIso(a).value, ParseIso(b).value;
    IsoOfParseIso(a);
    IsoOfParseIso(b);
    IsoOrder(da, db);
    DayNumberOrder(da, db);
  }

  /**
   * The guards in order: `'none'` or a non-positive interval gives the start
   * string alone whatever the other dates; otherwise the result is empty
   * exactly when the start comes after the end date or after the ceiling.
   */
  lemma RecurringDatesGuards(startDate: string, endDate: string, repeatType: RepeatType, interval: int)
    requires DatesReadable(startDate, endDate, repeatType, interval)
    ensures repeatType == NoRepeat || interval <= 0 ==> RecurringDates(startDate, endDate, repeatType, interval) == [startDate]
    ensures repeatType != NoRepeat && interval > 0 ==>
      (RecurringDates(startDate, endDate, repeatType, interval) == [] <==>
       StrLess(endDate, startDate) || StrLess(MaxEndDate, startDate))
  {
    if repeatType != NoRepeat && interval > 0 {
      var start, end := ParseIso(startDate).value, ParseIso(endDate).value;
      MaxEndDateParses();
      StringOrderIsDateOrder(endDate, startDate);
      StringOrderIsDateOrder(MaxEndDate, startDate);
      OccurrencesEnds(start, end, repeatType, interval);
    }
  }

  /**
   * When the walk runs and the guards pass, the result begins with the start
   * string, increases strictly in string order, and every string lies
   * between the start and both the end date and the ceiling.
   */
  lemma RecurringDatesShape(startDate: string, endDate: string, repeatType: RepeatType, interval: int)
    requires IsIsoDate(startDate) && IsIsoDate(endDate) && repeatType != NoRepeat && interval > 0
    requires !StrLess(endDate, startDate) && !StrLess(MaxEndDate, startDate)
    ensures var r := RecurringDates(startDate, endDate, repeatType, interval);
      |r| > 0 && r[0] == startDate &&
      (forall i, j :: 0 <= i < j < |r| ==> StrLess(r[i], r[j])) &&
      (forall i :: 0 <= i < |r| ==> !StrLess(r[i], startDate) && !StrLess(endDate, r[i]) && !StrLess(MaxEndDate, r[i]))
  {
    var start, end := ParseIso(startDate).value, ParseIso(endDate).value;
    MaxEndDateParses();
    StringOrderIsDateOrder(endDate, startDate);
    StringOrderIsDateOrder(MaxEndDate, startDate);
    OccurrencesEnds(start, end, repeatType, interval);
    OccurrencesBounds(start, end, repeatType, interval);
    OccurrencesFormattable(start, end, repeatType, interval);
    var ds := Occurrences(start, end, repeatType, interval);
    var r := RecurringDates(startDate, endDate, repeatType, interval);
    assert r == FormatAll(ds);
    IsoOfParseIso(startDate);
    IsoOfParseIso(endDate);
    forall i, j | 0 <= i < j < |r| ensures StrLess(r[i], r[j]) {
      IsoOrder(ds[i], ds[j]);
      DayNumberOrder(ds[i], ds[j]);
    }
    forall i | 0 <= i < |r|
      ensures !StrLess(r[i], startDate) && !StrLess(endDate, r[i]) && !StrLess(MaxEndDate, r[i])
    {
      IsoOrder(ds[i], start);
      DayNumberOrder(ds[i], start);
      IsoOrder(end, ds[i]);
      DayNumberOrder(end, ds[i]);
      IsoOrder(Ceiling, ds[i]);
      DayNumberOrder(Ceiling, ds[i]);
    }
  }

  /**
   * The `switch` that derives `nextDate` from a copy of `currentDate` with
   * the `Date` setters, step by step as the loop body runs it; `'none'` has
   * no case. `NextOccurrence` is the same step as a function, for the proofs.
   */
  method NextDate(currentDate: Date, repeatType: RepeatType, repeatInterval: int, originalMonth: int, originalDay: int)
    returns (nextDate: Date)
    ensures nextDate == NextOccurrence(currentDate, repeatType, repeatInterval, originalMonth, originalDay)
  {
    nextDate := currentDate;
    match repeatType {
      case Daily =>
        nextDate := SetDate(nextDate, currentDate.day + repeatInterval);
      case Weekly =>
        nextDate := SetDate(nextDate, currentDate.day + repeatInterval * 7);
      case Monthly =>
        nextDate := MonthlyNextDate(currentDate, repeatInterval, originalMonth, originalDay);
      case Yearly =>
        nextDate := YearlyNextDate(currentDate, repeatInterval, originalMonth, originalDay);
      case NoRepeat =>
    }
  }

  /**
   * The `'monthly'` case: move the month by the interval, put the copy back
   * on the anchor day, and fall back to the previous month's last day when
   * that day overflowed. The setter-by-setter form of the monthly case of
   * `NextOccurrence`.
   */
  method MonthlyNextDate(currentDate: Date, repeatInterval: int, originalMonth: int, originalDay: int)
    returns (nextDate: Date)
    ensures nextDate == NextOccurrence(currentDate, Monthly, repeatInterval, originalMonth, originalDay)
  {
    nextDate := currentDate;
    nextDate := SetMonth(nextDate, currentDate.month - 1 + repeatInterval);
    nextDate := SetDate(nextDate, originalDay);
    if nextDate.day != originalDay {
      nextDate := SetDate(nextDate, 0);
    }
  }

  /**
   * The `'yearly'` case: four years on for a February 29 anchor and
   * `repeatInterval` years on otherwise, then back to the anchor month and
   * day, falling back to the previous month's last day when they moved.
   * The setter-by-setter form of the yearly case of `NextOccurrence`.
   */
  method YearlyNextDate(currentDate: Date, repeatInterval: int, originalMonth: int, originalDay: int)
    returns (nextDate: Date)
    ensures nextDate == NextOccurrence(currentDate, Yearly, repeatInterval, originalMonth, originalDay)
  {
    nextDate := currentDate;
    if originalMonth == 1 && originalDay == 29 {
      nextDate := SetFullYear(nextDate, currentDate.year + 4);
    } else {
      nextDate := SetFullYear(nextDate, currentDate.year + repeatInterval);
    }
    nextDate := SetMonth(nextDate, originalMonth);
    nextDate := SetDate(nextDate, originalDay);
    if nextDate.month - 1 != originalMonth || nextDate.day != originalDay {
      nextDate := SetDate(nextDate, 0);
    }
  }

  /**
   * `calculateRecurringDates`: the guard for `'none'` and non-positive
   * intervals comes first, then the range checks on the parsed dates, then
   * the walk up to the earlier of the end date and the ceiling. `Date`
   * objects are compared by time value (`Before`).
   */
  method CalculateRecurringDates(startDate: string, endDate: string, repeatType: RepeatType, repeatInterval: int)
    returns (dates: seq<string>)
    requires DatesReadable(startDate, endDate, repeatType, repeatInterval)
    ensures dates == RecurringDates(startDate, endDate, repeatType, repeatInterval)
  {
    if repeatType == NoRepeat || repeatInterval <= 0 {
      return [startDate];
    }

    var start := ParseIso(startDate).value;
    var end := ParseIso(endDate).value;
    MaxEndDateParses();
    var maxEnd := ParseIso(MaxEndDate).value;
    OccurrencesByTimeValue(start, end, repeatType, repeatInterval);

    if Before(end, start) || Before(maxEnd, start) {
      return [];
    }

    var actualEnd := if Before(maxEnd, end) then maxEnd else end;
    dates := CollectDates(start, actualEnd, repeatType, repeatInterval);
  }

  /**
   * The loop of `calculateRecurringDates`: record the current date, derive
   * the next one with the setters, and stop once it passes `actualEnd`. The
   * month and day of the start are the anchor.
   */
  method CollectDates(start: Date, actualEnd: Date, repeatType: RepeatType, repeatInterval: int)
    returns (dates: seq<string>)
    requires Formattable(start) && Formattable(actualEnd) && repeatType != NoRepeat && repeatInterval > 0
    ensures AllFormattable(Walk(start, actualEnd, repeatType, repeatInterval, start.month - 1, start.day))
    ensures dates == FormatAll(Walk(start, actualEnd, repeatType, repeatInterval, start.month - 1, start.day))
  {
    dates := [];
    var currentDate := start;
    var originalDay := start.day;
    var originalMonth := start.month - 1;

    ghost var next := Step(repeatType, repeatInterval, originalMonth, originalDay);
    ghost var keep := Keep(repeatType, originalMonth, originalDay);
    StepAdvances(repeatType, repeatInterval, originalMonth, originalDay);
    ghost var all := WalkBy(start, actualEnd, next, keep);
    WalkEnds(start, actualEnd, next, keep);
    WalkFormattable(start, actualEnd, next, keep);
    ghost var target := FormatAll(all);
    ghost var k := 0;

    while !Before(actualEnd, currentDate)
      invariant Valid(currentDate)
      invariant 0 <= k <= |all| && dates == target[..k]
      invariant k < |all| ==> currentDate == all[k]
      invariant k == |all| ==> LexBefore(actualEnd, currentDate)
      decreases |all| - k
    {
      BeforeIsLex(actualEnd, currentDate);
      WalkAdvance(start, actualEnd, next, keep, k);
      FormatAllPrefix(all, k);
      dates := dates + [Iso(currentDate)];
      var nextDate := NextDate(currentDate, repeatType, repeatInterval, originalMonth, originalDay);
      currentDate := nextDate;
      k := k + 1;
    }
    BeforeIsLex(actualEnd, currentDate);
    WalkSteps(start, actualEnd, next, keep);
    assert k == |all|;
    assert dates == target;
  }

  /**
   * The end date `generateRepeatEvents` passes on: the rule's own end date,
   * or the ceiling when it is absent or empty.
   */
  function RepeatEndDate(repeat: RepeatInfo): (endDate: string)
    ensures repeat.endDate.None? || repeat.endDate == Some("") ==> endDate == MaxEndDate
    ensures repeat.endDate.Some? && repeat.endDate.value != "" ==> endDate == repeat.endDate.value
  {
    if repeat.endDate.Some? && repeat.endDate.value != "" then repeat.endDate.value else MaxEndDate
  }

  /** The template's date strings must be readable whenever the walk runs. */
  predicate Expandable(eventData: EventForm) {
    DatesReadable(eventData.date, RepeatEndDate(eventData.repeat), eventData.repeat.repeatType, eventData.repeat.interval)
  }

  /**
   * `generateRepeatEvents`: the template itself when the type is `'none'` or
   * the interval is 0, and otherwise one copy of the template per computed
   * date, with only the date replaced.
   */
  function GenerateRepeatEvents(eventData: EventForm): (events: seq<EventForm>)
    requires Expandable(eventData)
    ensures eventData.repeat.repeatType == NoRepeat || eventData.repeat.interval <= 0 ==> events == [eventData]
    ensures eventData.repeat.repeatType != NoRepeat && eventData.repeat.interval > 0 ==>
      var dates := RecurringDates(eventData.date, RepeatEndDate(eventData.repeat), eventData.repeat.repeatType, eventData.repeat.interval);
      |events| == |dates| &&
      forall i :: 0 <= i < |events| ==> events[i].date == dates[i] && events[i].(date := eventData.date) == eventData
  {
    if eventData.repeat.repeatType == NoRepeat || eventData.repeat.interval == 0 then
      [eventData]
    else
      var dates := RecurringDates(eventData.date, RepeatEndDate(eventData.repeat), eventData.repeat.repeatType, eventData.repeat.interval);
      seq(|dates|, i requires 0 <= i < |dates| => eventData.(date := dates[i]))
  }
}
