/**
 * The repeat icon shown beside an event: its pixel size and its tooltip.
 * The icon itself (which glyph for which type) and the layout props are
 * rendering only.
 */
module RecurringIcon {
  import opened Wrappers
  import opened Strings
  import opened Types
  import opened Policy
  import opened EventCard

  datatype IconSize = Small | Medium | Large

  /** `toPx`: the icon's edge length in pixels. */
  function ToPx(size: IconSize): (px: int)
    ensures px in {16, 20, 28}
  {
    match size
    case Small => 16
    case Large => 28
    case Medium => 20
  }

  /** Larger sizes give larger icons. */
  lemma ToPxOrdered()
    ensures ToPx(Small) < ToPx(Medium) < ToPx(Large)
  {
  }

  /** The pixel size for the `size` prop, which defaults to `'medium'`. */
  function IconPixels(size: Option<IconSize>): (px: int)
    ensures size.None? ==> px == 20
    ensures size.Some? ==> px == ToPx(size.value)
  {
    ToPx(size.GetOr(Medium))
  }

  /** What the tooltip shows of the interval: nothing for 0 and 1. */
  function ShownInterval(interval: int): Option<int> {
    if interval == 0 || interval == 1 then None else Some(interval)
  }

  /** `' (간격 n)'` unless the interval is 0 (falsy) or 1. */
  function IntervalPart(interval: int): (part: string)
    ensures part == "" <==> ShownInterval(interval).None?
    ensures part != "" ==> part[0] == ' '
  {
    if interval != 0 && interval != 1 then " (간격 " + IntToString(interval) + ")" else ""
  }

  /** `', 종료 <endDate>'` for a non-empty end date. */
  function EndPart(endDate: Option<string>): (part: string)
    ensures part == "" <==> EndDateText(endDate) == ""
    ensures part != "" ==> part[0] == ','
  {
    if EndDateText(endDate) != "" then ", 종료 " + EndDateText(endDate) else ""
  }

  lemma EndPartInjective(a: Option<string>, b: Option<string>)
    requires EndPart(a) == EndPart(b)
    ensures EndDateText(a) == EndDateText(b)
  {
    if EndPart(a) != "" {
      var n := |", 종료 "|;
      assert EndDateText(a) == EndPart(a)[n..];
      assert EndDateText(b) == EndPart(b)[n..];
    }
  }

  /** Both tails show an interval part, or neither does. */
  lemma IntervalPresenceAgrees(i: int, e: Option<string>, j: int, f: Option<string>)
    requires IntervalPart(i) + EndPart(e) == IntervalPart(j) + EndPart(f)
    ensures IntervalPart(i) == "" <==> IntervalPart(j) == ""
  {
    var t := IntervalPart(i) + EndPart(e);
    if t != "" {
      assert t[0] == (if IntervalPart(i) != "" then ' ' else ',');
      assert t[0] == (if IntervalPart(j) != "" then ' ' else ',');
    }
  }

  /** What follows `' (간격 '` when the interval is shown. */
  function AfterIntervalLabel(interval: int, endDate: Option<string>): (rest: string)
    requires ShownInterval(interval).Some?
    ensures IntervalPart(interval) + EndPart(endDate) == " (간격 " + rest
    ensures rest == IntToString(interval) + (")" + EndPart(endDate))
  {
    IntToString(interval) + (")" + EndPart(endDate))
  }

  /**
   * The interval part and the end part can be told apart (one starts with a
   * space, the other with a comma), so both can be read back.
   */
  lemma TooltipTailDecodes(i: int, e: Option<string>, j: int, f: Option<string>)
    requires IntervalPart(i) + EndPart(e) == IntervalPart(j) + EndPart(f)
    ensures ShownInterval(i) == ShownInterval(j)
    ensures EndDateText(e) == EndDateText(f)
  {
    IntervalPresenceAgrees(i, e, j, f);
    if ShownInterval(i).Some? {
      var n := |" (간격 "|;
      var x, y := ")" + EndPart(e), ")" + EndPart(f);
      var t := IntervalPart(i) + EndPart(e);
      assert IntToString(i) + x == AfterIntervalLabel(i, e) == t[n..];
      assert IntToString(j) + y == AfterIntervalLabel(j, f) == t[n..];
      NumeralPrefix(i, x, j, y);
      assert EndPart(e) == x[1..] && EndPart(f) == y[1..];
    } else {
      assert IntervalPart(i) + EndPart(e) == EndPart(e);
      assert IntervalPart(j) + EndPart(f) == EndPart(f);
    }
    EndPartInjective(e, f);
  }

  /** The tooltip text after the type's label. */
  function TooltipTail(repeat: RepeatInfo): string {
    IntervalPart(repeat.interval) + EndPart(repeat.endDate)
  }

  /**
   * The tooltip, or `None` where the component renders nothing (type
   * `'none'`): `'반복: '`, the type's label, the interval part, the end part.
   */
  function Tooltip(event: Event): (tip: Option<string>)
    ensures tip.Some? <==> IsRecurringEvent(event)
    ensures tip.Some? ==> |tip.value| >= 6 && tip.value[..6] == "반복: " + RepeatLabel(event.form.repeat.repeatType)
    ensures tip.Some? ==> tip.value[6..] == TooltipTail(event.form.repeat)
  {
    var repeat := event.form.repeat;
    if repeat.repeatType == NoRepeat then None
    else
      var head := "반복: " + RepeatLabel(repeat.repeatType);
      assert |head| == 6;
      Some(head + TooltipTail(repeat))
  }

  /**
   * Two recurring events with the same tooltip agree on the type, on the
   * interval as shown, and on the end date.
   */
  lemma TooltipDecodes(a: Event, b: Event)
    requires Tooltip(a) == Tooltip(b) && Tooltip(a).Some?
    ensures a.form.repeat.repeatType == b.form.repeat.repeatType
    ensures ShownInterval(a.form.repeat.interval) == ShownInterval(b.form.repeat.interval)
    ensures EndDateText(a.form.repeat.endDate) == EndDateText(b.form.repeat.endDate)
  {
    var ra, rb := a.form.repeat, b.form.repeat;
    var t := Tooltip(a).value;
    assert t[..6][5] == RepeatLabel(ra.repeatType)[1] && t[..6][5] == RepeatLabel(rb.repeatType)[1];
    RepeatLabelInjective(ra.repeatType, rb.repeatType);
    TooltipTailDecodes(ra.interval, ra.endDate, rb.interval, rb.endDate);
  }
}
