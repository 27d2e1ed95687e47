/**
 * The text helpers of the event card: whether an event repeats, the
 * one-line repeat description, and the notification label.
 */
module EventCard {
  import opened Wrappers
  import opened Strings
  import opened Types

  /**
   * `isRecurringEvent`: the repeat type is anything but `'none'`, which is
   * exactly when the repeat text has a unit of its own rather than
   * `undefined`.
   */
  function IsRecurringEvent(event: Event): (recurring: bool)
    ensures recurring <==> |TypeUnit(event.form.repeat.repeatType)| == 1
  {
    event.form.repeat.repeatType != NoRepeat
  }

  /**
   * The unit after the interval: one character per repeat type. `'none'`
   * has no entry in the lookup table, and the template then prints
   * `undefined`.
   */
  function TypeUnit(t: RepeatType): (unit: string)
    ensures |unit| >= 1 && !IsDigit(unit[0])
    ensures t != NoRepeat <==> |unit| == 1
  {
    match t
    case Daily => "일"
    case Weekly => "주"
    case Monthly => "월"
    case Yearly => "년"
    case NoRepeat => "undefined"
  }

  /** The unit's first character tells the repeat type. */
  lemma TypeUnitInjective(s: RepeatType, t: RepeatType)
    requires TypeUnit(s)[0] == TypeUnit(t)[0]
    ensures s == t
  {
  }

  /** What a template string prints for an optional string: absent and empty read alike. */
  function EndDateText(endDate: Option<string>): string {
    endDate.GetOr("")
  }

  /** `' (종료: <endDate>)'` for a non-empty end date, nothing otherwise. */
  function EndDateSuffix(endDate: Option<string>): (suffix: string)
    ensures suffix == "" <==> EndDateText(endDate) == ""
    ensures suffix != "" ==> suffix[0] == ' ' && suffix[|suffix| - 1] == ')'
  {
    if EndDateText(endDate) != "" then " (종료: " + EndDateText(endDate) + ")" else ""
  }

  /** The end date can be read back from its suffix. */
  lemma EndDateSuffixInjective(a: Option<string>, b: Option<string>)
    requires EndDateSuffix(a) == EndDateSuffix(b)
    ensures EndDateText(a) == EndDateText(b)
  {
    var s := EndDateSuffix(a);
    if s != "" {
      var n := |" (종료: "|;
      assert EndDateText(a) == s[n..|s| - 1];
      assert EndDateText(b) == s[n..|s| - 1];
    }
  }

  /** `formatRepeatText`: `'반복: '`, the interval, the unit, `'마다'`, then the end-date suffix. */
  function FormatRepeatText(repeat: RepeatInfo): (text: string)
    ensures |text| >= 4 && text[..4] == "반복: "
    ensures EndDateText(repeat.endDate) == "" ==> text[|text| - 2..] == "마다"
  {
    "반복: " + IntToString(repeat.interval) + TypeUnit(repeat.repeatType) + "마다" + EndDateSuffix(repeat.endDate)
  }

  /** What follows the interval in the repeat text. */
  function AfterInterval(repeat: RepeatInfo): (rest: string)
    ensures FormatRepeatText(repeat) == "반복: " + (IntToString(repeat.interval) + rest)
    ensures |rest| >= 1 && rest[0] == TypeUnit(repeat.repeatType)[0]
  {
    TypeUnit(repeat.repeatType) + ("마다" + EndDateSuffix(repeat.endDate))
  }

  /** The type and the end date can be read back from what follows the interval. */
  lemma AfterIntervalDecodes(a: RepeatInfo, b: RepeatInfo)
    requires AfterInterval(a) == AfterInterval(b)
    ensures a.repeatType == b.repeatType
    ensures EndDateText(a.endDate) == EndDateText(b.endDate)
  {
    TypeUnitInjective(a.repeatType, b.repeatType);
    var u := |TypeUnit(a.repeatType)| + 2;
    assert EndDateSuffix(a.endDate) == AfterInterval(a)[u..];
    assert EndDateSuffix(b.endDate) == AfterInterval(b)[u..];
    EndDateSuffixInjective(a.endDate, b.endDate);
  }

  /**
   * The text loses nothing the card shows: the interval, the type and the
   * end date (absent and empty alike) can all be read back from it.
   */
  lemma FormatRepeatTextDecodes(a: RepeatInfo, b: RepeatInfo)
    requires FormatRepeatText(a) == FormatRepeatText(b)
    ensures a.interval == b.interval && a.repeatType == b.repeatType
    ensures EndDateText(a.endDate) == EndDateText(b.endDate)
  {
    var n := |"반복: "|;
    var restA, restB := AfterInterval(a), AfterInterval(b);
    assert IntToString(a.interval) + restA == FormatRepeatText(a)[n..];
    assert IntToString(b.interval) + restB == FormatRepeatText(b)[n..];
    NumeralPrefix(a.interval, restA, b.interval, restB);
    AfterIntervalDecodes(a, b);
  }

  /** The labels `getNotificationLabel` knows, by minutes before the event. */
  const NotificationLabels: map<int, string> := map[
    1 := "1분 전",
    10 := "10분 전",
    60 := "1시간 전",
    120 := "2시간 전",
    1440 := "1일 전"
  ]

  const UnknownLabel: string := "알 수 없음"

  /**
   * `getNotificationLabel`: the table's label, or `'알 수 없음'` for any
   * other number of minutes.
   */
  function GetNotificationLabel(notificationTime: int): (shown: string)
    ensures shown == UnknownLabel <==> notificationTime !in {1, 10, 60, 120, 1440}
  {
    if notificationTime in NotificationLabels then NotificationLabels[notificationTime] else UnknownLabel
  }

  /** Reading a label back into minutes; `None` for the unknown label. */
  function NotificationMinutes(shown: string): (minutes: Option<int>)
    ensures minutes.Some? ==> minutes.value in NotificationLabels && NotificationLabels[minutes.value] == shown
  {
    if shown == "1분 전" then Some(1)
    else if shown == "10분 전" then Some(10)
    else if shown == "1시간 전" then Some(60)
    else if shown == "2시간 전" then Some(120)
    else if shown == "1일 전" then Some(1440)
    else None
  }

  /** Every known time has its own label, so the label gives the time back. */
  lemma NotificationLabelRoundTrip(notificationTime: int)
    ensures NotificationMinutes(GetNotificationLabel(notificationTime)) ==
      if notificationTime in NotificationLabels then Some(notificationTime) else None
  {
  }
}
