/** Shared display constants: weekday names and the repeat-type labels. */
module Policy {
  import opened Types

  /** `WEEK_DAYS`: short weekday names, Sunday first. */
  const WeekDays: seq<string> := ["일", "월", "화", "수", "목", "금", "토"]

  /**
   * `REPEAT_LABEL_MAP`: the label of each repeat type other than `'none'`,
   * which has no entry. Each label is "매" and one character that tells the
   * types apart.
   */
  function RepeatLabel(t: RepeatType): (text: string)
    requires t != NoRepeat
    ensures |text| == 2 && text[0] == '매'
  {
    if t == Daily then "매일"
    else if t == Weekly then "매주"
    else if t == Monthly then "매월"
    else "매년"
  }

  /** Different types have different labels. */
  lemma RepeatLabelInjective(s: RepeatType, t: RepeatType)
    requires s != NoRepeat && t != NoRepeat && RepeatLabel(s)[1] == RepeatLabel(t)[1]
    ensures s == t
  {
  }
}
