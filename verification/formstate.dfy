/**
 * The form state hook: the flat record the event form edits, how it is
 * filled from an event (with JavaScript's `||` fallbacks), and the three
 * operations that replace it.
 */
module FormState {
  import opened Wrappers
  import opened Types
  import opened EventCard

  /** The fields the form edits; `weeklyOptions` may be absent. */
  datatype FormState = FormState(
    title: string,
    date: string,
    startTime: string,
    endTime: string,
    description: string,
    location: string,
    category: string,
    isRepeating: bool,
    repeatType: RepeatType,
    repeatInterval: int,
    repeatEndDate: string,
    notificationTime: int,
    weeklyOptions: Option<WeeklyOptions>)

  const DefaultCategory: string := "업무"
  const DefaultInterval: int := 1
  const DefaultNotificationTime: int := 10

  /** `text || fallback`: the empty string is falsy. */
  function OrText(text: string, fallback: string): (r: string)
    ensures text != "" ==> r == text
    ensures text == "" ==> r == fallback
  {
    if text != "" then text else fallback
  }

  /** `n || fallback`: zero is falsy. */
  function OrNumber(n: int, fallback: int): (r: int)
    ensures n != 0 ==> r == n
    ensures n == 0 ==> r == fallback
  {
    if n != 0 then n else fallback
  }

  /**
   * `getInitialFormState`: every field from the event, with the fallbacks
   * for falsy values, or the defaults when there is no event.
   */
  function GetInitialFormState(initialEvent: Option<Event>): (s: FormState)
    ensures initialEvent.None? ==>
      s.title == s.date == s.startTime == s.endTime == s.description == s.location == "" &&
      s.category == DefaultCategory && !s.isRepeating && s.repeatType == Daily &&
      s.repeatInterval == DefaultInterval && s.repeatEndDate == "" &&
      s.notificationTime == DefaultNotificationTime && s.weeklyOptions.None?
    ensures initialEvent.Some? ==>
      var e := initialEvent.value.form;
      s.title == e.title && s.date == e.date && s.startTime == e.startTime && s.endTime == e.endTime &&
      s.description == e.description && s.location == e.location &&
      (s.isRepeating <==> e.repeat.repeatType != NoRepeat) && s.repeatType == e.repeat.repeatType &&
      s.category == (if e.category != "" then e.category else DefaultCategory) &&
      s.repeatInterval == (if e.repeat.interval != 0 then e.repeat.interval else DefaultInterval) &&
      s.repeatEndDate == e.repeat.endDate.GetOr("") &&
      s.notificationTime == (if e.notificationTime != 0 then e.notificationTime else DefaultNotificationTime) &&
      s.weeklyOptions == (if HasWeeklyOptions(e.repeat) then e.repeat.weeklyOptions else None)
  {
    match initialEvent
    case None =>
      FormState("", "", "", "", "", "", DefaultCategory, false, Daily, DefaultInterval, "", DefaultNotificationTime, None)
    case Some(event) =>
      var e := event.form;
      FormState(
        OrText(e.title, ""),
        OrText(e.date, ""),
        OrText(e.startTime, ""),
        OrText(e.endTime, ""),
        OrText(e.description, ""),
        OrText(e.location, ""),
        OrText(e.category, DefaultCategory),
        e.repeat.repeatType != NoRepeat,
        e.repeat.repeatType,
        OrNumber(e.repeat.interval, DefaultInterval),
        OrText(e.repeat.endDate.GetOr(""), ""),
        OrNumber(e.notificationTime, DefaultNotificationTime),
        if HasWeeklyOptions(e.repeat) then e.repeat.weeklyOptions else None)
  }

  /**
   * A state loaded from an event never holds a falsy category, interval or
   * notification time: each fallback is itself truthy.
   */
  lemma LoadedStateHasNoFalsyDefaults(event: Event)
    ensures var s := GetInitialFormState(Some(event));
      s.category != "" && s.repeatInterval != 0 && s.notificationTime != 0
  {
  }

  /** `isRepeating` is the event card's `isRecurringEvent`. */
  lemma RepeatingIsRecurring(event: Event)
    ensures GetInitialFormState(Some(event)).isRepeating <==> IsRecurringEvent(event)
    ensures !GetInitialFormState(None).isRepeating
  {
  }

  /** The keys of `FormState`. */
  datatype Field =
    | TitleField | DateField | StartTimeField | EndTimeField | DescriptionField | LocationField
    | CategoryField | IsRepeatingField | RepeatTypeField | RepeatIntervalField | RepeatEndDateField
    | NotificationTimeField | WeeklyOptionsField

  /** A value of some field's type. */
  datatype FieldValue =
    | Text(text: string)
    | Flag(flag: bool)
    | Kind(kind: RepeatType)
    | Number(number: int)
    | Days(days: Option<WeeklyOptions>)

  /** `formState[field]`. */
  function Get(s: FormState, field: Field): FieldValue {
    match field
    case TitleField => Text(s.title)
    case DateField => Text(s.date)
    case StartTimeField => Text(s.startTime)
    case EndTimeField => Text(s.endTime)
    case DescriptionField => Text(s.description)
    case LocationField => Text(s.location)
    case CategoryField => Text(s.category)
    case IsRepeatingField => Flag(s.isRepeating)
    case RepeatTypeField => Kind(s.repeatType)
    case RepeatIntervalField => Number(s.repeatInterval)
    case RepeatEndDateField => Text(s.repeatEndDate)
    case NotificationTimeField => Number(s.notificationTime)
    case WeeklyOptionsField => Days(s.weeklyOptions)
  }

  /** `value` has the type `FormState[field]`, as the hook's signature demands. */
  predicate Fits(field: Field, value: FieldValue) {
    Get(GetInitialFormState(None), field).Text? == value.Text? &&
    Get(GetInitialFormState(None), field).Flag? == value.Flag? &&
    Get(GetInitialFormState(None), field).Kind? == value.Kind? &&
    Get(GetInitialFormState(None), field).Number? == value.Number?
  }

  /** Two states with the same value in every field are the same state. */
  lemma GetExtensional(a: FormState, b: FormState)
    requires forall f :: Get(a, f) == Get(b, f)
    ensures a == b
  {
    assert a.title == b.title by { assert Get(a, TitleField) == Get(b, TitleField); }
    assert a.date == b.date by { assert Get(a, DateField) == Get(b, DateField); }
    assert a.startTime == b.startTime by { assert Get(a, StartTimeField) == Get(b, StartTimeField); }
    assert a.endTime == b.endTime by { assert Get(a, EndTimeField) == Get(b, EndTimeField); }
    assert a.description == b.description by { assert Get(a, DescriptionField) == Get(b, DescriptionField); }
    assert a.location == b.location by { assert Get(a, LocationField) == Get(b, LocationField); }
    assert a.category == b.category by { assert Get(a, CategoryField) == Get(b, CategoryField); }
    assert a.isRepeating == b.isRepeating by { assert Get(a, IsRepeatingField) == Get(b, IsRepeatingField); }
    assert a.repeatType == b.repeatType by { assert Get(a, RepeatTypeField) == Get(b, RepeatTypeField); }
    assert a.repeatInterval == b.repeatInterval by { assert Get(a, RepeatIntervalField) == Get(b, RepeatIntervalField); }
    assert a.repeatEndDate == b.repeatEndDate by { assert Get(a, RepeatEndDateField) == Get(b, RepeatEndDateField); }
    assert a.notificationTime == b.notificationTime by { assert Get(a, NotificationTimeField) == Get(b, NotificationTimeField); }
    assert a.weeklyOptions == b.weeklyOptions by { assert Get(a, WeeklyOptionsField) == Get(b, WeeklyOptionsField); }
  }

  /** `{ ...prev, [field]: value }`: that field takes the value, every other field stays. */
  function Put(s: FormState, field: Field, value: FieldValue): (r: FormState)
    requires Fits(field, value)
    ensures Get(r, field) == value
    ensures forall g :: g != field ==> Get(r, g) == Get(s, g)
  {
    match field
    case TitleField => s.(title := value.text)
    case DateField => s.(date := value.text)
    case StartTimeField => s.(startTime := value.text)
    case EndTimeField => s.(endTime := value.text)
    case DescriptionField => s.(description := value.text)
    case LocationField => s.(location := value.text)
    case CategoryField => s.(category := value.text)
    case IsRepeatingField => s.(isRepeating := value.flag)
    case RepeatTypeField => s.(repeatType := value.kind)
    case RepeatIntervalField => s.(repeatInterval := value.number)
    case RepeatEndDateField => s.(repeatEndDate := value.text)
    case NotificationTimeField => s.(notificationTime := value.number)
    case WeeklyOptionsField => s.(weeklyOptions := value.days)
  }

  /** Writing a field twice keeps only the second value. */
  lemma PutOverwrites(s: FormState, field: Field, v: FieldValue, w: FieldValue)
    requires Fits(field, v) && Fits(field, w)
    ensures Put(Put(s, field, v), field, w) == Put(s, field, w)
  {
    GetExtensional(Put(Put(s, field, v), field, w), Put(s, field, w));
  }

  /** Updates of different fields commute. */
  lemma PutCommutes(s: FormState, f: Field, v: FieldValue, g: Field, w: FieldValue)
    requires f != g && Fits(f, v) && Fits(g, w)
    ensures Put(Put(s, f, v), g, w) == Put(Put(s, g, w), f, v)
  {
    var x, y := Put(Put(s, f, v), g, w), Put(Put(s, g, w), f, v);
    forall h ensures Get(x, h) == Get(y, h) {
      if h != f && h != g {
        assert Get(x, h) == Get(Put(s, f, v), h) == Get(s, h);
      }
    }
    GetExtensional(x, y);
  }

  /** Writing back a field's own value changes nothing. */
  lemma PutSame(s: FormState, field: Field)
    ensures Fits(field, Get(s, field))
    ensures Put(s, field, Get(s, field)) == s
  {
    GetExtensional(Put(s, field, Get(s, field)), s);
  }

  /** The hook: the current form state and the event it was opened with. */
  class FormStateHook {
    var formState: FormState
    var initialEvent: Option<Event>

    /** `useState(() => getInitialFormState(initialEvent))`. */
    constructor(initialEvent: Option<Event>)
      ensures this.initialEvent == initialEvent
      ensures formState == GetInitialFormState(initialEvent)
    {
      this.initialEvent := initialEvent;
      formState := GetInitialFormState(initialEvent);
    }

    /** The effect that reloads the state when the `initialEvent` prop changes. */
    method SetInitialEvent(event: Option<Event>)
      modifies this
      ensures initialEvent == event
      ensures formState == GetInitialFormState(event)
    {
      initialEvent := event;
      formState := GetInitialFormState(event);
    }

    /** `updateField(field, value)`. */
    method UpdateField(field: Field, value: FieldValue)
      requires Fits(field, value)
      modifies this
      ensures formState == Put(old(formState), field, value)
      ensures initialEvent == old(initialEvent)
    {
      formState := Put(formState, field, value);
    }

    /** `resetForm`: back to the state the current `initialEvent` gives. */
    method ResetForm()
      modifies this
      ensures formState == GetInitialFormState(initialEvent)
      ensures initialEvent == old(initialEvent)
    {
      formState := GetInitialFormState(initialEvent);
    }

    /** `loadEvent(event)`: the state `event` gives; `initialEvent` is untouched. */
    method LoadEvent(event: Event)
      modifies this
      ensures formState == GetInitialFormState(Some(event))
      ensures initialEvent == old(initialEvent)
    {
      formState := GetInitialFormState(Some(event));
    }
  }
}
