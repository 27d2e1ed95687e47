/**
 * The repeat section of the event form: the end-date field with its
 * over-limit warning, and the interval field with its clamp. The repeat
 * end date and interval belong to the parent form and reach the component
 * through setters; here they are fields of the same object.
 */
module RecurringForm {
  import opened Wrappers
  import opened Strings
  import opened Calendar
  import Recurrence

  /**
   * The form declares its own copy of the last day a series may reach; it is
   * the same string as the engine's `Recurrence.MaxEndDate`.
   */
  const MaxEndDate: string := "2025-10-30"

  const EndDateErrorMessage: string := "최대 종료일은 " + MaxEndDate + " 입니다."

  /** The warning condition: a non-empty value after `MaxEndDate` in string order. */
  predicate EndDateTooLate(value: string) {
    value != "" && StrLess(MaxEndDate, value)
  }

  /**
   * For a well-formed date string the string comparison is the calendar
   * comparison: the warning appears exactly for dates after the series
   * ceiling that the date engine uses.
   */
  lemma EndDateTooLateMeansAfterCeiling(value: string)
    requires IsIsoDate(value)
    ensures EndDateTooLate(value) <==> LexBefore(Recurrence.Ceiling, ParseIso(value).value)
  {
    Recurrence.MaxEndDateParses();
    Recurrence.StringOrderIsDateOrder(MaxEndDate, value);
  }

  /**
   * The interval field's `Math.max(1, Number(value) || 1)`; `None` stands
   * for input that is not a number (NaN, which is falsy like 0).
   */
  function ClampInterval(input: Option<int>): (interval: int)
    ensures interval >= 1
    ensures input.Some? && input.value >= 1 ==> interval == input.value
    ensures input.None? || input.value < 1 ==> interval == 1
  {
    var n := if input.Some? && input.value != 0 then input.value else 1;
    if n < 1 then 1 else n
  }

  class RecurringEventForm {
    var endDateError: Option<string>
    var repeatEndDate: string
    var repeatInterval: int

    /** A warning is only ever shown for a stored end date that is too late. */
    predicate Valid()
      reads this
    {
      endDateError.Some? ==> endDateError.value == EndDateErrorMessage && EndDateTooLate(repeatEndDate)
    }

    /** The component mounts with no warning, whatever the parent passes in. */
    constructor(repeatEndDate: string, repeatInterval: int)
      ensures Valid() && endDateError == None
      ensures this.repeatEndDate == repeatEndDate && this.repeatInterval == repeatInterval
    {
      endDateError := None;
      this.repeatEndDate := repeatEndDate;
      this.repeatInterval := repeatInterval;
    }

    /**
     * `handleEndDateChange`: the value is stored either way (a late date is
     * not corrected); the warning is set exactly when it is too late and
     * cleared otherwise.
     */
    method HandleEndDateChange(value: string)
      modifies this
      ensures Valid()
      ensures repeatEndDate == value
      ensures endDateError.Some? <==> EndDateTooLate(value)
      ensures repeatInterval == old(repeatInterval)
    {
      if value != "" && StrLess(MaxEndDate, value) {
        endDateError := Some(EndDateErrorMessage);
        repeatEndDate := value;
        return;
      }
      endDateError := None;
      repeatEndDate := value;
    }

    /** The interval field's change handler: the stored interval is always at least 1. */
    method ChangeInterval(input: Option<int>)
      requires Valid()
      modifies this
      ensures Valid()
      ensures repeatInterval == ClampInterval(input) && repeatInterval >= 1
      ensures endDateError == old(endDateError) && repeatEndDate == old(repeatEndDate)
    {
      repeatInterval := ClampInterval(input);
    }
  }
}
