# Recurring events of the calendar application, in Dafny

This project models the recurring-event part of a React calendar application
written in TypeScript.

The centre is the date engine `calculateRecurringDates`. It walks from a start
date one occurrence at a time: daily, weekly, monthly or yearly, every
`interval` units. It stops at the end date or at the hard ceiling
`2025-10-30`, whichever comes first, and returns the dates as `YYYY-MM-DD`
strings. `generateRepeatEvents` copies a template event onto each of those
dates.

Around the engine sit the pieces that feed it or show its results:

- the shared records and the weekday checks of `types.ts`;
- the label tables of `policy.ts`;
- the weekday picker: toggle, error text, `formatSelectedDays` and `validateSelectedDays`;
- the form-state hook and the editing-state hook;
- the text helpers of the event card and the repeat icon;
- the end-date and interval guards of the repeat form.

Modules and what they hold:

- `Wrappers`: `Option`.
- `Strings`: the JavaScript string behaviour the code relies on.
  - `String(n)` for integers.
  - `<` on strings.
  - The order `Array.prototype.sort()` uses without a comparator: numbers compared by their decimal spellings.
  - `join`.
- `Calendar`: naive proleptic-Gregorian dates.
  - A day number plays the role of the `Date` time value.
  - The setters `setDate`, `setMonth` and `setFullYear` follow JavaScript's `MakeDay`, so overflow rolls into the neighbouring months.
  - The `YYYY-MM-DD` spelling and its parser.
- `Types`, `Policy`, `Recurrence`, `WeekdayPicker`, `FormState`, `Editing`, `EventCard`, `RecurringIcon`, `RecurringForm`: one module per source file, as the table below shows.

How the engine is modelled:

- The loop of `calculateRecurringDates` is the method `Recurrence.CollectDates`.
  - It keeps the `while` loop, the `switch` over the repeat type and the chain of setters.
  - It is proved equal to the specification function `Recurrence.RecurringDates`.
- The walk itself is `WalkBy`, for any step function that moves forward.
  - Its generic lemmas are instantiated with the engine's step, `NextOccurrence`.
- The hooks and the repeat form update state in place, so they are classes.
  - `FormState.FormStateHook`, `Editing.EditingState`, `RecurringForm.RecurringEventForm`.
- `formatSelectedDays` sorts its argument array in place. It is a method on an `array<int>`.

Three behaviours of the code are easy to misread; the model follows what the code does:

- **Monthly rollover.** A monthly step to a month that lacks the anchor day overflows into the following month, and `setDate` puts it back on the anchor day. The short month is skipped, and later steps count from the shifted month. The "last day of the month" correction after it is never taken (`Recurrence.MonthlyStep`).
- **February 29 anchors.** A yearly walk from February 29 moves exactly four years whatever the interval. It does not search for the next leap year. In a century year without a February 29 (1900, 2100) it lands on February 28, and the next step returns to February 29 (`Recurrence.YearlyFromLeapDay`).
- **`generateRepeatEvents` guard.** It returns the template alone only for interval 0. A negative interval reaches `calculateRecurringDates`, whose own guard returns the start date alone, so the result is again the template.

## Model

| member | source | states |
|---|---|---|
| Recurrence.MaxEndDateParses | src/utils/recurringUtils.ts:4 | The ceiling `'2025-10-30'` parses to the date 2025-10-30 and that date spells back to the same string. |
| Recurrence.NextDate | src/utils/recurringUtils.ts:48-87 | The `switch` run on a copy of the current date equals the step function `NextOccurrence` for every repeat type; `'none'` leaves the copy unchanged. |
| Recurrence.MonthlyNextDate | src/utils/recurringUtils.ts:59-68 | The monthly setter chain (`setMonth`, `setDate`, the `setDate(0)` fallback) equals the monthly step. |
| Recurrence.YearlyNextDate | src/utils/recurringUtils.ts:70-86 | The yearly setter chain (four years for a February 29 anchor, `interval` years otherwise, then `setMonth`, `setDate` and the fallback) equals the yearly step. |
| Recurrence.CollectDates | src/utils/recurringUtils.ts:37-92 | The loop's output is the `YYYY-MM-DD` spelling of every date of the walk from the start up to `actualEnd`, in walk order; the start's month and day are the anchor. |
| Recurrence.CalculateRecurringDates | src/utils/recurringUtils.ts:14-93 | The whole function (guard, parsing, range checks, `actualEnd`, loop) returns exactly `RecurringDates` of its arguments. |
| Recurrence.RecurringDatesGuards | src/utils/recurringUtils.ts:21-32 | `'none'` or an interval ≤ 0 gives `[startDate]` whatever the end date and ceiling; otherwise the result is empty exactly when the start is after the end date or after `'2025-10-30'` (string order). |
| Recurrence.RecurringDatesShape | src/utils/recurringUtils.ts:35-45 | When the guards pass: non-empty, first element is `startDate`, strictly increasing in string order, every element between `startDate` and both the end date and `'2025-10-30'`. |
| Recurrence.StringOrderIsDateOrder | src/utils/recurringUtils.ts:30-35 | For two readable date strings, string `<` is exactly calendar order of the parsed dates. |
| Recurrence.OccurrencesByTimeValue | src/utils/recurringUtils.ts:30-35 | The guards and `actualEnd` written with time-value comparisons of `Date` objects select the same walk as calendar comparisons. |
| Recurrence.OccurrencesEnds | src/utils/recurringUtils.ts:29-44 | The date walk is empty iff the start is after the end date or the ceiling; otherwise it begins with the start date. |
| Recurrence.WalkStop | src/utils/recurringUtils.ts:44 | The walk ends only because the step after its last date passes the end: the loop's exit condition. |
| Recurrence.OccurrencesBounds | src/utils/recurringUtils.ts:35-44 | Every date lies between the start and both the end date and the ceiling, and the dates strictly increase. |
| Recurrence.OccurrencesSteps | src/utils/recurringUtils.ts:41-89 | Every date keeps the anchor facts and each date is one step after the previous one. |
| Recurrence.OccurrencesFormattable | src/utils/recurringUtils.ts:45 | Every date of a walk from a four-digit-year start has a `YYYY-MM-DD` spelling. |
| Recurrence.EffectiveEnd | src/utils/recurringUtils.ts:35 | `actualEnd` is the end date or the ceiling, and is after neither. |
| Recurrence.NextOccurrenceAdvances | src/utils/recurringUtils.ts:50-87 | From an anchored date with a positive interval every step moves strictly forward and keeps the anchor facts, so the loop ends. |
| Recurrence.SetDateShift | src/utils/recurringUtils.ts:52 | `setDate(getDate() + k)` moves the time value by exactly `k` days and gives a real day. |
| Recurrence.DailyWeeklyStep | src/utils/recurringUtils.ts:51-57 | A daily step moves `interval` days and a weekly step `7 * interval` days. |
| Recurrence.DailyWeeklySpacing | src/utils/recurringUtils.ts:50-57 | Consecutive daily results are exactly `interval` days apart and weekly results `7 * interval` days. |
| Recurrence.MonthShift | src/utils/recurringUtils.ts:60 | `setMonth(getMonth() + interval)` normalises into the month `interval` months later, or into the month after it when the day overflows. |
| Recurrence.MonthlyStep | src/utils/recurringUtils.ts:60-66 | From a date on the anchor day the step lands on the anchor day of the target month, or of the month after a short one; the `setDate(0)` fallback is never taken. |
| Recurrence.MonthlyNoCorrection | src/utils/recurringUtils.ts:63-66 | When `setDate` keeps the anchor day the monthly case returns its result unchanged. |
| Recurrence.MonthlyNext | src/utils/recurringUtils.ts:59-67 | A monthly step keeps the anchor day and lands `interval` months on, or one month later past a short month. |
| Recurrence.MonthlySpacing | src/utils/recurringUtils.ts:59-67 | Every monthly result is on the anchor day; consecutive results are `interval` months apart, one more when the target month lacks the day. |
| Recurrence.MonthlyFromJanuary31 | src/utils/recurringUtils.ts:59-67 | Monthly from January 31 to April 15 gives January 31 and March 31: February is skipped. |
| Recurrence.YearlyNoCorrection | src/utils/recurringUtils.ts:81-84 | When the setters land on the anchor month and day the yearly case returns its result unchanged. |
| Recurrence.YearlyStepOrdinary | src/utils/recurringUtils.ts:74-84 | From an ordinary anchor the step is the same month and day `interval` years later. |
| Recurrence.YearlyStepLeapDay | src/utils/recurringUtils.ts:72-84 | From a February 29 anchor the step is four years on whatever the interval: February 29 in a leap year, February 28 otherwise. |
| Recurrence.YearlyNext | src/utils/recurringUtils.ts:70-86 | A yearly step from an anchored date, for both kinds of anchor. |
| Recurrence.YearlySpacing | src/utils/recurringUtils.ts:70-86 | Consecutive yearly results are `interval` years apart on the anchor month and day, or four years apart for a February 29 anchor. |
| Recurrence.LeapDayNext | src/utils/recurringUtils.ts:72-84 | The step after a February 29 anchor is a real February day four years on: the 29th, or the 28th in a year without one. |
| Recurrence.LeapDayChain | src/utils/recurringUtils.ts:72-84 | Along a chain of leap-day anchors the engine's yearly step is `LeapDayNext`. |
| Recurrence.LeapDayWalk | src/utils/recurringUtils.ts:72-84 | A February 29 walk is the chain of four-year steps, whatever the interval. |
| Recurrence.CenturyThenLeap | src/utils/recurringUtils.ts:72-73 | Four years after a century year without a leap day comes a leap year. |
| Recurrence.YearlyFromLeapDay | src/utils/recurringUtils.ts:70-86 | Yearly with interval 1 from February 29 before a non-leap century year gives February 29, February 28 of the century year, then February 29. |
| Recurrence.StartOnCeiling | src/utils/recurringUtils.ts:30-44 | A walk that starts on the ceiling holds the ceiling alone, whatever later end date is given. |
| Recurrence.WalkUnfold | src/utils/recurringUtils.ts:44-89 | One turn of the loop: a walk that has not passed the end is its first date followed by the walk from the next date. |
| Recurrence.WalkEnds | src/utils/recurringUtils.ts:44 | The walk is empty iff it starts after the end; otherwise it starts at the current date and the step after its last date passes the end. |
| Recurrence.WalkSteps | src/utils/recurringUtils.ts:44-89 | Every date of the walk is kept by the step's invariant, lies between its first date and the end, and is one step after the previous date. |
| Recurrence.WalkIncreasing | src/utils/recurringUtils.ts:44-89 | The dates of the walk strictly increase. |
| Recurrence.WalkAdvance | src/utils/recurringUtils.ts:44-89 | The step from the `k`-th date is the next date of the walk, or a date past the end after the last one. |
| Recurrence.WalkIsTheChain | src/utils/recurringUtils.ts:44-89 | The walk is the only sequence that starts at the current date, steps from date to date, stays up to the end and whose next step passes the end. |
| Recurrence.WalkFormattable | src/utils/recurringUtils.ts:45 | A walk between two four-digit-year dates stays within four-digit years. |
| Recurrence.StepAdvances | src/utils/recurringUtils.ts:50-87 | The step of every repeat rule with a positive interval moves forward and keeps the anchor facts. |
| Recurrence.FormatAll | src/utils/recurringUtils.ts:45 | The pushed strings are, one for one and in order, the spellings of the dates. |
| Recurrence.FormatAllPrefix | src/utils/recurringUtils.ts:45 | Pushing one more date extends the formatted prefix by its spelling. |
| Recurrence.RepeatEndDate | src/utils/recurringUtils.ts:106 | The end date passed on is the rule's own end date, or `'2025-10-30'` when it is absent or empty. |
| Recurrence.GenerateRepeatEvents | src/utils/recurringUtils.ts:100-121 | `[eventData]` for `'none'` or interval 0 (also for a negative interval); otherwise one copy per computed date, in order, each equal to the template except for `date`. |
| Calendar.DaysInMonth | src/utils/recurringUtils.ts:59-86 | A month has 28 to 31 days, and 29 exactly for February of a leap year. |
| Calendar.OrdinalOrder | src/utils/recurringUtils.ts:44 | The walk's termination measure grows with calendar order. |
| Calendar.YearLengthStep | src/utils/recurringUtils.ts:52-56 | Consecutive years are `YearLength` days apart: the leap rule of 4, 100 and 400. |
| Calendar.MonthLengthStep | src/utils/recurringUtils.ts:52-56 | Consecutive months are `DaysInMonth` days apart. |
| Calendar.MonthStartStep | src/utils/recurringUtils.ts:52-56 | A month's first day follows the previous month's first day by that month's length. |
| Calendar.PrevMonthLast | src/utils/recurringUtils.ts:65 | Day 0 of a month names a real last day of the month before it. |
| Calendar.MonthDayNumber | src/utils/recurringUtils.ts:52-65 | Day `date` of a month, rolled over in either direction, is that month's first day plus `date - 1` days. |
| Calendar.MonthDayValid | src/utils/recurringUtils.ts:52-65 | Whatever it rolls over, a day count names a real day. |
| Calendar.MakeDateValid | src/utils/recurringUtils.ts:52-83 | `MakeDay` with any month and day count names a real day. |
| Calendar.MakeDateNumber | src/utils/recurringUtils.ts:52-83 | `MakeDay(year, month, date)` is the first day of the normalised month plus `date - 1` days. |
| Calendar.MakeDateOfDayInYear | src/utils/recurringUtils.ts:73-78 | Within a year no month carries into the year: the day lands in that month or rolls into the next. |
| Calendar.MonthDayRolls | src/utils/recurringUtils.ts:60-61 | Up to 28 days past the end of a month roll into the next month. |
| Calendar.MonthDayZero | src/utils/recurringUtils.ts:65 | `setDate(0)` is the last day of the previous month. |
| Calendar.SetDateSpec | src/utils/recurringUtils.ts:61-83 | `setDate` with 0, a day the month has, or up to 28 days past its end. |
| Calendar.MakeDateOfDayAgrees | src/utils/recurringUtils.ts:60-78 | For a day of the month, the closed form used for `setMonth` and `setFullYear` is `MakeDay`. |
| Calendar.SettersAreMakeDay | src/utils/recurringUtils.ts:60-78 | `setMonth` and `setFullYear` on a real day are `MakeDay` with the day kept. |
| Calendar.DaysBeforeYearMonotone | src/utils/recurringUtils.ts:30-44 | Later years start later in the time-value line. |
| Calendar.DayNumberWithinYear | src/utils/recurringUtils.ts:30-44 | A day's time value lies within its year's range. |
| Calendar.DayNumberOrder | src/utils/recurringUtils.ts:30-44 | Time-value order of `Date` objects is calendar order, and equal time values mean equal dates. |
| Calendar.BeforeIsLex | src/utils/recurringUtils.ts:44 | The loop's `currentDate <= actualEnd` on time values is calendar order. |
| Calendar.Iso | src/utils/recurringUtils.ts:45 | The spelling of a date is ten characters. |
| Calendar.ParseIso | src/utils/recurringUtils.ts:25-27 | Whatever parses is a date with a four-digit year. |
| Calendar.ParseIsoOfIso | src/utils/recurringUtils.ts:25-45 | Every four-digit-year date reads back from its spelling. |
| Calendar.IsoOfParseIso | src/utils/recurringUtils.ts:25-45 | Every readable date string is the spelling of the date it reads as. |
| Calendar.Pad2Order | src/components/RecurringEventForm.tsx:47 | Two-digit spellings compare as strings as their numbers do. |
| Calendar.Pad4Order | src/components/RecurringEventForm.tsx:47 | Four-digit spellings compare as strings as their numbers do. |
| Calendar.IsoOrder | src/components/RecurringEventForm.tsx:47 | Comparing two `YYYY-MM-DD` spellings as strings orders them as the dates. |
| Strings.NatToString | src/components/EventCard.tsx:140 | A natural number's numeral is non-empty, all digits, and one digit exactly below 10. |
| Strings.NatToStringInjective | src/components/EventCard.tsx:140 | Distinct natural numbers have distinct numerals. |
| Strings.IntToStringSign | src/components/EventCard.tsx:140 | A numeral starts with `-` exactly for a negative number. |
| Strings.IntToStringInjective | src/components/EventCard.tsx:140 | Distinct integers have distinct numerals. |
| Strings.IntToStringDigits | src/components/EventCard.tsx:140 | A numeral is a digit or `-`, followed by digits only. |
| Strings.NumeralPrefix | src/components/EventCard.tsx:140 | A numeral followed by text that does not start with a digit can be read back: number and text are both determined. |
| Strings.StrLessIrreflexive | src/components/RecurringEventForm.tsx:47 | String `<` is irreflexive. |
| Strings.StrLessTransitive | src/components/RecurringEventForm.tsx:47 | String `<` is transitive. |
| Strings.StrLessTotal | src/components/RecurringEventForm.tsx:47 | Any two distinct strings are ordered one way. |
| Strings.StrLessAsymmetric | src/components/RecurringEventForm.tsx:47 | String `<` is asymmetric. |
| Strings.StrLessAppend | src/components/RecurringEventForm.tsx:47 | Comparing strings that start with equal-length prefixes compares the prefixes first. |
| Strings.JsBeforeStrictTotal | src/components/WeeklyDaysSelector.tsx:66 | The default `sort()` order on numbers is a strict total order. |
| Strings.JsBeforeOnDigits | src/components/WeeklyDaysSelector.tsx:66 | On 0 to 9 the default `sort()` order is numeric order. |
| Strings.JsBeforeNotNumeric | src/components/WeeklyDaysSelector.tsx:165 | Beyond one digit it is not numeric: 10 sorts before 9. |
| Strings.Join | src/components/WeeklyDaysSelector.tsx:169 | Joining nothing is empty, and joining one part is that part. |
| Types.HasWeeklyOptions | src/types.ts:56-60 | When the guard holds the rule is weekly and `weeklyOptions` is present, as its type-guard signature promises. |
| Types.HasWeeklyOptionsPresence | src/types.ts:56-60 | The guard holds iff the type is weekly and the field is present, whatever it holds (an empty day list counts); a non-weekly type never passes. |
| Types.ElementsCardinality | src/types.ts:69 | The set of the days has as many elements as the list exactly when no day repeats. |
| Types.IsValidDaysOfWeek | src/types.ts:65-71 | Valid iff non-empty, every day in 0..6, and no day repeated. |
| Types.IsValidDaysOfWeekPermutation | src/types.ts:65-71 | Any reordering of the days gives the same verdict. |
| Policy.RepeatLabel | src/policy.ts:3-8 | Each type other than `'none'` has a two-character label starting with 매. |
| Policy.RepeatLabelInjective | src/policy.ts:3-8 | Different types have different labels. |
| WeekdayPicker.ShortLabelsAreWeekDays | src/components/WeeklyDaysSelector.tsx:34-42 | The table lists days 0 to 6 in order, with the shared weekday names as labels. |
| WeekdayPicker.Find | src/components/WeeklyDaysSelector.tsx:166 | `find` returns a row for the day iff the table has one, and that row has the day's value. |
| WeekdayPicker.Label | src/components/WeeklyDaysSelector.tsx:166 | A day has a label exactly when it is 0 to 6, and the label is the table's. |
| WeekdayPicker.ShowError | src/components/WeeklyDaysSelector.tsx:54-55 | A non-empty external error wins; otherwise the empty-selection message appears iff nothing is selected, and nothing otherwise. |
| WeekdayPicker.InsertBy | src/components/WeeklyDaysSelector.tsx:66 | Inserting adds exactly the element. |
| WeekdayPicker.InsertBySorted | src/components/WeeklyDaysSelector.tsx:66 | Inserting into a sorted list keeps it sorted. |
| WeekdayPicker.SortBy | src/components/WeeklyDaysSelector.tsx:66 | Sorting keeps exactly the elements. |
| WeekdayPicker.SortBySorted | src/components/WeeklyDaysSelector.tsx:66 | The result of sorting is sorted. |
| WeekdayPicker.SortedUnique | src/components/WeeklyDaysSelector.tsx:66 | Two sorted lists with the same elements are equal: the sort's result is determined. |
| WeekdayPicker.JsBeforeIsStrictTotal | src/components/WeeklyDaysSelector.tsx:66 | The default `sort()` comparison is a strict total order. |
| WeekdayPicker.JsSort | src/components/WeeklyDaysSelector.tsx:66 | `sort()` returns the same elements ordered by their decimal spellings. |
| WeekdayPicker.SortedDigitsAscending | src/components/WeeklyDaysSelector.tsx:66 | On weekday numbers that order is ascending numeric order. |
| WeekdayPicker.Without | src/components/WeeklyDaysSelector.tsx:65 | `filter` removes every copy of the day and keeps every other element. |
| WeekdayPicker.WithoutAppend | src/components/WeeklyDaysSelector.tsx:65 | Filtering works piece by piece, so it keeps order. |
| WeekdayPicker.WithoutSorted | src/components/WeeklyDaysSelector.tsx:65 | Filtering a sorted list leaves it sorted. |
| WeekdayPicker.HandleDayToggle | src/components/WeeklyDaysSelector.tsx:61-69 | No callback while disabled; a selected day is removed; an unselected day is added and the list comes back sorted with exactly one more element. |
| WeekdayPicker.ToggleOffKeepsOrder | src/components/WeeklyDaysSelector.tsx:64-65 | Removing a day keeps the other days in their original order. |
| WeekdayPicker.ToggleTwice | src/components/WeeklyDaysSelector.tsx:64-66 | Toggling a new day on and then off gives back the original days, sorted. |
| WeekdayPicker.ToggleExample | src/components/WeeklyDaysSelector.tsx:66 | Adding a day between two selected ones puts it in the middle, as adding 3 to [5, 1] gives [1, 3, 5]. |
| WeekdayPicker.SiftSwap | src/components/WeeklyDaysSelector.tsx:165 | One swap of the insertion sort moves the inserted element one place left and keeps the sorting invariant. |
| WeekdayPicker.SiftDone | src/components/WeeklyDaysSelector.tsx:165 | When the inserted element stops, one more element of the array is sorted. |
| WeekdayPicker.SortInPlace | src/components/WeeklyDaysSelector.tsx:165 | Sorting the array in place leaves exactly the sorted arrangement of its old contents. |
| WeekdayPicker.Labels | src/components/WeeklyDaysSelector.tsx:166-167 | Mapping to labels and dropping the missing ones never gives more labels than days. |
| WeekdayPicker.LabelsOfWeekdays | src/components/WeeklyDaysSelector.tsx:166-167 | For weekday numbers there is one label per day, the table's label. |
| WeekdayPicker.LabelsSkipUnknown | src/components/WeeklyDaysSelector.tsx:167 | A day without a table row contributes no label. |
| WeekdayPicker.FormatSelectedDays | src/components/WeeklyDaysSelector.tsx:161-170 | The argument array ends up sorted (left alone when empty), and the text is its labels joined with `', '`; empty for an empty array. |
| WeekdayPicker.FormattedInDayOrder | src/components/WeeklyDaysSelector.tsx:164-169 | For weekday numbers the `k`-th label is the label of the `k`-th smallest day. |
| WeekdayPicker.ValidateSelectedDays | src/components/WeeklyDaysSelector.tsx:177-197 | Empty input gives the empty-selection error; otherwise a day outside 0..6 gives the invalid-day error; otherwise (repeats allowed) the result is valid with no message. |
| WeekdayPicker.ValidationAgreesWithTypeCheck | src/components/WeeklyDaysSelector.tsx:177-197 | `isValidDaysOfWeek` implies a valid result, and a valid result without repeats implies `isValidDaysOfWeek`. |
| WeekdayPicker.ValidationIgnoresDuplicates | src/components/WeeklyDaysSelector.tsx:188 | `[1, 1]` passes `validateSelectedDays` but not `isValidDaysOfWeek`. |
| FormState.OrText | src/hooks/useFormState.ts:22-32 | `text \|\| fallback` keeps a non-empty text and falls back on the empty string. |
| FormState.OrNumber | src/hooks/useFormState.ts:31-33 | `n \|\| fallback` keeps a non-zero number and falls back on 0. |
| FormState.GetInitialFormState | src/hooks/useFormState.ts:21-38 | With no event: empty texts, category 업무, not repeating, daily, interval 1, empty end date, 10 minutes, no weekday options. With an event: its texts and type, `isRepeating` iff the type is not `'none'`, each of category, interval and notification time kept when truthy and replaced by its default otherwise, the end date or `''`, and the weekday options exactly when `hasWeeklyOptions` holds. |
| FormState.LoadedStateHasNoFalsyDefaults | src/hooks/useFormState.ts:28-33 | A state loaded from an event never holds an empty category, a zero interval or a zero notification time. |
| FormState.RepeatingIsRecurring | src/hooks/useFormState.ts:29 | `isRepeating` of a loaded event is the card's `isRecurringEvent`, and false with no event. |
| FormState.GetExtensional | src/hooks/useFormState.ts:5-19 | Two states with the same value in every field are equal. |
| FormState.Put | src/hooks/useFormState.ts:48 | `{ ...prev, [field]: value }` gives the field the value and leaves every other field unchanged. |
| FormState.PutOverwrites | src/hooks/useFormState.ts:47-49 | Updating a field twice keeps only the second value. |
| FormState.PutCommutes | src/hooks/useFormState.ts:47-49 | Updates of different fields commute. |
| FormState.PutSame | src/hooks/useFormState.ts:47-49 | Writing back a field's own value changes nothing. |
| FormState.FormStateHook.constructor | src/hooks/useFormState.ts:41 | The state starts as `getInitialFormState(initialEvent)`. |
| FormState.FormStateHook.SetInitialEvent | src/hooks/useFormState.ts:43-45 | A new `initialEvent` reloads the state from it. |
| FormState.FormStateHook.UpdateField | src/hooks/useFormState.ts:47-49 | The new state is the old one with the field replaced; the initial event stays. |
| FormState.FormStateHook.ResetForm | src/hooks/useFormState.ts:51-53 | The state becomes `getInitialFormState(initialEvent)`. |
| FormState.FormStateHook.LoadEvent | src/hooks/useFormState.ts:55-57 | The state becomes `getInitialFormState(event)`; the initial event stays. |
| Editing.EditingState.IsEditing | src/hooks/useEditingState.ts:9 | Editing iff an event is set. |
| Editing.EditingState.constructor | src/hooks/useEditingState.ts:6-7 | No event, not a single edit, not editing. |
| Editing.EditingState.StartEdit | src/hooks/useEditingState.ts:11-14 | The event is set and the mode is a series edit, from any prior state; the invariant holds. |
| Editing.EditingState.StartEditing | src/hooks/useEditingState.ts:16-18 | The same effect as `startEdit`. |
| Editing.EditingState.StartSingleEdit | src/hooks/useEditingState.ts:20-23 | The event is set and the mode is a single edit, from any prior state; the invariant holds. |
| Editing.EditingState.StopEditing | src/hooks/useEditingState.ts:25-28 | Both fields reset, from any prior state; the invariant holds. |
| Editing.EditingState.SetEditingEvent | src/hooks/useEditingState.ts:38 | The raw setter replaces the event and keeps the mode, so the invariant holds iff not in a single edit or an event is set. |
| Editing.RawSetterBreaksValid | src/hooks/useEditingState.ts:20-38 | A single edit followed by `setEditingEvent(null)` leaves the single-edit flag with no event. |
| EventCard.IsRecurringEvent | src/components/EventCard.tsx:121-123 | An event is recurring exactly when its repeat text has a unit of its own rather than `undefined`. |
| EventCard.TypeUnit | src/components/EventCard.tsx:130-137 | Each type has a one-character unit; `'none'` has no entry and prints `undefined`; no unit starts with a digit. |
| EventCard.TypeUnitInjective | src/components/EventCard.tsx:130-137 | The unit tells the repeat type. |
| EventCard.EndDateSuffix | src/components/EventCard.tsx:138 | The suffix is empty iff the end date is absent or empty. |
| EventCard.EndDateSuffixInjective | src/components/EventCard.tsx:138 | The end date can be read back from its suffix. |
| EventCard.FormatRepeatText | src/components/EventCard.tsx:129-141 | The text starts with `'반복: '` and, without an end date, ends with `'마다'`. |
| EventCard.AfterInterval | src/components/EventCard.tsx:140 | After the interval come the unit, `'마다'` and the suffix. |
| EventCard.AfterIntervalDecodes | src/components/EventCard.tsx:137-140 | The type and end date can be read back from what follows the interval. |
| EventCard.FormatRepeatTextDecodes | src/components/EventCard.tsx:129-141 | The text determines the interval, the type and the end date: it loses nothing the card shows. |
| EventCard.GetNotificationLabel | src/components/EventCard.tsx:147-157 | The unknown label is shown exactly for times other than 1, 10, 60, 120 and 1440 minutes. |
| EventCard.NotificationMinutes | src/components/EventCard.tsx:148-154 | Reading a label back gives a time whose table label it is. |
| EventCard.NotificationLabelRoundTrip | src/components/EventCard.tsx:147-157 | Every known time reads back from its label, and every other time gives the unknown label. |
| RecurringIcon.ToPx | src/components/RecurringEventIcon.tsx:32-42 | The icon is 16, 20 or 28 pixels. |
| RecurringIcon.ToPxOrdered | src/components/RecurringEventIcon.tsx:32-42 | Small is smaller than medium, and medium smaller than large. |
| RecurringIcon.IconPixels | src/components/RecurringEventIcon.tsx:46-53 | The default size gives 20 pixels; a given size gives its own size. |
| RecurringIcon.IntervalPart | src/components/RecurringEventIcon.tsx:58 | The interval part is present iff the interval is neither 0 nor 1, and then starts with a space. |
| RecurringIcon.EndPart | src/components/RecurringEventIcon.tsx:59 | The end part is present iff the end date is non-empty, and then starts with a comma. |
| RecurringIcon.EndPartInjective | src/components/RecurringEventIcon.tsx:59 | The end date can be read back from the end part. |
| RecurringIcon.IntervalPresenceAgrees | src/components/RecurringEventIcon.tsx:58-59 | Two equal tails both have an interval part or both lack one. |
| RecurringIcon.AfterIntervalLabel | src/components/RecurringEventIcon.tsx:58-59 | When the interval is shown the tail is `' (간격 '`, the numeral, `')'` and the end part. |
| RecurringIcon.TooltipTailDecodes | src/components/RecurringEventIcon.tsx:58-59 | The interval as shown and the end date can be read back from the tail. |
| RecurringIcon.Tooltip | src/components/RecurringEventIcon.tsx:50-59 | Nothing for `'none'`; otherwise `'반복: '`, the type's label, then the interval part and the end part. |
| RecurringIcon.TooltipDecodes | src/components/RecurringEventIcon.tsx:55-59 | Equal tooltips mean the same type, the same interval as shown and the same end date. |
| RecurringForm.EndDateTooLateMeansAfterCeiling | src/components/RecurringEventForm.tsx:47 | For a readable date the warning condition is exactly "after the engine's ceiling". |
| RecurringForm.ClampInterval | src/components/RecurringEventForm.tsx:89 | The interval is at least 1: a number ≥ 1 is kept, and 0, a negative number or a non-number gives 1. |
| RecurringForm.RecurringEventForm.constructor | src/components/RecurringEventForm.tsx:26-34 | The form mounts with no warning and the values passed in. |
| RecurringForm.RecurringEventForm.HandleEndDateChange | src/components/RecurringEventForm.tsx:46-56 | The value is stored either way; the warning is set iff it is non-empty and after `'2025-10-30'` in string order, and cleared otherwise; the interval stays. |
| RecurringForm.RecurringEventForm.ChangeInterval | src/components/RecurringEventForm.tsx:89 | The stored interval is the clamped input, always at least 1; the end date and warning stay. |

## Left out

- Time zones are not modelled. The code parses `YYYY-MM-DD` as UTC midnight and reads the day back with local getters; the model treats every date as a naive calendar day.
- `formatDate` comes from `src/utils/dateUtils.ts`, which is not part of this model. It is modelled as the `YYYY-MM-DD` spelling `Calendar.Iso`.
- Parsing of strings that are not `YYYY-MM-DD` dates (`new Date` giving an invalid date) is not modelled. `Recurrence.CalculateRecurringDates` and `Recurrence.GenerateRepeatEvents` require readable date strings whenever the walk runs.
- Years outside 0 to 9999 are not modelled: the spelling needs four digits. Only a start with such a year is required; the ceiling keeps the walk inside.
- `Number()` parsing of the interval field is left out. `RecurringForm.ClampInterval` takes an integer or `None`, and `None` stands for NaN. Fractional input is not modelled.
- JavaScript numbers are unbounded integers here. Float rounding of very large intervals is not modelled.
- Rendering is left out: React, MUI layout, aria labels, the tooltip component, and the glyph `getIconByType` picks.
- RecurringIcon.ToPx: the `default` branch for a size outside small, medium and large is not modelled, because the prop's type admits only those three.
- WeekdayPicker.SortInPlace: `Array.prototype.sort` is modelled as an insertion sort. The result is fixed by the order alone (`SortedUnique`), so any correct sort gives the same array.
- WeekdayPicker.HandleDayToggle: the callback `onSelectionChange` is modelled as the returned value; `None` means no call.
- Calendar.SetMonth and Calendar.SetFullYear use a closed form that is exact only for a real day of the month (`Calendar.SettersAreMakeDay`). The engine only calls them on real days.
- FormState.FormStateHook: React's batching of state updates and `useCallback` memoisation are not modelled; each call replaces the state at once.
- `calculateWeeklyWithSpecificDays`, `calculateRecurringDatesWithOptions`, `generateRepeatEventsWithOptions` and `convertToSingleEvent` are not part of this model: their source is not in `src/utils/recurringUtils.ts`.
- Network calls, persistence, notifications and `App.tsx` orchestration are not modelled. `src/hooks/useEventOperations.ts` is not part of this model.
- `useEventForm.ts` is not part of this model. It wraps `useFormState` together with time validation.
