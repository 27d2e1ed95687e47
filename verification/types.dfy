/**
 * The event records shared by the whole application, and the two checks
 * declared beside them: the "has weekly options" type guard and weekday-set
 * validity.
 */
module Types {
  import opened Wrappers

  /** How an event repeats; `NoRepeat` is the source's `'none'`. */
  datatype RepeatType = NoRepeat | Daily | Weekly | Monthly | Yearly

  /** Selected weekdays: 0 is Sunday, 6 is Saturday. */
  datatype WeeklyOptions = WeeklyOptions(daysOfWeek: seq<int>)

  /** The repeat rule of an event; the optional fields may be absent. */
  datatype RepeatInfo = RepeatInfo(
    repeatType: RepeatType,
    interval: int,
    endDate: Option<string>,
    id: Option<string>,
    weeklyOptions: Option<WeeklyOptions>)

  /** An event as the form produces it; `notificationTime` is in minutes. */
  datatype EventForm = EventForm(
    title: string,
    date: string,
    startTime: string,
    endTime: string,
    description: string,
    location: string,
    category: string,
    repeat: RepeatInfo,
    notificationTime: int)

  /** A stored event: the form fields plus the server's identifier. */
  datatype Event = Event(id: string, form: EventForm)

  /**
   * `hasWeeklyOptions`: the rule repeats weekly and carries a weekday
   * selection. Whether the selection is empty does not matter. As a type
   * guard it lets the caller read `weeklyOptions` when it holds.
   */
  function HasWeeklyOptions(repeat: RepeatInfo): (has: bool)
    ensures has ==> repeat.weeklyOptions.Some? && repeat.repeatType == Weekly
  {
    repeat.repeatType == Weekly && repeat.weeklyOptions.Some?
  }

  /** The guard decides on the type tag and the presence of the field alone. */
  lemma HasWeeklyOptionsPresence(repeat: RepeatInfo, days: seq<int>)
    ensures HasWeeklyOptions(repeat.(weeklyOptions := Some(WeeklyOptions(days)))) <==> repeat.repeatType == Weekly
    ensures !HasWeeklyOptions(repeat.(weeklyOptions := None))
    ensures repeat.repeatType != Weekly ==> !HasWeeklyOptions(repeat)
  {
  }

  predicate NoDuplicates(s: seq<int>) {
    forall i, j :: 0 <= i < j < |s| ==> s[i] != s[j]
  }

  function Elements(s: seq<int>): set<int> {
    set x | x in s
  }

  /** `new Set(days).size === days.length` holds exactly when nothing repeats. */
  lemma {:induction false} ElementsCardinality(s: seq<int>)
    ensures |Elements(s)| <= |s|
    ensures |Elements(s)| == |s| <==> NoDuplicates(s)
  {
    if s != [] {
      var rest := s[1..];
      ElementsCardinality(rest);
      assert Elements(s) == {s[0]} + Elements(rest);
      if s[0] in rest {
        assert Elements(s) == Elements(rest);
        var j :| 0 <= j < |rest| && rest[j] == s[0];
        assert s[0] == s[j + 1];
      } else {
        assert |Elements(s)| == 1 + |Elements(rest)|;
        if NoDuplicates(rest) {
          forall i, j | 0 <= i < j < |s| ensures s[i] != s[j] {
            if i > 0 {
              assert s[i] == rest[i - 1] && s[j] == rest[j - 1];
            } else {
              assert s[j] == rest[j - 1];
            }
          }
        } else {
          var i, j :| 0 <= i < j < |rest| && rest[i] == rest[j];
          assert s[i + 1] == s[j + 1];
        }
      }
    }
  }

  /**
   * `isValidDaysOfWeek`: at least one day, every day in 0..6, and no day
   * twice (measured, as the source does, by the size of the set of days).
   */
  function IsValidDaysOfWeek(days: seq<int>): (valid: bool)
    ensures valid <==> |days| > 0 && (forall i :: 0 <= i < |days| ==> 0 <= days[i] <= 6) && NoDuplicates(days)
  {
    ElementsCardinality(days);
    |days| > 0 && (forall i :: 0 <= i < |days| ==> 0 <= days[i] <= 6) && |Elements(days)| == |days|
  }

  /** Reordering the days does not change the verdict. */
  lemma IsValidDaysOfWeekPermutation(a: seq<int>, b: seq<int>)
    requires multiset(a) == multiset(b)
    ensures IsValidDaysOfWeek(a) == IsValidDaysOfWeek(b)
  {
    assert |a| == |multiset(a)| == |multiset(b)| == |b|;
    assert forall x :: x in a <==> x in multiset(a);
    assert forall x :: x in b <==> x in multiset(b);
    assert Elements(a) == Elements(b);
    if forall i :: 0 <= i < |a| ==> 0 <= a[i] <= 6 {
      forall j | 0 <= j < |b| ensures 0 <= b[j] <= 6 {
        assert b[j] in multiset(a);
        var i :| 0 <= i < |a| && a[i] == b[j];
      }
    }
    if forall j :: 0 <= j < |b| ==> 0 <= b[j] <= 6 {
      forall i | 0 <= i < |a| ensures 0 <= a[i] <= 6 {
        assert a[i] in multiset(b);
        var j :| 0 <= j < |b| && b[j] == a[i];
      }
    }
  }
}
