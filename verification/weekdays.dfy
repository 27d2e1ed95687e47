/**
 * The weekday picker: the `WEEKDAYS` table, the error-text rule, the
 * checkbox toggle, and the two exported helpers `formatSelectedDays` and
 * `validateSelectedDays`.
 *
 * Arrays of day numbers are sorted with `Array.prototype.sort()` and no
 * comparator, which orders numbers by their decimal spellings (`JsBefore`).
 */
module WeekdayPicker {
  import opened Wrappers
  import opened Strings
  import opened Types
  import Policy

  /** One row of the `WEEKDAYS` table: day number, short label, full label. */
  datatype Weekday = Weekday(value: int, shortLabel: string, fullLabel: string)

  const Weekdays: seq<Weekday> := [
    Weekday(0, "일", "일요일"),
    Weekday(1, "월", "월요일"),
    Weekday(2, "화", "화요일"),
    Weekday(3, "수", "수요일"),
    Weekday(4, "목", "목요일"),
    Weekday(5, "금", "금요일"),
    Weekday(6, "토", "토요일")
  ]

  /** The short labels are the shared `WEEK_DAYS` names, in the same order. */
  lemma ShortLabelsAreWeekDays()
    ensures |Weekdays| == |Policy.WeekDays|
    ensures forall i :: 0 <= i < |Weekdays| ==> Weekdays[i].value == i && Weekdays[i].shortLabel == Policy.WeekDays[i]
  {
  }

  const EmptySelectionMessage: string := "최소 1개 요일을 선택해주세요"
  const InvalidDayMessage: string := "유효하지 않은 요일이 선택되었습니다"

  /** `table.find((wd) => wd.value === day)`: the first row for `day`, if any. */
  function Find(table: seq<Weekday>, day: int): (r: Option<Weekday>)
    ensures r.None? <==> forall i :: 0 <= i < |table| ==> table[i].value != day
    ensures r.Some? ==> r.value in table && r.value.value == day
  {
    if table == [] then None
    else if table[0].value == day then Some(table[0])
    else
      Find(table[1..], day)
  }

  /** `WEEKDAYS.find((wd) => wd.value === day)?.label`: a label exactly for the days 0 to 6. */
  function Label(day: int): (l: Option<string>)
    ensures l.Some? <==> 0 <= day <= 6
    ensures l.Some? ==> l.value == Weekdays[day].shortLabel
  {
    var w := Find(Weekdays, day);
    if w.Some? then Some(w.value.shortLabel) else None
  }

  /**
   * The message under the checkboxes: a non-empty external `error` wins;
   * otherwise the empty-selection message appears exactly when nothing is
   * selected.
   */
  function ShowError(selectedDays: seq<int>, error: Option<string>): (shown: string)
    ensures error.Some? && error.value != "" ==> shown == error.value
    ensures !(error.Some? && error.value != "") ==>
      (shown == EmptySelectionMessage <==> |selectedDays| == 0) && (shown == "" <==> |selectedDays| > 0)
  {
    if error.Some? && error.value != "" then error.value
    else if |selectedDays| == 0 then EmptySelectionMessage
    else ""
  }

  /**
   * `before` is a strict total order on numbers: irreflexive, transitive,
   * and any two distinct numbers are comparable.
   */
  ghost predicate StrictTotalOrder(before: (int, int) -> bool) {
    (forall x :: !before(x, x)) &&
    (forall x, y :: x != y ==> before(x, y) || before(y, x)) &&
    (forall x, y, z :: before(x, y) && before(y, z) ==> before(x, z))
  }

  /** The three properties of a strict total order, for given numbers. */
  lemma OrderFacts(before: (int, int) -> bool, x: int, y: int, z: int)
    requires StrictTotalOrder(before)
    ensures !before(x, x)
    ensures x != y ==> before(x, y) || before(y, x)
    ensures before(x, y) && before(y, z) ==> before(x, z)
  {
  }

  /** No later element comes before an earlier one. */
  predicate SortedBy(s: seq<int>, before: (int, int) -> bool) {
    forall i, j :: 0 <= i < j < |s| ==> !before(s[j], s[i])
  }

  /** Put `x` into a list after every element that does not come after it. */
  function InsertBy(x: int, s: seq<int>, before: (int, int) -> bool): (r: seq<int>)
    ensures multiset(r) == multiset(s) + multiset{x}
  {
    if s == [] then [x]
    else if before(x, s[0]) then [x] + s
    else
      assert s == [s[0]] + s[1..];
      [s[0]] + InsertBy(x, s[1..], before)
  }

  /** A sorted list stays sorted when an element that comes after none of it is put in front. */
  lemma ConsSorted(h: int, t: seq<int>, before: (int, int) -> bool)
    requires SortedBy(t, before)
    requires forall k :: 0 <= k < |t| ==> !before(t[k], h)
    ensures SortedBy([h] + t, before)
  {
    var r := [h] + t;
    forall i, j | 0 <= i < j < |r| ensures !before(r[j], r[i]) {
      assert r[j] == t[j - 1];
      if i > 0 {
        assert r[i] == t[i - 1];
      }
    }
  }

  lemma SortedTail(s: seq<int>, before: (int, int) -> bool)
    requires s != [] && SortedBy(s, before)
    ensures SortedBy(s[1..], before)
  {
    forall i, j | 0 <= i < j < |s| - 1 ensures !before(s[1..][j], s[1..][i]) {
      assert s[1..][j] == s[j + 1] && s[1..][i] == s[i + 1];
    }
  }

  lemma {:induction false} InsertBySorted(x: int, s: seq<int>, before: (int, int) -> bool)
    requires StrictTotalOrder(before) && SortedBy(s, before)
    ensures SortedBy(InsertBy(x, s, before), before)
  {
    if s == [] {
    } else if before(x, s[0]) {
      forall k | 0 <= k < |s| ensures !before(s[k], x) {
        assert k > 0 ==> !before(s[k], s[0]);
        OrderFacts(before, s[k], x, s[0]);
      }
      ConsSorted(x, s, before);
    } else {
      var tail := InsertBy(x, s[1..], before);
      SortedTail(s, before);
      InsertBySorted(x, s[1..], before);
      forall k | 0 <= k < |tail| ensures !before(tail[k], s[0]) {
        assert tail[k] in multiset(tail);
        if tail[k] != x {
          assert tail[k] in multiset(s[1..]);
          var m :| 0 <= m < |s[1..]| && s[1..][m] == tail[k];
          assert s[m + 1] == tail[k];
        }
      }
      ConsSorted(s[0], tail, before);
    }
  }

  /**
   * What `sort(compareFn)` produces for a comparison that is a strict total
   * order: the same elements, none after one it comes before. (Inserting
   * each element after its equals keeps the sort stable.)
   */
  function SortBy(s: seq<int>, before: (int, int) -> bool): (r: seq<int>)
    ensures multiset(r) == multiset(s)
  {
    if s == [] then []
    else
      assert s == s[..|s| - 1] + [s[|s| - 1]];
      InsertBy(s[|s| - 1], SortBy(s[..|s| - 1], before), before)
  }

  lemma {:induction false} SortBySorted(s: seq<int>, before: (int, int) -> bool)
    requires StrictTotalOrder(before)
    ensures SortedBy(SortBy(s, before), before)
  {
    if s != [] {
      SortBySorted(s[..|s| - 1], before);
      InsertBySorted(s[|s| - 1], SortBy(s[..|s| - 1], before), before);
    }
  }

  /** Two sorted arrangements of the same elements start with the same element. */
  lemma SortedHeads(a: seq<int>, b: seq<int>, before: (int, int) -> bool)
    requires StrictTotalOrder(before)
    requires SortedBy(a, before) && SortedBy(b, before) && multiset(a) == multiset(b)
    requires a != []
    ensures b != [] && a[0] == b[0]
  {
    assert a[0] in multiset(b);
    var i :| 0 <= i < |b| && b[i] == a[0];
    assert b[0] in multiset(a);
    var j :| 0 <= j < |a| && a[j] == b[0];
    assert i > 0 ==> !before(b[i], b[0]);
    assert j > 0 ==> !before(a[j], a[0]);
    OrderFacts(before, a[0], b[0], a[0]);
  }

  /** Removing the same head from both sides keeps the multisets equal. */
  lemma TailMultiset(a: seq<int>, b: seq<int>)
    requires a != [] && b != [] && a[0] == b[0] && multiset(a) == multiset(b)
    ensures multiset(a[1..]) == multiset(b[1..])
  {
    assert a == [a[0]] + a[1..];
    assert b == [b[0]] + b[1..];
    assert multiset(a[1..]) == multiset(a) - multiset{a[0]};
    assert multiset(b[1..]) == multiset(b) - multiset{b[0]};
  }

  /** A sorted arrangement of a multiset is unique: any two are equal. */
  lemma {:induction false} SortedUnique(a: seq<int>, b: seq<int>, before: (int, int) -> bool)
    requires StrictTotalOrder(before)
    requires SortedBy(a, before) && SortedBy(b, before) && multiset(a) == multiset(b)
    ensures a == b
  {
    if a == [] {
      assert |b| == |multiset(b)| == 0;
    } else {
      SortedHeads(a, b, before);
      TailMultiset(a, b);
      SortedTail(a, before);
      SortedTail(b, before);
      SortedUnique(a[1..], b[1..], before);
      assert a == [a[0]] + a[1..] && b == [b[0]] + b[1..];
    }
  }

  /** The comparison `sort()` uses by default is a strict total order. */
  lemma JsBeforeIsStrictTotal()
    ensures StrictTotalOrder(JsBefore)
  {
    forall x ensures !JsBefore(x, x) {
      JsBeforeStrictTotal(x, x, x);
    }
    forall x, y | x != y ensures JsBefore(x, y) || JsBefore(y, x) {
      JsBeforeStrictTotal(x, y, y);
    }
    forall x, y, z | JsBefore(x, y) && JsBefore(y, z) ensures JsBefore(x, z) {
      JsBeforeStrictTotal(x, y, z);
    }
  }

  /** Sorted in the order `sort()` without a comparator uses. */
  predicate JsSorted(s: seq<int>) {
    SortedBy(s, JsBefore)
  }

  /** `sort()` without a comparator: the elements in the order of their decimal spellings. */
  function JsSort(s: seq<int>): (r: seq<int>)
    ensures JsSorted(r) && multiset(r) == multiset(s)
  {
    JsBeforeIsStrictTotal();
    SortBySorted(s, JsBefore);
    SortBy(s, JsBefore)
  }

  /** On weekday numbers (indeed on 0 to 9) the `sort()` order is ascending numeric order. */
  lemma SortedDigitsAscending(s: seq<int>)
    requires JsSorted(s) && forall i :: 0 <= i < |s| ==> 0 <= s[i] <= 9
    ensures forall i, j :: 0 <= i < j < |s| ==> s[i] <= s[j]
  {
    forall i, j | 0 <= i < j < |s| ensures s[i] <= s[j] {
      JsBeforeOnDigits(s[j], s[i]);
    }
  }

  /** `selectedDays.filter((day) => day !== dayValue)`. */
  function Without(s: seq<int>, d: int): (r: seq<int>)
    ensures d !in r && |r| <= |s|
    ensures forall x :: x in r <==> x in s && x != d
    ensures multiset(r) == multiset(s)[d := 0]
  {
    if s == [] then []
    else
      assert s == [s[0]] + s[1..];
      if s[0] == d then Without(s[1..], d) else [s[0]] + Without(s[1..], d)
  }

  /** Filtering keeps order: it works piece by piece. */
  lemma {:induction false} WithoutAppend(s: seq<int>, t: seq<int>, d: int)
    ensures Without(s + t, d) == Without(s, d) + Without(t, d)
  {
    if s != [] {
      assert (s + t)[0] == s[0] && (s + t)[1..] == s[1..] + t;
      WithoutAppend(s[1..], t, d);
    } else {
      assert s + t == t;
    }
  }

  /** Filtering a sorted list leaves it sorted. */
  lemma {:induction false} WithoutSorted(s: seq<int>, d: int, before: (int, int) -> bool)
    requires SortedBy(s, before)
    ensures SortedBy(Without(s, d), before)
  {
    if s != [] {
      WithoutSorted(s[1..], d, before);
      var tail := Without(s[1..], d);
      if s[0] != d {
        var r := [s[0]] + tail;
        forall k | 0 <= k < |tail| ensures !before(tail[k], s[0]) {
          assert tail[k] in s[1..];
          var m :| 0 <= m < |s[1..]| && s[1..][m] == tail[k];
          assert s[m + 1] == tail[k];
        }
        forall i, j | 0 <= i < j < |r| ensures !before(r[j], r[i]) {
          if i > 0 {
            assert r[i] == tail[i - 1];
          }
          assert r[j] == tail[j - 1];
        }
      }
    }
  }

  /**
   * `handleDayToggle`: nothing happens (no callback) while disabled; a
   * selected day is removed; an unselected day is appended and the list
   * sorted. The result is what the callback receives.
   */
  function HandleDayToggle(selectedDays: seq<int>, dayValue: int, disabled: bool): (r: Option<seq<int>>)
    ensures r.None? <==> disabled
    ensures r.Some? && dayValue in selectedDays ==>
      dayValue !in r.value && multiset(r.value) == multiset(selectedDays)[dayValue := 0]
    ensures r.Some? && dayValue !in selectedDays ==>
      JsSorted(r.value) && multiset(r.value) == multiset(selectedDays) + multiset{dayValue}
  {
    if disabled then None
    else if dayValue in selectedDays then Some(Without(selectedDays, dayValue))
    else Some(JsSort(selectedDays + [dayValue]))
  }

  /** Removing a day keeps the other days in their original order. */
  lemma ToggleOffKeepsOrder(before: seq<int>, after: seq<int>, dayValue: int)
    requires dayValue in before + after
    ensures HandleDayToggle(before + after, dayValue, false) ==
      Some(Without(before, dayValue) + Without(after, dayValue))
  {
    WithoutAppend(before, after, dayValue);
  }

  /**
   * Toggling a new day on and then off again leaves the original days,
   * sorted.
   */
  lemma ToggleTwice(selectedDays: seq<int>, dayValue: int)
    requires dayValue !in selectedDays
    ensures var on := HandleDayToggle(selectedDays, dayValue, false).value;
      dayValue in on && HandleDayToggle(on, dayValue, false) == Some(JsSort(selectedDays))
  {
    var on := JsSort(selectedDays + [dayValue]);
    assert dayValue in multiset(on);
    var off := Without(on, dayValue);
    WithoutSorted(on, dayValue, JsBefore);
    assert multiset(selectedDays)[dayValue := 0] == multiset(selectedDays);
    assert multiset(off) == multiset(selectedDays);
    JsBeforeIsStrictTotal();
    SortedUnique(off, JsSort(selectedDays), JsBefore);
  }

  lemma SortedThree(a: int, b: int, c: int, before: (int, int) -> bool)
    requires !before(b, a) && !before(c, a) && !before(c, b)
    ensures SortedBy([a, b, c], before)
  {
  }

  /**
   * Adding a weekday between two selected ones puts it in the middle: for
   * example, adding 3 to [5, 1] gives [1, 3, 5].
   */
  lemma ToggleExample(low: int, mid: int, high: int)
    requires 0 <= low < mid < high <= 9
    ensures HandleDayToggle([high, low], mid, false) == Some([low, mid, high])
  {
    var r := JsSort([high, low] + [mid]);
    JsBeforeOnDigits(mid, low);
    JsBeforeOnDigits(high, low);
    JsBeforeOnDigits(high, mid);
    SortedThree(low, mid, high, JsBefore);
    assert multiset([high, low] + [mid]) == multiset([low, mid, high]);
    JsBeforeIsStrictTotal();
    SortedUnique(r, [low, mid, high], JsBefore);
  }

  /** The first `n` elements are sorted. */
  predicate SortedPrefix(s: seq<int>, n: int, before: (int, int) -> bool)
    requires 0 <= n <= |s|
  {
    forall p, q :: 0 <= p < q < n ==> !before(s[q], s[p])
  }

  /**
   * Insertion of the element that started at `i` is under way: it now sits
   * at `j`, it comes before everything after it up to `i`, and the first
   * `i + 1` elements without position `j` are sorted.
   */
  predicate Sifting(s: seq<int>, i: int, j: int, before: (int, int) -> bool)
    requires 0 <= j <= i < |s|
  {
    (forall p, q :: 0 <= p < q <= i && p != j && q != j ==> !before(s[q], s[p])) &&
    (forall q :: j < q <= i ==> before(s[j], s[q]))
  }

  lemma SiftStart(s: seq<int>, i: int, before: (int, int) -> bool)
    requires 0 <= i < |s| && SortedPrefix(s, i, before)
    ensures Sifting(s, i, i, before)
  {
  }

  /** Swapping the element with a predecessor it comes before moves the insertion one place left. */
  lemma SiftSwap(s: seq<int>, i: int, j: int, before: (int, int) -> bool)
    requires 0 < j <= i < |s| && Sifting(s, i, j, before) && before(s[j], s[j - 1])
    ensures Sifting(s[j - 1 := s[j]][j := s[j - 1]], i, j - 1, before)
  {
    var t := s[j - 1 := s[j]][j := s[j - 1]];
    forall p, q | 0 <= p < q <= i && p != j - 1 && q != j - 1 ensures !before(t[q], t[p]) {
      if q == j {
        assert !before(s[j - 1], s[p]);
      } else if p == j {
        assert !before(s[q], s[j - 1]);
      }
    }
  }

  /** Once the element stops moving, the first `i + 1` elements are sorted. */
  lemma SiftDone(s: seq<int>, i: int, j: int, before: (int, int) -> bool)
    requires StrictTotalOrder(before)
    requires 0 <= j <= i < |s| && Sifting(s, i, j, before) && (j == 0 || !before(s[j], s[j - 1]))
    ensures SortedPrefix(s, i + 1, before)
  {
    forall p, q | 0 <= p < q <= i ensures !before(s[q], s[p]) {
      if q == j {
        assert p < j - 1 ==> !before(s[j - 1], s[p]);
        OrderFacts(before, s[j], s[p], s[j - 1]);
        OrderFacts(before, s[p], s[j - 1], s[j]);
      } else if p == j {
        OrderFacts(before, s[q], s[j], s[q]);
      }
    }
  }

  /**
   * `Array.prototype.sort(compareFn)` on the argument array, in place, for a
   * comparison that is a strict total order. Written as an insertion sort.
   */
  method SortInPlace(a: array<int>, before: (int, int) -> bool)
    requires StrictTotalOrder(before)
    modifies a
    ensures a[..] == SortBy(old(a[..]), before)
  {
    var i := 0;
    while i < a.Length
      invariant 0 <= i <= a.Length
      invariant SortedPrefix(a[..], i, before)
      invariant multiset(a[..]) == multiset(old(a[..]))
    {
      SiftStart(a[..], i, before);
      var j := i;
      while j > 0 && before(a[j], a[j - 1])
        invariant 0 <= j <= i
        invariant Sifting(a[..], i, j, before)
        invariant multiset(a[..]) == multiset(old(a[..]))
      {
        ghost var s := a[..];
        SiftSwap(s, i, j, before);
        a[j - 1], a[j] := a[j], a[j - 1];
        assert a[..] == s[j - 1 := s[j]][j := s[j - 1]];
        j := j - 1;
      }
      SiftDone(a[..], i, j, before);
      i := i + 1;
    }
    assert SortedBy(a[..], before);
    SortBySorted(old(a[..]), before);
    SortedUnique(a[..], SortBy(old(a[..]), before), before);
  }

  /** `.map((day) => …?.label).filter(Boolean)`: the labels of the days that have one, in order. */
  function Labels(days: seq<int>): (labels: seq<string>)
    ensures |labels| <= |days|
  {
    if days == [] then []
    else
      var first := Label(days[0]);
      (if first.Some? then [first.value] else []) + Labels(days[1..])
  }

  /** For weekday numbers the labels are exactly the table's labels, one per day. */
  lemma {:induction false} LabelsOfWeekdays(days: seq<int>)
    requires forall i :: 0 <= i < |days| ==> 0 <= days[i] <= 6
    ensures |Labels(days)| == |days|
    ensures forall i :: 0 <= i < |days| ==> Labels(days)[i] == Weekdays[days[i]].shortLabel
  {
    if days != [] {
      LabelsOfWeekdays(days[1..]);
    }
  }

  /** Days without a table row contribute nothing. */
  lemma {:induction false} LabelsSkipUnknown(days: seq<int>, d: int)
    requires !(0 <= d <= 6)
    ensures Labels(days + [d]) == Labels(days)
  {
    if days == [] {
      assert [d][1..] == [];
    } else {
      assert (days + [d])[1..] == days[1..] + [d];
      LabelsSkipUnknown(days[1..], d);
    }
  }

  /**
   * `formatSelectedDays`: the empty string for an empty array; otherwise the
   * array is sorted in place and the labels of its days are joined with
   * `", "`.
   */
  method FormatSelectedDays(selectedDays: array<int>) returns (text: string)
    modifies selectedDays
    ensures selectedDays[..] == SortBy(old(selectedDays[..]), JsBefore)
    ensures text == Join(Labels(selectedDays[..]), ", ")
  {
    if selectedDays.Length == 0 {
      return "";
    }
    JsBeforeIsStrictTotal();
    SortInPlace(selectedDays, JsBefore);
    text := Join(Labels(selectedDays[..]), ", ");
  }

  /**
   * For weekday numbers the text lists the labels in ascending day order:
   * the `k`-th label belongs to the `k`-th smallest day.
   */
  lemma FormattedInDayOrder(days: seq<int>)
    requires forall i :: 0 <= i < |days| ==> 0 <= days[i] <= 6
    ensures var sorted := JsSort(days);
      (forall i :: 0 <= i < |sorted| ==> 0 <= sorted[i] <= 6) &&
      (forall i, j :: 0 <= i < j < |sorted| ==> sorted[i] <= sorted[j]) &&
      |Labels(sorted)| == |sorted| == |days| &&
      forall i :: 0 <= i < |sorted| ==> Labels(sorted)[i] == Weekdays[sorted[i]].shortLabel
  {
    var sorted := JsSort(days);
    forall i | 0 <= i < |sorted| ensures 0 <= sorted[i] <= 6 {
      assert sorted[i] in multiset(days);
    }
    assert |sorted| == |multiset(sorted)| == |multiset(days)| == |days|;
    SortedDigitsAscending(sorted);
    LabelsOfWeekdays(sorted);
  }

  /** The result of `validateSelectedDays`; `errorMessage` is absent when valid. */
  datatype Validation = Validation(isValid: bool, errorMessage: Option<string>)

  /**
   * `validateSelectedDays`: emptiness is reported first, then any day
   * outside 0 to 6; duplicates are not checked.
   */
  function ValidateSelectedDays(selectedDays: seq<int>): (v: Validation)
    ensures |selectedDays| == 0 ==> v == Validation(false, Some(EmptySelectionMessage))
    ensures |selectedDays| > 0 && (exists i :: 0 <= i < |selectedDays| && (selectedDays[i] < 0 || selectedDays[i] > 6)) ==>
      v == Validation(false, Some(InvalidDayMessage))
    ensures |selectedDays| > 0 && (forall i :: 0 <= i < |selectedDays| ==> 0 <= selectedDays[i] <= 6) ==>
      v == Validation(true, None)
    ensures v.isValid <==> v.errorMessage.None?
  {
    if |selectedDays| == 0 then Validation(false, Some(EmptySelectionMessage))
    else if exists i :: 0 <= i < |selectedDays| && (selectedDays[i] < 0 || selectedDays[i] > 6) then
      Validation(false, Some(InvalidDayMessage))
    else Validation(true, None)
  }

  /**
   * The two weekday checks agree except on duplicates: `isValidDaysOfWeek`
   * implies a valid result here, and the converse holds for lists without
   * repeats.
   */
  lemma ValidationAgreesWithTypeCheck(days: seq<int>)
    ensures IsValidDaysOfWeek(days) ==> ValidateSelectedDays(days).isValid
    ensures ValidateSelectedDays(days).isValid && NoDuplicates(days) ==> IsValidDaysOfWeek(days)
  {
  }

  /** `[1, 1]` passes `validateSelectedDays` but not `isValidDaysOfWeek`. */
  lemma ValidationIgnoresDuplicates()
    ensures ValidateSelectedDays([1, 1]).isValid && !IsValidDaysOfWeek([1, 1])
  {
    assert !NoDuplicates([1, 1]) by {
      assert [1, 1][0] == [1, 1][1];
    }
  }
}
