/** The two streak calculations shared by the trackers and the data export:
    the current streak, walking back from today until a day is missing or not
    completed, and the best streak, the longest run of calendar-consecutive
    completed dates. Both work on `Mark`s, the (date, completed) part of a
    tracked day. */
module Streaks {
  import opened Common
  import opened Sorting
  import opened Dates

  datatype Mark = Mark(date: int, completed: bool)

  function DateOf(m: Mark): int { m.date }
  function NegDateOf(m: Mark): int { -m.date }
  predicate IsDone(m: Mark) { m.completed }

  /** At most one record per date: the store's invariant. */
  predicate UniqueDates(ms: seq<Mark>) {
    forall i, j :: 0 <= i < j < |ms| ==> ms[i].date != ms[j].date
  }

  /** `trackedDays.find(d => d.date === dateStr)?.completed`: the first
      record with that date exists and is completed. */
  predicate CompletedOn(ms: seq<Mark>, d: int) {
    var i := FindIndex(ms, (m: Mark) => m.date == d);
    i >= 0 && ms[i].completed
  }

  /** The dates that carry a completed record. */
  ghost function CompletedSet(ms: seq<Mark>): set<int> {
    set i | 0 <= i < |ms| && ms[i].completed :: ms[i].date
  }

  lemma CompletedOnInSet(ms: seq<Mark>, d: int)
    ensures CompletedOn(ms, d) ==> d in CompletedSet(ms)
    ensures UniqueDates(ms) && d in CompletedSet(ms) ==> CompletedOn(ms, d)
  {
    var i := FindIndex(ms, (m: Mark) => m.date == d);
    if i >= 0 {
      assert ms[i].date == d;
    }
    if UniqueDates(ms) && d in CompletedSet(ms) {
      var k :| 0 <= k < |ms| && ms[k].completed && ms[k].date == d;
      assert i >= 0;
      assert i == k;
    }
  }

  /** The earliest date, `Math.min(...trackedDays.map(d => d.date))`. */
  function MinDate(ms: seq<Mark>): (r: int)
    requires ms != []
    ensures forall i :: 0 <= i < |ms| ==> r <= ms[i].date
    ensures exists i :: 0 <= i < |ms| && ms[i].date == r
  {
    if |ms| == 1 then ms[0].date
    else
      var rest := MinDate(ms[1..]);
      assert forall i :: 1 <= i < |ms| ==> ms[i] == ms[1..][i - 1];
      if ms[0].date <= rest then ms[0].date else rest
  }

  // ---------------------------------------------------------------------
  // Current streak

  /** n consecutive days ending on `today` are completed, and the day before
      them is not. */
  ghost predicate IsCurrentStreak(ms: seq<Mark>, today: int, n: nat) {
    (forall d :: today - n < d <= today ==> CompletedOn(ms, d)) && !CompletedOn(ms, today - n)
  }

  /** The specification pins the streak down: at most one n satisfies it. */
  lemma CurrentStreakDeterminate(ms: seq<Mark>, today: int, n1: nat, n2: nat)
    requires IsCurrentStreak(ms, today, n1) && IsCurrentStreak(ms, today, n2)
    ensures n1 == n2
  {
  }

  /** `getCurrentStreak`: 0 for an empty list, and otherwise counts back
      from the current moment one day at a time while that moment is not
      before the earliest record's midnight and that day's record is
      completed. */
  method CurrentStreak(ms: seq<Mark>, now: Clock) returns (streak: nat)
    ensures ms == [] ==> streak == 0
    ensures IsCurrentStreak(ms, now.day, streak)
  {
    if |ms| == 0 {
      return 0;
    }
    var earliest := MinDate(ms);
    streak := 0;
    var current: Clock := now;
    MidnightComparisons(earliest, current);
    while MidnightOnOrBefore(earliest, current)
      invariant current == DaysBefore(now, streak)
      invariant forall d :: now.day - streak < d <= now.day ==> CompletedOn(ms, d)
      invariant MidnightOnOrBefore(earliest, current) <==> earliest <= current.day
      decreases current.day - earliest
    {
      if CompletedOn(ms, current.day) {
        streak := streak + 1;
      } else {
        break;
      }
      current := DaysBefore(current, 1);
      MidnightComparisons(earliest, current);
    }
    if !MidnightOnOrBefore(earliest, current) {
      NoneBeforeEarliest(ms, current.day);
    }
  }

  /** No record, let alone a completed one, lies before the earliest date. */
  lemma NoneBeforeEarliest(ms: seq<Mark>, d: int)
    requires ms != [] && d < MinDate(ms)
    ensures !CompletedOn(ms, d)
  {
  }

  // ---------------------------------------------------------------------
  // Best streak

  ghost function Elems(ds: seq<int>): set<int> {
    set x | x in ds
  }

  /** Every day of the len days ending on `end` lies in S. */
  ghost predicate RunIn(S: set<int>, end: int, len: nat) {
    forall k :: end - len < k <= end ==> k in S
  }

  lemma RunEndsInSet(S: set<int>, end: int, len: nat)
    ensures RunIn(S, end, len) && len > 0 ==> end in S
  {
  }

  /** best is the length of a longest run of consecutive days in S. */
  ghost predicate IsLongestRun(S: set<int>, best: nat) {
    (exists end :: RunIn(S, end, best)) && forall end, len: nat :: RunIn(S, end, len) ==> len <= best
  }

  predicate Strict(ds: seq<int>) {
    forall i, j :: 0 <= i < j < |ds| ==> ds[i] < ds[j]
  }

  /** The run counter of the scan after it has read ds[j]. */
  function RunLen(ds: seq<int>, j: int): (n: nat)
    requires 0 <= j < |ds|
    ensures n >= 1
  {
    if j > 0 && ds[j] - ds[j - 1] == 1 then RunLen(ds, j - 1) + 1 else 1
  }

  /** The counter always describes a run that is really there. */
  lemma {:induction false} RunLenIsRun(ds: seq<int>, j: int)
    requires 0 <= j < |ds|
    ensures RunIn(Elems(ds), ds[j], RunLen(ds, j))
  {
    if j > 0 && ds[j] - ds[j - 1] == 1 {
      RunLenIsRun(ds, j - 1);
      forall k | ds[j] - RunLen(ds, j) < k <= ds[j] ensures k in Elems(ds) {
        if k < ds[j] {
          assert ds[j - 1] - RunLen(ds, j - 1) < k <= ds[j - 1];
        } else {
          assert ds[j] in ds;
        }
      }
    } else {
      assert ds[j] in ds;
    }
  }

  /** On strictly ascending dates no run ending at ds[j] is longer than the
      counter there. */
  lemma {:induction false} RunLenIsLongest(ds: seq<int>, j: int, len: nat)
    requires Strict(ds)
    requires 0 <= j < |ds|
    requires RunIn(Elems(ds), ds[j], len)
    ensures len <= RunLen(ds, j)
  {
    if len > 1 {
      assert ds[j] - 1 in Elems(ds);
      var i :| 0 <= i < |ds| && ds[i] == ds[j] - 1;
      assert i < j;
      assert ds[j - 1] < ds[j];
      assert i == j - 1;
      assert RunIn(Elems(ds), ds[j - 1], len - 1) by {
        forall k | ds[j - 1] - (len - 1) < k <= ds[j - 1] ensures k in Elems(ds) {
          assert ds[j] - len < k <= ds[j];
        }
      }
      RunLenIsLongest(ds, j - 1, len - 1);
    }
  }

  /** The loop of `getBestStreak` over dates in the order given: a date one
      day after the previous one extends the current run, any other date
      starts a new run of 1; the result is the largest counter seen. */
  method ScanRuns(ds: seq<int>) returns (best: nat)
    ensures best == 0 <==> ds == []
    ensures exists end :: RunIn(Elems(ds), end, best)
    ensures Strict(ds) ==> IsLongestRun(Elems(ds), best)
  {
    best := 0;
    var current: nat := 0;
    var last: Option<int> := None;
    ghost var bestAt := 0;
    for i := 0 to |ds|
      invariant i == 0 ==> best == 0 && last == None
      invariant i > 0 ==> last == Some(ds[i - 1]) && current == RunLen(ds, i - 1)
      invariant i > 0 ==> 0 <= bestAt < i && best == RunLen(ds, bestAt)
      invariant forall j :: 0 <= j < i ==> RunLen(ds, j) <= best
    {
      var date := ds[i];
      if last.Some? && date * MsPerDay - last.value * MsPerDay == MsPerDay {
        current := current + 1;
      } else {
        current := 1;
      }
      if current > best {
        best := current;
        bestAt := i;
      }
      last := Some(date);
    }
    if ds == [] {
      assert RunIn(Elems(ds), 0, 0);
    } else {
      RunLenIsRun(ds, bestAt);
    }
    if Strict(ds) {
      forall end, len: nat | RunIn(Elems(ds), end, len) ensures len <= best {
        if len > 0 {
          assert end in Elems(ds);
          var j :| 0 <= j < |ds| && ds[j] == end;
          RunLenIsLongest(ds, j, len);
        }
      }
    }
  }

  /** The completed dates sorted ascending, as `getBestStreak` prepares them. */
  function CompletedAscending(ms: seq<Mark>): seq<int> {
    Keys(SortBy(Filter(ms, IsDone), DateOf), DateOf)
  }

  /** The completed dates of the data export: sorted descending by date,
      then reversed. */
  function CompletedDescendingReversed(ms: seq<Mark>): seq<int> {
    Keys(Reverse(SortBy(Filter(ms, IsDone), NegDateOf)), DateOf)
  }

  lemma FilterDoneDistinct(ms: seq<Mark>)
    requires UniqueDates(ms)
    ensures DistinctBy(Filter(ms, IsDone), DateOf)
  {
    var f := Filter(ms, IsDone);
    if !DistinctBy(f, DateOf) {
      var i, j :| 0 <= i < j < |f| && f[i].date == f[j].date;
      FilterPositions(ms, IsDone, i, j);
    }
  }

  lemma CompletedElems(ms: seq<Mark>, sorted: seq<Mark>)
    requires multiset(sorted) == multiset(Filter(ms, IsDone))
    ensures Elems(Keys(sorted, DateOf)) == CompletedSet(ms)
  {
    SortedKeysCompleted(ms, sorted);
    CompletedInSortedKeys(ms, sorted);
  }

  /** Every date of the sorted completed records carries a completed mark. */
  lemma SortedKeysCompleted(ms: seq<Mark>, sorted: seq<Mark>)
    requires multiset(sorted) == multiset(Filter(ms, IsDone))
    ensures Elems(Keys(sorted, DateOf)) <= CompletedSet(ms)
  {
    var ks := Keys(sorted, DateOf);
    forall d | d in Elems(ks) ensures d in CompletedSet(ms) {
      var i :| 0 <= i < |ks| && ks[i] == d;
      assert sorted[i] in multiset(Filter(ms, IsDone));
      assert sorted[i] in Filter(ms, IsDone);
      assert sorted[i] in ms && sorted[i].completed;
      var k :| 0 <= k < |ms| && ms[k] == sorted[i];
    }
  }

  /** Every date with a completed mark is among the sorted dates. */
  lemma CompletedInSortedKeys(ms: seq<Mark>, sorted: seq<Mark>)
    requires multiset(sorted) == multiset(Filter(ms, IsDone))
    ensures CompletedSet(ms) <= Elems(Keys(sorted, DateOf))
  {
    var ks := Keys(sorted, DateOf);
    forall d | d in CompletedSet(ms) ensures d in Elems(ks) {
      var k :| 0 <= k < |ms| && ms[k].completed && ms[k].date == d;
      assert ms[k] in Filter(ms, IsDone);
      assert ms[k] in multiset(sorted);
      var i :| 0 <= i < |sorted| && sorted[i] == ms[k];
      assert ks[i] == d;
    }
  }

  lemma CompletedAscendingFacts(ms: seq<Mark>)
    ensures Ascending(CompletedAscending(ms))
    ensures Elems(CompletedAscending(ms)) == CompletedSet(ms)
    ensures UniqueDates(ms) ==> Strict(CompletedAscending(ms))
  {
    var sorted := SortBy(Filter(ms, IsDone), DateOf);
    SortedKeysAscending(sorted, DateOf);
    CompletedElems(ms, sorted);
    if UniqueDates(ms) {
      FilterDoneDistinct(ms);
      SortByDistinct(Filter(ms, IsDone), DateOf, DateOf);
      SortedDistinctStrict(sorted);
    }
  }

  lemma SortedDistinctStrict(s: seq<Mark>)
    requires SortedBy(s, DateOf) && DistinctBy(s, DateOf)
    ensures Strict(Keys(s, DateOf))
  {
  }

  lemma ReversedDescendingFacts(s: seq<Mark>)
    requires SortedBy(s, NegDateOf)
    ensures Ascending(Keys(Reverse(s), DateOf))
    ensures DistinctBy(s, DateOf) ==> Strict(Keys(Reverse(s), DateOf))
  {
    var ks := Keys(Reverse(s), DateOf);
    forall i, j | 0 <= i < j < |ks| ensures ks[i] <= ks[j] && (DistinctBy(s, DateOf) ==> ks[i] < ks[j]) {
      DescendingPair(s, |s| - 1 - j, |s| - 1 - i);
    }
  }

  /** One pair of a date-descending list, read from the back. */
  lemma DescendingPair(s: seq<Mark>, a: int, b: int)
    requires SortedBy(s, NegDateOf)
    requires 0 <= a < b < |s|
    ensures Keys(Reverse(s), DateOf)[|s| - 1 - b] <= Keys(Reverse(s), DateOf)[|s| - 1 - a]
    ensures DistinctBy(s, DateOf) ==> Keys(Reverse(s), DateOf)[|s| - 1 - b] < Keys(Reverse(s), DateOf)[|s| - 1 - a]
  {
    assert NegDateOf(s[a]) <= NegDateOf(s[b]);
  }

  lemma CompletedDescendingReversedFacts(ms: seq<Mark>)
    ensures Ascending(CompletedDescendingReversed(ms))
    ensures Elems(CompletedDescendingReversed(ms)) == CompletedSet(ms)
    ensures UniqueDates(ms) ==> Strict(CompletedDescendingReversed(ms))
  {
    var sorted := SortBy(Filter(ms, IsDone), NegDateOf);
    ReverseMultiset(sorted);
    CompletedElems(ms, Reverse(sorted));
    if UniqueDates(ms) {
      FilterDoneDistinct(ms);
      SortByDistinct(Filter(ms, IsDone), NegDateOf, DateOf);
    }
    ReversedDescendingFacts(sorted);
  }

  lemma {:induction false} ReverseMultiset<T>(s: seq<T>)
    ensures multiset(Reverse(s)) == multiset(s)
  {
    if s != [] {
      ReverseMultiset(s[1..]);
      assert s == [s[0]] + s[1..];
    }
  }

  /** `getBestStreak`: 0 for an empty list; otherwise the scan over the
      completed dates sorted ascending. The result is 0 exactly when nothing
      is completed, a run of that length is always present, and when dates
      are unique it is the longest run of consecutive completed dates. */
  method BestStreak(ms: seq<Mark>) returns (best: nat)
    ensures best == 0 <==> CompletedSet(ms) == {}
    ensures exists end :: RunIn(CompletedSet(ms), end, best)
    ensures UniqueDates(ms) ==> IsLongestRun(CompletedSet(ms), best)
  {
    if |ms| == 0 {
      assert CompletedSet(ms) == {};
      assert RunIn(CompletedSet(ms), 0, 0);
      forall end, len: nat | RunIn(CompletedSet(ms), end, len) ensures len <= 0 {
        RunEndsInSet(CompletedSet(ms), end, len);
      }
      return 0;
    }
    var ds := CompletedAscending(ms);
    best := ScanRuns(ds);
    CompletedAscendingFacts(ms);
    ElemsEmpty(ds);
  }

  lemma ElemsEmpty(ds: seq<int>)
    ensures Elems(ds) == {} <==> ds == []
  {
    if ds != [] {
      assert ds[0] in Elems(ds);
    }
  }

  /** The run ending today is one of the runs the best streak bounds. */
  lemma CurrentWithinBest(ms: seq<Mark>, today: int, current: nat, best: nat)
    requires IsCurrentStreak(ms, today, current)
    requires IsLongestRun(CompletedSet(ms), best)
    ensures current <= best
  {
    forall d | today - current < d <= today ensures d in CompletedSet(ms) {
      CompletedOnInSet(ms, d);
    }
    assert RunIn(CompletedSet(ms), today, current);
  }
}
