/** The analytics panel: the time-window filter, the completion rate and
    average duration, the 7-day and 12-week trends, the time-of-day buckets,
    the per-weekday and per-month completion maps and the histogram of run
    lengths. It reads the tracker's days. */
module Analytics {
  import opened Common
  import opened Dates
  import Streaks
  import opened Tracker
  import Sorting

  datatype Range = Week | Month | All

  /** `now` moved back 7 or 30 days, time of day kept. */
  function Cutoff(range: Range, now: Clock): Clock
    requires range != All
  {
    DaysBefore(now, if range == Week then 7 else 30)
  }

  predicate OnOrAfterCutoff(x: Day, range: Range, now: Clock)
    requires range != All
  {
    MidnightOnOrAfter(x.date, Cutoff(range, now))
  }

  /** `filterByTimeRange`. */
  function FilterByTimeRange(days: seq<Day>, range: Range, now: Clock): (r: seq<Day>)
    ensures range == All ==> r == days
    ensures |r| <= |days|
  {
    if range == All then days else Filter(days, x => OnOrAfterCutoff(x, range, now))
  }

  /** For 'week' and 'month' the filter keeps exactly the records dated
      after the cutoff day, and those dated on it only when `now` is an
      exact midnight. */
  lemma FilterByTimeRangeKeeps(days: seq<Day>, range: Range, now: Clock)
    requires range != All
    ensures forall x :: x in FilterByTimeRange(days, range, now) <==>
      x in days && (x.date > Cutoff(range, now).day || (x.date == Cutoff(range, now).day && now.ms == 0))
  {
    forall x | x in days {
      MidnightComparisons(x.date, Cutoff(range, now));
    }
  }

  /** `getDaysInRange`: 7, 30 or the number of tracked days. */
  function DaysInRange(range: Range, tracked: nat): (n: nat)
    ensures range == Week ==> n == 7
    ensures range == Month ==> n == 30
    ensures range == All ==> n == tracked
  {
    match range
    case Week => 7
    case Month => 30
    case All => tracked
  }

  /** The `completionRate` of `calculateAnalytics`: completed records in
      the window over the window's size, or 0 when the size is 0. */
  function CompletionRate(days: seq<Day>, range: Range, now: Clock): (r: Ratio)
    ensures DaysInRange(range, |days|) == 0 ==> r.num == 0
    ensures DaysInRange(range, |days|) > 0 ==>
      r.num * DaysInRange(range, |days|) == 100 * Count(FilterByTimeRange(days, range, now), IsCompleted) * r.den
    ensures AtLeast(r, 0)
  {
    Percent(Count(FilterByTimeRange(days, range, now), IsCompleted), DaysInRange(range, |days|))
  }

  /** With the whole history as the window the rate cannot exceed 100. */
  lemma AllTimeRateAtMost100(days: seq<Day>, now: Clock)
    ensures AtMost(CompletionRate(days, All, now), 100)
  {
  }

  predicate HasDuration(x: Day) {
    x.completed && x.duration.Some? && x.duration.value > 0
  }

  /** The recorded duration of a day, 0 when it has none. */
  function DurationValue(x: Day): int {
    if x.duration.Some? then x.duration.value else 0
  }

  /** The `duration` field of each completed record that has a positive
      one, in record order. */
  function Durations(days: seq<Day>): (r: seq<int>)
    ensures r == Sorting.Keys(Filter(days, HasDuration), DurationValue)
    ensures |r| == Count(days, HasDuration)
    ensures forall i :: 0 <= i < |r| ==> r[i] > 0
  {
    if days == [] then []
    else
      var rest := Durations(days[1..]);
      var f := Filter(days, HasDuration);
      assert f == (if HasDuration(days[0]) then [days[0]] else []) + Filter(days[1..], HasDuration);
      (if HasDuration(days[0]) then [days[0].duration.value] else []) + rest
  }

  lemma {:induction false} SumPositive(s: seq<int>)
    requires forall i :: 0 <= i < |s| ==> s[i] > 0
    ensures s != [] ==> Sum(s) > 0
    ensures Sum(s) >= 0
  {
    if s != [] {
      assert forall i :: 0 <= i < |s[1..]| ==> s[1..][i] == s[i + 1];
      SumPositive(s[1..]);
    }
  }

  /** `averageDuration`: the mean of the positive durations of the
      completed records in the window, or 0 when there are none. */
  function AverageDuration(days: seq<Day>, range: Range, now: Clock): (r: Ratio)
    ensures Count(FilterByTimeRange(days, range, now), HasDuration) == 0 ==> r.num == 0
    ensures Count(FilterByTimeRange(days, range, now), HasDuration) > 0 ==>
      r.num > 0 && r.num * Count(FilterByTimeRange(days, range, now), HasDuration) == Sum(Durations(FilterByTimeRange(days, range, now))) * r.den
  {
    var ds := Durations(FilterByTimeRange(days, range, now));
    SumPositive(ds);
    if |ds| > 0 then Fraction(Sum(ds), |ds|) else Zero
  }

  // ---------------------------------------------------------------------
  // Trends

  /** 1 when the first record of the date is completed, else 0. */
  function DoneOn(days: seq<Day>, date: int): int {
    if Streaks.CompletedOn(Marks(days), date) then 1 else 0
  }

  /** `calculateWeeklyTrend`: for the seven days ending today, oldest
      first, 1 when the first record of that date is completed, else 0. */
  method WeeklyTrend(days: seq<Day>, now: Clock) returns (trend: seq<int>)
    ensures |trend| == 7
    ensures forall k :: 0 <= k < 7 ==> trend[k] == DoneOn(days, now.day - 6 + k)
  {
    trend := [];
    var i := 6;
    while i >= 0
      invariant -1 <= i <= 6
      invariant |trend| == 6 - i
      invariant forall k :: 0 <= k < |trend| ==> trend[k] == DoneOn(days, now.day - 6 + k)
    {
      var date := DaysBefore(now, i);
      var completed := Streaks.CompletedOn(Marks(days), date.day);
      assert (if completed then 1 else 0) == DoneOn(days, now.day - 6 + |trend|);
      trend := trend + [if completed then 1 else 0];
      i := i - 1;
    }
  }

  function WindowPred(first: int, last: int): Day -> bool {
    (x: Day) => x.completed && first <= x.date <= last
  }

  /** Completed records dated first..last. */
  function WindowCount(days: seq<Day>, first: int, last: int): nat {
    Count(days, WindowPred(first, last))
  }

  lemma WindowSplit(days: seq<Day>, first: int, mid: int, last: int)
    requires first - 1 <= mid <= last
    ensures WindowCount(days, first, last) == WindowCount(days, first, mid) + WindowCount(days, mid + 1, last)
  {
    CountDisjointUnion(days, WindowPred(first, mid), WindowPred(mid + 1, last), WindowPred(first, last));
  }

  lemma WindowEmpty(days: seq<Day>, first: int, last: int)
    requires last < first
    ensures WindowCount(days, first, last) == 0
  {
    CountNone(days, WindowPred(first, last));
  }

  /** The first day that `dayDate >= weekStart` admits for week i, when
      weekStart keeps the time of day of `now`. */
  function AsWrittenFirst(now: Clock, i: int): int {
    now.day - (7 * i + 6) + (if now.ms == 0 then 0 else 1)
  }

  /** `calculateMonthlyTrend` as written: weekStart and weekEnd are `now`
      moved back 7i+6 and 7i days, and records are compared by their
      midnight, so unless `now` is a midnight each window holds only six
      dates. */
  method MonthlyTrendAsWritten(days: seq<Day>, now: Clock) returns (trend: seq<int>)
    ensures |trend| == 12
    ensures forall k :: 0 <= k < 12 ==>
      trend[k] == WindowCount(days, AsWrittenFirst(now, 11 - k), now.day - 7 * (11 - k))
  {
    trend := [];
    var i := 11;
    while i >= 0
      invariant -1 <= i <= 11
      invariant |trend| == 11 - i
      invariant forall k :: 0 <= k < |trend| ==>
        trend[k] == WindowCount(days, AsWrittenFirst(now, 11 - k), now.day - 7 * (11 - k))
    {
      var weekStart := DaysBefore(now, i * 7 + 6);
      var weekEnd := DaysBefore(now, i * 7);
      var completions := Count(days, (x: Day) => MidnightOnOrAfter(x.date, weekStart) && MidnightOnOrBefore(x.date, weekEnd) && x.completed);
      forall x | x in days
        ensures (MidnightOnOrAfter(x.date, weekStart) && MidnightOnOrBefore(x.date, weekEnd) && x.completed)
          == WindowPred(AsWrittenFirst(now, i), now.day - 7 * i)(x)
      {
        MidnightComparisons(x.date, weekStart);
        MidnightComparisons(x.date, weekEnd);
      }
      CountSame(days, (x: Day) => MidnightOnOrAfter(x.date, weekStart) && MidnightOnOrBefore(x.date, weekEnd) && x.completed,
        WindowPred(AsWrittenFirst(now, i), now.day - 7 * i));
      trend := trend + [completions];
      i := i - 1;
    }
  }

  /** When `now` is not a midnight, the day 7j+6 days back of every week j
      falls in none of the twelve windows ... */
  lemma AsWrittenWindowsMissDays(now: Clock, i: int, j: int)
    requires now.ms > 0
    requires 0 <= i < 12 && 0 <= j < 12
    ensures !(AsWrittenFirst(now, i) <= now.day - (7 * j + 6) <= now.day - 7 * i)
  {
  }

  /** ... so a completed record six days before `now` is counted nowhere,
      although it lies within the twelve weeks. */
  lemma AsWrittenTrendLosesRecord(days: seq<Day>, now: Clock)
    requires now.ms > 0
    requires days == [Blank(now.day - 6, true)]
    ensures forall i :: 0 <= i < 12 ==> WindowCount(days, AsWrittenFirst(now, i), now.day - 7 * i) == 0
    ensures WindowCount(days, now.day - 83, now.day) == 1
  {
    forall i | 0 <= i < 12 ensures WindowCount(days, AsWrittenFirst(now, i), now.day - 7 * i) == 0 {
      assert !WindowPred(AsWrittenFirst(now, i), now.day - 7 * i)(days[0]);
    }
  }

  /** The 12-week trend with whole-day windows: week i covers the seven
      days 7i+6 .. 7i days before today. The twelve windows partition the
      last 84 days, so the trend adds up to the completed records in them. */
  method MonthlyTrend(days: seq<Day>, today: int) returns (trend: seq<int>)
    ensures |trend| == 12
    ensures forall k :: 0 <= k < 12 ==>
      trend[k] == WindowCount(days, today - (7 * (11 - k) + 6), today - 7 * (11 - k))
    ensures Sum(trend) == WindowCount(days, today - 83, today)
  {
    trend := [];
    WindowEmpty(days, today - 83, today - 84);
    var i := 11;
    while i >= 0
      invariant -1 <= i <= 11
      invariant TrendSoFar(days, today, trend, i)
    {
      var completions := WindowCount(days, today - (7 * i + 6), today - 7 * i);
      TrendStep(days, today, trend, i);
      trend := trend + [completions];
      i := i - 1;
    }
  }

  /** The weeks older than week i, oldest first, and their total. */
  ghost predicate TrendSoFar(days: seq<Day>, today: int, trend: seq<int>, i: int) {
    |trend| == 11 - i &&
    (forall k :: 0 <= k < |trend| ==>
      trend[k] == WindowCount(days, today - (7 * (11 - k) + 6), today - 7 * (11 - k))) &&
    Sum(trend) == WindowCount(days, today - 83, today - 7 * (i + 1))
  }

  /** Appending week i's count moves the trend on by one week. */
  lemma TrendStep(days: seq<Day>, today: int, trend: seq<int>, i: int)
    requires 0 <= i <= 11 && TrendSoFar(days, today, trend, i)
    ensures TrendSoFar(days, today, trend + [WindowCount(days, today - (7 * i + 6), today - 7 * i)], i - 1)
  {
    var c := WindowCount(days, today - (7 * i + 6), today - 7 * i);
    SumAppend(trend, [c]);
    WindowSplit(days, today - 83, today - 7 * (i + 1), today - 7 * i);
    var t := trend + [c];
    forall k | 0 <= k < |t|
      ensures t[k] == WindowCount(days, today - (7 * (11 - k) + 6), today - 7 * (11 - k))
    {
      if k == |trend| {
        assert 11 - k == i;
      }
    }
  }

  // ---------------------------------------------------------------------
  // Time of day

  const TimeSlots: seq<string> := [
    "Early Morning (5-8 AM)", "Morning (8-11 AM)", "Midday (11 AM-2 PM)",
    "Afternoon (2-5 PM)", "Evening (5-8 PM)", "Night (8-11 PM)"]

  /** `getHours()` of a moment. */
  function Hour(c: Clock): (h: int)
    ensures 0 <= h < 24
  {
    c.ms / (60 * 60 * 1000)
  }

  /** The bucket of a record's completion time, or -1 when it has none or
      it falls between 23:00 and 5:00. */
  function SlotOf(x: Day): (b: int)
    ensures -1 <= b < 6
    ensures b >= 0 ==> x.completedAt.Some? && 5 + 3 * b <= Hour(x.completedAt.value) < 8 + 3 * b
  {
    if x.completedAt.None? then -1
    else
      var h := Hour(x.completedAt.value);
      if 5 <= h < 8 then 0
      else if 8 <= h < 11 then 1
      else if 11 <= h < 14 then 2
      else if 14 <= h < 17 then 3
      else if 17 <= h < 20 then 4
      else if 20 <= h < 23 then 5
      else -1
  }

  function InSlot(b: int): Day -> bool {
    x => SlotOf(x) == b
  }

  /** The `forEach` of `findBestTimeOfDay` filling the six counters. */
  method SlotCounts(days: seq<Day>) returns (counts: seq<int>)
    ensures |counts| == 6
    ensures forall b :: 0 <= b < 6 ==> counts[b] == Count(days, InSlot(b))
  {
    var slots := new int[6](_ => 0);
    for i := 0 to |days|
      invariant forall b :: 0 <= b < 6 ==> slots[b] == Count(days[..i], InSlot(b))
    {
      forall b | 0 <= b < 6 {
        CountPrefix(days, i, InSlot(b));
      }
      var b := SlotOf(days[i]);
      if b >= 0 {
        slots[b] := slots[b] + 1;
      }
    }
    assert days[..|days|] == days;
    counts := slots[..];
  }

  /** The slot the `reduce` settles on: a maximal one; 'Morning' whenever it
      is maximal; otherwise the first maximal one in listed order. */
  ghost predicate IsChosenSlot(counts: seq<int>, best: int)
    requires |counts| == 6
  {
    0 <= best < 6
    && (forall i :: 0 <= i < 6 ==> counts[i] <= counts[best])
    && (counts[1] == counts[best] ==> best == 1)
    && (best != 1 ==> forall i :: 0 <= i < best ==> counts[i] < counts[best])
  }

  /** The `reduce` over the slots in order, starting from 'Morning' and
      moving only to a strictly larger count. */
  method PickSlot(counts: seq<int>) returns (best: int)
    requires |counts| == 6
    ensures IsChosenSlot(counts, best)
  {
    best := 1;
    for i := 0 to 6
      invariant 0 <= best < 6
      invariant forall j :: 0 <= j < i ==> counts[j] <= counts[best]
      invariant counts[1] <= counts[best]
      invariant counts[1] == counts[best] ==> best == 1
      invariant best != 1 ==> best < i && forall j :: 0 <= j < best ==> counts[j] < counts[best]
    {
      if counts[i] > counts[best] {
        best := i;
      }
    }
  }

  /** `findBestTimeOfDay`. */
  method BestTimeOfDay(days: seq<Day>) returns (slot: string)
    ensures exists b :: IsChosenSlot(Slots(days), b) && slot == TimeSlots[b]
  {
    var counts := SlotCounts(days);
    var best := PickSlot(counts);
    slot := TimeSlots[best];
  }

  /** The six bucket counts of the records. */
  function Slots(days: seq<Day>): (r: seq<int>)
    ensures |r| == 6
  {
    seq(6, b => Count(days, InSlot(b)))
  }

  // ---------------------------------------------------------------------
  // Weekday and month maps

  const WeekdayNames: seq<string> := ["Sun", "Mon", "Tue", "Wed", "Thu", "Fri", "Sat"]

  const MonthNames: seq<string> := ["Jan", "Feb", "Mar", "Apr", "May", "Jun", "Jul", "Aug", "Sep", "Oct", "Nov", "Dec"]

  function OnWeekday(w: int): Day -> bool {
    (x: Day) => Weekday(x.date) == w
  }

  function CompletedOnWeekday(w: int): Day -> bool {
    (x: Day) => x.completed && Weekday(x.date) == w
  }

  /** `calculateWeekdayCompletion`: every weekday name is a key; its value is
      the completed share of the records on that weekday, or 0 without any. */
  method WeekdayCompletion(days: seq<Day>) returns (rates: map<string, Ratio>)
    ensures rates.Keys == set w | w in WeekdayNames
    ensures forall w :: 0 <= w < 7 ==>
      rates[WeekdayNames[w]] == Percent(Count(days, CompletedOnWeekday(w)), Count(days, OnWeekday(w)))
  {
    var count := new int[7](_ => 0);
    var total := new int[7](_ => 0);
    for i := 0 to |days|
      invariant forall w :: 0 <= w < 7 ==> total[w] == Count(days[..i], OnWeekday(w))
      invariant forall w :: 0 <= w < 7 ==> count[w] == Count(days[..i], CompletedOnWeekday(w))
    {
      forall w | 0 <= w < 7 {
        CountPrefix(days, i, OnWeekday(w));
      }
      forall w | 0 <= w < 7 {
        CountPrefix(days, i, CompletedOnWeekday(w));
      }
      var w := Weekday(days[i].date);
      total[w] := total[w] + 1;
      if days[i].completed {
        count[w] := count[w] + 1;
      }
    }
    assert days[..|days|] == days;
    rates := RatesByName(count, total);
  }

  /** The second loop of `calculateWeekdayCompletion`: the percentage of
      each weekday under its name, 0 for a weekday with no records. */
  method RatesByName(count: array<int>, total: array<int>) returns (rates: map<string, Ratio>)
    requires count.Length == 7 && total.Length == 7
    ensures rates.Keys == set w | w in WeekdayNames
    ensures forall w :: 0 <= w < 7 ==> rates[WeekdayNames[w]] == Percent(count[w], total[w])
  {
    rates := map[];
    for w := 0 to 7
      invariant rates.Keys == set v | v in WeekdayNames[..w]
      invariant forall v :: 0 <= v < w ==> rates[WeekdayNames[v]] == Percent(count[v], total[v])
    {
      rates := rates[WeekdayNames[w] := if total[w] > 0 then Percent(count[w], total[w]) else Zero];
    }
    assert WeekdayNames[..7] == WeekdayNames;
  }

  /** Fed only completed records, as `calculateAnalytics` does, every
      weekday value is exactly 0 or 100. */
  lemma WeekdayRatesOfCompletedDays(days: seq<Day>, w: int)
    requires forall i :: 0 <= i < |days| ==> days[i].completed
    requires 0 <= w < 7
    ensures var r := Percent(Count(days, CompletedOnWeekday(w)), Count(days, OnWeekday(w)));
      r.num == 0 || r.num == 100 * r.den
  {
    CountSame(days, CompletedOnWeekday(w), OnWeekday(w));
  }

  function MonthName(date: int): string {
    MonthNames[CivilOf(date).month - 1]
  }

  function InMonthNamed(m: string): Day -> bool {
    (x: Day) => MonthName(x.date) == m
  }

  function CompletedInMonthNamed(m: string): Day -> bool {
    (x: Day) => x.completed && MonthName(x.date) == m
  }

  /** The `forEach` of `calculateMonthlyCompletion`: per month name, the
      number of records and of completed records, with a key only for the
      months that occur. */
  method CountByMonth(days: seq<Day>) returns (total: map<string, int>, count: map<string, int>)
    ensures forall m :: m in total ==> total[m] > 0
    ensures forall m :: Tally(total, m) == Count(days, InMonthNamed(m))
    ensures forall m :: Tally(count, m) == Count(days, CompletedInMonthNamed(m))
  {
    total := map[];
    count := map[];
    for i := 0 to |days|
      invariant GroupTallies(days[..i], total, count, InMonthNamed, CompletedInMonthNamed)
    {
      var month := MonthName(days[i].date);
      MonthHits(days[i], month);
      GroupStep(days, i, month, total, count, InMonthNamed, CompletedInMonthNamed, days[i].completed);
      total := total[month := Tally(total, month) + 1];
      if days[i].completed {
        count := count[month := Tally(count, month) + 1];
      }
    }
    assert days[..|days|] == days;
  }

  /** The two maps of `calculateMonthlyCompletion` after reading the records
      rs: per key, the records under inKey and those under doneKey, with a
      key in total only once some record fell under it. */
  ghost predicate GroupTallies<T>(rs: seq<T>, total: map<string, int>, count: map<string, int>,
                                  inKey: string -> (T -> bool), doneKey: string -> (T -> bool)) {
    (forall m :: m in total ==> total[m] > 0) &&
    (forall m :: Tally(total, m) == Count(rs, inKey(m))) &&
    (forall m :: Tally(count, m) == Count(rs, doneKey(m)))
  }

  /** Reading record i adds one to its key's total, and one to its key's
      count when it is done. */
  lemma GroupStep<T>(s: seq<T>, i: int, k: string, total: map<string, int>, count: map<string, int>,
                     inKey: string -> (T -> bool), doneKey: string -> (T -> bool), done: bool)
    requires 0 <= i < |s| && GroupTallies(s[..i], total, count, inKey, doneKey)
    requires forall m :: inKey(m)(s[i]) <==> true && m == k
    requires forall m :: doneKey(m)(s[i]) <==> done && m == k
    ensures GroupTallies(s[..i + 1], total[k := Tally(total, k) + 1],
      if done then count[k := Tally(count, k) + 1] else count, inKey, doneKey)
  {
    TallyStep(s, i, total, inKey, k, true);
    TallyStep(s, i, count, doneKey, k, done);
  }

  /** A record counts under its own month name and no other. */
  lemma MonthHits(x: Day, month: string)
    requires month == MonthName(x.date)
    ensures forall m :: InMonthNamed(m)(x) <==> true && m == month
    ensures forall m :: CompletedInMonthNamed(m)(x) <==> x.completed && m == month
  {
  }

  /** `calculateMonthlyCompletion`: a key for each month name that some
      record falls in and no other; its value is the completed share of that
      month's records. */
  method MonthlyCompletion(days: seq<Day>) returns (rates: map<string, Ratio>)
    ensures rates.Keys == MonthsPresent(days)
    ensures forall m :: m in rates ==>
      Count(days, InMonthNamed(m)) > 0 &&
      rates[m] == Percent(Count(days, CompletedInMonthNamed(m)), Count(days, InMonthNamed(m)))
  {
    var total, count := CountByMonth(days);
    rates := map m | m in total :: Percent(Tally(count, m), total[m]);
    forall m ensures m in rates <==> m in MonthsPresent(days) {
      MonthPresent(days, m);
    }
  }

  ghost function MonthsPresent(days: seq<Day>): set<string> {
    set i | 0 <= i < |days| :: MonthName(days[i].date)
  }

  lemma MonthPresent(days: seq<Day>, m: string)
    ensures Count(days, InMonthNamed(m)) > 0 <==> m in MonthsPresent(days)
  {
    CountPositive(days, InMonthNamed(m));
    if Count(days, InMonthNamed(m)) > 0 {
      var x :| x in days && InMonthNamed(m)(x);
      var i :| 0 <= i < |days| && days[i] == x;
    }
  }

  // ---------------------------------------------------------------------
  // Run-length histogram

  /** The number of maximal runs of completed records in array order: the
      positions where a completed record does not follow a completed one. */
  function RunStarts(days: seq<Day>): nat {
    if days == [] then 0
    else
      var n := |days|;
      RunStarts(days[..n - 1])
      + (if days[n - 1].completed && (n == 1 || !days[n - 2].completed) then 1 else 0)
  }

  /** The number of completed records at the end of days. */
  function TrailingRun(days: seq<Day>): (t: nat)
    ensures t <= |days|
    ensures forall k :: |days| - t <= k < |days| ==> days[k].completed
    ensures t < |days| ==> !days[|days| - 1 - t].completed
  {
    if days == [] || !days[|days| - 1].completed then 0
    else
      var t := TrailingRun(days[..|days| - 1]);
      assert forall k :: 0 <= k < |days| - 1 ==> days[..|days| - 1][k] == days[k];
      1 + t
  }

  /** The lengths of the maximal runs of completed records, in array order:
      a record that is not completed ends no run, and otherwise the last run
      is the trailing block of completed records. */
  function MaximalRuns(days: seq<Day>): seq<int>
    decreases |days|
  {
    if days == [] then []
    else if !days[|days| - 1].completed then MaximalRuns(days[..|days| - 1])
    else MaximalRuns(days[..|days| - TrailingRun(days)]) + [TrailingRun(days)]
  }

  /** Completed, completed, missed, completed: the runs are 2 then 1, in
      array order. */
  lemma MaximalRunsExample(d: int)
    ensures MaximalRuns([Blank(d, true), Blank(d + 1, true), Blank(d + 2, false), Blank(d + 3, true)]) == [2, 1]
  {
    var days := [Blank(d, true), Blank(d + 1, true), Blank(d + 2, false), Blank(d + 3, true)];
    assert TrailingRun(days) == 1 by {
      assert days[..3][2] == days[2];
    }
    var p := days[..3];
    assert MaximalRuns(days) == MaximalRuns(p) + [1];
    var q := p[..2];
    assert MaximalRuns(p) == MaximalRuns(q);
    assert TrailingRun(q) == 2 by {
      assert q[..1][0] == q[0];
      assert TrailingRun(q[..1]) == 1;
    }
    assert q[..0] == [];
    assert MaximalRuns(q) == MaximalRuns(q[..0]) + [2] == [2];
  }

  /** The facts about the runs of days: every length is positive, the
      lengths add up to the completed records and there is one length per
      run start. */
  predicate RunsFacts(days: seq<Day>) {
    (forall k :: 0 <= k < |MaximalRuns(days)| ==> MaximalRuns(days)[k] >= 1) &&
    Sum(MaximalRuns(days)) == Count(days, IsCompleted) &&
    |MaximalRuns(days)| == RunStarts(days)
  }

  /** Every maximal run has a positive length, the lengths add up to the
      completed records and there is one length per run start. */
  lemma {:induction false} MaximalRunsFacts(days: seq<Day>)
    ensures forall k :: 0 <= k < |MaximalRuns(days)| ==> MaximalRuns(days)[k] >= 1
    ensures Sum(MaximalRuns(days)) == Count(days, IsCompleted)
    ensures |MaximalRuns(days)| == RunStarts(days)
    decreases |days|
  {
    if days != [] {
      var n := |days|;
      if !days[n - 1].completed {
        MaximalRunsFacts(days[..n - 1]);
        RunsAfterMiss(days);
      } else {
        MaximalRunsFacts(days[..n - TrailingRun(days)]);
        RunsAfterRun(days);
      }
    }
  }

  /** A last record that is not completed changes none of the facts. */
  lemma RunsAfterMiss(days: seq<Day>)
    requires days != [] && !days[|days| - 1].completed
    requires RunsFacts(days[..|days| - 1])
    ensures RunsFacts(days)
  {
    var n := |days|;
    var p := days[..n - 1];
    assert days == p + [days[n - 1]];
    CountAppend(p, [days[n - 1]], IsCompleted);
  }

  /** A trailing block of t completed records adds the run t. */
  lemma RunsAfterRun(days: seq<Day>)
    requires days != [] && days[|days| - 1].completed
    requires RunsFacts(days[..|days| - TrailingRun(days)])
    ensures RunsFacts(days)
  {
    var n := |days|;
    var t := TrailingRun(days);
    var p := days[..n - t];
    var mr := MaximalRuns(p);
    assert MaximalRuns(days) == mr + [t];
    CountAfterRun(days);
    RunStartsAfterRun(days);
    AppendRun(mr, t, Count(p, IsCompleted), RunStarts(p));
  }

  /** Appending a positive length to positive lengths with sum c and
      count r gives positive lengths with sum c + t and count r + 1. */
  lemma AppendRun(mr: seq<int>, t: int, c: int, r: int)
    requires t >= 1 && Sum(mr) == c && |mr| == r
    requires forall k :: 0 <= k < |mr| ==> mr[k] >= 1
    ensures forall k :: 0 <= k < |mr + [t]| ==> (mr + [t])[k] >= 1
    ensures Sum(mr + [t]) == c + t && |mr + [t]| == r + 1
  {
    SumAppend(mr, [t]);
  }

  /** The completed records are those before the trailing block plus the
      block itself. */
  lemma CountAfterRun(days: seq<Day>)
    ensures Count(days, IsCompleted) == Count(days[..|days| - TrailingRun(days)], IsCompleted) + TrailingRun(days)
  {
    CountSuffixAll(days, |days| - TrailingRun(days), IsCompleted);
  }

  /** A non-empty trailing block of completed records is one run start. */
  lemma RunStartsAfterRun(days: seq<Day>)
    requires days != [] && days[|days| - 1].completed
    ensures RunStarts(days) == RunStarts(days[..|days| - TrailingRun(days)]) + 1
  {
    var n := |days|;
    RunStartsRun(days, n - TrailingRun(days), n);
    assert days[..n] == days;
  }

  /** A block of completed records from m to j that no completed record
      precedes adds exactly one run start. */
  lemma {:induction false} RunStartsRun(s: seq<Day>, m: int, j: int)
    requires 0 <= m < j <= |s|
    requires m == 0 || !s[m - 1].completed
    requires forall k :: m <= k < j ==> s[k].completed
    ensures RunStarts(s[..j]) == RunStarts(s[..m]) + 1
    decreases j
  {
    assert s[..j][..j - 1] == s[..j - 1];
    if j > m + 1 {
      RunStartsRun(s, m, j - 1);
    }
  }

  /** The state of the first `forEach` after reading i records: the open
      run is the trailing block of completed records and the closed runs are
      the maximal runs before it. */
  ghost predicate RunsSoFar(days: seq<Day>, i: int, current: int, runs: seq<int>) {
    0 <= i <= |days| && current == TrailingRun(days[..i]) && runs == MaximalRuns(days[..i - current])
  }

  /** One step of the first `forEach`: reading a completed record extends the
      open run; reading any other record closes the open run, if any. */
  lemma RunStep(days: seq<Day>, i: int, current: int, runs: seq<int>)
    requires i < |days| && RunsSoFar(days, i, current, runs)
    ensures days[i].completed ==> RunsSoFar(days, i + 1, current + 1, runs)
    ensures !days[i].completed && current > 0 ==> RunsSoFar(days, i + 1, 0, runs + [current])
    ensures !days[i].completed && current == 0 ==> RunsSoFar(days, i + 1, 0, runs)
  {
    assert days[..i + 1][..i] == days[..i];
    assert days[..i][..i - current] == days[..i - current];
    if days[i].completed {
      assert days[..i + 1][..i + 1 - (current + 1)] == days[..i - current];
    }
  }

  /** After the last record the open run, if any, is the last run. */
  lemma RunFinish(days: seq<Day>, current: int, runs: seq<int>)
    requires RunsSoFar(days, |days|, current, runs)
    ensures current > 0 ==> runs + [current] == MaximalRuns(days)
    ensures current == 0 ==> runs == MaximalRuns(days)
  {
    assert days[..|days|] == days;
  }

  /** The first `forEach` of `calculateStreakDistribution`: the lengths of
      the maximal runs of completed records, in array order. */
  method RunLengths(days: seq<Day>) returns (runs: seq<int>)
    ensures runs == MaximalRuns(days)
    ensures forall k :: 0 <= k < |runs| ==> runs[k] >= 1
    ensures Sum(runs) == Count(days, IsCompleted)
    ensures |runs| == RunStarts(days)
  {
    var current := 0;
    runs := [];
    for i := 0 to |days|
      invariant RunsSoFar(days, i, current, runs)
    {
      RunStep(days, i, current, runs);
      if days[i].completed {
        current := current + 1;
      } else if current > 0 {
        runs := runs + [current];
        current := 0;
      }
    }
    RunFinish(days, current, runs);
    if current > 0 {
      runs := runs + [current];
    }
    MaximalRunsFacts(days);
  }

  /** The histogram bucket of a run length: 1-3, 4-7, 8-14, 15-30, 30+. */
  function Bucket(len: int): (b: int)
    ensures 0 <= b < 5
  {
    if len <= 3 then 0 else if len <= 7 then 1 else if len <= 14 then 2 else if len <= 30 then 3 else 4
  }

  function InBucket(b: int): int -> bool {
    len => Bucket(len) == b
  }

  /** The second `forEach`: one count per bucket, and the counts add up to
      the number of runs. */
  method Distribute(runs: seq<int>) returns (dist: seq<int>)
    ensures |dist| == 5
    ensures forall b :: 0 <= b < 5 ==> dist[b] == Count(runs, InBucket(b))
    ensures Sum(dist) == |runs|
  {
    dist := [0, 0, 0, 0, 0];
    assert Sum(dist) == 0;
    for i := 0 to |runs|
      invariant Tallies(dist, runs[..i]) && Sum(dist) == i
    {
      var b := Bucket(runs[i]);
      var next := dist[b := dist[b] + 1];
      SumUpdate(dist, b, 1);
      BucketStep(runs, i, dist);
      assert Tallies(next, runs[..i + 1]) && Sum(next) == i + 1;
      dist := next;
    }
    assert runs[..|runs|] == runs;
    assert Tallies(dist, runs);
  }

  /** The five bucket counts of the runs rs. */
  predicate Tallies(dist: seq<int>, rs: seq<int>) {
    |dist| == 5 && forall b :: 0 <= b < 5 ==> dist[b] == Count(rs, InBucket(b))
  }

  /** One step of the second `forEach`: counting run i in its bucket keeps
      every bucket's count that of the runs seen so far. */
  lemma BucketStep(runs: seq<int>, i: int, dist: seq<int>)
    requires 0 <= i < |runs| && Tallies(dist, runs[..i])
    ensures Tallies(dist[Bucket(runs[i]) := dist[Bucket(runs[i])] + 1], runs[..i + 1])
  {
    forall b | 0 <= b < 5
      ensures Count(runs[..i + 1], InBucket(b)) == Count(runs[..i], InBucket(b)) + (if Bucket(runs[i]) == b then 1 else 0)
    {
      CountPrefix(runs, i, InBucket(b));
    }
  }

  /** `calculateStreakDistribution`: bucket b counts the maximal runs of
      completed records whose length falls in it, and the five counts sum to
      the number of runs. */
  method StreakDistribution(days: seq<Day>) returns (dist: seq<int>)
    ensures |dist| == 5
    ensures forall b :: 0 <= b < 5 ==> dist[b] == Count(MaximalRuns(days), InBucket(b))
    ensures Sum(dist) == RunStarts(days)
  {
    var runs := RunLengths(days);
    dist := Distribute(runs);
  }
}
