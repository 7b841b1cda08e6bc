/** The simplified app screen: cold-shower entries with a default duration
    and temperature, reading minutes per date, per-date goal lists with a
    default list, the weekly summary and its streak. */
module ColdShowerApp {
  import opened Common
  import opened Dates
  import opened Sorting
  import Streaks

  datatype Entry = Entry(date: int, completed: bool, duration: Option<int>, temperature: Option<int>)
  datatype Reading = Reading(date: int, minutes: int)
  datatype Goal = Goal(id: string, title: string, isCompleted: bool)

  /** `getDefaultGoals`: three fixed goals, none completed. */
  function DefaultGoals(): (gs: seq<Goal>)
    ensures |gs| == 3
    ensures forall i :: 0 <= i < |gs| ==> !gs[i].isCompleted
    ensures forall i, j :: 0 <= i < j < |gs| ==> gs[i].id != gs[j].id
  {
    [Goal("1", "Take cold shower", false),
     Goal("2", "Stay for 2+ minutes", false),
     Goal("3", "Focus on breathing", false)]
  }

  // ---------------------------------------------------------------------
  // Entries and reading minutes

  predicate HasEntry(entries: seq<Entry>, date: int) {
    exists i :: 0 <= i < |entries| && entries[i].date == date
  }

  /** `addEntryForDate`: append a completed 5-minute, 15-degree entry unless
      an entry of that date exists. */
  function AddEntryForDate(entries: seq<Entry>, date: int): (r: seq<Entry>)
    ensures HasEntry(entries, date) ==> r == entries
    ensures !HasEntry(entries, date) ==> r == entries + [Entry(date, true, Some(5), Some(15))]
    ensures HasEntry(r, date)
  {
    if HasEntry(entries, date) then entries
    else
      var r := entries + [Entry(date, true, Some(5), Some(15))];
      assert r[|entries|].date == date;
      r
  }

  /** Adding the entry a second time changes nothing. */
  lemma AddEntryIdempotent(entries: seq<Entry>, date: int)
    ensures AddEntryForDate(AddEntryForDate(entries, date), date) == AddEntryForDate(entries, date)
  {
  }

  function ReadingOn(date: int): Reading -> bool {
    (r: Reading) => r.date == date
  }

  function TotalMinutes(rs: seq<Reading>): int {
    if rs == [] then 0 else rs[0].minutes + TotalMinutes(rs[1..])
  }

  function AddTo(rs: seq<Reading>, date: int, minutes: int): (r: seq<Reading>)
    ensures |r| == |rs|
    ensures forall i :: 0 <= i < |rs| ==>
      r[i] == if rs[i].date == date then rs[i].(minutes := rs[i].minutes + minutes) else rs[i]
  {
    if rs == [] then []
    else
      var first := if rs[0].date == date then rs[0].(minutes := rs[0].minutes + minutes) else rs[0];
      [first] + AddTo(rs[1..], date, minutes)
  }

  /** `addReadingMinutes`: when an entry of that date exists every entry of
      that date gains the minutes; otherwise a new entry is appended. */
  function AddReadingMinutes(rs: seq<Reading>, date: int, minutes: int): (r: seq<Reading>)
    ensures Count(rs, ReadingOn(date)) > 0 ==> |r| == |rs|
    ensures Count(rs, ReadingOn(date)) == 0 ==> r == rs + [Reading(date, minutes)]
    ensures forall i :: 0 <= i < |rs| ==> r[i].date == rs[i].date
    ensures forall i :: 0 <= i < |rs| ==>
      r[i].minutes == if rs[i].date == date then rs[i].minutes + minutes else rs[i].minutes
  {
    if Count(rs, ReadingOn(date)) > 0 then AddTo(rs, date, minutes)
    else
      CountPositive(rs, ReadingOn(date));
      assert forall i :: 0 <= i < |rs| ==> rs[i] in rs && !ReadingOn(date)(rs[i]);
      rs + [Reading(date, minutes)]
  }

  lemma {:induction false} AddToTotal(rs: seq<Reading>, date: int, minutes: int)
    ensures TotalMinutes(AddTo(rs, date, minutes)) == TotalMinutes(rs) + Count(rs, ReadingOn(date)) * minutes
  {
    if rs != [] {
      AddToTotal(rs[1..], date, minutes);
      assert AddTo(rs, date, minutes)[1..] == AddTo(rs[1..], date, minutes);
    }
  }

  lemma {:induction false} TotalAppend(a: seq<Reading>, b: seq<Reading>)
    ensures TotalMinutes(a + b) == TotalMinutes(a) + TotalMinutes(b)
  {
    if a == [] {
      assert a + b == b;
    } else {
      assert (a + b)[1..] == a[1..] + b;
      TotalAppend(a[1..], b);
    }
  }

  /** The total rises by the minutes once per entry of that date, or once
      for the appended entry, so by exactly `minutes` when that date has at
      most one entry; entries of other dates are unchanged. */
  lemma AddReadingMinutesTotal(rs: seq<Reading>, date: int, minutes: int)
    ensures TotalMinutes(AddReadingMinutes(rs, date, minutes)) ==
      TotalMinutes(rs) + (if Count(rs, ReadingOn(date)) == 0 then 1 else Count(rs, ReadingOn(date))) * minutes
    ensures Count(rs, ReadingOn(date)) <= 1 ==>
      TotalMinutes(AddReadingMinutes(rs, date, minutes)) == TotalMinutes(rs) + minutes
    ensures forall i :: 0 <= i < |rs| && rs[i].date != date ==> AddReadingMinutes(rs, date, minutes)[i] == rs[i]
  {
    if Count(rs, ReadingOn(date)) > 0 {
      AddToTotal(rs, date, minutes);
    } else {
      TotalAppend(rs, [Reading(date, minutes)]);
      assert TotalMinutes([Reading(date, minutes)]) == minutes;
    }
  }

  // ---------------------------------------------------------------------
  // The streak, as written

  predicate IsCompletedEntry(e: Entry) { e.completed }
  function EntryDate(e: Entry): int { e.date }
  function NegEntryDate(e: Entry): int { -e.date }

  /** The completed entries' dates, newest first. */
  function NewestFirst(entries: seq<Entry>): (ds: seq<int>)
    ensures forall i, j :: 0 <= i < j < |ds| ==> ds[i] >= ds[j]
  {
    var sorted := SortBy(Filter(entries, IsCompletedEntry), NegEntryDate);
    Keys(sorted, EntryDate)
  }

  function Instant(c: Clock): int { c.day * MsPerDay + c.ms }

  /** What the loop of `calculateStreak` computes from the instant `last`
      with `streak` entries accepted so far: the next entry is accepted when
      the whole days between `last` and its midnight equal `streak`, and
      then becomes `last`; the first one refused ends the count. */
  function AsWrittenWalk(ds: seq<int>, last: int, streak: nat): (n: nat)
    ensures streak <= n <= streak + |ds|
    decreases |ds|
  {
    if ds == [] then streak
    else if (last - ds[0] * MsPerDay) / MsPerDay == streak then AsWrittenWalk(ds[1..], ds[0] * MsPerDay, streak + 1)
    else streak
  }

  /** `calculateStreak` as written. */
  method CalculateStreakAsWritten(entries: seq<Entry>, now: Clock) returns (streak: nat)
    ensures streak == AsWrittenWalk(NewestFirst(entries), Instant(now), 0)
  {
    var ds := NewestFirst(entries);
    streak := 0;
    var current := Instant(now);
    for i := 0 to |ds|
      invariant streak == i
      invariant AsWrittenWalk(ds[i..], current, i) == AsWrittenWalk(ds, Instant(now), 0)
    {
      assert ds[i..][1..] == ds[i + 1..];
      var entryDate := ds[i] * MsPerDay;
      var daysDiff := (current - entryDate) / MsPerDay;
      if daysDiff == streak {
        streak := streak + 1;
        current := entryDate;
      } else {
        return;
      }
    }
  }

  /** Whole days from a moment back to a midnight: the day difference. */
  lemma WholeDays(k: int, ms: int)
    requires 0 <= ms < MsPerDay
    ensures (k * MsPerDay + ms) / MsPerDay == k
  {
  }

  /** As written, the streak is 0 unless the newest completed entry is
      dated today. */
  lemma AsWrittenNeedsToday(ds: seq<int>, now: Clock)
    ensures AsWrittenWalk(ds, Instant(now), 0) > 0 ==> ds != [] && ds[0] == now.day
  {
    if ds != [] {
      assert Instant(now) - ds[0] * MsPerDay == (now.day - ds[0]) * MsPerDay + now.ms;
      WholeDays(now.day - ds[0], now.ms);
    }
  }

  /** As written, completed entries on consecutive days ending today give a
      streak of at most 2: the third entry is one day after the second, not
      two. */
  lemma AsWrittenCapsAtTwo(ds: seq<int>, now: Clock)
    requires forall k :: 0 <= k < |ds| ==> ds[k] == now.day - k
    ensures AsWrittenWalk(ds, Instant(now), 0) == if |ds| < 2 then |ds| else 2
  {
    if ds != [] {
      WalkAccept(ds, Instant(now), 0, now.ms);
      if |ds| >= 2 {
        var rest := ds[1..];
        assert rest[0] == now.day - 1;
        WalkAccept(rest, ds[0] * MsPerDay, 1, 0);
        if |ds| >= 3 {
          var more := rest[1..];
          assert more[0] == now.day - 2;
          WalkRefuse(more, rest[0] * MsPerDay, 2, 1, 0);
        }
      }
    }
  }

  /** An entry exactly `streak` whole days before `last` is accepted. */
  lemma WalkAccept(ds: seq<int>, last: int, streak: nat, ms: int)
    requires ds != [] && 0 <= ms < MsPerDay && last == (ds[0] + streak) * MsPerDay + ms
    ensures AsWrittenWalk(ds, last, streak) == AsWrittenWalk(ds[1..], ds[0] * MsPerDay, streak + 1)
  {
    assert last - ds[0] * MsPerDay == streak * MsPerDay + ms;
    WholeDays(streak, ms);
  }

  /** An entry any other number of whole days before `last` ends the walk. */
  lemma WalkRefuse(ds: seq<int>, last: int, streak: nat, k: int, ms: int)
    requires ds != [] && 0 <= ms < MsPerDay && last == (ds[0] + k) * MsPerDay + ms && k != streak
    ensures AsWrittenWalk(ds, last, streak) == streak
  {
    assert last - ds[0] * MsPerDay == k * MsPerDay + ms;
    WholeDays(k, ms);
  }

  /** A completed entry no earlier entry shares a date with makes its date
      completed. */
  lemma CompletedAt(ms: seq<Streaks.Mark>, i: int)
    requires 0 <= i < |ms| && ms[i].completed
    requires forall j :: 0 <= j < i ==> ms[j].date != ms[i].date
    ensures Streaks.CompletedOn(ms, ms[i].date)
  {
    var k := FindIndex(ms, (m: Streaks.Mark) => m.date == ms[i].date);
    assert k == i;
  }

  /** Three completed days in a row ending today: the walk back counts 3,
      the loop as written stops at 2. */
  lemma AsWrittenMissesThirdDay(now: Clock)
    ensures var entries := [Entry(now.day, true, None, None), Entry(now.day - 1, true, None, None), Entry(now.day - 2, true, None, None)];
      Streaks.IsCurrentStreak(EntryMarks(entries), now.day, 3) &&
      AsWrittenWalk([now.day, now.day - 1, now.day - 2], Instant(now), 0) == 2
  {
    AsWrittenCapsAtTwo([now.day, now.day - 1, now.day - 2], now);
    var entries := [Entry(now.day, true, None, None), Entry(now.day - 1, true, None, None), Entry(now.day - 2, true, None, None)];
    var ms := EntryMarks(entries);
    forall d | now.day - 3 < d <= now.day ensures Streaks.CompletedOn(ms, d) {
      CompletedAt(ms, now.day - d);
    }
  }

  // ---------------------------------------------------------------------
  // The streak, corrected

  function EntryMark(e: Entry): Streaks.Mark { Streaks.Mark(e.date, e.completed) }

  function EntryMarks(entries: seq<Entry>): (ms: seq<Streaks.Mark>)
    ensures |ms| == |entries|
    ensures forall i :: 0 <= i < |entries| ==> ms[i] == Streaks.Mark(entries[i].date, entries[i].completed)
  {
    MapSeq(entries, EntryMark)
  }

  /** The streak the summary evidently means: completed days counted back
      from today until the first day without a completed entry. */
  method CalculateStreak(entries: seq<Entry>, now: Clock) returns (streak: nat)
    ensures Streaks.IsCurrentStreak(EntryMarks(entries), now.day, streak)
  {
    streak := Streaks.CurrentStreak(EntryMarks(entries), now);
  }

  // ---------------------------------------------------------------------
  // Weekly summary

  datatype Trend = Up | Stable | Down

  /** The summary's trend: up from 5 entries, stable from 3. */
  function TrendOf(n: nat): (t: Trend)
    ensures t == Up <==> n >= 5
    ensures t == Stable <==> 3 <= n < 5
    ensures t == Down <==> n < 3
  {
    if n >= 5 then Up else if n >= 3 then Stable else Down
  }

  datatype Summary = Summary(currentValue: nat, targetValue: nat, progress: Ratio, streak: nat,
    totalDuration: int, avgDuration: Ratio, trend: Trend)

  /** Completed entries whose midnight is not before now minus 7 days. */
  predicate InWeek(e: Entry, now: Clock) {
    MidnightOnOrAfter(e.date, DaysBefore(now, 7)) && e.completed
  }

  function DurationOrZero(e: Entry): int {
    if e.duration.Some? then e.duration.value else 0
  }

  /** `calculateStats`: the completed entries of the last week, their share
      of the target of 7, their total and mean duration and the trend. */
  method CalculateStats(entries: seq<Entry>, now: Clock) returns (s: Summary)
    ensures s.currentValue == Count(entries, (e: Entry) => InWeek(e, now))
    ensures s.targetValue == 7
    ensures s.progress.num * 7 == 100 * s.currentValue * s.progress.den
    ensures s.totalDuration == Sum(Keys(Filter(entries, (e: Entry) => InWeek(e, now)), DurationOrZero))
    ensures s.currentValue == 0 ==> s.avgDuration.num == 0
    ensures s.currentValue > 0 ==> s.avgDuration.num * s.currentValue == s.totalDuration * s.avgDuration.den
    ensures s.trend == TrendOf(s.currentValue)
    ensures Streaks.IsCurrentStreak(EntryMarks(entries), now.day, s.streak)
  {
    var week := Filter(entries, (e: Entry) => InWeek(e, now));
    var streak := CalculateStreak(entries, now);
    var total := Sum(Keys(week, DurationOrZero));
    var avg: Ratio := if |week| > 0 then Fraction(total, |week|) else Zero;
    s := Summary(|week|, 7, Percent(|week|, 7), streak, total, avg, TrendOf(|week|));
  }

  // ---------------------------------------------------------------------
  // Goals

  /** `allGoals[date] || getDefaultGoals()`. */
  function GoalsFor(all: map<int, seq<Goal>>, date: int): seq<Goal> {
    if date in all then all[date] else DefaultGoals()
  }

  function FlipGoals(goals: seq<Goal>, id: string): (r: seq<Goal>)
    ensures |r| == |goals|
    ensures forall i :: 0 <= i < |goals| ==>
      r[i] == if goals[i].id == id then goals[i].(isCompleted := !goals[i].isCompleted) else goals[i]
  {
    if goals == [] then []
    else
      var first := if goals[0].id == id then goals[0].(isCompleted := !goals[0].isCompleted) else goals[0];
      [first] + FlipGoals(goals[1..], id)
  }

  /** `handleToggleGoal`: the selected date's list (the default list when
      it has none) with the goals of that id flipped. */
  function ToggleGoal(all: map<int, seq<Goal>>, date: int, id: string): (r: map<int, seq<Goal>>)
    ensures r.Keys == all.Keys + {date}
    ensures forall d :: d in all && d != date ==> r[d] == all[d]
    ensures |r[date]| == |GoalsFor(all, date)|
    ensures forall i :: 0 <= i < |r[date]| ==>
      r[date][i].id == GoalsFor(all, date)[i].id && r[date][i].title == GoalsFor(all, date)[i].title &&
      (r[date][i].isCompleted <==> (GoalsFor(all, date)[i].isCompleted != (GoalsFor(all, date)[i].id == id)))
  {
    all[date := FlipGoals(GoalsFor(all, date), id)]
  }

  /** Toggling the same goal twice restores the date's list. */
  lemma ToggleGoalTwice(all: map<int, seq<Goal>>, date: int, id: string)
    ensures ToggleGoal(ToggleGoal(all, date, id), date, id)[date] == GoalsFor(all, date)
  {
    var once := FlipGoals(GoalsFor(all, date), id);
    assert FlipGoals(once, id) == GoalsFor(all, date);
  }

  /** `handleAddGoal`: append an uncompleted goal titled after the list's
      new length; `stamp` is the `Date.now()` reading used in its id. */
  function AddGoal(all: map<int, seq<Goal>>, date: int, stamp: nat): (r: map<int, seq<Goal>>)
    ensures r.Keys == all.Keys + {date}
    ensures forall d :: d in all && d != date ==> r[d] == all[d]
    ensures |r[date]| == |GoalsFor(all, date)| + 1
    ensures r[date][..|GoalsFor(all, date)|] == GoalsFor(all, date)
    ensures r[date][|GoalsFor(all, date)|] ==
      Goal("goal-" + NatToString(stamp), "New Goal " + NatToString(|GoalsFor(all, date)| + 1), false)
  {
    var current := GoalsFor(all, date);
    all[date := current + [Goal("goal-" + NatToString(stamp), "New Goal " + NatToString(|current| + 1), false)]]
  }

  predicate GoalDone(g: Goal) { g.isCompleted }

  /** `goalProgress`: completed goals over all goals, 0 for none. */
  function GoalProgress(goals: seq<Goal>): (r: Ratio)
    ensures goals == [] ==> r.num == 0
    ensures goals != [] ==> r.num * |goals| == 100 * Count(goals, GoalDone) * r.den
    ensures AtLeast(r, 0) && AtMost(r, 100)
  {
    Percent(Count(goals, GoalDone), |goals|)
  }

  /** `readingProgress`: the first reading entry of the date against a
      30-minute goal, capped at 100. */
  function ReadingProgress(rs: seq<Reading>, date: int): (r: Ratio)
    ensures AtMost(r, 100)
    ensures Count(rs, ReadingOn(date)) == 0 ==> r.num == 0
    ensures forall k :: 0 <= k < |rs| && rs[k].date == date && (forall j :: 0 <= j < k ==> rs[j].date != date) ==>
      CappedPercent(r, rs[k].minutes, 30)
  {
    var i := FindIndex(rs, ReadingOn(date));
    if i < 0 then
      CountNone(rs, ReadingOn(date));
      CappedShare(0, 30)
    else
      CountPositive(rs, ReadingOn(date));
      assert forall k :: 0 <= k < |rs| && rs[k].date == date && (forall j :: 0 <= j < k ==> rs[j].date != date) ==> k == i by {
        forall k | 0 <= k < |rs| && rs[k].date == date && (forall j :: 0 <= j < k ==> rs[j].date != date) ensures k == i {
          assert ReadingOn(date)(rs[k]);
          assert ReadingOn(date)(rs[i]);
        }
      }
      CappedShare(rs[i].minutes, 30)
  }

  /** The cold-shower metric: 100 when the date has a completed entry. */
  function ColdShowerProgress(entries: seq<Entry>, date: int): (p: int)
    ensures p == 100 <==> exists i :: 0 <= i < |entries| && entries[i].date == date && entries[i].completed
    ensures p == 0 || p == 100
  {
    if exists i :: 0 <= i < |entries| && entries[i].date == date && entries[i].completed then 100 else 0
  }
}
