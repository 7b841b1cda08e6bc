/** The local tracker's list of tracked days (SimpleColdShowerTracker and
    BasicColdShowerTracker share this code): the upsert-by-date updaters and
    the month count and completion rate. The streaks are in module Streaks. */
module Tracker {
  import opened Common
  import opened Dates
  import Streaks

  datatype Day = Day(
    date: int,
    completed: bool,
    extraCold: Option<bool>,
    feltAmazing: Option<bool>,
    duration: Option<int>,
    completedAt: Option<Clock>,
    beforeMood: Option<int>,
    afterMood: Option<int>)

  /** The record `{ date, completed }` with no optional field set. */
  function Blank(date: int, completed: bool): Day {
    Day(date, completed, None, None, None, None, None, None)
  }

  predicate UniqueDates(days: seq<Day>) {
    forall i, j :: 0 <= i < j < |days| ==> days[i].date != days[j].date
  }

  predicate IsCompleted(x: Day) { x.completed }

  /** `prev.findIndex(day => day.date === date)`. */
  function IndexOf(days: seq<Day>, date: int): (i: int)
    ensures -1 <= i < |days|
    ensures i >= 0 ==> days[i].date == date && forall j :: 0 <= j < i ==> days[j].date != date
    ensures i < 0 ==> forall j :: 0 <= j < |days| ==> days[j].date != date
  {
    FindIndex(days, (x: Day) => x.date == date)
  }

  /** The shape shared by every updater: rewrite the first record with that
      date by `change`, or append `created` when there is none. */
  function Upserted(days: seq<Day>, date: int, change: Day -> Day, created: Day): (r: seq<Day>)
    ensures IndexOf(days, date) >= 0 ==>
      |r| == |days| && r[IndexOf(days, date)] == change(days[IndexOf(days, date)]) &&
      forall j :: 0 <= j < |days| && j != IndexOf(days, date) ==> r[j] == days[j]
    ensures IndexOf(days, date) < 0 ==> r == days + [created]
  {
    var i := IndexOf(days, date);
    if i >= 0 then days[i := change(days[i])] else days + [created]
  }

  /** Copy the list, overwrite the slot found by findIndex, or append. */
  method Upsert(prev: seq<Day>, date: int, change: Day -> Day, created: Day) returns (next: seq<Day>)
    ensures next == Upserted(prev, date, change, created)
  {
    var i := IndexOf(prev, date);
    if i >= 0 {
      var updated := new Day[|prev|](k requires 0 <= k < |prev| => prev[k]);
      updated[i] := change(updated[i]);
      next := updated[..];
    } else {
      next := prev + [created];
    }
  }

  /** An update that keeps the date and a created record carrying the date
      keep the dates unique. */
  lemma UpsertedKeepsUnique(days: seq<Day>, date: int, change: Day -> Day, created: Day)
    requires UniqueDates(days)
    requires created.date == date
    requires forall x :: change(x).date == x.date
    ensures UniqueDates(Upserted(days, date, change, created))
  {
    var r := Upserted(days, date, change, created);
    var i := IndexOf(days, date);
    forall a, b | 0 <= a < b < |r| ensures r[a].date != r[b].date {
      if i < 0 {
        if b == |days| {
          assert r[b] == created;
          assert r[a] == days[a];
        } else {
          assert r[a] == days[a] && r[b] == days[b];
        }
      } else {
        assert r[a].date == days[a].date;
        assert r[b].date == days[b].date;
      }
    }
  }

  /** After an upsert that keeps dates, the date is found at the old slot,
      or at the appended end when it was absent. */
  lemma UpsertedFinds(days: seq<Day>, date: int, change: Day -> Day, created: Day)
    requires created.date == date
    requires forall x :: change(x).date == x.date
    ensures IndexOf(Upserted(days, date, change, created), date) ==
      if IndexOf(days, date) >= 0 then IndexOf(days, date) else |days|
  {
    var r := Upserted(days, date, change, created);
    var i := IndexOf(days, date);
    if i >= 0 {
      assert r[i].date == date;
      forall j | 0 <= j < i ensures r[j].date != date {
        assert r[j] == days[j];
      }
    } else {
      assert r[|days|] == created;
      forall j | 0 <= j < |days| ensures r[j].date != date {
        assert r[j] == days[j];
      }
    }
  }

  // ---------------------------------------------------------------------
  // The four updaters

  /** Whether the date's first record is completed; no record counts as not. */
  function CompletedAt(days: seq<Day>, date: int): bool {
    var i := IndexOf(days, date);
    i >= 0 && days[i].completed
  }

  function Flip(x: Day): Day { x.(completed := !x.completed) }

  /** `toggleDay`: afterwards the date has a record, completed exactly when
      it was not completed before; a record is added only for a new date. */
  function Toggled(days: seq<Day>, date: int): (r: seq<Day>)
    ensures IndexOf(r, date) >= 0 && CompletedAt(r, date) == !CompletedAt(days, date)
    ensures |r| == if IndexOf(days, date) >= 0 then |days| else |days| + 1
  {
    UpsertedFinds(days, date, Flip, Blank(date, true));
    Upserted(days, date, Flip, Blank(date, true))
  }

  function FlagValue(x: Day, flag: Flag): Option<bool> {
    match flag
    case ExtraCold => x.extraCold
    case FeltAmazing => x.feltAmazing
  }

  function SetFlag(x: Day, flag: Flag, value: bool): (r: Day)
    ensures FlagValue(r, flag) == Some(value)
    ensures r.(extraCold := x.extraCold, feltAmazing := x.feltAmazing) == x
    ensures forall g :: g != flag ==> FlagValue(r, g) == FlagValue(x, g)
  {
    match flag
    case ExtraCold => x.(extraCold := Some(value))
    case FeltAmazing => x.(feltAmazing := Some(value))
  }

  /** `setDayProperty(date, property, value)`: afterwards the date's record
      has the flag set to the value, its completion unchanged (false for a
      new date), and the other flag as before. */
  function WithFlag(days: seq<Day>, date: int, flag: Flag, value: bool): (r: seq<Day>)
    ensures var k := IndexOf(r, date); var i := IndexOf(days, date);
      k >= 0 && FlagValue(r[k], flag) == Some(value) && r[k].completed == CompletedAt(days, date) &&
      forall g :: g != flag ==> FlagValue(r[k], g) == if i >= 0 then FlagValue(days[i], g) else None
  {
    UpsertedFinds(days, date, x => SetFlag(x, flag, value), SetFlag(Blank(date, false), flag, value));
    Upserted(days, date, x => SetFlag(x, flag, value), SetFlag(Blank(date, false), flag, value))
  }

  /** `handleDurationUpdate(date, duration)`: afterwards the date's record
      holds the duration and its completion is unchanged (false for a new
      date). */
  function WithDuration(days: seq<Day>, date: int, minutes: int): (r: seq<Day>)
    ensures var k := IndexOf(r, date);
      k >= 0 && r[k].duration == Some(minutes) && r[k].completed == CompletedAt(days, date)
  {
    UpsertedFinds(days, date, (x: Day) => x.(duration := Some(minutes)), Blank(date, false).(duration := Some(minutes)));
    Upserted(days, date, (x: Day) => x.(duration := Some(minutes)), Blank(date, false).(duration := Some(minutes)))
  }

  /** `handleMoodUpdate(date, beforeMood, afterMood)`: afterwards the date's
      record holds both moods and its completion is unchanged (false for a
      new date). */
  function WithMoods(days: seq<Day>, date: int, before: int, after: int): (r: seq<Day>)
    ensures var k := IndexOf(r, date);
      k >= 0 && r[k].beforeMood == Some(before) && r[k].afterMood == Some(after) &&
      r[k].completed == CompletedAt(days, date)
  {
    UpsertedFinds(days, date, (x: Day) => x.(beforeMood := Some(before), afterMood := Some(after)),
      Blank(date, false).(beforeMood := Some(before), afterMood := Some(after)));
    Upserted(days, date, (x: Day) => x.(beforeMood := Some(before), afterMood := Some(after)),
      Blank(date, false).(beforeMood := Some(before), afterMood := Some(after)))
  }

  /** toggleDay on a present date flips that record's `completed` and
      nothing else; on an absent date it appends `{date, completed: true}`. */
  lemma ToggledEffect(days: seq<Day>, date: int)
    ensures var i := IndexOf(days, date);
      i >= 0 ==>
        (|Toggled(days, date)| == |days| &&
         Toggled(days, date)[i] == days[i].(completed := !days[i].completed) &&
         forall j :: 0 <= j < |days| && j != i ==> Toggled(days, date)[j] == days[j])
    ensures IndexOf(days, date) < 0 ==> Toggled(days, date) == days + [Blank(date, true)]
  {
  }

  /** Toggling a present date twice gives back the original list. */
  lemma ToggleTwice(days: seq<Day>, date: int)
    requires IndexOf(days, date) >= 0
    ensures Toggled(Toggled(days, date), date) == days
  {
    var once := Toggled(days, date);
    var i := IndexOf(days, date);
    assert IndexOf(once, date) == i by {
      assert once[i].date == date;
      forall j | 0 <= j < i ensures once[j].date != date {
        assert once[j] == days[j];
      }
    }
    assert once[i] == Flip(days[i]);
  }

  /** r keeps every record of days in place with the same date and
      `completed`, and anything it appends is an uncompleted record for date. */
  ghost predicate KeepsCompleted(days: seq<Day>, r: seq<Day>, date: int) {
    |r| >= |days| &&
    (forall j :: 0 <= j < |days| ==> r[j].completed == days[j].completed && r[j].date == days[j].date) &&
    (forall j :: |days| <= j < |r| ==> !r[j].completed && r[j].date == date)
  }

  /** The property updaters never change `completed` of a record that was
      there and append records with `completed` false. */
  lemma PropertyUpdatesKeepCompleted(days: seq<Day>, date: int, flag: Flag, value: bool, minutes: int, before: int, after: int)
    ensures KeepsCompleted(days, WithFlag(days, date, flag, value), date)
    ensures KeepsCompleted(days, WithDuration(days, date, minutes), date)
    ensures KeepsCompleted(days, WithMoods(days, date, before, after), date)
  {
  }

  /** Every updater keeps dates unique. */
  lemma UpdatersKeepUnique(days: seq<Day>, date: int, flag: Flag, value: bool, minutes: int, before: int, after: int)
    requires UniqueDates(days)
    ensures UniqueDates(Toggled(days, date))
    ensures UniqueDates(WithFlag(days, date, flag, value))
    ensures UniqueDates(WithDuration(days, date, minutes))
    ensures UniqueDates(WithMoods(days, date, before, after))
  {
    UpsertedKeepsUnique(days, date, Flip, Blank(date, true));
    UpsertedKeepsUnique(days, date, x => SetFlag(x, flag, value), SetFlag(Blank(date, false), flag, value));
    UpsertedKeepsUnique(days, date, (x: Day) => x.(duration := Some(minutes)), Blank(date, false).(duration := Some(minutes)));
    UpsertedKeepsUnique(days, date, (x: Day) => x.(beforeMood := Some(before), afterMood := Some(after)),
      Blank(date, false).(beforeMood := Some(before), afterMood := Some(after)));
  }

  // ---------------------------------------------------------------------
  // Queries

  /** The (date, completed) view the streak calculations read. */
  function MarkOf(d: Day): Streaks.Mark { Streaks.Mark(d.date, d.completed) }

  function Marks(days: seq<Day>): (ms: seq<Streaks.Mark>)
    ensures |ms| == |days|
    ensures forall i :: 0 <= i < |days| ==> ms[i] == Streaks.Mark(days[i].date, days[i].completed)
  {
    MapSeq(days, MarkOf)
  }

  lemma MarksUnique(days: seq<Day>)
    requires UniqueDates(days)
    ensures Streaks.UniqueDates(Marks(days))
  {
  }

  /** A record counts towards a month when it is completed and its
      `YYYY-MM-DD` date starts with that month's `YYYY-MM`. */
  predicate InMonthCompleted(x: Day, year: int, month: int) {
    x.completed && CivilOf(x.date).year == year && CivilOf(x.date).month == month
  }

  function InMonthOf(year: int, month: int): Day -> bool {
    x => InMonthCompleted(x, year, month)
  }

  /** `getCompletedThisMonth`: the number of completed records of the month. */
  function CompletedThisMonth(days: seq<Day>, year: int, month: int): (n: nat)
    ensures n <= Count(days, IsCompleted)
    ensures n > 0 <==> exists x :: x in days && InMonthCompleted(x, year, month)
  {
    CountMono(days, InMonthOf(year, month), IsCompleted);
    CountPositive(days, InMonthOf(year, month));
    Count(days, InMonthOf(year, month))
  }

  /** Toggling a day of the month moves the month's count by one: down when
      its record was completed, up otherwise (also when the toggle creates
      the record). Toggling a day of another month leaves the count. */
  lemma ToggleMonthCount(days: seq<Day>, date: int, year: int, month: int)
    ensures var before, after := CompletedThisMonth(days, year, month), CompletedThisMonth(Toggled(days, date), year, month);
      var i := IndexOf(days, date);
      (CivilOf(date).year == year && CivilOf(date).month == month ==>
        after == if i >= 0 && days[i].completed then before - 1 else before + 1) &&
      (CivilOf(date).year != year || CivilOf(date).month != month ==> after == before)
  {
    var i := IndexOf(days, date);
    if i >= 0 {
      CountUpdate(days, i, Flip(days[i]), InMonthOf(year, month));
    } else {
      CountAppend(days, [Blank(date, true)], InMonthOf(year, month));
    }
  }

  /** `getCompletionRate`: completed / total * 100, or 0 for an empty list. */
  function CompletionRate(days: seq<Day>): (r: Ratio)
    ensures days == [] ==> r.num == 0
    ensures days != [] ==> r.num * |days| == 100 * Count(days, IsCompleted) * r.den
    ensures AtLeast(r, 0) && AtMost(r, 100)
  {
    Percent(Count(days, IsCompleted), |days|)
  }
}
