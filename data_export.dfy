/** The data export: the CSV text of the tracked days and the summary
    statistics (totals, streaks, success rate, averages). The download and
    the PDF and JSON renderings are not modelled. */
module DataExport {
  import opened Common
  import opened Dates
  import opened Sync
  import Sorting
  import Streaks

  // ---------------------------------------------------------------------
  // CSV

  const HeaderNames: seq<string> := ["Date", "Completed", "Extra Cold", "Felt Amazing",
    "Duration (minutes)", "Temperature", "Mood Before", "Mood After", "Notes"]

  const Header: string := Join(HeaderNames, ",")

  function YesNo(b: bool): (s: string)
    ensures s == "Yes" || s == "No"
    ensures s == "Yes" <==> b
  {
    assert "Yes"[0] != "No"[0];
    if b then "Yes" else "No"
  }

  /** An optional flag is truthy only when present and true. */
  function Truthy(b: Option<bool>): bool { b == Some(true) }

  /** `x || ''` for an optional number: empty when absent or 0. */
  function NumberOrEmpty(n: Option<int>): (s: string)
    ensures s == "" <==> n.None? || n.value == 0
    ensures DateText(s)
  {
    if n.None? || n.value == 0 then "" else IntToString(n.value)
  }

  function NotesText(d: TrackedDay): string {
    if d.notes.Some? then d.notes.value else ""
  }

  /** The nine fields of a record's row; `date` is the record's date text. */
  function Fields(d: TrackedDay, date: string): (fs: seq<string>)
    ensures |fs| == 9
    ensures fs[0] == date
    ensures forall k :: 1 <= k <= 3 ==> fs[k] == "Yes" || fs[k] == "No"
    ensures fs[1] == "Yes" <==> d.completed
    ensures fs[2] == "Yes" <==> Truthy(d.extraCold)
    ensures fs[3] == "Yes" <==> Truthy(d.feltAmazing)
    ensures fs[8] == "\"" + NotesText(d) + "\""
  {
    [date, YesNo(d.completed), YesNo(Truthy(d.extraCold)), YesNo(Truthy(d.feltAmazing)),
     NumberOrEmpty(d.durationMinutes), NumberOrEmpty(d.temperature),
     NumberOrEmpty(d.moodBefore), NumberOrEmpty(d.moodAfter),
     "\"" + NotesText(d) + "\""]
  }

  function Row(d: TrackedDay): string {
    Join(Fields(d, FormatDate(d.date)), ",")
  }

  function Rows(days: seq<TrackedDay>): (rows: seq<string>)
    ensures |rows| == |days|
    ensures forall i :: 0 <= i < |days| ==> rows[i] == Row(days[i])
  {
    if days == [] then [] else [Row(days[0])] + Rows(days[1..])
  }

  /** `exportToCSV`: the header line and one line per record, so the text
      opens with the header and is only the header for no records. */
  function Csv(days: seq<TrackedDay>): (csv: string)
    ensures |csv| >= |Header| && csv[..|Header|] == Header
    ensures days == [] ==> csv == Header
    ensures days != [] ==> |csv| > |Header| && csv[|Header|] == '\n'
  {
    JoinFirst(Header, Rows(days), "\n");
    Join([Header] + Rows(days), "\n")
  }

  /** The header has nine comma-separated columns. */
  lemma HeaderColumns()
    ensures Split(Header, ',') == HeaderNames
    ensures |Split(Header, ',')| == 9
  {
    SplitJoin(HeaderNames, ',');
  }

  lemma HeaderOneLine()
    ensures '\n' !in Header
  {
    JoinAvoids(HeaderNames, ",", '\n');
  }

  /** A field other than the notes never holds a separator. */
  lemma FieldsAvoid(d: TrackedDay, date: string, c: char)
    requires DateText(date) && (c == ',' || c == '\n')
    ensures forall k :: 0 <= k < 8 ==> c !in Fields(d, date)[k]
  {
    var fs := Fields(d, date);
    forall k | 0 <= k < 8 ensures c !in fs[k] {
      if 1 <= k <= 3 {
        assert c !in "Yes" && c !in "No";
      } else {
        assert DateText(fs[k]);
      }
    }
  }

  /** When the notes hold no comma, splitting a row at commas gives back its
      nine fields. */
  lemma RowColumns(d: TrackedDay)
    requires ',' !in NotesText(d)
    ensures Split(Row(d), ',') == Fields(d, FormatDate(d.date))
  {
    var fs := Fields(d, FormatDate(d.date));
    FieldsAvoid(d, FormatDate(d.date), ',');
    assert ',' !in fs[8];
    SplitJoin(fs, ',');
  }

  /** A row holds a line break only when its notes do. */
  lemma RowOneLine(d: TrackedDay)
    requires '\n' !in NotesText(d)
    ensures '\n' !in Row(d)
  {
    var fs := Fields(d, FormatDate(d.date));
    FieldsAvoid(d, FormatDate(d.date), '\n');
    assert '\n' !in fs[8];
    JoinAvoids(fs, ",", '\n');
  }

  /** When no notes hold a line break, the export has n + 1 lines for n
      records: the header, then each record's row in order. */
  lemma CsvLines(days: seq<TrackedDay>)
    requires forall i :: 0 <= i < |days| ==> '\n' !in NotesText(days[i])
    ensures Split(Csv(days), '\n') == [Header] + Rows(days)
    ensures |Split(Csv(days), '\n')| == |days| + 1
  {
    HeaderOneLine();
    forall i | 0 <= i < |days| ensures '\n' !in Rows(days)[i] {
      RowOneLine(days[i]);
    }
    SplitLines(Header, Rows(days));
  }

  /** Lines free of line breaks, joined with line breaks, split back into
      the same lines. */
  lemma SplitLines(header: string, rows: seq<string>)
    requires '\n' !in header
    requires forall i :: 0 <= i < |rows| ==> '\n' !in rows[i]
    ensures Split(Join([header] + rows, "\n"), '\n') == [header] + rows
  {
    var lines := [header] + rows;
    forall i | 0 <= i < |lines| ensures '\n' !in lines[i] {
      if i > 0 {
        assert lines[i] == rows[i - 1];
      }
    }
    SplitJoin(lines, '\n');
  }

  // ---------------------------------------------------------------------
  // Summary statistics

  datatype Stats = Stats(
    totalDays: nat,
    completedDays: nat,
    currentStreak: nat,
    longestStreak: nat,
    successRate: Ratio,
    averageMoodBefore: Ratio,
    averageMoodAfter: Ratio,
    averageDuration: Ratio,
    averageTemperature: Ratio,
    extraColdDays: nat,
    amazingDays: nat)

  predicate IsCompleted(d: TrackedDay) { d.completed }
  predicate IsExtraCold(d: TrackedDay) { Truthy(d.extraCold) }
  predicate FeltAmazing(d: TrackedDay) { Truthy(d.feltAmazing) }

  /** `x || 0` for an optional number. */
  function OrZero(n: Option<int>): int {
    if n.Some? then n.value else 0
  }

  /** The numbers `calculateStats` averages, each read as `x || 0`. */
  function MoodBeforeOf(d: TrackedDay): int { OrZero(d.moodBefore) }
  function MoodAfterOf(d: TrackedDay): int { OrZero(d.moodAfter) }
  function DurationOf(d: TrackedDay): int { OrZero(d.durationMinutes) }
  function TemperatureOf(d: TrackedDay): int { OrZero(d.temperature) }

  /** `calculateStats`. The current streak walks back from now; the
      longest streak scans the completed dates sorted newest first and then
      reversed. */
  method CalculateStats(days: seq<TrackedDay>, now: Clock) returns (s: Stats)
    ensures s.totalDays == |days| && s.completedDays == Count(days, IsCompleted)
    ensures s.completedDays <= s.totalDays
    ensures s.extraColdDays == Count(Filter(days, IsCompleted), IsExtraCold) <= s.completedDays
    ensures s.amazingDays == Count(Filter(days, IsCompleted), FeltAmazing) <= s.completedDays
    ensures days != [] ==> s.successRate.num * |days| == 100 * s.completedDays * s.successRate.den
    ensures days == [] ==> s.currentStreak == 0 && s.longestStreak == 0 && s.successRate.num == 0
    ensures Streaks.IsCurrentStreak(Marks(days), now.day, s.currentStreak)
    ensures s.longestStreak == 0 <==> Streaks.CompletedSet(Marks(days)) == {}
    ensures exists end :: Streaks.RunIn(Streaks.CompletedSet(Marks(days)), end, s.longestStreak)
    ensures UniqueDates(days) ==> Streaks.IsLongestRun(Streaks.CompletedSet(Marks(days)), s.longestStreak)
    ensures s.completedDays == 0 ==>
      s.averageMoodBefore.num == 0 && s.averageMoodAfter.num == 0 &&
      s.averageDuration.num == 0 && s.averageTemperature.num == 0
    ensures s.completedDays > 0 ==>
      s.averageMoodBefore.num * s.completedDays ==
        Sum(Sorting.Keys(Filter(days, IsCompleted), MoodBeforeOf)) * s.averageMoodBefore.den
    ensures s.completedDays > 0 ==>
      s.averageMoodAfter.num * s.completedDays ==
        Sum(Sorting.Keys(Filter(days, IsCompleted), MoodAfterOf)) * s.averageMoodAfter.den
    ensures s.completedDays > 0 ==>
      s.averageDuration.num * s.completedDays ==
        Sum(Sorting.Keys(Filter(days, IsCompleted), DurationOf)) * s.averageDuration.den
    ensures s.completedDays > 0 ==>
      s.averageTemperature.num * s.completedDays ==
        Sum(Sorting.Keys(Filter(days, IsCompleted), TemperatureOf)) * s.averageTemperature.den
  {
    var completed := Filter(days, IsCompleted);
    var ms := Marks(days);
    var current := Streaks.CurrentStreak(ms, now);
    var ds := Streaks.CompletedDescendingReversed(ms);
    var longest := Streaks.ScanRuns(ds);
    Streaks.CompletedDescendingReversedFacts(ms);
    Streaks.ElemsEmpty(ds);
    if UniqueDates(days) {
      MarksUnique(days);
    }
    if days == [] {
      assert Streaks.CompletedSet(ms) == {};
    }
    s := Stats(
      |days|, |completed|, current, longest,
      Percent(|completed|, |days|),
      Mean(Sorting.Keys(completed, MoodBeforeOf)),
      Mean(Sorting.Keys(completed, MoodAfterOf)),
      Mean(Sorting.Keys(completed, DurationOf)),
      Mean(Sorting.Keys(completed, TemperatureOf)),
      Count(completed, IsExtraCold),
      Count(completed, FeltAmazing));
  }

  /** The streaks of the export agree with each other: the current streak
      never exceeds the longest when dates are unique. */
  lemma StatsStreaksAgree(days: seq<TrackedDay>, today: int, current: nat, longest: nat)
    requires Streaks.IsCurrentStreak(Marks(days), today, current)
    requires Streaks.IsLongestRun(Streaks.CompletedSet(Marks(days)), longest)
    ensures current <= longest
  {
    Streaks.CurrentWithinBest(Marks(days), today, current, longest);
  }
}
