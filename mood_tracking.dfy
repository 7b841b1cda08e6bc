/** Mood logging around a shower: a before and an after mood on a 1–5
    scale, one entry per date, and the averages and best day shown from
    them. */
module MoodTracking {
  import opened Common
  import opened Dates
  import Sorting

  datatype MoodScale = MoodScale(value: int, name: string, description: string)

  const MoodScales: seq<MoodScale> := [
    MoodScale(1, "Terrible", "Feeling awful"),
    MoodScale(2, "Poor", "Not feeling great"),
    MoodScale(3, "Neutral", "Feeling okay"),
    MoodScale(4, "Good", "Feeling positive"),
    MoodScale(5, "Excellent", "Feeling amazing")]

  datatype MoodEntry = MoodEntry(
    id: string,
    date: int,
    beforeMood: int,
    afterMood: int,
    notes: Option<string>,
    timestamp: int)

  function EntryDate(e: MoodEntry): int { e.date }

  predicate ValidMood(v: int) { 1 <= v <= 5 }

  predicate ValidEntries(entries: seq<MoodEntry>) {
    forall i :: 0 <= i < |entries| ==> ValidMood(entries[i].beforeMood) && ValidMood(entries[i].afterMood)
  }

  /** `notes.trim() || undefined`: the trimmed notes, or nothing when they
      are blank. */
  function StoredNotes(notes: string): (r: Option<string>)
    ensures r.None? <==> forall i :: 0 <= i < |notes| ==> IsSpace(notes[i])
    ensures r.Some? ==> r.value == Trim(notes) && !IsSpace(r.value[0]) && !IsSpace(r.value[|r.value| - 1])
  {
    var t := Trim(notes);
    if t == "" then None else Some(t)
  }

  /** The logger's state. */
  class MoodLog {
    var entries: seq<MoodEntry>
    var todayEntry: Option<MoodEntry>
    var selectedBefore: Option<int>
    var selectedAfter: Option<int>
    var showLogger: bool
    var notes: string

    constructor()
      ensures entries == [] && todayEntry.None? && selectedBefore.None? && selectedAfter.None?
      ensures !showLogger && notes == ""
    {
      entries := [];
      todayEntry := None;
      selectedBefore := None;
      selectedAfter := None;
      showLogger := false;
      notes := "";
    }

    /** `logMood`: with both moods selected, replace today's entries by one
        new entry, close the logger and report (date, before, after) to the
        parent; otherwise change nothing. `stamp` is the `Date.now()`
        reading. */
    method LogMood(now: Clock, stamp: nat) returns (reported: Option<(int, int, int)>)
      modifies this
      ensures old(selectedBefore).None? || old(selectedAfter).None? ==>
        reported.None? && entries == old(entries) && todayEntry == old(todayEntry) && showLogger == old(showLogger)
      ensures old(selectedBefore).Some? && old(selectedAfter).Some? ==>
        var e := MoodEntry(NatToString(stamp), now.day, old(selectedBefore).value, old(selectedAfter).value,
          StoredNotes(old(notes)), now.day * MsPerDay + now.ms);
        entries == ReplaceKeyed(old(entries), EntryDate, e) && todayEntry == Some(e) && !showLogger &&
        reported == Some((now.day, e.beforeMood, e.afterMood))
      ensures selectedBefore == old(selectedBefore) && selectedAfter == old(selectedAfter) && notes == old(notes)
    {
      reported := None;
      if selectedBefore.None? || selectedAfter.None? {
        return;
      }
      var e := MoodEntry(NatToString(stamp), now.day, selectedBefore.value, selectedAfter.value,
        StoredNotes(notes), now.day * MsPerDay + now.ms);
      entries := ReplaceKeyed(entries, EntryDate, e);
      todayEntry := Some(e);
      reported := Some((now.day, e.beforeMood, e.afterMood));
      showLogger := false;
    }
  }

  /** After logging, today has exactly one entry, the entries of every other
      day are kept in order, and valid moods stay valid. */
  lemma LogKeepsOneEntryPerDay(entries: seq<MoodEntry>, e: MoodEntry)
    requires ValidEntries(entries) && ValidMood(e.beforeMood) && ValidMood(e.afterMood)
    ensures Count(ReplaceKeyed(entries, EntryDate, e), KeyIs(EntryDate, e.date)) == 1
    ensures Filter(ReplaceKeyed(entries, EntryDate, e), KeyIsNot(EntryDate, e.date)) ==
      Filter(entries, KeyIsNot(EntryDate, e.date))
    ensures ValidEntries(ReplaceKeyed(entries, EntryDate, e))
  {
    ReplaceKeyedFacts(entries, EntryDate, e);
    var r := ReplaceKeyed(entries, EntryDate, e);
    forall i | 0 <= i < |r| ensures ValidMood(r[i].beforeMood) && ValidMood(r[i].afterMood) {
      if i < |r| - 1 {
        assert r[i] in Filter(entries, KeyIsNot(EntryDate, e.date));
      }
    }
  }

  /** `getMoodScale`: the scale entry with that value, and Neutral for any
      value outside the scale. */
  function MoodScaleOf(v: int): (m: MoodScale)
    ensures m in MoodScales
    ensures ValidMood(v) ==> m.value == v
    ensures !ValidMood(v) ==> m == MoodScales[2] && m.name == "Neutral"
  {
    var i := FindIndex(MoodScales, (m: MoodScale) => m.value == v);
    if i < 0 then MoodScales[2] else MoodScales[i]
  }

  function Improvement(e: MoodEntry): int { e.afterMood - e.beforeMood }
  function Before(e: MoodEntry): int { e.beforeMood }
  function After(e: MoodEntry): int { e.afterMood }

  /** `getAverageMoodImprovement`: 0 for no entries, otherwise the mean of
      after − before, which lies within [−4, 4] for moods on the scale. */
  function AverageImprovement(entries: seq<MoodEntry>): (r: Ratio)
    ensures entries == [] ==> r.num == 0
    ensures entries != [] ==> r.num * |entries| == Sum(Sorting.Keys(entries, Improvement)) * r.den
    ensures ValidEntries(entries) ==> AtLeast(r, -4) && AtMost(r, 4)
  {
    var improvements := Sorting.Keys(entries, Improvement);
    if entries == [] then Zero
    else
      if ValidEntries(entries) then
        MeanBounds(improvements, -4, 4);
        Mean(improvements)
      else
        Mean(improvements)
  }

  /** `new Date(entry.date) >= oneWeekAgo`. */
  function RecentSince(since: Clock): MoodEntry -> bool {
    (e: MoodEntry) => MidnightOnOrAfter(e.date, since)
  }

  /** `getWeeklyMoodTrend`: the mean before and after moods of the entries
      dated within the last seven days, and (0, 0) for none. */
  function WeeklyMoodTrend(entries: seq<MoodEntry>, now: Clock): (r: (Ratio, Ratio))
    ensures var recent := Filter(entries, RecentSince(DaysBefore(now, 7)));
      (recent == [] ==> r.0.num == 0 && r.1.num == 0) &&
      (recent != [] ==>
        r.0.num * |recent| == Sum(Sorting.Keys(recent, Before)) * r.0.den &&
        r.1.num * |recent| == Sum(Sorting.Keys(recent, After)) * r.1.den)
  {
    var recent := Filter(entries, RecentSince(DaysBefore(now, 7)));
    (Mean(Sorting.Keys(recent, Before)), Mean(Sorting.Keys(recent, After)))
  }

  /** On valid entries with some in the last week, both weekly means are on
      the scale; an entry counts as recent exactly when it is dated after the
      day a week ago, or on it at exact midnight. */
  lemma WeeklyTrendOnScale(entries: seq<MoodEntry>, now: Clock)
    requires ValidEntries(entries)
    requires Filter(entries, RecentSince(DaysBefore(now, 7))) != []
    ensures AtLeast(WeeklyMoodTrend(entries, now).0, 1) && AtMost(WeeklyMoodTrend(entries, now).0, 5)
    ensures AtLeast(WeeklyMoodTrend(entries, now).1, 1) && AtMost(WeeklyMoodTrend(entries, now).1, 5)
    ensures forall e :: e in Filter(entries, RecentSince(DaysBefore(now, 7))) ==>
      e.date > now.day - 7 || (e.date == now.day - 7 && now.ms == 0)
  {
    var recent := Filter(entries, RecentSince(DaysBefore(now, 7)));
    forall i | 0 <= i < |recent| ensures ValidMood(recent[i].beforeMood) && ValidMood(recent[i].afterMood) {
      assert recent[i] in entries;
    }
    MeanBounds(Sorting.Keys(recent, Before), 1, 5);
    MeanBounds(Sorting.Keys(recent, After), 1, 5);
    forall e | e in recent ensures e.date > now.day - 7 || (e.date == now.day - 7 && now.ms == 0) {
      MidnightComparisons(e.date, DaysBefore(now, 7));
    }
  }

  /** The position `reduce((best, e) => e.afterMood > best.afterMood ? e :
      best)` ends on: the earliest entry with the largest after mood. */
  function BestIndex(entries: seq<MoodEntry>): (b: nat)
    requires entries != []
    ensures b < |entries|
    ensures forall j :: 0 <= j < |entries| ==> entries[j].afterMood <= entries[b].afterMood
    ensures forall j :: 0 <= j < b ==> entries[j].afterMood < entries[b].afterMood
  {
    if |entries| == 1 then 0
    else
      var last := |entries| - 1;
      var b := BestIndex(entries[..last]);
      assert forall j :: 0 <= j < last ==> entries[..last][j] == entries[j];
      if entries[last].afterMood > entries[b].afterMood then last else b
  }

  /** `getBestMoodDay`. */
  function BestMoodDay(entries: seq<MoodEntry>): (r: Option<MoodEntry>)
    ensures r.None? <==> entries == []
    ensures r.Some? ==> r.value in entries
    ensures r.Some? ==> forall e :: e in entries ==> e.afterMood <= r.value.afterMood
    ensures r.Some? ==> exists i :: 0 <= i < |entries| && entries[i] == r.value &&
                                  forall j :: 0 <= j < i ==> entries[j].afterMood < r.value.afterMood
  {
    if entries == [] then None else Some(entries[BestIndex(entries)])
  }
}
