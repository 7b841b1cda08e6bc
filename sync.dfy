/** The record type of the hosted database and the in-memory list logic of
    the synchronising data hook: upsert by date (the list kept newest
    first), delete by date, toggle, set a flag, the profile merge and the
    rewrite of cached data into records. The network calls, the offline
    queue and the localStorage reads and writes are not modelled. */
module Sync {
  import opened Common
  import opened Sorting
  import Streaks

  /** A row of the tracked-days table; `date` is a day number. */
  datatype TrackedDay = TrackedDay(
    id: Option<string>,
    userId: string,
    date: int,
    completed: bool,
    extraCold: Option<bool>,
    feltAmazing: Option<bool>,
    durationMinutes: Option<int>,
    temperature: Option<int>,
    notes: Option<string>,
    moodBefore: Option<int>,
    moodAfter: Option<int>,
    createdAt: Option<string>,
    updatedAt: Option<string>)

  /** The record `{ date, completed }` with no optional field set. Its
      `userId` is a placeholder: the upsert always overwrites it. */
  function NewDay(date: int, completed: bool): TrackedDay {
    TrackedDay(None, "", date, completed, None, None, None, None, None, None, None, None, None)
  }

  /** `user?.id || 'local'`, where `user` is the signed-in user's id. */
  function OwnerId(user: Option<string>): (owner: string)
    ensures owner != ""
    ensures user.Some? && user.value != "" ==> owner == user.value
    ensures user.None? ==> owner == "local"
  {
    if user.Some? && user.value != "" then user.value else "local"
  }

  function Dated(v: int): TrackedDay -> bool {
    (x: TrackedDay) => x.date == v
  }

  function NotDated(v: int): TrackedDay -> bool {
    (x: TrackedDay) => x.date != v
  }

  function NegDate(x: TrackedDay): int { -x.date }

  /** At most one record for every date. */
  ghost predicate OnePerDate(days: seq<TrackedDay>) {
    forall d :: Count(days, Dated(d)) <= 1
  }

  /** rec is the one and only record of `days` dated v. */
  ghost predicate OnlyRecordFor(days: seq<TrackedDay>, v: int, rec: TrackedDay) {
    Count(days, Dated(v)) == 1 && rec in days &&
    forall x :: x in days && x.date == v ==> x == rec
  }

  // ---------------------------------------------------------------------
  // Upsert and delete

  /** The record the upsert stores: the given fields with the owner's id. */
  function Stamped(day: TrackedDay, user: Option<string>): TrackedDay {
    day.(userId := OwnerId(user))
  }

  /** `upsertTrackedDay`'s new list: drop the records of that date, push the
      stamped record, sort by date with the newest first. */
  function Upserted(days: seq<TrackedDay>, day: TrackedDay, user: Option<string>): (r: seq<TrackedDay>)
    ensures forall i, j :: 0 <= i < j < |r| ==> r[i].date >= r[j].date
  {
    SortBy(Filter(days, NotDated(day.date)) + [Stamped(day, user)], NegDate)
  }

  /** The list the upsert sorts: the records of other dates in their order,
      then the stamped record. */
  function Pushed(days: seq<TrackedDay>, day: TrackedDay, user: Option<string>): (r: seq<TrackedDay>)
    ensures |r| >= 1 && r[|r| - 1] == Stamped(day, user)
    ensures forall x :: x in r[..|r| - 1] <==> x in days && x.date != day.date
  {
    Filter(days, NotDated(day.date)) + [Stamped(day, user)]
  }

  lemma UpsertedCount(days: seq<TrackedDay>, day: TrackedDay, user: Option<string>, d: int)
    ensures Count(Upserted(days, day, user), Dated(d)) ==
      if d == day.date then 1 else Count(days, Dated(d))
  {
    var f := Filter(days, NotDated(day.date));
    SortByCount(Pushed(days, day, user), NegDate, Dated(d));
    CountAppend(f, [Stamped(day, user)], Dated(d));
    if d == day.date {
      CountNone(f, Dated(d));
    } else {
      CountFiltered(days, NotDated(day.date), Dated(d));
    }
  }

  lemma UpsertedMembers(days: seq<TrackedDay>, day: TrackedDay, user: Option<string>)
    ensures forall x :: x in Upserted(days, day, user) <==> x in Pushed(days, day, user)
  {
    var u := Pushed(days, day, user);
    assert multiset(Upserted(days, day, user)) == multiset(u);
    forall x ensures x in Upserted(days, day, user) <==> x in u {
      assert x in u <==> x in multiset(u);
    }
  }

  /** After the upsert the stamped record is the only one of its date; the
      records of every other date are kept, each as often as before. */
  lemma UpsertedFacts(days: seq<TrackedDay>, day: TrackedDay, user: Option<string>)
    ensures OnlyRecordFor(Upserted(days, day, user), day.date, Stamped(day, user))
    ensures forall x: TrackedDay :: x.date != day.date ==> (x in Upserted(days, day, user) <==> x in days)
    ensures forall d :: d != day.date ==> Count(Upserted(days, day, user), Dated(d)) == Count(days, Dated(d))
    ensures Stamped(day, user).userId == OwnerId(user)
    ensures OnePerDate(days) ==> OnePerDate(Upserted(days, day, user))
  {
    forall d ensures Count(Upserted(days, day, user), Dated(d)) == if d == day.date then 1 else Count(days, Dated(d)) {
      UpsertedCount(days, day, user, d);
    }
    UpsertedMembers(days, day, user);
  }

  /** `deleteTrackedDay`'s new list: the records of other dates, in order. */
  function Deleted(days: seq<TrackedDay>, v: int): (r: seq<TrackedDay>)
    ensures |r| <= |days|
    ensures forall x :: x in r <==> x in days && x.date != v
  {
    Filter(days, NotDated(v))
  }

  /** No record of the date is left; every other record is kept, each as
      often as before; deleting an absent date changes nothing, and a
      second delete changes nothing either. */
  lemma DeletedFacts(days: seq<TrackedDay>, v: int)
    ensures Count(Deleted(days, v), Dated(v)) == 0
    ensures forall x :: x in Deleted(days, v) <==> x in days && x.date != v
    ensures forall d :: d != v ==> Count(Deleted(days, v), Dated(d)) == Count(days, Dated(d))
    ensures Count(days, Dated(v)) == 0 ==> Deleted(days, v) == days
    ensures Deleted(Deleted(days, v), v) == Deleted(days, v)
  {
    CountNone(Deleted(days, v), Dated(v));
    forall d | d != v ensures Count(Deleted(days, v), Dated(d)) == Count(days, Dated(d)) {
      CountFiltered(days, NotDated(v), Dated(d));
    }
    if Count(days, Dated(v)) == 0 {
      FilterKeepsAll(days, v);
    }
    FilterIdempotent(days, NotDated(v));
  }

  lemma {:induction false} FilterKeepsAll(days: seq<TrackedDay>, v: int)
    requires Count(days, Dated(v)) == 0
    ensures Filter(days, NotDated(v)) == days
  {
    if days != [] {
      FilterKeepsAll(days[1..], v);
    }
  }

  // ---------------------------------------------------------------------
  // Toggle and flags

  /** `trackedDays.find(d => d.date === date)`. */
  function Existing(days: seq<TrackedDay>, v: int): (e: Option<TrackedDay>)
    ensures e.Some? ==> e.value in days && e.value.date == v
    ensures e.Some? ==> exists i :: 0 <= i < |days| && days[i] == e.value &&
                                  forall j :: 0 <= j < i ==> days[j].date != v
    ensures e.None? ==> Count(days, Dated(v)) == 0
  {
    var i := FindIndex(days, Dated(v));
    if i >= 0 then Some(days[i])
    else
      CountNone(days, Dated(v));
      None
  }

  /** The fields `toggleDay` hands to the upsert. */
  function ToggleRecord(days: seq<TrackedDay>, v: int): TrackedDay {
    match Existing(days, v)
    case Some(x) => x.(completed := !x.completed)
    case None => NewDay(v, true)
  }

  /** Whether the record `find` returns for the date is completed; no
      record counts as not. */
  function WasCompleted(days: seq<TrackedDay>, v: int): bool {
    Existing(days, v).Some? && Existing(days, v).value.completed
  }

  /** `toggleDay`: afterwards the list, newest first, has one record of the
      date, owned by the user and completed exactly when it was not before. */
  function Toggled(days: seq<TrackedDay>, v: int, user: Option<string>): (r: seq<TrackedDay>)
    ensures forall i, j :: 0 <= i < j < |r| ==> r[i].date >= r[j].date
    ensures Count(r, Dated(v)) == 1
    ensures forall x :: x in r && x.date == v ==> x.completed == !WasCompleted(days, v) && x.userId == OwnerId(user)
    ensures forall x: TrackedDay :: x.date != v ==> (x in r <==> x in days)
  {
    UpsertedFacts(days, ToggleRecord(days, v), user);
    Upserted(days, ToggleRecord(days, v), user)
  }

  /** After toggleDay the date has one record: the record found first with
      `completed` negated, or `{date, completed: true}` when there was none,
      stamped with the owner's id. Every other date keeps exactly its
      records. */
  lemma ToggledFacts(days: seq<TrackedDay>, v: int, user: Option<string>)
    ensures Existing(days, v).Some? ==>
      OnlyRecordFor(Toggled(days, v, user), v,
        Existing(days, v).value.(completed := !Existing(days, v).value.completed, userId := OwnerId(user)))
    ensures Existing(days, v).None? ==>
      OnlyRecordFor(Toggled(days, v, user), v, NewDay(v, true).(userId := OwnerId(user)))
    ensures forall d :: d != v ==> Count(Toggled(days, v, user), Dated(d)) == Count(days, Dated(d))
    ensures forall x: TrackedDay :: x.date != v ==> (x in Toggled(days, v, user) <==> x in days)
  {
    UpsertedFacts(days, ToggleRecord(days, v), user);
  }

  function SetFlag(x: TrackedDay, flag: Flag, value: bool): TrackedDay {
    match flag
    case ExtraCold => x.(extraCold := Some(value))
    case FeltAmazing => x.(feltAmazing := Some(value))
  }

  function FlagValue(x: TrackedDay, flag: Flag): Option<bool> {
    match flag
    case ExtraCold => x.extraCold
    case FeltAmazing => x.feltAmazing
  }

  /** `setDayProperty(date, property, value)`: afterwards the list, newest
      first, has one record of the date, owned by the user, with the flag
      set and its completion as before (false for a new date). */
  function WithFlag(days: seq<TrackedDay>, v: int, flag: Flag, value: bool, user: Option<string>): (r: seq<TrackedDay>)
    ensures forall i, j :: 0 <= i < j < |r| ==> r[i].date >= r[j].date
    ensures Count(r, Dated(v)) == 1
    ensures forall x :: x in r && x.date == v ==>
      FlagValue(x, flag) == Some(value) && x.completed == WasCompleted(days, v) && x.userId == OwnerId(user)
    ensures forall x: TrackedDay :: x.date != v ==> (x in r <==> x in days)
  {
    var base := match Existing(days, v) case Some(x) => x case None => NewDay(v, false);
    UpsertedFacts(days, SetFlag(base, flag, value), user);
    Upserted(days, SetFlag(base, flag, value), user)
  }

  /** After setDayProperty the date has one record: the record found first,
      or `{date, completed: false}`, with the flag set; its `completed` is
      the old one, or false for a new date. Every other date keeps exactly
      its records. */
  lemma WithFlagFacts(days: seq<TrackedDay>, v: int, flag: Flag, value: bool, user: Option<string>)
    ensures Existing(days, v).Some? ==>
      OnlyRecordFor(WithFlag(days, v, flag, value, user), v,
        SetFlag(Existing(days, v).value, flag, value).(userId := OwnerId(user)))
    ensures Existing(days, v).None? ==>
      OnlyRecordFor(WithFlag(days, v, flag, value, user), v,
        SetFlag(NewDay(v, false), flag, value).(userId := OwnerId(user)))
    ensures forall x :: x in WithFlag(days, v, flag, value, user) && x.date == v ==>
      x.completed == (Existing(days, v).Some? && Existing(days, v).value.completed)
    ensures forall d :: d != v ==> Count(WithFlag(days, v, flag, value, user), Dated(d)) == Count(days, Dated(d))
    ensures forall x: TrackedDay :: x.date != v ==> (x in WithFlag(days, v, flag, value, user) <==> x in days)
  {
    var base := match Existing(days, v) case Some(x) => x case None => NewDay(v, false);
    UpsertedFacts(days, SetFlag(base, flag, value), user);
  }

  // ---------------------------------------------------------------------
  // Profile merge

  /** The profile as a map from field name to value. */
  type Profile = map<string, string>

  /** `updateProfile`: nothing without a signed-in user; otherwise the
      current profile (none counts as empty) overlaid with the updates and
      then with `id` set to the user's id. */
  function UpdatedProfile(user: Option<string>, current: Option<Profile>, updates: Profile): (r: Option<Profile>)
    ensures user.None? ==> r == current
    ensures user.Some? ==> r.Some?
    ensures r.Some? && user.Some? ==>
      r.value.Keys == (if current.Some? then current.value.Keys else {}) + updates.Keys + {"id"} &&
      r.value["id"] == user.value
    ensures r.Some? && user.Some? ==> forall k :: k in updates && k != "id" ==> r.value[k] == updates[k]
    ensures r.Some? && user.Some? && current.Some? ==>
      forall k :: k in current.value && k !in updates && k != "id" ==> r.value[k] == current.value[k]
  {
    if user.None? then current
    else
      var base := if current.Some? then current.value else map[];
      Some((base + updates)["id" := user.value])
  }

  // ---------------------------------------------------------------------
  // Cached data

  /** An element of the older local format, with camelCase flags. */
  datatype LegacyDay = LegacyDay(date: int, completed: bool, extraCold: Option<bool>, feltAmazing: Option<bool>)

  /** What the cache key held: nothing, text that does not parse, an array
      in the older format, or an array of tracked-day rows. */
  datatype Cache = Missing | Unparsable | LegacyList(legacy: seq<LegacyDay>) | RowList(rows: seq<TrackedDay>)

  function FromLegacy(ls: seq<LegacyDay>, owner: string): (r: seq<TrackedDay>)
    ensures |r| == |ls|
    ensures forall i :: 0 <= i < |ls| ==>
      r[i] == NewDay(ls[i].date, ls[i].completed).(extraCold := ls[i].extraCold, feltAmazing := ls[i].feltAmazing, userId := owner)
  {
    if ls == [] then []
    else
      var x := NewDay(ls[0].date, ls[0].completed).(extraCold := ls[0].extraCold, feltAmazing := ls[0].feltAmazing, userId := owner);
      [x] + FromLegacy(ls[1..], owner)
  }

  /** The same mapping applied to rows: their snake_case fields are not the
      camelCase ones it reads, so only date and completed survive. */
  function FromRows(rows: seq<TrackedDay>, owner: string): (r: seq<TrackedDay>)
    ensures |r| == |rows|
    ensures forall i :: 0 <= i < |rows| ==> r[i] == NewDay(rows[i].date, rows[i].completed).(userId := owner)
  {
    if rows == [] then [] else [NewDay(rows[0].date, rows[0].completed).(userId := owner)] + FromRows(rows[1..], owner)
  }

  /** `loadLocalData`'s list: a non-empty array whose first element has a
      string date is rewritten field by field (rows of the current format
      pass the same test, and lose every field except date and completed);
      an empty array is kept; missing or unparsable data gives []. */
  function LoadLocal(cache: Cache, user: Option<string>): (r: seq<TrackedDay>)
    ensures cache.LegacyList? ==> r == FromLegacy(cache.legacy, OwnerId(user))
    ensures cache.RowList? && cache.rows != [] ==> forall x :: x in r ==> x.durationMinutes.None? && x.notes.None? && x.extraCold.None?
    ensures cache.RowList? ==> |r| == |cache.rows|
    ensures cache.RowList? && cache.rows != [] ==> r == FromRows(cache.rows, OwnerId(user))
    ensures cache.RowList? && cache.rows == [] ==> r == []
    ensures cache.Missing? || cache.Unparsable? ==> r == []
  {
    match cache
    case Missing => []
    case Unparsable => []
    case LegacyList(ls) => FromLegacy(ls, OwnerId(user))
    case RowList(rows) => if rows != [] then FromRows(rows, OwnerId(user)) else rows
  }

  // ---------------------------------------------------------------------
  // The streak view

  function MarkOf(d: TrackedDay): Streaks.Mark { Streaks.Mark(d.date, d.completed) }

  function Marks(days: seq<TrackedDay>): (ms: seq<Streaks.Mark>)
    ensures |ms| == |days|
    ensures forall i :: 0 <= i < |days| ==> ms[i] == Streaks.Mark(days[i].date, days[i].completed)
  {
    MapSeq(days, MarkOf)
  }

  predicate UniqueDates(days: seq<TrackedDay>) {
    forall i, j :: 0 <= i < j < |days| ==> days[i].date != days[j].date
  }

  lemma MarksUnique(days: seq<TrackedDay>)
    requires UniqueDates(days)
    ensures Streaks.UniqueDates(Marks(days))
  {
  }
}
