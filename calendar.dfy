/** The month calendar: the grid of a month's days after the blank cells
    of the first week, month navigation, the record shown for a day, and
    the toggle and flag events a click sends to the parent. The displayed
    month is a day number inside it. */
module Calendar {
  import opened Common
  import opened Dates

  /** A tracked day as the calendar receives it, keyed by its `YYYY-MM-DD`
      text. */
  datatype CalendarDay = CalendarDay(date: string, completed: bool, extraCold: Option<bool>, feltAmazing: Option<bool>)

  /** What the calendar asks its parent to do. */
  datatype Event = ToggleDay(date: string) | SetDayProperty(date: string, flag: Flag, value: bool)

  // ---------------------------------------------------------------------
  // The month grid

  /** `getDaysInMonth`: as many blank cells as the weekday of the first,
      then every day of the month in order. The last day is read from the
      day before the first of the next month, as `new Date(year, month + 1,
      0)` does. */
  method MonthGrid(month: int) returns (cells: seq<Option<int>>)
    ensures var c := CivilOf(month); var lead := Weekday(DayNumber(c.year, c.month, 1));
      |cells| == lead + DaysInMonth(c.year, c.month) &&
      (forall i :: 0 <= i < lead ==> cells[i].None?) &&
      (forall k :: 1 <= k <= DaysInMonth(c.year, c.month) ==> cells[lead + k - 1] == Some(DayNumber(c.year, c.month, k)))
    ensures var c := CivilOf(month);
      forall i :: 0 <= i < |cells| && cells[i].Some? ==>
        CivilOf(cells[i].value).year == c.year && CivilOf(cells[i].value).month == c.month
  {
    var c := CivilOf(month);
    var year, mon := c.year, c.month;
    var first := DayNumber(year, mon, 1);
    var lastDay := CivilOf(FirstOfNextMonth(year, mon) - 1).day;
    LastDayOfMonth(year, mon);
    var firstDayOfWeek := Weekday(first);
    cells := [];
    for i := 0 to firstDayOfWeek
      invariant |cells| == i
      invariant forall j :: 0 <= j < i ==> cells[j].None?
    {
      cells := cells + [None];
    }
    for day := 1 to lastDay + 1
      invariant |cells| == firstDayOfWeek + day - 1
      invariant forall j :: 0 <= j < firstDayOfWeek ==> cells[j].None?
      invariant forall k :: 1 <= k < day ==> cells[firstDayOfWeek + k - 1] == Some(DayNumber(year, mon, k))
    {
      cells := cells + [Some(DayNumber(year, mon, day))];
    }
    CellsInMonth(cells, year, mon, firstDayOfWeek);
  }

  /** `new Date(year, month + 1, 0).getDate()` is the length of the month. */
  lemma LastDayOfMonth(y: int, m: int)
    requires 1 <= m <= 12
    ensures CivilOf(FirstOfNextMonth(y, m) - 1).day == DaysInMonth(y, m)
  {
    LastOfMonth(y, m);
    CivilOfDayNumber(y, m, DaysInMonth(y, m));
  }

  /** Every day cell of a month's grid holds a date of that month. */
  lemma CellsInMonth(cells: seq<Option<int>>, y: int, m: int, lead: int)
    requires 1 <= m <= 12 && 0 <= lead
    requires |cells| == lead + DaysInMonth(y, m)
    requires forall i :: 0 <= i < lead ==> cells[i].None?
    requires forall k :: 1 <= k <= DaysInMonth(y, m) ==> cells[lead + k - 1] == Some(DayNumber(y, m, k))
    ensures forall i :: 0 <= i < |cells| && cells[i].Some? ==>
      CivilOf(cells[i].value).year == y && CivilOf(cells[i].value).month == m
  {
    forall i | 0 <= i < |cells| && cells[i].Some?
      ensures CivilOf(cells[i].value).year == y && CivilOf(cells[i].value).month == m
    {
      var k := i - lead + 1;
      assert cells[lead + k - 1] == Some(DayNumber(y, m, k));
      CivilOfDayNumber(y, m, k);
    }
  }

  /** `formatDate` on a grid cell gives the `YYYY-MM-DD` text of that
      calendar date. */
  lemma FormatCell(y: int, m: int, d: int)
    requires ValidCivil(CivilDate(y, m, d))
    ensures FormatDate(DayNumber(y, m, d)) == FormatCivil(y, m, d)
  {
    CivilOfDayNumber(y, m, d);
  }

  // ---------------------------------------------------------------------
  // Navigation

  /** The month `delta` (±1) months after month m of year y. */
  function ShiftMonth(y: int, m: int, delta: int): (r: (int, int))
    requires 1 <= m <= 12 && (delta == 1 || delta == -1)
    ensures 1 <= r.1 <= 12
    ensures r.0 * 12 + r.1 == y * 12 + m + delta
  {
    if m + delta < 1 then (y - 1, 12)
    else if m + delta > 12 then (y + 1, 1)
    else (y, m + delta)
  }

  function Delta(next: bool): int { if next then 1 else -1 }

  /** `navigateMonth` as written: `setMonth(getMonth() ± 1)` keeps the day
      of the month, and a day the new month lacks runs over into the month
      after it. */
  function NavigateAsWritten(current: int, next: bool): (r: int)
    ensures r == NavigateMonth(current, next) + CivilOf(current).day - 1
  {
    var c := CivilOf(current);
    var (y, m) := ShiftMonth(c.year, c.month, Delta(next));
    DayNumber(y, m, c.day)
  }

  /** From the 31st of January 2025, "next" shows March, and from the 31st
      of March, "previous" stays in March. */
  lemma NavigateAsWrittenSkipsFebruary()
    ensures CivilOf(NavigateAsWritten(DayNumber(2025, 1, 31), true)) == CivilDate(2025, 3, 3)
    ensures CivilOf(NavigateAsWritten(DayNumber(2025, 3, 31), false)) == CivilDate(2025, 3, 3)
  {
    NavigateLands(2025, 1, 31, true, 2025, 2);
    NavigateLands(2025, 3, 31, false, 2025, 2);
    MarchThird();
  }

  /** Navigating from a valid date lands on the same day number of the
      shifted month (y2, m2). */
  lemma NavigateLands(y: int, m: int, d: int, next: bool, y2: int, m2: int)
    requires ValidCivil(CivilDate(y, m, d))
    requires 1 <= m2 <= 12 && ShiftMonth(y, m, Delta(next)) == (y2, m2)
    ensures NavigateAsWritten(DayNumber(y, m, d), next) == DayNumber(y2, m2, d)
  {
    CivilOfDayNumber(y, m, d);
  }

  /** The 31st of February 2025 is the 3rd of March. */
  lemma MarchThird()
    ensures CivilOf(DayNumber(2025, 2, 31)) == CivilDate(2025, 3, 3)
  {
    assert DayNumber(2025, 2, 31) == DayNumber(2025, 3, 3);
    CivilOfDayNumber(2025, 3, 3);
  }

  /** `navigateMonth` moving to the first of the neighbouring month, so the
      displayed month always changes by exactly one. */
  function NavigateMonth(current: int, next: bool): (r: int)
    ensures var c := CivilOf(current); var n := CivilOf(r);
      n.day == 1 && (n.year, n.month) == ShiftMonth(c.year, c.month, Delta(next))
  {
    var c := CivilOf(current);
    var (y, m) := ShiftMonth(c.year, c.month, Delta(next));
    CivilOfDayNumber(y, m, 1);
    DayNumber(y, m, 1)
  }

  /** Going forward and then back returns to the same month. */
  lemma NavigateThereAndBack(current: int)
    ensures var c := CivilOf(current); var n := CivilOf(NavigateMonth(NavigateMonth(current, true), false));
      n.year == c.year && n.month == c.month
  {
  }

  // ---------------------------------------------------------------------
  // Day data and events

  function HasDate(s: string): CalendarDay -> bool {
    (d: CalendarDay) => d.date == s
  }

  /** `trackedDays.find(d => d.date === s)`: the first record with that
      date text. */
  function RecordFor(records: seq<CalendarDay>, s: string): (r: Option<CalendarDay>)
    ensures r.Some? ==> r.value in records && r.value.date == s
    ensures r.Some? ==> exists i :: 0 <= i < |records| && records[i] == r.value &&
                                  forall j :: 0 <= j < i ==> records[j].date != s
    ensures r.None? <==> forall d :: d in records ==> d.date != s
  {
    var i := FindIndex(records, HasDate(s));
    if i < 0 then None else Some(records[i])
  }

  /** `getDayData`: the first record whose date text is the cell's. */
  function DayData(records: seq<CalendarDay>, date: int): (r: Option<CalendarDay>)
    ensures r.Some? ==> r.value in records && r.value.date == FormatDate(date)
    ensures r.None? <==> forall d :: d in records ==> d.date != FormatDate(date)
  {
    RecordFor(records, FormatDate(date))
  }

  /** `handleDayClick`: toggle the clicked cell's date text. */
  function HandleDayClick(date: int): (e: Event)
    ensures e.ToggleDay? && DateText(e.date)
    ensures forall y, m, d :: ValidCivil(CivilDate(y, m, d)) && date == DayNumber(y, m, d) ==>
      e.date == FormatCivil(y, m, d)
  {
    forall y, m, d | ValidCivil(CivilDate(y, m, d)) && date == DayNumber(y, m, d)
      ensures FormatDate(date) == FormatCivil(y, m, d)
    {
      FormatCell(y, m, d);
    }
    ToggleDay(FormatDate(date))
  }

  function FlagOf(d: CalendarDay, flag: Flag): Option<bool> {
    match flag
    case ExtraCold => d.extraCold
    case FeltAmazing => d.feltAmazing
  }

  /** `toggleDayProperty`: for a selected date, set the flag to the opposite
      of its shown value, an absent record or flag counting as false;
      without a selection, nothing. */
  function ToggleDayProperty(records: seq<CalendarDay>, selected: Option<string>, flag: Flag): (e: Option<Event>)
    ensures selected.None? || selected.value == "" ==> e.None?
    ensures selected.Some? && selected.value != "" ==>
      e.Some? && e.value.SetDayProperty? && e.value.date == selected.value && e.value.flag == flag
    ensures e.Some? && e.value.SetDayProperty? ==>
      var shown := RecordFor(records, selected.value);
      (e.value.value <==> shown.None? || FlagOf(shown.value, flag) != Some(true))
  {
    if selected.None? || selected.value == "" then None
    else
      var shown := RecordFor(records, selected.value);
      var current := shown.Some? && FlagOf(shown.value, flag) == Some(true);
      Some(SetDayProperty(selected.value, flag, !current))
  }
}
