/** Calendar dates. Every `YYYY-MM-DD` string of the application becomes a
    day number (0 is 1970-01-01, a Thursday), which is what `new Date(s)`
    denotes at UTC midnight. The local time zone is taken to be UTC, so
    `toISOString().split('T')[0]` and the local getters agree. */
module Dates {
  import opened Common

  const MsPerDay: int := 24 * 60 * 60 * 1000

  /** A moment of the clock: a day number and the milliseconds elapsed since
      that day's midnight (what `new Date()` returns). */
  datatype Moment = Moment(day: int, ms: int)
  type Clock = c: Moment | 0 <= c.ms < MsPerDay witness Moment(0, 0)

  /** The clock reading k days earlier at the same time of day, as
      `d.setDate(d.getDate() - k)` computes. */
  function DaysBefore(c: Clock, k: int): Clock {
    Moment(c.day - k, c.ms)
  }

  /** `new Date(date) >= c`: the record's midnight is not before the moment. */
  predicate MidnightOnOrAfter(date: int, c: Clock) {
    date * MsPerDay >= c.day * MsPerDay + c.ms
  }

  /** `new Date(date) <= c`. */
  predicate MidnightOnOrBefore(date: int, c: Clock) {
    date * MsPerDay <= c.day * MsPerDay + c.ms
  }

  /** Comparing a date's midnight with a moment reduces to comparing day
      numbers, except on the moment's own day, where only an exact midnight
      counts as "on or after". */
  lemma MidnightComparisons(date: int, c: Clock)
    ensures MidnightOnOrAfter(date, c) <==> date > c.day || (date == c.day && c.ms == 0)
    ensures MidnightOnOrBefore(date, c) <==> date <= c.day
  {
    var k := date - c.day;
    assert date * MsPerDay == c.day * MsPerDay + k * MsPerDay;
    if k >= 1 {
      assert k * MsPerDay >= MsPerDay;
    } else if k <= -1 {
      assert k * MsPerDay <= -MsPerDay;
    }
  }

  /** `Date.prototype.getDay()`: 0 for Sunday through 6 for Saturday. */
  function Weekday(date: int): (w: int)
    ensures 0 <= w < 7
  {
    (date + 4) % 7
  }

  predicate IsLeapYear(y: int) {
    y % 4 == 0 && (y % 100 != 0 || y % 400 == 0)
  }

  function DaysInYear(y: int): int {
    if IsLeapYear(y) then 366 else 365
  }

  /** The number of days of month m (1 to 12) in year y. */
  function DaysInMonth(y: int, m: int): (n: int)
    requires 1 <= m <= 12
    ensures 28 <= n <= 31
  {
    if m == 2 then (if IsLeapYear(y) then 29 else 28)
    else if m == 4 || m == 6 || m == 9 || m == 11 then 30
    else 31
  }

  /** The days of year y that come before the first of month m. */
  function DaysBeforeMonth(y: int, m: int): (n: int)
    requires 1 <= m <= 12
  {
    [0, 31, 59, 90, 120, 151, 181, 212, 243, 273, 304, 334][m - 1]
    + (if m > 2 && IsLeapYear(y) then 1 else 0)
  }

  lemma DaysBeforeMonthStep(y: int, m: int)
    requires 1 <= m < 12
    ensures DaysBeforeMonth(y, m + 1) == DaysBeforeMonth(y, m) + DaysInMonth(y, m)
  {
  }

  lemma DaysBeforeLastMonth(y: int)
    ensures DaysBeforeMonth(y, 12) + DaysInMonth(y, 12) == DaysInYear(y)
  {
  }

  /** Leap years in 1..n (extended to n < 1 by floor division). */
  function LeapsUpTo(n: int): int {
    n / 4 - n / 100 + n / 400
  }

  function DaysBeforeYear(y: int): int {
    365 * (y - 1970) + LeapsUpTo(y - 1) - LeapsUpTo(1969)
  }

  /** The day number of `new Date(y, m - 1, d)`. */
  function DayNumber(y: int, m: int, d: int): int
    requires 1 <= m <= 12
  {
    DaysBeforeYear(y) + DaysBeforeMonth(y, m) + d - 1
  }

  datatype CivilDate = CivilDate(year: int, month: int, day: int)

  predicate ValidCivil(c: CivilDate) {
    1 <= c.month <= 12 && 1 <= c.day <= DaysInMonth(c.year, c.month)
  }

  /** Year and zero-based day of that year for the day `offset` days after
      the first of January of `year`, when offset >= 0. */
  function YearForward(year: int, offset: int): (r: (int, int))
    requires offset >= 0
    ensures 0 <= r.1 < DaysInYear(r.0)
    decreases offset
  {
    if offset < DaysInYear(year) then (year, offset)
    else YearForward(year + 1, offset - DaysInYear(year))
  }

  /** The same for offset < 0, counting back through the earlier years. */
  function YearBackward(year: int, offset: int): (r: (int, int))
    requires offset < 0
    ensures 0 <= r.1 < DaysInYear(r.0)
    decreases -offset
  {
    var earlier := offset + DaysInYear(year - 1);
    if earlier >= 0 then (year - 1, earlier) else YearBackward(year - 1, earlier)
  }

  /** Month and day of month for the zero-based day `rest` of year y,
      counted from the first of month m. */
  function MonthOf(y: int, m: int, rest: int): (r: (int, int))
    requires 1 <= m <= 12
    requires 0 <= rest < DaysInYear(y) - DaysBeforeMonth(y, m)
    ensures 1 <= r.0 <= 12 && 1 <= r.1 <= DaysInMonth(y, r.0)
    decreases 12 - m
  {
    if rest < DaysInMonth(y, m) then (m, rest + 1)
    else
      DaysBeforeLastMonth(y);
      DaysBeforeMonthStep(y, m);
      MonthOf(y, m + 1, rest - DaysInMonth(y, m))
  }

  /** The calendar date of a day number (`new Date(date)` read back with
      getFullYear, getMonth + 1 and getDate). */
  function CivilOf(date: int): (c: CivilDate)
    ensures ValidCivil(c)
  {
    var (y, dayOfYear) := if date >= 0 then YearForward(1970, date) else YearBackward(1970, date);
    var (m, d) := MonthOf(y, 1, dayOfYear);
    CivilDate(y, m, d)
  }

  /** Each year adds one leap day exactly when it is a leap year. */
  lemma LeapStep(y: int)
    ensures LeapsUpTo(y) - LeapsUpTo(y - 1) == if IsLeapYear(y) then 1 else 0
  {
    DivStep(y, 4);
    DivStep(y, 100);
    DivStep(y, 400);
  }

  /** Stepping a numerator by one moves the quotient exactly at multiples. */
  lemma DivStep(y: int, k: int)
    requires k > 0
    ensures y / k - (y - 1) / k == if y % k == 0 then 1 else 0
  {
    var q := (y - 1) / k;
    var r := (y - 1) % k;
    assert y - 1 == k * q + r && 0 <= r < k;
    if r == k - 1 {
      assert y == k * (q + 1);
      DivUnique(y, k, q + 1, 0);
    } else {
      assert y == k * q + (r + 1);
      DivUnique(y, k, q, r + 1);
    }
  }

  /** Euclidean division has a unique quotient and remainder. */
  lemma DivUnique(a: int, k: int, q: int, r: int)
    requires k > 0
    requires a == k * q + r && 0 <= r < k
    ensures a / k == q && a % k == r
  {
    var q', r' := a / k, a % k;
    assert a == k * q' + r' && 0 <= r' < k;
    assert k * (q - q') == r' - r;
    MulSign(k, q - q');
  }

  /** A nonzero multiple of k is at least k away from 0. */
  lemma MulSign(k: int, d: int)
    requires k > 0
    ensures d >= 1 ==> k * d >= k
    ensures d <= -1 ==> k * d <= -k
  {
    if d >= 1 {
      MulAtLeast(k, d);
    } else if d <= -1 {
      MulAtLeast(k, -d);
      assert k * d == -(k * -d);
    }
  }

  lemma MulAtLeast(k: int, d: int)
    requires k > 0 && d >= 1
    ensures k * d >= k
  {
    assert k * d == k * (d - 1) + k;
    if d > 1 {
      MulAtLeast(k, d - 1);
    }
  }

  lemma DaysBeforeYearStep(y: int)
    ensures DaysBeforeYear(y + 1) == DaysBeforeYear(y) + DaysInYear(y)
  {
    LeapStep(y);
  }

  lemma MonthFits(y: int, m: int)
    requires 1 <= m <= 12
    ensures DaysBeforeMonth(y, m) + DaysInMonth(y, m) <= DaysInYear(y)
  {
  }

  /** Counting forward from the first of January of `year` finds day k of
      a later year y. */
  lemma {:induction false} YearForwardFinds(year: int, y: int, k: int)
    requires year <= y && 0 <= k < DaysInYear(y)
    ensures DaysBeforeYear(y) - DaysBeforeYear(year) >= 0
    ensures YearForward(year, DaysBeforeYear(y) - DaysBeforeYear(year) + k) == (y, k)
    decreases y - year
  {
    if year < y {
      DaysBeforeYearStep(year);
      YearForwardFinds(year + 1, y, k);
    }
  }

  /** Counting back from the first of January of `year` finds day k of an
      earlier year y. */
  lemma {:induction false} YearBackwardFinds(year: int, y: int, k: int)
    requires y < year && 0 <= k < DaysInYear(y)
    ensures DaysBeforeYear(y) - DaysBeforeYear(year) + k < 0
    ensures YearBackward(year, DaysBeforeYear(y) - DaysBeforeYear(year) + k) == (y, k)
    decreases year - y
  {
    DaysBeforeYearStep(year - 1);
    if y < year - 1 {
      YearBackwardFinds(year - 1, y, k);
    }
  }

  /** Counting months from month m0 finds day d of a later month m. */
  lemma {:induction false} MonthOfFinds(y: int, m0: int, m: int, d: int)
    requires 1 <= m0 <= m <= 12 && 1 <= d <= DaysInMonth(y, m)
    ensures 0 <= DaysBeforeMonth(y, m) - DaysBeforeMonth(y, m0) + d - 1 < DaysInYear(y) - DaysBeforeMonth(y, m0)
    ensures MonthOf(y, m0, DaysBeforeMonth(y, m) - DaysBeforeMonth(y, m0) + d - 1) == (m, d)
    decreases m - m0
  {
    MonthFits(y, m);
    if m0 < m {
      DaysBeforeMonthStep(y, m0);
      MonthOfFinds(y, m0 + 1, m, d);
    }
  }

  /** `new Date(y, m - 1, d)` read back gives y, m and d again. */
  lemma CivilOfDayNumber(y: int, m: int, d: int)
    requires ValidCivil(CivilDate(y, m, d))
    ensures CivilOf(DayNumber(y, m, d)) == CivilDate(y, m, d)
  {
    var k := DaysBeforeMonth(y, m) + d - 1;
    var date := DayNumber(y, m, d);
    MonthFits(y, m);
    assert DaysBeforeYear(1970) == 0;
    assert date == DaysBeforeYear(y) - DaysBeforeYear(1970) + k;
    if y >= 1970 {
      YearForwardFinds(1970, y, k);
      assert date >= 0;
      assert YearForward(1970, date) == (y, k);
    } else {
      YearBackwardFinds(1970, y, k);
      assert date < 0;
      assert YearBackward(1970, date) == (y, k);
    }
    MonthOfFinds(y, 1, m, d);
    assert MonthOf(y, 1, k) == (m, d);
  }

  /** Two valid calendar dates with the same day number are the same date. */
  lemma DayNumberInjective(a: CivilDate, b: CivilDate)
    requires ValidCivil(a) && ValidCivil(b)
    requires DayNumber(a.year, a.month, a.day) == DayNumber(b.year, b.month, b.day)
    ensures a == b
  {
    CivilOfDayNumber(a.year, a.month, a.day);
    CivilOfDayNumber(b.year, b.month, b.day);
  }

  /** The day before the first of the next month is the last of this one. */
  lemma LastOfMonth(y: int, m: int)
    requires 1 <= m <= 12
    ensures DayNumber(y, m, DaysInMonth(y, m)) == FirstOfNextMonth(y, m) - 1
  {
    if m < 12 {
      DaysBeforeMonthStep(y, m);
    } else {
      DaysBeforeYearStep(y);
      DaysBeforeLastMonth(y);
    }
  }

  /** `new Date(y, m, 1)` with JavaScript's zero-based m: the first of the
      month after month m, in the next year after December. */
  function FirstOfNextMonth(y: int, m: int): int
    requires 1 <= m <= 12
  {
    if m == 12 then DayNumber(y + 1, 1, 1) else DayNumber(y, m + 1, 1)
  }

  /** The characters of date and number texts: digits and signs. */
  predicate DateText(s: string) {
    forall i :: 0 <= i < |s| ==> IsDigit(s[i]) || s[i] == '-' || s[i] == '+'
  }

  /** Only decimal digits. */
  predicate DigitText(s: string) {
    forall i :: 0 <= i < |s| ==> IsDigit(s[i])
  }

  lemma DateTextConcat(a: string, b: string)
    requires DateText(a) && DateText(b)
    ensures DateText(a + b)
  {
    forall i | 0 <= i < |a + b| ensures IsDigit((a + b)[i]) || (a + b)[i] == '-' || (a + b)[i] == '+' {
      if i >= |a| {
        assert (a + b)[i] == b[i - |a|];
      }
    }
  }

  /** `padStart(w, '0')` on a digit string. */
  function PadZeros(s: string, w: nat): (r: string)
    ensures |r| == if |s| >= w then |s| else w
    ensures DigitText(s) ==> DigitText(r)
  {
    if |s| >= w then s else seq(w - |s|, _ => '0') + s
  }

  /** Leading zeros do not change the value of a digit string. */
  lemma {:induction false} ParseZeros(k: nat, s: string)
    requires DigitText(s)
    ensures DigitText(seq(k, _ => '0') + s)
    ensures ParseDigits(seq(k, _ => '0') + s) == ParseDigits(s)
    decreases |s|, k
  {
    var z := seq(k, _ => '0');
    if s == [] {
      assert z + s == z;
      if k > 0 {
        assert z[..k - 1] == seq(k - 1, _ => '0') + [];
        ParseZeros(k - 1, []);
      }
    } else {
      var u := s[..|s| - 1];
      assert (z + s)[..|z + s| - 1] == z + u;
      ParseZeros(k, u);
    }
  }

  /** The zero-padded text of n reads back as n. */
  lemma ParsePadded(n: nat, w: nat)
    ensures DigitText(PadZeros(NatToString(n), w))
    ensures ParseDigits(PadZeros(NatToString(n), w)) == n
  {
    var s := NatToString(n);
    ParseNatToString(n);
    if |s| < w {
      ParseZeros(w - |s|, s);
    }
  }

  function Pow10(k: nat): nat {
    if k == 0 then 1 else 10 * Pow10(k - 1)
  }

  /** A number below 10^k has at most k digits. */
  lemma {:induction false} ShortDigits(n: nat, k: nat)
    requires 1 <= k && n < Pow10(k)
    ensures |NatToString(n)| <= k
  {
    if n >= 10 {
      assert k >= 2;
      ShortDigits(n / 10, k - 1);
    }
  }

  /** `String(n).padStart(2, '0')`. */
  function PaddedNumber(n: nat): (s: string)
    ensures DigitText(s) && |s| >= 2
    ensures n < 100 ==> |s| == 2
    ensures s == PadZeros(NatToString(n), 2)
  {
    assert n < 100 ==> |NatToString(n)| <= 2 by {
      if n < 100 {
        ShortDigits(n, 2);
      }
    }
    PadTwo(NatToString(n))
  }

  /** The year as `toISOString` writes it: four digits for the years 0 to
      9999, otherwise a sign followed by at least six digits. */
  function YearText(y: int): (s: string)
    ensures DateText(s) && |s| >= 4
    ensures 0 <= y <= 9999 ==> |s| == 4 && DigitText(s)
  {
    if 0 <= y <= 9999 then
      ShortDigits(y, 4);
      PadZeros(NatToString(y), 4)
    else if y > 9999 then "+" + PadZeros(NatToString(y), 6)
    else "-" + PadZeros(NatToString(-y), 6)
  }

  /** Two years with the same text are the same year. */
  lemma YearTextInjective(a: int, b: int)
    requires YearText(a) == YearText(b)
    ensures a == b
  {
    YearTextReadsBack(a);
    YearTextReadsBack(b);
  }

  /** The first character tells the three forms apart, and the digits after
      it read back as the year's magnitude. */
  lemma YearTextReadsBack(y: int)
    ensures var s := YearText(y);
      (0 <= y <= 9999 ==> IsDigit(s[0]) && ParseDigits(s) == y) &&
      (y > 9999 ==> s[0] == '+' && DigitText(s[1..]) && ParseDigits(s[1..]) == y) &&
      (y < 0 ==> s[0] == '-' && DigitText(s[1..]) && ParseDigits(s[1..]) == -y)
  {
    var s := YearText(y);
    if 0 <= y <= 9999 {
      ParsePadded(y, 4);
    } else if y > 9999 {
      ParsePadded(y, 6);
      assert s[1..] == PadZeros(NatToString(y), 6);
    } else {
      ParsePadded(-y, 6);
      assert s[1..] == PadZeros(NatToString(-y), 6);
    }
  }

  /** `toISOString().split('T')[0]` for a calendar date: the year, a dash,
      the month in two digits, a dash and the day in two digits. */
  function FormatCivil(year: int, month: nat, day: nat): (s: string)
    ensures DateText(s)
  {
    var y := YearText(year);
    DateTextConcat(y, "-");
    DateTextConcat(y + "-", PaddedNumber(month));
    DateTextConcat(y + "-" + PaddedNumber(month), "-");
    DateTextConcat(y + "-" + PaddedNumber(month) + "-", PaddedNumber(day));
    y + "-" + PaddedNumber(month) + "-" + PaddedNumber(day)
  }

  /** The fields of a `YYYY-MM-DD` text, read from its end. */
  function YearField(s: string): string
    requires |s| >= 6
  { s[..|s| - 6] }

  function MonthField(s: string): string
    requires |s| >= 6
  { s[|s| - 5..|s| - 3] }

  function DayField(s: string): string
    requires |s| >= 6
  { s[|s| - 2..] }

  /** The text of a date with month and day below 100 is the year text, a
      dash, two month digits, a dash and two day digits, and its fields
      read back as the year, the month and the day. */
  lemma FormatCivilReadsBack(year: int, month: nat, day: nat)
    requires month < 100 && day < 100
    ensures var s := FormatCivil(year, month, day);
      |s| == |YearText(year)| + 6 && YearField(s) == YearText(year) &&
      s[|s| - 6] == '-' && s[|s| - 3] == '-' &&
      DigitText(MonthField(s)) && ParseDigits(MonthField(s)) == month &&
      DigitText(DayField(s)) && ParseDigits(DayField(s)) == day
  {
    var y, mm, dd := YearText(year), PaddedNumber(month), PaddedNumber(day);
    var s := FormatCivil(year, month, day);
    assert s == y + "-" + mm + "-" + dd;
    assert YearField(s) == y;
    assert MonthField(s) == mm;
    assert DayField(s) == dd;
    ParsePadded(month, 2);
    ParsePadded(day, 2);
  }

  /** Two calendar dates with the same text are the same date. */
  lemma FormatCivilInjective(a: CivilDate, b: CivilDate)
    requires 1 <= a.month <= 12 && 1 <= a.day <= 31
    requires 1 <= b.month <= 12 && 1 <= b.day <= 31
    requires FormatCivil(a.year, a.month, a.day) == FormatCivil(b.year, b.month, b.day)
    ensures a == b
  {
    var s := FormatCivil(a.year, a.month, a.day);
    FormatCivilReadsBack(a.year, a.month, a.day);
    FormatCivilReadsBack(b.year, b.month, b.day);
    assert YearText(a.year) == YearField(s) == YearText(b.year);
    YearTextInjective(a.year, b.year);
    assert a.month == ParseDigits(MonthField(s)) == b.month;
    assert a.day == ParseDigits(DayField(s)) == b.day;
  }

  /** The `YYYY-MM-DD` text of a day number, as the records store it. */
  function FormatDate(date: int): (s: string)
    ensures DateText(s) && |s| >= 10
    ensures 0 <= CivilOf(date).year <= 9999 ==> |s| == 10 && s[4] == '-' && s[7] == '-'
  {
    var c := CivilOf(date);
    FormatCivilReadsBack(c.year, c.month, c.day);
    FormatCivil(c.year, c.month, c.day)
  }

  /** The text of a day number reads back as its calendar date: the year
      text, then the month and the day in two digits each. */
  lemma FormatDateReadsBack(date: int)
    ensures var s, c := FormatDate(date), CivilOf(date);
      YearField(s) == YearText(c.year) && s[|s| - 6] == '-' && s[|s| - 3] == '-' &&
      DigitText(MonthField(s)) && ParseDigits(MonthField(s)) == c.month &&
      DigitText(DayField(s)) && ParseDigits(DayField(s)) == c.day
  {
    var c := CivilOf(date);
    FormatCivilReadsBack(c.year, c.month, c.day);
  }

  /** Distinct days have distinct texts, so a record found by its date text
      is the record of that day. */
  lemma FormatDateInjective(a: int, b: int)
    requires FormatDate(a) == FormatDate(b)
    ensures a == b
  {
    FormatCivilInjective(CivilOf(a), CivilOf(b));
    DayNumberOfCivil(a);
    DayNumberOfCivil(b);
  }

  /** Counting forward from the first of January of `year` by `offset` days
      lands `offset` days later. */
  lemma {:induction false} YearForwardOffset(year: int, offset: int)
    requires offset >= 0
    ensures DaysBeforeYear(YearForward(year, offset).0) - DaysBeforeYear(year) + YearForward(year, offset).1 == offset
    decreases offset
  {
    if offset >= DaysInYear(year) {
      DaysBeforeYearStep(year);
      YearForwardOffset(year + 1, offset - DaysInYear(year));
    }
  }

  /** The same counting back. */
  lemma {:induction false} YearBackwardOffset(year: int, offset: int)
    requires offset < 0
    ensures DaysBeforeYear(YearBackward(year, offset).0) - DaysBeforeYear(year) + YearBackward(year, offset).1 == offset
    decreases -offset
  {
    DaysBeforeYearStep(year - 1);
    var earlier := offset + DaysInYear(year - 1);
    var r := YearBackward(year, offset);
    if earlier < 0 {
      YearBackwardOffset(year - 1, earlier);
      ShiftBack(DaysBeforeYear(r.0), DaysBeforeYear(year - 1), DaysBeforeYear(year), r.1, earlier, offset, DaysInYear(year - 1));
    }
  }

  /** Counting months from month m by `rest` days lands `rest` days later. */
  lemma {:induction false} MonthOfOffset(y: int, m: int, rest: int)
    requires 1 <= m <= 12
    requires 0 <= rest < DaysInYear(y) - DaysBeforeMonth(y, m)
    ensures DaysBeforeMonth(y, MonthOf(y, m, rest).0) - DaysBeforeMonth(y, m) + MonthOf(y, m, rest).1 - 1 == rest
    decreases 12 - m
  {
    if rest >= DaysInMonth(y, m) {
      DaysBeforeLastMonth(y);
      DaysBeforeMonthStep(y, m);
      MonthOfOffset(y, m + 1, rest - DaysInMonth(y, m));
    }
  }

  /** Moving the starting point back by k days moves the offset by k. */
  lemma ShiftBack(target: int, before: int, start: int, rest: int, earlier: int, offset: int, k: int)
    requires target - before + rest == earlier
    requires start == before + k && earlier == offset + k
    ensures target - start + rest == offset
  {
  }

  /** The calendar date of a day number has that day number. */
  lemma DayNumberOfCivil(date: int)
    ensures DayNumber(CivilOf(date).year, CivilOf(date).month, CivilOf(date).day) == date
  {
    var (y, k) := if date >= 0 then YearForward(1970, date) else YearBackward(1970, date);
    if date >= 0 {
      YearForwardOffset(1970, date);
    } else {
      YearBackwardOffset(1970, date);
    }
    assert DaysBeforeYear(1970) == 0;
    MonthOfOffset(y, 1, k);
  }

  /** Distinct day numbers have distinct calendar dates. */
  lemma CivilOfInjective(a: int, b: int)
    requires CivilOf(a) == CivilOf(b)
    ensures a == b
  {
    DayNumberOfCivil(a);
    DayNumberOfCivil(b);
  }
}
