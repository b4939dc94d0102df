/** The calendar arithmetic behind JavaScript's `Date` in a fixed time zone
    (section 21.4.1 of ECMA-262): instants are milliseconds on the zone's
    local timeline, day 0 is 1970-01-01, the calendar is the proleptic
    Gregorian one, months are numbered 0..11 as `getMonth()` returns them.
    The setters `setMonth`, `setDate` and `setHours` and the `dateformat`
    patterns the exporter uses are defined on top of it. */
module Calendar {
  import opened Strings

  const MsPerSecond: int := 1000
  const MsPerMinute: int := 60000
  const MsPerHour: int := 3600000
  const MsPerDay: int := 86400000

  // ---------------------------------------------------------------------------
  // Years and months
  // ---------------------------------------------------------------------------

  predicate IsLeapYear(y: int) {
    y % 4 == 0 && (y % 100 != 0 || y % 400 == 0)
  }

  function DaysInYear(y: int): int {
    if IsLeapYear(y) then 366 else 365
  }

  /** Days in month `m` (0 = January) of year `y`. */
  function DaysInMonth(y: int, m: int): (n: int)
    requires 0 <= m < 12
    ensures 28 <= n <= 31
  {
    if m == 1 then (if IsLeapYear(y) then 29 else 28)
    else if m == 3 || m == 5 || m == 8 || m == 10 then 30
    else 31
  }

  /** Days of year `y` before the first of month `m`; `m == 12` gives the whole year. */
  function DaysBeforeMonth(y: int, m: int): int
    requires 0 <= m <= 12
  {
    (if IsLeapYear(y) && m >= 2 then 1 else 0) +
    (if m == 0 then 0 else if m == 1 then 31 else if m == 2 then 59
     else if m == 3 then 90 else if m == 4 then 120 else if m == 5 then 151
     else if m == 6 then 181 else if m == 7 then 212 else if m == 8 then 243
     else if m == 9 then 273 else if m == 10 then 304 else if m == 11 then 334
     else 365)
  }

  lemma {:induction false} DaysBeforeMonthStep(y: int, m: int)
    requires 0 <= m < 12
    ensures DaysBeforeMonth(y, m + 1) == DaysBeforeMonth(y, m) + DaysInMonth(y, m)
    ensures DaysBeforeMonth(y, 12) == DaysInYear(y)
  {
  }

  lemma {:induction false} DaysBeforeMonthMonotone(y: int, a: int, b: int)
    requires 0 <= a <= b <= 12
    ensures DaysBeforeMonth(y, a) <= DaysBeforeMonth(y, b)
    decreases b - a
  {
    if a < b {
      DaysBeforeMonthStep(y, a);
      DaysBeforeMonthMonotone(y, a + 1, b);
    }
  }

  /** Days from 1970-01-01 to the first of January of `y` (negative before 1970). */
  function DaysBeforeYear(y: int): int
    decreases if y >= 1970 then y - 1970 else 1970 - y
  {
    if y == 1970 then 0
    else if y > 1970 then DaysBeforeYear(y - 1) + DaysInYear(y - 1)
    else DaysBeforeYear(y + 1) - DaysInYear(y)
  }

  lemma {:induction false} DaysBeforeYearStep(y: int)
    ensures DaysBeforeYear(y + 1) == DaysBeforeYear(y) + DaysInYear(y)
  {
  }

  lemma {:induction false} DaysBeforeYearMonotone(a: int, b: int)
    requires a <= b
    ensures DaysBeforeYear(a) <= DaysBeforeYear(b)
    decreases b - a
  {
    if a < b {
      DaysBeforeYearStep(a);
      DaysBeforeYearMonotone(a + 1, b);
    }
  }

  /** Leap years before year `y` counted from year 1 (for `y >= 1`). */
  function LeapYearsBefore(y: int): int {
    (y - 1) / 4 - (y - 1) / 100 + (y - 1) / 400
  }

  lemma {:induction false} LeapYearsStep(y: int)
    ensures LeapYearsBefore(y + 1) == LeapYearsBefore(y) + if IsLeapYear(y) then 1 else 0
  {
    CenturyDivisibleBy4(y);
    QuadCenturyDivisibleBy100(y);
    QuotientStep4(y);
    QuotientStep100(y);
    QuotientStep400(y);
  }

  lemma {:induction false} CenturyDivisibleBy4(y: int)
    ensures y % 100 == 0 ==> y % 4 == 0
  {
    if y % 100 == 0 {
      assert y == 4 * (25 * (y / 100));
    }
  }

  lemma {:induction false} QuadCenturyDivisibleBy100(y: int)
    ensures y % 400 == 0 ==> y % 100 == 0
  {
    if y % 400 == 0 {
      assert y == 100 * (4 * (y / 400));
    }
  }

  lemma {:induction false} QuotientStep4(y: int)
    ensures y / 4 - (y - 1) / 4 == if y % 4 == 0 then 1 else 0
  {
  }

  lemma {:induction false} QuotientStep100(y: int)
    ensures y / 100 - (y - 1) / 100 == if y % 100 == 0 then 1 else 0
  {
  }

  lemma {:induction false} QuotientStep400(y: int)
    ensures y / 400 - (y - 1) / 400 == if y % 400 == 0 then 1 else 0
  {
  }

  /** The closed form of `DaysBeforeYear` from 1970 on. */
  lemma {:induction false} DaysBeforeYearClosed(y: int)
    requires y >= 1970
    ensures DaysBeforeYear(y) == 365 * (y - 1970) + LeapYearsBefore(y) - LeapYearsBefore(1970)
    decreases y - 1970
  {
    if y > 1970 {
      DaysBeforeYearClosed(y - 1);
      LeapYearsStep(y - 1);
    }
  }

  // ---------------------------------------------------------------------------
  // Calendar dates and day numbers
  // ---------------------------------------------------------------------------

  /** A calendar date: `month` as `getMonth()` (0..11), `day` as `getDate()`. */
  datatype Date = Date(year: int, month: int, day: int)

  predicate ValidDate(d: Date) {
    0 <= d.month < 12 && 1 <= d.day <= DaysInMonth(d.year, d.month)
  }

  /** ECMAScript's MakeDay: the day number of day `date` of month `month` of
      `year`, where `month` may lie outside 0..11 and `date` outside the
      month (both overflow into the following or preceding months). */
  function MakeDay(year: int, month: int, date: int): int {
    var y := year + month / 12;
    var m := month % 12;
    DaysBeforeYear(y) + DaysBeforeMonth(y, m) + date - 1
  }

  lemma {:induction false} MakeDayInYear(y: int, m: int, date: int)
    requires 0 <= m < 12
    ensures MakeDay(y, m, date) == DaysBeforeYear(y) + DaysBeforeMonth(y, m) + date - 1
  {
    assert m / 12 == 0 && m % 12 == m;
  }

  /** `MakeDay` only sees the month modulo 12, the rest moves the year. */
  lemma {:induction false} MakeDayNormal(y: int, month: int, date: int)
    ensures MakeDay(y, month, date) == MakeDay(y + month / 12, month % 12, date)
  {
    MakeDayInYear(y + month / 12, month % 12, date);
  }

  /** The year that contains day `n`, searching upwards from `y`. */
  function YearUpFrom(n: int, y: int): (r: int)
    requires DaysBeforeYear(y) <= n
    ensures DaysBeforeYear(r) <= n < DaysBeforeYear(r + 1)
    decreases n - DaysBeforeYear(y)
  {
    DaysBeforeYearStep(y);
    if n < DaysBeforeYear(y + 1) then y else YearUpFrom(n, y + 1)
  }

  /** The year that contains day `n`, searching downwards from `y`. */
  function YearDownFrom(n: int, y: int): (r: int)
    requires n < DaysBeforeYear(y + 1)
    ensures DaysBeforeYear(r) <= n < DaysBeforeYear(r + 1)
    decreases DaysBeforeYear(y + 1) - n
  {
    DaysBeforeYearStep(y);
    if DaysBeforeYear(y) <= n then y else YearDownFrom(n, y - 1)
  }

  function YearOfDay(n: int): (r: int)
    ensures DaysBeforeYear(r) <= n < DaysBeforeYear(r + 1)
  {
    if n >= 0 then YearUpFrom(n, 1970) else YearDownFrom(n, 1969)
  }

  /** The month of year `y` that contains day `o` of the year (counted from 0). */
  function MonthFrom(y: int, o: int, m: int): (r: int)
    requires 0 <= m < 12 && DaysBeforeMonth(y, m) <= o < DaysBeforeMonth(y, 12)
    ensures m <= r < 12 && DaysBeforeMonth(y, r) <= o < DaysBeforeMonth(y, r + 1)
    decreases 12 - m
  {
    if o < DaysBeforeMonth(y, m + 1) then m else MonthFrom(y, o, m + 1)
  }

  /** The calendar date of day number `n`. */
  function CivilFromDays(n: int): (d: Date)
    ensures 0 <= d.month < 12 && 1 <= d.day <= 31
  {
    var y := YearOfDay(n);
    DaysBeforeYearStep(y);
    DaysBeforeMonthStep(y, 11);
    var o := n - DaysBeforeYear(y);
    var m := MonthFrom(y, o, 0);
    DaysBeforeMonthStep(y, m);
    Date(y, m, o - DaysBeforeMonth(y, m) + 1)
  }

  /** `CivilFromDays` gives a valid date, and `MakeDay` numbers it `n`. */
  lemma {:induction false} CivilFromDaysValid(n: int)
    ensures var d := CivilFromDays(n); ValidDate(d) && MakeDay(d.year, d.month, d.day) == n
  {
    var y := YearOfDay(n);
    DaysBeforeYearStep(y);
    DaysBeforeMonthStep(y, 11);
    var o := n - DaysBeforeYear(y);
    var m := MonthFrom(y, o, 0);
    var d := CivilFromDays(n);
    assert d == Date(y, m, o - DaysBeforeMonth(y, m) + 1);
    CivilParts(n, d.year, d.month, d.day);
  }

  /** The day `day` of month `m` of year `y` whose offset in the year falls
      into that month is a valid date numbered `n`. */
  lemma {:induction false} CivilParts(n: int, y: int, m: int, day: int)
    requires 0 <= m < 12 && DaysBeforeMonth(y, m) <= n - DaysBeforeYear(y) < DaysBeforeMonth(y, m + 1)
    requires day == n - DaysBeforeYear(y) - DaysBeforeMonth(y, m) + 1
    ensures ValidDate(Date(y, m, day)) && MakeDay(y, m, day) == n
  {
    DaysBeforeMonthStep(y, m);
    MakeDayInYear(y, m, day);
  }

  /** Only one year contains a given day. */
  lemma {:induction false} YearUnique(n: int, y: int, z: int)
    requires DaysBeforeYear(y) <= n < DaysBeforeYear(y + 1)
    requires DaysBeforeYear(z) <= n < DaysBeforeYear(z + 1)
    ensures y == z
  {
    if y < z { DaysBeforeYearMonotone(y + 1, z); }
    if z < y { DaysBeforeYearMonotone(z + 1, y); }
  }

  /** Only one month of a year contains a given day of that year. */
  lemma {:induction false} MonthUnique(y: int, o: int, m: int, k: int)
    requires 0 <= m < 12 && 0 <= k < 12
    requires DaysBeforeMonth(y, m) <= o < DaysBeforeMonth(y, m + 1)
    requires DaysBeforeMonth(y, k) <= o < DaysBeforeMonth(y, k + 1)
    ensures m == k
  {
    if m < k { DaysBeforeMonthMonotone(y, m + 1, k); }
    if k < m { DaysBeforeMonthMonotone(y, k + 1, m); }
  }

  /** The day number of a valid date lies in that date's year. */
  lemma {:induction false} DayInYear(d: Date)
    requires ValidDate(d)
    ensures DaysBeforeYear(d.year) <= MakeDay(d.year, d.month, d.day) < DaysBeforeYear(d.year + 1)
  {
    MakeDayInYear(d.year, d.month, d.day);
    DaysBeforeMonthStep(d.year, d.month);
    DaysBeforeMonthMonotone(d.year, d.month + 1, 12);
    DaysBeforeYearStep(d.year);
  }

  /** `MonthFrom` finds the one month that contains day `o` of the year. */
  lemma {:induction false} MonthFromUnique(y: int, o: int, k: int)
    requires 0 <= k < 12 && DaysBeforeMonth(y, k) <= o < DaysBeforeMonth(y, k + 1)
    ensures DaysBeforeMonth(y, 0) <= o < DaysBeforeMonth(y, 12)
    ensures MonthFrom(y, o, 0) == k
  {
    DaysBeforeMonthMonotone(y, 0, k);
    DaysBeforeMonthMonotone(y, k + 1, 12);
    MonthUnique(y, o, k, MonthFrom(y, o, 0));
  }

  /** Day numbers and valid calendar dates are in one-to-one correspondence. */
  lemma {:induction false} CivilOfMakeDay(d: Date)
    requires ValidDate(d)
    ensures CivilFromDays(MakeDay(d.year, d.month, d.day)) == d
  {
    var n := MakeDay(d.year, d.month, d.day);
    DayInYear(d);
    YearUnique(n, d.year, YearOfDay(n));
    MakeDayInYear(d.year, d.month, d.day);
    DaysBeforeMonthStep(d.year, d.month);
    MonthFromUnique(d.year, n - DaysBeforeYear(d.year), d.month);
  }

  // ---------------------------------------------------------------------------
  // Instants
  // ---------------------------------------------------------------------------

  /** ECMAScript's Day(t). */
  function Day(t: int): int {
    t / MsPerDay
  }

  /** ECMAScript's TimeWithinDay(t). */
  function TimeWithinDay(t: int): (ms: int)
    ensures 0 <= ms < MsPerDay
  {
    t % MsPerDay
  }

  /** ECMAScript's MakeDate. */
  function MakeDate(day: int, time: int): int {
    day * MsPerDay + time
  }

  /** ECMAScript's MakeTime. */
  function MakeTime(hour: int, min: int, sec: int, ms: int): int {
    hour * MsPerHour + min * MsPerMinute + sec * MsPerSecond + ms
  }

  lemma {:induction false} MakeDateParts(day: int, time: int)
    requires 0 <= time < MsPerDay
    ensures Day(MakeDate(day, time)) == day && TimeWithinDay(MakeDate(day, time)) == time
  {
  }

  lemma {:induction false} InstantParts(t: int)
    ensures MakeDate(Day(t), TimeWithinDay(t)) == t
  {
  }

  /** `getFullYear()`, `getMonth()` and `getDate()` together. */
  function DateOf(t: int): (d: Date)
    ensures 0 <= d.month < 12 && 1 <= d.day <= 31
  {
    CivilFromDays(Day(t))
  }

  /** The date of `t` is valid, and `MakeDay` numbers it `Day(t)`. */
  lemma {:induction false} DateOfValid(t: int)
    ensures var d := DateOf(t); ValidDate(d) && MakeDay(d.year, d.month, d.day) == Day(t)
  {
    CivilFromDaysValid(Day(t));
  }

  function HoursOf(t: int): int { TimeWithinDay(t) / MsPerHour }
  function MinutesOf(t: int): int { TimeWithinDay(t) / MsPerMinute % 60 }
  function SecondsOf(t: int): int { TimeWithinDay(t) / MsPerSecond % 60 }
  function MillisecondsOf(t: int): int { TimeWithinDay(t) % MsPerSecond }

  /** Hours, minutes, seconds and milliseconds add up to 0 exactly at midnight. */
  lemma {:induction false} StartOfDayIff(t: int)
    ensures HoursOf(t) + MinutesOf(t) + SecondsOf(t) + MillisecondsOf(t) == 0
        <==> TimeWithinDay(t) == 0
  {
    var ms := TimeWithinDay(t);
    if HoursOf(t) + MinutesOf(t) + SecondsOf(t) + MillisecondsOf(t) == 0 {
      assert ms / MsPerHour == 0 && ms / MsPerMinute % 60 == 0;
      assert ms < MsPerHour;
      assert ms / MsPerMinute < 60;
      assert ms / MsPerMinute == 0;
      assert ms / MsPerSecond % 60 == 0 && ms / MsPerSecond < 60;
      assert ms / MsPerSecond == 0;
    }
  }

  /** `t.setMonth(month)`. */
  function SetMonth(t: int, month: int): int {
    var d := DateOf(t);
    MakeDate(MakeDay(d.year, month, d.day), TimeWithinDay(t))
  }

  /** `t.setDate(date)`. */
  function SetDate(t: int, date: int): int {
    var d := DateOf(t);
    MakeDate(MakeDay(d.year, d.month, date), TimeWithinDay(t))
  }

  /** `t.setHours(hour, min, sec, ms)`. */
  function SetHours(t: int, hour: int, min: int, sec: int, ms: int): int {
    MakeDate(Day(t), MakeTime(hour, min, sec, ms))
  }

  /** `setDate(getDate() + delta)` moves by whole days and keeps the time of day. */
  lemma {:induction false} SetDateBy(t: int, delta: int)
    ensures SetDate(t, DateOf(t).day + delta) == t + delta * MsPerDay
  {
    var d := DateOf(t);
    DateOfValid(t);
    MakeDayInYear(d.year, d.month, d.day);
    MakeDayInYear(d.year, d.month, d.day + delta);
  }

  /** The day number of the last day of the month that contains `t`. */
  function LastDayOfMonth(t: int): int {
    var d := DateOf(t);
    MakeDay(d.year, d.month, DaysInMonth(d.year, d.month))
  }

  /** The day number of the first day of the month that contains `t`. */
  function FirstDayOfMonth(t: int): int {
    var d := DateOf(t);
    MakeDay(d.year, d.month, 1)
  }

  /** The month of `t` spans the days `FirstDayOfMonth(t)..LastDayOfMonth(t)`,
      fewer than 31 apart, and `t`'s own day is among them. */
  lemma {:induction false} MonthBounds(t: int)
    ensures FirstDayOfMonth(t) <= Day(t) <= LastDayOfMonth(t)
    ensures LastDayOfMonth(t) - FirstDayOfMonth(t) < 31
    ensures LastDayOfMonth(t) - FirstDayOfMonth(t) == DaysInMonth(DateOf(t).year, DateOf(t).month) - 1
  {
    var d := DateOf(t);
    DateOfValid(t);
    MakeDayInYear(d.year, d.month, d.day);
    MakeDayInYear(d.year, d.month, 1);
    MakeDayInYear(d.year, d.month, DaysInMonth(d.year, d.month));
  }

  /** Each day of the month of `t` has the year and month of `t`. */
  lemma {:induction false} DayOfMonth(t: int, n: int)
    requires FirstDayOfMonth(t) <= n <= LastDayOfMonth(t)
    ensures CivilFromDays(n) == Date(DateOf(t).year, DateOf(t).month, n - FirstDayOfMonth(t) + 1)
  {
    var d := DateOf(t);
    var k := n - FirstDayOfMonth(t) + 1;
    DateOfValid(t);
    MakeDayInYear(d.year, d.month, 1);
    MakeDayInYear(d.year, d.month, DaysInMonth(d.year, d.month));
    MakeDayInYear(d.year, d.month, k);
    CivilAt(Date(d.year, d.month, k), n);
  }

  /** `CivilOfMakeDay` for a day number given by name. */
  lemma {:induction false} CivilAt(d: Date, n: int)
    requires ValidDate(d) && n == MakeDay(d.year, d.month, d.day)
    ensures CivilFromDays(n) == d
  {
    CivilOfMakeDay(d);
  }

  /** The day after the last day of month `m` is the first of the next month. */
  lemma {:induction false} NextMonthFirst(y: int, m: int)
    requires 0 <= m < 12
    ensures MakeDay(y, m, DaysInMonth(y, m)) + 1 ==
              if m < 11 then MakeDay(y, m + 1, 1) else MakeDay(y + 1, 0, 1)
  {
    MakeDayInYear(y, m, DaysInMonth(y, m));
    DaysBeforeMonthStep(y, m);
    if m < 11 {
      MakeDayInYear(y, m + 1, 1);
    } else {
      DaysBeforeYearStep(y);
      MakeDayInYear(y + 1, 0, 1);
    }
  }

  /** The day `n` after the last day of month `m` of year `y` lies in another month. */
  lemma {:induction false} MonthAfterLast(y: int, m: int, n: int)
    requires 0 <= m < 12 && n == MakeDay(y, m, DaysInMonth(y, m)) + 1
    ensures CivilFromDays(n).month != m
  {
    NextMonthFirst(y, m);
    if m < 11 {
      CivilOfMakeDay(Date(y, m + 1, 1));
    } else {
      CivilOfMakeDay(Date(y + 1, 0, 1));
    }
  }

  /** The day after the last day of the month of `t` lies in another month. */
  lemma {:induction false} DayAfterMonth(t: int)
    ensures CivilFromDays(LastDayOfMonth(t) + 1).month != DateOf(t).month
  {
    MonthAfterLast(DateOf(t).year, DateOf(t).month, LastDayOfMonth(t) + 1);
  }

  // ---------------------------------------------------------------------------
  // dateformat patterns
  // ---------------------------------------------------------------------------

  /** Year, month and day as `yyyy-mm-dd`. */
  function YmdText(year: int, month: int, day: int): string {
    Pad(year, 4) + "-" + Pad(month, 2) + "-" + Pad(day, 2)
  }

  /** The `yyyy-mm-dd` text of a calendar date (months written from 1). */
  function DateText(d: Date): string {
    YmdText(d.year, d.month + 1, d.day)
  }

  /** `dateFormat(t, 'yyyy-mm-dd')`. */
  function FormatYmd(t: int): string {
    DateText(DateOf(t))
  }

  /** The `dd.mm.yyyy` text of a calendar date (months written from 1). */
  function DmyText(d: Date): string {
    Pad(d.day, 2) + "." + Pad(d.month + 1, 2) + "." + Pad(d.year, 4)
  }

  /** `dateFormat(t, 'dd.mm.yyyy')`. */
  function FormatDmy(t: int): string {
    DmyText(DateOf(t))
  }

  /** For a four-digit year, `dd.mm.yyyy` is ten characters with points at
      positions 2 and 5 and digit fields that read back as the day, the
      month counted from 1 and the year. */
  lemma {:induction false} DmyTextFields(d: Date)
    requires 0 <= d.year < 10000 && 0 <= d.month < 12 && 1 <= d.day <= 31
    ensures var s := DmyText(d);
      && |s| == 10 && s[2] == '.' && s[5] == '.'
      && AllDigits(s[..2], 10) && DigitsValue(s[..2], 10) == d.day
      && AllDigits(s[3..5], 10) && DigitsValue(s[3..5], 10) == d.month + 1
      && AllDigits(s[6..], 10) && DigitsValue(s[6..], 10) == d.year
  {
    assert Pow10(2) == 100 && Pow10(4) == 10000;
    PadDigits(d.day, 2);
    PadDigits(d.month + 1, 2);
    PadDigits(d.year, 4);
    DottedFields(Pad(d.day, 2), Pad(d.month + 1, 2), Pad(d.year, 4));
  }

  /** The fields of a `dd.mm.yyyy` layout sit at fixed positions. */
  lemma {:induction false} DottedFields(dd: string, mm: string, yyyy: string)
    requires |dd| == 2 && |mm| == 2 && |yyyy| == 4
    ensures var s := dd + "." + mm + "." + yyyy;
      && |s| == 10 && s[2] == '.' && s[5] == '.' && s[..2] == dd && s[3..5] == mm && s[6..] == yyyy
  {
    var s := dd + "." + mm + "." + yyyy;
    assert s[..2] == dd;
    assert s[3..5] == mm;
    assert s[6..] == yyyy;
  }

  /** `dateFormat(t, 'yyyy-mm-dd HH:MM:ss')`. */
  function FormatYmdHms(t: int): string {
    FormatYmd(t) + " " + Pad(HoursOf(t), 2) + ":" + Pad(MinutesOf(t), 2) + ":" + Pad(SecondsOf(t), 2)
  }

  /** Four-digit, two-digit and two-digit fields joined by `-` identify
      their numbers. */
  lemma {:induction false} YmdFieldsInjective(y: nat, m: nat, d: nat, y': nat, m': nat, d': nat)
    requires y < 10000 && y' < 10000 && m < 100 && m' < 100 && d < 100 && d' < 100
    ensures YmdText(y, m, d) == YmdText(y', m', d') <==> y == y' && m == m' && d == d'
  {
    var ya, ma, da := Pad(y, 4), Pad(m, 2), Pad(d, 2);
    var yb, mb, db := Pad(y', 4), Pad(m', 2), Pad(d', 2);
    assert |ya| == |yb| && (ya == yb <==> y == y') by { PadFourDigits(y, y'); PadFourDigits(y', y); }
    assert |ma| == |mb| && (ma == mb <==> m == m') by { PadTwoDigits(m, m'); PadTwoDigits(m', m); }
    assert |da| == |db| && (da == db <==> d == d') by { PadTwoDigits(d, d'); PadTwoDigits(d', d); }
    FieldsInjective(ya, ma, da, yb, mb, db, '-');
  }

  /** For four-digit years the `yyyy-mm-dd` text identifies the date. */
  lemma {:induction false} DateTextInjective(a: Date, b: Date)
    requires 0 <= a.year < 10000 && 0 <= a.month < 12 && 0 <= a.day < 100
    requires 0 <= b.year < 10000 && 0 <= b.month < 12 && 0 <= b.day < 100
    ensures DateText(a) == DateText(b) <==> a == b
  {
    var ta, tb := DateText(a), DateText(b);
    assert ta == tb <==> a.year == b.year && a.month + 1 == b.month + 1 && a.day == b.day by {
      YmdFieldsInjective(a.year, a.month + 1, a.day, b.year, b.month + 1, b.day);
    }
  }

  /** For four-digit years the `yyyy-mm-dd` form identifies the calendar date. */
  lemma {:induction false} FormatYmdInjective(s: int, t: int)
    requires 0 <= DateOf(s).year < 10000 && 0 <= DateOf(t).year < 10000
    ensures FormatYmd(s) == FormatYmd(t) <==> DateOf(s) == DateOf(t)
  {
    DateTextInjective(DateOf(s), DateOf(t));
  }
}
