/** The export-period calculator: from the last checkpoint, the number of
    months to reach back on a first run and the current instant, the period
    `[startDate, endDate]` of whole days to export next.  Instants are
    milliseconds since 1970-01-01T00:00:00.000 in the configured zone. The
    clock (`new Date()`) is a parameter: the start and the end each read it
    once, so a period takes two readings, `nowStart` and `nowEnd`. */
module TimeManager {
  import opened Wrappers
  import opened Calendar

  /** The two ways the calculator throws `'TimeManager Error'`. */
  datatype TimeError =
    | InvalidStartDate  // the start is not a local midnight
    | TryLater          // not even the start's own day has passed yet

  datatype Period = Period(startDate: int, endDate: int)

  // ---------------------------------------------------------------------------
  // Specification
  // ---------------------------------------------------------------------------

  /** The month (year, month 0..11) whose first day a first run starts from:
      `maxMonthsToExport` months before the month of `now`, or the month after
      that when the day of the month of `now` does not exist there (the date
      then overflows into the next month before `setDate(1)` is applied). */
  function FirstRunMonth(now: int, maxMonthsToExport: int): (ym: (int, int))
    ensures 0 <= ym.1 < 12
  {
    SetMonthTarget(DateOf(now), DateOf(now).month - maxMonthsToExport)
  }

  /** The month (year, month 0..11) `setMonth(month)` moves date `c` to: day
      `c.day` of the normalised month, which may overflow into the next. */
  function SetMonthTarget(c: Date, month: int): (ym: (int, int))
    ensures 0 <= ym.1 < 12
  {
    MonthOfDay(c.year + month / 12, month % 12, c.day)
  }

  /** The month (year, month) day `day` of month `m` of year `y` falls in:
      that month when it has so many days, else the following one. */
  function MonthOfDay(y: int, m: int, day: int): (ym: (int, int))
    requires 0 <= m < 12
    ensures 0 <= ym.1 < 12
  {
    if day <= DaysInMonth(y, m) then (y, m)
    else if m < 11 then (y, m + 1)
    else (y + 1, 0)
  }

  /** Months are counted as `12 * year + month`. */
  function MonthIndex(year: int, month: int): int {
    12 * year + month
  }

  /** The start of the next period: the millisecond after the checkpoint
      when there is one (it must be a midnight), else midnight of the first
      day of `FirstRunMonth`. */
  function ExportStartDate(lastExportTime: int, maxMonthsToExport: int, now: int): Result<int, TimeError> {
    if lastExportTime != 0 then
      if TimeWithinDay(lastExportTime + 1) == 0 then Ok(lastExportTime + 1) else Err(InvalidStartDate)
    else
      var ym := FirstRunMonth(now, maxMonthsToExport);
      Ok(MakeDate(MakeDay(ym.0, ym.1, 1), 0))
  }

  /** The end of the period that starts at `startDate`: the instant
      `startDate - 1` moved on by as many whole days as keep it before `now`
      and inside the month of `startDate`; a failure when that is still before
      `startDate`. */
  function ExportEndDate(startDate: int, now: int): Result<int, TimeError> {
    var first := startDate - 1;
    var time := TimeWithinDay(first);
    ClampedEnd(startDate, Day(first), time, (now - time - 1) / MsPerDay, LastDayOfMonth(startDate))
  }

  /** The instant at `time` of the last day that is at most `lastPast` and
      `lastInMonth` but not before `firstDay`; a failure when that is before
      `startDate`. */
  function ClampedEnd(startDate: int, firstDay: int, time: int, lastPast: int, lastInMonth: int): Result<int, TimeError> {
    var bound := if lastPast < lastInMonth then lastPast else lastInMonth;
    var day := if bound < firstDay then firstDay else bound;
    var endDate := MakeDate(day, time);
    if endDate < startDate then Err(TryLater) else Ok(endDate)
  }

  /** The period from the start computed at clock reading `nowStart` and
      the end computed from that start at the later reading `nowEnd`. */
  function ExportPeriod(lastExportTime: int, maxMonthsToExport: int, nowStart: int, nowEnd: int): Result<Period, TimeError> {
    var startDate :- ExportStartDate(lastExportTime, maxMonthsToExport, nowStart);
    var endDate :- ExportEndDate(startDate, nowEnd);
    Ok(Period(startDate, endDate))
  }

  // ---------------------------------------------------------------------------
  // The calculator
  // ---------------------------------------------------------------------------

  /** `buildExportPeriod(lastExportTime, maxMonthsToExport)`, where
      `buildExportStartDate` reads the clock as `nowStart` and
      `buildExportEndDate` reads it as `nowEnd`. */
  method BuildExportPeriod(lastExportTime: int, maxMonthsToExport: int, nowStart: int, nowEnd: int)
    returns (r: Result<Period, TimeError>)
    ensures r == ExportPeriod(lastExportTime, maxMonthsToExport, nowStart, nowEnd)
  {
    var startDate :- BuildExportStartDate(lastExportTime, maxMonthsToExport, nowStart);
    var endDate :- BuildExportEndDate(startDate, nowEnd);
    return Ok(Period(startDate, endDate));
  }

  /** `buildExportStartDate`: the setter chain on a copy of `now`, then the
      midnight check. */
  method BuildExportStartDate(lastExportTime: int, maxMonthsToExport: int, now: int)
    returns (r: Result<int, TimeError>)
    ensures r == ExportStartDate(lastExportTime, maxMonthsToExport, now)
  {
    var startDate: int;
    if lastExportTime != 0 {
      startDate := lastExportTime + 1;
    } else {
      startDate := now;
      startDate := SetMonth(startDate, DateOf(startDate).month - maxMonthsToExport);
      startDate := SetDate(startDate, 1);
      startDate := SetHours(startDate, 0, 0, 0, 0);
      FirstRunSetters(now, maxMonthsToExport);
      MakeDateParts(MakeDay(FirstRunMonth(now, maxMonthsToExport).0, FirstRunMonth(now, maxMonthsToExport).1, 1), 0);
    }
    var isStartOfTheDay :=
      HoursOf(startDate) + MinutesOf(startDate) + SecondsOf(startDate) + MillisecondsOf(startDate) == 0;
    StartOfDayIff(startDate);
    if !isStartOfTheDay {
      return Err(InvalidStartDate);
    }
    return Ok(startDate);
  }

  /** `buildExportEndDate`: step `startDate - 1` one day at a time while the
      result is before `now` and in the month of `startDate`, step back once,
      then refuse a result before `startDate`.  The loop leaves the month after
      at most 31 steps. */
  method BuildExportEndDate(startDate: int, now: int) returns (r: Result<int, TimeError>)
    ensures r == ExportEndDate(startDate, now)
  {
    var endDate := startDate - 1;
    ghost var firstDay, time := Day(endDate), TimeWithinDay(endDate);
    ghost var lastPast := (now - time - 1) / MsPerDay;
    ghost var lastInMonth := LastDayOfMonth(startDate);
    StartBounds(startDate);
    while true
      invariant endDate == MakeDate(Day(endDate), time)
      invariant firstDay <= Day(endDate) <= lastInMonth
      invariant Day(endDate) > firstDay ==> Day(endDate) <= lastPast
      decreases lastInMonth - Day(endDate)
    {
      ghost var previous := endDate;
      endDate := SetDate(endDate, DateOf(endDate).day + 1);
      var isDateInThePast := endDate < now;
      var isDateInTheSameMonth := DateOf(endDate).month == DateOf(startDate).month;
      assert && endDate == previous + MsPerDay && Day(endDate) == Day(previous) + 1
             && endDate == MakeDate(Day(endDate), time)
             && (isDateInThePast <==> Day(endDate) <= lastPast)
             && (isDateInTheSameMonth <==> Day(endDate) <= lastInMonth) by {
        NextDay(startDate, previous, time, now);
      }
      if !isDateInThePast || !isDateInTheSameMonth {
        SetDateBy(endDate, -1);
        assert SetDate(endDate, DateOf(endDate).day - 1) == previous;
        endDate := SetDate(endDate, DateOf(endDate).day - 1);
        LoopExit(startDate, now, endDate);
        break;
      }
    }
    if endDate < startDate {
      return Err(TryLater);
    }
    return Ok(endDate);
  }

  // ---------------------------------------------------------------------------
  // What the period promises
  // ---------------------------------------------------------------------------

  /** A start fails exactly when a checkpoint is given and the millisecond
      after it is not a midnight; every start that is returned is a midnight,
      and after a checkpoint it is the millisecond after it. */
  lemma {:induction false} StartDateCases(lastExportTime: int, maxMonthsToExport: int, now: int)
    ensures var r := ExportStartDate(lastExportTime, maxMonthsToExport, now);
      && (r.Err? <==> lastExportTime != 0 && TimeWithinDay(lastExportTime + 1) != 0)
      && (r.Err? ==> r.error == InvalidStartDate)
      && (r.Ok? ==> TimeWithinDay(r.value) == 0)
      && (r.Ok? && lastExportTime != 0 ==> r.value == lastExportTime + 1)
  {
    var ym := FirstRunMonth(now, maxMonthsToExport);
    MakeDateParts(MakeDay(ym.0, ym.1, 1), 0);
  }

  /** `MonthOfDay` moves on by one month exactly on overflow. */
  lemma {:induction false} MonthOfDayIndex(y: int, m: int, day: int)
    requires 0 <= m < 12
    ensures var ym := MonthOfDay(y, m, day);
      MonthIndex(ym.0, ym.1) == MonthIndex(y, m) + (if day > DaysInMonth(y, m) then 1 else 0)
  {
  }

  /** `SetMonthTarget` is `month` months after the start of the year of `c`,
      one more on overflow. */
  lemma {:induction false} SetMonthTargetIndex(c: Date, month: int)
    ensures var ym := SetMonthTarget(c, month);
      var overflow := c.day > DaysInMonth(c.year + month / 12, month % 12);
      MonthIndex(ym.0, ym.1) == 12 * c.year + month + (if overflow then 1 else 0)
  {
    var y, m := c.year + month / 12, month % 12;
    MonthOfDayIndex(y, m, c.day);
    assert 12 * y + m == 12 * c.year + month;
  }

  /** The first-run month is `maxMonthsToExport` months back, one less on
      overflow. */
  lemma {:induction false} FirstRunMonthIndex(now: int, maxMonthsToExport: int)
    ensures var c, ym := DateOf(now), FirstRunMonth(now, maxMonthsToExport);
      var k := maxMonthsToExport;
      var overflow := c.day > DaysInMonth(c.year + (c.month - k) / 12, (c.month - k) % 12);
      MonthIndex(ym.0, ym.1) == MonthIndex(c.year, c.month) - k + (if overflow then 1 else 0)
  {
    SetMonthTargetIndex(DateOf(now), DateOf(now).month - maxMonthsToExport);
  }

  /** A first run starts at midnight of day 1 of the month `maxMonthsToExport`
      months before the month of `now`, or of the month after that when the
      day of the month of `now` does not exist in that month. */
  lemma {:induction false} FirstRunStart(maxMonthsToExport: int, now: int)
    ensures ExportStartDate(0, maxMonthsToExport, now).Ok?
    ensures var s, c := ExportStartDate(0, maxMonthsToExport, now).value, DateOf(now);
      var k := maxMonthsToExport;
      var overflow := c.day > DaysInMonth(c.year + (c.month - k) / 12, (c.month - k) % 12);
      && TimeWithinDay(s) == 0
      && DateOf(s).day == 1
      && MonthIndex(DateOf(s).year, DateOf(s).month) == MonthIndex(c.year, c.month) - k + (if overflow then 1 else 0)
  {
    var ym := FirstRunMonth(now, maxMonthsToExport);
    MakeDateParts(MakeDay(ym.0, ym.1, 1), 0);
    CivilOfMakeDay(Date(ym.0, ym.1, 1));
    FirstRunMonthIndex(now, maxMonthsToExport);
  }

  /** For a start at midnight the end is the end of the last day that is
      both over before `now` and in the month of the start, or a failure
      when that day is before the start's own day. */
  lemma {:induction false} MidnightEndDate(startDate: int, now: int)
    requires TimeWithinDay(startDate) == 0
    ensures var lastPast, lastInMonth := (now - MsPerDay) / MsPerDay, LastDayOfMonth(startDate);
      var day := if lastPast < lastInMonth then lastPast else lastInMonth;
      ExportEndDate(startDate, now) ==
        if day < Day(startDate) then Err(TryLater) else Ok(MakeDate(day, MsPerDay - 1))
  {
    PreviousInstant(startDate);
    MonthBounds(startDate);
  }

  /** For a start at midnight the end fails exactly when the start's own day
      is not over before `now`. */
  lemma {:induction false} TryLaterIff(startDate: int, now: int)
    requires TimeWithinDay(startDate) == 0
    ensures ExportEndDate(startDate, now).Err? <==> !(startDate + MsPerDay - 1 < now)
    ensures ExportEndDate(startDate, now).Err? ==> ExportEndDate(startDate, now).error == TryLater
  {
    MidnightEndDate(startDate, now);
    MonthBounds(startDate);
    PastIff(Day(startDate), MsPerDay - 1, now);
  }

  /** The day a successful end for a midnight start falls on, and its time. */
  lemma {:induction false} EndDateDay(startDate: int, now: int)
    requires TimeWithinDay(startDate) == 0 && ExportEndDate(startDate, now).Ok?
    ensures var e := ExportEndDate(startDate, now).value;
      && TimeWithinDay(e) == MsPerDay - 1
      && Day(startDate) <= Day(e) <= LastDayOfMonth(startDate)
      && Day(e) <= (now - MsPerDay) / MsPerDay
      && (Day(e) == LastDayOfMonth(startDate) || Day(e) == (now - MsPerDay) / MsPerDay)
  {
    MidnightEndDate(startDate, now);
    var lastPast, lastInMonth := (now - MsPerDay) / MsPerDay, LastDayOfMonth(startDate);
    var day := if lastPast < lastInMonth then lastPast else lastInMonth;
    MakeDateParts(day, MsPerDay - 1);
  }

  /** A successful end for a midnight start is 23:59:59.999 of a day not
      before the start's own day, before `now`, and fewer than 31 days after
      the start. */
  lemma {:induction false} EndDateBounds(startDate: int, now: int)
    requires TimeWithinDay(startDate) == 0 && ExportEndDate(startDate, now).Ok?
    ensures var e := ExportEndDate(startDate, now).value;
      && TimeWithinDay(e) == MsPerDay - 1
      && startDate <= e < now
      && Day(e) - Day(startDate) < 31
  {
    var e := ExportEndDate(startDate, now).value;
    EndDateDay(startDate, now);
    InstantParts(e);
    InstantParts(startDate);
    PastIff(Day(e), MsPerDay - 1, now);
    MonthBounds(startDate);
  }

  /** A successful end for a midnight start lies in the start's month. */
  lemma {:induction false} EndDateInMonth(startDate: int, now: int)
    requires TimeWithinDay(startDate) == 0 && ExportEndDate(startDate, now).Ok?
    ensures var e := ExportEndDate(startDate, now).value;
      DateOf(e).year == DateOf(startDate).year && DateOf(e).month == DateOf(startDate).month
  {
    EndDateDay(startDate, now);
    MonthBounds(startDate);
    DayOfMonth(startDate, Day(ExportEndDate(startDate, now).value));
  }

  /** A successful end for a midnight start is maximal: the end of the next
      day is not before `now` or lies in another month. */
  lemma {:induction false} EndDateMaximal(startDate: int, now: int, e: int)
    requires TimeWithinDay(startDate) == 0 && ExportEndDate(startDate, now) == Ok(e)
    ensures e + MsPerDay >= now || DateOf(e + MsPerDay).month != DateOf(startDate).month
  {
    EndDateDay(startDate, now);
    NextEndOfDay(startDate, now, e);
  }

  /** The end of the day after the last day of the month, or after the last
      day that is over before `now`, is not a possible end. */
  lemma {:induction false} NextEndOfDay(startDate: int, now: int, e: int)
    requires TimeWithinDay(e) == MsPerDay - 1
    requires Day(e) == LastDayOfMonth(startDate) || Day(e) == (now - MsPerDay) / MsPerDay
    ensures e + MsPerDay >= now || DateOf(e + MsPerDay).month != DateOf(startDate).month
  {
    if Day(e) == LastDayOfMonth(startDate) {
      AfterLastDayOfMonth(startDate, e);
    } else {
      AfterLastPastDay(now, e);
    }
  }

  lemma {:induction false} AfterLastDayOfMonth(startDate: int, e: int)
    requires TimeWithinDay(e) == MsPerDay - 1 && Day(e) == LastDayOfMonth(startDate)
    ensures DateOf(e + MsPerDay).month != DateOf(startDate).month
  {
    assert Day(e + MsPerDay) == LastDayOfMonth(startDate) + 1 by {
      assert Day(e + MsPerDay) == Day(e) + 1;
    }
    DayAfterMonth(startDate);
  }

  lemma {:induction false} AfterLastPastDay(now: int, e: int)
    requires TimeWithinDay(e) == MsPerDay - 1 && Day(e) == (now - MsPerDay) / MsPerDay
    ensures e + MsPerDay >= now
  {
    InstantParts(e);
  }

  /** A returned period starts at a midnight, ends at 23:59:59.999 of a day
      of the same month that is over before the end's clock reading `nowEnd`,
      and is maximal. */
  lemma {:induction false} PeriodShape(lastExportTime: int, maxMonthsToExport: int, nowStart: int, nowEnd: int)
    requires ExportPeriod(lastExportTime, maxMonthsToExport, nowStart, nowEnd).Ok?
    ensures var p := ExportPeriod(lastExportTime, maxMonthsToExport, nowStart, nowEnd).value;
      && TimeWithinDay(p.startDate) == 0
      && TimeWithinDay(p.endDate) == MsPerDay - 1
      && p.startDate <= p.endDate < nowEnd
      && DateOf(p.endDate).year == DateOf(p.startDate).year
      && DateOf(p.endDate).month == DateOf(p.startDate).month
      && Day(p.endDate) - Day(p.startDate) < 31
      && (p.endDate + MsPerDay >= nowEnd || DateOf(p.endDate + MsPerDay).month != DateOf(p.startDate).month)
  {
    var p := ExportPeriod(lastExportTime, maxMonthsToExport, nowStart, nowEnd).value;
    PeriodParts(lastExportTime, maxMonthsToExport, nowStart, nowEnd);
    EndDateShape(p.startDate, nowEnd, p.endDate);
  }

  /** A returned period starts at a midnight and ends where `ExportEndDate`
      of that start says. */
  lemma {:induction false} PeriodParts(lastExportTime: int, maxMonthsToExport: int, nowStart: int, nowEnd: int)
    requires ExportPeriod(lastExportTime, maxMonthsToExport, nowStart, nowEnd).Ok?
    ensures var p := ExportPeriod(lastExportTime, maxMonthsToExport, nowStart, nowEnd).value;
      TimeWithinDay(p.startDate) == 0 && ExportEndDate(p.startDate, nowEnd) == Ok(p.endDate)
  {
    StartDateCases(lastExportTime, maxMonthsToExport, nowStart);
  }

  /** The shape of a successful end `e` for a midnight start. */
  lemma {:induction false} EndDateShape(startDate: int, now: int, e: int)
    requires TimeWithinDay(startDate) == 0 && ExportEndDate(startDate, now) == Ok(e)
    ensures && TimeWithinDay(e) == MsPerDay - 1
      && startDate <= e < now
      && DateOf(e).year == DateOf(startDate).year
      && DateOf(e).month == DateOf(startDate).month
      && Day(e) - Day(startDate) < 31
      && (e + MsPerDay >= now || DateOf(e + MsPerDay).month != DateOf(startDate).month)
  {
    EndDateBounds(startDate, now);
    EndDateInMonth(startDate, now);
    EndDateMaximal(startDate, now, e);
  }

  /** The errors of the whole calculation: an invalid start when the
      checkpoint is not the last millisecond of a day, "try later" when the
      start's own day is not over at the end's clock reading. */
  lemma {:induction false} PeriodErrors(lastExportTime: int, maxMonthsToExport: int, nowStart: int, nowEnd: int)
    ensures var r, s := ExportPeriod(lastExportTime, maxMonthsToExport, nowStart, nowEnd),
                        ExportStartDate(lastExportTime, maxMonthsToExport, nowStart);
      && (r == Err(InvalidStartDate) <==> s.Err?)
      && (r == Err(TryLater) <==> s.Ok? && !(s.value + MsPerDay - 1 < nowEnd))
      && (r.Ok? <==> s.Ok? && s.value + MsPerDay - 1 < nowEnd)
  {
    StartDateCases(lastExportTime, maxMonthsToExport, nowStart);
    var s := ExportStartDate(lastExportTime, maxMonthsToExport, nowStart);
    if s.Ok? {
      TryLaterIff(s.value, nowEnd);
    }
  }

  /** Writing the end of a period as the next checkpoint makes the next
      period start at the following midnight, whatever the clock says then. */
  lemma {:induction false} ResumeAfterPeriod(lastExportTime: int, maxMonthsToExport: int, nowStart: int, nowEnd: int, later: int)
    requires ExportPeriod(lastExportTime, maxMonthsToExport, nowStart, nowEnd).Ok?
    ensures var e := ExportPeriod(lastExportTime, maxMonthsToExport, nowStart, nowEnd).value.endDate;
      && e != 0
      && ExportStartDate(e, maxMonthsToExport, later) == Ok(e + 1)
      && Day(e + 1) == Day(e) + 1
  {
    var e := ExportPeriod(lastExportTime, maxMonthsToExport, nowStart, nowEnd).value.endDate;
    assert TimeWithinDay(e) == MsPerDay - 1 by {
      PeriodShape(lastExportTime, maxMonthsToExport, nowStart, nowEnd);
    }
    EndOfDay(e);
  }

  /** A first run on 15 March of any year at noon, reaching back two months,
      with both clock readings at that instant, exports 1 January
      00:00:00.000 to 31 January 23:59:59.999 of that year. */
  lemma {:induction false} FirstRunExample(y: int, now: int)
    requires now == MakeDate(MakeDay(y, 2, 15), 12 * MsPerHour)
    ensures ExportPeriod(0, 2, now, now) ==
      Ok(Period(MakeDate(MakeDay(y, 0, 1), 0), MakeDate(MakeDay(y, 0, 31), MsPerDay - 1)))
  {
    var s := MakeDate(MakeDay(y, 0, 1), 0);
    ExampleStart(y, now);
    ExampleEnd(y, s, now);
  }

  lemma {:induction false} ExampleStart(y: int, now: int)
    requires now == MakeDate(MakeDay(y, 2, 15), 12 * MsPerHour)
    ensures ExportStartDate(0, 2, now) == Ok(MakeDate(MakeDay(y, 0, 1), 0))
  {
    var c := Date(y, 2, 15);
    assert DateOf(now) == c by {
      MakeDateParts(MakeDay(y, 2, 15), 12 * MsPerHour);
      CivilOfMakeDay(c);
    }
    assert SetMonthTarget(c, 0) == (y, 0);
  }

  lemma {:induction false} ExampleEnd(y: int, s: int, now: int)
    requires s == MakeDate(MakeDay(y, 0, 1), 0)
    requires now == MakeDate(MakeDay(y, 2, 15), 12 * MsPerHour)
    ensures ExportEndDate(s, now) == Ok(MakeDate(MakeDay(y, 0, 31), MsPerDay - 1))
  {
    JanuaryMidnight(y, s);
    NoonDayBefore(MakeDay(y, 2, 15), now);
    JanuaryBeforeMarch(y);
    JanuaryLength(y);
    EndWithinFirstMonth(s, now, MakeDay(y, 0, DaysInMonth(y, 0)));
  }

  /** The two clock readings are not interchangeable. A first run reaching
      back one month reads 31 March 23:59:59.999 for the start: `setMonth`
      to February overflows into March, so the start is 1 March. When the end
      reads the clock one millisecond later, all of March is over and is
      exported; with both readings at 23:59:59.999 the period ends on
      30 March. */
  lemma {:induction false} ClockTickExample(y: int, nowStart: int, nowEnd: int)
    requires nowStart == MakeDate(MakeDay(y, 2, 31), MsPerDay - 1) && nowEnd == nowStart + 1
    ensures ExportPeriod(0, 1, nowStart, nowEnd) ==
      Ok(Period(MakeDate(MakeDay(y, 2, 1), 0), MakeDate(MakeDay(y, 2, 31), MsPerDay - 1)))
    ensures ExportPeriod(0, 1, nowStart, nowStart) ==
      Ok(Period(MakeDate(MakeDay(y, 2, 1), 0), MakeDate(MakeDay(y, 2, 30), MsPerDay - 1)))
  {
    var s := MakeDate(MakeDay(y, 2, 1), 0);
    TickStart(y, nowStart);
    MarchMidnight(y, s);
    MarchDays(y);
    TickEnds(s, MakeDay(y, 2, 31), nowStart, nowEnd);
  }

  lemma {:induction false} TickStart(y: int, now: int)
    requires now == MakeDate(MakeDay(y, 2, 31), MsPerDay - 1)
    ensures ExportStartDate(0, 1, now) == Ok(MakeDate(MakeDay(y, 2, 1), 0))
  {
    var c := Date(y, 2, 31);
    assert DateOf(now) == c by {
      MakeDateParts(MakeDay(y, 2, 31), MsPerDay - 1);
      CivilOfMakeDay(c);
    }
    assert SetMonthTarget(c, 1) == (y, 2);
  }

  lemma {:induction false} MarchMidnight(y: int, s: int)
    requires s == MakeDate(MakeDay(y, 2, 1), 0)
    ensures TimeWithinDay(s) == 0 && Day(s) == MakeDay(y, 2, 1)
    ensures LastDayOfMonth(s) == MakeDay(y, 2, 31)
  {
    MakeDateParts(MakeDay(y, 2, 1), 0);
    CivilOfMakeDay(Date(y, 2, 1));
    assert DaysInMonth(y, 2) == 31;
  }

  lemma {:induction false} MarchDays(y: int)
    ensures MakeDay(y, 2, 30) == MakeDay(y, 2, 31) - 1
    ensures MakeDay(y, 2, 1) <= MakeDay(y, 2, 30)
  {
    MakeDayInYear(y, 2, 1);
    MakeDayInYear(y, 2, 30);
    MakeDayInYear(y, 2, 31);
  }

  /** For a midnight start before the last day `last` of its month, the end
      read at 23:59:59.999 of `last` is the day before, and read one
      millisecond later it is `last`. */
  lemma {:induction false} TickEnds(s: int, last: int, a: int, b: int)
    requires TimeWithinDay(s) == 0 && LastDayOfMonth(s) == last && Day(s) <= last - 1
    requires a == MakeDate(last, MsPerDay - 1) && b == a + 1
    ensures ExportEndDate(s, a) == Ok(MakeDate(last - 1, MsPerDay - 1))
    ensures ExportEndDate(s, b) == Ok(MakeDate(last, MsPerDay - 1))
  {
    MidnightEndDate(s, a);
    MidnightEndDate(s, b);
    assert (a - MsPerDay) / MsPerDay == last - 1 by {
      assert a - MsPerDay == MakeDate(last - 1, MsPerDay - 1);
      MakeDateParts(last - 1, MsPerDay - 1);
    }
    assert (b - MsPerDay) / MsPerDay == last by {
      assert b - MsPerDay == MakeDate(last, 0);
      MakeDateParts(last, 0);
    }
  }

  lemma {:induction false} JanuaryMidnight(y: int, s: int)
    requires s == MakeDate(MakeDay(y, 0, 1), 0)
    ensures TimeWithinDay(s) == 0 && Day(s) == MakeDay(y, 0, 1)
    ensures LastDayOfMonth(s) == MakeDay(y, 0, DaysInMonth(y, 0))
  {
    MakeDateParts(MakeDay(y, 0, 1), 0);
    JanuaryDay(y, s);
  }

  lemma {:induction false} JanuaryDay(y: int, s: int)
    requires Day(s) == MakeDay(y, 0, 1)
    ensures LastDayOfMonth(s) == MakeDay(y, 0, DaysInMonth(y, 0))
  {
    CivilOfMakeDay(Date(y, 0, 1));
  }

  lemma {:induction false} NoonDayBefore(n: int, now: int)
    requires now == MakeDate(n, 12 * MsPerHour)
    ensures (now - MsPerDay) / MsPerDay == n - 1
  {
    assert now - MsPerDay == MakeDate(n - 1, 12 * MsPerHour);
    MakeDateParts(n - 1, 12 * MsPerHour);
  }

  /** A midnight start whose whole month is over before `now` ends at the
      end of the last day of that month. */
  lemma {:induction false} EndWithinFirstMonth(s: int, now: int, last: int)
    requires TimeWithinDay(s) == 0 && LastDayOfMonth(s) == last
    requires Day(s) <= last < (now - MsPerDay) / MsPerDay
    ensures ExportEndDate(s, now) == Ok(MakeDate(last, MsPerDay - 1))
  {
    MidnightEndDate(s, now);
  }

  lemma {:induction false} JanuaryLength(y: int)
    ensures MakeDay(y, 0, DaysInMonth(y, 0)) == MakeDay(y, 0, 31)
  {
    assert DaysInMonth(y, 0) == 31;
  }

  lemma {:induction false} JanuaryBeforeMarch(y: int)
    ensures MakeDay(y, 0, 1) <= MakeDay(y, 0, 31) < MakeDay(y, 2, 15) - 1
  {
    MakeDayInYear(y, 2, 15);
    MakeDayInYear(y, 0, 1);
    MakeDayInYear(y, 0, 31);
  }

  // ---------------------------------------------------------------------------
  // Calendar facts the calculator relies on
  // ---------------------------------------------------------------------------

  /** Where the loop stops, `ExportEndDate` stops: at the last day that keeps
      the time of day of `startDate - 1`, is before `now` and is in the month
      of `startDate`, or at `startDate - 1` itself. */
  lemma {:induction false} LoopExit(startDate: int, now: int, endDate: int)
    requires var time := TimeWithinDay(startDate - 1);
      && endDate == MakeDate(Day(endDate), time)
      && Day(startDate - 1) <= Day(endDate) <= LastDayOfMonth(startDate)
      && (Day(endDate) > Day(startDate - 1) ==> Day(endDate) <= (now - time - 1) / MsPerDay)
      && (Day(endDate) + 1 > (now - time - 1) / MsPerDay || Day(endDate) + 1 > LastDayOfMonth(startDate))
    ensures ExportEndDate(startDate, now) == if endDate < startDate then Err(TryLater) else Ok(endDate)
  {
    var time := TimeWithinDay(startDate - 1);
    ClampedEndAt(startDate, Day(startDate - 1), time, (now - time - 1) / MsPerDay, LastDayOfMonth(startDate), Day(endDate));
  }

  /** `ClampedEnd` stops at a day `d` from `firstDay` up to `lastInMonth` that
      is past (unless it is `firstDay`) and whose next day is not both past
      and in the month. */
  lemma {:induction false} ClampedEndAt(startDate: int, firstDay: int, time: int, lastPast: int, lastInMonth: int, d: int)
    requires firstDay <= d <= lastInMonth
    requires d > firstDay ==> d <= lastPast
    requires d + 1 > lastPast || d + 1 > lastInMonth
    ensures ClampedEnd(startDate, firstDay, time, lastPast, lastInMonth) ==
      if MakeDate(d, time) < startDate then Err(TryLater) else Ok(MakeDate(d, time))
  {
  }

  /** The millisecond after 23:59:59.999 is the next midnight. */
  lemma {:induction false} EndOfDay(t: int)
    requires TimeWithinDay(t) == MsPerDay - 1
    ensures t != 0 && TimeWithinDay(t + 1) == 0 && Day(t + 1) == Day(t) + 1
  {
    InstantParts(t);
    MakeDateParts(Day(t) + 1, 0);
    assert t + 1 == MakeDate(Day(t) + 1, 0);
  }

  /** The millisecond before `t`, split into day and time of day. */
  lemma {:induction false} PreviousInstant(t: int)
    ensures TimeWithinDay(t) == 0 ==> Day(t - 1) == Day(t) - 1 && TimeWithinDay(t - 1) == MsPerDay - 1
    ensures TimeWithinDay(t) != 0 ==> Day(t - 1) == Day(t) && TimeWithinDay(t - 1) == TimeWithinDay(t) - 1
  {
  }

  /** The day before `startDate - 1` still ends before the month of `startDate`
      starts, and `startDate - 1` is no later than its last day. */
  lemma {:induction false} StartBounds(startDate: int)
    ensures FirstDayOfMonth(startDate) - 1 <= Day(startDate - 1) <= LastDayOfMonth(startDate)
  {
    PreviousInstant(startDate);
    MonthBounds(startDate);
  }

  /** An instant at time of day `time` of day `day` is before `now` exactly
      when `day` is at most `(now - time - 1) / MsPerDay`. */
  lemma {:induction false} PastIff(day: int, time: int, now: int)
    requires 0 <= time < MsPerDay
    ensures MakeDate(day, time) < now <==> day <= (now - time - 1) / MsPerDay
  {
    var q := (now - time - 1) / MsPerDay;
    assert q * MsPerDay <= now - time - 1 < (q + 1) * MsPerDay;
    if day <= q {
      assert day * MsPerDay <= q * MsPerDay;
    } else {
      assert day * MsPerDay >= (q + 1) * MsPerDay;
    }
  }

  /** One step of the loop: `setDate(getDate() + 1)` moves to the same time of
      the next day, which is before `now` exactly up to day `lastPast` and in
      the month of `startDate` exactly up to its last day. */
  lemma {:induction false} NextDay(startDate: int, endDate: int, time: int, now: int)
    requires 0 <= time < MsPerDay && endDate == MakeDate(Day(endDate), time)
    requires FirstDayOfMonth(startDate) - 1 <= Day(endDate) <= LastDayOfMonth(startDate)
    ensures var next := SetDate(endDate, DateOf(endDate).day + 1);
      && next == endDate + MsPerDay
      && Day(next) == Day(endDate) + 1
      && next == MakeDate(Day(next), time)
      && (next < now <==> Day(next) <= (now - time - 1) / MsPerDay)
      && (DateOf(next).month == DateOf(startDate).month <==> Day(next) <= LastDayOfMonth(startDate))
  {
    var next := SetDate(endDate, DateOf(endDate).day + 1);
    assert next == endDate + MsPerDay by {
      SetDateBy(endDate, 1);
    }
    MakeDateParts(Day(endDate) + 1, time);
    PastIff(Day(next), time, now);
    SameMonthIff(startDate, next);
  }

  /** Between the first day of the month of `s` and the day after its last,
      the month number of `s` is kept exactly up to the last day. */
  lemma {:induction false} SameMonthIff(s: int, t: int)
    requires FirstDayOfMonth(s) <= Day(t) <= LastDayOfMonth(s) + 1
    ensures DateOf(t).month == DateOf(s).month <==> Day(t) <= LastDayOfMonth(s)
  {
    if Day(t) <= LastDayOfMonth(s) {
      DayOfMonth(s, Day(t));
    } else {
      DayAfterMonth(s);
    }
  }

  /** Day `day` (1..31) of month `m` of year `y` is in that month when the
      month has that many days, else in the following month. */
  lemma {:induction false} MonthOverflow(y: int, m: int, day: int)
    requires 0 <= m < 12 && 1 <= day <= 31
    ensures var c := CivilFromDays(MakeDay(y, m, day));
      (c.year, c.month) == MonthOfDay(y, m, day)
  {
    if day <= DaysInMonth(y, m) {
      CivilOfMakeDay(Date(y, m, day));
    } else {
      var over := day - DaysInMonth(y, m);
      var ny, nm := if m < 11 then y else y + 1, if m < 11 then m + 1 else 0;
      NextMonthFirst(y, m);
      MakeDayInYear(y, m, DaysInMonth(y, m));
      MakeDayInYear(y, m, day);
      MakeDayInYear(ny, nm, 1);
      MakeDayInYear(ny, nm, over);
      assert MakeDay(y, m, day) == MakeDay(ny, nm, over);
      CivilOfMakeDay(Date(ny, nm, over));
    }
  }

  /** `setMonth(month)` on a day numbered by `MakeDay` lands in `SetMonthTarget`. */
  lemma {:induction false} SetMonthCivil(c: Date, month: int)
    requires 1 <= c.day <= 31
    ensures var d := CivilFromDays(MakeDay(c.year, month, c.day));
      (d.year, d.month) == SetMonthTarget(c, month)
  {
    var y, m := c.year + month / 12, month % 12;
    assert MakeDay(c.year, month, c.day) == MakeDay(y, m, c.day) by {
      MakeDayNormal(c.year, month, c.day);
    }
    assert var d := CivilFromDays(MakeDay(y, m, c.day)); (d.year, d.month) == MonthOfDay(y, m, c.day) by {
      MonthOverflow(y, m, c.day);
    }
  }

  /** `t.setMonth(month)` lands in `SetMonthTarget` of the date of `t`. */
  lemma {:induction false} SetMonthLands(t: int, month: int)
    ensures var d := DateOf(SetMonth(t, month));
      (d.year, d.month) == SetMonthTarget(DateOf(t), month)
  {
    var c := DateOf(t);
    MakeDateParts(MakeDay(c.year, month, c.day), TimeWithinDay(t));
    SetMonthCivil(c, month);
  }

  /** `setDate(1)` then `setHours(0, 0, 0, 0)` give midnight of the first day
      of the month. */
  lemma {:induction false} FirstOfMonthMidnight(t: int)
    ensures SetHours(SetDate(t, 1), 0, 0, 0, 0) == MakeDate(MakeDay(DateOf(t).year, DateOf(t).month, 1), 0)
  {
    MakeDateParts(MakeDay(DateOf(t).year, DateOf(t).month, 1), TimeWithinDay(t));
  }

  /** The setter chain of a first run lands on midnight of the first day of
      `FirstRunMonth`. */
  lemma {:induction false} FirstRunSetters(now: int, k: int)
    ensures var ym := FirstRunMonth(now, k);
      SetHours(SetDate(SetMonth(now, DateOf(now).month - k), 1), 0, 0, 0, 0) == MakeDate(MakeDay(ym.0, ym.1, 1), 0)
  {
    var t, ym := SetMonth(now, DateOf(now).month - k), FirstRunMonth(now, k);
    assert (DateOf(t).year, DateOf(t).month) == ym by {
      SetMonthLands(now, DateOf(now).month - k);
    }
    assert SetHours(SetDate(t, 1), 0, 0, 0, 0) == MakeDate(MakeDay(DateOf(t).year, DateOf(t).month, 1), 0) by {
      FirstOfMonthMidnight(t);
    }
  }
}
