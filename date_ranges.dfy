/**
  The date ranges of the week and month reports (weather_log.py lines 96-132):
  the seven days from the Monday that `strptime` resolves for a `%W` week number,
  and the days of a month walked one at a time from the 1st to the day before the
  1st of the next month.
*/
module DateRanges {
  import opened Wrappers
  import opened Calendar

  /** The Python exception a range computation raises. */
  datatype RangeError = ValueError | OverflowError

  /**
    CPython's `_calc_julian_from_U_or_W` for `%W` week `w` and Monday: the 1-based day
    of the year (0 or less means the previous year) given `fw`, the weekday of
    1 January (Monday 0). Week 0 starts on the Monday on or before 1 January; week
    `w >= 1` starts `7 * (w - 1)` days after the year's first Monday.
  */
  function Julian(fw: int, w: int): int {
    if w == 0 then 1 - fw else 1 + (7 - fw) % 7 + 7 * (w - 1)
  }

  /** The day `Julian` names is a Monday. */
  lemma JulianIsMonday(fw: int, w: int)
    requires 0 <= fw < 7 && 0 <= w
    ensures (fw + Julian(fw, w) - 1) % 7 == 0
  {
    if w > 0 {
      if fw == 0 {
        ModSeven(w - 1, 0);
      } else {
        assert fw + Julian(fw, w) - 1 == 7 * w;
        ModSeven(w, 0);
      }
    }
  }

  /** Line 99's `strptime` result: day `Julian(fw, w)` of `year`, counted from 1 January. */
  function StrptimeMonday(year: int, w: int): (d: Date)
    requires 1000 <= year && 0 <= w <= 53
    ensures IsValidDate(d) && Weekday(d) == 0
    ensures Ordinal(d) == Ordinal(Date(year, 1, 1)) + Julian(Weekday(Date(year, 1, 1)), w) - 1
  {
    var jan1 := Date(year, 1, 1);
    var k := Julian(Weekday(jan1), w) - 1;
    WeekdayAddDays(jan1, k);
    JulianIsMonday(Weekday(jan1), w);
    AddDays(jan1, k)
  }

  /**
    Line 99: `datetime.strptime(f'{year}-W{week_number - 1}-1', "%Y-W%W-%w").date()`.
    `%Y` takes exactly four digits and `%W` a number from 0 to 53, so other years and
    week numbers raise `ValueError`, as does a Monday beyond year 9999.
  */
  function WeekStart(year: int, weekNumber: int): (r: Result<Date, RangeError>)
    ensures r.Success? <==> 1000 <= year <= MaxYear && 1 <= weekNumber <= 54
                            && StrptimeMonday(year, weekNumber - 1).year <= MaxYear
    ensures r.Success? ==> r.value == StrptimeMonday(year, weekNumber - 1)
    ensures r.Success? ==> InRange(r.value) && DayOfWeek(r.value) == 1
    ensures r.Failure? ==> r.error == ValueError
  {
    if !(1000 <= year <= MaxYear && 1 <= weekNumber <= 54) then Failure(ValueError)
    else
      var start := StrptimeMonday(year, weekNumber - 1);
      MondayIsDayOne(start);
      if start.year <= MaxYear then Success(start) else Failure(ValueError)
  }

  /**
    Reading back the week number: every day of the resolved week that lies in `year`
    has `strftime('%W')` equal to the week asked for, except week 0 of a year that
    begins on a Monday, which has no week 0 and resolves to week 1.
  */
  lemma StrptimeWeekRoundTrip(year: int, w: int, i: nat)
    requires 1000 <= year && 0 <= w <= 53 && i < 7
    requires AddDays(StrptimeMonday(year, w), i).year == year
    ensures WeekOfYear(AddDays(StrptimeMonday(year, w), i))
         == if w == 0 && Weekday(Date(year, 1, 1)) == 0 then 1 else w
  {
    var fw := Weekday(Date(year, 1, 1));
    var start := StrptimeMonday(year, w);
    var d := AddDays(start, i);
    MondayPlus(start, i);
    assert DayOfYear(d) == Julian(fw, w) - 1 + i;
    JulianWeekNumber(fw, w);
  }

  /** The `i`-th day after a Monday has weekday `i`, for `i` below 7. */
  lemma MondayPlus(monday: Date, i: nat)
    requires IsValidDate(monday) && Weekday(monday) == 0 && i < 7
    ensures Weekday(AddDays(monday, i)) == i
  {
    var d := AddDays(monday, i);
    WeekdayGap(monday, d);
    MondayShift(Weekday(monday), Ordinal(d) - Ordinal(monday));
  }

  lemma MondayShift(w: int, i: int)
    requires w == 0 && 0 <= i < 7
    ensures (w + i) % 7 == i
  {
  }

  lemma SmallRemainder(i: int)
    requires 0 <= i < 7
    ensures i % 7 == i
  {
  }

  lemma JulianWeekNumber(fw: int, w: int)
    requires 0 <= fw < 7 && 0 <= w
    ensures (Julian(fw, w) + 6) / 7 == if w == 0 && fw == 0 then 1 else w
    ensures Julian(fw, w + 1) - Julian(fw, w) == if w == 0 && fw == 0 then 0 else 7
  {
    if fw > 0 {
      assert (7 - fw) % 7 == 7 - fw;
    }
  }

  /**
    The starts of consecutive week numbers are a week apart, except that weeks 1 and 2
    of a year beginning on a Monday both resolve to 1 January.
  */
  lemma StrptimeWeeksApart(year: int, w: int)
    requires 1000 <= year && 0 <= w < 53
    ensures Ordinal(StrptimeMonday(year, w + 1))
         == Ordinal(StrptimeMonday(year, w)) + (if w == 0 && Weekday(Date(year, 1, 1)) == 0 then 0 else 7)
  {
    JulianWeekNumber(Weekday(Date(year, 1, 1)), w);
  }

  /** In a year that begins on a Monday, week numbers 1 and 2 give the same week. */
  lemma MondayYearRepeatsWeekOne(year: int)
    requires 1000 <= year <= MaxYear && Weekday(Date(year, 1, 1)) == 0
    ensures WeekStart(year, 1) == WeekStart(year, 2) == Success(Date(year, 1, 1))
  {
  }

  /** 1 January 2024 is a Monday, so week numbers 1 and 2 of 2024 both start on it. */
  lemma Weeks2024OneAndTwo()
    ensures WeekStart(2024, 1) == WeekStart(2024, 2) == Success(Date(2024, 1, 1))
  {
    NewYear2024IsMonday();
    MondayYearRepeatsWeekOne(2024);
  }

  lemma NewYear2024IsMonday()
    ensures Weekday(Date(2024, 1, 1)) == 0
  {
    DaysBefore2024();
    assert Ordinal(Date(2024, 1, 1)) == 738886;
  }

  lemma DaysBefore2024()
    ensures DaysBeforeYear(2024) == 738885
  {
    DaysBeforeYearClosedForm(2024);
  }

  /**
    The Monday that begins the `n`-th Monday-started week of `year`, counting the week
    that holds 1 January as week 1.
    */
  function NthMonday(year: int, n: int): (d: Date)
    requires 1000 <= year && 1 <= n
    ensures IsValidDate(d) && Weekday(d) == 0
    ensures Ordinal(d) == Ordinal(Date(year, 1, 1)) + 7 * (n - 1) - Weekday(Date(year, 1, 1))
  {
    var jan1 := Date(year, 1, 1);
    var k := 7 * (n - 1) - Weekday(jan1);
    WeekdayAddDays(jan1, k);
    ModSeven(n - 1, 0);
    AddDays(jan1, k)
  }

  /**
    The intended week start: week `n` is the `n`-th Monday-started week, counting the
    week that holds 1 January as week 1. Same accepted inputs as `WeekStart`.
  */
  function WeekStartFixed(year: int, weekNumber: int): (r: Result<Date, RangeError>)
    ensures r.Success? <==> 1000 <= year <= MaxYear && 1 <= weekNumber <= 54
                            && NthMonday(year, weekNumber).year <= MaxYear
    ensures r.Success? ==> r.value == NthMonday(year, weekNumber)
    ensures r.Success? ==> InRange(r.value) && DayOfWeek(r.value) == 1
    ensures r.Failure? ==> r.error == ValueError
  {
    if !(1000 <= year <= MaxYear && 1 <= weekNumber <= 54) then Failure(ValueError)
    else
      var start := NthMonday(year, weekNumber);
      MondayIsDayOne(start);
      if start.year <= MaxYear then Success(start) else Failure(ValueError)
  }

  /** Week 1 holds 1 January, and each next week number starts exactly seven days later. */
  lemma WeekStartFixedNumbering(year: int, n: int)
    requires 1000 <= year <= MaxYear && 1 <= n <= 54
    requires WeekStartFixed(year, n).Success?
    ensures n == 1 ==> var s := Ordinal(WeekStartFixed(year, 1).value);
                       s <= Ordinal(Date(year, 1, 1)) < s + 7
    ensures n < 54 && WeekStartFixed(year, n + 1).Success? ==>
              Ordinal(WeekStartFixed(year, n + 1).value) == Ordinal(WeekStartFixed(year, n).value) + 7
  {
  }

  /**
    The code as written agrees with the intended week start except in years that
    begin on a Monday, where its week `n >= 2` is the intended week `n - 1`.
  */
  lemma WeekStartVersusFixed(year: int, n: int)
    requires 1000 <= year <= MaxYear && 1 <= n <= 54
    ensures !(Weekday(Date(year, 1, 1)) == 0 && n >= 2) ==> WeekStart(year, n) == WeekStartFixed(year, n)
    ensures Weekday(Date(year, 1, 1)) == 0 && n >= 2 ==> WeekStart(year, n) == WeekStartFixed(year, n - 1)
  {
    var fw := Weekday(Date(year, 1, 1));
    SameMonday(year, n, if fw == 0 && n >= 2 then n - 1 else n);
  }

  lemma SameMonday(year: int, n: int, m: int)
    requires 1000 <= year && 1 <= n <= 54
    requires m == if Weekday(Date(year, 1, 1)) == 0 && n >= 2 then n - 1 else n
    ensures StrptimeMonday(year, n - 1) == NthMonday(year, m)
  {
    var fw := Weekday(Date(year, 1, 1));
    if fw > 0 {
      SmallRemainder(7 - fw);
    }
    var a, b := StrptimeMonday(year, n - 1), NthMonday(year, m);
    assert Ordinal(a) == Ordinal(b);
    OrdinalInjective(a, b);
  }

  /**
    Lines 99-102: the week report's dates. Line 100 computes `start + timedelta(days=6)`
    first, which raises `OverflowError` past year 9999; otherwise the seven dates
    `start + timedelta(n)` for `n in range(7)`.
  */
  function WeekDates(year: int, weekNumber: int): (r: Result<seq<Date>, RangeError>)
    ensures WeekStart(year, weekNumber).Failure? ==> r == Failure(WeekStart(year, weekNumber).error)
    ensures r.Success? <==> WeekStart(year, weekNumber).Success?
                            && AddDays(WeekStart(year, weekNumber).value, 6).year <= MaxYear
    ensures WeekStart(year, weekNumber).Success? && r.Failure? ==> r.error == OverflowError
    ensures r.Success? ==>
              && |r.value| == 7 && r.value[0] == WeekStart(year, weekNumber).value
              && DayOfWeek(r.value[0]) == 1
              && (forall i :: 0 <= i < 7 ==> InRange(r.value[i]))
              && (forall i :: 0 <= i < 6 ==> r.value[i + 1] == NextDay(r.value[i]))
              && Ordinal(r.value[6]) == Ordinal(r.value[0]) + 6
  {
    match WeekStart(year, weekNumber)
    case Failure(e) => Failure(e)
    case Success(start) =>
      if AddDays(start, 6).year > MaxYear then Failure(OverflowError)
      else
        ConsecutiveSteps(start, 7);
        ConsecutiveInRange(start, 7);
        Success(Consecutive(start, 7))
  }

  /** Week 1 of 2024 is 1 to 7 January 2024. */
  lemma FirstWeekOf2024()
    ensures WeekDates(2024, 1) == Success([Date(2024, 1, 1), Date(2024, 1, 2), Date(2024, 1, 3),
                                           Date(2024, 1, 4), Date(2024, 1, 5), Date(2024, 1, 6), Date(2024, 1, 7)])
  {
    FirstWeekOf2024Starts();
    SevenDaysFromNewYear2024(WeekDates(2024, 1).value);
  }

  lemma FirstWeekOf2024Starts()
    ensures WeekDates(2024, 1).Success? && WeekDates(2024, 1).value[0] == Date(2024, 1, 1)
  {
    Weeks2024OneAndTwo();
    var jan1 := Date(2024, 1, 1);
    OrdinalInjective(AddDays(jan1, 6), Date(2024, 1, 7));
  }

  lemma SevenDaysFromNewYear2024(r: seq<Date>)
    requires |r| == 7 && r[0] == Date(2024, 1, 1)
    requires forall i :: 0 <= i < 6 ==> IsValidDate(r[i]) && r[i + 1] == NextDay(r[i])
    ensures r == [Date(2024, 1, 1), Date(2024, 1, 2), Date(2024, 1, 3),
                  Date(2024, 1, 4), Date(2024, 1, 5), Date(2024, 1, 6), Date(2024, 1, 7)]
  {
    assert r[1] == NextDay(r[0]);
    assert r[2] == NextDay(r[1]);
    assert r[3] == NextDay(r[2]);
    assert r[4] == NextDay(r[3]);
    assert r[5] == NextDay(r[4]);
    assert r[6] == NextDay(r[5]);
  }

  /** The days of a month, 1st to last, in ascending order. */
  function MonthDays(year: int, month: int): (r: seq<Date>)
    requires 1 <= month <= 12
  {
    seq(DaysInMonth(year, month), i => Date(year, month, i + 1))
  }

  /** The days of a month are its length in consecutive dates from the 1st. */
  lemma MonthDaysConsecutive(year: int, month: int)
    requires 1 <= year && 1 <= month <= 12
    ensures MonthDays(year, month) == Consecutive(Date(year, month, 1), DaysInMonth(year, month))
    ensures |MonthDays(year, month)| == DaysInMonth(year, month)
    ensures forall i :: 0 <= i < |MonthDays(year, month)| - 1 ==>
              MonthDays(year, month)[i + 1] == NextDay(MonthDays(year, month)[i])
  {
    var m, c := MonthDays(year, month), Consecutive(Date(year, month, 1), DaysInMonth(year, month));
    forall i | 0 <= i < |m|
      ensures m[i] == c[i]
    {
      OrdinalInjective(m[i], c[i]);
    }
    ConsecutiveSteps(Date(year, month, 1), DaysInMonth(year, month));
  }

  /**
    The while loop of lines 121-132: from `first`, append the current date and add one
    day, for as long as the current date is not after `last`.
  */
  method WalkDays(first: Date, last: Date) returns (days: seq<Date>)
    requires IsValidDate(first) && IsValidDate(last)
    ensures days == Consecutive(first, if Ordinal(first) <= Ordinal(last) then Ordinal(last) - Ordinal(first) + 1 else 0)
  {
    OrdinalOrder(first, last);
    ghost var bound := if Ordinal(first) <= Ordinal(last) then Ordinal(last) - Ordinal(first) + 1 else 0;
    days := [];
    var current := first;
    while NotAfter(current, last)
      invariant IsValidDate(current) && Ordinal(current) == Ordinal(first) + |days|
      invariant |days| <= bound
      invariant CountsFrom(first, days)
      decreases Ordinal(last) - Ordinal(current) + 1
    {
      OrdinalOrder(current, last);
      days := days + [current];
      OrdinalNextDay(current);
      current := NextDay(current);
    }
    OrdinalOrder(current, last);
    CountsFromIsConsecutive(first, days);
  }

  /**
    Line 119: `datetime(year, month + 1, 1) - timedelta(days=1)`, which raises
    `ValueError` when `month + 1` is not a month.
  */
  function MonthEnd(year: int, month: int): (r: Result<Date, RangeError>)
    requires 1 <= year && 1 <= month <= 12
    ensures r.Success? <==> month < 12
    ensures r.Success? ==> r.value == Date(year, month, DaysInMonth(year, month))
  {
    if month + 1 > 12 then Failure(ValueError)
    else Success(PrevDay(Date(year, month + 1, 1)))
  }

  /** For December the code as written has no month end: `datetime(year, 13, 1)` raises. */
  lemma DecemberHasNoEnd(year: int)
    requires 1 <= year <= MaxYear
    ensures MonthEnd(year, 12) == Failure(ValueError)
  {
  }

  /** The intended month end: the last day of the month, December included. */
  function MonthEndFixed(year: int, month: int): (r: Date)
    requires 1 <= year && 1 <= month <= 12
    ensures IsValidDate(r) && r.year == year && r.month == month
    ensures NextDay(r).month != month
  {
    Date(year, month, DaysInMonth(year, month))
  }

  /**
    Lines 116-132, the month report's dates as written: `datetime(year, month, 1)`
    raises `ValueError` for a year outside 1..9999 or a month outside 1..12 (line 118),
    line 119 raises for December, and otherwise the loop visits every day of the month.
  */
  method MonthRange(year: int, month: int) returns (r: Result<seq<Date>, RangeError>)
    ensures r.Success? <==> 1 <= year <= MaxYear && 1 <= month <= 11
    ensures r.Failure? ==> r.error == ValueError
    ensures r.Success? ==> r.value == MonthDays(year, month)
  {
    if !(1 <= year <= MaxYear && 1 <= month <= 12) {
      return Failure(ValueError);
    }
    var first := Date(year, month, 1);
    var end := MonthEnd(year, month);
    if end.Failure? {
      return Failure(end.error);
    }
    var days := WalkDays(first, end.value);
    MonthDaysConsecutive(year, month);
    return Success(days);
  }

  /** The intended month report: every month of a representable year, December included. */
  method MonthRangeFixed(year: int, month: int) returns (r: Result<seq<Date>, RangeError>)
    ensures r.Success? <==> 1 <= year <= MaxYear && 1 <= month <= 12
    ensures r.Failure? ==> r.error == ValueError
    ensures r.Success? ==> r.value == MonthDays(year, month)
  {
    if !(1 <= year <= MaxYear && 1 <= month <= 12) {
      return Failure(ValueError);
    }
    var days := WalkDays(Date(year, month, 1), MonthEndFixed(year, month));
    MonthDaysConsecutive(year, month);
    return Success(days);
  }

  /**
    Month lengths: February has 29 days in 2024 and 28 in 2023, and December 2024
    has 31, the last being 31 December.
  */
  lemma MonthLengthExamples()
    ensures |MonthDays(2024, 2)| == 29 && |MonthDays(2023, 2)| == 28
    ensures |MonthDays(2024, 12)| == 31 && MonthDays(2024, 12)[30] == Date(2024, 12, 31)
  {
  }
}
