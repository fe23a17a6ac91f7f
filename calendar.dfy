/**
  The proleptic Gregorian calendar behind Python's `datetime.date`: validity, month
  lengths, the day after and before a date, the ordinal day count (0001-01-01 is day 1)
  and the weekday numberings used by `date.weekday()` and `strftime('%w')`.
  Years are unbounded here; `InRange` adds `datetime`'s limit of year 9999.
*/
module Calendar {

  datatype Date = Date(year: int, month: int, day: int)

  /** `datetime.MAXYEAR` */
  const MaxYear := 9999

  /** Gregorian leap-year rule. */
  predicate IsLeapYear(y: int) {
    y % 4 == 0 && (y % 100 != 0 || y % 400 == 0)
  }

  function DaysInMonth(y: int, m: int): (n: int)
    requires 1 <= m <= 12
    ensures 28 <= n <= 31
    ensures m == 2 ==> (n == 29 <==> IsLeapYear(y)) && (n == 28 <==> !IsLeapYear(y))
    ensures m != 2 ==> (n == 30 <==> m == 4 || m == 6 || m == 9 || m == 11)
  {
    if m == 2 then (if IsLeapYear(y) then 29 else 28)
    else if m == 4 || m == 6 || m == 9 || m == 11 then 30
    else 31
  }

  function DaysInYear(y: int): int {
    if IsLeapYear(y) then 366 else 365
  }

  /** A date of the unbounded proleptic Gregorian calendar, from year 1 on. */
  predicate IsValidDate(d: Date) {
    1 <= d.year && 1 <= d.month <= 12 && 1 <= d.day <= DaysInMonth(d.year, d.month)
  }

  /** A date that Python's `date` type can represent. */
  predicate InRange(d: Date) {
    IsValidDate(d) && d.year <= MaxYear
  }

  /** Python's comparison `a <= b` on dates: by year, then month, then day. */
  predicate NotAfter(a: Date, b: Date) {
    a.year < b.year || (a.year == b.year && (a.month < b.month || (a.month == b.month && a.day <= b.day)))
  }

  /** `d + timedelta(days=1)` */
  function NextDay(d: Date): (r: Date)
    requires IsValidDate(d)
    ensures IsValidDate(r) && NotAfter(d, r) && r != d
  {
    if d.day < DaysInMonth(d.year, d.month) then Date(d.year, d.month, d.day + 1)
    else if d.month < 12 then Date(d.year, d.month + 1, 1)
    else Date(d.year + 1, 1, 1)
  }

  /** `d - timedelta(days=1)`; 0001-01-01 has no predecessor. */
  function PrevDay(d: Date): (r: Date)
    requires IsValidDate(d) && d != Date(1, 1, 1)
    ensures IsValidDate(r) && NextDay(r) == d
  {
    if d.day > 1 then Date(d.year, d.month, d.day - 1)
    else if d.month > 1 then Date(d.year, d.month - 1, DaysInMonth(d.year, d.month - 1))
    else Date(d.year - 1, 12, 31)
  }

  /** Days in the years 1 .. y-1. */
  function DaysBeforeYear(y: int): (n: int)
    requires 1 <= y
    ensures n >= 365 * (y - 1)
  {
    if y == 1 then 0 else DaysBeforeYear(y - 1) + DaysInYear(y - 1)
  }

  /** Days in the months 1 .. m-1 of year y. */
  function DaysBeforeMonth(y: int, m: int): (n: int)
    requires 1 <= m <= 12
  {
    var common :=
      if m == 1 then 0 else if m == 2 then 31 else if m == 3 then 59
      else if m == 4 then 90 else if m == 5 then 120 else if m == 6 then 151
      else if m == 7 then 181 else if m == 8 then 212 else if m == 9 then 243
      else if m == 10 then 273 else if m == 11 then 304 else 334;
    if m > 2 && IsLeapYear(y) then common + 1 else common
  }

  /** `date.toordinal()`: 0001-01-01 is day 1. */
  function Ordinal(d: Date): (n: int)
    requires IsValidDate(d)
    ensures n >= 1
  {
    DaysBeforeYear(d.year) + DaysBeforeMonth(d.year, d.month) + d.day
  }

  /** `date.weekday()`: Monday is 0, Sunday is 6. */
  function Weekday(d: Date): (w: int)
    requires IsValidDate(d)
    ensures 0 <= w < 7
  {
    (Ordinal(d) + 6) % 7
  }

  /** `strftime('%w')`: Sunday is 0, Monday is 1, Saturday is 6. */
  function DayOfWeek(d: Date): (w: int)
    requires IsValidDate(d)
    ensures 0 <= w < 7
    ensures w == (Weekday(d) + 1) % 7
  {
    ShiftBySix(Ordinal(d));
    Ordinal(d) % 7
  }

  lemma ShiftBySix(n: int)
    ensures n % 7 == ((n + 6) % 7 + 1) % 7
  {
    var r := (n + 6) % 7;
    assert n + 6 == 7 * ((n + 6) / 7) + r;
    if r == 6 {
      assert n == 7 * ((n + 6) / 7);
    } else {
      assert n == 7 * ((n + 6) / 7 - 1) + (r + 1);
    }
  }

  lemma MondayIsDayOne(d: Date)
    requires IsValidDate(d) && Weekday(d) == 0
    ensures DayOfWeek(d) == 1
  {
  }

  /** Zero-based day of the year (`tm_yday`). */
  function DayOfYear(d: Date): int
    requires IsValidDate(d)
  {
    Ordinal(d) - Ordinal(Date(d.year, 1, 1))
  }

  /** `strftime('%W')`: weeks start on Monday; the days before the year's first Monday are week 0. */
  function WeekOfYear(d: Date): int
    requires IsValidDate(d)
  {
    (DayOfYear(d) + 7 - Weekday(d)) / 7
  }

  lemma QuotientStep(p: int)
    requires 0 <= p
    ensures (p + 1) / 4 == p / 4 + (if (p + 1) % 4 == 0 then 1 else 0)
    ensures (p + 1) / 100 == p / 100 + (if (p + 1) % 100 == 0 then 1 else 0)
    ensures (p + 1) / 400 == p / 400 + (if (p + 1) % 400 == 0 then 1 else 0)
  {
  }

  lemma LeapYearCount(x: int)
    requires 1 <= x
    ensures DaysInYear(x) - 365 == (if x % 4 == 0 then 1 else 0) - (if x % 100 == 0 then 1 else 0) + (if x % 400 == 0 then 1 else 0)
  {
    Divisors(x);
  }

  /** A multiple of 400 is a multiple of 100, and a multiple of 100 is a multiple of 4. */
  lemma Divisors(x: int)
    ensures x % 400 == 0 ==> x % 100 == 0
    ensures x % 100 == 0 ==> x % 4 == 0
  {
    if x % 400 == 0 {
      var q := x / 400;
      assert x == 100 * (4 * q);
      HundredDivides(4 * q);
    }
    if x % 100 == 0 {
      var q := x / 100;
      assert x == 4 * (25 * q);
      FourDivides(25 * q);
    }
  }

  lemma HundredDivides(k: int)
    ensures (100 * k) % 100 == 0
  {
  }

  lemma FourDivides(k: int)
    ensures (4 * k) % 4 == 0
  {
  }

  /** The closed form that Python's `_days_before_year` computes. */
  lemma {:induction false} DaysBeforeYearClosedForm(y: int)
    requires 1 <= y
    ensures DaysBeforeYear(y) == 365 * (y - 1) + (y - 1) / 4 - (y - 1) / 100 + (y - 1) / 400
    decreases y
  {
    if y > 1 {
      DaysBeforeYearClosedForm(y - 1);
      QuotientStep(y - 2);
      LeapYearCount(y - 1);
    }
  }

  lemma {:induction false} DaysBeforeYearMonotone(y1: int, y2: int)
    requires 1 <= y1 < y2
    ensures DaysBeforeYear(y1) + DaysInYear(y1) <= DaysBeforeYear(y2)
    decreases y2 - y1
  {
    if y1 + 1 < y2 {
      DaysBeforeYearMonotone(y1 + 1, y2);
    }
  }

  lemma DaysBeforeMonthStep(y: int, m: int)
    requires 1 <= m <= 12
    ensures m < 12 ==> DaysBeforeMonth(y, m + 1) == DaysBeforeMonth(y, m) + DaysInMonth(y, m)
    ensures m == 12 ==> DaysBeforeMonth(y, m) + DaysInMonth(y, m) == DaysInYear(y)
  {
  }

  lemma {:induction false} DaysBeforeMonthMonotone(y: int, m1: int, m2: int)
    requires 1 <= m1 <= 12 && 1 <= m2 <= 12
    ensures m1 < m2 ==> DaysBeforeMonth(y, m1) + DaysInMonth(y, m1) <= DaysBeforeMonth(y, m2)
    ensures DaysBeforeMonth(y, m1) + DaysInMonth(y, m1) <= DaysInYear(y)
    decreases 12 - m1
  {
    DaysBeforeMonthStep(y, m1);
    if m1 < 12 {
      DaysBeforeMonthMonotone(y, m1 + 1, if m1 < m2 then m2 else 12);
    }
  }

  /** The ordinal counts the days: the next day is one more. */
  lemma OrdinalNextDay(d: Date)
    requires IsValidDate(d)
    ensures Ordinal(NextDay(d)) == Ordinal(d) + 1
  {
    if d.day == DaysInMonth(d.year, d.month) {
      DaysBeforeMonthStep(d.year, d.month);
      if d.month == 12 {
        assert DaysBeforeYear(d.year + 1) == DaysBeforeYear(d.year) + DaysInYear(d.year);
      }
    }
  }

  lemma OrdinalPrevDay(d: Date)
    requires IsValidDate(d) && d != Date(1, 1, 1)
    ensures Ordinal(PrevDay(d)) == Ordinal(d) - 1
  {
    OrdinalNextDay(PrevDay(d));
  }

  /** Date order and ordinal order agree, so Python's `<=` on dates compares ordinals. */
  lemma OrdinalOrder(a: Date, b: Date)
    requires IsValidDate(a) && IsValidDate(b)
    ensures NotAfter(a, b) <==> Ordinal(a) <= Ordinal(b)
    ensures a != b && NotAfter(a, b) ==> Ordinal(a) < Ordinal(b)
  {
    if a.year < b.year {
      DaysBeforeMonthMonotone(a.year, a.month, a.month);
      DaysBeforeYearMonotone(a.year, b.year);
    } else if b.year < a.year {
      DaysBeforeMonthMonotone(b.year, b.month, b.month);
      DaysBeforeYearMonotone(b.year, a.year);
    } else if a.month != b.month {
      DaysBeforeMonthMonotone(a.year, a.month, b.month);
      DaysBeforeMonthMonotone(a.year, b.month, a.month);
    }
  }

  /** A date no later than another has no later year. */
  lemma NoLaterYear(a: Date, b: Date)
    requires IsValidDate(a) && IsValidDate(b) && Ordinal(a) <= Ordinal(b)
    ensures a.year <= b.year
  {
    OrdinalOrder(a, b);
  }

  /** Different dates have different ordinals. */
  lemma OrdinalInjective(a: Date, b: Date)
    requires IsValidDate(a) && IsValidDate(b) && Ordinal(a) == Ordinal(b)
    ensures a == b
  {
    OrdinalOrder(a, b);
    OrdinalOrder(b, a);
  }

  lemma NotFirstDay(d: Date)
    requires IsValidDate(d) && Ordinal(d) > 1
    ensures d != Date(1, 1, 1)
  {
    assert Ordinal(Date(1, 1, 1)) == 1;
  }

  /** `d + timedelta(days=n)`, for a result that is still a date from year 1 on. */
  function AddDays(d: Date, n: int): (r: Date)
    requires IsValidDate(d) && Ordinal(d) + n >= 1
    ensures IsValidDate(r) && Ordinal(r) == Ordinal(d) + n
    decreases if n < 0 then -n else n
  {
    if n == 0 then d
    else if n > 0 then
      OrdinalNextDay(d);
      AddDays(NextDay(d), n - 1)
    else
      NotFirstDay(d);
      OrdinalPrevDay(d);
      AddDays(PrevDay(d), n + 1)
  }

  /** The weekday advances by `n` modulo 7 when `n` days are added. */
  lemma WeekdayAddDays(d: Date, n: int)
    requires IsValidDate(d) && Ordinal(d) + n >= 1
    ensures Weekday(AddDays(d, n)) == (Weekday(d) + n) % 7
  {
    WeekdayGap(d, AddDays(d, n));
  }

  lemma WeekdayGap(x: Date, y: Date)
    requires IsValidDate(x) && IsValidDate(y)
    ensures Weekday(y) == (Weekday(x) + (Ordinal(y) - Ordinal(x))) % 7
  {
    ShiftMod(Ordinal(x), Ordinal(y) - Ordinal(x));
  }

  lemma ShiftMod(a: int, n: int)
    ensures (a + n + 6) % 7 == ((a + 6) % 7 + n) % 7
  {
    var k, r := (a + 6) / 7, (a + 6) % 7;
    assert a + n + 6 == 7 * k + (r + n);
    ModSeven(k, r + n);
  }

  lemma ModSeven(q: int, b: int)
    ensures (7 * q + b) % 7 == b % 7
  {
    var k := b / 7;
    assert 7 * q + b == 7 * (q + k) + b % 7;
  }

  /** `n` consecutive dates starting at `start`: `start + timedelta(i)` for `i in range(n)`. */
  function Consecutive(start: Date, n: nat): (r: seq<Date>)
    requires IsValidDate(start)
    ensures |r| == n
    ensures forall i :: 0 <= i < n ==> IsValidDate(r[i]) && Ordinal(r[i]) == Ordinal(start) + i
  {
    if n == 0 then [] else Consecutive(start, n - 1) + [AddDays(start, n - 1)]
  }

  /** A consecutive run starts at `start` and each of its dates is the day after the one before it. */
  lemma ConsecutiveSteps(start: Date, n: nat)
    requires IsValidDate(start) && n > 0
    ensures Consecutive(start, n)[0] == start
    ensures forall i :: 0 <= i < n - 1 ==> Consecutive(start, n)[i + 1] == NextDay(Consecutive(start, n)[i])
  {
    var r := Consecutive(start, n);
    OrdinalInjective(r[0], start);
    forall i | 0 <= i < n - 1
      ensures r[i + 1] == NextDay(r[i])
    {
      OrdinalNextDay(r[i]);
      OrdinalInjective(r[i + 1], NextDay(r[i]));
    }
  }

  /** A run whose last date is representable lies wholly in `datetime`'s range. */
  lemma ConsecutiveInRange(start: Date, n: nat)
    requires IsValidDate(start) && n > 0 && AddDays(start, n - 1).year <= MaxYear
    ensures forall i :: 0 <= i < n ==> InRange(Consecutive(start, n)[i])
  {
    forall i | 0 <= i < n
      ensures InRange(Consecutive(start, n)[i])
    {
      NoLaterYear(Consecutive(start, n)[i], AddDays(start, n - 1));
    }
  }

  /** Each `s[k]` is the date `k` days after `start`. */
  predicate CountsFrom(start: Date, s: seq<Date>) {
    forall k :: 0 <= k < |s| ==> IsValidDate(s[k]) && IsValidDate(start) && Ordinal(s[k]) == Ordinal(start) + k
  }

  /** A sequence that counts days from `start` is the range of that length from `start`. */
  lemma CountsFromIsConsecutive(start: Date, s: seq<Date>)
    requires IsValidDate(start) && CountsFrom(start, s)
    ensures s == Consecutive(start, |s|)
  {
    var c := Consecutive(start, |s|);
    forall k | 0 <= k < |s|
      ensures s[k] == c[k]
    {
      OrdinalInjective(s[k], c[k]);
    }
  }
}
