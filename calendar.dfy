/**
  Calendar dates as `time.struct_time` carries them, and the whole-day
  arithmetic that `get_n_age_date` performs through `mktime`/`localtime`.
  Dates follow the proleptic Gregorian calendar.
 */
module Calendar {

  /** The first three fields of a `struct_time`: (year, month, day). */
  datatype Date = Date(year: int, month: int, day: int)

  /** The first six fields of a `struct_time`: date and time of day. */
  datatype Timestamp = Timestamp(year: int, month: int, day: int, hour: int, minute: int, second: int)
  {
    /** `published_date[:3]` */
    function DatePart(): Date { Date(year, month, day) }
  }

  predicate IsLeapYear(y: int)
  {
    y % 4 == 0 && (y % 100 != 0 || y % 400 == 0)
  }

  function DaysInMonth(y: int, m: int): int
    requires 1 <= m <= 12
  {
    if m == 2 then (if IsLeapYear(y) then 29 else 28)
    else if m == 4 || m == 6 || m == 9 || m == 11 then 30
    else 31
  }

  predicate Valid(d: Date)
  {
    1 <= d.month <= 12 && 1 <= d.day <= DaysInMonth(d.year, d.month)
  }

  /** Python's tuple comparison `a[:3] < b[:3]`: lexicographic on (year, month, day). */
  predicate Before(a: Date, b: Date)
  {
    a.year < b.year
    || (a.year == b.year && (a.month < b.month || (a.month == b.month && a.day < b.day)))
  }

  /** The calendar day before `d`. */
  function PrevDay(d: Date): (r: Date)
    requires Valid(d)
    ensures Valid(r) && Before(r, d)
  {
    if d.day > 1 then Date(d.year, d.month, d.day - 1)
    else if d.month > 1 then Date(d.year, d.month - 1, DaysInMonth(d.year, d.month - 1))
    else Date(d.year - 1, 12, 31)
  }

  /** The calendar day after `d`. */
  function NextDay(d: Date): (r: Date)
    requires Valid(d)
    ensures Valid(r) && Before(d, r)
  {
    if d.day < DaysInMonth(d.year, d.month) then Date(d.year, d.month, d.day + 1)
    else if d.month < 12 then Date(d.year, d.month + 1, 1)
    else Date(d.year + 1, 1, 1)
  }

  /** Stepping one day back and one day forward are inverse to each other. */
  lemma PrevNextInverse(d: Date)
    requires Valid(d)
    ensures NextDay(PrevDay(d)) == d
    ensures PrevDay(NextDay(d)) == d
  {
  }

  /** No valid date lies strictly between `PrevDay(d)` and `d`. */
  lemma NothingBetween(d: Date, x: Date)
    requires Valid(d) && Valid(x)
    requires Before(PrevDay(d), x)
    ensures !Before(x, d)
  {
  }

  /** `d` moved `n` calendar days into the past. */
  function MinusDays(d: Date, n: nat): (r: Date)
    requires Valid(d)
    ensures Valid(r)
    ensures n > 0 ==> Before(r, d)
    ensures n == 0 ==> r == d
    decreases n
  {
    if n == 0 then d else MinusDays(PrevDay(d), n - 1)
  }

  /** `d` moved `n` calendar days into the future. */
  function PlusDays(d: Date, n: nat): (r: Date)
    requires Valid(d)
    ensures Valid(r)
    decreases n
  {
    if n == 0 then d else PlusDays(NextDay(d), n - 1)
  }

  /** Going back `a` days and then `b` days is going back `a + b` days. */
  lemma {:induction false} MinusDaysAdditive(d: Date, a: nat, b: nat)
    requires Valid(d)
    ensures MinusDays(MinusDays(d, a), b) == MinusDays(d, a + b)
    decreases a
  {
    if a > 0 {
      MinusDaysAdditive(PrevDay(d), a - 1, b);
    }
  }

  lemma {:induction false} MinusDaysStepLast(d: Date, n: nat)
    requires Valid(d)
    ensures MinusDays(d, n + 1) == PrevDay(MinusDays(d, n))
  {
    MinusDaysAdditive(d, n, 1);
  }

  /** Counting the same number of days forward again returns to the start. */
  lemma {:induction false} PlusMinusDays(d: Date, n: nat)
    requires Valid(d)
    ensures PlusDays(MinusDays(d, n), n) == d
    decreases n
  {
    if n > 0 {
      MinusDaysStepLast(d, n - 1);
      var e := MinusDays(d, n - 1);
      PrevNextInverse(e);
      assert PlusDays(PrevDay(e), n) == PlusDays(e, n - 1);
      PlusMinusDays(d, n - 1);
    }
  }

  /** 2020-01-01 minus 3 days is 2019-12-29. */
  lemma MinusDaysAcrossNewYear()
    ensures MinusDays(Date(2020, 1, 1), 3) == Date(2019, 12, 29)
  {
    assert MinusDays(Date(2020, 1, 1), 3) == MinusDays(Date(2019, 12, 31), 2);
  }
}
