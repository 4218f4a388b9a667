/**
 * The search window of a calendar year, as `LocalDateTime.of(...).toEpochSecond(UTC)`
 * computes it in the proleptic Gregorian calendar: from January 1 00:00:00 to
 * December 31 23:59:59, in seconds since 1970-01-01T00:00:00Z.
 */
module Calendar {
  import opened Wrappers
  import opened FlickrApi

  /** The years `LocalDateTime` accepts. */
  const MinYear := -999_999_999
  const MaxYear := 999_999_999

  const SecondsPerDay := 86400

  predicate IsLeap(y: int)
  {
    y % 4 == 0 && (y % 100 != 0 || y % 400 == 0)
  }

  function DaysInYear(y: int): int
  {
    if IsLeap(y) then 366 else 365
  }

  /** Multiples of 4, less those of 100, plus those of 400, in `1..x` (negated below 0). */
  function LeapsThrough(x: int): int
  {
    x / 4 - x / 100 + x / 400
  }

  /** The epoch day of January 1 of year `y`. */
  function FirstDay(y: int): int
  {
    365 * (y - 1970) + LeapsThrough(y - 1) - LeapsThrough(1969)
  }

  /** `LocalDateTime.of(year, JANUARY, 1, 0, 0, 0).toEpochSecond(UTC)`. */
  function YearStart(year: int): (r: Result<int, Failure>)
    ensures r.Err? <==> !(MinYear <= year <= MaxYear)
    ensures r.Err? ==> r.error == DateTimeOutOfRange
  {
    if MinYear <= year <= MaxYear then Ok(FirstDay(year) * SecondsPerDay) else Err(DateTimeOutOfRange)
  }

  /** `LocalDateTime.of(year, DECEMBER, 31, 23, 59, 59).toEpochSecond(UTC)`: the last second of the year. */
  function YearEnd(year: int): (r: Result<int, Failure>)
    ensures r.Err? <==> !(MinYear <= year <= MaxYear)
    ensures r.Err? ==> r.error == DateTimeOutOfRange
  {
    if MinYear <= year <= MaxYear then
      Ok((FirstDay(year) + DaysInYear(year) - 1) * SecondsPerDay + 23 * 3600 + 59 * 60 + 59)
    else Err(DateTimeOutOfRange)
  }

  /** A year holds one more leap day than the years before it exactly when it is a leap year. */
  lemma LeapsStep(y: int)
    ensures LeapsThrough(y) - LeapsThrough(y - 1) == if IsLeap(y) then 1 else 0
  {
    MultipleStep(y, 4);
    MultipleStep(y, 100);
    MultipleStep(y, 400);
    if y % 400 == 0 {
      assert y == 100 * (4 * (y / 400));
    }
    if y % 100 == 0 {
      assert y == 4 * (25 * (y / 100));
    }
  }

  /** `y` adds one to the count of multiples of `k` below it exactly when `k` divides `y`. */
  lemma MultipleStep(y: int, k: int)
    requires k > 0
    ensures y / k - (y - 1) / k == if y % k == 0 then 1 else 0
  {
    var q, r := (y - 1) / k, (y - 1) % k;
    assert y == k * q + (r + 1);
    if r + 1 == k {
      assert y == k * (q + 1) + 0;
      DivisionOf(y, k, q + 1, 0);
    } else {
      DivisionOf(y, k, q, r + 1);
    }
  }

  /** Quotient and remainder are the unique pair with `0 <= r < k`. */
  lemma DivisionOf(y: int, k: int, q: int, r: int)
    requires k > 0 && 0 <= r < k && y == k * q + r
    ensures y / k == q && y % k == r
  {
    var d := y / k - q;
    assert k * d == r - y % k;
    if d != 0 {
      MultipleAtLeast(k, d);
    }
  }

  /** A non-zero multiple of `k` is at least `k` away from zero. */
  lemma {:induction false} MultipleAtLeast(k: int, d: int)
    requires k > 0 && d != 0
    ensures k * d >= k || k * d <= -k
    decreases if d > 0 then d else -d
  {
    if d > 1 {
      MultipleAtLeast(k, d - 1);
      assert k * d == k * (d - 1) + k;
    } else if d < -1 {
      MultipleAtLeast(k, d + 1);
      assert k * d == k * (d + 1) - k;
    }
  }

  /** Consecutive years are `DaysInYear` days apart, and 1970 starts on epoch day 0. */
  lemma FirstDaySpan(y: int)
    ensures FirstDay(y + 1) - FirstDay(y) == DaysInYear(y)
    ensures FirstDay(1970) == 0
  {
    LeapsStep(y);
  }

  /**
   * The window of a year covers every second of that year and nothing else: it is
   * `86400 * DaysInYear` seconds long and the next year's window starts one second after it.
   */
  lemma YearWindow(year: int)
    requires MinYear <= year < MaxYear
    ensures YearEnd(year).value - YearStart(year).value + 1 == SecondsPerDay * DaysInYear(year)
    ensures YearStart(year + 1).value == YearEnd(year).value + 1
  {
    FirstDaySpan(year);
  }

  /** The windows of 1970 and 2017, as the epoch-second converter gives them. */
  lemma KnownWindows()
    ensures YearStart(1970) == Ok(0) && YearEnd(1970) == Ok(31535999)
    ensures YearStart(2017) == Ok(1483228800) && YearEnd(2017) == Ok(1514764799)
  {
  }
}
