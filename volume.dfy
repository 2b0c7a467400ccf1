/** Volume planning and the day-offset window: the two plain conditional
    expressions of the generator. `num_records` and `years` are optional ints
    tested for Python truthiness, so a given 0 counts as not given. */
module Volume {
  import opened Values

  /** `bool(o)` for an `Optional[int]` */
  predicate Given(o: Option<int>) {
    o.Some? && o.value != 0
  }

  /** `records_to_generate` for a table of `n` reference records. Python's
      `int(n * years)` is exact here because `years` is an int. */
  function RecordsToGenerate(numRecords: Option<int>, years: Option<int>, n: nat): int {
    if Given(numRecords) then numRecords.value
    else if Given(years) then n * years.value
    else n
  }

  /** The lower end `lo` of `random.randint(lo, 30)`, the day offset of a re-dated field. */
  function DayLow(years: Option<int>): int {
    if Given(years) then -365 * years.value else -30
  }

  /** How many records `for _ in range(count)` appends: none for a count below one. */
  function Produced(count: int): (n: nat)
    ensures n <= count || (count < 0 && n == 0)
    ensures count >= 0 ==> n == count
  {
    if count < 0 then 0 else count
  }

  /** An explicit count always wins; when none is given, a years factor scales
      the reference size; otherwise the reference size is mirrored. */
  lemma VolumeChoice(numRecords: Option<int>, years: Option<int>, n: nat)
    ensures Given(numRecords) ==> RecordsToGenerate(numRecords, years, n) == numRecords.value
    ensures !Given(numRecords) && Given(years) ==> RecordsToGenerate(numRecords, years, n) == n * years.value
    ensures !Given(numRecords) && !Given(years) ==> RecordsToGenerate(numRecords, years, n) == n
  {
  }

  /** A count or a years factor of zero is treated exactly as if it were not given. */
  lemma ZeroMeansNotGiven(numRecords: Option<int>, years: Option<int>, n: nat)
    ensures RecordsToGenerate(Some(0), years, n) == RecordsToGenerate(None, years, n)
    ensures RecordsToGenerate(numRecords, Some(0), n) == RecordsToGenerate(numRecords, None, n)
    ensures DayLow(Some(0)) == DayLow(None)
  {
  }

  /** Without a negative years factor the count is never negative, and a
      non-empty table with a positive factor yields at least as many records. */
  lemma CountSign(numRecords: Option<int>, years: Option<int>, n: nat)
    requires !Given(numRecords)
    ensures years.Some? && years.value >= 0 ==> RecordsToGenerate(numRecords, years, n) >= 0
    ensures years.Some? && years.value > 0 ==> RecordsToGenerate(numRecords, years, n) >= n
    ensures years.Some? && years.value < 0 && n > 0 ==> RecordsToGenerate(numRecords, years, n) < 0
  {
    if years.Some? && years.value != 0 {
      ProductSign(n, years.value);
    }
  }

  lemma {:induction false} ProductSign(n: nat, y: int)
    ensures y >= 0 ==> n * y >= 0
    ensures y > 0 ==> n * y >= n
    ensures y < 0 && n > 0 ==> n * y < 0
  {
    if n > 0 {
      ProductSign(n - 1, y);
      assert n * y == (n - 1) * y + y;
    }
  }

  /** `random.randint(lo, 30)` has a value to return exactly when the years
      factor is not negative; a negative factor makes it raise. */
  lemma DayWindowNonEmpty(years: Option<int>)
    ensures DayLow(years) <= 30 <==> !(Given(years) && years.value < 0)
    ensures !Given(years) ==> DayLow(years) == -30
    ensures Given(years) && years.value > 0 ==> DayLow(years) <= -365
  {
  }
}
