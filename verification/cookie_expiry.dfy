/**
 Expiry times of restored cookies: JavaScript milliseconds are imported as whole nanoseconds and
 exported again as whole milliseconds. The nanosecond arithmetic is 128 bits wide and wraps around, as
 it does in a release build.
 */
module CookieExpiry {
  import opened Wrappers

  const NANOS_PER_MILLI: int := 1_000_000

  const I128_MAX: int := 0x7FFF_FFFF_FFFF_FFFF_FFFF_FFFF_FFFF_FFFF
  const I128_MIN: int := -I128_MAX - 1
  const I128_RANGE: int := 2 * (I128_MAX + 1)

  /** The range of `OffsetDateTime`, from the start of year -9999 to the end of year 9999. */
  const MIN_NANOS: int := -377_705_116_800_000_000_000
  const MAX_NANOS: int := 253_402_300_799_999_999_999

  /** The last whole millisecond of year 9999. */
  const MAX_MILLIS: int := 253_402_300_799_999

  /** Rounding toward zero. */
  function Truncate(x: real): int {
    if x >= 0.0 then x.Floor else -((-x).Floor)
  }

  /** A float-to-integer cast saturates. */
  function SaturateI128(n: int): int {
    if n < I128_MIN then I128_MIN else if n > I128_MAX then I128_MAX else n
  }

  function WrapI128(n: int): int {
    (n - I128_MIN) % I128_RANGE + I128_MIN
  }

  function FractionNanos(ms: real): int {
    Truncate((ms - Truncate(ms) as real) * NANOS_PER_MILLI as real)
  }

  function ImportNanos(ms: real): int {
    WrapI128(WrapI128(SaturateI128(Truncate(ms)) * NANOS_PER_MILLI) + FractionNanos(ms))
  }

  predicate InRange(nanos: int) {
    MIN_NANOS <= nanos <= MAX_NANOS
  }

  /** None is the error for an out-of-range expiry. */
  function ImportExpiry(ms: real): Option<int> {
    if InRange(ImportNanos(ms)) then Some(ImportNanos(ms)) else None
  }

  /** A time before the epoch has no exported form. */
  function ExportExpiry(nanos: int): Option<int> {
    if nanos >= 0 then Some(nanos / NANOS_PER_MILLI) else None
  }

  /** The nanoseconds that the milliseconds stand for, computed without any width. */
  function TrueNanos(ms: real): int {
    Truncate(ms) * NANOS_PER_MILLI + FractionNanos(ms)
  }

  /** That is the exact product with a million, rounded toward zero. */
  lemma TrueNanosMeans(ms: real)
    ensures ms >= 0.0 ==> TrueNanos(ms) as real <= 1000000.0 * ms < TrueNanos(ms) as real + 1.0
    ensures ms <= 0.0 ==> TrueNanos(ms) as real - 1.0 < 1000000.0 * ms <= TrueNanos(ms) as real
  {
    var fraction := ms - Truncate(ms) as real;
    assert 1000000.0 * ms == 1000000.0 * Truncate(ms) as real + 1000000.0 * fraction;
  }

  /** An export gives the whole milliseconds passed since the epoch. */
  lemma ExportMeans(nanos: int, ms: int)
    ensures ExportExpiry(nanos) == Some(ms) <==> nanos >= 0 && 1_000_000 * ms <= nanos < 1_000_000 * (ms + 1)
    ensures ExportExpiry(nanos).None? <==> nanos < 0
  {
  }

  /** The days from the epoch to the first of January of a year of the Gregorian calendar. */
  function DaysUntil(year: int): int {
    365 * (year - 1970) + LeapDaysBefore(year) - LeapDaysBefore(1970)
  }

  function LeapDaysBefore(year: int): int {
    (year - 1) / 4 - (year - 1) / 100 + (year - 1) / 400
  }

  /** The accepted times are those of the years -9999 to 9999; the arithmetic is that of 128 bits. */
  lemma RangeSpelled()
    ensures MIN_NANOS == DaysUntil(-9999) * 86400 * 1_000_000_000
    ensures MAX_NANOS == DaysUntil(10000) * 86400 * 1_000_000_000 - 1
    ensures MAX_MILLIS == DaysUntil(10000) * 86400 * 1000 - 1
    ensures I128_MAX == 170141183460469231731687303715884105727 && I128_MIN == -I128_MAX - 1
    ensures I128_RANGE == 340282366920938463463374607431768211456
  {
  }

  lemma FractionBound(ms: real)
    ensures -NANOS_PER_MILLI < FractionNanos(ms) < NANOS_PER_MILLI
    ensures ms >= 0.0 ==> FractionNanos(ms) >= 0
    ensures ms <= 0.0 ==> FractionNanos(ms) <= 0
  {
  }

  /** The product of whole milliseconds and nanoseconds per millisecond does not fit 128 bits. */
  predicate Overflows(ms: real) {
    !(I128_MIN <= Truncate(ms) * NANOS_PER_MILLI <= I128_MAX)
  }

  lemma WrapIsIdentity(n: int)
    requires I128_MIN <= n <= I128_MAX
    ensures WrapI128(n) == n
  {
  }

  /** Short of overflow the import is exact, up to the sum of its two parts. */
  lemma ImportIsExact(ms: real)
    requires !Overflows(ms)
    ensures ImportNanos(ms) == WrapI128(TrueNanos(ms))
    ensures InRange(TrueNanos(ms)) <==> InRange(ImportNanos(ms))
    ensures InRange(TrueNanos(ms)) ==> ImportNanos(ms) == TrueNanos(ms)
  {
    var whole := Truncate(ms) * NANOS_PER_MILLI;
    FractionBound(ms);
    assert SaturateI128(Truncate(ms)) == Truncate(ms);
    WrapIsIdentity(whole);
    if I128_MIN <= TrueNanos(ms) <= I128_MAX {
      WrapIsIdentity(TrueNanos(ms));
    } else {
      WrapJustOutside(TrueNanos(ms));
    }
  }

  /** A sum that leaves the range by less than a millisecond wraps to the far end of it. */
  lemma WrapJustOutside(n: int)
    requires I128_MIN - NANOS_PER_MILLI < n < I128_MIN || I128_MAX < n < I128_MAX + NANOS_PER_MILLI
    ensures !InRange(WrapI128(n))
  {
  }

  /** The expiry is accepted exactly if it is in range, and then with its true value. */
  predicate Faithful(ms: real) {
    ImportExpiry(ms) == if InRange(TrueNanos(ms)) then Some(TrueNanos(ms)) else None
  }

  // ----- When the import goes wrong -----

  /** The whole milliseconds fit 128 bits, so the cast keeps them. */
  predicate CastIsExact(ms: real) {
    I128_MIN <= Truncate(ms) <= I128_MAX
  }

  /** A whole number of ranges, but not zero, away from the true time lies a time that is accepted. */
  ghost predicate HasAlias(ms: real) {
    exists k: int :: k != 0 && InRange(TrueNanos(ms) - k * I128_RANGE)
  }

  /** Wrapping lands on the one value of the 128-bit range that is a whole number of ranges away. */
  lemma WrapLands(n: int, k: int)
    requires I128_MIN <= n - k * I128_RANGE <= I128_MAX
    ensures WrapI128(n) == n - k * I128_RANGE
  {
    var q, r := (n - I128_MIN) / I128_RANGE, (n - I128_MIN) % I128_RANGE;
    assert n - I128_MIN == q * I128_RANGE + r;
    assert (q - k) * I128_RANGE == q * I128_RANGE - k * I128_RANGE;
    SmallMultiple(q - k, n - I128_MIN - k * I128_RANGE - r);
  }

  lemma SmallMultiple(k: int, d: int)
    requires k * I128_RANGE == d && -I128_RANGE < d < I128_RANGE
    ensures k == 0
  {
  }

  lemma WrapShifts(n: int) returns (k: int)
    ensures WrapI128(n) == n - k * I128_RANGE
  {
    k := (n - I128_MIN) / I128_RANGE;
    assert n - I128_MIN == k * I128_RANGE + (n - I128_MIN) % I128_RANGE;
  }

  /** Wrapping the product first and the sum afterwards is wrapping the sum. */
  lemma WrapOnce(whole: int, fraction: int)
    ensures WrapI128(WrapI128(whole) + fraction) == WrapI128(whole + fraction)
  {
    var k := WrapShifts(whole);
    var l := WrapShifts(whole - k * I128_RANGE + fraction);
    assert (k + l) * I128_RANGE == k * I128_RANGE + l * I128_RANGE;
    WrapLands(whole + fraction, k + l);
  }

  lemma AliasIsAccepted(ms: real, k: int)
    requires CastIsExact(ms) && k != 0 && InRange(TrueNanos(ms) - k * I128_RANGE)
    ensures ImportExpiry(ms) == Some(TrueNanos(ms) - k * I128_RANGE) && !InRange(TrueNanos(ms))
  {
    WrapOnce(Truncate(ms) * NANOS_PER_MILLI, FractionNanos(ms));
    WrapLands(TrueNanos(ms), k);
    if InRange(TrueNanos(ms)) {
      SmallMultiple(k, k * I128_RANGE);
    }
  }

  lemma WithoutAliasFaithful(ms: real)
    requires CastIsExact(ms) && !HasAlias(ms)
    ensures Faithful(ms)
  {
    WrapOnce(Truncate(ms) * NANOS_PER_MILLI, FractionNanos(ms));
    var k := WrapShifts(TrueNanos(ms));
    if k == 0 {
    } else if InRange(TrueNanos(ms)) {
      WrapIsIdentity(TrueNanos(ms));
    } else {
      assert !InRange(TrueNanos(ms) - k * I128_RANGE);
    }
  }

  /** Beyond 2^127 - 1 milliseconds the cast saturates, and the time is taken for one just before the epoch. */
  lemma SaturatedAbove(ms: real)
    requires Truncate(ms) > I128_MAX
    ensures ImportExpiry(ms) == Some(FractionNanos(ms) - NANOS_PER_MILLI)
    ensures !InRange(TrueNanos(ms)) && ExportExpiry(ImportExpiry(ms).value).None?
  {
    FractionBound(ms);
    WrapLands(I128_MAX * NANOS_PER_MILLI, 500_000);
    WrapIsIdentity(FractionNanos(ms) - NANOS_PER_MILLI);
  }

  /** Below -2^127 milliseconds the time is taken for the epoch, up to its fraction. */
  lemma SaturatedBelow(ms: real)
    requires Truncate(ms) < I128_MIN
    ensures ImportExpiry(ms) == Some(FractionNanos(ms)) && !InRange(TrueNanos(ms))
  {
    FractionBound(ms);
    WrapLands(I128_MIN * NANOS_PER_MILLI, -500_000);
    WrapIsIdentity(FractionNanos(ms));
  }

  /**
   The import is faithful exactly if the whole milliseconds fit 128 bits and no accepted time lies a
   whole number of ranges away. Both are conditions on the milliseconds alone.
   */
  lemma WhenImportIsFaithful(ms: real)
    ensures Faithful(ms) <==> CastIsExact(ms) && !HasAlias(ms)
  {
    if Truncate(ms) > I128_MAX {
      SaturatedAbove(ms);
    } else if Truncate(ms) < I128_MIN {
      SaturatedBelow(ms);
    } else if HasAlias(ms) {
      var k: int :| k != 0 && InRange(TrueNanos(ms) - k * I128_RANGE);
      AliasIsAccepted(ms, k);
    } else {
      WithoutAliasFaithful(ms);
    }
  }

  /** Only times that overflow go wrong. */
  lemma FaithfulWithoutOverflow(ms: real)
    requires !Overflows(ms)
    ensures Faithful(ms)
  {
    ImportIsExact(ms);
  }

  /** For example, 2^126 milliseconds, far beyond year 9999, are taken for the epoch itself. */
  lemma HugeExpiryIsAccepted()
    ensures var ms := 0x4000_0000_0000_0000_0000_0000_0000_0000 as real;
      ImportExpiry(ms) == Some(0) && !InRange(TrueNanos(ms))
  {
  }

  /** Whole milliseconds from the epoch to the end of year 9999 survive import and export. */
  lemma WholeMillisRoundTrip(ms: int)
    requires 0 <= ms <= MAX_MILLIS
    ensures ImportExpiry(ms as real) == Some(ms * NANOS_PER_MILLI)
    ensures ExportExpiry(ms * NANOS_PER_MILLI) == Some(ms)
  {
  }

  /** Exporting, importing and exporting again gives what the first export gave. */
  lemma ExportImportExport(nanos: int)
    requires 0 <= nanos <= MAX_NANOS
    ensures var ms := ExportExpiry(nanos).value;
      && ImportExpiry(ms as real).Some?
      && ExportExpiry(ImportExpiry(ms as real).value) == Some(ms)
  {
    var ms := ExportExpiry(nanos).value;
    assert ms * NANOS_PER_MILLI <= nanos;
    WholeMillisRoundTrip(ms);
  }

  /**
   An accepted expiry is exported as its whole milliseconds exactly if it did not overflow and lies
   less than a nanosecond before the epoch. Short of overflow it is otherwise not exported at all.
   */
  lemma ExportOfImport(ms: real)
    requires ImportExpiry(ms).Some?
    ensures ExportExpiry(ImportExpiry(ms).value) == Some(Truncate(ms))
       <==> !Overflows(ms) && ms * NANOS_PER_MILLI as real > -1.0
    ensures !Overflows(ms) ==>
      (ExportExpiry(ImportExpiry(ms).value).None? <==> ms * NANOS_PER_MILLI as real <= -1.0)
  {
    if Overflows(ms) {
      assert !(0 <= Truncate(ms) <= MAX_MILLIS);
    } else {
      ExportWithoutOverflow(ms);
    }
  }

  lemma ExportWithoutOverflow(ms: real)
    requires !Overflows(ms) && ImportExpiry(ms).Some?
    ensures ms >= 0.0 ==> ExportExpiry(ImportExpiry(ms).value) == Some(Truncate(ms))
    ensures ExportExpiry(ImportExpiry(ms).value).None? <==> ms * NANOS_PER_MILLI as real <= -1.0
    ensures ms < 0.0 && ExportExpiry(ImportExpiry(ms).value).Some? ==>
      ExportExpiry(ImportExpiry(ms).value) == Some(0) && Truncate(ms) == 0
  {
    ImportIsExact(ms);
    FractionBound(ms);
    var whole, fraction := Truncate(ms), FractionNanos(ms);
    if ms >= 0.0 {
      assert (whole * NANOS_PER_MILLI + fraction) / NANOS_PER_MILLI == whole;
    } else {
      assert whole <= 0;
      if whole == 0 {
        assert fraction == -((-(ms * NANOS_PER_MILLI as real)).Floor);
      }
    }
  }
}
