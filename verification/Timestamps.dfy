/**
  DNP3 time, milliseconds since the Unix epoch, and .NET time, 100 ns ticks since year 1.
  Every `DateTime` here is UTC.
 */
module Timestamps {
  import opened Words

  const TICKS_PER_MILLISECOND := 10_000
  const EPOCH_TICKS := 621_355_968_000_000_000
  const MAX_TICKS := 3_155_378_975_999_999_999

  /** A `DateTime`, by its ticks. */
  type DateTime = t: int | 0 <= t <= MAX_TICKS

  datatype Result<+T> = Ok(value: T) | Overflow | OutOfRange

  /** C# integer division, which truncates toward zero. */
  function TruncatedDiv(a: int, b: int): int
    requires b > 0
  {
    if a >= 0 then a / b else -(-a / b)
  }

  /**
    `TimeSpan.FromMilliseconds` of a whole number: adds one half away from zero, checks the
    range as a `double` against `long.MaxValue / TicksPerMillisecond`, then truncates.
   */
  function FromMilliseconds(ms: int): Result<int> {
    var limit := 0x7fff_ffff_ffff_ffff / TICKS_PER_MILLISECOND;
    var rounded := 2 * ms + if ms >= 0 then 1 else -1;   // twice the rounded value
    if rounded > 2 * limit || rounded < -2 * limit then Overflow
    else Ok(TruncatedDiv(rounded, 2) * TICKS_PER_MILLISECOND)
  }

  /** `TimeStamp.Convert(Int64)`. */
  function ToDateTime(time: Int64): Result<DateTime> {
    match FromMilliseconds(time)
    case Overflow => Overflow
    case OutOfRange => OutOfRange
    case Ok(ticks) =>
      if ticks > MAX_TICKS - EPOCH_TICKS then Ok(MAX_TICKS)
      else if EPOCH_TICKS + ticks < 0 then OutOfRange
      else Ok(EPOCH_TICKS + ticks)
  }

  /** `TimeStamp.Convert(DateTime)`. */
  function ToMilliseconds(time: DateTime): Int64 {
    TruncatedDiv(time - EPOCH_TICKS, TICKS_PER_MILLISECOND)
  }

  const MIN_TIME := -62_135_596_800_000
  const MAX_TIME := 253_402_300_799_999
  const SPAN_LIMIT := 922_337_203_685_477

  /** The forward map, case by case over all 64-bit times. */
  lemma ForwardCases(time: Int64)
    ensures MIN_TIME <= time <= MAX_TIME ==> ToDateTime(time) == Ok(EPOCH_TICKS + time * TICKS_PER_MILLISECOND)
    ensures MAX_TIME < time < SPAN_LIMIT ==> ToDateTime(time) == Ok(MAX_TICKS)
    ensures -SPAN_LIMIT < time < MIN_TIME ==> ToDateTime(time) == OutOfRange
    ensures time <= -SPAN_LIMIT || time >= SPAN_LIMIT ==> ToDateTime(time) == Overflow
  {
    SpanIsExact(time);
  }

  lemma SpanIsExact(ms: int)
    ensures FromMilliseconds(ms) == if -SPAN_LIMIT < ms < SPAN_LIMIT then Ok(ms * TICKS_PER_MILLISECOND) else Overflow
  {
    assert ms >= 0 ==> (2 * ms + 1) / 2 == ms;
    assert ms < 0 ==> (-(2 * ms - 1)) / 2 == -ms;
  }

  /** There and back is the identity on the whole range a `DateTime` can hold, and only there. */
  lemma RoundTrip(time: Int64)
    ensures ToDateTime(time).Ok? && ToMilliseconds(ToDateTime(time).value) == time <==> MIN_TIME <= time <= MAX_TIME
  {
    ForwardCases(time);
    if MIN_TIME <= time <= MAX_TIME {
      TruncationInverts(time);
    } else if MAX_TIME < time < SPAN_LIMIT {
      assert ToMilliseconds(MAX_TICKS) == MAX_TIME;
    }
  }

  lemma TruncationInverts(ms: int)
    ensures TruncatedDiv(ms * TICKS_PER_MILLISECOND, TICKS_PER_MILLISECOND) == ms
  {
  }

  /** No 48-bit DNP3 time overflows, and later times never give earlier dates. */
  lemma MonotoneAndSaturating(a: Int64, b: Int64)
    requires 0 <= a <= b < 0x1_0000_0000_0000
    ensures ToDateTime(a).Ok? && ToDateTime(b).Ok?
    ensures ToDateTime(a).value <= ToDateTime(b).value
    ensures ToDateTime(b).value == MAX_TICKS <==> b > MAX_TIME
    ensures a < b ==> (ToDateTime(a).value == ToDateTime(b).value <==> a > MAX_TIME)
  {
    ForwardCases(a);
    ForwardCases(b);
  }

  /** Distance from the epoch. */
  function FromEpoch(t: DateTime): nat {
    if t >= EPOCH_TICKS then t - EPOCH_TICKS else EPOCH_TICKS - t
  }

  /**
    A date taken to DNP3 time and back stays on its side of the epoch, moves toward it by
    less than a millisecond, and is kept exactly when it falls on a whole millisecond.
   */
  lemma DateRoundTrip(t: DateTime)
    ensures ToDateTime(ToMilliseconds(t)).Ok?
    ensures var u := ToDateTime(ToMilliseconds(t)).value;
            && (t >= EPOCH_TICKS ==> EPOCH_TICKS <= u <= t)
            && (t <= EPOCH_TICKS ==> t <= u <= EPOCH_TICKS)
            && 0 <= FromEpoch(t) - FromEpoch(u) < TICKS_PER_MILLISECOND
            && (u == t <==> t % TICKS_PER_MILLISECOND == 0)
  {
    var ms := ToMilliseconds(t);
    if t >= EPOCH_TICKS {
      assert ms * TICKS_PER_MILLISECOND <= t - EPOCH_TICKS < (ms + 1) * TICKS_PER_MILLISECOND;
    } else {
      assert -ms * TICKS_PER_MILLISECOND <= EPOCH_TICKS - t < (-ms + 1) * TICKS_PER_MILLISECOND;
    }
    assert MIN_TIME <= ms <= MAX_TIME;
    ForwardCases(ms);
    assert EPOCH_TICKS % TICKS_PER_MILLISECOND == 0;
  }

  /** After the epoch, converting a date is the best approximation from below. */
  lemma LatestNotAfter(t: DateTime, time: Int64)
    requires t >= EPOCH_TICKS && 0 <= time <= MAX_TIME
    ensures ToDateTime(time).Ok? && (time <= ToMilliseconds(t) <==> ToDateTime(time).value <= t)
  {
    ForwardCases(time);
  }

  /** `Conversions::ConvertTimespan`. */
  function ConvertTimespan(ticks: int): int {
    TruncatedDiv(ticks, TICKS_PER_MILLISECOND)
  }

  /** `Conversions::ConvertTimeDuration`: a duration survives the trip exactly when it fits a `TimeSpan`. */
  lemma DurationRoundTrip(ms: Int64)
    ensures FromMilliseconds(ms).Ok? <==> -SPAN_LIMIT < ms < SPAN_LIMIT
    ensures FromMilliseconds(ms).Ok? ==> ConvertTimespan(FromMilliseconds(ms).value) == ms
  {
    SpanIsExact(ms);
    TruncationInverts(ms);
  }

  /** Off whole milliseconds a span loses the part below, toward zero. */
  lemma TimespanTruncates(ticks: int)
    ensures var ms := ConvertTimespan(ticks);
            && (ticks >= 0 ==> 0 <= ms * 10_000 <= ticks < (ms + 1) * 10_000)
            && (ticks <= 0 ==> (ms - 1) * 10_000 < ticks <= ms * 10_000 <= 0)
  {
  }

  /** The days before January 1 of a year, in the calendar of `DateTime`. */
  function DaysBefore(year: nat): int
    requires year > 0
  {
    var y := year - 1;
    365 * y + y / 4 - y / 100 + y / 400
  }

  const TICKS_PER_DAY := 24 * 60 * 60 * 10_000_000

  /** The epoch is the start of 1970, and the last `DateTime` the last tick of the year 9999. */
  lemma CalendarLimits()
    ensures EPOCH_TICKS == DaysBefore(1970) * TICKS_PER_DAY
    ensures MAX_TICKS == DaysBefore(10_000) * TICKS_PER_DAY - 1
    ensures TICKS_PER_DAY == 86_400_000 * TICKS_PER_MILLISECOND
  {
  }
}
