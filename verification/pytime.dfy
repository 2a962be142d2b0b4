/** Python 2 `datetime` arithmetic as used for elapsed-time checks.
    A datetime is an integer count of microseconds since a fixed epoch;
    subtracting two gives a normalised `timedelta`. */
module PyTime {

  const MicrosPerSecond: int := 1_000_000
  const SecondsPerDay: int := 24 * 3600

  /** Python 2 `a / b` on integers: floor division, rounding toward
      minus infinity for either sign of the divisor. */
  function FloorDiv(a: int, b: int): (q: int)
    requires b != 0
    ensures b > 0 ==> b * q <= a < b * q + b
    ensures b < 0 ==> b * q >= a > b * q + b
  {
    if b > 0 then a / b else (-a) / (-b)
  }

  /** A Python `timedelta`: any number of days, then seconds and microseconds. */
  datatype TimeDelta = TimeDelta(days: int, seconds: int, microseconds: int)

  /** The representation invariant `timedelta` keeps: 0 <= seconds < 86400
      and 0 <= microseconds < 10^6. */
  predicate Normalized(td: TimeDelta) {
    0 <= td.seconds < SecondsPerDay && 0 <= td.microseconds < MicrosPerSecond
  }

  /** The length of a timedelta in microseconds. */
  function TotalMicroseconds(td: TimeDelta): int {
    (td.days * SecondsPerDay + td.seconds) * MicrosPerSecond + td.microseconds
  }

  /** The normalised timedelta `later - earlier` for two datetimes given in
      microseconds: the value Python builds for `timeNow - updateTime`. */
  function Difference(later: int, earlier: int): (td: TimeDelta)
    ensures Normalized(td)
    ensures TotalMicroseconds(td) == later - earlier
  {
    var us := later - earlier;
    var perDay := SecondsPerDay * MicrosPerSecond;
    var days := FloorDiv(us, perDay);
    var rest := us - days * perDay;
    TimeDelta(days, rest / MicrosPerSecond, rest % MicrosPerSecond)
  }

  /** Two normalised timedeltas of equal length are the same value, so
      `Difference` is the only normal form of a duration. */
  lemma NormalFormUnique(a: TimeDelta, b: TimeDelta)
    requires Normalized(a) && Normalized(b)
    requires TotalMicroseconds(a) == TotalMicroseconds(b)
    ensures a == b
  {
  }

  /** The whole-second conversion of a timedelta the script performs: its
      total length in microseconds, divided by 10^6 with Python 2 integer
      division. The microseconds never change the result. */
  function WholeSeconds(td: TimeDelta): (s: int)
    ensures Normalized(td) ==> s == td.days * SecondsPerDay + td.seconds
    ensures s == FloorDiv(TotalMicroseconds(td), MicrosPerSecond)
  {
    FloorDiv(td.microseconds + (td.seconds + td.days * 24 * 3600) * MicrosPerSecond, MicrosPerSecond)
  }

  /** Whole seconds elapsed from `earlier` to `later` (both in microseconds),
      as the script computes it through a timedelta. */
  function ElapsedSeconds(later: int, earlier: int): (d: int)
    ensures d * MicrosPerSecond <= later - earlier < d * MicrosPerSecond + MicrosPerSecond
  {
    WholeSeconds(Difference(later, earlier))
  }

  /** The elapsed whole seconds from a timestamp at whole second `t` (a
      parsed timestamp has no fraction) to `later`: the floored seconds of
      `later` minus `t`. */
  function SecondsSince(later: int, t: int): (d: int)
    ensures d == FloorDiv(later, MicrosPerSecond) - t
  {
    ElapsedSeconds(later, t * MicrosPerSecond)
  }

  /** The floored elapsed seconds lie in [lo, hi] exactly when the raw
      difference in microseconds lies in [lo * 10^6, (hi + 1) * 10^6). */
  lemma ElapsedWithin(later: int, earlier: int, lo: int, hi: int)
    ensures lo <= ElapsedSeconds(later, earlier) <= hi
        <==> lo * MicrosPerSecond <= later - earlier < (hi + 1) * MicrosPerSecond
  {
    var d := ElapsedSeconds(later, earlier);
    if d < lo {
      assert d * MicrosPerSecond + MicrosPerSecond <= lo * MicrosPerSecond;
    }
    if d > hi {
      assert (hi + 1) * MicrosPerSecond <= d * MicrosPerSecond;
    }
    if lo <= d {
      assert lo * MicrosPerSecond <= d * MicrosPerSecond;
    }
    if d <= hi {
      assert d * MicrosPerSecond + MicrosPerSecond <= (hi + 1) * MicrosPerSecond;
    }
  }
}
