/** Session deadlines and the two time encodings that share one stored field:
    internal/store/redis/sessions.go, lines 68-104. */
module SessionTime {
  import opened Base
  import Decimal

  datatype DeadlineError = IdleNotPositive | AbsolutePassed | BelowPrecision

  function SessionDeadline(idleTTL: int, absoluteExpiry: int, now: int): Result<int, DeadlineError> {
    if idleTTL <= 0 then Err(IdleNotPositive)
    else if absoluteExpiry <= now then Err(AbsolutePassed)
    else
      var soonest := if absoluteExpiry < now + idleTTL then absoluteExpiry else now + idleTTL;
      var deadline := TruncateMillis(soonest);
      if deadline <= now then Err(BelowPrecision) else Ok(deadline)
  }

  /** A whole millisecond strictly after `now` and past neither of the two limits. */
  predicate Admissible(idleTTL: int, absoluteExpiry: int, now: int, t: int) {
    t % MILLISECOND == 0 && now < t <= now + idleTTL && t <= absoluteExpiry
  }

  /** The deadline exists exactly when an admissible instant does, and is then the last one. */
  lemma DeadlineIsLastAdmissible(idleTTL: int, absoluteExpiry: int, now: int)
    ensures var r := SessionDeadline(idleTTL, absoluteExpiry, now);
            && (r.Ok? <==> exists t :: Admissible(idleTTL, absoluteExpiry, now, t))
            && (r.Ok? ==> Admissible(idleTTL, absoluteExpiry, now, r.value)
                          && forall t :: Admissible(idleTTL, absoluteExpiry, now, t) ==> t <= r.value)
  {
    var r := SessionDeadline(idleTTL, absoluteExpiry, now);
    var soonest := if absoluteExpiry < now + idleTTL then absoluteExpiry else now + idleTTL;
    forall t | Admissible(idleTTL, absoluteExpiry, now, t)
      ensures r.Ok? && t <= r.value
    {
      assert t <= soonest;
      assert t <= TruncateMillis(soonest);
    }
    if r.Ok? {
      assert Admissible(idleTTL, absoluteExpiry, now, r.value);
    }
  }

  const TWO_64: int := 0x1_0000_0000_0000_0000
  const SECONDS_BOUND: int := 1_000_000_000_000

  /** Time.UnixNano: the low 64 bits of the nanosecond count, read as a signed number. */
  function UnixNano(t: int): (n: int)
    ensures Decimal.INT64_MIN <= n <= Decimal.INT64_MAX
    ensures Decimal.INT64_MIN <= t <= Decimal.INT64_MAX ==> n == t
  {
    (t + 0x8000_0000_0000_0000) % 0x1_0000_0000_0000_0000 - 0x8000_0000_0000_0000
  }

  function EncodeTime(t: int): string {
    Decimal.FormatInt(UnixNano(t))
  }

  /** Small counts are the legacy form in whole seconds; all others are nanoseconds. */
  function DecodeTime(s: string): Option<int> {
    var n := Decimal.ParseInt64(s);
    if n.None? then None
    else if -SECONDS_BOUND < n.value < SECONDS_BOUND then Some(n.value * SECOND)
    else Some(n.value)
  }

  /** Instants the stored field can hold: the epoch itself, or at least 1000 s away from it
      and within the range of a signed 64-bit nanosecond count. */
  predicate Storable(t: int) {
    t == 0 || (Decimal.INT64_MIN <= t <= Decimal.INT64_MAX && !(-SECONDS_BOUND < t < SECONDS_BOUND))
  }

  lemma DecodeOfFormatted(n: int)
    requires Decimal.INT64_MIN <= n <= Decimal.INT64_MAX
    ensures DecodeTime(Decimal.FormatInt(n))
         == Some(if -SECONDS_BOUND < n < SECONDS_BOUND then n * SECOND else n)
  {
    Decimal.ParseFormatInt(n);
  }

  /** Every legacy count of seconds below 10^12 in magnitude decodes to that many seconds. */
  lemma LegacySeconds(n: int)
    requires -SECONDS_BOUND < n < SECONDS_BOUND
    ensures DecodeTime(Decimal.FormatInt(n)) == Some(n * SECOND)
  {
    DecodeOfFormatted(n);
  }

  /** Scaling a small count to nanoseconds never lands on a number congruent to it modulo
      2^64, except at zero: 10^9 - 1 and 2^64 are coprime. */
  lemma NoCongruence(n: int, k: int)
    requires -SECONDS_BOUND < n < SECONDS_BOUND
    requires n * SECOND == n + k * TWO_64
    ensures n == 0 && k == 0
  {
    var z := n * BEZOUT_U - k * BEZOUT_Q;
    assert k == 999_999_999 * z;
    assert -1000 < k < 1000;
    assert z == 0;
  }

  const BEZOUT_U: int := 493644118
  const BEZOUT_Q: int := 9106126717344205313

  /** Decoding undoes encoding exactly for the storable instants. */
  lemma DecodeEncodeExact(t: int)
    ensures DecodeTime(EncodeTime(t)) == Some(t) <==> Storable(t)
  {
    var n := UnixNano(t);
    DecodeOfFormatted(n);
    var k := (t + 0x8000_0000_0000_0000) / 0x1_0000_0000_0000_0000;
    assert t == n + k * TWO_64;
    if -SECONDS_BOUND < n < SECONDS_BOUND && n * SECOND == t {
      NoCongruence(n, k);
    }
  }

  /** The first instant past the range is stored as the earliest one in it. */
  lemma WrapsAround(t: int)
    requires t == Decimal.INT64_MAX + 1
    ensures !Storable(t) && DecodeTime(EncodeTime(t)) == Some(Decimal.INT64_MIN)
  {
    DecodeOfFormatted(UnixNano(t));
  }
}
