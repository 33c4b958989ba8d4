/** Types shared by every module: outcomes of fallible calls, bytes, and the time
    unit.  Instants and durations are whole nanoseconds, as in Go's `time` package. */
module Base {

  /** A UUID; Postgres orders them as 128-bit numbers. */
  type Id = nat

  datatype Option<+T> = None | Some(value: T)

  datatype Result<+T, +E> = Ok(value: T) | Err(error: E)

  /** How a call to a store ends: it takes effect and says so, it has no effect, or it takes
      effect but the caller sees an error. */
  datatype Fate = Lands | Fails | FailsAfter

  type Byte = b: int | 0 <= b < 256

  type Bytes = seq<Byte>

  type Bytes32 = b: Bytes | |b| == 32 witness seq(32, _ => 0)

  const MILLISECOND: int := 1_000_000
  const SECOND: int := 1_000_000_000
  const HOUR: int := 3600 * SECOND
  const DAY: int := 86400 * SECOND

  /** Go's `Time.Truncate(time.Millisecond)`: the greatest whole millisecond not after `t`. */
  function TruncateMillis(t: int): (r: int)
    ensures r <= t < r + MILLISECOND && r % MILLISECOND == 0
    ensures forall m :: m % MILLISECOND == 0 && m <= t ==> m <= r
  {
    t - t % 1_000_000
  }

  /** The UTC second an instant falls in. */
  function SecondOf(t: int): (s: int)
    ensures s * SECOND <= t < (s + 1) * SECOND
  {
    t / 1_000_000_000
  }

  /** How finely a store keeps instants; each unit divides a second. */
  datatype Grain = Nanos | Micros | Millis | Seconds

  /** An instant as such a store hands it back: the finer digits are dropped. */
  function Coarsen(g: Grain, t: int): int {
    match g
    case Nanos => t
    case Micros => t - t % 1_000
    case Millis => t - t % 1_000_000
    case Seconds => t - t % 1_000_000_000
  }

  /** Whole multiples of a unit do not show in the remainder. */
  lemma MicroRemainder(t: int, k: int)
    ensures (t + 1_000 * k) % 1_000 == t % 1_000
  {
    assert t + 1_000 * k == 1_000 * (t / 1_000 + k) + t % 1_000;
  }

  lemma MilliRemainder(t: int, k: int)
    ensures (t + 1_000_000 * k) % 1_000_000 == t % 1_000_000
  {
    assert t + 1_000_000 * k == 1_000_000 * (t / 1_000_000 + k) + t % 1_000_000;
  }

  lemma SecondRemainder(t: int, k: int)
    ensures (t + 1_000_000_000 * k) % 1_000_000_000 == t % 1_000_000_000
  {
    assert t + 1_000_000_000 * k == 1_000_000_000 * (t / 1_000_000_000 + k) + t % 1_000_000_000;
  }

  /** Dropping digits commutes with adding whole seconds. */
  lemma CoarsenShift(g: Grain, t: int, n: int)
    ensures Coarsen(g, t + n * SECOND) == Coarsen(g, t) + n * SECOND
  {
    match g
    case Nanos =>
    case Micros => MicroRemainder(t, 1_000_000 * n);
    case Millis => MilliRemainder(t, 1_000 * n);
    case Seconds => SecondRemainder(t, n);
  }

  /** Dropping digits moves an instant back, but not out of its second. */
  lemma CoarsenKeepsSecond(g: Grain, t: int)
    ensures Coarsen(g, t) <= t && SecondOf(Coarsen(g, t)) == SecondOf(t)
  {
    var s := SecondOf(t);
    var r := t - s * SECOND;
    CoarsenShift(g, r, s);
    assert 0 <= Coarsen(g, r) <= r < SECOND;
  }
}
