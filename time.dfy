/** java.time.Instant, reduced to what the dashboard uses: construction from
    seconds plus a nanosecond adjustment, the epoch, and the natural order. */
module Time {

  const NanosPerSecond: int := 1_000_000_000

  /** An instant on the time line; `nano` is in [0, NanosPerSecond) for every
      instant OfEpochSecond builds. */
  datatype Instant = Instant(epochSecond: int, nano: int)

  const Epoch: Instant := Instant(0, 0)

  /** Position on the time line in nanoseconds since the epoch. Instant's
      compareTo orders by seconds, then by nanos; with `nano` normalised this
      is the order of EpochNanos. */
  function EpochNanos(t: Instant): int {
    t.epochSecond * NanosPerSecond + t.nano
  }

  /** Instant.ofEpochSecond(seconds, nanoAdjustment): carries whole seconds out
      of the adjustment with floor division, so the instant denotes exactly
      seconds * 10^9 + nanoAdjustment nanoseconds and its nano part is
      normalised. */
  function OfEpochSecond(seconds: int, nanoAdjustment: int): (t: Instant)
    ensures 0 <= t.nano < NanosPerSecond
    ensures EpochNanos(t) == seconds * NanosPerSecond + nanoAdjustment
  {
    Instant(seconds + nanoAdjustment / NanosPerSecond, nanoAdjustment % NanosPerSecond)
  }
}
