/** Timestamps (src/time.rs): 64-bit counts of 100-nanosecond ticks with saturating
    arithmetic. Durations are whole ticks. */
module Time {
  const MIN_TICKS: int := -0x8000_0000_0000_0000
  const MAX_TICKS: int := 0x7FFF_FFFF_FFFF_FFFF

  type Ticks = t: int | MIN_TICKS <= t <= MAX_TICKS witness 0

  function Plus(now: Ticks, n: nat): Ticks { if now + n > MAX_TICKS then MAX_TICKS else now + n }

  /** The time from `earlier` to `t`, zero if it is not after it. */
  function Since(t: Ticks, earlier: Ticks): nat { if t <= earlier then 0 else t - earlier }

  function Earlier(a: Ticks, b: Ticks): Ticks { if a <= b then a else b }

  function Later(a: Ticks, b: Ticks): Ticks { if a <= b then b else a }
}
