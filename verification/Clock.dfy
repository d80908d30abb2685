/** Signed 64-bit Unix seconds with saturating arithmetic, and durations. */
module Clock {

  const I64_MAX: int := 0x7FFF_FFFF_FFFF_FFFF
  const I64_MIN: int := -0x8000_0000_0000_0000

  predicate IsI64(x: int) {
    I64_MIN <= x <= I64_MAX
  }

  type I64 = x: int | I64_MIN <= x <= I64_MAX

  function Saturate(x: int): int {
    if x > I64_MAX then I64_MAX else if x < I64_MIN then I64_MIN else x
  }

  function SatAdd(a: int, b: int): int {
    Saturate(a + b)
  }

  function SatSub(a: int, b: int): int {
    Saturate(a - b)
  }

  /** Whole seconds (an unsigned 64-bit count) and the nanoseconds that are left. */
  datatype Duration = Duration(secs: nat, nanos: nat) {
    predicate Positive() {
      secs > 0 || nanos > 0
    }

    /** `i64::try_from(as_secs()).unwrap_or(i64::MAX)`. */
    function Seconds(): int {
      if secs > I64_MAX then I64_MAX else secs
    }
  }
}
