/** Small value types shared by the models. */
module Common {

  datatype Option<+T> = None | Some(value: T)

  /** A clock reading in clock ticks (microseconds). */
  type Time = int

  /** `Clock::time_point::max()`: "never". */
  const NEVER: Time := 0x7FFF_FFFF_FFFF_FFFF

  /** `Clock::time_point::min()`: "as soon as possible", and "not set yet". */
  const IMMEDIATELY: Time := -0x8000_0000_0000_0000

  function Max(a: int, b: int): int {
    if a < b then b else a
  }

  function Min(a: int, b: int): int {
    if b < a then b else a
  }
}
