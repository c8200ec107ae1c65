/** Types shared by every part of the model. */
module Basics {

  /** Go's `byte`; strings and byte slices are both sequences of bytes. */
  type Byte = b: nat | b < 256

  type Bytes = seq<Byte>

  datatype Option<+T> = None | Some(value: T)

  datatype Result<+T, +E> = Ok(value: T) | Err(error: E)

  /** An instant or a duration, in the unit of whichever clock the member at hand reads. */
  type Time = int

  const TWO_63: int := 0x8000_0000_0000_0000
  const TWO_64: int := 0x1_0000_0000_0000_0000

  function Max(a: int, b: int): int {
    if a < b then b else a
  }

  /** A millisecond of a clock that counts nanoseconds. */
  const MILLI: int := 1_000_000

  /** What both database stores make of a TTL: `Milliseconds()`, clamped to at least 1. Below one
      millisecond it does not matter which way a negative duration is rounded. */
  function Millis(d: Time): (ms: Time)
    ensures ms >= 1
    ensures MILLI * ms == d <==> d >= MILLI && d % MILLI == 0
    ensures d >= MILLI ==> d - MILLI < MILLI * ms <= d
    ensures d < MILLI ==> ms == 1
  {
    AtLeast1(d / MILLI)
  }

  /** A duration cut to whole milliseconds. */
  function FloorMs(d: Time): (r: Time)
    ensures d - MILLI < r <= d
    ensures r == d <==> d % MILLI == 0
    ensures r % MILLI == 0
  {
    d / MILLI * MILLI
  }

  /** A positive duration rounded to the nearest whole millisecond, halves up. */
  function NearestMs(d: Time): (r: Time)
    ensures d - MILLI / 2 < r <= d + MILLI / 2
    ensures r == d <==> d % MILLI == 0
    ensures r % MILLI == 0
  {
    FloorMs(d + MILLI / 2)
  }

  /** The clamp both database stores put on a TTL in milliseconds. */
  function AtLeast1(ms: Time): (r: Time)
    ensures r >= 1
    ensures r == ms <==> ms >= 1
  {
    Max(ms, 1)
  }
}
