/**
 * Instants and .NET integer arithmetic.
 *
 * A `DateTime` is modelled by its tick count (100 ns units since 0001-01-01),
 * which is what the source compares and adds. 32-bit `int` behaviour is
 * written out where the source relies on it.
 */
module Ticks {

  const TicksPerSecond: int := 10_000_000
  const TicksPerMinute: int := 600_000_000        // 60 seconds
  const TicksPerHour: int := 36_000_000_000       // 60 minutes
  const TicksPerDay: int := 864_000_000_000       // 24 hours

  /** `DateTime.MinValue.Ticks` and `DateTime.MaxValue.Ticks`. */
  const MinTicks: int := 0
  const MaxTicks: int := 3_155_378_975_999_999_999

  predicate InDateRange(t: int) {
    MinTicks <= t <= MaxTicks
  }

  const Int32Min: int := -0x8000_0000
  const Int32Max: int := 0x7FFF_FFFF

  predicate IsInt32(x: int) {
    Int32Min <= x <= Int32Max
  }

  /** Unchecked 32-bit two's-complement wrap-around (C#'s default `int` arithmetic). */
  function Wrap32(x: int): (r: int)
    ensures IsInt32(r)
    ensures (r - x) % 0x1_0000_0000 == 0
    ensures IsInt32(x) ==> r == x
  {
    var m := (x - Int32Min) % 0x1_0000_0000;
    m + Int32Min
  }

  /** A value one turn above the `int` range wraps to one turn lower. */
  lemma Wrap32OneTurn(x: int)
    requires IsInt32(x - 0x1_0000_0000)
    ensures Wrap32(x) == x - 0x1_0000_0000
  {
    var d := x - Int32Min;
    assert 0x1_0000_0000 <= d < 2 * 0x1_0000_0000;
    assert d % 0x1_0000_0000 == d - 0x1_0000_0000;
  }

  /** C#'s integer division, which truncates toward zero (Dafny's `/` is Euclidean). */
  function DivTrunc(a: int, b: int): (q: int)
    requires b > 0
    ensures a >= 0 ==> q == a / b
    ensures a >= 0 ==> q * b <= a < q * b + b
    ensures a < 0 ==> q * b >= a > q * b - b
  {
    if a >= 0 then a / b else -((-a) / b)
  }

  /**
   * Conversion of a double to `int` with the result saturated at the
   * `int` bounds, as .NET 9 and later convert (the runtime this model
   * assumes; .NET 5 to 8 on x64 give `int.MinValue` for out-of-range values).
   */
  function SaturateInt32(x: int): (r: int)
    ensures IsInt32(r)
    ensures IsInt32(x) ==> r == x
    ensures x > Int32Max ==> r == Int32Max
    ensures x < Int32Min ==> r == Int32Min
  {
    if x > Int32Max then Int32Max else if x < Int32Min then Int32Min else x
  }
}
