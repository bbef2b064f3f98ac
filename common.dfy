/**
 * Shared vocabulary of the market model: optional values, the JVM integer
 * widths the Kotlin code computes in, `Double.toInt()` truncation, and
 * Kotlin's `find`.
 */
module Common {

  datatype Option<+T> = None | Some(value: T)

  /** Kotlin `Int` (32-bit two's complement). */
  const INT_MIN: int := -0x8000_0000
  const INT_MAX: int := 0x7fff_ffff
  type Int32 = x: int | -0x8000_0000 <= x <= 0x7fff_ffff

  /** Kotlin `Long` (64-bit two's complement). */
  type Int64 = x: int | -0x8000_0000_0000_0000 <= x <= 0x7fff_ffff_ffff_ffff

  /** Reduces an unbounded integer into `Int` range the way the JVM does. */
  function WrapInt(x: int): (r: Int32)
    ensures INT_MIN <= x <= INT_MAX ==> r == x
    ensures (x - r) % 0x1_0000_0000 == 0
  {
    (x + 0x8000_0000) % 0x1_0000_0000 - 0x8000_0000
  }

  /** `a + b` on Kotlin `Int`. */
  function AddInt(a: Int32, b: Int32): (r: Int32)
    ensures INT_MIN <= a + b <= INT_MAX ==> r == a + b
    ensures a + b > INT_MAX ==> r == a + b - 0x1_0000_0000
    ensures a + b < INT_MIN ==> r == a + b + 0x1_0000_0000
  {
    WrapInt(a + b)
  }

  /** `a - b` on Kotlin `Int`. */
  function SubInt(a: Int32, b: Int32): (r: Int32)
    ensures INT_MIN <= a - b <= INT_MAX ==> r == a - b
  {
    WrapInt(a - b)
  }

  /** `Double.toInt()`: rounds toward zero (saturation and NaN are not modelled). */
  function Trunc(x: real): (r: int)
    ensures x >= 0.0 ==> r as real <= x < r as real + 1.0
    ensures x < 0.0 ==> r as real - 1.0 < x <= r as real
  {
    if x >= 0.0 then x.Floor else -((-x).Floor)
  }

  /** Kotlin `indexOfFirst`, as `null` when nothing matches. */
  function FirstIndex<T>(xs: seq<T>, p: T -> bool): (r: Option<nat>)
    ensures r.Some? ==> r.value < |xs| && p(xs[r.value])
    ensures r.Some? ==> forall k :: 0 <= k < r.value ==> !p(xs[k])
    ensures r.None? ==> forall k :: 0 <= k < |xs| ==> !p(xs[k])
  {
    if |xs| == 0 then None
    else if p(xs[0]) then Some(0)
    else match FirstIndex(xs[1..], p)
      case None => None
      case Some(k) => Some(k + 1)
  }

  /** Kotlin `find`: the first element satisfying `p`. */
  function Find<T>(xs: seq<T>, p: T -> bool): (r: Option<T>)
    ensures r.Some? ==> r.value in xs && p(r.value)
    ensures r.None? <==> forall k :: 0 <= k < |xs| ==> !p(xs[k])
  {
    match FirstIndex(xs, p)
    case None => None
    case Some(k) => Some(xs[k])
  }
}
