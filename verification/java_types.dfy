/** Java value types the listener relies on: 32-bit `int` with its
    wrap-around on `++`, `List.size()` and `java.util.Optional`. */
module JavaTypes {

  const MinInt32: int := -0x8000_0000
  const MaxInt32: int := 0x7fff_ffff

  /** A Java `int`. */
  type int32 = x: int | MinInt32 <= x <= MaxInt32

  /** `java.util.Optional<Integer>`: empty or holding a value. */
  datatype Option<+T> = None | Some(value: T)

  /** Java's `x++` on an `int`: two's-complement wrap-around at the top. */
  function Inc(x: int32): (r: int32)
    ensures r == (x + 1 - MinInt32) % 0x1_0000_0000 + MinInt32
  {
    if x == MaxInt32 then MinInt32 else x + 1
  }

  /** `List.size()`: the number of elements, capped at `Integer.MAX_VALUE`. */
  function ListSize<T>(s: seq<T>): (r: int32)
    ensures 0 <= r <= |s|
    ensures |s| <= MaxInt32 ==> r == |s|
    ensures |s| > MaxInt32 ==> r == MaxInt32
  {
    if |s| <= MaxInt32 then |s| else MaxInt32
  }
}
