/** Small things every other module uses. */
module Basics {

  datatype Option<+T> = None | Some(value: T)

  /** A second in nanoseconds, the unit of all times and durations here. */
  const SECOND: int := 1_000_000_000

  const INT64_RANGE: int := 0x1_0000_0000_0000_0000
  const INT64_MAX: int := 0x7fff_ffff_ffff_ffff

  /** Two's-complement 64-bit arithmetic. */
  function Wrap64(x: int): int {
    (x + INT64_MAX + 1) % INT64_RANGE - INT64_MAX - 1
  }

  function Min(a: int, b: int): int {
    if a < b then a else b
  }

  function Max(a: int, b: int): int {
    if a < b then b else a
  }

  /** The first `n` elements, or all of them when there are no more. */
  function Cut<T>(s: seq<T>, n: nat): seq<T> {
    if n < |s| then s[..n] else s
  }

  /** Reading a Go map: a missing key gives the empty string. */
  function Lookup(m: map<string, string>, key: string): string {
    if key in m then m[key] else ""
  }
}
