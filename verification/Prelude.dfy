/** Small shared vocabulary: optional values and the unsigned 32-bit counters. */
module Prelude {

  datatype Option<+T> = None | Some(value: T)

  const U32_MAX := 0xFFFF_FFFF

  /** Go's uint32. */
  type u32 = x: int | 0 <= x <= U32_MAX

  /** Go's `x++` on a uint32: the largest value wraps around to zero. */
  function Inc32(x: u32): u32 {
    if x == U32_MAX then 0 else x + 1
  }

  /** The last `k` elements of `s`, or all of it when it is shorter. */
  function LastN<T>(s: seq<T>, k: nat): seq<T> {
    if |s| <= k then s else s[|s| - k..]
  }

  /** Cutting first or last makes no difference when one element is put at the end. */
  lemma LastNGrow<T>(all: seq<T>, x: T, n: nat)
    ensures LastN(LastN(all, n) + [x], n) == LastN(all + [x], n)
  {
  }

  /** No element occurs twice. */
  ghost predicate Distinct<T(!new)>(s: seq<T>) {
    forall i, j :: 0 <= i < j < |s| ==> s[i] != s[j]
  }
}
