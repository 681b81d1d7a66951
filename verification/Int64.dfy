/** Signed 64-bit integers, whose arithmetic wraps around. */
module Int64 {
  const MAX_INT64: int := 0x7fff_ffff_ffff_ffff

  predicate IsInt64(x: int) {
    -MAX_INT64 - 1 <= x <= MAX_INT64
  }

  /** The result of 64-bit arithmetic that is x on unbounded integers. */
  function Wrap64(x: int): (w: int)
    ensures IsInt64(w) && (IsInt64(x) ==> w == x) && (x - w) % 0x1_0000_0000_0000_0000 == 0
  {
    (x + 0x8000_0000_0000_0000) % 0x1_0000_0000_0000_0000 - 0x8000_0000_0000_0000
  }

  /** A sum with a position never wraps around to another valid position: it becomes negative. */
  lemma WrapIsSafe(base: int, off: int)
    requires 0 <= base <= MAX_INT64 && IsInt64(off)
    ensures if 0 <= base + off <= MAX_INT64 then Wrap64(base + off) == base + off else Wrap64(base + off) < 0
  {
  }
}
