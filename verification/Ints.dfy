/** 64-bit signed arithmetic as the host platform does it. */
module Ints {

  const MIN64 := -0x8000_0000_0000_0000
  const MAX64 := 0x7FFF_FFFF_FFFF_FFFF

  predicate Int64(x: int) { MIN64 <= x <= MAX64 }

  /** Two's-complement truncation to 64 bits. */
  function Wrap64(x: int): (r: int)
    ensures Int64(r)
    ensures Int64(x) ==> r == x
    ensures MAX64 < x <= MAX64 - 2 * MIN64 ==> r == x + 2 * MIN64
    ensures x % 2 == 0 ==> r % 2 == 0
  {
    (x - MIN64) % (-2 * MIN64) + MIN64
  }

  /** Two's-complement arithmetic: the value in range that differs by a whole multiple of
      two to the sixty-fourth. */
  lemma WrapSpelledOut(x: int) returns (k: int)
    ensures -0x8000_0000_0000_0000 <= Wrap64(x) <= 0x7FFF_FFFF_FFFF_FFFF
    ensures x == Wrap64(x) + 0x1_0000_0000_0000_0000 * k
  {
    k := (x + 0x8000_0000_0000_0000) / 0x1_0000_0000_0000_0000;
  }
}
