/** Java's fixed-width integers, written out where the model depends on their range or wrap-around. */
module JavaInts {

  const INT_MIN: int := -0x8000_0000
  const INT_MAX: int := 0x7fff_ffff
  const LONG_MIN: int := -0x8000_0000_0000_0000
  const LONG_MAX: int := 0x7fff_ffff_ffff_ffff
  const LONG_MODULUS: int := 0x1_0000_0000_0000_0000

  predicate IsInt(x: int) { INT_MIN <= x <= INT_MAX }

  predicate IsLong(x: int) { LONG_MIN <= x <= LONG_MAX }

  /** Two's-complement wrap of a mathematical integer into a Java `long`. */
  function WrapLong(x: int): (r: int)
    ensures IsLong(r)
    ensures (r - x) % LONG_MODULUS == 0
    ensures IsLong(x) ==> r == x
  {
    (x - LONG_MIN) % LONG_MODULUS + LONG_MIN
  }

  /** `a - b` on two Java `long`s. */
  function LongSub(a: int, b: int): (r: int)
    requires IsLong(a) && IsLong(b)
    ensures IsLong(r)
    ensures IsLong(a - b) ==> r == a - b
    ensures a - b > LONG_MAX ==> r == a - b - LONG_MODULUS
  {
    WrapLong(a - b)
  }
}
