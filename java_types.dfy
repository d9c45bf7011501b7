/** Java value conventions the detector activity relies on: references that may
    be null, the signed 8-bit `byte`, and 32-bit two's-complement `int`
    arithmetic, which wraps around instead of growing. */
module JavaTypes {

  /** A Java reference field that may hold null. */
  datatype Option<T> = None | Some(value: T)

  /** Java `byte`. */
  newtype int8 = x: int | -128 <= x < 128

  const IntMin: int := -0x8000_0000
  const IntMax: int := 0x7fff_ffff
  const IntModulus: int := 0x1_0000_0000

  /** The values a Java `int` can hold. */
  predicate IsInt(x: int) {
    IntMin <= x <= IntMax
  }

  /** The Java `int` holding the low 32 bits of `x`: what `+` and `-` on
      `int` operands produce when the exact result is `x`. */
  function Wrap(x: int): (r: int)
    ensures IsInt(r)
    ensures IsInt(x) ==> r == x
    ensures x == IntMax + 1 ==> r == IntMin
  {
    (x - IntMin) % IntModulus + IntMin
  }
}
