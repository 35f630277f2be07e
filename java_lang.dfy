/** Java's 32-bit `int` and the exceptions that the configuration domain can raise. */
module JavaLang {

  const INT_MIN: int := -0x8000_0000
  const INT_MAX: int := 0x7fff_ffff
  const TWO_32: int := 0x1_0000_0000

  /** A value of Java's primitive `int`. */
  type Int32 = x: int | INT_MIN <= x <= INT_MAX

  /** Two's-complement wrap-around: the `int` that Java's arithmetic yields for the exact value `x`. */
  function Wrap32(x: int): (r: Int32)
    ensures (x - r) % TWO_32 == 0
    ensures INT_MIN <= x <= INT_MAX ==> r == x
  {
    (x - INT_MIN) % TWO_32 + INT_MIN
  }

  /** Wrapping an exact value and adding more before wrapping again is the same as wrapping once. */
  lemma WrapAdd(a: int, b: int)
    ensures Wrap32(a + Wrap32(b)) == Wrap32(a + b)
  {
  }

  /** The Java exceptions the modelled code can let escape. */
  datatype Exception =
    | IllegalArgument      // ThreadLocalRandom.nextInt with an empty range
    | IndexOutOfBounds     // reading a solution slot past its end
    | NoSuchElement        // OptionalInt.getAsInt on an empty stream

  /** A value returned normally, or the exception thrown instead. */
  datatype Result<T> = Ok(value: T) | Throws(exception: Exception)

  /** How a `void` Java method ended. */
  datatype Outcome = Normal | Thrown(exception: Exception)

  function Min(a: int, b: int): (r: int) { if a <= b then a else b }

  function Max(a: int, b: int): (r: int) { if a >= b then a else b }
}
