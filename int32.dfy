/** Kotlin's 32-bit `Int`: its range, two's-complement wrap-around and truncating division. */
module Int32 {

  const MIN: int := -0x8000_0000
  const MAX: int := 0x7fff_ffff
  const Modulus: int := 0x1_0000_0000

  /** The values a Kotlin `Int` can hold. */
  type int32 = x: int | MIN <= x <= MAX

  /** The `Int` that an unbounded result wraps around to. */
  function Wrap(x: int): (r: int32)
    ensures (x - r) % Modulus == 0
    ensures MIN <= x <= MAX ==> r == x
  {
    (x - MIN) % Modulus + MIN
  }

  /** `kotlin.math.abs` on `Int`: the negation of a negative value wraps, so `abs(MIN) == MIN`. */
  function Abs(v: int32): (r: int32)
    ensures v != MIN ==> r >= 0 && (r == v || r == -v)
    ensures v == MIN ==> r == MIN
  {
    if v < 0 then Wrap(-(v as int)) else v
  }

  /** Kotlin's `/` on integers, which truncates toward zero (Dafny's `/` is Euclidean). */
  function TruncDiv(a: int, b: int): (q: int)
    requires b > 0
    ensures 0 <= a ==> 0 <= q * b <= a < q * b + b
    ensures a < 0 ==> q * b - b < a <= q * b <= 0
  {
    if a >= 0 then
      DivBounds(a, b);
      a / b
    else
      DivBounds(-a, b);
      -((-a) / b)
  }

  lemma DivBounds(a: nat, b: int)
    requires b > 0
    ensures 0 <= (a / b) * b <= a < (a / b) * b + b
  {
    assert a == b * (a / b) + a % b;
  }
}
