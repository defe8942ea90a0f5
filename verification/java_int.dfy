/** Java `int` arithmetic on Dafny's unbounded integers.
    Addition and multiplication on `int` wrap around modulo 2^32
    (section 15.17 and 15.18 of the Java Language Specification); the
    `(int)` cast of a `double` saturates at the ends of the range
    (section 5.1.3 of the same specification). */
module JavaInt {

  const IntMin: int := -0x8000_0000
  const IntMax: int := 0x7FFF_FFFF
  const Modulus: int := 0x1_0000_0000

  predicate InRange(x: int) {
    IntMin <= x <= IntMax
  }

  /** The 32-bit two's-complement value congruent to `x`. */
  function Wrap(x: int): (r: int)
    ensures InRange(r)
    ensures (x - r) % Modulus == 0
    ensures InRange(x) ==> r == x
  {
    var m := x % Modulus;
    if m > IntMax then m - Modulus else m
  }

  /** `(int) v` for a `double` v that holds the integer `x` exactly. */
  function Saturate(x: int): (r: int)
    ensures InRange(r)
    ensures InRange(x) ==> r == x
    ensures x > IntMax ==> r == IntMax
    ensures x < IntMin ==> r == IntMin
  {
    if x > IntMax then IntMax else if x < IntMin then IntMin else x
  }

  /** 256^k, the value of `Math.pow(16, 2 * k)`. */
  function Pow256(k: nat): (r: nat)
    ensures r > 0
  {
    if k == 0 then 1 else 256 * Pow256(k - 1)
  }
}
