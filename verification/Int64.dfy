/** The C type intmax_t: 64 bits, two's complement. */
module Int64 {
  const TWO63: int := 0x8000_0000_0000_0000
  const TWO64: int := 0x1_0000_0000_0000_0000
  const INTMAX_MIN: int := -TWO63
  const INTMAX_MAX: int := TWO63 - 1

  type int64 = x: int | -0x8000_0000_0000_0000 <= x < 0x8000_0000_0000_0000

  predicate Fits(x: int) { INTMAX_MIN <= x <= INTMAX_MAX }

  /** The value of 64 bits that are right modulo 2^64. */
  function Wrap(x: int): (r: int64)
    ensures Fits(x) ==> r == x
    ensures (r - x) % TWO64 == 0
  {
    var m := x % TWO64;
    if m < TWO63 then m else m - TWO64
  }

  predicate Congruent(a: int, b: int) { (a - b) % TWO64 == 0 }

  lemma MultipleOf(a: int, b: int) returns (k: int)
    requires Congruent(a, b)
    ensures a == b + k * TWO64
  {
    k := (a - b) / TWO64;
  }

  lemma CongruentBy(a: int, b: int, k: int)
    requires a == b + k * TWO64
    ensures Congruent(a, b)
  {
    assert a - b == k * TWO64;
    MultipleMod(k);
  }

  lemma MultipleMod(k: int)
    ensures k * TWO64 % TWO64 == 0
  {
  }

  lemma WrapCongruent(x: int)
    ensures Congruent(Wrap(x), x)
  {
  }

  /** Only one number of 64 bits is right modulo 2^64. */
  lemma WrapUnique(a: int64, x: int)
    requires Congruent(a, x)
    ensures a == Wrap(x)
  {
    var k := MultipleOf(a, x);
    var j := MultipleOf(Wrap(x), x);
    assert a - Wrap(x) == (k - j) * TWO64;
  }

  lemma CongruentAdd(a: int, b: int, c: int, d: int)
    requires Congruent(a, b) && Congruent(c, d)
    ensures Congruent(a + c, b + d)
  {
    var k := MultipleOf(a, b);
    var j := MultipleOf(c, d);
    CongruentBy(a + c, b + d, k + j);
  }

  lemma CongruentMul(a: int, b: int, c: int, d: int)
    requires Congruent(a, b) && Congruent(c, d)
    ensures Congruent(a * c, b * d)
  {
    var k := MultipleOf(a, b);
    var j := MultipleOf(c, d);
    assert a * c == (b + k * TWO64) * (d + j * TWO64) == b * d + (b * j + k * d + k * j * TWO64) * TWO64;
    CongruentBy(a * c, b * d, b * j + k * d + k * j * TWO64);
  }
}
