/**
 * Powers of two, the bit test on non-negative and negative integers, and the
 * facts about integer division the bit printer's proofs rest on.
 *
 * Dafny's `/` and `%` on `int` are Euclidean; for the positive divisors used
 * here (powers of two) `x / d` is the floor of x/d and `x % d` lies in 0..d-1,
 * which is exactly what an arithmetic right shift by i and a mask `& 1` do to
 * a two's-complement integer.
 */
module Arith {

  /** 2^n. */
  function Pow2(n: nat): (r: nat)
    ensures r >= 1
    ensures n >= 1 ==> r % 2 == 0
  {
    if n == 0 then 1 else 2 * Pow2(n - 1)
  }

  /** Bit i of x: `(x >> i) & 1` for an arithmetic shift. */
  function Bit(x: int, i: nat): (r: nat)
    ensures r < 2
  {
    (x / Pow2(i)) % 2
  }

  lemma Pow2Byte()
    ensures Pow2(8) == 256
  {
    assert Pow2(2) == 4;
    assert Pow2(4) == 16;
    assert Pow2(6) == 64;
  }

  lemma Pow2Table()
    ensures Pow2(0) == 1 && Pow2(1) == 2 && Pow2(2) == 4 && Pow2(3) == 8
    ensures Pow2(4) == 16 && Pow2(5) == 32 && Pow2(6) == 64 && Pow2(7) == 128
    ensures Pow2(8) == 256
  {
    Pow2Byte();
  }

  lemma {:induction false} Pow2Add(a: nat, b: nat)
    ensures Pow2(a + b) == Pow2(a) * Pow2(b)
  {
    if a > 0 {
      var p, q := Pow2(a - 1), Pow2(b);
      Pow2Add(a - 1, b);
      assert Pow2(a + b) == 2 * Pow2(a - 1 + b) == 2 * (p * q);
      MulAssoc(2, p, q);
    }
  }

  /** The quotient and remainder of a division are the only ones. */
  lemma DivModUnique(v: int, d: int, q: int, r: int)
    requires d > 0 && 0 <= r < d && v == d * q + r
    ensures v / d == q && v % d == r
  {
    var q0, r0 := v / d, v % d;
    assert v == d * q0 + r0;
    assert d * (q - q0) == r0 - r;
    MulAwayFromZero(d, q - q0);
  }

  lemma MulAwayFromZero(d: int, e: int)
    requires d > 0
    ensures e >= 1 ==> d * e >= d
    ensures e <= -1 ==> d * e <= -d
  {
    if e >= 1 {
      assert d * e == d + d * (e - 1);
    } else if e <= -1 {
      assert d * e == -d + d * (e + 1);
    }
  }

  lemma DivAddMultiple(x: int, d: int, k: int)
    requires d > 0
    ensures (x + d * k) / d == x / d + k
  {
    assert x + d * k == d * (x / d + k) + x % d;
    DivModUnique(x + d * k, d, x / d + k, x % d);
  }

  /** Dividing by a and then by b divides by a * b. */
  lemma DivDiv(v: int, a: int, b: int)
    requires a > 0 && b > 0
    ensures v / a / b == v / (a * b)
  {
    var q, r := v / a, v % a;
    var q2, r2 := q / b, q % b;
    var low := a * r2 + r;
    RegroupQuotient(a, b, q2, r2);
    assert v == (a * b) * q2 + low;
    RemainderBound(a, b, r2, r);
    DivModUnique(v, a * b, q2, low);
  }

  /** a * (b * q + r) == (a * b) * q + a * r. */
  lemma RegroupQuotient(a: int, b: int, q: int, r: int)
    ensures a * (b * q + r) == (a * b) * q + a * r
  {
    MulAssoc(a, b, q);
  }

  /** A remainder r2 < b scaled by a, plus a remainder r < a, stays below a * b. */
  lemma RemainderBound(a: int, b: int, r2: int, r: int)
    requires a > 0 && 0 <= r2 < b && 0 <= r < a
    ensures 0 <= a * r2 + r < a * b
  {
    MulAwayFromZero(a, b - r2);
    assert a * (b - r2) == a * b - a * r2;
  }

  /** Bit i of x / 2^j is bit i + j of x. */
  lemma BitOfQuotient(x: int, j: nat, i: nat)
    ensures Bit(x / Pow2(j), i) == Bit(x, i + j)
  {
    DivDiv(x, Pow2(j), Pow2(i));
    Pow2Add(j, i);
  }

  /**
   * Adding a multiple of 2^j leaves every bit below j unchanged, whatever
   * the sign of x: this is why a byte's low bits survive sign extension
   * and reduction modulo 256.
   */
  lemma BitBelowMultiple(x: int, m: int, i: nat, j: nat)
    requires i < j
    ensures Bit(x + Pow2(j) * m, i) == Bit(x, i)
  {
    var p, t := Pow2(i), Pow2(j - i - 1) * m;
    MultipleOfHigherPower(m, i, j);
    DivAddMultiple(x, p, 2 * t);
    ParityOfEvenShift(x / p, t);
  }

  /** m * 2^j == 2^i * (2 * (2^(j-i-1) * m)) when i < j. */
  lemma MultipleOfHigherPower(m: int, i: nat, j: nat)
    requires i < j
    ensures Pow2(j) * m == Pow2(i) * (2 * (Pow2(j - i - 1) * m))
  {
    var p, h := Pow2(i), Pow2(j - i - 1);
    Pow2Add(i, j - i);
    assert Pow2(j) == p * Pow2(j - i);
    assert Pow2(j - i) == 2 * h;
    MulAssoc(p, 2 * h, m);
    MulAssoc(2, h, m);
  }

  lemma MulAssoc(a: int, b: int, c: int)
    ensures (a * b) * c == a * (b * c)
  {
  }

  lemma ParityOfEvenShift(y: int, t: int)
    ensures (y + 2 * t) % 2 == y % 2
  {
    DivAddMultiple(y, 2, t);
    assert y + 2 * t == 2 * (y / 2 + t) + y % 2;
  }
}
