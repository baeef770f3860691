/** The numerical utilities: the finiteness check every constructor applies to its
    components, and the fast inverse square root behind every normalisation. */
module Numbers {
  import opened Wrappers
  import opened Runtime

  /** `requireFinite`: the value itself when it is finite, an IllegalArgumentException
      for NaN and both infinities. */
  function RequireFinite(v: Num): (r: Result<real>)
    ensures r.Ok? <==> v.Fin?
    ensures r.Ok? ==> r.value == v.value
    ensures r.Err? ==> r.error == IllegalArgument
  {
    if v.Fin? then Ok(v.value) else Err(IllegalArgument)
  }

  /** A value that passed the check passes it again unchanged. */
  lemma RequireFiniteIdempotent(v: Num)
    requires RequireFinite(v).Ok?
    ensures RequireFinite(Fin(RequireFinite(v).value)) == RequireFinite(v)
  {
  }

  /** A product, kept behind a function so that sign facts about squares are stated
      about the product as a whole. */
  function Product(x: real, y: real): real {
    x * y
  }

  function Square(a: real): real {
    Product(a, a)
  }

  lemma ProductSign(x: real, y: real)
    ensures x > 0.0 && y > 0.0 ==> Product(x, y) > 0.0
    ensures x < 0.0 && y < 0.0 ==> Product(x, y) > 0.0
  {
  }

  lemma ProductSignMixed(x: real, y: real)
    ensures x < 0.0 && y > 0.0 ==> Product(x, y) < 0.0
  {
  }

  /** Two positive numbers with the same square are equal. */
  lemma PositiveRootUnique(a: real, b: real)
    requires a > 0.0 && b > 0.0 && Square(a) == Square(b)
    ensures a == b
  {
    assert Product(a - b, a + b) == Square(a) - Square(b);
    ProductSign(a - b, a + b);
    ProductSignMixed(a - b, a + b);
  }

  /** The positive square root of 1 is 1. */
  lemma UnitRoot(r: real)
    requires r > 0.0 && r * r == 1.0
    ensures r == 1.0
  {
    PositiveRootUnique(r, 1.0);
  }

  /** Equal factors give equal products; stated on its own so that a product
      of two function values can be rewritten factor by factor. */
  lemma ProductCongruence(x: real, x': real, y: real, y': real)
    requires x == x' && y == y'
    ensures x * y == x' * y'
  {
  }

  /** A number whose square and another square add up to 1 lies in [-1, 1]. */
  lemma UnitBound(c: real, s: real)
    requires c * c + s * s == 1.0
    ensures -1.0 <= c <= 1.0
  {
    SquareSign(s);
    assert Product(c - 1.0, c + 1.0) == c * c - 1.0;
    ProductSign(c - 1.0, c + 1.0);
  }

  /** A nonzero factor cancels. */
  lemma Cancel(a: real, b: real, m: real)
    requires m != 0.0 && a * m == b * m
    ensures a == b
  {
    assert Product(a - b, m) == a * m - b * m;
    ProductSign(a - b, m);
    ProductSignMixed(a - b, m);
    ProductSign(b - a, m);
    ProductSignMixed(b - a, m);
  }

  /** A square is never negative, and zero only for zero. */
  lemma SquareSign(a: real)
    ensures Square(a) >= 0.0
    ensures Square(a) == 0.0 <==> a == 0.0
  {
    ProductSign(a, a);
  }

  //
  // The bit-level seed of the inverse square root
  //

  const TWO_52: int := 0x10_0000_0000_0000
  const TWO_63: int := 0x8000_0000_0000_0000
  const TWO_64: int := 0x1_0000_0000_0000_0000

  /** The "magic" constant of the fast inverse square root for 64-bit doubles. */
  const MAGIC: int := 0x5fe6ec85e7de30da

  /** Two's-complement wrap-around of a Java `long`. */
  function Wrap64(n: int): (r: int)
    ensures -TWO_63 <= r < TWO_63
    ensures (r - n) % TWO_64 == 0
  {
    (n + TWO_63) % TWO_64 - TWO_63
  }

  /** `0x5fe6ec85e7de30daL - (l >> 1)` on longs; `>>` is an arithmetic shift, that is,
      division by two rounding towards minus infinity (Dafny's `/` on a positive
      divisor). */
  function SeedBits(l: int): int {
    Wrap64(MAGIC - l / 2)
  }

  function Pow2Nat(n: nat): (r: real)
    ensures r > 0.0
  {
    if n == 0 then 1.0 else 2.0 * Pow2Nat(n - 1)
  }

  function Pow2(e: int): (r: real)
    ensures r > 0.0
  {
    if e >= 0 then Pow2Nat(e) else 1.0 / Pow2Nat(-e)
  }

  /** The 11-bit biased exponent field of a non-negative bit pattern. */
  function Exponent(bits: nat): nat {
    bits / TWO_52
  }

  /** Bit patterns of positive normal doubles: sign 0, exponent neither 0 nor 2047. */
  predicate PositiveNormal(bits: int) {
    0 <= bits < TWO_63 && 1 <= Exponent(bits) <= 2046
  }

  /** The value IEEE 754 assigns to a positive normal bit pattern:
      (2^52 + fraction) * 2^(exponent - 1075). */
  function NormalValue(bits: int): (r: real)
    requires PositiveNormal(bits)
    ensures r > 0.0
  {
    ((TWO_52 + bits % TWO_52) as real) * Pow2(Exponent(bits) - 1075)
  }

  /** What Java's bit casts do on the inputs the lemmas need: +0.0 has the all-zero
      pattern, and longBitsToDouble decodes positive normal patterns as IEEE 754 says. */
  ghost predicate BitsLaws(p: Platform) {
    && p.doubleToLongBits(0.0) == 0
    && (forall l :: PositiveNormal(l) ==> p.longBitsToDouble(l) == NormalValue(l))
  }

  /** The initial guess of `isqrt`: reinterpret, shift, subtract, reinterpret back. */
  function Seed(p: Platform, x: real): real {
    p.longBitsToDouble(SeedBits(p.doubleToLongBits(x)))
  }

  //
  // Newton refinement
  //

  /** The number of Newton steps `isqrt` takes. */
  const ITERATIONS: nat := 4

  /** One Newton step for 1/sqrt(x), written with xhalf = 0.5 * x. */
  function NewtonStep(xhalf: real, r: real): real {
    r * (1.5 - xhalf * r * r)
  }

  /** `n` Newton steps from `r`, all with the same `xhalf`. */
  function NewtonSteps(xhalf: real, r: real, n: nat): real {
    if n == 0 then r else NewtonStep(xhalf, NewtonSteps(xhalf, r, n - 1))
  }

  /** The value `isqrt(x)` returns: four Newton steps from the seed, with `xhalf`
      taken once from the input. */
  function ISqrtOf(p: Platform, x: real): real {
    NewtonSteps(0.5 * x, Seed(p, x), ITERATIONS)
  }

  /** `isqrt` as the source computes it: the seed from the bit trick, then exactly
      four Newton steps; `xhalf` is computed from the input before the seed
      overwrites `result` and is never updated by the loop. */
  method ISqrt(p: Platform, x: real) returns (result: real)
    ensures result == NewtonSteps(0.5 * x, Seed(p, x), ITERATIONS)
  {
    result := x;
    var xhalf := 0.5 * result;
    var l := p.doubleToLongBits(result);
    l := SeedBits(l);
    result := p.longBitsToDouble(l);
    for i := 0 to ITERATIONS
      invariant xhalf == 0.5 * x
      invariant result == NewtonSteps(xhalf, Seed(p, x), i)
    {
      result := result * (1.5 - xhalf * result * result);
    }
  }

  /** An exact inverse square root is a fixed point of every Newton step. */
  lemma {:induction false} NewtonFixedPoint(xhalf: real, r: real, n: nat)
    requires 2.0 * xhalf * r * r == 1.0
    ensures NewtonSteps(xhalf, r, n) == r
  {
    if n > 0 {
      NewtonFixedPoint(xhalf, r, n - 1);
      assert xhalf * r * r == 0.5;
    }
  }

  /** When the seed is exactly 1/sqrt(x), `isqrt` returns it unchanged. */
  lemma ISqrtOfExactSeed(p: Platform, x: real)
    requires Seed(p, x) * Seed(p, x) * x == 1.0
    ensures ISqrtOf(p, x) == Seed(p, x)
  {
    var s := Seed(p, x);
    assert 2.0 * (0.5 * x) * s * s == s * s * x;
    NewtonFixedPoint(0.5 * x, s, ITERATIONS);
  }

  /** With xhalf = 0 every Newton step multiplies by 1.5. */
  lemma {:induction false} NewtonWithoutCorrection(r: real, n: nat)
    ensures NewtonSteps(0.0, r, n) == r * Pow15(n)
  {
    if n > 0 {
      NewtonWithoutCorrection(r, n - 1);
    }
  }

  function Pow15(n: nat): (r: real)
    ensures r >= 1.0
  {
    if n == 0 then 1.0 else 1.5 * Pow15(n - 1)
  }

  /** `isqrt(0)` is 1.5^4 times the double whose bits are the magic constant: a
      positive number, not 0. */
  lemma ISqrtOfZero(p: Platform)
    requires BitsLaws(p)
    ensures PositiveNormal(MAGIC)
    ensures ISqrtOf(p, 0.0) == 5.0625 * NormalValue(MAGIC)
    ensures ISqrtOf(p, 0.0) > 0.0
  {
    assert Exponent(MAGIC) == 0x5fe;
    assert SeedBits(0) == MAGIC;
    NewtonWithoutCorrection(Seed(p, 0.0), ITERATIONS);
    assert Pow15(ITERATIONS) == 5.0625;
  }

  /** The inverse square root is exact at `x`: positive, with r * r * x = 1. The lemmas
      about lengths and axes assume this; the model does not bound the error of the
      four-step approximation. */
  ghost predicate ExactAt(p: Platform, x: real) {
    ISqrtOf(p, x) > 0.0 && ISqrtOf(p, x) * ISqrtOf(p, x) * x == 1.0
  }

  /** Exact wherever the argument is positive. */
  ghost predicate ExactISqrt(p: Platform) {
    forall x :: x > 0.0 ==> ExactAt(p, x)
  }

  //
  // magnitude() of Vector2, Vector3 and Vector4, given magnitude2()
  //

  /** `magnitude()` as written: 0 when `isqrt` returns 0, else 1 / isqrt. */
  function MagnitudeAsWritten(p: Platform, m2: real): (r: real)
    ensures m2 != 0.0 ==> r == Magnitude(p, m2)
  {
    var r := ISqrtOf(p, m2);
    if r == 0.0 then 0.0 else 1.0 / r
  }

  /** The guard never fires for the zero vector: its magnitude comes out as
      1 / (1.5^4 * seed(0)), a positive number. */
  lemma MagnitudeAsWrittenOfZero(p: Platform)
    requires BitsLaws(p)
    ensures MagnitudeAsWritten(p, 0.0) > 0.0
  {
    ISqrtOfZero(p);
  }

  /** `magnitude()` as evidently intended: the zero vector has length 0, every other
      vector 1 / isqrt(magnitude2). */
  function Magnitude(p: Platform, m2: real): (r: real)
    ensures m2 == 0.0 ==> r == 0.0
  {
    var r := ISqrtOf(p, m2);
    if m2 == 0.0 || r == 0.0 then 0.0 else 1.0 / r
  }

  /** Where the inverse square root is exact, scaling the argument by k * k scales
      the result by 1 / k. */
  lemma ISqrtScaled(p: Platform, m2: real, k: real, km2: real)
    requires ExactISqrt(p) && m2 > 0.0 && k > 0.0 && km2 == k * k * m2
    ensures k * ISqrtOf(p, km2) == ISqrtOf(p, m2)
  {
    ProductSign(k, k);
    ProductSign(Product(k, k), m2);
    var a, b := ISqrtOf(p, km2), ISqrtOf(p, m2);
    assert ExactAt(p, km2) && ExactAt(p, m2);
    ProductSign(k, a);
    assert Square(k * a) * m2 == a * a * km2;
    assert Square(b) * m2 == b * b * m2;
    Cancel(Square(k * a), Square(b), m2);
    PositiveRootUnique(k * a, b);
  }

  /** Where the inverse square root is exact, scaling magnitude2 by it gives the
      magnitude. */
  lemma MagnitudeByISqrt(p: Platform, m2: real)
    requires m2 > 0.0 && ExactAt(p, m2)
    ensures m2 * ISqrtOf(p, m2) == Magnitude(p, m2)
  {
    var k := ISqrtOf(p, m2);
    assert (m2 * k) * k == k * k * m2;
    assert (1.0 / k) * k == 1.0;
    Cancel(m2 * k, 1.0 / k, k);
  }

  /** Where the inverse square root is exact, the magnitude squared is magnitude2. */
  lemma MagnitudeSquared(p: Platform, m2: real)
    requires m2 >= 0.0
    requires m2 > 0.0 ==> ExactAt(p, m2)
    ensures Magnitude(p, m2) >= 0.0
    ensures Magnitude(p, m2) * Magnitude(p, m2) == m2
  {
    if m2 > 0.0 {
      var r := ISqrtOf(p, m2);
      assert r * r * m2 == 1.0;
      calc {
        Magnitude(p, m2) * Magnitude(p, m2);
        (1.0 / r) * (1.0 / r);
        { assert (1.0 / r) * (1.0 / r) * (r * r) == 1.0; }
        m2;
      }
    }
  }
}
