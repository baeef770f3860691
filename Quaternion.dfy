/** Quaternions w + xi + yj + zk, a Vector4 with scalar part w and vector part
    (x, y, z): the product, conjugate and inverse, scaling of the rotation a unit
    quaternion represents, and the `Quaternion{w=.., x=.., y=.., z=..}` format. */
module Quaternion {
  import opened Wrappers
  import opened Runtime
  import opened Geometry
  import opened Text
  import Numbers
  import Serial
  import V3 = Vector3
  import V4 = Vector4

  const IDENTITY := Quaternion(1.0, 0.0, 0.0, 0.0)

  const NAME := "Quaternion"
  const KEYS := ["w", "x", "y", "z"]

  //
  // Constructors and views
  //

  /** `new Quaternion(w, x, y, z)`: every component must be finite. */
  function Of(w: Num, x: Num, y: Num, z: Num): (r: Result<Quaternion>)
    ensures r.Ok? <==> w.Fin? && x.Fin? && y.Fin? && z.Fin?
    ensures r.Ok? ==> r.value == Quaternion(w.value, x.value, y.value, z.value)
    ensures r.Err? ==> r.error == IllegalArgument
  {
    var v :- V4.Of(w, x, y, z);
    Ok(FromVector4(v))
  }

  /** `new Quaternion(w, v)`: scalar part and vector part. */
  function FromParts(w: real, v: Vector3): (r: Quaternion)
    ensures r.w == w && Vector(r) == v
  {
    Quaternion(w, v.x, v.y, v.z)
  }

  /** `new Quaternion(Vector4)`: the same four components. */
  function FromVector4(v: Vector4): (r: Quaternion)
    ensures AsVector4(r) == v
  {
    Quaternion(v.w, v.x, v.y, v.z)
  }

  /** A quaternion seen as the Vector4 it extends. */
  function AsVector4(q: Quaternion): Vector4 {
    Vector4(q.w, q.x, q.y, q.z)
  }

  /** `vector()`: the vector part, the pure quaternion left when w is dropped. */
  function Vector(q: Quaternion): (r: Vector3)
    ensures V3.ToQuaternion(r) == Quaternion(0.0, q.x, q.y, q.z)
  {
    Vector3(q.x, q.y, q.z)
  }

  /** The squared length, inherited from Vector4 (see `Magnitude2Inherited`). */
  function Magnitude2(q: Quaternion): real {
    q.w * q.w + q.x * q.x + q.y * q.y + q.z * q.z
  }

  //
  // Arithmetic inherited from Vector4, re-wrapped as quaternions
  //

  function AddScalar(q: Quaternion, s: real): (r: Quaternion)
    ensures SubtractScalar(r, s) == q
  {
    FromVector4(V4.AddScalar(AsVector4(q), s))
  }

  function SubtractScalar(q: Quaternion, s: real): Quaternion {
    FromVector4(V4.SubtractScalar(AsVector4(q), s))
  }

  function MultiplyScalar(q: Quaternion, s: real): Quaternion {
    FromVector4(V4.MultiplyScalar(AsVector4(q), s))
  }

  /** An ArithmeticException for a zero divisor; otherwise the quaternion that the
      divisor multiplies back to `q`. */
  function Divide(q: Quaternion, s: real): (r: Result<Quaternion>)
    ensures r.Err? <==> s == 0.0
    ensures r.Err? ==> r.error == Arithmetic
    ensures r.Ok? ==> MultiplyScalar(r.value, s) == q
  {
    var v :- V4.Divide(AsVector4(q), s);
    Ok(FromVector4(v))
  }

  function Add(q: Quaternion, v: Vector4): (r: Quaternion)
    ensures Subtract(r, v) == q
  {
    FromVector4(V4.Add(AsVector4(q), v))
  }

  /** `subtract(Vector4)` as written: it wraps the inherited `Vector4.subtract`,
      fourth component `z - v.y` included. */
  function SubtractAsWritten(q: Quaternion, v: Vector4): (r: Quaternion)
    ensures r == Subtract(q, v) <==> v.y == v.z
  {
    FromVector4(V4.SubtractAsWritten(AsVector4(q), v))
  }

  /** `subtract(Vector4)` over the corrected, component-wise difference: zero
      exactly when `v` has the quaternion's components. */
  function Subtract(q: Quaternion, v: Vector4): (r: Quaternion)
    ensures r == Quaternion(0.0, 0.0, 0.0, 0.0) <==> AsVector4(q) == v
  {
    FromVector4(V4.Subtract(AsVector4(q), v))
  }

  //
  // The product
  //

  /** The Hamilton product a b in the usual order: i j = k, j k = i, k i = j. */
  function Hamilton(a: Quaternion, b: Quaternion): Quaternion {
    Quaternion(
      a.w * b.w - a.x * b.x - a.y * b.y - a.z * b.z,
      a.w * b.x + a.x * b.w + a.y * b.z - a.z * b.y,
      a.w * b.y - a.x * b.z + a.y * b.w + a.z * b.x,
      a.w * b.z + a.x * b.y - a.y * b.x + a.z * b.w)
  }

  /** `p.multiply(q)`, built as the source builds it from scalar and vector parts:
      (pw qw - pv.qv, qv pw + pv qw + qv x pv). The cross product has its factors in
      the order qv x pv, which makes this the Hamilton product q p: the receiver is
      multiplied on the left by the argument. */
  function Multiply(p: Quaternion, q: Quaternion): (r: Quaternion)
    ensures r == Hamilton(q, p)
  {
    var pv, qv := Vector(p), Vector(q);
    FromParts(
      p.w * q.w - V3.Dot(pv, qv),
      V3.Add(V3.Add(V3.MultiplyScalar(qv, p.w), V3.MultiplyScalar(pv, q.w)), V3.Cross(qv, pv)))
  }

  /** `conjugate()`: the vector part negated. */
  function Conjugate(q: Quaternion): (r: Quaternion)
    ensures r.w == q.w && Vector(r) == V3.Negate(Vector(q))
  {
    Quaternion(q.w, -q.x, -q.y, -q.z)
  }

  /** `inverse()` as written: the conjugate scaled by `isqrt(magnitude2())`, that is
      divided by the length instead of the squared length. Nothing guards the zero
      quaternion, whose inverse comes out as zero instead of an exception. */
  function InverseAsWritten(p: Platform, q: Quaternion): (r: Quaternion)
    ensures q == Quaternion(0.0, 0.0, 0.0, 0.0) ==> r == q
  {
    var k := Numbers.ISqrtOf(p, Magnitude2(q));
    ScaleZero(Conjugate(q), k);
    MultiplyScalar(Conjugate(q), k)
  }

  /** Any multiple of the zero quaternion is zero. */
  lemma ScaleZero(q: Quaternion, k: real)
    ensures q == Quaternion(0.0, 0.0, 0.0, 0.0) ==> MultiplyScalar(q, k) == q
  {
    if q == Quaternion(0.0, 0.0, 0.0, 0.0) {
      assert V4.MultiplyScalar(AsVector4(q), k) == V4.ZERO;
    }
  }

  /** The inverse as intended: the conjugate divided by the squared length, an
      ArithmeticException for the zero quaternion (`InverseTwoSided` shows it is
      an inverse on both sides). */
  function Inverse(q: Quaternion): (r: Result<Quaternion>)
    ensures r.Err? <==> q.w == 0.0 && q.x == 0.0 && q.y == 0.0 && q.z == 0.0
    ensures r.Err? ==> r.error == Arithmetic
  {
    Magnitude2Inherited(q);
    V4.Magnitude2Zero(AsVector4(q));
    Divide(Conjugate(q), Magnitude2(q))
  }

  //
  // Rotation quaternions
  //

  /** `scale(s)`: the rotation a unit quaternion represents, with its angle
      multiplied by `s`. IDENTITY whenever w is 1, whatever the vector part; for w
      outside [-1, 1] `Math.acos` gives NaN and the Vector3 constructor throws an
      IllegalArgumentException; dividing by a sine that is exactly 0 throws an
      ArithmeticException. */
  function Scale(p: Platform, q: Quaternion, s: real): (r: Result<Quaternion>)
    ensures q.w == 1.0 ==> r == Ok(IDENTITY)
    ensures r == Err(IllegalArgument) <==> q.w < -1.0 || q.w > 1.0
    ensures r == Err(Arithmetic) <==> q.w != 1.0 && !(q.w < -1.0 || q.w > 1.0) && p.sin(p.acos(q.w)) == 0.0
    ensures r.Ok? && q.w != 1.0 ==> r.value.w == p.cos(Numbers.Product(p.acos(q.w), s))
    ensures r.Ok? && q.w != 1.0 ==>
      V3.MultiplyScalar(Vector(r.value), p.sin(p.acos(q.w))) == V3.MultiplyScalar(Vector(q), p.sin(Numbers.Product(p.acos(q.w), s)))
  {
    if q.w == 1.0 then Ok(IDENTITY)
    else if q.w < -1.0 || q.w > 1.0 then Err(IllegalArgument)
    else
      var angle := p.acos(q.w);
      var axis :- V3.Divide(Vector(q), p.sin(angle));
      var t := p.sin(Numbers.Product(angle, s));
      V3.MultiplyScalarSwap(axis, Vector(q), p.sin(angle), t);
      Ok(FromParts(p.cos(Numbers.Product(angle, s)), V3.MultiplyScalar(axis, t)))
  }

  //
  // Serialization
  //

  /** `toString()`: `Quaternion{w=.., x=.., y=.., z=..}`. */
  function ToString(p: Platform, q: Quaternion): (r: string)
    ensures StartsWith(r, NAME + "{")
  {
    Serial.RenderPrefix(p, NAME, KEYS, [q.w, q.x, q.y, q.z]);
    Serial.Render(p, NAME, KEYS, [q.w, q.x, q.y, q.z])
  }

  /** What `parseQuaternion` returns or throws. Its result is a plain Vector4, not a
      Quaternion: a NumberFormatException for text that is not `Quaternion{...}` or
      has a malformed segment, an IllegalArgumentException when a field is missing
      (left NaN) or not finite. */
  function Parsed(p: Platform, s: string): (r: Result<Vector4>)
    ensures !StartsWith(s, NAME + "{") ==> r == Err(NumberFormat)
    ensures r.Ok? ==> Serial.Fields(p, NAME, KEYS, s) == Ok([Fin(r.value.w), Fin(r.value.x), Fin(r.value.y), Fin(r.value.z)])
    ensures r == Err(IllegalArgument) <==> Serial.Fields(p, NAME, KEYS, s).Ok? && !Serial.AllFinite(Serial.Fields(p, NAME, KEYS, s).value)
    ensures Serial.Fields(p, NAME, KEYS, s).Ok? && Serial.AllFinite(Serial.Fields(p, NAME, KEYS, s).value) ==> r.Ok?
    ensures Serial.Fields(p, NAME, KEYS, s).Err? ==> r == Err(Serial.Fields(p, NAME, KEYS, s).error)
  {
    V4.FromFields(Serial.Fields(p, NAME, KEYS, s))
  }

  /** `parseQuaternion`. */
  method ParseQuaternion(p: Platform, s: string) returns (r: Result<Vector4>)
    ensures r == Parsed(p, s)
  {
    var values := Serial.ParseFields(p, NAME, KEYS, s);
    r := V4.FromFields(values);
  }

  //
  // Properties of the product
  //

  /** The subtraction as written does not take a quaternion to zero: what is left
      in the fourth place is `z - y`. */
  lemma SubtractAsWrittenSelf(q: Quaternion)
    ensures SubtractAsWritten(q, AsVector4(q)) == Quaternion(0.0, 0.0, 0.0, q.z - q.y)
  {
  }

  /** Adding the scalar back undoes subtracting it. */
  lemma SubtractScalarUndone(q: Quaternion, s: real)
    ensures AddScalar(SubtractScalar(q, s), s) == q
  {
  }

  /** Scaling by 1 changes nothing, and scaling twice is scaling once by the product. */
  lemma MultiplyScalarCompose(q: Quaternion, a: real, b: real)
    ensures MultiplyScalar(q, 1.0) == q
    ensures MultiplyScalar(MultiplyScalar(q, a), b) == MultiplyScalar(q, a * b)
  {
  }

  /** The corrected subtraction takes a quaternion to zero. */
  lemma SubtractSelf(q: Quaternion)
    ensures Subtract(q, AsVector4(q)) == Quaternion(0.0, 0.0, 0.0, 0.0)
  {
  }

  lemma MultiplyIdentity(q: Quaternion)
    ensures Multiply(IDENTITY, q) == q && Multiply(q, IDENTITY) == q
  {
  }

  /** The product is associative; with the reversed order of `multiply` this is the
      associativity of the Hamilton product. */
  lemma MultiplyAssociative(a: Quaternion, b: Quaternion, c: Quaternion)
    ensures Multiply(Multiply(a, b), c) == Multiply(a, Multiply(b, c))
  {
    HamiltonAssociative(c, b, a);
  }

  lemma HamiltonAssociative(a: Quaternion, b: Quaternion, c: Quaternion)
    ensures Hamilton(Hamilton(a, b), c) == Hamilton(a, Hamilton(b, c))
  {
    AssociateLeftW(a, b, c);
    AssociateRightW(a, b, c);
    AssociateLeftX(a, b, c);
    AssociateRightX(a, b, c);
    AssociateLeftY(a, b, c);
    AssociateRightY(a, b, c);
    AssociateLeftZ(a, b, c);
    AssociateRightZ(a, b, c);
  }

  // Each side of the associative law, one component at a time, with the inner
  // product written out.

  lemma AssociateLeftW(a: Quaternion, b: Quaternion, c: Quaternion)
    ensures Hamilton(Hamilton(a, b), c).w ==
      (a.w * b.w - a.x * b.x - a.y * b.y - a.z * b.z) * c.w
      - (a.w * b.x + a.x * b.w + a.y * b.z - a.z * b.y) * c.x
      - (a.w * b.y - a.x * b.z + a.y * b.w + a.z * b.x) * c.y
      - (a.w * b.z + a.x * b.y - a.y * b.x + a.z * b.w) * c.z
  {
  }

  lemma AssociateRightW(a: Quaternion, b: Quaternion, c: Quaternion)
    ensures Hamilton(a, Hamilton(b, c)).w ==
      a.w * (b.w * c.w - b.x * c.x - b.y * c.y - b.z * c.z)
      - a.x * (b.w * c.x + b.x * c.w + b.y * c.z - b.z * c.y)
      - a.y * (b.w * c.y - b.x * c.z + b.y * c.w + b.z * c.x)
      - a.z * (b.w * c.z + b.x * c.y - b.y * c.x + b.z * c.w)
  {
  }

  lemma AssociateLeftX(a: Quaternion, b: Quaternion, c: Quaternion)
    ensures Hamilton(Hamilton(a, b), c).x ==
      (a.w * b.w - a.x * b.x - a.y * b.y - a.z * b.z) * c.x
      + (a.w * b.x + a.x * b.w + a.y * b.z - a.z * b.y) * c.w
      + (a.w * b.y - a.x * b.z + a.y * b.w + a.z * b.x) * c.z
      - (a.w * b.z + a.x * b.y - a.y * b.x + a.z * b.w) * c.y
  {
  }

  lemma AssociateRightX(a: Quaternion, b: Quaternion, c: Quaternion)
    ensures Hamilton(a, Hamilton(b, c)).x ==
      a.w * (b.w * c.x + b.x * c.w + b.y * c.z - b.z * c.y)
      + a.x * (b.w * c.w - b.x * c.x - b.y * c.y - b.z * c.z)
      + a.y * (b.w * c.z + b.x * c.y - b.y * c.x + b.z * c.w)
      - a.z * (b.w * c.y - b.x * c.z + b.y * c.w + b.z * c.x)
  {
  }

  lemma AssociateLeftY(a: Quaternion, b: Quaternion, c: Quaternion)
    ensures Hamilton(Hamilton(a, b), c).y ==
      (a.w * b.w - a.x * b.x - a.y * b.y - a.z * b.z) * c.y
      - (a.w * b.x + a.x * b.w + a.y * b.z - a.z * b.y) * c.z
      + (a.w * b.y - a.x * b.z + a.y * b.w + a.z * b.x) * c.w
      + (a.w * b.z + a.x * b.y - a.y * b.x + a.z * b.w) * c.x
  {
  }

  lemma AssociateRightY(a: Quaternion, b: Quaternion, c: Quaternion)
    ensures Hamilton(a, Hamilton(b, c)).y ==
      a.w * (b.w * c.y - b.x * c.z + b.y * c.w + b.z * c.x)
      - a.x * (b.w * c.z + b.x * c.y - b.y * c.x + b.z * c.w)
      + a.y * (b.w * c.w - b.x * c.x - b.y * c.y - b.z * c.z)
      + a.z * (b.w * c.x + b.x * c.w + b.y * c.z - b.z * c.y)
  {
  }

  lemma AssociateLeftZ(a: Quaternion, b: Quaternion, c: Quaternion)
    ensures Hamilton(Hamilton(a, b), c).z ==
      (a.w * b.w - a.x * b.x - a.y * b.y - a.z * b.z) * c.z
      + (a.w * b.x + a.x * b.w + a.y * b.z - a.z * b.y) * c.y
      - (a.w * b.y - a.x * b.z + a.y * b.w + a.z * b.x) * c.x
      + (a.w * b.z + a.x * b.y - a.y * b.x + a.z * b.w) * c.w
  {
  }

  lemma AssociateRightZ(a: Quaternion, b: Quaternion, c: Quaternion)
    ensures Hamilton(a, Hamilton(b, c)).z ==
      a.w * (b.w * c.z + b.x * c.y - b.y * c.x + b.z * c.w)
      + a.x * (b.w * c.y - b.x * c.z + b.y * c.w + b.z * c.x)
      - a.y * (b.w * c.x + b.x * c.w + b.y * c.z - b.z * c.y)
      + a.z * (b.w * c.w - b.x * c.x - b.y * c.y - b.z * c.z)
  {
  }

  lemma ConjugateInvolution(q: Quaternion)
    ensures Conjugate(Conjugate(q)) == q
  {
  }

  /** A quaternion times its conjugate, in either order, is the real number
      magnitude2. */
  lemma MultiplyConjugate(q: Quaternion)
    ensures Multiply(q, Conjugate(q)) == Quaternion(Magnitude2(q), 0.0, 0.0, 0.0)
    ensures Multiply(Conjugate(q), q) == Quaternion(Magnitude2(q), 0.0, 0.0, 0.0)
  {
  }

  /** Lengths multiply. */
  lemma Magnitude2Multiply(a: Quaternion, b: Quaternion)
    ensures Magnitude2(Multiply(a, b)) == Magnitude2(a) * Magnitude2(b)
  {
    FourSquares(b, a);
  }

  /** A unit quaternion's scalar part lies in [-1, 1]. */
  lemma UnitScalarBound(q: Quaternion)
    ensures Magnitude2(q) == 1.0 ==> -1.0 <= q.w <= 1.0
  {
    Numbers.SquareSign(q.x);
    Numbers.SquareSign(q.y);
    Numbers.SquareSign(q.z);
    assert Numbers.Product(q.w - 1.0, q.w + 1.0) == q.w * q.w - 1.0;
    Numbers.ProductSign(q.w - 1.0, q.w + 1.0);
  }

  /** Euler's four-square identity: the squared length of a Hamilton product. */
  lemma FourSquares(a: Quaternion, b: Quaternion)
    ensures Magnitude2(Hamilton(a, b)) == Magnitude2(a) * Magnitude2(b)
  {
    var h := Hamilton(a, b);
    FourSquaresAt(a, b, h.w, h.x, h.y, h.z, Magnitude2(a), Magnitude2(b));
  }

  /** The sum of four squares. */
  function SumSquares(w: real, x: real, y: real, z: real): real {
    w * w + x * x + y * y + z * z
  }

  /** Euler's identity on plain components: the components of a Hamilton product
      have as sum of squares the product of the factors' sums of squares. */
  lemma SumSquaresFourSquares(a0: real, a1: real, a2: real, a3: real, b0: real, b1: real, b2: real, b3: real)
    ensures SumSquares(a0 * b0 - a1 * b1 - a2 * b2 - a3 * b3, a0 * b1 + a1 * b0 + a2 * b3 - a3 * b2,
                       a0 * b2 - a1 * b3 + a2 * b0 + a3 * b1, a0 * b3 + a1 * b2 - a2 * b1 + a3 * b0)
         == SumSquares(a0, a1, a2, a3) * SumSquares(b0, b1, b2, b3)
  {
  }

  /** The same identity, with the product's components and the factors' squared
      lengths named. */
  lemma FourSquaresAt(a: Quaternion, b: Quaternion, w: real, x: real, y: real, z: real, ma: real, mb: real)
    requires Hamilton(a, b) == Quaternion(w, x, y, z)
    requires ma == SumSquares(a.w, a.x, a.y, a.z) && mb == SumSquares(b.w, b.x, b.y, b.z)
    ensures w * w + x * x + y * y + z * z == ma * mb
  {
    SumSquaresFourSquares(a.w, a.x, a.y, a.z, b.w, b.x, b.y, b.z);
    assert SumSquares(w, x, y, z) == SumSquares(a.w * b.w - a.x * b.x - a.y * b.y - a.z * b.z,
                                                a.w * b.x + a.x * b.w + a.y * b.z - a.z * b.y,
                                                a.w * b.y - a.x * b.z + a.y * b.w + a.z * b.x,
                                                a.w * b.z + a.x * b.y - a.y * b.x + a.z * b.w);
  }

  /** The squared length is the one the quaternion has as a Vector4. */
  lemma Magnitude2Inherited(q: Quaternion)
    ensures Magnitude2(q) == V4.Magnitude2(AsVector4(q))
  {
  }

  lemma HamiltonScale(a: Quaternion, b: Quaternion, k: real)
    ensures Hamilton(MultiplyScalar(a, k), b) == MultiplyScalar(Hamilton(a, b), k)
    ensures Hamilton(a, MultiplyScalar(b, k)) == MultiplyScalar(Hamilton(a, b), k)
  {
    ScaleComponents(a, k);
    ScaleComponents(b, k);
    ScaleComponents(Hamilton(a, b), k);
    HamiltonScaleLeft(a, b, MultiplyScalar(a, k), k);
    HamiltonScaleRight(a, b, MultiplyScalar(b, k), k);
  }

  /** Scaling the left factor by `k` scales the product by `k`. */
  lemma HamiltonScaleLeft(a: Quaternion, b: Quaternion, s: Quaternion, k: real)
    requires s == Quaternion(a.w * k, a.x * k, a.y * k, a.z * k)
    ensures Hamilton(s, b) == Quaternion(Numbers.Product(Hamilton(a, b).w, k), Numbers.Product(Hamilton(a, b).x, k),
                                         Numbers.Product(Hamilton(a, b).y, k), Numbers.Product(Hamilton(a, b).z, k))
  {
    ScaledFactorLeft(s.w, s.x, s.y, s.z, a.w, a.x, a.y, a.z, b.w, b.x, b.y, b.z, k);
  }

  /** Scaling the right factor by `k` scales the product by `k`. */
  lemma HamiltonScaleRight(a: Quaternion, b: Quaternion, s: Quaternion, k: real)
    requires s == Quaternion(b.w * k, b.x * k, b.y * k, b.z * k)
    ensures Hamilton(a, s) == Quaternion(Numbers.Product(Hamilton(a, b).w, k), Numbers.Product(Hamilton(a, b).x, k),
                                         Numbers.Product(Hamilton(a, b).y, k), Numbers.Product(Hamilton(a, b).z, k))
  {
    ScaledFactorRight(s.w, s.x, s.y, s.z, a.w, a.x, a.y, a.z, b.w, b.x, b.y, b.z, k);
  }

  /** The components of a Hamilton product whose left factor, with components
      `c`, is the `a` components times `k`: the product's components times `k`. */
  lemma ScaledFactorLeft(c0: real, c1: real, c2: real, c3: real, a0: real, a1: real, a2: real, a3: real,
    b0: real, b1: real, b2: real, b3: real, k: real)
    requires c0 == a0 * k && c1 == a1 * k && c2 == a2 * k && c3 == a3 * k
    ensures c0 * b0 - c1 * b1 - c2 * b2 - c3 * b3 == Numbers.Product(a0 * b0 - a1 * b1 - a2 * b2 - a3 * b3, k)
    ensures c0 * b1 + c1 * b0 + c2 * b3 - c3 * b2 == Numbers.Product(a0 * b1 + a1 * b0 + a2 * b3 - a3 * b2, k)
    ensures c0 * b2 - c1 * b3 + c2 * b0 + c3 * b1 == Numbers.Product(a0 * b2 - a1 * b3 + a2 * b0 + a3 * b1, k)
    ensures c0 * b3 + c1 * b2 - c2 * b1 + c3 * b0 == Numbers.Product(a0 * b3 + a1 * b2 - a2 * b1 + a3 * b0, k)
  {
  }

  /** The components of a Hamilton product whose right factor, with components
      `c`, is the `b` components times `k`: the product's components times `k`. */
  lemma ScaledFactorRight(c0: real, c1: real, c2: real, c3: real, a0: real, a1: real, a2: real, a3: real,
     b0: real, b1: real, b2: real, b3: real, k: real)
    requires c0 == b0 * k && c1 == b1 * k && c2 == b2 * k && c3 == b3 * k
    ensures a0 * c0 - a1 * c1 - a2 * c2 - a3 * c3 == Numbers.Product(a0 * b0 - a1 * b1 - a2 * b2 - a3 * b3, k)
    ensures a0 * c1 + a1 * c0 + a2 * c3 - a3 * c2 == Numbers.Product(a0 * b1 + a1 * b0 + a2 * b3 - a3 * b2, k)
    ensures a0 * c2 - a1 * c3 + a2 * c0 + a3 * c1 == Numbers.Product(a0 * b2 - a1 * b3 + a2 * b0 + a3 * b1, k)
    ensures a0 * c3 + a1 * c2 - a2 * c1 + a3 * c0 == Numbers.Product(a0 * b3 + a1 * b2 - a2 * b1 + a3 * b0, k)
  {
  }

  lemma ScaleComponents(q: Quaternion, k: real)
    ensures MultiplyScalar(q, k) == Quaternion(q.w * k, q.x * k, q.y * k, q.z * k)
  {
  }

  /** Whenever it exists, the inverse is a two-sided inverse. */
  lemma InverseTwoSided(q: Quaternion)
    requires Inverse(q).Ok?
    ensures Multiply(q, Inverse(q).value) == IDENTITY
    ensures Multiply(Inverse(q).value, q) == IDENTITY
  {
    var r, m := Inverse(q).value, Magnitude2(q);
    assert MultiplyScalar(r, m) == Conjugate(q);
    MultiplyConjugate(q);
    HamiltonScale(r, q, m);
    ScaledIdentity(Hamilton(r, q), m);
    HamiltonScale(q, r, m);
    ScaledIdentity(Hamilton(q, r), m);
  }

  /** A quaternion that a nonzero factor scales to that factor is IDENTITY. */
  lemma ScaledIdentity(h: Quaternion, m: real)
    requires m != 0.0 && MultiplyScalar(h, m) == Quaternion(m, 0.0, 0.0, 0.0)
    ensures h == IDENTITY
  {
    ScaleComponents(h, m);
    Numbers.Cancel(h.w, 1.0, m);
    Numbers.Cancel(h.x, 0.0, m);
    Numbers.Cancel(h.y, 0.0, m);
    Numbers.Cancel(h.z, 0.0, m);
  }

  /** With the inverse as written, q times its "inverse" is |q|, not 1. */
  lemma InverseAsWrittenProduct(p: Platform, q: Quaternion)
    requires Magnitude2(q) > 0.0 && Numbers.ExactAt(p, Magnitude2(q))
    ensures Multiply(q, InverseAsWritten(p, q)) == Quaternion(Numbers.Magnitude(p, Magnitude2(q)), 0.0, 0.0, 0.0)
  {
    var m, k := Magnitude2(q), Numbers.ISqrtOf(p, Magnitude2(q));
    ConjugateScaled(q, k);
    ScaleComponents(Quaternion(m, 0.0, 0.0, 0.0), k);
    Numbers.MagnitudeByISqrt(p, m);
  }

  /** q times its conjugate scaled by k is the real number magnitude2 scaled by k. */
  lemma ConjugateScaled(q: Quaternion, k: real)
    ensures Multiply(q, MultiplyScalar(Conjugate(q), k)) == MultiplyScalar(Quaternion(Magnitude2(q), 0.0, 0.0, 0.0), k)
  {
    MultiplyConjugate(q);
    HamiltonScale(Conjugate(q), q, k);
  }

  /** For a unit quaternion the factor is 1 and the inverse as written is the
      conjugate. */
  lemma InverseAsWrittenUnit(p: Platform, q: Quaternion)
    requires Magnitude2(q) == 1.0 && Numbers.ExactAt(p, 1.0)
    ensures InverseAsWritten(p, q) == Conjugate(q)
  {
    Numbers.UnitRoot(Numbers.ISqrtOf(p, 1.0));
  }

  /** `v.quaternion().vector()` is `v`. */
  lemma VectorOfEmbedding(v: Vector3)
    ensures Vector(V3.ToQuaternion(v)) == v
  {
  }

  /** Scaling by 1 gives the quaternion back, whatever its magnitude, whenever w
      lies in [-1, 1] and sin(acos w) is non-zero, given cos(acos w) = w. */
  lemma ScaleOne(p: Platform, q: Quaternion)
    requires TrigLaws(p)
    requires -1.0 <= q.w <= 1.0 && p.sin(p.acos(q.w)) != 0.0
    ensures Scale(p, q, 1.0) == Ok(q)
  {
    var angle := p.acos(q.w);
    assert angle * 1.0 == angle;
  }

  /** `parseQuaternion(q.toString())` is q, as a Vector4. */
  lemma ParseToString(p: Platform, q: Quaternion)
    requires FormatLaws(p)
    ensures Parsed(p, ToString(p, q)) == Ok(AsVector4(q))
  {
    Serial.FieldsRender(p, NAME, KEYS, [q.w, q.x, q.y, q.z]);
    assert seq(4, i requires 0 <= i < 4 => Fin([q.w, q.x, q.y, q.z][i])) == [Fin(q.w), Fin(q.x), Fin(q.y), Fin(q.z)];
  }
}
