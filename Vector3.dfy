/** Three-dimensional vectors: component-wise arithmetic, the dot and cross
    products, the embedding as a pure quaternion, and the `Vector3{x=.., y=.., z=..}`
    text format. Rotation by a quaternion is in module VectorRotation. */
module Vector3 {
  import opened Wrappers
  import opened Runtime
  import opened Geometry
  import opened Text
  import Numbers
  import Serial

  const ZERO := Vector3(0.0, 0.0, 0.0)
  const POSITIVE_X := Vector3(1.0, 0.0, 0.0)
  const POSITIVE_Y := Vector3(0.0, 1.0, 0.0)
  const POSITIVE_Z := Vector3(0.0, 0.0, 1.0)

  const NAME := "Vector3"
  const KEYS := ["x", "y", "z"]

  /** `new Vector3(x, y, z)`: every component must be finite. */
  function Of(x: Num, y: Num, z: Num): (r: Result<Vector3>)
    ensures r.Ok? <==> x.Fin? && y.Fin? && z.Fin?
    ensures r.Ok? ==> r.value == Vector3(x.value, y.value, z.value)
    ensures r.Err? ==> r.error == IllegalArgument
  {
    var vx :- Numbers.RequireFinite(x);
    var vy :- Numbers.RequireFinite(y);
    var vz :- Numbers.RequireFinite(z);
    Ok(Vector3(vx, vy, vz))
  }

  /** The squared length. */
  function Magnitude2(v: Vector3): (r: real)
    ensures r >= 0.0
  {
    Magnitude2Squares(v);
    Numbers.SquareSign(v.x);
    Numbers.SquareSign(v.y);
    Numbers.SquareSign(v.z);
    v.x * v.x + v.y * v.y + v.z * v.z
  }

  /** The squared length as a sum of `Numbers.Square`s, the form the sign lemmas
      are stated in. */
  lemma Magnitude2Squares(v: Vector3)
    ensures v.x * v.x + v.y * v.y + v.z * v.z == Numbers.Square(v.x) + Numbers.Square(v.y) + Numbers.Square(v.z)
  {
  }

  /** Only the zero vector has squared length zero. */
  lemma Magnitude2Zero(v: Vector3)
    ensures Magnitude2(v) == 0.0 <==> v == ZERO
  {
    Magnitude2Squares(v);
    Numbers.SquareSign(v.x);
    Numbers.SquareSign(v.y);
    Numbers.SquareSign(v.z);
  }

  /** `magnitude()` with the zero guard it evidently intends (`Numbers.Magnitude`):
      0 for the zero vector, where the source returns 1 / isqrt(0); the source's
      value everywhere else. */
  function Magnitude(p: Platform, v: Vector3): (r: real)
    ensures v == ZERO ==> r == 0.0
    ensures v != ZERO ==> r == Numbers.MagnitudeAsWritten(p, Magnitude2(v))
  {
    Magnitude2Zero(v);
    Numbers.Magnitude(p, Magnitude2(v))
  }

  //
  // Vector-scalar arithmetic
  //

  function AddScalar(v: Vector3, s: real): (r: Vector3)
    ensures SubtractScalar(r, s) == v
  {
    Vector3(v.x + s, v.y + s, v.z + s)
  }

  function SubtractScalar(v: Vector3, s: real): Vector3 {
    Vector3(v.x - s, v.y - s, v.z - s)
  }

  function MultiplyScalar(v: Vector3, s: real): Vector3 {
    Vector3(v.x * s, v.y * s, v.z * s)
  }

  /** An ArithmeticException for a zero divisor; otherwise the vector that the
      divisor multiplies back to `v`. */
  function Divide(v: Vector3, s: real): (r: Result<Vector3>)
    ensures r.Err? <==> s == 0.0
    ensures r.Err? ==> r.error == Arithmetic
    ensures r.Ok? ==> MultiplyScalar(r.value, s) == v
  {
    if s == 0.0 then Err(Arithmetic) else Ok(Vector3(v.x / s, v.y / s, v.z / s))
  }

  //
  // Vector-vector arithmetic
  //

  function Add(u: Vector3, v: Vector3): (r: Vector3)
    ensures Subtract(r, v) == u
  {
    Vector3(u.x + v.x, u.y + v.y, u.z + v.z)
  }

  function Subtract(u: Vector3, v: Vector3): Vector3 {
    Vector3(u.x - v.x, u.y - v.y, u.z - v.z)
  }

  function Dot(u: Vector3, v: Vector3): (r: real)
    ensures u == v ==> r == Magnitude2(u)
  {
    u.x * v.x + u.y * v.y + u.z * v.z
  }

  /** The cross product, perpendicular to both factors. */
  function Cross(u: Vector3, v: Vector3): (r: Vector3)
    ensures Dot(r, u) == 0.0 && Dot(r, v) == 0.0
  {
    Vector3(u.y * v.z - u.z * v.y, u.z * v.x - u.x * v.z, u.x * v.y - u.y * v.x)
  }

  /** Exact component-wise equality with another Vector3; false for null and for
      every other class. */
  function Equals(v: Vector3, o: Obj): (r: bool)
    ensures r <==> o == Instance(Vec3(v))
  {
    match o
    case Instance(Vec3(u)) => v.x == u.x && v.y == u.y && v.z == u.z
    case _ => false
  }

  //
  // Util
  //

  /** `negate()`: the additive inverse. */
  function Negate(v: Vector3): (r: Vector3)
    ensures Add(r, v) == ZERO
  {
    MultiplyScalar(v, -1.0)
  }

  /** Scales by `isqrt(magnitude2())`. */
  function Normalize(p: Platform, v: Vector3): (r: Vector3)
    ensures v == ZERO ==> r == ZERO
  {
    MultiplyScalar(v, Numbers.ISqrtOf(p, Magnitude2(v)))
  }

  /** `distance(v)`: the magnitude of the difference; 0 from a vector to
      itself. */
  function Distance(p: Platform, u: Vector3, v: Vector3): (r: real)
    ensures u == v ==> r == 0.0
    ensures u != v ==> r == Numbers.MagnitudeAsWritten(p, Distance2(u, v))
  {
    Magnitude(p, Subtract(u, v))
  }

  /** `distance2(v)`: the squared magnitude of the difference; never negative,
      and 0 exactly between equal vectors. */
  function Distance2(u: Vector3, v: Vector3): (r: real)
    ensures r >= 0.0
    ensures r == 0.0 <==> u == v
  {
    Magnitude2Zero(Subtract(u, v));
    SubtractZero(u, v);
    Magnitude2(Subtract(u, v))
  }

  /** `quaternion()`: the pure quaternion (0, x, y, z). */
  function ToQuaternion(v: Vector3): (r: Quaternion)
    ensures r.w == 0.0 && Vector3(r.x, r.y, r.z) == v
  {
    Quaternion(0.0, v.x, v.y, v.z)
  }

  //
  // Serialization
  //

  /** `toString()`: `Vector3{...}` with one `key=value` segment per component. */
  function ToString(p: Platform, v: Vector3): (r: string)
    ensures StartsWith(r, NAME + "{")
  {
    Serial.RenderPrefix(p, NAME, KEYS, [v.x, v.y, v.z]);
    Serial.Render(p, NAME, KEYS, [v.x, v.y, v.z])
  }

  /** What `parseVector` returns or throws: a NumberFormatException for text that is
      not `Vector3{...}` or has a malformed segment, an IllegalArgumentException
      when a field is missing (left NaN) or not finite. */
  function Parsed(p: Platform, s: string): (r: Result<Vector3>)
    ensures !StartsWith(s, NAME + "{") ==> r == Err(NumberFormat)
    ensures r.Ok? ==> Serial.Fields(p, NAME, KEYS, s) == Ok([Fin(r.value.x), Fin(r.value.y), Fin(r.value.z)])
    ensures r == Err(IllegalArgument) <==> Serial.Fields(p, NAME, KEYS, s).Ok? && !Serial.AllFinite(Serial.Fields(p, NAME, KEYS, s).value)
    ensures Serial.Fields(p, NAME, KEYS, s).Ok? && Serial.AllFinite(Serial.Fields(p, NAME, KEYS, s).value) ==> r.Ok?
    ensures Serial.Fields(p, NAME, KEYS, s).Err? ==> r == Err(Serial.Fields(p, NAME, KEYS, s).error)
  {
    var vals :- Serial.Fields(p, NAME, KEYS, s);
    assert vals == [vals[0], vals[1], vals[2]];
    Of(vals[0], vals[1], vals[2])
  }

  /** `parseVector`. */
  method ParseVector(p: Platform, s: string) returns (r: Result<Vector3>)
    ensures r == Parsed(p, s)
  {
    var values := Serial.ParseFields(p, NAME, KEYS, s);
    if values.Err? {
      return Err(values.error);
    }
    r := Of(values.value[0], values.value[1], values.value[2]);
  }

  //
  // Properties
  //

  /** A vector that `a` scales to `v`, scaled by `b` instead, is what `a` scales to
      `v` scaled by `b`. */
  lemma MultiplyScalarSwap(axis: Vector3, v: Vector3, a: real, b: real)
    requires MultiplyScalar(axis, a) == v
    ensures MultiplyScalar(MultiplyScalar(axis, b), a) == MultiplyScalar(v, b)
  {
    ScaleSwap(axis.x, v.x, a, b);
    ScaleSwap(axis.y, v.y, a, b);
    ScaleSwap(axis.z, v.z, a, b);
  }

  lemma ScaleSwap(c: real, d: real, a: real, b: real)
    requires c * a == d
    ensures (c * b) * a == d * b
  {
    assert (c * b) * a == (c * a) * b;
  }

  /** The difference is zero exactly between equal vectors. */
  lemma SubtractZero(u: Vector3, v: Vector3)
    ensures Subtract(u, v) == ZERO <==> u == v
  {
  }

  /** Adding the scalar back undoes subtracting it. */
  lemma SubtractScalarUndone(v: Vector3, s: real)
    ensures AddScalar(SubtractScalar(v, s), s) == v
  {
  }

  /** Scaling by 1 changes nothing, and scaling twice is scaling once by the product. */
  lemma MultiplyScalarCompose(v: Vector3, a: real, b: real)
    ensures MultiplyScalar(v, 1.0) == v
    ensures MultiplyScalar(MultiplyScalar(v, a), b) == MultiplyScalar(v, a * b)
  {
  }

  /** Adding `v` back undoes subtracting it. */
  lemma SubtractUndone(u: Vector3, v: Vector3)
    ensures Add(Subtract(u, v), v) == u
  {
  }

  lemma DotSymmetric(u: Vector3, v: Vector3)
    ensures Dot(u, v) == Dot(v, u)
  {
  }

  lemma DotSelf(v: Vector3)
    ensures Dot(v, v) == Magnitude2(v)
  {
  }

  lemma CrossAnticommutative(u: Vector3, v: Vector3)
    ensures Cross(v, u) == Negate(Cross(u, v))
    ensures Cross(v, v) == ZERO
  {
  }

  lemma NegateInvolution(v: Vector3)
    ensures Negate(Negate(v)) == v
  {
  }

  lemma Magnitude2Negate(v: Vector3)
    ensures Magnitude2(Negate(v)) == Magnitude2(v)
  {
  }

  /** Scaling by `k` scales the squared length by `k * k`. */
  lemma Magnitude2Scale(v: Vector3, k: real)
    ensures Magnitude2(MultiplyScalar(v, k)) == k * k * Magnitude2(v)
  {
  }

  /** The zero vector normalises to itself, whatever `isqrt(0)` returns. */
  lemma NormalizeZero(p: Platform, v: Vector3)
    requires v.x == 0.0 && v.y == 0.0 && v.z == 0.0
    ensures Normalize(p, v) == v
  {
  }

  /** Where `isqrt` is exact, a non-zero vector normalises to unit length. */
  lemma NormalizeUnit(p: Platform, v: Vector3)
    requires v != ZERO && Numbers.ExactAt(p, Magnitude2(v))
    ensures Magnitude2(Normalize(p, v)) == 1.0
  {
    Magnitude2Scale(v, Numbers.ISqrtOf(p, Magnitude2(v)));
  }

  /** Where `isqrt` is exact, normalising ignores a positive scale factor. */
  lemma NormalizeScaled(p: Platform, v: Vector3, k: real)
    requires Numbers.ExactISqrt(p) && k > 0.0
    ensures Normalize(p, MultiplyScalar(v, k)) == Normalize(p, v)
  {
    if v == ZERO {
      NormalizeZero(p, v);
      NormalizeZero(p, MultiplyScalar(v, k));
    } else {
      Magnitude2Zero(v);
      Magnitude2Scale(v, k);
      Numbers.ISqrtScaled(p, Magnitude2(v), k, Magnitude2(MultiplyScalar(v, k)));
      ScaleTwice(v, k, Numbers.ISqrtOf(p, Magnitude2(MultiplyScalar(v, k))), Numbers.ISqrtOf(p, Magnitude2(v)));
    }
  }

  lemma ScaleTwice(v: Vector3, k: real, a: real, b: real)
    requires k * a == b
    ensures MultiplyScalar(MultiplyScalar(v, k), a) == MultiplyScalar(v, b)
  {
    assert v.x * k * a == v.x * (k * a);
    assert v.y * k * a == v.y * (k * a);
    assert v.z * k * a == v.z * (k * a);
  }

  /** A vector that a non-zero factor h scales to u scaled by s is u scaled by
      s / h. */
  lemma DivideScaled(a: Vector3, u: Vector3, h: real, s: real)
    requires h != 0.0 && MultiplyScalar(a, h) == MultiplyScalar(u, s)
    ensures a == MultiplyScalar(u, s / h)
  {
    assert u.x * (s / h) * h == u.x * s;
    assert u.y * (s / h) * h == u.y * s;
    assert u.z * (s / h) * h == u.z * s;
    Numbers.Cancel(a.x, u.x * (s / h), h);
    Numbers.Cancel(a.y, u.y * (s / h), h);
    Numbers.Cancel(a.z, u.z * (s / h), h);
  }

  lemma Distance2Symmetric(u: Vector3, v: Vector3)
    ensures Distance2(u, v) == Distance2(v, u)
    ensures Distance2(u, u) == 0.0
  {
    Magnitude2Negate(Subtract(v, u));
    assert Subtract(u, v) == Negate(Subtract(v, u));
  }

  /** `parseVector(v.toString())` is `v`. */
  lemma ParseToString(p: Platform, v: Vector3)
    requires FormatLaws(p)
    ensures Parsed(p, ToString(p, v)) == Ok(v)
  {
    Serial.FieldsRender(p, NAME, KEYS, [v.x, v.y, v.z]);
    assert seq(3, i requires 0 <= i < 3 => Fin([v.x, v.y, v.z][i])) == [Fin(v.x), Fin(v.y), Fin(v.z)];
  }
}
