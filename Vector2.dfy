/** Two-dimensional vectors: component-wise arithmetic, the dot product, complex
    multiplication and the rotation built on it, and the `Vector2{x=.., y=..}` text
    format. */
module Vector2 {
  import opened Wrappers
  import opened Runtime
  import opened Geometry
  import opened Text
  import Numbers
  import Serial

  const ZERO := Vector2(0.0, 0.0)
  const POSITIVE_X := Vector2(1.0, 0.0)
  const POSITIVE_Y := Vector2(0.0, 1.0)
  const NEGATIVE_X := Vector2(-1.0, 0.0)
  const NEGATIVE_Y := Vector2(0.0, -1.0)

  const NAME := "Vector2"
  const KEYS := ["x", "y"]

  /** `new Vector2(x, y)`: both components must be finite. */
  function Of(x: Num, y: Num): (r: Result<Vector2>)
    ensures r.Ok? <==> x.Fin? && y.Fin?
    ensures r.Ok? ==> r.value == Vector2(x.value, y.value)
    ensures r.Err? ==> r.error == IllegalArgument
  {
    var vx :- Numbers.RequireFinite(x);
    var vy :- Numbers.RequireFinite(y);
    Ok(Vector2(vx, vy))
  }

  /** The squared length. */
  function Magnitude2(v: Vector2): (r: real)
    ensures r >= 0.0
  {
    Magnitude2Squares(v);
    Numbers.SquareSign(v.x);
    Numbers.SquareSign(v.y);
    v.x * v.x + v.y * v.y
  }

  /** The squared length as a sum of `Numbers.Square`s, the form the sign lemmas
      are stated in. */
  lemma Magnitude2Squares(v: Vector2)
    ensures v.x * v.x + v.y * v.y == Numbers.Square(v.x) + Numbers.Square(v.y)
  {
  }

  /** Only the zero vector has squared length zero. */
  lemma Magnitude2Zero(v: Vector2)
    ensures Magnitude2(v) == 0.0 <==> v == ZERO
  {
    Magnitude2Squares(v);
    Numbers.SquareSign(v.x);
    Numbers.SquareSign(v.y);
  }

  /** `magnitude()` with the zero guard it evidently intends (`Numbers.Magnitude`):
      0 for the zero vector, where the source returns 1 / isqrt(0); the source's
      value everywhere else. */
  function Magnitude(p: Platform, v: Vector2): (r: real)
    ensures v == ZERO ==> r == 0.0
    ensures v != ZERO ==> r == Numbers.MagnitudeAsWritten(p, Magnitude2(v))
  {
    Magnitude2Zero(v);
    Numbers.Magnitude(p, Magnitude2(v))
  }

  //
  // Vector-scalar arithmetic
  //

  function AddScalar(v: Vector2, s: real): (r: Vector2)
    ensures SubtractScalar(r, s) == v
  {
    Vector2(v.x + s, v.y + s)
  }

  function SubtractScalar(v: Vector2, s: real): Vector2 {
    Vector2(v.x - s, v.y - s)
  }

  function MultiplyScalar(v: Vector2, s: real): Vector2 {
    Vector2(v.x * s, v.y * s)
  }

  /** An ArithmeticException for a zero divisor; otherwise the vector that the
      divisor multiplies back to `v`. */
  function Divide(v: Vector2, s: real): (r: Result<Vector2>)
    ensures r.Err? <==> s == 0.0
    ensures r.Err? ==> r.error == Arithmetic
    ensures r.Ok? ==> MultiplyScalar(r.value, s) == v
  {
    if s == 0.0 then Err(Arithmetic) else Ok(Vector2(v.x / s, v.y / s))
  }

  //
  // Vector-vector arithmetic
  //

  function Add(u: Vector2, v: Vector2): (r: Vector2)
    ensures Subtract(r, v) == u
  {
    Vector2(u.x + v.x, u.y + v.y)
  }

  function Subtract(u: Vector2, v: Vector2): Vector2 {
    Vector2(u.x - v.x, u.y - v.y)
  }

  function Dot(u: Vector2, v: Vector2): (r: real)
    ensures u == v ==> r == Magnitude2(u)
  {
    u.x * v.x + u.y * v.y
  }

  /** Multiplication of the vectors read as complex numbers x + iy; lengths multiply. */
  function Multiply(u: Vector2, v: Vector2): (r: Vector2)
    ensures Magnitude2(r) == Magnitude2(u) * Magnitude2(v)
  {
    Vector2(u.x * v.x - u.y * v.y, u.x * v.y + u.y * v.x)
  }

  /** Exact component-wise equality with another Vector2; false for null and for
      every other class. */
  function Equals(v: Vector2, o: Obj): (r: bool)
    ensures r <==> o == Instance(Vec2(v))
  {
    match o
    case Instance(Vec2(u)) => v.x == u.x && v.y == u.y
    case _ => false
  }

  //
  // Util
  //

  /** `negate()`: the additive inverse. */
  function Negate(v: Vector2): (r: Vector2)
    ensures Add(r, v) == ZERO
  {
    MultiplyScalar(v, -1.0)
  }

  /** Scales by `isqrt(magnitude2())`; the zero vector stays zero whatever `isqrt`
      returns. */
  function Normalize(p: Platform, v: Vector2): (r: Vector2)
    ensures v == ZERO ==> r == ZERO
  {
    MultiplyScalar(v, Numbers.ISqrtOf(p, Magnitude2(v)))
  }

  /** `distance(v)`: the magnitude of the difference; 0 from a vector to
      itself. */
  function Distance(p: Platform, u: Vector2, v: Vector2): (r: real)
    ensures u == v ==> r == 0.0
    ensures u != v ==> r == Numbers.MagnitudeAsWritten(p, Distance2(u, v))
  {
    Magnitude(p, Subtract(u, v))
  }

  /** `distance2(v)`: the squared magnitude of the difference; never negative,
      and 0 exactly between equal vectors. */
  function Distance2(u: Vector2, v: Vector2): (r: real)
    ensures r >= 0.0
    ensures r == 0.0 <==> u == v
  {
    Magnitude2Zero(Subtract(u, v));
    SubtractZero(u, v);
    Magnitude2(Subtract(u, v))
  }

  /** Counter-clockwise rotation: multiplication by (cos angle, sin angle), which
      keeps the length wherever cos^2 + sin^2 = 1. */
  function Rotate(p: Platform, v: Vector2, angle: real): (r: Vector2)
    ensures TrigLaws(p) ==> Magnitude2(r) == Magnitude2(v)
  {
    var r := Multiply(v, Vector2(p.cos(angle), p.sin(angle)));
    assert TrigLaws(p) ==> Magnitude2(Vector2(p.cos(angle), p.sin(angle))) == 1.0;
    r
  }

  //
  // Serialization
  //

  /** `toString()`: `Vector2{...}` with one `key=value` segment per component. */
  function ToString(p: Platform, v: Vector2): (r: string)
    ensures StartsWith(r, NAME + "{")
  {
    Serial.RenderPrefix(p, NAME, KEYS, [v.x, v.y]);
    Serial.Render(p, NAME, KEYS, [v.x, v.y])
  }

  /** What `parseVector` returns or throws: a NumberFormatException for text that is
      not `Vector2{...}` or has a malformed segment, an IllegalArgumentException
      when a field is missing (left NaN) or not finite. */
  function Parsed(p: Platform, s: string): (r: Result<Vector2>)
    ensures !StartsWith(s, NAME + "{") ==> r == Err(NumberFormat)
    ensures r.Ok? ==> Serial.Fields(p, NAME, KEYS, s) == Ok([Fin(r.value.x), Fin(r.value.y)])
    ensures r == Err(IllegalArgument) <==> Serial.Fields(p, NAME, KEYS, s).Ok? && !Serial.AllFinite(Serial.Fields(p, NAME, KEYS, s).value)
    ensures Serial.Fields(p, NAME, KEYS, s).Ok? && Serial.AllFinite(Serial.Fields(p, NAME, KEYS, s).value) ==> r.Ok?
    ensures Serial.Fields(p, NAME, KEYS, s).Err? ==> r == Err(Serial.Fields(p, NAME, KEYS, s).error)
  {
    var vals :- Serial.Fields(p, NAME, KEYS, s);
    assert vals == [vals[0], vals[1]];
    Of(vals[0], vals[1])
  }

  /** `parseVector`. */
  method ParseVector(p: Platform, s: string) returns (r: Result<Vector2>)
    ensures r == Parsed(p, s)
  {
    var values := Serial.ParseFields(p, NAME, KEYS, s);
    if values.Err? {
      return Err(values.error);
    }
    r := Of(values.value[0], values.value[1]);
  }

  //
  // Properties
  //

  /** The difference is zero exactly between equal vectors. */
  lemma SubtractZero(u: Vector2, v: Vector2)
    ensures Subtract(u, v) == ZERO <==> u == v
  {
  }

  /** Adding the scalar back undoes subtracting it. */
  lemma SubtractScalarUndone(v: Vector2, s: real)
    ensures AddScalar(SubtractScalar(v, s), s) == v
  {
  }

  /** Scaling by 1 changes nothing, and scaling twice is scaling once by the product. */
  lemma MultiplyScalarCompose(v: Vector2, a: real, b: real)
    ensures MultiplyScalar(v, 1.0) == v
    ensures MultiplyScalar(MultiplyScalar(v, a), b) == MultiplyScalar(v, a * b)
  {
  }

  /** Adding `v` back undoes subtracting it. */
  lemma SubtractUndone(u: Vector2, v: Vector2)
    ensures Add(Subtract(u, v), v) == u
  {
  }

  lemma DotSymmetric(u: Vector2, v: Vector2)
    ensures Dot(u, v) == Dot(v, u)
  {
  }

  lemma DotSelf(v: Vector2)
    ensures Dot(v, v) == Magnitude2(v)
  {
  }

  lemma MultiplyCommutative(u: Vector2, v: Vector2)
    ensures Multiply(u, v) == Multiply(v, u)
  {
  }

  lemma MultiplyIdentity(v: Vector2)
    ensures Multiply(POSITIVE_X, v) == v && Multiply(v, POSITIVE_X) == v
  {
  }

  lemma NegateInvolution(v: Vector2)
    ensures Negate(Negate(v)) == v
  {
  }

  /** The zero vector normalises to itself, whatever `isqrt(0)` returns. */
  lemma NormalizeZero(p: Platform, v: Vector2)
    requires v.x == 0.0 && v.y == 0.0
    ensures Normalize(p, v) == v
  {
  }

  /** Where `isqrt` is exact, a non-zero vector normalises to unit length. */
  lemma NormalizeUnit(p: Platform, v: Vector2)
    requires v != ZERO && Numbers.ExactAt(p, Magnitude2(v))
    ensures Magnitude2(Normalize(p, v)) == 1.0
  {
    var k := Numbers.ISqrtOf(p, Magnitude2(v));
    assert Magnitude2(MultiplyScalar(v, k)) == k * k * Magnitude2(v);
  }

  lemma Distance2Symmetric(u: Vector2, v: Vector2)
    ensures Distance2(u, v) == Distance2(v, u)
    ensures Distance2(u, u) == 0.0
  {
    Magnitude2Negate(Subtract(v, u));
    assert Subtract(u, v) == Negate(Subtract(v, u));
  }

  lemma Magnitude2Negate(v: Vector2)
    ensures Magnitude2(Negate(v)) == Magnitude2(v)
  {
  }

  /** `parseVector(v.toString())` is `v`. */
  lemma ParseToString(p: Platform, v: Vector2)
    requires FormatLaws(p)
    ensures Parsed(p, ToString(p, v)) == Ok(v)
  {
    Serial.FieldsRender(p, NAME, KEYS, [v.x, v.y]);
    assert seq(2, i requires 0 <= i < 2 => Fin([v.x, v.y][i])) == [Fin(v.x), Fin(v.y)];
  }
}
