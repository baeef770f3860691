/** Four-dimensional vectors (w, x, y, z), the common base of Quaternion and
    Rotation: component-wise arithmetic, equality across the whole family, and the
    `Vector4{w=.., x=.., y=.., z=..}` text format. */
module Vector4 {
  import opened Wrappers
  import opened Runtime
  import opened Geometry
  import opened Text
  import Numbers
  import Serial

  const ZERO := Vector4(0.0, 0.0, 0.0, 0.0)
  const POSITIVE_W := Vector4(1.0, 0.0, 0.0, 0.0)
  const POSITIVE_X := Vector4(0.0, 1.0, 0.0, 0.0)
  const POSITIVE_Y := Vector4(0.0, 0.0, 1.0, 0.0)
  const POSITIVE_Z := Vector4(0.0, 0.0, 0.0, 1.0)

  const NAME := "Vector4"
  const KEYS := ["w", "x", "y", "z"]

  /** `new Vector4(w, x, y, z)`: every component must be finite. */
  function Of(w: Num, x: Num, y: Num, z: Num): (r: Result<Vector4>)
    ensures r.Ok? <==> w.Fin? && x.Fin? && y.Fin? && z.Fin?
    ensures r.Ok? ==> r.value == Vector4(w.value, x.value, y.value, z.value)
    ensures r.Err? ==> r.error == IllegalArgument
  {
    var vw :- Numbers.RequireFinite(w);
    var vx :- Numbers.RequireFinite(x);
    var vy :- Numbers.RequireFinite(y);
    var vz :- Numbers.RequireFinite(z);
    Ok(Vector4(vw, vx, vy, vz))
  }

  /** The squared length. */
  function Magnitude2(v: Vector4): (r: real)
    ensures r >= 0.0
  {
    Magnitude2Squares(v);
    Numbers.SquareSign(v.w);
    Numbers.SquareSign(v.x);
    Numbers.SquareSign(v.y);
    Numbers.SquareSign(v.z);
    v.w * v.w + v.x * v.x + v.y * v.y + v.z * v.z
  }

  /** The squared length as a sum of `Numbers.Square`s, the form the sign lemmas
      are stated in. */
  lemma Magnitude2Squares(v: Vector4)
    ensures v.w * v.w + v.x * v.x + v.y * v.y + v.z * v.z == Numbers.Square(v.w) + Numbers.Square(v.x) + Numbers.Square(v.y) + Numbers.Square(v.z)
  {
  }

  /** Only the zero vector has squared length zero. */
  lemma Magnitude2Zero(v: Vector4)
    ensures Magnitude2(v) == 0.0 <==> v == ZERO
  {
    Magnitude2Squares(v);
    Numbers.SquareSign(v.w);
    Numbers.SquareSign(v.x);
    Numbers.SquareSign(v.y);
    Numbers.SquareSign(v.z);
  }

  /** `magnitude()` with the zero guard it evidently intends (`Numbers.Magnitude`):
      0 for the zero vector, where the source returns 1 / isqrt(0); the source's
      value everywhere else. */
  function Magnitude(p: Platform, v: Vector4): (r: real)
    ensures v == ZERO ==> r == 0.0
    ensures v != ZERO ==> r == Numbers.MagnitudeAsWritten(p, Magnitude2(v))
  {
    Magnitude2Zero(v);
    Numbers.Magnitude(p, Magnitude2(v))
  }

  //
  // Vector-scalar arithmetic
  //

  function AddScalar(v: Vector4, s: real): (r: Vector4)
    ensures SubtractScalar(r, s) == v
  {
    Vector4(v.w + s, v.x + s, v.y + s, v.z + s)
  }

  function SubtractScalar(v: Vector4, s: real): Vector4 {
    Vector4(v.w - s, v.x - s, v.y - s, v.z - s)
  }

  function MultiplyScalar(v: Vector4, s: real): Vector4 {
    Vector4(v.w * s, v.x * s, v.y * s, v.z * s)
  }

  /** An ArithmeticException for a zero divisor; otherwise the vector that the
      divisor multiplies back to `v`. */
  function Divide(v: Vector4, s: real): (r: Result<Vector4>)
    ensures r.Err? <==> s == 0.0
    ensures r.Err? ==> r.error == Arithmetic
    ensures r.Ok? ==> MultiplyScalar(r.value, s) == v
  {
    if s == 0.0 then Err(Arithmetic) else Ok(Vector4(v.w / s, v.x / s, v.y / s, v.z / s))
  }

  //
  // Vector-vector arithmetic
  //

  function Add(u: Vector4, v: Vector4): (r: Vector4)
    ensures Subtract(r, v) == u
  {
    Vector4(u.w + v.w, u.x + v.x, u.y + v.y, u.z + v.z)
  }

  /** `subtract(Vector4)` as written: its fourth component is `z - v.y`, so it
      agrees with the documented difference only when `v.y == v.z`. */
  function SubtractAsWritten(u: Vector4, v: Vector4): (r: Vector4)
    ensures r == Subtract(u, v) <==> v.y == v.z
  {
    Vector4(u.w - v.w, u.x - v.x, u.y - v.y, u.z - v.y)
  }

  /** `subtract(Vector4)` as documented: the component-wise difference, zero
      exactly between equal vectors. */
  function Subtract(u: Vector4, v: Vector4): (r: Vector4)
    ensures r == ZERO <==> u == v
  {
    Vector4(u.w - v.w, u.x - v.x, u.y - v.y, u.z - v.z)
  }

  /** Exact component-wise equality with any object of the Vector4 family: a
      Vector4, a Quaternion or a Rotation with the same four components; false for
      null, for Vector2 and Vector3, and for every other class. */
  function Equals(v: Vector4, o: Obj): (r: bool)
    ensures r <==> o == Instance(Vec4(v)) || o == Instance(Quat(Quaternion(v.w, v.x, v.y, v.z)))
                   || o == Instance(Rot(Rotation(v.w, v.x, v.y, v.z)))
  {
    match o
    case Instance(Vec4(u)) => v.w == u.w && v.x == u.x && v.y == u.y && v.z == u.z
    case Instance(Quat(q)) => v.w == q.w && v.x == q.x && v.y == q.y && v.z == q.z
    case Instance(Rot(q)) => v.w == q.w && v.x == q.x && v.y == q.y && v.z == q.z
    case _ => false
  }

  //
  // Util
  //

  /** `negate()`: the additive inverse. */
  function Negate(v: Vector4): (r: Vector4)
    ensures Add(r, v) == ZERO
  {
    MultiplyScalar(v, -1.0)
  }

  /** Scales by `isqrt(magnitude2())`. */
  function Normalize(p: Platform, v: Vector4): (r: Vector4)
    ensures v == ZERO ==> r == ZERO
  {
    MultiplyScalar(v, Numbers.ISqrtOf(p, Magnitude2(v)))
  }

  /** `distance(v)` as written: `subtract(v).magnitude()`, with both the
      subtraction and the magnitude as the source computes them. Where the
      subtraction bug does not bite, it agrees with the corrected distance. */
  function DistanceAsWritten(p: Platform, u: Vector4, v: Vector4): (r: real)
    ensures v.y == v.z && u != v ==> r == Distance(p, u, v)
  {
    Numbers.MagnitudeAsWritten(p, Distance2AsWritten(u, v))
  }

  /** `distance2(v)` as written: `subtract(v).magnitude2()` over the subtraction
      as written: never negative, and the corrected squared distance whenever
      v.y = v.z. */
  function Distance2AsWritten(u: Vector4, v: Vector4): (r: real)
    ensures r >= 0.0
    ensures v.y == v.z ==> r == Distance2(u, v)
  {
    Magnitude2(SubtractAsWritten(u, v))
  }

  /** `distance(v)` as evidently intended: the corrected magnitude of the
      component-wise difference; 0 from a vector to itself. */
  function Distance(p: Platform, u: Vector4, v: Vector4): (r: real)
    ensures u == v ==> r == 0.0
    ensures u != v ==> r == Numbers.MagnitudeAsWritten(p, Distance2(u, v))
  {
    Magnitude(p, Subtract(u, v))
  }

  /** `distance2(v)` as evidently intended: the squared magnitude of the
      component-wise difference; never negative, and 0 exactly between equal
      vectors. */
  function Distance2(u: Vector4, v: Vector4): (r: real)
    ensures r >= 0.0
    ensures r == 0.0 <==> u == v
  {
    Magnitude2Zero(Subtract(u, v));
    Magnitude2(Subtract(u, v))
  }

  //
  // Serialization
  //

  /** `toString()`: `Vector4{...}` with one `key=value` segment per component. */
  function ToString(p: Platform, v: Vector4): (r: string)
    ensures StartsWith(r, NAME + "{")
  {
    Serial.RenderPrefix(p, NAME, KEYS, [v.w, v.x, v.y, v.z]);
    Serial.Render(p, NAME, KEYS, [v.w, v.x, v.y, v.z])
  }

  /** What `parseVector` returns or throws: a NumberFormatException for text that is
      not `Vector4{...}` or has a malformed segment, an IllegalArgumentException
      when a field is missing (left NaN) or not finite. */
  function Parsed(p: Platform, s: string): (r: Result<Vector4>)
    ensures !StartsWith(s, NAME + "{") ==> r == Err(NumberFormat)
    ensures r.Ok? ==> Serial.Fields(p, NAME, KEYS, s) == Ok([Fin(r.value.w), Fin(r.value.x), Fin(r.value.y), Fin(r.value.z)])
    ensures r == Err(IllegalArgument) <==> Serial.Fields(p, NAME, KEYS, s).Ok? && !Serial.AllFinite(Serial.Fields(p, NAME, KEYS, s).value)
    ensures Serial.Fields(p, NAME, KEYS, s).Ok? && Serial.AllFinite(Serial.Fields(p, NAME, KEYS, s).value) ==> r.Ok?
    ensures Serial.Fields(p, NAME, KEYS, s).Err? ==> r == Err(Serial.Fields(p, NAME, KEYS, s).error)
  {
    FromFields(Serial.Fields(p, NAME, KEYS, s))
  }

  /** The constructor applied to the four parsed fields, in order w, x, y, z. */
  function FromFields(fields: Result<seq<Num>>): (r: Result<Vector4>)
    requires fields.Ok? ==> |fields.value| == 4
    ensures fields.Err? ==> r == Err(fields.error)
    ensures r.Ok? ==> fields == Ok([Fin(r.value.w), Fin(r.value.x), Fin(r.value.y), Fin(r.value.z)])
    ensures fields.Ok? ==> (r.Err? <==> !Serial.AllFinite(fields.value))
    ensures fields.Ok? && r.Err? ==> r.error == IllegalArgument
  {
    var vals :- fields;
    assert vals == [vals[0], vals[1], vals[2], vals[3]];
    Of(vals[0], vals[1], vals[2], vals[3])
  }

  /** `parseVector`. */
  method ParseVector(p: Platform, s: string) returns (r: Result<Vector4>)
    ensures r == Parsed(p, s)
  {
    var values := Serial.ParseFields(p, NAME, KEYS, s);
    r := FromFields(values);
  }

  //
  // Properties
  //

  lemma AddCommutative(u: Vector4, v: Vector4)
    ensures Add(u, v) == Add(v, u)
  {
  }

  /** Adding the scalar back undoes subtracting it. */
  lemma SubtractScalarUndone(v: Vector4, s: real)
    ensures AddScalar(SubtractScalar(v, s), s) == v
  {
  }

  /** Scaling by 1 changes nothing, and scaling twice is scaling once by the product. */
  lemma MultiplyScalarCompose(v: Vector4, a: real, b: real)
    ensures MultiplyScalar(v, 1.0) == v
    ensures MultiplyScalar(MultiplyScalar(v, a), b) == MultiplyScalar(v, a * b)
  {
  }

  /** The subtraction as written does not take a vector to zero: what is left in
      the fourth place is `z - y`. */
  lemma SubtractAsWrittenSelf(v: Vector4)
    ensures SubtractAsWritten(v, v) == Vector4(0.0, 0.0, 0.0, v.z - v.y)
    ensures SubtractAsWritten(v, v) == ZERO <==> v.y == v.z
  {
  }

  lemma SubtractSelf(v: Vector4)
    ensures Subtract(v, v) == ZERO
  {
  }

  lemma NegateInvolution(v: Vector4)
    ensures Negate(Negate(v)) == v
  {
  }

  lemma Magnitude2Negate(v: Vector4)
    ensures Magnitude2(Negate(v)) == Magnitude2(v)
  {
  }

  /** Scaling by `k` scales the squared length by `k * k`. */
  lemma Magnitude2Scale(v: Vector4, k: real)
    ensures Magnitude2(MultiplyScalar(v, k)) == k * k * Magnitude2(v)
  {
  }

  /** The zero vector normalises to itself, whatever `isqrt(0)` returns. */
  lemma NormalizeZero(p: Platform, v: Vector4)
    requires v.w == 0.0 && v.x == 0.0 && v.y == 0.0 && v.z == 0.0
    ensures Normalize(p, v) == v
  {
  }

  /** Where `isqrt` is exact, a non-zero vector normalises to unit length. */
  lemma NormalizeUnit(p: Platform, v: Vector4)
    requires v != ZERO && Numbers.ExactAt(p, Magnitude2(v))
    ensures Magnitude2(Normalize(p, v)) == 1.0
  {
    Magnitude2Scale(v, Numbers.ISqrtOf(p, Magnitude2(v)));
  }

  /** The squared distance as written from a vector to itself is what the fourth
      component leaves over, `(z - y)^2`: 0 only when y and z agree. */
  lemma Distance2AsWrittenSelf(v: Vector4)
    ensures Distance2AsWritten(v, v) == (v.z - v.y) * (v.z - v.y)
    ensures Distance2AsWritten(v, v) == 0.0 <==> v.y == v.z
  {
    SubtractAsWrittenSelf(v);
    Magnitude2Zero(SubtractAsWritten(v, v));
  }

  /** The squared distance as written is not symmetric: from ZERO to (0, 0, 1, 0)
      it is 2, back it is 1. */
  lemma Distance2AsWrittenAsymmetric(u: Vector4, v: Vector4)
    requires u.w == 0.0 && u.x == 0.0 && u.y == 0.0 && u.z == 0.0
    requires v.w == 0.0 && v.x == 0.0 && v.y == 1.0 && v.z == 0.0
    ensures Distance2AsWritten(u, v) == 2.0 && Distance2AsWritten(v, u) == 1.0
  {
    assert SubtractAsWritten(u, v) == Vector4(0.0, 0.0, -1.0, -1.0);
    assert SubtractAsWritten(v, u) == Vector4(0.0, 0.0, 1.0, 0.0);
  }

  /** The distance as written from a vector whose y and z agree to itself is not
      0: the difference is the zero vector, whose magnitude as written is
      positive. */
  lemma DistanceAsWrittenSelf(p: Platform, v: Vector4)
    requires Numbers.BitsLaws(p) && v.y == v.z
    ensures DistanceAsWritten(p, v, v) > 0.0
  {
    Distance2AsWrittenSelf(v);
    Numbers.MagnitudeAsWrittenOfZero(p);
  }

  /** The squared distance is symmetric and 0 from a vector to itself. */
  lemma Distance2Symmetric(u: Vector4, v: Vector4)
    ensures Distance2(u, v) == Distance2(v, u)
    ensures Distance2(u, u) == 0.0
  {
    Magnitude2Negate(Subtract(v, u));
    assert Subtract(u, v) == Negate(Subtract(v, u));
  }

  /** Equality does not look at the class within the family. */
  lemma EqualsAcrossFamily(v: Vector4)
    ensures Equals(v, Instance(Quat(Quaternion(v.w, v.x, v.y, v.z))))
    ensures Equals(v, Instance(Rot(Rotation(v.w, v.x, v.y, v.z))))
    ensures !Equals(v, Null) && !Equals(v, Foreign)
  {
  }

  /** `parseVector(v.toString())` is `v`. */
  lemma ParseToString(p: Platform, v: Vector4)
    requires FormatLaws(p)
    ensures Parsed(p, ToString(p, v)) == Ok(v)
  {
    Serial.FieldsRender(p, NAME, KEYS, [v.w, v.x, v.y, v.z]);
    assert seq(4, i requires 0 <= i < 4 => Fin([v.w, v.x, v.y, v.z][i])) == [Fin(v.w), Fin(v.x), Fin(v.y), Fin(v.z)];
  }
}
