/** Rotations in axis/angle form, a Vector4 with the angle in w and the axis in
    (x, y, z): the angle and the normalised axis, scaling of the angle, conversion
    to and from rotation quaternions, composition, and the
    `Rotation{angle=.., x=.., y=.., z=..}` format. */
module Rotation {
  import opened Wrappers
  import opened Runtime
  import opened Geometry
  import opened Text
  import Numbers
  import Serial
  import V3 = Vector3
  import V4 = Vector4
  import Q = Quaternion

  /** `NO_ROTATION`: angle 0 about +Y. */
  const NO_ROTATION := Rotation(0.0, 0.0, 1.0, 0.0)

  const NAME := "Rotation"
  const KEYS := ["angle", "x", "y", "z"]

  //
  // Constructors and views
  //

  /** `new Rotation(axis, angle)`: the axis is already a valid Vector3; the angle
      must be finite. */
  function FromAxisAngle(axis: Vector3, angle: Num): (r: Result<Rotation>)
    ensures r.Ok? <==> angle.Fin?
    ensures r.Ok? ==> Angle(r.value) == angle.value && StoredAxis(r.value) == axis
    ensures r.Err? ==> r.error == IllegalArgument
  {
    var v :- V4.Of(angle, Fin(axis.x), Fin(axis.y), Fin(axis.z));
    Ok(FromVector4(v))
  }

  /** `new Rotation(angle, x, y, z)`: every component must be finite. */
  function Of(angle: Num, x: Num, y: Num, z: Num): (r: Result<Rotation>)
    ensures r.Ok? <==> angle.Fin? && x.Fin? && y.Fin? && z.Fin?
    ensures r.Ok? ==> Angle(r.value) == angle.value && StoredAxis(r.value) == Vector3(x.value, y.value, z.value)
    ensures r.Err? ==> r.error == IllegalArgument
  {
    var v :- V4.Of(angle, x, y, z);
    Ok(FromVector4(v))
  }

  /** `new Rotation(Vector4)`: the same four components. */
  function FromVector4(v: Vector4): (r: Rotation)
    ensures AsVector4(r) == v
  {
    Rotation(v.w, v.x, v.y, v.z)
  }

  function AsVector4(r: Rotation): Vector4 {
    Vector4(r.w, r.x, r.y, r.z)
  }

  /** `angle()`: w, in radians. */
  function Angle(r: Rotation): real {
    r.w
  }

  /** The axis as stored, not necessarily of unit length. */
  function StoredAxis(r: Rotation): Vector3 {
    Vector3(r.x, r.y, r.z)
  }

  /** `axis()`: the stored axis, normalised on every read. */
  function Axis(p: Platform, r: Rotation): (a: Vector3)
    ensures StoredAxis(r) == V3.ZERO ==> a == V3.ZERO
  {
    V3.Normalize(p, StoredAxis(r))
  }

  //
  // Scaling
  //

  /** `scale(s)`: the angle times `s`, the axis as it was. */
  function Scale(r: Rotation, s: real): (r': Rotation)
    ensures StoredAxis(r') == StoredAxis(r) && Angle(r') == Angle(r) * s
  {
    Rotation(r.w * s, r.x, r.y, r.z)
  }

  //
  // Rotation quaternions
  //

  /** `quaternion()`: (cos(angle/2), axis() normalised once more, times
      sin(angle/2)). */
  function ToQuaternion(p: Platform, r: Rotation): (q: Quaternion)
    ensures q.w == p.cos(Angle(r) / 2.0)
    ensures StoredAxis(r) == V3.ZERO ==> Q.Vector(q) == V3.ZERO
  {
    var half := r.w / 2.0;
    Q.FromParts(p.cos(half), V3.MultiplyScalar(V3.Normalize(p, Axis(p, r)), p.sin(half)))
  }

  /** `Quaternion.rotation()`: the angle 2 acos(w), NO_ROTATION when that angle is
      0, otherwise the vector part divided by acos(w) as the (unnormalised) axis.
      For w outside [-1, 1] `Math.acos` gives NaN, which the division spreads to
      the axis and the Vector3 constructor rejects with an
      IllegalArgumentException. */
  function FromQuaternion(p: Platform, q: Quaternion): (r: Result<Rotation>)
    ensures r.Err? <==> q.w < -1.0 || q.w > 1.0
    ensures r.Err? ==> r.error == IllegalArgument
    ensures r.Ok? && p.acos(q.w) == 0.0 ==> r.value == NO_ROTATION
    ensures r.Ok? && p.acos(q.w) != 0.0 ==>
      Angle(r.value) == 2.0 * p.acos(q.w) && V3.MultiplyScalar(StoredAxis(r.value), p.acos(q.w)) == Q.Vector(q)
  {
    if q.w < -1.0 || q.w > 1.0 then Err(IllegalArgument)
    else
      var angle := 2.0 * p.acos(q.w);
      if angle == 0.0 then Ok(NO_ROTATION)
      else
        var axis := V3.Divide(Q.Vector(q), angle / 2.0).value;
        Ok(Rotation(angle, axis.x, axis.y, axis.z))
  }

  /** `rotate(rq)`: this rotation's quaternion multiplied by `rq`, turned back into
      a rotation. */
  function RotateByQuaternion(p: Platform, r: Rotation, rq: Quaternion): (res: Result<Rotation>)
    ensures res.Err? ==> res.error == IllegalArgument
    ensures Q.Magnitude2(rq) == 1.0 && Q.Magnitude2(ToQuaternion(p, r)) == 1.0 ==> res.Ok?
  {
    var m := Q.Multiply(rq, ToQuaternion(p, r));
    Q.Magnitude2Multiply(rq, ToQuaternion(p, r));
    Q.UnitScalarBound(m);
    FromQuaternion(p, m)
  }

  /** `rotate(Rotation)`: rotate by the other rotation's quaternion; two rotations
      with unit quaternions always compose. */
  function RotateBy(p: Platform, r: Rotation, other: Rotation): (res: Result<Rotation>)
    ensures res.Err? ==> res.error == IllegalArgument
    ensures Q.Magnitude2(ToQuaternion(p, other)) == 1.0 && Q.Magnitude2(ToQuaternion(p, r)) == 1.0 ==> res.Ok?
  {
    RotateByQuaternion(p, r, ToQuaternion(p, other))
  }

  //
  // Text
  //

  /** `toString()`: `Rotation{angle=.., x=.., y=.., z=..}`. */
  function ToString(p: Platform, r: Rotation): (s: string)
    ensures StartsWith(s, NAME + "{")
  {
    Serial.RenderPrefix(p, NAME, KEYS, [r.w, r.x, r.y, r.z]);
    Serial.Render(p, NAME, KEYS, [r.w, r.x, r.y, r.z])
  }

  /** What `parseRotation` returns or throws: a NumberFormatException for text that
      is not `Rotation{...}` or has a malformed segment; an IllegalArgumentException
      when x, y or z is missing or not finite (from the Vector3 constructor) or the
      angle is (from the Vector4 constructor). */
  function Parsed(p: Platform, s: string): (r: Result<Rotation>)
    ensures !StartsWith(s, NAME + "{") ==> r == Err(NumberFormat)
    ensures r.Ok? ==> Serial.Fields(p, NAME, KEYS, s) == Ok([Fin(r.value.w), Fin(r.value.x), Fin(r.value.y), Fin(r.value.z)])
    ensures r == Err(IllegalArgument) <==> Serial.Fields(p, NAME, KEYS, s).Ok? && !Serial.AllFinite(Serial.Fields(p, NAME, KEYS, s).value)
    ensures Serial.Fields(p, NAME, KEYS, s).Ok? && Serial.AllFinite(Serial.Fields(p, NAME, KEYS, s).value) ==> r.Ok?
    ensures Serial.Fields(p, NAME, KEYS, s).Err? ==> r == Err(Serial.Fields(p, NAME, KEYS, s).error)
  {
    FromFields(Serial.Fields(p, NAME, KEYS, s))
  }

  /** The constructor calls at the end of `parseRotation`, on the fields in key
      order (angle, x, y, z). */
  function FromFields(fields: Result<seq<Num>>): (r: Result<Rotation>)
    requires fields.Ok? ==> |fields.value| == 4
    ensures fields.Err? ==> r == Err(fields.error)
    ensures r.Ok? ==> fields == Ok([Fin(r.value.w), Fin(r.value.x), Fin(r.value.y), Fin(r.value.z)])
    ensures fields.Ok? ==> (r.Err? <==> !Serial.AllFinite(fields.value))
    ensures fields.Ok? && r.Err? ==> r.error == IllegalArgument
  {
    var vals :- fields;
    assert vals == [vals[0], vals[1], vals[2], vals[3]];
    var axis :- V3.Of(vals[1], vals[2], vals[3]);
    FromAxisAngle(axis, vals[0])
  }

  /** `parseRotation`. */
  method ParseRotation(p: Platform, s: string) returns (r: Result<Rotation>)
    ensures r == Parsed(p, s)
  {
    var values := Serial.ParseFields(p, NAME, KEYS, s);
    r := FromFields(values);
  }

  //
  // Properties
  //

  lemma ScaleOne(r: Rotation)
    ensures Scale(r, 1.0) == r
  {
  }

  /** Scaling twice scales by the product. */
  lemma ScaleCompose(r: Rotation, a: real, b: real)
    ensures Scale(Scale(r, a), b) == Scale(r, a * b)
  {
    assert r.w * a * b == r.w * (a * b);
  }

  /** Scaling the stored axis by a positive factor leaves `axis()` as it was,
      wherever `isqrt` is exact. */
  lemma AxisScaleInvariant(p: Platform, r: Rotation, k: real)
    requires Numbers.ExactISqrt(p) && k > 0.0
    ensures Axis(p, Rotation(r.w, r.x * k, r.y * k, r.z * k)) == Axis(p, r)
  {
    assert StoredAxis(Rotation(r.w, r.x * k, r.y * k, r.z * k)) == V3.MultiplyScalar(StoredAxis(r), k);
    V3.NormalizeScaled(p, StoredAxis(r), k);
  }

  /** The axis `axis()` returns is already of unit length, so the second
      normalisation in `quaternion()` changes nothing where `isqrt(1)` is exact. */
  lemma AxisNormalized(p: Platform, r: Rotation)
    requires Numbers.ExactISqrt(p) && StoredAxis(r) != V3.ZERO
    ensures V3.Magnitude2(Axis(p, r)) == 1.0
    ensures V3.Normalize(p, Axis(p, r)) == Axis(p, r)
  {
    V3.Magnitude2Zero(StoredAxis(r));
    V3.NormalizeUnit(p, StoredAxis(r));
    var a := Axis(p, r);
    assert Numbers.ExactAt(p, 1.0);
    Numbers.UnitRoot(Numbers.ISqrtOf(p, 1.0));
    assert V3.Normalize(p, a) == V3.MultiplyScalar(a, 1.0);
  }

  /** For a stored axis of unit length, where `isqrt(1)` is exact, `quaternion()`
      is (cos(angle/2), axis * sin(angle/2)) with the axis as stored. */
  lemma UnitAxisQuaternion(p: Platform, r: Rotation)
    requires Numbers.ExactAt(p, 1.0) && V3.Magnitude2(StoredAxis(r)) == 1.0
    ensures ToQuaternion(p, r) == Q.FromParts(p.cos(r.w / 2.0), V3.MultiplyScalar(StoredAxis(r), p.sin(r.w / 2.0)))
  {
    Numbers.UnitRoot(Numbers.ISqrtOf(p, 1.0));
    assert Axis(p, r) == StoredAxis(r);
  }

  /** With exact trigonometry and a non-zero axis, `quaternion()` is a unit
      quaternion. */
  lemma ToQuaternionUnit(p: Platform, r: Rotation)
    requires TrigLaws(p) && Numbers.ExactISqrt(p) && StoredAxis(r) != V3.ZERO
    ensures Q.Magnitude2(ToQuaternion(p, r)) == 1.0
  {
    var half := r.w / 2.0;
    AxisNormalized(p, r);
    var v := V3.MultiplyScalar(Axis(p, r), p.sin(half));
    V3.Magnitude2Scale(Axis(p, r), p.sin(half));
    assert V3.Magnitude2(v) == p.sin(half) * p.sin(half);
    assert p.cos(half) * p.cos(half) + p.sin(half) * p.sin(half) == 1.0;
    assert ToQuaternion(p, r) == Q.FromParts(p.cos(half), v);
  }

  /** With exact trigonometry and `isqrt`, composing two rotations with non-zero
      axes never fails. */
  lemma RotateByDefined(p: Platform, r: Rotation, other: Rotation)
    requires TrigLaws(p) && Numbers.ExactISqrt(p)
    requires StoredAxis(r) != V3.ZERO && StoredAxis(other) != V3.ZERO
    ensures RotateBy(p, r, other).Ok?
  {
    ToQuaternionUnit(p, r);
    ToQuaternionUnit(p, other);
  }

  /** NO_ROTATION survives the trip through its quaternion: cos 0 = 1 and
      acos 1 = 0. */
  lemma NoRotationRoundTrip(p: Platform)
    requires TrigLaws(p)
    ensures FromQuaternion(p, ToQuaternion(p, NO_ROTATION)) == Ok(NO_ROTATION)
  {
    assert ToQuaternion(p, NO_ROTATION).w == p.cos(0.0);
  }

  /** With cos 0 = 1 and sin 0 = 0, NO_ROTATION's quaternion is IDENTITY. */
  lemma NoRotationQuaternion(p: Platform)
    requires TrigLaws(p)
    ensures ToQuaternion(p, NO_ROTATION) == Q.IDENTITY
  {
    assert NO_ROTATION.w / 2.0 == 0.0;
  }

  /** Rotating by NO_ROTATION is the trip through the quaternion. */
  lemma RotateByNoRotation(p: Platform, r: Rotation)
    requires TrigLaws(p)
    ensures RotateBy(p, r, NO_ROTATION) == FromQuaternion(p, ToQuaternion(p, r))
  {
    NoRotationQuaternion(p);
    RotateByIdentity(p, r);
  }

  /** Rotating by the identity quaternion is the trip through the quaternion. */
  lemma RotateByIdentity(p: Platform, r: Rotation)
    ensures RotateByQuaternion(p, r, Q.IDENTITY) == FromQuaternion(p, ToQuaternion(p, r))
  {
    Q.MultiplyIdentity(ToQuaternion(p, r));
  }

  /** The trip through the quaternion keeps the angle and the direction of the axis
      for a half-angle h in (0, pi): with acos(cos h) = h and sin h > 0, the axis
      comes back scaled by sin h / h > 0 and normalises to the same unit vector. */
  lemma QuaternionRoundTrip(p: Platform, r: Rotation)
    requires TrigLaws(p) && Numbers.ExactISqrt(p) && StoredAxis(r) != V3.ZERO
    requires r.w > 0.0 && p.acos(p.cos(r.w / 2.0)) == r.w / 2.0 && p.sin(r.w / 2.0) > 0.0
    ensures FromQuaternion(p, ToQuaternion(p, r)).Ok?
    ensures Angle(FromQuaternion(p, ToQuaternion(p, r)).value) == Angle(r)
    ensures Axis(p, FromQuaternion(p, ToQuaternion(p, r)).value) == Axis(p, r)
  {
    var half, q := r.w / 2.0, ToQuaternion(p, r);
    AxisNormalized(p, r);
    assert p.cos(half) * p.cos(half) + p.sin(half) * p.sin(half) == 1.0;
    Numbers.UnitBound(p.cos(half), p.sin(half));
    assert q.w == p.cos(half);
    var back := FromQuaternion(p, q).value;
    var u, k := Axis(p, r), p.sin(half) / half;
    assert Q.Vector(q) == V3.MultiplyScalar(u, p.sin(half));
    assert V3.MultiplyScalar(StoredAxis(back), half) == V3.MultiplyScalar(u, p.sin(half));
    assert StoredAxis(back) == V3.MultiplyScalar(u, k) by {
      V3.DivideScaled(StoredAxis(back), u, half, p.sin(half));
    }
    V3.NormalizeScaled(p, u, k);
  }

  lemma ParseToString(p: Platform, r: Rotation)
    requires FormatLaws(p)
    ensures Parsed(p, ToString(p, r)) == Ok(r)
  {
    Serial.FieldsRender(p, NAME, KEYS, [r.w, r.x, r.y, r.z]);
    assert seq(4, i requires 0 <= i < 4 => Fin([r.w, r.x, r.y, r.z][i])) == [Fin(r.w), Fin(r.x), Fin(r.y), Fin(r.z)];
  }
}
