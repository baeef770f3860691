/** The `Vector` interface: `divide` and `multiply` by a scalar on any vector, and
    `Vector.parse`, which tries every type's parser in a fixed order. */
module Vector {
  import opened Wrappers
  import opened Runtime
  import opened Geometry
  import opened Text
  import Serial
  import V2 = Vector2
  import V3 = Vector3
  import V4 = Vector4
  import Q = Quaternion
  import R = Rotation

  //
  // Scalar arithmetic through the interface
  //

  /** `multiply(s)` on any vector. Rotation does not override Vector4's, so a
      rotation comes back as a plain Vector4; Quaternion does override it. */
  function MultiplyScalar(x: AnyVector, s: real): AnyVector {
    match x
    case Vec2(v) => Vec2(V2.MultiplyScalar(v, s))
    case Vec3(v) => Vec3(V3.MultiplyScalar(v, s))
    case Vec4(v) => Vec4(V4.MultiplyScalar(v, s))
    case Quat(q) => Quat(Q.MultiplyScalar(q, s))
    case Rot(r) => Vec4(V4.MultiplyScalar(R.AsVector4(r), s))
  }

  /** The type a scalar operation returns for `x`: itself, except that a Rotation
      becomes the Vector4 with the same components. */
  function Widened(x: AnyVector): AnyVector {
    if x.Rot? then Vec4(R.AsVector4(x.r)) else x
  }

  /** `divide(s)`: an ArithmeticException exactly when the denominator is zero;
      otherwise the vector that `s` multiplies back to `x` (widened). */
  function Divide(x: AnyVector, s: real): (r: Result<AnyVector>)
    ensures r.Err? <==> s == 0.0
    ensures r.Err? ==> r.error == Arithmetic
    ensures r.Ok? ==> MultiplyScalar(r.value, s) == Widened(x)
  {
    match x
    case Vec2(v) => var d :- V2.Divide(v, s); Ok(Vec2(d))
    case Vec3(v) => var d :- V3.Divide(v, s); Ok(Vec3(d))
    case Vec4(v) => var d :- V4.Divide(v, s); Ok(Vec4(d))
    case Quat(q) => var d :- Q.Divide(q, s); Ok(Quat(d))
    case Rot(r) => var d :- V4.Divide(R.AsVector4(r), s); Ok(Vec4(d))
  }

  //
  // parse
  //

  /** The prefixes the five parsers check, in the order `parse` tries them. */
  const PREFIXES := [V2.NAME + "{", V3.NAME + "{", V4.NAME + "{", Q.NAME + "{", R.NAME + "{"]

  function Lift2(r: Result<Vector2>): Result<AnyVector> {
    match r case Ok(v) => Ok(Vec2(v)) case Err(e) => Err(e)
  }

  function Lift3(r: Result<Vector3>): Result<AnyVector> {
    match r case Ok(v) => Ok(Vec3(v)) case Err(e) => Err(e)
  }

  function Lift4(r: Result<Vector4>): Result<AnyVector> {
    match r case Ok(v) => Ok(Vec4(v)) case Err(e) => Err(e)
  }

  function LiftRotation(r: Result<Rotation>): Result<AnyVector> {
    match r case Ok(v) => Ok(Rot(v)) case Err(e) => Err(e)
  }

  /** What each parser returns or throws, in the order `parse` tries them. A
      `Quaternion{...}` text is parsed into a plain Vector4. */
  function Attempts(p: Platform, s: string): (r: seq<Result<AnyVector>>)
    ensures |r| == |PREFIXES|
    ensures forall k :: 0 <= k < |r| && !StartsWith(s, PREFIXES[k]) ==> r[k] == Err(NumberFormat)
  {
    [Lift2(V2.Parsed(p, s)), Lift3(V3.Parsed(p, s)), Lift4(V4.Parsed(p, s)), Lift4(Q.Parsed(p, s)),
     LiftRotation(R.Parsed(p, s))]
  }

  /** The nested try/catch: the first attempt that does not throw a
      NumberFormatException, whether it returns or throws something else; a
      NumberFormatException when every attempt throws one. */
  function FirstAccepted(rs: seq<Result<AnyVector>>): (r: Result<AnyVector>)
    ensures r == Err(NumberFormat) <==> forall k :: 0 <= k < |rs| ==> rs[k] == Err(NumberFormat)
    ensures r != Err(NumberFormat) ==>
      exists k :: 0 <= k < |rs| && rs[k] == r && forall j :: 0 <= j < k ==> rs[j] == Err(NumberFormat)
  {
    if rs == [] then Err(NumberFormat)
    else if rs[0] == Err(NumberFormat) then
      var r := FirstAccepted(rs[1..]);
      AcceptedAfterRejected(rs, r);
      r
    else
      rs[0]
  }

  /** An outcome that is first accepted in `rs[1..]` is first accepted in `rs` when
      `rs[0]` is a NumberFormatException. */
  lemma AcceptedAfterRejected(rs: seq<Result<AnyVector>>, r: Result<AnyVector>)
    requires |rs| > 0 && rs[0] == Err(NumberFormat)
    requires r != Err(NumberFormat) ==>
      exists k :: 0 <= k < |rs[1..]| && rs[1..][k] == r && forall j :: 0 <= j < k ==> rs[1..][j] == Err(NumberFormat)
    ensures r != Err(NumberFormat) ==>
      exists k :: 0 <= k < |rs| && rs[k] == r && forall j :: 0 <= j < k ==> rs[j] == Err(NumberFormat)
  {
    if r == Err(NumberFormat) {
      return;
    }
    var k :| 0 <= k < |rs[1..]| && rs[1..][k] == r && forall j :: 0 <= j < k ==> rs[1..][j] == Err(NumberFormat);
    assert rs[k + 1] == r;
    forall j | 0 <= j < k + 1
      ensures rs[j] == Err(NumberFormat)
    {
      if j > 0 {
        assert rs[j] == rs[1..][j - 1];
      }
    }
  }

  /** `Vector.parse`: text with one type's prefix gets exactly that parser's
      outcome, and text with none of them is not a vector. */
  function Parsed(p: Platform, s: string): (r: Result<AnyVector>)
    ensures forall k :: 0 <= k < |PREFIXES| && StartsWith(s, PREFIXES[k]) ==> r == Attempts(p, s)[k]
    ensures (forall k :: 0 <= k < |PREFIXES| ==> !StartsWith(s, PREFIXES[k])) ==> r == Err(NumberFormat)
  {
    PrefixesExclusive(s);
    FirstAccepted(Attempts(p, s))
  }

  /** The textual form of any vector, each type's own `toString()`. */
  function ToString(p: Platform, x: AnyVector): string {
    match x
    case Vec2(v) => V2.ToString(p, v)
    case Vec3(v) => V3.ToString(p, v)
    case Vec4(v) => V4.ToString(p, v)
    case Quat(q) => Q.ToString(p, q)
    case Rot(r) => R.ToString(p, r)
  }

  //
  // Properties
  //

  /** Two prefixes that differ at a position both have cannot both start `s`. */
  lemma DifferentPrefixes(s: string, a: string, b: string, i: nat)
    requires i < |a| && i < |b| && a[i] != b[i]
    ensures !(StartsWith(s, a) && StartsWith(s, b))
  {
  }

  /** At most one parser gets past its prefix check. */
  lemma PrefixesExclusive(s: string)
    ensures forall j, k :: 0 <= j < k < |PREFIXES| ==> !(StartsWith(s, PREFIXES[j]) && StartsWith(s, PREFIXES[k]))
  {
    DifferentPrefixes(s, PREFIXES[0], PREFIXES[1], 6);
    DifferentPrefixes(s, PREFIXES[0], PREFIXES[2], 6);
    DifferentPrefixes(s, PREFIXES[1], PREFIXES[2], 6);
    DifferentPrefixes(s, PREFIXES[0], PREFIXES[3], 0);
    DifferentPrefixes(s, PREFIXES[1], PREFIXES[3], 0);
    DifferentPrefixes(s, PREFIXES[2], PREFIXES[3], 0);
    DifferentPrefixes(s, PREFIXES[0], PREFIXES[4], 0);
    DifferentPrefixes(s, PREFIXES[1], PREFIXES[4], 0);
    DifferentPrefixes(s, PREFIXES[2], PREFIXES[4], 0);
    DifferentPrefixes(s, PREFIXES[3], PREFIXES[4], 0);
  }

  /** `multiply(1)` gives `x` back (widened), and multiplying twice is multiplying
      once by the product. */
  lemma MultiplyScalarCompose(x: AnyVector, a: real, b: real)
    ensures MultiplyScalar(x, 1.0) == Widened(x)
    ensures MultiplyScalar(MultiplyScalar(x, a), b) == MultiplyScalar(x, a * b)
  {
    match x
    case Vec2(v) => V2.MultiplyScalarCompose(v, a, b);
    case Vec3(v) => V3.MultiplyScalarCompose(v, a, b);
    case Vec4(v) => V4.MultiplyScalarCompose(v, a, b);
    case Quat(q) => Q.MultiplyScalarCompose(q, a, b);
    case Rot(r) => V4.MultiplyScalarCompose(R.AsVector4(r), a, b);
  }

  /** Text with one type's prefix gets exactly that type's parser's outcome,
      whatever it is: the other parsers all reject the prefix, so falling through
      from a NumberFormatException ends in one as well. */
  lemma Dispatch(p: Platform, s: string, k: nat)
    requires k < |PREFIXES| && StartsWith(s, PREFIXES[k])
    ensures Parsed(p, s) == Attempts(p, s)[k]
  {
    var rs := Attempts(p, s);
    PrefixesExclusive(s);
    assert forall j :: 0 <= j < |rs| && j != k ==> rs[j] == Err(NumberFormat);
  }

  /** Text that starts with none of the prefixes is not a vector. */
  lemma NoPrefix(p: Platform, s: string)
    requires forall k :: 0 <= k < |PREFIXES| ==> !StartsWith(s, PREFIXES[k])
    ensures Parsed(p, s) == Err(NumberFormat)
  {
  }

  /** Every type's text parses back through `parse` to the same vector, except that
      a quaternion comes back as the plain Vector4 with its components. */
  lemma ParseToString(p: Platform, x: AnyVector)
    requires FormatLaws(p)
    ensures Parsed(p, ToString(p, x)) == Ok(if x.Quat? then Vec4(Q.AsVector4(x.q)) else x)
  {
    var s := ToString(p, x);
    match x
    case Vec2(v) =>
      V2.ParseToString(p, v);
      Serial.RenderPrefix(p, V2.NAME, V2.KEYS, [v.x, v.y]);
      Dispatch(p, s, 0);
    case Vec3(v) =>
      V3.ParseToString(p, v);
      Serial.RenderPrefix(p, V3.NAME, V3.KEYS, [v.x, v.y, v.z]);
      Dispatch(p, s, 1);
    case Vec4(v) =>
      V4.ParseToString(p, v);
      Serial.RenderPrefix(p, V4.NAME, V4.KEYS, [v.w, v.x, v.y, v.z]);
      Dispatch(p, s, 2);
    case Quat(q) =>
      Q.ParseToString(p, q);
      Serial.RenderPrefix(p, Q.NAME, Q.KEYS, [q.w, q.x, q.y, q.z]);
      Dispatch(p, s, 3);
    case Rot(r) =>
      R.ParseToString(p, r);
      Serial.RenderPrefix(p, R.NAME, R.KEYS, [r.w, r.x, r.y, r.z]);
      Dispatch(p, s, 4);
  }

  /** `Vector2{x=..}` without y: the Vector2 constructor rejects the NaN left for y
      with an IllegalArgumentException, which the `catch (NumberFormatException)`
      clauses do not catch, so it escapes `parse`. */
  lemma MissingFieldEscapes(p: Platform, t: real)
    requires FormatLaws(p)
    ensures Parsed(p, Serial.Render(p, V2.NAME, ["x"], [t])) == Err(IllegalArgument)
  {
    var s := Serial.Render(p, V2.NAME, ["x"], [t]);
    Serial.SegmentizeRender(p, V2.NAME, ["x"], [t]);
    var seg := "x" + "=" + p.formatDouble(t);
    assert Serial.Segments(p, ["x"], [t]) == [seg];
    Formatted(p, t);
    Serial.SplitSegment("x", p.formatDouble(t));
    assert Serial.Assignment(p, V2.KEYS, seg) == Ok(Some((0, Fin(t))));
    assert Serial.Fill(p, V2.KEYS, [seg], Serial.Unset(2)) == Ok([Fin(t), NaN]) by {
      assert [seg][1..] == [];
      assert Serial.Unset(2)[0 := Fin(t)] == [Fin(t), NaN];
    }
    assert Serial.Fields(p, V2.NAME, V2.KEYS, s) == Ok([Fin(t), NaN]);
    assert !Serial.AllFinite([Fin(t), NaN]) by {
      assert [Fin(t), NaN][1] == NaN;
    }
    Dispatch(p, s, 0);
  }

  /** A `Quaternion{...}` text never parses into a Quaternion. */
  lemma QuaternionTextIsVector4(p: Platform, s: string)
    requires StartsWith(s, Q.NAME + "{") && Parsed(p, s).Ok?
    ensures Parsed(p, s).value.Vec4?
  {
    Dispatch(p, s, 3);
  }
}
