/** `Vector3.rotate`: a vector rotated by a rotation quaternion or a Rotation,
    through its embedding as a pure quaternion (0, x, y, z). */
module VectorRotation {
  import opened Runtime
  import opened Geometry
  import Numbers
  import V3 = Vector3
  import Q = Quaternion
  import R = Rotation

  /** `rotate(rq)`: `rq.multiply(quaternion()).multiply(rq.conjugate()).vector()`.
      Since `multiply` puts its argument on the left, this is the sandwich
      conj(rq) v rq in the usual Hamilton notation. A unit quaternion keeps the
      squared length. */
  function Rotate(v: Vector3, rq: Quaternion): (r: Vector3)
    ensures r == Q.Vector(Q.Hamilton(Q.Hamilton(Q.Conjugate(rq), V3.ToQuaternion(v)), rq))
    ensures Q.Magnitude2(rq) == 1.0 ==> V3.Magnitude2(r) == V3.Magnitude2(v)
  {
    SandwichMagnitude2(v, rq);
    Q.HamiltonAssociative(Q.Conjugate(rq), V3.ToQuaternion(v), rq);
    Q.Vector(Q.Multiply(Q.Multiply(rq, V3.ToQuaternion(v)), Q.Conjugate(rq)))
  }

  /** `rotate(Rotation)`: rotate by the rotation's quaternion. */
  function RotateBy(p: Platform, v: Vector3, r: Rotation): (res: Vector3)
    ensures Q.Magnitude2(R.ToQuaternion(p, r)) == 1.0 ==> V3.Magnitude2(res) == V3.Magnitude2(v)
  {
    Rotate(v, R.ToQuaternion(p, r))
  }

  /** The rotation the right-hand rule describes, rq v conj(rq) in Hamilton
      notation, written with the library's own `multiply`. */
  function RotateRightHanded(v: Vector3, rq: Quaternion): Vector3 {
    Q.Vector(Q.Multiply(Q.Multiply(Q.Conjugate(rq), V3.ToQuaternion(v)), rq))
  }

  //
  // Properties
  //

  /** The corrected rotation is the sandwich rq v conj(rq) in Hamilton notation. */
  lemma RotateRightHandedSandwich(v: Vector3, rq: Quaternion)
    ensures RotateRightHanded(v, rq) == Q.Vector(Q.Hamilton(Q.Hamilton(rq, V3.ToQuaternion(v)), Q.Conjugate(rq)))
  {
    var c, vq := Q.Conjugate(rq), V3.ToQuaternion(v);
    assert Q.Multiply(Q.Multiply(c, vq), rq) == Q.Hamilton(rq, Q.Hamilton(vq, c));
    Q.HamiltonAssociative(rq, vq, c);
  }

  /** Rotating by IDENTITY, (1, 0, 0, 0), changes nothing. */
  lemma RotateIdentity(v: Vector3, rq: Quaternion)
    requires rq.w == 1.0 && rq.x == 0.0 && rq.y == 0.0 && rq.z == 0.0
    ensures Rotate(v, rq) == v
  {
    assert rq == Q.IDENTITY && Q.Conjugate(rq) == rq;
    Q.MultiplyIdentity(V3.ToQuaternion(v));
  }

  /** The sandwich of a pure quaternion is pure, whatever the outer factor. */
  lemma SandwichPure(v: Vector3, q: Quaternion)
    ensures Q.Hamilton(Q.Hamilton(Q.Conjugate(q), V3.ToQuaternion(v)), q).w == 0.0
  {
  }

  /** A sandwich by a unit quaternion preserves the squared length. */
  lemma SandwichMagnitude2(v: Vector3, rq: Quaternion)
    ensures Q.Magnitude2(rq) == 1.0 ==>
      V3.Magnitude2(Q.Vector(Q.Hamilton(Q.Hamilton(Q.Conjugate(rq), V3.ToQuaternion(v)), rq))) == V3.Magnitude2(v)
  {
    if Q.Magnitude2(rq) == 1.0 {
      var c, vq := Q.Conjugate(rq), V3.ToQuaternion(v);
      var inner := Q.Hamilton(c, vq);
      var s := Q.Hamilton(inner, rq);
      SandwichPure(v, rq);
      Q.FourSquares(inner, rq);
      Q.FourSquares(c, vq);
      assert Q.Magnitude2(c) == 1.0;
      Numbers.ProductCongruence(Q.Magnitude2(inner), Q.Magnitude2(vq), Q.Magnitude2(rq), 1.0);
      assert Q.Magnitude2(s) == Q.Magnitude2(vq);
      assert V3.Magnitude2(Q.Vector(s)) == Q.Magnitude2(s);
    }
  }

  /** With exact trigonometry and `isqrt`, rotating by a Rotation with a non-zero
      axis preserves the squared length. */
  lemma RotateByPreservesMagnitude2(p: Platform, v: Vector3, r: Rotation)
    requires TrigLaws(p) && Numbers.ExactISqrt(p) && R.StoredAxis(r) != V3.ZERO
    ensures V3.Magnitude2(RotateBy(p, v, r)) == V3.Magnitude2(v)
  {
    R.ToQuaternionUnit(p, r);
  }

  /** Rotating by NO_ROTATION changes nothing. */
  lemma RotateByNoRotation(p: Platform, v: Vector3)
    requires TrigLaws(p)
    ensures RotateBy(p, v, R.NO_ROTATION) == v
  {
    R.NoRotationQuaternion(p);
    RotateIdentity(v, Q.IDENTITY);
  }

  /** The corrected rotation is the one as written, by the conjugate. */
  lemma RotateRightHandedIsConjugate(v: Vector3, rq: Quaternion)
    ensures RotateRightHanded(v, rq) == Rotate(v, Q.Conjugate(rq))
  {
    Q.ConjugateInvolution(rq);
  }

  /** As written, a quarter turn about +Z takes +X to -Y: clockwise seen from +Z,
      against the right-hand rule the constructor of Rotation documents. The
      quarter turn is an angle `a` with cos(a/2) = sin(a/2) = c and 2c^2 = 1; the
      axis `u` is +Z. */
  lemma QuarterTurnAsWritten(p: Platform, a: real, u: Vector3)
    requires u.x == 0.0 && u.y == 0.0 && u.z == 1.0
    requires Numbers.ExactAt(p, 1.0) && p.cos(a / 2.0) == p.sin(a / 2.0)
    requires 2.0 * p.cos(a / 2.0) * p.cos(a / 2.0) == 1.0
    ensures RotateBy(p, V3.POSITIVE_X, Rotation(a, u.x, u.y, u.z)) == Vector3(0.0, -1.0, 0.0)
  {
    R.UnitAxisQuaternion(p, Rotation(a, u.x, u.y, u.z));
    var c, q := p.cos(a / 2.0), R.ToQuaternion(p, Rotation(a, u.x, u.y, u.z));
    assert q == Quaternion(c, 0.0, 0.0, c);
    var inner := Q.Hamilton(Q.Conjugate(q), V3.ToQuaternion(V3.POSITIVE_X));
    assert inner == Quaternion(0.0, c, -c, 0.0);
    assert Q.Hamilton(inner, q) == Quaternion(0.0, 0.0, -1.0, 0.0);
  }

  /** The corrected rotation takes +X to +Y, counter-clockwise seen from +Z. */
  lemma QuarterTurnRightHanded(p: Platform, a: real, u: Vector3)
    requires u.x == 0.0 && u.y == 0.0 && u.z == 1.0
    requires Numbers.ExactAt(p, 1.0) && p.cos(a / 2.0) == p.sin(a / 2.0)
    requires 2.0 * p.cos(a / 2.0) * p.cos(a / 2.0) == 1.0
    ensures RotateRightHanded(V3.POSITIVE_X, R.ToQuaternion(p, Rotation(a, u.x, u.y, u.z))) == Vector3(0.0, 1.0, 0.0)
  {
    R.UnitAxisQuaternion(p, Rotation(a, u.x, u.y, u.z));
  }
}
