/** The immutable value types of the library. Quaternion and Rotation are four
    components like Vector4, read as (scalar, vector part) and (angle, axis). */
module Geometry {

  datatype Vector2 = Vector2(x: real, y: real)

  datatype Vector3 = Vector3(x: real, y: real, z: real)

  datatype Vector4 = Vector4(w: real, x: real, y: real, z: real)

  /** Scalar part w, vector part (x, y, z). */
  datatype Quaternion = Quaternion(w: real, x: real, y: real, z: real)

  /** The angle in radians is stored in w and the axis, not necessarily of unit
      length, in (x, y, z). */
  datatype Rotation = Rotation(w: real, x: real, y: real, z: real)

  /** A value of any type that implements `Vector`. */
  datatype AnyVector =
    | Vec2(v2: Vector2)
    | Vec3(v3: Vector3)
    | Vec4(v4: Vector4)
    | Quat(q: Quaternion)
    | Rot(r: Rotation)

  /** The argument of `equals(Object)`: null, an object outside the vector family,
      or a vector. */
  datatype Obj = Null | Foreign | Instance(v: AnyVector)
}
