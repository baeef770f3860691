# civitas.celestis math core in Dafny

This project models the mathematical core of the `civitas.celestis` Java library:

- the finiteness validator and the inverse square root in `Numbers`;
- the immutable vectors `Vector2`, `Vector3` and `Vector4`, with their arithmetic, dot and
  cross products, the complex product of `Vector2`, `equals`, `normalize` and `distance2`;
- `Quaternion`: the Hamilton product, conjugate, inverse, `scale`, `rotation()` and `vector()`;
- `Rotation`, the axis/angle form stored in a `Vector4`: constructors, `angle`, `axis`,
  `scale`, `quaternion()` and `rotate`;
- `Vector3.rotate` by a rotation or a quaternion;
- the hand-written `TypeName{k=v, ...}` parsers and `toString` of every type, and the
  fixed-order fallback of `Vector.parse`;
- the order-insensitive `Pair`;
- the unit tables `LengthUnit`, `MassUnit` and `SpeedUnit` with `convert` and their
  to-base conversions.

Modelling choices:

- A `double` component is a `real`. At the validation and parsing boundary a value is a
  `Runtime.Num`: finite, NaN, or plus or minus infinity. Algebraic laws are stated over the
  reals.
- JDK functions the library calls are fields of a `Runtime.Platform` value that is passed
  as a parameter:
  - `Math.cos`, `Math.sin` and `Math.acos`;
  - `Double.doubleToLongBits` and `Double.longBitsToDouble`;
  - `Double.toString` and `Double.parseDouble`.
- A lemma that needs facts about those functions takes a law predicate as a precondition:
  - `TrigLaws`: cos 0 = 1, sin 0 = 0, acos 1 = 0, cos² + sin² = 1, and cos(acos w) = w on [-1, 1];
  - `FormatLaws`: formatting and parsing are inverse on finite values, and the text avoids `,`, `=`, `{` and `}`;
  - `BitsLaws`: 0.0 has bit pattern 0, and positive normal bit patterns decode as IEEE-754 says.
- `isqrt` is the exact Java computation: the 64-bit seed `0x5fe6ec85e7de30da - (l >> 1)`
  followed by four Newton steps. `Numbers.ExactAt(p, x)` names the idealised case where the
  result is exactly 1/√x.
- Exceptions are the `Err` side of `Wrappers.Result`, tagged with the exception class:
  `IllegalArgument`, `NumberFormat` or `Arithmetic`.
- The object passed to an `equals` is a `Geometry.Obj`: null, an object of another class,
  or one of the five vector types.
- `Vector3.rotate` and `Quaternion.rotation()` need both the quaternion and the rotation
  types. They live in the modules `VectorRotation` and `Rotation`, so the module graph
  has no cycle.
- The Java `split`/`replaceAll` pipeline of the parsers is modelled literally in `Text`:
  `replaceAll` removes every occurrence of a literal, and `split` is a literal split that
  drops trailing empty strings.
- The usual sandwich product for rotating a vector is q·v·q⁻¹. The code computes
  `rq.multiply(v).multiply(rq.conjugate())`, and `p.multiply(q)` is the Hamilton product q⊗p,
  so the result is conj(rq)⊗v⊗rq. The model follows the code. The right-handed
  direction the code comment at `Rotation.java:30` promises appears under Findings.

## Model

| member | source | states |
|---|---|---|
| `Numbers.RequireFinite` | src/main/java/civitas/celestis/math/Numbers.java:14-18 | the value comes back unchanged exactly when it is finite; NaN and both infinities raise IllegalArgumentException |
| `Numbers.RequireFiniteIdempotent` | src/main/java/civitas/celestis/math/Numbers.java:14-18 | validating an already validated value gives the same outcome |
| `Numbers.Wrap64` | src/main/java/civitas/celestis/math/Numbers.java:33 | `long` subtraction wraps: the result is in the signed 64-bit range and congruent to the exact difference modulo 2^64 |
| `Numbers.NormalValue` | src/main/java/civitas/celestis/math/Numbers.java:35 | a positive normal IEEE-754 bit pattern decodes to a positive value |
| `Numbers.ISqrt` | src/main/java/civitas/celestis/math/Numbers.java:26-43 | the loop applies exactly four Newton steps r ← r·(1.5 − xhalf·r²) to the bit-trick seed, with xhalf = 0.5·x fixed before the loop |
| `Numbers.NewtonFixedPoint` | src/main/java/civitas/celestis/math/Numbers.java:37-40 | when the seed is exactly 1/√x, every Newton step leaves it unchanged |
| `Numbers.ISqrtOfExactSeed` | src/main/java/civitas/celestis/math/Numbers.java:26-43 | isqrt returns an exact seed unchanged |
| `Numbers.NewtonWithoutCorrection` | src/main/java/civitas/celestis/math/Numbers.java:37-40 | with xhalf = 0 each step multiplies by 1.5, so n steps multiply by 1.5^n |
| `Numbers.Pow15` | src/main/java/civitas/celestis/math/Numbers.java:39 | 1.5^n is at least 1 |
| `Numbers.ISqrtOfZero` | src/main/java/civitas/celestis/math/Numbers.java:26-43 | isqrt(0) is 1.5⁴ times the decoded magic bit pattern, and so is positive, not 0 |
| `Numbers.MagnitudeAsWrittenOfZero` | src/main/java/civitas/celestis/math/vector/Vector2.java:78-83 | as written, `magnitude()` of the zero vector is positive: the `isqrt == 0` guard never fires |
| `Numbers.MagnitudeAsWritten` | src/main/java/civitas/celestis/math/vector/Vector2.java:78-83 | as written, `magnitude()` agrees with the corrected magnitude for every non-zero squared magnitude, so the two differ only for the zero vector |
| `Numbers.Magnitude` | src/main/java/civitas/celestis/math/vector/Vector3.java:93-98 | the corrected magnitude is 0 for a zero squared magnitude |
| `Numbers.MagnitudeSquared` | src/main/java/civitas/celestis/math/vector/Vector4.java:104-109 | the corrected magnitude is non-negative and its square is the squared magnitude |
| `Numbers.MagnitudeByISqrt` | src/main/java/civitas/celestis/math/vector/Vector4.java:104-109 | for a positive squared magnitude m², m²·isqrt(m²) is the magnitude |
| `Numbers.ISqrtScaled` | src/main/java/civitas/celestis/math/Numbers.java:26-43 | with exact roots, isqrt(k²m²) is isqrt(m²)/k for k > 0 |
| `Serial.Segments` | src/main/java/civitas/celestis/math/vector/Vector2.java:273-278 | `toString` writes one `key=value` segment per field |
| `Serial.RenderPrefix` | src/main/java/civitas/celestis/math/vector/Vector2.java:273-278 | the text `toString` writes starts with `TypeName{` |
| `Serial.IndexOf` | src/main/java/civitas/celestis/math/vector/Vector2.java:257-260 | the `switch` finds the field named by the key, or reports that no field has that name |
| `Serial.Assignment` | src/main/java/civitas/celestis/math/vector/Vector2.java:253-261 | a segment that does not split on `=` into exactly two parts raises NumberFormatException; an unknown key changes nothing; a known key assigns the field of that name the value `Double.parseDouble` reads, and an unparsable value raises NumberFormatException |
| `Serial.Fill` | src/main/java/civitas/celestis/math/vector/Vector2.java:253-261 | the loop over segments either raises NumberFormatException or leaves one value per field |
| `Serial.FillRejectsMalformed` | src/main/java/civitas/celestis/math/vector/Vector2.java:254-255 | one malformed segment anywhere makes the whole parse throw |
| `Serial.Unset` | src/main/java/civitas/celestis/math/vector/Vector2.java:251 | the values array starts as NaN in every field |
| `Serial.Fields` | src/main/java/civitas/celestis/math/vector/Vector2.java:243-261 | text without the `TypeName{` prefix raises NumberFormatException; otherwise the result has one value per field |
| `Serial.ParseFields` | src/main/java/civitas/celestis/math/vector/Vector3.java:284-306 | the imperative loop over a NaN-initialised array computes exactly `Fields` |
| `Serial.FillLastWins` | src/main/java/civitas/celestis/math/vector/Vector2.java:253-261 | each field holds the value of the last segment that names it |
| `Serial.LastAssignedUnnamed` | src/main/java/civitas/celestis/math/vector/Vector2.java:251-261 | a field that no segment names keeps its initial NaN |
| `Serial.IndexOfDistinct` | src/main/java/civitas/celestis/math/vector/Vector4.java:236-259 | with distinct keys, each key dispatches to its own field |
| `Serial.SplitSegment` | src/main/java/civitas/celestis/math/vector/Vector2.java:254 | a rendered `key=value` splits back into the key and the value |
| `Serial.SegmentizeRender` | src/main/java/civitas/celestis/math/vector/Vector2.java:246-249 | removing the prefix and `}` and splitting on `, ` recovers the rendered segments |
| `Serial.FieldsRender` | src/main/java/civitas/celestis/math/vector/Vector2.java:243-278 | parsing rendered text recovers every field value |
| `Vector2.Of` | src/main/java/civitas/celestis/math/vector/Vector2.java:37-40 | the constructor accepts exactly finite components and stores them; otherwise it raises IllegalArgumentException |
| `Vector2.Magnitude2` | src/main/java/civitas/celestis/math/vector/Vector2.java:86-88 | the squared magnitude is never negative |
| `Vector2.Magnitude2Zero` | src/main/java/civitas/celestis/math/vector/Vector2.java:86-88 | the squared magnitude is 0 exactly for the zero vector |
| `Vector2.Magnitude` | src/main/java/civitas/celestis/math/vector/Vector2.java:78-83 | `magnitude()` with the `isqrt == 0` guard replaced by a zero check on `magnitude2()`: 0 for the zero vector, and equal to `magnitude()` as written for every other vector |
| `Vector2.SubtractZero` | src/main/java/civitas/celestis/math/vector/Vector2.java:141-143 | u − v is ZERO exactly when u = v |
| `Vector2.SubtractScalarUndone` | src/main/java/civitas/celestis/math/vector/Vector2.java:102-104 | `subtract(s)` takes every component down by s: adding s back gives the vector again |
| `Vector2.MultiplyScalarCompose` | src/main/java/civitas/celestis/math/vector/Vector2.java:108-110 | `multiply(s)` scales every component: `multiply(1)` changes nothing, and `multiply(a)` then `multiply(b)` is `multiply(a·b)` |
| `Vector2.SubtractUndone` | src/main/java/civitas/celestis/math/vector/Vector2.java:141-143 | `subtract(v)` is the inverse of `add(v)`: adding v back to u − v gives u |
| `Vector2.AddScalar` | src/main/java/civitas/celestis/math/vector/Vector2.java:96-104 | subtracting the scalar undoes adding it |
| `Vector2.Divide` | src/main/java/civitas/celestis/math/vector/Vector2.java:114-117 | division raises ArithmeticException exactly for a zero divisor; otherwise multiplying by the divisor gives back the vector |
| `Vector2.Add` | src/main/java/civitas/celestis/math/vector/Vector2.java:130-143 | subtracting v undoes adding v |
| `Vector2.Multiply` | src/main/java/civitas/celestis/math/vector/Vector2.java:162-164 | the complex product multiplies squared magnitudes |
| `Vector2.Equals` | src/main/java/civitas/celestis/math/vector/Vector2.java:177-181 | a vector equals exactly a Vector2 with the same components; never null or another class |
| `Vector2.Dot` | src/main/java/civitas/celestis/math/vector/Vector2.java:151-153 | v·v is the squared magnitude |
| `Vector2.Rotate` | src/main/java/civitas/celestis/math/vector/Vector2.java:227-229 | rotation by (cos a, sin a) preserves the squared magnitude when cos² + sin² = 1 |
| `Vector2.Parsed` | src/main/java/civitas/celestis/math/vector/Vector2.java:243-264 | text without `Vector2{` raises NumberFormatException; a NumberFormatException from the segment loop passes through; when every parsed field is finite the parse succeeds with exactly those fields; IllegalArgumentException exactly when a parsed field is not finite |
| `Vector2.ParseVector` | src/main/java/civitas/celestis/math/vector/Vector2.java:243-264 | the parser's loop computes exactly `Parsed` |
| `Vector2.DotSymmetric` | src/main/java/civitas/celestis/math/vector/Vector2.java:151-153 | the dot product is symmetric |
| `Vector2.DotSelf` | src/main/java/civitas/celestis/math/vector/Vector2.java:86-88 | v·v is the squared magnitude |
| `Vector2.MultiplyCommutative` | src/main/java/civitas/celestis/math/vector/Vector2.java:162-164 | the complex product is commutative |
| `Vector2.MultiplyIdentity` | src/main/java/civitas/celestis/math/vector/Vector2.java:22 | `POSITIVE_X` is a two-sided identity of the complex product |
| `Vector2.NegateInvolution` | src/main/java/civitas/celestis/math/vector/Vector2.java:190-192 | negating twice gives back the vector |
| `Vector2.Magnitude2Negate` | src/main/java/civitas/celestis/math/vector/Vector2.java:190-192 | negation keeps the squared magnitude |
| `Vector2.Negate` | src/main/java/civitas/celestis/math/vector/Vector2.java:190-192 | the negation is the additive inverse: −v + v = ZERO |
| `Vector2.Normalize` | src/main/java/civitas/celestis/math/vector/Vector2.java:196-198 | ZERO normalises to ZERO instead of failing |
| `Vector2.NormalizeZero` | src/main/java/civitas/celestis/math/vector/Vector2.java:196-198 | the zero vector normalises to itself, whatever isqrt returns |
| `Vector2.NormalizeUnit` | src/main/java/civitas/celestis/math/vector/Vector2.java:196-198 | with an exact root, a non-zero vector normalises to squared magnitude 1 |
| `Vector2.Distance` | src/main/java/civitas/celestis/math/vector/Vector2.java:206-208 | the corrected distance: 0 from a vector to itself; between different vectors, `magnitude()` as written of the squared distance |
| `Vector2.Distance2` | src/main/java/civitas/celestis/math/vector/Vector2.java:216-218 | never negative, and 0 exactly between equal vectors |
| `Vector2.Distance2Symmetric` | src/main/java/civitas/celestis/math/vector/Vector2.java:216-218 | the squared distance is symmetric and 0 from a vector to itself |
| `Vector2.ParseToString` | src/main/java/civitas/celestis/math/vector/Vector2.java:243-278 | parsing `toString` gives back the vector |
| `Vector2.ToString` | src/main/java/civitas/celestis/math/vector/Vector2.java:273-278 | the text starts with `Vector2{` |
| `Vector3.Of` | src/main/java/civitas/celestis/math/vector/Vector3.java:42-46 | the constructor accepts exactly finite components and stores them; otherwise it raises IllegalArgumentException |
| `Vector3.Magnitude2` | src/main/java/civitas/celestis/math/vector/Vector3.java:101-103 | the squared magnitude is never negative |
| `Vector3.Magnitude2Zero` | src/main/java/civitas/celestis/math/vector/Vector3.java:101-103 | the squared magnitude is 0 exactly for the zero vector |
| `Vector3.Magnitude` | src/main/java/civitas/celestis/math/vector/Vector3.java:93-98 | `magnitude()` with the `isqrt == 0` guard replaced by a zero check on `magnitude2()`: 0 for the zero vector, and equal to `magnitude()` as written for every other vector |
| `Vector3.SubtractZero` | src/main/java/civitas/celestis/math/vector/Vector3.java:156-158 | u − v is ZERO exactly when u = v |
| `Vector3.SubtractScalarUndone` | src/main/java/civitas/celestis/math/vector/Vector3.java:117-119 | `subtract(s)` takes every component down by s: adding s back gives the vector again |
| `Vector3.MultiplyScalarCompose` | src/main/java/civitas/celestis/math/vector/Vector3.java:123-125 | `multiply(s)` scales every component: `multiply(1)` changes nothing, and `multiply(a)` then `multiply(b)` is `multiply(a·b)` |
| `Vector3.SubtractUndone` | src/main/java/civitas/celestis/math/vector/Vector3.java:156-158 | `subtract(v)` is the inverse of `add(v)`: adding v back to u − v gives u |
| `Vector3.AddScalar` | src/main/java/civitas/celestis/math/vector/Vector3.java:111-119 | subtracting the scalar undoes adding it |
| `Vector3.Divide` | src/main/java/civitas/celestis/math/vector/Vector3.java:129-132 | division raises ArithmeticException exactly for a zero divisor; otherwise multiplying by the divisor gives back the vector |
| `Vector3.Add` | src/main/java/civitas/celestis/math/vector/Vector3.java:145-158 | subtracting v undoes adding v |
| `Vector3.Cross` | src/main/java/civitas/celestis/math/vector/Vector3.java:177-183 | the cross product is orthogonal to both operands |
| `Vector3.Equals` | src/main/java/civitas/celestis/math/vector/Vector3.java:197-201 | a vector equals exactly a Vector3 with the same components |
| `Vector3.Dot` | src/main/java/civitas/celestis/math/vector/Vector3.java:166-168 | v·v is the squared magnitude |
| `Vector3.ToQuaternion` | src/main/java/civitas/celestis/math/vector/Vector3.java:268-270 | the embedding is the pure quaternion (0, x, y, z) |
| `Vector3.Parsed` | src/main/java/civitas/celestis/math/vector/Vector3.java:284-306 | text without `Vector3{` raises NumberFormatException; a NumberFormatException from the segment loop passes through; when every parsed field is finite the parse succeeds with exactly those fields; IllegalArgumentException exactly when a parsed field is not finite |
| `Vector3.ParseVector` | src/main/java/civitas/celestis/math/vector/Vector3.java:284-306 | the parser's loop computes exactly `Parsed` |
| `Vector3.DotSymmetric` | src/main/java/civitas/celestis/math/vector/Vector3.java:166-168 | the dot product is symmetric |
| `Vector3.DotSelf` | src/main/java/civitas/celestis/math/vector/Vector3.java:101-103 | v·v is the squared magnitude |
| `Vector3.CrossAnticommutative` | src/main/java/civitas/celestis/math/vector/Vector3.java:177-183 | swapping the operands negates the cross product, and v×v is zero |
| `Vector3.NegateInvolution` | src/main/java/civitas/celestis/math/vector/Vector3.java:210-212 | negating twice gives back the vector |
| `Vector3.Magnitude2Negate` | src/main/java/civitas/celestis/math/vector/Vector3.java:210-212 | negation keeps the squared magnitude |
| `Vector3.Negate` | src/main/java/civitas/celestis/math/vector/Vector3.java:210-212 | the negation is the additive inverse: −v + v = ZERO |
| `Vector3.Normalize` | src/main/java/civitas/celestis/math/vector/Vector3.java:216-218 | ZERO normalises to ZERO instead of failing |
| `Vector3.Magnitude2Scale` | src/main/java/civitas/celestis/math/vector/Vector3.java:123-125 | scaling by k multiplies the squared magnitude by k² |
| `Vector3.NormalizeZero` | src/main/java/civitas/celestis/math/vector/Vector3.java:216-218 | the zero vector normalises to itself |
| `Vector3.NormalizeUnit` | src/main/java/civitas/celestis/math/vector/Vector3.java:216-218 | with an exact root, a non-zero vector normalises to squared magnitude 1 |
| `Vector3.NormalizeScaled` | src/main/java/civitas/celestis/math/vector/Vector3.java:216-218 | with exact roots, normalising ignores a positive scale factor |
| `Vector3.Distance` | src/main/java/civitas/celestis/math/vector/Vector3.java:226-228 | the corrected distance: 0 from a vector to itself; between different vectors, `magnitude()` as written of the squared distance |
| `Vector3.Distance2` | src/main/java/civitas/celestis/math/vector/Vector3.java:236-238 | never negative, and 0 exactly between equal vectors |
| `Vector3.Distance2Symmetric` | src/main/java/civitas/celestis/math/vector/Vector3.java:236-238 | the squared distance is symmetric and 0 from a vector to itself |
| `Vector3.ParseToString` | src/main/java/civitas/celestis/math/vector/Vector3.java:284-321 | parsing `toString` gives back the vector |
| `Vector3.ToString` | src/main/java/civitas/celestis/math/vector/Vector3.java:315-321 | the text starts with `Vector3{` |
| `Vector4.Of` | src/main/java/civitas/celestis/math/vector/Vector4.java:43-48 | the constructor accepts exactly finite components and stores them; otherwise it raises IllegalArgumentException |
| `Vector4.Magnitude2` | src/main/java/civitas/celestis/math/vector/Vector4.java:112-114 | the squared magnitude is never negative |
| `Vector4.Magnitude2Zero` | src/main/java/civitas/celestis/math/vector/Vector4.java:112-114 | the squared magnitude is 0 exactly for the zero vector |
| `Vector4.Magnitude` | src/main/java/civitas/celestis/math/vector/Vector4.java:104-109 | `magnitude()` with the `isqrt == 0` guard replaced by a zero check on `magnitude2()`: 0 for the zero vector, and equal to `magnitude()` as written for every other vector |
| `Vector4.AddScalar` | src/main/java/civitas/celestis/math/vector/Vector4.java:122-130 | subtracting the scalar undoes adding it |
| `Vector4.Divide` | src/main/java/civitas/celestis/math/vector/Vector4.java:140-143 | division raises ArithmeticException exactly for a zero divisor; otherwise multiplying by the divisor gives back the vector |
| `Vector4.Add` | src/main/java/civitas/celestis/math/vector/Vector4.java:156-158 | the corrected subtraction undoes adding v |
| `Vector4.AddCommutative` | src/main/java/civitas/celestis/math/vector/Vector4.java:156-158 | addition is commutative |
| `Vector4.SubtractScalarUndone` | src/main/java/civitas/celestis/math/vector/Vector4.java:128-130 | `subtract(s)` takes every component down by s: adding s back gives the vector again |
| `Vector4.MultiplyScalarCompose` | src/main/java/civitas/celestis/math/vector/Vector4.java:134-136 | `multiply(s)` scales every component: `multiply(1)` changes nothing, and `multiply(a)` then `multiply(b)` is `multiply(a·b)` |
| `Vector4.SubtractAsWritten` | src/main/java/civitas/celestis/math/vector/Vector4.java:167-169 | as written, `subtract` agrees with the corrected subtraction exactly when v.y = v.z |
| `Vector4.Subtract` | src/main/java/civitas/celestis/math/vector/Vector4.java:160-169 | the corrected subtraction gives ZERO exactly when u = v |
| `Vector4.SubtractAsWrittenSelf` | src/main/java/civitas/celestis/math/vector/Vector4.java:167-169 | as written, v − v has z component v.z − v.y, so it is zero only when y = z |
| `Vector4.SubtractSelf` | src/main/java/civitas/celestis/math/vector/Vector4.java:160-169 | the corrected subtraction gives v − v = ZERO |
| `Vector4.Equals` | src/main/java/civitas/celestis/math/vector/Vector4.java:182-186 | a Vector4 equals exactly a Vector4, Quaternion or Rotation with the same four components |
| `Vector4.EqualsAcrossFamily` | src/main/java/civitas/celestis/math/vector/Vector4.java:182-186 | a Quaternion and a Rotation with equal components are equal to the Vector4; null and other classes are not |
| `Vector4.NegateInvolution` | src/main/java/civitas/celestis/math/vector/Vector4.java:194-196 | negating twice gives back the vector |
| `Vector4.Magnitude2Negate` | src/main/java/civitas/celestis/math/vector/Vector4.java:194-196 | negation keeps the squared magnitude |
| `Vector4.Negate` | src/main/java/civitas/celestis/math/vector/Vector4.java:194-196 | the negation is the additive inverse: −v + v = ZERO |
| `Vector4.Normalize` | src/main/java/civitas/celestis/math/vector/Vector4.java:200-202 | ZERO normalises to ZERO instead of failing |
| `Vector4.Magnitude2Scale` | src/main/java/civitas/celestis/math/vector/Vector4.java:134-136 | scaling by k multiplies the squared magnitude by k² |
| `Vector4.NormalizeZero` | src/main/java/civitas/celestis/math/vector/Vector4.java:200-202 | ZERO normalises to ZERO whatever isqrt returns |
| `Vector4.NormalizeUnit` | src/main/java/civitas/celestis/math/vector/Vector4.java:200-202 | with an exact root, a non-zero vector normalises to squared magnitude 1 |
| `Vector4.DistanceAsWrittenSelf` | src/main/java/civitas/celestis/math/vector/Vector4.java:210-212 | as written, `v.distance(v)` is positive whenever v.y = v.z, the zero vector included |
| `Vector4.DistanceAsWritten` | src/main/java/civitas/celestis/math/vector/Vector4.java:210-212 | as written, `distance` agrees with the corrected distance between different vectors whenever v.y = v.z |
| `Vector4.Distance` | src/main/java/civitas/celestis/math/vector/Vector4.java:210-212 | the corrected distance is 0 from a vector to itself; between different vectors it is `magnitude()` as written of the corrected squared distance |
| `Vector4.Distance2AsWrittenSelf` | src/main/java/civitas/celestis/math/vector/Vector4.java:220-222 | as written, `v.distance2(v)` is (v.z − v.y)², 0 only when v.y = v.z |
| `Vector4.Distance2AsWritten` | src/main/java/civitas/celestis/math/vector/Vector4.java:220-222 | as written, `distance2` is never negative and equals the corrected squared distance whenever v.y = v.z |
| `Vector4.Distance2AsWrittenAsymmetric` | src/main/java/civitas/celestis/math/vector/Vector4.java:220-222 | as written, `distance2` is not symmetric: 2 from ZERO to (0, 0, 1, 0) but 1 back |
| `Vector4.Distance2` | src/main/java/civitas/celestis/math/vector/Vector4.java:214-222 | the corrected squared distance is never negative and 0 exactly between equal vectors |
| `Vector4.Distance2Symmetric` | src/main/java/civitas/celestis/math/vector/Vector4.java:214-222 | with the corrected subtraction, the squared distance the Javadoc describes is symmetric and 0 from a vector to itself |
| `Vector4.Parsed` | src/main/java/civitas/celestis/math/vector/Vector4.java:236-259 | text without `Vector4{` raises NumberFormatException; a NumberFormatException from the segment loop passes through; when every parsed field is finite the parse succeeds with exactly those fields; IllegalArgumentException exactly when a parsed field is not finite |
| `Vector4.FromFields` | src/main/java/civitas/celestis/math/vector/Vector4.java:258 | the constructor call at the end of a parse passes on the loop's error, accepts exactly all-finite fields, and otherwise raises IllegalArgumentException |
| `Vector4.ParseVector` | src/main/java/civitas/celestis/math/vector/Vector4.java:236-259 | the parser's loop computes exactly `Parsed` |
| `Vector4.ParseToString` | src/main/java/civitas/celestis/math/vector/Vector4.java:236-275 | parsing `toString` gives back the vector |
| `Vector4.ToString` | src/main/java/civitas/celestis/math/vector/Vector4.java:268-275 | the text starts with `Vector4{` |
| `Quaternion.Of` | src/main/java/civitas/celestis/math/quaternion/Quaternion.java:37-39 | the constructor accepts exactly finite components; otherwise it raises IllegalArgumentException |
| `Quaternion.FromParts` | src/main/java/civitas/celestis/math/quaternion/Quaternion.java:47-49 | the scalar part is w and `vector()` is v |
| `Quaternion.FromVector4` | src/main/java/civitas/celestis/math/quaternion/Quaternion.java:56-58 | the copy constructor keeps the four components |
| `Quaternion.AddScalar` | src/main/java/civitas/celestis/math/quaternion/Quaternion.java:80-88 | subtracting the scalar undoes adding it |
| `Quaternion.Divide` | src/main/java/civitas/celestis/math/quaternion/Quaternion.java:98-100 | division raises ArithmeticException exactly for a zero divisor; otherwise multiplying by the divisor gives back the quaternion |
| `Quaternion.Add` | src/main/java/civitas/celestis/math/quaternion/Quaternion.java:108-116 | the corrected subtraction undoes adding a Vector4 |
| `Quaternion.SubtractAsWritten` | src/main/java/civitas/celestis/math/quaternion/Quaternion.java:114-116 | as written, `subtract(v)` inherits Vector4's `z - v.y`: it agrees with the corrected subtraction exactly when v.y = v.z |
| `Quaternion.SubtractAsWrittenSelf` | src/main/java/civitas/celestis/math/quaternion/Quaternion.java:114-116 | as written, q − q is (0, 0, 0, q.z − q.y) |
| `Quaternion.SubtractScalarUndone` | src/main/java/civitas/celestis/math/quaternion/Quaternion.java:86-88 | `subtract(s)` stays a quaternion and takes every component down by s: adding s back gives q again |
| `Quaternion.MultiplyScalarCompose` | src/main/java/civitas/celestis/math/quaternion/Quaternion.java:92-94 | `multiply(s)` stays a quaternion and scales every component: `multiply(1)` changes nothing, and `multiply(a)` then `multiply(b)` is `multiply(a·b)` |
| `Quaternion.Subtract` | src/main/java/civitas/celestis/math/quaternion/Quaternion.java:114-116 | the corrected subtraction gives zero exactly when the operands have equal components |
| `Quaternion.SubtractSelf` | src/main/java/civitas/celestis/math/quaternion/Quaternion.java:114-116 | the corrected q − q is zero |
| `Quaternion.Multiply` | src/main/java/civitas/celestis/math/quaternion/Quaternion.java:122-134 | `p.multiply(q)` is the Hamilton product q⊗p |
| `Quaternion.MultiplyIdentity` | src/main/java/civitas/celestis/math/quaternion/Quaternion.java:23 | IDENTITY is a two-sided identity of `multiply` |
| `Quaternion.MultiplyAssociative` | src/main/java/civitas/celestis/math/quaternion/Quaternion.java:129-134 | `multiply` is associative |
| `Quaternion.HamiltonAssociative` | src/main/java/civitas/celestis/math/quaternion/Quaternion.java:129-134 | the Hamilton product is associative |
| `Quaternion.Conjugate` | src/main/java/civitas/celestis/math/quaternion/Quaternion.java:164-166 | the conjugate keeps w and negates the vector part |
| `Quaternion.ConjugateInvolution` | src/main/java/civitas/celestis/math/quaternion/Quaternion.java:164-166 | conjugating twice gives back the quaternion |
| `Quaternion.MultiplyConjugate` | src/main/java/civitas/celestis/math/quaternion/Quaternion.java:129-134 | q times its conjugate, in either order, is (magnitude2, 0, 0, 0) |
| `Quaternion.Magnitude2Multiply` | src/main/java/civitas/celestis/math/quaternion/Quaternion.java:129-134 | the squared magnitude of a product is the product of the squared magnitudes |
| `Quaternion.UnitScalarBound` | src/main/java/civitas/celestis/math/quaternion/Quaternion.java:184-190 | a unit quaternion's w lies in [-1, 1], the range `rotation()` accepts |
| `Quaternion.FourSquares` | src/main/java/civitas/celestis/math/quaternion/Quaternion.java:129-134 | Euler's four-square identity for the Hamilton product |
| `Quaternion.Magnitude2Inherited` | src/main/java/civitas/celestis/math/vector/Vector4.java:112-114 | a quaternion's squared magnitude is the one it inherits from Vector4 |
| `Quaternion.HamiltonScale` | src/main/java/civitas/celestis/math/quaternion/Quaternion.java:129-134 | scaling either factor scales the product |
| `Quaternion.Inverse` | src/main/java/civitas/celestis/math/quaternion/Quaternion.java:174-176 | the corrected inverse fails with ArithmeticException exactly for the zero quaternion |
| `Quaternion.InverseTwoSided` | src/main/java/civitas/celestis/math/quaternion/Quaternion.java:174-176 | the corrected inverse is a two-sided inverse under `multiply` |
| `Quaternion.ScaledIdentity` | src/main/java/civitas/celestis/math/quaternion/Quaternion.java:23 | a quaternion that a non-zero m scales to (m, 0, 0, 0) is IDENTITY |
| `Quaternion.InverseAsWritten` | src/main/java/civitas/celestis/math/quaternion/Quaternion.java:174-176 | as written, `inverse()` of the zero quaternion is zero; nothing raises an exception |
| `Quaternion.InverseAsWrittenProduct` | src/main/java/civitas/celestis/math/quaternion/Quaternion.java:174-176 | as written, q times `inverse()` is (magnitude(q), 0, 0, 0), not IDENTITY |
| `Quaternion.ConjugateScaled` | src/main/java/civitas/celestis/math/quaternion/Quaternion.java:174-176 | q times k·conj(q) is k·(magnitude2, 0, 0, 0) |
| `Quaternion.InverseAsWrittenUnit` | src/main/java/civitas/celestis/math/quaternion/Quaternion.java:174-176 | for a unit quaternion, `inverse()` as written is the conjugate |
| `Quaternion.VectorOfEmbedding` | src/main/java/civitas/celestis/math/quaternion/Quaternion.java:70-72 | `v.quaternion().vector()` is v |
| `Quaternion.Vector` | src/main/java/civitas/celestis/math/quaternion/Quaternion.java:70-72 | `vector()` is (x, y, z): embedded back it is the pure quaternion (0, x, y, z) |
| `Quaternion.Scale` | src/main/java/civitas/celestis/math/quaternion/Quaternion.java:147-156 | w = 1 gives IDENTITY; w outside [-1, 1] gives IllegalArgumentException; sin(acos w) = 0 gives ArithmeticException; otherwise the scalar part is cos(acos(w)·s) and the vector part is `vector()` rescaled from sin(acos w) to sin(acos(w)·s) |
| `Quaternion.ScaleOne` | src/main/java/civitas/celestis/math/quaternion/Quaternion.java:147-156 | for w in [-1, 1] with sin(acos w) ≠ 0, of any magnitude, `scale(1)` gives q back |
| `Quaternion.Parsed` | src/main/java/civitas/celestis/math/quaternion/Quaternion.java:204-227 | text without `Quaternion{` raises NumberFormatException; a NumberFormatException from the segment loop passes through; when every parsed field is finite the parse succeeds as a Vector4 with exactly those fields; IllegalArgumentException exactly when a parsed field is not finite |
| `Quaternion.ToString` | src/main/java/civitas/celestis/math/quaternion/Quaternion.java:237-244 | the text starts with `Quaternion{` |
| `Quaternion.ParseQuaternion` | src/main/java/civitas/celestis/math/quaternion/Quaternion.java:204-227 | the parser's loop computes exactly `Parsed` |
| `Quaternion.ParseToString` | src/main/java/civitas/celestis/math/quaternion/Quaternion.java:204-244 | parsing `toString` gives back the components as a Vector4 |
| `Rotation.FromAxisAngle` | src/main/java/civitas/celestis/math/rotation/Rotation.java:35-37 | the angle is stored in w and the axis in x, y, z; a non-finite angle raises IllegalArgumentException |
| `Rotation.Of` | src/main/java/civitas/celestis/math/rotation/Rotation.java:47-49 | the components are stored as given exactly when all are finite |
| `Rotation.FromVector4` | src/main/java/civitas/celestis/math/rotation/Rotation.java:56-58 | the copy constructor keeps the four components |
| `Rotation.Scale` | src/main/java/civitas/celestis/math/rotation/Rotation.java:103-105 | scaling multiplies the angle only; the stored axis is unchanged |
| `Rotation.ScaleOne` | src/main/java/civitas/celestis/math/rotation/Rotation.java:103-105 | `scale(1)` gives back the rotation |
| `Rotation.ScaleCompose` | src/main/java/civitas/celestis/math/rotation/Rotation.java:103-105 | `scale(a).scale(b)` is `scale(a·b)` |
| `Rotation.AxisScaleInvariant` | src/main/java/civitas/celestis/math/rotation/Rotation.java:88-90 | with exact roots, scaling the stored axis by a positive factor leaves `axis()` unchanged |
| `Rotation.Axis` | src/main/java/civitas/celestis/math/rotation/Rotation.java:88-90 | a zero stored axis gives a zero `axis()` rather than an exception |
| `Rotation.AxisNormalized` | src/main/java/civitas/celestis/math/rotation/Rotation.java:88-90 | with exact roots, `axis()` of a non-zero stored axis is a unit vector and normalising it again changes nothing |
| `Rotation.UnitAxisQuaternion` | src/main/java/civitas/celestis/math/rotation/Rotation.java:135-137 | for a unit stored axis, `quaternion()` is (cos(angle/2), axis·sin(angle/2)) |
| `Rotation.ToQuaternionUnit` | src/main/java/civitas/celestis/math/rotation/Rotation.java:135-137 | with exact roots and trigonometry, `quaternion()` is a unit quaternion |
| `Rotation.ToQuaternion` | src/main/java/civitas/celestis/math/rotation/Rotation.java:135-137 | the scalar part is cos(angle/2); a zero stored axis gives a zero vector part |
| `Rotation.FromQuaternion` | src/main/java/civitas/celestis/math/quaternion/Quaternion.java:184-190 | `rotation()` raises IllegalArgumentException exactly for w outside [-1, 1]; gives NO_ROTATION when acos(w) = 0; otherwise the angle is 2·acos(w) and the stored axis times acos(w) is `vector()` |
| `Rotation.NoRotationQuaternion` | src/main/java/civitas/celestis/math/rotation/Rotation.java:22 | `NO_ROTATION.quaternion()` is IDENTITY |
| `Rotation.NoRotationRoundTrip` | src/main/java/civitas/celestis/math/quaternion/Quaternion.java:184-186 | `NO_ROTATION.quaternion().rotation()` is NO_ROTATION |
| `Rotation.QuaternionRoundTrip` | src/main/java/civitas/celestis/math/quaternion/Quaternion.java:184-190 | for a positive angle whose half-angle acos recovers, `quaternion().rotation()` keeps the angle and `axis()` |
| `Rotation.RotateByNoRotation` | src/main/java/civitas/celestis/math/rotation/Rotation.java:114-116 | rotating by NO_ROTATION is the round trip through the quaternion |
| `Rotation.RotateByIdentity` | src/main/java/civitas/celestis/math/rotation/Rotation.java:125-127 | rotating by IDENTITY is the round trip through the quaternion |
| `Rotation.RotateByQuaternion` | src/main/java/civitas/celestis/math/rotation/Rotation.java:125-127 | the composition fails only with IllegalArgumentException, and never when both quaternions are unit quaternions |
| `Rotation.RotateBy` | src/main/java/civitas/celestis/math/rotation/Rotation.java:114-116 | the composition of two rotations fails only with IllegalArgumentException, and never when both quaternions are unit quaternions |
| `Rotation.RotateByDefined` | src/main/java/civitas/celestis/math/rotation/Rotation.java:114-116 | with exact trigonometry and roots, composing two rotations with non-zero axes never fails |
| `Rotation.Parsed` | src/main/java/civitas/celestis/math/rotation/Rotation.java:151-174 | text without `Rotation{` raises NumberFormatException; a NumberFormatException from the segment loop passes through; when every parsed field is finite the parse succeeds with exactly those fields; IllegalArgumentException exactly when a parsed field is not finite (key `angle` fills w, and a missing field stays NaN) |
| `Rotation.ToString` | src/main/java/civitas/celestis/math/rotation/Rotation.java:182-191 | the text starts with `Rotation{` |
| `Rotation.FromFields` | src/main/java/civitas/celestis/math/rotation/Rotation.java:173 | `new Rotation(new Vector3(x, y, z), angle)` passes on the loop's error, accepts exactly all-finite fields, and otherwise raises IllegalArgumentException |
| `Rotation.ParseRotation` | src/main/java/civitas/celestis/math/rotation/Rotation.java:151-174 | the parser's loop computes exactly `Parsed` |
| `Rotation.ParseToString` | src/main/java/civitas/celestis/math/rotation/Rotation.java:151-191 | parsing `toString` gives back the rotation |
| `VectorRotation.Rotate` | src/main/java/civitas/celestis/math/vector/Vector3.java:258-260 | `rotate(rq)` is the vector part of conj(rq)⊗v⊗rq, and a unit quaternion keeps the squared magnitude |
| `VectorRotation.SandwichPure` | src/main/java/civitas/celestis/math/vector/Vector3.java:258-260 | the sandwich of a pure quaternion is pure |
| `VectorRotation.RotateIdentity` | src/main/java/civitas/celestis/math/vector/Vector3.java:258-260 | rotating by IDENTITY gives back the vector |
| `VectorRotation.SandwichMagnitude2` | src/main/java/civitas/celestis/math/vector/Vector3.java:258-260 | the sandwich of v by a unit quaternion keeps the squared magnitude of v |
| `VectorRotation.RotateBy` | src/main/java/civitas/celestis/math/vector/Vector3.java:247-249 | rotating by a rotation whose quaternion is a unit quaternion keeps the squared magnitude |
| `VectorRotation.RotateByPreservesMagnitude2` | src/main/java/civitas/celestis/math/vector/Vector3.java:247-249 | rotating by a rotation with a non-zero axis keeps the squared magnitude |
| `VectorRotation.RotateByNoRotation` | src/main/java/civitas/celestis/math/vector/Vector3.java:247-249 | rotating by NO_ROTATION gives back the vector |
| `VectorRotation.QuarterTurnAsWritten` | src/main/java/civitas/celestis/math/vector/Vector3.java:247-260 | as written, a quarter turn about +Z takes +X to (0, −1, 0) |
| `VectorRotation.RotateRightHandedSandwich` | src/main/java/civitas/celestis/math/rotation/Rotation.java:30 | the corrected rotation is the vector part of rq⊗v⊗conj(rq) |
| `VectorRotation.RotateRightHandedIsConjugate` | src/main/java/civitas/celestis/math/vector/Vector3.java:258-260 | the corrected rotation is the as-written one by the conjugate quaternion |
| `VectorRotation.QuarterTurnRightHanded` | src/main/java/civitas/celestis/math/rotation/Rotation.java:30 | with the correction, a quarter turn about +Z takes +X to (0, 1, 0), as the right-hand rule says |
| `Vector.Divide` | src/main/java/civitas/celestis/math/vector/Vector.java:41-49 | every vector type raises ArithmeticException exactly for a zero divisor; otherwise the quotient times the divisor is the vector (a Rotation comes back as a Vector4) |
| `Vector.Attempts` | src/main/java/civitas/celestis/math/vector/Vector.java:89-103 | five attempts in the fixed order; an attempt whose prefix does not match raises NumberFormatException |
| `Vector.FirstAccepted` | src/main/java/civitas/celestis/math/vector/Vector.java:89-111 | the result is the first attempt that does not raise NumberFormatException; NumberFormatException exactly when all of them do |
| `Vector.Parsed` | src/main/java/civitas/celestis/math/vector/Vector.java:89-111 | `parse` gives text with one type's prefix exactly that type's parser's outcome, and raises NumberFormatException for text with none of the prefixes |
| `Vector.PrefixesExclusive` | src/main/java/civitas/celestis/math/vector/Vector.java:91-103 | no text starts with two of the five prefixes |
| `Vector.MultiplyScalarCompose` | src/main/java/civitas/celestis/math/vector/Vector.java:32-39 | `multiply(s)` through the interface: `multiply(1)` gives x back (a Rotation as the Vector4 with its components), and `multiply(a)` then `multiply(b)` is `multiply(a·b)` |
| `Vector.Dispatch` | src/main/java/civitas/celestis/math/vector/Vector.java:89-111 | text with one type's prefix gets exactly that parser's outcome |
| `Vector.NoPrefix` | src/main/java/civitas/celestis/math/vector/Vector.java:104-105 | text with none of the prefixes raises NumberFormatException |
| `Vector.ParseToString` | src/main/java/civitas/celestis/math/vector/Vector.java:89-111 | `parse(x.toString())` gives back x, except that a quaternion comes back as a Vector4 |
| `Vector.MissingFieldEscapes` | src/main/java/civitas/celestis/math/vector/Vector.java:89-111 | `Vector2{x=..}` without y raises IllegalArgumentException out of `parse` |
| `Vector.QuaternionTextIsVector4` | src/main/java/civitas/celestis/math/vector/Vector.java:100 | a `Quaternion{...}` text never parses into a Quaternion |
| `Pair.Of` | src/main/java/civitas/celestis/util/Pair.java:31-33 | `of(a, b)` holds a and b, whatever the receiver |
| `Pair.Contains` | src/main/java/civitas/celestis/util/Pair.java:41-43 | `contains(obj)` is false for null and non-elements, and true exactly when obj is one of the two elements |
| `Pair.Other` | src/main/java/civitas/celestis/util/Pair.java:53-58 | `other(o)` raises IllegalArgumentException exactly when the pair does not contain o; otherwise (o, other(o)) equals the pair |
| `Pair.ContainsElements` | src/main/java/civitas/celestis/util/Pair.java:41-43 | `contains(x)` is membership among the two elements |
| `Pair.SameElements` | src/main/java/civitas/celestis/util/Pair.java:70-71 | matching components in the same or in the swapped order is having the same multiset of elements |
| `Pair.Equals` | src/main/java/civitas/celestis/util/Pair.java:66-72 | `equals` is false for null and for non-pairs; two pairs are equal exactly when they hold the same multiset of elements |
| `Pair.EqualsSwapped` | src/main/java/civitas/celestis/util/Pair.java:12 | Pair(a, b) equals Pair(b, a) |
| `Pair.EqualsReflexive` | src/main/java/civitas/celestis/util/Pair.java:66-72 | every pair equals itself |
| `Pair.EqualsSymmetric` | src/main/java/civitas/celestis/util/Pair.java:66-72 | `equals` is symmetric |
| `Pair.EqualsTransitive` | src/main/java/civitas/celestis/util/Pair.java:66-72 | `equals` is transitive |
| `Pair.EqualsOnlyPairs` | src/main/java/civitas/celestis/util/Pair.java:68-69 | a pair equals neither null nor a non-pair |
| `Pair.OtherOfTwin` | src/main/java/civitas/celestis/util/Pair.java:53-55 | a is checked first, so Pair(x, x).other(x) is x |
| `Pair.OtherTwice` | src/main/java/civitas/celestis/util/Pair.java:53-58 | `other(other(o))` is o for a member o |
| `Scaling.ConvertSame` | src/main/java/civitas/celestis/math/unit/LengthUnit.java:37-39 | converting a value to its own scale changes nothing |
| `Scaling.ConvertBack` | src/main/java/civitas/celestis/math/unit/MassUnit.java:41-43 | converting there and back changes nothing |
| `Scaling.ConvertCompose` | src/main/java/civitas/celestis/math/unit/SpeedUnit.java:37-39 | converting through an intermediate scale is converting directly |
| `Scaling.ConvertLinear` | src/main/java/civitas/celestis/math/unit/LengthUnit.java:37-39 | conversion maps 0 to 0 and k·v to k times the conversion of v |
| `LengthUnit.Scale` | src/main/java/civitas/celestis/math/unit/LengthUnit.java:10-17 | every scale is positive |
| `LengthUnit.Convert` | src/main/java/civitas/celestis/math/unit/LengthUnit.java:37-39 | `target.convert(source, v)` scaled by the source's count per base unit equals v scaled by the target's: the same quantity in the other unit |
| `LengthUnit.ToMeters` | src/main/java/civitas/celestis/math/unit/LengthUnit.java:47-49 | `toMeters(v)` times the unit's count per base unit is v: v units expressed in the base unit |
| `LengthUnit.ToMetersIsConvert` | src/main/java/civitas/celestis/math/unit/LengthUnit.java:15-48 | `u.toMeters(v)` is `METER.convert(u, v)` |
| `LengthUnit.ConvertSame` | src/main/java/civitas/celestis/math/unit/LengthUnit.java:37-39 | `u.convert(u, v)` is v |
| `LengthUnit.ConvertBack` | src/main/java/civitas/celestis/math/unit/LengthUnit.java:37-39 | `a.convert(b, b.convert(a, v))` is v |
| `LengthUnit.ConvertCompose` | src/main/java/civitas/celestis/math/unit/LengthUnit.java:37-39 | `c.convert(b, b.convert(a, v))` is `c.convert(a, v)` |
| `LengthUnit.ConvertLinear` | src/main/java/civitas/celestis/math/unit/LengthUnit.java:37-39 | conversion maps 0 to 0 and is linear in v |
| `LengthUnit.ThousandFold` | src/main/java/civitas/celestis/math/unit/LengthUnit.java:11-16 | a metre is 1000 millimetres and a kilometre is 1000 metres |
| `MassUnit.Scale` | src/main/java/civitas/celestis/math/unit/MassUnit.java:10-21 | every scale is positive |
| `MassUnit.Convert` | src/main/java/civitas/celestis/math/unit/MassUnit.java:41-43 | `target.convert(source, v)` scaled by the source's count per base unit equals v scaled by the target's: the same quantity in the other unit |
| `MassUnit.ToKilograms` | src/main/java/civitas/celestis/math/unit/MassUnit.java:51-53 | `toKilograms(v)` times the unit's count per base unit is v: v units expressed in the base unit |
| `MassUnit.ToKilogramsIsConvert` | src/main/java/civitas/celestis/math/unit/MassUnit.java:15-53 | `u.toKilograms(v)` is `KILOGRAM.convert(u, v)` |
| `MassUnit.ConvertSame` | src/main/java/civitas/celestis/math/unit/MassUnit.java:41-43 | `u.convert(u, v)` is v |
| `MassUnit.ConvertBack` | src/main/java/civitas/celestis/math/unit/MassUnit.java:41-43 | `a.convert(b, b.convert(a, v))` is v |
| `MassUnit.ConvertCompose` | src/main/java/civitas/celestis/math/unit/MassUnit.java:41-43 | `c.convert(b, b.convert(a, v))` is `c.convert(a, v)` |
| `MassUnit.ConvertLinear` | src/main/java/civitas/celestis/math/unit/MassUnit.java:41-43 | conversion maps 0 to 0 and is linear in v |
| `MassUnit.ThousandFold` | src/main/java/civitas/celestis/math/unit/MassUnit.java:13-16 | a kilogram is 1000 grams and a ton is 1000 kilograms |
| `SpeedUnit.Scale` | src/main/java/civitas/celestis/math/unit/SpeedUnit.java:13-17 | every scale is positive |
| `SpeedUnit.Convert` | src/main/java/civitas/celestis/math/unit/SpeedUnit.java:37-39 | `target.convert(source, v)` scaled by the source's count per base unit equals v scaled by the target's: the same quantity in the other unit |
| `SpeedUnit.ToMetersPerSecond` | src/main/java/civitas/celestis/math/unit/SpeedUnit.java:47-49 | `toMetersPerSecond(v)` times the unit's count per base unit is v: v units expressed in the base unit |
| `SpeedUnit.ToMetersPerSecondIsConvert` | src/main/java/civitas/celestis/math/unit/SpeedUnit.java:16-49 | `u.toMetersPerSecond(v)` is `METERS_PER_SECOND.convert(u, v)` |
| `SpeedUnit.ConvertSame` | src/main/java/civitas/celestis/math/unit/SpeedUnit.java:37-39 | `u.convert(u, v)` is v |
| `SpeedUnit.ConvertBack` | src/main/java/civitas/celestis/math/unit/SpeedUnit.java:37-39 | `a.convert(b, b.convert(a, v))` is v |
| `SpeedUnit.ConvertCompose` | src/main/java/civitas/celestis/math/unit/SpeedUnit.java:37-39 | `c.convert(b, b.convert(a, v))` is `c.convert(a, v)` |
| `SpeedUnit.ConvertLinear` | src/main/java/civitas/celestis/math/unit/SpeedUnit.java:37-39 | conversion maps 0 to 0 and is linear in v |
| `SpeedUnit.KilometersPerHour` | src/main/java/civitas/celestis/math/unit/SpeedUnit.java:13-16 | one metre per second is 3.6 kilometres per hour |

## Left out

- IEEE-754 arithmetic: rounding, overflow to infinity, signed zero and subnormals are not modelled. Components are reals, and every algebraic law holds over the reals only.
- `Math.cos`, `Math.sin`, `Math.acos`, `Double.toString`, `Double.parseDouble` and the bit conversions are parameters. Only the laws named above are assumed, and only by the lemmas that take them.
- The accuracy of the `isqrt` seed is not bounded. Lemmas that need exact roots take `Numbers.ExactAt` or `Numbers.ExactISqrt` as a precondition.
- Java regular expressions: `replaceAll("Vector2\\{", "")` and `replaceAll("}", "")` are modelled as removal of the literal text. `split` is a literal split that drops trailing empty strings.
- `Rotation.degrees()` (`Math.toDegrees`) is not modelled: it is a unit change through a JDK call.
- Vector2.Magnitude: models `magnitude()` with the intended zero check on `magnitude2()` instead of the `isqrt == 0` guard. It differs from the code as written, `Numbers.MagnitudeAsWritten`, only for the zero vector (see Findings). `distance` uses it too.
- Vector3.Magnitude: the intended zero check, as for Vector2.
- Vector4.Magnitude: the intended zero check, as for Vector2.
- `hashCode` of every type, `Serializable`, `@Nonnull` checks and the component getters are not modelled.
- Pair's record-generated `hashCode` depends on order, so it disagrees with the overridden `equals`. Hashing is outside the model.
- `Pair.Contains` takes `Option<T>`: `None` stands for null and for objects that are not a `T`. Element equality is Dafny `==`, which stands for a reflexive and symmetric `equals`.
- The Vector4 `subtract` as written is `Vector4.SubtractAsWritten`; `distance` and `distance2` as written are `Vector4.DistanceAsWritten` and `Vector4.Distance2AsWritten`, and `Quaternion.subtract` as written is `Quaternion.SubtractAsWritten`. The rest of the model uses the corrected subtraction (see Findings).
- `Vector2.Rotate`: the contract states magnitude preservation, not the resulting direction.

## Findings

| source | as written | input that shows it | evidently intended | confidence | as-written member | corrected member |
|---|---|---|---|---|---|---|
| src/main/java/civitas/celestis/math/vector/Vector4.java:168 | `subtract` computes the last component as `z - v.y` | v = (0, 0, 1, 2): v.subtract(v) = (0, 0, 0, 1) | `z - v.z`, so v − v = ZERO | high, not executed | `Vector4.SubtractAsWrittenSelf` | `Vector4.SubtractSelf` |
| src/main/java/civitas/celestis/math/Numbers.java:26-43 | `isqrt(0)` is 1.5⁴ times the decoded magic bit pattern, a positive number; `magnitude()` then returns 1/isqrt(0) ≠ 0 for the zero vector | the zero vector: `ZERO.magnitude()` is positive | the magnitude of the zero vector is 0 | high, not executed | `Numbers.MagnitudeAsWrittenOfZero` | `Numbers.MagnitudeSquared` |
| src/main/java/civitas/celestis/math/quaternion/Quaternion.java:174-176 | `inverse()` is `conjugate()` times isqrt(magnitude2(q)), that is conj(q)/magnitude(q) | q = (2, 0, 0, 0): q·inverse() = (2, 0, 0, 0) | conj(q)/magnitude2(q), so q·inverse() is IDENTITY | high, not executed | `Quaternion.InverseAsWrittenProduct` | `Quaternion.InverseTwoSided` |
| src/main/java/civitas/celestis/math/vector/Vector3.java:258-260 | `rotate(rq)` computes conj(rq)⊗v⊗rq, because `multiply` is left-multiplication | +X rotated a quarter turn about +Z gives (0, −1, 0) | the right-hand rule promised at `Rotation.java:30`: (0, 1, 0) | medium, not executed | `VectorRotation.QuarterTurnAsWritten` | `VectorRotation.QuarterTurnRightHanded` |
| src/main/java/civitas/celestis/math/vector/Vector4.java:220-222 | `distance2` is `subtract(v).magnitude2()` and so inherits the `z - v.y` of `subtract` | u = ZERO, v = (0, 0, 1, 0): u.distance2(v) = 2 but v.distance2(u) = 1 | a symmetric squared distance, 0 from a vector to itself | high, not executed | `Vector4.Distance2AsWrittenAsymmetric` | `Vector4.Distance2Symmetric` |
| src/main/java/civitas/celestis/math/vector/Vector4.java:210-212 | `distance` is `subtract(v).magnitude()`, with both the subtraction bug and the magnitude bug | v = ZERO: v.distance(v) is positive | 0 from a vector to itself | high, not executed | `Vector4.DistanceAsWrittenSelf` | `Vector4.Distance` |
| src/main/java/civitas/celestis/math/quaternion/Quaternion.java:114-116 | `subtract(v)` copies Vector4's `z - v.y` | q = (0, 0, 1, 2): q.subtract(q) = (0, 0, 0, 1) | q − q is zero | high, not executed | `Quaternion.SubtractAsWrittenSelf` | `Quaternion.SubtractSelf` |
