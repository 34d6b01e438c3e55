/** Plain values shared by the GL model and the frame loop: optional and
    fallible results, gl-matrix vectors and matrices, and the values a
    uniform can hold. */
module Values {

  /** A value that may be missing (a JavaScript `null`). */
  datatype Option<+T> = None | Some(value: T)

  /** The outcome of a constructor that may throw: the thrown text is the
      GL info log. */
  datatype Result<+T> = Ok(value: T) | Err(log: string)

  /** gl-matrix `vec3`. */
  datatype Vec3 = Vec3(x: real, y: real, z: real)

  /** gl-matrix `vec4`. */
  datatype Vec4 = Vec4(x: real, y: real, z: real, w: real)

  const Origin: Vec3 := Vec3(0.0, 0.0, 0.0)

  /** gl-matrix `mat4`: 16 entries in column-major order, or the
      inverse-transpose gl-matrix derives from another matrix, which the model
      keeps symbolic instead of computing it in floating point. */
  datatype Matrix = Entries(m: seq<real>) | InverseTranspose(of: Matrix)

  /** `mat4.create()`: the identity. */
  const Identity: Matrix := Entries([1.0, 0.0, 0.0, 0.0,
                                     0.0, 1.0, 0.0, 0.0,
                                     0.0, 0.0, 1.0, 0.0,
                                     0.0, 0.0, 0.0, 1.0])

  /** What a uniform upload sends: `uniformMatrix4fv`, `uniform4fv` or
      `uniform1f`. */
  datatype UniformValue = MatrixValue(m: Matrix) | Vec4Value(v: Vec4) | FloatValue(f: real)
}
