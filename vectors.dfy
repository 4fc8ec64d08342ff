/** The `vec3.T` value of the go3d library: three float coordinates, modelled as reals.
    None of its arithmetic is modelled; only the zero value is needed. */
module Vectors {

  datatype Vec3 = Vec3(x: real, y: real, z: real)

  /** The zero value `vec3.T{}`. */
  const Zero: Vec3 := Vec3(0.0, 0.0, 0.0)
}
