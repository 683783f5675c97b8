/**
 * The value types of MFMath that SpatialEntity stores. math.hpp is not part of
 * this model: no arithmetic is done on these values here, they are only stored
 * and returned, so their components are plain reals.
 */
module MFMath {
  /** MFMath::Vec3, a 3-component vector. */
  datatype Vec3 = Vec3(x: real, y: real, z: real)

  /** MFMath::Quat, a rotation quaternion. */
  datatype Quat = Quat(x: real, y: real, z: real, w: real)

  /** The default-constructed MFMath::Vec3(), taken to be the origin. */
  const DefaultVec3: Vec3 := Vec3(0.0, 0.0, 0.0)

  /** MFMath::Vec3(1,1,1), the scale every entity starts with. */
  const UnitScale: Vec3 := Vec3(1.0, 1.0, 1.0)

  /** The default-constructed MFMath::Quat(), taken to be the identity rotation. */
  const DefaultQuat: Quat := Quat(0.0, 0.0, 0.0, 1.0)
}
