/** Shared gameplay enumerations, and the three-component vector of the
    maths library the gameplay code positions things with. */
module GameTypes {
  datatype DamageType = Physical | Echo | Fire | Frost | Shock | Poison

  datatype ResourceKind = Wood | Crystal | Ore | Fiber | Essence

  datatype Vec3 = Vec3(x: real, y: real, z: real)
}
