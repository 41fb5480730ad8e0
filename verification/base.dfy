/** Values shared by every part of the editor model: an optional value (for the
    JavaScript `undefined`/`null` fields), a 3D vector of world coordinates, and
    the capacity that bounds annotations and each kind of light. */
module Base {

  /** A value that may be absent (`undefined` or `null` in the editor). */
  datatype Option<+T> = None | Some(value: T)

  /** A point or size in world units (a `THREE.Vector3`). Coordinates are
      mathematical reals: floating-point rounding is not modelled. */
  datatype Vec3 = Vec3(x: real, y: real, z: real)

  /** The largest number of annotations, and of lights of each kind, the
      editor lets the user place (`maxCounter`). */
  const MaxCounter: int := 10

  /** Squared Euclidean distance between two points. */
  function DistSq(a: Vec3, b: Vec3): real
  {
    (a.x - b.x) * (a.x - b.x) + (a.y - b.y) * (a.y - b.y) + (a.z - b.z) * (a.z - b.z)
  }
}
