/** Vectors and grid cells, with the engine's double arithmetic modelled over the reals. */
module Geometry {

  /** A point or displacement in world or contraption space. */
  datatype Vec3 = Vec3(x: real, y: real, z: real)

  /** A block position: one cell of the integer grid. */
  datatype GridPos = GridPos(x: int, y: int, z: int)

  const Origin := Vec3(0.0, 0.0, 0.0)

  /** `a - b`: the displacement that leads from `b` to `a`. */
  function Sub(a: Vec3, b: Vec3): (d: Vec3)
    ensures Vec3(b.x + d.x, b.y + d.y, b.z + d.z) == a
  {
    Vec3(a.x - b.x, a.y - b.y, a.z - b.z)
  }

  /** The grid cell that contains `v` (the block position built from a vector floors each coordinate). */
  function GridOf(v: Vec3): (g: GridPos)
    ensures g.x as real <= v.x < g.x as real + 1.0
    ensures g.y as real <= v.y < g.y as real + 1.0
    ensures g.z as real <= v.z < g.z as real + 1.0
  {
    GridPos(v.x.Floor, v.y.Floor, v.z.Floor)
  }

  /** `v.length() > 0`: a vector has positive length exactly when it is not the zero vector. */
  predicate HasPositiveLength(v: Vec3)
  {
    v != Origin
  }
}
