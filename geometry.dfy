/** Points as the capture core hands them on. The point type's own source is
    not part of this model: a point here is its coordinates and its cluster
    id, the two things the core reads or sets. */
module Geometry {

  /** Coordinates in millimetres. */
  datatype Vec3 = Vec3(x: real, y: real, z: real)

  /** A labelled point: coordinates and the id of the cluster it belongs to. */
  datatype Point = Point(pos: Vec3, cluster: int)
}
