/** Points and directions in the viewer's 3D space, and the face normal of a
    triangle. Coordinates are Java doubles, modelled here as exact reals. */
module Geometry {

  /** A point or a direction: x to the right, y downwards on screen, z towards
      the observer (a larger z is nearer). */
  datatype Vertex = Vertex(x: real, y: real, z: real)

  /** The edge vector from `a` to `b`. */
  function Edge(a: Vertex, b: Vertex): Vertex
  {
    Vertex(b.x - a.x, b.y - a.y, b.z - a.z)
  }

  function Dot(u: Vertex, v: Vertex): real
  {
    u.x * v.x + u.y * v.y + u.z * v.z
  }

  /** Squared Euclidean length. */
  function NormSq(v: Vertex): real
  {
    Dot(v, v)
  }

  /** The cross product of the edges v1->v2 and v1->v3: the unnormalised face
      normal used for flat shading. */
  function FaceNormal(v1: Vertex, v2: Vertex, v3: Vertex): (n: Vertex)
    ensures Dot(n, Edge(v1, v2)) == 0.0
    ensures Dot(n, Edge(v1, v3)) == 0.0
  {
    var ab := Edge(v1, v2);
    var ac := Edge(v1, v3);
    Vertex(ab.y * ac.z - ab.z * ac.y,
           ab.z * ac.x - ab.x * ac.z,
           ab.x * ac.y - ab.y * ac.x)
  }
}
