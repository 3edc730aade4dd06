/** The part of a loaded OBJ mesh (tinyobj::shape_t) that the metrics read. */
module Mesh {

  /**
   * One shape: `numFaceVertices` stands for mesh.num_face_vertices (only its
   * size, the face count, is read) and `indices` for the vertex_index of each
   * entry of mesh.indices. Faces are read as consecutive index triples.
   */
  datatype Shape = Shape(numFaceVertices: seq<nat>, indices: seq<int>)

  function FaceCount(shape: Shape): nat
  {
    |shape.numFaceVertices|
  }

  /** The index triples of every face exist and name one of the n vertices. */
  predicate ShapeValid(shape: Shape, n: nat)
  {
    3 * FaceCount(shape) <= |shape.indices| &&
    forall k :: 0 <= k < 3 * FaceCount(shape) ==> 0 <= shape.indices[k] < n
  }

  predicate FacesValid(shapes: seq<Shape>, n: nat)
  {
    forall s :: 0 <= s < |shapes| ==> ShapeValid(shapes[s], n)
  }

  /** Number of faces over shapes 0 .. s-1. */
  function TotalFaces(shapes: seq<Shape>, s: nat): nat
    requires s <= |shapes|
  {
    if s == 0 then 0 else TotalFaces(shapes, s - 1) + FaceCount(shapes[s - 1])
  }

  /** Corner k (0, 1 or 2) of face f. */
  function Corner(shape: Shape, f: nat, k: nat, n: nat): (i: nat)
    requires ShapeValid(shape, n) && f < FaceCount(shape) && k < 3
    ensures i < n
  {
    shape.indices[3 * f + k] as nat
  }
}
