/** Positions as the mesh loader stores them, and the vector length the metrics use. */
module Geometry {

  /** A glm::vec3 position. Coordinates are modelled as reals. */
  datatype Vec3 = Vec3(x: real, y: real, z: real)

  const Zero: Vec3 := Vec3(0.0, 0.0, 0.0)

  /** Component-wise difference `p - q`. */
  function Sub(p: Vec3, q: Vec3): (r: Vec3)
    ensures forall c :: 0 <= c < 3 ==> Component(r, c) == Component(p, c) - Component(q, c)
  {
    Vec3(p.x - q.x, p.y - q.y, p.z - q.z)
  }

  /** `v[c]` for c in 0..2. */
  function Component(v: Vec3, c: nat): real
    requires c < 3
  {
    if c == 0 then v.x else if c == 1 then v.y else v.z
  }

  /** `v[c] = x`: only component c changes. */
  function SetComponent(v: Vec3, c: nat, x: real): (r: Vec3)
    requires c < 3
    ensures Component(r, c) == x
    ensures forall k :: 0 <= k < 3 && k != c ==> Component(r, k) == Component(v, k)
  {
    if c == 0 then v.(x := x) else if c == 1 then v.(y := x) else v.(z := x)
  }

  /** The position of vertex i in a flat attribute array `x0 y0 z0 x1 y1 z1 ...`. */
  function Position(a: seq<real>, i: nat): (p: Vec3)
    requires 3 * i + 2 < |a|
    ensures forall c :: 0 <= c < 3 ==> Component(p, c) == a[3 * i + c]
  {
    Vec3(a[3 * i], a[3 * i + 1], a[3 * i + 2])
  }

  /** All complete triples of a flat attribute array; a trailing partial triple is dropped. */
  function Positions(a: seq<real>): (ps: seq<Vec3>)
    ensures |ps| == |a| / 3
    ensures forall i :: 0 <= i < |ps| ==> 3 * i + 2 < |a| && ps[i] == Position(a, i)
  {
    seq(|a| / 3, i requires 0 <= i < |a| / 3 => Position(a, i))
  }

  lemma SubSelf(p: Vec3)
    ensures Sub(p, p) == Zero
  {
  }

  /**
   * What the model assumes of glm::length: lengths are natural numbers (so
   * non-negative), the zero vector has length 0, and `len(p - q) == len(q - p)`.
   */
  ghost predicate IsNorm(len: Vec3 -> nat)
  {
    len(Zero) == 0 && forall p, q :: len(Sub(p, q)) == len(Sub(q, p))
  }

  /** The triangle inequality of a Euclidean length, stated on differences of points. */
  ghost predicate TriangleInequality(len: Vec3 -> nat)
  {
    forall p, q, r :: len(Sub(r, p)) <= len(Sub(q, p)) + len(Sub(r, q))
  }
}
