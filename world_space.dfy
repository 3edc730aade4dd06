/**
 * WorldSpaceAlgorithm: the direct metric. `load` keeps the vertex positions
 * and `propagate` measures the straight-line distance from the source to
 * every vertex.
 */
module WorldSpace {
  import opened Geometry
  import opened Mesh
  import opened Distance

  /** The straight-line field from ps[src]: entry i is the length of ps[src] - ps[i]. */
  function DirectField(ps: seq<Vec3>, src: nat, len: Vec3 -> nat): (r: seq<Dist>)
    requires src < |ps|
    ensures |r| == |ps|
  {
    seq(|ps|, i requires 0 <= i < |ps| => Fin(len(Sub(ps[src], ps[i]))))
  }

  /** One entry per vertex, and no sentinel survives the fill. */
  lemma DirectFieldComplete(ps: seq<Vec3>, src: nat, len: Vec3 -> nat)
    requires src < |ps|
    ensures |DirectField(ps, src, len)| == |ps|
    ensures forall i :: 0 <= i < |ps| ==> DirectField(ps, src, len)[i] != Inf
  {
  }

  /** Under the norm axioms the source is at distance zero. */
  lemma DirectFieldAtSource(ps: seq<Vec3>, src: nat, len: Vec3 -> nat)
    requires src < |ps| && IsNorm(len)
    ensures DirectField(ps, src, len)[src] == Fin(0)
  {
    SubSelf(ps[src]);
  }

  /** Under the norm axioms the field from a, read at b, is the field from b, read at a. */
  lemma DirectFieldSymmetric(ps: seq<Vec3>, a: nat, b: nat, len: Vec3 -> nat)
    requires a < |ps| && b < |ps| && IsNorm(len)
    ensures DirectField(ps, a, len)[b] == DirectField(ps, b, len)[a]
  {
    assert len(Sub(ps[a], ps[b])) == len(Sub(ps[b], ps[a]));
  }

  /** For a Euclidean length the field obeys the triangle inequality through any vertex m. */
  lemma DirectFieldTriangle(ps: seq<Vec3>, a: nat, m: nat, b: nat, len: Vec3 -> nat)
    requires a < |ps| && m < |ps| && b < |ps| && IsNorm(len) && TriangleInequality(len)
    ensures DirectField(ps, a, len)[b].len <= DirectField(ps, a, len)[m].len + DirectField(ps, m, len)[b].len
  {
    assert len(Sub(ps[b], ps[a])) <= len(Sub(ps[m], ps[a])) + len(Sub(ps[b], ps[m]));
    assert len(Sub(ps[a], ps[b])) == len(Sub(ps[b], ps[a]));
    assert len(Sub(ps[a], ps[m])) == len(Sub(ps[m], ps[a]));
    assert len(Sub(ps[m], ps[b])) == len(Sub(ps[b], ps[m]));
  }

  class WorldSpaceAlgorithm {
    /** The stored vertex positions. */
    var vertices: seq<Vec3>

    /** `WorldSpaceAlgorithm() : vertices() {}` */
    constructor ()
      ensures vertices == []
    {
      vertices := [];
    }

    /**
     * load(attrib, shapes): every complete coordinate triple of `a` is pushed
     * as one vertex, after the vertices already stored. The shapes are not read.
     */
    method Load(a: seq<real>, shapes: seq<Shape>)
      modifies this
      ensures vertices == old(vertices) + Positions(a)
    {
      ghost var start := vertices;
      var numVerts := |a| / 3;
      var i := 0;
      while i < numVerts
        invariant 0 <= i <= numVerts
        invariant vertices == start + Positions(a)[..i]
      {
        var v := Zero;
        var c := 0;
        while c < 3
          invariant 0 <= c <= 3
          invariant c > 0 ==> v == Position(a, i)
        {
          v := SetComponent(v, 0, a[3 * i + 0]);
          v := SetComponent(v, 1, a[3 * i + 1]);
          v := SetComponent(v, 2, a[3 * i + 2]);
          c := c + 1;
        }
        assert Positions(a)[..i + 1] == Positions(a)[..i] + [v];
        vertices := vertices + [v];
        i := i + 1;
      }
      assert Positions(a)[..numVerts] == Positions(a);
    }

    /**
     * propagate(src): a field of sentinels, one per vertex, each overwritten
     * by the length from vertices[src] to that vertex.
     */
    method Propagate(src: nat, len: Vec3 -> nat) returns (r: seq<Dist>)
      requires src < |vertices|
      ensures r == DirectField(vertices, src, len)
    {
      var n := |vertices|;
      var dist := new Dist[n](_ => Inf);
      var v := vertices[src];
      var i := 0;
      while i < n
        invariant 0 <= i <= n
        invariant forall k :: 0 <= k < i ==> dist[k] == Fin(len(Sub(v, vertices[k])))
      {
        dist[i] := Fin(len(Sub(v, vertices[i])));
        i := i + 1;
      }
      r := dist[..];
    }
  }
}
