/**
 * How the two metrics relate on the same mesh: the graph distance follows
 * mesh edges, so it is never shorter than the straight-line distance.
 */
module Metrics {
  import opened Geometry
  import opened Mesh
  import opened Distance
  import opened Graph
  import opened Walks
  import opened WorldSpace

  /** A walk whose weights are edge lengths is at least as long as the straight line between its ends. */
  lemma {:induction false} WalkNotShorterThanDirect(adj: Adjacency, ps: seq<Vec3>, len: Vec3 -> nat, s: nat, p: seq<Neighbor>)
    requires WeightsAreLengths(adj, ps, len) && IsNorm(len) && TriangleInequality(len) && IsWalk(adj, s, p)
    ensures End(s, p) < |ps| && len(Sub(ps[End(s, p)], ps[s])) <= Length(p)
    decreases |p|
  {
    if p == [] {
      SubSelf(ps[s]);
    } else {
      var q := p[..|p| - 1];
      var e := p[|p| - 1];
      var x := End(s, q);
      WalkNotShorterThanDirect(adj, ps, len, s, q);
      var i :| 0 <= i < |adj[x]| && adj[x][i] == e;
      assert e.weight == len(Sub(ps[e.vertex], ps[x]));
      assert len(Sub(ps[e.vertex], ps[s])) <= len(Sub(ps[x], ps[s])) + len(Sub(ps[e.vertex], ps[x]));
    }
  }

  /** Every finite shortest-path distance is at least the straight-line distance. */
  lemma GraphNotShorterThanDirect(adj: Adjacency, ps: seq<Vec3>, len: Vec3 -> nat, s: nat, r: seq<Dist>)
    requires WeightsAreLengths(adj, ps, len) && IsNorm(len) && TriangleInequality(len) && ShortestFrom(adj, s, r)
    ensures forall v :: 0 <= v < |r| && r[v].Fin? ==> DirectField(ps, s, len)[v].len <= r[v].len
  {
    forall v | 0 <= v < |r| && r[v].Fin?
      ensures DirectField(ps, s, len)[v].len <= r[v].len
    {
      var p :| IsWalk(adj, s, p) && End(s, p) == v && Length(p) == r[v].len;
      WalkNotShorterThanDirect(adj, ps, len, s, p);
      assert len(Sub(ps[s], ps[v])) == len(Sub(ps[v], ps[s]));
    }
  }

  /**
   * On a mesh loaded into an empty DijkstraAlgorithm, the shortest-path
   * field from s is symmetric in s and t, and every finite entry is at least
   * the direct metric's entry for the same vertices.
   */
  lemma LoadedMeshMetrics(a: seq<real>, shapes: seq<Shape>, len: Vec3 -> nat, s: nat, t: nat, rs: seq<Dist>, rt: seq<Dist>)
    requires FacesValid(shapes, |a| / 3) && IsNorm(len) && TriangleInequality(len)
    requires var adj := LoadedGraph([], a, shapes, len); ShortestFrom(adj, s, rs) && ShortestFrom(adj, t, rt)
    ensures rs[t] == rt[s]
    ensures forall v :: 0 <= v < |rs| && rs[v].Fin? ==> DirectField(Positions(a), s, len)[v].len <= rs[v].len
  {
    var adj := LoadedGraph([], a, shapes, len);
    FreshLoadWellFormed(a, shapes, len);
    ShortestSymmetric(adj, s, t, rs, rt);
    GraphNotShorterThanDirect(adj, Positions(a), len, s, rs);
  }
}
