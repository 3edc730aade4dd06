/**
 * Walks through an adjacency and the shortest-distance field they define:
 * the reference against which the Dijkstra metric is proved.
 */
module Walks {
  import opened Distance
  import opened Graph

  /** Where a walk from s that follows the entries p ends. */
  function End(s: nat, p: seq<Neighbor>): nat
  {
    if p == [] then s else p[|p| - 1].vertex
  }

  /**
   * p is a walk from s: every step follows an entry of the list of the vertex
   * reached so far and lands on a vertex of the graph.
   */
  predicate IsWalk(adj: Adjacency, s: nat, p: seq<Neighbor>)
  {
    s < |adj| &&
    (p == [] ||
     (IsWalk(adj, s, p[..|p| - 1]) &&
      var x := End(s, p[..|p| - 1]);
      x < |adj| && p[|p| - 1] in adj[x] && p[|p| - 1].vertex < |adj|))
  }

  /** The sum of the weights along p. */
  function Length(p: seq<Neighbor>): nat
  {
    if p == [] then 0 else Length(p[..|p| - 1]) + p[|p| - 1].weight
  }

  lemma WalkEndInRange(adj: Adjacency, s: nat, p: seq<Neighbor>)
    requires IsWalk(adj, s, p)
    ensures End(s, p) < |adj|
  {
  }

  /**
   * r is the shortest-path field from s: one entry per vertex, every finite
   * entry is the length of some walk from s to that vertex, and every walk
   * from s reaches a vertex whose entry is finite and at most the walk's length.
   */
  ghost predicate ShortestFrom(adj: Adjacency, s: nat, r: seq<Dist>)
  {
    |r| == |adj| && s < |adj| &&
    (forall v :: 0 <= v < |r| && r[v].Fin? ==>
      exists p :: IsWalk(adj, s, p) && End(s, p) == v && Length(p) == r[v].len) &&
    (forall p :: IsWalk(adj, s, p) ==>
      End(s, p) < |r| && r[End(s, p)].Fin? && r[End(s, p)].len <= Length(p))
  }

  /** Every edge out of u among its first k is relaxed: d[v] <= d[u] + w. */
  predicate Relaxed(adj: Adjacency, d: seq<Dist>, u: nat, k: nat)
    requires u < |adj| && u < |d| && k <= |adj[u]|
  {
    forall i :: 0 <= i < k ==>
      adj[u][i].vertex < |d| && LessEq(d[adj[u][i].vertex], Add(d[u], adj[u][i].weight))
  }

  /** No edge can lower any entry of d any more. */
  predicate Settled(adj: Adjacency, d: seq<Dist>)
  {
    |d| == |adj| && forall u :: 0 <= u < |adj| ==> Relaxed(adj, d, u, |adj[u]|)
  }

  /** walks[v] is a walk from s of length d[v] to v, for every finite d[v]. */
  ghost predicate Witnessed(adj: Adjacency, s: nat, d: seq<Dist>, walks: seq<seq<Neighbor>>)
  {
    |walks| == |d| &&
    forall v :: 0 <= v < |d| && d[v].Fin? ==>
      IsWalk(adj, s, walks[v]) && End(s, walks[v]) == v && Length(walks[v]) == d[v].len
  }

  /** Extending a walk by one entry of the list of its end. */
  lemma WalkAppend(adj: Adjacency, s: nat, p: seq<Neighbor>, e: Neighbor)
    requires IsWalk(adj, s, p) && End(s, p) < |adj| && e in adj[End(s, p)] && e.vertex < |adj|
    ensures IsWalk(adj, s, p + [e]) && End(s, p + [e]) == e.vertex && Length(p + [e]) == Length(p) + e.weight
  {
    assert (p + [e])[..|p|] == p;
  }

  /** In a settled field with d[s] == 0, every walk from s bounds the entry of its end from above. */
  lemma {:induction false} SettledBoundsWalks(adj: Adjacency, s: nat, d: seq<Dist>, p: seq<Neighbor>)
    requires Settled(adj, d) && s < |d| && d[s] == Fin(0) && IsWalk(adj, s, p)
    ensures End(s, p) < |d| && d[End(s, p)].Fin? && d[End(s, p)].len <= Length(p)
    decreases |p|
  {
    if p != [] {
      var q := p[..|p| - 1];
      var e := p[|p| - 1];
      var x := End(s, q);
      SettledBoundsWalks(adj, s, d, q);
      var i :| 0 <= i < |adj[x]| && adj[x][i] == e;
      assert LessEq(d[e.vertex], Add(d[x], e.weight));
    }
  }

  /**
   * A settled field that is zero at s and whose finite entries all have
   * walks is the shortest-path field from s.
   */
  lemma SettledIsShortest(adj: Adjacency, s: nat, d: seq<Dist>, walks: seq<seq<Neighbor>>)
    requires Settled(adj, d) && s < |d| && d[s] == Fin(0) && Witnessed(adj, s, d, walks)
    ensures ShortestFrom(adj, s, d)
  {
    forall v | 0 <= v < |d| && d[v].Fin?
      ensures exists p :: IsWalk(adj, s, p) && End(s, p) == v && Length(p) == d[v].len
    {
      assert IsWalk(adj, s, walks[v]) && End(s, walks[v]) == v;
    }
    forall p | IsWalk(adj, s, p)
      ensures End(s, p) < |d| && d[End(s, p)].Fin? && d[End(s, p)].len <= Length(p)
    {
      SettledBoundsWalks(adj, s, d, p);
    }
  }

  /** The shortest-path field from s is zero at s. */
  lemma ShortestAtSource(adj: Adjacency, s: nat, r: seq<Dist>)
    requires ShortestFrom(adj, s, r)
    ensures r[s] == Fin(0)
  {
    assert IsWalk(adj, s, []) && End(s, []) == s && Length([]) == 0;
  }

  /** A vertex has a finite entry exactly when some walk from s reaches it. */
  lemma ReachableIffFinite(adj: Adjacency, s: nat, r: seq<Dist>, v: nat)
    requires ShortestFrom(adj, s, r) && v < |r|
    ensures r[v].Fin? <==> exists p :: IsWalk(adj, s, p) && End(s, p) == v
  {
    if exists p :: IsWalk(adj, s, p) && End(s, p) == v {
      var p :| IsWalk(adj, s, p) && End(s, p) == v;
      assert r[End(s, p)].Fin?;
    }
  }

  /** There is only one shortest-path field from s. */
  lemma ShortestUnique(adj: Adjacency, s: nat, r1: seq<Dist>, r2: seq<Dist>)
    requires ShortestFrom(adj, s, r1) && ShortestFrom(adj, s, r2)
    ensures r1 == r2
  {
    forall v | 0 <= v < |r1|
      ensures r1[v] == r2[v]
    {
      if r1[v].Fin? {
        var p :| IsWalk(adj, s, p) && End(s, p) == v && Length(p) == r1[v].len;
        assert r2[End(s, p)].Fin?;
        var q :| IsWalk(adj, s, q) && End(s, q) == v && Length(q) == r2[v].len;
        assert r1[End(s, q)].len <= Length(q);
      }
    }
  }

  /** A step x -> y followed by a walk from x is a walk from y. */
  lemma {:induction false} WalkPrepend(adj: Adjacency, y: nat, e: Neighbor, q: seq<Neighbor>)
    requires y < |adj| && e in adj[y] && IsWalk(adj, e.vertex, q)
    ensures IsWalk(adj, y, [e] + q) && End(y, [e] + q) == End(e.vertex, q) && Length([e] + q) == e.weight + Length(q)
    decreases |q|
  {
    if q == [] {
      assert [e] + q == [e] && [e][..0] == [];
      assert IsWalk(adj, y, []) && End(y, []) == y;
      assert e.vertex < |adj|;
    } else {
      var init := q[..|q| - 1];
      WalkPrepend(adj, y, e, init);
      assert ([e] + q)[..|[e] + q| - 1] == [e] + init;
      WalkEndInRange(adj, e.vertex, init);
    }
  }

  /** In a symmetric adjacency every walk can be walked backwards at the same length. */
  lemma {:induction false} ReverseWalk(adj: Adjacency, s: nat, p: seq<Neighbor>) returns (q: seq<Neighbor>)
    requires Symmetric(adj) && EdgesInRange(adj) && IsWalk(adj, s, p)
    ensures IsWalk(adj, End(s, p), q) && End(End(s, p), q) == s && Length(q) == Length(p)
    decreases |p|
  {
    if p == [] {
      q := [];
    } else {
      var init := p[..|p| - 1];
      var e := p[|p| - 1];
      var x := End(s, init);
      var back := ReverseWalk(adj, s, init);
      var e' := Neighbor(x, e.weight);
      CountPositive(adj[x], e);
      CountPositive(adj[e.vertex], e');
      assert Count(adj[x], Neighbor(e.vertex, e.weight)) == Count(adj[e.vertex], e');
      WalkPrepend(adj, e.vertex, e', back);
      q := [e'] + back;
    }
  }

  /**
   * On a symmetric adjacency the shortest distance from s to t is the
   * shortest distance from t to s.
   */
  lemma ShortestSymmetric(adj: Adjacency, s: nat, t: nat, rs: seq<Dist>, rt: seq<Dist>)
    requires Symmetric(adj) && EdgesInRange(adj)
    requires ShortestFrom(adj, s, rs) && ShortestFrom(adj, t, rt)
    ensures rs[t] == rt[s]
  {
    if rs[t].Fin? {
      var p :| IsWalk(adj, s, p) && End(s, p) == t && Length(p) == rs[t].len;
      var q := ReverseWalk(adj, s, p);
      assert rt[End(t, q)].Fin? && rt[s].len <= rs[t].len;
    }
    if rt[s].Fin? {
      var p :| IsWalk(adj, t, p) && End(t, p) == s && Length(p) == rt[s].len;
      var q := ReverseWalk(adj, t, p);
      assert rs[End(s, q)].Fin? && rs[t].len <= rt[s].len;
    }
  }
}
