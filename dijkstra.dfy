/**
 * DijkstraAlgorithm: the graph metric. `load` builds an adjacency from the
 * mesh faces and `propagate` runs Dijkstra's algorithm over it.
 */
module Dijkstra {
  import opened Geometry
  import opened Mesh
  import opened Distance
  import opened PriorityQueue
  import opened Graph
  import opened Walks

  /** Number of unreached (sentinel) entries. */
  function InfCount(d: seq<Dist>): nat
  {
    if d == [] then 0 else InfCount(d[..|d| - 1]) + (if d[|d| - 1].Inf? then 1 else 0)
  }

  /** Sum of the finite entries. */
  function FinSum(d: seq<Dist>): nat
  {
    if d == [] then 0 else FinSum(d[..|d| - 1]) + (if d[|d| - 1].Fin? then d[|d| - 1].len else 0)
  }

  /** (InfCount, FinSum) of d is lexicographically below that of e. */
  predicate MeasureBelow(d: seq<Dist>, e: seq<Dist>)
  {
    InfCount(d) < InfCount(e) || (InfCount(d) == InfCount(e) && FinSum(d) < FinSum(e))
  }

  /** Lowering one entry lowers the measure: this is why propagate terminates. */
  lemma {:induction false} LowerMeasure(d: seq<Dist>, v: nat, x: Dist)
    requires v < |d| && Less(x, d[v])
    ensures MeasureBelow(d[v := x], d)
    decreases |d|
  {
    var last := |d| - 1;
    assert d[v := x][..last] == if v == last then d[..last] else d[..last][v := x];
    if v < last {
      LowerMeasure(d[..last], v, x);
    }
  }

  /** x's edges are relaxed, or x is still queued at its current distance. */
  predicate Covered(adj: Adjacency, d: seq<Dist>, q: multiset<Entry>, x: nat)
    requires x < |adj| && x < |d|
  {
    Entry(d[x], x) in q || Relaxed(adj, d, x, |adj[x]|)
  }

  /**
   * Invariant of propagate's main loop for a search from src whose queue was
   * seeded with vertex `seed`. Every finite entry has a walk; src stays at 0.
   * Seeded with src, every vertex is covered; seeded with another vertex, the
   * field is still the initial one and only sentinel entries are queued.
   */
  ghost predicate SearchInv(adj: Adjacency, src: nat, seed: nat, d: seq<Dist>, q: multiset<Entry>, walks: seq<seq<Neighbor>>)
  {
    |d| == |adj| && src < |adj| && d[src] == Fin(0) && EdgesInRange(adj) &&
    (forall e :: e in q ==> e.vertex < |adj|) &&
    Witnessed(adj, src, d, walks) &&
    (seed == src ==> forall x :: 0 <= x < |adj| ==> Covered(adj, d, q, x)) &&
    (seed != src ==> d == InitialField(|adj|, src) && forall e :: e in q ==> e.dist == Inf)
  }

  /** Invariant of the scan over u's list, after the first i entries. */
  ghost predicate ScanInv(adj: Adjacency, src: nat, seed: nat, d: seq<Dist>, q: multiset<Entry>, walks: seq<seq<Neighbor>>,
                          u: nat, uDist: Dist, i: nat)
  {
    |d| == |adj| && src < |adj| && d[src] == Fin(0) && EdgesInRange(adj) &&
    u < |adj| && i <= |adj[u]| && d[u] == uDist &&
    (forall e :: e in q ==> e.vertex < |adj|) &&
    Witnessed(adj, src, d, walks) &&
    (seed == src ==> (forall x :: 0 <= x < |adj| && x != u ==> Covered(adj, d, q, x)) && Relaxed(adj, d, u, i)) &&
    (seed != src ==> d == InitialField(|adj|, src) && uDist == Inf && forall e :: e in q ==> e.dist == Inf)
  }

  lemma SearchStarts(adj: Adjacency, src: nat, seed: nat)
    requires EdgesInRange(adj) && src < |adj| && seed < |adj|
    ensures var d := InitialField(|adj|, src);
      SearchInv(adj, src, seed, d, multiset{Entry(d[seed], seed)}, seq(|adj|, _ => []))
  {
    var d := InitialField(|adj|, src);
    var walks: seq<seq<Neighbor>> := seq(|adj|, _ => []);
    assert Length([]) == 0 && IsWalk(adj, src, []);
    forall x | 0 <= x < |adj| && seed == src
      ensures Covered(adj, d, multiset{Entry(d[seed], seed)}, x)
    {
      if x != src {
        assert forall i :: 0 <= i < |adj[x]| ==> Add(d[x], adj[x][i].weight) == Inf;
      }
    }
  }

  /** Relaxed edges stay relaxed when an entry other than x's own is lowered. */
  lemma RelaxedAfterLower(adj: Adjacency, d: seq<Dist>, x: nat, k: nat, v: nat, a: Dist)
    requires x < |adj| && x < |d| && k <= |adj[x]| && v < |d| && x != v && Less(a, d[v])
    requires Relaxed(adj, d, x, k)
    ensures Relaxed(adj, d[v := a], x, k)
  {
  }

  /** A popped entry that no longer matches its vertex's distance is dropped. */
  lemma PopStale(adj: Adjacency, src: nat, seed: nat, d: seq<Dist>, q: multiset<Entry>, walks: seq<seq<Neighbor>>, top: Entry)
    requires SearchInv(adj, src, seed, d, q, walks) && top in q && d[top.vertex] != top.dist
    ensures SearchInv(adj, src, seed, d, q - multiset{top}, walks)
  {
    var q' := q - multiset{top};
    forall x | 0 <= x < |adj| && seed == src
      ensures Covered(adj, d, q', x)
    {
      assert Covered(adj, d, q, x);
      if Entry(d[x], x) in q {
        assert Entry(d[x], x) != top;
      }
    }
  }

  /** A popped entry that matches its vertex's distance starts the scan of that vertex's list. */
  lemma PopFresh(adj: Adjacency, src: nat, seed: nat, d: seq<Dist>, q: multiset<Entry>, walks: seq<seq<Neighbor>>, top: Entry)
    requires SearchInv(adj, src, seed, d, q, walks) && top in q && d[top.vertex] == top.dist
    ensures ScanInv(adj, src, seed, d, q - multiset{top}, walks, top.vertex, top.dist, 0)
  {
    var q' := q - multiset{top};
    forall x | 0 <= x < |adj| && x != top.vertex && seed == src
      ensures Covered(adj, d, q', x)
    {
      assert Covered(adj, d, q, x);
      if Entry(d[x], x) in q {
        assert Entry(d[x], x) != top;
      }
    }
  }

  /** `alt < dist[v]`: v is lowered to alt, pushed, and its walk goes through u. */
  lemma ScanLowers(adj: Adjacency, src: nat, seed: nat, d: seq<Dist>, q: multiset<Entry>, walks: seq<seq<Neighbor>>,
                   u: nat, uDist: Dist, i: nat)
    requires ScanInv(adj, src, seed, d, q, walks, u, uDist, i) && i < |adj[u]|
    requires Less(Add(uDist, adj[u][i].weight), d[adj[u][i].vertex])
    ensures var e := adj[u][i];
      e.vertex != u && e.vertex != src &&
      ScanInv(adj, src, seed, d[e.vertex := Add(uDist, e.weight)], q + multiset{Entry(Add(uDist, e.weight), e.vertex)},
              walks[e.vertex := walks[u] + [e]], u, uDist, i + 1)
  {
    var e := adj[u][i];
    var v, alt := e.vertex, Add(uDist, e.weight);
    AddNotBelow(uDist, e.weight, d[v]);
    AddNotBelow(uDist, e.weight, d[u]);
    var d', q', walks' := d[v := alt], q + multiset{Entry(alt, v)}, walks[v := walks[u] + [e]];
    assert e in adj[u];
    WalkAppend(adj, src, walks[u], e);
    forall x | 0 <= x < |adj| && x != u && seed == src
      ensures Covered(adj, d', q', x)
    {
      if x == v {
        assert Entry(d'[x], x) in q';
      } else if Entry(d[x], x) in q {
        assert Entry(d'[x], x) in q';
      } else {
        assert Covered(adj, d, q, x);
        RelaxedAfterLower(adj, d, x, |adj[x]|, v, alt);
      }
    }
    if seed == src {
      RelaxedAfterLower(adj, d, u, i, v, alt);
    }
  }

  /** `alt >= dist[v]`: nothing changes, and edge i is relaxed. */
  lemma ScanKeeps(adj: Adjacency, src: nat, seed: nat, d: seq<Dist>, q: multiset<Entry>, walks: seq<seq<Neighbor>>,
                  u: nat, uDist: Dist, i: nat)
    requires ScanInv(adj, src, seed, d, q, walks, u, uDist, i) && i < |adj[u]|
    requires !Less(Add(uDist, adj[u][i].weight), d[adj[u][i].vertex])
    ensures ScanInv(adj, src, seed, d, q, walks, u, uDist, i + 1)
  {
  }

  /** A finished scan leaves u relaxed: the main-loop invariant holds again. */
  lemma ScanDone(adj: Adjacency, src: nat, seed: nat, d: seq<Dist>, q: multiset<Entry>, walks: seq<seq<Neighbor>>,
                 u: nat, uDist: Dist)
    requires u < |adj| && ScanInv(adj, src, seed, d, q, walks, u, uDist, |adj[u]|)
    ensures SearchInv(adj, src, seed, d, q, walks)
  {
  }

  /**
   * An empty queue ends the search: seeded with src, the field is the
   * shortest-path field from src; seeded otherwise, it is the initial one.
   */
  lemma SearchEnds(adj: Adjacency, src: nat, seed: nat, d: seq<Dist>, walks: seq<seq<Neighbor>>)
    requires SearchInv(adj, src, seed, d, multiset{}, walks)
    ensures seed == src ==> ShortestFrom(adj, src, d)
    ensures seed != src ==> d == InitialField(|adj|, src)
  {
    if seed == src {
      forall x | 0 <= x < |adj|
        ensures Relaxed(adj, d, x, |adj[x]|)
      {
        assert Covered(adj, d, multiset{}, x);
      }
      SettledIsShortest(adj, src, d, walks);
    }
  }

  /**
   * With src != 0 and an entry i of src's list that leads elsewhere (after any
   * number of self-loops from degenerate faces), the field propagate returns
   * is not the shortest-path field from src.
   */
  lemma SeedQuirkMisses(adj: Adjacency, src: nat, i: nat)
    requires 0 < src < |adj| && EdgesInRange(adj) && i < |adj[src]| && adj[src][i].vertex != src
    ensures !ShortestFrom(adj, src, InitialField(|adj|, src))
  {
    var e := adj[src][i];
    assert e in adj[src];
    WalkAppend(adj, src, [], e);
  }

  /**
   * Two vertices joined by one edge of length 5: from vertex 1 there is a walk
   * to vertex 0, but the as-written propagate(1) leaves vertex 0 at the sentinel.
   */
  lemma SeedQuirkCounterexample()
    ensures var adj := [[Neighbor(1, 5)], [Neighbor(0, 5)]];
      EdgesInRange(adj) && IsWalk(adj, 1, [Neighbor(0, 5)]) && End(1, [Neighbor(0, 5)]) == 0 &&
      InitialField(2, 1)[0] == Inf && !ShortestFrom(adj, 1, InitialField(2, 1))
  {
    var adj := [[Neighbor(1, 5)], [Neighbor(0, 5)]];
    assert [Neighbor(0, 5)][..0] == [];
    SeedQuirkMisses(adj, 1, 0);
  }

  /** The c-loop of `load`: `v[k][c] = attrib.vertices[3 * idx_k + c]` for c = 0, 1, 2. */
  method ReadCorners(a: seq<real>, i0: nat, i1: nat, i2: nat) returns (v0: Vec3, v1: Vec3, v2: Vec3)
    requires i0 < |a| / 3 && i1 < |a| / 3 && i2 < |a| / 3
    ensures v0 == Position(a, i0) && v1 == Position(a, i1) && v2 == Position(a, i2)
  {
    v0, v1, v2 := Zero, Zero, Zero;
    var c := 0;
    while c < 3
      invariant 0 <= c <= 3
      invariant forall k :: 0 <= k < c ==>
        Component(v0, k) == a[3 * i0 + k] && Component(v1, k) == a[3 * i1 + k] && Component(v2, k) == a[3 * i2 + k]
    {
      v0 := SetComponent(v0, c, a[3 * i0 + c]);
      v1 := SetComponent(v1, c, a[3 * i1 + c]);
      v2 := SetComponent(v2, c, a[3 * i2 + c]);
      c := c + 1;
    }
    assert Component(v0, 0) == v0.x && Component(v0, 1) == v0.y && Component(v0, 2) == v0.z;
    assert Component(v1, 0) == v1.x && Component(v1, 1) == v1.y && Component(v1, 2) == v1.z;
    assert Component(v2, 0) == v2.x && Component(v2, 1) == v2.y && Component(v2, 2) == v2.z;
  }

  /** Some entry (x, w) among the first i of u's list gives x the value dist[u] + w. */
  predicate LoweredVia(adj: Adjacency, u: nat, uDist: Dist, i: nat, x: nat, d: Dist)
    requires u < |adj| && i <= |adj[u]|
  {
    exists j :: 0 <= j < i && adj[u][j].vertex == x && d == Add(uDist, adj[u][j].weight)
  }

  /**
   * After scanning i entries of u's list, starting from field d0 and queue q0:
   * each changed entry of d is queued and comes from one of those entries, and
   * the queue has only gained entries of that kind.
   */
  predicate ScanChanges(adj: Adjacency, u: nat, uDist: Dist, i: nat, d0: seq<Dist>, d: seq<Dist>, q0: multiset<Entry>, q: multiset<Entry>)
    requires u < |adj| && i <= |adj[u]| && |d0| == |d|
  {
    (forall x :: 0 <= x < |d| && d[x] != d0[x] ==> Entry(d[x], x) in q && LoweredVia(adj, u, uDist, i, x, d[x])) &&
    q0 <= q && forall e :: e in q - q0 ==> LoweredVia(adj, u, uDist, i, e.vertex, e.dist)
  }

  /** Skipping entry i keeps the bookkeeping. */
  lemma ScanChangesKeep(adj: Adjacency, u: nat, uDist: Dist, i: nat, d0: seq<Dist>, d: seq<Dist>, q0: multiset<Entry>, q: multiset<Entry>)
    requires u < |adj| && i < |adj[u]| && |d0| == |d| && ScanChanges(adj, u, uDist, i, d0, d, q0, q)
    ensures ScanChanges(adj, u, uDist, i + 1, d0, d, q0, q)
  {
    forall x, dx | LoweredVia(adj, u, uDist, i, x, dx)
      ensures LoweredVia(adj, u, uDist, i + 1, x, dx)
    {
      var j :| 0 <= j < i && adj[u][j].vertex == x && dx == Add(uDist, adj[u][j].weight);
    }
  }

  /** Lowering v through entry i and pushing (alt, v) keeps the bookkeeping. */
  lemma ScanChangesLower(adj: Adjacency, u: nat, uDist: Dist, i: nat, d0: seq<Dist>, d: seq<Dist>, q0: multiset<Entry>, q: multiset<Entry>,
                         v: nat, alt: Dist)
    requires u < |adj| && i < |adj[u]| && |d0| == |d| && ScanChanges(adj, u, uDist, i, d0, d, q0, q)
    requires v < |d| && adj[u][i].vertex == v && alt == Add(uDist, adj[u][i].weight)
    ensures ScanChanges(adj, u, uDist, i + 1, d0, d[v := alt], q0, q + multiset{Entry(alt, v)})
  {
    ScanChangesKeep(adj, u, uDist, i, d0, d, q0, q);
    assert LoweredVia(adj, u, uDist, i + 1, v, alt);
    var q' := q + multiset{Entry(alt, v)};
    forall e | e in q' - q0
      ensures LoweredVia(adj, u, uDist, i + 1, e.vertex, e.dist)
    {
      if e != Entry(alt, v) {
        assert e in q - q0;
      }
    }
  }

  /**
   * Where the scan of u's list stands after i entries, started from field d0
   * and queue q0: the scan invariant holds, the field is unchanged or has a
   * lower measure, no entry went up, and ScanChanges bounds what changed.
   */
  ghost predicate ScanProgress(adj: Adjacency, src: nat, seed: nat, d0: seq<Dist>, q0: multiset<Entry>,
                               d: seq<Dist>, q: multiset<Entry>, walks: seq<seq<Neighbor>>, u: nat, uDist: Dist, i: nat)
  {
    u < |adj| && i <= |adj[u]| && |d0| == |d| &&
    ScanInv(adj, src, seed, d, q, walks, u, uDist, i) &&
    ((d == d0 && q == q0) || MeasureBelow(d, d0)) &&
    (forall k :: 0 <= k < |d| ==> LessEq(d[k], d0[k])) &&
    ScanChanges(adj, u, uDist, i, d0, d, q0, q)
  }

  /** Lowering v through entry i = (v, w) advances the scan by one entry. */
  lemma ProgressLower(adj: Adjacency, src: nat, seed: nat, d0: seq<Dist>, q0: multiset<Entry>,
                      d: seq<Dist>, q: multiset<Entry>, walks: seq<seq<Neighbor>>, u: nat, uDist: Dist, i: nat)
    requires u < |adj| && i < |adj[u]| && ScanProgress(adj, src, seed, d0, q0, d, q, walks, u, uDist, i)
    requires Less(Add(uDist, adj[u][i].weight), d[adj[u][i].vertex])
    ensures var v, alt := adj[u][i].vertex, Add(uDist, adj[u][i].weight);
      ScanProgress(adj, src, seed, d0, q0, d[v := alt], q + multiset{Entry(alt, v)}, walks[v := walks[u] + [adj[u][i]]], u, uDist, i + 1)
  {
    var v, alt := adj[u][i].vertex, Add(uDist, adj[u][i].weight);
    ScanLowers(adj, src, seed, d, q, walks, u, uDist, i);
    ScanChangesLower(adj, u, uDist, i, d0, d, q0, q, v, alt);
    LowerMeasure(d, v, alt);
  }

  /** Entry i = (v, w) with dist[u] + w not below dist[v] advances the scan with nothing changed. */
  lemma ProgressKeep(adj: Adjacency, src: nat, seed: nat, d0: seq<Dist>, q0: multiset<Entry>,
                     d: seq<Dist>, q: multiset<Entry>, walks: seq<seq<Neighbor>>, u: nat, uDist: Dist, i: nat)
    requires u < |adj| && i < |adj[u]| && ScanProgress(adj, src, seed, d0, q0, d, q, walks, u, uDist, i)
    requires !Less(Add(uDist, adj[u][i].weight), d[adj[u][i].vertex])
    ensures ScanProgress(adj, src, seed, d0, q0, d, q, walks, u, uDist, i + 1)
  {
    ScanKeeps(adj, src, seed, d, q, walks, u, uDist, i);
    ScanChangesKeep(adj, u, uDist, i, d0, d, q0, q);
  }

  /**
   * One pass of the inner loop of propagate on entry i = (v, w) of u's list:
   * alt = dist[u] + w, and when alt < dist[v], dist[v] becomes alt and
   * (alt, v) is pushed.
   */
  method RelaxEntry(adj: Adjacency, src: nat, seed: nat, dist: array<Dist>, ghost d0: seq<Dist>, ghost q0: multiset<Entry>,
                    queue: multiset<Entry>, ghost walks: seq<seq<Neighbor>>, u: nat, uDist: Dist, i: nat)
    returns (queue': multiset<Entry>, ghost walks': seq<seq<Neighbor>>)
    requires u < |adj| && i < |adj[u]| && ScanProgress(adj, src, seed, d0, q0, dist[..], queue, walks, u, uDist, i)
    modifies dist
    ensures ScanProgress(adj, src, seed, d0, q0, dist[..], queue', walks', u, uDist, i + 1)
    ensures var v := adj[u][i].vertex; var alt := Add(uDist, adj[u][i].weight);
      if Less(alt, old(dist[v])) then dist[..] == old(dist[..])[v := alt] && queue' == queue + multiset{Entry(alt, v)}
      else dist[..] == old(dist[..]) && queue' == queue
  {
    var v := adj[u][i].vertex;
    var alt := Add(uDist, adj[u][i].weight);
    if Less(alt, dist[v]) {
      ProgressLower(adj, src, seed, d0, q0, dist[..], queue, walks, u, uDist, i);
      dist[v] := alt;
      queue' := queue + multiset{Entry(alt, v)};
      walks' := walks[v := walks[u] + [adj[u][i]]];
    } else {
      ProgressKeep(adj, src, seed, d0, q0, dist[..], queue, walks, u, uDist, i);
      queue', walks' := queue, walks;
    }
  }

  /**
   * The inner loop of propagate: every entry (v, w) of u's list is relaxed,
   * and each v lowered to dist[u] + w is pushed. Only vertices named in u's
   * list change, each to dist[u] + w for one of its entries, and the queue
   * gains exactly such entries. The field never goes up: either nothing
   * changes or the termination measure drops.
   */
  method RelaxEdges(adj: Adjacency, src: nat, seed: nat, dist: array<Dist>, queue: multiset<Entry>, ghost walks: seq<seq<Neighbor>>,
                    u: nat, uDist: Dist)
    returns (queue': multiset<Entry>, ghost walks': seq<seq<Neighbor>>)
    requires u < |adj| && ScanInv(adj, src, seed, dist[..], queue, walks, u, uDist, 0)
    modifies dist
    ensures ScanInv(adj, src, seed, dist[..], queue', walks', u, uDist, |adj[u]|)
    ensures (dist[..] == old(dist[..]) && queue' == queue) || MeasureBelow(dist[..], old(dist[..]))
    ensures forall k :: 0 <= k < dist.Length ==> LessEq(dist[k], old(dist[k]))
    ensures forall x :: 0 <= x < dist.Length && dist[x] != old(dist[x]) ==>
      Entry(dist[x], x) in queue' && LoweredVia(adj, u, uDist, |adj[u]|, x, dist[x])
    ensures queue <= queue' && forall e :: e in queue' - queue ==> LoweredVia(adj, u, uDist, |adj[u]|, e.vertex, e.dist)
  {
    ghost var d0 := dist[..];
    queue', walks' := queue, walks;
    var i := 0;
    while i < |adj[u]|
      invariant i <= |adj[u]| && ScanProgress(adj, src, seed, d0, queue, dist[..], queue', walks', u, uDist, i)
      decreases |adj[u]| - i
    {
      queue', walks' := RelaxEntry(adj, src, seed, dist, d0, queue, queue', walks', u, uDist, i);
      i := i + 1;
    }
  }

  class DijkstraAlgorithm {
    /** adjacencies[u]: the (neighbour, weight) entries of vertex u, in insertion order. */
    var adjacencies: Adjacency

    /** Every neighbour names a vertex: what propagate needs to index dist safely. */
    ghost predicate Valid()
      reads this
    {
      EdgesInRange(adjacencies)
    }

    /** `DijkstraAlgorithm() : adjacencies() {}` */
    constructor ()
      ensures adjacencies == [] && Valid()
    {
      adjacencies := [];
    }

    /** addEdge(u, v, w): (v, w) is pushed onto u's list, then (u, w) onto v's. */
    method AddEdge(u: nat, v: nat, w: nat)
      requires u < |adjacencies| && v < |adjacencies|
      modifies this
      ensures adjacencies == WithEdge(old(adjacencies), u, v, w)
    {
      adjacencies := adjacencies[u := adjacencies[u] + [Neighbor(v, w)]];
      adjacencies := adjacencies[v := adjacencies[v] + [Neighbor(u, w)]];
    }

    /**
     * load(attrib, shapes): resize to |a|/3 lists, then three addEdge calls
     * per face of every shape. A load that does not shrink the adjacency
     * keeps it valid.
     */
    method Load(a: seq<real>, shapes: seq<Shape>, len: Vec3 -> nat)
      requires FacesValid(shapes, |a| / 3)
      modifies this
      ensures adjacencies == LoadedGraph(old(adjacencies), a, shapes, len)
      ensures old(Valid()) && old(|adjacencies|) <= |a| / 3 ==> Valid()
    {
      ghost var start := adjacencies;
      var numVerts := |a| / 3;
      adjacencies := Resize(adjacencies, numVerts);
      ghost var base := adjacencies;
      var s := 0;
      while s < |shapes|
        invariant 0 <= s <= |shapes| && |adjacencies| == numVerts
        invariant adjacencies == AddEdges(base, MeshCalls(a, shapes, s, len))
      {
        var shape := shapes[s];
        var numFaces := FaceCount(shape);
        ghost var mid := adjacencies;
        var f := 0;
        while f < numFaces
          invariant 0 <= f <= numFaces && |adjacencies| == numVerts
          invariant adjacencies == AddEdges(mid, ShapeCalls(a, shape, f, len))
        {
          var idx0, idx1, idx2 := shape.indices[3 * f], shape.indices[3 * f + 1], shape.indices[3 * f + 2];
          var v0, v1, v2 := ReadCorners(a, idx0 as nat, idx1 as nat, idx2 as nat);
          ghost var prev := adjacencies;
          ghost var face := FaceCalls(a, shape, f, len);
          FaceCallsAre(a, shape, f, len, idx0 as nat, idx1 as nat, idx2 as nat, v0, v1, v2);
          AddThreeEdges(prev, face);
          AddEdge(idx0 as nat, idx1 as nat, len(Sub(v1, v0)));
          AddEdge(idx0 as nat, idx2 as nat, len(Sub(v2, v0)));
          AddEdge(idx1 as nat, idx2 as nat, len(Sub(v2, v1)));
          ShapeCallsStep(mid, a, shape, f, len);
          f := f + 1;
        }
        MeshCallsStep(base, a, shapes, s, len);
        s := s + 1;
      }
      LoadedGraphGrows(start, a, shapes, len);
    }

    /**
     * The body of propagate(src) with the queue seeded by vertex `seed`:
     * dist starts at the sentinel everywhere but src, entries are popped
     * least first, stale ones skipped, and every edge out of a popped vertex
     * relaxed, pushing each lowered vertex.
     */
    method Search(src: nat, seed: nat) returns (r: seq<Dist>)
      requires Valid() && src < |adjacencies| && seed < |adjacencies|
      ensures |r| == |adjacencies| && r[src] == Fin(0)
      ensures seed == src ==> ShortestFrom(adjacencies, src, r)
      ensures seed != src ==> r == InitialField(|adjacencies|, src)
    {
      var adj := adjacencies;
      var n := |adj|;
      var dist := new Dist[n](_ => Inf);
      dist[src] := Fin(0);
      assert dist[..] == InitialField(n, src);
      var queue := multiset{Entry(dist[seed], seed)};
      ghost var walks: seq<seq<Neighbor>> := seq(n, _ => []);
      SearchStarts(adj, src, seed);
      while queue != multiset{}
        invariant SearchInv(adj, src, seed, dist[..], queue, walks)
        decreases InfCount(dist[..]), FinSum(dist[..]), |queue|
      {
        ghost var d0, q0 := dist[..], queue;
        var top, rest := PopMin(queue);
        queue := rest;
        var u, uDist := top.vertex, top.dist;
        if dist[u] != uDist {
          PopStale(adj, src, seed, d0, q0, walks, top);
          continue;
        }
        PopFresh(adj, src, seed, d0, q0, walks, top);
        queue, walks := RelaxEdges(adj, src, seed, dist, queue, walks, u, uDist);
        ScanDone(adj, src, seed, dist[..], queue, walks, u, uDist);
      }
      SearchEnds(adj, src, seed, dist[..], walks);
      r := dist[..];
    }

    /**
     * propagate(src) as written: the queue is seeded with (dist[0], 0), so
     * only a search from vertex 0 runs; from any other vertex the initial
     * field comes back unchanged.
     */
    method Propagate(src: nat) returns (r: seq<Dist>)
      requires Valid() && src < |adjacencies|
      ensures |r| == |adjacencies| && r[src] == Fin(0)
      ensures src == 0 ==> ShortestFrom(adjacencies, 0, r)
      ensures src != 0 ==> r == InitialField(|adjacencies|, src)
    {
      r := Search(src, 0);
    }

    /** propagate(src) with the queue seeded by (dist[src], src): the shortest-path field from src. */
    method PropagateFromSource(src: nat) returns (r: seq<Dist>)
      requires Valid() && src < |adjacencies|
      ensures ShortestFrom(adjacencies, src, r)
    {
      r := Search(src, src);
    }
  }
}
