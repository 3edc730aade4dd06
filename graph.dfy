/**
 * The adjacency structure DijkstraAlgorithm builds: one list of
 * (neighbour, weight) pairs per vertex, filled by `load` through `addEdge`.
 */
module Graph {
  import opened Geometry
  import opened Mesh

  /** A std::pair<size_t, float>: neighbour index and edge length. */
  datatype Neighbor = Neighbor(vertex: nat, weight: nat)

  type Adjacency = seq<seq<Neighbor>>

  /** `addEdge(u, v, w)`: push (v, w) onto u's list, then (u, w) onto v's list. */
  function WithEdge(adj: Adjacency, u: nat, v: nat, w: nat): (r: Adjacency)
    requires u < |adj| && v < |adj|
    ensures |r| == |adj|
  {
    var a := adj[u := adj[u] + [Neighbor(v, w)]];
    a[v := a[v] + [Neighbor(u, w)]]
  }

  /** `adjacencies.resize(n)`: truncate to n lists, or pad with empty ones. */
  function Resize(adj: Adjacency, n: nat): (r: Adjacency)
    ensures |r| == n
    ensures forall u :: 0 <= u < n ==> r[u] == if u < |adj| then adj[u] else []
  {
    if n <= |adj| then adj[..n] else adj + seq(n - |adj|, _ => [])
  }

  /** One `addEdge(u, v, w)` call made by `load`. */
  datatype EdgeCall = EdgeCall(u: nat, v: nat, w: nat)

  /** Both endpoints of every call name one of the n lists. */
  predicate CallsInRange(es: seq<EdgeCall>, n: nat)
  {
    forall i :: 0 <= i < |es| ==> es[i].u < n && es[i].v < n
  }

  /** Every call weighs the length of ps[v] - ps[u]. */
  ghost predicate CallsAreLengths(es: seq<EdgeCall>, ps: seq<Vec3>, len: Vec3 -> nat)
  {
    forall i :: 0 <= i < |es| ==> es[i].u < |ps| && es[i].v < |ps| && es[i].w == len(Sub(ps[es[i].v], ps[es[i].u]))
  }

  lemma CallsConcat(es1: seq<EdgeCall>, es2: seq<EdgeCall>, ps: seq<Vec3>, len: Vec3 -> nat)
    requires CallsInRange(es1, |ps|) && CallsAreLengths(es1, ps, len)
    requires CallsInRange(es2, |ps|) && CallsAreLengths(es2, ps, len)
    ensures CallsInRange(es1 + es2, |ps|) && CallsAreLengths(es1 + es2, ps, len)
  {
    forall i | 0 <= i < |es1 + es2|
      ensures (es1 + es2)[i] == if i < |es1| then es1[i] else es2[i - |es1|]
    {
    }
  }

  /**
   * The calls for face f: corners i0, i1, i2 are read from indices
   * 3f, 3f+1, 3f+2, and the edges (i0, i1), (i0, i2), (i1, i2) are added,
   * each weighted by the length of the difference of its corner positions.
   */
  function FaceCalls(a: seq<real>, shape: Shape, f: nat, len: Vec3 -> nat): (es: seq<EdgeCall>)
    requires ShapeValid(shape, |a| / 3) && f < FaceCount(shape)
    ensures |es| == 3 && CallsInRange(es, |a| / 3) && CallsAreLengths(es, Positions(a), len)
  {
    var n := |a| / 3;
    var i0, i1, i2 := Corner(shape, f, 0, n), Corner(shape, f, 1, n), Corner(shape, f, 2, n);
    var v0, v1, v2 := Position(a, i0), Position(a, i1), Position(a, i2);
    [EdgeCall(i0, i1, len(Sub(v1, v0))), EdgeCall(i0, i2, len(Sub(v2, v0))), EdgeCall(i1, i2, len(Sub(v2, v1)))]
  }

  /** The calls for faces 0 .. f-1 of one shape, in order. */
  function ShapeCalls(a: seq<real>, shape: Shape, f: nat, len: Vec3 -> nat): (es: seq<EdgeCall>)
    requires ShapeValid(shape, |a| / 3) && f <= FaceCount(shape)
    ensures |es| == 3 * f && CallsInRange(es, |a| / 3) && CallsAreLengths(es, Positions(a), len)
  {
    if f == 0 then []
    else
      var init, face := ShapeCalls(a, shape, f - 1, len), FaceCalls(a, shape, f - 1, len);
      CallsConcat(init, face, Positions(a), len);
      init + face
  }

  /** The calls for every face of shapes 0 .. s-1, in order. */
  function MeshCalls(a: seq<real>, shapes: seq<Shape>, s: nat, len: Vec3 -> nat): (es: seq<EdgeCall>)
    requires FacesValid(shapes, |a| / 3) && s <= |shapes|
    ensures |es| == 3 * TotalFaces(shapes, s) && CallsInRange(es, |a| / 3) && CallsAreLengths(es, Positions(a), len)
  {
    if s == 0 then []
    else
      var init, shape := MeshCalls(a, shapes, s - 1, len), ShapeCalls(a, shapes[s - 1], FaceCount(shapes[s - 1]), len);
      CallsConcat(init, shape, Positions(a), len);
      init + shape
  }

  /** The calls es applied to adj in order. */
  function AddEdges(adj: Adjacency, es: seq<EdgeCall>): (r: Adjacency)
    requires CallsInRange(es, |adj|)
    ensures |r| == |adj|
  {
    if es == [] then adj
    else
      var last := es[|es| - 1];
      WithEdge(AddEdges(adj, es[..|es| - 1]), last.u, last.v, last.w)
  }

  /** The adjacency `load(attrib, shapes)` leaves behind, starting from `adj`. */
  function LoadedGraph(adj: Adjacency, a: seq<real>, shapes: seq<Shape>, len: Vec3 -> nat): (r: Adjacency)
    requires FacesValid(shapes, |a| / 3)
    ensures |r| == |a| / 3
  {
    AddEdges(Resize(adj, |a| / 3), MeshCalls(a, shapes, |shapes|, len))
  }

  /** Number of (neighbour, weight) entries over all lists. */
  function TotalEntries(adj: Adjacency): nat
  {
    if adj == [] then 0 else TotalEntries(adj[..|adj| - 1]) + |adj[|adj| - 1]|
  }

  /** Every neighbour names a vertex of the graph. */
  ghost predicate EdgesInRange(adj: Adjacency)
  {
    forall u, i :: 0 <= u < |adj| && 0 <= i < |adj[u]| ==> adj[u][i].vertex < |adj|
  }

  /** How often e occurs in l. */
  function Count(l: seq<Neighbor>, e: Neighbor): nat
  {
    if l == [] then 0 else Count(l[..|l| - 1], e) + (if l[|l| - 1] == e then 1 else 0)
  }

  /** (v, w) occurs in u's list exactly as often as (u, w) occurs in v's list. */
  ghost predicate Symmetric(adj: Adjacency)
  {
    forall u, v, w: nat :: 0 <= u < |adj| && 0 <= v < |adj| ==>
      Count(adj[u], Neighbor(v, w)) == Count(adj[v], Neighbor(u, w))
  }

  /** Every edge u -> v weighs the length of ps[v] - ps[u]. */
  ghost predicate WeightsAreLengths(adj: Adjacency, ps: seq<Vec3>, len: Vec3 -> nat)
  {
    |adj| == |ps| &&
    forall u, i :: 0 <= u < |adj| && 0 <= i < |adj[u]| ==>
      adj[u][i].vertex < |ps| && adj[u][i].weight == len(Sub(ps[adj[u][i].vertex], ps[u]))
  }

  /** r is adj with k entries appended at the ends of its lists. */
  ghost predicate Grows(adj: Adjacency, r: Adjacency, k: nat)
  {
    |r| == |adj| &&
    (forall u :: 0 <= u < |adj| ==> adj[u] <= r[u]) &&
    TotalEntries(r) == TotalEntries(adj) + k
  }

  lemma {:induction false} TotalEntriesUpdate(adj: Adjacency, x: nat, l: seq<Neighbor>)
    requires x < |adj|
    ensures TotalEntries(adj[x := l]) + |adj[x]| == TotalEntries(adj) + |l|
    decreases |adj|
  {
    var last := |adj| - 1;
    assert adj[x := l][..last] == if x == last then adj[..last] else adj[..last][x := l];
    if x < last {
      TotalEntriesUpdate(adj[..last], x, l);
    }
  }

  /** The entries addEdge(e.u, e.v, e.w) pushes onto x's list. */
  function Pushed(e: EdgeCall, x: nat): seq<Neighbor>
  {
    (if x == e.u then [Neighbor(e.v, e.w)] else []) + (if x == e.v then [Neighbor(e.u, e.w)] else [])
  }

  /** addEdge appends (v, w) to u's list and (u, w) to v's list, and changes nothing else. */
  lemma WithEdgeAppends(adj: Adjacency, u: nat, v: nat, w: nat)
    requires u < |adj| && v < |adj|
    ensures forall x :: 0 <= x < |adj| ==> WithEdge(adj, u, v, w)[x] == adj[x] + Pushed(EdgeCall(u, v, w), x)
  {
  }

  lemma CountAppend(l: seq<Neighbor>, x: Neighbor, e: Neighbor)
    ensures Count(l + [x], e) == Count(l, e) + (if x == e then 1 else 0)
  {
    assert (l + [x])[..|l|] == l;
  }

  lemma {:induction false} CountPositive(l: seq<Neighbor>, e: Neighbor)
    ensures Count(l, e) > 0 <==> e in l
    decreases |l|
  {
    if l != [] {
      var init := l[..|l| - 1];
      CountPositive(init, e);
      assert l == init + [l[|l| - 1]];
    }
  }

  /** The multiplicity of one entry in a list after addEdge. */
  lemma WithEdgeCount(adj: Adjacency, u: nat, v: nat, w: nat, x: nat, e: Neighbor)
    requires u < |adj| && v < |adj| && x < |adj|
    ensures Count(WithEdge(adj, u, v, w)[x], e) ==
      Count(adj[x], e)
        + (if x == u && e == Neighbor(v, w) then 1 else 0)
        + (if x == v && e == Neighbor(u, w) then 1 else 0)
  {
    WithEdgeAppends(adj, u, v, w);
    var mid := adj[x] + (if x == u then [Neighbor(v, w)] else []);
    if x == u {
      CountAppend(adj[x], Neighbor(v, w), e);
    }
    if x == v {
      CountAppend(mid, Neighbor(u, w), e);
    }
  }

  lemma WithEdgeSymmetric(adj: Adjacency, u: nat, v: nat, w: nat)
    requires u < |adj| && v < |adj| && Symmetric(adj)
    ensures Symmetric(WithEdge(adj, u, v, w))
  {
    var r := WithEdge(adj, u, v, w);
    forall x: nat, y: nat, w': nat | x < |r| && y < |r|
      ensures Count(r[x], Neighbor(y, w')) == Count(r[y], Neighbor(x, w'))
    {
      WithEdgeCount(adj, u, v, w, x, Neighbor(y, w'));
      WithEdgeCount(adj, u, v, w, y, Neighbor(x, w'));
    }
  }

  lemma WithEdgeInRange(adj: Adjacency, u: nat, v: nat, w: nat)
    requires u < |adj| && v < |adj| && EdgesInRange(adj)
    ensures EdgesInRange(WithEdge(adj, u, v, w))
  {
    WithEdgeAppends(adj, u, v, w);
  }

  lemma WithEdgeWeights(adj: Adjacency, u: nat, v: nat, ps: seq<Vec3>, len: Vec3 -> nat)
    requires u < |adj| && v < |adj| && IsNorm(len) && WeightsAreLengths(adj, ps, len)
    ensures WeightsAreLengths(WithEdge(adj, u, v, len(Sub(ps[v], ps[u]))), ps, len)
  {
    var w := len(Sub(ps[v], ps[u]));
    var r: Adjacency := WithEdge(adj, u, v, w);
    WithEdgeAppends(adj, u, v, w);
    assert len(Sub(ps[u], ps[v])) == w;
    forall x: int, i: int | 0 <= x < |r| && 0 <= i < |r[x]|
      ensures r[x][i].vertex < |ps| && r[x][i].weight == len(Sub(ps[r[x][i].vertex], ps[x]))
    {
      if i >= |adj[x]| {
        assert r[x][i] == Neighbor(v, w) || r[x][i] == Neighbor(u, w);
      } else {
        assert r[x][i] == adj[x][i];
      }
    }
  }

  lemma WithEdgeGrows(adj: Adjacency, u: nat, v: nat, w: nat)
    requires u < |adj| && v < |adj|
    ensures Grows(adj, WithEdge(adj, u, v, w), 2)
  {
    var a1 := adj[u := adj[u] + [Neighbor(v, w)]];
    WithEdgeAppends(adj, u, v, w);
    TotalEntriesUpdate(adj, u, adj[u] + [Neighbor(v, w)]);
    TotalEntriesUpdate(a1, v, a1[v] + [Neighbor(u, w)]);
  }

  /** Applying es1 + es2 is applying es1, then es2. */
  lemma {:induction false} AddEdgesAppend(adj: Adjacency, es1: seq<EdgeCall>, es2: seq<EdgeCall>)
    requires CallsInRange(es1 + es2, |adj|)
    ensures CallsInRange(es1, |adj|) && CallsInRange(es2, |adj|)
    ensures AddEdges(adj, es1 + es2) == AddEdges(AddEdges(adj, es1), es2)
    decreases |es2|
  {
    assert forall i :: 0 <= i < |es1| ==> (es1 + es2)[i] == es1[i];
    assert forall i :: 0 <= i < |es2| ==> (es1 + es2)[|es1| + i] == es2[i];
    if es2 != [] {
      var init := es2[..|es2| - 1];
      assert (es1 + es2)[..|es1 + es2| - 1] == es1 + init;
      AddEdgesAppend(adj, es1, init);
    } else {
      assert es1 + es2 == es1;
    }
  }

  lemma {:induction false} AddEdgesGrows(adj: Adjacency, es: seq<EdgeCall>)
    requires CallsInRange(es, |adj|)
    ensures Grows(adj, AddEdges(adj, es), 2 * |es|)
    decreases |es|
  {
    if es != [] {
      var prev := AddEdges(adj, es[..|es| - 1]);
      var last := es[|es| - 1];
      AddEdgesGrows(adj, es[..|es| - 1]);
      WithEdgeGrows(prev, last.u, last.v, last.w);
      forall u | 0 <= u < |adj|
        ensures adj[u] <= AddEdges(adj, es)[u]
      {
        assert adj[u] <= prev[u] && prev[u] <= AddEdges(adj, es)[u];
      }
    }
  }

  lemma {:induction false} AddEdgesSymmetric(adj: Adjacency, es: seq<EdgeCall>)
    requires CallsInRange(es, |adj|) && Symmetric(adj)
    ensures Symmetric(AddEdges(adj, es))
    decreases |es|
  {
    if es != [] {
      var last := es[|es| - 1];
      AddEdgesSymmetric(adj, es[..|es| - 1]);
      WithEdgeSymmetric(AddEdges(adj, es[..|es| - 1]), last.u, last.v, last.w);
    }
  }

  lemma {:induction false} AddEdgesInRange(adj: Adjacency, es: seq<EdgeCall>)
    requires CallsInRange(es, |adj|) && EdgesInRange(adj)
    ensures EdgesInRange(AddEdges(adj, es))
    decreases |es|
  {
    if es != [] {
      var last := es[|es| - 1];
      AddEdgesInRange(adj, es[..|es| - 1]);
      WithEdgeInRange(AddEdges(adj, es[..|es| - 1]), last.u, last.v, last.w);
    }
  }

  lemma {:induction false} AddEdgesWeights(adj: Adjacency, es: seq<EdgeCall>, ps: seq<Vec3>, len: Vec3 -> nat)
    requires CallsInRange(es, |adj|) && CallsAreLengths(es, ps, len)
    requires IsNorm(len) && WeightsAreLengths(adj, ps, len)
    ensures WeightsAreLengths(AddEdges(adj, es), ps, len)
    decreases |es|
  {
    if es != [] {
      var last := es[|es| - 1];
      AddEdgesWeights(adj, es[..|es| - 1], ps, len);
      WithEdgeWeights(AddEdges(adj, es[..|es| - 1]), last.u, last.v, ps, len);
    }
  }

  /** The calls of face f, given its corner indices and corner positions. */
  lemma FaceCallsAre(a: seq<real>, shape: Shape, f: nat, len: Vec3 -> nat, i0: nat, i1: nat, i2: nat, v0: Vec3, v1: Vec3, v2: Vec3)
    requires ShapeValid(shape, |a| / 3) && f < FaceCount(shape)
    requires i0 == shape.indices[3 * f] && i1 == shape.indices[3 * f + 1] && i2 == shape.indices[3 * f + 2]
    requires i0 < |a| / 3 && i1 < |a| / 3 && i2 < |a| / 3
    requires v0 == Position(a, i0) && v1 == Position(a, i1) && v2 == Position(a, i2)
    ensures FaceCalls(a, shape, f, len) ==
      [EdgeCall(i0, i1, len(Sub(v1, v0))), EdgeCall(i0, i2, len(Sub(v2, v0))), EdgeCall(i1, i2, len(Sub(v2, v1)))]
  {
  }

  /** One more face of a shape is its three calls applied after the earlier faces'. */
  lemma ShapeCallsStep(adj: Adjacency, a: seq<real>, shape: Shape, f: nat, len: Vec3 -> nat)
    requires |adj| == |a| / 3 && ShapeValid(shape, |a| / 3) && f < FaceCount(shape)
    ensures AddEdges(adj, ShapeCalls(a, shape, f + 1, len)) ==
      AddEdges(AddEdges(adj, ShapeCalls(a, shape, f, len)), FaceCalls(a, shape, f, len))
  {
    assert ShapeCalls(a, shape, f + 1, len) == ShapeCalls(a, shape, f, len) + FaceCalls(a, shape, f, len);
    AddEdgesAppend(adj, ShapeCalls(a, shape, f, len), FaceCalls(a, shape, f, len));
  }

  /** One more shape is its faces' calls applied after the earlier shapes'. */
  lemma MeshCallsStep(adj: Adjacency, a: seq<real>, shapes: seq<Shape>, s: nat, len: Vec3 -> nat)
    requires |adj| == |a| / 3 && FacesValid(shapes, |a| / 3) && s < |shapes|
    ensures AddEdges(adj, MeshCalls(a, shapes, s + 1, len)) ==
      AddEdges(AddEdges(adj, MeshCalls(a, shapes, s, len)), ShapeCalls(a, shapes[s], FaceCount(shapes[s]), len))
  {
    var shape := ShapeCalls(a, shapes[s], FaceCount(shapes[s]), len);
    assert MeshCalls(a, shapes, s + 1, len) == MeshCalls(a, shapes, s, len) + shape;
    AddEdgesAppend(adj, MeshCalls(a, shapes, s, len), shape);
  }

  /** A face's three calls are three `addEdge` steps, in order. */
  lemma AddThreeEdges(adj: Adjacency, es: seq<EdgeCall>)
    requires |es| == 3 && CallsInRange(es, |adj|)
    ensures AddEdges(adj, es) ==
      WithEdge(WithEdge(WithEdge(adj, es[0].u, es[0].v, es[0].w), es[1].u, es[1].v, es[1].w), es[2].u, es[2].v, es[2].w)
  {
    var p1, p2 := es[..1], es[..2];
    assert p1[..0] == [];
    assert AddEdges(adj, p1) == WithEdge(adj, es[0].u, es[0].v, es[0].w);
    assert p2[..1] == p1;
    assert AddEdges(adj, p2) == WithEdge(AddEdges(adj, p1), es[1].u, es[1].v, es[1].w);
    assert es[..2] == p2;
  }

  /**
   * A face's three calls append, to each list, the entries its corners
   * receive in call order, and nothing to a list that is not a corner.
   */
  lemma FaceAppends(adj: Adjacency, es: seq<EdgeCall>)
    requires |es| == 3 && CallsInRange(es, |adj|)
    ensures forall x :: 0 <= x < |adj| ==>
      AddEdges(adj, es)[x] == adj[x] + Pushed(es[0], x) + Pushed(es[1], x) + Pushed(es[2], x)
  {
    var a1 := WithEdge(adj, es[0].u, es[0].v, es[0].w);
    var a2 := WithEdge(a1, es[1].u, es[1].v, es[1].w);
    AddThreeEdges(adj, es);
    WithEdgeAppends(adj, es[0].u, es[0].v, es[0].w);
    WithEdgeAppends(a1, es[1].u, es[1].v, es[1].w);
    WithEdgeAppends(a2, es[2].u, es[2].v, es[2].w);
  }

  lemma ResizeKeeps(adj: Adjacency, n: nat)
    ensures Symmetric(adj) && (n <= |adj| || EdgesInRange(adj)) ==> Symmetric(Resize(adj, n))
    ensures EdgesInRange(adj) && |adj| <= n ==> EdgesInRange(Resize(adj, n))
  {
    var r := Resize(adj, n);
    if Symmetric(adj) && (n <= |adj| || EdgesInRange(adj)) {
      forall u: nat, v: nat, w: nat | u < n && v < n
        ensures Count(r[u], Neighbor(v, w)) == Count(r[v], Neighbor(u, w))
      {
        if u < |adj| && v >= |adj| {
          assert Neighbor(v, w) !in adj[u];
          CountPositive(adj[u], Neighbor(v, w));
        } else if v < |adj| && u >= |adj| {
          assert Neighbor(u, w) !in adj[v];
          CountPositive(adj[v], Neighbor(u, w));
        }
      }
    }
  }

  lemma {:induction false} TotalEntriesOfEmpty(adj: Adjacency)
    requires forall u :: 0 <= u < |adj| ==> adj[u] == []
    ensures TotalEntries(adj) == 0
    decreases |adj|
  {
    if adj != [] {
      TotalEntriesOfEmpty(adj[..|adj| - 1]);
    }
  }

  /**
   * What `load` does to the adjacency it starts from: exactly |a|/3 lists;
   * the old lists that survive the resize are prefixes of the new ones
   * (nothing is cleared); six entries per face are added; symmetry and
   * in-range neighbours carry over (when the resize drops no list that an
   * entry still names).
   */
  lemma LoadedGraphGrows(adj: Adjacency, a: seq<real>, shapes: seq<Shape>, len: Vec3 -> nat)
    requires FacesValid(shapes, |a| / 3)
    ensures var r := LoadedGraph(adj, a, shapes, len);
      |r| == |a| / 3 &&
      (forall u :: 0 <= u < |adj| && u < |a| / 3 ==> adj[u] <= r[u]) &&
      TotalEntries(r) == TotalEntries(Resize(adj, |a| / 3)) + 6 * TotalFaces(shapes, |shapes|) &&
      (Symmetric(adj) && (|a| / 3 <= |adj| || EdgesInRange(adj)) ==> Symmetric(r)) &&
      (EdgesInRange(adj) && |adj| <= |a| / 3 ==> EdgesInRange(r))
  {
    var n := |a| / 3;
    var base := Resize(adj, n);
    var es := MeshCalls(a, shapes, |shapes|, len);
    ResizeKeeps(adj, n);
    AddEdgesGrows(base, es);
    if Symmetric(base) {
      AddEdgesSymmetric(base, es);
    }
    if EdgesInRange(adj) && |adj| <= n {
      AddEdgesInRange(base, es);
    }
  }

  /**
   * A load into an empty adjacency builds a symmetric graph whose neighbours
   * are in range, whose weights are corner distances, and which holds six
   * entries per face.
   */
  lemma FreshLoadWellFormed(a: seq<real>, shapes: seq<Shape>, len: Vec3 -> nat)
    requires FacesValid(shapes, |a| / 3)
    ensures var r := LoadedGraph([], a, shapes, len);
      |r| == |a| / 3 && Symmetric(r) && EdgesInRange(r) && TotalEntries(r) == 6 * TotalFaces(shapes, |shapes|) &&
      (IsNorm(len) ==> WeightsAreLengths(r, Positions(a), len))
  {
    var base := Resize([], |a| / 3);
    var es := MeshCalls(a, shapes, |shapes|, len);
    TotalEntriesOfEmpty(base);
    AddEdgesGrows(base, es);
    AddEdgesSymmetric(base, es);
    AddEdgesInRange(base, es);
    if IsNorm(len) {
      AddEdgesWeights(base, es, Positions(a), len);
    }
  }
}
