# Distance propagation on a triangle mesh

This project models the distance engine of the geodesics viewer. The engine
has two metrics behind the same `load` / `propagate` pair:

- **`DijkstraAlgorithm`** (`distance_dijkstra.h`) is the graph metric.
  - `load` turns the mesh's triangles into an adjacency list: one list of `(neighbour, weight)` entries per vertex.
  - Each face adds its three edges through `addEdge`, which pushes both directions.
  - `propagate(src)` runs Dijkstra's algorithm with a lazy-deletion min-priority queue. It returns one distance per vertex.
- **`WorldSpaceAlgorithm`** (`distance_world_space.h`) is the direct metric.
  - `load` copies the flat coordinate array into vertex positions.
  - `propagate(src)` fills a field with the straight-line length from the source to each vertex.

A distance is `Fin(n)` or `Inf`. `Inf` stands for the sentinel `std::numeric_limits<float>::max()`, and adding an edge length to it leaves it unchanged. Lengths are natural numbers. `glm::length` is a parameter `len`, and the lemmas that need it state its properties:

- `IsNorm`: the zero vector has length 0 and `len(p - q) == len(q - p)`;
- `TriangleInequality`.

The priority queue is a multiset of `(distance, vertex)` entries. Popping it removes the lexicographically least entry, as `std::greater<std::pair<float, size_t>>` orders them.

Modules follow the program: `Geometry` (vectors and the length), `Mesh` (the loaded shapes), `Distance`, `PriorityQueue`, `Graph` (the adjacency and what `load` appends to it), `Walks` (shortest-path fields), `Dijkstra`, `WorldSpace`, and `Metrics` (how the two metrics compare).

`load` is specified by the sequence of `addEdge` calls it makes. `MeshCalls` lists them in loop order, and `AddEdges` applies them one after another. `LoadedGraph` is "resize, then apply those calls". The class method `Load` is proved to leave exactly that adjacency.

`propagate`'s loop is `Search(src, seed)`, where `seed` is the vertex whose entry starts the queue. The loop keeps three facts:

- every finite distance is the length of a walk from `src`, kept in a ghost list of walks;
- `src` stays at 0;
- when seeded with `src`, every vertex is covered: its edges are relaxed, or it is still queued at its current distance.

On an empty queue all edges are relaxed, and `SettledIsShortest` turns that into `ShortestFrom`: each finite entry is the length of some walk from the source, and no walk is shorter than the entry where it ends. Termination uses the lexicographic measure (number of sentinels, sum of finite entries, queue size).

In several places the code does not do what a caller would expect. The model follows the code:

- Dijkstra's algorithm seeds the queue with the source. The code seeds it with vertex 0 (`distance_dijkstra.h:48`); see Findings.
- A caller might expect the errors `NotLoaded`, `InvalidVertex` and `MalformedTopology`: propagating before any load, a source out of range, and face indices out of range. The code checks none of them, and indexing out of range is undefined behaviour. So the model has preconditions instead of error results:
  - `src` must be below the vertex count, which an un-loaded object cannot meet;
  - face indices must be in range (`FacesValid`).
- `resize(numVerts)` sets the vertex count to exactly `|attrib.vertices| / 3`. It pads with empty lists or truncates, and never clears the lists it keeps. So a second `load` adds to the earlier edges. When the second load has fewer vertices, kept lists can still name dropped vertices. That is why `Propagate` requires `Valid()` (every neighbour is in range), and why `Load` promises `Valid()` only when the count does not shrink.
- `WorldSpaceAlgorithm::load` appends (`reserve` plus `push_back`), so a second load stores both meshes' vertices.

## Model

| member | source | states |
|---|---|---|
| Geometry.Sub | distance_dijkstra.h:35-37 | the glm::vec3 difference (`v[1] - v[0]` for the edge lengths; `v - vertices[i]` at distance_world_space.h:31), on reals: each component is the difference of the components |
| Geometry.Component | distance_dijkstra.h:30-32 | the component read `v[c]`: c = 0, 1, 2 select x, y, z |
| Geometry.Position | distance_world_space.h:19-23 | vertex i of the flat array is the triple whose component c is a[3i + c]; the same read as distance_dijkstra.h:30-32 |
| Geometry.SetComponent | distance_dijkstra.h:30-32 | writing component c of a vector sets that component and keeps the other two |
| Geometry.Positions | distance_world_space.h:14-24 | the flat array packs into floor(|a|/3) vertices, and vertex i is (a[3i], a[3i+1], a[3i+2]) |
| Mesh.FaceCount | distance_dijkstra.h:21 | a shape's face count is the size of its num_face_vertices list, as numFaces is read |
| Mesh.Corner | distance_dijkstra.h:24-26 | corner k of face f is read from indices[3f+k] and names a vertex below the vertex count |
| Distance.Add | distance_dijkstra.h:59 | `u_dist + w`: the sum is the sentinel exactly when u_dist is the sentinel; the finite case is stated by AddNotBelow |
| Distance.Less | distance_dijkstra.h:61 | `alt < dist[v]`: only a finite value can be below another, and every finite value is below the sentinel |
| Distance.InitialField | distance_dijkstra.h:44-45 | the initial field has one entry per vertex, 0 at src and the sentinel everywhere else |
| Distance.AddNotBelow | distance_dijkstra.h:59 | u_dist + w is never below u_dist; a sum that beats some distance comes from a finite u_dist and is finite |
| PriorityQueue.EntryLe | distance_dijkstra.h:47 | the `std::greater<std::pair>` order: entries with different distances compare by distance, entries with equal distances by vertex |
| PriorityQueue.EntryLeTotal | distance_dijkstra.h:43-47 | the pair order (distance, then vertex) is total, transitive and antisymmetric |
| PriorityQueue.LeastExists | distance_dijkstra.h:51 | every non-empty queue has an entry no other entry is below |
| PriorityQueue.LeastUnique | distance_dijkstra.h:51 | that least entry is unique, so top() depends only on the queue's contents |
| PriorityQueue.PopMin | distance_dijkstra.h:51-54 | top() is the least entry, and pop() removes exactly one copy of it |
| Graph.WithEdge | distance_dijkstra.h:72-75 | `addEdge(u, v, w)` as a value: the lists after the two pushes, with the count unchanged (its contents are stated by WithEdgeAppends) |
| Graph.Resize | distance_dijkstra.h:17 | after resize(n) there are exactly n lists: list u is unchanged for u below the old count and empty above it |
| Graph.WithEdgeAppends | distance_dijkstra.h:72-75 | addEdge(u, v, w) appends to each list x exactly Pushed(x): (v, w) when x is u, then (u, w) when x is v, and nothing to other lists |
| Graph.WithEdgeCount | distance_dijkstra.h:72-75 | after addEdge, an entry's count in a list rises by one for each of the two pushes that add it |
| Graph.WithEdgeSymmetric | distance_dijkstra.h:72-75 | addEdge keeps the adjacency symmetric as a multiset: count of (v, w) in u's list equals count of (u, w) in v's |
| Graph.WithEdgeInRange | distance_dijkstra.h:72-75 | addEdge on in-range endpoints keeps every neighbour in range |
| Graph.WithEdgeWeights | distance_dijkstra.h:35-37 | an edge weighted by the length between its endpoints keeps "every weight is the length between its ends" true in both directions, under the norm axioms |
| Graph.WithEdgeGrows | distance_dijkstra.h:72-75 | addEdge extends lists only at their ends and adds exactly two entries |
| Graph.CallsConcat | distance_dijkstra.h:19-39 | joining two in-range, length-weighted call lists gives an in-range, length-weighted list |
| Graph.FaceCalls | distance_dijkstra.h:24-37 | a face makes three calls, whose endpoints are in range and whose weights are lengths between corner positions |
| Graph.FaceCallsAre | distance_dijkstra.h:24-37 | proof step for Load, unfolding FaceCalls: the calls of face f are (i0,i1), (i0,i2), (i1,i2), in that order, with i_k = indices[3f+k] and weights the lengths between the corners |
| Graph.ShapeCalls | distance_dijkstra.h:23-38 | the faces of one shape make three calls per face, all in range and length-weighted |
| Graph.MeshCalls | distance_dijkstra.h:19-39 | all shapes together make 3 × (total faces) calls, all in range and length-weighted |
| Graph.AddEdges | distance_dijkstra.h:35-37 | a list of addEdge calls applied in order, keeping the number of lists |
| Graph.LoadedGraph | distance_dijkstra.h:15-40 | the adjacency `load` leaves: resize to floor(|a|/3) lists, then every face's calls in loop order (its properties are stated by LoadedGraphGrows and FreshLoadWellFormed) |
| Graph.AddEdgesAppend | distance_dijkstra.h:19-39 | applying two call lists in sequence is applying their concatenation |
| Graph.AddEdgesGrows | distance_dijkstra.h:19-39 | applying k calls extends lists only at their ends and adds exactly 2k entries |
| Graph.AddEdgesSymmetric | distance_dijkstra.h:19-39 | any in-range call list keeps a symmetric adjacency symmetric |
| Graph.AddEdgesInRange | distance_dijkstra.h:19-39 | any in-range call list keeps every neighbour in range |
| Graph.AddEdgesWeights | distance_dijkstra.h:35-37 | under the norm axioms, length-weighted calls keep every weight equal to the length between its ends |
| Graph.ShapeCallsStep | distance_dijkstra.h:23-38 | one more face is that face's three calls applied after the earlier faces' calls |
| Graph.MeshCallsStep | distance_dijkstra.h:19-39 | one more shape is that shape's calls applied after the earlier shapes' calls |
| Graph.AddThreeEdges | distance_dijkstra.h:35-37 | proof step for Load and FaceAppends, unfolding AddEdges: a face's three calls are three addEdge steps in order |
| Graph.FaceAppends | distance_dijkstra.h:35-37 | a face appends to each corner's list that corner's entries in call order (six in total) and nothing to other lists |
| Graph.ResizeKeeps | distance_dijkstra.h:17 | resizing keeps symmetry unless it drops a list a neighbour still names; growing keeps neighbours in range |
| Graph.TotalEntriesOfEmpty | distance_dijkstra.h:17 | lists that are all empty hold no entries |
| Graph.LoadedGraphGrows | distance_dijkstra.h:15-40 | load leaves exactly floor(|a|/3) lists; surviving old lists are prefixes of the new ones; it adds six entries per face; symmetry and in-range neighbours carry over under the stated conditions |
| Graph.FreshLoadWellFormed | distance_dijkstra.h:15-40 | loading into an empty object gives a symmetric graph with in-range neighbours and 6 × (faces) entries; under the norm axioms every weight is the length between its ends |
| Walks.WalkEndInRange | distance_dijkstra.h:57-58 | a walk ends at a vertex of the graph |
| Walks.WalkAppend | distance_dijkstra.h:57-63 | a walk followed by an entry of its end vertex's list is a walk, one weight longer |
| Walks.SettledBoundsWalks | distance_dijkstra.h:61 | once no edge can be relaxed and the source is 0, every walk from the source is at least the distance where it ends, and that distance is finite |
| Walks.SettledIsShortest | distance_dijkstra.h:50-66 | a relaxed field that is 0 at the source, with a walk for each finite entry, is the shortest-path field |
| Walks.ShortestAtSource | distance_dijkstra.h:45 | the shortest-path field is 0 at the source |
| Walks.ReachableIffFinite | distance_dijkstra.h:44 | an entry stays at the sentinel exactly when no walk from the source reaches that vertex |
| Walks.ShortestUnique | distance_dijkstra.h:42-69 | there is only one shortest-path field per source |
| Walks.WalkPrepend | distance_dijkstra.h:57-58 | helper for ReverseWalk: a step into x followed by a walk from x is a walk, one weight longer (walks follow the list scanned at lines 57-58) |
| Walks.ReverseWalk | distance_dijkstra.h:72-75 | in a symmetric adjacency whose neighbours are all in range, every walk can be walked backwards at the same length |
| Walks.ShortestSymmetric | distance_dijkstra.h:72-75 | on a symmetric adjacency, the distance from s to t equals the distance from t to s |
| Dijkstra.LowerMeasure | distance_dijkstra.h:61-62 | strictly lowering one entry lowers (sentinel count, finite sum) lexicographically, which bounds the loop |
| Dijkstra.SearchStarts | distance_dijkstra.h:44-48 | the initial field (sentinel everywhere, 0 at src) with the seeded queue satisfies the loop invariant |
| Dijkstra.RelaxedAfterLower | distance_dijkstra.h:61-62 | lowering another vertex's distance keeps relaxed edges relaxed |
| Dijkstra.PopStale | distance_dijkstra.h:55 | dropping a stale entry keeps the invariant, with the field unchanged |
| Dijkstra.PopFresh | distance_dijkstra.h:51-55 | popping an entry that matches its vertex's distance leaves all other vertices covered, so the scan can start |
| Dijkstra.ScanLowers | distance_dijkstra.h:59-63 | when alt < dist[v], v is neither u nor src; lowering it, pushing (alt, v) and extending u's walk keeps the scan invariant |
| Dijkstra.ScanKeeps | distance_dijkstra.h:61 | when alt >= dist[v], that edge is already relaxed |
| Dijkstra.ScanDone | distance_dijkstra.h:57-65 | after the whole list, u's edges are relaxed and the main invariant holds again |
| Dijkstra.SearchEnds | distance_dijkstra.h:50-68 | on an empty queue, the field is the shortest-path field when seeded with src, and the initial field otherwise |
| Dijkstra.ScanChangesKeep | distance_dijkstra.h:61 | proof step: skipping an entry keeps "every changed vertex is queued and came from an earlier entry of u's list" |
| Dijkstra.ScanChangesLower | distance_dijkstra.h:61-63 | proof step: lowering v through entry i and pushing (alt, v) keeps that bookkeeping, with entry i as the witness |
| Dijkstra.ProgressLower | distance_dijkstra.h:59-63 | proof step: the lowering branch advances the scan progress (scan invariant, measure, no entry rising, bookkeeping) by one entry |
| Dijkstra.ProgressKeep | distance_dijkstra.h:59-61 | proof step: the branch that changes nothing advances the scan progress by one entry |
| Dijkstra.RelaxEntry | distance_dijkstra.h:58-64 | one pass of the inner loop on entry i = (v, w): if dist[u] + w < dist[v], then dist[v] becomes dist[u] + w and (dist[u] + w, v) is pushed; otherwise field and queue stay as they were; the scan progress advances by one entry |
| Dijkstra.RelaxEdges | distance_dijkstra.h:57-65 | the inner loop relaxes every edge of u. At the end the scan invariant holds and no entry has gone up. The field is unchanged, or its measure is lower. Every changed entry dist[x] is queued as (dist[x], x) and equals dist[u] + w for some entry (x, w) of u's list. The queue only gains entries (dist[u] + w, v) taken from u's list |
| Dijkstra.SeedQuirkMisses | distance_dijkstra.h:48 | for src != 0 with any entry of src's list leading to another vertex (self-loops from degenerate faces may come first), the as-written result is not the shortest-path field |
| Dijkstra.SeedQuirkCounterexample | distance_dijkstra.h:48 | two vertices joined by an edge of length 5: vertex 0 is reachable from 1, but propagate(1) leaves the sentinel there |
| Dijkstra.ReadCorners | distance_dijkstra.h:28-33 | the c-loop reads each corner's position as the three coordinates at 3·idx..3·idx+2 |
| Dijkstra.DijkstraAlgorithm.constructor | distance_dijkstra.h:13 | a new object has no adjacency lists and is valid |
| Dijkstra.DijkstraAlgorithm.AddEdge | distance_dijkstra.h:72-75 | the adjacency becomes the old one with (v, w) pushed on u's list and (u, w) on v's |
| Dijkstra.DijkstraAlgorithm.Load | distance_dijkstra.h:15-40 | the adjacency becomes LoadedGraph of the old one (resize, then three addEdge calls per face in loop order); validity is kept when the load does not shrink |
| Dijkstra.DijkstraAlgorithm.Search | distance_dijkstra.h:42-69 | one entry per vertex, 0 at src; seeded with src, the shortest-path field from src; seeded otherwise, the initial field |
| Dijkstra.DijkstraAlgorithm.Propagate | distance_dijkstra.h:42-69 | one entry per vertex and 0 at src; for src == 0, the shortest-path field from 0; for src != 0, sentinel everywhere but src |
| Dijkstra.DijkstraAlgorithm.PropagateFromSource | distance_dijkstra.h:42-69 | with the queue seeded by (dist[src], src), the result is the shortest-path field from src |
| WorldSpace.DirectField | distance_world_space.h:29-31 | the direct field from ps[src]: one entry per vertex, entry i the length of ps[src] - ps[i] |
| WorldSpace.DirectFieldComplete | distance_world_space.h:29-31 | the field has one entry per vertex, and none is left at the sentinel |
| WorldSpace.DirectFieldAtSource | distance_world_space.h:31 | under the norm axioms the source's own entry is 0 |
| WorldSpace.DirectFieldSymmetric | distance_world_space.h:31 | under the norm axioms, propagate(a)[b] == propagate(b)[a] |
| WorldSpace.DirectFieldTriangle | distance_world_space.h:31 | for a Euclidean length, the field from a at b is at most (field from a at m) + (field from m at b) |
| WorldSpace.WorldSpaceAlgorithm.constructor | distance_world_space.h:11 | a new object stores no vertices |
| WorldSpace.WorldSpaceAlgorithm.Load | distance_world_space.h:13-26 | the stored vertices become the old ones followed by the packed triples of the array; the shapes have no effect |
| WorldSpace.WorldSpaceAlgorithm.Propagate | distance_world_space.h:28-33 | the result is the direct field: entry i is the length of vertices[src] - vertices[i] |
| Metrics.WalkNotShorterThanDirect | distance_dijkstra.h:35-37 | when weights are edge lengths and the length is a norm, a walk is never shorter than the straight line between its ends |
| Metrics.GraphNotShorterThanDirect | distance_dijkstra.h:42-69 | when weights are edge lengths and the length satisfies the norm and triangle axioms, every finite shortest-path distance is at least the direct metric's distance for the same pair |
| Metrics.LoadedMeshMetrics | distance_dijkstra.h:15-40 | on a freshly loaded mesh, graph distances are symmetric in source and target and never below the direct metric's |

## Left out

- Floating point: distances and edge lengths are natural numbers. Rounding of `u_dist + w` and of coordinate differences is not modelled. `FLT_MAX + w` is taken to stay `FLT_MAX`, which is what `Add(Inf, w) == Inf` states.
- `glm::length` and `glm::vec3` arithmetic: the length is a parameter `len`. The norm and triangle properties are hypotheses of the lemmas that use them, not facts the model proves. Coordinates are reals.
- The OBJ loader: only `attrib.vertices` and, per shape, the size of `num_face_vertices` and the `vertex_index` of each index are read. The other fields of `tinyobj::attrib_t` and `tinyobj::shape_t` are not modelled.
- The face vertex counts themselves are not read: faces are taken as consecutive index triples, as the source does.
- `std::priority_queue` internals: the heap is a multiset, and only top/pop/push semantics are kept.
- The abstract interface in DistanceAlgorithm.h: there is no common declaration over the two classes. The model's signatures also differ where the length function enters. `DijkstraAlgorithm` needs the edge lengths when it loads, so it has `Load(a, shapes, len)` and `Propagate(src)`. `WorldSpaceAlgorithm` needs the length only when it propagates, so it has `Load(a, shapes)` and `Propagate(src, len)`. The interface has no behaviour of its own.
- Error results for propagating before a load, for a source out of range, and for face indices out of range: the source does not detect these cases. They are preconditions, because the source does not define what happens.
- Dijkstra.DijkstraAlgorithm.Load: `Valid()` is promised only when the load does not shrink the vertex count. A shrinking reload can leave neighbours out of range. In that state `Propagate`'s `requires Valid()` asks more than the source needs: the source goes wrong only when a list it actually scans names a dropped vertex, and that behaviour is not modelled.
- geodesics.cpp is not part of this model: the window, input, drawing and render loop, and the buffer uploads.
- `DistanceGraph` and distance_nearest_two.h are not part of this model.
- Thread safety and allocation failure are not modelled.

## Findings

| source | as written | input that shows it | evidently intended | confidence | as-written member | corrected member |
|---|---|---|---|---|---|---|
| distance_dijkstra.h:48 | the queue is seeded with `(dist[0], 0)`, whatever `src` is | two vertices joined by one edge of length 5, `propagate(1)`: vertex 0 is reachable from 1, but its entry stays at the sentinel | seed the queue with `(dist[src], src)`, giving the shortest-path field from `src` | high, not executed | Dijkstra.DijkstraAlgorithm.Propagate, Dijkstra.SeedQuirkCounterexample | Dijkstra.DijkstraAlgorithm.PropagateFromSource |
