# Dijkstra over MyGraph, in Dafny

This project models `MyGraph` and `Vertex` from a small Java graph library.
- `MyGraph` is a directed graph with non-negative edge weights. Its constructor validates and indexes a vertex collection and an edge collection into three structures:
  - `myGraphMap`: source → outgoing edges;
  - `vertexAdjacencyList`: source → destinations;
  - `setOfEdges`.
- Its queries are `vertices`, `edges`, `adjacentVertices` and `edgeCost`.
- `shortestPath` is Dijkstra's algorithm with decrease-key by reinsertion. `appendsPath` rebuilds the path from predecessor links.
- `Vertex` is a label-keyed record. It carries the scratch fields `cost`, `known` and `path` that the search writes.

Files:
- `Common.dfy`: labels, `INT_MAX`, the Java `int` type, `Option`/`Result`, and the exceptions (`IllegalArgument(reason)`, `NullPointer`).
- `Vertex.dfy`: `Vertex` as a class, and `String.hashCode` in Java int arithmetic.
  - The label is a `const`; `cost`/`known`/`path` are fields changed by setters with frame conditions.
  - `equals`/`hashCode` read only the label; `compareTo` reads only the cost.
- `Graph.dfy`: the three fields of a constructed graph as a value (a `None` edge set is Java's `null`). It also holds the invariant `Valid` that construction establishes, and paths and their costs.
- `Construction.dfy`: the constructor.
  - `Build` fills the maps in loops, in the source's order of checks. It is proved equal to the function `Construct`.
  - `Construct` states which inputs are accepted and what the result indexes. `ConstructFixed` is the constructor with the corrected vertex loop of the finding below.
- `Queries.dfy`: `checkVertexExists`, a loop-free test as in the source, and `vertices`, `edges`, `adjacentVertices`, `edgeCost`, each a loop. Every one has its full result stated.
- `ShortestPath.dfy`: `shortestPath` and `appendsPath`.
  - The search state is `vertexPointers`, `pq` (a multiset; a pop takes a cheapest record) and `end`.
  - Working copies are immutable `Record` values: once queued, a copy only ever has its `known` flag set, so a predecessor chain is a value.
  - `SearchOutcome` is the contract, and `ShortestPath` is proved to meet it:
    - an unknown endpoint is rejected;
    - `a == b` gives `[a]` at cost 0;
    - a result path goes from `a` to `b`, follows edges, costs the sum of its weights and is no dearer than any other path from `a` to `b`;
    - `None` is returned exactly when no path from `a` to `b` is cheaper than `Integer.MAX_VALUE`;
    - a null dereference happens exactly when the search reaches a vertex without outgoing edges.
  - Termination is by the number of unfinalised vertices, then the queue size.
- `Examples.dfy`: the two-vertex graph of the finding below.

## Model

| member | source | states |
|---|---|---|
| Vertices.Vertex.constructor | src/Vertex.java:14-21 | a new vertex has the given label, cost `Integer.MAX_VALUE`, is not known and has no predecessor |
| Vertices.Vertex.Create | src/Vertex.java:14-21 | a null label is rejected with IllegalArgumentException; otherwise a fresh vertex with the defaults |
| Vertices.Wrap32 | src/Vertex.java:42-46 | the Java int result is congruent to the exact value modulo 2^32 |
| Vertices.StringHash | src/Vertex.java:45 | `String.hashCode` of the label, computed in int arithmetic, is congruent modulo 2^32 to the documented polynomial s[0]·31^(n-1) + … + s[n-1] |
| Vertices.PolyHashSnoc | src/Vertex.java:45 | the documented polynomial obeys Horner's rule, which is how the hash is computed character by character |
| Vertices.Vertex.HashCode | src/Vertex.java:42-46 | hashCode is congruent modulo 2^32 to 31 plus the label's polynomial hash; it reads no field but the label |
| Vertices.Vertex.Equals | src/Vertex.java:50-64 | equal exactly when the other vertex is non-null with the same label, whatever the cost, known flag or path |
| Vertices.Vertex.CompareTo | src/Vertex.java:67-70 | the sign is the sign of the cost difference; labels play no part |
| Vertices.Vertex.GetLabel | src/Vertex.java:27-29 | returns the label, which is a constant |
| Vertices.Vertex.ToString | src/Vertex.java:36-38 | returns the label |
| Vertices.Vertex.GetCost | src/Vertex.java:73-75 | returns the stored cost unchanged |
| Vertices.Vertex.GetKnown | src/Vertex.java:78-80 | returns the stored known flag unchanged |
| Vertices.Vertex.GetPath | src/Vertex.java:83-85 | returns the stored predecessor unchanged |
| Vertices.Vertex.SetCost | src/Vertex.java:88-90 | sets the cost and changes neither `known` nor `path`; the label is constant |
| Vertices.Vertex.SetKnown | src/Vertex.java:93-95 | sets `known` and changes neither the cost nor `path` |
| Vertices.Vertex.SetPath | src/Vertex.java:98-100 | sets `path` and changes neither the cost nor `known` |
| Vertices.EqualsIsEquivalence | src/Vertex.java:50-64 | equals is reflexive, symmetric and transitive |
| Vertices.EqualVerticesHashAlike | src/Vertex.java:41-47 | equal vertices have equal hash codes |
| Vertices.CompareToIsPreorder | src/Vertex.java:67-70 | compareTo is antisymmetric and transitive |
| Vertices.EqualityIsNotOrdering | src/Vertex.java:50-70 | equal vertices with different costs compare unequal; equal costs compare equal whatever the labels |
| GraphModel.HasEdgeIff | src/MyGraph.java:54-64 | the adjacency index has v under u exactly when the edge set holds an edge u → v |
| GraphModel.Weight | src/MyGraph.java:66-75 | all edges u → v weigh the same non-negative amount, since conflicting weights are rejected |
| GraphModel.ExtendPath | src/MyGraph.java:223-224 | extending a path by an edge adds that edge's weight to its cost |
| GraphModel.PrefixCost | src/MyGraph.java:223-224 | a prefix of a path is a path that costs no more |
| Construction.IndexEdges | src/MyGraph.java:38-81 | the edge loop's result has a non-null edge set under every key it creates |
| Construction.IndexEdgesCorrect | src/MyGraph.java:38-81 | the edge loop succeeds exactly when every edge weighs at least 0, joins two given vertices and conflicts with no other edge; it then indexes exactly those edges |
| Construction.FirstRejected | src/MyGraph.java:38-81 | the exception raised is the one of the first rejected edge: negative weight, then missing endpoint, then conflict |
| Construction.ErrPropagates | src/MyGraph.java:38-81 | once an edge is rejected, later edges are not looked at |
| Construction.Construct | src/MyGraph.java:24-88 | null collections are rejected first; it succeeds exactly when every edge weighs at least 0, joins two given vertices and conflicts with no other; the graph built is valid; its vertices are exactly the given ones and its edges the given ones; exactly the vertices with an outgoing edge get an adjacency entry |
| Construction.RegisteredIsValid | src/MyGraph.java:83-87 | after the vertex loop, graphMap's keys are the given vertices and the graph satisfies its invariant |
| Construction.FindConflict | src/MyGraph.java:66-75 | reports exactly whether an accepted edge has the same endpoints and a different weight |
| Construction.Build | src/MyGraph.java:24-88 | the constructor's loops compute `Construct` |
| Construction.IndexEdgeLoop | src/MyGraph.java:38-81 | the edge loop, filling the three structures in place, computes `IndexEdges` |
| Construction.ProcessEdge | src/MyGraph.java:39-80 | one edge is rejected with the first failing check, or is indexed under its source |
| Construction.RegisterVertices | src/MyGraph.java:83-87 | every given vertex not yet a key is added with a null edge set, and nothing else changes |
| Construction.ConstructFixed | src/MyGraph.java:24-88 | the constructor with the corrected vertex loop accepts and rejects the same inputs as the original, with the same exception, and builds a valid graph with the same vertices and edges in which every vertex has an adjacency entry |
| Construction.RegisteredFixedIsValid | src/MyGraph.java:83-87 | the corrected vertex loop, which gives a vertex without outgoing edges an empty edge set and an empty adjacency entry, yields a valid graph keyed by exactly the given vertices, every one with an adjacency entry |
| Queries.CheckVertexExists | src/MyGraph.java:165-170 | raises IllegalArgumentException exactly for a label that is not a vertex |
| Queries.Vertices | src/MyGraph.java:95-101 | returns exactly the keys of graphMap, which are the constructor's vertices |
| Queries.Edges | src/MyGraph.java:109-115 | returns exactly the edge set |
| Queries.AdjacentVertices | src/MyGraph.java:127-135 | rejects an unknown vertex; dereferences null exactly for a vertex without outgoing edges; otherwise returns exactly the destinations of its edges |
| Queries.EdgeCost | src/MyGraph.java:147-158 | rejects unknown vertices; dereferences null for a source without outgoing edges; otherwise returns the edge weight, or -1 exactly when there is no edge |
| ShortestPaths.Trace | src/MyGraph.java:264-268 | the predecessor chain ends at the record's own vertex |
| ShortestPaths.Reverse | src/MyGraph.java:270 | element i of the result is element n-1-i of the input |
| ShortestPaths.ReverseList | src/MyGraph.java:270 | reversing the list in place yields `Reverse` of it |
| ShortestPaths.AppendsPath | src/MyGraph.java:257-272 | the path is the chain of predecessors of `end`, oldest first, with the cost recorded for `end`'s vertex |
| ShortestPaths.BackedTrace | src/MyGraph.java:228-231 | the chain of a record whose cost was built edge by edge is a path from the source of exactly that cost |
| ShortestPaths.OutcomesAgree | src/MyGraph.java:184-247 | two runs of the same search agree on failure, on whether a path exists and on its cost |
| ShortestPaths.MinimumExists | src/MyGraph.java:216 | a non-empty queue has a record no dearer than any other, which is what `pq.remove()` returns |
| ShortestPaths.FrontierCut | src/MyGraph.java:215-240 | along a path from the source, either every vertex is finalised or some unfinalised vertex costs no more than the prefix reaching it |
| ShortestPaths.FinalizeOptimal | src/MyGraph.java:216-219 | the cheapest queued record of an unfinalised vertex costs no more than any path to that vertex |
| ShortestPaths.Complete | src/MyGraph.java:215-240 | once the queue is empty, every vertex reachable at a finite cost is finalised at no more than that cost |
| ShortestPaths.RelaxEdge | src/MyGraph.java:223-236 | one relaxation: a cheaper cost through the popped vertex becomes a new queued record with that predecessor, replaces v's record, and becomes `end` when v is the destination |
| ShortestPaths.RelaxStepKeeps | src/MyGraph.java:223-236 | a relaxation keeps every stored or queued record backed by a path of its cost |
| ShortestPaths.RelaxStepEffect | src/MyGraph.java:223-236 | after a relaxation the edge is relaxed; only v's record may change, to a cheaper queued one no cheaper than the popped record; an edge already relaxed queues nothing |
| ShortestPaths.RelaxNeighbours | src/MyGraph.java:222-237 | relaxing every edge of the popped vertex keeps the invariants and relaxes all those edges; a stale record queues nothing new |
| ShortestPaths.StalePopRelaxed | src/MyGraph.java:218-219 | a stale queue entry (its vertex already finalised) finds every edge of its vertex already relaxed, so re-expanding it is harmless |
| ShortestPaths.FinalizeStep | src/MyGraph.java:215-240 | one pass of the outer loop keeps the invariant with the popped vertex finalised |
| ShortestPaths.NullDereference | src/MyGraph.java:222 | popping a vertex without an adjacency entry means such a vertex is reachable at a finite cost |
| ShortestPaths.Finished | src/MyGraph.java:242-246 | once the queue is empty, `end` is set exactly when b is reachable at a finite cost, and its chain is a shortest path |
| ShortestPaths.Rejected | src/MyGraph.java:185-186 | an unknown endpoint raises IllegalArgumentException |
| ShortestPaths.SameVertex | src/MyGraph.java:189-194 | a search from a vertex to itself answers the one-vertex path of cost 0 |
| ShortestPaths.InitialPointers | src/MyGraph.java:197-200 | every vertex gets a fresh record at the infinite cost, unknown, without predecessor |
| ShortestPaths.StartSearch | src/MyGraph.java:196-212 | only the source's record, at cost 0, is queued; `end` is unset; the search invariant holds |
| ShortestPaths.Settle | src/MyGraph.java:215-240 | one pass either dereferences null, when the search reaches a vertex without outgoing edges, or keeps the invariant and finalises a new vertex or shrinks the queue |
| ShortestPaths.Dijkstra | src/MyGraph.java:196-246 | the search for distinct vertices meets `SearchOutcome` |
| ShortestPaths.Conclude | src/MyGraph.java:242-246 | the path rebuilt from `end` is a shortest path; without `end`, b is unreachable |
| ShortestPaths.ShortestPath | src/MyGraph.java:184-247 | the whole of `SearchOutcome`: rejection of unknown endpoints, `[a]` for `a == b`, a shortest path exactly when b is reachable, and a null dereference exactly when a vertex without outgoing edges is reachable |
| Examples.OriginalAdjacencyFails | src/MyGraph.java:83-87 | as written, adjacentVertices(B) of the graph A → B dereferences null |
| Examples.OriginalSearchFails | src/MyGraph.java:222 | as written, shortestPath(A, B) of the graph A → B dereferences null |
| Examples.FixedAdjacencyEmpty | src/MyGraph.java:121 | corrected, adjacentVertices(B) is the empty collection, as the documentation promises |
| Examples.FixedSearchSucceeds | src/MyGraph.java:173-181 | corrected, shortestPath(A, B) is the path A → B of cost 1 |

## Left out

- Vertices are identified by label throughout the graph model, as `Vertex.equals` and `Vertex.hashCode` do. The constructor's conflict check (src/MyGraph.java:68-69) compares endpoints by reference `==`. Two distinct `Vertex` objects with the same label would slip past it in Java but are caught here, so the model rejects strictly more edge collections.
- The `Edge` and `Path` classes and the `Graph` interface are not in the source modelled here. `Edge` is modelled as a record with structural equality (`GraphModel.Edge`), so duplicate edges collapse in `setOfEdges` exactly when all three fields agree. `Path` is modelled as a sequence of labels and a cost (`ShortestPaths.Path`).
- ShortestPaths.RelaxEdge: `c1 = cost + weight` is computed without Java's 32-bit wrap-around. A sum past `Integer.MAX_VALUE` would wrap negative in Java and be taken as an improvement. Edge weights are unbounded `int`s. `Integer.MAX_VALUE` is kept as the infinite cost, so `None` means "no path cheaper than `Integer.MAX_VALUE`", as in the source.
- Record costs are unbounded `int`s during a search; the `Vertex` class keeps Java's `int` type for its own cost field.
- Defensive copies and aliasing are not modelled:
  - Every result is a value, so a search cannot change the graph or the caller's vertices. Two runs agree on the exception, on whether a path exists and on its cost (`ShortestPaths.OutcomesAgree`), but not necessarily on the path itself when several shortest paths exist: see the iteration-order line below.
  - The shared `known` flag between a queued copy and its `vertexPointers` entry is not modelled. The flag is only read on a just-dequeued copy, which is always unknown, so the check at src/MyGraph.java:218 never skips anything. That is modelled, and stale entries are shown to relax nothing (`ShortestPaths.StalePopRelaxed`).
- HashMap/HashSet iteration order and PriorityQueue tie-breaking are not modelled. Loops pick an arbitrary remaining element, and a pop picks any cheapest record. So when several shortest paths exist, the model promises one of them, not the one Java would pick.
- Queries.CheckVertexExists, ShortestPaths.ShortestPath, Queries.AdjacentVertices, Queries.EdgeCost and Construction.Construct take labels, edges and vertex collections that cannot hold null. None of the following Java behaviour is modelled; only null collections and null labels given to `new Vertex` are.
  - When null is not a vertex, `checkVertexExists(null)` fails the key test and then calls `toString()` on null (src/MyGraph.java:166-167). So `adjacentVertices(null)` throws NullPointerException. So do `edgeCost` and `shortestPath` with a null endpoint, provided the endpoint checked before it is a vertex. An unknown first endpoint raises IllegalArgumentException before null is looked at (src/MyGraph.java:148, 185).
  - A null element of the vertex collection is accepted: the vertex loop stores a null key (src/MyGraph.java:84-85). `checkVertexExists(null)` then passes. `vertices()` throws NullPointerException at src/MyGraph.java:98, and so does every `shortestPath(a, b)` with a ≠ b, at src/MyGraph.java:198.
  - A null element of the edge collection throws NullPointerException at src/MyGraph.java:39.
- Exception message strings and `toString` concatenation in messages are not modelled; an exception is its kind and reason.
- `Vertices.StringHash` follows `String.hashCode` over Dafny characters. Java hashes UTF-16 code units, so the two differ for characters outside the Basic Multilingual Plane. Only the fact that the hash depends on the label alone is relied on.
- The getters and `toString` of `Vertex` are functions whose bodies return the field. They have no contract beyond that body; the setters' postconditions are stated through them.
- `shortestPath` is split into helper methods: `ShortestPaths.Dijkstra`, `StartSearch`, `InitialPointers`, `Settle`, `RelaxNeighbours`, `RelaxEdge` and `Conclude`. Each is one contiguous stretch of the Java method, in the same order.

## Findings

| source | as written | input that shows it | evidently intended | confidence | as-written member | corrected member |
|---|---|---|---|---|---|---|
| src/MyGraph.java:83-87 | a vertex without outgoing edges gets a null edge set and no adjacency entry, so `adjacentVertices` (line 130), `edgeCost` (line 152) and `shortestPath` on reaching that vertex (line 222) dereference null | vertices {A, B}, edge A → B of weight 1: `adjacentVertices(B)` and `shortestPath(A, B)` throw NullPointerException | such a vertex gets an empty edge set and an empty adjacency entry: `adjacentVertices(B)` is empty, as documented at line 121, and `shortestPath(A, B)` is [A, B] of cost 1 | high; not executed | Examples.OriginalSearchFails | Examples.FixedSearchSucceeds |
