/** shortestPath: Dijkstra's algorithm with decrease-key by reinsertion,
    and appendsPath, which rebuilds the path from predecessor links. */
module ShortestPaths {
  import opened Common
  import opened GraphModel
  import opened Queries

  /** A working copy of a vertex made during a search: its label, the cost
      at which it was queued, its known flag and its predecessor. A copy is
      never changed once queued except for its known flag, so the
      predecessor chain is a value. */
  datatype Record = Record(name: Label, cost: int, known: bool, path: Option<Record>)

  /** The result of a successful search: the vertices in order and the cost. */
  datatype Path = Path(vertices: seq<Label>, cost: int)

  /** The labels along a record's predecessor chain, oldest first. */
  function Trace(r: Record): (t: seq<Label>)
    ensures |t| >= 1 && t[|t| - 1] == r.name
    decreases r
  {
    match r.path
    case None => [r.name]
    case Some(p) => Trace(p) + [r.name]
  }

  /** A sequence in reverse order. */
  function Reverse(s: seq<Label>): (r: seq<Label>)
    ensures |r| == |s|
    ensures forall i :: 0 <= i < |s| ==> r[i] == s[|s| - 1 - i]
  {
    if s == [] then [] else Reverse(s[1..]) + [s[0]]
  }

  /** Reversing a sequence extended at the back puts the new element first. */
  lemma ReverseSnoc(s: seq<Label>, x: Label)
    ensures Reverse(s + [x]) == [x] + Reverse(s)
  {
    var l, r := Reverse(s + [x]), [x] + Reverse(s);
    assert |l| == |r|;
    forall i | 0 <= i < |l| ensures l[i] == r[i] {
      if i > 0 {
        assert l[i] == (s + [x])[|s| - i];
      }
    }
  }

  /** appendsPath: walk the predecessor links from `end`, collecting labels,
      then reverse the collected list in place; the cost is the one recorded
      for the destination. */
  method AppendsPath(end: Record, vertexPointers: map<Label, Record>) returns (p: Path)
    requires end.name in vertexPointers
    ensures p.vertices == Trace(end)
    ensures p.cost == vertexPointers[end.name].cost
  {
    var pathTracker := [end.name];
    var totalCost := vertexPointers[end.name].cost;
    var cur := end;
    while cur.path.Some?
      invariant |pathTracker| >= 1 && pathTracker[|pathTracker| - 1] == cur.name
      invariant Trace(end) == Trace(cur) + Reverse(pathTracker)[1..]
      decreases cur
    {
      var pred := cur.path.value;
      ReverseSnoc(pathTracker, pred.name);
      assert Trace(cur) == Trace(pred) + [cur.name];
      assert Reverse(pathTracker) == [cur.name] + Reverse(pathTracker)[1..];
      pathTracker := pathTracker + [pred.name];
      cur := pred;
    }
    assert Reverse(pathTracker) == [cur.name] + Reverse(pathTracker)[1..];
    pathTracker := ReverseList(pathTracker);
    return Path(pathTracker, totalCost);
  }

  /** Collections.reverse: swaps the ends of the list pairwise towards the
      middle. */
  method ReverseList(s: seq<Label>) returns (r: seq<Label>)
    ensures r == Reverse(s)
  {
    r := s;
    var n := |s|;
    var i := 0;
    while i < n / 2
      invariant 0 <= i <= n / 2 && |r| == n
      invariant forall k :: 0 <= k < i ==> r[k] == s[n - 1 - k]
      invariant forall k :: n - i <= k < n ==> r[k] == s[n - 1 - k]
      invariant forall k :: i <= k < n - i ==> r[k] == s[k]
    {
      r := r[i := r[n - 1 - i]][n - 1 - i := r[i]];
      i := i + 1;
    }
  }

  // ---------------------------------------------------------------------
  // What a search promises

  /** b can be reached from a along a path cheaper than the infinite cost. */
  ghost predicate ReachableWithin(g: Graph, a: Label, b: Label)
    requires Valid(g)
  {
    exists p :: PathFrom(g, p, a, b) && Cost(g, p) < INT_MAX
  }

  /** Some vertex without an adjacency entry can be reached from a along a
      path cheaper than the infinite cost. */
  ghost predicate SinkWithin(g: Graph, a: Label)
    requires Valid(g)
  {
    exists p :: IsPath(g, p) && p[0] == a && Cost(g, p) < INT_MAX && p[|p| - 1] !in g.adjacency
  }

  /** A path from a to b whose cost is the sum of its weights and is no
      larger than the cost of any path from a to b. */
  ghost predicate IsShortest(g: Graph, a: Label, b: Label, path: Path)
    requires Valid(g)
  {
    && PathFrom(g, path.vertices, a, b)
    && path.cost == Cost(g, path.vertices)
    && forall p :: PathFrom(g, p, a, b) ==> path.cost <= Cost(g, p)
  }

  /** The outcome of shortestPath(a, b). */
  ghost predicate SearchOutcome(g: Graph, a: Label, b: Label, r: Result<Option<Path>>)
    requires Valid(g)
  {
    // the only failures are an unknown endpoint and a null dereference
    && (r.Err? ==> r == Err(IllegalArgument(UnknownVertex)) || r == Err(NullPointer))
    // an unknown endpoint is rejected
    && (a !in g.graphMap || b !in g.graphMap <==> r == Err(IllegalArgument(UnknownVertex)))
    // the search dereferences null exactly when it finalises a vertex without outgoing edges
    && (r == Err(NullPointer) <==> a in g.graphMap && b in g.graphMap && a != b && SinkWithin(g, a))
    // a path is returned exactly when b is reachable, and it is a shortest one
    && (r.Ok? ==> (r.value.Some? <==> ReachableWithin(g, a, b)))
    && (r.Ok? && r.value.Some? ==> IsShortest(g, a, b, r.value.value))
    // from a vertex to itself: the one-vertex path of cost 0
    && (r.Ok? && a == b ==> r.value == Some(Path([a], 0)))
  }

  /** Two outcomes of the same search agree on whether there is a path, and
      on its cost: repeated searches cannot be told apart by either. */
  lemma OutcomesAgree(g: Graph, a: Label, b: Label, r1: Result<Option<Path>>, r2: Result<Option<Path>>)
    requires Valid(g) && SearchOutcome(g, a, b, r1) && SearchOutcome(g, a, b, r2)
    ensures r1.Err? <==> r2.Err?
    ensures r1.Err? ==> r1 == r2
    ensures r1.Ok? ==> r1.value.None? == r2.value.None?
    ensures r1.Ok? && r1.value.Some? ==> r1.value.value.cost == r2.value.value.cost
  {
    if r1.Ok? && r1.value.Some? && r2.Ok? && r2.value.Some? {
      var p1, p2 := r1.value.value, r2.value.value;
      assert PathFrom(g, p1.vertices, a, b) && PathFrom(g, p2.vertices, a, b);
    }
  }

  // ---------------------------------------------------------------------
  // The search state and its invariants

  /** A record is backed by its predecessor chain: the chain starts with a
      record of the source a at cost 0, and each record costs its
      predecessor's cost plus the weight of the edge between them. */
  ghost predicate Backed(g: Graph, a: Label, r: Record)
    requires Valid(g)
    decreases r
  {
    match r.path
    case None => r.name == a && r.name in g.graphMap && r.cost == 0
    case Some(p) => Backed(g, a, p) && HasEdge(g, p.name, r.name) && r.cost == p.cost + Weight(g, p.name, r.name)
  }

  /** The chain of a backed record is a path from a to the record's vertex
      whose cost is the record's cost. */
  lemma {:induction false} BackedTrace(g: Graph, a: Label, r: Record)
    requires Valid(g) && Backed(g, a, r)
    ensures PathFrom(g, Trace(r), a, r.name) && Cost(g, Trace(r)) == r.cost
    decreases r
  {
    match r.path
    case None =>
      assert Trace(r) == [a];
    case Some(p) =>
      BackedTrace(g, a, p);
      ExtendPath(g, Trace(p), r.name);
      assert Trace(r) == Trace(p) + [r.name];
  }

  /** vertexPointers holds a current record for every vertex; a finite cost
      is backed by a path of that cost; the source costs 0. */
  ghost predicate PointersOk(g: Graph, a: Label, ptr: map<Label, Record>)
    requires Valid(g)
  {
    && ptr.Keys == g.graphMap.Keys
    && (forall v :: v in ptr ==> ptr[v].name == v && 0 <= ptr[v].cost <= INT_MAX)
    && (forall v :: v in ptr && ptr[v].cost < INT_MAX ==> Backed(g, a, ptr[v]))
    && a in ptr && ptr[a].cost == 0
  }

  /** Every queued record is unknown, finite, backed by a path of its cost,
      and no cheaper than the current record of its vertex. */
  ghost predicate QueueOk(g: Graph, a: Label, ptr: map<Label, Record>, pq: multiset<Record>)
    requires Valid(g)
  {
    forall r :: r in pq ==>
      r.name in ptr && !r.known && r.cost < INT_MAX && ptr[r.name].cost <= r.cost && Backed(g, a, r)
  }

  /** The current record of a reached, unfinalised vertex is queued. */
  ghost predicate FrontierOk(ptr: map<Label, Record>, pq: multiset<Record>, done: set<Label>)
  {
    forall v :: v in ptr && v !in done && ptr[v].cost < INT_MAX ==> ptr[v] in pq
  }

  /** Finalised vertices have been expanded, cost no more than anything
      queued, have relaxed all their edges and carry an optimal cost. */
  ghost predicate DoneOk(g: Graph, a: Label, ptr: map<Label, Record>, pq: multiset<Record>, done: set<Label>)
    requires Valid(g)
  {
    && done <= g.adjacency.Keys
    && done <= ptr.Keys
    && (forall d :: d in done ==> ptr[d].cost < INT_MAX)
    && (forall d, r :: d in done && r in pq ==> ptr[d].cost <= r.cost)
    && Relaxed(g, ptr, done)
    && Optimal(g, a, ptr, done)
  }

  /** Every edge leaving a finalised vertex has been relaxed. */
  ghost predicate Relaxed(g: Graph, ptr: map<Label, Record>, done: set<Label>)
    requires Valid(g)
  {
    forall d, v :: d in done && d in ptr && HasEdge(g, d, v) ==>
      v in ptr && ptr[v].cost <= ptr[d].cost + Weight(g, d, v)
  }

  /** A finalised vertex costs no more than any path to it from the source. */
  ghost predicate Optimal(g: Graph, a: Label, ptr: map<Label, Record>, done: set<Label>)
    requires Valid(g)
  {
    forall d, p :: d in done && d in ptr && PathFrom(g, p, a, d) ==> ptr[d].cost <= Cost(g, p)
  }

  /** `end` is the current record of b once b has been reached. */
  ghost predicate EndOk(ptr: map<Label, Record>, b: Label, end: Option<Record>)
  {
    && b in ptr
    && (end.Some? ==> end.value == ptr[b] && end.value.cost < INT_MAX)
    && (end.None? ==> ptr[b].cost == INT_MAX)
  }

  /** A record no dearer than any queued record: what PriorityQueue.remove
      returns, the queue being ordered by Vertex.compareTo. */
  predicate Cheapest(cur: Record, pq: multiset<Record>)
  {
    cur in pq && forall x :: x in pq ==> cur.cost <= x.cost
  }

  /** A finite non-empty queue has a cheapest record. */
  lemma {:induction false} MinimumExists(pq: multiset<Record>)
    requires pq != multiset{}
    ensures exists m :: Cheapest(m, pq)
    decreases |pq|
  {
    var x :| x in pq;
    var rest := pq - multiset{x};
    assert pq == rest + multiset{x};
    if rest == multiset{} {
      assert forall y :: y in pq ==> y == x;
      assert Cheapest(x, pq);
    } else {
      MinimumExists(rest);
      var m :| Cheapest(m, rest);
      var least := if x.cost < m.cost then x else m;
      forall y | y in pq
        ensures least.cost <= y.cost
      {
        assert y == x || y in rest;
      }
      assert Cheapest(least, pq);
    }
  }

  /** p[k] is the first vertex of p not finalised, and its current cost is no
      larger than the prefix of p reaching it. */
  ghost predicate CutAt(g: Graph, ptr: map<Label, Record>, done: set<Label>, p: seq<Label>, k: int)
    requires Valid(g)
  {
    && 0 <= k < |p| && p[k] !in done && p[k] in ptr && IsPath(g, p[..k + 1])
    && ptr[p[k]].cost <= Cost(g, p[..k + 1])
  }

  /** Along a path from the source, either every vertex is finalised, or some
      vertex that is not carries a cost no larger than the prefix reaching
      it. */
  lemma {:induction false} FrontierCut(g: Graph, a: Label, ptr: map<Label, Record>, done: set<Label>,
                                       p: seq<Label>)
    requires Valid(g) && ptr.Keys == g.graphMap.Keys && a in ptr && ptr[a].cost == 0
    requires Relaxed(g, ptr, done) && Optimal(g, a, ptr, done)
    requires IsPath(g, p) && p[0] == a
    ensures (forall j :: 0 <= j < |p| ==> p[j] in done) || exists k :: CutAt(g, ptr, done, p, k)
    decreases |p|
  {
    if |p| == 1 {
      if a !in done {
        assert p[..1] == p;
        assert CutAt(g, ptr, done, p, 0);
      }
    } else {
      var q := p[..|p| - 1];
      PrefixCost(g, p, |p| - 1);
      FrontierCut(g, a, ptr, done, q);
      if k :| CutAt(g, ptr, done, q, k) {
        assert q[..k + 1] == p[..k + 1];
        assert CutAt(g, ptr, done, p, k);
      } else {
        assert forall j :: 0 <= j < |q| ==> q[j] in done;
        forall j | 0 <= j < |p| - 1
          ensures p[j] in done
        {
          assert p[j] == q[j];
        }
        CutLast(g, a, ptr, done, p);
      }
    }
  }

  /** The inductive step of FrontierCut when every vertex but the last is
      finalised: the last one is finalised, or its cost was relaxed along the
      final edge. */
  lemma CutLast(g: Graph, a: Label, ptr: map<Label, Record>, done: set<Label>, p: seq<Label>)
    requires Valid(g) && ptr.Keys == g.graphMap.Keys && a in ptr && ptr[a].cost == 0
    requires Relaxed(g, ptr, done) && Optimal(g, a, ptr, done)
    requires IsPath(g, p) && p[0] == a && |p| > 1
    requires forall j :: 0 <= j < |p| - 1 ==> p[j] in done
    ensures (forall j :: 0 <= j < |p| ==> p[j] in done) || CutAt(g, ptr, done, p, |p| - 1)
  {
    var q := p[..|p| - 1];
    PrefixCost(g, p, |p| - 1);
    var y, x := p[|p| - 2], p[|p| - 1];
    assert y == q[|q| - 1] && y in done;
    if x !in done {
      assert HasEdge(g, y, x);
      assert PathFrom(g, q, a, y);
      assert ptr[x].cost <= ptr[y].cost + Weight(g, y, x) <= Cost(g, q) + Weight(g, y, x);
      assert p[..|p|] == p;
    }
  }

  /** The cheapest queued record of an unfinalised vertex carries the cost of
      a shortest path to that vertex. */
  lemma FinalizeOptimal(g: Graph, a: Label, ptr: map<Label, Record>, pq: multiset<Record>,
                        done: set<Label>, cur: Record)
    requires Valid(g) && PointersOk(g, a, ptr) && QueueOk(g, a, ptr, pq)
    requires FrontierOk(ptr, pq, done) && DoneOk(g, a, ptr, pq, done)
    requires cur in pq && (forall x :: x in pq ==> cur.cost <= x.cost) && cur.name !in done
    ensures forall p :: PathFrom(g, p, a, cur.name) ==> cur.cost <= Cost(g, p)
  {
    forall p | PathFrom(g, p, a, cur.name)
      ensures cur.cost <= Cost(g, p)
    {
      FrontierCut(g, a, ptr, done, p);
      assert p[|p| - 1] !in done;
      var k :| CutAt(g, ptr, done, p, k);
      PrefixCost(g, p, k + 1);
      if ptr[p[k]].cost < INT_MAX {
        assert ptr[p[k]] in pq;
      }
    }
  }

  /** Once the queue is empty, every vertex reachable from the source along a
      path cheaper than the infinite cost is finalised with a cost no larger
      than that path's. */
  lemma {:induction false} Complete(g: Graph, a: Label, ptr: map<Label, Record>, done: set<Label>, p: seq<Label>)
    requires Valid(g) && PointersOk(g, a, ptr)
    requires FrontierOk(ptr, multiset{}, done) && DoneOk(g, a, ptr, multiset{}, done)
    requires IsPath(g, p) && p[0] == a && Cost(g, p) < INT_MAX
    ensures p[|p| - 1] in done && ptr[p[|p| - 1]].cost <= Cost(g, p)
    decreases |p|
  {
    if |p| > 1 {
      var q := p[..|p| - 1];
      PrefixCost(g, p, |p| - 1);
      Complete(g, a, ptr, done, q);
      var y, x := p[|p| - 2], p[|p| - 1];
      assert y == q[|q| - 1];
      assert HasEdge(g, y, x);
      AdjacentInGraph(g, y, x);
    }
  }

  // ---------------------------------------------------------------------
  // The search

  /** Every record that changed between ptr0 and ptr became cheaper, costs
      at least floor and is queued. */
  ghost predicate Lowered(ptr0: map<Label, Record>, ptr: map<Label, Record>, pq: multiset<Record>, floor: int)
  {
    && ptr0.Keys == ptr.Keys
    && forall x :: x in ptr0 ==>
         || ptr[x] == ptr0[x]
         || (floor <= ptr[x].cost < ptr0[x].cost && ptr[x] in pq)
  }

  /** pq0 grew into pq by records costing at least floor. */
  ghost predicate Grown(pq0: multiset<Record>, pq: multiset<Record>, floor: int)
  {
    pq0 <= pq && forall r :: r in pq ==> r in pq0 || floor <= r.cost
  }

  /** Every edge from u to a vertex of vs is relaxed. */
  ghost predicate RelaxedFrom(g: Graph, ptr: map<Label, Record>, u: Label, vs: set<Label>)
    requires Valid(g)
  {
    forall v :: v in vs && HasEdge(g, u, v) ==>
      u in ptr && v in ptr && ptr[v].cost <= ptr[u].cost + Weight(g, u, v)
  }

  /** The search state that one relaxation updates. */
  datatype Search = Search(ptr: map<Label, Record>, pq: multiset<Record>, end: Option<Record>)

  /** Relaxing the edge cur.name -> v, where cur is the popped record of
      cur.name: a cheaper cost for v becomes a new record whose predecessor is
      cur; it replaces v's current record, is queued, and becomes `end` when v
      is the destination. */
  ghost function RelaxStep(g: Graph, b: Label, cur: Record, v: Label, s: Search): Search
    requires Valid(g) && HasEdge(g, cur.name, v) && cur.name in s.ptr && v in s.ptr
  {
    if Improves(g, cur, v, s.ptr) then Update(b, s, Extended(g, cur, v, s.ptr)) else s
  }

  /** The cost of v through u = cur.name, c1 in the source, is below v's
      current cost, c2 in the source. */
  ghost predicate Improves(g: Graph, cur: Record, v: Label, ptr: map<Label, Record>)
    requires Valid(g) && HasEdge(g, cur.name, v) && cur.name in ptr && v in ptr
  {
    ptr[cur.name].cost + Weight(g, cur.name, v) < ptr[v].cost
  }

  /** The record of v reached through the popped record cur. */
  ghost function Extended(g: Graph, cur: Record, v: Label, ptr: map<Label, Record>): Record
    requires Valid(g) && HasEdge(g, cur.name, v) && cur.name in ptr
  {
    Record(v, ptr[cur.name].cost + Weight(g, cur.name, v), false, Some(cur))
  }

  /** Makes upd the current record of its vertex, queues it, and makes it
      `end` when its vertex is the destination. */
  function Update(b: Label, s: Search, upd: Record): Search
  {
    Search(s.ptr[upd.name := upd], s.pq + multiset{upd}, if upd.name == b then Some(upd) else s.end)
  }

  /** The search invariants that hold between two pops. */
  ghost predicate StateOk(g: Graph, a: Label, b: Label, s: Search)
    requires Valid(g)
  {
    PointersOk(g, a, s.ptr) && QueueOk(g, a, s.ptr, s.pq) && EndOk(s.ptr, b, s.end)
  }

  /** One iteration of the inner loop of shortestPath: looks up the weight of
      the edge u -> v with edgeCost and relaxes it. */
  method RelaxEdge(g: Graph, b: Label, cur: Record, v: Label, s0: Search) returns (s: Search)
    requires Valid(g) && HasEdge(g, cur.name, v) && cur.name in s0.ptr && v in s0.ptr
    ensures s == RelaxStep(g, b, cur, v, s0)
  {
    var u := cur.name;
    AdjacentInGraph(g, u, v);
    HasEdgeIff(g, u, v);
    var w := EdgeCost(g, u, v);
    assert w == Ok(Weight(g, u, v));
    var vertexPointers, pq, end := s0.ptr, s0.pq, s0.end;
    var c1 := vertexPointers[u].cost + w.value;
    var c2 := vertexPointers[v].cost;
    if c1 < c2 {
      var updatedV := Record(v, c1, false, Some(cur));
      vertexPointers := vertexPointers[v := updatedV];
      pq := pq + multiset{updatedV};
      if v == b {
        end := Some(updatedV);
      }
    }
    s := Search(vertexPointers, pq, end);
  }

  /** A relaxation keeps the search invariants. */
  lemma RelaxStepKeeps(g: Graph, a: Label, b: Label, cur: Record, v: Label, s: Search, s': Search)
    requires Valid(g) && HasEdge(g, cur.name, v) && StateOk(g, a, b, s)
    requires Backed(g, a, cur) && cur.cost < INT_MAX
    requires cur.cost == s.ptr[cur.name].cost || RelaxedFrom(g, s.ptr, cur.name, {v})
    requires v in s.ptr && s' == RelaxStep(g, b, cur, v, s)
    ensures StateOk(g, a, b, s')
  {
    AdjacentInGraph(g, cur.name, v);
    if Improves(g, cur, v, s.ptr) {
      assert cur.cost == s.ptr[cur.name].cost;
      UpdateKeepsInvariants(g, a, b, s, Extended(g, cur, v, s.ptr));
    }
  }

  /** After a relaxation the edge is relaxed and at most v's record changed;
      a changed record is cheaper, costs at least the popped record and is
      queued; the queue only grows; an edge already relaxed queues nothing. */
  lemma RelaxStepEffect(g: Graph, b: Label, cur: Record, v: Label, s: Search, s': Search)
    requires Valid(g) && HasEdge(g, cur.name, v) && cur.name in s.ptr && v in s.ptr
    requires cur.cost == s.ptr[cur.name].cost || RelaxedFrom(g, s.ptr, cur.name, {v})
    requires s' == RelaxStep(g, b, cur, v, s)
    ensures && RelaxedFrom(g, s'.ptr, cur.name, {v})
      && s'.ptr == s.ptr[v := s'.ptr[v]] && s'.ptr[cur.name] == s.ptr[cur.name]
      && Lowered(s.ptr, s'.ptr, s'.pq, cur.cost) && Grown(s.pq, s'.pq, cur.cost)
      && (RelaxedFrom(g, s.ptr, cur.name, {v}) ==> |s'.pq| == |s.pq|)
  {
    if Improves(g, cur, v, s.ptr) {
      ImprovingEffect(g, b, cur, v, s);
    } else {
      LoweredRefl(s.ptr, s.pq, cur.cost);
    }
  }

  /** The improving case of RelaxStepEffect: v gets the cheaper record. */
  lemma ImprovingEffect(g: Graph, b: Label, cur: Record, v: Label, s: Search)
    requires Valid(g) && HasEdge(g, cur.name, v) && cur.name in s.ptr && v in s.ptr
    requires cur.cost == s.ptr[cur.name].cost && Improves(g, cur, v, s.ptr)
    ensures var upd := Extended(g, cur, v, s.ptr);
      && RelaxedFrom(g, s.ptr[v := upd], cur.name, {v})
      && s.ptr[v := upd][cur.name] == s.ptr[cur.name]
      && Lowered(s.ptr, s.ptr[v := upd], s.pq + multiset{upd}, cur.cost)
      && Grown(s.pq, s.pq + multiset{upd}, cur.cost)
  {
    var upd := Extended(g, cur, v, s.ptr);
    LoweredByUpdate(s.ptr, upd, s.pq + multiset{upd}, cur.cost);
  }

  lemma LoweredRefl(ptr: map<Label, Record>, pq: multiset<Record>, floor: int)
    ensures Lowered(ptr, ptr, pq, floor)
  {
  }

  lemma LoweredByUpdate(ptr: map<Label, Record>, upd: Record, pq: multiset<Record>, floor: int)
    requires upd.name in ptr && upd in pq && floor <= upd.cost < ptr[upd.name].cost
    ensures Lowered(ptr, ptr[upd.name := upd], pq, floor)
  {
  }

  /** Replacing a vertex's current record by a cheaper one backed by a path,
      and queueing it, keeps the search invariants. */
  lemma UpdateKeepsInvariants(g: Graph, a: Label, b: Label, s: Search, upd: Record)
    requires Valid(g) && StateOk(g, a, b, s)
    requires upd.name in s.ptr && !upd.known && upd.cost < s.ptr[upd.name].cost && Backed(g, a, upd)
    ensures StateOk(g, a, b, Update(b, s, upd))
  {
    UpdateKeepsPointers(g, a, s.ptr, upd);
    UpdateKeepsQueue(g, a, s.ptr, s.pq, upd);
  }

  lemma UpdateKeepsPointers(g: Graph, a: Label, ptr: map<Label, Record>, upd: Record)
    requires Valid(g) && PointersOk(g, a, ptr)
    requires upd.name in ptr && upd.cost < ptr[upd.name].cost && Backed(g, a, upd)
    ensures PointersOk(g, a, ptr[upd.name := upd])
  {
    var ptr' := ptr[upd.name := upd];
    BackedTrace(g, a, upd);
    assert upd.name != a;
    forall v | v in ptr'
      ensures ptr'[v].name == v && 0 <= ptr'[v].cost <= INT_MAX
      ensures ptr'[v].cost < INT_MAX ==> Backed(g, a, ptr'[v])
    {
      if v != upd.name {
        assert ptr'[v] == ptr[v];
      }
    }
  }

  lemma UpdateKeepsQueue(g: Graph, a: Label, ptr: map<Label, Record>, pq: multiset<Record>, upd: Record)
    requires Valid(g) && QueueOk(g, a, ptr, pq)
    requires upd.name in ptr && !upd.known && upd.cost < ptr[upd.name].cost && upd.cost < INT_MAX
    requires Backed(g, a, upd)
    ensures QueueOk(g, a, ptr[upd.name := upd], pq + multiset{upd})
  {
    var ptr' := ptr[upd.name := upd];
    forall r | r in pq + multiset{upd}
      ensures r.name in ptr' && !r.known && r.cost < INT_MAX && ptr'[r.name].cost <= r.cost && Backed(g, a, r)
    {
      if r != upd {
        assert r in pq;
      }
    }
  }

  /** The inner loop of shortestPath: relaxes every edge leaving the popped
      record's vertex u. It keeps the search invariants, leaves u's record
      alone, and lowers records only to costs no smaller than the popped
      record's, queueing them. A stale record (firstPop false: u was
      finalised earlier, so its edges are relaxed already) changes nothing. */
  method RelaxNeighbours(g: Graph, a: Label, b: Label, cur: Record, s0: Search, ghost firstPop: bool)
    returns (s: Search)
    requires Valid(g) && cur.name in g.adjacency && StateOk(g, a, b, s0)
    requires Backed(g, a, cur) && cur.cost < INT_MAX
    requires firstPop ==> cur.cost == s0.ptr[cur.name].cost
    requires !firstPop ==> RelaxedFrom(g, s0.ptr, cur.name, g.adjacency[cur.name])
    ensures StateOk(g, a, b, s)
    ensures s.ptr[cur.name] == s0.ptr[cur.name]
    ensures RelaxedFrom(g, s.ptr, cur.name, g.adjacency[cur.name])
    ensures Lowered(s0.ptr, s.ptr, s.pq, cur.cost) && Grown(s0.pq, s.pq, cur.cost)
    ensures !firstPop ==> |s.pq| == |s0.pq|
  {
    s := s0;
    var u := cur.name;
    var rest := g.adjacency[u];
    InnerStart(g, a, b, cur, s0, firstPop);
    while rest != {}
      invariant InnerOk(g, a, b, cur, s0, s, rest, firstPop)
      decreases |rest|
    {
      var v :| v in rest;
      AdjacentInGraph(g, u, v);
      InnerHasKeys(g, a, b, cur, s0, s, rest, firstPop, v);
      ghost var rest0, prev := rest, s;
      PoppedOrRelaxed(g, cur, v, s0.ptr, prev.ptr, firstPop);
      s := RelaxEdge(g, b, cur, v, s);
      RelaxStepKeeps(g, a, b, cur, v, prev, s);
      RelaxStepEffect(g, b, cur, v, prev, s);
      rest := rest - {v};
      InnerStep(g, a, b, cur, s0, prev, s, rest0, v, firstPop);
    }
    assert g.adjacency[u] - rest == g.adjacency[u];
  }

  /** The invariant of the inner loop, with `rest` the neighbours still to
      relax. */
  ghost predicate InnerOk(g: Graph, a: Label, b: Label, cur: Record, s0: Search, s: Search, rest: set<Label>,
                          firstPop: bool)
    requires Valid(g) && cur.name in g.adjacency
  {
    && rest <= g.adjacency[cur.name]
    && StateOk(g, a, b, s)
    && cur.name in s0.ptr && cur.name in s.ptr && s.ptr[cur.name] == s0.ptr[cur.name]
    && RelaxedFrom(g, s.ptr, cur.name, g.adjacency[cur.name] - rest)
    && Lowered(s0.ptr, s.ptr, s.pq, cur.cost) && Grown(s0.pq, s.pq, cur.cost)
    && (!firstPop ==> RelaxedFrom(g, s.ptr, cur.name, g.adjacency[cur.name]) && |s.pq| == |s0.pq|)
  }

  lemma InnerStart(g: Graph, a: Label, b: Label, cur: Record, s0: Search, firstPop: bool)
    requires Valid(g) && cur.name in g.adjacency && StateOk(g, a, b, s0)
    requires !firstPop ==> RelaxedFrom(g, s0.ptr, cur.name, g.adjacency[cur.name])
    ensures InnerOk(g, a, b, cur, s0, s0, g.adjacency[cur.name], firstPop)
  {
    LoweredRefl(s0.ptr, s0.pq, cur.cost);
  }

  lemma InnerHasKeys(g: Graph, a: Label, b: Label, cur: Record, s0: Search, s: Search, rest: set<Label>,
                     firstPop: bool, v: Label)
    requires Valid(g) && cur.name in g.adjacency && InnerOk(g, a, b, cur, s0, s, rest, firstPop)
    requires v in rest
    ensures HasEdge(g, cur.name, v) && cur.name in s.ptr && v in s.ptr
  {
    AdjacentInGraph(g, cur.name, v);
  }

  /** The edge to v is the first relaxed from the popped record, whose cost
      is then current, or it was relaxed when u was finalised. */
  lemma PoppedOrRelaxed(g: Graph, cur: Record, v: Label, ptr0: map<Label, Record>, ptr: map<Label, Record>,
                        firstPop: bool)
    requires Valid(g) && cur.name in g.adjacency && v in g.adjacency[cur.name]
    requires cur.name in ptr0 && cur.name in ptr && ptr[cur.name] == ptr0[cur.name]
    requires firstPop ==> cur.cost == ptr0[cur.name].cost
    requires !firstPop ==> RelaxedFrom(g, ptr, cur.name, g.adjacency[cur.name])
    ensures firstPop ==> cur.cost == ptr[cur.name].cost
    ensures !firstPop ==> RelaxedFrom(g, ptr, cur.name, {v})
  {
  }

  /** One iteration of the inner loop keeps its invariant, given what the
      relaxation of the edge to v achieved. */
  lemma InnerStep(g: Graph, a: Label, b: Label, cur: Record, s0: Search, prev: Search, s: Search,
                  rest0: set<Label>, v: Label, firstPop: bool)
    requires Valid(g) && cur.name in g.adjacency
    requires InnerOk(g, a, b, cur, s0, prev, rest0, firstPop)
    requires v in rest0 && v in s.ptr
    requires StateOk(g, a, b, s) && RelaxedFrom(g, s.ptr, cur.name, {v})
    requires s.ptr == prev.ptr[v := s.ptr[v]] && s.ptr[cur.name] == prev.ptr[cur.name]
    requires Lowered(prev.ptr, s.ptr, s.pq, cur.cost) && Grown(prev.pq, s.pq, cur.cost)
    requires !firstPop ==> |s.pq| == |prev.pq|
    ensures InnerOk(g, a, b, cur, s0, s, rest0 - {v}, firstPop)
    ensures |rest0 - {v}| < |rest0|
  {
    var u := cur.name;
    SetStep(g.adjacency[u], rest0, v);
    InnerStepLowered(s0, prev, s, cur.cost);
    RelaxedAdd(g, prev.ptr, s.ptr, u, v, g.adjacency[u] - rest0);
    if !firstPop {
      RelaxedGrows(g, prev.ptr, s.ptr, u, v, g.adjacency[u], g.adjacency[u]);
    }
  }

  lemma SetStep(all: set<Label>, rest0: set<Label>, v: Label)
    requires v in rest0 && rest0 <= all
    ensures all - (rest0 - {v}) == (all - rest0) + {v}
    ensures |rest0 - {v}| < |rest0|
  {
  }

  lemma RelaxedAdd(g: Graph, ptr1: map<Label, Record>, ptr2: map<Label, Record>, u: Label, v: Label,
                   vs: set<Label>)
    requires Valid(g) && RelaxedFrom(g, ptr1, u, vs) && RelaxedFrom(g, ptr2, u, {v})
    requires v in ptr2 && ptr2 == ptr1[v := ptr2[v]] && u in ptr1 && ptr2[u] == ptr1[u]
    ensures RelaxedFrom(g, ptr2, u, vs + {v})
  {
  }

  lemma InnerStepLowered(s0: Search, prev: Search, s: Search, floor: int)
    requires Lowered(s0.ptr, prev.ptr, prev.pq, floor) && Grown(s0.pq, prev.pq, floor)
    requires Lowered(prev.ptr, s.ptr, s.pq, floor) && Grown(prev.pq, s.pq, floor)
    ensures Lowered(s0.ptr, s.ptr, s.pq, floor) && Grown(s0.pq, s.pq, floor)
  {
    LoweredTrans(s0.ptr, prev.ptr, s.ptr, prev.pq, s.pq, floor);
    GrownTrans(s0.pq, prev.pq, s.pq, floor);
  }

  lemma LoweredTrans(ptr0: map<Label, Record>, ptr1: map<Label, Record>, ptr2: map<Label, Record>,
                     pq1: multiset<Record>, pq2: multiset<Record>, floor: int)
    requires Lowered(ptr0, ptr1, pq1, floor) && Lowered(ptr1, ptr2, pq2, floor) && pq1 <= pq2
    ensures Lowered(ptr0, ptr2, pq2, floor)
  {
  }

  lemma GrownTrans(pq0: multiset<Record>, pq1: multiset<Record>, pq2: multiset<Record>, floor: int)
    requires Grown(pq0, pq1, floor) && Grown(pq1, pq2, floor)
    ensures Grown(pq0, pq2, floor)
  {
  }

  lemma RelaxedGrows(g: Graph, ptr1: map<Label, Record>, ptr2: map<Label, Record>, u: Label, v: Label,
                     vs: set<Label>, ws: set<Label>)
    requires Valid(g) && RelaxedFrom(g, ptr1, u, vs) && RelaxedFrom(g, ptr2, u, {v})
    requires v in ptr2 && ptr2 == ptr1[v := ptr2[v]] && u in ptr1 && ptr2[u] == ptr1[u]
    requires forall w :: w in ws ==> w in vs || w == v
    ensures RelaxedFrom(g, ptr2, u, ws)
  {
  }

  // ---------------------------------------------------------------------
  // The outer loop

  /** The invariant of the outer loop of shortestPath, with `done` the
      vertices finalised so far. */
  ghost predicate OuterOk(g: Graph, a: Label, b: Label, s: Search, done: set<Label>)
    requires Valid(g)
  {
    StateOk(g, a, b, s) && FrontierOk(s.ptr, s.pq, done) && DoneOk(g, a, s.ptr, s.pq, done)
  }

  /** The first pop of a vertex carries its current cost. */
  lemma FirstPopCurrent(g: Graph, a: Label, b: Label, s: Search, done: set<Label>, cur: Record)
    requires Valid(g) && OuterOk(g, a, b, s, done) && Cheapest(cur, s.pq) && cur.name !in done
    ensures cur.cost == s.ptr[cur.name].cost
  {
    assert s.ptr[cur.name] in s.pq;
  }

  /** A popped record of a finalised vertex finds its edges relaxed. */
  lemma StalePopRelaxed(g: Graph, a: Label, b: Label, s: Search, done: set<Label>, cur: Record)
    requires Valid(g) && OuterOk(g, a, b, s, done) && cur.name in done
    ensures cur.name in g.adjacency && RelaxedFrom(g, s.ptr, cur.name, g.adjacency[cur.name])
  {
  }

  /** Relaxing the edges of the popped record changes no finalised record:
      those cost no more than the popped record, and a changed record costs
      at least that much and less than before. */
  lemma DoneUnchanged(g: Graph, a: Label, ptr: map<Label, Record>, pq: multiset<Record>, done: set<Label>,
                      cur: Record, ptr2: map<Label, Record>, pq2: multiset<Record>)
    requires Valid(g) && DoneOk(g, a, ptr, pq, done) && cur in pq
    requires Lowered(ptr, ptr2, pq2, cur.cost)
    ensures forall d :: d in done ==> d in ptr2 && ptr2[d] == ptr[d]
  {
  }

  /** After the pop, every reached vertex not finalised has its current
      record queued. */
  lemma FinalizeFrontier(g: Graph, a: Label, ptr: map<Label, Record>, pq: multiset<Record>, done: set<Label>,
                         cur: Record, ptr2: map<Label, Record>, pq2: multiset<Record>)
    requires Valid(g) && PointersOk(g, a, ptr) && FrontierOk(ptr, pq, done) && cur in pq
    requires Lowered(ptr, ptr2, pq2, cur.cost) && pq - multiset{cur} <= pq2
    ensures FrontierOk(ptr2, pq2, done + {cur.name})
  {
    forall v | v in ptr2 && v !in done + {cur.name} && ptr2[v].cost < INT_MAX
      ensures ptr2[v] in pq2
    {
      if ptr2[v] == ptr[v] {
        assert ptr[v] in pq && ptr[v] != cur;
        assert ptr[v] in pq - multiset{cur};
      }
    }
  }

  /** After the pop, finalised records stay finite and no dearer than
      anything queued. */
  lemma FinalizeOrder(g: Graph, a: Label, ptr: map<Label, Record>, pq: multiset<Record>, done: set<Label>,
                      cur: Record, ptr2: map<Label, Record>, pq2: multiset<Record>)
    requires Valid(g) && DoneOk(g, a, ptr, pq, done) && Cheapest(cur, pq) && cur.cost < INT_MAX
    requires Lowered(ptr, ptr2, pq2, cur.cost) && Grown(pq - multiset{cur}, pq2, cur.cost)
    requires cur.name in g.adjacency && cur.name in ptr && ptr2[cur.name] == ptr[cur.name]
    requires ptr[cur.name].cost <= cur.cost
    ensures done + {cur.name} <= g.adjacency.Keys && done + {cur.name} <= ptr2.Keys
    ensures forall d :: d in done + {cur.name} ==> d in ptr2 && ptr2[d].cost < INT_MAX
    ensures forall d, r :: d in done + {cur.name} && r in pq2 ==> ptr2[d].cost <= r.cost
  {
    DoneUnchanged(g, a, ptr, pq, done, cur, ptr2, pq2);
    forall d, r | d in done + {cur.name} && r in pq2
      ensures ptr2[d].cost <= r.cost
    {
      if r in pq - multiset{cur} {
        assert r in pq;
      }
    }
  }

  /** After the pop, every edge leaving a finalised vertex is relaxed. */
  lemma FinalizeRelaxed(g: Graph, a: Label, ptr: map<Label, Record>, pq: multiset<Record>, done: set<Label>,
                        cur: Record, ptr2: map<Label, Record>, pq2: multiset<Record>)
    requires Valid(g) && DoneOk(g, a, ptr, pq, done) && cur in pq
    requires Lowered(ptr, ptr2, pq2, cur.cost)
    requires cur.name in g.adjacency && RelaxedFrom(g, ptr2, cur.name, g.adjacency[cur.name])
    ensures Relaxed(g, ptr2, done + {cur.name})
  {
    DoneUnchanged(g, a, ptr, pq, done, cur, ptr2, pq2);
    forall d, v | d in done + {cur.name} && d in ptr2 && HasEdge(g, d, v)
      ensures v in ptr2 && ptr2[v].cost <= ptr2[d].cost + Weight(g, d, v)
    {
      if d != cur.name {
        assert v in ptr && ptr[v].cost <= ptr[d].cost + Weight(g, d, v);
      }
    }
  }

  /** After the pop, every finalised vertex carries an optimal cost: the
      newly finalised one by FinalizeOptimal, the others unchanged. */
  lemma FinalizeOptimalKept(g: Graph, a: Label, ptr: map<Label, Record>, pq: multiset<Record>, done: set<Label>,
                            cur: Record, ptr2: map<Label, Record>, pq2: multiset<Record>)
    requires Valid(g) && DoneOk(g, a, ptr, pq, done) && cur in pq
    requires Lowered(ptr, ptr2, pq2, cur.cost)
    requires cur.name in ptr && ptr2[cur.name] == ptr[cur.name]
    requires cur.name !in done ==> cur.cost == ptr[cur.name].cost
    requires cur.name !in done ==> forall p :: PathFrom(g, p, a, cur.name) ==> cur.cost <= Cost(g, p)
    ensures Optimal(g, a, ptr2, done + {cur.name})
  {
    DoneUnchanged(g, a, ptr, pq, done, cur, ptr2, pq2);
    forall d, p | d in done + {cur.name} && d in ptr2 && PathFrom(g, p, a, d)
      ensures ptr2[d].cost <= Cost(g, p)
    {
      assert ptr2[d] == ptr[d];
    }
  }

  /** One pass of the outer loop, the popped record's edges relaxed, keeps
      the outer invariant with the popped vertex finalised. */
  lemma FinalizeStep(g: Graph, a: Label, b: Label, s: Search, done: set<Label>, cur: Record, s2: Search)
    requires Valid(g) && OuterOk(g, a, b, s, done) && Cheapest(cur, s.pq) && cur.name in g.adjacency
    requires StateOk(g, a, b, s2) && cur.name in s2.ptr && s2.ptr[cur.name] == s.ptr[cur.name]
    requires RelaxedFrom(g, s2.ptr, cur.name, g.adjacency[cur.name])
    requires Lowered(s.ptr, s2.ptr, s2.pq, cur.cost) && Grown(s.pq - multiset{cur}, s2.pq, cur.cost)
    ensures OuterOk(g, a, b, s2, done + {cur.name})
  {
    FinalizeFrontier(g, a, s.ptr, s.pq, done, cur, s2.ptr, s2.pq);
    FinalizeDone(g, a, b, s, done, cur, s2);
  }

  /** The part of FinalizeStep about finalised vertices. */
  lemma FinalizeDone(g: Graph, a: Label, b: Label, s: Search, done: set<Label>, cur: Record, s2: Search)
    requires Valid(g) && OuterOk(g, a, b, s, done) && Cheapest(cur, s.pq) && cur.name in g.adjacency
    requires cur.name in s2.ptr && s2.ptr[cur.name] == s.ptr[cur.name]
    requires RelaxedFrom(g, s2.ptr, cur.name, g.adjacency[cur.name])
    requires Lowered(s.ptr, s2.ptr, s2.pq, cur.cost) && Grown(s.pq - multiset{cur}, s2.pq, cur.cost)
    ensures DoneOk(g, a, s2.ptr, s2.pq, done + {cur.name})
  {
    FinalizeOrder(g, a, s.ptr, s.pq, done, cur, s2.ptr, s2.pq);
    FinalizeRelaxed(g, a, s.ptr, s.pq, done, cur, s2.ptr, s2.pq);
    FinalizeOptimalStep(g, a, b, s, done, cur, s2);
  }

  lemma FinalizeOptimalStep(g: Graph, a: Label, b: Label, s: Search, done: set<Label>, cur: Record, s2: Search)
    requires Valid(g) && OuterOk(g, a, b, s, done) && Cheapest(cur, s.pq)
    requires cur.name in s2.ptr && s2.ptr[cur.name] == s.ptr[cur.name]
    requires Lowered(s.ptr, s2.ptr, s2.pq, cur.cost)
    ensures Optimal(g, a, s2.ptr, done + {cur.name})
  {
    if cur.name !in done {
      FirstPopCurrent(g, a, b, s, done, cur);
      FinalizeOptimal(g, a, s.ptr, s.pq, done, cur);
    }
    FinalizeOptimalKept(g, a, s.ptr, s.pq, done, cur, s2.ptr, s2.pq);
  }

  /** Removing a record from the queue keeps the search invariants. */
  lemma PopKeeps(g: Graph, a: Label, b: Label, s: Search, cur: Record)
    requires Valid(g) && StateOk(g, a, b, s)
    ensures StateOk(g, a, b, Search(s.ptr, s.pq - multiset{cur}, s.end))
  {
    forall r | r in s.pq - multiset{cur}
      ensures r in s.pq
    {
    }
  }

  /** The state after initialisation: every vertex at the infinite cost but
      the source, which is queued at cost 0. */
  lemma StartOk(g: Graph, a: Label, b: Label, ptr: map<Label, Record>)
    requires Valid(g) && a in g.graphMap && b in g.graphMap && a != b
    requires ptr.Keys == g.graphMap.Keys
    requires forall v :: v in ptr ==> ptr[v] == Record(v, INT_MAX, false, None)
    ensures OuterOk(g, a, b, Search(ptr[a := Record(a, 0, false, None)], multiset{Record(a, 0, false, None)}, None), {})
  {
    var start := Record(a, 0, false, None);
    var ptr' := ptr[a := start];
    assert forall v :: v in ptr' && ptr'[v].cost < INT_MAX ==> v == a;
  }

  /** Once the queue is empty, no vertex without outgoing edges is reachable
      below the infinite cost. */
  lemma NoSink(g: Graph, a: Label, b: Label, s: Search, done: set<Label>)
    requires Valid(g) && OuterOk(g, a, b, s, done) && s.pq == multiset{}
    ensures !SinkWithin(g, a)
  {
    forall p | IsPath(g, p) && p[0] == a && Cost(g, p) < INT_MAX
      ensures p[|p| - 1] in g.adjacency
    {
      Complete(g, a, s.ptr, done, p);
    }
  }

  /** Once the queue is empty, `end` is set exactly when the destination is
      reachable, and then its chain is a shortest path: the outcome of the
      search is the path rebuilt from `end`, or None. */
  lemma Finished(g: Graph, a: Label, b: Label, s: Search, done: set<Label>)
    requires Valid(g) && a in g.graphMap && b in g.graphMap && a != b
    requires OuterOk(g, a, b, s, done) && s.pq == multiset{}
    ensures s.end.Some? <==> ReachableWithin(g, a, b)
    ensures s.end.Some? ==> IsShortest(g, a, b, Path(Trace(s.end.value), s.ptr[b].cost))
    ensures s.end.Some? ==> SearchOutcome(g, a, b, Ok(Some(Path(Trace(s.end.value), s.ptr[b].cost))))
    ensures s.end.None? ==> SearchOutcome(g, a, b, Ok(None))
  {
    NoSink(g, a, b, s, done);
    forall p | PathFrom(g, p, a, b) && Cost(g, p) < INT_MAX
      ensures s.ptr[b].cost <= Cost(g, p)
    {
      Complete(g, a, s.ptr, done, p);
    }
    if s.end.Some? {
      BackedTrace(g, a, s.end.value);
    }
  }

  /** An unknown endpoint is rejected. */
  lemma Rejected(g: Graph, a: Label, b: Label)
    requires Valid(g) && (a !in g.graphMap || b !in g.graphMap)
    ensures SearchOutcome(g, a, b, Err(IllegalArgument(UnknownVertex)))
  {
  }

  /** From a vertex to itself: the one-vertex path of cost 0. */
  lemma SameVertex(g: Graph, a: Label)
    requires Valid(g) && a in g.graphMap
    ensures SearchOutcome(g, a, a, Ok(Some(Path([a], 0))))
  {
    assert PathFrom(g, [a], a, a);
  }

  // ---------------------------------------------------------------------
  // shortestPath

  /** shortestPath(a, b): rejects unknown endpoints, answers a == b with the
      one-vertex path, and otherwise runs Dijkstra's algorithm from a,
      returning the path rebuilt from b's record, or None when b was never
      reached. Popping a vertex without an adjacency entry dereferences null. */
  method ShortestPath(g: Graph, a: Label, b: Label) returns (r: Result<Option<Path>>)
    requires Valid(g)
    ensures SearchOutcome(g, a, b, r)
  {
    var check := CheckVertexExists(g, a);
    if check.Some? {
      Rejected(g, a, b);
      return Err(check.value);
    }
    check := CheckVertexExists(g, b);
    if check.Some? {
      Rejected(g, a, b);
      return Err(check.value);
    }
    if a == b {
      SameVertex(g, a);
      return Ok(Some(Path([a], 0)));
    }

    r := Dijkstra(g, a, b);
  }

  /** The search proper, after the endpoint checks, for two distinct
      vertices of the graph. */
  method Dijkstra(g: Graph, a: Label, b: Label) returns (r: Result<Option<Path>>)
    requires Valid(g) && a in g.graphMap && b in g.graphMap && a != b
    ensures SearchOutcome(g, a, b, r)
  {
    var s := StartSearch(g, a, b);
    ghost var done: set<Label> := {};

    while s.pq != multiset{}
      invariant OuterOk(g, a, b, s, done)
      decreases |g.graphMap.Keys - done|, |s.pq|
    {
      var npe;
      s, npe, done := Settle(g, a, b, s, done);
      if npe {
        return Err(NullPointer);
      }
    }

    r := Conclude(g, a, b, s, done);
  }

  /** The end of shortestPath, once the queue is empty: the path rebuilt from
      `end` when the destination was reached, None otherwise. */
  method Conclude(g: Graph, a: Label, b: Label, s: Search, ghost done: set<Label>) returns (r: Result<Option<Path>>)
    requires Valid(g) && a in g.graphMap && b in g.graphMap && a != b
    requires OuterOk(g, a, b, s, done) && s.pq == multiset{}
    ensures SearchOutcome(g, a, b, r)
  {
    Finished(g, a, b, s, done);
    if s.end.Some? {
      var path := AppendsPath(s.end.value, s.ptr);
      assert path == Path(Trace(s.end.value), s.ptr[b].cost);
      return Ok(Some(path));
    }
    return Ok(None);
  }

  /** The first loop of shortestPath: a fresh record, at the infinite cost,
      unknown and without predecessor, for every vertex of the graph. */
  method InitialPointers(g: Graph) returns (vertexPointers: map<Label, Record>)
    ensures vertexPointers.Keys == g.graphMap.Keys
    ensures forall v :: v in vertexPointers ==> vertexPointers[v] == Record(v, INT_MAX, false, None)
  {
    var vertices := Vertices(g);
    vertexPointers := map[];
    var rest := vertices;
    while rest != {}
      invariant rest <= vertices && vertexPointers.Keys == vertices - rest
      invariant forall v :: v in vertexPointers ==> vertexPointers[v] == Record(v, INT_MAX, false, None)
      decreases rest
    {
      var v :| v in rest;
      vertexPointers := vertexPointers[v := Record(v, INT_MAX, false, None)];
      rest := rest - {v};
    }
  }

  /** The start of the search: a fresh record, at the infinite cost,
      unknown and without predecessor, for every vertex of the graph but the
      source, whose record costs 0 and is the only one queued; no `end` yet. */
  method StartSearch(g: Graph, a: Label, b: Label) returns (s: Search)
    requires Valid(g) && a in g.graphMap && b in g.graphMap && a != b
    ensures s.ptr.Keys == g.graphMap.Keys
    ensures forall v :: v in s.ptr && v != a ==> s.ptr[v] == Record(v, INT_MAX, false, None)
    ensures a in s.ptr && s.ptr[a] == Record(a, 0, false, None)
    ensures s.pq == multiset{Record(a, 0, false, None)} && s.end.None?
    ensures OuterOk(g, a, b, s, {})
  {
    var vertexPointers := InitialPointers(g);
    var start := Record(a, 0, false, None);
    StartOk(g, a, b, vertexPointers);
    var pq := multiset{start};
    vertexPointers := vertexPointers[a := start];
    s := Search(vertexPointers, pq, None);
  }

  /** One pass of the outer loop of shortestPath: removes a cheapest
      record, marks it known and relaxes the edges leaving its vertex, which
      is then finalised. `npe` is the null dereference on a vertex without
      an adjacency entry. */
  method Settle(g: Graph, a: Label, b: Label, s0: Search, ghost done0: set<Label>)
    returns (s: Search, npe: bool, ghost done: set<Label>)
    requires Valid(g) && a in g.graphMap && b in g.graphMap && a != b
    requires OuterOk(g, a, b, s0, done0) && s0.pq != multiset{}
    ensures npe ==> SearchOutcome(g, a, b, Err(NullPointer))
    ensures !npe ==> OuterOk(g, a, b, s, done)
    ensures !npe ==> |g.graphMap.Keys - done| < |g.graphMap.Keys - done0| || (done == done0 && |s.pq| < |s0.pq|)
  {
    MinimumExists(s0.pq);
    var currentItem :| Cheapest(currentItem, s0.pq);
    ghost var popped := currentItem;
    PopKeeps(g, a, b, s0, currentItem);
    s, npe, done := Search(s0.ptr, s0.pq - multiset{currentItem}, s0.end), false, done0;
    Progress(g.graphMap.Keys, done0, currentItem.name, s0.pq, popped);
    if !currentItem.known {
      currentItem := currentItem.(known := true);
      if currentItem.name !in g.adjacency {
        NullDereference(g, a, b, s0, done0, popped);
        return s, true, done;
      }
      ghost var firstPop := currentItem.name !in done0;
      PopReady(g, a, b, s0, done0, popped);
      if firstPop {
        FirstPopCurrent(g, a, b, s0, done0, popped);
      } else {
        StalePopRelaxed(g, a, b, s0, done0, popped);
      }
      s := RelaxNeighbours(g, a, b, currentItem, s, firstPop);
      FinalizeStep(g, a, b, s0, done0, popped, s);
      done := done0 + {currentItem.name};
    }
  }

  /** Popping a vertex without an adjacency entry exhibits a path from the
      source, cheaper than the infinite cost, to such a vertex. */
  lemma NullDereference(g: Graph, a: Label, b: Label, s: Search, done: set<Label>, cur: Record)
    requires Valid(g) && a in g.graphMap && b in g.graphMap && a != b
    requires OuterOk(g, a, b, s, done) && cur in s.pq && cur.name !in g.adjacency
    ensures SinkWithin(g, a) && SearchOutcome(g, a, b, Err(NullPointer))
  {
    BackedTrace(g, a, cur);
    assert IsPath(g, Trace(cur)) && Trace(cur)[0] == a && Cost(g, Trace(cur)) < INT_MAX;
  }

  /** The popped record, marked known, is backed by a path cheaper than the
      infinite cost. */
  lemma PopReady(g: Graph, a: Label, b: Label, s: Search, done: set<Label>, cur: Record)
    requires Valid(g) && OuterOk(g, a, b, s, done) && cur in s.pq
    ensures Backed(g, a, cur.(known := true)) && cur.cost < INT_MAX
  {
  }

  /** Each pass of the outer loop finalises a new vertex or shrinks the queue. */
  lemma Progress(vs: set<Label>, done: set<Label>, u: Label, pq: multiset<Record>, cur: Record)
    requires u in vs && cur in pq
    ensures u !in done ==> |vs - (done + {u})| < |vs - done|
    ensures u in done ==> done + {u} == done
    ensures |pq - multiset{cur}| == |pq| - 1
  {
    if u !in done {
      assert vs - done == (vs - (done + {u})) + {u};
    }
    assert pq == (pq - multiset{cur}) + multiset{cur};
  }
}
