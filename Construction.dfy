/** The MyGraph constructor: validate the edge collection and index it. */
module Construction {
  import opened Common
  import opened GraphModel

  /** The three fields before any edge is processed. */
  const EMPTY: Graph := Graph(map[], map[], {})

  /** Indexes an accepted edge: adds its destination to the source's
      adjacency entry, the edge to the source's edge set (each created empty
      when absent), and the edge to the global edge set. */
  function AddEdge(t: Graph, e: Edge): Graph
    requires forall u :: u in t.graphMap ==> t.graphMap[u].Some?
  {
    var adjacent := if e.source in t.adjacency then t.adjacency[e.source] else {};
    var outgoing := if e.source in t.graphMap then t.graphMap[e.source].value else {};
    Graph(t.graphMap[e.source := Some(outgoing + {e})],
          t.adjacency[e.source := adjacent + {e.destination}],
          t.edgeSet + {e})
  }

  /** The exception an edge raises, given the vertices and the fields built
      from the edges before it: a negative weight, then a missing endpoint,
      then a conflict with an edge already in the edge set. */
  function CheckEdge(vs: set<Label>, t: Graph, e: Edge): Option<Error>
  {
    if e.weight < 0 then Some(IllegalArgument(NegativeWeight))
    else if !(e.source in vs && e.destination in vs) then Some(IllegalArgument(MissingEndpoint))
    else if exists item :: item in t.edgeSet && Conflicts(item, e) then Some(IllegalArgument(ConflictingWeight))
    else None
  }

  /** The edge loop of the constructor: the fields after processing `es` in
      order, or the exception of the first edge that is rejected. */
  function IndexEdges(vs: set<Label>, es: seq<Edge>): (r: Result<Graph>)
    ensures r.Ok? ==> forall u :: u in r.value.graphMap ==> r.value.graphMap[u].Some?
    decreases |es|
  {
    if es == [] then Ok(EMPTY)
    else
      match IndexEdges(vs, es[..|es| - 1])
      case Err(x) => Err(x)
      case Ok(t) =>
        match CheckEdge(vs, t, es[|es| - 1])
        case Some(x) => Err(x)
        case None => Ok(AddEdge(t, es[|es| - 1]))
  }

  /** The vertex loop of the constructor: every vertex not yet a key of
      graphMap is registered with a null value. */
  function Register(vs: set<Label>, t: Graph): Graph
  {
    Graph(RegisterMap(vs, t.graphMap), t.adjacency, t.edgeSet)
  }

  /** graphMap after the vertex loop. */
  function RegisterMap(vs: set<Label>, m: map<Label, Option<set<Edge>>>): map<Label, Option<set<Edge>>>
  {
    map u | u in vs + m.Keys :: if u in m then m[u] else None
  }

  /** MyGraph(v, e): null collections are rejected first, then the edges are
      indexed, then the vertices are registered. It succeeds exactly on
      acceptable edges, and then the graph is valid, its vertices are exactly
      the given ones, its edges the given ones, and exactly the vertices with
      an outgoing edge have an adjacency entry. */
  function Construct(v: Option<set<Label>>, e: Option<seq<Edge>>): (r: Result<Graph>)
    ensures v.None? ==> r == Err(IllegalArgument(NullVertices))
    ensures v.Some? && e.None? ==> r == Err(IllegalArgument(NullEdges))
    ensures r.Ok? <==> v.Some? && e.Some? && Acceptable(v.value, e.value)
    ensures r.Ok? ==>
      && Valid(r.value) && r.value.graphMap.Keys == v.value && r.value.edgeSet == EdgeSetOf(e.value)
      && r.value.adjacency.Keys == Sources(e.value)
  {
    if v.None? then Err(IllegalArgument(NullVertices))
    else if e.None? then Err(IllegalArgument(NullEdges))
    else
      IndexEdgesCorrect(v.value, e.value);
      match IndexEdges(v.value, e.value)
      case Err(x) => Err(x)
      case Ok(t) =>
        RegisteredIsValid(v.value, e.value);
        Ok(Register(v.value, t))
  }

  /** The edges of a sequence, as a set. */
  function EdgeSetOf(es: seq<Edge>): set<Edge>
  {
    set e | e in es
  }

  /** The vertices some edge of `es` leaves. */
  function Sources(es: seq<Edge>): set<Label>
  {
    set e | e in es :: e.source
  }

  /** What the constructor accepts: every edge weighs at least 0 and joins
      two given vertices, and no two edges conflict. */
  ghost predicate Acceptable(vs: set<Label>, es: seq<Edge>)
  {
    && (forall e :: e in es ==> e.weight >= 0 && e.source in vs && e.destination in vs)
    && (forall e1, e2 :: e1 in es && e2 in es ==> !Conflicts(e1, e2))
  }

  /** The fields that index exactly the edges of `es`. */
  function Indexed(es: seq<Edge>): Graph
  {
    var s := EdgeSetOf(es);
    Graph(map u | u in Sources(es) :: Some(OutEdges(s, u)),
          map u | u in Sources(es) :: Destinations(OutEdges(s, u)),
          s)
  }

  /** The edges leaving u after one more edge is added to a set. */
  lemma OutEdgesAdd(s: set<Edge>, e: Edge, u: Label)
    ensures OutEdges(s + {e}, u) == if u == e.source then OutEdges(s, u) + {e} else OutEdges(s, u)
  {
  }

  /** A vertex that no edge of `es` leaves has no outgoing edges. */
  lemma NoOutEdges(es: seq<Edge>, u: Label)
    requires u !in Sources(es)
    ensures OutEdges(EdgeSetOf(es), u) == {}
  {
    forall x | x in EdgeSetOf(es) ensures x.source != u {
      assert x.source in Sources(es);
    }
  }

  /** The graphMap half of AddEdgeIndexed. */
  lemma AddEdgeGraphMap(es: seq<Edge>, e: Edge)
    ensures AddEdge(Indexed(es), e).graphMap == Indexed(es + [e]).graphMap
  {
    var s := EdgeSetOf(es);
    assert EdgeSetOf(es + [e]) == s + {e};
    assert Sources(es + [e]) == Sources(es) + {e.source};
    var a, t' := AddEdge(Indexed(es), e).graphMap, Indexed(es + [e]).graphMap;
    if e.source !in Sources(es) {
      NoOutEdges(es, e.source);
    }
    forall u | u in a ensures u in t' && a[u] == t'[u] {
      OutEdgesAdd(s, e, u);
    }
    assert a.Keys == t'.Keys;
  }

  /** The adjacency half of AddEdgeIndexed. */
  lemma AddEdgeAdjacency(es: seq<Edge>, e: Edge)
    ensures AddEdge(Indexed(es), e).adjacency == Indexed(es + [e]).adjacency
  {
    var s := EdgeSetOf(es);
    assert EdgeSetOf(es + [e]) == s + {e};
    assert Sources(es + [e]) == Sources(es) + {e.source};
    var a, t' := AddEdge(Indexed(es), e).adjacency, Indexed(es + [e]).adjacency;
    if e.source !in Sources(es) {
      NoOutEdges(es, e.source);
    }
    forall u | u in a ensures u in t' && a[u] == t'[u] {
      OutEdgesAdd(s, e, u);
      if u == e.source {
        DestinationsAdd(OutEdges(s, u), e);
      } else {
        assert a[u] == Indexed(es).adjacency[u];
      }
    }
    assert a.Keys == t'.Keys;
  }

  /** One more edge adds its destination. */
  lemma DestinationsAdd(s: set<Edge>, e: Edge)
    ensures Destinations(s + {e}) == Destinations(s) + {e.destination}
  {
  }

  /** Indexing one more edge gives the index of the longer sequence. */
  lemma AddEdgeIndexed(es: seq<Edge>, e: Edge)
    ensures AddEdge(Indexed(es), e) == Indexed(es + [e])
  {
    assert EdgeSetOf(es + [e]) == EdgeSetOf(es) + {e};
    AddEdgeGraphMap(es, e);
    AddEdgeAdjacency(es, e);
  }

  /** The edge loop succeeds exactly on acceptable edges, and then indexes
      exactly those edges. */
  lemma {:induction false} IndexEdgesCorrect(vs: set<Label>, es: seq<Edge>)
    ensures IndexEdges(vs, es).Ok? <==> Acceptable(vs, es)
    ensures IndexEdges(vs, es).Ok? ==> IndexEdges(vs, es).value == Indexed(es)
    decreases |es|
  {
    if es == [] {
      assert Indexed(es).graphMap == map[];
      assert Indexed(es).adjacency == map[];
    } else {
      var init, e := es[..|es| - 1], es[|es| - 1];
      assert es == init + [e];
      assert forall x :: x in es <==> x in init || x == e;
      IndexEdgesCorrect(vs, init);
      if IndexEdges(vs, init).Ok? {
        var t := IndexEdges(vs, init).value;
        assert t.edgeSet == EdgeSetOf(init);
        if CheckEdge(vs, t, e).None? {
          AddEdgeIndexed(init, e);
          assert Acceptable(vs, es) by {
            forall e1, e2 | e1 in es && e2 in es ensures !Conflicts(e1, e2) {
              if e1 == e && e2 in init {
                assert !Conflicts(e2, e);
              }
            }
          }
        } else if e.weight >= 0 && e.source in vs && e.destination in vs {
          var item :| item in t.edgeSet && Conflicts(item, e);
          assert item in es;
        }
      }
    }
  }

  /** One iteration of the edge loop. */
  lemma IndexStep(vs: set<Label>, es: seq<Edge>, k: int)
    requires 0 <= k < |es| && IndexEdges(vs, es[..k]).Ok?
    ensures var t := IndexEdges(vs, es[..k]).value;
      IndexEdges(vs, es[..k + 1]) ==
        if CheckEdge(vs, t, es[k]).Some? then Err(CheckEdge(vs, t, es[k]).value) else Ok(AddEdge(t, es[k]))
  {
    assert es[..k + 1][..k] == es[..k] && es[..k + 1][k] == es[k];
  }

  /** Once an error is raised, the later edges are not looked at. */
  lemma {:induction false} ErrPropagates(vs: set<Label>, es: seq<Edge>, k: int)
    requires 0 <= k <= |es| && IndexEdges(vs, es[..k]).Err?
    ensures IndexEdges(vs, es) == IndexEdges(vs, es[..k])
    decreases |es|
  {
    if k == |es| {
      assert es[..k] == es;
    } else {
      var init := es[..|es| - 1];
      assert init[..k] == es[..k];
      ErrPropagates(vs, init, k);
    }
  }

  /** The exception raised is the one of the first rejected edge. */
  lemma FirstRejected(vs: set<Label>, es: seq<Edge>, i: int)
    requires 0 <= i < |es| && Acceptable(vs, es[..i])
    requires CheckEdge(vs, Indexed(es[..i]), es[i]).Some?
    ensures IndexEdges(vs, es) == Err(CheckEdge(vs, Indexed(es[..i]), es[i]).value)
  {
    IndexEdgesCorrect(vs, es[..i]);
    assert es[..i + 1][..i] == es[..i];
    assert es[..i + 1][i] == es[i];
    ErrPropagates(vs, es, i + 1);
  }

  /** The registered index of acceptable edges satisfies the graph invariant,
      has the given vertices as keys and the given edges as edge set, and
      gives an adjacency entry exactly to the vertices with an outgoing edge. */
  lemma RegisteredIsValid(vs: set<Label>, es: seq<Edge>)
    requires Acceptable(vs, es)
    ensures var g := Register(vs, Indexed(es));
      && Valid(g) && g.graphMap.Keys == vs && g.edgeSet == EdgeSetOf(es)
      && g.adjacency.Keys == Sources(es)
  {
    var t := Indexed(es);
    var g := Register(vs, t);
    assert Sources(es) <= vs;
    assert g.graphMap.Keys == vs;
    forall e1, e2 | e1 in g.edgeSet && e2 in g.edgeSet ensures !Conflicts(e1, e2) {
      assert e1 in es && e2 in es;
    }
    forall e | e in g.edgeSet
      ensures e.weight >= 0 && e.source in g.adjacency && e.destination in g.graphMap
    {
      assert e in es;
    }
  }

  /** The vertex loop as evidently intended: a vertex without outgoing
      edges is registered with an empty edge set and an empty adjacency
      entry, instead of a null edge set and no adjacency entry. */
  function RegisterFixed(vs: set<Label>, t: Graph): Graph
  {
    Graph(map u | u in vs + t.graphMap.Keys :: if u in t.graphMap then t.graphMap[u] else Some({}),
          map u | u in vs + t.adjacency.Keys :: if u in t.adjacency then t.adjacency[u] else {},
          t.edgeSet)
  }

  /** MyGraph(v, e) with the corrected vertex loop. It accepts and rejects
      exactly what the original does, builds a valid graph with the same
      vertices and edges, and gives every vertex an adjacency entry. */
  function ConstructFixed(v: Option<set<Label>>, e: Option<seq<Edge>>): (r: Result<Graph>)
    ensures r.Err? ==> r == Construct(v, e)
    ensures r.Ok? <==> Construct(v, e).Ok?
    ensures r.Ok? ==>
      && Valid(r.value) && Total(r.value) && r.value.graphMap.Keys == v.value
      && r.value.edgeSet == EdgeSetOf(e.value)
  {
    if v.None? then Err(IllegalArgument(NullVertices))
    else if e.None? then Err(IllegalArgument(NullEdges))
    else
      IndexEdgesCorrect(v.value, e.value);
      match IndexEdges(v.value, e.value)
      case Err(x) => Err(x)
      case Ok(t) =>
        RegisteredFixedIsValid(v.value, e.value);
        Ok(RegisterFixed(v.value, t))
  }

  /** The corrected vertex loop over the index of acceptable edges gives a
      valid graph in which every given vertex has an adjacency entry. */
  lemma RegisteredFixedIsValid(vs: set<Label>, es: seq<Edge>)
    requires Acceptable(vs, es)
    ensures var g := RegisterFixed(vs, Indexed(es));
      && Valid(g) && Total(g) && g.graphMap.Keys == vs && g.edgeSet == EdgeSetOf(es)
  {
    var t := Indexed(es);
    var g := RegisterFixed(vs, t);
    assert Sources(es) <= vs;
    assert g.graphMap.Keys == vs && g.adjacency.Keys == vs;
    forall u | u in g.adjacency
      ensures g.graphMap[u] == Some(OutEdges(g.edgeSet, u))
      ensures g.adjacency[u] == Destinations(OutEdges(g.edgeSet, u))
    {
      if u !in Sources(es) {
        NoOutEdges(es, u);
      }
    }
    forall e1, e2 | e1 in g.edgeSet && e2 in g.edgeSet ensures !Conflicts(e1, e2) {
      assert e1 in es && e2 in es;
    }
    forall x | x in g.edgeSet
      ensures x.weight >= 0 && x.source in g.adjacency && x.destination in g.graphMap
    {
      assert x in es;
    }
  }

  /** Java's edge-by-edge search for a conflicting edge already accepted. */
  method FindConflict(edges: set<Edge>, e: Edge) returns (found: bool)
    ensures found <==> exists item :: item in edges && Conflicts(item, e)
  {
    var rest := edges;
    while rest != {}
      invariant rest <= edges
      invariant forall item :: item in edges - rest ==> !Conflicts(item, e)
      decreases rest
    {
      var item :| item in rest;
      if Conflicts(item, e) {
        return true;
      }
      rest := rest - {item};
    }
    return false;
  }

  /** MyGraph(v, e), filling the three fields in place. */
  method Build(v: Option<set<Label>>, e: Option<seq<Edge>>) returns (r: Result<Graph>)
    ensures r == Construct(v, e)
  {
    if v.None? {
      return Err(IllegalArgument(NullVertices));
    }
    if e.None? {
      return Err(IllegalArgument(NullEdges));
    }
    var indexed := IndexEdgeLoop(v.value, e.value);
    if indexed.Err? {
      return Err(indexed.error);
    }
    var graphMap := RegisterVertices(v.value, indexed.value.graphMap);
    return Ok(Graph(graphMap, indexed.value.adjacency, indexed.value.edgeSet));
  }

  /** The edge loop of the constructor, filling the three fields in place. */
  method IndexEdgeLoop(vs: set<Label>, es: seq<Edge>) returns (r: Result<Graph>)
    ensures r == IndexEdges(vs, es)
  {
    var graphMap: map<Label, Option<set<Edge>>> := map[];
    var adjacency: map<Label, set<Label>> := map[];
    var edgeSet: set<Edge> := {};
    var k := 0;
    while k < |es|
      invariant 0 <= k <= |es|
      invariant IndexEdges(vs, es[..k]) == Ok(Graph(graphMap, adjacency, edgeSet))
    {
      IndexStep(vs, es, k);
      var step := ProcessEdge(vs, Graph(graphMap, adjacency, edgeSet), es[k]);
      if step.Err? {
        ErrPropagates(vs, es, k + 1);
        return step;
      }
      graphMap, adjacency, edgeSet := step.value.graphMap, step.value.adjacency, step.value.edgeSet;
      k := k + 1;
    }
    assert es[..k] == es;
    return Ok(Graph(graphMap, adjacency, edgeSet));
  }

  /** One pass of the edge loop: check the edge, index it under its source,
      look for a conflicting earlier edge, then record it. */
  method ProcessEdge(vs: set<Label>, t: Graph, edge: Edge) returns (r: Result<Graph>)
    requires forall u :: u in t.graphMap ==> t.graphMap[u].Some?
    ensures r == if CheckEdge(vs, t, edge).Some? then Err(CheckEdge(vs, t, edge).value)
                 else Ok(AddEdge(t, edge))
  {
    var graphMap, adjacency, edgeSet := t.graphMap, t.adjacency, t.edgeSet;
    if edge.weight < 0 {
      return Err(IllegalArgument(NegativeWeight));
    }
    if edge.source in vs && edge.destination in vs {
      if edge.source !in adjacency {
        adjacency := adjacency[edge.source := {}];
      }
      adjacency := adjacency[edge.source := adjacency[edge.source] + {edge.destination}];
      if edge.source !in graphMap {
        graphMap := graphMap[edge.source := Some({})];
      }
      graphMap := graphMap[edge.source := Some(graphMap[edge.source].value + {edge})];
      assert graphMap == AddEdge(t, edge).graphMap && adjacency == AddEdge(t, edge).adjacency;
      var conflict := FindConflict(edgeSet, edge);
      if conflict {
        return Err(IllegalArgument(ConflictingWeight));
      }
      edgeSet := edgeSet + {edge};
    } else {
      return Err(IllegalArgument(MissingEndpoint));
    }
    return Ok(Graph(graphMap, adjacency, edgeSet));
  }

  /** The vertex loop of the constructor: registers every vertex that is
      not yet a key, with a null value. */
  method RegisterVertices(vs: set<Label>, indexed: map<Label, Option<set<Edge>>>)
    returns (graphMap: map<Label, Option<set<Edge>>>)
    ensures graphMap == RegisterMap(vs, indexed)
    ensures graphMap.Keys == vs + indexed.Keys
    ensures forall u :: u in graphMap ==> graphMap[u] == if u in indexed then indexed[u] else None
  {
    graphMap := indexed;
    var rest := vs;
    while rest != {}
      invariant rest <= vs
      invariant graphMap.Keys == (vs - rest) + indexed.Keys
      invariant forall u :: u in graphMap ==> graphMap[u] == if u in indexed then indexed[u] else None
      decreases rest
    {
      var item :| item in rest;
      if item !in graphMap {
        graphMap := graphMap[item := None];
      }
      rest := rest - {item};
    }
    assert vs - rest == vs;
  }
}
