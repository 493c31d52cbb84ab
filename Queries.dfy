/** The read-only queries of MyGraph. Each builds its answer in a loop over
    one of the graph's fields; none changes the graph. */
module Queries {
  import opened Common
  import opened GraphModel

  /** checkVertexExists: no exception exactly for a key of graphMap. */
  function CheckVertexExists(g: Graph, v: Label): (r: Option<Error>)
    ensures r.None? <==> v in g.graphMap
    ensures r.Some? ==> r.value == IllegalArgument(UnknownVertex)
  {
    if v !in g.graphMap then Some(IllegalArgument(UnknownVertex)) else None
  }

  /** vertices(): a copy of every key of graphMap. */
  method Vertices(g: Graph) returns (r: set<Label>)
    ensures r == g.graphMap.Keys
  {
    r := {};
    var rest := g.graphMap.Keys;
    while rest != {}
      invariant rest <= g.graphMap.Keys
      invariant r == g.graphMap.Keys - rest
      decreases rest
    {
      var item :| item in rest;
      r := r + {item};
      rest := rest - {item};
    }
  }

  /** edges(): a copy of every edge of the edge set. */
  method Edges(g: Graph) returns (r: set<Edge>)
    ensures r == g.edgeSet
  {
    r := {};
    var rest := g.edgeSet;
    while rest != {}
      invariant rest <= g.edgeSet
      invariant r == g.edgeSet - rest
      decreases rest
    {
      var item :| item in rest;
      r := r + {Edge(item.source, item.destination, item.weight)};
      rest := rest - {item};
    }
  }

  /** adjacentVertices(v): the destinations of the edges leaving v. An
      unknown v is rejected; a vertex without outgoing edges has no
      adjacency entry, and iterating over the missing entry dereferences null. */
  method AdjacentVertices(g: Graph, v: Label) returns (r: Result<set<Label>>)
    requires Valid(g)
    ensures r.Err? ==> r == Err(IllegalArgument(UnknownVertex)) || r == Err(NullPointer)
    ensures v !in g.graphMap <==> r == Err(IllegalArgument(UnknownVertex))
    ensures v in g.graphMap && v !in g.adjacency <==> r == Err(NullPointer)
    ensures r.Ok? ==> forall w :: w in r.value <==> exists e :: e in g.edgeSet && e.source == v && e.destination == w
  {
    var check := CheckVertexExists(g, v);
    if check.Some? {
      return Err(check.value);
    }
    if v !in g.adjacency {
      return Err(NullPointer);
    }
    var adjacent: set<Label> := {};
    var rest := g.adjacency[v];
    while rest != {}
      invariant rest <= g.adjacency[v]
      invariant adjacent == g.adjacency[v] - rest
      decreases rest
    {
      var item :| item in rest;
      adjacent := adjacent + {item};
      rest := rest - {item};
    }
    forall w ensures w in adjacent <==> exists e :: e in g.edgeSet && e.source == v && e.destination == w {
      HasEdgeIff(g, v, w);
    }
    return Ok(adjacent);
  }

  /** edgeCost(a, b): the weight of the edge a -> b, or -1 when there is
      none. Unknown vertices are rejected; a source without outgoing edges
      has a null edge set, and iterating over it dereferences null. */
  method EdgeCost(g: Graph, a: Label, b: Label) returns (r: Result<int>)
    requires Valid(g)
    ensures r.Err? ==> r == Err(IllegalArgument(UnknownVertex)) || r == Err(NullPointer)
    ensures a !in g.graphMap || b !in g.graphMap <==> r == Err(IllegalArgument(UnknownVertex))
    ensures a in g.graphMap && b in g.graphMap && g.graphMap[a].None? <==> r == Err(NullPointer)
    ensures r.Ok? ==> (r.value == -1 <==> !exists e :: e in g.edgeSet && e.source == a && e.destination == b)
    ensures r.Ok? && r.value != -1 ==> HasEdge(g, a, b) && r.value == Weight(g, a, b)
  {
    var check := CheckVertexExists(g, a);
    if check.Some? {
      return Err(check.value);
    }
    check := CheckVertexExists(g, b);
    if check.Some? {
      return Err(check.value);
    }
    if g.graphMap[a].None? {
      return Err(NullPointer);
    }
    var outgoing := g.graphMap[a].value;
    assert outgoing == OutEdges(g.edgeSet, a);
    var rest := outgoing;
    while rest != {}
      invariant rest <= outgoing
      invariant forall e :: e in outgoing - rest ==> e.destination != b
      decreases rest
    {
      var edge :| edge in rest;
      if edge.destination == b {
        HasEdgeIff(g, a, b);
        return Ok(edge.weight);
      }
      rest := rest - {edge};
    }
    assert forall e :: e in g.edgeSet && e.source == a ==> e in outgoing;
    return Ok(-1);
  }
}
