/** The state of a constructed MyGraph and the graph-theoretic notions
    (edges, paths, path costs) its contracts are stated in. */
module GraphModel {
  import opened Common

  /** Edge (source, destination, weight); equality is structural. */
  datatype Edge = Edge(source: Label, destination: Label, weight: int)

  /** The three fields of MyGraph. A graphMap value of None is the null the
      constructor stores for a vertex without outgoing edges. */
  datatype Graph = Graph(
    graphMap: map<Label, Option<set<Edge>>>,   // myGraphMap
    adjacency: map<Label, set<Label>>,         // vertexAdjacencyList
    edgeSet: set<Edge>)                        // setOfEdges

  /** The edges of `edges` that leave u. */
  function OutEdges(edges: set<Edge>, u: Label): set<Edge>
  {
    set e | e in edges && e.source == u
  }

  /** The vertices that the edges of `edges` enter. */
  function Destinations(edges: set<Edge>): set<Label>
  {
    set e | e in edges :: e.destination
  }

  /** Two edges between the same vertices with different weights. */
  predicate Conflicts(e1: Edge, e2: Edge)
  {
    e1.source == e2.source && e1.destination == e2.destination && e1.weight != e2.weight
  }

  /** What construction guarantees about the three fields: the graphMap keys
      are the vertices; a vertex has an adjacency entry exactly when its
      graphMap value is not null, and then both index exactly its outgoing
      edges; every edge weighs at least 0 and joins two vertices; no two
      edges conflict. */
  ghost predicate Valid(g: Graph)
  {
    && g.adjacency.Keys <= g.graphMap.Keys
    && (forall u :: u in g.graphMap ==> (g.graphMap[u].Some? <==> u in g.adjacency))
    && (forall u :: u in g.adjacency ==>
          g.graphMap[u] == Some(OutEdges(g.edgeSet, u))
          && g.adjacency[u] == Destinations(OutEdges(g.edgeSet, u)))
    && (forall e :: e in g.edgeSet ==>
          e.weight >= 0 && e.source in g.adjacency && e.destination in g.graphMap)
    && (forall e1, e2 :: e1 in g.edgeSet && e2 in g.edgeSet ==> !Conflicts(e1, e2))
  }

  /** Every vertex has an adjacency entry (possibly empty). */
  ghost predicate Total(g: Graph)
  {
    forall u :: u in g.graphMap ==> u in g.adjacency
  }

  /** There is a directed edge u -> v. */
  ghost predicate HasEdge(g: Graph, u: Label, v: Label)
  {
    u in g.adjacency && v in g.adjacency[u]
  }

  /** The adjacency index holds exactly the edges of the edge set. */
  lemma HasEdgeIff(g: Graph, u: Label, v: Label)
    requires Valid(g)
    ensures HasEdge(g, u, v) <==> exists e :: e in g.edgeSet && e.source == u && e.destination == v
  {
    if e :| e in g.edgeSet && e.source == u && e.destination == v {
      assert e in OutEdges(g.edgeSet, u);
    }
  }

  /** An edge ends at a vertex of the graph. */
  lemma AdjacentInGraph(g: Graph, u: Label, v: Label)
    requires Valid(g) && HasEdge(g, u, v)
    ensures v in g.graphMap
  {
    HasEdgeIff(g, u, v);
  }

  /** The weight of the edge u -> v, which is the same for every such edge. */
  ghost function Weight(g: Graph, u: Label, v: Label): (w: int)
    requires Valid(g) && HasEdge(g, u, v)
    ensures w >= 0
    ensures forall e :: e in g.edgeSet && e.source == u && e.destination == v ==> e.weight == w
  {
    HasEdgeIff(g, u, v);
    var e :| e in g.edgeSet && e.source == u && e.destination == v;
    assert forall e' :: e' in g.edgeSet ==> !Conflicts(e, e');
    e.weight
  }

  /** A non-empty vertex sequence that starts at a vertex and follows edges. */
  ghost predicate IsPath(g: Graph, p: seq<Label>)
  {
    && |p| >= 1
    && p[0] in g.graphMap
    && forall i :: 0 <= i < |p| - 1 ==> HasEdge(g, p[i], p[i + 1])
  }

  /** A path from a to b. */
  ghost predicate PathFrom(g: Graph, p: seq<Label>, a: Label, b: Label)
  {
    IsPath(g, p) && p[0] == a && p[|p| - 1] == b
  }

  /** The sum of the weights of a path's edges. */
  ghost function Cost(g: Graph, p: seq<Label>): (c: int)
    requires Valid(g) && IsPath(g, p)
    ensures c >= 0
    decreases |p|
  {
    if |p| == 1 then 0
    else
      assert IsPath(g, p[..|p| - 1]);
      Cost(g, p[..|p| - 1]) + Weight(g, p[|p| - 2], p[|p| - 1])
  }

  /** Every vertex on a path is a vertex of the graph. */
  lemma {:induction false} PathInGraph(g: Graph, p: seq<Label>, i: int)
    requires Valid(g) && IsPath(g, p) && 0 <= i < |p|
    ensures p[i] in g.graphMap
  {
    if i > 0 {
      assert HasEdge(g, p[i - 1], p[i]);
      HasEdgeIff(g, p[i - 1], p[i]);
    }
  }

  /** Extending a path by an edge adds that edge's weight to its cost. */
  lemma ExtendPath(g: Graph, p: seq<Label>, v: Label)
    requires Valid(g) && IsPath(g, p) && HasEdge(g, p[|p| - 1], v)
    ensures IsPath(g, p + [v])
    ensures Cost(g, p + [v]) == Cost(g, p) + Weight(g, p[|p| - 1], v)
  {
    var q := p + [v];
    assert q[..|q| - 1] == p;
    assert forall i :: 0 <= i < |q| - 1 ==> HasEdge(g, q[i], q[i + 1]) by {
      forall i | 0 <= i < |q| - 1 ensures HasEdge(g, q[i], q[i + 1]) {
        if i < |p| - 1 { assert q[i] == p[i] && q[i + 1] == p[i + 1]; }
      }
    }
  }

  /** A prefix of a path is a path that costs no more (weights are non-negative). */
  lemma {:induction false} PrefixCost(g: Graph, p: seq<Label>, k: int)
    requires Valid(g) && IsPath(g, p) && 1 <= k <= |p|
    ensures IsPath(g, p[..k])
    ensures Cost(g, p[..k]) <= Cost(g, p)
    decreases |p|
  {
    assert IsPath(g, p[..k]) by {
      forall i | 0 <= i < k - 1 ensures HasEdge(g, p[..k][i], p[..k][i + 1]) {
        assert p[..k][i] == p[i] && p[..k][i + 1] == p[i + 1];
      }
    }
    if k < |p| {
      var q := p[..|p| - 1];
      assert IsPath(g, q);
      PrefixCost(g, q, k);
      assert q[..k] == p[..k];
    } else {
      assert p[..k] == p;
    }
  }
}
