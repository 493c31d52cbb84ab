/** A two-vertex graph A -> B (weight 1) on which the constructor as written
    and the corrected constructor behave differently: B has no outgoing
    edges, so the original registers it with a null edge set and no
    adjacency entry. */
module Examples {
  import opened Common
  import opened GraphModel
  import opened Construction
  import opened Queries
  import opened ShortestPaths

  const AB: Edge := Edge("A", "B", 1)

  /** Facts about any valid graph whose vertices are A and B and whose only
      edge is A -> B. */
  lemma OneEdge(g: Graph)
    requires Valid(g) && g.graphMap.Keys == {"A", "B"} && g.edgeSet == {AB}
    ensures HasEdge(g, "A", "B") && Weight(g, "A", "B") == 1
    ensures forall x :: HasEdge(g, x, "B") ==> x == "A"
    ensures PathFrom(g, ["A", "B"], "A", "B") && Cost(g, ["A", "B"]) == 1
  {
    HasEdgeIff(g, "A", "B");
    forall x | HasEdge(g, x, "B") ensures x == "A" {
      HasEdgeIff(g, x, "B");
    }
    ExtendPath(g, ["A"], "B");
    assert ["A"] + ["B"] == ["A", "B"];
  }

  /** A -> B is the only path from A to B in such a graph. */
  lemma OnlyPath(g: Graph, p: seq<Label>)
    requires Valid(g) && g.graphMap.Keys == {"A", "B"} && g.edgeSet == {AB}
    requires PathFrom(g, p, "A", "B")
    ensures p == ["A", "B"]
  {
    assert |p| >= 2;
    assert HasEdge(g, p[0], p[1]);
    HasEdgeIff(g, p[0], p[1]);
    if |p| > 2 {
      assert HasEdge(g, p[1], p[2]);
      HasEdgeIff(g, p[1], p[2]);
      assert false;
    }
  }

  /** The constructor as written accepts vertices {A, B} and edge A -> B,
      and leaves B without an adjacency entry. */
  lemma OriginalGraph()
    ensures var r := Construct(Some({"A", "B"}), Some([AB]));
      && r.Ok? && Valid(r.value) && r.value.graphMap.Keys == {"A", "B"} && r.value.edgeSet == {AB}
      && r.value.graphMap["B"] == None && "B" !in r.value.adjacency
  {
    var vs, es := {"A", "B"}, [AB];
    assert Acceptable(vs, es);
    assert EdgeSetOf(es) == {AB};
    assert Sources(es) == {"A"};
  }

  /** The corrected constructor accepts the same input and gives B an
      empty adjacency entry. */
  lemma FixedGraph()
    ensures var r := ConstructFixed(Some({"A", "B"}), Some([AB]));
      && r.Ok? && Valid(r.value) && Total(r.value)
      && r.value.graphMap.Keys == {"A", "B"} && r.value.edgeSet == {AB}
  {
    var vs, es := {"A", "B"}, [AB];
    assert Acceptable(vs, es);
    assert EdgeSetOf(es) == {AB};
  }

  /** As written: adjacentVertices(B) dereferences null, although B is a
      vertex and the documented answer is the empty collection. */
  method OriginalAdjacencyFails() returns (r: Result<set<Label>>)
    ensures r == Err(NullPointer)
  {
    OriginalGraph();
    var g := Construct(Some({"A", "B"}), Some([AB])).value;
    r := AdjacentVertices(g, "B");
  }

  /** As written: shortestPath(A, B) dereferences null when it finalises B,
      although A -> B is a path of cost 1. */
  method OriginalSearchFails() returns (r: Result<Option<Path>>)
    ensures r == Err(NullPointer)
  {
    OriginalGraph();
    var g := Construct(Some({"A", "B"}), Some([AB])).value;
    OneEdge(g);
    assert SinkWithin(g, "A") by {
      assert IsPath(g, ["A", "B"]) && ["A", "B"][1] !in g.adjacency;
    }
    r := ShortestPath(g, "A", "B");
  }

  /** Corrected: adjacentVertices(B) is the empty collection. */
  method FixedAdjacencyEmpty() returns (r: Result<set<Label>>)
    ensures r == Ok({})
  {
    FixedGraph();
    var g := ConstructFixed(Some({"A", "B"}), Some([AB])).value;
    r := AdjacentVertices(g, "B");
    assert "B" in g.graphMap && "B" in g.adjacency;
    assert r.Ok?;
    assert forall w :: w !in r.value by {
      forall w ensures w !in r.value {
        assert forall e :: e in g.edgeSet ==> e.source == "A";
      }
    }
    assert r.value == {};
  }

  /** Corrected: shortestPath(A, B) returns the path A -> B of cost 1. */
  method FixedSearchSucceeds() returns (r: Result<Option<Path>>)
    ensures r == Ok(Some(Path(["A", "B"], 1)))
  {
    FixedGraph();
    var g := ConstructFixed(Some({"A", "B"}), Some([AB])).value;
    OneEdge(g);
    assert !SinkWithin(g, "A") by {
      forall p | IsPath(g, p) ensures p[|p| - 1] in g.adjacency {
        PathInGraph(g, p, |p| - 1);
      }
    }
    assert ReachableWithin(g, "A", "B");
    r := ShortestPath(g, "A", "B");
    OnlyPath(g, r.value.value.vertices);
  }
}
