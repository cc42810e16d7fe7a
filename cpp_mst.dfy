/** `buildMST` of `Fin/mstStack_Algo.cpp`: the subgraph induced by the
    selected nodes, with endpoints renumbered to positions in the selection
    and every kept weight inflated by 2%, sorted by weight and run through
    Kruskal's algorithm; the cost is kept in an `int`, so every `+=` of a
    `double` weight truncates the running total toward zero. */
module CppMst {
  import opened Energy
  import opened Kruskal
  import opened CppSelect

  /** `selected_index`: each selected name mapped to its position in the
      selection; a later assignment to the same name overwrites. */
  function NameIndex(sel: seq<Node>): map<string, int>
    decreases |sel|
  {
    if sel == [] then map[]
    else NameIndex(sel[..|sel| - 1])[sel[|sel| - 1].name := |sel| - 1]
  }

  /** Exactly the selected names are keys, each mapped to a position holding
      that name, and to the last such position when a name occurs twice. */
  lemma {:induction false} NameIndexSpec(sel: seq<Node>)
    ensures forall name :: name in NameIndex(sel) <==> exists i :: 0 <= i < |sel| && sel[i].name == name
    ensures forall name <- NameIndex(sel) :: 0 <= NameIndex(sel)[name] < |sel| && sel[NameIndex(sel)[name]].name == name
    ensures forall name, j :: name in NameIndex(sel) && NameIndex(sel)[name] < j < |sel| ==> sel[j].name != name
    decreases |sel|
  {
    if sel != [] {
      var prefix := sel[..|sel| - 1];
      NameIndexSpec(prefix);
      forall name | exists i :: 0 <= i < |sel| && sel[i].name == name
        ensures name in NameIndex(sel)
      {
        var i :| 0 <= i < |sel| && sel[i].name == name;
        if i < |sel| - 1 {
          assert prefix[i].name == name;
        }
      }
    }
  }

  /** The loop that fills `selected_index`. */
  method IndexByName(sel: seq<Node>) returns (idx: map<string, int>)
    ensures idx == NameIndex(sel)
  {
    idx := map[];
    for i := 0 to |sel|
      invariant idx == NameIndex(sel[..i])
    {
      assert sel[..i + 1][..i] == sel[..i];
      idx := idx[sel[i].name := i];
    }
    assert sel[..|sel|] == sel;
  }

  /** Both endpoints of the graph edge `e` are selected. */
  predicate Kept(nodes: seq<Node>, idx: map<string, int>, e: Edge)
    requires 0 <= e.u < |nodes| && 0 <= e.v < |nodes|
  {
    nodes[e.u].name in idx && nodes[e.v].name in idx
  }

  /** The candidate made from a kept edge: endpoints renumbered through
      `selected_index`, weight plus 2% loss. */
  function Remap(nodes: seq<Node>, idx: map<string, int>, e: Edge): (c: Edge)
    requires 0 <= e.u < |nodes| && 0 <= e.v < |nodes| && Kept(nodes, idx, e)
    ensures c.u == idx[nodes[e.u].name] && c.v == idx[nodes[e.v].name]
    ensures 50.0 * c.weight == 51.0 * e.weight
  {
    Edge(idx[nodes[e.u].name], idx[nodes[e.v].name], Inflate(e.weight))
  }

  /** `candidate_edges` after the filtering loop has seen `edges`. */
  function Candidates(nodes: seq<Node>, edges: seq<Edge>, idx: map<string, int>): (cs: seq<Edge>)
    requires InRange(edges, |nodes|)
    ensures |cs| <= |edges|
    decreases |edges|
  {
    if edges == [] then []
    else
      var e := edges[|edges| - 1];
      Candidates(nodes, edges[..|edges| - 1], idx) + if Kept(nodes, idx, e) then [Remap(nodes, idx, e)] else []
  }

  /** A candidate is exactly the renumbered, inflated copy of a graph edge
      whose two endpoints are selected. */
  lemma {:induction false} CandidatesSpec(nodes: seq<Node>, edges: seq<Edge>, idx: map<string, int>)
    requires InRange(edges, |nodes|)
    ensures forall c :: c in Candidates(nodes, edges, idx) <==>
              exists e :: e in edges && Kept(nodes, idx, e) && c == Remap(nodes, idx, e)
    decreases |edges|
  {
    if edges != [] {
      var prefix := edges[..|edges| - 1];
      CandidatesSpec(nodes, prefix, idx);
      assert edges == prefix + [edges[|edges| - 1]];
    }
  }

  /** Candidate endpoints are positions in the selection, as `DSU` needs. */
  lemma {:induction false} CandidatesInRange(nodes: seq<Node>, edges: seq<Edge>, sel: seq<Node>)
    requires InRange(edges, |nodes|)
    ensures InRange(Candidates(nodes, edges, NameIndex(sel)), |sel|)
    decreases |edges|
  {
    if edges != [] {
      CandidatesInRange(nodes, edges[..|edges| - 1], sel);
      NameIndexSpec(sel);
    }
  }

  /** With nonnegative graph weights every candidate weight is nonnegative. */
  lemma CandidatesNonnegative(nodes: seq<Node>, edges: seq<Edge>, idx: map<string, int>)
    requires InRange(edges, |nodes|) && forall e <- edges :: 0.0 <= e.weight
    ensures forall c <- Candidates(nodes, edges, idx) :: 0.0 <= c.weight
  {
    CandidatesSpec(nodes, edges, idx);
  }

  /** The filtering loop of `buildMST`. */
  method CandidateEdges(g: Graph, idx: map<string, int>) returns (cands: seq<Edge>)
    requires InRange(g.edges, |g.nodes|)
    ensures cands == Candidates(g.nodes, g.edges, idx)
  {
    cands := [];
    for i := 0 to |g.edges|
      invariant cands == Candidates(g.nodes, g.edges[..i], idx)
    {
      var edge := g.edges[i];
      assert g.edges[..i + 1][..i] == g.edges[..i];
      if g.nodes[edge.u].name in idx && g.nodes[edge.v].name in idx {
        var effectiveWeight := edge.weight;
        effectiveWeight := effectiveWeight + edge.weight * LossFactor;
        cands := cands + [Edge(idx[g.nodes[edge.u].name], idx[g.nodes[edge.v].name], effectiveWeight)];
      }
    }
    assert g.edges[..|g.edges|] == g.edges;
  }

  /** `total_cost` after `total_cost += edge.weight` for each edge of `es`,
      each sum converted back to `int`. */
  function TruncatedCost(es: seq<Edge>): int
    decreases |es|
  {
    if es == [] then 0 else TruncateToInt(TruncatedCost(es[..|es| - 1]) as real + es[|es| - 1].weight)
  }

  /** With nonnegative weights the truncated total never exceeds the exact
      one and falls short of it by less than one unit per accepted edge. */
  lemma {:induction false} TruncatedCostBounds(es: seq<Edge>)
    requires forall e <- es :: 0.0 <= e.weight
    ensures 0 <= TruncatedCost(es) && TruncatedCost(es) as real <= Cost(es)
    ensures es != [] ==> Cost(es) < TruncatedCost(es) as real + |es| as real
    decreases |es|
  {
    if es != [] {
      var prefix := es[..|es| - 1];
      assert forall e <- prefix :: e in es;
      TruncatedCostBounds(prefix);
    }
  }

  /** Two accepted edges of weight 10.2 cost 20.4 but `total_cost` ends at
      20: the first `+=` already drops the fraction. */
  lemma TruncationExample()
    ensures Cost([Edge(0, 1, 10.2), Edge(1, 2, 10.2)]) == 20.4
    ensures TruncatedCost([Edge(0, 1, 10.2), Edge(1, 2, 10.2)]) == 20
  {
    var es := [Edge(0, 1, 10.2), Edge(1, 2, 10.2)];
    assert es[..1] == [Edge(0, 1, 10.2)];
    assert [Edge(0, 1, 10.2)][..0] == [];
    assert TruncateToInt(10.2) == 10;
    assert TruncateToInt(20.2) == 20;
  }

  /** The cost half of the Kruskal loop: `total_cost += edge.weight` for each
      accepted edge, in acceptance order. */
  method SumCost(mst: seq<Edge>) returns (totalCost: int)
    ensures totalCost == TruncatedCost(mst)
  {
    totalCost := 0;
    for i := 0 to |mst|
      invariant totalCost == TruncatedCost(mst[..i])
    {
      assert mst[..i + 1][..i] == mst[..i];
      totalCost := TruncateToInt(totalCost as real + mst[i].weight);
    }
    assert mst[..|mst|] == mst;
  }

  /** Every accepted edge is a candidate, so with nonnegative graph weights
      the truncated cost stays within one unit per edge below the exact one. */
  lemma MstCostBounds(g: Graph, selected: seq<Node>, mst: seq<Edge>)
    requires InRange(g.edges, |g.nodes|) && forall e <- g.edges :: 0.0 <= e.weight
    requires multiset(mst) <= multiset(Candidates(g.nodes, g.edges, NameIndex(selected)))
    ensures TruncatedCost(mst) as real <= Cost(mst)
    ensures mst == [] || Cost(mst) < TruncatedCost(mst) as real + |mst| as real
  {
    var cands := Candidates(g.nodes, g.edges, NameIndex(selected));
    CandidatesNonnegative(g.nodes, g.edges, NameIndex(selected));
    forall e | e in mst ensures 0.0 <= e.weight {
      assert e in multiset(cands);
    }
    TruncatedCostBounds(mst);
  }

  /** `buildMST(g, selected_nodes)`: the accepted edges form a minimum
      spanning forest of the candidate edges over the selection (no cycle,
      every candidate's endpoints joined, fewer edges than selected nodes, no
      spanning forest of the candidates lighter), each accepted edge is a
      candidate, and `total_cost` is the truncating
      running sum of their weights. */
  method BuildMst(g: Graph, selected: seq<Node>) returns (mst: seq<Edge>, totalCost: int)
    requires InRange(g.edges, |g.nodes|)
    ensures InRange(mst, |selected|) && IsForest(|selected|, mst)
    ensures multiset(mst) <= multiset(Candidates(g.nodes, g.edges, NameIndex(selected)))
    ensures InRange(Candidates(g.nodes, g.edges, NameIndex(selected)), |selected|)
    ensures forall e <- Candidates(g.nodes, g.edges, NameIndex(selected)) :: Linked(|selected|, mst, e.u, e.v)
    ensures mst == [] || |mst| < |selected|
    ensures forall f | SpanningForestOf(|selected|, Candidates(g.nodes, g.edges, NameIndex(selected)), f) ::
              Cost(mst) <= Cost(f)
    ensures totalCost == TruncatedCost(mst)
    ensures (forall e <- g.edges :: 0.0 <= e.weight) ==>
              totalCost as real <= Cost(mst) && (mst == [] || Cost(mst) < totalCost as real + |mst| as real)
  {
    var idx := IndexByName(selected);
    var cands := CandidateEdges(g, idx);
    CandidatesInRange(g.nodes, g.edges, selected);
    var sorted := SortedCopy(cands);
    assert InRange(sorted, |selected|) by {
      forall e | e in sorted ensures 0 <= e.u < |selected| && 0 <= e.v < |selected| {
        assert e in multiset(cands);
      }
    }
    mst := KruskalForest(|selected|, sorted);
    forall e | e in cands ensures Linked(|selected|, mst, e.u, e.v) {
      assert e in multiset(sorted);
    }
    forall f | SpanningForestOf(|selected|, cands, f) ensures Cost(mst) <= Cost(f) {
      SpanningForestOfSameEdges(|selected|, cands, sorted, f);
    }
    totalCost := SumCost(mst);
    if forall e <- g.edges :: 0.0 <= e.weight {
      MstCostBounds(g, selected, mst);
    }
  }
}
