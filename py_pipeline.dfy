/** The driver of `Fin/mstStack_Algo.py`: the global trackers `total_power`
    and `operation_count`, the functions that update them
    (`build_priority_queues`, `select_nodes`, `display_selected`,
    `build_mst`) and `run_clean_power_selection`, which chains them. The
    graph loaded from the pickle file is a parameter; printing and the
    pickle output are left out. */
module PyPipeline {
  import opened Energy
  import opened Kruskal
  import opened PyGraph
  import opened PyQueues
  import opened PySelectSpec

  /** A value, or the `KeyError` raised for a missing dictionary key. */
  datatype Outcome<T> = Ok(value: T) | KeyError(key: string)

  /** How `run_clean_power_selection` ends: with a `KeyError` from
      `build_priority_queues`, early because the demand cannot be met, or
      after building the spanning tree. */
  datatype RunResult =
    | Failed(key: string)
    | Insufficient(selected: seq<int>, breakdown: map<string, int>)
    | Completed(selected: seq<int>, breakdown: map<string, int>, mst: seq<Edge>, cost: real)

  /** The position of `id` in `sel`, or -1 when it is absent. */
  function PosOf(sel: seq<int>, id: int): (p: int)
    ensures -1 <= p < |sel|
    ensures 0 <= p ==> sel[p] == id
    ensures p == -1 <==> id !in sel
    decreases |sel|
  {
    if sel == [] then -1
    else if sel[0] == id then 0
    else
      var p := PosOf(sel[1..], id);
      if p < 0 then -1 else p + 1
  }

  /** The edges of `graph.subgraph(selected_nodes)`: those of `edges` with
      both endpoints selected, endpoints renumbered to positions in `sel`. */
  function SubEdges(sel: seq<int>, edges: seq<Edge>): (sub: seq<Edge>)
    ensures |sub| <= |edges| && InRange(sub, |sel|)
    decreases |edges|
  {
    if edges == [] then []
    else
      var e := edges[|edges| - 1];
      SubEdges(sel, edges[..|edges| - 1]) +
        if e.u in sel && e.v in sel then [Edge(PosOf(sel, e.u), PosOf(sel, e.v), e.weight)] else []
  }

  /** A subgraph edge is exactly a graph edge between two selected nodes,
      renumbered, with its endpoints naming the same nodes. */
  lemma {:induction false} SubEdgesSpec(sel: seq<int>, edges: seq<Edge>)
    ensures forall c :: c in SubEdges(sel, edges) <==>
              exists e :: e in edges && e.u in sel && e.v in sel && c == Edge(PosOf(sel, e.u), PosOf(sel, e.v), e.weight)
    decreases |edges|
  {
    if edges != [] {
      var prefix := edges[..|edges| - 1];
      SubEdgesSpec(sel, prefix);
      assert edges == prefix + [edges[|edges| - 1]];
    }
  }

  /** Every weight of `es` with the 2% loss added. */
  function InflateAll(es: seq<Edge>): (r: seq<Edge>)
    ensures |r| == |es|
    ensures forall i :: 0 <= i < |es| ==> r[i] == es[i].(weight := Inflate(es[i].weight))
  {
    seq(|es|, i requires 0 <= i < |es| => es[i].(weight := Inflate(es[i].weight)))
  }

  /** `mst` is a minimum spanning forest of the selection's subgraph with
      inflated weights: no cycle, each tree edge a subgraph edge, the
      endpoints of every subgraph edge joined, fewer tree edges than nodes,
      and no spanning forest of the subgraph lighter. */
  ghost predicate MinSpanningForest(sel: seq<int>, edges: seq<Edge>, mst: seq<Edge>)
  {
    && InRange(mst, |sel|) && IsForest(|sel|, mst)
    && multiset(mst) <= multiset(InflateAll(SubEdges(sel, edges)))
    && (forall e <- SubEdges(sel, edges) :: Linked(|sel|, mst, e.u, e.v))
    && (mst == [] || |mst| < |sel|)
    && InRange(InflateAll(SubEdges(sel, edges)), |sel|)
    && (forall f | SpanningForestOf(|sel|, InflateAll(SubEdges(sel, edges)), f) :: Cost(mst) <= Cost(f))
  }

  /** `breakdown` holds the four sources, each with the number of selected
      nodes of that source. */
  ghost predicate IsBreakdown(g: Graph, sel: seq<int>, breakdown: map<string, int>)
    requires AllInGraph(g, sel)
  {
    && (forall s :: s in breakdown <==> s in Priority)
    && (forall s <- Priority :: breakdown[s] == CountSource(g, sel, s))
  }

  /** Inflating weights keeps every endpoint. */
  lemma InflateAllInRange(es: seq<Edge>, k: int)
    requires InRange(es, k)
    ensures InRange(InflateAll(es), k)
  {
    forall c | c in InflateAll(es) ensures 0 <= c.u < k && 0 <= c.v < k {
      var i :| 0 <= i < |InflateAll(es)| && InflateAll(es)[i] == c;
      assert es[i] in es;
    }
  }

  /** The queues of `Priority`, filled from `nodes`, hold exactly the tuples
      of those nodes. */
  lemma {:induction false} BuiltQueuesHold(c: map<string, seq<Entry>>, nodes: seq<PyNode>, srcs: seq<string>)
    requires forall s <- srcs :: s in c && c[s] == EntriesOf(nodes, s)
    ensures EntriesIn(c, srcs) == QueuedKeysIn(nodes, srcs)
    decreases |srcs|
  {
    if srcs != [] {
      var init := srcs[..|srcs| - 1];
      assert forall s <- init :: s in srcs;
      BuiltQueuesHold(c, nodes, init);
      assert srcs[|srcs| - 1] in srcs;
    }
  }

  /** Sorting the inflated subgraph edges keeps their endpoints in range. */
  lemma SortedInRange(sub: seq<Edge>, sorted: seq<Edge>, k: int)
    requires InRange(sub, k) && multiset(sorted) == multiset(InflateAll(sub))
    ensures InRange(sorted, k)
  {
    InflateAllInRange(sub, k);
    forall e | e in sorted ensures 0 <= e.u < k && 0 <= e.v < k {
      assert e in multiset(InflateAll(sub));
    }
  }

  /** A minimum spanning forest Kruskal builds from the sorted inflated
      subgraph edges is one of that subgraph. */
  lemma ForestSpansSubgraph(sel: seq<int>, edges: seq<Edge>, sorted: seq<Edge>, mst: seq<Edge>)
    requires multiset(sorted) == multiset(InflateAll(SubEdges(sel, edges))) && InRange(sorted, |sel|)
    requires InRange(mst, |sel|) && IsForest(|sel|, mst) && multiset(mst) <= multiset(sorted)
    requires forall e <- sorted :: Linked(|sel|, mst, e.u, e.v)
    requires mst == [] || |mst| < |sel|
    requires forall f | SpanningForestOf(|sel|, sorted, f) :: Cost(mst) <= Cost(f)
    ensures MinSpanningForest(sel, edges, mst)
  {
    var sub := SubEdges(sel, edges);
    forall e | e in sub ensures Linked(|sel|, mst, e.u, e.v) {
      var i :| 0 <= i < |sub| && sub[i] == e;
      assert InflateAll(sub)[i] in multiset(sorted);
    }
    InflateAllInRange(sub, |sel|);
    forall f | SpanningForestOf(|sel|, InflateAll(sub), f) ensures Cost(mst) <= Cost(f) {
      SpanningForestOfSameEdges(|sel|, InflateAll(sub), sorted, f);
    }
  }

  /** Putting the `i`-th node's tuple into its source's queue extends the
      queues filled from the first `i` nodes to those filled from `i + 1`. */
  lemma QueuesPutStep(c: map<string, seq<Entry>>, c': map<string, seq<Entry>>, nodes: seq<PyNode>, i: int)
    requires 0 <= i < |nodes| && nodes[i].energySource in c
    requires forall s <- Priority :: s in c && c[s] == EntriesOf(nodes[..i], s)
    requires c' == c[nodes[i].energySource := c[nodes[i].energySource] + [Key(nodes[i])]]
    ensures forall s <- Priority :: s in c' && c'[s] == EntriesOf(nodes[..i + 1], s)
  {
    assert nodes[..i + 1][..i] == nodes[..i];
  }

  /** Empty queues hold no tuples. */
  lemma {:induction false} EmptyQueuesHold(c: map<string, seq<Entry>>, srcs: seq<string>)
    requires forall s <- srcs :: Q(c, s) == []
    ensures EntriesIn(c, srcs) == multiset{}
    decreases |srcs|
  {
    if srcs != [] {
      var init := srcs[..|srcs| - 1];
      assert forall s <- init :: s in srcs;
      EmptyQueuesHold(c, init);
      assert srcs[|srcs| - 1] in srcs;
    }
  }

  /** Picks taken from queues built from a graph with unique ids are
      distinct nodes, and once every queue is drained every node was picked. */
  lemma PicksFromBuiltQueues(g: Graph, c0: map<string, seq<Entry>>, c: map<string, seq<Entry>>, sel: seq<int>)
    requires UniqueIds(g) && forall n <- g.nodes :: n.energySource in Priority
    requires forall s <- Priority :: s in c0 && c0[s] == EntriesOf(g.nodes, s)
    requires AllInGraph(g, sel) && AllEntries(c) + PickedKeys(g, sel) == AllEntries(c0)
    ensures NoDuplicates(sel)
    ensures (forall s <- Priority :: Q(c, s) == []) ==> forall n <- g.nodes :: n.id in sel
  {
    BuiltQueuesHold(c0, g.nodes, Priority);
    BuiltEntries(g.nodes);
    PicksDistinct(g, sel);
    if forall s <- Priority :: Q(c, s) == [] {
      EmptyQueuesHold(c, Priority);
      EveryNodePicked(g, sel);
    }
  }

  class Trackers {
    /** `total_power` */
    var totalPower: int
    /** `operation_count` */
    var operationCount: int

    /** The module-level initial values. */
    constructor ()
      ensures totalPower == 0 && operationCount == 0
    {
      totalPower := 0;
      operationCount := 0;
    }

    /** `build_priority_queues(graph)`: one queue per source of `Priority`,
        each node's tuple put into the queue of its source, one operation
        per insertion; a node whose source is not one of the four raises
        `KeyError` after the insertions before it. */
    method BuildPriorityQueues(g: Graph) returns (r: Outcome<PriorityQueues>)
      modifies this
      ensures totalPower == old(totalPower)
      ensures r.KeyError? <==> exists n <- g.nodes :: n.energySource !in Priority
      ensures r.KeyError? ==>
                && FirstUnknown(g.nodes) < |g.nodes|
                && r.key == g.nodes[FirstUnknown(g.nodes)].energySource
                && operationCount == old(operationCount) + FirstUnknown(g.nodes)
      ensures r.Ok? ==>
                && fresh(r.value) && r.value.Valid()
                && (forall s <- Priority :: r.value.contents[s] == EntriesOf(g.nodes, s))
                && operationCount == old(operationCount) + |g.nodes|
    {
      var queues := new PriorityQueues();
      for i := 0 to |g.nodes|
        invariant queues.Valid() && fresh(queues)
        invariant i <= FirstUnknown(g.nodes)
        invariant forall s <- Priority :: queues.contents[s] == EntriesOf(g.nodes[..i], s)
        invariant operationCount == old(operationCount) + i && totalPower == old(totalPower)
      {
        var node := g.nodes[i];
        if node.energySource !in queues.contents {
          assert FirstUnknown(g.nodes) == i;
          return KeyError(node.energySource);
        }
        assert i < FirstUnknown(g.nodes);
        ghost var before := queues.contents;
        queues.Put(node.energySource, Key(node));
        QueuesPutStep(before, queues.contents, g.nodes, i);
        operationCount := operationCount + 1;
      }
      assert g.nodes[..|g.nodes|] == g.nodes;
      return Ok(queues);
    }

    /** `select_nodes(queues, demand, graph)`: resets `total_power`, then
        drains the queues of Solar, Wind, Hydro and Coal in that order,
        least tuple first, adding each node's `power_output` and one
        operation per pick, and stops as soon as the demand is met. */
    method SelectNodes(queues: PriorityQueues, demand: int, g: Graph) returns (selected: seq<int>)
      requires queues.Valid() && Consistent(g, queues.contents)
      modifies this, queues
      ensures queues.Valid() && Consistent(g, queues.contents)
      ensures AllInGraph(g, selected) && totalPower == SumPowerIds(g, selected)
      ensures operationCount == old(operationCount) + |selected|
      ensures totalPower >= demand || forall s <- Priority :: Q(queues.contents, s) == []
      ensures forall i :: 0 <= i < |selected| ==> SumPowerIds(g, selected[..i]) < demand
      ensures forall id <- selected :: SourceOf(g, id) in Priority
      ensures forall i, j :: 0 <= i < j < |selected| ==> Tier(SourceOf(g, selected[i])) <= Tier(SourceOf(g, selected[j]))
      ensures forall i, t :: 0 <= i < |selected| && 0 <= t < Tier(SourceOf(g, selected[i])) ==>
                Q(queues.contents, Priority[t]) == []
      ensures PyBestFirst(g, queues.contents, selected)
      ensures AllEntries(queues.contents) + PickedKeys(g, selected) == AllEntries(old(queues.contents))
    {
      totalPower := 0;
      selected := [];
      ghost var c0 := queues.contents;
      PySelectStart(g, c0, demand);
      var k := 0;
      while k < |Priority|
        invariant queues.Valid()
        invariant PySelectInv(g, c0, queues.contents, selected, demand, k, totalPower)
        invariant operationCount == old(operationCount) + |selected|
      {
        selected := DrainSource(queues, demand, g, c0, k, selected);
        if totalPower >= demand {
          break;
        }
        PyNextTier(g, c0, queues.contents, selected, demand, k, totalPower);
        k := k + 1;
      }
      PySelectEnd(g, c0, queues.contents, selected, demand, k, totalPower);
    }

    /** The inner loop of `select_nodes` for the `k`-th source: while its
        queue is not empty and `total_power` is below the demand, take the
        least tuple, append its node and add its `power_output`, one
        operation per pick. */
    method DrainSource(queues: PriorityQueues, demand: int, g: Graph, ghost c0: map<string, seq<Entry>>, k: int, sel0: seq<int>)
      returns (selected: seq<int>)
      requires k < |Priority| && queues.Valid()
      requires PySelectInv(g, c0, queues.contents, sel0, demand, k, totalPower)
      modifies this, queues
      ensures queues.Valid() && PySelectInv(g, c0, queues.contents, selected, demand, k, totalPower)
      ensures totalPower >= demand || Q(queues.contents, Priority[k]) == []
      ensures operationCount == old(operationCount) + |selected| - |sel0|
    {
      selected := sel0;
      var src := Priority[k];
      while queues.contents[src] != [] && totalPower < demand
        invariant queues.Valid()
        invariant PySelectInv(g, c0, queues.contents, selected, demand, k, totalPower)
        invariant operationCount == old(operationCount) + |selected| - |sel0|
        decreases |queues.contents[src]|
      {
        ghost var before := queues.contents;
        var e := queues.Get(src);
        PyPickStep(g, c0, before, queues.contents, selected, e, demand, k, totalPower);
        selected := selected + [e.id];
        totalPower := totalPower + NodeOf(g, e.id).powerOutput;
        operationCount := operationCount + 1;
      }
    }

    /** `display_selected(graph, selected)`: one operation per selected node
        looked up, then the per-source `breakdown` with one more operation
        per node of the four sources. The breakdown is returned where the
        source prints it. */
    method DisplaySelected(g: Graph, selected: seq<int>) returns (breakdown: map<string, int>)
      requires AllInGraph(g, selected)
      modifies this
      ensures totalPower == old(totalPower)
      ensures IsBreakdown(g, selected, breakdown)
      ensures operationCount == old(operationCount) + |selected| + CountKnown(g, selected)
    {
      for i := 0 to |selected|
        invariant operationCount == old(operationCount) + i && totalPower == old(totalPower)
      {
        operationCount := operationCount + 1;
      }
      breakdown := map["Solar" := 0, "Wind" := 0, "Hydro" := 0, "Coal" := 0];
      for i := 0 to |selected|
        invariant forall s :: s in breakdown <==> s in Priority
        invariant AllInGraph(g, selected[..i])
        invariant forall s <- Priority :: breakdown[s] == CountSource(g, selected[..i], s)
        invariant operationCount == old(operationCount) + |selected| + CountKnown(g, selected[..i])
        invariant totalPower == old(totalPower)
      {
        var prefix := selected[..i + 1];
        assert prefix[..i] == selected[..i];
        assert AllInGraph(g, prefix);
        var src := SourceOf(g, selected[i]);
        if src in breakdown {
          breakdown := breakdown[src := breakdown[src] + 1];
          operationCount := operationCount + 1;
        }
      }
      assert selected[..|selected|] == selected;
    }

    /** `build_mst(graph, selected_nodes)`: copies the induced subgraph (one
        operation per node and per edge), adds the 2% loss to every copied
        weight in place (one operation each), takes a spanning forest with
        Kruskal's algorithm (one operation per tree edge) and sums its
        weights (one operation per tree edge). */
    method BuildMst(g: Graph, selected: seq<int>) returns (mst: seq<Edge>, cost: real)
      requires AllInGraph(g, selected) && NoDuplicates(selected)
      modifies this
      ensures totalPower == old(totalPower)
      ensures MinSpanningForest(selected, g.edges, mst)
      ensures cost == Cost(mst)
      ensures operationCount == old(operationCount) + |selected| + 2 * |SubEdges(selected, g.edges)| + 2 * |mst|
    {
      var sub := SubEdges(selected, g.edges);
      operationCount := operationCount + |selected| + |sub|;
      var copy := new Edge[|sub|](i requires 0 <= i < |sub| => sub[i]);
      for i := 0 to copy.Length
        invariant forall j :: 0 <= j < i ==> copy[j] == sub[j].(weight := Inflate(sub[j].weight))
        invariant forall j :: i <= j < copy.Length ==> copy[j] == sub[j]
        invariant operationCount == old(operationCount) + |selected| + |sub| + i
        invariant totalPower == old(totalPower)
      {
        copy[i] := copy[i].(weight := copy[i].weight + copy[i].weight * LossFactor);
        operationCount := operationCount + 1;
      }
      var inflated := copy[..];
      assert inflated == InflateAll(sub);
      var sorted := SortedCopy(inflated);
      SortedInRange(sub, sorted, |selected|);
      mst := KruskalForest(|selected|, sorted);
      operationCount := operationCount + |mst|;
      ForestSpansSubgraph(selected, g.edges, sorted, mst);
      cost := Cost(mst);
      operationCount := operationCount + |mst|;
    }

    /** `run_clean_power_selection(demand)` on the graph `g`: resets the
        operation count, builds the queues, selects, reports, and returns
        early when the demand is not met; otherwise builds the spanning
        forest and counts one operation per tree edge it reports. */
    method RunCleanPowerSelection(g: Graph, demand: int) returns (r: RunResult)
      requires UniqueIds(g)
      modifies this
      ensures r.Failed? <==> exists n <- g.nodes :: n.energySource !in Priority
      ensures r.Failed? ==>
                && FirstUnknown(g.nodes) < |g.nodes|
                && r.key == g.nodes[FirstUnknown(g.nodes)].energySource
                && operationCount == FirstUnknown(g.nodes)
      ensures !r.Failed? ==>
                && AllInGraph(g, r.selected) && NoDuplicates(r.selected)
                && totalPower == SumPowerIds(g, r.selected)
                && IsBreakdown(g, r.selected, r.breakdown)
      ensures r.Insufficient? ==>
                && totalPower < demand
                && (forall n <- g.nodes :: n.id in r.selected)
                && operationCount == |g.nodes| + 3 * |r.selected|
      ensures r.Completed? ==>
                && totalPower >= demand
                && MinSpanningForest(r.selected, g.edges, r.mst)
                && r.cost == Cost(r.mst)
                && operationCount == |g.nodes| + 4 * |r.selected| + 2 * |SubEdges(r.selected, g.edges)| + 3 * |r.mst|
    {
      operationCount := 0;
      var built := BuildPriorityQueues(g);
      if built.KeyError? {
        return Failed(built.key);
      }
      var queues := built.value;
      ghost var c0 := queues.contents;
      BuiltConsistent(g, c0);
      var selected := SelectNodes(queues, demand, g);
      PicksFromBuiltQueues(g, c0, queues.contents, selected);
      BreakdownTotal(g, selected);
      var breakdown := DisplaySelected(g, selected);
      if totalPower < demand {
        return Insufficient(selected, breakdown);
      }
      var mst, cost := BuildMst(g, selected);
      ghost var power := totalPower;
      for i := 0 to |mst|
        invariant totalPower == power
        invariant operationCount == |g.nodes| + 4 * |selected| + 2 * |SubEdges(selected, g.edges)| + 2 * |mst| + i
      {
        operationCount := operationCount + 1;
      }
      return Completed(selected, breakdown, mst, cost);
    }
  }
}
