/** What `select_nodes` and `display_selected` of `Fin/mstStack_Algo.py`
    maintain and promise, stated over the queue contents `c` and the list
    `sel` of selected node ids, with the facts that carry each turn of the
    selection loop. */
module PySelectSpec {
  import opened Energy
  import opened PyGraph
  import opened PyQueues

  /** Every waiting tuple is the tuple of a graph node whose source is the
      queue it waits in. */
  ghost predicate Consistent(g: Graph, c: map<string, seq<Entry>>)
  {
    forall s, e :: e in Q(c, s) ==> HasNode(g, e.id) && Key(NodeOf(g, e.id)) == e && SourceOf(g, e.id) == s
  }

  /** Every pick was made while `total_power` was below the demand. */
  ghost predicate PyPickedBelowDemand(g: Graph, sel: seq<int>, demand: int)
    requires AllInGraph(g, sel)
  {
    forall i :: 0 <= i < |sel| ==> SumPowerIds(g, sel[..i]) < demand
  }

  /** The picks come from the first k + 1 sources of `priority_sources`, in order. */
  ghost predicate PyTierOrdered(g: Graph, sel: seq<int>, k: int)
    requires AllInGraph(g, sel)
  {
    && (forall i :: 0 <= i < |sel| ==> 0 <= Tier(SourceOf(g, sel[i])) <= k)
    && (forall i, j :: 0 <= i < j < |sel| ==> Tier(SourceOf(g, sel[i])) <= Tier(SourceOf(g, sel[j])))
  }

  /** The queues of the first k sources are empty. */
  ghost predicate PyDrained(c: map<string, seq<Entry>>, k: int)
  {
    forall t :: 0 <= t < k && t < |Priority| ==> Q(c, Priority[t]) == []
  }

  /** No tuple still waiting in a pick's queue, and no later pick of the
      same source, is less than that pick's tuple. */
  ghost predicate PyBestFirst(g: Graph, c: map<string, seq<Entry>>, sel: seq<int>)
    requires AllInGraph(g, sel)
  {
    && (forall i, e :: 0 <= i < |sel| && e in Q(c, SourceOf(g, sel[i])) ==> !EntryLess(e, Key(NodeOf(g, sel[i]))))
    && (forall i, j :: 0 <= i < j < |sel| && SourceOf(g, sel[i]) == SourceOf(g, sel[j]) ==>
          !EntryLess(Key(NodeOf(g, sel[j])), Key(NodeOf(g, sel[i]))))
  }

  /** What the loops of `select_nodes` maintain after picking `sel` from the
      queues `c0` (now `c`), having exhausted the first `k` sources, with
      `total_power` at `total`. */
  ghost predicate PySelectInv(g: Graph, c0: map<string, seq<Entry>>, c: map<string, seq<Entry>>,
                              sel: seq<int>, demand: int, k: int, total: int)
  {
    && 0 <= k <= |Priority|
    && Consistent(g, c)
    && AllInGraph(g, sel)
    && total == SumPowerIds(g, sel)
    && AllEntries(c) + PickedKeys(g, sel) == AllEntries(c0)
    && PyPickedBelowDemand(g, sel, demand)
    && PyTierOrdered(g, sel, k)
    && PyDrained(c, k)
    && PyBestFirst(g, c, sel)
  }

  lemma PySelectStart(g: Graph, c: map<string, seq<Entry>>, demand: int)
    requires Consistent(g, c)
    ensures PySelectInv(g, c, c, [], demand, 0, 0)
  {
  }

  lemma PyConsistentStep(g: Graph, c: map<string, seq<Entry>>, q': seq<Entry>, src: string)
    requires Consistent(g, c) && src in c && multiset(q') <= multiset(c[src])
    ensures Consistent(g, c[src := q'])
  {
    var c' := c[src := q'];
    forall s, e | e in Q(c', s) ensures HasNode(g, e.id) && Key(NodeOf(g, e.id)) == e && SourceOf(g, e.id) == s {
      if s == src {
        assert Q(c', src) == q';
        assert e in multiset(q');
        assert e in multiset(c[src]);
        assert e in Q(c, src);
      } else {
        assert Q(c', s) == Q(c, s);
      }
    }
  }

  lemma PyBelowDemandStep(g: Graph, sel: seq<int>, id: int, demand: int)
    requires AllInGraph(g, sel) && HasNode(g, id)
    requires PyPickedBelowDemand(g, sel, demand) && SumPowerIds(g, sel) < demand
    ensures AllInGraph(g, sel + [id]) && PyPickedBelowDemand(g, sel + [id], demand)
  {
    var sel' := sel + [id];
    forall i | 0 <= i < |sel'| ensures SumPowerIds(g, sel'[..i]) < demand {
      if i < |sel| {
        assert sel'[..i] == sel[..i];
      } else {
        assert sel'[..i] == sel;
      }
    }
  }

  lemma PyTierStep(g: Graph, sel: seq<int>, id: int, k: int)
    requires AllInGraph(g, sel) && HasNode(g, id)
    requires PyTierOrdered(g, sel, k) && 0 <= k && Tier(SourceOf(g, id)) == k
    ensures AllInGraph(g, sel + [id]) && PyTierOrdered(g, sel + [id], k)
  {
    var sel' := sel + [id];
    forall i | 0 <= i < |sel'| ensures 0 <= Tier(SourceOf(g, sel'[i])) <= k {
      if i < |sel| {
        assert sel'[i] == sel[i];
      } else {
        assert sel'[i] == id;
      }
    }
    forall i, j | 0 <= i < j < |sel'| ensures Tier(SourceOf(g, sel'[i])) <= Tier(SourceOf(g, sel'[j])) {
      assert sel'[i] == sel[i];
    }
  }

  lemma PyFrameStep(c: map<string, seq<Entry>>, q': seq<Entry>, k: int)
    requires 0 <= k < |Priority| && PyDrained(c, k)
    ensures PyDrained(c[Priority[k] := q'], k)
  {
  }

  lemma PyBestFirstStep(g: Graph, c: map<string, seq<Entry>>, q': seq<Entry>, sel: seq<int>, e: Entry, src: string)
    requires AllInGraph(g, sel) && PyBestFirst(g, c, sel) && Consistent(g, c)
    requires src in c && e in c[src] && forall m <- c[src] :: !EntryLess(m, e)
    requires multiset(q') + multiset{e} == multiset(c[src])
    ensures HasNode(g, e.id) && AllInGraph(g, sel + [e.id]) && PyBestFirst(g, c[src := q'], sel + [e.id])
  {
    var c' := c[src := q'];
    var sel' := sel + [e.id];
    assert Q(c, src) == c[src];
    assert HasNode(g, e.id) && Key(NodeOf(g, e.id)) == e && SourceOf(g, e.id) == src;
    assert AllInGraph(g, sel');
    forall i, m | 0 <= i < |sel'| && m in Q(c', SourceOf(g, sel'[i]))
      ensures !EntryLess(m, Key(NodeOf(g, sel'[i])))
    {
      if SourceOf(g, sel'[i]) == src {
        assert Q(c', src) == q';
        assert m in multiset(q');
        assert m in multiset(c[src]);
        assert m in c[src];
        if i < |sel| {
          assert sel'[i] == sel[i];
        }
      } else {
        assert i < |sel| && sel'[i] == sel[i];
        assert Q(c', SourceOf(g, sel[i])) == Q(c, SourceOf(g, sel[i]));
      }
    }
    forall i, j | 0 <= i < j < |sel'| && SourceOf(g, sel'[i]) == SourceOf(g, sel'[j])
      ensures !EntryLess(Key(NodeOf(g, sel'[j])), Key(NodeOf(g, sel'[i])))
    {
      if j == |sel| {
        assert sel'[i] == sel[i] && sel'[j] == e.id;
        assert e in Q(c, SourceOf(g, sel[i]));
      } else {
        assert sel'[i] == sel[i] && sel'[j] == sel[j];
      }
    }
  }

  lemma PyConservedStep(g: Graph, c0: map<string, seq<Entry>>, c: map<string, seq<Entry>>,
                        q': seq<Entry>, sel: seq<int>, e: Entry, src: string)
    requires AllInGraph(g, sel) && HasNode(g, e.id) && Key(NodeOf(g, e.id)) == e
    requires AllEntries(c) + PickedKeys(g, sel) == AllEntries(c0)
    requires src in Priority && src in c && multiset(q') + multiset{e} == multiset(c[src])
    ensures AllInGraph(g, sel + [e.id])
    ensures AllEntries(c[src := q']) + PickedKeys(g, sel + [e.id]) == AllEntries(c0)
  {
    var c' := c[src := q'];
    AllEntriesUpdate(c, src, q');
    assert Q(c, src) == c[src];
    TakeOut(AllEntries(c'), AllEntries(c), multiset(c[src]), multiset(q'), e);
    assert (sel + [e.id])[..|sel|] == sel;
    MoveToPicks(AllEntries(c'), AllEntries(c), PickedKeys(g, sel), AllEntries(c0), e);
  }

  lemma ConsistentAt(g: Graph, c: map<string, seq<Entry>>, src: string, e: Entry)
    requires Consistent(g, c) && src in c && e in c[src]
    ensures HasNode(g, e.id) && Key(NodeOf(g, e.id)) == e && SourceOf(g, e.id) == src
  {
    assert e in Q(c, src);
  }

  lemma SumPowerAppend(g: Graph, sel: seq<int>, id: int)
    requires AllInGraph(g, sel) && HasNode(g, id)
    ensures AllInGraph(g, sel + [id])
    ensures SumPowerIds(g, sel + [id]) == SumPowerIds(g, sel) + NodeOf(g, id).powerOutput
  {
    assert (sel + [id])[..|sel|] == sel;
  }

  /** One turn of the inner loop of `select_nodes`: `q.get()` while the
      total is below demand keeps `PySelectInv`. */
  lemma PyPickStep(g: Graph, c0: map<string, seq<Entry>>, c: map<string, seq<Entry>>, c': map<string, seq<Entry>>,
                   sel: seq<int>, e: Entry, demand: int, k: int, total: int)
    requires PySelectInv(g, c0, c, sel, demand, k, total) && k < |Priority| && total < demand
    requires Priority[k] in c && e in c[Priority[k]] && forall m <- c[Priority[k]] :: !EntryLess(m, e)
    requires Priority[k] in c' && c' == c[Priority[k] := c'[Priority[k]]]
    requires multiset(c'[Priority[k]]) + multiset{e} == multiset(c[Priority[k]])
    ensures HasNode(g, e.id)
    ensures PySelectInv(g, c0, c', sel + [e.id], demand, k, total + NodeOf(g, e.id).powerOutput)
  {
    var src := Priority[k];
    var q' := c'[src];
    ConsistentAt(g, c, src, e);
    TierOfPriority(k);
    SumPowerAppend(g, sel, e.id);
    PyConsistentStep(g, c, q', src);
    PyConservedStep(g, c0, c, q', sel, e, src);
    PyBelowDemandStep(g, sel, e.id, demand);
    PyTierStep(g, sel, e.id, k);
    PyFrameStep(c, q', k);
    PyBestFirstStep(g, c, q', sel, e, src);
  }

  lemma PyNextTier(g: Graph, c0: map<string, seq<Entry>>, c: map<string, seq<Entry>>,
                   sel: seq<int>, demand: int, k: int, total: int)
    requires PySelectInv(g, c0, c, sel, demand, k, total) && k < |Priority|
    requires Q(c, Priority[k]) == []
    ensures PySelectInv(g, c0, c, sel, demand, k + 1, total)
  {
  }

  /** When the loops end, every pick came from one of the four sources and
      every source before a pick's own was exhausted. */
  lemma PySelectDrained(g: Graph, c: map<string, seq<Entry>>, sel: seq<int>, k: int)
    requires AllInGraph(g, sel) && PyTierOrdered(g, sel, k) && PyDrained(c, k)
    ensures k == |Priority| ==> forall s <- Priority :: Q(c, s) == []
    ensures forall i, t :: 0 <= i < |sel| && 0 <= t < Tier(SourceOf(g, sel[i])) ==> Q(c, Priority[t]) == []
    ensures forall id <- sel :: SourceOf(g, id) in Priority
  {
    forall id | id in sel ensures SourceOf(g, id) in Priority {
      var i :| 0 <= i < |sel| && sel[i] == id;
      assert 0 <= Tier(SourceOf(g, sel[i]));
    }
  }

  /** What `select_nodes` promises once it leaves its loops, either with
      every queue drained or with the demand met. */
  lemma PySelectEnd(g: Graph, c0: map<string, seq<Entry>>, c: map<string, seq<Entry>>,
                    sel: seq<int>, demand: int, k: int, total: int)
    requires PySelectInv(g, c0, c, sel, demand, k, total)
    requires k == |Priority| || total >= demand
    ensures Consistent(g, c) && AllInGraph(g, sel) && total == SumPowerIds(g, sel)
    ensures total >= demand || forall s <- Priority :: Q(c, s) == []
    ensures forall i :: 0 <= i < |sel| ==> SumPowerIds(g, sel[..i]) < demand
    ensures forall id <- sel :: SourceOf(g, id) in Priority
    ensures forall i, j :: 0 <= i < j < |sel| ==> Tier(SourceOf(g, sel[i])) <= Tier(SourceOf(g, sel[j]))
    ensures forall i, t :: 0 <= i < |sel| && 0 <= t < Tier(SourceOf(g, sel[i])) ==> Q(c, Priority[t]) == []
    ensures PyBestFirst(g, c, sel)
    ensures AllEntries(c) + PickedKeys(g, sel) == AllEntries(c0)
  {
    PySelectDrained(g, c, sel, k);
  }

  /** The index of the first node whose source is not one of the four, or
      the node count when there is none: where `build_priority_queues`
      raises `KeyError`. */
  function FirstUnknown(nodes: seq<PyNode>): (i: nat)
    ensures i <= |nodes|
    ensures forall j :: 0 <= j < i ==> nodes[j].energySource in Priority
    ensures i < |nodes| ==> nodes[i].energySource !in Priority
    decreases |nodes|
  {
    if nodes == [] then 0
    else if nodes[0].energySource !in Priority then 0
    else 1 + FirstUnknown(nodes[1..])
  }

  /** The tuples the queues of `srcs` receive from `nodes`. */
  function QueuedKeysIn(nodes: seq<PyNode>, srcs: seq<string>): multiset<Entry>
    decreases |srcs|
  {
    if srcs == [] then multiset{}
    else QueuedKeysIn(nodes, srcs[..|srcs| - 1]) + multiset(EntriesOf(nodes, srcs[|srcs| - 1]))
  }

  /** The tuples the four queues receive from `nodes`. */
  function QueuedKeys(nodes: seq<PyNode>): multiset<Entry>
  {
    QueuedKeysIn(nodes, Priority)
  }

  /** The tuple `n` adds to the queues of `srcs`. */
  function Added(n: PyNode, srcs: seq<string>): multiset<Entry>
  {
    if n.energySource in srcs then multiset{Key(n)} else multiset{}
  }

  /** Queueing one more node adds its tuple to the queue of its source. */
  lemma {:induction false} QueuedKeysInStep(nodes: seq<PyNode>, srcs: seq<string>)
    requires nodes != [] && DistinctSources(srcs)
    ensures QueuedKeysIn(nodes, srcs) == QueuedKeysIn(nodes[..|nodes| - 1], srcs) + Added(nodes[|nodes| - 1], srcs)
    decreases |srcs|
  {
    if srcs != [] {
      var prefix, last := nodes[..|nodes| - 1], nodes[|nodes| - 1];
      var init, s := srcs[..|srcs| - 1], srcs[|srcs| - 1];
      assert srcs == init + [s];
      assert DistinctSources(init);
      QueuedKeysInStep(nodes, init);
      var d := if last.energySource == s then [Key(last)] else [];
      assert EntriesOf(nodes, s) == EntriesOf(prefix, s) + d;
      Regroup(QueuedKeysIn(prefix, init), Added(last, init), multiset(EntriesOf(prefix, s)), multiset(d));
      if last.energySource == s {
        assert last.energySource !in init;
      }
      assert Added(last, init) + multiset(d) == Added(last, srcs);
    }
  }

  lemma Regroup<T>(a: multiset<T>, da: multiset<T>, b: multiset<T>, db: multiset<T>)
    ensures (a + da) + (b + db) == (a + b) + (da + db)
  {
    forall x ensures ((a + da) + (b + db))[x] == ((a + b) + (da + db))[x] {
    }
  }

  lemma {:induction false} NothingQueued(srcs: seq<string>)
    ensures QueuedKeysIn([], srcs) == multiset{}
    decreases |srcs|
  {
    if srcs != [] {
      NothingQueued(srcs[..|srcs| - 1]);
    }
  }

  /** Queues built from the graph hold exactly its nodes' tuples, each in
      the queue of its node's source. */
  lemma {:induction false} BuiltEntries(nodes: seq<PyNode>)
    requires forall n <- nodes :: n.energySource in Priority
    ensures QueuedKeys(nodes) == multiset(NodeKeys(nodes))
    decreases |nodes|
  {
    if nodes == [] {
      NothingQueued(Priority);
    } else {
      var prefix := nodes[..|nodes| - 1];
      assert forall n <- prefix :: n in nodes;
      BuiltEntries(prefix);
      BuiltEntriesStep(nodes);
    }
  }

  lemma BuiltEntriesStep(nodes: seq<PyNode>)
    requires nodes != [] && nodes[|nodes| - 1].energySource in Priority
    requires QueuedKeys(nodes[..|nodes| - 1]) == multiset(NodeKeys(nodes[..|nodes| - 1]))
    ensures QueuedKeys(nodes) == multiset(NodeKeys(nodes))
  {
    var prefix, last := nodes[..|nodes| - 1], nodes[|nodes| - 1];
    PriorityDistinct();
    QueuedKeysInStep(nodes, Priority);
    assert NodeKeys(nodes) == NodeKeys(prefix) + [Key(last)];
  }

  lemma BuiltConsistent(g: Graph, c: map<string, seq<Entry>>)
    requires UniqueIds(g)
    requires forall s :: s in c <==> s in Priority
    requires forall s <- Priority :: c[s] == EntriesOf(g.nodes, s)
    ensures Consistent(g, c)
  {
    forall s, e | e in Q(c, s) ensures HasNode(g, e.id) && Key(NodeOf(g, e.id)) == e && SourceOf(g, e.id) == s {
      assert e in EntriesOf(g.nodes, s);
      EntriesOfOrigin(g.nodes, s);
      var n :| n in g.nodes && n.energySource == s && e == Key(n);
      NodeOfMember(g, n);
    }
  }

  /** Distinct elements occur once each. */
  lemma {:induction false} DistinctOnce(s: seq<Entry>)
    requires forall i, j :: 0 <= i < j < |s| ==> s[i] != s[j]
    ensures forall e :: multiset(s)[e] <= 1
    decreases |s|
  {
    if s != [] {
      var prefix := s[..|s| - 1];
      DistinctOnce(prefix);
      assert s == prefix + [s[|s| - 1]];
      assert s[|s| - 1] !in prefix;
    }
  }

  lemma TwiceCounted(s: seq<Entry>, i: nat, j: nat)
    requires i < j < |s| && s[i] == s[j]
    ensures multiset(s)[s[i]] >= 2
  {
    assert s == s[..j] + [s[j]] + s[j + 1..];
    assert s[i] in s[..j];
  }

  /** Picks drawn from queues that held every node once are distinct. */
  lemma PicksDistinct(g: Graph, sel: seq<int>)
    requires UniqueIds(g) && AllInGraph(g, sel)
    requires PickedKeys(g, sel) <= multiset(NodeKeys(g.nodes))
    ensures NoDuplicates(sel)
  {
    PickedKeysOfKeys(g, sel);
    forall i, j | 0 <= i < j < |g.nodes| ensures NodeKeys(g.nodes)[i] != NodeKeys(g.nodes)[j] {
      assert g.nodes[i].id != g.nodes[j].id;
    }
    DistinctOnce(NodeKeys(g.nodes));
    forall i, j | 0 <= i < j < |sel| ensures sel[i] != sel[j] {
      if sel[i] == sel[j] {
        TwiceCounted(KeysOf(g, sel), i, j);
        assert false;
      }
    }
  }

  /** Drained queues that held every node mean every node was picked. */
  lemma EveryNodePicked(g: Graph, sel: seq<int>)
    requires UniqueIds(g) && AllInGraph(g, sel)
    requires PickedKeys(g, sel) == multiset(NodeKeys(g.nodes))
    ensures forall n <- g.nodes :: n.id in sel
  {
    PickedKeysOfKeys(g, sel);
    forall n | n in g.nodes ensures n.id in sel {
      var p :| 0 <= p < |g.nodes| && g.nodes[p] == n;
      assert Key(n) in multiset(NodeKeys(g.nodes)) by {
        assert NodeKeys(g.nodes)[p] == Key(n);
      }
      assert Key(n) in KeysOf(g, sel);
      var i :| 0 <= i < |sel| && KeysOf(g, sel)[i] == Key(n);
      assert sel[i] == n.id;
    }
  }

  /** The number of nodes of `sel` whose source is `src`. */
  function CountSource(g: Graph, sel: seq<int>, src: string): nat
    requires AllInGraph(g, sel)
    decreases |sel|
  {
    if sel == [] then 0
    else
      CountSource(g, sel[..|sel| - 1], src) + if SourceOf(g, sel[|sel| - 1]) == src then 1 else 0
  }

  /** The number of nodes of `sel` whose source is one of the four. */
  function CountKnown(g: Graph, sel: seq<int>): nat
    requires AllInGraph(g, sel)
    decreases |sel|
  {
    if sel == [] then 0
    else
      CountKnown(g, sel[..|sel| - 1]) + if SourceOf(g, sel[|sel| - 1]) in Priority then 1 else 0
  }

  /** The four breakdown counts add up to the selected nodes of the four
      sources, which is every selected node when all their sources are known. */
  lemma {:induction false} BreakdownTotal(g: Graph, sel: seq<int>)
    requires AllInGraph(g, sel)
    ensures CountSource(g, sel, "Solar") + CountSource(g, sel, "Wind") + CountSource(g, sel, "Hydro")
            + CountSource(g, sel, "Coal") == CountKnown(g, sel)
    ensures CountKnown(g, sel) <= |sel|
    ensures (forall id <- sel :: SourceOf(g, id) in Priority) ==> CountKnown(g, sel) == |sel|
    decreases |sel|
  {
    if sel != [] {
      BreakdownTotal(g, sel[..|sel| - 1]);
    }
  }
}
