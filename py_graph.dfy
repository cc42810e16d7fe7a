/** The data of `Fin/mstStack_Algo.py`: a networkx graph whose nodes are
    keyed by id and carry `name`, `energy_source`, `clean_score` and
    `power_output`, and whose edges join node ids with a `weight`; and the
    tuple `(clean_score, -power_output, node_id)` under which a node waits in
    its source's `PriorityQueue`. */
module PyGraph {
  import opened Kruskal

  datatype PyNode = PyNode(id: int, name: string, energySource: string, cleanScore: int, powerOutput: int)

  /** A graph: its nodes in insertion order, its edges between node ids. */
  datatype Graph = Graph(nodes: seq<PyNode>, edges: seq<Edge>)

  /** Node ids are dictionary keys in networkx, so no id occurs twice. */
  predicate UniqueIds(g: Graph)
  {
    forall i, j :: 0 <= i < j < |g.nodes| ==> g.nodes[i].id != g.nodes[j].id
  }

  /** The position of the last node with this id, or -1 if there is none. */
  function IndexOfId(nodes: seq<PyNode>, id: int): (i: int)
    ensures -1 <= i < |nodes|
    ensures 0 <= i ==> nodes[i].id == id
    decreases |nodes|
  {
    if nodes == [] then -1
    else if nodes[|nodes| - 1].id == id then |nodes| - 1
    else IndexOfId(nodes[..|nodes| - 1], id)
  }

  /** The lookup fails exactly when no node carries the id. */
  lemma {:induction false} IndexOfIdMissing(nodes: seq<PyNode>, id: int)
    ensures IndexOfId(nodes, id) == -1 <==> forall n <- nodes :: n.id != id
    decreases |nodes|
  {
    if nodes != [] {
      var prefix := nodes[..|nodes| - 1];
      IndexOfIdMissing(prefix, id);
      assert nodes == prefix + [nodes[|nodes| - 1]];
    }
  }

  /** `node_id in graph.nodes` */
  predicate HasNode(g: Graph, id: int)
  {
    0 <= IndexOfId(g.nodes, id)
  }

  /** `graph.nodes[node_id]`. */
  function NodeOf(g: Graph, id: int): (n: PyNode)
    requires HasNode(g, id)
    ensures n in g.nodes && n.id == id
  {
    g.nodes[IndexOfId(g.nodes, id)]
  }

  /** With unique ids the lookup finds the node itself. */
  lemma NodeOfMember(g: Graph, n: PyNode)
    requires UniqueIds(g) && n in g.nodes
    ensures HasNode(g, n.id) && NodeOf(g, n.id) == n
  {
    var i :| 0 <= i < |g.nodes| && g.nodes[i] == n;
    var j := IndexOfId(g.nodes, n.id);
    IndexOfIdMissing(g.nodes, n.id);
    assert j >= 0 by {
      assert g.nodes[i].id == n.id;
    }
    assert g.nodes[j].id == g.nodes[i].id;
  }

  /** The queue tuple `(clean_score, -power_output, node_id)`. */
  datatype Entry = Entry(cleanScore: int, negPower: int, id: int)

  function Key(n: PyNode): (e: Entry)
    ensures e.id == n.id && e.cleanScore == n.cleanScore && e.negPower == -n.powerOutput
  {
    Entry(n.cleanScore, -n.powerOutput, n.id)
  }

  /** Python's lexicographic `<` on the tuples. */
  predicate EntryLess(a: Entry, b: Entry)
  {
    || a.cleanScore < b.cleanScore
    || (a.cleanScore == b.cleanScore && a.negPower < b.negPower)
    || (a.cleanScore == b.cleanScore && a.negPower == b.negPower && a.id < b.id)
  }

  /** Tuple `<` is a strict total order, so `get()` has exactly one answer. */
  lemma EntryLessIsStrictTotalOrder(a: Entry, b: Entry, c: Entry)
    ensures !EntryLess(a, a)
    ensures EntryLess(a, b) && EntryLess(b, c) ==> EntryLess(a, c)
    ensures a != b ==> EntryLess(a, b) || EntryLess(b, a)
  {
  }

  /** The queues hand out nodes by ascending clean score, then descending
      power output, then ascending node id. */
  lemma KeyOrder(a: PyNode, b: PyNode)
    ensures EntryLess(Key(a), Key(b)) <==>
              || a.cleanScore < b.cleanScore
              || (a.cleanScore == b.cleanScore && a.powerOutput > b.powerOutput)
              || (a.cleanScore == b.cleanScore && a.powerOutput == b.powerOutput && a.id < b.id)
  {
  }

  /** Every id of `sel` names a node of `g`. */
  predicate AllInGraph(g: Graph, sel: seq<int>)
  {
    forall i :: 0 <= i < |sel| ==> HasNode(g, sel[i])
  }

  /** The summed `power_output` of the nodes `sel` names. */
  function SumPowerIds(g: Graph, sel: seq<int>): int
    requires AllInGraph(g, sel)
    decreases |sel|
  {
    if sel == [] then 0 else SumPowerIds(g, sel[..|sel| - 1]) + NodeOf(g, sel[|sel| - 1]).powerOutput
  }

  /** The energy source of the node named `id`. */
  function SourceOf(g: Graph, id: int): string
    requires HasNode(g, id)
  {
    NodeOf(g, id).energySource
  }

  /** The queue tuples of the nodes `sel` names. */
  function KeysOf(g: Graph, sel: seq<int>): (ks: seq<Entry>)
    requires AllInGraph(g, sel)
    ensures |ks| == |sel| && forall i :: 0 <= i < |sel| ==> ks[i] == Key(NodeOf(g, sel[i]))
  {
    seq(|sel|, i requires 0 <= i < |sel| => Key(NodeOf(g, sel[i])))
  }

  /** The queue tuples of the nodes `sel` names, as a multiset. */
  function PickedKeys(g: Graph, sel: seq<int>): multiset<Entry>
    requires AllInGraph(g, sel)
    decreases |sel|
  {
    if sel == [] then multiset{} else PickedKeys(g, sel[..|sel| - 1]) + multiset{Key(NodeOf(g, sel[|sel| - 1]))}
  }

  lemma {:induction false} PickedKeysOfKeys(g: Graph, sel: seq<int>)
    requires AllInGraph(g, sel)
    ensures PickedKeys(g, sel) == multiset(KeysOf(g, sel))
    decreases |sel|
  {
    if sel != [] {
      var init := sel[..|sel| - 1];
      PickedKeysOfKeys(g, init);
      assert KeysOf(g, sel) == KeysOf(g, init) + [Key(NodeOf(g, sel[|sel| - 1]))];
    }
  }

  /** The queue tuples of `nodes`, in order. */
  function NodeKeys(nodes: seq<PyNode>): (ks: seq<Entry>)
    ensures |ks| == |nodes| && forall i :: 0 <= i < |nodes| ==> ks[i] == Key(nodes[i])
    decreases |nodes|
  {
    if nodes == [] then [] else NodeKeys(nodes[..|nodes| - 1]) + [Key(nodes[|nodes| - 1])]
  }

  predicate NoDuplicates(s: seq<int>)
  {
    forall i, j :: 0 <= i < j < |s| ==> s[i] != s[j]
  }
}
