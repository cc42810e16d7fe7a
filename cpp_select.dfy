/** The tiered selection of `Fin/mstStack_Algo.cpp`: the node record, the
    queue comparator `CompareNodes`, and the two global variables the C++
    program updates in place, `total_power` and the map `stacks` from an
    energy source to its priority queue, gathered in the class `Globals`.

    A `priority_queue` is modelled by its contents, a sequence read as a
    multiset: `push` appends, and `top`/`pop` take out an element that no
    other element outranks. Which of several equally ranked nodes comes out
    first is left open, as it is for `std::priority_queue`. */
module CppSelect {
  import opened Energy
  import opened Kruskal

  /** `struct Node`. */
  datatype Node = Node(name: string, energySource: string, cleanScore: int, powerOutput: int)

  /** `class Graph`: its edges index into `nodes`. */
  datatype Graph = Graph(nodes: seq<Node>, edges: seq<Edge>)

  /** `CompareNodes()(a, b)`: `a` ranks below `b` in a source queue. */
  predicate CompareNodes(a: Node, b: Node)
  {
    if a.cleanScore == b.cleanScore then a.powerOutput < b.powerOutput else a.cleanScore > b.cleanScore
  }

  /** The comparator is a strict weak ordering (as `std::priority_queue`
      requires): irreflexive and transitive, and two nodes are unordered
      exactly when they have equal clean score and equal power. */
  lemma CompareNodesIsStrictWeakOrder(a: Node, b: Node, c: Node)
    ensures !CompareNodes(a, a)
    ensures CompareNodes(a, b) && CompareNodes(b, c) ==> CompareNodes(a, c)
    ensures !CompareNodes(a, b) && !CompareNodes(b, a) <==>
              a.cleanScore == b.cleanScore && a.powerOutput == b.powerOutput
  {
  }

  /** `t` may be the top of a queue holding `q`: nothing in `q` outranks it. */
  predicate IsTop(t: Node, q: seq<Node>)
  {
    forall m <- q :: !CompareNodes(t, m)
  }

  /** The position of a node `priority_queue::top()` may return: one with
      the lowest clean score and, among those, the highest power. */
  method TopIndex(q: seq<Node>) returns (b: nat)
    requires q != []
    ensures b < |q| && IsTop(q[b], q)
    ensures forall m <- q :: q[b].cleanScore <= m.cleanScore
    ensures forall m <- q :: m.cleanScore == q[b].cleanScore ==> m.powerOutput <= q[b].powerOutput
  {
    b := 0;
    for i := 1 to |q|
      invariant b < i
      invariant forall j :: 0 <= j < i ==> !CompareNodes(q[b], q[j])
    {
      if CompareNodes(q[b], q[i]) {
        b := i;
      }
    }
  }

  /** `stacks[src]`, with a missing source read as an empty queue. */
  function Queue(stacks: map<string, seq<Node>>, src: string): seq<Node>
  {
    if src in stacks then stacks[src] else []
  }

  /** The nodes of `ns` whose source is `src`, in order. */
  function OfSource(ns: seq<Node>, src: string): (r: seq<Node>)
    ensures forall n <- r :: n in ns && n.energySource == src
    decreases |ns|
  {
    if ns == [] then []
    else
      var last := ns[|ns| - 1];
      OfSource(ns[..|ns| - 1], src) + if last.energySource == src then [last] else []
  }

  /** The summed `power_output` of `ns`. */
  function SumPower(ns: seq<Node>): int
    decreases |ns|
  {
    if ns == [] then 0 else SumPower(ns[..|ns| - 1]) + ns[|ns| - 1].powerOutput
  }

  /** Every queued node sits in the queue of its own source. */
  ghost predicate QueuedBySource(stacks: map<string, seq<Node>>)
  {
    forall s, n :: n in Queue(stacks, s) ==> n.energySource == s
  }

  /** The picks `sel` left the queues `stacks0` as `stacks`: each queue lost
      exactly the picked nodes of its source. */
  ghost predicate Conserved(stacks0: map<string, seq<Node>>, stacks: map<string, seq<Node>>, sel: seq<Node>)
  {
    forall s :: ConservedAt(stacks0, stacks, sel, s)
  }

  /** Conservation for the single source `s`. */
  ghost predicate ConservedAt(stacks0: map<string, seq<Node>>, stacks: map<string, seq<Node>>, sel: seq<Node>, s: string)
  {
    multiset(Queue(stacks, s)) + multiset(OfSource(sel, s)) == multiset(Queue(stacks0, s))
  }

  /** Every pick was made while the running total was below the demand. */
  ghost predicate PickedBelowDemand(sel: seq<Node>, t0: int, demand: int)
  {
    forall i :: 0 <= i < |sel| ==> t0 + SumPower(sel[..i]) < demand
  }

  /** The picks come from the first k + 1 sources of `Priority`, in order. */
  ghost predicate TierOrdered(sel: seq<Node>, k: int)
  {
    && (forall i :: 0 <= i < |sel| ==> 0 <= Tier(sel[i].energySource) <= k)
    && (forall i, j :: 0 <= i < j < |sel| ==> Tier(sel[i].energySource) <= Tier(sel[j].energySource))
  }

  /** The queues of the first k sources of `Priority` are empty. */
  ghost predicate Drained(stacks: map<string, seq<Node>>, k: int)
  {
    forall t :: 0 <= t < k && t < |Priority| ==> Queue(stacks, Priority[t]) == []
  }

  /** No pick is outranked by a later pick or by a node still queued for
      its source. */
  ghost predicate BestFirst(stacks: map<string, seq<Node>>, sel: seq<Node>)
  {
    && (forall i, m :: 0 <= i < |sel| && m in Queue(stacks, sel[i].energySource) ==> !CompareNodes(sel[i], m))
    && (forall i, j :: 0 <= i < j < |sel| && sel[i].energySource == sel[j].energySource ==>
          !CompareNodes(sel[i], sel[j]))
  }

  /** Queues of sources outside `Priority` are never touched. */
  ghost predicate Untouched(stacks0: map<string, seq<Node>>, stacks: map<string, seq<Node>>)
  {
    forall s :: s !in Priority ==> Queue(stacks, s) == Queue(stacks0, s)
  }

  /** What `selectNodes` maintains after picking `sel` from the queues
      `stacks0` (now `stacks`), having started from the total `t0` and
      having exhausted the first `k` sources of `Priority`. */
  ghost predicate SelectInv(stacks0: map<string, seq<Node>>, stacks: map<string, seq<Node>>,
                            sel: seq<Node>, t0: int, demand: int, k: int)
  {
    && 0 <= k <= |Priority|
    && QueuedBySource(stacks)
    && Conserved(stacks0, stacks, sel)
    && Untouched(stacks0, stacks)
    && PickedBelowDemand(sel, t0, demand)
    && TierOrdered(sel, k)
    && Drained(stacks, k)
    && BestFirst(stacks, sel)
  }

  lemma OfSourceAppend(ns: seq<Node>, n: Node, src: string)
    ensures OfSource(ns + [n], src) == OfSource(ns, src) + if n.energySource == src then [n] else []
  {
    assert (ns + [n])[..|ns|] == ns;
  }

  lemma QueuedStep(stacks: map<string, seq<Node>>, q': seq<Node>, src: string)
    requires QueuedBySource(stacks) && src in stacks && multiset(q') <= multiset(stacks[src])
    ensures QueuedBySource(stacks[src := q'])
  {
    var stacks' := stacks[src := q'];
    forall s, n | n in Queue(stacks', s) ensures n.energySource == s {
      if s == src {
        assert Queue(stacks', src) == q';
        assert n in multiset(q');
        assert n in multiset(stacks[src]);
        assert n in Queue(stacks, src);
      } else {
        assert Queue(stacks', s) == Queue(stacks, s);
      }
    }
  }

  /** Moving one element from one multiset to another keeps their sum. */
  lemma MoveOne(a: multiset<Node>, b: multiset<Node>, a': multiset<Node>, b': multiset<Node>, x: Node)
    requires a == a' + multiset{x} && b' == b + multiset{x}
    ensures a' + b' == a + b
  {
    forall y ensures (a' + b')[y] == (a + b)[y] {
    }
  }

  /** The picked node's own queue: it moves from the queue to the picks. */
  lemma ConservedAtSource(q0: seq<Node>, q: seq<Node>, q': seq<Node>, sel: seq<Node>, node: Node)
    requires multiset(q) + multiset(OfSource(sel, node.energySource)) == multiset(q0)
    requires multiset(q') + multiset{node} == multiset(q)
    ensures multiset(q') + multiset(OfSource(sel + [node], node.energySource)) == multiset(q0)
  {
    OfSourceAppend(sel, node, node.energySource);
    MoveOne(multiset(q), multiset(OfSource(sel, node.energySource)), multiset(q'),
            multiset(OfSource(sel + [node], node.energySource)), node);
  }

  lemma ConservedAtStep(stacks0: map<string, seq<Node>>, stacks: map<string, seq<Node>>,
                        q': seq<Node>, sel: seq<Node>, node: Node, s: string)
    requires ConservedAt(stacks0, stacks, sel, s) && node.energySource in stacks
    requires multiset(q') + multiset{node} == multiset(stacks[node.energySource])
    ensures ConservedAt(stacks0, stacks[node.energySource := q'], sel + [node], s)
  {
    if s == node.energySource {
      ConservedAtSource(Queue(stacks0, s), stacks[s], q', sel, node);
    } else {
      OfSourceAppend(sel, node, s);
    }
  }

  lemma ConservedStep(stacks0: map<string, seq<Node>>, stacks: map<string, seq<Node>>,
                      q': seq<Node>, sel: seq<Node>, node: Node, src: string)
    requires Conserved(stacks0, stacks, sel) && node.energySource == src && src in stacks
    requires multiset(q') + multiset{node} == multiset(stacks[src])
    ensures Conserved(stacks0, stacks[src := q'], sel + [node])
  {
    var stacks' := stacks[src := q'];
    forall s ensures ConservedAt(stacks0, stacks', sel + [node], s) {
      ConservedAtStep(stacks0, stacks, q', sel, node, s);
    }
  }

  lemma BelowDemandStep(sel: seq<Node>, node: Node, t0: int, demand: int)
    requires PickedBelowDemand(sel, t0, demand) && t0 + SumPower(sel) < demand
    ensures PickedBelowDemand(sel + [node], t0, demand)
  {
    var sel' := sel + [node];
    forall i | 0 <= i < |sel'| ensures t0 + SumPower(sel'[..i]) < demand {
      if i < |sel| {
        assert sel'[..i] == sel[..i];
      } else {
        assert sel'[..i] == sel;
      }
    }
  }

  lemma TierStep(sel: seq<Node>, node: Node, k: int)
    requires TierOrdered(sel, k) && 0 <= k && Tier(node.energySource) == k
    ensures TierOrdered(sel + [node], k)
  {
    var sel' := sel + [node];
    forall i | 0 <= i < |sel'| ensures 0 <= Tier(sel'[i].energySource) <= k {
      if i < |sel| {
        assert sel'[i] == sel[i];
      } else {
        assert sel'[i] == node;
      }
    }
    forall i, j | 0 <= i < j < |sel'| ensures Tier(sel'[i].energySource) <= Tier(sel'[j].energySource) {
      assert sel'[i] == sel[i];
    }
  }

  lemma BestFirstStep(stacks: map<string, seq<Node>>, q': seq<Node>,
                      sel: seq<Node>, node: Node, src: string)
    requires BestFirst(stacks, sel) && QueuedBySource(stacks)
    requires src in stacks && node.energySource == src && IsTop(node, stacks[src])
    requires multiset(q') + multiset{node} == multiset(stacks[src])
    ensures BestFirst(stacks[src := q'], sel + [node])
  {
    var stacks' := stacks[src := q'];
    var sel' := sel + [node];
    assert Queue(stacks, src) == stacks[src];
    assert node in stacks[src] by {
      assert node in multiset(stacks[src]);
    }
    forall i, m | 0 <= i < |sel'| && m in Queue(stacks', sel'[i].energySource)
      ensures !CompareNodes(sel'[i], m)
    {
      if sel'[i].energySource == src {
        assert Queue(stacks', src) == q';
        assert m in multiset(q');
        assert m in multiset(stacks[src]);
        assert m in stacks[src];
        if i < |sel| {
          assert sel'[i] == sel[i];
        }
      } else {
        assert i < |sel| && sel'[i] == sel[i];
      }
    }
    forall i, j | 0 <= i < j < |sel'| && sel'[i].energySource == sel'[j].energySource
      ensures !CompareNodes(sel'[i], sel'[j])
    {
      if j == |sel| {
        assert sel'[i] == sel[i] && sel'[j] == node;
      } else {
        assert sel'[i] == sel[i] && sel'[j] == sel[j];
      }
    }
  }

  lemma FrameStep(stacks0: map<string, seq<Node>>, stacks: map<string, seq<Node>>, q': seq<Node>, k: int)
    requires 0 <= k < |Priority| && Untouched(stacks0, stacks) && Drained(stacks, k)
    ensures Untouched(stacks0, stacks[Priority[k] := q'])
    ensures Drained(stacks[Priority[k] := q'], k)
  {
  }

  /** One turn of the inner loop of `selectNodes`: popping a top node of the
      current source while the total is below demand keeps `SelectInv`. */
  lemma PickStep(stacks0: map<string, seq<Node>>, stacks: map<string, seq<Node>>,
                 q': seq<Node>, sel: seq<Node>, node: Node, t0: int, demand: int, k: int)
    requires SelectInv(stacks0, stacks, sel, t0, demand, k) && k < |Priority|
    requires t0 + SumPower(sel) < demand
    requires Priority[k] in stacks && IsTop(node, stacks[Priority[k]])
    requires multiset(q') + multiset{node} == multiset(stacks[Priority[k]])
    ensures SelectInv(stacks0, stacks[Priority[k] := q'], sel + [node], t0, demand, k)
  {
    var src := Priority[k];
    assert node in Queue(stacks, src) by {
      assert node in multiset(stacks[src]);
    }
    assert node.energySource == src;
    QueuedStep(stacks, q', src);
    ConservedStep(stacks0, stacks, q', sel, node, src);
    FrameStep(stacks0, stacks, q', k);
    BelowDemandStep(sel, node, t0, demand);
    TierStep(sel, node, k);
    BestFirstStep(stacks, q', sel, node, src);
  }

  /** Moving on to the next source once the current one is drained keeps
      `SelectInv`. */
  lemma NextTier(stacks0: map<string, seq<Node>>, stacks: map<string, seq<Node>>,
                 sel: seq<Node>, t0: int, demand: int, k: int)
    requires SelectInv(stacks0, stacks, sel, t0, demand, k) && k < |Priority|
    requires Queue(stacks, Priority[k]) == []
    ensures SelectInv(stacks0, stacks, sel, t0, demand, k + 1)
  {
  }

  /** `stacks[src]` on a missing source inserts an empty queue, which no
      `Queue` lookup can tell apart from the missing one. */
  lemma InsertEmpty(stacks0: map<string, seq<Node>>, stacks: map<string, seq<Node>>,
                    sel: seq<Node>, t0: int, demand: int, k: int, src: string)
    requires SelectInv(stacks0, stacks, sel, t0, demand, k) && src !in stacks
    ensures SelectInv(stacks0, stacks[src := []], sel, t0, demand, k)
  {
    var stacks' := stacks[src := []];
    assert forall s :: Queue(stacks', s) == Queue(stacks, s);
    forall s ensures ConservedAt(stacks0, stacks', sel, s) {
      assert ConservedAt(stacks0, stacks, sel, s);
    }
  }

  /** The queues of `Priority` left empty by the picks. */
  lemma SelectDrained(stacks: map<string, seq<Node>>, sel: seq<Node>, k: int)
    requires TierOrdered(sel, k) && Drained(stacks, k)
    ensures k == |Priority| ==> forall src <- Priority :: Queue(stacks, src) == []
    ensures forall i, t :: 0 <= i < |sel| && 0 <= t < Tier(sel[i].energySource) ==> Queue(stacks, Priority[t]) == []
    ensures forall n <- sel :: n.energySource in Priority
  {
    forall n | n in sel ensures n.energySource in Priority {
      var i :| 0 <= i < |sel| && sel[i] == n;
      assert 0 <= Tier(sel[i].energySource);
    }
  }

  /** What `selectNodes` promises once it leaves its loop, either with every
      queue of `Priority` drained or with the demand met. */
  lemma SelectEnd(stacks0: map<string, seq<Node>>, stacks: map<string, seq<Node>>,
                  sel: seq<Node>, t0: int, demand: int, k: int)
    requires SelectInv(stacks0, stacks, sel, t0, demand, k)
    requires k == |Priority| || t0 + SumPower(sel) >= demand
    ensures QueuedBySource(stacks)
    ensures t0 + SumPower(sel) >= demand || forall src <- Priority :: Queue(stacks, src) == []
    ensures forall i :: 0 <= i < |sel| ==> t0 + SumPower(sel[..i]) < demand
    ensures forall n <- sel :: n.energySource in Priority
    ensures forall i, j :: 0 <= i < j < |sel| ==> Tier(sel[i].energySource) <= Tier(sel[j].energySource)
    ensures forall i, t :: 0 <= i < |sel| && 0 <= t < Tier(sel[i].energySource) ==> Queue(stacks, Priority[t]) == []
    ensures BestFirst(stacks, sel)
    ensures forall s :: ConservedAt(stacks0, stacks, sel, s)
    ensures forall s :: s !in Priority ==> Queue(stacks, s) == Queue(stacks0, s)
  {
    SelectDrained(stacks, sel, k);
  }

  /** `stacks[n.energy_source].push(n)`: only the queue of the node's own
      source grows, by that node. */
  lemma PushQueue(stacks: map<string, seq<Node>>, node: Node, s: string)
    ensures Queue(stacks[node.energySource := Queue(stacks, node.energySource) + [node]], s) ==
            Queue(stacks, s) + if node.energySource == s then [node] else []
  {
  }

  /** `stacks[n.energy_source].push(n)` keeps every node in the queue of its
      own source. */
  lemma PushBySource(stacks: map<string, seq<Node>>, node: Node)
    requires QueuedBySource(stacks)
    ensures QueuedBySource(stacks[node.energySource := Queue(stacks, node.energySource) + [node]])
  {
    var stacks' := stacks[node.energySource := Queue(stacks, node.energySource) + [node]];
    forall s, n | n in Queue(stacks', s) ensures n.energySource == s {
      PushQueue(stacks, node, s);
      if n != node {
        assert n in Queue(stacks, s);
      }
    }
  }

  /** One turn of `populateStacks` after the nodes `pushed`: the queue of
      each source holds its nodes in push order. */
  lemma PushStep(stacks0: map<string, seq<Node>>, stacks: map<string, seq<Node>>, pushed: seq<Node>, node: Node)
    requires forall s :: Queue(stacks, s) == Queue(stacks0, s) + OfSource(pushed, s)
    ensures forall s :: Queue(stacks[node.energySource := Queue(stacks, node.energySource) + [node]], s) ==
                        Queue(stacks0, s) + OfSource(pushed + [node], s)
  {
    forall s ensures Queue(stacks[node.energySource := Queue(stacks, node.energySource) + [node]], s) ==
                     Queue(stacks0, s) + OfSource(pushed + [node], s) {
      PushQueue(stacks, node, s);
      OfSourceAppend(pushed, node, s);
    }
  }

  class Globals {
    /** `total_power`: never reset by the C++ code. */
    var totalPower: int
    /** `stacks`: the priority queue of each energy source. */
    var stacks: map<string, seq<Node>>

    ghost predicate Valid()
      reads this
    {
      QueuedBySource(stacks)
    }

    constructor ()
      ensures Valid() && totalPower == 0 && stacks == map[]
    {
      totalPower := 0;
      stacks := map[];
    }

    /** `populateStacks(g)`: pushes every node onto the queue of its source. */
    method PopulateStacks(g: Graph)
      requires Valid()
      modifies this
      ensures Valid() && totalPower == old(totalPower)
      ensures forall s :: Queue(stacks, s) == Queue(old(stacks), s) + OfSource(g.nodes, s)
    {
      for i := 0 to |g.nodes|
        invariant Valid() && totalPower == old(totalPower)
        invariant forall s :: Queue(stacks, s) == Queue(old(stacks), s) + OfSource(g.nodes[..i], s)
      {
        var node := g.nodes[i];
        PushStep(old(stacks), stacks, g.nodes[..i], node);
        PushBySource(stacks, node);
        assert g.nodes[..i + 1] == g.nodes[..i] + [node];
        stacks := stacks[node.energySource := Queue(stacks, node.energySource) + [node]];
      }
      assert g.nodes[..|g.nodes|] == g.nodes;
    }

    /** `stacks[src].top(); stacks[src].pop();` */
    method PopTop(src: string) returns (node: Node)
      requires Valid() && src in stacks && stacks[src] != []
      modifies this
      ensures Valid() && totalPower == old(totalPower)
      ensures node in old(stacks[src]) && IsTop(node, old(stacks[src]))
      ensures src in stacks && stacks == old(stacks)[src := stacks[src]]
      ensures multiset(stacks[src]) + multiset{node} == multiset(old(stacks[src]))
      ensures |stacks[src]| < |old(stacks[src])|
    {
      var q := stacks[src];
      var b := TopIndex(q);
      node := q[b];
      assert q == q[..b] + [node] + q[b + 1..];
      QueuedStep(stacks, q[..b] + q[b + 1..], src);
      stacks := stacks[src := q[..b] + q[b + 1..]];
    }

    /** `selectNodes(stacks, power_demand)`: drains the queues of Solar, Wind,
        Hydro and Coal in that order, best node first, adding each node's power
        to `total_power`, and stops as soon as the total reaches the demand. */
    method SelectNodes(powerDemand: int) returns (selected: seq<Node>)
      requires Valid()
      modifies this
      ensures Valid()
      ensures totalPower == old(totalPower) + SumPower(selected)
      ensures totalPower >= powerDemand || forall src <- Priority :: Queue(stacks, src) == []
      ensures forall i :: 0 <= i < |selected| ==> old(totalPower) + SumPower(selected[..i]) < powerDemand
      ensures forall n <- selected :: n.energySource in Priority
      ensures forall i, j :: 0 <= i < j < |selected| ==>
                Tier(selected[i].energySource) <= Tier(selected[j].energySource)
      ensures forall i, t :: 0 <= i < |selected| && 0 <= t < Tier(selected[i].energySource) ==>
                Queue(stacks, Priority[t]) == []
      ensures BestFirst(stacks, selected)
      ensures forall s :: ConservedAt(old(stacks), stacks, selected, s)
      ensures forall s :: s !in Priority ==> Queue(stacks, s) == Queue(old(stacks), s)
    {
      selected := [];
      var k := 0;
      assert OfSource([], "") == [];
      while k < |Priority|
        invariant SelectInv(old(stacks), stacks, selected, old(totalPower), powerDemand, k)
        invariant totalPower == old(totalPower) + SumPower(selected)
      {
        var source := Priority[k];
        if source !in stacks {
          InsertEmpty(old(stacks), stacks, selected, old(totalPower), powerDemand, k, source);
          stacks := stacks[source := []];
        }
        while stacks[source] != [] && totalPower < powerDemand
          invariant k < |Priority| && source == Priority[k] && source in stacks
          invariant SelectInv(old(stacks), stacks, selected, old(totalPower), powerDemand, k)
          invariant totalPower == old(totalPower) + SumPower(selected)
          decreases |stacks[source]|
        {
          ghost var before := stacks;
          var node := PopTop(source);
          PickStep(old(stacks), before, stacks[source], selected, node, old(totalPower), powerDemand, k);
          assert (selected + [node])[..|selected|] == selected;
          selected := selected + [node];
          totalPower := totalPower + node.powerOutput;
        }
        if totalPower >= powerDemand {
          break;
        }
        NextTier(old(stacks), stacks, selected, old(totalPower), powerDemand, k);
        k := k + 1;
      }
      SelectEnd(old(stacks), stacks, selected, old(totalPower), powerDemand, k);
    }
  }
}
