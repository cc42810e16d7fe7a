# Clean-energy dispatch and spanning tree, modelled in Dafny

`Fin/mstStack_Algo.cpp` and `Fin/mstStack_Algo.py` are two versions of one
pipeline, one in C++ and one in Python.

1. Every generator node goes into a priority queue for its energy source. A
   queue hands out the lowest `clean_score` first, and among equal scores
   the highest `power_output`. The Python tuple then breaks any remaining
   tie by the smaller node id.
2. The queues are drained in the fixed order Solar, Wind, Hydro, Coal. Each
   node's power is added to a global `total_power`, and draining stops as
   soon as the demand is met.
3. The edges between selected nodes are kept. The C++ version renumbers
   them to positions in the selection; the Python subgraph keeps node ids.
   Each kept weight is raised by a 2% transmission loss.
4. A minimum spanning forest is built with Kruskal's algorithm: sort the
   edges by weight, then accept them through a union-find with path
   compression and union by rank.

The C++ version keeps the queues in a global `stacks` map. It sums the
accepted weights into an `int`, truncating at every `+=`. The Python version
keeps a global `operation_count` as a cost proxy. It reports a per-source
breakdown of the selection and leaves the spanning tree to
`networkx.minimum_spanning_tree`. This model reuses the C++ Kruskal for that
call.

Each entity whose fields the source updates in place is a class:
- the C++ `DSU`: `UnionFind.Dsu`, over two arrays;
- the C++ globals `total_power` and `stacks`: `CppSelect.Globals`;
- the Python globals `total_power` and `operation_count`:
  `PyPipeline.Trackers`;
- the Python dictionary of `PriorityQueue`s: `PyQueues.PriorityQueues`.

A priority queue is modelled by its contents, a sequence read as a multiset.
`top`/`get` take a least element under the source's comparator, found by a
linear scan. Each looping operation is a method proved against a
specification:
- a loop invariant predicate (`CppSelect.SelectInv`, `PySelectSpec.PySelectInv`);
- step lemmas that carry it through one turn of the loop;
- end lemmas that turn it into the promised properties.

The properties proved:
- the selection drains the sources in priority order;
- it stops the moment the demand is met, or leaves every queue empty;
- the power total is the sum of the selected nodes' outputs;
- every node leaves its queue best-first;
- queued and picked nodes together are exactly the nodes put in;
- in the Python version, no node is picked twice (the C++ version picks
  node values, and equal values in the graph can both be picked);
- Kruskal returns a forest whose edges are kept edges, that joins the
  endpoints of every kept edge, and has fewer edges than nodes;
- no spanning forest of the kept edges weighs less than Kruskal's: at most
  `p` edges of any spanning forest are lighter than Kruskal's `p`-th edge;
- the truncated C++ cost is within one unit per edge of the exact sum;
- `operation_count` reaches its exact final value on each of the three
  exits of `run_clean_power_selection`.

Files:
- `energy.dfy`: the source order, the 2% loss, C++ truncation.
- `union_find.dfy`: the DSU.
- `kruskal.dfy`: edges, the partition the edges induce, forests, sorting
  and the Kruskal loop.
- `cpp_select.dfy`, `cpp_mst.dfy`: the C++ selection and `buildMST`.
- `py_graph.dfy`, `py_queues.dfy`, `py_select_spec.dfy`, `py_pipeline.dfy`:
  the Python graph, its queues, the selection specification and the driver.

## Model

| member | source | states |
|---|---|---|
| Energy.Tier | Fin/mstStack_Algo.cpp:95-97 | The position of a source in Solar, Wind, Hydro, Coal; -1 exactly for a source outside that list |
| Energy.TierOfPriority | Fin/mstStack_Algo.py:16 | Each of the four sources sits at its own position of the order |
| Energy.Inflate | Fin/mstStack_Algo.cpp:142-144 | The effective weight is 51/50 of the weight, and not below a nonnegative weight |
| Energy.InflateKeepsOrder | Fin/mstStack_Algo.py:50-51 | Adding 2% to a weight keeps its order against, and equality with, any other weight |
| Energy.TruncateToInt | Fin/mstStack_Algo.cpp:156-162 | A `double` added to an `int` is truncated toward zero: the result is within one unit of the value, on its side of zero |
| UnionFind.Dsu.constructor | Fin/mstStack_Algo.cpp:32-36 | `n` elements, each its own parent with rank 0: n singleton sets |
| UnionFind.Dsu.Find | Fin/mstStack_Algo.cpp:38-42 | Returns the root of `x` (a self-parent), points `x` straight at it, changes no element's set and keeps every parent either as before or the root |
| UnionFind.Dsu.Unite | Fin/mstStack_Algo.cpp:44-57 | True exactly when `x` and `y` had different roots; if not, nothing changes; if so, exactly those two sets merge, the lower-ranked root goes under the other, and only equal ranks grow the winner's rank by 1 |
| UnionFind.Dsu.Link | Fin/mstStack_Algo.cpp:48-55 | Hanging root `l` under root `w` relabels `l`'s set as `w`'s and raises `w`'s rank only for equal ranks |
| Kruskal.ForestExtend | Fin/mstStack_Algo.cpp:159-163 | Accepting an edge whose endpoints are not yet connected keeps a forest and merges exactly their two components |
| Kruskal.ForestComponents | Fin/mstStack_Algo.cpp:155-164 | A forest of m edges on k nodes leaves k - m components |
| Kruskal.ForestEdgeBound | Fin/mstStack_Algo.cpp:155-164 | A forest on k nodes has fewer than k edges, or none |
| Kruskal.SortByWeight | Fin/mstStack_Algo.cpp:150-152 | The array ends sorted by weight and is a permutation of its old contents |
| Kruskal.SortedCopy | Fin/mstStack_Algo.py:54 | A weight-sorted permutation of the edges, the order Kruskal consumes them in |
| Kruskal.GreedyStep | Fin/mstStack_Algo.cpp:150-163 | Accepting the next edge of the weight-sorted list keeps Kruskal's choice: every input edge lighter than an accepted edge was already linked by the edges accepted before it |
| Kruskal.ForestRank | Fin/mstStack_Algo.cpp:155-164 | A forest whose every edge joins vertices another forest links has no more edges than that forest |
| Kruskal.GreedyCounts | Fin/mstStack_Algo.cpp:150-164 | At most `p` edges of any forest drawn from the input are lighter than the `p`-th edge Kruskal accepts |
| Kruskal.GreedyMinimal | Fin/mstStack_Algo.cpp:150-164 | A spanning forest built by Kruskal's choice weighs no more than any spanning forest of the same edges |
| Kruskal.KruskalAccept | Fin/mstStack_Algo.cpp:159-163 | An edge `dsu.unite` accepts keeps the loop invariant: the forest grows by it, the union-find still labels its components, every scanned edge is linked, and Kruskal's choice holds |
| Kruskal.KruskalReject | Fin/mstStack_Algo.cpp:159 | An edge `dsu.unite` rejects keeps the loop invariant with the forest unchanged |
| Kruskal.GreedyIsMinimum | Fin/mstStack_Algo.cpp:150-164 | When the loop ends, no spanning forest of the input weighs less than the accepted edges |
| Kruskal.KruskalForest | Fin/mstStack_Algo.cpp:155-164 | Given the candidates sorted by weight, the accepted edges are a sub-multiset of them, form a forest, join the endpoints of every candidate edge, number fewer than the nodes, and no spanning forest of the candidates weighs less |
| CppSelect.CompareNodesIsStrictWeakOrder | Fin/mstStack_Algo.cpp:73-78 | The comparator is irreflexive and transitive, and its incomparability is an equivalence (same score and power) |
| CppSelect.TopIndex | Fin/mstStack_Algo.cpp:99 | Finds a top of the queue: least clean score, and the greatest power among nodes of that score |
| CppSelect.Globals.constructor | Fin/mstStack_Algo.cpp:9 | `total_power` starts at 0 and `stacks` is empty |
| CppSelect.Globals.PopulateStacks | Fin/mstStack_Algo.cpp:85-89 | Every queue gains exactly the graph's nodes of its source, in order; no other queue and not `total_power` change |
| CppSelect.PushBySource | Fin/mstStack_Algo.cpp:87 | Pushing a node into its own source's queue keeps every queue holding only nodes of its source |
| CppSelect.Globals.PopTop | Fin/mstStack_Algo.cpp:99-100 | Removes one top node of the source's queue and returns it; the other queues are unchanged and every queue still holds only nodes of its source |
| CppSelect.PickStep | Fin/mstStack_Algo.cpp:98-103 | One pick below demand keeps the selection invariant: order by tier, below-demand prefixes, best-first, conservation of nodes |
| CppSelect.BestFirstStep | Fin/mstStack_Algo.cpp:99-101 | Popping the top keeps every earlier pick no worse than what is still queued or picked later from its source |
| CppSelect.InsertEmpty | Fin/mstStack_Algo.cpp:98 | `stacks[source]` inserting an empty queue for a missing key keeps the invariant |
| CppSelect.NextTier | Fin/mstStack_Algo.cpp:97-104 | Moving on once a source's queue is empty keeps the invariant for the next source |
| CppSelect.SelectEnd | Fin/mstStack_Algo.cpp:97-105 | When the loop ends, the demand is met or all four queues are empty, and the selection properties hold |
| CppSelect.Globals.SelectNodes | Fin/mstStack_Algo.cpp:92-108 | `total_power` grows by the picks' power from its incoming value; it stops at the demand or with all four queues empty; every pick was made below demand; picks come only from the four sources, in tier order, each taken while no earlier source still had nodes and best-first within its source; queued plus picked nodes are the original queues |
| CppMst.NameIndexSpec | Fin/mstStack_Algo.cpp:129-132 | `selected_index` has exactly the selected names as keys, each mapped to the last position with that name |
| CppMst.IndexByName | Fin/mstStack_Algo.cpp:129-132 | The loop builds that map |
| CppMst.Remap | Fin/mstStack_Algo.cpp:140-145 | A kept edge is renumbered through `selected_index` and its weight becomes 51/50 of the original |
| CppMst.CandidatesSpec | Fin/mstStack_Algo.cpp:137-147 | An edge is a candidate exactly when it is a graph edge with both endpoint names selected, renumbered and inflated |
| CppMst.CandidatesInRange | Fin/mstStack_Algo.cpp:137-147 | Every candidate's endpoints are positions in the selection |
| CppMst.CandidatesNonnegative | Fin/mstStack_Algo.cpp:142-144 | Nonnegative graph weights give nonnegative candidate weights |
| CppMst.CandidateEdges | Fin/mstStack_Algo.cpp:134-147 | The loop builds the candidate list in edge order |
| CppMst.TruncatedCostBounds | Fin/mstStack_Algo.cpp:156-162 | With nonnegative weights the `int` total is at most the exact sum and, for a nonempty tree, more than the sum minus one per edge |
| CppMst.TruncationExample | Fin/mstStack_Algo.cpp:162 | Two edges of weight 10.2 sum to 20.4 but `total_cost` holds 20 |
| CppMst.SumCost | Fin/mstStack_Algo.cpp:156-163 | The accumulation loop computes the truncated total |
| CppMst.MstCostBounds | Fin/mstStack_Algo.cpp:156-165 | The printed total of a tree drawn from the candidates is within those bounds of its exact weight |
| CppMst.BuildMst | Fin/mstStack_Algo.cpp:127-166 | The accepted edges form a forest over the selection, drawn from the candidates, joining every candidate's endpoints, fewer than the selected nodes, and no spanning forest of the candidates weighs less; the `int` total is the truncated sum, within one unit per edge of the exact one |
| PyGraph.NodeOf | Fin/mstStack_Algo.py:38 | `graph.nodes[node_id]` is a graph node carrying that id |
| PyGraph.NodeOfMember | Fin/mstStack_Algo.py:38 | With unique ids the lookup of a node's id returns that node |
| PyGraph.IndexOfIdMissing | Fin/mstStack_Algo.py:38 | The lookup fails exactly when no node has the id |
| PyGraph.Key | Fin/mstStack_Algo.py:23 | The queue tuple is `(clean_score, -power_output, node_id)` |
| PyGraph.EntryLessIsStrictTotalOrder | Fin/mstStack_Algo.py:23-24 | Tuple `<` is irreflexive, transitive and total on distinct tuples, so `get()` has one answer |
| PyGraph.KeyOrder | Fin/mstStack_Algo.py:18-23 | Queues hand out nodes by ascending clean score, then descending power, then ascending id |
| PyQueues.MinIndex | Fin/mstStack_Algo.py:36 | Finds a least tuple of a nonempty queue |
| PyQueues.PriorityQueues.constructor | Fin/mstStack_Algo.py:21 | One empty queue for each of the four sources |
| PyQueues.PriorityQueues.Put | Fin/mstStack_Algo.py:24 | Appends the tuple to that source's queue; nothing else changes |
| PyQueues.PriorityQueues.Get | Fin/mstStack_Algo.py:36 | Removes and returns a least tuple of that queue, which shrinks by one; nothing else changes |
| PyQueues.PriorityDistinct | Fin/mstStack_Algo.py:16 | The four sources are distinct |
| PyQueues.AllEntriesUpdate | Fin/mstStack_Algo.py:36 | Replacing one queue changes the tuples waiting in all four by exactly what it lost and gained |
| PyQueues.EntriesOfOrigin | Fin/mstStack_Algo.py:22-24 | Every tuple a queue receives is the tuple of a node of that queue's source |
| PySelectSpec.FirstUnknown | Fin/mstStack_Algo.py:22-24 | The first node whose source is not a queue key, where `KeyError` is raised: every earlier source is one of the four |
| PySelectSpec.BuiltEntries | Fin/mstStack_Algo.py:19-26 | The built queues together hold each node's tuple exactly once |
| PySelectSpec.BuiltConsistent | Fin/mstStack_Algo.py:19-26 | Every tuple in a built queue belongs to a graph node of that queue's source |
| PySelectSpec.PySelectStart | Fin/mstStack_Algo.py:31-32 | With `total_power` reset and nothing selected the selection invariant holds |
| PySelectSpec.PyConservedStep | Fin/mstStack_Algo.py:36-37 | A pick moves exactly one tuple from the queues to the picks |
| PySelectSpec.PyBestFirstStep | Fin/mstStack_Algo.py:36-37 | Taking a least tuple keeps each pick no worse than anything still queued or picked later from its source |
| PySelectSpec.PyPickStep | Fin/mstStack_Algo.py:35-39 | One pick below demand keeps the selection invariant, with `total_power` raised by the node's power |
| PySelectSpec.PyNextTier | Fin/mstStack_Algo.py:33-35 | Leaving an empty queue keeps the invariant for the next source |
| PySelectSpec.PySelectEnd | Fin/mstStack_Algo.py:33-42 | When the loops end: the demand is met or all four queues are empty, and the selection properties hold |
| PySelectSpec.PicksDistinct | Fin/mstStack_Algo.py:33-42 | Picks drawn from queues that held every node once contain no node twice |
| PySelectSpec.EveryNodePicked | Fin/mstStack_Algo.py:35-41 | Once those queues are drained every node was picked |
| PySelectSpec.BreakdownTotal | Fin/mstStack_Algo.py:72-77 | The four counts add up to the number of picks from the four sources, which is all picks when every pick has one of them |
| PyPipeline.PosOf | Fin/mstStack_Algo.py:47 | The position of an id in the selection, -1 exactly when it is not selected |
| PyPipeline.SubEdges | Fin/mstStack_Algo.py:47 | The subgraph has no more edges than the graph, and its endpoints are positions in the selection |
| PyPipeline.SubEdgesSpec | Fin/mstStack_Algo.py:47 | A subgraph edge is exactly a graph edge between two selected nodes, renumbered |
| PyPipeline.InflateAll | Fin/mstStack_Algo.py:50-51 | Each subgraph edge's weight is raised by 2% and nothing else changes |
| PyPipeline.QueuesPutStep | Fin/mstStack_Algo.py:22-25 | Putting node i's tuple extends the queues built from the first i nodes to those built from i + 1 |
| PyPipeline.PicksFromBuiltQueues | Fin/mstStack_Algo.py:93-94 | Picks from the built queues are distinct, and all nodes are picked once the queues are drained |
| PyPipeline.ForestSpansSubgraph | Fin/mstStack_Algo.py:54 | Kruskal's minimum forest over the sorted inflated edges is a minimum spanning forest of the inflated subgraph |
| PyPipeline.Trackers.constructor | Fin/mstStack_Algo.py:12-13 | Both trackers start at 0 |
| PyPipeline.Trackers.BuildPriorityQueues | Fin/mstStack_Algo.py:19-26 | `KeyError` exactly when some node's source is not one of the four, raised at the first such node after one operation per earlier node; otherwise each queue holds its source's tuples in order and `operation_count` grows by the node count |
| PyPipeline.Trackers.DrainSource | Fin/mstStack_Algo.py:34-39 | The inner loop keeps the selection invariant and ends with the demand met or the source's queue empty, one operation per pick |
| PyPipeline.Trackers.SelectNodes | Fin/mstStack_Algo.py:29-42 | `total_power` is the sum over the picks; one operation per pick; it stops at the demand or with all four queues empty; every pick was made below demand; picks come only from the four sources, in order, each taken while no earlier source still had nodes and best-first within its source; queued plus picked tuples are the original queues |
| PyPipeline.Trackers.DisplaySelected | Fin/mstStack_Algo.py:62-79 | The breakdown holds the four sources, each counting its picks; one operation per pick plus one per pick from the four sources |
| PyPipeline.Trackers.BuildMst | Fin/mstStack_Algo.py:45-59 | A minimum spanning forest of the inflated induced subgraph; the cost is its exact weight; `operation_count` grows by `\|V_sub\| + 2\|E_sub\| + 2\|E_mst\|` |
| PyPipeline.Trackers.RunCleanPowerSelection | Fin/mstStack_Algo.py:89-110 | Fails with `KeyError` exactly for an unknown source; otherwise the picks are distinct, their power sum is `total_power` and the breakdown is right; a run below demand selected every node and counts `\|V\| + 3\|sel\|` operations; a completed run has a minimum spanning forest, its cost, and `\|V\| + 4\|sel\| + 2\|E_sub\| + 3\|E_mst\|` operations |

## Left out

- Input and output are not modelled. This covers pickle loading and `save_selected_subgraph`, reading the demand from `cin`, `displayStacks`, and every `print`/`cout`. The graph and the demand are parameters instead. `DisplaySelected` returns the breakdown that the source prints.
- The hard-coded graph in the C++ `main` is not modelled, and neither is `Graph::addEdge`, which only appends to the edge list while `main` builds that fixture. The Python module-level script is left out for the same reason.
- The internals of `networkx.minimum_spanning_tree` are not modelled. The Python tree is built by the same sort-then-Kruskal model as the C++ one. Among several minimum trees of equal weight, the one networkx returns may differ from the model's.
- PyPipeline.Trackers.BuildMst: the tree's edges come back as positions in `selected`, not as node ids, and so do those of `RunResult.Completed.mst`. The ids are `selected[e.u]` and `selected[e.v]`; `SubEdgesSpec` relates each position pair to its graph edge.
- IEEE `double` rounding is not modelled. Weights are exact reals, so the 2% inflation is exact. The C++ truncation of `total_cost` to `int` is modelled.
- Integers are unbounded: `int` overflow of the power total, the clean score, `operation_count` and the C++ `int total_cost` is not modelled. Neither is the conversion of a `double` outside the `int` range when `total_cost += edge.weight` truncates.
- CppSelect.Globals.PopTop: returns some node that is a top. The binary-heap layout of the queues is not modelled, so neither is which of several equal tops the C++ heap pops.
- The order of a subgraph's edges is not modelled: the Python subgraph edges are taken in graph edge order.
- PyPipeline.Trackers.BuildMst requires the selected ids to be distinct and present in the graph, so that `|V_sub|` is the selection's length. RunCleanPowerSelection establishes both facts before the call.
- PyPipeline.Trackers.BuildMst counts `|E_sub|` as the number of kept edge records. This assumes the graph has no parallel edges, which holds for a networkx `Graph`.
- CppMst.BuildMst sums the cost over the accepted edges after the Kruskal loop, not inside it. It adds the same weights in the same order, so the truncated total is the same.
- The unordered iteration of the C++ `stacks` map matters only in `displayStacks`, which is left out.
