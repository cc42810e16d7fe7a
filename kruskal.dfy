/** Kruskal's spanning-forest construction shared by both pipelines: edges
    over the vertices 0..k-1, an in-place sort by weight, and the acceptance
    loop over a `Dsu`.

    Connectivity is stated by `Classes(k, es)`: the partition of 0..k-1
    generated by the edges `es`, obtained by merging the classes of the two
    endpoints of each edge in turn. Two vertices are `Linked` by `es` when
    they fall into the same class; `es` is a forest when no edge joins two
    vertices its predecessors already link. */
module Kruskal {
  import opened UnionFind

  /** An undirected edge between `u` and `v` (`struct Edge` of the C++ source). */
  datatype Edge = Edge(u: int, v: int, weight: real)

  predicate InRange(es: seq<Edge>, k: int)
  {
    forall e <- es :: 0 <= e.u < k && 0 <= e.v < k
  }

  /** Every vertex in its own class. */
  ghost function Identity(k: nat): (c: seq<int>)
    ensures |c| == k && forall i :: 0 <= i < k ==> c[i] == i
  {
    seq(k, i => i)
  }

  /** The classes of `a` and `b` merged under `a`'s label. */
  ghost function Merge(c: seq<int>, a: int, b: int): (m: seq<int>)
    requires 0 <= a < |c| && 0 <= b < |c|
    ensures |m| == |c| && m[a] == m[b]
    ensures forall i, j :: 0 <= i < |c| && 0 <= j < |c| && c[i] == c[j] ==> m[i] == m[j]
    ensures forall i, j :: 0 <= i < |c| && 0 <= j < |c| && m[i] == m[j] ==>
              c[i] == c[j] || (c[i] in {c[a], c[b]} && c[j] in {c[a], c[b]})
  {
    seq(|c|, i requires 0 <= i < |c| => if c[i] == c[b] then c[a] else c[i])
  }

  /** The partition of 0..k-1 generated by `es`, as one label per vertex. */
  ghost function Classes(k: nat, es: seq<Edge>): (c: seq<int>)
    requires InRange(es, k)
    ensures |c| == k
    decreases |es|
  {
    if es == [] then Identity(k)
    else
      var e := es[|es| - 1];
      Merge(Classes(k, es[..|es| - 1]), e.u, e.v)
  }

  /** `a` and `b` are connected by the edges `es`. */
  ghost predicate Linked(k: nat, es: seq<Edge>, a: int, b: int)
    requires InRange(es, k) && 0 <= a < k && 0 <= b < k
  {
    Classes(k, es)[a] == Classes(k, es)[b]
  }

  /** No edge of `es` closes a cycle with the edges before it. */
  ghost predicate IsForest(k: nat, es: seq<Edge>)
    requires InRange(es, k)
  {
    forall i :: 0 <= i < |es| ==> !Linked(k, es[..i], es[i].u, es[i].v)
  }

  /** The set of class labels in use: one per component. */
  ghost function Labels(c: seq<int>): set<int>
  {
    set i | 0 <= i < |c| :: c[i]
  }

  /** With every vertex alone, there are k components. */
  lemma {:induction false} IdentityLabels(k: nat)
    ensures |Labels(Identity(k))| == k
    ensures forall l <- Labels(Identity(k)) :: 0 <= l < k
  {
    if k > 0 {
      IdentityLabels(k - 1);
      var prev, cur := Identity(k - 1), Identity(k);
      forall l | l in Labels(prev) ensures l in Labels(cur) {
        var i :| 0 <= i < k - 1 && prev[i] == l;
        assert cur[i] == l;
      }
      forall l | l in Labels(cur) ensures l in Labels(prev) + {k - 1} {
        var i :| 0 <= i < k && cur[i] == l;
        if i < k - 1 {
          assert prev[i] == l;
        }
      }
      assert cur[k - 1] == k - 1;
      assert Labels(cur) == Labels(prev) + {k - 1};
    }
  }

  /** Merging two distinct classes removes exactly one label. */
  lemma MergeLabels(c: seq<int>, a: int, b: int)
    requires 0 <= a < |c| && 0 <= b < |c| && c[a] != c[b]
    ensures Labels(Merge(c, a, b)) == Labels(c) - {c[b]}
    ensures |Labels(Merge(c, a, b))| == |Labels(c)| - 1
  {
    var m := Merge(c, a, b);
    forall l | l in Labels(c) - {c[b]} ensures l in Labels(m) {
      var i :| 0 <= i < |c| && c[i] == l;
      assert m[i] == l;
    }
  }

  /** Appending an edge that joins two unlinked vertices keeps a forest, and
      merges exactly their two classes. */
  lemma ForestExtend(k: nat, es: seq<Edge>, e: Edge)
    requires InRange(es, k) && IsForest(k, es) && 0 <= e.u < k && 0 <= e.v < k
    requires !Linked(k, es, e.u, e.v)
    ensures InRange(es + [e], k) && IsForest(k, es + [e])
    ensures Classes(k, es + [e]) == Merge(Classes(k, es), e.u, e.v)
  {
    var es' := es + [e];
    assert es'[..|es'| - 1] == es;
    forall i | 0 <= i < |es'| ensures !Linked(k, es'[..i], es'[i].u, es'[i].v) {
      if i < |es| {
        assert es'[..i] == es[..i];
      }
    }
  }

  /** A prefix of a forest is a forest. */
  lemma ForestPrefix(k: nat, es: seq<Edge>, n: nat)
    requires InRange(es, k) && IsForest(k, es) && n <= |es|
    ensures InRange(es[..n], k) && IsForest(k, es[..n])
  {
    forall i | 0 <= i < n ensures !Linked(k, es[..n][..i], es[..n][i].u, es[..n][i].v) {
      assert es[..n][..i] == es[..i];
    }
  }

  /** A forest over k vertices leaves k - |es| components. */
  lemma {:induction false} ForestComponents(k: nat, es: seq<Edge>)
    requires InRange(es, k) && IsForest(k, es)
    ensures |Labels(Classes(k, es))| == k - |es|
  {
    if es == [] {
      IdentityLabels(k);
    } else {
      var n := |es| - 1;
      ForestPrefix(k, es, n);
      ForestComponents(k, es[..n]);
      MergeLabels(Classes(k, es[..n]), es[n].u, es[n].v);
    }
  }

  /** A forest over k vertices has at most k - 1 edges. */
  lemma ForestEdgeBound(k: nat, es: seq<Edge>)
    requires InRange(es, k) && IsForest(k, es)
    ensures es == [] || |es| < k
  {
    if es != [] {
      ForestComponents(k, es);
      assert Classes(k, es)[0] in Labels(Classes(k, es));
    }
  }

  predicate SortedByWeight(es: seq<Edge>)
  {
    forall i, j :: 0 <= i < j < |es| ==> es[i].weight <= es[j].weight
  }

  /** `sort(..., a.weight < b.weight)`: sorts the edges by weight in place.
      The order of equal weights is not specified. */
  method SortByWeight(a: array<Edge>)
    modifies a
    ensures SortedByWeight(a[..])
    ensures multiset(a[..]) == multiset(old(a[..]))
  {
    var i := 0;
    while i < a.Length
      invariant 0 <= i <= a.Length
      invariant SortedByWeight(a[..i])
      invariant multiset(a[..]) == multiset(old(a[..]))
    {
      InsertInto(a, i);
      i := i + 1;
    }
  }

  /** A sorted copy of `es`, sorted in place in an array. */
  method SortedCopy(es: seq<Edge>) returns (sorted: seq<Edge>)
    ensures SortedByWeight(sorted) && multiset(sorted) == multiset(es)
  {
    var a := new Edge[|es|](i requires 0 <= i < |es| => es[i]);
    assert a[..] == es;
    SortByWeight(a);
    sorted := a[..];
  }

  method Swap(a: array<Edge>, i: nat, j: nat)
    requires i < a.Length && j < a.Length
    modifies a
    ensures a[i] == old(a[j]) && a[j] == old(a[i])
    ensures forall m :: 0 <= m < a.Length && m != i && m != j ==> a[m] == old(a[m])
    ensures multiset(a[..]) == multiset(old(a[..]))
  {
    a[i], a[j] := a[j], a[i];
  }

  /** Sinks `a[i]` into the sorted prefix `a[..i]` by adjacent swaps. */
  method InsertInto(a: array<Edge>, i: nat)
    requires i < a.Length && SortedByWeight(a[..i])
    modifies a
    ensures SortedByWeight(a[..i + 1])
    ensures multiset(a[..]) == multiset(old(a[..]))
  {
    var j := i;
    while 0 < j && a[j].weight < a[j - 1].weight
      invariant 0 <= j <= i
      invariant multiset(a[..]) == multiset(old(a[..]))
      invariant forall p, q :: 0 <= p < q <= i && p != j && q != j ==> a[p].weight <= a[q].weight
      invariant forall q :: j < q <= i ==> a[j].weight < a[q].weight
    {
      Swap(a, j - 1, j);
      j := j - 1;
    }
  }

  /** `f` is a spanning forest of `es`: a forest of edges of `es` that links
      the endpoints of every edge of `es`. */
  ghost predicate SpanningForestOf(k: nat, es: seq<Edge>, f: seq<Edge>)
    requires InRange(es, k)
  {
    && InRange(f, k) && IsForest(k, f)
    && (forall x <- f :: x in es)
    && (forall e <- es :: Linked(k, f, e.u, e.v))
  }

  /** Spanning `es` depends only on which edges `es` holds, not their order. */
  lemma SpanningForestOfSameEdges(k: nat, a: seq<Edge>, b: seq<Edge>, f: seq<Edge>)
    requires InRange(a, k) && InRange(b, k) && multiset(a) == multiset(b)
    ensures SpanningForestOf(k, a, f) <==> SpanningForestOf(k, b, f)
  {
    assert forall x :: x in a <==> x in multiset(b);
  }

  /** An edge of `es` joins two vertices that `es` links. */
  lemma {:induction false} LinkedByMember(k: nat, es: seq<Edge>, x: Edge)
    requires InRange(es, k) && x in es
    ensures Linked(k, es, x.u, x.v)
    decreases |es|
  {
    var n := |es| - 1;
    if x != es[n] {
      assert es == es[..n] + [es[n]];
      LinkedByMember(k, es[..n], x);
    }
  }

  /** When `h` links the endpoints of every edge of `f`, `h` links whatever
      `f` links: the partition of `h` is coarser than that of `f`. */
  lemma {:induction false} LinkedClosure(k: nat, f: seq<Edge>, h: seq<Edge>, a: int, b: int)
    requires InRange(f, k) && InRange(h, k) && 0 <= a < k && 0 <= b < k
    requires forall x <- f :: Linked(k, h, x.u, x.v)
    ensures Linked(k, f, a, b) ==> Linked(k, h, a, b)
    decreases |f|
  {
    if f != [] && a != b && Linked(k, f, a, b) {
      var n := |f| - 1;
      var e := f[n];
      var c := Classes(k, f[..n]);
      assert forall x <- f[..n] :: x in f;
      if c[a] == c[b] {
        LinkedClosure(k, f[..n], h, a, b);
      } else {
        assert Linked(k, h, e.u, e.v);
        if c[a] == c[e.u] { LinkedClosure(k, f[..n], h, a, e.u); } else { LinkedClosure(k, f[..n], h, a, e.v); }
        if c[b] == c[e.u] { LinkedClosure(k, f[..n], h, b, e.u); } else { LinkedClosure(k, f[..n], h, b, e.v); }
      }
    }
  }

  /** The labels `c` gives to the vertices 0..n-1. */
  ghost function LabelsBelow(c: seq<int>, n: nat): set<int>
    requires n <= |c|
  {
    set i | 0 <= i < n :: c[i]
  }

  lemma LabelsBelowStep(c: seq<int>, m: nat)
    requires m < |c|
    ensures LabelsBelow(c, m + 1) == LabelsBelow(c, m) + {c[m]}
  {
  }

  /** A coarser partition `d` of the same vertices has no more classes than `c`. */
  lemma {:induction false} CoarserLabels(c: seq<int>, d: seq<int>, n: nat)
    requires |c| == |d| && n <= |c|
    requires forall i, j :: 0 <= i < |c| && 0 <= j < |c| && c[i] == c[j] ==> d[i] == d[j]
    ensures |LabelsBelow(d, n)| <= |LabelsBelow(c, n)|
  {
    if n > 0 {
      var m := n - 1;
      CoarserLabels(c, d, m);
      LabelsBelowStep(c, m);
      LabelsBelowStep(d, m);
      if c[m] in LabelsBelow(c, m) {
        var j :| 0 <= j < m && c[j] == c[m];
        assert d[j] in LabelsBelow(d, m);
      }
    }
  }

  /** A forest whose every edge joins vertices linked by a forest `h` has no
      more edges than `h`. */
  lemma ForestRank(k: nat, f: seq<Edge>, h: seq<Edge>)
    requires InRange(f, k) && IsForest(k, f) && InRange(h, k) && IsForest(k, h)
    requires forall x <- f :: Linked(k, h, x.u, x.v)
    ensures |f| <= |h|
  {
    var c, d := Classes(k, f), Classes(k, h);
    forall i, j | 0 <= i < k && 0 <= j < k && c[i] == c[j] ensures d[i] == d[j] {
      LinkedClosure(k, f, h, i, j);
    }
    CoarserLabels(c, d, k);
    ForestComponents(k, f);
    ForestComponents(k, h);
  }

  /** The edges of `es` lighter than `w`, in order. */
  function Below(es: seq<Edge>, w: real): (b: seq<Edge>)
    ensures |b| <= |es|
    ensures forall x <- b :: x in es && x.weight < w
    decreases |es|
  {
    if es == [] then []
    else
      var n := |es| - 1;
      Below(es[..n], w) + if es[n].weight < w then [es[n]] else []
  }

  lemma {:induction false} BelowAppend(a: seq<Edge>, b: seq<Edge>, w: real)
    ensures Below(a + b, w) == Below(a, w) + Below(b, w)
    decreases |b|
  {
    if b != [] {
      var n := |b| - 1;
      assert (a + b)[..|a + b| - 1] == a + b[..n] && (a + b)[|a + b| - 1] == b[n];
      BelowAppend(a, b[..n], w);
    } else {
      assert a + b == a;
    }
  }

  /** A forest drawn from the edges of `p` stays a forest when it gains an
      edge whose endpoints `p` does not link. */
  lemma SubForestExtend(k: nat, p: seq<Edge>, b: seq<Edge>, e: Edge)
    requires InRange(p, k) && InRange(b, k) && IsForest(k, b) && forall x <- b :: x in p
    requires 0 <= e.u < k && 0 <= e.v < k && !Linked(k, p, e.u, e.v)
    ensures InRange(b + [e], k) && IsForest(k, b + [e])
  {
    forall x | x in b ensures Linked(k, p, x.u, x.v) {
      LinkedByMember(k, p, x);
    }
    LinkedClosure(k, b, p, e.u, e.v);
    ForestExtend(k, b, e);
  }

  /** The lighter edges of a forest form a forest. */
  lemma {:induction false} BelowForest(k: nat, es: seq<Edge>, w: real)
    requires InRange(es, k) && IsForest(k, es)
    ensures InRange(Below(es, w), k) && IsForest(k, Below(es, w))
    decreases |es|
  {
    if es != [] {
      var n := |es| - 1;
      var p := es[..n];
      ForestPrefix(k, es, n);
      BelowForest(k, p, w);
      if es[n].weight < w {
        SubForestExtend(k, p, Below(p, w), es[n]);
        assert Below(es, w) == Below(p, w) + [es[n]];
      } else {
        assert Below(es, w) == Below(p, w);
      }
    }
  }

  /** When some edge of `f` is not lighter than `w`, the position of one. */
  function HeavyIndex(f: seq<Edge>, w: real): (j: nat)
    requires |Below(f, w)| < |f|
    ensures j < |f| && w <= f[j].weight
    decreases |f|
  {
    var n := |f| - 1;
    if w <= f[n].weight then n else HeavyIndex(f[..n], w)
  }

  lemma {:induction false} CostAppend(a: seq<Edge>, b: seq<Edge>)
    ensures Cost(a + b) == Cost(a) + Cost(b)
    decreases |b|
  {
    if b != [] {
      var n := |b| - 1;
      assert (a + b)[..|a + b| - 1] == a + b[..n] && (a + b)[|a + b| - 1] == b[n];
      CostAppend(a, b[..n]);
    } else {
      assert a + b == a;
    }
  }

  /** Removing the `j`-th edge lowers the weight by that edge's weight and
      keeps no more light edges. */
  lemma RemoveEdge(f: seq<Edge>, j: nat, w: real)
    requires j < |f|
    ensures Cost(f[..j] + f[j + 1..]) == Cost(f) - f[j].weight
    ensures |Below(f[..j] + f[j + 1..], w)| <= |Below(f, w)|
  {
    assert f == f[..j] + [f[j]] + f[j + 1..];
    CostAppend(f[..j] + [f[j]], f[j + 1..]);
    CostAppend(f[..j], [f[j]]);
    CostAppend(f[..j], f[j + 1..]);
    assert [f[j]][..0] == [];
    BelowAppend(f[..j] + [f[j]], f[j + 1..], w);
    BelowAppend(f[..j], [f[j]], w);
    BelowAppend(f[..j], f[j + 1..], w);
  }

  /** For every `p`, at most `p` edges of `f` are lighter than `t[p]`. */
  predicate FewLighter(t: seq<Edge>, f: seq<Edge>)
  {
    forall p :: 0 <= p < |t| ==> |Below(f, t[p].weight)| <= p
  }

  /** Dropping the last edge of `t` and any edge of `f` keeps `FewLighter`. */
  lemma FewLighterDrop(t: seq<Edge>, f: seq<Edge>, j: nat)
    requires FewLighter(t, f) && t != [] && j < |f|
    ensures FewLighter(t[..|t| - 1], f[..j] + f[j + 1..])
  {
    var n := |t| - 1;
    forall p | 0 <= p < n ensures |Below(f[..j] + f[j + 1..], t[..n][p].weight)| <= p {
      RemoveEdge(f, j, t[p].weight);
    }
  }

  /** If, for every `p`, at most `p` edges of `f` are lighter than `t[p]`,
      then `t` weighs no more than `f`: pair the last edge of `t` with an
      edge of `f` at least as heavy and repeat on the rest. */
  lemma {:induction false} CostByCounts(t: seq<Edge>, f: seq<Edge>)
    requires |t| == |f| && FewLighter(t, f)
    ensures Cost(t) <= Cost(f)
    decreases |t|
  {
    if t != [] {
      var n := |t| - 1;
      var j := HeavyIndex(f, t[n].weight);
      FewLighterDrop(t, f, j);
      CostByCounts(t[..n], f[..j] + f[j + 1..]);
      RemoveEdge(f, j, t[n].weight);
    }
  }

  /** Kruskal's choice: every input edge lighter than the `p`-th accepted
      edge is already linked by the edges accepted before it. */
  ghost predicate Greedy(k: nat, edges: seq<Edge>, forest: seq<Edge>)
    requires InRange(edges, k) && InRange(forest, k)
  {
    forall p, x :: 0 <= p < |forest| && x in edges && x.weight < forest[p].weight ==>
      Linked(k, forest[..p], x.u, x.v)
  }

  /** Accepting edge `i` of the sorted input keeps the greedy property: every
      lighter input edge comes before it and is linked already. */
  lemma GreedyStep(k: nat, edges: seq<Edge>, forest: seq<Edge>, i: nat)
    requires InRange(edges, k) && InRange(forest, k) && SortedByWeight(edges) && i < |edges|
    requires Greedy(k, edges, forest)
    requires forall x <- edges[..i] :: Linked(k, forest, x.u, x.v)
    ensures InRange(forest + [edges[i]], k) && Greedy(k, edges, forest + [edges[i]])
  {
    var f' := forest + [edges[i]];
    forall p, x | 0 <= p < |f'| && x in edges && x.weight < f'[p].weight
      ensures Linked(k, f'[..p], x.u, x.v)
    {
      assert f'[..p] == forest[..p] || p == |forest|;
      if p < |forest| {
        assert f'[..p] == forest[..p] && f'[p] == forest[p];
      } else {
        var j :| 0 <= j < |edges| && edges[j] == x;
        assert j < i && edges[..i][j] == x;
        assert f'[..p] == forest;
      }
    }
  }

  /** The rank argument: with `t` greedy, at most `p` edges of any forest
      drawn from `edges` are lighter than `t[p]`. */
  lemma GreedyCounts(k: nat, edges: seq<Edge>, t: seq<Edge>, f: seq<Edge>, p: nat)
    requires InRange(edges, k) && InRange(t, k) && IsForest(k, t) && Greedy(k, edges, t)
    requires InRange(f, k) && IsForest(k, f) && (forall x <- f :: x in edges) && p < |t|
    ensures |Below(f, t[p].weight)| <= p
  {
    var b := Below(f, t[p].weight);
    BelowForest(k, f, t[p].weight);
    ForestPrefix(k, t, p);
    ForestRank(k, b, t[..p]);
  }

  /** A greedy spanning forest weighs no more than any spanning forest of the
      same edges. */
  lemma GreedyMinimal(k: nat, edges: seq<Edge>, t: seq<Edge>, f: seq<Edge>)
    requires InRange(edges, k) && SpanningForestOf(k, edges, t) && Greedy(k, edges, t)
    requires SpanningForestOf(k, edges, f)
    ensures Cost(t) <= Cost(f)
  {
    ForestRank(k, f, t);
    ForestRank(k, t, f);
    forall p | 0 <= p < |t| ensures |Below(f, t[p].weight)| <= p {
      GreedyCounts(k, edges, t, f, p);
    }
    assert FewLighter(t, f);
    CostByCounts(t, f);
  }

  /** The forest the acceptance loop leaves is a minimum spanning forest of
      its input. */
  lemma GreedyIsMinimum(k: nat, edges: seq<Edge>, forest: seq<Edge>)
    requires InRange(edges, k) && InRange(forest, k) && IsForest(k, forest)
    requires multiset(forest) <= multiset(edges) && Greedy(k, edges, forest)
    requires forall e <- edges :: Linked(k, forest, e.u, e.v)
    ensures forall f | SpanningForestOf(k, edges, f) :: Cost(forest) <= Cost(f)
  {
    assert forall x <- forest :: x in multiset(edges);
    forall f | SpanningForestOf(k, edges, f) ensures Cost(forest) <= Cost(f) {
      GreedyMinimal(k, edges, forest, f);
    }
  }

  ghost predicate SamePartition(r: seq<int>, c: seq<int>)
  {
    |r| == |c| && forall i, j :: 0 <= i < |r| && 0 <= j < |r| ==> (r[i] == r[j] <==> c[i] == c[j])
  }

  /** A `Dsu` merge and a `Merge` of the same two classes keep two labellings
      describing the same partition. */
  lemma MergeKeepsPartition(r: seq<int>, c: seq<int>, u: int, v: int, w: int)
    requires SamePartition(r, c) && 0 <= u < |r| && 0 <= v < |r| && r[u] != r[v]
    requires w == r[u] || w == r[v]
    ensures SamePartition(Relabel(r, r[u], r[v], w), Merge(c, u, v))
  {
  }

  /** What the acceptance loop keeps after scanning the edges `seen`: the
      kept edges are a forest drawn from `seen`, the union-find labelling
      `r` describes its components, and every scanned edge is linked. */
  ghost predicate Progress(k: nat, seen: seq<Edge>, forest: seq<Edge>, r: seq<int>)
  {
    && InRange(seen, k) && InRange(forest, k) && IsForest(k, forest)
    && multiset(forest) <= multiset(seen)
    && SamePartition(r, Classes(k, forest))
    && forall x <- seen :: Linked(k, forest, x.u, x.v)
  }

  /** Loop step of `Kruskal` for an accepted edge: the forest grows by `e`,
      the union-find labelling `r1` still describes its components and every
      edge seen so far stays linked. */
  lemma AcceptStep(k: nat, forest: seq<Edge>, e: Edge, seen: seq<Edge>, r0: seq<int>, r1: seq<int>)
    requires Progress(k, seen, forest, r0) && 0 <= e.u < k && 0 <= e.v < k && r0[e.u] != r0[e.v]
    requires |r1| == k && r1 == Relabel(r0, r0[e.u], r0[e.v], r1[e.u]) && r1[e.u] in {r0[e.u], r0[e.v]}
    ensures Progress(k, seen + [e], forest + [e], r1)
  {
    ForestExtend(k, forest, e);
    var c := Classes(k, forest);
    MergeKeepsPartition(r0, c, e.u, e.v, r1[e.u]);
    var m := Classes(k, forest + [e]);
    assert m == Merge(c, e.u, e.v);
    forall x | x in seen + [e] ensures Linked(k, forest + [e], x.u, x.v) {
      if x in seen {
        assert c[x.u] == c[x.v];
      }
    }
    assert multiset(forest + [e]) == multiset(forest) + multiset{e};
    assert multiset(seen + [e]) == multiset(seen) + multiset{e};
  }

  /** Loop step of `Kruskal` for a rejected edge: its endpoints are already
      linked by the forest. */
  lemma RejectStep(k: nat, forest: seq<Edge>, e: Edge, seen: seq<Edge>, r0: seq<int>)
    requires Progress(k, seen, forest, r0) && 0 <= e.u < k && 0 <= e.v < k && r0[e.u] == r0[e.v]
    ensures Progress(k, seen + [e], forest, r0)
  {
  }

  /** The invariant of the acceptance loop after `i` sorted edges. */
  ghost predicate KruskalInv(k: nat, edges: seq<Edge>, i: nat, forest: seq<Edge>, r: seq<int>)
  {
    && InRange(edges, k) && SortedByWeight(edges) && i <= |edges|
    && Progress(k, edges[..i], forest, r) && Greedy(k, edges, forest)
  }

  /** The loop step for an edge whose endpoints the `Dsu` found apart. */
  lemma KruskalAccept(k: nat, edges: seq<Edge>, i: nat, forest: seq<Edge>, r0: seq<int>, r1: seq<int>)
    requires KruskalInv(k, edges, i, forest, r0) && i < |edges| && r0[edges[i].u] != r0[edges[i].v]
    requires |r1| == k && r1 == Relabel(r0, r0[edges[i].u], r0[edges[i].v], r1[edges[i].u])
    requires r1[edges[i].u] in {r0[edges[i].u], r0[edges[i].v]}
    ensures KruskalInv(k, edges, i + 1, forest + [edges[i]], r1)
  {
    assert edges[..i + 1] == edges[..i] + [edges[i]];
    AcceptStep(k, forest, edges[i], edges[..i], r0, r1);
    GreedyStep(k, edges, forest, i);
  }

  /** The loop step for an edge whose endpoints are already joined. */
  lemma KruskalReject(k: nat, edges: seq<Edge>, i: nat, forest: seq<Edge>, r0: seq<int>)
    requires KruskalInv(k, edges, i, forest, r0) && i < |edges| && r0[edges[i].u] == r0[edges[i].v]
    ensures KruskalInv(k, edges, i + 1, forest, r0)
  {
    assert edges[..i + 1] == edges[..i] + [edges[i]];
    RejectStep(k, forest, edges[i], edges[..i], r0);
  }

  /** The acceptance loop of Kruskal's algorithm over k vertices, fed the
      edges in order of weight: an edge is kept exactly when its endpoints
      lie in different components. The kept edges form a forest with at most
      k - 1 edges that links the endpoints of every input edge, and no
      spanning forest of the input edges weighs less. */
  method KruskalForest(k: nat, edges: seq<Edge>) returns (forest: seq<Edge>)
    requires InRange(edges, k) && SortedByWeight(edges)
    ensures InRange(forest, k) && IsForest(k, forest)
    ensures multiset(forest) <= multiset(edges)
    ensures forall e <- edges :: Linked(k, forest, e.u, e.v)
    ensures forest == [] || |forest| < k
    ensures forall f | SpanningForestOf(k, edges, f) :: Cost(forest) <= Cost(f)
  {
    var dsu := new Dsu(k);
    forest := [];
    for i := 0 to |edges|
      invariant dsu.Valid() && dsu.n == k
      invariant KruskalInv(k, edges, i, forest, dsu.root)
    {
      var e := edges[i];
      ghost var r0 := dsu.root;
      var merged := dsu.Unite(e.u, e.v);
      if merged {
        KruskalAccept(k, edges, i, forest, r0, dsu.root);
        forest := forest + [e];
      } else {
        KruskalReject(k, edges, i, forest, r0);
      }
    }
    assert edges[..|edges|] == edges;
    ForestEdgeBound(k, forest);
    GreedyIsMinimum(k, edges, forest);
  }

  /** The exact sum of the weights of `es`. */
  function Cost(es: seq<Edge>): real
    decreases |es|
  {
    if es == [] then 0.0 else Cost(es[..|es| - 1]) + es[|es| - 1].weight
  }
}
