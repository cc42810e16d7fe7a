/** The dictionary `queues` of `Fin/mstStack_Algo.py`: one `PriorityQueue`
    per source of `priority_sources`. A queue is modelled by its contents, a
    sequence read as a multiset; `put` appends and `get` removes and returns
    the least tuple. The heap layout is not modelled. */
module PyQueues {
  import opened Energy
  import opened PyGraph

  /** `queues[src]`, with a source outside the dictionary read as empty. */
  function Q<K>(c: map<K, seq<Entry>>, src: K): seq<Entry>
  {
    if src in c then c[src] else []
  }

  /** The tuples waiting in the queues of `srcs`. */
  function EntriesIn<K>(c: map<K, seq<Entry>>, srcs: seq<K>): multiset<Entry>
    decreases |srcs|
  {
    if srcs == [] then multiset{} else EntriesIn(c, srcs[..|srcs| - 1]) + multiset(Q(c, srcs[|srcs| - 1]))
  }

  /** Every tuple waiting in the four queues. */
  function AllEntries(c: map<string, seq<Entry>>): multiset<Entry>
  {
    EntriesIn(c, Priority)
  }

  predicate DistinctSources<K(==)>(srcs: seq<K>)
  {
    forall i, j :: 0 <= i < j < |srcs| ==> srcs[i] != srcs[j]
  }

  lemma PriorityDistinct()
    ensures DistinctSources(Priority)
  {
    assert Priority[0][0] == 'S' && Priority[1][0] == 'W' && Priority[2][0] == 'H' && Priority[3][0] == 'C';
  }

  /** Replacing the queue of `src` changes the tuples waiting in the queues
      of `srcs` by what that queue lost and gained when `src` is one of them,
      and not at all otherwise. */
  lemma {:induction false} EntriesInUpdate<K>(c: map<K, seq<Entry>>, srcs: seq<K>, src: K, q': seq<Entry>)
    requires DistinctSources(srcs)
    ensures src in srcs ==> EntriesIn(c[src := q'], srcs) + multiset(Q(c, src)) == EntriesIn(c, srcs) + multiset(q')
    ensures src !in srcs ==> EntriesIn(c[src := q'], srcs) == EntriesIn(c, srcs)
    decreases |srcs|
  {
    if srcs != [] {
      var init, last := srcs[..|srcs| - 1], srcs[|srcs| - 1];
      assert srcs == init + [last];
      assert DistinctSources(init);
      EntriesInUpdate(c, init, src, q');
      var c' := c[src := q'];
      var m, m' := multiset(Q(c, src)), multiset(q');
      assert EntriesIn(c', srcs) == EntriesIn(c', init) + multiset(Q(c', last));
      assert EntriesIn(c, srcs) == EntriesIn(c, init) + multiset(Q(c, last));
      if last == src {
        assert src !in init;
        assert Q(c', src) == q';
        SwapIn(EntriesIn(c', init), EntriesIn(c, init), m, m');
      } else {
        assert Q(c', last) == Q(c, last);
        if src in srcs {
          assert src in init;
          AddBoth(EntriesIn(c', init), EntriesIn(c, init), multiset(Q(c, last)), m, m');
        }
      }
    }
  }

  lemma SwapIn<T>(a: multiset<T>, b: multiset<T>, m: multiset<T>, m': multiset<T>)
    requires a == b
    ensures a + m' + m == b + m + m'
  {
    forall x ensures (a + m' + m)[x] == (b + m + m')[x] {
    }
  }

  lemma AddBoth<T>(a: multiset<T>, b: multiset<T>, r: multiset<T>, m: multiset<T>, m': multiset<T>)
    requires a + m == b + m'
    ensures a + r + m == b + r + m'
  {
    forall x ensures (a + r + m)[x] == (b + r + m')[x] {
      assert (a + m)[x] == (b + m')[x];
    }
  }

  /** Replacing one of the four queues changes the waiting tuples by exactly
      what that queue lost and gained. */
  lemma AllEntriesUpdate(c: map<string, seq<Entry>>, src: string, q': seq<Entry>)
    requires src in Priority
    ensures AllEntries(c[src := q']) + multiset(Q(c, src)) == AllEntries(c) + multiset(q')
  {
    PriorityDistinct();
    EntriesInUpdate(c, Priority, src, q');
  }

  /** Taking `e` out of one queue: the waiting tuples lose exactly `e`. */
  lemma TakeOut<T>(a': multiset<T>, a: multiset<T>, m: multiset<T>, m': multiset<T>, e: T)
    requires a' + m == a + m' && m == m' + multiset{e}
    ensures a' + multiset{e} == a
  {
    forall x ensures (a' + multiset{e})[x] == a[x] {
      assert (a' + m)[x] == (a + m')[x];
    }
  }

  /** Moving `e` from the waiting tuples to the picks keeps their union. */
  lemma MoveToPicks<T>(a': multiset<T>, a: multiset<T>, k: multiset<T>, a0: multiset<T>, e: T)
    requires a' + multiset{e} == a && a + k == a0
    ensures a' + (k + multiset{e}) == a0
  {
    forall x ensures (a' + (k + multiset{e}))[x] == a0[x] {
      assert (a' + multiset{e})[x] == a[x];
    }
  }

  /** The tuples of the nodes of `nodes` whose source is `src`, in order. */
  function EntriesOf(nodes: seq<PyNode>, src: string): seq<Entry>
    decreases |nodes|
  {
    if nodes == [] then []
    else
      var last := nodes[|nodes| - 1];
      EntriesOf(nodes[..|nodes| - 1], src) + if last.energySource == src then [Key(last)] else []
  }

  /** Every tuple queued for `src` is the tuple of a node of that source. */
  lemma {:induction false} EntriesOfOrigin(nodes: seq<PyNode>, src: string)
    ensures forall e <- EntriesOf(nodes, src) :: exists n <- nodes :: n.energySource == src && e == Key(n)
    decreases |nodes|
  {
    if nodes != [] {
      var prefix := nodes[..|nodes| - 1];
      EntriesOfOrigin(prefix, src);
      assert forall n <- prefix :: n in nodes;
    }
  }

  /** The position of a least tuple of `q`: the one `get()` returns. */
  method MinIndex(q: seq<Entry>) returns (b: nat)
    requires q != []
    ensures b < |q| && forall m <- q :: !EntryLess(m, q[b])
  {
    b := 0;
    for i := 1 to |q|
      invariant b < i
      invariant forall j :: 0 <= j < i ==> !EntryLess(q[j], q[b])
    {
      if EntryLess(q[i], q[b]) {
        EntryLessIsStrictTotalOrder(q[i], q[b], q[b]);
        b := i;
      }
    }
  }

  /** The keys of the queue dictionary. */
  const PrioritySet: set<string> := {"Solar", "Wind", "Hydro", "Coal"}

  class PriorityQueues {
    var contents: map<string, seq<Entry>>

    /** The dictionary holds exactly the four sources of `priority_sources`. */
    ghost predicate Valid()
      reads this
    {
      contents.Keys == PrioritySet
    }

    /** `{src: PriorityQueue() for src in priority_sources}`. */
    constructor ()
      ensures Valid() && forall s <- Priority :: contents[s] == []
    {
      contents := map["Solar" := [], "Wind" := [], "Hydro" := [], "Coal" := []];
    }

    /** `queues[src].put(e)`. */
    method Put(src: string, e: Entry)
      requires Valid() && src in contents
      modifies this
      ensures Valid() && contents == old(contents)[src := old(contents[src]) + [e]]
    {
      contents := contents[src := contents[src] + [e]];
    }

    /** `queues[src].get()`: removes and returns a least tuple. */
    method Get(src: string) returns (e: Entry)
      requires Valid() && src in contents && contents[src] != []
      modifies this
      ensures Valid() && src in contents && contents == old(contents)[src := contents[src]]
      ensures e in old(contents[src]) && forall m <- old(contents[src]) :: !EntryLess(m, e)
      ensures multiset(contents[src]) + multiset{e} == multiset(old(contents[src]))
      ensures |contents[src]| == |old(contents[src])| - 1
    {
      var q := contents[src];
      var b := MinIndex(q);
      e := q[b];
      assert q == q[..b] + [e] + q[b + 1..];
      contents := contents[src := q[..b] + q[b + 1..]];
    }
  }
}
