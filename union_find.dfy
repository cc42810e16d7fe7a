/** The disjoint-set union of `Fin/mstStack_Algo.cpp` (struct `DSU`): two
    vectors `parent` and `rank`, path compression in `find` and union by rank
    in `unite`. The abstract view is the ghost labelling `root`, which maps
    every element to the representative of its component. */
module UnionFind {

  /** The labelling `s` after the classes labelled `a` and `b` are merged under
      the label `w`. */
  ghost function Relabel(s: seq<int>, a: int, b: int, w: int): (r: seq<int>)
    ensures |r| == |s|
  {
    seq(|s|, i requires 0 <= i < |s| => if s[i] == a || s[i] == b then w else s[i])
  }

  lemma RelabelSymmetric(s: seq<int>, a: int, b: int, w: int)
    ensures Relabel(s, a, b, w) == Relabel(s, b, a, w)
  {
  }

  class Dsu {
    const n: nat
    const parent: array<int>
    const rank: array<int>

    /** The representative of each element's component. */
    ghost var root: seq<int>
    /** An upper bound on every rank; it makes `find`'s recursion well founded. */
    ghost var maxRank: int

    ghost predicate Valid()
      reads this, parent, rank
    {
      && parent.Length == n && rank.Length == n && parent != rank && |root| == n
      && (forall x :: 0 <= x < n ==> 0 <= parent[x] < n)
      && (forall x :: 0 <= x < n ==> 0 <= root[x] < n && parent[root[x]] == root[x])
      && (forall x :: 0 <= x < n ==> root[parent[x]] == root[x])
      && (forall x :: 0 <= x < n && parent[x] == x ==> root[x] == x)
      && (forall x :: 0 <= x < n ==> 0 <= rank[x] <= maxRank)
      && (forall x :: 0 <= x < n && parent[x] != x ==> rank[x] < rank[parent[x]])
    }

    /** `DSU(n)`: every element is its own parent with rank 0, so there are n
        singleton components. */
    constructor (size: nat)
      ensures Valid() && n == size
      ensures fresh(parent) && fresh(rank)
      ensures forall x :: 0 <= x < n ==> parent[x] == x && rank[x] == 0
      ensures root == seq(size, i => i)
    {
      var p := new int[size];
      var i := 0;
      while i < size
        invariant 0 <= i <= size
        invariant forall x :: 0 <= x < i ==> p[x] == x
      {
        p[i] := i;
        i := i + 1;
      }
      n := size;
      parent := p;
      rank := new int[size](_ => 0);
      root := seq(size, i => i);
      maxRank := 0;
    }

    /** `find(x)`: returns the representative of x and points x straight at
        it. Compression only redirects elements to their own representative,
        so no element changes component. */
    method Find(x: int) returns (r: int)
      requires Valid() && 0 <= x < n
      modifies parent
      ensures Valid()
      ensures r == root[x] && parent[r] == r && parent[x] == r
      ensures rank[x] <= rank[r]
      ensures forall y :: 0 <= y < n ==> parent[y] == old(parent[y]) || parent[y] == root[y]
      decreases maxRank - rank[x]
    {
      if parent[x] != x {
        var p := Find(parent[x]);
        parent[x] := p;
      }
      r := parent[x];
    }

    /** `unite(x, y)`: false and no change of components when x and y already
        share a representative; otherwise true, and exactly the two components
        are merged under the representative of higher rank (x's on a tie, whose
        rank then grows by one). */
    method Unite(x: int, y: int) returns (merged: bool)
      requires Valid() && 0 <= x < n && 0 <= y < n
      modifies this, parent, rank
      ensures Valid()
      ensures merged <==> old(root[x]) != old(root[y])
      ensures !merged ==> root == old(root) && forall i :: 0 <= i < n ==> rank[i] == old(rank[i])
      ensures merged ==> root[x] == root[y]
      ensures merged ==> root == Relabel(old(root), old(root[x]), old(root[y]), root[x])
      ensures merged ==> root[x] == if old(rank[root[x]] < rank[root[y]]) then old(root[y]) else old(root[x])
      ensures merged ==> forall i :: 0 <= i < n && i != root[x] ==> rank[i] == old(rank[i])
      ensures merged ==> rank[root[x]] == if old(rank[root[x]] == rank[root[y]]) then old(rank[root[x]]) + 1
                                          else old(if rank[root[x]] < rank[root[y]] then rank[root[y]] else rank[root[x]])
    {
      var rootX := Find(x);
      var rootY := Find(y);
      if rootX == rootY {
        return false;
      }
      if rank[rootX] < rank[rootY] {
        Link(rootY, rootX);
        RelabelSymmetric(old(root), rootY, rootX, rootY);
      } else {
        Link(rootX, rootY);
      }
      merged := true;
    }

    /** Hangs the root `l` under the root `w`; on equal ranks `w`'s rank grows
        by one (the three branches of `unite` after the roots differ). */
    method Link(w: int, l: int)
      requires Valid() && 0 <= w < n && 0 <= l < n && w != l
      requires parent[w] == w && parent[l] == l && rank[l] <= rank[w]
      modifies this, parent, rank
      ensures Valid()
      ensures root == Relabel(old(root), w, l, w)
      ensures forall i :: 0 <= i < n && i != w ==> rank[i] == old(rank[i])
      ensures rank[w] == if old(rank[l] == rank[w]) then old(rank[w]) + 1 else old(rank[w])
    {
      parent[l] := w;
      if rank[l] == rank[w] {
        rank[w] := rank[w] + 1;
        if maxRank < rank[w] {
          maxRank := rank[w];
        }
      }
      root := Relabel(root, w, l, w);
    }
  }
}
