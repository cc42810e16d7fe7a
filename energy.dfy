/** Constants and numeric conventions shared by the C++ and the Python pipeline:
    the fixed dispatch order of the energy sources, the 2% transmission loss
    applied to edge weights before the spanning tree is built, and the C++
    conversion of a `double` to an `int`. */
module Energy {

  /** The order in which the source queues are drained, cleanest first. */
  const Priority: seq<string> := ["Solar", "Wind", "Hydro", "Coal"]

  /** The loss factor added to every kept edge weight (`w += w * 0.02`). */
  const LossFactor: real := 0.02

  /** Position of a source in the dispatch order, or -1 for a source outside it. */
  function Tier(src: string): (t: int)
    ensures -1 <= t < |Priority|
    ensures 0 <= t ==> Priority[t] == src
    ensures t == -1 <==> src !in Priority
  {
    if src == "Solar" then 0
    else if src == "Wind" then 1
    else if src == "Hydro" then 2
    else if src == "Coal" then 3
    else -1
  }

  /** Each source of the dispatch order sits at its own position. */
  lemma TierOfPriority(t: int)
    requires 0 <= t < |Priority|
    ensures Tier(Priority[t]) == t
  {
    if t == 0 {
      assert Priority[0] == "Solar";
    } else if t == 1 {
      assert Priority[1] == "Wind";
    } else if t == 2 {
      assert Priority[2] == "Hydro";
    } else {
      assert Priority[3] == "Coal";
    }
  }

  /** The effective weight of an edge: its weight plus 2% loss. */
  function Inflate(w: real): (r: real)
    ensures 50.0 * r == 51.0 * w
    ensures 0.0 <= w ==> w <= r
  {
    w + w * LossFactor
  }

  /** Inflating by a constant factor keeps the relative order and the
      equalities of weights. */
  lemma InflateKeepsOrder(a: real, b: real)
    ensures a < b <==> Inflate(a) < Inflate(b)
    ensures a == b <==> Inflate(a) == Inflate(b)
  {
  }

  /** C++ conversion of a `double` to `int`: truncation toward zero. */
  function TruncateToInt(x: real): (r: int)
    ensures 0.0 <= x ==> r as real <= x < r as real + 1.0
    ensures x < 0.0 ==> r as real - 1.0 < x <= r as real
  {
    if x >= 0.0 then x.Floor else -((-x).Floor)
  }
}
