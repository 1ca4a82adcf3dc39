/**
 * Single-point crossover: a cut position is drawn in [0, length of the first
 * parent); below the cut each child keeps its own parent's genes, from the cut
 * on it takes the other parent's.
 */
module SinglePointCrossover {
  import opened Wrappers
  import opened Randomness
  import opened Chromosomes

  /** The first child's genes before the repair: g1 below the cut, g2 from it on. */
  function Splice(g1: seq<bool>, g2: seq<bool>, cut: nat, len: nat): (r: seq<bool>)
    requires cut <= len <= |g1| && len <= |g2|
    ensures |r| == len
    ensures forall i :: 0 <= i < len ==> r[i] == (if i < cut then g1[i] else g2[i])
  {
    g1[..cut] + g2[cut..len]
  }

  /** At every position the two children hold the two parents' genes, in some order. */
  lemma SplicePermutesPositions(g1: seq<bool>, g2: seq<bool>, cut: nat)
    requires cut <= |g1| <= |g2|
    ensures forall i :: 0 <= i < |g1| ==>
      multiset{Splice(g1, g2, cut, |g1|)[i], Splice(g2, g1, cut, |g1|)[i]} == multiset{g1[i], g2[i]}
  {
  }

  function Bit01(b: bool): nat
  {
    if b then 1 else 0
  }

  /** Two pairs of gene vectors that agree position by position on the number of selected tests agree in total. */
  lemma {:induction false} PairwiseCount(a: seq<bool>, b: seq<bool>, c: seq<bool>, d: seq<bool>)
    requires |a| == |b| == |c| == |d|
    requires forall i :: 0 <= i < |a| ==> Bit01(a[i]) + Bit01(b[i]) == Bit01(c[i]) + Bit01(d[i])
    ensures CountTrue(a) + CountTrue(b) == CountTrue(c) + CountTrue(d)
  {
    if a != [] {
      var n := |a| - 1;
      PairwiseCount(a[..n], b[..n], c[..n], d[..n]);
    }
  }

  /** The children together select exactly as many tests as the parents over the first parent's length. */
  lemma SpliceKeepsCount(g1: seq<bool>, g2: seq<bool>, cut: nat)
    requires cut <= |g1| <= |g2|
    ensures CountTrue(Splice(g1, g2, cut, |g1|)) + CountTrue(Splice(g2, g1, cut, |g1|))
         == CountTrue(g1) + CountTrue(g2[..|g1|])
  {
    PairwiseCount(Splice(g1, g2, cut, |g1|), Splice(g2, g1, cut, |g1|), g1, g2[..|g1|]);
  }

  /** With the cut at 0 the children are the parents exchanged. */
  lemma CutZeroSwaps(g1: seq<bool>, g2: seq<bool>)
    requires |g1| <= |g2|
    ensures Splice(g1, g2, 0, |g1|) == g2[..|g1|]
    ensures Splice(g2, g1, 0, |g1|) == g1
  {
  }

  /**
   * `apply(parent1, parent2)` with its draws explicit: `cut` is the
   * `nextInt(length)` draw, `draw1` and `draw2` the repair positions of the
   * two children's constructors. An empty first parent makes `nextInt(0)`
   * throw; a second parent shorter than the first makes the loop read past
   * its end.
   */
  method Apply(parent1: Chromosome, parent2: Chromosome, cut: nat, draw1: nat, draw2: nat)
    returns (r: Result<Pair<Chromosome>>)
    requires |parent1.genes| > 0 ==> cut < |parent1.genes| && draw1 < |parent1.genes| && draw2 < |parent1.genes|
    ensures |parent1.genes| == 0 ==> r == Err(IllegalArgument)
    ensures 0 < |parent1.genes| && |parent2.genes| < |parent1.genes| ==> r == Err(IndexOutOfBounds)
    ensures 0 < |parent1.genes| <= |parent2.genes| ==> r.Ok?
    ensures r.Ok? ==>
      var n := |parent1.genes|;
      && r.value.first.genes == Repaired(Splice(parent1.genes, parent2.genes, cut, n), draw1)
      && r.value.second.genes == Repaired(Splice(parent2.genes, parent1.genes, cut, n), draw2)
      && r.value.first.mutation == parent1.mutation && r.value.first.crossover == parent1.crossover
      && r.value.second.mutation == parent2.mutation && r.value.second.crossover == parent2.crossover
  {
    var g1 := GetGenes(parent1);
    var g2 := GetGenes(parent2);
    var n := g1.Length;
    assert forall j :: 0 <= j < n ==> g1[j] == parent1.genes[j];
    if n == 0 {
      return Err(IllegalArgument);
    }
    var child1 := new bool[n];
    var child2 := new bool[n];
    var i := 0;
    while i < n
      invariant 0 <= i <= n
      invariant forall j :: 0 <= j < i && j < g2.Length ==> child1[j] == (if j < cut then g1[j] else g2[j])
      invariant forall j :: 0 <= j < i && j < g2.Length ==> child2[j] == (if j < cut then g2[j] else g1[j])
      invariant i <= g2.Length
      invariant g1[..] == parent1.genes && g2[..] == parent2.genes
    {
      if i >= g2.Length {
        return Err(IndexOutOfBounds);
      }
      if i < cut {
        child1[i] := g1[i];
        child2[i] := g2[i];
      } else {
        child1[i] := g2[i];
        child2[i] := g1[i];
      }
      i := i + 1;
    }
    assert child1[..] == Splice(parent1.genes, parent2.genes, cut, n);
    assert child2[..] == Splice(parent2.genes, parent1.genes, cut, n);
    var c1 := New(child1, Some(parent1.mutation), Some(parent1.crossover), draw1);
    var c2 := New(child2, Some(parent2.mutation), Some(parent2.crossover), draw2);
    return Ok(Pair(c1.value, c2.value));
  }

  /**
   * `apply(parent1, parent2)` drawing from the shared source: first the cut,
   * then the first child's repair position if it needs one, then the second
   * child's. The cut is drawn before the loop finds a second parent that is
   * too short.
   */
  method ApplyFrom(parent1: Chromosome, parent2: Chromosome, rng: Random) returns (r: Result<Pair<Chromosome>>)
    modifies rng
    ensures |parent1.genes| == 0 ==> r == Err(IllegalArgument) && rng.cursor == old(rng.cursor)
    ensures 0 < |parent1.genes| && |parent2.genes| < |parent1.genes| ==>
      r == Err(IndexOutOfBounds) && rng.cursor == old(rng.cursor) + 1
    ensures 0 < |parent1.genes| <= |parent2.genes| ==> r.Ok?
    ensures r.Ok? ==>
      var n := |parent1.genes|;
      var cut := Scale(rng.stream(old(rng.cursor)), n);
      var s1, s2 := Splice(parent1.genes, parent2.genes, cut, n), Splice(parent2.genes, parent1.genes, cut, n);
      && r.value.first.genes == RepairedFrom(s1, rng.stream, old(rng.cursor) + 1)
      && r.value.second.genes == RepairedFrom(s2, rng.stream, old(rng.cursor) + 1 + RepairDraws(s1))
      && rng.cursor == old(rng.cursor) + 1 + RepairDraws(s1) + RepairDraws(s2)
      && r.value.first.mutation == parent1.mutation && r.value.first.crossover == parent1.crossover
      && r.value.second.mutation == parent2.mutation && r.value.second.crossover == parent2.crossover
  {
    var n := |parent1.genes|;
    if n == 0 {
      return Err(IllegalArgument);
    }
    var cut := rng.NextInt(n);
    if |parent2.genes| < n {
      return Err(IndexOutOfBounds);
    }
    var c1 := Construct(Splice(parent1.genes, parent2.genes, cut, n), parent1.mutation, parent1.crossover, rng);
    var c2 := Construct(Splice(parent2.genes, parent1.genes, cut, n), parent2.mutation, parent2.crossover, rng);
    return Ok(Pair(c1, c2));
  }
}
