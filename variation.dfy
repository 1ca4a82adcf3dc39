/**
 * How a chromosome applies the operators it carries: `mutate()` calls its
 * mutation on itself, `crossover(other)` calls its crossover on itself and the
 * other parent. The identity operators return copies.
 */
module Variation {
  import opened Wrappers
  import opened Randomness
  import opened Chromosomes
  import BitFlipMutation
  import SinglePointCrossover

  /**
   * `child` is `parent.mutate()` with the coins `coins`: a copy for the
   * identity mutation, the repaired flip for bit-flip mutation; the child
   * keeps the parent's operators.
   */
  ghost predicate MutatedWith(parent: Chromosome, coins: seq<Unit>, child: Chromosome)
  {
    child.mutation == parent.mutation && child.crossover == parent.crossover
    && (parent.mutation == IdentityMutation ==> child == Copy(parent))
    && (parent.mutation == BitFlip ==>
          |coins| == |parent.genes| && IsRepairOf(BitFlipMutation.FlipMask(parent.genes, coins), child.genes))
  }

  /**
   * `children` is `p1.crossover(p2)` with the cut `cut`: copies of the parents
   * for the identity crossover, the repaired splices for single-point
   * crossover; each child keeps its own parent's operators.
   */
  ghost predicate CrossedAt(p1: Chromosome, p2: Chromosome, cut: nat, children: Pair<Chromosome>)
  {
    children.first.mutation == p1.mutation && children.first.crossover == p1.crossover
    && children.second.mutation == p2.mutation && children.second.crossover == p2.crossover
    && (p1.crossover == IdentityCrossover ==> children == Pair(Copy(p1), Copy(p2)))
    && (p1.crossover == SinglePoint ==>
          cut < |p1.genes| <= |p2.genes|
          && IsRepairOf(SinglePointCrossover.Splice(p1.genes, p2.genes, cut, |p1.genes|), children.first.genes)
          && IsRepairOf(SinglePointCrossover.Splice(p2.genes, p1.genes, cut, |p1.genes|), children.second.genes))
  }

  /** `c.mutate()`. */
  method Mutate(c: Chromosome, rng: Random) returns (child: Chromosome)
    modifies rng
    ensures c.mutation == IdentityMutation ==> child == Copy(c) && rng.cursor == old(rng.cursor)
    ensures |child.genes| == |c.genes|
    ensures |c.genes| > 0 && (c.mutation == BitFlip || true in c.genes) ==> true in child.genes
    ensures child.mutation == c.mutation && child.crossover == c.crossover
    ensures MutatedWith(c, Draws(rng.stream, old(rng.cursor), |c.genes|), child)
  {
    match c.mutation {
      case IdentityMutation =>
        child := Copy(c);
      case BitFlip =>
        child := BitFlipMutation.ApplyFrom(c, rng);
        var flipped := BitFlipMutation.FlipMask(c.genes, Draws(rng.stream, old(rng.cursor), |c.genes|));
        RepairedFromIsRepair(flipped, rng.stream, old(rng.cursor) + |c.genes|);
    }
  }

  /** `c1.crossover(c2)`: the first parent's crossover decides. */
  method Crossover(c1: Chromosome, c2: Chromosome, rng: Random) returns (r: Result<Pair<Chromosome>>)
    modifies rng
    ensures c1.crossover == IdentityCrossover ==> r == Ok(Pair(Copy(c1), Copy(c2))) && rng.cursor == old(rng.cursor)
    ensures c1.crossover == SinglePoint && 0 < |c1.genes| <= |c2.genes| ==> r.Ok?
    ensures c1.crossover == SinglePoint && |c1.genes| == 0 ==> r == Err(IllegalArgument)
    ensures c1.crossover == SinglePoint && 0 < |c1.genes| && |c2.genes| < |c1.genes| ==> r == Err(IndexOutOfBounds)
    ensures r.Ok? ==> r.value.first.mutation == c1.mutation && r.value.first.crossover == c1.crossover
    ensures r.Ok? ==> r.value.second.mutation == c2.mutation && r.value.second.crossover == c2.crossover
    ensures r.Ok? && |c1.genes| == |c2.genes| ==>
      |r.value.first.genes| == |c1.genes| && |r.value.second.genes| == |c2.genes|
    ensures r.Ok? && c1.crossover == SinglePoint ==> true in r.value.first.genes && true in r.value.second.genes
    ensures r.Ok? ==> CrossedAt(c1, c2, CutAt(c1, rng.stream, old(rng.cursor)), r.value)
  {
    match c1.crossover {
      case IdentityCrossover =>
        r := Ok(Pair(Copy(c1), Copy(c2)));
      case SinglePoint =>
        r := SinglePointCrossover.ApplyFrom(c1, c2, rng);
        if r.Ok? {
          var n := |c1.genes|;
          var cut := Scale(rng.stream(old(rng.cursor)), n);
          var s1 := SinglePointCrossover.Splice(c1.genes, c2.genes, cut, n);
          RepairedFromIsRepair(s1, rng.stream, old(rng.cursor) + 1);
          RepairedFromIsRepair(SinglePointCrossover.Splice(c2.genes, c1.genes, cut, n), rng.stream,
                               old(rng.cursor) + 1 + RepairDraws(s1));
        }
    }
  }

  /** The cut single-point crossover draws for the first parent `c1` at position `pos` of the stream. */
  function CutAt(c1: Chromosome, stream: nat -> Unit, pos: nat): (cut: nat)
    ensures |c1.genes| > 0 ==> cut < |c1.genes|
  {
    if |c1.genes| > 0 then Scale(stream(pos), |c1.genes|) else 0
  }
}
