/**
 * Bit-flip mutation: every gene of a copy of the parent is flipped with
 * probability 1/n, then the offspring is built with the parent's operators
 * (and repaired if every gene ended up false).
 */
module BitFlipMutation {
  import opened Wrappers
  import opened Randomness
  import opened Chromosomes

  /** Gene i flips when its coin, the i-th `nextDouble()`, is below 1/n. */
  predicate Flips(n: nat, coin: Unit)
  {
    n > 0 && coin < 1.0 / n as real
  }

  /** The genes after the flipping loop, before the repair. */
  function FlipMask(g: seq<bool>, coins: seq<Unit>): (r: seq<bool>)
    requires |coins| == |g|
    ensures |r| == |g|
    ensures forall i :: 0 <= i < |g| ==> (r[i] != g[i] <==> Flips(|g|, coins[i]))
  {
    seq(|g|, i requires 0 <= i < |g| => if Flips(|g|, coins[i]) then !g[i] else g[i])
  }

  /** Flipping with the same coins twice restores the genes. */
  lemma FlipMaskInvolution(g: seq<bool>, coins: seq<Unit>)
    requires |coins| == |g|
    ensures FlipMask(FlipMask(g, coins), coins) == g
  {
  }

  /** With no coin below 1/n the mutation leaves a valid parent's genes unchanged. */
  lemma NoFlipIsCopy(parent: Chromosome, coins: seq<Unit>, repair: nat)
    requires |coins| == |parent.genes| && true in parent.genes && repair < |coins|
    requires forall i :: 0 <= i < |coins| ==> !Flips(|coins|, coins[i])
    ensures Repaired(FlipMask(parent.genes, coins), repair) == parent.genes
  {
    assert FlipMask(parent.genes, coins) == parent.genes;
  }

  /**
   * `apply(parent)` with its draws explicit: `coins` are the per-gene
   * `nextDouble()` draws and `repair` the constructor's `nextInt(n)`, used
   * only if every gene ended up false.
   */
  method Apply(parent: Chromosome, coins: seq<Unit>, repair: nat) returns (child: Chromosome)
    requires |coins| == |parent.genes|
    requires |parent.genes| > 0 ==> repair < |parent.genes|
    ensures child.genes == Repaired(FlipMask(parent.genes, coins), repair)
    ensures |child.genes| == |parent.genes|
    ensures |parent.genes| > 0 ==> true in child.genes
    ensures child.mutation == parent.mutation && child.crossover == parent.crossover
  {
    var offspring := Copy(parent);
    var genes := GetGenes(offspring);
    var n := genes.Length;
    var i := 0;
    while i < n
      invariant 0 <= i <= n
      invariant n == |parent.genes|
      invariant forall j :: 0 <= j < i ==> genes[j] == (if Flips(n, coins[j]) then !parent.genes[j] else parent.genes[j])
      invariant forall j :: i <= j < n ==> genes[j] == parent.genes[j]
    {
      if Flips(n, coins[i]) {
        genes[i] := !genes[i];
      }
      i := i + 1;
    }
    assert genes[..] == FlipMask(parent.genes, coins);
    var r := New(genes, Some(offspring.mutation), Some(offspring.crossover), repair);
    child := r.value;
  }

  /** `apply(parent)` drawing the coins, then the repair position if needed, from the shared source. */
  method ApplyFrom(parent: Chromosome, rng: Random) returns (child: Chromosome)
    modifies rng
    ensures var flipped := FlipMask(parent.genes, Draws(rng.stream, old(rng.cursor), |parent.genes|));
      && (!NeedsRepair(flipped) ==> child.genes == flipped)
      && (NeedsRepair(flipped) ==>
            child.genes == Repaired(flipped, Scale(rng.stream(old(rng.cursor) + |flipped|), |flipped|)))
      && rng.cursor == old(rng.cursor) + |flipped| + RepairDraws(flipped)
    ensures |child.genes| == |parent.genes|
    ensures |parent.genes| > 0 ==> true in child.genes
    ensures child.mutation == parent.mutation && child.crossover == parent.crossover
  {
    var n := |parent.genes|;
    var coins: seq<Unit> := [];
    while |coins| < n
      invariant |coins| <= n
      invariant rng.cursor == old(rng.cursor) + |coins|
      invariant coins == Draws(rng.stream, old(rng.cursor), |coins|)
    {
      var d := rng.NextDouble();
      coins := coins + [d];
    }
    child := Construct(FlipMask(parent.genes, coins), parent.mutation, parent.crossover, rng);
  }
}
