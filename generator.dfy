/**
 * The random chromosome generator: a target size k biased towards small
 * suites, then k distinct tests chosen by a partial Fisher-Yates shuffle.
 * The same selection is used by the random-search baseline.
 */
module ChromosomeGenerator {
  import opened Wrappers
  import opened Randomness
  import opened Collections
  import opened Chromosomes

  /** k = 1 + floor(r * r * (n - 1)): quadratic bias towards small suites. */
  function TargetSize(n: nat, r: Unit): (k: nat)
    requires n >= 1
    ensures 1 <= k <= n
    ensures n >= 2 ==> k <= n - 1
  {
    ScaledFloorBounds(r, n - 1);
    1 + ScaledFloor(r, n - 1)
  }

  function ScaledFloor(r: Unit, m: nat): int
  {
    (r * r * (m as real)).Floor
  }

  /** floor(r*r*m) lies in [0, m - 1] for r in [0, 1) and m >= 1, and is 0 for m = 0. */
  lemma ScaledFloorBounds(r: Unit, m: nat)
    ensures 0 <= ScaledFloor(r, m)
    ensures m >= 1 ==> ScaledFloor(r, m) < m
    ensures m == 0 ==> ScaledFloor(r, m) == 0
  {
    var mr := m as real;
    ShrinkingFactor(r, r);
    var q := r * r;
    ShrinkingFactor(q, mr);
    var x := q * mr;
    assert x.Floor as real <= x;
    if m >= 1 {
      assert mr > 0.0;
      assert x < mr;
      assert x.Floor < m;
      assert ScaledFloor(r, m) == x.Floor;
    }
  }

  /** Multiplying by a factor in [0, 1) does not increase a non-negative number. */
  lemma ShrinkingFactor(a: real, b: real)
    requires 0.0 <= a < 1.0 && 0.0 <= b
    ensures 0.0 <= a * b <= b
    ensures b > 0.0 ==> a * b < b
  {
  }

  /**
   * The partial Fisher-Yates shuffle over the index array 0..n-1: step i swaps
   * position i with position i + offsets[i] and selects the test now at i.
   * `offsets[i]` is the draw `nextInt(n - i)`.
   */
  method PartialShuffleSelect(n: nat, k: nat, offsets: seq<nat>) returns (genes: seq<bool>, chosen: seq<nat>)
    requires k <= n && |offsets| >= k
    requires forall i :: 0 <= i < k ==> offsets[i] < n - i
    ensures |genes| == n && |chosen| == k
    ensures Distinct(chosen)
    ensures forall i :: 0 <= i < k ==> chosen[i] < n
    ensures forall x :: 0 <= x < n ==> (genes[x] <==> x in chosen)
    ensures CountTrue(genes) == k
  {
    var g := new bool[n](_ => false);
    var idx := new nat[n](x => x);
    var i := 0;
    while i < k
      invariant 0 <= i <= k
      invariant forall a :: 0 <= a < n ==> idx[a] < n
      invariant Distinct(idx[..])
      invariant forall x :: 0 <= x < n ==> (g[x] <==> x in idx[..i])
    {
      var j := i + offsets[i];
      ghost var before := idx[..];
      idx[i], idx[j] := idx[j], idx[i];
      assert idx[..] == before[i := before[j]][j := before[i]];
      SwapDistinct(before, i, j);
      assert idx[..i] == before[..i];
      g[idx[i]] := true;
      assert idx[..i + 1] == before[..i] + [idx[i]];
      i := i + 1;
    }
    genes, chosen := g[..], idx[..k];
    assert TrueSet(genes) == Elements(chosen);
    DistinctCard(chosen);
    CountTrueIsCard(genes);
  }

  /** The generator keeps the number of tests and the operators every chromosome receives. */
  datatype Generator = Generator(numberOfTests: nat, mutation: MutationOp, crossover: CrossoverOp)

  /**
   * `get()` with its draws made explicit: `r` is the `nextDouble()` for the
   * target size, `offsets` the `nextInt(n - i)` draws of the shuffle. With no
   * tests the target size is 1 + floor(-r*r), that is 1 when r is 0 (and the
   * first `nextInt(0)` throws) and 0 otherwise (an empty chromosome).
   */
  method Get(gen: Generator, r: Unit, offsets: seq<nat>) returns (c: Result<Chromosome>)
    requires gen.numberOfTests >= 1 ==> |offsets| >= TargetSize(gen.numberOfTests, r)
    requires gen.numberOfTests >= 1 ==>
      forall i :: 0 <= i < TargetSize(gen.numberOfTests, r) ==> offsets[i] < gen.numberOfTests - i
    ensures gen.numberOfTests == 0 ==> c == (if r == 0.0 then Err(IllegalArgument)
                                            else Ok(Chromosome([], gen.mutation, gen.crossover)))
    ensures gen.numberOfTests >= 1 ==> c.Ok?
    ensures c.Ok? ==> |c.value.genes| == gen.numberOfTests
    ensures c.Ok? && gen.numberOfTests >= 1 ==> CountTrue(c.value.genes) == TargetSize(gen.numberOfTests, r)
    ensures c.Ok? && gen.numberOfTests >= 1 ==> true in c.value.genes
    ensures c.Ok? ==> c.value.mutation == gen.mutation && c.value.crossover == gen.crossover
  {
    var n := gen.numberOfTests;
    if n == 0 {
      if r == 0.0 {
        return Err(IllegalArgument);
      }
      return Ok(Chromosome([], gen.mutation, gen.crossover));
    }
    var k := TargetSize(n, r);
    var genes, chosen := PartialShuffleSelect(n, k, offsets);
    CountTruePositive(genes);
    var a := new bool[n](i requires 0 <= i < n => genes[i]);
    assert a[..] == genes;
    c := New(a, Some(gen.mutation), Some(gen.crossover), 0);
  }

  /** The `nextInt(n - i)` draws of the shuffle, taken from the shared source in order. */
  method DrawOffsets(rng: Random, n: nat, k: nat) returns (offsets: seq<nat>)
    requires k <= n
    modifies rng
    ensures |offsets| == k
    ensures forall i :: 0 <= i < k ==> offsets[i] < n - i
    ensures rng.cursor == old(rng.cursor) + k
  {
    offsets := [];
    var i := 0;
    while i < k
      invariant 0 <= i <= k && |offsets| == i
      invariant forall j :: 0 <= j < i ==> offsets[j] < n - j
      invariant rng.cursor == old(rng.cursor) + i
    {
      var o := rng.NextInt(n - i);
      offsets := offsets + [o];
      i := i + 1;
    }
  }

  /** `get()` drawing from the shared source. */
  method GetFrom(gen: Generator, rng: Random) returns (c: Result<Chromosome>)
    modifies rng
    ensures gen.numberOfTests == 0 ==>
      && rng.cursor == old(rng.cursor) + 1
      && c == (if rng.stream(old(rng.cursor)) == 0.0 then Err(IllegalArgument)
               else Ok(Chromosome([], gen.mutation, gen.crossover)))
    ensures gen.numberOfTests >= 1 ==> c.Ok? && true in c.value.genes
    ensures gen.numberOfTests >= 1 ==>
      var k := TargetSize(gen.numberOfTests, rng.stream(old(rng.cursor)));
      CountTrue(c.value.genes) == k && rng.cursor == old(rng.cursor) + 1 + k
    ensures c.Ok? ==> |c.value.genes| == gen.numberOfTests
    ensures c.Ok? ==> c.value.mutation == gen.mutation && c.value.crossover == gen.crossover
  {
    var r := rng.NextDouble();
    var offsets := [];
    if gen.numberOfTests >= 1 {
      offsets := DrawOffsets(rng, gen.numberOfTests, TargetSize(gen.numberOfTests, r));
    }
    c := Get(gen, r, offsets);
  }
}
