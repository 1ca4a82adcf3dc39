/**
 * A test-suite chromosome: gene i is true when test i belongs to the suite.
 * The gene array is written only while the chromosome is being constructed
 * (the "at least one test" repair), so a chromosome is a value here.
 */
module Chromosomes {
  import opened Wrappers
  import opened Randomness

  /** The mutation strategy a chromosome carries; `Mutation.identity()` stands in for null. */
  datatype MutationOp = IdentityMutation | BitFlip

  /** The crossover strategy a chromosome carries; `Crossover.identity()` stands in for null. */
  datatype CrossoverOp = IdentityCrossover | SinglePoint

  datatype Chromosome = Chromosome(genes: seq<bool>, mutation: MutationOp, crossover: CrossoverOp)

  /** The number of selected tests, counted from the left as the source's loop does. */
  function CountTrue(g: seq<bool>): (n: nat)
    ensures n <= |g|
  {
    if g == [] then 0 else CountTrue(g[..|g| - 1]) + (if g[|g| - 1] then 1 else 0)
  }

  lemma {:induction false} CountTruePositive(g: seq<bool>)
    ensures CountTrue(g) > 0 <==> true in g
  {
    if g != [] {
      CountTruePositive(g[..|g| - 1]);
      assert g == g[..|g| - 1] + [g[|g| - 1]];
    }
  }

  /** A suite selects every test exactly when its count is the whole length. */
  lemma {:induction false} CountTrueAll(g: seq<bool>)
    ensures CountTrue(g) == |g| <==> false !in g
  {
    if g != [] {
      CountTrueAll(g[..|g| - 1]);
      assert g == g[..|g| - 1] + [g[|g| - 1]];
    }
  }

  /** The set of the selected tests. */
  function TrueSet(g: seq<bool>): set<nat>
  {
    set i: nat | i < |g| && g[i]
  }

  /** Counting the genes and counting the set of selected tests agree. */
  lemma {:induction false} CountTrueIsCard(g: seq<bool>)
    ensures CountTrue(g) == |TrueSet(g)|
  {
    if g != [] {
      var t := g[..|g| - 1];
      CountTrueIsCard(t);
      if g[|g| - 1] {
        assert TrueSet(g) == TrueSet(t) + {|g| - 1};
      } else {
        assert TrueSet(g) == TrueSet(t);
      }
    }
  }

  /** The positions of the selected tests, in ascending order. */
  function SelectedIndices(g: seq<bool>): (s: seq<nat>)
    ensures |s| == CountTrue(g)
    ensures forall k :: 0 <= k < |s| ==> s[k] < |g| && g[s[k]]
    ensures forall i :: 0 <= i < |g| && g[i] ==> i in s
    ensures forall k, l :: 0 <= k < l < |s| ==> s[k] < s[l]
  {
    if g == [] then []
    else
      var p := SelectedIndices(g[..|g| - 1]);
      if g[|g| - 1] then p + [|g| - 1] else p
  }

  /**
   * `ensureAtLeastOneTest`: an all-false, non-empty gene vector gets the gene at
   * the random position `draw` switched on; any other vector is left alone.
   */
  function Repaired(g: seq<bool>, draw: nat): (r: seq<bool>)
    requires |g| > 0 ==> draw < |g|
    ensures |r| == |g|
    ensures |g| > 0 ==> true in r
    ensures true in g ==> r == g
    ensures true !in g ==> forall i :: 0 <= i < |r| ==> r[i] == (i == draw)
  {
    if true in g || |g| == 0 then g
    else
      assert g[draw := true][draw];
      g[draw := true]
  }

  /** The repair draws a random position exactly when the genes are non-empty and all false. */
  predicate NeedsRepair(g: seq<bool>)
  {
    |g| > 0 && true !in g
  }

  /**
   * The genes the constructor stores when its repair position, if it needs
   * one, is the draw of `stream` at `pos`.
   */
  function RepairedFrom(g: seq<bool>, stream: nat -> Unit, pos: nat): (r: seq<bool>)
    ensures |r| == |g| && (|g| > 0 ==> true in r)
    ensures !NeedsRepair(g) ==> r == g
  {
    if NeedsRepair(g) then Repaired(g, Scale(stream(pos), |g|)) else g
  }

  /**
   * `g` is what the constructor stores for the genes `s`: `s` itself, or, when
   * `s` is non-empty and selects nothing, its repair at some position.
   */
  ghost predicate IsRepairOf(s: seq<bool>, g: seq<bool>)
  {
    if NeedsRepair(s) then exists d: nat :: d < |s| && g == Repaired(s, d) else g == s
  }

  /** Repairing with a drawn position is a repair. */
  lemma RepairedFromIsRepair(s: seq<bool>, stream: nat -> Unit, pos: nat)
    ensures IsRepairOf(s, RepairedFrom(s, stream, pos))
  {
    if NeedsRepair(s) {
      var d := Scale(stream(pos), |s|);
      assert RepairedFrom(s, stream, pos) == Repaired(s, d);
    }
  }

  /** How many draws the constructor takes from the source: one for a repair, none otherwise. */
  function RepairDraws(g: seq<bool>): (k: nat)
    ensures k <= 1 && (k == 1 <==> NeedsRepair(g))
  {
    if NeedsRepair(g) then 1 else 0
  }

  /**
   * The constructor as the search drivers call it: the genes are given by
   * value and the repair position is drawn from the shared source only when
   * the repair happens.
   */
  method Construct(genes: seq<bool>, mutation: MutationOp, crossover: CrossoverOp, rng: Random)
    returns (c: Chromosome)
    modifies rng
    ensures NeedsRepair(genes) ==> c.genes == Repaired(genes, Scale(rng.stream(old(rng.cursor)), |genes|))
    ensures NeedsRepair(genes) ==> rng.cursor == old(rng.cursor) + 1
    ensures !NeedsRepair(genes) ==> c.genes == genes && rng.cursor == old(rng.cursor)
    ensures |c.genes| == |genes| && (|genes| > 0 ==> true in c.genes)
    ensures c.mutation == mutation && c.crossover == crossover
  {
    var draw := 0;
    if NeedsRepair(genes) {
      draw := rng.NextInt(|genes|);
    }
    var a := new bool[|genes|](i requires 0 <= i < |genes| => genes[i]);
    assert a[..] == genes;
    var r := New(a, Some(mutation), Some(crossover), draw);
    c := r.value;
  }

  /** The null arguments for the strategies are replaced by the identity operators. */
  function MutationOrIdentity(m: Option<MutationOp>): MutationOp
  {
    if m.Some? then m.value else IdentityMutation
  }

  function CrossoverOrIdentity(c: Option<CrossoverOp>): CrossoverOp
  {
    if c.Some? then c.value else IdentityCrossover
  }

  /**
   * The main constructor: rejects a null gene vector, clones it and repairs the
   * clone so that it selects at least one test. `draw` is the index the random
   * source would give for the repair; it is used only when every gene is false.
   */
  method New(genes: array?<bool>, mutation: Option<MutationOp>, crossover: Option<CrossoverOp>, draw: nat)
    returns (r: Result<Chromosome>)
    requires genes != null && genes.Length > 0 ==> draw < genes.Length
    ensures genes == null ==> r == Err(NullPointer)
    ensures genes != null ==> r.Ok? && r.value.genes == Repaired(genes[..], draw)
    ensures r.Ok? ==> (r.value.mutation == MutationOrIdentity(mutation)
                       && r.value.crossover == CrossoverOrIdentity(crossover))
  {
    if genes == null {
      return Err(NullPointer);
    }
    var a := new bool[genes.Length](i requires 0 <= i < genes.Length reads genes => genes[i]);
    assert a[..] == genes[..];
    var any := false;
    var i := 0;
    while i < a.Length
      invariant 0 <= i <= a.Length
      invariant true !in a[..i]
    {
      if a[i] {
        any := true;
        break;
      }
      i := i + 1;
    }
    assert any ==> a[..][i];
    assert !any ==> a[..i] == a[..];
    if !any && a.Length > 0 {
      a[draw] := true;
    }
    return Ok(Chromosome(a[..], MutationOrIdentity(mutation), CrossoverOrIdentity(crossover)));
  }

  /** The test constructor: identity operators. */
  method NewForTest(genes: array?<bool>, draw: nat) returns (r: Result<Chromosome>)
    requires genes != null && genes.Length > 0 ==> draw < genes.Length
    ensures genes == null ==> r == Err(NullPointer)
    ensures genes != null ==> r.Ok? && r.value.genes == Repaired(genes[..], draw)
    ensures r.Ok? ==> r.value.mutation == IdentityMutation && r.value.crossover == IdentityCrossover
  {
    r := New(genes, None, None, draw);
  }

  /** `length()`: the number of genes, that is, of tests. */
  function Length(c: Chromosome): (n: nat)
    ensures n == |c.genes|
  {
    |c.genes|
  }

  /** `length()` bounds `getNumberOfSelectedTests()`, and equals it exactly when every test is selected. */
  lemma LengthBoundsSelection(c: Chromosome)
    ensures CountTrue(c.genes) <= Length(c)
    ensures CountTrue(c.genes) == Length(c) <==> false !in c.genes
  {
    CountTrueAll(c.genes);
  }

  /** `getGenes()`: a fresh array with the genes, so the caller cannot alter the chromosome. */
  method GetGenes(c: Chromosome) returns (a: array<bool>)
    ensures fresh(a) && a[..] == c.genes
  {
    a := new bool[|c.genes|](i requires 0 <= i < |c.genes| => c.genes[i]);
  }

  /** `getSelectedTestIndices()`: the accumulator loop over the genes. */
  method GetSelectedTestIndices(c: Chromosome) returns (list: seq<nat>)
    ensures list == SelectedIndices(c.genes)
    ensures forall i: nat :: i in list <==> i < |c.genes| && c.genes[i]
    ensures forall k, l :: 0 <= k < l < |list| ==> list[k] < list[l]
    ensures |list| == CountTrue(c.genes)
  {
    list := [];
    var i := 0;
    while i < |c.genes|
      invariant 0 <= i <= |c.genes|
      invariant list == SelectedIndices(c.genes[..i])
    {
      assert c.genes[..i + 1][..i] == c.genes[..i];
      if c.genes[i] {
        list := list + [i];
      }
      i := i + 1;
    }
    assert c.genes[..i] == c.genes;
  }

  /** `getNumberOfSelectedTests()`: the counting loop over the genes. */
  method GetNumberOfSelectedTests(c: Chromosome) returns (count: nat)
    ensures count == CountTrue(c.genes)
    ensures count == |SelectedIndices(c.genes)|
    ensures count > 0 <==> true in c.genes
  {
    count := 0;
    var i := 0;
    while i < |c.genes|
      invariant 0 <= i <= |c.genes|
      invariant count == CountTrue(c.genes[..i])
    {
      assert c.genes[..i + 1][..i] == c.genes[..i];
      if c.genes[i] {
        count := count + 1;
      }
      i := i + 1;
    }
    assert c.genes[..i] == c.genes;
    CountTruePositive(c.genes);
  }

  /** `equals`: chromosomes are equal when their genes are, whatever their operators. */
  predicate Equals(a: Chromosome, b: Chromosome)
  {
    a.genes == b.genes
  }

  /** `copy()`: the copy constructor clones the genes and keeps the operators. */
  function Copy(c: Chromosome): (d: Chromosome)
    ensures Equals(d, c) && d.genes == c.genes
    ensures d.mutation == c.mutation && d.crossover == c.crossover
  {
    Chromosome(c.genes, c.mutation, c.crossover)
  }

  lemma EqualsIsEquivalence(a: Chromosome, b: Chromosome, c: Chromosome)
    ensures Equals(a, a)
    ensures Equals(a, b) ==> Equals(b, a)
    ensures Equals(a, b) && Equals(b, c) ==> Equals(a, c)
    ensures Equals(a, b) <==> a.genes == b.genes
  {
  }

  function Bit(b: bool): char
  {
    if b then '1' else '0'
  }

  /** `toString()`: "Chromosome(" then one '1' or '0' per gene, then ")". */
  function ToString(c: Chromosome): (s: string)
    ensures |s| == |c.genes| + 12
    ensures s[..11] == "Chromosome(" && s[|s| - 1] == ')'
    ensures forall i :: 0 <= i < |c.genes| ==> s[11 + i] == (if c.genes[i] then '1' else '0')
  {
    "Chromosome(" + seq(|c.genes|, i requires 0 <= i < |c.genes| => Bit(c.genes[i])) + ")"
  }

  /** The string form tells chromosomes apart exactly as `equals` does. */
  lemma ToStringFaithful(a: Chromosome, b: Chromosome)
    ensures ToString(a) == ToString(b) <==> Equals(a, b)
  {
    if ToString(a) == ToString(b) {
      assert |a.genes| == |b.genes|;
      forall i | 0 <= i < |a.genes|
        ensures a.genes[i] == b.genes[i]
      {
        assert ToString(a)[11 + i] == ToString(b)[11 + i];
      }
    }
  }
}
