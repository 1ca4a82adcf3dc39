/**
 * The algorithm builder: from a coverage matrix (one row per test, one column
 * per line) it derives the number of tests and of lines, the normalised size
 * fitness (minimizing) and coverage fitness (maximizing), and assembles
 * Random Search or NSGA-II with bit-flip mutation and single-point crossover.
 */
module Builder {
  import opened Wrappers
  import opened Randomness
  import opened Chromosomes
  import opened ChromosomeGenerator
  import opened FitnessFunctions
  import opened StoppingConditions
  import RS = RandomSearch
  import NS = Nsga2

  // ---------------------------------------------------------------------
  // The fitness functions
  // ---------------------------------------------------------------------

  /** The size fitness: the share of the `tests` tests the suite selects. */
  function SizeFF(tests: nat): (f: FitnessFunction<Chromosome>)
    requires tests >= 1
    ensures f.minimizing
  {
    FitnessFunction((c: Chromosome) => CountTrue(c.genes) as real / tests as real, true)
  }

  /** Some selected test has an entry for line `l` and covers it. */
  predicate LineCovered(matrix: seq<seq<bool>>, genes: seq<bool>, l: nat)
  {
    exists t :: 0 <= t < |genes| && t < |matrix| && genes[t] && l < |matrix[t]| && matrix[t][l]
  }

  /** The `covered` array: line l is covered when some selected test covers it. */
  function CoveredLines(matrix: seq<seq<bool>>, lines: nat, genes: seq<bool>): (covered: seq<bool>)
    ensures |covered| == lines
    ensures forall l :: 0 <= l < lines ==> (covered[l] <==> LineCovered(matrix, genes, l))
  {
    seq(lines, l requires 0 <= l < lines => LineCovered(matrix, genes, l))
  }

  /**
   * The coverage fitness: the share of the `lines` lines some selected test
   * covers. With no lines at all the share is taken to be 0.
   */
  function CoverageFF(matrix: seq<seq<bool>>, lines: nat): (f: FitnessFunction<Chromosome>)
    ensures !f.minimizing
  {
    FitnessFunction((c: Chromosome) => if lines == 0 then 0.0 else CountTrue(CoveredLines(matrix, lines, c.genes)) as real / lines as real, false)
  }

  /** Dividing by a positive number keeps the order. */
  lemma DivMonotone(p: real, q: real, m: real)
    requires 0.0 < m && p <= q
    ensures p / m <= q / m
  {
    assert q / m - p / m == (q - p) / m;
  }

  /** A part of a positive whole is a share in [0, 1]. */
  lemma ShareBounds(n: real, m: real)
    requires 0.0 <= n <= m && 0.0 < m
    ensures 0.0 <= n / m <= 1.0
  {
    DivMonotone(n, m, m);
    DivMonotone(0.0, n, m);
  }

  /** A suite of `tests` genes selecting at least one test has a size in [1/tests, 1]. */
  lemma SizeBounds(tests: nat, c: Chromosome)
    requires tests >= 1 && |c.genes| == tests && true in c.genes
    ensures 1.0 / tests as real <= SizeFF(tests).apply(c) <= 1.0
  {
    CountTruePositive(c.genes);
    var n, t := CountTrue(c.genes) as real, tests as real;
    DivMonotone(1.0, n, t);
    DivMonotone(n, t, t);
  }

  /** The coverage of any suite lies in [0, 1]. */
  lemma CoverageBounds(matrix: seq<seq<bool>>, lines: nat, c: Chromosome)
    ensures 0.0 <= CoverageFF(matrix, lines).apply(c) <= 1.0
  {
    if lines > 0 {
      ShareBounds(CountTrue(CoveredLines(matrix, lines, c.genes)) as real, lines as real);
    }
  }

  /** Counting never decreases when entries only turn from false to true. */
  lemma {:induction false} CountTrueMonotone(x: seq<bool>, y: seq<bool>)
    requires |x| == |y| && forall i :: 0 <= i < |x| && x[i] ==> y[i]
    ensures CountTrue(x) <= CountTrue(y)
  {
    if x != [] {
      CountTrueMonotone(x[..|x| - 1], y[..|y| - 1]);
    }
  }

  /** Selecting a superset of tests never lowers the coverage. */
  lemma CoverageMonotone(matrix: seq<seq<bool>>, lines: nat, a: Chromosome, b: Chromosome)
    requires |a.genes| <= |b.genes| && forall i :: 0 <= i < |a.genes| && a.genes[i] ==> b.genes[i]
    ensures CoverageFF(matrix, lines).apply(a) <= CoverageFF(matrix, lines).apply(b)
  {
    if lines > 0 {
      var ca, cb := CoveredLines(matrix, lines, a.genes), CoveredLines(matrix, lines, b.genes);
      forall l | 0 <= l < lines && ca[l]
        ensures cb[l]
      {
        var t :| 0 <= t < |a.genes| && t < |matrix| && a.genes[t] && l < |matrix[t]| && matrix[t][l];
        assert b.genes[t];
      }
      CountTrueMonotone(ca, cb);
      DivMonotone(CountTrue(ca) as real, CountTrue(cb) as real, lines as real);
    }
  }

  /** Both objectives read the genes only, so equal suites get equal objectives. */
  lemma ObjectivesGeneDetermined(matrix: seq<seq<bool>>, tests: nat, lines: nat)
    requires tests >= 1
    ensures RS.GeneDetermined(RS.ObjectiveOf(SizeFF(tests), CoverageFF(matrix, lines)))
  {
  }

  /**
   * The last greedy prefix covers as much as the whole suite: the suite of
   * the greedy run has the coverage of the suite selecting every test.
   */
  lemma GreedyRunCoverage(matrix: seq<seq<bool>>, tests: nat, lines: nat, mutation: MutationOp, crossover: CrossoverOp)
    requires RS.Rectangular(matrix, tests, lines)
    ensures var run := RS.GreedyRun(matrix, RS.Nothing(tests), RS.Nothing(lines));
      CoverageFF(matrix, lines).apply(Chromosome(RS.SuiteOf(tests, run), mutation, crossover))
      == CoverageFF(matrix, lines).apply(Chromosome(RS.Everything(tests), mutation, crossover))
  {
    var run := RS.GreedyRun(matrix, RS.Nothing(tests), RS.Nothing(lines));
    var greedy, all := RS.SuiteOf(tests, run), RS.Everything(tests);
    RS.GreedyReachesFullCoverage(matrix, tests, lines);
    forall l | 0 <= l < lines
      ensures LineCovered(matrix, greedy, l) == LineCovered(matrix, all, l)
    {
      if LineCovered(matrix, all, l) {
        var t :| 0 <= t < |all| && t < |matrix| && all[t] && l < |matrix[t]| && matrix[t][l];
        assert 0 <= t < tests && matrix[t][l];
        assert RS.CoveredBy(matrix, lines, run)[l];
        var k :| 0 <= k < |run| && matrix[run[k]][l];
        assert greedy[run[k]];
      }
      if LineCovered(matrix, greedy, l) {
        var t :| 0 <= t < |greedy| && t < |matrix| && greedy[t] && l < |matrix[t]| && matrix[t][l];
        assert all[t];
      }
    }
    assert CoveredLines(matrix, lines, greedy) == CoveredLines(matrix, lines, all);
  }

  /** Some test of `chosen` has an entry for line `l` and covers it. */
  predicate CoveredByAny(matrix: seq<seq<bool>>, chosen: seq<nat>, l: nat)
  {
    exists j :: 0 <= j < |chosen| && chosen[j] < |matrix| && l < |matrix[chosen[j]]| && matrix[chosen[j]][l]
  }

  /** One more test covers the lines covered so far and its own. */
  lemma CoveredByAnyStep(matrix: seq<seq<bool>>, chosen: seq<nat>, t: nat, lines: nat)
    requires t < |matrix| && lines <= |matrix[t]|
    ensures forall l :: 0 <= l < lines ==>
      CoveredByAny(matrix, chosen + [t], l) == (CoveredByAny(matrix, chosen, l) || matrix[t][l])
  {
    var c := chosen + [t];
    forall l | 0 <= l < lines
      ensures CoveredByAny(matrix, c, l) == (CoveredByAny(matrix, chosen, l) || matrix[t][l])
    {
      if CoveredByAny(matrix, chosen, l) {
        var j :| 0 <= j < |chosen| && chosen[j] < |matrix| && l < |matrix[chosen[j]]| && matrix[chosen[j]][l];
        assert c[j] == chosen[j];
      }
      if matrix[t][l] {
        assert c[|chosen|] == t;
      }
      if CoveredByAny(matrix, c, l) {
        var j :| 0 <= j < |c| && c[j] < |matrix| && l < |matrix[c[j]]| && matrix[c[j]][l];
        if j < |chosen| {
          assert c[j] == chosen[j];
        }
      }
    }
  }

  /** The selected indices cover exactly the lines the selected genes cover. */
  lemma SelectedCoverLines(matrix: seq<seq<bool>>, genes: seq<bool>, lines: nat)
    ensures forall l :: 0 <= l < lines ==>
      CoveredByAny(matrix, SelectedIndices(genes), l) == LineCovered(matrix, genes, l)
  {
    var s := SelectedIndices(genes);
    forall l | 0 <= l < lines
      ensures CoveredByAny(matrix, s, l) == LineCovered(matrix, genes, l)
    {
      if LineCovered(matrix, genes, l) {
        var t :| 0 <= t < |genes| && t < |matrix| && genes[t] && l < |matrix[t]| && matrix[t][l];
        assert t in s;
      }
      if CoveredByAny(matrix, s, l) {
        var j :| 0 <= j < |s| && s[j] < |matrix| && l < |matrix[s[j]]| && matrix[s[j]][l];
        assert genes[s[j]];
      }
    }
  }

  /** `covered[line] |= row[line]` for every line of the array. */
  method OrInto(covered: array<bool>, row: seq<bool>)
    requires covered.Length <= |row|
    modifies covered
    ensures forall l :: 0 <= l < covered.Length ==> covered[l] == (old(covered[l]) || row[l])
  {
    for line := 0 to covered.Length
      invariant forall l :: 0 <= l < line ==> covered[l] == (old(covered[l]) || row[l])
      invariant forall l :: line <= l < covered.Length ==> covered[l] == old(covered[l])
    {
      covered[line] := covered[line] || row[line];
    }
  }

  // ---------------------------------------------------------------------
  // The builder
  // ---------------------------------------------------------------------

  /** `SearchAlgorithmType`: RANDOM_SEARCH or NSGA_II. */
  datatype SearchAlgorithmType = RandomSearchType | NsgaIIType

  /** The algorithm `buildAlgorithm` returns. */
  datatype Algorithm = RandomSearchAlgorithm(search: RS.RandomSearch) | Nsga2Algorithm(nsga: NS.Nsga2)

  /** The population size `buildNSGA2` passes. */
  const POPULATION_SIZE: int := 50

  /**
   * `AlgorithmBuilder`: the random source, the stopping condition, the matrix,
   * its number of tests (rows) and lines (length of row 0), and the two
   * fitness functions made from them.
   */
  class AlgorithmBuilder {
    const rng: Random
    const stop: MaxFitnessEvaluations
    const matrix: seq<seq<bool>>
    const numberTestCases: nat
    const numberLines: nat
    const sizeFF: FitnessFunction<Chromosome>
    const coverageFF: FitnessFunction<Chromosome>

    /** The constructor reads row 0, so the matrix must have a row. */
    constructor (rng: Random, stop: MaxFitnessEvaluations, matrix: seq<seq<bool>>)
      requires |matrix| >= 1
      ensures this.rng == rng && this.stop == stop && this.matrix == matrix
      ensures numberTestCases == |matrix| && numberLines == |matrix[0]|
      ensures sizeFF == SizeFF(|matrix|) && coverageFF == CoverageFF(matrix, |matrix[0]|)
    {
      this.rng := rng;
      this.stop := stop;
      this.matrix := matrix;
      numberLines := |matrix[0]|;
      numberTestCases := |matrix|;
      sizeFF := SizeFF(|matrix|);
      coverageFF := CoverageFF(matrix, |matrix[0]|);
    }

    /**
     * The first loop of the coverage fitness: the rows of the selected tests
     * are OR-ed into a fresh `covered` array. A selected test without a row,
     * or with a row shorter than row 0, would be read out of bounds.
     */
    method CoveredArray(c: Chromosome) returns (covered: array<bool>)
      requires forall i :: 0 <= i < |c.genes| && c.genes[i] ==> i < |matrix| && |matrix[i]| >= numberLines
      ensures fresh(covered) && covered[..] == CoveredLines(matrix, numberLines, c.genes)
    {
      covered := new bool[numberLines](_ => false);
      var selected := GetSelectedTestIndices(c);
      for k := 0 to |selected|
        invariant forall l :: 0 <= l < numberLines ==> covered[l] == CoveredByAny(matrix, selected[..k], l)
      {
        var t := selected[k];
        OrInto(covered, matrix[t]);
        assert selected[..k + 1] == selected[..k] + [t];
        CoveredByAnyStep(matrix, selected[..k], t, numberLines);
      }
      assert selected[..|selected|] == selected;
      SelectedCoverLines(matrix, c.genes, numberLines);
    }

    /**
     * The coverage fitness as its loops compute it: the covered lines are
     * counted and divided by the number of lines.
     */
    method Coverage(c: Chromosome) returns (v: real)
      requires coverageFF == CoverageFF(matrix, numberLines)
      requires forall i :: 0 <= i < |c.genes| && c.genes[i] ==> i < |matrix| && |matrix[i]| >= numberLines
      ensures v == coverageFF.apply(c)
      ensures 0.0 <= v <= 1.0
    {
      var covered := CoveredArray(c);
      var count := 0;
      for line := 0 to numberLines
        invariant count == CountTrue(covered[..line])
      {
        assert covered[..line + 1][..line] == covered[..line];
        if covered[line] {
          count := count + 1;
        }
      }
      assert covered[..numberLines] == covered[..];
      v := if numberLines == 0 then 0.0 else count as real / numberLines as real;
      CoverageBounds(matrix, numberLines, c);
    }

    /**
     * `buildAlgorithm`: Random Search or NSGA-II with a population of 50, both
     * with a generator of `numberTestCases` genes carrying bit-flip mutation
     * and single-point crossover, and with this builder's fitness functions,
     * stopping condition and random source.
     */
    method BuildAlgorithm(kind: SearchAlgorithmType) returns (a: Algorithm)
      ensures var gen := Generator(numberTestCases, BitFlip, SinglePoint);
        match kind
        case RandomSearchType =>
          a.RandomSearchAlgorithm? && fresh(a.search)
          && a.search.stop == stop && a.search.rng == rng && a.search.generator == gen
          && a.search.sizeFF == sizeFF && a.search.coverageFF == coverageFF
          && a.search.matrix == matrix && a.search.numberTestCases == numberTestCases
          && a.search.numberLines == numberLines
        case NsgaIIType =>
          a.Nsga2Algorithm? && fresh(a.nsga)
          && a.nsga.stop == stop && a.nsga.rng == rng && a.nsga.generator == gen
          && a.nsga.populationSize == POPULATION_SIZE
          && a.nsga.sizeFF == sizeFF && a.nsga.coverageFF == coverageFF
    {
      var gen := Generator(numberTestCases, BitFlip, SinglePoint);
      match kind
      case RandomSearchType =>
        var search := new RS.RandomSearch(stop, rng, gen, sizeFF, coverageFF, matrix, numberTestCases, numberLines);
        a := RandomSearchAlgorithm(search);
      case NsgaIIType =>
        var nsga := new NS.Nsga2(stop, rng, POPULATION_SIZE, gen, sizeFF, coverageFF);
        a := Nsga2Algorithm(nsga);
    }
  }

  /** The builder's constructor, whose `coverageMatrix[0]` throws on a matrix without rows. */
  method Create(rng: Random, stop: MaxFitnessEvaluations, matrix: seq<seq<bool>>) returns (r: Result<AlgorithmBuilder>)
    ensures |matrix| == 0 ==> r == Err(IndexOutOfBounds)
    ensures |matrix| >= 1 ==>
      r.Ok? && fresh(r.value) && r.value.matrix == matrix && r.value.rng == rng && r.value.stop == stop
      && r.value.numberTestCases == |matrix| && r.value.numberLines == |matrix[0]|
      && r.value.sizeFF == SizeFF(|matrix|) && r.value.coverageFF == CoverageFF(matrix, |matrix[0]|)
  {
    if |matrix| == 0 {
      return Err(IndexOutOfBounds);
    }
    var b := new AlgorithmBuilder(rng, stop, matrix);
    r := Ok(b);
  }
}
