/**
 * The random-search baseline: an archive of mutually non-dominated suites fed
 * by four phases (the full suite, the greedy coverage prefixes, the singleton
 * suites of the best tests, then random suites of biased size until the
 * budget is spent). Every candidate costs one fitness evaluation and is
 * offered to the archive, which keeps exactly the non-dominated candidates.
 */
module RandomSearch {
  import opened Wrappers
  import opened Randomness
  import opened Collections
  import opened Sorting
  import opened Chromosomes
  import opened ChromosomeGenerator
  import opened FitnessFunctions
  import opened StoppingConditions
  import opened Pareto

  // ---------------------------------------------------------------------
  // The archive
  // ---------------------------------------------------------------------

  /** Both objectives of a suite, as `dominates(a, b)` reads them. */
  function ObjectiveOf(sizeFF: FitnessFunction<Chromosome>, coverageFF: FitnessFunction<Chromosome>): (f: Chromosome -> Obj)
    ensures forall c :: f(c) == Obj(sizeFF.apply(c), coverageFF.apply(c))
  {
    c => Obj(sizeFF.apply(c), coverageFF.apply(c))
  }

  /** The objectives depend on the genes only, as `equals` does. */
  ghost predicate GeneDetermined(f: Chromosome -> Obj)
  {
    forall x: Chromosome, y: Chromosome :: x.genes == y.genes ==> f(x) == f(y)
  }

  /** Some member of `s` dominates `c`. */
  predicate DominatedIn(f: Chromosome -> Obj, s: seq<Chromosome>, c: Chromosome)
  {
    exists p :: p in s && Dominates(f(p), f(c))
  }

  /** `toRemove`: the members of the archive that `c` dominates, in archive order. */
  function DominatedBy(f: Chromosome -> Obj, c: Chromosome, s: seq<Chromosome>): (r: seq<Chromosome>)
    ensures forall x :: x in r <==> x in s && Dominates(f(c), f(x))
  {
    if s == [] then []
    else
      var init, last := s[..|s| - 1], s[|s| - 1];
      assert s == init + [last];
      DominatedBy(f, c, init) + (if Dominates(f(c), f(last)) then [last] else [])
  }

  /** `toRemove.contains(x)`: some member of `s` equals `x`, that is, has its genes. */
  predicate HasEqual(s: seq<Chromosome>, x: Chromosome)
  {
    exists i :: 0 <= i < |s| && Equals(s[i], x)
  }

  /** `removeAll(toRemove)`: the members of `s` equal to no member of `toRemove`, in order. */
  function RemoveAll(s: seq<Chromosome>, toRemove: seq<Chromosome>): (r: seq<Chromosome>)
    ensures |r| <= |s|
    ensures forall x :: x in r <==> x in s && !HasEqual(toRemove, x)
  {
    if s == [] then []
    else
      var init, last := s[..|s| - 1], s[|s| - 1];
      assert s == init + [last];
      RemoveAll(init, toRemove) + (if HasEqual(toRemove, last) then [] else [last])
  }

  /**
   * `removeAll` filters each part of a list on its own, so the members it
   * keeps stay in their order, and a member it keeps is kept where it was.
   */
  lemma {:induction false} RemoveAllConcat(a: seq<Chromosome>, b: seq<Chromosome>, toRemove: seq<Chromosome>)
    ensures RemoveAll(a + b, toRemove) == RemoveAll(a, toRemove) + RemoveAll(b, toRemove)
    decreases |b|
  {
    if b != [] {
      var init, last := b[..|b| - 1], b[|b| - 1];
      RemoveAllConcat(a, init, toRemove);
      assert (a + b)[..|a + b| - 1] == a + init;
      assert (a + b)[|a + b| - 1] == last;
    } else {
      assert a + b == a;
    }
  }

  /** A one-member list keeps its member exactly when nothing to remove equals it. */
  lemma RemoveAllSingle(x: Chromosome, toRemove: seq<Chromosome>)
    ensures RemoveAll([x], toRemove) == if HasEqual(toRemove, x) then [] else [x]
  {
    assert [x][..0] == [];
  }

  /**
   * The archive after `evaluateAndInsert(c)`: unchanged when a member
   * dominates `c`; otherwise every member equal to one that `c` dominates is
   * removed and `c` is appended.
   */
  function Inserted(f: Chromosome -> Obj, archive: seq<Chromosome>, c: Chromosome): (r: seq<Chromosome>)
    ensures |r| >= 1
    ensures DominatedIn(f, archive, c) ==> r == archive
    ensures !DominatedIn(f, archive, c) ==> r[|r| - 1] == c && r[..|r| - 1] == RemoveAll(archive, DominatedBy(f, c, archive))
    ensures forall x :: x in r <==>
      if DominatedIn(f, archive, c) then x in archive
      else x == c || (x in archive && !HasEqual(DominatedBy(f, c, archive), x))
  {
    if DominatedIn(f, archive, c) then archive
    else RemoveAll(archive, DominatedBy(f, c, archive)) + [c]
  }

  /** Every member of the archive was evaluated. */
  predicate FromEvaluated(archive: seq<Chromosome>, evaluated: seq<Chromosome>)
  {
    forall x :: x in archive ==> x in evaluated
  }

  /** No member of the archive dominates another. */
  predicate NonDominated(f: Chromosome -> Obj, archive: seq<Chromosome>)
  {
    forall x, y :: x in archive && y in archive ==> !Dominates(f(x), f(y))
  }

  /** Every evaluated suite is in the archive or dominated by a member of it. */
  predicate Represented(f: Chromosome -> Obj, archive: seq<Chromosome>, evaluated: seq<Chromosome>)
  {
    forall e :: e in evaluated ==> e in archive || DominatedIn(f, archive, e)
  }

  /**
   * What the archive keeps throughout the search. The third part needs the
   * objectives to depend on the genes only, because `removeAll` removes by
   * `equals`.
   */
  ghost predicate ArchiveOf(f: Chromosome -> Obj, archive: seq<Chromosome>, evaluated: seq<Chromosome>)
  {
    FromEvaluated(archive, evaluated) && NonDominated(f, archive)
    && (GeneDetermined(f) ==> Represented(f, archive, evaluated))
  }

  /** A member of `toRemove` has an equal member in it. */
  lemma HasItself(s: seq<Chromosome>, x: Chromosome)
    requires x in s
    ensures HasEqual(s, x)
  {
    var i :| 0 <= i < |s| && s[i] == x;
    assert Equals(s[i], x);
  }

  /** Offering one more evaluated suite keeps the archive what it should be. */
  lemma InsertPreserves(f: Chromosome -> Obj, archive: seq<Chromosome>, evaluated: seq<Chromosome>, c: Chromosome)
    requires ArchiveOf(f, archive, evaluated)
    ensures ArchiveOf(f, Inserted(f, archive, c), evaluated + [c])
  {
    var r := Inserted(f, archive, c);
    var ev := evaluated + [c];
    if !DominatedIn(f, archive, c) {
      var toRemove := DominatedBy(f, c, archive);
      forall x, y | x in r && y in r
        ensures !Dominates(f(x), f(y))
      {
        if x == c && y != c {
          if Dominates(f(c), f(y)) {
            HasItself(toRemove, y);
          }
        }
      }
      if GeneDetermined(f) {
        forall e | e in ev
          ensures e in r || DominatedIn(f, r, e)
        {
          if e != c {
            // An archive member that was removed has the genes, hence the
            // objectives, of a member that c dominates.
            var a :| a in archive && (a == e || Dominates(f(a), f(e)));
            if a !in r {
              var i :| 0 <= i < |toRemove| && Equals(toRemove[i], a);
              assert f(toRemove[i]) == f(a);
              assert Dominates(f(c), f(a));
              assert c in r;
            }
          }
        }
      }
    }
  }

  /**
   * The archive is the Pareto front of everything evaluated: an evaluated
   * suite is in the archive exactly when no evaluated suite dominates it.
   */
  lemma ArchiveIsParetoFront(f: Chromosome -> Obj, archive: seq<Chromosome>, evaluated: seq<Chromosome>)
    requires ArchiveOf(f, archive, evaluated) && GeneDetermined(f)
    ensures forall e :: e in evaluated ==> (e in archive <==> !DominatedIn(f, evaluated, e))
  {
    forall e | e in evaluated
      ensures e in archive <==> !DominatedIn(f, evaluated, e)
    {
      if e in archive {
        if DominatedIn(f, evaluated, e) {
          var d :| d in evaluated && Dominates(f(d), f(e));
          if d !in archive {
            var a :| a in archive && Dominates(f(a), f(d));
            DominatesIsStrictOrder(f(a), f(d), f(e));
          }
        }
      } else {
        var a :| a in archive && Dominates(f(a), f(e));
      }
    }
  }

  // ---------------------------------------------------------------------
  // The greedy prefixes
  // ---------------------------------------------------------------------

  /** The coverage matrix has a row of `lines` entries for each of `tests` tests. */
  predicate Rectangular(matrix: seq<seq<bool>>, tests: nat, lines: nat)
  {
    |matrix| == tests && forall t :: 0 <= t < tests ==> |matrix[t]| == lines
  }

  /** `new boolean[n]`: n false entries. */
  function Nothing(n: nat): (r: seq<bool>)
    ensures |r| == n && true !in r
  {
    seq(n, _ => false)
  }

  /** The gene vector that selects exactly the tests in `chosen`. */
  function SuiteOf(tests: nat, chosen: seq<nat>): (g: seq<bool>)
    ensures |g| == tests && forall t :: 0 <= t < tests ==> (g[t] <==> t in chosen)
  {
    seq(tests, t requires 0 <= t < tests => t in chosen)
  }

  /** A suite built from distinct tests selects exactly as many tests as were chosen. */
  lemma SuiteOfSelects(tests: nat, chosen: seq<nat>)
    requires Distinct(chosen) && forall k :: 0 <= k < |chosen| ==> chosen[k] < tests
    ensures CountTrue(SuiteOf(tests, chosen)) == |chosen|
  {
    var g := SuiteOf(tests, chosen);
    CountTrueIsCard(g);
    forall x: nat
      ensures x in TrueSet(g) <==> x in Elements(chosen)
    {
      if x in Elements(chosen) {
        var k :| 0 <= k < |chosen| && chosen[k] == x;
      }
    }
    assert TrueSet(g) == Elements(chosen);
    DistinctCard(chosen);
  }

  /** The number of lines a test covers that are not covered yet, counted from the left. */
  function Gain(row: seq<bool>, covered: seq<bool>): (g: nat)
    requires |row| == |covered|
    ensures g <= |row|
  {
    if row == [] then 0
    else
      var n := |row| - 1;
      Gain(row[..n], covered[..n]) + (if !covered[n] && row[n] then 1 else 0)
  }

  /** A test gains nothing exactly when every line it covers is covered already. */
  lemma {:induction false} GainZero(row: seq<bool>, covered: seq<bool>)
    requires |row| == |covered|
    ensures Gain(row, covered) == 0 <==> forall l :: 0 <= l < |row| && row[l] ==> covered[l]
  {
    if row != [] {
      var n := |row| - 1;
      GainZero(row[..n], covered[..n]);
      assert forall l :: 0 <= l < n ==> row[..n][l] == row[l] && covered[..n][l] == covered[l];
    }
  }

  /** `covered[line] |= row[line]` for every line. */
  function Union(covered: seq<bool>, row: seq<bool>): (r: seq<bool>)
    requires |row| == |covered|
    ensures |r| == |covered| && forall l :: 0 <= l < |r| ==> (r[l] <==> covered[l] || row[l])
  {
    seq(|covered|, l requires 0 <= l < |covered| => covered[l] || row[l])
  }

  /** The lines covered by some test of `chosen`. */
  function CoveredBy(matrix: seq<seq<bool>>, lines: nat, chosen: seq<nat>): (r: seq<bool>)
    requires forall k :: 0 <= k < |chosen| ==> chosen[k] < |matrix| && |matrix[chosen[k]]| == lines
    ensures |r| == lines
    ensures forall l :: 0 <= l < lines ==> (r[l] <==> exists k :: 0 <= k < |chosen| && matrix[chosen[k]][l])
  {
    seq(lines, l requires 0 <= l < lines => exists k :: 0 <= k < |chosen| && matrix[chosen[k]][l])
  }

  /** The best test of one greedy step: `bestTest` (or -1) and `bestGain`. */
  datatype Choice = Choice(test: int, gain: nat)

  /**
   * The scan over tests 0 .. n-1: the first unselected test of the largest
   * positive gain, or -1 with gain 0 when no unselected test gains anything.
   */
  function BestUpTo(matrix: seq<seq<bool>>, genes: seq<bool>, covered: seq<bool>, n: nat): (r: Choice)
    requires Rectangular(matrix, |genes|, |covered|) && n <= |genes|
    ensures r.test == -1 <==> r.gain == 0
    ensures -1 <= r.test < n
    ensures r.test >= 0 ==> !genes[r.test] && Gain(matrix[r.test], covered) == r.gain
    ensures forall u :: 0 <= u < n && !genes[u] ==> Gain(matrix[u], covered) <= r.gain
    ensures forall u :: 0 <= u < r.test && !genes[u] ==> Gain(matrix[u], covered) < r.gain
  {
    if n == 0 then Choice(-1, 0)
    else
      var r := BestUpTo(matrix, genes, covered, n - 1);
      var g := Gain(matrix[n - 1], covered);
      if !genes[n - 1] && g > r.gain then Choice(n - 1, g) else r
  }

  /** Selecting one more test raises the count of selected tests by one. */
  lemma {:induction false} CountTrueSelect(g: seq<bool>, i: nat)
    requires i < |g| && !g[i]
    ensures CountTrue(g[i := true]) == CountTrue(g) + 1
  {
    var n := |g| - 1;
    var h := g[i := true];
    if i == n {
      assert h[..n] == g[..n];
    } else {
      CountTrueSelect(g[..n], i);
      assert h[..n] == g[..n][i := true];
    }
  }

  /**
   * The tests the greedy loop of `addGreedyPrefixes` selects, in order, from
   * the given selection and coverage when the budget never runs out: it stops
   * when no test gains a line, or right after a test completes the coverage.
   */
  function GreedyRun(matrix: seq<seq<bool>>, genes: seq<bool>, covered: seq<bool>): (run: seq<nat>)
    requires Rectangular(matrix, |genes|, |covered|)
    ensures Distinct(run)
    ensures forall k :: 0 <= k < |run| ==> run[k] < |genes| && !genes[run[k]]
    decreases |genes| - CountTrue(genes)
  {
    var best := BestUpTo(matrix, genes, covered, |genes|);
    if best.test == -1 then []
    else
      var t := best.test;
      var covered' := Union(covered, matrix[t]);
      CountTrueSelect(genes, t);
      var rest := if false !in covered' then [] else GreedyRun(matrix, genes[t := true], covered');
      assert forall k :: 0 <= k < |rest| ==> rest[k] != t;
      [t] + rest
  }

  /** Line l is covered already or by some test of `run`. */
  predicate ReachedBy(matrix: seq<seq<bool>>, covered: seq<bool>, run: seq<nat>, l: nat)
    requires l < |covered| && forall k :: 0 <= k < |run| ==> run[k] < |matrix| && |matrix[run[k]]| == |covered|
  {
    covered[l] || exists k :: 0 <= k < |run| && matrix[run[k]][l]
  }

  /** Covering a line by the first test of a run, or by the rest after it, covers it by the run. */
  lemma ReachedByStep(matrix: seq<seq<bool>>, covered: seq<bool>, t: nat, rest: seq<nat>, l: nat)
    requires t < |matrix| && |matrix[t]| == |covered| && l < |covered|
    requires forall k :: 0 <= k < |rest| ==> rest[k] < |matrix| && |matrix[rest[k]]| == |covered|
    requires ReachedBy(matrix, Union(covered, matrix[t]), rest, l)
    ensures ReachedBy(matrix, covered, [t] + rest, l)
  {
    var run := [t] + rest;
    if matrix[t][l] {
      assert matrix[run[0]][l];
    } else if !covered[l] {
      var k :| 0 <= k < |rest| && matrix[rest[k]][l];
      assert run[k + 1] == rest[k];
    }
  }

  /**
   * When the run ends, every line some test covers is covered, provided the
   * tests selected so far have their lines covered.
   */
  lemma {:induction false} GreedyRunCompletes(matrix: seq<seq<bool>>, genes: seq<bool>, covered: seq<bool>)
    requires Rectangular(matrix, |genes|, |covered|)
    requires forall t, l :: 0 <= t < |genes| && genes[t] && 0 <= l < |covered| && matrix[t][l] ==> covered[l]
    ensures forall t, l :: 0 <= t < |genes| && 0 <= l < |covered| && matrix[t][l] ==>
      ReachedBy(matrix, covered, GreedyRun(matrix, genes, covered), l)
    decreases |genes| - CountTrue(genes)
  {
    var run := GreedyRun(matrix, genes, covered);
    var best := BestUpTo(matrix, genes, covered, |genes|);
    if best.test == -1 {
      assert run == [];
      forall t, l | 0 <= t < |genes| && 0 <= l < |covered| && matrix[t][l]
        ensures covered[l]
      {
        if !genes[t] {
          GainZero(matrix[t], covered);
        }
      }
    } else {
      var t := best.test;
      var covered' := Union(covered, matrix[t]);
      var rest := if false !in covered' then [] else GreedyRun(matrix, genes[t := true], covered');
      assert run == [t] + rest;
      if false in covered' {
        CountTrueSelect(genes, t);
        GreedyRunCompletes(matrix, genes[t := true], covered');
      }
      forall u, l | 0 <= u < |genes| && 0 <= l < |covered| && matrix[u][l]
        ensures ReachedBy(matrix, covered, run, l)
      {
        assert ReachedBy(matrix, covered', rest, l);
        ReachedByStep(matrix, covered, t, rest, l);
      }
    }
  }

  /** Covering a test's lines adds exactly its gain to the number of covered lines. */
  lemma {:induction false} UnionCount(covered: seq<bool>, row: seq<bool>)
    requires |row| == |covered|
    ensures CountTrue(Union(covered, row)) == CountTrue(covered) + Gain(row, covered)
  {
    if row != [] {
      var n := |row| - 1;
      UnionCount(covered[..n], row[..n]);
      assert Union(covered, row)[..n] == Union(covered[..n], row[..n]);
    }
  }

  /**
   * Each greedy step selects a test not selected before and covers at least
   * one more line, so the run is no longer than the number of unselected
   * tests and no longer than the number of uncovered lines.
   */
  lemma {:induction false} GreedyRunLength(matrix: seq<seq<bool>>, genes: seq<bool>, covered: seq<bool>)
    requires Rectangular(matrix, |genes|, |covered|)
    ensures |GreedyRun(matrix, genes, covered)| <= |genes| - CountTrue(genes)
    ensures |GreedyRun(matrix, genes, covered)| <= |covered| - CountTrue(covered)
    decreases |genes| - CountTrue(genes)
  {
    var best := BestUpTo(matrix, genes, covered, |genes|);
    if best.test != -1 {
      var t := best.test;
      var covered' := Union(covered, matrix[t]);
      CountTrueSelect(genes, t);
      UnionCount(covered, matrix[t]);
      if false in covered' {
        GreedyRunLength(matrix, genes[t := true], covered');
      }
    }
  }

  /** From nothing selected, `addGreedyPrefixes` evaluates at most min(T, L) prefixes. */
  lemma GreedyRunAtMostMin(matrix: seq<seq<bool>>, tests: nat, lines: nat)
    requires Rectangular(matrix, tests, lines)
    ensures |GreedyRun(matrix, Nothing(tests), Nothing(lines))| <= tests
    ensures |GreedyRun(matrix, Nothing(tests), Nothing(lines))| <= lines
  {
    GreedyRunLength(matrix, Nothing(tests), Nothing(lines));
    CountTruePositive(Nothing(tests));
    CountTruePositive(Nothing(lines));
  }

  /**
   * From nothing selected, the complete greedy run covers exactly the lines
   * that the whole test suite covers: its last prefix has full coverage.
   */
  lemma GreedyReachesFullCoverage(matrix: seq<seq<bool>>, tests: nat, lines: nat)
    requires Rectangular(matrix, tests, lines)
    ensures forall l :: 0 <= l < lines ==>
      (CoveredBy(matrix, lines, GreedyRun(matrix, Nothing(tests), Nothing(lines)))[l]
       <==> exists t :: 0 <= t < tests && matrix[t][l])
  {
    var run := GreedyRun(matrix, Nothing(tests), Nothing(lines));
    GreedyRunCompletes(matrix, Nothing(tests), Nothing(lines));
    forall l | 0 <= l < lines
      ensures CoveredBy(matrix, lines, run)[l] <==> exists t :: 0 <= t < tests && matrix[t][l]
    {
      if CoveredBy(matrix, lines, run)[l] {
        var k :| 0 <= k < |run| && matrix[run[k]][l];
        assert run[k] < tests;
      }
      if exists t :: 0 <= t < tests && matrix[t][l] {
        var t :| 0 <= t < tests && matrix[t][l];
        assert ReachedBy(matrix, Nothing(lines), run, l);
      }
    }
  }

  // ---------------------------------------------------------------------
  // The best singletons
  // ---------------------------------------------------------------------

  /** The number of lines each test covers. */
  function Counts(matrix: seq<seq<bool>>): (counts: seq<nat>)
    ensures |counts| == |matrix| && forall t :: 0 <= t < |matrix| ==> counts[t] == CountTrue(matrix[t])
  {
    seq(|matrix|, t requires 0 <= t < |matrix| => CountTrue(matrix[t]))
  }

  /** `r` holds K distinct tests, by descending coverage, none covering less than a test left out. */
  predicate IsTopK(counts: seq<nat>, r: seq<nat>, k: nat)
  {
    |r| == k && Distinct(r) && (forall i :: 0 <= i < k ==> r[i] < |counts|)
    && (forall i, j :: 0 <= i < j < k ==> counts[r[i]] >= counts[r[j]])
    && forall i, t :: 0 <= i < k && 0 <= t < |counts| && t !in r ==> counts[r[i]] >= counts[t]
  }

  /** The sort key that puts tests of higher coverage first. */
  function DescendingCoverage(counts: seq<nat>): (key: nat -> Ext)
    ensures forall t: nat :: t < |counts| ==> key(t) == Fin(-(counts[t] as real))
  {
    (t: nat) => if t < |counts| then Fin(-(counts[t] as real)) else NegInf
  }

  /** The intended top K: the tests stably sorted by descending coverage, then cut to K. */
  function TopKByCoverage(counts: seq<nat>, k: nat): (r: seq<nat>)
    requires k <= |counts|
    ensures |r| == k
  {
    SortBy<nat>(Positions(|counts|), DescendingCoverage(counts))[..k]
  }

  /** The tests sorted by descending coverage: each test once, higher coverage first. */
  lemma ByDescendingCoverage(counts: seq<nat>)
    ensures var s := SortBy<nat>(Positions(|counts|), DescendingCoverage(counts));
      Distinct(s) && (forall i :: 0 <= i < |s| ==> s[i] < |counts|)
      && (forall t :: 0 <= t < |counts| ==> t in s)
      && forall i, j :: 0 <= i < j < |s| ==> counts[s[i]] >= counts[s[j]]
  {
    var n := |counts|;
    var key := DescendingCoverage(counts);
    var s := SortBy<nat>(Positions(n), key);
    SortByIsSorted<nat>(Positions(n), key);
    DistinctPermutation<nat>(Positions(n), s);
    PermutationElements<nat>(Positions(n), s);
    forall i | 0 <= i < n
      ensures s[i] < n
    {
      assert s[i] in Positions(n);
    }
    forall t | 0 <= t < n
      ensures t in s
    {
      assert Positions(n)[t] == t;
    }
    forall i, j | 0 <= i < j < n
      ensures counts[s[i]] >= counts[s[j]]
    {
      assert !Less(key(s[j]), key(s[i]));
    }
  }

  lemma TopKByCoverageIsTopK(counts: seq<nat>, k: nat)
    requires k <= |counts|
    ensures IsTopK(counts, TopKByCoverage(counts, k), k)
  {
    var n := |counts|;
    var s := SortBy<nat>(Positions(n), DescendingCoverage(counts));
    var r := s[..k];
    ByDescendingCoverage(counts);
    assert Distinct(r);
    forall i, t | 0 <= i < k && 0 <= t < n && t !in r
      ensures counts[r[i]] >= counts[t]
    {
      assert t in s;
      var j :| 0 <= j < n && s[j] == t;
      assert k <= j;
    }
  }

  /** The sort key of `Arrays.sort` on an `int[]`: the value itself. */
  function Ascending(): (key: nat -> Ext)
    ensures forall t: nat :: key(t) == Fin(t as real)
  {
    (t: nat) => Fin(t as real)
  }

  /** Sorting the identity array in ascending order gives it back. */
  lemma SortPositions(n: nat)
    ensures SortBy<nat>(Positions(n), Ascending()) == Positions(n)
  {
    SortByOfSorted<nat>(Positions(n), Ascending());
  }

  /** 21 tests and one line that only the last test covers. */
  function OnlyLastCovers(): (matrix: seq<seq<bool>>)
    ensures Rectangular(matrix, 21, 1)
  {
    seq(21, t requires 0 <= t < 21 => [t == 20])
  }

  /**
   * With 21 tests of which only the last covers a line, the first 20 tests in
   * index order are not the 20 tests of highest coverage, while the stable
   * descending sort gives such a top 20.
   */
  lemma TopKAsWrittenMissesBest()
    ensures !IsTopK(Counts(OnlyLastCovers()), Positions(20), 20)
    ensures IsTopK(Counts(OnlyLastCovers()), TopKByCoverage(Counts(OnlyLastCovers()), 20), 20)
  {
    var counts := Counts(OnlyLastCovers());
    assert counts[20] == CountTrue([true]) == 1;
    assert counts[0] == CountTrue([false]) == 0;
    assert 20 !in Positions(20) && Positions(20)[0] == 0;
    TopKByCoverageIsTopK(counts, 20);
  }

  /** `Arrays.fill(all, true)`: n true entries. */
  function Everything(n: nat): (r: seq<bool>)
    ensures |r| == n && false !in r
  {
    seq(n, _ => true)
  }

  /** Selecting one more test extends the chosen tests by it. */
  lemma SuiteOfStep(tests: nat, chosen: seq<nat>, t: nat)
    requires t < tests
    ensures SuiteOf(tests, chosen + [t]) == SuiteOf(tests, chosen)[t := true]
  {
  }

  /** Covering the lines of one more test extends the chosen tests by it. */
  lemma CoveredByStep(matrix: seq<seq<bool>>, lines: nat, chosen: seq<nat>, t: nat)
    requires forall k :: 0 <= k < |chosen| ==> chosen[k] < |matrix| && |matrix[chosen[k]]| == lines
    requires t < |matrix| && |matrix[t]| == lines
    ensures CoveredBy(matrix, lines, chosen + [t]) == Union(CoveredBy(matrix, lines, chosen), matrix[t])
  {
    var c := chosen + [t];
    forall l | 0 <= l < lines
      ensures CoveredBy(matrix, lines, c)[l] == Union(CoveredBy(matrix, lines, chosen), matrix[t])[l]
    {
      if exists k :: 0 <= k < |chosen| && matrix[chosen[k]][l] {
        var k :| 0 <= k < |chosen| && matrix[chosen[k]][l];
        assert c[k] == chosen[k];
      }
      if matrix[t][l] {
        assert c[|chosen|] == t;
      }
      if CoveredBy(matrix, lines, c)[l] {
        var k :| 0 <= k < |c| && matrix[c[k]][l];
        if k < |chosen| {
          assert c[k] == chosen[k];
        }
      }
    }
  }

  /** The suites `added` select the first 1, 2, ... tests of `run`. */
  predicate PrefixesOf(tests: nat, added: seq<Chromosome>, run: seq<nat>)
  {
    |added| <= |run|
    && (added != [] ==>
          PrefixesOf(tests, added[..|added| - 1], run)
          && added[|added| - 1].genes == SuiteOf(tests, run[..|added|]))
  }

  /** Suite k of the prefixes selects the first k + 1 tests of the run. */
  lemma {:induction false} PrefixesAt(tests: nat, added: seq<Chromosome>, run: seq<nat>)
    requires PrefixesOf(tests, added, run)
    ensures forall k :: 0 <= k < |added| ==> added[k].genes == SuiteOf(tests, run[..k + 1])
  {
    if added != [] {
      var init := added[..|added| - 1];
      PrefixesAt(tests, init, run);
      assert forall k :: 0 <= k < |init| ==> added[k] == init[k];
    }
  }

  /** One more suite selecting the next test of the run extends the prefixes. */
  lemma PrefixesStep(tests: nat, added: seq<Chromosome>, run: seq<nat>, c: Chromosome)
    requires PrefixesOf(tests, added, run) && |added| < |run|
    requires c.genes == SuiteOf(tests, run[..|added| + 1])
    ensures PrefixesOf(tests, added + [c], run)
  {
    assert (added + [c])[..|added|] == added;
  }

  /**
   * The greedy loop after i steps of `run`: the first i tests of the run are
   * selected and their lines covered, and the run goes on from there.
   */
  predicate GreedyState(matrix: seq<seq<bool>>, tests: nat, lines: nat,
                        genes: seq<bool>, covered: seq<bool>, run: seq<nat>, i: nat)
    requires Rectangular(matrix, tests, lines) && forall k :: 0 <= k < |run| ==> run[k] < tests
  {
    i <= |run| && genes == SuiteOf(tests, run[..i]) && covered == CoveredBy(matrix, lines, run[..i])
    && GreedyRun(matrix, genes, covered) == run[i..]
  }

  /**
   * One step of the greedy loop: the scan finds no test exactly when the run
   * is over; otherwise it finds the run's next test, and selecting it and
   * covering its lines is the state after one more step, the last one when
   * every line is then covered.
   */
  lemma GreedyAdvance(matrix: seq<seq<bool>>, tests: nat, lines: nat,
                      genes: seq<bool>, covered: seq<bool>, run: seq<nat>, i: nat)
    requires Rectangular(matrix, tests, lines) && forall k :: 0 <= k < |run| ==> run[k] < tests
    requires GreedyState(matrix, tests, lines, genes, covered, run, i)
    ensures var best := BestUpTo(matrix, genes, covered, tests);
      (best.test == -1 <==> i == |run|)
      && (best.test != -1 ==>
            var t, covered' := best.test, Union(covered, matrix[best.test]);
            run[i] == t
            && GreedyState(matrix, tests, lines, genes[t := true], covered', run, i + 1)
            && (false !in covered' ==> i + 1 == |run|))
  {
    var best := BestUpTo(matrix, genes, covered, tests);
    if best.test != -1 {
      var t := best.test;
      var covered' := Union(covered, matrix[t]);
      assert run[..i + 1] == run[..i] + [t];
      SuiteOfStep(tests, run[..i], t);
      CoveredByStep(matrix, lines, run[..i], t);
      if false !in covered' {
        assert run[i..] == [t];
        forall u | 0 <= u < tests
          ensures Gain(matrix[u], covered') == 0
        {
          GainZero(matrix[u], covered');
        }
        assert BestUpTo(matrix, genes[t := true], covered', tests).test == -1;
      } else {
        assert run[i + 1..] == run[i..][1..];
      }
    }
  }

  /** The gene vector of a single selected test. */
  lemma SingletonSuite(tests: nat, t: nat)
    requires t < tests
    ensures Nothing(tests)[t := true] == SuiteOf(tests, [t]) && true in SuiteOf(tests, [t])
  {
    assert SuiteOf(tests, [t])[t];
  }

  /** The suites `added` select one test each: the first, second, ... of `best`. */
  predicate SingletonsOf(tests: nat, added: seq<Chromosome>, best: seq<nat>)
  {
    |added| <= |best|
    && (added != [] ==>
          SingletonsOf(tests, added[..|added| - 1], best)
          && added[|added| - 1].genes == SuiteOf(tests, [best[|added| - 1]]))
  }

  /** Suite j of the singletons selects test `best[j]` and nothing else. */
  lemma {:induction false} SingletonsAt(tests: nat, added: seq<Chromosome>, best: seq<nat>)
    requires SingletonsOf(tests, added, best)
    ensures forall j :: 0 <= j < |added| ==> added[j].genes == SuiteOf(tests, [best[j]])
  {
    if added != [] {
      var init := added[..|added| - 1];
      SingletonsAt(tests, init, best);
      assert forall j :: 0 <= j < |init| ==> added[j] == init[j];
    }
  }

  /** One more suite selecting the next test of `best` extends the singletons. */
  lemma SingletonsStep(tests: nat, added: seq<Chromosome>, best: seq<nat>, c: Chromosome)
    requires SingletonsOf(tests, added, best) && |added| < |best|
    requires c.genes == SuiteOf(tests, [best[|added|]])
    ensures SingletonsOf(tests, added + [c], best)
  {
    assert (added + [c])[..|added|] == added;
  }

  /** `Math.min(20, numberTestCases)`: how many single tests phase (C) evaluates. */
  function SingletonCount(tests: nat): (k: nat)
    ensures k <= tests && k <= 20 && (k == 20 || k == tests)
  {
    if 20 < tests then 20 else tests
  }

  /**
   * The order of the evaluations of `findSolution`: first the suite of all
   * tests, then the prefixes of the greedy run, then the single tests of
   * `best`; each phase is complete unless the budget ran out in it.
   */
  predicate Phases(tests: nat, evaluated: seq<Chromosome>, run: seq<nat>, best: seq<nat>)
  {
    |evaluated| >= 1 && evaluated[0].genes == Everything(tests)
    && PrefixPhase(tests, evaluated, run) && SingletonPhase(tests, evaluated, run, best)
  }

  /** Evaluation k, for k = 1 .. |run|, selects the first k tests of the greedy run. */
  predicate PrefixPhase(tests: nat, evaluated: seq<Chromosome>, run: seq<nat>)
  {
    forall k :: 1 <= k <= |run| && k < |evaluated| ==> evaluated[k].genes == SuiteOf(tests, run[..k])
  }

  /** The evaluations after those select one test each: the first, second, ... of `best`. */
  predicate SingletonPhase(tests: nat, evaluated: seq<Chromosome>, run: seq<nat>, best: seq<nat>)
  {
    forall j :: 1 + |run| <= j < |evaluated| && j - 1 - |run| < |best| ==>
      evaluated[j].genes == SuiteOf(tests, [best[j - 1 - |run|]])
  }

  /** The opening evaluations, the greedy prefixes, the singletons and the rest, in this order, keep to the phases. */
  lemma PhasesInOrder(tests: nat, first: Chromosome, prefixes: seq<Chromosome>, singles: seq<Chromosome>,
                      rest: seq<Chromosome>, run: seq<nat>, best: seq<nat>)
    requires first.genes == Everything(tests)
    requires PrefixesOf(tests, prefixes, run) && SingletonsOf(tests, singles, best)
    requires |prefixes| < |run| ==> singles == [] && rest == []
    requires |singles| < |best| ==> rest == []
    ensures Phases(tests, [first] + prefixes + singles + rest, run, best)
  {
    var evaluated := [first] + prefixes + singles + rest;
    assert |evaluated| >= 1 && evaluated[0] == first;
    PrefixPhaseOfParts(tests, first, prefixes, singles, rest, run);
    assert |prefixes| <= |run|;
    SingletonPhaseOfParts(tests, first, prefixes, singles, rest, run, best);
  }

  lemma PrefixPhaseOfParts(tests: nat, first: Chromosome, prefixes: seq<Chromosome>, singles: seq<Chromosome>,
                           rest: seq<Chromosome>, run: seq<nat>)
    requires PrefixesOf(tests, prefixes, run)
    requires |prefixes| < |run| ==> singles == [] && rest == []
    ensures PrefixPhase(tests, [first] + prefixes + singles + rest, run)
  {
    PrefixesAt(tests, prefixes, run);
    ConcatIndices(first, prefixes, singles, rest);
    var evaluated := [first] + prefixes + singles + rest;
    forall k | 1 <= k <= |run| && k < |evaluated|
      ensures evaluated[k].genes == SuiteOf(tests, run[..k])
    {
      assert k - 1 < |prefixes|;
      assert evaluated[1 + (k - 1)] == prefixes[k - 1];
    }
  }

  lemma SingletonPhaseOfParts(tests: nat, first: Chromosome, prefixes: seq<Chromosome>, singles: seq<Chromosome>,
                              rest: seq<Chromosome>, run: seq<nat>, best: seq<nat>)
    requires |prefixes| <= |run| && SingletonsOf(tests, singles, best)
    requires |prefixes| < |run| ==> singles == [] && rest == []
    requires |singles| < |best| ==> rest == []
    ensures SingletonPhase(tests, [first] + prefixes + singles + rest, run, best)
  {
    SingletonsAt(tests, singles, best);
    ConcatIndices(first, prefixes, singles, rest);
    var evaluated := [first] + prefixes + singles + rest;
    var p := |prefixes|;
    forall j | 1 + |run| <= j < |evaluated| && j - 1 - |run| < |best|
      ensures evaluated[j].genes == SuiteOf(tests, [best[j - 1 - |run|]])
    {
      var i := j - 1 - p;
      assert p == |run| && i < |singles| && j == 1 + p + i;
      assert evaluated[j] == singles[i];
      assert singles[i].genes == SuiteOf(tests, [best[i]]);
    }
  }

  /** Where the parts of `[a] + p + q + r` sit in it. */
  lemma ConcatIndices<T>(a: T, p: seq<T>, q: seq<T>, r: seq<T>)
    ensures |[a] + p + q + r| == 1 + |p| + |q| + |r| && ([a] + p + q + r)[0] == a
    ensures forall i :: 0 <= i < |p| ==> ([a] + p + q + r)[1 + i] == p[i]
    ensures forall i :: 0 <= i < |q| ==> ([a] + p + q + r)[1 + |p| + i] == q[i]
  {
  }



  // ---------------------------------------------------------------------
  // The search
  // ---------------------------------------------------------------------

  /**
   * `RandomSearch`: the budget, the shared random source, the generator whose
   * operators every candidate receives, both fitness functions and the
   * coverage matrix with its dimensions.
   */
  class RandomSearch {
    const stop: MaxFitnessEvaluations
    const rng: Random
    const generator: Generator
    /** Minimizing. */
    const sizeFF: FitnessFunction<Chromosome>
    /** Maximizing. */
    const coverageFF: FitnessFunction<Chromosome>
    const matrix: seq<seq<bool>>
    const numberTestCases: nat
    const numberLines: nat

    constructor (stop: MaxFitnessEvaluations, rng: Random, generator: Generator,
                 sizeFF: FitnessFunction<Chromosome>, coverageFF: FitnessFunction<Chromosome>,
                 matrix: seq<seq<bool>>, numberTestCases: nat, numberLines: nat)
      ensures this.stop == stop && this.rng == rng && this.generator == generator
      ensures this.sizeFF == sizeFF && this.coverageFF == coverageFF
      ensures this.matrix == matrix && this.numberTestCases == numberTestCases && this.numberLines == numberLines
    {
      this.stop := stop;
      this.rng := rng;
      this.generator := generator;
      this.sizeFF := sizeFF;
      this.coverageFF := coverageFF;
      this.matrix := matrix;
      this.numberTestCases := numberTestCases;
      this.numberLines := numberLines;
    }

    /** The objectives `dominates(a, b)` compares. */
    function Objective(): Chromosome -> Obj
    {
      ObjectiveOf(sizeFF, coverageFF)
    }

    /** A candidate of this search: one gene per test, at least one selected, the generator's operators. */
    predicate Suite(c: Chromosome)
    {
      |c.genes| == numberTestCases && true in c.genes
      && c.mutation == generator.mutation && c.crossover == generator.crossover
    }

    /**
     * The state between evaluations: one evaluation per candidate so far,
     * within the budget, and the archive kept over the candidates.
     */
    ghost predicate Searching(archive: seq<Chromosome>, evaluated: seq<Chromosome>)
      reads stop
    {
      stop.Valid() && stop.counter == |evaluated| <= stop.budget
      && ArchiveOf(Objective(), archive, evaluated)
      && (|evaluated| > 0 ==> |archive| > 0)
      && forall e :: e in evaluated ==> Suite(e)
    }

    /**
     * The loop of `evaluateAndInsert(c)`: the archive is scanned up to the
     * first member dominating `c`, collecting the members `c` dominates.
     */
    method Scan(c: Chromosome, archive: seq<Chromosome>) returns (dominated: bool, toRemove: seq<Chromosome>)
      ensures dominated <==> DominatedIn(Objective(), archive, c)
      ensures !dominated ==> toRemove == DominatedBy(Objective(), c, archive)
    {
      var f := Objective();
      dominated := false;
      toRemove := [];
      var i := 0;
      while i < |archive|
        invariant 0 <= i <= |archive| && !dominated
        invariant toRemove == DominatedBy(f, c, archive[..i])
        invariant forall j :: 0 <= j < i ==> !Dominates(f(archive[j]), f(c))
      {
        if Dominates(f(archive[i]), f(c)) {
          dominated := true;
          assert archive[i] in archive;
          return;
        }
        if Dominates(f(c), f(archive[i])) {
          toRemove := toRemove + [archive[i]];
        }
        assert archive[..i + 1][..i] == archive[..i];
        i := i + 1;
      }
      assert archive[..i] == archive;
    }

    /**
     * `evaluateAndInsert(c)`: one evaluation is counted; unless a member
     * dominates `c`, the members equal to those it dominates are removed and
     * `c` is appended.
     */
    method EvaluateAndInsert(c: Chromosome, archive: seq<Chromosome>, ghost evaluated: seq<Chromosome>)
      returns (result: seq<Chromosome>)
      requires Searching(archive, evaluated) && !stop.SearchMustStop() && Suite(c)
      modifies stop
      ensures Searching(result, evaluated + [c])
      ensures result == Inserted(Objective(), archive, c)
    {
      stop.NotifyFitnessEvaluation();
      var dominated, toRemove := Scan(c, archive);
      InsertPreserves(Objective(), archive, evaluated, c);
      if !dominated {
        result := RemoveAll(archive, toRemove) + [c];
        assert result[..|result| - 1] == RemoveAll(archive, toRemove);
      } else {
        result := archive;
      }
    }
  
    /**
     * `evaluateAndInsert(new TestSuiteChromosome(genes, template's operators))`
     * for genes that select a test, so that the constructor repairs nothing.
     */
    method Offer(genes: seq<bool>, template: Chromosome, archive: seq<Chromosome>, ghost evaluated: seq<Chromosome>)
      returns (result: seq<Chromosome>, ghost c: Chromosome)
      requires Searching(archive, evaluated) && !stop.SearchMustStop()
      requires |genes| == numberTestCases && true in genes
      requires template.mutation == generator.mutation && template.crossover == generator.crossover
      modifies stop, rng
      ensures Searching(result, evaluated + [c]) && c.genes == genes
      ensures result == Inserted(Objective(), archive, c)
    {
      var candidate := Construct(genes, template.mutation, template.crossover, rng);
      result := EvaluateAndInsert(candidate, archive, evaluated);
      c := candidate;
    }

    /** The inner loop of a greedy step: how many uncovered lines test `t` covers. */
    method GainOf(t: nat, covered: array<bool>) returns (gain: nat)
      requires Rectangular(matrix, numberTestCases, numberLines)
      requires t < numberTestCases && covered.Length == numberLines
      ensures gain == Gain(matrix[t], covered[..])
    {
      var row := matrix[t];
      gain := 0;
      for line := 0 to numberLines
        invariant gain == Gain(row[..line], covered[..line])
      {
        assert row[..line + 1][..line] == row[..line];
        assert covered[..line + 1][..line] == covered[..line];
        if !covered[line] && row[line] {
          gain := gain + 1;
        }
      }
      assert row[..numberLines] == row && covered[..numberLines] == covered[..];
    }

    /** The scan for `bestTest` and `bestGain`; selected tests are skipped. */
    method ChooseBest(genes: array<bool>, covered: array<bool>) returns (best: Choice)
      requires Rectangular(matrix, numberTestCases, numberLines)
      requires genes.Length == numberTestCases && covered.Length == numberLines
      ensures best == BestUpTo(matrix, genes[..], covered[..], numberTestCases)
    {
      var bestTest := -1;
      var bestGain: nat := 0;
      for t := 0 to numberTestCases
        invariant Choice(bestTest, bestGain) == BestUpTo(matrix, genes[..], covered[..], t)
      {
        if genes[t] {
          continue;
        }
        var gain := GainOf(t, covered);
        if gain > bestGain {
          bestGain := gain;
          bestTest := t;
        }
      }
      best := Choice(bestTest, bestGain);
    }

    /** `covered[line] |= coverageMatrix[t][line]` for every line. */
    method CoverWith(covered: array<bool>, t: nat)
      requires Rectangular(matrix, numberTestCases, numberLines)
      requires t < numberTestCases && covered.Length == numberLines
      modifies covered
      ensures covered[..] == Union(old(covered[..]), matrix[t])
    {
      for line := 0 to numberLines
        invariant forall l :: 0 <= l < line ==> covered[l] == (old(covered[l]) || matrix[t][l])
        invariant forall l :: line <= l < numberLines ==> covered[l] == old(covered[l])
      {
        covered[line] := covered[line] || matrix[t][line];
      }
    }

    /** The `done` loop: every line is covered. */
    method AllCovered(covered: array<bool>) returns (done: bool)
      ensures done <==> false !in covered[..]
    {
      done := true;
      for line := 0 to covered.Length
        invariant false !in covered[..line]
      {
        if !covered[line] {
          assert covered[..][line] == false;
          return false;
        }
        assert covered[..line + 1] == covered[..line] + [covered[line]];
      }
      assert covered[..covered.Length] == covered[..];
    }

    /**
     * One round of the loop of `addGreedyPrefixes`: the scan for the best
     * test; unless it finds none, the test is selected, its lines are covered
     * and the suite selected so far is evaluated, and `done` tells whether
     * every line is covered now.
     */
    method GreedyStep(genes: array<bool>, covered: array<bool>, template: Chromosome,
                      archive: seq<Chromosome>, ghost evaluated: seq<Chromosome>, ghost run: seq<nat>, ghost i: nat)
      returns (result: seq<Chromosome>, ghost c: Chromosome, stepped: bool, done: bool)
      requires Rectangular(matrix, numberTestCases, numberLines) && forall k :: 0 <= k < |run| ==> run[k] < numberTestCases
      requires genes.Length == numberTestCases && covered.Length == numberLines && genes != covered
      requires GreedyState(matrix, numberTestCases, numberLines, genes[..], covered[..], run, i)
      requires Searching(archive, evaluated) && !stop.SearchMustStop()
      requires template.mutation == generator.mutation && template.crossover == generator.crossover
      modifies genes, covered, stop, rng
      ensures !stepped ==> i == |run| && result == archive && Searching(result, evaluated)
      ensures stepped ==>
        && Searching(result, evaluated + [c])
        && GreedyState(matrix, numberTestCases, numberLines, genes[..], covered[..], run, i + 1)
        && c.genes == SuiteOf(numberTestCases, run[..i + 1])
        && (done ==> i + 1 == |run|)
    {
      ghost var g0, c0 := genes[..], covered[..];
      GreedyAdvance(matrix, numberTestCases, numberLines, g0, c0, run, i);
      var best := ChooseBest(genes, covered);
      if best.test == -1 || best.gain == 0 {
        return archive, template, false, false;
      }
      var t := best.test;
      genes[t] := true;
      assert genes[..] == g0[t := true];
      CoverWith(covered, t);
      assert covered[..] == Union(c0, matrix[t]);
      result, c := Offer(genes[..], template, archive, evaluated);
      stepped := true;
      done := AllCovered(covered);
    }

    /**
     * `addGreedyPrefixes`: while the budget lasts, the unselected test of the
     * largest gain is added and the suite selected so far is evaluated. The
     * suites evaluated are the prefixes of the greedy run, all of them unless
     * the budget ran out first.
     */
    method GreedyPrefixes(template: Chromosome, archive: seq<Chromosome>, ghost evaluated: seq<Chromosome>)
      returns (result: seq<Chromosome>, ghost added: seq<Chromosome>)
      requires Rectangular(matrix, numberTestCases, numberLines) && Searching(archive, evaluated)
      requires template.mutation == generator.mutation && template.crossover == generator.crossover
      modifies stop, rng
      ensures Searching(result, evaluated + added)
      ensures var run := GreedyRun(matrix, Nothing(numberTestCases), Nothing(numberLines));
        PrefixesOf(numberTestCases, added, run) && (|added| == |run| || stop.SearchMustStop())
    {
      var genes := new bool[numberTestCases](_ => false);
      var covered := new bool[numberLines](_ => false);
      assert genes[..] == Nothing(numberTestCases) == SuiteOf(numberTestCases, []);
      assert covered[..] == Nothing(numberLines) == CoveredBy(matrix, numberLines, []);
      ghost var run := GreedyRun(matrix, Nothing(numberTestCases), Nothing(numberLines));
      assert run[0..] == run;
      assert evaluated + [] == evaluated;
      result, added := GreedyLoop(genes, covered, template, archive, evaluated, run);
    }

    /** The loop of `addGreedyPrefixes` over its gene and coverage arrays. */
    method GreedyLoop(genes: array<bool>, covered: array<bool>, template: Chromosome,
                      archive: seq<Chromosome>, ghost evaluated: seq<Chromosome>, ghost run: seq<nat>)
      returns (result: seq<Chromosome>, ghost added: seq<Chromosome>)
      requires Rectangular(matrix, numberTestCases, numberLines) && forall k :: 0 <= k < |run| ==> run[k] < numberTestCases
      requires genes.Length == numberTestCases && covered.Length == numberLines && genes != covered
      requires GreedyState(matrix, numberTestCases, numberLines, genes[..], covered[..], run, 0)
      requires Searching(archive, evaluated)
      requires template.mutation == generator.mutation && template.crossover == generator.crossover
      modifies genes, covered, stop, rng
      ensures Searching(result, evaluated + added)
      ensures PrefixesOf(numberTestCases, added, run) && (|added| == |run| || stop.SearchMustStop())
    {
      result, added := archive, [];
      while !stop.SearchMustStop()
        invariant Searching(result, evaluated + added)
        invariant GreedyState(matrix, numberTestCases, numberLines, genes[..], covered[..], run, |added|)
        invariant PrefixesOf(numberTestCases, added, run)
        decreases stop.budget - stop.counter
      {
        var next, stepped, done;
        ghost var c;
        next, c, stepped, done := GreedyStep(genes, covered, template, result, evaluated + added, run, |added|);
        if !stepped {
          break;
        }
        PrefixesStep(numberTestCases, added, run, c);
        result, added := next, added + [c];
        if done {
          break;
        }
      }
    }

    /** The number of lines test `t` covers. */
    method LinesCovered(t: nat) returns (count: nat)
      requires Rectangular(matrix, numberTestCases, numberLines) && t < numberTestCases
      ensures count == CountTrue(matrix[t])
    {
      var row := matrix[t];
      count := 0;
      for line := 0 to numberLines
        invariant count == CountTrue(row[..line])
      {
        assert row[..line + 1][..line] == row[..line];
        if row[line] {
          count := count + 1;
        }
      }
      assert row[..numberLines] == row;
    }

    /** The `cov` array of `topKSingleTestsByCoverage`: the lines each test covers. */
    method CoverageCounts() returns (cov: seq<nat>)
      requires Rectangular(matrix, numberTestCases, numberLines)
      ensures cov == Counts(matrix)
    {
      cov := [];
      for t := 0 to numberTestCases
        invariant cov == Counts(matrix[..t])
      {
        var c := LinesCovered(t);
        assert Counts(matrix[..t + 1]) == Counts(matrix[..t]) + [c];
        cov := cov + [c];
      }
      assert matrix[..numberTestCases] == matrix;
    }

    /**
     * `topKSingleTestsByCoverage(K)` as written: the coverage counts are
     * computed but not used, and `Arrays.sort` sorts the identity array by
     * index, so the first K tests are returned whatever they cover.
     */
    method TopKAsWritten(k: nat) returns (r: seq<nat>)
      requires Rectangular(matrix, numberTestCases, numberLines) && k <= numberTestCases
      ensures r == Positions(k)
    {
      var cov := CoverageCounts();
      var idx := SortBy<nat>(Positions(numberTestCases), Ascending());
      SortPositions(numberTestCases);
      r := idx[..k];
    }

    /**
     * `topKSingleTestsByCoverage(K)` as intended: the identity array sorted by
     * descending coverage, cut to K. The result is a top K of the tests by
     * the number of lines they cover.
     */
    method TopKSingleTestsByCoverage(k: nat) returns (r: seq<nat>)
      requires Rectangular(matrix, numberTestCases, numberLines) && k <= numberTestCases
      ensures r == TopKByCoverage(Counts(matrix), k)
      ensures IsTopK(Counts(matrix), r, k)
    {
      var cov := CoverageCounts();
      var idx := SortBy<nat>(Positions(numberTestCases), DescendingCoverage(cov));
      r := idx[..k];
      TopKByCoverageIsTopK(cov, k);
    }

    /**
     * Phase (C) of `findSolution`: while the budget lasts, the suite of each
     * single test of `best` is evaluated, in order.
     */
    method BestSingletons(best: seq<nat>, template: Chromosome, archive: seq<Chromosome>, ghost evaluated: seq<Chromosome>)
      returns (result: seq<Chromosome>, ghost added: seq<Chromosome>)
      requires forall j :: 0 <= j < |best| ==> best[j] < numberTestCases
      requires Searching(archive, evaluated)
      requires template.mutation == generator.mutation && template.crossover == generator.crossover
      modifies stop, rng
      ensures Searching(result, evaluated + added)
      ensures SingletonsOf(numberTestCases, added, best) && (|added| == |best| || stop.SearchMustStop())
    {
      result, added := archive, [];
      assert evaluated + [] == evaluated;
      for j := 0 to |best|
        invariant |added| == j
        invariant Searching(result, evaluated + added)
        invariant SingletonsOf(numberTestCases, added, best)
      {
        if stop.SearchMustStop() {
          break;
        }
        var single := Nothing(numberTestCases)[best[j] := true];
        SingletonSuite(numberTestCases, best[j]);
        ghost var c;
        result, c := Offer(single, template, result, evaluated + added);
        SingletonsStep(numberTestCases, added, best, c);
        assert evaluated + added + [c] == evaluated + (added + [c]);
        added := added + [c];
      }
    }

    /**
     * `sampleByTargetSize()`: a target size biased towards small suites, then
     * that many distinct tests by a partial Fisher-Yates shuffle.
     */
    method SampleByTargetSize() returns (genes: seq<bool>)
      requires numberTestCases >= 1
      modifies rng
      ensures |genes| == numberTestCases && true in genes
      ensures CountTrue(genes) == TargetSize(numberTestCases, rng.stream(old(rng.cursor)))
    {
      var r := rng.NextDouble();
      var k := TargetSize(numberTestCases, r);
      var offsets := DrawOffsets(rng, numberTestCases, k);
      var chosen;
      genes, chosen := PartialShuffleSelect(numberTestCases, k, offsets);
      CountTruePositive(genes);
    }

    /** Phase (D) of `findSolution`: sampled suites are evaluated until the budget is spent. */
    method Sampling(template: Chromosome, archive: seq<Chromosome>, ghost evaluated: seq<Chromosome>)
      returns (result: seq<Chromosome>, ghost all: seq<Chromosome>)
      requires numberTestCases >= 1 && Searching(archive, evaluated)
      requires template.mutation == generator.mutation && template.crossover == generator.crossover
      modifies stop, rng
      ensures Searching(result, all) && |all| == stop.budget
      ensures |evaluated| <= |all| && all[..|evaluated|] == evaluated
    {
      result, all := archive, evaluated;
      while !stop.SearchMustStop()
        invariant Searching(result, all)
        invariant |evaluated| <= |all| && all[..|evaluated|] == evaluated
        decreases stop.budget - stop.counter
      {
        var genes := SampleByTargetSize();
        ghost var c;
        result, c := Offer(genes, template, result, all);
        assert (all + [c])[..|evaluated|] == all[..|evaluated|];
        all := all + [c];
      }
    }

    /**
     * Phases (A) to (C) of `findSolution` on a fresh search: the suite of all
     * tests, then the greedy prefixes and then the single tests that
     * `topKSingleTestsByCoverage` returns, which as written are the first K
     * tests by index; the last two phases run only while the budget lasts. A
     * phase that ends early leaves the budget spent.
     */
    method Opening(template: Chromosome)
      returns (archive: seq<Chromosome>, ghost first: Chromosome, ghost prefixes: seq<Chromosome>, ghost singles: seq<Chromosome>)
      requires stop.Valid() && stop.counter == 0 && Rectangular(matrix, numberTestCases, numberLines)
      requires numberTestCases >= 1
      requires template.mutation == generator.mutation && template.crossover == generator.crossover
      modifies stop, rng
      ensures Searching(archive, [first] + prefixes + singles)
      ensures first.genes == Everything(numberTestCases)
      ensures var run := GreedyRun(matrix, Nothing(numberTestCases), Nothing(numberLines));
        PrefixesOf(numberTestCases, prefixes, run) && (|prefixes| < |run| ==> singles == [] && stop.SearchMustStop())
      ensures var best := Positions(SingletonCount(numberTestCases));
        SingletonsOf(numberTestCases, singles, best) && (|singles| < |best| ==> stop.SearchMustStop())
    {
      assert Searching([], []);
      // (A)
      assert Everything(numberTestCases)[0];
      archive, first := Offer(Everything(numberTestCases), template, [], []);
      // (B)
      prefixes, singles := [], [];
      if !stop.SearchMustStop() {
        archive, prefixes := GreedyPrefixes(template, archive, [first]);
      }
      // (C)
      if !stop.SearchMustStop() {
        var tests := TopKAsWritten(SingletonCount(numberTestCases));
        archive, singles := BestSingletons(tests, template, archive, [first] + prefixes);
      }
    }

    /**
     * `findSolution()`: after the search is started and a template is drawn
     * for the operators, (A) the suite of all tests, (B) the greedy prefixes,
     * (C) the single tests 0 .. K-1 and (D) sampled suites are
     * evaluated, each phase only while the budget lasts. The budget is spent
     * exactly, the archive is non-empty and non-dominated and stands for every
     * suite evaluated, and with gene-determined objectives it holds exactly
     * the evaluated suites no evaluated suite dominates.
     */
    method FindSolution() returns (archive: seq<Chromosome>, ghost evaluated: seq<Chromosome>)
      requires stop.Valid() && Rectangular(matrix, numberTestCases, numberLines)
      requires numberTestCases >= 1 && generator.numberOfTests >= 1
      modifies stop, rng
      ensures stop.counter == stop.budget == |evaluated| && |archive| >= 1
      ensures ArchiveOf(Objective(), archive, evaluated)
      ensures forall e :: e in evaluated ==> Suite(e)
      ensures Phases(numberTestCases, evaluated, GreedyRun(matrix, Nothing(numberTestCases), Nothing(numberLines)),
                     Positions(SingletonCount(numberTestCases)))
      ensures GeneDetermined(Objective()) ==>
        forall e :: e in evaluated ==> (e in archive <==> !DominatedIn(Objective(), evaluated, e))
    {
      stop.NotifySearchStarted();
      var drawn := GetFrom(generator, rng);
      var template := drawn.value;
      ghost var first, prefixes, singles;
      archive, first, prefixes, singles := Opening(template);
      // (D)
      ghost var seeded := [first] + prefixes + singles;
      archive, evaluated := Sampling(template, archive, seeded);
      assert evaluated == seeded + evaluated[|seeded|..];
      PhasesInOrder(numberTestCases, first, prefixes, singles, evaluated[|seeded|..],
                    GreedyRun(matrix, Nothing(numberTestCases), Nothing(numberLines)),
                    Positions(SingletonCount(numberTestCases)));
      if GeneDetermined(Objective()) {
        ArchiveIsParetoFront(Objective(), archive, evaluated);
      }
    }
  }
}
