/**
 * NSGA-II for test-suite minimisation: a population evolved by tournament
 * selection, crossover and mutation, where survival goes by non-domination
 * rank and crowding distance. The rank and crowding tables are fields the
 * search rewrites every generation, keyed by positions in the population
 * they were computed for.
 */
module Nsga2 {
  import opened Wrappers
  import opened Randomness
  import opened Collections
  import opened Sorting
  import opened Chromosomes
  import opened ChromosomeGenerator
  import opened FitnessFunctions
  import opened StoppingConditions
  import opened Pareto
  import opened NondominatedSort
  import opened Crowding
  import opened Survival
  import Selection
  import Variation

  /** m has the keys of base and agrees with it outside `order`. */
  predicate SameOutside(m: map<nat, Distance>, base: map<nat, Distance>, order: seq<nat>)
  {
    m.Keys == base.Keys && forall q :: q in m && q !in order ==> m[q] == base[q]
  }

  /** Both ends and the interior positions before i have received their contribution. */
  predicate PassedUpTo(m: map<nat, Distance>, base: map<nat, Distance>, order: seq<nat>, vals: seq<real>, i: nat)
    requires |vals| == |order|
  {
    forall j :: 0 <= j < |order| ==>
      order[j] in m && order[j] in base &&
      m[order[j]] == if j == 0 || j == |order| - 1 || j < i
                     then Plus(base[order[j]], Contribution(vals, j))
                     else base[order[j]]
  }

  lemma PassStart(base: map<nat, Distance>, order: seq<nat>, vals: seq<real>)
    requires Distinct(order) && |order| >= 3 && |vals| == |order|
    requires forall j :: 0 <= j < |order| ==> order[j] in base
    ensures SameOutside(base[order[0] := Infinite][order[|order| - 1] := Infinite], base, order)
    ensures PassedUpTo(base[order[0] := Infinite][order[|order| - 1] := Infinite], base, order, vals, 1)
  {
  }

  lemma PassStep(m: map<nat, Distance>, base: map<nat, Distance>, order: seq<nat>, vals: seq<real>, i: nat)
    requires Distinct(order) && |vals| == |order| && 0 < i < |order| - 1
    requires SameOutside(m, base, order) && PassedUpTo(m, base, order, vals, i)
    ensures SameOutside(m[order[i] := Plus(m[order[i]], Contribution(vals, i))], base, order)
    ensures PassedUpTo(m[order[i] := Plus(m[order[i]], Contribution(vals, i))], base, order, vals, i + 1)
  {
  }

  /** The table after the two ends and the interior positions 1 .. i-1 of one pass. */
  function PassTable(base: map<nat, Distance>, order: seq<nat>, vals: seq<real>, i: nat): (m: map<nat, Distance>)
    requires |vals| == |order| >= 3 && 1 <= i <= |order| - 1
    requires forall j :: 0 <= j < |order| ==> order[j] in base
    ensures m.Keys == base.Keys
    decreases i
  {
    if i == 1 then base[order[0] := Infinite][order[|order| - 1] := Infinite]
    else
      var m := PassTable(base, order, vals, i - 1);
      m[order[i - 1] := Plus(m[order[i - 1]], Contribution(vals, i - 1))]
  }

  /** The pass table keeps the table outside the order and has passed positions 1 .. i-1. */
  lemma {:induction false} PassTablePassed(base: map<nat, Distance>, order: seq<nat>, vals: seq<real>, i: nat)
    requires Distinct(order) && |vals| == |order| >= 3 && 1 <= i <= |order| - 1
    requires forall j :: 0 <= j < |order| ==> order[j] in base
    ensures SameOutside(PassTable(base, order, vals, i), base, order)
    ensures PassedUpTo(PassTable(base, order, vals, i), base, order, vals, i)
  {
    if i == 1 {
      PassStart(base, order, vals);
    } else {
      PassTablePassed(base, order, vals, i - 1);
      PassStep(PassTable(base, order, vals, i - 1), base, order, vals, i - 1);
    }
  }

  /** With a zero range the interior contributions are zero, so the pass ends after the two ends. */
  lemma {:induction false} FlatPassTable(base: map<nat, Distance>, order: seq<nat>, vals: seq<real>, i: nat)
    requires |vals| == |order| >= 3 && 1 <= i <= |order| - 1 && !(vals[|vals| - 1] - vals[0] > 0.0)
    requires forall j :: 0 <= j < |order| ==> order[j] in base
    ensures PassTable(base, order, vals, i) == PassTable(base, order, vals, 1)
    decreases i
  {
    if i > 1 {
      FlatPassTable(base, order, vals, i - 1);
      var m := PassTable(base, order, vals, i - 1);
      PlusFacts(m[order[i - 1]], Finite(0.0));
      assert m[order[i - 1] := m[order[i - 1]]] == m;
    }
  }

  /** A rearrangement of the front has its members among the keys of any map holding the front. */
  lemma PermutationKeys(front: seq<nat>, order: seq<nat>, m: map<nat, Distance>)
    requires multiset(order) == multiset(front) && Elements(front) <= m.Keys
    ensures forall j :: 0 <= j < |order| ==> order[j] in m
    ensures Elements(order) == Elements(front)
  {
    PermutationElements(front, order);
  }

  /** Overriding the same keys twice keeps only the second override. */
  lemma OverrideTwice(base: map<nat, Distance>, front: seq<nat>, d: Distance, e: Distance)
    ensures base + Constant(front, d) + Constant(front, e) == base + Constant(front, e)
  {
  }

  /** A table of the front's members that is infinite everywhere is the constant table. */
  lemma AllInfinite(c: map<nat, Distance>, front: seq<nat>)
    requires c.Keys == Elements(front) && forall q :: q in c ==> c[q] == Infinite
    ensures c == Constant(front, Infinite)
  {
  }

  lemma SmallFrontResult(base: map<nat, Distance>, final: map<nat, Distance>,
                         sizes: seq<real>, covs: seq<real>, front: seq<nat>)
    requires InRange(front, |sizes|) && InRange(front, |covs|) && |front| <= 2
    requires final == base + Constant(front, Finite(0.0)) + Constant(front, Infinite)
    ensures final == base + CrowdingOf(sizes, covs, front)
  {
    var c := CrowdingOf(sizes, covs, front);
    forall q | q in c
      ensures c[q] == Infinite
    {
      SmallFrontInfinite(sizes, covs, front, q);
    }
    OverrideTwice(base, front, Finite(0.0), Infinite);
    AllInfinite(c, front);
  }

  /** A table that agrees with c on c's keys and with base elsewhere is base overridden by c. */
  lemma OverrideByPoints(base: map<nat, Distance>, c: map<nat, Distance>, final: map<nat, Distance>)
    requires final.Keys == base.Keys + c.Keys
    requires forall q :: q in final && q in c ==> final[q] == c[q]
    requires forall q :: q in final && q !in c ==> final[q] == base[q]
    ensures final == base + c
  {
  }

  /** After a whole pass, the member at position j has received its contribution. */
  lemma PassedAt(m: map<nat, Distance>, base: map<nat, Distance>, order: seq<nat>, vals: seq<real>, j: nat)
    requires |vals| == |order| && j < |order| && PassedUpTo(m, base, order, vals, |order| - 1)
    ensures order[j] in m && order[j] in base && m[order[j]] == Plus(base[order[j]], Contribution(vals, j))
  {
  }

  /** After both passes, a member of the front holds its crowding distance. */
  lemma MemberAfterPasses(zeroed: map<nat, Distance>, mid: map<nat, Distance>, final: map<nat, Distance>,
                          sizes: seq<real>, covs: seq<real>, front: seq<nat>, q: nat)
    requires InRange(front, |sizes|) && InRange(front, |covs|) && |front| >= 3 && q in front
    requires q in zeroed && zeroed[q] == Finite(0.0)
    requires var bySize := BySize(sizes, front);
      PassedUpTo(mid, zeroed, bySize, Along(sizes, bySize), |front| - 1)
    requires var byCov := ByCoverage(sizes, covs, front);
      PassedUpTo(final, mid, byCov, Along(covs, byCov), |front| - 1)
    ensures q in final && final[q] == DistanceOf(sizes, covs, front, q)
  {
    var bySize, byCov := BySize(sizes, front), ByCoverage(sizes, covs, front);
    assert q in multiset(bySize) && q in multiset(byCov);
    var i, j := IndexOf(bySize, q), IndexOf(byCov, q);
    var c1 := Contribution(Along(sizes, bySize), i);
    var c2 := Contribution(Along(covs, byCov), j);
    PassedAt(mid, zeroed, bySize, Along(sizes, bySize), i);
    PassedAt(final, mid, byCov, Along(covs, byCov), j);
    PlusFacts(c1, Finite(0.0));
    assert mid[q] == c1;
    assert final[q] == Plus(c1, c2);
  }

  /** The two passes, applied to the zeroed table, give the front's crowding distances. */
  lemma TwoPasses(base: map<nat, Distance>, zeroed: map<nat, Distance>, mid: map<nat, Distance>,
                  final: map<nat, Distance>, sizes: seq<real>, covs: seq<real>, front: seq<nat>)
    requires InRange(front, |sizes|) && InRange(front, |covs|) && |front| >= 3
    requires zeroed == base + Constant(front, Finite(0.0))
    requires var bySize := BySize(sizes, front);
      SameOutside(mid, zeroed, bySize) && PassedUpTo(mid, zeroed, bySize, Along(sizes, bySize), |front| - 1)
    requires var byCov := ByCoverage(sizes, covs, front);
      SameOutside(final, mid, byCov) && PassedUpTo(final, mid, byCov, Along(covs, byCov), |front| - 1)
    ensures final == base + CrowdingOf(sizes, covs, front)
  {
    var bySize, byCov := BySize(sizes, front), ByCoverage(sizes, covs, front);
    var c := CrowdingOf(sizes, covs, front);
    PermutationElements(front, bySize);
    PermutationElements(front, byCov);
    forall q | q in final && q in c
      ensures final[q] == c[q]
    {
      MemberAfterPasses(zeroed, mid, final, sizes, covs, front, q);
    }
    forall q | q in final && q !in c
      ensures final[q] == base[q]
    {
      assert q !in bySize && q !in byCov;
    }
    OverrideByPoints(base, c, final);
  }

  /** The order a front is left in by `computeCrowdingDistance`: unsorted up to two members. */
  function CrowdingOrder(sizes: seq<real>, covs: seq<real>, front: seq<nat>): (order: seq<nat>)
    requires InRange(front, |sizes|) && InRange(front, |covs|)
    ensures multiset(order) == multiset(front) && InRange(order, |sizes|) && InRange(order, |covs|)
  {
    if |front| <= 2 then front
    else
      var order := ByCoverage(sizes, covs, front);
      assert forall i :: 0 <= i < |order| ==> order[i] in multiset(front);
      order
  }

  /** The members at the given positions (`List.get` for each of them). */
  function Pick<T>(s: seq<T>, positions: seq<nat>): (r: seq<T>)
    requires InRange(positions, |s|)
    ensures |r| == |positions| && forall i :: 0 <= i < |positions| ==> r[i] == s[positions[i]]
  {
    seq(|positions|, i requires 0 <= i < |positions| => s[positions[i]])
  }

  /** Every member has n genes, one per test case. */
  predicate Uniform(population: seq<Chromosome>, n: nat)
  {
    forall i :: 0 <= i < |population| ==> |population[i].genes| == n
  }

  /** Members picked from a population whose members all have n genes have n genes. */
  lemma PickUniform(s: seq<Chromosome>, positions: seq<nat>, n: nat)
    requires InRange(positions, |s|) && Uniform(s, n)
    ensures Uniform(Pick(s, positions), n)
  {
  }

  /** No other member dominates member q. */
  predicate Undominated(objs: seq<Obj>, q: nat)
  {
    q < |objs| && forall p :: 0 <= p < |objs| && p != q ==> !Dominates(objs[p], objs[q])
  }

  /** The first front is exactly the set of undominated members. */
  lemma UndominatedIsFirstFront(objs: seq<Obj>, q: nat)
    ensures Undominated(objs, q) <==> q in Layer(objs, 0)
  {
    FirstFront(objs, q);
    if q < |objs| && !Undominated(objs, q) {
      var p :| 0 <= p < |objs| && p != q && Dominates(objs[p], objs[q]);
      assert p in Dominators(objs, q);
    }
  }

  /** The fronts of a partition hold positions of the population only. */
  lemma FrontsInRange(pts: seq<Obj>, fronts: seq<seq<nat>>)
    requires Partition(pts, fronts)
    ensures forall k :: 0 <= k < |fronts| ==> InRange(fronts[k], |pts|)
  {
    forall k, i | 0 <= k < |fronts| && 0 <= i < |fronts[k]|
      ensures fronts[k][i] < |pts|
    {
      assert fronts[k][i] in fronts[k];
    }
  }

  /**
   * The comparator of the generational loop, which reads the tables without
   * defaults (`rank.get(a)`, `crowding.get(a)`).
   */
  function InLoopCompare(rank: map<nat, int>, crowding: map<nat, Distance>, a: nat, b: nat): int
    requires a in rank && b in rank && a in crowding && b in crowding
  {
    if rank[a] != rank[b] then IntCompare(rank[b], rank[a])
    else DistanceCompare(crowding[a], crowding[b])
  }

  /**
   * After the tables are assigned for the fronts of a population, every
   * member has a rank and a distance, so the loop's comparator and
   * `nsga2Comparator()` (which falls back to defaults) agree on all members.
   */
  lemma EveryMemberRanked(pts: seq<Obj>, sizes: seq<real>, covs: seq<real>, fronts: seq<seq<nat>>, a: nat, b: nat)
    requires Partition(pts, fronts) && |sizes| == |pts| && |covs| == |pts|
    requires a < |pts| && b < |pts|
    ensures forall k :: 0 <= k < |fronts| ==> InRange(fronts[k], |sizes|) && InRange(fronts[k], |covs|)
    ensures a in Ranks(fronts) && a in Crowdings(sizes, covs, fronts)
    ensures b in Ranks(fronts) && b in Crowdings(sizes, covs, fronts)
    ensures InLoopCompare(Ranks(fronts), Crowdings(sizes, covs, fronts), a, b)
         == RankCrowdingCompare(Ranks(fronts), Crowdings(sizes, covs, fronts), a, b)
  {
    FrontsInRange(pts, fronts);
    MemberInTables(pts, sizes, covs, fronts, a);
    MemberInTables(pts, sizes, covs, fronts, b);
    ComparatorsAgree(Ranks(fronts), Crowdings(sizes, covs, fronts), a, b);
  }

  /** A member of a partitioned population has an entry in both tables. */
  lemma MemberInTables(pts: seq<Obj>, sizes: seq<real>, covs: seq<real>, fronts: seq<seq<nat>>, q: nat)
    requires Partition(pts, fronts) && q < |pts|
    requires forall k :: 0 <= k < |fronts| ==> InRange(fronts[k], |sizes|) && InRange(fronts[k], |covs|)
    ensures q in Ranks(fronts) && q in Crowdings(sizes, covs, fronts)
  {
    assert InSomeFront(fronts, q);
    var k :| 0 <= k < |fronts| && q in fronts[k];
    RankIsFrontIndex(fronts, k, q);
    CrowdingIsFrontDistance(sizes, covs, fronts, k, q);
  }

  /** On members present in both tables, the defaults of `nsga2Comparator()` never apply. */
  lemma ComparatorsAgree(rank: map<nat, int>, crowding: map<nat, Distance>, a: nat, b: nat)
    requires a in rank && b in rank && a in crowding && b in crowding
    ensures InLoopCompare(rank, crowding, a, b) == RankCrowdingCompare(rank, crowding, a, b)
  {
  }

  /**
   * Elitism: when the first front fits in the room, all of its members
   * survive, whatever order the crowding computation left the fronts in.
   */
  lemma Elitism(pts: seq<Obj>, fronts: seq<seq<nat>>, sorted: seq<seq<nat>>, room: nat, crowding: map<nat, Distance>)
    requires |fronts| >= 1 && Layered(pts, fronts) && |sorted| == |fronts|
    requires forall k :: 0 <= k < |fronts| ==> multiset(sorted[k]) == multiset(fronts[k])
    ensures |Layer(pts, 0)| <= room ==> forall q :: q in Layer(pts, 0) ==> q in Survivors(sorted, room, crowding)
  {
    if |Layer(pts, 0)| <= room {
      DistinctCard(fronts[0]);
      assert |sorted[0]| == |multiset(sorted[0])| == |fronts[0]|;
      assert Flatten(sorted[..1]) == sorted[0] + Flatten([]);
      SurvivorsKeepWholeFronts(sorted, room, crowding, 1);
      PermutationElements(fronts[0], sorted[0]);
      var prefix := Survivors(sorted, room, crowding)[..|sorted[0]|];
      forall q | q in Layer(pts, 0)
        ensures q in Survivors(sorted, room, crowding)
      {
        assert q in Elements(fronts[0]);
        assert q in prefix;
      }
    }
  }

  /** The tables of a partition's fronts hold every member, and both comparators agree on them. */
  lemma TablesCoverPopulation(pts: seq<Obj>, sizes: seq<real>, covs: seq<real>, fronts: seq<seq<nat>>)
    requires Partition(pts, fronts) && |sizes| == |pts| && |covs| == |pts|
    requires forall k :: 0 <= k < |fronts| ==> InRange(fronts[k], |sizes|) && InRange(fronts[k], |covs|)
    ensures forall q :: 0 <= q < |pts| ==> q in Ranks(fronts) && q in Crowdings(sizes, covs, fronts)
    ensures forall a, b :: 0 <= a < |pts| && 0 <= b < |pts| ==>
      InLoopCompare(Ranks(fronts), Crowdings(sizes, covs, fronts), a, b)
      == RankCrowdingCompare(Ranks(fronts), Crowdings(sizes, covs, fronts), a, b)
  {
    forall a, b | 0 <= a < |pts| && 0 <= b < |pts|
      ensures a in Ranks(fronts) && a in Crowdings(sizes, covs, fronts)
      ensures b in Ranks(fronts) && b in Crowdings(sizes, covs, fronts)
      ensures InLoopCompare(Ranks(fronts), Crowdings(sizes, covs, fronts), a, b)
           == RankCrowdingCompare(Ranks(fronts), Crowdings(sizes, covs, fronts), a, b)
    {
      EveryMemberRanked(pts, sizes, covs, fronts, a, b);
    }
    forall q | 0 <= q < |pts|
      ensures q in Ranks(fronts) && q in Crowdings(sizes, covs, fronts)
    {
      EveryMemberRanked(pts, sizes, covs, fronts, q, q);
    }
  }

  /**
   * What survives the truncation of a sorted partition: as many distinct
   * members as there is room, all of the first front when it fits.
   */
  lemma SurvivorFacts(pts: seq<Obj>, fronts: seq<seq<nat>>, sorted: seq<seq<nat>>, room: nat, crowding: map<nat, Distance>)
    requires |fronts| >= 1 && Layered(pts, fronts) && Partition(pts, fronts) && |sorted| == |fronts|
    requires forall k :: 0 <= k < |fronts| ==> multiset(sorted[k]) == multiset(fronts[k])
    ensures var s := Survivors(sorted, room, crowding);
      |s| == Min(room, |pts|) && Distinct(s) && InRange(s, |pts|)
    ensures |Layer(pts, 0)| <= room ==> forall q :: q in Layer(pts, 0) ==> q in Survivors(sorted, room, crowding)
  {
    var s := Survivors(sorted, room, crowding);
    PermutedFronts(pts, fronts, sorted);
    SurvivorsLength(sorted, room, crowding);
    FlattenOfPartition(pts, sorted);
    SurvivorsDistinct(sorted, room, crowding);
    forall i | 0 <= i < |s|
      ensures s[i] < |pts|
    {
      SurvivorsMembers(sorted, room, crowding, s[i]);
    }
    Elitism(pts, fronts, sorted, room, crowding);
  }

  /**
   * One pass of `computeCrowdingDistance` over the front sorted by one
   * objective: both ends become infinite, and when the objective's range is
   * positive every member between them adds its neighbours' gap over the range.
   */
  method CrowdingPass(base: map<nat, Distance>, order: seq<nat>, obj: seq<real>) returns (passed: map<nat, Distance>)
    requires Distinct(order) && InRange(order, |obj|) && |order| >= 3
    requires forall j :: 0 <= j < |order| ==> order[j] in base
    ensures SameOutside(passed, base, order)
    ensures PassedUpTo(passed, base, order, Along(obj, order), |order| - 1)
  {
    var n := |order|;
    var ends := base[order[0] := Infinite][order[n - 1] := Infinite];
    if obj[order[n - 1]] - obj[order[0]] > 0.0 {
      passed := InteriorPass(ends, order, obj, base);
    } else {
      FlatPassTable(base, order, Along(obj, order), n - 1);
      passed := ends;
    }
    PassTablePassed(base, order, Along(obj, order), n - 1);
  }

  /**
   * The interior of one pass of `computeCrowdingDistance`: each member
   * between the two ends adds the gap between its neighbours divided by the
   * range, which is positive here.
   */
  method InteriorPass(table: map<nat, Distance>, order: seq<nat>, obj: seq<real>, ghost base: map<nat, Distance>)
    returns (passed: map<nat, Distance>)
    requires InRange(order, |obj|) && |order| >= 3 && obj[order[|order| - 1]] - obj[order[0]] > 0.0
    requires forall j :: 0 <= j < |order| ==> order[j] in base
    requires table == PassTable(base, order, Along(obj, order), 1)
    ensures passed == PassTable(base, order, Along(obj, order), |order| - 1)
  {
    var n := |order|;
    ghost var vals := Along(obj, order);
    var range := obj[order[n - 1]] - obj[order[0]];
    passed := table;
    var i := 1;
    while i < n - 1
      invariant 1 <= i <= n - 1
      invariant passed == PassTable(base, order, vals, i)
    {
      var prev := obj[order[i - 1]];
      var next := obj[order[i + 1]];
      assert vals[i - 1] == prev && vals[i + 1] == next && vals[n - 1] - vals[0] == range;
      assert Contribution(vals, i) == Finite((next - prev) / range);
      passed := passed[order[i] := Plus(passed[order[i]], Finite((next - prev) / range))];
      i := i + 1;
    }
  }

  class Nsga2 {
    const stop: MaxFitnessEvaluations
    const rng: Random
    const populationSize: int
    const generator: Generator
    /** Minimizing. */
    const sizeFF: FitnessFunction<Chromosome>
    /** Maximizing. */
    const coverageFF: FitnessFunction<Chromosome>
    var rank: map<nat, int>
    var crowding: map<nat, Distance>

    constructor (stop: MaxFitnessEvaluations, rng: Random, populationSize: int, generator: Generator,
                 sizeFF: FitnessFunction<Chromosome>, coverageFF: FitnessFunction<Chromosome>)
      ensures this.stop == stop && this.rng == rng && this.populationSize == populationSize
      ensures this.generator == generator && this.sizeFF == sizeFF && this.coverageFF == coverageFF
      ensures rank == map[] && crowding == map[]
    {
      this.stop := stop;
      this.rng := rng;
      this.populationSize := populationSize;
      this.generator := generator;
      this.sizeFF := sizeFF;
      this.coverageFF := coverageFF;
      rank := map[];
      crowding := map[];
    }

    /** The size objective of every member, by position. */
    function Sizes(population: seq<Chromosome>): (s: seq<real>)
      ensures |s| == |population| && forall i :: 0 <= i < |population| ==> s[i] == sizeFF.apply(population[i])
    {
      seq(|population|, i requires 0 <= i < |population| => sizeFF.apply(population[i]))
    }

    /** The coverage objective of every member, by position. */
    function Coverages(population: seq<Chromosome>): (s: seq<real>)
      ensures |s| == |population| && forall i :: 0 <= i < |population| ==> s[i] == coverageFF.apply(population[i])
    {
      seq(|population|, i requires 0 <= i < |population| => coverageFF.apply(population[i]))
    }

    /** Both objectives of every member, as the dominance test reads them. */
    function Objectives(population: seq<Chromosome>): (objs: seq<Obj>)
      ensures |objs| == |population|
      ensures forall i :: 0 <= i < |population| ==>
        objs[i] == Obj(sizeFF.apply(population[i]), coverageFF.apply(population[i]))
    {
      seq(|population|, i requires 0 <= i < |population| =>
        Obj(sizeFF.apply(population[i]), coverageFF.apply(population[i])))
    }

    /** The loop `for (c : front) crowding.put(c, d)`. */
    method SetCrowding(front: seq<nat>, d: Distance)
      modifies this
      ensures rank == old(rank)
      ensures crowding == old(crowding) + Constant(front, d)
    {
      var i := 0;
      while i < |front|
        invariant 0 <= i <= |front| && rank == old(rank)
        invariant crowding.Keys == old(crowding).Keys + Elements(front[..i])
        invariant forall q :: q in crowding ==>
          crowding[q] == if q in Elements(front[..i]) then d else old(crowding)[q]
      {
        ElementsPrefixStep(front, i);
        crowding := crowding[front[i] := d];
        i := i + 1;
      }
      ElementsWhole(front);
    }

    /**
     * One objective's pass of `computeCrowdingDistance` over the front sorted
     * by that objective: both ends become infinite and, when the range is
     * positive, every interior member adds its neighbours' gap over the range.
     */
    method AccumulatePass(order: seq<nat>, obj: seq<real>)
      requires Distinct(order) && InRange(order, |obj|) && |order| >= 3
      requires forall j :: 0 <= j < |order| ==> order[j] in crowding
      modifies this
      ensures rank == old(rank)
      ensures SameOutside(crowding, old(crowding), order)
      ensures PassedUpTo(crowding, old(crowding), order, Along(obj, order), |order| - 1)
    {
      crowding := CrowdingPass(crowding, order, obj);
    }

    /**
     * `computeCrowdingDistance(front)`: the front's distances go into the
     * crowding table, and the front comes back in the order the two in-place
     * sorts leave it (fronts of at most two members are not sorted).
     */
    method ComputeCrowdingDistance(sizes: seq<real>, covs: seq<real>, front: seq<nat>) returns (order: seq<nat>)
      requires Distinct(front) && InRange(front, |sizes|) && InRange(front, |covs|)
      modifies this
      ensures rank == old(rank)
      ensures crowding == old(crowding) + CrowdingOf(sizes, covs, front)
      ensures order == CrowdingOrder(sizes, covs, front)
    {
      var n := |front|;
      order := front;
      if n == 0 {
        assert CrowdingOf(sizes, covs, front) == map[];
        return;
      }
      SetCrowding(front, Finite(0.0));
      if n <= 2 {
        SetCrowding(front, Infinite);
        SmallFrontResult(old(crowding), crowding, sizes, covs, front);
        return;
      }
      ghost var zeroed := crowding;
      order := SortBy(front, Key(sizes));
      assert order == BySize(sizes, front);
      PermutationKeys(front, order, zeroed);
      DistinctPermutation(front, order);
      AccumulatePass(order, sizes);
      ghost var mid := crowding;
      order := SortBy(order, Key(covs));
      assert order == ByCoverage(sizes, covs, front);
      PermutationKeys(front, order, mid);
      DistinctPermutation(front, order);
      AccumulatePass(order, covs);
      TwoPasses(old(crowding), zeroed, mid, crowding, sizes, covs, front);
    }

    /** The loop `for (c : front) rank.put(c, k)`. */
    method SetRank(front: seq<nat>, k: int)
      modifies this
      ensures crowding == old(crowding)
      ensures rank == old(rank) + Constant(front, k)
    {
      var i := 0;
      while i < |front|
        invariant 0 <= i <= |front| && crowding == old(crowding)
        invariant rank.Keys == old(rank).Keys + Elements(front[..i])
        invariant forall q :: q in rank ==>
          rank[q] == if q in Elements(front[..i]) then k else old(rank)[q]
      {
        ElementsPrefixStep(front, i);
        rank := rank[front[i] := k];
        i := i + 1;
      }
      ElementsWhole(front);
    }

    /**
     * `assignRankAndCrowding(fronts)`: both tables are cleared, then every
     * member of front k gets rank k and its crowding distance within front k.
     * The fronts come back in the order the crowding computation leaves them.
     */
    method AssignRankAndCrowding(sizes: seq<real>, covs: seq<real>, fronts: seq<seq<nat>>)
      returns (sorted: seq<seq<nat>>)
      requires EachDistinct(fronts)
      requires forall k :: 0 <= k < |fronts| ==> InRange(fronts[k], |sizes|) && InRange(fronts[k], |covs|)
      modifies this
      ensures rank == Ranks(fronts)
      ensures crowding == Crowdings(sizes, covs, fronts)
      ensures |sorted| == |fronts|
      ensures forall k :: 0 <= k < |fronts| ==> sorted[k] == CrowdingOrder(sizes, covs, fronts[k])
    {
      rank := map[];
      crowding := map[];
      sorted := [];
      var i := 0;
      while i < |fronts|
        invariant 0 <= i <= |fronts| && |sorted| == i
        invariant rank == Ranks(fronts[..i])
        invariant crowding == Crowdings(sizes, covs, fronts[..i])
        invariant forall k :: 0 <= k < i ==> sorted[k] == CrowdingOrder(sizes, covs, fronts[k])
      {
        assert fronts[..i + 1][..i] == fronts[..i];
        SetRank(fronts[i], i);
        var order := ComputeCrowdingDistance(sizes, covs, fronts[i]);
        sorted := sorted + [order];
        i := i + 1;
      }
      assert fronts[..|fronts|] == fronts;
    }

    /**
     * `selectNextPopulation(fronts)`: whole fronts while they fit, then the
     * first front that does not fit, sorted by descending crowding distance,
     * fills the remaining room.
     */
    method SelectNextPopulation(fronts: seq<seq<nat>>) returns (next: seq<nat>)
      requires populationSize >= 0
      ensures next == Survivors(fronts, populationSize, crowding)
    {
      next := [];
      var i := 0;
      while i < |fronts|
        invariant 0 <= i <= |fronts| && |next| <= populationSize
        invariant next + Survivors(fronts[i..], populationSize - |next|, crowding) == Survivors(fronts, populationSize, crowding)
      {
        var front := fronts[i];
        if |next| + |front| <= populationSize {
          assert fronts[i..][1..] == fronts[i + 1..];
          next := next + front;
        } else {
          var remaining := populationSize - |next|;
          var byDistance := SortBy(front, DescendingKey(crowding));
          next := next + byDistance[..remaining];
          break;
        }
        i := i + 1;
      }
    }

    /** `evaluate(c)`: both objectives are computed and one fitness evaluation is counted. */
    method Evaluate(c: Chromosome)
      requires stop.Valid()
      modifies stop
      ensures stop.Valid() && stop.counter == Wrap(old(stop.counter) + 1)
    {
      stop.NotifyFitnessEvaluation();
    }

    /** Step 1 of `findSolution()`: generated and evaluated members until N exist or the budget is spent. */
    method InitialPopulation() returns (population: seq<Chromosome>)
      requires stop.Valid() && stop.counter == 0 && populationSize >= 0 && generator.numberOfTests >= 1
      modifies stop, rng
      ensures stop.Valid() && stop.counter == |population|
      ensures |population| == Min(populationSize, stop.budget)
      ensures Uniform(population, generator.numberOfTests)
    {
      population := [];
      while |population| < populationSize && !stop.SearchMustStop()
        invariant stop.Valid() && stop.counter == |population|
        invariant |population| <= populationSize && |population| <= stop.budget
        invariant Uniform(population, generator.numberOfTests)
        decreases populationSize - |population|
      {
        var c := GetFrom(generator, rng);
        Evaluate(c.value);
        population := population + [c.value];
      }
    }

    /**
     * The body of the offspring loop up to evaluation: two tournaments, the
     * crossover of the winners and the mutation of both children. Crossover
     * cannot fail, since all members have the same non-zero length.
     */
    method Breed(population: seq<Chromosome>, positions: seq<nat>, compare: (nat, nat) -> int)
      returns (c1: Chromosome, c2: Chromosome, ghost w1: nat, ghost w2: nat, ghost children: Pair<Chromosome>,
               ghost cut: nat, ghost coins1: seq<Unit>, ghost coins2: seq<Unit>)
      requires |population| >= 1 && positions == Positions(|population|)
      requires generator.numberOfTests >= 1 && Uniform(population, generator.numberOfTests)
      requires NeverStuck(rng.stream)
      modifies rng
      ensures w1 < |population| && w2 < |population|
      ensures Selection.TournamentWinner(compare, positions, w1) && Selection.TournamentWinner(compare, positions, w2)
      ensures Variation.CrossedAt(population[w1], population[w2], cut, children)
      ensures Variation.MutatedWith(children.first, coins1, c1) && Variation.MutatedWith(children.second, coins2, c2)
      ensures |c1.genes| == generator.numberOfTests && |c2.genes| == generator.numberOfTests
    {
      var s1 := Selection.Apply<nat>(positions, compare, rng);
      var s2 := Selection.Apply<nat>(positions, compare, rng);
      w1, w2 := s1.value, s2.value;
      var p1, p2 := population[s1.value], population[s2.value];
      cut := Variation.CutAt(p1, rng.stream, rng.cursor);
      var xo := Variation.Crossover(p1, p2, rng);
      children := xo.value;
      coins1 := Draws(rng.stream, rng.cursor, |xo.value.first.genes|);
      c1 := Variation.Mutate(xo.value.first, rng);
      coins2 := Draws(rng.stream, rng.cursor, |xo.value.second.genes|);
      c2 := Variation.Mutate(xo.value.second, rng);
    }

    /**
     * The offspring loop of `findSolution()`: two tournament winners are
     * crossed and both children mutated; the second child is evaluated and
     * kept only while there is room, even when the budget ran out with the
     * first.
     */
    method Offspring(population: seq<Chromosome>) returns (offspring: seq<Chromosome>)
      requires stop.Valid() && stop.budget < INT_MAX && 0 <= stop.counter
      requires |population| >= 1 && generator.numberOfTests >= 1
      requires Uniform(population, generator.numberOfTests)
      requires populationSize >= 0 && NeverStuck(rng.stream)
      modifies stop, rng
      ensures stop.Valid() && stop.counter == old(stop.counter) + |offspring|
      ensures |offspring| <= populationSize
      ensures old(stop.counter) <= stop.budget ==> stop.counter <= stop.budget + 1
      ensures |offspring| == populationSize || stop.SearchMustStop()
      ensures populationSize >= 1 && !old(stop.SearchMustStop()) ==> |offspring| >= 1
      ensures Uniform(offspring, generator.numberOfTests)
    {
      var n := generator.numberOfTests;
      var positions := Positions(|population|);
      var r, c := rank, crowding;
      var compare := (a: nat, b: nat) => RankCrowdingCompare(r, c, a, b);
      offspring := [];
      while |offspring| < populationSize && !stop.SearchMustStop()
        invariant stop.Valid() && stop.counter == old(stop.counter) + |offspring|
        invariant |offspring| <= populationSize
        invariant old(stop.counter) <= stop.budget ==> stop.counter <= stop.budget + 1
        invariant Uniform(offspring, n)
        decreases populationSize - |offspring|
      {
        var c1: Chromosome, c2: Chromosome;
        ghost var w1: nat, w2: nat, children: Pair<Chromosome>, cut: nat, coins1: seq<Unit>, coins2: seq<Unit>;
        c1, c2, w1, w2, children, cut, coins1, coins2 := Breed(population, positions, compare);
        Evaluate(c1);
        offspring := offspring + [c1];
        if |offspring| < populationSize {
          Evaluate(c2);
          offspring := offspring + [c2];
        }
      }
    }

    /**
     * The end of a generation: parents and offspring are combined, sorted into
     * fronts, ranked and spaced, and the survivors become the next population.
     * `chosen` gives each survivor's position in the combined population.
     */
    method NextGeneration(population: seq<Chromosome>, offspring: seq<Chromosome>)
      returns (next: seq<Chromosome>, ghost chosen: seq<nat>)
      requires populationSize >= 0
      modifies this
      ensures |next| == Min(populationSize, |population| + |offspring|)
      ensures |chosen| == |next| && Distinct(chosen)
      ensures InRange(chosen, |population| + |offspring|) && next == Pick(population + offspring, chosen)
      ensures var first := Layer(Objectives(population + offspring), 0);
        |first| <= populationSize ==> forall q :: q in first ==> q in chosen
    {
      var combined := population + offspring;
      var pts := Objectives(combined);
      var fronts := FastNonDominatedSort(pts);
      FrontsInRange(pts, fronts);
      var sorted := AssignRankAndCrowding(Sizes(combined), Coverages(combined), fronts);
      var survivors := SelectNextPopulation(sorted);
      SurvivorFacts(pts, fronts, sorted, populationSize, crowding);
      next := Pick(combined, survivors);
      chosen := survivors;
    }

    /**
     * The start of a generation: the tables are assigned for the fronts of
     * the current population. Every member then has a rank and a distance,
     * so the tournament's comparator, which reads them without defaults,
     * agrees with `nsga2Comparator()` on every pair of members.
     */
    method RankForSelection(population: seq<Chromosome>)
      modifies this
      ensures forall q :: 0 <= q < |population| ==> q in rank && q in crowding
      ensures forall a, b :: 0 <= a < |population| && 0 <= b < |population| ==>
        InLoopCompare(rank, crowding, a, b) == RankCrowdingCompare(rank, crowding, a, b)
    {
      var objs := Objectives(population);
      var fronts := FastNonDominatedSort(objs);
      FrontsInRange(objs, fronts);
      var sizes, covs := Sizes(population), Coverages(population);
      var _ := AssignRankAndCrowding(sizes, covs, fronts);
      TablesCoverPopulation(objs, sizes, covs, fronts);
    }

    /**
     * One pass of the generational loop of `findSolution()`: the population's
     * fronts are ranked and spaced for the tournament, offspring are bred, and
     * the survivors of parents and offspring become the next population.
     */
    method Generation(population: seq<Chromosome>) returns (next: seq<Chromosome>)
      requires stop.Valid() && stop.budget < INT_MAX && 0 <= stop.counter < stop.budget
      requires |population| == populationSize >= 1 && generator.numberOfTests >= 1
      requires Uniform(population, generator.numberOfTests) && NeverStuck(rng.stream)
      modifies this, stop, rng
      ensures stop.Valid() && old(stop.counter) < stop.counter <= stop.budget + 1
      ensures |next| == populationSize && Uniform(next, generator.numberOfTests)
    {
      RankForSelection(population);
      var offspring := Offspring(population);
      ghost var chosen;
      next, chosen := NextGeneration(population, offspring);
      PickUniform(population + offspring, chosen, generator.numberOfTests);
    }

    /**
     * The last step of `findSolution()`: the first front of the final
     * population, which is exactly the set of its undominated members.
     * `front` gives their positions.
     */
    method FirstFront(population: seq<Chromosome>) returns (result: seq<Chromosome>, ghost front: seq<nat>)
      ensures |result| == |front| && Distinct(front)
      ensures forall i :: 0 <= i < |front| ==> front[i] < |population| && result[i] == population[front[i]]
      ensures forall q: nat :: q in front <==> Undominated(Objectives(population), q)
    {
      var objs := Objectives(population);
      var fronts := FastNonDominatedSort(objs);
      FrontsInRange(objs, fronts);
      var first := fronts[0];
      result := Pick(population, first);
      front := first;
      forall q: nat
        ensures q in front <==> Undominated(objs, q)
      {
        UndominatedIsFirstFront(objs, q);
      }
    }

    /**
     * `findSolution()`: the budget is spent on the initial population and
     * then on generations; the result is the first front of the final
     * population, that is, exactly its undominated members. `front` gives
     * their positions in the final `population`.
     */
    method FindSolution() returns (result: seq<Chromosome>, ghost population: seq<Chromosome>, ghost front: seq<nat>)
      requires stop.Valid() && stop.budget < INT_MAX
      requires populationSize >= 1 && generator.numberOfTests >= 1 && NeverStuck(rng.stream)
      modifies this, stop, rng
      ensures stop.Valid() && stop.budget <= stop.counter <= stop.budget + 1
      ensures |population| == Min(populationSize, stop.budget)
      ensures Uniform(population, generator.numberOfTests)
      ensures |result| == |front| && Distinct(front)
      ensures forall i :: 0 <= i < |front| ==> front[i] < |population| && result[i] == population[front[i]]
      ensures forall q: nat :: q in front <==> Undominated(Objectives(population), q)
    {
      stop.NotifySearchStarted();
      var pop := InitialPopulation();
      while !stop.SearchMustStop()
        invariant stop.Valid() && 0 <= stop.counter <= stop.budget + 1
        invariant |pop| == Min(populationSize, stop.budget)
        invariant stop.counter < stop.budget ==> |pop| == populationSize
        invariant Uniform(pop, generator.numberOfTests)
        decreases stop.budget + 1 - stop.counter
      {
        pop := Generation(pop);
      }
      result, front := FirstFront(pop);
      population := pop;
    }
  }
}
