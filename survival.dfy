/**
 * The NSGA-II bookkeeping around the fronts: the rank and crowding tables,
 * the tournament comparator built on them, and the elitist truncation of the
 * combined population to the next one. Members are positions in the
 * population the fronts were computed for.
 */
module Survival {
  import opened Collections
  import opened Sorting
  import opened Pareto
  import opened NondominatedSort
  import opened Crowding
  import opened FitnessFunctions
  import opened StoppingConditions

  /** `crowding.getOrDefault(q, 0.0)`. */
  function CrowdingOrZero(crowding: map<nat, Distance>, q: nat): Distance
  {
    if q in crowding then crowding[q] else Finite(0.0)
  }

  /** `rank.getOrDefault(q, Integer.MAX_VALUE)`. */
  function RankOrMax(rank: map<nat, int>, q: nat): int
  {
    if q in rank then rank[q] else INT_MAX
  }

  /** `Double.compare` on crowding distances: infinity is above every finite value and equal to itself. */
  function DistanceCompare(x: Distance, y: Distance): int
  {
    match (x, y)
    case (Infinite, Infinite) => 0
    case (Infinite, _) => 1
    case (_, Infinite) => -1
    case (Finite(a), Finite(b)) => DoubleCompare(a, b)
  }

  /** x is at least as large a distance as y. */
  predicate AtLeast(x: Distance, y: Distance)
  {
    x.Infinite? || (y.Finite? && x.value >= y.value)
  }

  lemma DistanceCompareFacts(x: Distance, y: Distance)
    ensures DistanceCompare(x, y) == -DistanceCompare(y, x)
    ensures DistanceCompare(x, y) >= 0 <==> AtLeast(x, y)
    ensures DistanceCompare(x, y) == 0 <==> x == y
  {
  }

  /** `Integer.compare`. */
  function IntCompare(a: int, b: int): (r: int)
    ensures r < 0 <==> a < b
    ensures r == 0 <==> a == b
    ensures r > 0 <==> a > b
  {
    if a < b then -1 else if a > b then 1 else 0
  }

  /**
   * `nsga2Comparator()`: positive when a is better. The lower rank wins; at
   * equal rank the larger crowding distance wins. A member without a rank
   * counts as rank Integer.MAX_VALUE, one without a distance as 0.
   */
  function RankCrowdingCompare(rank: map<nat, int>, crowding: map<nat, Distance>, a: nat, b: nat): int
  {
    var ra, rb := RankOrMax(rank, a), RankOrMax(rank, b);
    if ra != rb then IntCompare(rb, ra)
    else DistanceCompare(CrowdingOrZero(crowding, a), CrowdingOrZero(crowding, b))
  }

  /** The comparator is antisymmetric, prefers the lower rank and, at equal rank, the larger distance. */
  lemma RankCrowdingCompareFacts(rank: map<nat, int>, crowding: map<nat, Distance>, a: nat, b: nat)
    ensures RankCrowdingCompare(rank, crowding, a, b) == -RankCrowdingCompare(rank, crowding, b, a)
    ensures RankOrMax(rank, a) < RankOrMax(rank, b) ==> RankCrowdingCompare(rank, crowding, a, b) > 0
    ensures RankOrMax(rank, a) == RankOrMax(rank, b) ==>
      (RankCrowdingCompare(rank, crowding, a, b) >= 0 <==>
       AtLeast(CrowdingOrZero(crowding, a), CrowdingOrZero(crowding, b)))
    ensures a in rank && 0 <= rank[a] < INT_MAX && b !in rank ==> RankCrowdingCompare(rank, crowding, a, b) > 0
  {
    DistanceCompareFacts(CrowdingOrZero(crowding, a), CrowdingOrZero(crowding, b));
  }

  /** The sort key of the truncation: `Double.compare(cb, ca)` orders by descending distance. */
  function DescendingKey(crowding: map<nat, Distance>): (key: nat -> Ext)
    ensures forall q: nat :: key(q) == (match CrowdingOrZero(crowding, q)
                                        case Infinite => NegInf
                                        case Finite(x) => Fin(-x))
  {
    (q: nat) => match CrowdingOrZero(crowding, q)
                case Infinite => NegInf
                case Finite(x) => Fin(-x)
  }

  /** Along an order sorted by the descending key, distances never increase. */
  lemma DescendingOrder(crowding: map<nat, Distance>, s: seq<nat>, i: nat, j: nat)
    requires SortedBy(s, DescendingKey(crowding)) && i < j < |s|
    ensures AtLeast(CrowdingOrZero(crowding, s[i]), CrowdingOrZero(crowding, s[j]))
  {
    assert !Less(DescendingKey(crowding)(s[j]), DescendingKey(crowding)(s[i]));
  }

  /** All fronts, one after the other. */
  function Flatten(fronts: seq<seq<nat>>): seq<nat>
  {
    if fronts == [] then [] else fronts[0] + Flatten(fronts[1..])
  }

  lemma {:induction false} FlattenMembers(fronts: seq<seq<nat>>, x: nat)
    ensures x in Flatten(fronts) <==> exists k :: 0 <= k < |fronts| && x in fronts[k]
  {
    if fronts != [] {
      FlattenMembers(fronts[1..], x);
      if x in Flatten(fronts[1..]) {
        var k :| 0 <= k < |fronts[1..]| && x in fronts[1..][k];
        assert x in fronts[k + 1];
      }
      if exists k :: 0 <= k < |fronts| && x in fronts[k] {
        var k :| 0 <= k < |fronts| && x in fronts[k];
        if k > 0 {
          assert x in fronts[1..][k - 1];
        }
      }
    }
  }

  predicate EachDistinct(fronts: seq<seq<nat>>)
  {
    forall k :: 0 <= k < |fronts| ==> Distinct(fronts[k])
  }

  predicate PairwiseDisjoint(fronts: seq<seq<nat>>)
  {
    forall k, l, q :: 0 <= k < l < |fronts| && q in fronts[k] ==> q !in fronts[l]
  }

  /** Dropping the first front keeps the fronts distinct and disjoint, and apart from the first one. */
  lemma RestFronts(fronts: seq<seq<nat>>)
    requires EachDistinct(fronts) && PairwiseDisjoint(fronts) && |fronts| > 0
    ensures EachDistinct(fronts[1..]) && PairwiseDisjoint(fronts[1..])
    ensures forall x :: x in fronts[0] ==> x !in Flatten(fronts[1..])
  {
    var rest := fronts[1..];
    assert EachDistinct(rest) by {
      forall k | 0 <= k < |rest|
        ensures Distinct(rest[k])
      {
        assert rest[k] == fronts[k + 1];
      }
    }
    assert PairwiseDisjoint(rest) by {
      forall k, l, q | 0 <= k < l < |rest| && q in rest[k]
        ensures q !in rest[l]
      {
        assert rest[k] == fronts[k + 1] && rest[l] == fronts[l + 1];
      }
    }
    forall x | x in fronts[0]
      ensures x !in Flatten(rest)
    {
      forall k | 0 <= k < |rest|
        ensures x !in rest[k]
      {
        assert rest[k] == fronts[k + 1];
      }
      FlattenMembers(rest, x);
    }
  }

  lemma {:induction false} FlattenDistinct(fronts: seq<seq<nat>>)
    requires EachDistinct(fronts) && PairwiseDisjoint(fronts)
    ensures Distinct(Flatten(fronts))
  {
    if fronts != [] {
      RestFronts(fronts);
      FlattenDistinct(fronts[1..]);
      DistinctConcat(fronts[0], Flatten(fronts[1..]));
    }
  }

  /**
   * Rearranging every front within itself keeps a partition a partition:
   * each front keeps its members.
   */
  lemma PermutedFronts(pts: seq<Obj>, fronts: seq<seq<nat>>, sorted: seq<seq<nat>>)
    requires Partition(pts, fronts) && EachDistinct(fronts) && |sorted| == |fronts|
    requires forall k :: 0 <= k < |fronts| ==> multiset(sorted[k]) == multiset(fronts[k])
    ensures Partition(pts, sorted) && EachDistinct(sorted) && PairwiseDisjoint(sorted)
  {
    forall k | 0 <= k < |fronts|
      ensures Distinct(sorted[k]) && forall x :: x in sorted[k] <==> x in fronts[k]
    {
      DistinctPermutation(fronts[k], sorted[k]);
      PermutationElements(fronts[k], sorted[k]);
    }
    forall q: nat | q < |pts|
      ensures InSomeFront(sorted, q)
    {
      assert InSomeFront(fronts, q);
      var k :| 0 <= k < |fronts| && q in fronts[k];
      assert q in sorted[k];
    }
  }

  /** The fronts of a partition of n members, listed one after the other, hold each member once. */
  lemma FlattenOfPartition(pts: seq<Obj>, fronts: seq<seq<nat>>)
    requires Partition(pts, fronts) && EachDistinct(fronts)
    ensures |Flatten(fronts)| == |pts|
    ensures forall x :: x in Flatten(fronts) ==> x < |pts|
  {
    FlattenDistinct(fronts);
    forall x: nat
      ensures x in Elements(Flatten(fronts)) <==> x in AllIdx(|pts|)
    {
      FlattenMembers(fronts, x);
      if x < |pts| {
        assert InSomeFront(fronts, x);
      }
    }
    assert Elements(Flatten(fronts)) == AllIdx(|pts|);
    DistinctCard(Flatten(fronts));
    forall x | x in Flatten(fronts)
      ensures x < |pts|
    {
      assert x in Elements(Flatten(fronts));
    }
  }

  /**
   * `selectNextPopulation` as a value: whole fronts while they fit in the
   * room left, then the most widely spaced members of the first front that
   * does not fit.
   */
  function Survivors(fronts: seq<seq<nat>>, room: nat, crowding: map<nat, Distance>): seq<nat>
  {
    if fronts == [] then []
    else if |fronts[0]| <= room then fronts[0] + Survivors(fronts[1..], room - |fronts[0]|, crowding)
    else SortBy(fronts[0], DescendingKey(crowding))[..room]
  }

  function Min(a: nat, b: nat): nat
  {
    if a <= b then a else b
  }

  /** As many survivors as there is room, or all members when they all fit. */
  lemma {:induction false} SurvivorsLength(fronts: seq<seq<nat>>, room: nat, crowding: map<nat, Distance>)
    ensures |Survivors(fronts, room, crowding)| == Min(room, |Flatten(fronts)|)
  {
    if fronts != [] && |fronts[0]| <= room {
      SurvivorsLength(fronts[1..], room - |fronts[0]|, crowding);
    }
  }

  /** When every member fits, all of them survive, front by front. */
  lemma {:induction false} SurvivorsAll(fronts: seq<seq<nat>>, room: nat, crowding: map<nat, Distance>)
    requires |Flatten(fronts)| <= room
    ensures Survivors(fronts, room, crowding) == Flatten(fronts)
  {
    if fronts != [] {
      SurvivorsAll(fronts[1..], room - |fronts[0]|, crowding);
    }
  }

  /** Every survivor is a member of some front. */
  lemma {:induction false} SurvivorsMembers(fronts: seq<seq<nat>>, room: nat, crowding: map<nat, Distance>, x: nat)
    requires x in Survivors(fronts, room, crowding)
    ensures x in Flatten(fronts)
  {
    if |fronts[0]| <= room {
      if x !in fronts[0] {
        SurvivorsMembers(fronts[1..], room - |fronts[0]|, crowding, x);
      }
    } else {
      var s := SortBy(fronts[0], DescendingKey(crowding));
      assert x in s;
      SortByElements(fronts[0], DescendingKey(crowding), x);
    }
  }

  /** No member survives twice. */
  lemma {:induction false} SurvivorsDistinct(fronts: seq<seq<nat>>, room: nat, crowding: map<nat, Distance>)
    requires EachDistinct(fronts) && PairwiseDisjoint(fronts)
    ensures Distinct(Survivors(fronts, room, crowding))
  {
    if fronts != [] {
      if |fronts[0]| <= room {
        var rest := Survivors(fronts[1..], room - |fronts[0]|, crowding);
        RestFronts(fronts);
        SurvivorsDistinct(fronts[1..], room - |fronts[0]|, crowding);
        forall x | x in rest
          ensures x !in fronts[0]
        {
          SurvivorsMembers(fronts[1..], room - |fronts[0]|, crowding, x);
        }
        DistinctConcat(fronts[0], rest);
      } else {
        DistinctPermutation(fronts[0], SortBy(fronts[0], DescendingKey(crowding)));
      }
    }
  }

  /**
   * Elitism: the survivors start with the whole of fronts 0 .. k whenever
   * those fronts fit in the room.
   */
  lemma {:induction false} SurvivorsKeepWholeFronts(fronts: seq<seq<nat>>, room: nat, crowding: map<nat, Distance>, k: nat)
    requires k <= |fronts| && |Flatten(fronts[..k])| <= room
    ensures |Flatten(fronts[..k])| <= |Survivors(fronts, room, crowding)|
    ensures Survivors(fronts, room, crowding)[..|Flatten(fronts[..k])|] == Flatten(fronts[..k])
  {
    if k > 0 {
      assert fronts[..k][0] == fronts[0] && fronts[..k][1..] == fronts[1..][..k - 1];
      SurvivorsKeepWholeFronts(fronts[1..], room - |fronts[0]|, crowding, k - 1);
    }
  }

  /**
   * In the front that does not fit, the survivors are the first ones in
   * descending order of crowding distance: none of the left-out members of
   * that front is further apart than a chosen one.
   */
  lemma TruncationByCrowding(front: seq<nat>, room: nat, crowding: map<nat, Distance>, i: nat, j: nat)
    requires room <= |front| && i < room <= j < |front|
    ensures var s := SortBy(front, DescendingKey(crowding));
      AtLeast(CrowdingOrZero(crowding, s[i]), CrowdingOrZero(crowding, s[j]))
  {
    SortByIsSorted(front, DescendingKey(crowding));
    DescendingOrder(crowding, SortBy(front, DescendingKey(crowding)), i, j);
  }

  /** The map giving every member of s the value v. */
  function Constant<V>(s: seq<nat>, v: V): (m: map<nat, V>)
    ensures m.Keys == Elements(s)
    ensures forall q :: q in m ==> m[q] == v
  {
    map q | q in s :: v
  }

  /** The rank table after `assignRankAndCrowding`: every member of front k gets rank k. */
  function Ranks(fronts: seq<seq<nat>>): map<nat, int>
  {
    if fronts == [] then map[]
    else Ranks(fronts[..|fronts| - 1]) + Constant(fronts[|fronts| - 1], |fronts| - 1)
  }

  /** The crowding table after `assignRankAndCrowding`: each front's distances, computed within the front. */
  function Crowdings(sizes: seq<real>, covs: seq<real>, fronts: seq<seq<nat>>): map<nat, Distance>
    requires forall k :: 0 <= k < |fronts| ==> InRange(fronts[k], |sizes|) && InRange(fronts[k], |covs|)
  {
    if fronts == [] then map[]
    else Crowdings(sizes, covs, fronts[..|fronts| - 1]) + CrowdingOf(sizes, covs, fronts[|fronts| - 1])
  }

  lemma DisjointPrefix(fronts: seq<seq<nat>>, n: nat)
    requires PairwiseDisjoint(fronts) && n <= |fronts|
    ensures PairwiseDisjoint(fronts[..n])
  {
  }

  /** In disjoint fronts, a member's rank is the index of its front. */
  lemma {:induction false} RankIsFrontIndex(fronts: seq<seq<nat>>, k: nat, q: nat)
    requires PairwiseDisjoint(fronts) && k < |fronts| && q in fronts[k]
    ensures q in Ranks(fronts) && Ranks(fronts)[q] == k
  {
    var last := |fronts| - 1;
    var init := fronts[..last];
    if k < last {
      assert q !in fronts[last];
      DisjointPrefix(fronts, last);
      assert init[k] == fronts[k];
      RankIsFrontIndex(init, k, q);
    }
  }

  /** In disjoint fronts, a member's distance is the one computed within its own front. */
  lemma {:induction false} CrowdingIsFrontDistance(sizes: seq<real>, covs: seq<real>, fronts: seq<seq<nat>>, k: nat, q: nat)
    requires forall k :: 0 <= k < |fronts| ==> InRange(fronts[k], |sizes|) && InRange(fronts[k], |covs|)
    requires PairwiseDisjoint(fronts) && k < |fronts| && q in fronts[k]
    ensures q in Crowdings(sizes, covs, fronts)
    ensures Crowdings(sizes, covs, fronts)[q] == CrowdingOf(sizes, covs, fronts[k])[q]
  {
    var last := |fronts| - 1;
    var init := fronts[..last];
    if k < last {
      assert q !in Elements(fronts[last]);
      DisjointPrefix(fronts, last);
      assert init[k] == fronts[k];
      CrowdingIsFrontDistance(sizes, covs, init, k, q);
    }
  }
}
