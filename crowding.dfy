/**
 * The crowding distance of NSGA-II as a value: for every member of a front,
 * the sum over both objectives of the gap between its two neighbours in the
 * front sorted by that objective, relative to the objective's range. The
 * extreme members of either sort are at infinite distance.
 */
module Crowding {
  import opened Collections
  import opened Sorting

  /** A crowding distance: a non-negative double or `Double.POSITIVE_INFINITY`. */
  datatype Distance = Finite(value: real) | Infinite

  /** Addition on doubles where one summand may be positive infinity. */
  function Plus(d: Distance, e: Distance): (r: Distance)
    ensures r.Infinite? <==> d.Infinite? || e.Infinite?
  {
    if d.Infinite? || e.Infinite? then Infinite else Finite(d.value + e.value)
  }

  /** Adding a finite zero changes nothing; addition is commutative. */
  lemma PlusFacts(d: Distance, e: Distance)
    ensures Plus(d, Finite(0.0)) == d && Plus(Finite(0.0), d) == d
    ensures Plus(d, e) == Plus(e, d)
  {
  }

  /** The sort key of member q for one objective (`Comparator.comparingDouble`). */
  function Key(obj: seq<real>): (key: nat -> Ext)
    ensures forall q: nat :: q < |obj| ==> key(q) == Fin(obj[q])
  {
    (q: nat) => if q < |obj| then Fin(obj[q]) else NegInf
  }

  predicate InRange(order: seq<nat>, n: nat)
  {
    forall i :: 0 <= i < |order| ==> order[i] < n
  }

  /** The objective values of the members, in the given order. */
  function Along(obj: seq<real>, order: seq<nat>): (vals: seq<real>)
    requires InRange(order, |obj|)
    ensures |vals| == |order| && forall i :: 0 <= i < |order| ==> vals[i] == obj[order[i]]
  {
    seq(|order|, i requires 0 <= i < |order| => obj[order[i]])
  }

  predicate Ascending(vals: seq<real>)
  {
    forall i, j :: 0 <= i < j < |vals| ==> vals[i] <= vals[j]
  }

  /** An order sorted by the key of an objective lists that objective's values in ascending order. */
  lemma SortedAlong(obj: seq<real>, order: seq<nat>)
    requires InRange(order, |obj|) && SortedBy(order, Key(obj))
    ensures Ascending(Along(obj, order))
  {
    var vals := Along(obj, order);
    forall i, j | 0 <= i < j < |vals|
      ensures vals[i] <= vals[j]
    {
      assert !Less(Key(obj)(order[j]), Key(obj)(order[i]));
    }
  }

  /**
   * What the member at position i of an order sorted by one objective adds to
   * its distance: infinity at both ends, otherwise the gap between its
   * neighbours divided by the range, or nothing when the range is zero.
   */
  function Contribution(vals: seq<real>, i: nat): Distance
    requires i < |vals|
  {
    if i == 0 || i == |vals| - 1 then Infinite
    else
      var range := vals[|vals| - 1] - vals[0];
      if range > 0.0 then Finite((vals[i + 1] - vals[i - 1]) / range) else Finite(0.0)
  }

  /** Along ascending values, an interior contribution lies in [0, 1]; only the ends are infinite. */
  lemma ContributionBounds(vals: seq<real>, i: nat)
    requires Ascending(vals) && i < |vals|
    ensures Contribution(vals, i).Infinite? <==> i == 0 || i == |vals| - 1
    ensures Contribution(vals, i).Finite? ==> 0.0 <= Contribution(vals, i).value <= 1.0
  {
    var n := |vals|;
    if 0 < i < n - 1 {
      var range := vals[n - 1] - vals[0];
      if range > 0.0 {
        var gap := vals[i + 1] - vals[i - 1];
        assert 0.0 <= gap <= range;
        assert gap / range <= 1.0 by {
          assert gap / range * range == gap;
        }
      }
    }
  }

  /** The front sorted by size, then (stably) by coverage. */
  function BySize(sizes: seq<real>, front: seq<nat>): (order: seq<nat>)
    requires InRange(front, |sizes|)
    ensures |order| == |front| && multiset(order) == multiset(front) && InRange(order, |sizes|)
  {
    var order := SortBy(front, Key(sizes));
    assert forall i :: 0 <= i < |order| ==> order[i] in multiset(front);
    order
  }

  function ByCoverage(sizes: seq<real>, covs: seq<real>, front: seq<nat>): (order: seq<nat>)
    requires InRange(front, |sizes|) && InRange(front, |covs|)
    ensures |order| == |front| && multiset(order) == multiset(front) && InRange(order, |covs|)
  {
    var order := SortBy(BySize(sizes, front), Key(covs));
    assert forall i :: 0 <= i < |order| ==> order[i] in multiset(front);
    order
  }

  /** The crowding distance of member q of the front. */
  function DistanceOf(sizes: seq<real>, covs: seq<real>, front: seq<nat>, q: nat): Distance
    requires InRange(front, |sizes|) && InRange(front, |covs|) && q in front
  {
    var bySize := BySize(sizes, front);
    var byCov := ByCoverage(sizes, covs, front);
    assert q in multiset(bySize) && q in multiset(byCov);
    Plus(Contribution(Along(sizes, bySize), IndexOf(bySize, q)),
         Contribution(Along(covs, byCov), IndexOf(byCov, q)))
  }

  /** The crowding distances of a whole front. */
  function CrowdingOf(sizes: seq<real>, covs: seq<real>, front: seq<nat>): (m: map<nat, Distance>)
    requires InRange(front, |sizes|) && InRange(front, |covs|)
    ensures m.Keys == Elements(front)
  {
    map q | q in front :: DistanceOf(sizes, covs, front, q)
  }

  /** In a front of at most two members every distance is infinite. */
  lemma SmallFrontInfinite(sizes: seq<real>, covs: seq<real>, front: seq<nat>, q: nat)
    requires InRange(front, |sizes|) && InRange(front, |covs|) && |front| <= 2 && q in front
    ensures CrowdingOf(sizes, covs, front)[q] == Infinite
  {
    var bySize := BySize(sizes, front);
    assert q in multiset(bySize);
    assert |bySize| <= 2;
  }

  /** The first and the last member of either sort are at infinite distance. */
  lemma ExtremesInfinite(sizes: seq<real>, covs: seq<real>, front: seq<nat>, q: nat)
    requires InRange(front, |sizes|) && InRange(front, |covs|) && Distinct(front) && q in front
    requires var bySize, byCov := BySize(sizes, front), ByCoverage(sizes, covs, front);
      q == bySize[0] || q == bySize[|front| - 1] || q == byCov[0] || q == byCov[|front| - 1]
    ensures CrowdingOf(sizes, covs, front)[q] == Infinite
  {
    var bySize, byCov := BySize(sizes, front), ByCoverage(sizes, covs, front);
    var n := |front|;
    DistinctPermutation(front, bySize);
    DistinctPermutation(front, byCov);
    if q == bySize[0] || q == bySize[n - 1] {
      var j := if q == bySize[0] then 0 else n - 1;
      IndexOfDistinct(bySize, j);
      assert Contribution(Along(sizes, bySize), IndexOf(bySize, q)) == Infinite;
    } else {
      var j := if q == byCov[0] then 0 else n - 1;
      IndexOfDistinct(byCov, j);
      assert Contribution(Along(covs, byCov), IndexOf(byCov, q)) == Infinite;
    }
  }

  /** A finite crowding distance lies in [0, 2]: each objective adds at most the whole range. */
  lemma FiniteDistanceBounds(sizes: seq<real>, covs: seq<real>, front: seq<nat>, q: nat)
    requires InRange(front, |sizes|) && InRange(front, |covs|) && q in front
    ensures CrowdingOf(sizes, covs, front)[q].Finite? ==>
      0.0 <= CrowdingOf(sizes, covs, front)[q].value <= 2.0
  {
    var bySize, byCov := BySize(sizes, front), ByCoverage(sizes, covs, front);
    SortByIsSorted(front, Key(sizes));
    SortByIsSorted(bySize, Key(covs));
    SortedAlong(sizes, bySize);
    SortedAlong(covs, byCov);
    assert q in multiset(bySize) && q in multiset(byCov);
    ContributionBounds(Along(sizes, bySize), IndexOf(bySize, q));
    ContributionBounds(Along(covs, byCov), IndexOf(byCov, q));
  }
}
