/**
 * The two-dimensional hyper-volume of a front: the front's points (f1, f2)
 * are sorted by ascending f1 and swept from left to right, each point adding
 * the rectangle between the previous f1 value and its own, as high as its
 * distance below the reference value r2.
 */
module HyperVolume {
  import opened Wrappers
  import opened Sorting
  import opened FitnessFunctions

  /** The coordinates of one member of the front. */
  datatype Point = Point(f1: real, f2: real)

  /** The sort key of `Comparator.comparingDouble(p -> p[0])`. */
  function ByF1(): (key: Point -> Ext)
    ensures forall p :: key(p) == Fin(p.f1)
  {
    (p: Point) => Fin(p.f1)
  }

  /** The rectangle a point adds after the previous f1 value: nothing unless both sides are positive. */
  function Slab(p: Point, prev: real, r2: real): (area: real)
    ensures area >= 0.0
    ensures area > 0.0 <==> p.f1 > prev && p.f2 < r2
  {
    var width, height := p.f1 - prev, r2 - p.f2;
    if width > 0.0 && height > 0.0 then width * height else 0.0
  }

  /** The sweep from the previous f1 value `prev` over the points in order. */
  function Sweep(points: seq<Point>, prev: real, r2: real): (hv: real)
    ensures hv >= 0.0
  {
    if points == [] then 0.0 else Slab(points[0], prev, r2) + Sweep(points[1..], points[0].f1, r2)
  }

  /** The points `(f1(c), f2(c))` of the members of the front, in order. */
  function PointsOf<C>(front: seq<C>, f1: FitnessFunction<C>, f2: FitnessFunction<C>): (points: seq<Point>)
    ensures |points| == |front|
    ensures forall i :: 0 <= i < |front| ==> points[i] == Point(f1.apply(front[i]), f2.apply(front[i]))
  {
    seq(|front|, i requires 0 <= i < |front| => Point(f1.apply(front[i]), f2.apply(front[i])))
  }

  /**
   * `computeHyperVolume(front, f1, f2, r1, r2)`: zero for a null (`None`) or
   * empty front, otherwise the sweep over the points stably sorted by f1,
   * starting at r1.
   */
  function HyperVolumeOf<C>(front: Option<seq<C>>, f1: FitnessFunction<C>, f2: FitnessFunction<C>, r1: real, r2: real): real
  {
    match front
    case None => 0.0
    case Some(s) => if |s| == 0 then 0.0 else Sweep(SortBy(PointsOf(s, f1, f2), ByF1()), r1, r2)
  }

  /** A null or empty front has volume 0, and no front has a negative volume. */
  lemma HyperVolumeBasics<C>(front: Option<seq<C>>, f1: FitnessFunction<C>, f2: FitnessFunction<C>, r1: real, r2: real)
    ensures front == None || front == Some([]) ==> HyperVolumeOf(front, f1, f2, r1, r2) == 0.0
    ensures HyperVolumeOf(front, f1, f2, r1, r2) >= 0.0
  {
  }

  /** A single point (c, s) measured from (0, 1) with c > 0 and s < 1 spans the rectangle c * (1 - s). */
  lemma SinglePoint<C>(x: C, f1: FitnessFunction<C>, f2: FitnessFunction<C>)
    requires f1.apply(x) > 0.0 && f2.apply(x) < 1.0
    ensures HyperVolumeOf(Some([x]), f1, f2, 0.0, 1.0) == f1.apply(x) * (1.0 - f2.apply(x))
  {
    var points := PointsOf([x], f1, f2);
    SortByOfSorted(points, ByF1());
    assert Sweep(points, 0.0, 1.0) == Slab(points[0], 0.0, 1.0) + Sweep([], points[0].f1, 1.0);
  }

  /** A rectangle of height at most 1 is no larger than its width. */
  lemma ShortRectangle(width: real, height: real)
    requires 0.0 < width && 0.0 < height <= 1.0
    ensures width * height <= width
  {
    assert width - width * height == width * (1.0 - height);
  }

  /** A slab at most 1 high is no wider than the gap it spans. */
  lemma SlabAtMostWidth(p: Point, prev: real, r2: real)
    requires prev <= p.f1 && r2 - 1.0 <= p.f2
    ensures Slab(p, prev, r2) <= p.f1 - prev
  {
    var width, height := p.f1 - prev, r2 - p.f2;
    if width > 0.0 && height > 0.0 {
      assert height <= 1.0;
      ShortRectangle(width, height);
      assert Slab(p, prev, r2) == width * height;
    }
  }

  /**
   * Sweeping ascending points that lie between `prev` and `hi` in f1 and are
   * at most 1 below the reference r2 covers at most the width hi - prev.
   */
  lemma {:induction false} SweepAtMostWidth(points: seq<Point>, prev: real, hi: real, r2: real)
    requires prev <= hi
    requires forall i, j :: 0 <= i < j < |points| ==> points[i].f1 <= points[j].f1
    requires forall i :: 0 <= i < |points| ==> prev <= points[i].f1 <= hi && r2 - 1.0 <= points[i].f2
    ensures Sweep(points, prev, r2) <= hi - prev
  {
    if points != [] {
      var p := points[0];
      SweepAtMostWidth(points[1..], p.f1, hi, r2);
      assert Sweep(points, prev, r2) == Slab(p, prev, r2) + Sweep(points[1..], p.f1, r2);
      assert prev <= p.f1 && r2 - 1.0 <= p.f2;
      SlabAtMostWidth(p, prev, r2);
    }
  }

  /** With every objective value in [0, 1] and the reference point (0, 1), the volume is at most 1. */
  lemma HyperVolumeAtMostOne<C>(front: seq<C>, f1: FitnessFunction<C>, f2: FitnessFunction<C>)
    requires forall c :: c in front ==> 0.0 <= f1.apply(c) <= 1.0 && 0.0 <= f2.apply(c) <= 1.0
    ensures HyperVolumeOf(Some(front), f1, f2, 0.0, 1.0) <= 1.0
  {
    if |front| > 0 {
      var points := PointsOf(front, f1, f2);
      var sorted := SortBy(points, ByF1());
      SortByIsSorted(points, ByF1());
      forall i | 0 <= i < |sorted|
        ensures 0.0 <= sorted[i].f1 <= 1.0 && 0.0 <= sorted[i].f2
      {
        assert sorted[i] in multiset(points);
        var k :| 0 <= k < |points| && points[k] == sorted[i];
        assert front[k] in front;
      }
      forall i, j | 0 <= i < j < |sorted|
        ensures sorted[i].f1 <= sorted[j].f1
      {
        assert !Less(ByF1()(sorted[j]), ByF1()(sorted[i]));
      }
      SweepAtMostWidth(sorted, 0.0, 1.0, 1.0);
    }
  }

  /**
   * The front of the two members (0.2, 0.8) and (0.6, 0.4), measured from
   * (0, 1), has the volume 0.2 * 0.2 + 0.4 * 0.6.
   */
  lemma TwoPoints()
    ensures Sweep(SortBy([Point(0.2, 0.8), Point(0.6, 0.4)], ByF1()), 0.0, 1.0) == 0.28
  {
    var points := [Point(0.2, 0.8), Point(0.6, 0.4)];
    SortByOfSorted(points, ByF1());
    assert Sweep(points, 0.0, 1.0) == 0.04 + Sweep(points[1..], 0.2, 1.0);
    assert Sweep(points[1..], 0.2, 1.0) == 0.24 + Sweep([], 0.6, 1.0);
  }

  /**
   * `computeHyperVolume`: the points are collected in one loop, sorted by f1,
   * and swept with the accumulators `hyperVolume` and `prevF1`.
   */
  method ComputeHyperVolume<C>(front: Option<seq<C>>, f1: FitnessFunction<C>, f2: FitnessFunction<C>, r1: real, r2: real)
    returns (hyperVolume: real)
    ensures hyperVolume == HyperVolumeOf(front, f1, f2, r1, r2)
  {
    if front.None? || |front.value| == 0 {
      return 0.0;
    }
    var collected := CollectPoints(front.value, f1, f2);
    var points := SortBy(collected, ByF1());
    hyperVolume := SweepLeftToRight(points, r1, r2);
  }

  /** The loop that fills `points[i] = {f1(c), f2(c)}` for every member c of the front. */
  method CollectPoints<C>(s: seq<C>, f1: FitnessFunction<C>, f2: FitnessFunction<C>) returns (points: seq<Point>)
    ensures points == PointsOf(s, f1, f2)
  {
    var collected := new Point[|s|];
    for i := 0 to |s|
      invariant forall k :: 0 <= k < i ==> collected[k] == Point(f1.apply(s[k]), f2.apply(s[k]))
    {
      collected[i] := Point(f1.apply(s[i]), f2.apply(s[i]));
    }
    points := collected[..];
  }

  /** The sweep loop: each point adds its slab when both its width and its height are positive. */
  method SweepLeftToRight(points: seq<Point>, r1: real, r2: real) returns (hyperVolume: real)
    ensures hyperVolume == Sweep(points, r1, r2)
  {
    hyperVolume := 0.0;
    var prevF1 := r1;
    for i := 0 to |points|
      invariant hyperVolume + Sweep(points[i..], prevF1, r2) == Sweep(points, r1, r2)
    {
      var currF1, currF2 := points[i].f1, points[i].f2;
      var width, height := currF1 - prevF1, r2 - currF2;
      assert Sweep(points[i..], prevF1, r2) == Slab(points[i], prevF1, r2) + Sweep(points[i + 1..], currF1, r2) by {
        assert points[i..][1..] == points[i + 1..];
      }
      if width > 0.0 && height > 0.0 {
        hyperVolume := hyperVolume + width * height;
      }
      prevF1 := currF1;
    }
    assert points[|points|..] == [];
  }
}
