/**
 * The fast non-dominated sort of NSGA-II: count each member's dominators,
 * take the undominated members as front 0, then peel off one front at a
 * time by releasing the members each front dominates. Members are positions
 * in the population; the per-member lists and counters the source keeps in
 * identity maps are sequences indexed by position.
 */
module NondominatedSort {
  import opened Collections
  import opened Pareto

  /** The members at positions below j that dominate member p. */
  ghost function DominatorsBelow(pts: seq<Obj>, p: nat, j: nat): set<nat>
  {
    set q: nat | q < j && q < |pts| && q != p && p < |pts| && Dominates(pts[q], pts[p])
  }

  /** The number of dominators of q that are not yet in `done`: the counter the sort keeps for q. */
  ghost function Pending(pts: seq<Obj>, q: nat, done: set<nat>): nat
  {
    |Dominators(pts, q) - done|
  }

  /**
   * The inner loop of the first pass for member p: the members p dominates,
   * in population order, and the number of members that dominate p. The
   * `else if` of the source counts a dominator only when p does not dominate
   * it, which by asymmetry is every dominator.
   */
  method DominanceOf(pts: seq<Obj>, p: nat) returns (dominated: seq<nat>, count: nat)
    requires p < |pts|
    ensures Distinct(dominated)
    ensures forall q: nat :: q in dominated <==> q < |pts| && q != p && Dominates(pts[p], pts[q])
    ensures count == |Dominators(pts, p)|
  {
    dominated, count := [], 0;
    var j := 0;
    while j < |pts|
      invariant 0 <= j <= |pts|
      invariant forall a :: 0 <= a < |dominated| ==> dominated[a] < j
      invariant forall a, b :: 0 <= a < b < |dominated| ==> dominated[a] < dominated[b]
      invariant forall q: nat :: q in dominated <==> q < j && q != p && Dominates(pts[p], pts[q])
      invariant count == |DominatorsBelow(pts, p, j)|
    {
      if j != p {
        if Dominates(pts[p], pts[j]) {
          dominated := dominated + [j];
          DominatesIsStrictOrder(pts[p], pts[j], pts[j]);
          assert DominatorsBelow(pts, p, j + 1) == DominatorsBelow(pts, p, j);
        } else if Dominates(pts[j], pts[p]) {
          count := count + 1;
          assert DominatorsBelow(pts, p, j + 1) == DominatorsBelow(pts, p, j) + {j};
        } else {
          assert DominatorsBelow(pts, p, j + 1) == DominatorsBelow(pts, p, j);
        }
      } else {
        assert DominatorsBelow(pts, p, j + 1) == DominatorsBelow(pts, p, j);
      }
      j := j + 1;
    }
    assert DominatorsBelow(pts, p, j) == Dominators(pts, p);
  }

  /** The dominated lists of the first members of the population, as the first pass builds them. */
  ghost predicate TablePrefix(pts: seq<Obj>, dominated: seq<seq<nat>>)
  {
    |dominated| <= |pts| &&
    forall p :: 0 <= p < |dominated| ==>
      Distinct(dominated[p]) &&
      forall q: nat :: q in dominated[p] <==> q < |pts| && q != p && Dominates(pts[p], pts[q])
  }

  /** The dominated list of every member. */
  ghost predicate DominanceTable(pts: seq<Obj>, dominated: seq<seq<nat>>)
  {
    |dominated| == |pts| && TablePrefix(pts, dominated)
  }

  lemma TablePrefixSnoc(pts: seq<Obj>, dominated: seq<seq<nat>>, s: seq<nat>)
    requires TablePrefix(pts, dominated) && |dominated| < |pts|
    requires Distinct(s)
    requires forall q: nat :: q in s <==> q < |pts| && q != |dominated| && Dominates(pts[|dominated|], pts[q])
    ensures TablePrefix(pts, dominated + [s])
  {
    var d := dominated + [s];
    forall p | 0 <= p < |d|
      ensures Distinct(d[p]) &&
              forall q: nat :: q in d[p] <==> q < |pts| && q != p && Dominates(pts[p], pts[q])
    {
      if p < |dominated| {
        assert d[p] == dominated[p];
      }
    }
  }

  /** The counters of the first members, each the number of that member's dominators. */
  ghost predicate CountersPrefix(pts: seq<Obj>, counters: seq<nat>)
  {
    |counters| <= |pts| && forall q :: 0 <= q < |counters| ==> counters[q] == Pending(pts, q, {})
  }

  lemma CountersPrefixSnoc(pts: seq<Obj>, counters: seq<nat>, c: nat)
    requires CountersPrefix(pts, counters) && |counters| < |pts|
    requires c == |Dominators(pts, |counters|)|
    ensures CountersPrefix(pts, counters + [c])
  {
    assert Dominators(pts, |counters|) - {} == Dominators(pts, |counters|);
  }

  /** Front 0 so far: the undominated members before position p, in population order. */
  ghost predicate FirstPrefix(pts: seq<Obj>, first: seq<nat>, p: nat)
  {
    |first| <= p &&
    (forall a, b :: 0 <= a < b < |first| ==> first[a] < first[b]) &&
    (forall a :: 0 <= a < |first| ==> first[a] < p) &&
    forall q: nat :: q in first <==> q < p && Dominators(pts, q) == {}
  }

  lemma FirstPrefixStep(pts: seq<Obj>, first: seq<nat>, p: nat, c: nat)
    requires FirstPrefix(pts, first, p) && c == |Dominators(pts, p)|
    ensures FirstPrefix(pts, if c == 0 then first + [p] else first, p + 1)
  {
  }

  /** Front 0 is the set of undominated members. */
  lemma FirstPrefixIsLayer(pts: seq<Obj>, first: seq<nat>)
    requires FirstPrefix(pts, first, |pts|)
    ensures Distinct(first) && Elements(first) == Layer(pts, 0)
  {
    forall q: nat
      ensures q in Elements(first) <==> q in Layer(pts, 0)
    {
      FirstFront(pts, q);
    }
  }

  /** The first pass: dominated lists, dominator counters and front 0 in population order. */
  method FirstPass(pts: seq<Obj>) returns (dominated: seq<seq<nat>>, counters: seq<nat>, first: seq<nat>)
    ensures DominanceTable(pts, dominated)
    ensures |counters| == |pts| && forall q :: 0 <= q < |pts| ==> counters[q] == Pending(pts, q, {})
    ensures Distinct(first) && Elements(first) == Layer(pts, 0)
    ensures |pts| == 0 ==> first == []
  {
    dominated, counters, first := [], [], [];
    var p := 0;
    while p < |pts|
      invariant 0 <= p <= |pts| && |dominated| == p && |counters| == p
      invariant TablePrefix(pts, dominated)
      invariant CountersPrefix(pts, counters)
      invariant FirstPrefix(pts, first, p)
    {
      var s, c := DominanceOf(pts, p);
      TablePrefixSnoc(pts, dominated, s);
      CountersPrefixSnoc(pts, counters, c);
      FirstPrefixStep(pts, first, p, c);
      dominated, counters := dominated + [s], counters + [c];
      if c == 0 {
        first := first + [p];
      }
      p := p + 1;
    }
    FirstPrefixIsLayer(pts, first);
  }

  /** Releasing member p, which has just joined the finished fronts, lowers each counter by one per dominated member. */
  lemma PendingRelease(pts: seq<Obj>, q: nat, done: set<nat>, p: nat)
    requires p < |pts| && p !in done
    ensures Pending(pts, q, done + {p}) ==
            Pending(pts, q, done) - (if q < |pts| && p != q && Dominates(pts[p], pts[q]) then 1 else 0)
  {
    var d := Dominators(pts, q) - done;
    assert Dominators(pts, q) - (done + {p}) == d - {p};
    if q < |pts| && p != q && Dominates(pts[p], pts[q]) {
      assert p in d;
    } else {
      assert p !in d;
    }
  }

  /**
   * The inner loop over `S.get(p)`: the counter of every member p dominates
   * is lowered by one, and each member whose counter reaches zero is appended
   * to `next`. `open[q]` says that q had dominators outside the finished
   * fronts when the current front started.
   */
  method Release(dominated: seq<nat>, counters: seq<nat>, next: seq<nat>, ghost open: seq<bool>)
    returns (counters': seq<nat>, next': seq<nat>)
    requires |open| == |counters| && Distinct(dominated)
    requires forall b :: 0 <= b < |dominated| ==>
      dominated[b] < |counters| && counters[dominated[b]] > 0 && open[dominated[b]]
    requires Distinct(next)
    requires forall q: nat :: q in next <==> q < |counters| && counters[q] == 0 && open[q]
    ensures |counters'| == |counters|
    ensures forall q :: 0 <= q < |counters| ==> counters'[q] == counters[q] - (if q in dominated then 1 else 0)
    ensures Distinct(next')
    ensures forall q: nat :: q in next' <==> q < |counters| && counters'[q] == 0 && open[q]
  {
    counters', next' := counters, next;
    var b := 0;
    while b < |dominated|
      invariant 0 <= b <= |dominated| && |counters'| == |counters|
      invariant forall q :: 0 <= q < |counters| ==>
        counters'[q] == counters[q] - (if q in dominated[..b] then 1 else 0)
      invariant Distinct(next')
      invariant forall q: nat :: q in next' <==> q < |counters| && counters'[q] == 0 && open[q]
    {
      var q := dominated[b];
      assert q !in dominated[..b];
      assert dominated[..b + 1] == dominated[..b] + [q];
      counters' := counters'[q := counters'[q] - 1];
      if counters'[q] == 0 {
        next' := next' + [q];
      }
      b := b + 1;
    }
    assert dominated[..b] == dominated;
  }

  /** A dominator outside `done` keeps the counter positive. */
  lemma PendingPositive(pts: seq<Obj>, q: nat, done: set<nat>, p: nat)
    requires p in Dominators(pts, q) && p !in done
    ensures Pending(pts, q, done) > 0
  {
    assert p in Dominators(pts, q) - done;
  }

  /** The counter is zero exactly when every dominator is in `done`. */
  lemma PendingZero(pts: seq<Obj>, q: nat, done: set<nat>)
    ensures Pending(pts, q, done) == 0 <==> Dominators(pts, q) <= done
  {
    var rest := Dominators(pts, q) - done;
    if Pending(pts, q, done) == 0 {
      assert |rest| == 0;
      forall x | x in Dominators(pts, q)
        ensures x in done
      {
        assert x !in rest;
      }
    } else {
      var p :| p in Dominators(pts, q) - done;
    }
  }

  /** A member of the fronts up to k has all its dominators in the fronts before k. */
  lemma {:induction false} BelowClosed(pts: seq<Obj>, k: nat, q: nat)
    requires q in Below(pts, k + 1)
    ensures Dominators(pts, q) <= Below(pts, k)
  {
    BelowStep(pts, k);
    if q in Layer(pts, k) {
      assert q in NextFront(pts, Below(pts, k));
    } else {
      assert q in Below(pts, k) && k > 0;
      var j := k - 1;
      assert j + 1 == k;
      assert q in Below(pts, j + 1);
      BelowClosed(pts, j, q);
      assert Dominators(pts, q) <= Below(pts, j);
      BelowMonotone(pts, j, k);
      assert Below(pts, j) <= Below(pts, k);
    }
  }

  /**
   * Front k + 1 holds exactly the members all of whose dominators are in the
   * fronts up to k, some of them in front k itself.
   */
  lemma NextFrontByDominators(pts: seq<Obj>, k: nat, q: nat)
    ensures q in Layer(pts, k + 1) <==>
            Dominators(pts, q) <= Below(pts, k + 1) && !(Dominators(pts, q) <= Below(pts, k))
  {
    BelowStep(pts, k);
    var d := Dominators(pts, q);
    if d <= Below(pts, k + 1) && !(d <= Below(pts, k)) {
      if q in Below(pts, k + 1) {
        BelowClosed(pts, k, q);
      }
      assert q < |pts|;
    }
    if q in Layer(pts, k + 1) {
      assert q !in Layer(pts, k);
    }
  }

  /** After releasing p, the lowered counters are the counters with p among the finished members. */
  lemma ReleasedCounters(pts: seq<Obj>, dominatedByP: seq<nat>, p: nat, done: set<nat>,
                         before: seq<nat>, after: seq<nat>)
    requires p < |pts| && p !in done && |before| == |pts| && |after| == |pts|
    requires forall q: nat :: q in dominatedByP <==> q < |pts| && q != p && Dominates(pts[p], pts[q])
    requires forall q :: 0 <= q < |pts| ==> before[q] == Pending(pts, q, done)
    requires forall q :: 0 <= q < |pts| ==> after[q] == before[q] as int - (if q in dominatedByP then 1 else 0)
    ensures forall q :: 0 <= q < |pts| ==> after[q] == Pending(pts, q, done + {p})
  {
    forall q | 0 <= q < |pts|
      ensures after[q] == Pending(pts, q, done + {p})
    {
      PendingRelease(pts, q, done, p);
    }
  }

  lemma UnionStep(start: set<nat>, e: set<nat>, e': set<nat>, p: nat)
    requires e' == e + {p}
    ensures start + e' == (start + e) + {p}
  {
  }

  /**
   * The release of member p of the current front. `done` is the set of the
   * members released so far, `start` the set before the current front, and
   * `open[q]` says whether q still had dominators outside `start`.
   */
  method ReleaseMember(pts: seq<Obj>, dominated: seq<seq<nat>>, p: nat, counters: seq<nat>, next: seq<nat>,
                       ghost start: set<nat>, ghost done: set<nat>, ghost open: seq<bool>)
    returns (counters': seq<nat>, next': seq<nat>)
    requires DominanceTable(pts, dominated) && p < |pts| && p !in done && start <= done
    requires |open| == |pts| && forall q :: 0 <= q < |pts| ==> open[q] == (Pending(pts, q, start) > 0)
    requires |counters| == |pts| && forall q :: 0 <= q < |pts| ==> counters[q] == Pending(pts, q, done)
    requires Distinct(next) && forall q: nat :: q in next <==> q < |pts| && counters[q] == 0 && open[q]
    ensures |counters'| == |pts| && forall q :: 0 <= q < |pts| ==> counters'[q] == Pending(pts, q, done + {p})
    ensures Distinct(next') && forall q: nat :: q in next' <==> q < |pts| && counters'[q] == 0 && open[q]
  {
    var s := dominated[p];
    forall b | 0 <= b < |s|
      ensures s[b] < |pts| && counters[s[b]] > 0 && open[s[b]]
    {
      assert s[b] in s;
      PendingPositive(pts, s[b], done, p);
      PendingPositive(pts, s[b], start, p);
    }
    counters', next' := Release(s, counters, next, open);
    ReleasedCounters(pts, s, p, done, counters, counters');
  }

  /** The members whose counter fell to zero during the release of front i are front i + 1. */
  lemma ZeroedAreNextFront(pts: seq<Obj>, i: nat, counters: seq<nat>, next: seq<nat>, open: seq<bool>)
    requires |open| == |pts| && forall q :: 0 <= q < |pts| ==> open[q] == (Pending(pts, q, Below(pts, i)) > 0)
    requires |counters| == |pts| && forall q :: 0 <= q < |pts| ==> counters[q] == Pending(pts, q, Below(pts, i + 1))
    requires forall q: nat :: q in next <==> q < |pts| && counters[q] == 0 && open[q]
    ensures Elements(next) == Layer(pts, i + 1)
  {
    forall q: nat
      ensures q in Elements(next) <==> q in Layer(pts, i + 1)
    {
      if q < |pts| {
        NextFrontByDominators(pts, i, q);
        PendingZero(pts, q, Below(pts, i + 1));
        PendingZero(pts, q, Below(pts, i));
      } else {
        BelowInRange(pts, i + 1);
      }
    }
  }

  /**
   * The release of front i: every member of the front is released in order,
   * and the members whose counter falls to zero, in the order they do, make
   * up the next front.
   */
  method ReleaseFront(pts: seq<Obj>, dominated: seq<seq<nat>>, front: seq<nat>, i: nat, counters: seq<nat>)
    returns (counters': seq<nat>, next: seq<nat>)
    requires DominanceTable(pts, dominated)
    requires Distinct(front) && Elements(front) == Layer(pts, i)
    requires |counters| == |pts| && forall q :: 0 <= q < |pts| ==> counters[q] == Pending(pts, q, Below(pts, i))
    ensures |counters'| == |pts| && forall q :: 0 <= q < |pts| ==> counters'[q] == Pending(pts, q, Below(pts, i + 1))
    ensures Distinct(next) && Elements(next) == Layer(pts, i + 1)
  {
    ghost var start := Below(pts, i);
    ghost var open := seq(|pts|, q requires 0 <= q < |pts| => Pending(pts, q, start) > 0);
    counters', next := counters, [];
    ghost var done := start;
    var a := 0;
    while a < |front|
      invariant 0 <= a <= |front| && |counters'| == |pts|
      invariant done == start + Elements(front[..a])
      invariant forall q :: 0 <= q < |pts| ==> counters'[q] == Pending(pts, q, done)
      invariant Distinct(next)
      invariant forall q: nat :: q in next <==> q < |pts| && counters'[q] == 0 && open[q]
    {
      var p := front[a];
      assert p in Layer(pts, i) && p !in front[..a];
      BelowStep(pts, i);
      assert p !in done;
      counters', next := ReleaseMember(pts, dominated, p, counters', next, start, done, open);
      ElementsPrefixStep(front, a);
      UnionStep(start, Elements(front[..a]), Elements(front[..a + 1]), p);
      done := done + {p};
      a := a + 1;
    }
    ElementsWhole(front);
    BelowStep(pts, i);
    assert done == Below(pts, i + 1);
    ZeroedAreNextFront(pts, i, counters', next, open);
  }

  /** Front k of the list holds exactly the members of layer k, each once. */
  ghost predicate Layered(pts: seq<Obj>, fronts: seq<seq<nat>>)
  {
    forall k :: 0 <= k < |fronts| ==> Distinct(fronts[k]) && Elements(fronts[k]) == Layer(pts, k)
  }

  lemma LayeredSnoc(pts: seq<Obj>, fronts: seq<seq<nat>>, next: seq<nat>)
    requires Layered(pts, fronts) && Distinct(next) && Elements(next) == Layer(pts, |fronts|)
    ensures Layered(pts, fronts + [next])
  {
    var f := fronts + [next];
    forall k | 0 <= k < |f|
      ensures Distinct(f[k]) && Elements(f[k]) == Layer(pts, k)
    {
      if k < |fronts| {
        assert f[k] == fronts[k];
      }
    }
  }

  /**
   * One round of the outer loop: release front i and return the next front,
   * empty when there is none. The finished fronts grow by at least one member.
   */
  method NextRound(pts: seq<Obj>, dominated: seq<seq<nat>>, front: seq<nat>, i: nat, counters: seq<nat>)
    returns (next: seq<nat>, counters': seq<nat>)
    requires DominanceTable(pts, dominated)
    requires |front| > 0 && Distinct(front) && Elements(front) == Layer(pts, i)
    requires |counters| == |pts| && forall q :: 0 <= q < |pts| ==> counters[q] == Pending(pts, q, Below(pts, i))
    ensures Distinct(next) && Elements(next) == Layer(pts, i + 1)
    ensures |counters'| == |pts| && forall q :: 0 <= q < |pts| ==> counters'[q] == Pending(pts, q, Below(pts, i + 1))
    ensures |Below(pts, i)| < |Below(pts, i + 1)| <= |pts|
  {
    assert front[0] in Layer(pts, i);
    BelowGrows(pts, i);
    counters', next := ReleaseFront(pts, dominated, front, i, counters);
    BelowInRange(pts, i + 1);
    BoundedCard(Below(pts, i + 1), |pts|);
  }

  /** Every front in the list has a member. */
  predicate NoEmptyFront(fronts: seq<seq<nat>>)
  {
    forall k :: 0 <= k < |fronts| ==> |fronts[k]| > 0
  }

  lemma NoEmptyFrontSnoc(fronts: seq<seq<nat>>, next: seq<nat>)
    requires NoEmptyFront(fronts) && |next| > 0
    ensures NoEmptyFront(fronts + [next])
  {
  }

  /** Front 0 of a non-empty population is not empty. */
  lemma FirstFrontNonEmpty(pts: seq<Obj>, first: seq<nat>)
    requires |pts| > 0 && Elements(first) == Layer(pts, 0)
    ensures |first| > 0
  {
    BelowInRange(pts, 0);
    LayerNonEmpty(pts, 0);
    var x :| x in Layer(pts, 0);
    assert x in Elements(first);
  }

  /** A front given by an empty list is an empty layer. */
  lemma EmptyElementsLayer(pts: seq<Obj>, k: nat, s: seq<nat>)
    requires s == [] && Elements(s) == Layer(pts, k)
    ensures Layer(pts, k) == {}
  {
  }

  /**
   * The outer loop: rounds of release until the round that finds no next
   * front. `fronts` starts as the one-element list holding front 0.
   */
  method Rounds(pts: seq<Obj>, dominated: seq<seq<nat>>, first: seq<nat>, counters: seq<nat>)
    returns (fronts: seq<seq<nat>>)
    requires DominanceTable(pts, dominated)
    requires Distinct(first) && Elements(first) == Layer(pts, 0) && (|pts| == 0 ==> first == [])
    requires |counters| == |pts| && forall q :: 0 <= q < |pts| ==> counters[q] == Pending(pts, q, Below(pts, 0))
    ensures |fronts| >= 1 && fronts[0] == first
    ensures |pts| > 0 ==> NoEmptyFront(fronts)
    ensures Layered(pts, fronts)
    ensures |pts| > 0 ==> Layer(pts, |fronts|) == {}
    ensures |pts| == 0 ==> |fronts| == 1
  {
    fronts := [first];
    if |pts| > 0 {
      FirstFrontNonEmpty(pts, first);
    }
    var i := 0;
    var c := counters;
    while i < |fronts| && |fronts[i]| > 0
      invariant 1 <= |fronts| && i <= |fronts| <= i + 1 && fronts[0] == first
      invariant |pts| == 0 ==> i == 0 && |fronts| == 1
      invariant |pts| > 0 ==> NoEmptyFront(fronts)
      invariant Layered(pts, fronts)
      invariant |fronts| == i ==> Layer(pts, i) == {}
      invariant |c| == |pts| && forall q :: 0 <= q < |pts| ==> c[q] == Pending(pts, q, Below(pts, i))
      invariant |Below(pts, i)| <= |pts|
      decreases |pts| - |Below(pts, i)|
    {
      var next;
      next, c := NextRound(pts, dominated, fronts[i], i, c);
      if |next| > 0 {
        LayeredSnoc(pts, fronts, next);
        if |pts| > 0 {
          NoEmptyFrontSnoc(fronts, next);
        }
        fronts := fronts + [next];
      } else {
        EmptyElementsLayer(pts, i + 1, next);
      }
      i := i + 1;
    }
  }

  /** Member q appears in some front of the list. */
  predicate InSomeFront(fronts: seq<seq<nat>>, q: nat)
  {
    exists k :: 0 <= k < |fronts| && q in fronts[k]
  }

  /** Every member is in exactly one front, and fronts hold members only. */
  predicate Partition(pts: seq<Obj>, fronts: seq<seq<nat>>)
  {
    (forall q: nat :: q < |pts| ==> InSomeFront(fronts, q)) &&
    (forall k, q :: 0 <= k < |fronts| && q in fronts[k] ==> q < |pts|) &&
    (forall k, l, q :: 0 <= k < l < |fronts| && q in fronts[k] ==> q !in fronts[l])
  }

  lemma LayeredCovers(pts: seq<Obj>, fronts: seq<seq<nat>>, q: nat)
    requires Layered(pts, fronts) && Below(pts, |fronts|) == AllIdx(|pts|) && q < |pts|
    ensures InSomeFront(fronts, q)
  {
    assert q in AllIdx(|pts|);
    InSomeLayer(pts, |fronts|, q);
    var k :| 0 <= k < |fronts| && q in Layer(pts, k);
    assert q in Elements(fronts[k]);
  }

  lemma LayeredInRange(pts: seq<Obj>, fronts: seq<seq<nat>>, k: nat, q: nat)
    requires Layered(pts, fronts) && k < |fronts| && q in fronts[k]
    ensures q < |pts|
  {
    assert q in Elements(fronts[k]);
    BelowInRange(pts, k);
  }

  lemma LayeredDisjoint(pts: seq<Obj>, fronts: seq<seq<nat>>, k: nat, l: nat, q: nat)
    requires Layered(pts, fronts) && k < l < |fronts| && q in fronts[k]
    ensures q !in fronts[l]
  {
    assert q in Elements(fronts[k]);
    assert q in Layer(pts, k);
    LayersDisjoint(pts, k, l);
    assert q !in Layer(pts, k) * Layer(pts, l);
    assert q !in Layer(pts, l);
    assert Elements(fronts[l]) == Layer(pts, l);
    assert q !in Elements(fronts[l]);
  }

  lemma LayeredPartition(pts: seq<Obj>, fronts: seq<seq<nat>>)
    requires Layered(pts, fronts) && Below(pts, |fronts|) == AllIdx(|pts|)
    ensures Partition(pts, fronts)
  {
    forall q: nat | q < |pts|
      ensures InSomeFront(fronts, q)
    {
      LayeredCovers(pts, fronts, q);
    }
    forall k, q | 0 <= k < |fronts| && q in fronts[k]
      ensures q < |pts|
    {
      LayeredInRange(pts, fronts, k, q);
    }
    forall k, l, q | 0 <= k < l < |fronts| && q in fronts[k]
      ensures q !in fronts[l]
    {
      LayeredDisjoint(pts, fronts, k, l, q);
    }
  }

  /**
   * `fastNonDominatedSort`: the fronts in order. Front k holds exactly the
   * members of layer k, each once, and together the fronts hold every member.
   * Every front is non-empty, except that an empty population gives one
   * empty front.
   */
  method FastNonDominatedSort(pts: seq<Obj>) returns (fronts: seq<seq<nat>>)
    ensures |pts| == 0 ==> fronts == [[]]
    ensures |fronts| >= 1
    ensures |pts| > 0 ==> NoEmptyFront(fronts)
    ensures Layered(pts, fronts)
    ensures Below(pts, |fronts|) == AllIdx(|pts|)
    ensures Partition(pts, fronts)
  {
    var dominated, counters, first := FirstPass(pts);
    fronts := Rounds(pts, dominated, first, counters);
    BelowInRange(pts, |fronts|);
    LayerEmptyAllDone(pts, |fronts|);
    LayeredPartition(pts, fronts);
  }
}
