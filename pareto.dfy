/**
 * Pareto dominance on the two objectives (test-suite size, minimized; line
 * coverage, maximized) and the layered structure of a population that the
 * fast non-dominated sort computes. Members of a population are identified by
 * their positions, as the source identifies them by object identity.
 */
module Pareto {
  import opened Collections

  /** The objective values of one member: size (lower is better) and coverage (higher is better). */
  datatype Obj = Obj(size: real, cov: real)

  /** `dominates(a, b)`: a is no worse in both objectives and strictly better in one. */
  predicate Dominates(a: Obj, b: Obj)
  {
    (a.size <= b.size && a.cov >= b.cov) && (a.size < b.size || a.cov > b.cov)
  }

  /** Dominance is a strict partial order: irreflexive, asymmetric and transitive. */
  lemma DominatesIsStrictOrder(a: Obj, b: Obj, c: Obj)
    ensures !Dominates(a, a)
    ensures Dominates(a, b) ==> !Dominates(b, a)
    ensures Dominates(a, b) && Dominates(b, c) ==> Dominates(a, c)
  {
  }

  /** No member of the sequence dominates another. */
  predicate MutuallyNonDominated(objs: seq<Obj>)
  {
    forall i, j :: 0 <= i < |objs| && 0 <= j < |objs| ==> !Dominates(objs[i], objs[j])
  }

  /** The positions of a population of n members. */
  function AllIdx(n: nat): (r: set<nat>)
    ensures forall i: int :: i in r <==> 0 <= i < n
    ensures |r| == n
  {
    if n == 0 then {} else AllIdx(n - 1) + {n - 1}
  }

  /** The positions of the other members that dominate member q. */
  ghost function Dominators(pts: seq<Obj>, q: nat): set<nat>
  {
    set p: nat | p < |pts| && p != q && q < |pts| && Dominates(pts[p], pts[q])
  }

  /**
   * The members outside `done` all of whose dominators are in `done`: the
   * front that follows the fronts whose union is `done`.
   */
  ghost function NextFront(pts: seq<Obj>, done: set<nat>): set<nat>
  {
    set q: nat | q < |pts| && q !in done && Dominators(pts, q) <= done
  }

  /** The union of fronts 0 .. k-1. */
  ghost function Below(pts: seq<Obj>, k: nat): set<nat>
  {
    if k == 0 then {} else Below(pts, k - 1) + NextFront(pts, Below(pts, k - 1))
  }

  /** Front k. */
  ghost function Layer(pts: seq<Obj>, k: nat): set<nat>
  {
    NextFront(pts, Below(pts, k))
  }

  lemma {:induction false} BelowInRange(pts: seq<Obj>, k: nat)
    ensures Below(pts, k) <= AllIdx(|pts|)
    ensures Layer(pts, k) <= AllIdx(|pts|)
  {
    if k > 0 {
      var prev := Below(pts, k - 1);
      BelowInRange(pts, k - 1);
      forall q | q in Below(pts, k)
        ensures q in AllIdx(|pts|)
      {
        if q !in prev {
          assert q in NextFront(pts, prev);
        }
      }
    }
    forall q | q in Layer(pts, k)
      ensures q in AllIdx(|pts|)
    {
      assert q < |pts|;
    }
  }

  lemma {:induction false} BelowMonotone(pts: seq<Obj>, j: nat, k: nat)
    requires j <= k
    ensures Below(pts, j) <= Below(pts, k)
    decreases k - j
  {
    if j < k {
      BelowMonotone(pts, j, k - 1);
    }
  }

  /** Distinct fronts share no member. */
  lemma LayersDisjoint(pts: seq<Obj>, j: nat, k: nat)
    requires j < k
    ensures Layer(pts, j) * Layer(pts, k) == {}
  {
    BelowMonotone(pts, j + 1, k);
  }

  /** Every non-empty set of members holds one that no other member of the set dominates. */
  lemma {:induction false} ExistsUndominated(pts: seq<Obj>, s: set<nat>)
    requires s != {} && s <= AllIdx(|pts|)
    ensures exists m :: m in s && Dominators(pts, m) * s == {}
    decreases |s|
  {
    var x :| x in s;
    if s == {x} {
      assert Dominators(pts, x) * s == {};
    } else {
      var rest := s - {x};
      ExistsUndominated(pts, rest);
      var m :| m in rest && Dominators(pts, m) * rest == {};
      if x in Dominators(pts, m) {
        forall p | p in Dominators(pts, x) * s
          ensures false
        {
          DominatesIsStrictOrder(pts[p], pts[x], pts[m]);
        }
        assert x in s && Dominators(pts, x) * s == {};
      } else {
        assert m in s && Dominators(pts, m) * s == {};
      }
    }
  }

  /** Some member outside `done` has all its dominators inside it, unless `done` holds every member. */
  lemma NextFrontNonEmpty(pts: seq<Obj>, done: set<nat>)
    requires done <= AllIdx(|pts|) && done != AllIdx(|pts|)
    ensures NextFront(pts, done) != {}
  {
    var rest := AllIdx(|pts|) - done;
    assert rest != {};
    ExistsUndominated(pts, rest);
    var m :| m in rest && Dominators(pts, m) * rest == {};
    forall p | p in Dominators(pts, m)
      ensures p in done
    {
      assert p in AllIdx(|pts|) && p !in rest;
    }
    assert m in NextFront(pts, done);
  }

  /** While some member is not yet in a front, the next front is not empty. */
  lemma LayerNonEmpty(pts: seq<Obj>, k: nat)
    requires Below(pts, k) != AllIdx(|pts|)
    ensures Layer(pts, k) != {}
  {
    BelowInRange(pts, k);
    NextFrontNonEmpty(pts, Below(pts, k));
  }

  /** Once a front comes out empty, the fronts before it hold every member. */
  lemma LayerEmptyAllDone(pts: seq<Obj>, k: nat)
    requires Layer(pts, k) == {}
    ensures Below(pts, k) == AllIdx(|pts|)
  {
    if Below(pts, k) != AllIdx(|pts|) {
      LayerNonEmpty(pts, k);
    }
  }

  /** Front k and the fronts before it make up the fronts before k + 1, without overlap. */
  lemma BelowStep(pts: seq<Obj>, k: nat)
    ensures Below(pts, k + 1) == Below(pts, k) + Layer(pts, k)
    ensures Below(pts, k) * Layer(pts, k) == {}
  {
  }

  lemma DisjointUnionGrows(a: set<nat>, b: set<nat>, c: set<nat>)
    requires c == a + b && a * b == {} && b != {}
    ensures |c| > |a|
  {
    var x :| x in b;
    assert |a + b| == |a| + |b|;
  }

  /** A non-empty front enlarges the union of the fronts. */
  lemma BelowGrows(pts: seq<Obj>, k: nat)
    requires Layer(pts, k) != {}
    ensures |Below(pts, k + 1)| > |Below(pts, k)|
  {
    BelowStep(pts, k);
    DisjointUnionGrows(Below(pts, k), Layer(pts, k), Below(pts, k + 1));
  }

  /** A member of the fronts before K lies in one of them. */
  lemma {:induction false} InSomeLayer(pts: seq<Obj>, big: nat, q: nat)
    requires q in Below(pts, big)
    ensures exists k :: 0 <= k < big && q in Layer(pts, k)
  {
    assert big > 0;
    var j := big - 1;
    assert j + 1 == big;
    BelowStep(pts, j);
    if q !in Layer(pts, j) {
      assert q in Below(pts, j);
      InSomeLayer(pts, j, q);
    }
  }

  /** Front 0 is exactly the set of members that no other member dominates. */
  lemma FirstFront(pts: seq<Obj>, q: nat)
    ensures q in Layer(pts, 0) <==> q < |pts| && Dominators(pts, q) == {}
  {
  }

  /** Every member of front k + 1 is dominated by some member of front k. */
  lemma DominatedByPreviousFront(pts: seq<Obj>, k: nat, q: nat)
    requires q in Layer(pts, k + 1)
    ensures exists p :: p in Layer(pts, k) && p < |pts| && Dominates(pts[p], pts[q])
  {
    assert q !in Layer(pts, k) && q !in Below(pts, k);
    var p :| p in Dominators(pts, q) && p !in Below(pts, k);
    assert p in Layer(pts, k);
  }

  /** No member of front k is dominated by a member of front k or of a later front. */
  lemma NotDominatedByLaterFronts(pts: seq<Obj>, k: nat, j: nat, q: nat, p: nat)
    requires k <= j && q in Layer(pts, k) && p in Layer(pts, j)
    ensures !Dominates(pts[p], pts[q])
  {
    BelowMonotone(pts, k, j);
    DominatesIsStrictOrder(pts[p], pts[q], pts[q]);
  }
}
