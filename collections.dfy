/** Facts about sequences of distinct elements used by several components. */
module Collections {

  predicate Distinct<T(==)>(s: seq<T>)
  {
    forall a, b :: 0 <= a < b < |s| ==> s[a] != s[b]
  }

  /** The set of the elements of a sequence. */
  function Elements<T>(s: seq<T>): set<T>
  {
    set x | x in s
  }

  /** A sequence without repetitions has as many elements as its set. */
  lemma {:induction false} DistinctCard<T>(s: seq<T>)
    requires Distinct(s)
    ensures |Elements(s)| == |s|
  {
    if s != [] {
      var t := s[..|s| - 1];
      DistinctCard(t);
      assert Elements(s) == Elements(t) + {s[|s| - 1]};
      assert s[|s| - 1] !in Elements(t);
    }
  }

  /** A set of naturals below n has at most n elements. */
  lemma {:induction false} BoundedCard(xs: set<nat>, n: nat)
    requires forall x :: x in xs ==> x < n
    ensures |xs| <= n
  {
    if n > 0 {
      BoundedCard(xs - {n - 1}, n - 1);
    } else {
      assert xs == {};
    }
  }

  /** Exchanging two positions keeps a sequence free of repetitions. */
  lemma SwapDistinct<T>(s: seq<T>, i: nat, j: nat)
    requires Distinct(s) && i < |s| && j < |s|
    ensures Distinct(s[i := s[j]][j := s[i]])
  {
  }

  /** Extending a prefix by one element adds that element to the prefix's set. */
  lemma ElementsPrefixStep<T>(s: seq<T>, a: nat)
    requires a < |s|
    ensures Elements(s[..a + 1]) == Elements(s[..a]) + {s[a]}
  {
    assert s[..a + 1] == s[..a] + [s[a]];
  }

  /** The longest prefix is the whole sequence. */
  lemma ElementsWhole<T>(s: seq<T>)
    ensures Elements(s[..|s|]) == Elements(s)
  {
    assert s[..|s|] == s;
  }

  /** In a sequence without repetitions every value occurs at most once. */
  lemma {:induction false} DistinctOnce<T>(s: seq<T>)
    requires Distinct(s)
    ensures forall x :: multiset(s)[x] <= 1
  {
    if s != [] {
      var t, y := s[..|s| - 1], s[|s| - 1];
      DistinctOnce(t);
      assert s == t + [y];
      assert y !in t;
      assert multiset(s) == multiset(t) + multiset{y};
    }
  }

  /** A value found at two different positions occurs at least twice. */
  lemma TwoPositions<T>(s: seq<T>, i: nat, j: nat)
    requires i < j < |s|
    ensures s[i] == s[j] ==> multiset(s)[s[i]] >= 2
  {
    assert s == s[..j] + [s[j]] + s[j + 1..];
    assert s[..j][i] == s[i];
    assert multiset(s) == multiset(s[..j]) + multiset{s[j]} + multiset(s[j + 1..]);
  }

  /** A rearrangement of a sequence without repetitions has none either. */
  lemma DistinctPermutation<T>(a: seq<T>, b: seq<T>)
    requires Distinct(a) && multiset(a) == multiset(b)
    ensures Distinct(b)
  {
    DistinctOnce(a);
    forall i, j | 0 <= i < j < |b|
      ensures b[i] != b[j]
    {
      TwoPositions(b, i, j);
    }
  }

  /** The position of a value in a sequence that holds it: the first one. */
  function IndexOf<T(==)>(s: seq<T>, x: T): (i: nat)
    requires x in s
    ensures i < |s| && s[i] == x
    ensures forall j :: 0 <= j < i ==> s[j] != x
  {
    if s[0] == x then 0 else 1 + IndexOf(s[1..], x)
  }

  /** Without repetitions, the position of a value is the only one holding it. */
  lemma IndexOfDistinct<T>(s: seq<T>, j: nat)
    requires Distinct(s) && j < |s|
    ensures IndexOf(s, s[j]) == j
  {
  }

  /** Two sequences without repetitions and without common elements concatenate to one without repetitions. */
  lemma DistinctConcat<T>(a: seq<T>, b: seq<T>)
    requires Distinct(a) && Distinct(b)
    requires forall x :: x in a ==> x !in b
    ensures Distinct(a + b)
  {
    var c := a + b;
    forall i, j | 0 <= i < j < |c|
      ensures c[i] != c[j]
    {
      if j >= |a| && i < |a| {
        assert c[i] in a && c[j] == b[j - |a|];
      }
    }
  }

  /** Sequences with the same multiset have the same elements. */
  lemma PermutationElements<T>(a: seq<T>, b: seq<T>)
    requires multiset(a) == multiset(b)
    ensures Elements(a) == Elements(b)
    ensures forall x :: x in a <==> x in b
  {
    forall x
      ensures x in a <==> x in b
    {
      assert x in a <==> x in multiset(a);
      assert x in b <==> x in multiset(b);
    }
  }

  /** The positions 0 .. n-1 of a sequence of n items: the identity index array. */
  function Positions(n: nat): (s: seq<nat>)
    ensures |s| == n && forall i :: 0 <= i < n ==> s[i] == i
    ensures forall x :: x in s ==> x < n
  {
    seq(n, i requires 0 <= i < n => i)
  }
}
