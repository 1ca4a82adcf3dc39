/**
 * The stable sorts of the source (`List.sort` and `Arrays.sort` with a
 * comparator) are all sorts by a numeric key. They are modelled by one stable
 * insertion sort on keys in the extended reals, which gives the same result as
 * any stable sort.
 */
module Sorting {

  /** Reals extended with both infinities, totally ordered. */
  datatype Ext = NegInf | Fin(r: real) | PosInf

  predicate Less(a: Ext, b: Ext)
  {
    match (a, b)
    case (NegInf, NegInf) => false
    case (NegInf, _) => true
    case (Fin(x), Fin(y)) => x < y
    case (Fin(_), PosInf) => true
    case (_, _) => false
  }

  lemma LessIsStrictTotalOrder(a: Ext, b: Ext, c: Ext)
    ensures !Less(a, a)
    ensures Less(a, b) ==> !Less(b, a)
    ensures Less(a, b) && Less(b, c) ==> Less(a, c)
    ensures Less(a, b) || a == b || Less(b, a)
  {
  }

  /** Keys never decrease along the sequence. */
  predicate SortedBy<T>(s: seq<T>, key: T -> Ext)
  {
    forall i, j :: 0 <= i < j < |s| ==> !Less(key(s[j]), key(s[i]))
  }

  /** Inserts `x` after every element whose key is not greater than its own. */
  function Insert<T>(s: seq<T>, x: T, key: T -> Ext): (r: seq<T>)
    ensures |r| == |s| + 1
    ensures multiset(r) == multiset(s) + multiset{x}
  {
    if s == [] || !Less(key(x), key(s[|s| - 1])) then s + [x]
    else
      var init := s[..|s| - 1];
      assert s == init + [s[|s| - 1]];
      Insert(init, x, key) + [s[|s| - 1]]
  }

  /** Stable sort, ascending by key. */
  function SortBy<T>(s: seq<T>, key: T -> Ext): (r: seq<T>)
    ensures |r| == |s|
    ensures multiset(r) == multiset(s)
  {
    if s == [] then []
    else
      var init := s[..|s| - 1];
      assert s == init + [s[|s| - 1]];
      Insert(SortBy(init, key), s[|s| - 1], key)
  }

  lemma {:induction false} InsertKeepsSorted<T>(s: seq<T>, x: T, key: T -> Ext)
    requires SortedBy(s, key)
    ensures SortedBy(Insert(s, x, key), key)
  {
    if s == [] || !Less(key(x), key(s[|s| - 1])) {
      forall i | 0 <= i < |s|
        ensures !Less(key(x), key(s[i]))
      {
        LessIsStrictTotalOrder(key(x), key(s[i]), key(s[|s| - 1]));
        if i < |s| - 1 {
          LessIsStrictTotalOrder(key(s[|s| - 1]), key(s[i]), key(x));
          LessIsStrictTotalOrder(key(x), key(s[|s| - 1]), key(s[i]));
        }
      }
    } else {
      var init, last := s[..|s| - 1], s[|s| - 1];
      InsertKeepsSorted(init, x, key);
      var r := Insert(init, x, key);
      forall i | 0 <= i < |r|
        ensures !Less(key(last), key(r[i]))
      {
        assert r[i] in multiset(r);
        if r[i] == x {
          LessIsStrictTotalOrder(key(x), key(last), key(last));
        } else {
          assert r[i] in multiset(init);
          var k :| 0 <= k < |init| && init[k] == r[i];
          assert s[k] == r[i];
        }
      }
    }
  }

  lemma {:induction false} SortByIsSorted<T>(s: seq<T>, key: T -> Ext)
    ensures SortedBy(SortBy(s, key), key)
  {
    if s != [] {
      SortByIsSorted(s[..|s| - 1], key);
      InsertKeepsSorted(SortBy(s[..|s| - 1], key), s[|s| - 1], key);
    }
  }

  /** Sorting a sequence that is already in order changes nothing: the sort is stable. */
  lemma {:induction false} SortByOfSorted<T>(s: seq<T>, key: T -> Ext)
    requires SortedBy(s, key)
    ensures SortBy(s, key) == s
  {
    if s != [] {
      var init, last := s[..|s| - 1], s[|s| - 1];
      assert s == init + [last];
      assert SortedBy(init, key) by {
        forall i, j | 0 <= i < j < |init|
          ensures !Less(key(init[j]), key(init[i]))
        {
          assert init[i] == s[i] && init[j] == s[j];
        }
      }
      SortByOfSorted(init, key);
      assert SortBy(s, key) == Insert(init, last, key);
      if init != [] {
        assert init[|init| - 1] == s[|s| - 2];
        assert !Less(key(last), key(init[|init| - 1]));
      }
      assert Insert(init, last, key) == init + [last];
    }
  }

  /** The elements of a sorted sequence are the elements of its input. */
  lemma SortByElements<T>(s: seq<T>, key: T -> Ext, x: T)
    ensures x in SortBy(s, key) <==> x in s
  {
    assert x in multiset(SortBy(s, key)) <==> x in multiset(s);
  }
}
