/** `Array.prototype.sort` with a numeric comparator `(a, b) => key(a) - key(b)`:
    a stable sort into ascending key order, written as insertion sort. */
module Sorting {

  predicate SortedBy<T>(s: seq<T>, key: T -> real) {
    forall i, j | 0 <= i < j < |s| :: key(s[i]) <= key(s[j])
  }

  /** `x` placed after every element of `s` whose key does not exceed its own. */
  function Insert<T>(s: seq<T>, x: T, key: T -> real): (r: seq<T>)
    ensures multiset(r) == multiset(s) + multiset{x}
    ensures |r| == |s| + 1
    decreases |s|
  {
    if s == [] then [x]
    else if key(s[|s| - 1]) <= key(x) then s + [x]
    else
      var init := s[..|s| - 1];
      assert s == init + [s[|s| - 1]];
      Insert(init, x, key) + [s[|s| - 1]]
  }

  /** The elements of `s` in ascending key order, equal keys in their original order. */
  function SortBy<T>(s: seq<T>, key: T -> real): (r: seq<T>)
    ensures multiset(r) == multiset(s)
    ensures |r| == |s|
    ensures SortedBy(r, key)
    decreases |s|
  {
    if s == [] then []
    else
      var init := s[..|s| - 1];
      assert s == init + [s[|s| - 1]];
      InsertSorted(SortBy(init, key), s[|s| - 1], key);
      Insert(SortBy(init, key), s[|s| - 1], key)
  }

  /** Inserting into a sorted sequence keeps it sorted. */
  lemma {:induction false} InsertSorted<T>(s: seq<T>, x: T, key: T -> real)
    requires SortedBy(s, key)
    ensures SortedBy(Insert(s, x, key), key)
    decreases |s|
  {
    if s != [] && key(s[|s| - 1]) > key(x) {
      var init, last := s[..|s| - 1], s[|s| - 1];
      InsertSorted(init, x, key);
      var r1 := Insert(init, x, key);
      forall i | 0 <= i < |r1|
        ensures key(r1[i]) <= key(last)
      {
        assert r1[i] in multiset(r1);
        if r1[i] != x {
          assert r1[i] in multiset(init);
          var j :| 0 <= j < |init| && init[j] == r1[i];
          assert s[j] == init[j];
        }
      }
      assert Insert(s, x, key) == r1 + [last];
    }
  }

  /** In a sorted sequence no element after position `k` has a smaller key than one
      before it: truncating keeps the least keys. */
  lemma {:induction false} SortedPrefixLeast<T>(s: seq<T>, key: T -> real, k: nat, x: T)
    requires SortedBy(s, key) && k <= |s|
    requires x in multiset(s) && x !in s[..k]
    ensures forall i | 0 <= i < k :: key(s[i]) <= key(x)
  {
    assert s == s[..k] + s[k..];
    assert x in s;
    var j :| 0 <= j < |s| && s[j] == x;
  }
}
