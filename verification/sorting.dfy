/** `ORDER BY sort_order, id`: a stable insertion sort on a pair of integer
    keys, compared lexicographically. */
module Sorting {

  /** (a0, a1) comes no later than (b0, b1). */
  predicate KeyLe(a: (int, int), b: (int, int)) {
    a.0 < b.0 || (a.0 == b.0 && a.1 <= b.1)
  }

  /** Every row is no later than each row after it. */
  predicate SortedBy<T>(s: seq<T>, key: T -> (int, int)) {
    forall i, j | 0 <= i < j < |s| :: KeyLe(key(s[i]), key(s[j]))
  }

  /** Place `x` before the first row it precedes. */
  function Insert<T(==)>(x: T, s: seq<T>, key: T -> (int, int)): (r: seq<T>)
    requires SortedBy(s, key)
    ensures SortedBy(r, key)
    ensures multiset(r) == multiset(s) + multiset{x}
  {
    if |s| == 0 then [x]
    else if KeyLe(key(x), key(s[0])) then
      assert forall j | 0 < j < |s| :: KeyLe(key(s[0]), key(s[j]));
      SortedCons(x, s, key);
      [x] + s
    else
      var rest := Insert(x, s[1..], key);
      HeadBound(s, key);
      BoundedByMembers(key(s[0]), rest, multiset(s[1..]) + multiset{x}, key);
      SortedCons(s[0], rest, key);
      assert s == [s[0]] + s[1..];
      [s[0]] + rest
  }

  /** The first row of a sorted list comes no later than any row. */
  lemma HeadBound<T>(s: seq<T>, key: T -> (int, int))
    requires |s| > 0 && SortedBy(s, key)
    ensures forall y | y in multiset(s) :: KeyLe(key(s[0]), key(y))
  {
    forall y | y in multiset(s) ensures KeyLe(key(s[0]), key(y)) {
      var j :| 0 <= j < |s| && s[j] == y;
    }
  }

  /** A bound on every member of a multiset bounds every row of a list
      holding that multiset. */
  lemma BoundedByMembers<T>(b: (int, int), r: seq<T>, m: multiset<T>, key: T -> (int, int))
    requires multiset(r) == m
    requires forall y | y in m :: KeyLe(b, key(y))
    ensures forall j | 0 <= j < |r| :: KeyLe(b, key(r[j]))
  {
    forall j | 0 <= j < |r| ensures KeyLe(b, key(r[j])) {
      assert r[j] in multiset(r);
    }
  }

  /** A row no later than every row of a sorted list can go in front. */
  lemma SortedCons<T>(h: T, s: seq<T>, key: T -> (int, int))
    requires SortedBy(s, key)
    requires forall j | 0 <= j < |s| :: KeyLe(key(h), key(s[j]))
    ensures SortedBy([h] + s, key)
  {
    assert forall j | 0 < j < |[h] + s| :: ([h] + s)[j] == s[j - 1];
  }

  /** The rows in key order: a permutation of the input that is sorted. */
  function SortBy<T(==)>(s: seq<T>, key: T -> (int, int)): (r: seq<T>)
    ensures SortedBy(r, key)
    ensures multiset(r) == multiset(s)
    ensures |r| == |s|
  {
    if |s| == 0 then []
    else
      assert s == [s[0]] + s[1..];
      var r := Insert(s[0], SortBy(s[1..], key), key);
      assert |r| == |multiset(r)|;
      r
  }

  /** Permutations hold the same rows. */
  lemma SameMembers<T>(r: seq<T>, s: seq<T>)
    requires multiset(r) == multiset(s)
    ensures forall k | 0 <= k < |r| :: r[k] in s
    ensures forall k | 0 <= k < |s| :: s[k] in r
  {
    forall k | 0 <= k < |r| ensures r[k] in s {
      assert r[k] in multiset(r);
    }
    forall k | 0 <= k < |s| ensures s[k] in r {
      assert s[k] in multiset(s);
    }
  }

  /** The first rows of two sorted permutations with distinct keys agree. */
  lemma SameFirst<T>(a: seq<T>, b: seq<T>, key: T -> (int, int))
    requires |a| > 0 && |b| > 0
    requires SortedBy(a, key) && SortedBy(b, key)
    requires multiset(a) == multiset(b)
    requires forall i, j | 0 <= i < j < |a| :: key(a[i]) != key(a[j])
    ensures a[0] == b[0]
  {
    assert a[0] in multiset(b);
    assert b[0] in multiset(a);
    var i :| 0 <= i < |b| && b[i] == a[0];
    var j :| 0 <= j < |a| && a[j] == b[0];
    assert KeyLe(key(a[0]), key(a[j]));
    assert KeyLe(key(b[0]), key(b[i]));
  }

  /** Two permutations with the same first row have permutations as
      tails. */
  lemma SameTails<T>(a: seq<T>, b: seq<T>)
    requires |a| > 0 && |b| > 0 && a[0] == b[0]
    requires multiset(a) == multiset(b)
    ensures multiset(a[1..]) == multiset(b[1..])
  {
    assert a == [a[0]] + a[1..] && b == [b[0]] + b[1..];
    assert multiset(a) == multiset{a[0]} + multiset(a[1..]);
    assert multiset(b) == multiset{b[0]} + multiset(b[1..]);
    assert multiset(a[1..]) == multiset(a) - multiset{a[0]};
    assert multiset(b[1..]) == multiset(b) - multiset{b[0]};
  }

  /** Dropping the first row keeps a list sorted and its keys distinct. */
  lemma SortedTail<T>(a: seq<T>, key: T -> (int, int))
    requires |a| > 0 && SortedBy(a, key)
    ensures SortedBy(a[1..], key)
    ensures (forall i, j | 0 <= i < j < |a| :: key(a[i]) != key(a[j])) ==>
      forall i, j | 0 <= i < j < |a[1..]| :: key(a[1..][i]) != key(a[1..][j])
  {
    assert forall i | 0 <= i < |a[1..]| :: a[1..][i] == a[i + 1];
  }

  /** Two sorted permutations of rows with distinct keys are equal: the
      order `ORDER BY sort_order, id` yields is determined when ids are
      unique. */
  lemma {:induction false} SortedUnique<T>(a: seq<T>, b: seq<T>, key: T -> (int, int))
    requires SortedBy(a, key) && SortedBy(b, key)
    requires multiset(a) == multiset(b)
    requires forall i, j | 0 <= i < j < |a| :: key(a[i]) != key(a[j])
    ensures a == b
    decreases |a|
  {
    assert |a| == |multiset(a)| == |multiset(b)| == |b|;
    if |a| > 0 {
      SameFirst(a, b, key);
      SameTails(a, b);
      var a', b' := a[1..], b[1..];
      SortedTail(a, key);
      SortedTail(b, key);
      SortedUnique(a', b', key);
      assert a == [a[0]] + a' && b == [b[0]] + b';
    }
  }
}
