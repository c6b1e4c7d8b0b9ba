/** A stable insertion sort standing in for Python's `list.sort(key=..., reverse=...)`.

    `before(x, y)` says that `x` may stand ahead of `y`: for `reverse=True` it is
    `key(x) >= key(y)`, for an ascending sort `key(x) <= key(y)`. An element is
    inserted ahead of the first element it may precede, so equal keys keep their
    input order, as Python's sort does. */
module Sorting {

  ghost predicate TotalPreorder<T(!new)>(before: (T, T) -> bool) {
    && (forall x, y :: before(x, y) || before(y, x))
    && (forall x, y, z :: before(x, y) && before(y, z) ==> before(x, z))
  }

  ghost predicate SortedBy<T>(s: seq<T>, before: (T, T) -> bool) {
    forall i, j :: 0 <= i < j < |s| ==> before(s[i], s[j])
  }

  function Insert<T>(x: T, s: seq<T>, before: (T, T) -> bool): (r: seq<T>)
    ensures |r| == |s| + 1
    ensures multiset(r) == multiset(s) + multiset{x}
  {
    if s == [] || before(x, s[0]) then [x] + s
    else
      assert s == [s[0]] + s[1..];
      [s[0]] + Insert(x, s[1..], before)
  }

  function SortBy<T>(s: seq<T>, before: (T, T) -> bool): (r: seq<T>)
    ensures |r| == |s|
    ensures multiset(r) == multiset(s)
  {
    if s == [] then []
    else
      assert s == [s[0]] + s[1..];
      Insert(s[0], SortBy(s[1..], before), before)
  }

  lemma {:induction false} InsertSorted<T(!new)>(x: T, s: seq<T>, before: (T, T) -> bool)
    requires TotalPreorder(before)
    requires SortedBy(s, before)
    ensures SortedBy(Insert(x, s, before), before)
  {
    if s == [] || before(x, s[0]) {
      var r := [x] + s;
      forall i, j | 0 <= i < j < |r| ensures before(r[i], r[j]) {
        if i == 0 && j > 1 {
          assert before(s[0], s[j - 1]);
        }
      }
    } else {
      var t := Insert(x, s[1..], before);
      InsertSorted(x, s[1..], before);
      assert before(s[0], x);
      forall k | 0 <= k < |t| ensures before(s[0], t[k]) {
        assert t[k] in multiset(t);
        if t[k] != x {
          assert t[k] in multiset(s[1..]);
          var m :| 0 <= m < |s[1..]| && s[1..][m] == t[k];
          assert s[m + 1] == t[k];
        }
      }
      var r := [s[0]] + t;
      forall i, j | 0 <= i < j < |r| ensures before(r[i], r[j]) {
        if i == 0 {
          assert r[j] == t[j - 1];
        } else {
          assert r[i] == t[i - 1] && r[j] == t[j - 1];
        }
      }
    }
  }

  /** The sort yields a list ordered by `before` (its permutation property is in SortBy's contract). */
  lemma {:induction false} SortByIsSorted<T(!new)>(s: seq<T>, before: (T, T) -> bool)
    requires TotalPreorder(before)
    ensures SortedBy(SortBy(s, before), before)
  {
    if s != [] {
      SortByIsSorted(s[1..], before);
      InsertSorted(s[0], SortBy(s[1..], before), before);
    }
  }

  lemma SortByMembers<T>(s: seq<T>, before: (T, T) -> bool)
    ensures forall x :: x in SortBy(s, before) <==> x in s
  {
    var r := SortBy(s, before);
    forall x ensures x in r <==> x in s {
      assert x in r <==> x in multiset(r);
      assert x in s <==> x in multiset(s);
    }
  }

  /** In a sorted list, everything in `s[:k]` may precede everything in `s[k:]`. */
  lemma TakeBeforeDrop<T>(s: seq<T>, k: nat, before: (T, T) -> bool)
    requires SortedBy(s, before)
    ensures forall a, b :: a in Take(s, k) && b in Drop(s, k) ==> before(a, b)
  {
    forall a, b | a in Take(s, k) && b in Drop(s, k) ensures before(a, b) {
      var i :| 0 <= i < |Take(s, k)| && Take(s, k)[i] == a;
      var j :| 0 <= j < |Drop(s, k)| && Drop(s, k)[j] == b;
      assert s[k + j] == b;
    }
  }

  /** Both slices of a sorted list are sorted. */
  lemma SortedSlices<T>(s: seq<T>, k: nat, before: (T, T) -> bool)
    requires SortedBy(s, before)
    ensures SortedBy(Take(s, k), before) && SortedBy(Drop(s, k), before)
  {
    forall i, j | 0 <= i < j < |Drop(s, k)| ensures before(Drop(s, k)[i], Drop(s, k)[j]) {
      assert Drop(s, k)[i] == s[k + i] && Drop(s, k)[j] == s[k + j];
    }
  }

  /** Python's `s[:n]`. */
  function Take<T>(s: seq<T>, n: nat): (r: seq<T>)
    ensures |r| == if n < |s| then n else |s|
  {
    if n < |s| then s[..n] else s
  }

  /** Python's `s[n:]`. */
  function Drop<T>(s: seq<T>, n: nat): (r: seq<T>)
    ensures |r| == if n < |s| then |s| - n else 0
  {
    if n < |s| then s[n..] else []
  }

  /** `s[:n] + s[n:]` is `s`. */
  lemma TakeDropJoin<T>(s: seq<T>, n: nat)
    ensures Take(s, n) + Drop(s, n) == s
    ensures forall x :: x in s <==> x in Take(s, n) || x in Drop(s, n)
  {
  }

  /** `s[:a] + s[a:][:b]` is `s[:a+b]`, and what is left is `s[a+b:]`. */
  lemma TakeDropSplit<T>(s: seq<T>, a: nat, b: nat)
    ensures Take(s, a) + Take(Drop(s, a), b) == Take(s, a + b)
    ensures Drop(Drop(s, a), b) == Drop(s, a + b)
  {
    if a + b < |s| {
      assert Take(s, a + b) == s[..a + b];
      assert s[..a + b] == s[..a] + s[a..][..b];
    }
  }
}
