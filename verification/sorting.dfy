/**
 * Python's `list.sort(key=...)` and pandas' `sort_values`, on integer keys,
 * and the code-point ordering of strings that `Index.difference` sorts by.
 */
module Sorting {

  predicate SortedBy<T>(s: seq<T>, key: T -> int)
  {
    forall i, j | 0 <= i < j < |s| :: key(s[i]) <= key(s[j])
  }

  /** `x` placed before the first element whose key is not smaller. */
  function Insert<T>(x: T, s: seq<T>, key: T -> int): (r: seq<T>)
    requires SortedBy(s, key)
    ensures SortedBy(r, key)
    ensures multiset(r) == multiset(s) + multiset{x}
    ensures forall y | y in r :: y == x || y in s
  {
    if s == [] || key(x) <= key(s[0]) then
      InsertFront(x, s, key);
      [x] + s
    else
      var t := Insert(x, s[1..], key);
      InsertBehind(x, s, t, key);
      [s[0]] + t
  }

  lemma InsertFront<T>(x: T, s: seq<T>, key: T -> int)
    requires SortedBy(s, key) && (s == [] || key(x) <= key(s[0]))
    ensures SortedBy([x] + s, key)
    ensures multiset([x] + s) == multiset(s) + multiset{x}
    ensures forall y | y in [x] + s :: y == x || y in s
  {
    var r := [x] + s;
    assert forall j | 1 <= j < |r| :: r[j] == s[j - 1];
  }

  lemma InsertBehind<T>(x: T, s: seq<T>, t: seq<T>, key: T -> int)
    requires SortedBy(s, key) && s != [] && key(s[0]) < key(x) && SortedBy(t, key)
    requires multiset(t) == multiset(s[1..]) + multiset{x}
    requires forall y | y in t :: y == x || y in s[1..]
    ensures SortedBy([s[0]] + t, key)
    ensures multiset([s[0]] + t) == multiset(s) + multiset{x}
    ensures forall y | y in [s[0]] + t :: y == x || y in s
  {
    assert s == [s[0]] + s[1..];
    forall y | y in t ensures key(s[0]) <= key(y) {
      if y != x {
        var j :| 0 <= j < |s[1..]| && s[1..][j] == y;
        assert s[j + 1] == y;
      }
    }
    var r := [s[0]] + t;
    assert forall j | 1 <= j < |r| :: r[j] == t[j - 1] && t[j - 1] in t;
  }

  /** Ascending by `key`: a sorted permutation of `s`. */
  function SortBy<T>(s: seq<T>, key: T -> int): (r: seq<T>)
    ensures SortedBy(r, key)
    ensures multiset(r) == multiset(s) && |r| == |s|
  {
    if s == [] then []
    else
      var r := Insert(s[0], SortBy(s[1..], key), key);
      assert s == [s[0]] + s[1..];
      assert |r| == |multiset(r)|;
      r
  }

  /** The last `k` elements (`s[-k:]`), or all of `s` when it is shorter. */
  function Last<T>(s: seq<T>, k: nat): (r: seq<T>)
    ensures |r| == if |s| < k then |s| else k
    ensures multiset(r) <= multiset(s)
  {
    var n := if |s| < k then |s| else k;
    assert s == s[..|s| - n] + s[|s| - n..];
    s[|s| - n..]
  }

  /** The first `k` elements (`s[:k]`), or all of `s` when it is shorter. */
  function First<T>(s: seq<T>, k: nat): (r: seq<T>)
    ensures |r| == if |s| < k then |s| else k
    ensures multiset(r) <= multiset(s)
  {
    var n := if |s| < k then |s| else k;
    assert s == s[..n] + s[n..];
    s[..n]
  }

  /**
   * The last `k` of a sorted sequence are its largest: none of the elements
   * left out has a larger key than any element kept.
   */
  lemma LastAreLargest<T>(s: seq<T>, k: nat, key: T -> int)
    requires SortedBy(s, key)
    ensures SortedBy(Last(s, k), key)
    ensures forall i, j | 0 <= i < |s| - |Last(s, k)| && 0 <= j < |Last(s, k)| ::
              key(s[i]) <= key(Last(s, k)[j])
  {
    var n := |Last(s, k)|;
    forall j | 0 <= j < n ensures Last(s, k)[j] == s[|s| - n + j] { }
  }

  /** The first `k` of a sorted sequence are its smallest. */
  lemma FirstAreSmallest<T>(s: seq<T>, k: nat, key: T -> int)
    requires SortedBy(s, key)
    ensures SortedBy(First(s, k), key)
    ensures forall i, j | 0 <= i < |First(s, k)| <= j < |s| :: key(First(s, k)[i]) <= key(s[j])
  {
  }

  /** An element left out of the first `k` of a sorted sequence is no smaller than one kept. */
  lemma FirstDominates<T>(s: seq<T>, k: nat, key: T -> int, f: T, g: T)
    requires SortedBy(s, key) && f in s && g in First(s, k) && f !in First(s, k)
    ensures key(g) <= key(f)
  {
    var n := |First(s, k)|;
    assert forall x | 0 <= x < n :: First(s, k)[x] == s[x];
    var i :| 0 <= i < |s| && s[i] == f;
    var j :| 0 <= j < n && First(s, k)[j] == g;
    assert i >= n by {
      assert forall x | 0 <= x < n :: s[x] in First(s, k);
    }
  }

  /** An element left out of the last `k` of a sorted sequence is no larger than one kept. */
  lemma LastDominates<T>(s: seq<T>, k: nat, key: T -> int, f: T, g: T)
    requires SortedBy(s, key) && f in s && g in Last(s, k) && f !in Last(s, k)
    ensures key(f) <= key(g)
  {
    var n := |Last(s, k)|;
    var m := |s| - n;
    assert forall x | 0 <= x < n :: Last(s, k)[x] == s[m + x];
    var i :| 0 <= i < |s| && s[i] == f;
    var j :| 0 <= j < n && Last(s, k)[j] == g;
    assert i < m by {
      assert forall x | m <= x < |s| :: s[x] == Last(s, k)[x - m] && s[x] in Last(s, k);
    }
  }

  // ------------------------------------------------------- string ordering

  /** Code-point lexicographic order on strings (Python's `<=` on `str`). */
  predicate StrLe(a: string, b: string)
  {
    a == [] || (b != [] && (a[0] < b[0] || (a[0] == b[0] && StrLe(a[1..], b[1..]))))
  }

  lemma {:induction false} StrLeTotal(a: string, b: string)
    ensures StrLe(a, b) || StrLe(b, a)
  {
    if a != [] && b != [] && a[0] == b[0] {
      StrLeTotal(a[1..], b[1..]);
    }
  }

  lemma {:induction false} StrLeTransitive(a: string, b: string, c: string)
    requires StrLe(a, b) && StrLe(b, c)
    ensures StrLe(a, c)
  {
    if a != [] && b != [] && c != [] && a[0] == b[0] && b[0] == c[0] {
      StrLeTransitive(a[1..], b[1..], c[1..]);
    }
  }

  predicate StrSorted(s: seq<string>)
  {
    forall i, j | 0 <= i < j < |s| :: StrLe(s[i], s[j])
  }

  function InsertStr(x: string, s: seq<string>): (r: seq<string>)
    requires StrSorted(s)
    ensures StrSorted(r)
    ensures multiset(r) == multiset(s) + multiset{x}
    ensures forall y | y in r :: y == x || y in s
  {
    if s == [] || StrLe(x, s[0]) then
      var r := [x] + s;
      assert forall j | 1 <= j < |r| :: StrLe(x, r[j]) by {
        forall j | 1 <= j < |r| ensures StrLe(x, r[j]) {
          if j > 1 { StrLeTransitive(x, s[0], s[j - 1]); }
        }
      }
      r
    else
      var t := InsertStr(x, s[1..]);
      InsertStrTail(x, s, t);
      assert s == [s[0]] + s[1..];
      var r := [s[0]] + t;
      assert forall y | y in r :: y == s[0] || y in t;
      r
  }

  lemma InsertStrTail(x: string, s: seq<string>, t: seq<string>)
    requires StrSorted(s) && s != [] && !StrLe(x, s[0]) && StrSorted(t)
    requires forall y | y in t :: y == x || y in s[1..]
    ensures StrSorted([s[0]] + t)
  {
    StrLeTotal(x, s[0]);
    forall y | y in t ensures StrLe(s[0], y) {
      if y != x {
        var j :| 0 <= j < |s[1..]| && s[1..][j] == y;
        assert s[j + 1] == y;
      }
    }
    var r := [s[0]] + t;
    forall i, j | 0 <= i < j < |r| ensures StrLe(r[i], r[j]) {
      assert r[j] == t[j - 1] && t[j - 1] in t;
      if i > 0 { assert r[i] == t[i - 1]; }
    }
  }

  /** `sorted(names)`: the names in code-point order. */
  function SortStrings(s: seq<string>): (r: seq<string>)
    ensures StrSorted(r)
    ensures multiset(r) == multiset(s)
  {
    if s == [] then []
    else
      assert s == [s[0]] + s[1..];
      InsertStr(s[0], SortStrings(s[1..]))
  }
}
