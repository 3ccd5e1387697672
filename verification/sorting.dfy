/** Filtering and ordering of result rows, the two halves of a
    `WHERE … ORDER BY a DESC, b DESC` query. */
module Sorting {

  /** A two-part sort key: rows are ordered by `major`, ties by `minor`. */
  datatype Key = Key(major: int, minor: int)

  /** `a` may come before `b` in a descending order. */
  predicate Precedes(a: Key, b: Key) {
    a.major > b.major || (a.major == b.major && a.minor >= b.minor)
  }

  /** Every element is at least as large as every later one. */
  predicate SortedDesc<T(!new)>(s: seq<T>, key: T -> Key) {
    forall i, j :: 0 <= i < j < |s| ==> Precedes(key(s[i]), key(s[j]))
  }

  /** The elements of `s` satisfying `keep`, in their original order. */
  function Filter<T(!new)>(s: seq<T>, keep: T -> bool): (r: seq<T>)
    ensures forall x :: multiset(r)[x] == if keep(x) then multiset(s)[x] else 0
    ensures forall x :: x in r <==> x in s && keep(x)
    ensures |r| <= |s|
  {
    if |s| == 0 then []
    else
      var rest := Filter(s[1..], keep);
      assert s == [s[0]] + s[1..];
      if keep(s[0]) then [s[0]] + rest else rest
  }

  /** A sorted sequence stays sorted under a new head that precedes all of
      it. */
  lemma SortedCons<T(!new)>(x: T, s: seq<T>, key: T -> Key)
    requires SortedDesc(s, key)
    requires forall y :: y in s ==> Precedes(key(x), key(y))
    ensures SortedDesc([x] + s, key)
  {
    var r := [x] + s;
    assert forall j :: 0 < j < |r| ==> r[j] == s[j - 1] && r[j] in s;
  }

  /** Places `x` after every element that precedes it in a sorted sequence. */
  function Insert<T(!new)>(x: T, s: seq<T>, key: T -> Key): (r: seq<T>)
    requires SortedDesc(s, key)
    ensures multiset(r) == multiset(s) + multiset{x}
    ensures forall y :: y in r <==> y in s || y == x
    ensures SortedDesc(r, key)
  {
    if |s| == 0 then [x]
    else if Precedes(key(s[0]), key(x)) then
      assert SortedDesc(s[1..], key) by {
        assert forall i :: 0 <= i < |s| - 1 ==> s[1..][i] == s[i + 1];
      }
      var rest := Insert(x, s[1..], key);
      assert s == [s[0]] + s[1..];
      assert forall y :: y in rest ==> Precedes(key(s[0]), key(y));
      SortedCons(s[0], rest, key);
      [s[0]] + rest
    else
      assert forall y :: y in s ==> Precedes(key(x), key(y));
      SortedCons(x, s, key);
      [x] + s
  }

  /** Insertion sort in descending key order. */
  function SortDesc<T(!new)>(s: seq<T>, key: T -> Key): (r: seq<T>)
    ensures multiset(r) == multiset(s)
    ensures SortedDesc(r, key)
    decreases |s|
  {
    if |s| == 0 then []
    else
      assert s == [s[0]] + s[1..];
      Insert(s[0], SortDesc(s[1..], key), key)
  }

  /** Two sequences that hold the same elements with the same multiplicities
      have the same members. */
  lemma SameMultisetSameMembers<T(!new)>(a: seq<T>, b: seq<T>)
    requires multiset(a) == multiset(b)
    ensures forall x :: x in a <==> x in b
  {
    forall x ensures x in a <==> x in b {
      assert x in a <==> x in multiset(a);
      assert x in b <==> x in multiset(b);
    }
  }

  /** No two elements share a value of `f`. */
  ghost predicate DistinctBy<T(!new), K>(s: seq<T>, f: T -> K) {
    forall i, j :: 0 <= i < j < |s| ==> f(s[i]) != f(s[j])
  }

  /** The sum of `f` over the elements. */
  function SumBy<T>(s: seq<T>, f: T -> int): int {
    if |s| == 0 then 0 else f(s[0]) + SumBy(s[1..], f)
  }

  lemma {:induction false} SumByAppend<T>(a: seq<T>, b: seq<T>, f: T -> int)
    ensures SumBy(a + b, f) == SumBy(a, f) + SumBy(b, f)
    decreases |a|
  {
    if |a| == 0 {
      assert a + b == b;
    } else {
      assert (a + b)[1..] == a[1..] + b;
      SumByAppend(a[1..], b, f);
    }
  }

  /** Taking the element at `k` out of a sequence takes its term out of the
      sum. */
  lemma SumWithout<T>(b: seq<T>, k: nat, f: T -> int)
    requires k < |b|
    ensures SumBy(b, f) == f(b[k]) + SumBy(b[..k] + b[k + 1..], f)
  {
    assert b == b[..k] + ([b[k]] + b[k + 1..]);
    SumByAppend(b[..k], [b[k]] + b[k + 1..], f);
    SumByAppend(b[..k], b[k + 1..], f);
    assert ([b[k]] + b[k + 1..])[1..] == b[k + 1..];
  }

  /** Taking the element at `k` out of a sequence takes one occurrence out
      of its multiset. */
  lemma MultisetWithout<T>(b: seq<T>, k: nat)
    requires k < |b|
    ensures multiset(b[..k] + b[k + 1..]) == multiset(b) - multiset{b[k]}
  {
    assert b == b[..k] + [b[k]] + b[k + 1..];
    assert multiset(b) == multiset(b[..k]) + multiset{b[k]} + multiset(b[k + 1..]);
  }

  /** Reordering does not change a sum. */
  lemma {:induction false} PermutationKeepsSum<T(!new)>(a: seq<T>, b: seq<T>, f: T -> int)
    requires multiset(a) == multiset(b)
    ensures SumBy(a, f) == SumBy(b, f)
    decreases |a|
  {
    if |a| == 0 {
      assert |b| == |multiset(b)| == 0;
    } else {
      var x := a[0];
      assert x in multiset(b);
      var k :| 0 <= k < |b| && b[k] == x;
      var rest := b[..k] + b[k + 1..];
      SumWithout(b, k, f);
      MultisetWithout(b, k);
      assert a == [x] + a[1..];
      assert multiset(a[1..]) == multiset(a) - multiset{x};
      PermutationKeepsSum(a[1..], rest, f);
    }
  }

  /** In a sequence without repeated `f` values no element occurs twice. */
  lemma {:induction false} DistinctOccursOnce<T(!new), K>(s: seq<T>, f: T -> K, x: T)
    requires DistinctBy(s, f)
    ensures multiset(s)[x] <= 1
    decreases |s|
  {
    if |s| > 0 {
      assert s == [s[0]] + s[1..];
      assert DistinctBy(s[1..], f) by {
        forall i, j | 0 <= i < j < |s[1..]| ensures f(s[1..][i]) != f(s[1..][j]) {
          assert s[1..][i] == s[i + 1] && s[1..][j] == s[j + 1];
        }
      }
      DistinctOccursOnce(s[1..], f, x);
      if s[0] == x {
        assert x !in s[1..] by {
          forall j | 0 <= j < |s[1..]| ensures s[1..][j] != x {
            assert f(s[0]) != f(s[j + 1]);
          }
        }
      }
    }
  }

  /** Reordering keeps a sequence free of repeated `f` values. */
  lemma PermutationKeepsDistinct<T(!new), K>(a: seq<T>, b: seq<T>, f: T -> K)
    requires multiset(a) == multiset(b) && DistinctBy(a, f)
    ensures DistinctBy(b, f)
  {
    forall i, j | 0 <= i < j < |b| ensures f(b[i]) != f(b[j]) {
      if f(b[i]) == f(b[j]) {
        assert b[i] in multiset(a) && b[j] in multiset(a);
        var p :| 0 <= p < |a| && a[p] == b[i];
        var q :| 0 <= q < |a| && a[q] == b[j];
        if p == q {
          assert b == b[..j] + [b[j]] + b[j + 1..];
          assert b[i] in b[..j];
          assert multiset(b)[b[i]] >= 2;
          DistinctOccursOnce(a, f, b[i]);
          assert false;
        }
      }
    }
  }

  /** Filters that agree on every element select the same subsequence. */
  lemma {:induction false} FilterAgrees<T(!new)>(s: seq<T>, keep: T -> bool, keep': T -> bool)
    requires forall i :: 0 <= i < |s| ==> keep(s[i]) == keep'(s[i])
    ensures Filter(s, keep) == Filter(s, keep')
    decreases |s|
  {
    if |s| > 0 {
      FilterAgrees(s[1..], keep, keep');
    }
  }
}
