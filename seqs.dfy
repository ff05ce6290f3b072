/**
 * Generic sequence helpers shared by the repository queries: filtering (a JPA
 * `WHERE`), the ids of matching rows, listing by a random rank
 * (`ORDER BY RANDOM()`), and stable sorting by an integer key (`ORDER BY`).
 */
module Seqs {
  import opened Wrappers

  /** The elements of `s` satisfying `p`, in their original order. */
  function Filter<T>(s: seq<T>, p: T -> bool): (r: seq<T>)
    ensures |r| <= |s|
    ensures forall i :: 0 <= i < |r| ==> p(r[i]) && r[i] in s
    ensures forall i :: 0 <= i < |s| && p(s[i]) ==> s[i] in r
  {
    if s == [] then []
    else (if p(s[0]) then [s[0]] else []) + Filter(s[1..], p)
  }

  lemma {:induction false} FilterConcat<T>(a: seq<T>, b: seq<T>, p: T -> bool)
    ensures Filter(a + b, p) == Filter(a, p) + Filter(b, p)
  {
    if a == [] {
      assert a + b == b;
    } else {
      assert (a + b)[0] == a[0];
      assert (a + b)[1..] == a[1..] + b;
      FilterConcat(a[1..], b, p);
    }
  }

  /** Filtering keeps exactly the occurrences of the elements that satisfy `p`. */
  lemma {:induction false} FilterMultiset<T>(s: seq<T>, p: T -> bool, x: T)
    ensures multiset(Filter(s, p))[x] == if p(x) then multiset(s)[x] else 0
  {
    if s != [] {
      var t := s[1..];
      var head := if p(s[0]) then [s[0]] else [];
      assert Filter(s, p) == head + Filter(t, p);
      FilterMultiset(t, p, x);
      assert s == [s[0]] + t;
      assert multiset(s) == multiset([s[0]]) + multiset(t);
      assert multiset(Filter(s, p)) == multiset(head) + multiset(Filter(t, p));
    }
  }

  /** Two sequences holding the same elements filter to the same elements, hence to the same length. */
  lemma FilterSameMultiset<T>(a: seq<T>, b: seq<T>, p: T -> bool)
    requires multiset(a) == multiset(b)
    ensures multiset(Filter(a, p)) == multiset(Filter(b, p))
    ensures |Filter(a, p)| == |Filter(b, p)|
  {
    forall x ensures multiset(Filter(a, p))[x] == multiset(Filter(b, p))[x] {
      FilterMultiset(a, p, x);
      FilterMultiset(b, p, x);
    }
    assert multiset(Filter(a, p)) == multiset(Filter(b, p));
    assert |multiset(Filter(a, p))| == |Filter(a, p)|;
    assert |multiset(Filter(b, p))| == |Filter(b, p)|;
  }

  /** A filter and its complement split a sequence's elements between them. */
  lemma FilterPartition<T>(s: seq<T>, p: T -> bool, q: T -> bool)
    requires forall x :: q(x) == !p(x)
    ensures multiset(Filter(s, p)) + multiset(Filter(s, q)) == multiset(s)
  {
    forall x ensures (multiset(Filter(s, p)) + multiset(Filter(s, q)))[x] == multiset(s)[x] {
      FilterMultiset(s, p, x);
      FilterMultiset(s, q, x);
    }
  }

  lemma {:induction false} FilterSamePred<T>(s: seq<T>, p: T -> bool, q: T -> bool)
    requires forall i :: 0 <= i < |s| ==> p(s[i]) == q(s[i])
    ensures Filter(s, p) == Filter(s, q)
  {
    if s != [] {
      FilterSamePred(s[1..], p, q);
    }
  }

  lemma {:induction false} FilterAll<T>(s: seq<T>, p: T -> bool)
    requires forall i :: 0 <= i < |s| ==> p(s[i])
    ensures Filter(s, p) == s
  {
    if s != [] {
      FilterAll(s[1..], p);
    }
  }

  lemma {:induction false} FilterNone<T>(s: seq<T>, p: T -> bool)
    requires forall i :: 0 <= i < |s| ==> !p(s[i])
    ensures Filter(s, p) == []
  {
    if s != [] {
      FilterNone(s[1..], p);
    }
  }

  /** When `p` fails on the first k elements and holds on the rest, filtering drops exactly those k. */
  lemma {:induction false} FilterSplit<T>(s: seq<T>, p: T -> bool, k: nat)
    requires k <= |s|
    requires forall i :: 0 <= i < k ==> !p(s[i])
    requires forall i :: k <= i < |s| ==> p(s[i])
    ensures Filter(s, p) == s[k..]
  {
    if k == 0 {
      FilterAll(s, p);
    } else {
      var t := s[1..];
      forall i | 0 <= i < k - 1 ensures !p(t[i]) {
        assert t[i] == s[i + 1];
      }
      forall i | k - 1 <= i < |t| ensures p(t[i]) {
        assert t[i] == s[i + 1];
      }
      FilterSplit(t, p, k - 1);
      assert t[k - 1..] == s[k..];
    }
  }

  /** Replacing one element changes the number of matches by at most the two elements' contributions. */
  lemma CountUpdate<T>(s: seq<T>, j: nat, x: T, p: T -> bool)
    requires j < |s|
    ensures |Filter(s[j := x], p)| == |Filter(s, p)| - (if p(s[j]) then 1 else 0) + (if p(x) then 1 else 0)
  {
    var pre, post := s[..j], s[j + 1..];
    assert s == pre + [s[j]] + post;
    assert s[j := x] == pre + [x] + post;
    FilterConcat(pre + [s[j]], post, p);
    FilterConcat(pre, [s[j]], p);
    FilterConcat(pre + [x], post, p);
    FilterConcat(pre, [x], p);
    assert [s[j]][1..] == [] && [x][1..] == [];
  }

  /** No element occurs twice. */
  ghost predicate NoDup<T>(s: seq<T>)
  {
    forall i, j :: 0 <= i < j < |s| ==> s[i] != s[j]
  }

  lemma {:induction false} FilterNoDup<T>(s: seq<T>, p: T -> bool)
    requires NoDup(s)
    ensures NoDup(Filter(s, p))
  {
    if s != [] {
      FilterNoDup(s[1..], p);
      assert s[0] !in s[1..] by {
        forall k | 0 <= k < |s[1..]| ensures s[1..][k] != s[0] {
          assert s[1..][k] == s[k + 1];
        }
      }
    }
  }

  /** A prefix one longer is the prefix with the next element appended. */
  lemma TakeNext<T>(s: seq<T>, k: nat)
    requires k < |s|
    ensures s[..k + 1] == s[..k] + [s[k]]
  {
  }

  /** 0, 1, ..., n - 1. */
  function Range(n: nat): (r: seq<nat>)
    ensures |r| == n
    ensures forall j :: 0 <= j < n ==> r[j] == j
  {
    seq(n, j requires 0 <= j < n => j)
  }

  /** The test "index `j` of `s` exists and satisfies `p`", as a predicate on indices. */
  function At<T>(s: seq<T>, p: T -> bool): nat -> bool
  {
    (j: nat) => j < |s| && p(s[j])
  }

  /**
   * The indices (ids) of the elements of `s` that satisfy `p`, ascending: what a query
   * `SELECT ... WHERE p` returns when rows are identified by their position.
   */
  function Where<T>(s: seq<T>, p: T -> bool): (r: seq<nat>)
    ensures forall i :: 0 <= i < |r| ==> r[i] < |s| && p(s[r[i]])
    ensures forall j :: 0 <= j < |s| && p(s[j]) ==> j in r
  {
    var ids := Range(|s|);
    assert forall j :: 0 <= j < |s| && p(s[j]) ==> At(s, p)(ids[j]);
    Filter(ids, At(s, p))
  }

  lemma WhereNoDup<T>(s: seq<T>, p: T -> bool)
    ensures NoDup(Where(s, p))
  {
    FilterNoDup(Range(|s|), At(s, p));
  }

  /** There are as many matching ids as matching elements. */
  lemma {:induction false} WhereCount<T>(s: seq<T>, p: T -> bool)
    ensures |Where(s, p)| == |Filter(s, p)|
    decreases |s|
  {
    if s != [] {
      var n := |s| - 1;
      var t := s[..n];
      assert s == t + [s[n]];
      var last: seq<nat> := [n];
      assert Range(n + 1) == Range(n) + last;
      FilterConcat(Range(n), last, At(s, p));
      FilterConcat(t, [s[n]], p);
      WhereCount(t, p);
      FilterSamePred(Range(n), At(s, p), At(t, p));
      assert Where(s, p) == Where(t, p) + Filter(last, At(s, p));
      assert Filter(s, p) == Filter(t, p) + Filter([s[n]], p);
    }
  }

  /** `order` lists every index 0 .. n-1 exactly once: a permutation of the indices. */
  ghost predicate IsRank(order: seq<nat>, n: nat)
  {
    multiset(order) == multiset(Range(n))
  }

  lemma {:induction false} RangeOnce(n: nat, x: nat)
    ensures multiset(Range(n))[x] <= 1
    ensures x < n ==> multiset(Range(n))[x] == 1
  {
    if n > 0 {
      RangeOnce(n - 1, x);
      assert Range(n) == Range(n - 1) + [n - 1];
    }
  }

  /** The indices of `s` that satisfy `p`, listed in the order `rank` gives. */
  function InRankOrder<T>(s: seq<T>, p: T -> bool, rank: seq<nat>): (r: seq<nat>)
    ensures forall i :: 0 <= i < |r| ==> r[i] < |s| && p(s[r[i]])
  {
    Filter(rank, At(s, p))
  }

  /** Listing by a rank gives exactly the matching indices, each once. */
  lemma RankOrderIsPermutation<T>(s: seq<T>, p: T -> bool, rank: seq<nat>)
    requires IsRank(rank, |s|)
    ensures multiset(InRankOrder(s, p, rank)) == multiset(Where(s, p))
    ensures |InRankOrder(s, p, rank)| == |Where(s, p)| == |Filter(s, p)|
    ensures NoDup(InRankOrder(s, p, rank))
  {
    FilterSameMultiset(rank, Range(|s|), At(s, p));
    WhereCount(s, p);
    WhereNoDup(s, p);
    MultisetNoDup(Where(s, p), InRankOrder(s, p, rank));
  }

  lemma MultisetNoDup<T>(a: seq<T>, b: seq<T>)
    requires multiset(a) == multiset(b) && NoDup(a)
    ensures NoDup(b)
  {
    forall i, j | 0 <= i < j < |b| ensures b[i] != b[j] {
      var x := b[i];
      assert b == b[..i] + [x] + b[i + 1..j] + [b[j]] + b[j + 1..];
      assert multiset(b)[x] >= 1 + (if b[j] == x then 1 else 0);
      NoDupOnce(a, x);
    }
  }

  lemma {:induction false} NoDupOnce<T>(a: seq<T>, x: T)
    requires NoDup(a)
    ensures multiset(a)[x] <= 1
  {
    if a != [] {
      assert a == [a[0]] + a[1..];
      NoDupOnce(a[1..], x);
      assert a[0] == x ==> x !in a[1..] by {
        forall k | 0 <= k < |a[1..]| ensures a[1..][k] != a[0] {
          assert a[1..][k] == a[k + 1];
        }
      }
    }
  }

  /** Ascending by `key`. */
  ghost predicate SortedBy<T>(s: seq<T>, key: T -> int)
  {
    forall i, j :: 0 <= i < j < |s| ==> key(s[i]) <= key(s[j])
  }

  /** Insert `x` before the first element whose key is not smaller. */
  function InsertBy<T>(x: T, s: seq<T>, key: T -> int): (r: seq<T>)
    ensures multiset(r) == multiset(s) + multiset{x}
    ensures |r| == |s| + 1
    ensures forall i :: 0 <= i < |r| ==> r[i] == x || r[i] in s
  {
    if s == [] then [x]
    else if key(x) <= key(s[0]) then [x] + s
    else
      assert s == [s[0]] + s[1..];
      [s[0]] + InsertBy(x, s[1..], key)
  }

  lemma {:induction false} InsertBySorted<T>(x: T, s: seq<T>, key: T -> int)
    requires SortedBy(s, key)
    ensures SortedBy(InsertBy(x, s, key), key)
  {
    if s != [] && key(x) > key(s[0]) {
      SortedTail(s, key);
      InsertBySorted(x, s[1..], key);
      InsertAbove(x, s, key);
      SortedCons(s[0], InsertBy(x, s[1..], key), key);
    }
  }

  /** Inserting past the head of a sorted sequence only adds elements with keys at least the head's. */
  lemma InsertAbove<T>(x: T, s: seq<T>, key: T -> int)
    requires s != [] && SortedBy(s, key) && key(x) > key(s[0])
    ensures forall i :: 0 <= i < |InsertBy(x, s[1..], key)| ==> key(s[0]) <= key(InsertBy(x, s[1..], key)[i])
  {
    var t := s[1..];
    var r := InsertBy(x, t, key);
    forall i | 0 <= i < |r| ensures key(s[0]) <= key(r[i]) {
      assert r[i] in multiset(r);
      if r[i] != x {
        assert r[i] in multiset(t);
        var j :| 0 <= j < |t| && t[j] == r[i];
        assert t[j] == s[j + 1];
      }
    }
  }

  lemma SortedCons<T>(y: T, r: seq<T>, key: T -> int)
    requires SortedBy(r, key)
    requires forall i :: 0 <= i < |r| ==> key(y) <= key(r[i])
    ensures SortedBy([y] + r, key)
  {
    var s := [y] + r;
    forall i, j | 0 <= i < j < |s| ensures key(s[i]) <= key(s[j]) {
      assert s[j] == r[j - 1];
      if i > 0 {
        assert s[i] == r[i - 1];
      }
    }
  }

  /**
   * Insertion sort by an integer key, ascending. It is stable: each element is inserted
   * in front of the later elements with the same key.
   */
  function SortBy<T>(s: seq<T>, key: T -> int): (r: seq<T>)
    ensures multiset(r) == multiset(s)
    ensures |r| == |s|
    ensures forall i :: 0 <= i < |r| ==> r[i] in s
  {
    if s == [] then []
    else
      assert s == [s[0]] + s[1..];
      InsertBy(s[0], SortBy(s[1..], key), key)
  }

  lemma {:induction false} SortBySorted<T>(s: seq<T>, key: T -> int)
    ensures SortedBy(SortBy(s, key), key)
  {
    if s != [] {
      SortBySorted(s[1..], key);
      InsertBySorted(s[0], SortBy(s[1..], key), key);
    }
  }

  lemma SortedTail<T>(s: seq<T>, key: T -> int)
    requires s != [] && SortedBy(s, key)
    ensures SortedBy(s[1..], key)
  {
    var t := s[1..];
    forall i, j | 0 <= i < j < |t| ensures key(t[i]) <= key(t[j]) {
      assert t[i] == s[i + 1] && t[j] == s[j + 1];
    }
  }

  lemma SortedFront<T>(s: seq<T>, key: T -> int)
    requires s != [] && SortedBy(s, key)
    ensures InsertBy(s[0], s[1..], key) == s
  {
    if |s| > 1 {
      assert key(s[0]) <= key(s[1..][0]);
    }
    assert s == [s[0]] + s[1..];
  }

  /** An already sorted sequence is left as it is (the sort is stable). */
  lemma {:induction false} SortBySortedIdentity<T>(s: seq<T>, key: T -> int)
    requires SortedBy(s, key)
    ensures SortBy(s, key) == s
  {
    if s != [] {
      var t := s[1..];
      SortedTail(s, key);
      SortBySortedIdentity(t, key);
      SortedFront(s, key);
    }
  }

  /** The first index whose element satisfies `p`, if any. */
  function FirstWhere<T>(s: seq<T>, p: T -> bool): (r: Option<nat>)
    ensures r.None? <==> forall j :: 0 <= j < |s| ==> !p(s[j])
    ensures r.Some? ==> r.value < |s| && p(s[r.value]) && forall j :: 0 <= j < r.value ==> !p(s[j])
  {
    if s == [] then None
    else if p(s[0]) then Some(0)
    else
      match FirstWhere(s[1..], p)
      case None => None
      case Some(k) => Some(k + 1)
  }
}
