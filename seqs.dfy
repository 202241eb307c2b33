// Sequence helpers shared by the ticket generator and the game store.

module Seqs {

  datatype Option<T> = None | Some(value: T)

  /** Sum of a sequence of integers. */
  function Sum(s: seq<int>): int
  {
    if s == [] then 0 else Sum(s[..|s| - 1]) + s[|s| - 1]
  }

  /** No value occurs twice. */
  predicate Distinct(s: seq<int>)
  {
    forall i, j :: 0 <= i < j < |s| ==> s[i] != s[j]
  }

  /** Non-decreasing order, as a numeric ascending sort leaves it. */
  predicate Sorted(s: seq<int>)
  {
    forall i, j :: 0 <= i < j < |s| ==> s[i] <= s[j]
  }

  predicate StrictlyIncreasing(s: seq<int>)
  {
    forall i, j :: 0 <= i < j < |s| ==> s[i] < s[j]
  }

  /** `s` with every occurrence of `x` taken out. */
  function Without(s: seq<int>, x: int): (r: seq<int>)
    ensures forall y :: y in r <==> y in s && y != x
    ensures x in s ==> |r| < |s|
    ensures |r| <= |s|
  {
    if s == [] then []
    else if s[0] == x then Without(s[1..], x)
    else [s[0]] + Without(s[1..], x)
  }

  /** `s` with the element at index `i` spliced out. */
  function RemoveAt<T>(s: seq<T>, i: nat): (r: seq<T>)
    requires i < |s|
    ensures |r| == |s| - 1
    ensures forall k :: 0 <= k < i ==> r[k] == s[k]
    ensures forall k :: i <= k < |r| ==> r[k] == s[k + 1]
  {
    s[..i] + s[i + 1..]
  }

  /** Splicing out index `i` of a distinct sequence removes exactly `s[i]`. */
  lemma RemoveAtDistinct<T>(s: seq<T>, i: nat)
    requires i < |s|
    requires forall a, b :: 0 <= a < b < |s| ==> s[a] != s[b]
    ensures forall a, b :: 0 <= a < b < |RemoveAt(s, i)| ==> RemoveAt(s, i)[a] != RemoveAt(s, i)[b]
    ensures forall q :: q in RemoveAt(s, i) <==> q in s && q != s[i]
  {
    var t := RemoveAt(s, i);
    forall a, b | 0 <= a < b < |t| ensures t[a] != t[b] {
      var a', b' := if a < i then a else a + 1, if b < i then b else b + 1;
      assert t[a] == s[a'] && t[b] == s[b'];
    }
    forall q ensures q in t <==> q in s && q != s[i] {
      if q in t {
        var k :| 0 <= k < |t| && t[k] == q;
        if k < i { assert s[k] == q; } else { assert s[k + 1] == q; }
      }
      if q in s && q != s[i] {
        var k :| 0 <= k < |s| && s[k] == q;
        if k < i { assert t[k] == q; } else { assert t[k - 1] == q; }
      }
    }
  }

  lemma {:induction false} WithoutKeepsDistinct(s: seq<int>, x: int)
    requires Distinct(s)
    ensures Distinct(Without(s, x))
  {
    if s != [] {
      assert Distinct(s[1..]);
      WithoutKeepsDistinct(s[1..], x);
      if s[0] != x {
        assert s[0] !in s[1..];
        var rest := Without(s[1..], x);
        assert Without(s, x) == [s[0]] + rest;
      }
    }
  }

  /** Insert `x` into a sequence before the first element not smaller than it. */
  function Insert(x: int, s: seq<int>): (r: seq<int>)
    ensures multiset(r) == multiset(s) + multiset{x}
  {
    if s == [] || x <= s[0] then [x] + s
    else
      assert s == [s[0]] + s[1..];
      [s[0]] + Insert(x, s[1..])
  }

  lemma InsertMembers(x: int, s: seq<int>)
    ensures forall y :: y in Insert(x, s) ==> y == x || y in s
  {
    forall y | y in Insert(x, s) ensures y == x || y in s {
      assert y in multiset(Insert(x, s));
    }
  }

  lemma {:induction false} InsertKeepsSorted(x: int, s: seq<int>)
    requires Sorted(s)
    ensures Sorted(Insert(x, s))
  {
    if s != [] && x > s[0] {
      var rest := Insert(x, s[1..]);
      InsertKeepsSorted(x, s[1..]);
      InsertMembers(x, s[1..]);
      var r := [s[0]] + rest;
      assert Insert(x, s) == r;
      forall i, j | 0 <= i < j < |r| ensures r[i] <= r[j] {
        if i == 0 {
          assert r[0] == s[0] && r[j] == rest[j - 1] && rest[j - 1] in rest;
        } else {
          assert r[i] == rest[i - 1] && r[j] == rest[j - 1];
        }
      }
    }
  }

  /** Numeric ascending sort, as an insertion sort. */
  function SortAscending(s: seq<int>): (r: seq<int>)
    ensures Sorted(r) && multiset(r) == multiset(s)
  {
    if s == [] then []
    else
      assert s == s[..|s| - 1] + [s[|s| - 1]];
      var sortedPrefix := SortAscending(s[..|s| - 1]);
      InsertKeepsSorted(s[|s| - 1], sortedPrefix);
      Insert(s[|s| - 1], sortedPrefix)
  }

  lemma {:induction false} SumAppend(s: seq<int>, t: seq<int>)
    ensures Sum(s + t) == Sum(s) + Sum(t)
  {
    if t == [] {
      assert s + t == s;
    } else {
      assert (s + t)[..|s + t| - 1] == s + t[..|t| - 1];
      SumAppend(s, t[..|t| - 1]);
    }
  }

  /** Changing one element changes the sum by the difference. */
  lemma {:induction false} SumUpdate(s: seq<int>, i: nat, v: int)
    requires i < |s|
    ensures Sum(s[i := v]) == Sum(s) - s[i] + v
  {
    if i == |s| - 1 {
      assert s[i := v][..|s| - 1] == s[..|s| - 1];
    } else {
      assert s[i := v][..|s| - 1] == s[..|s| - 1][i := v];
      SumUpdate(s[..|s| - 1], i, v);
    }
  }

  /** The sum of a prefix one longer adds the next element. */
  lemma SumPrefixNext(s: seq<int>, i: nat)
    requires i < |s|
    ensures Sum(s[..i + 1]) == Sum(s[..i]) + s[i]
  {
    assert s[..i + 1][..i] == s[..i];
  }

  /** With every element at least `lo`, a prefix leaves at least `lo` per
      remaining element of the total. */
  lemma SumPrefixLeaves(s: seq<int>, i: nat, lo: int)
    requires i <= |s| && forall k :: 0 <= k < |s| ==> lo <= s[k]
    ensures Sum(s[..i]) + lo * (|s| - i) <= Sum(s)
  {
    assert s == s[..i] + s[i..];
    SumAppend(s[..i], s[i..]);
    SumAtLeast(s[i..], lo);
  }

  /** Element-wise lower bounds give a lower bound on the sum. */
  lemma {:induction false} SumAtLeast(s: seq<int>, lo: int)
    requires forall i :: 0 <= i < |s| ==> lo <= s[i]
    ensures lo * |s| <= Sum(s)
  {
    if s != [] {
      SumAtLeast(s[..|s| - 1], lo);
    }
  }

  /** Element-wise upper bounds give an upper bound on the sum. */
  lemma {:induction false} SumAtMost(s: seq<int>, hi: int)
    requires forall i :: 0 <= i < |s| ==> s[i] <= hi
    ensures Sum(s) <= hi * |s|
  {
    if s != [] {
      SumAtMost(s[..|s| - 1], hi);
    }
  }

  /** If the elements sum to less than `n * |s|`, one of them is below `n`. */
  lemma SomeBelow(s: seq<int>, n: int) returns (i: nat)
    requires Sum(s) < n * |s|
    ensures i < |s| && s[i] < n
  {
    if forall k :: 0 <= k < |s| ==> n <= s[k] {
      SumAtLeast(s, n);
    }
    i :| 0 <= i < |s| && s[i] < n;
  }

  /** Pigeonhole: fewer excluded values than the range holds leaves a value free. */
  lemma {:induction false} FreeValueExists(lo: int, hi: int, exclude: seq<int>)
    requires lo <= hi && |exclude| <= hi - lo
    ensures exists n :: lo <= n <= hi && n !in exclude
    decreases hi - lo
  {
    if hi in exclude {
      var rest := Without(exclude, hi);
      FreeValueExists(lo, hi - 1, rest);
      var n :| lo <= n <= hi - 1 && n !in rest;
      assert n !in exclude;
    } else {
      assert hi !in exclude;
    }
  }

  /** A sequence is distinct exactly when no value has multiplicity above one. */
  lemma {:induction false} DistinctMultiplicity(s: seq<int>)
    ensures Distinct(s) <==> forall x :: multiset(s)[x] <= 1
  {
    if s != [] {
      var p, last := s[..|s| - 1], s[|s| - 1];
      assert s == p + [last];
      DistinctMultiplicity(p);
      assert multiset(s) == multiset(p) + multiset{last};
      if Distinct(s) {
        assert Distinct(p);
        assert forall k :: 0 <= k < |p| ==> p[k] == s[k] != s[|s| - 1];
        assert last !in p;
      }
      if forall x :: multiset(s)[x] <= 1 {
        assert forall x :: multiset(p)[x] <= multiset(s)[x];
        assert multiset(p)[last] == 0;
        forall i, j | 0 <= i < j < |s| ensures s[i] != s[j] {
          if j == |s| - 1 {
            assert s[i] in multiset(p);
          } else {
            assert p[i] != p[j];
          }
        }
      }
    }
  }

  /** Reordering keeps distinctness. */
  lemma PermutationKeepsDistinct(s: seq<int>, t: seq<int>)
    requires multiset(s) == multiset(t) && Distinct(s)
    ensures Distinct(t)
  {
    DistinctMultiplicity(s);
    DistinctMultiplicity(t);
  }

  lemma SortedDistinctIsStrict(t: seq<int>)
    requires Sorted(t) && Distinct(t)
    ensures StrictlyIncreasing(t)
  {
  }

  /** Taking out a value the sequence lacks changes nothing. */
  lemma {:induction false} WithoutAbsent(s: seq<int>, x: int)
    requires x !in s
    ensures Without(s, x) == s
  {
    if s != [] {
      assert x !in s[1..];
      WithoutAbsent(s[1..], x);
      assert [s[0]] + s[1..] == s;
    }
  }

  /** In a sequence without repeats, a present value occurs exactly once. */
  lemma {:induction false} WithoutDistinctLength(s: seq<int>, x: int)
    requires Distinct(s) && x in s
    ensures |Without(s, x)| == |s| - 1
  {
    assert Distinct(s[1..]);
    if s[0] == x {
      assert x !in s[1..];
      WithoutAbsent(s[1..], x);
    } else {
      assert x in s[1..];
      WithoutDistinctLength(s[1..], x);
    }
  }

  /** Values without repeats drawn from lo..hi number at most hi - lo + 1. */
  lemma {:induction false} DistinctInRange(s: seq<int>, lo: int, hi: int)
    requires lo <= hi + 1
    requires Distinct(s) && forall k :: 0 <= k < |s| ==> lo <= s[k] <= hi
    ensures |s| <= hi - lo + 1
    decreases hi - lo + 1
  {
    if s != [] {
      assert lo <= s[0] <= hi;
      var t := Without(s, hi);
      WithoutKeepsDistinct(s, hi);
      forall k | 0 <= k < |t| ensures lo <= t[k] <= hi - 1 {
        assert t[k] in t;
        var j :| 0 <= j < |s| && s[j] == t[k];
      }
      DistinctInRange(t, lo, hi - 1);
      assert |t| <= hi - lo;
      if hi in s {
        WithoutDistinctLength(s, hi);
        assert |s| == |t| + 1;
      } else {
        WithoutAbsent(s, hi);
        assert |s| == |t|;
      }
    }
  }
}
