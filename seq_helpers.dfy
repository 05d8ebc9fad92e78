/**
  Sequence building blocks for the query semantics: enumerating the indices
  that satisfy a condition, `DISTINCT`, `collect`, `LIMIT`, sums for `avg`
  and a stable sort for `ORDER BY ... DESC`.
*/
module SeqHelpers {

  /** Strictly increasing, hence without repetition. */
  predicate Increasing(s: seq<nat>) {
    forall i, j :: 0 <= i < j < |s| ==> s[i] < s[j]
  }

  predicate Distinct<T(==)>(s: seq<T>) {
    forall i, j :: 0 <= i < j < |s| ==> s[i] != s[j]
  }

  lemma IncreasingIsDistinct(s: seq<nat>)
    requires Increasing(s)
    ensures Distinct(s)
  {
  }

  /** The indices below `n` that satisfy `p`, in ascending order. */
  function Select(n: nat, p: nat -> bool): (r: seq<nat>)
    ensures forall i: nat :: i in r <==> i < n && p(i)
    ensures Increasing(r)
    ensures forall k :: 0 <= k < |r| ==> r[k] < n && p(r[k])
  {
    if n == 0 then []
    else
      var s := Select(n - 1, p);
      if p(n - 1) then s + [n - 1] else s
  }

  /** Keeps the first occurrence of every element, in order. */
  function Dedup<T(==,!new)>(s: seq<T>): (r: seq<T>)
    ensures forall x :: x in r <==> x in s
    ensures Distinct(r)
    ensures |r| <= |s|
  {
    if s == [] then []
    else
      var d := Dedup(s[..|s| - 1]);
      var last := s[|s| - 1];
      assert forall x :: x in s <==> x in s[..|s| - 1] || x == last;
      if last in d then d else d + [last]
  }

  /** On a sequence that already has no repetition, `Dedup` changes nothing. */
  lemma {:induction false} DedupOfDistinct<T(!new)>(s: seq<T>)
    requires Distinct(s)
    ensures Dedup(s) == s
  {
    if s != [] {
      var init := s[..|s| - 1];
      assert Distinct(init);
      DedupOfDistinct(init);
      assert s[|s| - 1] !in init;
      assert init + [s[|s| - 1]] == s;
    }
  }

  /** Concatenation of a sequence of sequences. */
  function Flatten<T(!new)>(ss: seq<seq<T>>): (r: seq<T>)
    ensures forall x :: x in r <==> exists i :: 0 <= i < |ss| && x in ss[i]
  {
    if ss == [] then []
    else
      var init := ss[..|ss| - 1];
      var r := Flatten(init) + ss[|ss| - 1];
      assert forall i :: 0 <= i < |ss| - 1 ==> ss[i] == init[i];
      r
  }

  /** The positions in `s` whose element satisfies `p`, in ascending order. */
  function FilterPositions<T>(s: seq<T>, p: T -> bool): (idx: seq<nat>)
    ensures Increasing(idx)
    ensures forall k :: 0 <= k < |idx| ==> idx[k] < |s| && p(s[idx[k]])
    ensures forall i :: 0 <= i < |s| && p(s[i]) ==> i in idx
  {
    if s == [] then []
    else
      var init := s[..|s| - 1];
      var r := FilterPositions(init, p);
      assert forall k :: 0 <= k < |r| ==> s[r[k]] == init[r[k]];
      if p(s[|s| - 1]) then r + [|s| - 1] else r
  }

  /**
    The elements of `s` that satisfy `p`, in order: exactly the elements at
    the positions `FilterPositions` lists.
  */
  function Filter<T(!new)>(s: seq<T>, p: T -> bool): (r: seq<T>)
    ensures forall x :: x in r <==> x in s && p(x)
    ensures |r| <= |s|
    ensures Distinct(s) ==> Distinct(r)
    ensures |r| == |FilterPositions(s, p)|
    ensures forall k :: 0 <= k < |r| ==> r[k] == s[FilterPositions(s, p)[k]]
  {
    if s == [] then []
    else
      var init := s[..|s| - 1];
      var last := s[|s| - 1];
      assert forall x :: x in s <==> x in init || x == last;
      assert Distinct(s) ==> Distinct(init) && last !in init;
      var fi := Filter(init, p);
      var idx := FilterPositions(init, p);
      assert forall k :: 0 <= k < |fi| ==> fi[k] == s[idx[k]] by {
        forall k | 0 <= k < |fi| ensures fi[k] == s[idx[k]] {
          assert idx[k] < |init|;
        }
      }
      fi + (if p(last) then [last] else [])
  }

  /** `LIMIT k`. */
  function Take<T>(s: seq<T>, k: nat): (r: seq<T>)
    ensures |r| == if |s| < k then |s| else k
    ensures forall i :: 0 <= i < |r| ==> r[i] == s[i]
  {
    if |s| <= k then s else s[..k]
  }

  /** f(0) + ... + f(n - 1). */
  function SumTo(n: nat, f: nat -> real): real {
    if n == 0 then 0.0 else SumTo(n - 1, f) + f(n - 1)
  }

  /** A sum of non-negative terms one of which is positive is positive. */
  lemma {:induction false} SumToPositive(n: nat, f: nat -> real, k: nat)
    requires forall i :: 0 <= i < n ==> f(i) >= 0.0
    requires k < n && f(k) > 0.0
    ensures SumTo(n, f) > 0.0
  {
    if k < n - 1 {
      SumToPositive(n - 1, f, k);
    } else {
      SumToNonNegative(n - 1, f);
    }
  }

  lemma {:induction false} SumToNonNegative(n: nat, f: nat -> real)
    requires forall i :: 0 <= i < n ==> f(i) >= 0.0
    ensures SumTo(n, f) >= 0.0
  {
    if n > 0 {
      SumToNonNegative(n - 1, f);
    }
  }

  /** Non-negative terms each at most `hi * w(i)` sum to at most `hi` times the sum of weights. */
  lemma {:induction false} SumToBounded(n: nat, f: nat -> real, w: nat -> real, hi: real)
    requires forall i :: 0 <= i < n ==> 0.0 <= f(i) <= hi * w(i)
    ensures 0.0 <= SumTo(n, f) <= hi * SumTo(n, w)
  {
    if n > 0 {
      SumToBounded(n - 1, f, w, hi);
      MulDistributes(hi, SumTo(n - 1, w), w(n - 1));
    }
  }

  lemma MulDistributes(c: real, a: real, b: real)
    ensures c * (a + b) == c * a + c * b
  {
  }

  /** Non-increasing under `key`. */
  predicate SortedDesc(s: seq<nat>, key: nat -> real) {
    forall i, j :: 0 <= i < j < |s| ==> key(s[i]) >= key(s[j])
  }

  /** Inserts `x` before the first element whose key is not above `key(x)`. */
  function Insert(x: nat, s: seq<nat>, key: nat -> real): (r: seq<nat>)
    ensures multiset(r) == multiset(s) + multiset{x}
    ensures |r| == |s| + 1
  {
    if s == [] || key(s[0]) <= key(x) then [x] + s
    else
      assert s == [s[0]] + s[1..];
      [s[0]] + Insert(x, s[1..], key)
  }

  /** Every key of `s` is at most `v`. */
  predicate KeysAtMost(s: seq<nat>, key: nat -> real, v: real) {
    forall i :: 0 <= i < |s| ==> key(s[i]) <= v
  }

  lemma {:induction false} InsertKeepsBound(x: nat, s: seq<nat>, key: nat -> real, v: real)
    requires KeysAtMost(s, key, v) && key(x) <= v
    ensures KeysAtMost(Insert(x, s, key), key, v)
  {
    if s != [] && key(s[0]) > key(x) {
      InsertKeepsBound(x, s[1..], key, v);
    }
  }

  lemma {:induction false} InsertKeepsSorted(x: nat, s: seq<nat>, key: nat -> real)
    requires SortedDesc(s, key)
    ensures SortedDesc(Insert(x, s, key), key)
  {
    if s != [] && key(s[0]) > key(x) {
      var t := Insert(x, s[1..], key);
      InsertKeepsSorted(x, s[1..], key);
      InsertKeepsBound(x, s[1..], key, key(s[0]));
      var r := [s[0]] + t;
      assert Insert(x, s, key) == r;
      forall i, j | 0 <= i < j < |r| ensures key(r[i]) >= key(r[j]) {
        assert r[j] == t[j - 1];
        if i > 0 {
          assert r[i] == t[i - 1];
        }
      }
    } else {
      var r := [x] + s;
      assert Insert(x, s, key) == r;
      forall i, j | 0 <= i < j < |r| ensures key(r[i]) >= key(r[j]) {
        assert r[j] == s[j - 1];
        if i > 0 {
          assert r[i] == s[i - 1];
        }
      }
    }
  }

  /** A stable sort by descending key (insertion sort). */
  function SortDesc(s: seq<nat>, key: nat -> real): (r: seq<nat>)
    ensures multiset(r) == multiset(s)
    ensures |r| == |s|
    ensures SortedDesc(r, key)
  {
    if s == [] then []
    else
      assert s == [s[0]] + s[1..];
      var t := SortDesc(s[1..], key);
      InsertKeepsSorted(s[0], t, key);
      Insert(s[0], t, key)
  }

  /** Sorting keeps the elements and, for a sequence without repetition, keeps that too. */
  lemma SortDescKeepsElements(s: seq<nat>, key: nat -> real)
    ensures forall x :: x in SortDesc(s, key) <==> x in s
    ensures Distinct(s) ==> Distinct(SortDesc(s, key))
  {
    var r := SortDesc(s, key);
    forall x ensures x in r <==> x in s {
      assert x in r <==> x in multiset(r);
    }
    if Distinct(s) {
      forall i, j | 0 <= i < j < |r| ensures r[i] != r[j] {
        if r[i] == r[j] {
          assert multiset(r)[r[i]] >= 2 by {
            assert r == r[..i] + [r[i]] + r[i + 1..];
            assert r[j] in r[i + 1..];
          }
          DistinctCountsOne(s, r[i]);
        }
      }
    }
  }

  /** In a sequence without repetition every element occurs once. */
  lemma {:induction false} DistinctCountsOne(s: seq<nat>, x: nat)
    requires Distinct(s)
    ensures multiset(s)[x] <= 1
  {
    if s != [] {
      var init := s[..|s| - 1];
      assert s == init + [s[|s| - 1]];
      assert Distinct(init);
      DistinctCountsOne(init, x);
      assert s[|s| - 1] !in init;
      assert s[|s| - 1] !in multiset(init);
    }
  }

  /** `ORDER BY key DESC LIMIT k`: the first `k` elements of the stable descending sort. */
  function TopBy(s: seq<nat>, key: nat -> real, k: nat): (r: seq<nat>)
    ensures |r| <= k
    ensures forall i :: 0 <= i < |r| ==> r[i] in s
    ensures Distinct(s) ==> Distinct(r)
    ensures SortedDesc(r, key)
    ensures forall x :: x in s && x !in r ==> |r| == k && forall i :: 0 <= i < |r| ==> key(r[i]) >= key(x)
  {
    var sorted := SortDesc(s, key);
    SortDescKeepsElements(s, key);
    var r := Take(sorted, k);
    assert forall i :: 0 <= i < |r| ==> r[i] in sorted;
    forall x | x in s && x !in r
      ensures |r| == k && forall i :: 0 <= i < |r| ==> key(r[i]) >= key(x)
    {
      var idx :| 0 <= idx < |sorted| && sorted[idx] == x;
    }
    r
  }
}
