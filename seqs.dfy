/**
  List helpers shared by the scoring engine and the slides: the handful of
  JavaScript array idioms the source relies on (`reduce` sums, `filter().length`,
  `Array.from(new Set(xs))`, `slice` with negative indices, and a stable
  `sort` by a numeric key), each stated once with what it promises.
 */
module Seqs {

  datatype Option<T> = None | Some(value: T)

  function Min(a: real, b: real): real { if a <= b then a else b }
  function Max(a: real, b: real): real { if a >= b then a else b }

  // ---------------------------------------------------------------------------
  // Sums and counts
  // ---------------------------------------------------------------------------

  /** The sum of a list, 0 when it is empty. */
  function Sum(xs: seq<int>): int
    decreases |xs|
  {
    if xs == [] then 0 else Sum(xs[..|xs| - 1]) + xs[|xs| - 1]
  }

  /** How many elements are positive. */
  function CountPositive(xs: seq<int>): (r: nat)
    ensures r <= |xs|
    ensures r == 0 <==> forall i :: 0 <= i < |xs| ==> xs[i] <= 0
    ensures r == |xs| <==> forall i :: 0 <= i < |xs| ==> xs[i] > 0
    decreases |xs|
  {
    if xs == [] then 0
    else
      var rest := CountPositive(xs[1..]);
      assert forall i :: 1 <= i < |xs| ==> xs[i] == xs[1..][i - 1];
      rest + (if xs[0] > 0 then 1 else 0)
  }

  /** Number of occurrences of `x` in `xs`. */
  function Count<T(==)>(xs: seq<T>, x: T): (r: nat)
    ensures r <= |xs|
    decreases |xs|
  {
    if xs == [] then 0 else Count(xs[..|xs| - 1], x) + (if xs[|xs| - 1] == x then 1 else 0)
  }

  /** An element occurs zero times exactly when it is absent. */
  lemma {:induction false} CountZero<T>(xs: seq<T>, x: T)
    ensures Count(xs, x) == 0 <==> x !in xs
    decreases |xs|
  {
    if xs != [] {
      var init := xs[..|xs| - 1];
      assert xs == init + [xs[|xs| - 1]];
      CountZero(init, x);
    }
  }

  /** Sum, over the keys, of how often each key occurs in `xs`. */
  function SumCounts<T(==)>(keys: seq<T>, xs: seq<T>): nat
    decreases |keys|
  {
    if keys == [] then 0
    else SumCounts(keys[..|keys| - 1], xs) + Count(xs, keys[|keys| - 1])
  }

  predicate Distinct<T(==)>(s: seq<T>)
  {
    forall i, j :: 0 <= i < j < |s| ==> s[i] != s[j]
  }

  // ---------------------------------------------------------------------------
  // Array.from(new Set(xs)): first occurrences, in order
  // ---------------------------------------------------------------------------

  /** Index of the first occurrence of `x` in `xs`. */
  function FirstIndex<T(==)>(xs: seq<T>, x: T): (k: nat)
    requires x in xs
    ensures k < |xs| && xs[k] == x
    ensures forall j :: 0 <= j < k ==> xs[j] != x
  {
    if xs[0] == x then 0 else 1 + FirstIndex(xs[1..], x)
  }

  lemma {:induction false} FirstIndexSnoc<T>(init: seq<T>, x: T)
    ensures forall y :: y in init ==> FirstIndex(init + [x], y) == FirstIndex(init, y)
    ensures x !in init ==> FirstIndex(init + [x], x) == |init|
    decreases |init|
  {
    if init != [] {
      assert (init + [x])[1..] == init[1..] + [x];
      FirstIndexSnoc(init[1..], x);
    }
  }

  /**
    The elements of `xs` without repetitions, each kept at the place of its
    first occurrence: what `Array.from(new Set(xs))` yields, since a JavaScript
    `Set` iterates in insertion order.
   */
  function Dedup<T(==)>(xs: seq<T>): (r: seq<T>)
    ensures |r| <= |xs|
    decreases |xs|
  {
    if xs == [] then []
    else
      var init, x := xs[..|xs| - 1], xs[|xs| - 1];
      if x in init then Dedup(init) else Dedup(init) + [x]
  }

  /** `Dedup(xs)` holds exactly the elements of `xs`. */
  lemma {:induction false} DedupMembers<T>(xs: seq<T>)
    ensures forall i :: 0 <= i < |Dedup(xs)| ==> Dedup(xs)[i] in xs
    ensures forall i :: 0 <= i < |xs| ==> xs[i] in Dedup(xs)
    decreases |xs|
  {
    if xs != [] {
      var init := xs[..|xs| - 1];
      assert xs == init + [xs[|xs| - 1]];
      DedupMembers(init);
    }
  }

  /** Each element appears once, in the order of first occurrences, and none is lost. */
  lemma DedupSpec<T>(xs: seq<T>)
    ensures Distinct(Dedup(xs))
    ensures forall i :: 0 <= i < |Dedup(xs)| ==> Dedup(xs)[i] in xs
    ensures forall i :: 0 <= i < |xs| ==> xs[i] in Dedup(xs)
    ensures forall i, j :: 0 <= i < j < |Dedup(xs)| ==> FirstIndex(xs, Dedup(xs)[i]) < FirstIndex(xs, Dedup(xs)[j])
  {
    DedupMembers(xs);
    DedupDistinct(xs);
    DedupOrdered(xs);
  }

  lemma {:induction false} DedupDistinct<T>(xs: seq<T>)
    ensures Distinct(Dedup(xs))
    decreases |xs|
  {
    if xs != [] {
      var init, x := xs[..|xs| - 1], xs[|xs| - 1];
      DedupDistinct(init);
      if x !in init {
        DedupMembers(init);
        var d := Dedup(init);
        assert Dedup(xs) == d + [x];
        forall i, j | 0 <= i < j < |d| + 1 ensures (d + [x])[i] != (d + [x])[j] {
          if j == |d| {
            assert d[i] in init;
          }
        }
      }
    }
  }

  lemma {:induction false} DedupOrdered<T>(xs: seq<T>)
    ensures forall i :: 0 <= i < |Dedup(xs)| ==> Dedup(xs)[i] in xs
    ensures forall i, j :: 0 <= i < j < |Dedup(xs)| ==> FirstIndex(xs, Dedup(xs)[i]) < FirstIndex(xs, Dedup(xs)[j])
    decreases |xs|
  {
    DedupMembers(xs);
    if xs != [] {
      var init, x := xs[..|xs| - 1], xs[|xs| - 1];
      assert xs == init + [x];
      DedupOrdered(init);
      DedupMembers(init);
      FirstIndexSnoc(init, x);
      var d := Dedup(init);
      forall i | 0 <= i < |d| ensures FirstIndex(xs, d[i]) == FirstIndex(init, d[i]) < |init| {
        assert d[i] in init;
      }
      if x !in init {
        var r := d + [x];
        assert Dedup(xs) == r;
        forall i, j | 0 <= i < j < |r| ensures FirstIndex(xs, r[i]) < FirstIndex(xs, r[j]) {
          assert r[i] == d[i];
          if j < |d| {
            assert r[j] == d[j];
          }
        }
      }
    }
  }

  /** Appending an element extends the de-duplicated list only if the element is new. */
  lemma DedupSnoc<T>(xs: seq<T>, x: T)
    ensures Dedup(xs + [x]) == if x in xs then Dedup(xs) else Dedup(xs) + [x]
  {
    assert (xs + [x])[..|xs|] == xs;
  }

  lemma {:induction false} CountSnoc<T>(xs: seq<T>, x: T, y: T)
    ensures Count(xs + [x], y) == Count(xs, y) + (if x == y then 1 else 0)
  {
    assert (xs + [x])[..|xs + [x]| - 1] == xs;
  }

  lemma {:induction false} SumCountsSnoc<T>(keys: seq<T>, xs: seq<T>, x: T)
    requires Distinct(keys)
    ensures SumCounts(keys, xs + [x]) == SumCounts(keys, xs) + (if x in keys then 1 else 0)
    decreases |keys|
  {
    if keys != [] {
      var init, k := keys[..|keys| - 1], keys[|keys| - 1];
      assert keys == init + [k];
      SumCountsSnoc(init, xs, x);
      CountSnoc(xs, x, k);
      assert x in keys <==> x in init || x == k;
      assert x in init ==> x != k;
    }
  }

  /** Counting every distinct element's occurrences accounts for the whole list, once. */
  lemma {:induction false} SumCountsDedup<T>(xs: seq<T>)
    ensures SumCounts(Dedup(xs), xs) == |xs|
    decreases |xs|
  {
    if xs != [] {
      var init, x := xs[..|xs| - 1], xs[|xs| - 1];
      assert xs == init + [x];
      var d := Dedup(init);
      DedupSpec(init);
      DedupMembers(init);
      SumCountsDedup(init);
      SumCountsSnoc(d, init, x);
      if x !in init {
        assert d + [x] == Dedup(xs);
        assert (d + [x])[..|d + [x]| - 1] == d;
        CountSnoc(init, x, x);
        CountZero(init, x);
      }
    }
  }

  // ---------------------------------------------------------------------------
  // Array.prototype.slice
  // ---------------------------------------------------------------------------

  /** How `slice` normalises an index: negative ones count from the end. */
  function RelativeIndex(i: int, len: nat): (r: nat)
    ensures r <= len
    ensures 0 <= i <= len ==> r == i
    ensures i < 0 && len + i >= 0 ==> r == len + i
  {
    if i < 0 then (if len + i < 0 then 0 else len + i)
    else if i > len then len
    else i
  }

  /** `Array.prototype.slice`: both ends relative to the length when negative, clamped to the list. */
  function JsSlice<T>(s: seq<T>, start: int, end: int): seq<T>
  {
    var from, to := RelativeIndex(start, |s|), RelativeIndex(end, |s|);
    if from < to then s[from..to] else []
  }

  /** A slice from 0 to a non-negative `n` is the first min(n, |s|) elements. */
  lemma SlicePrefix<T>(s: seq<T>, n: int)
    requires n >= 0
    ensures JsSlice(s, 0, n) == s[..if n < |s| then n else |s|]
  {
  }

  /** A slice from -k for k > 0 to the end is the last min(k, |s|) elements. */
  lemma SliceSuffix<T>(s: seq<T>, k: int)
    requires k > 0
    ensures JsSlice(s, -k, |s|) == s[|s| - (if k < |s| then k else |s|)..]
  {
  }

  // ---------------------------------------------------------------------------
  // Stable sort by a numeric key, largest first
  // ---------------------------------------------------------------------------

  ghost predicate SortedDesc<T>(s: seq<T>, key: T -> real)
  {
    forall i, j :: 0 <= i < j < |s| ==> key(s[i]) >= key(s[j])
  }

  /** Places `x` after every element whose key is at least its own. */
  function InsertDesc<T(==)>(s: seq<T>, x: T, key: T -> real): (r: seq<T>)
    requires SortedDesc(s, key)
    ensures SortedDesc(r, key)
    ensures multiset(r) == multiset(s) + multiset{x}
    ensures |r| == |s| + 1
    decreases |s|
  {
    if s == [] then [x]
    else if key(s[0]) < key(x) then [x] + s
    else
      var rest := InsertDesc(s[1..], x, key);
      assert s == [s[0]] + s[1..];
      ConsSortedDesc(s[0], s[1..], x, rest, key);
      [s[0]] + rest
  }

  /** A head whose key bounds the tail and the inserted element bounds any rearrangement of both. */
  lemma ConsSortedDesc<T>(h: T, tail: seq<T>, x: T, rest: seq<T>, key: T -> real)
    requires SortedDesc([h] + tail, key) && key(h) >= key(x)
    requires SortedDesc(rest, key) && multiset(rest) == multiset(tail) + multiset{x}
    ensures SortedDesc([h] + rest, key)
  {
    forall j | 0 <= j < |rest| ensures key(h) >= key(rest[j]) {
      assert rest[j] in multiset(rest);
      if rest[j] != x {
        assert rest[j] in multiset(tail);
        assert rest[j] in tail;
        var k :| 0 <= k < |tail| && tail[k] == rest[j];
        assert ([h] + tail)[0] == h && ([h] + tail)[k + 1] == rest[j];
      }
    }
    forall i, j | 0 <= i < j < |rest| + 1 ensures key(([h] + rest)[i]) >= key(([h] + rest)[j]) {
      if i > 0 {
        assert ([h] + rest)[i] == rest[i - 1] && ([h] + rest)[j] == rest[j - 1];
      }
    }
  }

  /**
    Sorting by a comparator that puts larger keys first. ECMAScript requires `sort` to be
    stable, and insertion that places each element after all earlier ones of
    equal key is the stable order.
   */
  function SortDesc<T(==)>(s: seq<T>, key: T -> real): (r: seq<T>)
    ensures SortedDesc(r, key)
    ensures multiset(r) == multiset(s)
    ensures |r| == |s|
    decreases |s|
  {
    if s == [] then []
    else
      assert s == s[..|s| - 1] + [s[|s| - 1]];
      InsertDesc(SortDesc(s[..|s| - 1], key), s[|s| - 1], key)
  }

  /** In a list sorted largest first, whatever the first `n` leave out is no larger than any of them. */
  lemma SortedPrefixIsLargest<T>(s: seq<T>, key: T -> real, n: nat)
    requires SortedDesc(s, key) && n <= |s|
    ensures forall x :: x in multiset(s) - multiset(s[..n]) ==> forall i :: 0 <= i < n ==> key(s[i]) >= key(x)
  {
    assert s == s[..n] + s[n..];
    assert multiset(s) - multiset(s[..n]) == multiset(s[n..]);
    forall x | x in multiset(s) - multiset(s[..n]) ensures forall i :: 0 <= i < n ==> key(s[i]) >= key(x) {
      assert x in s[n..];
      var j :| 0 <= j < |s[n..]| && s[n..][j] == x;
      assert s[n + j] == x;
    }
  }
}
