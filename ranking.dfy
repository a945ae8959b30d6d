/**
 * Index ranking by a real-valued key, as numpy's `argsort` does it with a stable sort:
 * indices in ascending key order, equal keys in index order. Both `get_predictions`
 * (top-k classes of a probability row) and scikit-learn's `SelectKBest` mask (top-k
 * features by score) are built on it.
 */
module Ranking {

  predicate AllBelow(s: seq<nat>, n: nat) {
    forall a :: 0 <= a < |s| ==> s[a] < n
  }

  predicate Distinct(s: seq<nat>) {
    forall a, b :: 0 <= a < b < |s| ==> s[a] != s[b]
  }

  /** Keys never decrease along `s`. */
  predicate Ascending(key: seq<real>, s: seq<nat>)
    requires AllBelow(s, |key|)
  {
    forall a, b :: 0 <= a < b < |s| ==> key[s[a]] <= key[s[b]]
  }

  /** Indices with equal keys appear in increasing index order. */
  predicate Stable(key: seq<real>, s: seq<nat>)
    requires AllBelow(s, |key|)
  {
    forall a, b :: 0 <= a < b < |s| && key[s[a]] == key[s[b]] ==> s[a] < s[b]
  }

  /** Puts index `i` into the arrangement `s` after every index whose key is at most `key[i]`. */
  function Insert(key: seq<real>, i: nat, s: seq<nat>): (r: seq<nat>)
    requires i < |key| && AllBelow(s, |key|)
    ensures |r| == |s| + 1 && AllBelow(r, |key|)
    ensures forall x: nat :: x in r <==> x in s || x == i
  {
    if s == [] then [i]
    else if key[i] < key[s[0]] then [i] + s
    else [s[0]] + Insert(key, i, s[1..])
  }

  /**
   * Putting `x` in front of an ordered arrangement keeps it ordered when `x` comes before
   * every index in it: by a smaller key, or by a smaller index on an equal key.
   */
  lemma ConsKeepsOrder(key: seq<real>, x: nat, t: seq<nat>)
    requires x < |key| && AllBelow(t, |key|)
    requires Distinct(t) && Ascending(key, t) && Stable(key, t)
    requires forall b :: 0 <= b < |t| ==> x != t[b] && key[x] <= key[t[b]] && (key[x] == key[t[b]] ==> x < t[b])
    ensures AllBelow([x] + t, |key|)
    ensures Distinct([x] + t) && Ascending(key, [x] + t) && Stable(key, [x] + t)
  {
    var r := [x] + t;
    assert forall b :: 1 <= b < |r| ==> r[b] == t[b - 1];
  }

  lemma {:induction false} InsertKeepsOrder(key: seq<real>, i: nat, s: seq<nat>)
    requires i < |key| && AllBelow(s, i)
    requires Distinct(s) && Ascending(key, s) && Stable(key, s)
    ensures var r := Insert(key, i, s); Distinct(r) && Ascending(key, r) && Stable(key, r)
  {
    if s != [] && key[i] < key[s[0]] {
      assert forall b :: 0 <= b < |s| ==> key[s[0]] <= key[s[b]];
      ConsKeepsOrder(key, i, s);
    } else if s != [] {
      var rest := s[1..];
      assert forall c :: 0 <= c < |rest| ==> rest[c] == s[c + 1];
      InsertKeepsOrder(key, i, rest);
      var tail := Insert(key, i, rest);
      forall b | 0 <= b < |tail|
        ensures s[0] != tail[b] && key[s[0]] <= key[tail[b]] && (key[s[0]] == key[tail[b]] ==> s[0] < tail[b])
      {
        assert tail[b] in tail;
        if tail[b] != i {
          var c :| 0 <= c < |rest| && rest[c] == tail[b];
          assert s[c + 1] == tail[b];
        }
      }
      ConsKeepsOrder(key, s[0], tail);
    }
  }

  /** The stable arrangement of the indices `0 .. m-1`. */
  function ArgSortPrefix(key: seq<real>, m: nat): (r: seq<nat>)
    requires m <= |key|
    ensures |r| == m && AllBelow(r, m)
    ensures forall x: nat :: x in r <==> x < m
  {
    if m == 0 then []
    else
      var r := Insert(key, m - 1, ArgSortPrefix(key, m - 1));
      assert forall a :: 0 <= a < |r| ==> r[a] in r;
      r
  }

  /** `np.argsort(key, kind="stable")`. */
  function ArgSort(key: seq<real>): (r: seq<nat>)
    ensures |r| == |key| && AllBelow(r, |key|)
    ensures forall x: nat :: x in r <==> x < |key|
  {
    ArgSortPrefix(key, |key|)
  }

  lemma {:induction false} ArgSortPrefixOrdered(key: seq<real>, m: nat)
    requires m <= |key|
    ensures var r := ArgSortPrefix(key, m); Distinct(r) && Ascending(key, r) && Stable(key, r)
  {
    if m > 0 {
      ArgSortPrefixOrdered(key, m - 1);
      InsertKeepsOrder(key, m - 1, ArgSortPrefix(key, m - 1));
      ArgSortPrefixStep(key, m);
    }
  }

  lemma ArgSortPrefixStep(key: seq<real>, m: nat)
    requires 0 < m <= |key|
    ensures ArgSortPrefix(key, m) == Insert(key, m - 1, ArgSortPrefix(key, m - 1))
  {
  }

  /** `ArgSort` is a stable sorting permutation of the indices of `key`. */
  lemma ArgSortOrdered(key: seq<real>)
    ensures var r := ArgSort(key); Distinct(r) && Ascending(key, r) && Stable(key, r)
  {
    ArgSortPrefixOrdered(key, |key|);
  }

  function Min(a: int, b: int): int {
    if a <= b then a else b
  }

  /** `argsort(key)[-k:]` for k >= 1, and nothing for k == 0: the top `k` indices, lowest key first. */
  function TopIndices(key: seq<real>, k: nat): (r: seq<nat>)
    ensures |r| == Min(k, |key|) && AllBelow(r, |key|)
  {
    ArgSort(key)[|key| - Min(k, |key|)..]
  }

  function Reverse(s: seq<nat>): (r: seq<nat>)
    ensures |r| == |s|
  {
    seq(|s|, a requires 0 <= a < |s| => s[|s| - 1 - a])
  }

  /** `argsort(key)[-k:][::-1]`: the top `k` indices, highest key first. */
  function TopK(key: seq<real>, k: nat): (r: seq<nat>)
    ensures |r| == Min(k, |key|) && AllBelow(r, |key|)
  {
    Reverse(TopIndices(key, k))
  }

  /**
   * The top-k ranking holds min(k, n) distinct indices in non-increasing key order, equal keys
   * with the higher index first, and every index left out has a key no greater than any kept.
   */
  lemma TopKIsTopK(key: seq<real>, k: nat)
    ensures var r := TopK(key, k);
      && |r| == Min(k, |key|)
      && Distinct(r)
      && (forall a, b :: 0 <= a < b < |r| ==> key[r[a]] >= key[r[b]])
      && (forall a, b :: 0 <= a < b < |r| && key[r[a]] == key[r[b]] ==> r[a] > r[b])
      && (forall j, a :: 0 <= j < |key| && j !in r && 0 <= a < |r| ==> key[j] <= key[r[a]])
  {
    TopKOrdered(key, k);
    TopKDominates(key, k);
  }

  /** Position `a` of the top-k ranking is position `n-1-a` of the stable arrangement. */
  lemma TopKPositions(key: seq<real>, k: nat)
    ensures var r := TopK(key, k);
      forall a :: 0 <= a < |r| ==> r[a] == ArgSort(key)[|key| - 1 - a]
  {
  }

  lemma TopKOrdered(key: seq<real>, k: nat)
    ensures var r := TopK(key, k);
      && Distinct(r)
      && (forall a, b :: 0 <= a < b < |r| ==> key[r[a]] >= key[r[b]])
      && (forall a, b :: 0 <= a < b < |r| && key[r[a]] == key[r[b]] ==> r[a] > r[b])
  {
    var n := |key|;
    var sorted := ArgSort(key);
    var r := TopK(key, k);
    ArgSortOrdered(key);
    TopKPositions(key, k);
    forall a, b | 0 <= a < b < |r|
      ensures r[a] != r[b] && key[r[a]] >= key[r[b]] && (key[r[a]] == key[r[b]] ==> r[a] > r[b])
    {
      SortedPair(key, sorted, n - 1 - b, n - 1 - a);
    }
  }

  /** Two positions of an ordered arrangement, in order. */
  lemma SortedPair(key: seq<real>, s: seq<nat>, p: nat, q: nat)
    requires AllBelow(s, |key|) && Distinct(s) && Ascending(key, s) && Stable(key, s)
    requires p < q < |s|
    ensures s[p] != s[q] && key[s[p]] <= key[s[q]] && (key[s[p]] == key[s[q]] ==> s[p] < s[q])
  {
  }

  lemma TopKDominates(key: seq<real>, k: nat)
    ensures var r := TopK(key, k);
      forall j, a :: 0 <= j < |key| && j !in r && 0 <= a < |r| ==> key[j] <= key[r[a]]
  {
    var n := |key|;
    var sorted := ArgSort(key);
    ArgSortOrdered(key);
    TopKPositions(key, k);
    var start := n - Min(k, n);
    var r := TopK(key, k);
    forall p | start <= p < n ensures sorted[p] in r {
      assert r[n - 1 - p] == sorted[p];
    }
    forall j, a | 0 <= j < n && j !in r && 0 <= a < |r|
      ensures key[j] <= key[r[a]]
    {
      assert j in sorted;
      var p :| 0 <= p < n && sorted[p] == j;
      assert p < start;
      assert r[a] == sorted[n - 1 - a];
    }
  }

  /** The positions `0 .. n-1` that occur in `chosen`, in increasing order (a boolean mask applied). */
  function Mask(n: nat, chosen: seq<nat>): (r: seq<nat>)
    ensures AllBelow(r, n)
    ensures forall x: nat :: x in r <==> x < n && x in chosen
    ensures forall a, b :: 0 <= a < b < |r| ==> r[a] < r[b]
  {
    if n == 0 then []
    else
      var prefix := Mask(n - 1, chosen);
      if n - 1 in chosen then prefix + [n - 1] else prefix
  }

  lemma {:induction false} DistinctCardinality(s: seq<nat>)
    requires Distinct(s)
    ensures |set x: nat | x in s| == |s|
  {
    if s == [] {
      assert (set x: nat | x in s) == {};
    } else {
      var rest := s[1..];
      assert Distinct(rest) by {
        forall a, b | 0 <= a < b < |rest| ensures rest[a] != rest[b] {
          assert rest[a] == s[a + 1] && rest[b] == s[b + 1];
        }
      }
      DistinctCardinality(rest);
      var later := set x: nat | x in rest;
      assert (set x: nat | x in s) == {s[0]} + later;
      assert s[0] !in later;
      assert {s[0]} * later == {};
    }
  }

  /** Two duplicate-free sequences with the same elements have the same length. */
  lemma SameElementsSameLength(r: seq<nat>, s: seq<nat>)
    requires Distinct(r) && Distinct(s)
    requires forall x: nat :: x in r <==> x in s
    ensures |r| == |s|
  {
    assert (set x: nat | x in r) == (set x: nat | x in s);
    DistinctCardinality(r);
    DistinctCardinality(s);
  }

  lemma ReverseElements(s: seq<nat>)
    ensures forall x: nat :: x in Reverse(s) <==> x in s
  {
    var r := Reverse(s);
    forall x: nat | x in s ensures x in r {
      var a :| 0 <= a < |s| && s[a] == x;
      assert r[|s| - 1 - a] == x;
    }
  }

  /**
   * The `SelectKBest` mask: the top `k` indices (`k` clamped to the number of keys), listed in
   * index order; every index left out has a key no greater than any kept.
   */
  lemma SelectedByMask(key: seq<real>, k: nat)
    ensures var r := Mask(|key|, TopIndices(key, k));
      && |r| == Min(k, |key|)
      && (forall j, a :: 0 <= j < |key| && j !in r && 0 <= a < |r| ==> key[j] <= key[r[a]])
  {
    var top := TopIndices(key, k);
    var r := Mask(|key|, top);
    var rev := TopK(key, k);
    TopKIsTopK(key, k);
    ReverseElements(top);
    assert forall x: nat :: x in r <==> x in rev;
    SameElementsSameLength(r, rev);
    forall j, a | 0 <= j < |key| && j !in r && 0 <= a < |r|
      ensures key[j] <= key[r[a]]
    {
      assert r[a] in rev;
      var b :| 0 <= b < |rev| && rev[b] == r[a];
    }
  }
}
