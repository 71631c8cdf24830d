/**
 * The array and object builtins the dashboard scripts lean on, as pure
 * functions: an order-preserving filter (Array.prototype.filter), a left
 * fold summing a sequence of numbers (reduce((a, b) => a + b, 0)) and the
 * sum of every value held in an object (Object.values(o).reduce(...)).
 */
module Collections {

  /** The elements of `s` that satisfy `p`, in the order they occur in `s`. */
  function Filter<T>(s: seq<T>, p: T -> bool): (r: seq<T>)
    ensures |r| <= |s|
    decreases |s|
  {
    if s == [] then []
    else Filter(s[..|s| - 1], p) + (if p(s[|s| - 1]) then [s[|s| - 1]] else [])
  }

  /** The positions of `s` whose element satisfies `p`, in increasing order. */
  function FilterIndices<T>(s: seq<T>, p: T -> bool): seq<nat>
    decreases |s|
  {
    if s == [] then []
    else FilterIndices(s[..|s| - 1], p) + (if p(s[|s| - 1]) then [|s| - 1] else [])
  }

  /**
   * Filter is a stable selection: its k-th element is the element of `s` at
   * the k-th selected position, the selected positions increase strictly,
   * and a position is selected exactly when its element satisfies `p`.
   */
  lemma {:induction false} FilterIsStableSelection<T>(s: seq<T>, p: T -> bool)
    ensures var idx := FilterIndices(s, p);
      && |idx| == |Filter(s, p)|
      && (forall k :: 0 <= k < |idx| ==> idx[k] < |s| && s[idx[k]] == Filter(s, p)[k])
      && (forall k, l :: 0 <= k < l < |idx| ==> idx[k] < idx[l])
      && (forall i :: 0 <= i < |s| ==> (p(s[i]) <==> i in idx))
    decreases |s|
  {
    if s != [] {
      var init := s[..|s| - 1];
      FilterIsStableSelection(init, p);
      var idx0 := FilterIndices(init, p);
      forall k | 0 <= k < |idx0|
        ensures idx0[k] < |init| && s[idx0[k]] == init[idx0[k]]
      {
      }
    }
  }

  /** An element is kept by Filter exactly when it occurs in `s` and satisfies `p`. */
  lemma {:induction false} FilterMembers<T>(s: seq<T>, p: T -> bool, x: T)
    ensures x in Filter(s, p) <==> x in s && p(x)
    decreases |s|
  {
    if s != [] {
      var init := s[..|s| - 1];
      FilterMembers(init, p, x);
      assert s == init + [s[|s| - 1]];
    }
  }

  /**
   * Two filters with complementary predicates over `s` share out all of
   * `s` between them.
   */
  lemma {:induction false} FilterComplement<T>(s: seq<T>, p: T -> bool, q: T -> bool)
    requires forall i :: 0 <= i < |s| ==> (p(s[i]) <==> !q(s[i]))
    ensures |Filter(s, p)| + |Filter(s, q)| == |s|
    decreases |s|
  {
    if s != [] {
      var init := s[..|s| - 1];
      assert forall i :: 0 <= i < |init| ==> init[i] == s[i];
      FilterComplement(init, p, q);
    }
  }

  /** Left fold of `+` over `s` starting from 0. */
  function SeqSum(s: seq<int>): int
    decreases |s|
  {
    if s == [] then 0 else SeqSum(s[..|s| - 1]) + s[|s| - 1]
  }

  /** The fold of a sequence of non-negative numbers is non-negative. */
  lemma {:induction false} SeqSumNonNegative(s: seq<int>)
    requires forall i :: 0 <= i < |s| ==> s[i] >= 0
    ensures SeqSum(s) >= 0
    decreases |s|
  {
    if s != [] {
      SeqSumNonNegative(s[..|s| - 1]);
    }
  }

  /** Some key of a non-empty map. */
  ghost function Pick<K>(m: map<K, int>): (k: K)
    requires m != map[]
    ensures k in m
  {
    var k :| k in m; k
  }

  /**
   * The sum of every value of `m`. JavaScript sums an object's values in
   * property order; integer addition makes that order irrelevant, which
   * MapSumRemove below proves.
   */
  ghost function MapSum<K>(m: map<K, int>): int
    decreases |m|
  {
    if m == map[] then 0
    else
      var k := Pick(m);
      assert |m - {k}| < |m| by { assert (m - {k}).Keys == m.Keys - {k}; }
      m[k] + MapSum(m - {k})
  }

  lemma MapRemoveSmaller<K>(m: map<K, int>, k: K)
    requires k in m
    ensures |m - {k}| == |m| - 1
  {
    assert (m - {k}).Keys == m.Keys - {k};
  }

  /** Every key contributes its value exactly once, whichever key is taken first. */
  lemma {:induction false} MapSumRemove<K>(m: map<K, int>, k: K)
    requires k in m
    ensures MapSum(m) == m[k] + MapSum(m - {k})
    decreases |m|
  {
    var j := Pick(m);
    if j != k {
      MapRemoveSmaller(m, j);
      MapRemoveSmaller(m, k);
      MapSumRemove(m - {j}, k);
      MapSumRemove(m - {k}, j);
      assert (m - {j}) - {k} == (m - {k}) - {j};
    }
  }

  /**
   * When every value is non-negative, the sum is non-negative, and it is
   * positive exactly when some value is positive.
   */
  lemma {:induction false} MapSumPositive<K>(m: map<K, int>)
    requires forall k :: k in m ==> m[k] >= 0
    ensures MapSum(m) >= 0
    ensures MapSum(m) > 0 <==> exists k :: k in m && m[k] > 0
    decreases |m|
  {
    if m != map[] {
      var j := Pick(m);
      MapRemoveSmaller(m, j);
      MapSumPositive(m - {j});
      assert MapSum(m) == m[j] + MapSum(m - {j});
      if MapSum(m - {j}) > 0 {
        var k :| k in m - {j} && (m - {j})[k] > 0;
        assert k in m && m[k] > 0;
      }
      if exists k :: k in m && m[k] > 0 {
        var k :| k in m && m[k] > 0;
        if k != j {
          assert k in m - {j} && (m - {j})[k] > 0;
        }
      }
    }
  }
}
