/** Sequence vocabulary shared by the containers of the engine: duplicate-free
    vectors, Rust's `Vec::swap_remove`, and the cardinality facts that tie a
    vector's length to the set of its elements. */
module Sequences {

  /** True when no element occurs twice in `s`. */
  predicate Distinct<K(==)>(s: seq<K>) {
    forall i, j | 0 <= i < j < |s| :: s[i] != s[j]
  }

  /** The set of elements of `s`. */
  function Elements<K>(s: seq<K>): set<K> {
    set x | x in s
  }

  /** The half-open range `lo .. hi` of natural numbers as a set. */
  function Range(lo: nat, hi: nat): (r: set<nat>)
    ensures forall i :: i in r <==> lo <= i < hi
  {
    if hi <= lo then {} else Range(lo, hi - 1) + {hi - 1}
  }

  /** The vector after Rust's `Vec::swap_remove(i)`: the last element is moved
      into slot `i` and the vector shrinks by one. */
  function SwapRemove<K>(s: seq<K>, i: nat): (r: seq<K>)
    requires i < |s|
    ensures |r| == |s| - 1
    ensures forall j | 0 <= j < |r| :: r[j] == (if j == i then s[|s| - 1] else s[j])
    ensures multiset(r) == multiset(s) - multiset{s[i]}
  {
    SwapRemoveMultiset(s, i);
    s[i := s[|s| - 1]][..|s| - 1]
  }

  lemma SwapRemoveMultiset<K>(s: seq<K>, i: nat)
    requires i < |s|
    ensures multiset(s[i := s[|s| - 1]][..|s| - 1]) == multiset(s) - multiset{s[i]}
  {
    var last := |s| - 1;
    var r := s[i := s[last]][..last];
    assert s == s[..last] + [s[last]];
    if i < last {
      assert s == s[..i] + [s[i]] + s[i + 1..last] + [s[last]];
      assert r == s[..i] + [s[last]] + s[i + 1..last];
    }
  }

  /** Swap-removing from a duplicate-free vector keeps it duplicate-free and
      drops exactly the removed element from its set of elements. */
  lemma SwapRemoveDistinct<K>(s: seq<K>, i: nat)
    requires i < |s| && Distinct(s)
    ensures Distinct(SwapRemove(s, i))
    ensures Elements(SwapRemove(s, i)) == Elements(s) - {s[i]}
  {
    var r := SwapRemove(s, i);
    forall x | x in Elements(s) - {s[i]} ensures x in r {
      var j :| 0 <= j < |s| && s[j] == x;
      if j == |s| - 1 {
        assert r[i] == x;
      } else {
        assert r[j] == x;
      }
    }
  }

  /** A duplicate-free vector has as many elements as its set. */
  lemma {:induction false} DistinctCardinality<K>(s: seq<K>)
    requires Distinct(s)
    ensures |Elements(s)| == |s|
  {
    if |s| > 0 {
      var last := |s| - 1;
      DistinctCardinality(s[..last]);
      assert Elements(s) == Elements(s[..last]) + {s[last]};
      assert s[last] !in Elements(s[..last]);
    }
  }

  /** The range `lo .. hi` has `hi - lo` elements. */
  lemma {:induction false} RangeCardinality(lo: nat, hi: nat)
    requires lo <= hi
    ensures |Range(lo, hi)| == hi - lo
  {
    if lo < hi {
      RangeCardinality(lo, hi - 1);
      assert hi - 1 !in Range(lo, hi - 1);
      assert Range(lo, hi) == Range(lo, hi - 1) + {hi - 1};
    }
  }

  /** A duplicate-free vector of numbers below `n` has at most `n` entries. */
  lemma DistinctBelowIsShort(s: seq<nat>, n: nat)
    requires Distinct(s)
    requires forall i | 0 <= i < |s| :: s[i] < n
    ensures |s| <= n
  {
    DistinctCardinality(s);
    RangeCardinality(0, n);
    assert Elements(s) <= Range(0, n);
    SubsetCardinality(Elements(s), Range(0, n));
  }

  lemma SubsetCardinality<K>(a: set<K>, b: set<K>)
    requires a <= b
    ensures |a| <= |b|
  {
    assert b == a + (b - a);
  }

  /** The numbers `0 .. n` in increasing order, as `(0..n).collect()`. */
  function Iota(n: nat): (r: seq<nat>)
    ensures |r| == n
    ensures forall i | 0 <= i < n :: r[i] == i
  {
    seq(n, i => i)
  }
}
