/** Sizes of integer ranges, the pigeonhole principle on sequences, and exact division. */
module Counting {

  function Range(lo: int, hi: int): (s: set<int>)
    ensures forall x :: x in s <==> lo <= x < hi
    ensures |s| == if lo < hi then hi - lo else 0
    decreases hi - lo
  {
    if lo < hi then Range(lo, hi - 1) + {hi - 1} else {}
  }

  lemma SubsetSize<T>(a: set<T>, b: set<T>)
    requires a <= b
    ensures |a| <= |b|
    ensures |a| == |b| ==> a == b
  {
    if a != {} {
      var x :| x in a;
      SubsetSize(a - {x}, b - {x});
    }
  }

  ghost predicate Distinct<T(!new)>(xs: seq<T>) {
    forall j, k :: 0 <= j < k < |xs| ==> xs[j] != xs[k]
  }

  function Elements<T>(xs: seq<T>): set<T> {
    set x | x in xs
  }

  lemma {:induction false} DistinctSize<T(!new)>(xs: seq<T>)
    requires Distinct(xs)
    ensures |Elements(xs)| == |xs|
    decreases |xs|
  {
    if xs == [] {
      assert Elements(xs) == {};
    } else {
      DistinctSize(xs[1..]);
      assert xs == [xs[0]] + xs[1..];
      assert Elements(xs) == {xs[0]} + Elements(xs[1..]);
    }
  }

  /** Distinct numbers below n are at most n many. */
  lemma Pigeonhole(xs: seq<nat>, n: nat)
    requires Distinct(xs) && forall k :: 0 <= k < |xs| ==> xs[k] < n
    ensures |xs| <= n
  {
    DistinctSize(xs);
    SubsetSize(Elements(xs), Range(0, n));
  }

  lemma ScaleUp(a: nat, b: nat, q: nat)
    requires a <= b
    ensures a * q <= b * q
  {
  }

  lemma DivisionIs(r: nat, q: nat, v: nat)
    requires q > 0
    ensures r / q == v <==> v * q <= r < (v + 1) * q
  {
    var d := r / q;
    assert r == d * q + r % q;
    assert (d + 1) * q == d * q + q && (v + 1) * q == v * q + q;
    if v < d {
      ScaleUp(v + 1, d, q);
    } else if d < v {
      ScaleUp(d + 1, v, q);
    }
  }

  lemma AtMostQuotient(q: nat, m: nat, b: nat)
    requires m > 0 && q * m <= b
    ensures q <= b / m
  {
    var d := b / m;
    DivisionIs(b, m, d);
    if d + 1 <= q {
      ScaleUp(d + 1, q, m);
    }
  }

  /** Quotient and remainder are the only ones there are. */
  lemma DivModIs(x: nat, n: nat, q: nat, r: nat)
    requires x == q * n + r && r < n
    ensures x / n == q && x % n == r
  {
    assert (q + 1) * n == q * n + n;
    DivisionIs(x, n, q);
    assert x == (x / n) * n + x % n;
  }
}
