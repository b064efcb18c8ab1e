// Exact (unbounded) dot products and lane sums: the reference every kernel is measured against.
module Dots {
  import opened Integers

  // Sum of the first n lanes.
  function SumTo(v: seq<int>, n: nat): int
    requires n <= |v|
  {
    if n == 0 then 0 else SumTo(v, n - 1) + v[n - 1]
  }

  function Sum(v: seq<int>): int {
    SumTo(v, |v|)
  }

  // The first n entry-wise products. (Written as a recursion so that a proof sees a
  // product only where it asks for it, through ProductAt.)
  function Products(a: seq<int>, w: seq<int>, n: nat): (p: seq<int>)
    requires n <= |a| && n <= |w|
    ensures |p| == n
  {
    if n == 0 then [] else Products(a, w, n - 1) + [a[n - 1] * w[n - 1]]
  }

  lemma {:induction false} ProductAt(a: seq<int>, w: seq<int>, n: nat, i: nat)
    requires i < n <= |a| && n <= |w|
    ensures Products(a, w, n)[i] == a[i] * w[i]
  {
    if i < n - 1 {
      ProductAt(a, w, n - 1, i);
    }
  }

  // Exact dot product of the first n entries.
  function DotTo(a: seq<int>, w: seq<int>, n: nat): int
    requires n <= |a| && n <= |w|
  {
    SumTo(Products(a, w, if |a| < |w| then |a| else |w|), n)
  }

  lemma DotStep(a: seq<int>, w: seq<int>, n: nat)
    requires n < |a| && n < |w|
    ensures DotTo(a, w, n + 1) == DotTo(a, w, n) + a[n] * w[n]
  {
    ProductAt(a, w, if |a| < |w| then |a| else |w|, n);
  }

  // A dot is the plain sum of the entry-wise products, in order.
  lemma {:induction false} DotIsSum(a: seq<int>, w: seq<int>, p: seq<int>, n: nat)
    requires n <= |a| && n <= |w| && n <= |p| && forall i :: 0 <= i < n ==> p[i] == a[i] * w[i]
    ensures DotTo(a, w, n) == SumTo(p, n)
  {
    if n > 0 {
      DotIsSum(a, w, p, n - 1);
      DotStep(a, w, n - 1);
    }
  }

  function Dot(a: seq<int>, w: seq<int>): int
    requires |a| == |w|
  {
    DotTo(a, w, |a|)
  }

  // The i32 that a wrapping left-to-right accumulation leaves.
  function DotRef(a: seq<int>, w: seq<int>): int
    requires |a| == |w|
  {
    Wrap32(Dot(a, w))
  }

  ghost predicate Within(w: seq<int>, bound: nat) {
    forall i :: 0 <= i < |w| ==> 0 - bound <= w[i] <= bound
  }

  // The product of two entries bounded by p and q is bounded by p * q.
  lemma ProductBound(x: int, y: int, p: nat, q: nat)
    requires 0 - p <= x <= p && 0 - q <= y <= q
    ensures -(p * q) <= x * y <= p * q
  {
    var p', q': int := p, q;
    if x >= 0 {
      assert x * y <= x * q' <= p' * q';
      assert x * y >= x * -q' >= -(p' * q');
    } else {
      assert -x * y <= -x * q' <= p' * q';
      assert -x * y >= -x * -q' >= -(p' * q');
    }
  }

  lemma {:induction false} DotBound(a: seq<int>, w: seq<int>, n: nat, p: nat, q: nat)
    requires n <= |a| && n <= |w| && Within(a, p) && Within(w, q)
    ensures -(p * q * n) <= DotTo(a, w, n) <= p * q * n
  {
    if n == 0 {
    } else {
      DotBound(a, w, n - 1, p, q);
      DotStep(a, w, n - 1);
      ProductBound(a[n - 1], w[n - 1], p, q);
      assert p * q * n == p * q * (n - 1) + p * q;
    }
  }

  lemma {:induction false} SumBound(v: seq<int>, n: nat, b: nat)
    requires n <= |v| && Within(v, b)
    ensures -(b * n) <= SumTo(v, n) <= b * n
  {
    if n == 0 {
    } else {
      SumBound(v, n - 1, b);
      assert b * n == b * (n - 1) + b;
    }
  }

  lemma {:induction false} DotPrefix(a: seq<int>, w: seq<int>, a': seq<int>, w': seq<int>, n: nat)
    requires n <= |a| && n <= |w| && n <= |a'| && n <= |w'|
    requires forall i :: 0 <= i < n ==> a[i] == a'[i] && w[i] == w'[i]
    ensures DotTo(a, w, n) == DotTo(a', w', n)
  {
    if n > 0 {
      DotPrefix(a, w, a', w', n - 1);
      DotStep(a, w, n - 1);
      DotStep(a', w', n - 1);
    }
  }
}
