// When wrapping i32 arithmetic is exact. The mass of a register is the sum of its lanes'
// magnitudes: additions never create mass, so a budget on the products bounds every sum
// any kernel forms on the way, in whatever order it forms them.
module Exactness {
  import opened Integers
  import opened Dots
  import opened Simd

  const LIMIT: nat := 0x8000_0000

  // ----- mass ----------------------------------------------------------------

  function MassTo(v: seq<int>, n: nat): nat
    requires n <= |v|
  {
    if n == 0 then 0 else MassTo(v, n - 1) + Abs(v[n - 1])
  }

  function Mass(v: seq<int>): nat {
    MassTo(v, |v|)
  }

  lemma {:induction false} MassPrefix(v: seq<int>, n: nat, m: nat)
    requires n <= m <= |v|
    ensures MassTo(v, n) <= MassTo(v, m)
  {
    if n < m { MassPrefix(v, n, m - 1); }
  }

  lemma MassAt(v: seq<int>, i: nat)
    requires i < |v|
    ensures Abs(v[i]) <= Mass(v)
  {
    MassPrefix(v, i + 1, |v|);
  }

  // No prefix of the lanes sums past the mass.
  lemma {:induction false} MassSum(v: seq<int>, n: nat)
    requires n <= |v|
    ensures Abs(SumTo(v, n)) <= MassTo(v, n) <= Mass(v)
  {
    if n > 0 { MassSum(v, n - 1); }
    MassPrefix(v, n, |v|);
  }

  lemma {:induction false} ZeroMass(lanes: nat, n: nat)
    requires n <= lanes
    ensures MassTo(Zero(lanes), n) == 0
  {
    if n > 0 { ZeroMass(lanes, n - 1); }
  }

  // The mass is at most m. (The key keeps the sum out of proofs that only pass it along.)
  ghost predicate Weighs(v: seq<int>, m: nat) {
    forall b {:trigger On(b, v)} :: On(b, v) ==> Mass(v) <= m
  }

  lemma WeighsIs(v: seq<int>, m: nat)
    ensures Weighs(v, m) <==> Mass(v) <= m
  {
    assert On(true, v);
  }

  // ----- budgets -------------------------------------------------------------

  // What n products of magnitude at most c may weigh. (A recursion, so that a proof sees
  // the multiplication only through BudgetIs.)
  ghost function Budget(c: nat, n: nat): nat {
    if n == 0 then 0 else Budget(c, n - 1) + c
  }

  lemma {:induction false} BudgetIs(c: nat, n: nat)
    ensures Budget(c, n) == c * n
  {
    if n > 0 {
      BudgetIs(c, n - 1);
      assert c * n == c * (n - 1) + c;
    }
  }

  lemma {:induction false} BudgetAdd(c: nat, x: nat, n: nat)
    ensures Budget(c, x + n) == Budget(c, x) + Budget(c, n)
  {
    if n > 0 { BudgetAdd(c, x, n - 1); }
  }

  // Spending n more of a budget for k keeps within it.
  lemma Spend(c: nat, x: nat, n: nat, k: nat)
    requires x + n <= k
    ensures Budget(c, x) + Budget(c, n) == Budget(c, x + n) <= Budget(c, k)
  {
    BudgetAdd(c, x, n);
    BudgetAdd(c, x + n, k - (x + n));
  }

  lemma {:induction false} MassWithin(v: seq<int>, c: nat, n: nat)
    requires n <= |v| && Within(v, c)
    ensures MassTo(v, n) <= Budget(c, n)
  {
    if n > 0 { MassWithin(v, c, n - 1); }
  }

  // Eight lanes of at most c.
  lemma LanesWeigh(v: seq<int>, c: nat)
    requires |v| == 8 && Within(v, c)
    ensures Weighs(v, 8 * c)
  {
    MassWithin(v, c, 8);
    BudgetIs(c, 8);
    WeighsIs(v, 8 * c);
  }

  // ----- exact operations ----------------------------------------------------

  // No lane of u + v leaves i32. (These facts, too, stay folded behind the key.)
  ghost predicate NoWrap(u: seq<int>, v: seq<int>) {
    var exact: bool :| forall b {:trigger On(b, u)} :: On(b, u) ==>
      (exact <==> |u| == |v| && forall i :: 0 <= i < |u| ==> IsI32(u[i] + v[i]));
    |u| == |v| && exact
  }

  lemma AddMass(u: seq<int>, v: seq<int>)
    requires |u| == |v| && Mass(u) + Mass(v) < LIMIT
    ensures NoWrap(u, v) && Mass(AddEpi32(u, v)) <= Mass(u) + Mass(v)
  {
    forall i | 0 <= i < |u|
      ensures IsI32(u[i] + v[i])
    {
      MassAt(u, i);
      MassAt(v, i);
    }
    assert NoWrap(u, v) by { assert On(true, u); }
    AddMassTo(u, v, |u|);
  }

  lemma AddWeighs(u: seq<int>, v: seq<int>, mu: nat, mv: nat)
    requires |u| == |v| && Weighs(u, mu) && Weighs(v, mv) && mu + mv < LIMIT
    ensures NoWrap(u, v) && Weighs(AddEpi32(u, v), mu + mv)
  {
    WeighsIs(u, mu);
    WeighsIs(v, mv);
    AddMass(u, v);
    WeighsIs(AddEpi32(u, v), mu + mv);
  }

  // One lane-wise addition; `ok` says that no addition so far has wrapped.
  method AddLanes(u: seq<int>, v: seq<int>, ghost s: int, ghost t: int, ghost ok0: bool)
    returns (r: seq<int>, ghost ok: bool)
    requires |u| == |v| == 8 && Congruent(Sum(u), s) && Congruent(Sum(v), t)
    ensures |r| == 8 && Congruent(Sum(r), s + t)
    ensures r == AddEpi32(u, v) && ok == (ok0 && NoWrap(u, v))
  {
    r := AddEpi32(u, v);
    ok := ok0 && NoWrap(u, v);
    AddSum(u, v, 8);
    CongruentAdd(Sum(u), s, Sum(v), t);
    CongruentTrans(Sum(r), Sum(u) + Sum(v), s + t);
  }

  // ----- folding four registers ----------------------------------------------

  function Fold4(v0: seq<int>, v1: seq<int>, v2: seq<int>, v3: seq<int>): (r: seq<int>)
    requires |v0| == |v1| == |v2| == |v3| == 8
    ensures |r| == 8
  {
    AddEpi32(AddEpi32(v0, v1), AddEpi32(v2, v3))
  }

  ghost predicate IsFold(r: seq<int>, v0: seq<int>, v1: seq<int>, v2: seq<int>, v3: seq<int>)
    requires |v0| == |v1| == |v2| == |v3| == 8
  {
    |r| == 8 && forall b {:trigger On(b, v0)} :: On(b, v0) ==> r == Fold4(v0, v1, v2, v3)
  }

  // None of the three additions wraps a lane.
  ghost predicate FoldExact(v0: seq<int>, v1: seq<int>, v2: seq<int>, v3: seq<int>)
    requires |v0| == |v1| == |v2| == |v3| == 8
  {
    var exact: bool :| forall b {:trigger On(b, v0)} :: On(b, v0) ==>
      (exact <==> NoWrap(v0, v1) && NoWrap(v2, v3) && NoWrap(AddEpi32(v0, v1), AddEpi32(v2, v3)));
    exact
  }

  method FoldFour(v0: seq<int>, v1: seq<int>, v2: seq<int>, v3: seq<int>,
                  ghost t0: int, ghost t1: int, ghost t2: int, ghost t3: int, ghost ok0: bool)
    returns (r: seq<int>, ghost ok: bool)
    requires |v0| == |v1| == |v2| == |v3| == 8
    requires Congruent(Sum(v0), t0) && Congruent(Sum(v1), t1) && Congruent(Sum(v2), t2) && Congruent(Sum(v3), t3)
    ensures IsFold(r, v0, v1, v2, v3) && Congruent(Sum(r), t0 + t1 + t2 + t3)
    ensures ok == (ok0 && FoldExact(v0, v1, v2, v3))
  {
    var lo, hi;
    lo, ok := AddLanes(v0, v1, t0, t1, ok0);
    hi, ok := AddLanes(v2, v3, t2, t3, ok);
    r, ok := AddLanes(lo, hi, t0 + t1, t2 + t3, ok);
    assert t0 + t1 + (t2 + t3) == t0 + t1 + t2 + t3;
    assert On(true, v0);
  }

  lemma FoldFits(v0: seq<int>, v1: seq<int>, v2: seq<int>, v3: seq<int>, m0: nat, m1: nat, m2: nat, m3: nat)
    returns (r: seq<int>)
    requires |v0| == |v1| == |v2| == |v3| == 8
    requires Weighs(v0, m0) && Weighs(v1, m1) && Weighs(v2, m2) && Weighs(v3, m3) && m0 + m1 + m2 + m3 < LIMIT
    ensures FoldExact(v0, v1, v2, v3) && IsFold(r, v0, v1, v2, v3) && Weighs(r, m0 + m1 + m2 + m3)
  {
    r := Fold4(v0, v1, v2, v3);
    assert On(true, v0);
    AddWeighs(v0, v1, m0, m1);
    AddWeighs(v2, v3, m2, m3);
    AddWeighs(AddEpi32(v0, v1), AddEpi32(v2, v3), m0 + m1, m2 + m3);
    assert m0 + m1 + (m2 + m3) == m0 + m1 + m2 + m3;
  }

  lemma {:induction false} AddMassTo(u: seq<int>, v: seq<int>, n: nat)
    requires n <= |u| && NoWrap(u, v)
    ensures MassTo(AddEpi32(u, v), n) <= MassTo(u, n) + MassTo(v, n)
  {
    assert On(true, u);
    if n > 0 {
      AddMassTo(u, v, n - 1);
      assert AddEpi32(u, v)[n - 1] == u[n - 1] + v[n - 1];
    }
  }

  // No partial sum of the stored lanes leaves i32.
  ghost predicate StoredExact(v: seq<int>) {
    var exact: bool :| forall b {:trigger On(b, v)} :: On(b, v) ==>
      (exact <==> forall n :: 0 <= n <= |v| ==> IsI32(SumTo(v, n)));
    exact
  }

  lemma {:induction false} HsumStoredExact(v: seq<int>, n: nat)
    requires StoredExact(v) && n <= |v|
    ensures HsumStored(v, n) == SumTo(v, n)
  {
    assert On(true, v);
    if n > 0 { HsumStoredExact(v, n - 1); }
  }

  lemma StoredWeighs(v: seq<int>, m: nat)
    requires Weighs(v, m) && m < LIMIT
    ensures StoredExact(v) && Abs(HsumStored(v, |v|)) <= m
  {
    WeighsIs(v, m);
    forall n | 0 <= n <= |v|
      ensures IsI32(SumTo(v, n))
    {
      MassSum(v, n);
    }
    assert StoredExact(v) by { assert On(true, v); }
    HsumStoredExact(v, |v|);
    MassSum(v, |v|);
  }

  // No node of the shuffle network that reaches the result leaves i32: the four lane pairs,
  // the two pairs of those, and the root. (The last shuffle also fills lanes it discards.)
  ghost predicate ShuffledExact(v: seq<int>)
    requires |v| == 8
  {
    var exact: bool :| forall b {:trigger On(b, v)} :: On(b, v) ==> (exact <==>
      && NoWrap(v[..4], v[4..])
      && IsI32(v[0] + v[4] + (v[2] + v[6])) && IsI32(v[1] + v[5] + (v[3] + v[7]))
      && IsI32(Sum(v)));
    exact
  }

  lemma AbsAdd(x: int, y: int, p: nat, q: nat)
    requires Abs(x) <= p && Abs(y) <= q
    ensures Abs(x + y) <= p + q && (p + q < LIMIT ==> IsI32(x + y) && Wrap32(x + y) == x + y)
  {
  }

  // The addition tree over eight values, given the exact first level.
  lemma TreeNodes(q0: int, q1: int, q2: int, q3: int, m0: nat, m1: nat, m2: nat, m3: nat)
    requires m0 + m1 + m2 + m3 < LIMIT
    requires Abs(q0) <= m0 && Abs(q1) <= m1 && Abs(q2) <= m2 && Abs(q3) <= m3
    ensures IsI32(q0) && IsI32(q1) && IsI32(q2) && IsI32(q3) && IsI32(q0 + q2) && IsI32(q1 + q3)
    ensures IsI32(q0 + q2 + (q1 + q3)) && Abs(q0 + q2 + (q1 + q3)) <= m0 + m1 + m2 + m3
  {
    AbsAdd(q0, q2, m0, m2);
    AbsAdd(q1, q3, m1, m3);
    AbsAdd(q0 + q2, q1 + q3, m0 + m2, m1 + m3);
  }

  lemma FirstLevel(v: seq<int>)
    requires |v| == 8
    requires IsI32(v[0] + v[4]) && IsI32(v[1] + v[5]) && IsI32(v[2] + v[6]) && IsI32(v[3] + v[7])
    ensures NoWrap(v[..4], v[4..])
  {
    assert On(true, v[..4]);
  }

  lemma ShuffledSum(v: seq<int>, s: int)
    requires |v| == 8 && s == Sum(v) && IsI32(s)
    ensures HsumShuffled(v) == s
  {
    HsumsAgree(v);
  }

  lemma ShuffledMass(v: seq<int>)
    requires |v| == 8 && Mass(v) < LIMIT
    ensures ShuffledExact(v) && HsumShuffled(v) == Sum(v) && Abs(HsumShuffled(v)) <= Mass(v)
  {
    var q0, q1, q2, q3 := v[0] + v[4], v[1] + v[5], v[2] + v[6], v[3] + v[7];
    assert Sum(v) == q0 + q2 + (q1 + q3) by { Sum8(v); }
    ShuffledNodes(v, q0, q1, q2, q3, Mass(v));
    FirstLevel(v);
    ShuffledSum(v, q0 + q2 + (q1 + q3));
    assert ShuffledExact(v) by { assert On(true, v); }
  }

  lemma ShuffledWeighs(v: seq<int>, m: nat)
    requires |v| == 8 && Weighs(v, m) && m < LIMIT
    ensures ShuffledExact(v) && Abs(HsumShuffled(v)) <= m
  {
    WeighsIs(v, m);
    ShuffledMass(v);
  }

  lemma ShuffledNodes(v: seq<int>, q0: int, q1: int, q2: int, q3: int, m: nat)
    requires |v| == 8 && m == Mass(v) < LIMIT
    requires q0 == v[0] + v[4] && q1 == v[1] + v[5] && q2 == v[2] + v[6] && q3 == v[3] + v[7]
    ensures IsI32(q0) && IsI32(q1) && IsI32(q2) && IsI32(q3) && IsI32(q0 + q2) && IsI32(q1 + q3)
    ensures IsI32(q0 + q2 + (q1 + q3)) && Abs(q0 + q2 + (q1 + q3)) <= m
  {
    var m0, m1 := Abs(v[0]) + Abs(v[4]), Abs(v[1]) + Abs(v[5]);
    var m2, m3 := Abs(v[2]) + Abs(v[6]), Abs(v[3]) + Abs(v[7]);
    assert m0 + m1 + m2 + m3 == m by { Mass8(v); }
    AbsAdd(v[0], v[4], Abs(v[0]), Abs(v[4]));
    AbsAdd(v[1], v[5], Abs(v[1]), Abs(v[5]));
    AbsAdd(v[2], v[6], Abs(v[2]), Abs(v[6]));
    AbsAdd(v[3], v[7], Abs(v[3]), Abs(v[7]));
    TreeNodes(q0, q1, q2, q3, m0, m1, m2, m3);
  }

  lemma Mass8(v: seq<int>)
    requires |v| == 8
    ensures Mass(v) == Abs(v[0]) + Abs(v[1]) + Abs(v[2]) + Abs(v[3]) + Abs(v[4]) + Abs(v[5]) + Abs(v[6]) + Abs(v[7])
  {
    assert MassTo(v, 1) == MassTo(v, 0) + Abs(v[0]);
    assert MassTo(v, 3) == MassTo(v, 2) + Abs(v[2]) == MassTo(v, 1) + Abs(v[1]) + Abs(v[2]);
    assert MassTo(v, 5) == MassTo(v, 4) + Abs(v[4]) == MassTo(v, 3) + Abs(v[3]) + Abs(v[4]);
    assert MassTo(v, 7) == MassTo(v, 6) + Abs(v[6]) == MassTo(v, 5) + Abs(v[5]) + Abs(v[6]);
  }

  // Neither the product nor the sum of a scalar step leaves i32.
  ghost predicate MulAddExact(s: int, x: int, y: int) {
    var exact: bool :| forall b {:trigger On(b, s)} :: On(b, s) ==> (exact <==> IsI32(x * y) && IsI32(s + x * y));
    exact
  }

  lemma MulAddMass(s: int, x: int, y: int, p: nat, q: nat)
    requires 0 - p <= x <= p && 0 - q <= y <= q && Abs(s) + p * q < LIMIT
    ensures MulAddExact(s, x, y) && Abs(MulAdd(s, x, y)) <= Abs(s) + p * q
  {
    assert On(true, s);
    ProductBound(x, y, p, q);
  }

  // ----- scalar tails --------------------------------------------------------

  ghost predicate IsMulAdd(r: int, s: int, x: int, y: int) {
    forall b {:trigger On(b, s)} :: On(b, s) ==> r == MulAdd(s, x, y)
  }

  // No product and no sum of a scalar loop over entries x .. k leaves i32. (This recursion
  // and those built on it follow the code step by step; the key unfolds one step.)
  ghost predicate TailExact(s: int, a: seq<int>, w: seq<int>, x: nat, k: nat)
    requires x <= k <= |a| && k <= |w|
    decreases k - x
  {
    var exact: bool :| forall b {:trigger On(b, s)} :: On(b, s) ==>
      (exact <==> x < k ==> MulAddExact(s, a[x], w[x]) && TailExact(MulAdd(s, a[x], w[x]), a, w, x + 1, k));
    exact
  }

  lemma TailStep(s: int, r: int, a: seq<int>, w: seq<int>, x: nat, k: nat)
    requires x < k <= |a| && k <= |w| && IsMulAdd(r, s, a[x], w[x])
    ensures TailExact(s, a, w, x, k) <==> MulAddExact(s, a[x], w[x]) && TailExact(r, a, w, x + 1, k)
  {
    assert On(true, s);
  }

  lemma TailDone(s: int, a: seq<int>, w: seq<int>, k: nat)
    requires k <= |a| && k <= |w|
    ensures TailExact(s, a, w, k, k)
  {
    assert On(true, s);
  }

  method TailOne(s0: int, a: seq<int>, w: seq<int>, x: nat, ghost ok0: bool) returns (s: int, ghost ok: bool)
    requires x < |a| && x < |w| && Congruent(s0, DotTo(a, w, x))
    ensures IsI32(s) && Congruent(s, DotTo(a, w, x + 1))
    ensures IsMulAdd(s, s0, a[x], w[x]) && ok == (ok0 && MulAddExact(s0, a[x], w[x]))
  {
    MulAddStep(s0, a, w, x);
    s := MulAdd(s0, a[x], w[x]);
    ok := ok0 && MulAddExact(s0, a[x], w[x]);
  }

  // One product at a time from entry x0 on.
  method ScalarLoop(s0: int, a: seq<int>, w: seq<int>, x0: nat, k: nat, ghost ok0: bool)
    returns (s: int, ghost ok: bool)
    requires x0 <= k <= |a| && k <= |w| && IsI32(s0) && Congruent(s0, DotTo(a, w, x0))
    ensures IsI32(s) && Congruent(s, DotTo(a, w, k))
    ensures ok == (ok0 && TailExact(s0, a, w, x0, k))
  {
    s, ok := s0, ok0;
    for x := x0 to k
      invariant IsI32(s) && Congruent(s, DotTo(a, w, x))
      invariant (ok && TailExact(s, a, w, x, k)) == (ok0 && TailExact(s0, a, w, x0, k))
    {
      ghost var was := s;
      s, ok := TailOne(s, a, w, x, ok);
      TailStep(was, s, a, w, x, k);
    }
    TailDone(s, a, w, k);
  }

  // Within the budget a scalar loop is exact.
  lemma {:induction false} TailFits(s: int, a: seq<int>, w: seq<int>, x: nat, k: nat, p: nat, q: nat)
    requires x <= k <= |a| && k <= |w| && Within(a, p) && Within(w, q)
    requires Budget(p * q, k) < LIMIT && Abs(s) <= Budget(p * q, x)
    ensures TailExact(s, a, w, x, k)
    decreases k - x
  {
    if x < k {
      Spend(p * q, x, 1, k);
      BudgetIs(p * q, 1);
      MulAddMass(s, a[x], w[x], p, q);
      var r := MulAdd(s, a[x], w[x]);
      TailFits(r, a, w, x + 1, k, p, q);
      TailStep(s, r, a, w, x, k);
    } else {
      TailDone(s, a, w, k);
    }
  }
}
