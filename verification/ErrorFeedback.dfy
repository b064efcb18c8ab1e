// Weight quantisation with the rounding error carried into the next weight.
module ErrorFeedback {
  import opened Integers
  import opened Quantise

  datatype Step = Step(q: int, err: real)

  // One weight v (already divided by the scale): round what is owed, keep the rest.
  function Carry(v: real, err: real): Step {
    var t := v + err;
    var r := Quantised(t, 63);
    Step(r, t - r as real)
  }

  // The residual left after the first n weights.
  function Residual(v: seq<real>, n: nat): real
    requires n <= |v|
  {
    if n == 0 then 0.0 else Carry(v[n - 1], Residual(v, n - 1)).err
  }

  // The n-th quantised weight.
  function Feedback(v: seq<real>, n: nat): int
    requires n < |v|
  {
    Carry(v[n], Residual(v, n)).q
  }

  ghost predicate Scaled(v: seq<real>) {
    forall i :: 0 <= i < |v| ==> AbsR(v[i]) <= 63.0
  }

  // The residual stays within a half even when the clamp at 63 fires.
  lemma {:induction false} ResidualBound(v: seq<real>, n: nat)
    requires n <= |v| && Scaled(v)
    ensures AbsR(Residual(v, n)) <= 0.5
  {
    if n > 0 {
      ResidualBound(v, n - 1);
      QuantisedNear(v[n - 1] + Residual(v, n - 1), 63);
    }
  }

  function SumR(v: seq<real>, n: nat): real
    requires n <= |v|
  {
    if n == 0 then 0.0 else SumR(v, n - 1) + v[n - 1]
  }

  function SumQ(q: seq<int>, n: nat): int
    requires n <= |q|
  {
    if n == 0 then 0 else SumQ(q, n - 1) + q[n - 1]
  }

  ghost predicate IsFeedback(q: seq<int>, v: seq<real>) {
    |q| == |v| && forall i :: 0 <= i < |v| ==> q[i] == Feedback(v, i)
  }

  // Nothing is lost: weights so far equal quantised weights so far plus the residual.
  lemma {:induction false} Conservation(v: seq<real>, q: seq<int>, n: nat)
    requires IsFeedback(q, v) && n <= |v|
    ensures SumR(v, n) == SumQ(q, n) as real + Residual(v, n)
  {
    if n > 0 {
      Conservation(v, q, n - 1);
    }
  }

  // Every prefix sum of the quantised weights is within a half of the true one, at any length.
  lemma PrefixError(v: seq<real>, q: seq<int>, n: nat)
    requires IsFeedback(q, v) && Scaled(v) && n <= |v|
    ensures AbsR(SumR(v, n) - SumQ(q, n) as real) <= 0.5
  {
    Conservation(v, q, n);
    ResidualBound(v, n);
  }

  // ----- the error of a dot product ------------------------------------------

  function Products(d: seq<real>, a: seq<real>): (p: seq<real>)
    requires |d| == |a|
    ensures |p| == |a|
  {
    seq(|a|, i requires 0 <= i < |a| => d[i] * a[i])
  }

  // What quantisation changes, weight by weight.
  function Errors(v: seq<real>, q: seq<int>): (d: seq<real>)
    requires |v| == |q|
    ensures |d| == |v|
  {
    seq(|v|, i requires 0 <= i < |v| => v[i] - q[i] as real)
  }

  // sum of a[i] * (v[i] - q[i]).
  function DotError(a: seq<real>, v: seq<real>, q: seq<int>): real
    requires |a| == |v| == |q|
  {
    SumR(Products(Errors(v, q), a), |a|)
  }

  function Magnitudes(a: seq<real>): (b: seq<real>)
    ensures |b| == |a|
  {
    seq(|a|, i requires 0 <= i < |a| => AbsR(a[i]))
  }

  function SumAbs(a: seq<real>): real {
    SumR(Magnitudes(a), |a|)
  }

  // a[i] - a[i + 1].
  function Steps(a: seq<real>): (b: seq<real>)
    requires |a| > 0
    ensures |b| == |a| - 1
  {
    seq(|a| - 1, i requires 0 <= i < |a| - 1 => a[i] - a[i + 1])
  }

  // Total variation of the activations.
  function Variation(a: seq<real>): real
    requires |a| > 0
  {
    SumAbs(Steps(a))
  }

  lemma {:induction false} SumPrefix(v: seq<real>, w: seq<real>, n: nat)
    requires n <= |v| && n <= |w| && forall i :: 0 <= i < n ==> v[i] == w[i]
    ensures SumR(v, n) == SumR(w, n)
  {
    if n > 0 { SumPrefix(v, w, n - 1); }
  }

  // One more entry adds its magnitude.
  lemma SumAbsSnoc(a: seq<real>, x: real)
    ensures SumAbs([]) == 0.0 && SumAbs(a + [x]) == SumAbs(a) + if x < 0.0 then -x else x
  {
    SumPrefix(Magnitudes(a + [x]), Magnitudes(a), |a|);
  }

  // One more entry adds its distance from the last one.
  lemma VariationSnoc(a: seq<real>, x: real)
    requires |a| > 0
    ensures Variation([x]) == 0.0
    ensures var d := x - a[|a| - 1]; Variation(a + [x]) == Variation(a) + if d < 0.0 then -d else d
  {
    assert Steps([x]) == [];
    SumAbsSnoc([], 0.0);
    assert Steps(a + [x]) == Steps(a) + [a[|a| - 1] - x];
    SumAbsSnoc(Steps(a), a[|a| - 1] - x);
  }

  lemma HalfOfPositive(e: real, x: real)
    requires -0.5 <= e <= 0.5
    ensures x >= 0.0 ==> -0.5 * x <= e * x <= 0.5 * x
  {
  }

  lemma HalfOfNegative(e: real, x: real)
    requires -0.5 <= e <= 0.5
    ensures x < 0.0 ==> 0.5 * x <= e * x <= -0.5 * x
  {
  }

  lemma HalfProduct(e: real, x: real)
    requires AbsR(e) <= 0.5
    ensures AbsR(e * x) <= 0.5 * AbsR(x)
  {
    HalfOfPositive(e, x);
    HalfOfNegative(e, x);
  }

  lemma HalfProducts(e: seq<real>, x: seq<real>)
    requires |e| == |x| && forall i :: 0 <= i < |e| ==> AbsR(e[i]) <= 0.5
    ensures forall i :: 0 <= i < |x| ==> AbsR(Products(e, x)[i]) <= 0.5 * Magnitudes(x)[i]
  {
    forall i | 0 <= i < |x|
      ensures AbsR(Products(e, x)[i]) <= 0.5 * Magnitudes(x)[i]
    {
      HalfProduct(e[i], x[i]);
    }
  }

  lemma {:induction false} TriangleSum(p: seq<real>, b: seq<real>, n: nat)
    requires n <= |p| == |b| && forall i :: 0 <= i < |p| ==> AbsR(p[i]) <= 0.5 * b[i]
    ensures AbsR(SumR(p, n)) <= 0.5 * SumR(b, n)
  {
    if n > 0 {
      TriangleSum(p, b, n - 1);
    }
  }

  // Terms that each are the step of g plus the previous drift h add up to the last g plus
  // all the drift.
  lemma {:induction false} SumByParts(p: seq<real>, g: seq<real>, h: seq<real>, n: nat)
    requires 0 < n <= |p| == |g| == |h| + 1 && p[0] == g[0]
    requires forall i {:trigger p[i]} :: 1 <= i < |p| ==> p[i] == g[i] - g[i - 1] + h[i - 1]
    ensures SumR(p, n) == g[n - 1] + SumR(h, n - 1)
  {
    if n == 1 {
      assert SumR(p, 1) == SumR(p, 0) + p[0];
    } else {
      SumByParts(p, g, h, n - 1);
    }
  }

  // The residuals after each weight: each error is the step from one to the next.
  function Residuals(v: seq<real>): (e: seq<real>)
    ensures |e| == |v|
  {
    seq(|v|, i requires 0 <= i < |v| => Residual(v, i + 1))
  }

  lemma ResidualsBound(v: seq<real>)
    requires Scaled(v)
    ensures forall i :: 0 <= i < |v| ==> AbsR(Residuals(v)[i]) <= 0.5
  {
    forall i | 0 <= i < |v|
      ensures AbsR(Residuals(v)[i]) <= 0.5
    {
      ResidualBound(v, i + 1);
    }
  }

  lemma ResidualSteps(v: seq<real>, q: seq<int>, i: nat)
    requires IsFeedback(q, v) && i < |v|
    ensures Errors(v, q)[i] == Residuals(v)[i] - if i == 0 then 0.0 else Residuals(v)[i - 1]
  {
  }

  lemma Distribute(z: real, e: real, e': real, x: real, x': real, zx: real, ex: real, ex': real, drift: real)
    requires z == e - e' && zx == z * x && ex == e * x && ex' == e' * x' && drift == e' * (x' - x)
    ensures zx == ex - ex' + drift
  {
    assert (e - e') * x == e * x - e' * x;
    assert e' * (x' - x) == e' * x' - e' * x;
  }

  lemma TermSteps(d: seq<real>, e: seq<real>, a: seq<real>, i: nat)
    requires |d| == |e| == |a| && 0 < i < |a| && d[i] == e[i] - e[i - 1]
    ensures Products(d, a)[i] == Products(e, a)[i] - Products(e, a)[i - 1] + Products(e[..|a| - 1], Steps(a))[i - 1]
  {
    Distribute(d[i], e[i], e[i - 1], a[i], a[i - 1], Products(d, a)[i], Products(e, a)[i],
               Products(e, a)[i - 1], Products(e[..|a| - 1], Steps(a))[i - 1]);
  }

  // Each error term, as the step of residual times activation plus the drift.
  lemma AbelTerm(a: seq<real>, v: seq<real>, q: seq<int>, i: nat)
    requires IsFeedback(q, v) && 0 < i < |a| == |v|
    ensures Products(Errors(v, q), a)[i]
      == Products(Residuals(v), a)[i] - Products(Residuals(v), a)[i - 1]
         + Products(Residuals(v)[..|a| - 1], Steps(a))[i - 1]
  {
    var e := Residuals(v);
    ResidualSteps(v, q, i);
    TermSteps(Errors(v, q), e, a, i);
  }

  lemma AbelTerms(a: seq<real>, v: seq<real>, q: seq<int>)
    requires IsFeedback(q, v) && 0 < |a| == |v|
    ensures var p, g := Products(Errors(v, q), a), Products(Residuals(v), a);
      var h := Products(Residuals(v)[..|a| - 1], Steps(a));
      p[0] == g[0] && forall i {:trigger p[i]} :: 1 <= i < |p| ==> p[i] == g[i] - g[i - 1] + h[i - 1]
  {
    ResidualSteps(v, q, 0);
    forall i | 1 <= i < |a|
      ensures Products(Errors(v, q), a)[i]
        == Products(Residuals(v), a)[i] - Products(Residuals(v), a)[i - 1]
           + Products(Residuals(v)[..|a| - 1], Steps(a))[i - 1]
    {
      AbelTerm(a, v, q, i);
    }
  }

  // Error feedback: the dot error is at most half of the last activation plus the total
  // variation of the activations, however many weights there are.
  lemma FeedbackDotError(a: seq<real>, v: seq<real>, q: seq<int>)
    requires IsFeedback(q, v) && Scaled(v) && 0 < |a| == |v|
    ensures AbsR(DotError(a, v, q)) <= 0.5 * (AbsR(a[|a| - 1]) + Variation(a))
  {
    var n, e := |a|, Residuals(v);
    ResidualsBound(v);
    AbelTerms(a, v, q);
    SumByParts(Products(Errors(v, q), a), Products(e, a), Products(e[..n - 1], Steps(a)), n);
    HalfProducts(e, a);
    HalfProducts(e[..n - 1], Steps(a));
    TriangleSum(Products(e[..n - 1], Steps(a)), Magnitudes(Steps(a)), n - 1);
  }

  // ----- independent rounding, for comparison --------------------------------

  ghost predicate IsIndependent(q: seq<int>, v: seq<real>) {
    |q| == |v| && forall i :: 0 <= i < |v| ==> q[i] == Quantised(v[i], 63)
  }

  // Levels within a half of their values are bounded by the activations' absolute sum.
  lemma NearDotError(a: seq<real>, v: seq<real>, q: seq<int>)
    requires |a| == |v| == |q| && forall i :: 0 <= i < |v| ==> AbsR(v[i] - q[i] as real) <= 0.5
    ensures AbsR(DotError(a, v, q)) <= 0.5 * SumAbs(a)
  {
    var d := Errors(v, q);
    HalfProducts(d, a);
    TriangleSum(Products(d, a), Magnitudes(a), |a|);
  }

  // Rounding each weight alone gives no better bound than that.
  lemma IndependentDotError(a: seq<real>, v: seq<real>, q: seq<int>)
    requires |a| == |v| && Scaled(v) && IsIndependent(q, v)
    ensures AbsR(DotError(a, v, q)) <= 0.5 * SumAbs(a)
  {
    forall i | 0 <= i < |v|
      ensures AbsR(v[i] - q[i] as real) <= 0.5
    {
      QuantisedNear(v[i], 63);
    }
    NearDotError(a, v, q);
  }

  // The feedback bound is never worse than twice the independent one.
  lemma FeedbackNeverTwiceWorse(a: seq<real>)
    requires |a| > 0
    ensures 0.5 * (AbsR(a[|a| - 1]) + Variation(a)) <= 2.0 * (0.5 * SumAbs(a))
  {
    VariationTo(a, |a|);
  }

  lemma {:induction false} VariationTo(a: seq<real>, n: nat)
    requires 0 < n <= |a|
    ensures AbsR(a[n - 1]) + SumR(Magnitudes(Steps(a)), n - 1) <= 2.0 * SumR(Magnitudes(a), n)
  {
    if n == 1 {
      assert SumR(Magnitudes(a), 1) == SumR(Magnitudes(a), 0) + AbsR(a[0]);
    } else {
      VariationTo(a, n - 1);
    }
  }

  lemma {:induction false} ConstantSum(c: real, v: seq<real>, n: nat)
    requires n <= |v| && forall i :: 0 <= i < |v| ==> v[i] == c
    ensures SumR(v, n) == c * n as real
  {
    if n > 0 {
      ConstantSum(c, v, n - 1);
      assert c * n as real == c * (n - 1) as real + c;
    }
  }

  lemma ConstantVariation(n: nat)
    requires n > 0
    ensures Variation(seq(n, _ => 1.0)) == 0.0
  {
    ConstantSum(0.0, Magnitudes(Steps(seq(n, _ => 1.0))), n - 1);
  }

  // ----- the quantiser -------------------------------------------------------

  function ScaleBy(col: seq<real>, inv: real): (v: seq<real>)
    ensures |v| == |col|
  {
    seq(|col|, i requires 0 <= i < |col| => col[i] * inv)
  }

  lemma ScaleByAt(col: seq<real>, inv: real, i: nat)
    requires i < |col|
    ensures ScaleBy(col, inv)[i] == col[i] * inv
  {
  }

  // The column divided by its scale.
  function ScaledColumn(col: seq<real>): (v: seq<real>)
    ensures |v| == |col|
  {
    ScaleBy(col, 1.0 / ScaleOf(col, 63))
  }

  lemma ScaledColumnWithin(col: seq<real>)
    ensures Scaled(ScaledColumn(col))
  {
    var inv := 1.0 / ScaleOf(col, 63);
    forall i | 0 <= i < |col|
      ensures AbsR(ScaleBy(col, inv)[i]) <= 63.0
    {
      RowScaledWithin(col, 63, i, inv);
      ScaleByAt(col, inv, i);
    }
  }

  // ----- a column that separates the two modes ------------------------------

  // One weight 63 and n weights 0.4.
  function Column(n: nat): (col: seq<real>)
    ensures |col| == n + 1 && col[0] == 63.0 && forall i :: 1 <= i <= n ==> col[i] == 0.4
  {
    [63.0] + seq(n, _ => 0.4)
  }

  lemma {:induction false} ColumnAmax(n: nat, m: nat)
    requires 0 < m <= n + 1
    ensures AmaxTo(Column(n), m) == 63.0
  {
    if m > 1 {
      ColumnAmax(n, m - 1);
    } else {
      assert AmaxTo(Column(n), 0) == 0.0;
    }
  }

  // Its scale is one, so it is its own scaled column.
  lemma ColumnScale(n: nat)
    ensures ScaleOf(Column(n), 63) == 1.0 && ScaledColumn(Column(n)) == Column(n)
  {
    ColumnAmax(n, n + 1);
    forall i | 0 <= i <= n
      ensures ScaledColumn(Column(n))[i] == Column(n)[i]
    {
      ScaleByAt(Column(n), 1.0, i);
    }
  }

  lemma {:induction false} TailSum(p: seq<real>, m: nat)
    requires 0 < m <= |p| && p[0] == 0.0 && forall i :: 1 <= i < |p| ==> p[i] == 0.4
    ensures SumR(p, m) == 0.4 * (m - 1) as real
  {
    if m > 1 {
      TailSum(p, m - 1);
    } else {
      assert SumR(p, 0) == 0.0;
    }
  }

  // On that column and constant activations, independent rounding drops every small weight
  // and errs by 0.4 n, while error feedback stays within one half at every n.
  lemma ColumnErrors(n: nat, ef: seq<int>, indep: seq<int>)
    requires IsFeedback(ef, ScaledColumn(Column(n))) && IsIndependent(indep, ScaledColumn(Column(n)))
    ensures DotError(seq(n + 1, _ => 1.0), ScaledColumn(Column(n)), indep) == 0.4 * n as real
    ensures AbsR(DotError(seq(n + 1, _ => 1.0), ScaledColumn(Column(n)), ef)) <= 0.5
  {
    var a, v := seq(n + 1, _ => 1.0), Column(n);
    ColumnScale(n);
    assert Quantised(0.4, 63) == 0 && Quantised(63.0, 63) == 63;
    var p := Products(Errors(v, indep), a);
    forall i | 0 <= i <= n ensures p[i] == if i == 0 then 0.0 else 0.4 { }
    TailSum(p, n + 1);
    ConstantVariation(n + 1);
    ScaledColumnWithin(v);
    FeedbackDotError(a, v, ef);
  }

  // Quantising that column both ways.
  method SeparateModes(n: nat) returns (ef: array<int>, indep: array<int>)
    ensures ef.Length == indep.Length == n + 1
    ensures DotError(seq(n + 1, _ => 1.0), ScaledColumn(Column(n)), indep[..]) == 0.4 * n as real
    ensures AbsR(DotError(seq(n + 1, _ => 1.0), ScaledColumn(Column(n)), ef[..])) <= 0.5
  {
    var s, s';
    ef, s := QuantW(Column(n), true);
    indep, s' := QuantW(Column(n), false);
    ColumnErrors(n, ef[..], indep[..]);
  }

  // ----- the loops -----------------------------------------------------------

  // One element: scale it, add what is owed, round and clamp.
  method RoundOwed(col: seq<real>, i: nat, inv: real, err: real) returns (step: Step)
    requires i < |col|
    ensures step == Carry(ScaleBy(col, inv)[i], err)
  {
    ScaleByAt(col, inv, i);
    step := Carry(col[i] * inv, err);
  }

  // The feedback loop: round what is owed, carry the rest.
  method QuantFeedback(col: seq<real>, inv: real, q: array<int>, ghost v: seq<real>)
    requires q.Length == |col| && v == ScaleBy(col, inv)
    modifies q
    ensures IsFeedback(q[..], v)
  {
    var err := 0.0;
    for i := 0 to |col|
      invariant err == Residual(v, i)
      invariant forall j :: 0 <= j < i ==> q[j] == Feedback(v, j)
    {
      var step := RoundOwed(col, i, inv, err);
      err := step.err;
      q[i] := step.q;
    }
  }

  method QuantIndependent(col: seq<real>, inv: real, q: array<int>, ghost v: seq<real>)
    requires q.Length == |col| && v == ScaleBy(col, inv)
    modifies q
    ensures IsIndependent(q[..], v)
  {
    for i := 0 to |col|
      invariant forall j :: 0 <= j < i ==> q[j] == Quantised(v[j], 63)
    {
      q[i] := Quantised(col[i] * inv, 63);
    }
  }

  lemma QuantisedRange(q: seq<int>, v: seq<real>)
    requires IsFeedback(q, v) || IsIndependent(q, v)
    ensures forall i :: 0 <= i < |q| ==> -63 <= q[i] <= 63
  {
  }

  method QuantW(col: seq<real>, ef: bool) returns (q: array<int>, sc: real)
    ensures sc == ScaleOf(col, 63) && Scaled(ScaledColumn(col))
    ensures forall m :: IsPeak(col, m) ==> sc == m / 63.0
    ensures if ef then IsFeedback(q[..], ScaledColumn(col)) else IsIndependent(q[..], ScaledColumn(col))
    ensures forall i :: 0 <= i < q.Length ==> -63 <= q[i] <= 63
  {
    sc := RowScale(col, 63);
    ghost var v := ScaledColumn(col);
    ScaledColumnWithin(col);
    q := new int[|col|](_ => 0);
    if ef {
      QuantFeedback(col, 1.0 / sc, q, v);
    } else {
      QuantIndependent(col, 1.0 / sc, q, v);
    }
    QuantisedRange(q[..], v);
    assert forall i :: 0 <= i < q.Length ==> q[i] == q[..][i];
  }
}
