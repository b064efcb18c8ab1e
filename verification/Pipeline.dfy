// From float matrices to the float product through int8: rows quantised, one of the
// GEMM loop nests run, and the error of every cell bounded. Over the reals.
module Pipeline {
  import opened Integers
  import opened Dots
  import ErrorFeedback
  import opened Grid
  import opened Quantise
  import opened MaddubsGemm

  // z == x * y. The trigger keeps the product out of proofs that only pass it along.
  ghost predicate Product(z: real, x: real, y: real) {
    forall b {:trigger Open(b)} :: Open(b) ==> z == x * y
  }

  lemma InverseIs(inv: real, s: real)
    requires s > 0.0
    ensures Product(1.0, inv, s) <==> inv == 1.0 / s
  {
    assert Open(true);
    assert (1.0 / s) * s == 1.0;
    if inv * s == 1.0 { assert inv == inv * s / s; }
  }

  // ----- the error of one product --------------------------------------------

  lemma ScaleUp(x: real, y: real, z: real)
    requires x <= y && 0.0 <= z
    ensures x * z <= y * z
  {
  }

  lemma AbsTimes(u: real, v: real)
    ensures AbsR(u * v) == AbsR(u) * AbsR(v)
  {
    ScaleUp(0.0, AbsR(u), AbsR(v));
    if u < 0.0 {
      assert u * v == -((-u) * v);
      if v < 0.0 { assert (-u) * v == -((-u) * (-v)); }
    } else if v < 0.0 {
      assert u * v == -(u * (-v));
    }
  }

  lemma AbsProduct(u: real, v: real, p: real, q: real)
    requires AbsR(u) <= p && AbsR(v) <= q
    ensures AbsR(u * v) <= p * q
  {
    AbsTimes(u, v);
    ScaleUp(AbsR(u), p, AbsR(v));
    ScaleUp(AbsR(v), q, p);
  }

  lemma Cross(x: real, y: real, u: real, v: real, dx: real, dy: real)
    requires x == u + dx && y == v + dy
    ensures x * y - u * v == dx * y + u * dy
  {
    assert x * y == u * y + dx * y;
    assert u * y == u * v + u * dy;
  }

  lemma RealTermError(u: real, v: real, p: real, q: real, dx: real, dy: real, b: real)
    requires u == p + dx && v == q + dy && AbsR(dx) <= 0.5 && AbsR(dy) <= 0.5 && AbsR(p) <= 127.0 && AbsR(v) <= b
    ensures AbsR(u * v - p * q) <= (b + 127.0) / 2.0
  {
    AbsProduct(dx, v, 0.5, b);
    AbsProduct(p, dy, 127.0, 0.5);
    Cross(u, v, p, q, dx, dy);
  }

  lemma IntProduct(p: int, q: int)
    ensures (p * q) as real == p as real * q as real
  {
  }

  // Levels p and q within a half of u and v have a product near theirs.
  lemma TermError(u: real, v: real, p: int, q: int, uv: real, pq: int, b: real)
    requires uv == u * v && pq == p * q
    requires AbsR(u - p as real) <= 0.5 && AbsR(v - q as real) <= 0.5 && -127 <= p <= 127 && AbsR(v) <= b
    ensures AbsR(uv - pq as real) <= (b + 127.0) / 2.0
  {
    var p', q' := p as real, q as real;
    assert AbsR(u * v - p' * q') <= (b + 127.0) / 2.0 by {
      RealTermError(u, v, p', q', u - p', v - q', b);
    }
    IntProduct(p, q);
  }

  // ----- the error of a dot product ------------------------------------------

  function RealDot(x: seq<real>, y: seq<real>): real
    requires |x| == |y|
  {
    ErrorFeedback.SumR(ErrorFeedback.Products(x, y), |x|)
  }

  ghost predicate AllNear(v: seq<real>, q: seq<int>, e: real) {
    |v| == |q| && forall i :: 0 <= i < |v| ==> AbsR(v[i] - q[i] as real) <= e
  }

  ghost predicate Covers(v: seq<real>, limit: real) {
    forall i :: 0 <= i < |v| ==> AbsR(v[i]) <= limit
  }

  // n times e, by addition.
  function Times(n: nat, e: real): real {
    if n == 0 then 0.0 else Times(n - 1, e) + e
  }

  lemma {:induction false} TimesIs(n: nat, e: real)
    ensures Times(n, e) == n as real * e
  {
    if n > 0 {
      TimesIs(n - 1, e);
      assert n as real * e == (n - 1) as real * e + e;
    }
  }

  // Errors of the terms add up.
  lemma {:induction false} SumError(v: seq<real>, q: seq<int>, e: real, n: nat)
    requires AllNear(v, q, e) && n <= |v|
    ensures AbsR(ErrorFeedback.SumR(v, n) - SumTo(q, n) as real) <= Times(n, e)
  {
    if n > 0 {
      SumError(v, q, e, n - 1);
    }
  }

  // The two products at i, by name.
  lemma RealProductIs(u: seq<real>, v: seq<real>, i: nat, x: real, y: real, z: real)
    requires |u| == |v| && i < |u| && x == u[i] && y == v[i] && z == ErrorFeedback.Products(u, v)[i]
    ensures z == x * y
  {
  }

  lemma IntProductIs(p: seq<int>, q: seq<int>, i: nat, x: int, y: int, z: int)
    requires |p| == |q| && i < |p| && x == p[i] && y == q[i] && z == Products(p, q, |p|)[i]
    ensures z == x * y
  {
    ProductAt(p, q, |p|, i);
  }

  lemma DotTermError(u: seq<real>, v: seq<real>, p: seq<int>, q: seq<int>, b: real, i: nat,
                     x: real, y: real, m: int, n: int, xy: real, mn: int)
    requires |u| == |v| == |p| == |q| && i < |u| && x == u[i] && y == v[i] && m == p[i] && n == q[i]
    requires xy == ErrorFeedback.Products(u, v)[i] && mn == Products(p, q, |p|)[i]
    requires AbsR(x - m as real) <= 0.5 && AbsR(y - n as real) <= 0.5 && -127 <= m <= 127 && AbsR(y) <= b
    ensures AbsR(xy - mn as real) <= (b + 127.0) / 2.0
  {
    RealProductIs(u, v, i, x, y, xy);
    IntProductIs(p, q, i, m, n, mn);
    TermError(x, y, m, n, xy, mn, b);
  }

  lemma DotError(u: seq<real>, v: seq<real>, p: seq<int>, q: seq<int>, b: real)
    requires |u| == |v| && AllNear(u, p, 0.5) && AllNear(v, q, 0.5) && Within(p, 127) && Covers(v, b)
    ensures AbsR(RealDot(u, v) - Dot(p, q) as real) <= Times(|u|, (b + 127.0) / 2.0)
  {
    var uv, pq := ErrorFeedback.Products(u, v), Products(p, q, |p|);
    forall i | 0 <= i < |u|
      ensures AbsR(uv[i] - pq[i] as real) <= (b + 127.0) / 2.0
    {
      DotTermError(u, v, p, q, b, i, u[i], v[i], p[i], q[i], uv[i], pq[i]);
    }
    SumError(uv, pq, (b + 127.0) / 2.0, |u|);
  }

  // ----- rows divided by their scale -----------------------------------------

  lemma ScaleByIs(x: seq<real>, inv: real, j: nat)
    requires j < |x|
    ensures Product(ErrorFeedback.ScaleBy(x, inv)[j], x[j], inv)
  {
  }

  lemma Regrow(x: real, s: real, inv: real, u: real)
    requires Product(1.0, inv, s) && Product(u, x, inv)
    ensures Product(x, u, s)
  {
    assert Open(true);
    assert u * s == x * (inv * s);
  }

  lemma TermScales(x: real, y: real, u: real, v: real, s: real, t: real, st: real, xy: real, uv: real)
    requires Product(x, u, s) && Product(y, v, t) && Product(st, s, t) && xy == x * y && uv == u * v
    ensures Product(xy, uv, st)
  {
    assert Open(true);
    assert (u * s) * (v * t) == (u * v) * (s * t);
  }

  lemma SumStep(a: real, b: real, c: real, d: real, st: real)
    requires Product(a, b, st) && Product(c, d, st)
    ensures Product(a + c, b + d, st)
  {
    assert Open(true);
    assert (b + d) * st == b * st + d * st;
  }

  lemma {:induction false} SumScales(a: seq<real>, b: seq<real>, st: real, n: nat)
    requires |a| == |b| && n <= |a| && forall i :: 0 <= i < |a| ==> Product(a[i], b[i], st)
    ensures Product(ErrorFeedback.SumR(a, n), ErrorFeedback.SumR(b, n), st)
  {
    if n > 0 {
      SumScales(a, b, st, n - 1);
      SumStep(ErrorFeedback.SumR(a, n - 1), ErrorFeedback.SumR(b, n - 1), a[n - 1], b[n - 1], st);
    }
  }

  lemma ProductScales(x: seq<real>, y: seq<real>, u: seq<real>, v: seq<real>, s: real, t: real, st: real, i: nat,
                      xy: real, uv: real)
    requires |x| == |y| == |u| == |v| && i < |x|
    requires Product(x[i], u[i], s) && Product(y[i], v[i], t) && Product(st, s, t)
    requires xy == ErrorFeedback.Products(x, y)[i] && uv == ErrorFeedback.Products(u, v)[i]
    ensures Product(xy, uv, st)
  {
    var xi, yi, ui, vi := x[i], y[i], u[i], v[i];
    RealProductIs(x, y, i, xi, yi, xy);
    RealProductIs(u, v, i, ui, vi, uv);
    TermScales(xi, yi, ui, vi, s, t, st, xy, uv);
  }

  lemma RealDotScales(x: seq<real>, y: seq<real>, s: real, t: real, si: real, ti: real, st: real)
    requires |x| == |y| && Product(1.0, si, s) && Product(1.0, ti, t) && Product(st, s, t)
    ensures Product(RealDot(x, y), RealDot(ErrorFeedback.ScaleBy(x, si), ErrorFeedback.ScaleBy(y, ti)), st)
  {
    var u, v := ErrorFeedback.ScaleBy(x, si), ErrorFeedback.ScaleBy(y, ti);
    var xy, uv := ErrorFeedback.Products(x, y), ErrorFeedback.Products(u, v);
    forall i | 0 <= i < |x|
      ensures Product(xy[i], uv[i], st)
    {
      ScaleByIs(x, si, i);
      ScaleByIs(y, ti, i);
      Regrow(x[i], s, si, u[i]);
      Regrow(y[i], t, ti, v[i]);
      ProductScales(x, y, u, v, s, t, st, i, xy[i], uv[i]);
    }
    SumScales(xy, uv, st, |x|);
  }

  // ----- quantised rows ------------------------------------------------------

  ghost predicate IsQuantised(q: seq<int>, b: seq<real>, rows: nat, k: nat, bound: nat, offset: int) {
    |b| == rows * k && q == Table(rows, k, Entries(b, rows, k, bound, offset))
  }

  lemma LevelAt(q: seq<int>, b: seq<real>, rows: nat, k: nat, bound: nat, offset: int, r: nat, j: nat)
    requires IsQuantised(q, b, rows, k, bound, offset) && r < rows && j < k
    ensures Row(q, r, rows, k)[j] == Entry(b, rows, k, bound, offset, r, j)
  {
    RowAt(q, r, rows, k);
    assert q[Index(r, j, rows, k)] == Entries(b, rows, k, bound, offset)(r, j);
  }

  lemma EveryLevel(q: seq<int>, b: seq<real>, rows: nat, k: nat, bound: nat, offset: int)
    requires IsQuantised(q, b, rows, k, bound, offset) && bound > 0
    ensures forall i :: 0 <= i < |q| ==> offset - bound <= q[i] <= offset + bound
  {
    forall i | 0 <= i < |q|
      ensures offset - bound <= q[i] <= offset + bound
    {
      IndexSplit(i, rows, k);
      var r, j := i / k, i % k;
      assert q[Index(r, j, rows, k)] == Entries(b, rows, k, bound, offset)(r, j);
      EntryIs(b, rows, k, bound, offset, r, j);
    }
  }

  lemma UnitWithin(x: seq<real>, bound: nat, inv: real, j: nat, u: real)
    requires bound > 0 && j < |x| && Product(1.0, inv, ScaleOf(x, bound)) && Product(u, x[j], inv)
    ensures AbsR(u) <= bound as real
  {
    InverseIs(inv, ScaleOf(x, bound));
    RowScaledWithin(x, bound, j, inv);
    assert Open(true);
  }

  lemma LevelRounds(x: real, inv: real, bound: nat, u: real)
    requires Product(u, x, inv) && AbsR(u) <= bound as real
    ensures AbsR(u - Level(x, inv, bound) as real) <= 0.5
  {
    assert Open(true);
    QuantisedNear(u, bound);
  }

  lemma EntryLevel(q: seq<int>, b: seq<real>, rows: nat, k: nat, bound: nat, offset: int, r: nat, j: nat,
                   x: seq<real>, inv: real)
    requires IsQuantised(q, b, rows, k, bound, offset) && r < rows && j < k && bound > 0
    requires x == Row(b, r, rows, k) && Product(1.0, inv, ScaleOf(x, bound))
    ensures Row(q, r, rows, k)[j] - offset == Level(x[j], inv, bound)
  {
    InverseIs(inv, ScaleOf(x, bound));
    LevelAt(q, b, rows, k, bound, offset, r, j);
    EntryIs(b, rows, k, bound, offset, r, j);
  }

  lemma RowEntryNear(q: seq<int>, b: seq<real>, rows: nat, k: nat, bound: nat, offset: int, r: nat, j: nat,
                     x: seq<real>, inv: real, u: real, level: int)
    requires IsQuantised(q, b, rows, k, bound, offset) && r < rows && j < k && bound > 0
    requires x == Row(b, r, rows, k) && Product(1.0, inv, ScaleOf(x, bound))
    requires u == ErrorFeedback.ScaleBy(x, inv)[j] && level == Row(q, r, rows, k)[j] - offset
    ensures AbsR(u - level as real) <= 0.5 && AbsR(u) <= bound as real && 0 - bound <= level <= bound
  {
    EntryLevel(q, b, rows, k, bound, offset, r, j, x, inv);
    ScaleByIs(x, inv, j);
    UnitWithin(x, bound, inv, j, u);
    LevelRounds(x[j], inv, bound, u);
  }

  // Each row of levels, taken back to zero, rounds its row of reals divided by the scale.
  lemma RowNear(q: seq<int>, b: seq<real>, rows: nat, k: nat, bound: nat, offset: int, r: nat,
                x: seq<real>, levels: seq<int>, inv: real)
    requires IsQuantised(q, b, rows, k, bound, offset) && r < rows && bound > 0
    requires |levels| == k && forall j :: 0 <= j < k ==> levels[j] == Row(q, r, rows, k)[j] - offset
    requires x == Row(b, r, rows, k) && Product(1.0, inv, ScaleOf(x, bound))
    ensures AllNear(ErrorFeedback.ScaleBy(x, inv), levels, 0.5) && Covers(ErrorFeedback.ScaleBy(x, inv), bound as real)
    ensures Within(levels, bound)
  {
    var u := ErrorFeedback.ScaleBy(x, inv);
    forall j | 0 <= j < k
      ensures AbsR(u[j] - levels[j] as real) <= 0.5 && AbsR(u[j]) <= bound as real && 0 - bound <= levels[j] <= bound
    {
      RowEntryNear(q, b, rows, k, bound, offset, r, j, x, inv, u[j], levels[j]);
    }
  }

  lemma {:induction false} LevelsSum(q: seq<int>, b: seq<real>, rows: nat, k: nat, bound: nat, r: nat, n: nat)
    requires IsQuantised(q, b, rows, k, bound, 0) && r < rows && n <= k
    ensures SumTo(Row(q, r, rows, k), n) == EntrySum(b, rows, k, bound, r, n)
  {
    if n > 0 {
      LevelsSum(q, b, rows, k, bound, r, n - 1);
      LevelAt(q, b, rows, k, bound, 0, r, n - 1);
    }
  }

  // ----- the whole computation -----------------------------------------------

  // The bound a loop nest's weights are quantised to.
  function Levels(b: Blocking): (bound: nat)
    ensures 0 < bound <= WeightBound(b)
  {
    if b.Delayed? then 15 else 63
  }

  // The last step, over the reals.
  function Scaled(dot: int, sa: real, sw: real): real {
    dot as real * sa * sw
  }

  // A cell is within k times (bound + 127) / 2 steps of the real dot product of its rows,
  // a step being the product of the two row scales. (TimesIs: Times multiplies.)
  ghost predicate CellNear(v: real, x: seq<real>, y: seq<real>, s: real, t: real, bound: nat)
    requires |x| == |y|
  {
    AbsR(RealDot(x, y) - v) <= Times(|x|, (bound as real + 127.0) / 2.0) * (s * t)
  }

  // Cell (r, o) of the product of a [m, k] and a transposed [n, k] matrix.
  ghost predicate ProductNear(v: real, a: seq<real>, w: seq<real>, m: nat, k: nat, n: nat, r: nat, o: nat, bound: nat)
    requires |a| == m * k && |w| == n * k && r < m && o < n && bound > 0
  {
    var x, y := Row(a, r, m, k), Row(w, o, n, k);
    CellNear(v, x, y, ScaleOf(x, 127), ScaleOf(y, bound), bound)
  }

  lemma ScaledError(whole: real, unit: real, c: real, st: real, v: real, e: real, limit: real)
    requires Product(whole, unit, st) && Product(v, c, st) && Product(limit, e, st) && st >= 0.0 && AbsR(unit - c) <= e
    ensures AbsR(whole - v) <= limit
  {
    assert Open(true);
    AbsProduct(unit - c, st, e, st);
    assert unit * st == (unit - c) * st + c * st;
  }

  // Two rows, their scales and their levels: the scaled dot of the levels is near the real dot.
  lemma DotIsNear(x: seq<real>, y: seq<real>, p: seq<int>, q: seq<int>, s: real, t: real, si: real, ti: real,
                  st: real, bound: nat, v: real, limit: real)
    requires |x| == |y| && Product(1.0, si, s) && Product(1.0, ti, t) && Product(st, s, t) && st >= 0.0
    requires AllNear(ErrorFeedback.ScaleBy(x, si), p, 0.5) && AllNear(ErrorFeedback.ScaleBy(y, ti), q, 0.5)
    requires Within(p, 127) && Covers(ErrorFeedback.ScaleBy(y, ti), bound as real)
    requires Product(v, Dot(p, q) as real, st) && Product(limit, Times(|x|, (bound as real + 127.0) / 2.0), st)
    ensures AbsR(RealDot(x, y) - v) <= limit
  {
    RealDotScales(x, y, s, t, si, ti, st);
    DotError(ErrorFeedback.ScaleBy(x, si), ErrorFeedback.ScaleBy(y, ti), p, q, bound as real);
    ScaledError(RealDot(x, y), RealDot(ErrorFeedback.ScaleBy(x, si), ErrorFeedback.ScaleBy(y, ti)), Dot(p, q) as real,
                st, v,
                Times(|x|, (bound as real + 127.0) / 2.0), limit);
  }

  lemma ScaledIs(d: int, s: real, t: real, e: real)
    requires s > 0.0 && t > 0.0
    ensures s * t >= 0.0 && Product(s * t, s, t) && Product(Scaled(d, s, t), d as real, s * t)
    ensures Product(e * (s * t), e, s * t)
  {
    ScaleUp(0.0, s, t);
    assert d as real * s * t == d as real * (s * t);
  }

  lemma RowsNear(x: seq<real>, y: seq<real>, p: seq<int>, q: seq<int>, s: real, t: real, si: real, ti: real, bound: nat)
    requires |x| == |y| && Product(1.0, si, s) && Product(1.0, ti, t) && s > 0.0 && t > 0.0
    requires AllNear(ErrorFeedback.ScaleBy(x, si), p, 0.5) && AllNear(ErrorFeedback.ScaleBy(y, ti), q, 0.5)
    requires Within(p, 127) && Covers(ErrorFeedback.ScaleBy(y, ti), bound as real)
    ensures CellNear(Scaled(Dot(p, q), s, t), x, y, s, t, bound)
  {
    ScaledIs(Dot(p, q), s, t, Times(|x|, (bound as real + 127.0) / 2.0));
    DotIsNear(x, y, p, q, s, t, si, ti, s * t, bound, Scaled(Dot(p, q), s, t),
              Times(|x|, (bound as real + 127.0) / 2.0) * (s * t));
  }

  ghost predicate Prepared(g: Gemm<real>, a: seq<real>, w: seq<real>, bound: nat)
    requires bound > 0
  {
    && g.Valid(bound) && g.scale == Scaled
    && IsQuantised(g.qa, a, g.m, g.k, 127, 128) && IsQuantised(g.qw, w, g.n, g.k, bound, 0)
    && (forall r :: 0 <= r < g.m ==> g.sa[r] == ScaleOf(Row(a, r, g.m, g.k), 127))
    && (forall o :: 0 <= o < g.n ==> g.sw[o] == ScaleOf(Row(w, o, g.n, g.k), bound))
    && (forall o :: 0 <= o < g.n ==> g.wsum[o] == Wrap32(EntrySum(w, g.n, g.k, bound, o, g.k)))
  }

  // The cell is the exact signed dot of the levels, scaled.
  lemma CellIsScaled(g: Gemm<real>, a: seq<real>, w: seq<real>, bound: nat, r: nat, o: nat)
    requires bound > 0 && Prepared(g, a, w, bound) && r < g.m && o < g.n && 128 * bound * g.k < 0x8000_0000
    ensures g.Cell(r, o) == Scaled(Dot(Centred(g.ARow(r)), g.WRow(o)), g.sa[r], g.sw[o])
  {
    LevelsSum(g.qw, w, g.n, g.k, bound, o, g.k);
    CellIsSignedDot(g, bound, r, o);
  }

  lemma CellIsNear(g: Gemm<real>, a: seq<real>, w: seq<real>, bound: nat, r: nat, o: nat)
    requires bound > 0 && Prepared(g, a, w, bound) && r < g.m && o < g.n && 128 * bound * g.k < 0x8000_0000
    ensures ProductNear(g.Cell(r, o), a, w, g.m, g.k, g.n, r, o, bound)
  {
    var x, y := Row(a, r, g.m, g.k), Row(w, o, g.n, g.k);
    var p, q := Centred(g.ARow(r)), g.WRow(o);
    var si, ti := 1.0 / ScaleOf(x, 127), 1.0 / ScaleOf(y, bound);
    CellIsScaled(g, a, w, bound, r, o);
    InverseIs(si, ScaleOf(x, 127));
    InverseIs(ti, ScaleOf(y, bound));
    RowNear(g.qa, a, g.m, g.k, 127, 128, r, x, p, si);
    RowNear(g.qw, w, g.n, g.k, bound, 0, o, y, q, ti);
    RowsNear(x, y, p, q, g.sa[r], g.sw[o], si, ti, bound);
  }

  // Both quantisers.
  method QuantiseOperands(a: seq<real>, w: seq<real>, m: nat, k: nat, n: nat, b: Blocking) returns (g: Gemm<real>)
    requires |a| == m * k && |w| == n * k && k > 0 && n > 0
    ensures g.m == m && g.k == k && g.n == n
    ensures Prepared(g, a, w, Levels(b)) && g.Valid(WeightBound(b))
  {
    var bound := Levels(b);
    var qa, sa, _ := QuantRows(a, m, k, 127, 128);
    var qw, sw, wsum := QuantRows(w, n, k, bound, 0);
    EveryLevel(qa[..], a, m, k, 127, 128);
    EveryLevel(qw[..], w, n, k, bound, 0);
    g := Gemm(qa[..], sa[..], qw[..], sw[..], wsum[..], m, k, n, 0.0, Scaled);
    assert g.Valid(bound) && g.Valid(WeightBound(b));
  }

  // The error bound in the units of the inputs. With mx the largest magnitude in the row of
  // activations and my in the row of weights, a cell is within 95 (for 5-bit weights 71) steps
  // a term of the real dot product, a step being mx / 127 times my / 63 (my / 15).
  ghost predicate CellByPeaks(v: real, x: seq<real>, y: seq<real>, mx: real, my: real, fiveBit: bool)
    requires |x| == |y|
  {
    AbsR(RealDot(x, y) - v) <=
      if fiveBit then |x| as real * 71.0 * (mx / 127.0 * (my / 15.0))
      else |x| as real * 95.0 * (mx / 127.0 * (my / 63.0))
  }

  lemma NearByPeaks(v: real, x: seq<real>, y: seq<real>, mx: real, my: real, b: Blocking)
    requires |x| == |y| && IsPeak(x, mx) && IsPeak(y, my)
    requires CellNear(v, x, y, ScaleOf(x, 127), ScaleOf(y, Levels(b)), Levels(b))
    ensures CellByPeaks(v, x, y, mx, my, b.Delayed?)
  {
    ScaleIsPeak(x, 127, mx);
    ScaleIsPeak(y, Levels(b), my);
    var s, t := ScaleOf(x, 127), ScaleOf(y, Levels(b));
    if b.Delayed? {
      FiveBitCell(v, x, y, s, t, mx, my);
    } else {
      SevenBitCell(v, x, y, s, t, mx, my);
    }
  }

  lemma FiveBitCell(v: real, x: seq<real>, y: seq<real>, s: real, t: real, mx: real, my: real)
    requires |x| == |y| && CellNear(v, x, y, s, t, 15) && s == mx / 127.0 && t == my / 15.0
    ensures CellByPeaks(v, x, y, mx, my, true)
  {
    SpellSteps(AbsR(RealDot(x, y) - v), |x|, 71.0, s, t, mx / 127.0, my / 15.0);
  }

  lemma SevenBitCell(v: real, x: seq<real>, y: seq<real>, s: real, t: real, mx: real, my: real)
    requires |x| == |y| && CellNear(v, x, y, s, t, 63) && s == mx / 127.0 && t == my / 63.0
    ensures CellByPeaks(v, x, y, mx, my, false)
  {
    SpellSteps(AbsR(RealDot(x, y) - v), |x|, 95.0, s, t, mx / 127.0, my / 63.0);
  }

  lemma SpellSteps(d: real, n: nat, e: real, s: real, t: real, s': real, t': real)
    requires d <= Times(n, e) * (s * t) && s == s' && t == t'
    ensures d <= n as real * e * (s' * t')
  {
    TimesIs(n, e);
  }

  // Quantise the activations to u8 and the weights to the levels of the loop nest, run
  // it, and every cell is near the real product: 95 steps a term for 7-bit weights, 71
  // for 5-bit ones, whatever the blocking, the number of threads and the order of the tasks.
  method QuantisedProduct(a: seq<real>, w: seq<real>, m: nat, k: nat, n: nat, b: Blocking)
    returns (c: array<real>)
    requires |a| == m * k && |w| == n * k && k > 0 && n > 0
    requires 128 * Levels(b) * k < 0x8000_0000
    ensures c.Length == m * n
    ensures forall r, o :: 0 <= r < m && 0 <= o < n ==>
      ProductNear(c[Index(r, o, m, n)], a, w, m, k, n, r, o, Levels(b))
    ensures forall r, o, mx, my ::
      0 <= r < m && 0 <= o < n && IsPeak(Row(a, r, m, k), mx) && IsPeak(Row(w, o, n, k), my) ==>
        CellByPeaks(c[Index(r, o, m, n)], Row(a, r, m, k), Row(w, o, n, k), mx, my, b.Delayed?)
  {
    var g := QuantiseOperands(a, w, m, k, n, b);
    ghost var log;
    c, log := Run(g, b);
    forall r, o | 0 <= r < m && 0 <= o < n
      ensures ProductNear(c[Index(r, o, m, n)], a, w, m, k, n, r, o, Levels(b))
    {
      CellIsNear(g, a, w, Levels(b), r, o);
      assert c[..][Index(r, o, m, n)] == g.Cells()(r, o);
    }
    EveryCellByPeaks(c[..], a, w, m, k, n, b);
  }

  lemma EveryCellByPeaks(c: seq<real>, a: seq<real>, w: seq<real>, m: nat, k: nat, n: nat, b: Blocking)
    requires |a| == m * k && |w| == n * k && |c| == m * n
    requires forall r, o :: 0 <= r < m && 0 <= o < n ==>
      ProductNear(c[Index(r, o, m, n)], a, w, m, k, n, r, o, Levels(b))
    ensures forall r, o, mx, my ::
      0 <= r < m && 0 <= o < n && IsPeak(Row(a, r, m, k), mx) && IsPeak(Row(w, o, n, k), my) ==>
        CellByPeaks(c[Index(r, o, m, n)], Row(a, r, m, k), Row(w, o, n, k), mx, my, b.Delayed?)
  {
    forall r, o, mx, my | 0 <= r < m && 0 <= o < n && IsPeak(Row(a, r, m, k), mx) && IsPeak(Row(w, o, n, k), my)
      ensures CellByPeaks(c[Index(r, o, m, n)], Row(a, r, m, k), Row(w, o, n, k), mx, my, b.Delayed?)
    {
      assert ProductNear(c[Index(r, o, m, n)], a, w, m, k, n, r, o, Levels(b));
      NearByPeaks(c[Index(r, o, m, n)], Row(a, r, m, k), Row(w, o, n, k), mx, my, b);
    }
  }

  // ----- error feedback, in the units of the inputs --------------------------

  function Reals(q: seq<int>): (r: seq<real>)
    ensures |r| == |q| && forall i :: 0 <= i < |q| ==> r[i] == q[i] as real
  {
    seq(|q|, i requires 0 <= i < |q| => q[i] as real)
  }

  lemma Distributes(x: real, y: real, z: real, xz: real, yz: real, dz: real)
    requires xz == x * z && yz == y * z && dz == (x - y) * z
    ensures xz - yz == dz
  {
  }

  lemma ErrorTerm(v: seq<real>, a: seq<real>, q: seq<int>, i: nat)
    requires |v| == |a| == |q| && i < |a|
    ensures ErrorFeedback.Products(v, a)[i] - ErrorFeedback.Products(Reals(q), a)[i]
      == ErrorFeedback.Products(ErrorFeedback.Errors(v, q), a)[i]
  {
    Distributes(v[i], q[i] as real, a[i], ErrorFeedback.Products(v, a)[i], ErrorFeedback.Products(Reals(q), a)[i],
                ErrorFeedback.Products(ErrorFeedback.Errors(v, q), a)[i]);
  }

  // sum a v - sum a q is the error sum of the quantised weights.
  lemma {:induction false} ErrorSplits(v: seq<real>, a: seq<real>, q: seq<int>, n: nat)
    requires |v| == |a| == |q| && n <= |a|
    ensures ErrorFeedback.SumR(ErrorFeedback.Products(v, a), n)
      - ErrorFeedback.SumR(ErrorFeedback.Products(Reals(q), a), n)
      == ErrorFeedback.SumR(ErrorFeedback.Products(ErrorFeedback.Errors(v, q), a), n)
  {
    if n > 0 {
      ErrorSplits(v, a, q, n - 1);
      ErrorTerm(v, a, q, n - 1);
    }
  }

  lemma RealIntProduct(p: int, q: int, z: real, c: int)
    requires z == q as real * p as real && c == q * p
    ensures z == c as real
  {
    IntProduct(q, p);
  }

  // Over levels the real dot is the integer one.
  lemma {:induction false} RealIsIntDot(q: seq<int>, p: seq<int>, n: nat)
    requires |q| == |p| && n <= |q|
    ensures ErrorFeedback.SumR(ErrorFeedback.Products(Reals(q), Reals(p)), n) == SumTo(Products(q, p, |q|), n) as real
  {
    if n > 0 {
      RealIsIntDot(q, p, n - 1);
      ProductAt(q, p, |q|, n - 1);
      RealIntProduct(p[n - 1], q[n - 1], ErrorFeedback.Products(Reals(q), Reals(p))[n - 1], Products(q, p, |q|)[n - 1]);
    }
  }

  // Products commute.
  lemma {:induction false} SwapFactors(x: seq<real>, y: seq<real>, n: nat)
    requires |x| == |y| && n <= |x|
    ensures ErrorFeedback.SumR(ErrorFeedback.Products(x, y), n) == ErrorFeedback.SumR(ErrorFeedback.Products(y, x), n)
  {
    if n > 0 {
      SwapFactors(x, y, n - 1);
      assert ErrorFeedback.Products(x, y)[n - 1] == ErrorFeedback.Products(y, x)[n - 1];
    }
  }

  // The two quantisation errors of an int8 dot, the activations' against the exact weights
  // and the weights' against the quantised activations.
  lemma TwoErrors(v: seq<real>, u: seq<real>, q: seq<int>, p: seq<int>)
    requires |v| == |u| == |q| == |p|
    ensures RealDot(v, u) - Dot(q, p) as real
      == ErrorFeedback.DotError(v, u, p) + ErrorFeedback.DotError(Reals(p), v, q)
  {
    var n := |v|;
    ErrorSplits(u, v, p, n);
    SwapFactors(u, v, n);
    SwapFactors(Reals(p), v, n);
    ErrorSplits(v, Reals(p), q, n);
    RealIsIntDot(q, p, n);
  }

  // What one int8 dot may err by, in steps: the activations' rounding against the scaled
  // weights, plus the weights' part. With error feedback that part is the total variation
  // of the activation levels, without it their absolute sum.
  ghost function StepsAllowed(v: seq<real>, p: seq<int>, ef: bool): real
    requires 0 < |v| == |p|
  {
    var r := Reals(p);
    0.5 * ErrorFeedback.SumAbs(v)
    + if ef then 0.5 * (AbsR(r[|r| - 1]) + ErrorFeedback.Variation(r)) else 0.5 * ErrorFeedback.SumAbs(r)
  }

  lemma LevelDotError(v: seq<real>, u: seq<real>, q: seq<int>, p: seq<int>, ef: bool)
    requires 0 < |v| == |u| && ErrorFeedback.Scaled(v) && AllNear(u, p, 0.5)
    requires if ef then ErrorFeedback.IsFeedback(q, v) else ErrorFeedback.IsIndependent(q, v)
    ensures AbsR(RealDot(v, u) - Dot(q, p) as real) <= 0.5 * ErrorFeedback.SumAbs(v) + 0.5 *
      if ef then AbsR(p[|p| - 1] as real) + ErrorFeedback.Variation(Reals(p)) else ErrorFeedback.SumAbs(Reals(p))
  {
    TwoErrors(v, u, q, p);
    ErrorFeedback.NearDotError(v, u, p);
    if ef {
      ErrorFeedback.FeedbackDotError(Reals(p), v, q);
    } else {
      ErrorFeedback.IndependentDotError(Reals(p), v, q);
    }
  }

  lemma LevelDotSteps(v: seq<real>, u: seq<real>, q: seq<int>, p: seq<int>, ef: bool, e: real)
    requires 0 < |v| == |u| && ErrorFeedback.Scaled(v) && AllNear(u, p, 0.5) && Modes(q, v, ef)
    requires e == StepsAllowed(v, p, ef)
    ensures AbsR(RealDot(v, u) - Dot(q, p) as real) <= e
  {
    LevelDotError(v, u, q, p, ef);
  }

  // The activation levels of one row.
  function ActivationLevels(a: seq<real>): (p: seq<int>)
    ensures |p| == |a|
  {
    seq(|a|, i requires 0 <= i < |a| => Level(a[i], 1.0 / ScaleOf(a, 127), 127))
  }

  lemma ActivationNear(a: seq<real>, ai: real, i: nat, u: real)
    requires i < |a| && Product(1.0, ai, ScaleOf(a, 127)) && u == ErrorFeedback.ScaleBy(a, ai)[i]
    ensures AbsR(u - ActivationLevels(a)[i] as real) <= 0.5
  {
    InverseIs(ai, ScaleOf(a, 127));
    ScaleByIs(a, ai, i);
    UnitWithin(a, 127, ai, i, u);
    LevelRounds(a[i], ai, 127, u);
  }

  lemma ActivationsNear(a: seq<real>, ai: real)
    requires Product(1.0, ai, ScaleOf(a, 127))
    ensures AllNear(ErrorFeedback.ScaleBy(a, ai), ActivationLevels(a), 0.5)
  {
    var u := ErrorFeedback.ScaleBy(a, ai);
    forall i | 0 <= i < |a|
      ensures AbsR(u[i] - ActivationLevels(a)[i] as real) <= 0.5
    {
      ActivationNear(a, ai, i, u[i]);
    }
  }

  // `d` is within `e` steps of the true dot, a step being the product of both scales.
  ghost predicate WithinSteps(d: real, col: seq<real>, a: seq<real>, e: real, sw: real, sa: real)
    requires |col| == |a|
  {
    AbsR(RealDot(col, a) - d) <= e * (sw * sa)
  }

  ghost predicate Modes(q: seq<int>, v: seq<real>, ef: bool) {
    if ef then ErrorFeedback.IsFeedback(q, v) else ErrorFeedback.IsIndependent(q, v)
  }

  lemma UnitsError(col: seq<real>, a: seq<real>, v: seq<real>, u: seq<real>, q: seq<int>, p: seq<int>, ef: bool,
                   sw: real, sa: real, wi: real, ai: real)
    requires 0 < |col| == |a| && sw > 0.0 && sa > 0.0 && Product(1.0, wi, sw) && Product(1.0, ai, sa)
    requires v == ErrorFeedback.ScaleBy(col, wi) && u == ErrorFeedback.ScaleBy(a, ai)
    requires ErrorFeedback.Scaled(v) && AllNear(u, p, 0.5) && Modes(q, v, ef)
    ensures WithinSteps(Scaled(Dot(q, p), sw, sa), col, a, StepsAllowed(v, p, ef), sw, sa)
  {
    var e := StepsAllowed(v, p, ef);
    ScaledIs(Dot(q, p), sw, sa, e);
    RealDotScales(col, a, sw, sa, wi, ai, sw * sa);
    LevelDotSteps(v, u, q, p, ef, e);
    ScaledError(RealDot(col, a), RealDot(v, u), Dot(q, p) as real, sw * sa, Scaled(Dot(q, p), sw, sa), e,
                e * (sw * sa));
  }

  lemma ColumnUnits(col: seq<real>) returns (wi: real)
    ensures Product(1.0, wi, ScaleOf(col, 63)) && ErrorFeedback.ScaledColumn(col) == ErrorFeedback.ScaleBy(col, wi)
  {
    wi := 1.0 / ScaleOf(col, 63);
    InverseIs(wi, ScaleOf(col, 63));
  }

  lemma InverseOf(s: real) returns (inv: real)
    requires s > 0.0
    ensures Product(1.0, inv, s)
  {
    inv := 1.0 / s;
    InverseIs(inv, s);
  }

  lemma ProbeError(col: seq<real>, a: seq<real>, q: seq<int>, ef: bool, sw: real, sa: real)
    requires 0 < |col| == |a| && Modes(q, ErrorFeedback.ScaledColumn(col), ef)
    requires sw == ScaleOf(col, 63) && sa == ScaleOf(a, 127)
    ensures WithinSteps(Scaled(Dot(q, ActivationLevels(a)), sw, sa), col, a,
                        StepsAllowed(ErrorFeedback.ScaledColumn(col), ActivationLevels(a), ef), sw, sa)
  {
    var wi := ColumnUnits(col);
    var ai := InverseOf(sa);
    ErrorFeedback.ScaledColumnWithin(col);
    ActivationsNear(a, ai);
    UnitsError(col, a, ErrorFeedback.ScaledColumn(col), ErrorFeedback.ScaleBy(a, ai), q, ActivationLevels(a), ef,
               sw, sa, wi, ai);
  }

  method LevelsDot(q: seq<int>, p: seq<int>) returns (d: int)
    requires |q| == |p|
    ensures d == Dot(q, p)
  {
    d := 0;
    for i := 0 to |q|
      invariant d == DotTo(q, p, i)
    {
      DotStep(q, p, i);
      d := d + q[i] * p[i];
    }
  }

  // One dot of the probe: quantise the column in either mode and the activations to their
  // levels, multiply the levels, scale back. In the units of the inputs it is within
  // StepsAllowed steps of the true dot.
  method ProbeDot(col: seq<real>, a: seq<real>, ef: bool) returns (d: real)
    requires 0 < |col| == |a|
    ensures WithinSteps(d, col, a, StepsAllowed(ErrorFeedback.ScaledColumn(col), ActivationLevels(a), ef),
                        ScaleOf(col, 63), ScaleOf(a, 127))
    ensures forall mc, ma :: IsPeak(col, mc) && IsPeak(a, ma) ==>
      WithinSteps(d, col, a, StepsAllowed(ErrorFeedback.ScaledColumn(col), ActivationLevels(a), ef), mc / 63.0,
                  ma / 127.0)
  {
    var qw, sw := ErrorFeedback.QuantW(col, ef);
    var sa := RowScale(a, 127);
    var acc := LevelsDot(qw[..], ActivationLevels(a));
    d := Scaled(acc, sw, sa);
    ProbeError(col, a, qw[..], ef, sw, sa);
    forall mc, ma | IsPeak(col, mc) && IsPeak(a, ma)
      ensures WithinSteps(d, col, a, StepsAllowed(ErrorFeedback.ScaledColumn(col), ActivationLevels(a), ef),
                          mc / 63.0, ma / 127.0)
    {
      ScaleIsPeak(col, 63, mc);
      ScaleIsPeak(a, 127, ma);
    }
  }

  // Half of the last activation and of the total variation.
  function VariationBound(a: seq<real>): real
    requires |a| > 0
  {
    0.5 * (AbsR(a[|a| - 1]) + ErrorFeedback.Variation(a))
  }

  lemma RawDotError(col: seq<real>, v: seq<real>, a: seq<real>, q: seq<int>, e: real)
    requires 0 < |v| == |a| && v == ErrorFeedback.ScaledColumn(col) && ErrorFeedback.IsFeedback(q, v)
    requires e == VariationBound(a)
    ensures AbsR(RealDot(v, a) - RealDot(Reals(q), a)) <= e
  {
    ErrorFeedback.ScaledColumnWithin(col);
    ErrorFeedback.FeedbackDotError(a, v, q);
    ErrorSplits(v, a, q, |a|);
  }

  // With the activations left as they are, error feedback alone errs by at most half a
  // weight step for each unit of the last activation and of the total variation.
  lemma FeedbackInUnits(col: seq<real>, a: seq<real>, q: seq<int>, s: real)
    requires 0 < |col| == |a| && ErrorFeedback.IsFeedback(q, ErrorFeedback.ScaledColumn(col)) && s == ScaleOf(col, 63)
    ensures AbsR(RealDot(col, a) - RealDot(Reals(q), a) * s) <= VariationBound(a) * s
  {
    var wi := ColumnUnits(col);
    var v, e := ErrorFeedback.ScaledColumn(col), VariationBound(a);
    RawDotError(col, v, a, q, e);
    FeedbackScaled(col, a, v, q, s, wi, e);
  }

  lemma FeedbackScaled(col: seq<real>, a: seq<real>, v: seq<real>, q: seq<int>, s: real, wi: real, e: real)
    requires 0 < |col| == |a| && s > 0.0 && Product(1.0, wi, s) && v == ErrorFeedback.ScaleBy(col, wi)
    requires |q| == |a| && AbsR(RealDot(v, a) - RealDot(Reals(q), a)) <= e
    ensures AbsR(RealDot(col, a) - RealDot(Reals(q), a) * s) <= e * s
  {
    ColumnDot(col, a, s, wi);
    WholeColumn(RealDot(col, a), RealDot(v, a), RealDot(Reals(q), a), s, e);
  }

  lemma WholeColumn(whole: real, unit: real, c: real, s: real, e: real)
    requires Product(whole, unit, s) && s > 0.0 && AbsR(unit - c) <= e
    ensures AbsR(whole - c * s) <= e * s
  {
    ScaledError(whole, unit, c, s, c * s, e, e * s);
  }

  lemma ColumnDot(col: seq<real>, a: seq<real>, s: real, si: real)
    requires |col| == |a| && Product(1.0, si, s)
    ensures Product(RealDot(col, a), RealDot(ErrorFeedback.ScaleBy(col, si), a), s)
  {
    forall i | 0 <= i < |a|
      ensures ErrorFeedback.ScaleBy(a, 1.0)[i] == a[i]
    {
      ErrorFeedback.ScaleByAt(a, 1.0, i);
    }
    assert ErrorFeedback.ScaleBy(a, 1.0) == a;
    RealDotScales(col, a, s, 1.0, si, 1.0, s);
  }
}
