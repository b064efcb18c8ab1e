// Symmetric per-row quantisation over the reals: rounding half away from zero, and the
// quantised rows with their scales and weight sums.
module Quantise {
  import opened Integers
  import opened Dots
  import opened Grid

  function AbsR(x: real): real { if x < 0.0 then -x else x }
  function MaxR(x: real, y: real): real { if x < y then y else x }

  // Nearest integer, ties away from zero.
  function RoundHalfAway(x: real): int {
    if x >= 0.0 then (x + 0.5).Floor else -((0.5 - x).Floor)
  }

  function Truncate(x: real): int {
    if x >= 0.0 then x.Floor else -((-x).Floor)
  }

  // round, clamp to +-bound.
  function Quantised(v: real, bound: nat): (q: int)
    ensures 0 - bound <= q <= bound
  {
    Clamp(RoundHalfAway(v), 0 - bound, bound)
  }

  // Rounding never moves a value by more than a half, and the clamp keeps that as long
  // as the value lies within bound + 1/2.
  lemma QuantisedNear(v: real, bound: nat)
    requires AbsR(v) <= bound as real + 0.5
    ensures AbsR(v - Quantised(v, bound) as real) <= 0.5
  {
    var r := RoundHalfAway(v);
    assert AbsR(v - r as real) <= 0.5;
  }

  // ----- row scale -----------------------------------------------------------

  function AmaxTo(row: seq<real>, n: nat): (m: real)
    requires n <= |row|
    ensures m >= 0.0 && forall i :: 0 <= i < n ==> AbsR(row[i]) <= m
  {
    if n == 0 then 0.0 else MaxR(AmaxTo(row, n - 1), AbsR(row[n - 1]))
  }

  function ScaleOf(row: seq<real>, bound: nat): (s: real)
    requires bound > 0
    ensures s > 0.0
  {
    MaxR(AmaxTo(row, |row|), 0.000000001) / bound as real
  }

  // The scale times the bound covers every entry of the row.
  lemma ScaleCovers(row: seq<real>, bound: nat)
    requires bound > 0
    ensures forall i :: 0 <= i < |row| ==> AbsR(row[i]) <= ScaleOf(row, bound) * bound as real
  {
    var amax := MaxR(AmaxTo(row, |row|), 0.000000001);
    assert ScaleOf(row, bound) * bound as real == amax;
  }

  // The scale is tight: times the bound it is the magnitude of some entry, or it is the floor
  // and no entry exceeds that.
  lemma ScaleTight(row: seq<real>, bound: nat)
    requires bound > 0
    ensures var m := ScaleOf(row, bound) * bound as real;
      && m >= 0.000000001 && (forall i :: 0 <= i < |row| ==> -m <= row[i] <= m)
      && (m == 0.000000001 || exists i :: 0 <= i < |row| && (row[i] == m || row[i] == -m))
  {
    var amax := MaxR(AmaxTo(row, |row|), 0.000000001);
    assert ScaleOf(row, bound) * bound as real == amax;
    if amax > 0.000000001 {
      var i := AmaxAttained(row, |row|);
      assert row[i] == amax || row[i] == -amax;
    }
    forall i | 0 <= i < |row|
      ensures -amax <= row[i] <= amax
    {
      assert AbsR(row[i]) <= amax;
    }
  }

  lemma {:induction false} AmaxAttained(row: seq<real>, n: nat) returns (i: nat)
    requires n <= |row| && AmaxTo(row, n) > 0.0
    ensures i < n && AbsR(row[i]) == AmaxTo(row, n)
  {
    i := n - 1;
    if AbsR(row[n - 1]) < AmaxTo(row, n) {
      i := AmaxAttained(row, n - 1);
    }
  }

  // The largest magnitude in a row, or the floor.
  ghost predicate IsPeak(row: seq<real>, m: real) {
    && m >= 0.000000001 && (forall i :: 0 <= i < |row| ==> -m <= row[i] <= m)
    && (m == 0.000000001 || exists i :: 0 <= i < |row| && (row[i] == m || row[i] == -m))
  }

  lemma PeakUnique(row: seq<real>, m: real, n: real)
    requires IsPeak(row, m) && IsPeak(row, n)
    ensures m == n
  {
  }

  lemma TimesBound(s: real, bound: nat, m: real)
    requires bound > 0 && s * bound as real == m
    ensures s == m / bound as real
  {
  }

  // The scale is the peak over the bound.
  lemma ScaleIsPeak(row: seq<real>, bound: nat, m: real)
    requires bound > 0 && IsPeak(row, m)
    ensures ScaleOf(row, bound) == m / bound as real
  {
    ScaleTight(row, bound);
    var n := ScaleOf(row, bound) * bound as real;
    assert IsPeak(row, n);
    PeakUnique(row, m, n);
    TimesBound(ScaleOf(row, bound), bound, m);
  }

  lemma PeakLevel(m: real, bound: nat, s: real, inv: real)
    requires bound > 0 && s > 0.0 && s * bound as real == m && inv == 1.0 / s
    ensures m * inv == bound as real && -m * inv == -(bound as real)
  {
    assert s * inv == 1.0;
    assert (s * bound as real) * inv == bound as real * (s * inv);
  }

  lemma WholeLevel(bound: nat)
    ensures Quantised(bound as real, bound) == bound && Quantised(-(bound as real), bound) == 0 - bound
  {
  }

  lemma PeakIsFull(x: real, m: real, bound: nat, s: real, inv: real)
    requires bound > 0 && s > 0.0 && s * bound as real == m && inv == 1.0 / s && (x == m || x == -m)
    ensures Level(x, inv, bound) == bound || Level(x, inv, bound) == 0 - bound
  {
    PeakLevel(m, bound, s, inv);
    WholeLevel(bound);
  }

  // Some entry is the peak.
  lemma PeakEntry(row: seq<real>, bound: nat, m: real) returns (i: nat)
    requires bound > 0 && m == ScaleOf(row, bound) * bound as real
    requires exists j :: 0 <= j < |row| && (row[j] > 0.000000001 || row[j] < -0.000000001)
    ensures i < |row| && (row[i] == m || row[i] == -m)
  {
    ScaleTight(row, bound);
    i :| 0 <= i < |row| && (row[i] == m || row[i] == -m);
  }

  // A row that is not all but zero uses the whole range: some level is the bound or its negative.
  lemma FullScale(row: seq<real>, bound: nat) returns (i: nat)
    requires bound > 0 && exists j :: 0 <= j < |row| && (row[j] > 0.000000001 || row[j] < -0.000000001)
    ensures i < |row|
    ensures var level := Level(row[i], 1.0 / ScaleOf(row, bound), bound); level == bound || level == 0 - bound
  {
    var s := ScaleOf(row, bound);
    var m := s * bound as real;
    i := PeakEntry(row, bound, m);
    PeakIsFull(row[i], m, bound, s, 1.0 / s);
  }

  // Dividing by the row scale maps the row into [-bound, bound].
  lemma ScaledWithin(x: real, s: real, bound: nat)
    requires s > 0.0 && AbsR(x) <= s * bound as real
    ensures AbsR(x * (1.0 / s)) <= bound as real
  {
    var inv, b := 1.0 / s, bound as real;
    assert inv * s == 1.0 && inv > 0.0;
    assert (s * b) * inv == b;
    if x >= 0.0 {
      assert x * inv <= (s * b) * inv;
      assert x * inv >= 0.0;
    } else {
      assert (-x) * inv <= (s * b) * inv;
      assert x * inv == -((-x) * inv);
      assert (-x) * inv >= 0.0;
    }
  }

  // Every entry of a row, divided by the row scale, lies in [-bound, bound].
  lemma RowScaledWithin(row: seq<real>, bound: nat, i: nat, inv: real)
    requires bound > 0 && i < |row| && inv == 1.0 / ScaleOf(row, bound)
    ensures AbsR(row[i] * inv) <= bound as real
  {
    ScaleCovers(row, bound);
    ScaledWithin(row[i], ScaleOf(row, bound), bound);
  }

  // The quantised value stands for its input to within half a step.
  lemma HalfStep(x: real, s: real, bound: nat)
    requires s > 0.0 && AbsR(x) <= s * bound as real
    ensures AbsR(x - Quantised(x * (1.0 / s), bound) as real * s) <= s / 2.0
  {
    var v := x * (1.0 / s);
    var q := Quantised(v, bound) as real;
    ScaledWithin(x, s, bound);
    QuantisedNear(v, bound);
    assert v * s == x;
    assert x - q * s == (v - q) * s;
    var d := v - q;
    assert -0.5 * s <= d * s <= 0.5 * s;
  }

  // ----- quantised rows ------------------------------------------------------

  method RowScale(row: seq<real>, bound: nat) returns (s: real)
    requires bound > 0
    ensures s == ScaleOf(row, bound)
    ensures forall m :: IsPeak(row, m) ==> s == m / bound as real
  {
    var m := 0.0;
    for i := 0 to |row|
      invariant m == AmaxTo(row, i)
    {
      m := MaxR(m, AbsR(row[i]));
    }
    s := MaxR(m, 0.000000001) / bound as real;
    forall p | IsPeak(row, p)
      ensures s == p / bound as real
    {
      ScaleIsPeak(row, bound, p);
    }
  }

  // One entry scaled and quantised.
  function Level(x: real, inv: real, bound: nat): (q: int)
    ensures 0 - bound <= q <= bound
  {
    Quantised(x * inv, bound)
  }

  lemma EntryIs(b: seq<real>, rows: nat, k: nat, bound: nat, offset: int, r: nat, j: nat)
    requires |b| == rows * k && r < rows && j < k && bound > 0
    ensures var row := Row(b, r, rows, k);
      Entry(b, rows, k, bound, offset, r, j) == Level(row[j], 1.0 / ScaleOf(row, bound), bound) + offset
  {
  }

  // An entry in plain terms: with m the row's peak and v the entry divided by m / bound, it is
  // v rounded and clamped.
  lemma EntryByPeak(b: seq<real>, rows: nat, k: nat, bound: nat, offset: int, r: nat, j: nat, m: real, s: real, v: real,
                    at: nat)
    requires |b| == rows * k && r < rows && j < k && bound > 0 && IsPeak(Row(b, r, rows, k), m)
    requires s == m / bound as real && at == r * k + j
    requires s > 0.0 && at < |b| && v == b[at] * (1.0 / s)
    ensures Entry(b, rows, k, bound, offset, r, j) == Quantised(v, bound) + offset
  {
    ScaleIsPeak(Row(b, r, rows, k), bound, m);
    EntryByScale(b, rows, k, bound, offset, r, j, s, v, at);
  }

  lemma EntryByScale(b: seq<real>, rows: nat, k: nat, bound: nat, offset: int, r: nat, j: nat, s: real, v: real,
                     at: nat)
    requires |b| == rows * k && r < rows && j < k && bound > 0 && s == ScaleOf(Row(b, r, rows, k), bound)
    requires at == r * k + j
    requires at < |b| && v == b[at] * (1.0 / s)
    ensures Entry(b, rows, k, bound, offset, r, j) == Quantised(v, bound) + offset
  {
    RowEntry(b, r, rows, k, j, at);
    RowLevel(Row(b, r, rows, k), bound, j, s, v);
    EntryIs(b, rows, k, bound, offset, r, j);
  }

  lemma RowLevel(row: seq<real>, bound: nat, j: nat, s: real, v: real)
    requires j < |row| && bound > 0 && s == ScaleOf(row, bound) && v == row[j] * (1.0 / s)
    ensures Level(row[j], 1.0 / ScaleOf(row, bound), bound) == Quantised(v, bound)
  {
    LevelIs(row[j], 1.0 / s, v, bound);
  }

  lemma RowEntry(b: seq<real>, r: nat, rows: nat, k: nat, j: nat, at: nat)
    requires |b| == rows * k && r < rows && j < k && at == r * k + j
    ensures at < |b| && Row(b, r, rows, k)[j] == b[at]
  {
    RowAt(b, r, rows, k);
  }

  lemma LevelIs(x: real, inv: real, v: real, bound: nat)
    requires v == x * inv
    ensures Level(x, inv, bound) == Quantised(v, bound)
  {
  }

  // The quantised entry (r, j), plus `offset` for the unsigned form.
  ghost function Entry(b: seq<real>, rows: nat, k: nat, bound: nat, offset: int, r: int, j: int): int {
    if 0 <= r < rows && 0 <= j < k && |b| == rows * k && bound > 0 then
      var row := Row(b, r, rows, k);
      Level(row[j], 1.0 / ScaleOf(row, bound), bound) + offset
    else
      offset
  }

  ghost function Entries(b: seq<real>, rows: nat, k: nat, bound: nat, offset: int): (int, int) -> int {
    (r: int, j: int) => Entry(b, rows, k, bound, offset, r, j)
  }

  // The exact sum of the first n quantised entries of row r.
  ghost function EntrySum(b: seq<real>, rows: nat, k: nat, bound: nat, r: int, n: nat): int {
    if n == 0 then 0 else EntrySum(b, rows, k, bound, r, n - 1) + Entry(b, rows, k, bound, 0, r, n - 1)
  }

  ghost predicate ScalesReady(sc: array<real>, b: seq<real>, rows: nat, k: nat, bound: nat, pending: set<int>)
    requires bound > 0 && |b| == rows * k
    reads sc
  {
    sc.Length == rows
    && forall r :: 0 <= r < rows && r !in pending ==> sc[r] == ScaleOf(Row(b, r, rows, k), bound)
  }

  ghost predicate SumsReady(wsum: array<int>, b: seq<real>, rows: nat, k: nat, bound: nat, pending: set<int>)
    reads wsum
  {
    wsum.Length == rows
    && forall r :: 0 <= r < rows && r !in pending ==> wsum[r] == Wrap32(EntrySum(b, rows, k, bound, r, k))
  }

  // One entry: scaled, rounded, clamped and stored.
  method StoreEntry(b: seq<real>, rows: nat, k: nat, bound: nat, offset: int, q: array<int>, r: nat, j: nat, inv: real,
                    ghost was: seq<int>, ghost done0: Stores)
    returns (v: int, ghost done: Stores)
    requires bound > 0 && |b| == rows * k && r < rows && j < k
    requires inv == 1.0 / ScaleOf(Row(b, r, rows, k), bound)
    requires Progress(q, was, rows, k, Entries(b, rows, k, bound, offset), done0) && (r, j) !in done0.cells
    modifies q
    ensures v == Entry(b, rows, k, bound, 0, r, j)
    ensures Progress(q, was, rows, k, Entries(b, rows, k, bound, offset), done) && done == done0.Add(r, j)
  {
    v := Level(Row(b, r, rows, k)[j], inv, bound);
    EntryIs(b, rows, k, bound, offset, r, j);
    EntryIs(b, rows, k, bound, 0, r, j);
    done := StoreCell(q, rows, k, r, 0, j, v + offset, was, Entries(b, rows, k, bound, offset), done0);
  }

  // One row: entries stored left to right, their i32 sum returned.
  method QuantRow(b: seq<real>, rows: nat, k: nat, bound: nat, offset: int, q: array<int>, r: nat, scale: real,
                  ghost was: seq<int>, ghost done0: Stores)
    returns (acc: int, ghost done: Stores)
    requires bound > 0 && |b| == rows * k && r < rows
    requires scale == ScaleOf(Row(b, r, rows, k), bound)
    requires Progress(q, was, rows, k, Entries(b, rows, k, bound, offset), done0)
    requires Free(done0, r, r + 1, 0, k)
    modifies q
    ensures Progress(q, was, rows, k, Entries(b, rows, k, bound, offset), done)
    ensures Adds(done0, done, r, r + 1, 0, k)
    ensures acc == Wrap32(EntrySum(b, rows, k, bound, r, k))
  {
    var inv := 1.0 / scale;
    acc := 0;
    CongruentSame(0);
    done := done0;
    for j := 0 to k
      invariant Progress(q, was, rows, k, Entries(b, rows, k, bound, offset), done)
      invariant Adds(done0, done, r, r + 1, 0, j)
      invariant IsI32(acc) && Congruent(acc, EntrySum(b, rows, k, bound, r, j))
    {
      var v;
      v, done := StoreEntry(b, rows, k, bound, offset, q, r, j, inv, was, done);
      WrapAdd(acc, v, EntrySum(b, rows, k, bound, r, j));
      acc := Wrap32(acc + v);
    }
    WrapUnique(acc, EntrySum(b, rows, k, bound, r, k));
  }

  // The task of one row: its levels, its scale and their sum.
  method QuantTask(b: seq<real>, rows: nat, k: nat, bound: nat, offset: int, q: array<int>, sc: array<real>,
                   wsum: array<int>, r: nat, ghost pending: set<int>, ghost was: seq<int>, ghost done0: Stores)
    returns (ghost done: Stores)
    requires bound > 0 && |b| == rows * k && r < rows && q != wsum && r in pending
    requires Progress(q, was, rows, k, Entries(b, rows, k, bound, offset), done0) && Free(done0, r, r + 1, 0, k)
    requires ScalesReady(sc, b, rows, k, bound, pending) && SumsReady(wsum, b, rows, k, bound, pending)
    modifies q, sc, wsum
    ensures Progress(q, was, rows, k, Entries(b, rows, k, bound, offset), done) && Adds(done0, done, r, r + 1, 0, k)
    ensures ScalesReady(sc, b, rows, k, bound, pending - {r}) && SumsReady(wsum, b, rows, k, bound, pending - {r})
  {
    var s := RowScale(Row(b, r, rows, k), bound);
    var acc;
    acc, done := QuantRow(b, rows, k, bound, offset, q, r, s, was, done0);
    sc[r] := s;
    wsum[r] := acc;
  }

  // Every row in any order: quantised entries (offset 128 and bound 127 for u8 activations,
  // offset 0 and bound 63 or 15 for weights), scales, and i32 sums of the entries.
  method QuantRows(b: seq<real>, rows: nat, k: nat, bound: nat, offset: int)
    returns (q: array<int>, sc: array<real>, wsum: array<int>)
    requires |b| == rows * k && k > 0 && bound > 0
    ensures q[..] == Table(rows, k, Entries(b, rows, k, bound, offset))
    ensures ScalesReady(sc, b, rows, k, bound, {}) && SumsReady(wsum, b, rows, k, bound, {})
    ensures forall r, m :: 0 <= r < rows && IsPeak(Row(b, r, rows, k), m) ==> sc[r] == m / bound as real
    ensures fresh(q) && fresh(sc) && fresh(wsum)
  {
    q := new int[rows * k](_ => 0);
    sc := new real[rows](_ => 0.0);
    wsum := new int[rows](_ => 0);
    ghost var was, done: Stores := q[..], Stores({}, []);
    ProgressStart(q, rows, k, Entries(b, rows, k, bound, offset));
    var pending := TaskSet(rows);
    BandsStart(1, rows, k, rows);
    while pending != {}
      invariant pending <= TaskSet(rows)
      invariant Progress(q, was, rows, k, Entries(b, rows, k, bound, offset), done)
      invariant BandsDone(done, pending, 1, rows, k)
      invariant ScalesReady(sc, b, rows, k, bound, pending) && SumsReady(wsum, b, rows, k, bound, pending)
      decreases pending
    {
      var r :| r in pending;
      BandsFree(done, pending, 1, rows, k, r);
      ghost var before := done;
      done := QuantTask(b, rows, k, bound, offset, q, sc, wsum, r, pending, was, done);
      BandsStep(before, done, pending, 1, rows, k, r);
      pending := pending - {r};
    }
    BandsEnd(done, 1, rows, k);
    ProgressComplete(q, was, rows, k, Entries(b, rows, k, bound, offset), done);
    forall r, m | 0 <= r < rows && IsPeak(Row(b, r, rows, k), m)
      ensures sc[r] == m / bound as real
    {
      ScaleIsPeak(Row(b, r, rows, k), bound, m);
    }
  }
}
