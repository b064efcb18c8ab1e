// The int8 GEMM drivers: six loop nests over the same cells. Tasks own disjoint row
// bands and may run in any order; each stores every cell of its band exactly once.
module MaddubsGemm {
  import opened Integers
  import opened Dots
  import opened Grid
  import opened MaddubsKernels
  import opened Exactness

  // Operands of one GEMM: u8 activations [m, k], narrow weights [n, k], their scales and
  // weight sums. `scale` is the final float conversion and multiplication, left uninterpreted.
  datatype Gemm<!F> = Gemm(qa: seq<int>, sa: seq<F>, qw: seq<int>, sw: seq<F>, wsum: seq<int>,
                           m: nat, k: nat, n: nat, zero: F, scale: (int, F, F) -> F)
  {
    // n > 0: a chunk of zero cells is refused by the chunking primitive.
    ghost predicate Valid(bound: nat) {
      && n > 0
      && |qa| == m * k && |sa| == m && |qw| == n * k && |sw| == |wsum| == n
      && U8s(qa) && Within(qw, bound)
    }

    // Activation row r and weight row o.
    function ARow(r: nat): (row: seq<int>)
      requires |qa| == m * k && r < m
      ensures |row| == k && (U8s(qa) ==> U8s(row))
    {
      Row(qa, r, m, k)
    }

    function WRow(o: nat): (row: seq<int>)
      requires |qw| == n * k && o < n
      ensures |row| == k && forall b: nat :: Within(qw, b) ==> Within(row, b)
    {
      Row(qw, o, n, k)
    }

    // Sign offset and scaling of one raw dot, in i32.
    function Finish(raw: int, r: nat, o: nat): F
      requires r < |sa| && o < |sw| && o < |wsum|
    {
      scale(Wrap32(raw - Wrap32(128 * wsum[o])), sa[r], sw[o])
    }

    // What cell (r, o) must hold: the naive dot of its two rows, finished.
    ghost function Cell(r: int, o: int): F {
      if 0 <= r < m && 0 <= o < n && |qa| == m * k && |qw| == n * k && |sa| == m && |sw| == |wsum| == n then
        Finish(DotRef(ARow(r), WRow(o)), r, o)
      else
        zero
    }

    ghost function Cells(): (int, int) -> F {
      (r: int, o: int) => Cell(r, o)
    }

    ghost function Expected(): seq<F> {
      Table(m, n, Cells())
    }
  }

  // The six loop nests.
  datatype Blocking = Single | Delayed | M4 | M8 | M4N2 | L2(threads: nat)

  // Rows per parallel chunk.
  function BandRows(b: Blocking, m: nat): (rows: nat)
    ensures Fits(b, rows)
  {
    match b
    case Single => 1
    case Delayed => 1
    case M4 => 4
    case M8 => 8
    case M4N2 => 4
    case L2(threads) =>
      var rpt := DivCeil(m, if threads < 1 then 1 else threads);
      var rpt' := DivCeil(rpt, 4) * 4;
      if rpt' < 4 then 4 else rpt'
  }

  // The band height a loop nest is written for; the L2 nest takes any.
  predicate Fits(b: Blocking, rows: nat) {
    match b
    case Single => rows == 1
    case Delayed => rows == 1
    case M4 => rows == 4
    case M8 => rows == 8
    case M4N2 => rows == 4
    case L2(_) => rows > 0
  }

  // L2 tasks hold whole blocks of four rows and there are never more tasks than threads.
  lemma TasksFitThreads(threads: nat, m: nat)
    ensures BandRows(L2(threads), m) % 4 == 0
    ensures DivCeil(m, BandRows(L2(threads), m)) <= if threads < 1 then 1 else threads
  {
    var th := if threads < 1 then 1 else threads;
    var rpt := DivCeil(m, th);
    var rows := BandRows(L2(threads), m);
    assert rows >= rpt;
    CeilCovers(m, th);
    MulMonotone(rpt, rows, th);
    CeilAtMost(m, rows, th);
  }

  lemma CeilCovers(m: nat, d: nat)
    requires d > 0
    ensures DivCeil(m, d) * d >= m
  {
    var y := m + d - 1;
    assert y == (y / d) * d + y % d;
  }

  lemma CeilAtMost(m: nat, d: nat, q: nat)
    requires d > 0 && m <= q * d
    ensures DivCeil(m, d) <= q
  {
    var c := DivCeil(m, d);
    var y := m + d - 1;
    assert y == c * d + y % d;
    if c > q {
      MulMonotone(q + 1, c, d);
    }
  }

  // The delayed-widening kernel needs 5-bit weights, the others 7-bit ones.
  function WeightBound(b: Blocking): nat {
    if b.Delayed? then 15 else 64
  }

  // Store state shared by every piece: buffer, starting contents and stored cells.
  ghost predicate Storing<F>(g: Gemm<F>, b: nat, c: array<F>, was: seq<F>, done: Stores)
    reads c
  {
    g.Valid(b) && Progress(c, was, g.m, g.n, g.Cells(), done)
  }

  // Finish one raw dot and store it.
  method StoreDot<F>(g: Gemm<F>, c: array<F>, r0: nat, j: nat, o: nat, raw: int, ghost was: seq<F>, ghost done0: Stores,
                     ghost bound: nat := 64)
    returns (ghost done: Stores)
    requires Storing(g, bound, c, was, done0)
    requires r0 + j < g.m && o < g.n && (r0 + j, o) !in done0.cells && raw == DotRef(g.ARow(r0 + j), g.WRow(o))
    modifies c
    ensures Storing(g, bound, c, was, done) && done == done0.Add(r0 + j, o)
  {
    done := StoreCell(c, g.m, g.n, r0, j, o, g.Finish(raw, r0 + j, o), was, g.Cells(), done0);
  }

  // One activation row against the weight rows lo..hi.
  method SingleRow<F>(g: Gemm<F>, c: array<F>, delayed: bool, r0: nat, j: nat, lo: nat, hi: nat,
                      ghost was: seq<F>, ghost done0: Stores)
    returns (ghost done: Stores)
    requires Storing(g, if delayed then 15 else 64, c, was, done0)
    requires r0 + j < g.m && lo <= hi <= g.n && Free(done0, r0 + j, r0 + j + 1, lo, hi)
    modifies c
    ensures Storing(g, if delayed then 15 else 64, c, was, done)
    ensures Adds(done0, done, r0 + j, r0 + j + 1, lo, hi)
  {
    done := done0;
    var arow := g.ARow(r0 + j);
    var o := lo;
    while o < hi
      invariant lo <= o <= hi
      invariant Storing(g, if delayed then 15 else 64, c, was, done)
      invariant Adds(done0, done, r0 + j, r0 + j + 1, lo, o)
    {
      var raw;
      ghost var exact;
      if delayed {
        raw, exact := DotMaddubsI5d(arow, g.WRow(o), g.k);
      } else {
        raw, exact := DotMaddubs(arow, g.WRow(o), g.k);
      }
      done := StoreDot(g, c, r0, j, o, raw, was, done, if delayed then 15 else 64);
      o := o + 1;
    }
  }

  // A short block: its rows one at a time, over the weight rows lo..hi.
  method RowTail<F>(g: Gemm<F>, c: array<F>, r0: nat, from: nat, rows: nat, lo: nat, hi: nat,
                    ghost was: seq<F>, ghost done0: Stores)
    returns (ghost done: Stores)
    requires Storing(g, 64, c, was, done0)
    requires from <= rows && r0 + rows <= g.m && lo <= hi <= g.n && Free(done0, r0 + from, r0 + rows, lo, hi)
    modifies c
    ensures Storing(g, 64, c, was, done)
    ensures Adds(done0, done, r0 + from, r0 + rows, lo, hi)
  {
    done := done0;
    var j := from;
    while j < rows
      invariant from <= j <= rows
      invariant Storing(g, 64, c, was, done)
      invariant Adds(done0, done, r0 + from, r0 + j, lo, hi)
    {
      done := SingleRow(g, c, false, r0, j, lo, hi, was, done);
      j := j + 1;
    }
  }

  // Store `count` dots of one weight row, slot i of `raw` into row j + i.
  method StoreColumn<F>(g: Gemm<F>, c: array<F>, r0: nat, j: nat, count: nat, o: nat, raw: seq<int>,
                        ghost was: seq<F>, ghost done0: Stores)
    returns (ghost done: Stores)
    requires Storing(g, 64, c, was, done0)
    requires r0 + j + count <= g.m && o < g.n && Free(done0, r0 + j, r0 + j + count, o, o + 1)
    requires |raw| == count && forall i :: 0 <= i < count ==> raw[i] == DotRef(g.ARow(r0 + j + i), g.WRow(o))
    modifies c
    ensures Storing(g, 64, c, was, done)
    ensures Adds(done0, done, r0 + j, r0 + j + count, o, o + 1)
  {
    done := done0;
    for i := 0 to count
      invariant Storing(g, 64, c, was, done)
      invariant Adds(done0, done, r0 + j, r0 + j + i, o, o + 1)
    {
      done := StoreDot(g, c, r0, j + i, o, raw[i], was, done);
    }
  }

  // The activation rows r .. r + count.
  function ARows<F>(g: Gemm<F>, r: nat, count: nat): (a: seq<seq<int>>)
    requires |g.qa| == g.m * g.k && r + count <= g.m
    ensures |a| == count && forall i :: 0 <= i < count ==> a[i] == g.ARow(r + i)
  {
    seq(count, i requires 0 <= i < count => g.ARow(r + i))
  }

  method QuadDots<F>(g: Gemm<F>, r: nat, o: nat) returns (raw: seq<int>)
    requires g.Valid(64) && r + 4 <= g.m && o < g.n
    ensures |raw| == 4 && forall i :: 0 <= i < 4 ==> raw[i] == DotRef(g.ARow(r + i), g.WRow(o))
  {
    ghost var exact;
    raw, exact := DotMaddubsM4(g.ARow(r), g.ARow(r + 1), g.ARow(r + 2), g.ARow(r + 3), g.WRow(o), g.k);
  }

  // Four rows against one weight row.
  method QuadColumn<F>(g: Gemm<F>, c: array<F>, r0: nat, j: nat, o: nat, ghost was: seq<F>, ghost done0: Stores)
    returns (ghost done: Stores)
    requires Storing(g, 64, c, was, done0)
    requires r0 + j + 4 <= g.m && o < g.n && Free(done0, r0 + j, r0 + j + 4, o, o + 1)
    modifies c
    ensures Storing(g, 64, c, was, done)
    ensures Adds(done0, done, r0 + j, r0 + j + 4, o, o + 1)
  {
    var raw := QuadDots(g, r0 + j, o);
    done := StoreColumn(g, c, r0, j, 4, o, raw, was, done0);
  }

  // Four rows against two weight rows: the register tile, stored row by row.
  method PairTile<F>(g: Gemm<F>, c: array<F>, r0: nat, j: nat, o: nat, ghost was: seq<F>, ghost done0: Stores)
    returns (ghost done: Stores)
    requires Storing(g, 64, c, was, done0)
    requires r0 + j + 4 <= g.m && o + 2 <= g.n && Free(done0, r0 + j, r0 + j + 4, o, o + 2)
    modifies c
    ensures Storing(g, 64, c, was, done)
    ensures Adds(done0, done, r0 + j, r0 + j + 4, o, o + 2)
  {
    var a := ARows(g, r0 + j, 4);
    var raw, _ := DotMaddubsM4n2(a, g.WRow(o), g.WRow(o + 1), g.k);
    done := StoreTile(g, c, r0, j, o, raw, a, was, done0);
  }

  // Slot i of `raw` goes to row i of column o, slot 4 + i to column o + 1.
  method StoreTile<F>(g: Gemm<F>, c: array<F>, r0: nat, j: nat, o: nat, raw: seq<int>, ghost a: seq<seq<int>>,
                      ghost was: seq<F>, ghost done0: Stores)
    returns (ghost done: Stores)
    requires Storing(g, 64, c, was, done0) && |raw| == 8
    requires r0 + j + 4 <= g.m && o + 2 <= g.n && Free(done0, r0 + j, r0 + j + 4, o, o + 2)
    requires a == ARows(g, r0 + j, 4)
    requires forall i :: 0 <= i < 4 ==>
      raw[i] == DotRef(a[i], g.WRow(o)) && raw[4 + i] == DotRef(a[i], g.WRow(o + 1))
    modifies c
    ensures Storing(g, 64, c, was, done)
    ensures Adds(done0, done, r0 + j, r0 + j + 4, o, o + 2)
  {
    done := done0;
    for i := 0 to 4
      invariant Storing(g, 64, c, was, done)
      invariant Adds(done0, done, r0 + j, r0 + j + i, o, o + 2)
    {
      assert a[i] == g.ARow(r0 + j + i);
      done := StorePair(g, c, r0, j + i, o, raw[i], raw[4 + i], was, done);
    }
  }

  // Both columns of one row.
  method StorePair<F>(g: Gemm<F>, c: array<F>, r0: nat, j: nat, o: nat, x: int, y: int,
                      ghost was: seq<F>, ghost done0: Stores)
    returns (ghost done: Stores)
    requires Storing(g, 64, c, was, done0)
    requires r0 + j < g.m && o + 2 <= g.n && Free(done0, r0 + j, r0 + j + 1, o, o + 2)
    requires x == DotRef(g.ARow(r0 + j), g.WRow(o)) && y == DotRef(g.ARow(r0 + j), g.WRow(o + 1))
    modifies c
    ensures Storing(g, 64, c, was, done)
    ensures Adds(done0, done, r0 + j, r0 + j + 1, o, o + 2)
  {
    done := StoreDot(g, c, r0, j, o, x, was, done0);
    done := StoreDot(g, c, r0, j, o + 1, y, was, done);
  }

  method BandM4<F>(g: Gemm<F>, c: array<F>, r0: nat, ghost was: seq<F>, ghost done0: Stores)
    returns (ghost done: Stores)
    requires Storing(g, 64, c, was, done0) && r0 < g.m
    requires Free(done0, r0, Min(g.m, r0 + 4), 0, g.n)
    modifies c
    ensures Storing(g, 64, c, was, done)
    ensures Adds(done0, done, r0, Min(g.m, r0 + 4), 0, g.n)
  {
    var rows := Min(g.m - r0, 4);
    if rows == 4 {
      done := done0;
      for o := 0 to g.n
        invariant Storing(g, 64, c, was, done)
        invariant Adds(done0, done, r0, r0 + 4, 0, o)
      {
        done := QuadColumn(g, c, r0, 0, o, was, done);
      }
    } else {
      done := RowTail(g, c, r0, 0, rows, 0, g.n, was, done0);
    }
  }

  method BandM8<F>(g: Gemm<F>, c: array<F>, r0: nat, ghost was: seq<F>, ghost done0: Stores)
    returns (ghost done: Stores)
    requires Storing(g, 64, c, was, done0) && r0 < g.m
    requires Free(done0, r0, Min(g.m, r0 + 8), 0, g.n)
    modifies c
    ensures Storing(g, 64, c, was, done)
    ensures Adds(done0, done, r0, Min(g.m, r0 + 8), 0, g.n)
  {
    var rows := Min(g.m - r0, 8);
    if rows == 8 {
      done := done0;
      var a := ARows(g, r0, 8);
      for o := 0 to g.n
        invariant Storing(g, 64, c, was, done)
        invariant Adds(done0, done, r0, r0 + 8, 0, o)
      {
        var raw, _ := DotMaddubsM8(a, g.WRow(o), g.k);
        done := StoreColumn(g, c, r0, 0, 8, o, raw, was, done);
      }
    } else {
      done := RowTail(g, c, r0, 0, rows, 0, g.n, was, done0);
    }
  }

  method BandM4N2<F>(g: Gemm<F>, c: array<F>, r0: nat, ghost was: seq<F>, ghost done0: Stores)
    returns (ghost done: Stores)
    requires Storing(g, 64, c, was, done0) && r0 < g.m
    requires Free(done0, r0, Min(g.m, r0 + 4), 0, g.n)
    modifies c
    ensures Storing(g, 64, c, was, done)
    ensures Adds(done0, done, r0, Min(g.m, r0 + 4), 0, g.n)
  {
    var rows := Min(g.m - r0, 4);
    if rows == 4 {
      done := done0;
      var o := 0;
      while o + 2 <= g.n
        invariant 0 <= o <= g.n && Storing(g, 64, c, was, done)
        invariant Adds(done0, done, r0, r0 + 4, 0, o)
      {
        done := PairTile(g, c, r0, 0, o, was, done);
        o := o + 2;
      }
      while o < g.n
        invariant 0 <= o <= g.n && Storing(g, 64, c, was, done)
        invariant Adds(done0, done, r0, r0 + 4, 0, o)
      {
        done := RowTail(g, c, r0, 0, 4, o, o + 1, was, done);
        o := o + 1;
      }
    } else {
      done := RowTail(g, c, r0, 0, rows, 0, g.n, was, done0);
    }
  }

  // Even number of weight rows per panel, about 256 KiB of weights.
  function PanelWidth(k: nat): (pc: nat)
    requires k > 0
    ensures pc >= 2 && pc % 2 == 0
  {
    var w := if 262144 / k < 2 then 2 else 262144 / k;
    w - w % 2
  }

  // Four rows of a task against one weight panel.
  method PanelQuad<F>(g: Gemm<F>, c: array<F>, r0: nat, j: nat, o0: nat, pend: nat,
                      ghost was: seq<F>, ghost done0: Stores)
    returns (ghost done: Stores)
    requires Storing(g, 64, c, was, done0)
    requires r0 + j + 4 <= g.m && o0 <= pend <= g.n && Free(done0, r0 + j, r0 + j + 4, o0, pend)
    modifies c
    ensures Storing(g, 64, c, was, done)
    ensures Adds(done0, done, r0 + j, r0 + j + 4, o0, pend)
  {
    done := done0;
    var o := o0;
    while o + 2 <= pend
      invariant o0 <= o <= pend && Storing(g, 64, c, was, done)
      invariant Adds(done0, done, r0 + j, r0 + j + 4, o0, o)
    {
      done := PairTile(g, c, r0, j, o, was, done);
      o := o + 2;
    }
    while o < pend
      invariant o0 <= o <= pend && Storing(g, 64, c, was, done)
      invariant Adds(done0, done, r0 + j, r0 + j + 4, o0, o)
    {
      done := QuadColumn(g, c, r0, j, o, was, done);
      o := o + 1;
    }
  }

  // A task of the L2-blocked GEMM: weight panels outside, its rows inside.
  method BandL2<F>(g: Gemm<F>, c: array<F>, r0: nat, rpt: nat, ghost was: seq<F>, ghost done0: Stores)
    returns (ghost done: Stores)
    requires Storing(g, 64, c, was, done0) && r0 < g.m && g.k > 0
    requires Free(done0, r0, Min(g.m, r0 + rpt), 0, g.n)
    modifies c
    ensures Storing(g, 64, c, was, done)
    ensures Adds(done0, done, r0, Min(g.m, r0 + rpt), 0, g.n)
  {
    var rows := Min(g.m - r0, rpt);
    var pc := PanelWidth(g.k);
    done := done0;
    var o0 := 0;
    while o0 < g.n
      invariant 0 <= o0 <= g.n && Storing(g, 64, c, was, done)
      invariant Adds(done0, done, r0, r0 + rows, 0, o0)
      decreases g.n - o0
    {
      var pend := Min(o0 + pc, g.n);
      ghost var panel := done;
      var rr := 0;
      while rr + 4 <= rows
        invariant 0 <= rr <= rows && Storing(g, 64, c, was, done)
        invariant Adds(panel, done, r0, r0 + rr, o0, pend)
      {
        done := PanelQuad(g, c, r0, rr, o0, pend, was, done);
        rr := rr + 4;
      }
      done := RowTail(g, c, r0, rr, rows, o0, pend, was, done);
      o0 := pend;
    }
  }

  method Band<F>(g: Gemm<F>, b: Blocking, rows: nat, c: array<F>, r0: nat, ghost was: seq<F>, ghost done0: Stores)
    returns (ghost done: Stores)
    requires Storing(g, WeightBound(b), c, was, done0) && Fits(b, rows) && r0 < g.m
    requires b.L2? ==> g.k > 0
    requires Free(done0, r0, Min(g.m, r0 + rows), 0, g.n)
    modifies c
    ensures Storing(g, WeightBound(b), c, was, done)
    ensures Adds(done0, done, r0, Min(g.m, r0 + rows), 0, g.n)
  {
    match b
    case Single => done := SingleRow(g, c, false, r0, 0, 0, g.n, was, done0);
    case Delayed => done := SingleRow(g, c, true, r0, 0, 0, g.n, was, done0);
    case M4 => done := BandM4(g, c, r0, was, done0);
    case M8 => done := BandM8(g, c, r0, was, done0);
    case M4N2 => done := BandM4N2(g, c, r0, was, done0);
    case L2(_) => done := BandL2(g, c, r0, rows, was, done0);
  }

  // All the bands, in any order.
  method RunBands<F>(g: Gemm<F>, b: Blocking, rows: nat, c: array<F>) returns (ghost log: seq<(int, int)>)
    requires g.Valid(WeightBound(b)) && (b.L2? ==> g.k > 0) && Fits(b, rows)
    requires c.Length == g.m * g.n
    modifies c
    ensures c[..] == g.Expected() && StoredOnce(log, g.m, g.n)
  {
    ghost var was, done: Stores := c[..], Stores({}, []);
    ProgressStart(c, g.m, g.n, g.Cells());
    var tasks := CountTasks(g.m, g.n, rows);
    var pending := TaskSet(tasks);
    BandsStart(rows, g.m, g.n, tasks);
    while pending != {}
      invariant pending <= TaskSet(tasks)
      invariant Storing(g, WeightBound(b), c, was, done)
      invariant BandsDone(done, pending, rows, g.m, g.n)
      decreases pending
    {
      var t :| t in pending;
      BandsFree(done, pending, rows, g.m, g.n, t);
      ghost var before := done;
      done := Band(g, b, rows, c, TaskRow(t, rows), was, done);
      BandsStep(before, done, pending, rows, g.m, g.n, t);
      pending := pending - {t};
    }
    BandsEnd(done, rows, g.m, g.n);
    ProgressComplete(c, was, g.m, g.n, g.Cells(), done);
    log := done.log;
  }

  // Every loop nest, for every shape and every order of the parallel tasks, produces the
  // same buffer: the naive dot of each pair of rows, finished. The log of its stores has
  // m * n entries and no cell twice. L2 divides by k.
  method Run<F>(g: Gemm<F>, b: Blocking) returns (c: array<F>, ghost log: seq<(int, int)>)
    requires g.Valid(WeightBound(b)) && (b.L2? ==> g.k > 0)
    ensures fresh(c) && c[..] == g.Expected() && StoredOnce(log, g.m, g.n)
  {
    c := new F[g.m * g.n](_ => g.zero);
    log := RunBands(g, b, BandRows(b, g.m), c);
  }

  // The benchmark's equality: any two loop nests, with any numbers of threads, bit for bit.
  method BothBlockings<F>(g: Gemm<F>, b: Blocking, b': Blocking) returns (c: array<F>, c': array<F>)
    requires g.Valid(WeightBound(b)) && g.Valid(WeightBound(b')) && (b.L2? || b'.L2? ==> g.k > 0)
    ensures fresh(c) && fresh(c') && c[..] == c'[..]
  {
    ghost var log;
    c, log := Run(g, b);
    c', log := Run(g, b');
  }

  // ----- what a cell means ---------------------------------------------------

  // The signed activations behind the u8 ones.
  function Centred(a: seq<int>): (s: seq<int>)
    ensures |s| == |a| && forall i :: 0 <= i < |a| ==> s[i] == a[i] - 128
  {
    seq(|a|, i requires 0 <= i < |a| => a[i] - 128)
  }

  lemma {:induction false} SignOffset(a: seq<int>, w: seq<int>, n: nat)
    requires n <= |a| == |w|
    ensures DotTo(a, w, n) - 128 * SumTo(w, n) == DotTo(Centred(a), w, n)
  {
    if n > 0 {
      SignOffset(a, w, n - 1);
      DotStep(a, w, n - 1);
      DotStep(Centred(a), w, n - 1);
      assert (a[n - 1] - 128) * w[n - 1] == a[n - 1] * w[n - 1] - 128 * w[n - 1];
    }
  }

  // raw - 128 * wsum in i32 is the exact difference modulo 2^32.
  lemma WrappedDifference(d: int, s: int)
    ensures Wrap32(Wrap32(d) - Wrap32(128 * Wrap32(s))) == Wrap32(d - 128 * s)
  {
    var p := Wrap32(128 * Wrap32(s));
    WrapCongruent(s);
    CongruentScale(128, Wrap32(s), s);
    WrapCongruent(128 * Wrap32(s));
    CongruentTrans(p, 128 * Wrap32(s), 128 * s);
    CongruentScale(-1, p, 128 * s);
    WrapCongruent(d);
    WrapAdd2(Wrap32(d), d, -1 * p, -1 * (128 * s));
    WrapUnique(Wrap32(Wrap32(d) - p), d - 128 * s);
  }

  // When wsum holds the i32 row sums of the weights, a cell is the finished signed dot
  // of the centred activations, modulo 2^32 for any k; and it is the exact signed dot
  // while that fits i32, even if the unsigned accumulation wrapped on the way.
  // A finished cell in plain addresses: the wrapped sum of the products at r * k + x and
  // o * k + x, less 128 times the weight sum, times the two scales in this order.
  lemma CellSpelled<F>(g: Gemm<F>, r: nat, o: nat, p: seq<int>, at: nat)
    requires |g.qa| == g.m * g.k && |g.qw| == g.n * g.k && |g.sa| == g.m && |g.sw| == |g.wsum| == g.n
    requires r < g.m && o < g.n && AreProducts(p, g.qa, g.qw, r, o, g.k) && at == r * g.n + o
    ensures at < |g.Expected()|
    ensures g.Expected()[at] == g.scale(Wrap32(Wrap32(SumTo(p, g.k)) - Wrap32(128 * g.wsum[o])), g.sa[r], g.sw[o])
  {
    RowProducts(p, g.qa, g.qw, g.m, g.n, r, o, g.k);
    DotIsSum(g.ARow(r), g.WRow(o), p, g.k);
    assert Index(r, o, g.m, g.n) == at && g.Cells()(r, o) == g.Cell(r, o);
  }

  lemma CellIsSignedDot<F>(g: Gemm<F>, bound: nat, r: nat, o: nat)
    requires g.Valid(bound) && r < g.m && o < g.n
    requires g.wsum[o] == Wrap32(Sum(g.WRow(o)))
    ensures g.Cell(r, o) == g.scale(DotRef(Centred(g.ARow(r)), g.WRow(o)), g.sa[r], g.sw[o])
    ensures 128 * bound * g.k < 0x8000_0000 ==>
      g.Cell(r, o) == g.scale(Dot(Centred(g.ARow(r)), g.WRow(o)), g.sa[r], g.sw[o])
  {
    SignedDot(g.ARow(r), g.WRow(o));
    if 128 * bound * g.k < 0x8000_0000 {
      SignedDotExact(g.ARow(r), g.WRow(o), bound);
    }
  }

  lemma SignedDot(a: seq<int>, w: seq<int>)
    requires |a| == |w|
    ensures Wrap32(DotRef(a, w) - Wrap32(128 * Wrap32(Sum(w)))) == DotRef(Centred(a), w)
  {
    SignOffset(a, w, |w|);
    WrappedDifference(Dot(a, w), Sum(w));
  }

  lemma SignedDotExact(a: seq<int>, w: seq<int>, bound: nat)
    requires |a| == |w| && U8s(a) && Within(w, bound) && 128 * bound * |a| < 0x8000_0000
    ensures DotRef(Centred(a), w) == Dot(Centred(a), w)
  {
    DotBound(Centred(a), w, |a|, 128, bound);
  }

  // Within the kernels' budget every i32 step of the weight sum and of the sign offset is
  // exact as well: no prefix of the sum, product or difference leaves i32.
  lemma OffsetExact(a: seq<int>, w: seq<int>, b: nat)
    requires |a| == |w| && U8s(a) && Within(w, b) && 255 * b * |a| < LIMIT
    ensures forall n :: 0 <= n <= |w| ==> IsI32(SumTo(w, n))
    ensures DotRef(a, w) == Dot(a, w) && IsI32(128 * Sum(w)) && IsI32(Dot(a, w) - 128 * Sum(w))
    ensures Dot(a, w) - 128 * Sum(w) == Dot(Centred(a), w)
  {
    DotExact(a, w, b);
    SignOffset(a, w, |w|);
    BudgetIs(b, |w|);
    forall n | 0 <= n <= |w|
      ensures Abs(SumTo(w, n)) <= Budget(b, |w|)
    {
      MassSum(w, n);
      MassWithin(w, b, |w|);
    }
    DotBound(Centred(a), w, |a|, 128, b);
    OffsetFits(b, |a|);
  }

  lemma OffsetFits(b: nat, k: nat)
    requires 255 * b * k < LIMIT
    ensures 128 * (b * k) == 128 * b * k <= 255 * b * k
  {
    assert 128 * b * k == 128 * (b * k) && 255 * b * k == 255 * (b * k);
  }

  // So finishing a raw dot is exact in every cell.
  lemma FinishExact<F>(g: Gemm<F>, b: nat, r: nat, o: nat)
    requires g.Valid(b) && r < g.m && o < g.n && 255 * b * g.k < LIMIT
    requires g.wsum[o] == Wrap32(Sum(g.WRow(o)))
    ensures g.wsum[o] == Sum(g.WRow(o)) && IsI32(128 * g.wsum[o])
    ensures IsI32(Dot(g.ARow(r), g.WRow(o)) - 128 * g.wsum[o])
    ensures g.Cell(r, o) == g.scale(Dot(g.ARow(r), g.WRow(o)) - 128 * g.wsum[o], g.sa[r], g.sw[o])
  {
    OffsetExact(g.ARow(r), g.WRow(o), b);
    WrapSame(Sum(g.WRow(o)));
    WrapSame(128 * Sum(g.WRow(o)));
    WrapSame(Dot(g.ARow(r), g.WRow(o)) - 128 * Sum(g.WRow(o)));
  }
}
