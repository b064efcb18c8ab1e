// Two layout rewrites: the head-major gather fused into the producing write, and a GEMM
// over column panels with a scatter.
module Layout {
  import opened Integers
  import opened Grid
  import opened MatMuls

  // ----- row copies ----------------------------------------------------------

  // copy_from_slice of one row segment: columns o .. o + |src| of row r0 + j.
  method CopyRow<T>(c: array<T>, m: nat, n: nat, r0: nat, j: nat, o: nat, src: seq<T>,
                    ghost was: seq<T>, ghost cell: (int, int) -> T, ghost done0: Stores)
    returns (ghost done: Stores)
    requires Progress(c, was, m, n, cell, done0)
    requires r0 + j < m && o + |src| <= n && Free(done0, r0 + j, r0 + j + 1, o, o + |src|)
    requires forall d :: 0 <= d < |src| ==> src[d] == cell(r0 + j, o + d)
    modifies c
    ensures Progress(c, was, m, n, cell, done)
    ensures Adds(done0, done, r0 + j, r0 + j + 1, o, o + |src|)
  {
    done := done0;
    for d := 0 to |src|
      invariant Progress(c, was, m, n, cell, done)
      invariant Adds(done0, done, r0 + j, r0 + j + 1, o, o + d)
    {
      done := StoreCell(c, m, n, r0, j, o + d, src[d], was, cell, done);
    }
  }

  // ----- head-major ----------------------------------------------------------

  // t frames, nh heads of width dh; a frame row holds nh * dh values.
  datatype Heads = Heads(t: nat, nh: nat, dh: nat) {
    function State(): nat { nh * dh }
    function Rows(): nat { nh * t }

    // No dimension is empty: a band of zero cells is refused by the chunking primitive.
    ghost predicate Valid() { t > 0 && nh > 0 && dh > 0 }

    // Where head h starts in a frame row.
    function HeadStart(h: nat): (o: nat)
      requires h < nh
      ensures o + dh <= State()
    {
      MulMonotone(h + 1, nh, dh);
      assert (h + 1) * dh == h * dh + dh;
      h * dh
    }
  }

  // Value d of head h at frame i.
  function HeadValue<T>(val: seq<T>, s: Heads, h: nat, i: nat, d: nat): T
    requires |val| == s.t * s.State() && h < s.nh && i < s.t && d < s.dh
  {
    val[Index(i, s.HeadStart(h) + d, s.t, s.State())]
  }

  // Row h * t + i of the head-major buffer holds head h at frame i.
  ghost function HeadMajorCell<T>(val: seq<T>, s: Heads, dflt: T): (int, int) -> T
    requires |val| == s.t * s.State()
  {
    (r: int, d: int) =>
      if 0 <= r < s.Rows() && 0 <= d < s.dh then
        QuotientBound(r, s.nh, s.t);
        HeadValue(val, s, r / s.t, r % s.t, d)
      else dflt
  }

  ghost function HeadMajor<T>(val: seq<T>, s: Heads, dflt: T): (hm: seq<T>)
    requires |val| == s.t * s.State()
    ensures |hm| == s.Rows() * s.dh
  {
    Table(s.Rows(), s.dh, HeadMajorCell(val, s, dflt))
  }

  // The source slice of one head at one frame.
  function HeadSlice<T>(val: seq<T>, s: Heads, h: nat, i: nat): (src: seq<T>)
    requires |val| == s.t * s.State() && h < s.nh && i < s.t
    ensures |src| == s.dh
    ensures forall d :: 0 <= d < s.dh ==> src[d] == HeadValue(val, s, h, i, d)
  {
    MulMonotone(i + 1, s.t, s.State());
    assert (i + 1) * s.State() == i * s.State() + s.State();
    var base := i * s.State() + s.HeadStart(h);
    val[base..base + s.dh]
  }

  // The contiguous form: frames in any order.
  method WriteContiguous<T>(val: seq<T>, s: Heads, out: array<T>, ghost dflt: T)
    requires s.Valid() && |val| == out.Length == s.t * s.State()
    modifies out
    ensures out[..] == val
  {
    ghost var was, done: Stores := out[..], Stores({}, []);
    ghost var cell := (r: int, o: int) =>
      if 0 <= r < s.t && 0 <= o < s.State() then val[Index(r, o, s.t, s.State())] else dflt;
    ProgressStart(out, s.t, s.State(), cell);
    BandsStart(1, s.t, s.State(), s.t);
    var pending := TaskSet(s.t);
    while pending != {}
      invariant forall i :: i in pending ==> 0 <= i < s.t
      invariant Progress(out, was, s.t, s.State(), cell, done)
      invariant BandsDone(done, pending, 1, s.t, s.State())
      decreases |pending|
    {
      var r :| r in pending;
      BandsFree(done, pending, 1, s.t, s.State(), r);
      ghost var before := done;
      done := CopyFrame(val, s, out, r, was, cell, done);
      BandsStep(before, done, pending, 1, s.t, s.State(), r);
      pending := pending - {r};
    }
    BandsEnd(done, 1, s.t, s.State());
    TableUnique(out[..], val, s.t, s.State());
  }

  method CopyFrame<T>(val: seq<T>, s: Heads, out: array<T>, r: nat, ghost was: seq<T>, ghost cell: (int, int) -> T,
                      ghost done0: Stores)
    returns (ghost done: Stores)
    requires |val| == s.t * s.State() && r < s.t
    requires Progress(out, was, s.t, s.State(), cell, done0) && Free(done0, r, r + 1, 0, s.State())
    requires forall o :: 0 <= o < s.State() ==> cell(r, o) == val[Index(r, o, s.t, s.State())]
    modifies out
    ensures Progress(out, was, s.t, s.State(), cell, done)
    ensures Adds(done0, done, r, r + 1, 0, s.State())
  {
    var src := Row(val, r, s.t, s.State());
    RowAt(val, r, s.t, s.State());
    forall o | 0 <= o < s.State()
      ensures src[o] == cell(r, 0 + o)
    {
      assert src[o] == val[Index(r, o, s.t, s.State())];
    }
    done := CopyRow(out, s.t, s.State(), r, 0, 0, src, was, cell, done0);
  }

  // One band of the gather: rows row0 .. row0 + rows.
  method GatherBand<T>(out: seq<T>, s: Heads, hm: array<T>, row0: nat, rows: nat,
                       ghost dflt: T, ghost was: seq<T>, ghost done0: Stores)
    returns (ghost done: Stores)
    requires s.Valid() && |out| == s.t * s.State()
    requires Progress(hm, was, s.Rows(), s.dh, HeadMajorCell(out, s, dflt), done0)
    requires row0 + rows <= s.Rows() && Free(done0, row0, row0 + rows, 0, s.dh)
    modifies hm
    ensures Progress(hm, was, s.Rows(), s.dh, HeadMajorCell(out, s, dflt), done)
    ensures Adds(done0, done, row0, row0 + rows, 0, s.dh)
  {
    done := done0;
    for local := 0 to rows
      invariant Progress(hm, was, s.Rows(), s.dh, HeadMajorCell(out, s, dflt), done)
      invariant Adds(done0, done, row0, row0 + local, 0, s.dh)
    {
      var r := row0 + local;
      QuotientBound(r, s.nh, s.t);
      var h, i := r / s.t, r % s.t;
      done := CopyRow(hm, s.Rows(), s.dh, row0, local, 0, HeadSlice(out, s, h, i), was, HeadMajorCell(out, s, dflt),
                      done);
    }
  }

  // The standalone gather over any number of chunks, in any order.
  method Gather<T>(out: seq<T>, s: Heads, chunks: nat, hm: array<T>, ghost dflt: T)
    requires s.Valid() && chunks > 0 && |out| == s.t * s.State() && hm.Length == s.Rows() * s.dh
    modifies hm
    ensures hm[..] == HeadMajor(out, s, dflt)
  {
    var rows := if DivCeil(s.Rows(), chunks) < 1 then 1 else DivCeil(s.Rows(), chunks);
    GatherBands(out, s, rows, hm, dflt);
  }

  method GatherBands<T>(out: seq<T>, s: Heads, rows: nat, hm: array<T>, ghost dflt: T)
    requires s.Valid() && rows > 0 && |out| == s.t * s.State() && hm.Length == s.Rows() * s.dh
    modifies hm
    ensures hm[..] == HeadMajor(out, s, dflt)
  {
    ghost var was, done: Stores := hm[..], Stores({}, []);
    ProgressStart(hm, s.Rows(), s.dh, HeadMajorCell(out, s, dflt));
    var tasks := CountTasks(s.Rows(), s.dh, rows);
    var pending := TaskSet(tasks);
    BandsStart(rows, s.Rows(), s.dh, tasks);
    while pending != {}
      invariant pending <= TaskSet(tasks)
      invariant Progress(hm, was, s.Rows(), s.dh, HeadMajorCell(out, s, dflt), done)
      invariant BandsDone(done, pending, rows, s.Rows(), s.dh)
      decreases pending
    {
      var c :| c in pending;
      BandsFree(done, pending, rows, s.Rows(), s.dh, c);
      ghost var before := done;
      var row0 := TaskRow(c, rows);
      done := GatherBand(out, s, hm, row0, Min(s.Rows(), row0 + rows) - row0, dflt, was, done);
      BandsStep(before, done, pending, rows, s.Rows(), s.dh, c);
      pending := pending - {c};
    }
    BandsEnd(done, rows, s.Rows(), s.dh);
    ProgressComplete(hm, was, s.Rows(), s.dh, HeadMajorCell(out, s, dflt), done);
  }

  // One head of the fused write.
  method WriteHead<T>(val: seq<T>, s: Heads, hm: array<T>, h: nat, ghost dflt: T, ghost was: seq<T>,
                      ghost done0: Stores)
    returns (ghost done: Stores)
    requires s.Valid() && |val| == s.t * s.State() && h < s.nh
    requires Progress(hm, was, s.Rows(), s.dh, HeadMajorCell(val, s, dflt), done0)
    requires TaskRow(h, s.t) + s.t <= s.Rows() && Free(done0, TaskRow(h, s.t), TaskRow(h, s.t) + s.t, 0, s.dh)
    modifies hm
    ensures Progress(hm, was, s.Rows(), s.dh, HeadMajorCell(val, s, dflt), done)
    ensures Adds(done0, done, TaskRow(h, s.t), TaskRow(h, s.t) + s.t, 0, s.dh)
  {
    done := done0;
    for i := 0 to s.t
      invariant Progress(hm, was, s.Rows(), s.dh, HeadMajorCell(val, s, dflt), done)
      invariant Adds(done0, done, TaskRow(h, s.t), TaskRow(h, s.t) + i, 0, s.dh)
    {
      HeadRow(s, h, i);
      done := CopyRow(hm, s.Rows(), s.dh, TaskRow(h, s.t), i, 0, HeadSlice(val, s, h, i), was,
                      HeadMajorCell(val, s, dflt), done);
    }
  }

  // Row h * t + i belongs to head h and frame i.
  lemma HeadRow(s: Heads, h: nat, i: nat)
    requires h < s.nh && i < s.t
    ensures TaskRow(h, s.t) + s.t <= s.Rows()
    ensures (TaskRow(h, s.t) + i) / s.t == h && (TaskRow(h, s.t) + i) % s.t == i
  {
    MulMonotone(h + 1, s.nh, s.t);
    assert (h + 1) * s.t == h * s.t + s.t;
    IndexQuotient(h, i, s.nh, s.t);
    assert Index(h, i, s.nh, s.t) == TaskRow(h, s.t) + i;
  }

  // The fused head-major write, head by head in any order.
  method WriteHeadMajor<T>(val: seq<T>, s: Heads, hm: array<T>, ghost dflt: T)
    requires s.Valid() && |val| == s.t * s.State() && hm.Length == s.Rows() * s.dh
    modifies hm
    ensures hm[..] == HeadMajor(val, s, dflt)
  {
    ghost var was, done: Stores := hm[..], Stores({}, []);
    ProgressStart(hm, s.Rows(), s.dh, HeadMajorCell(val, s, dflt));
    var pending := TaskSet(s.nh);
    BandsStart(s.t, s.Rows(), s.dh, s.nh);
    while pending != {}
      invariant pending <= TaskSet(s.nh)
      invariant Progress(hm, was, s.Rows(), s.dh, HeadMajorCell(val, s, dflt), done)
      invariant BandsDone(done, pending, s.t, s.Rows(), s.dh)
      decreases pending
    {
      var h :| h in pending;
      HeadRow(s, h, 0);
      BandsFree(done, pending, s.t, s.Rows(), s.dh, h);
      ghost var before := done;
      done := WriteHead(val, s, hm, h, dflt, was, done);
      BandsStep(before, done, pending, s.t, s.Rows(), s.dh, h);
      pending := pending - {h};
    }
    BandsEnd(done, s.t, s.Rows(), s.dh);
    ProgressComplete(hm, was, s.Rows(), s.dh, HeadMajorCell(val, s, dflt), done);
  }

  // Contiguous write then gather, against the fused write: the same buffer, for every
  // shape and chunk count, whatever either buffer held before.
  method BothPaths<T>(val: seq<T>, s: Heads, chunks: nat, out: array<T>, hmA: array<T>, hmB: array<T>, ghost dflt: T)
    requires s.Valid() && chunks > 0 && |val| == out.Length == s.t * s.State()
    requires hmA.Length == hmB.Length == s.Rows() * s.dh
    requires out != hmA && out != hmB && hmA != hmB
    modifies out, hmA, hmB
    ensures hmA[..] == hmB[..] == HeadMajor(val, s, dflt)
  {
    WriteContiguous(val, s, out, dflt);
    Gather(out[..], s, chunks, hmA, dflt);
    WriteHeadMajor(val, s, hmB, dflt);
  }

  // The head-major buffer is a rearrangement, in plain addresses: value d of head h at frame i
  // stands at (h * t + i) * dh + d and was at i * (nh * dh) + h * dh + d.
  lemma HeadMajorInverse<T>(val: seq<T>, t: nat, nh: nat, dh: nat, dflt: T, i: nat, h: nat, d: nat, to: nat, from: nat)
    requires |val| == t * (nh * dh) && h < nh && i < t && d < dh
    requires to == (h * t + i) * dh + d && from == i * (nh * dh) + h * dh + d
    ensures var hm := HeadMajor(val, Heads(t, nh, dh), dflt);
      |hm| == |val| && to < |hm| && from < |val| && hm[to] == val[from]
  {
    var s := Heads(t, nh, dh);
    HeadRow(s, h, i);
    HeadMajorSize(t, nh, dh);
    var r := TaskRow(h, t) + i;
    assert Index(r, d, s.Rows(), dh) == to;
    assert Index(i, s.HeadStart(h) + d, t, s.State()) == from;
    assert HeadMajorCell(val, s, dflt)(r, d) == HeadValue(val, s, h, i, d);
  }

  lemma HeadMajorSize(t: nat, nh: nat, dh: nat)
    ensures (nh * t) * dh == t * (nh * dh)
  {
    assert (nh * t) * dh == (t * nh) * dh;
  }

  // These addresses are all there are: every index of the buffer is one of them.
  lemma HeadMajorCovers(t: nat, nh: nat, dh: nat, p: nat) returns (h: nat, i: nat, d: nat)
    requires p < (nh * t) * dh
    ensures h < nh && i < t && d < dh && p == (h * t + i) * dh + d
  {
    IndexSplit(p, nh * t, dh);
    var r := p / dh;
    d := p % dh;
    IndexSplit(r, nh, t);
    h, i := r / t, r % t;
  }

  // ----- column panels -------------------------------------------------------

  // Columns j0 .. j0 + pw of a [k, n] weight.
  ghost function PanelCell<T>(wt: seq<T>, k: nat, n: nat, j0: nat, pw: nat, dflt: T): (int, int) -> T
    requires |wt| == k * n && j0 + pw <= n
  {
    (row: int, c: int) => if 0 <= row < k && 0 <= c < pw then Entry(wt, k, n, row, j0 + c) else dflt
  }

  method PackRow<T>(wt: seq<T>, k: nat, n: nat, j0: nat, pw: nat, ghost zero: T, out: array<T>, row: nat,
                    ghost was: seq<T>, ghost done0: Stores)
    returns (ghost done: Stores)
    requires |wt| == k * n && j0 + pw <= n && row < k
    requires Progress(out, was, k, pw, PanelCell(wt, k, n, j0, pw, zero), done0) && Free(done0, row, row + 1, 0, pw)
    modifies out
    ensures Progress(out, was, k, pw, PanelCell(wt, k, n, j0, pw, zero), done)
    ensures Adds(done0, done, row, row + 1, 0, pw)
  {
    done := CopyRow(out, k, pw, row, 0, 0, RowSlice(wt, k, n, row, j0, pw), was, PanelCell(wt, k, n, j0, pw, zero),
                    done0);
  }

  method PackPanel<T>(wt: seq<T>, k: nat, n: nat, j0: nat, pw: nat, zero: T) returns (out: array<T>)
    requires |wt| == k * n && j0 + pw <= n
    ensures fresh(out) && out[..] == Table(k, pw, PanelCell(wt, k, n, j0, pw, zero))
  {
    out := new T[k * pw](_ => zero);
    ghost var was, done: Stores := out[..], Stores({}, []);
    ProgressStart(out, k, pw, PanelCell(wt, k, n, j0, pw, zero));
    for row := 0 to k
      invariant Progress(out, was, k, pw, PanelCell(wt, k, n, j0, pw, zero), done)
      invariant Adds(Stores({}, []), done, 0, row, 0, pw)
    {
      done := PackRow(wt, k, n, j0, pw, zero, out, row, was, done);
    }
    ProgressComplete(out, was, k, pw, PanelCell(wt, k, n, j0, pw, zero), done);
  }

  // Columns j0 .. j0 + pw of one row.
  function RowSlice<T>(m: seq<T>, rows: nat, cols: nat, r: nat, j0: nat, pw: nat): (src: seq<T>)
    requires |m| == rows * cols && r < rows && j0 + pw <= cols
    ensures |src| == pw && forall c :: 0 <= c < pw ==> src[c] == Entry(m, rows, cols, r, j0 + c)
  {
    RowAt(m, r, rows, cols);
    Row(m, r, rows, cols)[j0..j0 + pw]
  }

  // Packed entry (row, c) stands at row * pw + c and was at row * n + j0 + c.
  lemma PanelEntry<T>(wt: seq<T>, k: nat, n: nat, j0: nat, pw: nat, dflt: T, row: nat, c: nat, to: nat, from: nat)
    requires |wt| == k * n && j0 + pw <= n && row < k && c < pw && to == row * pw + c && from == row * n + j0 + c
    ensures var panel := Table(k, pw, PanelCell(wt, k, n, j0, pw, dflt));
      |panel| == k * pw && to < |panel| && from < |wt| && panel[to] == wt[from]
  {
    assert Index(row, c, k, pw) == to && Index(row, j0 + c, k, n) == from;
  }

  // The product of the activations with one packed panel.
  ghost function PanelProduct<F>(ar: Arith<F>, h: seq<F>, wt: seq<F>, rows: nat, k: nat, n: nat, j0: nat,
                                 pw: nat): (c: seq<F>)
    requires |h| == rows * k && |wt| == k * n && j0 + pw <= n
    ensures |c| == rows * pw
  {
    MatMul(ar, h, Table(k, pw, PanelCell(wt, k, n, j0, pw, ar.zero)), rows, k, pw)
  }

  // A panel's columns are the full product's columns: the accumulation over k is the same.
  lemma PanelColumn<F>(ar: Arith<F>, h: seq<F>, wt: seq<F>, rows: nat, k: nat, n: nat, j0: nat, pw: nat, i: nat, c: nat)
    requires |h| == rows * k && |wt| == k * n && j0 + pw <= n && i < rows && c < pw
    ensures Entry(PanelProduct(ar, h, wt, rows, k, n, j0, pw), rows, pw, i, c)
      == MatMulCell(ar, h, wt, rows, k, n)(i, j0 + c)
  {
    var panel := Table(k, pw, PanelCell(wt, k, n, j0, pw, ar.zero));
    var f, g := ProductTerms(ar, h, panel, rows, k, pw, i, c), ProductTerms(ar, h, wt, rows, k, n, i, j0 + c);
    forall x | 0 <= x < k
      ensures f(x) == g(x)
    {
      assert Entry(panel, k, pw, x, c) == PanelCell(wt, k, n, j0, pw, ar.zero)(x, c);
    }
    FoldEqual(ar, f, g, k);
    assert Entry(PanelProduct(ar, h, wt, rows, k, n, j0, pw), rows, pw, i, c)
      == MatMulCell(ar, h, panel, rows, k, pw)(i, c);
  }

  // The output of panel pi.
  ghost predicate IsPanel<F>(ar: Arith<F>, om: seq<F>, h: seq<F>, wt: seq<F>, rows: nat, k: nat, n: nat, pi: nat,
                             pw: nat)
    requires |h| == rows * k && |wt| == k * n
  {
    pi * pw + pw <= n && om == PanelProduct(ar, h, wt, rows, k, n, pi * pw, pw)
  }

  method ScatterPanel<F>(ghost ar: Arith<F>, om: seq<F>, ghost h: seq<F>, ghost wt: seq<F>, rows: nat, ghost k: nat,
                         n: nat, j0: nat, pw: nat, dst: array<F>, ghost was: seq<F>, ghost done0: Stores)
    returns (ghost done: Stores)
    requires |h| == rows * k && |wt| == k * n && j0 + pw <= n && om == PanelProduct(ar, h, wt, rows, k, n, j0, pw)
    requires Progress(dst, was, rows, n, MatMulCell(ar, h, wt, rows, k, n), done0)
    requires Free(done0, 0, rows, j0, j0 + pw)
    modifies dst
    ensures Progress(dst, was, rows, n, MatMulCell(ar, h, wt, rows, k, n), done)
    ensures Adds(done0, done, 0, rows, j0, j0 + pw)
  {
    done := done0;
    for i := 0 to rows
      invariant Progress(dst, was, rows, n, MatMulCell(ar, h, wt, rows, k, n), done)
      invariant Adds(done0, done, 0, i, j0, j0 + pw)
    {
      var src := RowSlice(om, rows, pw, i, 0, pw);
      forall c | 0 <= c < pw
        ensures src[c] == MatMulCell(ar, h, wt, rows, k, n)(i + 0, j0 + c)
      {
        PanelColumn(ar, h, wt, rows, k, n, j0, pw, i, c);
      }
      done := CopyRow(dst, rows, n, i, 0, j0, src, was, MatMulCell(ar, h, wt, rows, k, n), done);
    }
  }

  // p panels of n / p columns each: scattering their separate products assembles the full
  // product, cell for cell, for every panel count that divides n.
  method Scatter<F>(ghost ar: Arith<F>, outs: seq<seq<F>>, ghost h: seq<F>, ghost wt: seq<F>, rows: nat, ghost k: nat,
                    n: nat, p: nat, dst: array<F>)
    requires |h| == rows * k && |wt| == k * n && dst.Length == rows * n
    requires p > 0 && n % p == 0 && |outs| == p
    requires forall pi :: 0 <= pi < p ==> IsPanel(ar, outs[pi], h, wt, rows, k, n, pi, n / p)
    modifies dst
    ensures dst[..] == MatMul(ar, h, wt, rows, k, n)
  {
    var pw := n / p;
    ghost var was, done: Stores := dst[..], Stores({}, []);
    ProgressStart(dst, rows, n, MatMulCell(ar, h, wt, rows, k, n));
    for pi := 0 to p
      invariant Progress(dst, was, rows, n, MatMulCell(ar, h, wt, rows, k, n), done)
      invariant Adds(Stores({}, []), done, 0, rows, 0, pi * pw)
    {
      assert IsPanel(ar, outs[pi], h, wt, rows, k, n, pi, pw);
      assert (pi + 1) * pw == pi * pw + pw;
      done := ScatterPanel(ar, outs[pi], h, wt, rows, k, n, pi * pw, pw, dst, was, done);
    }
    assert n == p * pw;
    ProgressComplete(dst, was, rows, n, MatMulCell(ar, h, wt, rows, k, n), done);
  }
}
