// 1-D convolution as a banded im2col gather times a transposed weight.
module Conv {
  import opened Integers
  import opened Grid
  import opened MatMuls

  // Geometry: t_in frames of cin channels, k taps, and t_out output frames.
  datatype Shape = Shape(tIn: nat, cin: nat, k: nat, stride: nat, pad: nat, tOut: nat) {
    // Patches are not empty: a band of zero cells is refused by the chunking primitive.
    ghost predicate Valid() {
      cin > 0 && k > 0
    }

    function Patch(): nat {
      cin * k
    }

    // Tap kk of output frame o falls on a real input frame, not on padding.
    predicate Tap(o: nat, kk: nat) {
      pad <= o * stride + kk < pad + tIn
    }

    // The input frame under that tap.
    function Frame(o: nat, kk: nat): (ti: nat)
      requires Tap(o, kk)
      ensures ti < tIn
    {
      o * stride + kk - pad
    }

    // Channel-major position of (channel, tap) in a patch.
    function Column(ci: nat, kk: nat): (j: nat)
      requires ci < cin && kk < k
      ensures j < Patch()
    {
      Index(ci, kk, cin, k)
    }

    predicate TapColumn(o: int, j: int) {
      0 <= o && 0 <= j < Patch() && k > 0 && Tap(o, j % k)
    }
  }

  // What the gather puts at column j of frame o.
  ghost function Gathered<T>(x: seq<T>, s: Shape, o: int, j: int): T
    requires |x| == s.tIn * s.cin && s.TapColumn(o, j)
  {
    QuotientBound(j, s.cin, s.k);
    x[Index(s.Frame(o, j % s.k), j / s.k, s.tIn, s.cin)]
  }

  // Gathered taps over whatever the buffer held in its padding cells.
  ghost function PatchCell<T>(x: seq<T>, s: Shape, was: seq<T>, dflt: T): (int, int) -> T
    requires |x| == s.tIn * s.cin
  {
    (o: int, j: int) =>
      if s.TapColumn(o, j) then Gathered(x, s, o, j)
      else if 0 <= o < s.tOut && 0 <= j < s.Patch() && |was| == s.tOut * s.Patch() then
        was[Index(o, j, s.tOut, s.Patch())]
      else dflt
  }

  // The whole im2col matrix, as a function of the input and the buffer's earlier contents.
  ghost function Im2colOf<T>(x: seq<T>, s: Shape, was: seq<T>, dflt: T): (r: seq<T>)
    requires |x| == s.tIn * s.cin
    ensures |r| == s.tOut * s.Patch()
  {
    Table(s.tOut, s.Patch(), PatchCell(x, s, was, dflt))
  }

  ghost predicate FreeFrames(done: Stores, lo: int, hi: int) {
    forall o, j :: lo <= o < hi ==> (o, j) !in done.cells
  }

  // The tap cells of output frames lo .. hi.
  ghost predicate AddsTaps(s: Shape, done: Stores, done': Stores, lo: int, hi: int) {
    forall o, j :: (o, j) in done'.cells <==> (o, j) in done.cells || (lo <= o < hi && s.TapColumn(o, j))
  }

  // The taps of frame o before (kk, ci) in tap-major order.
  ghost predicate AddsUpTo(s: Shape, done: Stores, done': Stores, o: nat, kk: nat, ci: nat)
    requires s.k > 0
  {
    forall o', j :: (o', j) in done'.cells <==>
      (o', j) in done.cells || (o' == o && s.TapColumn(o, j) && (j % s.k < kk || (j % s.k == kk && j / s.k < ci)))
  }

  ghost predicate Gathering<T>(x: seq<T>, s: Shape, out: array<T>, was: seq<T>, dflt: T, done: Stores)
    reads out
  {
    && s.Valid() && |x| == s.tIn * s.cin
    && Progress(out, was, s.tOut, s.Patch(), PatchCell(x, s, was, dflt), done)
  }

  lemma ColumnSplit(s: Shape, ci: nat, kk: nat)
    requires ci < s.cin && kk < s.k
    ensures s.Column(ci, kk) / s.k == ci && s.Column(ci, kk) % s.k == kk
  {
    IndexQuotient(ci, kk, s.cin, s.k);
  }

  lemma ColumnUnique(s: Shape, j: nat, ci: nat, kk: nat)
    requires j < s.Patch() && s.k > 0 && ci < s.cin && kk < s.k && j / s.k == ci && j % s.k == kk
    ensures j == s.Column(ci, kk)
  {
    IndexSplit(j, s.cin, s.k);
  }

  // Storing (ci, kk) moves the boundary by one channel.
  lemma StoredTap(s: Shape, done: Stores, before: Stores, after: Stores, o: nat, kk: nat, ci: nat)
    requires ci < s.cin && kk < s.k && s.Tap(o, kk)
    requires AddsUpTo(s, done, before, o, kk, ci) && after == before.Add(o, s.Column(ci, kk))
    ensures AddsUpTo(s, done, after, o, kk, ci + 1)
  {
    ColumnSplit(s, ci, kk);
    forall o', j
      ensures (o', j) in after.cells <==>
        (o', j) in done.cells || (o' == o && s.TapColumn(o, j) && (j % s.k < kk || (j % s.k == kk && j / s.k < ci + 1)))
    {
      if o' == o && s.TapColumn(o, j) && j % s.k == kk && j / s.k == ci {
        ColumnUnique(s, j, ci, kk);
      }
    }
  }

  // A finished tap: every channel of kk is in, so the boundary is (kk + 1, 0).
  lemma FinishedTap(s: Shape, done: Stores, done': Stores, o: nat, kk: nat)
    requires kk < s.k && s.cin > 0
    requires if s.Tap(o, kk) then AddsUpTo(s, done, done', o, kk, s.cin) else AddsUpTo(s, done, done', o, kk, 0)
    ensures AddsUpTo(s, done, done', o, kk + 1, 0)
  {
    forall o', j
      ensures (o', j) in done'.cells <==>
        (o', j) in done.cells
        || (o' == o && s.TapColumn(o, j) && (j % s.k < kk + 1 || (j % s.k == kk + 1 && j / s.k < 0)))
    {
      if o' == o && s.TapColumn(o, j) {
        QuotientBound(j, s.cin, s.k);
      }
    }
  }

  // One tap of one frame: the channels of its input frame.
  method GatherTap<T>(x: seq<T>, s: Shape, out: array<T>, o0: nat, local: nat, kk: nat,
                      ghost was: seq<T>, ghost dflt: T, ghost start: Stores, ghost done0: Stores)
    returns (ghost done: Stores)
    requires Gathering(x, s, out, was, dflt, done0)
    requires o0 + local < s.tOut && kk < s.k && s.Tap(o0 + local, kk)
    requires FreeFrames(start, o0 + local, o0 + local + 1)
    requires AddsUpTo(s, start, done0, o0 + local, kk, 0)
    modifies out
    ensures Gathering(x, s, out, was, dflt, done)
    ensures AddsUpTo(s, start, done, o0 + local, kk + 1, 0)
  {
    var o := o0 + local;
    var ti := s.Frame(o, kk);
    done := done0;
    for ci := 0 to s.cin
      invariant Gathering(x, s, out, was, dflt, done)
      invariant AddsUpTo(s, start, done, o, kk, ci)
    {
      var j := s.Column(ci, kk);
      ColumnSplit(s, ci, kk);
      ghost var before := done;
      done := StoreCell(out, s.tOut, s.Patch(), o0, local, j, x[Index(ti, ci, s.tIn, s.cin)],
                        was, PatchCell(x, s, was, dflt), done);
      StoredTap(s, start, before, done, o, kk, ci);
    }
    FinishedTap(s, start, done, o, kk);
  }

  // One output frame: taps on padding are skipped.
  method FillRow<T>(x: seq<T>, s: Shape, out: array<T>, o0: nat, local: nat,
                    ghost was: seq<T>, ghost dflt: T, ghost done0: Stores)
    returns (ghost done: Stores)
    requires Gathering(x, s, out, was, dflt, done0) && o0 + local < s.tOut
    requires FreeFrames(done0, o0 + local, o0 + local + 1)
    modifies out
    ensures Gathering(x, s, out, was, dflt, done)
    ensures AddsTaps(s, done0, done, o0 + local, o0 + local + 1)
  {
    var o := o0 + local;
    var start := o * s.stride;
    done := done0;
    for kk := 0 to s.k
      invariant Gathering(x, s, out, was, dflt, done)
      invariant AddsUpTo(s, done0, done, o, kk, 0)
    {
      var p := start + kk;
      if p < s.pad || p - s.pad >= s.tIn {
        FinishedTap(s, done0, done, o, kk);
        continue;
      }
      done := GatherTap(x, s, out, o0, local, kk, was, dflt, done0, done);
    }
  }

  // One band of output frames.
  method FillBand<T>(x: seq<T>, s: Shape, out: array<T>, o0: nat, rows: nat,
                     ghost was: seq<T>, ghost dflt: T, ghost done0: Stores)
    returns (ghost done: Stores)
    requires Gathering(x, s, out, was, dflt, done0) && o0 + rows <= s.tOut
    requires FreeFrames(done0, o0, o0 + rows)
    modifies out
    ensures Gathering(x, s, out, was, dflt, done)
    ensures AddsTaps(s, done0, done, o0, o0 + rows)
  {
    done := done0;
    for local := 0 to rows
      invariant Gathering(x, s, out, was, dflt, done)
      invariant AddsTaps(s, done0, done, o0, o0 + local)
    {
      done := FillRow(x, s, out, o0, local, was, dflt, done);
    }
  }

  // The taps of every band no longer pending.
  ghost predicate TapsDone(s: Shape, done: Stores, pending: set<int>, rows: nat)
    requires rows > 0
  {
    forall o, j :: (o, j) in done.cells <==> o < s.tOut && s.TapColumn(o, j) && o / rows !in pending
  }

  lemma TapsStart(s: Shape, rows: nat, tasks: nat)
    requires rows > 0 && s.tOut <= tasks * rows
    ensures TapsDone(s, Stores({}, []), TaskSet(tasks), rows)
  {
    forall o | 0 <= o < s.tOut
      ensures 0 <= o / rows < tasks
    {
      QuotientBound(o, tasks, rows);
    }
  }

  lemma TapsStep(s: Shape, done: Stores, done': Stores, pending: set<int>, rows: nat, t: nat)
    requires rows > 0 && t in pending && TapsDone(s, done, pending, rows)
    requires AddsTaps(s, done, done', TaskRow(t, rows), Min(s.tOut, TaskRow(t, rows) + rows))
    ensures TapsDone(s, done', pending - {t}, rows)
  {
    forall o, j
      ensures (o, j) in done'.cells <==> o < s.tOut && s.TapColumn(o, j) && o / rows !in pending - {t}
    {
      if o >= 0 {
        BandRow(o, rows, t);
      }
    }
  }

  lemma BandUntouched(s: Shape, done: Stores, pending: set<int>, rows: nat, t: nat)
    requires rows > 0 && t in pending && TapsDone(s, done, pending, rows)
    ensures FreeFrames(done, TaskRow(t, rows), TaskRow(t, rows) + rows)
  {
    forall o, j | TaskRow(t, rows) <= o < TaskRow(t, rows) + rows
      ensures (o, j) !in done.cells
    {
      BandRow(o, rows, t);
    }
  }

  // Rows per band for a requested number of bands.
  function RowsPer(tOut: nat, chunks: nat): (rows: nat)
    ensures rows > 0
  {
    var r := DivCeil(tOut, if chunks < 1 then 1 else chunks);
    if r < 1 then 1 else r
  }

  // The gather, band by band in any order. The result does not mention the band count, no
  // read leaves the input, and cells under padding keep what the buffer held.
  method Im2col<T>(x: seq<T>, s: Shape, chunks: nat, out: array<T>, ghost dflt: T)
    requires s.Valid() && |x| == s.tIn * s.cin && out.Length == s.tOut * s.Patch()
    modifies out
    ensures out[..] == Im2colOf(x, s, old(out[..]), dflt)
  {
    Im2colBands(x, s, RowsPer(s.tOut, chunks), out, dflt);
  }

  method Im2colBands<T>(x: seq<T>, s: Shape, rows: nat, out: array<T>, ghost dflt: T)
    requires s.Valid() && |x| == s.tIn * s.cin && out.Length == s.tOut * s.Patch() && rows > 0
    modifies out
    ensures out[..] == Im2colOf(x, s, old(out[..]), dflt)
  {
    ghost var was, done: Stores := out[..], Stores({}, []);
    ProgressStart(out, s.tOut, s.Patch(), PatchCell(x, s, was, dflt));
    MulMonotone(1, s.cin, s.k);
    var tasks := CountTasks(s.tOut, s.Patch(), rows);
    var pending := TaskSet(tasks);
    TapsStart(s, rows, tasks);
    while pending != {}
      invariant pending <= TaskSet(tasks)
      invariant Gathering(x, s, out, was, dflt, done)
      invariant TapsDone(s, done, pending, rows)
      decreases pending
    {
      var c :| c in pending;
      var o0 := TaskRow(c, rows);
      BandUntouched(s, done, pending, rows, c);
      ghost var before := done;
      done := FillBand(x, s, out, o0, Min(s.tOut, o0 + rows) - o0, was, dflt, done);
      TapsStep(s, before, done, pending, rows, c);
      pending := pending - {c};
    }
    Finished(x, s, out, was, dflt, done, rows);
  }

  lemma Finished<T>(x: seq<T>, s: Shape, out: array<T>, was: seq<T>, dflt: T, done: Stores, rows: nat)
    requires Gathering(x, s, out, was, dflt, done) && rows > 0 && TapsDone(s, done, {}, rows)
    ensures out[..] == Im2colOf(x, s, was, dflt)
  {
    TableUnique(out[..], Im2colOf(x, s, was, dflt), s.tOut, s.Patch());
  }

  // The buffer in plain addresses: entry (o, ci, kk) stands at o * (cin * k) + ci * k + kk and
  // holds channel ci of input frame o * stride + kk - pad, or what it held under padding.
  lemma Im2colEntry<T>(x: seq<T>, s: Shape, was: seq<T>, dflt: T, o: nat, ci: nat, kk: nat, at: nat, p: int, from: int)
    requires |x| == s.tIn * s.cin && |was| == s.tOut * (s.cin * s.k) && o < s.tOut && ci < s.cin && kk < s.k
    requires at == o * (s.cin * s.k) + ci * s.k + kk && p == o * s.stride + kk - s.pad && from == p * s.cin + ci
    ensures var m := Im2colOf(x, s, was, dflt);
      && at < |m| == |was|
      && (if 0 <= p < s.tIn then 0 <= from < |x| && m[at] == x[from] else m[at] == was[at])
  {
    var j := s.Column(ci, kk);
    ColumnSplit(s, ci, kk);
    assert Index(o, j, s.tOut, s.Patch()) == at;
    if 0 <= p < s.tIn {
      assert Index(p, ci, s.tIn, s.cin) == from;
      assert PatchCell(x, s, was, dflt)(o, j) == x[from];
    } else {
      assert PatchCell(x, s, was, dflt)(o, j) == was[at];
    }
  }

  // These are all its entries.
  lemma Im2colCovers(s: Shape, at: nat) returns (o: nat, ci: nat, kk: nat)
    requires at < s.tOut * (s.cin * s.k)
    ensures o < s.tOut && ci < s.cin && kk < s.k && at == o * (s.cin * s.k) + ci * s.k + kk
  {
    IndexSplit(at, s.tOut, s.cin * s.k);
    o := at / (s.cin * s.k);
    var j := at % (s.cin * s.k);
    IndexSplit(j, s.cin, s.k);
    ci, kk := j / s.k, j % s.k;
  }

  // Reusing a buffer for another input leaves what gathering into the original would have.
  lemma BufferReuse<T>(x: seq<T>, x': seq<T>, s: Shape, was: seq<T>, dflt: T)
    requires |x| == |x'| == s.tIn * s.cin && |was| == s.tOut * s.Patch()
    ensures Im2colOf(x', s, Im2colOf(x, s, was, dflt), dflt) == Im2colOf(x', s, was, dflt)
  {
    TableUnique(Im2colOf(x', s, Im2colOf(x, s, was, dflt), dflt), Im2colOf(x', s, was, dflt), s.tOut, s.Patch());
  }

  // The buffer after a run of gathers of the same geometry.
  ghost function AfterRun<T>(xs: seq<seq<T>>, s: Shape, was: seq<T>, dflt: T): (r: seq<T>)
    requires forall i :: 0 <= i < |xs| ==> |xs[i]| == s.tIn * s.cin
    requires |was| == s.tOut * s.Patch()
    ensures |r| == s.tOut * s.Patch()
  {
    if |xs| == 0 then was else Im2colOf(xs[|xs| - 1], s, AfterRun(xs[..|xs| - 1], s, was, dflt), dflt)
  }

  // Over any run the buffer holds what a fresh one would hold for the last input.
  lemma {:induction false} RunIsLast<T>(xs: seq<seq<T>>, s: Shape, was: seq<T>, dflt: T)
    requires |xs| > 0 && forall i :: 0 <= i < |xs| ==> |xs[i]| == s.tIn * s.cin
    requires |was| == s.tOut * s.Patch()
    ensures AfterRun(xs, s, was, dflt) == Im2colOf(xs[|xs| - 1], s, was, dflt)
  {
    if |xs| > 1 {
      var init := xs[..|xs| - 1];
      RunIsLast(init, s, was, dflt);
      BufferReuse(init[|init| - 1], xs[|xs| - 1], s, was, dflt);
    } else {
      assert AfterRun(xs[..0], s, was, dflt) == was;
    }
  }

  // ----- the weight ----------------------------------------------------------

  ghost function Transposed<T>(w: seq<T>, rows: nat, cols: nat, dflt: T): (int, int) -> T
    requires |w| == rows * cols
  {
    (j: int, co: int) => if 0 <= j < cols && 0 <= co < rows then w[Index(co, j, rows, cols)] else dflt
  }

  // w_t[j, co] = w[co, j].
  method TransposeWt<T>(w: seq<T>, cout: nat, patch: nat, zero: T) returns (wt: array<T>)
    requires |w| == cout * patch
    ensures fresh(wt) && wt[..] == Table(patch, cout, Transposed(w, cout, patch, zero))
  {
    wt := new T[patch * cout](_ => zero);
    ghost var was, done: Stores := wt[..], Stores({}, []);
    ProgressStart(wt, patch, cout, Transposed(w, cout, patch, zero));
    for co := 0 to cout
      invariant Progress(wt, was, patch, cout, Transposed(w, cout, patch, zero), done)
      invariant Adds(Stores({}, []), done, 0, patch, 0, co)
    {
      ghost var column := done;
      for j := 0 to patch
        invariant Progress(wt, was, patch, cout, Transposed(w, cout, patch, zero), done)
        invariant Adds(column, done, 0, j, co, co + 1)
      {
        done := StoreCell(wt, patch, cout, j, 0, co, w[Index(co, j, cout, patch)], was,
                          Transposed(w, cout, patch, zero), done);
      }
    }
    ProgressComplete(wt, was, patch, cout, Transposed(w, cout, patch, zero), done);
  }

  // Entry (j, co) stands at j * cout + co and was at co * patch + j.
  lemma TransposedAt<T>(w: seq<T>, cout: nat, patch: nat, dflt: T, co: nat, j: nat, to: nat, from: nat)
    requires |w| == cout * patch && co < cout && j < patch && to == j * cout + co && from == co * patch + j
    ensures var wt := Table(patch, cout, Transposed(w, cout, patch, dflt));
      |wt| == patch * cout && to < |wt| && from < |w| && wt[to] == w[from]
  {
    assert Index(j, co, patch, cout) == to && Index(co, j, cout, patch) == from;
  }

  // Transposing twice gives the weight back.
  lemma TransposeInvolutive<T>(w: seq<T>, rows: nat, cols: nat, dflt: T)
    requires |w| == rows * cols
    ensures Table(rows, cols, Transposed(Table(cols, rows, Transposed(w, rows, cols, dflt)), cols, rows, dflt)) == w
  {
    var wt := Table(cols, rows, Transposed(w, rows, cols, dflt));
    TableUnique(Table(rows, cols, Transposed(wt, cols, rows, dflt)), w, rows, cols);
  }

  // ----- matrix product against direct convolution ---------------------------

  // The nested loops of a direct convolution, accumulating from the left: taps of a channel.
  ghost function FoldTaps<F>(ar: Arith<F>, g: (int, int) -> F, acc: F, ci: int, kk: nat): F {
    if kk == 0 then acc else ar.add(FoldTaps(ar, g, acc, ci, kk - 1), g(ci, kk - 1))
  }

  // The first n channels.
  ghost function FoldChannels<F>(ar: Arith<F>, g: (int, int) -> F, n: nat, k: nat): F {
    if n == 0 then ar.zero else FoldTaps(ar, g, FoldChannels(ar, g, n - 1, k), n - 1, k)
  }

  lemma {:induction false} FoldOneChannel<F>(ar: Arith<F>, f: int -> F, g: (int, int) -> F, ci: int, base: nat,
                                             k: nat, kk: nat)
    requires forall t :: 0 <= t < k ==> f(base + t) == g(ci, t)
    requires kk <= k
    ensures FoldBy(ar, f, base + kk) == FoldTaps(ar, g, FoldBy(ar, f, base), ci, kk)
  {
    if kk > 0 {
      FoldOneChannel(ar, f, g, ci, base, k, kk - 1);
      assert f(base + (kk - 1)) == g(ci, kk - 1);
    }
  }

  lemma ChannelBase(c: nat, t: nat, cin: nat, k: nat)
    requires c < cin && t < k
    ensures c * k + t == Index(c, t, cin, k)
  {
  }

  lemma ShiftedTerms<F>(f: int -> F, g: (int, int) -> F, cin: nat, k: nat, c: nat, base: nat)
    requires forall c, t :: 0 <= c < cin && 0 <= t < k ==> f(Index(c, t, cin, k)) == g(c, t)
    requires c < cin && base == c * k
    ensures forall t :: 0 <= t < k ==> f(base + t) == g(c, t)
  {
    forall t | 0 <= t < k
      ensures f(base + t) == g(c, t)
    {
      ChannelBase(c, t, cin, k);
    }
  }

  lemma NextBase(c: int, k: int)
    ensures c * k + k == (c + 1) * k
  {
  }

  // Accumulating a patch column by column is accumulating it channel by channel, tap by tap.
  lemma {:induction false} FoldByChannels<F>(ar: Arith<F>, f: int -> F, g: (int, int) -> F, cin: nat, k: nat, ci: nat,
                                             base: nat)
    requires forall c, t :: 0 <= c < cin && 0 <= t < k ==> f(Index(c, t, cin, k)) == g(c, t)
    requires ci <= cin && base == ci * k
    ensures FoldBy(ar, f, base) == FoldChannels(ar, g, ci, k)
  {
    if ci > 0 {
      var c := ci - 1;
      var base' := c * k;
      NextBase(c, k);
      FoldByChannels(ar, f, g, cin, k, c, base');
      ShiftedTerms(f, g, cin, k, c, base');
      FoldOneChannel(ar, f, g, c, base', k, k);
    }
  }

  lemma SampleInside(tIn: nat, cin: nat, p: int, ci: int)
    requires 0 <= p < tIn && 0 <= ci < cin
    ensures 0 <= p * cin + ci < tIn * cin
  {
    assert Index(p, ci, tIn, cin) == p * cin + ci;
  }

  lemma WeightInside(cout: nat, cin: nat, k: nat, co: int, ci: int, kk: int)
    requires 0 <= co < cout && 0 <= ci < cin && 0 <= kk < k
    ensures 0 <= co * (cin * k) + ci * k + kk < cout * (cin * k)
  {
    assert Index(co, Index(ci, kk, cin, k), cout, cin * k) == co * (cin * k) + ci * k + kk;
  }

  // The zero-padded input sample under tap kk of frame o in channel ci: input frame
  // o * stride + kk - pad.
  ghost function Sample<F>(ar: Arith<F>, x: seq<F>, s: Shape, o: nat, ci: nat, kk: nat): F
    requires |x| == s.tIn * s.cin && ci < s.cin
  {
    var p := o * s.stride + kk - s.pad;
    if 0 <= p < s.tIn then SampleInside(s.tIn, s.cin, p, ci); x[p * s.cin + ci] else ar.zero
  }

  // Terms of the direct strided convolution, in plain addresses.
  ghost function ConvTerms<F>(ar: Arith<F>, x: seq<F>, w: seq<F>, s: Shape, cout: nat, o: nat, co: nat): (int, int) -> F
    requires |x| == s.tIn * s.cin && |w| == cout * (s.cin * s.k) && co < cout
  {
    (ci: int, kk: int) =>
      if 0 <= ci < s.cin && 0 <= kk < s.k then
        WeightInside(cout, s.cin, s.k, co, ci, kk);
        ar.mul(Sample(ar, x, s, o, ci, kk), w[co * (s.cin * s.k) + ci * s.k + kk])
      else ar.zero
  }

  // One term of the direct convolution with every address written out.
  lemma ConvTermIs<F>(ar: Arith<F>, x: seq<F>, w: seq<F>, s: Shape, cout: nat, o: nat, co: nat, ci: nat, kk: nat,
                      p: int, from: int, q: nat)
    requires |x| == s.tIn * s.cin && |w| == cout * (s.cin * s.k) && co < cout && ci < s.cin && kk < s.k
    requires p == o * s.stride + kk - s.pad && from == p * s.cin + ci && q == co * (s.cin * s.k) + ci * s.k + kk
    ensures q < |w| && (0 <= p < s.tIn ==> 0 <= from < |x|)
    ensures ConvTerms(ar, x, w, s, cout, o, co)(ci, kk) == ar.mul(if 0 <= p < s.tIn then x[from] else ar.zero, w[q])
  {
    WeightInside(cout, s.cin, s.k, co, ci, kk);
    if 0 <= p < s.tIn { SampleInside(s.tIn, s.cin, p, ci); }
  }

  ghost predicate Zeroed<F>(ar: Arith<F>, zeros: seq<F>, s: Shape) {
    |zeros| == s.tOut * s.Patch() && forall i :: 0 <= i < |zeros| ==> zeros[i] == ar.zero
  }

  // The im2col matrix gathered into a zeroed buffer, and the transposed weight.
  ghost function Patches<F>(ar: Arith<F>, x: seq<F>, s: Shape, zeros: seq<F>): (m: seq<F>)
    requires |x| == s.tIn * s.cin
    ensures |m| == s.tOut * s.Patch()
  {
    Im2colOf(x, s, zeros, ar.zero)
  }

  ghost function WeightT<F>(ar: Arith<F>, w: seq<F>, cout: nat, patch: nat): (wt: seq<F>)
    requires |w| == cout * patch
    ensures |wt| == patch * cout
  {
    Table(patch, cout, Transposed(w, cout, patch, ar.zero))
  }

  // A gathered entry is the padded sample.
  lemma GatheredEntry<F>(ar: Arith<F>, x: seq<F>, s: Shape, zeros: seq<F>, o: nat, ci: nat, kk: nat)
    requires |x| == s.tIn * s.cin && Zeroed(ar, zeros, s) && o < s.tOut && ci < s.cin && kk < s.k
    ensures Entry(Patches(ar, x, s, zeros), s.tOut, s.Patch(), o, s.Column(ci, kk)) == Sample(ar, x, s, o, ci, kk)
  {
    var p := o * s.stride + kk - s.pad;
    var at := Index(o, s.Column(ci, kk), s.tOut, s.Patch());
    Im2colEntry(x, s, zeros, ar.zero, o, ci, kk, at, p, p * s.cin + ci);
  }

  lemma TransposedEntry<F>(ar: Arith<F>, w: seq<F>, cout: nat, patch: nat, co: nat, j: nat)
    requires |w| == cout * patch && co < cout && j < patch
    ensures Entry(WeightT(ar, w, cout, patch), patch, cout, j, co) == Entry(w, cout, patch, co, j)
  {
  }

  // One product of the matrix form is one term of the direct form.
  lemma TermsAgree<F>(ar: Arith<F>, x: seq<F>, w: seq<F>, s: Shape, zeros: seq<F>, cout: nat, o: nat, co: nat,
                      ci: nat, kk: nat)
    requires |x| == s.tIn * s.cin && |w| == cout * s.Patch() && Zeroed(ar, zeros, s)
    requires o < s.tOut && co < cout && ci < s.cin && kk < s.k
    ensures ProductTerms(ar, Patches(ar, x, s, zeros), WeightT(ar, w, cout, s.Patch()),
                         s.tOut, s.Patch(), cout, o, co)(s.Column(ci, kk))
      == ConvTerms(ar, x, w, s, cout, o, co)(ci, kk)
  {
    GatheredEntry(ar, x, s, zeros, o, ci, kk);
    TransposedEntry(ar, w, cout, s.Patch(), co, s.Column(ci, kk));
    assert Index(co, s.Column(ci, kk), cout, s.Patch()) == co * (s.cin * s.k) + ci * s.k + kk;
  }

  // im2col into a zeroed buffer, times the transposed weight, accumulates exactly the terms of
  // the direct strided, zero-padded convolution in the same order, for every geometry. No law
  // of addition or multiplication is used, so this holds bit for bit in floating point.
  lemma Im2colConvolves<F>(ar: Arith<F>, x: seq<F>, w: seq<F>, s: Shape, zeros: seq<F>, cout: nat, o: nat, co: nat)
    requires |x| == s.tIn * s.cin && |w| == cout * s.Patch() && Zeroed(ar, zeros, s)
    requires o < s.tOut && co < cout
    ensures MatMul(ar, Patches(ar, x, s, zeros), WeightT(ar, w, cout, s.Patch()), s.tOut, s.Patch(), cout)
              [Index(o, co, s.tOut, cout)]
      == FoldChannels(ar, ConvTerms(ar, x, w, s, cout, o, co), s.cin, s.k)
  {
    var f := ProductTerms(ar, Patches(ar, x, s, zeros), WeightT(ar, w, cout, s.Patch()), s.tOut, s.Patch(), cout, o,
                          co);
    var g := ConvTerms(ar, x, w, s, cout, o, co);
    forall c, t | 0 <= c < s.cin && 0 <= t < s.k
      ensures f(Index(c, t, s.cin, s.k)) == g(c, t)
    {
      TermsAgree(ar, x, w, s, zeros, cout, o, co, c, t);
    }
    FoldByChannels(ar, f, g, s.cin, s.k, s.cin, s.Patch());
    assert MatMulCell(ar, Patches(ar, x, s, zeros), WeightT(ar, w, cout, s.Patch()), s.tOut, s.Patch(), cout)(o, co)
      == FoldBy(ar, f, s.Patch());
  }

  // The probe's output length is exactly the number of windows that fit the padded input.
  lemma WindowsFit(tIn: nat, k: nat, stride: nat, pad: nat, o: nat)
    requires stride > 0 && tIn + 2 * pad >= k
    ensures o < (tIn + 2 * pad - k) / stride + 1 <==> o * stride + k <= tIn + 2 * pad
  {
    var room := tIn + 2 * pad - k;
    var q := room / stride;
    assert room == q * stride + room % stride;
    if o <= q {
      MulMonotone(o, q, stride);
    } else {
      MulMonotone(q + 1, o, stride);
    }
  }
}
