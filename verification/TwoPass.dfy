// The attention-output GEMM two ways: sign-extended vpmaddwd, and two vpmaddubsw passes
// over a split of the weights. Both store the i32 of the plain dot of the int8 rows.
// The source fixes K = N = 1280 and M = 1500; here k and n keep only the divisibility
// its loops rely on and m is any row count.
module TwoPass {
  import opened Integers
  import opened Dots
  import opened Simd
  import opened Exactness
  import opened Grid
  import opened MaddubsKernels
  import DotI8
  import MaddubsGemm

  // ----- the weight split ----------------------------------------------------

  function SplitA(x: int): int { Clamp(x, -63, 63) }
  function SplitB(x: int): int { x - SplitA(x) }

  // The second half fits vpmaddubsw's safe range exactly for weights other than -128.
  lemma SplitIff(x: int)
    requires IsI8(x)
    ensures SplitA(x) + SplitB(x) == x && -63 <= SplitA(x) <= 63
    ensures -64 <= SplitB(x) <= 64 <==> x != -128
  {
  }

  ghost predicate IsSplit(w: seq<int>, wa: seq<int>, wb: seq<int>) {
    |wa| == |wb| == |w| && forall i :: 0 <= i < |w| ==> wa[i] == SplitA(w[i]) && wb[i] == SplitB(w[i])
  }

  ghost predicate IsColSum(w: seq<int>, n: nat, k: nat, colsum: seq<int>)
    requires |w| == n * k
  {
    |colsum| == n && forall o :: 0 <= o < n ==> colsum[o] == Wrap32(Sum(Row(w, o, n, k)))
  }

  ghost predicate IsShifted(a: seq<int>, au8: seq<int>) {
    |au8| == |a| && forall i :: 0 <= i < |a| ==> au8[i] == a[i] + 128
  }

  // The preparation main performs: shift the activations, split the weights, sum the rows.
  method Prepare(a: seq<int>, w: seq<int>, m: nat, n: nat, k: nat)
    returns (au8: seq<int>, wa: array<int>, wb: array<int>, colsum: array<int>)
    requires |a| == m * k && |w| == n * k && I8s(a)
    ensures IsShifted(a, au8) && IsSplit(w, wa[..], wb[..]) && IsColSum(w, n, k, colsum[..])
    ensures fresh(wa) && fresh(wb) && fresh(colsum)
  {
    au8 := seq(|a|, i requires 0 <= i < |a| => a[i] + 128);
    wa := new int[n * k](_ => 0);
    wb := new int[n * k](_ => 0);
    for i := 0 to n * k
      invariant forall j :: 0 <= j < i ==> wa[j] == SplitA(w[j]) && wb[j] == SplitB(w[j])
    {
      var x := w[i];
      var xa := Clamp(x, -63, 63);
      wa[i] := xa;
      wb[i] := x - xa;
    }
    colsum := new int[n](_ => 0);
    for o := 0 to n
      invariant IsSplit(w, wa[..], wb[..])
      invariant forall p :: 0 <= p < o ==> colsum[p] == Wrap32(Sum(Row(w, p, n, k)))
    {
      var row := Row(w, o, n, k);
      HsumStoredSum(row, k);
      WrapUnique(HsumStored(row, k), Sum(row));
      colsum[o] := HsumStored(row, k);
    }
  }

  // ----- register tiles ------------------------------------------------------

  // Slot 2r belongs to row r and the first weight row, slot 2r + 1 to the second.
  ghost predicate TileTracks(acc: seq<seq<int>>, v0: seq<int>, v1: seq<int>) {
    && |v0| == |v1| && |acc| == 2 * |v0|
    && (forall i :: 0 <= i < |v0| ==> |acc[2 * i]| == 8 && Congruent(Sum(acc[2 * i]), v0[i]))
    && (forall i :: 0 <= i < |v1| ==> |acc[2 * i + 1]| == 8 && Congruent(Sum(acc[2 * i + 1]), v1[i]))
  }

  // Replacing both registers of row i.
  lemma TileTracksUpdate(acc: seq<seq<int>>, v0: seq<int>, v1: seq<int>, i: nat,
                         p0: seq<int>, p1: seq<int>, y0: int, y1: int)
    requires TileTracks(acc, v0, v1) && i < |v0|
    requires |p0| == |p1| == 8 && Congruent(Sum(p0), y0) && Congruent(Sum(p1), y1)
    ensures TileTracks(acc[i * 2 := p0][i * 2 + 1 := p1], v0[i := y0], v1[i := y1])
  {
  }

  ghost predicate Slots(acc: seq<seq<int>>) {
    |acc| == 8 && forall j :: 0 <= j < 8 ==> |acc[j]| == 8
  }

  // The registers of a tile hold the partial dots of its rows after x entries.
  ghost predicate TileAt(acc: seq<seq<int>>, a: seq<seq<int>>, w0: seq<int>, w1: seq<int>, x: nat)
    requires |a| == 4 && x <= |w0| && x <= |w1| && forall j :: 0 <= j < 4 ==> x <= |a[j]|
  {
    Slots(acc) && forall b {:trigger On(b, acc)} :: On(b, acc) ==>
      TileTracks(acc, Partials(a, w0, x), Partials(a, w1, x))
  }

  lemma TileIs(acc: seq<seq<int>>, a: seq<seq<int>>, w0: seq<int>, w1: seq<int>, x: nat)
    requires |a| == 4 && x <= |w0| && x <= |w1| && forall j :: 0 <= j < 4 ==> x <= |a[j]|
    ensures TileAt(acc, a, w0, w1, x) <==> Slots(acc) && TileTracks(acc, Partials(a, w0, x), Partials(a, w1, x))
  {
    assert On(true, acc);
  }

  // Row i of a tile has not moved yet.
  lemma TileSlot(acc: seq<seq<int>>, a: seq<seq<int>>, w0: seq<int>, w1: seq<int>, x: nat, step: nat, i: nat)
    requires |a| == 4 && i < 4 && x + step <= |w0| && x + step <= |w1| && forall j :: 0 <= j < 4 ==> x + step <= |a[j]|
    requires TileTracks(acc, Advancing(a, w0, x, step, i), Advancing(a, w1, x, step, i))
    ensures Congruent(Sum(acc[i * 2]), DotTo(a[i], w0, x)) && Congruent(Sum(acc[i * 2 + 1]), DotTo(a[i], w1, x))
  {
    Advance(a, w0, x, step, i);
    Advance(a, w1, x, step, i);
    assert acc[i * 2] == acc[2 * i];
  }

  // Row i of a tile moves on by `step` entries.
  lemma TileTracksAdvance(acc: seq<seq<int>>, a: seq<seq<int>>, w0: seq<int>, w1: seq<int>, x: nat, step: nat, i: nat,
                          p0: seq<int>, p1: seq<int>)
    requires |a| == 4 && i < 4 && x + step <= |w0| && x + step <= |w1| && forall j :: 0 <= j < 4 ==> x + step <= |a[j]|
    requires TileTracks(acc, Advancing(a, w0, x, step, i), Advancing(a, w1, x, step, i)) && |p0| == |p1| == 8
    requires Congruent(Sum(p0), DotTo(a[i], w0, x + step)) && Congruent(Sum(p1), DotTo(a[i], w1, x + step))
    ensures TileTracks(acc[i * 2 := p0][i * 2 + 1 := p1], Advancing(a, w0, x, step, i + 1),
                       Advancing(a, w1, x, step, i + 1))
  {
    Advance(a, w0, x, step, i);
    Advance(a, w1, x, step, i);
    TileTracksUpdate(acc, Advancing(a, w0, x, step, i), Advancing(a, w1, x, step, i), i, p0, p1,
                     DotTo(a[i], w0, x + step), DotTo(a[i], w1, x + step));
  }

  // Slot 2r of a finished tile is the reference dot of row r with the first weight row, slot
  // 2r + 1 with the second.
  ghost predicate TileDots(r: seq<int>, a: seq<seq<int>>, w0: seq<int>, w1: seq<int>, k: nat)
    requires |a| == 4 && |w0| == |w1| == k && forall i :: 0 <= i < 4 ==> |a[i]| == k
  {
    |r| == 8 && forall i :: 0 <= i < 4 ==> r[i * 2] == DotRef(a[i], w0) && r[i * 2 + 1] == DotRef(a[i], w1)
  }

  // Horizontal sums of a finished tile, by the shuffle network.
  method HsumTile(acc: seq<seq<int>>, ghost a: seq<seq<int>>, ghost w0: seq<int>, ghost w1: seq<int>, ghost k: nat,
                  ghost ok0: bool)
    returns (r: seq<int>, ghost ok: bool)
    requires |a| == 4 && |w0| == |w1| == k && forall i :: 0 <= i < 4 ==> |a[i]| == k
    requires TileTracks(acc, Partials(a, w0, k), Partials(a, w1, k))
    ensures TileDots(r, a, w0, w1, k)
    ensures ok == (ok0 && forall i :: 0 <= i < 4 ==> ShuffledExact(acc[2 * i]) && ShuffledExact(acc[2 * i + 1]))
  {
    r, ok := [], ok0;
    for i := 0 to 4
      invariant |r| == 2 * i
      invariant forall j :: 0 <= j < i ==> r[j * 2] == DotRef(a[j], w0) && r[j * 2 + 1] == DotRef(a[j], w1)
      invariant ok == (ok0 && forall j :: 0 <= j < i ==> ShuffledExact(acc[2 * j]) && ShuffledExact(acc[2 * j + 1]))
    {
      var h0, h1;
      h0, ok := HsumSlot(acc[2 * i], a[i], w0, k, ok);
      h1, ok := HsumSlot(acc[2 * i + 1], a[i], w1, k, ok);
      r := r + [h0, h1];
    }
  }

  method HsumSlot(acc: seq<int>, ghost row: seq<int>, ghost w: seq<int>, ghost k: nat, ghost ok0: bool)
    returns (h: int, ghost ok: bool)
    requires |row| == |w| == k && |acc| == 8 && Congruent(Sum(acc), DotTo(row, w, k))
    ensures h == DotRef(row, w) && ok == (ok0 && ShuffledExact(acc))
  {
    h, ok := DotI8.Hsum(acc, DotTo(row, w, k), ok0);
    WrapUnique(h, Dot(row, w));
  }

  method StartTile(ghost a: seq<seq<int>>, ghost w0: seq<int>, ghost w1: seq<int>) returns (acc: seq<seq<int>>)
    requires |a| == 4
    ensures acc == ZeroTile() && TileAt(acc, a, w0, w1, 0)
  {
    var z := DotI8.Zeroed();
    acc := [z, z, z, z, z, z, z, z];
    TileIs(acc, a, w0, w1, 0);
  }

  function ZeroTile(): (acc: seq<seq<int>>)
    ensures |acc| == 8 && forall j :: 0 <= j < 8 ==> acc[j] == Zero(8)
  {
    var z := Zero(8);
    [z, z, z, z, z, z, z, z]
  }

  ghost predicate I8Rows(a: seq<seq<int>>, count: nat, k: nat) {
    |a| == count && forall i :: 0 <= i < count ==> |a[i]| == k && I8s(a[i])
  }

  // From entry x on, no 16-wide block added to the register and no node of the shuffle tree
  // leaves i32.
  ghost predicate BlocksExact(acc: seq<int>, row: seq<int>, w: seq<int>, x: nat, k: nat)
    requires |acc| == 8 && x <= k <= |row| && k <= |w| && I8s(row) && I8s(w)
    decreases k - x
  {
    var exact: bool :| forall b {:trigger On(b, acc)} :: On(b, acc) ==> (exact <==>
      if x + 16 <= k then
        DotI8.ExactBlock(acc, row, w, x) && BlocksExact(AddEpi32(acc, DotI8.Block(row, w, x)), row, w, x + 16, k)
      else
        ShuffledExact(acc));
    exact
  }

  lemma BlocksStep(acc: seq<int>, r: seq<int>, row: seq<int>, w: seq<int>, x: nat, k: nat)
    requires |acc| == 8 && x + 16 <= k <= |row| && k <= |w| && I8s(row) && I8s(w) && DotI8.IsNext(r, acc, row, w, x)
    ensures BlocksExact(acc, row, w, x, k) <==> DotI8.ExactBlock(acc, row, w, x) && BlocksExact(r, row, w, x + 16, k)
  {
    assert On(true, acc);
  }

  lemma BlocksEnd(acc: seq<int>, row: seq<int>, w: seq<int>, k: nat)
    requires |acc| == 8 && k <= |row| && k <= |w| && I8s(row) && I8s(w)
    ensures BlocksExact(acc, row, w, k, k) <==> ShuffledExact(acc)
  {
    assert On(true, acc);
  }

  lemma {:induction false} BlocksFit(acc: seq<int>, row: seq<int>, w: seq<int>, x: nat, k: nat)
    requires |acc| == 8 && x <= k <= |row| && k <= |w| && I8s(row) && I8s(w) && (k - x) % 16 == 0
    requires 16384 * k < LIMIT && Weighs(acc, 16384 * x)
    ensures BlocksExact(acc, row, w, x, k)
    decreases k - x
  {
    if x + 16 <= k {
      var r := DotI8.BlockFits(acc, row, w, x, 128, 16384 * x);
      BlocksFit(r, row, w, x + 16, k);
      BlocksStep(acc, r, row, w, x, k);
    } else {
      ShuffledWeighs(acc, 16384 * x);
      BlocksEnd(acc, row, w, k);
    }
  }

  // How far row i is when the first `ready` rows are one step ahead of x.
  function Reached(i: nat, ready: nat, x: nat, step: nat): nat {
    if i < ready then x + step else x
  }

  // Both registers of row i, from entry x on.
  ghost predicate BlocksRow(acc: seq<seq<int>>, a: seq<seq<int>>, w0: seq<int>, w1: seq<int>, i: nat, x: nat, k: nat)
    requires I8Rows(a, 4, k) && |w0| == |w1| == k && I8s(w0) && I8s(w1) && x <= k && Slots(acc) && i < 4
  {
    BlocksExact(acc[2 * i], a[i], w0, x, k) && BlocksExact(acc[2 * i + 1], a[i], w1, x, k)
  }

  // The registers of a tile, those of the first `ready` rows one block ahead.
  ghost predicate BlocksTile(acc: seq<seq<int>>, a: seq<seq<int>>, w0: seq<int>, w1: seq<int>, x: nat, k: nat,
                             ready: nat)
    requires I8Rows(a, 4, k) && |w0| == |w1| == k && I8s(w0) && I8s(w1) && x <= k && (ready > 0 ==> x + 16 <= k)
    requires Slots(acc)
  {
    && BlocksRow(acc, a, w0, w1, 0, Reached(0, ready, x, 16), k)
    && BlocksRow(acc, a, w0, w1, 1, Reached(1, ready, x, 16), k)
    && BlocksRow(acc, a, w0, w1, 2, Reached(2, ready, x, 16), k)
    && BlocksRow(acc, a, w0, w1, 3, Reached(3, ready, x, 16), k)
  }

  lemma BlocksTileStep(acc: seq<seq<int>>, r: seq<seq<int>>, a: seq<seq<int>>, w0: seq<int>, w1: seq<int>, x: nat,
                       k: nat, i: nat)
    requires I8Rows(a, 4, k) && |w0| == |w1| == k && I8s(w0) && I8s(w1) && x + 16 <= k && i < 4
    requires Slots(acc) && Slots(r)
    requires forall j :: 0 <= j < 8 && j / 2 != i ==> r[j] == acc[j]
    requires DotI8.IsNext(r[2 * i], acc[2 * i], a[i], w0, x) && DotI8.IsNext(r[2 * i + 1], acc[2 * i + 1], a[i], w1, x)
    ensures BlocksTile(acc, a, w0, w1, x, k, i) <==>
      && DotI8.ExactBlock(acc[2 * i], a[i], w0, x) && DotI8.ExactBlock(acc[2 * i + 1], a[i], w1, x)
      && BlocksTile(r, a, w0, w1, x, k, i + 1)
  {
    BlocksStep(acc[2 * i], r[2 * i], a[i], w0, x, k);
    BlocksStep(acc[2 * i + 1], r[2 * i + 1], a[i], w1, x, k);
    BlocksRowSame(acc, r, a, w0, w1, 0, Reached(0, i, x, 16), k);
    BlocksRowSame(acc, r, a, w0, w1, 1, Reached(1, i, x, 16), k);
    BlocksRowSame(acc, r, a, w0, w1, 2, Reached(2, i, x, 16), k);
    BlocksRowSame(acc, r, a, w0, w1, 3, Reached(3, i, x, 16), k);
    assert BlocksRow(acc, a, w0, w1, i, x, k) <==>
      && DotI8.ExactBlock(acc[2 * i], a[i], w0, x) && DotI8.ExactBlock(acc[2 * i + 1], a[i], w1, x)
      && BlocksRow(r, a, w0, w1, i, x + 16, k);
  }

  lemma BlocksRowSame(acc: seq<seq<int>>, r: seq<seq<int>>, a: seq<seq<int>>, w0: seq<int>, w1: seq<int>, j: nat,
                      y: nat, k: nat)
    requires I8Rows(a, 4, k) && |w0| == |w1| == k && I8s(w0) && I8s(w1) && y <= k && Slots(acc) && Slots(r) && j < 4
    ensures acc[2 * j] == r[2 * j] && acc[2 * j + 1] == r[2 * j + 1] ==>
      (BlocksRow(acc, a, w0, w1, j, y, k) <==> BlocksRow(r, a, w0, w1, j, y, k))
  {
  }

  lemma BlocksTileEnds(acc: seq<seq<int>>, a: seq<seq<int>>, w0: seq<int>, w1: seq<int>, x: nat, k: nat)
    requires I8Rows(a, 4, k) && |w0| == |w1| == k && I8s(w0) && I8s(w1) && x + 16 <= k
    requires Slots(acc)
    ensures BlocksTile(acc, a, w0, w1, x, k, 4) <==> BlocksTile(acc, a, w0, w1, x + 16, k, 0)
  {
  }

  lemma BlocksTileDone(acc: seq<seq<int>>, a: seq<seq<int>>, w0: seq<int>, w1: seq<int>, k: nat)
    requires I8Rows(a, 4, k) && |w0| == |w1| == k && I8s(w0) && I8s(w1)
    requires Slots(acc)
    ensures BlocksTile(acc, a, w0, w1, k, k, 0) <==>
      forall i :: 0 <= i < 4 ==> ShuffledExact(acc[2 * i]) && ShuffledExact(acc[2 * i + 1])
  {
    forall i | 0 <= i < 4
      ensures BlocksRow(acc, a, w0, w1, i, k, k) <==> ShuffledExact(acc[2 * i]) && ShuffledExact(acc[2 * i + 1])
    {
      BlocksEnd(acc[2 * i], a[i], w0, k);
      BlocksEnd(acc[2 * i + 1], a[i], w1, k);
    }
  }

  // Sixteen entries of four rows against two weight rows.
  method StepMaddwd(acc: seq<seq<int>>, a: seq<seq<int>>, w0: seq<int>, w1: seq<int>, x: nat, k: nat, ghost ok0: bool)
    returns (r: seq<seq<int>>, ghost ok: bool)
    requires I8Rows(a, 4, k) && |w0| == |w1| == k && I8s(w0) && I8s(w1) && x + 16 <= k
    requires TileAt(acc, a, w0, w1, x)
    ensures TileAt(r, a, w0, w1, x + 16)
    ensures (ok && BlocksTile(r, a, w0, w1, x + 16, k, 0)) == (ok0 && BlocksTile(acc, a, w0, w1, x, k, 0))
  {
    r, ok := acc, ok0;
    TileIs(acc, a, w0, w1, x);
    AdvanceEnds(a, w0, x, 16);
    AdvanceEnds(a, w1, x, 16);
    for i := 0 to 4
      invariant Slots(r) && TileTracks(r, Advancing(a, w0, x, 16, i), Advancing(a, w1, x, 16, i))
      invariant (ok && BlocksTile(r, a, w0, w1, x, k, i)) == (ok0 && BlocksTile(acc, a, w0, w1, x, k, 0))
    {
      r, ok := RowMaddwdStep(r, i, a, w0, w1, x, k, ok);
    }
    BlocksTileEnds(r, a, w0, w1, x, k);
    TileIs(r, a, w0, w1, x + 16);
  }

  // Both registers of row i.
  method RowMaddwdStep(acc: seq<seq<int>>, i: nat, a: seq<seq<int>>, w0: seq<int>, w1: seq<int>, x: nat, ghost k: nat,
                       ghost ok0: bool)
    returns (r: seq<seq<int>>, ghost ok: bool)
    requires I8Rows(a, 4, k) && |w0| == |w1| == k && I8s(w0) && I8s(w1) && x + 16 <= k && i < 4
    requires Slots(acc) && TileTracks(acc, Advancing(a, w0, x, 16, i), Advancing(a, w1, x, 16, i))
    ensures Slots(r) && TileTracks(r, Advancing(a, w0, x, 16, i + 1), Advancing(a, w1, x, 16, i + 1))
    ensures (ok && BlocksTile(r, a, w0, w1, x, k, i + 1)) == (ok0 && BlocksTile(acc, a, w0, w1, x, k, i))
  {
    var p0, p1;
    TileSlot(acc, a, w0, w1, x, 16, i);
    p0, p1, ok := MaddwdPair(acc[i * 2], acc[i * 2 + 1], a[i], w0, w1, x, ok0);
    r := acc[i * 2 := p0][i * 2 + 1 := p1];
    TileTracksAdvance(acc, a, w0, w1, x, 16, i, p0, p1);
    BlocksTileStep(acc, r, a, w0, w1, x, k, i);
  }

  // One row against two weight rows.
  method MaddwdPair(acc0: seq<int>, acc1: seq<int>, row: seq<int>, w0: seq<int>, w1: seq<int>, x: nat, ghost ok0: bool)
    returns (p0: seq<int>, p1: seq<int>, ghost ok: bool)
    requires |row| == |w0| == |w1| && x + 16 <= |row| && I8s(row) && I8s(w0) && I8s(w1)
    requires |acc0| == |acc1| == 8 && Congruent(Sum(acc0), DotTo(row, w0, x)) && Congruent(Sum(acc1), DotTo(row, w1, x))
    ensures |p0| == |p1| == 8 && Congruent(Sum(p0), DotTo(row, w0, x + 16))
    ensures Congruent(Sum(p1), DotTo(row, w1, x + 16))
    ensures DotI8.IsNext(p0, acc0, row, w0, x) && DotI8.IsNext(p1, acc1, row, w1, x)
    ensures ok == (ok0 && DotI8.ExactBlock(acc0, row, w0, x) && DotI8.ExactBlock(acc1, row, w1, x))
  {
    p0, ok := DotI8.AddBlock(acc0, row, w0, x, DotTo(row, w0, x), ok0);
    p1, ok := DotI8.AddBlock(acc1, row, w1, x, DotTo(row, w1, x), ok);
  }

  method FinishMaddwd(acc: seq<seq<int>>, ghost a: seq<seq<int>>, ghost w0: seq<int>, ghost w1: seq<int>,
                      ghost k: nat, ghost ok0: bool)
    returns (r: seq<int>, ghost ok: bool)
    requires I8Rows(a, 4, k) && |w0| == |w1| == k && I8s(w0) && I8s(w1)
    requires TileAt(acc, a, w0, w1, k)
    ensures TileDots(r, a, w0, w1, k)
    ensures ok == (ok0 && BlocksTile(acc, a, w0, w1, k, k, 0))
  {
    BlocksTileDone(acc, a, w0, w1, k);
    TileIs(acc, a, w0, w1, k);
    r, ok := HsumTile(acc, a, w0, w1, k, ok0);
  }

  // What it means that a tile overflows nowhere.
  ghost predicate TileMaddwdExact(a: seq<seq<int>>, w0: seq<int>, w1: seq<int>, k: nat)
    requires I8Rows(a, 4, k) && |w0| == |w1| == k && I8s(w0) && I8s(w1)
  {
    BlocksTile(ZeroTile(), a, w0, w1, 0, k, 0)
  }

  lemma TileMaddwdFits(a: seq<seq<int>>, w0: seq<int>, w1: seq<int>, k: nat)
    requires I8Rows(a, 4, k) && |w0| == |w1| == k && I8s(w0) && I8s(w1) && k % 16 == 0
    ensures 16384 * k < LIMIT ==> TileMaddwdExact(a, w0, w1, k)
  {
    if 16384 * k < LIMIT {
      DotI8.ZeroWeighs();
      forall i | 0 <= i < 4
        ensures BlocksRow(ZeroTile(), a, w0, w1, i, 0, k)
      {
        BlocksFit(Zero(8), a[i], w0, 0, k);
        BlocksFit(Zero(8), a[i], w1, 0, k);
      }
    }
  }

  // `exact` is collected from the operations as they are performed.
  method TileMaddwd(a: seq<seq<int>>, w0: seq<int>, w1: seq<int>, k: nat) returns (r: seq<int>, ghost exact: bool)
    requires I8Rows(a, 4, k) && |w0| == |w1| == k && I8s(w0) && I8s(w1) && k % 16 == 0
    ensures TileDots(r, a, w0, w1, k)
    ensures exact == TileMaddwdExact(a, w0, w1, k)
    ensures 16384 * k < LIMIT ==> exact
  {
    var acc;
    acc, exact := MaddwdLoop(a, w0, w1, k);
    r, exact := FinishMaddwd(acc, a, w0, w1, k, exact);
    TileMaddwdFits(a, w0, w1, k);
  }

  method MaddwdLoop(a: seq<seq<int>>, w0: seq<int>, w1: seq<int>, k: nat)
    returns (acc: seq<seq<int>>, ghost exact: bool)
    requires I8Rows(a, 4, k) && |w0| == |w1| == k && I8s(w0) && I8s(w1) && k % 16 == 0
    ensures TileAt(acc, a, w0, w1, k)
    ensures (exact && BlocksTile(acc, a, w0, w1, k, k, 0)) == TileMaddwdExact(a, w0, w1, k)
  {
    acc := StartTile(a, w0, w1);
    var x := 0;
    exact := true;
    while x + 16 <= k
      invariant x <= k && x % 16 == 0
      invariant TileAt(acc, a, w0, w1, x)
      invariant (exact && BlocksTile(acc, a, w0, w1, x, k, 0)) == TileMaddwdExact(a, w0, w1, k)
    {
      acc, exact := StepMaddwd(acc, a, w0, w1, x, k, exact);
      x := x + 16;
    }
    assert x == k;
  }

  // ----- the two passes ------------------------------------------------------

  // The two weight halves of one row, and what they add up to.
  ghost predicate Halves(w: seq<int>, wa: seq<int>, wb: seq<int>) {
    IsSplit(w, wa, wb) && Within(w, 127)
  }

  lemma {:induction false} HalvesDot(a: seq<int>, w: seq<int>, wa: seq<int>, wb: seq<int>, n: nat)
    requires Halves(w, wa, wb) && n <= |a| && n <= |w|
    ensures DotTo(a, wa, n) + DotTo(a, wb, n) == DotTo(a, w, n)
  {
    if n > 0 {
      HalvesDot(a, w, wa, wb, n - 1);
      DotStep(a, w, n - 1);
      DotStep(a, wa, n - 1);
      DotStep(a, wb, n - 1);
      Distribute(a[n - 1], wa[n - 1], wb[n - 1], w[n - 1]);
    }
  }

  lemma Distribute(x: int, y: int, z: int, whole: int)
    requires y + z == whole
    ensures x * y + x * z == x * whole
  {
  }

  // Neither adding the two passes nor adding them to the register wraps a lane.
  ghost predicate ExactPasses(acc: seq<int>, a: seq<int>, wa: seq<int>, wb: seq<int>, o: nat)
    requires o + 32 <= |a| && o + 32 <= |wa| && o + 32 <= |wb|
  {
    var exact: bool :| forall b {:trigger On(b, acc)} :: On(b, acc) ==>
      (exact <==>
        && NoWrap(Chunk32(a, wa, o), Chunk32(a, wb, o))
        && NoWrap(acc, AddEpi32(Chunk32(a, wa, o), Chunk32(a, wb, o))));
    exact
  }

  // r is the register after both passes over the chunk at o.
  ghost predicate IsPassed(r: seq<int>, acc: seq<int>, a: seq<int>, wa: seq<int>, wb: seq<int>, o: nat)
    requires |acc| == 8 && o + 32 <= |a| && o + 32 <= |wa| && o + 32 <= |wb|
  {
    |r| == 8 && forall b {:trigger On(b, acc)} :: On(b, acc) ==>
      r == AddEpi32(acc, AddEpi32(Chunk32(a, wa, o), Chunk32(a, wb, o)))
  }

  lemma PassesAre(r: seq<int>, acc: seq<int>, pa: seq<int>, pb: seq<int>, a: seq<int>, wa: seq<int>, wb: seq<int>,
                  o: nat)
    requires |acc| == 8 && o + 32 <= |a| && o + 32 <= |wa| && o + 32 <= |wb|
    requires pa == Chunk32(a, wa, o) && pb == Chunk32(a, wb, o) && r == AddEpi32(acc, AddEpi32(pa, pb))
    ensures IsPassed(r, acc, a, wa, wb, o)
    ensures ExactPasses(acc, a, wa, wb, o) <==> NoWrap(pa, pb) && NoWrap(acc, AddEpi32(pa, pb))
  {
    assert On(true, acc);
  }

  // The sum of both passes over one chunk, added to the register.
  method AddPasses(acc: seq<int>, pa: seq<int>, pb: seq<int>, ghost t: int, ghost d: int, ghost ok0: bool)
    returns (r: seq<int>, ghost ok: bool)
    requires |acc| == |pa| == |pb| == 8 && Congruent(Sum(acc), t) && Sum(pa) + Sum(pb) == d
    ensures |r| == 8 && Congruent(Sum(r), t + d)
    ensures r == AddEpi32(acc, AddEpi32(pa, pb)) && ok == (ok0 && NoWrap(pa, pb) && NoWrap(acc, AddEpi32(pa, pb)))
  {
    CongruentSame(Sum(pa));
    CongruentSame(Sum(pb));
    var p;
    p, ok := AddLanes(pa, pb, Sum(pa), Sum(pb), ok0);
    r, ok := AddLanes(acc, p, t, d, ok);
  }

  // Pass A plus pass B over one chunk; neither saturates.
  method AddTwoPass(acc: seq<int>, a: seq<int>, ghost w: seq<int>, wa: seq<int>, wb: seq<int>, o: nat, ghost t: int,
                    ghost ok0: bool)
    returns (r: seq<int>, ghost ok: bool)
    requires |acc| == 8 && Congruent(Sum(acc), t)
    requires Halves(w, wa, wb) && o + 32 <= |a| && o + 32 <= |w| && U8s(a)
    ensures |r| == 8 && Congruent(Sum(r), t + (DotTo(a, w, o + 32) - DotTo(a, w, o)))
    ensures IsPassed(r, acc, a, wa, wb, o) && ok == (ok0 && ExactPasses(acc, a, wa, wb, o))
  {
    var pa, pb := Chunk32(a, wa, o), Chunk32(a, wb, o);
    PassSums(a, w, wa, wb, o);
    r, ok := AddPasses(acc, pa, pb, t, DotTo(a, w, o + 32) - DotTo(a, w, o), ok0);
    PassesAre(r, acc, pa, pb, a, wa, wb, o);
  }

  // The halves weigh at most 63 and 64 times the activations, together 32 products of at most
  // 255 * 127.
  lemma PassesFit(acc: seq<int>, a: seq<int>, w: seq<int>, wa: seq<int>, wb: seq<int>, o: nat, m: nat)
    returns (r: seq<int>)
    requires |acc| == 8 && Halves(w, wa, wb) && o + 32 <= |a| && o + 32 <= |w| && U8s(a)
    requires Weighs(acc, m) && m + 1036320 < LIMIT
    ensures ExactPasses(acc, a, wa, wb, o) && IsPassed(r, acc, a, wa, wb, o) && Weighs(r, m + 1036320)
  {
    var pa, pb := Chunk32(a, wa, o), Chunk32(a, wb, o);
    PassWeights(a, w, wa, wb, o);
    AddWeighs(pa, pb, 514080, 522240);
    var p := AddEpi32(pa, pb);
    AddWeighs(acc, p, m, 1036320);
    r := AddEpi32(acc, p);
    PassesAre(r, acc, pa, pb, a, wa, wb, o);
  }

  lemma PassWeights(a: seq<int>, w: seq<int>, wa: seq<int>, wb: seq<int>, o: nat)
    requires Halves(w, wa, wb) && o + 32 <= |a| && o + 32 <= |w| && U8s(a)
    ensures Weighs(Chunk32(a, wa, o), 514080) && Weighs(Chunk32(a, wb, o), 522240)
  {
    Chunk32Weighs(a, wa, o, 63);
    Chunk32Weighs(a, wb, o, 64);
  }

  lemma PassSums(a: seq<int>, w: seq<int>, wa: seq<int>, wb: seq<int>, o: nat)
    requires Halves(w, wa, wb) && o + 32 <= |a| && o + 32 <= |w| && U8s(a)
    ensures Sum(Chunk32(a, wa, o)) + Sum(Chunk32(a, wb, o)) == DotTo(a, w, o + 32) - DotTo(a, w, o)
  {
    Chunk32Sum(a, wa, o);
    Chunk32Sum(a, wb, o);
    HalvesDot(a, w, wa, wb, o);
    HalvesDot(a, w, wa, wb, o + 32);
  }

  // From entry x on, neither pass over a chunk and no node of the shuffle tree leaves i32.
  ghost predicate PassesExact(acc: seq<int>, row: seq<int>, wa: seq<int>, wb: seq<int>, x: nat, k: nat)
    requires |acc| == 8 && x <= k <= |row| && k <= |wa| && k <= |wb|
    decreases k - x
  {
    var exact: bool :| forall b {:trigger On(b, acc)} :: On(b, acc) ==> (exact <==>
      if x + 32 <= k then
        && ExactPasses(acc, row, wa, wb, x)
        && PassesExact(AddEpi32(acc, AddEpi32(Chunk32(row, wa, x), Chunk32(row, wb, x))), row, wa, wb, x + 32, k)
      else
        ShuffledExact(acc));
    exact
  }

  lemma PassesStep(acc: seq<int>, r: seq<int>, row: seq<int>, wa: seq<int>, wb: seq<int>, x: nat, k: nat)
    requires |acc| == 8 && x + 32 <= k <= |row| && k <= |wa| && k <= |wb| && IsPassed(r, acc, row, wa, wb, x)
    ensures PassesExact(acc, row, wa, wb, x, k) <==>
      ExactPasses(acc, row, wa, wb, x) && PassesExact(r, row, wa, wb, x + 32, k)
  {
    assert On(true, acc);
  }

  lemma PassesEnd(acc: seq<int>, row: seq<int>, wa: seq<int>, wb: seq<int>, k: nat)
    requires |acc| == 8 && k <= |row| && k <= |wa| && k <= |wb|
    ensures PassesExact(acc, row, wa, wb, k, k) <==> ShuffledExact(acc)
  {
    assert On(true, acc);
  }

  lemma {:induction false} PassRunFits(acc: seq<int>, row: seq<int>, w: seq<int>, wa: seq<int>, wb: seq<int>, x: nat,
                                       k: nat)
    requires |acc| == 8 && x <= k <= |row| && k <= |w| && U8s(row) && Halves(w, wa, wb) && (k - x) % 32 == 0
    requires 32385 * k < LIMIT && Weighs(acc, 32385 * x)
    ensures PassesExact(acc, row, wa, wb, x, k)
    decreases k - x
  {
    if x + 32 <= k {
      var r := PassesFit(acc, row, w, wa, wb, x, 32385 * x);
      PassRunFits(r, row, w, wa, wb, x + 32, k);
      PassesStep(acc, r, row, wa, wb, x, k);
    } else {
      ShuffledWeighs(acc, 32385 * x);
      PassesEnd(acc, row, wa, wb, k);
    }
  }

  // Both halves of two weight rows.
  ghost predicate AllHalves(w0: seq<int>, wa0: seq<int>, wb0: seq<int>, w1: seq<int>, wa1: seq<int>, wb1: seq<int>,
                            k: nat) {
    && |w0| == |wa0| == |wb0| == |w1| == |wa1| == |wb1| == k
    && forall b {:trigger On(b, w0)} :: On(b, w0) ==> Halves(w0, wa0, wb0) && Halves(w1, wa1, wb1)
  }

  lemma HalvesAre(w0: seq<int>, wa0: seq<int>, wb0: seq<int>, w1: seq<int>, wa1: seq<int>, wb1: seq<int>, k: nat)
    requires AllHalves(w0, wa0, wb0, w1, wa1, wb1, k)
    ensures Halves(w0, wa0, wb0) && Halves(w1, wa1, wb1)
  {
    assert On(true, w0);
  }

  // Both registers of row i, from entry x on.
  ghost predicate PassesRow(acc: seq<seq<int>>, a: seq<seq<int>>, wa0: seq<int>, wb0: seq<int>, wa1: seq<int>,
                            wb1: seq<int>, i: nat, x: nat, k: nat)
    requires Slots(acc) && Rows(a, 4, k) && |wa0| == |wb0| == |wa1| == |wb1| == k && x <= k && i < 4
  {
    PassesExact(acc[2 * i], a[i], wa0, wb0, x, k) && PassesExact(acc[2 * i + 1], a[i], wa1, wb1, x, k)
  }

  // The registers of a tile, those of the first `ready` rows one chunk ahead.
  ghost predicate PassesTile(acc: seq<seq<int>>, a: seq<seq<int>>, wa0: seq<int>, wb0: seq<int>, wa1: seq<int>,
                             wb1: seq<int>, x: nat, k: nat, ready: nat)
    requires Slots(acc) && Rows(a, 4, k) && |wa0| == |wb0| == |wa1| == |wb1| == k && x <= k
    requires (ready > 0 ==> x + 32 <= k)
  {
    && PassesRow(acc, a, wa0, wb0, wa1, wb1, 0, Reached(0, ready, x, 32), k)
    && PassesRow(acc, a, wa0, wb0, wa1, wb1, 1, Reached(1, ready, x, 32), k)
    && PassesRow(acc, a, wa0, wb0, wa1, wb1, 2, Reached(2, ready, x, 32), k)
    && PassesRow(acc, a, wa0, wb0, wa1, wb1, 3, Reached(3, ready, x, 32), k)
  }

  lemma PassesTileStep(acc: seq<seq<int>>, r: seq<seq<int>>, a: seq<seq<int>>, wa0: seq<int>, wb0: seq<int>,
                       wa1: seq<int>, wb1: seq<int>, x: nat, k: nat, i: nat)
    requires Slots(acc) && Slots(r) && Rows(a, 4, k) && |wa0| == |wb0| == |wa1| == |wb1| == k && x + 32 <= k && i < 4
    requires forall j :: 0 <= j < 8 && j / 2 != i ==> r[j] == acc[j]
    requires IsPassed(r[2 * i], acc[2 * i], a[i], wa0, wb0, x)
    requires IsPassed(r[2 * i + 1], acc[2 * i + 1], a[i], wa1, wb1, x)
    ensures PassesTile(acc, a, wa0, wb0, wa1, wb1, x, k, i) <==>
      && ExactPasses(acc[2 * i], a[i], wa0, wb0, x) && ExactPasses(acc[2 * i + 1], a[i], wa1, wb1, x)
      && PassesTile(r, a, wa0, wb0, wa1, wb1, x, k, i + 1)
  {
    PassesStep(acc[2 * i], r[2 * i], a[i], wa0, wb0, x, k);
    PassesStep(acc[2 * i + 1], r[2 * i + 1], a[i], wa1, wb1, x, k);
    PassesRowSame(acc, r, a, wa0, wb0, wa1, wb1, 0, Reached(0, i, x, 32), k);
    PassesRowSame(acc, r, a, wa0, wb0, wa1, wb1, 1, Reached(1, i, x, 32), k);
    PassesRowSame(acc, r, a, wa0, wb0, wa1, wb1, 2, Reached(2, i, x, 32), k);
    PassesRowSame(acc, r, a, wa0, wb0, wa1, wb1, 3, Reached(3, i, x, 32), k);
    assert PassesRow(acc, a, wa0, wb0, wa1, wb1, i, x, k) <==>
      && ExactPasses(acc[2 * i], a[i], wa0, wb0, x) && ExactPasses(acc[2 * i + 1], a[i], wa1, wb1, x)
      && PassesRow(r, a, wa0, wb0, wa1, wb1, i, x + 32, k);
  }

  lemma PassesRowSame(acc: seq<seq<int>>, r: seq<seq<int>>, a: seq<seq<int>>, wa0: seq<int>, wb0: seq<int>,
                      wa1: seq<int>, wb1: seq<int>, j: nat, y: nat, k: nat)
    requires Slots(acc) && Slots(r) && Rows(a, 4, k) && |wa0| == |wb0| == |wa1| == |wb1| == k && y <= k && j < 4
    ensures acc[2 * j] == r[2 * j] && acc[2 * j + 1] == r[2 * j + 1] ==>
      (PassesRow(acc, a, wa0, wb0, wa1, wb1, j, y, k) <==> PassesRow(r, a, wa0, wb0, wa1, wb1, j, y, k))
  {
  }

  lemma PassesTileEnds(acc: seq<seq<int>>, a: seq<seq<int>>, wa0: seq<int>, wb0: seq<int>, wa1: seq<int>,
                       wb1: seq<int>, x: nat, k: nat)
    requires Slots(acc) && Rows(a, 4, k) && |wa0| == |wb0| == |wa1| == |wb1| == k && x + 32 <= k
    ensures PassesTile(acc, a, wa0, wb0, wa1, wb1, x, k, 4) <==> PassesTile(acc, a, wa0, wb0, wa1, wb1, x + 32, k, 0)
  {
  }

  lemma PassesTileDone(acc: seq<seq<int>>, a: seq<seq<int>>, wa0: seq<int>, wb0: seq<int>, wa1: seq<int>,
                       wb1: seq<int>, k: nat)
    requires Slots(acc) && Rows(a, 4, k) && |wa0| == |wb0| == |wa1| == |wb1| == k
    ensures PassesTile(acc, a, wa0, wb0, wa1, wb1, k, k, 0) <==>
      forall i :: 0 <= i < 4 ==> ShuffledExact(acc[2 * i]) && ShuffledExact(acc[2 * i + 1])
  {
    forall i | 0 <= i < 4
      ensures PassesRow(acc, a, wa0, wb0, wa1, wb1, i, k, k) <==>
        ShuffledExact(acc[2 * i]) && ShuffledExact(acc[2 * i + 1])
    {
      PassesEnd(acc[2 * i], a[i], wa0, wb0, k);
      PassesEnd(acc[2 * i + 1], a[i], wa1, wb1, k);
    }
  }

  method StepTwoPass(acc: seq<seq<int>>, a: seq<seq<int>>, ghost w0: seq<int>, wa0: seq<int>, wb0: seq<int>,
                     ghost w1: seq<int>, wa1: seq<int>, wb1: seq<int>, x: nat, k: nat, ghost ok0: bool)
    returns (r: seq<seq<int>>, ghost ok: bool)
    requires Rows(a, 4, k) && AllHalves(w0, wa0, wb0, w1, wa1, wb1, k) && x + 32 <= k
    requires TileAt(acc, a, w0, w1, x)
    ensures TileAt(r, a, w0, w1, x + 32)
    ensures (ok && PassesTile(r, a, wa0, wb0, wa1, wb1, x + 32, k, 0))
      == (ok0 && PassesTile(acc, a, wa0, wb0, wa1, wb1, x, k, 0))
  {
    r, ok := acc, ok0;
    TileIs(acc, a, w0, w1, x);
    AdvanceEnds(a, w0, x, 32);
    AdvanceEnds(a, w1, x, 32);
    for i := 0 to 4
      invariant Slots(r) && TileTracks(r, Advancing(a, w0, x, 32, i), Advancing(a, w1, x, 32, i))
      invariant (ok && PassesTile(r, a, wa0, wb0, wa1, wb1, x, k, i))
        == (ok0 && PassesTile(acc, a, wa0, wb0, wa1, wb1, x, k, 0))
    {
      r, ok := RowTwoPassStep(r, i, a, w0, wa0, wb0, w1, wa1, wb1, x, k, ok);
    }
    PassesTileEnds(r, a, wa0, wb0, wa1, wb1, x, k);
    TileIs(r, a, w0, w1, x + 32);
  }

  // Both registers of row i, two passes each.
  method RowTwoPassStep(acc: seq<seq<int>>, i: nat, a: seq<seq<int>>, ghost w0: seq<int>, wa0: seq<int>, wb0: seq<int>,
                        ghost w1: seq<int>, wa1: seq<int>, wb1: seq<int>, x: nat, ghost k: nat, ghost ok0: bool)
    returns (r: seq<seq<int>>, ghost ok: bool)
    requires Rows(a, 4, k) && AllHalves(w0, wa0, wb0, w1, wa1, wb1, k) && x + 32 <= k && i < 4
    requires Slots(acc) && TileTracks(acc, Advancing(a, w0, x, 32, i), Advancing(a, w1, x, 32, i))
    ensures Slots(r) && TileTracks(r, Advancing(a, w0, x, 32, i + 1), Advancing(a, w1, x, 32, i + 1))
    ensures (ok && PassesTile(r, a, wa0, wb0, wa1, wb1, x, k, i + 1))
      == (ok0 && PassesTile(acc, a, wa0, wb0, wa1, wb1, x, k, i))
  {
    var p0, p1;
    TileSlot(acc, a, w0, w1, x, 32, i);
    p0, p1, ok := PassesPair(acc[i * 2], acc[i * 2 + 1], a[i], w0, wa0, wb0, w1, wa1, wb1, x, k, ok0);
    r := acc[i * 2 := p0][i * 2 + 1 := p1];
    TileTracksAdvance(acc, a, w0, w1, x, 32, i, p0, p1);
    PassesTileStep(acc, r, a, wa0, wb0, wa1, wb1, x, k, i);
  }

  // One row against two split weight rows.
  method PassesPair(acc0: seq<int>, acc1: seq<int>, row: seq<int>, ghost w0: seq<int>, wa0: seq<int>, wb0: seq<int>,
                    ghost w1: seq<int>, wa1: seq<int>, wb1: seq<int>, x: nat, ghost k: nat, ghost ok0: bool)
    returns (p0: seq<int>, p1: seq<int>, ghost ok: bool)
    requires |row| == k && U8s(row) && AllHalves(w0, wa0, wb0, w1, wa1, wb1, k) && x + 32 <= k
    requires |acc0| == |acc1| == 8 && Congruent(Sum(acc0), DotTo(row, w0, x)) && Congruent(Sum(acc1), DotTo(row, w1, x))
    ensures |p0| == |p1| == 8 && Congruent(Sum(p0), DotTo(row, w0, x + 32))
    ensures Congruent(Sum(p1), DotTo(row, w1, x + 32))
    ensures IsPassed(p0, acc0, row, wa0, wb0, x) && IsPassed(p1, acc1, row, wa1, wb1, x)
    ensures ok == (ok0 && ExactPasses(acc0, row, wa0, wb0, x) && ExactPasses(acc1, row, wa1, wb1, x))
  {
    HalvesAre(w0, wa0, wb0, w1, wa1, wb1, k);
    p0, ok := AddTwoPass(acc0, row, w0, wa0, wb0, x, DotTo(row, w0, x), ok0);
    p1, ok := AddTwoPass(acc1, row, w1, wa1, wb1, x, DotTo(row, w1, x), ok);
  }

  method FinishTwoPass(acc: seq<seq<int>>, ghost a: seq<seq<int>>, ghost w0: seq<int>, ghost wa0: seq<int>,
                       ghost wb0: seq<int>,
                       ghost w1: seq<int>, ghost wa1: seq<int>, ghost wb1: seq<int>, ghost k: nat, ghost ok0: bool)
    returns (r: seq<int>, ghost ok: bool)
    requires Rows(a, 4, k) && AllHalves(w0, wa0, wb0, w1, wa1, wb1, k)
    requires TileAt(acc, a, w0, w1, k)
    ensures TileDots(r, a, w0, w1, k)
    ensures ok == (ok0 && PassesTile(acc, a, wa0, wb0, wa1, wb1, k, k, 0))
  {
    PassesTileDone(acc, a, wa0, wb0, wa1, wb1, k);
    TileIs(acc, a, w0, w1, k);
    r, ok := HsumTile(acc, a, w0, w1, k, ok0);
  }

  // What it means that a two-pass tile overflows nowhere.
  ghost predicate TileTwoPassExact(a: seq<seq<int>>, wa0: seq<int>, wb0: seq<int>, wa1: seq<int>, wb1: seq<int>, k: nat)
    requires Rows(a, 4, k) && |wa0| == |wb0| == |wa1| == |wb1| == k
  {
    PassesTile(ZeroTile(), a, wa0, wb0, wa1, wb1, 0, k, 0)
  }

  lemma TileTwoPassFits(a: seq<seq<int>>, w0: seq<int>, wa0: seq<int>, wb0: seq<int>, w1: seq<int>, wa1: seq<int>,
                        wb1: seq<int>, k: nat)
    requires Rows(a, 4, k) && AllHalves(w0, wa0, wb0, w1, wa1, wb1, k) && k % 32 == 0
    ensures 32385 * k < LIMIT ==> TileTwoPassExact(a, wa0, wb0, wa1, wb1, k)
  {
    if 32385 * k < LIMIT {
      HalvesAre(w0, wa0, wb0, w1, wa1, wb1, k);
      DotI8.ZeroWeighs();
      forall i | 0 <= i < 4
        ensures PassesRow(ZeroTile(), a, wa0, wb0, wa1, wb1, i, 0, k)
      {
        PassRunFits(Zero(8), a[i], w0, wa0, wb0, 0, k);
        PassRunFits(Zero(8), a[i], w1, wa1, wb1, 0, k);
      }
    }
  }

  // `exact` is collected from the operations as they are performed.
  method TileTwoPass(a: seq<seq<int>>, ghost w0: seq<int>, wa0: seq<int>, wb0: seq<int>,
                     ghost w1: seq<int>, wa1: seq<int>, wb1: seq<int>, k: nat)
    returns (r: seq<int>, ghost exact: bool)
    requires Rows(a, 4, k) && AllHalves(w0, wa0, wb0, w1, wa1, wb1, k) && k % 32 == 0
    ensures TileDots(r, a, w0, w1, k)
    ensures exact == TileTwoPassExact(a, wa0, wb0, wa1, wb1, k)
    ensures 32385 * k < LIMIT ==> exact
  {
    var acc;
    acc, exact := TwoPassLoop(a, w0, wa0, wb0, w1, wa1, wb1, k);
    r, exact := FinishTwoPass(acc, a, w0, wa0, wb0, w1, wa1, wb1, k, exact);
    TileTwoPassFits(a, w0, wa0, wb0, w1, wa1, wb1, k);
  }

  method TwoPassLoop(a: seq<seq<int>>, ghost w0: seq<int>, wa0: seq<int>, wb0: seq<int>,
                     ghost w1: seq<int>, wa1: seq<int>, wb1: seq<int>, k: nat)
    returns (acc: seq<seq<int>>, ghost exact: bool)
    requires Rows(a, 4, k) && AllHalves(w0, wa0, wb0, w1, wa1, wb1, k) && k % 32 == 0
    ensures TileAt(acc, a, w0, w1, k)
    ensures (exact && PassesTile(acc, a, wa0, wb0, wa1, wb1, k, k, 0)) == TileTwoPassExact(a, wa0, wb0, wa1, wb1, k)
  {
    acc := StartTile(a, w0, w1);
    var x := 0;
    exact := true;
    while x + 32 <= k
      invariant x <= k && x % 32 == 0
      invariant TileAt(acc, a, w0, w1, x)
      invariant (exact && PassesTile(acc, a, wa0, wb0, wa1, wb1, x, k, 0)) == TileTwoPassExact(a, wa0, wb0, wa1, wb1, k)
    {
      acc, exact := StepTwoPass(acc, a, w0, wa0, wb0, w1, wa1, wb1, x, k, exact);
      x := x + 32;
    }
    assert x == k;
  }

  // ----- the two GEMMs -------------------------------------------------------

  // The scalar reference of one output.
  ghost function RefDot(a: seq<int>, w: seq<int>, m: nat, n: nat, k: nat, r: int, o: int): int {
    if 0 <= r < m && 0 <= o < n && |a| == m * k && |w| == n * k then
      DotRef(Row(a, r, m, k), Row(w, o, n, k))
    else
      0
  }

  ghost function Reference(a: seq<int>, w: seq<int>, m: nat, n: nat, k: nat): (int, int) -> int {
    (r: int, o: int) => RefDot(a, w, m, n, k, r, o)
  }

  // The reference in plain addresses.
  lemma ReferenceIs(a: seq<int>, w: seq<int>, m: nat, n: nat, k: nat, r: nat, o: nat, p: seq<int>, at: nat)
    requires |a| == m * k && |w| == n * k && r < m && o < n && AreProducts(p, a, w, r, o, k) && at == r * n + o
    ensures at < m * n && Table(m, n, Reference(a, w, m, n, k))[at] == Wrap32(SumTo(p, k))
  {
    RowProducts(p, a, w, m, n, r, o, k);
    DotIsSum(Row(a, r, m, k), Row(w, o, n, k), p, k);
    assert Index(r, o, m, n) == at && Reference(a, w, m, n, k)(r, o) == RefDot(a, w, m, n, k, r, o);
  }

  ghost predicate Storing(a: seq<int>, w: seq<int>, m: nat, n: nat, k: nat,
                          out: array<int>, was: seq<int>, done: Stores)
    reads out
  {
    && |a| == m * k && |w| == n * k && I8s(a) && I8s(w) && n > 0 && n % 2 == 0
    && Progress(out, was, m, n, Reference(a, w, m, n, k), done)
  }

  // Store a tile: slot 2r in row r and column o, slot 2r + 1 in column o + 1.
  method StoreTile(ghost a: seq<int>, ghost w: seq<int>, m: nat, n: nat, ghost k: nat, out: array<int>, r0: nat, o: nat,
                   v: seq<int>, ghost was: seq<int>, ghost done0: Stores)
    returns (ghost done: Stores)
    requires Storing(a, w, m, n, k, out, was, done0)
    requires r0 + 4 <= m && o + 2 <= n && |v| == 8 && Free(done0, r0, r0 + 4, o, o + 2)
    requires forall i :: 0 <= i < 4 ==>
      v[i * 2] == RefDot(a, w, m, n, k, r0 + i, o) && v[i * 2 + 1] == RefDot(a, w, m, n, k, r0 + i, o + 1)
    modifies out
    ensures Storing(a, w, m, n, k, out, was, done)
    ensures Adds(done0, done, r0, r0 + 4, o, o + 2)
  {
    done := done0;
    for r := 0 to 4
      invariant Storing(a, w, m, n, k, out, was, done)
      invariant Adds(done0, done, r0, r0 + r, o, o + 2)
    {
      done := StorePair(a, w, m, n, k, out, r0, r, o, v[r * 2], v[r * 2 + 1], was, done);
    }
  }

  // Both columns of one row.
  method StorePair(ghost a: seq<int>, ghost w: seq<int>, m: nat, n: nat, ghost k: nat, out: array<int>, r0: nat, r: nat,
                   o: nat, x: int, y: int, ghost was: seq<int>, ghost done0: Stores)
    returns (ghost done: Stores)
    requires Storing(a, w, m, n, k, out, was, done0)
    requires r0 + r < m && o + 2 <= n && Free(done0, r0 + r, r0 + r + 1, o, o + 2)
    requires x == RefDot(a, w, m, n, k, r0 + r, o) && y == RefDot(a, w, m, n, k, r0 + r, o + 1)
    modifies out
    ensures Storing(a, w, m, n, k, out, was, done)
    ensures Adds(done0, done, r0 + r, r0 + r + 1, o, o + 2)
  {
    done := StoreCell(out, m, n, r0, r, o, x, was, Reference(a, w, m, n, k), done0);
    done := StoreCell(out, m, n, r0, r, o + 1, y, was, Reference(a, w, m, n, k), done);
  }

  function Quad(a: seq<int>, r0: nat, m: nat, k: nat): (rows: seq<seq<int>>)
    requires |a| == m * k && r0 + 4 <= m
    ensures |rows| == 4 && forall i :: 0 <= i < 4 ==> rows[i] == Row(a, r0 + i, m, k)
  {
    seq(4, i requires 0 <= i < 4 => Row(a, r0 + i, m, k))
  }

  // The scalar row tail.
  method RowMaddwd(a: seq<int>, w: seq<int>, m: nat, n: nat, k: nat, out: array<int>, r0: nat, rr: nat,
                   ghost was: seq<int>, ghost done0: Stores)
    returns (ghost done: Stores)
    requires Storing(a, w, m, n, k, out, was, done0) && r0 <= rr < m && Free(done0, rr, rr + 1, 0, n)
    modifies out
    ensures Storing(a, w, m, n, k, out, was, done)
    ensures Adds(done0, done, rr, rr + 1, 0, n)
  {
    done := done0;
    for o := 0 to n
      invariant Storing(a, w, m, n, k, out, was, done)
      invariant Adds(done0, done, rr, rr + 1, 0, o)
    {
      var arow, wrow := Row(a, rr, m, k), Row(w, o, n, k);
      var s, _ := DotI8.DotScalar(arow, wrow);
      assert arow[..k] == arow && wrow[..k] == wrow;
      done := StoreCell(out, m, n, r0, rr - r0, o, s, was, Reference(a, w, m, n, k), done);
    }
  }

  method MaddwdValues(ghost a: seq<int>, w: seq<int>, ghost m: nat, n: nat, k: nat, rows: seq<seq<int>>,
                      ghost r0: nat, o: nat)
    returns (v: seq<int>)
    requires |a| == m * k && |w| == n * k && I8s(a) && I8s(w) && k % 16 == 0
    requires r0 + 4 <= m && o + 2 <= n && rows == Quad(a, r0, m, k)
    ensures |v| == 8
    ensures forall i :: 0 <= i < 4 ==>
      v[i * 2] == RefDot(a, w, m, n, k, r0 + i, o) && v[i * 2 + 1] == RefDot(a, w, m, n, k, r0 + i, o + 1)
  {
    var w0, w1 := Row(w, o, n, k), Row(w, o + 1, n, k);
    ghost var exact;
    v, exact := TileMaddwd(rows, w0, w1, k);
    forall i | 0 <= i < 4
      ensures v[i * 2] == RefDot(a, w, m, n, k, r0 + i, o) && v[i * 2 + 1] == RefDot(a, w, m, n, k, r0 + i, o + 1)
    {
      assert rows[i] == Row(a, r0 + i, m, k);
    }
  }

  method BandMaddwd(a: seq<int>, w: seq<int>, m: nat, n: nat, k: nat, out: array<int>, r0: nat,
                    ghost was: seq<int>, ghost done0: Stores)
    returns (ghost done: Stores)
    requires Storing(a, w, m, n, k, out, was, done0) && k % 16 == 0 && r0 < m
    requires Free(done0, r0, Min(m, r0 + 4), 0, n)
    modifies out
    ensures Storing(a, w, m, n, k, out, was, done)
    ensures Adds(done0, done, r0, Min(m, r0 + 4), 0, n)
  {
    if r0 + 4 > m {
      done := RowsMaddwd(a, w, m, n, k, out, r0, was, done0);
    } else {
      done := BlockMaddwd(a, w, m, n, k, out, r0, was, done0);
    }
  }

  // A short last block, row by row.
  method RowsMaddwd(a: seq<int>, w: seq<int>, m: nat, n: nat, k: nat, out: array<int>, r0: nat,
                    ghost was: seq<int>, ghost done0: Stores)
    returns (ghost done: Stores)
    requires Storing(a, w, m, n, k, out, was, done0) && r0 < m && Free(done0, r0, m, 0, n)
    modifies out
    ensures Storing(a, w, m, n, k, out, was, done)
    ensures Adds(done0, done, r0, m, 0, n)
  {
    done := done0;
    for rr := r0 to m
      invariant Storing(a, w, m, n, k, out, was, done)
      invariant Adds(done0, done, r0, rr, 0, n)
    {
      done := RowMaddwd(a, w, m, n, k, out, r0, rr, was, done);
    }
  }

  method BlockMaddwd(a: seq<int>, w: seq<int>, m: nat, n: nat, k: nat, out: array<int>, r0: nat,
                     ghost was: seq<int>, ghost done0: Stores)
    returns (ghost done: Stores)
    requires Storing(a, w, m, n, k, out, was, done0) && k % 16 == 0 && r0 + 4 <= m && Free(done0, r0, r0 + 4, 0, n)
    modifies out
    ensures Storing(a, w, m, n, k, out, was, done)
    ensures Adds(done0, done, r0, r0 + 4, 0, n)
  {
    done := done0;
    var rows := Quad(a, r0, m, k);
    var o := 0;
    while o + 2 <= n
      invariant 0 <= o <= n && o % 2 == 0
      invariant Storing(a, w, m, n, k, out, was, done)
      invariant Adds(done0, done, r0, r0 + 4, 0, o)
    {
      done := PairMaddwd(a, w, m, n, k, rows, out, r0, o, was, done);
      o := o + 2;
    }
  }

  // Four rows and two columns.
  method PairMaddwd(ghost a: seq<int>, w: seq<int>, m: nat, n: nat, k: nat, rows: seq<seq<int>>, out: array<int>,
                    r0: nat, o: nat, ghost was: seq<int>, ghost done0: Stores)
    returns (ghost done: Stores)
    requires Storing(a, w, m, n, k, out, was, done0) && k % 16 == 0
    requires r0 + 4 <= m && o + 2 <= n && rows == Quad(a, r0, m, k) && Free(done0, r0, r0 + 4, o, o + 2)
    modifies out
    ensures Storing(a, w, m, n, k, out, was, done)
    ensures Adds(done0, done, r0, r0 + 4, o, o + 2)
  {
    var v := MaddwdValues(a, w, m, n, k, rows, r0, o);
    done := StoreTile(a, w, m, n, k, out, r0, o, v, was, done0);
  }

  // Full blocks and the scalar row tail: every cell is the reference dot.
  method GemmMaddwd(a: seq<int>, w: seq<int>, m: nat, n: nat, k: nat, out: array<int>)
    returns (ghost log: seq<(int, int)>)
    requires |a| == m * k && |w| == n * k && I8s(a) && I8s(w)
    requires n > 0 && n % 2 == 0 && k % 16 == 0 && out.Length == m * n
    modifies out
    ensures out[..] == Table(m, n, Reference(a, w, m, n, k)) && StoredOnce(log, m, n)
  {
    ghost var was, done: Stores := out[..], Stores({}, []);
    ProgressStart(out, m, n, Reference(a, w, m, n, k));
    var tasks := CountTasks(m, n, 4);
    var pending := TaskSet(tasks);
    BandsStart(4, m, n, tasks);
    while pending != {}
      invariant pending <= TaskSet(tasks)
      invariant Storing(a, w, m, n, k, out, was, done)
      invariant BandsDone(done, pending, 4, m, n)
      decreases pending
    {
      var blk :| blk in pending;
      BandsFree(done, pending, 4, m, n, blk);
      ghost var before := done;
      done := BandMaddwd(a, w, m, n, k, out, TaskRow(blk, 4), was, done);
      BandsStep(before, done, pending, 4, m, n, blk);
      pending := pending - {blk};
    }
    ProgressComplete(out, was, m, n, Reference(a, w, m, n, k), done);
    log := done.log;
  }

  // Row o of the split weights is the split of row o.
  lemma SplitRows(w: seq<int>, wa: seq<int>, wb: seq<int>, n: nat, k: nat, o: nat)
    requires |w| == n * k && o < n && IsSplit(w, wa, wb) && Within(w, 127)
    ensures Halves(Row(w, o, n, k), Row(wa, o, n, k), Row(wb, o, n, k))
  {
    RowAt(w, o, n, k);
    RowAt(wa, o, n, k);
    RowAt(wb, o, n, k);
  }

  // The offset of 128 per activation cancels against the weight sum, modulo 2^32.
  lemma OffsetCancels(a: seq<int>, au8: seq<int>, w: seq<int>)
    requires |a| == |w| && IsShifted(a, au8)
    ensures Wrap32(DotRef(au8, w) - Wrap32(128 * Wrap32(Sum(w)))) == DotRef(a, w)
  {
    MaddubsGemm.SignOffset(au8, w, |w|);
    MaddubsGemm.WrappedDifference(Dot(au8, w), Sum(w));
    assert MaddubsGemm.Centred(au8) == a;
  }

  lemma ShiftedRow(a: seq<int>, au8: seq<int>, m: nat, k: nat, r: nat)
    requires |a| == m * k && r < m && I8s(a) && IsShifted(a, au8)
    ensures IsShifted(Row(a, r, m, k), Row(au8, r, m, k)) && U8s(Row(au8, r, m, k))
  {
    RowAt(a, r, m, k);
    RowAt(au8, r, m, k);
  }

  // A two-pass dot less the column correction is the reference dot.
  lemma CorrectedDot(a: seq<int>, w: seq<int>, m: nat, n: nat, k: nat, au8: seq<int>, colsum: seq<int>, r: nat,
                     o: nat, t: int)
    requires |a| == m * k && |w| == n * k && I8s(a) && IsShifted(a, au8) && IsColSum(w, n, k, colsum)
    requires r < m && o < n && t == DotRef(Row(au8, r, m, k), Row(w, o, n, k))
    ensures Wrap32(t - Wrap32(128 * colsum[o])) == RefDot(a, w, m, n, k, r, o)
  {
    ShiftedRow(a, au8, m, k, r);
    OffsetCancels(Row(a, r, m, k), Row(au8, r, m, k), Row(w, o, n, k));
  }

  // Correct a two-pass tile by the column sums and store it, row by row.
  method StoreCorrected(ghost a: seq<int>, ghost w: seq<int>, m: nat, n: nat, k: nat,
                        ghost au8: seq<int>, colsum: seq<int>, out: array<int>, r0: nat, o: nat, t: seq<int>,
                        ghost was: seq<int>, ghost done0: Stores)
    returns (ghost done: Stores)
    requires Storing(a, w, m, n, k, out, was, done0)
    requires IsShifted(a, au8) && IsColSum(w, n, k, colsum)
    requires r0 + 4 <= m && o + 2 <= n && Free(done0, r0, r0 + 4, o, o + 2)
    requires IsTwoPassTile(t, w, m, n, k, au8, r0, o)
    modifies out
    ensures Storing(a, w, m, n, k, out, was, done)
    ensures Adds(done0, done, r0, r0 + 4, o, o + 2)
  {
    done := done0;
    for r := 0 to 4
      invariant Storing(a, w, m, n, k, out, was, done)
      invariant Adds(done0, done, r0, r0 + r, o, o + 2)
    {
      done := StoreCorrectedPair(a, w, m, n, k, au8, colsum, out, r0, r, o, t[r * 2], t[r * 2 + 1], was, done);
    }
  }

  // Both columns of one row.
  method StoreCorrectedPair(ghost a: seq<int>, ghost w: seq<int>, m: nat, n: nat, k: nat,
                            ghost au8: seq<int>, colsum: seq<int>, out: array<int>, r0: nat, r: nat, o: nat,
                            x: int, y: int, ghost was: seq<int>, ghost done0: Stores)
    returns (ghost done: Stores)
    requires Storing(a, w, m, n, k, out, was, done0)
    requires IsShifted(a, au8) && IsColSum(w, n, k, colsum)
    requires r0 + r < m && o + 2 <= n && Free(done0, r0 + r, r0 + r + 1, o, o + 2)
    requires x == DotRef(Row(au8, r0 + r, m, k), Row(w, o, n, k))
    requires y == DotRef(Row(au8, r0 + r, m, k), Row(w, o + 1, n, k))
    modifies out
    ensures Storing(a, w, m, n, k, out, was, done)
    ensures Adds(done0, done, r0 + r, r0 + r + 1, o, o + 2)
  {
    done := StoreCorrectedCell(a, w, m, n, k, au8, colsum, out, r0, r, o, x, was, done0);
    done := StoreCorrectedCell(a, w, m, n, k, au8, colsum, out, r0, r, o + 1, y, was, done);
  }

  method StoreCorrectedCell(ghost a: seq<int>, ghost w: seq<int>, m: nat, n: nat, ghost k: nat,
                            ghost au8: seq<int>, colsum: seq<int>, out: array<int>, r0: nat, r: nat, o: nat, x: int,
                            ghost was: seq<int>, ghost done0: Stores)
    returns (ghost done: Stores)
    requires Storing(a, w, m, n, k, out, was, done0)
    requires IsShifted(a, au8) && IsColSum(w, n, k, colsum)
    requires r0 + r < m && o < n && (r0 + r, o) !in done0.cells
    requires x == DotRef(Row(au8, r0 + r, m, k), Row(w, o, n, k))
    modifies out
    ensures Storing(a, w, m, n, k, out, was, done)
    ensures done == done0.Add(r0 + r, o)
  {
    CorrectedDot(a, w, m, n, k, au8, colsum, r0 + r, o, x);
    done := StoreCell(out, m, n, r0, r, o, Wrap32(x - Wrap32(128 * colsum[o])), was, Reference(a, w, m, n, k), done0);
  }

  // The uncorrected dots of a tile: shifted rows r0 .. r0 + 4 against weight rows o and o + 1.
  ghost predicate IsTwoPassTile(t: seq<int>, w: seq<int>, m: nat, n: nat, k: nat, au8: seq<int>, r0: nat, o: nat)
    requires |au8| == m * k && |w| == n * k && r0 + 4 <= m && o + 2 <= n
  {
    |t| == 8 && forall i :: 0 <= i < 4 ==>
      t[i * 2] == DotRef(Row(au8, r0 + i, m, k), Row(w, o, n, k))
      && t[i * 2 + 1] == DotRef(Row(au8, r0 + i, m, k), Row(w, o + 1, n, k))
  }

  method TwoPassTile(ghost a: seq<int>, ghost w: seq<int>, m: nat, n: nat, k: nat,
                     au8: seq<int>, wa: seq<int>, wb: seq<int>, r0: nat, o: nat)
    returns (t: seq<int>)
    requires |a| == m * k && |w| == n * k && I8s(a) && Within(w, 127) && k % 32 == 0
    requires IsShifted(a, au8) && IsSplit(w, wa, wb) && r0 + 4 <= m && o + 2 <= n
    ensures IsTwoPassTile(t, w, m, n, k, au8, r0, o)
  {
    SplitRows(w, wa, wb, n, k, o);
    SplitRows(w, wa, wb, n, k, o + 1);
    var rows := Quad(au8, r0, m, k);
    forall i | 0 <= i < 4 ensures |rows[i]| == k && U8s(rows[i]) { ShiftedRow(a, au8, m, k, r0 + i); }
    ghost var exact;
    t, exact := TileTwoPass(rows, Row(w, o, n, k), Row(wa, o, n, k), Row(wb, o, n, k),
                     Row(w, o + 1, n, k), Row(wa, o + 1, n, k), Row(wb, o + 1, n, k), k);
  }

  // What the two-pass GEMM is given, folded behind a key while it is only passed along.
  ghost predicate Operands(a: seq<int>, w: seq<int>, m: nat, n: nat, k: nat,
                           au8: seq<int>, wa: seq<int>, wb: seq<int>, colsum: seq<int>)
  {
    forall b {:trigger On(b, colsum)} :: On(b, colsum) ==>
      && |a| == m * k && |w| == n * k && I8s(a) && Within(w, 127) && k % 32 == 0
      && IsShifted(a, au8) && IsSplit(w, wa, wb) && IsColSum(w, n, k, colsum)
  }

  lemma OperandsAre(a: seq<int>, w: seq<int>, m: nat, n: nat, k: nat,
                    au8: seq<int>, wa: seq<int>, wb: seq<int>, colsum: seq<int>)
    requires Operands(a, w, m, n, k, au8, wa, wb, colsum)
    ensures |a| == m * k && |w| == n * k && I8s(a) && Within(w, 127) && k % 32 == 0
    ensures IsShifted(a, au8) && IsSplit(w, wa, wb) && IsColSum(w, n, k, colsum)
  {
    assert On(true, colsum);
  }

  method BlockTwoPass(ghost a: seq<int>, ghost w: seq<int>, m: nat, n: nat, k: nat,
                      au8: seq<int>, wa: seq<int>, wb: seq<int>, colsum: seq<int>, out: array<int>, r0: nat,
                      ghost was: seq<int>, ghost done0: Stores)
    returns (ghost done: Stores)
    requires Storing(a, w, m, n, k, out, was, done0) && Operands(a, w, m, n, k, au8, wa, wb, colsum)
    requires r0 + 4 <= m && Free(done0, r0, r0 + 4, 0, n)
    modifies out
    ensures Storing(a, w, m, n, k, out, was, done)
    ensures Adds(done0, done, r0, r0 + 4, 0, n)
  {
    done := done0;
    var o := 0;
    while o + 2 <= n
      invariant 0 <= o <= n && o % 2 == 0
      invariant Storing(a, w, m, n, k, out, was, done)
      invariant Adds(done0, done, r0, r0 + 4, 0, o)
    {
      done := PairTwoPass(a, w, m, n, k, au8, wa, wb, colsum, out, r0, o, was, done);
      o := o + 2;
    }
  }

  // Four rows and two columns.
  method PairTwoPass(ghost a: seq<int>, ghost w: seq<int>, m: nat, n: nat, k: nat,
                     au8: seq<int>, wa: seq<int>, wb: seq<int>, colsum: seq<int>, out: array<int>, r0: nat, o: nat,
                     ghost was: seq<int>, ghost done0: Stores)
    returns (ghost done: Stores)
    requires Storing(a, w, m, n, k, out, was, done0) && Operands(a, w, m, n, k, au8, wa, wb, colsum)
    requires r0 + 4 <= m && o + 2 <= n && Free(done0, r0, r0 + 4, o, o + 2)
    modifies out
    ensures Storing(a, w, m, n, k, out, was, done)
    ensures Adds(done0, done, r0, r0 + 4, o, o + 2)
  {
    OperandsAre(a, w, m, n, k, au8, wa, wb, colsum);
    var t := TwoPassTile(a, w, m, n, k, au8, wa, wb, r0, o);
    done := StoreCorrected(a, w, m, n, k, au8, colsum, out, r0, o, t, was, done0);
  }

  // Where a block of four that starts at a multiple of four ends.
  lemma BlockEnd(m: nat, r0: nat)
    requires r0 % 4 == 0
    ensures Min(m - m % 4, r0 + 4) == if r0 + 4 <= m then r0 + 4 else m - m % 4
    ensures r0 + 4 > m ==> m - m % 4 <= r0
  {
  }

  // A short last block is skipped.
  method BandTwoPass(ghost a: seq<int>, ghost w: seq<int>, m: nat, n: nat, k: nat,
                     au8: seq<int>, wa: seq<int>, wb: seq<int>, colsum: seq<int>, out: array<int>, r0: nat,
                     ghost was: seq<int>, ghost done0: Stores)
    returns (ghost done: Stores)
    requires Storing(a, w, m, n, k, out, was, done0) && Operands(a, w, m, n, k, au8, wa, wb, colsum)
    requires r0 % 4 == 0 && Free(done0, r0, Min(m - m % 4, r0 + 4), 0, n)
    modifies out
    ensures Storing(a, w, m, n, k, out, was, done)
    ensures Adds(done0, done, r0, Min(m - m % 4, r0 + 4), 0, n)
  {
    BlockEnd(m, r0);
    if r0 + 4 > m {
      done := done0;
      return;
    }
    done := BlockTwoPass(a, w, m, n, k, au8, wa, wb, colsum, out, r0, was, done0);
  }

  // Rows in full blocks of four become the reference dots; the m % 4 rows after them are
  // left alone, so the buffer equals the vpmaddwd one exactly where that block is full.
  method GemmTwoPass(ghost a: seq<int>, ghost w: seq<int>, m: nat, n: nat, k: nat,
                     au8: seq<int>, wa: seq<int>, wb: seq<int>, colsum: seq<int>, out: array<int>)
    requires |a| == m * k && |w| == n * k && I8s(a) && Within(w, 127)
    requires n > 0 && n % 2 == 0 && k % 32 == 0 && out.Length == m * n
    requires IsShifted(a, au8) && IsSplit(w, wa, wb) && IsColSum(w, n, k, colsum)
    modifies out
    ensures FullBlocksFilled(out[..], old(out[..]), a, w, m, n, k)
    ensures m % 4 == 0 ==> out[..] == Table(m, n, Reference(a, w, m, n, k))
  {
    ghost var was := out[..];
    assert I8s(w);
    ghost var done := TwoPassBands(a, w, m, n, k, au8, wa, wb, colsum, out);
    BandsFilled(a, w, m, n, k, out, was, done);
    FilledWhole(out[..], was, a, w, m, n, k);
  }

  // Rows in full blocks of four hold the reference dots, the others what they held before.
  ghost predicate FullBlocksFilled(t: seq<int>, was: seq<int>, a: seq<int>, w: seq<int>, m: nat, n: nat, k: nat) {
    |t| == |was| == m * n && forall r, o :: 0 <= r < m && 0 <= o < n ==>
      t[Index(r, o, m, n)] == if r < m - m % 4 then RefDot(a, w, m, n, k, r, o) else was[Index(r, o, m, n)]
  }

  lemma BandsFilled(a: seq<int>, w: seq<int>, m: nat, n: nat, k: nat, out: array<int>, was: seq<int>, done: Stores)
    requires Storing(a, w, m, n, k, out, was, done)
    requires forall r, o :: (r, o) in done.cells <==> 0 <= r < m - m % 4 && 0 <= o < n
    ensures FullBlocksFilled(out[..], was, a, w, m, n, k)
  {
    forall r, o | 0 <= r < m && 0 <= o < n
      ensures out[..][Index(r, o, m, n)]
        == if r < m - m % 4 then RefDot(a, w, m, n, k, r, o) else was[Index(r, o, m, n)]
    {
      assert (r, o) in done.cells <==> r < m - m % 4;
    }
  }

  // With no short block the whole buffer is the reference.
  lemma FilledWhole(t: seq<int>, was: seq<int>, a: seq<int>, w: seq<int>, m: nat, n: nat, k: nat)
    requires FullBlocksFilled(t, was, a, w, m, n, k)
    ensures m % 4 == 0 ==> t == Table(m, n, Reference(a, w, m, n, k))
  {
    if m % 4 == 0 {
      TableUnique(t, Table(m, n, Reference(a, w, m, n, k)), m, n);
    }
  }

  lemma QuadRow(blk: nat)
    ensures TaskRow(blk, 4) % 4 == 0
  {
  }

  // The row blocks in any order.
  method TwoPassBands(ghost a: seq<int>, ghost w: seq<int>, m: nat, n: nat, k: nat,
                      au8: seq<int>, wa: seq<int>, wb: seq<int>, colsum: seq<int>, out: array<int>)
    returns (ghost done: Stores)
    requires |a| == m * k && |w| == n * k && I8s(a) && I8s(w) && n > 0 && n % 2 == 0 && out.Length == m * n
    requires Operands(a, w, m, n, k, au8, wa, wb, colsum)
    modifies out
    ensures Storing(a, w, m, n, k, out, old(out[..]), done)
    ensures forall r, o :: (r, o) in done.cells <==> 0 <= r < m - m % 4 && 0 <= o < n
  {
    done := Stores({}, []);
    ghost var was, mm := out[..], m - m % 4;
    ProgressStart(out, m, n, Reference(a, w, m, n, k));
    var tasks := CountTasks(m, n, 4);
    var pending := TaskSet(tasks);
    BandsStart(4, mm, n, tasks);
    while pending != {}
      invariant pending <= TaskSet(tasks)
      invariant Storing(a, w, m, n, k, out, was, done)
      invariant BandsDone(done, pending, 4, mm, n)
      decreases pending
    {
      var blk :| blk in pending;
      BandsFree(done, pending, 4, mm, n, blk);
      ghost var before := done;
      QuadRow(blk);
      done := BandTwoPass(a, w, m, n, k, au8, wa, wb, colsum, out, TaskRow(blk, 4), was, done);
      BandsStep(before, done, pending, 4, mm, n, blk);
      pending := pending - {blk};
    }
    BandsEnd(done, 4, mm, n);
  }

  // Two buffers agree on the rows in full blocks of four; the other rows of t are zero.
  ghost predicate SameButSkipped(v: seq<int>, t: seq<int>, m: nat, n: nat) {
    |v| == |t| == m * n && forall r, o :: 0 <= r < m && 0 <= o < n ==>
      t[Index(r, o, m, n)] == if r < m - m % 4 then v[Index(r, o, m, n)] else 0
  }

  lemma Compare(v: seq<int>, t: seq<int>, zeros: seq<int>, a: seq<int>, w: seq<int>, m: nat, n: nat, k: nat)
    requires v == Table(m, n, Reference(a, w, m, n, k)) && FullBlocksFilled(t, zeros, a, w, m, n, k)
    requires forall i :: 0 <= i < |zeros| ==> zeros[i] == 0
    ensures SameButSkipped(v, t, m, n) && (m % 4 == 0 ==> v == t)
  {
    FilledWhole(t, zeros, a, w, m, n, k);
    forall r, o | 0 <= r < m && 0 <= o < n
      ensures t[Index(r, o, m, n)] == if r < m - m % 4 then v[Index(r, o, m, n)] else 0
    {
      assert v[Index(r, o, m, n)] == Reference(a, w, m, n, k)(r, o);
    }
  }

  // Preparation and the two-pass GEMM on a zeroed buffer.
  method RunTwoPass(a: seq<int>, w: seq<int>, m: nat, n: nat, k: nat) returns (t: array<int>, ghost zeros: seq<int>)
    requires |a| == m * k && |w| == n * k && I8s(a) && Within(w, 127)
    requires n > 0 && n % 2 == 0 && k % 32 == 0
    ensures fresh(t) && FullBlocksFilled(t[..], zeros, a, w, m, n, k)
    ensures forall i :: 0 <= i < |zeros| ==> zeros[i] == 0
  {
    var au8, wa, wb, colsum := Prepare(a, w, m, n, k);
    t := new int[m * n](_ => 0);
    zeros := t[..];
    GemmTwoPass(a, w, m, n, k, au8, wa[..], wb[..], colsum[..], t);
  }

  // The sign-extending GEMM on a zeroed buffer.
  method RunMaddwd(a: seq<int>, w: seq<int>, m: nat, n: nat, k: nat) returns (v: array<int>)
    requires |a| == m * k && |w| == n * k && I8s(a) && I8s(w)
    requires n > 0 && n % 2 == 0 && k % 16 == 0
    ensures fresh(v) && v[..] == Table(m, n, Reference(a, w, m, n, k))
  {
    v := new int[m * n](_ => 0);
    ghost var log := GemmMaddwd(a, w, m, n, k, v);
  }

  // The benchmark's equality: from the same int8 operands both GEMMs fill their zeroed
  // buffers alike when the row count is a multiple of four; otherwise they differ at most
  // in the skipped rows, which stay zero.
  method BothGemms(a: seq<int>, w: seq<int>, m: nat, n: nat, k: nat) returns (v: array<int>, t: array<int>)
    requires |a| == m * k && |w| == n * k && I8s(a) && Within(w, 127)
    requires n > 0 && n % 2 == 0 && k % 32 == 0
    ensures v[..] == Table(m, n, Reference(a, w, m, n, k))
    ensures SameButSkipped(v[..], t[..], m, n)
    ensures m % 4 == 0 ==> v[..] == t[..]
  {
    v := RunMaddwd(a, w, m, n, k);
    ghost var zeros;
    t, zeros := RunTwoPass(a, w, m, n, k);
    Compare(v[..], t[..], zeros, a, w, m, n, k);
  }

  // The correction of one two-pass output is exact within the tile's budget.
  lemma CorrectionExact(a: seq<int>, au8: seq<int>, w: seq<int>)
    requires |a| == |w| && I8s(a) && IsShifted(a, au8) && Within(w, 127) && 32385 * |a| < LIMIT
    ensures forall n :: 0 <= n <= |w| ==> IsI32(SumTo(w, n))
    ensures IsI32(Dot(au8, w)) && IsI32(128 * Sum(w)) && IsI32(Dot(au8, w) - 128 * Sum(w))
    ensures Dot(au8, w) - 128 * Sum(w) == Dot(a, w)
  {
    MaddubsGemm.OffsetExact(au8, w, 127);
    DotExact(au8, w, 127);
    DotPrefix(MaddubsGemm.Centred(au8), w, a, w, |a|);
  }
}
