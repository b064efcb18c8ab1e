// The vpmaddubsw dot kernels: unsigned activations times narrow signed weights.
// i16 lanes saturate, i16 sums wrap and i32 sums wrap; every kernel is proved to
// leave the i32 of the plain dot product, for every length.
module MaddubsKernels {
  import opened Integers
  import opened Dots
  import opened Simd
  import opened Exactness
  import Grid

  // ----- one 32-byte chunk ---------------------------------------------------

  function Chunk16(a: seq<int>, w: seq<int>, o: nat): (r: seq<int>)
    requires o + 32 <= |a| && o + 32 <= |w|
    ensures |r| == 16
  {
    MaddubsEpi16(a[o..o + 32], w[o..o + 32])
  }

  function Chunk32(a: seq<int>, w: seq<int>, o: nat): (r: seq<int>)
    requires o + 32 <= |a| && o + 32 <= |w|
    ensures |r| == 8
  {
    MaddEpi16(Chunk16(a, w, o), Ones16())
  }

  function PairSum(x: int, y: int, x': int, y': int): int {
    x * y + x' * y'
  }

  lemma PairSumBound(x: int, y: int, x': int, y': int, b: nat)
    requires IsU8(x) && IsU8(x') && 0 - b <= y <= b && 0 - b <= y' <= b
    ensures 0 - 510 * b <= PairSum(x, y, x', y') <= 510 * b
  {
    ProductBound(x, y, 255, b);
    ProductBound(x', y', 255, b);
  }

  // Saturation never fires for any activations exactly when weights stay within 64:
  // 7-bit weights are safe, full-range int8 weights are not.
  lemma NoSaturationIff(b: nat)
    ensures (forall x, y, x', y' :: IsU8(x) && IsU8(x') && 0 - b <= y <= b && 0 - b <= y' <= b
               ==> Sat16(PairSum(x, y, x', y')) == PairSum(x, y, x', y'))
            <==> b <= 64
  {
    if b <= 64 {
      forall x, y, x', y' | IsU8(x) && IsU8(x') && 0 - b <= y <= b && 0 - b <= y' <= b
        ensures Sat16(PairSum(x, y, x', y')) == PairSum(x, y, x', y')
      {
        PairSumBound(x, y, x', y', b);
      }
    } else {
      assert PairSum(255, 65, 255, 65) == 33150;
      assert Sat16(PairSum(255, 65, 255, 65)) != PairSum(255, 65, 255, 65);
    }
  }

  lemma Chunk16Lanes(a: seq<int>, w: seq<int>, o: nat, b: nat)
    requires o + 32 <= |a| && o + 32 <= |w|
    requires U8s(a) && Within(w, b) && b <= 64
    ensures var c := Chunk16(a, w, o);
      forall i :: 0 <= i < 16 ==>
        c[i] == PairSum(a[o + 2 * i], w[o + 2 * i], a[o + 2 * i + 1], w[o + 2 * i + 1])
        && 0 - 510 * b <= c[i] <= 510 * b
  {
    var c := Chunk16(a, w, o);
    forall i | 0 <= i < 16
      ensures c[i] == PairSum(a[o + 2 * i], w[o + 2 * i], a[o + 2 * i + 1], w[o + 2 * i + 1])
      ensures 0 - 510 * b <= c[i] <= 510 * b
    {
      PairSumBound(a[o + 2 * i], w[o + 2 * i], a[o + 2 * i + 1], w[o + 2 * i + 1], b);
    }
  }

  lemma {:induction false} PairSumsTo(a: seq<int>, w: seq<int>, o: nat, c: seq<int>, n: nat)
    requires n <= |c| && o + 2 * |c| <= |a| && o + 2 * |c| <= |w|
    requires forall i :: 0 <= i < |c| ==>
      c[i] == PairSum(a[o + 2 * i], w[o + 2 * i], a[o + 2 * i + 1], w[o + 2 * i + 1])
    ensures SumTo(c, n) == DotTo(a, w, o + 2 * n) - DotTo(a, w, o)
  {
    if n > 0 {
      PairSumsTo(a, w, o, c, n - 1);
      DotStep(a, w, o + 2 * n - 2);
      DotStep(a, w, o + 2 * n - 1);
    }
  }

  // A chunk's i16 lanes hold exactly the 32 products it covers.
  lemma Chunk16Sum(a: seq<int>, w: seq<int>, o: nat, b: nat)
    requires o + 32 <= |a| && o + 32 <= |w|
    requires U8s(a) && Within(w, b) && b <= 64
    ensures Sum(Chunk16(a, w, o)) == DotTo(a, w, o + 32) - DotTo(a, w, o)
  {
    Chunk16Lanes(a, w, o, b);
    PairSumsTo(a, w, o, Chunk16(a, w, o), 16);
  }

  lemma Chunk32Sum(a: seq<int>, w: seq<int>, o: nat)
    requires o + 32 <= |a| && o + 32 <= |w|
    requires U8s(a) && Within(w, 64)
    ensures Sum(Chunk32(a, w, o)) == DotTo(a, w, o + 32) - DotTo(a, w, o)
  {
    Chunk16Lanes(a, w, o, 64);
    assert I16s(Chunk16(a, w, o));
    WidenSum(Chunk16(a, w, o));
    Chunk16Sum(a, w, o, 64);
  }

  // A chunk holds 32 products of at most 255 * b.
  lemma Chunk32Weighs(a: seq<int>, w: seq<int>, o: nat, b: nat)
    requires o + 32 <= |a| && o + 32 <= |w| && U8s(a) && Within(w, b) && b <= 64
    ensures Weighs(Chunk32(a, w, o), 8160 * b)
  {
    Chunk16Lanes(a, w, o, b);
    WidenedWeighs(Chunk16(a, w, o), 510 * b);
  }

  // Widening by ones adds two lanes.
  lemma WidenedWeighs(reg: seq<int>, c: nat)
    requires |reg| == 16 && Within(reg, c) && c <= 0x8000
    ensures Weighs(MaddEpi16(reg, Ones16()), 16 * c)
  {
    var d := MaddEpi16(reg, Ones16());
    forall j | 0 <= j < 8
      ensures 0 - 2 * c <= d[j] <= 2 * c
    {
      assert d[j] == Wrap32(reg[2 * j] + reg[2 * j + 1]);
      PairUnwrapped(reg[2 * j], reg[2 * j + 1], c);
    }
    LanesWeigh(d, 2 * c);
  }

  lemma PairUnwrapped(x: int, y: int, c: nat)
    requires 0 - c <= x <= c && 0 - c <= y <= c && c <= 0x8000
    ensures Wrap32(x + y) == x + y
  {
  }

  // Adding the chunk at o wraps no lane. (Here and below the key keeps registers folded in
  // proofs that only pass them along.)
  ghost predicate ExactChunk(acc: seq<int>, a: seq<int>, w: seq<int>, o: nat)
    requires o + 32 <= |a| && o + 32 <= |w|
  {
    var exact: bool :| forall b {:trigger On(b, acc)} :: On(b, acc) ==> (exact <==> NoWrap(acc, Chunk32(a, w, o)));
    exact
  }

  // r is the register after the chunk at o.
  ghost predicate IsNext(r: seq<int>, acc: seq<int>, a: seq<int>, w: seq<int>, o: nat)
    requires |acc| == 8 && o + 32 <= |a| && o + 32 <= |w|
  {
    |r| == 8 && forall b {:trigger On(b, acc)} :: On(b, acc) ==> r == AddEpi32(acc, Chunk32(a, w, o))
  }

  // One accumulation: the register total moves by the chunk's share of the dot. `ok` says
  // that no i32 addition has wrapped so far.
  method AddChunk(acc: seq<int>, a: seq<int>, w: seq<int>, o: nat, ghost t: int, ghost ok0: bool)
    returns (r: seq<int>, ghost ok: bool)
    requires |acc| == 8 && Congruent(Sum(acc), t)
    requires o + 32 <= |a| && o + 32 <= |w| && U8s(a) && Within(w, 64)
    ensures |r| == 8 && Congruent(Sum(r), t + DotTo(a, w, o + 32) - DotTo(a, w, o))
    ensures IsNext(r, acc, a, w, o) && ok == (ok0 && ExactChunk(acc, a, w, o))
  {
    var c := Chunk32(a, w, o);
    Chunk32Sum(a, w, o);
    CongruentSame(Sum(c));
    r, ok := AddLanes(acc, c, t, Sum(c), ok0);
    assert On(true, acc);
  }

  // A chunk adds at most 8160 * b of mass.
  lemma ChunkFits(acc: seq<int>, a: seq<int>, w: seq<int>, o: nat, b: nat, m: nat) returns (r: seq<int>)
    requires |acc| == 8 && o + 32 <= |a| && o + 32 <= |w| && U8s(a) && Within(w, b) && b <= 64
    requires Weighs(acc, m) && m + 8160 * b < LIMIT
    ensures ExactChunk(acc, a, w, o) && IsNext(r, acc, a, w, o) && Weighs(r, m + 8160 * b)
  {
    r := AddEpi32(acc, Chunk32(a, w, o));
    assert On(true, acc);
    Chunk32Weighs(a, w, o, b);
    AddWeighs(acc, Chunk32(a, w, o), m, 8160 * b);
  }

  // Two adjacent chunks into two registers.
  method AddPair(a0: seq<int>, a1: seq<int>, a: seq<int>, w: seq<int>, o: nat, ghost t0: int, ghost t1: int,
                 ghost ok0: bool)
    returns (r0: seq<int>, r1: seq<int>, ghost u0: int, ghost u1: int, ghost ok: bool)
    requires |a0| == |a1| == 8 && Congruent(Sum(a0), t0) && Congruent(Sum(a1), t1)
    requires o + 64 <= |a| && o + 64 <= |w| && U8s(a) && Within(w, 64)
    ensures |r0| == |r1| == 8 && Congruent(Sum(r0), u0) && Congruent(Sum(r1), u1)
    ensures u0 + u1 == t0 + t1 + DotTo(a, w, o + 64) - DotTo(a, w, o)
    ensures IsNext(r0, a0, a, w, o) && IsNext(r1, a1, a, w, o + 32)
    ensures ok == (ok0 && ExactChunk(a0, a, w, o) && ExactChunk(a1, a, w, o + 32))
  {
    r0, ok := AddChunk(a0, a, w, o, t0, ok0);
    r1, ok := AddChunk(a1, a, w, o + 32, t1, ok);
    u0 := t0 + DotTo(a, w, o + 32) - DotTo(a, w, o);
    u1 := t1 + DotTo(a, w, o + 32 + 32) - DotTo(a, w, o + 32);
  }

  lemma {:induction false} ZeroSum(lanes: nat, n: nat)
    requires n <= lanes
    ensures SumTo(Zero(lanes), n) == 0
  {
    if n > 0 { ZeroSum(lanes, n - 1); }
  }

  lemma ZeroStart()
    ensures Congruent(Sum(Zero(8)), 0) && Weighs(Zero(8), 0)
  {
    ZeroSum(8, 8);
    ZeroMass(8, 8);
    WeighsIs(Zero(8), 0);
    CongruentSame(0);
  }

  // ----- one register: chunks, stored sum, scalar tail -----------------------

  // What one or four chunks spend of the budget for k entries.
  lemma SpendChunks(b: nat, x: nat, chunks: nat, k: nat)
    requires x + 32 * chunks <= k && (chunks == 1 || chunks == 4)
    ensures Budget(255 * b, x + 32 * chunks) == Budget(255 * b, x) + 8160 * b * chunks
    ensures Budget(255 * b, x + 32 * chunks) <= Budget(255 * b, k)
  {
    Spend(255 * b, x, 32 * chunks, k);
    if chunks == 1 { BudgetIs(255 * b, 32); } else { BudgetIs(255 * b, 128); }
  }

  // From entry x on, no lane addition of a 32-wide chunk, no partial sum of the stored lanes
  // and no step of the scalar tail leaves i32.
  ghost predicate RunExact(acc: seq<int>, a: seq<int>, w: seq<int>, x: nat, k: nat)
    requires |acc| == 8 && x <= k <= |a| && k <= |w|
    decreases k - x
  {
    var exact: bool :| forall b {:trigger On(b, acc)} :: On(b, acc) ==> (exact <==>
      if x + 32 <= k then
        ExactChunk(acc, a, w, x) && RunExact(AddEpi32(acc, Chunk32(a, w, x)), a, w, x + 32, k)
      else
        StoredExact(acc) && TailExact(HsumStored(acc, 8), a, w, x, k));
    exact
  }

  lemma RunStep(acc: seq<int>, r: seq<int>, a: seq<int>, w: seq<int>, x: nat, k: nat)
    requires |acc| == 8 && x + 32 <= k <= |a| && k <= |w| && IsNext(r, acc, a, w, x)
    ensures RunExact(acc, a, w, x, k) <==> ExactChunk(acc, a, w, x) && RunExact(r, a, w, x + 32, k)
  {
    assert On(true, acc);
  }

  // s is the stored sum of the register.
  ghost predicate IsHsum(s: int, acc: seq<int>)
    requires |acc| == 8
  {
    forall b {:trigger On(b, acc)} :: On(b, acc) ==> s == HsumStored(acc, 8)
  }

  lemma RunEnd(acc: seq<int>, s: int, a: seq<int>, w: seq<int>, x: nat, k: nat)
    requires |acc| == 8 && x <= k < x + 32 && k <= |a| && k <= |w| && IsHsum(s, acc)
    ensures RunExact(acc, a, w, x, k) <==> StoredExact(acc) && TailExact(s, a, w, x, k)
  {
    assert On(true, acc);
  }

  // Within the budget the whole run is exact.
  lemma {:induction false} RunFits(acc: seq<int>, a: seq<int>, w: seq<int>, x: nat, k: nat, b: nat)
    requires |acc| == 8 && x <= k <= |a| && k <= |w| && U8s(a) && Within(w, b) && b <= 64
    requires Budget(255 * b, k) < LIMIT && Weighs(acc, Budget(255 * b, x))
    ensures RunExact(acc, a, w, x, k)
    decreases k - x
  {
    if x + 32 <= k {
      SpendChunks(b, x, 1, k);
      var r := ChunkFits(acc, a, w, x, b, Budget(255 * b, x));
      RunFits(r, a, w, x + 32, k, b);
      RunStep(acc, r, a, w, x, k);
    } else {
      var s := HsumStored(acc, 8);
      Spend(255 * b, x, 0, k);
      StoredWeighs(acc, Budget(255 * b, x));
      TailFits(s, a, w, x, k, 255, b);
      RunEnd(acc, s, a, w, x, k);
    }
  }

  // Store a register and sum its lanes.
  method HsumOne(acc: seq<int>, ghost t: int, ghost ok0: bool) returns (s: int, ghost ok: bool)
    requires |acc| == 8 && Congruent(Sum(acc), t)
    ensures IsI32(s) && Congruent(s, t)
    ensures IsHsum(s, acc) && ok == (ok0 && StoredExact(acc))
  {
    HsumStoredSum(acc, 8);
    s := HsumStored(acc, 8);
    ok := ok0 && StoredExact(acc);
    CongruentTrans(s, Sum(acc), t);
  }

  // The remaining 32-wide chunks, the horizontal sum and the scalar tail.
  method FinishChunks(a: seq<int>, w: seq<int>, k: nat, start: nat, start_acc: seq<int>, ghost ok0: bool)
    returns (s: int, ghost ok: bool)
    requires start <= k == |a| == |w| && U8s(a) && Within(w, 64)
    requires |start_acc| == 8 && Congruent(Sum(start_acc), DotTo(a, w, start))
    ensures s == DotRef(a, w)
    ensures ok == (ok0 && RunExact(start_acc, a, w, start, k))
  {
    var x, acc := start, start_acc;
    ok := ok0;
    while x + 32 <= k
      invariant start <= x <= k && |acc| == 8
      invariant Congruent(Sum(acc), DotTo(a, w, x))
      invariant (ok && RunExact(acc, a, w, x, k)) == (ok0 && RunExact(start_acc, a, w, start, k))
    {
      acc, ok := AddRow(acc, a, w, x, k, ok);
      x := x + 32;
    }
    s, ok := HsumOne(acc, DotTo(a, w, x), ok);
    RunEnd(acc, s, a, w, x, k);
    s, ok := ScalarLoop(s, a, w, x, k, ok);
    WrapUnique(s, Dot(a, w));
  }

  // ----- single-row kernel ---------------------------------------------------

  // Four adjacent chunks into four registers.
  ghost predicate IsNext4(r0: seq<int>, r1: seq<int>, r2: seq<int>, r3: seq<int>, a0: seq<int>, a1: seq<int>,
                          a2: seq<int>, a3: seq<int>, a: seq<int>, w: seq<int>, x: nat)
    requires |a0| == |a1| == |a2| == |a3| == 8 && x + 128 <= |a| && x + 128 <= |w|
  {
    IsNext(r0, a0, a, w, x) && IsNext(r1, a1, a, w, x + 32) && IsNext(r2, a2, a, w, x + 64)
    && IsNext(r3, a3, a, w, x + 96)
  }

  ghost predicate ExactChunk4(a0: seq<int>, a1: seq<int>, a2: seq<int>, a3: seq<int>, a: seq<int>, w: seq<int>, x: nat)
    requires x + 128 <= |a| && x + 128 <= |w|
  {
    ExactChunk(a0, a, w, x) && ExactChunk(a1, a, w, x + 32) && ExactChunk(a2, a, w, x + 64)
    && ExactChunk(a3, a, w, x + 96)
  }

  // From entry x on, nothing the four-accumulator loop, the fold and the rest add leaves i32.
  ghost predicate QuadExact(a0: seq<int>, a1: seq<int>, a2: seq<int>, a3: seq<int>, a: seq<int>, w: seq<int>, x: nat,
                            k: nat)
    requires |a0| == |a1| == |a2| == |a3| == 8 && x <= k <= |a| && k <= |w|
    decreases k - x
  {
    var exact: bool :| forall b {:trigger On(b, a0)} :: On(b, a0) ==> (exact <==>
      if x + 128 <= k then
        && ExactChunk4(a0, a1, a2, a3, a, w, x)
        && QuadExact(AddEpi32(a0, Chunk32(a, w, x)), AddEpi32(a1, Chunk32(a, w, x + 32)),
                     AddEpi32(a2, Chunk32(a, w, x + 64)), AddEpi32(a3, Chunk32(a, w, x + 96)), a, w, x + 128, k)
      else
        FoldExact(a0, a1, a2, a3) && RunExact(Fold4(a0, a1, a2, a3), a, w, x, k));
    exact
  }

  lemma QuadStep(a0: seq<int>, a1: seq<int>, a2: seq<int>, a3: seq<int>, r0: seq<int>, r1: seq<int>, r2: seq<int>,
                 r3: seq<int>, a: seq<int>, w: seq<int>, x: nat, k: nat)
    requires |a0| == |a1| == |a2| == |a3| == 8 && x + 128 <= k <= |a| && k <= |w|
    requires IsNext4(r0, r1, r2, r3, a0, a1, a2, a3, a, w, x)
    ensures QuadExact(a0, a1, a2, a3, a, w, x, k) <==>
      ExactChunk4(a0, a1, a2, a3, a, w, x) && QuadExact(r0, r1, r2, r3, a, w, x + 128, k)
  {
    assert On(true, a0) && On(true, a1) && On(true, a2) && On(true, a3);
  }

  lemma QuadEnd(a0: seq<int>, a1: seq<int>, a2: seq<int>, a3: seq<int>, r: seq<int>, a: seq<int>, w: seq<int>, x: nat,
                k: nat)
    requires |a0| == |a1| == |a2| == |a3| == 8 && x <= k < x + 128 && k <= |a| && k <= |w| && IsFold(r, a0, a1, a2, a3)
    ensures QuadExact(a0, a1, a2, a3, a, w, x, k) <==> FoldExact(a0, a1, a2, a3) && RunExact(r, a, w, x, k)
  {
    assert On(true, a0);
  }

  lemma QuadChunkFits(a0: seq<int>, a1: seq<int>, a2: seq<int>, a3: seq<int>, a: seq<int>, w: seq<int>, x: nat,
                      b: nat, q: nat)
    returns (r0: seq<int>, r1: seq<int>, r2: seq<int>, r3: seq<int>)
    requires |a0| == |a1| == |a2| == |a3| == 8 && x + 128 <= |a| && x + 128 <= |w| && U8s(a) && Within(w, b) && b <= 64
    requires Weighs(a0, q) && Weighs(a1, q) && Weighs(a2, q) && Weighs(a3, q) && q + 8160 * b < LIMIT
    ensures ExactChunk4(a0, a1, a2, a3, a, w, x) && IsNext4(r0, r1, r2, r3, a0, a1, a2, a3, a, w, x)
    ensures Weighs(r0, q + 8160 * b) && Weighs(r1, q + 8160 * b) && Weighs(r2, q + 8160 * b) && Weighs(r3, q + 8160 * b)
  {
    r0 := ChunkFits(a0, a, w, x, b, q);
    r1 := ChunkFits(a1, a, w, x + 32, b, q);
    r2 := ChunkFits(a2, a, w, x + 64, b, q);
    r3 := ChunkFits(a3, a, w, x + 96, b, q);
  }

  lemma {:induction false} QuadFits(a0: seq<int>, a1: seq<int>, a2: seq<int>, a3: seq<int>, a: seq<int>, w: seq<int>,
                                    x: nat, k: nat, b: nat, q: nat)
    requires |a0| == |a1| == |a2| == |a3| == 8 && x <= k <= |a| && k <= |w| && U8s(a) && Within(w, b) && b <= 64
    requires Budget(255 * b, k) < LIMIT && 4 * q == Budget(255 * b, x)
    requires Weighs(a0, q) && Weighs(a1, q) && Weighs(a2, q) && Weighs(a3, q)
    ensures QuadExact(a0, a1, a2, a3, a, w, x, k)
    decreases k - x
  {
    if x + 128 <= k {
      SpendChunks(b, x, 4, k);
      var r0, r1, r2, r3 := QuadChunkFits(a0, a1, a2, a3, a, w, x, b, q);
      QuadFits(r0, r1, r2, r3, a, w, x + 128, k, b, q + 8160 * b);
      QuadStep(a0, a1, a2, a3, r0, r1, r2, r3, a, w, x, k);
    } else {
      Spend(255 * b, x, 0, k);
      var r := FoldFits(a0, a1, a2, a3, q, q, q, q);
      RunFits(r, a, w, x, k, b);
      QuadEnd(a0, a1, a2, a3, r, a, w, x, k);
    }
  }

  // What it means that the kernel overflows nowhere.
  ghost predicate DotMaddubsExact(a: seq<int>, w: seq<int>, k: nat)
    requires |a| == |w| == k
  {
    QuadExact(Zero(8), Zero(8), Zero(8), Zero(8), a, w, 0, k)
  }

  // While 255 * b * k stays below 2^31 it does not, and its i32 is the mathematical dot.
  lemma DotMaddubsFits(a: seq<int>, w: seq<int>, k: nat, b: nat)
    requires |a| == |w| == k && U8s(a) && Within(w, b) && b <= 64
    ensures 255 * b * k < LIMIT ==> DotMaddubsExact(a, w, k) && DotRef(a, w) == Dot(a, w)
  {
    if 255 * b * k < LIMIT {
      BudgetIs(255 * b, k);
      ZeroStart();
      QuadFits(Zero(8), Zero(8), Zero(8), Zero(8), a, w, 0, k, b, 0);
      DotExact(a, w, b);
    }
  }

  method AddFour(a0: seq<int>, a1: seq<int>, a2: seq<int>, a3: seq<int>, a: seq<int>, w: seq<int>, x: nat,
                 ghost t0: int, ghost t1: int, ghost t2: int, ghost t3: int, ghost ok0: bool)
    returns (r0: seq<int>, r1: seq<int>, r2: seq<int>, r3: seq<int>,
             ghost u0: int, ghost u1: int, ghost u2: int, ghost u3: int, ghost ok: bool)
    requires |a0| == |a1| == |a2| == |a3| == 8 && x + 128 <= |a| && x + 128 <= |w| && U8s(a) && Within(w, 64)
    requires Congruent(Sum(a0), t0) && Congruent(Sum(a1), t1) && Congruent(Sum(a2), t2) && Congruent(Sum(a3), t3)
    ensures IsNext4(r0, r1, r2, r3, a0, a1, a2, a3, a, w, x) && ok == (ok0 && ExactChunk4(a0, a1, a2, a3, a, w, x))
    ensures Congruent(Sum(r0), u0) && Congruent(Sum(r1), u1) && Congruent(Sum(r2), u2) && Congruent(Sum(r3), u3)
    ensures u0 + u1 + u2 + u3 == t0 + t1 + t2 + t3 + DotTo(a, w, x + 128) - DotTo(a, w, x)
  {
    r0, r1, u0, u1, ok := AddPair(a0, a1, a, w, x, t0, t1, ok0);
    r2, r3, u2, u3, ok := AddPair(a2, a3, a, w, x + 64, t2, t3, ok);
  }

  // One turn of the loop.
  method AddQuad(a0: seq<int>, a1: seq<int>, a2: seq<int>, a3: seq<int>, a: seq<int>, w: seq<int>, x: nat, ghost k: nat,
                 ghost t0: int, ghost t1: int, ghost t2: int, ghost t3: int, ghost ok0: bool)
    returns (r0: seq<int>, r1: seq<int>, r2: seq<int>, r3: seq<int>,
             ghost u0: int, ghost u1: int, ghost u2: int, ghost u3: int, ghost ok: bool)
    requires |a0| == |a1| == |a2| == |a3| == 8 && x + 128 <= k <= |a| && k <= |w| && U8s(a) && Within(w, 64)
    requires Congruent(Sum(a0), t0) && Congruent(Sum(a1), t1) && Congruent(Sum(a2), t2) && Congruent(Sum(a3), t3)
    ensures |r0| == |r1| == |r2| == |r3| == 8
    ensures Congruent(Sum(r0), u0) && Congruent(Sum(r1), u1) && Congruent(Sum(r2), u2) && Congruent(Sum(r3), u3)
    ensures u0 + u1 + u2 + u3 == t0 + t1 + t2 + t3 + DotTo(a, w, x + 128) - DotTo(a, w, x)
    ensures (ok && QuadExact(r0, r1, r2, r3, a, w, x + 128, k)) == (ok0 && QuadExact(a0, a1, a2, a3, a, w, x, k))
  {
    r0, r1, r2, r3, u0, u1, u2, u3, ok := AddFour(a0, a1, a2, a3, a, w, x, t0, t1, t2, t3, ok0);
    QuadStep(a0, a1, a2, a3, r0, r1, r2, r3, a, w, x, k);
  }

  method FinishQuad(a0: seq<int>, a1: seq<int>, a2: seq<int>, a3: seq<int>, a: seq<int>, w: seq<int>, x: nat, k: nat,
                    ghost t0: int, ghost t1: int, ghost t2: int, ghost t3: int, ghost ok0: bool)
    returns (s: int, ghost ok: bool)
    requires |a0| == |a1| == |a2| == |a3| == 8 && x <= k < x + 128 && k == |a| == |w| && U8s(a) && Within(w, 64)
    requires Congruent(Sum(a0), t0) && Congruent(Sum(a1), t1) && Congruent(Sum(a2), t2) && Congruent(Sum(a3), t3)
    requires t0 + t1 + t2 + t3 == DotTo(a, w, x)
    ensures s == DotRef(a, w) && ok == (ok0 && QuadExact(a0, a1, a2, a3, a, w, x, k))
  {
    var acc;
    acc, ok := FoldFour(a0, a1, a2, a3, t0, t1, t2, t3, ok0);
    QuadEnd(a0, a1, a2, a3, acc, a, w, x, k);
    s, ok := FinishChunks(a, w, k, x, acc, ok);
  }

  // `exact` is collected from the operations as they are performed.
  method DotMaddubs(a: seq<int>, w: seq<int>, k: nat, ghost b: nat := 64) returns (s: int, ghost exact: bool)
    requires |a| == |w| == k && U8s(a) && Within(w, b) && b <= 64
    ensures s == DotRef(a, w)
    ensures exact == DotMaddubsExact(a, w, k)
    ensures 255 * b * k < LIMIT ==> exact && s == Dot(a, w)
  {
    var z := Zero(8);
    var a0, a1, a2, a3 := z, z, z, z;
    ZeroStart();
    var x := 0;
    ghost var t0, t1, t2, t3 := 0, 0, 0, 0;
    exact := true;
    while x + 128 <= k
      invariant x <= k && |a0| == |a1| == |a2| == |a3| == 8
      invariant Congruent(Sum(a0), t0) && Congruent(Sum(a1), t1) && Congruent(Sum(a2), t2) && Congruent(Sum(a3), t3)
      invariant t0 + t1 + t2 + t3 == DotTo(a, w, x)
      invariant (exact && QuadExact(a0, a1, a2, a3, a, w, x, k)) == QuadExact(z, z, z, z, a, w, 0, k)
    {
      a0, a1, a2, a3, t0, t1, t2, t3, exact := AddQuad(a0, a1, a2, a3, a, w, x, k, t0, t1, t2, t3, exact);
      x := x + 128;
    }
    s, exact := FinishQuad(a0, a1, a2, a3, a, w, x, k, t0, t1, t2, t3, exact);
    DotMaddubsFits(a, w, k, b);
  }

  // ----- delayed widening ----------------------------------------------------

  function WrapFold16(lanes: seq<int>, n: nat): int
    requires n <= |lanes|
  {
    if n == 0 then 0 else Wrap16(WrapFold16(lanes, n - 1) + lanes[n - 1])
  }

  lemma Wrap16Add(x: int, v: int)
    ensures Wrap16(Wrap16(x) + v) == Wrap16(x + v)
  {
  }

  lemma {:induction false} WrapFold16Is(lanes: seq<int>, n: nat)
    requires n <= |lanes|
    ensures WrapFold16(lanes, n) == Wrap16(SumTo(lanes, n))
  {
    if n > 0 {
      WrapFold16Is(lanes, n - 1);
      Wrap16Add(SumTo(lanes, n - 1), lanes[n - 1]);
    }
  }

  // One lane after f chunks: the saturated pair sums it received.
  function LanePairs(a: seq<int>, w: seq<int>, f: nat): (lanes: seq<int>)
    requires |a| == |w| == 2 * f
    ensures |lanes| == f
  {
    seq(f, i requires 0 <= i < f => Sat16(PairSum(a[2 * i], w[2 * i], a[2 * i + 1], w[2 * i + 1])))
  }

  lemma {:induction false} ConstantDot(x: int, y: int, len: nat, n: nat)
    requires n <= len
    ensures DotTo(seq(len, _ => x), seq(len, _ => y), n) == x * y * n
  {
    if n > 0 {
      ConstantDot(x, y, len, n - 1);
      DotStep(seq(len, _ => x), seq(len, _ => y), n - 1);
      assert x * y * n == x * y * (n - 1) + x * y;
    }
  }

  lemma LaneSum(a: seq<int>, w: seq<int>, f: nat, b: nat)
    requires |a| == |w| == 2 * f && U8s(a) && Within(w, b) && 510 * b <= 32767
    ensures SumTo(LanePairs(a, w, f), f) == Dot(a, w) && Within(LanePairs(a, w, f), 510 * b)
  {
    var lanes := LanePairs(a, w, f);
    forall i | 0 <= i < f
      ensures lanes[i] == PairSum(a[2 * i], w[2 * i], a[2 * i + 1], w[2 * i + 1]) && 0 - 510 * b <= lanes[i] <= 510 * b
    {
      PairSumBound(a[2 * i], w[2 * i], a[2 * i + 1], w[2 * i + 1], b);
    }
    PairSumsTo(a, w, 0, lanes, f);
  }

  // A lane whose worst total c * f fits an i16 never wraps.
  lemma LaneFits(lanes: seq<int>, f: nat, c: nat)
    requires |lanes| == f && Within(lanes, c) && c * f <= 32767
    ensures WrapFold16(lanes, f) == SumTo(lanes, f)
  {
    SumBound(lanes, f, c);
    WrapFold16Is(lanes, f);
  }

  lemma OneOfMany(c: nat, f: nat)
    requires f > 0
    ensures c <= c * f
  {
  }

  lemma LaneExact(a: seq<int>, w: seq<int>, f: nat, b: nat)
    requires |a| == |w| == 2 * f && U8s(a) && Within(w, b) && 510 * b * f <= 32767
    ensures WrapFold16(LanePairs(a, w, f), f) == Dot(a, w)
  {
    if f > 0 {
      OneOfMany(510 * b, f);
      LaneSum(a, w, f, b);
      LaneFits(LanePairs(a, w, f), f, 510 * b);
    }
  }

  // All activations at their maximum and all weights at b.
  lemma LaneOverflows(b: nat, f: nat) returns (a: seq<int>, w: seq<int>)
    requires 510 * b * f > 32767
    ensures |a| == |w| == 2 * f && U8s(a) && Within(w, b)
    ensures WrapFold16(LanePairs(a, w, f), f) != Dot(a, w)
  {
    a, w := seq(2 * f, _ => 255), seq(2 * f, _ => b);
    ConstantDot(255, b, 2 * f, 2 * f);
    assert 255 * b * (2 * f) == 510 * b * f;
    WrapFold16Is(LanePairs(a, w, f), f);
  }

  // Delaying the widening of a lane over f chunks of u8 activations and weights within b
  // keeps its share of the dot precisely when f worst-case pair sums fit an i16: four
  // chunks of 5-bit weights do, five do not.
  lemma DelayedWideningIff(b: nat, f: nat)
    ensures (forall a: seq<int>, w: seq<int> :: |a| == |w| == 2 * f && U8s(a) && Within(w, b)
               ==> WrapFold16(LanePairs(a, w, f), f) == Dot(a, w))
            <==> 510 * b * f <= 32767
  {
    if 510 * b * f <= 32767 {
      forall a: seq<int>, w: seq<int> | |a| == |w| == 2 * f && U8s(a) && Within(w, b)
        ensures WrapFold16(LanePairs(a, w, f), f) == Dot(a, w)
      {
        LaneExact(a, w, f, b);
      }
    } else {
      var _, _ := LaneOverflows(b, f);
    }
  }

  ghost function Sum4(v: seq<seq<int>>): int
    requires |v| == 4
  {
    Sum(v[0]) + Sum(v[1]) + Sum(v[2]) + Sum(v[3])
  }

  ghost predicate Registers(v: seq<seq<int>>, count: nat, lanes: nat) {
    |v| == count && forall i :: 0 <= i < count ==> |v[i]| == lanes
  }

  // One fill of one i16 register: exact, and the lane bound grows by 7650.
  lemma Fill(reg: seq<int>, a: seq<int>, w: seq<int>, o: nat, fills: nat)
    requires |reg| == 16 && Within(reg, 7650 * fills) && fills <= 3
    requires o + 32 <= |a| && o + 32 <= |w| && U8s(a) && Within(w, 15)
    ensures Within(AddEpi16(reg, Chunk16(a, w, o)), 7650 * (fills + 1))
    ensures Sum(AddEpi16(reg, Chunk16(a, w, o))) == Sum(reg) + DotTo(a, w, o + 32) - DotTo(a, w, o)
  {
    Chunk16Lanes(a, w, o, 15);
    Chunk16Sum(a, w, o, 15);
    FillLanes(reg, Chunk16(a, w, o), fills);
  }

  lemma FillLanes(reg: seq<int>, c: seq<int>, fills: nat)
    requires |reg| == |c| == 16 && Within(reg, 7650 * fills) && Within(c, 7650) && fills <= 3
    ensures Within(AddEpi16(reg, c), 7650 * (fills + 1))
    ensures Sum(AddEpi16(reg, c)) == Sum(reg) + Sum(c)
  {
    AddSum16(reg, c, 16);
  }

  // Widening a register and adding it wraps no lane.
  ghost predicate WidenExact(acc: seq<int>, reg: seq<int>)
    requires |acc| == 8 && |reg| == 16
  {
    var exact: bool :| forall b {:trigger On(b, acc)} :: On(b, acc) ==>
      (exact <==> NoWrap(acc, MaddEpi16(reg, Ones16())));
    exact
  }

  ghost predicate IsWidened(r: seq<int>, acc: seq<int>, reg: seq<int>)
    requires |acc| == 8 && |reg| == 16
  {
    |r| == 8 && forall b {:trigger On(b, acc)} :: On(b, acc) ==> r == AddEpi32(acc, MaddEpi16(reg, Ones16()))
  }

  method WidenOne(acc: seq<int>, reg: seq<int>, ghost t: int, ghost fills: nat, ghost ok0: bool)
    returns (r: seq<int>, ghost ok: bool)
    requires |acc| == 8 && |reg| == 16 && Within(reg, 7650 * fills) && fills <= 4 && Congruent(Sum(acc), t)
    ensures |r| == 8 && Congruent(Sum(r), t + Sum(reg))
    ensures IsWidened(r, acc, reg) && ok == (ok0 && WidenExact(acc, reg))
  {
    var d := MaddEpi16(reg, Ones16());
    assert I16s(reg);
    WidenSum(reg);
    CongruentSame(Sum(d));
    r, ok := AddLanes(acc, d, t, Sum(d), ok0);
    assert On(true, acc);
  }

  lemma WidenFits(acc: seq<int>, reg: seq<int>, fills: nat, m: nat) returns (r: seq<int>)
    requires |acc| == 8 && |reg| == 16 && Within(reg, 7650 * fills) && fills <= 4
    requires Weighs(acc, m) && m + 122400 * fills < LIMIT
    ensures WidenExact(acc, reg) && IsWidened(r, acc, reg) && Weighs(r, m + 122400 * fills)
  {
    r := AddEpi32(acc, MaddEpi16(reg, Ones16()));
    assert On(true, acc);
    WidenedWeighs(reg, 7650 * fills);
    AddWeighs(acc, MaddEpi16(reg, Ones16()), m, 122400 * fills);
  }

  method WidenAll(a32: seq<seq<int>>, a16: seq<seq<int>>, ghost t: seq<int>, ghost fills: nat, ghost ok0: bool)
    returns (r: seq<seq<int>>, ghost ok: bool)
    requires Registers(a32, 4, 8) && Registers(a16, 4, 16) && |t| == 4 && fills <= 4
    requires forall i :: 0 <= i < 4 ==> Within(a16[i], 7650 * fills) && Congruent(Sum(a32[i]), t[i])
    ensures Registers(r, 4, 8)
    ensures forall i :: 0 <= i < 4 ==> Congruent(Sum(r[i]), t[i] + Sum(a16[i]))
    ensures AllWidened(r, a32, a16) && ok == (ok0 && AllWidenExact(a32, a16))
  {
    r, ok := a32, ok0;
    for i := 0 to 4
      invariant Registers(r, 4, 8)
      invariant forall j :: 0 <= j < i ==> Congruent(Sum(r[j]), t[j] + Sum(a16[j])) && IsWidened(r[j], a32[j], a16[j])
      invariant forall j :: i <= j < 4 ==> r[j] == a32[j]
      invariant ok == (ok0 && forall j :: 0 <= j < i ==> WidenExact(a32[j], a16[j]))
    {
      var next;
      next, ok := WidenOne(r[i], a16[i], t[i], fills, ok);
      r := r[i := next];
    }
  }

  ghost predicate AllWidened(r: seq<seq<int>>, a32: seq<seq<int>>, a16: seq<seq<int>>)
    requires Registers(a32, 4, 8) && Registers(a16, 4, 16)
  {
    Registers(r, 4, 8) && forall i :: 0 <= i < 4 ==> IsWidened(r[i], a32[i], a16[i])
  }

  ghost predicate AllWidenExact(a32: seq<seq<int>>, a16: seq<seq<int>>)
    requires Registers(a32, 4, 8) && Registers(a16, 4, 16)
  {
    forall i :: 0 <= i < 4 ==> WidenExact(a32[i], a16[i])
  }

  // r is the i16 register after the chunk at o.
  ghost predicate IsFill(r: seq<int>, reg: seq<int>, a: seq<int>, w: seq<int>, o: nat)
    requires |reg| == 16 && o + 32 <= |a| && o + 32 <= |w|
  {
    |r| == 16 && forall b {:trigger On(b, reg)} :: On(b, reg) ==> r == AddEpi16(reg, Chunk16(a, w, o))
  }

  ghost predicate AllFilled(r: seq<seq<int>>, a16: seq<seq<int>>, a: seq<int>, w: seq<int>, x: nat)
    requires Registers(a16, 4, 16) && x + 128 <= |a| && x + 128 <= |w|
  {
    && Registers(r, 4, 16) && IsFill(r[0], a16[0], a, w, x) && IsFill(r[1], a16[1], a, w, x + 32)
    && IsFill(r[2], a16[2], a, w, x + 64) && IsFill(r[3], a16[3], a, w, x + 96)
  }

  method FillOne(reg: seq<int>, a: seq<int>, w: seq<int>, o: nat, ghost fills: nat) returns (r: seq<int>)
    requires |reg| == 16 && Within(reg, 7650 * fills) && fills <= 3
    requires o + 32 <= |a| && o + 32 <= |w| && U8s(a) && Within(w, 15)
    ensures IsFill(r, reg, a, w, o) && Within(r, 7650 * (fills + 1))
    ensures Sum(r) == Sum(reg) + DotTo(a, w, o + 32) - DotTo(a, w, o)
  {
    Fill(reg, a, w, o, fills);
    r := AddEpi16(reg, Chunk16(a, w, o));
  }

  method FillAll(a16: seq<seq<int>>, a: seq<int>, w: seq<int>, x: nat, ghost fills: nat) returns (r: seq<seq<int>>)
    requires Registers(a16, 4, 16) && fills <= 3
    requires x + 128 <= |a| == |w| && U8s(a) && Within(w, 15)
    requires forall i :: 0 <= i < 4 ==> Within(a16[i], 7650 * fills)
    ensures AllFilled(r, a16, a, w, x)
    ensures forall i :: 0 <= i < 4 ==> Within(r[i], 7650 * (fills + 1))
    ensures Sum4(r) == Sum4(a16) + DotTo(a, w, x + 128) - DotTo(a, w, x)
  {
    var r0 := FillOne(a16[0], a, w, x, fills);
    var r1 := FillOne(a16[1], a, w, x + 32, fills);
    var r2 := FillOne(a16[2], a, w, x + 64, fills);
    var r3 := FillOne(a16[3], a, w, x + 96, fills);
    r := [r0, r1, r2, r3];
  }

  function Cleared(): (r: seq<seq<int>>)
    ensures Registers(r, 4, 16)
  {
    [Zero(16), Zero(16), Zero(16), Zero(16)]
  }

  function ZeroI32(): (r: seq<seq<int>>)
    ensures Registers(r, 4, 8)
  {
    [Zero(8), Zero(8), Zero(8), Zero(8)]
  }

  method ClearedI16() returns (r: seq<seq<int>>)
    ensures r == Cleared() && Registers(r, 4, 16) && Sum4(r) == 0
    ensures forall i :: 0 <= i < 4 ==> Within(r[i], 0)
  {
    ZeroSum(16, 16);
    var z := Zero(16);
    r := [z, z, z, z];
    assert |z| == 16 && Sum(z) == SumTo(Zero(16), 16) == 0;
    assert r[0] == z && r[1] == z && r[2] == z && r[3] == z;
  }

  function Filled(a16: seq<seq<int>>, a: seq<int>, w: seq<int>, x: nat): (r: seq<seq<int>>)
    requires Registers(a16, 4, 16) && x + 128 <= |a| && x + 128 <= |w|
    ensures Registers(r, 4, 16)
  {
    [AddEpi16(a16[0], Chunk16(a, w, x)), AddEpi16(a16[1], Chunk16(a, w, x + 32)),
     AddEpi16(a16[2], Chunk16(a, w, x + 64)), AddEpi16(a16[3], Chunk16(a, w, x + 96))]
  }

  function Widened(a32: seq<seq<int>>, a16: seq<seq<int>>): (r: seq<seq<int>>)
    requires Registers(a32, 4, 8) && Registers(a16, 4, 16)
    ensures Registers(r, 4, 8)
  {
    seq(4, i requires 0 <= i < 4 => AddEpi32(a32[i], MaddEpi16(a16[i], Ones16())))
  }

  // From entry x on, no widening of the delayed loop, no fold and nothing after it leaves
  // i32. (That no i16 lane wraps needs no condition on k: Fill.)
  ghost predicate DelayedExact(a16: seq<seq<int>>, a32: seq<seq<int>>, fills: nat, a: seq<int>, w: seq<int>, x: nat,
                               k: nat)
    requires Registers(a16, 4, 16) && Registers(a32, 4, 8) && x <= k <= |a| && k <= |w|
    decreases k - x
  {
    var exact: bool :| forall b {:trigger On(b, a32)} :: On(b, a32) ==> (exact <==>
      if x + 128 <= k then
        var r := Filled(a16, a, w, x);
        if fills + 1 == 4 then
          AllWidenExact(a32, r) && DelayedExact(Cleared(), Widened(a32, r), 0, a, w, x + 128, k)
        else
          DelayedExact(r, a32, fills + 1, a, w, x + 128, k)
      else
        var r := Widened(a32, a16);
        AllWidenExact(a32, a16) && FoldExact(r[0], r[1], r[2], r[3])
        && RunExact(Fold4(r[0], r[1], r[2], r[3]), a, w, x, k));
    exact
  }

  lemma WidenedIs(r: seq<seq<int>>, a32: seq<seq<int>>, a16: seq<seq<int>>)
    requires Registers(a32, 4, 8) && Registers(a16, 4, 16) && AllWidened(r, a32, a16)
    ensures r == Widened(a32, a16)
  {
    assert On(true, a32[0]) && On(true, a32[1]) && On(true, a32[2]) && On(true, a32[3]);
  }

  lemma FilledIs(r: seq<seq<int>>, a16: seq<seq<int>>, a: seq<int>, w: seq<int>, x: nat)
    requires Registers(a16, 4, 16) && x + 128 <= |a| && x + 128 <= |w| && AllFilled(r, a16, a, w, x)
    ensures r == Filled(a16, a, w, x)
  {
    assert On(true, a16[0]) && On(true, a16[1]) && On(true, a16[2]) && On(true, a16[3]);
  }

  lemma DelayedFill(a16: seq<seq<int>>, r16: seq<seq<int>>, a32: seq<seq<int>>, fills: nat, a: seq<int>, w: seq<int>,
                    x: nat, k: nat)
    requires Registers(a16, 4, 16) && Registers(a32, 4, 8) && x + 128 <= k <= |a| && k <= |w|
    requires AllFilled(r16, a16, a, w, x) && fills + 1 != 4
    ensures DelayedExact(a16, a32, fills, a, w, x, k) <==> DelayedExact(r16, a32, fills + 1, a, w, x + 128, k)
  {
    FilledIs(r16, a16, a, w, x);
    assert On(true, a32);
  }

  lemma DelayedWiden(a16: seq<seq<int>>, r16: seq<seq<int>>, a32: seq<seq<int>>, r32: seq<seq<int>>, a: seq<int>,
                     w: seq<int>, x: nat, k: nat)
    requires Registers(a16, 4, 16) && Registers(a32, 4, 8) && x + 128 <= k <= |a| && k <= |w|
    requires AllFilled(r16, a16, a, w, x) && AllWidened(r32, a32, r16)
    ensures DelayedExact(a16, a32, 3, a, w, x, k) <==>
      AllWidenExact(a32, r16) && DelayedExact(Cleared(), r32, 0, a, w, x + 128, k)
  {
    FilledIs(r16, a16, a, w, x);
    WidenedIs(r32, a32, r16);
    assert On(true, a32);
  }

  lemma DelayedEnd(a16: seq<seq<int>>, a32: seq<seq<int>>, r: seq<seq<int>>, acc: seq<int>, fills: nat, a: seq<int>,
                   w: seq<int>, x: nat, k: nat)
    requires Registers(a16, 4, 16) && Registers(a32, 4, 8) && x <= k < x + 128 && k <= |a| && k <= |w|
    requires AllWidened(r, a32, a16) && IsFold(acc, r[0], r[1], r[2], r[3])
    ensures DelayedExact(a16, a32, fills, a, w, x, k) <==>
      AllWidenExact(a32, a16) && FoldExact(r[0], r[1], r[2], r[3]) && RunExact(acc, a, w, x, k)
  {
    WidenedIs(r, a32, a16);
    assert On(true, a32) && On(true, r[0]);
  }

  // Bounds on a delayed state: `fills` chunks wait in each i16 register, at most q is in each
  // i32 one, together the products of x entries.
  ghost predicate DelayedBound(a16: seq<seq<int>>, a32: seq<seq<int>>, fills: nat, x: nat, q: nat) {
    && Registers(a16, 4, 16) && Registers(a32, 4, 8) && 4 * q + 489600 * fills == 3825 * x
    && (forall i :: 0 <= i < 4 ==> Within(a16[i], 7650 * fills))
    && (forall i :: 0 <= i < 4 ==> Weighs(a32[i], q))
  }

  lemma WidenAllFits(a16: seq<seq<int>>, a32: seq<seq<int>>, fills: nat, q: nat) returns (r: seq<seq<int>>)
    requires Registers(a16, 4, 16) && Registers(a32, 4, 8) && fills <= 4 && q + 122400 * fills < LIMIT
    requires forall i :: 0 <= i < 4 ==> Within(a16[i], 7650 * fills) && Weighs(a32[i], q)
    ensures AllWidenExact(a32, a16) && AllWidened(r, a32, a16)
    ensures forall i :: 0 <= i < 4 ==> Weighs(r[i], q + 122400 * fills)
  {
    var r0 := WidenFits(a32[0], a16[0], fills, q);
    var r1 := WidenFits(a32[1], a16[1], fills, q);
    var r2 := WidenFits(a32[2], a16[2], fills, q);
    var r3 := WidenFits(a32[3], a16[3], fills, q);
    r := [r0, r1, r2, r3];
  }

  lemma FillAllFits(a16: seq<seq<int>>, a: seq<int>, w: seq<int>, x: nat, fills: nat) returns (r: seq<seq<int>>)
    requires Registers(a16, 4, 16) && fills <= 3 && x + 128 <= |a| && x + 128 <= |w| && U8s(a) && Within(w, 15)
    requires forall i :: 0 <= i < 4 ==> Within(a16[i], 7650 * fills)
    ensures AllFilled(r, a16, a, w, x) && forall i :: 0 <= i < 4 ==> Within(r[i], 7650 * (fills + 1))
  {
    Fill(a16[0], a, w, x, fills);
    Fill(a16[1], a, w, x + 32, fills);
    Fill(a16[2], a, w, x + 64, fills);
    Fill(a16[3], a, w, x + 96, fills);
    r := Filled(a16, a, w, x);
  }

  lemma ClearedWithin()
    ensures forall i :: 0 <= i < 4 ==> Within(Cleared()[i], 0)
  {
  }

  // Four fills are widened and the i16 registers start again.
  lemma RenewFits(r16: seq<seq<int>>, a32: seq<seq<int>>, x: nat, q: nat) returns (r32: seq<seq<int>>)
    requires DelayedBound(r16, a32, 4, x + 128, q) && 3825 * (x + 128) < LIMIT
    ensures AllWidenExact(a32, r16) && AllWidened(r32, a32, r16)
    ensures DelayedBound(Cleared(), r32, 0, x + 128, q + 489600)
  {
    r32 := WidenAllFits(r16, a32, 4, q);
    ClearedWithin();
  }

  lemma DelayedStart()
    ensures DelayedBound(Cleared(), ZeroI32(), 0, 0, 0)
  {
    var z := Zero(8);
    ZeroStart();
    ClearedWithin();
    forall i | 0 <= i < 4 ensures |[z, z, z, z][i]| == 8 && Weighs([z, z, z, z][i], 0) { assert [z, z, z, z][i] == z; }
  }

  lemma {:induction false} DelayedFits(a16: seq<seq<int>>, a32: seq<seq<int>>, fills: nat, a: seq<int>, w: seq<int>,
                                       x: nat, k: nat, q: nat)
    requires DelayedBound(a16, a32, fills, x, q) && fills < 4
    requires x <= k <= |a| && k <= |w| && U8s(a) && Within(w, 15) && 3825 * k < LIMIT
    ensures DelayedExact(a16, a32, fills, a, w, x, k)
    decreases k - x
  {
    if x + 128 <= k {
      var r16 := FillAllFits(a16, a, w, x, fills);
      if fills == 3 {
        var r32 := RenewFits(r16, a32, x, q);
        DelayedFits(Cleared(), r32, 0, a, w, x + 128, k, q + 489600);
        DelayedWiden(a16, r16, a32, r32, a, w, x, k);
      } else {
        DelayedFits(r16, a32, fills + 1, a, w, x + 128, k, q);
        DelayedFill(a16, r16, a32, fills, a, w, x, k);
      }
    } else {
      DelayedRest(a16, a32, fills, a, w, x, k, q);
    }
  }

  lemma DelayedRest(a16: seq<seq<int>>, a32: seq<seq<int>>, fills: nat, a: seq<int>, w: seq<int>, x: nat, k: nat,
                    q: nat)
    requires DelayedBound(a16, a32, fills, x, q) && fills < 4
    requires x <= k < x + 128 && k <= |a| && k <= |w| && U8s(a) && Within(w, 15) && 3825 * k < LIMIT
    ensures DelayedExact(a16, a32, fills, a, w, x, k)
  {
    var m := q + 122400 * fills;
    var r := WidenAllFits(a16, a32, fills, q);
    var acc := FoldFits(r[0], r[1], r[2], r[3], m, m, m, m);
    BudgetIs(3825, x);
    BudgetIs(3825, k);
    assert 255 * 15 == 3825;
    RunFits(acc, a, w, x, k, 15);
    DelayedEnd(a16, a32, r, acc, fills, a, w, x, k);
  }

  ghost predicate DotMaddubsI5dExact(a: seq<int>, w: seq<int>, k: nat)
    requires |a| == |w| == k
  {
    DelayedExact(Cleared(), ZeroI32(), 0, a, w, 0, k)
  }

  lemma DelayedStartFits(z16: seq<seq<int>>, z32: seq<seq<int>>, a: seq<int>, w: seq<int>, k: nat)
    requires |a| == |w| == k && U8s(a) && Within(w, 15) && 3825 * k < LIMIT && DelayedBound(z16, z32, 0, 0, 0)
    ensures DelayedExact(z16, z32, 0, a, w, 0, k)
  {
    DelayedFits(z16, z32, 0, a, w, 0, k, 0);
  }

  lemma DotMaddubsI5dFits(a: seq<int>, w: seq<int>, k: nat)
    requires |a| == |w| == k && U8s(a) && Within(w, 15) && 3825 * k < LIMIT
    ensures DotMaddubsI5dExact(a, w, k)
  {
    DelayedStart();
    DelayedStartFits(Cleared(), ZeroI32(), a, w, k);
  }

  lemma DotI5dExact(a: seq<int>, w: seq<int>, k: nat)
    requires |a| == |w| == k && U8s(a) && Within(w, 15)
    ensures 3825 * k < LIMIT ==> DotRef(a, w) == Dot(a, w)
  {
    if 3825 * k < LIMIT { DotExact(a, w, 15); }
  }

  // The state of the delayed loop after x entries: `fills` chunks wait in each i16 register
  // and the i32 registers hold the rest.
  ghost predicate Delayed(a: seq<int>, w: seq<int>, x: nat, a16: seq<seq<int>>, a32: seq<seq<int>>, fills: nat,
                          t: seq<int>)
    requires x <= |a| && x <= |w|
  {
    && fills < 4 && Registers(a16, 4, 16) && Registers(a32, 4, 8) && |t| == 4
    && (forall i :: 0 <= i < 4 ==> Within(a16[i], 7650 * fills))
    && (forall i :: 0 <= i < 4 ==> Congruent(Sum(a32[i]), t[i]))
    && t[0] + t[1] + t[2] + t[3] + Sum4(a16) == DotTo(a, w, x)
  }

  // 128 entries: one fill of each i16 register, and every fourth time a widening.
  method DelayedStep(a: seq<int>, w: seq<int>, x: nat, k: nat, a16: seq<seq<int>>, a32: seq<seq<int>>, fills: nat,
                     ghost t: seq<int>, ghost ok0: bool)
    returns (r16: seq<seq<int>>, r32: seq<seq<int>>, fills': nat, ghost t': seq<int>, ghost ok: bool)
    requires |a| == |w| == k && x + 128 <= k && U8s(a) && Within(w, 15)
    requires Delayed(a, w, x, a16, a32, fills, t)
    ensures Delayed(a, w, x + 128, r16, r32, fills', t')
    ensures (ok && DelayedExact(r16, r32, fills', a, w, x + 128, k))
      == (ok0 && DelayedExact(a16, a32, fills, a, w, x, k))
  {
    r16 := FillAll(a16, a, w, x, fills);
    r32, fills', t', ok := a32, fills + 1, t, ok0;
    if fills' == 4 {
      r32, t', ok := WidenTracked(a32, r16, t, 4, ok0);
      DelayedWiden(a16, r16, a32, r32, a, w, x, k);
      r16 := ClearedI16();
      fills' := 0;
    } else {
      DelayedFill(a16, r16, a32, fills, a, w, x, k);
    }
  }

  // Widening all four registers, their totals included.
  method WidenTracked(a32: seq<seq<int>>, a16: seq<seq<int>>, ghost t: seq<int>, ghost fills: nat, ghost ok0: bool)
    returns (r: seq<seq<int>>, ghost t': seq<int>, ghost ok: bool)
    requires Registers(a32, 4, 8) && Registers(a16, 4, 16) && |t| == 4 && fills <= 4
    requires forall i :: 0 <= i < 4 ==> Within(a16[i], 7650 * fills) && Congruent(Sum(a32[i]), t[i])
    ensures Registers(r, 4, 8) && |t'| == 4 && forall i :: 0 <= i < 4 ==> Congruent(Sum(r[i]), t'[i])
    ensures t'[0] + t'[1] + t'[2] + t'[3] == t[0] + t[1] + t[2] + t[3] + Sum4(a16)
    ensures AllWidened(r, a32, a16) && ok == (ok0 && AllWidenExact(a32, a16))
  {
    r, ok := WidenAll(a32, a16, t, fills, ok0);
    t' := [t[0] + Sum(a16[0]), t[1] + Sum(a16[1]), t[2] + Sum(a16[2]), t[3] + Sum(a16[3])];
  }

  // The partial fold, the fold of four and the rest.
  method FinishDelayed(a: seq<int>, w: seq<int>, k: nat, x: nat, a16: seq<seq<int>>, a32: seq<seq<int>>,
                       ghost fills: nat, ghost t0: seq<int>, ghost ok0: bool)
    returns (s: int, ghost ok: bool)
    requires |a| == |w| == k && x <= k < x + 128 && U8s(a) && Within(w, 15)
    requires Delayed(a, w, x, a16, a32, fills, t0)
    ensures s == DotRef(a, w) && ok == (ok0 && DelayedExact(a16, a32, fills, a, w, x, k))
  {
    var r, acc;
    ghost var t;
    r, t, ok := WidenTracked(a32, a16, t0, fills, ok0);
    acc, ok := FoldFour(r[0], r[1], r[2], r[3], t[0], t[1], t[2], t[3], ok);
    DelayedEnd(a16, a32, r, acc, fills, a, w, x, k);
    s, ok := FinishChunks(a, w, k, x, acc, ok);
  }

  // Delayed widening.
  method DotMaddubsI5d(a: seq<int>, w: seq<int>, k: nat) returns (s: int, ghost exact: bool)
    requires |a| == |w| == k && U8s(a) && Within(w, 15)
    ensures s == DotRef(a, w)
    ensures exact == DotMaddubsI5dExact(a, w, k)
    ensures 3825 * k < LIMIT ==> exact && s == Dot(a, w)
  {
    var a16 := ClearedI16();
    var a32 := ZeroI32();
    ZeroStart();
    var x, fills := 0, 0;
    ghost var t := [0, 0, 0, 0];
    exact := true;
    while x + 128 <= k
      invariant 0 <= fills && x <= k && Delayed(a, w, x, a16, a32, fills, t)
      invariant (exact && DelayedExact(a16, a32, fills, a, w, x, k)) == DotMaddubsI5dExact(a, w, k)
    {
      a16, a32, fills, t, exact := DelayedStep(a, w, x, k, a16, a32, fills, t, exact);
      x := x + 128;
    }
    s, exact := FinishDelayed(a, w, k, x, a16, a32, fills, t, exact);
    if 3825 * k < LIMIT { DotMaddubsI5dFits(a, w, k); }
    DotI5dExact(a, w, k);
  }

  // ----- register tiles ------------------------------------------------------

  ghost predicate Rows(a: seq<seq<int>>, count: nat, k: nat) {
    |a| == count && forall i :: 0 <= i < count ==> |a[i]| == k && U8s(a[i])
  }

  // Register totals and scalar sums that stand for the given exact totals.
  ghost predicate Tracks(acc: seq<seq<int>>, t: seq<int>) {
    |acc| == |t| && forall i :: 0 <= i < |t| ==> |acc[i]| == 8 && Congruent(Sum(acc[i]), t[i])
  }

  ghost predicate TracksScalar(r: seq<int>, t: seq<int>) {
    |r| == |t| && I32s(r) && forall i :: 0 <= i < |t| ==> Congruent(r[i], t[i])
  }

  // The partial dots of every row after x entries.
  ghost function Partials(a: seq<seq<int>>, w: seq<int>, x: nat): (t: seq<int>)
    requires x <= |w| && forall i :: 0 <= i < |a| ==> x <= |a[i]|
    ensures |t| == |a|
  {
    seq(|a|, i requires 0 <= i < |a| => DotTo(a[i], w, x))
  }

  // Partial dots of the first `ready` rows are already at x + step.
  ghost function Advancing(a: seq<seq<int>>, w: seq<int>, x: nat, step: nat, ready: nat): (t: seq<int>)
    requires x + step <= |w| && forall i :: 0 <= i < |a| ==> x + step <= |a[i]|
    ensures |t| == |a|
  {
    seq(|a|, i requires 0 <= i < |a| => DotTo(a[i], w, if i < ready then x + step else x))
  }

  lemma Advance(a: seq<seq<int>>, w: seq<int>, x: nat, step: nat, i: nat)
    requires x + step <= |w| && forall j :: 0 <= j < |a| ==> x + step <= |a[j]|
    requires i < |a|
    ensures Advancing(a, w, x, step, i)[i] == DotTo(a[i], w, x)
    ensures Advancing(a, w, x, step, i)[i := DotTo(a[i], w, x + step)] == Advancing(a, w, x, step, i + 1)
  {
  }

  lemma AdvanceEnds(a: seq<seq<int>>, w: seq<int>, x: nat, step: nat)
    requires x + step <= |w| && forall j :: 0 <= j < |a| ==> x + step <= |a[j]|
    ensures Advancing(a, w, x, step, 0) == Partials(a, w, x)
    ensures Advancing(a, w, x, step, |a|) == Partials(a, w, x + step)
  {
  }

  // The registers of all rows, the first `ready` of them one chunk ahead: nothing they still
  // have to add leaves i32.
  ghost predicate RunsExact(acc: seq<seq<int>>, a: seq<seq<int>>, w: seq<int>, x: nat, k: nat, ready: nat)
    requires |acc| == |a| && |w| == k && x <= k && (ready > 0 ==> x + 32 <= k)
    requires forall i :: 0 <= i < |a| ==> |a[i]| == k && |acc[i]| == 8
  {
    forall i :: 0 <= i < |a| ==> RunExact(acc[i], a[i], w, if i < ready then x + 32 else x, k)
  }

  ghost predicate TailsExact(s: seq<int>, a: seq<seq<int>>, w: seq<int>, x: nat, k: nat, ready: nat)
    requires |s| == |a| && |w| == k && x <= k && (ready > 0 ==> x + 1 <= k)
    requires forall i :: 0 <= i < |a| ==> |a[i]| == k
  {
    forall i :: 0 <= i < |a| ==> TailExact(s[i], a[i], w, if i < ready then x + 1 else x, k)
  }

  lemma RunsStep(acc: seq<seq<int>>, next: seq<int>, a: seq<seq<int>>, w: seq<int>, x: nat, k: nat, i: nat)
    requires |acc| == |a| && |w| == k && x + 32 <= k && i < |a|
    requires forall j :: 0 <= j < |a| ==> |a[j]| == k && |acc[j]| == 8
    requires IsNext(next, acc[i], a[i], w, x)
    ensures RunsExact(acc, a, w, x, k, i) <==>
      ExactChunk(acc[i], a[i], w, x) && RunsExact(acc[i := next], a, w, x, k, i + 1)
  {
    RunStep(acc[i], next, a[i], w, x, k);
    var r := acc[i := next];
    assert forall j :: 0 <= j < |a| && j != i ==> r[j] == acc[j];
    if RunsExact(r, a, w, x, k, i + 1) && ExactChunk(acc[i], a[i], w, x) {
      assert RunExact(r[i], a[i], w, x + 32, k);
    }
    if RunsExact(acc, a, w, x, k, i) {
      assert RunExact(acc[i], a[i], w, x, k);
    }
  }

  lemma TailsStep(s: seq<int>, next: int, a: seq<seq<int>>, w: seq<int>, x: nat, k: nat, i: nat)
    requires |s| == |a| && |w| == k && x < k && i < |a|
    requires forall j :: 0 <= j < |a| ==> |a[j]| == k
    requires IsMulAdd(next, s[i], a[i][x], w[x])
    ensures TailsExact(s, a, w, x, k, i) <==>
      MulAddExact(s[i], a[i][x], w[x]) && TailsExact(s[i := next], a, w, x, k, i + 1)
  {
    TailStep(s[i], next, a[i], w, x, k);
    var r := s[i := next];
    assert forall j :: 0 <= j < |a| && j != i ==> r[j] == s[j];
    if TailsExact(r, a, w, x, k, i + 1) && MulAddExact(s[i], a[i][x], w[x]) {
      assert TailExact(r[i], a[i], w, x + 1, k);
    }
    if TailsExact(s, a, w, x, k, i) {
      assert TailExact(s[i], a[i], w, x, k);
    }
  }

  // Row i of a tile moves on by one chunk.
  method StepRow(acc: seq<seq<int>>, i: nat, a: seq<seq<int>>, w: seq<int>, x: nat, k: nat, ghost ok0: bool)
    returns (r: seq<seq<int>>, ghost ok: bool)
    requires Rows(a, |a|, k) && |w| == k && Within(w, 64) && x + 32 <= k && i < |a|
    requires Tracks(acc, Advancing(a, w, x, 32, i))
    ensures Tracks(r, Advancing(a, w, x, 32, i + 1))
    ensures (ok && RunsExact(r, a, w, x, k, i + 1)) == (ok0 && RunsExact(acc, a, w, x, k, i))
  {
    Advance(a, w, x, 32, i);
    var next;
    next, ok := AddChunk(acc[i], a[i], w, x, DotTo(a[i], w, x), ok0);
    RunsStep(acc, next, a, w, x, k, i);
    r := acc[i := next];
  }

  // Row i of a tile moves on by one product.
  method StepRowScalar(s: seq<int>, i: nat, a: seq<seq<int>>, w: seq<int>, x: nat, k: nat, ghost ok0: bool)
    returns (r: seq<int>, ghost ok: bool)
    requires Rows(a, |a|, k) && |w| == k && x < k && i < |a|
    requires TracksScalar(s, Advancing(a, w, x, 1, i))
    ensures TracksScalar(r, Advancing(a, w, x, 1, i + 1))
    ensures (ok && TailsExact(r, a, w, x, k, i + 1)) == (ok0 && TailsExact(s, a, w, x, k, i))
  {
    Advance(a, w, x, 1, i);
    var next;
    next, ok := TailOne(s[i], a[i], w, x, ok0);
    TailsStep(s, next, a, w, x, k, i);
    r := s[i := next];
  }

  lemma RunsEnds(acc: seq<seq<int>>, a: seq<seq<int>>, w: seq<int>, x: nat, k: nat)
    requires |acc| == |a| && |w| == k && x + 32 <= k
    requires forall i :: 0 <= i < |a| ==> |a[i]| == k && |acc[i]| == 8
    ensures RunsExact(acc, a, w, x, k, |a|) <==> RunsExact(acc, a, w, x + 32, k, 0)
  {
  }

  lemma TailsEnds(s: seq<int>, a: seq<seq<int>>, w: seq<int>, x: nat, k: nat)
    requires |s| == |a| && |w| == k && x < k && forall i :: 0 <= i < |a| ==> |a[i]| == k
    ensures TailsExact(s, a, w, x, k, |a|) <==> TailsExact(s, a, w, x + 1, k, 0)
  {
  }

  lemma TailsDone(s: seq<int>, a: seq<seq<int>>, w: seq<int>, k: nat)
    requires |s| == |a| && |w| == k && forall i :: 0 <= i < |a| ==> |a[i]| == k
    ensures TailsExact(s, a, w, k, k, 0)
  {
    forall i | 0 <= i < |a| ensures TailExact(s[i], a[i], w, k, k) { TailDone(s[i], a[i], w, k); }
  }

  // What it means that a tile of rows against one weight row overflows nowhere: no row does.
  ghost predicate TileExact(a: seq<seq<int>>, w: seq<int>, k: nat)
    requires |w| == k && forall i :: 0 <= i < |a| ==> |a[i]| == k
  {
    forall i :: 0 <= i < |a| ==> RunExact(Zero(8), a[i], w, 0, k)
  }

  // While 255 * b * k stays below 2^31 no tile does, and its i32s are the mathematical dots.
  lemma TileFits(a: seq<seq<int>>, w: seq<int>, k: nat, b: nat)
    requires Rows(a, |a|, k) && |w| == k && Within(w, b) && b <= 64
    ensures 255 * b * k < LIMIT ==> TileExact(a, w, k) && forall i :: 0 <= i < |a| ==> DotRef(a[i], w) == Dot(a[i], w)
  {
    BudgetIs(255 * b, k);
    ZeroStart();
    if 255 * b * k < LIMIT {
      forall i | 0 <= i < |a|
        ensures RunExact(Zero(8), a[i], w, 0, k) && DotRef(a[i], w) == Dot(a[i], w)
      {
        RunFits(Zero(8), a[i], w, 0, k, b);
        DotExact(a[i], w, b);
      }
    }
  }

  method ZeroRegisters(ghost a: seq<seq<int>>, ghost w: seq<int>, ghost k: nat, count: nat) returns (acc: seq<seq<int>>)
    requires Rows(a, count, k) && |w| == k
    ensures Tracks(acc, Partials(a, w, 0)) && (RunsExact(acc, a, w, 0, k, 0) <==> TileExact(a, w, k))
  {
    ZeroStart();
    acc := seq(count, _ => Zero(8));
    assert forall i :: 0 <= i < |a| ==> acc[i] == Zero(8);
  }

  lemma FinishScalars(r: seq<int>, a: seq<seq<int>>, w: seq<int>, k: nat)
    requires Rows(a, |a|, k) && |w| == k && TracksScalar(r, Partials(a, w, k))
    ensures forall i :: 0 <= i < |a| ==> r[i] == DotRef(a[i], w)
  {
    forall i | 0 <= i < |a|
      ensures r[i] == DotRef(a[i], w)
    {
      WrapUnique(r[i], Dot(a[i], w));
    }
  }

  // One tail product for every row in turn.
  method TailRows(r0: seq<int>, a: seq<seq<int>>, w: seq<int>, x: nat, k: nat, ghost ok0: bool)
    returns (r: seq<int>, ghost ok: bool)
    requires x < k && Rows(a, |a|, k) && |w| == k && TracksScalar(r0, Partials(a, w, x))
    ensures TracksScalar(r, Partials(a, w, x + 1))
    ensures (ok && TailsExact(r, a, w, x + 1, k, 0)) == (ok0 && TailsExact(r0, a, w, x, k, 0))
  {
    r, ok := r0, ok0;
    AdvanceEnds(a, w, x, 1);
    for i := 0 to |a|
      invariant TracksScalar(r, Advancing(a, w, x, 1, i))
      invariant (ok && TailsExact(r, a, w, x, k, i)) == (ok0 && TailsExact(r0, a, w, x, k, 0))
    {
      r, ok := StepRowScalar(r, i, a, w, x, k, ok);
    }
    TailsEnds(r, a, w, x, k);
  }

  // The scalar tail of a tile.
  method ScalarTail(r0: seq<int>, a: seq<seq<int>>, w: seq<int>, start: nat, k: nat, ghost ok0: bool)
    returns (r: seq<int>, ghost ok: bool)
    requires start <= k && Rows(a, |a|, k) && |w| == k
    requires TracksScalar(r0, Partials(a, w, start))
    ensures |r| == |a| && forall i :: 0 <= i < |a| ==> r[i] == DotRef(a[i], w)
    ensures ok == (ok0 && TailsExact(r0, a, w, start, k, 0))
  {
    r, ok := r0, ok0;
    var x := start;
    while x < k
      invariant start <= x <= k && TracksScalar(r, Partials(a, w, x))
      invariant (ok && TailsExact(r, a, w, x, k, 0)) == (ok0 && TailsExact(r0, a, w, start, k, 0))
    {
      r, ok := TailRows(r, a, w, x, k, ok);
      x := x + 1;
    }
    TailsDone(r, a, w, k);
    FinishScalars(r, a, w, k);
  }

  // Store-and-sum of every accumulator of a tile.
  method HsumAll(acc: seq<seq<int>>, ghost a: seq<seq<int>>, ghost w: seq<int>, ghost x: nat, ghost k: nat,
                 ghost ok0: bool)
    returns (r: seq<int>, ghost ok: bool)
    requires Rows(a, |a|, k) && |w| == k && x <= k < x + 32 && Tracks(acc, Partials(a, w, x))
    ensures TracksScalar(r, Partials(a, w, x))
    ensures (ok && TailsExact(r, a, w, x, k, 0)) == (ok0 && RunsExact(acc, a, w, x, k, 0))
  {
    r, ok := [], ok0;
    for i := 0 to |acc|
      invariant |r| == i && I32s(r)
      invariant forall j :: 0 <= j < i ==> Congruent(r[j], Partials(a, w, x)[j]) && IsHsum(r[j], acc[j])
      invariant ok == (ok0 && forall j :: 0 <= j < i ==> StoredExact(acc[j]))
    {
      var s;
      s, ok := HsumOne(acc[i], Partials(a, w, x)[i], ok);
      r := r + [s];
    }
    RunsEnd(acc, r, a, w, x, k);
  }

  lemma RunsEnd(acc: seq<seq<int>>, r: seq<int>, a: seq<seq<int>>, w: seq<int>, x: nat, k: nat)
    requires |acc| == |r| == |a| && |w| == k && x <= k < x + 32
    requires forall i :: 0 <= i < |a| ==> |a[i]| == k && |acc[i]| == 8 && IsHsum(r[i], acc[i])
    ensures RunsExact(acc, a, w, x, k, 0) <==>
      (forall i :: 0 <= i < |a| ==> StoredExact(acc[i])) && TailsExact(r, a, w, x, k, 0)
  {
    forall i | 0 <= i < |a|
      ensures RunExact(acc[i], a[i], w, x, k) <==> StoredExact(acc[i]) && TailExact(r[i], a[i], w, x, k)
    {
      RunEnd(acc[i], r[i], a[i], w, x, k);
    }
  }

  // One chunk of every row in turn.
  method StepRows(acc: seq<seq<int>>, a: seq<seq<int>>, w: seq<int>, x: nat, k: nat, ghost ok0: bool)
    returns (r: seq<seq<int>>, ghost ok: bool)
    requires Rows(a, |a|, k) && |w| == k && Within(w, 64) && x + 32 <= k
    requires Tracks(acc, Partials(a, w, x))
    ensures Tracks(r, Partials(a, w, x + 32))
    ensures (ok && RunsExact(r, a, w, x + 32, k, 0)) == (ok0 && RunsExact(acc, a, w, x, k, 0))
  {
    r, ok := acc, ok0;
    AdvanceEnds(a, w, x, 32);
    for i := 0 to |a|
      invariant Tracks(r, Advancing(a, w, x, 32, i))
      invariant (ok && RunsExact(r, a, w, x, k, i)) == (ok0 && RunsExact(acc, a, w, x, k, 0))
    {
      r, ok := StepRow(r, i, a, w, x, k, ok);
    }
    RunsEnds(r, a, w, x, k);
  }

  // One chunk of one row into its register.
  method AddRow(acc: seq<int>, a: seq<int>, w: seq<int>, x: nat, ghost k: nat, ghost ok0: bool)
    returns (r: seq<int>, ghost ok: bool)
    requires x + 32 <= k && |a| == |w| == k && U8s(a) && Within(w, 64)
    requires |acc| == 8 && Congruent(Sum(acc), DotTo(a, w, x))
    ensures |r| == 8 && Congruent(Sum(r), DotTo(a, w, x + 32))
    ensures (ok && RunExact(r, a, w, x + 32, k)) == (ok0 && RunExact(acc, a, w, x, k))
  {
    r, ok := AddChunk(acc, a, w, x, DotTo(a, w, x), ok0);
    RunStep(acc, r, a, w, x, k);
  }

  method TwoRows(acc0: seq<int>, acc1: seq<int>, a0: seq<int>, a1: seq<int>, w: seq<int>, x: nat, ghost k: nat,
                 ghost ok0: bool)
    returns (r0: seq<int>, r1: seq<int>, ghost ok: bool)
    requires |a0| == |a1| == |w| == k && x + 32 <= k && U8s(a0) && U8s(a1) && Within(w, 64)
    requires |acc0| == |acc1| == 8 && Congruent(Sum(acc0), DotTo(a0, w, x)) && Congruent(Sum(acc1), DotTo(a1, w, x))
    ensures |r0| == |r1| == 8 && Congruent(Sum(r0), DotTo(a0, w, x + 32)) && Congruent(Sum(r1), DotTo(a1, w, x + 32))
    ensures (ok && RunExact(r0, a0, w, x + 32, k) && RunExact(r1, a1, w, x + 32, k))
      == (ok0 && RunExact(acc0, a0, w, x, k) && RunExact(acc1, a1, w, x, k))
  {
    r0, ok := AddRow(acc0, a0, w, x, k, ok0);
    r1, ok := AddRow(acc1, a1, w, x, k, ok);
  }

  method DotMaddubsM4(a0: seq<int>, a1: seq<int>, a2: seq<int>, a3: seq<int>, w: seq<int>, k: nat, ghost b: nat := 64)
    returns (r: seq<int>, ghost exact: bool)
    requires |a0| == |a1| == |a2| == |a3| == |w| == k && Within(w, b) && b <= 64
    requires U8s(a0) && U8s(a1) && U8s(a2) && U8s(a3)
    ensures r == [DotRef(a0, w), DotRef(a1, w), DotRef(a2, w), DotRef(a3, w)]
    ensures exact == TileExact([a0, a1, a2, a3], w, k)
    ensures 255 * b * k < LIMIT ==> exact && r == [Dot(a0, w), Dot(a1, w), Dot(a2, w), Dot(a3, w)]
  {
    var z := Zero(8);
    var acc0, acc1, acc2, acc3 := z, z, z, z;
    ZeroStart();
    var x := 0;
    exact := true;
    while x + 32 <= k
      invariant x <= k && |acc0| == |acc1| == |acc2| == |acc3| == 8
      invariant Congruent(Sum(acc0), DotTo(a0, w, x)) && Congruent(Sum(acc1), DotTo(a1, w, x))
      invariant Congruent(Sum(acc2), DotTo(a2, w, x)) && Congruent(Sum(acc3), DotTo(a3, w, x))
      invariant (exact && RunExact(acc0, a0, w, x, k) && RunExact(acc1, a1, w, x, k)
                 && RunExact(acc2, a2, w, x, k) && RunExact(acc3, a3, w, x, k))
        == (RunExact(z, a0, w, 0, k) && RunExact(z, a1, w, 0, k)
            && RunExact(z, a2, w, 0, k) && RunExact(z, a3, w, 0, k))
    {
      acc0, acc1, exact := TwoRows(acc0, acc1, a0, a1, w, x, k, exact);
      acc2, acc3, exact := TwoRows(acc2, acc3, a2, a3, w, x, k, exact);
      x := x + 32;
    }
    var rows := [a0, a1, a2, a3];
    FourRows(a0, a1, a2, a3, acc0, acc1, acc2, acc3, w, x, k);
    r, exact := HsumAll([acc0, acc1, acc2, acc3], rows, w, x, k, exact);
    r, exact := ScalarTail(r, rows, w, x, k, exact);
    assert rows[0] == a0 && rows[1] == a1 && rows[2] == a2 && rows[3] == a3;
    TileFits(rows, w, k, b);
  }

  // Four named registers as a tile.
  lemma FourRows(a0: seq<int>, a1: seq<int>, a2: seq<int>, a3: seq<int>, acc0: seq<int>, acc1: seq<int>, acc2: seq<int>,
                 acc3: seq<int>, w: seq<int>, x: nat, k: nat)
    requires |a0| == |a1| == |a2| == |a3| == |w| == k && x <= k && |acc0| == |acc1| == |acc2| == |acc3| == 8
    requires Congruent(Sum(acc0), DotTo(a0, w, x)) && Congruent(Sum(acc1), DotTo(a1, w, x))
    requires Congruent(Sum(acc2), DotTo(a2, w, x)) && Congruent(Sum(acc3), DotTo(a3, w, x))
    ensures Tracks([acc0, acc1, acc2, acc3], Partials([a0, a1, a2, a3], w, x))
    ensures RunsExact([acc0, acc1, acc2, acc3], [a0, a1, a2, a3], w, x, k, 0) <==>
      RunExact(acc0, a0, w, x, k) && RunExact(acc1, a1, w, x, k) && RunExact(acc2, a2, w, x, k)
      && RunExact(acc3, a3, w, x, k)
    ensures TileExact([a0, a1, a2, a3], w, k) <==>
      && RunExact(Zero(8), a0, w, 0, k) && RunExact(Zero(8), a1, w, 0, k)
      && RunExact(Zero(8), a2, w, 0, k) && RunExact(Zero(8), a3, w, 0, k)
  {
    var rows, acc := [a0, a1, a2, a3], [acc0, acc1, acc2, acc3];
    assert rows[0] == a0 && rows[1] == a1 && rows[2] == a2 && rows[3] == a3;
    assert acc[0] == acc0 && acc[1] == acc1 && acc[2] == acc2 && acc[3] == acc3;
  }

  method DotMaddubsM8(a: seq<seq<int>>, w: seq<int>, k: nat, ghost b: nat := 64)
    returns (r: seq<int>, ghost exact: bool)
    requires Rows(a, 8, k) && |w| == k && Within(w, b) && b <= 64
    ensures |r| == 8 && forall i :: 0 <= i < 8 ==> r[i] == DotRef(a[i], w)
    ensures exact == TileExact(a, w, k)
    ensures 255 * b * k < LIMIT ==> exact && forall i :: 0 <= i < 8 ==> r[i] == Dot(a[i], w)
  {
    var acc := ZeroRegisters(a, w, k, 8);
    var x := 0;
    exact := true;
    while x + 32 <= k
      invariant x <= k && Tracks(acc, Partials(a, w, x))
      invariant (exact && RunsExact(acc, a, w, x, k, 0)) == TileExact(a, w, k)
    {
      acc, exact := StepRows(acc, a, w, x, k, exact);
      x := x + 32;
    }
    r, exact := HsumAll(acc, a, w, x, k, exact);
    r, exact := ScalarTail(r, a, w, x, k, exact);
    TileFits(a, w, k, b);
  }

  // One 32-entry step of the whole tile, row by row. `lo` holds registers 0..3, the rows
  // against the first weight row, and `hi` registers 4..7, the same rows against the second.
  method TileStep(lo0: seq<seq<int>>, hi0: seq<seq<int>>, a: seq<seq<int>>, w0: seq<int>, w1: seq<int>, x: nat, k: nat,
                  ghost ok0: bool)
    returns (lo: seq<seq<int>>, hi: seq<seq<int>>, ghost ok: bool)
    requires Rows(a, 4, k) && |w0| == |w1| == k && Within(w0, 64) && Within(w1, 64) && x + 32 <= k
    requires Tracks(lo0, Partials(a, w0, x)) && Tracks(hi0, Partials(a, w1, x))
    ensures Tracks(lo, Partials(a, w0, x + 32)) && Tracks(hi, Partials(a, w1, x + 32))
    ensures (ok && RunsExact(lo, a, w0, x + 32, k, 0) && RunsExact(hi, a, w1, x + 32, k, 0))
      == (ok0 && RunsExact(lo0, a, w0, x, k, 0) && RunsExact(hi0, a, w1, x, k, 0))
  {
    lo, hi, ok := lo0, hi0, ok0;
    AdvanceEnds(a, w0, x, 32);
    AdvanceEnds(a, w1, x, 32);
    for i := 0 to 4
      invariant Tracks(lo, Advancing(a, w0, x, 32, i)) && Tracks(hi, Advancing(a, w1, x, 32, i))
      invariant (ok && RunsExact(lo, a, w0, x, k, i) && RunsExact(hi, a, w1, x, k, i))
        == (ok0 && RunsExact(lo0, a, w0, x, k, 0) && RunsExact(hi0, a, w1, x, k, 0))
    {
      lo, ok := StepRow(lo, i, a, w0, x, k, ok);
      hi, ok := StepRow(hi, i, a, w1, x, k, ok);
    }
    RunsEnds(lo, a, w0, x, k);
    RunsEnds(hi, a, w1, x, k);
  }

  method TileScalarStep(lo0: seq<int>, hi0: seq<int>, a: seq<seq<int>>, w0: seq<int>, w1: seq<int>, x: nat, k: nat,
                        ghost ok0: bool)
    returns (lo: seq<int>, hi: seq<int>, ghost ok: bool)
    requires Rows(a, 4, k) && |w0| == |w1| == k && x < k
    requires TracksScalar(lo0, Partials(a, w0, x)) && TracksScalar(hi0, Partials(a, w1, x))
    ensures TracksScalar(lo, Partials(a, w0, x + 1)) && TracksScalar(hi, Partials(a, w1, x + 1))
    ensures (ok && TailsExact(lo, a, w0, x + 1, k, 0) && TailsExact(hi, a, w1, x + 1, k, 0))
      == (ok0 && TailsExact(lo0, a, w0, x, k, 0) && TailsExact(hi0, a, w1, x, k, 0))
  {
    lo, hi, ok := lo0, hi0, ok0;
    AdvanceEnds(a, w0, x, 1);
    AdvanceEnds(a, w1, x, 1);
    for i := 0 to 4
      invariant TracksScalar(lo, Advancing(a, w0, x, 1, i)) && TracksScalar(hi, Advancing(a, w1, x, 1, i))
      invariant (ok && TailsExact(lo, a, w0, x, k, i) && TailsExact(hi, a, w1, x, k, i))
        == (ok0 && TailsExact(lo0, a, w0, x, k, 0) && TailsExact(hi0, a, w1, x, k, 0))
    {
      lo, ok := StepRowScalar(lo, i, a, w0, x, k, ok);
      hi, ok := StepRowScalar(hi, i, a, w1, x, k, ok);
    }
    TailsEnds(lo, a, w0, x, k);
    TailsEnds(hi, a, w1, x, k);
  }

  // The scalar tail of both columns.
  method TileTail(lo0: seq<int>, hi0: seq<int>, a: seq<seq<int>>, w0: seq<int>, w1: seq<int>, start: nat, k: nat,
                  ghost ok0: bool)
    returns (lo: seq<int>, hi: seq<int>, ghost ok: bool)
    requires Rows(a, 4, k) && |w0| == |w1| == k && start <= k
    requires TracksScalar(lo0, Partials(a, w0, start)) && TracksScalar(hi0, Partials(a, w1, start))
    ensures TracksScalar(lo, Partials(a, w0, k)) && TracksScalar(hi, Partials(a, w1, k))
    ensures ok == (ok0 && TailsExact(lo0, a, w0, start, k, 0) && TailsExact(hi0, a, w1, start, k, 0))
  {
    lo, hi, ok := lo0, hi0, ok0;
    var x := start;
    while x < k
      invariant start <= x <= k && TracksScalar(lo, Partials(a, w0, x)) && TracksScalar(hi, Partials(a, w1, x))
      invariant (ok && TailsExact(lo, a, w0, x, k, 0) && TailsExact(hi, a, w1, x, k, 0))
        == (ok0 && TailsExact(lo0, a, w0, start, k, 0) && TailsExact(hi0, a, w1, start, k, 0))
    {
      lo, hi, ok := TileScalarStep(lo, hi, a, w0, w1, x, k, ok);
      x := x + 1;
    }
    TailsDone(lo, a, w0, k);
    TailsDone(hi, a, w1, k);
  }

  // Horizontal sums and scalar tail of both columns.
  method FinishTile(lo: seq<seq<int>>, hi: seq<seq<int>>, a: seq<seq<int>>, w0: seq<int>, w1: seq<int>, x: nat, k: nat,
                    ghost ok0: bool)
    returns (r: seq<int>, ghost ok: bool)
    requires Rows(a, 4, k) && |w0| == |w1| == k && x <= k < x + 32
    requires Tracks(lo, Partials(a, w0, x)) && Tracks(hi, Partials(a, w1, x))
    ensures |r| == 8 && forall i :: 0 <= i < 4 ==> r[i] == DotRef(a[i], w0) && r[4 + i] == DotRef(a[i], w1)
    ensures ok == (ok0 && RunsExact(lo, a, w0, x, k, 0) && RunsExact(hi, a, w1, x, k, 0))
  {
    var r0, r1;
    r0, ok := HsumAll(lo, a, w0, x, k, ok0);
    r1, ok := HsumAll(hi, a, w1, x, k, ok);
    r0, r1, ok := TileTail(r0, r1, a, w0, w1, x, k, ok);
    FinishScalars(r0, a, w0, k);
    FinishScalars(r1, a, w1, k);
    r := r0 + r1;
    assert forall i :: 0 <= i < 4 ==> r[i] == r0[i] && r[4 + i] == r1[i];
  }

  // Result layout: slots 0..3 are the four rows against w0, slots 4..7 against w1.
  method DotMaddubsM4n2(a: seq<seq<int>>, w0: seq<int>, w1: seq<int>, k: nat, ghost b: nat := 64)
    returns (r: seq<int>, ghost exact: bool)
    requires Rows(a, 4, k) && |w0| == |w1| == k && Within(w0, b) && Within(w1, b) && b <= 64
    ensures |r| == 8
    ensures forall i :: 0 <= i < 4 ==> r[i] == DotRef(a[i], w0) && r[4 + i] == DotRef(a[i], w1)
    ensures exact == (TileExact(a, w0, k) && TileExact(a, w1, k))
    ensures 255 * b * k < LIMIT ==>
      exact && forall i :: 0 <= i < 4 ==> r[i] == Dot(a[i], w0) && r[4 + i] == Dot(a[i], w1)
  {
    var lo := ZeroRegisters(a, w0, k, 4);
    var hi := ZeroRegisters(a, w1, k, 4);
    var x := 0;
    exact := true;
    while x + 32 <= k
      invariant x <= k && Tracks(lo, Partials(a, w0, x)) && Tracks(hi, Partials(a, w1, x))
      invariant (exact && RunsExact(lo, a, w0, x, k, 0) && RunsExact(hi, a, w1, x, k, 0))
        == (TileExact(a, w0, k) && TileExact(a, w1, k))
    {
      lo, hi, exact := TileStep(lo, hi, a, w0, w1, x, k, exact);
      x := x + 32;
    }
    r, exact := FinishTile(lo, hi, a, w0, w1, x, k, exact);
    TileFits(a, w0, k, b);
    TileFits(a, w1, k, b);
  }

  // ----- when the i32 is the mathematical dot --------------------------------

  // No partial dot leaves i32, so the wrapped result is the exact dot.
  lemma DotExact(a: seq<int>, w: seq<int>, b: nat)
    requires |a| == |w| && U8s(a) && Within(w, b)
    requires 255 * b * |a| < 0x8000_0000
    ensures forall n :: 0 <= n <= |a| ==> IsI32(DotTo(a, w, n))
    ensures DotRef(a, w) == Dot(a, w)
  {
    forall n | 0 <= n <= |a|
      ensures IsI32(DotTo(a, w, n))
    {
      DotBound(a, w, n, 255, b);
      Grid.MulMonotone(n, |a|, 255 * b);
    }
  }
}
