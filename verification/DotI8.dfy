// The int8-by-int8 dots of the decoder GEMV: sign-extend, vpmaddwd, i32 accumulators.
// No operand range is excluded, and every variant leaves the same i32 at every length.
module DotI8 {
  import opened Integers
  import opened Dots
  import opened Simd
  import opened Exactness
  import opened Grid

  // What it means that the scalar loop overflows nowhere on the common prefix.
  ghost predicate DotScalarExact(w: seq<int>, x: seq<int>) {
    TailExact(0, w, x, 0, Min(|w|, |x|))
  }

  // `exact` is collected from the operations as they are performed.
  method DotScalar(w: seq<int>, x: seq<int>, ghost b: nat := 128) returns (acc: int, ghost exact: bool)
    requires I8s(w) && I8s(x) && Within(w, b) && Within(x, b)
    ensures var n := Min(|w|, |x|); acc == DotRef(w[..n], x[..n])
    ensures exact == DotScalarExact(w, x)
    ensures var n := Min(|w|, |x|); b * b * n < LIMIT ==> exact && acc == Dot(w[..n], x[..n])
  {
    CongruentSame(0);
    acc, exact := ScalarLoop(0, w, x, 0, Min(|w|, |x|), true);
    Finished(w, x, Min(|w|, |x|), b, acc);
    DotScalarFits(w, x, b);
  }

  lemma DotScalarFits(w: seq<int>, x: seq<int>, b: nat)
    requires Within(w, b) && Within(x, b)
    ensures b * b * Min(|w|, |x|) < LIMIT ==> DotScalarExact(w, x)
  {
    var n := Min(|w|, |x|);
    BudgetIs(b * b, n);
    if b * b * n < LIMIT { TailFits(0, w, x, 0, n, b, b); }
  }

  // The result is the reference i32, and the mathematical dot within the budget.
  lemma Finished(w: seq<int>, x: seq<int>, n: nat, b: nat, acc: int)
    requires n <= |w| && n <= |x| && Within(w, b) && Within(x, b) && IsI32(acc) && Congruent(acc, DotTo(w, x, n))
    ensures acc == DotRef(w[..n], x[..n]) && Budget(b * b, n) == b * b * n
    ensures b * b * n < LIMIT ==> acc == Dot(w[..n], x[..n])
  {
    WrapUnique(acc, DotTo(w, x, n));
    DotPrefix(w, x, w[..n], x[..n], n);
    BudgetIs(b * b, n);
    if b * b * n < LIMIT { DotI8Exact(w[..n], x[..n], b); }
  }

  // ----- one 16-wide block ---------------------------------------------------

  function Block(w: seq<int>, x: seq<int>, o: nat): (r: seq<int>)
    requires o + 16 <= |w| && o + 16 <= |x| && I8s(w) && I8s(x)
    ensures |r| == 8
  {
    MaddEpi16(CvtEpi8Epi16(w[o..o + 16]), CvtEpi8Epi16(x[o..o + 16]))
  }

  lemma PairFits(p: int, q: int, p': int, q': int)
    requires IsI8(p) && IsI8(q) && IsI8(p') && IsI8(q')
    ensures IsI32(p * q + p' * q')
  {
    ProductBound(p, q, 128, 128);
    ProductBound(p', q', 128, 128);
  }

  // Lane j holds its pair of products unwrapped.
  lemma BlockLane(w: seq<int>, x: seq<int>, o: nat, j: nat)
    requires o + 16 <= |w| && o + 16 <= |x| && I8s(w) && I8s(x) && j < 8
    ensures Block(w, x, o)[j] == w[o + 2 * j] * x[o + 2 * j] + w[o + 2 * j + 1] * x[o + 2 * j + 1]
  {
    var i := o + 2 * j;
    PairFits(w[i], x[i], w[i + 1], x[i + 1]);
  }

  lemma {:induction false} BlockSumTo(w: seq<int>, x: seq<int>, o: nat, n: nat)
    requires o + 16 <= |w| && o + 16 <= |x| && I8s(w) && I8s(x) && n <= 8
    ensures SumTo(Block(w, x, o), n) == DotTo(w, x, o + 2 * n) - DotTo(w, x, o)
  {
    if n > 0 {
      BlockSumTo(w, x, o, n - 1);
      BlockLane(w, x, o, n - 1);
      DotStep(w, x, o + 2 * n - 2);
      DotStep(w, x, o + 2 * n - 1);
    }
  }

  // A block holds 16 products of at most b * b.
  lemma BlockWeighs(w: seq<int>, x: seq<int>, o: nat, b: nat)
    requires o + 16 <= |w| && o + 16 <= |x| && I8s(w) && I8s(x) && Within(w, b) && Within(x, b)
    ensures Weighs(Block(w, x, o), 16 * (b * b))
  {
    var c, p := Block(w, x, o), b * b;
    forall j | 0 <= j < 8
      ensures 0 - 2 * p <= c[j] <= 2 * p
    {
      var i := o + 2 * j;
      BlockLane(w, x, o, j);
      PairWithin(w[i], x[i], w[i + 1], x[i + 1], b, p);
    }
    LanesWeigh(c, 2 * p);
  }

  lemma PairWithin(x: int, y: int, x': int, y': int, b: nat, p: nat)
    requires 0 - b <= x <= b && 0 - b <= y <= b && 0 - b <= x' <= b && 0 - b <= y' <= b && p == b * b
    ensures 0 - 2 * p <= x * y + x' * y' <= 2 * p
  {
    ProductBound(x, y, b, b);
    ProductBound(x', y', b, b);
  }

  // Adding the block at o wraps no lane.
  ghost predicate ExactBlock(acc: seq<int>, w: seq<int>, x: seq<int>, o: nat)
    requires o + 16 <= |w| && o + 16 <= |x| && I8s(w) && I8s(x)
  {
    var exact: bool :| forall b {:trigger On(b, acc)} :: On(b, acc) ==> (exact <==> NoWrap(acc, Block(w, x, o)));
    exact
  }

  // r is the register after the block at o.
  ghost predicate IsNext(r: seq<int>, acc: seq<int>, w: seq<int>, x: seq<int>, o: nat)
    requires |acc| == 8 && o + 16 <= |w| && o + 16 <= |x| && I8s(w) && I8s(x)
  {
    |r| == 8 && forall b {:trigger On(b, acc)} :: On(b, acc) ==> r == AddEpi32(acc, Block(w, x, o))
  }

  // One accumulation: the register total moves by the block's share of the dot.
  method AddBlock(acc: seq<int>, w: seq<int>, x: seq<int>, o: nat, ghost t: int, ghost ok0: bool)
    returns (r: seq<int>, ghost ok: bool)
    requires |acc| == 8 && Congruent(Sum(acc), t)
    requires o + 16 <= |w| && o + 16 <= |x| && I8s(w) && I8s(x)
    ensures |r| == 8 && Congruent(Sum(r), t + DotTo(w, x, o + 16) - DotTo(w, x, o))
    ensures IsNext(r, acc, w, x, o) && ok == (ok0 && ExactBlock(acc, w, x, o))
  {
    var c := Block(w, x, o);
    BlockSumTo(w, x, o, 8);
    CongruentSame(Sum(c));
    r, ok := AddLanes(acc, c, t, Sum(c), ok0);
    assert On(true, acc);
  }

  // A block adds at most 16 * (b * b) of mass.
  lemma BlockFits(acc: seq<int>, w: seq<int>, x: seq<int>, o: nat, b: nat, m: nat) returns (r: seq<int>)
    requires |acc| == 8 && o + 16 <= |w| && o + 16 <= |x| && I8s(w) && I8s(x) && Within(w, b) && Within(x, b)
    requires Weighs(acc, m) && m + 16 * (b * b) < LIMIT
    ensures ExactBlock(acc, w, x, o) && IsNext(r, acc, w, x, o) && Weighs(r, m + 16 * (b * b))
  {
    r := AddEpi32(acc, Block(w, x, o));
    assert On(true, acc);
    BlockWeighs(w, x, o, b);
    AddWeighs(acc, Block(w, x, o), m, 16 * (b * b));
  }

  // What one, two or four blocks spend of the budget for n entries.
  lemma SpendBlocks(c: nat, i: nat, blocks: nat, n: nat)
    requires i + 16 * blocks <= n && (blocks == 1 || blocks == 2 || blocks == 4)
    ensures Budget(c, i + 16 * blocks) == Budget(c, i) + 16 * c * blocks
    ensures Budget(c, i + 16 * blocks) <= Budget(c, n)
  {
    Spend(c, i, 16 * blocks, n);
    if blocks == 1 { BudgetIs(c, 16); } else if blocks == 2 { BudgetIs(c, 32); } else { BudgetIs(c, 64); }
  }

  ghost predicate IsNext2(r0: seq<int>, r1: seq<int>, a0: seq<int>, a1: seq<int>, w: seq<int>, x: seq<int>, o: nat)
    requires |a0| == |a1| == 8 && o + 32 <= |w| && o + 32 <= |x| && I8s(w) && I8s(x)
  {
    IsNext(r0, a0, w, x, o) && IsNext(r1, a1, w, x, o + 16)
  }

  ghost predicate ExactBlock2(a0: seq<int>, a1: seq<int>, w: seq<int>, x: seq<int>, o: nat)
    requires o + 32 <= |w| && o + 32 <= |x| && I8s(w) && I8s(x)
  {
    ExactBlock(a0, w, x, o) && ExactBlock(a1, w, x, o + 16)
  }

  // Two adjacent blocks into two registers.
  method AddPair(a0: seq<int>, a1: seq<int>, w: seq<int>, x: seq<int>, o: nat, ghost t0: int, ghost t1: int,
                 ghost ok0: bool)
    returns (r0: seq<int>, r1: seq<int>, ghost u0: int, ghost u1: int, ghost ok: bool)
    requires |a0| == |a1| == 8 && Congruent(Sum(a0), t0) && Congruent(Sum(a1), t1)
    requires o + 32 <= |w| && o + 32 <= |x| && I8s(w) && I8s(x)
    ensures IsNext2(r0, r1, a0, a1, w, x, o) && ok == (ok0 && ExactBlock2(a0, a1, w, x, o))
    ensures Congruent(Sum(r0), u0) && Congruent(Sum(r1), u1)
    ensures u0 + u1 == t0 + t1 + DotTo(w, x, o + 32) - DotTo(w, x, o)
  {
    r0, ok := AddBlock(a0, w, x, o, t0, ok0);
    r1, ok := AddBlock(a1, w, x, o + 16, t1, ok);
    u0 := t0 + DotTo(w, x, o + 16) - DotTo(w, x, o);
    u1 := t1 + DotTo(w, x, o + 16 + 16) - DotTo(w, x, o + 16);
  }

  lemma PairFits2(a0: seq<int>, a1: seq<int>, w: seq<int>, x: seq<int>, o: nat, b: nat, q: nat)
    returns (r0: seq<int>, r1: seq<int>)
    requires |a0| == |a1| == 8 && o + 32 <= |w| && o + 32 <= |x| && I8s(w) && I8s(x) && Within(w, b) && Within(x, b)
    requires Weighs(a0, q) && Weighs(a1, q) && q + 16 * (b * b) < LIMIT
    ensures ExactBlock2(a0, a1, w, x, o) && IsNext2(r0, r1, a0, a1, w, x, o)
    ensures Weighs(r0, q + 16 * (b * b)) && Weighs(r1, q + 16 * (b * b))
  {
    r0 := BlockFits(a0, w, x, o, b, q);
    r1 := BlockFits(a1, w, x, o + 16, b, q);
  }

  method Zeroed() returns (r: seq<int>)
    ensures r == Zero(8) && |r| == 8 && Congruent(Sum(r), 0) && Weighs(r, 0)
  {
    r := Zero(8);
    ZeroWeighs();
    Sum8(r);
    CongruentSame(0);
  }

  lemma ZeroWeighs()
    ensures Weighs(Zero(8), 0)
  {
    ZeroMass(8, 8);
    WeighsIs(Zero(8), 0);
  }

  // ----- shuffled horizontal sum, scalar tail --------------------------------

  ghost predicate IsHsum(acc: int, v: seq<int>)
    requires |v| == 8
  {
    forall b {:trigger On(b, v)} :: On(b, v) ==> acc == HsumShuffled(v)
  }

  // Horizontal sum by the shuffle network.
  method Hsum(v: seq<int>, ghost t: int, ghost ok0: bool) returns (acc: int, ghost ok: bool)
    requires |v| == 8 && Congruent(Sum(v), t)
    ensures IsI32(acc) && Congruent(acc, t)
    ensures IsHsum(acc, v) && ok == (ok0 && ShuffledExact(v))
  {
    HsumShuffledSum(v);
    acc := HsumShuffled(v);
    ok := ok0 && ShuffledExact(v);
    CongruentTrans(acc, Sum(v), t);
  }

  // No node of the shuffle tree over s and no step of the scalar tail from i on leaves i32.
  ghost predicate EndExact(s: seq<int>, w: seq<int>, x: seq<int>, i: nat, n: nat)
    requires |s| == 8 && i <= n <= |w| && n <= |x|
  {
    var exact: bool :| forall b {:trigger On(b, s)} :: On(b, s) ==>
      (exact <==> ShuffledExact(s) && TailExact(HsumShuffled(s), w, x, i, n));
    exact
  }

  lemma EndIs(s: seq<int>, acc: int, w: seq<int>, x: seq<int>, i: nat, n: nat)
    requires |s| == 8 && i <= n <= |w| && n <= |x| && IsHsum(acc, s)
    ensures EndExact(s, w, x, i, n) <==> ShuffledExact(s) && TailExact(acc, w, x, i, n)
  {
    assert On(true, s);
  }

  lemma EndFits(s: seq<int>, w: seq<int>, x: seq<int>, i: nat, n: nat, b: nat)
    requires |s| == 8 && i <= n <= |w| && n <= |x| && Within(w, b) && Within(x, b)
    requires Budget(b * b, n) < LIMIT && Weighs(s, Budget(b * b, i))
    ensures EndExact(s, w, x, i, n)
  {
    Spend(b * b, i, 0, n);
    ShuffledWeighs(s, Budget(b * b, i));
    TailFits(HsumShuffled(s), w, x, i, n, b, b);
    EndIs(s, HsumShuffled(s), w, x, i, n);
  }

  // Shuffled horizontal sum, then one product at a time.
  method Finish(w: seq<int>, x: seq<int>, n: nat, start: nat, s: seq<int>, ghost ok0: bool)
    returns (acc: int, ghost ok: bool)
    requires start <= n <= |w| && n <= |x| && |s| == 8 && Congruent(Sum(s), DotTo(w, x, start))
    ensures IsI32(acc) && Congruent(acc, DotTo(w, x, n))
    ensures ok == (ok0 && EndExact(s, w, x, start, n))
  {
    acc, ok := Hsum(s, DotTo(w, x, start), ok0);
    EndIs(s, acc, w, x, start, n);
    acc, ok := ScalarLoop(acc, w, x, start, n, ok);
  }

  // ----- the 16-wide tail of four accumulators -------------------------------

  ghost predicate Four(v: seq<seq<int>>) {
    |v| == 4 && forall j :: 0 <= j < 4 ==> |v[j]| == 8
  }

  // From entry i on, the 16-wide blocks go into one of the four registers; then the fold, the
  // shuffle tree and the scalar tail. Nothing of it leaves i32.
  ghost predicate SlotExact(v: seq<seq<int>>, slot: nat, w: seq<int>, x: seq<int>, i: nat, n: nat)
    requires Four(v) && slot < 4 && i <= n <= |w| && n <= |x| && I8s(w) && I8s(x)
    decreases n - i
  {
    var exact: bool :| forall b {:trigger On(b, v)} :: On(b, v) ==> (exact <==>
      if i + 16 <= n then
        ExactBlock(v[slot], w, x, i) && SlotExact(v[slot := AddEpi32(v[slot], Block(w, x, i))], slot, w, x, i + 16, n)
      else
        FoldExact(v[0], v[1], v[2], v[3]) && EndExact(Fold4(v[0], v[1], v[2], v[3]), w, x, i, n));
    exact
  }

  lemma SlotStep(v: seq<seq<int>>, r: seq<int>, slot: nat, w: seq<int>, x: seq<int>, i: nat, n: nat)
    requires Four(v) && slot < 4 && i + 16 <= n <= |w| && n <= |x| && I8s(w) && I8s(x) && IsNext(r, v[slot], w, x, i)
    ensures SlotExact(v, slot, w, x, i, n) <==>
      ExactBlock(v[slot], w, x, i) && SlotExact(v[slot := r], slot, w, x, i + 16, n)
  {
    assert On(true, v) && On(true, v[slot]);
  }

  lemma SlotEnd(v: seq<seq<int>>, s: seq<int>, slot: nat, w: seq<int>, x: seq<int>, i: nat, n: nat)
    requires Four(v) && slot < 4 && i <= n < i + 16 && n <= |w| && n <= |x| && I8s(w) && I8s(x)
    requires IsFold(s, v[0], v[1], v[2], v[3])
    ensures SlotExact(v, slot, w, x, i, n) <==> FoldExact(v[0], v[1], v[2], v[3]) && EndExact(s, w, x, i, n)
  {
    assert On(true, v) && On(true, v[0]);
  }

  // The masses of four registers, together at most what i entries may weigh.
  ghost predicate FourWeigh(v: seq<seq<int>>, m: seq<nat>, total: nat) {
    Four(v) && |m| == 4 && m[0] + m[1] + m[2] + m[3] == total && forall j :: 0 <= j < 4 ==> Weighs(v[j], m[j])
  }

  lemma SlotBlockFits(v: seq<seq<int>>, m: seq<nat>, slot: nat, w: seq<int>, x: seq<int>, i: nat, n: nat, b: nat)
    returns (r: seq<int>, p: nat)
    requires FourWeigh(v, m, Budget(b * b, i)) && slot < 4 && Budget(b * b, n) < LIMIT
    requires i + 16 <= n <= |w| && n <= |x| && I8s(w) && I8s(x) && Within(w, b) && Within(x, b)
    ensures ExactBlock(v[slot], w, x, i) && IsNext(r, v[slot], w, x, i)
    ensures FourWeigh(v[slot := r], m[slot := p], Budget(b * b, i + 16))
  {
    SpendBlocks(b * b, i, 1, n);
    p := m[slot] + 16 * (b * b);
    r := BlockFits(v[slot], w, x, i, b, m[slot]);
  }

  lemma {:induction false} SlotFits(v: seq<seq<int>>, m: seq<nat>, slot: nat, w: seq<int>, x: seq<int>, i: nat,
                                    n: nat, b: nat)
    requires FourWeigh(v, m, Budget(b * b, i)) && slot < 4 && Budget(b * b, n) < LIMIT
    requires i <= n <= |w| && n <= |x| && I8s(w) && I8s(x) && Within(w, b) && Within(x, b)
    ensures SlotExact(v, slot, w, x, i, n)
    decreases n - i
  {
    if i + 16 <= n {
      var r, p := SlotBlockFits(v, m, slot, w, x, i, n, b);
      SlotFits(v[slot := r], m[slot := p], slot, w, x, i + 16, n, b);
      SlotStep(v, r, slot, w, x, i, n);
    } else {
      Spend(b * b, i, 0, n);
      var s := FoldFits(v[0], v[1], v[2], v[3], m[0], m[1], m[2], m[3]);
      EndFits(s, w, x, i, n, b);
      SlotEnd(v, s, slot, w, x, i, n);
    }
  }

  // The register totals of four accumulators.
  ghost predicate FourTrack(v: seq<seq<int>>, t: seq<int>, total: int) {
    Four(v) && |t| == 4 && t[0] + t[1] + t[2] + t[3] == total && forall j :: 0 <= j < 4 ==> Congruent(Sum(v[j]), t[j])
  }

  // One 16-wide block into one register.
  method SlotBlock(v: seq<seq<int>>, slot: nat, w: seq<int>, x: seq<int>, i: nat, ghost n: nat, ghost t: seq<int>,
                   ghost ok0: bool)
    returns (r: seq<seq<int>>, ghost u: seq<int>, ghost ok: bool)
    requires slot < 4 && i + 16 <= n <= |w| && n <= |x| && I8s(w) && I8s(x) && FourTrack(v, t, DotTo(w, x, i))
    ensures FourTrack(r, u, DotTo(w, x, i + 16))
    ensures (ok && SlotExact(r, slot, w, x, i + 16, n)) == (ok0 && SlotExact(v, slot, w, x, i, n))
  {
    var next;
    next, ok := AddBlock(v[slot], w, x, i, t[slot], ok0);
    SlotStep(v, next, slot, w, x, i, n);
    r := v[slot := next];
    u := t[slot := t[slot] + DotTo(w, x, i + 16) - DotTo(w, x, i)];
  }

  // The 16-wide tail, the fold, the shuffle tree and the scalar tail.
  method FinishFour(v0: seq<seq<int>>, slot: nat, w: seq<int>, x: seq<int>, i0: nat, n: nat, ghost t0: seq<int>,
                    ghost ok0: bool)
    returns (acc: int, ghost ok: bool)
    requires slot < 4 && i0 <= n <= |w| && n <= |x| && I8s(w) && I8s(x) && FourTrack(v0, t0, DotTo(w, x, i0))
    ensures IsI32(acc) && Congruent(acc, DotTo(w, x, n))
    ensures ok == (ok0 && SlotExact(v0, slot, w, x, i0, n))
  {
    var v, i := v0, i0;
    ghost var t := t0;
    ok := ok0;
    while i + 16 <= n
      invariant i0 <= i <= n && FourTrack(v, t, DotTo(w, x, i))
      invariant (ok && SlotExact(v, slot, w, x, i, n)) == (ok0 && SlotExact(v0, slot, w, x, i0, n))
    {
      v, t, ok := SlotBlock(v, slot, w, x, i, n, t, ok);
      i := i + 16;
    }
    var s;
    s, ok := FoldFour(v[0], v[1], v[2], v[3], t[0], t[1], t[2], t[3], ok);
    SlotEnd(v, s, slot, w, x, i, n);
    acc, ok := Finish(w, x, n, i, s, ok);
  }

  // ----- two accumulators over 32 entries ------------------------------------

  // The main loop into registers 0 and 1, then the tail into register 2.
  ghost predicate Avx2Exact(v: seq<seq<int>>, w: seq<int>, x: seq<int>, i: nat, n: nat)
    requires Four(v) && i <= n <= |w| && n <= |x| && I8s(w) && I8s(x)
    decreases n - i
  {
    var exact: bool :| forall b {:trigger On(b, v)} :: On(b, v) ==> (exact <==>
      if i + 32 <= n then
        && ExactBlock2(v[0], v[1], w, x, i)
        && Avx2Exact([AddEpi32(v[0], Block(w, x, i)), AddEpi32(v[1], Block(w, x, i + 16)), v[2], v[3]], w, x, i + 32, n)
      else
        SlotExact(v, 2, w, x, i, n));
    exact
  }

  lemma Avx2Step(v: seq<seq<int>>, r0: seq<int>, r1: seq<int>, w: seq<int>, x: seq<int>, i: nat, n: nat)
    requires Four(v) && i + 32 <= n <= |w| && n <= |x| && I8s(w) && I8s(x) && IsNext2(r0, r1, v[0], v[1], w, x, i)
    ensures Avx2Exact(v, w, x, i, n) <==>
      ExactBlock2(v[0], v[1], w, x, i) && Avx2Exact([r0, r1, v[2], v[3]], w, x, i + 32, n)
  {
    assert On(true, v) && On(true, v[0]) && On(true, v[1]);
  }

  lemma Avx2End(v: seq<seq<int>>, w: seq<int>, x: seq<int>, i: nat, n: nat)
    requires Four(v) && i <= n < i + 32 && n <= |w| && n <= |x| && I8s(w) && I8s(x)
    ensures Avx2Exact(v, w, x, i, n) <==> SlotExact(v, 2, w, x, i, n)
  {
    assert On(true, v);
  }

  lemma Avx2PairFits(v: seq<seq<int>>, q: nat, w: seq<int>, x: seq<int>, i: nat, n: nat, b: nat)
    returns (r0: seq<int>, r1: seq<int>)
    requires FourWeigh(v, [q, q, 0, 0], Budget(b * b, i)) && Budget(b * b, n) < LIMIT
    requires i + 32 <= n <= |w| && n <= |x| && I8s(w) && I8s(x) && Within(w, b) && Within(x, b)
    ensures ExactBlock2(v[0], v[1], w, x, i) && IsNext2(r0, r1, v[0], v[1], w, x, i)
    ensures var q' := q + 16 * (b * b); FourWeigh([r0, r1, v[2], v[3]], [q', q', 0, 0], Budget(b * b, i + 32))
  {
    SpendBlocks(b * b, i, 2, n);
    assert [q, q, 0, 0][0] == q && [q, q, 0, 0][1] == q;
    r0, r1 := PairFits2(v[0], v[1], w, x, i, b, q);
  }

  lemma {:induction false} Avx2Fits(v: seq<seq<int>>, q: nat, w: seq<int>, x: seq<int>, i: nat, n: nat, b: nat)
    requires FourWeigh(v, [q, q, 0, 0], Budget(b * b, i)) && Budget(b * b, n) < LIMIT
    requires i <= n <= |w| && n <= |x| && I8s(w) && I8s(x) && Within(w, b) && Within(x, b)
    ensures Avx2Exact(v, w, x, i, n)
    decreases n - i
  {
    if i + 32 <= n {
      var r0, r1 := Avx2PairFits(v, q, w, x, i, n, b);
      Avx2Fits([r0, r1, v[2], v[3]], q + 16 * (b * b), w, x, i + 32, n, b);
      Avx2Step(v, r0, r1, w, x, i, n);
    } else {
      SlotFits(v, [q, q, 0, 0], 2, w, x, i, n, b);
      Avx2End(v, w, x, i, n);
    }
  }

  function ZeroFour(): (v: seq<seq<int>>)
    ensures Four(v)
  {
    [Zero(8), Zero(8), Zero(8), Zero(8)]
  }

  lemma ZeroFourStart()
    ensures FourWeigh(ZeroFour(), [0, 0, 0, 0], 0) && FourTrack(ZeroFour(), [0, 0, 0, 0], 0)
  {
    var z := Zero(8);
    ZeroWeighs();
    Sum8(z);
    CongruentSame(0);
    forall j | 0 <= j < 4 ensures ZeroFour()[j] == z {}
  }

  ghost predicate DotAvx2Exact(w: seq<int>, x: seq<int>)
    requires |w| <= |x| && I8s(w) && I8s(x)
  {
    Avx2Exact(ZeroFour(), w, x, 0, |w|)
  }

  lemma DotAvx2Fits(w: seq<int>, x: seq<int>, b: nat)
    requires |w| <= |x| && I8s(w) && I8s(x) && Within(w, b) && Within(x, b)
    ensures b * b * |w| < LIMIT ==> DotAvx2Exact(w, x)
  {
    BudgetIs(b * b, |w|);
    if b * b * |w| < LIMIT {
      ZeroFourStart();
      Avx2Fits(ZeroFour(), 0, w, x, 0, |w|, b);
    }
  }

  // One turn of the main loop.
  method Avx2Pair(v: seq<seq<int>>, w: seq<int>, x: seq<int>, i: nat, ghost n: nat, ghost t: seq<int>, ghost ok0: bool)
    returns (r: seq<seq<int>>, ghost u: seq<int>, ghost ok: bool)
    requires i + 32 <= n <= |w| && n <= |x| && I8s(w) && I8s(x) && FourTrack(v, t, DotTo(w, x, i))
    ensures FourTrack(r, u, DotTo(w, x, i + 32))
    ensures (ok && Avx2Exact(r, w, x, i + 32, n)) == (ok0 && Avx2Exact(v, w, x, i, n))
  {
    var r0, r1;
    ghost var u0, u1;
    r0, r1, u0, u1, ok := AddPair(v[0], v[1], w, x, i, t[0], t[1], ok0);
    Avx2Step(v, r0, r1, w, x, i, n);
    r := [r0, r1, v[2], v[3]];
    u := [u0, u1, t[2], t[3]];
  }

  // Two accumulators over 32 entries, a third for the 16-wide tail, a fourth never used.
  // Slots 0..3 of `v` are a0..a3.
  method DotAvx2(w: seq<int>, x: seq<int>, ghost b: nat := 128) returns (acc: int, ghost exact: bool)
    requires |w| <= |x| && I8s(w) && I8s(x) && Within(w, b) && Within(x, b)
    ensures acc == DotRef(w, x[..|w|])
    ensures exact == DotAvx2Exact(w, x)
    ensures b * b * |w| < LIMIT ==> exact && acc == Dot(w, x[..|w|])
  {
    var n, v, i := |w|, ZeroFour(), 0;
    ZeroFourStart();
    ghost var t := [0, 0, 0, 0];
    exact := true;
    while i + 32 <= n
      invariant 0 <= i <= n && FourTrack(v, t, DotTo(w, x, i))
      invariant (exact && Avx2Exact(v, w, x, i, n)) == DotAvx2Exact(w, x)
    {
      v, t, exact := Avx2Pair(v, w, x, i, n, t, exact);
      i := i + 32;
    }
    Avx2End(v, w, x, i, n);
    acc, exact := FinishFour(v, 2, w, x, i, n, t, exact);
    assert w[..n] == w;
    Finished(w, x, n, b, acc);
    DotAvx2Fits(w, x, b);
  }

  // ----- four accumulators over 64 entries -----------------------------------

  ghost predicate IsNext4(r: seq<seq<int>>, v: seq<seq<int>>, w: seq<int>, x: seq<int>, o: nat)
    requires Four(v) && o + 64 <= |w| && o + 64 <= |x| && I8s(w) && I8s(x)
  {
    Four(r) && IsNext2(r[0], r[1], v[0], v[1], w, x, o) && IsNext2(r[2], r[3], v[2], v[3], w, x, o + 32)
  }

  ghost predicate ExactBlock4(v: seq<seq<int>>, w: seq<int>, x: seq<int>, o: nat)
    requires Four(v) && o + 64 <= |w| && o + 64 <= |x| && I8s(w) && I8s(x)
  {
    ExactBlock2(v[0], v[1], w, x, o) && ExactBlock2(v[2], v[3], w, x, o + 32)
  }

  function Blocks4(v: seq<seq<int>>, w: seq<int>, x: seq<int>, o: nat): (r: seq<seq<int>>)
    requires Four(v) && o + 64 <= |w| && o + 64 <= |x| && I8s(w) && I8s(x)
    ensures Four(r)
  {
    [AddEpi32(v[0], Block(w, x, o)), AddEpi32(v[1], Block(w, x, o + 16)),
     AddEpi32(v[2], Block(w, x, o + 32)), AddEpi32(v[3], Block(w, x, o + 32 + 16))]
  }

  // The main loop into all four registers, then the tail into register 0.
  ghost predicate FourAccExact(v: seq<seq<int>>, w: seq<int>, x: seq<int>, i: nat, n: nat)
    requires Four(v) && i <= n <= |w| && n <= |x| && I8s(w) && I8s(x)
    decreases n - i
  {
    var exact: bool :| forall b {:trigger On(b, v)} :: On(b, v) ==> (exact <==>
      if i + 64 <= n then
        ExactBlock4(v, w, x, i) && FourAccExact(Blocks4(v, w, x, i), w, x, i + 64, n)
      else
        SlotExact(v, 0, w, x, i, n));
    exact
  }

  lemma Blocks4Is(r: seq<seq<int>>, v: seq<seq<int>>, w: seq<int>, x: seq<int>, o: nat)
    requires Four(v) && o + 64 <= |w| && o + 64 <= |x| && I8s(w) && I8s(x) && IsNext4(r, v, w, x, o)
    ensures r == Blocks4(v, w, x, o)
  {
    assert On(true, v[0]) && On(true, v[1]) && On(true, v[2]) && On(true, v[3]);
  }

  lemma FourAccStep(v: seq<seq<int>>, r: seq<seq<int>>, w: seq<int>, x: seq<int>, i: nat, n: nat)
    requires Four(v) && i + 64 <= n <= |w| && n <= |x| && I8s(w) && I8s(x) && IsNext4(r, v, w, x, i)
    ensures FourAccExact(v, w, x, i, n) <==> ExactBlock4(v, w, x, i) && FourAccExact(r, w, x, i + 64, n)
  {
    Blocks4Is(r, v, w, x, i);
    assert On(true, v);
  }

  lemma FourAccEnd(v: seq<seq<int>>, w: seq<int>, x: seq<int>, i: nat, n: nat)
    requires Four(v) && i <= n < i + 64 && n <= |w| && n <= |x| && I8s(w) && I8s(x)
    ensures FourAccExact(v, w, x, i, n) <==> SlotExact(v, 0, w, x, i, n)
  {
    assert On(true, v);
  }

  lemma FourRegistersFit(v: seq<seq<int>>, q: nat, w: seq<int>, x: seq<int>, i: nat, b: nat) returns (r: seq<seq<int>>)
    requires Four(v) && (forall j :: 0 <= j < 4 ==> Weighs(v[j], q)) && q + 16 * (b * b) < LIMIT
    requires i + 64 <= |w| && i + 64 <= |x| && I8s(w) && I8s(x) && Within(w, b) && Within(x, b)
    ensures ExactBlock4(v, w, x, i) && IsNext4(r, v, w, x, i)
    ensures forall j :: 0 <= j < 4 ==> Weighs(r[j], q + 16 * (b * b))
  {
    var r0, r1 := PairFits2(v[0], v[1], w, x, i, b, q);
    var r2, r3 := PairFits2(v[2], v[3], w, x, i + 32, b, q);
    r := [r0, r1, r2, r3];
  }

  lemma SameWeights(v: seq<seq<int>>, q: nat, total: nat)
    requires Four(v)
    ensures FourWeigh(v, [q, q, q, q], total) <==> 4 * q == total && forall j :: 0 <= j < 4 ==> Weighs(v[j], q)
  {
    var m := [q, q, q, q];
    assert m[0] == q && m[1] == q && m[2] == q && m[3] == q;
  }

  lemma FourBlocksFit(v: seq<seq<int>>, q: nat, w: seq<int>, x: seq<int>, i: nat, n: nat, b: nat)
    returns (r: seq<seq<int>>)
    requires FourWeigh(v, [q, q, q, q], Budget(b * b, i)) && Budget(b * b, n) < LIMIT
    requires i + 64 <= n <= |w| && n <= |x| && I8s(w) && I8s(x) && Within(w, b) && Within(x, b)
    ensures ExactBlock4(v, w, x, i) && IsNext4(r, v, w, x, i)
    ensures var q' := q + 16 * (b * b); FourWeigh(r, [q', q', q', q'], Budget(b * b, i + 64))
  {
    SpendBlocks(b * b, i, 4, n);
    SameWeights(v, q, Budget(b * b, i));
    r := FourRegistersFit(v, q, w, x, i, b);
    SameWeights(r, q + 16 * (b * b), Budget(b * b, i + 64));
  }

  lemma {:induction false} FourAccFits(v: seq<seq<int>>, q: nat, w: seq<int>, x: seq<int>, i: nat, n: nat, b: nat)
    requires FourWeigh(v, [q, q, q, q], Budget(b * b, i)) && Budget(b * b, n) < LIMIT
    requires i <= n <= |w| && n <= |x| && I8s(w) && I8s(x) && Within(w, b) && Within(x, b)
    ensures FourAccExact(v, w, x, i, n)
    decreases n - i
  {
    if i + 64 <= n {
      var r := FourBlocksFit(v, q, w, x, i, n, b);
      FourAccFits(r, q + 16 * (b * b), w, x, i + 64, n, b);
      FourAccStep(v, r, w, x, i, n);
    } else {
      SlotFits(v, [q, q, q, q], 0, w, x, i, n, b);
      FourAccEnd(v, w, x, i, n);
    }
  }

  ghost predicate DotFourAccExact(w: seq<int>, x: seq<int>)
    requires |w| <= |x| && I8s(w) && I8s(x)
  {
    FourAccExact(ZeroFour(), w, x, 0, |w|)
  }

  lemma DotFourAccFits(w: seq<int>, x: seq<int>, b: nat)
    requires |w| <= |x| && I8s(w) && I8s(x) && Within(w, b) && Within(x, b)
    ensures b * b * |w| < LIMIT ==> DotFourAccExact(w, x)
  {
    BudgetIs(b * b, |w|);
    if b * b * |w| < LIMIT {
      ZeroFourStart();
      FourAccFits(ZeroFour(), 0, w, x, 0, |w|, b);
    }
  }

  method AddFour(v: seq<seq<int>>, w: seq<int>, x: seq<int>, i: nat, ghost t: seq<int>, ghost ok0: bool)
    returns (r: seq<seq<int>>, ghost u: seq<int>, ghost ok: bool)
    requires i + 64 <= |w| && i + 64 <= |x| && I8s(w) && I8s(x) && FourTrack(v, t, DotTo(w, x, i))
    ensures FourTrack(r, u, DotTo(w, x, i + 64))
    ensures IsNext4(r, v, w, x, i) && ok == (ok0 && ExactBlock4(v, w, x, i))
  {
    var r0, r1, r2, r3;
    ghost var u0, u1, u2, u3;
    r0, r1, u0, u1, ok := AddPair(v[0], v[1], w, x, i, t[0], t[1], ok0);
    r2, r3, u2, u3, ok := AddPair(v[2], v[3], w, x, i + 32, t[2], t[3], ok);
    r := [r0, r1, r2, r3];
    u := [u0, u1, u2, u3];
  }

  // One turn of the main loop.
  method FourBlocks(v: seq<seq<int>>, w: seq<int>, x: seq<int>, i: nat, ghost n: nat, ghost t: seq<int>,
                    ghost ok0: bool)
    returns (r: seq<seq<int>>, ghost u: seq<int>, ghost ok: bool)
    requires i + 64 <= n <= |w| && n <= |x| && I8s(w) && I8s(x) && FourTrack(v, t, DotTo(w, x, i))
    ensures FourTrack(r, u, DotTo(w, x, i + 64))
    ensures (ok && FourAccExact(r, w, x, i + 64, n)) == (ok0 && FourAccExact(v, w, x, i, n))
  {
    r, u, ok := AddFour(v, w, x, i, t, ok0);
    FourAccStep(v, r, w, x, i, n);
  }

  // Four accumulators over 64 entries; the 16-wide tail goes back into the first.
  method DotAvx2FourAcc(w: seq<int>, x: seq<int>, ghost b: nat := 128) returns (acc: int, ghost exact: bool)
    requires |w| <= |x| && I8s(w) && I8s(x) && Within(w, b) && Within(x, b)
    ensures acc == DotRef(w, x[..|w|])
    ensures exact == DotFourAccExact(w, x)
    ensures b * b * |w| < LIMIT ==> exact && acc == Dot(w, x[..|w|])
  {
    var n, v, i := |w|, ZeroFour(), 0;
    ZeroFourStart();
    ghost var t := [0, 0, 0, 0];
    exact := true;
    while i + 64 <= n
      invariant 0 <= i <= n && FourTrack(v, t, DotTo(w, x, i))
      invariant (exact && FourAccExact(v, w, x, i, n)) == DotFourAccExact(w, x)
    {
      v, t, exact := FourBlocks(v, w, x, i, n, t, exact);
      i := i + 64;
    }
    FourAccEnd(v, w, x, i, n);
    acc, exact := FinishFour(v, 0, w, x, i, n, t, exact);
    assert w[..n] == w;
    Finished(w, x, n, b, acc);
    DotFourAccFits(w, x, b);
  }

  // ----- two rows ------------------------------------------------------------

  // One row's two accumulators, their sum, the shuffle tree and the scalar tail.
  ghost predicate TwoAccExact(a0: seq<int>, a1: seq<int>, w: seq<int>, x: seq<int>, i: nat, n: nat)
    requires |a0| == |a1| == 8 && i <= n <= |w| && n <= |x| && I8s(w) && I8s(x)
    decreases n - i
  {
    var exact: bool :| forall b {:trigger On(b, a0)} :: On(b, a0) ==> (exact <==>
      if i + 32 <= n then
        && ExactBlock2(a0, a1, w, x, i)
        && TwoAccExact(AddEpi32(a0, Block(w, x, i)), AddEpi32(a1, Block(w, x, i + 16)), w, x, i + 32, n)
      else
        NoWrap(a0, a1) && EndExact(AddEpi32(a0, a1), w, x, i, n));
    exact
  }

  lemma TwoAccStep(a0: seq<int>, a1: seq<int>, r0: seq<int>, r1: seq<int>, w: seq<int>, x: seq<int>, i: nat, n: nat)
    requires |a0| == |a1| == 8 && i + 32 <= n <= |w| && n <= |x| && I8s(w) && I8s(x) && IsNext2(r0, r1, a0, a1, w, x, i)
    ensures TwoAccExact(a0, a1, w, x, i, n) <==> ExactBlock2(a0, a1, w, x, i) && TwoAccExact(r0, r1, w, x, i + 32, n)
  {
    assert On(true, a0) && On(true, a1);
  }

  lemma TwoAccEnd(a0: seq<int>, a1: seq<int>, w: seq<int>, x: seq<int>, i: nat, n: nat)
    requires |a0| == |a1| == 8 && i <= n < i + 32 && n <= |w| && n <= |x| && I8s(w) && I8s(x)
    ensures TwoAccExact(a0, a1, w, x, i, n) <==> NoWrap(a0, a1) && EndExact(AddEpi32(a0, a1), w, x, i, n)
  {
    assert On(true, a0);
  }

  lemma {:induction false} TwoAccFits(a0: seq<int>, a1: seq<int>, q: nat, w: seq<int>, x: seq<int>, i: nat, n: nat,
                                      b: nat)
    requires |a0| == |a1| == 8 && Weighs(a0, q) && Weighs(a1, q) && 2 * q == Budget(b * b, i)
    requires Budget(b * b, n) < LIMIT
    requires i <= n <= |w| && n <= |x| && I8s(w) && I8s(x) && Within(w, b) && Within(x, b)
    ensures TwoAccExact(a0, a1, w, x, i, n)
    decreases n - i
  {
    if i + 32 <= n {
      SpendBlocks(b * b, i, 2, n);
      var r0, r1 := PairFits2(a0, a1, w, x, i, b, q);
      TwoAccFits(r0, r1, q + 16 * (b * b), w, x, i + 32, n, b);
      TwoAccStep(a0, a1, r0, r1, w, x, i, n);
    } else {
      Spend(b * b, i, 0, n);
      AddWeighs(a0, a1, q, q);
      EndFits(AddEpi32(a0, a1), w, x, i, n, b);
      TwoAccEnd(a0, a1, w, x, i, n);
    }
  }

  // What it means that one row of the two-row form overflows nowhere over n entries.
  ghost predicate RowExact(w: seq<int>, x: seq<int>, n: nat)
    requires n <= |w| && n <= |x| && I8s(w) && I8s(x)
  {
    TwoAccExact(Zero(8), Zero(8), w, x, 0, n)
  }

  lemma RowFits(w: seq<int>, x: seq<int>, n: nat, b: nat)
    requires n <= |w| && n <= |x| && I8s(w) && I8s(x) && Within(w, b) && Within(x, b)
    ensures b * b * n < LIMIT ==> RowExact(w, x, n)
  {
    BudgetIs(b * b, n);
    if b * b * n < LIMIT {
      ZeroWeighs();
      TwoAccFits(Zero(8), Zero(8), 0, w, x, 0, n, b);
    }
  }

  // One turn of the loop for one row.
  method RowPair(a0: seq<int>, a1: seq<int>, w: seq<int>, x: seq<int>, i: nat, ghost n: nat, ghost t0: int,
                 ghost t1: int, ghost ok0: bool)
    returns (r0: seq<int>, r1: seq<int>, ghost u0: int, ghost u1: int, ghost ok: bool)
    requires i + 32 <= n <= |w| && n <= |x| && I8s(w) && I8s(x)
    requires |a0| == |a1| == 8 && Congruent(Sum(a0), t0) && Congruent(Sum(a1), t1) && t0 + t1 == DotTo(w, x, i)
    ensures |r0| == |r1| == 8 && Congruent(Sum(r0), u0) && Congruent(Sum(r1), u1) && u0 + u1 == DotTo(w, x, i + 32)
    ensures (ok && TwoAccExact(r0, r1, w, x, i + 32, n)) == (ok0 && TwoAccExact(a0, a1, w, x, i, n))
  {
    r0, r1, u0, u1, ok := AddPair(a0, a1, w, x, i, t0, t1, ok0);
    TwoAccStep(a0, a1, r0, r1, w, x, i, n);
  }

  // The sum of one row's accumulators, the shuffle tree and the scalar tail.
  method FinishRow(a0: seq<int>, a1: seq<int>, w: seq<int>, x: seq<int>, i: nat, n: nat, ghost t0: int, ghost t1: int,
                   ghost ok0: bool)
    returns (acc: int, ghost ok: bool)
    requires i <= n < i + 32 && n <= |w| && n <= |x| && I8s(w) && I8s(x)
    requires |a0| == |a1| == 8 && Congruent(Sum(a0), t0) && Congruent(Sum(a1), t1) && t0 + t1 == DotTo(w, x, i)
    ensures IsI32(acc) && Congruent(acc, DotTo(w, x, n))
    ensures ok == (ok0 && TwoAccExact(a0, a1, w, x, i, n))
  {
    var s;
    s, ok := AddLanes(a0, a1, t0, t1, ok0);
    TwoAccEnd(a0, a1, w, x, i, n);
    acc, ok := Finish(w, x, n, i, s, ok);
  }

  // Two weight rows share each widened activation block.
  method DotAvx2TwoRow(w0: seq<int>, w1: seq<int>, x: seq<int>, ghost b: nat := 128)
    returns (s0: int, s1: int, ghost exact: bool)
    requires I8s(w0) && I8s(w1) && I8s(x) && Within(w0, b) && Within(w1, b) && Within(x, b)
    ensures var n := Min(Min(|w0|, |w1|), |x|);
      s0 == DotRef(w0[..n], x[..n]) && s1 == DotRef(w1[..n], x[..n])
    ensures var n := Min(Min(|w0|, |w1|), |x|); exact == (RowExact(w0, x, n) && RowExact(w1, x, n))
    ensures var n := Min(Min(|w0|, |w1|), |x|);
      b * b * n < LIMIT ==> exact && s0 == Dot(w0[..n], x[..n]) && s1 == Dot(w1[..n], x[..n])
  {
    var n := Min(Min(|w0|, |w1|), |x|);
    var a0 := Zeroed();
    var a1 := Zeroed();
    var b0 := Zeroed();
    var b1 := Zeroed();
    var i := 0;
    ghost var t0, t1, u0, u1 := 0, 0, 0, 0;
    exact := true;
    while i + 32 <= n
      invariant 0 <= i <= n && |a0| == |a1| == |b0| == |b1| == 8
      invariant Congruent(Sum(a0), t0) && Congruent(Sum(a1), t1) && t0 + t1 == DotTo(w0, x, i)
      invariant Congruent(Sum(b0), u0) && Congruent(Sum(b1), u1) && u0 + u1 == DotTo(w1, x, i)
      invariant (exact && TwoAccExact(a0, a1, w0, x, i, n) && TwoAccExact(b0, b1, w1, x, i, n))
        == (RowExact(w0, x, n) && RowExact(w1, x, n))
    {
      a0, a1, t0, t1, exact := RowPair(a0, a1, w0, x, i, n, t0, t1, exact);
      b0, b1, u0, u1, exact := RowPair(b0, b1, w1, x, i, n, u0, u1, exact);
      i := i + 32;
    }
    s0, exact := FinishRow(a0, a1, w0, x, i, n, t0, t1, exact);
    s1, exact := FinishRow(b0, b1, w1, x, i, n, u0, u1, exact);
    Finished(w0, x, n, b, s0);
    Finished(w1, x, n, b, s1);
    RowFits(w0, x, n, b);
    RowFits(w1, x, n, b);
  }

  // ----- the GEMV ------------------------------------------------------------

  // out[o] is the dot of weight row o with x.
  ghost predicate IsGemv(out: seq<int>, w: seq<int>, x: seq<int>, n: nat, k: nat, upto: nat)
    requires |w| == n * k && |x| == k && upto <= n
  {
    |out| == n && forall o :: 0 <= o < upto ==> out[o] == DotRef(Row(w, o, n, k), x)
  }

  // An output in plain addresses: the wrapped sum of w[o * k + i] * x[i].
  lemma GemvSpelled(out: seq<int>, w: seq<int>, x: seq<int>, n: nat, k: nat, o: nat, p: seq<int>)
    requires |w| == n * k && |x| == k && o < n && IsGemv(out, w, x, n, k, n)
    requires |p| == k && o * k + k <= |w| && forall i :: 0 <= i < k ==> p[i] == w[o * k + i] * x[i]
    ensures out[o] == Wrap32(SumTo(p, k))
  {
    RowAt(w, o, n, k);
    DotIsSum(Row(w, o, n, k), x, p, k);
  }

  method GemvScalar(w: seq<int>, x: seq<int>, n: nat, k: nat, out: array<int>)
    requires |w| == n * k && |x| == k && out.Length == n && I8s(w) && I8s(x)
    modifies out
    ensures IsGemv(out[..], w, x, n, k, n)
  {
    for o := 0 to n
      invariant IsGemv(out[..], w, x, n, k, o)
    {
      var row := Row(w, o, n, k);
      var s, _ := DotScalar(row, x);
      assert row[..k] == row && x[..k] == x;
      out[o] := s;
    }
  }

  // Row pairs, then the odd last row through the one-row kernel.
  method GemvTwoRow(w: seq<int>, x: seq<int>, n: nat, k: nat, out: array<int>)
    requires |w| == n * k && |x| == k && out.Length == n && I8s(w) && I8s(x)
    modifies out
    ensures IsGemv(out[..], w, x, n, k, n)
  {
    var o := 0;
    assert x[..k] == x;
    while o + 2 <= n
      invariant 0 <= o <= n && IsGemv(out[..], w, x, n, k, o)
    {
      var w0, w1 := Row(w, o, n, k), Row(w, o + 1, n, k);
      var s0, s1, _ := DotAvx2TwoRow(w0, w1, x);
      assert w0[..k] == w0 && w1[..k] == w1;
      out[o] := s0;
      out[o + 1] := s1;
      o := o + 2;
    }
    if o < n {
      var s, _ := DotAvx2(Row(w, o, n, k), x);
      out[o] := s;
    }
  }

  // The i32 is the mathematical dot while 16384 * k stays below 2^31 (16129 * k when both
  // operands avoid -128), and no partial sum of the scalar loop leaves i32.
  lemma DotI8Exact(w: seq<int>, x: seq<int>, b: nat)
    requires |w| == |x| && Within(w, b) && Within(x, b) && b * b * |w| < 0x8000_0000
    ensures forall n :: 0 <= n <= |w| ==> IsI32(DotTo(w, x, n))
    ensures DotRef(w, x) == Dot(w, x)
  {
    forall n | 0 <= n <= |w|
      ensures IsI32(DotTo(w, x, n))
    {
      DotBound(w, x, n, b, b);
      MulMonotone(n, |w|, b * b);
    }
  }
}
