// The eight-lane row quantisers against the scalar loop, in binary32: truncation plus a
// signed unit or half, clamping, saturating packs, and a scalar tail. Both claim to equal
// the scalar loop byte for byte; the exact conditions under which they do are proved here.
module QuantiseSimd {
  import opened Integers
  import opened Grid
  import Quantise
  import opened Binary32

  // ----- rounding over the reals ---------------------------------------------

  function SignedReal(magnitude: real, v: real): real {
    if v < 0.0 then -magnitude else magnitude
  }

  // trunc(v) plus copysign(1, v) when the dropped fraction reaches one half.
  function RoundByFraction(v: real): real {
    var tr := Quantise.Truncate(v) as real;
    var frac := v - tr;
    tr + if Quantise.AbsR(frac) >= 0.5 then SignedReal(1.0, v) else 0.0
  }

  // trunc(v + copysign(0.5, v)).
  function RoundByHalf(v: real): real {
    Quantise.Truncate(v + SignedReal(0.5, v)) as real
  }

  // Without rounding, both vector forms are the scalar one.
  lemma RoundingsAgree(v: real)
    ensures RoundByFraction(v) == RoundByHalf(v) == Quantise.RoundHalfAway(v) as real
  {
    if v >= 0.0 {
      var f := v.Floor;
      assert Quantise.Truncate(v) == f && f as real <= v < f as real + 1.0;
      if v - f as real >= 0.5 {
        assert (v + 0.5).Floor == f + 1;
      } else {
        assert (v + 0.5).Floor == f;
      }
    } else {
      var f := (-v).Floor;
      assert Quantise.Truncate(v) == -f && f as real <= -v < f as real + 1.0;
      if -v - f as real >= 0.5 {
        assert (0.5 - v).Floor == f + 1;
      } else {
        assert (0.5 - v).Floor == f;
      }
    }
  }

  // ----- the scalar quantiser ------------------------------------------------

  // f32::round, exact on every number: ties away from zero.
  function Rounded(v: int): int {
    if v >= 0 then (v + HALF) / ONE else -((-v + HALF) / ONE)
  }

  lemma WholeFloor(x: nat)
    ensures (x as real / ONE as real).Floor == x / ONE
  {
    var q := x / ONE;
    var y := x as real / ONE as real;
    assert q as real * ONE as real <= x as real < (q as real + 1.0) * ONE as real;
    assert y * ONE as real == x as real;
    assert q as real <= y < q as real + 1.0;
  }

  lemma RoundedIsReal(v: int)
    ensures Rounded(v) == Quantise.RoundHalfAway(v as real / ONE as real)
  {
    var x: nat := Abs(v) + HALF;
    WholeFloor(x);
    assert x as real / ONE as real == Abs(v) as real / ONE as real + 0.5;
  }

  // round, clamp, convert: a NaN converts to zero.
  function ScalarLevel(f: Float): (q: int)
    ensures -127 <= q <= 127
  {
    match f
    case NaN => 0
    case Inf(n) => if n then -127 else 127
    case Num(v) => Clamp(Rounded(v), -127, 127)
  }

  // On numbers that is the quantiser over the reals.
  lemma ScalarIsReal(v: int)
    ensures ScalarLevel(Num(v)) == Quantise.Quantised(v as real / ONE as real, 127)
  {
    RoundedIsReal(v);
  }

  // ----- saturating packs ----------------------------------------------------

  function PacksEpi32(lo: seq<int>, hi: seq<int>): (r: seq<int>)
    ensures |r| == |lo| + |hi|
  {
    seq(|lo| + |hi|, j requires 0 <= j < |lo| + |hi| => Sat16(if j < |lo| then lo[j] else hi[j - |lo|]))
  }

  function PacksEpi16(lo: seq<int>, hi: seq<int>): (r: seq<int>)
    ensures |r| == |lo| + |hi|
  {
    seq(|lo| + |hi|, j requires 0 <= j < |lo| + |hi| => Sat8(if j < |lo| then lo[j] else hi[j - |lo|]))
  }

  function PackusEpi16(lo: seq<int>, hi: seq<int>): (r: seq<int>)
    ensures |r| == |lo| + |hi|
  {
    seq(|lo| + |hi|, j requires 0 <= j < |lo| + |hi| => SatU8(if j < |lo| then lo[j] else hi[j - |lo|]))
  }

  // The low eight bytes of packing a register of eight i32 lanes with itself.
  function StoredI8(ri: seq<int>): (r: seq<int>)
    requires |ri| == 8
    ensures |r| == 8
  {
    var i16s := PacksEpi32(ri[..4], ri[4..]);
    PacksEpi16(i16s, i16s)[..8]
  }

  function StoredU8(ri: seq<int>): (r: seq<int>)
    requires |ri| == 8
    ensures |r| == 8
  {
    var i16s := PacksEpi32(ri[..4], ri[4..]);
    PackusEpi16(i16s, i16s)[..8]
  }

  // In range, the packs neither saturate nor move a lane.
  lemma PacksKeepOrder(ri: seq<int>)
    requires |ri| == 8
    ensures I8s(ri) ==> StoredI8(ri) == ri
    ensures U8s(ri) ==> StoredU8(ri) == ri
  {
    var i16s := PacksEpi32(ri[..4], ri[4..]);
    forall j | 0 <= j < 8
      ensures i16s[j] == Sat16(ri[j])
    {
    }
  }

  // ----- one lane ------------------------------------------------------------

  function Limited(f: Float): Float {
    MinPs(MaxPs(f, Num(-127 * ONE)), Num(127 * ONE))
  }

  // cvtps: nearest integer; every value it receives here is already a whole number.
  function NearestInt(f: Float): int
    requires f.Num?
  {
    (f.v + HALF) / ONE
  }

  function Finish(r: Float): int {
    NearestInt(Limited(r))
  }

  // trunc(f), plus copysign(1, f) when the magnitude of the dropped fraction is at least a half.
  function LaneI8(f: Float): int {
    var tr := Trunc(f);
    var frac := Add(f, Neg(tr));
    var step := if AtLeast(Magnitude(frac), Num(HALF)) then CopySign(ONE, f) else Num(0);
    Finish(Add(tr, step))
  }

  // trunc(f + copysign(0.5, f)), shifted by 128.
  function LaneU8(f: Float): int {
    Finish(Trunc(Add(f, CopySign(HALF, f)))) + 128
  }

  lemma FinishWhole(k: int, x: int)
    requires x == k * ONE
    ensures Finish(Num(x)) == Clamp(k, -127, 127)
  {
  }

  lemma FinishFar(x: int)
    ensures x >= 127 * ONE ==> Finish(Num(x)) == 127
    ensures x <= -127 * ONE ==> Finish(Num(x)) == -127
  {
  }

  // ----- the signed lane -----------------------------------------------------

  lemma LaneI8Parts(f: Float, tr: Float, frac: Float, step: Float, r: Float)
    requires tr == Trunc(f) && frac == Add(f, Neg(tr)) && r == Add(tr, step)
    requires step == if AtLeast(Magnitude(frac), Num(HALF)) then CopySign(ONE, f) else Num(0)
    ensures LaneI8(f) == Finish(r)
  {
  }

  // x or -x.
  function Signed(x: int, neg: bool): int {
    if neg then -x else x
  }

  // Both halves of truncation are exact, and symmetric in the sign.
  lemma Parts(v: nat, k: nat, f: nat, neg: bool)
    requires k == v / ONE && f == v % ONE && (neg ==> v > 0)
    ensures Trunc(Num(Signed(v, neg))) == Num(Signed(k * ONE, neg))
    ensures Add(Num(Signed(v, neg)), Neg(Num(Signed(k * ONE, neg)))) == Num(Signed(Nearest(f), neg))
  {
  }

  function StepOf(frac: int): nat {
    if frac >= HALF then ONE else 0
  }

  lemma StepIs(v: nat, f: nat, neg: bool)
    requires neg ==> v > 0
    ensures (if AtLeast(Magnitude(Num(Signed(f, neg))), Num(HALF)) then CopySign(ONE, Num(Signed(v, neg))) else Num(0))
      == Num(Signed(StepOf(f), neg))
  {
  }

  lemma AddSigned(x: nat, y: nat, neg: bool)
    ensures Add(Num(Signed(x, neg)), Num(Signed(y, neg))) == Num(Signed(Nearest(x + y), neg))
  {
  }

  lemma LaneI8Sum(v: nat, k: nat, f: nat, g: nat, y: nat, neg: bool)
    requires k == v / ONE && f == v % ONE && (neg ==> v > 0)
    requires g == Nearest(f) && y == k * ONE + StepOf(g)
    ensures LaneI8(Num(Signed(v, neg))) == Finish(Num(Signed(Nearest(y), neg)))
  {
    Parts(v, k, f, neg);
    StepIs(v, g, neg);
    AddSigned(k * ONE, StepOf(g), neg);
    LaneI8Parts(Num(Signed(v, neg)), Num(Signed(k * ONE, neg)), Num(Signed(g, neg)), Num(Signed(StepOf(g), neg)),
                Num(Signed(Nearest(y), neg)));
  }

  lemma RoundedParts(v: nat, k: nat, f: nat)
    requires k == v / ONE && f == v % ONE
    ensures Rounded(v) == if f >= HALF then k + 1 else k
  {
  }

  // Within the limits every operation is exact.
  lemma FinishNear(v: nat, k: nat, f: nat, neg: bool)
    requires IsNumber(v) && v < 127 * ONE && k == v / ONE && f == v % ONE
    ensures Nearest(f) == f
    ensures Finish(Num(Signed(Nearest(k * ONE + StepOf(f)), neg))) == Signed(Clamp(Rounded(v), -127, 127), neg)
  {
    var r := if f >= HALF then k + 1 else k;
    FractionIsNumber(v);
    NearestExact(f);
    RoundedParts(v, k, f);
    WholeIsNumber(r);
    NearestExact(r * ONE);
    assert k * ONE + StepOf(f) == r * ONE;
    FinishWhole(Signed(r, neg), Signed(r * ONE, neg));
  }

  lemma RoundedFar(v: nat, k: nat)
    requires v >= 127 * ONE && k == v / ONE
    ensures Clamp(Rounded(v), -127, 127) == 127 && k * ONE >= 127 * ONE
  {
  }

  // Outside them the clamp hides whatever happens.
  lemma FinishBeyond(v: nat, k: nat, y: nat, neg: bool)
    requires v >= 127 * ONE && k == v / ONE && y >= k * ONE
    ensures Finish(Num(Signed(Nearest(y), neg))) == Signed(Clamp(Rounded(v), -127, 127), neg)
  {
    RoundedFar(v, k);
    NearestAtLeast(y);
    FinishFar(Signed(Nearest(y), neg));
  }

  lemma FinishStepped(v: nat, k: nat, f: nat, g: nat, y: nat, neg: bool)
    requires IsNumber(v) && k == v / ONE && f == v % ONE && g == Nearest(f) && y == k * ONE + StepOf(g)
    ensures Finish(Num(Signed(Nearest(y), neg))) == Signed(Clamp(Rounded(v), -127, 127), neg)
  {
    if v < 127 * ONE {
      FinishNear(v, k, f, neg);
    } else {
      FinishBeyond(v, k, y, neg);
    }
  }

  lemma LaneI8Num(v: nat, neg: bool)
    requires IsNumber(v) && (neg ==> v > 0)
    ensures LaneI8(Num(Signed(v, neg))) == Signed(Clamp(Rounded(v), -127, 127), neg)
  {
    var k, f := v / ONE, v % ONE;
    var g: nat := Nearest(f);
    var y := k * ONE + StepOf(g);
    FinishStepped(v, k, f, g, y, neg);
    LaneI8Sum(v, k, f, g, y, neg);
  }

  lemma LaneI8Special(f: Float)
    requires !f.Num?
    ensures LaneI8(f) == if f.NaN? then -127 else ScalarLevel(f)
  {
  }

  lemma ScalarSigned(v: nat, neg: bool)
    requires neg ==> v > 0
    ensures ScalarLevel(Num(Signed(v, neg))) == Signed(Clamp(Rounded(v), -127, 127), neg)
  {
  }

  // Splitting off the fraction is exact: the signed form differs from the scalar level on
  // NaN alone, which the limits turn into -127.
  lemma LaneI8Value(f: Float)
    requires IsFloat(f)
    ensures LaneI8(f) == if f.NaN? then -127 else ScalarLevel(f)
  {
    if f.Num? {
      var v, neg := Abs(f.v), f.v < 0;
      assert f == Num(Signed(v, neg));
      LaneI8Num(v, neg);
      ScalarSigned(v, neg);
    } else {
      LaneI8Special(f);
    }
  }

  // ----- the unsigned lane ---------------------------------------------------

  lemma LaneU8Parts(f: Float, sum: Float, r: Float)
    requires sum == Add(f, CopySign(HALF, f)) && r == Trunc(sum)
    ensures LaneU8(f) == Finish(r) + 128
  {
  }

  lemma AddHalf(v: nat, neg: bool)
    requires neg ==> v > 0
    ensures Add(Num(Signed(v, neg)), CopySign(HALF, Num(Signed(v, neg)))) == Num(Signed(Nearest(v + HALF), neg))
  {
  }

  lemma TruncSigned(y: nat, neg: bool)
    ensures Trunc(Num(Signed(y, neg))) == Num(Signed(y / ONE * ONE, neg))
  {
  }

  lemma WholeFar(v: nat)
    requires v >= 127 * ONE
    ensures Nearest(v + HALF) >= 127 * ONE
    ensures Nearest(v + HALF) / ONE >= 127
  {
    NearestAtLeast(v + HALF);
  }

  // The whole part of the rounded sum, within the limits.
  lemma HalfWhole(v: nat)
    requires IsNumber(v)
    ensures Nearest(v + HALF) >= 0
    ensures Clamp(Nearest(v + HALF) / ONE, -127, 127) == if v == EDGE then 1 else Clamp(Rounded(v), -127, 127)
  {
    if v < 127 * ONE {
      HalfAdded(v);
    } else {
      RoundedFar(v, v / ONE);
      WholeFar(v);
    }
  }

  lemma LaneU8Num(v: nat, neg: bool)
    requires IsNumber(v) && (neg ==> v > 0)
    ensures LaneU8(Num(Signed(v, neg))) == 128 + Signed(if v == EDGE then 1 else Clamp(Rounded(v), -127, 127), neg)
  {
    HalfWhole(v);
    var y: nat := Nearest(v + HALF);
    var k := y / ONE;
    AddHalf(v, neg);
    TruncSigned(y, neg);
    FinishSigned(k, neg);
    LaneU8Parts(Num(Signed(v, neg)), Num(Signed(y, neg)), Num(Signed(k * ONE, neg)));
  }

  lemma FinishSigned(k: nat, neg: bool)
    ensures Finish(Num(Signed(k * ONE, neg))) == Signed(Clamp(k, -127, 127), neg)
  {
    FinishWhole(Signed(k, neg), Signed(k * ONE, neg));
  }

  lemma LaneU8Special(f: Float)
    requires !f.Num?
    ensures LaneU8(f) == 128 + if f.NaN? then -127 else ScalarLevel(f)
  {
  }

  // The two numbers next to a half.
  predicate AtEdge(f: Float) {
    f == Num(EDGE) || f == Num(0 - EDGE)
  }

  // What the unsigned lane makes of a value: adding the half rounds the edge up to one.
  function LevelU8(f: Float): int {
    if f.NaN? then -127 else if AtEdge(f) then (if f.v < 0 then -1 else 1) else ScalarLevel(f)
  }

  lemma LaneU8Value(f: Float)
    requires IsFloat(f)
    ensures LaneU8(f) == LevelU8(f) + 128
  {
    if f.Num? {
      var v, neg := Abs(f.v), f.v < 0;
      assert f == Num(Signed(v, neg));
      LaneU8Num(v, neg);
      ScalarSigned(v, neg);
    } else {
      LaneU8Special(f);
    }
  }

  lemma EdgeIsNumber()
    ensures IsNumber(EDGE) && ScalarLevel(Num(EDGE)) == 0 && ScalarLevel(Num(0 - EDGE)) == 0
  {
    SpacingsNearOne();
    UlpAt(EDGE, HALF - 1);
  }

  // ----- eight lanes ---------------------------------------------------------

  predicate Floats(v: seq<Float>) {
    forall i :: 0 <= i < |v| ==> IsFloat(v[i])
  }

  function LevelI8(f: Float): (q: int)
    ensures -127 <= q <= 127
  {
    if f.NaN? then -127 else ScalarLevel(f)
  }

  function LanesI8(v: seq<Float>): (r: seq<int>)
    requires |v| == 8
    ensures |r| == 8
  {
    StoredI8(seq(8, j requires 0 <= j < 8 => LaneI8(v[j])))
  }

  function LanesU8(v: seq<Float>): (r: seq<int>)
    requires |v| == 8
    ensures |r| == 8
  {
    StoredU8(seq(8, j requires 0 <= j < 8 => LaneU8(v[j])))
  }

  // No pack saturates and no lane moves.
  lemma LanesStored(v: seq<Float>)
    requires |v| == 8 && Floats(v)
    ensures forall j :: 0 <= j < 8 ==> LanesI8(v)[j] == LevelI8(v[j])
    ensures forall j :: 0 <= j < 8 ==> LanesU8(v)[j] == LevelU8(v[j]) + 128
  {
    var s8 := seq(8, j requires 0 <= j < 8 => LaneI8(v[j]));
    var u8 := seq(8, j requires 0 <= j < 8 => LaneU8(v[j]));
    forall j | 0 <= j < 8
      ensures s8[j] == LevelI8(v[j]) && u8[j] == LevelU8(v[j]) + 128
    {
      LaneI8Value(v[j]);
      LaneU8Value(v[j]);
    }
    PacksKeepOrder(s8);
    PacksKeepOrder(u8);
  }

  // ----- rows ----------------------------------------------------------------

  // The first n entries times inv. The multiplication is the same instruction in all forms.
  function ScaledBy(x: seq<Float>, inv: Float, mul: (Float, Float) -> Float, n: nat): (v: seq<Float>)
    requires n <= |x|
    ensures |v| == n
  {
    seq(n, i requires 0 <= i < n => mul(x[i], inv))
  }

  // How many entries the eight-lane loop takes; the rest is left to the scalar tail.
  function Vectored(n: nat): (m: nat)
    ensures m <= n
  {
    n - n % 8
  }

  function ScalarRow(v: seq<Float>, offset: int): (r: seq<int>)
    ensures |r| == |v|
  {
    seq(|v|, i requires 0 <= i < |v| => ScalarLevel(v[i]) + offset)
  }

  function RowI8(v: seq<Float>): (r: seq<int>)
    ensures |r| == |v|
  {
    seq(|v|, i requires 0 <= i < |v| => if i < Vectored(|v|) then LevelI8(v[i]) else ScalarLevel(v[i]))
  }

  function RowU8(v: seq<Float>): (r: seq<int>)
    ensures |r| == |v|
  {
    seq(|v|, i requires 0 <= i < |v| => (if i < Vectored(|v|) then LevelU8(v[i]) else ScalarLevel(v[i])) + 128)
  }

  // The signed row is the scalar row byte for byte exactly when the eight-lane loop meets no NaN.
  lemma RowI8Iff(v: seq<Float>)
    ensures RowI8(v) == ScalarRow(v, 0) <==> forall i :: 0 <= i < Vectored(|v|) ==> !v[i].NaN?
  {
    if i :| 0 <= i < Vectored(|v|) && v[i].NaN? {
      assert RowI8(v)[i] != ScalarRow(v, 0)[i];
    }
  }

  // The unsigned row is the scalar row exactly when the loop meets neither a NaN nor a
  // number next to a half.
  lemma RowU8Iff(v: seq<Float>)
    ensures RowU8(v) == ScalarRow(v, 128) <==> forall i :: 0 <= i < Vectored(|v|) ==> !v[i].NaN? && !AtEdge(v[i])
  {
    EdgeIsNumber();
    if i :| 0 <= i < Vectored(|v|) && (v[i].NaN? || AtEdge(v[i])) {
      assert RowU8(v)[i] != ScalarRow(v, 128)[i];
    }
  }

  // A row of finite numbers on which the unsigned forms differ: its largest entry is 127, so
  // its scale and the inverse of that are one, and multiplying by one changes nothing.
  lemma EdgeRow(mul: (Float, Float) -> Float)
    requires forall f :: mul(f, Num(ONE)) == f
    ensures var x := [Num(127 * ONE)] + seq(7, _ => Num(EDGE));
      var v := ScaledBy(x, Num(ONE), mul, 8);
      Floats(x) && RowU8(v) == [255] + seq(7, _ => 129) && ScalarRow(v, 128) == [255] + seq(7, _ => 128)
  {
    EdgeIsNumber();
    WholeIsNumber(127);
    var x := [Num(127 * ONE)] + seq(7, _ => Num(EDGE));
    assert ScaledBy(x, Num(ONE), mul, 8) == x;
  }

  // The first i entries are stored, the others untouched.
  ghost predicate Stored(out: seq<int>, was: seq<int>, want: seq<int>, i: nat) {
    && i <= |want| <= |out| == |was|
    && (forall j :: 0 <= j < i ==> out[j] == want[j])
    && (forall j :: i <= j < |out| ==> out[j] == was[j])
  }

  lemma StoredAll(out: seq<int>, was: seq<int>, want: seq<int>)
    requires Stored(out, was, want, |want|)
    ensures out == want + was[|want|..]
  {
  }

  method QuantRowScalar(x: seq<Float>, inv: Float, mul: (Float, Float) -> Float, out: array<int>)
    modifies out
    ensures var n := Min(|x|, out.Length); out[..] == ScalarRow(ScaledBy(x, inv, mul, n), 0) + old(out[..])[n..]
  {
    var n := Min(|x|, out.Length);
    ghost var was, want := out[..], ScalarRow(ScaledBy(x, inv, mul, n), 0);
    StoreScalars(x, inv, mul, 0, out, 0, n, was, want);
    StoredAll(out[..], was, want);
  }

  // The scalar loop from entry i0 to n.
  method StoreScalars(x: seq<Float>, inv: Float, mul: (Float, Float) -> Float, offset: int, out: array<int>, i0: nat,
                      n: nat, ghost was: seq<int>, ghost want: seq<int>)
    requires i0 <= n == |want| <= |x| && Stored(out[..], was, want, i0)
    requires forall i :: i0 <= i < n ==> want[i] == ScalarLevel(mul(x[i], inv)) + offset
    modifies out
    ensures Stored(out[..], was, want, n)
  {
    for i := i0 to n
      invariant Stored(out[..], was, want, i)
    {
      out[i] := ScalarLevel(mul(x[i], inv)) + offset;
    }
  }

  method StoreLanes(lanes: seq<int>, out: array<int>, i: nat, ghost was: seq<int>, ghost want: seq<int>)
    requires |lanes| == 8 && Stored(out[..], was, want, i) && i + 8 <= |want|
    requires forall l :: 0 <= l < 8 ==> lanes[l] == want[i + l]
    modifies out
    ensures Stored(out[..], was, want, i + 8)
  {
    for l := 0 to 8
      invariant Stored(out[..], was, want, i + l)
    {
      out[i + l] := lanes[l];
    }
  }

  // Eight lanes are the next eight entries of the row.
  lemma LanesWanted(x: seq<Float>, inv: Float, mul: (Float, Float) -> Float, n: nat, i: nat)
    requires Floats(x) && IsFloat(inv) && forall f, g :: IsFloat(f) && IsFloat(g) ==> IsFloat(mul(f, g))
    requires i + 8 <= n <= |x| && i % 8 == 0
    ensures var v := ScaledBy(x[i..], inv, mul, 8);
      forall l :: 0 <= l < 8 ==>
        && LanesI8(v)[l] == RowI8(ScaledBy(x, inv, mul, n))[i + l]
        && LanesU8(v)[l] == RowU8(ScaledBy(x, inv, mul, n))[i + l]
  {
    var v := ScaledBy(x[i..], inv, mul, 8);
    LanesStored(v);
    assert forall l :: 0 <= l < 8 ==> v[l] == ScaledBy(x, inv, mul, n)[i + l];
    assert i + 8 <= Vectored(n);
  }

  method QuantRowAvx2(x: seq<Float>, inv: Float, mul: (Float, Float) -> Float, out: array<int>)
    requires Floats(x) && IsFloat(inv) && forall f, g :: IsFloat(f) && IsFloat(g) ==> IsFloat(mul(f, g))
    modifies out
    ensures var n := Min(|x|, out.Length); out[..] == RowI8(ScaledBy(x, inv, mul, n)) + old(out[..])[n..]
  {
    var n := Min(|x|, out.Length);
    ghost var was, want := out[..], RowI8(ScaledBy(x, inv, mul, n));
    var i := 0;
    while i + 8 <= n
      invariant 0 <= i <= n && i % 8 == 0 && Stored(out[..], was, want, i)
    {
      var v := ScaledBy(x[i..], inv, mul, 8);
      LanesWanted(x, inv, mul, n, i);
      StoreLanes(LanesI8(v), out, i, was, want);
      i := i + 8;
    }
    assert i == Vectored(n);
    StoreScalars(x, inv, mul, 0, out, i, n, was, want);
    StoredAll(out[..], was, want);
  }

  // The unsigned form; the caller's output row is as long as the input.
  method QuantRowU8Avx2(x: seq<Float>, inv: Float, mul: (Float, Float) -> Float, out: array<int>)
    requires |x| <= out.Length
    requires Floats(x) && IsFloat(inv) && forall f, g :: IsFloat(f) && IsFloat(g) ==> IsFloat(mul(f, g))
    modifies out
    ensures out[..] == RowU8(ScaledBy(x, inv, mul, |x|)) + old(out[..])[|x|..]
  {
    var n := |x|;
    ghost var was, want := out[..], RowU8(ScaledBy(x, inv, mul, n));
    var i := 0;
    while i + 8 <= n
      invariant 0 <= i <= n && i % 8 == 0 && Stored(out[..], was, want, i)
    {
      var v := ScaledBy(x[i..], inv, mul, 8);
      LanesWanted(x, inv, mul, n, i);
      StoreLanes(LanesU8(v), out, i, was, want);
      i := i + 8;
    }
    assert i == Vectored(n);
    StoreScalars(x, inv, mul, 128, out, i, n, was, want);
    StoredAll(out[..], was, want);
  }
}
