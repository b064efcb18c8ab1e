// The vector instructions the kernels use, lane by lane. A register is the
// sequence of its lanes; narrow lanes saturate or wrap exactly as the hardware does.
module Simd {
  import opened Integers
  import opened Dots

  function Zero(lanes: nat): (r: seq<int>)
    ensures |r| == lanes
    ensures forall j :: 0 <= j < lanes ==> r[j] == 0
  {
    seq(lanes, _ => 0)
  }

  function Ones16(): (r: seq<int>)
    ensures |r| == 16
  {
    seq(16, _ => 1)
  }

  // vpmaddubsw: unsigned-by-signed byte products, adjacent pairs added with i16 saturation.
  function MaddubsEpi16(a: seq<int>, b: seq<int>): (r: seq<int>)
    requires |a| == |b| == 32
    ensures |r| == 16
  {
    seq(16, i requires 0 <= i < 16 => Sat16(a[2 * i] * b[2 * i] + a[2 * i + 1] * b[2 * i + 1]))
  }

  // vpmaddwd: i16 products, adjacent pairs added in i32 (the one overflowing case wraps).
  function MaddEpi16(a: seq<int>, b: seq<int>): (r: seq<int>)
    requires |a| == |b| == 16
    ensures |r| == 8
  {
    seq(8, j requires 0 <= j < 8 => Wrap32(a[2 * j] * b[2 * j] + a[2 * j + 1] * b[2 * j + 1]))
  }

  // vpmovsxbw: sign extension keeps every value.
  function CvtEpi8Epi16(a: seq<int>): (r: seq<int>)
    requires |a| == 16 && I8s(a)
    ensures r == a && I16s(r)
  {
    a
  }

  function AddEpi16(u: seq<int>, v: seq<int>): (r: seq<int>)
    requires |u| == |v|
    ensures |r| == |u|
  {
    seq(|u|, j requires 0 <= j < |u| => Wrap16(u[j] + v[j]))
  }

  function AddEpi32(u: seq<int>, v: seq<int>): (r: seq<int>)
    requires |u| == |v|
    ensures |r| == |u|
  {
    seq(|u|, j requires 0 <= j < |u| => Wrap32(u[j] + v[j]))
  }

  // pshufd with the four 2-bit selectors of the immediate, lowest lane first.
  function ShuffleEpi32(v: seq<int>, s0: nat, s1: nat, s2: nat, s3: nat): (r: seq<int>)
    requires |v| == 4 && s0 < 4 && s1 < 4 && s2 < 4 && s3 < 4
    ensures |r| == 4
  {
    [v[s0], v[s1], v[s2], v[s3]]
  }

  // Horizontal sum by storing the register and summing its lanes from the left.
  function HsumStored(t: seq<int>, n: nat): int
    requires n <= |t|
  {
    if n == 0 then 0 else Wrap32(HsumStored(t, n - 1) + t[n - 1])
  }

  // Horizontal sum by halving: low half plus high half, then two shuffles.
  function HsumShuffled(v: seq<int>): int
    requires |v| == 8
  {
    var q := AddEpi32(v[..4], v[4..]);
    var q' := AddEpi32(q, ShuffleEpi32(q, 2, 3, 0, 1));
    var q'' := AddEpi32(q', ShuffleEpi32(q', 1, 0, 0, 0));
    q''[0]
  }

  // The instructions at their limits.
  lemma Extremes()
    ensures MaddubsEpi16(seq(32, _ => 255), seq(32, _ => 127))[0] == 32767
    ensures MaddubsEpi16(seq(32, _ => 255), seq(32, _ => -128))[0] == -32768
    ensures MaddEpi16(seq(16, _ => -32768), seq(16, _ => -32768))[0] == -2147483648
    ensures AddEpi16([32767], [1]) == [-32768] && AddEpi32([2147483647], [1]) == [-2147483648]
    ensures ShuffleEpi32([10, 11, 12, 13], 2, 3, 0, 1) == [12, 13, 10, 11]
  {
  }

  lemma {:induction false} AddSum(u: seq<int>, v: seq<int>, n: nat)
    requires n <= |u| == |v|
    ensures Congruent(SumTo(AddEpi32(u, v), n), SumTo(u, n) + SumTo(v, n))
  {
    if n == 0 {
      CongruentSame(0);
    } else {
      AddSum(u, v, n - 1);
      var t := AddEpi32(u, v);
      WrapCongruent(u[n - 1] + v[n - 1]);
      CongruentAdd(SumTo(t, n - 1), SumTo(u, n - 1) + SumTo(v, n - 1), t[n - 1], u[n - 1] + v[n - 1]);
    }
  }

  lemma {:induction false} HsumStoredSum(t: seq<int>, n: nat)
    requires n <= |t|
    ensures Congruent(HsumStored(t, n), SumTo(t, n))
  {
    if n == 0 {
      CongruentSame(0);
    } else {
      HsumStoredSum(t, n - 1);
      WrapAdd(HsumStored(t, n - 1), t[n - 1], SumTo(t, n - 1));
    }
  }

  lemma Sum8(v: seq<int>)
    requires |v| == 8
    ensures Sum(v) == v[0] + v[1] + v[2] + v[3] + v[4] + v[5] + v[6] + v[7]
  {
    assert SumTo(v, 1) == SumTo(v, 0) + v[0];
    assert SumTo(v, 3) == SumTo(v, 2) + v[2] == SumTo(v, 1) + v[1] + v[2];
    assert SumTo(v, 5) == SumTo(v, 4) + v[4] == SumTo(v, 3) + v[3] + v[4];
    assert SumTo(v, 7) == SumTo(v, 6) + v[6] == SumTo(v, 5) + v[5] + v[6];
  }

  // The addition tree of the shuffle network, lane by lane.
  lemma HsumShuffledTree(v: seq<int>)
    requires |v| == 8
    ensures HsumShuffled(v) == Wrap32(
      Wrap32(Wrap32(v[0] + v[4]) + Wrap32(v[2] + v[6])) + Wrap32(Wrap32(v[1] + v[5]) + Wrap32(v[3] + v[7])))
  {
  }

  // The shuffle network adds every lane exactly once.
  lemma HsumShuffledSum(v: seq<int>)
    requires |v| == 8
    ensures Congruent(HsumShuffled(v), Sum(v))
  {
    var q0, q1 := Wrap32(v[0] + v[4]), Wrap32(v[1] + v[5]);
    var q2, q3 := Wrap32(v[2] + v[6]), Wrap32(v[3] + v[7]);
    WrapCongruent(v[0] + v[4]);
    WrapCongruent(v[1] + v[5]);
    WrapCongruent(v[2] + v[6]);
    WrapCongruent(v[3] + v[7]);
    WrapAdd2(q0, v[0] + v[4], q2, v[2] + v[6]);
    WrapAdd2(q1, v[1] + v[5], q3, v[3] + v[7]);
    WrapAdd2(Wrap32(q0 + q2), v[0] + v[4] + (v[2] + v[6]), Wrap32(q1 + q3), v[1] + v[5] + (v[3] + v[7]));
    HsumShuffledTree(v);
    Sum8(v);
  }

  // Both horizontal sums leave the same i32.
  lemma HsumsAgree(v: seq<int>)
    requires |v| == 8
    ensures HsumShuffled(v) == HsumStored(v, 8) == Wrap32(Sum(v))
  {
    HsumShuffledSum(v);
    HsumStoredSum(v, 8);
    WrapUnique(HsumShuffled(v), Sum(v));
    WrapUnique(HsumStored(v, 8), Sum(v));
  }

  // Widening by ones halves the lane count and keeps the sum.
  lemma WidenSum(v: seq<int>)
    requires |v| == 16 && I16s(v)
    ensures Sum(MaddEpi16(v, Ones16())) == Sum(v)
  {
    var d := MaddEpi16(v, Ones16());
    forall j | 0 <= j < 8
      ensures d[j] == v[2 * j] + v[2 * j + 1]
    {
    }
    WidenSumTo(v, d, 8);
  }

  lemma {:induction false} WidenSumTo(v: seq<int>, d: seq<int>, n: nat)
    requires |v| == 2 * |d| && n <= |d|
    requires forall j :: 0 <= j < |d| ==> d[j] == v[2 * j] + v[2 * j + 1]
    ensures SumTo(d, n) == SumTo(v, 2 * n)
  {
    if n > 0 {
      WidenSumTo(v, d, n - 1);
      assert SumTo(v, 2 * n) == SumTo(v, 2 * n - 1) + v[2 * n - 1];
    }
  }

  // i16 accumulation is exact while the lane-wise sums stay in range.
  lemma {:induction false} AddSum16(u: seq<int>, v: seq<int>, n: nat)
    requires n <= |u| == |v|
    requires forall j :: 0 <= j < |u| ==> -0x8000 <= u[j] + v[j] < 0x8000
    ensures SumTo(AddEpi16(u, v), n) == SumTo(u, n) + SumTo(v, n)
  {
    if n > 0 {
      AddSum16(u, v, n - 1);
      assert Wrap16(u[n - 1] + v[n - 1]) == u[n - 1] + v[n - 1];
    }
  }

  // One step of a scalar tail: s += x * y in i32.
  function MulAdd(s: int, x: int, y: int): (r: int)
    ensures IsI32(r)
  {
    Wrap32(s + x * y)
  }

  lemma MulAddStep(s: int, a: seq<int>, w: seq<int>, x: nat)
    requires x < |a| && x < |w| && Congruent(s, DotTo(a, w, x))
    ensures Congruent(MulAdd(s, a[x], w[x]), DotTo(a, w, x + 1))
  {
    WrapAdd(s, a[x] * w[x], DotTo(a, w, x));
    DotStep(a, w, x);
  }
}
