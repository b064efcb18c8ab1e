// Finite binary32 numbers as whole multiples of 2^-149, the least subnormal, and the
// rounding to nearest, ties to even, of section 4.3.1 of IEEE 754. The largest exponent is
// not modelled: no operation here can overflow.
module Binary32 {
  import opened Integers

  const ONE: nat := 0x20000000000000000000000000000000000000
  const HALF: nat := 0x10000000000000000000000000000000000000

  // The largest number below one half: 0.49999997.
  const EDGE: nat := HALF - 0x10000000000000000000000000000000

  // The spacing of 24-bit significands around magnitude x.
  function Ulp(x: nat): (u: nat)
    ensures u > 0
  {
    if x < 0x100_0000 then 1 else 2 * Ulp(x / 2)
  }

  predicate IsNumber(v: int) {
    Abs(v) % Ulp(Abs(v)) == 0
  }

  // The largest multiple of the spacing that is at most x.
  function Below(x: nat): (lo: nat)
    ensures lo <= x < lo + Ulp(x)
  {
    Remainder(x, Ulp(x));
    x - x % Ulp(x)
  }

  lemma Remainder(x: nat, u: nat)
    requires u > 0
    ensures 0 <= x % u <= x && x % u < u
  {
    var q := x / u;
    assert x == q * u + x % u;
    assert q * u >= 0;
  }

  function NearestNat(x: nat): (y: nat) {
    var u := Ulp(x);
    var r := x % u;
    if 2 * r < u || (2 * r == u && x / u % 2 == 0) then Below(x) else Below(x) + u
  }

  function Nearest(x: int): int {
    if x >= 0 then NearestNat(x) else 0 - NearestNat(-x)
  }

  // ----- spacing -------------------------------------------------------------

  lemma {:induction false} UlpRange(x: nat)
    ensures x < 0x100_0000 * Ulp(x)
    ensures Ulp(x) == 1 || (Ulp(x) % 2 == 0 && 0x80_0000 * Ulp(x) <= x)
  {
    if x >= 0x100_0000 {
      UlpRange(x / 2);
    }
  }

  // Spacings are powers of two: the smaller divides the larger.
  lemma {:induction false} UlpDivides(x: nat, y: nat) returns (k: nat)
    requires x <= y
    ensures k > 0 && Ulp(y) == k * Ulp(x)
  {
    if x < 0x100_0000 {
      k := Ulp(y);
    } else {
      k := UlpDivides(x / 2, y / 2);
      assert 2 * (k * Ulp(x / 2)) == k * (2 * Ulp(x / 2));
    }
  }

  // The spacing is u from 2^23 u up to 2^24 u.
  lemma UlpAt(x: nat, y: nat)
    requires 0x80_0000 * Ulp(y) <= x < 0x100_0000 * Ulp(y)
    ensures Ulp(x) == Ulp(y)
  {
    UlpRange(x);
    UlpRange(y);
    if x <= y {
      var k := UlpDivides(x, y);
      OneTurn(Ulp(x), k);
    } else {
      var k := UlpDivides(y, x);
      OneTurn(Ulp(y), k);
    }
  }

  lemma OneTurn(u: nat, k: nat)
    ensures k > 1 ==> k * u >= 2 * u
    ensures k == 1 ==> k * u == u
  {
  }

  // ----- multiples of a spacing ----------------------------------------------

  lemma DivModUnique(a: nat, u: nat, q: nat, r: nat)
    requires u > 0 && r < u && a == q * u + r
    ensures a / u == q && a % u == r
  {
    var q', r' := a / u, a % u;
    assert a == q' * u + r';
    Apart(q, q', u);
    Apart(q', q, u);
  }

  lemma Apart(q: nat, q': nat, u: nat)
    ensures q < q' ==> q * u + u <= q' * u
  {
    if q < q' {
      assert (q + 1) * u <= q' * u;
    }
  }

  lemma Multiple(k: nat, u: nat)
    requires u > 0
    ensures k * u % u == 0
  {
    DivModUnique(k * u, u, k, 0);
  }

  // Different multiples are at least u apart, and so are their neighbours multiples.
  lemma Neighbours(a: nat, b: nat, u: nat)
    requires u > 0 && a % u == 0
    ensures (a + u) % u == 0
    ensures b % u == 0 && a < b ==> a + u <= b
  {
    var p := a / u;
    assert a == p * u;
    assert (p + 1) * u == p * u + u;
    Multiple(p + 1, u);
    if b % u == 0 {
      assert b == b / u * u;
      Apart(p, b / u, u);
      Apart(b / u, p, u);
    }
  }

  lemma FloorIsMultiple(x: nat, u: nat)
    requires u > 0
    ensures (x - x % u) % u == 0
  {
    assert x == x / u * u + x % u;
    Multiple(x / u, u);
  }

  lemma BelowIsMultiple(x: nat)
    ensures Below(x) % Ulp(x) == 0
  {
    FloorIsMultiple(x, Ulp(x));
  }

  // ----- rounding ------------------------------------------------------------

  // A number is its own rounding.
  lemma NearestExact(v: int)
    requires IsNumber(v)
    ensures Nearest(v) == v
  {
  }

  lemma UlpWithin(x: nat, y: nat)
    requires Ulp(x) > 1 ==> 0x80_0000 * Ulp(x) <= y
    requires y < 0x100_0000 * Ulp(x)
    ensures Ulp(y) == Ulp(x)
  {
    if Ulp(x) > 1 {
      UlpAt(y, x);
    }
  }

  // The neighbours of x stay within its power of two, the upper one up to its end.
  lemma BelowWithin(x: nat)
    ensures Below(x) + Ulp(x) <= 0x100_0000 * Ulp(x)
    ensures Ulp(x) > 1 ==> 0x80_0000 * Ulp(x) <= Below(x)
  {
    var u := Ulp(x);
    UlpRange(x);
    BelowIsMultiple(x);
    Multiple(0x80_0000, u);
    Multiple(0x100_0000, u);
    Neighbours(Below(x), 0x100_0000 * u, u);
    Neighbours(Below(x), 0x80_0000 * u, u);
  }

  // Any multiple of the spacing there, and the next power of two, is a number.
  lemma MultipleIsNumber(x: nat, y: nat)
    requires y % Ulp(x) == 0 && y <= 0x100_0000 * Ulp(x) && (Ulp(x) > 1 ==> 0x80_0000 * Ulp(x) <= y)
    ensures IsNumber(y)
  {
    if y < 0x100_0000 * Ulp(x) {
      UlpWithin(x, y);
    } else {
      PowerIsNumber(x, y, Ulp(x));
    }
  }

  lemma PowerIsNumber(x: nat, y: nat, u: nat)
    requires u == Ulp(x) && y == 0x100_0000 * u
    ensures IsNumber(y)
  {
    UlpWithin(x, 0x80_0000 * u);
    assert y / 2 == 0x80_0000 * u;
    Multiple(0x80_0000, 2 * u);
  }

  lemma NearestIsNumber(x: int)
    ensures IsNumber(Nearest(x))
  {
    var z := Abs(x);
    BelowIsMultiple(z);
    BelowWithin(z);
    Neighbours(Below(z), 0, Ulp(z));
    MultipleIsNumber(z, Below(z));
    MultipleIsNumber(z, Below(z) + Ulp(z));
  }

  // No number lies strictly between the two neighbours of x.
  lemma NoneBetween(x: nat, z: nat)
    requires IsNumber(z)
    ensures z <= Below(x) || Below(x) + Ulp(x) <= z
  {
    BelowWithin(x);
    BelowIsMultiple(x);
    if Below(x) < z < Below(x) + Ulp(x) {
      UlpWithin(x, z);
      Neighbours(Below(x), z, Ulp(x));
    }
  }

  // The rounding is a nearest number.
  lemma NearestIsNearest(x: int, z: int)
    requires IsNumber(z)
    ensures Abs(x - Nearest(x)) <= Abs(x - z)
  {
    NoneBetween(Abs(x), Abs(z));
  }

  // ----- the quantisers' range -----------------------------------------------

  // Appending low bits to a 24-bit significand scales its spacing.
  lemma FourBits(y: nat, x: nat)
    requires y >= 0x100_0000 && x == 16 * y + 15
    ensures Ulp(x) == 16 * Ulp(y)
  {
    assert x / 2 == 8 * y + 7 && x / 2 / 2 == 4 * y + 3;
    assert x / 2 / 2 / 2 == 2 * y + 1 && x / 2 / 2 / 2 / 2 == y;
    assert Ulp(x) == 2 * Ulp(x / 2) == 4 * Ulp(x / 2 / 2);
    assert Ulp(4 * y + 3) == 2 * Ulp(2 * y + 1) == 4 * Ulp(y);
  }

  lemma SixteenBits(y: nat, x: nat)
    requires y >= 0x100_0000 && x == 0x1_0000 * y + 0xFFFF
    ensures Ulp(x) == 0x1_0000 * Ulp(y)
  {
    var y1 := 16 * y + 15;
    var y2 := 16 * y1 + 15;
    var y3 := 16 * y2 + 15;
    assert x == 16 * y3 + 15;
    FourBits(y, y1);
    FourBits(y1, y2);
    FourBits(y2, y3);
    FourBits(y3, x);
  }

  // The spacing just below 256.
  lemma SpacingAt256()
    ensures Ulp(256 * ONE - 1) == 0x2000000000000000000000000000000000
  {
    assert Ulp(0x1FFFFFF) == 2 * Ulp(0xFFFFFF);
    FourBits(0x1FFFFFF, 0x1FFFFFFF);
    SixteenBits(0x1FFFFFFF, 0x1FFFFFFFFFFF);
    SixteenBits(0x1FFFFFFFFFFF, 0x1FFFFFFFFFFFFFFF);
    SixteenBits(0x1FFFFFFFFFFFFFFF, 0x1FFFFFFFFFFFFFFFFFFF);
    SixteenBits(0x1FFFFFFFFFFFFFFFFFFF, 0x1FFFFFFFFFFFFFFFFFFFFFFF);
    SixteenBits(0x1FFFFFFFFFFFFFFFFFFFFFFF, 0x1FFFFFFFFFFFFFFFFFFFFFFFFFFF);
    SixteenBits(0x1FFFFFFFFFFFFFFFFFFFFFFFFFFF, 0x1FFFFFFFFFFFFFFFFFFFFFFFFFFFFFFF);
    SixteenBits(0x1FFFFFFFFFFFFFFFFFFFFFFFFFFFFFFF, 0x1FFFFFFFFFFFFFFFFFFFFFFFFFFFFFFFFFFF);
    SixteenBits(0x1FFFFFFFFFFFFFFFFFFFFFFFFFFFFFFFFFFF, 0x1FFFFFFFFFFFFFFFFFFFFFFFFFFFFFFFFFFFFFFF);
  }

  // Below 256 the spacing divides a half.
  lemma SpacingDividesHalf(x: nat)
    requires x < 256 * ONE
    ensures HALF % Ulp(x) == 0 && ONE % Ulp(x) == 0 && Ulp(x) < HALF
  {
    SpacingAt256();
    var k := UlpDivides(x, 256 * ONE - 1);
    var u := Ulp(x);
    assert 0x8000 * (k * u) == (0x8000 * k) * u && 0x1_0000 * (k * u) == (0x1_0000 * k) * u;
    Multiple(0x8000 * k, u);
    Multiple(0x1_0000 * k, u);
    OneTurn(u, k);
  }

  // The spacing from 1 to 2, from 1/2 to 1, and from 1/4 to 1/2.
  lemma SpacingsNearOne()
    ensures Ulp(2 * ONE - 1) == 0x40000000000000000000000000000000
    ensures Ulp(ONE - 1) == 0x20000000000000000000000000000000
    ensures Ulp(HALF - 1) == 0x10000000000000000000000000000000
  {
    SpacingAt256();
    assert Ulp(256 * ONE - 1) == 2 * Ulp(128 * ONE - 1) == 4 * Ulp(64 * ONE - 1);
    assert Ulp(64 * ONE - 1) == 2 * Ulp(32 * ONE - 1) == 4 * Ulp(16 * ONE - 1);
    assert Ulp(16 * ONE - 1) == 2 * Ulp(8 * ONE - 1) == 4 * Ulp(4 * ONE - 1);
    assert Ulp(4 * ONE - 1) == 2 * Ulp(2 * ONE - 1) == 4 * Ulp(ONE - 1);
    assert Ulp(ONE - 1) == 2 * Ulp(HALF - 1);
  }

  // A multiple a of the spacing that is at most x is at most the rounding of x.
  lemma NearestAbove(x: nat, a: nat)
    requires a <= x && a % Ulp(x) == 0
    ensures a <= Below(x) <= NearestNat(x)
  {
    BelowIsMultiple(x);
    Neighbours(Below(x), a, Ulp(x));
  }

  lemma MultipleOfOne(k: nat, x: nat)
    requires x < 256 * ONE
    ensures k * ONE % Ulp(x) == 0
  {
    var u := Ulp(x);
    SpacingDividesHalf(x);
    var c := ONE / u;
    assert ONE == c * u;
    assert k * (c * u) == (k * c) * u;
    Multiple(k * c, u);
  }

  lemma NearestAtLeast(x: nat)
    requires x >= 127 * ONE
    ensures NearestNat(x) >= 127 * ONE
  {
    if x < 256 * ONE {
      MultipleOfOne(127, x);
      NearestAbove(x, 127 * ONE);
    } else {
      UlpRange(x);
    }
  }

  // The end of the power of two that v >= 1 lies in is a whole number.
  lemma WholeBinade(v: nat)
    requires v >= ONE
    ensures 0x100_0000 * Ulp(v) % ONE == 0
  {
    SpacingsNearOne();
    UlpAt(ONE, 2 * ONE - 1);
    var k := UlpDivides(ONE, v);
    assert 0x100_0000 * Ulp(v) == 2 * k * ONE;
    Multiple(2 * k, ONE);
  }

  lemma SameWholeBelow(v: nat, s: nat, e: nat)
    requires e % ONE == 0 && v < e && v / ONE == s / ONE
    ensures s < e
  {
  }

  // From 1 on, the spacing changes at whole numbers only.
  lemma SpacingConstant(v: nat, s: nat)
    requires ONE <= v <= s && v / ONE == s / ONE
    ensures Ulp(s) == Ulp(v)
  {
    var e := 0x100_0000 * Ulp(v);
    WholeBinade(v);
    UlpRange(v);
    SameWholeBelow(v, s, e);
    UlpWithin(v, s);
  }

  // ----- adding one half -----------------------------------------------------

  lemma SumOfMultiples(a: nat, b: nat, u: nat)
    requires u > 0 && a % u == 0 && b % u == 0
    ensures (a + b) % u == 0
  {
    assert a == a / u * u && b == b / u * u;
    assert (a / u + b / u) * u == a + b;
    Multiple(a / u + b / u, u);
  }

  lemma HalfStaysWhole(v: nat)
    ensures v % ONE < HALF ==> (v + HALF) / ONE == v / ONE
  {
  }

  // From one on, adding a half to a fraction below one half is exact.
  lemma HalfExact(v: nat)
    requires IsNumber(v) && ONE <= v < 255 * ONE && v % ONE < HALF
    ensures NearestNat(v + HALF) == v + HALF
  {
    HalfStaysWhole(v);
    SpacingConstant(v, v + HALF);
    SpacingDividesHalf(v);
    SumOfMultiples(v, HALF, Ulp(v));
  }

  // From one half on, the sum lands too far from the next whole number to reach it.
  lemma NearestWithin(x: nat)
    ensures NearestNat(x) <= x + Ulp(x)
  {
  }

  lemma SameWhole(k: nat, y: nat)
    requires k * ONE <= y < k * ONE + ONE
    ensures y / ONE == k
  {
  }

  lemma HalfRoundedUp(v: nat)
    requires v < 255 * ONE && v % ONE >= HALF
    ensures NearestNat(v + HALF) / ONE == (v + HALF) / ONE
  {
    var s := v + HALF;
    var k := s / ONE;
    assert k * ONE <= s < k * ONE + HALF;
    SpacingDividesHalf(s);
    MultipleOfOne(k, s);
    NearestAbove(s, k * ONE);
    NearestWithin(s);
    SameWhole(k, NearestNat(s));
  }

  // Below one half, only the number next to it is carried over.
  lemma HalfBelowHalf(v: nat)
    requires IsNumber(v) && v < HALF
    ensures NearestNat(v + HALF) / ONE == if v == EDGE then 1 else 0
  {
    var s := v + HALF;
    SpacingsNearOne();
    UlpAt(s, ONE - 1);
    if v < HALF / 2 {
    } else {
      UlpAt(v, HALF - 1);
      if v != EDGE {
        assert s <= ONE - Ulp(s);
        BelowIsMultiple(s);
      }
    }
  }

  lemma HalfAdded(v: nat)
    requires IsNumber(v) && v < 255 * ONE
    ensures NearestNat(v + HALF) / ONE == if v == EDGE then 1 else (v + HALF) / ONE
  {
    if v % ONE >= HALF {
      HalfRoundedUp(v);
    } else if v >= ONE {
      HalfExact(v);
    } else {
      HalfBelowHalf(v);
    }
  }

  // ----- splitting off the fraction ------------------------------------------

  // A fraction is a number: it needs no finer spacing.
  lemma FractionIsNumber(v: nat)
    requires IsNumber(v) && v < 256 * ONE
    ensures IsNumber(v % ONE)
  {
    var k := v / ONE;
    MultipleOfOne(k, v);
    DifferenceOfMultiples(v, k * ONE, Ulp(v));
    assert v - k * ONE == v % ONE;
    FinerIsNumber(v % ONE, v);
  }

  // A multiple of the spacing of v below v is a number.
  lemma FinerIsNumber(f: nat, v: nat)
    requires f <= v && f % Ulp(v) == 0
    ensures IsNumber(f)
  {
    var k := UlpDivides(f, v);
    FactorDivides(f, k, Ulp(f));
  }

  lemma FactorDivides(f: nat, k: nat, u: nat)
    requires k > 0 && u > 0 && f % (k * u) == 0
    ensures f % u == 0
  {
    var d := f / (k * u);
    assert f == d * (k * u);
    assert d * (k * u) == (d * k) * u;
    Multiple(d * k, u);
  }

  lemma DifferenceOfMultiples(a: nat, b: nat, u: nat)
    requires u > 0 && a % u == 0 && b % u == 0 && b <= a
    ensures (a - b) % u == 0
  {
    assert a == a / u * u && b == b / u * u;
    assert (a / u - b / u) * u == a - b;
    Apart(a / u, b / u, u);
    Multiple(a / u - b / u, u);
  }

  lemma WholeIsNumber(k: nat)
    requires k < 256
    ensures IsNumber(k * ONE)
  {
    MultipleOfOne(k, k * ONE);
  }

  // ----- values and instructions ---------------------------------------------

  // The two zeros are one value. They differ in the sign a half is given: -0.0 gets -0.5 and
  // here +0.5, but the level is 0 either way. The sign of a NaN is not kept, as every
  // operation on one gives a NaN.
  datatype Float = NaN | Inf(negative: bool) | Num(v: int)

  predicate IsFloat(f: Float) {
    f.Num? ==> IsNumber(f.v)
  }

  predicate Negative(f: Float) {
    match f
    case NaN => false
    case Inf(n) => n
    case Num(v) => v < 0
  }

  // The magnitude with the sign of f.
  function CopySign(magnitude: nat, f: Float): Float {
    Num(if Negative(f) then 0 - magnitude else magnitude)
  }

  function Add(f: Float, g: Float): Float {
    if f.NaN? || g.NaN? then NaN
    else if f.Inf? then (if g.Inf? && f.negative != g.negative then NaN else f)
    else if g.Inf? then g
    else Num(Nearest(f.v + g.v))
  }

  function Neg(f: Float): Float {
    match f
    case NaN => NaN
    case Inf(n) => Inf(!n)
    case Num(v) => Num(-v)
  }

  function Magnitude(f: Float): Float {
    if Negative(f) then Neg(f) else f
  }

  // Toward zero, to a whole number of units.
  function Whole(v: int): int {
    if v >= 0 then v / ONE else -(-v / ONE)
  }

  function Trunc(f: Float): Float {
    if f.Num? then Num(Whole(f.v) * ONE) else f
  }

  // Ordered comparison: false on NaN.
  predicate Less(f: Float, g: Float) {
    match f
    case NaN => false
    case Inf(n) => n && !g.NaN? && g != f
    case Num(v) => (match g
                    case NaN => false
                    case Inf(n) => !n
                    case Num(w) => v < w)
  }

  predicate AtLeast(f: Float, g: Float) {
    !f.NaN? && !g.NaN? && !Less(f, g)
  }

  // vmaxps and vminps return their second operand unless the first one wins.
  function MaxPs(f: Float, g: Float): Float { if Less(g, f) then f else g }
  function MinPs(f: Float, g: Float): Float { if Less(f, g) then f else g }
}
