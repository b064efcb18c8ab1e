// Machine integers over Dafny's unbounded ones: ranges, two's-complement
// wrap-around, saturation, and the congruence modulo 2^32 that makes wrapping
// accumulation independent of order.
module Integers {

  predicate IsU8(x: int) { 0 <= x < 0x100 }
  predicate IsI8(x: int) { -0x80 <= x < 0x80 }
  predicate IsI16(x: int) { -0x8000 <= x < 0x8000 }
  predicate IsI32(x: int) { -0x8000_0000 <= x < 0x8000_0000 }

  ghost predicate U8s(a: seq<int>) { forall i :: 0 <= i < |a| ==> IsU8(a[i]) }
  ghost predicate I8s(a: seq<int>) { forall i :: 0 <= i < |a| ==> IsI8(a[i]) }
  ghost predicate I16s(a: seq<int>) { forall i :: 0 <= i < |a| ==> IsI16(a[i]) }
  ghost predicate I32s(a: seq<int>) { forall i :: 0 <= i < |a| ==> IsI32(a[i]) }

  function Wrap16(x: int): (r: int)
    ensures IsI16(r)
  {
    (x + 0x8000) % 0x1_0000 - 0x8000
  }

  function Wrap32(x: int): (r: int)
    ensures IsI32(r)
  {
    (x + 0x8000_0000) % 0x1_0000_0000 - 0x8000_0000
  }

  lemma WrapSame(x: int)
    requires IsI32(x)
    ensures Wrap32(x) == x
  {
  }

  function Clamp(x: int, lo: int, hi: int): int {
    if x < lo then lo else if x > hi then hi else x
  }

  function Sat8(x: int): int { Clamp(x, -0x80, 0x7F) }
  function SatU8(x: int): int { Clamp(x, 0, 0xFF) }
  function Sat16(x: int): int { Clamp(x, -0x8000, 0x7FFF) }

  function Abs(x: int): nat {
    if x < 0 then -x else x
  }

  function DivCeil(x: nat, d: nat): nat
    requires d > 0
  {
    (x + d - 1) / d
  }

  function Quotient(x: nat, d: nat): (q: nat)
    requires d > 0
    ensures q * d <= x < q * d + d
  {
    var q := x / d;
    assert x == q * d + x % d;
    q
  }

  // A key for facts that a proof should only see when it asks for them.
  ghost predicate Open(b: bool) { true }

  // The same for one subject, so that asking about it says nothing about others. Where a
  // predicate's value is described as `exact :| forall b :: On(b, s) ==> (exact <==> ...)`, a
  // proof that does not name On(true, s) unfolds it neither when it holds nor when it fails.
  ghost predicate On<T>(b: bool, subject: T) { true }

  ghost predicate Modulus(m: int) {
    m == 0x1_0000_0000
  }

  // x and y differ by k whole turns of the 32-bit clock. The trigger keeps the arithmetic
  // out of proofs that only pass congruences along.
  ghost predicate Turns(x: int, y: int, k: int) {
    forall m {:trigger Modulus(m)} :: Modulus(m) ==> x == y + m * k
  }

  ghost predicate Congruent(x: int, y: int) {
    exists k :: Turns(x, y, k)
  }

  lemma TurnsIs(x: int, y: int, k: int)
    ensures Turns(x, y, k) <==> x == y + 0x1_0000_0000 * k
  {
    assert Modulus(0x1_0000_0000);
  }

  lemma WrapCongruent(x: int)
    ensures Congruent(Wrap32(x), x)
  {
    TurnsIs(Wrap32(x), x, -((x + 0x8000_0000) / 0x1_0000_0000));
  }

  lemma CongruentSame(x: int)
    ensures Congruent(x, x)
  {
    TurnsIs(x, x, 0);
  }

  // A congruent i32 is the wrapped value: nothing else fits the range.
  lemma WrapUnique(r: int, x: int)
    requires IsI32(r) && Congruent(r, x)
    ensures r == Wrap32(x)
  {
    var k :| Turns(r, x, k);
    TurnsIs(r, x, k);
  }

  lemma CongruentAdd(x: int, x': int, y: int, y': int)
    requires Congruent(x, x') && Congruent(y, y')
    ensures Congruent(x + y, x' + y')
  {
    var k :| Turns(x, x', k);
    var l :| Turns(y, y', l);
    TurnsIs(x, x', k);
    TurnsIs(y, y', l);
    TurnsIs(x + y, x' + y', k + l);
  }

  lemma CongruentScale(c: int, x: int, x': int)
    requires Congruent(x, x')
    ensures Congruent(c * x, c * x')
  {
    var k :| Turns(x, x', k);
    TurnsIs(x, x', k);
    assert c * x == c * x' + 0x1_0000_0000 * (c * k);
    TurnsIs(c * x, c * x', c * k);
  }

  lemma CongruentTrans(x: int, y: int, z: int)
    requires Congruent(x, y) && Congruent(y, z)
    ensures Congruent(x, z)
  {
    var k :| Turns(x, y, k);
    var l :| Turns(y, z, l);
    TurnsIs(x, y, k);
    TurnsIs(y, z, l);
    TurnsIs(x, z, k + l);
  }

  // One wrapping addition onto a congruent accumulator stays congruent.
  lemma WrapAdd(s: int, x: int, t: int)
    requires Congruent(s, t)
    ensures Congruent(Wrap32(s + x), t + x)
  {
    CongruentSame(x);
    WrapAdd2(s, t, x, x);
  }

  // Wrapping sums of congruent values are congruent to the exact sum.
  lemma WrapAdd2(s: int, t: int, s': int, t': int)
    requires Congruent(s, t) && Congruent(s', t')
    ensures Congruent(Wrap32(s + s'), t + t')
  {
    CongruentAdd(s, t, s', t');
    WrapCongruent(s + s');
    CongruentTrans(Wrap32(s + s'), s + s', t + t');
  }
}
