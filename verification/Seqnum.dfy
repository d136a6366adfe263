/** Sequence numbers, protocol/seqnum/seqnum.go.
  *
  * A Go `Value` or `Size` is a uint32. Every test of seqnum.go reads its arguments
  * only modulo 2^32, and every assignment is an addition. The model therefore stores
  * sequence numbers as integers and takes the width of the additions as a parameter:
  * `Uint32` is the program, `Unbounded` is the same program whose numbers never wrap.
  * The lemmas at the end relate the two.
  */
module Seqnum {
  const MOD: int := 0x1_0000_0000
  const HALF: int := 0x8000_0000

  datatype Width = Uint32 | Unbounded

  function Wire(x: int): (v: int)
    ensures 0 <= v < MOD
  {
    x % MOD
  }

  function Norm(w: Width, x: int): int {
    if w.Uint32? then Wire(x) else x
  }

  function Add(w: Width, v: int, s: int): int {
    Norm(w, v + s)
  }

  predicate Eq(v: int, w: int) {
    Wire(v - w) == 0
  }

  // int32(v-w) < 0
  predicate LessThan(v: int, w: int) {
    Wire(v - w) >= HALF
  }

  predicate LessThanEq(v: int, w: int) {
    Eq(v, w) || LessThan(v, w)
  }

  function Size(v: int, w: int): (s: int)
    ensures 0 <= s < MOD
  {
    Wire(w - v)
  }

  predicate InRange(v: int, a: int, b: int) {
    Size(a, v) < Size(a, b)
  }

  predicate InWindow(v: int, first: int, size: int) {
    InRange(v, first, first + size)
  }

  predicate Overlap(a: int, b: int, x: int, y: int) {
    LessThan(a, x + y) && LessThan(x, a + b)
  }

  // ----- the tests on wire numbers are the tests on integers, within half the space

  lemma LessThanExact(v: int, w: int)
    requires -HALF <= v - w < HALF
    ensures LessThan(v, w) <==> v < w
    ensures LessThanEq(v, w) <==> v <= w
    ensures Eq(v, w) <==> v == w
  {
  }

  lemma SizeExact(v: int, w: int)
    requires 0 <= w - v < MOD
    ensures Size(v, w) == w - v
  {
  }

  /** A window test is the integer one as long as the value is neither so old nor so new
    * that its distance to the window's start wraps onto the window. */
  lemma InRangeExact(v: int, a: int, b: int)
    requires 0 <= b - a < MOD
    requires b - MOD <= v < a + MOD
    ensures InRange(v, a, b) <==> a <= v < b
  {
    SizeExact(a, b);
    if v >= a {
      SizeExact(a, v);
    } else {
      assert Wire(v - a) == v - a + MOD;
    }
  }

  /** Two windows overlap exactly when they share a number, provided they start within
    * half the number space of each other. */
  lemma OverlapExact(a: int, b: int, x: int, y: int)
    requires 0 <= b <= HALF / 2 && 0 <= y <= HALF / 2
    requires -HALF / 2 <= x - a < HALF / 2
    ensures Overlap(a, b, x, y) <==> a < x + y && x < a + b
  {
    LessThanExact(a, x + y);
    LessThanExact(x, a + b);
  }

  // ----- every operation factors through the uint32 value

  lemma WireCongruent(v: int, w: int)
    ensures Wire(Wire(v) - Wire(w)) == Wire(v - w)
    ensures Wire(Wire(v) + w) == Wire(v + w)
    ensures Wire(Wire(v)) == Wire(v)
  {
    var q, r := v / MOD, w / MOD;
    assert v - w == Wire(v) - Wire(w) + (q - r) * MOD;
    WirePeriodic(Wire(v) - Wire(w), q - r);
    assert v + w == Wire(v) + w + q * MOD;
    WirePeriodic(Wire(v) + w, q);
  }

  lemma WirePeriodic(x: int, k: int)
    ensures Wire(x + k * MOD) == Wire(x)
  {
    var q := x / MOD;
    assert x == q * MOD + Wire(x);
    assert x + k * MOD == (q + k) * MOD + Wire(x);
  }

  /** The tests of two numbers and of their uint32 values agree. */
  lemma TestsOnWire(v: int, w: int)
    ensures Eq(Wire(v), Wire(w)) == Eq(v, w)
    ensures LessThan(Wire(v), Wire(w)) == LessThan(v, w)
    ensures Size(Wire(v), Wire(w)) == Size(v, w)
  {
    WireCongruent(v, w);
    WireCongruent(w, v);
  }

  /** Adding on uint32 is adding and wrapping. */
  lemma AddOnWire(v: int, s: int)
    ensures Add(Uint32, Wire(v), s) == Wire(Add(Unbounded, v, s))
  {
    WireCongruent(v, s);
  }
}
