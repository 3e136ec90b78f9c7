/**
 The PCG random generator (src/noise.cpp, src/noise.h, class PcgRandom): full period, evenly
 distributed outputs, and exact bounded draws by rejection.
 */
module Pcg {
  import opened Wrappers

  const TWO32: int := 0x1_0000_0000
  const TWO64: int := 0x1_0000_0000_0000_0000
  const MULTIPLIER: int := 6364136223846793005

  // ---------------------------------------------------------------- the output permutation

  function RotateRight(x: bv32, n: bv32): bv32
    requires n < 32
  {
    (x >> n) | (x << ((0 - n) & 31))
  }

  function RotateLeft(x: bv32, n: bv32): bv32
    requires n < 32
  {
    (x << n) | (x >> ((0 - n) & 31))
  }

  lemma LeftUndoesRight(x: bv32, y: bv32, n: bv32)
    requires 0 < n < 32 && y == (x >> n) | (x << (32 - n))
    ensures (y << n) | (y >> (32 - n)) == x
  {
  }

  lemma RightUndoesLeft(x: bv32, y: bv32, n: bv32)
    requires 0 < n < 32 && y == (x << n) | (x >> (32 - n))
    ensures (y >> n) | (y << (32 - n)) == x
  {
  }

  lemma Complement(n: bv32)
    requires 0 < n < 32
    ensures (0 - n) & 31 == 32 - n
  {
  }

  lemma RightIs(x: bv32, n: bv32)
    requires 0 < n < 32
    ensures RotateRight(x, n) == (x >> n) | (x << (32 - n))
  {
    Complement(n);
  }

  lemma LeftIs(x: bv32, n: bv32)
    requires 0 < n < 32
    ensures RotateLeft(x, n) == (x << n) | (x >> (32 - n))
  {
    Complement(n);
  }

  lemma NoRotation(x: bv32)
    ensures RotateLeft(x, 0) == x && RotateRight(x, 0) == x
  {
  }

  lemma RotatesBack(x: bv32, n: bv32)
    requires n < 32
    ensures RotateLeft(RotateRight(x, n), n) == x
    ensures RotateRight(RotateLeft(x, n), n) == x
  {
    hide *;
    if n == 0 {
      NoRotation(x);
    } else {
      var right, left := RotateRight(x, n), RotateLeft(x, n);
      RightIs(x, n);
      LeftIs(right, n);
      LeftIs(x, n);
      RightIs(left, n);
      LeftUndoesRight(x, right, n);
      RightUndoesLeft(x, left, n);
    }
  }

  function Above(v: bv64): bv64 {
    v >> 27
  }

  function Stirred(s: bv64): bv64 {
    ((s >> 18) ^ s) >> 27
  }

  function Low(v: bv64): bv32 {
    (v & 0xFFFF_FFFF) as bv32
  }

  /** The xor-shift: bits 27 to 58 of the state, stirred by its upper bits. */
  function Mixed(s: bv64): bv32 {
    Low(Stirred(s))
  }

  /** The 32 bits drawn from a state. */
  function OutputBits(s: bv64): bv32 {
    RotateRight(Mixed(s), (s >> 59) as bv32)
  }

  function Placed(x: bv32, top: bv64): bv64 {
    (top << 59) | ((x as bv64) << 27)
  }

  function Unfolded(v: bv64): bv64 {
    (v ^ (v >> 18) ^ (v >> 36)) & 0xFFFF_FFFF_F800_0000
  }

  function Joined(h: bv64, low: bv64): bv64 {
    h | (low & 0x7FF_FFFF)
  }

  /** The state with the top five bits `top` and the low 27 bits of `low` whose xor-shift is `x`. */
  function Unmixed(x: bv32, top: bv64, low: bv64): bv64 {
    Joined(Unfolded(Placed(x, top)), low)
  }

  // The bit-level facts name their operands as parameters, so that callers can use them on terms.

  lemma StirredIs(s: bv64)
    ensures Stirred(s) == ((s >> 18) ^ s) >> 27
  {
  }

  lemma LowIs(v: bv64)
    ensures Low(v) == (v & 0xFFFF_FFFF) as bv32
  {
  }

  lemma AboveIs(v: bv64)
    ensures Above(v) == v >> 27
  {
  }

  lemma PlacedIs(x: bv32, top: bv64)
    ensures Placed(x, top) == (top << 59) | ((x as bv64) << 27)
  {
  }

  lemma UnfoldedIs(v: bv64)
    ensures Unfolded(v) == (v ^ (v >> 18) ^ (v >> 36)) & 0xFFFF_FFFF_F800_0000
  {
  }

  lemma JoinedIs(h: bv64, low: bv64)
    ensures Joined(h, low) == h | (low & 0x7FF_FFFF)
  {
  }

  function Lifted(w: bv64): bv64 {
    w << 27
  }

  function Upper(s: bv64): bv64 {
    s & 0xFFFF_FFFF_F800_0000
  }

  lemma LiftedIs(w: bv64)
    ensures Lifted(w) == w << 27
  {
  }

  lemma PlacedWhole(w: bv64, x: bv32, top: bv64)
    requires x == (w & 0xFFFF_FFFF) as bv32 && top == w >> 32 && w < 0x20_0000_0000
    ensures Placed(x, top) == Lifted(w)
  {
  }

  lemma StirredBits(s: bv64, w: bv64)
    requires w == ((s >> 18) ^ s) >> 27
    ensures s >> 59 == w >> 32 && w < 0x20_0000_0000
  {
  }

  lemma MixedPlaced(s: bv64)
    ensures Placed(Mixed(s), s >> 59) == Lifted(Stirred(s))
  {
    hide Low, Stirred, Placed, Lifted;
    var w := Stirred(s);
    StirredIs(s);
    StirredBits(s, w);
    LowIs(w);
    PlacedWhole(w, Mixed(s), s >> 59);
  }

  lemma LiftedBits(s: bv64, w: bv64, v: bv64)
    requires w == ((s >> 18) ^ s) >> 27 && v == w << 27
    ensures v == ((s >> 18) ^ s) & 0xFFFF_FFFF_F800_0000
  {
  }

  lemma UnfoldedBits(s: bv64, v: bv64)
    requires v == ((s >> 18) ^ s) & 0xFFFF_FFFF_F800_0000
    ensures Unfolded(v) == Upper(s)
  {
  }

  lemma UnfoldedStirred(s: bv64)
    ensures Unfolded(Lifted(Stirred(s))) == Upper(s)
  {
    hide *;
    var w := Stirred(s);
    StirredIs(s);
    LiftedIs(w);
    LiftedBits(s, w, Lifted(w));
    UnfoldedBits(s, Lifted(w));
  }

  lemma JoinedBack(s: bv64)
    ensures Joined(Upper(s), s) == s
  {
  }

  lemma MixedUnmixes(s: bv64)
    ensures Unmixed(Mixed(s), s >> 59, s) == s
  {
    hide Low, Stirred, Unfolded, Placed, Joined, Lifted, Upper;
    MixedPlaced(s);
    UnfoldedStirred(s);
    JoinedBack(s);
  }

  lemma PlacedBits(x: bv32, top: bv64, v: bv64)
    requires v == (top << 59) | ((x as bv64) << 27)
    ensures ((v >> 27) & 0xFFFF_FFFF) as bv32 == x
    ensures v >> 59 == (top << 59) >> 59
  {
  }

  lemma FoldedBits(v: bv64, h: bv64, low: bv64, s: bv64)
    requires h == (v ^ (v >> 18) ^ (v >> 36)) & 0xFFFF_FFFF_F800_0000 && s == h | (low & 0x7FF_FFFF)
    ensures ((s >> 18) ^ s) >> 27 == v >> 27
  {
  }

  lemma KeptBits(v: bv64, h: bv64, low: bv64, s: bv64)
    requires h == (v ^ (v >> 18) ^ (v >> 36)) & 0xFFFF_FFFF_F800_0000 && s == h | (low & 0x7FF_FFFF)
    ensures s >> 59 == v >> 59
    ensures s & 0x7FF_FFFF == low & 0x7FF_FFFF
  {
  }

  lemma SmallBits(top: bv64, low: bv64)
    requires top < 32 && low < 0x800_0000
    ensures (top << 59) >> 59 == top && low & 0x7FF_FFFF == low
  {
  }

  lemma PlacedHas(x: bv32, top: bv64)
    ensures Low(Above(Placed(x, top))) == x
  {
    hide *;
    var v := Placed(x, top);
    PlacedIs(x, top);
    PlacedBits(x, top, v);
    AboveIs(v);
    LowIs(Above(v));
  }

  lemma PlacedTop(x: bv32, top: bv64)
    ensures Placed(x, top) >> 59 == (top << 59) >> 59
  {
    hide *;
    PlacedIs(x, top);
    PlacedBits(x, top, Placed(x, top));
  }

  lemma JoinedFolds(v: bv64, low: bv64, s: bv64)
    requires s == Joined(Unfolded(v), low)
    ensures Stirred(s) == Above(v)
  {
    hide *;
    UnfoldedIs(v);
    JoinedIs(Unfolded(v), low);
    FoldedBits(v, Unfolded(v), low, s);
    StirredIs(s);
    AboveIs(v);
  }

  lemma JoinedKeeps(v: bv64, low: bv64, s: bv64)
    requires s == Joined(Unfolded(v), low)
    ensures s >> 59 == v >> 59
    ensures s & 0x7FF_FFFF == low & 0x7FF_FFFF
  {
    hide Unfolded, Joined;
    UnfoldedIs(v);
    JoinedIs(Unfolded(v), low);
    KeptBits(v, Unfolded(v), low, s);
  }

  lemma UnmixedMixes(x: bv32, top: bv64, low: bv64)
    ensures Mixed(Unmixed(x, top, low)) == x
  {
    hide Stirred, Low, Above, Unfolded, Placed, Joined;
    PlacedHas(x, top);
    JoinedFolds(Placed(x, top), low, Unmixed(x, top, low));
  }

  lemma UnmixedLow(x: bv32, top: bv64, low: bv64, low': bv64)
    requires low & 0x7FF_FFFF == low'
    ensures Unmixed(x, top, low) == Unmixed(x, top, low')
  {
    hide Unfolded, Placed;
  }

  lemma UnmixedKeeps(x: bv32, top: bv64, low: bv64)
    requires top < 32 && low < 0x800_0000
    ensures Unmixed(x, top, low) >> 59 == top
    ensures Unmixed(x, top, low) & 0x7FF_FFFF == low
  {
    hide Stirred, Low, Unfolded, Placed, Joined;
    PlacedTop(x, top);
    JoinedKeeps(Placed(x, top), low, Unmixed(x, top, low));
    SmallBits(top, low);
  }

  /**
   The outputs are evenly distributed over the states: once the top five and the low 27 bits are
   fixed, every 32-bit value is drawn from exactly one state, so from 2^32 states in all.
   */
  lemma OutputEvenlySpread(r: bv32, top: bv64, low: bv64) returns (s: bv64)
    requires top < 32 && low < 0x800_0000
    ensures s >> 59 == top && s & 0x7FF_FFFF == low && OutputBits(s) == r
    ensures forall t: bv64 :: t >> 59 == top && t & 0x7FF_FFFF == low && OutputBits(t) == r ==> t == s
  {
    var n := top as bv32;
    assert n < 32;
    s := Unmixed(RotateLeft(r, n), top, low);
    UnmixedMixes(RotateLeft(r, n), top, low);
    UnmixedKeeps(RotateLeft(r, n), top, low);
    RotatesBack(r, n);
    hide Mixed, Unmixed, Placed, Unfolded, Joined, RotateLeft, RotateRight;
    forall t: bv64 | t >> 59 == top && t & 0x7FF_FFFF == low && OutputBits(t) == r
      ensures t == s
    {
      RotatesBack(Mixed(t), n);
      MixedUnmixes(t);
      UnmixedLow(Mixed(t), top, t, low);
    }
  }

  // ---------------------------------------------------------------- the state sequence

  /** The state after a draw, in 64-bit arithmetic. */
  function Step(s: int, inc: int): int {
    (s * MULTIPLIER + inc) % TWO64
  }

  function Output(s: int): (r: int)
    requires 0 <= s < TWO64
    ensures 0 <= r < TWO32
  {
    Number(OutputBits(Bits(s)))
  }

  function Bits(s: int): bv64
    requires 0 <= s < TWO64
  {
    s as bv64
  }

  function Number(b: bv32): (r: int)
    ensures 0 <= r < TWO32
  {
    b as int
  }

  function StateNumber(b: bv64): int {
    b as int
  }

  predicate IsState(s: int) {
    0 <= s < TWO64
  }

  function Iter(s: int, inc: int, n: nat): int {
    if n == 0 then s else Step(Iter(s, inc, n - 1), inc)
  }

  /** 1 + a + a^2 + ... + a^(n-1) for the multiplier a. */
  function Geo(n: nat): int {
    if n == 0 then 0 else MULTIPLIER * Geo(n - 1) + 1
  }

  function Pow2(k: nat): int {
    if k == 0 then 1 else 2 * Pow2(k - 1)
  }

  ghost predicate Divides(d: int, n: int) {
    exists q: int :: n == q * d
  }

  const QUARTER: int := 1591034055961698251

  lemma GeoNext(n: nat)
    ensures Geo(n + 1) == MULTIPLIER * Geo(n) + 1
  {
  }

  lemma GeoStep(g: int, h: int, u: int)
    requires u == QUARTER * g
    ensures MULTIPLIER * (g + (4 * u + 1) * h) + 1 == g + (4 * u + 1) * (MULTIPLIER * h + 1)
  {
    var p := (4 * u + 1) * h;
    assert (4 * u + 1) * (MULTIPLIER * h + 1) == MULTIPLIER * p + (4 * u + 1);
  }

  lemma {:induction false} GeoAdds(m: nat, n: nat)
    ensures Geo(m + n) == Geo(m) + (4 * (QUARTER * Geo(m)) + 1) * Geo(n)
  {
    if n > 0 {
      var n' := n - 1;
      GeoAdds(m, n');
      GeoNext(m + n');
      GeoNext(n');
      hide *;
      GeoStep(Geo(m), Geo(n'), QUARTER * Geo(m));
    }
  }

  lemma Doubled(g: int, u: int)
    ensures g + (4 * u + 1) * g == 2 * (g * (2 * u + 1))
  {
  }

  lemma OddNext(g: int, x: int)
    requires g == 2 * x
    ensures (MULTIPLIER * g + 1) % 2 == 1
  {
    assert MULTIPLIER * g == 2 * (MULTIPLIER * x);
  }

  /** Geo doubles up to an odd factor, and is odd at odd arguments. */
  lemma GeoParity(m: nat)
    ensures Geo(2 * m) == 2 * (Geo(m) * (2 * (QUARTER * Geo(m)) + 1))
    ensures Geo(2 * m + 1) % 2 == 1
  {
    hide *;
    GeoAdds(m, m);
    Doubled(Geo(m), QUARTER * Geo(m));
    assert m + m == 2 * m;
    GeoNext(2 * m);
    OddNext(Geo(2 * m), Geo(m) * (2 * (QUARTER * Geo(m)) + 1));
  }

  lemma HalvedProduct(x: int, odd: int, q: int, p: int)
    requires odd % 2 == 1 && x * odd == q * (2 * p)
    ensures x % 2 == 0 && (x / 2) * odd == q * p
  {
    var y, h := x / 2, odd / 2;
    assert x * odd == 2 * (x * h) + x by {
      assert odd == 2 * h + 1;
    }
    assert q * (2 * p) == 2 * (q * p);
    assert x == 2 * (q * p - x * h);
    assert x * odd == 2 * (y * odd);
  }

  lemma DividesPow2Next(x: int, k: nat)
    requires x % 2 == 0 && Divides(Pow2(k), x / 2)
    ensures Divides(Pow2(k + 1), x)
  {
    var d := Pow2(k);
    assert Pow2(k + 1) == 2 * d;
    var q: int :| x / 2 == q * d;
    assert x == q * (2 * d);
  }

  lemma {:induction false} OddFactorCancels(x: int, odd: int, k: nat)
    requires odd % 2 == 1 && Divides(Pow2(k), x * odd)
    ensures Divides(Pow2(k), x)
    decreases k
  {
    if k == 0 {
      assert x == x * Pow2(0);
    } else {
      var k' := k - 1;
      var q: int :| x * odd == q * Pow2(k);
      HalvedProduct(x, odd, q, Pow2(k'));
      assert Divides(Pow2(k'), (x / 2) * odd);
      hide *;
      OddFactorCancels(x / 2, odd, k');
      DividesPow2Next(x, k');
    }
  }

  function Cofactor(m: nat): int {
    2 * (QUARTER * Geo(m)) + 1
  }

  lemma CofactorIsOdd(m: nat)
    ensures Cofactor(m) % 2 == 1
  {
    hide Geo;
    var x := QUARTER * Geo(m);
  }

  /** Geo has no more factors of two than its argument. */
  lemma {:induction false} GeoFactors(n: nat, k: nat)
    requires Divides(Pow2(k), Geo(n))
    ensures Divides(Pow2(k), n)
    decreases k
  {
    if k == 0 {
      assert n == n * Pow2(0);
    } else {
      var k', m := k - 1, n / 2;
      hide *;
      assert k == k' + 1;
      GeoHalves(n, k');
      CofactorIsOdd(m);
      OddFactorCancels(Geo(m), Cofactor(m), k');
      GeoFactors(m, k');
      DividesPow2Next(n, k');
    }
  }

  lemma GeoHalves(n: nat, k: nat)
    requires Divides(Pow2(k + 1), Geo(n))
    ensures n % 2 == 0 && Divides(Pow2(k), Geo(n / 2) * Cofactor(n / 2))
  {
    var q: int :| Geo(n) == q * Pow2(k + 1);
    assert Pow2(k + 1) == 2 * Pow2(k);
    assert Cofactor(n / 2) == 2 * (QUARTER * Geo(n / 2)) + 1;
    GeoParity(n / 2);
    hide *;
    assert n == 2 * (n / 2) || n == 2 * (n / 2) + 1;
    HalvedMultiple(Geo(n), Geo(n / 2) * Cofactor(n / 2), q, Pow2(k));
  }

  lemma HalvedMultiple(x: int, half: int, q: int, d: int)
    requires x == q * (2 * d)
    ensures x % 2 == 0
    ensures x == 2 * half ==> Divides(d, half)
  {
    var qd := q * d;
    assert x == 2 * qd;
    if half == qd {
      DividesIntro(d, half, q);
    }
  }

  lemma DividesIntro(d: int, n: int, q: int)
    requires n == q * d
    ensures Divides(d, n)
  {
  }

  // ---------------------------------------------------------------- the full period

  lemma StepInRange(s: int, inc: int)
    ensures IsState(Step(s, inc))
  {
  }

  lemma IterInRange(s: int, inc: int, n: nat)
    requires IsState(s)
    ensures IsState(Iter(s, inc, n))
  {
    if n > 0 {
      StepInRange(Iter(s, inc, n - 1), inc);
    }
  }

  lemma {:induction false} IterAdds(s: int, inc: int, m: nat, n: nat)
    ensures Iter(Iter(s, inc, m), inc, n) == Iter(s, inc, m + n)
  {
    if n > 0 {
      IterAdds(s, inc, m, n - 1);
    }
  }

  /** How far `n` draws move the state, up to a multiple of 2^64. */
  function Drift(s: int, inc: int): int {
    (MULTIPLIER - 1) * s + inc
  }

  lemma {:induction false} Travels(s: int, inc: int, n: nat) returns (q: int)
    ensures Iter(s, inc, n) == s + Geo(n) * Drift(s, inc) + q * TWO64
  {
    if n == 0 {
      q := 0;
    } else {
      var n' := n - 1;
      var q' := Travels(s, inc, n');
      GeoNext(n');
      q := TravelsOn(s, inc, Geo(n'), Iter(s, inc, n'), q');
      assert Iter(s, inc, n) == Step(Iter(s, inc, n'), inc);
    }
  }

  lemma TravelsOn(s: int, inc: int, g: int, x: int, q: int) returns (q': int)
    requires x == s + g * Drift(s, inc) + q * TWO64
    ensures Step(x, inc) == s + (MULTIPLIER * g + 1) * Drift(s, inc) + q' * TWO64
  {
    var d, y := Drift(s, inc), x * MULTIPLIER + inc;
    q' := MULTIPLIER * q - y / TWO64;
    assert y == TWO64 * (y / TWO64) + Step(x, inc);
    var gd := g * d;
    assert (MULTIPLIER * g + 1) * d == MULTIPLIER * gd + d;
  }

  lemma {:induction false} Pow2Adds(m: nat, n: nat)
    ensures Pow2(m + n) == Pow2(m) * Pow2(n)
  {
    if n > 0 {
      Pow2Adds(m, n - 1);
      assert Pow2(m) * Pow2(n) == 2 * (Pow2(m) * Pow2(n - 1));
    }
  }

  lemma Pow2Is64()
    ensures Pow2(64) == TWO64
  {
    Pow2Adds(4, 4);
    Pow2Adds(8, 8);
    Pow2Adds(16, 16);
    Pow2Adds(32, 32);
  }

  /** 2^v is the largest power of two, up to 2^64, that divides `d`. */
  ghost predicate Valuation(d: int, v: nat) {
    v <= 64 && Divides(Pow2(v), d) && (v < 64 ==> !Divides(Pow2(v + 1), d))
  }

  lemma {:induction false} SomeValuation(d: int, k: nat) returns (v: nat)
    requires k <= 64 && Divides(Pow2(k), d)
    ensures Valuation(d, v)
    decreases 64 - k
  {
    hide Pow2, Divides;
    if k == 64 || !Divides(Pow2(k + 1), d) {
      v := k;
    } else {
      v := SomeValuation(d, k + 1);
    }
  }

  lemma OddPart(d: int, v: nat) returns (e: int)
    requires Valuation(d, v) && v < 64
    ensures d == e * Pow2(v) && e % 2 == 1
  {
    var p := Pow2(v);
    e :| d == e * p;
    assert Pow2(v + 1) == 2 * p;
    if e % 2 == 0 {
      EvenFactor(e, p);
    }
  }

  lemma EvenFactor(e: int, p: int)
    requires e % 2 == 0
    ensures Divides(2 * p, e * p)
  {
    var h := e / 2;
    DividesIntro(2 * p, e * p, h);
  }

  lemma {:induction false} Pow2Positive(k: nat)
    ensures Pow2(k) > 0
  {
    if k > 0 {
      Pow2Positive(k - 1);
    }
  }

  lemma Complementary(v: nat)
    requires v <= 64
    ensures Pow2(v) * Pow2(64 - v) == TWO64 && Pow2(v) > 0 && Pow2(64 - v) > 0
  {
    Pow2Adds(v, 64 - v);
    Pow2Is64();
    Pow2Positive(v);
    Pow2Positive(64 - v);
  }

  lemma Cancelled(g: int, e: int, p: int, q: int, r: int)
    requires p > 0 && g * (e * p) + q * (p * r) == 0
    ensures g * e == (-q) * r
  {
    var x, y := g * e, q * r;
    assert x * p == g * (e * p) && y * p == q * (p * r);
    assert (x + y) * p == 0;
  }

  /** No state comes back before 2^(64 - v) draws, where 2^v is the power of two in the drift. */
  lemma NoReturn(s: int, inc: int, v: nat, n: nat)
    requires Valuation(Drift(s, inc), v) && 0 < n < Pow2(64 - v)
    ensures Iter(s, inc, n) != s
  {
    if v < 64 && Iter(s, inc, n) == s {
      var q := Travels(s, inc, n);
      var e := OddPart(Drift(s, inc), v);
      Complementary(v);
      ReturnDivides(Geo(n), Drift(s, inc), e, Pow2(v), q, Pow2(64 - v));
      OddFactorCancels(Geo(n), e, 64 - v);
      GeoFactors(n, 64 - v);
      TooSmall(n, Pow2(64 - v));
    }
  }

  lemma ReturnDivides(g: int, d: int, e: int, p: int, q: int, r: int)
    requires d == e * p && p > 0 && p * r == TWO64 && g * d + q * TWO64 == 0
    ensures Divides(r, g * e)
  {
    Cancelled(g, e, p, q, r);
    DividesIntro(r, g * e, -q);
  }

  lemma TooSmall(n: nat, m: nat)
    requires 0 < n < m
    ensures !Divides(m, n)
  {
    forall q: int
      ensures n != q * m
    {
    }
  }

  /** A draw moves the state by a multiple of the power of two in the drift. */
  lemma StaysInClass(s: int, inc: int, v: nat, n: nat)
    requires v <= 64 && Divides(Pow2(v), Drift(s, inc))
    ensures Divides(Pow2(v), Iter(s, inc, n) - s)
  {
    var q := Travels(s, inc, n);
    var e: int :| Drift(s, inc) == e * Pow2(v);
    Complementary(v);
    hide *;
    Regrouped(Geo(n), e, Pow2(v), q, Pow2(64 - v));
    DividesIntro(Pow2(v), Iter(s, inc, n) - s, Geo(n) * e + q * Pow2(64 - v));
  }

  lemma Regrouped(g: int, e: int, p: int, q: int, r: int)
    ensures g * (e * p) + q * (p * r) == (g * e + q * r) * p
  {
    var x, y := g * e, q * r;
    assert x * p == g * (e * p) && y * p == q * (p * r);
  }

  /** The first `n` states of a run. */
  ghost function Visited(s: int, inc: int, n: nat): set<int> {
    if n == 0 then {} else Visited(s, inc, n - 1) + {Iter(s, inc, n - 1)}
  }

  lemma {:induction false} VisitedHas(s: int, inc: int, n: nat, x: int)
    ensures x in Visited(s, inc, n) <==> exists i: nat :: i < n && x == Iter(s, inc, i)
  {
    hide Iter;
    if n > 0 {
      var n' := n - 1;
      VisitedHas(s, inc, n', x);
      assert x in Visited(s, inc, n) <==> x in Visited(s, inc, n') || x == Iter(s, inc, n');
    }
  }

  /** Equal states come from equal states. */
  lemma {:induction false} IterInjective(s: int, t: int, inc: int, n: nat)
    requires IsState(s) && IsState(t) && Iter(s, inc, n) == Iter(t, inc, n)
    ensures s == t
  {
    if n > 0 {
      IterInRange(s, inc, n - 1);
      IterInRange(t, inc, n - 1);
      assert Iter(s, inc, n) == Step(Iter(s, inc, n - 1), inc);
      assert Iter(t, inc, n) == Step(Iter(t, inc, n - 1), inc);
      hide Iter, Step;
      StepInjective(Iter(s, inc, n - 1), Iter(t, inc, n - 1), inc);
      IterInjective(s, t, inc, n - 1);
    }
  }

  lemma {:induction false} VisitedDistinct(s: int, inc: int, v: nat, n: nat)
    requires IsState(s) && Valuation(Drift(s, inc), v) && n <= Pow2(64 - v)
    ensures |Visited(s, inc, n)| == n
  {
    if n > 0 {
      var n' := n - 1;
      VisitedDistinct(s, inc, v, n');
      VisitedHas(s, inc, n', Iter(s, inc, n'));
      hide Iter, Drift, Valuation, Pow2, IsState;
      forall i: nat | i < n'
        ensures Iter(s, inc, n') != Iter(s, inc, i)
      {
        NoReturn(s, inc, v, n' - i);
        IterAdds(s, inc, n' - i, i);
        if Iter(s, inc, n') == Iter(s, inc, i) {
          IterInRange(s, inc, n' - i);
          IterInjective(Iter(s, inc, n' - i), s, inc, i);
        }
      }
    }
  }

  /** The numbers b, b + m, ..., b + (n - 1) * m. */
  ghost function Class(b: int, m: int, n: nat): set<int> {
    if n == 0 then {} else Class(b, m, n - 1) + {b + (n - 1) * m}
  }

  lemma {:induction false} ClassHas(b: int, m: int, n: nat, i: nat)
    requires i < n
    ensures b + i * m in Class(b, m, n)
  {
    if i < n - 1 {
      ClassHas(b, m, n - 1, i);
    }
  }

  lemma {:induction false} ClassSize(b: int, m: int, n: nat)
    ensures |Class(b, m, n)| <= n
  {
    if n > 0 {
      ClassSize(b, m, n - 1);
    }
  }

  /** The states that differ from `s` by a multiple of `p` are `r` in number. */
  lemma InClass(x: int, s: int, p: int, r: nat)
    requires IsState(x) && p > 0 && p * r == TWO64 && Divides(p, x - s)
    ensures x in Class(s % p, p, r)
  {
    var q: int :| x - s == q * p;
    var i := x / p;
    SameRemainder(x, s, p, q);
    QuotientBelow(x, p, r);
    hide *;
    ClassHas(s % p, p, r, i);
  }

  lemma SameRemainder(x: int, s: int, p: int, q: int)
    requires p > 0 && x - s == q * p
    ensures x == s % p + (x / p) * p
  {
    assert s == (s / p) * p + s % p;
    assert x == (q + s / p) * p + s % p;
    QuotientUnique(x, p, q + s / p, s % p);
  }

  lemma QuotientBelow(x: int, p: int, r: int)
    requires p > 0 && 0 <= x < p * r
    ensures 0 <= x / p < r
  {
    var i := x / p;
    assert i * p <= x < i * p + p;
    assert i >= r ==> i * p >= r * p;
  }

  lemma Fewer<T>(a: set<T>, b: set<T>)
    requires a <= b
    ensures |a| <= |b|
  {
    if a != {} {
      var x :| x in a;
      Fewer(a - {x}, b - {x});
    }
  }

  /**
   The orbits of the generator: from a state whose drift has the power of two 2^v, exactly the states that
   differ by a multiple of 2^v come up, each within 2^(64 - v) draws.
   */
  lemma FullOrbit(s: int, inc: int, v: nat, target: int) returns (n: nat)
    requires IsState(s) && IsState(target) && Valuation(Drift(s, inc), v)
    requires Divides(Pow2(v), target - s)
    ensures n < Pow2(64 - v) && Iter(s, inc, n) == target
  {
    Complementary(v);
    var p, r: nat := Pow2(v), Pow2(64 - v);
    assert p * r == TWO64 && v <= 64 && Divides(p, Drift(s, inc));
    hide *;
    VisitedHas(s, inc, r, target);
    if target !in Visited(s, inc, r) {
      forall x | x in Visited(s, inc, r)
        ensures x in Class(s % p, p, r)
      {
        VisitedHas(s, inc, r, x);
        var i: nat :| i < r && x == Iter(s, inc, i);
        IterInRange(s, inc, i);
        StaysInClass(s, inc, v, i);
        InClass(x, s, p, r);
      }
      InClass(target, s, p, r);
      VisitedDistinct(s, inc, v, r);
      ClassSize(s % p, p, r);
      Fewer(Visited(s, inc, r), Class(s % p, p, r) - {target});
      assert false;
    }
    n :| n < r && target == Iter(s, inc, n);
  }

  ghost predicate Reaches(s: int, inc: int, t: int) {
    exists n: nat :: Iter(s, inc, n) == t
  }

  /** Every state has such an orbit, and the states reached are exactly those of the orbit. */
  lemma OrbitOf(s: int, inc: int) returns (v: nat)
    requires IsState(s)
    ensures Valuation(Drift(s, inc), v)
    ensures forall t :: IsState(t) ==> (Reaches(s, inc, t) <==> Divides(Pow2(v), t - s))
  {
    assert Pow2(0) == 1;
    DividesIntro(1, Drift(s, inc), Drift(s, inc));
    v := SomeValuation(Drift(s, inc), 0);
    hide Iter, Drift, Divides, Pow2, IsState;
    forall t | IsState(t)
      ensures Reaches(s, inc, t) <==> Divides(Pow2(v), t - s)
    {
      if Divides(Pow2(v), t - s) {
        var n := FullOrbit(s, inc, v, t);
      }
      if n: nat :| Iter(s, inc, n) == t {
        StaysInClass(s, inc, v, n);
      }
    }
  }

  /** An increment that is no multiple of four leaves at most one factor of two in the drift. */
  lemma DriftFactors(s: int, inc: int)
    requires inc % 4 != 0
    ensures Valuation(Drift(s, inc), if inc % 2 == 1 then 0 else 1)
  {
    var d := Drift(s, inc);
    DriftIs(s, inc);
    hide *;
    if inc % 2 == 1 {
      OddValuation(d);
    } else {
      TwiceOddValuation(d);
    }
  }

  lemma DriftIs(s: int, inc: int)
    ensures Drift(s, inc) % 2 == inc % 2 && Drift(s, inc) % 4 == inc % 4
  {
    var d, x := Drift(s, inc), QUARTER * s;
    assert d == 4 * x + inc;
    hide *;
    FourTimes(d, x, inc);
  }

  lemma FourTimes(d: int, x: int, inc: int)
    requires d == 4 * x + inc
    ensures d % 2 == inc % 2 && d % 4 == inc % 4
  {
    QuotientUnique(d, 2, 2 * x + inc / 2, inc % 2);
    QuotientUnique(d, 4, x + inc / 4, inc % 4);
  }

  lemma NoMultiple(d: int, m: int)
    requires m > 0 && d % m != 0
    ensures !Divides(m, d)
  {
    if q: int :| d == q * m {
      QuotientUnique(d, m, q, 0);
    }
  }

  lemma OddValuation(d: int)
    requires d % 2 == 1
    ensures Valuation(d, 0)
  {
    assert Pow2(0) == 1 && Pow2(1) == 2;
    DividesIntro(1, d, d);
    NoMultiple(d, 2);
    hide Divides;
  }

  lemma TwiceOddValuation(d: int)
    requires d % 2 == 0 && d % 4 != 0
    ensures Valuation(d, 1)
  {
    assert Pow2(1) == 2 && Pow2(2) == 4;
    DividesIntro(2, d, d / 2);
    NoMultiple(d, 4);
    hide Divides;
  }

  /** With an odd increment, as seeding sets it, the generator has full period: from any state, every state
      comes up within 2^64 draws. */
  lemma FullPeriod(s: int, inc: int, target: int) returns (n: nat)
    requires IsState(s) && inc % 2 == 1 && IsState(target)
    ensures n < TWO64 && Iter(s, inc, n) == target
  {
    assert inc % 4 != 0;
    DriftFactors(s, inc);
    Complementary(0);
    assert Pow2(0) == 1;
    DividesIntro(1, target - s, target - s);
    n := FullOrbit(s, inc, 0, target);
  }

  /** Different states go to different states, so different seeds start different runs. */
  lemma StepInjective(s: int, t: int, inc: int)
    requires IsState(s) && IsState(t) && Step(s, inc) == Step(t, inc)
    ensures s == t
  {
    var x, y := s * MULTIPLIER + inc, t * MULTIPLIER + inc;
    var q := x / TWO64 - y / TWO64;
    assert (s - t) * MULTIPLIER == q * TWO64;
    Pow2Is64();
    DividesIntro(Pow2(64), (s - t) * MULTIPLIER, q);
    OddFactorCancels(s - t, MULTIPLIER, 64);
    var p: int :| s - t == p * Pow2(64);
    assert -TWO64 < s - t < TWO64;
  }

  // ---------------------------------------------------------------- bounded draws

  /** The `i`-th draw from a state. */
  function Drawn(s: int, inc: int, i: nat): (r: int)
    requires IsState(s)
    ensures 0 <= r < TWO32
  {
    IterInRange(s, inc, i);
    Output(Iter(s, inc, i))
  }

  /** Draw `n` is the first one not below the threshold. */
  ghost predicate Accepts(s: int, inc: int, threshold: int, n: nat)
    requires IsState(s)
  {
    Drawn(s, inc, n) >= threshold && forall i: nat :: i < n ==> Drawn(s, inc, i) < threshold
  }

  /** The rejection loop ends: some draw is accepted. */
  ghost predicate Ends(s: int, inc: int, threshold: int)
    requires IsState(s)
  {
    exists n: nat :: Drawn(s, inc, n) >= threshold
  }

  /** The loop ends exactly when some state of the orbit is accepted. */
  lemma OrbitEndsIff(s: int, inc: int, v: nat, threshold: int)
    requires IsState(s) && Valuation(Drift(s, inc), v)
    ensures Ends(s, inc, threshold)
       <==> exists t: int :: IsState(t) && Divides(Pow2(v), t - s) && Output(t) >= threshold
  {
    hide Output, Iter, Pow2, Drift;
    if Ends(s, inc, threshold) {
      var n: nat :| Drawn(s, inc, n) >= threshold;
      StaysInClass(s, inc, v, n);
      IterInRange(s, inc, n);
    }
    if t: int :| IsState(t) && Divides(Pow2(v), t - s) && Output(t) >= threshold {
      OrbitEnds(s, inc, v, t, threshold);
    }
  }

  lemma OrbitEnds(s: int, inc: int, v: nat, t: int, threshold: int)
    requires IsState(s) && Valuation(Drift(s, inc), v)
    requires IsState(t) && Divides(Pow2(v), t - s) && Output(t) >= threshold
    ensures Ends(s, inc, threshold)
  {
    hide Output, Iter, Pow2, Drift;
    var n := FullOrbit(s, inc, v, t);
    assert Drawn(s, inc, n) >= threshold;
  }

  // Every number below 2^64 is the number of a bit vector: it is put together from shorter ones.

  lemma Join8(hi: bv4, lo: bv4, b: bv8)
    requires b == ((hi as bv8) << 4) | (lo as bv8)
    ensures b as int == hi as int * 0x10 + lo as int
  {
  }

  lemma Join16(hi: bv8, lo: bv8, b: bv16)
    requires b == ((hi as bv16) << 8) | (lo as bv16)
    ensures b as int == hi as int * 0x100 + lo as int
  {
  }

  lemma Join32(hi: bv16, lo: bv16, b: bv32)
    requires b == ((hi as bv32) << 16) | (lo as bv32)
    ensures b as int == hi as int * 0x1_0000 + lo as int
  {
  }

  lemma Join64(hi: bv32, lo: bv32, b: bv64)
    requires b == ((hi as bv64) << 32) | (lo as bv64)
    ensures b as int == hi as int * 0x1_0000_0000 + lo as int
  {
  }

  lemma Bits4(t: int) returns (b: bv4)
    requires 0 <= t < 0x10
    ensures b as int == t
  {
    b := t as bv4;
  }

  lemma Bits8(t: int) returns (b: bv8)
    requires 0 <= t < 0x100
    ensures b as int == t
  {
    var hi := Bits4(t / 0x10);
    var lo := Bits4(t % 0x10);
    b := ((hi as bv8) << 4) | (lo as bv8);
    Join8(hi, lo, b);
  }

  lemma Bits16(t: int) returns (b: bv16)
    requires 0 <= t < 0x1_0000
    ensures b as int == t
  {
    var hi := Bits8(t / 0x100);
    var lo := Bits8(t % 0x100);
    b := ((hi as bv16) << 8) | (lo as bv16);
    Join16(hi, lo, b);
  }

  lemma Bits32(t: int) returns (b: bv32)
    requires 0 <= t < 0x1_0000_0000
    ensures b as int == t
  {
    var hi := Bits16(t / 0x1_0000);
    var lo := Bits16(t % 0x1_0000);
    b := ((hi as bv32) << 16) | (lo as bv32);
    Join32(hi, lo, b);
  }

  lemma Bits64(t: int) returns (b: bv64)
    requires 0 <= t < 0x1_0000_0000_0000_0000
    ensures StateNumber(b) == t
  {
    var hi := Bits32(t / 0x1_0000_0000);
    var lo := Bits32(t % 0x1_0000_0000);
    b := ((hi as bv64) << 32) | (lo as bv64);
    Join64(hi, lo, b);
  }

  lemma BitsOfNumber(b: bv64)
    ensures 0 <= StateNumber(b) < TWO64 && Bits(StateNumber(b)) == b
  {
  }

  lemma NumberOfBits(t: int)
    requires IsState(t)
    ensures StateNumber(Bits(t)) == t
  {
    hide StateNumber, Bits;
    var b := Bits64(t);
    BitsOfNumber(b);
  }

  function LowNumber(x: bv58): int {
    x as int
  }

  lemma LowRange(x: bv58)
    ensures LowNumber(x) < 0x400_0000_0000_0000
  {
  }

  lemma Widened(x: bv58, b: bv64)
    requires b == x as bv64
    ensures StateNumber(b) == LowNumber(x)
  {
  }

  lemma Narrowed(b: bv64)
    requires b < 0x400_0000_0000_0000
    ensures ((b & 0x3FF_FFFF_FFFF_FFFF) as bv58) as bv64 == b
  {
  }

  lemma SmallNumber(b: bv64)
    requires b < 0x400_0000_0000_0000
    ensures StateNumber(b) < 0x400_0000_0000_0000
  {
    hide *;
    var x := (b & 0x3FF_FFFF_FFFF_FFFF) as bv58;
    Narrowed(b);
    Widened(x, b);
    LowRange(x);
  }

  lemma LargeNumber(b: bv64)
    requires b >= 0x800_0000_0000_0000
    ensures StateNumber(b) >= 0x800_0000_0000_0000
  {
  }

  lemma HighNumber(b: bv32)
    requires b >= 0x8000_0000
    ensures Number(b) >= 0x8000_0000
  {
  }

  lemma HighBits(b: bv64)
    requires 0x400_0000_0000_0000 <= b < 0x800_0000_0000_0000
    ensures OutputBits(b) >= 0x8000_0000
  {
  }

  /** A state between 2^58 and 2^59 is not rotated, and its highest bit comes out first. */
  lemma HighOutput(t: int)
    requires IsState(t) && 0x400_0000_0000_0000 <= t < 0x800_0000_0000_0000
    ensures Output(t) >= 0x8000_0000
  {
    hide StateNumber, Bits, OutputBits, Number;
    var b := Bits(t);
    NumberOfBits(t);
    if b < 0x400_0000_0000_0000 {
      SmallNumber(b);
    } else if b >= 0x800_0000_0000_0000 {
      LargeNumber(b);
    } else {
      HighBits(b);
      HighNumber(OutputBits(b));
    }
  }

  lemma ThresholdBelowHalf(bound: int)
    requires 0 < bound < TWO32
    ensures Threshold(bound) < 0x8000_0000
  {
    if bound > 0x8000_0000 {
      QuotientUnique(TWO32, bound, 1, TWO32 - bound);
    }
  }

  lemma Pow2Is58()
    ensures Pow2(58) == 0x400_0000_0000_0000 && Pow2(59) == 0x800_0000_0000_0000
  {
    Complementary(58);
    Pow2Is6();
    assert Pow2(59) == 2 * Pow2(58);
    hide Pow2;
  }

  lemma Pow2Is6()
    ensures Pow2(64 - 58) == 64
  {
    assert Pow2(1) == 2 && Pow2(2) == 4 && Pow2(3) == 8 && Pow2(4) == 16 && Pow2(5) == 32 && Pow2(6) == 64;
  }

  lemma HigherMultiple(d: int, v: nat, w: nat)
    requires v <= w && Divides(Pow2(w), d)
    ensures Divides(Pow2(v), d)
  {
    Pow2Adds(v, w - v);
    var q: int :| d == q * Pow2(w);
    hide *;
    MultipleOfProduct(q, Pow2(v), Pow2(w - v));
    DividesIntro(Pow2(v), d, q * Pow2(w - v));
  }

  lemma MultipleOfProduct(q: int, a: int, b: int)
    ensures q * (a * b) == (q * b) * a
  {
  }

  /** The state between 2^58 and 2^59 that differs from `s` by a multiple of 2^58. */
  function HighSibling(s: int): int {
    s % 0x400_0000_0000_0000 + 0x400_0000_0000_0000
  }

  lemma HighSiblingDiffers(s: int)
    ensures Divides(0x400_0000_0000_0000, HighSibling(s) - s)
    ensures IsState(HighSibling(s)) && 0x400_0000_0000_0000 <= HighSibling(s) < 0x800_0000_0000_0000
  {
    DividesIntro(0x400_0000_0000_0000, HighSibling(s) - s, 1 - s / 0x400_0000_0000_0000);
  }

  lemma LowValuation(s: int, inc: int) returns (v: nat)
    requires Drift(s, inc) % 0x800_0000_0000_0000 != 0
    ensures v <= 58 && Valuation(Drift(s, inc), v)
  {
    assert Pow2(0) == 1;
    DividesIntro(1, Drift(s, inc), Drift(s, inc));
    v := SomeValuation(Drift(s, inc), 0);
    hide Drift, Pow2, Divides;
    Pow2Is58();
    NoMultiple(Drift(s, inc), 0x800_0000_0000_0000);
    if v >= 59 {
      HigherMultiple(Drift(s, inc), 59, v);
    }
  }

  /** The rejection loop ends for every bound unless 2^59 divides the drift. */
  lemma SomeDrawAccepted(s: int, inc: int, bound: int)
    requires IsState(s) && 0 < bound < TWO32 && Drift(s, inc) % 0x800_0000_0000_0000 != 0
    ensures Ends(s, inc, Threshold(bound))
  {
    hide Drift, Ends, Output, Threshold, HighSibling, Pow2, Divides, Valuation;
    var v := LowValuation(s, inc);
    var t := HighSibling(s);
    HighSiblingDiffers(s);
    Pow2Is58();
    HigherMultiple(t - s, v, 58);
    HighOutput(t);
    ThresholdBelowHalf(bound);
    OrbitEnds(s, inc, v, t, Threshold(bound));
  }

  /** So it does for every state when the increment is no multiple of four; seeding sets an odd one. */
  lemma SeededDrawsEnd(s: int, inc: int, bound: int)
    requires IsState(s) && 0 < bound < TWO32 && inc % 4 != 0
    ensures Ends(s, inc, Threshold(bound))
  {
    DriftIs(s, inc);
    FourDivides(Drift(s, inc));
    hide *;
    SomeDrawAccepted(s, inc, bound);
  }

  lemma FourDivides(d: int)
    ensures d % 0x800_0000_0000_0000 == 0 ==> d % 4 == 0
  {
    if d % 0x800_0000_0000_0000 == 0 {
      var q := d / 0x800_0000_0000_0000;
      assert d == 4 * (q * 0x200_0000_0000_0000);
    }
  }

  /** State `i` of those that differ from `s` by a multiple of 2^v, of which there are 2^(64 - v). */
  function Sibling(s: int, v: nat, i: nat): int {
    Pow2Positive(v);
    s % Pow2(v) + i * Pow2(v)
  }

  /**
   Otherwise there are at most 32 states to look at: the loop ends for a bound exactly when 2^59 does not divide
   the drift or one of these is accepted.
   */
  lemma EndsIff(s: int, inc: int, v: nat, bound: int)
    requires IsState(s) && 0 < bound < TWO32 && Valuation(Drift(s, inc), v)
    ensures v >= 59 ==> Pow2(64 - v) <= 32
    ensures Ends(s, inc, Threshold(bound)) <==>
            v <= 58
            || exists i: nat ::
                 i < Pow2(64 - v) && IsState(Sibling(s, v, i)) && Output(Sibling(s, v, i)) >= Threshold(bound)
  {
    hide Drift, Ends, Output, Threshold, Pow2, Divides, Sibling;
    if v >= 59 {
      FewSiblings(v);
    }
    if v <= 58 {
      ShallowDrift(s, inc, v);
      SomeDrawAccepted(s, inc, bound);
    } else if Ends(s, inc, Threshold(bound)) {
      OrbitEndsIff(s, inc, v, Threshold(bound));
      var t: int :| IsState(t) && Divides(Pow2(v), t - s) && Output(t) >= Threshold(bound);
      var i := SiblingOf(s, v, t);
    } else if i: nat :| i < Pow2(64 - v) && IsState(Sibling(s, v, i)) && Output(Sibling(s, v, i)) >= Threshold(bound) {
      SiblingDiffers(s, v, i);
      OrbitEnds(s, inc, v, Sibling(s, v, i), Threshold(bound));
    }
  }

  lemma FewSiblings(v: nat)
    requires 59 <= v <= 64
    ensures Pow2(64 - v) <= 32
  {
    assert Pow2(0) == 1 && Pow2(1) == 2 && Pow2(2) == 4 && Pow2(3) == 8 && Pow2(4) == 16 && Pow2(5) == 32;
  }

  lemma ShallowDrift(s: int, inc: int, v: nat)
    requires Valuation(Drift(s, inc), v) && v <= 58
    ensures Drift(s, inc) % 0x800_0000_0000_0000 != 0
  {
    var d := Drift(s, inc);
    if d % 0x800_0000_0000_0000 == 0 {
      Pow2Is58();
      DividesIntro(0x800_0000_0000_0000, d, d / 0x800_0000_0000_0000);
      hide *;
      HigherMultiple(d, v + 1, 59);
      NotFurther(d, v);
    }
  }

  lemma NotFurther(d: int, v: nat)
    requires Valuation(d, v) && v < 64
    ensures !Divides(Pow2(v + 1), d)
  {
  }

  lemma SiblingOf(s: int, v: nat, t: int) returns (i: nat)
    requires v <= 64 && IsState(t) && Divides(Pow2(v), t - s)
    ensures i < Pow2(64 - v) && Sibling(s, v, i) == t
  {
    Complementary(v);
    var q: int :| t - s == q * Pow2(v);
    SameRemainder(t, s, Pow2(v), q);
    QuotientBelow(t, Pow2(v), Pow2(64 - v));
    i := t / Pow2(v);
    hide Pow2;
  }

  lemma SiblingDiffers(s: int, v: nat, i: nat)
    ensures Divides(Pow2(v), Sibling(s, v, i) - s)
  {
    Pow2Positive(v);
    var p := Pow2(v);
    hide Pow2;
    assert s == (s / p) * p + s % p;
    DividesIntro(p, Sibling(s, v, i) - s, i - s / p);
  }

  lemma FixedMeans(s: int, inc: int)
    requires IsState(s)
    ensures Step(s, inc) == s <==> Drift(s, inc) % TWO64 == 0
  {
    assert s * MULTIPLIER + inc == s + Drift(s, inc);
  }

  /** The inverse of QUARTER modulo 2^62. */
  const INVERSE: int := 1314878037273365987

  /** For a multiple of four the generator has a state that it never leaves. */
  lemma FixedState(inc: int) returns (s: int)
    requires inc % 4 == 0
    ensures IsState(s) && Step(s, inc) == s
  {
    var c := -(inc / 4);
    var y := c * INVERSE;
    s := y % 0x4000_0000_0000_0000;
    Inverted(c, y, y / 0x4000_0000_0000_0000, s);
    var z := 453633601329040659 * c - QUARTER * (y / 0x4000_0000_0000_0000);
    FixedDrift(s, inc, c, z);
    hide *;
    assert IsState(s) by {
      StateBelow(s);
    }
    MultipleOfAll(Drift(s, inc), z);
    FixedMeans(s, inc);
  }

  lemma StateBelow(s: int)
    requires 0 <= s < 0x4000_0000_0000_0000
    ensures IsState(s)
  {
  }

  lemma MultipleOfAll(d: int, z: int)
    requires d == z * TWO64
    ensures d % TWO64 == 0
  {
  }

  lemma Inverted(c: int, y: int, k: int, s: int)
    requires y == c * INVERSE && s == y - k * 0x4000_0000_0000_0000
    ensures QUARTER * s == c + (453633601329040659 * c - QUARTER * k) * 0x4000_0000_0000_0000
  {
  }

  lemma FixedDrift(s: int, inc: int, c: int, z: int)
    requires inc == -4 * c && QUARTER * s == c + z * 0x4000_0000_0000_0000
    ensures Drift(s, inc) == z * TWO64
  {
  }

  /** Only multiples of four let a state stand still, and from such a state the loop ends exactly when its
      output is accepted. */
  lemma FixedIff(s: int, inc: int, threshold: int)
    requires IsState(s) && Step(s, inc) == s
    ensures inc % 4 == 0
    ensures Ends(s, inc, threshold) <==> Output(s) >= threshold
  {
    var x := QUARTER * s;
    FixedMeans(s, inc);
    assert Drift(s, inc) == 4 * x + inc;
    hide Output, Step, Drift;
    forall n: nat ensures Drawn(s, inc, n) == Output(s) {
      Stays(s, inc, n);
    }
    assert Drawn(s, inc, 0) == Output(s);
  }

  lemma {:induction false} Stays(s: int, inc: int, n: nat)
    requires Step(s, inc) == s
    ensures Iter(s, inc, n) == s
  {
    if n > 0 {
      Stays(s, inc, n - 1);
    }
  }

  /** `-bound % bound` in 32-bit arithmetic. */
  function Threshold(bound: int): (r: int)
    requires 0 < bound < TWO32
    ensures r == TWO32 % bound
  {
    var r := (TWO32 - bound) % bound;
    ThresholdIs(bound);
    r
  }

  lemma ThresholdIs(bound: int)
    requires 0 < bound < TWO32
    ensures (TWO32 - bound) % bound == TWO32 % bound
  {
    var q, r := (TWO32 - bound) / bound, (TWO32 - bound) % bound;
    assert TWO32 == (q + 1) * bound + r;
    QuotientUnique(TWO32, bound, q + 1, r);
  }

  lemma QuotientUnique(x: int, d: int, q: int, r: int)
    requires d > 0 && x == q * d + r && 0 <= r < d
    ensures x / d == q && x % d == r
  {
    var e := x / d - q;
    assert x == (x / d) * d + x % d;
    assert e * d == r - x % d;
    assert e >= 1 ==> e * d >= d;
    assert e <= -1 ==> e * d <= -d;
  }

  /** How many of lo, lo + 1, ..., hi - 1 leave the remainder `k`. */
  function ResidueCount(lo: int, hi: int, d: int, k: int): nat
    requires d > 0
    decreases hi - lo
  {
    if hi <= lo then 0 else ResidueCount(lo, hi - 1, d, k) + if (hi - 1) % d == k then 1 else 0
  }

  /** From a multiple of d on, each remainder is met once in every d numbers. */
  lemma {:induction false} ResidueCountIs(q: int, d: int, k: int, m: nat, j: nat)
    requires d > 0 && 0 <= k < d && j <= d
    ensures ResidueCount(q * d, q * d + m * d + j, d, k) == m + if k < j then 1 else 0
    decreases m, j
  {
    var lo, hi := q * d, q * d + m * d + j;
    if j > 0 {
      ResidueCountIs(q, d, k, m, j - 1);
      assert (q + m) * d == q * d + m * d;
      QuotientUnique(hi - 1, d, q + m, j - 1);
      assert m * d >= 0;
    } else if m > 0 {
      ResidueCountIs(q, d, k, m - 1, d);
      assert (m - 1) * d + d == m * d;
    }
  }

  /**
   Bounded draws are unbiased: every residue below the bound comes from equally many of the draws
   that are not rejected.
   */
  lemma Unbiased(bound: int, k: int)
    requires 0 < bound < TWO32 && 0 <= k < bound
    ensures ResidueCount(Threshold(bound), TWO32, bound, k) == TWO32 / bound
  {
    var m, t := TWO32 / bound, Threshold(bound);
    assert TWO32 == m * bound + t;
    ResidueShift(t, m, bound, k);
  }

  /** Starting off a multiple does not matter over whole rounds. */
  lemma ResidueShift(t: int, m: nat, d: int, k: int)
    requires 0 <= k < d && 0 <= t < d
    ensures ResidueCount(t, t + m * d, d, k) == m
  {
    ResidueCountIs(0, d, k, m, t);
    ResidueCountIs(0, d, k, 0, t);
    assert m * d >= 0;
    ResidueSplits(0, t, t + m * d, d, k);
  }

  lemma {:induction false} ResidueSplits(lo: int, mid: int, hi: int, d: int, k: int)
    requires d > 0 && lo <= mid <= hi
    ensures ResidueCount(lo, hi, d, k) == ResidueCount(lo, mid, d, k) + ResidueCount(mid, hi, d, k)
    decreases hi - mid
  {
    if mid < hi {
      ResidueSplits(lo, mid, hi - 1, d, k);
    }
  }

  /** `r` and `s'` are the result and the state after drawing below `bound` by rejection. */
  ghost predicate DrawnBelow(s: int, inc: int, bound: int, r: int, s': int)
    requires IsState(s) && 0 < bound <= TWO32
  {
    exists n: nat ::
      && Accepts(s, inc, TWO32 % bound, n)
      && r == Drawn(s, inc, n) % bound
      && s' == Iter(s, inc, n + 1)
  }

  lemma WholeRange(s: int, inc: int)
    requires IsState(s)
    ensures DrawnBelow(s, inc, TWO32, Output(s), Step(s, inc))
  {
    hide Output, Step;
    assert Drawn(s, inc, 0) == Output(s);
    assert Accepts(s, inc, TWO32 % TWO32, 0);
    assert Iter(s, inc, 0 + 1) == Step(s, inc);
  }

  /** There is one outcome, and it lies below the bound. */
  lemma DrawnBelowOnce(s: int, inc: int, bound: int, r: int, s': int, q: int, t': int)
    requires IsState(s) && 0 < bound <= TWO32
    requires DrawnBelow(s, inc, bound, r, s') && DrawnBelow(s, inc, bound, q, t')
    ensures 0 <= r < bound && r == q && s' == t'
  {
  }

  function ToSigned(x: int): int {
    if x < TWO32 / 2 then x else x - TWO32
  }

  class PcgRandom {
    var state: int
    var inc: int

    ghost predicate Valid()
      reads this
    {
      IsState(state) && IsState(inc)
    }

    /** Drawing below the bound comes to an end: `EndsIff` says when. */
    ghost predicate MayDraw(bound: int)
      requires Valid() && 0 <= bound < TWO32
      reads this
    {
      bound == 0 || Ends(state, inc, Threshold(bound))
    }

    constructor (state: int, stream: int)
      requires IsState(state) && IsState(stream)
      ensures Valid() && inc == 2 * stream % TWO64 + 1
      ensures this.state == Step((Step(0, inc) + state) % TWO64, inc)
    {
      this.state, inc := 0, 2 * stream % TWO64 + 1;
      new;
      Seed(state, stream);
    }

    method Seed(seed: int, stream: int)
      requires IsState(seed) && IsState(stream)
      modifies this
      ensures Valid() && inc == 2 * stream % TWO64 + 1
      ensures state == Step((Step(0, inc) + seed) % TWO64, inc)
    {
      hide Output, Step;
      state, inc := 0, 2 * stream % TWO64 + 1;
      var r := Next();
      state := (state + seed) % TWO64;
      r := Next();
    }

    method Next() returns (r: int)
      requires IsState(state)
      modifies `state
      ensures IsState(state) && state == Step(old(state), inc)
      ensures r == Output(old(state)) && 0 <= r < TWO32
    {
      r := Output(state);
      state := Step(state, inc);
    }

    method GetState() returns (saved: (int, int))
      ensures saved == (state, inc)
    {
      saved := (state, inc);
    }

    method SetState(saved: (int, int))
      modifies this
      ensures (state, inc) == saved
    {
      state, inc := saved.0, saved.1;
    }

    /** A draw below the bound; the bound 0 stands for the whole range of 32 bits. */
    method RangeBelow(bound: int) returns (r: int)
      requires Valid() && 0 <= bound < TWO32 && MayDraw(bound)
      modifies `state
      ensures Valid()
      ensures DrawnBelow(old(state), inc, if bound == 0 then TWO32 else bound, r, state)
    {
      hide Output, Step;
      if bound == 0 {
        WholeRange(state, inc);
        r := Next();
        return;
      }
      var threshold := Threshold(bound);
      ghost var s := state;
      ghost var end: nat :| Drawn(s, inc, end) >= threshold;
      ghost var n: nat := 0;
      r := Next();
      while r < threshold
        invariant IsState(state) && state == Iter(s, inc, n + 1)
        invariant r == Drawn(s, inc, n)
        invariant n <= end
        invariant forall i: nat :: i < n ==> Drawn(s, inc, i) < threshold
        decreases end - n
      {
        assert n != end;
        n := n + 1;
        r := Next();
      }
      assert Accepts(s, inc, threshold, n);
      r := r % bound;
    }

    /** A draw from min to max inclusive, in 32-bit arithmetic; fails if max < min. */
    method Range(min: int, max: int) returns (r: Option<int>)
      requires Valid() && -TWO32 / 2 <= min < TWO32 / 2 && -TWO32 / 2 <= max < TWO32 / 2
      requires min <= max ==> MayDraw((max - min + 1) % TWO32)
      modifies `state
      ensures Valid()
      ensures max < min ==> r == None && state == old(state)
      ensures min <= max ==> r.Some? && min <= r.value <= max
      ensures min <= max ==> DrawnBelow(old(state), inc, max - min + 1, r.value - min, state)
    {
      hide Output, Step, Iter, Drawn, Accepts, DrawnBelow;
      if max < min {
        return None;
      }
      var bound := (max - min + 1) % TWO32;
      assert (if bound == 0 then TWO32 else bound) == max - min + 1;
      var x := RangeBelow(bound);
      DrawnBelowOnce(old(state), inc, max - min + 1, x, state, x, state);
      r := Some(ToSigned((x + min) % TWO32));
      SignedSum(x, min);
    }
  }

  lemma SignedSum(x: int, min: int)
    requires -TWO32 / 2 <= min <= x + min < TWO32 / 2
    ensures ToSigned((x + min) % TWO32) == x + min
  {
  }

  lemma ZeroOutput()
    ensures Output(0) == 0
  {
    assert Mixed(0) == 0;
    assert OutputBits(0) == 0;
  }

  /** A restored state may hang: with increment 0 and state 0, no draw below 3 is ever accepted. */
  lemma RestoredStateHangs()
    ensures Threshold(3) == 1 && !Ends(0, 0, Threshold(3))
  {
    ZeroOutput();
    FixedIff(0, 0, Threshold(3));
    hide Output;
  }
}
