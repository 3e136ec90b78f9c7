/**
 The lattice buffer of a noise map (src/noise.cpp, Noise::resizeNoiseBuf): it is sized once, from the
 finest octave, and must hold the lattice of every octave at any offset.
 */
module NoiseBuffers {
  import opened Noise

  function Ceiling(x: real): int {
    -((-x).Floor)
  }

  /** How many lattice cells a side of the map spans at the finest octave. */
  function Points(n: nat, factor: real, spread: real): real
    requires spread != 0.0
  {
    n as real * factor / spread
  }

  /** The lattice points to make room for: two end points and one more for the offset. */
  function PointCount(n: nat, factor: real, spread: real): int
    requires spread != 0.0
  {
    Ceiling(Points(n, factor, spread)) + 3
  }

  /** The frequency that the code takes for that of the finest octave. */
  function OctaveFactor(np: NoiseParams): real {
    if np.lacunarity > 1.0 then
      if np.octaves == 0 then 1.0 / np.lacunarity else Pow(np.lacunarity, np.octaves - 1)
    else np.lacunarity
  }

  /** The guard against octaves with a spread below one; dividing by zero gives an infinity. */
  predicate SpreadBelowOne(spread: real, factor: real)
    requires spread != 0.0
  {
    if factor == 0.0 then spread < 0.0 else spread / factor < 1.0
  }

  /** Parameters for which resizing does not throw. */
  predicate Accepted(np: NoiseParams, sx: nat, sy: nat)
    requires np.spreadX != 0.0 && np.spreadY != 0.0
  {
    var factor := OctaveFactor(np);
    && Points(sx, factor, np.spreadX) <= 1000000000.0 && Points(sy, factor, np.spreadY) <= 1000000000.0
    && !SpreadBelowOne(np.spreadX, factor) && !SpreadBelowOne(np.spreadY, factor)
  }

  /** The number of cells of the buffer. */
  function BufferSize(np: NoiseParams, sx: nat, sy: nat): int
    requires np.spreadX != 0.0 && np.spreadY != 0.0
  {
    PointCount(sx, OctaveFactor(np), np.spreadX) * PointCount(sy, OctaveFactor(np), np.spreadY)
  }

  /** The most lattice points that an octave of frequency `f` walks over along one side. */
  function Longest(n: nat, f: real, spread: real): int
    requires spread != 0.0
  {
    Ceiling(Points(n, f, spread)) + 2
  }

  /** Whether a buffer of the computed size has room for all octaves.  Below a lacunarity of one the first
      octave is the finest, and the code sizes the buffer for a coarser one. */
  predicate Roomy(np: NoiseParams, sx: nat, sy: nat)
    requires np.spreadX != 0.0 && np.spreadY != 0.0
  {
    || np.octaves == 0
    || np.lacunarity >= 1.0
    || Longest(sx, 1.0, np.spreadX) * Longest(sy, 1.0, np.spreadY) <= BufferSize(np, sx, sy)
  }

  /** Whether no octave has a spread below one, which is what the guard is meant to keep out.  Below a lacunarity
      of one it looks at an octave that is coarser than the first. */
  predicate SmallSteps(np: NoiseParams) {
    np.octaves == 0 || np.lacunarity >= 1.0 || (np.spreadX >= 1.0 && np.spreadY >= 1.0)
  }

  lemma {:induction false} PowGrows(b: real, k: nat, n: nat)
    requires b >= 1.0 && k <= n
    ensures 1.0 <= Pow(b, k) <= Pow(b, n)
  {
    if k < n {
      PowGrows(b, k, n - 1);
      Enlarged(Pow(b, n - 1), b);
    } else if n > 0 {
      PowGrows(b, k - 1, n - 1);
      Enlarged(Pow(b, n - 1), b);
    }
  }

  lemma Enlarged(p: real, b: real)
    requires p >= 1.0 && b >= 1.0
    ensures p * b >= p
  {
  }

  /** From a lacunarity of one on, parameters are accepted exactly when the last octave, the finest, has spreads of at
      least one, and walks over no more than a thousand million points along each side. */
  lemma AcceptedIff(np: NoiseParams, sx: nat, sy: nat)
    requires np.lacunarity >= 1.0 && np.octaves > 0 && np.spreadX > 0.0 && np.spreadY > 0.0
    ensures var finest := Pow(np.lacunarity, np.octaves - 1);
      Accepted(np, sx, sy) <==>
        && finest <= np.spreadX && Points(sx, finest, np.spreadX) <= 1000000000.0
        && finest <= np.spreadY && Points(sy, finest, np.spreadY) <= 1000000000.0
  {
    var finest := Pow(np.lacunarity, np.octaves - 1);
    if np.lacunarity == 1.0 {
      PowOfOne(np.octaves - 1);
    }
    PowGrows(np.lacunarity, 0, np.octaves - 1);
    assert OctaveFactor(np) == finest;
    AtLeastOne(np.spreadX, finest);
    AtLeastOne(np.spreadY, finest);
    hide OctaveFactor, Pow, Points, SpreadBelowOne;
  }

  lemma AtLeastOne(spread: real, factor: real)
    requires spread > 0.0 && factor >= 1.0
    ensures SpreadBelowOne(spread, factor) <==> spread < factor
  {
    var t := spread / factor;
    assert t * factor == spread;
    assert t < 1.0 ==> t * factor < factor;
    assert t >= 1.0 ==> t * factor >= factor;
  }

  /** With a lacunarity of at least one no octave is finer than the factor says. */
  lemma FinestOctave(np: NoiseParams, k: nat)
    requires np.lacunarity >= 1.0 && k < np.octaves
    ensures 1.0 <= Pow(np.lacunarity, k) <= OctaveFactor(np)
  {
    PowGrows(np.lacunarity, k, np.octaves - 1);
    if np.lacunarity == 1.0 {
      PowOfOne(k);
    }
  }

  lemma {:induction false} PowOfOne(k: nat)
    ensures Pow(1.0, k) == 1.0
  {
    if k > 0 {
      PowOfOne(k - 1);
    }
  }

  lemma DivisionGrows(f: real, factor: real, spread: real)
    requires 0.0 <= f <= factor && spread > 0.0
    ensures 0.0 <= f / spread <= factor / spread
    ensures factor <= spread ==> factor / spread <= 1.0
  {
    var q, r := f / spread, factor / spread;
    assert q * spread == f && r * spread == factor;
  }

  lemma GuardMeans(spread: real, factor: real)
    requires spread != 0.0 && !SpreadBelowOne(spread, factor)
    ensures factor >= 0.0 ==> factor <= spread && 0.0 < spread
    ensures factor < 0.0 ==> spread < 0.0
  {
    if factor != 0.0 {
      var t := spread / factor;
      assert t * factor == spread && t >= 1.0;
      assert factor > 0.0 ==> (t - 1.0) * factor >= 0.0;
    }
  }

  lemma ScaledGrows(n: nat, f: real, factor: real, spread: real)
    requires 0.0 <= f <= factor && spread > 0.0
    ensures 0.0 <= n as real * (f / spread) <= Points(n, factor, spread)
  {
    DivisionGrows(f, factor, spread);
    var q, r := f / spread, factor / spread;
    assert n as real * q <= n as real * r;
    assert n as real * factor / spread == n as real * r;
  }

  /** The lattice that an octave walks over is no longer than that of a finer one. */
  lemma LatticeWithin(u0: real, n: nat, f: real, factor: real, spread: real)
    requires 0.0 <= u0 < 1.0 && 0.0 <= f <= factor && spread > 0.0
    ensures 0 <= LatticeSize(u0, f / spread, n) <= Longest(n, factor, spread)
  {
    ScaledGrows(n, f, factor, spread);
    var z, top := n as real * (f / spread), Points(n, factor, spread);
    assert Pos(u0, f / spread, n) == u0 + z;
    CeilingAbove(u0, z, top);
  }

  lemma CeilingAbove(u0: real, z: real, top: real)
    requires 0.0 <= u0 < 1.0 && 0.0 <= z <= top
    ensures 0 <= (u0 + z).Floor <= Ceiling(top)
  {
  }

  /** At some offset the first octave walks over that many lattice points. */
  lemma LongestReached(n: nat, spread: real) returns (x: real)
    requires spread > 0.0
    ensures LatticeSize(Scaled(x, spread, 1.0) - Scaled(x, spread, 1.0).Floor as real, 1.0 / spread, n)
            == Longest(n, 1.0, spread)
  {
    var z := Points(n, 1.0, spread);
    var u := Ceiling(z) as real - z;
    x := u * spread;
    assert Scaled(x, spread, 1.0) == u && u.Floor == 0;
    assert z == n as real / spread;
    assert n as real / spread == n as real * (1.0 / spread);
    assert Pos(u, 1.0 / spread, n) == Ceiling(z) as real;
  }

  lemma ProductWithin(w: int, h: int, nlx: int, nly: int)
    requires 0 <= w <= nlx && 0 <= h <= nly
    ensures w * h <= nlx * nly
  {
    assert w * h <= nlx * h <= nlx * nly;
  }

  /** A buffer with room for the finest octave holds every octave at every offset. */
  lemma FinestFits(m: NoiseMap, factor: real, x: real, y: real, k: nat)
    requires m.Valid() && 0.0 <= Pow(m.np.lacunarity, k) <= factor
    requires 0.0 < m.np.spreadX && 0.0 < m.np.spreadY
    requires Longest(m.sx, factor, m.np.spreadX) * Longest(m.sy, factor, m.np.spreadY) <= m.noiseBuf.Length
    ensures m.OctaveOk(x, y, k)
  {
    var np := m.np;
    var f := Pow(np.lacunarity, k);
    hide Pow, Scaled, LatticeSize, Longest;
    DivisionGrows(f, f, np.spreadX);
    DivisionGrows(f, f, np.spreadY);
    var px, py := Scaled(x, np.spreadX, f), Scaled(y, np.spreadY, f);
    LatticeWithin(px - px.Floor as real, m.sx, f, factor, np.spreadX);
    LatticeWithin(py - py.Floor as real, m.sy, f, factor, np.spreadY);
    ProductWithin(m.LatticeWidth(px, f / np.spreadX), m.LatticeHeight(py, f / np.spreadY),
                  Longest(m.sx, factor, np.spreadX), Longest(m.sy, factor, np.spreadY));
  }

  lemma {:induction false} PowShrinks(b: real, k: nat)
    requires 0.0 <= b < 1.0
    ensures 0.0 <= Pow(b, k) <= 1.0
  {
    if k > 0 {
      PowShrinks(b, k - 1);
      Shrunk(Pow(b, k - 1), b);
    }
  }

  lemma NotNegative(x: real, y: real)
    requires x >= 0.0 && y >= 0.0
    ensures x * y >= 0.0
  {
  }

  lemma Shrunk(p: real, b: real)
    requires 0.0 <= p <= 1.0 && 0.0 <= b < 1.0
    ensures 0.0 <= p * b <= 1.0
  {
    var q := 1.0 - p;
    NotNegative(q, b);
    NotNegative(p, b);
    assert p * b == b - q * b;
  }

  /** The two more points along each axis leave room for the finest octave. */
  lemma SizedForFactor(np: NoiseParams, sx: nat, sy: nat, factor: real)
    requires 0.0 <= factor == OctaveFactor(np) && 0.0 < np.spreadX && 0.0 < np.spreadY
    ensures Longest(sx, factor, np.spreadX) * Longest(sy, factor, np.spreadY) <= BufferSize(np, sx, sy)
  {
    PointsNotNegative(sx, factor, np.spreadX);
    PointsNotNegative(sy, factor, np.spreadY);
    ProductWithin(Longest(sx, factor, np.spreadX), Longest(sy, factor, np.spreadY),
                  PointCount(sx, factor, np.spreadX), PointCount(sy, factor, np.spreadY));
  }

  lemma PointsNotNegative(n: nat, factor: real, spread: real)
    requires (0.0 <= factor && 0.0 < spread) || (factor < 0.0 && spread < 0.0)
    ensures Points(n, factor, spread) >= 0.0
  {
    var p, z := Points(n, factor, spread), n as real * factor;
    assert p * spread == z;
    assert 0.0 <= factor ==> 0.0 <= z;
    assert factor < 0.0 ==> z <= 0.0;
    assert p < 0.0 && spread > 0.0 ==> p * spread < 0.0;
    assert p < 0.0 && spread < 0.0 ==> p * spread > 0.0;
  }

  lemma RoomSuffices(m: NoiseMap, x: real, y: real, k: nat)
    requires m.Valid() && Accepted(m.np, m.sx, m.sy) && m.noiseBuf.Length == BufferSize(m.np, m.sx, m.sy)
    requires m.np.lacunarity >= 0.0 && Roomy(m.np, m.sx, m.sy) && k < m.np.octaves
    ensures m.OctaveOk(x, y, k)
  {
    var np, factor := m.np, OctaveFactor(m.np);
    GuardMeans(np.spreadX, factor);
    GuardMeans(np.spreadY, factor);
    if np.lacunarity >= 1.0 {
      FinestOctave(np, k);
      SizedForFactor(np, m.sx, m.sy, factor);
      FinestFits(m, factor, x, y, k);
    } else {
      PowShrinks(np.lacunarity, k);
      FinestFits(m, 1.0, x, y, k);
    }
  }

  lemma RoomNeeded(m: NoiseMap)
    requires m.Valid() && Accepted(m.np, m.sx, m.sy) && m.noiseBuf.Length == BufferSize(m.np, m.sx, m.sy)
    requires m.np.lacunarity >= 0.0 && forall x, y, k: nat :: k < m.np.octaves ==> m.OctaveOk(x, y, k)
    ensures Roomy(m.np, m.sx, m.sy)
  {
    var np := m.np;
    if np.octaves > 0 && np.lacunarity < 1.0 {
      GuardMeans(np.spreadX, np.lacunarity);
      GuardMeans(np.spreadY, np.lacunarity);
      assert Pow(np.lacunarity, 0) == 1.0;
      var x := LongestReached(m.sx, np.spreadX);
      var y := LongestReached(m.sy, np.spreadY);
      assert m.OctaveOk(x, y, 0);
      hide Pow, Scaled, LatticeSize, Longest, BufferSize;
    }
  }

  /** A buffer of the computed size holds the lattice of every octave at every offset exactly when the
      parameters are `Roomy`. */
  lemma EveryOctaveFits(m: NoiseMap)
    requires m.Valid() && Accepted(m.np, m.sx, m.sy) && m.noiseBuf.Length == BufferSize(m.np, m.sx, m.sy)
    requires m.np.lacunarity >= 0.0
    ensures (forall x, y, k: nat :: k < m.np.octaves ==> m.OctaveOk(x, y, k)) <==> Roomy(m.np, m.sx, m.sy)
  {
    if Roomy(m.np, m.sx, m.sy) {
      forall x, y, k: nat | k < m.np.octaves ensures m.OctaveOk(x, y, k) {
        RoomSuffices(m, x, y, k);
      }
    }
    if forall x, y, k: nat :: k < m.np.octaves ==> m.OctaveOk(x, y, k) {
      RoomNeeded(m);
    }
  }

  /** The steps of octave `k` are at most one lattice cell. */
  predicate StepsWithin(np: NoiseParams, k: nat)
    requires np.spreadX != 0.0 && np.spreadY != 0.0
  {
    var f := Pow(np.lacunarity, k);
    0.0 <= f / np.spreadX <= 1.0 && 0.0 <= f / np.spreadY <= 1.0
  }

  lemma StepsSuffice(np: NoiseParams, sx: nat, sy: nat, k: nat)
    requires np.spreadX != 0.0 && np.spreadY != 0.0 && Accepted(np, sx, sy) && SmallSteps(np) && k < np.octaves
    ensures StepsWithin(np, k)
  {
    var factor := OctaveFactor(np);
    GuardMeans(np.spreadX, factor);
    GuardMeans(np.spreadY, factor);
    if np.lacunarity >= 1.0 {
      FinestOctave(np, k);
    } else {
      PowShrinks(np.lacunarity, k);
      factor := 1.0;
    }
    DivisionGrows(Pow(np.lacunarity, k), factor, np.spreadX);
    DivisionGrows(Pow(np.lacunarity, k), factor, np.spreadY);
  }

  lemma StepAtMostOne(spread: real)
    requires spread != 0.0 && 0.0 <= 1.0 / spread <= 1.0
    ensures spread >= 1.0
  {
    var q := 1.0 / spread;
    assert q * spread == 1.0;
    assert spread < 0.0 ==> q * spread <= 0.0;
    assert 0.0 < spread < 1.0 ==> q * spread <= spread;
  }

  /** Every octave of accepted parameters steps at most one cell exactly under `SmallSteps`. */
  lemma EveryStepSmall(np: NoiseParams, sx: nat, sy: nat)
    requires np.spreadX != 0.0 && np.spreadY != 0.0 && Accepted(np, sx, sy)
    ensures (forall k: nat :: k < np.octaves ==> StepsWithin(np, k)) <==> SmallSteps(np)
  {
    if SmallSteps(np) {
      forall k: nat | k < np.octaves ensures StepsWithin(np, k) {
        StepsSuffice(np, sx, sy, k);
      }
    } else {
      assert Pow(np.lacunarity, 0) == 1.0;
      if StepsWithin(np, 0) {
        StepAtMostOne(np.spreadX);
        StepAtMostOne(np.spreadY);
      }
    }
  }

  /** Then a map sums up the octaves of the direct formula. */
  lemma SmallStepsFollow(np: NoiseParams, sx: nat, sy: nat)
    requires np.spreadX != 0.0 && np.spreadY != 0.0 && Accepted(np, sx, sy) && SmallSteps(np)
    ensures forall k: nat :: k < np.octaves ==> OctaveFollows(np, k, sx, sy)
  {
    forall k: nat | k < np.octaves ensures OctaveFollows(np, k, sx, sy) {
      StepsSuffice(np, sx, sy, k);
    }
  }

  /** With spread 0.75 and lacunarity 0.5 the guard lets a first octave through whose spread is below one and
      whose step is 4/3 of a cell, although its lattice has room. */
  lemma GuardMissesFirstOctave(np: NoiseParams)
    requires np.spreadX == np.spreadY == 0.75 && np.lacunarity == 0.5 && np.octaves == 1
    ensures Accepted(np, 1, 1) && BufferSize(np, 1, 1) == 16 && Roomy(np, 1, 1)
    ensures Pow(np.lacunarity, 0) / np.spreadX > 1.0 && !StepsWithin(np, 0) && !SmallSteps(np)
  {
    assert Pow(0.5, 0) == 1.0;
  }

  /** With spread 1 and lacunarity 0.5 a map of 80 by 80 points is accepted with a buffer of 43 by 43 cells,
      but its only octave walks over 82 by 82, in steps of one cell. */
  lemma HalvingOverruns(m: NoiseMap, np: NoiseParams)
    requires m.Valid() && m.np == np && m.sx == m.sy == 80
    requires np.spreadX == np.spreadY == 1.0 && np.lacunarity == 0.5 && np.octaves == 1
    ensures Accepted(np, 80, 80) && BufferSize(np, 80, 80) == 43 * 43
    ensures m.LatticeWidth(0.0, 1.0) == m.LatticeHeight(0.0, 1.0) == 82
    ensures SmallSteps(np) && !Roomy(np, 80, 80)
    ensures m.noiseBuf.Length == BufferSize(np, 80, 80) ==> !m.OctaveOk(0.0, 0.0, 0)
  {
    assert Pow(0.5, 0) == 1.0;
  }

  /** resizeNoiseBuf for a map of two dimensions; fails where the code throws. */
  method ResizeNoiseBuf(m: NoiseMap) returns (ok: bool)
    requires m.Valid()
    modifies m`noiseBuf
    ensures ok <==> Accepted(m.np, m.sx, m.sy)
    ensures !ok ==> m.noiseBuf == old(m.noiseBuf)
    ensures ok ==> fresh(m.noiseBuf) && m.Valid() && m.noiseBuf.Length == BufferSize(m.np, m.sx, m.sy)
    ensures ok && m.np.lacunarity >= 0.0 ==>
      ((forall x, y, k: nat :: k < m.np.octaves ==> m.OctaveOk(x, y, k)) <==> Roomy(m.np, m.sx, m.sy))
    ensures ok ==> ((forall k: nat :: k < m.np.octaves ==> StepsWithin(m.np, k)) <==> SmallSteps(m.np))
  {
    var np, ofactor := m.np, OctaveFactor(m.np);
    var pointsX, pointsY := Points(m.sx, ofactor, np.spreadX), Points(m.sy, ofactor, np.spreadY);
    if pointsX > 1000000000.0 || pointsY > 1000000000.0 {
      return false;
    }
    if SpreadBelowOne(np.spreadX, ofactor) || SpreadBelowOne(np.spreadY, ofactor) {
      return false;
    }
    GuardMeans(np.spreadX, ofactor);
    GuardMeans(np.spreadY, ofactor);
    PointsNotNegative(m.sx, ofactor, np.spreadX);
    PointsNotNegative(m.sy, ofactor, np.spreadY);
    var nlx: nat, nly: nat := Ceiling(pointsX) + 3, Ceiling(pointsY) + 3;
    assert nlx * nly == BufferSize(np, m.sx, m.sy);
    hide *;
    ProductWithin(0, 0, nlx, nly);
    m.noiseBuf := new real[nlx * nly];
    ok := true;
    if np.lacunarity >= 0.0 {
      EveryOctaveFits(m);
    }
    EveryStepSmall(np, m.sx, m.sy);
  }
}
