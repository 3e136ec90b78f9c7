/**
 What the interpolation between lattice points computes (src/noise.cpp, biLinearInterpolation, noise2d_gradient,
 NoisePerlin2D; src/noise.h, easeCurve): which corners it looks at, and that it is exact where it can be.
 */
module Interpolation {

  import opened Noise

  // ---------------------------------------------------------------- the ease curve

  lemma EaseEnds()
    ensures EaseCurve(0.0) == 0.0 && EaseCurve(1.0) == 1.0
  {
  }

  /** The curve is symmetric about the middle. */
  lemma EaseSymmetric(t: real)
    ensures EaseCurve(1.0 - t) == 1.0 - EaseCurve(t)
  {
    var t2 := t * t;
    var t3 := t2 * t;
    EasePowers(t, t2, t3);
    var s := 1.0 - t;
    var s2 := s * s;
    var s3 := s2 * s;
    EasePowers(s, s2, s3);
    assert s2 == 1.0 - 2.0 * t + t2;
    assert s3 == 1.0 - 3.0 * t + 3.0 * t2 - t3;
    assert s3 * s == 1.0 - 4.0 * t + 6.0 * t2 - 4.0 * t3 + t3 * t;
    assert s3 * s2 == 1.0 - 5.0 * t + 10.0 * t2 - 10.0 * t3 + 5.0 * (t3 * t) - t3 * t2;
  }

  lemma EasePowers(t: real, t2: real, t3: real)
    requires t2 == t * t && t3 == t2 * t
    ensures EaseCurve(t) == 6.0 * (t3 * t2) - 15.0 * (t3 * t) + 10.0 * t3
  {
    assert t * (6.0 * t - 15.0) == 6.0 * t2 - 15.0 * t;
    assert t3 * (6.0 * t2 - 15.0 * t + 10.0) == 6.0 * (t3 * t2) - 15.0 * (t3 * t) + 10.0 * t3;
  }

  /** It leaves its ends as slowly as a cube, so that slope and curvature vanish there, and stays between them. */
  lemma EaseFlat(t: real)
    requires 0.0 <= t <= 1.0
    ensures 0.0 <= EaseCurve(t) <= 10.0 * (t * t * t) && EaseCurve(t) <= 1.0
  {
    EaseBelowCube(t);
    EaseBelowCube(1.0 - t);
    EaseSymmetric(t);
    hide EaseCurve;
  }

  lemma EaseBelowCube(t: real)
    requires 0.0 <= t <= 1.0
    ensures 0.0 <= EaseCurve(t) <= 10.0 * (t * t * t)
  {
    var t3 := t * t * t;
    var q := t * (6.0 * t - 15.0);
    var u := 1.0 - t;
    NotNegative(t, t);
    NotNegative(t * t, t);
    NotNegative(t, 15.0 - 6.0 * t);
    NotNegative(u, u);
    assert q + 10.0 == 6.0 * (u * u) + 3.0 * u + 1.0;
    assert EaseCurve(t) == t3 * (q + 10.0);
    NotNegative(t3, q + 10.0);
    NotNegative(t3, 0.0 - q);
    assert t3 * (q + 10.0) == 10.0 * t3 - t3 * (0.0 - q);
  }

  lemma NotNegative(a: real, b: real)
    requires a >= 0.0 && b >= 0.0
    ensures a * b >= 0.0
  {
  }

  function Eased(t: real, eased: bool): real {
    if eased then EaseCurve(t) else t
  }

  // ---------------------------------------------------------------- points, edges and cells

  /** At a lattice point the gradient is the noise there. */
  lemma GradientAtPoint(noise: Lattice, i: int, j: int, seed: int, eased: bool)
    ensures Gradient(noise, i as real, j as real, seed, eased) == noise(i, j, seed)
  {
    EaseEnds();
    hide EaseCurve;
  }

  /** Between two points of a row it interpolates between these two, */
  lemma GradientOnRow(noise: Lattice, x: real, j: int, seed: int, eased: bool)
    ensures Gradient(noise, x, j as real, seed, eased)
         == Lerp(noise(x.Floor, j, seed), noise(x.Floor + 1, j, seed), Eased(x - x.Floor as real, eased))
  {
    EaseEnds();
    hide EaseCurve;
  }

  /** and likewise along a column. */
  lemma GradientOnColumn(noise: Lattice, i: int, y: real, seed: int, eased: bool)
    ensures Gradient(noise, i as real, y, seed, eased)
         == Lerp(noise(i, y.Floor, seed), noise(i, y.Floor + 1, seed), Eased(y - y.Floor as real, eased))
  {
    EaseEnds();
    hide EaseCurve;
  }

  /** The interpolation in the cell with the lower corner `(i, j)`. */
  function InCell(noise: Lattice, i: int, j: int, x: real, y: real, seed: int, eased: bool): real {
    BiLerp(noise(i, j, seed), noise(i + 1, j, seed), noise(i, j + 1, seed), noise(i + 1, j + 1, seed),
           x - i as real, y - j as real, eased)
  }

  /** There are no seams: on its whole border, too, a cell has the values of the gradient. */
  lemma Seamless(noise: Lattice, i: int, j: int, x: real, y: real, seed: int, eased: bool)
    requires i as real <= x <= i as real + 1.0 && j as real <= y <= j as real + 1.0
    ensures InCell(noise, i, j, x, y, seed, eased) == Gradient(noise, x, y, seed, eased)
  {
    EaseEnds();
    hide EaseCurve;
    assert x.Floor == i || (x.Floor == i + 1 && x == (i + 1) as real);
    assert y.Floor == j || (y.Floor == j + 1 && y == (j + 1) as real);
  }

  lemma LerpWithin(v0: real, v1: real, t: real, low: real, high: real)
    requires low <= v0 <= high && low <= v1 <= high && 0.0 <= t <= 1.0
    ensures low <= Lerp(v0, v1, t) <= high
  {
    var s := 1.0 - t;
    NotNegative(v1 - low, t);
    NotNegative(v0 - low, s);
    NotNegative(high - v1, t);
    NotNegative(high - v0, s);
    assert (v1 - v0) * t == (v1 - low) * t - (v0 - low) * t;
    assert (v0 - low) * s == (v0 - low) - (v0 - low) * t;
    assert (v1 - v0) * t == (high - v0) * t - (high - v1) * t;
    assert (high - v0) * s == (high - v0) - (high - v0) * t;
  }

  /** The gradient never leaves the range of the noise at the corners of its cell. */
  lemma GradientWithin(noise: Lattice, x: real, y: real, seed: int, eased: bool, low: real, high: real)
    requires forall i, j :: x.Floor <= i <= x.Floor + 1 && y.Floor <= j <= y.Floor + 1 ==>
               low <= noise(i, j, seed) <= high
    ensures low <= Gradient(noise, x, y, seed, eased) <= high
  {
    var i, j := x.Floor, y.Floor;
    EaseFlat(x - i as real);
    EaseFlat(y - j as real);
    var u, v := Eased(x - i as real, eased), Eased(y - j as real, eased);
    hide EaseCurve, Lerp;
    LerpWithin(noise(i, j, seed), noise(i + 1, j, seed), u, low, high);
    LerpWithin(noise(i, j + 1, seed), noise(i + 1, j + 1, seed), u, low, high);
    LerpWithin(Lerp(noise(i, j, seed), noise(i + 1, j, seed), u),
               Lerp(noise(i, j + 1, seed), noise(i + 1, j + 1, seed), u), v, low, high);
  }

  /** Lattice noise that is linear in each coordinate. */
  function Sloped(a: real, b: real, c: real, d: real): Lattice {
    (i, j, s) => a + b * i as real + c * j as real + d * (i as real * j as real)
  }

  lemma LerpOfLine(p: real, q: real, i: int, x: real)
    ensures Lerp(p + q * i as real, p + q * (i + 1) as real, x - i as real) == p + q * x
  {
    assert q * (i + 1) as real == q * i as real + q;
    assert q * (x - i as real) == q * x - q * i as real;
  }

  /** Without easing it is reproduced exactly at every point of the plane. */
  lemma SlopesAreExact(a: real, b: real, c: real, d: real, x: real, y: real, seed: int)
    ensures Gradient(Sloped(a, b, c, d), x, y, seed, false) == a + b * x + c * y + d * (x * y)
  {
    var i, j := x.Floor, y.Floor;
    var noise := Sloped(a, b, c, d);
    SlopedRow(a, b, c, d, i, j, seed);
    SlopedRow(a, b, c, d, i, j + 1, seed);
    LerpOfLine(a + c * j as real, b + d * j as real, i, x);
    LerpOfLine(a + c * (j + 1) as real, b + d * (j + 1) as real, i, x);
    SlopedColumn(a, b, c, d, x, j);
    SlopedColumn(a, b, c, d, x, j + 1);
    LerpOfLine(a + b * x, c + d * x, j, y);
    assert (c + d * x) * y == c * y + d * (x * y);
    hide Lerp, Sloped;
  }

  lemma SlopedRow(a: real, b: real, c: real, d: real, i: int, j: int, seed: int)
    ensures Sloped(a, b, c, d)(i, j, seed) == (a + c * j as real) + (b + d * j as real) * i as real
    ensures Sloped(a, b, c, d)(i + 1, j, seed) == (a + c * j as real) + (b + d * j as real) * (i + 1) as real
  {
    assert (b + d * j as real) * i as real == b * i as real + d * (i as real * j as real);
    assert (b + d * j as real) * (i + 1) as real == b * (i + 1) as real + d * ((i + 1) as real * j as real);
  }

  lemma SlopedColumn(a: real, b: real, c: real, d: real, x: real, j: int)
    ensures (a + c * j as real) + (b + d * j as real) * x == (a + b * x) + (c + d * x) * j as real
  {
    assert (b + d * j as real) * x == b * x + d * (x * j as real);
    assert (c + d * x) * j as real == c * j as real + d * (x * j as real);
  }

  // ---------------------------------------------------------------- octaves at lattice points

  function IntPow(b: int, k: nat): int {
    if k == 0 then 1 else b * IntPow(b, k - 1)
  }

  /** What the octaves add up to over the lattice: octave `k` looks `lacunarity`^k times as far, with the next seed. */
  function LatticeSum(np: NoiseParams, noise: Lattice, i: int, j: int, seed: int, lacunarity: int, n: nat): real {
    if n == 0 then 0.0
    else
      var f := IntPow(lacunarity, n - 1);
      var v := noise(f * i, f * j, seed + np.seed + (n - 1));
      LatticeSum(np, noise, i, j, seed, lacunarity, n - 1)
      + (if np.absValue && v < 0.0 then -v else v) * Pow(np.persist, n - 1)
  }

  lemma {:induction false} PowIsInt(b: int, k: nat)
    ensures Pow(b as real, k) == IntPow(b, k) as real
  {
    if k > 0 {
      PowIsInt(b, k - 1);
    }
  }

  lemma ScaledPoint(i: int, spread: real, f: int, p: real, x: real, fi: int)
    requires spread != 0.0 && p == f as real && x == i as real * spread && fi == f * i
    ensures Scaled(x, spread, p) == fi as real
  {
    var q := x / spread;
    assert (q - i as real) * spread == 0.0;
    assert q == i as real;
    assert q * f as real == i as real * f as real == (i * f) as real;
  }

  lemma OctaveIs(np: NoiseParams, noise: Lattice, x: real, y: real, seed: int, k: nat, px: real, py: real, v: real)
    requires np.spreadX != 0.0 && np.spreadY != 0.0
    requires px == Scaled(x, np.spreadX, Pow(np.lacunarity, k)) && py == Scaled(y, np.spreadY, Pow(np.lacunarity, k))
    requires v == Gradient(noise, px, py, seed + np.seed + k, np.eased)
    ensures Octave(np, noise, x, y, seed, k) == if np.absValue && v < 0.0 then -v else v
  {
    hide Gradient, Scaled, Pow;
  }

  lemma OctaveAtPoint(np: NoiseParams, noise: Lattice, i: int, j: int, seed: int, lacunarity: int, k: nat)
    requires np.spreadX != 0.0 && np.spreadY != 0.0 && np.lacunarity == lacunarity as real
    ensures var v := noise(IntPow(lacunarity, k) * i, IntPow(lacunarity, k) * j, seed + np.seed + k);
            Octave(np, noise, i as real * np.spreadX, j as real * np.spreadY, seed, k)
            == if np.absValue && v < 0.0 then -v else v
  {
    hide *;
    var f := IntPow(lacunarity, k);
    var fi, fj := f * i, f * j;
    var x, y := i as real * np.spreadX, j as real * np.spreadY;
    PowIsInt(lacunarity, k);
    ScaledPoint(i, np.spreadX, f, Pow(np.lacunarity, k), x, fi);
    ScaledPoint(j, np.spreadY, f, Pow(np.lacunarity, k), y, fj);
    GradientAtPoint(noise, fi, fj, seed + np.seed + k, np.eased);
    OctaveIs(np, noise, x, y, seed, k, fi as real, fj as real, noise(fi, fj, seed + np.seed + k));
  }

  lemma {:induction false} OctavesAtPoint(np: NoiseParams, noise: Lattice, i: int, j: int, seed: int, lacunarity: int,
                                          n: nat)
    requires np.spreadX != 0.0 && np.spreadY != 0.0 && np.lacunarity == lacunarity as real
    ensures Octaves(np, noise, i as real * np.spreadX, j as real * np.spreadY, seed, np.persist, n)
         == LatticeSum(np, noise, i, j, seed, lacunarity, n)
  {
    hide Octave, Pow, IntPow;
    if n > 0 {
      OctavesAtPoint(np, noise, i, j, seed, lacunarity, n - 1);
      OctaveAtPoint(np, noise, i, j, seed, lacunarity, n - 1);
    }
  }

  /** At the points of the spread, a direct value is made of lattice noise alone. */
  lemma PerlinAtPoint(np: NoiseParams, noise: Lattice, i: int, j: int, seed: int, lacunarity: int)
    requires np.spreadX != 0.0 && np.spreadY != 0.0 && np.lacunarity == lacunarity as real
    ensures PerlinAt(np, noise, i as real * np.spreadX, j as real * np.spreadY, seed)
         == LatticeSum(np, noise, i, j, seed, lacunarity, np.octaves) * np.scale + np.offset
  {
    OctavesAtPoint(np, noise, i, j, seed, lacunarity, np.octaves);
    hide Octaves, LatticeSum;
  }
}
