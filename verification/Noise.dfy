/**
 Perlin noise over the reals (src/noise.cpp, src/noise.h): a map computed by one incremental walk over
 the lattice equals the direct formula at every grid point.  The lattice noise itself is any function.
 */
module Noise {

  /** noise2d: the value at a lattice point for a seed. */
  type Lattice = (int, int, int) -> real

  datatype NoiseParams = NoiseParams(
    offset: real, scale: real, spreadX: real, spreadY: real, seed: int,
    octaves: nat, persist: real, lacunarity: real, eased: bool, absValue: bool)

  // ---------------------------------------------------------------- the direct formula

  function EaseCurve(t: real): real {
    t * t * t * (t * (6.0 * t - 15.0) + 10.0)
  }

  function Lerp(v0: real, v1: real, t: real): real {
    v0 + (v1 - v0) * t
  }

  function BiLerp(v00: real, v10: real, v01: real, v11: real, x: real, y: real, eased: bool): real {
    var x', y' := if eased then EaseCurve(x) else x, if eased then EaseCurve(y) else y;
    Lerp(Lerp(v00, v10, x'), Lerp(v01, v11, x'), y')
  }

  /** noise2d_gradient */
  function Gradient(noise: Lattice, x: real, y: real, seed: int, eased: bool): real {
    var x0, y0 := x.Floor, y.Floor;
    BiLerp(noise(x0, y0, seed), noise(x0 + 1, y0, seed), noise(x0, y0 + 1, seed), noise(x0 + 1, y0 + 1, seed),
           x - x0 as real, y - y0 as real, eased)
  }

  function Abs(x: real): real {
    if x < 0.0 then -x else x
  }

  function Pow(b: real, n: nat): real {
    if n == 0 then 1.0 else Pow(b, n - 1) * b
  }

  /** A coordinate in units of the spread, at frequency `f`. */
  function Scaled(x: real, spread: real, f: real): real
    requires spread != 0.0
  {
    x / spread * f
  }

  /** One octave at a point of the plane, before its weight. */
  function Octave(np: NoiseParams, noise: Lattice, x: real, y: real, seed: int, k: nat): real
    requires np.spreadX != 0.0 && np.spreadY != 0.0
  {
    var f := Pow(np.lacunarity, k);
    var v := Gradient(noise, Scaled(x, np.spreadX, f), Scaled(y, np.spreadY, f), seed + np.seed + k, np.eased);
    if np.absValue then Abs(v) else v
  }

  /** The sum of the first `n` octaves with weights 1, p, p^2, ... */
  function Octaves(np: NoiseParams, noise: Lattice, x: real, y: real, seed: int, p: real, n: nat): real
    requires np.spreadX != 0.0 && np.spreadY != 0.0
  {
    if n == 0 then 0.0
    else Octaves(np, noise, x, y, seed, p, n - 1) + Pow(p, n - 1) * Octave(np, noise, x, y, seed, n - 1)
  }

  function PerlinAt(np: NoiseParams, noise: Lattice, x: real, y: real, seed: int): real
    requires np.spreadX != 0.0 && np.spreadY != 0.0
  {
    np.offset + Octaves(np, noise, x, y, seed, np.persist, np.octaves) * np.scale
  }

  lemma OctavesStart(np: NoiseParams, noise: Lattice, x: real, y: real, seed: int, p: real)
    requires np.spreadX != 0.0 && np.spreadY != 0.0
    ensures Octaves(np, noise, x, y, seed, p, 0) == 0.0
    ensures forall b :: Pow(b, 0) == 1.0
  {
  }

  lemma OctavesNext(np: NoiseParams, noise: Lattice, x: real, y: real, seed: int, p: real, n: nat)
    requires np.spreadX != 0.0 && np.spreadY != 0.0
    ensures Octaves(np, noise, x, y, seed, p, n + 1)
         == Octaves(np, noise, x, y, seed, p, n) + Pow(p, n) * Octave(np, noise, x, y, seed, n)
    ensures var f := Pow(np.lacunarity, n);
            var v := Gradient(noise, Scaled(x, np.spreadX, f), Scaled(y, np.spreadY, f), seed + np.seed + n, np.eased);
            Octave(np, noise, x, y, seed, n) == if np.absValue then Abs(v) else v
    ensures forall b :: Pow(b, n + 1) == Pow(b, n) * b
  {
  }

  lemma PerlinIs(np: NoiseParams, noise: Lattice, x: real, y: real, seed: int)
    requires np.spreadX != 0.0 && np.spreadY != 0.0
    ensures PerlinAt(np, noise, x, y, seed) == np.offset + Octaves(np, noise, x, y, seed, np.persist,
                                                                   np.octaves) * np.scale
  {
  }

  /** NoisePerlin2D */
  method NoisePerlin2D(np: NoiseParams, noise: Lattice, x: real, y: real, seed: int) returns (r: real)
    requires np.spreadX != 0.0 && np.spreadY != 0.0
    ensures r == PerlinAt(np, noise, x, y, seed)
  {
    var a, f, g := 0.0, 1.0, 1.0;
    var seed' := seed + np.seed;
    hide *;
    OctavesStart(np, noise, x, y, seed, np.persist);
    for i := 0 to np.octaves
      invariant a == Octaves(np, noise, x, y, seed, np.persist, i)
      invariant f == Pow(np.lacunarity, i) && g == Pow(np.persist, i)
    {
      OctavesNext(np, noise, x, y, seed, np.persist, i);
      var noiseval := Gradient(noise, Scaled(x, np.spreadX, f), Scaled(y, np.spreadY, f), seed' + i, np.eased);
      if np.absValue {
        noiseval := Abs(noiseval);
      }
      a := a + g * noiseval;
      f := f * np.lacunarity;
      g := g * np.persist;
    }
    r := np.offset + a * np.scale;
    PerlinIs(np, noise, x, y, seed);
  }

  // ---------------------------------------------------------------- walking along one axis

  /** The `i`-th position on an axis. */
  function Pos(x: real, step: real, i: int): real {
    x + i as real * step
  }

  lemma PosNext(x: real, step: real, i: int)
    ensures Pos(x, step, i + 1) == Pos(x, step, i) + step
    ensures Pos(x, step, 0) == x
  {
  }

  lemma PosMonotone(x: real, step: real, i: int, n: int)
    requires i <= n && step >= 0.0
    ensures Pos(x, step, i) <= Pos(x, step, n)
  {
    assert Pos(x, step, n) - Pos(x, step, i) == (n - i) as real * step;
  }

  lemma FloorIs(x: real, n: int)
    requires n as real <= x < n as real + 1.0
    ensures x.Floor == n
  {
  }

  /** Where the walk from fraction `u0` is after `i` steps: fraction and lattice cell.  A step enters at most one
      new cell, even if it is longer. */
  function WalkAt(u0: real, step: real, i: nat): (real, int) {
    if i == 0 then (u0, 0)
    else
      var (u, cell) := WalkAt(u0, step, i - 1);
      if u + step >= 1.0 then (u + step - 1.0, cell + 1) else (u + step, cell)
  }

  ghost predicate Walk(u0: real, step: real, i: int, u: real, cell: int) {
    i >= 0 && WalkAt(u0, step, i) == (u, cell)
  }

  /** The number of lattice points that `n` steps need. */
  function LatticeSize(u0: real, step: real, n: nat): int {
    Pos(u0, step, n).Floor + 2
  }

  lemma WalkStep(u0: real, step: real, i: int, u: real, cell: int)
    requires Walk(u0, step, i, u, cell)
    ensures if u + step >= 1.0 then Walk(u0, step, i + 1, u + step - 1.0, cell + 1)
            else Walk(u0, step, i + 1, u + step, cell)
  {
  }

  /** Fraction and cell add up to the position; the fraction stays below one as long as no step is longer than a
      cell. */
  lemma {:induction false} WalkAddsUp(u0: real, step: real, i: nat)
    requires 0.0 <= u0 < 1.0 && step >= 0.0
    ensures var (u, cell) := WalkAt(u0, step, i);
      0.0 <= u && 0 <= cell && u + cell as real == Pos(u0, step, i) && (step <= 1.0 ==> u < 1.0)
  {
    if i > 0 {
      WalkAddsUp(u0, step, i - 1);
      PosNext(u0, step, i - 1);
    } else {
      PosNext(u0, step, 0);
    }
    hide Pos;
  }

  /** The cell of the walk and its neighbours are inside the lattice. */
  lemma WalkInside(u0: real, step: real, i: int, n: nat, u: real, cell: int)
    requires 0.0 <= u0 < 1.0 && step >= 0.0 && Walk(u0, step, i, u, cell) && i <= n
    ensures 0 <= cell && cell + 1 < LatticeSize(u0, step, n)
  {
    WalkAddsUp(u0, step, i);
    PosMonotone(u0, step, i, n);
    assert cell as real <= Pos(u0, step, n);
    hide WalkAt;
  }

  /** A step is never longer than a cell, or there is none. */
  predicate Follows(step: real, n: nat) {
    0.0 <= step && (step <= 1.0 || n <= 1)
  }

  /** The walk is where the direct formula says. */
  lemma WalkMeans(x: real, step: real, i: nat, n: nat)
    requires Follows(step, n) && i < n
    ensures var (u, cell) := WalkAt(x - x.Floor as real, step, i);
      Pos(x, step, i).Floor == x.Floor + cell && Pos(x, step, i) - (x.Floor + cell) as real == u
  {
    var u0 := x - x.Floor as real;
    var (u, cell) := WalkAt(u0, step, i);
    WalkAddsUp(u0, step, i);
    assert Pos(x, step, i) == Pos(u0, step, i) + x.Floor as real;
    if step <= 1.0 || i == 0 {
      FloorIs(Pos(x, step, i), x.Floor + cell);
    }
  }

  /** The value that the walks compute at grid point `(i, j)`. */
  function Walked(noise: Lattice, x: real, y: real, stepX: real, stepY: real, seed: int, eased: bool, i: nat,
                  j: nat): real {
    var (u, cellX) := WalkAt(x - x.Floor as real, stepX, i);
    var (v, cellY) := WalkAt(y - y.Floor as real, stepY, j);
    var x0, y0 := x.Floor + cellX, y.Floor + cellY;
    BiLerp(noise(x0, y0, seed), noise(x0 + 1, y0, seed), noise(x0, y0 + 1, seed), noise(x0 + 1, y0 + 1, seed), u, v,
           eased)
  }

  /** It is the direct gradient there. */
  lemma WalkedIsDirect(noise: Lattice, x: real, y: real, stepX: real, stepY: real, seed: int, eased: bool, i: nat,
                       j: nat, w: nat, h: nat)
    requires Follows(stepX, w) && Follows(stepY, h) && i < w && j < h
    ensures Walked(noise, x, y, stepX, stepY, seed, eased, i, j)
         == Gradient(noise, Pos(x, stepX, i), Pos(y, stepY, j), seed, eased)
  {
    WalkMeans(x, stepX, i, w);
    WalkMeans(y, stepY, j, h);
    hide WalkAt, Pos, BiLerp;
  }

  // ---------------------------------------------------------------- grids in flat buffers

  function Idx(w: nat, x: int, y: int): int {
    y * w + x
  }

  lemma TimesNonNegative(a: int, b: int)
    requires a >= 0 && b >= 0
    ensures a * b >= 0
  {
  }

  lemma IdxInRange(w: nat, h: nat, x: int, y: int)
    requires 0 <= x < w && 0 <= y < h
    ensures 0 <= Idx(w, x, y) < w * h
  {
    TimesNonNegative(h - 1 - y, w);
    TimesNonNegative(y, w);
    assert w * h == (h - 1 - y) * w + y * w + w;
  }

  lemma IdxNext(w: nat, x: int, y: int)
    ensures Idx(w, x + 1, y) == Idx(w, x, y) + 1
    ensures Idx(w, w, y) == Idx(w, 0, y + 1)
    ensures Idx(w, 0, 0) == 0
  {
  }

  lemma IdxBelow(w: nat, x: int, y: int, x': int, y': int)
    requires 0 <= x < w && 0 <= x' <= w && (y < y' || (y == y' && x < x'))
    ensures Idx(w, x, y) < Idx(w, x', y')
  {
    if y < y' {
      TimesNonNegative(y' - y - 1, w);
      assert y' * w == (y' - y - 1) * w + y * w + w;
    }
  }

  /** `buf` holds the lattice values of an `nlx` by `nly` window at `(x0, y0)`. */
  ghost predicate IsLattice(buf: seq<real>, noise: Lattice, nlx: nat, nly: nat, x0: int, y0: int, seed: int) {
    && |buf| >= nlx * nly
    && forall i, j :: 0 <= i < nlx && 0 <= j < nly ==> LatticeCell(buf, noise, nlx, x0, y0, seed, i, j)
  }

  ghost predicate LatticeCell(buf: seq<real>, noise: Lattice, nlx: nat, x0: int, y0: int, seed: int, i: int, j: int) {
    0 <= Idx(nlx, i, j) < |buf| && buf[Idx(nlx, i, j)] == noise(x0 + i, y0 + j, seed)
  }

  /** The first `j` rows, and the first `i` cells of row `j`, of the window. */
  ghost predicate LatticeUpTo(buf: seq<real>, noise: Lattice, nlx: nat, x0: int, y0: int, seed: int, i: int, j: int) {
    forall a, b :: 0 <= a < nlx && 0 <= b && (b < j || (b == j && a < i)) ==>
        LatticeCell(buf, noise, nlx, x0, y0, seed, a, b)
  }

  lemma LatticeOneMore(buf: seq<real>, noise: Lattice, nlx: nat, nly: nat, x0: int, y0: int, seed: int, i: int, j: int)
    requires 0 <= i < nlx && 0 <= j < nly && nlx * nly <= |buf|
    requires LatticeUpTo(buf, noise, nlx, x0, y0, seed, i, j)
    ensures 0 <= Idx(nlx, i, j) < |buf|
    ensures LatticeUpTo(buf[Idx(nlx, i, j) := noise(x0 + i, y0 + j, seed)], noise, nlx, x0, y0, seed, i + 1, j)
    ensures Idx(nlx, i + 1, j) == Idx(nlx, i, j) + 1
  {
    IdxInRange(nlx, nly, i, j);
    IdxNext(nlx, i, j);
    var buf' := buf[Idx(nlx, i, j) := noise(x0 + i, y0 + j, seed)];
    forall a, b | 0 <= a < nlx && 0 <= b && (b < j || (b == j && a < i + 1))
      ensures LatticeCell(buf', noise, nlx, x0, y0, seed, a, b)
    {
      if !(a == i && b == j) {
        IdxBelow(nlx, a, b, i, j);
        assert LatticeCell(buf, noise, nlx, x0, y0, seed, a, b);
      }
    }
  }

  lemma LatticeRowDone(buf: seq<real>, noise: Lattice, nlx: nat, x0: int, y0: int, seed: int, j: int)
    requires LatticeUpTo(buf, noise, nlx, x0, y0, seed, nlx, j) || (j == -1)
    ensures LatticeUpTo(buf, noise, nlx, x0, y0, seed, 0, j + 1)
    ensures j >= 0 ==> Idx(nlx, nlx, j) == Idx(nlx, 0, j + 1)
    ensures Idx(nlx, 0, 0) == 0
  {
    IdxNext(nlx, nlx, j);
  }

  lemma LatticeDone(buf: seq<real>, noise: Lattice, nlx: nat, nly: nat, x0: int, y0: int, seed: int)
    requires |buf| >= nlx * nly && LatticeUpTo(buf, noise, nlx, x0, y0, seed, 0, nly)
    ensures IsLattice(buf, noise, nlx, nly, x0, y0, seed)
  {
    hide LatticeCell;
  }

  /** Calculating the noise point lattice. */
  method FillLattice(buf: array<real>, noise: Lattice, nlx: nat, nly: nat, x0: int, y0: int, seed: int)
    requires buf.Length >= nlx * nly
    modifies buf
    ensures IsLattice(buf[..], noise, nlx, nly, x0, y0, seed)
  {
    hide *;
    var index := 0;
    LatticeRowDone(buf[..], noise, nlx, x0, y0, seed, -1);
    for j := 0 to nly
      invariant index == Idx(nlx, 0, j)
      invariant LatticeUpTo(buf[..], noise, nlx, x0, y0, seed, 0, j)
    {
      for i := 0 to nlx
        invariant index == Idx(nlx, i, j)
        invariant LatticeUpTo(buf[..], noise, nlx, x0, y0, seed, i, j)
      {
        ghost var was := buf[..];
        LatticeOneMore(was, noise, nlx, nly, x0, y0, seed, i, j);
        buf[index] := noise(x0 + i, y0 + j, seed);
        assert buf[..] == was[Idx(nlx, i, j) := noise(x0 + i, y0 + j, seed)];
        index := index + 1;
      }
      LatticeRowDone(buf[..], noise, nlx, x0, y0, seed, j);
    }
    LatticeDone(buf[..], noise, nlx, nly, x0, y0, seed);
  }

  /** `grad` holds the walked values for the first `j` rows, and the first `i` cells of row `j`. */
  ghost predicate GradientUpTo(grad: seq<real>, noise: Lattice, w: nat, x: real, y: real, stepX: real, stepY: real,
                               seed: int, eased: bool, i: int, j: int) {
    forall a, b :: 0 <= a < w && 0 <= b && (b < j || (b == j && a < i)) ==>
        GradientCell(grad, noise, w, x, y, stepX, stepY, seed, eased, a, b)
  }

  ghost predicate GradientCell(grad: seq<real>, noise: Lattice, w: nat, x: real, y: real, stepX: real, stepY: real,
                               seed: int, eased: bool, a: int, b: int) {
    && 0 <= a && 0 <= b && 0 <= Idx(w, a, b) < |grad|
    && grad[Idx(w, a, b)] == Walked(noise, x, y, stepX, stepY, seed, eased, a, b)
  }

  ghost predicate IsGradient(grad: seq<real>, noise: Lattice, w: nat, h: nat, x: real, y: real, stepX: real,
                             stepY: real, seed: int, eased: bool) {
    |grad| == w * h && forall a, b :: 0 <= a < w && 0 <= b < h ==>
        GradientCell(grad, noise, w, x, y, stepX, stepY, seed, eased, a, b)
  }

  lemma GradientOneMore(grad: seq<real>, noise: Lattice, w: nat, h: nat, x: real, y: real, stepX: real, stepY: real,
                        seed: int, eased: bool, i: int, j: int)
    requires 0 <= i < w && 0 <= j < h && |grad| == w * h
    requires GradientUpTo(grad, noise, w, x, y, stepX, stepY, seed, eased, i, j)
    ensures 0 <= Idx(w, i, j) < |grad|
    ensures GradientUpTo(grad[Idx(w, i, j) := Walked(noise, x, y, stepX, stepY, seed, eased, i, j)],
                         noise, w, x, y, stepX, stepY, seed, eased, i + 1, j)
    ensures Idx(w, i + 1, j) == Idx(w, i, j) + 1
  {
    IdxInRange(w, h, i, j);
    IdxNext(w, i, j);
    var v := Walked(noise, x, y, stepX, stepY, seed, eased, i, j);
    var grad' := grad[Idx(w, i, j) := v];
    hide Walked;
    forall a, b | 0 <= a < w && 0 <= b && (b < j || (b == j && a < i + 1))
      ensures GradientCell(grad', noise, w, x, y, stepX, stepY, seed, eased, a, b)
    {
      if !(a == i && b == j) {
        IdxBelow(w, a, b, i, j);
        assert GradientCell(grad, noise, w, x, y, stepX, stepY, seed, eased, a, b);
      }
    }
  }

  lemma GradientRowDone(grad: seq<real>, noise: Lattice, w: nat, x: real, y: real, stepX: real, stepY: real, seed: int,
                        eased: bool, j: int)
    requires GradientUpTo(grad, noise, w, x, y, stepX, stepY, seed, eased, w, j) || j == -1
    ensures GradientUpTo(grad, noise, w, x, y, stepX, stepY, seed, eased, 0, j + 1)
    ensures j >= 0 ==> Idx(w, w, j) == Idx(w, 0, j + 1)
    ensures Idx(w, 0, 0) == 0
  {
    IdxNext(w, w, j);
    hide GradientCell;
  }

  lemma GradientDone(grad: seq<real>, noise: Lattice, w: nat, h: nat, x: real, y: real, stepX: real, stepY: real,
                     seed: int, eased: bool)
    requires |grad| == w * h && GradientUpTo(grad, noise, w, x, y, stepX, stepY, seed, eased, 0, h)
    ensures IsGradient(grad, noise, w, h, x, y, stepX, stepY, seed, eased)
  {
    hide GradientCell;
  }

  /** The value interpolated from the lattice cell that the two walks are in. */
  lemma CellValue(buf: seq<real>, noise: Lattice, nlx: nat, nly: nat, x: real, y: real, stepX: real, stepY: real,
                  seed: int, eased: bool,
                  i: int, j: int, w: nat, h: nat, u: real, v: real, cellX: int, cellY: int)
    requires IsLattice(buf, noise, nlx, nly, x.Floor, y.Floor, seed)
    requires nlx == LatticeSize(x - x.Floor as real, stepX, w) && nly == LatticeSize(y - y.Floor as real, stepY, h)
    requires Walk(x - x.Floor as real, stepX, i, u, cellX) && Walk(y - y.Floor as real, stepY, j, v, cellY)
    requires 0 <= i <= w && 0 <= j <= h && stepX >= 0.0 && stepY >= 0.0
    ensures 0 <= cellX && cellX + 1 < nlx && 0 <= cellY && cellY + 1 < nly
    ensures LatticeCell(buf, noise, nlx, x.Floor, y.Floor, seed, cellX, cellY)
         && LatticeCell(buf, noise, nlx, x.Floor, y.Floor, seed, cellX + 1, cellY)
         && LatticeCell(buf, noise, nlx, x.Floor, y.Floor, seed, cellX, cellY + 1)
         && LatticeCell(buf, noise, nlx, x.Floor, y.Floor, seed, cellX + 1, cellY + 1)
    ensures BiLerp(noise(x.Floor + cellX, y.Floor + cellY, seed), noise(x.Floor + cellX + 1, y.Floor + cellY, seed),
                   noise(x.Floor + cellX, y.Floor + cellY + 1, seed),
                       noise(x.Floor + cellX + 1, y.Floor + cellY + 1, seed), u, v, eased)
         == Walked(noise, x, y, stepX, stepY, seed, eased, i, j)
  {
    WalkInside(x - x.Floor as real, stepX, i, w, u, cellX);
    WalkInside(y - y.Floor as real, stepY, j, h, v, cellY);
    hide LatticeCell, BiLerp, WalkAt, LatticeSize;
  }

  // ---------------------------------------------------------------- summing octaves

  /** One octave of a map at grid point `(a, b)`, before its weight. */
  function WalkedOctave(np: NoiseParams, noise: Lattice, x: real, y: real, seed: int, k: nat, a: nat, b: nat): real
    requires np.spreadX != 0.0 && np.spreadY != 0.0
  {
    var f := Pow(np.lacunarity, k);
    var v := Walked(noise, Scaled(x, np.spreadX, f), Scaled(y, np.spreadY, f), f / np.spreadX, f / np.spreadY,
                    seed + np.seed + k, np.eased, a, b);
    if np.absValue then Abs(v) else v
  }

  /** The sum of the first `n` octaves of a map at grid point `(a, b)`. */
  function WalkedOctaves(np: NoiseParams, noise: Lattice, x: real, y: real, seed: int, p: real, n: nat, a: nat,
                         b: nat): real
    requires np.spreadX != 0.0 && np.spreadY != 0.0
  {
    if n == 0 then 0.0
    else WalkedOctaves(np, noise, x, y, seed, p, n - 1, a, b) + Pow(p, n - 1) * WalkedOctave(np, noise, x, y, seed,
          n - 1, a, b)
  }

  lemma WalkedOctavesNext(np: NoiseParams, noise: Lattice, x: real, y: real, seed: int, p: real, n: nat, a: nat, b: nat)
    requires np.spreadX != 0.0 && np.spreadY != 0.0
    ensures WalkedOctaves(np, noise, x, y, seed, p, n + 1, a, b)
         == WalkedOctaves(np, noise, x, y, seed, p, n, a, b) + Pow(p, n) * WalkedOctave(np, noise, x, y, seed, n, a, b)
    ensures var f := Pow(np.lacunarity, n);
            var v := Walked(noise, Scaled(x, np.spreadX, f), Scaled(y, np.spreadY, f), f / np.spreadX, f / np.spreadY,
                            seed + np.seed + n, np.eased, a, b);
            WalkedOctave(np, noise, x, y, seed, n, a, b) == if np.absValue then Abs(v) else v
    ensures forall c :: Pow(c, n + 1) == Pow(c, n) * c
  {
    hide Walked, Scaled;
  }

  /** The steps of an octave do not jump over cells of a map of `w` by `h` points. */
  predicate OctaveFollows(np: NoiseParams, k: nat, w: nat, h: nat)
    requires np.spreadX != 0.0 && np.spreadY != 0.0
  {
    var f := Pow(np.lacunarity, k);
    Follows(f / np.spreadX, w) && Follows(f / np.spreadY, h)
  }

  /** As long as no octave jumps over cells, a map sums up the octaves of the direct formula. */
  lemma {:induction false} OctavesFollow(np: NoiseParams, noise: Lattice, x: real, y: real, seed: int, p: real, n: nat,
                                         w: nat, h: nat, a: nat, b: nat)
    requires np.spreadX != 0.0 && np.spreadY != 0.0 && a < w && b < h
    requires forall k: nat :: k < n ==> OctaveFollows(np, k, w, h)
    ensures WalkedOctaves(np, noise, x, y, seed, p, n, a, b) == Octaves(np, noise, x + a as real, y + b as real, seed,
                                                                        p, n)
  {
    hide *;
    if n == 0 {
      OctavesStart(np, noise, x + a as real, y + b as real, seed, p);
      WalkedOctavesStart(np, noise, x, y, seed, p, a, b);
    } else {
      OctavesFollow(np, noise, x, y, seed, p, n - 1, w, h, a, b);
      OctaveFollowing(np, noise, x, y, seed, n - 1, w, h, a, b);
      OctavesNext(np, noise, x + a as real, y + b as real, seed, p, n - 1);
      WalkedOctavesNext(np, noise, x, y, seed, p, n - 1, a, b);
    }
  }

  lemma WalkedOctavesStart(np: NoiseParams, noise: Lattice, x: real, y: real, seed: int, p: real, a: nat, b: nat)
    requires np.spreadX != 0.0 && np.spreadY != 0.0
    ensures WalkedOctaves(np, noise, x, y, seed, p, 0, a, b) == 0.0
  {
  }

  lemma OctaveFollowing(np: NoiseParams, noise: Lattice, x: real, y: real, seed: int, k: nat, w: nat, h: nat, a: nat,
                        b: nat)
    requires np.spreadX != 0.0 && np.spreadY != 0.0 && a < w && b < h && OctaveFollows(np, k, w, h)
    ensures WalkedOctave(np, noise, x, y, seed, k, a, b) == Octave(np, noise, x + a as real, y + b as real, seed, k)
  {
    hide Follows, Walked, Gradient, Pos, Scaled, Pow;
    var f := Pow(np.lacunarity, k);
    WalkedIsDirect(noise, Scaled(x, np.spreadX, f), Scaled(y, np.spreadY, f), f / np.spreadX, f / np.spreadY,
                   seed + np.seed + k, np.eased, a, b, w, h);
    ScaledPos(x, np.spreadX, f, a);
    ScaledPos(y, np.spreadY, f, b);
  }

  /** The base of the octave weights at one cell: the persistence, or its entry in a persistence map. */
  ghost function WeightBase(np: NoiseParams, persistence: seq<real>, c: int): real {
    if 0 <= c < |persistence| then persistence[c] else np.persist
  }

  ghost predicate SumCell(sum: seq<real>, np: NoiseParams, noise: Lattice, w: nat, x: real, y: real, seed: int,
                          persistence: seq<real>, n: nat, a: int, b: int)
    requires np.spreadX != 0.0 && np.spreadY != 0.0
  {
    var c := Idx(w, a, b);
    && 0 <= a && 0 <= b && 0 <= c < |sum|
    && sum[c] == WalkedOctaves(np, noise, x, y, seed, WeightBase(np, persistence, c), n, a, b)
  }

  /** `sum` holds the first `n` octaves at every grid point. */
  ghost predicate IsSum(sum: seq<real>, np: NoiseParams, noise: Lattice, w: nat, h: nat, x: real, y: real, seed: int,
                        persistence: seq<real>, n: nat)
    requires np.spreadX != 0.0 && np.spreadY != 0.0
  {
    |sum| == w * h && forall a, b :: 0 <= a < w && 0 <= b < h ==>
        SumCell(sum, np, noise, w, x, y, seed, persistence, n, a, b)
  }

  /** The weights of octave `n`. */
  ghost predicate IsWeights(g: real, gmap: seq<real>, np: NoiseParams, persistence: seq<real>, n: nat) {
    && g == Pow(np.persist, n)
    && (persistence != [] ==> |gmap| == |persistence| && forall c :: 0 <= c < |gmap| ==>
        gmap[c] == Pow(persistence[c], n))
  }

  function Times(a: real, b: real): real {
    a * b
  }

  /** The contribution of one octave value. */
  function Weighed(weight: real, v: real, absValue: bool): real {
    weight * (if absValue then Abs(v) else v)
  }

  ghost predicate Updated(sum: seq<real>, sum': seq<real>, gmap: seq<real>, gmap': seq<real>, grad: seq<real>, g: real,
                          persistence: seq<real>, absValue: bool) {
    && |sum'| == |sum| == |grad| && |gmap'| == |gmap|
    && (persistence != [] ==> |gmap| == |persistence| == |sum|)
    && (forall c :: 0 <= c < |sum| ==>
          sum'[c] == sum[c] + Weighed(if persistence == [] then g else gmap[c], grad[c], absValue))
    && forall c :: 0 <= c < |gmap| ==> gmap'[c] == if persistence == [] then gmap[c] else Times(gmap[c], persistence[c])
  }

  lemma UpdatedWithMap(sum: seq<real>, sum': seq<real>, gmap: seq<real>, gmap': seq<real>, grad: seq<real>,
                       persistence: seq<real>, absValue: bool)
    requires |sum'| == |sum| == |grad| == |gmap'| == |gmap| == |persistence| && persistence != []
    requires forall c :: 0 <= c < |sum| ==> sum'[c] == sum[c] + Weighed(gmap[c], grad[c], absValue)
    requires forall c :: 0 <= c < |gmap| ==> gmap'[c] == Times(gmap[c], persistence[c])
    ensures Updated(sum, sum', gmap, gmap', grad, 0.0, persistence, absValue)
  {
  }

  lemma AnyWeight(sum: seq<real>, sum': seq<real>, gmap: seq<real>, gmap': seq<real>, grad: seq<real>, g: real,
                  persistence: seq<real>, absValue: bool)
    requires Updated(sum, sum', gmap, gmap', grad, 0.0, persistence, absValue) && persistence != []
    ensures Updated(sum, sum', gmap, gmap', grad, g, persistence, absValue)
  {
  }

  /** `grad` holds the gradients of octave `n` on the scaled grid. */
  ghost predicate IsOctaveGradient(grad: seq<real>, np: NoiseParams, noise: Lattice, w: nat, h: nat, x: real, y: real,
                                   seed: int, n: nat)
    requires np.spreadX != 0.0 && np.spreadY != 0.0
  {
    var f := Pow(np.lacunarity, n);
    IsGradient(grad, noise, w, h, Scaled(x, np.spreadX, f), Scaled(y, np.spreadY, f), f / np.spreadX, f / np.spreadY,
               seed + np.seed + n, np.eased)
  }

  /** An octave evaluated on the scaled grid is the octave at the original points. */
  lemma ScaledPos(x: real, spread: real, f: real, i: int)
    requires spread != 0.0
    ensures Pos(Scaled(x, spread, f), f / spread, i) == Scaled(x + i as real, spread, f)
  {
    var q := 1.0 / spread;
    assert f / spread == f * q;
    assert x / spread == x * q && (x + i as real) / spread == (x + i as real) * q;
  }

  lemma SummedOne(sum: seq<real>, sum': seq<real>, gmap: seq<real>, gmap': seq<real>, grad: seq<real>, g: real,
                  np: NoiseParams, noise: Lattice,
                  w: nat, h: nat, x: real, y: real, seed: int, persistence: seq<real>, n: nat, a: int, b: int)
    requires np.spreadX != 0.0 && np.spreadY != 0.0 && 0 <= a < w && 0 <= b < h
    requires IsSum(sum, np, noise, w, h, x, y, seed, persistence, n) && IsWeights(g, gmap, np, persistence, n)
    requires IsOctaveGradient(grad, np, noise, w, h, x, y, seed, n)
    requires Updated(sum, sum', gmap, gmap', grad, g, persistence, np.absValue)
    ensures SumCell(sum', np, noise, w, x, y, seed, persistence, n + 1, a, b)
  {
    var f, c := Pow(np.lacunarity, n), Idx(w, a, b);
    hide Idx, WalkedOctaves, WalkedOctave, Walked, Scaled, Pow;
    assert SumCell(sum, np, noise, w, x, y, seed, persistence, n, a, b);
    assert GradientCell(grad, noise, w, Scaled(x, np.spreadX, f), Scaled(y, np.spreadY, f), f / np.spreadX,
                        f / np.spreadY, seed + np.seed + n, np.eased, a, b);
    WalkedOctavesNext(np, noise, x, y, seed, WeightBase(np, persistence, c), n, a, b);
  }

  lemma Summed(sum: seq<real>, sum': seq<real>, gmap: seq<real>, gmap': seq<real>, grad: seq<real>, g: real,
               np: NoiseParams, noise: Lattice,
               w: nat, h: nat, x: real, y: real, seed: int, persistence: seq<real>, n: nat)
    requires np.spreadX != 0.0 && np.spreadY != 0.0
    requires IsSum(sum, np, noise, w, h, x, y, seed, persistence, n) && IsWeights(g, gmap, np, persistence, n)
    requires IsOctaveGradient(grad, np, noise, w, h, x, y, seed, n)
    requires Updated(sum, sum', gmap, gmap', grad, g, persistence, np.absValue)
    ensures IsSum(sum', np, noise, w, h, x, y, seed, persistence, n + 1)
    ensures IsWeights(Times(g, np.persist), gmap', np, persistence, n + 1)
  {
    var n' := n + 1;
    forall a, b | 0 <= a < w && 0 <= b < h ensures SumCell(sum', np, noise, w, x, y, seed, persistence, n', a, b) {
      SummedOne(sum, sum', gmap, gmap', grad, g, np, noise, w, h, x, y, seed, persistence, n, a, b);
    }
    hide SumCell, IsOctaveGradient;
  }

  const TOLERANCE: real := 0.00001

  /** The final scaling is applied only outside the tolerance. */
  predicate Scales(np: NoiseParams) {
    Abs(np.offset - 0.0) > TOLERANCE || Abs(np.scale - 1.0) > TOLERANCE
  }

  ghost predicate ScaledCell(r: seq<real>, np: NoiseParams, noise: Lattice, w: nat, x: real, y: real, seed: int,
                             persistence: seq<real>, a: int, b: int)
    requires np.spreadX != 0.0 && np.spreadY != 0.0
  {
    var c := Idx(w, a, b);
    && 0 <= a && 0 <= b && 0 <= c < |r|
    && r[c] == np.offset + WalkedOctaves(np, noise, x, y, seed, WeightBase(np, persistence, c), np.octaves, a,
                                         b) * np.scale
  }

  ghost predicate IsScaled(r: seq<real>, np: NoiseParams, noise: Lattice, w: nat, h: nat, x: real, y: real, seed: int,
                           persistence: seq<real>)
    requires np.spreadX != 0.0 && np.spreadY != 0.0
  {
    |r| == w * h && forall a, b :: 0 <= a < w && 0 <= b < h ==>
        ScaledCell(r, np, noise, w, x, y, seed, persistence, a, b)
  }

  lemma ScaledAll(sum: seq<real>, r: seq<real>, np: NoiseParams, noise: Lattice, w: nat, h: nat, x: real, y: real,
                  seed: int, persistence: seq<real>)
    requires np.spreadX != 0.0 && np.spreadY != 0.0
    requires IsSum(sum, np, noise, w, h, x, y, seed, persistence, np.octaves) && |r| == |sum|
    requires forall c :: 0 <= c < |r| ==> r[c] == sum[c] * np.scale + np.offset
    ensures IsScaled(r, np, noise, w, h, x, y, seed, persistence)
  {
    hide WalkedOctaves, WeightBase, Idx;
    forall a, b | 0 <= a < w && 0 <= b < h ensures ScaledCell(r, np, noise, w, x, y, seed, persistence, a, b) {
      assert SumCell(sum, np, noise, w, x, y, seed, persistence, np.octaves, a, b);
    }
  }

  lemma SumStarts(sum: seq<real>, gmap: seq<real>, np: NoiseParams, noise: Lattice, w: nat, h: nat, x: real, y: real,
                  seed: int, persistence: seq<real>)
    requires np.spreadX != 0.0 && np.spreadY != 0.0 && |sum| == w * h
    requires forall c :: 0 <= c < |sum| ==> sum[c] == 0.0
    requires persistence != [] ==> |gmap| == |persistence| && forall c :: 0 <= c < |gmap| ==> gmap[c] == 1.0
    ensures IsSum(sum, np, noise, w, h, x, y, seed, persistence, 0)
    ensures IsWeights(1.0, gmap, np, persistence, 0)
    ensures Pow(np.lacunarity, 0) == 1.0
  {
    forall a, b | 0 <= a < w && 0 <= b < h ensures SumCell(sum, np, noise, w, x, y, seed, persistence, 0, a, b) {
      IdxInRange(w, h, a, b);
    }
  }

  lemma PowNext(b: real, n: nat)
    ensures Pow(b, n + 1) == Times(Pow(b, n), b)
  {
  }

  /** A cell of the finished map. */
  ghost predicate EqualsDirect(r: seq<real>, np: NoiseParams, noise: Lattice, w: nat, x: real, y: real, seed: int,
                               a: int, b: int)
    requires np.spreadX != 0.0 && np.spreadY != 0.0
  {
    0 <= Idx(w, a, b) < |r| && r[Idx(w, a, b)] == PerlinAt(np, noise, x + a as real, y + b as real, seed)
  }

  /** What a finished map holds at a point, without a persistence map. */
  function MapValue(np: NoiseParams, noise: Lattice, x: real, y: real, seed: int): real
    requires np.spreadX != 0.0 && np.spreadY != 0.0
  {
    var sum := Octaves(np, noise, x, y, seed, np.persist, np.octaves);
    if Scales(np) then sum * np.scale + np.offset else sum
  }

  lemma MapHolds(r: seq<real>, np: NoiseParams, noise: Lattice, w: nat, h: nat, x: real, y: real, seed: int, a: int,
                 b: int)
    requires np.spreadX != 0.0 && np.spreadY != 0.0 && 0 <= a < w && 0 <= b < h
    requires forall k: nat :: k < np.octaves ==> OctaveFollows(np, k, w, h)
    requires if Scales(np) then IsScaled(r, np, noise, w, h, x, y, seed, [])
             else IsSum(r, np, noise, w, h, x, y, seed, [], np.octaves)
    ensures 0 <= Idx(w, a, b) < |r| && r[Idx(w, a, b)] == MapValue(np, noise, x + a as real, y + b as real, seed)
    ensures EqualsDirect(r, np, noise, w, x, y, seed, a, b)
       <==> MapValue(np, noise, x + a as real, y + b as real, seed) == PerlinAt(np, noise, x + a as real, y + b as real,
                                                                                seed)
  {
    OctavesFollow(np, noise, x, y, seed, np.persist, np.octaves, w, h, a, b);
    hide Octaves, WalkedOctaves, OctaveFollows, Idx;
    if Scales(np) {
      assert ScaledCell(r, np, noise, w, x, y, seed, [], a, b);
    } else {
      assert SumCell(r, np, noise, w, x, y, seed, [], np.octaves, a, b);
    }
  }

  /** Lattice noise that is one for a single seed, and zero for all others. */
  function Pulse(seed: int): Lattice {
    (x, y, s) => if s == seed then 1.0 else 0.0
  }

  lemma GradientOfFlat(noise: Lattice, v: real, x: real, y: real, seed: int, eased: bool)
    requires forall i, j :: noise(i, j, seed) == v
    ensures Gradient(noise, x, y, seed, eased) == v
  {
    hide EaseCurve;
    assert forall t :: Lerp(v, v, t) == v;
  }

  lemma OctaveOfPulse(np: NoiseParams, s: int, x: real, y: real, seed: int, k: nat)
    requires np.spreadX != 0.0 && np.spreadY != 0.0
    ensures Octave(np, Pulse(s), x, y, seed, k) == if seed + np.seed + k == s then 1.0 else 0.0
  {
    var f := Pow(np.lacunarity, k);
    GradientOfFlat(Pulse(s), if seed + np.seed + k == s then 1.0 else 0.0,
                   Scaled(x, np.spreadX, f), Scaled(y, np.spreadY, f), seed + np.seed + k, np.eased);
    hide Gradient, Pow;
  }

  /** A pulse at the seed of the first octave sums to one, and a pulse before it to zero. */
  lemma {:induction false} OctavesOfPulse(np: NoiseParams, s: int, x: real, y: real, seed: int, p: real, n: nat)
    requires np.spreadX != 0.0 && np.spreadY != 0.0 && s <= seed + np.seed
    ensures Octaves(np, Pulse(s), x, y, seed, p, n) == if s == seed + np.seed && n > 0 then 1.0 else 0.0
  {
    if n > 0 {
      OctavesOfPulse(np, s, x, y, seed, p, n - 1);
      OctaveOfPulse(np, s, x, y, seed, n - 1);
    }
  }

  /** A map agrees with NoisePerlin2D for all noises exactly when its offset or its scale is outside the tolerance,
      so that it is scaled, or when scaling changes nothing. */
  lemma MapEqualsDirect(np: NoiseParams, x: real, y: real, seed: int)
    requires np.spreadX != 0.0 && np.spreadY != 0.0
    ensures (forall noise: Lattice :: MapValue(np, noise, x, y, seed) == PerlinAt(np, noise, x, y, seed))
       <==> || np.offset < -0.00001 || 0.00001 < np.offset || np.scale < 0.99999 || 1.00001 < np.scale
            || (np.offset == 0.0 && (np.scale == 1.0 || np.octaves == 0))
  {
    var first := seed + np.seed;
    OctavesOfPulse(np, first, x, y, seed, np.persist, np.octaves);
    OctavesOfPulse(np, first - 1, x, y, seed, np.persist, np.octaves);
    if forall noise: Lattice :: MapValue(np, noise, x, y, seed) == PerlinAt(np, noise, x, y, seed) {
      assert MapValue(np, Pulse(first), x, y, seed) == PerlinAt(np, Pulse(first), x, y, seed);
      assert MapValue(np, Pulse(first - 1), x, y, seed) == PerlinAt(np, Pulse(first - 1), x, y, seed);
    }
    if np.octaves == 0 {
      forall noise: Lattice ensures Octaves(np, noise, x, y, seed, np.persist, 0) == 0.0 {
        OctavesStart(np, noise, x, y, seed, np.persist);
      }
    }
    hide Octaves, Pulse;
  }

  /** An offset inside the tolerance is lost at every point, whatever the noise. */
  lemma SmallOffsetIsLost(np: NoiseParams, noise: Lattice, x: real, y: real, seed: int)
    requires np.spreadX != 0.0 && np.spreadY != 0.0 && np.offset == 0.000001 && np.scale == 1.0
    ensures MapValue(np, noise, x, y, seed) == PerlinAt(np, noise, x, y, seed) - 0.000001
  {
    hide Octaves;
  }

  // ---------------------------------------------------------------- steps longer than a cell

  /** Beyond the cell the ease curve keeps rising. */
  lemma EaseBeyond(u: real)
    requires u > 1.0
    ensures EaseCurve(u) > 1.0
  {
    var d := u - 1.0;
    var cube := d * d * d;
    var rest := 6.0 * u * u + 3.0 * u + 1.0;
    CubeTimes(u, d, cube, rest);
    assert d * d > 0.0;
    assert cube > 0.0;
    assert u * u > 1.0;
    assert cube * rest > 0.0;
  }

  lemma CubeTimes(u: real, d: real, cube: real, rest: real)
    requires d == u - 1.0 && cube == d * d * d && rest == 6.0 * u * u + 3.0 * u + 1.0
    ensures EaseCurve(u) == 1.0 + cube * rest
  {
    var u2 := u * u;
    var u3 := u2 * u;
    assert d * d == u2 - 2.0 * u + 1.0;
    assert cube == u3 - 3.0 * u2 + 3.0 * u - 1.0;
    assert cube * rest == 6.0 * (u3 * u2) - 15.0 * (u2 * u2) + 10.0 * u3 - 1.0;
    assert u * u * u * (u * (6.0 * u - 15.0) + 10.0) == 6.0 * (u3 * u2) - 15.0 * (u2 * u2) + 10.0 * u3;
  }

  /** Lattice noise that is one on the line `c` of one axis, and zero elsewhere. */
  function Line(c: int, alongY: bool): Lattice {
    (x, y, s) => if (if alongY then x else y) == c then 1.0 else 0.0
  }

  /** A fraction from which a step of more than a cell leaves the next cell behind. */
  function Late(step: real): real {
    if step >= 2.0 then 0.5 else (3.0 - step) / 2.0
  }

  lemma LateLeaves(step: real)
    requires step > 1.0
    ensures var u0 := Late(step);
      0.0 <= u0 < 1.0 && u0.Floor == 0 && WalkAt(u0, step, 1) == (u0 + step - 1.0, 1) && u0 + step - 1.0 > 1.0
      && Pos(u0, step, 1) == u0 + step && Pos(u0, step, 1).Floor >= 2
  {
    assert WalkAt(Late(step), step, 0) == (Late(step), 0);
  }

  lemma EaseWithin(u: real, eased: bool)
    requires u > 1.0
    ensures (if eased then EaseCurve(u) else u) > 1.0
  {
    EaseBeyond(u);
  }

  /** The walk stays one cell behind and extrapolates. */
  lemma LongStepDiffers(step: real, other: real, seed: int, eased: bool, alongY: bool)
    requires step > 1.0
    ensures alongY ==>
      Walked(Line(1, true), Late(step), 0.0, step, other, seed, eased, 1, 0)
      != Gradient(Line(1, true), Pos(Late(step), step, 1), Pos(0.0, other, 0), seed, eased)
    ensures !alongY ==>
      Walked(Line(1, false), 0.0, Late(step), other, step, seed, eased, 0, 1)
      != Gradient(Line(1, false), Pos(0.0, other, 0), Pos(Late(step), step, 1), seed, eased)
  {
    LateLeaves(step);
    EaseWithin(Late(step) + step - 1.0, eased);
    assert WalkAt(0.0, other, 0) == (0.0, 0) && (0.0 as real).Floor == 0 && Pos(0.0, other, 0) == 0.0;
    hide WalkAt, EaseCurve, Late, Pos;
  }

  /** At every offset and for all noises the walk is the direct formula, exactly when no step is longer than a
      cell, along each axis that has steps at all. */
  lemma WalkedIsDirectIff(stepX: real, stepY: real, seed: int, eased: bool, w: nat, h: nat)
    requires stepX >= 0.0 && stepY >= 0.0 && w > 0 && h > 0
    ensures (forall noise: Lattice, x, y, i: nat, j: nat :: i < w && j < h ==>
              Walked(noise, x, y, stepX, stepY, seed, eased, i, j)
              == Gradient(noise, Pos(x, stepX, i), Pos(y, stepY, j), seed, eased))
       <==> Follows(stepX, w) && Follows(stepY, h)
  {
    hide Walked, Gradient, Pos, Late, Line;
    if Follows(stepX, w) && Follows(stepY, h) {
      forall noise: Lattice, x, y, i: nat, j: nat | i < w && j < h
        ensures Walked(noise, x, y, stepX, stepY, seed, eased, i, j)
             == Gradient(noise, Pos(x, stepX, i), Pos(y, stepY, j), seed, eased)
      {
        WalkedIsDirect(noise, x, y, stepX, stepY, seed, eased, i, j, w, h);
      }
    } else if !Follows(stepX, w) {
      LongStepDiffers(stepX, stepY, seed, eased, true);
    } else {
      LongStepDiffers(stepY, stepX, seed, eased, false);
    }
  }

  /** Where the walk along a row is: fraction, cell, and the values at the four corners of the cell. */
  datatype Cursor = Cursor(u: real, cell: int, v00: real, v10: real, v01: real, v11: real)

  ghost predicate AtCorners(noise: Lattice, x0: int, y0: int, seed: int, noisey: int, c: Cursor) {
    && c.v00 == noise(x0 + c.cell, y0 + noisey, seed) && c.v10 == noise(x0 + c.cell + 1, y0 + noisey, seed)
    && c.v01 == noise(x0 + c.cell, y0 + noisey + 1, seed) && c.v11 == noise(x0 + c.cell + 1, y0 + noisey + 1, seed)
  }

  /** All that stays fixed while walking along row `j`. */
  datatype Window = Window(buf: seq<real>, noise: Lattice, nlx: nat, nly: nat, x: real, y: real, stepX: real,
                           stepY: real,
                           seed: int, eased: bool, w: nat, h: nat, j: int, v: real, noisey: int)
  {
    ghost predicate Ok() {
      && IsLattice(buf, noise, nlx, nly, x.Floor, y.Floor, seed)
      && nlx == LatticeSize(x - x.Floor as real, stepX, w) && nly == LatticeSize(y - y.Floor as real, stepY, h)
      && Walk(y - y.Floor as real, stepY, j, v, noisey)
      && 0 <= j <= h && stepX >= 0.0 && stepY >= 0.0
    }
  }

  lemma RowCells(win: Window, i: int, u: real, cell: int)
    requires IsLattice(win.buf, win.noise, win.nlx, win.nly, win.x.Floor, win.y.Floor, win.seed)
    requires win.nlx == LatticeSize(win.x - win.x.Floor as real, win.stepX, win.w)
    requires win.nly == LatticeSize(win.y - win.y.Floor as real, win.stepY, win.h)
    requires Walk(win.y - win.y.Floor as real, win.stepY, win.j, win.v, win.noisey)
    requires 0 <= win.j <= win.h && win.stepX >= 0.0 && win.stepY >= 0.0
    requires Walk(win.x - win.x.Floor as real, win.stepX, i, u, cell) && 0 <= i <= win.w
    ensures win.Ok()
    ensures forall a, b :: cell <= a <= cell + 1 && win.noisey <= b <= win.noisey + 1 ==>
              LatticeCell(win.buf, win.noise, win.nlx, win.x.Floor, win.y.Floor, win.seed, a, b)
  {
    WalkInside(win.x - win.x.Floor as real, win.stepX, i, win.w, u, cell);
    WalkInside(win.y - win.y.Floor as real, win.stepY, win.j, win.h, win.v, win.noisey);
    hide LatticeCell, Walk, LatticeSize, Pos;
  }

  lemma CursorValue(win: Window, i: int, c: Cursor)
    requires win.Ok() && 0 <= i <= win.w && Walk(win.x - win.x.Floor as real, win.stepX, i, c.u, c.cell)
    requires AtCorners(win.noise, win.x.Floor, win.y.Floor, win.seed, win.noisey, c)
    ensures BiLerp(c.v00, c.v10, c.v01, c.v11, c.u, win.v, win.eased)
         == Walked(win.noise, win.x, win.y, win.stepX, win.stepY, win.seed, win.eased, i, win.j)
  {
    hide BiLerp, Walked, Walk, LatticeSize, IsLattice;
    CellValue(win.buf, win.noise, win.nlx, win.nly, win.x, win.y, win.stepX, win.stepY, win.seed, win.eased,
              i, win.j, win.w, win.h, c.u, win.v, c.cell, win.noisey);
  }

  lemma CursorStep(win: Window, i: int, c: Cursor)
    requires win.Ok() && 0 <= i < win.w && Walk(win.x - win.x.Floor as real, win.stepX, i, c.u, c.cell)
    ensures if c.u + win.stepX >= 1.0 then
              && Walk(win.x - win.x.Floor as real, win.stepX, i + 1, c.u + win.stepX - 1.0, c.cell + 1)
              && LatticeCell(win.buf, win.noise, win.nlx, win.x.Floor, win.y.Floor, win.seed, c.cell + 2, win.noisey)
              && LatticeCell(win.buf, win.noise, win.nlx, win.x.Floor, win.y.Floor, win.seed, c.cell + 2,
                             win.noisey + 1)
            else Walk(win.x - win.x.Floor as real, win.stepX, i + 1, c.u + win.stepX, c.cell)
  {
    WalkStep(win.x - win.x.Floor as real, win.stepX, i, c.u, c.cell);
    hide Walk, LatticeSize, Pos, LatticeCell, IsLattice;
    if c.u + win.stepX >= 1.0 {
      RowCells(win, i + 1, c.u + win.stepX - 1.0, c.cell + 1);
    }
  }

  class NoiseMap {
    var np: NoiseParams
    var seed: int
    var sx: nat
    var sy: nat
    var noiseBuf: array<real>
    var gradientBuf: array<real>
    var persistBuf: array<real>
    var result: array<real>

    ghost predicate Valid()
      reads this
    {
      && noiseBuf != gradientBuf && noiseBuf != result && gradientBuf != result
      && persistBuf != noiseBuf && persistBuf != gradientBuf && persistBuf != result
      && gradientBuf.Length == result.Length == persistBuf.Length == sx * sy
      && np.spreadX != 0.0 && np.spreadY != 0.0
    }

    ghost function LatticeWidth(x: real, stepX: real): int
      reads this
    {
      LatticeSize(x - x.Floor as real, stepX, sx)
    }

    ghost function LatticeHeight(y: real, stepY: real): int
      reads this
    {
      LatticeSize(y - y.Floor as real, stepY, sy)
    }

    /** The allocated buffer holds the lattice of one octave. */
    ghost predicate LatticeFits(x: real, y: real, stepX: real, stepY: real)
      reads this
    {
      LatticeWidth(x, stepX) >= 0 && LatticeHeight(y, stepY) >= 0
          && noiseBuf.Length >= LatticeWidth(x, stepX) * LatticeHeight(y, stepY)
    }

    method ReadLattice(noise: Lattice, nlx: nat, x0: int, y0: int, seed: int, i: int, j: int) returns (r: real)
      requires LatticeCell(noiseBuf[..], noise, nlx, x0, y0, seed, i, j)
      ensures r == noise(x0 + i, y0 + j, seed)
    {
      r := noiseBuf[Idx(nlx, i, j)];
    }

    /** The four corners of the first cell of a row. */
    method StartRow(noise: Lattice, nlx: nat, x0: int, y0: int, seed: int, u: real, noisey: int) returns (c: Cursor)
      requires forall i, j :: 0 <= i <= 1 && noisey <= j <= noisey + 1 ==>
               LatticeCell(noiseBuf[..], noise, nlx, x0, y0, seed, i, j)
      ensures c.u == u && c.cell == 0 && AtCorners(noise, x0, y0, seed, noisey, c)
    {
      hide LatticeCell;
      var v00 := ReadLattice(noise, nlx, x0, y0, seed, 0, noisey);
      var v10 := ReadLattice(noise, nlx, x0, y0, seed, 1, noisey);
      var v01 := ReadLattice(noise, nlx, x0, y0, seed, 0, noisey + 1);
      var v11 := ReadLattice(noise, nlx, x0, y0, seed, 1, noisey + 1);
      c := Cursor(u, 0, v00, v10, v01, v11);
    }

    /** One step to the right; a new column of corners is read when the cell changes. */
    method Advance(noise: Lattice, nlx: nat, x0: int, y0: int, seed: int, stepX: real, noisey: int, c: Cursor)
      returns (c': Cursor)
      requires AtCorners(noise, x0, y0, seed, noisey, c)
      requires c.u + stepX >= 1.0 ==>
                 && LatticeCell(noiseBuf[..], noise, nlx, x0, y0, seed, c.cell + 2, noisey)
                 && LatticeCell(noiseBuf[..], noise, nlx, x0, y0, seed, c.cell + 2, noisey + 1)
      ensures AtCorners(noise, x0, y0, seed, noisey, c')
      ensures (c'.u, c'.cell) == if c.u + stepX >= 1.0 then (c.u + stepX - 1.0, c.cell + 1) else (c.u + stepX, c.cell)
    {
      hide LatticeCell;
      c' := c.(u := c.u + stepX);
      if c'.u >= 1.0 {
        var noisex := c.cell + 1;
        var v10 := ReadLattice(noise, nlx, x0, y0, seed, noisex + 1, noisey);
        var v11 := ReadLattice(noise, nlx, x0, y0, seed, noisex + 1, noisey + 1);
        c' := Cursor(c'.u - 1.0, noisex, c.v10, v10, c.v11, v11);
      }
    }

    lemma RowSetting(x: real, y: real, stepX: real, stepY: real)
      requires Valid()
      ensures noiseBuf != gradientBuf && gradientBuf.Length == sx * sy
      ensures LatticeWidth(x, stepX) == LatticeSize(x - x.Floor as real, stepX, sx)
      ensures LatticeHeight(y, stepY) == LatticeSize(y - y.Floor as real, stepY, sy)
    {
    }

    /** One row of the incremental walk. */
    method GradientRow(noise: Lattice, nlx: nat, nly: nat, x: real, y: real, stepX: real, stepY: real, seed: int,
                       j: nat, v: real, noisey: int)
      requires Valid() && j < sy && stepX >= 0.0 && stepY >= 0.0
      requires nlx == LatticeWidth(x, stepX) && nly == LatticeHeight(y, stepY)
      requires IsLattice(noiseBuf[..], noise, nlx, nly, x.Floor, y.Floor, seed)
      requires Walk(y - y.Floor as real, stepY, j, v, noisey)
      requires GradientUpTo(gradientBuf[..], noise, sx, x, y, stepX, stepY, seed, np.eased, 0, j)
      modifies gradientBuf
      ensures GradientUpTo(gradientBuf[..], noise, sx, x, y, stepX, stepY, seed, np.eased, sx, j)
    {
      hide *;
      var w, h, eased := sx, sy, np.eased;
      ghost var buf := noiseBuf[..];
      var x0, y0 := x.Floor, y.Floor;
      var origU := x - x0 as real;
      WalkStarts(origU, stepX, x);
      RowSetting(x, y, stepX, stepY);
      ghost var win := Window(buf, noise, nlx, nly, x, y, stepX, stepY, seed, eased, w, h, j, v, noisey);
      RowCells(win, 0, origU, 0);
      var index := Idx(w, 0, j);
      var c := StartRow(noise, nlx, x0, y0, seed, origU, noisey);
      for i := 0 to w
        invariant Walk(origU, stepX, i, c.u, c.cell) && AtCorners(noise, x0, y0, seed, noisey, c)
        invariant index == Idx(w, i, j) && noiseBuf[..] == buf
        invariant GradientUpTo(gradientBuf[..], noise, w, x, y, stepX, stepY, seed, eased, i, j)
      {
        ghost var grad := gradientBuf[..];
        GradientOneMore(grad, noise, w, h, x, y, stepX, stepY, seed, eased, i, j);
        CursorValue(win, i, c);
        gradientBuf[index] := BiLerp(c.v00, c.v10, c.v01, c.v11, c.u, v, eased);
        assert gradientBuf[..] == grad[Idx(w, i, j) := Walked(noise, x, y, stepX, stepY, seed, eased, i, j)];
        index := index + 1;
        CursorStep(win, i, c);
        c := Advance(noise, nlx, x0, y0, seed, stepX, noisey, c);
      }
    }

    /** Noise::gradientMap2D: the lattice is filled and walked row by row. */
    method GradientMap2D(noise: Lattice, x: real, y: real, stepX: real, stepY: real, seed: int)
      requires Valid() && stepX >= 0.0 && stepY >= 0.0
      requires LatticeFits(x, y, stepX, stepY)
      modifies noiseBuf, gradientBuf
      ensures IsGradient(gradientBuf[..], noise, sx, sy, x, y, stepX, stepY, seed, np.eased)
    {
      var x0, y0 := x.Floor, y.Floor;
      var u, v := x - x0 as real, y - y0 as real;
      var nlx := (u + sx as real * stepX).Floor + 2;
      var nly := (v + sy as real * stepY).Floor + 2;
      assert nlx == LatticeWidth(x, stepX) && nly == LatticeHeight(y, stepY);
      FillLattice(noiseBuf, noise, nlx, nly, x0, y0, seed);
      ghost var buf := noiseBuf[..];
      WalkStarts(v, stepY, y);
      var noisey := 0;
      assert gradientBuf != noiseBuf && gradientBuf.Length == sx * sy;
      GradientRowDone(gradientBuf[..], noise, sx, x, y, stepX, stepY, seed, np.eased, -1);
      hide Walk, IsLattice, GradientUpTo, IsGradient, LatticeSize;
      for j := 0 to sy
        invariant noiseBuf[..] == buf
        invariant Walk(y - y0 as real, stepY, j, v, noisey)
        invariant GradientUpTo(gradientBuf[..], noise, sx, x, y, stepX, stepY, seed, np.eased, 0, j)
      {
        GradientRow(noise, nlx, nly, x, y, stepX, stepY, seed, j, v, noisey);
        GradientRowDone(gradientBuf[..], noise, sx, x, y, stepX, stepY, seed, np.eased, j);
        WalkStep(y - y0 as real, stepY, j, v, noisey);
        v := v + stepY;
        if v >= 1.0 {
          v := v - 1.0;
          noisey := noisey + 1;
        }
      }
      GradientDone(gradientBuf[..], noise, sx, sy, x, y, stepX, stepY, seed, np.eased);
    }

    /** Noise::updateResults: adds one octave with weight `g`, or with weights `persistBuf`, which are
        then multiplied by the persistence map. */
    method UpdateResults(g: real, persistence: array?<real>)
      requires Valid() && sx * sy > 0 && MapOk(persistence)
      modifies result, persistBuf
      ensures Updated(old(result[..]), result[..], old(persistBuf[..]), persistBuf[..], gradientBuf[..], g,
                      MapOf(persistence), np.absValue)
    {
      if persistence != null {
        UpdateWithMap(persistence);
        assert persistence.Length > 0;
        AnyWeight(old(result[..]), result[..], old(persistBuf[..]), persistBuf[..], gradientBuf[..], g, persistence[..],
                  np.absValue);
      } else {
        UpdateUniformly(g);
      }
    }

    method UpdateUniformly(g: real)
      requires Valid()
      modifies result
      ensures Updated(old(result[..]), result[..], persistBuf[..], persistBuf[..], gradientBuf[..], g, [], np.absValue)
    {
      hide Weighed;
      for i := 0 to result.Length
        invariant forall c :: i <= c < result.Length ==> result[c] == old(result[c])
        invariant forall c :: 0 <= c < i ==> result[c] == old(result[c]) + Weighed(g, gradientBuf[c], np.absValue)
      {
        result[i] := result[i] + Weighed(g, gradientBuf[i], np.absValue);
      }
    }

    method UpdateWithMap(persistence: array<real>)
      requires Valid() && sx * sy > 0 && MapOk(persistence)
      modifies result, persistBuf
      ensures Updated(old(result[..]), result[..], old(persistBuf[..]), persistBuf[..], gradientBuf[..], 0.0,
                      persistence[..], np.absValue)
    {
      assert persistence.Length > 0;
      hide Weighed, Times;
      for i := 0 to result.Length
        invariant forall c :: i <= c < result.Length ==>
                    result[c] == old(result[c]) && persistBuf[c] == old(persistBuf[c])
        invariant forall c :: 0 <= c < i ==>
                    result[c] == old(result[c]) + Weighed(old(persistBuf[c]), gradientBuf[c], np.absValue)
        invariant forall c :: 0 <= c < i ==> persistBuf[c] == Times(old(persistBuf[c]), persistence[c])
      {
        result[i] := result[i] + Weighed(persistBuf[i], gradientBuf[i], np.absValue);
        persistBuf[i] := Times(persistBuf[i], persistence[i]);
      }
      UpdatedWithMap(old(result[..]), result[..], old(persistBuf[..]), persistBuf[..], gradientBuf[..], persistence[..],
                     np.absValue);
    }

    /** A persistence map of the right size, apart from the buffers. */
    ghost predicate MapOk(persistence: array?<real>)
      reads this
    {
      persistence != null ==>
        && persistence.Length == sx * sy && persistence != result && persistence != persistBuf
        && persistence != noiseBuf && persistence != gradientBuf
    }

    ghost function MapOf(persistence: array?<real>): seq<real>
      reads persistence
    {
      if persistence == null then [] else persistence[..]
    }

    method ResetResult(persistence: array?<real>)
      requires Valid()
      modifies result, persistBuf
      ensures forall c :: 0 <= c < result.Length ==> result[c] == 0.0
      ensures persistence != null ==> forall c :: 0 <= c < persistBuf.Length ==> persistBuf[c] == 1.0
    {
      for i := 0 to result.Length
        invariant forall c :: 0 <= c < i ==> result[c] == 0.0
      {
        result[i] := 0.0;
      }
      if persistence != null {
        for i := 0 to persistBuf.Length
          invariant forall c :: 0 <= c < i ==> persistBuf[c] == 1.0
          invariant forall c :: 0 <= c < result.Length ==> result[c] == 0.0
        {
          persistBuf[i] := 1.0;
        }
      }
    }

    method ScaleResult()
      requires Valid()
      modifies result
      ensures forall c :: 0 <= c < result.Length ==> result[c] == old(result[c]) * np.scale + np.offset
    {
      for i := 0 to result.Length
        invariant forall c :: i <= c < result.Length ==> result[c] == old(result[c])
        invariant forall c :: 0 <= c < i ==> result[c] == old(result[c]) * np.scale + np.offset
      {
        result[i] := result[i] * np.scale + np.offset;
      }
    }

    /** Noise::perlinMap2D: every grid point gets what the direct formula gives there.  The final
        scaling is skipped when it is within a tolerance of doing nothing. */
    method PerlinMap2D(noise: Lattice, x: real, y: real, persistence: array?<real>)
      requires Valid() && sx * sy > 0 && MapOk(persistence)
      requires forall k :: 0 <= k < np.octaves ==> OctaveOk(x, y, k)
      modifies noiseBuf, gradientBuf, persistBuf, result
      ensures if Scales(np) then IsScaled(result[..], np, noise, sx, sy, x, y, seed, MapOf(persistence))
              else IsSum(result[..], np, noise, sx, sy, x, y, seed, MapOf(persistence), np.octaves)
    {
      var f, g := 1.0, 1.0;
      ghost var base, w, h := MapOf(persistence), sx, sy;
      ResetResult(persistence);
      SumStarts(result[..], persistBuf[..], np, noise, w, h, x, y, seed, base);
      hide *;
      for oct := 0 to np.octaves
        invariant f == Pow(np.lacunarity, oct)
        invariant MapOf(persistence) == base
        invariant IsSum(result[..], np, noise, w, h, x, y, seed, base, oct)
        invariant IsWeights(g, persistBuf[..], np, base, oct)
      {
        AddOctave(noise, x, y, persistence, oct, f, g);
        PowNext(np.lacunarity, oct);
        f := Times(f, np.lacunarity);
        g := Times(g, np.persist);
      }
      if Scales(np) {
        ghost var sum := result[..];
        ScaleResult();
        ScaledAll(sum, result[..], np, noise, w, h, x, y, seed, base);
      }
    }

    /** One round of the octave loop. */
    method AddOctave(noise: Lattice, x: real, y: real, persistence: array?<real>, oct: nat, f: real, g: real)
      requires Valid() && sx * sy > 0 && MapOk(persistence)
      requires OctaveOk(x, y, oct) && f == Pow(np.lacunarity, oct)
      requires IsSum(result[..], np, noise, sx, sy, x, y, seed, MapOf(persistence), oct)
      requires IsWeights(g, persistBuf[..], np, MapOf(persistence), oct)
      modifies noiseBuf, gradientBuf, persistBuf, result
      ensures MapOf(persistence) == old(MapOf(persistence))
      ensures IsSum(result[..], np, noise, sx, sy, x, y, seed, MapOf(persistence), oct + 1)
      ensures IsWeights(Times(g, np.persist), persistBuf[..], np, MapOf(persistence), oct + 1)
    {
      ghost var sum, gmap, base, params, w, h := result[..], persistBuf[..], MapOf(persistence), np, sx, sy;
      assert persistence != null ==>
          persistence != noiseBuf && persistence != gradientBuf && persistence != result && persistence != persistBuf;
      assert noiseBuf != result && gradientBuf != result && noiseBuf != persistBuf && gradientBuf != persistBuf;
      assert np.spreadX != 0.0 && np.spreadY != 0.0;
      hide *;
      OctaveGradient(noise, x, y, oct, f);
      assert result[..] == sum && persistBuf[..] == gmap && MapOf(persistence) == base;
      UpdateResults(g, persistence);
      Summed(sum, result[..], gmap, persistBuf[..], gradientBuf[..], g, params, noise, w, h, x, y, seed, base, oct);
    }

    /** The gradients of one octave, on the scaled grid. */
    method OctaveGradient(noise: Lattice, x: real, y: real, oct: nat, f: real)
      requires Valid() && OctaveOk(x, y, oct) && f == Pow(np.lacunarity, oct)
      modifies noiseBuf, gradientBuf
      ensures IsOctaveGradient(gradientBuf[..], np, noise, sx, sy, x, y, seed, oct)
    {
      hide Scaled, Pow, IsGradient, LatticeFits;
      GradientMap2D(noise, Scaled(x, np.spreadX, f), Scaled(y, np.spreadY, f), f / np.spreadX, f / np.spreadY,
                    seed + np.seed + oct);
    }

    /** The lattice of octave `k` fits the buffer. */
    ghost predicate OctaveFits(x: real, y: real, k: nat)
      requires np.spreadX != 0.0 && np.spreadY != 0.0
      reads this
    {
      var f := Pow(np.lacunarity, k);
      LatticeFits(Scaled(x, np.spreadX, f), Scaled(y, np.spreadY, f), f / np.spreadX, f / np.spreadY)
    }

    /** Octave `k` steps forwards, and its lattice fits the buffer. */
    ghost predicate OctaveOk(x: real, y: real, k: nat)
      requires np.spreadX != 0.0 && np.spreadY != 0.0
      reads this
    {
      var f := Pow(np.lacunarity, k);
      0.0 <= f / np.spreadX && 0.0 <= f / np.spreadY && OctaveFits(x, y, k)
    }
  }

  lemma WalkStarts(u0: real, step: real, x: real)
    requires u0 == x - x.Floor as real
    ensures Walk(u0, step, 0, u0, 0)
  {
  }
}
