/**
 The check of a shaped recipe (src/craftdef.cpp, craftGetBounds and CraftDefinitionShaped::check):
 both grids are cropped to their non-empty cells and compared cell by cell.
 */
module Shaped {
  import opened ItemNames
  import opened Pairing

  /** The name in column `x`, row `y` of a grid of width `w` listed row by row; "" off the grid. */
  function At(names: seq<string>, w: nat, x: int, y: int): string {
    if OnGrid(names, w, x, y) then Cell(names, w, x, y) else ""
  }

  predicate OnGrid(names: seq<string>, w: nat, x: int, y: int) {
    0 <= x < w && 0 <= y && 0 <= y * w + x < |names|
  }

  function Cell(names: seq<string>, w: nat, x: int, y: int): string
    requires OnGrid(names, w, x, y)
  {
    names[y * w + x]
  }

  lemma TimesAtLeast(d: int, w: nat)
    requires d >= 1
    ensures d * w >= w
  {
    if d > 1 {
      TimesAtLeast(d - 1, w);
      assert d * w == (d - 1) * w + w;
    }
  }

  lemma SameCell(w: nat, x: int, y: int, x': int, y': int)
    requires 0 <= x < w && 0 <= x' < w && y * w + x == y' * w + x'
    ensures x == x' && y == y'
  {
    assert (y' - y) * w == y' * w - y * w && (y - y') * w == y * w - y' * w;
    if y < y' {
      TimesAtLeast(y' - y, w);
    } else if y' < y {
      TimesAtLeast(y - y', w);
    }
  }

  datatype Bounds = Bounds(minX: int, maxX: int, minY: int, maxY: int) {
    predicate Has(x: int, y: int) {
      minX <= x <= maxX && minY <= y <= maxY
    }

    function Grown(x: int, y: int): Bounds {
      Bounds(if x < minX then x else minX, if x > maxX then x else maxX,
             if y < minY then y else minY, if y > maxY then y else maxY)
    }
  }

  ghost predicate Touches(names: seq<string>, w: nat, b: Bounds) {
    && (exists y :: At(names, w, b.minX, y) != "")
    && (exists y :: At(names, w, b.maxX, y) != "")
    && (exists x :: At(names, w, x, b.minY) != "")
    && (exists x :: At(names, w, x, b.maxY) != "")
  }

  /** The smallest rectangle around the non-empty cells. */
  ghost predicate IsBounds(names: seq<string>, w: nat, b: Bounds) {
    && (forall x, y :: At(names, w, x, y) != "" ==> b.Has(x, y))
    && Touches(names, w, b)
  }

  ghost predicate AllEmpty(names: seq<string>) {
    forall i :: 0 <= i < |names| ==> names[i] == ""
  }

  lemma AtExtended(names: seq<string>, w: nat, n: nat, x: int, y: int, cx: int, cy: int)
    requires n < |names| && 0 <= x < w && 0 <= y && n == y * w + x
    ensures At(names[..n + 1], w, cx, cy) == if cx == x && cy == y then names[n] else At(names[..n], w, cx, cy)
  {
    if 0 <= cx < w && 0 <= cy && cy * w + cx == n {
      SameCell(w, x, y, cx, cy);
    }
  }

  lemma BoundsGrow(names: seq<string>, w: nat, n: nat, x: int, y: int, b: Bounds)
    requires n < |names| && 0 <= x < w && 0 <= y && n == y * w + x
    requires names[n] != ""
    requires AllEmpty(names[..n]) || IsBounds(names[..n], w, b)
    ensures IsBounds(names[..n + 1], w, if AllEmpty(names[..n]) then Bounds(x, x, y, y) else b.Grown(x, y))
  {
    var s, s', b' := names[..n], names[..n + 1], if AllEmpty(names[..n]) then Bounds(x, x, y, y) else b.Grown(x, y);
    forall cx, cy ensures At(s', w, cx, cy) == if cx == x && cy == y then names[n] else At(s, w, cx, cy) {
      AtExtended(names, w, n, x, y, cx, cy);
    }
    assert At(s', w, x, y) != "";
    if !AllEmpty(s) {
      var y0, y1, x0, x1 :| At(s, w, b.minX, y0) != "" && At(s, w, b.maxX, y1) != ""
                            && At(s, w, x0, b.minY) != "" && At(s, w, x1, b.maxY) != "";
      assert At(s', w, b.minX, y0) != "" && At(s', w, b.maxX, y1) != ""
          && At(s', w, x0, b.minY) != "" && At(s', w, x1, b.maxY) != "";
    }
  }

  lemma BoundsKept(names: seq<string>, w: nat, n: nat, x: int, y: int, b: Bounds)
    requires n < |names| && 0 <= x < w && 0 <= y && n == y * w + x
    requires names[n] == "" && IsBounds(names[..n], w, b)
    ensures IsBounds(names[..n + 1], w, b)
  {
    forall cx, cy ensures At(names[..n + 1], w, cx, cy) == At(names[..n], w, cx, cy) {
      AtExtended(names, w, n, x, y, cx, cy);
    }
  }

  /** The bounding rectangle of the non-empty names, if there is any. */
  method GetBounds(names: seq<string>, w: nat) returns (success: bool, b: Bounds)
    requires w > 0
    ensures success <==> !AllEmpty(names)
    ensures success ==> IsBounds(names, w, b)
  {
    success, b := false, Bounds(0, 0, 0, 0);
    var x, y := 0, 0;
    hide IsBounds;
    for i := 0 to |names|
      invariant 0 <= x < w && 0 <= y && i == y * w + x
      invariant success <==> !AllEmpty(names[..i])
      invariant success ==> IsBounds(names[..i], w, b)
    {
      assert AllEmpty(names[..i + 1]) <==> AllEmpty(names[..i]) && names[i] == "" by {
        assert names[..i + 1] == names[..i] + [names[i]];
      }
      if names[i] != "" {
        BoundsGrow(names, w, i, x, y, b);
        if !success {
          b := Bounds(x, x, y, y);
          success := true;
        } else {
          b := b.Grown(x, y);
        }
      } else if success {
        BoundsKept(names, w, i, x, y, b);
      }
      x := x + 1;
      if x == w {
        assert (y + 1) * w == y * w + w;
        x := 0;
        y := y + 1;
      }
    }
    assert names[..|names|] == names;
  }

  // ---------------------------------------------------------------- comparing two grids

  lemma WholeRows(a: nat, w: nat)
    requires w > 0
    ensures (a * w) % w == 0
  {
    var r, q := (a * w) % w, (a * w) / w;
    assert a * w == q * w + r;
    SameCell(w, 0, a, r, q);
  }

  lemma CompleteRows(n: nat, w: nat)
    requires w > 0
    ensures n < (n / w + 1) * w
    ensures n % w == 0 ==> n == (n / w) * w
  {
    assert n == (n / w) * w + n % w;
    assert (n / w + 1) * w == (n / w) * w + w;
  }

  lemma PaddedSameCells(names: seq<string>, r: seq<string>, w: nat)
    requires |r| >= |names| && r[..|names|] == names && AllEmpty(r[|names|..])
    ensures forall x, y :: At(r, w, x, y) == At(names, w, x, y)
  {
    forall x, y ensures At(r, w, x, y) == At(names, w, x, y) {
      var i := y * w + x;
      if 0 <= x < w && 0 <= y && |names| <= i < |r| {
        assert r[|names|..][i - |names|] == r[i];
      }
    }
  }

  /** Appends empty names until all rows are complete. */
  method Pad(names: seq<string>, w: nat) returns (r: seq<string>)
    requires w > 0
    ensures Rectangular(r, w)
    ensures forall x, y :: At(r, w, x, y) == At(names, w, x, y)
    ensures |r| >= |names| && r[..|names|] == names && AllEmpty(r[|names|..])
  {
    r := names;
    ghost var rows := |names| / w + 1;
    ghost var full := rows * w;
    CompleteRows(|names|, w);
    WholeRows(rows, w);
    while |r| % w != 0
      invariant |names| <= |r| <= full && r[..|names|] == names && AllEmpty(r[|names|..])
      decreases full - |r|
    {
      r := r + [""];
    }
    CompleteRows(|r|, w);
    PaddedSameCells(names, r, w);
  }

  ghost predicate CellMatches(inp: seq<string>, iw: nat, bi: Bounds, rec: seq<string>, rw: nat, br: Bounds, gd: GameDef,
                              x: int, y: int) {
    Matches(At(inp, iw, bi.minX + x, bi.minY + y), At(rec, rw, br.minX + x, br.minY + y), gd)
  }

  ghost predicate Overlay(inp: seq<string>, iw: nat, bi: Bounds, rec: seq<string>, rw: nat, br: Bounds, gd: GameDef) {
    && bi.maxX - bi.minX == br.maxX - br.minX
    && bi.maxY - bi.minY == br.maxY - br.minY
    && forall x, y :: 0 <= x <= bi.maxX - bi.minX && 0 <= y <= bi.maxY - bi.minY ==>
        CellMatches(inp, iw, bi, rec, rw, br, gd, x, y)
  }

  /** The cropped grids have the same size and match cell by cell. */
  ghost predicate SamePattern(inp: seq<string>, iw: nat, rec: seq<string>, rw: nat, gd: GameDef) {
    && iw > 0 && rw > 0
    && exists bi, br :: IsBounds(inp, iw, bi) && IsBounds(rec, rw, br) && Overlay(inp, iw, bi, rec, rw, br, gd)
  }

  lemma BoundsUnique(names: seq<string>, w: nat, b: Bounds, b': Bounds)
    requires IsBounds(names, w, b) && IsBounds(names, w, b')
    ensures b == b'
  {
  }

  lemma BoundsNonEmpty(names: seq<string>, w: nat, b: Bounds)
    requires IsBounds(names, w, b)
    ensures !AllEmpty(names)
  {
  }

  ghost predicate Rectangular(names: seq<string>, w: nat) {
    exists h: nat :: |names| == h * w
  }

  lemma InGrid(names: seq<string>, w: nat, b: Bounds, x: int, y: int)
    requires IsBounds(names, w, b) && Rectangular(names, w) && b.Has(x, y)
    ensures OnGrid(names, w, x, y)
    ensures At(names, w, x, y) == Cell(names, w, x, y)
  {
    var h: nat :| |names| == h * w;
    var x0 :| At(names, w, x0, b.maxY) != "";
    if b.maxY >= h {
      assert b.maxY * w >= h * w by { RowsMonotone(h, b.maxY, w); }
    }
    RowsMonotone(y + 1, h, w);
    assert (y + 1) * w == y * w + w;
    RowsMonotone(0, y, w);
  }

  lemma RowsMonotone(a: nat, b: nat, w: nat)
    requires a <= b
    ensures a * w <= b * w
  {
    assert b * w - a * w == (b - a) * w;
    if a < b {
      TimesAtLeast(b - a, w);
    }
  }

  /** The check of a shaped recipe on two grids of names. */
  method CheckGrids(inpNames: seq<string>, inpWidth: nat, recNames: seq<string>, recWidth: nat, gd: GameDef)
    returns (r: bool)
    ensures r <==> SamePattern(inpNames, inpWidth, recNames, recWidth, gd)
  {
    if inpWidth == 0 {
      return false;
    }
    var inp := Pad(inpNames, inpWidth);
    var someInput, bi := GetBounds(inp, inpWidth);
    if !someInput {
      NoPattern(inpNames, inpWidth, inp);
      return false;
    }
    if recWidth == 0 {
      return false;
    }
    var rec := Pad(recNames, recWidth);
    var someRecipe, br := GetBounds(rec, recWidth);
    if !someRecipe {
      NoPattern(recNames, recWidth, rec);
      return false;
    }
    SameAfterPadding(inpNames, inpWidth, inp, bi, recNames, recWidth, rec, br, gd);
    if bi.maxX - bi.minX != br.maxX - br.minX || bi.maxY - bi.minY != br.maxY - br.minY {
      return false;
    }
    r := CompareCells(inp, inpWidth, bi, rec, recWidth, br, gd);
  }

  ghost predicate RowMatches(inp: seq<string>, iw: nat, bi: Bounds, rec: seq<string>, rw: nat, br: Bounds, gd: GameDef,
                             y: int, w: int) {
    forall x :: 0 <= x < w ==> CellMatches(inp, iw, bi, rec, rw, br, gd, x, y)
  }

  method CompareCells(inp: seq<string>, iw: nat, bi: Bounds, rec: seq<string>, rw: nat, br: Bounds, gd: GameDef)
    returns (r: bool)
    requires iw > 0 && rw > 0 && IsBounds(inp, iw, bi) && IsBounds(rec, rw, br)
    requires Rectangular(inp, iw) && Rectangular(rec, rw)
    requires bi.maxX - bi.minX == br.maxX - br.minX && bi.maxY - bi.minY == br.maxY - br.minY
    ensures r <==> Overlay(inp, iw, bi, rec, rw, br, gd)
  {
    var w, h := bi.maxX - bi.minX + 1, bi.maxY - bi.minY + 1;
    assert w >= 1 && h >= 1;
    hide *;
    RowsMakeOverlay(inp, iw, bi, rec, rw, br, gd, w, h);
    for y := 0 to h
      invariant forall y' :: 0 <= y' < y ==> RowMatches(inp, iw, bi, rec, rw, br, gd, y', w)
    {
      var same := CompareRow(inp, iw, bi, rec, rw, br, gd, y);
      if !same {
        return false;
      }
    }
    return true;
  }

  lemma RowStarts(inp: seq<string>, iw: nat, bi: Bounds, rec: seq<string>, rw: nat, br: Bounds, gd: GameDef, y: int)
    ensures RowMatches(inp, iw, bi, rec, rw, br, gd, y, 0)
  {
  }

  lemma OneMoreCell(inp: seq<string>, iw: nat, bi: Bounds, rec: seq<string>, rw: nat, br: Bounds, gd: GameDef, x: int,
                    y: int)
    requires IsBounds(inp, iw, bi) && IsBounds(rec, rw, br)
    requires Rectangular(inp, iw) && Rectangular(rec, rw)
    requires bi.maxX - bi.minX == br.maxX - br.minX && bi.maxY - bi.minY == br.maxY - br.minY
    requires 0 <= x <= bi.maxX - bi.minX && 0 <= y <= bi.maxY - bi.minY
    requires RowMatches(inp, iw, bi, rec, rw, br, gd, y, x)
    ensures OnGrid(inp, iw, bi.minX + x, bi.minY + y) && OnGrid(rec, rw, br.minX + x, br.minY + y)
    ensures if Matches(Cell(inp, iw, bi.minX + x, bi.minY + y), Cell(rec, rw, br.minX + x, br.minY + y), gd)
            then RowMatches(inp, iw, bi, rec, rw, br, gd, y, x + 1)
            else !RowMatches(inp, iw, bi, rec, rw, br, gd, y, bi.maxX - bi.minX + 1)
  {
    hide *;
    CellsCompared(inp, iw, bi, rec, rw, br, gd, x, y);
    RowGrows(inp, iw, bi, rec, rw, br, gd, x, y);
  }

  lemma CellsCompared(inp: seq<string>, iw: nat, bi: Bounds, rec: seq<string>, rw: nat, br: Bounds, gd: GameDef, x: int,
                      y: int)
    requires IsBounds(inp, iw, bi) && IsBounds(rec, rw, br)
    requires Rectangular(inp, iw) && Rectangular(rec, rw)
    requires bi.maxX - bi.minX == br.maxX - br.minX && bi.maxY - bi.minY == br.maxY - br.minY
    requires 0 <= x <= bi.maxX - bi.minX && 0 <= y <= bi.maxY - bi.minY
    ensures OnGrid(inp, iw, bi.minX + x, bi.minY + y) && OnGrid(rec, rw, br.minX + x, br.minY + y)
    ensures CellMatches(inp, iw, bi, rec, rw, br, gd, x, y)
       <==> Matches(Cell(inp, iw, bi.minX + x, bi.minY + y), Cell(rec, rw, br.minX + x, br.minY + y), gd)
  {
    hide IsBounds, At, Cell, OnGrid, Matches, Rectangular;
    InGrid(inp, iw, bi, bi.minX + x, bi.minY + y);
    InGrid(rec, rw, br, br.minX + x, br.minY + y);
  }

  lemma RowGrows(inp: seq<string>, iw: nat, bi: Bounds, rec: seq<string>, rw: nat, br: Bounds, gd: GameDef, x: int,
                 y: int)
    requires 0 <= x <= bi.maxX - bi.minX && RowMatches(inp, iw, bi, rec, rw, br, gd, y, x)
    ensures if CellMatches(inp, iw, bi, rec, rw, br, gd, x, y)
            then RowMatches(inp, iw, bi, rec, rw, br, gd, y, x + 1)
            else !RowMatches(inp, iw, bi, rec, rw, br, gd, y, bi.maxX - bi.minX + 1)
  {
    hide CellMatches;
  }

  lemma RowsMakeOverlay(inp: seq<string>, iw: nat, bi: Bounds, rec: seq<string>, rw: nat, br: Bounds, gd: GameDef,
                        w: int, h: int)
    requires w == bi.maxX - bi.minX + 1 == br.maxX - br.minX + 1
    requires h == bi.maxY - bi.minY + 1 == br.maxY - br.minY + 1
    ensures Overlay(inp, iw, bi, rec, rw, br, gd) <==> forall y :: 0 <= y < h ==>
            RowMatches(inp, iw, bi, rec, rw, br, gd, y, w)
  {
    hide CellMatches;
    if forall y :: 0 <= y < h ==> RowMatches(inp, iw, bi, rec, rw, br, gd, y, w) {
      forall x, y | 0 <= x < w && 0 <= y < h ensures CellMatches(inp, iw, bi, rec, rw, br, gd, x, y) {
        assert RowMatches(inp, iw, bi, rec, rw, br, gd, y, w);
      }
    }
  }

  method CompareRow(inp: seq<string>, iw: nat, bi: Bounds, rec: seq<string>, rw: nat, br: Bounds, gd: GameDef, y: int)
    returns (r: bool)
    requires iw > 0 && rw > 0 && IsBounds(inp, iw, bi) && IsBounds(rec, rw, br)
    requires Rectangular(inp, iw) && Rectangular(rec, rw)
    requires bi.maxX - bi.minX == br.maxX - br.minX && bi.maxY - bi.minY == br.maxY - br.minY
    requires 0 <= y <= bi.maxY - bi.minY
    ensures r <==> RowMatches(inp, iw, bi, rec, rw, br, gd, y, bi.maxX - bi.minX + 1)
  {
    var w := bi.maxX - bi.minX + 1;
    assert w >= 1;
    hide *;
    RowStarts(inp, iw, bi, rec, rw, br, gd, y);
    for x := 0 to w
      invariant RowMatches(inp, iw, bi, rec, rw, br, gd, y, x)
    {
      OneMoreCell(inp, iw, bi, rec, rw, br, gd, x, y);
      if !Matches(Cell(inp, iw, bi.minX + x, bi.minY + y), Cell(rec, rw, br.minX + x, br.minY + y), gd) {
        return false;
      }
    }
    return true;
  }

  lemma NoPattern(names: seq<string>, w: nat, padded: seq<string>)
    requires AllEmpty(padded) && forall x, y :: At(padded, w, x, y) == At(names, w, x, y)
    ensures forall b :: !IsBounds(names, w, b)
  {
    forall b ensures !IsBounds(names, w, b) {
      assert forall y :: At(padded, w, b.minX, y) == "";
    }
  }

  lemma SameAfterPadding(inp: seq<string>, iw: nat, inp': seq<string>, bi: Bounds,
                         rec: seq<string>, rw: nat, rec': seq<string>, br: Bounds, gd: GameDef)
    requires iw > 0 && rw > 0
    requires forall x, y :: At(inp', iw, x, y) == At(inp, iw, x, y)
    requires forall x, y :: At(rec', rw, x, y) == At(rec, rw, x, y)
    requires IsBounds(inp', iw, bi) && IsBounds(rec', rw, br)
    ensures IsBounds(inp, iw, bi) && IsBounds(rec, rw, br)
    ensures SamePattern(inp, iw, rec, rw, gd) <==> Overlay(inp', iw, bi, rec', rw, br, gd)
  {
    SameBounds(inp, inp', iw, bi);
    SameBounds(rec, rec', rw, br);
    assert Overlay(inp', iw, bi, rec', rw, br, gd) <==> Overlay(inp, iw, bi, rec, rw, br, gd) by {
      forall x, y ensures CellMatches(inp', iw, bi, rec', rw, br, gd, x, y)
          <==> CellMatches(inp, iw, bi, rec, rw, br, gd, x, y) {}
    }
    if SamePattern(inp, iw, rec, rw, gd) {
      var bi', br' :| IsBounds(inp, iw, bi') && IsBounds(rec, rw, br') && Overlay(inp, iw, bi', rec, rw, br', gd);
      BoundsUnique(inp, iw, bi, bi');
      BoundsUnique(rec, rw, br, br');
    }
  }

  lemma SameBounds(names: seq<string>, names': seq<string>, w: nat, b: Bounds)
    requires forall x, y :: At(names', w, x, y) == At(names, w, x, y)
    requires IsBounds(names', w, b)
    ensures IsBounds(names, w, b)
  {
  }
}
