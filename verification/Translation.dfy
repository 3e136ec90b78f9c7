/**
 What the cropping of a shaped recipe means: the recipe may be moved anywhere on the input grid, and a
 match pairs up the non-empty names of both grids in reading order.
 */
module Translation {
  import opened ItemNames
  import opened Pairing
  import opened Shaped

  /** No group contains the nameless item of an empty slot. */
  ghost predicate EmptyMatchesNoGroup(gd: GameDef) {
    forall rec: string :: IsGroup(rec) ==> !Matches("", rec, gd)
  }

  /** Every cell of the (infinite, empty outside) recipe grid matches the input cell `(dx, dy)` away. */
  ghost predicate Moved(inp: seq<string>, iw: nat, rec: seq<string>, rw: nat, gd: GameDef, dx: int, dy: int) {
    forall x, y :: Matches(At(inp, iw, x + dx, y + dy), At(rec, rw, x, y), gd)
  }

  lemma EmptyMatchesEmpty(a: string, b: string, gd: GameDef)
    requires EmptyMatchesNoGroup(gd) && Matches(a, b, gd)
    ensures a == "" <==> b == ""
  {
  }

  lemma {:induction false} BoundsExist(names: seq<string>, w: nat, n: nat) returns (b: Bounds)
    requires w > 0 && n <= |names| && !AllEmpty(names[..n])
    ensures IsBounds(names[..n], w, b)
  {
    var i := n - 1;
    var x, y := i % w, i / w;
    assert i == y * w + x && y >= 0;
    assert names[..n] == names[..i] + [names[i]];
    b := Bounds(x, x, y, y);
    hide IsBounds;
    if !AllEmpty(names[..i]) {
      b := BoundsExist(names, w, i);
    }
    if names[i] != "" {
      BoundsGrow(names, w, i, x, y, b);
      b := if AllEmpty(names[..i]) then Bounds(x, x, y, y) else b.Grown(x, y);
    } else {
      BoundsKept(names, w, i, x, y, b);
    }
  }

  /** As long as no group contains the empty slot, the check is exactly "some translation fits". */
  lemma PatternIffMoved(inp: seq<string>, iw: nat, rec: seq<string>, rw: nat, gd: GameDef)
    requires iw > 0 && rw > 0 && EmptyMatchesNoGroup(gd)
    ensures SamePattern(inp, iw, rec, rw, gd)
        <==> !AllEmpty(inp) && exists dx, dy :: Moved(inp, iw, rec, rw, gd, dx, dy)
  {
    if SamePattern(inp, iw, rec, rw, gd) {
      var bi, br :| IsBounds(inp, iw, bi) && IsBounds(rec, rw, br) && Overlay(inp, iw, bi, rec, rw, br, gd);
      BoundsNonEmpty(inp, iw, bi);
      OverlayMoves(inp, iw, bi, rec, rw, br, gd);
    }
    if !AllEmpty(inp) {
      if dx, dy :| Moved(inp, iw, rec, rw, gd, dx, dy) {
        var bi := BoundsExist(inp, iw, |inp|);
        assert inp[..|inp|] == inp;
        MovedOverlays(inp, iw, bi, rec, rw, gd, dx, dy);
      }
    }
  }

  lemma SameNamesMatch(a: string, gd: GameDef)
    ensures Matches(a, a, gd)
  {
  }

  lemma OutsideBounds(names: seq<string>, w: nat, b: Bounds, x: int, y: int)
    requires IsBounds(names, w, b) && !b.Has(x, y)
    ensures At(names, w, x, y) == ""
  {
  }

  lemma OverlaidCell(inp: seq<string>, iw: nat, bi: Bounds, rec: seq<string>, rw: nat, br: Bounds, gd: GameDef, x: int,
                     y: int)
    requires Overlay(inp, iw, bi, rec, rw, br, gd) && br.Has(x, y)
    ensures Matches(At(inp, iw, x + (bi.minX - br.minX), y + (bi.minY - br.minY)), At(rec, rw, x, y), gd)
  {
    hide At, Matches;
    assert CellMatches(inp, iw, bi, rec, rw, br, gd, x - br.minX, y - br.minY);
    assert bi.minX + (x - br.minX) == x + (bi.minX - br.minX) && br.minX + (x - br.minX) == x;
    assert bi.minY + (y - br.minY) == y + (bi.minY - br.minY) && br.minY + (y - br.minY) == y;
  }

  lemma OverlayMoves(inp: seq<string>, iw: nat, bi: Bounds, rec: seq<string>, rw: nat, br: Bounds, gd: GameDef)
    requires IsBounds(inp, iw, bi) && IsBounds(rec, rw, br) && Overlay(inp, iw, bi, rec, rw, br, gd)
    ensures Moved(inp, iw, rec, rw, gd, bi.minX - br.minX, bi.minY - br.minY)
  {
    var dx, dy := bi.minX - br.minX, bi.minY - br.minY;
    hide At, Matches, CellMatches, IsBounds;
    forall x, y ensures Matches(At(inp, iw, x + dx, y + dy), At(rec, rw, x, y), gd) {
      if br.Has(x, y) {
        OverlaidCell(inp, iw, bi, rec, rw, br, gd, x, y);
      } else {
        OutsideBounds(inp, iw, bi, x + dx, y + dy);
        OutsideBounds(rec, rw, br, x, y);
        SameNamesMatch("", gd);
      }
    }
  }

  lemma MovedOverlays(inp: seq<string>, iw: nat, bi: Bounds, rec: seq<string>, rw: nat, gd: GameDef, dx: int, dy: int)
    requires iw > 0 && rw > 0 && EmptyMatchesNoGroup(gd)
    requires IsBounds(inp, iw, bi) && Moved(inp, iw, rec, rw, gd, dx, dy)
    ensures SamePattern(inp, iw, rec, rw, gd)
  {
    var br := Bounds(bi.minX - dx, bi.maxX - dx, bi.minY - dy, bi.maxY - dy);
    hide At, Matches;
    forall x, y ensures At(inp, iw, x + dx, y + dy) == "" <==> At(rec, rw, x, y) == "" {
      EmptyMatchesEmpty(At(inp, iw, x + dx, y + dy), At(rec, rw, x, y), gd);
    }
    forall x, y | At(rec, rw, x, y) != "" ensures br.Has(x, y) {
      assert At(inp, iw, x + dx, y + dy) != "";
    }
    var y0, y1, x0, x1 :| At(inp, iw, bi.minX, y0) != "" && At(inp, iw, bi.maxX, y1) != ""
                          && At(inp, iw, x0, bi.minY) != "" && At(inp, iw, x1, bi.maxY) != "";
    assert At(inp, iw, br.minX + dx, (y0 - dy) + dy) != "" && At(inp, iw, br.maxX + dx, (y1 - dy) + dy) != "";
    assert At(inp, iw, (x0 - dx) + dx, br.minY + dy) != "" && At(inp, iw, (x1 - dx) + dx, br.maxY + dy) != "";
    assert At(rec, rw, br.minX, y0 - dy) != "" && At(rec, rw, br.maxX, y1 - dy) != "";
    assert At(rec, rw, x0 - dx, br.minY) != "" && At(rec, rw, x1 - dx, br.maxY) != "";
    assert IsBounds(rec, rw, br);
    forall x, y ensures CellMatches(inp, iw, bi, rec, rw, br, gd, x, y) {
      assert Matches(At(inp, iw, (br.minX + x) + dx, (br.minY + y) + dy), At(rec, rw, br.minX + x, br.minY + y), gd);
    }
  }

  // ---------------------------------------------------------------- reading order

  /** `k` cells of row `y` from column `x0` on. */
  ghost function Row(names: seq<string>, w: nat, x0: int, k: nat, y: int): (r: seq<string>)
    ensures |r| == k
  {
    if k == 0 then [] else Row(names, w, x0, k - 1, y) + [At(names, w, x0 + k - 1, y)]
  }

  /** `m` such rows from row `y0` on. */
  ghost function Window(names: seq<string>, w: nat, x0: int, k: nat, y0: int, m: nat): (r: seq<string>) {
    if m == 0 then [] else Window(names, w, x0, k, y0, m - 1) + Row(names, w, x0, k, y0 + m - 1)
  }

  lemma {:induction false} NonEmptyConcat(a: seq<string>, b: seq<string>)
    ensures NonEmpty(a + b) == NonEmpty(a) + NonEmpty(b)
  {
    if a == [] {
      assert a + b == b;
    } else {
      assert (a + b)[1..] == a[1..] + b;
      NonEmptyConcat(a[1..], b);
    }
  }

  /** How many names come before column `x` of row `y`, in reading order. */
  ghost function Offset(names: seq<string>, w: nat, x: int, y: int): (n: nat)
    ensures n <= |names|
  {
    if y < 0 then 0 else
    var col := if x < 0 then 0 else if x > w then w else x;
    assert y * w >= 0;
    if y * w + col > |names| then |names| else y * w + col
  }

  lemma OffsetStep(names: seq<string>, w: nat, x: int, y: int)
    ensures Offset(names, w, x, y) <= Offset(names, w, x + 1, y)
    ensures var a, b := Offset(names, w, x, y), Offset(names, w, x + 1, y);
            names[a..b] == [At(names, w, x, y)] || (names[a..b] == [] && At(names, w, x, y) == "")
  {
    if 0 <= x < w && 0 <= y {
      assert y * w >= 0;
    }
  }

  lemma {:induction false} RowReads(names: seq<string>, w: nat, x0: int, k: nat, y: int)
    requires x0 <= 0
    ensures Offset(names, w, 0, y) <= Offset(names, w, x0 + k, y)
    ensures NonEmpty(Row(names, w, x0, k, y)) == NonEmpty(names[Offset(names, w, 0, y)..Offset(names, w, x0 + k, y)])
  {
    hide *;
    if k == 0 {
      NoRow(names, w, x0, y);
    } else {
      RowReads(names, w, x0, k - 1, y);
      OffsetStep(names, w, x0 + k - 1, y);
      var o, a, b := Offset(names, w, 0, y), Offset(names, w, x0 + k - 1, y), Offset(names, w, x0 + k, y);
      RowNext(names, w, x0, k, y);
      SameNonEmpty(names[a..b], At(names, w, x0 + k - 1, y));
      NonEmptyConcat(Row(names, w, x0, k - 1, y), [At(names, w, x0 + k - 1, y)]);
      NonEmptyConcat(names[o..a], names[a..b]);
      Slices(names, o, a, b);
    }
  }

  lemma NoRow(names: seq<string>, w: nat, x0: int, y: int)
    requires x0 <= 0
    ensures Offset(names, w, 0, y) == Offset(names, w, x0, y)
    ensures NonEmpty(Row(names, w, x0, 0, y)) == NonEmpty(names[Offset(names, w, 0, y)..Offset(names, w, x0, y)])
  {
  }

  lemma RowNext(names: seq<string>, w: nat, x0: int, k: nat, y: int)
    requires k > 0
    ensures Row(names, w, x0, k, y) == Row(names, w, x0, k - 1, y) + [At(names, w, x0 + k - 1, y)]
  {
  }

  lemma SameNonEmpty(part: seq<string>, name: string)
    requires part == [name] || (part == [] && name == "")
    ensures NonEmpty(part) == NonEmpty([name])
  {
  }

  lemma Slices<T>(s: seq<T>, o: nat, a: nat, b: nat)
    requires o <= a <= b <= |s|
    ensures s[o..b] == s[o..a] + s[a..b]
  {
  }

  lemma NextRow(names: seq<string>, w: nat, y: int)
    ensures Offset(names, w, w, y) == Offset(names, w, 0, y + 1)
  {
    if y >= 0 {
      assert (y + 1) * w == y * w + w;
    }
  }

  lemma {:induction false} WindowReads(names: seq<string>, w: nat, x0: int, k: nat, y0: int, m: nat)
    requires x0 <= 0 && w <= x0 + k && y0 <= 0
    ensures NonEmpty(Window(names, w, x0, k, y0, m)) == NonEmpty(names[..Offset(names, w, 0, y0 + m)])
  {
    hide *;
    if m == 0 {
      NoWindow(names, w, x0, k, y0);
    } else {
      var y := y0 + m - 1;
      WindowReads(names, w, x0, k, y0, m - 1);
      RowReads(names, w, x0, k, y);
      NextRow(names, w, y);
      WindowNext(names, w, x0, k, y0, m);
      NonEmptyConcat(Window(names, w, x0, k, y0, m - 1), Row(names, w, x0, k, y));
      var a, b := Offset(names, w, 0, y), Offset(names, w, 0, y + 1);
      NonEmptyConcat(names[..a], names[a..b]);
      Slices(names, 0, a, b);
      assert names[0..a] == names[..a] && names[0..b] == names[..b];
    }
  }

  lemma NoWindow(names: seq<string>, w: nat, x0: int, k: nat, y0: int)
    requires y0 <= 0
    ensures NonEmpty(Window(names, w, x0, k, y0, 0)) == NonEmpty(names[..Offset(names, w, 0, y0)])
  {
  }

  lemma WindowNext(names: seq<string>, w: nat, x0: int, k: nat, y0: int, m: nat)
    requires m > 0 && w <= x0 + k
    ensures Window(names, w, x0, k, y0, m) == Window(names, w, x0, k, y0, m - 1) + Row(names, w, x0, k, y0 + m - 1)
    ensures Offset(names, w, x0 + k, y0 + m - 1) == Offset(names, w, w, y0 + m - 1)
  {
  }

  lemma {:induction false} MovedRows(inp: seq<string>, iw: nat, rec: seq<string>, rw: nat, gd: GameDef, dx: int,
                                     dy: int, x0: int, k: nat, y: int)
    requires Moved(inp, iw, rec, rw, gd, dx, dy)
    ensures LaidOut(Row(inp, iw, x0 + dx, k, y + dy), Row(rec, rw, x0, k, y), gd)
  {
    if k > 0 {
      MovedRows(inp, iw, rec, rw, gd, dx, dy, x0, k - 1, y);
      hide At, Matches;
      assert Matches(At(inp, iw, (x0 + k - 1) + dx, y + dy), At(rec, rw, x0 + k - 1, y), gd);
    }
  }

  lemma {:induction false} MovedWindows(inp: seq<string>, iw: nat, rec: seq<string>, rw: nat, gd: GameDef, dx: int,
                                        dy: int, x0: int, k: nat, y0: int, m: nat)
    requires Moved(inp, iw, rec, rw, gd, dx, dy)
    ensures LaidOut(Window(inp, iw, x0 + dx, k, y0 + dy, m), Window(rec, rw, x0, k, y0, m), gd)
  {
    if m > 0 {
      MovedWindows(inp, iw, rec, rw, gd, dx, dy, x0, k, y0, m - 1);
      MovedRows(inp, iw, rec, rw, gd, dx, dy, x0, k, y0 + m - 1);
      hide Matches, Row, Moved;
    }
  }

  lemma {:induction false} LaidOutNonEmpty(a: seq<string>, b: seq<string>, gd: GameDef)
    requires EmptyMatchesNoGroup(gd) && LaidOut(a, b, gd)
    ensures LaidOut(NonEmpty(a), NonEmpty(b), gd)
  {
    if a != [] {
      EmptyMatchesEmpty(a[0], b[0], gd);
      hide Matches;
      LaidOutNonEmpty(a[1..], b[1..], gd);
    }
  }

  /** A start and a length that cover `0..a` as well as `0..b` shifted by `d`. */
  lemma Covering(a: nat, b: nat, d: int) returns (start: int, length: nat)
    ensures start <= 0 && start + d <= 0 && a <= start + length && b <= start + d + length
  {
    start := if d > 0 then -d else 0;
    length := a + b + (if d > 0 then d else -d);
  }

  lemma AllRead(names: seq<string>, w: nat, y: int)
    requires w > 0 && y >= |names|
    ensures names[..Offset(names, w, 0, y)] == names
  {
    RowsMonotone(|names|, y, w);
    RowsMonotone(1, w, |names|);
  }

  lemma WindowIsGrid(names: seq<string>, w: nat, x0: int, k: nat, y0: int, m: nat)
    requires w > 0 && x0 <= 0 && w <= x0 + k && y0 <= 0 && |names| <= y0 + m
    ensures NonEmpty(Window(names, w, x0, k, y0, m)) == NonEmpty(names)
  {
    WindowReads(names, w, x0, k, y0, m);
    AllRead(names, w, y0 + m);
  }

  /** A shaped match pairs up the non-empty names of input and recipe in reading order. */
  lemma PatternLaysOut(inp: seq<string>, iw: nat, rec: seq<string>, rw: nat, gd: GameDef)
    requires EmptyMatchesNoGroup(gd) && SamePattern(inp, iw, rec, rw, gd)
    ensures LaidOut(NonEmpty(inp), NonEmpty(rec), gd)
  {
    PatternIffMoved(inp, iw, rec, rw, gd);
    var dx, dy :| Moved(inp, iw, rec, rw, gd, dx, dy);
    MovedLaysOut(inp, iw, rec, rw, gd, dx, dy);
  }

  lemma MovedLaysOut(inp: seq<string>, iw: nat, rec: seq<string>, rw: nat, gd: GameDef, dx: int, dy: int)
    requires iw > 0 && rw > 0 && EmptyMatchesNoGroup(gd) && Moved(inp, iw, rec, rw, gd, dx, dy)
    ensures LaidOut(NonEmpty(inp), NonEmpty(rec), gd)
  {
    hide *;
    var x0, k := Covering(rw, iw, dx);
    var y0, m := Covering(|rec|, |inp|, dy);
    WindowIsGrid(rec, rw, x0, k, y0, m);
    WindowIsGrid(inp, iw, x0 + dx, k, y0 + dy, m);
    WindowsLaidOut(inp, iw, rec, rw, gd, dx, dy, x0, k, y0, m);
  }

  lemma WindowsLaidOut(inp: seq<string>, iw: nat, rec: seq<string>, rw: nat, gd: GameDef, dx: int, dy: int, x0: int,
                       k: nat, y0: int, m: nat)
    requires EmptyMatchesNoGroup(gd) && Moved(inp, iw, rec, rw, gd, dx, dy)
    ensures LaidOut(NonEmpty(Window(inp, iw, x0 + dx, k, y0 + dy, m)), NonEmpty(Window(rec, rw, x0, k, y0, m)), gd)
  {
    hide *;
    MovedWindows(inp, iw, rec, rw, gd, dx, dy, x0, k, y0, m);
    LaidOutNonEmpty(Window(inp, iw, x0 + dx, k, y0 + dy, m), Window(rec, rw, x0, k, y0, m), gd);
  }
}
