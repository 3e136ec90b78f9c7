/**
 The chat buffer (src/chat.cpp, src/chat.h, class ChatBuffer): chat lines, and a cache of them formatted
 for the size of the console, with a scroll position.
 */
module ChatBuffers {
  import opened ChatFormat

  // ---------------------------------------------------------------- the cache

  /** Every line has room for its text beside its indentation. */
  predicate AllFit(lines: seq<ChatLine>, cols: nat) {
    forall i :: 0 <= i < |lines| ==> Indentation(lines[i], cols) < cols
  }

  /** No line has. */
  predicate NoneFit(lines: seq<ChatLine>, cols: nat) {
    forall i :: 0 <= i < |lines| ==> Indentation(lines[i], cols) >= cols
  }

  /** Each line formatted by itself, one after the other. */
  function FormatAll(style: Style, lines: seq<ChatLine>, cols: nat): seq<FormattedLine> {
    if lines == [] then [] else FormatAll(style, lines[..|lines| - 1], cols) + Format(style, lines[|lines| - 1], cols)
  }

  lemma FormatAllNext(style: Style, lines: seq<ChatLine>, line: ChatLine, cols: nat)
    ensures FormatAll(style, lines + [line], cols) == FormatAll(style, lines, cols) + Format(style, line, cols)
    ensures FormatAll(style, [], cols) == []
  {
    assert (lines + [line])[..|lines|] == lines;
  }

  lemma {:induction false} FormatAllBoth(style: Style, a: seq<ChatLine>, b: seq<ChatLine>, cols: nat)
    ensures FormatAll(style, a + b, cols) == FormatAll(style, a, cols) + FormatAll(style, b, cols)
  {
    hide *;
    if b == [] {
      FormatAllNext(style, [], ChatLine("", "", 0.0), cols);
      assert a + b == a && FormatAll(style, a, cols) + [] == FormatAll(style, a, cols);
    } else {
      var front, last := b[..|b| - 1], b[|b| - 1];
      assert b == front + [last];
      FormatAllBoth(style, a, front, cols);
      FormatAllNext(style, a + front, last, cols);
      FormatAllNext(style, front, last, cols);
      Associates(a, front, [last]);
      Associates(FormatAll(style, a, cols), FormatAll(style, front, cols), Format(style, last, cols));
    }
  }

  /** Where the formatted lines of line `k` start. */
  function StartOf(style: Style, lines: seq<ChatLine>, cols: nat, k: nat): nat
    requires k <= |lines|
  {
    |FormatAll(style, lines[..k], cols)|
  }

  lemma StartNext(style: Style, lines: seq<ChatLine>, cols: nat, k: nat)
    requires k < |lines|
    ensures StartOf(style, lines, cols, k + 1) == StartOf(style, lines, cols, k) + |Format(style, lines[k], cols)|
    ensures StartOf(style, lines, cols, k + 1) <= |FormatAll(style, lines, cols)|
    ensures FormatAll(style, lines, cols)[StartOf(style, lines, cols, k)..StartOf(style, lines, cols, k + 1)]
            == Format(style, lines[k], cols)
  {
    assert lines[..k + 1] == lines[..k] + [lines[k]] && lines == lines[..k + 1] + lines[k + 1..];
    FormatAllNext(style, lines[..k], lines[k], cols);
    FormatAllBoth(style, lines[..k + 1], lines[k + 1..], cols);
    hide FormatAll, Format;
  }

  lemma StartEnds(style: Style, lines: seq<ChatLine>, cols: nat)
    ensures StartOf(style, lines, cols, 0) == 0
    ensures StartOf(style, lines, cols, |lines|) == |FormatAll(style, lines, cols)|
  {
    assert lines[..|lines|] == lines && lines[..0] == [];
  }

  lemma FormatMarks(style: Style, line: ChatLine, cols: nat)
    requires Indentation(line, cols) < cols
    ensures Format(style, line, cols) != []
    ensures forall i :: 0 <= i < |Format(style, line, cols)| ==> Format(style, line, cols)[i].first == (i == 0)
  {
    FormatIsWellSet(style, line, cols);
    hide Format, WellSet;
  }

  lemma SliceMarks(f: seq<FormattedLine>, d: nat, e: nat, part: seq<FormattedLine>)
    requires d <= e <= |f| && f[d..e] == part && part != []
    requires forall i :: 0 <= i < |part| ==> part[i].first == (i == 0)
    ensures d < e && f[d].first && forall i :: d < i < e ==> !f[i].first
  {
    forall i | d <= i < e
      ensures f[i].first == (i == d)
    {
      assert f[i] == part[i - d];
    }
  }

  /** The lines of one chat line: the first one is marked, the others are not. */
  lemma MarksOfLine(style: Style, lines: seq<ChatLine>, cols: nat, k: nat)
    requires k < |lines| && Indentation(lines[k], cols) < cols
    ensures var f, d, e := FormatAll(style, lines, cols), StartOf(style, lines, cols, k),
            StartOf(style, lines, cols, k + 1);
      && d < e <= |f|
      && f[d].first
      && forall i :: d < i < e ==> !f[i].first
  {
    hide *;
    StartNext(style, lines, cols, k);
    FormatMarks(style, lines[k], cols);
    SliceMarks(FormatAll(style, lines, cols), StartOf(style, lines, cols, k), StartOf(style, lines, cols, k + 1),
      Format(style, lines[k], cols));
  }

  /** Dropping the first `k` lines drops what is formatted for them. */
  lemma DropFormatted(style: Style, lines: seq<ChatLine>, cols: nat, k: nat)
    requires k <= |lines|
    ensures StartOf(style, lines, cols, k) <= |FormatAll(style, lines, cols)|
    ensures FormatAll(style, lines, cols)[StartOf(style, lines, cols, k)..] == FormatAll(style, lines[k..], cols)
  {
    assert lines == lines[..k] + lines[k..];
    FormatAllBoth(style, lines[..k], lines[k..], cols);
    hide FormatAll;
  }

  // ---------------------------------------------------------------- scrolling

  function Bottom(count: nat, rows: nat): int {
    if rows == 0 then 0 else count - rows
  }

  function Top(count: nat, rows: nat): int {
    if rows == 0 then 0 else if count <= rows then count - rows else 0
  }

  function Clamped(scroll: int, count: nat, rows: nat): (r: int)
    ensures Top(count, rows) <= r <= Bottom(count, rows)
    ensures Top(count, rows) <= scroll <= Bottom(count, rows) ==> r == scroll
  {
    if scroll > Bottom(count, rows) then Bottom(count, rows)
    else if scroll < Top(count, rows) then Top(count, rows) else scroll
  }

  /** How many chat lines start among these formatted lines. */
  function Firsts(lines: seq<FormattedLine>): nat {
    if lines == [] then 0 else Firsts(lines[..|lines| - 1]) + if lines[|lines| - 1].first then 1 else 0
  }

  /** How many chat lines at the front are older than this. */
  function Expired(lines: seq<ChatLine>, maxAge: real): (n: nat)
    ensures n <= |lines|
    ensures forall i :: 0 <= i < n ==> lines[i].age > maxAge
    ensures n < |lines| ==> lines[n].age <= maxAge
  {
    if lines != [] && lines[0].age > maxAge then 1 + Expired(lines[1..], maxAge) else 0
  }

  function Aged(lines: seq<ChatLine>, dtime: real): (r: seq<ChatLine>)
    ensures |r| == |lines|
  {
    seq(|lines|, i requires 0 <= i < |lines| => lines[i].(age := lines[i].age + dtime))
  }

  lemma {:induction false} AgeDoesNotShow(style: Style, lines: seq<ChatLine>, dtime: real, cols: nat)
    ensures FormatAll(style, Aged(lines, dtime), cols) == FormatAll(style, lines, cols)
  {
    hide Format;
    if lines != [] {
      var n := |lines| - 1;
      AgeDoesNotShow(style, lines[..n], dtime, cols);
      FormatIgnoresAge(style, lines[n], lines[n].age + dtime, cols);
      var aged, front := Aged(lines, dtime), Aged(lines[..n], dtime);
      assert aged[..n] == front && aged[n] == lines[n].(age := lines[n].age + dtime);
      hide Aged;
    }
  }

  lemma FormatIgnoresAge(style: Style, line: ChatLine, age: real, cols: nat)
    ensures Format(style, line.(age := age), cols) == Format(style, line, cols)
    ensures Indentation(line.(age := age), cols) == Indentation(line, cols)
  {
    hide FormatFrom, Finished;
  }

  // ---------------------------------------------------------------- skipping lines by their marks

  /** The first mark at or after `d`, or the end. */
  function NextMark(f: seq<FormattedLine>, d: nat): (e: nat)
    requires d <= |f|
    ensures d <= e <= |f|
    ensures e < |f| ==> f[e].first
    ensures forall i :: d <= i < e ==> !f[i].first
    decreases |f| - d
  {
    if d == |f| || f[d].first then d else NextMark(f, d + 1)
  }

  /** Where the formatted lines behind those of `k` chat lines start, going by the marks. */
  function Skip(f: seq<FormattedLine>, k: nat): (d: nat)
    ensures d <= |f|
  {
    if k == 0 then 0
    else
      var d := Skip(f, k - 1);
      if d < |f| then NextMark(f, d + 1) else d
  }

  ghost predicate StartsMarked(f: seq<FormattedLine>) {
    f != [] ==> f[0].first
  }

  /** The sanity check: what is deleted next starts with a mark. */
  lemma SkipMarked(f: seq<FormattedLine>, k: nat)
    requires StartsMarked(f) && Skip(f, k) < |f|
    ensures f[Skip(f, k)].first
  {
  }

  lemma SkipNext(f: seq<FormattedLine>, k: nat)
    ensures Skip(f, 0) == 0
    ensures Skip(f, k + 1) == if Skip(f, k) < |f| then NextMark(f, Skip(f, k) + 1) else Skip(f, k)
  {
  }

  lemma {:induction false} SkipGrows(f: seq<FormattedLine>, a: nat, b: nat)
    requires a <= b
    ensures Skip(f, a) <= Skip(f, b)
    ensures Skip(f, a) == Skip(f, b) <==> a == b || Skip(f, a) == |f|
  {
    if a < b {
      SkipGrows(f, a, b - 1);
      SkipNext(f, b - 1);
      hide Skip;
    }
  }

  lemma NextMarkIs(f: seq<FormattedLine>, d: nat, e: nat)
    requires d <= e <= |f| && (e < |f| ==> f[e].first) && forall i :: d <= i < e ==> !f[i].first
    ensures NextMark(f, d) == e
  {
    hide NextMark;
    var n := NextMark(f, d);
  }

  /** How many lines have room for their text. */
  function FitCount(lines: seq<ChatLine>, cols: nat): (n: nat)
    ensures n <= |lines|
  {
    if lines == [] then 0
    else FitCount(lines[..|lines| - 1], cols) + if Indentation(lines[|lines| - 1], cols) < cols then 1 else 0
  }

  lemma {:induction false} FitCountAll(lines: seq<ChatLine>, cols: nat)
    ensures FitCount(lines, cols) == |lines| <==> AllFit(lines, cols)
  {
    hide Indentation;
    if lines != [] {
      var n := |lines| - 1;
      FitCountAll(lines[..n], cols);
      assert AllFit(lines, cols) <==> AllFit(lines[..n], cols) && Indentation(lines[n], cols) < cols by {
        assert lines == lines[..n] + [lines[n]];
      }
    }
  }

  lemma {:induction false} NothingShown(style: Style, lines: seq<ChatLine>, cols: nat)
    ensures FormatAll(style, lines, cols) == [] <==> NoneFit(lines, cols)
  {
    hide Indentation, Format;
    if lines != [] {
      var n := |lines| - 1;
      NothingShown(style, lines[..n], cols);
      NothingWritten(style, lines[n], cols);
      assert NoneFit(lines, cols) <==> NoneFit(lines[..n], cols) && Indentation(lines[n], cols) >= cols by {
        assert lines == lines[..n] + [lines[n]];
      }
    }
  }

  lemma {:induction false} FormatAllMarked(style: Style, lines: seq<ChatLine>, cols: nat)
    ensures StartsMarked(FormatAll(style, lines, cols))
  {
    hide Indentation, Format;
    if lines != [] {
      var n := |lines| - 1;
      FormatAllMarked(style, lines[..n], cols);
      FormatMarked(style, lines[n], cols);
    }
  }

  lemma FormatMarked(style: Style, line: ChatLine, cols: nat)
    ensures StartsMarked(Format(style, line, cols))
  {
    hide Indentation, Format;
    NothingWritten(style, line, cols);
    if Indentation(line, cols) < cols {
      FormatMarks(style, line, cols);
    }
  }

  /** Where a chat line starts is found by skipping those before it that have room. */
  lemma {:induction false} SkipToStart(style: Style, lines: seq<ChatLine>, cols: nat, k: nat)
    requires k <= |lines|
    ensures Skip(FormatAll(style, lines, cols), FitCount(lines[..k], cols)) == StartOf(style, lines, cols, k)
  {
    hide *;
    StartEnds(style, lines, cols);
    if k == 0 {
      SkipNothing(FormatAll(style, lines, cols), lines, cols);
    } else {
      SkipToStart(style, lines, cols, k - 1);
      SkipOneLine(style, lines, cols, k - 1);
    }
  }

  lemma SkipNothing(f: seq<FormattedLine>, lines: seq<ChatLine>, cols: nat)
    ensures Skip(f, FitCount(lines[..0], cols)) == 0
  {
  }

  lemma FitCountNext(lines: seq<ChatLine>, cols: nat, k: nat)
    requires k < |lines|
    ensures FitCount(lines[..k + 1], cols)
            == FitCount(lines[..k], cols) + if Indentation(lines[k], cols) < cols then 1 else 0
  {
    hide Indentation;
    assert lines[..k + 1][..k] == lines[..k];
  }

  lemma SkipOneLine(style: Style, lines: seq<ChatLine>, cols: nat, k: nat)
    requires k < |lines|
    requires Skip(FormatAll(style, lines, cols), FitCount(lines[..k], cols)) == StartOf(style, lines, cols, k)
    ensures Skip(FormatAll(style, lines, cols), FitCount(lines[..k + 1], cols)) == StartOf(style, lines, cols, k + 1)
  {
    hide *;
    var f, d, e := FormatAll(style, lines, cols), StartOf(style, lines, cols, k), StartOf(style, lines, cols, k + 1);
    FitCountNext(lines, cols, k);
    StartNext(style, lines, cols, k);
    NothingWritten(style, lines[k], cols);
    if Indentation(lines[k], cols) < cols {
      MarksOfLine(style, lines, cols, k);
      SkipNext(f, FitCount(lines[..k], cols));
      DropFormatted(style, lines, cols, k + 1);
      FormatAllMarked(style, lines[k + 1..], cols);
      MarkedRest(f, e);
      NextMarkIs(f, d + 1, e);
    }
  }

  lemma MarkedRest(f: seq<FormattedLine>, e: nat)
    requires e <= |f| && StartsMarked(f[e..])
    ensures e < |f| ==> f[e].first
  {
  }

  // ---------------------------------------------------------------- the buffer

  datatype State = State(
    scrollback: nat, unformatted: seq<ChatLine>, cols: nat, rows: nat, scroll: int, formatted: seq<FormattedLine>)

  /** What every operation keeps, whatever the lines and widths; the sanity check of deleteOldest relies on it. */
  ghost predicate Tidy(st: State) {
    && (st.rows == 0 <==> st.cols == 0)
    && (st.rows == 0 ==> st.formatted == [])
    && StartsMarked(st.formatted)
    && st.scroll <= |st.formatted|
  }

  /** The scroll position is between top and bottom. */
  predicate InRange(st: State) {
    Top(|st.formatted|, st.rows) <= st.scroll <= Bottom(|st.formatted|, st.rows)
  }

  /** The cache holds what formatting every line would give. */
  ghost predicate Synced(style: Style, st: State) {
    st.rows > 0 ==> st.formatted == FormatAll(style, st.unformatted, st.cols)
  }

  function AtBottom(st: State): bool {
    st.scroll == Bottom(|st.formatted|, st.rows)
  }

  /** Without the `k` oldest lines, of which `d` formatted lines go. */
  function Dropped(st: State, k: nat, d: nat): State
    requires k <= |st.unformatted| && d <= |st.formatted|
  {
    var formatted := st.formatted[d..];
    st.(unformatted := st.unformatted[k..], formatted := formatted,
        scroll := if AtBottom(st) then Bottom(|formatted|, st.rows) else Clamped(st.scroll - d, |formatted|, st.rows))
  }

  function AtMost(count: nat, n: nat): nat {
    if count < n then count else n
  }

  /** deleteOldest */
  function Deleted(st: State, count: nat): State {
    var k := AtMost(count, |st.unformatted|);
    Dropped(st, k, Skip(st.formatted, k))
  }

  lemma DeletedIsTidy(st: State, count: nat)
    requires Tidy(st)
    ensures Tidy(Deleted(st, count)) && InRange(Deleted(st, count))
    ensures var st' := Deleted(st, count);
      && st'.unformatted == st.unformatted[AtMost(count, |st.unformatted|)..]
      && st'.cols == st.cols && st'.rows == st.rows && st'.scrollback == st.scrollback
  {
    hide Skip, StartsMarked, Tidy, InRange, Dropped;
    var k := AtMost(count, |st.unformatted|);
    TidyShape(st);
    RestMarked(st.formatted, k);
    DroppedIsTidy(st, k, Skip(st.formatted, k));
  }

  lemma TidyShape(st: State)
    requires Tidy(st)
    ensures st.rows == 0 ==> st.formatted == []
    ensures st.scroll <= |st.formatted| && StartsMarked(st.formatted)
  {
  }

  lemma DroppedIsTidy(st: State, k: nat, d: nat)
    requires Tidy(st) && k <= |st.unformatted| && d <= |st.formatted| && StartsMarked(st.formatted[d..])
    ensures var st' := Dropped(st, k, d);
      && Tidy(st') && InRange(st') && st'.unformatted == st.unformatted[k..]
      && st'.cols == st.cols && st'.rows == st.rows && st'.scrollback == st.scrollback
  {
    hide StartsMarked;
  }

  lemma RestMarked(f: seq<FormattedLine>, k: nat)
    requires StartsMarked(f)
    ensures StartsMarked(f[Skip(f, k)..])
  {
    if Skip(f, k) < |f| {
      SkipMarked(f, k);
    }
  }

  /** Deleting the oldest lines keeps the cache right exactly when all of them have room, or none of the
      others has: marks are counted, and a line without room has none. */
  lemma DeletedInSync(style: Style, st: State, count: nat)
    requires Synced(style, st)
    ensures var k := AtMost(count, |st.unformatted|);
      Synced(style, Deleted(st, count))
      <==> st.rows == 0 || AllFit(st.unformatted[..k], st.cols) || NoneFit(st.unformatted[k..], st.cols)
  {
    var k := AtMost(count, |st.unformatted|);
    if st.rows > 0 {
      assert st.formatted == FormatAll(style, st.unformatted, st.cols);
      hide FormatAll, AllFit, NoneFit, Skip, StartOf, Clamped, Bottom;
      SkipInSync(style, st.unformatted, st.cols, k);
    }
  }

  lemma SkipInSync(style: Style, lines: seq<ChatLine>, cols: nat, k: nat)
    requires k <= |lines|
    ensures var f := FormatAll(style, lines, cols);
      f[Skip(f, k)..] == FormatAll(style, lines[k..], cols) <==> AllFit(lines[..k], cols) || NoneFit(lines[k..], cols)
  {
    hide *;
    var f, fits, d := FormatAll(style, lines, cols), FitCount(lines[..k], cols), StartOf(style, lines, cols, k);
    SkipToStart(style, lines, cols, k);
    SkipGrows(f, fits, k);
    DropFormatted(style, lines, cols, k);
    SameSuffix(f, Skip(f, k), d);
    FitCountAll(lines[..k], cols);
    NothingShown(style, lines[k..], cols);
  }

  lemma SameSuffix<T>(f: seq<T>, a: nat, b: nat)
    requires a <= |f| && b <= |f|
    ensures f[a..] == f[b..] <==> a == b
    ensures f[b..] == [] <==> b == |f|
  {
    assert |f[a..]| == |f| - a && |f[b..]| == |f| - b;
  }

  /** The new line is formatted at the end of the cache; a console at the bottom follows it. */
  function Appended(style: Style, st: State, line: ChatLine): State {
    if st.rows == 0 then st.(unformatted := st.unformatted + [line])
    else
      var added := Format(style, line, st.cols);
      st.(unformatted := st.unformatted + [line], formatted := st.formatted + added,
          scroll := if AtBottom(st) then st.scroll + |added| else st.scroll)
  }

  lemma AppendedKeeps(style: Style, st: State, line: ChatLine)
    requires Tidy(st)
    ensures Tidy(Appended(style, st, line))
    ensures InRange(st) ==> InRange(Appended(style, st, line))
    ensures Synced(style, st) ==> Synced(style, Appended(style, st, line))
  {
    FormatAllNext(style, st.unformatted, line, st.cols);
    FormatMarked(style, line, st.cols);
    hide FormatAll, Format;
  }

  /** addLine */
  function Added(style: Style, st: State, line: ChatLine): State {
    Limited(Appended(style, st, line), st.scrollback)
  }

  /** The oldest lines beyond the limit go. */
  function Limited(st: State, scrollback: nat): State {
    var n := |st.unformatted|;
    (if n > scrollback then Deleted(st, n - scrollback) else st).(scrollback := scrollback)
  }

  lemma LimitedKeeps(style: Style, st: State, scrollback: nat)
    requires Tidy(st)
    ensures Tidy(Limited(st, scrollback))
    ensures InRange(st) ==> InRange(Limited(st, scrollback))
    ensures Synced(style, st) && AllFit(st.unformatted, st.cols) ==> Synced(style, Limited(st, scrollback))
    ensures var n, st' := |st.unformatted|, Limited(st, scrollback);
      && st'.unformatted == st.unformatted[if n > scrollback then n - scrollback else 0..]
      && |st'.unformatted| <= st'.scrollback == scrollback && st'.cols == st.cols && st'.rows == st.rows
  {
    hide Deleted, Indentation, StartsMarked, Synced, AllFit;
    if |st.unformatted| > scrollback {
      DeletedIsTidy(st, |st.unformatted| - scrollback);
    }
    if Synced(style, st) && AllFit(st.unformatted, st.cols) {
      LimitedInSync(style, st, scrollback);
    }
  }

  lemma LimitedInSync(style: Style, st: State, scrollback: nat)
    requires Synced(style, st) && AllFit(st.unformatted, st.cols)
    ensures Synced(style, Limited(st, scrollback))
  {
    hide FormatAll, Deleted, Indentation;
    var n := |st.unformatted|;
    if n > scrollback {
      DeletedInSync(style, st, n - scrollback);
    }
  }

  /** The formatted line at the top after a change of width, from the chat line that was there. */
  function Restored(style: Style, st: State, cols: nat): nat {
    var k := if AtBottom(st) || st.scroll <= 0 || st.scroll > |st.formatted| then 0
        else Firsts(st.formatted[..st.scroll]);
    if cols != st.cols && k < |st.unformatted| then StartOf(style, st.unformatted, cols, k) else 0
  }

  /** reformat */
  function Reformatted(style: Style, st: State, cols: nat, rows: nat): State {
    if cols == 0 || rows == 0 then st.(cols := 0, rows := 0, scroll := 0, formatted := [])
    else if cols == st.cols && rows == st.rows then st
    else
      var formatted := if cols != st.cols then FormatAll(style, st.unformatted, cols) else st.formatted;
      st.(cols := cols, rows := rows, formatted := formatted,
          scroll := if AtBottom(st) then Bottom(|formatted|, rows)
                    else Clamped(Restored(style, st, cols), |formatted|, rows))
  }

  lemma ReformattedKeeps(style: Style, st: State, cols: nat, rows: nat)
    requires Tidy(st)
    ensures Tidy(Reformatted(style, st, cols, rows))
    ensures InRange(st) ==> InRange(Reformatted(style, st, cols, rows))
    ensures Synced(style, st) ==> Synced(style, Reformatted(style, st, cols, rows))
  {
    FormatAllMarked(style, st.unformatted, cols);
    NothingMarked();
    hide FormatAll, Restored, StartsMarked;
  }

  // ---------------------------------------------------------------- any run

  datatype Op =
    | AddLine(line: ChatLine)
    | Clear
    | DeleteOldest(count: nat)
    | DeleteByAge(maxAge: real)
    | Resize(scrollback: nat)
    | Reformat(cols: nat, rows: nat)
    | Scroll(more: int)
    | Age(dtime: real)

  function Next(style: Style, st: State, op: Op): State {
    match op
    case AddLine(line) => Added(style, st, line)
    case Clear => st.(unformatted := [], formatted := [], scroll := 0)
    case DeleteOldest(count) => Deleted(st, count)
    case DeleteByAge(maxAge) => Deleted(st, Expired(st.unformatted, maxAge))
    case Resize(scrollback) => Limited(st, scrollback)
    case Reformat(cols, rows) => Reformatted(style, st, cols, rows)
    case Scroll(more) => st.(scroll := Clamped(st.scroll + more, |st.formatted|, st.rows))
    case Age(dtime) => st.(unformatted := Aged(st.unformatted, dtime))
  }

  /** Every operation keeps the marks in order, and all but `clear` keep the scroll position in range. */
  lemma NextIsTidy(style: Style, st: State, op: Op)
    requires Tidy(st)
    ensures Tidy(Next(style, st, op))
    ensures InRange(st) && !op.Clear? ==> InRange(Next(style, st, op))
  {
    hide Deleted, Limited, Appended, Reformatted, StartsMarked;
    match op
    case AddLine(line) =>
      AppendedKeeps(style, st, line);
      LimitedKeeps(style, Appended(style, st, line), st.scrollback);
    case Clear => NothingMarked();
    case DeleteOldest(count) => DeletedIsTidy(st, count);
    case DeleteByAge(maxAge) => DeletedIsTidy(st, Expired(st.unformatted, maxAge));
    case Resize(scrollback) => LimitedKeeps(style, st, scrollback);
    case Reformat(cols, rows) => ReformattedKeeps(style, st, cols, rows);
    case Scroll(_) =>
    case Age(_) =>
  }

  lemma NothingMarked()
    ensures StartsMarked([])
  {
  }

  predicate Plain(line: ChatLine) {
    Sanitized(line.name) == line.name
  }

  predicate AllPlain(lines: seq<ChatLine>) {
    forall i :: 0 <= i < |lines| ==> Plain(lines[i])
  }

  lemma PlainSlice(lines: seq<ChatLine>, line: ChatLine, k: nat)
    requires AllPlain(lines) && k <= |lines| + 1
    ensures Plain(line) ==> AllPlain((lines + [line])[k..])
    ensures k <= |lines| ==> AllPlain(lines[k..])
  {
    hide Plain;
  }

  /** Names without NUL characters, and consoles of at least three columns. */
  predicate Allowed(op: Op) {
    && (op.AddLine? ==> Plain(op.line))
    && (op.Reformat? ==> op.cols == 0 || op.cols >= 3)
  }

  /** The cache is right, whatever allowed lines and widths come next. */
  ghost predicate Sound(style: Style, st: State) {
    && Tidy(st) && Synced(style, st)
    && (st.cols == 0 || st.cols >= 3)
    && AllPlain(st.unformatted)
  }

  lemma PlainFits(lines: seq<ChatLine>, cols: nat)
    requires cols >= 3 && AllPlain(lines)
    ensures AllFit(lines, cols)
  {
    forall i | 0 <= i < |lines|
      ensures Indentation(lines[i], cols) < cols
    {
      WideEnough(lines[i], cols);
    }
  }

  lemma AddIsSound(style: Style, st: State, line: ChatLine)
    requires Sound(style, st) && Allowed(AddLine(line))
    ensures Sound(style, Added(style, st, line))
  {
    var mid := Appended(style, st, line);
    assert mid.unformatted == st.unformatted + [line] && mid.cols == st.cols;
    hide Plain, AllPlain, Appended, Tidy, Synced, Limited, AllFit;
    AppendedKeeps(style, st, line);
    PlainSlice(st.unformatted, line, 0);
    LimitIsSound(style, mid, st.scrollback);
  }

  lemma LimitIsSound(style: Style, st: State, scrollback: nat)
    requires Sound(style, st)
    ensures Sound(style, Limited(st, scrollback))
  {
    hide Plain, AllPlain, Limited, AllFit, StartsMarked;
    if st.rows > 0 {
      PlainFits(st.unformatted, st.cols);
    } else {
      NoRowsSynced(style, st, scrollback);
    }
    LimitedKeeps(style, st, scrollback);
    var n := |st.unformatted|;
    PlainSlice(st.unformatted, ChatLine("", "", 0.0), if n > scrollback then n - scrollback else 0);
  }

  lemma NoRowsSynced(style: Style, st: State, scrollback: nat)
    requires Tidy(st) && st.rows == 0
    ensures Synced(style, Limited(st, scrollback))
  {
    hide Deleted;
    if |st.unformatted| > scrollback {
      DeletedIsTidy(st, |st.unformatted| - scrollback);
    }
  }

  lemma DeleteIsSound(style: Style, st: State, count: nat)
    requires Sound(style, st)
    ensures Sound(style, Deleted(st, count))
  {
    hide Plain, AllPlain, Deleted, StartsMarked, Indentation;
    var k := AtMost(count, |st.unformatted|);
    DeletedIsTidy(st, count);
    DeletedInSync(style, st, count);
    if st.rows > 0 {
      PlainFits(st.unformatted, st.cols);
    }
    PlainSlice(st.unformatted, ChatLine("", "", 0.0), k);
  }

  lemma ReformatIsSound(style: Style, st: State, cols: nat, rows: nat)
    requires Sound(style, st) && Allowed(Reformat(cols, rows))
    ensures Sound(style, Reformatted(style, st, cols, rows))
  {
    ReformattedKeeps(style, st, cols, rows);
    hide Tidy, Synced, Plain, FormatAll, Restored, Clamped;
  }

  lemma AgeIsSound(style: Style, st: State, dtime: real)
    requires Sound(style, st)
    ensures Sound(style, Next(style, st, Age(dtime)))
  {
    hide FormatAll, StartsMarked;
    AgeDoesNotShow(style, st.unformatted, dtime, st.cols);
  }

  lemma ClearIsSound(style: Style, st: State)
    requires Sound(style, st)
    ensures Sound(style, Next(style, st, Clear))
    ensures InRange(Next(style, st, Clear)) <==> st.rows == 0
  {
    FormatAllNext(style, [], ChatLine("", "", 0.0), st.cols);
    hide FormatAll;
  }

  /** One operation keeps the cache right. */
  lemma NextIsSound(style: Style, st: State, op: Op)
    requires Sound(style, st) && Allowed(op)
    ensures Sound(style, Next(style, st, op))
  {
    hide Tidy, Synced, AllPlain, Deleted, Limited, Added, Reformatted;
    match op
    case AddLine(line) => AddIsSound(style, st, line);
    case Clear => ClearIsSound(style, st);
    case DeleteOldest(count) => DeleteIsSound(style, st, count);
    case DeleteByAge(maxAge) => DeleteIsSound(style, st, Expired(st.unformatted, maxAge));
    case Resize(scrollback) => LimitIsSound(style, st, scrollback);
    case Reformat(cols, rows) => ReformatIsSound(style, st, cols, rows);
    case Scroll(more) => ScrollIsSound(style, st, more);
    case Age(dtime) => AgeIsSound(style, st, dtime);
  }

  lemma ScrollIsSound(style: Style, st: State, more: int)
    requires Sound(style, st)
    ensures Sound(style, Next(style, st, Scroll(more)))
  {
    hide FormatAll, StartsMarked;
  }

  function RunOf(style: Style, st: State, ops: seq<Op>): State
    decreases |ops|
  {
    if ops == [] then st else RunOf(style, Next(style, st, ops[0]), ops[1..])
  }

  /** Over any run, of whatever lines and widths, the marks stay in order, so the sanity check never fails;
      and without `clear` the scroll position stays in range. */
  lemma {:induction false} RunIsTidy(style: Style, st: State, ops: seq<Op>)
    requires Tidy(st)
    ensures Tidy(RunOf(style, st, ops))
    ensures InRange(st) && (forall i :: 0 <= i < |ops| ==> !ops[i].Clear?) ==> InRange(RunOf(style, st, ops))
    decreases |ops|
  {
    hide Tidy, InRange, Next;
    if ops != [] {
      NextIsTidy(style, st, ops[0]);
      RunIsTidy(style, Next(style, st, ops[0]), ops[1..]);
    }
  }

  /** Over any run of allowed operations, `clear` included, the cache is what formatting every line gives. */
  lemma {:induction false} RunIsSound(style: Style, st: State, ops: seq<Op>)
    requires Sound(style, st) && forall i :: 0 <= i < |ops| ==> Allowed(ops[i])
    ensures Sound(style, RunOf(style, st, ops))
    decreases |ops|
  {
    hide Sound, Allowed, Next;
    if ops != [] {
      NextIsSound(style, st, ops[0]);
      RunIsSound(style, Next(style, st, ops[0]), ops[1..]);
    }
  }

  /** In two columns a named line has no room.  Deleting it deletes the server's line after it from the
      cache, which is then no longer right. */
  lemma UnfitLineBreaksCache(style: Style, st: State, text: string, rows: nat)
    requires st == State(2, [], 0, 0, 0, []) && rows > 0
    ensures var named, server := ChatLine("a", text, 0.0), ChatLine("", text, 0.0);
      var st' := Next(style, Next(style, Next(style, Next(style, st, Reformat(2, rows)), AddLine(named)),
                                  AddLine(server)), DeleteOldest(1));
      && st'.unformatted == [server] && st'.rows == rows && st'.formatted == []
      && !Synced(style, st')
  {
    var named, server := ChatLine("a", text, 0.0), ChatLine("", text, 0.0);
    hide Reformatted, Added, Deleted, Tidy, Synced, FormatAll, Indentation;
    NoRoom(text, 0.0);
    ServerHasRoom(text);
    var st1 := EmptyReformatted(style, st, rows);
    var st2 := AddedWithin(style, st1, named);
    var st3 := AddedWithin(style, st2, server);
    assert [] + [named] + [server] == [named, server];
    UnfitDeleted(style, st3, named, server);
  }

  lemma ServerHasRoom(text: string)
    ensures Indentation(ChatLine("", text, 0.0), 2) < 2
  {
  }

  lemma EmptyReformatted(style: Style, st: State, rows: nat) returns (st': State)
    requires st == State(2, [], 0, 0, 0, []) && rows > 0
    ensures st' == Reformatted(style, st, 2, rows)
    ensures st'.unformatted == [] && st'.scrollback == 2 && st'.cols == 2 && st'.rows == rows
    ensures Tidy(st') && Synced(style, st')
  {
    st' := Reformatted(style, st, 2, rows);
    ReformattedKeeps(style, st, 2, rows);
    hide Tidy, Synced, FormatAll, Restored;
  }

  lemma AddedWithin(style: Style, st: State, line: ChatLine) returns (st': State)
    requires Tidy(st) && Synced(style, st) && |st.unformatted| < st.scrollback
    ensures st' == Added(style, st, line)
    ensures st'.unformatted == st.unformatted + [line] && st'.scrollback == st.scrollback && st'.cols == st.cols
    ensures st'.rows == st.rows
    ensures Tidy(st') && Synced(style, st')
  {
    st' := Added(style, st, line);
    AppendedKeeps(style, st, line);
    hide Tidy, Synced, Format;
  }

  lemma UnfitDeleted(style: Style, st: State, named: ChatLine, server: ChatLine)
    requires Tidy(st) && Synced(style, st) && st.rows > 0 && st.cols == 2 && st.unformatted == [named, server]
    requires Indentation(named, 2) >= 2 && Indentation(server, 2) < 2
    ensures var st' := Deleted(st, 1);
      st'.unformatted == [server] && st'.rows == st.rows && st'.formatted == [] && !Synced(style, st')
  {
    var lines := st.unformatted;
    assert lines[..0] == [] && lines[..1] == [named] && lines[..2] == lines && lines[1..] == [server];
    assert st.formatted == FormatAll(style, lines, 2);
    hide Tidy, Synced, FormatAll, Skip, StartOf, Indentation;
    DeletedIsTidy(st, 1);
    DeletedInSync(style, st, 1);
    assert !AllFit([named], 2) && !NoneFit([server], 2) by {
      assert [named][0] == named && [server][0] == server;
    }
    FitCountNext(lines, 2, 0);
    FitCountNext(lines, 2, 1);
    SkipToStart(style, lines, 2, 2);
    StartEnds(style, lines, 2);
  }

  // ---------------------------------------------------------------- what a change of width restores

  lemma {:induction false} FirstsBoth(a: seq<FormattedLine>, b: seq<FormattedLine>)
    ensures Firsts(a + b) == Firsts(a) + Firsts(b)
  {
    if b == [] {
      assert a + b == a;
    } else {
      var n := |b| - 1;
      FirstsBoth(a, b[..n]);
      assert (a + b)[..|a| + n] == a + b[..n];
    }
  }

  lemma {:induction false} FirstsOfLine(part: seq<FormattedLine>)
    requires forall i :: 0 <= i < |part| ==> part[i].first == (i == 0)
    ensures Firsts(part) == if part == [] then 0 else 1
  {
    if part != [] {
      FirstsOfLine(part[..|part| - 1]);
    }
  }

  lemma {:induction false} FirstsOfAll(style: Style, lines: seq<ChatLine>, cols: nat)
    requires AllFit(lines, cols)
    ensures Firsts(FormatAll(style, lines, cols)) == |lines|
  {
    if lines != [] {
      var n := |lines| - 1;
      FirstsOfAll(style, lines[..n], cols);
      FormatMarks(style, lines[n], cols);
      FirstsOfLine(Format(style, lines[n], cols));
      FirstsBoth(FormatAll(style, lines[..n], cols), Format(style, lines[n], cols));
      hide Format, Firsts, Indentation;
    }
  }

  lemma StartOfFront(style: Style, lines: seq<ChatLine>, cols: nat, n: nat, k: nat)
    requires k <= n <= |lines|
    ensures StartOf(style, lines[..n], cols, k) == StartOf(style, lines, cols, k)
  {
    assert lines[..n][..k] == lines[..k];
  }

  lemma LastStarts(style: Style, lines: seq<ChatLine>, cols: nat)
    requires lines != []
    ensures var n := |lines| - 1;
      && FormatAll(style, lines, cols) == FormatAll(style, lines[..n], cols) + Format(style, lines[n], cols)
      && StartOf(style, lines, cols, n) == |FormatAll(style, lines[..n], cols)|
      && StartOf(style, lines, cols, n + 1) == |FormatAll(style, lines, cols)|
  {
    StartEnds(style, lines, cols);
  }

  /** Row `row` lies behind the start of line `k - 1` and not behind the start of line `k`. */
  predicate Locates(style: Style, lines: seq<ChatLine>, cols: nat, row: nat, k: nat) {
    k <= |lines| && row <= StartOf(style, lines, cols, k) && (k > 0 ==> StartOf(style, lines, cols, k - 1) < row)
  }

  lemma LocatedInFront(style: Style, lines: seq<ChatLine>, cols: nat, n: nat, row: nat, k: nat)
    requires n <= |lines| && Locates(style, lines[..n], cols, row, k)
    ensures Locates(style, lines, cols, row, k)
  {
    StartOfFront(style, lines, cols, n, k);
    if k > 0 {
      StartOfFront(style, lines, cols, n, k - 1);
    }
    hide StartOf;
  }

  lemma AllFitLast(lines: seq<ChatLine>, cols: nat)
    requires AllFit(lines, cols) && lines != []
    ensures Indentation(lines[|lines| - 1], cols) < cols && AllFit(lines[..|lines| - 1], cols)
  {
    hide Indentation;
  }

  lemma CountedBehind(style: Style, lines: seq<ChatLine>, cols: nat, front: seq<FormattedLine>,
                      last: seq<FormattedLine>, row: nat)
    requires AllFit(lines, cols) && lines != []
    requires front == FormatAll(style, lines[..|lines| - 1], cols) && last == Format(style, lines[|lines| - 1], cols)
    requires |front| < row <= |front| + |last|
    ensures Firsts((front + last)[..row]) == |lines|
  {
    hide *;
    var n := |lines| - 1;
    AllFitLast(lines, cols);
    var part := last[..row - |front|];
    FirstsOfAll(style, lines[..n], cols);
    FormatMarks(style, lines[n], cols);
    FirstsOfLine(part);
    FirstsBoth(front, part);
    assert (front + last)[..row] == front + part;
  }

  /** Counting marks finds the first chat line that starts at or below a row. */
  lemma {:induction false} FirstsLocate(style: Style, lines: seq<ChatLine>, cols: nat, row: nat)
    requires AllFit(lines, cols) && row <= |FormatAll(style, lines, cols)|
    ensures Locates(style, lines, cols, row, Firsts(FormatAll(style, lines, cols)[..row]))
  {
    if lines == [] {
      StartEnds(style, lines, cols);
    } else {
      var n := |lines| - 1;
      LastStarts(style, lines, cols);
      var front, last := FormatAll(style, lines[..n], cols), Format(style, lines[n], cols);
      hide FormatAll, Format, StartOf, Firsts, Indentation;
      if row <= |front| {
        FirstsLocate(style, lines[..n], cols, row);
        assert (front + last)[..row] == front[..row];
        LocatedInFront(style, lines, cols, n, row, Firsts(front[..row]));
      } else {
        CountedBehind(style, lines, cols, front, last, row);
      }
    }
  }

  // ---------------------------------------------------------------- steps of the methods

  lemma DeletedIs(st: State, count: nat, k: nat, d: nat)
    requires k <= count && k <= |st.unformatted| && (k == count || k == |st.unformatted|)
    requires d == Skip(st.formatted, k)
    ensures Deleted(st, count) == State(
      st.scrollback, st.unformatted[k..], st.cols, st.rows,
      if st.scroll == Bottom(|st.formatted|, st.rows) then Bottom(|st.formatted[d..]|, st.rows)
      else Clamped(st.scroll - d, |st.formatted[d..]|, st.rows),
      st.formatted[d..])
  {
    hide Skip;
  }

  lemma AddedIs(style: Style, st: State, line: ChatLine)
    ensures Added(style, st, line) == Limited(Appended(style, st, line), st.scrollback)
  {
    hide Limited, Appended;
  }

  lemma AppendedIs(style: Style, st: State, line: ChatLine)
    ensures var f := Format(style, line, st.cols);
      Appended(style, st, line) ==
        if st.rows == 0 then State(st.scrollback, st.unformatted + [line], st.cols, st.rows, st.scroll, st.formatted)
        else State(st.scrollback, st.unformatted + [line], st.cols, st.rows,
          if st.scroll == Bottom(|st.formatted|, st.rows) then st.scroll + |f| else st.scroll, st.formatted + f)
  {
    hide Format;
  }

  lemma LimitedIs(st: State, scrollback: nat)
    requires Tidy(st)
    ensures var st' := st.(scrollback := scrollback);
      && Tidy(st')
      && Limited(st, scrollback) ==
        if |st.unformatted| > scrollback then Deleted(st', |st.unformatted| - scrollback) else st'
  {
    hide Skip, Clamped, Bottom, StartsMarked;
  }

  lemma ReformattedIs(style: Style, st: State, cols: nat, rows: nat)
    requires Tidy(st)
    ensures var bottom := st.scroll == Bottom(|st.formatted|, st.rows);
      var k := if bottom || st.scroll <= 0 then 0 else Firsts(st.formatted[..st.scroll]);
      var f := if cols != st.cols then FormatAll(style, st.unformatted, cols) else st.formatted;
      var row := if cols != st.cols && k < |st.unformatted| then StartOf(style, st.unformatted, cols, k) else 0;
      Reformatted(style, st, cols, rows) ==
        if cols == 0 || rows == 0 then State(st.scrollback, st.unformatted, 0, 0, 0, [])
        else if cols == st.cols && rows == st.rows then st
        else State(st.scrollback, st.unformatted, cols, rows,
          if bottom then Bottom(|f|, rows) else Clamped(row, |f|, rows), f)
  {
    hide FormatAll, StartOf, Firsts, StartsMarked;
  }

  lemma AgedStarts(was: seq<ChatLine>, dtime: real)
    ensures Aged(was[..0], dtime) + was[0..] == was
  {
  }

  lemma AgedStep(was: seq<ChatLine>, i: nat, dtime: real)
    requires i < |was|
    ensures var now := Aged(was[..i], dtime) + was[i..];
      now[i := now[i].(age := now[i].age + dtime)] == Aged(was[..i + 1], dtime) + was[i + 1..]
  {
  }

  lemma AgedEnds(was: seq<ChatLine>, dtime: real)
    ensures Aged(was[..|was|], dtime) + was[|was|..] == Aged(was, dtime)
  {
    assert was[..|was|] == was;
  }

  // ---------------------------------------------------------------- the buffer object

  class ChatBuffer {
    const style: Style
    var scrollback: nat
    var unformatted: seq<ChatLine>
    var cols: nat
    var rows: nat
    var scroll: int
    var formatted: seq<FormattedLine>
    var linesModified: bool

    ghost function Contents(): State
      reads this
    {
      State(scrollback, unformatted, cols, rows, scroll, formatted)
    }

    ghost predicate Valid()
      reads this
    {
      Tidy(Contents())
    }

    constructor (scrollback: nat, style: Style)
      ensures Valid() && unformatted == [] && rows == 0 && this.scrollback > 0 && this.style == style
      ensures Sound(style, Contents()) && InRange(Contents())
    {
      this.style := style;
      this.scrollback := if scrollback == 0 then 1 else scrollback;
      unformatted, cols, rows, scroll, formatted, linesModified := [], 0, 0, 0, [], true;
    }

    method GetTopScrollPos() returns (r: int)
      ensures r == Top(|formatted|, rows)
    {
      if rows == 0 {
        return 0;
      }
      if |formatted| <= rows {
        return |formatted| - rows;
      }
      return 0;
    }

    method GetBottomScrollPos() returns (r: int)
      ensures r == Bottom(|formatted|, rows)
    {
      if rows == 0 {
        return 0;
      }
      return |formatted| - rows;
    }

    method ScrollAbsolute(to: int)
      modifies `scroll
      ensures scroll == Clamped(to, |formatted|, rows)
    {
      var top := GetTopScrollPos();
      var bottom := GetBottomScrollPos();
      scroll := to;
      if scroll < top {
        scroll := top;
      }
      if scroll > bottom {
        scroll := bottom;
      }
    }

    method Scroll(more: int)
      modifies `scroll
      ensures scroll == Clamped(old(scroll) + more, |formatted|, rows)
    {
      ScrollAbsolute(scroll + more);
    }

    method ScrollBottom()
      modifies `scroll
      ensures scroll == Bottom(|formatted|, rows)
    {
      scroll := GetBottomScrollPos();
    }

    /** The formatted line shown in a row; an empty one above the first and below the last. */
    method GetFormattedLine(row: nat) returns (r: FormattedLine)
      requires Valid() && Synced(style, Contents())
      ensures rows > 0 ==>
        var all := FormatAll(style, unformatted, cols);
        r == if 0 <= scroll + row < |all| then all[scroll + row] else FormattedLine([], true)
      ensures rows == 0 ==> r == FormattedLine([], true)
    {
      hide FormatAll, StartsMarked;
      var index := scroll + row;
      if index >= 0 && index < |formatted| {
        return formatted[index];
      }
      return FormattedLine([], true);
    }

    /** The check on the marks of the cache cannot fail. */
    method DeleteOldest(count: nat)
      requires Valid()
      modifies this
      ensures Valid() && Contents() == Deleted(old(Contents()), count)
      ensures linesModified == (old(linesModified) || (count > 0 && old(unformatted) != []))
    {
      hide *;
      ghost var st := Contents();
      ContentsIs();
      TidyShape(st);
      DeletedIsTidy(st, count);
      var bottom := GetBottomScrollPos();
      var atBottom := scroll == bottom;
      var delUnformatted: nat, delFormatted: nat, left := 0, 0, count;
      SkipNext(formatted, 0);
      while left > 0 && delUnformatted < |unformatted|
        invariant unchanged(this)
        invariant delUnformatted <= |unformatted| && left == count - delUnformatted
        invariant delFormatted == Skip(formatted, delUnformatted) <= |formatted|
      {
        SkipNext(formatted, delUnformatted);
        // keep the cache in sync
        if delFormatted < |formatted| {
          SkipMarked(formatted, delUnformatted);
          assert formatted[delFormatted].first;  // the sanity check of the program
          delFormatted := ToNextMark(delFormatted + 1);
        }
        delUnformatted := delUnformatted + 1;
        left := left - 1;
      }
      assert delUnformatted > 0 <==> count > 0 && unformatted != [];
      DeletedIs(st, count, delUnformatted, delFormatted);
      unformatted := unformatted[delUnformatted..];
      formatted := formatted[delFormatted..];
      if delUnformatted > 0 {
        linesModified := true;
      }
      if atBottom {
        scroll := GetBottomScrollPos();
      } else {
        ScrollAbsolute(scroll - delFormatted);
      }
      ContentsIs();
    }

    /** Skips the formatted lines up to the next mark. */
    method ToNextMark(start: nat) returns (d: nat)
      requires start <= |formatted|
      ensures d == NextMark(formatted, start)
    {
      d := start;
      while d < |formatted| && !formatted[d].first
        invariant start <= d <= |formatted| && NextMark(formatted, start) == NextMark(formatted, d)
      {
        d := d + 1;
      }
    }

    lemma ContentsIs()
      ensures Contents() == State(scrollback, unformatted, cols, rows, scroll, formatted)
      ensures Valid() <==> Tidy(Contents())
    {
    }

    method DeleteByAge(maxAge: real)
      requires Valid()
      modifies this
      ensures Valid() && Contents() == Deleted(old(Contents()), Expired(old(unformatted), maxAge))
    {
      var count: nat := 0;
      while count < |unformatted| && unformatted[count].age > maxAge
        invariant count <= Expired(unformatted, maxAge)
      {
        count := count + 1;
      }
      assert count == Expired(unformatted, maxAge);
      hide *;
      DeleteOldest(count);
    }

    method AddLine(name: string, text: string)
      requires Valid()
      modifies this
      ensures Valid() && Contents() == Added(style, old(Contents()), ChatLine(name, text, 0.0)) && linesModified
      ensures |unformatted| <= scrollback
    {
      hide *;
      ghost var st := Contents();
      ContentsIs();
      var line := ChatLine(name, text, 0.0);
      AppendedKeeps(style, st, line);
      AppendedIs(style, st, line);
      LimitedKeeps(style, Appended(style, st, line), scrollback);
      AddedIs(style, st, line);
      linesModified := true;
      unformatted := unformatted + [line];
      if rows > 0 {
        var bottom := GetBottomScrollPos();
        var scrolledAtBottom := scroll == bottom;
        var numAdded;
        formatted, numAdded := FormatChatLine(style, line, cols, formatted);
        if scrolledAtBottom {
          scroll := scroll + numAdded;
        }
      }
      ContentsIs();
      ghost var mid := Contents();
      assert mid == Appended(style, st, line);
      LimitedIs(mid, scrollback);
      if |unformatted| > scrollback {
        DeleteOldest(|unformatted| - scrollback);
      }
      ContentsIs();
    }

    method Resize(scrollback: nat)
      requires Valid()
      modifies this
      ensures Valid() && Contents() == Limited(old(Contents()), scrollback)
      ensures |unformatted| <= this.scrollback == scrollback
    {
      hide *;
      ghost var st := Contents();
      ContentsIs();
      LimitedKeeps(style, st, scrollback);
      LimitedIs(st, scrollback);
      this.scrollback := scrollback;
      ContentsIs();
      if |unformatted| > this.scrollback {
        DeleteOldest(|unformatted| - this.scrollback);
      }
      ContentsIs();
    }

    method Reformat(cols: nat, rows: nat)
      requires Valid()
      modifies this
      ensures Valid() && Contents() == Reformatted(style, old(Contents()), cols, rows)
    {
      hide *;
      ghost var st := Contents();
      ContentsIs();
      ReformattedKeeps(style, st, cols, rows);
      ReformattedIs(style, st, cols, rows);
      TidyShape(st);
      if cols == 0 || rows == 0 {
        this.cols, this.rows, scroll, formatted := 0, 0, 0, [];
      } else if cols != this.cols || rows != this.rows {
        var restoreScrollUnformatted: nat, restoreScrollFormatted: nat := 0, 0;
        var bottom := GetBottomScrollPos();
        var atBottom := scroll == bottom;
        if !atBottom {
          restoreScrollUnformatted := CountFirsts();
        }
        if cols != this.cols {
          formatted, restoreScrollFormatted := FormatLines(cols, restoreScrollUnformatted);
        }
        this.cols, this.rows := cols, rows;
        if atBottom {
          ScrollBottom();
        } else {
          ScrollAbsolute(restoreScrollFormatted);
        }
      }
      ContentsIs();
    }

    /** How many chat lines start above the scroll position. */
    method CountFirsts() returns (n: nat)
      requires scroll <= |formatted|
      ensures n == if scroll <= 0 then 0 else Firsts(formatted[..scroll])
    {
      n := 0;
      var i := 0;
      while i < scroll
        invariant 0 <= i <= scroll || (scroll < 0 && i == 0)
        invariant n == Firsts(formatted[..i])
      {
        assert formatted[..i + 1][..i] == formatted[..i];
        if formatted[i].first {
          n := n + 1;
        }
        i := i + 1;
      }
    }

    /** All lines formatted for a width, and where line `k` starts. */
    method FormatLines(width: nat, k: nat) returns (result: seq<FormattedLine>, start: nat)
      ensures result == FormatAll(style, unformatted, width)
      ensures start == if k < |unformatted| then StartOf(style, unformatted, width, k) else 0
    {
      hide *;
      result, start := [], 0;
      StartsEmpty();
      for i := 0 to |unformatted|
        invariant result == FormatAll(style, unformatted[..i], width)
        invariant start == if k < i then StartOf(style, unformatted, width, k) else 0
      {
        assert unformatted[..i + 1] == unformatted[..i] + [unformatted[i]];
        FormatAllNext(style, unformatted[..i], unformatted[i], width);
        if i == k {
          StartIs(i, width);
          start := |result|;
        }
        var num;
        result, num := FormatChatLine(style, unformatted[i], width, result);
      }
      assert unformatted[..|unformatted|] == unformatted;
    }

    lemma StartsEmpty()
      ensures forall width :: FormatAll(style, unformatted[..0], width) == []
    {
    }

    lemma StartIs(i: nat, width: nat)
      requires i <= |unformatted|
      ensures StartOf(style, unformatted, width, i) == |FormatAll(style, unformatted[..i], width)|
    {
    }

    method Step(dtime: real)
      requires Valid()
      modifies `unformatted
      ensures Valid() && unformatted == Aged(old(unformatted), dtime)
      ensures old(Synced(style, Contents())) ==> Synced(style, Contents())
    {
      hide FormatAll, Aged, StartsMarked;
      ghost var was := unformatted;
      AgedStarts(was, dtime);
      var i := 0;
      while i < |unformatted|
        invariant 0 <= i <= |was| == |unformatted|
        invariant unformatted == Aged(was[..i], dtime) + was[i..]
      {
        AgedStep(was, i, dtime);
        unformatted := unformatted[i := unformatted[i].(age := unformatted[i].age + dtime)];
        i := i + 1;
      }
      AgedEnds(was, dtime);
      AgeDoesNotShow(style, was, dtime, cols);
    }

    /** Empties the buffer; the scroll position is then out of range whenever the console has rows. */
    method Clear()
      requires Valid()
      modifies this
      ensures Valid() && linesModified
      ensures Contents() == old(Contents()).(unformatted := [], formatted := [], scroll := 0)
      ensures InRange(Contents()) <==> rows == 0
    {
      unformatted, formatted, scroll, linesModified := [], [], 0, true;
    }
  }
}
