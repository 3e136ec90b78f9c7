/**
 What the chat console shows (src/chat.cpp, ChatBuffer): which formatted lines are in its rows at the bottom and at
 the top, and what stays in view.
 */
module ChatView {

  import opened ChatFormat
  import opened ChatBuffers

  /** The place of the line in a row among the formatted lines. */
  function Place(st: State, row: nat): int {
    st.scroll + row
  }

  function Shown(st: State, row: nat): FormattedLine {
    if 0 <= Place(st, row) < |st.formatted| then st.formatted[Place(st, row)] else FormattedLine([], true)
  }

  /** Some row shows line `i`. */
  predicate InView(st: State, i: int) {
    0 <= i - st.scroll < st.rows
  }

  /** At the bottom, and only there, the newest line is in the last row, and each row above shows the one before. */
  lemma BottomShowsNewest(st: State)
    requires st.rows > 0 && st.formatted != []
    ensures AtBottom(st) <==> Place(st, st.rows - 1) == |st.formatted| - 1
    ensures AtBottom(st) ==>
              forall row: nat :: row < st.rows ==>
                var i := |st.formatted| + row - st.rows;
                Shown(st, row) == if i >= 0 then st.formatted[i] else FormattedLine([], true)
  {
  }

  /** At the top the oldest line is in the first row, unless all lines fit: then they are all in view. */
  lemma TopShowsOldest(st: State)
    requires st.rows > 0 && st.scroll == Top(|st.formatted|, st.rows)
    ensures |st.formatted| > st.rows ==> Shown(st, 0) == st.formatted[0]
    ensures |st.formatted| <= st.rows ==>
              forall i :: 0 <= i < |st.formatted| ==> InView(st, i)
  {
  }

  /** In range means that the last row shows a line, and none of the rows is in front of the lines if there are enough
      to fill all rows. */
  lemma InRangeFillsRows(st: State)
    requires st.rows > 0
    ensures InRange(st) <==>
              && Place(st, st.rows - 1) < |st.formatted|
              && (|st.formatted| > st.rows ==> 0 <= Place(st, 0))
              && (|st.formatted| <= st.rows ==> Place(st, st.rows - 1) == |st.formatted| - 1)
  {
  }

  /** A console at the bottom stays there, unless it is scrolled up or cleared. */
  lemma StaysAtBottom(style: Style, st: State, op: Op)
    requires Tidy(st) && AtBottom(st) && !op.Clear? && (op.Scroll? ==> op.more >= 0)
    ensures AtBottom(Next(style, st, op))
  {
    hide Skip, Format, FormatAll, StartsMarked, Restored;
  }

  /** So over any such run the newest line stays in the last row. */
  lemma {:induction false} RunStaysAtBottom(style: Style, st: State, ops: seq<Op>)
    requires Tidy(st) && AtBottom(st)
    requires forall i :: 0 <= i < |ops| ==> !ops[i].Clear? && (ops[i].Scroll? ==> ops[i].more >= 0)
    ensures AtBottom(RunOf(style, st, ops))
    decreases |ops|
  {
    hide Tidy, AtBottom, Next;
    if ops != [] {
      NextIsTidy(style, st, ops[0]);
      StaysAtBottom(style, st, ops[0]);
      RunStaysAtBottom(style, Next(style, st, ops[0]), ops[1..]);
    }
  }

  /** Otherwise what is in view stays in the same rows when a line is added within the limit, */
  lemma AddedBelowView(style: Style, st: State, line: ChatLine, row: nat)
    requires !AtBottom(st) && |st.unformatted| < st.scrollback && 0 <= Place(st, row) < |st.formatted|
    ensures Shown(Next(style, st, AddLine(line)), row) == Shown(st, row)
  {
    hide Format;
  }

  /** and when old lines above it are deleted. */
  lemma DeletedAboveView(style: Style, st: State, count: nat, row: nat)
    requires InRange(st) && !AtBottom(st) && 0 <= Place(st, row) < |st.formatted| && st.rows > 0
    requires Skip(st.formatted, AtMost(count, |st.unformatted|)) <= st.scroll
    ensures Shown(Next(style, st, DeleteOldest(count)), row) == Shown(st, row)
  {
    hide Skip;
  }

  /** After a change of width the first row shows the start of the chat line that was the first to start in view or
      below its top, unless that is too near to the end. */
  lemma NewWidthKeepsLine(style: Style, st: State, cols: nat, rows: nat) returns (k: nat)
    requires Synced(style, st) && st.rows > 0 && AllFit(st.unformatted, st.cols)
    requires 0 < st.scroll <= |st.formatted| && !AtBottom(st)
    requires cols > 0 && rows > 0 && cols != st.cols
    ensures k <= |st.unformatted| && Locates(style, st.unformatted, st.cols, st.scroll, k)
    ensures var st' := Next(style, st, Reformat(cols, rows));
      k < |st.unformatted| && StartOf(style, st.unformatted, cols, k) <= Bottom(|st'.formatted|, rows) ==>
        Place(st', 0) == StartOf(style, st.unformatted, cols, k)
  {
    hide *;
    k := LineInView(style, st);
    LocatesWithin(style, st.unformatted, st.cols, st.scroll, k);
    NewTop(style, st, cols, rows, k);
  }

  lemma LineInView(style: Style, st: State) returns (k: nat)
    requires Synced(style, st) && st.rows > 0 && AllFit(st.unformatted, st.cols) && 0 < st.scroll <= |st.formatted|
    ensures k == Firsts(st.formatted[..st.scroll]) && Locates(style, st.unformatted, st.cols, st.scroll, k)
  {
    FirstsLocate(style, st.unformatted, st.cols, st.scroll);
    k := Firsts(st.formatted[..st.scroll]);
    hide FormatAll, Firsts, Locates;
  }

  lemma NewTop(style: Style, st: State, cols: nat, rows: nat, k: nat)
    requires 0 < st.scroll <= |st.formatted| && !AtBottom(st) && k == Firsts(st.formatted[..st.scroll])
    requires cols > 0 && rows > 0 && cols != st.cols && k <= |st.unformatted|
    ensures var st' := Next(style, st, Reformat(cols, rows));
      k < |st.unformatted| && StartOf(style, st.unformatted, cols, k) <= Bottom(|st'.formatted|, rows) ==>
        Place(st', 0) == StartOf(style, st.unformatted, cols, k)
  {
    hide FormatAll, StartOf, Firsts, AtBottom;
  }

  lemma LocatesWithin(style: Style, lines: seq<ChatLine>, cols: nat, row: nat, k: nat)
    requires Locates(style, lines, cols, row, k)
    ensures k <= |lines|
  {
  }
}
