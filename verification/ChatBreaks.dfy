/**
 Where the formatted lines of a chat line end (src/chat.cpp, ChatBuffer::formatChatLine): after white space, at the
 last column, or in a link.
 */
module ChatBreaks {

  import opened ChatFormat

  /** A good end for a line: `piece` is the last fragment on it, up to column `col`, and `end` the place in the text. */
  ghost predicate GoodEnd(style: Style, text: string, piece: string, link: bool, end: int, col: int, cols: nat) {
    || link
    || (&& piece != "" && style.isSpace(piece[|piece| - 1])
        && forall i :: end <= i < end + (cols - col) ==> 0 <= i < |text| && !style.isSpace(text[i]))
    || (col == cols && forall i :: 0 < i < |piece| ==> !style.isSpace(piece[i]))
  }

  /** A line ends in a link, or after the last white space that fits, or at the last column because there is no white
      space to break at. */
  ghost predicate EndsWell(style: Style, text: string, line: FormattedLine, end: int, cols: nat, indent: nat) {
    && line.fragments != []
    && var last := line.fragments[|line.fragments| - 1];
       GoodEnd(style, text, last.text, last.weblink != "", end,
               EndColumn(line.fragments, StartColumn(line, indent)), cols)
  }

  /** How far in the text the first `n` lines go, behind a prefix of `p` characters. */
  ghost function TextEnd(lines: seq<FormattedLine>, n: nat, p: nat): int
    requires n <= |lines|
  {
    |TextOfLines(lines[..n])| - p
  }

  /** A line inside the prefix, or the very last one, or one that ends well. */
  ghost predicate LineOk(style: Style, text: string, lay: Layout, p: nat, i: nat, cols: nat, indent: nat)
    requires i < |lay.lines|
  {
    var end := TextEnd(lay.lines, i + 1, p);
    || end <= 0
    || (end == |text| && i == |lay.lines| - 1 && lay.line.fragments == [])
    || (end != |text| && EndsWell(style, text, lay.lines[i], end, cols, indent))
  }

  /** The prefix and `pos` characters of the text have been laid out, and all lines so far end well. */
  ghost predicate Settled(style: Style, text: string, lay: Layout, p: nat, pos: nat, cols: nat, indent: nat) {
    && Shape(lay, cols, indent) && indent < cols
    && pos <= |text| && |TextSoFar(lay)| == p + pos
    && forall i :: 0 <= i < |lay.lines| ==> LineOk(style, text, lay, p, i, cols, indent)
  }

  lemma {:induction false} TextGrows(lines: seq<FormattedLine>, n: nat)
    requires n <= |lines|
    ensures |TextOfLines(lines[..n])| <= |TextOfLines(lines)|
    decreases |lines|
  {
    if n == |lines| {
      assert lines[..n] == lines;
    } else {
      assert lines[..|lines| - 1][..n] == lines[..n];
      TextGrows(lines[..|lines| - 1], n);
    }
  }

  lemma LinesBehind(lay: Layout, p: nat, i: nat, pos: nat)
    requires i < |lay.lines| && |TextSoFar(lay)| == p + pos
    ensures TextEnd(lay.lines, i + 1, p) <= pos
  {
    TextGrows(lay.lines, i + 1);
  }

  /** The line that a fragment ends, if it does. */
  function Filled(lay: Layout, f: Fragment): FormattedLine {
    lay.line.(fragments := lay.line.fragments + [f.(column := lay.column)])
  }

  lemma FilledEndsWell(style: Style, text: string, lay: Layout, f: Fragment, end: int, cols: nat, indent: nat)
    requires Shape(lay, cols, indent)
    requires GoodEnd(style, text, f.text, f.weblink != "", end, lay.column + |f.text|, cols)
    ensures EndsWell(style, text, Filled(lay, f), end, cols, indent)
  {
    var g := f.(column := lay.column);
    RunsOn(lay.line.fragments, g, StartColumn(lay.line, indent));
    hide Runs, EndColumn, GoodEnd;
    assert StartColumn(Filled(lay, f), indent) == StartColumn(lay.line, indent);
  }

  lemma PutCases(lay: Layout, f: Fragment, cols: nat, indent: nat, newline: bool)
    ensures var lay' := Put(lay, f, cols, indent, newline);
      if lay.column + |f.text| == cols || newline
      then lay'.lines == lay.lines + [Filled(lay, f)] && lay'.line.fragments == []
      else lay'.lines == lay.lines && lay'.line.fragments != [] && lay'.column == lay.column + |f.text|
  {
  }

  /** Putting one more fragment of the text. */
  lemma PutSettled(style: Style, text: string, lay: Layout, f: Fragment, p: nat, pos: nat, cols: nat, indent: nat,
                   newline: bool)
    requires Settled(style, text, lay, p, pos, cols, indent) && Fits(lay, f, cols)
    requires pos + |f.text| <= |text| && (pos < |text| || lay.line.fragments != [])
    requires lay.column + |f.text| == cols || newline ==>
               || pos + |f.text| == |text|
               || GoodEnd(style, text, f.text, f.weblink != "", pos + |f.text|, lay.column + |f.text|, cols)
    ensures Settled(style, text, Put(lay, f, cols, indent, newline), p, pos + |f.text|, cols, indent)
  {
    hide Shape, GoodEnd, EndsWell, Put, TextOfLines, TextOf, TextSoFar, Fits;
    var lay' := Put(lay, f, cols, indent, newline);
    PutShape(lay, f, cols, indent, newline);
    PutText(lay, f, cols, indent, newline);
    PutCases(lay, f, cols, indent, newline);
    forall i | 0 <= i < |lay'.lines| ensures LineOk(style, text, lay', p, i, cols, indent) {
      if i < |lay.lines| {
        assert lay'.lines[..i + 1] == lay.lines[..i + 1];
        LinesBehind(lay, p, i, pos);
        assert LineOk(style, text, lay, p, i, cols, indent);
      } else {
        assert lay'.lines[..i + 1] == lay'.lines;
        EndedText(lay');
        if pos + |f.text| != |text| {
          FilledEndsWell(style, text, lay, f, pos + |f.text|, cols, indent);
        }
      }
    }
  }

  lemma EndedText(lay: Layout)
    requires lay.line.fragments == []
    ensures TextSoFar(lay) == TextOfLines(lay.lines)
  {
    assert TextOf([]) == "";
  }

  /** Placing a link, which is split over as many lines as it takes. */
  lemma {:induction false} LinkSettled(style: Style, text: string, lay: Layout, f: Fragment, p: nat, pos: nat,
                                       cols: nat, indent: nat)
    requires Settled(style, text, lay, p, pos, cols, indent) && 0 <= lay.column < cols
    requires f.weblink != "" && f.text != "" && pos + |f.text| <= |text|
    ensures Settled(style, text, Place(lay, [f], cols, indent), p, pos + |f.text|, cols, indent)
    decreases |f.text|
  {
    hide *;
    SettledMeans(style, text, lay, p, pos, cols, indent);
    assert [f] == [f] + [];
    PlaceNext(lay, f, [], cols, indent);
    var newline := f.column == INT_MAX;
    if Fits(lay, f, cols) {
      var lay' := Put(lay, f, cols, indent, newline);
      LinkIsGood(style, text, f, pos + |f.text|, lay.column + |f.text|, cols);
      PutSettled(style, text, lay, f, p, pos, cols, indent, newline);
      PlaceNext(lay', f, [], cols, indent);
    } else {
      var g, h := Head(lay, f, cols), Tail(lay, f, cols);
      SplitLink(lay, f, cols);
      var lay' := Put(lay, g, cols, indent, newline);
      LinkIsGood(style, text, g, pos + |g.text|, lay.column + |g.text|, cols);
      PutSettled(style, text, lay, g, p, pos, cols, indent, newline);
      LinkSettled(style, text, lay', h, p, pos + |g.text|, cols, indent);
      assert [h] + [] == [h];
    }
  }

  lemma SettledMeans(style: Style, text: string, lay: Layout, p: nat, pos: nat, cols: nat, indent: nat)
    requires Settled(style, text, lay, p, pos, cols, indent)
    ensures 0 <= lay.column < cols && indent < cols && pos <= |text|
  {
  }

  lemma LinkIsGood(style: Style, text: string, f: Fragment, end: int, col: int, cols: nat)
    requires f.weblink != ""
    ensures GoodEnd(style, text, f.text, f.weblink != "", end, col, cols)
  {
  }

  lemma SplitLink(lay: Layout, f: Fragment, cols: nat)
    requires 0 <= lay.column < cols && !Fits(lay, f, cols)
    ensures var g, h := Head(lay, f, cols), Tail(lay, f, cols);
      && Fits(lay, g, cols) && g.weblink == h.weblink == f.weblink && h.text != ""
      && |g.text| + |h.text| == |f.text| && |h.text| < |f.text|
  {
  }

  /** A cut that ends the line, and is no link, has no link within reach. */
  lemma NoLinkInReach(style: Style, text: string, pos: nat, room: nat)
    requires pos <= |text| && room > 0
    requires NextCut(style, text, pos, room).newline && !NextCut(style, text, pos, room).link
    ensures forall i :: pos <= i < pos + room ==> !LinkStarts(style, text, i)
  {
    if style.weblinks {
      LinkAtIsFirst(style, text, pos);
    }
    forall i | pos <= i < pos + room ensures !LinkStarts(style, text, i) {
      assert !style.weblinks ==> !LinkStarts(style, text, i);
    }
    hide LinkStarts, LinkAt, LinkLength, LastSpace;
  }

  /** A fragment that ends the line for want of room ends it well. */
  lemma WordIsGood(style: Style, text: string, pos: nat, room: nat, col: int, cols: nat)
    requires pos <= |text| && room > 0 && col == cols - room
    requires NextCut(style, text, pos, room).newline && !NextCut(style, text, pos, room).link
    ensures var c := NextCut(style, text, pos, room);
      && c.length <= room
      && (|| pos + c.length == |text|
          || GoodEnd(style, text, text[pos..pos + c.length], false, pos + c.length, col + c.length, cols))
  {
    NoLinkInReach(style, text, pos, room);
    BreaksAtWords(style, text, pos, room);
    hide NextCut, LinkStarts;
  }

  lemma CutIs(style: Style, text: string, pos: nat, room: nat)
    requires pos <= |text| && room > 0
    ensures var c := NextCut(style, text, pos, room);
            var f := FragmentOf(text, pos, c);
      && pos + c.length <= |text| && |f.text| == c.length && (f.column == INT_MAX <==> c.newline)
      && f.text == text[pos..pos + c.length] && (if c.link then f.weblink == f.text != "" else f.weblink == "")
      && (pos == |text| ==> c.newline && !c.link)
  {
    LinksAreWhole(style, text, pos, room);
    hide NextCut;
  }

  /** Placing the fragments cut for one line. */
  lemma {:induction false} CutsSettled(style: Style, text: string, lay: Layout, p: nat, pos: nat, cols: nat,
                                       indent: nat)
    requires Settled(style, text, lay, p, pos, cols, indent) && 0 <= lay.column < cols && pos <= |text|
    requires pos < |text| || lay.line.fragments != []
    ensures var next := NextFragments(style, text, pos, cols - lay.column);
      Settled(style, text, Place(lay, next.0, cols, indent), p, next.1, cols, indent)
    decreases |text| - pos
  {
    hide *;
    var room: nat := cols - lay.column;
    SettledMeans(style, text, lay, p, pos, cols, indent);
    NextFragmentsStep(style, text, pos, room);
    CutIs(style, text, pos, room);
    var c := NextCut(style, text, pos, room);
    var f := FragmentOf(text, pos, c);
    if c.newline && c.link {
      LinkSettled(style, text, lay, f, p, pos, cols, indent);
    } else {
      var more := NextFragments(style, text, pos, room).0[1..];
      var lay' := Put(lay, f, cols, indent, c.newline);
      if c.newline {
        WordIsGood(style, text, pos, room, lay.column, cols);
        assert more == [];
      }
      FitsIs(lay, f, cols);
      PlaceNext(lay, f, more, cols, indent);
      PutSettled(style, text, lay, f, p, pos, cols, indent, c.newline);
      PutCases(lay, f, cols, indent, c.newline);
      if c.newline {
        PlaceNext(lay', f, [], cols, indent);
        assert [f] == [f] + [];
      } else {
        CutsSettled(style, text, lay', p, pos + c.length, cols, indent);
      }
    }
  }

  lemma {:induction false} FormatSettled(style: Style, lay: Layout, frags: seq<Fragment>, text: string, p: nat,
                                         pos: nat, cols: nat, indent: nat)
    requires 0 <= lay.column < cols && indent < cols && pos <= |text|
    requires Settled(style, text, Place(lay, frags, cols, indent), p, pos, cols, indent)
    ensures Settled(style, text, FormatFrom(style, lay, frags, text, pos, cols, indent), p, |text|, cols, indent)
    decreases |text| - pos
  {
    hide *;
    PlaceInside(lay, frags, cols, indent);
    var lay' := Place(lay, frags, cols, indent);
    if pos < |text| {
      var next := NextFragments(style, text, pos, cols - lay'.column);
      FormatFromMore(style, lay, frags, text, pos, cols, indent, lay', next);
      CutsSettled(style, text, lay', p, pos, cols, indent);
      FormatSettled(style, lay', next.0, text, p, next.1, cols, indent);
    } else {
      FormatFromEnd(style, lay, frags, text, cols, indent);
    }
  }

  /** The lines of the prefix. */
  lemma PrefixSettled(style: Style, line: ChatLine, cols: nat)
    requires Indentation(line, cols) < cols
    ensures Settled(style, line.text, Place(Start(), NameFragments(line), cols, Indentation(line, cols)),
                    |NamePrefix(line)|, 0, cols, Indentation(line, cols))
  {
    var indent, frags := Indentation(line, cols), NameFragments(line);
    StartShape(cols, indent);
    NameText(line);
    PlaceShape(Start(), frags, cols, indent);
    PlaceText(Start(), frags, cols, indent);
    assert TextSoFar(Start()) == "";
    hide Place, Shape, EndsWell, NameFragments, NamePrefix, Indentation;
    var lay := Place(Start(), frags, cols, indent);
    assert |TextSoFar(lay)| == |NamePrefix(line)| by {
      assert "" + TextOf(frags) == TextOf(frags);
    }
    forall i | 0 <= i < |lay.lines| ensures LineOk(style, line.text, lay, |NamePrefix(line)|, i, cols, indent) {
      LinesBehind(lay, |NamePrefix(line)|, i, 0);
    }
  }

  /**
   Every line that is followed by another, and goes further than the name, ends in a link, or after the last white
   space that fits, or at the last column when there is none to break at.
   */
  lemma LinesEndWell(style: Style, line: ChatLine, cols: nat)
    requires Indentation(line, cols) < cols
    ensures var lines := Format(style, line, cols);
      forall i :: 0 <= i < |lines| - 1 ==>
        var end := TextEnd(lines, i + 1, |NamePrefix(line)|);
        end <= 0 || EndsWell(style, line.text, lines[i], end, cols, Indentation(line, cols))
  {
    var indent, frags := Indentation(line, cols), NameFragments(line);
    FormatIs(style, line, cols);
    PrefixSettled(style, line, cols);
    assert Start().column == 0;
    hide Format, FormatFrom, Place, EndsWell, NameFragments, NamePrefix, Indentation, Settled, TextOfLines, Finished;
    FormatSettled(style, Start(), frags, line.text, |NamePrefix(line)|, 0, cols, indent);
    FinishedEndsWell(style, line.text, FormatFrom(style, Start(), frags, line.text, 0, cols, indent),
                     |NamePrefix(line)|, cols, indent);
  }

  lemma FinishedEndsWell(style: Style, text: string, lay: Layout, p: nat, cols: nat, indent: nat)
    requires Settled(style, text, lay, p, |text|, cols, indent)
    ensures forall i :: 0 <= i < |Finished(lay)| - 1 ==>
              var end := TextEnd(Finished(lay), i + 1, p);
              end <= 0 || EndsWell(style, text, Finished(lay)[i], end, cols, indent)
  {
    hide EndsWell, Shape, TextOfLines, TextSoFar;
    var lines := Finished(lay);
    forall i | 0 <= i < |lines| - 1
      ensures var end := TextEnd(lines, i + 1, p); end <= 0 || EndsWell(style, text, lines[i], end, cols, indent)
    {
      assert lines[..i + 1] == lay.lines[..i + 1];
      assert LineOk(style, text, lay, p, i, cols, indent);
    }
  }
}
