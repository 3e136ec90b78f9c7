/**
 Laying out a chat line in columns (src/chat.cpp, ChatBuffer::formatChatLine): fragments are cut from the
 text, at word boundaries and around web links, and placed on lines with a hanging indentation.
 */
module ChatFormat {

  const INT_MAX: int := 0x7FFF_FFFF

  datatype ChatLine = ChatLine(name: string, text: string, age: real)

  datatype Fragment = Fragment(text: string, column: int, weblink: string)

  datatype FormattedLine = FormattedLine(fragments: seq<Fragment>, first: bool)

  /** Whether links are made clickable, and which characters count as white space. */
  datatype Style = Style(weblinks: bool, isSpace: char -> bool)

  // ---------------------------------------------------------------- cutting fragments

  predicate Occurs(s: string, pattern: string, i: int) {
    0 <= i && i + |pattern| <= |s| && s[i..i + |pattern|] == pattern
  }

  /** The first place from `pos` on where the pattern occurs, or -1. */
  function Find(s: string, pattern: string, pos: nat): (r: int)
    requires pos <= |s|
    ensures r == -1 || (r >= pos && Occurs(s, pattern, r))
    ensures forall i :: pos <= i && (r == -1 || i < r) ==> !Occurs(s, pattern, i)
    decreases |s| - pos
  {
    if Occurs(s, pattern, pos) then pos else if pos == |s| then -1 else Find(s, pattern, pos + 1)
  }

  /** Where the next link starts, a secure one if there is any, or -1. */
  function LinkAt(text: string, pos: nat): (r: int)
    requires pos <= |text|
    ensures r == -1 || (pos <= r && r + 7 <= |text|)
  {
    var secure := Find(text, "https://", pos);
    if secure != -1 then secure else Find(text, "http://", pos)
  }

  /** The last white space among the first `n` characters from `pos`, or 0. */
  function LastSpace(style: Style, text: string, pos: nat, n: nat): (k: nat)
    requires pos + n <= |text|
    ensures k == 0 || (k < n && style.isSpace(text[pos + k]))
    ensures forall i :: pos + k < i < pos + n ==> !style.isSpace(text[i])
  {
    if n == 0 then 0 else if style.isSpace(text[pos + n - 1]) then n - 1 else LastSpace(style, text, pos, n - 1)
  }

  predicate EndsLink(style: Style, c: char) {
    style.isSpace(c) || c == '\'' || c == '"' || c == ';'
  }

  /** How far a link that has `n` characters so far goes on. */
  function LinkLength(style: Style, text: string, pos: nat, n: nat): (r: nat)
    requires pos + n <= |text|
    ensures n <= r && pos + r <= |text|
    ensures forall i :: pos + n <= i < pos + r ==> !EndsLink(style, text[i])
    ensures pos + r < |text| ==> EndsLink(style, text[pos + r])
    decreases |text| - n
  {
    if pos + n == |text| || EndsLink(style, text[pos + n]) then n else LinkLength(style, text, pos, n + 1)
  }

  /** A cut: how many characters, whether the line ends after them, and whether they are a link. */
  datatype Cut = Cut(length: nat, newline: bool, link: bool)

  function Trim(length: nat, space: nat, rest: nat): nat {
    if space != 0 && length < rest then space + 1 else length
  }

  /** The next cut from `pos`, for a line with room for `room` more characters. */
  function NextCut(style: Style, text: string, pos: nat, room: nat): (c: Cut)
    requires pos <= |text| && room > 0
    ensures pos + c.length <= |text|
    ensures c.length == 0 ==> pos == |text| && c.newline
    ensures !c.newline ==> c.length < room
    ensures pos == |text| ==> c.newline
  {
    var rest := |text| - pos;
    var n := if rest < room then rest else room;
    var http := if style.weblinks then LinkAt(text, pos) else -1;
    if http == -1 || http - pos >= room then
      Cut(Trim(n, LastSpace(style, text, pos, n), rest), true, false)
    else if http == pos then
      var length := LinkLength(style, text, pos, 6);
      Cut(length, length >= room, true)
    else Cut(http - pos, false, false)
  }

  function FragmentOf(text: string, pos: nat, c: Cut): Fragment
    requires pos + c.length <= |text|
  {
    var t := text[pos..pos + c.length];
    Fragment(t, if c.newline then INT_MAX else 0, if c.link then t else "")
  }

  /** The fragments for the next line, and where they end. */
  function NextFragments(style: Style, text: string, pos: nat, room: nat): (r: (seq<Fragment>, nat))
    requires pos <= |text| && room > 0
    ensures pos <= r.1 <= |text| && (pos < |text| ==> pos < r.1)
    decreases |text| - pos
  {
    var c := NextCut(style, text, pos, room);
    if c.newline then ([FragmentOf(text, pos, c)], pos + c.length)
    else
      var (more, end) := NextFragments(style, text, pos + c.length, room - c.length);
      ([FragmentOf(text, pos, c)] + more, end)
  }

  // ---------------------------------------------------------------- placing fragments

  /** The lines ended so far, the line being filled, and the column it has reached. */
  datatype Layout = Layout(lines: seq<FormattedLine>, line: FormattedLine, column: int)

  function Size(frags: seq<Fragment>): nat {
    if frags == [] then 0 else |frags[0].text| + Size(frags[1..])
  }

  function EndLine(lay: Layout, indent: nat): Layout {
    Layout(lay.lines + [lay.line], FormattedLine([], false), indent)
  }

  /** Put a fragment that fits at the current column; the line ends when it is full or marked. */
  function Put(lay: Layout, frag: Fragment, cols: nat, indent: nat, newline: bool): Layout {
    var lay' := lay.(line := lay.line.(fragments := lay.line.fragments + [frag.(column := lay.column)]),
                     column := lay.column + |frag.text|);
    if lay'.column == cols || newline then EndLine(lay', indent) else lay'
  }

  predicate Fits(lay: Layout, frag: Fragment, cols: nat) {
    |frag.text| <= cols - lay.column
  }

  function Place(lay: Layout, frags: seq<Fragment>, cols: nat, indent: nat): Layout
    requires 0 <= lay.column < cols && indent < cols
    decreases Size(frags), |frags|
  {
    if frags == [] then lay
    else
      var f, room := frags[0], cols - lay.column;
      if Fits(lay, f, cols) then
        Place(Put(lay, f, cols, indent, f.column == INT_MAX), frags[1..], cols, indent)
      else
        Place(Put(lay, f.(text := f.text[..room]), cols, indent, f.column == INT_MAX),
              [f.(text := f.text[room..], column := 0)] + frags[1..], cols, indent)
  }

  // ---------------------------------------------------------------- the whole line

  function Sanitized(name: string): string {
    if name == "" || name[0] == '\0' then "" else [name[0]] + Sanitized(name[1..])
  }

  function Indentation(line: ChatLine, cols: nat): nat {
    if line.name == "" then 0
    else if |Sanitized(line.name)| + 3 <= cols / 2 then |line.name| + 3
    else 2
  }

  function NameFragments(line: ChatLine): seq<Fragment> {
    if line.name == "" then []
    else [Fragment("<", 0, ""), Fragment(line.name, 0, ""), Fragment("> ", 0, "")]
  }

  /** Rounds of placing what is there and cutting the next fragments. */
  function FormatFrom(style: Style, lay: Layout, frags: seq<Fragment>, text: string, pos: nat, cols: nat,
                      indent: nat): Layout
    requires 0 <= lay.column < cols && indent < cols && pos <= |text|
    decreases |text| - pos
  {
    PlaceInside(lay, frags, cols, indent);
    var lay' := Place(lay, frags, cols, indent);
    if pos == |text| then lay'
    else
      var (more, end) := NextFragments(style, text, pos, cols - lay'.column);
      FormatFrom(style, lay', more, text, end, cols, indent)
  }

  function Finished(lay: Layout): seq<FormattedLine> {
    if lay.lines == [] || lay.line.fragments != [] then lay.lines + [lay.line] else lay.lines
  }

  /** The formatted lines of a chat line; none when the indentation leaves no room. */
  function Format(style: Style, line: ChatLine, cols: nat): seq<FormattedLine> {
    var indent := Indentation(line, cols);
    if indent >= cols then []
    else Finished(FormatFrom(style, Layout([], FormattedLine([], true), 0), NameFragments(line), line.text, 0, cols,
                             indent))
  }

  lemma PlaceInside(lay: Layout, frags: seq<Fragment>, cols: nat, indent: nat)
    requires 0 <= lay.column < cols && indent < cols
    ensures 0 <= Place(lay, frags, cols, indent).column < cols
    decreases Size(frags), |frags|
  {
    if frags != [] {
      var f, room := frags[0], cols - lay.column;
      if Fits(lay, f, cols) {
        PlaceInside(Put(lay, f, cols, indent, f.column == INT_MAX), frags[1..], cols, indent);
      } else {
        PlaceInside(Put(lay, f.(text := f.text[..room]), cols, indent, f.column == INT_MAX),
                    [f.(text := f.text[room..], column := 0)] + frags[1..], cols, indent);
      }
    }
  }

  // ---------------------------------------------------------------- no text is lost

  function TextOf(frags: seq<Fragment>): string {
    if frags == [] then "" else TextOf(frags[..|frags| - 1]) + frags[|frags| - 1].text
  }

  function TextOfLines(lines: seq<FormattedLine>): string {
    if lines == [] then "" else TextOfLines(lines[..|lines| - 1]) + TextOf(lines[|lines| - 1].fragments)
  }

  function TextSoFar(lay: Layout): string {
    TextOfLines(lay.lines) + TextOf(lay.line.fragments)
  }

  lemma Associates<T>(a: seq<T>, b: seq<T>, c: seq<T>)
    ensures (a + b) + c == a + (b + c)
  {
  }

  lemma TextOfOne(frags: seq<Fragment>, f: Fragment)
    ensures TextOf(frags + [f]) == TextOf(frags) + f.text
  {
    assert (frags + [f])[..|frags|] == frags;
  }

  lemma TextOfOneLine(lines: seq<FormattedLine>, line: FormattedLine)
    ensures TextOfLines(lines + [line]) == TextOfLines(lines) + TextOf(line.fragments)
  {
    assert (lines + [line])[..|lines|] == lines;
  }

  lemma TextOfNone()
    ensures TextOf([]) == "" && TextOfLines([]) == ""
  {
  }

  lemma {:induction false} TextOfBoth(a: seq<Fragment>, b: seq<Fragment>)
    ensures TextOf(a + b) == TextOf(a) + TextOf(b)
  {
    hide *;
    if b == [] {
      TextOfNone();
      assert a + b == a && TextOf(a) + "" == TextOf(a);
    } else {
      var n := |b| - 1;
      var front, last := b[..n], b[n];
      assert b == front + [last];
      TextOfBoth(a, front);
      TextOfOne(a + front, last);
      TextOfOne(front, last);
      Associates(a, front, [last]);
      Associates(TextOf(a), TextOf(front), last.text);
    }
  }

  lemma TextOfCons(f: Fragment, rest: seq<Fragment>)
    ensures TextOf([f] + rest) == f.text + TextOf(rest)
  {
    hide *;
    TextOfBoth([f], rest);
    TextOfOne([], f);
    TextOfNone();
    assert [] + [f] == [f] && "" + f.text == f.text;
  }

  lemma PutText(lay: Layout, f: Fragment, cols: nat, indent: nat, newline: bool)
    ensures TextSoFar(Put(lay, f, cols, indent, newline)) == TextSoFar(lay) + f.text
  {
    hide TextOf, TextOfLines;
    var g := f.(column := lay.column);
    TextOfNone();
    TextOfOne(lay.line.fragments, g);
    TextOfOneLine(lay.lines, lay.line.(fragments := lay.line.fragments + [g]));
    Associates(TextOfLines(lay.lines), TextOf(lay.line.fragments), f.text);
    var t := TextOfLines(lay.lines) + TextOf(lay.line.fragments + [g]);
    assert t + "" == t;
  }

  /** A fragment that does not fit is cut, and the rest waits for the next line. */
  function Head(lay: Layout, f: Fragment, cols: nat): Fragment
    requires 0 <= lay.column < cols && !Fits(lay, f, cols)
  {
    f.(text := f.text[..cols - lay.column])
  }

  function Tail(lay: Layout, f: Fragment, cols: nat): (r: Fragment)
    requires 0 <= lay.column < cols && !Fits(lay, f, cols)
    ensures |r.text| < |f.text|
  {
    f.(text := f.text[cols - lay.column..], column := 0)
  }

  lemma PlaceNext(lay: Layout, f: Fragment, rest: seq<Fragment>, cols: nat, indent: nat)
    requires 0 <= lay.column < cols && indent < cols
    ensures Place(lay, [], cols, indent) == lay
    ensures Size([f] + rest) == |f.text| + Size(rest)
    ensures var newline := f.column == INT_MAX;
      if Fits(lay, f, cols) then
        var lay' := Put(lay, f, cols, indent, newline);
        0 <= lay'.column < cols && Place(lay, [f] + rest, cols, indent) == Place(lay', rest, cols, indent)
      else
        var lay' := Put(lay, Head(lay, f, cols), cols, indent, newline);
        && 0 <= lay'.column < cols
        && Place(lay, [f] + rest, cols, indent) == Place(lay', [Tail(lay, f, cols)] + rest, cols, indent)
        && Size([Tail(lay, f, cols)] + rest) < Size([f] + rest)
  {
    assert ([f] + rest)[1..] == rest;
  }

  lemma HeadAndTail(lay: Layout, f: Fragment, cols: nat)
    requires 0 <= lay.column < cols && !Fits(lay, f, cols)
    ensures Head(lay, f, cols).text + Tail(lay, f, cols).text == f.text
  {
  }

  lemma {:induction false} PlaceText(lay: Layout, frags: seq<Fragment>, cols: nat, indent: nat)
    requires 0 <= lay.column < cols && indent < cols
    ensures TextSoFar(Place(lay, frags, cols, indent)) == TextSoFar(lay) + TextOf(frags)
    decreases Size(frags), |frags|
  {
    hide *;
    if frags == [] {
      PlaceNext(lay, Fragment("", 0, ""), [], cols, indent);
      TextOfNone();
      assert TextSoFar(lay) + "" == TextSoFar(lay);
    } else {
      var f, rest := frags[0], frags[1..];
      assert frags == [f] + rest;
      PlaceNext(lay, f, rest, cols, indent);
      TextOfCons(f, rest);
      var newline := f.column == INT_MAX;
      if Fits(lay, f, cols) {
        PutText(lay, f, cols, indent, newline);
        PlaceText(Put(lay, f, cols, indent, newline), rest, cols, indent);
        Associates(TextSoFar(lay), f.text, TextOf(rest));
      } else {
        var g, h := Head(lay, f, cols), Tail(lay, f, cols);
        PutText(lay, g, cols, indent, newline);
        PlaceText(Put(lay, g, cols, indent, newline), [h] + rest, cols, indent);
        TextOfCons(h, rest);
        HeadAndTail(lay, f, cols);
        Associates(g.text, h.text, TextOf(rest));
        Associates(TextSoFar(lay), g.text, h.text + TextOf(rest));
      }
    }
  }

  lemma NextFragmentsStep(style: Style, text: string, pos: nat, room: nat)
    requires pos <= |text| && room > 0
    ensures var c, r := NextCut(style, text, pos, room), NextFragments(style, text, pos, room);
      if c.newline then r == ([FragmentOf(text, pos, c)], pos + c.length)
      else
        && 0 < c.length < room
        && r.1 == NextFragments(style, text, pos + c.length, room - c.length).1
        && r.0 == [FragmentOf(text, pos, c)] + NextFragments(style, text, pos + c.length, room - c.length).0
    ensures FragmentOf(text, pos, NextCut(style, text, pos, room)).text
            == text[pos..pos + NextCut(style, text, pos, room).length]
  {
    hide NextCut;
  }

  lemma {:induction false} NextFragmentsText(style: Style, text: string, pos: nat, room: nat)
    requires pos <= |text| && room > 0
    ensures var r := NextFragments(style, text, pos, room); TextOf(r.0) == text[pos..r.1]
    decreases |text| - pos
  {
    hide *;
    NextFragmentsStep(style, text, pos, room);
    var c := NextCut(style, text, pos, room);
    var f := FragmentOf(text, pos, c);
    TextOfCons(f, []);
    TextOfNone();
    assert [f] + [] == [f] && f.text + "" == f.text;
    if !c.newline {
      NextFragmentsText(style, text, pos + c.length, room - c.length);
      var r := NextFragments(style, text, pos + c.length, room - c.length);
      TextOfCons(f, r.0);
      assert text[pos..r.1] == text[pos..pos + c.length] + text[pos + c.length..r.1];
    }
  }

  lemma FormatFromEnd(style: Style, lay: Layout, frags: seq<Fragment>, text: string, cols: nat, indent: nat)
    requires 0 <= lay.column < cols && indent < cols
    ensures FormatFrom(style, lay, frags, text, |text|, cols, indent) == Place(lay, frags, cols, indent)
  {
    hide Place, NextFragments;
  }

  lemma FormatFromMore(style: Style, lay: Layout, frags: seq<Fragment>, text: string, pos: nat, cols: nat, indent: nat,
    lay': Layout, next: (seq<Fragment>, nat))
    requires 0 <= lay.column < cols && indent < cols && pos < |text|
    requires lay' == Place(lay, frags, cols, indent) && 0 <= lay'.column < cols
    requires next == NextFragments(style, text, pos, cols - lay'.column)
    ensures FormatFrom(style, lay, frags, text, pos, cols, indent)
            == FormatFrom(style, lay', next.0, text, next.1, cols, indent)
  {
    hide Place, NextFragments, NextCut;
  }

  lemma {:induction false} FormatFromText(style: Style, lay: Layout, frags: seq<Fragment>, text: string, pos: nat,
                                          cols: nat, indent: nat)
    requires 0 <= lay.column < cols && indent < cols && pos <= |text|
    ensures TextSoFar(FormatFrom(style, lay, frags, text, pos, cols, indent)) == TextSoFar(lay) + TextOf(frags)
            + text[pos..]
    decreases |text| - pos
  {
    hide *;
    PlaceText(lay, frags, cols, indent);
    PlaceInside(lay, frags, cols, indent);
    var lay' := Place(lay, frags, cols, indent);
    if pos < |text| {
      var next := NextFragments(style, text, pos, cols - lay'.column);
      FormatFromMore(style, lay, frags, text, pos, cols, indent, lay', next);
      NextFragmentsText(style, text, pos, cols - lay'.column);
      FormatFromText(style, lay', next.0, text, next.1, cols, indent);
      assert text[pos..] == text[pos..next.1] + text[next.1..];
      Associates(TextSoFar(lay'), text[pos..next.1], text[next.1..]);
    } else {
      FormatFromEnd(style, lay, frags, text, cols, indent);
      assert TextSoFar(lay') + text[pos..] == TextSoFar(lay');
    }
  }

  function NamePrefix(line: ChatLine): string {
    if line.name == "" then "" else "<" + line.name + "> "
  }

  lemma NameText(line: ChatLine)
    ensures TextOf(NameFragments(line)) == NamePrefix(line)
  {
    if line.name != "" {
      var a, b, c := Fragment("<", 0, ""), Fragment(line.name, 0, ""), Fragment("> ", 0, "");
      TextOfOne([], a);
      TextOfOne([a], b);
      TextOfOne([a, b], c);
      assert [] + [a] == [a] && [a] + [b] == [a, b] && [a, b] + [c] == NameFragments(line);
    }
  }

  lemma FinishedText(lay: Layout)
    ensures TextOfLines(Finished(lay)) == TextSoFar(lay)
  {
    TextOfOneLine(lay.lines, lay.line);
    assert TextOfLines(lay.lines) + "" == TextOfLines(lay.lines);
  }

  function Start(): Layout {
    Layout([], FormattedLine([], true), 0)
  }

  lemma FormatIs(style: Style, line: ChatLine, cols: nat)
    requires Indentation(line, cols) < cols
    ensures Format(style, line, cols) ==
      Finished(FormatFrom(style, Start(), NameFragments(line), line.text, 0, cols, Indentation(line, cols)))
    ensures TextSoFar(Start()) == ""
  {
  }

  /** The fragments spell the name in angle brackets, if there is one, and the text, and nothing else. */
  lemma FormatKeepsText(style: Style, line: ChatLine, cols: nat)
    requires Indentation(line, cols) < cols
    ensures TextOfLines(Format(style, line, cols)) == NamePrefix(line) + line.text
  {
    FormatIs(style, line, cols);
    assert Start().column == 0;
    hide *;
    var indent, frags := Indentation(line, cols), NameFragments(line);
    FormatFromText(style, Start(), frags, line.text, 0, cols, indent);
    NameText(line);
    FinishedText(FormatFrom(style, Start(), frags, line.text, 0, cols, indent));
    assert line.text[0..] == line.text && "" + NamePrefix(line) == NamePrefix(line);
  }

  // ---------------------------------------------------------------- the shape of the lines

  function EndColumn(frags: seq<Fragment>, start: int): int {
    if frags == [] then start else EndColumn(frags[..|frags| - 1], start) + |frags[|frags| - 1].text|
  }

  /** Each fragment starts where the one before it ends. */
  predicate Runs(frags: seq<Fragment>, start: int) {
    frags == []
    || (Runs(frags[..|frags| - 1], start)
        && frags[|frags| - 1].column == EndColumn(frags[..|frags| - 1], start))
  }

  function StartColumn(line: FormattedLine, indent: nat): int {
    if line.first then 0 else indent
  }

  /** A line without gaps or overlaps, inside the columns. */
  predicate WellSet(line: FormattedLine, cols: nat, indent: nat) {
    && Runs(line.fragments, StartColumn(line, indent))
    && EndColumn(line.fragments, StartColumn(line, indent)) <= cols
  }

  /** Well-set lines of which only the first one is marked as first. */
  ghost predicate WellSetLines(lines: seq<FormattedLine>, cols: nat, indent: nat) {
    forall i :: 0 <= i < |lines| ==> WellSet(lines[i], cols, indent) && lines[i].first == (i == 0)
  }

  ghost predicate Shape(lay: Layout, cols: nat, indent: nat) {
    && WellSetLines(lay.lines, cols, indent)
    && lay.line.first == (lay.lines == [])
    && Runs(lay.line.fragments, StartColumn(lay.line, indent))
    && lay.column == EndColumn(lay.line.fragments, StartColumn(lay.line, indent))
    && 0 <= lay.column < cols
  }

  lemma RunsOn(frags: seq<Fragment>, f: Fragment, start: int)
    requires Runs(frags, start) && f.column == EndColumn(frags, start)
    ensures Runs(frags + [f], start) && EndColumn(frags + [f], start) == f.column + |f.text|
  {
    assert (frags + [f])[..|frags|] == frags;
  }

  lemma PutShape(lay: Layout, f: Fragment, cols: nat, indent: nat, newline: bool)
    requires Shape(lay, cols, indent) && indent < cols && Fits(lay, f, cols)
    ensures Shape(Put(lay, f, cols, indent, newline), cols, indent)
  {
    RunsOn(lay.line.fragments, f.(column := lay.column), StartColumn(lay.line, indent));
    assert Runs([], indent) && EndColumn([], indent) == indent;
    hide Runs, EndColumn;
  }

  lemma HeadFits(lay: Layout, f: Fragment, cols: nat)
    requires 0 <= lay.column < cols && !Fits(lay, f, cols)
    ensures Fits(lay, Head(lay, f, cols), cols)
  {
  }

  lemma {:induction false} PlaceShape(lay: Layout, frags: seq<Fragment>, cols: nat, indent: nat)
    requires Shape(lay, cols, indent) && 0 <= lay.column < cols && indent < cols
    ensures Shape(Place(lay, frags, cols, indent), cols, indent)
    decreases Size(frags), |frags|
  {
    hide *;
    if frags == [] {
      PlaceNext(lay, Fragment("", 0, ""), [], cols, indent);
    } else {
      var f, rest := frags[0], frags[1..];
      assert frags == [f] + rest;
      PlaceNext(lay, f, rest, cols, indent);
      var newline := f.column == INT_MAX;
      if Fits(lay, f, cols) {
        PutShape(lay, f, cols, indent, newline);
        PlaceShape(Put(lay, f, cols, indent, newline), rest, cols, indent);
      } else {
        HeadFits(lay, f, cols);
        var g := Head(lay, f, cols);
        PutShape(lay, g, cols, indent, newline);
        PlaceShape(Put(lay, g, cols, indent, newline), [Tail(lay, f, cols)] + rest, cols, indent);
      }
    }
  }

  lemma {:induction false} FormatFromShape(style: Style, lay: Layout, frags: seq<Fragment>, text: string, pos: nat,
                                           cols: nat, indent: nat)
    requires 0 <= lay.column < cols && indent < cols && pos <= |text| && Shape(lay, cols, indent)
    ensures Shape(FormatFrom(style, lay, frags, text, pos, cols, indent), cols, indent)
    decreases |text| - pos
  {
    hide *;
    PlaceShape(lay, frags, cols, indent);
    PlaceInside(lay, frags, cols, indent);
    var lay' := Place(lay, frags, cols, indent);
    if pos < |text| {
      var next := NextFragments(style, text, pos, cols - lay'.column);
      FormatFromMore(style, lay, frags, text, pos, cols, indent, lay', next);
      FormatFromShape(style, lay', next.0, text, next.1, cols, indent);
    } else {
      FormatFromEnd(style, lay, frags, text, cols, indent);
    }
  }

  lemma FinishedShape(lay: Layout, cols: nat, indent: nat)
    requires Shape(lay, cols, indent)
    ensures WellSetLines(Finished(lay), cols, indent) && Finished(lay) != []
  {
    hide Runs, EndColumn;
  }

  lemma StartShape(cols: nat, indent: nat)
    requires cols > 0
    ensures Shape(Start(), cols, indent)
  {
  }

  /**
   At least one line is written; every line is without gaps from its start column on and ends within
   the columns; the lines after the first start at the indentation and only the first is marked.
   */
  lemma FormatIsWellSet(style: Style, line: ChatLine, cols: nat)
    requires Indentation(line, cols) < cols
    ensures Format(style, line, cols) != []
    ensures WellSetLines(Format(style, line, cols), cols, Indentation(line, cols))
  {
    FormatIs(style, line, cols);
    assert Start().column == 0;
    hide *;
    var indent := Indentation(line, cols);
    StartShape(cols, indent);
    FormatFromShape(style, Start(), NameFragments(line), line.text, 0, cols, indent);
    FinishedShape(FormatFrom(style, Start(), NameFragments(line), line.text, 0, cols, indent), cols, indent);
  }

  /** Nothing is written exactly when the indentation takes all the columns. */
  lemma NothingWritten(style: Style, line: ChatLine, cols: nat)
    ensures Format(style, line, cols) == [] <==> Indentation(line, cols) >= cols
  {
    if Indentation(line, cols) < cols {
      FormatIsWellSet(style, line, cols);
    }
    hide FormatFrom, Indentation, Finished;
  }

  /** A named line in two columns, and a name that hides its length behind a NUL character. */
  lemma NoRoom(text: string, age: real)
    ensures Indentation(ChatLine("a", text, age), 2) >= 2
    ensures Indentation(ChatLine("\0\0\0\0\0", text, age), 6) >= 6
  {
    assert Sanitized("\0\0\0\0\0") == "";
  }

  /** From three columns on there is room, unless the name has a NUL character inside. */
  lemma WideEnough(line: ChatLine, cols: nat)
    requires cols >= 3 && Sanitized(line.name) == line.name
    ensures Indentation(line, cols) < cols
  {
  }

  /** Further lines start below the text when the prefix takes at most half of the columns, else at column two; lines
      of the server start at the left. */
  lemma HangsBelowText(line: ChatLine, cols: nat)
    requires Sanitized(line.name) == line.name
    ensures Indentation(line, cols) == if |NamePrefix(line)| <= cols / 2 then |NamePrefix(line)| else 2
  {
  }

  /** Where links start: at every secure one, and at a plain one exactly when no secure one follows it. */
  ghost predicate LinkStarts(style: Style, text: string, i: int) {
    && style.weblinks
    && (|| Occurs(text, "https://", i)
        || (Occurs(text, "http://", i) && forall j :: i <= j ==> !Occurs(text, "https://", j)))
  }

  lemma LinkAtIsFirst(style: Style, text: string, pos: nat)
    requires pos <= |text| && style.weblinks
    ensures var at := LinkAt(text, pos);
      && (at != -1 ==> LinkStarts(style, text, at))
      && forall i :: pos <= i && (at == -1 || i < at) ==> !LinkStarts(style, text, i)
  {
    hide Occurs;
  }

  /** As long as no link starts within the room, a line breaks after the last white space that fits, or at the last
      column if there is none to break at. */
  lemma BreaksAtWords(style: Style, text: string, pos: nat, room: nat)
    requires pos <= |text| && room > 0
    requires forall i :: pos <= i < pos + room ==> !LinkStarts(style, text, i)
    ensures var c := NextCut(style, text, pos, room);
      && c.newline && !c.link && c.length <= room
      && var end := pos + c.length;
         || end == |text|
         || (&& c.length > 0 && style.isSpace(text[end - 1])
             && forall i :: end <= i < pos + room ==> i < |text| && !style.isSpace(text[i]))
         || (c.length == room && forall i :: pos < i < end ==> !style.isSpace(text[i]))
  {
    if style.weblinks {
      LinkAtIsFirst(style, text, pos);
    }
    hide LinkStarts, LinkAt, LinkLength;
  }

  /** In front of the next link within the room, the text is cut exactly where the link starts. */
  lemma StopsAtLink(style: Style, text: string, pos: nat, room: nat, k: int)
    requires pos <= |text| && room > 0 && pos < k < pos + room && LinkStarts(style, text, k)
    requires forall i :: pos <= i < k ==> !LinkStarts(style, text, i)
    ensures NextCut(style, text, pos, room) == Cut(k - pos, false, false)
  {
    LinkAtIsFirst(style, text, pos);
    assert style.weblinks;
    hide LinkStarts, LinkAt, LinkLength, LastSpace;
  }

  /** A link runs up to white space, a quote, a semicolon or the end, and is remembered whole; the line ends after it
      when it takes all the room. */
  lemma LinksAreWhole(style: Style, text: string, pos: nat, room: nat)
    requires pos <= |text| && room > 0
    ensures var c := NextCut(style, text, pos, room);
      c.link ==>
        && style.weblinks
        && (Occurs(text, "https://", pos) || Occurs(text, "http://", pos))
        && c.length >= 6 && (c.newline <==> c.length >= room)
        && (forall i :: pos + 6 <= i < pos + c.length ==> !style.isSpace(text[i]) && text[i] !in "'\";")
        && (pos + c.length < |text| ==> style.isSpace(text[pos + c.length]) || text[pos + c.length] in "'\";")
        && FragmentOf(text, pos, c).weblink == text[pos..pos + c.length]
  {
  }

  /** A link is cut exactly where one starts. */
  lemma LinkIff(style: Style, text: string, pos: nat, room: nat)
    requires pos <= |text| && room > 0
    ensures NextCut(style, text, pos, room).link <==> LinkStarts(style, text, pos)
  {
    if style.weblinks {
      LinkAtIsFirst(style, text, pos);
    }
    assert LinkStarts(style, text, pos) ==> style.weblinks;
    hide LinkStarts, LinkAt, LastSpace, LinkLength;
  }

  lemma FifthLetter(text: string, pattern: string, i: int)
    requires |pattern| > 4
    ensures Occurs(text, pattern, i) ==> 0 <= i && i + 4 < |text| && text[i + 4] == pattern[4]
  {
    if Occurs(text, pattern, i) {
      assert text[i..i + |pattern|][4] == text[i + 4];
    }
  }

  /** So a plain link before a secure one is cut as text, up to the secure one. */
  lemma PlainBeforeSecure(style: Style, room: nat)
    requires style.weblinks && room >= 10
    ensures Occurs("http://a https://b", "http://", 0) && Occurs("http://a https://b", "https://", 9)
    ensures NextCut(style, "http://a https://b", 0, room) == Cut(9, false, false)
  {
    var text := "http://a https://b";
    assert text[9..17] == "https://";
    assert text[0..7] == "http://";
    hide Occurs, LastSpace, LinkLength;
    forall i | 0 <= i < 9 ensures !Occurs(text, "https://", i) {
      FifthLetter(text, "https://", i);
    }
  }

  // ---------------------------------------------------------------- the loops

  /** As many characters as there are, or fit, and the last white space among them. */
  method ScanWords(style: Style, text: string, inPos: nat, room: nat) returns (fragLength: nat, spacePos: nat)
    requires inPos <= |text|
    ensures fragLength == if |text| - inPos < room then |text| - inPos else room
    ensures spacePos == LastSpace(style, text, inPos, fragLength)
  {
    fragLength, spacePos := 0, 0;
    while fragLength < |text| - inPos && fragLength < room
      invariant 0 <= fragLength <= |text| - inPos && fragLength <= room
      invariant spacePos == LastSpace(style, text, inPos, fragLength)
    {
      if style.isSpace(text[inPos + fragLength]) {
        spacePos := fragLength;
      }
      fragLength := fragLength + 1;
    }
  }

  /** The end of the link at `inPos`. */
  method ScanLink(style: Style, text: string, inPos: nat) returns (fragLength: nat)
    requires inPos + 6 <= |text|
    ensures fragLength == LinkLength(style, text, inPos, 6) <= |text| - inPos
  {
    fragLength := 6;
    while fragLength < |text| - inPos && !EndsLink(style, text[inPos + fragLength])
      invariant 6 <= fragLength <= |text| - inPos
      invariant LinkLength(style, text, inPos, 6) == LinkLength(style, text, inPos, fragLength)
    {
      fragLength := fragLength + 1;
    }
  }

  /** The first half of the fragment loop: how much to take. */
  method CutFragment(style: Style, text: string, inPos: nat, remainingInOutput: nat) returns (c: Cut)
    requires inPos <= |text| && remainingInOutput > 0
    ensures c == NextCut(style, text, inPos, remainingInOutput)
  {
    hide LastSpace, LinkLength, Find;
    var fragLength, spacePos, markNewline := 0, 0, false;
    var remainingInInput := |text| - inPos;
    var httpPos := -1;
    if style.weblinks {
      httpPos := Find(text, "https://", inPos);
      if httpPos == -1 {
        httpPos := Find(text, "http://", inPos);
      }
      if httpPos != -1 {
        httpPos := httpPos - inPos;
      }
    }
    fragLength, spacePos := ScanWords(style, text, inPos, remainingInOutput);
    if httpPos == -1 || httpPos >= remainingInOutput {
      markNewline := true;
    } else if httpPos == 0 {
      fragLength := ScanLink(style, text, inPos);
      spacePos := fragLength - 1;
      if fragLength >= remainingInOutput {
        markNewline := true;
      }
    } else {
      spacePos := httpPos - 1;
      fragLength := httpPos;
    }
    if spacePos != 0 && fragLength < remainingInInput {
      fragLength := spacePos + 1;
    }
    c := Cut(fragLength, markNewline, httpPos == 0);
  }

  /** The second half: all fragments for the next line. */
  method CutFragments(style: Style, text: string, start: nat, room: nat) returns (frags: seq<Fragment>, inPos: nat)
    requires start <= |text| && room > 0
    ensures (frags, inPos) == NextFragments(style, text, start, room)
    ensures start <= inPos <= |text|
  {
    hide *;
    frags, inPos := [], start;
    ghost var whole := NextFragments(style, text, start, room);
    var remainingInOutput, markNewline := room, false;
    assert [] + whole.0 == whole.0;
    while !markNewline
      invariant start <= inPos <= |text|
      invariant !markNewline ==> remainingInOutput > 0
      invariant !markNewline ==> whole.0 == frags + NextFragments(style, text, inPos, remainingInOutput).0
      invariant !markNewline ==> whole.1 == NextFragments(style, text, inPos, remainingInOutput).1
      invariant markNewline ==> whole == (frags, inPos)
      decreases |text| - inPos, !markNewline
    {
      NextFragmentsStep(style, text, inPos, remainingInOutput);
      var c := CutFragment(style, text, inPos, remainingInOutput);
      markNewline := c.newline;
      var t := text[inPos..inPos + c.length];
      var frag := Fragment(t, if markNewline then INT_MAX else 0, if c.link then t else "");
      FragmentIs(text, inPos, c);
      Associates(frags, [frag], NextFragments(style, text, inPos, remainingInOutput).0[1..]);
      frags := frags + [frag];
      inPos := inPos + c.length;
      remainingInOutput := remainingInOutput - if c.length < remainingInOutput then c.length else remainingInOutput;
    }
  }

  lemma FragmentIs(text: string, pos: nat, c: Cut)
    requires pos + c.length <= |text|
    ensures FragmentOf(text, pos, c) ==
      Fragment(text[pos..pos + c.length],
               if c.newline then INT_MAX else 0,
               if c.link then text[pos..pos + c.length] else "")
  {
  }

  /** Lays the waiting fragments out into lines. */
  method LayOut(start: Layout, waiting: seq<Fragment>, cols: nat, indent: nat) returns (lay: Layout)
    requires 0 <= start.column < cols && indent < cols
    ensures lay == Place(start, waiting, cols, indent) && 0 <= lay.column < cols
  {
    hide *;
    var destination, nextLine, outColumn := start.lines, start.line, start.column;
    var nextFrags := waiting;
    ghost var target := Place(start, waiting, cols, indent);
    PlaceInside(start, waiting, cols, indent);
    while nextFrags != []
      invariant 0 <= outColumn < cols
      invariant Place(Layout(destination, nextLine, outColumn), nextFrags, cols, indent) == target
      decreases Size(nextFrags), |nextFrags|
    {
      ghost var now := Layout(destination, nextLine, outColumn);
      var frag := nextFrags[0];
      assert nextFrags == [frag] + nextFrags[1..];
      PlaceNext(now, frag, nextFrags[1..], cols, indent);
      FitsIs(now, frag, cols);
      var markNewline := frag.column == INT_MAX;
      ghost var put;
      if |frag.text| <= cols - outColumn {
        put := frag;
        nextLine := nextLine.(fragments := nextLine.fragments + [frag.(column := outColumn)]);
        outColumn := outColumn + |frag.text|;
        nextFrags := nextFrags[1..];
      } else {
        put := Head(now, frag, cols);
        var temp := frag.(text := frag.text[..cols - outColumn], column := outColumn);
        nextLine := nextLine.(fragments := nextLine.fragments + [temp]);
        nextFrags := [frag.(text := frag.text[cols - outColumn..], column := 0)] + nextFrags[1..];
        outColumn := cols;
      }
      PutIs(now, put, cols, indent, markNewline);
      if outColumn == cols || markNewline {
        destination := destination + [nextLine];
        nextLine := FormattedLine([], false);
        outColumn := indent;
      }
    }
    PlaceNext(Layout(destination, nextLine, outColumn), Fragment("", 0, ""), [], cols, indent);
    lay := Layout(destination, nextLine, outColumn);
  }

  lemma FitsIs(lay: Layout, f: Fragment, cols: nat)
    requires 0 <= lay.column < cols
    ensures Fits(lay, f, cols) <==> |f.text| <= cols - lay.column
    ensures !Fits(lay, f, cols) ==>
      && Head(lay, f, cols) == f.(text := f.text[..cols - lay.column])
      && Tail(lay, f, cols) == f.(text := f.text[cols - lay.column..], column := 0)
  {
  }

  lemma PutIs(lay: Layout, f: Fragment, cols: nat, indent: nat, newline: bool)
    ensures var line, column := lay.line.(fragments := lay.line.fragments + [f.(column := lay.column)]),
            lay.column + |f.text|;
      Put(lay, f, cols, indent, newline) ==
        if column == cols || newline then Layout(lay.lines + [line], FormattedLine([], false), indent)
        else Layout(lay.lines, line, column)
  {
  }

  lemma FormatStarts(line: ChatLine)
    ensures Start() == Layout([], FormattedLine([], true), 0)
    ensures NameFragments(line) == if line.name == "" then []
                                   else [Fragment("<", 0, ""), Fragment(line.name, 0, ""), Fragment("> ", 0, "")]
  {
  }

  /** formatChatLine: appends the lines to `destination` and returns how many there are. */
  method FormatChatLine(style: Style, line: ChatLine, cols: nat, destination: seq<FormattedLine>)
    returns (result: seq<FormattedLine>, numAdded: nat)
    ensures result == destination + Format(style, line, cols)
    ensures numAdded == |Format(style, line, cols)|
  {
    hide *;
    var nextFrags := [];
    if line.name != "" {
      nextFrags := [Fragment("<", 0, ""), Fragment(line.name, 0, ""), Fragment("> ", 0, "")];
    }
    var indent := Indentation(line, cols);
    if indent >= cols {
      NothingWritten(style, line, cols);
      assert destination + [] == destination;
      return destination, 0;
    }
    FormatIs(style, line, cols);
    FormatStarts(line);
    var lay, inPos := Layout([], FormattedLine([], true), 0), 0;
    ghost var target := FormatFrom(style, lay, nextFrags, line.text, 0, cols, indent);
    FormatFromRests(style, lay, line.text, cols, indent);
    while nextFrags != [] || inPos < |line.text|
      invariant 0 <= lay.column < cols && inPos <= |line.text|
      invariant FormatFrom(style, lay, nextFrags, line.text, inPos, cols, indent) == target
      decreases |line.text| - inPos, |nextFrags|
    {
      ghost var before, frags := lay, nextFrags;
      lay := LayOut(lay, nextFrags, cols, indent);
      nextFrags := [];
      if !(inPos < |line.text|) {
        FormatFromEnd(style, before, frags, line.text, cols, indent);
        FormatFromRests(style, lay, line.text, cols, indent);
        continue;
      }
      ghost var pos := inPos;
      nextFrags, inPos := CutFragments(style, line.text, inPos, cols - lay.column);
      NextFragmentsMove(style, line.text, pos, cols - lay.column);
      FormatFromMore(style, before, frags, line.text, pos, cols, indent, lay, (nextFrags, inPos));
    }
    FormatFromRests(style, lay, line.text, cols, indent);
    FinishedIs(lay);
    var added := lay.lines;
    if |added| == 0 || lay.line.fragments != [] {
      added := added + [lay.line];
    }
    result, numAdded := destination + added, |added|;
  }

  lemma FormatFromRests(style: Style, lay: Layout, text: string, cols: nat, indent: nat)
    requires 0 <= lay.column < cols && indent < cols
    ensures FormatFrom(style, lay, [], text, |text|, cols, indent) == lay
  {
  }

  lemma NextFragmentsMove(style: Style, text: string, pos: nat, room: nat)
    requires pos < |text| && room > 0
    ensures pos < NextFragments(style, text, pos, room).1
  {
  }

  lemma FinishedIs(lay: Layout)
    ensures Finished(lay) == if |lay.lines| == 0 || lay.line.fragments != [] then lay.lines + [lay.line] else lay.lines
  {
  }
}
