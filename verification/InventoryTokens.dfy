/**
 Serialized inventories as lines (src/inventory.cpp, serialize and deSerialize).  One line is one token;
 how a single stack is written on its line and read back is not modelled.
 */
module InventoryTokens {
  import opened Wrappers
  import opened Items

  datatype Token =
    | ListLine(name: string, size: nat)
    | KeepListLine(name: string)
    | WidthLine(width: nat)
    | ItemLine(item: ItemStack)
    | EmptyLine
    | KeepLine
    | EndListLine
    | EndInventoryLine

  /** The contents of one list. */
  datatype ListState = ListState(name: string, width: nat, items: seq<ItemStack>)

  // ---------------------------------------------------------------- one list

  function ItemToken(item: ItemStack): Token {
    if item.Empty() then EmptyLine else ItemLine(item)
  }

  function ItemTokens(items: seq<ItemStack>): (r: seq<Token>)
    ensures |r| == |items|
  {
    seq(|items|, i requires 0 <= i < |items| => ItemToken(items[i]))
  }

  function ListTokens(l: ListState): seq<Token> {
    [WidthLine(l.width)] + ItemTokens(l.items) + [EndListLine]
  }

  /** The stacks from index `from` on are cleared. */
  function Cleared(items: seq<ItemStack>, from: nat): (r: seq<ItemStack>)
    ensures |r| == |items|
  {
    seq(|items|, i requires 0 <= i < |items| => if i < from then items[i] else NOTHING)
  }

  datatype Parsed = Parsed(items: seq<ItemStack>, width: nat, rest: seq<Token>)

  /** Reading a list body: `i` stacks have been read.  None if an exception is thrown. */
  function ParseList(tokens: seq<Token>, items: seq<ItemStack>, i: nat, width: nat): (r: Option<Parsed>)
    ensures r.Some? ==> |r.value.items| == |items| && |r.value.rest| < |tokens|
  {
    if tokens == [] then None else
    match tokens[0]
    case EndListLine => Some(Parsed(Cleared(items, i), width, tokens[1..]))
    case WidthLine(w) => ParseList(tokens[1..], items, i, w)
    case ItemLine(item) => if i >= |items| then None else ParseList(tokens[1..], items[i := item], i + 1, width)
    case EmptyLine => if i >= |items| then None else ParseList(tokens[1..], items[i := NOTHING], i + 1, width)
    case KeepLine => ParseList(tokens[1..], items, i + 1, width)
    case _ => ParseList(tokens[1..], items, i, width)
  }

  /** Only valid stacks are written: an empty one is nothing. */
  ghost predicate Writable(items: seq<ItemStack>) {
    forall i :: 0 <= i < |items| && items[i].Empty() ==> items[i] == NOTHING
  }

  lemma {:induction false} ItemsReadBack(l: ListState, rest: seq<Token>, items: seq<ItemStack>, i: nat)
    requires Writable(l.items) && |items| == |l.items| && i <= |items|
    requires items[..i] == l.items[..i]
    ensures ParseList(ItemTokens(l.items)[i..] + [EndListLine] + rest, items, i, l.width)
         == Some(Parsed(l.items, l.width, rest))
    decreases |items| - i
  {
    var tokens := ItemTokens(l.items)[i..] + [EndListLine] + rest;
    if i == |items| {
      assert tokens == [EndListLine] + rest && tokens[1..] == rest;
      assert items[..i] == items && l.items[..i] == l.items;
      assert Cleared(items, i) == items;
    } else {
      var items' := items[i := l.items[i]];
      assert items'[..i + 1] == items[..i] + [l.items[i]] == l.items[..i] + [l.items[i]] == l.items[..i + 1];
      ItemsReadBack(l, rest, items', i + 1);
      assert tokens[0] == ItemToken(l.items[i]);
      assert tokens[1..] == ItemTokens(l.items)[i + 1..] + [EndListLine] + rest;
    }
  }

  /** A list body reads back as itself into any list of the same size. */
  lemma ListReadsBack(l: ListState, rest: seq<Token>, items: seq<ItemStack>)
    requires Writable(l.items) && |items| == |l.items|
    ensures ParseList(ListTokens(l) + rest, items, 0, 0) == Some(Parsed(l.items, l.width, rest))
  {
    ItemsReadBack(l, rest, items, 0);
    var tokens := ListTokens(l) + rest;
    assert tokens[0] == WidthLine(l.width);
    assert tokens[1..] == ItemTokens(l.items)[0..] + [EndListLine] + rest;
  }

  // ---------------------------------------------------------------- an inventory

  /** A list and whether it has changed since the last transmission. */
  datatype Tracked = Tracked(state: ListState, dirty: bool)

  function InventoryTokens(lists: seq<Tracked>, incremental: bool): seq<Token> {
    if lists == [] then [EndInventoryLine]
    else
      var l := lists[0];
      (if !incremental || l.dirty then [ListLine(l.state.name, |l.state.items|)] + ListTokens(l.state)
       else [KeepListLine(l.state.name)])
      + InventoryTokens(lists[1..], incremental)
  }

  /** The index of the first list called `name`, or -1. */
  function Find(lists: seq<ListState>, name: string): (i: int)
    ensures -1 <= i < |lists|
    ensures i >= 0 ==> lists[i].name == name && forall j :: 0 <= j < i ==> lists[j].name != name
    ensures i < 0 ==> forall j :: 0 <= j < |lists| ==> lists[j].name != name
  {
    if lists == [] then -1
    else if lists[0].name == name then 0
    else
      var i := Find(lists[1..], name);
      if i < 0 then -1 else i + 1
  }

  /** std::vector::resize. */
  function Resized(items: seq<ItemStack>, size: nat): (r: seq<ItemStack>)
    ensures |r| == size
  {
    if size <= |items| then items[..size] else items + seq(size - |items|, i => NOTHING)
  }

  /** The lists that were mentioned. */
  function Marked(lists: seq<ListState>, marks: seq<bool>): seq<ListState>
    requires |marks| == |lists|
  {
    if lists == [] then []
    else (if marks[0] then [lists[0]] else []) + Marked(lists[1..], marks[1..])
  }

  /** Reading an inventory into existing lists; `marks` says which have been mentioned so far. */
  function Receive(tokens: seq<Token>, lists: seq<ListState>, marks: seq<bool>): Option<seq<ListState>>
    requires |marks| == |lists|
    decreases |tokens|
  {
    if tokens == [] then None else
    match tokens[0]
    case EndInventoryLine => Some(Marked(lists, marks))
    case ListLine(name, size) =>
      var i := Find(lists, name);
      var l := if i >= 0 then lists[i].(items := Resized(lists[i].items, size))
          else ListState(name, 0, Resized([], size));
      var parsed := ParseList(tokens[1..], l.items, 0, 0);
      if parsed.None? then None else
      var l' := ListState(name, parsed.value.width, parsed.value.items);
      if i >= 0 then Receive(parsed.value.rest, lists[i := l'], marks[i := true])
      else Receive(parsed.value.rest, lists + [l'], marks + [true])
    case KeepListLine(name) =>
      var i := Find(lists, name);
      Receive(tokens[1..], lists, if i >= 0 then marks[i := true] else marks)
    case _ => Receive(tokens[1..], lists, marks)
  }

  ghost predicate HasName(lists: seq<Tracked>, name: string, dirty: bool) {
    exists i :: 0 <= i < |lists| && lists[i].dirty == dirty && lists[i].state.name == name
  }

  /** What is sent for one list. */
  function Sent(l: Tracked): seq<Token> {
    if l.dirty then [ListLine(l.state.name, |l.state.items|)] + ListTokens(l.state) else [KeepListLine(l.state.name)]
  }

  lemma SentIs(l: Tracked)
    ensures forall t :: t in Sent(l) && t.ListLine? ==> t.name == l.state.name && l.dirty
    ensures forall t :: t in Sent(l) && t.KeepListLine? ==> t.name == l.state.name && !l.dirty
    ensures !l.dirty ==> |Sent(l)| == 1
  {
    assert forall t :: t in ListTokens(l.state) ==> !t.ListLine? && !t.KeepListLine?;
  }

  lemma SentFirst(lists: seq<Tracked>)
    requires lists != []
    ensures InventoryTokens(lists, true) == Sent(lists[0]) + InventoryTokens(lists[1..], true)
  {
  }

  lemma NothingToSend()
    ensures InventoryTokens([], true) == [EndInventoryLine]
  {
  }

  /** Incrementally, only lists with changes are sent in full, and only those without are kept: when nothing has
      changed, there is one line for each list, and the end. */
  lemma {:induction false} OnlyChangesAreSent(lists: seq<Tracked>)
    ensures forall t :: t in InventoryTokens(lists, true) && t.ListLine? ==> HasName(lists, t.name, true)
    ensures forall t :: t in InventoryTokens(lists, true) && t.KeepListLine? ==> HasName(lists, t.name, false)
    ensures (forall i :: 0 <= i < |lists| ==> !lists[i].dirty) ==> |InventoryTokens(lists, true)| == |lists| + 1
  {
    hide *;
    if lists == [] {
      NothingToSend();
    } else {
      var rest := lists[1..];
      OnlyChangesAreSent(rest);
      SentFirst(lists);
      SentIs(lists[0]);
      NamesOfMore(lists);
    }
  }

  lemma NamesOfMore(lists: seq<Tracked>)
    requires lists != []
    ensures HasName(lists, lists[0].state.name, lists[0].dirty)
    ensures forall name, dirty :: HasName(lists[1..], name, dirty) ==> HasName(lists, name, dirty)
  {
    forall name, dirty | HasName(lists[1..], name, dirty) ensures HasName(lists, name, dirty) {
      var i :| 0 <= i < |lists[1..]| && lists[1..][i].dirty == dirty && lists[1..][i].state.name == name;
      assert lists[i + 1] == lists[1..][i];
    }
  }

  // ---------------------------------------------------------------- agreement

  ghost predicate UniqueNames(lists: seq<ListState>) {
    forall i, j :: 0 <= i < j < |lists| ==> lists[i].name != lists[j].name
  }

  ghost function States(lists: seq<Tracked>): (r: seq<ListState>)
    ensures |r| == |lists|
  {
    seq(|lists|, i requires 0 <= i < |lists| => lists[i].state)
  }

  ghost predicate Sendable(lists: seq<Tracked>) {
    && UniqueNames(States(lists))
    && forall i :: 0 <= i < |lists| ==> Writable(lists[i].state.items)
  }

  /** The receiver holds every clean list of the sender unchanged. */
  ghost predicate CleanListsAgree(sender: seq<Tracked>, receiver: seq<ListState>) {
    && UniqueNames(receiver)
    && forall i :: 0 <= i < |sender| && !sender[i].dirty ==> sender[i].state in receiver
  }

  /** The same lists with the same contents, in whatever order. */
  ghost predicate SameLists(a: seq<ListState>, b: seq<ListState>) {
    && UniqueNames(a) && UniqueNames(b)
    && forall l :: l in a <==> l in b
  }

  ghost predicate IsMarked(lists: seq<ListState>, marks: seq<bool>, l: ListState)
    requires |marks| == |lists|
  {
    exists i :: 0 <= i < |lists| && marks[i] && lists[i] == l
  }

  ghost predicate IsAmong(sender: seq<Tracked>, n: nat, l: ListState)
    requires n <= |sender|
  {
    exists k :: 0 <= k < n && sender[k].state == l
  }

  /** While reading: the marked lists are exactly the first `n` lists of the sender, and the lists
      still to be kept are in place. */
  ghost predicate Arrived(sender: seq<Tracked>, n: nat, lists: seq<ListState>, marks: seq<bool>, incremental: bool) {
    && n <= |sender| && |marks| == |lists| && UniqueNames(lists)
    && (forall i :: 0 <= i < |lists| && marks[i] ==> IsAmong(sender, n, lists[i]))
    && (forall k :: 0 <= k < n ==> IsMarked(lists, marks, sender[k].state))
    && forall k :: n <= k < |sender| && incremental && !sender[k].dirty ==> sender[k].state in lists
  }

  lemma {:induction false} MarkedContents(lists: seq<ListState>, marks: seq<bool>)
    requires |marks| == |lists| && UniqueNames(lists)
    ensures UniqueNames(Marked(lists, marks))
    ensures forall l :: l in Marked(lists, marks) <==> IsMarked(lists, marks, l)
  {
    if lists != [] {
      var lists1, marks1 := lists[1..], marks[1..];
      MarkedContents(lists1, marks1);
      forall l ensures l in Marked(lists, marks) <==> IsMarked(lists, marks, l) {
        if IsMarked(lists1, marks1, l) {
          var i :| 0 <= i < |lists1| && marks1[i] && lists1[i] == l;
          assert marks[i + 1] && lists[i + 1] == l;
        }
        if IsMarked(lists, marks, l) {
          var i :| 0 <= i < |lists| && marks[i] && lists[i] == l;
          assert i > 0 ==> marks1[i - 1] && lists1[i - 1] == l;
        }
      }
      var rest := Marked(lists1, marks1);
      forall i | 0 <= i < |rest| ensures rest[i].name != lists[0].name {
        assert IsMarked(lists1, marks1, rest[i]);
        var j :| 0 <= j < |lists1| && marks1[j] && lists1[j] == rest[i];
        assert lists[j + 1] == rest[i];
      }
    }
  }

  lemma SameName(lists: seq<ListState>, i: int, j: int)
    requires UniqueNames(lists) && 0 <= i < |lists| && 0 <= j < |lists| && lists[i].name == lists[j].name
    ensures i == j
  {
  }

  /** A list sent in full replaces the list of its name, or is new. */
  lemma ArrivedInFull(sender: seq<Tracked>, n: nat, lists: seq<ListState>, marks: seq<bool>, incremental: bool)
    requires Sendable(sender) && n < |sender| && Arrived(sender, n, lists, marks, incremental)
    ensures var l, i := sender[n].state, Find(lists, sender[n].state.name);
            if i >= 0 then Arrived(sender, n + 1, lists[i := l], marks[i := true], incremental)
            else Arrived(sender, n + 1, lists + [l], marks + [true], incremental)
  {
    hide *;
    var l, i := sender[n].state, Find(lists, sender[n].state.name);
    ArrivedSizes(sender, n, lists, marks, incremental);
    FindMeans(lists, l.name);
    if i >= 0 {
      OnlyOne(lists, i);
      ArrivedAt(sender, n, lists, marks, incremental, i, lists[i := l], marks[i := true]);
    } else {
      ArrivedAt(sender, n, lists, marks, incremental, |lists|, lists + [l], marks + [true]);
    }
  }

  lemma FindMeans(states: seq<ListState>, name: string)
    ensures var i := Find(states, name);
            && -1 <= i < |states|
            && (i >= 0 ==> states[i].name == name)
            && (i < 0 ==> forall k :: 0 <= k < |states| ==> states[k].name != name)
  {
  }

  /** The list of that name, or a new one, now has the contents of the sender's. */
  lemma ArrivedAt(sender: seq<Tracked>, n: nat, lists: seq<ListState>, marks: seq<bool>, incremental: bool,
                  at: nat, lists': seq<ListState>, marks': seq<bool>)
    requires Sendable(sender) && n < |sender| && Arrived(sender, n, lists, marks, incremental)
    requires at <= |lists| && |lists'| == |marks'| == if at < |lists| then |lists| else |lists| + 1
    requires lists'[at] == sender[n].state && marks'[at]
    requires forall j :: 0 <= j < |lists| && j != at ==> lists'[j] == lists[j] && marks'[j] == marks[j]
    requires forall j :: 0 <= j < |lists| ==> (lists[j].name == sender[n].state.name <==> j == at)
    ensures Arrived(sender, n + 1, lists', marks', incremental)
  {
    OtherNames(sender, n);
    NewNames(lists, at, lists');
    forall j | 0 <= j < |lists'| && marks'[j] ensures IsAmong(sender, n + 1, lists'[j]) {
      if j == at {
        assert sender[n].state == lists'[j];
      } else {
        AmongMore(sender, n, lists[j]);
      }
    }
    forall k | 0 <= k < n + 1 ensures IsMarked(lists', marks', sender[k].state) {
      if k == n {
        assert marks'[at] && lists'[at] == sender[n].state;
      } else {
        assert IsMarked(lists, marks, sender[k].state);
        StillMarked(lists, marks, at, lists', marks', sender[k].state);
      }
    }
    hide IsMarked, IsAmong, Sendable, UniqueNames;
    forall k | n + 1 <= k < |sender| && incremental && !sender[k].dirty ensures sender[k].state in lists' {
      var j :| 0 <= j < |lists| && lists[j] == sender[k].state;
      assert lists'[j] == sender[k].state;
    }
  }

  lemma OnlyOne(lists: seq<ListState>, i: nat)
    requires UniqueNames(lists) && i < |lists|
    ensures forall j :: 0 <= j < |lists| ==> (lists[j].name == lists[i].name <==> j == i)
  {
  }

  lemma NewNames(lists: seq<ListState>, at: nat, lists': seq<ListState>)
    requires UniqueNames(lists) && at <= |lists| && |lists'| == if at < |lists| then |lists| else |lists| + 1
    requires forall j :: 0 <= j < |lists| && j != at ==> lists'[j] == lists[j]
    requires forall j :: 0 <= j < |lists| && lists[j].name == lists'[at].name ==> j == at
    ensures UniqueNames(lists')
  {
  }

  lemma OtherNames(sender: seq<Tracked>, n: nat)
    requires Sendable(sender) && n < |sender|
    ensures forall k :: 0 <= k < |sender| && k != n ==> sender[k].state.name != sender[n].state.name
  {
    assert forall k :: 0 <= k < |sender| ==> States(sender)[k] == sender[k].state;
  }

  lemma AmongMore(sender: seq<Tracked>, n: nat, l: ListState)
    requires n < |sender| && IsAmong(sender, n, l)
    ensures IsAmong(sender, n + 1, l)
  {
  }

  lemma StillMarked(lists: seq<ListState>, marks: seq<bool>, at: nat, lists': seq<ListState>, marks': seq<bool>,
                    l: ListState)
    requires |marks| == |lists| <= |lists'| == |marks'|
    requires forall j :: 0 <= j < |lists| && j != at ==> lists'[j] == lists[j] && marks'[j] == marks[j]
    requires IsMarked(lists, marks, l) && (at < |lists| ==> lists[at].name != l.name)
    ensures IsMarked(lists', marks', l)
  {
    var j :| 0 <= j < |lists| && marks[j] && lists[j] == l;
    assert marks'[j] && lists'[j] == l;
  }

  /** A clean list is already there; it only has to be marked. */
  lemma ArrivedKept(sender: seq<Tracked>, n: nat, lists: seq<ListState>, marks: seq<bool>)
    requires Sendable(sender) && n < |sender| && Arrived(sender, n, lists, marks, true) && !sender[n].dirty
    ensures var i := Find(lists, sender[n].state.name);
            i >= 0 && Arrived(sender, n + 1, lists, marks[i := true], true)
  {
    var l, i := sender[n].state, Find(lists, sender[n].state.name);
    var j :| 0 <= j < |lists| && lists[j] == l;
    SameName(lists, i, j);
    var marks' := marks[i := true];
    forall j | 0 <= j < |lists| && marks'[j] ensures IsAmong(sender, n + 1, lists[j]) {
      if j == i {
        assert sender[n].state == lists[j];
      } else {
        var k :| 0 <= k < n && sender[k].state == lists[j];
        assert sender[k].state == lists[j];
      }
    }
    forall k | 0 <= k < n + 1 ensures IsMarked(lists, marks', sender[k].state) {
      if k == n {
        assert marks'[i] && lists[i] == l;
      } else {
        assert IsMarked(lists, marks, sender[k].state);
        var j :| 0 <= j < |lists| && marks[j] && lists[j] == sender[k].state;
        assert marks'[j] && lists[j] == sender[k].state;
      }
    }
  }

  lemma {:induction false} ReceivesRest(sender: seq<Tracked>, n: nat, lists: seq<ListState>, marks: seq<bool>,
                                        incremental: bool)
    requires Sendable(sender) && Arrived(sender, n, lists, marks, incremental)
    ensures var r := Receive(InventoryTokens(sender[n..], incremental), lists, marks);
            r.Some? && SameLists(r.value, States(sender))
    decreases |sender| - n
  {
    hide *;
    ArrivedSizes(sender, n, lists, marks, incremental);
    var tokens := InventoryTokens(sender[n..], incremental);
    if n == |sender| {
      TokensEnd(sender, incremental);
      ReceiveLine(tokens, lists, marks);
      MarkedContents(lists, marks);
      AllArrived(sender, lists, marks, incremental);
    } else {
      var l := sender[n].state;
      var rest := InventoryTokens(sender[n + 1..], incremental);
      TokensNext(sender, n, incremental);
      if incremental && !sender[n].dirty {
        ArrivedKept(sender, n, lists, marks);
        ReceivesRest(sender, n + 1, lists, marks[Find(lists, l.name) := true], true);
        ReceiveLine(tokens, lists, marks);
      } else {
        ArrivedInFull(sender, n, lists, marks, incremental);
        var i := Find(lists, l.name);
        SentIsWritable(sender, n);
        ListReadsBack(l, rest, Resized(if i >= 0 then lists[i].items else [], |l.items|));
        ReceiveList(tokens, lists, marks, l.name, |l.items|);
        if i >= 0 {
          ReceivesRest(sender, n + 1, lists[i := l], marks[i := true], incremental);
        } else {
          ReceivesRest(sender, n + 1, lists + [l], marks + [true], incremental);
        }
      }
    }
  }

  lemma ArrivedSizes(sender: seq<Tracked>, n: nat, lists: seq<ListState>, marks: seq<bool>, incremental: bool)
    requires Arrived(sender, n, lists, marks, incremental)
    ensures n <= |sender| && |marks| == |lists| && UniqueNames(lists)
  {
  }

  lemma SentIsWritable(sender: seq<Tracked>, n: nat)
    requires Sendable(sender) && n < |sender|
    ensures Writable(sender[n].state.items)
  {
  }

  lemma TokensEnd(sender: seq<Tracked>, incremental: bool)
    ensures InventoryTokens(sender[|sender|..], incremental) == [EndInventoryLine]
  {
  }

  lemma TokensNext(sender: seq<Tracked>, n: nat, incremental: bool)
    requires n < |sender|
    ensures var l, rest := sender[n].state, InventoryTokens(sender[n + 1..], incremental);
            var tokens := InventoryTokens(sender[n..], incremental);
            && tokens != []
            && if incremental && !sender[n].dirty then
                 tokens[0] == KeepListLine(l.name) && tokens[1..] == rest
               else
                 tokens[0] == ListLine(l.name, |l.items|) && tokens[1..] == ListTokens(l) + rest
  {
    assert sender[n..][1..] == sender[n + 1..] && sender[n..][0] == sender[n];
    var l, rest := sender[n].state, InventoryTokens(sender[n + 1..], incremental);
    if !(incremental && !sender[n].dirty) {
      assert InventoryTokens(sender[n..], incremental) == [ListLine(l.name, |l.items|)] + (ListTokens(l) + rest);
    }
  }

  /** One line of an inventory, other than the start of a list. */
  lemma ReceiveLine(tokens: seq<Token>, states: seq<ListState>, marks: seq<bool>)
    requires tokens != [] && |marks| == |states|
    ensures var r := Receive(tokens, states, marks);
            if tokens[0].EndInventoryLine? then r == Some(Marked(states, marks))
            else if tokens[0].KeepListLine? then
              var i := Find(states, tokens[0].name);
              r == Receive(tokens[1..], states, if i >= 0 then marks[i := true] else marks)
            else tokens[0].ListLine? || r == Receive(tokens[1..], states, marks)
  {
    hide ParseList, Find, Marked;
  }

  /** The start of a list, and its body. */
  lemma ReceiveList(tokens: seq<Token>, states: seq<ListState>, marks: seq<bool>, name: string, size: nat)
    requires tokens != [] && |marks| == |states| && tokens[0] == ListLine(name, size)
    ensures var i := Find(states, name);
            var parsed := ParseList(tokens[1..], Resized(if i >= 0 then states[i].items else [], size), 0, 0);
            Receive(tokens, states, marks) ==
              if parsed.None? then None else
              var l := ListState(name, parsed.value.width, parsed.value.items);
              if i >= 0 then Receive(parsed.value.rest, states[i := l], marks[i := true])
              else Receive(parsed.value.rest, states + [l], marks + [true])
  {
    hide ParseList, Find, Marked, Resized;
  }

  lemma AllArrived(sender: seq<Tracked>, lists: seq<ListState>, marks: seq<bool>, incremental: bool)
    requires Sendable(sender) && Arrived(sender, |sender|, lists, marks, incremental)
    requires UniqueNames(Marked(lists, marks))
    requires forall l :: l in Marked(lists, marks) <==> IsMarked(lists, marks, l)
    ensures SameLists(Marked(lists, marks), States(sender))
  {
    hide UniqueNames;
    forall l ensures l in Marked(lists, marks) <==> l in States(sender) {
      if l in States(sender) {
        var k :| 0 <= k < |sender| && States(sender)[k] == l;
        assert IsMarked(lists, marks, sender[k].state);
      }
      if IsMarked(lists, marks, l) {
        var i :| 0 <= i < |lists| && marks[i] && lists[i] == l;
        var k :| 0 <= k < |sender| && sender[k].state == lists[i];
        assert States(sender)[k] == l;
      }
    }
  }

  /** Reading the sender's incremental output makes the receiver agree on every list, and drops the
      lists the sender no longer has. */
  lemma IncrementalSync(sender: seq<Tracked>, receiver: seq<ListState>, incremental: bool)
    requires Sendable(sender) && UniqueNames(receiver)
    requires incremental ==> CleanListsAgree(sender, receiver)
    ensures var r := Receive(InventoryTokens(sender, incremental), receiver, NoMarks(receiver));
            r.Some? && SameLists(r.value, States(sender))
  {
    assert sender[0..] == sender;
    ReceivesRest(sender, 0, receiver, NoMarks(receiver), incremental);
  }

  function NoMarks(lists: seq<ListState>): (r: seq<bool>)
    ensures |r| == |lists|
  {
    seq(|lists|, i => false)
  }

  // ---------------------------------------------------------------- runs

  /** A sender that tracks changes, and a copy elsewhere. */
  datatype Replication = Replication(sender: seq<Tracked>, receiver: seq<ListState>)

  /** Any sequence of edits: whatever is not untouched and clean is flagged. */
  ghost predicate EditStep(a: seq<Tracked>, b: seq<Tracked>) {
    Sendable(b) && forall i :: 0 <= i < |b| && !b[i].dirty ==> b[i] in a
  }

  function Flagless(lists: seq<Tracked>): (r: seq<Tracked>)
    ensures |r| == |lists|
  {
    seq(|lists|, i requires 0 <= i < |lists| => lists[i].(dirty := false))
  }

  /** Transmitting (in full or incrementally) and then resetting the flags. */
  ghost predicate SendStep(a: Replication, b: Replication) {
    && b.sender == Flagless(a.sender)
    && exists incremental :: Receive(InventoryTokens(a.sender, incremental), a.receiver, NoMarks(a.receiver))
        == Some(b.receiver)
  }

  ghost predicate Step(a: Replication, b: Replication) {
    || (EditStep(a.sender, b.sender) && b.receiver == a.receiver)
    || SendStep(a, b)
  }

  ghost predicate InSync(r: Replication) {
    Sendable(r.sender) && CleanListsAgree(r.sender, r.receiver)
  }

  ghost predicate IsRun(run: seq<Replication>) {
    run != [] && forall i :: 0 <= i < |run| - 1 ==> Step(run[i], run[i + 1])
  }

  lemma StepKeepsSync(a: Replication, b: Replication)
    requires InSync(a) && Step(a, b)
    ensures InSync(b)
    ensures SendStep(a, b) ==> SameLists(b.receiver, States(b.sender))
  {
    if SendStep(a, b) {
      var incremental :| Receive(InventoryTokens(a.sender, incremental), a.receiver, NoMarks(a.receiver))
          == Some(b.receiver);
      IncrementalSync(a.sender, a.receiver, incremental);
      assert States(b.sender) == States(a.sender);
      forall i | 0 <= i < |b.sender| ensures b.sender[i].state in b.receiver && Writable(b.sender[i].state.items) {
        assert States(b.sender)[i] == b.sender[i].state == a.sender[i].state;
      }
    }
  }

  /** Along any run of edits and transmissions the copy never goes stale unnoticed, and right after a
      transmission it is complete. */
  lemma {:induction false} RunsStaySynchronised(run: seq<Replication>, k: nat)
    requires IsRun(run) && InSync(run[0]) && k < |run|
    ensures InSync(run[k])
    ensures k > 0 && SendStep(run[k - 1], run[k]) ==> SameLists(run[k].receiver, States(run[k].sender))
  {
    if k > 0 {
      RunsStaySynchronised(run, k - 1);
      StepKeepsSync(run[k - 1], run[k]);
    }
  }
}
