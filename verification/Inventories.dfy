/**
 Inventories (src/inventory.cpp, class Inventory): named lists, and keeping a copy up to date.
 */
module Inventories {
  import opened Wrappers
  import opened Items
  import opened InventoryTokens
  import opened InventoryLists

  /** The contents of list objects, without and with their flags. */
  ghost function StatesOf(lists: seq<InventoryList>): (r: seq<ListState>)
    reads lists
    ensures |r| == |lists|
  {
    seq(|lists|, i requires 0 <= i < |lists| reads lists => lists[i].State())
  }

  ghost function TrackedOf(lists: seq<InventoryList>): (r: seq<Tracked>)
    reads lists
    ensures |r| == |lists|
  {
    seq(|lists|, i requires 0 <= i < |lists| reads lists => Tracked(lists[i].State(), lists[i].dirty))
  }

  /** All but one element. */
  function Without<T>(s: seq<T>, i: nat): seq<T>
    requires i < |s|
  {
    s[..i] + s[i + 1..]
  }

  class Inventory {
    var lists: seq<InventoryList>
    var dirty: bool
    const defs: ItemDefs

    ghost predicate Valid()
      reads this`lists, lists
    {
      && Sane(defs)
      && (forall i, j :: 0 <= i < j < |lists| ==> lists[i] != lists[j])
      && forall i :: 0 <= i < |lists| ==> lists[i].Valid() && lists[i].defs == defs
    }

    constructor (defs: ItemDefs)
      requires Sane(defs)
      ensures Valid() && lists == [] && dirty
    {
      lists, dirty, this.defs := [], true, defs;
    }

    method GetListIndex(name: string) returns (i: int)
      ensures i == Find(StatesOf(lists), name)
    {
      for k := 0 to |lists|
        invariant forall j :: 0 <= j < k ==> lists[j].name != name
      {
        if lists[k].name == name {
          assert StatesOf(lists)[k].name == name;
          assert forall j :: 0 <= j < k ==> StatesOf(lists)[j].name != name;
          return k;
        }
      }
      assert forall j :: 0 <= j < |lists| ==> StatesOf(lists)[j].name != name;
      return -1;
    }

    method CheckModified() returns (r: bool)
      ensures r <==> dirty || exists i :: 0 <= i < |lists| && lists[i].dirty
    {
      if dirty {
        return true;
      }
      for i := 0 to |lists|
        invariant forall j :: 0 <= j < i ==> !lists[j].dirty
      {
        if lists[i].dirty {
          return true;
        }
      }
      return false;
    }

    /** setModified(false): everything has been handled. */
    method ResetModified()
      requires Valid()
      modifies this`dirty, lists
      ensures Valid() && !dirty && lists == old(lists) && TrackedOf(lists) == Flagless(old(TrackedOf(lists)))
    {
      dirty := false;
      for i := 0 to |lists|
        invariant Valid() && !dirty && lists == old(lists)
        invariant forall j :: 0 <= j < |lists| ==> lists[j].State() == old(lists[j].State())
        invariant forall j :: 0 <= j < i ==> !lists[j].dirty
      {
        lists[i].dirty := false;
      }
    }

    method Serialize(incremental: bool) returns (tokens: seq<Token>)
      ensures tokens == InventoryTokens.InventoryTokens(TrackedOf(lists), incremental)
    {
      tokens := [];
      ghost var all := TrackedOf(lists);
      assert all[0..] == all;
      hide InventoryTokens.InventoryTokens;
      for i := 0 to |lists|
        invariant tokens + InventoryTokens.InventoryTokens(all[i..], incremental)
                  == InventoryTokens.InventoryTokens(all, incremental)
      {
        var list := lists[i];
        assert all[i] == Tracked(list.State(), list.dirty);
        OneMoreList(tokens, all, i, incremental);
        if !incremental || list.dirty {
          var body := list.Serialize();
          tokens := tokens + ([ListLine(list.name, |list.items|)] + body);
        } else {
          tokens := tokens + [KeepListLine(list.name)];
        }
      }
      NoMoreLists(incremental);
      tokens := tokens + [EndInventoryLine];
    }

    /** Creates a list, or empties the existing list of that name.  A new name must not contain spaces. */
    method AddList(name: string, size: nat) returns (list: InventoryList?)
      requires Valid()
      modifies this, lists
      ensures Valid() && dirty
      ensures var i := Find(old(StatesOf(lists)), name);
              if i >= 0 then
                && list != null && lists == old(lists) && list == lists[i]
                && var items := Cleared(Resized(old(lists[i].items), size), 0);
                   TrackedOf(lists)
                   == old(TrackedOf(lists))[i := Tracked(ListState(name, old(lists[i].width), items), true)]
              else if ' ' in name then
                list == null && lists == old(lists) && TrackedOf(lists) == old(TrackedOf(lists))
              else
                && list != null && fresh(list) && lists == old(lists) + [list]
                && TrackedOf(lists)
                   == old(TrackedOf(lists)) + [Tracked(ListState(name, 0, seq(size, i => NOTHING)), true)]
      ensures old(Sendable(TrackedOf(lists))) ==> EditStep(old(TrackedOf(lists)), TrackedOf(lists))
    {
      hide *;
      dirty := true;
      ghost var was, states := TrackedOf(lists), StatesOf(lists);
      var i := GetListIndex(name);
      FindMeans(states, name);
      ValidTracked();
      if i != -1 {
        EmptyList(i, size);
        list := lists[i];
        EmptiedOne(was, i, size);
      } else if ' ' in name {
        NothingEdited(was);
        return null;
      } else {
        list := AppendList(name, size);
        AppendedOne(was, states, name, size);
      }
    }

    lemma ValidTracked()
      requires Valid()
      ensures forall k :: 0 <= k < |lists| ==>
        && TrackedOf(lists)[k].state == StatesOf(lists)[k]
        && TrackedOf(lists)[k].state.name == lists[k].name && TrackedOf(lists)[k].state.width == lists[k].width
        && TrackedOf(lists)[k].state.items == lists[k].items && Writable(lists[k].items)
    {
    }

    method EmptyList(i: nat, size: nat)
      requires Valid() && i < |lists|
      modifies lists
      ensures Valid() && lists == old(lists)
      ensures TrackedOf(lists) == old(TrackedOf(lists))[i :=
                Tracked(ListState(old(lists[i].name), old(lists[i].width),
                                  Cleared(Resized(old(lists[i].items), size), 0)), true)]
    {
      hide Resized;
      var list := lists[i];
      list.SetSize(size);
      list.ClearItems();
      assert TrackedOf(lists) == old(TrackedOf(lists))[i := Tracked(list.State(), true)];
    }

    method AppendList(name: string, size: nat) returns (list: InventoryList)
      requires Valid()
      modifies this`lists
      ensures Valid() && fresh(list) && lists == old(lists) + [list]
      ensures TrackedOf(lists) == old(TrackedOf(lists)) + [Tracked(ListState(name, 0, seq(size, i => NOTHING)), true)]
    {
      list := new InventoryList(name, size, defs);
      lists := lists + [list];
      assert TrackedOf(lists) == old(TrackedOf(lists)) + [Tracked(list.State(), true)];
    }

    method DeleteList(name: string) returns (found: bool)
      requires Valid()
      modifies this
      ensures Valid()
      ensures var i := Find(old(StatesOf(lists)), name);
              && found == (i >= 0)
              && lists == (if found then Without(old(lists), i) else old(lists))
              && TrackedOf(lists) == (if found then Without(old(TrackedOf(lists)), i) else old(TrackedOf(lists)))
      ensures old(Sendable(TrackedOf(lists))) ==> EditStep(old(TrackedOf(lists)), TrackedOf(lists))
    {
      hide *;
      ghost var was := TrackedOf(lists);
      var i := GetListIndex(name);
      FindMeans(StatesOf(lists), name);
      if i == -1 {
        NothingEdited(was);
        return false;
      }
      dirty := true;
      DropList(i);
      RemovedOne(was, i);
      return true;
    }

    method DropList(i: nat)
      requires Valid() && i < |lists|
      modifies this`lists
      ensures Valid() && lists == Without(old(lists), i)
      ensures TrackedOf(lists) == Without(old(TrackedOf(lists)), i)
    {
      lists := lists[..i] + lists[i + 1..];
      assert TrackedOf(lists) == Without(old(TrackedOf(lists)), i);
    }

    /** Reads a whole inventory over this one; `ok` is false where the program throws. */
    method DeSerialize(tokens: seq<Token>) returns (ok: bool)
      requires Valid() && ValidTokens(tokens)
      modifies this, lists
      ensures Valid()
      ensures var r := Receive(tokens, old(StatesOf(lists)), NoMarks(old(StatesOf(lists))));
              && ok == r.Some?
              && (ok ==> StatesOf(lists) == r.value)
    {
      hide *;
      var newLists: seq<InventoryList> := [];
      var rest := tokens;
      ghost var marks := NoMarks(StatesOf(lists));
      ghost var goal := Receive(tokens, StatesOf(lists), marks);
      ghost var mine := lists;
      NoneMentioned();
      assert forall i :: 0 <= i < |lists| ==> lists[i] in mine;
      while rest != []
        invariant Valid() && ValidTokens(rest) && |marks| == |lists| && Mentioned(newLists, marks)
        invariant forall i :: 0 <= i < |lists| ==> lists[i] in mine || fresh(lists[i])
        invariant Receive(rest, StatesOf(lists), marks) == goal
        decreases |rest|
      {
        ReceiveLine(rest, StatesOf(lists), marks);
        ValidTail(rest);
        var line := rest[0];
        match line {
          case EndInventoryLine =>
            MentionedMeans(newLists, marks);
            DropUnmarked(newLists, marks);
            return true;
          case ListLine(_, _) =>
            ok, rest, newLists, marks := ReadMentioned(rest, newLists, marks);
            if !ok {
              return;
            }
          case KeepListLine(name) =>
            rest := rest[1..];
            newLists, marks := KeepMentioned(name, newLists, marks);
          case _ =>
            rest := rest[1..];
        }
      }
      ReceiveNothing(StatesOf(lists), marks);
      return false;
    }

    /** The lists that have been mentioned are the marked ones. */
    ghost predicate Mentioned(newLists: seq<InventoryList>, marks: seq<bool>)
      reads this`lists
    {
      && |marks| == |lists|
      && (forall i :: 0 <= i < |lists| ==> (marks[i] <==> lists[i] in newLists))
      && forall l :: l in newLists ==> l in lists
    }

    lemma NoneMentioned()
      ensures Mentioned([], NoMarks(StatesOf(lists)))
    {
    }

    /** A list in full: it is read over the list of its name, or added. */
    method ReadMentioned(tokens: seq<Token>, newLists: seq<InventoryList>, ghost marks: seq<bool>)
      returns (ok: bool, rest: seq<Token>, newLists': seq<InventoryList>, ghost marks': seq<bool>)
      requires Valid() && ValidTokens(tokens) && |marks| == |lists| && Mentioned(newLists, marks)
      requires tokens != [] && tokens[0].ListLine?
      modifies this, lists
      ensures Valid() && ValidTokens(rest)
      ensures ok ==> |marks'| == |lists| && Mentioned(newLists', marks')
      ensures ok ==> forall i :: 0 <= i < |lists| ==> lists[i] in old(lists) || fresh(lists[i])
      ensures ok ==> |rest| < |tokens|
      ensures ok ==> Receive(rest, StatesOf(lists), marks') == Receive(tokens, old(StatesOf(lists)), marks)
      ensures !ok ==> Receive(tokens, old(StatesOf(lists)), marks) == None
    {
      hide *;
      MentionedMeans(newLists, marks);
      var name, size := tokens[0].name, tokens[0].size;
      ghost var was, states, i := lists, StatesOf(lists), Find(StatesOf(lists), name);
      var list;
      FindMeans(states, name);
      ReceiveList(tokens, states, marks, name, size);
      ValidTail(tokens);
      ok, rest, list := ReadList(name, size, tokens[1..]);
      newLists', marks' := newLists, marks;
      assert forall k :: 0 <= k < |was| ==> was[k] in was;
      if ok {
        newLists' := newLists + [list];
        if i >= 0 {
          marks' := marks[i := true];
          MentionedOne(newLists, marks, i);
        } else {
          marks' := marks + [true];
          MentionedNew(was, newLists, marks, list);
        }
      }
    }

    method KeepMentioned(name: string, newLists: seq<InventoryList>, ghost marks: seq<bool>)
      returns (newLists': seq<InventoryList>, ghost marks': seq<bool>)
      requires Valid() && |marks| == |lists| && Mentioned(newLists, marks)
      ensures |marks'| == |lists| && Mentioned(newLists', marks')
      ensures marks' == var i := Find(StatesOf(lists), name); if i >= 0 then marks[i := true] else marks
    {
      hide *;
      var i := GetListIndex(name);
      FindMeans(StatesOf(lists), name);
      newLists', marks' := newLists, marks;
      if i != -1 {
        MentionedOne(newLists, marks, i);
        newLists', marks' := newLists + [lists[i]], marks[i := true];
      }
    }

    lemma MentionedMeans(newLists: seq<InventoryList>, marks: seq<bool>)
      requires Mentioned(newLists, marks)
      ensures |marks| == |lists| && forall i :: 0 <= i < |lists| ==> (marks[i] <==> lists[i] in newLists)
      ensures forall l :: l in newLists ==> l in lists
    {
    }

    lemma MentionedOne(newLists: seq<InventoryList>, marks: seq<bool>, i: nat)
      requires Valid() && Mentioned(newLists, marks) && i < |lists|
      ensures Mentioned(newLists + [lists[i]], marks[i := true])
    {
    }

    lemma MentionedNew(was: seq<InventoryList>, newLists: seq<InventoryList>, marks: seq<bool>, list: InventoryList)
      requires lists == was + [list] && list !in was && |marks| == |was|
      requires forall i :: 0 <= i < |was| ==> (marks[i] <==> was[i] in newLists)
      requires forall l :: l in newLists ==> l in was
      ensures Mentioned(newLists + [list], marks + [true])
    {
    }

    /** Reads one list in full, creating it if there is none of that name. */
    method ReadList(name: string, size: nat, tokens: seq<Token>)
      returns (ok: bool, rest: seq<Token>, list: InventoryList)
      requires Valid() && ValidTokens(tokens)
      modifies this, lists
      ensures Valid() && ValidTokens(rest)
      ensures var i := Find(old(StatesOf(lists)), name);
              var items := Resized(if i >= 0 then old(StatesOf(lists))[i].items else [], size);
              var parsed := ParseList(tokens, items, 0, 0);
              && ok == parsed.Some?
              && (ok ==> var l := ListState(name, parsed.value.width, parsed.value.items);
                         && rest == parsed.value.rest
                         && (if i >= 0 then
                               && lists == old(lists) && list == lists[i]
                               && StatesOf(lists) == old(StatesOf(lists))[i := l]
                             else
                               && fresh(list) && lists == old(lists) + [list]
                               && StatesOf(lists) == old(StatesOf(lists)) + [l]))
    {
      hide *;
      var i := GetListIndex(name);
      FindMeans(StatesOf(lists), name);
      if i == -1 {
        ok, rest, list := ReadNew(name, size, tokens);
      } else {
        ok, rest, list := ReadExisting(i, name, size, tokens);
      }
    }

    method ReadNew(name: string, size: nat, tokens: seq<Token>)
      returns (ok: bool, rest: seq<Token>, list: InventoryList)
      requires Valid() && ValidTokens(tokens)
      modifies this`lists
      ensures Valid() && ValidTokens(rest) && fresh(list)
      ensures var parsed := ParseList(tokens, Resized([], size), 0, 0);
              && ok == parsed.Some?
              && (ok ==> var l := ListState(name, parsed.value.width, parsed.value.items);
                         && rest == parsed.value.rest && lists == old(lists) + [list]
                         && StatesOf(lists) == old(StatesOf(lists)) + [l])
    {
      hide *;
      ValidMeans();
      list := new InventoryList(name, size, defs);
      NewItems(list.items, size);
      ok, rest := list.DeSerialize(tokens);
      if ok {
        AddRead(list);
      }
    }

    method AddRead(list: InventoryList)
      requires Valid() && list.Valid() && list.defs == defs && list !in lists
      modifies this`lists
      ensures Valid() && lists == old(lists) + [list]
      ensures StatesOf(lists) == old(StatesOf(lists)) + [ListState(list.name, list.width, list.items)]
    {
      lists := lists + [list];
      assert StatesOf(lists) == old(StatesOf(lists)) + [list.State()];
    }

    lemma ValidMeans()
      requires Valid()
      ensures Sane(defs)
    {
    }

    method ReadExisting(i: nat, name: string, size: nat, tokens: seq<Token>)
      returns (ok: bool, rest: seq<Token>, list: InventoryList)
      requires Valid() && ValidTokens(tokens) && i < |lists| && StatesOf(lists)[i].name == name
      modifies lists
      ensures Valid() && ValidTokens(rest) && list == lists[i]
      ensures var parsed := ParseList(tokens, Resized(old(StatesOf(lists))[i].items, size), 0, 0);
              && ok == parsed.Some?
              && (ok ==> var l := ListState(name, parsed.value.width, parsed.value.items);
                         && rest == parsed.value.rest && StatesOf(lists) == old(StatesOf(lists))[i := l])
    {
      hide ParseList, Resized;
      list := lists[i];
      list.SetSize(size);
      ok, rest := list.DeSerialize(tokens);
      if ok {
        assert StatesOf(lists) == old(StatesOf(lists))[i := list.State()];
      }
    }

    /** Removes all lists that were not mentioned. */
    method DropUnmarked(newLists: seq<InventoryList>, ghost marks: seq<bool>)
      requires Valid() && |marks| == |lists|
      requires forall i :: 0 <= i < |lists| ==> (marks[i] <==> lists[i] in newLists)
      modifies this
      ensures Valid() && StatesOf(lists) == Marked(old(StatesOf(lists)), marks)
    {
      var kept := KeepMarked(newLists, marks);
      assert forall i :: 0 <= i < |kept| ==> kept[i] in lists;
      dirty := dirty || |kept| < |lists|;
      lists := kept;
    }

    method KeepMarked(newLists: seq<InventoryList>, ghost marks: seq<bool>) returns (kept: seq<InventoryList>)
      requires Valid() && |marks| == |lists|
      requires forall i :: 0 <= i < |lists| ==> (marks[i] <==> lists[i] in newLists)
      ensures forall a, b :: 0 <= a < b < |kept| ==> kept[a] != kept[b]
      ensures forall l :: l in kept ==> l in lists
      ensures StatesOf(kept) == Marked(StatesOf(lists), marks)
    {
      kept := [];
      ghost var states := StatesOf(lists);
      hide Marked;
      MarkedEnds(states, marks);
      for i := 0 to |lists|
        invariant forall a, b :: 0 <= a < b < |kept| ==> kept[a] != kept[b]
        invariant forall l :: l in kept ==> l in lists[..i]
        invariant StatesOf(kept) + Marked(states[i..], marks[i..]) == Marked(states, marks)
      {
        MarkedStep(StatesOf(kept), states, marks, i);
        assert lists[..i + 1] == lists[..i] + [lists[i]];
        if lists[i] in newLists {
          assert lists[i] !in lists[..i];
          assert StatesOf(kept + [lists[i]]) == StatesOf(kept) + [states[i]];
          kept := kept + [lists[i]];
        }
      }
    }
  }

  lemma NewItems(items: seq<ItemStack>, size: nat)
    requires items == seq(size, i => NOTHING)
    ensures items == Resized([], size)
  {
  }

  lemma ValidTail(tokens: seq<Token>)
    requires tokens != [] && ValidTokens(tokens)
    ensures ValidTokens(tokens[1..])
  {
  }

  lemma ReceiveNothing(states: seq<ListState>, marks: seq<bool>)
    requires |marks| == |states|
    ensures Receive([], states, marks) == None
  {
  }

  lemma EmptiedOne(a: seq<Tracked>, i: nat, size: nat)
    requires i < |a| && Writable(a[i].state.items)
    ensures var s := a[i].state;
            Sendable(a) ==> EditStep(a, a[i := Tracked(ListState(s.name, s.width, Cleared(Resized(s.items, size), 0)),
                                                       true)])
  {
    var s := a[i].state;
    hide Sendable, EditStep, Resized;
    assert Writable(Cleared(Resized(s.items, size), 0));
    EditedOne(a, i, Tracked(ListState(s.name, s.width, Cleared(Resized(s.items, size), 0)), true));
  }

  lemma AppendedOne(a: seq<Tracked>, states: seq<ListState>, name: string, size: nat)
    requires |a| == |states| && forall k :: 0 <= k < |a| ==> a[k].state == states[k] && states[k].name != name
    ensures Sendable(a) ==> EditStep(a, a + [Tracked(ListState(name, 0, seq(size, i => NOTHING)), true)])
  {
    hide Sendable, EditStep;
    AddedOne(a, Tracked(ListState(name, 0, seq(size, i => NOTHING)), true));
  }

  lemma MarkedStep(kept: seq<ListState>, states: seq<ListState>, marks: seq<bool>, i: nat)
    requires |marks| == |states| && i < |states|
    ensures kept + Marked(states[i..], marks[i..])
         == (if marks[i] then kept + [states[i]] else kept) + Marked(states[i + 1..], marks[i + 1..])
  {
    assert states[i..][1..] == states[i + 1..] && marks[i..][1..] == marks[i + 1..];
  }

  lemma MarkedEnds(states: seq<ListState>, marks: seq<bool>)
    requires |marks| == |states|
    ensures [] + Marked(states[0..], marks[0..]) == Marked(states, marks)
    ensures Marked(states[|states|..], marks[|states|..]) == []
  {
    assert states[0..] == states && marks[0..] == marks;
  }

  lemma OneMoreList(tokens: seq<Token>, all: seq<Tracked>, i: nat, incremental: bool)
    requires i < |all|
    ensures var l := all[i];
            var here := if !incremental || l.dirty then [ListLine(l.state.name, |l.state.items|)] + ListTokens(l.state)
                        else [KeepListLine(l.state.name)];
            tokens + InventoryTokens.InventoryTokens(all[i..], incremental)
            == (tokens + here) + InventoryTokens.InventoryTokens(all[i + 1..], incremental)
  {
    assert all[i..][1..] == all[i + 1..];
  }

  lemma NoMoreLists(incremental: bool)
    ensures InventoryTokens.InventoryTokens([], incremental) == [EndInventoryLine]
  {
  }

  /** A mutator that flags its list whenever it changes it, and never clears the flag, is an edit. */
  lemma EditedOne(a: seq<Tracked>, i: nat, l: Tracked)
    requires i < |a| && l.state.name == a[i].state.name && Writable(l.state.items)
    requires (l.state != a[i].state ==> l.dirty) && (a[i].dirty ==> l.dirty)
    ensures Sendable(a) ==> EditStep(a, a[i := l])
  {
    if Sendable(a) {
      var b := a[i := l];
      forall j, k | 0 <= j < k < |b| ensures States(b)[j].name != States(b)[k].name {
        assert States(a)[j].name != States(a)[k].name;
      }
    }
  }

  lemma NothingEdited(a: seq<Tracked>)
    ensures Sendable(a) ==> EditStep(a, a)
  {
  }

  lemma AddedOne(a: seq<Tracked>, l: Tracked)
    requires l.dirty && Writable(l.state.items)
    requires forall i :: 0 <= i < |a| ==> a[i].state.name != l.state.name
    ensures Sendable(a) ==> EditStep(a, a + [l])
  {
    if Sendable(a) {
      var b := a + [l];
      forall j, k | 0 <= j < k < |b| ensures States(b)[j].name != States(b)[k].name {
        assert k < |a| ==> States(a)[j].name != States(a)[k].name;
      }
    }
  }

  lemma RemovedOne(a: seq<Tracked>, i: nat)
    requires i < |a|
    ensures Sendable(a) ==> EditStep(a, Without(a, i))
  {
    if Sendable(a) {
      var b := a[..i] + a[i + 1..];
      forall j, k | 0 <= j < k < |b| ensures States(b)[j].name != States(b)[k].name {
        var j', k' := if j < i then j else j + 1, if k < i then k else k + 1;
        assert States(a)[j'].name != States(a)[k'].name;
      }
    }
  }
}
