/**
 Which slots of an inventory list take items first, and which give them first (src/inventory.cpp,
 InventoryList::addItem and removeItem).
 */
module InventoryOrder {

  import opened Items
  import opened InventoryLists

  lemma {:induction false} PouredValid(slots: seq<ItemStack>, x: ItemStack, intoEmpty: bool, defs: ItemDefs)
    requires AllValid(slots) && x.Valid() && Sane(defs)
    ensures var rest := Pour(slots, x, intoEmpty, defs).1;
      rest.Valid() && (!rest.Empty() ==> rest.name == x.name && rest.meta == x.meta)
  {
    PourConserves(slots, x, intoEmpty, defs, Kind("", ""));
  }

  lemma PourLast(slots: seq<ItemStack>, x: ItemStack, intoEmpty: bool, defs: ItemDefs)
    requires slots != []
    ensures var n := |slots| - 1;
            var (done, rest) := Pour(slots[..n], x, intoEmpty, defs);
            var (slots', rest') := Pour(slots, x, intoEmpty, defs);
      && slots'[..n] == done
      && if slots[n].Empty() != intoEmpty then slots'[n] == slots[n] && rest' == rest
         else (slots'[n], rest') == slots[n].AddItem(rest, defs)
  {
    hide ItemStack.AddItem;
    var n := |slots| - 1;
    assert Pour(slots, x, intoEmpty, defs).0[..n] == Pour(slots[..n], x, intoEmpty, defs).0;
  }

  /** As long as something is left, every stack of its kind that it came past is full. */
  lemma {:induction false} LeftMeansFull(slots: seq<ItemStack>, x: ItemStack, defs: ItemDefs, i: nat)
    requires i < |slots| && AllValid(slots) && x.Valid() && Sane(defs)
    requires !slots[i].Empty() && slots[i].Stacks(x) && !Pour(slots, x, false, defs).1.Empty()
    ensures Pour(slots, x, false, defs).0[i].count >= defs.stackMax(x.name)
  {
    hide *;
    var n := |slots| - 1;
    var front := slots[..n];
    var rest := Pour(front, x, false, defs).1;
    ValidParts(slots, n);
    PourLast(slots, x, false, defs);
    PouredValid(front, x, false, defs);
    LastFilled(slots[n], rest, x, defs);
    if i < n {
      LeftMeansFull(front, x, defs, i);
      assert Pour(slots, x, false, defs).0[..n][i] == Pour(slots, x, false, defs).0[i];
    }
  }

  lemma LastFilled(s: ItemStack, rest: ItemStack, x: ItemStack, defs: ItemDefs)
    requires s.Valid() && rest.Valid() && Sane(defs)
    requires !rest.Empty() ==> rest.name == x.name && rest.meta == x.meta
    ensures rest.Empty() ==> s.AddItem(rest, defs) == (s, rest)
    ensures !s.Empty() && s.Stacks(x) && !rest.Empty() && !s.AddItem(rest, defs).1.Empty() ==>
              s.AddItem(rest, defs).0.count >= defs.stackMax(x.name)
  {
  }

  /** A stack grows only when every stack of its kind before it is full. */
  lemma {:induction false} EarlierStacksFirst(slots: seq<ItemStack>, x: ItemStack, defs: ItemDefs, i: nat, j: nat)
    requires i < j < |slots| && AllValid(slots) && x.Valid() && Sane(defs)
    requires !slots[i].Empty() && slots[i].Stacks(x)
    requires Pour(slots, x, false, defs).0[j] != slots[j]
    ensures Pour(slots, x, false, defs).0[i].count >= defs.stackMax(x.name)
    decreases |slots|
  {
    hide *;
    var n := |slots| - 1;
    var front := slots[..n];
    var rest := Pour(front, x, false, defs).1;
    ValidParts(slots, n);
    PourLast(slots, x, false, defs);
    PouredValid(front, x, false, defs);
    LastFilled(slots[n], rest, x, defs);
    assert Pour(slots, x, false, defs).0[..n][i] == Pour(slots, x, false, defs).0[i];
    if j < n {
      assert Pour(slots, x, false, defs).0[..n][j] == Pour(slots, x, false, defs).0[j];
      EarlierStacksFirst(front, x, defs, i, j);
    } else {
      LeftMeansFull(front, x, defs, i);
    }
  }

  /** The first empty slot takes all that is left. */
  lemma {:induction false} FirstEmptyTakesAll(slots: seq<ItemStack>, x: ItemStack, defs: ItemDefs, i: nat)
    requires i < |slots| && slots[i].Empty() && !x.Empty() && forall k :: 0 <= k < i ==> !slots[k].Empty()
    ensures Pour(slots, x, true, defs) == (slots[i := x], NOTHING)
    decreases |slots|
  {
    hide *;
    var n := |slots| - 1;
    var front := slots[..n];
    PourLast(slots, x, true, defs);
    if i < n {
      FirstEmptyTakesAll(front, x, defs, i);
      NothingAdded(slots[n], defs);
      assert slots[i := x] == front[i := x] + [slots[n]];
    } else {
      NoneEmpty(front, x, defs);
      AddedToEmpty(slots[n], x, defs);
      assert slots[i := x] == front + [x];
    }
    assert Pour(slots, x, true, defs).0 == Pour(slots, x, true, defs).0[..n] + [Pour(slots, x, true, defs).0[n]];
  }

  lemma NothingAdded(s: ItemStack, defs: ItemDefs)
    ensures s.AddItem(NOTHING, defs) == (s, NOTHING)
  {
  }

  lemma AddedToEmpty(s: ItemStack, x: ItemStack, defs: ItemDefs)
    requires s.Empty() && !x.Empty()
    ensures s.AddItem(x, defs) == (x, NOTHING)
  {
  }

  lemma {:induction false} NoneEmpty(slots: seq<ItemStack>, x: ItemStack, defs: ItemDefs)
    requires forall k :: 0 <= k < |slots| ==> !slots[k].Empty()
    ensures Pour(slots, x, true, defs) == (slots, x)
  {
    if slots != [] {
      NoneEmpty(slots[..|slots| - 1], x, defs);
      assert slots == slots[..|slots| - 1] + [slots[|slots| - 1]];
    }
  }

  lemma {:induction false} NothingRemoved(slots: seq<ItemStack>, name: string)
    ensures RemovedBack(slots, name, 0) == slots
  {
    if slots != [] {
      NothingRemoved(slots[..|slots| - 1], name);
      assert slots == slots[..|slots| - 1] + [slots[|slots| - 1]];
    }
  }

  /** Items are removed from the back: a slot gives some only when those of that name behind it have given all. */
  lemma {:induction false} LaterSlotsFirst(slots: seq<ItemStack>, name: string, n: nat, i: nat, j: nat)
    requires i < j < |slots| && slots[j].name == name && RemovedBack(slots, name, n)[i] != slots[i]
    ensures RemovedBack(slots, name, n)[j].Empty()
    decreases |slots|
  {
    hide *;
    var m := |slots| - 1;
    var front := slots[..m];
    var taken := TakenFromLast(slots, name, n);
    if j < m {
      LaterSlotsFirst(front, name, n - taken, i, j);
    } else {
      NothingRemoved(front, name);
    }
  }

  /** What the last slot gives; the rest is removed from the slots before it. */
  lemma TakenFromLast(slots: seq<ItemStack>, name: string, n: nat) returns (taken: nat)
    requires slots != []
    ensures var m := |slots| - 1;
            var r := RemovedBack(slots, name, n);
      && taken <= n && |RemovedBack(slots[..m], name, n - taken)| == m
      && (forall k :: 0 <= k < m ==> r[k] == RemovedBack(slots[..m], name, n - taken)[k])
      && (slots[m].name == name && taken < n ==> r[m].Empty())
  {
    var m := |slots| - 1;
    var last := slots[m];
    taken := if last.name != name then 0 else if n < last.count then n else last.count;
    assert RemovedBack(slots, name, n)[..m] == RemovedBack(slots[..m], name, n - taken);
    assert forall k :: 0 <= k < m ==> RemovedBack(slots, name, n)[..m][k] == RemovedBack(slots, name, n)[k];
  }
}
