/**
 Inventory lists (src/inventory.cpp, class InventoryList): adding, asking for room, taking and moving.
 */
module InventoryLists {
  import opened Wrappers
  import opened Items
  import opened InventoryTokens

  // ---------------------------------------------------------------- counting

  /** How many items of one kind a list of slots holds. */
  ghost function Total(slots: seq<ItemStack>, k: Kind): nat {
    if slots == [] then 0 else Total(slots[..|slots| - 1], k) + slots[|slots| - 1].Of(k)
  }

  lemma {:induction false} TotalUpdate(slots: seq<ItemStack>, i: nat, x: ItemStack, k: Kind)
    requires i < |slots|
    ensures Total(slots[i := x], k) + slots[i].Of(k) == Total(slots, k) + x.Of(k)
  {
    var n := |slots| - 1;
    if i == n {
      assert slots[i := x][..n] == slots[..n];
    } else {
      assert slots[i := x][..n] == slots[..n][i := x];
      TotalUpdate(slots[..n], i, x, k);
    }
  }

  ghost predicate AllValid(slots: seq<ItemStack>) {
    forall i :: 0 <= i < |slots| ==> slots[i].Valid()
  }

  // ---------------------------------------------------------------- adding to a list

  ghost predicate HasEmptySlot(slots: seq<ItemStack>) {
    exists i :: 0 <= i < |slots| && slots[i].Empty()
  }

  /** The space for `x` on top of one occupied stack. */
  ghost function SpaceOn(s: ItemStack, x: ItemStack, defs: ItemDefs): nat {
    if !s.Empty() && s.Stacks(x) then s.FreeSpace(defs) else 0
  }

  /** The space for `x` on top of all the stacks already there. */
  ghost function FreeFor(slots: seq<ItemStack>, x: ItemStack, defs: ItemDefs): nat {
    if slots == [] then 0 else FreeFor(slots[..|slots| - 1], x, defs) + SpaceOn(slots[|slots| - 1], x, defs)
  }

  /** Whether the whole of `x` can go into the slots: an empty slot takes a stack of any size. */
  ghost predicate Room(slots: seq<ItemStack>, x: ItemStack, defs: ItemDefs) {
    HasEmptySlot(slots) || FreeFor(slots, x, defs) >= x.count
  }

  /** One pass over the slots in order, adding what is left of `x` to every occupied slot, or to
      every empty one. */
  ghost function Pour(slots: seq<ItemStack>, x: ItemStack, intoEmpty: bool,
                      defs: ItemDefs): (r: (seq<ItemStack>, ItemStack))
    ensures |r.0| == |slots|
  {
    if slots == [] then ([], x) else
    var n := |slots| - 1;
    var (done, rest) := Pour(slots[..n], x, intoEmpty, defs);
    if slots[n].Empty() != intoEmpty then (done + [slots[n]], rest)
    else var (s, rest') := slots[n].AddItem(rest, defs); (done + [s], rest')
  }

  /** InventoryList::addItem: first the occupied slots, then the empty ones. */
  ghost function AddedAll(slots: seq<ItemStack>, x: ItemStack, defs: ItemDefs): (seq<ItemStack>, ItemStack) {
    var (slots1, rest1) := Pour(slots, x, false, defs);
    Pour(slots1, rest1, true, defs)
  }

  lemma {:induction false} PourConserves(slots: seq<ItemStack>, x: ItemStack, intoEmpty: bool, defs: ItemDefs, k: Kind)
    requires AllValid(slots) && x.Valid() && Sane(defs)
    ensures var (slots', rest) := Pour(slots, x, intoEmpty, defs);
            && AllValid(slots') && rest.Valid()
            && (!rest.Empty() ==> rest.Stacks(x) && rest.wear == x.wear)
            && Total(slots', k) + rest.Of(k) == Total(slots, k) + x.Of(k)
  {
    if slots != [] {
      var n := |slots| - 1;
      PourConserves(slots[..n], x, intoEmpty, defs, k);
      var (done, rest) := Pour(slots[..n], x, intoEmpty, defs);
      AddItemConserves(slots[n], rest, defs);
      var slots' := Pour(slots, x, intoEmpty, defs).0;
      assert slots'[..n] == done;
    }
  }

  /** The first pass leaves exactly what exceeds the free space, and keeps empty slots empty. */
  lemma {:induction false} PourOntoStacks(slots: seq<ItemStack>, x: ItemStack, defs: ItemDefs)
    requires AllValid(slots) && x.Valid() && Sane(defs)
    ensures var (slots', rest) := Pour(slots, x, false, defs);
            && rest.count == (if FreeFor(slots, x, defs) >= x.count then 0 else x.count - FreeFor(slots, x, defs))
            && forall i :: 0 <= i < |slots| ==> slots'[i].Empty() == slots[i].Empty()
  {
    hide *;
    if slots == [] {
      PourOntoNothing(x, defs);
    } else {
      var n := |slots| - 1;
      ValidParts(slots, n);
      PourOntoStacks(slots[..n], x, defs);
      PourConserves(slots[..n], x, false, defs, Kind("", ""));
      PourOntoLast(slots, x, defs);
    }
  }

  lemma ValidParts(slots: seq<ItemStack>, n: nat)
    requires n < |slots| && AllValid(slots)
    ensures AllValid(slots[..n]) && slots[n].Valid()
  {
  }

  lemma PourOntoNothing(x: ItemStack, defs: ItemDefs)
    ensures Pour([], x, false, defs) == ([], x) && FreeFor([], x, defs) == 0
  {
  }

  lemma PourOntoLast(slots: seq<ItemStack>, x: ItemStack, defs: ItemDefs)
    requires slots != [] && slots[|slots| - 1].Valid() && Sane(defs)
    requires var rest := Pour(slots[..|slots| - 1], x, false, defs).1;
             rest.Valid() && (!rest.Empty() ==> rest.Stacks(x))
    ensures var n := |slots| - 1;
            var (done, rest) := Pour(slots[..n], x, false, defs);
            var (slots', rest') := Pour(slots, x, false, defs);
            var space := SpaceOn(slots[n], x, defs);
            && slots'[..n] == done && slots'[n].Empty() == slots[n].Empty()
            && rest'.count == (if space >= rest.count then 0 else rest.count - space)
            && FreeFor(slots, x, defs) == FreeFor(slots[..n], x, defs) + space
  {
    var n := |slots| - 1;
    var (done, rest) := Pour(slots[..n], x, false, defs);
    AddItemConserves(slots[n], rest, defs);
    if !slots[n].Empty() {
      AddedStaysOccupied(slots[n], rest, defs);
    }
    hide ItemStack.AddItem, ItemStack.Valid;
    assert Pour(slots, x, false, defs).0[..n] == done;
  }

  lemma AddedStaysOccupied(s: ItemStack, x: ItemStack, defs: ItemDefs)
    requires !s.Empty()
    ensures !s.AddItem(x, defs).0.Empty()
  {
  }

  /** The second pass leaves nothing if there is an empty slot, and everything otherwise. */
  lemma {:induction false} PourIntoEmpty(slots: seq<ItemStack>, x: ItemStack, defs: ItemDefs)
    ensures Pour(slots, x, true, defs).1.count == if HasEmptySlot(slots) then 0 else x.count
  {
    if slots != [] {
      var n := |slots| - 1;
      PourIntoEmpty(slots[..n], x, defs);
      assert HasEmptySlot(slots) <==> HasEmptySlot(slots[..n]) || slots[n].Empty() by {
        assert slots == slots[..n] + [slots[n]];
      }
    }
  }

  /** Nothing is left over exactly when there is room, and no item appears or vanishes. */
  lemma AddedAllFillsRoom(slots: seq<ItemStack>, x: ItemStack, defs: ItemDefs)
    requires AllValid(slots) && x.Valid() && Sane(defs)
    ensures var (slots', rest) := AddedAll(slots, x, defs);
            && AllValid(slots') && rest.Valid() && |slots'| == |slots|
            && (rest.Empty() <==> Room(slots, x, defs))
            && rest.count == (if Room(slots, x, defs) then 0 else x.count - FreeFor(slots, x, defs))
            && forall k :: Total(slots', k) + rest.Of(k) == Total(slots, k) + x.Of(k)
  {
    var (slots1, rest1) := Pour(slots, x, false, defs);
    PourOntoStacks(slots, x, defs);
    PourConserves(slots, x, false, defs, Kind("", ""));
    PourIntoEmpty(slots1, rest1, defs);
    PourConserves(slots1, rest1, true, defs, Kind("", ""));
    assert HasEmptySlot(slots1) <==> HasEmptySlot(slots) by {
      if i :| 0 <= i < |slots| && slots[i].Empty() { assert slots1[i].Empty(); }
      if i :| 0 <= i < |slots1| && slots1[i].Empty() { assert slots[i].Empty(); }
    }
    forall k ensures Total(AddedAll(slots, x, defs).0, k) + AddedAll(slots, x, defs).1.Of(k) == Total(slots, k)
        + x.Of(k) {
      PourConserves(slots, x, false, defs, k);
      PourConserves(slots1, rest1, true, defs, k);
    }
  }

  /** A pass may stop as soon as nothing is left. */
  lemma {:induction false} PouredOut(slots: seq<ItemStack>, i: nat, x: ItemStack, intoEmpty: bool, defs: ItemDefs)
    requires i <= |slots| && Pour(slots[..i], x, intoEmpty, defs).1.Empty()
    ensures Pour(slots, x, intoEmpty, defs)
         == (Pour(slots[..i], x, intoEmpty, defs).0 + slots[i..], Pour(slots[..i], x, intoEmpty, defs).1)
    decreases |slots|
  {
    if i == |slots| {
      assert slots[..i] == slots;
      assert Pour(slots, x, intoEmpty, defs).0 + slots[i..] == Pour(slots, x, intoEmpty, defs).0;
    } else {
      var n := |slots| - 1;
      assert slots[..n][..i] == slots[..i];
      PouredOut(slots[..n], i, x, intoEmpty, defs);
      var done := Pour(slots[..i], x, intoEmpty, defs).0;
      assert done + slots[i..] == (done + slots[..n][i..]) + [slots[n]];
    }
  }

  /** The state of a pass that has visited the first `i` slots. */
  ghost predicate PouredTo(was: seq<ItemStack>, x: ItemStack, intoEmpty: bool, defs: ItemDefs, i: nat,
                           slots: seq<ItemStack>, rest: ItemStack)
  {
    && i <= |was| && |slots| == |was|
    && (slots, rest) == (Pour(was[..i], x, intoEmpty, defs).0 + was[i..], Pour(was[..i], x, intoEmpty, defs).1)
  }

  lemma PourStarts(was: seq<ItemStack>, x: ItemStack, intoEmpty: bool, defs: ItemDefs)
    ensures PouredTo(was, x, intoEmpty, defs, 0, was, x)
  {
    assert [] + was[0..] == was;
  }

  lemma PourOneMore(was: seq<ItemStack>, x: ItemStack, intoEmpty: bool, defs: ItemDefs, i: nat, slots: seq<ItemStack>,
                    rest: ItemStack)
    requires i < |was| && PouredTo(was, x, intoEmpty, defs, i, slots, rest)
    ensures slots[i].Empty() != intoEmpty ==> PouredTo(was, x, intoEmpty, defs, i + 1, slots, rest)
    ensures slots[i].Empty() == intoEmpty ==>
              var (s, rest') := slots[i].AddItem(rest, defs);
              PouredTo(was, x, intoEmpty, defs, i + 1, slots[i := s], rest')
  {
    assert was[..i + 1][..i] == was[..i];
    var done := Pour(was[..i], x, intoEmpty, defs).0;
    hide ItemStack.AddItem;
    var s := slots[i].AddItem(rest, defs).0;
    assert slots[i] == was[i];
    assert (done + was[i..])[i := s] == (done + [s]) + was[i + 1..];
    assert done + was[i..] == (done + [was[i]]) + was[i + 1..];
  }

  lemma PourEnds(was: seq<ItemStack>, x: ItemStack, intoEmpty: bool, defs: ItemDefs, i: nat, slots: seq<ItemStack>,
                 rest: ItemStack)
    requires PouredTo(was, x, intoEmpty, defs, i, slots, rest) && (i == |was| || rest.Empty())
    ensures (slots, rest) == Pour(was, x, intoEmpty, defs)
  {
    if i == |was| {
      assert was[..i] == was;
      assert Pour(was, x, intoEmpty, defs).0 + was[i..] == Pour(was, x, intoEmpty, defs).0;
    } else {
      PouredOut(was, i, x, intoEmpty, defs);
    }
  }

  lemma RoomOneMore(slots: seq<ItemStack>, i: nat, x: ItemStack, defs: ItemDefs)
    requires i < |slots|
    ensures HasEmptySlot(slots[..i + 1]) <==> HasEmptySlot(slots[..i]) || slots[i].Empty()
    ensures FreeFor(slots[..i + 1], x, defs) == FreeFor(slots[..i], x, defs) + SpaceOn(slots[i], x, defs)
    ensures FreeFor(slots[..i + 1], x, defs) <= FreeFor(slots, x, defs)
    ensures slots[i].Empty() ==> HasEmptySlot(slots)
  {
    assert slots[..i + 1] == slots[..i] + [slots[i]];
    assert slots[..i + 1][..i] == slots[..i];
    FreeForPrefix(slots, i + 1, x, defs);
  }

  lemma {:induction false} FreeForPrefix(slots: seq<ItemStack>, i: nat, x: ItemStack, defs: ItemDefs)
    requires i <= |slots|
    ensures FreeFor(slots[..i], x, defs) <= FreeFor(slots, x, defs)
    decreases |slots|
  {
    if i == |slots| {
      assert slots[..i] == slots;
    } else {
      assert slots[..|slots| - 1][..i] == slots[..i];
      FreeForPrefix(slots[..|slots| - 1], i, x, defs);
    }
  }

  // ---------------------------------------------------------------- asking and removing

  predicate Alike(s: ItemStack, x: ItemStack, matchMeta: bool) {
    s.name == x.name && (!matchMeta || s.meta == x.meta)
  }

  ghost function CountAlike(slots: seq<ItemStack>, x: ItemStack, matchMeta: bool): nat {
    if slots == [] then 0
    else CountAlike(slots[1..], x, matchMeta) + (if Alike(slots[0], x, matchMeta) then slots[0].count else 0)
  }

  /** With metadata, what is counted is the total of that kind; without, metadata does not matter. */
  lemma {:induction false} CountAlikeIs(slots: seq<ItemStack>, x: ItemStack, meta: string)
    ensures CountAlike(slots, x, true) == Total(slots, Kind(x.name, x.meta))
    ensures CountAlike(slots, x, false) == CountAlike(slots, x.(meta := meta), false)
    ensures CountAlike(slots, x, false) >= Total(slots, Kind(x.name, meta))
  {
    if slots != [] {
      CountAlikeIs(slots[1..], x, meta);
      TotalFirst(slots, Kind(x.name, x.meta));
      TotalFirst(slots, Kind(x.name, meta));
    }
  }

  lemma {:induction false} TotalFirst(slots: seq<ItemStack>, k: Kind)
    requires slots != []
    ensures Total(slots, k) == slots[0].Of(k) + Total(slots[1..], k)
  {
    if |slots| > 1 {
      TotalFirst(slots[..|slots| - 1], k);
      assert slots[..|slots| - 1][1..] == slots[1..][..|slots| - 2];
    }
  }

  /** Taking `n` items called `name`, from the last slot backwards. */
  ghost function RemovedBack(slots: seq<ItemStack>, name: string, n: nat): (r: seq<ItemStack>)
    ensures |r| == |slots|
  {
    if slots == [] then [] else
    var last := slots[|slots| - 1];
    if last.name != name then RemovedBack(slots[..|slots| - 1], name, n) + [last]
    else
      var taken := if n < last.count then n else last.count;
      RemovedBack(slots[..|slots| - 1], name, n - taken) + [last.TakeItem(n).0]
  }

  lemma {:induction false} RemovedBackCounts(slots: seq<ItemStack>, x: ItemStack, n: nat)
    requires AllValid(slots)
    ensures var all := CountAlike(slots, x, false);
            CountAlike(RemovedBack(slots, x.name, n), x, false) == (if n < all then all - n else 0)
  {
    hide *;
    if slots != [] {
      var m := |slots| - 1;
      var taken := if slots[m].name != x.name then 0 else if n < slots[m].count then n else slots[m].count;
      ValidPrefix(slots, m);
      RemovedBackCounts(slots[..m], x, n - taken);
      RemovedBackLast(slots, x, n, RemovedBack(slots[..m], x.name, n - taken));
      CountAlikeLast(slots, x, false);
    } else {
      NothingCounted(x, n);
    }
  }

  lemma ValidPrefix(slots: seq<ItemStack>, m: nat)
    requires m <= |slots| && AllValid(slots)
    ensures AllValid(slots[..m])
  {
  }

  lemma NothingCounted(x: ItemStack, n: nat)
    ensures CountAlike([], x, false) == 0 && RemovedBack([], x.name, n) == []
  {
  }

  /** What happens to the last slot. */
  lemma RemovedBackLast(slots: seq<ItemStack>, x: ItemStack, n: nat, r: seq<ItemStack>)
    requires slots != [] && AllValid(slots)
    requires var s := slots[|slots| - 1];
             r == RemovedBack(slots[..|slots| - 1], x.name,
                              n - (if s.name != x.name then 0 else if n < s.count then n else s.count))
    ensures var s := slots[|slots| - 1];
            && CountAlike(RemovedBack(slots, x.name, n), x, false)
               == CountAlike(r, x, false) + (if s.name != x.name then 0 else if n < s.count then s.count - n else 0)
            && (Alike(s, x, false) <==> s.name == x.name)
  {
    var s := slots[|slots| - 1];
    TakeItemConserves(s, n);
    var s' := if s.name != x.name then s else s.TakeItem(n).0;
    hide ItemStack.TakeItem;
    assert RemovedBack(slots, x.name, n) == r + [s'];
    CountAlikeLast(r + [s'], x, false);
    assert (r + [s'])[..|r|] == r;
    hide RemovedBack, CountAlike;
  }

  lemma {:induction false} CountAlikeLast(slots: seq<ItemStack>, x: ItemStack, matchMeta: bool)
    requires slots != []
    ensures var m := |slots| - 1;
            CountAlike(slots, x, matchMeta)
            == CountAlike(slots[..m], x, matchMeta) + (if Alike(slots[m], x, matchMeta) then slots[m].count else 0)
  {
    var m := |slots| - 1;
    if m > 0 {
      CountAlikeLast(slots[1..], x, matchMeta);
      assert slots[1..][..m - 1] == slots[..m][1..];
    }
  }

  /** A removal that has walked back to index `i`. */
  ghost predicate Removing(was: seq<ItemStack>, x: ItemStack, i: nat, slots: seq<ItemStack>, removed: ItemStack) {
    && i <= |was| == |slots| && slots[..i] == was[..i] && AllValid(was)
    && (!removed.Empty() ==> removed.name == x.name)
    && removed.count == (if x.count < CountAlike(was[i..], x, false) then x.count else CountAlike(was[i..], x, false))
    && RemovedBack(was, x.name, x.count) == RemovedBack(was[..i], x.name, x.count - removed.count) + slots[i..]
  }

  lemma RemovalStarts(was: seq<ItemStack>, x: ItemStack)
    requires AllValid(was)
    ensures Removing(was, x, |was|, was, NOTHING)
  {
    assert was[..|was|] == was;
    assert RemovedBack(was, x.name, x.count) + was[|was|..] == RemovedBack(was, x.name, x.count);
  }

  /** removeItem keeps counting even beyond the stack maximum or across different metadata. */
  function Gather(removed: ItemStack, taken: ItemStack, defs: ItemDefs): ItemStack {
    var (merged, leftover) := removed.AddItem(taken, defs);
    merged.Add(leftover.count)
  }

  lemma Gathered(removed: ItemStack, taken: ItemStack, defs: ItemDefs)
    ensures var r := Gather(removed, taken, defs);
            && r.count == removed.count + taken.count
            && (r == removed || r.name == taken.name || (r.name == removed.name && !removed.Empty()))
            && (taken.Empty() ==> r == removed)
  {
  }

  lemma RemovedStep(was: seq<ItemStack>, name: string, n: nat, i: nat, slots: seq<ItemStack>)
    requires i < |was| == |slots| && slots[i] == was[i]
    ensures var s := was[i];
            var taken := if s.name != name then 0 else if n < s.count then n else s.count;
            var s' := if s.name != name then s else s.TakeItem(n).0;
            RemovedBack(was[..i + 1], name, n) + slots[i + 1..] == RemovedBack(was[..i], name, n - taken)
                + slots[i := s'][i..]
  {
    assert was[..i + 1][..i] == was[..i];
    hide ItemStack.TakeItem;
    var s := was[i];
    var s' := if s.name != name then s else s.TakeItem(n).0;
    assert slots[i := s'][i..] == [s'] + slots[i + 1..];
  }

  lemma RemoveOneMore(was: seq<ItemStack>, x: ItemStack, i: nat, slots: seq<ItemStack>, removed: ItemStack,
                      defs: ItemDefs)
    requires i < |was| == |slots| && Removing(was, x, i + 1, slots, removed) && AllValid(slots)
    ensures removed.count <= x.count
    ensures slots[i].name != x.name ==> Removing(was, x, i, slots, removed)
    ensures slots[i].name == x.name ==>
              var (rest, taken) := slots[i].TakeItem(x.count - removed.count);
              var removed' := Gather(removed, taken, defs);
              && AllValid(slots[i := rest])
              && (removed'.Empty() ==> removed.Empty() && slots[i := rest] == slots && removed' == removed)
              && Removing(was, x, i, slots[i := rest], removed')
  {
    hide *;
    SlotUntouched(was, x, i, slots, removed);
    var (rest, taken) := slots[i].TakeItem(x.count - removed.count);
    CountOneMore(was, i, x);
    RemovedStep(was, x.name, x.count - removed.count, i, slots);
    if slots[i].name != x.name {
      RemovalSkips(was, x, i, slots, removed);
    } else {
      RemovalTakes(was, x, i, slots, removed, rest, taken, defs);
      TakenNothing(slots, i, x.count - removed.count);
    }
  }

  lemma SlotUntouched(was: seq<ItemStack>, x: ItemStack, i: nat, slots: seq<ItemStack>, removed: ItemStack)
    requires i < |was| == |slots| && Removing(was, x, i + 1, slots, removed)
    ensures slots[..i] == was[..i] && slots[i] == was[i] && slots[i := slots[i]] == slots
    ensures removed.count <= x.count
  {
    assert was[..i] == was[..i + 1][..i] == slots[..i + 1][..i] == slots[..i];
    assert was[i] == was[..i + 1][i] == slots[..i + 1][i] == slots[i];
    hide RemovedBack, CountAlike, AllValid;
  }

  lemma CountOneMore(was: seq<ItemStack>, i: nat, x: ItemStack)
    requires i < |was|
    ensures CountAlike(was[i..], x, false)
         == CountAlike(was[i + 1..], x, false) + (if was[i].name == x.name then was[i].count else 0)
  {
    assert was[i..] == [was[i]] + was[i + 1..];
  }

  lemma RemovalSkips(was: seq<ItemStack>, x: ItemStack, i: nat, slots: seq<ItemStack>, removed: ItemStack)
    requires i < |was| == |slots| && Removing(was, x, i + 1, slots, removed)
    requires slots[..i] == was[..i] && slots[i] == was[i] && slots[i := slots[i]] == slots && was[i].name != x.name
    requires CountAlike(was[i..], x, false) == CountAlike(was[i + 1..], x, false)
    requires RemovedBack(was[..i + 1], x.name, x.count - removed.count) + slots[i + 1..]
          == RemovedBack(was[..i], x.name, x.count - removed.count) + slots[i..]
    ensures Removing(was, x, i, slots, removed)
  {
    hide RemovedBack, CountAlike, AllValid;
  }

  lemma RemovalTakes(was: seq<ItemStack>, x: ItemStack, i: nat, slots: seq<ItemStack>, removed: ItemStack,
                     rest: ItemStack, taken: ItemStack, defs: ItemDefs)
    requires i < |was| == |slots| && Removing(was, x, i + 1, slots, removed) && removed.count <= x.count
    requires slots[..i] == was[..i] && slots[i] == was[i] && was[i].name == x.name && AllValid(slots)
    requires (rest, taken) == slots[i].TakeItem(x.count - removed.count)
    requires CountAlike(was[i..], x, false) == CountAlike(was[i + 1..], x, false) + was[i].count
    requires var n, s := x.count - removed.count, was[i];
             RemovedBack(was[..i + 1], x.name, n) + slots[i + 1..]
             == RemovedBack(was[..i], x.name, n - if n < s.count then n else s.count) + slots[i := rest][i..]
    ensures var removed' := Gather(removed, taken, defs);
            && (removed'.Empty() ==> removed.Empty() && taken.Empty() && removed' == removed)
            && Removing(was, x, i, slots[i := rest], removed')
  {
    hide RemovedBack, CountAlike, Gather, ItemStack.TakeItem, AllValid;
    TakenGathered(slots, i, x.count - removed.count, removed, defs);
    assert slots[i := rest][..i] == slots[..i];
  }

  lemma TakenGathered(slots: seq<ItemStack>, i: nat, n: nat, removed: ItemStack, defs: ItemDefs)
    requires i < |slots| && AllValid(slots) && (!removed.Empty() ==> removed.name == slots[i].name)
    ensures var taken := slots[i].TakeItem(n).1;
            var r := Gather(removed, taken, defs);
            && r.count == removed.count + (if n < slots[i].count then n else slots[i].count)
            && (!r.Empty() ==> r.name == slots[i].name)
            && (r.Empty() ==> taken.Empty() && r == removed)
  {
    var taken := slots[i].TakeItem(n).1;
    TakeItemConserves(slots[i], n);
    Gathered(removed, taken, defs);
    assert taken.Empty() || taken.name == slots[i].name;
    hide Gather, ItemStack.TakeItem, AllValid;
  }

  lemma TakenNothing(slots: seq<ItemStack>, i: nat, n: nat)
    requires i < |slots| && AllValid(slots)
    ensures var (rest, taken) := slots[i].TakeItem(n);
            AllValid(slots[i := rest]) && (taken.Empty() ==> slots[i := rest] == slots)
  {
    hide ItemStack.TakeItem;
    TakeItemConserves(slots[i], n);
  }

  lemma RemovalEnds(was: seq<ItemStack>, x: ItemStack, i: nat, slots: seq<ItemStack>, removed: ItemStack)
    requires Removing(was, x, i, slots, removed) && (i == 0 || removed.count == x.count)
    ensures slots == RemovedBack(was, x.name, x.count)
    ensures removed.count == (if x.count < CountAlike(was, x, false) then x.count else CountAlike(was, x, false))
  {
    hide RemovedBack, CountAlike, AllValid;
    RemovedNone(was[..i], x.name);
    RemovedFromNone(x.name, x.count - removed.count);
    CountAlikeSuffix(was, i, x);
    Rejoined(was, slots, i);
  }

  lemma NothingRemoved(x: ItemStack)
    ensures NOTHING.Empty() && NOTHING.count == 0
  {
  }

  lemma RemovalNames(was: seq<ItemStack>, x: ItemStack, i: nat, slots: seq<ItemStack>, removed: ItemStack)
    requires Removing(was, x, i, slots, removed)
    ensures !removed.Empty() ==> removed.name == x.name
  {
    hide RemovedBack, CountAlike, AllValid;
  }

  lemma RemovedFromNone(name: string, n: int)
    ensures n >= 0 ==> RemovedBack([], name, n) == []
  {
  }

  lemma Rejoined<T>(was: seq<T>, slots: seq<T>, i: nat)
    requires i <= |was| == |slots| && slots[..i] == was[..i]
    ensures slots == was[..i] + slots[i..] && (i == 0 ==> was[..i] == [])
  {
  }

  lemma {:induction false} RemovedNone(slots: seq<ItemStack>, name: string)
    ensures RemovedBack(slots, name, 0) == slots
  {
    if slots != [] {
      RemovedNone(slots[..|slots| - 1], name);
    }
  }

  lemma {:induction false} CountAlikeSuffix(slots: seq<ItemStack>, i: nat, x: ItemStack)
    requires i <= |slots|
    ensures CountAlike(slots[i..], x, false) <= CountAlike(slots, x, false)
    ensures i == 0 ==> slots[i..] == slots
  {
    if i > 0 {
      CountAlikeSuffix(slots[1..], i - 1, x);
      assert slots[1..][i - 1..] == slots[i..];
    }
  }

  // ---------------------------------------------------------------- moving between two slots

  datatype MoveOutcome = MoveOutcome(src: ItemStack, dst: ItemStack, moved: ItemStack, swapped: bool)

  /** Taking up to `n` items, all if 0. */
  function TakenUpTo(s: ItemStack, n: nat): (ItemStack, ItemStack) {
    if n == 0 then (NOTHING, s) else s.TakeItem(n)
  }

  /** Moving up to `n` items (all if 0) from slot `s` to slot `d`. */
  function Move(s: ItemStack, d: ItemStack, n: nat, swapIfNeeded: bool, defs: ItemDefs): MoveOutcome {
    var (src1, taken) := TakenUpTo(s, n);
    var (dst1, left) := d.AddItem(taken, defs);
    if left.Empty() then MoveOutcome(src1, dst1, taken, false)
    else
      var src2 := left.Add(src1.count);
      if left.count == taken.count && swapIfNeeded then MoveOutcome(dst1, src2, src2, true)
      else MoveOutcome(src2, dst1, if left.count <= taken.count then taken.Remove(left.count) else NOTHING, false)
  }

  /** A move neither creates nor destroys items.  It exchanges the two stacks when nothing at all fits
      and swapping is asked for; otherwise it takes over exactly what the destination accepts. */
  lemma MoveConserves(s: ItemStack, d: ItemStack, n: nat, swapIfNeeded: bool, defs: ItemDefs)
    requires s.Valid() && d.Valid() && Sane(defs)
    ensures var m := Move(s, d, n, swapIfNeeded, defs);
            var asked := if n == 0 || n >= s.count then s else s.(count := n);
            && m.src.Valid() && m.dst.Valid() && m.moved.Valid()
            && (forall k :: m.src.Of(k) + m.dst.Of(k) == s.Of(k) + d.Of(k))
            && (m.swapped <==> swapIfNeeded && !s.Empty() && d.Accepts(asked, defs) == 0)
            && (m.swapped ==> m.src == d && m.dst == s && m.moved == s)
            && (!m.swapped ==> m.moved.count == d.Accepts(asked, defs) && m.src.count == s.count - m.moved.count)
            && (!m.swapped && !m.moved.Empty() ==> m.moved.name == s.name && m.moved.meta == s.meta)
  {
    hide ItemStack.AddItem, ItemStack.Accepts, TakenUpTo;
    TakenUpToConserves(s, n);
    AddItemConserves(d, TakenUpTo(s, n).1, defs);
  }

  lemma TakenUpToConserves(s: ItemStack, n: nat)
    requires s.Valid()
    ensures var (rest, taken) := TakenUpTo(s, n);
            && rest.Valid() && taken.Valid() && taken == (if n == 0 || n >= s.count then s else s.(count := n))
            && rest.count == s.count - taken.count
            && (rest.Empty() || (rest.name == s.name && rest.meta == s.meta && rest.wear == s.wear))
  {
  }

  /** The destination list when slot `i` holds `src` and slot `j` holds `dst`. */
  ghost function After(to: seq<ItemStack>, i: nat, j: nat, same: bool, src: ItemStack, dst: ItemStack): seq<ItemStack>
    requires same ==> i < |to|
  {
    var to' := if same then to[i := src] else to;
    if j < |to'| then to'[j := dst] else to'
  }

  /** Adding the rest back to what was taken restores the stack. */
  ghost predicate TakenRestored(s: ItemStack, n: nat) {
    var (rest, taken) := TakenUpTo(s, n);
    taken.Empty() || taken.Add(rest.count) == s
  }

  /** What a move does to the two lists (`same`: they are one list) and what it reports.  Off the source list
      there is nothing, and off the destination list nothing fits. */
  function MovedBetween(from: seq<ItemStack>, i: nat, to: seq<ItemStack>, j: nat, same: bool, n: nat,
                        swapIfNeeded: bool, defs: ItemDefs)
    : (r: (seq<ItemStack>, seq<ItemStack>, ItemStack, bool))
    requires same ==> from == to
  {
    if i >= |from| || (same && i == j) then (from, to, NOTHING, false)
    else if j >= |to| then
      var swapped := swapIfNeeded && !from[i].Empty();
      (from, to, if swapped then from[i] else NOTHING, swapped)
    else
      var m := Move(from[i], to[j], n, swapIfNeeded, defs);
      if same then (from[i := m.src][j := m.dst], from[i := m.src][j := m.dst], m.moved, m.swapped)
      else (from[i := m.src], to[j := m.dst], m.moved, m.swapped)
  }

  /** The result of a move, slot by slot. */
  lemma MovedBetweenIs(from: seq<ItemStack>, i: nat, to: seq<ItemStack>, j: nat, same: bool, n: nat, swapIfNeeded: bool,
                       defs: ItemDefs)
    requires i < |from| && (same ==> from == to && i != j)
    ensures j >= |to| ==>
              var swapped := swapIfNeeded && !from[i].Empty();
              MovedBetween(from, i, to, j, same, n, swapIfNeeded, defs)
                  == (from, to, if swapped then from[i] else NOTHING, swapped)
    ensures j < |to| ==>
              var (src1, taken) := TakenUpTo(from[i], n);
              var (dst1, left) := to[j].AddItem(taken, defs);
              var rest := left.Add(src1.count);
              var swapped := !left.Empty() && left.count == taken.count && swapIfNeeded;
              var src := if left.Empty() then src1 else if swapped then dst1 else rest;
              var dst := if swapped then rest else dst1;
              var moved := if left.Empty() then taken else if swapped then rest
                           else if left.count <= taken.count then taken.Remove(left.count) else NOTHING;
              MovedBetween(from, i, to, j, same, n, swapIfNeeded, defs)
              == (if same then After(to, i, j, same, src, dst) else from[i := src], After(to, i, j, same, src, dst),
                  moved, swapped)
  {
    hide TakenUpTo, ItemStack.AddItem;
  }

  // ---------------------------------------------------------------- moving to wherever there is room

  /** InventoryList::moveItemSomewhere.  What finds no place is added to the source slot, whatever is left there. */
  ghost function MovedSomewhere(from: seq<ItemStack>, i: nat, to: seq<ItemStack>, same: bool, n: nat,
                                defs: ItemDefs): (r: (seq<ItemStack>, seq<ItemStack>))
    requires same ==> from == to
    ensures |r.0| == |from| && |r.1| == |to| && (same ==> r.0 == r.1)
  {
    if i >= |from| then (from, to) else
    var (src, taken) := TakenUpTo(from[i], n);
    if taken.Empty() then (from, to) else
    var from1 := from[i := src];
    var (to1, left) := AddedAll(if same then from1 else to, taken, defs);
    var from2 := if same then to1 else from1;
    if left.Empty() then (from2, to1)
    else
      var from3 := from2[i := from2[i].Add(left.count)];
      (from3, if same then from3 else to1)
  }

  ghost function TotalOfBoth(from: seq<ItemStack>, to: seq<ItemStack>, same: bool, k: Kind): nat {
    Total(from, k) + if same then 0 else Total(to, k)
  }

  /** Whether something of the stack stays behind, or all of it finds a place. */
  ghost predicate KeepsKind(from: seq<ItemStack>, i: nat, to: seq<ItemStack>, same: bool, n: nat, defs: ItemDefs) {
    i < |from| ==> same || from[i].Empty() || 0 < n < from[i].count || Room(to, from[i], defs)
  }

  /** An occupied slot keeps its kind, and takes no more than is there. */
  lemma {:induction false} PourKeepsSlot(slots: seq<ItemStack>, x: ItemStack, intoEmpty: bool, defs: ItemDefs, i: nat)
    requires i < |slots| && AllValid(slots) && x.Valid() && Sane(defs) && !slots[i].Empty()
    ensures var (slots', rest) := Pour(slots, x, intoEmpty, defs);
      slots'[i].Stacks(slots[i]) && !slots'[i].Empty() && slots'[i].count + rest.count <= slots[i].count + x.count
  {
    var n := |slots| - 1;
    var (done, rest) := Pour(slots[..n], x, intoEmpty, defs);
    PourShrinks(slots[..n], x, intoEmpty, defs);
    AddItemConserves(slots[n], rest, defs);
    if i < n {
      PourKeepsSlot(slots[..n], x, intoEmpty, defs, i);
      assert Pour(slots, x, intoEmpty, defs).0[i] == done[i];
    } else {
      AddedToSlot(slots[n], rest, defs);
    }
    hide ItemStack.AddItem, ItemStack.Valid;
  }

  lemma AddedToSlot(s: ItemStack, x: ItemStack, defs: ItemDefs)
    requires !s.Empty() && s.Valid() && x.Valid() && Sane(defs)
    ensures var (s', rest) := s.AddItem(x, defs);
      s'.Stacks(s) && !s'.Empty() && s'.count + rest.count == s.count + x.count
  {
  }

  lemma PourShrinks(slots: seq<ItemStack>, x: ItemStack, intoEmpty: bool, defs: ItemDefs)
    requires AllValid(slots) && x.Valid() && Sane(defs)
    ensures Pour(slots, x, intoEmpty, defs).1.Valid() && Pour(slots, x, intoEmpty, defs).1.count <= x.count
  {
    PourConserves(slots, x, intoEmpty, defs, Kind("", ""));
    if intoEmpty {
      PourIntoEmpty(slots, x, defs);
    } else {
      PourOntoStacks(slots, x, defs);
    }
  }

  lemma AddedAllKeepsSlot(slots: seq<ItemStack>, x: ItemStack, defs: ItemDefs, i: nat)
    requires i < |slots| && AllValid(slots) && x.Valid() && Sane(defs) && !slots[i].Empty()
    ensures var (slots', rest) := AddedAll(slots, x, defs);
      slots'[i].Stacks(slots[i]) && !slots'[i].Empty() && slots'[i].count + rest.count <= slots[i].count + x.count
  {
    PourKeepsSlot(slots, x, false, defs, i);
    PourConserves(slots, x, false, defs, Kind("", ""));
    var (slots1, rest1) := Pour(slots, x, false, defs);
    PourKeepsSlot(slots1, rest1, true, defs, i);
  }

  /** Taking and adding: what is in the slots and left over is what there was. */
  lemma TakenAndAdded(from: seq<ItemStack>, i: nat, to: seq<ItemStack>, same: bool, n: nat, defs: ItemDefs)
    requires i < |from| && AllValid(from) && AllValid(to) && Sane(defs) && (same ==> from == to)
    ensures var (src, taken) := TakenUpTo(from[i], n);
            var from1 := from[i := src];
            var (to1, left) := AddedAll(if same then from1 else to, taken, defs);
            var from2 := if same then to1 else from1;
            && AllValid(from2) && AllValid(to1) && left.Valid() && (!left.Empty() ==> left.Stacks(from[i]))
            && (left.Empty() <==> Room(if same then from1 else to, taken, defs))
            && (!src.Empty() ==> from2[i].Stacks(from[i]) && !from2[i].Empty()
                                 && from2[i].count + left.count <= from[i].count)
            && (src.Empty() && !same ==> from2[i] == NOTHING)
            && forall k :: TotalOfBoth(from2, to1, same, k) + left.Of(k) == TotalOfBoth(from, to, same, k)
  {
    var (src, taken) := TakenUpTo(from[i], n);
    TakenUpToConserves(from[i], n);
    TakenOf(from[i], n);
    var from1 := from[i := src];
    var slots := if same then from1 else to;
    AddedAllFillsRoom(slots, taken, defs);
    AddedLeaves(slots, taken, defs);
    if same && !src.Empty() {
      AddedAllKeepsSlot(slots, taken, defs, i);
    }
    hide AddedAll, TakenUpTo, Room, ItemStack.Of;
    forall k ensures Total(from1, k) + taken.Of(k) == Total(from, k) {
      TotalUpdate(from, i, src, k);
    }
  }

  lemma TakenOf(s: ItemStack, n: nat)
    requires s.Valid()
    ensures var (src, taken) := TakenUpTo(s, n);
      && (forall k :: src.Of(k) + taken.Of(k) == s.Of(k)) && (!src.Empty() ==> src.Stacks(s))
      && (!taken.Empty() ==> taken.Stacks(s)) && (src.Empty() ==> src == NOTHING)
  {
  }

  lemma AddedLeaves(slots: seq<ItemStack>, x: ItemStack, defs: ItemDefs)
    requires AllValid(slots) && x.Valid() && Sane(defs)
    ensures var rest := AddedAll(slots, x, defs).1; !rest.Empty() ==> rest.Stacks(x)
  {
    PourConserves(slots, x, false, defs, Kind("", ""));
    var (slots1, rest1) := Pour(slots, x, false, defs);
    PourConserves(slots1, rest1, true, defs, Kind("", ""));
    PourShrinks(slots1, rest1, true, defs);
    hide Pour;
  }

  /** Exactly then every kind is conserved, and the lists stay in order: otherwise the source slot is left with a
      number of nothing. */
  lemma MovedSomewhereConservesIff(from: seq<ItemStack>, i: nat, to: seq<ItemStack>, same: bool, n: nat, defs: ItemDefs)
    requires AllValid(from) && AllValid(to) && Sane(defs) && (same ==> from == to)
    ensures var (from', to') := MovedSomewhere(from, i, to, same, n, defs);
      && (AllValid(from') <==> KeepsKind(from, i, to, same, n, defs)) && (!same ==> AllValid(to'))
      && ((forall k :: TotalOfBoth(from', to', same, k) == TotalOfBoth(from, to, same, k))
          <==> KeepsKind(from, i, to, same, n, defs))
  {
    hide *;
    if KeepsKind(from, i, to, same, n, defs) {
      KindIsKept(from, i, to, same, n, defs);
    } else {
      KindIsLost(from, i, to, same, n, defs);
    }
  }

  lemma KindIsKept(from: seq<ItemStack>, i: nat, to: seq<ItemStack>, same: bool, n: nat, defs: ItemDefs)
    requires AllValid(from) && AllValid(to) && Sane(defs) && (same ==> from == to)
    requires KeepsKind(from, i, to, same, n, defs)
    ensures var (from', to') := MovedSomewhere(from, i, to, same, n, defs);
      && AllValid(from') && AllValid(to')
      && forall k :: TotalOfBoth(from', to', same, k) == TotalOfBoth(from, to, same, k)
  {
    if i < |from| && !from[i].Empty() {
      var (src, taken) := TakenUpTo(from[i], n);
      TakenUpToConserves(from[i], n);
      TakenAndAdded(from, i, to, same, n, defs);
      var from1 := from[i := src];
      var (to1, left) := AddedAll(if same then from1 else to, taken, defs);
      if src.Empty() && same {
        assert from1[i].Empty();
      }
      if !left.Empty() {
        LeftGoesBack(if same then to1 else from1, i, left, from[i]);
      }
    }
    hide AddedAll, TakenUpTo, FreeFor, Total, ItemStack.Of, ItemStack.Valid;
  }

  lemma KindIsLost(from: seq<ItemStack>, i: nat, to: seq<ItemStack>, same: bool, n: nat, defs: ItemDefs)
    requires AllValid(from) && AllValid(to) && Sane(defs) && (same ==> from == to)
    requires !KeepsKind(from, i, to, same, n, defs)
    ensures i < |from|
    ensures var k, (from', to') := Kind(from[i].name, from[i].meta), MovedSomewhere(from, i, to, same, n, defs);
      !AllValid(from') && AllValid(to') && TotalOfBoth(from', to', same, k) < TotalOfBoth(from, to, same, k)
  {
    var s := from[i];
    var k := Kind(s.name, s.meta);
    var (src, taken) := TakenUpTo(s, n);
    TakenUpToConserves(s, n);
    TakenAndAdded(from, i, to, same, n, defs);
    var (to1, left) := AddedAll(to, taken, defs);
    LeftGoesBack(from[i := src], i, left, s);
    assert TotalOfBoth(from[i := src], to1, same, k) + left.Of(k) == TotalOfBoth(from, to, same, k);
    hide AddedAll, TakenUpTo, FreeFor, Total, ItemStack.Of, ItemStack.Valid;
  }

  /** A whole stack in front of a single slot with other items: its count stays behind without a name. */
  lemma WholeStackIsLost(s: ItemStack, d: ItemStack, defs: ItemDefs)
    requires s.Valid() && d.Valid() && Sane(defs) && !s.Empty() && !d.Empty() && !d.Stacks(s)
    ensures MovedSomewhere([s], 0, [d], false, 0, defs) == ([ItemStack("", s.count, 0, "")], [d])
  {
    PourOverOthers(s, d, false, defs);
    PourOverOthers(s, d, true, defs);
    hide Pour;
    assert AddedAll([d], s, defs) == ([d], s);
    assert [s][0 := NOTHING] == [NOTHING] && [NOTHING][0 := NOTHING.Add(s.count)] == [NOTHING.Add(s.count)];
    assert NOTHING.Add(s.count) == ItemStack("", s.count, 0, "");
  }

  lemma PourOverOthers(s: ItemStack, d: ItemStack, intoEmpty: bool, defs: ItemDefs)
    requires !s.Empty() && !d.Empty() && !d.Stacks(s)
    ensures Pour([d], s, intoEmpty, defs) == ([d], s)
  {
    assert d.AddItem(s, defs) == (d, s);
    assert [d][..0] == [] && [] + [d] == [d];
    assert Pour([], s, intoEmpty, defs) == ([], s);
  }

  lemma LeftGoesBack(slots: seq<ItemStack>, i: nat, left: ItemStack, s: ItemStack)
    requires i < |slots| && AllValid(slots) && s.Valid() && left.Valid() && !left.Empty() && left.Stacks(s)
    requires slots[i] == NOTHING
             || (!slots[i].Empty() && slots[i].Stacks(s) && slots[i].count + left.count <= s.count)
    ensures var slots' := slots[i := slots[i].Add(left.count)];
      && (AllValid(slots') <==> !slots[i].Empty())
      && (forall k :: !slots[i].Empty() ==> Total(slots', k) == Total(slots, k) + left.Of(k))
      && (slots[i].Empty() ==> Total(slots', Kind(s.name, s.meta)) == Total(slots, Kind(s.name, s.meta))
                               && left.Of(Kind(s.name, s.meta)) == left.count)
  {
    var x := slots[i].Add(left.count);
    assert slots[i := x][i] == x;
    forall k ensures Total(slots[i := x], k) + slots[i].Of(k) == Total(slots, k) + x.Of(k) {
      TotalUpdate(slots, i, x, k);
    }
  }

  // ---------------------------------------------------------------- the list

  class InventoryList {
    var items: seq<ItemStack>
    var name: string
    var width: nat
    var dirty: bool
    const defs: ItemDefs

    ghost predicate Valid()
      reads this`items
    {
      AllValid(items) && Sane(defs)
    }

    constructor (name: string, size: nat, defs: ItemDefs)
      requires Sane(defs)
      ensures Valid() && this.name == name && this.defs == defs && width == 0 && dirty
      ensures items == seq(size, i => NOTHING)
    {
      items := seq(size, i => NOTHING);
      this.name := name;
      width := 0;
      dirty := true;
      this.defs := defs;
    }

    /** Returns the old stack; an index off the list returns the new one. */
    method ChangeItem(i: nat, newItem: ItemStack) returns (old_: ItemStack)
      requires Valid() && newItem.Valid()
      modifies this`items, this`dirty
      ensures Valid()
      ensures i >= |old(items)| ==> old_ == newItem && items == old(items)
      ensures i < |old(items)| ==> old_ == old(items[i]) && items == old(items)[i := newItem]
      ensures dirty == (old(dirty) || items != old(items))
    {
      if i >= |items| {
        return newItem;
      }
      old_ := items[i];
      if old_ != newItem {
        items := items[i := newItem];
        dirty := true;
      }
    }

    method AddItemAt(i: nat, newItem: ItemStack) returns (leftover: ItemStack)
      requires Valid() && newItem.Valid()
      modifies this`items, this`dirty
      ensures Valid() && leftover.Valid()
      ensures i >= |old(items)| ==> leftover == newItem && items == old(items)
      ensures i < |old(items)| ==>
                var (s, rest) := old(items)[i].AddItem(newItem, defs);
                leftover == rest && items == old(items)[i := s]
      ensures leftover.count <= newItem.count
      ensures leftover.count == newItem.count ==> leftover == newItem && items == old(items)
      ensures dirty == (old(dirty) || leftover.count != newItem.count)
    {
      if i >= |items| {
        return newItem;
      }
      AddItemConserves(items[i], newItem, defs);
      var (s, rest) := items[i].AddItem(newItem, defs);
      leftover := rest;
      items := items[i := s];
      if leftover != newItem {
        dirty := true;
      }
    }

    method TakeItem(i: nat, n: nat) returns (taken: ItemStack)
      requires Valid()
      modifies this`items, this`dirty
      ensures Valid() && taken.Valid()
      ensures i >= |old(items)| ==> taken == NOTHING && items == old(items)
      ensures i < |old(items)| ==>
                var (s, t) := old(items)[i].TakeItem(n);
                taken == t && items == old(items)[i := s]
      ensures dirty == (old(dirty) || items != old(items))
    {
      if i >= |items| {
        return NOTHING;
      }
      TakeItemConserves(items[i], n);
      var (s, t) := items[i].TakeItem(n);
      taken := t;
      items := items[i := s];
      if !taken.Empty() {
        dirty := true;
      }
    }

    /** Adds an item to suitable slots: occupied ones first, then empty ones. */
    method AddItem(newItem: ItemStack) returns (leftover: ItemStack)
      requires Valid() && newItem.Valid()
      modifies this`items, this`dirty
      ensures Valid() && leftover.Valid()
      ensures (items, leftover) == AddedAll(old(items), newItem, defs)
      ensures leftover.count <= newItem.count
      ensures leftover.count == newItem.count ==> items == old(items)
      ensures dirty == (old(dirty) || leftover.count != newItem.count)
    {
      leftover := newItem;
      ghost var was := items;
      AddedAllFillsRoom(was, newItem, defs);
      if newItem.Empty() {
        PouredOut(was, 0, newItem, false, defs);
        PouredOut(was, 0, newItem, true, defs);
        assert [] + was[0..] == was;
        return;
      }
      leftover := PourInto(newItem, false);
      if leftover.Empty() {
        PouredOut(items, 0, leftover, true, defs);
        assert [] + items[0..] == items;
        return;
      }
      leftover := PourInto(leftover, true);
    }

    /** One of the two loops of addItem. */
    method PourInto(newItem: ItemStack, intoEmpty: bool) returns (leftover: ItemStack)
      requires Valid() && newItem.Valid()
      modifies this`items, this`dirty
      ensures Valid() && leftover.Valid()
      ensures (items, leftover) == Pour(old(items), newItem, intoEmpty, defs)
      ensures leftover.count <= newItem.count
      ensures leftover.count == newItem.count ==> leftover == newItem && items == old(items)
      ensures dirty == (old(dirty) || leftover.count != newItem.count)
    {
      hide *;
      leftover := newItem;
      ghost var was := items;
      PourStarts(was, newItem, intoEmpty, defs);
      for i := 0 to |items|
        invariant Valid() && leftover.Valid() && |items| == |was|
        invariant PouredTo(was, newItem, intoEmpty, defs, i, items, leftover)
        invariant leftover.count <= newItem.count
        invariant leftover.count == newItem.count ==> leftover == newItem && items == was
        invariant dirty == (old(dirty) || leftover.count != newItem.count)
      {
        PourOneMore(was, newItem, intoEmpty, defs, i, items, leftover);
        if items[i].Empty() != intoEmpty {
          continue;
        }
        leftover := AddItemAt(i, leftover);
        if leftover.Empty() {
          PourEnds(was, newItem, intoEmpty, defs, i + 1, items, leftover);
          return;
        }
      }
      PourEnds(was, newItem, intoEmpty, defs, |items|, items, leftover);
    }

    /** The query visits the slots in index order, yet answers exactly for the two passes of addItem. */
    method RoomForItem(newItem: ItemStack) returns (r: bool)
      requires Valid() && newItem.Valid()
      ensures !newItem.Empty() ==> r == Room(items, newItem, defs)
      ensures newItem.Empty() ==> r == (|items| > 0)
    {
      var item := newItem;
      for i := 0 to |items|
        invariant newItem.Empty() ==> i == 0
        invariant item.Valid() && item.Stacks(newItem)
        invariant !HasEmptySlot(items[..i])
        invariant item.count == newItem.count - FreeFor(items[..i], newItem, defs)
        invariant item.Empty() <==> newItem.Empty()
      {
        AddItemConserves(items[i], item, defs);
        FitsPredictsAdd(items[i], item, defs);
        RoomOneMore(items, i, newItem, defs);
        var (fits, rest) := items[i].ItemFits(item, defs);
        if fits {
          return true;
        }
        item := rest;
      }
      assert items[..|items|] == items;
      return false;
    }

    /** Whether the list holds at least `x.count` items like `x`. */
    method ContainsItem(x: ItemStack, matchMeta: bool) returns (r: bool)
      ensures r == (CountAlike(items, x, matchMeta) >= x.count)
    {
      var count := x.count;
      if count == 0 {
        return true;
      }
      var i := |items|;
      assert items[..i] == items;
      while i > 0 && count != 0
        invariant 0 <= i <= |items| && count >= 0
        invariant CountAlike(items, x, matchMeta) - x.count == CountAlike(items[..i], x, matchMeta) - count
        invariant count > 0
      {
        i := i - 1;
        CountAlikeLast(items[..i + 1], x, matchMeta);
        assert items[..i + 1][..i] == items[..i];
        if Alike(items[i], x, matchMeta) {
          if items[i].count >= count {
            return true;
          }
          count := count - items[i].count;
        }
      }
      return false;
    }

    lemma IsValid()
      ensures Valid() <==> AllValid(items) && Sane(defs)
    {
    }

    /** Removes up to `x.count` items of that name, walking backwards, whatever their metadata. */
    method RemoveItem(x: ItemStack) returns (removed: ItemStack)
      requires Valid() && x.Valid()
      modifies this`items, this`dirty
      ensures Valid()
      ensures items == RemovedBack(old(items), x.name, x.count)
      ensures removed.count == CountAlike(old(items), x, false) - CountAlike(items, x, false)
      ensures removed.count == (if x.count < CountAlike(old(items), x, false) then x.count
                                else CountAlike(old(items), x, false))
      ensures !removed.Empty() ==> removed.name == x.name
      ensures dirty == (old(dirty) || !removed.Empty())
    {
      hide *;
      removed := NOTHING;
      ghost var was := items;
      var i := |items|;
      IsValid();
      NothingRemoved(x);
      RemovedBackCounts(was, x, x.count);
      RemovalStarts(was, x);
      while i > 0
        invariant 0 <= i <= |items| == |was| && AllValid(items)
        invariant removed.Empty() ==> items == was && removed == NOTHING
        invariant Removing(was, x, i, items, removed)
        invariant dirty == old(dirty)
      {
        i := i - 1;
        RemoveOneMore(was, x, i, items, removed, defs);
        if items[i].name == x.name {
          var (rest, taken) := items[i].TakeItem(x.count - removed.count);
          items := items[i := rest];
          removed := Gather(removed, taken, defs);
          if removed.count == x.count {
            break;
          }
        }
      }
      RemovalEnds(was, x, i, items, removed);
      RemovalNames(was, x, i, items, removed);
      if !removed.Empty() {
        dirty := true;
      }
      IsValid();
    }

    method TakeUpTo(i: nat, n: nat) returns (taken: ItemStack)
      requires Valid() && i < |items|
      modifies this`items, this`dirty
      ensures Valid() && taken.Valid()
      ensures taken == TakenUpTo(old(items[i]), n).1 && items == old(items)[i := TakenUpTo(old(items[i]), n).0]
      ensures TakenRestored(old(items[i]), n) && (taken.Empty() <==> old(items[i]).Empty())
      ensures dirty == (old(dirty) || items != old(items))
    {
      TakeItemConserves(items[i], n);
      if n == 0 {
        taken := ChangeItem(i, NOTHING);
      } else {
        taken := TakeItem(i, n);
      }
    }

    /** Swaps two slots; off the destination list nothing happens. */
    method Exchange(i: nat, dest: InventoryList, j: nat) returns (moved: ItemStack)
      requires Valid() && dest.Valid() && dest.defs == defs
      requires i < |items| && !(this == dest && i == j)
      modifies this`items, this`dirty, dest`items, dest`dirty
      ensures Valid() && dest.Valid() && moved == old(items[i])
      ensures |dest.items| == |old(dest.items)|
      ensures j >= |dest.items| ==> items == old(items) && dest.items == old(dest.items)
      ensures j < |dest.items| ==>
                && dest.items == old(After(dest.items, i, j, this == dest, dest.items[j], items[i]))
                && (this != dest ==> items == old(items[i := dest.items[j]]))
      ensures items != old(items) ==> dirty
      ensures dest.items != old(dest.items) ==> dest.dirty
      ensures old(dirty) ==> dirty
      ensures old(dest.dirty) ==> dest.dirty
    {
      ghost var was, destWas := items, dest.items;
      moved := ChangeItem(i, NOTHING);
      var item2 := dest.ChangeItem(j, moved);
      var _ := ChangeItem(i, item2);
      if j >= |destWas| {
        assert items == was && dest.items == destWas;
      } else {
        assert dest.items == After(destWas, i, j, this == dest, destWas[j], moved);
      }
    }

    /** Takes up to `n` items out of one slot and adds what fits to another. */
    method Transfer(i: nat, dest: InventoryList, j: nat, n: nat) returns (moved: ItemStack, leftover: ItemStack)
      requires Valid() && dest.Valid() && dest.defs == defs
      requires i < |items| && !(this == dest && i == j)
      modifies this`items, this`dirty, dest`items, dest`dirty
      ensures Valid() && dest.Valid() && moved.Valid() && leftover.Valid()
      ensures var (src1, taken) := TakenUpTo(old(items[i]), n);
              && moved == taken && TakenRestored(old(items[i]), n) && (moved.Empty() <==> old(items[i]).Empty())
              && |items| == |old(items)| && items[i] == src1
              && (this != dest ==> items == old(items)[i := src1])
              && dest.items
                 == old(After(dest.items, i, j, this == dest, TakenUpTo(items[i], n).0,
                              if j < |dest.items| then dest.items[j].AddItem(TakenUpTo(items[i], n).1, defs).0
                              else NOTHING))
              && leftover == if j < |old(dest.items)| then old(dest.items)[j].AddItem(taken, defs).1 else taken
      ensures leftover.count <= moved.count
      ensures items != old(items) ==> dirty
      ensures dest.items != old(dest.items) ==> dest.dirty
      ensures old(dirty) ==> dirty
      ensures old(dest.dirty) ==> dest.dirty
    {
      hide ItemStack.AddItem, TakenUpTo, TakenRestored, AllValid, ItemStack.Valid, ItemStack.Empty;
      moved := TakeUpTo(i, n);
      leftover := dest.AddItemAt(j, moved);
    }

    /** Puts what did not fit back, and swaps the slots if nothing fitted. */
    method PutBack(i: nat, dest: InventoryList, j: nat, taken: ItemStack, left: ItemStack, swapIfNeeded: bool)
      returns (moved: ItemStack, didSwap: bool)
      requires Valid() && dest.Valid() && dest.defs == defs
      requires i < |items| && !(this == dest && i == j)
      requires left.count <= taken.count && left.Add(items[i].count).Valid()
      modifies this`items, this`dirty, dest`items, dest`dirty
      ensures Valid() && dest.Valid()
      ensures var rest, same := left.Add(old(items[i]).count), this == dest;
              && didSwap == (taken.Remove(left.count).Empty() && swapIfNeeded)
              && moved == (if didSwap then rest else taken.Remove(left.count))
              && (if didSwap && j < |old(dest.items)| then
                    && dest.items == After(old(dest.items), i, j, same, old(dest.items)[j], rest)
                    && (!same ==> items == old(items)[i := old(dest.items)[j]])
                  else
                    && dest.items == (if same then old(dest.items)[i := rest] else old(dest.items))
                    && items == old(items)[i := rest])
      ensures items != old(items) ==> dirty
      ensures dest.items != old(dest.items) ==> dest.dirty
      ensures old(dirty) ==> dirty
      ensures old(dest.dirty) ==> dest.dirty
    {
      hide AllValid, ItemStack.Valid;
      moved, didSwap := taken.Remove(left.count), false;
      var rest := left.Add(items[i].count);
      var _ := ChangeItem(i, rest);
      if moved.Empty() && swapIfNeeded {
        didSwap := true;
        moved := Exchange(i, dest, j);
      }
    }

    /** Off the list there is nothing to take, so an empty stack is added. */
    method MoveNothing(i: nat, dest: InventoryList, j: nat, n: nat) returns (moved: ItemStack)
      requires Valid() && dest.Valid() && i >= |items|
      modifies this`items, this`dirty, dest`items, dest`dirty
      ensures Valid() && dest.Valid() && moved == NOTHING
      ensures items == old(items) && dest.items == old(dest.items)
      ensures dirty == old(dirty) && dest.dirty == old(dest.dirty)
    {
      if n == 0 {
        moved := ChangeItem(i, NOTHING);
      } else {
        moved := TakeItem(i, n);
      }
      var _ := dest.AddItemAt(j, moved);
    }

    /** Moves up to `n` items (all if 0) to slot `j` of `dest`, which may be this very list. */
    method MoveItem(i: nat, dest: InventoryList, j: nat, n: nat, swapIfNeeded: bool)
      returns (moved: ItemStack, didSwap: bool)
      requires Valid() && dest.Valid() && dest.defs == defs
      modifies this`items, this`dirty, dest`items, dest`dirty
      ensures Valid() && dest.Valid()
      ensures (items, dest.items, moved, didSwap)
           == old(MovedBetween(items, i, dest.items, j, this == dest, n, swapIfNeeded, defs))
      ensures items != old(items) ==> dirty
      ensures dest.items != old(dest.items) ==> dest.dirty
      ensures old(dirty) ==> dirty
      ensures old(dest.dirty) ==> dest.dirty
    {
      moved, didSwap := NOTHING, false;
      if this == dest && i == j {
        return;
      }
      if i >= |items| {
        moved := MoveNothing(i, dest, j, n);
        return;
      }
      hide Move, MovedBetween, TakenUpTo, ItemStack.AddItem, ItemStack.TakeItem, AllValid, ItemStack.Valid;
      ghost var was, destWas := items, dest.items;
      ghost var onList := j < |destWas|;
      MovedBetweenIs(was, i, destWas, j, this == dest, n, swapIfNeeded, defs);
      ghost var dst1 := if onList then destWas[j].AddItem(TakenUpTo(was[i], n).1, defs).0 else NOTHING;
      var leftover;
      moved, leftover := Transfer(i, dest, j, n);
      if !leftover.Empty() {
        moved, didSwap := PutBack(i, dest, j, moved, leftover, swapIfNeeded);
      }
      if !onList {
        assert items == was && dest.items == destWas;
        assert didSwap == (swapIfNeeded && !was[i].Empty());
        assert moved == if didSwap then was[i] else NOTHING;
      } else {
        ghost var r := MovedBetween(was, i, destWas, j, this == dest, n, swapIfNeeded, defs);
        assert didSwap == r.3;
        assert moved == r.2;
        assert dest.items == r.1;
        assert items == r.0;
      }
    }

    /** Moves up to `n` items (all if 0) to wherever `dest`, which may be this very list, has room for them. */
    method MoveItemSomewhere(i: nat, dest: InventoryList, n: nat)
      requires Valid() && dest.Valid() && dest.defs == defs
      modifies this`items, this`dirty, dest`items, dest`dirty
      ensures (items, dest.items) == old(MovedSomewhere(items, i, dest.items, this == dest, n, defs))
      ensures Valid() <==> old(KeepsKind(items, i, dest.items, this == dest, n, defs))
      ensures this != dest ==> dest.Valid()
      ensures old(dirty) || items != old(items) ==> dirty
      ensures old(dest.dirty) || dest.items != old(dest.items) ==> dest.dirty
    {
      MovedSomewhereConservesIff(items, i, dest.items, this == dest, n, defs);
      if i >= |items| {
        return;
      }
      hide AddedAll, KeepsKind, AllValid, TakenUpTo;
      ghost var was := items;
      var item := TakeUpTo(i, n);
      if item.Empty() {
        assert items == was;
        return;
      }
      var leftover := dest.AddItem(item);
      if !leftover.Empty() {
        items := items[i := items[i].Add(leftover.count)];
      }
    }

    // -------------------------------------------------------------- whole-list edits and serialization

    ghost function State(): ListState
      reads this
    {
      ListState(name, width, items)
    }

    method ClearItems()
      requires Valid()
      modifies this`items, this`dirty
      ensures Valid() && dirty && items == Cleared(old(items), 0)
    {
      items := seq(|items|, i => NOTHING);
      dirty := true;
    }

    method SetSize(size: nat)
      requires Valid()
      modifies this`items, this`dirty
      ensures Valid() && items == Resized(old(items), size) && |items| == size
      ensures forall k :: 0 <= k < size ==> items[k] == if k < |old(items)| then old(items)[k] else NOTHING
      ensures dirty == (old(dirty) || size != |old(items)|)
    {
      if size == |items| {
        assert items[..size] == items;
        return;
      }
      items := Resized(items, size);
      dirty := true;
    }

    method SetWidth(width: nat)
      modifies this`width, this`dirty
      ensures this.width == width && dirty
    {
      this.width := width;
      dirty := true;
    }

    method SetName(name: string)
      modifies this`name, this`dirty
      ensures this.name == name && dirty
    {
      this.name := name;
      dirty := true;
    }

    method DeleteItem(i: nat)
      requires Valid() && i < |items|
      modifies this`items, this`dirty
      ensures Valid() && dirty && items == old(items)[i := NOTHING]
    {
      items := items[i := NOTHING];
      dirty := true;
    }

    method Serialize() returns (tokens: seq<Token>)
      ensures tokens == ListTokens(State())
    {
      tokens := [WidthLine(width)];
      for i := 0 to |items|
        invariant tokens == [WidthLine(width)] + ItemTokens(items)[..i]
      {
        if items[i].Empty() {
          tokens := tokens + [EmptyLine];
        } else {
          tokens := tokens + [ItemLine(items[i])];
        }
      }
      assert ItemTokens(items)[..|items|] == ItemTokens(items);
      tokens := tokens + [EndListLine];
    }

    /** Reads a list body; `ok` is false where the program throws. */
    method DeSerialize(tokens: seq<Token>) returns (ok: bool, rest: seq<Token>)
      requires Valid() && ValidTokens(tokens)
      modifies this`items, this`width, this`dirty
      ensures Valid() && dirty && ValidTokens(rest)
      ensures var r := ParseList(tokens, old(items), 0, 0);
              && ok == r.Some?
              && (ok ==> r.value == Parsed(items, width, rest))
    {
      dirty := true;
      var i := 0;
      width := 0;
      rest := tokens;
      ghost var was := items;
      while rest != []
        invariant Valid() && dirty && ValidTokens(rest)
        invariant ParseList(rest, items, i, width) == ParseList(tokens, was, 0, 0)
        decreases |rest|
      {
        var line := rest[0];
        rest := rest[1..];
        match line {
          case EndListLine =>
            items := Cleared(items, i);
            return true, rest;
          case WidthLine(w) =>
            width := w;
          case ItemLine(item) =>
            if i >= |items| {
              return false, rest;
            }
            items := items[i := item];
            i := i + 1;
          case EmptyLine =>
            if i >= |items| {
              return false, rest;
            }
            items := items[i := NOTHING];
            i := i + 1;
          case KeepLine =>
            i := i + 1;
          case _ =>
        }
      }
      return false, rest;
    }
  }

  /** What reading a stack from its line guarantees. */
  ghost predicate ValidTokens(tokens: seq<Token>) {
    forall i :: 0 <= i < |tokens| && tokens[i].ItemLine? ==> tokens[i].item.Valid()
  }
}
