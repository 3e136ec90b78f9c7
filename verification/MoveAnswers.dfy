/**
 What the answers of the allow callbacks mean for a move between two slots (src/inventorymanager.cpp,
 IMoveAction::apply): how much is moved, and when two stacks are swapped.
 */
module MoveAnswers {

  import opened Items
  import opened InventoryLists
  import opened MoveAction

  /** The smaller of the two, where -1 is no limit. */
  function AtMost(n: nat, answer: int): (r: int)
    ensures r <= n && (answer >= 0 ==> r <= answer) && (r == n || r == answer)
    ensures answer == -1 ==> r == n
  {
    if answer == -1 || n <= answer then n else answer
  }

  /** The lists with other stacks in the two slots. */
  ghost predicate OnlySlots(was: Lists, i: int, j: int, r: Lists, s: ItemStack, d: ItemStack)
    requires was.Ok(i, j)
  {
    && r.same == was.same
    && r.from == (if was.same then was.from[i := s][j := d] else was.from[i := s])
    && r.to == (if was.same then was.to[i := s][j := d] else was.to[j := d])
  }

  /** When something fits: exactly what fits is asked about, and what both answers allow of it is moved. */
  lemma MovesWhatIsAllowed(was: Lists, i: int, j: int, count: nat, caused: bool, sameInv: bool, dir: Direction,
                           cb: Callbacks, defs: ItemDefs)
    requires was.Ok(i, j) && was.from[i].Valid() && was.to[j].Valid() && Sane(defs) && AtLeast(cb, INFINITE)
    requires was.to[j].Accepts(Asked(was.from[i], count), defs) > 0
    ensures var s, d := was.from[i], was.to[j];
            var fits := d.Accepts(Asked(s, count), defs);
            var n := if sameInv then AtMost(fits, cb.allowMove(dir, fits))
                     else AtMost(AtMost(fits, cb.allowTake(dir, s.(count := fits))),
                                 cb.allowPut(dir, s.(count := fits)));
            var r := Outcome(was, i, j, count, caused, sameInv, dir, cb, defs);
      && n >= 0
      && MoveCountAfter(was, i, j, count, caused, sameInv, dir, cb, defs, 0) == n
      && (AtLeast(cb, 0) ==>
            if n == 0 then r == was
            else OnlySlots(was, i, j, r, if n == s.count then NOTHING else s.(count := s.count - n),
                           if d.Empty() then s.(count := n) else d.(count := d.count + n)))
  {
    var s, d := was.from[i], was.to[j];
    var fits := d.Accepts(Asked(s, count), defs);
    PlanWhenFits(s, d, count, caused, defs);
    var plan := Planned(s, d, count, caused, defs);
    var answers := Answered(sameInv, dir, cb, plan, d);
    AnsweredPlainly(s, d, fits, sameInv, dir, cb);
    var n := Allowed(plan, answers);
    if n > 0 {
      MovedPart(s, d, n, defs);
    }
    hide Planned, Move, ItemStack.Accepts, ItemStack.Valid, Sane;
  }

  lemma PlanWhenFits(s: ItemStack, d: ItemStack, count: nat, caused: bool, defs: ItemDefs)
    requires s.Valid() && d.Valid() && Sane(defs) && d.Accepts(Asked(s, count), defs) > 0
    ensures var fits := d.Accepts(Asked(s, count), defs);
            && Planned(s, d, count, caused, defs) == Ask(false, s.(count := fits)) && fits <= s.count
            && forall n :: 0 < n <= fits ==> d.Accepts(s.(count := n), defs) == n
  {
  }

  lemma AnsweredPlainly(s: ItemStack, d: ItemStack, fits: nat, sameInv: bool, dir: Direction, cb: Callbacks)
    requires fits > 0 && AtLeast(cb, INFINITE)
    ensures var plan := Ask(false, s.(count := fits));
            var answers := Answered(sameInv, dir, cb, plan, d);
      && !answers.swap
      && (AtLeast(cb, 0) ==> answers.srcCanTake >= 0 && answers.dstCanPut >= 0)
      && 0 <= Allowed(plan, answers) == if sameInv then AtMost(fits, cb.allowMove(dir, fits))
         else AtMost(AtMost(fits, cb.allowTake(dir, s.(count := fits))), cb.allowPut(dir, s.(count := fits)))
  {
  }

  lemma MovedPart(s: ItemStack, d: ItemStack, n: nat, defs: ItemDefs)
    requires s.Valid() && d.Valid() && Sane(defs) && 0 < n <= s.count && d.Accepts(s.(count := n), defs) == n
    ensures Move(s, d, n, false, defs) ==
      MoveOutcome(if n == s.count then NOTHING else s.(count := s.count - n),
                  if d.Empty() then s.(count := n) else d.(count := d.count + n), s.(count := n), false)
  {
  }

  /** When nothing fits, two stacks are swapped exactly with the consent of everybody asked, for both directions;
      otherwise nothing happens. */
  lemma SwapsByConsent(was: Lists, i: int, j: int, count: nat, sameInv: bool, dir: Direction, cb: Callbacks,
                       defs: ItemDefs)
    requires was.Ok(i, j) && was.from[i].Valid() && was.to[j].Valid() && Sane(defs) && AtLeast(cb, 0)
    requires !was.from[i].Empty() && was.to[j].Accepts(Asked(was.from[i], count), defs) == 0
    ensures var s, d, back := was.from[i], was.to[j], Direction(dir.to, dir.from);
            var consent := if sameInv
                           then cb.allowMove(dir, s.count) >= s.count && cb.allowMove(back, d.count) >= d.count
                           else && cb.allowPut(dir, s) >= s.count && cb.allowTake(dir, s) >= s.count
                                && cb.allowPut(back, d) >= d.count && cb.allowTake(back, d) >= d.count;
            var r := Outcome(was, i, j, count, false, sameInv, dir, cb, defs);
      if consent then OnlySlots(was, i, j, r, d, s) else r == was
  {
    var s, d := was.from[i], was.to[j];
    PlanWhenNothingFits(s, d, count, defs);
    var plan := Planned(s, d, count, false, defs);
    var answers := Answered(sameInv, dir, cb, plan, d);
    var n := Allowed(plan, answers);
    assert dir.Swapped() == Direction(dir.to, dir.from);
    if n > 0 {
      SwappedWhole(s, d, n, defs);
    }
    hide Planned, Move, ItemStack.Accepts, ItemStack.Valid, Sane;
  }

  lemma PlanWhenNothingFits(s: ItemStack, d: ItemStack, count: nat, defs: ItemDefs)
    requires s.Valid() && d.Valid() && Sane(defs) && !s.Empty() && d.Accepts(Asked(s, count), defs) == 0
    ensures Planned(s, d, count, false, defs) == Ask(true, s) && d.count > 0
    ensures forall n :: 0 < n <= s.count ==> d.Accepts(s.(count := n), defs) == 0
  {
  }

  lemma SwappedWhole(s: ItemStack, d: ItemStack, n: nat, defs: ItemDefs)
    requires s.Valid() && d.Valid() && Sane(defs) && 0 < n <= s.count && d.Accepts(s.(count := n), defs) == 0
    requires d.count > 0
    ensures Move(s, d, n, true, defs) == MoveOutcome(d, s, s, true)
  {
  }

  /** A stack goes into the first empty slot, or nowhere if there is none. */
  lemma {:induction false} InFirstEmptyIs(slots: seq<ItemStack>, x: ItemStack, k: nat)
    requires k <= |slots| && (forall i :: 0 <= i < k ==> !slots[i].Empty()) && (k < |slots| ==> slots[k].Empty())
    ensures InFirstEmpty(slots, x) == if k < |slots| then slots[k := x] else slots
  {
    if slots != [] && k > 0 {
      InFirstEmptyIs(slots[1..], x, k - 1);
      assert slots == [slots[0]] + slots[1..];
    }
  }

  /** Everybody asked agrees to a swap, and one answer says that an end is infinite. */
  ghost predicate AgreesAcross(cb: Callbacks, dir: Direction, s: ItemStack, d: ItemStack) {
    && Allows(cb.allowPut(dir, s), s.count) && Allows(cb.allowTake(dir, s), s.count)
    && Allows(cb.allowPut(dir.Swapped(), d), d.count) && Allows(cb.allowTake(dir.Swapped(), d), d.count)
  }

  /** A swap out of an infinite source into another list: the source keeps its stack, the destination slot holds the
      same, and the stack that was there goes to the first empty slot, unless it only differs in metadata. */
  lemma InfiniteSourceSwap(was: Lists, i: int, j: int, count: nat, dir: Direction, cb: Callbacks, defs: ItemDefs)
    requires was.Ok(i, j) && !was.same && was.from[i].Valid() && was.to[j].Valid() && Sane(defs)
    requires AtLeast(cb, INFINITE) && !was.from[i].Empty()
    requires was.to[j].Accepts(Asked(was.from[i], count), defs) == 0
    requires AgreesAcross(cb, dir, was.from[i], was.to[j])
    requires cb.allowTake(dir, was.from[i]) == -1 && cb.allowPut(dir, was.from[i]) >= 0
    ensures var s, d := was.from[i], was.to[j];
            var r := Outcome(was, i, j, count, false, false, dir, cb, defs);
      && r.from == was.from
      && r.to == if s.name != d.name then InFirstEmpty(was.to[j := s], d) else was.to[j := s]
  {
    var s, d := was.from[i], was.to[j];
    PlanWhenNothingFits(s, d, count, defs);
    var plan := Planned(s, d, count, false, defs);
    var n := Allowed(plan, Answered(false, dir, cb, plan, d));
    SwappedWhole(s, d, n, defs);
    hide Planned, Move, ItemStack.Accepts, ItemStack.Valid, Sane;
    assert was.from[i := s] == was.from;
  }

  /** A swap into an infinite destination in another list: the destination keeps its stack, and the source is used
      up. */
  lemma InfiniteDestinationSwap(was: Lists, i: int, j: int, count: nat, dir: Direction, cb: Callbacks, defs: ItemDefs)
    requires was.Ok(i, j) && !was.same && was.from[i].Valid() && was.to[j].Valid() && Sane(defs)
    requires AtLeast(cb, INFINITE) && !was.from[i].Empty()
    requires was.to[j].Accepts(Asked(was.from[i], count), defs) == 0
    requires AgreesAcross(cb, dir, was.from[i], was.to[j])
    requires cb.allowPut(dir, was.from[i]) == -1 && cb.allowTake(dir, was.from[i]) >= 0
    ensures var r := Outcome(was, i, j, count, false, false, dir, cb, defs);
      r.to == was.to && r.from == was.from[i := NOTHING]
  {
    var s, d := was.from[i], was.to[j];
    PlanWhenNothingFits(s, d, count, defs);
    var plan := Planned(s, d, count, false, defs);
    var n := Allowed(plan, Answered(false, dir, cb, plan, d));
    SwappedWhole(s, d, n, defs);
    assert s.TakeItem(s.count).0 == NOTHING;
    hide Planned, Move, ItemStack.Accepts, ItemStack.Valid, Sane;
    assert was.to[j := d] == was.to;
  }
}
