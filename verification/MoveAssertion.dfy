/**
 The assertion in the loop of a move action without a destination slot (src/inventorymanager.cpp,
 IMoveAction::apply, move_somewhere): when it holds for all destinations and callbacks.  A round that returns
 early leaves the number of the round before, and that is subtracted once more.
 */
module MoveAssertion {

  import opened Items
  import opened InventoryLists
  import opened MoveAction

  /** As long as the source holds what is left to move, and is not in the destination list. */
  ghost predicate Supplied(p: Progress, on: Setting) {
    && Healthy(p.lists, on.defs) && !p.lists.same && p.ok
    && 0 <= on.dir.from.index < |p.lists.from| && p.count <= p.lists.from[on.dir.from.index].count
  }

  lemma {:induction false} PassSupplied(p: Progress, j: nat, empties: bool, on: Setting)
    requires AtLeast(on.cb, INFINITE) && Supplied(p, on)
    ensures var i, r := on.dir.from.index, Pass(p, j, empties, on);
      && Supplied(r, on) && r.count <= p.count
      && (AtLeast(on.cb, 0) ==> r.lists.from[i].count == p.lists.from[i].count - (p.count - r.count))
    decreases |p.lists.to| - j
  {
    hide Round, Healthy;
    if j < |p.lists.to| && p.count > 0 && p.ok {
      if p.lists.to[j].Empty() != empties {
        PassSupplied(p, j + 1, empties, on);
      } else {
        RoundSizes(p, j, on);
        RoundMoves(p, j, on);
        PassSupplied(Round(p, j, on), j + 1, empties, on);
      }
    }
  }

  /** With a source in another list that holds at least what is to be moved, the assertion of the program never
      fails, whatever the answers; and finite answers take from the source exactly what is no longer left to
      move. */
  lemma AssertionHolds(p: Progress, on: Setting)
    requires AtLeast(on.cb, INFINITE) && Supplied(p, on)
    ensures var i, r := on.dir.from.index, Somewhere(p, on);
      && r.ok && |r.lists.from| == |p.lists.from|
      && (AtLeast(on.cb, 0) ==> r.lists.from[i].count == p.lists.from[i].count - (p.count - r.count))
  {
    PassSupplied(p, 0, false, on);
    PassSupplied(Pass(p, 0, false, on), 0, true, on);
    PassSizes(p, 0, false, on);
    PassSizes(Pass(p, 0, false, on), 0, true, on);
    hide Pass, Healthy;
  }

  lemma {:induction false} PassSizes(p: Progress, j: nat, empties: bool, on: Setting)
    requires AtLeast(on.cb, INFINITE)
    ensures |Pass(p, j, empties, on).lists.from| == |p.lists.from|
    decreases |p.lists.to| - j
  {
    hide Round;
    if j < |p.lists.to| && p.count > 0 && p.ok {
      if p.lists.to[j].Empty() != empties {
        PassSizes(p, j + 1, empties, on);
      } else {
        RoundSizes(p, j, on);
        PassSizes(Round(p, j, on), j + 1, empties, on);
      }
    }
  }

  /** The first round of moving five items when there are three, and two empty slots. */
  lemma FirstRoundMovesAll(p: Progress, on: Setting, s: ItemStack)
    requires s.Valid() && s.count == 3 && AtLeast(on.cb, 3) && on.dir.from.index == 0 && Sane(on.defs)
    requires p == Progress(Lists([s], [NOTHING, NOTHING], false), 5, 0, true)
    ensures AtLeast(on.cb, INFINITE)
    ensures Round(p, 0, on) == Progress(Lists([NOTHING], [s, NOTHING], false), 2, 3, true)
  {
    var plan := Planned(s, NOTHING, 5, true, on.defs);
    assert plan == Ask(false, s);
    var answers := Answered(on.SameInv(), on.To(0), on.cb, plan, NOTHING);
    assert answers.srcCanTake >= 3 && answers.dstCanPut >= 3 && !answers.swap;
    assert Allowed(plan, answers) == 3;
    hide Planned, Answered, Allowed;
    assert Move(s, NOTHING, 3, false, on.defs) == MoveOutcome(NOTHING, s, s, false);
    hide Move;
    var (from, to, moved, swapped) := MovedBetween([s], 0, [NOTHING, NOTHING], 0, false, 3, false, on.defs);
    assert from == [NOTHING] && to == [s, NOTHING] && moved == s && !swapped;
  }

  /**
   A source with fewer items than asked for, and one more slot to try: the count of the round before is subtracted
   once more, and the assertion fails.
   */
  lemma StaleCountFails(p: Progress, on: Setting, s: ItemStack)
    requires s.Valid() && s.count == 3 && AtLeast(on.cb, 3) && on.dir.from.index == 0 && Sane(on.defs)
    requires p == Progress(Lists([s], [NOTHING, NOTHING], false), 5, 0, true)
    ensures AtLeast(on.cb, INFINITE) && !Somewhere(p, on).ok
  {
    FirstRoundMovesAll(p, on, s);
    var r := Round(p, 0, on);
    NothingAsked(r, 1, on);
    hide Round;
    assert NOTHING.Empty();
    assert Pass(p, 2, false, on) == p && Pass(p, 1, false, on) == p && Pass(p, 0, false, on) == p;
    assert !Round(r, 1, on).ok;
    assert Pass(Round(r, 1, on), 2, true, on) == Round(r, 1, on);
    assert Pass(r, 1, true, on) == Round(r, 1, on) by {
      RoundSizes(r, 1, on);
    }
  }

  // ---------------------------------------------------------------- stacks come before empty slots

  lemma RoundKeepsOthers(p: Progress, j: int, on: Setting, k: int)
    requires AtLeast(on.cb, INFINITE) && !p.lists.same && 0 <= k < |p.lists.to| && k != j
    ensures |Round(p, j, on).lists.to| == |p.lists.to| && !Round(p, j, on).lists.same
    ensures Round(p, j, on).lists.to[k] == p.lists.to[k]
  {
    RoundSizes(p, j, on);
    hide Move, Planned, ItemStack.TakeItem, MoveCountAfter;
  }

  lemma {:induction false} PassKeepsEmpties(p: Progress, j: nat, on: Setting, k: int)
    requires AtLeast(on.cb, INFINITE) && !p.lists.same && 0 <= k < |p.lists.to| && p.lists.to[k].Empty()
    ensures var r := Pass(p, j, false, on); |r.lists.to| == |p.lists.to| && r.lists.to[k] == p.lists.to[k]
    decreases |p.lists.to| - j
  {
    hide Round;
    if j < |p.lists.to| && p.count > 0 && p.ok {
      if p.lists.to[j].Empty() {
        PassKeepsEmpties(p, j + 1, on, k);
      } else {
        RoundSizes(p, j, on);
        RoundKeepsOthers(p, j, on, k);
        PassKeepsEmpties(Round(p, j, on), j + 1, on, k);
      }
    }
  }

  /** An empty slot of another list stays empty as long as the stacks there are tried, and for good if they take all. */
  lemma StacksComeFirst(p: Progress, on: Setting, k: int)
    requires AtLeast(on.cb, INFINITE) && !p.lists.same && 0 <= k < |p.lists.to| && p.lists.to[k].Empty()
    ensures var first := Pass(p, 0, false, on);
      && |first.lists.to| == |p.lists.to| && first.lists.to[k] == p.lists.to[k]
      && (first.count == 0 ==> Somewhere(p, on) == first)
  {
    PassKeepsEmpties(p, 0, on, k);
  }

  // ---------------------------------------------------------------- when the assertion can fail

  /** Lists and callbacks for a source stack, in the destination list or not. */
  ghost predicate Ready(l: Lists, on: Setting, s: ItemStack, same: bool) {
    && Healthy(l, on.defs) && l.same == same && AtLeast(on.cb, INFINITE)
    && 0 <= on.dir.from.index < |l.from| && l.from[on.dir.from.index] == s
  }

  /** Nothing to fear from a round that returns early. */
  ghost predicate Calm(p: Progress, on: Setting) {
    && Healthy(p.lists, on.defs) && p.ok && p.moveCount >= 0 && 0 <= on.dir.from.index < |p.lists.from|
    && (|| p.count + p.moveCount <= 2
        || (p.moveCount <= 1 && p.lists.from[on.dir.from.index].count <= 1))
  }

  lemma RoundIsCalm(p: Progress, j: int, on: Setting)
    requires AtLeast(on.cb, INFINITE) && Calm(p, on) && p.count > 0
    ensures Calm(Round(p, j, on), on)
  {
    var i := on.dir.from.index;
    if p.lists.Ok(i, j) && !p.lists.from[i].Empty() {
      RoundMoves(p, j, on);
    } else {
      NothingAsked(p, j, on);
    }
    hide Healthy, Round;
  }

  lemma {:induction false} PassIsCalm(p: Progress, j: nat, empties: bool, on: Setting)
    requires AtLeast(on.cb, INFINITE) && Calm(p, on)
    ensures Calm(Pass(p, j, empties, on), on)
    decreases |p.lists.to| - j
  {
    hide Round, Calm;
    if j < |p.lists.to| && p.count > 0 && p.ok {
      if p.lists.to[j].Empty() != empties {
        PassIsCalm(p, j + 1, empties, on);
      } else {
        RoundSizes(p, j, on);
        RoundIsCalm(p, j, on);
        PassIsCalm(Round(p, j, on), j + 1, empties, on);
      }
    }
  }

  /** The slot in question takes `k` items, from an infinite source or not. */
  lemma RoundOf(p: Progress, j: int, on: Setting, k: nat, infinite: bool)
    requires AtLeast(on.cb, INFINITE) && Healthy(p.lists, on.defs) && p.ok && !on.SameInv()
    requires p.lists.Ok(on.dir.from.index, j) && 0 < k <= p.count && k <= p.lists.from[on.dir.from.index].count
    requires forall x :: on.cb.allowTake(on.To(j), x) == (if infinite then INFINITE else U16_MAX)
    requires forall x :: on.cb.allowPut(on.To(j), x) == k
    requires var s := p.lists.from[on.dir.from.index];
      p.lists.to[j].Accepts(Asked(s, p.count), on.defs) >= k && p.lists.to[j].Accepts(s.(count := k), on.defs) == k
    ensures var i, r := on.dir.from.index, Round(p, j, on);
      && r == Progress(r.lists, p.count - k, k, true) && Healthy(r.lists, on.defs)
      && |r.lists.from| == |p.lists.from| && |r.lists.to| == |p.lists.to| && r.lists.same == p.lists.same
      && (if infinite then r.lists.from[i] == p.lists.from[i]
          else r.lists.from[i].count == p.lists.from[i].count - k)
      && (forall m :: 0 <= m < |p.lists.to| && m != j && !(p.lists.same && m == i) ==>
            r.lists.to[m] == p.lists.to[m])
  {
    var i := on.dir.from.index;
    var s, d := p.lists.from[i], p.lists.to[j];
    RoundMoves(p, j, on);
    PlanMeans(s, d, p.count, true, on.defs);
    var plan := Planned(s, d, p.count, true, on.defs);
    var answers := Answered(false, on.To(j), on.cb, plan, d);
    assert plan.Ask? && !plan.swap && plan.moving.count >= k;
    assert Allowed(plan, answers) == k && !answers.swap;
    MoveConserves(s, d, k, false, on.defs);
    hide Move, Planned, Answered, Healthy, ItemStack.Accepts;
  }

  function SourceAt(last: nat, same: bool): nat {
    if same then last + 1 else 0
  }

  /** One item from an infinite source for each slot before `last`; then `k` items, and one is left. */
  function Teasing(last: nat, k: nat, same: bool): Setting {
    Setting(Direction(Endpoint(Undefined, "", SourceAt(last, same)), Endpoint(Undefined, "", 0)),
            Callbacks((d: Direction, x: ItemStack) => if d.to.index < last then 1 else k,
                      (d: Direction, x: ItemStack) => if d.to.index < last || same then INFINITE else U16_MAX,
                      (d: Direction, n: int) => 0),
            ItemDefs(name => U16_MAX))
  }

  /** A source of at least `k` items, at the end of its own list or in front of empty slots. */
  ghost predicate Teased(p: Progress, j: nat, last: nat, k: nat, s: ItemStack) {
    && Healthy(p.lists, Teasing(last, k, p.lists.same).defs) && p.ok && |p.lists.to| == last + 2
    && SourceAt(last, p.lists.same) < |p.lists.from| && p.lists.from[SourceAt(last, p.lists.same)] == s
    && s.count >= k >= 2 && k == (if p.lists.same then 2 else s.count)
    && j <= last && p.count == last - j + k + 1
    && (forall m :: j <= m <= last ==> p.lists.to[m] == if p.lists.same then s.(count := 1) else NOTHING)
    && (!p.lists.same ==> p.lists.to[last + 1] == NOTHING)
  }

  lemma TeasingRound(p: Progress, j: nat, last: nat, k: nat, s: ItemStack)
    requires Teased(p, j, last, k, s)
    ensures var on := Teasing(last, k, p.lists.same);
      && AtLeast(on.cb, INFINITE)
      && var r := Round(p, j, on);
         && r.lists.same == p.lists.same && |r.lists.to| == |p.lists.to|
         && (j < last ==> Teased(r, j + 1, last, k, s))
         && (j == last ==> Round(r, j + 1, on).ok == false && r.count == 1 && r.ok
                           && r.lists.to[j + 1].Empty() == !p.lists.same)
  {
    var on := Teasing(last, k, p.lists.same);
    if j < last {
      RoundOf(p, j, on, 1, true);
    } else {
      assert Asked(s, p.count).count >= k;
      RoundOf(p, j, on, k, p.lists.same);
      NothingAsked(Round(p, j, on), j + 1, on);
    }
    hide Round;
  }

  lemma {:induction false} TeasedFails(p: Progress, j: nat, last: nat, k: nat, s: ItemStack)
    requires Teased(p, j, last, k, s)
    ensures AtLeast(Teasing(last, k, p.lists.same).cb, INFINITE)
    ensures !Pass(p, j, !p.lists.same, Teasing(last, k, p.lists.same)).ok
    decreases last - j
  {
    var on := Teasing(last, k, p.lists.same);
    TeasingRound(p, j, last, k, s);
    assert !p.lists.to[j].Empty() == p.lists.same;
    hide Round, Teasing;
    var r := Round(p, j, on);
    if j < last {
      TeasedFails(r, j + 1, last, k, s);
    } else {
      RoundSizes(r, j + 1, on);
      assert Pass(Round(r, j + 1, on), j + 2, !p.lists.same, on) == Round(r, j + 1, on);
    }
  }

  /** Lists on which the assertion fails for this source and count. */
  lemma TeasedLists(s: ItemStack, n: nat, same: bool) returns (l: Lists, on: Setting)
    requires s.Valid() && s.count > 1 && n > (if same then 2 else s.count)
    ensures Ready(l, on, s, same) && !Somewhere(Progress(l, n, 0, true), on).ok
  {
    var k: nat := if same then 2 else s.count;
    var last: nat := n - k - 1;
    on := Teasing(last, k, same);
    var tos := if same then seq(last + 1, m => s.(count := 1)) + [s] else seq(last + 2, m => NOTHING);
    l := Lists(if same then tos else [s], tos, same);
    var p := Progress(l, n, 0, true);
    assert Teased(p, 0, last, k, s);
    TeasedFails(p, 0, last, k, s);
    if same {
      PassStopped(Pass(p, 0, false, on), 0, true, on);
    } else {
      NothingOccupied(p, 0, on);
    }
    hide Pass, Round;
  }

  lemma PassStopped(p: Progress, j: nat, empties: bool, on: Setting)
    requires AtLeast(on.cb, INFINITE) && !p.ok
    ensures Pass(p, j, empties, on) == p
  {
  }

  lemma {:induction false} NothingOccupied(p: Progress, j: nat, on: Setting)
    requires AtLeast(on.cb, INFINITE) && forall m :: 0 <= m < |p.lists.to| ==> p.lists.to[m] == NOTHING
    ensures Pass(p, j, false, on) == p
    decreases |p.lists.to| - j
  {
    if j < |p.lists.to| {
      NothingOccupied(p, j + 1, on);
    }
  }

  /**
   For a source stack and a count the assertion holds, whatever the lists and callbacks, exactly when the source
   has at most one item, or the count is at most what the source has, or at most two if the source is in the
   destination list itself, where its own slot is one that is passed over.
   */
  lemma AssertionHoldsIff(s: ItemStack, n: nat, same: bool)
    requires s.Valid()
    ensures (forall l, on :: Ready(l, on, s, same) ==> Somewhere(Progress(l, n, 0, true), on).ok)
       <==> s.count <= 1 || n <= if same then 2 else s.count
  {
    if s.count <= 1 || n <= if same then 2 else s.count {
      forall l, on | Ready(l, on, s, same) ensures Somewhere(Progress(l, n, 0, true), on).ok {
        var p := Progress(l, n, 0, true);
        if s.count <= 1 || n <= 2 {
          PassIsCalm(p, 0, false, on);
          PassIsCalm(Pass(p, 0, false, on), 0, true, on);
        } else {
          AssertionHolds(p, on);
        }
      }
    } else {
      var l, on := TeasedLists(s, n, same);
    }
    hide Pass;
  }
}
