/**
 The move action between two inventory slots (src/inventorymanager.cpp, IMoveAction::apply): asking the
 allow callbacks, moving or swapping, and infinite sources and destinations, and the loop over the slots when
 there is no destination slot.
 */
module MoveAction {
  import opened Items
  import opened InventoryLists

  datatype InventoryLocation =
    | Undefined
    | CurrentPlayer
    | Player(name: string)
    | NodeMeta(x: int, y: int, z: int)
    | Detached(name: string)
  {
    /** An undefined location is not even equal to itself. */
    predicate Same(other: InventoryLocation) {
      !Undefined? && this == other
    }
  }

  datatype Endpoint = Endpoint(inv: InventoryLocation, list: string, index: int)

  /** Where a move goes; the callbacks see it. */
  datatype Direction = Direction(from: Endpoint, to: Endpoint) {
    function Swapped(): Direction {
      Direction(to, from)
    }
  }

  /** The allow callbacks: how many items may be moved; -1 stands for an infinite stack. */
  datatype Callbacks = Callbacks(
    allowPut: (Direction, ItemStack) -> int,
    allowTake: (Direction, ItemStack) -> int,
    allowMove: (Direction, int) -> int
  )

  const INFINITE := -1

  ghost predicate AtLeast(cb: Callbacks, min: int) {
    && (forall d, s :: cb.allowPut(d, s) >= min)
    && (forall d, s :: cb.allowTake(d, s) >= min)
    && (forall d, n :: cb.allowMove(d, n) >= min)
  }

  predicate Allows(answer: int, n: int) {
    answer == INFINITE || answer >= n
  }

  /** The outcome of asking: whether to swap, and both limits. */
  datatype Answers = Answers(swap: bool, srcCanTake: int, dstCanPut: int)

  function AskSame(dir: Direction, cb: Callbacks, wantSwap: bool, moving: ItemStack, dst: ItemStack): Answers {
    var take := cb.allowMove(dir, moving.count);
    var swap := wantSwap && Allows(take, moving.count);
    var put := if swap then cb.allowMove(dir.Swapped(), dst.count) else take;
    var swap' := swap && Allows(put, dst.count);
    if swap' != wantSwap then Answers(swap', 0, 0) else Answers(swap', take, put)
  }

  function AskBoth(dir: Direction, cb: Callbacks, wantSwap: bool, moving: ItemStack, dst: ItemStack): Answers {
    var put := cb.allowPut(dir, moving);
    var take := cb.allowTake(dir, moving);
    var swap := wantSwap && Allows(take, moving.count) && Allows(put, moving.count);
    var swap' := swap && Allows(cb.allowPut(dir.Swapped(), dst), dst.count)
        && Allows(cb.allowTake(dir.Swapped(), dst), dst.count);
    if swap' != wantSwap then Answers(swap', 0, 0) else Answers(swap', take, put)
  }

  function Limited(n: int, answer: int): int {
    if answer != INFINITE && answer < n then answer else n
  }

  /** The stack the action is about: at most `count` items unless 0. */
  function Asked(s: ItemStack, count: nat): ItemStack {
    if 0 < count < s.count then s.(count := count) else s
  }

  /** Putting a stack into the first empty slot, if there is one. */
  function InFirstEmpty(slots: seq<ItemStack>, x: ItemStack): (r: seq<ItemStack>)
    ensures |r| == |slots|
  {
    if slots == [] then []
    else if slots[0].Empty() then [x] + slots[1..]
    else [slots[0]] + InFirstEmpty(slots[1..], x)
  }

  /** Source and destination list; they stay equal when they are the same list. */
  datatype Lists = Lists(from: seq<ItemStack>, to: seq<ItemStack>, same: bool) {
    ghost predicate Ok(i: int, j: int) {
      && 0 <= i < |from| && 0 <= j < |to|
      && (same ==> from == to && i != j)
    }

    function SetFrom(i: int, x: ItemStack): Lists
      requires 0 <= i < |from| && (same ==> from == to)
    {
      this.(from := from[i := x], to := if same then to[i := x] else to)
    }

    function SetTo(j: int, x: ItemStack): Lists
      requires 0 <= j < |to| && (same ==> from == to)
    {
      this.(to := to[j := x], from := if same then from[j := x] else from)
    }

    function Spill(x: ItemStack): Lists
      requires same ==> from == to
    {
      this.(to := InFirstEmpty(to, x), from := if same then InFirstEmpty(from, x) else from)
    }

    ghost function Total(k: Kind): nat {
      InventoryLists.Total(from, k) + if same then 0 else InventoryLists.Total(to, k)
    }
  }

  /** Resetting an infinite source that held `s`: leftovers of a different kind spill over first. */
  function ResetSource(l: Lists, i: int, s: ItemStack, d: ItemStack, caused: bool, moved: nat, swapped: bool): Lists
    requires 0 <= i < |l.from| && (l.same ==> l.from == l.to)
  {
    var l' := if !caused && s.name != d.name then l.Spill(d) else l;
    if moved > 0 || swapped then l'.SetFrom(i, s) else l'
  }

  /** Resetting an infinite destination that held `d`; a swap is undone and the items are just taken. */
  function ResetDestination(l: Lists, i: int, j: int, s: ItemStack, d: ItemStack, moved: nat, swapped: bool): Lists
    requires 0 <= i < |l.from| && 0 <= j < |l.to| && (l.same ==> l.from == l.to)
  {
    var l' := l.SetTo(j, d);
    if swapped then l'.SetFrom(i, s.TakeItem(moved).0) else l'
  }

  /** What the allowed move leaves behind. */
  function Applied(was: Lists, i: int, j: int, n: nat, answers: Answers, caused: bool, defs: ItemDefs): Lists
    requires was.Ok(i, j)
  {
    var s, d := was.from[i], was.to[j];
    var (from, to, moved, swapped) := MovedBetween(was.from, i, was.to, j, was.same, n, answers.swap, defs);
    var l := Lists(from, to, was.same);
    var l' := if answers.srcCanTake == INFINITE then ResetSource(l, i, s, d, caused, moved.count, swapped) else l;
    if answers.dstCanPut == INFINITE then ResetDestination(l', i, j, s, d, moved.count, swapped) else l'
  }

  lemma {:induction false} SpillKeepsOccupied(slots: seq<ItemStack>, x: ItemStack, i: int)
    requires 0 <= i < |slots| && !slots[i].Empty()
    ensures InFirstEmpty(slots, x)[i] == slots[i]
  {
    if i > 0 {
      SpillKeepsOccupied(slots[1..], x, i - 1);
    }
  }

  lemma ExchangedTotal(was: Lists, i: int, j: int, s: ItemStack, d: ItemStack, k: Kind)
    requires was.Ok(i, j) && s.Of(k) + d.Of(k) == was.from[i].Of(k) + was.to[j].Of(k)
    ensures was.SetFrom(i, s).SetTo(j, d).Total(k) == was.Total(k)
  {
    TotalUpdate(was.from, i, s, k);
    TotalUpdate(was.SetFrom(i, s).to, j, d, k);
  }

  /** With finite answers no item appears or vanishes, whether the move merges, splits or swaps. */
  lemma FiniteMoveConserves(was: Lists, i: int, j: int, n: nat, answers: Answers, caused: bool, defs: ItemDefs, k: Kind)
    requires was.Ok(i, j) && AllValid(was.from) && AllValid(was.to) && Sane(defs)
    requires answers.srcCanTake >= 0 && answers.dstCanPut >= 0
    ensures Applied(was, i, j, n, answers, caused, defs).Total(k) == was.Total(k)
  {
    MoveConserves(was.from[i], was.to[j], n, answers.swap, defs);
    var m := Move(was.from[i], was.to[j], n, answers.swap, defs);
    hide Move;
    ExchangedTotal(was, i, j, m.src, m.dst, k);
  }

  lemma AppliedSourceKept(was: Lists, i: int, j: int, n: nat, answers: Answers, caused: bool, defs: ItemDefs)
    requires was.Ok(i, j) && AllValid(was.from) && AllValid(was.to) && Sane(defs) && !was.from[i].Empty() && n > 0
    requires answers.srcCanTake == INFINITE && answers.dstCanPut != INFINITE
    ensures Applied(was, i, j, n, answers, caused, defs).from[i] == was.from[i]
  {
    var s, d := was.from[i], was.to[j];
    MoveConserves(s, d, n, answers.swap, defs);
    var (from, to, moved, swapped) := MovedBetween(was.from, i, was.to, j, was.same, n, answers.swap, defs);
    if moved.count == 0 && !swapped {
      NothingMoved(s, d, n, answers.swap, defs);
      SpillKeepsOccupied(from, d, i);
    }
  }

  lemma NothingMoved(s: ItemStack, d: ItemStack, n: nat, swap: bool, defs: ItemDefs)
    requires s.Valid() && d.Valid() && Sane(defs) && n > 0
    requires Move(s, d, n, swap, defs).moved.count == 0 && !Move(s, d, n, swap, defs).swapped
    ensures Move(s, d, n, swap, defs).src == s
  {
    TakeItemConserves(s, n);
    AddItemConserves(d, s.TakeItem(n).1, defs);
  }

  lemma AppliedDestinationKept(was: Lists, i: int, j: int, n: nat, answers: Answers, caused: bool, defs: ItemDefs)
    requires was.Ok(i, j) && answers.dstCanPut == INFINITE
    ensures Applied(was, i, j, n, answers, caused, defs).to[j] == was.to[j]
  {
  }

  // ---------------------------------------------------------------- what is asked for

  datatype Plan = Idle | Ask(swap: bool, moving: ItemStack)

  /** A swap is wanted when nothing at all fits; it always concerns the whole stack. */
  function Planned(s: ItemStack, d: ItemStack, count: nat, caused: bool, defs: ItemDefs): Plan {
    var asked := Asked(s, count);
    if asked.Empty() then Idle else
    var (fits, rest) := d.ItemFits(asked, defs);
    if rest.count > asked.count then Idle
    else if caused && asked.count - rest.count == 0 then Idle
    else if !fits && rest.count == asked.count then Ask(true, s)
    else Ask(false, asked.(count := asked.count - rest.count))
  }

  function Answered(sameInv: bool, dir: Direction, cb: Callbacks, plan: Plan, dst: ItemStack): Answers
    requires plan.Ask?
  {
    if sameInv then AskSame(dir, cb, plan.swap, plan.moving, dst) else AskBoth(dir, cb, plan.swap, plan.moving, dst)
  }

  function Allowed(plan: Plan, answers: Answers): int
    requires plan.Ask?
  {
    Limited(Limited(plan.moving.count, answers.srcCanTake), answers.dstCanPut)
  }

  lemma PlanMeans(s: ItemStack, d: ItemStack, count: nat, caused: bool, defs: ItemDefs)
    requires s.Valid() && d.Valid() && Sane(defs)
    ensures var asked := Asked(s, count);
            match Planned(s, d, count, caused, defs)
            case Idle => s.Empty() || (caused && d.Accepts(asked, defs) == 0)
            case Ask(swap, moving) =>
              && !s.Empty() && 0 < moving.count <= s.count
              && (swap <==> d.Accepts(asked, defs) == 0) && (swap ==> !caused && moving == s && !d.Empty())
              && (!swap ==> moving.count == d.Accepts(asked, defs))
  {
    FitsPredictsAdd(d, Asked(s, count), defs);
    AddItemConserves(d, Asked(s, count), defs);
  }

  /** The assertion `allow_swap == did_swap` of the program: the move swaps exactly when the swap was
      both wanted and allowed, even if an answer cuts the amount down. */
  lemma SwapsAsAllowed(s: ItemStack, d: ItemStack, count: nat, caused: bool, sameInv: bool, dir: Direction,
                       cb: Callbacks, defs: ItemDefs)
    requires s.Valid() && d.Valid() && Sane(defs) && AtLeast(cb, INFINITE)
    requires Planned(s, d, count, caused, defs).Ask?
    ensures var plan := Planned(s, d, count, caused, defs);
            var answers := Answered(sameInv, dir, cb, plan, d);
            && 0 <= Allowed(plan, answers) <= plan.moving.count
            && answers.srcCanTake >= INFINITE && answers.dstCanPut >= INFINITE
            && (AtLeast(cb, 0) ==> answers.srcCanTake >= 0 && answers.dstCanPut >= 0)
            && (Allowed(plan, answers) > 0 ==>
                  answers.swap == plan.swap == Move(s, d, Allowed(plan, answers), answers.swap, defs).swapped)
  {
    PlanMeans(s, d, count, caused, defs);
    var plan := Planned(s, d, count, caused, defs);
    var answers := Answered(sameInv, dir, cb, plan, d);
    MoveConserves(s, d, Allowed(plan, answers), answers.swap, defs);
    hide Move, Planned;
    if plan.swap && 0 < Allowed(plan, answers) <= s.count {
      AcceptsNothing(s, d, count, Allowed(plan, answers), defs);
    }
  }

  lemma AcceptsNothing(s: ItemStack, d: ItemStack, count: nat, n: nat, defs: ItemDefs)
    requires d.Accepts(Asked(s, count), defs) == 0 && !s.Empty() && 0 < n <= s.count
    ensures d.Accepts(if n >= s.count then s else s.(count := n), defs) == 0
  {
  }

  /** The state of both lists after applying the action to two valid, different slots. */
  function Outcome(was: Lists, i: int, j: int, count: nat, caused: bool, sameInv: bool, dir: Direction, cb: Callbacks,
                   defs: ItemDefs): Lists
    requires was.Ok(i, j) && AtLeast(cb, INFINITE)
  {
    var plan := Planned(was.from[i], was.to[j], count, caused, defs);
    if plan.Idle? then was else
    var answers := Answered(sameInv, dir, cb, plan, was.to[j]);
    var n := Allowed(plan, answers);
    if n <= 0 then was else Applied(was, i, j, n, answers, caused, defs)
  }

  /** The main conservation result: non-negative answers never change how many items of a kind exist. */
  lemma OutcomeConserves(was: Lists, i: int, j: int, count: nat, caused: bool, sameInv: bool, dir: Direction,
                         cb: Callbacks, defs: ItemDefs, k: Kind)
    requires was.Ok(i, j) && AllValid(was.from) && AllValid(was.to) && Sane(defs) && AtLeast(cb, 0)
    ensures Outcome(was, i, j, count, caused, sameInv, dir, cb, defs).Total(k) == was.Total(k)
  {
    var plan := Planned(was.from[i], was.to[j], count, caused, defs);
    if plan.Ask? {
      SwapsAsAllowed(was.from[i], was.to[j], count, caused, sameInv, dir, cb, defs);
      var answers := Answered(sameInv, dir, cb, plan, was.to[j]);
      var n := Allowed(plan, answers);
      if n > 0 {
        FiniteMoveConserves(was, i, j, n, answers, caused, defs, k);
      }
    }
  }

  /** What the action reports as moved: nothing new if it returns before it has asked anyone. */
  ghost function MoveCountAfter(was: Lists, i: int, j: int, count: nat, caused: bool, sameInv: bool, dir: Direction,
                                cb: Callbacks, defs: ItemDefs, before: int): int
    requires AtLeast(cb, INFINITE)
  {
    if !was.Ok(i, j) then before else
    var plan := Planned(was.from[i], was.to[j], count, caused, defs);
    if plan.Idle? then (if was.from[i].Empty() then before else 0) else
    var answers := Answered(sameInv, dir, cb, plan, was.to[j]);
    var n := Allowed(plan, answers);
    if n <= 0 then 0 else MovedBetween(was.from, i, was.to, j, was.same, n, answers.swap, defs).2.count
  }

  /** The callbacks that are asked about this move, with these answers. */
  predicate Answering(was: Lists, i: int, j: int, count: nat, caused: bool, sameInv: bool, dir: Direction,
                      cb: Callbacks, defs: ItemDefs, answers: Answers)
    requires was.Ok(i, j)
  {
    var plan := Planned(was.from[i], was.to[j], count, caused, defs);
    plan.Ask? && Answered(sameInv, dir, cb, plan, was.to[j]) == answers
  }

  /** If only the source is infinite, the action leaves its stack as it was. */
  lemma InfiniteSourceKept(was: Lists, i: int, j: int, count: nat, caused: bool, sameInv: bool, dir: Direction,
                           cb: Callbacks, defs: ItemDefs, answers: Answers)
    requires was.Ok(i, j) && AllValid(was.from) && AllValid(was.to) && Sane(defs) && AtLeast(cb, INFINITE)
    requires Answering(was, i, j, count, caused, sameInv, dir, cb, defs, answers)
    requires answers.srcCanTake == INFINITE && answers.dstCanPut != INFINITE
    ensures Outcome(was, i, j, count, caused, sameInv, dir, cb, defs).from[i] == was.from[i]
  {
    var n := Allowed(Planned(was.from[i], was.to[j], count, caused, defs), answers);
    PlanMeans(was.from[i], was.to[j], count, caused, defs);
    hide Planned, Applied;
    if n > 0 {
      AppliedSourceKept(was, i, j, n, answers, caused, defs);
    }
  }

  /** If the destination is infinite, the action leaves its stack as it was, whatever the source answers. */
  lemma InfiniteDestinationKept(was: Lists, i: int, j: int, count: nat, caused: bool, sameInv: bool, dir: Direction,
                                cb: Callbacks, defs: ItemDefs, answers: Answers)
    requires was.Ok(i, j) && AtLeast(cb, INFINITE)
    requires Answering(was, i, j, count, caused, sameInv, dir, cb, defs, answers)
    requires answers.dstCanPut == INFINITE
    ensures Outcome(was, i, j, count, caused, sameInv, dir, cb, defs).to[j] == was.to[j]
  {
    var n := Allowed(Planned(was.from[i], was.to[j], count, caused, defs), answers);
    hide Planned, Applied;
    if n > 0 {
      AppliedDestinationKept(was, i, j, n, answers, caused, defs);
    }
  }

  // ---------------------------------------------------------------- moving somewhere

  /** How far a move without a destination slot has come: what is left to move, what the last round reported,
      and whether the assertion on that has held so far. */
  datatype Progress = Progress(lists: Lists, count: nat, moveCount: int, ok: bool)

  /** What stays the same throughout. */
  datatype Setting = Setting(dir: Direction, cb: Callbacks, defs: ItemDefs) {
    function To(j: int): Direction {
      dir.(to := dir.to.(index := j))
    }

    function SameInv(): bool {
      dir.from.inv.Same(dir.to.inv)
    }
  }

  /** The lists after trying slot `j`. */
  ghost function ListsAfter(p: Progress, j: int, on: Setting): Lists
    requires AtLeast(on.cb, INFINITE)
  {
    if p.lists.Ok(on.dir.from.index, j)
    then Outcome(p.lists, on.dir.from.index, j, p.count, true, on.SameInv(), on.To(j), on.cb, on.defs)
    else p.lists
  }

  /** One round: the action is applied to slot `j`, and what it reports is subtracted. */
  ghost function Round(p: Progress, j: int, on: Setting): Progress
    requires AtLeast(on.cb, INFINITE)
  {
    var moved := MoveCountAfter(p.lists, on.dir.from.index, j, p.count, true, on.SameInv(), on.To(j), on.cb, on.defs,
                                p.moveCount);
    var lists := ListsAfter(p, j, on);
    if moved > p.count || moved < 0 then Progress(lists, p.count, moved, false)
    else Progress(lists, p.count - moved, moved, true)
  }

  lemma AppliedSizes(was: Lists, i: int, j: int, n: nat, answers: Answers, caused: bool, defs: ItemDefs)
    requires was.Ok(i, j)
    ensures var r := Applied(was, i, j, n, answers, caused, defs);
      |r.from| == |was.from| && |r.to| == |was.to| && r.same == was.same && (r.same ==> r.from == r.to)
  {
    hide Move, ItemStack.TakeItem;
  }

  lemma RoundSizes(p: Progress, j: int, on: Setting)
    requires AtLeast(on.cb, INFINITE)
    ensures var r := Round(p, j, on);
      && |r.lists.from| == |p.lists.from| && |r.lists.to| == |p.lists.to| && r.lists.same == p.lists.same
      && ((p.lists.same ==> p.lists.from == p.lists.to) ==> (r.lists.same ==> r.lists.from == r.lists.to))
  {
    var i := on.dir.from.index;
    if p.lists.Ok(i, j) {
      var plan := Planned(p.lists.from[i], p.lists.to[j], p.count, true, on.defs);
      if plan.Ask? {
        var answers := Answered(on.SameInv(), on.To(j), on.cb, plan, p.lists.to[j]);
        var n := Allowed(plan, answers);
        if n > 0 {
          AppliedSizes(p.lists, i, j, n, answers, true, on.defs);
        }
      }
    }
    hide MoveCountAfter, Planned, Applied;
  }

  /** One of the two loops: from slot `j` on, all slots that are empty, or all that are not. */
  ghost function Pass(p: Progress, j: nat, empties: bool, on: Setting): Progress
    requires AtLeast(on.cb, INFINITE)
    decreases |p.lists.to| - j
  {
    if j >= |p.lists.to| || p.count == 0 || !p.ok then p
    else if p.lists.to[j].Empty() != empties then Pass(p, j + 1, empties, on)
    else
      RoundSizes(p, j, on);
      Pass(Round(p, j, on), j + 1, empties, on)
  }

  /** First all non-empty slots, then all empty ones. */
  ghost function Somewhere(p: Progress, on: Setting): Progress
    requires AtLeast(on.cb, INFINITE)
  {
    Pass(Pass(p, 0, false, on), 0, true, on)
  }

  ghost predicate Healthy(l: Lists, defs: ItemDefs) {
    AllValid(l.from) && AllValid(l.to) && Sane(defs) && (l.same ==> l.from == l.to)
  }

  /** Without a swap, a round takes from the source what it reports, unless the source is infinite. */
  lemma AppliedSomewhere(was: Lists, i: int, j: int, n: nat, answers: Answers, defs: ItemDefs)
    requires was.Ok(i, j) && Healthy(was, defs) && 0 < n <= was.from[i].count && !answers.swap
    ensures var r, moved := Applied(was, i, j, n, answers, true, defs),
                            MovedBetween(was.from, i, was.to, j, was.same, n, answers.swap, defs).2.count;
      && Healthy(r, defs) && moved <= n
      && |r.from| == |was.from| && |r.to| == |was.to| && r.same == was.same
      && was.from[i].count - moved <= r.from[i].count <= was.from[i].count
      && (answers.srcCanTake >= 0 ==> r.from[i].count == was.from[i].count - moved)
  {
    MoveConserves(was.from[i], was.to[j], n, false, defs);
    MovedIsAccepted(was.from[i], was.to[j], n, defs);
    hide Move, ItemStack.TakeItem, ItemStack.Valid;
  }

  lemma MovedIsAccepted(s: ItemStack, d: ItemStack, n: nat, defs: ItemDefs)
    requires 0 < n <= s.count
    ensures d.Accepts(if n == 0 || n >= s.count then s else s.(count := n), defs) <= n
  {
  }

  /** A round with something to move: the assertion holds, and with finite answers nothing is lost. */
  lemma RoundMoves(p: Progress, j: int, on: Setting)
    requires AtLeast(on.cb, INFINITE) && Healthy(p.lists, on.defs) && p.ok && p.count > 0
    requires var i := on.dir.from.index; p.lists.Ok(i, j) && !p.lists.from[i].Empty()
    ensures var i, r := on.dir.from.index, Round(p, j, on);
      && r.ok && 0 <= r.moveCount && r.count == p.count - r.moveCount && Healthy(r.lists, on.defs)
      && |r.lists.from| == |p.lists.from|
      && r.moveCount <= p.lists.from[i].count
      && p.lists.from[i].count - r.moveCount <= r.lists.from[i].count <= p.lists.from[i].count
      && (AtLeast(on.cb, 0) ==> r.lists.from[i].count == p.lists.from[i].count - r.moveCount)
  {
    var i := on.dir.from.index;
    var s, d := p.lists.from[i], p.lists.to[j];
    PlanMeans(s, d, p.count, true, on.defs);
    var plan := Planned(s, d, p.count, true, on.defs);
    hide Planned, Applied, Answered, Move;
    if plan.Ask? {
      SwapsAsAllowed(s, d, p.count, true, on.SameInv(), on.To(j), on.cb, on.defs);
      var answers := Answered(on.SameInv(), on.To(j), on.cb, plan, d);
      var n := Allowed(plan, answers);
      PlannedWithin(s, d, p.count, on.defs);
      if n > 0 {
        AppliedSomewhere(p.lists, i, j, n, answers, on.defs);
      }
    }
  }

  lemma PlannedWithin(s: ItemStack, d: ItemStack, count: nat, defs: ItemDefs)
    requires s.Valid() && d.Valid() && Sane(defs) && count > 0
    ensures var plan := Planned(s, d, count, true, defs); plan.Ask? ==> !plan.swap && plan.moving.count <= count
  {
    PlanMeans(s, d, count, true, defs);
    hide ItemStack.Valid;
  }

  /** A round keeps both lists healthy and, with finite answers, conserves every kind. */
  lemma RoundConserves(p: Progress, j: int, on: Setting, k: Kind)
    requires AtLeast(on.cb, INFINITE) && Healthy(p.lists, on.defs) && p.ok && p.count > 0
    ensures Healthy(Round(p, j, on).lists, on.defs)
    ensures AtLeast(on.cb, 0) ==> Round(p, j, on).lists.Total(k) == p.lists.Total(k)
  {
    var i := on.dir.from.index;
    if p.lists.Ok(i, j) {
      if p.lists.from[i].Empty() {
        NothingAsked(p, j, on);
      } else {
        RoundMoves(p, j, on);
      }
      hide Outcome, MoveCountAfter;
      if AtLeast(on.cb, 0) {
        OutcomeConserves(p.lists, i, j, p.count, true, on.SameInv(), on.To(j), on.cb, on.defs, k);
      }
    }
    hide Outcome, MoveCountAfter;
  }

  /** After a round that returns early: what the round before it has reported is subtracted again. */
  ghost function Stale(p: Progress): Progress {
    if 0 <= p.moveCount <= p.count then p.(count := p.count - p.moveCount, ok := true) else p.(ok := false)
  }

  /** From an empty source, or to the slot of the source, a round moves nothing. */
  lemma NothingAsked(p: Progress, j: int, on: Setting)
    requires AtLeast(on.cb, INFINITE)
    requires p.lists.Ok(on.dir.from.index, j) ==> p.lists.from[on.dir.from.index].Empty()
    ensures Round(p, j, on) == Stale(p)
  {
  }

  lemma {:induction false} PassConserves(p: Progress, j: nat, empties: bool, on: Setting, k: Kind)
    requires AtLeast(on.cb, INFINITE) && Healthy(p.lists, on.defs)
    ensures Healthy(Pass(p, j, empties, on).lists, on.defs)
    ensures AtLeast(on.cb, 0) ==> Pass(p, j, empties, on).lists.Total(k) == p.lists.Total(k)
    decreases |p.lists.to| - j
  {
    hide Round, Healthy;
    if j < |p.lists.to| && p.count > 0 && p.ok {
      if p.lists.to[j].Empty() != empties {
        PassConserves(p, j + 1, empties, on, k);
      } else {
        RoundSizes(p, j, on);
        RoundConserves(p, j, on, k);
        PassConserves(Round(p, j, on), j + 1, empties, on, k);
      }
    }
  }

  /** Moving somewhere conserves every kind with finite answers, however far it gets. */
  lemma SomewhereConserves(p: Progress, on: Setting, k: Kind)
    requires AtLeast(on.cb, 0) && Healthy(p.lists, on.defs)
    ensures Healthy(Somewhere(p, on).lists, on.defs)
    ensures Somewhere(p, on).lists.Total(k) == p.lists.Total(k)
  {
    PassConserves(p, 0, false, on, k);
    PassConserves(Pass(p, 0, false, on), 0, true, on, k);
    hide Pass;
  }

  class IMoveAction {
    var dir: Direction
    var count: nat
    var moveCount: int
    var causedByMoveSomewhere: bool

    constructor (dir: Direction, count: nat)
      ensures this.dir == dir && this.count == count && moveCount == 0 && !causedByMoveSomewhere
    {
      this.dir, this.count, moveCount, causedByMoveSomewhere := dir, count, 0, false;
    }

    method SwapDirections()
      modifies this`dir
      ensures dir == old(dir).Swapped()
    {
      dir := Direction(dir.to, dir.from);
    }

    /** Which stack to ask the callbacks about, and whether to swap. */
    method MakePlan(s: ItemStack, d: ItemStack, defs: ItemDefs) returns (plan: Plan)
      requires s.Valid() && d.Valid() && Sane(defs)
      modifies this`moveCount
      ensures plan == Planned(s, d, count, causedByMoveSomewhere, defs)
      ensures plan.Ask? ==> moveCount == plan.moving.count && 0 < moveCount <= s.count
      ensures plan.Idle? ==> moveCount == if s.Empty() then old(moveCount) else 0
    {
      PlanMeans(s, d, count, causedByMoveSomewhere, defs);
      var srcItem := s;
      if count > 0 && count < srcItem.count {
        srcItem := srcItem.(count := count);
      }
      if srcItem.Empty() {
        return Idle;
      }
      var (fits, rest) := d.ItemFits(srcItem, defs);
      AddItemConserves(d, srcItem, defs);
      FitsPredictsAdd(d, srcItem, defs);
      var allowSwap := !fits && rest.count == srcItem.count && !causedByMoveSomewhere;
      moveCount := srcItem.count - rest.count;
      if causedByMoveSomewhere && moveCount == 0 {
        return Idle;
      }
      if allowSwap {
        srcItem := s;
        moveCount := srcItem.count;
      }
      srcItem := srcItem.(count := moveCount);
      return Ask(allowSwap, srcItem);
    }

    method ApplyLimits(answers: Answers, available: nat)
      modifies this`moveCount
      ensures var limited := Limited(Limited(old(moveCount), answers.srcCanTake), answers.dstCanPut);
              moveCount == if limited > available then available else limited
    {
      if answers.srcCanTake != INFINITE {
        moveCount := if answers.srcCanTake < moveCount then answers.srcCanTake else moveCount;
      }
      if answers.dstCanPut != INFINITE {
        moveCount := if answers.dstCanPut < moveCount then answers.dstCanPut else moveCount;
      }
      if moveCount > available {
        moveCount := available;
      }
    }

    /** Both answers for a move within one inventory. */
    method AskWithin(cb: Callbacks, wantSwap: bool, moving: ItemStack, dst: ItemStack) returns (answers: Answers)
      modifies this`dir
      ensures dir == old(dir)
      ensures answers == AskSame(dir, cb, wantSwap, moving, dst)
    {
      var take := cb.allowMove(dir, moving.count);
      var put := take;
      var allowSwap := wantSwap && Allows(take, moving.count);
      if allowSwap {
        var tryPutCount := dst.count;
        SwapDirections();
        put := cb.allowMove(dir, tryPutCount);
        allowSwap := allowSwap && Allows(put, tryPutCount);
        SwapDirections();
      }
      if wantSwap != allowSwap {
        take, put := 0, 0;
      }
      return Answers(allowSwap, take, put);
    }

    /** Both answers for a move from one inventory to another. */
    method AskAcross(cb: Callbacks, wantSwap: bool, moving: ItemStack, dst: ItemStack) returns (answers: Answers)
      modifies this`dir
      ensures dir == old(dir)
      ensures answers == AskBoth(dir, cb, wantSwap, moving, dst)
    {
      var put := cb.allowPut(dir, moving);
      var take := cb.allowTake(dir, moving);
      var allowSwap := wantSwap && Allows(take, moving.count) && Allows(put, moving.count);
      if allowSwap {
        SwapDirections();
        var srcCanTake := cb.allowPut(dir, dst);
        var dstCanPut := cb.allowTake(dir, dst);
        allowSwap := allowSwap && Allows(srcCanTake, dst.count) && Allows(dstCanPut, dst.count);
        SwapDirections();
      }
      if wantSwap != allowSwap {
        take, put := 0, 0;
      }
      return Answers(allowSwap, take, put);
    }

    /** Applies a move to direct slots.  `listFrom` and `listTo` are the lists found, and may be one. */
    method Apply(listFrom: InventoryList?, listTo: InventoryList?, cb: Callbacks)
      requires listFrom != null ==> listFrom.Valid()
      requires listTo != null ==> listTo.Valid()
      requires listFrom != null && listTo != null ==> listFrom.defs == listTo.defs
      requires AtLeast(cb, INFINITE)
      modifies this, listFrom, listTo
      ensures dir == old(dir) && count == old(count) && causedByMoveSomewhere == old(causedByMoveSomewhere)
      ensures listFrom != null ==> listFrom.Valid()
      ensures listTo != null ==> listTo.Valid()
      ensures listFrom == null && listTo != null ==> listTo.items == old(listTo.items)
      ensures listFrom != null && listTo == null ==> listFrom.items == old(listFrom.items)
      ensures listFrom != null && listTo != null ==>
                moveCount == MoveCountAfter(old(Lists(listFrom.items, listTo.items, listFrom == listTo)),
                                            dir.from.index, dir.to.index,
                                            count, causedByMoveSomewhere, dir.from.inv.Same(dir.to.inv), dir, cb,
                                            listFrom.defs, old(moveCount))
      ensures listFrom != null && listTo != null ==>
                var was := old(Lists(listFrom.items, listTo.items, listFrom == listTo));
                Lists(listFrom.items, listTo.items, listFrom == listTo)
                == if was.Ok(dir.from.index, dir.to.index)
                   then Outcome(was, dir.from.index, dir.to.index, count, causedByMoveSomewhere,
                                dir.from.inv.Same(dir.to.inv), dir, cb, listFrom.defs)
                   else was
      ensures listFrom != null && (old(listFrom.dirty) || listFrom.items != old(listFrom.items)) ==> listFrom.dirty
      ensures listTo != null && (old(listTo.dirty) || listTo.items != old(listTo.items)) ==> listTo.dirty
    {
      hide Planned, AskSame, AskBoth, Applied, Limited, Sane;
      if listFrom == null || listTo == null {
        return;
      }
      var i, j := dir.from.index, dir.to.index;
      if i < 0 || |listFrom.items| <= i || j < 0 || |listTo.items| <= j {
        return;
      }
      if listFrom == listTo && i == j {
        return;
      }
      var defs := listFrom.defs;
      var plan := MakePlan(listFrom.items[i], listTo.items[j], defs);
      if plan.Idle? {
        return;
      }
      var answers;
      if dir.from.inv.Same(dir.to.inv) {
        answers := AskWithin(cb, plan.swap, plan.moving, listTo.items[j]);
      } else {
        answers := AskAcross(cb, plan.swap, plan.moving, listTo.items[j]);
      }
      SwapsAsAllowed(listFrom.items[i], listTo.items[j], count, causedByMoveSomewhere, dir.from.inv.Same(dir.to.inv),
                     dir, cb, defs);
      ApplyLimits(answers, listFrom.items[i].count);
      if moveCount == 0 {
        if dir.from.inv.Player? {
          listFrom.dirty := true;
        }
        if dir.to.inv.Player? {
          listTo.dirty := true;
        }
        return;
      }
      MoveStacks(listFrom, i, listTo, j, answers);
    }

    /** One round of moving somewhere; the program asserts that it reports no more than is left. */
    method AddTo(j: int, listFrom: InventoryList, listTo: InventoryList, cb: Callbacks) returns (ok: bool)
      requires listFrom.Valid() && listTo.Valid() && listFrom.defs == listTo.defs && AtLeast(cb, INFINITE)
      requires causedByMoveSomewhere
      modifies this, listFrom, listTo
      ensures listFrom.Valid() && listTo.Valid() && causedByMoveSomewhere
      ensures dir == Setting(old(dir), cb, listFrom.defs).To(j)
      ensures var p := old(Progress(Lists(listFrom.items, listTo.items, listFrom == listTo), count, moveCount, true));
              Progress(Lists(listFrom.items, listTo.items, listFrom == listTo), count, moveCount, ok)
              == Round(p, j, Setting(old(dir), cb, listFrom.defs))
      ensures old(listFrom.dirty) || listFrom.items != old(listFrom.items) ==> listFrom.dirty
      ensures old(listTo.dirty) || listTo.items != old(listTo.items) ==> listTo.dirty
    {
      hide Outcome, MoveCountAfter;
      dir := dir.(to := dir.to.(index := j));
      Apply(listFrom, listTo, cb);
      ok := 0 <= moveCount <= count;
      if ok {
        count := count - moveCount;
      }
    }

    /** One of the two loops over the slots of the destination list. */
    method TrySlots(empties: bool, listFrom: InventoryList, listTo: InventoryList, cb: Callbacks) returns (ok: bool)
      requires listFrom.Valid() && listTo.Valid() && listFrom.defs == listTo.defs && AtLeast(cb, INFINITE)
      requires causedByMoveSomewhere
      modifies this, listFrom, listTo
      ensures listFrom.Valid() && listTo.Valid() && causedByMoveSomewhere
      ensures dir.from == old(dir.from) && dir.to == old(dir.to).(index := dir.to.index)
      ensures var p := old(Progress(Lists(listFrom.items, listTo.items, listFrom == listTo), count, moveCount, true));
              Progress(Lists(listFrom.items, listTo.items, listFrom == listTo), count, moveCount, ok)
              == Pass(p, 0, empties, Setting(old(dir), cb, listFrom.defs))
      ensures old(listFrom.dirty) || listFrom.items != old(listFrom.items) ==> listFrom.dirty
      ensures old(listTo.dirty) || listTo.items != old(listTo.items) ==> listTo.dirty
    {
      hide Round;
      ghost var on := Setting(dir, cb, listFrom.defs);
      ghost var was := Progress(Lists(listFrom.items, listTo.items, listFrom == listTo), count, moveCount, true);
      ok := true;
      var j := 0;
      while j < |listTo.items| && count > 0
        invariant 0 <= j && listFrom.Valid() && listTo.Valid() && causedByMoveSomewhere
        invariant dir.from == on.dir.from && dir.to == on.dir.to.(index := dir.to.index)
        invariant Pass(Progress(Lists(listFrom.items, listTo.items, listFrom == listTo), count, moveCount, true), j,
                       empties, on)
               == Pass(was, 0, empties, on)
        invariant old(listFrom.dirty) || listFrom.items != old(listFrom.items) ==> listFrom.dirty
        invariant old(listTo.dirty) || listTo.items != old(listTo.items) ==> listTo.dirty
        decreases |listTo.items| - j
      {
        if listTo.items[j].Empty() == empties {
          ghost var p := Progress(Lists(listFrom.items, listTo.items, listFrom == listTo), count, moveCount, true);
          SameRound(p, j, on, Setting(dir, cb, listFrom.defs));
          RoundSizes(p, j, on);
          ok := AddTo(j, listFrom, listTo, cb);
          if !ok {
            return;
          }
        }
        j := j + 1;
      }
    }

    /** Applies a move without a destination slot; `ok` is false where the assertion of the program fails. */
    method ApplySomewhere(listFrom: InventoryList?, listTo: InventoryList?, cb: Callbacks) returns (ok: bool)
      requires listFrom != null ==> listFrom.Valid()
      requires listTo != null ==> listTo.Valid()
      requires listFrom != null && listTo != null ==> listFrom.defs == listTo.defs
      requires AtLeast(cb, INFINITE)
      modifies this, listFrom, listTo
      ensures ok && listFrom != null && listTo != null ==>
                dir == old(dir) && count == old(count) && !causedByMoveSomewhere
      ensures listFrom != null ==> listFrom.Valid()
      ensures listTo != null ==> listTo.Valid()
      ensures listFrom == null && listTo != null ==> ok && listTo.items == old(listTo.items)
      ensures listFrom != null && listTo == null ==> ok && listFrom.items == old(listFrom.items)
      ensures listFrom != null && listTo != null ==>
                var p := Somewhere(old(Progress(Lists(listFrom.items, listTo.items, listFrom == listTo), count,
                                                moveCount, true)),
                                   Setting(old(dir), cb, listFrom.defs));
                && ok == p.ok && moveCount == p.moveCount
                && Lists(listFrom.items, listTo.items, listFrom == listTo) == p.lists
      ensures listFrom != null && (old(listFrom.dirty) || listFrom.items != old(listFrom.items)) ==> listFrom.dirty
      ensures listTo != null && (old(listTo.dirty) || listTo.items != old(listTo.items)) ==> listTo.dirty
    {
      hide Pass;
      if listFrom == null || listTo == null {
        return true;
      }
      var oldToI, oldCount := dir.to.index, count;
      causedByMoveSomewhere := true;
      ok := TrySlots(false, listFrom, listTo, cb);
      if !ok {
        PassStops(Progress(Lists(listFrom.items, listTo.items, listFrom == listTo), count, moveCount, false),
                  Setting(old(dir), cb, listFrom.defs));
        return;
      }
      SamePass(Progress(Lists(listFrom.items, listTo.items, listFrom == listTo), count, moveCount, true), 0, true,
               Setting(old(dir), cb, listFrom.defs), Setting(dir, cb, listFrom.defs));
      ok := TrySlots(true, listFrom, listTo, cb);
      if !ok {
        return;
      }
      dir, count, causedByMoveSomewhere := dir.(to := dir.to.(index := oldToI)), oldCount, false;
    }

    /** The actual move, and resetting infinite stacks. */
    method MoveStacks(listFrom: InventoryList, i: nat, listTo: InventoryList, j: nat, answers: Answers)
      requires listFrom.Valid() && listTo.Valid() && listFrom.defs == listTo.defs
      requires Lists(listFrom.items, listTo.items, listFrom == listTo).Ok(i, j) && moveCount > 0
      requires answers.swap == Move(listFrom.items[i], listTo.items[j], moveCount, answers.swap, listFrom.defs).swapped
      modifies this`moveCount, listFrom, listTo
      ensures listFrom.Valid() && listTo.Valid()
      ensures Lists(listFrom.items, listTo.items, listFrom == listTo)
           == old(Applied(Lists(listFrom.items, listTo.items, listFrom == listTo), i, j, moveCount, answers,
                          causedByMoveSomewhere, listFrom.defs))
      ensures moveCount == old(MovedBetween(listFrom.items, i, listTo.items, j, listFrom == listTo, moveCount,
                                            answers.swap, listFrom.defs)).2.count
      ensures old(listFrom.dirty) ==> listFrom.dirty
      ensures old(listTo.dirty) ==> listTo.dirty
      ensures listFrom.items != old(listFrom.items) ==> listFrom.dirty
      ensures listTo.items != old(listTo.items) ==> listTo.dirty
    {
      hide Move;
      var fromStackWas, toStackWas := listFrom.items[i], listTo.items[j];
      MoveConserves(fromStackWas, toStackWas, moveCount, answers.swap, listFrom.defs);
      var srcItem, didSwap := listFrom.MoveItem(i, listTo, j, moveCount, answers.swap);
      moveCount := srcItem.count;
      assert answers.swap == didSwap;  // asserted by the program as well
      if answers.srcCanTake == INFINITE {
        ResetInfiniteSource(listFrom, i, listTo, fromStackWas, toStackWas, didSwap);
      }
      if answers.dstCanPut == INFINITE {
        ResetInfiniteDestination(listFrom, i, listTo, j, fromStackWas, toStackWas, didSwap);
      }
    }

    method ResetInfiniteSource(listFrom: InventoryList, i: nat, listTo: InventoryList,
                               fromStackWas: ItemStack, toStackWas: ItemStack, didSwap: bool)
      requires listFrom.Valid() && listTo.Valid() && i < |listFrom.items| && moveCount >= 0
      requires fromStackWas.Valid() && toStackWas.Valid()
      modifies listFrom, listTo
      ensures listFrom.Valid() && listTo.Valid()
      ensures Lists(listFrom.items, listTo.items, listFrom == listTo)
           == old(ResetSource(Lists(listFrom.items, listTo.items, listFrom == listTo), i, fromStackWas, toStackWas,
                              causedByMoveSomewhere, moveCount, didSwap))
      ensures old(listFrom.dirty) || listFrom.items != old(listFrom.items) ==> listFrom.dirty
      ensures old(listTo.dirty) || listTo.items != old(listTo.items) ==> listTo.dirty
    {
      if !causedByMoveSomewhere {
        if fromStackWas.name != toStackWas.name {
          SpillInto(listTo, toStackWas);
        }
      }
      if moveCount > 0 || didSwap {
        var _ := listFrom.ChangeItem(i, fromStackWas);
      }
    }

    method ResetInfiniteDestination(listFrom: InventoryList, i: nat, listTo: InventoryList, j: nat,
                                    fromStackWas: ItemStack, toStackWas: ItemStack, didSwap: bool)
      requires listFrom.Valid() && listTo.Valid() && i < |listFrom.items| && j < |listTo.items| && moveCount >= 0
      requires fromStackWas.Valid() && toStackWas.Valid()
      modifies listFrom, listTo
      ensures listFrom.Valid() && listTo.Valid()
      ensures Lists(listFrom.items, listTo.items, listFrom == listTo)
           == old(ResetDestination(Lists(listFrom.items, listTo.items, listFrom == listTo), i, j, fromStackWas,
                                   toStackWas, moveCount, didSwap))
      ensures old(listFrom.dirty) || listFrom.items != old(listFrom.items) ==> listFrom.dirty
      ensures old(listTo.dirty) || listTo.items != old(listTo.items) ==> listTo.dirty
    {
      var _ := listTo.ChangeItem(j, toStackWas);
      if didSwap {
        var _ := listFrom.ChangeItem(i, fromStackWas);
        var _ := listFrom.TakeItem(i, moveCount);
      }
    }
  }

  /** The index of the destination in the setting does not matter: every round sets its own. */
  lemma SameRound(p: Progress, j: int, on: Setting, on': Setting)
    requires AtLeast(on.cb, INFINITE) && on'.cb == on.cb && on'.defs == on.defs
    requires on'.dir.from == on.dir.from && on'.dir.to == on.dir.to.(index := on'.dir.to.index)
    ensures Round(p, j, on') == Round(p, j, on)
  {
    assert on'.To(j) == on.To(j);
    hide Outcome, MoveCountAfter;
  }

  lemma {:induction false} SamePass(p: Progress, j: nat, empties: bool, on: Setting, on': Setting)
    requires AtLeast(on.cb, INFINITE) && on'.cb == on.cb && on'.defs == on.defs
    requires on'.dir.from == on.dir.from && on'.dir.to == on.dir.to.(index := on'.dir.to.index)
    ensures Pass(p, j, empties, on') == Pass(p, j, empties, on)
    decreases |p.lists.to| - j
  {
    hide Round;
    if j < |p.lists.to| && p.count > 0 && p.ok {
      if p.lists.to[j].Empty() != empties {
        SamePass(p, j + 1, empties, on, on');
      } else {
        SameRound(p, j, on, on');
        RoundSizes(p, j, on);
        SamePass(Round(p, j, on), j + 1, empties, on, on');
      }
    }
  }

  /** Nothing happens after the assertion has failed. */
  lemma PassStops(p: Progress, on: Setting)
    requires AtLeast(on.cb, INFINITE) && !p.ok
    ensures Pass(p, 0, true, on) == p
  {
  }

  method SpillInto(list: InventoryList, x: ItemStack)
    requires list.Valid() && x.Valid()
    modifies list`items, list`dirty
    ensures list.Valid() && list.items == InFirstEmpty(old(list.items), x)
    ensures list.items != old(list.items) ==> list.dirty
    ensures old(list.dirty) ==> list.dirty
  {
    ghost var was := list.items;
    hide InFirstEmpty;
    SpillEnds(was, x);
    for i := 0 to |list.items|
      invariant list.items == was && list.dirty == old(list.dirty)
      invariant InFirstEmpty(was, x) == was[..i] + InFirstEmpty(was[i..], x)
    {
      SpillStep(was, x, i);
      if list.items[i].Empty() {
        var _ := list.ChangeItem(i, x);
        return;
      }
    }
  }

  lemma SpillStep(slots: seq<ItemStack>, x: ItemStack, i: nat)
    requires i < |slots|
    ensures slots[..i] + InFirstEmpty(slots[i..], x)
         == if slots[i].Empty() then slots[i := x] else slots[..i + 1] + InFirstEmpty(slots[i + 1..], x)
  {
    assert slots[i..][1..] == slots[i + 1..];
    assert slots[i := x] == slots[..i] + ([x] + slots[i + 1..]);
  }

  lemma SpillEnds(slots: seq<ItemStack>, x: ItemStack)
    ensures slots[..0] + InFirstEmpty(slots[0..], x) == InFirstEmpty(slots, x)
    ensures slots[..|slots|] + InFirstEmpty(slots[|slots|..], x) == slots
  {
    assert slots[0..] == slots;
  }
}
