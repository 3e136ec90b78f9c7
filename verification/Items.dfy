/**
 Item stacks (src/inventory.h, struct ItemStack; src/inventory.cpp, ItemStack::addItem, itemFits, takeItem).
 Stacks are values; an operation on a stack returns its new value.  Metadata is one opaque string.
 */
module Items {

  const U16_MAX: nat := 0xFFFF

  /** What stacking asks of the item definitions: the maximum size of a stack (16 bits). */
  datatype ItemDefs = ItemDefs(stackMax: string -> int)

  datatype ItemStack = ItemStack(name: string, count: nat, wear: nat, meta: string) {
    predicate Empty() {
      count == 0
    }

    /** What the constructors and `clear` maintain: a 16-bit count, and nothing left of an empty stack. */
    ghost predicate Valid() {
      count <= U16_MAX && (count == 0 <==> name == "") && (count == 0 ==> this == NOTHING)
    }

    /** How many items of one kind are in this stack. */
    function Of(k: Kind): nat {
      if name == k.name && meta == k.meta then count else 0
    }

    function Stacks(other: ItemStack): bool {
      name == other.name && meta == other.meta
    }

    function Add(n: nat): ItemStack {
      this.(count := count + n)
    }

    function Remove(n: nat): (r: ItemStack)
      requires n <= count
    {
      if n == count then NOTHING else this.(count := count - n)
    }

    function FreeSpace(defs: ItemDefs): (n: nat)
      ensures count + n <= count || count + n == defs.stackMax(name)
    {
      var max := defs.stackMax(name);
      if count >= max then 0 else max - count
    }

    /** The part of `newItem` that this stack takes. */
    function Accepts(newItem: ItemStack, defs: ItemDefs): (n: nat)
      ensures n <= newItem.count
    {
      if Empty() then newItem.count
      else if !Stacks(newItem) then 0
      else if newItem.count <= FreeSpace(defs) then newItem.count
      else FreeSpace(defs)
    }

    /** ItemStack::addItem: the new stack and what is left over. */
    function AddItem(newItem: ItemStack, defs: ItemDefs): (ItemStack, ItemStack) {
      if newItem.Empty() then (this, newItem)
      else if Empty() then (newItem, NOTHING)
      else if !Stacks(newItem) then (this, newItem)
      else if newItem.count <= FreeSpace(defs) then (Add(newItem.count), NOTHING)
      else (Add(FreeSpace(defs)), newItem.Remove(FreeSpace(defs)))
    }

    /** ItemStack::itemFits: whether all fits, and the rest. */
    function ItemFits(newItem: ItemStack, defs: ItemDefs): (bool, ItemStack) {
      var rest :=
        if newItem.Empty() then newItem
        else if Empty() then NOTHING
        else if !Stacks(newItem) then newItem
        else if newItem.count <= FreeSpace(defs) then NOTHING
        else newItem.Remove(FreeSpace(defs));
      (rest.Empty(), rest)
    }

    /** ItemStack::takeItem: the remaining stack and what was taken. */
    function TakeItem(n: nat): (ItemStack, ItemStack) {
      if n == 0 || count == 0 then (this, NOTHING)
      else if n >= count then (NOTHING, this)
      else (Remove(n), this.(count := n))
    }
  }

  const NOTHING := ItemStack("", 0, 0, "")

  /** Items count as the same when name and metadata agree. */
  datatype Kind = Kind(name: string, meta: string)

  ghost predicate Sane(defs: ItemDefs) {
    forall name: string :: defs.stackMax(name) <= U16_MAX
  }

  /** Adding moves items between the stacks and invents or loses none; nothing exceeds 16 bits. */
  lemma AddItemConserves(s: ItemStack, x: ItemStack, defs: ItemDefs)
    requires s.Valid() && x.Valid() && Sane(defs)
    ensures var (s', rest) := s.AddItem(x, defs);
            && s'.Valid() && rest.Valid()
            && rest.count == x.count - s.Accepts(x, defs)
            && (!rest.Empty() ==> rest.Stacks(x) && rest.wear == x.wear)
            && (rest == x ==> s' == s)
            && (forall k :: s'.Of(k) + rest.Of(k) == s.Of(k) + x.Of(k))
  {
  }

  lemma TakeItemConserves(s: ItemStack, n: nat)
    requires s.Valid()
    ensures var (s', taken) := s.TakeItem(n);
            && s'.Valid() && taken.Valid()
            && taken.count == (if n < s.count then n else s.count)
            && (taken.Empty() ==> s' == s)
            && (forall k :: s'.Of(k) + taken.Of(k) == s.Of(k))
  {
  }

  /** A stack put into an empty slot arrives as it is, with its wear; on top of another stack, only the number
      changes, and what is left over or taken is otherwise like the stack it comes from. */
  lemma OnlyCountsChange(s: ItemStack, x: ItemStack, n: nat, defs: ItemDefs)
    requires s.Valid() && x.Valid() && Sane(defs)
    ensures var (s', rest) := s.AddItem(x, defs);
            && (s.Empty() ==> s' == x && rest == NOTHING)
            && (!s.Empty() ==> s'.count >= s.count && s' == s.(count := s'.count))
            && (!rest.Empty() ==> rest == x.(count := rest.count))
    ensures var (s', taken) := s.TakeItem(n);
            && (s' == NOTHING || s' == s.(count := s'.count))
            && (taken == NOTHING || taken == s.(count := taken.count))
  {
  }

  /** A stack is filled up to the maximum of its item, but not beyond, before anything is left over; items of another
      kind stay outside. */
  lemma AddFillsUp(s: ItemStack, x: ItemStack, defs: ItemDefs)
    requires s.Valid() && x.Valid() && Sane(defs) && !s.Empty()
    ensures var (s', rest) := s.AddItem(x, defs);
      if s.name != x.name || s.meta != x.meta then s' == s && rest == x
      else
        && (s'.count != s.count ==> s'.count <= defs.stackMax(s.name))
        && (!rest.Empty() ==> s'.count >= defs.stackMax(s.name))
  {
  }

  /** The query predicts the mutator. */
  lemma FitsPredictsAdd(s: ItemStack, x: ItemStack, defs: ItemDefs)
    ensures s.ItemFits(x, defs) == (s.AddItem(x, defs).1.Empty(), s.AddItem(x, defs).1)
  {
  }
}
