/**
 Crafting definitions, when they apply, and how they are hashed (src/craftdef.h, src/craftdef.cpp).
 */
module CraftDefs {
  import opened Wrappers
  import opened Items
  import opened ItemNames
  import opened Pairing
  import opened Shaped
  import opened Translation
  import Shapeless
  import Matching

  datatype CraftMethod = NormalCraft | CookingCraft | FuelCraft

  datatype CraftInput = CraftInput(kind: CraftMethod, width: nat, items: seq<ItemStack>) {
    predicate Empty() {
      forall i :: 0 <= i < |items| ==> items[i].Empty()
    }

    function Names(): (r: seq<string>)
      ensures |r| == |items|
    {
      seq(|items|, i requires 0 <= i < |items| => items[i].name)
    }
  }

  datatype CraftOutput = CraftOutput(item: string, time: real)

  datatype Recipe =
    | ShapedRecipe(output: string, width: nat, cells: seq<string>)
    | ShapelessRecipe(output: string, slots: seq<string>)
    | ToolRepair(additionalWear: real)
    | Cooking(output: string, item: string, cooktime: real)
    | Fuel(item: string, burntime: real)

  const PRIORITY_NO_RECIPE := 0
  const PRIORITY_TOOLREPAIR := 1
  const PRIORITY_SHAPELESS_AND_GROUPS := 2
  const PRIORITY_SHAPELESS := 3
  const PRIORITY_SHAPED_AND_GROUPS := 4
  const PRIORITY_SHAPED := 5

  const HASH_ITEM_NAMES: nat := 0
  const HASH_COUNT: nat := 1
  const HASH_UNHASHED: nat := 2

  /** A definition; `names` caches the item names of the recipe once the hash is initialized. */
  datatype CraftDef = CraftDef(recipe: Recipe, names: Option<seq<string>>) {

    /** Set by the constructors from the raw itemstrings.  The fuel constructor looks at the item
        name before it is known (src/craftdef.cpp:946), so fuel never counts as using groups. */
    function Priority(): (p: int)
      ensures p > PRIORITY_NO_RECIPE
    {
      match recipe
      case ShapedRecipe(_, _, cells) => if HasGroup(cells) then PRIORITY_SHAPED_AND_GROUPS else PRIORITY_SHAPED
      case ShapelessRecipe(_, slots) => if HasGroup(slots) then PRIORITY_SHAPELESS_AND_GROUPS else PRIORITY_SHAPELESS
      case ToolRepair(_) => PRIORITY_TOOLREPAIR
      case Cooking(_, item, _) => if IsGroup(item) then PRIORITY_SHAPELESS_AND_GROUPS else PRIORITY_SHAPELESS
      case Fuel(_, _) => PRIORITY_SHAPELESS
    }

    function ComputedNames(gd: GameDef): seq<string> {
      match recipe
      case ShapedRecipe(_, _, cells) => ItemNamesOf(cells, gd)
      case ShapelessRecipe(_, slots) => Sort(ItemNamesOf(slots, gd))
      case ToolRepair(_) => []
      case Cooking(_, item, _) => [gd.itemName(item)]
      case Fuel(item, _) => [gd.itemName(item)]
    }

    function SlotNames(gd: GameDef): seq<string> {
      if names.Some? then names.value else ComputedNames(gd)
    }

    /** The cached names, if any, are those of the current game definition. */
    ghost predicate Consistent(gd: GameDef) {
      names.Some? ==> names.value == ComputedNames(gd)
    }

    function InitHash(gd: GameDef): CraftDef {
      if names.Some? then this else this.(names := Some(ComputedNames(gd)))
    }

    function HashType(): (t: nat)
      requires names.Some?
      ensures t < HASH_UNHASHED
    {
      if recipe.ToolRepair? || HasGroup(names.value) then HASH_COUNT else HASH_ITEM_NAMES
    }

    function Hash(gd: GameDef): int
      requires names.Some? && ((recipe.Cooking? || recipe.Fuel?) ==> |names.value| == 1)
    {
      match recipe
      case ShapedRecipe(_, _, _) => GridHash(HashType(), Sort(names.value), gd)
      case ShapelessRecipe(_, _) => GridHash(HashType(), names.value, gd)
      case ToolRepair(_) => 2
      case Cooking(_, _, _) => if HashType() == HASH_ITEM_NAMES then gd.stringHash(names.value[0]) else 1
      case Fuel(_, _) => if HashType() == HASH_ITEM_NAMES then gd.stringHash(names.value[0]) else 1
    }

    /** When the recipe matches the input. */
    ghost predicate Applies(input: CraftInput, gd: GameDef) {
      match recipe
      case ShapedRecipe(_, width, _) =>
        input.kind == NormalCraft && SamePattern(input.Names(), input.width, SlotNames(gd), width, gd)
      case ShapelessRecipe(_, _) =>
        && input.kind == NormalCraft
        && Fits(NonEmpty(input.Names()), SlotNames(gd), gd)
        && |Shapeless.GroupSlots(SlotNames(gd))| <= Matching.SHAPELESS_GROUPS_MAX
      case ToolRepair(wear) =>
        var items := Occupied(input.items);
        input.kind == NormalCraft && |items| == 2 && !Repaired(items[0], items[1], wear, gd).Empty()
      case Cooking(_, item, _) =>
        input.kind == CookingCraft && AppliesToOne(input, item, gd)
      case Fuel(item, _) =>
        input.kind == FuelCraft && AppliesToOne(input, item, gd)
    }

    function Output(input: CraftInput, gd: GameDef): CraftOutput {
      match recipe
      case ShapedRecipe(output, _, _) => CraftOutput(output, 0.0)
      case ShapelessRecipe(output, _) => CraftOutput(output, 0.0)
      case ToolRepair(wear) =>
        var items := Occupied(input.items);
        var item1 := if |items| > 0 then items[0] else NOTHING;
        var item2 := if |items| > 1 then items[1] else NOTHING;
        CraftOutput(gd.itemString(Repaired(item1, item2, wear, gd)), 0.0)
      case Cooking(output, _, time) => CraftOutput(output, time)
      case Fuel(_, time) => CraftOutput("", time)
    }

    predicate KnownOutput(input: CraftInput, gd: GameDef) {
      gd.isKnown(gd.itemName(Output(input, gd).item))
    }

    /** Whether the search may pick this definition. */
    ghost predicate Candidate(input: CraftInput, gd: GameDef) {
      Applies(input, gd) && KnownOutput(input, gd)
    }
  }

  function ItemNamesOf(itemstrings: seq<string>, gd: GameDef): (r: seq<string>)
    ensures |r| == |itemstrings|
  {
    seq(|itemstrings|, i requires 0 <= i < |itemstrings| => gd.itemName(itemstrings[i]))
  }

  function Occupied(items: seq<ItemStack>): seq<ItemStack> {
    if items == [] then []
    else (if items[0].Empty() then [] else [items[0]]) + Occupied(items[1..])
  }

  ghost predicate AppliesToOne(input: CraftInput, item: string, gd: GameDef) {
    var names := NonEmpty(input.Names());
    |names| == 1 && Matches(names[0], gd.itemName(item), gd)
  }

  /** craftToolRepair: both tools' remaining uses, plus a bonus. */
  function Repaired(item1: ItemStack, item2: ItemStack, additionalWear: real, gd: GameDef): (r: ItemStack) {
    if item1.count != 1 || item2.count != 1 || item1.name != item2.name
       || !gd.isTool(item1.name) || gd.group(item1.name, "disable_repair") == 1 then NOTHING
    else
      var uses := (65536 - item1.wear) + (65536 - item2.wear);
      var wear := 65536 - uses + (additionalWear * 65536.0 + 0.5).Floor;
      if wear >= 65536 then NOTHING
      else item1.(wear := if wear < 0 then 0 else wear)
  }

  /** Of 65536 uses in all, how many are left. */
  function UsesLeft(s: ItemStack): int {
    65536 - s.wear
  }

  /** Two single tools of one name are repaired exactly if some use is left; the repaired tool has the uses of both
      together, less the additional wear, up to those of a new one, and is otherwise the first tool. */
  lemma RepairAddsUses(item1: ItemStack, item2: ItemStack, additionalWear: real, gd: GameDef)
    requires item1.count == item2.count == 1 && item1.name == item2.name
    requires gd.isTool(item1.name) && gd.group(item1.name, "disable_repair") != 1
    ensures var left := UsesLeft(item1) + UsesLeft(item2) - (additionalWear * 65536.0 + 0.5).Floor;
            var r := Repaired(item1, item2, additionalWear, gd);
      && (r.Empty() <==> left <= 0)
      && (left > 0 ==> UsesLeft(r) == (if left < 65536 then left else 65536)
                       && r.name == item1.name && r.count == 1 && r.meta == item1.meta)
  {
  }

  // ---------------------------------------------------------------- hashing a grid

  function Join(names: seq<string>): string {
    if |names| == 0 then ""
    else if |names| == 1 then names[0]
    else Join(names[..|names| - 1]) + "\n" + names[|names| - 1]
  }

  function GridHash(kind: nat, names: seq<string>, gd: GameDef): int {
    if kind == HASH_ITEM_NAMES then gd.stringHash(Join(NonEmpty(names)))
    else if kind == HASH_COUNT then |NonEmpty(names)|
    else 0
  }

  method GetHashForGrid(kind: nat, names: seq<string>, gd: GameDef) returns (hash: int)
    ensures hash == GridHash(kind, names, gd)
  {
    assert names[..|names|] == names;
    if kind == HASH_ITEM_NAMES {
      var os, isFirst := "", true;
      for i := 0 to |names|
        invariant os == Join(NonEmpty(names[..i]))
        invariant isFirst <==> NonEmpty(names[..i]) == []
      {
        ReadOneMore(names, i);
        JoinOneMore(NonEmpty(names[..i]), names[i]);
        assert "" + "" + names[i] == names[i];
        if names[i] != "" {
          os := os + (if isFirst then "" else "\n") + names[i];
          isFirst := false;
        }
      }
      return gd.stringHash(os);
    } else if kind == HASH_COUNT {
      hash := 0;
      for i := 0 to |names|
        invariant hash == |NonEmpty(names[..i])|
      {
        ReadOneMore(names, i);
        if names[i] != "" {
          hash := hash + 1;
        }
      }
    } else {
      hash := 0;
    }
  }

  lemma JoinOneMore(names: seq<string>, name: string)
    ensures Join(names + [name]) == if names == [] then name else Join(names) + "\n" + name
  {
    assert (names + [name])[..|names|] == names;
  }

  lemma ReadOneMore(names: seq<string>, i: nat)
    requires i < |names|
    ensures NonEmpty(names[..i + 1])
         == if names[i] == "" then NonEmpty(names[..i]) else NonEmpty(names[..i]) + [names[i]]
  {
    assert names[..i + 1] == names[..i] + [names[i]];
    NonEmptyConcat(names[..i], [names[i]]);
  }

  // ---------------------------------------------------------------- the checks

  method Check(d: CraftDef, input: CraftInput, gd: GameDef) returns (r: bool)
    requires d.Consistent(gd)
    ensures r <==> d.Applies(input, gd)
  {
    match d.recipe {
      case ShapedRecipe(_, width, _) =>
        if input.kind != NormalCraft {
          return false;
        }
        r := CheckGrids(input.Names(), input.width, d.SlotNames(gd), width, gd);
      case ShapelessRecipe(_, slots) =>
        if input.kind != NormalCraft {
          return false;
        }
        SlotCount(slots, gd);
        r := Shapeless.CheckNames(input.Names(), |slots|, d.SlotNames(gd), gd);
      case ToolRepair(wear) =>
        if input.kind != NormalCraft {
          return false;
        }
        r := CheckToolRepair(input.items, wear, gd);
      case Cooking(_, item, _) =>
        if input.kind != CookingCraft {
          return false;
        }
        r := CheckOne(input, item, gd);
      case Fuel(item, _) =>
        if input.kind != FuelCraft {
          return false;
        }
        r := CheckOne(input, item, gd);
    }
  }

  lemma SlotCount(slots: seq<string>, gd: GameDef)
    ensures |Sort(ItemNamesOf(slots, gd))| == |slots|
  {
    var names := ItemNamesOf(slots, gd);
    assert |multiset(Sort(names))| == |multiset(names)|;
  }

  method CheckOne(input: CraftInput, item: string, gd: GameDef) returns (r: bool)
    ensures r <==> AppliesToOne(input, item, gd)
  {
    var filtered := Shapeless.FilterEmpty(input.Names());
    if |filtered| != 1 {
      return false;
    }
    return Matches(filtered[0], gd.itemName(item), gd);
  }

  /** `item1` and `item2` are the first occupied stacks seen before `rest`. */
  ghost predicate ToolsSeen(items: seq<ItemStack>, rest: seq<ItemStack>, item1: ItemStack, item2: ItemStack) {
    && (item1.Empty() ==> item1 == NOTHING && item2 == NOTHING && Occupied(items) == Occupied(rest))
    && (item2.Empty() ==> item2 == NOTHING)
    && (!item1.Empty() && item2.Empty() ==> Occupied(items) == [item1] + Occupied(rest))
    && (!item2.Empty() ==> Occupied(items) == [item1, item2] + Occupied(rest))
  }

  lemma ToolsSeenStarts(items: seq<ItemStack>)
    ensures ToolsSeen(items, items[0..], NOTHING, NOTHING)
  {
    assert items[0..] == items;
  }

  lemma OneMoreTool(items: seq<ItemStack>, rest: seq<ItemStack>, item1: ItemStack, item2: ItemStack)
    requires rest != [] && ToolsSeen(items, rest, item1, item2)
    ensures rest[0].Empty() ==> ToolsSeen(items, rest[1..], item1, item2)
    ensures !rest[0].Empty() && item1.Empty() ==> ToolsSeen(items, rest[1..], rest[0], item2)
    ensures !rest[0].Empty() && !item1.Empty() && item2.Empty() ==> ToolsSeen(items, rest[1..], item1, rest[0])
    ensures !rest[0].Empty() && !item1.Empty() && !item2.Empty() ==> |Occupied(items)| > 2
  {
    assert [item1] + ([rest[0]] + Occupied(rest[1..])) == [item1, rest[0]] + Occupied(rest[1..]);
    assert Occupied(rest) == if rest[0].Empty() then Occupied(rest[1..]) else [rest[0]] + Occupied(rest[1..]);
  }

  lemma AllToolsSeen(items: seq<ItemStack>, rest: seq<ItemStack>, item1: ItemStack, item2: ItemStack)
    requires rest == [] && ToolsSeen(items, rest, item1, item2)
    ensures |Occupied(items)| == 2 <==> !item1.Empty() && !item2.Empty()
    ensures |Occupied(items)| == 2 ==> Occupied(items) == [item1, item2]
  {
    assert [item1, item2] + [] == [item1, item2];
  }

  method CheckToolRepair(items: seq<ItemStack>, additionalWear: real, gd: GameDef) returns (r: bool)
    ensures r <==> var occupied := Occupied(items);
                   |occupied| == 2 && !Repaired(occupied[0], occupied[1], additionalWear, gd).Empty()
  {
    hide Repaired, Occupied, ToolsSeen;
    var item1, item2 := NOTHING, NOTHING;
    ToolsSeenStarts(items);
    for i := 0 to |items|
      invariant ToolsSeen(items, items[i..], item1, item2)
    {
      OneMoreTool(items, items[i..], item1, item2);
      if !items[i].Empty() {
        if item1.Empty() {
          item1 := items[i];
        } else if item2.Empty() {
          item2 := items[i];
        } else {
          return false;
        }
      }
    }
    AllToolsSeen(items, items[|items|..], item1, item2);
    if item1.Empty() || item2.Empty() {
      RepairNeedsBoth(item1, item2, additionalWear, gd);
    }
    return !Repaired(item1, item2, additionalWear, gd).Empty();
  }

  lemma RepairNeedsBoth(item1: ItemStack, item2: ItemStack, additionalWear: real, gd: GameDef)
    requires item1.Empty() || item2.Empty()
    ensures Repaired(item1, item2, additionalWear, gd).Empty()
  {
  }

  // ---------------------------------------------------------------- a match has the hash of its input

  ghost predicate WellFormed(items: seq<ItemStack>) {
    forall i :: 0 <= i < |items| ==> (items[i].Empty() <==> items[i].name == "")
  }

  lemma {:induction false} NonEmptyContents(s: seq<string>)
    ensures forall x :: multiset(NonEmpty(s))[x] == if x == "" then 0 else multiset(s)[x]
    ensures "" !in NonEmpty(s)
  {
    if s != [] {
      NonEmptyContents(s[1..]);
      assert s == [s[0]] + s[1..];
    }
  }

  lemma {:induction false} NonEmptySorted(s: seq<string>)
    requires IsSorted(s)
    ensures IsSorted(NonEmpty(s))
  {
    if s != [] {
      NonEmptySorted(s[1..]);
      if s[0] != "" {
        forall y | y in NonEmpty(s[1..]) ensures Before(s[0], y) {
          NonEmptyContents(s[1..]);
          assert multiset(NonEmpty(s[1..]))[y] > 0;
          HeadFirst(s, y);
        }
        SortedCons(s[0], NonEmpty(s[1..]));
      }
    }
  }

  lemma SortedAlike(s: seq<string>, t: seq<string>)
    requires IsSorted(s) && IsSorted(t) && multiset(NonEmpty(s)) == multiset(NonEmpty(t))
    ensures NonEmpty(s) == NonEmpty(t)
  {
    NonEmptySorted(s);
    NonEmptySorted(t);
    SortedUnique(NonEmpty(s), NonEmpty(t));
  }

  lemma NonEmptyOfSort(s: seq<string>)
    ensures multiset(NonEmpty(Sort(s))) == multiset(NonEmpty(s))
    ensures |NonEmpty(Sort(s))| == |NonEmpty(s)|
  {
    NonEmptyContents(s);
    NonEmptyContents(Sort(s));
    assert |multiset(NonEmpty(Sort(s)))| == |multiset(NonEmpty(s))|;
  }

  lemma ShapedHash(inp: seq<string>, iw: nat, rec: seq<string>, rw: nat, gd: GameDef)
    requires EmptyMatchesNoGroup(gd) && SamePattern(inp, iw, rec, rw, gd)
    ensures |NonEmpty(Sort(inp))| == |NonEmpty(Sort(rec))|
    ensures !HasGroup(rec) ==> NonEmpty(Sort(inp)) == NonEmpty(Sort(rec))
  {
    PatternLaysOut(inp, iw, rec, rw, gd);
    NonEmptyOfSort(inp);
    NonEmptyOfSort(rec);
    if !HasGroup(rec) {
      forall i | 0 <= i < |NonEmpty(rec)| ensures !IsGroup(NonEmpty(rec)[i]) {
        NonEmptyContents(rec);
        assert multiset(NonEmpty(rec))[NonEmpty(rec)[i]] > 0;
      }
      PlainLaidOut(NonEmpty(inp), NonEmpty(rec), gd);
      SortedAlike(Sort(inp), Sort(rec));
    }
  }

  lemma PlainLaidOut(xs: seq<string>, slots: seq<string>, gd: GameDef)
    requires LaidOut(xs, slots, gd) && !HasGroup(slots)
    ensures xs == slots
  {
    forall i | 0 <= i < |xs| ensures xs[i] == slots[i] {
      assert Matches(xs[i], slots[i], gd);
    }
  }

  lemma ShapelessHash(inp: seq<string>, slots: seq<string>, gd: GameDef)
    requires IsSorted(slots) && Fits(NonEmpty(inp), slots, gd)
    ensures |NonEmpty(Sort(inp))| == |NonEmpty(slots)|
    ensures !HasGroup(slots) ==> NonEmpty(Sort(inp)) == NonEmpty(slots)
  {
    NonEmptyOfSort(inp);
    NonEmptyContents(inp);
    var xs := NonEmpty(inp);
    var laid := LayOut(xs, slots, gd);
    forall i | 0 <= i < |laid| ensures laid[i] != "" {
      assert Matches(xs[i], laid[i], gd);
      assert xs[i] in xs;
    }
    assert "" !in multiset(slots) by { assert "" !in multiset(laid); }
    AllNonEmpty(slots);
    assert |multiset(laid)| == |multiset(slots)|;
    if !HasGroup(slots) {
      forall i | 0 <= i < |laid| ensures !IsGroup(laid[i]) {
        assert laid[i] in multiset(slots);
      }
      PlainLaidOut(xs, laid, gd);
      SortedAlike(Sort(inp), slots);
    }
  }

  lemma {:induction false} AllNonEmpty(s: seq<string>)
    requires "" !in s
    ensures NonEmpty(s) == s
  {
    if s != [] {
      assert s[0] != "";
      AllNonEmpty(s[1..]);
      assert s == [s[0]] + s[1..];
    }
  }

  lemma {:induction false} OccupiedCount(items: seq<ItemStack>, names: seq<string>)
    requires WellFormed(items) && |names| == |items|
    requires forall i :: 0 <= i < |items| ==> names[i] == items[i].name
    ensures |Occupied(items)| == |NonEmpty(names)|
  {
    if items != [] {
      OccupiedCount(items[1..], names[1..]);
    }
  }

  /** The search for an input looks where every matching definition has been filed. */
  lemma MatchHasInputHash(d: CraftDef, input: CraftInput, gd: GameDef)
    requires EmptyMatchesNoGroup(gd) && WellFormed(input.items)
    requires d.names.Some? && d.Consistent(gd) && d.Applies(input, gd)
    ensures d.Hash(gd) == GridHash(d.HashType(), Sort(input.Names()), gd)
  {
    var inp := input.Names();
    match d.recipe {
      case ShapedRecipe(_, width, _) =>
        ShapedHash(inp, input.width, d.names.value, width, gd);
      case ShapelessRecipe(_, _) =>
        ShapelessHash(inp, d.names.value, gd);
      case ToolRepair(_) =>
        OccupiedCount(input.items, inp);
        NonEmptyOfSort(inp);
      case Cooking(_, item, _) =>
        OneNameHash(inp, gd.itemName(item), gd);
      case Fuel(item, _) =>
        OneNameHash(inp, gd.itemName(item), gd);
    }
  }

  lemma SameSingleton(a: seq<string>, b: seq<string>)
    requires |a| == |b| == 1 && multiset(a) == multiset(b)
    ensures a == b
  {
    assert a[0] in multiset(b);
  }

  lemma OneNameHash(inp: seq<string>, rec: string, gd: GameDef)
    requires |NonEmpty(inp)| == 1 && Matches(NonEmpty(inp)[0], rec, gd)
    ensures |NonEmpty(Sort(inp))| == 1
    ensures !IsGroup(rec) ==> Join(NonEmpty(Sort(inp))) == rec
  {
    NonEmptyOfSort(inp);
    SameSingleton(NonEmpty(Sort(inp)), NonEmpty(inp));
  }

  /** Some itemstring stands for this name. */
  ghost predicate Nameable(name: string, gd: GameDef) {
    exists raw :: gd.itemName(raw) == name
  }

  /** The assumption about the empty slot is needed: a group that contains it makes a recipe match
      inputs that are filed under another hash. */
  lemma EmptySlotInGroupIsMisfiled(name: string, rec: string, output: string, gd: GameDef)
    returns (d: CraftDef, input: CraftInput)
    requires name != "" && !IsGroup(name) && IsGroup(rec) && Matches("", rec, gd)
    requires Nameable(name, gd) && Nameable(rec, gd) && gd.isKnown(gd.itemName(output))
    ensures WellFormed(input.items) && !input.Empty() && d.names.Some? && d.Consistent(gd) && d.recipe.ShapedRecipe?
    ensures d.HashType() == HASH_COUNT && d.Candidate(input, gd)
    ensures d.Hash(gd) != GridHash(HASH_COUNT, Sort(input.Names()), gd)
  {
    d, input := GroupInTheMiddle(name, rec, output, gd);
    var inp, cells := input.Names(), d.names.value;
    ThreeOverlaid(inp, cells, Bounds(0, 2, 0, 0), gd);
    ThreeCounted(inp);
    ThreeCounted(cells);
    assert IsGroup(cells[1]);
    ShapedWithGroups(d, input, gd);
  }

  lemma GroupInTheMiddle(name: string, rec: string, output: string, gd: GameDef)
    returns (d: CraftDef, input: CraftInput)
    requires name != "" && Nameable(name, gd) && Nameable(rec, gd)
    ensures d.recipe.ShapedRecipe? && d.recipe.output == output && d.recipe.width == 3 && d.names.Some?
    ensures d.Consistent(gd)
    ensures var cells := d.names.value; |cells| == 3 && cells[0] == cells[2] == name && cells[1] == rec
    ensures input.kind == NormalCraft && input.width == 3 && WellFormed(input.items) && !input.Empty()
    ensures var inp := input.Names(); |inp| == 3 && inp[0] == inp[2] == name && inp[1] == ""
  {
    var item := ItemStack(name, 1, 0, "");
    input := CraftInput(NormalCraft, 3, [item, NOTHING, item]);
    var plain :| gd.itemName(plain) == name;
    var group :| gd.itemName(group) == rec;
    var cells := [plain, group, plain];
    d := CraftDef(ShapedRecipe(output, 3, cells), Some([name, rec, name]));
    assert ItemNamesOf(cells, gd) == [name, rec, name];
    assert !input.items[0].Empty();
  }

  lemma ShapedWithGroups(d: CraftDef, input: CraftInput, gd: GameDef)
    requires d.recipe.ShapedRecipe? && d.names.Some? && HasGroup(d.names.value)
    ensures d.HashType() == HASH_COUNT && d.Hash(gd) == |NonEmpty(Sort(d.names.value))|
    ensures GridHash(HASH_COUNT, Sort(input.Names()), gd) == |NonEmpty(Sort(input.Names()))|
    ensures d.Applies(input, gd) <==>
              input.kind == NormalCraft && SamePattern(input.Names(), input.width, d.names.value, d.recipe.width, gd)
  {
  }

  lemma ThreeCounted(names: seq<string>)
    requires |names| == 3 && names[0] != "" && names[2] != ""
    ensures |NonEmpty(Sort(names))| == if names[1] == "" then 2 else 3
  {
    NonEmptyOfSort(names);
    hide Sort;
    assert names == [names[0]] + [names[1]] + [names[2]];
    NonEmptyConcat([names[0]] + [names[1]], [names[2]]);
    NonEmptyConcat([names[0]], [names[1]]);
    NonEmptyOne(names[0]);
    NonEmptyOne(names[1]);
    NonEmptyOne(names[2]);
    hide NonEmpty;
  }

  lemma NonEmptyOne(name: string)
    ensures |NonEmpty([name])| == if name == "" then 0 else 1
  {
  }

  lemma ThreeOverlaid(inp: seq<string>, cells: seq<string>, b: Bounds, gd: GameDef)
    requires |inp| == |cells| == 3 && b == Bounds(0, 2, 0, 0)
    requires inp[0] == cells[0] != "" && inp[2] == cells[2] != "" && Matches(inp[1], cells[1], gd)
    ensures SamePattern(inp, 3, cells, 3, gd)
  {
    ThreeCells(inp, b);
    ThreeCells(cells, b);
    hide At, IsBounds;
    forall x, y | 0 <= x <= 2 && 0 <= y <= 0 ensures CellMatches(inp, 3, b, cells, 3, b, gd, x, y) {
      assert x == 0 || x == 1 || x == 2;
    }
    assert Overlay(inp, 3, b, cells, 3, b, gd);
  }

  lemma ThreeCells(names: seq<string>, b: Bounds)
    requires |names| == 3 && names[0] != "" && names[2] != "" && b == Bounds(0, 2, 0, 0)
    ensures IsBounds(names, 3, b)
    ensures At(names, 3, 0, 0) == names[0] && At(names, 3, 1, 0) == names[1] && At(names, 3, 2, 0) == names[2]
  {
    forall x, y | At(names, 3, x, y) != "" ensures b.Has(x, y) {
      assert y * 3 + x < 3;
    }
    assert At(names, 3, 0, 0) != "" && At(names, 3, 2, 0) != "";
  }
}
