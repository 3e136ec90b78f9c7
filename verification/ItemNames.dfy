/**
 Item names as the crafting code sees them: ordered like std::string, sorted, and matched against
 recipe slots by exact name or by group (src/craftdef.cpp).
 */
module ItemNames {
  import opened Items

  /** What the crafting code asks of the game definition.  `itemName` is the name of a deserialized
      itemstring, aliases resolved; `itemString` writes a stack as an itemstring; `group(name, g)` is
      the rating of item `name` in group `g`, 0 if absent. */
  datatype GameDef = GameDef(
    itemName: string -> string,
    itemString: ItemStack -> string,
    isKnown: string -> bool,
    isTool: string -> bool,
    group: (string, string) -> int,
    stringHash: string -> int
  )

  // ---------------------------------------------------------------- order and sorting

  predicate Less(a: string, b: string) {
    b != [] && (a == [] || a[0] < b[0] || (a[0] == b[0] && Less(a[1..], b[1..])))
  }

  lemma {:induction false} LessTotal(a: string, b: string)
    ensures !(Less(a, b) && Less(b, a))
    ensures !Less(a, b) && !Less(b, a) <==> a == b
  {
    if a != [] && b != [] {
      LessTotal(a[1..], b[1..]);
      assert a == [a[0]] + a[1..] && b == [b[0]] + b[1..];
    }
  }

  lemma {:induction false} LessTransitive(a: string, b: string, c: string)
    requires Less(a, b) && Less(b, c)
    ensures Less(a, c)
  {
    if a != [] && a[0] == b[0] == c[0] {
      LessTransitive(a[1..], b[1..], c[1..]);
    }
  }

  /** `x` may stand before `y`. */
  predicate Before(x: string, y: string) {
    !Less(y, x)
  }

  lemma BeforeTransitive(a: string, b: string, c: string)
    requires Before(a, b) && Before(b, c)
    ensures Before(a, c)
  {
    if Less(c, a) {
      LessTotal(a, b);
      if a != b {
        LessTransitive(c, a, b);
      }
    }
  }

  ghost predicate IsSorted(s: seq<string>) {
    forall i, j :: 0 <= i < j < |s| ==> Before(s[i], s[j])
  }

  lemma HeadFirst(s: seq<string>, y: string)
    requires IsSorted(s) && y in s
    ensures Before(s[0], y)
  {
    LessTotal(y, y);
  }

  lemma SortedCons(x: string, s: seq<string>)
    requires IsSorted(s) && forall y :: y in s ==> Before(x, y)
    ensures IsSorted([x] + s)
  {
  }

  function Insert(x: string, s: seq<string>): (r: seq<string>)
    ensures multiset(r) == multiset{x} + multiset(s)
  {
    if s == [] then [x]
    else if Less(s[0], x) then
      assert s == [s[0]] + s[1..];
      [s[0]] + Insert(x, s[1..])
    else [x] + s
  }

  lemma {:induction false} InsertSorted(x: string, s: seq<string>)
    requires IsSorted(s)
    ensures IsSorted(Insert(x, s))
  {
    if s == [] {
    } else if Less(s[0], x) {
      var r := Insert(x, s[1..]);
      InsertSorted(x, s[1..]);
      LessTotal(s[0], x);
      forall y | y in r ensures Before(s[0], y) {
        assert y in multiset(r);
        if y != x {
          assert y in s[1..];
          HeadFirst(s, y);
        }
      }
      SortedCons(s[0], r);
    } else {
      forall y | y in s ensures Before(x, y) {
        HeadFirst(s, y);
        BeforeTransitive(x, s[0], y);
      }
      SortedCons(x, s);
    }
  }

  /** std::sort on names. */
  function Sort(s: seq<string>): (r: seq<string>)
    ensures IsSorted(r) && multiset(r) == multiset(s)
  {
    if s == [] then []
    else
      assert s == [s[0]] + s[1..];
      InsertSorted(s[0], Sort(s[1..]));
      Insert(s[0], Sort(s[1..]))
  }

  lemma {:induction false} SortedUnique(s: seq<string>, t: seq<string>)
    requires IsSorted(s) && IsSorted(t) && multiset(s) == multiset(t)
    ensures s == t
  {
    assert |multiset(s)| == |multiset(t)|;
    if s != [] {
      assert s[0] in multiset(t) && t[0] in multiset(s);
      HeadFirst(s, t[0]);
      HeadFirst(t, s[0]);
      LessTotal(s[0], t[0]);
      SameTails(s, t);
      SortedUnique(s[1..], t[1..]);
    }
  }

  lemma SameTails(s: seq<string>, t: seq<string>)
    requires s != [] && t != [] && s[0] == t[0] && multiset(s) == multiset(t)
    ensures multiset(s[1..]) == multiset(t[1..])
    ensures s[1..] == t[1..] ==> s == t
  {
    assert s == [s[0]] + s[1..] && t == [t[0]] + t[1..];
    assert multiset(s[1..]) == multiset(s) - multiset{s[0]};
    assert multiset(t[1..]) == multiset(t) - multiset{t[0]};
  }

  // ---------------------------------------------------------------- matching

  const GROUP_PREFIX := "group:"

  predicate IsGroup(recName: string) {
    GROUP_PREFIX <= recName
  }

  predicate HasGroup(recipe: seq<string>) {
    exists i :: 0 <= i < |recipe| && IsGroup(recipe[i])
  }

  /** The position of the next comma at or after `pos`, or the end. */
  function NextComma(s: string, pos: nat): (n: nat)
    requires pos <= |s|
    ensures pos <= n <= |s|
    decreases |s| - pos
  {
    if pos == |s| || s[pos] == ',' then pos else NextComma(s, pos + 1)
  }

  /** Every comma-separated group from `pos` on is one the item belongs to. */
  predicate InAllGroups(name: string, s: string, pos: nat, gd: GameDef)
    requires pos <= |s|
    decreases |s| - pos
  {
    var n := NextComma(s, pos);
    && gd.group(name, s[pos..n]) != 0
    && (n + 1 < |s| ==> InAllGroups(name, s, n + 1, gd))
  }

  predicate Matches(inpName: string, recName: string, gd: GameDef) {
    || inpName == recName
    || (IsGroup(recName) && gd.isKnown(inpName) && InAllGroups(inpName, recName[|GROUP_PREFIX|..], 0, gd))
  }

  /** A place in the list of groups where one starts: its beginning, or behind a comma. */
  predicate GroupStarts(s: string, pos: nat, i: nat) {
    pos <= i < |s| && (i == pos || s[i - 1] == ',')
  }

  /** A group of the list: the characters between two commas. */
  predicate IsEntry(s: string, pos: nat, i: nat, j: nat) {
    && GroupStarts(s, pos, i) && i <= j <= |s|
    && (forall k :: i <= k < j ==> s[k] != ',')
    && (j < |s| ==> s[j] == ',')
  }

  lemma {:induction false} NextCommaIs(s: string, pos: nat)
    requires pos <= |s|
    ensures forall k :: pos <= k < NextComma(s, pos) ==> s[k] != ','
    ensures NextComma(s, pos) < |s| ==> s[NextComma(s, pos)] == ','
    decreases |s| - pos
  {
    if pos < |s| && s[pos] != ',' {
      NextCommaIs(s, pos + 1);
    }
  }

  /** An item is in all groups of a list exactly when it is in every one that stands between two commas. */
  lemma {:induction false} InAllGroupsIff(name: string, s: string, pos: nat, gd: GameDef)
    requires pos < |s|
    ensures InAllGroups(name, s, pos, gd)
       <==> forall i: nat, j: nat :: IsEntry(s, pos, i, j) ==> gd.group(name, s[i..j]) != 0
    decreases |s| - pos
  {
    var n := NextComma(s, pos);
    NextCommaIs(s, pos);
    assert IsEntry(s, pos, pos, n);
    forall i: nat, j: nat | IsEntry(s, pos, i, j) ensures if i == pos then j == n else n < i && IsEntry(s, n + 1, i, j)
    {
    }
    if n + 1 < |s| {
      InAllGroupsIff(name, s, n + 1, gd);
      forall i: nat, j: nat | IsEntry(s, n + 1, i, j) ensures IsEntry(s, pos, i, j) {
      }
    }
  }

  /** An item matches its own name, and, if it is known, "group:" followed by groups it belongs to, all of them. */
  lemma MatchesIff(inpName: string, groups: string, gd: GameDef)
    requires groups != "" && inpName != "group:" + groups
    ensures Matches(inpName, inpName, gd)
    ensures Matches(inpName, "group:" + groups, gd)
       <==> && gd.isKnown(inpName)
            && forall i: nat, j: nat :: IsEntry(groups, 0, i, j) ==> gd.group(inpName, groups[i..j]) != 0
  {
    InAllGroupsIff(inpName, groups, 0, gd);
    assert ("group:" + groups)[6..] == groups;
    hide InAllGroups;
  }

  // ---------------------------------------------------------------- names in a grid

  function NonEmpty(names: seq<string>): (r: seq<string>) {
    if names == [] then []
    else (if names[0] == "" then [] else [names[0]]) + NonEmpty(names[1..])
  }
}
