/**
 The check of a shapeless recipe (src/craftdef.cpp, CraftDefinitionShapeless::check): a merge of two
 sorted lists serves the plain slots, a bipartite matching the group slots.
 */
module Shapeless {
  import opened ItemNames
  import opened Pairing
  import Matching

  /** Keeps the non-empty names. */
  method FilterEmpty(names: seq<string>) returns (filtered: seq<string>)
    ensures filtered == NonEmpty(names)
  {
    filtered := [];
    for i := 0 to |names|
      invariant filtered + NonEmpty(names[i..]) == NonEmpty(names)
    {
      if names[i] != "" {
        filtered := filtered + [names[i]];
      }
    }
  }

  /** std::partition_copy into group slots and plain slots; order is kept. */
  method PartitionGroups(names: seq<string>) returns (groups: seq<string>, plain: seq<string>)
    requires IsSorted(names)
    ensures multiset(groups) + multiset(plain) == multiset(names)
    ensures groups == GroupSlots(names)
    ensures !HasGroup(plain) && IsSorted(plain)
  {
    groups, plain := [], [];
    SplitStarts(names);
    hide *;
    for k := 0 to |names|
      invariant Split(names, groups, plain, names[k..])
    {
      assert names[k..][0] == names[k] && names[k..][1..] == names[k + 1..];
      if IsGroup(names[k]) {
        SplitGroup(names, groups, plain, names[k..]);
        groups := groups + [names[k]];
      } else {
        SplitPlain(names, groups, plain, names[k..]);
        plain := plain + [names[k]];
      }
    }
    assert names[|names|..] == [];
    SplitEnds(names, groups, plain);
  }

  lemma SplitStarts(names: seq<string>)
    requires IsSorted(names)
    ensures names[0..] == names && Split(names, [], [], names)
  {
    assert [] + names == names;
    assert [] + GroupSlots(names) == GroupSlots(names);
    hide IsSorted, GroupSlots;
  }

  lemma SplitEnds(names: seq<string>, groups: seq<string>, plain: seq<string>)
    requires Split(names, groups, plain, [])
    ensures multiset(groups) + multiset(plain) == multiset(names)
    ensures groups == GroupSlots(names)
    ensures !HasGroup(plain) && IsSorted(plain)
  {
    assert plain + [] == plain && groups + [] == groups;
    hide IsSorted, HasGroup;
  }

  ghost predicate Split(names: seq<string>, groups: seq<string>, plain: seq<string>, rest: seq<string>) {
    && multiset(groups) + multiset(plain) + multiset(rest) == multiset(names)
    && groups + GroupSlots(rest) == GroupSlots(names)
    && !HasGroup(plain)
    && IsSorted(plain + rest)
  }

  lemma FirstCounted(s: seq<string>)
    requires s != []
    ensures multiset(s) == multiset{s[0]} + multiset(s[1..])
  {
    assert s == [s[0]] + s[1..];
  }

  lemma SplitGroup(names: seq<string>, groups: seq<string>, plain: seq<string>, rest: seq<string>)
    requires rest != [] && Split(names, groups, plain, rest) && IsGroup(rest[0])
    ensures Split(names, groups + [rest[0]], plain, rest[1..])
  {
    SortedWithout(plain, rest);
    hide IsSorted, IsGroup, HasGroup;
    FirstCounted(rest);
    assert groups + ([rest[0]] + GroupSlots(rest[1..])) == (groups + [rest[0]]) + GroupSlots(rest[1..]);
  }

  lemma SplitPlain(names: seq<string>, groups: seq<string>, plain: seq<string>, rest: seq<string>)
    requires rest != [] && Split(names, groups, plain, rest) && !IsGroup(rest[0])
    ensures Split(names, groups, plain + [rest[0]], rest[1..])
  {
    PlainStays(plain, rest);
    FirstCounted(rest);
    assert multiset(plain + [rest[0]]) == multiset(plain) + multiset{rest[0]};
    hide IsSorted, IsGroup, HasGroup, GroupSlots;
  }

  lemma PlainStays(plain: seq<string>, rest: seq<string>)
    requires rest != [] && !HasGroup(plain) && !IsGroup(rest[0])
    ensures !HasGroup(plain + [rest[0]]) && GroupSlots(rest) == GroupSlots(rest[1..])
    ensures plain + rest == (plain + [rest[0]]) + rest[1..]
  {
    hide IsGroup;
    NoGroupAppended(plain, rest[0]);
    GroupSlotsNext(rest);
    hide *;
    HeadMoves(plain, rest);
  }

  lemma HeadMoves<T>(a: seq<T>, b: seq<T>)
    requires b != []
    ensures a + b == (a + [b[0]]) + b[1..]
  {
  }

  lemma NoGroupAppended(plain: seq<string>, name: string)
    requires !HasGroup(plain) && !IsGroup(name)
    ensures !HasGroup(plain + [name])
  {
    hide IsGroup;
  }

  lemma GroupSlotsNext(rest: seq<string>)
    requires rest != [] && !IsGroup(rest[0])
    ensures GroupSlots(rest) == GroupSlots(rest[1..])
  {
    hide IsGroup;
    assert [] + GroupSlots(rest[1..]) == GroupSlots(rest[1..]);
  }

  function GroupSlots(names: seq<string>): seq<string> {
    if names == [] then []
    else (if IsGroup(names[0]) then [names[0]] else []) + GroupSlots(names[1..])
  }

  lemma SortedWithout(a: seq<string>, b: seq<string>)
    requires b != [] && IsSorted(a + b)
    ensures IsSorted(a + b[1..])
  {
    var s, t := a + b, a + b[1..];
    forall i, j | 0 <= i < j < |t| ensures Before(t[i], t[j]) {
      var i', j' := if i < |a| then i else i + 1, if j < |a| then j else j + 1;
      assert t[i] == s[i'] && t[j] == s[j'];
    }
  }

  /** `d` is what the difference of `a` and `b` holds before the parts still to be merged. */
  ghost predicate Merged(all: multiset<string>, d: seq<string>, a: seq<string>, b: seq<string>) {
    multiset(d) + (multiset(a) - multiset(b)) == all
  }

  /** std::set_difference of two sorted lists. */
  method SetDifference(a: seq<string>, b: seq<string>) returns (d: seq<string>)
    requires IsSorted(a) && IsSorted(b)
    ensures multiset(d) == multiset(a) - multiset(b)
  {
    hide *;
    d := [];
    var i, j := 0, 0;
    ghost var all := multiset(a) - multiset(b);
    MergeStarts(a, b);
    while i < |a|
      invariant 0 <= i <= |a| && 0 <= j <= |b|
      invariant IsSorted(a[i..]) && IsSorted(b[j..]) && Merged(all, d, a[i..], b[j..])
      decreases |a| - i + |b| - j
    {
      if j == |b| {
        MergeEnds(all, d, a[i..], b[j..]);
        d := d + a[i..];
        return;
      }
      MergeOne(all, d, a[i..], b[j..]);
      if Less(a[i], b[j]) {
        d := d + [a[i]];
        i := i + 1;
      } else {
        if !Less(b[j], a[i]) {
          i := i + 1;
        }
        j := j + 1;
      }
    }
    MergeEnds(all, d, a[i..], b[j..]);
    assert d + a[i..] == d;
  }

  lemma MergeStarts(a: seq<string>, b: seq<string>)
    requires IsSorted(a) && IsSorted(b)
    ensures Merged(multiset(a) - multiset(b), [], a[0..], b[0..])
    ensures IsSorted(a[0..]) && IsSorted(b[0..])
  {
    assert a[0..] == a && b[0..] == b;
  }

  lemma MergeEnds(all: multiset<string>, d: seq<string>, a: seq<string>, b: seq<string>)
    requires Merged(all, d, a, b) && (a == [] || b == [])
    ensures multiset(d + a) == all
  {
  }

  lemma MergeOne(all: multiset<string>, d: seq<string>, a: seq<string>, b: seq<string>)
    requires Merged(all, d, a, b) && a != [] && b != [] && IsSorted(a) && IsSorted(b)
    ensures IsSorted(a[1..]) && IsSorted(b[1..])
    ensures if Less(a[0], b[0]) then Merged(all, d + [a[0]], a[1..], b)
            else if Less(b[0], a[0]) then Merged(all, d, a, b[1..])
            else Merged(all, d, a[1..], b[1..])
  {
    MergeStep(a, b);
    hide Less;
  }

  lemma MergeStep(a: seq<string>, b: seq<string>)
    requires a != [] && b != [] && IsSorted(a) && IsSorted(b)
    ensures Less(a[0], b[0]) ==> multiset(a) - multiset(b) == multiset{a[0]} + (multiset(a[1..]) - multiset(b))
    ensures !Less(a[0], b[0]) && !Less(b[0], a[0]) ==> multiset(a) - multiset(b) == multiset(a[1..]) - multiset(b[1..])
    ensures Less(b[0], a[0]) ==> multiset(a) - multiset(b) == multiset(a) - multiset(b[1..])
  {
    assert a == [a[0]] + a[1..] && b == [b[0]] + b[1..];
    LessTotal(a[0], b[0]);
    if Less(a[0], b[0]) && a[0] in b {
      HeadFirst(b, a[0]);
    }
    if Less(b[0], a[0]) && b[0] in a {
      HeadFirst(a, b[0]);
    }
    if Less(a[0], b[0]) {
      assert multiset(b)[a[0]] == 0;
    }
    if Less(b[0], a[0]) {
      assert multiset(a)[b[0]] == 0;
    }
  }

  /** The bipartite graph: which group slots each remaining input can serve. */
  method BuildGraph(inputs: seq<string>, slots: seq<string>, gd: GameDef) returns (g: Matching.Graph)
    requires |inputs| == |slots| <= Matching.SHAPELESS_GROUPS_MAX
    ensures Matching.IsGraph(g)
    ensures Matching.HasPerfectMatching(g) <==> Fits(inputs, slots, gd)
  {
    var n := |inputs|;
    g := [];
    for i := 0 to n
      invariant |g| == i
      invariant forall u :: 0 <= u < i ==> IsRow(g[u], inputs[u], slots, gd)
    {
      var row: seq<int> := [];
      for j := 0 to n
        invariant forall v :: v in row <==> 0 <= v < j && Matches(inputs[i], slots[v], gd)
      {
        if Matches(inputs[i], slots[j], gd) {
          row := row + [j];
        }
      }
      g := g + [row];
    }
    GraphMeansFits(g, inputs, slots, gd);
  }

  ghost predicate IsRow(row: seq<int>, input: string, slots: seq<string>, gd: GameDef) {
    forall v :: v in row <==> 0 <= v < |slots| && Matches(input, slots[v], gd)
  }

  lemma GraphMeansFits(g: Matching.Graph, inputs: seq<string>, slots: seq<string>, gd: GameDef)
    requires |g| == |inputs| == |slots| <= Matching.SHAPELESS_GROUPS_MAX
    requires forall u :: 0 <= u < |g| ==> IsRow(g[u], inputs[u], slots, gd)
    ensures Matching.IsGraph(g)
    ensures Matching.HasPerfectMatching(g) <==> Fits(inputs, slots, gd)
  {
    forall u, j | 0 <= u < |g| && 0 <= j < |g[u]| ensures 0 <= g[u][j] < |g| {
      assert g[u][j] in g[u];
    }
    forall p: seq<int> ensures Matching.IsPerfect(g, p) <==> IsBijection(inputs, slots, p, gd) {
      if Matching.IsPerfect(g, p) {
        forall i | 0 <= i < |inputs| ensures 0 <= p[i] < |slots| && Matches(inputs[i], slots[p[i]], gd) {
          assert p[i] in g[i];
        }
      }
      if IsBijection(inputs, slots, p, gd) {
        forall u | 0 <= u < |g| ensures p[u] in g[u] {
          assert Matches(inputs[u], slots[p[u]], gd);
        }
      }
    }
  }

  /** Whether the non-empty names of a grid satisfy the slots: exactly when some bijection between
      inputs and slots matches every input to its slot, up to the bound on group slots. */
  method CheckNames(names: seq<string>, recipeSize: nat, recipeNames: seq<string>, gd: GameDef) returns (r: bool)
    requires IsSorted(recipeNames) && |recipeNames| == recipeSize
    ensures r <==> Fits(NonEmpty(names), recipeNames, gd)
                   && |GroupSlots(recipeNames)| <= Matching.SHAPELESS_GROUPS_MAX
  {
    var filtered := FilterEmpty(names);
    if |filtered| != recipeSize {
      return false;
    }
    var sorted := Sort(filtered);
    var groups, plain := PartitionGroups(recipeNames);
    var rest := SetDifference(sorted, plain);
    Prefiltered(filtered, sorted, recipeNames, plain, groups, rest, gd);
    if |sorted| - |rest| != |plain| {
      return false;
    }
    assert |groups| == |rest|;  // asserted by the program as well
    if |groups| > Matching.SHAPELESS_GROUPS_MAX {
      return false;
    }
    var g := BuildGraph(rest, groups, gd);
    var matched, _ := Matching.CanMatchAll(g);
    return matched;
  }

  lemma Prefiltered(filtered: seq<string>, sorted: seq<string>, slots: seq<string>,
                    plain: seq<string>, groups: seq<string>, rest: seq<string>, gd: GameDef)
    requires multiset(sorted) == multiset(filtered) && |filtered| == |slots|
    requires multiset(groups) + multiset(plain) == multiset(slots) && !HasGroup(plain)
    requires multiset(rest) == multiset(sorted) - multiset(plain)
    ensures |sorted| - |rest| == |plain| <==> multiset(plain) <= multiset(filtered)
    ensures |sorted| - |rest| == |plain| ==> |groups| == |rest|
    ensures Fits(filtered, slots, gd) <==> multiset(plain) <= multiset(filtered) && Fits(rest, groups, gd)
  {
    assert |multiset(sorted)| == |multiset(filtered)|;
    DifferenceSize(multiset(sorted), multiset(plain));
    assert |multiset(groups) + multiset(plain)| == |multiset(slots)|;
    PrefilterKeepsTheAnswer(filtered, plain, groups, rest, gd);
    assert multiset(plain + groups) == multiset(slots);
    if Fits(filtered, slots, gd) {
      FitsIgnoresOrder(filtered, slots, filtered, plain + groups, gd);
    }
    if Fits(filtered, plain + groups, gd) {
      FitsIgnoresOrder(filtered, plain + groups, filtered, slots, gd);
    }
  }

  lemma DifferenceSize<T>(a: multiset<T>, b: multiset<T>)
    ensures |a| - |a - b| == |b| <==> b <= a
  {
    assert a == (a - b) + (a * b);
    assert b == (b - a) + (a * b);
    if |b - a| == 0 {
      assert b - a == multiset{};
      assert b <= a;
    }
  }
}
