/**
 When a list of input items can be laid out on a list of recipe slots: the meaning of a shapeless
 recipe, and the facts about it that make the pre-filtering of src/craftdef.cpp (lines 603-678) sound.
 */
module Pairing {
  import opened ItemNames

  /** `p` sends every input to its own slot, and each input matches the slot it is sent to. */
  ghost predicate IsBijection(xs: seq<string>, ys: seq<string>, p: seq<int>, gd: GameDef) {
    && Shuffle(p, |ys|) && |p| == |xs|
    && forall i :: 0 <= i < |xs| ==> Matches(xs[i], ys[p[i]], gd)
  }

  ghost predicate Fits(xs: seq<string>, ys: seq<string>, gd: GameDef) {
    exists p: seq<int> :: IsBijection(xs, ys, p, gd)
  }

  /** A permutation of the first `n` indices. */
  ghost predicate Shuffle(p: seq<int>, n: nat) {
    && |p| == n
    && (forall i :: 0 <= i < n ==> 0 <= p[i] < n)
    && forall i, j :: 0 <= i < j < n ==> p[i] != p[j]
  }

  ghost function Shuffled(s: seq<string>, p: seq<int>): (r: seq<string>)
    requires Shuffle(p, |s|)
    ensures |r| == |s|
  {
    seq(|s|, i requires 0 <= i < |s| => s[p[i]])
  }

  ghost function Without(s: seq<string>, k: nat): seq<string>
    requires k < |s|
  {
    s[..k] + s[k + 1..]
  }

  lemma WithoutCount(s: seq<string>, k: nat)
    requires k < |s|
    ensures multiset(s) == multiset(Without(s, k)) + multiset{s[k]}
  {
    assert s == s[..k] + [s[k]] + s[k + 1..];
  }

  lemma CancelOne<T>(a: multiset<T>, b: multiset<T>, x: T)
    requires a + multiset{x} == b + multiset{x}
    ensures a == b
  {
    assert a == (a + multiset{x}) - multiset{x};
    assert b == (b + multiset{x}) - multiset{x};
  }

  /** Closing the gap left by index `k`. */
  ghost function Closed(p: seq<int>, k: int): seq<int> {
    seq(|p|, i requires 0 <= i < |p| => if p[i] < k then p[i] else p[i] - 1)
  }

  ghost function Opened(p: seq<int>, k: int): seq<int> {
    seq(|p|, i requires 0 <= i < |p| => if p[i] < k then p[i] else p[i] + 1)
  }

  lemma {:induction false} ShuffleKeepsContents(s: seq<string>, p: seq<int>)
    requires Shuffle(p, |s|)
    ensures multiset(Shuffled(s, p)) == multiset(s)
    decreases |s|
  {
    if s != [] {
      var n, k := |s| - 1, p[|s| - 1];
      var q := Closed(p[..n], k);
      ShuffleKeepsContents(Without(s, k), q);
      WithoutCount(s, k);
      assert Shuffled(s, p) == Shuffled(Without(s, k), q) + [s[k]];
    }
  }

  lemma {:induction false} SameContentsShuffled(s: seq<string>, t: seq<string>) returns (p: seq<int>)
    requires multiset(s) == multiset(t)
    ensures Shuffle(p, |s|) && Shuffled(s, p) == t
    decreases |t|
  {
    assert |multiset(s)| == |multiset(t)|;
    if t == [] {
      p := [];
    } else {
      var n := |t| - 1;
      assert t == t[..n] + [t[n]];
      assert t[n] in multiset(s);
      var k :| 0 <= k < |s| && s[k] == t[n];
      WithoutCount(s, k);
      CancelOne(multiset(Without(s, k)), multiset(t[..n]), t[n]);
      var q := SameContentsShuffled(Without(s, k), t[..n]);
      p := Opened(q, k) + [k];
      OpenedShuffles(s, t, k, q);
    }
  }

  lemma OpenedShuffles(s: seq<string>, t: seq<string>, k: nat, q: seq<int>)
    requires k < |s| && |t| == |s| && s[k] == t[|t| - 1]
    requires Shuffle(q, |s| - 1) && Shuffled(Without(s, k), q) == t[..|t| - 1]
    ensures Shuffle(Opened(q, k) + [k], |s|) && Shuffled(s, Opened(q, k) + [k]) == t
  {
    var p := Opened(q, k) + [k];
    forall i | 0 <= i < |t| - 1 ensures s[p[i]] == t[i] {
      assert Shuffled(Without(s, k), q)[i] == t[i];
    }
  }

  /** `slots` is the recipe laid out next to the inputs `xs`. */
  ghost predicate LaidOut(xs: seq<string>, slots: seq<string>, gd: GameDef) {
    |xs| == |slots| && forall i :: 0 <= i < |xs| ==> Matches(xs[i], slots[i], gd)
  }

  lemma LayOut(xs: seq<string>, ys: seq<string>, gd: GameDef) returns (slots: seq<string>)
    requires Fits(xs, ys, gd)
    ensures multiset(slots) == multiset(ys) && LaidOut(xs, slots, gd)
  {
    var p :| IsBijection(xs, ys, p, gd);
    ShuffleKeepsContents(ys, p);
    slots := Shuffled(ys, p);
  }

  lemma LaidOutFits(xs: seq<string>, slots: seq<string>, ys: seq<string>, gd: GameDef)
    requires multiset(slots) == multiset(ys) && LaidOut(xs, slots, gd)
    ensures Fits(xs, ys, gd)
  {
    var p := SameContentsShuffled(ys, slots);
    forall i | 0 <= i < |xs| ensures Matches(xs[i], ys[p[i]], gd) {
      assert Shuffled(ys, p)[i] == slots[i];
    }
    assert |xs| == |ys| by { assert |multiset(slots)| == |multiset(ys)|; }
    assert IsBijection(xs, ys, p, gd);
  }

  /** Neither the order of the inputs nor that of the slots matters. */
  lemma FitsIgnoresOrder(xs: seq<string>, ys: seq<string>, xs': seq<string>, ys': seq<string>, gd: GameDef)
    requires Fits(xs, ys, gd)
    requires multiset(xs) == multiset(xs') && multiset(ys) == multiset(ys')
    ensures Fits(xs', ys', gd)
  {
    var slots := LayOut(xs, ys, gd);
    var p := SameContentsShuffled(xs, xs');
    var slots' := Shuffled(slots, p);
    ShuffleKeepsContents(slots, p);
    forall i | 0 <= i < |xs'| ensures Matches(xs'[i], slots'[i], gd) {
      assert Shuffled(xs, p)[i] == xs'[i];
    }
    LaidOutFits(xs', slots', ys', gd);
  }

  /** Slots that are not groups can be served first, by exact name: whatever is left of the input
      (`rest`) must then fit the remaining slots. */
  lemma {:induction false} PrefilterKeepsTheAnswer(xs: seq<string>, plain: seq<string>, groups: seq<string>,
                                                   rest: seq<string>, gd: GameDef)
    requires !HasGroup(plain)
    requires multiset(rest) == multiset(xs) - multiset(plain)
    ensures Fits(xs, plain + groups, gd) <==> multiset(plain) <= multiset(xs) && Fits(rest, groups, gd)
  {
    if Fits(xs, plain + groups, gd) {
      PlainSlotsTakeTheirNames(xs, plain, groups, rest, gd);
    }
    if multiset(plain) <= multiset(xs) && Fits(rest, groups, gd) {
      var slots := LayOut(rest, groups, gd);
      LaidOutFits(plain + rest, plain + slots, plain + groups, gd);
      FitsIgnoresOrder(plain + rest, plain + groups, xs, plain + groups, gd);
    }
  }

  lemma {:induction false} PlainSlotsTakeTheirNames(xs: seq<string>, plain: seq<string>, groups: seq<string>,
                                                    rest: seq<string>, gd: GameDef)
    requires !HasGroup(plain)
    requires multiset(rest) == multiset(xs) - multiset(plain)
    requires Fits(xs, plain + groups, gd)
    ensures multiset(plain) <= multiset(xs) && Fits(rest, groups, gd)
    decreases |plain|
  {
    if plain == [] {
      assert plain + groups == groups;
      FitsIgnoresOrder(xs, groups, rest, groups, gd);
    } else {
      var tail := plain[1..];
      assert plain == [plain[0]] + tail;
      assert !IsGroup(plain[0]) && !HasGroup(tail);
      assert plain + groups == [plain[0]] + (tail + groups);
      var k := ServedByName(xs, plain[0], tail + groups, gd);
      WithoutCount(xs, k);
      CountsWithoutOne(multiset(xs), multiset(Without(xs, k)), multiset(plain), multiset(tail), plain[0]);
      PlainSlotsTakeTheirNames(Without(xs, k), tail, groups, rest, gd);
    }
  }

  /** A slot that is not a group is served by an input of exactly its name; both can be taken away. */
  lemma ServedByName(xs: seq<string>, slot: string, others: seq<string>, gd: GameDef) returns (k: nat)
    requires Fits(xs, [slot] + others, gd) && !IsGroup(slot)
    ensures k < |xs| && xs[k] == slot && Fits(Without(xs, k), others, gd)
  {
    var slots := LayOut(xs, [slot] + others, gd);
    assert slot in multiset(slots);
    k :| 0 <= k < |slots| && slots[k] == slot;
    assert Matches(xs[k], slots[k], gd);
    WithoutCount(slots, k);
    assert multiset([slot] + others) == multiset(others) + multiset{slot};
    CancelOne(multiset(Without(slots, k)), multiset(others), slot);
    forall i | 0 <= i < |xs| - 1 ensures Matches(Without(xs, k)[i], Without(slots, k)[i], gd) {
      var j := if i < k then i else i + 1;
      assert Matches(xs[j], slots[j], gd);
    }
    LaidOutFits(Without(xs, k), Without(slots, k), others, gd);
  }

  lemma CountsWithoutOne<T>(a: multiset<T>, a': multiset<T>, b: multiset<T>, b': multiset<T>, x: T)
    requires a == a' + multiset{x} && b == multiset{x} + b'
    ensures a - b == a' - b'
    ensures b <= a <==> b' <= a'
  {
  }
}
