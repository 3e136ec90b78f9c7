/**
 Path strings (src/filesys.cpp), as on a POSIX system: removing "." and ".." in place, removing the
 last components, and testing for a prefix.
 */
module Paths {
  import opened Wrappers

  const DIR_DELIM: char := '/'

  predicate IsDirDelimiter(c: char) {
    c == '/' || c == DIR_DELIM
  }

  // ---------------------------------------------------------------- components

  predicate AllDelims(s: string) {
    forall i :: 0 <= i < |s| ==> IsDirDelimiter(s[i])
  }

  predicate NoDelims(s: string) {
    forall i :: 0 <= i < |s| ==> !IsDirDelimiter(s[i])
  }

  predicate EndsComponent(s: string) {
    s != "" && !IsDirDelimiter(s[|s| - 1])
  }

  predicate StartsComponent(s: string) {
    s != "" && !IsDirDelimiter(s[0])
  }

  /** The non-empty stretches between delimiters. */
  function Components(s: string): (r: seq<string>)
    ensures EndsComponent(s) ==> r != []
  {
    if s == "" then []
    else
      var n := |s| - 1;
      var before := Components(s[..n]);
      if IsDirDelimiter(s[n]) then before
      else if !EndsComponent(s[..n]) then before + [[s[n]]]
      else before[..|before| - 1] + [before[|before| - 1] + [s[n]]]
  }

  /** Strings that meet at a delimiter have their components side by side. */
  lemma {:induction false} ComponentsOfBoth(s: string, t: string)
    requires !EndsComponent(s) || !StartsComponent(t)
    ensures Components(s + t) == Components(s) + Components(t)
  {
    hide *;
    if t == "" {
      NoComponents();
      assert s + t == s && Components(s) + [] == Components(s);
    } else {
      var front, c := t[..|t| - 1], t[|t| - 1];
      StillBoundary(s, t);
      ComponentsOfBoth(s, front);
      ExtendBoth(Components(s), Components(front), c);
      EndsAlike(s, front);
      if front == "" {
        NoComponents();
        DelimiterAlone(Components(s), t);
      }
      ComponentsNext(front, c);
      ComponentsNext(s + front, c);
      assert t == front + [c] && s + t == (s + front) + [c];
    }
  }

  lemma NoComponents()
    ensures Components("") == []
  {
  }

  lemma StillBoundary(s: string, t: string)
    requires t != "" && (!EndsComponent(s) || !StartsComponent(t))
    ensures !EndsComponent(s) || !StartsComponent(t[..|t| - 1])
  {
  }

  lemma DelimiterAlone(a: seq<string>, t: string)
    requires |t| == 1
    ensures !EndsComponent("")
    ensures !StartsComponent(t) && a != [] ==> Extended(a, true, t[0]) == a
    ensures !StartsComponent(t) ==> Extended(a, false, t[0]) == a && Extended([], false, t[0]) == []
  {
  }

  /** After the last character of `front`, or of `s` when `front` is empty. */
  lemma EndsAlike(s: string, front: string)
    ensures if front == "" then s + front == s else EndsComponent(s + front) <==> EndsComponent(front)
  {
  }

  /** The components when one more character follows. */
  function Extended(cs: seq<string>, open: bool, c: char): seq<string>
    requires open ==> cs != []
  {
    if IsDirDelimiter(c) then cs
    else if !open then cs + [[c]]
    else cs[..|cs| - 1] + [cs[|cs| - 1] + [c]]
  }

  lemma ComponentsNext(s: string, c: char)
    ensures Components(s + [c]) == Extended(Components(s), EndsComponent(s), c)
  {
    assert (s + [c])[..|s|] == s;
  }

  lemma ExtendBoth(a: seq<string>, b: seq<string>, c: char)
    ensures Extended(a + b, false, c) == a + Extended(b, false, c)
    ensures b != [] ==> Extended(a + b, true, c) == a + Extended(b, true, c)
  {
  }

  lemma {:induction false} DelimsHaveNone(s: string)
    requires AllDelims(s)
    ensures Components(s) == []
  {
    if s != "" {
      DelimsHaveNone(s[..|s| - 1]);
    }
  }

  lemma {:induction false} WholeComponent(w: string)
    requires w != "" && NoDelims(w)
    ensures Components(w) == [w]
  {
    var n := |w| - 1;
    if n > 0 {
      WholeComponent(w[..n]);
    }
    assert w == w[..n] + [w[n]];
  }

  /** A path that ends in the component `w` and delimiters `d`. */
  lemma LastComponent(a: string, w: string, d: string)
    requires !EndsComponent(a) && NoDelims(w) && AllDelims(d)
    ensures Components(a + w + d) == Components(a) + if w == "" then [] else [w]
  {
    ComponentsOfBoth(a, w);
    ComponentsOfBoth(a + w, d);
    DelimsHaveNone(d);
    if w != "" {
      WholeComponent(w);
    }
  }

  // ---------------------------------------------------------------- normalisation

  predicate IsDot(c: string) {
    c == "."
  }

  predicate IsDotDot(c: string) {
    c == ".."
  }

  predicate IsDots(c: string) {
    IsDot(c) || IsDotDot(c)
  }

  /** Left to right: "." is skipped, ".." takes back the last component and fails if there is none. */
  function Normal(cs: seq<string>): Option<seq<string>> {
    if cs == [] then Some([])
    else
      var n := |cs| - 1;
      match Normal(cs[..n])
      case None => None
      case Some(stack) =>
        if IsDot(cs[n]) then Some(stack)
        else if IsDotDot(cs[n]) then if stack == [] then None else Some(stack[..|stack| - 1])
        else Some(stack + [cs[n]])
  }

  /** Right to left: what is kept when `dotdots` components are to be taken back, and how many are missing. */
  function Backwards(cs: seq<string>, dotdots: nat): (seq<string>, nat) {
    if cs == [] then ([], dotdots)
    else
      var n := |cs| - 1;
      if IsDot(cs[n]) then Backwards(cs[..n], dotdots)
      else if IsDotDot(cs[n]) then Backwards(cs[..n], dotdots + 1)
      else if dotdots > 0 then Backwards(cs[..n], dotdots - 1)
      else
        var (kept, missing) := Backwards(cs[..n], 0);
        (kept + [cs[n]], missing)
  }

  /** Counting from the right keeps what the stack from the left keeps, and fails where it fails. */
  lemma {:induction false} BackwardsIsNormal(cs: seq<string>, dotdots: nat)
    ensures match Normal(cs)
      case None => Backwards(cs, dotdots).1 > 0
      case Some(stack) =>
        if dotdots <= |stack| then Backwards(cs, dotdots) == (stack[..|stack| - dotdots], 0)
        else Backwards(cs, dotdots).1 > 0
  {
    hide IsDot, IsDotDot;
    if cs != [] {
      var n := |cs| - 1;
      if IsDot(cs[n]) {
        BackwardsIsNormal(cs[..n], dotdots);
      } else if IsDotDot(cs[n]) {
        BackwardsIsNormal(cs[..n], dotdots + 1);
        if Normal(cs[..n]).Some? && dotdots + 1 <= |Normal(cs[..n]).value| {
          var s := Normal(cs[..n]).value;
          assert s[..|s| - 1][..|s| - 1 - dotdots] == s[..|s| - (dotdots + 1)];
        }
      } else if dotdots > 0 {
        BackwardsIsNormal(cs[..n], dotdots - 1);
        if Normal(cs).Some? {
          var s, k := Normal(cs[..n]).value, |Normal(cs[..n]).value| + 1 - dotdots;
          assert 0 <= k ==> (s + [cs[n]])[..k] == s[..k];
        }
      } else {
        BackwardsIsNormal(cs[..n], 0);
        if Normal(cs[..n]).Some? {
          var s := Normal(cs[..n]).value;
          assert s[..|s|] == s && (s + [cs[n]])[..|s| + 1] == s + [cs[n]];
        }
      }
    }
  }

  lemma {:induction false} NormalHasNoDots(cs: seq<string>)
    ensures Normal(cs).Some? ==> HasNoDots(Normal(cs).value)
  {
    hide IsDot, IsDotDot;
    if cs != [] {
      NormalHasNoDots(cs[..|cs| - 1]);
    }
  }

  lemma {:induction false} NormalOfNormal(cs: seq<string>)
    requires HasNoDots(cs)
    ensures Normal(cs) == Some(cs)
  {
    hide IsDot, IsDotDot;
    if cs != [] {
      var n := |cs| - 1;
      NormalOfNormal(cs[..n]);
      assert cs[n] in cs && !IsDots(cs[n]);
      assert cs == cs[..n] + [cs[n]];
    }
  }

  function Trimmed(s: string): (r: string)
    ensures !(r != "" && IsDirDelimiter(r[|r| - 1]))
  {
    if s != "" && IsDirDelimiter(s[|s| - 1]) then Trimmed(s[..|s| - 1]) else s
  }

  predicate IsAbsolute(s: string) {
    s != "" && IsDirDelimiter(s[0])
  }

  /** What RemoveRelativePathComponents promises of its result. */
  ghost predicate Normalises(path: string, r: string) {
    match Normal(Components(path))
    case None => r == ""
    case Some(stack) =>
      && Components(r) == stack
      && Trimmed(r) == r
      && (stack != [] ==> IsAbsolute(r) == IsAbsolute(path))
      && (HasNoDots(Components(path)) ==> r == Trimmed(path))
  }

  /** Normalising twice is normalising once. */
  lemma NormalisesOnce(path: string, r: string, r': string)
    requires Normalises(path, r) && Normalises(r, r')
    ensures r' == r
  {
    NormalHasNoDots(Components(path));
    NormalOfNormal(Components(r));
  }

  // ---------------------------------------------------------------- removing "." and ".."

  /** One component less on the right, for the backwards count. */
  function AfterOne(c: string, dotdots: nat): nat {
    if IsDot(c) then dotdots else if IsDotDot(c) then dotdots + 1 else if dotdots > 0 then dotdots - 1 else 0
  }

  predicate Removes(c: string, dotdots: nat) {
    IsDots(c) || dotdots > 0
  }

  /** What is kept of the front, and then the back, is what is kept of the whole path. */
  ghost predicate Accounts(path: string, front: string, back: string, dotdots: nat) {
    var (kept, missing) := Backwards(Components(front), dotdots);
    Backwards(Components(path), 0) == (kept + Components(back), missing)
  }

  predicate Rooted(path: string, front: string, back: string) {
    && (front != "" ==> IsAbsolute(front) == IsAbsolute(path))
    && (front == "" && back != "" ==> IsAbsolute(back) == IsAbsolute(path))
  }

  predicate Parted(front: string, back: string) {
    front != "" && back != "" ==> !EndsComponent(front) && StartsComponent(back)
  }

  predicate Armed(front: string, dotdots: nat) {
    dotdots > 0 && front != "" ==> |front| >= 2 && EndsComponent(front[..|front| - 1])
  }

  predicate HasNoDots(cs: seq<string>) {
    forall c :: c in cs ==> !IsDots(c)
  }

  /**
   The scan has still to look at `front`; `back` is done, and `dotdots` components are to be taken
   back from the front.
   */
  ghost predicate Scanned(path: string, front: string, back: string, dotdots: nat) {
    && Accounts(path, front, back, dotdots)
    && Rooted(path, front, back)
    && Parted(front, back)
    && Armed(front, dotdots)
    && (HasNoDots(Components(path)) ==> front + back == path && dotdots == 0)
  }

  /** The front split into what is before a component, the component, and the delimiters after it. */
  ghost predicate Splits(front: string, a: string, w: string, d: string) {
    front == a + w + d && !EndsComponent(a) && NoDelims(w) && AllDelims(d) && (w == "" ==> a == "")
  }

  lemma ScanStarts(path: string)
    ensures Scanned(path, path, "", 0)
  {
    assert path + "" == path;
    var (kept, missing) := Backwards(Components(path), 0);
    assert kept + [] == kept;
  }

  lemma BackwardsNext(cs: seq<string>, w: string, dotdots: nat)
    ensures Removes(w, dotdots) ==> Backwards(cs + [w], dotdots) == Backwards(cs, AfterOne(w, dotdots))
    ensures !Removes(w, dotdots) ==> var (kept, missing) := Backwards(cs, 0);
      Backwards(cs + [w], dotdots) == (kept + [w], missing)
  {
    hide IsDot, IsDotDot;
    assert (cs + [w])[..|cs|] == cs;
    NotBothDots(w);
  }

  lemma NotBothDots(w: string)
    ensures !(IsDot(w) && IsDotDot(w))
  {
  }

  /** A component and the delimiters after it, moved to what lies behind. */
  lemma MovedComponent(w: string, d: string, back: string)
    requires NoDelims(w) && AllDelims(d) && (d != "" || !StartsComponent(back) || w == "")
    ensures Components(w + d + back) == (if w == "" then [] else [w]) + Components(back)
  {
    LastComponent("", w, d);
    assert "" + w + d == w + d;
    ComponentsOfBoth(w + d, back);
  }

  /** Behind a component that ends the front, nothing goes on. */
  lemma NotSplit(front: string, a: string, w: string, d: string, back: string)
    requires front == a + w + d && NoDelims(w) && (EndsComponent(front) ==> !StartsComponent(back))
    ensures d != "" || !StartsComponent(back) || w == ""
  {
    if d == "" && w != "" {
      assert front[|front| - 1] == w[|w| - 1];
    }
  }

  lemma KeepBackwards(path: string, front: string, back: string, a: string, w: string, d: string)
    requires Scanned(path, front, back, 0) && Splits(front, a, w, d) && !IsDots(w)
    ensures var (kept, missing) := Backwards(Components(a), 0);
      Backwards(Components(path), 0) == (kept + Components(w + d + back), missing)
  {
    assert Components("") == [];
    assert Accounts(path, front, back, 0);
    hide Components, Backwards, IsDots, EndsComponent, StartsComponent, NoDelims, AllDelims;
    assert EndsComponent(front) ==> !StartsComponent(back) by {
      EmptyEnds();
    }
    LastComponent(a, w, d);
    NotSplit(front, a, w, d, back);
    MovedComponent(w, d, back);
    assert [] + Components(back) == Components(back) && Components(a) + [] == Components(a);
    KeptChain(Components(path), Components(front), Components(back), Components(a), w, Components(w + d + back));
  }

  lemma EmptyEnds()
    ensures !EndsComponent("") && !StartsComponent("")
  {
  }

  lemma KeptChain(path: seq<string>, front: seq<string>, back: seq<string>, a: seq<string>, w: string,
    result: seq<string>)
    requires var (kept, missing) := Backwards(front, 0); Backwards(path, 0) == (kept + back, missing)
    requires !IsDots(w)
    requires if w == "" then front == a && result == back else front == a + [w] && result == [w] + back
    ensures var (kept, missing) := Backwards(a, 0); Backwards(path, 0) == (kept + result, missing)
  {
    hide Backwards;
    NotRemoved(w);
    BackwardsNext(a, w, 0);
    hide *;
    Regrouped(Backwards(a, 0).0, [w], back);
  }

  lemma NotRemoved(w: string)
    requires !IsDots(w)
    ensures w != "" ==> !Removes(w, 0)
  {
  }

  lemma Regrouped<T>(a: seq<T>, b: seq<T>, c: seq<T>)
    ensures (a + b) + c == a + (b + c)
  {
  }

  lemma KeepRoots(path: string, front: string, back: string, a: string, w: string, d: string)
    requires Rooted(path, front, back) && Splits(front, a, w, d) && front != ""
    ensures Rooted(path, a, w + d + back) && Parted(a, w + d + back) && a + (w + d + back) == front + back
  {
    assert a + (w + d + back) == front + back;
    assert a != "" ==> front[0] == a[0];
    assert a == "" ==> front == w + d;
    assert a == "" ==> (w + d + back)[0] == front[0];
    assert w != "" ==> (w + d + back)[0] == w[0];
  }

  lemma KeepStep(path: string, front: string, back: string, a: string, w: string, d: string)
    requires Scanned(path, front, back, 0) && Splits(front, a, w, d) && !IsDots(w) && front != ""
    ensures Scanned(path, a, w + d + back, 0)
  {
    KeepBackwards(path, front, back, a, w, d);
    assert Accounts(path, a, w + d + back, 0);
    KeepRoots(path, front, back, a, w, d);
    hide Accounts, Components, IsDots, HasNoDots, Rooted, Parted, Splits, EndsComponent;
  }

  predicate Leads(a: string, a0: string, d0: string) {
    a == a0 + d0 && AllDelims(d0) && (a0 == "" || EndsComponent(a0))
  }

  function FrontAfter(a: string, a0: string): string {
    if a == "" || a0 == "" then "" else a0 + [DIR_DELIM]
  }

  function BackAfter(a: string, a0: string, back: string): string {
    if a == "" then back else if a0 == "" then [DIR_DELIM] + back else back
  }

  lemma RemovedComponents(a: string, a0: string, d0: string, back: string)
    requires Leads(a, a0, d0) && !EndsComponent(a)
    ensures Components(FrontAfter(a, a0)) == Components(a)
    ensures Components(BackAfter(a, a0, back)) == Components(back)
  {
    LastComponent("", "", [DIR_DELIM]);
    assert "" + "" + [DIR_DELIM] == [DIR_DELIM];
    ComponentsOfBoth([DIR_DELIM], back);
    ComponentsOfBoth(a0, [DIR_DELIM]);
    ComponentsOfBoth(a0, d0);
    DelimsHaveNone(d0);
    assert a0 == "" ==> a == d0;
    hide Components, EndsComponent, StartsComponent;
    assert [] + Components(back) == Components(back);
  }

  lemma RemovedAccounts(path: string, front: string, back: string, dotdots: nat,
    a: string, w: string, d: string, front': string, back': string)
    requires Accounts(path, front, back, dotdots) && Splits(front, a, w, d) && w != "" && Removes(w, dotdots)
    requires Components(front') == Components(a) && Components(back') == Components(back)
    ensures Accounts(path, front', back', AfterOne(w, dotdots))
  {
    LastComponent(a, w, d);
    BackwardsNext(Components(a), w, dotdots);
    hide Components, Backwards, AfterOne, Removes;
  }

  lemma ComponentOfPath(front: string, back: string, a: string, w: string, d: string)
    requires Parted(front, back) && Splits(front, a, w, d) && w != ""
    ensures w in Components(front + back)
  {
    LastComponent(a, w, d);
    ComponentsOfBoth(front, back);
    hide Components;
    assert Components(front)[|Components(a)|] == w;
  }

  /** Without dots in the path no component is removed. */
  lemma RemovedIsDots(path: string, front: string, back: string, dotdots: nat, a: string, w: string, d: string)
    requires Scanned(path, front, back, dotdots) && Splits(front, a, w, d) && w != "" && Removes(w, dotdots)
    ensures !HasNoDots(Components(path))
  {
    ComponentOfPath(front, back, a, w, d);
    hide Components, IsDots;
  }

  /** Where components are still to be taken back, the front has one. */
  lemma ArmedHasComponent(front: string, dotdots: nat, a: string, w: string, d: string)
    requires Armed(front, dotdots) && Splits(front, a, w, d) && front != "" && Removes(w, dotdots)
    ensures w != ""
  {
    assert w == "" ==> a + w + d == d;
    assert d != "" ==> |d| == 1 || IsDirDelimiter(d[|d| - 2]);
  }

  lemma RemoveRoots(path: string, front: string, back: string, a: string, w: string, d: string, a0: string, d0: string)
    requires Rooted(path, front, back) && Parted(front, back)
    requires Splits(front, a, w, d) && front != "" && w != "" && Leads(a, a0, d0)
    ensures Rooted(path, FrontAfter(a, a0), BackAfter(a, a0, back))
  {
    assert a == "" ==> front[0] == w[0];
    assert a != "" ==> front[0] == a[0];
    assert a0 != "" ==> a[0] == a0[0];
    hide AllDelims, EndsComponent;
    assert a0 != "" ==> (a0 + [DIR_DELIM])[0] == a0[0];
    assert ([DIR_DELIM] + back)[0] == DIR_DELIM;
    if a != "" && a0 == "" {
      assert IsDirDelimiter(a[0]) by {
        LeadsRoot(a, d0);
      }
    }
  }

  lemma LeadsRoot(a: string, d0: string)
    requires a == "" + d0 && AllDelims(d0) && a != ""
    ensures IsDirDelimiter(a[0])
  {
  }

  lemma RemoveArms(front: string, back: string, a: string, a0: string, d0: string, dotdots: nat)
    requires Parted(front, back) && front != "" && Leads(a, a0, d0)
    ensures Parted(FrontAfter(a, a0), BackAfter(a, a0, back)) && Armed(FrontAfter(a, a0), dotdots)
  {
    assert a0 != "" ==> (a0 + [DIR_DELIM])[..|a0|] == a0;
  }

  lemma RemoveStep(path: string, front: string, back: string, dotdots: nat,
    a: string, w: string, d: string, a0: string, d0: string)
    requires Scanned(path, front, back, dotdots) && Splits(front, a, w, d) && front != "" && Removes(w, dotdots)
    requires Leads(a, a0, d0)
    ensures Scanned(path, FrontAfter(a, a0), BackAfter(a, a0, back), AfterOne(w, dotdots))
    ensures w != ""
  {
    hide Accounts, Components, AfterOne, Removes, HasNoDots, Rooted, Parted, Armed, FrontAfter, BackAfter, Leads;
    ArmedHasComponent(front, dotdots, a, w, d);
    RemovedComponents(a, a0, d0, back);
    RemovedAccounts(path, front, back, dotdots, a, w, d, FrontAfter(a, a0), BackAfter(a, a0, back));
    RemovedIsDots(path, front, back, dotdots, a, w, d);
    RemoveRoots(path, front, back, a, w, d, a0, d0);
    RemoveArms(front, back, a, a0, d0, AfterOne(w, dotdots));
  }

  lemma {:induction false} TrimmedKeeps(s: string)
    ensures Components(Trimmed(s)) == Components(s)
    ensures Trimmed(Trimmed(s)) == Trimmed(s)
    ensures Components(s) != [] ==> IsAbsolute(Trimmed(s)) == IsAbsolute(s)
  {
    if s != "" && IsDirDelimiter(s[|s| - 1]) {
      TrimmedKeeps(s[..|s| - 1]);
    }
  }

  lemma ScanEnds(path: string, back: string, dotdots: nat)
    requires Scanned(path, "", back, dotdots)
    ensures Normalises(path, if dotdots > 0 then "" else Trimmed(back))
  {
    var cs := Components(path);
    BackwardsIsNormal(cs, 0);
    assert Backwards(Components(""), dotdots) == ([], dotdots);
    TrimmedKeeps(back);
    assert [] + Components(back) == Components(back);
    assert "" + back == back;
    assert Components("") == [];
    hide Components, Normal, Trimmed, HasNoDots;
    assert Backwards(cs, 0) == (Components(back), dotdots);
    if Normal(cs).Some? {
      var stack := Normal(cs).value;
      assert stack[..|stack| - 0] == stack;
    }
  }

  // ---------------------------------------------------------------- the path routines

  method SkipDelimitersBack(path: string, end: nat) returns (pos: nat)
    requires end <= |path|
    ensures pos <= end && AllDelims(path[pos..end])
    ensures pos != 0 ==> !IsDirDelimiter(path[pos - 1])
  {
    pos := end;
    while pos != 0 && IsDirDelimiter(path[pos - 1])
      invariant pos <= end && AllDelims(path[pos..end])
    {
      pos := pos - 1;
    }
  }

  method SkipComponentBack(path: string, end: nat) returns (pos: nat)
    requires end <= |path|
    ensures pos <= end && NoDelims(path[pos..end])
    ensures pos != 0 ==> IsDirDelimiter(path[pos - 1])
  {
    pos := end;
    while pos != 0 && !IsDirDelimiter(path[pos - 1])
      invariant pos <= end && NoDelims(path[pos..end])
    {
      pos := pos - 1;
    }
  }

  lemma FrontSplits(p: string, end: nat, componentStart: nat, componentEnd: nat)
    requires componentStart <= componentEnd <= end <= |p|
    requires AllDelims(p[componentEnd..end]) && NoDelims(p[componentStart..componentEnd])
    requires componentEnd != 0 ==> !IsDirDelimiter(p[componentEnd - 1])
    requires componentStart != 0 ==> IsDirDelimiter(p[componentStart - 1])
    ensures Splits(p[..end], p[..componentStart], p[componentStart..componentEnd], p[componentEnd..end])
  {
    assert p[..end] == p[..componentStart] + p[componentStart..componentEnd] + p[componentEnd..end];
  }

  lemma FrontLeads(p: string, end: nat, pos: nat)
    requires pos <= end <= |p| && AllDelims(p[pos..end])
    requires pos != 0 ==> !IsDirDelimiter(p[pos - 1])
    ensures Leads(p[..end], p[..pos], p[pos..end])
  {
    assert p[..end] == p[..pos] + p[pos..end];
  }

  lemma FrontShrinks(p: string, end: nat, pos: nat)
    requires pos <= end <= |p| && (end != 0 ==> IsDirDelimiter(p[end - 1]))
    requires pos != 0 ==> !IsDirDelimiter(p[pos - 1])
    ensures end != 0 ==> pos < end
    ensures FrontAfter(p[..end], p[..pos]) == if end == 0 || pos == 0 then "" else p[..pos] + [DIR_DELIM]
    ensures forall back :: BackAfter(p[..end], p[..pos], back) == if end == 0 || pos > 0 then back
            else [DIR_DELIM] + back
  {
    assert end == 0 <==> p[..end] == "";
    assert pos == 0 <==> p[..pos] == "";
  }

  lemma {:induction false} TrimmedIs(p: string, pos: nat)
    requires pos <= |p| && AllDelims(p[pos..])
    requires pos != 0 ==> !IsDirDelimiter(p[pos - 1])
    ensures Trimmed(p) == p[..pos]
  {
    if pos < |p| {
      var n := |p| - 1;
      assert p[n] == p[pos..][n - pos];
      assert p[..n][pos..] == p[pos..][..n - pos];
      TrimmedIs(p[..n], pos);
      assert p[..n][..pos] == p[..pos];
    } else {
      assert p[..pos] == p;
    }
  }

  lemma KeptShrinks(front: string, a: string, w: string, d: string)
    requires front == a + w + d && Splits(front, a, w, d) && front != ""
    ensures |a| < |front|
  {
  }

  /** Cuts a component out of the path, with the delimiters on one side of it. */
  method RemoveComponent(path: string, start: nat, end: nat)
    returns (p: string, pos: nat, ghost a0: string, ghost d0: string)
    requires start <= end <= |path| && (start != 0 ==> IsDirDelimiter(path[start - 1]))
    ensures Leads(path[..start], a0, d0)
    ensures p == FrontAfter(path[..start], a0) + BackAfter(path[..start], a0, path[end..])
    ensures pos == |FrontAfter(path[..start], a0)| <= start
  {
    hide Leads, AllDelims;
    pos := SkipDelimitersBack(path, start);
    a0, d0 := path[..pos], path[pos..start];
    FrontLeads(path, start, pos);
    FrontShrinks(path, start, pos);
    hide FrontAfter, BackAfter;
    if start == 0 {
      p := path[end..];
    } else {
      p := path[..pos] + [DIR_DELIM] + path[end..];
    }
    if pos > 0 {
      pos := pos + 1;
    }
  }

  lemma SlicesBack(s: string, t: string)
    ensures (s + t)[..|s|] == s && (s + t)[|s|..] == t
  {
  }

  method CountDots(component: string, before: nat) returns (remove: bool, dotdotCount: nat)
    ensures remove == Removes(component, before) && dotdotCount == AfterOne(component, before)
    ensures !remove ==> !IsDots(component) && before == dotdotCount == 0
  {
    remove, dotdotCount := false, before;
    if component == "." {
      remove := true;
    } else if component == ".." {
      remove := true;
      dotdotCount := dotdotCount + 1;
    } else if dotdotCount != 0 {
      remove := true;
      dotdotCount := dotdotCount - 1;
    }
  }

  method RemoveRelativePathComponents(path: string) returns (r: string)
    ensures Normalises(path, r)
  {
    hide *;
    var p, pos, dotdotCount: nat := path, |path|, 0;
    ghost var front, back := path, "";
    ScanStarts(path);
    while pos != 0
      invariant pos == |front| && p == front + back
      invariant Scanned(path, front, back, dotdotCount)
      decreases pos
    {
      var withDelimEnd := pos;
      var componentEnd := SkipDelimitersBack(p, pos);
      var componentStart := SkipComponentBack(p, componentEnd);
      pos := componentStart;
      var component := p[componentStart..componentEnd];
      SlicesBack(front, back);
      FrontSplits(p, withDelimEnd, componentStart, componentEnd);
      ghost var a, d, before := p[..componentStart], p[componentEnd..withDelimEnd], dotdotCount;
      var remove;
      remove, dotdotCount := CountDots(component, dotdotCount);
      if remove {
        ghost var a0, d0;
        p, pos, a0, d0 := RemoveComponent(p, componentStart, withDelimEnd);
        RemoveStep(path, front, back, before, a, component, d, a0, d0);
        KeptShrinks(front, a, component, d);
        front, back := FrontAfter(a, a0), BackAfter(a, a0, back);
      } else {
        KeepStep(path, front, back, a, component, d);
        KeptShrinks(front, a, component, d);
        front, back := a, component + d + back;
      }
    }
    assert front == "" && p == back;
    ScanEnds(path, back, dotdotCount);
    if dotdotCount > 0 {
      return "";
    }
    pos := SkipDelimitersBack(p, |p|);
    TrimmedIs(p, pos);
    r := p[..pos];
  }

  /** After `i` rounds the last `i` components, or all, have been moved. */
  ghost predicate Dropped(cs: seq<string>, left: seq<string>, removed: seq<string>, i: nat) {
    var n := if i <= |cs| then |cs| - i else 0;
    left == cs[..n] && removed == cs[n..]
  }

  lemma DropStep(cs: seq<string>, left: seq<string>, removed: seq<string>, i: nat, w: string, left': seq<string>)
    requires Dropped(cs, left, removed, i)
    requires if w == "" then left == [] && left' == [] else left == left' + [w]
    ensures Dropped(cs, left', (if w == "" then [] else [w]) + removed, i + 1)
  {
    if w == "" {
      assert [] + removed == removed;
    } else {
      var n := |cs| - i;
      assert cs[n - 1] == left[n - 1] == w;
      assert cs[n - 1..] == [w] + cs[n..];
      assert left' == left[..n - 1];
    }
  }

  lemma DroppedFront(front: string, a: string, w: string, d: string, a0: string, d0: string)
    requires Splits(front, a, w, d) && Leads(a, a0, d0)
    ensures if w == "" then Components(front) == [] && Components(a0) == []
      else Components(front) == Components(a0) + [w]
    ensures Trimmed(a0) == a0
  {
    LastComponent(a, w, d);
    ComponentsOfBoth(a0, d0);
    DelimsHaveNone(d0);
    assert w == "" ==> a == "" && a0 == "";
    assert Components(a0) + [] == Components(a0);
  }

  /** RemoveLastPathComponent: drops up to `count` components from the end, and says which. */
  method RemoveLastPathComponent(path: string, count: nat) returns (r: string, removed: string)
    ensures r <= path && (count > 0 ==> Trimmed(r) == r)
    ensures Dropped(Components(path), Components(r), Components(removed), count)
  {
    hide *;
    removed := "";
    var remaining: nat := |path|;
    ghost var cs := Components(path);
    assert path[..|path|] == path && cs[..|cs|] == cs;
    DropStarts(cs);
    for i := 0 to count
      invariant remaining <= |path|
      invariant Dropped(cs, Components(path[..remaining]), Components(removed), i)
      invariant i == 0 ==> removed == ""
      invariant i > 0 ==> Trimmed(path[..remaining]) == path[..remaining]
    {
      var componentEnd := SkipDelimitersBack(path, remaining);
      var componentStart := SkipComponentBack(path, componentEnd);
      var next := SkipDelimitersBack(path, componentStart);
      var component := path[componentStart..componentEnd];
      FrontSplits(path, remaining, componentStart, componentEnd);
      FrontLeads(path, componentStart, next);
      DroppedFront(path[..remaining], path[..componentStart], component, path[componentEnd..remaining],
        path[..next], path[next..componentStart]);
      DropStep(cs, Components(path[..remaining]), Components(removed), i, component, Components(path[..next]));
      PrependedComponent(component, removed);
      if i > 0 {
        removed := component + [DIR_DELIM] + removed;
      } else {
        removed := component;
      }
      remaining := next;
    }
    r := path[..remaining];
  }

  lemma DropStarts(cs: seq<string>)
    ensures Dropped(cs, cs, Components(""), 0)
  {
    assert cs[..|cs|] == cs;
  }

  lemma PrependedComponent(w: string, removed: string)
    requires NoDelims(w)
    ensures Components(w + [DIR_DELIM] + removed) == (if w == "" then [] else [w]) + Components(removed)
    ensures removed == "" ==> Components(w) == (if w == "" then [] else [w]) + Components(removed)
  {
    MovedComponent(w, [DIR_DELIM], removed);
    if w != "" {
      WholeComponent(w);
    }
  }

  // ---------------------------------------------------------------- prefixes

  predicate AtBoundary(s: string) {
    s == "" || IsDirDelimiter(s[0])
  }

  /** `path` lies at or below `prefix`, and both are absolute or empty, or both are relative. */
  ghost predicate StartsWith(path: string, prefix: string) {
    AtBoundary(path) == AtBoundary(prefix) && Components(prefix) <= Components(path)
  }

  lemma {:induction false} FirstComponent(s: string) returns (k: nat)
    requires StartsComponent(s)
    ensures 0 < k <= |s| && NoDelims(s[..k]) && AtBoundary(s[k..])
    ensures Components(s) == [s[..k]] + Components(s[k..])
  {
    hide *;
    k := FirstDelimiter(s);
    WholeComponent(s[..k]);
    AtBoundaryStarts(s[k..]);
    ComponentsOfBoth(s[..k], s[k..]);
    Rejoined(s, k);
  }

  lemma FirstDelimiter(s: string) returns (k: nat)
    requires StartsComponent(s)
    ensures 0 < k <= |s| && NoDelims(s[..k]) && s[..k] != "" && AtBoundary(s[k..])
  {
    k := 1;
    while k < |s| && !IsDirDelimiter(s[k])
      invariant 0 < k <= |s| && NoDelims(s[..k])
    {
      k := k + 1;
    }
  }

  lemma AtBoundaryStarts(s: string)
    requires AtBoundary(s)
    ensures !StartsComponent(s)
  {
  }

  lemma Rejoined<T>(s: seq<T>, k: nat)
    requires k <= |s|
    ensures s[..k] + s[k..] == s
  {
  }

  lemma SkippedDelims(s: string, k: nat)
    requires k <= |s| && AllDelims(s[..k])
    ensures Components(s) == Components(s[k..])
  {
    DelimsHaveNone(s[..k]);
    assert !EndsComponent(s[..k]);
    assert s == s[..k] + s[k..];
    hide *;
    ComponentsOfBoth(s[..k], s[k..]);
    assert [] + Components(s[k..]) == Components(s[k..]);
  }

  /** Both at a delimiter: the runs of delimiters may have any length. */
  lemma BoundarySkipped(path: string, prefix: string, i: nat, j: nat)
    requires i <= |path| && j <= |prefix| && AllDelims(path[..i]) && AllDelims(prefix[..j])
    requires AtBoundary(path) && AtBoundary(prefix)
    requires i < |path| ==> !IsDirDelimiter(path[i])
    requires j < |prefix| ==> !IsDirDelimiter(prefix[j])
    ensures j == |prefix| ==> StartsWith(path, prefix)
    ensures j < |prefix| && i == |path| ==> !StartsWith(path, prefix)
    ensures j < |prefix| && i < |path| ==> StartsWith(path, prefix) == StartsWith(path[i..], prefix[j..])
  {
    SkippedDelims(path, i);
    SkippedDelims(prefix, j);
    if j < |prefix| {
      var k := FirstComponent(prefix[j..]);
    }
    if i == |path| {
      DelimsHaveNone(path[..i]);
      assert path[i..] == "";
    }
    if j == |prefix| {
      assert prefix[j..] == "" && Components("") == [];
    }
    hide Components;
  }

  lemma FirstReaches(s: string, n: nat, k: nat)
    requires n <= |s| && NoDelims(s[..n]) && 0 < k <= |s| && NoDelims(s[..k]) && AtBoundary(s[k..])
    ensures n <= k && (n < k <==> !AtBoundary(s[n..]))
  {
    forall t | 0 <= t < n
      ensures !IsDirDelimiter(s[t])
    {
      assert s[..n][t] == s[t];
    }
    forall t | 0 <= t < k
      ensures !IsDirDelimiter(s[t])
    {
      assert s[..k][t] == s[t];
    }
  }

  lemma PrefixOfBoth<T>(x: T, a: seq<T>, y: T, b: seq<T>)
    ensures [x] + a <= [y] + b <==> x == y && a <= b
  {
    if [x] + a <= [y] + b {
      assert ([x] + a)[0] == ([y] + b)[0];
      assert ([x] + a)[1..] == a && ([y] + b)[1..] == b;
    }
  }

  predicate Stretch(path: string, prefix: string, n: nat) {
    n <= |path| && n <= |prefix| && path[..n] == prefix[..n] && NoDelims(path[..n])
  }

  lemma StretchStarts(path: string, prefix: string)
    ensures Stretch(path, prefix, 0)
  {
  }

  lemma StretchGrows(path: string, prefix: string, n: nat)
    requires Stretch(path, prefix, n) && n < |path| && n < |prefix|
    requires path[n] == prefix[n] && !IsDirDelimiter(path[n])
    ensures Stretch(path, prefix, n + 1)
  {
    assert path[..n + 1] == path[..n] + [path[n]] && prefix[..n + 1] == prefix[..n] + [prefix[n]];
  }

  lemma NotBothBoundaries(path: string, prefix: string)
    requires AtBoundary(path) != AtBoundary(prefix)
    ensures !StartsWith(path, prefix)
  {
  }

  lemma SkippedSame(s: string, start: nat, end: nat)
    requires start <= end <= |s|
    ensures s[start..][..end - start] == s[start..end] && s[start..][end - start..] == s[end..]
    ensures end < |s| ==> s[start..][end - start] == s[end]
  {
  }

  method SkipDelimiters(path: string, start: nat) returns (pos: nat)
    requires start <= |path|
    ensures start <= pos <= |path| && AllDelims(path[start..pos])
    ensures pos < |path| ==> !IsDirDelimiter(path[pos])
    ensures start < |path| && IsDirDelimiter(path[start]) ==> start < pos
  {
    pos := start;
    while pos < |path| && IsDirDelimiter(path[pos])
      invariant start <= pos <= |path| && AllDelims(path[start..pos])
    {
      assert path[start..pos + 1] == path[start..pos] + [path[pos]];
      pos := pos + 1;
    }
  }

  /** The same stretch without delimiters on both sides, up to the end of a component on one of them. */
  lemma StretchMatched(path: string, prefix: string, n: nat)
    requires 0 < n && Stretch(path, prefix, n)
    requires AtBoundary(path[n..]) || AtBoundary(prefix[n..])
    ensures StartsWith(path, prefix) == StartsWith(path[n..], prefix[n..])
  {
    assert path[0] == path[..n][0] && prefix[0] == prefix[..n][0];
    var i := FirstComponent(path);
    var j := FirstComponent(prefix);
    FirstReaches(path, n, i);
    FirstReaches(prefix, n, j);
    PrefixOfBoth(prefix[..j], Components(prefix[j..]), path[..i], Components(path[i..]));
    assert |path[..i]| == i && |prefix[..j]| == j;
    hide Components;
  }

  lemma StretchDiffers(path: string, prefix: string, n: nat)
    requires Stretch(path, prefix, n) && n < |path| && n < |prefix|
    requires !IsDirDelimiter(path[n]) && !IsDirDelimiter(prefix[n]) && path[n] != prefix[n]
    ensures !StartsWith(path, prefix)
  {
    if n > 0 {
      assert path[0] == path[..n][0] && prefix[0] == prefix[..n][0];
    }
    var i := FirstComponent(path);
    var j := FirstComponent(prefix);
    FirstReaches(path, n, i);
    FirstReaches(prefix, n, j);
    PrefixOfBoth(prefix[..j], Components(prefix[j..]), path[..i], Components(path[i..]));
    assert path[..i][n] == path[n] && prefix[..j][n] == prefix[n];
    hide Components;
  }

  /** PathStartsWith */
  method PathStartsWith(path: string, prefix: string) returns (r: bool)
    ensures r == StartsWith(path, prefix)
  {
    hide Components, StartsWith, NoDelims, AllDelims;
    var pathpos: nat, prefixpos: nat := 0, 0;
    assert path[0..] == path && prefix[0..] == prefix;
    while true
      invariant pathpos <= |path| && prefixpos <= |prefix|
      invariant StartsWith(path, prefix) == StartsWith(path[pathpos..], prefix[prefixpos..])
      decreases |path| - pathpos + |prefix| - prefixpos
    {
      var delim1 := pathpos == |path| || IsDirDelimiter(path[pathpos]);
      var delim2 := prefixpos == |prefix| || IsDirDelimiter(prefix[prefixpos]);
      ghost var p, q := path[pathpos..], prefix[prefixpos..];
      assert delim1 == AtBoundary(p) && delim2 == AtBoundary(q);
      if delim1 != delim2 {
        NotBothBoundaries(p, q);
        return false;
      }
      if delim1 {
        var i := SkipDelimiters(path, pathpos);
        var j := SkipDelimiters(prefix, prefixpos);
        SkippedSame(path, pathpos, i);
        SkippedSame(prefix, prefixpos, j);
        BoundarySkipped(p, q, i - pathpos, j - prefixpos);
        pathpos, prefixpos := i, j;
        if prefixpos == |prefix| {
          return true;
        }
        if pathpos == |path| {
          return false;
        }
      } else {
        var len: nat := 0;
        StretchStarts(p, q);
        while true
          invariant pathpos + len <= |path| && prefixpos + len <= |prefix|
          invariant Stretch(p, q, len)
          invariant pathpos + len < |path| && !IsDirDelimiter(path[pathpos + len])
          invariant prefixpos + len < |prefix| && !IsDirDelimiter(prefix[prefixpos + len])
          decreases |path| - len
        {
          var pathchar := path[pathpos + len];
          var prefixchar := prefix[prefixpos + len];
          if pathchar != prefixchar {
            StretchDiffers(p, q, len);
            return false;
          }
          StretchGrows(p, q, len);
          len := len + 1;
          if !(pathpos + len < |path| && !IsDirDelimiter(path[pathpos + len])
            && prefixpos + len < |prefix| && !IsDirDelimiter(prefix[prefixpos + len])) {
            break;
          }
        }
        StretchMatched(p, q, len);
        assert p[len..] == path[pathpos + len..] && q[len..] == prefix[prefixpos + len..];
        pathpos := pathpos + len;
        prefixpos := prefixpos + len;
      }
    }
  }
}
