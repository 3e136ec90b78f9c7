/**
 The crafting definition manager (src/craftdef.cpp, CCraftDefManager): three layers of hash tables,
 searched with increasing collision rate.
 */
module CraftManager {
  import opened Wrappers
  import opened Items
  import opened ItemNames
  import opened CraftDefs
  import opened Translation

  type Layer = map<int, seq<CraftDef>>

  function Lookup(layers: seq<Layer>, kind: nat, hash: int): seq<CraftDef>
    requires kind < |layers|
  {
    if hash in layers[kind] then layers[kind][hash] else []
  }

  /** A definition whose hash has been initialized for `gd`. */
  ghost predicate Hashed(d: CraftDef, gd: GameDef) {
    d.names.Some? && d.Consistent(gd)
  }

  ghost predicate AllHashed(ds: seq<CraftDef>, gd: GameDef) {
    forall i :: 0 <= i < |ds| ==> Hashed(ds[i], gd)
  }

  ghost predicate AllConsistent(ds: seq<CraftDef>, gd: GameDef) {
    forall i :: 0 <= i < |ds| ==> ds[i].Consistent(gd)
  }

  /** The definitions filed in one layer, and those of them with one hash; order is kept. */
  ghost function InLayer(ds: seq<CraftDef>, kind: nat, gd: GameDef): (r: seq<CraftDef>)
    requires AllHashed(ds, gd)
    ensures AllHashed(r, gd)
  {
    if ds == [] then [] else
    var n := |ds| - 1;
    InLayer(ds[..n], kind, gd) + (if ds[n].HashType() == kind then [ds[n]] else [])
  }

  lemma {:induction false} InLayerMembers(ds: seq<CraftDef>, kind: nat, gd: GameDef)
    requires AllHashed(ds, gd)
    ensures forall d :: d in InLayer(ds, kind, gd) ==> d in ds && d.names.Some? && d.HashType() == kind
  {
    if ds != [] {
      InLayerMembers(ds[..|ds| - 1], kind, gd);
    }
  }

  ghost function WithHash(ds: seq<CraftDef>, hash: int, gd: GameDef): (r: seq<CraftDef>)
    requires AllHashed(ds, gd)
    ensures AllHashed(r, gd)
  {
    if ds == [] then [] else
    var n := |ds| - 1;
    WithHash(ds[..n], hash, gd) + (if ds[n].Hash(gd) == hash then [ds[n]] else [])
  }

  // ---------------------------------------------------------------- the plain scan

  function PriorityOf(best: Option<CraftDef>): int {
    if best.Some? then best.value.Priority() else PRIORITY_NO_RECIPE
  }

  ghost function Better(best: Option<CraftDef>, d: CraftDef, input: CraftInput, gd: GameDef): Option<CraftDef> {
    if d.Priority() > PriorityOf(best) && d.Candidate(input, gd) then Some(d) else best
  }

  /** From back to front, keep the first definition of the highest priority. */
  ghost function Scan(ds: seq<CraftDef>, best: Option<CraftDef>, input: CraftInput, gd: GameDef): Option<CraftDef> {
    if ds == [] then best
    else Scan(ds[..|ds| - 1], Better(best, ds[|ds| - 1], input, gd), input, gd)
  }

  /** Every definition is tried; no hash is looked at. */
  ghost function PlainScan(hashed: seq<CraftDef>, pending: seq<CraftDef>, input: CraftInput,
                           gd: GameDef): Option<CraftDef>
    requires AllHashed(hashed, gd)
  {
    Scan(pending,
         Scan(InLayer(hashed, HASH_COUNT, gd),
              Scan(InLayer(hashed, HASH_ITEM_NAMES, gd), None, input, gd), input, gd), input, gd)
  }

  /** What a scan returns: a candidate of the highest priority, and the last such one. */
  lemma {:induction false} ScanPicksTheBest(ds: seq<CraftDef>, best: Option<CraftDef>, input: CraftInput, gd: GameDef)
    ensures var r := Scan(ds, best, input, gd);
            || (r == best && forall i :: 0 <= i < |ds| && ds[i].Candidate(input, gd) ==>
                ds[i].Priority() <= PriorityOf(best))
            || exists k :: 0 <= k < |ds| && r == Some(ds[k]) && IsBest(ds, k, PriorityOf(best), input, gd)
  {
    hide CraftDef.Priority, CraftDef.Candidate;
    if ds != [] {
      var n := |ds| - 1;
      var next := Better(best, ds[n], input, gd);
      ScanPicksTheBest(ds[..n], next, input, gd);
      var r := Scan(ds, best, input, gd);
      if k :| 0 <= k < n && r == Some(ds[..n][k]) && IsBest(ds[..n], k, PriorityOf(next), input, gd) {
        forall i | 0 <= i < |ds| && ds[i].Candidate(input, gd) && i != k
          ensures if i > k then ds[i].Priority() < ds[k].Priority() else ds[i].Priority() <= ds[k].Priority()
        {
          if i < n {
            assert ds[..n][i] == ds[i];
          }
        }
        assert IsBest(ds, k, PriorityOf(best), input, gd);
      } else {
        forall i | 0 <= i < n && ds[i].Candidate(input, gd) ensures ds[i].Priority() <= PriorityOf(next) {
          assert ds[..n][i] == ds[i];
        }
        if next != best {
          assert IsBest(ds, n, PriorityOf(best), input, gd);
        }
      }
    }
  }

  /** `ds[k]` is a candidate above `floor`, no candidate beats it, and none after it equals it. */
  ghost predicate IsBest(ds: seq<CraftDef>, k: int, floor: int, input: CraftInput, gd: GameDef)
    requires 0 <= k < |ds|
  {
    && ds[k].Candidate(input, gd) && ds[k].Priority() > floor
    && forall i :: 0 <= i < |ds| && i != k && ds[i].Candidate(input, gd) ==>
         if i > k then ds[i].Priority() < ds[k].Priority() else ds[i].Priority() <= ds[k].Priority()
  }

  /** Definitions filed under another hash cannot match, so looking only at one hash loses nothing. */
  lemma {:induction false} OtherHashesDoNotMatter(ds: seq<CraftDef>, kind: nat, best: Option<CraftDef>,
                                                  input: CraftInput, gd: GameDef)
    requires EmptyMatchesNoGroup(gd) && WellFormed(input.items)
    requires AllHashed(ds, gd) && forall i :: 0 <= i < |ds| ==> ds[i].HashType() == kind
    ensures Scan(WithHash(ds, GridHash(kind, Sort(input.Names()), gd), gd), best, input, gd)
            == Scan(ds, best, input, gd)
    decreases |ds|
  {
    hide *;
    if ds == [] {
      NothingFiled(GridHash(kind, Sort(input.Names()), gd), gd);
    } else {
      var n, hash := |ds| - 1, GridHash(kind, Sort(input.Names()), gd);
      var d, front := ds[n], ds[..n];
      var next := Better(best, d, input, gd);
      LastFiled(ds, hash, best, input, gd);
      OtherHashesDoNotMatter(front, kind, next, input, gd);
      if d.Hash(gd) == hash {
        ScanNext(WithHash(front, hash, gd), d, best, input, gd);
      } else {
        NoMatchNoBetter(d, kind, best, input, gd);
        assert WithHash(front, hash, gd) + [] == WithHash(front, hash, gd);
      }
    }
  }

  lemma LastFiled(ds: seq<CraftDef>, hash: int, best: Option<CraftDef>, input: CraftInput, gd: GameDef)
    requires ds != [] && AllHashed(ds, gd)
    ensures var d, front := ds[|ds| - 1], ds[..|ds| - 1];
      && AllHashed(front, gd) && Hashed(d, gd) && d.names.Some?
      && ((d.recipe.Cooking? || d.recipe.Fuel?) ==> |d.names.value| == 1)
      && WithHash(ds, hash, gd) == WithHash(front, hash, gd) + (if d.Hash(gd) == hash then [d] else [])
      && Scan(ds, best, input, gd) == Scan(front, Better(best, d, input, gd), input, gd)
  {
    assert Hashed(ds[|ds| - 1], gd);
    hide Better;
  }

  lemma NothingFiled(hash: int, gd: GameDef)
    ensures AllHashed([], gd) && WithHash([], hash, gd) == []
  {
  }

  lemma ScanNext(ds: seq<CraftDef>, d: CraftDef, best: Option<CraftDef>, input: CraftInput, gd: GameDef)
    ensures Scan(ds + [d], best, input, gd) == Scan(ds, Better(best, d, input, gd), input, gd)
  {
    hide Better;
    assert (ds + [d])[..|ds|] == ds;
  }

  lemma NoMatchNoBetter(d: CraftDef, kind: nat, best: Option<CraftDef>, input: CraftInput, gd: GameDef)
    requires EmptyMatchesNoGroup(gd) && WellFormed(input.items)
    requires Hashed(d, gd) && d.HashType() == kind && d.Hash(gd) != GridHash(kind, Sort(input.Names()), gd)
    ensures Better(best, d, input, gd) == best
  {
    if d.Applies(input, gd) {
      MatchHasInputHash(d, input, gd);
    }
  }

  // ---------------------------------------------------------------- the layers

  /** The tables hold exactly the hashed definitions, each under its own hash, and the pending ones
      unhashed; within a list, in order of registration. */
  ghost predicate Filed(layers: seq<Layer>, hashed: seq<CraftDef>, pending: seq<CraftDef>, gd: GameDef) {
    && |layers| == 3
    && AllHashed(hashed, gd)
    && (forall h :: Lookup(layers, HASH_UNHASHED, h) == if h == 0 then pending else [])
    && forall t, h :: 0 <= t < HASH_UNHASHED ==> Lookup(layers, t, h) == WithHash(InLayer(hashed, t, gd), h, gd)
  }

  /** One more definition at the end of one list. */
  function Added(layers: seq<Layer>, kind: nat, hash: int, d: CraftDef): (r: seq<Layer>)
    requires kind < |layers|
    ensures |r| == |layers|
  {
    layers[kind := layers[kind][hash := Lookup(layers, kind, hash) + [d]]]
  }

  lemma ListedOneMore(hashed: seq<CraftDef>, d: CraftDef, kind: nat, hash: int, gd: GameDef)
    requires AllHashed(hashed, gd) && Hashed(d, gd)
    ensures AllHashed(hashed + [d], gd)
    ensures WithHash(InLayer(hashed + [d], kind, gd), hash, gd)
         == if d.HashType() == kind && d.Hash(gd) == hash then WithHash(InLayer(hashed, kind, gd), hash, gd) + [d]
            else WithHash(InLayer(hashed, kind, gd), hash, gd)
  {
    assert (hashed + [d])[..|hashed|] == hashed;
    var a := InLayer(hashed, kind, gd);
    if d.HashType() == kind {
      assert (a + [d])[..|a|] == a;
    } else {
      assert InLayer(hashed + [d], kind, gd) == a;
    }
  }

  lemma FiledOneMore(layers: seq<Layer>, hashed: seq<CraftDef>, pending: seq<CraftDef>, gd: GameDef, d: CraftDef)
    requires Filed(layers, hashed, pending, gd) && Hashed(d, gd)
    ensures Filed(Added(layers, d.HashType(), d.Hash(gd), d), hashed + [d], pending, gd)
  {
    var kind, hash := d.HashType(), d.Hash(gd);
    var layers' := Added(layers, kind, hash, d);
    hide WithHash, InLayer, Hashed, CraftDef.Hash, CraftDef.HashType;
    forall t, h
      ensures 0 <= t < HASH_UNHASHED ==> Lookup(layers', t, h) == WithHash(InLayer(hashed + [d], t, gd), h, gd)
    {
      if 0 <= t < HASH_UNHASHED {
        ListedOneMore(hashed, d, t, h, gd);
        assert Lookup(layers, t, h) == WithHash(InLayer(hashed, t, gd), h, gd);
      }
    }
    forall h ensures Lookup(layers', HASH_UNHASHED, h) == Lookup(layers, HASH_UNHASHED, h) {}
  }

  /** Emptying the unhashed layer. */
  lemma FiledDrained(layers: seq<Layer>, hashed: seq<CraftDef>, pending: seq<CraftDef>, gd: GameDef)
    requires Filed(layers, hashed, pending, gd)
    ensures Filed(layers[HASH_UNHASHED := layers[HASH_UNHASHED][0 := []]], hashed, [], gd)
  {
    var layers' := layers[HASH_UNHASHED := layers[HASH_UNHASHED][0 := []]];
    hide WithHash, InLayer;
    forall t, h | 0 <= t < HASH_UNHASHED ensures Lookup(layers', t, h) == Lookup(layers, t, h) {}
    forall h ensures Lookup(layers', HASH_UNHASHED, h) == [] {
      assert h != 0 ==> Lookup(layers, HASH_UNHASHED, h) == [];
    }
  }

  lemma FiledPending(layers: seq<Layer>, hashed: seq<CraftDef>, pending: seq<CraftDef>, gd: GameDef, d: CraftDef)
    requires Filed(layers, hashed, pending, gd)
    ensures Filed(Added(layers, HASH_UNHASHED, 0, d), hashed, pending + [d], gd)
  {
    var layers' := Added(layers, HASH_UNHASHED, 0, d);
    hide WithHash, InLayer;
    assert Lookup(layers, HASH_UNHASHED, 0) == pending;
    forall t, h | 0 <= t < HASH_UNHASHED ensures Lookup(layers', t, h) == Lookup(layers, t, h) {}
    forall h ensures Lookup(layers', HASH_UNHASHED, h) == if h == 0 then pending + [d] else [] {
      assert h != 0 ==> Lookup(layers, HASH_UNHASHED, h) == [];
    }
  }

  ghost function Inited(ds: seq<CraftDef>, gd: GameDef): (r: seq<CraftDef>)
    ensures |r| == |ds|
  {
    seq(|ds|, i requires 0 <= i < |ds| => ds[i].InitHash(gd))
  }

  lemma InitHashed(ds: seq<CraftDef>, i: nat, gd: GameDef)
    requires AllConsistent(ds, gd) && i < |ds|
    ensures var d := ds[i].InitHash(gd);
            && Hashed(d, gd) && d.names.Some?
            && ((d.recipe.Cooking? || d.recipe.Fuel?) ==> |d.names.value| == 1)
            && Inited(ds, gd)[..i + 1] == Inited(ds, gd)[..i] + [d]
  {
  }

  lemma InitedPrefix(ds: seq<CraftDef>, gd: GameDef)
    ensures Inited(ds, gd)[..0] == [] && Inited(ds, gd)[..|ds|] == Inited(ds, gd)
  {
  }

  lemma NothingPending(gd: GameDef)
    ensures AllConsistent([], gd)
  {
  }

  class CraftDefManager {
    var layers: seq<Layer>
    ghost var hashed: seq<CraftDef>   // moved by initHashes, in order
    ghost var pending: seq<CraftDef>  // registered since

    ghost predicate Valid(gd: GameDef)
      reads this
    {
      Filed(layers, hashed, pending, gd) && AllConsistent(pending, gd)
    }

    constructor (gd: GameDef)
      ensures Valid(gd) && hashed == [] && pending == []
    {
      layers, hashed, pending := [map[], map[], map[]], [], [];
    }

    method RegisterCraft(d: CraftDef, gd: GameDef)
      requires Valid(gd) && d.Consistent(gd)
      modifies this
      ensures Valid(gd) && hashed == old(hashed) && pending == old(pending) + [d]
    {
      FiledPending(layers, hashed, pending, gd, d);
      layers := Added(layers, HASH_UNHASHED, 0, d);
      pending := pending + [d];
    }

    /** Moves every pending definition into the layer and the list its hash names. */
    method InitHashes(gd: GameDef)
      requires Valid(gd)
      modifies this
      ensures Valid(gd) && hashed == old(hashed + Inited(pending, gd)) && pending == []
    {
      assert |layers| == 3 && Lookup(layers, HASH_UNHASHED, 0) == pending;
      hide *;
      var unhashed := Lookup(layers, HASH_UNHASHED, 0);
      InitedPrefix(pending, gd);
      for i := 0 to |unhashed|
        invariant unhashed == pending == old(pending)
        invariant |layers| == 3 && Filed(layers, hashed, pending, gd)
        invariant hashed == old(hashed) + Inited(pending, gd)[..i]
      {
        InitHashed(unhashed, i, gd);
        var d := unhashed[i].InitHash(gd);
        var kind, hash := d.HashType(), d.Hash(gd);
        FiledOneMore(layers, hashed, pending, gd, d);
        layers := Added(layers, kind, hash, d);
        hashed := hashed + [d];
      }
      FiledDrained(layers, hashed, pending, gd);
      layers := layers[HASH_UNHASHED := layers[HASH_UNHASHED][0 := []]];
      pending := [];
      NothingPending(gd);
    }

    method Clear(gd: GameDef)
      modifies this
      ensures Valid(gd) && hashed == [] && pending == []
    {
      layers, hashed, pending := [map[], map[], map[]], [], [];
    }

    lemma ValidMeans(gd: GameDef)
      requires Valid(gd)
      ensures Filed(layers, hashed, pending, gd) && AllConsistent(pending, gd)
    {
    }

    /** Searches the three layers; equal to a scan of exactly the lists the input hashes to. */
    method GetCraftResult(input: CraftInput, gd: GameDef) returns (best: Option<CraftDef>, output: CraftOutput)
      requires Valid(gd)
      ensures input.Empty() ==> best == None
      ensures !input.Empty() ==> best == LayeredScan(hashed, pending, input, gd)
      ensures !input.Empty() && EmptyMatchesNoGroup(gd) && WellFormed(input.items) ==>
                Preferred(best, hashed + pending, input, gd)
      ensures best.Some? ==> output == best.value.Output(input, gd)
    {
      hide *;
      output := CraftOutput("", 0.0);
      best := None;
      if input.Empty() {
        return;
      }
      var names := Sort(input.Names());
      ValidMeans(gd);
      FiledLists(layers, hashed, pending, names, gd);
      if EmptyMatchesNoGroup(gd) && WellFormed(input.items) {
        LayersLoseNothing(hashed, pending, input, gd);
      }
      LayeredScanIs(hashed, pending, input, gd);
      ListIs(layers, hashed, HASH_ITEM_NAMES, GridHash(HASH_ITEM_NAMES, names, gd), gd);
      ListIs(layers, hashed, HASH_COUNT, GridHash(HASH_COUNT, names, gd), gd);
      var hash0 := GetHashForGrid(HASH_ITEM_NAMES, names, gd);
      best, output := SearchList(Lookup(layers, HASH_ITEM_NAMES, hash0), best, output, input, gd);
      var hash1 := GetHashForGrid(HASH_COUNT, names, gd);
      best, output := SearchList(Lookup(layers, HASH_COUNT, hash1), best, output, input, gd);
      var hash2 := GetHashForGrid(HASH_UNHASHED, names, gd);
      best, output := SearchList(Lookup(layers, HASH_UNHASHED, hash2), best, output, input, gd);
    }
  }

  /** The three lists that an input looks at. */
  lemma FiledLists(layers: seq<Layer>, hashed: seq<CraftDef>, pending: seq<CraftDef>, names: seq<string>, gd: GameDef)
    requires Filed(layers, hashed, pending, gd) && AllConsistent(pending, gd)
    ensures HASH_ITEM_NAMES < |layers| && HASH_COUNT < |layers| && HASH_UNHASHED < |layers| && AllHashed(hashed, gd)
    ensures ListOf(layers, hashed, HASH_ITEM_NAMES, GridHash(HASH_ITEM_NAMES, names, gd), gd)
    ensures ListOf(layers, hashed, HASH_COUNT, GridHash(HASH_COUNT, names, gd), gd)
    ensures Lookup(layers, HASH_UNHASHED, GridHash(HASH_UNHASHED, names, gd)) == pending
  {
    hide WithHash, InLayer, Lookup, CraftDef.Consistent;
    forall kind, hash | 0 <= kind < HASH_UNHASHED
      ensures ListOf(layers, hashed, kind, hash, gd)
    {
      var ds := WithHash(InLayer(hashed, kind, gd), hash, gd);
      assert Lookup(layers, kind, hash) == ds;
      assert forall i :: 0 <= i < |ds| ==> Hashed(ds[i], gd);
    }
  }

  ghost predicate ListOf(layers: seq<Layer>, hashed: seq<CraftDef>, kind: nat, hash: int, gd: GameDef)
    requires kind < |layers| && AllHashed(hashed, gd)
  {
    Lookup(layers, kind, hash) == WithHash(InLayer(hashed, kind, gd), hash, gd)
        && AllConsistent(Lookup(layers, kind, hash), gd)
  }

  lemma ListIs(layers: seq<Layer>, hashed: seq<CraftDef>, kind: nat, hash: int, gd: GameDef)
    requires kind < |layers| && AllHashed(hashed, gd) && ListOf(layers, hashed, kind, hash, gd)
    ensures Lookup(layers, kind, hash) == WithHash(InLayer(hashed, kind, gd), hash, gd)
    ensures AllConsistent(Lookup(layers, kind, hash), gd)
  {
  }

  lemma LayeredScanIs(hashed: seq<CraftDef>, pending: seq<CraftDef>, input: CraftInput, gd: GameDef)
    requires AllHashed(hashed, gd)
    ensures var names := Sort(input.Names());
      LayeredScan(hashed, pending, input, gd) ==
        Scan(pending,
             Scan(WithHash(InLayer(hashed, HASH_COUNT, gd), GridHash(HASH_COUNT, names, gd), gd),
                  Scan(WithHash(InLayer(hashed, HASH_ITEM_NAMES, gd), GridHash(HASH_ITEM_NAMES, names, gd), gd),
                       None, input, gd), input, gd), input, gd)
  {
  }

  ghost function LayeredScan(hashed: seq<CraftDef>, pending: seq<CraftDef>, input: CraftInput,
                             gd: GameDef): Option<CraftDef>
    requires AllHashed(hashed, gd)
  {
    var names := Sort(input.Names());
    Scan(pending,
         Scan(WithHash(InLayer(hashed, HASH_COUNT, gd), GridHash(HASH_COUNT, names, gd), gd),
              Scan(WithHash(InLayer(hashed, HASH_ITEM_NAMES, gd), GridHash(HASH_ITEM_NAMES, names, gd), gd),
                   None, input, gd), input, gd), input, gd)
  }

  lemma ScanBack(ds: seq<CraftDef>, i: nat, best: Option<CraftDef>, input: CraftInput, gd: GameDef)
    requires 0 < i <= |ds| && AllConsistent(ds, gd)
    ensures ds[i - 1].Consistent(gd)
    ensures Scan(ds[..i], best, input, gd) == Scan(ds[..i - 1],
      if ds[i - 1].Priority() > PriorityOf(best) && ds[i - 1].Applies(input, gd) && ds[i - 1].KnownOutput(input, gd)
      then Some(ds[i - 1]) else best, input, gd)
  {
    hide CraftDef.Consistent, CraftDef.Applies, CraftDef.KnownOutput, CraftDef.Priority;
    assert ds[..i][..i - 1] == ds[..i - 1];
  }

  /** Walks one list of colliding definitions from back to front. */
  method SearchList(ds: seq<CraftDef>, best: Option<CraftDef>, output: CraftOutput, input: CraftInput, gd: GameDef)
    returns (best': Option<CraftDef>, output': CraftOutput)
    requires AllConsistent(ds, gd)
    requires best.Some? ==> output == best.value.Output(input, gd)
    ensures best' == Scan(ds, best, input, gd)
    ensures best'.Some? ==> output' == best'.value.Output(input, gd)
  {
    hide *;
    best', output' := best, output;
    var i := |ds|;
    assert ds[..i] == ds;
    while i > 0
      invariant 0 <= i <= |ds|
      invariant Scan(ds[..i], best', input, gd) == Scan(ds, best, input, gd)
      invariant best'.Some? ==> output' == best'.value.Output(input, gd)
    {
      var d := ds[i - 1];
      ScanBack(ds, i, best', input, gd);
      i := i - 1;
      if d.Priority() > PriorityOf(best') {
        var applies := Check(d, input, gd);
        if applies && d.KnownOutput(input, gd) {
          best', output' := Some(d), d.Output(input, gd);
        }
      }
    }
    ScanNothing(ds, best', input, gd);
  }

  lemma ScanNothing(ds: seq<CraftDef>, best: Option<CraftDef>, input: CraftInput, gd: GameDef)
    ensures Scan(ds[..0], best, input, gd) == best
  {
  }

  /** As long as no group contains the empty slot, the layers find what a scan of all definitions finds, and
      nothing has a higher priority. */
  lemma LayersFindTheBest(hashed: seq<CraftDef>, pending: seq<CraftDef>, input: CraftInput, gd: GameDef)
    requires EmptyMatchesNoGroup(gd) && WellFormed(input.items) && AllHashed(hashed, gd)
    ensures LayeredScan(hashed, pending, input, gd) == PlainScan(hashed, pending, input, gd)
    ensures var best := LayeredScan(hashed, pending, input, gd);
            && (best.Some? <==> exists d :: d in hashed + pending && d.Candidate(input, gd))
            && (best.Some? ==> best.value in hashed + pending && best.value.Candidate(input, gd))
            && forall d :: d in hashed + pending && d.Candidate(input, gd) ==> d.Priority() <= PriorityOf(best)
  {
    var l0, l1 := InLayer(hashed, HASH_ITEM_NAMES, gd), InLayer(hashed, HASH_COUNT, gd);
    var best0 := Scan(l0, None, input, gd);
    var best1 := Scan(l1, best0, input, gd);
    var best2 := Scan(pending, best1, input, gd);
    InLayerMembers(hashed, HASH_ITEM_NAMES, gd);
    InLayerMembers(hashed, HASH_COUNT, gd);
    OtherHashesDoNotMatter(l0, HASH_ITEM_NAMES, None, input, gd);
    OtherHashesDoNotMatter(l1, HASH_COUNT, best0, input, gd);
    ScanOptimal(l0, None, input, gd);
    ScanOptimal(l1, best0, input, gd);
    ScanOptimal(pending, best1, input, gd);
    forall d | d in hashed ensures d in l0 || d in l1 {
      EveryoneIsFiled(hashed, d, gd);
    }
  }

  // ---------------------------------------------------------------- which kind of recipe wins

  predicate PlainShaped(r: Recipe) {
    r.ShapedRecipe? && forall c :: c in r.cells ==> !IsGroup(c)
  }

  predicate GroupedShaped(r: Recipe) {
    r.ShapedRecipe? && exists c :: c in r.cells && IsGroup(c)
  }

  /** Shapeless, cooking and fuel recipes; fuel never counts as using groups. */
  predicate PlainShapeless(r: Recipe) {
    || (r.ShapelessRecipe? && forall c :: c in r.slots ==> !IsGroup(c))
    || (r.Cooking? && !IsGroup(r.item))
    || r.Fuel?
  }

  predicate GroupedShapeless(r: Recipe) {
    || (r.ShapelessRecipe? && exists c :: c in r.slots && IsGroup(c))
    || (r.Cooking? && IsGroup(r.item))
  }

  predicate MadeFor(r: Recipe, kind: CraftMethod) {
    match kind
    case NormalCraft => r.ShapedRecipe? || r.ShapelessRecipe? || r.ToolRepair?
    case CookingCraft => r.Cooking?
    case FuelCraft => r.Fuel?
  }

  /** Whether there is a candidate of some kind. */
  ghost predicate Offered(ds: seq<CraftDef>, input: CraftInput, gd: GameDef, kind: Recipe -> bool) {
    exists d :: d in ds && d.Candidate(input, gd) && kind(d.recipe)
  }

  /** The order of preference: what is returned is of the first kind in it that has a candidate. */
  ghost predicate Preferred(best: Option<CraftDef>, ds: seq<CraftDef>, input: CraftInput, gd: GameDef) {
    match best
    case None => forall d :: d in ds ==> !d.Candidate(input, gd)
    case Some(b) =>
      && b in ds && b.Candidate(input, gd) && MadeFor(b.recipe, input.kind)
      && gd.isKnown(gd.itemName(b.Output(input, gd).item))
      && if Offered(ds, input, gd, PlainShaped) then PlainShaped(b.recipe)
         else if Offered(ds, input, gd, GroupedShaped) then GroupedShaped(b.recipe)
         else if Offered(ds, input, gd, PlainShapeless) then PlainShapeless(b.recipe)
         else if Offered(ds, input, gd, GroupedShapeless) then GroupedShapeless(b.recipe)
         else b.recipe.ToolRepair?
  }

  lemma RankedByKind(d: CraftDef, e: CraftDef)
    requires d.Priority() <= e.Priority()
    ensures PlainShaped(d.recipe) ==> PlainShaped(e.recipe)
    ensures GroupedShaped(d.recipe) ==> PlainShaped(e.recipe) || GroupedShaped(e.recipe)
    ensures PlainShapeless(d.recipe) ==> e.recipe.ShapedRecipe? || PlainShapeless(e.recipe)
    ensures GroupedShapeless(d.recipe) ==>
              e.recipe.ShapedRecipe? || PlainShapeless(e.recipe) || GroupedShapeless(e.recipe)
  {
    KindsOfRecipe(d.recipe);
    KindsOfRecipe(e.recipe);
  }

  lemma KindsOfRecipe(r: Recipe)
    ensures r.ShapedRecipe? ==> (HasGroup(r.cells) <==> GroupedShaped(r)) && (PlainShaped(r) <==> !GroupedShaped(r))
    ensures r.ShapelessRecipe? ==> (HasGroup(r.slots) <==> GroupedShapeless(r))
    ensures !r.ShapedRecipe? && !r.ToolRepair? ==> (PlainShapeless(r) <==> !GroupedShapeless(r))
  {
    if r.ShapedRecipe? {
      assert forall i :: 0 <= i < |r.cells| ==> r.cells[i] in r.cells;
    } else if r.ShapelessRecipe? {
      assert forall i :: 0 <= i < |r.slots| ==> r.slots[i] in r.slots;
    }
  }

  /** The hash layers lose nothing: as long as no group contains the empty slot, the search finds a recipe exactly
      when some registered recipe matches with a known output.  Shaped recipes win over all others, and recipes
      without groups over those of their shape with groups; tools are only repaired when nothing else matches. */
  lemma LayersLoseNothing(hashed: seq<CraftDef>, pending: seq<CraftDef>, input: CraftInput, gd: GameDef)
    requires EmptyMatchesNoGroup(gd) && WellFormed(input.items) && AllHashed(hashed, gd)
    ensures LayeredScan(hashed, pending, input, gd) == PlainScan(hashed, pending, input, gd)
    ensures Preferred(LayeredScan(hashed, pending, input, gd), hashed + pending, input, gd)
  {
    hide *;
    LayersFindTheBest(hashed, pending, input, gd);
    BestIsPreferred(LayeredScan(hashed, pending, input, gd), hashed + pending, input, gd);
  }

  lemma BestIsPreferred(best: Option<CraftDef>, ds: seq<CraftDef>, input: CraftInput, gd: GameDef)
    requires best.Some? <==> exists d :: d in ds && d.Candidate(input, gd)
    requires best.Some? ==> best.value in ds && best.value.Candidate(input, gd)
    requires forall d :: d in ds && d.Candidate(input, gd) ==> d.Priority() <= PriorityOf(best)
    ensures Preferred(best, ds, input, gd)
  {
    if best.Some? {
      var b := best.value;
      KindsOfRecipe(b.recipe);
      assert MadeFor(b.recipe, input.kind) && b.KnownOutput(input, gd);
      hide CraftDef.Candidate, CraftDef.Priority, MadeFor, PlainShaped, GroupedShaped, PlainShapeless, GroupedShapeless;
      if Offered(ds, input, gd, PlainShaped) {
        var d :| d in ds && d.Candidate(input, gd) && PlainShaped(d.recipe);
        RankedByKind(d, b);
      } else if Offered(ds, input, gd, GroupedShaped) {
        var d :| d in ds && d.Candidate(input, gd) && GroupedShaped(d.recipe);
        RankedByKind(d, b);
      } else if Offered(ds, input, gd, PlainShapeless) {
        var d :| d in ds && d.Candidate(input, gd) && PlainShapeless(d.recipe);
        RankedByKind(d, b);
      } else if Offered(ds, input, gd, GroupedShapeless) {
        var d :| d in ds && d.Candidate(input, gd) && GroupedShapeless(d.recipe);
        RankedByKind(d, b);
      }
    }
  }

  /** A single definition that is filed under another hash than the input's is not found. */
  lemma MisfiledIsLost(d: CraftDef, input: CraftInput, gd: GameDef)
    requires Hashed(d, gd) && d.HashType() == HASH_COUNT && d.Candidate(input, gd)
    requires d.Hash(gd) != GridHash(HASH_COUNT, Sort(input.Names()), gd)
    ensures AllHashed([d], gd)
    ensures LayeredScan([d], [], input, gd) == None && PlainScan([d], [], input, gd) == Some(d)
  {
    var names := Sort(input.Names());
    hide CraftDef.Candidate, CraftDef.Hash, GridHash, Better, Hashed, InLayer, WithHash, Scan;
    SingleFiled(d, HASH_ITEM_NAMES, GridHash(HASH_ITEM_NAMES, names, gd), gd);
    SingleFiled(d, HASH_COUNT, GridHash(HASH_COUNT, names, gd), gd);
    SingleScanned(d, input, gd);
  }

  lemma SingleFiled(d: CraftDef, kind: nat, hash: int, gd: GameDef)
    requires Hashed(d, gd)
    ensures AllHashed([d], gd)
    ensures InLayer([d], kind, gd) == if d.HashType() == kind then [d] else []
    ensures WithHash(InLayer([d], kind, gd), hash, gd) == if d.HashType() == kind && d.Hash(gd) == hash then [d] else []
  {
    hide Hashed, CraftDef.Hash, CraftDef.HashType;
    assert [d][..0] == [];
  }

  lemma SingleScanned(d: CraftDef, input: CraftInput, gd: GameDef)
    requires d.Candidate(input, gd)
    ensures Scan([d], None, input, gd) == Some(d)
    ensures forall best :: Scan([], best, input, gd) == best
  {
    hide CraftDef.Candidate;
    assert [d][..0] == [];
    assert Better(None, d, input, gd) == Some(d);
  }

  /** The search through the hash layers always returns what the plain scan does. */
  ghost predicate LosesNothing(gd: GameDef) {
    forall hashed, pending, input: CraftInput :: WellFormed(input.items) && AllHashed(hashed, gd) ==>
      LayeredScan(hashed, pending, input, gd) == PlainScan(hashed, pending, input, gd)
  }

  /** It does so exactly when no group contains the empty slot, provided that there is an item, a known
      output, and an itemstring for every such group. */
  lemma LosesNothingIff(name: string, output: string, gd: GameDef)
    requires name != "" && !IsGroup(name) && Nameable(name, gd) && gd.isKnown(gd.itemName(output))
    requires forall rec :: IsGroup(rec) && Matches("", rec, gd) ==> Nameable(rec, gd)
    ensures LosesNothing(gd) <==> EmptyMatchesNoGroup(gd)
  {
    hide LayeredScan, PlainScan, CraftDef.Candidate, CraftDef.Hash, GridHash, Matches, IsGroup, AllHashed;
    if EmptyMatchesNoGroup(gd) {
      forall hashed, pending, input: CraftInput | WellFormed(input.items) && AllHashed(hashed, gd)
        ensures LayeredScan(hashed, pending, input, gd) == PlainScan(hashed, pending, input, gd)
      {
        LayersLoseNothing(hashed, pending, input, gd);
      }
    } else {
      var rec :| IsGroup(rec) && Matches("", rec, gd);
      var d, input := EmptySlotInGroupIsMisfiled(name, rec, output, gd);
      MisfiledIsLost(d, input, gd);
    }
  }

  lemma {:induction false} EveryoneIsFiled(ds: seq<CraftDef>, d: CraftDef, gd: GameDef)
    requires AllHashed(ds, gd) && d in ds
    ensures d in InLayer(ds, HASH_ITEM_NAMES, gd) || d in InLayer(ds, HASH_COUNT, gd)
  {
    var n := |ds| - 1;
    if d != ds[n] {
      assert d in ds[..n];
      EveryoneIsFiled(ds[..n], d, gd);
    }
  }

  lemma ScanOptimal(ds: seq<CraftDef>, best: Option<CraftDef>, input: CraftInput, gd: GameDef)
    ensures var r := Scan(ds, best, input, gd);
            && (r == best || (r.Some? && r.value in ds && r.value.Candidate(input, gd)))
            && PriorityOf(r) >= PriorityOf(best)
            && forall d :: d in ds && d.Candidate(input, gd) ==> d.Priority() <= PriorityOf(r)
  {
    ScanPicksTheBest(ds, best, input, gd);
  }
}
