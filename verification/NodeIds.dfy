/**
 Node ids of a map block (src/mapblock.cpp, src/nameidmapping.h): renumbering the ids in use when a
 block is written, and resolving them again, by name, when it is read.
 */
module NodeIds {

  const CONTENT_IGNORE: int := 127
  const NO_MAPPING: int := 0xFFFF
  const UNKNOWN: string := "unknown"

  datatype MapNode = MapNode(content: int, param1: int, param2: int)

  /** What is registered: names by id, ids by name, and the ids still free for unknown names. */
  datatype Registry = Registry(names: map<int, string>, ids: map<string, int>, spare: seq<int>) {
    function Name(id: int): string {
      if id in names then names[id] else UNKNOWN
    }
  }

  ghost predicate AreIds(nodes: seq<MapNode>) {
    forall i :: 0 <= i < |nodes| ==> 0 <= nodes[i].content <= 0xFFFF
  }

  // ---------------------------------------------------------------- the compact numbering

  /** The different ids in the order of their first appearance. */
  function Distinct(nodes: seq<MapNode>): (d: seq<int>)
    ensures |d| <= |nodes|
    ensures forall i :: 0 <= i < |nodes| ==> nodes[i].content in d
    ensures forall c :: c in d ==> exists i :: 0 <= i < |nodes| && nodes[i].content == c
  {
    if nodes == [] then []
    else
      var n := |nodes| - 1;
      var d, c := Distinct(nodes[..n]), nodes[n].content;
      assert forall i :: 0 <= i < n ==> nodes[..n][i] == nodes[i];
      if c in d then d else d + [c]
  }

  function IndexOf(d: seq<int>, c: int): (k: int)
    ensures c in d ==> 0 <= k < |d| && d[k] == c
    ensures c !in d ==> k == |d|
  {
    if d == [] then 0 else if d[0] == c then 0 else 1 + IndexOf(d[1..], c)
  }

  function Renumbered(nodes: seq<MapNode>, d: seq<int>): (r: seq<MapNode>)
    ensures |r| == |nodes|
  {
    seq(|nodes|, i requires 0 <= i < |nodes| => nodes[i].(content := IndexOf(d, nodes[i].content)))
  }

  /** The names of the ids in `d`, by their place in it. */
  function NamesOf(reg: Registry, d: seq<int>, base: map<int, string>): map<int, string> {
    if d == [] then base
    else
      var n := |d| - 1;
      NamesOf(reg, d[..n], base)[n := reg.Name(d[n])]
  }

  function PlacesOf(reg: Registry, d: seq<int>, base: map<string, int>): map<string, int> {
    if d == [] then base
    else
      var n := |d| - 1;
      PlacesOf(reg, d[..n], base)[reg.Name(d[n]) := n]
  }

  lemma {:induction false} IndexOfAppend(d: seq<int>, x: int, c: int)
    ensures c in d ==> IndexOf(d + [x], c) == IndexOf(d, c)
    ensures c !in d && c == x ==> IndexOf(d + [x], c) == |d|
  {
    if d != [] {
      IndexOfAppend(d[1..], x, c);
      assert (d + [x])[1..] == d[1..] + [x];
    }
  }

  lemma {:induction false} NamesOfHas(reg: Registry, d: seq<int>, base: map<int, string>, k: int)
    requires 0 <= k < |d|
    ensures k in NamesOf(reg, d, base) && NamesOf(reg, d, base)[k] == reg.Name(d[k])
  {
    var n := |d| - 1;
    if k < n {
      NamesOfHas(reg, d[..n], base, k);
    }
  }

  lemma DistinctNext(nodes: seq<MapNode>, i: nat)
    requires i < |nodes|
    ensures var d, c := Distinct(nodes[..i]), nodes[i].content;
      Distinct(nodes[..i + 1]) == if c in d then d else d + [c]
  {
    assert nodes[..i + 1][..i] == nodes[..i];
  }

  lemma {:induction false} DistinctGrows(nodes: seq<MapNode>, i: nat)
    requires i <= |nodes|
    ensures |Distinct(nodes[..i])| <= |Distinct(nodes)|
    decreases |nodes| - i
  {
    hide Distinct;
    if i < |nodes| {
      DistinctNext(nodes, i);
      DistinctGrows(nodes, i + 1);
    } else {
      assert nodes[..i] == nodes;
    }
  }

  class NameIdMapping {
    var idToName: map<int, string>
    var nameToId: map<string, int>

    constructor ()
      ensures idToName == map[] && nameToId == map[]
    {
      idToName, nameToId := map[], map[];
    }

    method Set(id: int, name: string)
      requires name != ""
      modifies this
      ensures idToName == old(idToName)[id := name] && nameToId == old(nameToId)[name := id]
    {
      idToName, nameToId := idToName[id := name], nameToId[name := id];
    }
  }

  class NodeDefManager {
    var names: map<int, string>
    var ids: map<string, int>
    var spare: seq<int>

    ghost function Contents(): Registry
      reads this
    {
      Registry(names, ids, spare)
    }

    function Name(id: int): string
      reads this
    {
      if id in names then names[id] else UNKNOWN
    }

    /** allocateUnknownNodeId: a free id for the name, or CONTENT_IGNORE when there is none. */
    method AllocateUnknown(name: string) returns (id: int)
      modifies this
      ensures (id, Contents()) == Allocated(old(Contents()), name)
      ensures old(Fresh(Contents())) && name !in old(ids) ==>
                && Fresh(Contents())
                && (id == CONTENT_IGNORE <==> old(spare) == [])
                && (id != CONTENT_IGNORE ==> id !in old(names) && id !in old(ids.Values) && Name(id) == name)
    {
      if Fresh(Contents()) && name !in ids {
        AllocatedIsFresh(Contents(), name);
      }
      hide Fresh;
      if spare == [] {
        return CONTENT_IGNORE;
      }
      id := spare[0];
      spare := spare[1..];
      names, ids := names[id := name], ids[name := id];
    }
  }

  function Allocated(reg: Registry, name: string): (int, Registry) {
    if reg.spare == [] then (CONTENT_IGNORE, reg)
    else (reg.spare[0],
      Registry(reg.names[reg.spare[0] := name], reg.ids[name := reg.spare[0]], reg.spare[1..]))
  }

  /** The table of `mapping` says where each id is in `d`. */
  ghost predicate Maps(table: seq<int>, d: seq<int>) {
    |table| == 0x1_0000 && forall c :: 0 <= c <= 0xFFFF ==> table[c] == if c in d then IndexOf(d, c) else NO_MAPPING
  }

  /** Where the loop over the nodes stands after `i` of them. */
  ghost predicate RenumberedUpTo(nodes: seq<MapNode>, was: seq<MapNode>, i: int) {
    && 0 <= i <= |was| == |nodes|
    && nodes[i..] == was[i..]
    && nodes[..i] == Renumbered(was[..i], Distinct(was[..i]))
  }

  lemma MappingStarts(table: seq<int>, nodes: seq<MapNode>)
    requires |table| == 0x1_0000 && forall c :: 0 <= c < |table| ==> table[c] == NO_MAPPING
    ensures Maps(table, Distinct(nodes[..0])) && RenumberedUpTo(nodes, nodes, 0)
  {
  }

  lemma SameNumbers(nodes: seq<MapNode>, d: seq<int>, x: int)
    requires forall i :: 0 <= i < |nodes| ==> nodes[i].content in d
    ensures Renumbered(nodes, d + [x]) == Renumbered(nodes, d)
  {
    forall i | 0 <= i < |nodes|
      ensures IndexOf(d + [x], nodes[i].content) == IndexOf(d, nodes[i].content)
    {
      IndexOfAppend(d, x, nodes[i].content);
    }
  }

  /** Writing the number of one more node. */
  lemma RenumberStep(nodes: seq<MapNode>, was: seq<MapNode>, i: int, id: int)
    requires RenumberedUpTo(nodes, was, i) && i < |was|
    requires id == IndexOf(Distinct(was[..i + 1]), was[i].content)
    ensures RenumberedUpTo(nodes[i := nodes[i].(content := id)], was, i + 1)
  {
    var d, d', c := Distinct(was[..i]), Distinct(was[..i + 1]), was[i].content;
    DistinctNext(was, i);
    if c !in d {
      SameNumbers(was[..i], d, c);
    }
    hide Distinct;
    assert nodes[i] == was[i] by {
      assert nodes[i..][0] == was[i..][0];
    }
    var r := Renumbered(was[..i + 1], d');
    assert r[..i] == Renumbered(was[..i], d');
    assert nodes[i..][1..] == was[i..][1..];
    assert nodes[i := nodes[i].(content := id)][..i + 1] == r[..i] + [r[i]];
  }

  lemma MapsStep(table: seq<int>, was: seq<MapNode>, i: int)
    requires 0 <= i < |was| && Maps(table, Distinct(was[..i])) && 0 <= was[i].content <= 0xFFFF
    ensures |table| == 0x1_0000 && |Distinct(was[..i])| <= 0xFFFF ==>
            (was[i].content in Distinct(was[..i]) <==> table[was[i].content] != NO_MAPPING)
    ensures var d, d', c := Distinct(was[..i]), Distinct(was[..i + 1]), was[i].content;
      if c in d then d' == d && Maps(table, d') && table[c] == IndexOf(d', c)
      else d' == d + [c] && Maps(table[c := |d|], d') && IndexOf(d', c) == |d| && |table| == 0x1_0000
  {
    var d, c := Distinct(was[..i]), was[i].content;
    DistinctNext(was, i);
    hide Distinct;
    if c !in d {
      forall e
        ensures e in d ==> IndexOf(d + [c], e) == IndexOf(d, e)
        ensures e !in d && e == c ==> IndexOf(d + [c], e) == |d|
      {
        IndexOfAppend(d, c, e);
      }
    }
  }

  /**
   getBlockNodeIdMapping: every node's id becomes its place in the order of first appearance, and the
   mapping gets the names by these places.
   */
  method GetBlockNodeIdMapping(nimap: NameIdMapping, nodes: array<MapNode>, ndef: NodeDefManager)
    requires |Distinct(nodes[..])| <= 0xFFFF && AreIds(nodes[..])
    requires forall i :: 0 <= i < nodes.Length ==> ndef.Name(nodes[i].content) != ""
    modifies nimap, nodes
    ensures var d := Distinct(old(nodes[..]));
      && nodes[..] == Renumbered(old(nodes[..]), d)
      && nimap.idToName == NamesOf(ndef.Contents(), d, old(nimap.idToName))
      && nimap.nameToId == PlacesOf(ndef.Contents(), d, old(nimap.nameToId))
  {
    hide Distinct, Renumbered, Maps, RenumberedUpTo, IndexOf;
    ghost var was, reg := nodes[..], ndef.Contents();
    NumberingStarts(was);
    var mapping := new int[0x1_0000](_ => NO_MAPPING);
    var idCounter := 0;
    MappingStarts(mapping[..], was);
    for i := 0 to nodes.Length
      invariant RenumberedUpTo(nodes[..], was, i)
      invariant Maps(mapping[..], Distinct(was[..i]))
      invariant idCounter == |Distinct(was[..i])|
      invariant nimap.idToName == NamesOf(reg, Distinct(was[..i]), old(nimap.idToName))
      invariant nimap.nameToId == PlacesOf(reg, Distinct(was[..i]), old(nimap.nameToId))
    {
      var globalId := nodes[i].content;
      UntouchedYet(nodes[..], was, i);
      DistinctGrows(was, i);
      MapsStep(mapping[..], was, i);
      var id;
      if mapping[globalId] != NO_MAPPING {
        id := mapping[globalId];
      } else {
        id := idCounter;
        idCounter := idCounter + 1;
        mapping[globalId] := id;
        nimap.Set(id, ndef.Name(globalId));
      }
      RenumberStep(nodes[..], was, i, id);
      nodes[i] := nodes[i].(content := id);
    }
    NumberingEnds(nodes[..], was);
  }

  lemma NumberingStarts(was: seq<MapNode>)
    ensures Distinct(was[..0]) == []
  {
  }

  lemma UntouchedYet(nodes: seq<MapNode>, was: seq<MapNode>, i: int)
    requires RenumberedUpTo(nodes, was, i) && i < |was|
    ensures nodes[i] == was[i]
  {
    assert nodes[i..][0] == was[i..][0];
  }

  lemma NumberingEnds(nodes: seq<MapNode>, was: seq<MapNode>)
    requires RenumberedUpTo(nodes, was, |was|)
    ensures nodes == Renumbered(was, Distinct(was)) && was[..|was|] == was
  {
    assert nodes[..|was|] == nodes && was[..|was|] == was;
  }

  // ---------------------------------------------------------------- resolving the ids again

  /** One node, looked up without regard to the node before it. */
  function Corrected(nimap: map<int, string>, reg: Registry, node: MapNode): (MapNode, Registry) {
    if node.content !in nimap then (node, reg)
    else
      var name := nimap[node.content];
      if name in reg.ids then (node.(content := reg.ids[name]), reg)
      else
        var (id, reg') := Allocated(reg, name);
        if id == CONTENT_IGNORE then (node, reg') else (node.(content := id), reg')
  }

  /** A lookup for every node. */
  function CorrectedAll(nimap: map<int, string>, reg: Registry, nodes: seq<MapNode>): (r: (seq<MapNode>, Registry))
    ensures |r.0| == |nodes|
  {
    if nodes == [] then ([], reg)
    else
      var n := |nodes| - 1;
      var (before, reg') := CorrectedAll(nimap, reg, nodes[..n]);
      var (node, reg'') := Corrected(nimap, reg', nodes[n]);
      (before + [node], reg'')
  }

  /** What the loop remembers: the last id that was resolved, and to what. */
  ghost predicate Remembers(nimap: map<int, string>, reg: Registry, local: int, global: int) {
    local in nimap && nimap[local] in reg.ids && reg.ids[nimap[local]] == global
  }

  ghost predicate CorrectedUpTo(
    nimap: map<int, string>, reg: Registry, was: seq<MapNode>, reg': Registry, nodes: seq<MapNode>, i: int) {
    && 0 <= i <= |was| == |nodes|
    && nodes[i..] == was[i..]
    && CorrectedAll(nimap, reg, was[..i]) == (nodes[..i], reg')
  }

  lemma CorrectStep(nimap: map<int, string>, reg: Registry, was: seq<MapNode>,
    reg': Registry, nodes: seq<MapNode>, i: int, node: MapNode, reg'': Registry)
    requires CorrectedUpTo(nimap, reg, was, reg', nodes, i) && i < |was|
    requires (node, reg'') == Corrected(nimap, reg', nodes[i])
    ensures CorrectedUpTo(nimap, reg, was, reg'', nodes[i := node], i + 1)
  {
    hide Corrected;
    assert nodes[i] == was[i] by {
      assert nodes[i..][0] == was[i..][0];
    }
    assert was[..i + 1][..i] == was[..i];
    assert nodes[i := node][i + 1..] == nodes[i..][1..] && was[i + 1..] == was[i..][1..];
    assert nodes[i := node][..i + 1] == nodes[..i] + [node];
  }

  lemma CorrectEnds(nimap: map<int, string>, reg: Registry, was: seq<MapNode>, reg': Registry, nodes: seq<MapNode>)
    requires CorrectedUpTo(nimap, reg, was, reg', nodes, |was|)
    ensures CorrectedAll(nimap, reg, was) == (nodes, reg')
  {
    assert was[..|was|] == was && nodes[..|was|] == nodes;
  }

  lemma CorrectStarts(nimap: map<int, string>, reg: Registry, was: seq<MapNode>)
    ensures CorrectedUpTo(nimap, reg, was, reg, was, 0)
  {
  }

  /** Looking up a remembered id again gives the same and registers nothing. */
  lemma RememberedIsCorrect(nimap: map<int, string>, reg: Registry, node: MapNode, global: int)
    requires Remembers(nimap, reg, node.content, global)
    ensures Corrected(nimap, reg, node) == (node.(content := global), reg)
  {
  }

  /**
   correctBlockNodeIds: the shortcut for runs of equal ids gives the same nodes and the same registry
   as a lookup for every node.
   */
  method CorrectBlockNodeIds(nimap: NameIdMapping, nodes: array<MapNode>, ndef: NodeDefManager)
    requires CONTENT_IGNORE !in ndef.spare
    modifies nodes, ndef
    ensures (nodes[..], ndef.Contents()) == CorrectedAll(nimap.idToName, old(ndef.Contents()), old(nodes[..]))
    ensures old(Fresh(ndef.Contents())) ==>
              && Fresh(ndef.Contents())
              && KeptApart(nimap.idToName, old(ndef.Contents()), old(nodes[..]), nodes[..], ndef.Contents())
  {
    hide CorrectedAll, CorrectedUpTo, Fresh, KeptApart;
    ghost var was, reg, idToName := nodes[..], ndef.Contents(), nimap.idToName;
    CorrectStarts(idToName, reg, was);
    var previousExists, previousLocal, previousGlobal := false, CONTENT_IGNORE, CONTENT_IGNORE;
    for i := 0 to nodes.Length
      invariant CorrectedUpTo(idToName, reg, was, ndef.Contents(), nodes[..], i)
      invariant previousExists ==> Remembers(idToName, ndef.Contents(), previousLocal, previousGlobal)
      invariant CONTENT_IGNORE !in ndef.spare
    {
      ghost var before, reg' := nodes[..], ndef.Contents();
      var localId := nodes[i].content;
      if previousExists && localId == previousLocal {
        RememberedIsCorrect(idToName, reg', nodes[i], previousGlobal);
        nodes[i] := nodes[i].(content := previousGlobal);
        CorrectStep(idToName, reg, was, reg', before, i, nodes[i], reg');
        continue;
      }
      if localId !in nimap.idToName {
        previousExists := false;
        CorrectStep(idToName, reg, was, reg', before, i, nodes[i], reg');
        assert before[i := nodes[i]] == before;
        continue;
      }
      var name := nimap.idToName[localId];
      var globalId;
      if name in ndef.ids {
        globalId := ndef.ids[name];
      } else {
        globalId := ndef.AllocateUnknown(name);
        if globalId == CONTENT_IGNORE {
          previousExists := false;
          CorrectStep(idToName, reg, was, reg', before, i, nodes[i], ndef.Contents());
          assert before[i := nodes[i]] == before;
          continue;
        }
      }
      nodes[i] := nodes[i].(content := globalId);
      CorrectStep(idToName, reg, was, reg', before, i, nodes[i], ndef.Contents());
      previousLocal, previousGlobal, previousExists := localId, globalId, true;
    }
    CorrectEnds(idToName, reg, was, ndef.Contents(), nodes[..]);
    if Fresh(reg) {
      NamesStayApart(idToName, reg, was);
    }
  }

  /** The node by the final registry. */
  function ByRegistry(nimap: map<int, string>, reg: Registry, node: MapNode): MapNode {
    if node.content in nimap && nimap[node.content] in reg.ids
    then node.(content := reg.ids[nimap[node.content]]) else node
  }

  /** A name without an id at the end: all ids are taken. */
  predicate Settled(nimap: map<int, string>, reg: Registry, node: MapNode) {
    node.content in nimap && nimap[node.content] !in reg.ids ==> reg.spare == []
  }

  predicate Extends(reg: Registry, more: Registry) {
    && (forall name :: name in reg.ids ==> name in more.ids && more.ids[name] == reg.ids[name])
    && (reg.spare == [] ==> more == reg)
    && (CONTENT_IGNORE !in reg.spare ==> CONTENT_IGNORE !in more.spare)
  }

  lemma CorrectedOnce(nimap: map<int, string>, reg: Registry, node: MapNode)
    requires CONTENT_IGNORE !in reg.spare
    ensures var (after, reg') := Corrected(nimap, reg, node);
      after == ByRegistry(nimap, reg', node) && Settled(nimap, reg', node) && Extends(reg, reg')
  {
  }

  lemma StaysSettled(nimap: map<int, string>, reg: Registry, more: Registry, node: MapNode)
    requires Extends(reg, more) && Settled(nimap, reg, node)
    ensures ByRegistry(nimap, more, node) == ByRegistry(nimap, reg, node) && Settled(nimap, more, node)
  {
  }

  /**
   The result in one go: ids that have a name become the id of that name in the final registry, which
   extends the first one; a name is left without an id only when all ids are taken.
   */
  lemma {:induction false} CorrectedByFinal(nimap: map<int, string>, reg: Registry, nodes: seq<MapNode>)
    requires CONTENT_IGNORE !in reg.spare
    ensures var (after, reg') := CorrectedAll(nimap, reg, nodes);
      && Extends(reg, reg')
      && forall i :: 0 <= i < |nodes| ==>
        after[i] == ByRegistry(nimap, reg', nodes[i]) && Settled(nimap, reg', nodes[i])
  {
    if nodes != [] {
      var n := |nodes| - 1;
      CorrectedByFinal(nimap, reg, nodes[..n]);
      var (before, reg') := CorrectedAll(nimap, reg, nodes[..n]);
      CorrectedOnce(nimap, reg', nodes[n]);
      var (node, reg'') := Corrected(nimap, reg', nodes[n]);
      hide Corrected, ByRegistry, Settled;
      forall i | 0 <= i < n
        ensures (before + [node])[i] == ByRegistry(nimap, reg'', nodes[i]) && Settled(nimap, reg'', nodes[i])
      {
        assert nodes[..n][i] == nodes[i];
        StaysSettled(nimap, reg', reg'', nodes[i]);
      }
    }
  }

  // ---------------------------------------------------------------- different names, different ids

  /** The free ids are different, and used for nothing yet. */
  ghost predicate Fresh(reg: Registry) {
    && (forall i, j :: 0 <= i < j < |reg.spare| ==> reg.spare[i] != reg.spare[j])
    && forall id :: id in reg.spare ==> id != CONTENT_IGNORE && id !in reg.names && id !in reg.ids.Values
  }

  /** Names and ids lead to each other; there are no aliases. */
  ghost predicate Inverse(reg: Registry) {
    && (forall name :: name in reg.ids ==> reg.ids[name] in reg.names && reg.names[reg.ids[name]] == name)
    && forall id :: id in reg.names ==> reg.names[id] in reg.ids && reg.ids[reg.names[id]] == id
  }

  /** Two names share an id only where they have done so before, as an alias does with its name. */
  ghost predicate SharesNoMore(reg: Registry, more: Registry) {
    forall a, b :: a in more.ids && b in more.ids ==>
      (more.ids[a] == more.ids[b]
       <==> a == b || (a in reg.ids && b in reg.ids && reg.ids[a] == reg.ids[b]))
  }

  /** A name without an id gets one that nothing else has, and keeps its name. */
  lemma AllocatedIsFresh(reg: Registry, name: string)
    requires Fresh(reg) && name !in reg.ids
    ensures var (id, reg') := Allocated(reg, name);
      && Fresh(reg') && SharesNoMore(reg, reg') && (Inverse(reg) ==> Inverse(reg'))
      && (id == CONTENT_IGNORE <==> reg.spare == [])
      && (id != CONTENT_IGNORE ==>
            id !in reg.names && id !in reg.ids.Values && reg'.Name(id) == name && reg'.ids == reg.ids[name := id])
  {
    var (id, reg') := Allocated(reg, name);
    if reg.spare != [] {
      assert id in reg.spare;
      forall c | c in reg'.spare ensures c != CONTENT_IGNORE && c !in reg'.names && c !in reg'.ids.Values {
        assert c in reg.spare;
      }
      forall a | a in reg.ids ensures reg.ids[a] != id {
        assert reg.ids[a] in reg.ids.Values;
      }
    } else {
      assert forall a :: a in reg.ids ==> reg.ids[a] in reg.ids.Values;
    }
  }

  lemma CorrectedIsFresh(nimap: map<int, string>, reg: Registry, node: MapNode)
    requires Fresh(reg)
    ensures var reg' := Corrected(nimap, reg, node).1;
      Fresh(reg') && SharesNoMore(reg, reg') && (Inverse(reg) ==> Inverse(reg'))
  {
    if node.content in nimap && nimap[node.content] !in reg.ids {
      AllocatedIsFresh(reg, nimap[node.content]);
    }
    hide Allocated, Inverse, Fresh;
  }

  lemma SharesNoMoreThen(reg: Registry, mid: Registry, more: Registry)
    requires Extends(reg, mid) && SharesNoMore(reg, mid) && SharesNoMore(mid, more)
    ensures SharesNoMore(reg, more)
  {
    forall a, b | a in more.ids && b in more.ids
      ensures more.ids[a] == more.ids[b]
         <==> a == b || (a in reg.ids && b in reg.ids && reg.ids[a] == reg.ids[b])
    {
      if a in mid.ids && b in mid.ids {
        assert mid.ids[a] == mid.ids[b] <==> a == b || (a in reg.ids && b in reg.ids && reg.ids[a] == reg.ids[b]);
      }
    }
  }

  lemma {:induction false} CorrectedAllIsFresh(nimap: map<int, string>, reg: Registry, nodes: seq<MapNode>)
    requires Fresh(reg)
    ensures var reg' := CorrectedAll(nimap, reg, nodes).1;
      Fresh(reg') && Extends(reg, reg') && SharesNoMore(reg, reg') && (Inverse(reg) ==> Inverse(reg'))
  {
    hide Fresh, Inverse, SharesNoMore, Corrected, Extends;
    assert CONTENT_IGNORE !in reg.spare by {
      FreshMeans(reg);
    }
    CorrectedByFinal(nimap, reg, nodes);
    if nodes != [] {
      var n := |nodes| - 1;
      var mid := CorrectedAll(nimap, reg, nodes[..n]).1;
      CorrectedAllIsFresh(nimap, reg, nodes[..n]);
      CorrectedIsFresh(nimap, mid, nodes[n]);
      SharesNoMoreThen(reg, mid, Corrected(nimap, mid, nodes[n]).1);
    } else {
      SharesAlike(reg);
    }
  }

  lemma FreshMeans(reg: Registry)
    requires Fresh(reg)
    ensures CONTENT_IGNORE !in reg.spare
  {
  }

  lemma SharesAlike(reg: Registry)
    ensures SharesNoMore(reg, reg)
  {
  }

  /** The name of a node has an id in the end. */
  predicate Resolved(nimap: map<int, string>, reg: Registry, node: MapNode) {
    node.content in nimap && nimap[node.content] in reg.ids
  }

  /** What different nodes end up with: nodes of different names get different ids, unless the names were aliases
      before; and without aliases each node keeps its name. */
  ghost predicate KeptApart(nimap: map<int, string>, reg: Registry, nodes: seq<MapNode>, after: seq<MapNode>,
                            reg': Registry)
  {
    && |after| == |nodes|
    && (forall i, j :: 0 <= i < |nodes| && 0 <= j < |nodes|
                       && Resolved(nimap, reg', nodes[i]) && Resolved(nimap, reg', nodes[j]) ==>
          var a, b := nimap[nodes[i].content], nimap[nodes[j].content];
          after[i].content == after[j].content
          <==> a == b || (a in reg.ids && b in reg.ids && reg.ids[a] == reg.ids[b]))
    && (Inverse(reg) ==>
          forall i :: 0 <= i < |nodes| && Resolved(nimap, reg', nodes[i]) ==>
            reg'.Name(after[i].content) == nimap[nodes[i].content])
  }

  /** Resolving the ids of a block gives every name an id of its own, and the registry stays in order. */
  lemma NamesStayApart(nimap: map<int, string>, reg: Registry, nodes: seq<MapNode>)
    requires Fresh(reg)
    ensures var (after, reg') := CorrectedAll(nimap, reg, nodes);
      && Fresh(reg') && (Inverse(reg) ==> Inverse(reg'))
      && KeptApart(nimap, reg, nodes, after, reg')
  {
    CorrectedAllIsFresh(nimap, reg, nodes);
    FreshMeans(reg);
    CorrectedByFinal(nimap, reg, nodes);
    hide Fresh, CorrectedAll, Extends, Settled;
  }

  // ---------------------------------------------------------------- the round trip

  /**
   An id that comes back: its name leads to it, or its name has no id, no id is free, and its number
   in the block happens to be the id itself.
   */
  predicate ComesBack(reg: Registry, d: seq<int>, c: int) {
    if reg.Name(c) in reg.ids then reg.ids[reg.Name(c)] == c else reg.spare == [] && IndexOf(d, c) == c
  }

  lemma NodeComesBack(reg: Registry, nodes: seq<MapNode>, base: map<int, string>, i: int)
    requires 0 <= i < |nodes| && ComesBack(reg, Distinct(nodes), nodes[i].content)
    ensures var d := Distinct(nodes); Corrected(NamesOf(reg, d, base), reg, Renumbered(nodes, d)[i]) == (nodes[i], reg)
  {
    NamesOfHas(reg, Distinct(nodes), base, IndexOf(Distinct(nodes), nodes[i].content));
    hide NamesOf, Distinct;
  }

  lemma CorrectedAllNext(nimap: map<int, string>, reg: Registry, nodes: seq<MapNode>, n: nat,
    before: seq<MapNode>, node: MapNode)
    requires n < |nodes| && CorrectedAll(nimap, reg, nodes[..n]) == (before, reg)
    requires Corrected(nimap, reg, nodes[n]) == (node, reg)
    ensures CorrectedAll(nimap, reg, nodes[..n + 1]) == (before + [node], reg)
  {
    hide Corrected;
    assert nodes[..n + 1][..n] == nodes[..n];
  }

  lemma {:induction false} PrefixRoundTrip(reg: Registry, nodes: seq<MapNode>, base: map<int, string>, n: nat)
    requires n <= |nodes| && forall i :: 0 <= i < |nodes| ==> ComesBack(reg, Distinct(nodes), nodes[i].content)
    ensures var d := Distinct(nodes);
      CorrectedAll(NamesOf(reg, d, base), reg, Renumbered(nodes, d)[..n]) == (nodes[..n], reg)
  {
    hide *;
    var d := Distinct(nodes);
    var nimap, numbered := NamesOf(reg, d, base), Renumbered(nodes, d);
    if n == 0 {
      NothingCorrected(nimap, reg, numbered, nodes);
    } else {
      PrefixRoundTrip(reg, nodes, base, n - 1);
      NodeComesBack(reg, nodes, base, n - 1);
      CorrectedAllNext(nimap, reg, numbered, n - 1, nodes[..n - 1], nodes[n - 1]);
      PrefixNext(nodes, n - 1);
    }
  }

  lemma NothingCorrected(nimap: map<int, string>, reg: Registry, numbered: seq<MapNode>, nodes: seq<MapNode>)
    ensures CorrectedAll(nimap, reg, numbered[..0]) == (nodes[..0], reg)
  {
  }

  lemma PrefixNext<T>(s: seq<T>, n: nat)
    requires n < |s|
    ensures s[..n + 1] == s[..n] + [s[n]]
  {
  }

  lemma ComesBackIf(reg: Registry, nodes: seq<MapNode>, base: map<int, string>, i: int)
    requires CONTENT_IGNORE !in reg.spare && 0 <= i < |nodes|
    requires var d := Distinct(nodes);
      CorrectedAll(NamesOf(reg, d, base), reg, Renumbered(nodes, d)) == (nodes, reg)
    ensures ComesBack(reg, Distinct(nodes), nodes[i].content)
  {
    var d := Distinct(nodes);
    CorrectedByFinal(NamesOf(reg, d, base), reg, Renumbered(nodes, d));
    NamesOfHas(reg, d, base, IndexOf(d, nodes[i].content));
    hide Distinct, NamesOf, CorrectedAll;
  }

  /**
   Renumbering a block and resolving the ids again restores every node, and registers nothing new,
   exactly when every id in use comes back: it does when its name leads back to it.
   */
  lemma RoundTrip(reg: Registry, nodes: seq<MapNode>, base: map<int, string>)
    requires CONTENT_IGNORE !in reg.spare
    ensures var d := Distinct(nodes);
      CorrectedAll(NamesOf(reg, d, base), reg, Renumbered(nodes, d)) == (nodes, reg)
      <==> forall i :: 0 <= i < |nodes| ==> ComesBack(reg, d, nodes[i].content)
  {
    var d := Distinct(nodes);
    hide CorrectedAll, Distinct, NamesOf, ComesBack;
    if forall i :: 0 <= i < |nodes| ==> ComesBack(reg, d, nodes[i].content) {
      PrefixRoundTrip(reg, nodes, base, |nodes|);
      assert Renumbered(nodes, d)[..|nodes|] == Renumbered(nodes, d) && nodes[..|nodes|] == nodes;
    }
    if CorrectedAll(NamesOf(reg, d, base), reg, Renumbered(nodes, d)) == (nodes, reg) {
      forall i | 0 <= i < |nodes|
        ensures ComesBack(reg, d, nodes[i].content)
      {
        ComesBackIf(reg, nodes, base, i);
      }
    }
  }

  /** An id that is not registered does not survive: in any block it comes back as the id of "unknown". */
  lemma UnregisteredIsLost(reg: Registry, nodes: seq<MapNode>, base: map<int, string>, i: int)
    requires 0 <= i < |nodes| && nodes[i].content !in reg.names && CONTENT_IGNORE !in reg.spare
    requires UNKNOWN in reg.ids && reg.ids[UNKNOWN] != nodes[i].content
    ensures var d := Distinct(nodes);
      CorrectedAll(NamesOf(reg, d, base), reg, Renumbered(nodes, d)).0[i] == nodes[i].(content := reg.ids[UNKNOWN])
  {
    var d := Distinct(nodes);
    CorrectedByFinal(NamesOf(reg, d, base), reg, Renumbered(nodes, d));
    NamesOfHas(reg, d, base, IndexOf(d, nodes[i].content));
    hide Distinct, NamesOf, CorrectedAll;
  }
}
