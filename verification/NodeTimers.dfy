/**
 Node timers of a map block (src/nodetimer.h, src/nodetimer.cpp): timers ordered by trigger time, an
 index from positions into them, and the time of the next trigger.
 */
module NodeTimers {

  datatype Pos = Pos(x: int, y: int, z: int)

  datatype NodeTimer = NodeTimer(timeout: real, elapsed: real, position: Pos)

  /** An element of the time-ordered multimap; the handle stands for the iterators that point to it. */
  datatype Entry = Entry(trigger: real, timer: NodeTimer, handle: nat)

  datatype State = State(
    timers: seq<Entry>, iterators: map<Pos, nat>, nextTrigger: real, time: real, handles: nat)

  const NONE: real := -1.0

  // ---------------------------------------------------------------- the operations as functions

  /** Where an element with this trigger time goes: after all that are not later. */
  function InsertAt(timers: seq<Entry>, e: Entry): seq<Entry> {
    if timers == [] || e.trigger < timers[0].trigger then [e] + timers
    else [timers[0]] + InsertAt(timers[1..], e)
  }

  function Without(timers: seq<Entry>, handle: nat): seq<Entry> {
    if timers == [] then []
    else if timers[0].handle == handle then timers[1..]
    else [timers[0]] + Without(timers[1..], handle)
  }

  function FirstTrigger(timers: seq<Entry>): real {
    if timers == [] then NONE else timers[0].trigger
  }

  function Inserted(st: State, timer: NodeTimer): State {
    var trigger := st.time + (timer.timeout - timer.elapsed);
    State(InsertAt(st.timers, Entry(trigger, timer, st.handles)),
          st.iterators[timer.position := st.handles],
          if st.nextTrigger == NONE || trigger < st.nextTrigger then trigger else st.nextTrigger,
          st.time, st.handles + 1)
  }

  /** The entry with a handle, if there is one. */
  function Find(timers: seq<Entry>, handle: nat): (e: seq<Entry>)
    ensures |e| <= 1
    ensures |e| == 1 ==> e[0] in timers && e[0].handle == handle
  {
    if timers == [] then []
    else if timers[0].handle == handle then [timers[0]]
    else Find(timers[1..], handle)
  }

  function Removed(st: State, p: Pos): State {
    if p !in st.iterators then st
    else
      var timers := Without(st.timers, st.iterators[p]);
      var found := Find(st.timers, st.iterators[p]);
      st.(timers := timers, iterators := st.iterators - {p},
          nextTrigger := if found != [] && found[0].trigger == st.nextTrigger then FirstTrigger(timers)
              else st.nextTrigger)
  }

  function Cleared(st: State): State {
    st.(timers := [], iterators := map[], nextTrigger := NONE)
  }

  /** How many leading timers are due. */
  function Due(timers: seq<Entry>, time: real): (n: nat)
    ensures n <= |timers|
    ensures forall i :: 0 <= i < n ==> timers[i].trigger <= time
    ensures n < |timers| ==> timers[n].trigger > time
  {
    if timers != [] && timers[0].trigger <= time then 1 + Due(timers[1..], time) else 0
  }

  function Elapsed(e: Entry, time: real): NodeTimer {
    e.timer.(elapsed := e.timer.timeout + (time - e.trigger))
  }

  function ElapsedAll(timers: seq<Entry>, time: real): (r: seq<NodeTimer>)
    ensures |r| == |timers|
  {
    seq(|timers|, i requires 0 <= i < |timers| => Elapsed(timers[i], time))
  }

  function Idle(st: State, time: real): bool {
    st.nextTrigger == NONE || time < st.nextTrigger
  }

  function Stepped(st: State, dtime: real): State {
    var time := st.time + dtime;
    if Idle(st, time) then st.(time := time)
    else
      var n := Due(st.timers, time);
      st.(timers := st.timers[n..], iterators := st.iterators - Positions(st.timers[..n]),
          nextTrigger := FirstTrigger(st.timers[n..]), time := time)
  }

  function Positions(timers: seq<Entry>): set<Pos> {
    set e | e in timers :: e.timer.position
  }

  /** The timers that a step returns. */
  function Fired(st: State, dtime: real): seq<NodeTimer> {
    var time := st.time + dtime;
    if Idle(st, time) then []
    else ElapsedAll(st.timers[..Due(st.timers, time)], time)
  }

  // ---------------------------------------------------------------- the invariant

  ghost predicate Sorted(timers: seq<Entry>) {
    forall i, j :: 0 <= i < j < |timers| ==> timers[i].trigger <= timers[j].trigger
  }

  ghost predicate DistinctHandles(timers: seq<Entry>) {
    forall i, j :: 0 <= i < j < |timers| ==> timers[i].handle != timers[j].handle
  }

  /** Both maps hold the same timers. */
  ghost predicate Indexed(st: State) {
    && DistinctHandles(st.timers)
    && (forall e :: e in st.timers ==>
      && e.timer.position in st.iterators
      && st.iterators[e.timer.position] == e.handle
      && e.handle < st.handles)
    && forall p :: p in st.iterators ==> exists e :: e in st.timers && e.timer.position == p
  }

  ghost predicate Inv(st: State) {
    Sorted(st.timers) && Indexed(st) && st.nextTrigger == FirstTrigger(st.timers)
  }

  /** The earliest timer triggers at the time that stands for "no timer". */
  predicate StartsWithSentinel(st: State) {
    st.timers != [] && st.timers[0].trigger == NONE
  }

  lemma {:induction false} InsertAtHas(timers: seq<Entry>, e: Entry) returns (k: nat)
    ensures k <= |timers| && InsertAt(timers, e) == timers[..k] + [e] + timers[k..]
    ensures forall i :: 0 <= i < k ==> timers[i].trigger <= e.trigger
    ensures k < |timers| ==> e.trigger < timers[k].trigger
  {
    if timers == [] || e.trigger < timers[0].trigger {
      k := 0;
    } else {
      k := InsertAtHas(timers[1..], e);
      assert timers[..k + 1] == [timers[0]] + timers[1..][..k];
      assert timers[1..][k..] == timers[k + 1..];
      k := k + 1;
    }
  }

  lemma {:induction false} WithoutHas(timers: seq<Entry>, k: nat)
    requires k < |timers|
    requires forall i, j :: 0 <= i < j < |timers| ==> timers[i].handle != timers[j].handle
    ensures Without(timers, timers[k].handle) == timers[..k] + timers[k + 1..]
    ensures Find(timers, timers[k].handle) == [timers[k]]
  {
    if k > 0 {
      WithoutHas(timers[1..], k - 1);
      assert timers[..k] == [timers[0]] + timers[1..][..k - 1];
      assert timers[1..][k..] == timers[k + 1..];
    }
  }

  lemma InsertMembers(timers: seq<Entry>, e: Entry)
    ensures forall x :: x in InsertAt(timers, e) <==> x in timers || x == e
    ensures FirstTrigger(InsertAt(timers, e)) ==
      if timers == [] || e.trigger < timers[0].trigger then e.trigger else timers[0].trigger
  {
    var k := InsertAtHas(timers, e);
    hide InsertAt;
    forall x
      ensures x in InsertAt(timers, e) <==> x in timers || x == e
    {
      assert timers == timers[..k] + timers[k..];
      assert x in timers <==> x in timers[..k] || x in timers[k..];
    }
  }

  lemma InsertSorted(timers: seq<Entry>, e: Entry)
    requires Sorted(timers)
    ensures Sorted(InsertAt(timers, e))
  {
    var k := InsertAtHas(timers, e);
    hide InsertAt;
    assert forall i :: k <= i < |timers| ==> e.trigger <= timers[i].trigger;
  }

  lemma InsertDistinct(timers: seq<Entry>, e: Entry)
    requires DistinctHandles(timers) && forall x :: x in timers ==> x.handle < e.handle
    ensures DistinctHandles(InsertAt(timers, e))
  {
    var k := InsertAtHas(timers, e);
    hide InsertAt;
    assert forall i :: 0 <= i < |timers| ==> timers[i].handle < e.handle;
  }

  lemma InsertIndexed(st: State, timer: NodeTimer)
    requires Indexed(st) && timer.position !in st.iterators
    ensures Indexed(Inserted(st, timer))
  {
    var e := Entry(st.time + (timer.timeout - timer.elapsed), timer, st.handles);
    InsertMembers(st.timers, e);
    InsertDistinct(st.timers, e);
    hide InsertAt, DistinctHandles, FirstTrigger;
    var st' := Inserted(st, timer);
    forall p | p in st'.iterators
      ensures exists x :: x in st'.timers && x.timer.position == p
    {
      if p == timer.position {
        assert e in st'.timers;
      } else {
        var x :| x in st.timers && x.timer.position == p;
        assert x in st'.timers;
      }
    }
  }

  /** Inserting keeps the invariant exactly when the earliest timer is not at -1, or the new one is no later:
      otherwise the new one is taken for the earliest. */
  lemma InsertKeeps(st: State, timer: NodeTimer)
    requires Inv(st) && timer.position !in st.iterators
    ensures Inv(Inserted(st, timer))
       <==> !StartsWithSentinel(st) || st.time + (timer.timeout - timer.elapsed) <= NONE
  {
    var e := Entry(st.time + (timer.timeout - timer.elapsed), timer, st.handles);
    InsertMembers(st.timers, e);
    InsertSorted(st.timers, e);
    InsertIndexed(st, timer);
    hide InsertAt, Sorted, Indexed;
  }

  lemma RemoveParts(st: State, p: Pos) returns (k: nat)
    requires Inv(st) && p in st.iterators
    ensures k < |st.timers| && st.timers[k].timer.position == p
    ensures Removed(st, p).timers == st.timers[..k] + st.timers[k + 1..]
    ensures Removed(st, p).nextTrigger == FirstTrigger(Removed(st, p).timers)
  {
    var e :| e in st.timers && e.timer.position == p;
    k :| 0 <= k < |st.timers| && st.timers[k] == e;
    WithoutHas(st.timers, k);
    hide Without, Find;
    assert st.timers[0] in st.timers;
    assert st.timers[0].trigger <= e.trigger;
  }

  /** Only the timer at the removed position goes. */
  lemma RemoveMembers(st: State, p: Pos)
    requires Inv(st) && p in st.iterators
    ensures forall x :: x in Removed(st, p).timers <==> x in st.timers && x.timer.position != p
  {
    var k := RemoveParts(st, p);
    hide Removed;
    forall x
      ensures x in Removed(st, p).timers <==> x in st.timers && x.timer.position != p
    {
      if x in Removed(st, p).timers {
        assert x in st.timers[..k] || x in st.timers[k + 1..];
      }
      if x in st.timers && x.timer.position != p {
        var i :| 0 <= i < |st.timers| && st.timers[i] == x;
        assert i < k ==> st.timers[..k][i] == x;
        assert i > k ==> st.timers[k + 1..][i - k - 1] == x;
      }
      if x in st.timers[..k] || x in st.timers[k + 1..] {
        assert x.handle != st.timers[k].handle;
      }
    }
  }

  lemma Shrinks(st: State, st': State, gone: set<Pos>)
    requires Indexed(st) && DistinctHandles(st'.timers)
    requires forall x :: x in st'.timers <==> x in st.timers && x.timer.position !in gone
    requires st'.iterators == st.iterators - gone && st'.handles == st.handles
    ensures Indexed(st')
  {
    hide DistinctHandles;
    forall q | q in st'.iterators
      ensures exists x :: x in st'.timers && x.timer.position == q
    {
      var x :| x in st.timers && x.timer.position == q;
      assert x in st'.timers;
    }
  }

  lemma PartOrdered(timers: seq<Entry>, k: nat, n: nat)
    requires Sorted(timers) && DistinctHandles(timers) && k <= n <= |timers|
    ensures Sorted(timers[..k] + timers[n..]) && DistinctHandles(timers[..k] + timers[n..])
  {
  }

  lemma RemoveKeeps(st: State, p: Pos)
    requires Inv(st)
    ensures Inv(Removed(st, p))
    ensures Removed(st, p).iterators == st.iterators - {p}
  {
    if p in st.iterators {
      var k := RemoveParts(st, p);
      RemoveMembers(st, p);
      PartOrdered(st.timers, k, k + 1);
      hide Without, Find, Sorted, DistinctHandles, FirstTrigger;
      var st' := Removed(st, p);
      assert Indexed(st);
      assert st'.iterators == st.iterators - {p};
      hide Indexed, Removed;
      Shrinks(st, st', {p});
    }
  }

  lemma DueSplits(timers: seq<Entry>, time: real)
    requires Sorted(timers)
    ensures forall e :: e in timers[..Due(timers, time)] <==> e in timers && e.trigger <= time
    ensures forall e :: e in timers[Due(timers, time)..] <==> e in timers && e.trigger > time
  {
    var n := Due(timers, time);
    assert timers == timers[..n] + timers[n..];
    assert forall i :: n <= i < |timers| ==> timers[i].trigger > time;
  }

  lemma IdleMeansNoneDue(st: State, now: real)
    requires Inv(st) && Idle(st, now) && (!StartsWithSentinel(st) || now < NONE)
    ensures Due(st.timers, now) == 0
  {
  }

  /** A step removes exactly the timers that are due. */
  lemma StepMembers(st: State, dtime: real)
    requires Inv(st) && (!StartsWithSentinel(st) || st.time + dtime < NONE)
    ensures forall e :: e in Stepped(st, dtime).timers <==> e in st.timers && e.trigger > st.time + dtime
  {
    var time := st.time + dtime;
    DueSplits(st.timers, time);
    if Idle(st, time) {
      IdleMeansNoneDue(st, time);
      assert st.timers[0..] == st.timers;
    }
  }

  lemma DueGone(st: State, time: real)
    requires Inv(st)
    ensures var n := Due(st.timers, time);
      forall x :: x in st.timers[n..] <==> x in st.timers && x.timer.position !in Positions(st.timers[..n])
  {
    var n := Due(st.timers, time);
    DueSplits(st.timers, time);
    hide Due;
    forall x
      ensures x in st.timers[n..] <==> x in st.timers && x.timer.position !in Positions(st.timers[..n])
    {
      if x in st.timers[n..] {
        forall e | e in st.timers[..n]
          ensures e.timer.position != x.timer.position
        {
          SamePosition(st, e, x);
        }
      }
    }
  }

  lemma StepOrdered(timers: seq<Entry>, n: nat)
    requires Sorted(timers) && DistinctHandles(timers) && n <= |timers|
    ensures Sorted(timers[n..]) && DistinctHandles(timers[n..])
  {
    PartOrdered(timers, 0, n);
    assert timers[..0] + timers[n..] == timers[n..];
    hide Sorted, DistinctHandles;
  }

  lemma StepKeeps(st: State, dtime: real)
    requires Inv(st)
    ensures Inv(Stepped(st, dtime))
  {
    hide Due, Sorted, DistinctHandles, FirstTrigger, Positions, Idle;
    var time := st.time + dtime;
    if !Idle(st, time) {
      var n, st' := Due(st.timers, time), Stepped(st, dtime);
      StepOrdered(st.timers, n);
      var gone := Positions(st.timers[..n]);
      hide Indexed;
      DueGone(st, time);
      Shrinks(st, st', gone);
    }
  }

  lemma SamePosition(st: State, e: Entry, x: Entry)
    requires Inv(st) && e in st.timers && x in st.timers && e != x
    ensures e.timer.position != x.timer.position
  {
    var i :| 0 <= i < |st.timers| && st.timers[i] == e;
    var j :| 0 <= j < |st.timers| && st.timers[j] == x;
    assert i != j;
  }

  // ---------------------------------------------------------------- what the list stands for

  /** A timer as it was set, and when that was. */
  datatype Running = Running(timer: NodeTimer, start: real) {
    function End(): real {
      start + (timer.timeout - timer.elapsed)
    }

    function Aged(now: real): NodeTimer {
      timer.(elapsed := timer.elapsed + (now - start))
    }
  }

  datatype Ref = Ref(time: real, running: map<Pos, Running>)

  datatype Op = Set(timer: NodeTimer) | Remove(p: Pos) | Clear | Step(dtime: real)

  function RefNext(ref: Ref, op: Op): Ref {
    match op
    case Set(t) => ref.(running := ref.running[t.position := Running(t, ref.time)])
    case Remove(p) => ref.(running := ref.running - {p})
    case Clear => ref.(running := map[])
    case Step(dtime) =>
      Ref(ref.time + dtime, map p | p in ref.running && ref.running[p].End() > ref.time + dtime :: ref.running[p])
  }

  function Next(st: State, op: Op): State {
    match op
    case Set(t) => Inserted(Removed(st, t.position), t)
    case Remove(p) => Removed(st, p)
    case Clear => Cleared(st)
    case Step(dtime) => Stepped(st, dtime)
  }

  /** The earliest end of a running timer is the time that stands for "no timer". */
  ghost predicate SentinelFirst(ref: Ref) {
    exists p :: p in ref.running && ref.running[p].End() == NONE && forall q :: q in ref.running ==>
        ref.running[q].End() >= NONE
  }

  /** The operation is misled by a timer at -1: it steps past it, or sets a later one. */
  ghost predicate Misled(ref: Ref, op: Op) {
    match op
    case Set(t) => SentinelFirst(ref.(running := ref.running - {t.position})) && Running(t, ref.time).End() > NONE
    case Step(dtime) => SentinelFirst(ref) && ref.time + dtime >= NONE
    case _ => false
  }

  ghost predicate Represents(st: State, ref: Ref) {
    && st.time == ref.time
    && st.iterators.Keys == ref.running.Keys
    && forall e :: e in st.timers ==>
      && e.timer.position in ref.running
      && ref.running[e.timer.position].timer == e.timer
      && ref.running[e.timer.position].End() == e.trigger
  }

  lemma InsertRepresents(st: State, ref: Ref, timer: NodeTimer)
    requires Inv(st) && Represents(st, ref) && timer.position !in st.iterators
    ensures Represents(Inserted(st, timer), RefNext(ref, Set(timer)))
  {
    var e := Entry(st.time + (timer.timeout - timer.elapsed), timer, st.handles);
    InsertMembers(st.timers, e);
    hide InsertAt, Inv, FirstTrigger;
    assert forall x :: x in st.timers ==> x.timer.position in st.iterators.Keys;
  }

  lemma RemoveRepresents(st: State, ref: Ref, p: Pos)
    requires Inv(st) && Represents(st, ref)
    ensures Represents(Removed(st, p), RefNext(ref, Remove(p)))
  {
    RemoveKeeps(st, p);
    if p in st.iterators {
      RemoveMembers(st, p);
    }
    assert Removed(st, p).time == st.time;
    assert p !in st.iterators ==> forall x :: x in st.timers ==> x.timer.position != p;
    hide Removed, Inv;
    assert (st.iterators - {p}).Keys == (ref.running - {p}).Keys;
  }

  lemma StepKeys(st: State, ref: Ref, st': State, ref': Ref)
    requires Indexed(st) && Indexed(st') && Represents(st, ref)
    requires forall e :: e in st'.timers <==> e in st.timers && e.trigger > ref'.time
    requires forall p :: p in ref'.running <==> p in ref.running && ref.running[p].End() > ref'.time
    ensures st'.iterators.Keys == ref'.running.Keys
  {
    hide DistinctHandles;
    forall p
      ensures p in st'.iterators.Keys <==> p in ref'.running.Keys
    {
      if p in st'.iterators {
        var e :| e in st'.timers && e.timer.position == p;
      }
      if p in ref'.running {
        assert p in st.iterators.Keys;
        var e :| e in st.timers && e.timer.position == p;
        assert e in st'.timers;
      }
    }
  }

  lemma SentinelIsFirst(st: State, ref: Ref)
    requires Inv(st) && Represents(st, ref)
    ensures StartsWithSentinel(st) <==> SentinelFirst(ref)
  {
    if StartsWithSentinel(st) {
      var e := st.timers[0];
      assert e in st.timers && ref.running[e.timer.position].End() == NONE;
      forall q | q in ref.running ensures ref.running[q].End() >= NONE {
        var x := EntryAt(st, ref, q);
      }
    }
    if SentinelFirst(ref) {
      var p :| p in ref.running && ref.running[p].End() == NONE;
      var x := EntryAt(st, ref, p);
      assert st.timers[0] in st.timers;
    }
  }

  lemma EntryAt(st: State, ref: Ref, p: Pos) returns (e: Entry)
    requires Inv(st) && Represents(st, ref) && p in ref.running
    ensures e in st.timers && e.timer.position == p && e.trigger == ref.running[p].End()
    ensures ref.running[p].timer == e.timer && st.timers[0].trigger <= e.trigger
  {
    assert p in st.iterators.Keys;
    e :| e in st.timers && e.timer.position == p;
    var i :| 0 <= i < |st.timers| && st.timers[i] == e;
  }

  lemma StepMisled(st: State, ref: Ref, dtime: real)
    requires Inv(st) && Represents(st, ref)
    ensures st.time == ref.time
    ensures Misled(ref, Step(dtime)) <==> StartsWithSentinel(st) && st.time + dtime >= NONE
  {
    SentinelIsFirst(st, ref);
    hide Inv, StartsWithSentinel, SentinelFirst;
  }

  /** A step that is not misled removes the same timers from both; one that is leaves all of them. */
  lemma StepRepresents(st: State, ref: Ref, dtime: real)
    requires Inv(st) && Represents(st, ref)
    ensures Represents(Stepped(st, dtime), RefNext(ref, Step(dtime))) <==> !Misled(ref, Step(dtime))
  {
    hide *;
    StepMisled(st, ref, dtime);
    if Misled(ref, Step(dtime)) {
      StepStalls(st, ref, dtime);
    } else {
      StepFollows(st, ref, dtime);
    }
  }

  lemma StepStalls(st: State, ref: Ref, dtime: real)
    requires Inv(st) && Represents(st, ref) && StartsWithSentinel(st) && st.time + dtime >= NONE
    ensures Stepped(st, dtime) == st.(time := st.time + dtime) && Fired(st, dtime) == []
    ensures !Represents(Stepped(st, dtime), RefNext(ref, Step(dtime)))
  {
    var e := st.timers[0];
    assert e in st.timers && ref.running[e.timer.position].End() == NONE;
    assert e.timer.position in st.iterators.Keys;
    assert e.timer.position !in RefNext(ref, Step(dtime)).running;
  }

  lemma StepFollows(st: State, ref: Ref, dtime: real)
    requires Inv(st) && Represents(st, ref) && (!StartsWithSentinel(st) || st.time + dtime < NONE)
    ensures Represents(Stepped(st, dtime), RefNext(ref, Step(dtime)))
  {
    assert st.time == ref.time && Stepped(st, dtime).time == st.time + dtime;
    hide Inv, Stepped, StartsWithSentinel, Represents;
    StepMembers(st, dtime);
    StepKeeps(st, dtime);
    EndedDropped(st, ref, Stepped(st, dtime), RefNext(ref, Step(dtime)));
  }

  lemma EndedDropped(st: State, ref: Ref, st': State, ref': Ref)
    requires Inv(st) && Inv(st') && Represents(st, ref) && st'.time == ref'.time
    requires forall e :: e in st'.timers <==> e in st.timers && e.trigger > ref'.time
    requires ref'.running == map p | p in ref.running && ref.running[p].End() > ref'.time :: ref.running[p]
    ensures Represents(st', ref')
  {
    StepKeys(st, ref, st', ref');
    hide Inv;
  }

  /** Setting a timer describes it in both maps, and keeps the order unless it is misled. */
  lemma SetRepresents(st: State, ref: Ref, t: NodeTimer)
    requires Inv(st) && Represents(st, ref)
    ensures Represents(Next(st, Set(t)), RefNext(ref, Set(t)))
    ensures Inv(Next(st, Set(t))) <==> !Misled(ref, Set(t))
  {
    var mid, ref' := Removed(st, t.position), RefNext(ref, Remove(t.position));
    SetParts(st, ref, t);
    hide *;
    RemoveKeeps(st, t.position);
    RemoveRepresents(st, ref, t.position);
    InsertKeeps(mid, t);
    InsertRepresents(mid, ref', t);
    SentinelIsFirst(mid, ref');
  }

  lemma SetParts(st: State, ref: Ref, t: NodeTimer)
    requires st.time == ref.time
    ensures var mid, ref' := Removed(st, t.position), RefNext(ref, Remove(t.position));
      && Next(st, Set(t)) == Inserted(mid, t) && RefNext(ref', Set(t)) == RefNext(ref, Set(t))
      && mid.time == st.time && (t.position in mid.iterators ==> mid.iterators != st.iterators - {t.position})
      && (Misled(ref, Set(t)) <==> SentinelFirst(ref') && mid.time + (t.timeout - t.elapsed) > NONE)
  {
    hide Inserted, SentinelFirst, Without, Find;
  }

  /** One operation keeps the invariant and does to the timers what it does to the reference, exactly when
      it is not misled. */
  lemma NextRepresents(st: State, ref: Ref, op: Op)
    requires Inv(st) && Represents(st, ref)
    ensures Inv(Next(st, op)) && Represents(Next(st, op), RefNext(ref, op)) <==> !Misled(ref, op)
  {
    match op
    case Set(t) => SetRepresents(st, ref, t);
    case Remove(p) =>
      RemoveKeeps(st, p);
      RemoveRepresents(st, ref, p);
    case Clear =>
    case Step(dtime) =>
      StepKeeps(st, dtime);
      StepRepresents(st, ref, dtime);
  }

  /** `t` is a running timer that has ended, brought up to date. */
  ghost predicate IsDue(ref: Ref, now: real, t: NodeTimer) {
    exists p :: p in ref.running && ref.running[p].End() <= now && t == ref.running[p].Aged(now)
  }

  /**
   A step returns exactly the timers now due, each with its initial elapsed time plus the time that
   passed since it was set, exactly when it is not misled by a timer at -1.
   */
  lemma StepFires(st: State, ref: Ref, dtime: real)
    requires Inv(st) && Represents(st, ref)
    ensures (forall t :: t in Fired(st, dtime) <==> IsDue(ref, ref.time + dtime, t)) <==> !Misled(ref, Step(dtime))
  {
    hide *;
    StepMisled(st, ref, dtime);
    if Misled(ref, Step(dtime)) {
      var t := StalledIsDue(st, ref, dtime);
      StepStalls(st, ref, dtime);
      assert t !in Fired(st, dtime);
    } else {
      FiredIs(st, dtime);
      forall t ensures t in Fired(st, dtime) <==> IsDue(ref, ref.time + dtime, t) {
        FiredAreDue(st, ref, st.time + dtime, t);
        DueAreFired(st, ref, st.time + dtime, t);
      }
    }
  }

  lemma StalledIsDue(st: State, ref: Ref, dtime: real) returns (t: NodeTimer)
    requires Inv(st) && Represents(st, ref) && StartsWithSentinel(st) && st.time + dtime >= NONE
    ensures IsDue(ref, ref.time + dtime, t)
  {
    var e := st.timers[0];
    assert e in st.timers && ref.running[e.timer.position].End() == NONE;
    t := ref.running[e.timer.position].Aged(ref.time + dtime);
  }

  lemma FiredIs(st: State, dtime: real)
    requires Inv(st) && (!StartsWithSentinel(st) || st.time + dtime < NONE)
    ensures Fired(st, dtime) == ElapsedAll(st.timers[..Due(st.timers, st.time + dtime)], st.time + dtime)
  {
    hide Inv, ElapsedAll, StartsWithSentinel;
    if Idle(st, st.time + dtime) {
      IdleMeansNoneDue(st, st.time + dtime);
      NoneElapsed(st.timers, st.time + dtime);
    }
  }

  lemma NoneElapsed(timers: seq<Entry>, now: real)
    ensures ElapsedAll(timers[..0], now) == []
  {
  }

  /** A step returns each position at most once. */
  lemma StepFiresOnce(st: State, dtime: real, i: int, j: int)
    requires Inv(st) && 0 <= i < j < |Fired(st, dtime)|
    ensures Fired(st, dtime)[i].position != Fired(st, dtime)[j].position
  {
    SamePosition(st, st.timers[i], st.timers[j]);
    hide Inv;
  }

  lemma FiredAreDue(st: State, ref: Ref, now: real, t: NodeTimer)
    requires Inv(st) && Represents(st, ref)
    ensures t in ElapsedAll(st.timers[..Due(st.timers, now)], now) ==> IsDue(ref, now, t)
  {
    hide Inv, Due;
    var n := Due(st.timers, now);
    if t in ElapsedAll(st.timers[..n], now) {
      var i :| 0 <= i < n && t == ElapsedAll(st.timers[..n], now)[i];
      var e := st.timers[i];
      assert t == Elapsed(e, now) && e in st.timers && e.trigger <= now;
      assert t == ref.running[e.timer.position].Aged(now);
    }
  }

  lemma DueAreFired(st: State, ref: Ref, now: real, t: NodeTimer)
    requires Inv(st) && Represents(st, ref)
    ensures IsDue(ref, now, t) ==> t in ElapsedAll(st.timers[..Due(st.timers, now)], now)
  {
    if IsDue(ref, now, t) {
      var n := Due(st.timers, now);
      var p :| p in ref.running && ref.running[p].End() <= now && t == ref.running[p].Aged(now);
      var e := EntryAt(st, ref, p);
      var i := IndexIfDue(st.timers, e, now);
      hide Inv, Due, Represents;
      assert t == Elapsed(e, now);
      assert t == ElapsedAll(st.timers[..n], now)[i];
    }
  }

  lemma IndexIfDue(timers: seq<Entry>, e: Entry, now: real) returns (i: nat)
    requires Sorted(timers) && e in timers && e.trigger <= now
    ensures i < Due(timers, now) && timers[i] == e
  {
    i :| 0 <= i < |timers| && timers[i] == e;
  }

  function RunOf(st: State, ops: seq<Op>): State
    decreases |ops|
  {
    if ops == [] then st else RunOf(Next(st, ops[0]), ops[1..])
  }

  function RefRun(ref: Ref, ops: seq<Op>): Ref
    decreases |ops|
  {
    if ops == [] then ref else RefRun(RefNext(ref, ops[0]), ops[1..])
  }

  /** No operation of the run is misled. */
  ghost predicate RunNotMisled(ref: Ref, ops: seq<Op>)
    decreases |ops|
  {
    ops == [] || (!Misled(ref, ops[0]) && RunNotMisled(RefNext(ref, ops[0]), ops[1..]))
  }

  /** Throughout the run both maps describe the running timers, and the next trigger is the earliest. */
  ghost predicate RunRight(st: State, ref: Ref, ops: seq<Op>)
    decreases |ops|
  {
    Inv(st) && Represents(st, ref) && (ops == [] || RunRight(Next(st, ops[0]), RefNext(ref, ops[0]), ops[1..]))
  }

  lemma {:induction false} RunRepresents(st: State, ref: Ref, ops: seq<Op>)
    requires Inv(st) && Represents(st, ref)
    ensures RunRight(st, ref, ops) <==> RunNotMisled(ref, ops)
    decreases |ops|
  {
    if ops != [] {
      var st', ref' := Next(st, ops[0]), RefNext(ref, ops[0]);
      NextRepresents(st, ref, ops[0]);
      hide Inv, Represents, Misled, Next, RefNext;
      if Inv(st') && Represents(st', ref') {
        RunRepresents(st', ref', ops[1..]);
      }
    }
  }

  lemma {:induction false} RunEndsRight(st: State, ref: Ref, ops: seq<Op>)
    requires RunRight(st, ref, ops)
    ensures Inv(RunOf(st, ops)) && Represents(RunOf(st, ops), RefRun(ref, ops))
    decreases |ops|
  {
    if ops != [] {
      RunEndsRight(Next(st, ops[0]), RefNext(ref, ops[0]), ops[1..]);
    }
  }

  /** The next trigger is the earliest end of a running timer, or -1 when none runs. */
  lemma NextTriggerIsEarliest(st: State, ref: Ref)
    requires Inv(st) && Represents(st, ref)
    ensures ref.running == map[] ==> st.nextTrigger == NONE
    ensures ref.running != map[] ==> exists p :: p in ref.running && ref.running[p].End() == st.nextTrigger
    ensures forall p :: p in ref.running ==> st.nextTrigger <= ref.running[p].End()
  {
    if st.timers != [] {
      var e := st.timers[0];
      assert e in st.timers;
      assert ref.running[e.timer.position].End() == st.nextTrigger;
    }
    if p :| p in ref.running {
      assert p in st.iterators.Keys;
    }
    forall p | p in ref.running
      ensures st.nextTrigger <= ref.running[p].End()
    {
      assert p in st.iterators.Keys;
      var e :| e in st.timers && e.timer.position == p;
      var i :| 0 <= i < |st.timers| && st.timers[i] == e;
      assert st.timers[0].trigger <= e.trigger;
    }
  }

  /** A timer set to trigger at time -1 is not returned by the step in which it is due. */
  lemma SentinelHidesTimer() returns (st: State, timer: NodeTimer)
    ensures Inv(st) && Fired(Inserted(st, timer), 0.0) == []
    ensures Running(timer, st.time).End() <= st.time
  {
    st := State([], map[], NONE, 0.0, 0);
    timer := NodeTimer(0.0, 1.0, Pos(0, 0, 0));
  }

  lemma StepNone(st: State, dtime: real)
    ensures var time := st.time + dtime;
      && ElapsedAll(st.timers[..0], time) == []
      && st.iterators - Positions(st.timers[..0]) == st.iterators
      && (st.nextTrigger == NONE || time < st.nextTrigger ==>
        Stepped(st, dtime) == st.(time := time) && Fired(st, dtime) == [])
  {
  }

  lemma StepOne(timers: seq<Entry>, i: nat, time: real, iterators: map<Pos, nat>)
    requires i <= Due(timers, time) && i < |timers| && timers[i].trigger <= time
    ensures ElapsedAll(timers[..i + 1], time) == ElapsedAll(timers[..i], time)
      + [timers[i].timer.(elapsed := timers[i].timer.timeout + (time - timers[i].trigger))]
    ensures iterators - Positions(timers[..i + 1]) == iterators - Positions(timers[..i]) - {timers[i].timer.position}
  {
    hide Due;
    assert timers[..i + 1] == timers[..i] + [timers[i]];
    assert Positions(timers[..i + 1]) == Positions(timers[..i]) + {timers[i].timer.position};
  }

  lemma DueGoesOn(timers: seq<Entry>, i: nat, time: real)
    requires i <= Due(timers, time) && i < |timers| && timers[i].trigger <= time
    ensures i + 1 <= Due(timers, time)
  {
  }

  lemma StepEnds(st: State, dtime: real, i: nat)
    requires st.nextTrigger != NONE && st.time + dtime >= st.nextTrigger
    requires i <= Due(st.timers, st.time + dtime)
    requires i == |st.timers| || st.timers[i].trigger > st.time + dtime
    ensures i == Due(st.timers, st.time + dtime) <= |st.timers|
    ensures Stepped(st, dtime) == State(st.timers[i..], st.iterators - Positions(st.timers[..i]),
      if st.timers[i..] == [] then NONE else st.timers[i..][0].trigger, st.time + dtime, st.handles)
    ensures Fired(st, dtime) == ElapsedAll(st.timers[..i], st.time + dtime)
  {
  }

  // ---------------------------------------------------------------- the list object

  class NodeTimerList {
    var timers: seq<Entry>
    var iterators: map<Pos, nat>
    var nextTriggerTime: real
    var time: real
    var handles: nat

    ghost function Contents(): State
      reads this
    {
      State(timers, iterators, nextTriggerTime, time, handles)
    }

    constructor ()
      ensures Inv(Contents()) && Represents(Contents(), Ref(0.0, map[]))
    {
      timers, iterators, nextTriggerTime, time, handles := [], map[], NONE, 0.0, 0;
    }

    /** The timer at a position, brought up to date; a blank one if there is none. */
    method Get(p: Pos, ghost ref: Ref) returns (t: NodeTimer)
      requires Inv(Contents()) && Represents(Contents(), ref)
      ensures t == if p in ref.running then ref.running[p].Aged(ref.time) else NodeTimer(0.0, 0.0, Pos(0, 0, 0))
    {
      hide Sorted, FirstTrigger, Find;
      assert p in iterators <==> p in ref.running.Keys;
      if p !in iterators {
        return NodeTimer(0.0, 0.0, Pos(0, 0, 0));
      }
      ghost var st := Contents();
      ghost var e :| e in st.timers && e.timer.position == p;
      ghost var k :| 0 <= k < |timers| && timers[k] == e;
      WithoutHas(timers, k);
      hide DistinctHandles, Without;
      var n := Find(timers, iterators[p])[0];
      t := n.timer.(elapsed := n.timer.timeout - (n.trigger - time));
    }

    method Remove(p: Pos)
      modifies this
      ensures Contents() == Removed(old(Contents()), p)
    {
      if p in iterators {
        var found := Find(timers, iterators[p]);
        timers := Without(timers, iterators[p]);
        iterators := iterators - {p};
        if found != [] && found[0].trigger == nextTriggerTime {
          nextTriggerTime := if timers == [] then NONE else timers[0].trigger;
        }
      }
    }

    method Insert(timer: NodeTimer)
      requires timer.position !in iterators
      modifies this
      ensures Contents() == Inserted(old(Contents()), timer)
    {
      var triggerTime := time + (timer.timeout - timer.elapsed);
      timers := InsertAt(timers, Entry(triggerTime, timer, handles));
      iterators := iterators[timer.position := handles];
      handles := handles + 1;
      if nextTriggerTime == NONE || triggerTime < nextTriggerTime {
        nextTriggerTime := triggerTime;
      }
    }

    method Set(timer: NodeTimer)
      modifies this
      ensures Contents() == Next(old(Contents()), Op.Set(timer))
    {
      Remove(timer.position);
      Insert(timer);
    }

    method Clear()
      modifies this
      ensures Contents() == Cleared(old(Contents()))
    {
      timers, iterators, nextTriggerTime := [], map[], NONE;
    }

    method Step(dtime: real) returns (elapsed: seq<NodeTimer>)
      modifies this
      ensures Contents() == Stepped(old(Contents()), dtime)
      ensures elapsed == Fired(old(Contents()), dtime)
    {
      hide *;
      ghost var st := Contents();
      ContentsIs();
      StepNone(st, dtime);
      elapsed := [];
      time := time + dtime;
      if nextTriggerTime == NONE || time < nextTriggerTime {
        ContentsIs();
        return;
      }
      var i := 0;
      while i < |timers| && timers[i].trigger <= time
        invariant 0 <= i <= Due(timers, time)
        invariant timers == st.timers && time == st.time + dtime && handles == st.handles
        invariant nextTriggerTime == st.nextTrigger
        invariant elapsed == ElapsedAll(timers[..i], time)
        invariant iterators == st.iterators - Positions(timers[..i])
      {
        var t := timers[i].timer;
        StepOne(timers, i, time, st.iterators);
        DueGoesOn(timers, i, time);
        elapsed := elapsed + [t.(elapsed := t.timeout + (time - timers[i].trigger))];
        iterators := iterators - {t.position};
        i := i + 1;
      }
      StepEnds(st, dtime, i);
      timers := timers[i..];
      nextTriggerTime := if timers == [] then NONE else timers[0].trigger;
      ContentsIs();
    }

    lemma ContentsIs()
      ensures Contents() == State(timers, iterators, nextTriggerTime, time, handles)
    {
    }
  }
}
