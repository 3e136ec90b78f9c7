/**
 The emerge queue (src/emerge.cpp, src/emerge.h): requests for map blocks, counted per peer in a shared
 table and spread over the queues of worker threads.  One mutex makes each operation here one step.
 */
module Emerge {
  import opened Wrappers

  datatype Pos = Pos(x: int, y: int, z: int)

  type Callback = int

  const PEER_ID_INEXISTENT: int := 0
  const ALLOW_GEN: bv16 := 1
  const FORCE_QUEUE: bv16 := 2

  datatype BlockEmergeData = BlockEmergeData(peerRequested: int, flags: bv16, callbacks: seq<Callback>)

  datatype Limits = Limits(total: nat, diskonly: nat, generate: nat)

  datatype State = State(blocks: map<Pos, BlockEmergeData>, counts: map<int, int>, queues: seq<seq<Pos>>)

  // ---------------------------------------------------------------- the steps

  function CountOf(st: State, peer: int): int {
    if peer in st.counts then st.counts[peer] else 0
  }

  predicate Forced(flags: bv16) {
    flags & FORCE_QUEUE != 0
  }

  predicate AllowsGen(flags: bv16) {
    flags & ALLOW_GEN != 0
  }

  /** The limits leave room for one more request of this peer. */
  function Admits(lim: Limits, st: State, peer: int, flags: bv16): bool {
    || Forced(flags)
    || (&& |st.blocks| < lim.total
        && if peer == PEER_ID_INEXISTENT then CountOf(st, peer) * 2 < lim.total
           else CountOf(st, peer) < if AllowsGen(flags) then lim.generate else lim.diskonly)
  }

  function WithCallback(cs: seq<Callback>, callback: Option<Callback>): seq<Callback> {
    if callback.Some? then cs + [callback.value] else cs
  }

  function Merged(flags: bv16, more: bv16): bv16 {
    flags | more
  }

  /** pushBlockEmergeData, where the limits allow it. */
  function Pushed(st: State, pos: Pos, peer: int, flags: bv16, callback: Option<Callback>): State {
    if pos in st.blocks then
      var d := st.blocks[pos];
      st.(blocks := st.blocks[pos := d.(flags := Merged(d.flags, flags),
                                        callbacks := WithCallback(d.callbacks, callback))],
          counts := st.counts[peer := CountOf(st, peer)])
    else
      st.(blocks := st.blocks[pos := BlockEmergeData(peer, flags, WithCallback([], callback))],
          counts := st.counts[peer := CountOf(st, peer) + 1])
  }

  /** popBlockEmergeData */
  function Erased(st: State, pos: Pos): State {
    if pos in st.blocks && st.blocks[pos].peerRequested in st.counts then
      var peer := st.blocks[pos].peerRequested;
      st.(blocks := st.blocks - {pos}, counts := st.counts[peer := st.counts[peer] - 1])
    else st
  }

  /** The first of the shortest queues. */
  ghost predicate IsOptimal(queues: seq<seq<Pos>>, t: int) {
    && 0 <= t < |queues|
    && (forall u :: 0 <= u < |queues| ==> |queues[t]| <= |queues[u]|)
    && forall u :: 0 <= u < t ==> |queues[t]| < |queues[u]|
  }

  function Optimal(queues: seq<seq<Pos>>): (t: int)
    requires |queues| > 0
    ensures IsOptimal(queues, t)
  {
    if |queues| == 1 then 0
    else
      var t := Optimal(queues[..|queues| - 1]);
      if |queues[|queues| - 1]| < |queues[t]| then |queues| - 1 else t
  }

  /** enqueueBlockEmergeEx */
  function Enqueued(lim: Limits, st: State, pos: Pos, peer: int, flags: bv16, callback: Option<Callback>): (r: State)
    requires |st.queues| > 0
    ensures |r.queues| == |st.queues|
  {
    if !Admits(lim, st, peer, flags) then st.(counts := st.counts[peer := CountOf(st, peer)])
    else if pos in st.blocks then Pushed(st, pos, peer, flags, callback)
    else
      var t := Optimal(st.queues);
      Pushed(st, pos, peer, flags, callback).(queues := st.queues[t := st.queues[t] + [pos]])
  }

  /** popBlockEmerge on thread `t`. */
  function Popped(st: State, t: int): (r: State)
    requires 0 <= t < |st.queues| && st.queues[t] != []
    ensures r.queues == st.queues[t := st.queues[t][1..]]
  {
    Erased(st.(queues := st.queues[t := st.queues[t][1..]]), st.queues[t][0])
  }

  /** cancelPendingItems on thread `t`. */
  function Cancelled(st: State, t: int): (r: State)
    requires 0 <= t < |st.queues|
    ensures r.queues == st.queues[t := []]
    decreases if 0 <= t < |st.queues| then |st.queues[t]| else 0
  {
    if st.queues[t] == [] then st else Cancelled(Popped(st, t), t)
  }

  // ---------------------------------------------------------------- the invariant

  function Count(q: seq<Pos>, p: Pos): nat {
    if q == [] then 0 else Count(q[1..], p) + if q[0] == p then 1 else 0
  }

  function CountAll(queues: seq<seq<Pos>>, p: Pos): nat {
    if queues == [] then 0 else Count(queues[0], p) + CountAll(queues[1..], p)
  }

  function Total(queues: seq<seq<Pos>>): nat {
    if queues == [] then 0 else |queues[0]| + Total(queues[1..])
  }

  ghost function RequestedBy(blocks: map<Pos, BlockEmergeData>, peer: int): set<Pos> {
    set p | p in blocks && blocks[p].peerRequested == peer
  }

  /** Each table entry sits exactly once in the queues, and nothing else does. */
  ghost predicate QueuedOnce(st: State) {
    forall p: Pos :: CountAll(st.queues, p) == if p in st.blocks then 1 else 0
  }

  /** Each counter is the number of entries that the peer requested first. */
  ghost predicate Counted(st: State) {
    && (forall peer: int :: CountOf(st, peer) == |RequestedBy(st.blocks, peer)|)
    && forall p :: p in st.blocks ==> st.blocks[p].peerRequested in st.counts
  }

  ghost predicate Inv(st: State) {
    |st.queues| > 0 && QueuedOnce(st) && Counted(st) && Total(st.queues) == |st.blocks|
  }

  lemma {:induction false} CountAppend(q: seq<Pos>, r: seq<Pos>, p: Pos)
    ensures Count(q + r, p) == Count(q, p) + Count(r, p)
  {
    if q == [] {
      assert q + r == r;
    } else {
      CountAppend(q[1..], r, p);
      assert (q + r)[1..] == q[1..] + r;
    }
  }

  lemma {:induction false} CountAllUpdate(queues: seq<seq<Pos>>, t: int, q: seq<Pos>, p: Pos)
    requires 0 <= t < |queues|
    ensures CountAll(queues[t := q], p) == CountAll(queues, p) - Count(queues[t], p) + Count(q, p)
    ensures Total(queues[t := q]) == Total(queues) - |queues[t]| + |q|
  {
    var after := queues[t := q];
    if t == 0 {
      assert after[1..] == queues[1..];
    } else {
      CountAllUpdate(queues[1..], t - 1, q, p);
      assert after[1..] == queues[1..][t - 1 := q];
    }
  }

  lemma {:induction false} CountAllHas(queues: seq<seq<Pos>>, t: int, p: Pos)
    requires 0 <= t < |queues|
    ensures Count(queues[t], p) <= CountAll(queues, p)
  {
    if t > 0 {
      CountAllHas(queues[1..], t - 1, p);
    }
  }

  lemma EnqueueMoves(st: State, t: int, pos: Pos, p: Pos)
    requires 0 <= t < |st.queues|
    ensures var queues' := st.queues[t := st.queues[t] + [pos]];
      && CountAll(queues', p) == CountAll(st.queues, p) + (if p == pos then 1 else 0)
      && Total(queues') == Total(st.queues) + 1
  {
    CountAllUpdate(st.queues, t, st.queues[t] + [pos], p);
    CountAppend(st.queues[t], [pos], p);
    assert Count([pos], p) == if p == pos then 1 else 0;
  }

  lemma PopMoves(st: State, t: int, p: Pos)
    requires 0 <= t < |st.queues| && st.queues[t] != []
    ensures var queues' := st.queues[t := st.queues[t][1..]];
      && CountAll(queues', p) == CountAll(st.queues, p) - (if p == st.queues[t][0] then 1 else 0)
      && Total(queues') == Total(st.queues) - 1
  {
    CountAllUpdate(st.queues, t, st.queues[t][1..], p);
  }

  /** Under the invariant the front of a queue is in the table, so a pop never fails half way. */
  lemma FrontIsEnqueued(st: State, t: int)
    requires Inv(st) && 0 <= t < |st.queues| && st.queues[t] != []
    ensures st.queues[t][0] in st.blocks
    ensures st.blocks[st.queues[t][0]].peerRequested in st.counts
    ensures CountOf(st, st.blocks[st.queues[t][0]].peerRequested) > 0
  {
    var p := st.queues[t][0];
    CountAllHas(st.queues, t, p);
    assert p in st.blocks;
    assert p in RequestedBy(st.blocks, st.blocks[p].peerRequested);
  }

  // ---------------------------------------------------------------- every step keeps the invariant

  lemma RequestedUpdate(blocks: map<Pos, BlockEmergeData>, pos: Pos, d: BlockEmergeData, q: int)
    requires pos in blocks ==> d.peerRequested == blocks[pos].peerRequested
    ensures RequestedBy(blocks[pos := d], q) ==
      if d.peerRequested == q then RequestedBy(blocks, q) + {pos} else RequestedBy(blocks, q)
    ensures pos in RequestedBy(blocks, q) <==> pos in blocks && blocks[pos].peerRequested == q
  {
  }

  lemma SizeAfterInsert(s: set<Pos>, pos: Pos)
    ensures |s + {pos}| == |s| + if pos in s then 0 else 1
  {
    if pos in s {
      assert s + {pos} == s;
    }
  }

  lemma PushedCount(st: State, pos: Pos, peer: int, flags: bv16, callback: Option<Callback>, q: int)
    requires CountOf(st, q) == |RequestedBy(st.blocks, q)|
    ensures var st' := Pushed(st, pos, peer, flags, callback); CountOf(st', q) == |RequestedBy(st'.blocks, q)|
  {
    hide Merged, WithCallback, RequestedBy;
    var st' := Pushed(st, pos, peer, flags, callback);
    RequestedUpdate(st.blocks, pos, st'.blocks[pos], q);
    SizeAfterInsert(RequestedBy(st.blocks, q), pos);
  }

  lemma PushedSize(st: State, pos: Pos, peer: int, flags: bv16, callback: Option<Callback>)
    requires Counted(st)
    ensures var st' := Pushed(st, pos, peer, flags, callback);
      && |st'.blocks| == |st.blocks| + (if pos in st.blocks then 0 else 1)
      && forall p :: p in st'.blocks ==> st'.blocks[p].peerRequested in st'.counts
  {
    hide Merged, WithCallback, RequestedBy, CountOf;
    var st' := Pushed(st, pos, peer, flags, callback);
    SizeAfterInsert(st.blocks.Keys, pos);
    assert st'.blocks.Keys == st.blocks.Keys + {pos};
  }

  lemma PushedCounts(st: State, pos: Pos, peer: int, flags: bv16, callback: Option<Callback>)
    requires Counted(st)
    ensures Counted(Pushed(st, pos, peer, flags, callback))
    ensures |Pushed(st, pos, peer, flags, callback).blocks| == |st.blocks| + if pos in st.blocks then 0 else 1
  {
    hide Pushed, RequestedBy, CountOf;
    PushedSize(st, pos, peer, flags, callback);
    forall q: int
      ensures var st' := Pushed(st, pos, peer, flags, callback); CountOf(st', q) == |RequestedBy(st'.blocks, q)|
    {
      PushedCount(st, pos, peer, flags, callback, q);
    }
  }

  lemma ErasedCounts(st: State, pos: Pos)
    requires Counted(st) && pos in st.blocks
    ensures Counted(Erased(st, pos)) && Erased(st, pos).blocks == st.blocks - {pos}
    ensures |Erased(st, pos).blocks| == |st.blocks| - 1
  {
    var st', peer := Erased(st, pos), st.blocks[pos].peerRequested;
    assert st.blocks == st'.blocks[pos := st.blocks[pos]];
    forall q: int
      ensures CountOf(st', q) == |RequestedBy(st'.blocks, q)|
    {
      if q == peer {
        assert RequestedBy(st'.blocks, q) == RequestedBy(st.blocks, q) - {pos};
      } else {
        assert RequestedBy(st'.blocks, q) == RequestedBy(st.blocks, q);
      }
    }
  }

  lemma TouchedCounts(st: State, peer: int)
    requires Counted(st)
    ensures Counted(st.(counts := st.counts[peer := CountOf(st, peer)]))
  {
    var st' := st.(counts := st.counts[peer := CountOf(st, peer)]);
    assert forall q: int :: CountOf(st', q) == CountOf(st, q);
  }

  lemma EnqueueKeeps(lim: Limits, st: State, pos: Pos, peer: int, flags: bv16, callback: Option<Callback>)
    requires Inv(st)
    ensures Inv(Enqueued(lim, st, pos, peer, flags, callback))
  {
    hide Admits, Pushed, Optimal, Counted, CountAll, Total, CountOf;
    if !Admits(lim, st, peer, flags) {
      TouchedCounts(st, peer);
    } else {
      PushedCounts(st, pos, peer, flags, callback);
      PushedParts(st, pos, peer, flags, callback);
      if pos !in st.blocks {
        QueuedKeeps(st, Pushed(st, pos, peer, flags, callback), Optimal(st.queues), pos);
      }
    }
  }

  lemma PushedParts(st: State, pos: Pos, peer: int, flags: bv16, callback: Option<Callback>)
    ensures var st' := Pushed(st, pos, peer, flags, callback);
      st'.queues == st.queues && st'.blocks.Keys == st.blocks.Keys + {pos}
  {
    hide Merged, WithCallback, CountOf;
  }

  /** A new position goes into a queue. */
  lemma QueuedKeeps(st: State, mid: State, t: int, pos: Pos)
    requires Inv(st) && Counted(mid) && mid.queues == st.queues && pos !in st.blocks
    requires mid.blocks.Keys == st.blocks.Keys + {pos} && |mid.blocks| == |st.blocks| + 1
    requires 0 <= t < |st.queues|
    ensures Inv(mid.(queues := st.queues[t := st.queues[t] + [pos]]))
  {
    var st' := mid.(queues := st.queues[t := st.queues[t] + [pos]]);
    CountsOnly(mid, st');
    hide Counted, CountAll, Total;
    forall p: Pos
      ensures CountAll(st'.queues, p) == if p in st'.blocks then 1 else 0
    {
      EnqueueMoves(st, t, pos, p);
      assert p in st'.blocks.Keys <==> p in st.blocks.Keys || p == pos;
    }
    EnqueueMoves(st, t, pos, pos);
  }

  /** The counters do not look at the queues. */
  lemma CountsOnly(st: State, st': State)
    requires Counted(st) && st'.blocks == st.blocks && st'.counts == st.counts
    ensures Counted(st')
  {
    forall peer: int ensures CountOf(st', peer) == |RequestedBy(st'.blocks, peer)| {
      assert CountOf(st, peer) == |RequestedBy(st.blocks, peer)|;
    }
  }

  lemma PopKeeps(st: State, t: int)
    requires Inv(st) && 0 <= t < |st.queues| && st.queues[t] != []
    ensures Inv(Popped(st, t))
  {
    FrontIsEnqueued(st, t);
    var pos := st.queues[t][0];
    var mid, st' := st.(queues := st.queues[t := st.queues[t][1..]]), Popped(st, t);
    assert Counted(mid);
    ErasedCounts(mid, pos);
    assert st'.queues == mid.queues;
    forall p: Pos
      ensures CountAll(st'.queues, p) == if p in st'.blocks then 1 else 0
    {
      PopMoves(st, t, p);
    }
    PopMoves(st, t, pos);
  }

  lemma {:induction false} CancelKeeps(st: State, t: int)
    requires Inv(st) && 0 <= t < |st.queues|
    ensures Inv(Cancelled(st, t))
    decreases |st.queues[t]|
  {
    if st.queues[t] != [] {
      PopKeeps(st, t);
      CancelKeeps(Popped(st, t), t);
    }
  }

  /** An entry of the table sits in exactly one queue, once. */
  lemma OnlyOneQueue(st: State, p: Pos) returns (t: int)
    requires Inv(st) && p in st.blocks
    ensures 0 <= t < |st.queues| && Count(st.queues[t], p) == 1
    ensures forall u :: 0 <= u < |st.queues| && u != t ==> Count(st.queues[u], p) == 0
  {
    t := OneHolds(st.queues, p);
  }

  lemma {:induction false} OneHolds(queues: seq<seq<Pos>>, p: Pos) returns (t: int)
    requires CountAll(queues, p) == 1
    ensures 0 <= t < |queues| && Count(queues[t], p) == 1
    ensures forall u :: 0 <= u < |queues| && u != t ==> Count(queues[u], p) == 0
  {
    var rest := queues[1..];
    if Count(queues[0], p) == 1 {
      t := 0;
      forall u | 0 < u < |queues|
        ensures Count(queues[u], p) == 0
      {
        CountAllHas(rest, u - 1, p);
      }
    } else {
      t := OneHolds(rest, p);
      t := t + 1;
      assert forall u :: 0 < u < |queues| ==> queues[u] == rest[u - 1];
    }
  }

  // ---------------------------------------------------------------- runs

  datatype Step =
    | Enqueue(pos: Pos, peer: int, flags: bv16, callback: Option<Callback>)
    | Pop(thread: int)
    | Cancel(thread: int)

  predicate Ready(st: State, t: int) {
    0 <= t < |st.queues| && st.queues[t] != []
  }

  function Next(lim: Limits, st: State, step: Step): (r: State)
    requires |st.queues| > 0
    ensures |r.queues| == |st.queues|
  {
    match step
    case Enqueue(pos, peer, flags, callback) => Enqueued(lim, st, pos, peer, flags, callback)
    case Pop(t) => if Ready(st, t) then Popped(st, t) else st
    case Cancel(t) => if 0 <= t < |st.queues| then Cancelled(st, t) else st
  }

  /** The callbacks for `p` that a step takes in. */
  function Accepted(lim: Limits, st: State, step: Step, p: Pos): seq<Callback> {
    if step.Enqueue? && step.pos == p && step.callback.Some? && Admits(lim, st, step.peer, step.flags)
    then [step.callback.value] else []
  }

  function Pending(st: State, p: Pos): seq<Callback> {
    if p in st.blocks then st.blocks[p].callbacks else []
  }

  /** The callbacks for `p` that a pop hands to its caller. */
  function HandedByPop(st: State, t: int, p: Pos): seq<Callback>
    requires Ready(st, t)
  {
    if st.queues[t][0] == p then Pending(st, p) else []
  }

  function HandedByCancel(st: State, t: int, p: Pos): seq<Callback>
    requires 0 <= t < |st.queues|
    decreases if 0 <= t < |st.queues| then |st.queues[t]| else 0
  {
    if st.queues[t] == [] then []
    else HandedByPop(st, t, p) + HandedByCancel(Popped(st, t), t, p)
  }

  function Handed(st: State, step: Step, p: Pos): seq<Callback> {
    match step
    case Enqueue(_, _, _, _) => []
    case Pop(t) => if Ready(st, t) then HandedByPop(st, t, p) else []
    case Cancel(t) => if 0 <= t < |st.queues| then HandedByCancel(st, t, p) else []
  }

  /** What cancelling a thread calls, in order. */
  function Calls(st: State, t: int): seq<(Pos, seq<Callback>)>
    requires 0 <= t < |st.queues|
    decreases if 0 <= t < |st.queues| then |st.queues[t]| else 0
  {
    if st.queues[t] == [] then []
    else [(st.queues[t][0], Pending(st, st.queues[t][0]))] + Calls(Popped(st, t), t)
  }

  function CallbacksFor(calls: seq<(Pos, seq<Callback>)>, p: Pos): seq<Callback> {
    if calls == [] then []
    else (if calls[0].0 == p then calls[0].1 else []) + CallbacksFor(calls[1..], p)
  }

  lemma CallsNext(st: State, t: int)
    requires Ready(st, t)
    ensures Calls(st, t) == [(st.queues[t][0], Pending(st, st.queues[t][0]))] + Calls(Popped(st, t), t)
    ensures Cancelled(st, t) == Cancelled(Popped(st, t), t)
  {
  }

  lemma PopReturns(st: State, t: int)
    requires Inv(st) && Ready(st, t)
    ensures st.queues[t][0] in st.blocks
    ensures Pending(st, st.queues[t][0]) == st.blocks[st.queues[t][0]].callbacks
  {
    FrontIsEnqueued(st, t);
  }

  /** Each pending callback of a cancelled position is called, and only those. */
  lemma {:induction false} CallsAreHanded(st: State, t: int, p: Pos)
    requires 0 <= t < |st.queues|
    ensures CallbacksFor(Calls(st, t), p) == HandedByCancel(st, t, p)
    decreases |st.queues[t]|
  {
    if st.queues[t] != [] {
      CallsAreHanded(Popped(st, t), t, p);
      CallsNext(st, t);
      assert Calls(st, t)[1..] == Calls(Popped(st, t), t);
    }
  }

  lemma NextKeeps(lim: Limits, st: State, step: Step)
    requires Inv(st)
    ensures Inv(Next(lim, st, step))
  {
    match step
    case Enqueue(pos, peer, flags, callback) => EnqueueKeeps(lim, st, pos, peer, flags, callback);
    case Pop(t) => if Ready(st, t) { PopKeeps(st, t); }
    case Cancel(t) => if 0 <= t < |st.queues| { CancelKeeps(st, t); }
  }

  lemma PopHands(st: State, t: int, p: Pos)
    requires Inv(st) && Ready(st, t)
    ensures HandedByPop(st, t, p) + Pending(Popped(st, t), p) == Pending(st, p)
  {
    FrontIsEnqueued(st, t);
  }

  lemma {:induction false} CancelHands(st: State, t: int, p: Pos)
    requires Inv(st) && 0 <= t < |st.queues|
    ensures HandedByCancel(st, t, p) + Pending(Cancelled(st, t), p) == Pending(st, p)
    decreases |st.queues[t]|
  {
    if st.queues[t] != [] {
      var st' := Popped(st, t);
      PopKeeps(st, t);
      CancelHands(st', t, p);
      PopHands(st, t, p);
      hide Pending, HandedByPop;
      var a, b, c := HandedByPop(st, t, p), HandedByCancel(st', t, p), Pending(Cancelled(st, t), p);
      assert (a + b) + c == a + (b + c);
    }
  }

  /** A step hands out the oldest pending callbacks of a position and keeps the rest in order. */
  lemma NextHands(lim: Limits, st: State, step: Step, p: Pos)
    requires Inv(st)
    ensures Handed(st, step, p) + Pending(Next(lim, st, step), p) == Pending(st, p) + Accepted(lim, st, step, p)
  {
    match step
    case Enqueue(pos, peer, flags, callback) =>
      hide Optimal;
    case Pop(t) => if Ready(st, t) { PopHands(st, t, p); }
    case Cancel(t) => if 0 <= t < |st.queues| { CancelHands(st, t, p); }
  }

  function Run(lim: Limits, st: State, steps: seq<Step>): (r: State)
    requires |st.queues| > 0
    ensures |r.queues| == |st.queues|
    decreases |steps|
  {
    if steps == [] then st else Run(lim, Next(lim, st, steps[0]), steps[1..])
  }

  function AcceptedInRun(lim: Limits, st: State, steps: seq<Step>, p: Pos): seq<Callback>
    requires |st.queues| > 0
    decreases |steps|
  {
    if steps == [] then []
    else Accepted(lim, st, steps[0], p) + AcceptedInRun(lim, Next(lim, st, steps[0]), steps[1..], p)
  }

  function HandedInRun(lim: Limits, st: State, steps: seq<Step>, p: Pos): seq<Callback>
    requires |st.queues| > 0
    decreases |steps|
  {
    if steps == [] then []
    else Handed(st, steps[0], p) + HandedInRun(lim, Next(lim, st, steps[0]), steps[1..], p)
  }

  lemma {:induction false} RunKeeps(lim: Limits, st: State, steps: seq<Step>)
    requires Inv(st)
    ensures Inv(Run(lim, st, steps))
    decreases |steps|
  {
    if steps != [] {
      NextKeeps(lim, st, steps[0]);
      RunKeeps(lim, Next(lim, st, steps[0]), steps[1..]);
    }
  }

  /**
   Over any run, in any interleaving, the callbacks handed out for a position followed by those still
   pending are the ones pending at the start and those accepted since, in that order.
   */
  lemma {:induction false} RunHands(lim: Limits, st: State, steps: seq<Step>, p: Pos)
    requires Inv(st)
    ensures HandedInRun(lim, st, steps, p) + Pending(Run(lim, st, steps), p)
         == Pending(st, p) + AcceptedInRun(lim, st, steps, p)
    decreases |steps|
  {
    if steps != [] {
      var st', rest := Next(lim, st, steps[0]), steps[1..];
      NextKeeps(lim, st, steps[0]);
      RunHands(lim, st', rest, p);
      NextHands(lim, st, steps[0], p);
      var h, h', a, a' := Handed(st, steps[0], p), HandedInRun(lim, st', rest, p),
        Accepted(lim, st, steps[0], p), AcceptedInRun(lim, st', rest, p);
      var start, mid, end := Pending(st, p), Pending(st', p), Pending(Run(lim, st', rest), p);
      Chain(h, h', a, a', start, mid, end);
    }
  }

  lemma Chain<T>(h: seq<T>, h': seq<T>, a: seq<T>, a': seq<T>, start: seq<T>, mid: seq<T>, end: seq<T>)
    requires h + mid == start + a && h' + end == mid + a'
    ensures (h + h') + end == start + (a + a')
  {
    assert (h + h') + end == h + (h' + end);
    assert h + (mid + a') == (h + mid) + a';
    assert (start + a) + a' == start + (a + a');
  }

  /** When every queue has run empty, every callback accepted for a position has been handed out once. */
  lemma AllHandedWhenIdle(lim: Limits, st: State, steps: seq<Step>, p: Pos)
    requires Inv(st) && st.blocks == map[] && Total(Run(lim, st, steps).queues) == 0
    ensures HandedInRun(lim, st, steps, p) == AcceptedInRun(lim, st, steps, p)
  {
    RunKeeps(lim, st, steps);
    RunHands(lim, st, steps, p);
    hide Run, HandedInRun, AcceptedInRun;
    assert Run(lim, st, steps).blocks == map[];
    var h, a := HandedInRun(lim, st, steps, p), AcceptedInRun(lim, st, steps, p);
    assert h == h + [] && a == [] + a;
  }

  // ---------------------------------------------------------------- the limits

  function PeerLimit(lim: Limits, peer: int): nat {
    if peer == PEER_ID_INEXISTENT then (lim.total + 1) / 2
    else if lim.diskonly < lim.generate then lim.generate else lim.diskonly
  }

  /** The table and the shares of the peers are within the limits. */
  ghost predicate WithinLimits(lim: Limits, st: State) {
    |st.blocks| <= lim.total && forall peer: int :: CountOf(st, peer) <= PeerLimit(lim, peer)
  }

  lemma EnqueuedCount(lim: Limits, st: State, step: Step, q: int)
    requires step.Enqueue? && |st.queues| > 0
    ensures CountOf(Next(lim, st, step), q) == CountOf(st, q)
         || (q == step.peer && Admits(lim, st, q, step.flags) && CountOf(Next(lim, st, step), q) == CountOf(st, q) + 1)
  {
    hide Admits, Optimal;
  }

  lemma AdmittedWithinLimit(lim: Limits, st: State, peer: int, flags: bv16)
    requires Admits(lim, st, peer, flags) && !Forced(flags)
    ensures |st.blocks| < lim.total && CountOf(st, peer) < PeerLimit(lim, peer)
  {
    hide Forced;
  }

  lemma EnqueuedSize(lim: Limits, st: State, step: Step)
    requires Inv(st) && step.Enqueue?
    ensures |Next(lim, st, step).blocks| ==
      |st.blocks| + if Admits(lim, st, step.peer, step.flags) && step.pos !in st.blocks then 1 else 0
  {
    PushedCounts(st, step.pos, step.peer, step.flags, step.callback);
    hide Admits, Optimal, Counted;
  }

  lemma EnqueueWithinLimits(lim: Limits, st: State, step: Step)
    requires Inv(st) && WithinLimits(lim, st) && step.Enqueue? && !Forced(step.flags)
    ensures WithinLimits(lim, Next(lim, st, step))
  {
    EnqueuedSize(lim, st, step);
    if Admits(lim, st, step.peer, step.flags) {
      AdmittedWithinLimit(lim, st, step.peer, step.flags);
    }
    hide Admits, Next, PeerLimit, CountOf, Forced, Inv;
    forall q: int
      ensures CountOf(Next(lim, st, step), q) <= PeerLimit(lim, q)
    {
      EnqueuedCount(lim, st, step, q);
    }
  }

  lemma PopWithinLimits(lim: Limits, st: State, t: int)
    requires Inv(st) && WithinLimits(lim, st) && Ready(st, t)
    ensures WithinLimits(lim, Popped(st, t))
  {
    FrontIsEnqueued(st, t);
    ErasedCounts(st.(queues := st.queues[t := st.queues[t][1..]]), st.queues[t][0]);
    forall q: int
      ensures CountOf(Popped(st, t), q) <= CountOf(st, q)
    {
    }
    hide Popped, PeerLimit, CountOf, Inv;
  }

  lemma {:induction false} CancelWithinLimits(lim: Limits, st: State, t: int)
    requires Inv(st) && WithinLimits(lim, st) && 0 <= t < |st.queues|
    ensures WithinLimits(lim, Cancelled(st, t))
    decreases |st.queues[t]|
  {
    if st.queues[t] != [] {
      PopKeeps(st, t);
      PopWithinLimits(lim, st, t);
      CancelWithinLimits(lim, Popped(st, t), t);
    }
  }

  /** Without forced requests no run exceeds the limits. */
  lemma {:induction false} RunWithinLimits(lim: Limits, st: State, steps: seq<Step>)
    requires Inv(st) && WithinLimits(lim, st)
    requires forall s :: s in steps && s.Enqueue? ==> !Forced(s.flags)
    ensures WithinLimits(lim, Run(lim, st, steps))
    decreases |steps|
  {
    if steps != [] {
      var st' := Next(lim, st, steps[0]);
      NextKeeps(lim, st, steps[0]);
      match steps[0] {
        case Enqueue(_, _, _, _) =>
          assert steps[0] in steps;
          EnqueueWithinLimits(lim, st, steps[0]);
        case Pop(t) => if Ready(st, t) { PopWithinLimits(lim, st, t); }
        case Cancel(t) => if 0 <= t < |st.queues| { CancelWithinLimits(lim, st, t); }
      }
      RunWithinLimits(lim, st', steps[1..]);
    }
  }

  /** Whether there is room for one more request, by the size of the table and by how many of its entries the peer
      has requested. */
  ghost predicate HasRoom(lim: Limits, blocks: map<Pos, BlockEmergeData>, peer: int, flags: bv16) {
    && |blocks| < lim.total
    && var requested := |RequestedBy(blocks, peer)|;
       && (peer == PEER_ID_INEXISTENT ==> 2 * requested < lim.total)
       && (peer != PEER_ID_INEXISTENT && flags & ALLOW_GEN != 0 ==> requested < lim.generate)
       && (peer != PEER_ID_INEXISTENT && flags & ALLOW_GEN == 0 ==> requested < lim.diskonly)
  }

  /** A request is admitted exactly when it is forced or there is room for it. */
  lemma AdmittedIff(lim: Limits, st: State, peer: int, flags: bv16)
    requires Inv(st)
    ensures Admits(lim, st, peer, flags) <==> flags & FORCE_QUEUE != 0 || HasRoom(lim, st.blocks, peer, flags)
  {
    assert CountOf(st, peer) == |RequestedBy(st.blocks, peer)|;
    hide CountOf, RequestedBy;
  }

  /** After any run: a position is in the table after a request for it exactly when it was there before, or the
      request is forced, or there is room. */
  lemma RequestedIff(lim: Limits, st: State, steps: seq<Step>, step: Step)
    requires Inv(st) && step.Enqueue?
    ensures var now := Run(lim, st, steps);
      step.pos in Next(lim, now, step).blocks <==>
        step.pos in now.blocks || step.flags & FORCE_QUEUE != 0 || HasRoom(lim, now.blocks, step.peer, step.flags)
  {
    RunKeeps(lim, st, steps);
    AdmittedIff(lim, Run(lim, st, steps), step.peer, step.flags);
    hide Run, Inv, HasRoom, Admits, Optimal;
  }

  predicate HasFlags(flags: bv16, f: bv16) {
    flags & f == f
  }

  lemma MergedKeeps(flags: bv16, more: bv16, f: bv16)
    ensures HasFlags(flags, f) ==> HasFlags(Merged(flags, more), f)
    ensures HasFlags(more, f) ==> HasFlags(Merged(flags, more), f)
  {
  }

  lemma MergedAddsNone(flags: bv16, more: bv16, f: bv16)
    requires flags & f == 0 && more & f == 0
    ensures Merged(flags, more) & f == 0
  {
    assert (flags | more) & f == (flags & f) | (more & f);
  }

  /** A flag that was asked for stays set until the block is popped, and none is set that nobody asked for. */
  lemma FlagsStick(lim: Limits, st: State, step: Step, p: Pos, f: bv16)
    requires Inv(st) && step.Enqueue?
    requires p in st.blocks
    ensures p in Next(lim, st, step).blocks
    ensures HasFlags(st.blocks[p].flags, f) ==> HasFlags(Next(lim, st, step).blocks[p].flags, f)
    ensures p == step.pos && Admits(lim, st, step.peer, step.flags) && HasFlags(step.flags, f) ==>
              HasFlags(Next(lim, st, step).blocks[p].flags, f)
    ensures st.blocks[p].flags & f == 0 && step.flags & f == 0 ==> Next(lim, st, step).blocks[p].flags & f == 0
  {
    hide Merged, Admits, Optimal, HasFlags, Inv, CountOf, WithCallback;
    MergedKeeps(st.blocks[p].flags, step.flags, f);
    if st.blocks[p].flags & f == 0 && step.flags & f == 0 {
      MergedAddsNone(st.blocks[p].flags, step.flags, f);
    }
  }

  // ---------------------------------------------------------------- the manager and its threads

  class EmergeThread {
    var queue: seq<Pos>

    constructor ()
      ensures queue == []
    {
      queue := [];
    }

    method PushBlock(pos: Pos)
      modifies this
      ensures queue == old(queue) + [pos]
    {
      queue := queue + [pos];
    }
  }

  ghost function QueuesOf(threads: seq<EmergeThread>): (r: seq<seq<Pos>>)
    reads threads
    ensures |r| == |threads|
  {
    seq(|threads|, i requires 0 <= i < |threads| reads threads => threads[i].queue)
  }

  lemma OptimalUnique(queues: seq<seq<Pos>>, t: int)
    requires |queues| > 0 && IsOptimal(queues, t)
    ensures t == Optimal(queues)
  {
  }

  lemma {:induction false} IdleQueues(queues: seq<seq<Pos>>, p: Pos)
    requires forall q :: q in queues ==> q == []
    ensures CountAll(queues, p) == 0 && Total(queues) == 0
  {
    if queues != [] {
      assert queues[0] in queues;
      assert forall q :: q in queues[1..] ==> q in queues;
      IdleQueues(queues[1..], p);
    }
  }

  /** A manager that has done nothing satisfies the invariant. */
  lemma IdleInv(st: State, lim: Limits)
    requires |st.queues| > 0 && st.blocks == map[] && st.counts == map[]
    requires forall q :: q in st.queues ==> q == []
    ensures Inv(st) && WithinLimits(lim, st)
  {
    forall p: Pos
      ensures CountAll(st.queues, p) == 0 && Total(st.queues) == 0
    {
      IdleQueues(st.queues, p);
    }
    IdleQueues(st.queues, Pos(0, 0, 0));
    forall peer: int
      ensures RequestedBy(st.blocks, peer) == {}
    {
    }
  }

  class EmergeManager {
    const threads: seq<EmergeThread>
    const limits: Limits
    var blocks: map<Pos, BlockEmergeData>
    var counts: map<int, int>

    ghost predicate Valid() {
      |threads| > 0 && forall i, j :: 0 <= i < j < |threads| ==> threads[i] != threads[j]
    }

    ghost function Contents(): (r: State)
      reads this, threads
      ensures |r.queues| == |threads|
    {
      State(blocks, counts, QueuesOf(threads))
    }

    constructor (nthreads: nat, limits: Limits)
      requires nthreads > 0
      ensures Valid() && Inv(Contents()) && WithinLimits(limits, Contents()) && this.limits == limits
      ensures blocks == map[]
    {
      var ts: seq<EmergeThread> := [];
      for i := 0 to nthreads
        invariant |ts| == i && fresh(ts)
        invariant forall j :: 0 <= j < i ==> ts[j].queue == []
        invariant forall j, k :: 0 <= j < k < i ==> ts[j] != ts[k]
      {
        var t := new EmergeThread();
        ts := ts + [t];
      }
      threads, this.limits, blocks, counts := ts, limits, map[], map[];
      new;
      IdleInv(Contents(), limits);
    }

    method IsBlockInQueue(pos: Pos) returns (r: bool)
      requires Valid() && Inv(Contents())
      ensures r <==> CountAll(QueuesOf(threads), pos) == 1
    {
      r := pos in blocks;
    }

    method GetOptimalThread() returns (index: int)
      requires Valid()
      ensures index == Optimal(QueuesOf(threads))
    {
      index := 0;
      var lowest := |threads[0].queue|;
      ghost var queues := QueuesOf(threads);
      for i := 1 to |threads|
        invariant 0 <= index < i && lowest == |queues[index]|
        invariant IsOptimal(queues[..i], index)
      {
        var items := |threads[i].queue|;
        if items < lowest {
          index, lowest := i, items;
        }
      }
      assert queues[..|threads|] == queues;
      OptimalUnique(queues, index);
    }

    /** The limits on the queue, for the total and for the peer. */
    method Admit(peer: int, flags: bv16) returns (ok: bool)
      modifies `counts
      ensures ok == Admits(limits, old(Contents()), peer, flags)
      ensures counts == old(counts)[peer := CountOf(old(Contents()), peer)]
    {
      hide Forced, AllowsGen;
      if peer !in counts {
        counts := counts[peer := 0];
      }
      assert counts == old(counts)[peer := CountOf(old(Contents()), peer)];
      var countPeer := counts[peer];
      if !Forced(flags) {
        if |blocks| >= limits.total {
          return false;
        }
        if peer != PEER_ID_INEXISTENT {
          var qlimitPeer := if AllowsGen(flags) then limits.generate else limits.diskonly;
          if countPeer >= qlimitPeer {
            return false;
          }
        } else if countPeer * 2 >= limits.total {
          return false;
        }
      }
      return true;
    }

    method PushBlockEmergeData(pos: Pos, peer: int, flags: bv16, callback: Option<Callback>)
      returns (ok: bool, exists_: bool)
      modifies `blocks, `counts
      ensures ok == Admits(limits, old(Contents()), peer, flags)
      ensures old(Inv(Contents())) ==>
                (ok <==> flags & FORCE_QUEUE != 0 || HasRoom(limits, old(blocks), peer, flags))
      ensures ok ==> exists_ == (pos in old(blocks))
      ensures ok ==> Contents() == Pushed(old(Contents()), pos, peer, flags, callback)
      ensures !ok ==> blocks == old(blocks) && counts == old(counts)[peer := CountOf(old(Contents()), peer)]
    {
      hide Inv, HasRoom;
      ghost var st := Contents();
      if Inv(st) {
        AdmittedIff(limits, st, peer, flags);
      }
      ok := Admit(peer, flags);
      if !ok {
        return false, false;
      }
      hide Forced, AllowsGen, Merged, Admits;
      var countPeer := counts[peer];
      exists_ := pos in blocks;
      var data := if exists_ then blocks[pos] else BlockEmergeData(0, 0, []);
      if callback.Some? {
        data := data.(callbacks := data.callbacks + [callback.value]);
      }
      if exists_ {
        data := data.(flags := Merged(data.flags, flags));
      } else {
        data := data.(flags := flags, peerRequested := peer);
        counts := counts[peer := countPeer + 1];
      }
      blocks := blocks[pos := data];
    }

    method EnqueueBlockEmergeEx(pos: Pos, peer: int, flags: bv16, callback: Option<Callback>) returns (ok: bool)
      requires Valid()
      modifies `blocks, `counts, threads
      ensures Contents() == Enqueued(limits, old(Contents()), pos, peer, flags, callback)
      ensures old(Inv(Contents())) ==>
                (ok <==> flags & FORCE_QUEUE != 0 || HasRoom(limits, old(blocks), peer, flags))
      ensures ok && pos !in old(blocks) ==>
                blocks == old(blocks)[pos := BlockEmergeData(peer, flags, WithCallback([], callback))]
      ensures ok && pos in old(blocks) ==>
                && blocks.Keys == old(blocks.Keys) && QueuesOf(threads) == old(QueuesOf(threads))
                && blocks[pos].callbacks == WithCallback(old(blocks)[pos].callbacks, callback)
                && blocks[pos].peerRequested == old(blocks)[pos].peerRequested
      ensures !ok ==> blocks == old(blocks) && QueuesOf(threads) == old(QueuesOf(threads))
    {
      hide Inv, HasRoom, Admits, Merged, RequestedBy, CountOf, Optimal;
      ghost var st := Contents();
      var exists_;
      ok, exists_ := PushBlockEmergeData(pos, peer, flags, callback);
      if !ok {
        return;
      }
      if exists_ {
        return;
      }
      var t := GetOptimalThread();
      threads[t].PushBlock(pos);
      assert QueuesOf(threads) == st.queues[t := st.queues[t] + [pos]];
    }

    method PopBlockEmergeData(pos: Pos) returns (r: Option<BlockEmergeData>)
      modifies `blocks, `counts
      ensures Contents() == Erased(old(Contents()), pos)
      ensures r == if pos in old(blocks) && old(blocks)[pos].peerRequested in old(counts)
        then Some(old(blocks)[pos]) else None
    {
      if pos !in blocks {
        return None;
      }
      var data := blocks[pos];
      if data.peerRequested !in counts {
        return None;
      }
      counts := counts[data.peerRequested := counts[data.peerRequested] - 1];
      blocks := blocks - {pos};
      r := Some(data);
    }

    /** popBlockEmerge of thread `t`: the front of its queue with its data, or nothing. */
    method PopBlockEmerge(t: int) returns (r: Option<(Pos, BlockEmergeData)>)
      requires Valid() && Inv(Contents()) && 0 <= t < |threads|
      modifies `blocks, `counts, threads
      ensures Contents() == Next(limits, old(Contents()), Pop(t)) && Inv(Contents())
      ensures r.Some? == (old(threads[t].queue) != [])
      ensures r.Some? ==> r.value.0 == old(threads[t].queue)[0]
      ensures r.Some? ==> r.value.0 in old(blocks) && r.value.1 == old(blocks)[r.value.0]
    {
      ghost var st := Contents();
      assert st.queues[t] == threads[t].queue;
      if threads[t].queue == [] {
        return None;
      }
      PopKeeps(st, t);
      FrontIsEnqueued(st, t);
      var pos := threads[t].queue[0];
      threads[t].queue := threads[t].queue[1..];
      assert QueuesOf(threads) == st.queues[t := st.queues[t][1..]];
      var data := PopBlockEmergeData(pos);
      r := Some((pos, data.value));
    }

    /** cancelPendingItems of thread `t`; returns what its callbacks are called with. */
    method CancelPendingItems(t: int) returns (called: seq<(Pos, seq<Callback>)>)
      requires Valid() && Inv(Contents()) && 0 <= t < |threads|
      modifies `blocks, `counts, threads
      ensures Contents() == Cancelled(old(Contents()), t) && Inv(Contents())
      ensures called == Calls(old(Contents()), t)
    {
      hide Merged, Inv, Pending, Erased, RequestedBy;
      ghost var st := Contents();
      called := [];
      while threads[t].queue != []
        invariant Inv(Contents())
        invariant Cancelled(Contents(), t) == Cancelled(st, t)
        invariant called + Calls(Contents(), t) == Calls(st, t)
        decreases |threads[t].queue|
      {
        ghost var before := Contents();
        assert before.queues[t] == threads[t].queue;
        var popped := PopBlockEmerge(t);
        called := called + [(popped.value.0, popped.value.1.callbacks)];
        CallsNext(before, t);
        PopReturns(before, t);
        assert Contents() == Popped(before, t);
      }
      assert Contents().queues[t] == threads[t].queue;
    }
  }
}
