/**
 The perfect-matching test behind shapeless recipes (src/craftdef.cpp, hopcroft_karp_can_match_all).

 `bip_graph` has the same number of nodes on both sides; node `u` on the left is adjacent to
 the right nodes listed in `g[u]`.  The index `|g|` is the dummy ("nil") on either side.
 */
module Matching {

  const SHAPELESS_GROUPS_MAX: nat := 30000
  const INF: int := 0xFFFF

  type Graph = seq<seq<int>>

  predicate IsGraph(g: Graph) {
    && |g| <= SHAPELESS_GROUPS_MAX
    && forall u, j :: 0 <= u < |g| && 0 <= j < |g[u]| ==> 0 <= g[u][j] < |g|
  }

  /** `p` assigns every left node a neighbour, and no two left nodes the same one. */
  ghost predicate IsPerfect(g: Graph, p: seq<int>) {
    && |p| == |g|
    && (forall u :: 0 <= u < |g| ==> p[u] in g[u])
    && forall u, w :: 0 <= u < w < |g| ==> p[u] != p[w]
  }

  ghost predicate HasPerfectMatching(g: Graph) {
    exists p: seq<int> :: IsPerfect(g, p)
  }

  /** Any partial matching of `g`. */
  ghost predicate IsMatching(g: Graph, m: map<int, int>) {
    && (forall u :: u in m ==> 0 <= u < |g| && m[u] in g[u])
    && Injective(m)
  }

  ghost predicate Injective(m: map<int, int>) {
    forall u, w :: u in m && w in m && m[u] == m[w] ==> u == w
  }

  /** The pair arrays are mutually inverse on matched nodes and use only edges of the graph. */
  ghost predicate Paired(g: Graph, pu: seq<int>, pv: seq<int>) {
    && |pu| == |pv| == |g| + 1
    && (forall u :: 0 <= u < |g| ==> 0 <= pu[u] <= |g| && (pu[u] < |g| ==> pu[u] in g[u] && pv[pu[u]] == u))
    && Partners(g, pv)
    && forall v :: 0 <= v < |g| && pv[v] < |g| ==> pu[pv[v]] == v
  }

  /** Every right node is paired with a left node or the dummy. */
  ghost predicate Partners(g: Graph, pv: seq<int>) {
    |pv| == |g| + 1 && forall v :: 0 <= v < |g| ==> 0 <= pv[v] <= |g|
  }

  /** The numbers below `n`. */
  ghost function UpTo(n: nat): (s: set<int>)
    ensures |s| == n
    ensures forall x :: x in s <==> 0 <= x < n
  {
    if n == 0 then {} else UpTo(n - 1) + {n - 1}
  }

  lemma SubsetCount(a: set<int>, b: set<int>)
    requires a <= b
    ensures |a| <= |b| && (|a| == |b| ==> a == b)
  {
    assert b == a + (b - a);
    assert |b| == |a| + |b - a|;
  }

  /** The left nodes that have a partner. */
  ghost function Matched(n: nat, pu: seq<int>): (s: set<int>)
    requires n <= |pu|
    ensures s <= UpTo(n) && |s| <= n
  {
    var s := set u | 0 <= u < n && 0 <= pu[u] < n;
    assert s <= UpTo(n);
    SubsetCount(s, UpTo(n));
    s
  }

  // ---------------------------------------------------------------- distances

  ghost predicate Levels(g: Graph, dist: seq<int>) {
    && |dist| == |g| + 1
    && forall x :: 0 <= x < |dist| ==> 0 <= dist[x] <= |g| || dist[x] == INF
  }

  /** `x` was first reached from `u` along its `j`-th edge. */
  ghost predicate ReachedFrom(g: Graph, pv: seq<int>, dist: seq<int>, x: int, u: int, j: int)
    requires |pv| == |dist| == |g| + 1 && IsGraph(g) && 0 <= x <= |g|
  {
    0 <= u < |g| && 0 <= j < |g[u]| && dist[u] + 1 == dist[x] && pv[g[u][j]] == x
  }

  /** What a finished breadth-first search leaves in `dist`. */
  ghost predicate Layered(g: Graph, pu: seq<int>, pv: seq<int>, dist: seq<int>) {
    && IsGraph(g) && Paired(g, pu, pv) && Levels(g, dist)
    && dist[|g|] != 0
    && (forall u :: 0 <= u < |g| ==> (dist[u] == 0 <==> pu[u] == |g|))
    && AllReached(g, pv, dist)
  }

  /** Every step from a visited left node leads to a visited one. */
  ghost predicate ClosedUnderSteps(g: Graph, pv: seq<int>, dist: seq<int>)
    requires IsGraph(g) && |pv| == |dist| == |g| + 1
    requires Partners(g, pv)
  {
    forall u, j :: 0 <= u < |g| && 0 <= j < |g[u]| && dist[u] != INF ==> dist[pv[g[u][j]]] != INF
  }

  /** Steps go up by at most one level, up to the level of the dummy. */
  ghost predicate LevelSteps(g: Graph, pv: seq<int>, dist: seq<int>)
    requires IsGraph(g) && |pv| == |dist| == |g| + 1
    requires Partners(g, pv)
  {
    forall u, j :: 0 <= u < |g| && 0 <= j < |g[u]| && dist[u] < dist[|g|] ==> dist[pv[g[u][j]]] <= dist[u] + 1
  }

  // ---------------------------------------------------------------- walks

  /** An edge of `u` leads to a right node paired with `x`, or to a free one if `x` is the dummy. */
  ghost predicate Leads(g: Graph, pv: seq<int>, u: int, x: int)
    requires IsGraph(g) && |pv| == |g| + 1
  {
    0 <= u < |g| && exists j :: 0 <= j < |g[u]| && pv[g[u][j]] == x
  }

  /** An alternating walk from an unmatched left node; it augments the matching if it ends at the dummy. */
  ghost predicate IsWalk(g: Graph, pu: seq<int>, pv: seq<int>, walk: seq<int>)
    requires IsGraph(g) && |pu| == |pv| == |g| + 1
  {
    && walk != [] && 0 <= walk[0] < |g| && pu[walk[0]] == |g|
    && forall i :: 0 <= i < |walk| - 1 ==> Leads(g, pv, walk[i], walk[i + 1])
  }

  /** Every walk to the dummy is longer than `length`. */
  ghost predicate Farther(g: Graph, pu: seq<int>, pv: seq<int>, length: int)
    requires IsGraph(g) && |pu| == |pv| == |g| + 1
  {
    forall walk :: IsWalk(g, pu, pv, walk) && walk[|walk| - 1] == |g| ==> |walk| - 1 > length
  }

  /** No walk reaches a level earlier than its distance says, up to the level of the dummy. */
  lemma {:induction false} WalkClimbs(g: Graph, pu: seq<int>, pv: seq<int>, dist: seq<int>, walk: seq<int>, i: int)
    requires IsGraph(g) && |pu| == |pv| == |dist| == |g| + 1 && Partners(g, pv)
    requires LevelSteps(g, pv, dist) && IsWalk(g, pu, pv, walk) && dist[walk[0]] == 0
    requires 0 <= i < |walk| && i <= dist[|g|]
    ensures 0 <= walk[i] <= |g| && dist[walk[i]] <= i
    decreases i
  {
    if i > 0 {
      WalkClimbs(g, pu, pv, dist, walk, i - 1);
      assert Leads(g, pv, walk[i - 1], walk[i]);
      var j :| 0 <= j < |g[walk[i - 1]]| && pv[g[walk[i - 1]][j]] == walk[i];
    }
  }

  /** Every visited node is reached by a walk as long as its distance. */
  lemma {:induction false} WalkTo(g: Graph, pu: seq<int>, pv: seq<int>, dist: seq<int>, x: int) returns (walk: seq<int>)
    requires Layered(g, pu, pv, dist) && 0 <= x <= |g| && dist[x] != INF
    ensures IsWalk(g, pu, pv, walk) && walk[|walk| - 1] == x && |walk| == dist[x] + 1
    decreases dist[x]
  {
    if dist[x] == 0 {
      walk := [x];
    } else {
      var u, j :| ReachedFrom(g, pv, dist, x, u, j);
      var front := WalkTo(g, pu, pv, dist, u);
      walk := front + [x];
      assert Leads(g, pv, u, x);
      forall i | 0 <= i < |walk| - 1 ensures Leads(g, pv, walk[i], walk[i + 1]) {
        if i < |front| - 1 {
          assert walk[i] == front[i] && walk[i + 1] == front[i + 1];
        }
      }
    }
  }

  /** The distances are those of shortest walks: the dummy is reached exactly when some walk leads to it, and
      its distance is the length of the shortest one. */
  lemma DistanceIsShortest(g: Graph, pu: seq<int>, pv: seq<int>, dist: seq<int>, walk: seq<int>)
    requires Layered(g, pu, pv, dist) && LevelSteps(g, pv, dist)
    requires IsWalk(g, pu, pv, walk) && walk[|walk| - 1] == |g|
    ensures dist[|g|] <= |walk| - 1
    ensures dist[|g|] != INF ==> exists w :: IsWalk(g, pu, pv, w) && w[|w| - 1] == |g| && |w| - 1 == dist[|g|]
  {
    if |walk| - 1 < dist[|g|] {
      WalkClimbs(g, pu, pv, dist, walk, |walk| - 1);
    }
    if dist[|g|] != INF {
      var w := WalkTo(g, pu, pv, dist, |g|);
    }
  }

  // ---------------------------------------------------------------- a failing search means maximum

  lemma {:induction false} InjectiveImageFits(m: map<int, int>, t: set<int>)
    requires Injective(m)
    requires forall u :: u in m ==> m[u] in t
    ensures |m| <= |t|
    decreases |m|
  {
    if u :| u in m {
      var rest := map w | w in m && w != u :: m[w];
      assert rest.Keys == m.Keys - {u};
      InjectiveImageFits(rest, t - {m[u]});
    } else {
      assert m == map[];
    }
  }

  /** The left node an edge `(u, v)` of some other matching is charged to: `u` itself if the search
      never saw it, otherwise the partner of `v`. */
  ghost function Charged(g: Graph, pv: seq<int>, dist: seq<int>, u: int, v: int): int
    requires |pv| == |dist| == |g| + 1 && 0 <= u < |g| && 0 <= v < |g|
  {
    if dist[u] == INF then u else pv[v]
  }

  lemma ChargedIsMatched(g: Graph, pu: seq<int>, pv: seq<int>, dist: seq<int>, u: int, v: int)
    requires Layered(g, pu, pv, dist) && ClosedUnderSteps(g, pv, dist) && dist[|g|] == INF
    requires 0 <= u < |g| && v in g[u]
    ensures 0 <= v < |g|
    ensures Charged(g, pv, dist, u, v) in Matched(|g|, pu)
    ensures dist[u] != INF ==> pu[pv[v]] == v && dist[pv[v]] != INF
  {
    var j :| 0 <= j < |g[u]| && g[u][j] == v;
  }

  /** If the dummy is unreachable, no matching whatsoever is larger than the current one. */
  lemma UnreachableDummyMeansMaximum(g: Graph, pu: seq<int>, pv: seq<int>, dist: seq<int>, m: map<int, int>)
    requires Layered(g, pu, pv, dist) && ClosedUnderSteps(g, pv, dist) && dist[|g|] == INF
    requires IsMatching(g, m)
    ensures |m| <= |Matched(|g|, pu)|
  {
    forall u | u in m ensures 0 <= m[u] < |g| {
      ChargedIsMatched(g, pu, pv, dist, u, m[u]);
    }
    var charge := map u | u in m :: Charged(g, pv, dist, u, m[u]);
    assert charge.Keys == m.Keys;
    forall u | u in charge ensures charge[u] in Matched(|g|, pu) {
      ChargedIsMatched(g, pu, pv, dist, u, m[u]);
    }
    forall u, w | u in charge && w in charge && charge[u] == charge[w] ensures u == w {
      ChargedIsMatched(g, pu, pv, dist, u, m[u]);
      ChargedIsMatched(g, pu, pv, dist, w, m[w]);
    }
    InjectiveImageFits(charge, Matched(|g|, pu));
  }

  // ---------------------------------------------------------------- pruning by failed walks

  /** From distances `d` to `d'`, a left node is either untouched or closed off, and then every
      next-level node it leads to is closed off too.  The dummy is never closed off. */
  ghost predicate Pruned(g: Graph, pv: seq<int>, d: seq<int>, d': seq<int>)
    requires IsGraph(g) && |pv| == |d| == |d'| == |g| + 1
    requires Partners(g, pv)
  {
    && d'[|g|] == d[|g|]
    && forall x :: 0 <= x < |g| && d'[x] != d[x] ==>
         && d'[x] == INF
         && forall j :: 0 <= j < |g[x]| && d[pv[g[x][j]]] == d[x] + 1 ==> d'[pv[g[x][j]]] == INF
  }

  lemma PrunedTransitive(g: Graph, pv: seq<int>, a: seq<int>, b: seq<int>, c: seq<int>)
    requires IsGraph(g) && |pv| == |a| == |b| == |c| == |g| + 1
    requires Partners(g, pv)
    requires Pruned(g, pv, a, b) && Pruned(g, pv, b, c)
    ensures Pruned(g, pv, a, c)
  {
    forall x, j | 0 <= x < |g| && c[x] != a[x] && 0 <= j < |g[x]| && a[pv[g[x][j]]] == a[x] + 1
      ensures c[x] == INF && c[pv[g[x][j]]] == INF
    {
      var w := pv[g[x][j]];
      if b[x] != a[x] {
        assert b[w] == INF;
      } else if b[w] == a[w] {
        assert b[w] == b[x] + 1;
      }
    }
  }

  /** If walks only pruned and every root is closed off, then so is every visited node. */
  lemma {:induction false} RootsClosedMeansAllClosed(g: Graph, pu: seq<int>, pv: seq<int>, d: seq<int>, d': seq<int>,
                                                     x: int)
    requires Layered(g, pu, pv, d) && |d'| == |g| + 1 && Pruned(g, pv, d, d')
    requires forall u :: 0 <= u < |g| && pu[u] == |g| ==> d'[u] == INF
    requires 0 <= x <= |g|
    ensures d'[x] == INF
    decreases d[x]
  {
    if d[x] == INF {
    } else if d[x] != 0 {
      var u, j :| ReachedFrom(g, pv, d, x, u, j);
      RootsClosedMeansAllClosed(g, pu, pv, d, d', u);
    }
  }

  // ---------------------------------------------------------------- the searches

  /** How many nodes (the dummy included) have been visited. */
  ghost function Visited(dist: seq<int>): nat {
    if dist == [] then 0 else Visited(dist[..|dist| - 1]) + (if dist[|dist| - 1] == INF then 0 else 1)
  }

  lemma {:induction false} VisitedGrows(dist: seq<int>, x: int, d: int)
    requires 0 <= x < |dist| && dist[x] == INF && d != INF
    ensures Visited(dist[x := d]) == Visited(dist) + 1
    ensures Visited(dist) < |dist|
  {
    var n := |dist| - 1;
    if x == n {
      assert dist[x := d][..n] == dist[..n];
      VisitedBound(dist[..n]);
    } else {
      assert dist[x := d][..n] == dist[..n][x := d];
      VisitedGrows(dist[..n], x, d);
    }
  }

  lemma VisitedBound(dist: seq<int>)
    ensures Visited(dist) <= |dist|
  {
  }

  ghost predicate AllReached(g: Graph, pv: seq<int>, dist: seq<int>)
    requires |pv| == |dist| == |g| + 1 && IsGraph(g)
  {
    forall x :: 0 <= x <= |g| && dist[x] != 0 && dist[x] != INF ==> exists u, j :: ReachedFrom(g, pv, dist, x, u, j)
  }

  /** A breadth-first search in progress: every visited node has a distance below the number of
      visited nodes, and a predecessor unless it is a root. */
  ghost predicate Searching(g: Graph, pu: seq<int>, pv: seq<int>, dist: seq<int>) {
    && IsGraph(g) && Paired(g, pu, pv) && |pu| == |pv| == |dist| == |g| + 1
    && (forall x :: 0 <= x <= |g| ==> dist[x] == INF || 0 <= dist[x] < Visited(dist))
    && dist[|g|] != 0
    && (forall u :: 0 <= u < |g| ==> (dist[u] == 0 <==> pu[u] == |g|))
    && AllReached(g, pv, dist)
  }

  /** Every edge of a visited node before the dummy that has left the queue leads at most one level on; of `u`
      only the first `k` edges are meant. */
  ghost predicate Expanded(g: Graph, pv: seq<int>, dist: seq<int>, queue: seq<int>, u: int, k: int)
    requires IsGraph(g) && |pv| == |dist| == |g| + 1
    requires Partners(g, pv)
  {
    && (forall x :: x in queue ==> 0 <= x <= |g| && dist[x] != INF)
    && (forall w, j :: 0 <= w < |g| && dist[w] < dist[|g|] && w !in queue && 0 <= j < |g[w]| && (w == u ==> j < k)
          ==> dist[pv[g[w][j]]] <= dist[w] + 1)
  }

  /** The queue is in order of distance, from `level` on, and nothing has been visited beyond the next level. */
  ghost predicate InOrder(g: Graph, dist: seq<int>, queue: seq<int>, level: int)
    requires |dist| == |g| + 1
  {
    && (forall i :: 0 <= i < |queue| ==> 0 <= queue[i] <= |g| && level <= dist[queue[i]])
    && (forall i, j :: 0 <= i < j < |queue| ==> dist[queue[i]] <= dist[queue[j]])
    && (forall x :: 0 <= x <= |g| ==> dist[x] == INF || dist[x] <= level + 1)
  }

  lemma OrderStarts(g: Graph, dist: seq<int>, queue: seq<int>)
    requires |dist| == |g| + 1 && forall x :: 0 <= x <= |g| ==> dist[x] == 0 || dist[x] == INF
    requires forall x :: x in queue ==> 0 <= x <= |g| && dist[x] == 0
    ensures InOrder(g, dist, queue, 0)
  {
    assert forall i :: 0 <= i < |queue| ==> queue[i] in queue;
  }

  lemma OrderPopped(g: Graph, dist: seq<int>, queue: seq<int>, level: int)
    requires |dist| == |g| + 1 && queue != [] && InOrder(g, dist, queue, level)
    ensures 0 <= queue[0] <= |g| && InOrder(g, dist, queue[1..], dist[queue[0]])
  {
  }

  lemma OrderPushed(g: Graph, dist: seq<int>, queue: seq<int>, level: int, back: int)
    requires |dist| == |g| + 1 && InOrder(g, dist, queue, level) && 0 <= back <= |g| && dist[back] == INF
    requires level + 1 < INF && forall x :: x in queue ==> dist[x] != INF
    ensures InOrder(g, dist[back := level + 1], queue + [back], level)
  {
    assert forall i :: 0 <= i < |queue| ==> queue[i] in queue;
  }

  lemma {:induction false} RootsBelowVisited(dist: seq<int>)
    requires forall x :: 0 <= x < |dist| ==> dist[x] == 0 || dist[x] == INF
    ensures forall x :: 0 <= x < |dist| ==> dist[x] == INF || dist[x] < Visited(dist)
  {
    if dist != [] {
      var n := |dist| - 1;
      RootsBelowVisited(dist[..n]);
      forall x | 0 <= x < |dist| ensures dist[x] == INF || dist[x] < Visited(dist) {
        if x < n {
          assert dist[..n][x] == dist[x];
        }
      }
    }
  }

  lemma SearchStarts(g: Graph, pu: seq<int>, pv: seq<int>, dist: seq<int>, queue: seq<int>)
    requires IsGraph(g) && Paired(g, pu, pv) && |dist| == |g| + 1 && dist[|g|] == INF
    requires forall x :: 0 <= x < |g| ==> dist[x] == (if pu[x] == |g| then 0 else INF)
    requires forall x :: x in queue <==> 0 <= x < |g| && pu[x] == |g|
    ensures Searching(g, pu, pv, dist) && Expanded(g, pv, dist, queue, |g|, 0)
  {
    RootsBelowVisited(dist);
  }

  lemma Popped(g: Graph, pu: seq<int>, pv: seq<int>, dist: seq<int>, queue: seq<int>)
    requires Searching(g, pu, pv, dist)
    requires queue != [] && Expanded(g, pv, dist, queue, |g|, 0)
    ensures 0 <= queue[0] <= |g| && dist[queue[0]] < INF && dist[|g|] <= INF
    ensures Expanded(g, pv, dist, queue[1..], queue[0], 0)
    ensures !(dist[queue[0]] < dist[|g|]) ==> Expanded(g, pv, dist, queue[1..], |g|, 0)
  {
    hide AllReached, Visited;
    VisitedBound(dist);
    assert queue[0] in queue;
    forall x
      ensures x in queue <==> x == queue[0] || x in queue[1..]
    {
      FirstOrRest(queue, x);
    }
  }

  lemma FirstOrRest(queue: seq<int>, x: int)
    requires queue != []
    ensures x in queue <==> x == queue[0] || x in queue[1..]
  {
    assert queue == [queue[0]] + queue[1..];
  }

  /** Visiting one more node keeps every earlier predecessor and gives the new node one. */
  lemma StillReached(g: Graph, pv: seq<int>, d: seq<int>, back: int, u: int, k: int)
    requires IsGraph(g) && |pv| == |d| == |g| + 1 && AllReached(g, pv, d)
    requires 0 <= back <= |g| && 0 <= u < |g| && 0 <= k < |g[u]|
    requires forall x :: 0 <= x <= |g| ==> d[x] <= INF
    requires d[u] < INF && d[back] == INF && pv[g[u][k]] == back
    ensures AllReached(g, pv, d[back := d[u] + 1])
  {
    var d' := d[back := d[u] + 1];
    forall x | 0 <= x <= |g| && d'[x] != 0 && d'[x] != INF ensures exists w, j :: ReachedFrom(g, pv, d', x, w, j) {
      if x == back {
        assert ReachedFrom(g, pv, d', x, u, k);
      } else {
        var w, j :| ReachedFrom(g, pv, d, x, w, j);
        assert ReachedFrom(g, pv, d', x, w, j);
      }
    }
  }

  lemma Discovered(g: Graph, pu: seq<int>, pv: seq<int>, d: seq<int>, u: int, k: int)
    requires Searching(g, pu, pv, d)
    requires 0 <= u < |g| && 0 <= k < |g[u]| && d[u] != INF
    requires d[pv[g[u][k]]] == INF
    ensures Visited(d[pv[g[u][k]] := d[u] + 1]) == Visited(d) + 1 <= |g| + 1
    ensures 0 <= d[u] < |g|
    ensures Searching(g, pu, pv, d[pv[g[u][k]] := d[u] + 1])
  {
    hide AllReached, ReachedFrom;
    var back := pv[g[u][k]];
    VisitedBound(d);
    VisitedGrows(d, back, d[u] + 1);
    StillReached(g, pv, d, back, u, k);
  }

  /** One edge of `u` further, whether or not it leads somewhere new. */
  lemma Scanned(g: Graph, pu: seq<int>, pv: seq<int>, d: seq<int>, queue: seq<int>, u: int, k: int)
    requires Searching(g, pu, pv, d) && Expanded(g, pv, d, queue, u, k)
    requires 0 <= u < |g| && d[u] != INF && 0 <= k < |g[u]| && InOrder(g, d, queue, d[u])
    ensures 0 <= g[u][k] < |g| && 0 <= pv[g[u][k]] <= |g| && 0 <= d[u] < INF
    ensures var back := pv[g[u][k]];
            if d[back] != INF then Expanded(g, pv, d, queue, u, k + 1)
            else Expanded(g, pv, d[back := d[u] + 1], queue + [back], u, k + 1)
  {
    VisitedBound(d);
    hide AllReached, Visited, Expanded;
    if d[pv[g[u][k]]] == INF {
      ScannedNew(g, pv, d, queue, u, k);
    } else {
      ScannedVisited(g, pv, d, queue, u, k);
    }
  }

  lemma ScannedVisited(g: Graph, pv: seq<int>, d: seq<int>, queue: seq<int>, u: int, k: int)
    requires IsGraph(g) && |pv| == |d| == |g| + 1 && Partners(g, pv) && Expanded(g, pv, d, queue, u, k)
    requires 0 <= u < |g| && 0 <= k < |g[u]| && d[pv[g[u][k]]] <= d[u] + 1
    ensures Expanded(g, pv, d, queue, u, k + 1)
  {
  }

  lemma ScannedNew(g: Graph, pv: seq<int>, d: seq<int>, queue: seq<int>, u: int, k: int)
    requires IsGraph(g) && |pv| == |d| == |g| + 1 && Partners(g, pv) && Expanded(g, pv, d, queue, u, k)
    requires 0 <= u < |g| && 0 <= k < |g[u]| && d[pv[g[u][k]]] == INF && d[u] + 1 < INF
    requires forall x :: 0 <= x <= |g| ==> d[x] <= INF
    ensures Expanded(g, pv, d[pv[g[u][k]] := d[u] + 1], queue + [pv[g[u][k]]], u, k + 1)
  {
    var back := pv[g[u][k]];
    var d', queue' := d[back := d[u] + 1], queue + [back];
    forall w, j | 0 <= w < |g| && d'[w] < d'[|g|] && w !in queue' && 0 <= j < |g[w]| && (w == u ==> j < k + 1)
      ensures d'[pv[g[w][j]]] <= d'[w] + 1
    {
      assert w !in queue && w != back;
    }
  }

  lemma QueuedVisited(g: Graph, pv: seq<int>, d: seq<int>, queue: seq<int>, u: int, k: int)
    requires IsGraph(g) && |pv| == |d| == |g| + 1 && Partners(g, pv) && Expanded(g, pv, d, queue, u, k)
    ensures forall x :: x in queue ==> 0 <= x <= |g| && d[x] != INF
  {
  }

  lemma ExpandedAll(g: Graph, pv: seq<int>, d: seq<int>, queue: seq<int>, u: int)
    requires IsGraph(g) && |pv| == |d| == |g| + 1 && 0 <= u < |g|
    requires Partners(g, pv)
    requires Expanded(g, pv, d, queue, u, |g[u]|)
    ensures Expanded(g, pv, d, queue, |g|, 0)
  {
  }

  lemma SearchEnds(g: Graph, pu: seq<int>, pv: seq<int>, dist: seq<int>)
    requires Searching(g, pu, pv, dist) && Expanded(g, pv, dist, [], |g|, 0)
    ensures Layered(g, pu, pv, dist) && LevelSteps(g, pv, dist)
    ensures dist[|g|] == INF ==> ClosedUnderSteps(g, pv, dist)
  {
    VisitedBound(dist);
  }

  /** Enqueues all unmatched left nodes at distance 0 and gives the rest distance INF. */
  method EnqueueUnmatched(g: Graph, pu: array<int>, pv: array<int>, dist: array<int>) returns (queue: seq<int>)
    requires IsGraph(g) && pu.Length == pv.Length == dist.Length == |g| + 1
    requires Paired(g, pu[..], pv[..])
    requires dist != pu && dist != pv
    modifies dist
    ensures Searching(g, pu[..], pv[..], dist[..])
    ensures Expanded(g, pv[..], dist[..], queue, |g|, 0) && InOrder(g, dist[..], queue, 0)
  {
    var n := |g|;
    hide InOrder, Searching, Expanded, Paired;
    queue := [];
    for u := 0 to n
      invariant forall x :: 0 <= x < u ==> dist[x] == (if pu[x] == n then 0 else INF)
      invariant forall x :: x in queue <==> 0 <= x < u && pu[x] == n
    {
      if pu[u] == n {
        dist[u] := 0;
        queue := queue + [u];
      } else {
        dist[u] := INF;
      }
    }
    dist[n] := INF;
    SearchStarts(g, pu[..], pv[..], dist[..], queue);
    OrderStarts(g, dist[..], queue);
  }

  /** Visits the partner of every right neighbour of `u`, unless visited already. */
  method Expand(g: Graph, pu: array<int>, pv: array<int>, dist: array<int>, u: int, queue: seq<int>)
    returns (queue': seq<int>)
    requires pu.Length == pv.Length == dist.Length == |g| + 1 && dist != pu && dist != pv
    requires Searching(g, pu[..], pv[..], dist[..])
    requires 0 <= u < |g| && dist[u] != INF && Expanded(g, pv[..], dist[..], queue, u, 0)
    requires InOrder(g, dist[..], queue, dist[u])
    modifies dist
    ensures Searching(g, pu[..], pv[..], dist[..])
    ensures Expanded(g, pv[..], dist[..], queue', |g|, 0) && InOrder(g, dist[..], queue', old(dist[u]))
    ensures |queue'| - Visited(dist[..]) == |queue| - old(Visited(dist[..]))
  {
    queue' := queue;
    ghost var P, Q := pu[..], pv[..];
    hide *;
    for k := 0 to |g[u]|
      invariant pu[..] == P && pv[..] == Q && dist[u] == old(dist[u]) && InOrder(g, dist[..], queue', dist[u])
      invariant Searching(g, P, Q, dist[..])
      invariant Expanded(g, Q, dist[..], queue', u, k)
      invariant |queue'| - Visited(dist[..]) == |queue| - old(Visited(dist[..]))
    {
      queue' := Visit(g, pv, dist, u, k, queue', P);
    }
    ExpandedAll(g, Q, dist[..], queue', u);
  }

  /** Visits the partner of one right neighbour. */
  method Visit(g: Graph, pv: array<int>, dist: array<int>, u: int, k: int, queue: seq<int>, ghost P: seq<int>)
    returns (queue': seq<int>)
    requires pv.Length == dist.Length == |g| + 1 && dist != pv
    requires Searching(g, P, pv[..], dist[..])
    requires 0 <= u < |g| && 0 <= k < |g[u]| && dist[u] != INF && Expanded(g, pv[..], dist[..], queue, u, k)
    requires InOrder(g, dist[..], queue, dist[u])
    modifies dist
    ensures Searching(g, P, pv[..], dist[..])
    ensures dist[u] == old(dist[u]) && InOrder(g, dist[..], queue', dist[u])
    ensures Expanded(g, pv[..], dist[..], queue', u, k + 1)
    ensures |queue'| - Visited(dist[..]) == |queue| - old(Visited(dist[..]))
  {
    ghost var d, Q := dist[..], pv[..];
    hide *;
    Scanned(g, P, Q, d, queue, u, k);
    var back := pv[g[u][k]];
    if dist[back] != INF {
      return queue;
    }
    Discovered(g, P, Q, d, u, k);
    QueuedVisited(g, Q, d, queue, u, k);
    OrderPushed(g, d, queue, d[u], back);
    dist[back] := dist[u] + 1;
    queue' := queue + [back];
    assert dist[..] == d[back := d[u] + 1];
  }

  /** Takes the first node from the queue, and expands it if it is before the dummy. */
  method Pop(g: Graph, pu: array<int>, pv: array<int>, dist: array<int>, queue: seq<int>, ghost level: int)
    returns (queue': seq<int>, ghost level': int)
    requires pu.Length == pv.Length == dist.Length == |g| + 1 && dist != pu && dist != pv
    requires Searching(g, pu[..], pv[..], dist[..]) && IsGraph(g) && Partners(g, pv[..])
    requires queue != [] && Expanded(g, pv[..], dist[..], queue, |g|, 0) && InOrder(g, dist[..], queue, level)
    modifies dist
    ensures Searching(g, pu[..], pv[..], dist[..])
    ensures Expanded(g, pv[..], dist[..], queue', |g|, 0) && InOrder(g, dist[..], queue', level')
    ensures |queue'| - Visited(dist[..]) == |queue| - 1 - old(Visited(dist[..])) && Visited(dist[..]) <= |g| + 1
  {
    hide *;
    Popped(g, pu[..], pv[..], dist[..], queue);
    OrderPopped(g, dist[..], queue, level);
    var u := queue[0];
    level' := dist[u];
    queue' := queue[1..];
    if dist[u] < dist[|g|] {
      queue' := Expand(g, pu, pv, dist, u, queue');
    }
    VisitedBound(dist[..]);
  }

  /** Distances from the unmatched left nodes, until the dummy is reached.
      Returns whether the dummy can be reached. */
  method DoBfs(g: Graph, pu: array<int>, pv: array<int>, dist: array<int>) returns (reached: bool)
    requires IsGraph(g) && pu.Length == pv.Length == dist.Length == |g| + 1
    requires Paired(g, pu[..], pv[..])
    requires dist != pu && dist != pv
    modifies dist
    ensures Partners(g, pv[..]) && Layered(g, pu[..], pv[..], dist[..]) && LevelSteps(g, pv[..], dist[..])
    ensures reached == (dist[|g|] != INF)
    ensures !reached ==> ClosedUnderSteps(g, pv[..], dist[..])
  {
    var n := |g|;
    ghost var P, Q := pu[..], pv[..];
    assert Partners(g, Q);
    hide *;
    var queue := EnqueueUnmatched(g, pu, pv, dist);
    ghost var level := 0;
    while queue != []
      invariant pu[..] == P && pv[..] == Q && InOrder(g, dist[..], queue, level)
      invariant Searching(g, P, Q, dist[..])
      invariant Expanded(g, Q, dist[..], queue, n, 0)
      decreases n + 1 - Visited(dist[..]) + |queue|
    {
      queue, level := Pop(g, pu, pv, dist, queue, level);
    }
    SearchEnds(g, P, Q, dist[..]);
    reached := dist[n] != INF;
  }

  /** A walk from level `level` changes nothing at lower levels, and distances only to INF. */
  ghost predicate Above(g: Graph, p: seq<int>, q: seq<int>, d: seq<int>, p': seq<int>, q': seq<int>, d': seq<int>,
                        level: int)
    requires |p| == |q| == |d| == |p'| == |q'| == |d'| == |g| + 1
    requires Partners(g, q)
  {
    && p'[|g|] == p[|g|] && q'[|g|] == q[|g|] && d'[|g|] == d[|g|]
    && (forall x :: 0 <= x < |g| && p'[x] != p[x] ==> d[x] >= level)
    && (forall v :: 0 <= v < |g| && q'[v] != q[v] ==> d[q[v]] > level)
    && forall x :: 0 <= x < |g| && d'[x] != d[x] ==> d'[x] == INF && d[x] >= level
  }

  /** Where the pairing of a right node changes, the new partner is one level before the old one. */
  ghost predicate Lowered(g: Graph, q: seq<int>, q': seq<int>, d: seq<int>)
    requires |q| == |q'| == |d| == |g| + 1 && Partners(g, q)
  {
    forall v :: 0 <= v < |g| && q'[v] != q[v] ==>
      && 0 <= q'[v] < |g| && d[q'[v]] < d[|g|] && d[q[v]] == d[q'[v]] + 1
      && d[q'[v]] != INF && d[q[v]] != INF
  }

  lemma NothingDone(g: Graph, p: seq<int>, q: seq<int>, d: seq<int>, level: int)
    requires IsGraph(g) && Paired(g, p, q) && |d| == |g| + 1
    ensures Partners(g, q) && Pruned(g, q, d, d) && Lowered(g, q, q, d) && Above(g, p, q, d, p, q, d, level)
  {
  }

  /** What a walk that succeeded along the `k`-th edge of `u` has closed off and lowered. */
  lemma WalkLowers(g: Graph, p: seq<int>, q: seq<int>, d: seq<int>, d1: seq<int>, q2: seq<int>, d2: seq<int>, u: int,
                   k: int)
    requires IsGraph(g) && Paired(g, p, q) && 0 <= u < |g| && 0 <= k < |g[u]|
    requires |d| == |d1| == |q2| == |d2| == |g| + 1
    requires Levels(g, d) && Levels(g, d1) && Trying(g, q, d, d1, u, k)
    requires d1[q[g[u][k]]] == d[u] + 1 && d1[q[g[u][k]]] <= d1[|g|]
    requires Pruned(g, q, d1, d2) && Lowered(g, q, q2, d1)
    ensures Pruned(g, q, d, d2) && Lowered(g, q, q2[g[u][k] := u], d) && d[u] <= d[|g|]
  {
    PrunedTransitive(g, q, d, d1, d2);
    assert forall x :: 0 <= x <= |g| && d1[x] != INF ==> d1[x] == d[x];
  }

  /** `u` has gained a partner and nobody has lost one.  Only the entry of the former partner of
      `u` (if it had one) is stale, and the caller is about to overwrite it. */
  ghost predicate Augmented(g: Graph, p: seq<int>, p': seq<int>, q': seq<int>, u: int)
    requires IsGraph(g) && |p| == |p'| == |q'| == |g| + 1 && 0 <= u < |g| && 0 <= p[u] <= |g|
  {
    && Paired(g, p', q'[p[u] := |g|])
    && Matched(|g|, p') == Matched(|g|, p) + {u}
  }

  /** The first `k` edges of `u` have been tried in vain since the distances were `d`. */
  ghost predicate Trying(g: Graph, q: seq<int>, d: seq<int>, d': seq<int>, u: int, k: int)
    requires IsGraph(g) && |q| == |d| == |d'| == |g| + 1 && 0 <= u < |g| && k <= |g[u]|
    requires Partners(g, q)
  {
    && Levels(g, d') && d'[u] == d[u] && Pruned(g, q, d, d')
    && (forall x :: 0 <= x < |g| && d'[x] != d[x] ==> d'[x] == INF && d[x] > d[u])
    && forall j :: 0 <= j < k ==> d'[q[g[u][j]]] != d[u] + 1
  }

  lemma NothingTried(g: Graph, q: seq<int>, d: seq<int>, u: int)
    requires IsGraph(g) && |q| == |d| == |g| + 1 && 0 <= u < |g| && Partners(g, q) && Levels(g, d)
    ensures Trying(g, q, d, d, u, 0)
  {
  }

  /** Following the `k`-th edge of `u`, and what is known if it does not lead one level on. */
  lemma EdgeInRange(g: Graph, p: seq<int>, q: seq<int>, d: seq<int>, d': seq<int>, u: int, k: int)
    requires IsGraph(g) && Paired(g, p, q) && |d| == |d'| == |g| + 1 && 0 <= u < |g| && 0 <= k < |g[u]|
    requires Levels(g, d) && Trying(g, q, d, d', u, k)
    ensures 0 <= g[u][k] < |g| && 0 <= q[g[u][k]] <= |g| && Partners(g, q)
    ensures d'[u] == d[u] && 0 <= d[u] <= INF && 0 <= d'[q[g[u][k]]] <= INF
    ensures d'[q[g[u][k]]] != d'[u] + 1 ==> Trying(g, q, d, d', u, k + 1)
  {
    hide Pruned;
  }

  lemma TriedOneMore(g: Graph, p: seq<int>, q: seq<int>, d: seq<int>, d1: seq<int>, d2: seq<int>, u: int, k: int)
    requires IsGraph(g) && |p| == |q| == |d| == |d1| == |d2| == |g| + 1 && 0 <= u < |g| && 0 <= k < |g[u]|
    requires Partners(g, q)
    requires Trying(g, q, d, d1, u, k) && Levels(g, d2) && Pruned(g, q, d1, d2)
    requires Above(g, p, q, d1, p, q, d2, d[u] + 1)
    requires d2[q[g[u][k]]] == INF && d[u] + 1 < INF
    ensures Trying(g, q, d, d2, u, k + 1) && d2[u] == d[u]
  {
    PrunedTransitive(g, q, d, d1, d2);
  }

  lemma TriedAll(g: Graph, p: seq<int>, q: seq<int>, d: seq<int>, d': seq<int>, u: int)
    requires IsGraph(g) && |p| == |q| == |d| == |d'| == |g| + 1 && 0 <= u < |g|
    requires Partners(g, q)
    requires Levels(g, d) && Trying(g, q, d, d', u, |g[u]|)
    ensures Levels(g, d'[u := INF]) && Pruned(g, q, d, d'[u := INF])
    ensures Above(g, p, q, d, p, q, d'[u := INF], d[u])
  {
    forall j | 0 <= j < |g[u]| && d[q[g[u][j]]] == d[u] + 1 ensures d'[u := INF][q[g[u][j]]] == INF {
      assert d'[q[g[u][j]]] != d[u] + 1;
    }
  }

  /** Swapping the edge `(u, v)` into a pairing in which `v` is free. */
  lemma SwappedIn(g: Graph, p: seq<int>, q: seq<int>, u: int, v: int)
    requires IsGraph(g) && |p| == |q| == |g| + 1 && 0 <= u < |g| && v in g[u] && 0 <= v < |g|
    requires Paired(g, p, q[v := |g|])
    requires 0 <= p[u] <= |g| && p[u] != v && (p[u] < |g| ==> q[p[u]] == u)
    ensures Augmented(g, p, p[u := v], q[v := u], u)
  {
    SwappedLeft(g, p, q, u, v);
    SwappedRight(g, p, q, u, v);
    SwappedMatched(g, p, u, v);
    var p', q', r := p[u := v], q[v := u][p[u] := |g|], q[v := |g|];
    assert Paired(g, p', q') by {
      assert Paired(g, p, r);
      hide Matched;
    }
    hide Paired;
  }

  lemma SwappedLeft(g: Graph, p: seq<int>, q: seq<int>, u: int, v: int)
    requires IsGraph(g) && |p| == |q| == |g| + 1 && 0 <= u < |g| && v in g[u] && 0 <= v < |g|
    requires Paired(g, p, q[v := |g|])
    requires 0 <= p[u] <= |g| && p[u] != v && (p[u] < |g| ==> q[p[u]] == u)
    ensures var p', q' := p[u := v], q[v := u][p[u] := |g|];
            forall x :: 0 <= x < |g| ==> 0 <= p'[x] <= |g| && (p'[x] < |g| ==> p'[x] in g[x] && q'[p'[x]] == x)
  {
    var p', q', r := p[u := v], q[v := u][p[u] := |g|], q[v := |g|];
    forall x | 0 <= x < |g| ensures 0 <= p'[x] <= |g| && (p'[x] < |g| ==> p'[x] in g[x] && q'[p'[x]] == x) {
      assert 0 <= p[x] <= |g| && (p[x] < |g| ==> p[x] in g[x] && r[p[x]] == x);
    }
  }

  lemma SwappedRight(g: Graph, p: seq<int>, q: seq<int>, u: int, v: int)
    requires IsGraph(g) && |p| == |q| == |g| + 1 && 0 <= u < |g| && v in g[u] && 0 <= v < |g|
    requires Paired(g, p, q[v := |g|])
    requires 0 <= p[u] <= |g| && p[u] != v && (p[u] < |g| ==> q[p[u]] == u)
    ensures var p', q' := p[u := v], q[v := u][p[u] := |g|];
            forall w :: 0 <= w < |g| ==> 0 <= q'[w] <= |g| && (q'[w] < |g| ==> p'[q'[w]] == w)
  {
    var p', q', r := p[u := v], q[v := u][p[u] := |g|], q[v := |g|];
    forall w | 0 <= w < |g| ensures 0 <= q'[w] <= |g| && (q'[w] < |g| ==> p'[q'[w]] == w) {
      assert 0 <= r[w] <= |g| && (r[w] < |g| ==> p[r[w]] == w);
    }
  }

  lemma SwappedMatched(g: Graph, p: seq<int>, u: int, v: int)
    requires |p| == |g| + 1 && 0 <= u < |g| && 0 <= v < |g|
    ensures Matched(|g|, p[u := v]) == Matched(|g|, p) + {u}
  {
  }

  lemma StillAbove(g: Graph, p: seq<int>, q: seq<int>, d: seq<int>, d1: seq<int>,
                   p2: seq<int>, q2: seq<int>, d2: seq<int>, u: int, k: int)
    requires IsGraph(g) && 0 <= u < |g| && 0 <= k < |g[u]|
    requires |p| == |q| == |d| == |d1| == |p2| == |q2| == |d2| == |g| + 1
    requires Partners(g, q)
    requires Levels(g, d) && Trying(g, q, d, d1, u, k)
    requires Above(g, p, q, d1, p2, q2, d2, d[u] + 1)
    requires d1[q[g[u][k]]] == d[u] + 1 && 0 <= p[u] <= |g|
    ensures Above(g, p, q, d, p2[u := g[u][k]], q2[g[u][k] := u], d2, d[u])
    ensures p2[u] == p[u] && (p[u] < |g| && q[p[u]] == u ==> p[u] != g[u][k] && q2[p[u]] == u)
  {
  }

  /** A walk that succeeded from the partner of `v` lets `u` take over `v`. */
  lemma Rewired(g: Graph, p: seq<int>, q: seq<int>, d: seq<int>, d1: seq<int>,
                p2: seq<int>, q2: seq<int>, d2: seq<int>, u: int, k: int)
    requires IsGraph(g) && Paired(g, p, q) && 0 <= u < |g| && 0 <= k < |g[u]|
    requires |d| == |d1| == |p2| == |q2| == |d2| == |g| + 1
    requires Levels(g, d) && Trying(g, q, d, d1, u, k)
    requires d1[q[g[u][k]]] == d[u] + 1
    requires Above(g, p, q, d1, p2, q2, d2, d[u] + 1)
    requires var back := q[g[u][k]];
             && (back == |g| ==> p2 == p && q2 == q)
             && (back < |g| ==> Augmented(g, p, p2, q2, back))
    ensures Augmented(g, p, p2[u := g[u][k]], q2[g[u][k] := u], u)
    ensures Above(g, p, q, d, p2[u := g[u][k]], q2[g[u][k] := u], d2, d[u])
  {
    var n, v := |g|, g[u][k];
    StillAbove(g, p, q, d, d1, p2, q2, d2, u, k);
    assert p[u] < n ==> q[p[u]] == u;
    assert q[v] < n ==> p[q[v]] == v;
    hide Trying, Above;
    assert Paired(g, p2, q2[v := n]) by { assert q[v] == n ==> q2[v := n] == q; }
    SwappedIn(g, p2, q2, u, v);
  }

  /** Tries to walk from `u` to the dummy along increasing distances; a successful walk swaps the
      edges along it on the way back.  A failure leaves the pairing alone and closes off `u`. */
  method DoDfs(g: Graph, pu: array<int>, pv: array<int>, dist: array<int>, u: int) returns (ok: bool)
    requires IsGraph(g) && pu.Length == pv.Length == dist.Length == |g| + 1
    requires pu != pv && dist != pu && dist != pv
    requires Paired(g, pu[..], pv[..]) && Levels(g, dist[..])
    requires 0 <= u <= |g|
    modifies pu, pv, dist
    ensures Levels(g, dist[..])
    ensures Above(g, old(pu[..]), old(pv[..]), old(dist[..]), pu[..], pv[..], dist[..], old(dist[u]))
    ensures u == |g| ==> ok && pu[..] == old(pu[..]) && pv[..] == old(pv[..]) && dist[..] == old(dist[..])
    ensures u < |g| && ok ==> Augmented(g, old(pu[..]), pu[..], pv[..], u)
    ensures !ok ==> pu[..] == old(pu[..]) && pv[..] == old(pv[..]) && dist[u] == INF
    ensures Pruned(g, old(pv[..]), old(dist[..]), dist[..])
    ensures ok ==> Lowered(g, old(pv[..]), pv[..], old(dist[..])) && old(dist[u]) <= old(dist[|g|])
    decreases INF + 1 - dist[u], 1
  {
    hide *;
    var n := |g|;
    ghost var D, P, Q := dist[..], pu[..], pv[..];
    NothingDone(g, P, Q, D, D[u]);
    if u == n {
      return true;
    }
    NothingTried(g, Q, D, u);
    for k := 0 to |g[u]|
      invariant pu[..] == P && pv[..] == Q && Levels(g, dist[..]) && dist[u] == D[u]
      invariant Trying(g, Q, D, dist[..], u, k)
    {
      ok := TryEdge(g, pu, pv, dist, u, k, D);
      if ok {
        return true;
      }
    }
    TriedAll(g, P, Q, D, dist[..], u);
    ghost var d := dist[..];
    dist[u] := INF;
    assert dist[..] == d[u := INF];
    return false;
  }

  /** Tries to walk on along the `k`-th edge of `u`, if it leads one level on. */
  method TryEdge(g: Graph, pu: array<int>, pv: array<int>, dist: array<int>, u: int, k: int, ghost D: seq<int>)
    returns (ok: bool)
    requires IsGraph(g) && pu.Length == pv.Length == dist.Length == |D| == |g| + 1
    requires pu != pv && dist != pu && dist != pv
    requires Paired(g, pu[..], pv[..]) && Levels(g, D) && Levels(g, dist[..])
    requires 0 <= u < |g| && 0 <= k < |g[u]| && dist[u] == D[u]
    requires Partners(g, pv[..]) && Trying(g, pv[..], D, dist[..], u, k)
    modifies pu, pv, dist
    ensures Levels(g, dist[..])
    ensures ok ==> Above(g, old(pu[..]), old(pv[..]), D, pu[..], pv[..], dist[..], D[u])
    ensures ok ==> Augmented(g, old(pu[..]), pu[..], pv[..], u)
    ensures ok ==> Pruned(g, old(pv[..]), D, dist[..]) && Lowered(g, old(pv[..]), pv[..], D) && D[u] <= D[|g|]
    ensures !ok ==> pu[..] == old(pu[..]) && pv[..] == old(pv[..]) && dist[u] == D[u]
    ensures !ok ==> Trying(g, old(pv[..]), D, dist[..], u, k + 1)
    decreases INF + 1 - dist[u], 0
  {
    ghost var P, Q, d := pu[..], pv[..], dist[..];
    hide *;
    EdgeInRange(g, P, Q, D, d, u, k);
    var v := g[u][k];
    var back := pv[v];
    if dist[back] != dist[u] + 1 {
      return false;
    }
    ok := DoDfs(g, pu, pv, dist, back);
    if ok {
      TakeOver(g, pu, pv, dist[..], u, k, P, Q, D, d);
    } else {
      TriedOneMore(g, P, Q, D, d, dist[..], u, k);
    }
  }

  /** After a walk on from the partner of the `k`-th neighbour of `u` has succeeded, `u` takes that over. */
  method TakeOver(g: Graph, pu: array<int>, pv: array<int>, ghost d2: seq<int>, u: int, k: int,
                  ghost p: seq<int>, ghost q: seq<int>, ghost d: seq<int>, ghost d1: seq<int>)
    requires IsGraph(g) && Paired(g, p, q) && 0 <= u < |g| && 0 <= k < |g[u]|
    requires pu != pv && pu.Length == pv.Length == |d| == |d1| == |d2| == |g| + 1
    requires Levels(g, d) && Levels(g, d1) && Trying(g, q, d, d1, u, k)
    requires d1[q[g[u][k]]] == d[u] + 1 && d1[q[g[u][k]]] <= d1[|g|]
    requires Above(g, p, q, d1, pu[..], pv[..], d2, d[u] + 1)
    requires Pruned(g, q, d1, d2) && Lowered(g, q, pv[..], d1)
    requires var back := q[g[u][k]];
             && (back == |g| ==> pu[..] == p && pv[..] == q)
             && (back < |g| ==> Augmented(g, p, pu[..], pv[..], back))
    modifies pu, pv
    ensures Augmented(g, p, pu[..], pv[..], u) && Above(g, p, q, d, pu[..], pv[..], d2, d[u])
    ensures Pruned(g, q, d, d2) && Lowered(g, q, pv[..], d) && d[u] <= d[|g|]
  {
    hide *;
    ghost var p2, q2 := pu[..], pv[..];
    EdgeInRange(g, p, q, d, d1, u, k);
    Rewired(g, p, q, d, d1, p2, q2, d2, u, k);
    WalkLowers(g, p, q, d, d1, q2, d2, u, k);
    var v := g[u][k];
    pv[v] := u;
    pu[u] := v;
    assert pu[..] == p2[u := v] && pv[..] == q2[v := u];
  }

  // ---------------------------------------------------------------- the test itself

  /** If no walk at all succeeds, then the dummy had not been reached. */
  lemma SomeRootSucceeds(g: Graph, p: seq<int>, q: seq<int>, d: seq<int>, d': seq<int>)
    requires Layered(g, p, q, d) && |d'| == |g| + 1
    requires Dead(g, p, q, d, d', |g|)
    ensures d[|g|] == INF
  {
    RootsClosedMeansAllClosed(g, p, q, d, d', |g|);
  }

  lemma RootMatched(g: Graph, p: seq<int>, p': seq<int>, q': seq<int>, u: int)
    requires IsGraph(g) && |p| == |p'| == |q'| == |g| + 1 && 0 <= u < |g| && p[u] == |g|
    requires Augmented(g, p, p', q', u)
    ensures Paired(g, p', q')
    ensures Matched(|g|, p') == Matched(|g|, p) + {u} && u !in Matched(|g|, p)
    ensures |Matched(|g|, p')| == |Matched(|g|, p)| + 1
  {
    var q := q'[|g| := |g|];
    assert Paired(g, p', q);
    assert forall v :: 0 <= v < |g| ==> q[v] == q'[v];
    forall v | 0 <= v < |g| ensures 0 <= q'[v] <= |g| && (q'[v] < |g| ==> p'[q'[v]] == v) {
      assert 0 <= q[v] <= |g| && (q[v] < |g| ==> p'[q[v]] == v);
    }
  }

  lemma NobodyMatched(g: Graph, p: seq<int>, q: seq<int>)
    requires IsGraph(g) && |p| == |q| == |g| + 1
    requires forall x :: 0 <= x <= |g| ==> p[x] == |g| && q[x] == |g|
    ensures Paired(g, p, q) && Matched(|g|, p) == {}
  {
  }

  /** One phase: a walk from every unmatched left node.  If the search reached the dummy, then at
      least one walk succeeds, nobody loses a partner, and afterwards every walk to the dummy is longer. */
  method TryRoots(g: Graph, pu: array<int>, pv: array<int>, dist: array<int>, numMatched: int) returns (r: int)
    requires pu.Length == pv.Length == dist.Length == |g| + 1
    requires pu != pv && dist != pu && dist != pv
    requires Layered(g, pu[..], pv[..], dist[..]) && LevelSteps(g, pv[..], dist[..]) && dist[|g|] != INF
    requires numMatched == |Matched(|g|, pu[..])|
    modifies pu, pv, dist
    ensures Paired(g, pu[..], pv[..])
    ensures numMatched < r == |Matched(|g|, pu[..])|
    ensures Matched(|g|, old(pu[..])) < Matched(|g|, pu[..])
    ensures Farther(g, pu[..], pv[..], old(dist[|g|]))
  {
    hide *;
    var n := |g|;
    ghost var P, Q, D := pu[..], pv[..], dist[..];
    PhaseStarts(g, P, Q, D);
    r := numMatched;
    for u := 0 to n
      invariant Paired(g, pu[..], pv[..]) && Partners(g, pv[..]) && Levels(g, dist[..])
      invariant Phase(g, P, Q, D, pu[..], pv[..], dist[..], u, numMatched, r)
    {
      if pu[u] == n {
        r := TryRoot(g, pu, pv, dist, u, r, P, Q, D, numMatched);
      } else {
        RootSkipped(g, P, Q, D, pu[..], pv[..], dist[..], u, numMatched, r);
      }
    }
    PhaseEnds(g, P, Q, D, pu[..], pv[..], dist[..], numMatched, r);
  }

  /** What has been closed off stays closed off for the current pairing: nodes from which no walk goes up level
      by level to the dummy.  All roots below `u` that are still unmatched are closed off. */
  ghost predicate Dead(g: Graph, p: seq<int>, q: seq<int>, D: seq<int>, d: seq<int>, u: int)
    requires IsGraph(g) && |p| == |q| == |D| == |d| == |g| + 1 && u <= |g|
    requires Partners(g, q)
  {
    && LevelSteps(g, q, D) && Pruned(g, q, D, d)
    && forall x :: 0 <= x < u && p[x] == |g| ==> d[x] == INF
  }

  /** A phase in progress: nobody loses a partner, and if nobody has gained one, the pairing is as it was. */
  ghost predicate Phase(g: Graph, P: seq<int>, Q: seq<int>, D: seq<int>, p: seq<int>, q: seq<int>, d: seq<int>, u: int,
                        was: int, r: int)
    requires IsGraph(g) && |P| == |Q| == |D| == |p| == |q| == |d| == |g| + 1 && u <= |g|
    requires Partners(g, q)
  {
    && was == |Matched(|g|, P)| <= r == |Matched(|g|, p)| && Matched(|g|, P) <= Matched(|g|, p)
    && (r == was ==> p == P && q == Q)
    && Dead(g, p, q, D, d, u)
  }

  lemma PhaseStarts(g: Graph, P: seq<int>, Q: seq<int>, D: seq<int>)
    requires Layered(g, P, Q, D) && LevelSteps(g, Q, D)
    ensures IsGraph(g) && Paired(g, P, Q) && Partners(g, Q) && Levels(g, D)
    ensures Phase(g, P, Q, D, P, Q, D, 0, |Matched(|g|, P)|, |Matched(|g|, P)|)
  {
  }

  lemma RootSkipped(g: Graph, P: seq<int>, Q: seq<int>, D: seq<int>, p: seq<int>, q: seq<int>, d: seq<int>, u: int,
                    was: int, r: int)
    requires IsGraph(g) && |P| == |Q| == |D| == |p| == |q| == |d| == |g| + 1 && 0 <= u < |g|
    requires Paired(g, p, q) && Phase(g, P, Q, D, p, q, d, u, was, r) && p[u] != |g|
    ensures Phase(g, P, Q, D, p, q, d, u + 1, was, r)
  {
    hide Pruned, Matched, LevelSteps;
  }

  lemma PhaseEnds(g: Graph, P: seq<int>, Q: seq<int>, D: seq<int>, p: seq<int>, q: seq<int>, d: seq<int>, was: int,
                  r: int)
    requires Layered(g, P, Q, D) && D[|g|] != INF && |p| == |q| == |d| == |g| + 1
    requires Paired(g, p, q) && Phase(g, P, Q, D, p, q, d, |g|, was, r)
    ensures was < r == |Matched(|g|, p)| && Matched(|g|, P) < Matched(|g|, p)
    ensures Farther(g, p, q, D[|g|])
  {
    hide Dead, Matched, Phase, Farther, LevelSteps, Pruned, AllReached;
    PhaseMeans(g, P, Q, D, p, q, d, |g|, was, r);
    if r == was {
      SomeRootSucceeds(g, P, Q, D, d);
    }
    NoShortWalks(g, P, Q, p, q, D, d);
  }

  lemma PhaseMeans(g: Graph, P: seq<int>, Q: seq<int>, D: seq<int>, p: seq<int>, q: seq<int>, d: seq<int>, u: int,
                   was: int, r: int)
    requires IsGraph(g) && |P| == |Q| == |D| == |p| == |q| == |d| == |g| + 1 && u <= |g|
    requires Partners(g, q) && Phase(g, P, Q, D, p, q, d, u, was, r)
    ensures was == |Matched(|g|, P)| <= r == |Matched(|g|, p)| && Matched(|g|, P) <= Matched(|g|, p)
    ensures (r == was ==> p == P && q == Q) && Dead(g, p, q, D, d, u)
    ensures r != was ==> Matched(|g|, P) != Matched(|g|, p)
  {
    hide Dead, Matched;
  }

  lemma NoShortWalks(g: Graph, P: seq<int>, Q: seq<int>, p: seq<int>, q: seq<int>, D: seq<int>, d: seq<int>)
    requires Layered(g, P, Q, D) && D[|g|] != INF && |p| == |q| == |d| == |g| + 1
    requires Paired(g, p, q) && Matched(|g|, P) <= Matched(|g|, p) && Dead(g, p, q, D, d, |g|)
    ensures Farther(g, p, q, D[|g|])
  {
    assert IsGraph(g);
    hide Layered, Dead, Paired, Matched, IsGraph;
    forall walk | IsWalk(g, p, q, walk) && walk[|walk| - 1] == |g| ensures |walk| - 1 > D[|g|] {
      NoShortWalk(g, P, Q, p, q, D, d, walk);
    }
  }

  lemma StillUnmatched(g: Graph, P: seq<int>, Q: seq<int>, D: seq<int>, p: seq<int>, x: int)
    requires Layered(g, P, Q, D) && |p| == |g| + 1 && Matched(|g|, P) <= Matched(|g|, p)
    requires 0 <= x < |g| && p[x] == |g|
    ensures D[x] == 0
  {
    assert x !in Matched(|g|, p) && x !in Matched(|g|, P);
  }

  /** A walk to the dummy that is no longer than before would go up level by level and only through nodes that
      are closed off. */
  lemma NoShortWalk(g: Graph, P: seq<int>, Q: seq<int>, p: seq<int>, q: seq<int>, D: seq<int>, d: seq<int>,
                    walk: seq<int>)
    requires Layered(g, P, Q, D) && D[|g|] != INF && |p| == |q| == |d| == |g| + 1
    requires Paired(g, p, q) && Matched(|g|, P) <= Matched(|g|, p) && Dead(g, p, q, D, d, |g|)
    requires IsWalk(g, p, q, walk) && walk[|walk| - 1] == |g|
    ensures |walk| - 1 > D[|g|]
  {
    var k := |walk| - 1;
    StillUnmatched(g, P, Q, D, p, walk[0]);
    if k <= D[|g|] {
      WalkClimbs(g, p, q, D, walk, k);
      WalkClosedOff(g, p, q, D, d, walk, k);
    }
  }

  /** A walk as short as the level of the dummy: its `i`-th node is on level `i`. */
  lemma {:induction false} WalkExact(g: Graph, p: seq<int>, q: seq<int>, D: seq<int>, walk: seq<int>, i: int)
    requires IsGraph(g) && Paired(g, p, q) && |D| == |g| + 1 && LevelSteps(g, q, D)
    requires IsWalk(g, p, q, walk) && walk[|walk| - 1] == |g| && |walk| - 1 == D[|g|] && D[walk[0]] == 0
    requires 0 <= i < |walk|
    ensures 0 <= walk[i] <= |g| && D[walk[i]] == i
    decreases |walk| - i
  {
    WalkClimbs(g, p, q, D, walk, i);
    if i < |walk| - 1 {
      WalkExact(g, p, q, D, walk, i + 1);
      assert Leads(g, q, walk[i], walk[i + 1]);
      var j :| 0 <= j < |g[walk[i]]| && q[g[walk[i]][j]] == walk[i + 1];
    }
  }

  lemma {:induction false} WalkClosedOff(g: Graph, p: seq<int>, q: seq<int>, D: seq<int>, d: seq<int>, walk: seq<int>,
                                         i: int)
    requires IsGraph(g) && Paired(g, p, q) && |D| == |d| == |g| + 1 && D[|g|] != INF && D[|g|] <= INF
    requires Dead(g, p, q, D, d, |g|)
    requires IsWalk(g, p, q, walk) && walk[|walk| - 1] == |g| && |walk| - 1 == D[|g|] && D[walk[0]] == 0
    requires 0 <= i < |walk|
    ensures 0 <= walk[i] <= |g| && d[walk[i]] == INF && D[walk[i]] == i
    decreases i
  {
    WalkExact(g, p, q, D, walk, i);
    if i > 0 {
      WalkClosedOff(g, p, q, D, d, walk, i - 1);
      assert Leads(g, q, walk[i - 1], walk[i]);
      var j :| 0 <= j < |g[walk[i - 1]]| && q[g[walk[i - 1]][j]] == walk[i];
      hide LevelSteps;
    }
  }

  /** After a success, what was closed off still is: a node that could now be one level on was two levels on. */
  lemma DeadAfterSuccess(g: Graph, p: seq<int>, q: seq<int>, D: seq<int>, d: seq<int>, p': seq<int>, q': seq<int>,
                         d': seq<int>, u: int)
    requires IsGraph(g) && Paired(g, p, q) && |D| == |d| == |p'| == |q'| == |d'| == |g| + 1 && 0 <= u < |g|
    requires Partners(g, q') && Dead(g, p, q, D, d, u) && Pruned(g, q, d, d') && Lowered(g, q, q', d)
    requires Matched(|g|, p') == Matched(|g|, p) + {u}
    ensures Dead(g, p', q', D, d', u + 1)
  {
    PrunedTransitive(g, q, D, d, d');
    LoweredSteps(g, q, q', D, d);
    LoweredPruned(g, q, q', D, d, d');
    forall x | 0 <= x < u + 1 && p'[x] == |g| ensures d'[x] == INF {
      assert x !in Matched(|g|, p') && x !in Matched(|g|, p) && x != u;
    }
    hide LevelSteps, Pruned;
  }

  lemma LoweredSteps(g: Graph, q: seq<int>, q': seq<int>, D: seq<int>, d: seq<int>)
    requires IsGraph(g) && |q| == |q'| == |D| == |d| == |g| + 1 && Partners(g, q) && Partners(g, q')
    requires LevelSteps(g, q, D) && Pruned(g, q, D, d) && Lowered(g, q, q', d)
    ensures LevelSteps(g, q', D)
  {
    assert forall x :: 0 <= x <= |g| && d[x] != INF ==> d[x] == D[x];
    hide Pruned;
  }

  lemma LoweredPruned(g: Graph, q: seq<int>, q': seq<int>, D: seq<int>, d: seq<int>, d': seq<int>)
    requires IsGraph(g) && |q| == |q'| == |D| == |d| == |d'| == |g| + 1 && Partners(g, q) && Partners(g, q')
    requires LevelSteps(g, q, D) && Pruned(g, q, D, d) && Pruned(g, q, D, d') && Lowered(g, q, q', d)
    ensures Pruned(g, q', D, d')
  {
    assert forall x :: 0 <= x <= |g| && d[x] != INF ==> d[x] == D[x];
    forall x, j | 0 <= x < |g| && d'[x] != D[x] && 0 <= j < |g[x]| && D[q'[g[x][j]]] == D[x] + 1
      ensures d'[q'[g[x][j]]] == INF
    {
      var v := g[x][j];
      if q'[v] != q[v] {
        assert false;
      }
    }
  }

  lemma RootSucceeds(g: Graph, P: seq<int>, Q: seq<int>, D: seq<int>, p: seq<int>, q: seq<int>, d: seq<int>,
                     p': seq<int>, q': seq<int>, d': seq<int>, u: int, was: int, r: int)
    requires IsGraph(g) && |P| == |Q| == |D| == |p| == |q| == |d| == |p'| == |q'| == |d'| == |g| + 1 && 0 <= u < |g|
    requires Paired(g, p, q) && Phase(g, P, Q, D, p, q, d, u, was, r)
    requires p[u] == |g| && Augmented(g, p, p', q', u) && Pruned(g, q, d, d') && Lowered(g, q, q', d)
    ensures Paired(g, p', q') && Partners(g, q') && Phase(g, P, Q, D, p', q', d', u + 1, was, r + 1)
  {
    RootMatched(g, p, p', q', u);
    hide Matched, Dead, Augmented, Pruned, Lowered;
    DeadAfterSuccess(g, p, q, D, d, p', q', d', u);
  }

  lemma RootFails(g: Graph, P: seq<int>, Q: seq<int>, D: seq<int>, p: seq<int>, q: seq<int>, d: seq<int>, d': seq<int>,
                  u: int, was: int, r: int)
    requires IsGraph(g) && |P| == |Q| == |D| == |p| == |q| == |d| == |d'| == |g| + 1 && 0 <= u < |g|
    requires Paired(g, p, q) && Phase(g, P, Q, D, p, q, d, u, was, r)
    requires Pruned(g, q, d, d') && d'[u] == INF
    ensures Phase(g, P, Q, D, p, q, d', u + 1, was, r)
  {
    PrunedTransitive(g, q, D, d, d');
    hide Matched, LevelSteps;
  }

  /** The walk from one unmatched left node. */
  method TryRoot(g: Graph, pu: array<int>, pv: array<int>, dist: array<int>, u: int, r: int,
                 ghost P: seq<int>, ghost Q: seq<int>, ghost D: seq<int>, ghost was: int) returns (r': int)
    requires IsGraph(g) && pu.Length == pv.Length == dist.Length == |P| == |Q| == |D| == |g| + 1
    requires pu != pv && dist != pu && dist != pv
    requires Paired(g, pu[..], pv[..]) && Levels(g, dist[..]) && 0 <= u < |g| && pu[u] == |g|
    requires Partners(g, pv[..]) && Phase(g, P, Q, D, pu[..], pv[..], dist[..], u, was, r)
    modifies pu, pv, dist
    ensures Paired(g, pu[..], pv[..]) && Partners(g, pv[..]) && Levels(g, dist[..])
    ensures Phase(g, P, Q, D, pu[..], pv[..], dist[..], u + 1, was, r')
  {
    hide *;
    ghost var p, q, d := pu[..], pv[..], dist[..];
    var ok := DoDfs(g, pu, pv, dist, u);
    if ok {
      RootSucceeds(g, P, Q, D, p, q, d, pu[..], pv[..], dist[..], u, was, r);
      r' := r + 1;
    } else {
      RootFails(g, P, Q, D, p, q, d, dist[..], u, was, r);
      r' := r;
    }
  }

  // ---------------------------------------------------------------- how many phases

  /** The left nodes on level `i`, and those before it. */
  ghost function Level(n: nat, dist: seq<int>, i: int): (s: set<int>)
    requires n <= |dist|
  {
    set u | 0 <= u < n && dist[u] == i
  }

  ghost function Before(n: nat, dist: seq<int>, i: int): (s: set<int>)
    requires n <= |dist|
    ensures s <= UpTo(n) && |s| <= n
  {
    var s := set u | 0 <= u < n && 0 <= dist[u] < i;
    assert s <= UpTo(n);
    SubsetCount(s, UpTo(n));
    s
  }

  /** The numbers of a set, moved up by `n`. */
  ghost function Shifted(s: set<int>, n: nat): set<int> {
    set x | x in s :: x + n
  }

  lemma {:induction false} ShiftedCount(s: set<int>, n: nat)
    ensures |Shifted(s, n)| <= |s|
    decreases |s|
  {
    if x :| x in s {
      var rest := s - {x};
      ShiftedCount(rest, n);
      assert s == rest + {x};
      forall y ensures y in Shifted(s, n) <==> y in Shifted(rest, n) + {x + n} {
        assert y in Shifted(s, n) <==> y - n in s;
        assert y in Shifted(rest, n) <==> y - n in rest;
      }
      assert Shifted(s, n) == Shifted(rest, n) + {x + n};
    } else {
      assert Shifted(s, n) == {};
    }
  }

  /** What an edge `(u, v)` of some other matching is charged to: from before level `i` to the partner of `v`,
      otherwise to `u`; partners on level `i`, and nodes without a partner, are moved up by the number of nodes. */
  ghost function CutCharge(g: Graph, pu: seq<int>, pv: seq<int>, dist: seq<int>, i: int, u: int, v: int): int
    requires |pu| == |pv| == |dist| == |g| + 1 && 0 <= u < |g| && 0 <= v < |g| && Partners(g, pv)
  {
    if dist[u] < i then
      var w := pv[v];
      if dist[w] == i then w + |g| else w
    else if pu[u] == |g| then u + |g| else u
  }

  ghost function CutTarget(g: Graph, pu: seq<int>, dist: seq<int>, i: int): set<int>
    requires |pu| == |dist| == |g| + 1
  {
    Matched(|g|, pu) + Shifted(Level(|g|, dist, i), |g|)
  }

  /** An edge from before level `i` leads to a partner no further than that level. */
  lemma CutPartner(g: Graph, pu: seq<int>, pv: seq<int>, dist: seq<int>, i: int, u: int, v: int)
    requires Layered(g, pu, pv, dist) && LevelSteps(g, pv, dist) && 0 <= i < dist[|g|]
    requires 0 <= u < |g| && v in g[u]
    ensures 0 <= v < |g|
    ensures dist[u] < i ==> 0 <= pv[v] < |g| && dist[pv[v]] <= i && pu[pv[v]] == v
  {
    hide AllReached;
    var j :| 0 <= j < |g[u]| && g[u][j] == v;
    if dist[u] < i {
      assert dist[pv[v]] <= dist[u] + 1;
    }
  }

  lemma CutChargeIn(g: Graph, pu: seq<int>, pv: seq<int>, dist: seq<int>, i: int, u: int, v: int)
    requires Layered(g, pu, pv, dist) && LevelSteps(g, pv, dist) && 0 <= i < dist[|g|]
    requires 0 <= u < |g| && v in g[u]
    ensures 0 <= v < |g|
    ensures dist[u] < i ==> 0 <= pv[v] < |g| && dist[pv[v]] <= i && pu[pv[v]] == v
    ensures CutCharge(g, pu, pv, dist, i, u, v) in CutTarget(g, pu, dist, i)
  {
    hide LevelSteps, AllReached;
    CutPartner(g, pu, pv, dist, i, u, v);
    if dist[u] < i {
      assert pv[v] in Matched(|g|, pu);
      assert dist[pv[v]] == i ==> pv[v] in Level(|g|, dist, i);
    } else if pu[u] == |g| {
      assert u in Level(|g|, dist, i);
    } else {
      assert u in Matched(|g|, pu);
    }
  }

  lemma CutChargeOnce(g: Graph, pu: seq<int>, pv: seq<int>, dist: seq<int>, i: int, u: int, v: int, u': int, v': int)
    requires Layered(g, pu, pv, dist) && LevelSteps(g, pv, dist) && 0 <= i < dist[|g|]
    requires 0 <= u < |g| && v in g[u] && 0 <= u' < |g| && v' in g[u'] && (v == v' ==> u == u')
    requires 0 <= v < |g| && 0 <= v' < |g|
    requires CutCharge(g, pu, pv, dist, i, u, v) == CutCharge(g, pu, pv, dist, i, u', v')
    ensures u == u'
  {
    hide AllReached, LevelSteps, Matched, CutTarget;
    CutPartner(g, pu, pv, dist, i, u, v);
    CutPartner(g, pu, pv, dist, i, u', v');
  }

  /** Every level before the dummy is a cut: no matching beats the current one by more than a level has nodes. */
  lemma LevelCut(g: Graph, pu: seq<int>, pv: seq<int>, dist: seq<int>, m: map<int, int>, i: int)
    requires Layered(g, pu, pv, dist) && LevelSteps(g, pv, dist) && 0 <= i < dist[|g|] && IsMatching(g, m)
    ensures |m| <= |Matched(|g|, pu)| + |Level(|g|, dist, i)|
  {
    forall u | u in m ensures 0 <= m[u] < |g| {
      CutChargeIn(g, pu, pv, dist, i, u, m[u]);
    }
    var target := CutTarget(g, pu, dist, i);
    assert |target| <= |Matched(|g|, pu)| + |Level(|g|, dist, i)| by {
      ShiftedCount(Level(|g|, dist, i), |g|);
    }
    var charge := map u | u in m :: CutCharge(g, pu, pv, dist, i, u, m[u]);
    assert charge.Keys == m.Keys;
    hide Layered, LevelSteps, CutCharge, CutTarget, Matched, Level;
    forall u | u in charge ensures charge[u] in target {
      CutChargeIn(g, pu, pv, dist, i, u, m[u]);
    }
    forall u, w | u in charge && w in charge && charge[u] == charge[w] ensures u == w {
      CutChargeOnce(g, pu, pv, dist, i, u, m[u], w, m[w]);
    }
    InjectiveImageFits(charge, target);
  }

  lemma {:induction false} LevelsAddUp(n: nat, dist: seq<int>, i: nat, size: int)
    requires n <= |dist| && forall j :: 0 <= j < i ==> size <= |Level(n, dist, j)|
    ensures i * size <= |Before(n, dist, i)|
  {
    hide *;
    if i > 0 {
      LevelsAddUp(n, dist, i - 1, size);
      OneLevelMore(n, dist, i - 1);
      assert i * size == (i - 1) * size + size;
    }
  }

  lemma OneLevelMore(n: nat, dist: seq<int>, i: nat)
    requires n <= |dist|
    ensures |Before(n, dist, i + 1)| == |Before(n, dist, i)| + |Level(n, dist, i)|
  {
    assert Before(n, dist, i + 1) == Before(n, dist, i) + Level(n, dist, i);
    assert Before(n, dist, i) !! Level(n, dist, i);
  }

  /** The longer the shortest walk to the dummy, the less is missing to any other matching. */
  lemma FewAreMissing(g: Graph, pu: seq<int>, pv: seq<int>, dist: seq<int>, m: map<int, int>)
    requires Layered(g, pu, pv, dist) && LevelSteps(g, pv, dist) && dist[|g|] != INF && IsMatching(g, m)
    ensures dist[|g|] * (|m| - |Matched(|g|, pu)|) <= |g|
  {
    hide *;
    DummyIsFar(g, pu, pv, dist);
    LayeredSizes(g, pu, pv, dist);
    var size := |m| - |Matched(|g|, pu)|;
    forall j | 0 <= j < dist[|g|] ensures size <= |Level(|g|, dist, j)| {
      LevelCut(g, pu, pv, dist, m, j);
    }
    LevelsAddUp(|g|, dist, dist[|g|], size);
  }

  lemma LayeredSizes(g: Graph, pu: seq<int>, pv: seq<int>, dist: seq<int>)
    requires Layered(g, pu, pv, dist)
    ensures IsGraph(g) && |pu| == |pv| == |dist| == |g| + 1 && Partners(g, pv) && Paired(g, pu, pv)
  {
  }

  /** After `phases` phases: at most `k` so far, or no more left than would make it twice that many. */
  ghost predicate FewPhases(g: Graph, pu: seq<int>, phases: int, k: nat)
    requires |pu| == |g| + 1
  {
    phases <= k || forall m :: IsMatching(g, m) ==> |m| + phases <= |Matched(|g|, pu)| + 2 * k
  }

  lemma ProductBelow(a: int, b: int, k: nat, n: int)
    requires a * b <= n < (k + 1) * (k + 1) && a >= k + 1
    ensures b <= k
  {
    if b >= k + 1 {
      ProductAtLeast(a, b, k + 1);
    }
  }

  lemma ProductAtLeast(a: int, b: int, c: nat)
    requires a >= c && b >= c
    ensures a * b >= c * c
  {
    assert a * b >= c * b >= c * c;
  }

  lemma OnePhaseMore(g: Graph, P: seq<int>, Q: seq<int>, D: seq<int>, p: seq<int>, phases: int, k: nat)
    requires Layered(g, P, Q, D) && LevelSteps(g, Q, D) && D[|g|] != INF && phases < D[|g|]
    requires |p| == |g| + 1 && |Matched(|g|, P)| < |Matched(|g|, p)|
    requires |g| < (k + 1) * (k + 1) && FewPhases(g, P, phases, k)
    ensures FewPhases(g, p, phases + 1, k)
  {
    hide *;
    LayeredSizes(g, P, Q, D);
    if phases == k {
      forall m | IsMatching(g, m) ensures |m| <= |Matched(|g|, P)| + k {
        FewAreMissing(g, P, Q, D, m);
        ProductBelow(D[|g|], |m| - |Matched(|g|, P)|, k, |g|);
      }
    }
    PhaseCounted(g, P, p, phases, k);
  }

  lemma PhaseCounted(g: Graph, P: seq<int>, p: seq<int>, phases: int, k: nat)
    requires |P| == |p| == |g| + 1 && |Matched(|g|, P)| < |Matched(|g|, p)| && FewPhases(g, P, phases, k)
    requires phases == k ==> forall m :: IsMatching(g, m) ==> |m| <= |Matched(|g|, P)| + k
    ensures FewPhases(g, p, phases + 1, k)
  {
    hide Matched, IsMatching;
  }

  lemma FewInAll(g: Graph, p: seq<int>, q: seq<int>, phases: nat, k: nat)
    requires IsGraph(g) && |p| == |q| == |g| + 1 && Paired(g, p, q) && FewPhases(g, p, phases, k) && k * k <= |g|
    ensures phases * phases <= 4 * |g|
  {
    hide *;
    var m := CurrentMatching(g, p, q);
    AtMostTwice(g, p, m, phases, k);
    SquareOfTwice(phases, k);
  }

  lemma CurrentMatching(g: Graph, p: seq<int>, q: seq<int>) returns (m: map<int, int>)
    requires IsGraph(g) && Paired(g, p, q)
    ensures IsMatching(g, m) && |m| == |Matched(|g|, p)|
  {
    m := map u | u in Matched(|g|, p) :: p[u];
    assert m.Keys == Matched(|g|, p);
  }

  lemma AtMostTwice(g: Graph, p: seq<int>, m: map<int, int>, phases: nat, k: nat)
    requires |p| == |g| + 1 && FewPhases(g, p, phases, k) && IsMatching(g, m) && |m| == |Matched(|g|, p)|
    ensures phases <= 2 * k
  {
    hide IsMatching, Matched;
  }

  lemma SquareOfTwice(phases: nat, k: nat)
    requires phases <= 2 * k
    ensures phases * phases <= 4 * (k * k)
  {
    assert phases * phases <= (2 * k) * phases <= (2 * k) * (2 * k);
  }

  /** The largest number whose square is at most `n`. */
  ghost function Root(n: nat): (k: nat)
    ensures k * k <= n < (k + 1) * (k + 1)
  {
    if n == 0 then 0
    else
      var k := Root(n - 1);
      if (k + 1) * (k + 1) <= n then k + 1 else k
  }

  lemma NothingMissing(g: Graph, pu: seq<int>, k: nat)
    requires |pu| == |g| + 1
    ensures FewPhases(g, pu, 0, k)
  {
  }

  /** True exactly when the graph has a perfect matching.  The length of the shortest walk to the dummy rises
      from phase to phase, and the longer it is, the fewer partners are missing: there are at most twice as many
      phases as the square root of the number of nodes on one side. */
  method CanMatchAll(g: Graph) returns (r: bool, ghost phases: nat)
    requires IsGraph(g)
    ensures r <==> HasPerfectMatching(g)
    ensures phases <= |g| && phases * phases <= 4 * |g|
  {
    hide *;
    var n := |g|;
    var pu := new int[n + 1](_ => n);
    var pv := new int[n + 1](_ => n);
    var dist := new int[n + 1](_ => 0);
    var numMatched := 0;
    phases := 0;
    NobodyMatched(g, pu[..], pv[..]);
    var more := DoBfs(g, pu, pv, dist);
    ghost var length, k := 0, Root(n);
    NothingMissing(g, pu[..], k);
    DummyIsFar(g, pu[..], pv[..], dist[..]);
    while more
      invariant Partners(g, pv[..]) && Layered(g, pu[..], pv[..], dist[..]) && LevelSteps(g, pv[..], dist[..])
      invariant more == (dist[n] != INF)
      invariant !more ==> ClosedUnderSteps(g, pv[..], dist[..])
      invariant numMatched == |Matched(n, pu[..])| <= n
      invariant phases <= length <= n && (more ==> length < dist[n] <= n) && FewPhases(g, pu[..], phases, k)
      decreases n - numMatched, more
    {
      ghost var P, Q, D := pu[..], pv[..], dist[..];
      length := dist[n];
      numMatched := TryRoots(g, pu, pv, dist, numMatched);
      OnePhaseMore(g, P, Q, D, pu[..], phases, k);
      phases := phases + 1;
      more := DoBfs(g, pu, pv, dist);
      PhasesRise(g, pu[..], pv[..], dist[..], length);
    }
    r := numMatched == n;
    Decided(g, pu[..], pv[..], dist[..]);
    LayeredSizes(g, pu[..], pv[..], dist[..]);
    FewInAll(g, pu[..], pv[..], phases, k);
  }

  lemma DummyIsFar(g: Graph, pu: seq<int>, pv: seq<int>, dist: seq<int>)
    requires Layered(g, pu, pv, dist)
    ensures dist[|g|] == INF || 0 < dist[|g|] <= |g|
  {
  }

  /** The distance of the dummy rises from phase to phase. */
  lemma PhasesRise(g: Graph, pu: seq<int>, pv: seq<int>, dist: seq<int>, length: int)
    requires Layered(g, pu, pv, dist) && Farther(g, pu, pv, length)
    ensures dist[|g|] == INF || length < dist[|g|] <= |g|
  {
    DummyIsFar(g, pu, pv, dist);
    if dist[|g|] != INF {
      var walk := WalkTo(g, pu, pv, dist, |g|);
    }
    hide Layered, IsWalk;
  }

  /** After a failing search, everyone is matched or no perfect matching exists. */
  lemma Decided(g: Graph, pu: seq<int>, pv: seq<int>, dist: seq<int>)
    requires Layered(g, pu, pv, dist) && ClosedUnderSteps(g, pv, dist) && dist[|g|] == INF
    ensures |Matched(|g|, pu)| == |g| <==> HasPerfectMatching(g)
  {
    if |Matched(|g|, pu)| == |g| {
      AllMatched(g, pu, pv);
    } else if HasPerfectMatching(g) {
      var p :| IsPerfect(g, p);
      var m := map u | 0 <= u < |g| :: p[u];
      KeyCount(|g|, m);
      UnreachableDummyMeansMaximum(g, pu, pv, dist, m);
    }
  }

  lemma KeyCount(n: nat, m: map<int, int>)
    requires forall u :: u in m <==> 0 <= u < n
    ensures |m| == n
  {
    assert m.Keys == UpTo(n);
  }

  lemma AllMatched(g: Graph, pu: seq<int>, pv: seq<int>)
    requires Paired(g, pu, pv) && |Matched(|g|, pu)| == |g|
    ensures HasPerfectMatching(g)
  {
    var n := |g|;
    SubsetCount(Matched(n, pu), UpTo(n));
    var p: seq<int> := seq(n, u requires 0 <= u < n => pu[u]);
    forall u | 0 <= u < n ensures 0 <= pu[u] < n {
      assert u in Matched(n, pu);
    }
    assert IsPerfect(g, p);
  }
}
