/** The greedy best-first search over the neighbour graph. */
module GraphSearch {
  import opened Collections
  import opened NeighborQueue

  type Graph = seq<seq<nat>>

  ghost predicate InRange(g: Graph) {
    forall i :: 0 <= i < |g| ==> Below(g[i], |g|)
  }

  /** A graph, the distance of every location to the query point, the locations that pass the filter, and the list
      size. */
  datatype Query = Query(graph: Graph, dist: seq<real>, allowed: set<nat>, L: nat) {
    ghost predicate Valid() {
      |dist| == |graph| && InRange(graph) && 0 < L
    }
  }

  /** The candidate queue, the locations that were offered to it, and the expanded ones in order. */
  datatype SearchState = SearchState(queue: seq<Neighbor>, visited: set<nat>, expanded: seq<nat>)

  /** The neighbours that pass the filter and have not been visited, in order, with repetitions. */
  function Unvisited(q: Query, visited: set<nat>, nbrs: seq<nat>): seq<nat> {
    if nbrs == [] then []
    else
      var x := nbrs[|nbrs| - 1];
      var r := Unvisited(q, visited, nbrs[..|nbrs| - 1]);
      if x in q.allowed && x !in visited then r + [x] else r
  }

  lemma {:induction false} UnvisitedMembers(q: Query, visited: set<nat>, nbrs: seq<nat>)
    ensures forall x :: x in Unvisited(q, visited, nbrs) <==> x in nbrs && x in q.allowed && x !in visited
    ensures forall i :: 0 <= i < |Unvisited(q, visited, nbrs)| ==> Unvisited(q, visited, nbrs)[i] in nbrs
  {
    if nbrs != [] {
      UnvisitedMembers(q, visited, nbrs[..|nbrs| - 1]);
      assert nbrs == nbrs[..|nbrs| - 1] + [nbrs[|nbrs| - 1]];
    }
  }

  function OfferAll(q: Query, queue: seq<Neighbor>, ids: seq<nat>): seq<Neighbor>
    requires Below(ids, |q.dist|)
  {
    if ids == [] then queue
    else Offer(OfferAll(q, queue, ids[..|ids| - 1]), Item(q.dist, ids[|ids| - 1]), q.L)
  }

  /** The state after the starting locations have been offered. */
  function StartState(q: Query, starts: seq<nat>): SearchState
    requires Below(starts, |q.dist|)
  {
    if starts == [] then SearchState([], {}, [])
    else
      var s := StartState(q, starts[..|starts| - 1]);
      var x := starts[|starts| - 1];
      if x in q.allowed && x !in s.visited then
        SearchState(Offer(s.queue, Item(q.dist, x), q.L), s.visited + {x}, [])
      else s
  }

  ghost predicate Done(s: SearchState) {
    FirstUnexpanded(s.queue) == |s.queue|
  }

  /** One iteration: expand the closest candidate and offer its unvisited neighbours. */
  ghost function Step(q: Query, s: SearchState): SearchState
    requires Inv(q, s) && !Done(s)
  {
    var n := s.queue[FirstUnexpanded(s.queue)].id;
    var found := Unvisited(q, s.visited, q.graph[n]);
    UnvisitedMembers(q, s.visited, q.graph[n]);
    SearchState(OfferAll(q, Expand(s.queue), found), s.visited + Elems(found), s.expanded + [n])
  }

  /** Every expanded entry has had all its neighbours that pass the filter visited. */
  ghost predicate Settled(q: Query, queue: seq<Neighbor>, visited: set<nat>)
    requires |q.dist| == |q.graph| && Measured(queue, q.dist)
  {
    forall i :: 0 <= i < |queue| && queue[i].expanded ==>
      forall y :: y in q.graph[queue[i].id] && y in q.allowed ==> y in visited
  }

  /** The expanded locations are distinct, were visited, and are the ones marked in the queue. */
  ghost predicate Tracks(queue: seq<Neighbor>, visited: set<nat>, expanded: seq<nat>) {
    && NoDup(expanded)
    && (forall x :: x in expanded ==> x in visited)
    && (forall i :: 0 <= i < |queue| ==> (queue[i].expanded <==> queue[i].id in expanded))
  }

  ghost predicate Inv(q: Query, s: SearchState) {
    && q.Valid()
    && s.visited <= q.allowed
    && HoldsBest(s.queue, s.visited, q.L, q.dist)
    && Settled(q, s.queue, s.visited)
    && Tracks(s.queue, s.visited, s.expanded)
  }

  /** Offering a batch refines adding a set; what is in the queue afterwards was there before or is a new candidate. */
  lemma {:induction false} OfferAllKeepsBest(q: Query, queue: seq<Neighbor>, visited: set<nat>, ids: seq<nat>)
    requires q.Valid() && HoldsBest(queue, visited, q.L, q.dist)
    requires Below(ids, |q.dist|)
    ensures HoldsBest(OfferAll(q, queue, ids), visited + Elems(ids), q.L, q.dist)
    ensures forall e :: e in OfferAll(q, queue, ids) ==> e in queue || (e.id in ids && !e.expanded)
  {
    if ids == [] {
      assert visited + Elems(ids) == visited;
    } else {
      var init := ids[..|ids| - 1];
      var x := ids[|ids| - 1];
      assert ids == init + [x];
      OfferAllKeepsBest(q, queue, visited, init);
      var mid := OfferAll(q, queue, init);
      OfferKeepsBest(mid, visited + Elems(init), x, q.L, q.dist);
      assert visited + Elems(ids) == visited + Elems(init) + {x};
      OfferEntries(mid, Item(q.dist, x), q.L);
    }
  }

  lemma OfferEntries(queue: seq<Neighbor>, x: Neighbor, capacity: nat)
    requires Ordered(queue) && |queue| <= capacity && Agrees(queue, x)
    ensures forall e :: e in Offer(queue, x, capacity) ==> e in queue || e == Unexpanded(x)
  {
    var lo := OfferCases(queue, x, capacity);
  }

  /** The expanded entry becomes marked, everything else stays. */
  lemma ExpandTracks(queue: seq<Neighbor>, visited: set<nat>, expanded: seq<nat>, capacity: nat, dist: seq<real>)
    requires HoldsBest(queue, visited, capacity, dist) && Tracks(queue, visited, expanded)
    requires FirstUnexpanded(queue) < |queue|
    ensures Tracks(Expand(queue), visited, expanded + [queue[FirstUnexpanded(queue)].id])
  {
    var i := FirstUnexpanded(queue);
    OrderedIdsDistinct(queue, dist);
    assert forall k :: 0 <= k < |queue| ==> Ids(queue)[k] == queue[k].id;
    NoDupSnoc(expanded, queue[i].id);
  }

  lemma StepKeepsInv(q: Query, s: SearchState)
    requires Inv(q, s) && !Done(s)
    ensures Inv(q, Step(q, s))
  {
    var i := FirstUnexpanded(s.queue);
    var n := s.queue[i].id;
    var found := Unvisited(q, s.visited, q.graph[n]);
    var e := Expand(s.queue);
    var t := Step(q, s);
    UnvisitedMembers(q, s.visited, q.graph[n]);
    ExpandKeepsBest(s.queue, s.visited, q.L, q.dist);
    OfferAllKeepsBest(q, e, s.visited, found);
    ExpandTracks(s.queue, s.visited, s.expanded, q.L, q.dist);
    forall k | 0 <= k < |t.queue| && t.queue[k].expanded
      ensures forall y :: y in q.graph[t.queue[k].id] && y in q.allowed ==> y in t.visited
    {
      assert t.queue[k] in t.queue;
      var j :| 0 <= j < |e| && e[j] == t.queue[k];
      assert j == i || s.queue[j] == e[j];
    }
    forall k | 0 <= k < |t.queue| ensures t.queue[k].expanded <==> t.queue[k].id in t.expanded {
      assert t.queue[k] in t.queue;
    }
  }

  function CountUnexpanded(queue: seq<Neighbor>): nat {
    if queue == [] then 0 else (if queue[0].expanded then 0 else 1) + CountUnexpanded(queue[1..])
  }

  lemma {:induction false} ExpandCounts(queue: seq<Neighbor>)
    requires FirstUnexpanded(queue) < |queue|
    ensures CountUnexpanded(Expand(queue)) == CountUnexpanded(queue) - 1
  {
    var e := Expand(queue);
    if queue[0].expanded {
      ExpandCounts(queue[1..]);
      assert e[1..] == Expand(queue[1..]);
    } else {
      assert e[1..] == queue[1..];
    }
  }

  /** A step visits something new, or leaves one unexpanded entry fewer. */
  lemma StepProgress(q: Query, s: SearchState)
    requires Inv(q, s) && !Done(s)
    ensures s.visited <= Step(q, s).visited
    ensures |s.visited| <= |Step(q, s).visited| <= |q.graph|
    ensures |Step(q, s).visited| == |s.visited| ==>
      Step(q, s).visited == s.visited && CountUnexpanded(Step(q, s).queue) < CountUnexpanded(s.queue)
  {
    var t := Step(q, s);
    StepKeepsInv(q, s);
    BoundedSize(t.visited, |q.graph|);
    SubsetSize(s.visited, t.visited);
    ExpandCounts(s.queue);
    var nbrs := q.graph[s.queue[FirstUnexpanded(s.queue)].id];
    var found := Unvisited(q, s.visited, nbrs);
    UnvisitedMembers(q, s.visited, nbrs);
    assert found != [] ==> found[0] in t.visited && found[0] !in s.visited;
  }

  /** The loop: iterate until every candidate has been expanded. */
  ghost function Run(q: Query, s: SearchState): SearchState
    requires Inv(q, s)
    decreases |q.graph| - |s.visited|, CountUnexpanded(s.queue)
  {
    BoundedSize(s.visited, |q.graph|);
    if Done(s) then s
    else
      StepKeepsInv(q, s);
      StepProgress(q, s);
      Run(q, Step(q, s))
  }

  lemma {:induction false} RunKeepsInv(q: Query, s: SearchState)
    requires Inv(q, s)
    ensures Inv(q, Run(q, s)) && Done(Run(q, s)) && s.visited <= Run(q, s).visited
    decreases |q.graph| - |s.visited|, CountUnexpanded(s.queue)
  {
    BoundedSize(s.visited, |q.graph|);
    if !Done(s) {
      StepKeepsInv(q, s);
      StepProgress(q, s);
      RunKeepsInv(q, Step(q, s));
    }
  }

  // ------------------------------------------------------------------ the fixed point

  lemma StartKeepsInv(q: Query, starts: seq<nat>)
    requires q.Valid() && Below(starts, |q.dist|)
    ensures Inv(q, StartState(q, starts))
    ensures forall x :: x in StartState(q, starts).visited <==> x in starts && x in q.allowed
    ensures StartState(q, starts).expanded == []
  {
    if starts != [] {
      var init := starts[..|starts| - 1];
      var x := starts[|starts| - 1];
      assert starts == init + [x];
      StartKeepsInv(q, init);
      var s := StartState(q, init);
      if x in q.allowed && x !in s.visited {
        OfferKeepsBest(s.queue, s.visited, x, q.L, q.dist);
        OfferEntries(s.queue, Item(q.dist, x), q.L);
        var r := Offer(s.queue, Item(q.dist, x), q.L);
        forall k | 0 <= k < |r| ensures !r[k].expanded {
          assert r[k] in r;
          assert forall j :: 0 <= j < |s.queue| ==> !s.queue[j].expanded;
        }
      }
    }
  }

  ghost function Search(q: Query, starts: seq<nat>): SearchState
    requires q.Valid() && Below(starts, |q.dist|)
  {
    StartKeepsInv(q, starts);
    Run(q, StartState(q, starts))
  }

  /** When the search stops, the queue is the L best visited locations and all their neighbours have been visited. */
  lemma SearchReachesFixedPoint(q: Query, starts: seq<nat>)
    requires q.Valid() && Below(starts, |q.dist|)
    ensures var r := Search(q, starts);
      && HoldsBest(r.queue, r.visited, q.L, q.dist)
      && (forall x :: x in starts && x in q.allowed ==> x in r.visited)
      && (forall x, y :: x in Ids(r.queue) && y in q.graph[x] && y in q.allowed ==> y in r.visited)
      && (forall x :: x in Ids(r.queue) ==> x in r.expanded)
      && NoDup(r.expanded)
  {
    StartKeepsInv(q, starts);
    RunKeepsInv(q, StartState(q, starts));
    var r := Search(q, starts);
    forall x | x in Ids(r.queue)
      ensures x in r.expanded && forall y :: y in q.graph[x] && y in q.allowed ==> y in r.visited {
      var i :| 0 <= i < |r.queue| && Ids(r.queue)[i] == x;
      assert r.queue[i].expanded;
    }
  }

  // ------------------------------------------------------------------ reachability

  /** A path of edges that begins at a start. */
  ghost predicate Path(g: Graph, starts: set<nat>, w: seq<nat>) {
    && w != [] && w[0] in starts
    && forall i {:trigger Hop(g, w, i)} :: 0 <= i < |w| - 1 ==> Hop(g, w, i)
  }

  ghost predicate Hop(g: Graph, w: seq<nat>, i: nat)
    requires i < |w| - 1
  {
    w[i] < |g| && w[i + 1] in g[w[i]]
  }

  lemma PathInit(g: Graph, starts: set<nat>, w: seq<nat>)
    requires Path(g, starts, w) && |w| > 1
    ensures Path(g, starts, w[..|w| - 1]) && w[|w| - 2] < |g| && w[|w| - 1] in g[w[|w| - 2]]
  {
    assert Hop(g, w, |w| - 2);
    var init := w[..|w| - 1];
    forall i | 0 <= i < |init| - 1 ensures Hop(g, init, i) { assert Hop(g, w, i); }
  }

  lemma PathSnoc(g: Graph, starts: set<nat>, w: seq<nat>, x: nat)
    requires Path(g, starts, w) && w[|w| - 1] < |g| && x in g[w[|w| - 1]]
    ensures Path(g, starts, w + [x])
  {
    forall i | 0 <= i < |w| ensures Hop(g, w + [x], i) { assert i < |w| - 1 ==> Hop(g, w, i); }
  }

  /** A path over locations that pass the filter. */
  ghost predicate Walk(q: Query, starts: seq<nat>, w: seq<nat>) {
    Path(q.graph, Elems(starts), w) && forall i :: 0 <= i < |w| ==> w[i] < |q.graph| && w[i] in q.allowed
  }

  ghost predicate Reachable(q: Query, starts: seq<nat>, x: nat) {
    exists w :: Walk(q, starts, w) && w[|w| - 1] == x
  }

  ghost function Reach(q: Query, starts: seq<nat>): (r: set<nat>)
    ensures forall x: nat :: x in r <==> x < |q.graph| && Reachable(q, starts, x)
  {
    set x | x in Interval(0, |q.graph|) && Reachable(q, starts, x)
  }

  lemma ReachExtends(q: Query, starts: seq<nat>, x: nat, y: nat)
    requires q.Valid() && x in Reach(q, starts) && y in q.graph[x] && y in q.allowed
    ensures y in Reach(q, starts)
  {
    var w :| Walk(q, starts, w) && w[|w| - 1] == x;
    PathSnoc(q.graph, Elems(starts), w, y);
    assert Walk(q, starts, w + [y]);
  }

  /** The search visits reachable locations only. */
  lemma {:induction false} RunStaysReachable(q: Query, starts: seq<nat>, s: SearchState)
    requires Inv(q, s) && s.visited <= Reach(q, starts)
    ensures Run(q, s).visited <= Reach(q, starts)
    ensures forall x :: x in Run(q, s).expanded ==> x in s.expanded || x in Reach(q, starts)
    decreases |q.graph| - |s.visited|, CountUnexpanded(s.queue)
  {
    BoundedSize(s.visited, |q.graph|);
    if !Done(s) {
      StepKeepsInv(q, s);
      StepProgress(q, s);
      var n := s.queue[FirstUnexpanded(s.queue)].id;
      UnvisitedMembers(q, s.visited, q.graph[n]);
      forall y | y in Unvisited(q, s.visited, q.graph[n]) ensures y in Reach(q, starts) {
        ReachExtends(q, starts, n, y);
      }
      RunStaysReachable(q, starts, Step(q, s));
    }
  }

  /** A set that holds the starts and is closed under edges holds everything on a walk. */
  lemma {:induction false} ClosedHoldsWalk(q: Query, starts: seq<nat>, closed: set<nat>, w: seq<nat>)
    requires Walk(q, starts, w)
    requires forall x :: x in starts && x in q.allowed ==> x in closed
    requires forall x, y :: x in closed && x < |q.graph| && y in q.graph[x] && y in q.allowed ==> y in closed
    ensures w[|w| - 1] in closed
  {
    if |w| > 1 {
      var v := w[..|w| - 1];
      PathInit(q.graph, Elems(starts), w);
      assert Walk(q, starts, v);
      ClosedHoldsWalk(q, starts, closed, v);
    }
  }

  lemma QueueHoldsAll(queue: seq<Neighbor>, offered: set<nat>, capacity: nat, dist: seq<real>)
    requires HoldsBest(queue, offered, capacity, dist) && |offered| <= capacity
    ensures Elems(Ids(queue)) == offered
  {
    OrderedIdsDistinct(queue, dist);
    ElemsSize(Ids(queue));
    forall x | x in Ids(queue) ensures x in offered {
      var i :| 0 <= i < |queue| && Ids(queue)[i] == x;
      assert queue[i].id in offered;
    }
    SubsetSize(Elems(Ids(queue)), offered);
    forall x | x in offered ensures x in Ids(queue) {
      assert x !in Ids(queue) ==> |queue| == capacity;
    }
  }

  /** With a list at least as long as the reachable set, the search is exhaustive. */
  lemma LargeListIsExhaustive(q: Query, starts: seq<nat>)
    requires q.Valid() && Below(starts, |q.dist|) && |Reach(q, starts)| <= q.L
    ensures Search(q, starts).visited == Reach(q, starts)
    ensures Elems(Ids(Search(q, starts).queue)) == Reach(q, starts)
  {
    var s := StartState(q, starts);
    var r := Search(q, starts);
    StartKeepsInv(q, starts);
    forall x | x in s.visited ensures x in Reach(q, starts) { assert Walk(q, starts, [x]); }
    RunStaysReachable(q, starts, s);
    SearchReachesFixedPoint(q, starts);
    SubsetSize(r.visited, Reach(q, starts));
    QueueHoldsAll(r.queue, r.visited, q.L, q.dist);
    forall x | x in Reach(q, starts) ensures x in r.visited {
      var w :| Walk(q, starts, w) && w[|w| - 1] == x;
      ClosedHoldsWalk(q, starts, r.visited, w);
    }
  }

  // ------------------------------------------------------------------ the search as it runs

  /** The candidates handed to pruning: the expanded locations in the order of their expansion. */
  function PoolOf(q: Query, expanded: seq<nat>): seq<Neighbor>
    requires Below(expanded, |q.dist|)
  {
    seq(|expanded|, i requires 0 <= i < |expanded| => Neighbor(expanded[i], q.dist[expanded[i]], true))
  }

  lemma ExpandedBelow(q: Query, s: SearchState)
    requires Inv(q, s)
    ensures Below(s.expanded, |q.dist|)
  {
    forall i | 0 <= i < |s.expanded| ensures s.expanded[i] < |q.dist| { assert s.expanded[i] in s.visited; }
  }

  /** Offers a batch of locations to the queue. */
  method OfferBatch(q: Query, best: NeighborPriorityQueue, ids: seq<nat>, ghost visited: set<nat>)
    requires q.Valid() && best.Valid() && best.capacity == q.L && Below(ids, |q.dist|)
    requires HoldsBest(best.Contents(), visited, q.L, q.dist)
    modifies best`size, best`cur, best`data
    ensures best.Valid() && best.Contents() == OfferAll(q, old(best.Contents()), ids)
  {
    ghost var was := best.Contents();
    for m := 0 to |ids|
      invariant best.Valid() && best.Contents() == OfferAll(q, was, ids[..m])
    {
      OfferAllKeepsBest(q, was, visited, ids[..m]);
      assert ids[..m + 1][..m] == ids[..m];
      best.Insert(Item(q.dist, ids[m]));
    }
    assert ids[..|ids|] == ids;
  }

  /** The neighbours of an expanded location that are worth visiting. */
  method CollectUnvisited(q: Query, visited: set<nat>, nbrs: seq<nat>) returns (idScratch: seq<nat>)
    ensures idScratch == Unvisited(q, visited, nbrs)
  {
    idScratch := [];
    for k := 0 to |nbrs|
      invariant idScratch == Unvisited(q, visited, nbrs[..k])
    {
      assert nbrs[..k + 1][..k] == nbrs[..k];
      if nbrs[k] in q.allowed && nbrs[k] !in visited {
        idScratch := idScratch + [nbrs[k]];
      }
    }
    assert nbrs[..|nbrs|] == nbrs;
  }

  /** Offers the starting locations; a location outside the graph is an error. */
  method OfferStarts(q: Query, initIds: seq<nat>, best: NeighborPriorityQueue) returns (ok: bool, visited: set<nat>)
    requires q.Valid() && best.Valid() && best.capacity == q.L && best.Contents() == []
    modifies best`size, best`cur, best`data
    ensures best.Valid()
    ensures ok <==> Below(initIds, |q.graph|)
    ensures ok ==> best.Contents() == StartState(q, initIds).queue && visited == StartState(q, initIds).visited
  {
    visited := {};
    for k := 0 to |initIds|
      invariant best.Valid() && Below(initIds[..k], |q.graph|)
      invariant best.Contents() == StartState(q, initIds[..k]).queue && visited == StartState(q, initIds[..k]).visited
    {
      var id := initIds[k];
      if id >= |q.graph| {
        return false, visited;
      }
      StartKeepsInv(q, initIds[..k]);
      assert initIds[..k + 1][..k] == initIds[..k];
      if id in q.allowed && id !in visited {
        visited := visited + {id};
        best.Insert(Item(q.dist, id));
      }
    }
    assert initIds[..|initIds|] == initIds;
    return true, visited;
  }

  /** t is a state from which the search ends as from s, and closer to that end. */
  ghost predicate Continues(q: Query, s: SearchState, t: SearchState)
    requires Inv(q, s)
  {
    && Inv(q, t) && Below(t.expanded, |q.dist|)
    && Run(q, t) == Run(q, s)
    && (|s.visited| < |t.visited| <= |q.graph|
        || (|s.visited| == |t.visited| && CountUnexpanded(t.queue) < CountUnexpanded(s.queue)))
  }

  lemma StepContinues(q: Query, s: SearchState)
    requires Inv(q, s) && !Done(s)
    ensures Continues(q, s, Step(q, s))
  {
    StepKeepsInv(q, s);
    StepProgress(q, s);
    ExpandedBelow(q, Step(q, s));
  }

  /** One iteration of the loop. */
  method ExpandClosest(q: Query, visited: set<nat>, best: NeighborPriorityQueue, ghost s: SearchState)
    returns (nbr: Neighbor, visited': set<nat>)
    requires Inv(q, s) && !Done(s) && visited == s.visited
    requires best.Valid() && best.capacity == q.L && best.Contents() == s.queue
    modifies best`size, best`cur, best`data
    ensures best.Valid() && best.Contents() == Step(q, s).queue && visited' == Step(q, s).visited
    ensures nbr.id < |q.dist| && nbr == Neighbor(nbr.id, q.dist[nbr.id], true)
    ensures Step(q, s).expanded == s.expanded + [nbr.id]
    ensures Continues(q, s, Step(q, s))
  {
    StepContinues(q, s);
    ExpandKeepsBest(s.queue, s.visited, q.L, q.dist);
    nbr := best.ClosestUnexpanded();
    assert nbr.id == s.queue[FirstUnexpanded(s.queue)].id;
    var idScratch := CollectUnvisited(q, visited, q.graph[nbr.id]);
    UnvisitedMembers(q, visited, q.graph[nbr.id]);
    OfferBatch(q, best, idScratch, visited);
    visited' := visited + Elems(idScratch);
  }

  lemma PoolGrows(q: Query, was: seq<nat>, nbr: Neighbor)
    requires Below(was, |q.dist|) && nbr.id < |q.dist| && nbr == Neighbor(nbr.id, q.dist[nbr.id], true)
    ensures PoolOf(q, was + [nbr.id]) == PoolOf(q, was) + [nbr]
  {
  }

  /** The loop itself, from any state that satisfies the invariant. */
  method ExpandAll(q: Query, start: set<nat>, searchInvocation: bool, best: NeighborPriorityQueue,
                   ghost s0: SearchState)
    returns (pool: seq<Neighbor>)
    requires Inv(q, s0) && s0.expanded == [] && s0.visited == start
    requires best.Valid() && best.capacity == q.L && best.Contents() == s0.queue
    modifies best`size, best`cur, best`data
    ensures best.Valid() && best.Contents() == Run(q, s0).queue
    ensures Below(Run(q, s0).expanded, |q.dist|)
    ensures pool == if searchInvocation then [] else PoolOf(q, Run(q, s0).expanded)
  {
    pool := [];
    var visited := start;
    ghost var s := s0;
    while best.HasUnexpandedNode()
      invariant best.Valid() && best.capacity == q.L && best.Contents() == s.queue
      invariant Inv(q, s) && Run(q, s) == Run(q, s0) && s.visited == visited
      invariant Below(s.expanded, |q.dist|)
      invariant pool == if searchInvocation then [] else PoolOf(q, s.expanded)
      decreases |q.graph| - |s.visited|, CountUnexpanded(s.queue)
    {
      ghost var was := s.expanded;
      var nbr;
      nbr, visited := ExpandClosest(q, visited, best, s);
      s := Step(q, s);
      if !searchInvocation {
        pool := pool + [nbr];
        PoolGrows(q, was, nbr);
      }
    }
  }

  method IterateToFixedPoint(q: Query, initIds: seq<nat>, searchInvocation: bool, best: NeighborPriorityQueue)
    returns (ok: bool, pool: seq<Neighbor>)
    requires q.Valid() && best.Valid() && best.Contents() == []
    modifies best
    ensures best.Valid()
    ensures ok <==> Below(initIds, |q.graph|)
    ensures ok ==> best.Contents() == Search(q, initIds).queue
    ensures ok ==> Below(Search(q, initIds).expanded, |q.dist|)
    ensures ok ==> pool == if searchInvocation then [] else PoolOf(q, Search(q, initIds).expanded)
  {
    best.Reserve(q.L);
    pool := [];
    var visited;
    ok, visited := OfferStarts(q, initIds, best);
    if ok {
      StartKeepsInv(q, initIds);
      pool := ExpandAll(q, visited, searchInvocation, best, StartState(q, initIds));
    }
  }
}
