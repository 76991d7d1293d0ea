/** Linking a point into the graph: reverse edges, the slack above the degree, and the final cleanup. */
module Linking {
  import opened Collections
  import opened NeighborQueue
  import opened GraphSearch
  import opened Occlusion
  import opened Pruning

  /** Degree bound, candidate bound, alpha and saturation of the index. */
  datatype WriteParams = WriteParams(range: nat, maxc: nat, alpha: real, saturate: bool)

  /** Reverse edges are added without pruning up to this many neighbours. */
  function SlackDegree(range: nat): (d: nat)
    ensures range <= d && 10 * d <= 13 * range < 10 * d + 10
  {
    (1.3 * range as real).Floor
  }

  /** The distinct candidates of a list, with their distances to the node. */
  method BuildPool(node: nat, nbrs: seq<nat>, D: Metric) returns (pool: seq<Neighbor>)
    ensures NoDup(Ids(pool)) && MeasuredFrom(node, pool, D)
    ensures Elems(Ids(pool)) == Elems(nbrs) - {node}
  {
    pool := [];
    var visited: set<nat> := {};
    for k := 0 to |nbrs|
      invariant visited == Elems(Ids(pool)) == Elems(nbrs[..k]) - {node}
      invariant NoDup(Ids(pool)) && MeasuredFrom(node, pool, D)
    {
      var cur := nbrs[k];
      assert nbrs[..k + 1] == nbrs[..k] + [cur];
      if cur !in visited && cur != node {
        NoDupSnoc(Ids(pool), cur);
        IdsSnoc(pool, Neighbor(cur, D(node, cur), false));
        pool := pool + [Neighbor(cur, D(node, cur), false)];
        visited := visited + {cur};
      }
    }
    assert nbrs[..|nbrs|] == nbrs;
  }

  /** What one reverse edge does to the list of des. */
  ghost predicate LinkedTo(des: nat, was: seq<nat>, n: nat, p: WriteParams, D: Metric, now: seq<nat>) {
    if n in was then now == was
    else if |was| < SlackDegree(p.range) then now == was + [n]
    else IsPruneResult(des, Elems(was) + {n} - {des}, p.range, p.maxc, p.alpha, p.saturate, D, now)
  }

  method AddReverseEdge(des: nat, was: seq<nat>, n: nat, p: WriteParams, D: Metric) returns (now: seq<nat>)
    ensures LinkedTo(des, was, n, p, D, now)
  {
    if n in was {
      return was;
    }
    if |was| < SlackDegree(p.range) {
      return was + [n];
    }
    var pool := BuildPool(des, was + [n], D);
    assert Elems(was + [n]) == Elems(was) + {n};
    now := PruneNeighbors(des, pool, p.range, p.maxc, p.alpha, p.saturate, D);
  }

  /** inter_insert: every neighbour of n gets an edge back. */
  method InterInsert(graph0: Graph, n: nat, list: seq<nat>, p: WriteParams, D: Metric) returns (graph: Graph)
    requires Below(list, |graph0|) && NoDup(list)
    ensures |graph| == |graph0|
    ensures forall x :: 0 <= x < |graph| && x !in list ==> graph[x] == graph0[x]
    ensures forall x :: 0 <= x < |graph| && x in list ==> LinkedTo(x, graph0[x], n, p, D, graph[x])
    ensures forall x :: 0 <= x < |graph| && x in list ==>
      && (n in graph0[x] ==> graph[x] == graph0[x])
      && (n !in graph0[x] && 10 * (|graph0[x]| + 1) <= 13 * p.range ==> graph[x] == graph0[x] + [n])
      && (n !in graph0[x] && 10 * (|graph0[x]| + 1) > 13 * p.range ==>
            |graph[x]| <= p.range && NoDup(graph[x]) && x !in graph[x]
            && forall y :: y in graph[x] ==> y in graph0[x] || y == n)
  {
    graph := graph0;
    for k := 0 to |list|
      invariant |graph| == |graph0|
      invariant forall x :: 0 <= x < |graph| && x !in list[..k] ==> graph[x] == graph0[x]
      invariant forall x :: 0 <= x < |graph| && x in list[..k] ==> LinkedTo(x, graph0[x], n, p, D, graph[x])
    {
      assert list[..k + 1] == list[..k] + [list[k]];
      var now := AddReverseEdge(list[k], graph[list[k]], n, p, D);
      graph := graph[list[k] := now];
    }
    assert list[..|list|] == list;
  }

  /** What the final pass makes of a list. */
  ghost predicate CleanedUp(x: nat, was: seq<nat>, p: WriteParams, D: Metric, now: seq<nat>) {
    if |was| <= p.range then now == was
    else IsPruneResult(x, Elems(was) - {x}, p.range, p.maxc, p.alpha, p.saturate, D, now)
  }

  /** link's final pass: every list above the degree is pruned. */
  method Cleanup(graph0: Graph, p: WriteParams, D: Metric) returns (graph: Graph)
    ensures |graph| == |graph0|
    ensures forall x :: 0 <= x < |graph| ==> |graph[x]| <= p.range && CleanedUp(x, graph0[x], p, D, graph[x])
    ensures forall x :: 0 <= x < |graph| ==>
      && (|graph0[x]| <= p.range ==> graph[x] == graph0[x])
      && (|graph0[x]| > p.range ==> NoDup(graph[x]) && x !in graph[x] && forall y :: y in graph[x] ==> y in graph0[x])
  {
    graph := graph0;
    for node := 0 to |graph0|
      invariant |graph| == |graph0|
      invariant forall x :: node <= x < |graph| ==> graph[x] == graph0[x]
      invariant forall x :: 0 <= x < node ==> |graph[x]| <= p.range && CleanedUp(x, graph0[x], p, D, graph[x])
    {
      if |graph[node]| > p.range {
        var pool := BuildPool(node, graph[node], D);
        var list := PruneNeighbors(node, pool, p.range, p.maxc, p.alpha, p.saturate, D);
        graph := graph[node := list];
      }
    }
  }

  // ------------------------------------------------------------------ concurrent linking

  /** A reverse edge that did not fit: the captured list, to be pruned outside the lock. */
  datatype PruneTask = PruneTask(des: nat, copy: seq<nat>)

  /** The graph, where searches start, the nodes that are part of the graph, what each thread's search has found so far,
      and the prune task each thread is working on. */
  datatype LinkState = LinkState(graph: Graph, starts: set<nat>, linked: set<nat>, found: map<nat, set<nat>>,
                                 pending: map<nat, PruneTask>)

  /** The steps that hold a node's lock; a search reads one list at a time, at any time. */
  datatype LinkStep =
    | Begin(thread: nat)
    | Visit(thread: nat, x: nat)
    | SetOwn(thread: nat, n: nat, list: seq<nat>)
    | AddEdge(thread: nat, des: nat, n: nat)
    | Commit(thread: nat, list: seq<nat>)

  /** A node's own list is pruned from what the thread's search has found; a commit prunes what was captured. */
  ghost predicate Enabled(s: LinkState, e: LinkStep, range: nat) {
    match e
    case Begin(thread) => true
    case Visit(thread, x) => thread in s.found && x in s.found[thread]
    case SetOwn(thread, n, list) =>
      thread in s.found && n < |s.graph| && ListShape(n, s.found[thread], range, list)
    case AddEdge(thread, des, n) => des in s.linked && n in s.linked && des != n && thread !in s.pending
    case Commit(thread, list) =>
      thread in s.pending && ListShape(s.pending[thread].des, Elems(s.pending[thread].copy), range, list)
  }

  ghost function Apply(s: LinkState, e: LinkStep, range: nat): LinkState {
    match e
    case Begin(thread) => s.(found := s.found[thread := s.starts])
    case Visit(thread, x) =>
      if thread in s.found && x < |s.graph| then
        s.(found := s.found[thread := s.found[thread] + Elems(s.graph[x])])
      else s
    case SetOwn(thread, n, list) =>
      if n < |s.graph| then
        s.(graph := s.graph[n := list], linked := s.linked + {n}, found := s.found - {thread})
      else s
    case AddEdge(thread, des, n) =>
      if des >= |s.graph| || n in s.graph[des] then s
      else if |s.graph[des]| < SlackDegree(range) then s.(graph := s.graph[des := s.graph[des] + [n]])
      else s.(pending := s.pending[thread := PruneTask(des, s.graph[des] + [n])])
    case Commit(thread, list) =>
      if thread in s.pending && s.pending[thread].des < |s.graph| then
        s.(graph := s.graph[s.pending[thread].des := list], pending := s.pending - {thread})
      else s
  }

  ghost predicate NodeOk(x: nat, list: seq<nat>, linked: set<nat>, range: nat) {
    ListShape(x, linked, SlackDegree(range), list)
  }

  /** Every list of a linked node is duplicate-free, has no self-loop, stays among the linked nodes and within the
      slack; searches find linked nodes only, and what is to be pruned consists of them. */
  ghost predicate LinkInv(s: LinkState, range: nat) {
    && (forall x :: x in s.linked ==> x < |s.graph| && NodeOk(x, s.graph[x], s.linked, range))
    && s.starts <= s.linked && (forall t :: t in s.found ==> s.found[t] <= s.linked)
    && (forall t :: t in s.pending ==>
          s.pending[t].des in s.linked && forall x :: x in s.pending[t].copy ==> x in s.linked)
  }

  lemma SearchKeepsInv(s: LinkState, e: LinkStep, range: nat)
    requires LinkInv(s, range) && Enabled(s, e, range) && (e.Begin? || e.Visit?)
    ensures LinkInv(Apply(s, e, range), range)
  {
    if e.Visit? { assert NodeOk(e.x, s.graph[e.x], s.linked, range); }
  }

  lemma SetOwnKeepsInv(s: LinkState, thread: nat, n: nat, list: seq<nat>, range: nat)
    requires LinkInv(s, range) && Enabled(s, SetOwn(thread, n, list), range)
    ensures LinkInv(Apply(s, SetOwn(thread, n, list), range), range)
  {
    var t := Apply(s, SetOwn(thread, n, list), range);
    forall x | x in t.linked ensures x < |t.graph| && NodeOk(x, t.graph[x], t.linked, range) {
      if x != n { assert NodeOk(x, s.graph[x], s.linked, range); }
    }
  }

  lemma AddEdgeKeepsInv(s: LinkState, thread: nat, des: nat, n: nat, range: nat)
    requires LinkInv(s, range) && Enabled(s, AddEdge(thread, des, n), range)
    ensures LinkInv(Apply(s, AddEdge(thread, des, n), range), range)
  {
    var t := Apply(s, AddEdge(thread, des, n), range);
    assert NodeOk(des, s.graph[des], s.linked, range);
    NoDupSnoc(s.graph[des], n);
    forall x | x in t.linked ensures NodeOk(x, t.graph[x], t.linked, range) {
      assert NodeOk(x, s.graph[x], s.linked, range);
    }
  }

  lemma CommitKeepsInv(s: LinkState, thread: nat, list: seq<nat>, range: nat)
    requires LinkInv(s, range) && Enabled(s, Commit(thread, list), range)
    ensures LinkInv(Apply(s, Commit(thread, list), range), range)
  {
    var t := Apply(s, Commit(thread, list), range);
    forall x | x in t.linked ensures NodeOk(x, t.graph[x], t.linked, range) {
      assert NodeOk(x, s.graph[x], s.linked, range);
    }
  }

  lemma ApplyKeepsInv(s: LinkState, e: LinkStep, range: nat)
    requires LinkInv(s, range) && Enabled(s, e, range)
    ensures LinkInv(Apply(s, e, range), range)
  {
    match e
    case Begin(thread) => SearchKeepsInv(s, e, range);
    case Visit(thread, x) => SearchKeepsInv(s, e, range);
    case SetOwn(thread, n, list) => SetOwnKeepsInv(s, thread, n, list, range);
    case AddEdge(thread, des, n) => AddEdgeKeepsInv(s, thread, des, n, range);
    case Commit(thread, list) => CommitKeepsInv(s, thread, list, range);
  }

  ghost predicate StepAt(trace: seq<LinkState>, steps: seq<LinkStep>, i: nat, range: nat)
    requires i < |steps| < |trace|
  {
    Enabled(trace[i], steps[i], range) && trace[i + 1] == Apply(trace[i], steps[i], range)
  }

  /** Any interleaving of any number of threads' steps. */
  ghost predicate Interleaving(trace: seq<LinkState>, steps: seq<LinkStep>, range: nat) {
    |trace| == |steps| + 1 && forall i :: 0 <= i < |steps| ==> StepAt(trace, steps, i, range)
  }

  lemma {:induction false} LinkingKeepsShape(trace: seq<LinkState>, steps: seq<LinkStep>, range: nat, i: nat)
    requires Interleaving(trace, steps, range) && LinkInv(trace[0], range) && i < |trace|
    ensures LinkInv(trace[i], range)
    ensures forall x :: x in trace[i].linked ==>
      && x < |trace[i].graph| && NoDup(trace[i].graph[x]) && x !in trace[i].graph[x]
      && 10 * |trace[i].graph[x]| <= 13 * range && forall y :: y in trace[i].graph[x] ==> y in trace[i].linked
  {
    if i > 0 {
      LinkingKeepsShape(trace, steps, range, i - 1);
      assert StepAt(trace, steps, i - 1, range);
      ApplyKeepsInv(trace[i - 1], steps[i - 1], range);
    }
  }

  /** Before link: lists are empty, and only the nodes every search starts from can be found. */
  ghost predicate Initial(s: LinkState, starts: set<nat>) {
    (forall x :: 0 <= x < |s.graph| ==> s.graph[x] == []) && s.linked == s.starts == starts
    && s.found == map[] && s.pending == map[]
    && forall x :: x in starts ==> x < |s.graph|
  }

  lemma InitialInv(s: LinkState, starts: set<nat>, range: nat)
    requires Initial(s, starts)
    ensures LinkInv(s, range)
  {
    forall x | x in s.linked ensures NodeOk(x, s.graph[x], s.linked, range) { assert s.graph[x] == []; }
  }

  /** The nodes that can be found are the starts and those whose own list was set. */
  lemma {:induction false} LinkedAre(trace: seq<LinkState>, steps: seq<LinkStep>, starts: set<nat>, range: nat, i: nat)
    requires Interleaving(trace, steps, range) && Initial(trace[0], starts) && i < |trace|
    ensures forall n :: n in trace[i].linked <==>
      n in starts || exists k :: 0 <= k < i && steps[k].SetOwn? && steps[k].n == n
  {
    if i > 0 {
      LinkedAre(trace, steps, starts, range, i - 1);
      assert StepAt(trace, steps, i - 1, range);
    }
  }

  /** link as a whole: however the threads' steps are interleaved, after the final pass every list is duplicate-free,
      has no self-loop, names linked nodes only and respects the degree. */
  lemma LinkThenCleanup(trace: seq<LinkState>, steps: seq<LinkStep>, starts: set<nat>, p: WriteParams, D: Metric,
                        graph: Graph)
    requires Interleaving(trace, steps, p.range) && Initial(trace[0], starts)
    requires var end := trace[|trace| - 1].graph;
      |graph| == |end| && forall x :: 0 <= x < |graph| ==> CleanedUp(x, end[x], p, D, graph[x])
    ensures forall x :: x in trace[|trace| - 1].linked ==>
      x < |graph| && ListShape(x, trace[|trace| - 1].linked, p.range, graph[x])
  {
    var end := trace[|trace| - 1];
    InitialInv(trace[0], starts, p.range);
    LinkingKeepsShape(trace, steps, p.range, |trace| - 1);
    forall x | x in end.linked ensures x < |graph| && ListShape(x, end.linked, p.range, graph[x]) {
      assert NodeOk(x, end.graph[x], end.linked, p.range);
      assert CleanedUp(x, end.graph[x], p, D, graph[x]);
      assert forall y :: y in graph[x] ==> y in end.graph[x] || y in Elems(end.graph[x]) - {x};
    }
  }

  /** A sequential reverse edge is a run of the protocol: one step, or the step that captures and the one that
      commits. */
  lemma ReverseEdgeIsARun(s: LinkState, thread: nat, des: nat, n: nat, p: WriteParams, D: Metric, now: seq<nat>)
    returns (trace: seq<LinkState>, steps: seq<LinkStep>)
    requires LinkInv(s, p.range) && Enabled(s, AddEdge(thread, des, n), p.range)
    requires LinkedTo(des, s.graph[des], n, p, D, now)
    ensures Interleaving(trace, steps, p.range) && trace[0] == s
    ensures trace[|trace| - 1] == s.(graph := s.graph[des := now])
    ensures forall i :: 0 <= i < |steps| ==>
      steps[i] == AddEdge(thread, des, n) || (steps[i].Commit? && steps[i].thread == thread)
  {
    if n in s.graph[des] || |s.graph[des]| < SlackDegree(p.range) {
      trace, steps := [s, Apply(s, AddEdge(thread, des, n), p.range)], [AddEdge(thread, des, n)];
      assert StepAt(trace, steps, 0, p.range);
      assert s.graph[des := s.graph[des]] == s.graph;
    } else {
      CaptureThenCommit(s, thread, des, n, p, D, now);
      trace, steps := TwoSteps(s, AddEdge(thread, des, n), Commit(thread, now), p.range);
    }
  }

  lemma CaptureThenCommit(s: LinkState, thread: nat, des: nat, n: nat, p: WriteParams, D: Metric, now: seq<nat>)
    requires LinkInv(s, p.range) && Enabled(s, AddEdge(thread, des, n), p.range)
    requires n !in s.graph[des] && |s.graph[des]| >= SlackDegree(p.range) && LinkedTo(des, s.graph[des], n, p, D, now)
    ensures var mid := Apply(s, AddEdge(thread, des, n), p.range);
      && Enabled(mid, Commit(thread, now), p.range)
      && Apply(mid, Commit(thread, now), p.range) == s.(graph := s.graph[des := now])
  {
    assert Elems(s.graph[des] + [n]) == Elems(s.graph[des]) + {n};
    assert s.pending[thread := PruneTask(des, s.graph[des] + [n])] - {thread} == s.pending;
  }

  lemma TwoSteps(s: LinkState, a: LinkStep, b: LinkStep, range: nat)
    returns (trace: seq<LinkState>, steps: seq<LinkStep>)
    requires Enabled(s, a, range) && Enabled(Apply(s, a, range), b, range)
    ensures steps == [a, b] && trace == [s, Apply(s, a, range), Apply(Apply(s, a, range), b, range)]
    ensures Interleaving(trace, steps, range)
  {
    steps, trace := [a, b], [s, Apply(s, a, range), Apply(Apply(s, a, range), b, range)];
    assert StepAt(trace, steps, 0, range) && StepAt(trace, steps, 1, range);
  }

  lemma Appended(trace: seq<LinkState>, steps: seq<LinkStep>, e: LinkStep, range: nat)
    requires Interleaving(trace, steps, range) && Enabled(trace[|trace| - 1], e, range)
    ensures Interleaving(trace + [Apply(trace[|trace| - 1], e, range)], steps + [e], range)
  {
    var more, next := trace + [Apply(trace[|trace| - 1], e, range)], steps + [e];
    forall i | 0 <= i < |next| ensures StepAt(more, next, i, range) {
      if i < |steps| { assert StepAt(trace, steps, i, range); }
    }
  }

  /** One iteration of a search is one step of the protocol. */
  lemma IterationIsAVisit(q: Query, t: SearchState, s: LinkState, thread: nat, n: nat, range: nat)
    requires Inv(q, t) && !Done(t) && n == t.queue[FirstUnexpanded(t.queue)].id
    requires s.graph == q.graph && thread in s.found && t.visited <= s.found[thread]
    ensures Enabled(s, Visit(thread, n), range)
    ensures var s1 := Apply(s, Visit(thread, n), range);
      SearchedOn(s, s1, thread) && Step(q, t).visited <= s1.found[thread]
  {
    UnvisitedMembers(q, t.visited, q.graph[n]);
  }

  /** Only what the thread has found may differ. */
  ghost predicate SearchedOn(s: LinkState, t: LinkState, thread: nat) {
    thread in s.found && thread in t.found && t == s.(found := s.found[thread := t.found[thread]])
  }

  /** Steps of one thread's search. */
  ghost predicate SearchSteps(steps: seq<LinkStep>, thread: nat) {
    forall i :: 0 <= i < |steps| ==> steps[i] == Begin(thread) || (steps[i].Visit? && steps[i].thread == thread)
  }

  lemma OneMoreVisit(steps: seq<LinkStep>, thread: nat, x: nat)
    ensures SearchSteps(steps, thread) ==> SearchSteps(steps + [Visit(thread, x)], thread)
  {
  }

  /** A search that nobody disturbs is a run of the protocol: what it visits is found by reading the lists it
      expands. */
  lemma {:induction false} SearchIsARun(q: Query, t: SearchState, thread: nat, range: nat, trace0: seq<LinkState>,
                                        steps0: seq<LinkStep>)
    returns (trace: seq<LinkState>, steps: seq<LinkStep>)
    requires Inv(q, t) && Interleaving(trace0, steps0, range)
    requires var s := trace0[|trace0| - 1]; s.graph == q.graph && thread in s.found && t.visited <= s.found[thread]
    ensures Interleaving(trace, steps, range) && trace[0] == trace0[0]
    ensures var end := trace[|trace| - 1];
      SearchedOn(trace0[|trace0| - 1], end, thread) && Run(q, t).visited <= end.found[thread]
    ensures SearchSteps(steps0, thread) ==> SearchSteps(steps, thread)
    decreases |q.graph| - |t.visited|, CountUnexpanded(t.queue)
  {
    BoundedSize(t.visited, |q.graph|);
    var s := trace0[|trace0| - 1];
    if Done(t) {
      trace, steps := trace0, steps0;
      assert s.found[thread := s.found[thread]] == s.found;
    } else {
      var n := t.queue[FirstUnexpanded(t.queue)].id;
      var s1 := Apply(s, Visit(thread, n), range);
      IterationIsAVisit(q, t, s, thread, n, range);
      StepKeepsInv(q, t);
      StepProgress(q, t);
      Appended(trace0, steps0, Visit(thread, n), range);
      OneMoreVisit(steps0, thread, n);
      trace, steps := SearchIsARun(q, Step(q, t), thread, range, trace0 + [s1], steps0 + [Visit(thread, n)]);
      SearchedOnTwice(s, s1, trace[|trace| - 1], thread);
    }
  }

  lemma SearchedOnTwice(s: LinkState, t: LinkState, u: LinkState, thread: nat)
    requires SearchedOn(s, t, thread) && SearchedOn(t, u, thread)
    ensures SearchedOn(s, u, thread)
  {
    assert s.found[thread := t.found[thread]][thread := u.found[thread]] == s.found[thread := u.found[thread]];
  }
}
