/** Rewiring the graph around deleted nodes. */
module Consolidation {
  import opened Collections
  import opened NeighborQueue
  import opened GraphSearch
  import opened Occlusion
  import opened Pruning
  import opened Linking

  /** The candidates for a node's new list: its live neighbours and the live neighbours of its deleted neighbours. */
  ghost function Replacements(graph: Graph, deleted: set<nat>, loc: nat): set<nat>
    requires InRange(graph) && loc < |graph|
  {
    (set ngh | ngh in graph[loc] && ngh !in deleted) +
    (set ngh, j | ngh in graph[loc] && ngh in deleted && j in graph[ngh] && j != loc && j !in deleted :: j)
  }

  ghost predicate TouchesDeleted(graph: Graph, deleted: set<nat>, loc: nat)
    requires loc < |graph|
  {
    exists ngh :: ngh in graph[loc] && ngh in deleted
  }

  /** What consolidation makes of the list of loc. */
  ghost predicate Rewired(graph: Graph, deleted: set<nat>, loc: nat, p: WriteParams, D: Metric, list: seq<nat>)
    requires InRange(graph) && loc < |graph|
  {
    var ids := Replacements(graph, deleted, loc);
    if !TouchesDeleted(graph, deleted, loc) then list == graph[loc]
    else if |ids| <= p.range then NoDup(list) && Elems(list) == ids
    else exists sorted, chosen, rounds ::
           && Sorted(sorted) && NoDup(Ids(sorted)) && Elems(Ids(sorted)) == ids && MeasuredFrom(loc, sorted, D)
           && IsPruning(Truncated(sorted, p.maxc), D, p.alpha, p.range, loc, deleted, chosen, rounds)
           && list == KeptIds(Truncated(sorted, p.maxc), chosen, loc, deleted)
  }

  /** The loop that collects the candidates. */
  method CollectReplacements(graph: Graph, deleted: set<nat>, loc: nat) returns (expanded: set<nat>, rewire: bool)
    requires InRange(graph) && loc < |graph|
    ensures rewire <==> TouchesDeleted(graph, deleted, loc)
    ensures expanded == Replacements(graph, deleted, loc)
  {
    var adj := graph[loc];
    expanded, rewire := {}, false;
    for k := 0 to |adj|
      invariant rewire <==> exists ngh :: ngh in adj[..k] && ngh in deleted
      invariant forall x :: x in expanded <==>
        (x in adj[..k] && x !in deleted) ||
        (exists ngh :: ngh in adj[..k] && ngh in deleted && x in graph[ngh] && x != loc && x !in deleted)
    {
      var ngh := adj[k];
      assert adj[..k + 1] == adj[..k] + [ngh];
      if ngh !in deleted {
        expanded := expanded + {ngh};
      } else {
        rewire := true;
        expanded := expanded + set j | j in graph[ngh] && j != loc && j !in deleted;
      }
    }
    assert adj[..|adj|] == adj;
  }

  method MeasureAll(loc: nat, ids: seq<nat>, D: Metric) returns (pool: seq<Neighbor>)
    ensures Ids(pool) == ids && MeasuredFrom(loc, pool, D)
  {
    pool := [];
    for k := 0 to |ids|
      invariant Ids(pool) == ids[..k] && MeasuredFrom(loc, pool, D)
    {
      IdsSnoc(pool, Neighbor(ids[k], D(loc, ids[k]), false));
      pool := pool + [Neighbor(ids[k], D(loc, ids[k]), false)];
    }
  }

  /** process_delete for one location: reads its own list and the lists of its deleted neighbours only. */
  method ProcessDelete(graph: Graph, deleted: set<nat>, loc: nat, p: WriteParams, D: Metric) returns (list: seq<nat>)
    requires InRange(graph) && loc < |graph|
    ensures Rewired(graph, deleted, loc, p, D, list)
    ensures (forall d :: d in graph[loc] ==> d !in deleted) ==> list == graph[loc]
    ensures (exists d :: d in graph[loc] && d in deleted) ==>
      var all := set y | y in Interval(0, |graph|) && y !in deleted && (y in graph[loc] ||
                   (y != loc && exists d :: d in graph[loc] && d in deleted && d < |graph| && y in graph[d]));
      && NoDup(list) && |list| <= p.range && (forall y :: y in list ==> y in all)
      && (|all| <= p.range ==> forall y :: y in all ==> y in list)
      && (|all| > p.range ==> exists sorted, chosen, rounds ::
            && Sorted(sorted) && NoDup(Ids(sorted)) && Elems(Ids(sorted)) == all && MeasuredFrom(loc, sorted, D)
            && IsPruning(Truncated(sorted, p.maxc), D, p.alpha, p.range, loc, deleted, chosen, rounds)
            && list == KeptIds(Truncated(sorted, p.maxc), chosen, loc, deleted))
  {
    list := RewireOne(graph, deleted, loc, p, D);
    RewiredMeans(graph, deleted, loc, p, D, list);
  }

  method RewireOne(graph: Graph, deleted: set<nat>, loc: nat, p: WriteParams, D: Metric) returns (list: seq<nat>)
    requires InRange(graph) && loc < |graph|
    ensures Rewired(graph, deleted, loc, p, D, list)
  {
    var expanded, rewire := CollectReplacements(graph, deleted, loc);
    if !rewire {
      return graph[loc];
    }
    var ids := InSomeOrder(expanded);
    ElemsSize(ids);
    if |expanded| <= p.range {
      return ids;
    }
    var pool := MeasureAll(loc, ids, D);
    var sorted := SortPool(pool);
    CountsBoundDuplicates(ids);
    CountsBoundDuplicates(Ids(sorted));
    SameIds(pool, sorted);
    StillMeasured(loc, pool, sorted, D);
    ghost var chosen, rounds;
    var cand;
    cand, list, chosen, rounds := OccludeList(loc, sorted, p.alpha, p.range, p.maxc, D, deleted);
  }

  lemma SameReplacements(g: Graph, h: Graph, deleted: set<nat>, loc: nat)
    requires InRange(g) && InRange(h) && loc < |g| == |h| && h[loc] == g[loc]
    requires forall x :: x in deleted && x < |g| ==> h[x] == g[x]
    ensures Replacements(h, deleted, loc) == Replacements(g, deleted, loc)
    ensures TouchesDeleted(h, deleted, loc) <==> TouchesDeleted(g, deleted, loc)
  {
    var a, b := Replacements(h, deleted, loc), Replacements(g, deleted, loc);
    forall x ensures x in a <==> x in b { }
  }

  /** Two graphs in which consolidation sees the same for loc: its own list and the lists of deleted nodes. */
  lemma {:induction false} RewiringReadsOnly(g: Graph, h: Graph, deleted: set<nat>, loc: nat, p: WriteParams, D: Metric,
                                             list: seq<nat>)
    requires InRange(g) && InRange(h) && loc < |g| == |h| && h[loc] == g[loc]
    requires forall x :: x in deleted && x < |g| ==> h[x] == g[x]
    requires Rewired(h, deleted, loc, p, D, list)
    ensures Rewired(g, deleted, loc, p, D, list)
  {
    SameReplacements(g, h, deleted, loc);
    var ids := Replacements(h, deleted, loc);
    if TouchesDeleted(h, deleted, loc) && |ids| > p.range {
      var sorted, chosen, rounds :|
        && Sorted(sorted) && NoDup(Ids(sorted)) && Elems(Ids(sorted)) == ids && MeasuredFrom(loc, sorted, D)
        && IsPruning(Truncated(sorted, p.maxc), D, p.alpha, p.range, loc, deleted, chosen, rounds)
        && list == KeptIds(Truncated(sorted, p.maxc), chosen, loc, deleted);
      assert Elems(Ids(sorted)) == Replacements(g, deleted, loc);
    }
  }

  /** The shape of a rewired list: live candidates only, no duplicates beyond those it had, within the range if it
      changed. */
  lemma {:induction false} RewiredShape(graph: Graph, deleted: set<nat>, loc: nat, p: WriteParams, D: Metric,
                                        list: seq<nat>)
    requires InRange(graph) && loc < |graph| && Rewired(graph, deleted, loc, p, D, list)
    ensures forall x :: x in list ==> x !in deleted && x in Replacements(graph, deleted, loc)
    ensures TouchesDeleted(graph, deleted, loc) ==> |list| <= p.range && NoDup(list)
    ensures !TouchesDeleted(graph, deleted, loc) ==> list == graph[loc]
  {
    var ids := Replacements(graph, deleted, loc);
    if TouchesDeleted(graph, deleted, loc) {
      ElemsSize(list);
      if |ids| > p.range {
        var sorted, chosen, rounds :|
          && Sorted(sorted) && NoDup(Ids(sorted)) && Elems(Ids(sorted)) == ids && MeasuredFrom(loc, sorted, D)
          && IsPruning(Truncated(sorted, p.maxc), D, p.alpha, p.range, loc, deleted, chosen, rounds)
          && list == KeptIds(Truncated(sorted, p.maxc), chosen, loc, deleted);
        TruncatedIds(sorted, p.maxc);
        PrunedShape(Truncated(sorted, p.maxc), D, p.alpha, p.range, loc, deleted, chosen, rounds);
      }
    }
  }

  /** The same in full: without a deleted neighbour a list stays; otherwise it is made of the live neighbours and the
      live neighbours of deleted neighbours, all of them if they fit, else a pruning of exactly those. */
  lemma {:induction false} RewiredMeans(graph: Graph, deleted: set<nat>, loc: nat, p: WriteParams, D: Metric,
                                        list: seq<nat>)
    requires InRange(graph) && loc < |graph| && Rewired(graph, deleted, loc, p, D, list)
    ensures (forall d :: d in graph[loc] ==> d !in deleted) ==> list == graph[loc]
    ensures (exists d :: d in graph[loc] && d in deleted) ==>
      var all := set y | y in Interval(0, |graph|) && y !in deleted && (y in graph[loc] ||
                   (y != loc && exists d :: d in graph[loc] && d in deleted && d < |graph| && y in graph[d]));
      && NoDup(list) && |list| <= p.range && (forall y :: y in list ==> y in all)
      && (|all| <= p.range ==> forall y :: y in all ==> y in list)
      && (|all| > p.range ==> exists sorted, chosen, rounds ::
            && Sorted(sorted) && NoDup(Ids(sorted)) && Elems(Ids(sorted)) == all && MeasuredFrom(loc, sorted, D)
            && IsPruning(Truncated(sorted, p.maxc), D, p.alpha, p.range, loc, deleted, chosen, rounds)
            && list == KeptIds(Truncated(sorted, p.maxc), chosen, loc, deleted))
  {
    RewiredShape(graph, deleted, loc, p, D, list);
    var all := set y | y in Interval(0, |graph|) && y !in deleted && (y in graph[loc] ||
                 (y != loc && exists d :: d in graph[loc] && d in deleted && d < |graph| && y in graph[d]));
    ReplacementsAre(graph, deleted, loc, all);
  }

  lemma ReplacementsAre(graph: Graph, deleted: set<nat>, loc: nat, all: set<nat>)
    requires InRange(graph) && loc < |graph|
    requires all == set y | y in Interval(0, |graph|) && y !in deleted && (y in graph[loc] ||
                   (y != loc && exists d :: d in graph[loc] && d in deleted && d < |graph| && y in graph[d]))
    ensures Replacements(graph, deleted, loc) == all
  {
    ReplacementsBelow(graph, deleted, loc);
    var ids := Replacements(graph, deleted, loc);
    forall y ensures y in ids <==> y in all { }
  }

  /** The bridge over a deleted node: after x -> d -> y with d deleted and y live there is an edge x -> y, whenever all
      the candidates of x fit into its list. */
  lemma BridgesStay(was: Graph, now: Graph, deleted: set<nat>, scope: set<nat>, p: WriteParams, D: Metric, x: nat,
                    d: nat, y: nat)
    requires InRange(was) && Consolidated(was, now, deleted, scope, p, D) && x in scope && x < |was|
    requires d in was[x] && d in deleted && d < |was| && y in was[d] && y !in deleted && y != x
    requires |set z | z in Interval(0, |was|) && z !in deleted && (z in was[x] ||
                (z != x && exists e :: e in was[x] && e in deleted && e < |was| && z in was[e]))| <= p.range
    ensures y in now[x] && d !in now[x]
  {
    assert ResultAt(was, now, deleted, scope, p, D, x);
    RewiredMeans(was, deleted, x, p, D, now[x]);
    assert y < |was| by {
      var i :| 0 <= i < |was[d]| && was[d][i] == y;
      assert Below(was[d], |was|);
    }
  }

  /** That for all bridges. */
  ghost predicate BridgesKept(was: Graph, now: Graph, deleted: set<nat>, scope: set<nat>, range: nat) {
    forall x, d, y {:trigger d in was[x], y in was[d]} ::
      && x in scope && x < |was| == |now| && d in was[x] && d in deleted && d < |was| && y in was[d] && y !in deleted
        && y != x
      && |set z | z in Interval(0, |was|) && z !in deleted && (z in was[x] ||
            (z != x && exists e :: e in was[x] && e in deleted && e < |was| && z in was[e]))| <= range
      ==> y in now[x]
  }

  lemma AllBridgesStay(was: Graph, now: Graph, deleted: set<nat>, scope: set<nat>, p: WriteParams, D: Metric)
    requires InRange(was) && Consolidated(was, now, deleted, scope, p, D)
    ensures BridgesKept(was, now, deleted, scope, p.range)
  {
    forall x, d, y {:trigger d in was[x], y in was[d]} |
      && x in scope && x < |was| == |now| && d in was[x] && d in deleted && d < |was| && y in was[d] && y !in deleted
        && y != x
      && |set z | z in Interval(0, |was|) && z !in deleted && (z in was[x] ||
            (z != x && exists e :: e in was[x] && e in deleted && e < |was| && z in was[e]))| <= p.range
      ensures y in now[x]
    {
      BridgesStay(was, now, deleted, scope, p, D, x, d, y);
    }
  }

  /** The whole pass: every location in `scope` is rewired as if it were alone, every other list stays. */
  ghost predicate Consolidated(was: Graph, now: Graph, deleted: set<nat>, scope: set<nat>, p: WriteParams, D: Metric)
    requires InRange(was)
  {
    |now| == |was| &&
    forall x {:trigger ResultAt(was, now, deleted, scope, p, D, x)} :: 0 <= x < |was| ==>
      ResultAt(was, now, deleted, scope, p, D, x)
  }

  ghost predicate ResultAt(was: Graph, now: Graph, deleted: set<nat>, scope: set<nat>, p: WriteParams, D: Metric,
                           x: nat)
    requires InRange(was) && x < |was| == |now|
  {
    Result(was, deleted, x, x in scope, p, D, now[x])
  }

  /** The list of x afterwards: rewired if it was x's turn, else as before. */
  ghost predicate Result(was: Graph, deleted: set<nat>, x: nat, turn: bool, p: WriteParams, D: Metric, list: seq<nat>)
    requires InRange(was) && x < |was|
  {
    if turn then Rewired(was, deleted, x, p, D, list) else list == was[x]
  }

  /** Whose turn comes: every location but the deleted ones and the empty slots. */
  ghost function Turns(total: nat, deleted: set<nat>, emptySlots: set<nat>, maxPoints: nat): set<nat> {
    Interval(0, total) - deleted - (emptySlots * Interval(0, maxPoints))
  }

  ghost predicate EdgesWithin(graph: Graph, nodes: set<nat>) {
    forall x {:trigger EdgesFrom(graph, nodes, x)} :: x in nodes ==> EdgesFrom(graph, nodes, x)
  }

  ghost predicate EdgesFrom(graph: Graph, nodes: set<nat>, x: nat) {
    x < |graph| && forall y :: y in graph[x] ==> y in nodes
  }

  /** If edges out of present nodes end at present nodes, then afterwards edges out of the survivors end at
      survivors. */
  lemma NoEdgeToDeleted(was: Graph, now: Graph, deleted: set<nat>, present: set<nat>, p: WriteParams, D: Metric)
    requires InRange(was) && EdgesWithin(was, present) && deleted <= present
    requires Consolidated(was, now, deleted, present - deleted, p, D)
    ensures EdgesWithin(now, present - deleted)
  {
    forall x | x in present - deleted ensures EdgesFrom(now, present - deleted, x) {
      assert EdgesFrom(was, present, x);
      assert ResultAt(was, now, deleted, present - deleted, p, D, x);
      RewiredShape(was, deleted, x, p, D, now[x]);
      forall y | y in now[x] ensures y in present {
        if y !in was[x] {
          var ngh :| ngh in was[x] && ngh in deleted && y in was[ngh];
          assert EdgesFrom(was, present, ngh);
        }
      }
    }
  }

  /** The lists before `to` are done, the others and those of skipped or deleted locations are as they were. */
  ghost predicate DoneUpTo(was: Graph, now: Graph, deleted: set<nat>, skip: set<nat>, from: nat, to: nat,
                           p: WriteParams, D: Metric)
    requires InRange(was)
  {
    && |now| == |was| && InRange(now)
    && forall x :: 0 <= x < |was| ==> Result(was, deleted, x, from <= x < to && x !in skip, p, D, now[x])
  }

  lemma OneMoreDone(was: Graph, now: Graph, deleted: set<nat>, skip: set<nat>, from: nat, loc: nat, p: WriteParams,
                    D: Metric, list: seq<nat>)
    requires InRange(was) && from <= loc < |was| && loc !in skip
    requires forall x :: x in deleted ==> x in skip || x < from || |was| <= x
    requires DoneUpTo(was, now, deleted, skip, from, loc, p, D) && Rewired(now, deleted, loc, p, D, list)
    ensures DoneUpTo(was, now[loc := list], deleted, skip, from, loc + 1, p, D)
  {
    assert Result(was, deleted, loc, false, p, D, now[loc]);
    forall x | x in deleted && x < |was| ensures now[x] == was[x] {
      assert Result(was, deleted, x, false, p, D, now[x]);
    }
    RewiringReadsOnly(was, now, deleted, loc, p, D, list);
    RewiredBelow(was, deleted, loc, p, D, list);
    var next := now[loc := list];
    forall x | 0 <= x < |was| ensures Result(was, deleted, x, from <= x < loc + 1 && x !in skip, p, D, next[x]) {
      assert x != loc ==> Result(was, deleted, x, from <= x < loc && x !in skip, p, D, now[x]);
    }
  }

  lemma RewiredBelow(graph: Graph, deleted: set<nat>, loc: nat, p: WriteParams, D: Metric, list: seq<nat>)
    requires InRange(graph) && loc < |graph| && Rewired(graph, deleted, loc, p, D, list)
    ensures Below(list, |graph|)
  {
    RewiredShape(graph, deleted, loc, p, D, list);
    ReplacementsBelow(graph, deleted, loc);
    assert forall i :: 0 <= i < |list| ==> list[i] in list;
  }

  /** One loop of consolidate_deletes. */
  method RewireRange(graph0: Graph, deleted: set<nat>, skip: set<nat>, from: nat, to: nat, p: WriteParams, D: Metric)
    returns (graph: Graph)
    requires InRange(graph0) && from <= to <= |graph0|
    requires forall x :: x in deleted ==> x in skip || x < from || |graph0| <= x
    ensures DoneUpTo(graph0, graph, deleted, skip, from, to, p, D)
  {
    graph := graph0;
    for loc := from to to
      invariant DoneUpTo(graph0, graph, deleted, skip, from, loc, p, D)
    {
      if loc !in skip {
        var list := ProcessDelete(graph, deleted, loc, p, D);
        OneMoreDone(graph0, graph, deleted, skip, from, loc, p, D, list);
        graph := graph[loc := list];
      }
    }
  }

  /** The loop over the slots, then the one over the frozen points. */
  method RewireAll(graph0: Graph, deleted: set<nat>, emptySlots: set<nat>, maxPoints: nat, p: WriteParams, D: Metric,
                   ghost nodes: set<nat>)
    returns (graph: Graph)
    requires InRange(graph0) && maxPoints <= |graph0|
    requires forall x :: x in deleted ==> x < maxPoints
    requires EdgesWithin(graph0, nodes) && deleted <= nodes
    requires nodes - deleted == Turns(|graph0|, deleted, emptySlots, maxPoints)
    ensures InRange(graph)
    ensures Consolidated(graph0, graph, deleted, nodes - deleted, p, D)
    ensures EdgesWithin(graph, nodes - deleted)
  {
    var slots := RewireRange(graph0, deleted, deleted + emptySlots, 0, maxPoints, p, D);
    graph := RewireRange(slots, deleted, {}, maxPoints, |slots|, p, D);
    BothLoops(graph0, slots, graph, deleted, emptySlots, maxPoints, p, D);
    NoEdgeToDeleted(graph0, graph, deleted, nodes, p, D);
  }

  lemma BothLoops(g0: Graph, g1: Graph, g2: Graph, deleted: set<nat>, emptySlots: set<nat>, maxPoints: nat,
                  p: WriteParams, D: Metric)
    requires InRange(g0) && InRange(g1) && maxPoints <= |g0| && forall x :: x in deleted ==> x < maxPoints
    requires DoneUpTo(g0, g1, deleted, deleted + emptySlots, 0, maxPoints, p, D)
    requires DoneUpTo(g1, g2, deleted, {}, maxPoints, |g1|, p, D)
    ensures Consolidated(g0, g2, deleted, Turns(|g0|, deleted, emptySlots, maxPoints), p, D)
  {
    var scope := Turns(|g0|, deleted, emptySlots, maxPoints);
    forall x | x in deleted ensures g1[x] == g0[x] {
      assert Result(g0, deleted, x, false, p, D, g1[x]);
    }
    forall x | 0 <= x < |g0| ensures ResultAt(g0, g2, deleted, scope, p, D, x) {
      BothAt(g0, g1, g2, deleted, emptySlots, maxPoints, p, D, x);
    }
  }

  lemma BothAt(g0: Graph, g1: Graph, g2: Graph, deleted: set<nat>, emptySlots: set<nat>, maxPoints: nat,
               p: WriteParams, D: Metric, x: nat)
    requires InRange(g0) && InRange(g1) && maxPoints <= |g0| && forall x :: x in deleted ==> x < maxPoints
    requires DoneUpTo(g0, g1, deleted, deleted + emptySlots, 0, maxPoints, p, D)
    requires DoneUpTo(g1, g2, deleted, {}, maxPoints, |g1|, p, D)
    requires x < |g0| == |g1| && forall y :: y in deleted ==> g1[y] == g0[y]
    ensures ResultAt(g0, g2, deleted, Turns(|g0|, deleted, emptySlots, maxPoints), p, D, x)
  {
    assert Result(g0, deleted, x, x < maxPoints && x !in deleted + emptySlots, p, D, g1[x]);
    assert Result(g1, deleted, x, maxPoints <= x, p, D, g2[x]);
    if maxPoints <= x { RewiringReadsOnly(g0, g1, deleted, x, p, D, g2[x]); }
  }

  lemma ReplacementsBelow(graph: Graph, deleted: set<nat>, loc: nat)
    requires InRange(graph) && loc < |graph|
    ensures forall x :: x in Replacements(graph, deleted, loc) ==> x < |graph|
  {
    forall x | x in Replacements(graph, deleted, loc) ensures x < |graph| {
      if !(x in graph[loc]) {
        var ngh :| ngh in graph[loc] && ngh in deleted && x in graph[ngh];
        assert Below(graph[ngh], |graph|);
      }
    }
  }
}
