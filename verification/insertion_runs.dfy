/** An insertion that nobody disturbs is a run of the concurrent protocol: the protocol allows what the calls do. */
module InsertionRuns {
  import opened Collections
  import opened GraphSearch
  import opened Occlusion
  import opened IndexState
  import L = Linking
  import IS = IndexSlots
  import opened ConcurrentIndex

  /** Steps of one thread that links n. */
  ghost predicate OneThread(trace: seq<L.LinkState>, steps: seq<L.LinkStep>, thread: nat, n: nat, range: nat) {
    L.Interleaving(trace, steps, range) && forall i :: 0 <= i < |steps| ==> OfThread(steps[i], thread, n)
  }

  lemma OneStep(s: L.LinkState, e: L.LinkStep, thread: nat, n: nat, range: nat)
    requires L.Enabled(s, e, range) && OfThread(e, thread, n)
    ensures OneThread([s, L.Apply(s, e, range)], [e], thread, n, range)
  {
    assert L.StepAt([s, L.Apply(s, e, range)], [e], 0, range);
  }

  /** Two runs, the second from where the first ends. */
  lemma Joined(a: seq<L.LinkState>, x: seq<L.LinkStep>, b: seq<L.LinkState>, y: seq<L.LinkStep>, thread: nat, n: nat,
               range: nat)
    requires OneThread(a, x, thread, n, range) && OneThread(b, y, thread, n, range) && a[|a| - 1] == b[0]
    ensures OneThread(a + b[1..], x + y, thread, n, range)
    ensures (a + b[1..])[0] == a[0] && (a + b[1..])[|a + b[1..]| - 1] == b[|b| - 1]
  {
    var trace, steps := a + b[1..], x + y;
    forall i | 0 <= i < |steps| ensures L.StepAt(trace, steps, i, range) && OfThread(steps[i], thread, n) {
      if i < |x| {
        assert L.StepAt(a, x, i, range);
      } else {
        assert L.StepAt(b, y, i - |x|, range);
      }
    }
  }

  /** The search of an insertion: what it expands has been found. */
  lemma SearchingRun(q: Query, starts: seq<nat>, s: L.LinkState, thread: nat, n: nat, range: nat)
    returns (trace: seq<L.LinkState>, steps: seq<L.LinkStep>)
    requires q.Valid() && Below(starts, |q.dist|) && s.graph == q.graph && s.starts == Elems(starts)
    ensures OneThread(trace, steps, thread, n, range) && trace[0] == s
    ensures var end := trace[|trace| - 1];
      thread in end.found && end == s.(found := s.found[thread := end.found[thread]])
      && forall x :: x in Search(q, starts).expanded ==> x in end.found[thread]
  {
    var begun := L.Apply(s, L.Begin(thread), range);
    OneStep(s, L.Begin(thread), thread, n, range);
    StartKeepsInv(q, starts);
    trace, steps := L.SearchIsARun(q, StartState(q, starts), thread, range, [s, begun], [L.Begin(thread)]);
    GraphSearch.RunKeepsInv(q, StartState(q, starts));
    forall x | x in Search(q, starts).expanded ensures x in Search(q, starts).visited {
      var i :| 0 <= i < |Search(q, starts).expanded| && Search(q, starts).expanded[i] == x;
    }
    var end := trace[|trace| - 1];
    assert s.found[thread := s.starts][thread := end.found[thread]] == s.found[thread := end.found[thread]];
  }

  lemma EdgeRun(s: L.LinkState, thread: nat, n: nat, des: nat, now: seq<nat>, p: L.WriteParams, D: Metric)
    returns (trace: seq<L.LinkState>, steps: seq<L.LinkStep>)
    requires L.LinkInv(s, p.range) && thread !in s.pending && n in s.linked && des in s.linked && des != n
    requires des < |s.graph| && L.LinkedTo(des, s.graph[des], n, p, D, now)
    ensures OneThread(trace, steps, thread, n, p.range) && trace[0] == s
    ensures trace[|trace| - 1] == s.(graph := s.graph[des := now])
    ensures L.LinkInv(s.(graph := s.graph[des := now]), p.range)
  {
    trace, steps := L.ReverseEdgeIsARun(s, thread, des, n, p, D, now);
    L.LinkingKeepsShape(trace, steps, p.range, |trace| - 1);
  }

  /** Every node of the list is to get its edge back. */
  ghost predicate EdgesDue(s: L.LinkState, n: nat, list: seq<nat>, now: Graph, p: L.WriteParams, D: Metric) {
    |now| == |s.graph| && NoDup(list) && forall x :: x in list ==>
      x in s.linked && x != n && x < |now| && L.LinkedTo(x, s.graph[x], n, p, D, now[x])
  }

  /** They have got it, and nothing else has changed. */
  ghost predicate EdgesDone(s: L.LinkState, end: L.LinkState, list: seq<nat>, now: Graph) {
    && |now| == |s.graph| == |end.graph| && end == s.(graph := end.graph)
    && forall x :: 0 <= x < |now| ==> end.graph[x] == if x in list then now[x] else s.graph[x]
  }

  lemma FirstEdge(s: L.LinkState, n: nat, list: seq<nat>, now: Graph, p: L.WriteParams, D: Metric)
    requires EdgesDue(s, n, list, now, p, D) && list != [] && list[0] < |now|
    ensures EdgesDue(s.(graph := s.graph[list[0] := now[list[0]]]), n, list[1..], now, p, D)
  {
    RestOf(list);
    var next := s.(graph := s.graph[list[0] := now[list[0]]]);
    forall x | x in list[1..]
      ensures x in next.linked && x != n && x < |now| && L.LinkedTo(x, next.graph[x], n, p, D, now[x])
    {
      assert x in list;
    }
  }

  lemma RestOf(list: seq<nat>)
    requires NoDup(list) && list != []
    ensures NoDup(list[1..]) && forall x :: x in list <==> x in list[1..] || x == list[0]
    ensures list[0] !in list[1..]
  {
    assert list == [list[0]] + list[1..];
    forall i | 0 <= i < |list| - 1 ensures list[1..][i] != list[0] { assert list[0] != list[i + 1]; }
  }

  lemma LastEdges(s: L.LinkState, end: L.LinkState, list: seq<nat>, now: Graph)
    requires NoDup(list) && list != [] && list[0] < |s.graph| == |now|
    requires EdgesDone(s.(graph := s.graph[list[0] := now[list[0]]]), end, list[1..], now)
    ensures EdgesDone(s, end, list, now)
  {
    RestOf(list);
  }

  /** The reverse edges, one after the other. */
  lemma {:induction false} EdgesRun(s: L.LinkState, thread: nat, n: nat, list: seq<nat>, now: Graph, p: L.WriteParams,
                                    D: Metric)
    returns (trace: seq<L.LinkState>, steps: seq<L.LinkStep>)
    requires L.LinkInv(s, p.range) && thread !in s.pending && n in s.linked && EdgesDue(s, n, list, now, p, D)
    ensures OneThread(trace, steps, thread, n, p.range) && trace[0] == s
    ensures EdgesDone(s, trace[|trace| - 1], list, now)
    decreases |list|
  {
    if list == [] {
      trace, steps := [s], [];
    } else {
      assert list[0] in list;
      var next := s.(graph := s.graph[list[0] := now[list[0]]]);
      FirstEdge(s, n, list, now, p, D);
      var first, edge := EdgeRun(s, thread, n, list[0], now[list[0]], p, D);
      var rest, more := EdgesRun(next, thread, n, list[1..], now, p, D);
      Joined(first, edge, rest, more, thread, n, p.range);
      LastEdges(s, rest[|rest| - 1], list, now);
      trace, steps := first + rest[1..], edge + more;
    }
  }

  lemma OwnListDue(s: L.LinkState, own: L.LinkState, n: nat, found: set<nat>, now: Graph, candidates: set<nat>,
                   p: L.WriteParams, D: Metric)
    requires LinkedAt(s.graph, now, n, candidates, p, D) && candidates <= found <= s.linked
    requires own == s.(graph := s.graph[n := now[n]], linked := s.linked + {n})
    requires forall x :: x in s.linked ==> x < |s.graph|
    ensures EdgesDue(own, n, now[n], now, p, D)
  {
    forall x | x in now[n]
      ensures x in own.linked && x != n && x < |now| && L.LinkedTo(x, own.graph[x], n, p, D, now[x])
    {
      assert x in found;
      assert NeighbourLinked(s.graph, now, n, p, D, x);
    }
  }

  /** Linking a node: search, own list, reverse edges. */
  lemma LinkingIsARun(q: Query, starts: seq<nat>, s: L.LinkState, thread: nat, n: nat, now: Graph, p: L.WriteParams,
                      D: Metric)
    returns (trace: seq<L.LinkState>, steps: seq<L.LinkStep>)
    requires q.Valid() && Below(starts, |q.dist|) && s.graph == q.graph && s.starts == Elems(starts)
    requires L.LinkInv(s, p.range) && thread !in s.found && thread !in s.pending
    requires LinkedAt(s.graph, now, n, Elems(Search(q, starts).expanded) - {n}, p, D)
    ensures OneThread(trace, steps, thread, n, p.range) && trace[0] == s
    ensures trace[|trace| - 1] == s.(graph := now, linked := s.linked + {n})
  {
    var list := now[n];
    var before, visits := SearchingRun(q, starts, s, thread, n, p.range);
    var found := before[|before| - 1];
    L.LinkingKeepsShape(before, visits, p.range, |before| - 1);
    var own := L.Apply(found, L.SetOwn(thread, n, list), p.range);
    OneStep(found, L.SetOwn(thread, n, list), thread, n, p.range);
    L.ApplyKeepsInv(found, L.SetOwn(thread, n, list), p.range);
    assert own == s.(graph := s.graph[n := list], linked := s.linked + {n}) by {
      assert found.found - {thread} == s.found;
    }
    OwnListDue(s, own, n, found.found[thread], now, Elems(Search(q, starts).expanded) - {n}, p, D);
    var after, edges := EdgesRun(own, thread, n, list, now, p, D);
    Joined(before, visits, [found, own], [L.SetOwn(thread, n, list)], thread, n, p.range);
    Joined(before + [found, own][1..], visits + [L.SetOwn(thread, n, list)], after, edges, thread, n, p.range);
    trace, steps := before + [found, own][1..] + after[1..], visits + [L.SetOwn(thread, n, list)] + edges;
    var end := trace[|trace| - 1];
    forall x | 0 <= x < |now| ensures end.graph[x] == now[x] {
      if x != n { assert NeighbourLinked(s.graph, now, n, p, D, x); }
    }
    assert end.graph == now;
  }

  ghost predicate Steps(trace: seq<State>, steps: seq<Step>, numFrozen: nat, p: L.WriteParams, D: Metric) {
    |trace| == |steps| + 1 && forall i :: 0 <= i < |steps| ==> Taken(trace, steps, i, numFrozen, p, D)
  }

  /** The whole of insert_point: claim, search, own list, reverse edges, finish. */
  lemma InsertionIsARun(q: Query, starts: seq<nat>, s: State, thread: nat, tag: int, loc: nat, now: Graph,
                        maxPoints: nat, numFrozen: nat, p: L.WriteParams, D: Metric)
    returns (trace: seq<State>, steps: seq<Step>)
    requires ConcurrentIndex.Inv(s, maxPoints, numFrozen, p.range) && thread !in s.claims
    requires tag != 0 && s.slots.nd < s.slots.maxPoints && tag !in s.slots.tagToLocation && loc in s.slots.empty
    requires q.Valid() && Below(starts, |q.dist|) && s.link.graph == q.graph && s.link.starts == Elems(starts)
    requires LinkedAt(s.link.graph, now, loc, Elems(Search(q, starts).expanded) - {loc}, p, D)
    ensures Steps(trace, steps, numFrozen, p, D) && trace[0] == s
    ensures trace[|trace| - 1] == State(
      s.slots.(nd := s.slots.nd + 1, empty := s.slots.empty - {loc},
               tagToLocation := s.slots.tagToLocation[tag := loc], locationToTag := s.slots.locationToTag[loc := tag]),
      s.link.(graph := now, linked := s.link.linked + {loc}), s.claims)
  {
    IS.InsertIntoEmpty(s.slots, tag, loc);
    var links, moves := LinkingIsARun(q, starts, s.link, thread, loc, now, p, D);
    trace, steps := Lifted(s, thread, tag, loc, links, moves, numFrozen, p, D);
  }

  /** The steps of linking between the claim and the end of an insertion. */
  lemma Lifted(s: State, thread: nat, tag: int, loc: nat, links: seq<L.LinkState>, moves: seq<L.LinkStep>,
               numFrozen: nat, p: L.WriteParams, D: Metric)
    returns (trace: seq<State>, steps: seq<Step>)
    requires thread !in s.claims && s.link.found.Keys <= s.claims.Keys && s.link.pending.Keys <= s.claims.Keys
    requires IS.Enabled(s.slots, IS.Insert(tag, loc)) && IS.InsertAccepted(s.slots, tag)
    requires OneThread(links, moves, thread, loc, p.range) && links[0] == s.link
    requires var end := links[|links| - 1];
      loc in end.linked && end.found == s.link.found && end.pending == s.link.pending
    ensures Steps(trace, steps, numFrozen, p, D) && trace[0] == s
    ensures trace[|trace| - 1] == State(IS.InsertTag(s.slots, tag, loc), links[|links| - 1], s.claims)
  {
    var slots, claims := IS.InsertTag(s.slots, tag, loc), s.claims[thread := loc];
    var end := links[|links| - 1];
    var middle := seq(|links|, i requires 0 <= i < |links| => State(slots, links[i], claims));
    var inner := seq(|moves|, i requires 0 <= i < |moves| => Link(thread, moves[i]));
    trace := [s] + middle + [State(slots, end, s.claims)];
    steps := [Claim(thread, tag, loc)] + inner + [Finish(thread)];
    assert end.found - {thread} == end.found && claims - {thread} == s.claims;
    forall i | 0 <= i < |steps| ensures Taken(trace, steps, i, numFrozen, p, D) {
      if 0 < i <= |moves| { assert L.StepAt(links, moves, i - 1, p.range) && OfThread(moves[i - 1], thread, loc); }
    }
  }
}
