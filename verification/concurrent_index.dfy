/** Insertions and deletions beside each other, and consolidations between them, on one index. */
module ConcurrentIndex {
  import opened Collections
  import opened GraphSearch
  import opened Occlusion
  import L = Linking
  import IS = IndexSlots
  import opened Consolidation
  import opened IndexState

  /** Slots and tags, the graph and what is going on in it, and the location each inserting thread has claimed. */
  datatype State = State(slots: IS.Slots, link: L.LinkState, claims: map<nat, nat>) {
    ghost function Present(numFrozen: nat): set<nat> {
      Nodes(slots, numFrozen)
    }
  }

  /** The steps of insert_point, lazy_delete and consolidate_deletes that hold a lock. Insertions and deletions share
      the update lock; a consolidation holds it alone from its beginning to its end. */
  datatype Step =
    | Claim(thread: nat, tag: int, pick: nat)
    | Link(thread: nat, step: L.LinkStep)
    | Finish(thread: nat)
    | Delete(tag: int)
    | Consolidate(graph: Graph)

  /** A thread links only the location it has claimed. */
  ghost predicate OfThread(e: L.LinkStep, thread: nat, loc: nat) {
    match e
    case Begin(t) => t == thread
    case Visit(t, x) => t == thread
    case SetOwn(t, n, list) => t == thread && n == loc
    case AddEdge(t, des, n) => t == thread && n == loc
    case Commit(t, list) => t == thread
  }

  ghost predicate CanStep(s: State, e: Step, numFrozen: nat, p: L.WriteParams, D: Metric) {
    match e
    case Claim(thread, tag, pick) => thread !in s.claims && IS.Enabled(s.slots, IS.Insert(tag, pick))
    case Link(thread, step) =>
      thread in s.claims && OfThread(step, thread, s.claims[thread]) && L.Enabled(s.link, step, p.range)
    case Finish(thread) => thread in s.claims && s.claims[thread] in s.link.linked && thread !in s.link.pending
    case Delete(tag) => true
    case Consolidate(graph) =>
      s.claims == map[] && InRange(s.link.graph)
      && Consolidated(s.link.graph, graph, s.slots.deleted, s.Present(numFrozen) - s.slots.deleted, p, D)
  }

  ghost function Next(s: State, e: Step, numFrozen: nat, p: L.WriteParams): State {
    match e
    case Claim(thread, tag, pick) =>
      if IS.InsertAccepted(s.slots, tag) then
        s.(slots := IS.InsertTag(s.slots, tag, pick), claims := s.claims[thread := pick])
      else s
    case Link(thread, step) => s.(link := L.Apply(s.link, step, p.range))
    case Finish(thread) => s.(link := s.link.(found := s.link.found - {thread}), claims := s.claims - {thread})
    case Delete(tag) => s.(slots := IS.DeleteTag(s.slots, tag))
    case Consolidate(graph) =>
      var slots := IS.HandBack(IS.TakeDeletes(s.slots));
      State(slots, s.link.(graph := graph, linked := Nodes(slots, numFrozen)), s.claims)
  }

  /** What holds in every state. Linked nodes hold points; a location that holds a point and is not linked is claimed by
      a thread; and the lists of linked nodes have the shape of lists of linked nodes. */
  ghost predicate Inv(s: State, maxPoints: nat, numFrozen: nat, range: nat) {
    && s.slots.Valid() && s.slots.maxPoints == maxPoints && s.slots.pending == {} && !s.slots.consolidating
    && |s.link.graph| == maxPoints + numFrozen && InRange(s.link.graph)
    && s.link.starts <= Interval(maxPoints, maxPoints + numFrozen)
    && L.LinkInv(s.link, range)
    && s.link.linked <= s.Present(numFrozen)
    && (forall x :: x in s.Present(numFrozen) ==> x in s.link.linked || x in s.claims.Values)
    && s.claims.Values <= s.Present(numFrozen)
    && s.link.found.Keys <= s.claims.Keys && s.link.pending.Keys <= s.claims.Keys
  }

  // ------------------------------------------------------------------ the steps keep it

  lemma ClaimKeepsInv(s: State, thread: nat, tag: int, pick: nat, maxPoints: nat, numFrozen: nat, p: L.WriteParams,
                      D: Metric)
    requires Inv(s, maxPoints, numFrozen, p.range) && CanStep(s, Claim(thread, tag, pick), numFrozen, p, D)
    ensures Inv(Next(s, Claim(thread, tag, pick), numFrozen, p), maxPoints, numFrozen, p.range)
    ensures IS.InsertAccepted(s.slots, tag) ==> pick !in s.Present(numFrozen) && pick !in s.link.linked
  {
    IS.InsertKeepsValid(s.slots, tag, pick);
    if IS.InsertAccepted(s.slots, tag) {
      IS.InsertIntoEmpty(s.slots, tag, pick);
      TaggedNodes(s.slots, tag, pick, numFrozen);
      var t := Next(s, Claim(thread, tag, pick), numFrozen, p);
      assert t.claims.Values <= s.claims.Values + {pick};
      forall x | x in t.Present(numFrozen) ensures x in t.link.linked || x in t.claims.Values {
        ClaimStays(s.claims, thread, pick, x);
      }
    }
  }

  lemma ClaimStays(claims: map<nat, nat>, thread: nat, loc: nat, x: nat)
    requires thread !in claims
    ensures x in claims.Values || x == loc ==> x in claims[thread := loc].Values
  {
    if x in claims.Values {
      var t :| t in claims && claims[t] == x;
      assert claims[thread := loc][t] == x;
    }
    assert claims[thread := loc][thread] == loc;
  }

  lemma FinishKeepsInv(s: State, thread: nat, maxPoints: nat, numFrozen: nat, p: L.WriteParams, D: Metric)
    requires Inv(s, maxPoints, numFrozen, p.range) && CanStep(s, Finish(thread), numFrozen, p, D)
    ensures Inv(Next(s, Finish(thread), numFrozen, p), maxPoints, numFrozen, p.range)
  {
    var t := Next(s, Finish(thread), numFrozen, p);
    forall x | x in t.Present(numFrozen) ensures x in t.link.linked || x in t.claims.Values {
      if x !in s.link.linked {
        var u :| u in s.claims && s.claims[u] == x;
        assert t.claims[u] == x;
      }
    }
    forall x | x in t.claims.Values ensures x in s.claims.Values {
      var u :| u in t.claims && t.claims[u] == x;
      assert s.claims[u] == x;
    }
    forall x | x in t.link.linked ensures L.NodeOk(x, t.link.graph[x], t.link.linked, p.range) {
      assert L.NodeOk(x, s.link.graph[x], s.link.linked, p.range);
    }
  }

  /** A step of linking changes lists of linked nodes only, and what it writes is a list of linked nodes. */
  lemma LinkInRange(s: L.LinkState, e: L.LinkStep, range: nat)
    requires L.LinkInv(s, range) && L.Enabled(s, e, range) && InRange(s.graph)
    ensures InRange(L.Apply(s, e, range).graph) && |L.Apply(s, e, range).graph| == |s.graph|
    ensures L.Apply(s, e, range).starts == s.starts
    ensures forall x :: 0 <= x < |s.graph| && x !in L.Apply(s, e, range).linked ==>
      L.Apply(s, e, range).graph[x] == s.graph[x]
  {
    L.ApplyKeepsInv(s, e, range);
    var t := L.Apply(s, e, range);
    forall x | 0 <= x < |s.graph| ensures x !in t.linked ==> t.graph[x] == s.graph[x] { }
    forall x | 0 <= x < |t.graph| ensures Below(t.graph[x], |t.graph|) {
      if x in t.linked {
        assert L.NodeOk(x, t.graph[x], t.linked, range);
        BelowByMembers(t.graph[x], |t.graph|, t.linked);
      }
    }
  }

  lemma LinkKeepsInv(s: State, thread: nat, e: L.LinkStep, maxPoints: nat, numFrozen: nat, p: L.WriteParams, D: Metric)
    requires Inv(s, maxPoints, numFrozen, p.range) && CanStep(s, Link(thread, e), numFrozen, p, D)
    ensures Inv(Next(s, Link(thread, e), numFrozen, p), maxPoints, numFrozen, p.range)
  {
    L.ApplyKeepsInv(s.link, e, p.range);
    LinkInRange(s.link, e, p.range);
    assert s.claims[thread] in s.claims.Values;
  }

  lemma DeleteKeepsInv(s: State, tag: int, maxPoints: nat, numFrozen: nat, p: L.WriteParams)
    requires Inv(s, maxPoints, numFrozen, p.range)
    ensures Inv(Next(s, Delete(tag), numFrozen, p), maxPoints, numFrozen, p.range)
  {
    IS.DeleteKeepsValid(s.slots, tag);
    SameNodes(s.slots, IS.DeleteTag(s.slots, tag), numFrozen);
  }

  /** A consolidation, with nothing else going on, leaves lists of survivors, of the same shape. */
  lemma ConsolidateKeepsInv(s: State, graph: Graph, maxPoints: nat, numFrozen: nat, p: L.WriteParams, D: Metric)
    requires Inv(s, maxPoints, numFrozen, p.range) && CanStep(s, Consolidate(graph), numFrozen, p, D)
    ensures Inv(Next(s, Consolidate(graph), numFrozen, p), maxPoints, numFrozen, p.range)
  {
    var t := Next(s, Consolidate(graph), numFrozen, p);
    ConsolidationSlots(s.slots);
    SurvivingNodes(s.slots, numFrozen);
    NobodyClaims(s, maxPoints, numFrozen, p.range);
    assert t.Present(numFrozen) == s.Present(numFrozen) - s.slots.deleted == t.link.linked;
    assert |graph| == |s.link.graph| && InRange(graph) && L.LinkInv(t.link, p.range) by {
      SurvivorsLinked(s, graph, numFrozen, p, D, t.link);
    }
  }

  /** With no insertion under way all points are linked, and no search or pruning is in progress. */
  lemma NobodyClaims(s: State, maxPoints: nat, numFrozen: nat, range: nat)
    requires Inv(s, maxPoints, numFrozen, range) && s.claims == map[]
    ensures s.link.linked == s.Present(numFrozen) && s.link.found == map[] && s.link.pending == map[]
    ensures s.link.starts !! s.slots.deleted && s.link.starts <= s.Present(numFrozen)
  {
    assert s.claims.Values == {} && s.claims.Keys == {};
    assert s.link.found.Keys == {} && s.link.pending.Keys == {};
  }

  lemma SurvivorsLinked(s: State, graph: Graph, numFrozen: nat, p: L.WriteParams, D: Metric, link: L.LinkState)
    requires L.LinkInv(s.link, p.range) && InRange(s.link.graph) && s.link.linked == s.Present(numFrozen)
    requires Consolidated(s.link.graph, graph, s.slots.deleted, s.Present(numFrozen) - s.slots.deleted, p, D)
    requires s.link.starts !! s.slots.deleted && s.link.starts <= s.Present(numFrozen)
    requires link.graph == graph && link.linked == s.Present(numFrozen) - s.slots.deleted
      && link.starts == s.link.starts
    requires link.found == map[] && link.pending == map[]
    ensures InRange(graph) && |graph| == |s.link.graph| && L.LinkInv(link, p.range)
  {
    forall x | 0 <= x < |graph| ensures Below(graph[x], |graph|) { SurvivorOk(s, graph, numFrozen, p, D, x); }
    forall x | x in link.linked ensures x < |graph| && L.NodeOk(x, graph[x], link.linked, p.range) {
      assert x in s.link.linked;
      SurvivorOk(s, graph, numFrozen, p, D, x);
    }
  }

  lemma SurvivorOk(s: State, graph: Graph, numFrozen: nat, p: L.WriteParams, D: Metric, x: nat)
    requires L.LinkInv(s.link, p.range) && InRange(s.link.graph) && s.link.linked == s.Present(numFrozen)
    requires Consolidated(s.link.graph, graph, s.slots.deleted, s.Present(numFrozen) - s.slots.deleted, p, D)
    requires x < |graph|
    ensures Below(graph[x], |graph|)
    ensures x in s.Present(numFrozen) - s.slots.deleted ==>
      L.NodeOk(x, graph[x], s.Present(numFrozen) - s.slots.deleted, p.range)
  {
    var was, deleted, present := s.link.graph, s.slots.deleted, s.Present(numFrozen);
    assert ResultAt(was, graph, deleted, present - deleted, p, D, x);
    if x in present - deleted {
      assert L.NodeOk(x, was[x], present, p.range);
      RewiredShape(was, deleted, x, p, D, graph[x]);
      forall y | y in Replacements(was, deleted, x) ensures y in present && y != x {
        if y !in was[x] {
          var ngh :| ngh in was[x] && ngh in deleted && y in was[ngh];
          assert L.NodeOk(ngh, was[ngh], present, p.range);
        }
      }
      BelowByMembers(graph[x], |graph|, present);
    }
  }

  lemma StepKeepsInv(s: State, e: Step, maxPoints: nat, numFrozen: nat, p: L.WriteParams, D: Metric)
    requires Inv(s, maxPoints, numFrozen, p.range) && CanStep(s, e, numFrozen, p, D)
    ensures Inv(Next(s, e, numFrozen, p), maxPoints, numFrozen, p.range)
  {
    match e
    case Claim(thread, tag, pick) => ClaimKeepsInv(s, thread, tag, pick, maxPoints, numFrozen, p, D);
    case Link(thread, step) => LinkKeepsInv(s, thread, step, maxPoints, numFrozen, p, D);
    case Finish(thread) => FinishKeepsInv(s, thread, maxPoints, numFrozen, p, D);
    case Delete(tag) => DeleteKeepsInv(s, tag, maxPoints, numFrozen, p);
    case Consolidate(graph) => ConsolidateKeepsInv(s, graph, maxPoints, numFrozen, p, D);
  }

  // ------------------------------------------------------------------ runs

  /** A fresh dynamic index: the frozen points are part of the graph, and searches start among them. */
  ghost predicate Fresh(s: State, maxPoints: nat, numFrozen: nat) {
    && s.slots == IS.FreshSlots(maxPoints) && s.claims == map[]
    && |s.link.graph| == maxPoints + numFrozen && (forall x :: 0 <= x < |s.link.graph| ==> s.link.graph[x] == [])
    && s.link.linked == Interval(maxPoints, maxPoints + numFrozen) && s.link.starts <= s.link.linked
    && s.link.found == map[] && s.link.pending == map[]
  }

  lemma FreshInv(s: State, maxPoints: nat, numFrozen: nat, range: nat)
    requires Fresh(s, maxPoints, numFrozen)
    ensures Inv(s, maxPoints, numFrozen, range)
  {
    IS.FreshValid(maxPoints);
    forall x | x in s.link.linked ensures L.NodeOk(x, s.link.graph[x], s.link.linked, range) {
      assert s.link.graph[x] == [];
    }
  }

  ghost predicate Taken(trace: seq<State>, steps: seq<Step>, i: nat, numFrozen: nat, p: L.WriteParams, D: Metric)
    requires i < |steps| < |trace|
  {
    CanStep(trace[i], steps[i], numFrozen, p, D) && trace[i + 1] == Next(trace[i], steps[i], numFrozen, p)
  }

  /** Any interleaving of any number of threads, with consolidations when no insertion is under way. */
  ghost predicate Run(trace: seq<State>, steps: seq<Step>, maxPoints: nat, numFrozen: nat, p: L.WriteParams,
                      D: Metric) {
    && |trace| == |steps| + 1 && Fresh(trace[0], maxPoints, numFrozen)
    && forall i :: 0 <= i < |steps| ==> Taken(trace, steps, i, numFrozen, p, D)
  }

  lemma {:induction false} RunKeepsInv(trace: seq<State>, steps: seq<Step>, maxPoints: nat, numFrozen: nat,
                                       p: L.WriteParams, D: Metric, i: nat)
    requires Run(trace, steps, maxPoints, numFrozen, p, D) && i < |trace|
    ensures Inv(trace[i], maxPoints, numFrozen, p.range)
  {
    if i == 0 {
      FreshInv(trace[0], maxPoints, numFrozen, p.range);
    } else {
      RunKeepsInv(trace, steps, maxPoints, numFrozen, p, D, i - 1);
      assert Taken(trace, steps, i - 1, numFrozen, p, D);
      StepKeepsInv(trace[i - 1], steps[i - 1], maxPoints, numFrozen, p, D);
    }
  }

  /** In every state of every run, whatever runs beside what: no list of a linked node leads to an empty slot, or to one
      whose point is not linked yet, names a node twice or itself, or is longer than the slack allows. When no insertion
      is under way, that holds for all locations that hold a point. */
  lemma NoEdgeToEmptySlot(trace: seq<State>, steps: seq<Step>, maxPoints: nat, numFrozen: nat, p: L.WriteParams,
                          D: Metric, i: nat)
    requires Run(trace, steps, maxPoints, numFrozen, p, D) && i < |trace|
    ensures var s := trace[i];
      && EdgesWithin(s.link.graph, s.link.linked) && s.link.linked !! s.slots.empty
      && (forall x :: x in s.link.linked ==>
            x < |s.link.graph| && L.NodeOk(x, s.link.graph[x], s.link.linked, p.range))
      && (s.claims == map[] ==> s.link.linked == s.Present(numFrozen))
  {
    var s := trace[i];
    RunKeepsInv(trace, steps, maxPoints, numFrozen, p, D, i);
    NodesNotEmpty(s.slots, numFrozen);
    forall x | x in s.link.linked ensures EdgesFrom(s.link.graph, s.link.linked, x) {
      assert L.NodeOk(x, s.link.graph[x], s.link.linked, p.range);
    }
  }

  /** A slot that an insertion claims holds no point, and no list of a linked node leads to it. */
  lemma ClaimedIsUnreferenced(trace: seq<State>, steps: seq<Step>, maxPoints: nat, numFrozen: nat, p: L.WriteParams,
                              D: Metric, i: nat)
    requires Run(trace, steps, maxPoints, numFrozen, p, D) && i < |steps|
    requires steps[i].Claim? && IS.InsertAccepted(trace[i].slots, steps[i].tag)
    ensures var s, loc := trace[i], steps[i].pick;
      loc !in s.Present(numFrozen) && forall x :: x in s.link.linked ==> x < |s.link.graph| && loc !in s.link.graph[x]
  {
    var s, e := trace[i], steps[i];
    NoEdgeToEmptySlot(trace, steps, maxPoints, numFrozen, p, D, i);
    RunKeepsInv(trace, steps, maxPoints, numFrozen, p, D, i);
    assert Taken(trace, steps, i, numFrozen, p, D);
    ClaimKeepsInv(s, e.thread, e.tag, e.pick, maxPoints, numFrozen, p, D);
    forall x | x in s.link.linked ensures x < |s.link.graph| && e.pick !in s.link.graph[x] {
      assert EdgesFrom(s.link.graph, s.link.linked, x);
    }
  }
}
