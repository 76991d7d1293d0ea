/** The in-memory dynamic index: insertion, lazy deletion, consolidation, compaction and search on one state. */
module DynamicIndex {
  import opened Collections
  import opened NeighborQueue
  import opened GraphSearch
  import opened SearchAnswers
  import opened Occlusion
  import opened Pruning
  import opened Linking
  import opened IndexSlots
  import IS = IndexSlots
  import opened Consolidation
  import opened Compaction
  import opened SlotCompaction
  import opened Reposition
  import opened IndexState

  /** consolidation_report: how it went, the points left, the empty slots, the slots released. */
  datatype Report = Report(status: Admission, activePoints: nat, emptySlots: nat, slotsReleased: nat)

  datatype InsertCode = Success | Failure | ReservedTag

  datatype CompactCode = Done | AlreadyCompact | DeletesPending | StartDeleted

  class Index {
    const maxPoints: nat
    const numFrozen: nat
    const params: WriteParams
    const searchL: nat
    const metric: (Vector, Vector) -> real
    const zero: Vector

    var nd: nat
    var start: nat
    var emptySlots: set<nat>
    var deleteSet: set<nat>
    var tagToLocation: map<int, nat>
    var locationToTag: map<nat, int>
    var dataCompacted: bool
    var graph: Graph
    var vectors: seq<Vector>

    ghost function View(): Slots
      reads this`nd, this`emptySlots, this`deleteSet, this`tagToLocation, this`locationToTag, this`dataCompacted
    {
      Slots(maxPoints, nd, emptySlots, deleteSet, {}, false, tagToLocation, locationToTag, dataCompacted)
    }

    ghost function PresentNodes(): set<nat>
      reads this`nd, this`emptySlots, this`deleteSet, this`tagToLocation, this`locationToTag, this`dataCompacted
    {
      Nodes(View(), numFrozen)
    }

    ghost predicate Valid()
      reads this
    {
      Sound(View(), numFrozen, searchL, start, graph, |vectors|)
    }

    constructor (maxPoints: nat, numFrozen: nat, params: WriteParams, searchL: nat,
                 metric: (Vector, Vector) -> real, zero: Vector, frozen: seq<Vector>)
      requires 0 < searchL && |frozen| == (if numFrozen == 0 then 1 else numFrozen)
      requires (if maxPoints == 0 then 1 else maxPoints) + |frozen| < INVALID
      ensures Valid()
      ensures this.maxPoints == (if maxPoints == 0 then 1 else maxPoints) && this.numFrozen == |frozen|
      ensures View() == FreshSlots(this.maxPoints)
      ensures start == this.maxPoints && |vectors| == this.maxPoints + |frozen| && vectors[this.maxPoints..] == frozen
      ensures |graph| == this.maxPoints + |frozen| && forall x :: 0 <= x < |graph| ==> graph[x] == []
      ensures nd == 0 && emptySlots == Interval(0, this.maxPoints) && deleteSet == {} && dataCompacted
        && tagToLocation == map[] && locationToTag == map[]
    {
      this.maxPoints := if maxPoints == 0 then 1 else maxPoints;
      this.numFrozen := |frozen|;
      this.params, this.searchL, this.metric, this.zero := params, searchL, metric, zero;
      nd, start := 0, if maxPoints == 0 then 1 else maxPoints;
      emptySlots := Interval(0, if maxPoints == 0 then 1 else maxPoints);
      deleteSet, tagToLocation, locationToTag, dataCompacted := {}, map[], map[], true;
      graph := seq((if maxPoints == 0 then 1 else maxPoints) + |frozen|, i => []);
      vectors := seq(if maxPoints == 0 then 1 else maxPoints, i => []) + frozen;
      new;
      FreshValid(this.maxPoints);
    }

    // ---------------------------------------------------------------- slots

    /** reserve_location. */
    method ReserveLocation() returns (ok: bool, location: nat)
      requires View().Valid()
      modifies this`nd, this`emptySlots, this`deleteSet
      ensures ok <==> old(nd) < maxPoints
      ensures ok ==> location in old(emptySlots) && View() == Reserve(old(View()), location)
      ensures !ok ==> View() == old(View())
    {
      if nd >= maxPoints {
        return false, 0;
      }
      if dataCompacted && emptySlots == {} {
        location := nd;
      } else {
        assert emptySlots != {};
        location := AnyOf(emptySlots);
        emptySlots := emptySlots - {location};
        deleteSet := deleteSet - {location};
      }
      nd := nd + 1;
      return true, location;
    }

    /** release_location. */
    method ReleaseLocation(location: nat) returns (ok: bool)
      requires 0 < nd
      modifies this`nd, this`emptySlots
      ensures ok <==> location !in old(emptySlots)
      ensures View() == if ok then Release(old(View()), location) else old(View())
    {
      if location in emptySlots {
        return false;
      }
      emptySlots := emptySlots + {location};
      nd := nd - 1;
      return true;
    }

    /** release_locations, in the order the hash set yields them. */
    method ReleaseLocations(locations: set<nat>) returns (ok: bool)
      requires locations !! emptySlots && |locations| <= nd
      modifies this`nd, this`emptySlots
      ensures emptySlots == old(emptySlots) + locations && nd == old(nd) - |locations|
      ensures ok <==> |emptySlots| + nd == maxPoints
    {
      var rest := locations;
      while rest != {}
        invariant rest <= locations && |rest| <= nd
        invariant emptySlots == old(emptySlots) + (locations - rest)
        invariant nd - |rest| == old(nd) - |locations|
        decreases rest
      {
        var location := AnyOf(rest);
        rest := rest - {location};
        emptySlots := emptySlots + {location};
        nd := nd - 1;
      }
      ok := |emptySlots| + nd == maxPoints;
    }

    /** lazy_delete under its locks. */
    method RemoveTag(tag: int) returns (found: bool)
      modifies this`dataCompacted, this`deleteSet, this`locationToTag, this`tagToLocation
      ensures found <==> tag in old(tagToLocation)
      ensures View() == DeleteTag(old(View()), tag)
    {
      dataCompacted := false;
      if tag !in tagToLocation {
        return false;
      }
      var location := tagToLocation[tag];
      deleteSet := deleteSet + {location};
      locationToTag := locationToTag - {location};
      tagToLocation := tagToLocation - {tag};
      return true;
    }

    /** lazy_delete: the point leaves the tag maps; its location, list and vector stay. */
    method LazyDelete(tag: int) returns (found: bool)
      requires Valid()
      modifies this`dataCompacted, this`deleteSet, this`locationToTag, this`tagToLocation
      ensures Valid()
      ensures found <==> tag in old(tagToLocation)
      ensures View() == IS.Apply(old(View()), IS.LazyDelete(tag)) && PresentNodes() == old(PresentNodes())
      ensures !dataCompacted && tagToLocation == old(tagToLocation) - {tag}
      ensures deleteSet == old(deleteSet) + if found then {old(tagToLocation)[tag]} else {}
      ensures locationToTag == old(locationToTag) - if found then {old(tagToLocation)[tag]} else {}
    {
      DeleteKeepsValid(View(), tag);
      found := RemoveTag(tag);
    }

    // ---------------------------------------------------------------- insertion

    /** The part of insert_point under the tag and delete locks: a slot is reserved, and given back if the tag is in
        use. */
    method ClaimSlot(tag: int) returns (code: InsertCode, location: nat)
      requires View().Valid() && tag != 0
      modifies this`nd, this`emptySlots, this`deleteSet, this`tagToLocation, this`locationToTag
      ensures code == Success <==> InsertAccepted(old(View()), tag)
      ensures code == Success ==> location in old(emptySlots) && View() == Tagged(old(View()), tag, location)
      ensures code != Success ==> code == Failure && View() == old(View())
    {
      var ok;
      ok, location := ReserveLocation();
      if !ok {
        return Failure, location;
      }
      assert old(View()).deleted - {location} == old(View()).deleted;
      if tag in tagToLocation {
        var _ := ReleaseLocation(location);
        assert emptySlots == old(emptySlots);
        return Failure, location;
      }
      tagToLocation := tagToLocation[tag := location];
      locationToTag := locationToTag[location := tag];
      return Success, location;
    }

    /** What a search from or for stored points relies on. */
    ghost predicate Searchable(g: Graph)
      reads this`vectors, this`start
    {
      |g| == |vectors| == maxPoints + numFrozen && 0 < searchL && InRange(g)
        && maxPoints <= start < maxPoints + numFrozen
    }

    /** The candidates for the list of loc on a graph: what the search for its vector expands, without loc itself. */
    ghost function CandidatesFor(g: Graph, loc: nat): set<nat>
      requires Searchable(g) && loc < |g|
      reads this`vectors, this`start
    {
      StartsBelow(start, maxPoints, numFrozen);
      Elems(Search(QueryFor(metric, vectors[loc], g, vectors, searchL),
                   InitIds(start, maxPoints, numFrozen)).expanded) - {loc}
    }

    /** search_for_point_and_prune. */
    method SearchForPointAndPrune(loc: nat) returns (list: seq<nat>)
      requires Searchable(graph) && loc < |graph|
      ensures IsPruneResult(loc, CandidatesFor(graph, loc), params.range, params.maxc, params.alpha, params.saturate,
                            Between(metric, vectors), list)
    {
      var q := QueryFor(metric, vectors[loc], graph, vectors, searchL);
      var initIds := GetInitIds(start, maxPoints, numFrozen);
      StartsBelow(start, maxPoints, numFrozen);
      var best := new NeighborPriorityQueue(searchL);
      var ok, pool := IterateToFixedPoint(q, initIds, false, best);
      SearchReachesFixedPoint(q, initIds);
      PoolFacts(metric, loc, graph, vectors, searchL, Search(q, initIds).expanded);
      var candidates := WithoutLocation(pool, loc);
      StillFrom(loc, pool, candidates, Between(metric, vectors));
      list := PruneNeighbors(loc, candidates, params.range, params.maxc, params.alpha, params.saturate,
                             Between(metric, vectors));
    }

    /** The graph part of insert_point: the vector is stored at the claimed location, and the location is linked. */
    method LinkPoint(loc: nat, point: Vector)
      requires Searchable(graph) && loc < |graph|
      modifies this`graph, this`vectors
      ensures vectors == old(vectors)[loc := point] && Searchable(old(graph))
      ensures LinkedAt(old(graph), graph, loc, CandidatesFor(old(graph), loc), params, Between(metric, vectors))
    {
      vectors := vectors[loc := point];
      var list := SearchForPointAndPrune(loc);
      StartsBelow(start, maxPoints, numFrozen);
      CandidatesBelow(QueryFor(metric, vectors[loc], graph, vectors, searchL), InitIds(start, maxPoints, numFrozen));
      assert forall i :: 0 <= i < |list| ==> list[i] in list;
      graph := InterInsert(graph[loc := list], loc, list, params, Between(metric, vectors));
    }

    /** The candidates are locations that hold a point. */
    lemma CandidatesPresent(g: Graph, loc: nat, nodes: set<nat>)
      requires Searchable(g) && loc < |g| && EdgesWithin(g, nodes) && loc !in nodes
      requires forall x :: maxPoints <= x < maxPoints + numFrozen ==> x in nodes
      ensures CandidatesFor(g, loc) <= nodes && CandidatesFor(g, loc) != {}
    {
      var q := QueryFor(metric, vectors[loc], g, vectors, searchL);
      var starts := InitIds(start, maxPoints, numFrozen);
      StartsBelow(start, maxPoints, numFrozen);
      assert forall i :: 0 <= i < |starts| ==> starts[i] in starts;
      SearchStaysWithin(q, starts, nodes);
      SomeStart(start, maxPoints, numFrozen);
      FirstIsExpanded(q, starts);
      var e := Search(q, starts).expanded;
      assert e[0] in e;
      assert e[0] in CandidatesFor(g, loc);
    }

    /** insert_point, slot and graph. */
    method ClaimAndLink(point: Vector, tag: int) returns (code: InsertCode, loc: nat)
      requires View().Valid() && Searchable(graph) && tag != 0
      modifies this`nd, this`emptySlots, this`deleteSet, this`tagToLocation, this`locationToTag, this`graph,
               this`vectors
      ensures code == Success <==> InsertAccepted(old(View()), tag)
      ensures code != Success ==>
        code == Failure && View() == old(View()) && graph == old(graph) && vectors == old(vectors)
      ensures code == Success ==>
        && loc in old(emptySlots) && View() == Tagged(old(View()), tag, loc)
        && loc < maxPoints && vectors == old(vectors)[loc := point] && Searchable(old(graph))
        && LinkedAt(old(graph), graph, loc, CandidatesFor(old(graph), loc), params, Between(metric, vectors))
    {
      code, loc := ClaimSlot(tag);
      if code == Success {
        LinkPoint(loc, point);
      }
    }

    /** The list of a linked location is pruned from what the search for its vector expanded. */
    lemma OwnListIsPruned(was: Graph, loc: nat)
      requires Searchable(was) && loc < |was| && start == maxPoints
      requires LinkedAt(was, graph, loc, CandidatesFor(was, loc), params, Between(metric, vectors))
      ensures Below(InitIds(maxPoints, maxPoints, numFrozen), |vectors|)
      ensures var expanded := Search(QueryFor(metric, vectors[loc], was, vectors, searchL),
                                     InitIds(maxPoints, maxPoints, numFrozen)).expanded;
        NoDup(graph[loc]) && |graph[loc]| <= params.range && (forall y :: y in graph[loc] ==> y in expanded && y != loc)
        && IsPruneResult(loc, Elems(expanded) - {loc}, params.range, params.maxc, params.alpha, params.saturate,
                         Between(metric, vectors), graph[loc])
    {
      StartsBelow(start, maxPoints, numFrozen);
    }

    /** insert_point with its index kept valid. */
    method InsertKept(point: Vector, tag: int) returns (code: InsertCode, ghost loc: nat)
      requires Valid()
      modifies this`nd, this`emptySlots, this`deleteSet, this`tagToLocation, this`locationToTag, this`graph,
               this`vectors
      ensures Valid()
      ensures code == ReservedTag <==> tag == 0
      ensures code == Success <==> InsertAccepted(old(View()), tag)
      ensures code != Success ==> View() == old(View()) && graph == old(graph) && vectors == old(vectors)
      ensures code == Success ==>
        && loc in old(emptySlots) && View() == Tagged(old(View()), tag, loc)
        && loc < maxPoints && vectors == old(vectors)[loc := point] && Searchable(old(graph))
        && LinkedAt(old(graph), graph, loc, CandidatesFor(old(graph), loc), params, Between(metric, vectors))
      ensures code == Success && 0 < params.range && 0 < params.maxc && params.alpha >= 1.0 ==> graph[loc] != []
    {
      loc := 0;
      if tag == 0 {
        return ReservedTag, loc;
      }
      var location;
      code, location := ClaimAndLink(point, tag);
      loc := location;
      if code == Success {
        LinkedIsValid(old(View()), old(graph), tag, location);
        if 0 < params.range && 0 < params.maxc && params.alpha >= 1.0 {
          LinkedHasNeighbours(old(graph), location, old(PresentNodes()));
        }
      }
    }

    /** The same, with what the new list is pruned from. */
    method InsertLinked(point: Vector, tag: int) returns (code: InsertCode, ghost loc: nat)
      requires Valid()
      modifies this`nd, this`emptySlots, this`deleteSet, this`tagToLocation, this`locationToTag, this`graph,
               this`vectors
      ensures Valid()
      ensures code == ReservedTag <==> tag == 0
      ensures code == Success <==> InsertAccepted(old(View()), tag)
      ensures code != Success ==> View() == old(View()) && graph == old(graph) && vectors == old(vectors)
      ensures code == Success ==>
        IS.Enabled(old(View()), IS.Insert(tag, loc)) && View() == IS.Apply(old(View()), IS.Insert(tag, loc))
      ensures code == Success ==>
        && loc in old(emptySlots) && View() == Tagged(old(View()), tag, loc)
        && loc < maxPoints && vectors == old(vectors)[loc := point] && Searchable(old(graph))
        && LinkedAt(old(graph), graph, loc, CandidatesFor(old(graph), loc), params, Between(metric, vectors))
      ensures code == Success ==>
        && |old(graph)| == |vectors| && InRange(old(graph))
        && Below(InitIds(maxPoints, maxPoints, numFrozen), |vectors|)
        && var expanded := Search(QueryFor(metric, point, old(graph), vectors, searchL),
                                  InitIds(maxPoints, maxPoints, numFrozen)).expanded;
           NoDup(graph[loc]) && |graph[loc]| <= params.range
           && (forall y :: y in graph[loc] ==> y in expanded && y != loc)
           && IsPruneResult(loc, Elems(expanded) - {loc}, params.range, params.maxc, params.alpha, params.saturate,
                            Between(metric, vectors), graph[loc])
      ensures code == Success && 0 < params.range && 0 < params.maxc && params.alpha >= 1.0 ==> graph[loc] != []
    {
      code, loc := InsertKept(point, tag);
      if code == Success {
        InsertIntoEmpty(old(View()), tag, loc);
        OwnListIsPruned(old(graph), loc);
      }
    }

    /** insert_point. */
    method InsertPoint(point: Vector, tag: int) returns (code: InsertCode, ghost loc: nat)
      requires Valid()
      modifies this`nd, this`emptySlots, this`deleteSet, this`tagToLocation, this`locationToTag, this`graph,
               this`vectors
      ensures Valid()
      ensures code == ReservedTag <==> tag == 0
      ensures code == Success <==> tag != 0 && old(nd) < maxPoints && tag !in old(tagToLocation)
      ensures code == Success ==>
        IS.Enabled(old(View()), IS.Insert(tag, loc)) && View() == IS.Apply(old(View()), IS.Insert(tag, loc))
      ensures code != Success ==> View() == old(View()) && graph == old(graph) && vectors == old(vectors)
      ensures code == Success ==>
        && loc in old(emptySlots) && View() == Tagged(old(View()), tag, loc)
        && loc < maxPoints && vectors == old(vectors)[loc := point] && Searchable(old(graph))
        && LinkedAt(old(graph), graph, loc, CandidatesFor(old(graph), loc), params, Between(metric, vectors))
      ensures code == Success && 0 < params.range && 0 < params.maxc && params.alpha >= 1.0 ==> graph[loc] != []
      ensures code == Success ==>
        && tagToLocation == old(tagToLocation)[tag := loc] && locationToTag == old(locationToTag)[loc := tag]
        && emptySlots == old(emptySlots) - {loc} && nd == old(nd) + 1 && deleteSet == old(deleteSet)
      ensures code == Success ==>
        && |old(graph)| == |vectors| && InRange(old(graph))
        && Below(InitIds(maxPoints, maxPoints, numFrozen), |vectors|)
        && var expanded := Search(QueryFor(metric, point, old(graph), vectors, searchL),
                                  InitIds(maxPoints, maxPoints, numFrozen)).expanded;
           NoDup(graph[loc]) && |graph[loc]| <= params.range
           && (forall y :: y in graph[loc] ==> y in expanded && y != loc)
           && IsPruneResult(loc, Elems(expanded) - {loc}, params.range, params.maxc, params.alpha, params.saturate,
                            Between(metric, vectors), graph[loc])
      ensures code == Success ==> forall x :: 0 <= x < |old(graph)| && x != loc ==>
        && (x !in graph[loc] || loc in old(graph)[x] ==> graph[x] == old(graph)[x])
        && (x in graph[loc] && loc !in old(graph)[x] && 10 * (|old(graph)[x]| + 1) <= 13 * params.range ==>
              graph[x] == old(graph)[x] + [loc])
        && (x in graph[loc] && loc !in old(graph)[x] && 10 * (|old(graph)[x]| + 1) > 13 * params.range ==>
              |graph[x]| <= params.range && forall y :: y in graph[x] ==> y in old(graph)[x] || y == loc)
    {
      code, loc := InsertLinked(point, tag);
      if code == Success {
        LinkedMeans(old(graph), graph, loc, CandidatesFor(old(graph), loc), params, Between(metric, vectors));
      }
    }

    /** A successful insertion keeps the index valid. */
    lemma LinkedIsValid(slots: Slots, was: Graph, tag: int, loc: nat)
      requires slots.Valid() && loc in slots.empty && InsertAccepted(slots, tag) && slots.maxPoints == maxPoints
      requires View() == Tagged(slots, tag, loc) && Searchable(was) && maxPoints + numFrozen < INVALID
      requires EdgesWithin(was, Nodes(slots, numFrozen)) && start == maxPoints && FlagOk(slots, was)
      requires LinkedAt(was, graph, loc, CandidatesFor(was, loc), params, Between(metric, vectors))
      ensures Valid()
    {
      var nodes := Nodes(slots, numFrozen);
      InsertIntoEmpty(slots, tag, loc);
      CandidatesPresent(was, loc, nodes);
      LinkedKeepsEdges(was, graph, loc, CandidatesFor(was, loc), params, Between(metric, vectors), nodes);
      NodesNotEmpty(slots, numFrozen);
      LinkedKeepsFlag(slots, tag, was, graph, loc, CandidatesFor(was, loc), params, Between(metric, vectors), nodes);
      TaggedNodes(slots, tag, loc, numFrozen);
    }

    /** The new point has at least one neighbour. */
    lemma LinkedHasNeighbours(was: Graph, loc: nat, nodes: set<nat>)
      requires Searchable(was) && loc < |was| && loc !in nodes && EdgesWithin(was, nodes)
      requires forall x :: maxPoints <= x < maxPoints + numFrozen ==> x in nodes
      requires LinkedAt(was, graph, loc, CandidatesFor(was, loc), params, Between(metric, vectors))
      requires 0 < params.range && 0 < params.maxc && params.alpha >= 1.0
      ensures graph[loc] != []
    {
      CandidatesPresent(was, loc, nodes);
      PruneResultNonEmpty(loc, CandidatesFor(was, loc), params.range, params.maxc, params.alpha, params.saturate,
                          Between(metric, vectors), graph[loc]);
    }

    // ---------------------------------------------------------------- deletion of several tags, consolidation

    method RemoveTags(tags: seq<int>) returns (failed: seq<int>)
      modifies this`dataCompacted, this`deleteSet, this`locationToTag, this`tagToLocation
      ensures View() == DeleteTags(old(View()), tags) && failed == FailedTags(old(View()), tags)
    {
      ghost var s := View();
      dataCompacted := false;
      failed := [];
      for i := 0 to |tags|
        invariant View() == DeleteTags(s, tags[..i]) && failed == FailedTags(s, tags[..i])
      {
        assert tags[..i + 1][..i] == tags[..i];
        var found := RemoveTag(tags[i]);
        if !found {
          failed := failed + [tags[i]];
        }
      }
      assert tags[..|tags|] == tags;
    }

    /** lazy_delete on a list of tags: the ones that are not there, at their turn, are reported. */
    method LazyDeleteAll(tags: seq<int>) returns (failed: seq<int>)
      requires Valid()
      modifies this`dataCompacted, this`deleteSet, this`locationToTag, this`tagToLocation
      ensures Valid()
      ensures View() == DeleteTags(old(View()), tags) && failed == FailedTags(old(View()), tags)
      ensures PresentNodes() == old(PresentNodes()) && !dataCompacted
    {
      DeletesAreSound(View(), tags, numFrozen, searchL, start, graph, |vectors|);
      failed := RemoveTags(tags);
    }

    /** The loops of consolidate_deletes. */
    method RewireGraph(deleted: set<nat>, p: WriteParams, ghost nodes: set<nat>)
      requires InRange(graph) && maxPoints <= |graph| && forall x :: x in deleted ==> x < maxPoints
      requires EdgesWithin(graph, nodes) && deleted <= nodes
      requires nodes - deleted == Turns(|graph|, deleted, emptySlots, maxPoints)
      modifies this`graph
      ensures InRange(graph) && InRange(old(graph))
      ensures Consolidated(old(graph), graph, deleted, nodes - deleted, p, Between(metric, vectors))
      ensures EdgesWithin(graph, nodes - deleted)
    {
      graph := RewireAll(graph, deleted, emptySlots, maxPoints, p, Between(metric, vectors), nodes);
    }

    /** The slots of the taken delete set are handed back. */
    method TakeAndRelease(taken: set<nat>)
      requires taken == deleteSet && deleteSet !! emptySlots && |deleteSet| <= nd
      modifies this`nd, this`emptySlots, this`deleteSet
      ensures View() == HandBack(TakeDeletes(old(View())))
    {
      deleteSet := {};
      var ok := ReleaseLocations(taken);
    }

    /** The consistency checks; the consolidation lock is free. */
    method CheckCounts() returns (a: Admission)
      ensures a == Admit(View())
    {
      if |emptySlots| + nd != maxPoints {
        return CountError;
      }
      if |locationToTag| + |deleteSet| != nd {
        return Inconsistent;
      }
      if |locationToTag| != |tagToLocation| {
        return CountError;
      }
      return Admitted;
    }

    /** The lists of a valid index are rewired; its slots are still the old ones. */
    method RewireValid(p: WriteParams)
      requires Valid()
      modifies this`graph
      ensures |graph| == |old(graph)| && InRange(graph) && EdgesWithin(graph, PresentNodes() - deleteSet)
      ensures InRange(old(graph))
      ensures Consolidated(old(graph), graph, deleteSet, PresentNodes() - deleteSet, p, Between(metric, vectors))
    {
      ConsolidationNodes(View(), numFrozen, |graph|);
      RewireGraph(deleteSet, p, PresentNodes());
    }

    /** The slots of an index whose lists no longer lead to deleted locations are handed back. */
    method ReleaseDeleted() returns (released: nat)
      requires View().Valid()
      modifies this`nd, this`emptySlots, this`deleteSet
      ensures released == |old(deleteSet)| && View() == HandBack(TakeDeletes(old(View())))
    {
      ConsolidationSlots(View());
      released := |deleteSet|;
      TakeAndRelease(deleteSet);
    }

    /** The consolidation proper. */
    method Consolidate(p: WriteParams) returns (released: nat)
      requires Valid()
      modifies this`nd, this`emptySlots, this`deleteSet, this`graph
      ensures released == |old(deleteSet)| && View() == HandBack(TakeDeletes(old(View())))
      ensures |graph| == |old(graph)| && InRange(graph) && EdgesWithin(graph, old(PresentNodes()) - old(deleteSet))
      ensures InRange(old(graph))
      ensures Consolidated(old(graph), graph, old(deleteSet), old(PresentNodes()) - old(deleteSet), p,
                           Between(metric, vectors))
    {
      RewireValid(p);
      ghost var rewired, nodes := graph, PresentNodes() - deleteSet;
      assert View() == old(View()) && nodes == old(PresentNodes()) - old(deleteSet);
      released := ReleaseDeleted();
      assert graph == rewired;
    }

    method ConsolidateIdle(p: WriteParams) returns (r: Report)
      requires Valid()
      modifies this`nd, this`emptySlots, this`deleteSet, this`graph
      ensures Valid()
      ensures r == Report(Admitted, nd, |emptySlots|, |old(deleteSet)|)
      ensures View() == HandBack(TakeDeletes(old(View())))
      ensures PresentNodes() == old(PresentNodes()) - old(deleteSet)
      ensures InRange(old(graph))
      ensures Consolidated(old(graph), graph, old(deleteSet), old(PresentNodes()) - old(deleteSet), p,
                           Between(metric, vectors))
    {
      AdmittedIffIdle(View());
      var status := CheckCounts();
      var released := 0;
      if status == Admitted {
        released := Consolidate(p);
        NodesNotEmpty(old(View()), numFrozen);
        ConsolidatedKeepsFlag(old(View()), old(graph), graph, old(PresentNodes()) - old(deleteSet), p,
                              Between(metric, vectors));
        HandedBackIsSound(old(View()), numFrozen, searchL, start, graph, |vectors|);
      }
      r := Report(status, nd, |emptySlots|, released);
    }

    /** consolidate_deletes. */
    method ConsolidateDeletes(p: WriteParams) returns (r: Report)
      requires Valid()
      modifies this`nd, this`emptySlots, this`deleteSet, this`graph
      ensures Valid()
      ensures r == Report(Admitted, nd, |emptySlots|, |old(deleteSet)|)
      ensures nd == old(nd) - |old(deleteSet)| && emptySlots == old(emptySlots) + old(deleteSet) && deleteSet == {}
      ensures IS.Enabled(old(View()), IS.StartConsolidation)
      ensures View() == IS.Apply(IS.Apply(old(View()), IS.StartConsolidation), IS.EndConsolidation)
      ensures PresentNodes() == old(PresentNodes()) - old(deleteSet)
      ensures InRange(old(graph))
      ensures Consolidated(old(graph), graph, old(deleteSet), old(PresentNodes()) - old(deleteSet), p,
                           Between(metric, vectors))
      ensures BridgesKept(old(graph), graph, old(deleteSet), old(PresentNodes()) - old(deleteSet), p.range)
    {
      AdmittedIffIdle(View());
      ConsolidationSlots(View());
      r := ConsolidateIdle(p);
      AllBridgesStay(old(graph), graph, old(deleteSet), old(PresentNodes()) - old(deleteSet), p,
                     Between(metric, vectors));
    }

    // ---------------------------------------------------------------- search

    /** What search_with_tags answers in the present state. */
    ghost function Answers(point: Vector, K: nat, L: nat, resVectors: nat): seq<(int, real)>
      requires Searchable(graph) && 0 < L
      reads this
    {
      AnswersOf(metric, graph, vectors, start, maxPoints, numFrozen, locationToTag, point, K, L, resVectors)
    }

    /** What a search can reach at all. */
    ghost function Reached(point: Vector, L: nat): set<nat>
      requires Searchable(graph) && 0 < L
      reads this
    {
      Reach(QueryFor(metric, point, graph, vectors, L), InitIds(start, maxPoints, numFrozen))
    }

    /** search_with_tags: only tags of present points are answered, so never one that has been deleted; and if L is at
        least the number of reachable nodes, the answers are the nearest of all reachable points that carry a tag. */
    method Lookup(point: Vector, K: nat, L: nat, resVectors: nat) returns (r: Outcome<seq<(int, real)>>)
      requires Valid() && (K == 0 ==> 0 < L)
      ensures K > L ==> r == Refused
      ensures K <= L ==> r == Answer(Answers(point, K, L, resVectors))
      ensures K <= L ==> forall i :: 0 <= i < |r.value| ==>
        r.value[i].0 in tagToLocation && tagToLocation[r.value[i].0] < |vectors|
        && r.value[i].1 == metric(point, vectors[tagToLocation[r.value[i].0]])
      ensures K <= L ==> forall i, j :: 0 <= i < j < |r.value| ==>
        r.value[i].1 < r.value[j].1
        || (r.value[i].1 == r.value[j].1 && tagToLocation[r.value[i].0] < tagToLocation[r.value[j].0])
      ensures 0 < K <= L ==> |r.value| <= K
      ensures K <= L && 0 < resVectors ==> |r.value| <= resVectors
      ensures 0 < K <= L && |Reached(point, L)| <= L ==>
        forall x :: x in Reached(point, L) && x in locationToTag && !Names(r.value, locationToTag[x]) ==>
          && x < |vectors| && |r.value| == (if 0 < resVectors < K then resVectors else K)
          && forall i :: 0 <= i < |r.value| ==>
               r.value[i].1 < metric(point, vectors[x])
               || (r.value[i].1 == metric(point, vectors[x]) && tagToLocation[r.value[i].0] < x)
    {
      if K > L {
        return Refused;
      }
      var initIds := GetInitIds(start, maxPoints, numFrozen);
      StartsBelow(start, maxPoints, numFrozen);
      var q := QueryFor(metric, point, graph, vectors, L);
      r := SearchWithTags(q, K, resVectors, initIds, locationToTag);
      if Below(initIds, |q.dist|) { AnswersInOrder(q, initIds, K, resVectors, View()); }
    }

    // ---------------------------------------------------------------- compaction

    /** The live points fill the first slots, and the slots behind them hold no lists. */
    ghost predicate Dense()
      reads this`nd, this`emptySlots, this`graph
    {
      emptySlots == Interval(nd, maxPoints) && forall p :: nd <= p < maxPoints && p < |graph| ==> graph[p] == []
    }

    method RefillEmptySlots()
      requires nd <= maxPoints
      modifies this`emptySlots
      ensures emptySlots == Interval(nd, maxPoints)
    {
      emptySlots := {};
      for i := nd to maxPoints
        invariant emptySlots == Interval(nd, i)
      {
        emptySlots := emptySlots + {i};
      }
    }

    /** compact_data on lists and vectors. */
    method RenumberLists() returns (newLocation: seq<nat>)
      requires Valid() && deleteSet == {}
      modifies this`graph, this`vectors
      ensures |graph| == |old(graph)| == |newLocation| && Assigned(newLocation, locationToTag.Keys, maxPoints)
      ensures Renamed(Renaming(locationToTag.Keys, maxPoints, |graph|), old(graph), old(vectors), graph, vectors)
      ensures forall p, y :: 0 <= p < |graph| && y in graph[p] ==> (y < nd || maxPoints <= y < |graph|)
      ensures forall p :: nd <= p < maxPoints && p < |graph| ==> graph[p] == []
    {
      LiveCount(View());
      PresentEdges(View(), numFrozen, graph);
      graph, vectors, newLocation := CompactPresent(locationToTag, nd, maxPoints, graph, vectors);
    }

    /** compact_data on tags and slots. */
    method RenumberSlots(newLocation: seq<nat>)
      requires View().Valid() && deleteSet == {}
      requires maxPoints <= |newLocation| && Assigned(newLocation, locationToTag.Keys, maxPoints)
      modifies this`tagToLocation, this`locationToTag, this`emptySlots, this`dataCompacted
      ensures SlotsCompacted(old(View()), View())
    {
      LiveCount(View());
      tagToLocation, locationToTag := MoveTags(View(), locationToTag, maxPoints, newLocation);
      RefillEmptySlots();
      dataCompacted := true;
    }

    method Renumber()
      requires Valid() && deleteSet == {}
      modifies this`graph, this`vectors, this`tagToLocation, this`locationToTag, this`emptySlots, this`dataCompacted
      ensures Valid() && SlotsCompacted(old(View()), View()) && |graph| == |old(graph)|
      ensures Renamed(Renaming(old(locationToTag).Keys, maxPoints, |graph|), old(graph), old(vectors), graph, vectors)
      ensures forall p :: nd <= p < maxPoints && p < |graph| ==> graph[p] == []
    {
      var newLocation := RenumberLists();
      RenumberSlots(newLocation);
      RenumberedIsSound(old(View()), View(), numFrozen, searchL, start, old(graph), graph, |vectors|);
    }

    /** compact_data: afterwards every query, for every K and L, gets the answer it got before. */
    method CompactData() returns (code: CompactCode)
      requires Valid()
      modifies this`graph, this`vectors, this`tagToLocation, this`locationToTag, this`emptySlots, this`dataCompacted
      ensures Valid()
      ensures code == if old(dataCompacted) then AlreadyCompact else if deleteSet != {} then DeletesPending else Done
      ensures code != Done ==> View() == old(View()) && graph == old(graph) && vectors == old(vectors)
      ensures code == Done ==> SlotsCompacted(old(View()), View())
      ensures code == Done ==>
        Renamed(Renaming(old(locationToTag).Keys, maxPoints, |graph|), old(graph), old(vectors), graph, vectors)
      ensures code == Done ==> Dense()
      ensures Searchable(old(graph)) && Searchable(graph)
      ensures forall point, K, L, resVectors :: 0 < L ==>
        Answers(point, K, L, resVectors) == old(Answers(point, K, L, resVectors))
    {
      if dataCompacted {
        code := AlreadyCompact;
      } else if deleteSet != {} {
        code := DeletesPending;
      } else if start < maxPoints && start !in locationToTag {
        code := StartDeleted;
      } else {
        Renumber();
        code := Done;
        forall point, K, L, resVectors | 0 < L
          ensures Answers(point, K, L, resVectors) == old(Answers(point, K, L, resVectors))
        {
          CompactionKeepsAnswers(old(View()), View(), numFrozen, start, old(graph), old(vectors), graph, vectors,
                                 metric, point, K, L, resVectors);
        }
      }
    }

    // ---------------------------------------------------------------- saving

    ghost function Held(): Content
      reads this`graph, this`vectors, this`start, this`locationToTag
    {
      Content(graph, vectors, start, maxPoints, locationToTag)
    }

    ghost function FrozenMove(): Move
      reads this`nd
    {
      Move(maxPoints, nd, numFrozen)
    }

    /** compact_frozen_point; on a full index or without frozen points the move is the identity. clean tells whether the
        assertions held: whether the slots the points move to hold no lists. */
    method CompactFrozenPoint() returns (clean: bool)
      requires nd <= maxPoints && |graph| == |vectors| == maxPoints + numFrozen < INVALID
      modifies this`graph, this`vectors, this`start
      ensures GraphMoved(FrozenMove(), old(graph), graph) && VectorsMoved(FrozenMove(), old(vectors), vectors, zero)
      ensures start == if nd < maxPoints && 0 < numFrozen then nd else old(start)
      ensures clean <==> TargetEmpty(FrozenMove(), old(graph))
    {
      clean := true;
      if nd < maxPoints && numFrozen > 0 {
        graph, vectors, clean := RepositionPoints(graph, vectors, Move(maxPoints, nd, numFrozen), zero);
        start := nd;
      } else {
        NothingMoves(FrozenMove(), graph, vectors, zero);
      }
    }

    /** reposition_frozen_point_to_end. */
    method RepositionFrozenPointToEnd() returns (clean: bool)
      requires nd <= maxPoints && |graph| == |vectors| == maxPoints + numFrozen < INVALID
      modifies this`graph, this`vectors, this`start
      ensures GraphMoved(FrozenMove().Back(), old(graph), graph)
        && VectorsMoved(FrozenMove().Back(), old(vectors), vectors, zero)
      ensures start == if nd < maxPoints && 0 < numFrozen then maxPoints else old(start)
      ensures clean <==> TargetEmpty(FrozenMove().Back(), old(graph))
    {
      clean := true;
      if numFrozen == 0 || nd == maxPoints {
        NothingMoves(FrozenMove().Back(), graph, vectors, zero);
      } else {
        graph, vectors, clean := RepositionPoints(graph, vectors, Move(nd, maxPoints, numFrozen), zero);
        start := maxPoints;
      }
    }

    /** save_tags. */
    method SaveTags() returns (tags: seq<int>)
      ensures TagsOfFirst(tags, nd, numFrozen, locationToTag)
    {
      tags := [];
      for x := 0 to nd
        invariant |tags| == x
        invariant forall y {:trigger tags[y]} :: 0 <= y < x ==>
          tags[y] == if y in locationToTag then locationToTag[y] else 0
      {
        tags := tags + [if x in locationToTag then locationToTag[x] else 0];
      }
      tags := tags + seq(numFrozen, i => 0);
    }

    /** The frozen points move next to the live ones, the files are written, and the frozen points move back. */
    method WriteAndMoveBack() returns (files: Files, clean: bool, ghost there: Graph, ghost thereVectors: seq<Vector>)
      requires nd <= maxPoints && |graph| == |vectors| == maxPoints + numFrozen < INVALID
      requires start == maxPoints && 0 < numFrozen
      modifies this`graph, this`vectors, this`start
      ensures GraphMoved(FrozenMove(), old(graph), there)
        && VectorsMoved(FrozenMove(), old(vectors), thereVectors, zero)
      ensures files.graph == there[..nd + numFrozen] && files.vectors == thereVectors[..nd + numFrozen]
      ensures files.start == nd && TagsOfFirst(files.tags, nd, numFrozen, locationToTag)
      ensures Rerouted(FrozenMove(), old(graph), graph) && start == old(start) && |vectors| == |old(vectors)|
      ensures forall x :: 0 <= x < |vectors| ==>
        vectors[x] == if nd <= x < nd + numFrozen && x < maxPoints then zero else old(vectors)[x]
      ensures clean <==> TargetEmpty(FrozenMove(), old(graph))
    {
      clean := CompactFrozenPoint();
      there, thereVectors := graph, vectors;
      var tags := SaveTags();
      files := Files(graph[..nd + numFrozen], vectors[..nd + numFrozen], start, tags);
      var cleanBack := RepositionFrozenPointToEnd();
      ThereAndBack(FrozenMove(), old(graph), there, graph, old(vectors), thereVectors, vectors, zero);
      clean := clean && cleanBack;
    }

    /** The part of save after compaction, on an index that takes itself for compact. */
    method WriteFiles() returns (files: Files, clean: bool, ghost there: Graph, ghost thereVectors: seq<Vector>)
      requires Valid() && dataCompacted
      modifies this`graph, this`vectors, this`start
      ensures Valid() && start == old(start)
      ensures (forall t :: t in tagToLocation ==> t in files.tags) <==> locationToTag.Keys == Interval(0, nd)
      ensures TagsOfFirst(files.tags, nd, numFrozen, locationToTag)
      ensures locationToTag.Keys == Interval(0, nd) ==> TagsIn(files.tags) == locationToTag
      ensures clean <==> TargetEmpty(FrozenMove(), old(graph))
      ensures emptySlots == Interval(nd, maxPoints) <==> locationToTag.Keys == Interval(0, nd)
      ensures GraphMoved(FrozenMove(), old(graph), there)
        && VectorsMoved(FrozenMove(), old(vectors), thereVectors, zero)
      ensures files.graph == there[..nd + numFrozen] && files.vectors == thereVectors[..nd + numFrozen]
        && files.start == nd
      ensures Rerouted(FrozenMove(), old(graph), graph) && |vectors| == |old(vectors)|
      ensures forall x :: 0 <= x < |vectors| && !(nd <= x < maxPoints) ==> vectors[x] == old(vectors)[x]
    {
      ghost var was, s := graph, View();
      LiveCount(s);
      FirstSlotsFilled(s);
      files, clean, there, thereVectors := WriteAndMoveBack();
      WrittenIffFirst(s, numFrozen, files.tags);
      ReroutedIsSound(s, numFrozen, searchL, start, was, graph, |vectors|);
      assert View() == s;
    }

    /** The same, with what it means for queries: if the points do fill the first slots, nothing is lost. */
    method WriteCompact() returns (files: Files, clean: bool)
      requires Valid() && dataCompacted
      modifies this`graph, this`vectors, this`start
      ensures Valid()
      ensures (forall t :: t in tagToLocation ==> t in files.tags) <==> locationToTag.Keys == Interval(0, nd)
      ensures TagsOfFirst(files.tags, nd, numFrozen, locationToTag)
      ensures clean <==> TargetEmpty(FrozenMove(), old(graph))
      ensures locationToTag.Keys == Interval(0, nd) ==>
        && clean && Dense() && TagsIn(files.tags) == locationToTag
        && AnswerAlike(metric, numFrozen, FileContent(files, nd), old(Held()))
        && AnswerAlike(metric, numFrozen, Held(), old(Held()))
    {
      ghost var was, vecs, s, before := graph, vectors, View(), Held();
      ghost var there, thereVectors;
      files, clean, there, thereVectors := WriteFiles();
      if emptySlots == Interval(nd, maxPoints) {
        assert before == Content(was, vecs, s.maxPoints, s.maxPoints, s.locationToTag);
        assert Held() == Content(graph, vectors, s.maxPoints, s.maxPoints, s.locationToTag);
        FilesAlike(s, numFrozen, searchL, was, vecs, graph, vectors, there, thereVectors, zero, metric, files);
      }
    }

    /** Compaction as save calls it. */
    method CompactBeforeSave()
      requires Valid()
      modifies this`graph, this`vectors, this`tagToLocation, this`locationToTag, this`emptySlots, this`dataCompacted
      ensures Valid() && tagToLocation.Keys == old(tagToLocation).Keys
      ensures deleteSet != {} || old(dataCompacted) ==>
        View() == old(View()) && graph == old(graph) && vectors == old(vectors)
      ensures deleteSet == {} ==>
        dataCompacted && (locationToTag.Keys == Interval(0, nd) <==> Compactable(old(View())))
      ensures AnswerAlike(metric, numFrozen, Held(), old(Held()))
    {
      ghost var s, before := View(), Held();
      var code := CompactData();
      if code == Done { CompactedSlotsValid(s, View()); }
      ghost var after := Held();
      assert AnswerAlike(metric, numFrozen, after, before) by {
        forall point, K, L, resVectors | 0 < L
          ensures AnswersOf(metric, after.graph, after.vectors, maxPoints, maxPoints, numFrozen, after.tags, point, K,
                            L,
                            resVectors)
            == AnswersOf(metric, before.graph, before.vectors, maxPoints, maxPoints, numFrozen, before.tags, point, K,
                         L,
                         resVectors)
        {
          assert Answers(point, K, L, resVectors) == old(Answers(point, K, L, resVectors));
        }
      }
    }

    /** The same after compaction, compared with the index before it. */
    method WriteCompacted(ghost before: Content, ghost fits: bool, ghost slots: Slots, ghost was: Graph)
      returns (files: Files, clean: bool)
      requires Valid() && dataCompacted && AnswerAlike(metric, numFrozen, Held(), before)
      requires fits <==> locationToTag.Keys == Interval(0, nd)
      requires !fits ==> View() == slots && graph == was
      modifies this`graph, this`vectors, this`start
      ensures Valid()
      ensures AllWritten(tagToLocation, files.tags) <==> fits
      ensures TagsOfFirst(files.tags, nd, numFrozen, locationToTag)
      ensures fits ==>
        && clean && Dense() && TagsIn(files.tags) == locationToTag
        && AnswerAlike(metric, numFrozen, FileContent(files, nd), before)
        && AnswerAlike(metric, numFrozen, Held(), before)
      ensures !fits ==> View() == slots && (clean <==> TargetEmpty(FrozenMove(), was))
    {
      ghost var between := Held();
      files, clean := WriteCompact();
      if fits {
        AlikeTwice(metric, numFrozen, FileContent(files, nd), between, before);
        AlikeTwice(metric, numFrozen, Held(), between, before);
      }
    }

    method SaveFiles(ghost before: Content, ghost fits: bool) returns (saved: bool, clean: bool, files: Files)
      requires Valid() && before == Held() && fits == Compactable(View())
      modifies this`graph, this`vectors, this`start, this`tagToLocation, this`locationToTag, this`emptySlots,
               this`dataCompacted
      ensures Valid() && tagToLocation.Keys == old(tagToLocation).Keys
      ensures saved <==> old(deleteSet) == {}
      ensures !saved ==> View() == old(View()) && graph == old(graph) && vectors == old(vectors)
      ensures saved ==> (AllWritten(tagToLocation, files.tags) <==> fits)
      ensures saved ==> TagsOfFirst(files.tags, nd, numFrozen, locationToTag)
      ensures saved && fits ==>
        && clean && Dense() && TagsIn(files.tags) == locationToTag
        && AnswerAlike(metric, numFrozen, FileContent(files, nd), before)
        && AnswerAlike(metric, numFrozen, Held(), before)
      ensures saved && !fits ==> View() == old(View()) && (clean <==> TargetEmpty(FrozenMove(), old(graph)))
    {
      saved, clean, files := deleteSet == {}, true, Files([], [], 0, []);
      CompactBeforeSave();
      if saved {
        files, clean := WriteCompacted(before, fits, old(View()), old(graph));
      }
    }

    /** save with compaction. Files are written unless deletions are pending. All tags get into them exactly when
        compaction was still due or the points filled the first slots anyway; then every query on the files, and on the
        index afterwards, gets the answer it got before. Otherwise a point is left out. */
    method Save() returns (saved: bool, clean: bool, files: Files)
      requires Valid()
      modifies this`graph, this`vectors, this`start, this`tagToLocation, this`locationToTag, this`emptySlots,
               this`dataCompacted
      ensures Valid() && tagToLocation.Keys == old(tagToLocation).Keys
      ensures saved <==> deleteSet == {}
      ensures !saved ==> View() == old(View()) && graph == old(graph) && vectors == old(vectors)
      ensures saved ==> ((forall t :: t in tagToLocation ==> t in files.tags) <==> Compactable(old(View())))
      ensures saved ==> |files.tags| == nd + numFrozen && forall x :: 0 <= x < |files.tags| ==>
        files.tags[x] == if x < nd && x in locationToTag then locationToTag[x] else 0
      ensures saved && Compactable(old(View())) ==>
        && clean && Dense() && TagsIn(files.tags) == locationToTag
        && AnswerAlike(metric, numFrozen, FileContent(files, nd), old(Held()))
        && AnswerAlike(metric, numFrozen, Held(), old(Held()))
      ensures saved && !Compactable(old(View())) ==>
        View() == old(View()) && (clean <==> TargetEmpty(FrozenMove(), old(graph)))
    {
      saved, clean, files := SaveFiles(Held(), Compactable(View()));
    }
  }

  /** The shortest run that loses a point: one insertion into a fresh index with two slots, and save. The point is in
      the files exactly if the reservation picked the first slot. */
  method SaveAfterOneInsertion(index: Index, point: Vector) returns (files: Files, clean: bool, ghost loc: nat)
    requires index.Valid() && index.View() == FreshSlots(2)
    modifies index
    ensures index.Valid() && loc < 2 && index.tagToLocation.Keys == {7}
    ensures 7 in files.tags <==> loc == 0
  {
    var code;
    code, loc := index.InsertPoint(point, 7);
    OneOfTwoSlots(loc);
    var saved;
    saved, clean, files := index.Save();
    assert 7 in index.tagToLocation.Keys && forall t :: t in index.tagToLocation.Keys ==> t == 7;
  }
}
