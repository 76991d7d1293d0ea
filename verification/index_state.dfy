/** The state of the dynamic index, and what its operations do to it, on values. */
module IndexState {
  import opened Collections
  import opened NeighborQueue
  import opened GraphSearch
  import opened SearchAnswers
  import opened SearchRenaming
  import opened Occlusion
  import opened Pruning
  import opened Linking
  import opened IndexSlots
  import opened Consolidation
  import opened Compaction
  import opened SlotCompaction
  import opened Reposition

  /** Distances between stored points. */
  function Between(metric: (Vector, Vector) -> real, vectors: seq<Vector>): (D: Metric)
    ensures forall i: nat, j: nat :: i < |vectors| && j < |vectors| ==> D(i, j) == metric(vectors[i], vectors[j])
  {
    (i: nat, j: nat) => if i < |vectors| && j < |vectors| then metric(vectors[i], vectors[j]) else 0.0
  }

  /** A search never leaves a set of nodes that holds its starts and is closed under edges. */
  lemma SearchStaysWithin(q: Query, starts: seq<nat>, nodes: set<nat>)
    requires q.Valid() && Below(starts, |q.dist|) && EdgesWithin(q.graph, nodes)
    requires forall i :: 0 <= i < |starts| ==> starts[i] in nodes
    ensures forall x :: x in Search(q, starts).expanded ==> x in nodes && x < |q.graph|
    ensures forall x :: x in starts && x in q.allowed ==> x in Search(q, starts).visited
  {
    var s := StartState(q, starts);
    StartKeepsInv(q, starts);
    forall x | x in s.visited ensures x in Reach(q, starts) { assert Walk(q, starts, [x]); }
    RunStaysReachable(q, starts, s);
    SearchReachesFixedPoint(q, starts);
    forall x, y | x in nodes && x < |q.graph| && y in q.graph[x] && y in q.allowed ensures y in nodes {
      assert EdgesFrom(q.graph, nodes, x);
    }
    assert forall i :: 0 <= i < |starts| ==> starts[i] in starts;
    forall x | x in Reach(q, starts) ensures x in nodes {
      var w :| Walk(q, starts, w) && w[|w| - 1] == x;
      ClosedHoldsWalk(q, starts, nodes, w);
    }
  }

  /** The graph after a point has been linked at loc: its own list is pruned from what the search expanded, the nodes on
      that list get an edge back, and nothing else changes. */
  ghost predicate LinkedAt(was: Graph, now: Graph, loc: nat, candidates: set<nat>, p: WriteParams, D: Metric) {
    && |now| == |was| && loc < |was|
    && IsPruneResult(loc, candidates, p.range, p.maxc, p.alpha, p.saturate, D, now[loc])
    && forall x {:trigger NeighbourLinked(was, now, loc, p, D, x)} :: 0 <= x < |was| && x != loc ==>
         NeighbourLinked(was, now, loc, p, D, x)
  }

  ghost predicate NeighbourLinked(was: Graph, now: Graph, loc: nat, p: WriteParams, D: Metric, x: nat)
    requires |now| == |was| && loc < |was| && x < |was|
  {
    if x in now[loc] then LinkedTo(x, was[x], loc, p, D, now[x]) else now[x] == was[x]
  }

  /** In full: the own list has candidates only and fits the range; its members keep their list if the new node is on
      it, get it appended while they have room, and else are pruned; all other lists stay. */
  lemma LinkedMeans(was: Graph, now: Graph, loc: nat, candidates: set<nat>, p: WriteParams, D: Metric)
    requires LinkedAt(was, now, loc, candidates, p, D)
    ensures NoDup(now[loc]) && |now[loc]| <= p.range && forall y :: y in now[loc] ==> y in candidates && y != loc
    ensures forall x :: 0 <= x < |was| && x != loc ==>
      && (x !in now[loc] || loc in was[x] ==> now[x] == was[x])
      && (x in now[loc] && loc !in was[x] && 10 * (|was[x]| + 1) <= 13 * p.range ==> now[x] == was[x] + [loc])
      && (x in now[loc] && loc !in was[x] && 10 * (|was[x]| + 1) > 13 * p.range ==>
            |now[x]| <= p.range && NoDup(now[x]) && x !in now[x] && forall y :: y in now[x] ==> y in was[x] || y == loc)
  {
    forall x | 0 <= x < |was| && x != loc
      ensures if x in now[loc] then LinkedTo(x, was[x], loc, p, D, now[x]) else now[x] == was[x]
    {
      assert NeighbourLinked(was, now, loc, p, D, x);
    }
  }

  lemma LinkedKeepsEdges(was: Graph, now: Graph, loc: nat, candidates: set<nat>, p: WriteParams, D: Metric,
                         nodes: set<nat>)
    requires InRange(was) && LinkedAt(was, now, loc, candidates, p, D) && EdgesWithin(was, nodes) && candidates <= nodes
    ensures InRange(now) && EdgesWithin(now, nodes + {loc})
  {
    assert forall x :: x in nodes ==> EdgesFrom(was, nodes, x);
    forall x | 0 <= x < |was|
      ensures Below(now[x], |was|) && (x in nodes + {loc} ==> EdgesFrom(now, nodes + {loc}, x)) {
      if x == loc {
        BelowByMembers(now[x], |was|, nodes + {loc});
      } else {
        assert NeighbourLinked(was, now, loc, p, D, x);
        if x in now[loc] { LinkedListWithin(x, was[x], loc, p, D, now[x], |was|); }
        assert x in nodes ==> EdgesFrom(was, nodes, x);
      }
    }
  }

  /** An insertion leaves the lists of the other empty slots alone. */
  lemma LinkedKeepsFlag(s: Slots, tag: int, was: Graph, now: Graph, loc: nat, candidates: set<nat>, p: WriteParams,
                        D: Metric, nodes: set<nat>)
    requires FlagOk(s, was) && LinkedAt(was, now, loc, candidates, p, D) && candidates <= nodes && nodes !! s.empty
    ensures FlagOk(Tagged(s, tag, loc), now)
  {
    forall x | s.compacted && x in s.empty && x != loc && x < |now| ensures now[x] == [] {
      assert NeighbourLinked(was, now, loc, p, D, x);
    }
  }

  /** So does a consolidation. */
  lemma ConsolidatedKeepsFlag(s: Slots, was: Graph, now: Graph, scope: set<nat>, p: WriteParams, D: Metric)
    requires FlagOk(s, was) && InRange(was) && Consolidated(was, now, s.deleted, scope, p, D) && scope !! s.empty
    ensures FlagOk(s, now)
  {
    forall x | s.compacted && x in s.empty && x < |now| ensures now[x] == [] {
      assert ResultAt(was, now, s.deleted, scope, p, D, x);
    }
  }

  lemma NodesNotEmpty(s: Slots, numFrozen: nat)
    requires s.Valid()
    ensures Nodes(s, numFrozen) !! s.empty
  {
  }

  lemma BelowByMembers(list: seq<nat>, n: nat, ids: set<nat>)
    requires forall x :: x in list ==> x in ids
    requires forall x :: x in ids ==> x < n
    ensures Below(list, n)
  {
    assert forall i :: 0 <= i < |list| ==> list[i] in list;
  }

  lemma LinkedListWithin(des: nat, was: seq<nat>, n: nat, p: WriteParams, D: Metric, now: seq<nat>, total: nat)
    requires LinkedTo(des, was, n, p, D, now) && Below(was, total) && n < total
    ensures Below(now, total) && forall y :: y in now ==> y in was || y == n
  {
    assert forall i :: 0 <= i < |now| ==> now[i] in now;
  }

  /** The locations that hold a point: tagged, deleted but not reclaimed, frozen. */
  ghost function Nodes(s: Slots, numFrozen: nat): set<nat> {
    s.Occupied() + Interval(s.maxPoints, s.maxPoints + numFrozen)
  }

  /** While the compacted flag is up nothing has been deleted, and the empty slots hold no lists. */
  ghost predicate FlagOk(s: Slots, graph: Graph) {
    s.compacted ==> s.deleted == {} && forall x :: x in s.empty && x < |graph| ==> graph[x] == []
  }

  /** Slots, lists and vectors fit together; no list leads to a location that holds no point. */
  ghost predicate Sound(s: Slots, numFrozen: nat, searchL: nat, start: nat, graph: Graph, vectors: nat) {
    && s.Valid()
    && 0 < numFrozen && s.maxPoints + numFrozen < INVALID && 0 < searchL
    && start == s.maxPoints && FlagOk(s, graph)
    && |graph| == vectors == s.maxPoints + numFrozen
    && InRange(graph) && EdgesWithin(graph, Nodes(s, numFrozen))
  }

  /** Lists, vectors and start make an index that can be queried. */
  ghost predicate Queryable(graph: Graph, vectors: seq<Vector>, start: nat, maxPoints: nat, numFrozen: nat) {
    InRange(graph) && |graph| == |vectors| == maxPoints + numFrozen && start < maxPoints + numFrozen
  }

  /** What search_with_tags answers. */
  ghost function AnswersOf(metric: (Vector, Vector) -> real, graph: Graph, vectors: seq<Vector>, start: nat,
                           maxPoints: nat, numFrozen: nat, tags: map<nat, int>, point: Vector,
                           K: nat, L: nat, resVectors: nat): seq<(int, real)>
    requires Queryable(graph, vectors, start, maxPoints, numFrozen) && 0 < L
  {
    StartsBelow(start, maxPoints, numFrozen);
    TagResult(QueryFor(metric, point, graph, vectors, L), InitIds(start, maxPoints, numFrozen), K, resVectors, tags)
  }

  ghost predicate Names(answers: seq<(int, real)>, tag: int) {
    exists i :: 0 <= i < |answers| && answers[i].0 == tag
  }

  /** Answers name present tags, nearest first; with a complete list, a tag that is not named is farther than all. */
  lemma AnswersInOrder(q: Query, starts: seq<nat>, K: nat, resVectors: nat, s: Slots)
    requires q.Valid() && Below(starts, |q.dist|) && s.MutuallyInverse()
    ensures var r := TagResult(q, starts, K, resVectors, s.locationToTag);
      && (forall i :: 0 <= i < |r| ==>
            && r[i].0 in s.tagToLocation && s.tagToLocation[r[i].0] < |q.dist|
            && r[i].1 == q.dist[s.tagToLocation[r[i].0]])
      && (forall i, j :: 0 <= i < j < |r| ==>
            r[i].1 < r[j].1 || (r[i].1 == r[j].1 && s.tagToLocation[r[i].0] < s.tagToLocation[r[j].0]))
      && (0 < K ==> |r| <= K) && (0 < resVectors ==> |r| <= resVectors)
      && (0 < K && |Reach(q, starts)| <= q.L ==>
            forall x :: x in Reach(q, starts) && x in s.locationToTag && !Names(r, s.locationToTag[x]) ==>
              && x < |q.dist| && |r| == (if 0 < resVectors < K then resVectors else K)
              && forall i :: 0 <= i < |r| ==>
                   r[i].1 < q.dist[x] || (r[i].1 == q.dist[x] && s.tagToLocation[r[i].0] < x))
  {
    var r := TagResult(q, starts, K, resVectors, s.locationToTag);
    var nearest := AnswersCome(q, starts, K, resVectors, s.locationToTag);
    forall i | 0 <= i < |r| ensures r[i].0 in s.tagToLocation && s.tagToLocation[r[i].0] == nearest[i].id { }
    if 0 < K && |Reach(q, starts)| <= q.L {
      forall x | x in Reach(q, starts) && x in s.locationToTag && !Names(r, s.locationToTag[x])
        ensures x !in Ids(nearest)
      {
        forall i | 0 <= i < |nearest| ensures nearest[i].id != x { assert r[i].0 == s.locationToTag[nearest[i].id]; }
      }
    }
  }

  /** Lists and vectors with their tags, and where a search starts. */
  datatype Content = Content(graph: Graph, vectors: seq<Vector>, start: nat, maxPoints: nat, tags: map<nat, int>)

  /** Two contents give the same answers to every query. */
  ghost predicate AnswerAlike(metric: (Vector, Vector) -> real, numFrozen: nat, a: Content, b: Content) {
    && Queryable(a.graph, a.vectors, a.start, a.maxPoints, numFrozen)
    && Queryable(b.graph, b.vectors, b.start, b.maxPoints, numFrozen)
    && forall point, K, L, resVectors :: 0 < L ==>
         AnswersOf(metric, a.graph, a.vectors, a.start, a.maxPoints, numFrozen, a.tags, point, K, L, resVectors)
           == AnswersOf(metric, b.graph, b.vectors, b.start, b.maxPoints, numFrozen, b.tags, point, K, L, resVectors)
  }

  lemma AlikeTwice(metric: (Vector, Vector) -> real, numFrozen: nat, a: Content, b: Content, c: Content)
    requires AnswerAlike(metric, numFrozen, a, b) && AnswerAlike(metric, numFrozen, b, c)
    ensures AnswerAlike(metric, numFrozen, a, c)
  {
  }

  // ------------------------------------------------------------------ saving

  /** What is written: lists, vectors, where the search starts, and for every location its tag, or 0. */
  datatype Files = Files(graph: Graph, vectors: seq<Vector>, start: nat, tags: seq<int>)

  /** What an index loaded from files with nd points would hold. */
  ghost function FileContent(files: Files, nd: nat): Content {
    Content(files.graph, files.vectors, files.start, nd, TagsIn(files.tags))
  }

  function TagsIn(tags: seq<int>): map<nat, int> {
    map x: nat | x < |tags| && tags[x] != 0 :: tags[x]
  }

  /** save_tags: the tags of the first nd locations, zeros for the frozen points. */
  ghost predicate TagsOfFirst(tags: seq<int>, nd: nat, numFrozen: nat, locationToTag: map<nat, int>) {
    |tags| == nd + numFrozen && forall x {:trigger tags[x]} :: 0 <= x < |tags| ==>
      tags[x] == if x < nd && x in locationToTag then locationToTag[x] else 0
  }

  ghost predicate AllWritten(tagToLocation: map<int, nat>, tags: seq<int>) {
    forall t :: t in tagToLocation ==> t in tags
  }

  /** All tags are written exactly when the live points fill the first slots. */
  lemma WrittenIffFirst(s: Slots, numFrozen: nat, tags: seq<int>)
    requires s.Valid() && s.deleted == {} && s.pending == {} && TagsOfFirst(tags, s.nd, numFrozen, s.locationToTag)
    ensures (forall t :: t in s.tagToLocation ==> t in tags) <==> s.locationToTag.Keys == Interval(0, s.nd)
    ensures s.locationToTag.Keys == Interval(0, s.nd) ==> TagsIn(tags) == s.locationToTag
  {
    LiveCount(s);
    if forall t :: t in s.tagToLocation ==> t in tags {
      forall x | x in s.locationToTag ensures x < s.nd {
        var i :| 0 <= i < |tags| && tags[i] == s.locationToTag[x];
        assert s.tagToLocation[s.locationToTag[x]] == x && s.locationToTag[x] != 0;
        assert s.tagToLocation[s.locationToTag[i]] == i;
      }
      IntervalSize(0, s.nd);
      SubsetSize(s.locationToTag.Keys, Interval(0, s.nd));
    }
    if s.locationToTag.Keys == Interval(0, s.nd) {
      forall t | t in s.tagToLocation ensures t in tags {
        assert s.tagToLocation[t] in s.locationToTag && tags[s.tagToLocation[t]] == t;
      }
      assert forall x :: x in s.locationToTag ==> s.locationToTag[x] in s.tagToLocation;
    }
  }

  /** With nothing deleted, the points fill the first slots exactly when the empty ones are those
      behind. */
  lemma FirstSlotsFilled(s: Slots)
    requires s.Valid() && s.deleted == {} && s.pending == {}
    ensures s.empty == Interval(s.nd, s.maxPoints) <==> s.locationToTag.Keys == Interval(0, s.nd)
  {
    LiveCount(s);
    var keys := s.locationToTag.Keys;
    assert forall x: nat :: x < s.maxPoints <==> x in s.empty || x in keys;
    assert s.empty !! keys;
    if s.empty == Interval(s.nd, s.maxPoints) {
      assert forall x: nat :: x in keys <==> x < s.maxPoints && x !in s.empty;
    }
    if keys == Interval(0, s.nd) {
      assert forall x: nat :: x in s.empty <==> x < s.maxPoints && x !in keys;
    }
  }

  /** Moving the frozen points there and back leaves a valid index, whatever was in their way. */
  lemma ReroutedIsSound(s: Slots, numFrozen: nat, searchL: nat, start: nat, was: Graph, now: Graph, vectors: nat)
    requires Sound(s, numFrozen, searchL, start, was, vectors)
    requires s.nd <= s.maxPoints && Rerouted(Move(s.maxPoints, s.nd, numFrozen), was, now)
    ensures Sound(s, numFrozen, searchL, start, now, vectors)
  {
    var nodes := Nodes(s, numFrozen);
    forall x | 0 <= x < |now|
      ensures Below(now[x], |now|) && (x in nodes ==> EdgesFrom(now, nodes, x)) && (was[x] == [] ==> now[x] == []) {
      ReroutedList(s, numFrozen, was[x], now[x], |now|);
      assert x in nodes ==> EdgesFrom(was, nodes, x);
    }
    forall x | x in nodes ensures EdgesFrom(now, nodes, x) { assert EdgesFrom(was, nodes, x); }
  }

  lemma ReroutedList(s: Slots, numFrozen: nat, was: seq<nat>, now: seq<nat>, total: nat)
    requires s.nd <= s.maxPoints && total == s.maxPoints + numFrozen && Below(was, total)
    requires var m := Move(s.maxPoints, s.nd, numFrozen); now == PlaceAll(m.Back(), PlaceAll(m, was))
    ensures Below(now, total) && |now| == |was|
    ensures (forall y :: y in was ==> y in Nodes(s, numFrozen)) ==> forall y :: y in now ==> y in Nodes(s, numFrozen)
  {
    forall i | 0 <= i < |now| ensures now[i] < total && (now[i] == was[i] || s.maxPoints <= now[i] < total) { }
    if forall y :: y in was ==> y in Nodes(s, numFrozen) {
      forall y | y in now ensures y in Nodes(s, numFrozen) {
        var i :| 0 <= i < |now| && now[i] == y;
        assert was[i] in was;
      }
    }
  }

  /** Vectors of locations that hold no point do not matter to any answer. */
  lemma IdleVectors(s: Slots, numFrozen: nat, graph: Graph, vectors: seq<Vector>, now: seq<Vector>,
                    metric: (Vector, Vector) -> real, point: Vector, K: nat, L: nat, resVectors: nat)
    requires s.Valid() && 0 < numFrozen && |graph| == |vectors| == |now| == s.maxPoints + numFrozen && 0 < L
    requires InRange(graph) && EdgesWithin(graph, Nodes(s, numFrozen))
    requires forall x :: x in Nodes(s, numFrozen) && x < |now| ==> now[x] == vectors[x]
    ensures AnswersOf(metric, graph, now, s.maxPoints, s.maxPoints, numFrozen, s.locationToTag, point, K, L, resVectors)
         == AnswersOf(metric, graph, vectors, s.maxPoints, s.maxPoints, numFrozen, s.locationToTag, point, K, L,
                      resVectors)
  {
    var r: map<nat, nat> := map x | x in Nodes(s, numFrozen) :: x;
    var starts := InitIds(s.maxPoints, s.maxPoints, numFrozen);
    StartsBelow(s.maxPoints, s.maxPoints, numFrozen);
    forall x | x in r ensures x < |graph| && (forall i :: 0 <= i < |graph[x]| ==> graph[x][i] in r)
      && RenameAll(r, graph[x]) == graph[x] {
      assert EdgesFrom(graph, Nodes(s, numFrozen), x);
      assert forall i :: 0 <= i < |graph[x]| ==> graph[x][i] in graph[x];
    }
    RenamedQuery(r, graph, vectors, graph, now, metric, point, L);
    assert forall i :: 0 <= i < |starts| ==> starts[i] in starts;
    assert RenameAll(r, starts) == starts;
    AnswersRename(r, QueryFor(metric, point, graph, vectors, L), QueryFor(metric, point, graph, now, L), starts,
                  s.locationToTag, s.locationToTag, K, resVectors);
  }

  /** The index in memory and the files of a dense index. */
  lemma DenseFilesAlike(s: Slots, numFrozen: nat, searchL: nat, was: Graph, vectors: seq<Vector>, back: Graph,
                        backVectors: seq<Vector>, there: Graph, thereVectors: seq<Vector>, zero: Vector,
                        metric: (Vector, Vector) -> real)
    requires Sound(s, numFrozen, searchL, s.maxPoints, was, |vectors|) && s.compacted
    requires s.nd <= s.maxPoints && s.empty == Interval(s.nd, s.maxPoints)
    requires GraphMoved(Move(s.maxPoints, s.nd, numFrozen), was, there)
    requires VectorsMoved(Move(s.maxPoints, s.nd, numFrozen), vectors, thereVectors, zero)
    requires Rerouted(Move(s.maxPoints, s.nd, numFrozen), was, back) && |backVectors| == |vectors|
    requires forall x :: 0 <= x < |vectors| && !(s.nd <= x < s.maxPoints) ==> backVectors[x] == vectors[x]
    ensures back == was && TargetEmpty(Move(s.maxPoints, s.nd, numFrozen), was)
    ensures AnswerAlike(metric, numFrozen,
      Content(there[..s.nd + numFrozen], thereVectors[..s.nd + numFrozen], s.nd, s.nd, s.locationToTag),
      Content(was, vectors, s.maxPoints, s.maxPoints, s.locationToTag))
    ensures AnswerAlike(metric, numFrozen, Content(back, backVectors, s.maxPoints, s.maxPoints, s.locationToTag),
      Content(was, vectors, s.maxPoints, s.maxPoints, s.locationToTag))
  {
    DenseEdges(s, numFrozen, was);
    GraphRestored(Move(s.maxPoints, s.nd, numFrozen), was, back);
    WrittenAlike(s, numFrozen, searchL, was, vectors, there, thereVectors, zero, metric);
    VectorsAlike(s, numFrozen, searchL, was, vectors, backVectors, metric);
  }

  /** The index in memory and the files. */
  lemma WrittenAlike(s: Slots, numFrozen: nat, searchL: nat, was: Graph, vectors: seq<Vector>, there: Graph,
                     thereVectors: seq<Vector>, zero: Vector, metric: (Vector, Vector) -> real)
    requires Sound(s, numFrozen, searchL, s.maxPoints, was, |vectors|) && s.compacted
    requires s.nd <= s.maxPoints && s.empty == Interval(s.nd, s.maxPoints)
    requires GraphMoved(Move(s.maxPoints, s.nd, numFrozen), was, there)
    requires VectorsMoved(Move(s.maxPoints, s.nd, numFrozen), vectors, thereVectors, zero)
    ensures s.nd + numFrozen <= |there| && s.nd + numFrozen <= |thereVectors|
    ensures AnswerAlike(metric, numFrozen,
      Content(there[..s.nd + numFrozen], thereVectors[..s.nd + numFrozen], s.nd, s.nd, s.locationToTag),
      Content(was, vectors, s.maxPoints, s.maxPoints, s.locationToTag))
  {
    DenseEdges(s, numFrozen, was);
    FilesQueryable(s.nd, s.maxPoints, numFrozen, was, vectors, there, thereVectors, zero);
    var saved, savedVectors := there[..s.nd + numFrozen], thereVectors[..s.nd + numFrozen];
    forall point, K, L, resVectors | 0 < L
      ensures AnswersOf(metric, saved, savedVectors, s.nd, s.nd, numFrozen, s.locationToTag, point, K, L, resVectors)
           == AnswersOf(metric, was, vectors, s.maxPoints, s.maxPoints, numFrozen, s.locationToTag, point, K, L,
                        resVectors)
    {
      FilesAnswerAlike(s, numFrozen, was, vectors, there, thereVectors, zero, metric, point, K, L, resVectors);
    }
  }

  /** Vectors of empty slots are not looked at. */
  lemma VectorsAlike(s: Slots, numFrozen: nat, searchL: nat, was: Graph, vectors: seq<Vector>, backVectors: seq<Vector>,
                     metric: (Vector, Vector) -> real)
    requires Sound(s, numFrozen, searchL, s.maxPoints, was, |vectors|) && s.compacted
    requires s.nd <= s.maxPoints && s.empty == Interval(s.nd, s.maxPoints) && |backVectors| == |vectors|
    requires forall x :: 0 <= x < |vectors| && !(s.nd <= x < s.maxPoints) ==> backVectors[x] == vectors[x]
    ensures AnswerAlike(metric, numFrozen, Content(was, backVectors, s.maxPoints, s.maxPoints, s.locationToTag),
      Content(was, vectors, s.maxPoints, s.maxPoints, s.locationToTag))
  {
    DenseEdges(s, numFrozen, was);
    forall point, K, L, resVectors | 0 < L
      ensures AnswersOf(metric, was, backVectors, s.maxPoints, s.maxPoints, numFrozen, s.locationToTag, point, K, L,
                        resVectors)
           == AnswersOf(metric, was, vectors, s.maxPoints, s.maxPoints, numFrozen, s.locationToTag, point, K, L,
                        resVectors)
    {
      IdleVectors(s, numFrozen, was, vectors, backVectors, metric, point, K, L, resVectors);
    }
  }

  lemma FilesAlike(s: Slots, numFrozen: nat, searchL: nat, was: Graph, vectors: seq<Vector>, back: Graph,
                   backVectors: seq<Vector>, there: Graph, thereVectors: seq<Vector>, zero: Vector,
                   metric: (Vector, Vector) -> real, files: Files)
    requires Sound(s, numFrozen, searchL, s.maxPoints, was, |vectors|) && s.compacted
    requires s.nd <= s.maxPoints && s.empty == Interval(s.nd, s.maxPoints)
    requires GraphMoved(Move(s.maxPoints, s.nd, numFrozen), was, there)
    requires VectorsMoved(Move(s.maxPoints, s.nd, numFrozen), vectors, thereVectors, zero)
    requires Rerouted(Move(s.maxPoints, s.nd, numFrozen), was, back) && |backVectors| == |vectors|
    requires forall x :: 0 <= x < |vectors| && !(s.nd <= x < s.maxPoints) ==> backVectors[x] == vectors[x]
    requires files.graph == there[..s.nd + numFrozen] && files.vectors == thereVectors[..s.nd + numFrozen]
    requires files.start == s.nd && TagsIn(files.tags) == s.locationToTag
    ensures back == was && TargetEmpty(Move(s.maxPoints, s.nd, numFrozen), was)
    ensures AnswerAlike(metric, numFrozen, FileContent(files, s.nd),
                        Content(was, vectors, s.maxPoints, s.maxPoints, s.locationToTag))
    ensures AnswerAlike(metric, numFrozen, Content(back, backVectors, s.maxPoints, s.maxPoints, s.locationToTag),
                        Content(was, vectors, s.maxPoints, s.maxPoints, s.locationToTag))
  {
    DenseFilesAlike(s, numFrozen, searchL, was, vectors, back, backVectors, there, thereVectors, zero, metric);
  }

  lemma FilesQueryable(nd: nat, maxPoints: nat, numFrozen: nat, graph: Graph, vectors: seq<Vector>, moved: Graph,
                       movedVectors: seq<Vector>, zero: Vector)
    requires nd <= maxPoints && 0 < numFrozen && |graph| == |vectors| == maxPoints + numFrozen && InRange(graph)
    requires GraphMoved(Move(maxPoints, nd, numFrozen), graph, moved)
    requires VectorsMoved(Move(maxPoints, nd, numFrozen), vectors, movedVectors, zero)
    requires forall x :: 0 <= x < |graph| ==> forall i :: 0 <= i < |graph[x]| ==>
      graph[x][i] < nd || maxPoints <= graph[x][i]
    ensures Queryable(moved[..nd + numFrozen], movedVectors[..nd + numFrozen], nd, nd, numFrozen)
  {
    ClosingRenames(nd, maxPoints, numFrozen, graph, vectors, moved, movedVectors, zero);
  }

  lemma FilesAnswerAlike(s: Slots, numFrozen: nat, graph: Graph, vectors: seq<Vector>, moved: Graph,
                         movedVectors: seq<Vector>, zero: Vector, metric: (Vector, Vector) -> real,
                         point: Vector, K: nat, L: nat, resVectors: nat)
    requires s.nd <= s.maxPoints && 0 < numFrozen && |graph| == |vectors| == s.maxPoints + numFrozen && InRange(graph)
    requires GraphMoved(Move(s.maxPoints, s.nd, numFrozen), graph, moved) && 0 < L
    requires VectorsMoved(Move(s.maxPoints, s.nd, numFrozen), vectors, movedVectors, zero)
    requires forall x :: 0 <= x < |graph| ==> forall i :: 0 <= i < |graph[x]| ==>
      graph[x][i] < s.nd || s.maxPoints <= graph[x][i]
    requires forall x :: x in s.locationToTag ==> x < s.nd
    requires Queryable(moved[..s.nd + numFrozen], movedVectors[..s.nd + numFrozen], s.nd, s.nd, numFrozen)
    ensures AnswersOf(metric, moved[..s.nd + numFrozen], movedVectors[..s.nd + numFrozen], s.nd, s.nd, numFrozen,
                      s.locationToTag, point, K, L, resVectors)
         == AnswersOf(metric, graph, vectors, s.maxPoints, s.maxPoints, numFrozen, s.locationToTag, point, K, L,
                      resVectors)
  {
    SavedIndexAnswersAlike(s.nd, s.maxPoints, numFrozen, graph, vectors, moved, movedVectors, zero, metric, point, K, L,
                           resVectors, s.locationToTag);
  }

  /** In a dense index no list leads into the gap behind the live points. */
  lemma DenseEdges(s: Slots, numFrozen: nat, graph: Graph)
    requires s.Valid() && s.empty == Interval(s.nd, s.maxPoints) && |graph| == s.maxPoints + numFrozen
    requires EdgesWithin(graph, Nodes(s, numFrozen))
    requires forall p :: s.nd <= p < s.maxPoints && p < |graph| ==> graph[p] == []
    ensures forall x :: 0 <= x < |graph| ==> forall i :: 0 <= i < |graph[x]| ==>
      graph[x][i] < s.nd || s.maxPoints <= graph[x][i]
    ensures forall x :: x in s.locationToTag ==> x < s.nd
  {
    forall x | 0 <= x < |graph|
      ensures forall i :: 0 <= i < |graph[x]| ==> graph[x][i] < s.nd || s.maxPoints <= graph[x][i]
    {
      if x < s.nd || s.maxPoints <= x {
        assert x in Nodes(s, numFrozen);
        assert EdgesFrom(graph, Nodes(s, numFrozen), x);
        forall i | 0 <= i < |graph[x]| ensures graph[x][i] < s.nd || s.maxPoints <= graph[x][i] {
          assert graph[x][i] in graph[x];
        }
      }
    }
  }

  lemma PresentEdges(s: Slots, numFrozen: nat, graph: Graph)
    requires s.deleted == {} && s.pending == {} && |graph| == s.maxPoints + numFrozen
      && EdgesWithin(graph, Nodes(s, numFrozen))
    ensures forall x, y :: 0 <= x < |graph| && Present(s.locationToTag.Keys, s.maxPoints, x) && y in graph[x] ==>
      Present(s.locationToTag.Keys, s.maxPoints, y)
  {
    forall x, y | 0 <= x < |graph| && Present(s.locationToTag.Keys, s.maxPoints, x) && y in graph[x]
      ensures Present(s.locationToTag.Keys, s.maxPoints, y)
    {
      assert x in Nodes(s, numFrozen);
      assert EdgesFrom(graph, Nodes(s, numFrozen), x);
    }
  }

  /** Compaction leaves a valid index. */
  lemma CompactedIsSound(s: Slots, t: Slots, numFrozen: nat, searchL: nat, start: nat, graph: Graph, vectors: nat)
    requires s.Valid() && s.deleted == {} && s.pending == {} && SlotsCompacted(s, t)
    requires 0 < numFrozen && s.maxPoints + numFrozen < INVALID && 0 < searchL
    requires start == s.maxPoints && |graph| == vectors == s.maxPoints + numFrozen
    requires InRange(graph) && forall p :: s.nd <= p < s.maxPoints && p < |graph| ==> graph[p] == []
    requires forall p, y :: 0 <= p < |graph| && y in graph[p] ==> (y < s.nd || s.maxPoints <= y < |graph|)
    ensures Sound(t, numFrozen, searchL, start, graph, vectors)
  {
    CompactedSlotsValid(s, t);
    CompactedNodes(s, t, numFrozen, |graph|);
    EdgesAre(graph, Nodes(t, numFrozen), s.nd, s.maxPoints);
    assert FlagOk(t, graph);
  }

  lemma RenumberedIsSound(s: Slots, t: Slots, numFrozen: nat, searchL: nat, start: nat, was: Graph, graph: Graph,
                          vectors: nat)
    requires Sound(s, numFrozen, searchL, start, was, vectors)
    requires s.deleted == {} && s.pending == {} && SlotsCompacted(s, t) && |graph| == |was|
    requires InRange(graph) && forall p :: s.nd <= p < s.maxPoints && p < |graph| ==> graph[p] == []
    requires forall p, y :: 0 <= p < |graph| && y in graph[p] ==> (y < s.nd || s.maxPoints <= y < |graph|)
    ensures Sound(t, numFrozen, searchL, start, graph, vectors)
  {
    CompactedIsSound(s, t, numFrozen, searchL, start, graph, vectors);
  }

  lemma EdgesAre(graph: Graph, nodes: set<nat>, nd: nat, maxPoints: nat)
    requires forall p, y :: 0 <= p < |graph| && y in graph[p] ==> (y < nd || maxPoints <= y < |graph|)
    requires forall y: nat :: y in nodes ==> y < |graph|
    requires forall y: nat :: (y < nd || maxPoints <= y < |graph|) ==> y in nodes
    ensures EdgesWithin(graph, nodes)
  {
    forall x | x in nodes ensures EdgesFrom(graph, nodes, x) { }
  }

  lemma CompactedNodes(s: Slots, t: Slots, numFrozen: nat, n: nat)
    requires s.Valid() && s.deleted == {} && s.pending == {} && SlotsCompacted(s, t)
    requires n == s.maxPoints + numFrozen
    ensures forall y: nat :: y in Nodes(t, numFrozen) ==> y < n
    ensures forall y: nat :: (y < s.nd || s.maxPoints <= y < n) ==> y in Nodes(t, numFrozen)
  {
    CompactedSlotsValid(s, t);
    forall y: nat | y < s.nd || s.maxPoints <= y < n ensures y in Nodes(t, numFrozen) {
      if y < s.nd { assert y in t.locationToTag.Keys; }
    }
  }

  /** The answers before and after are the same. */
  lemma CompactionKeepsAnswers(s: Slots, t: Slots, numFrozen: nat, start: nat, was: Graph, vectors: seq<Vector>,
                               now: Graph, moved: seq<Vector>, metric: (Vector, Vector) -> real,
                               point: Vector, K: nat, L: nat, resVectors: nat)
    requires s.Valid() && s.deleted == {} && s.pending == {} && SlotsCompacted(s, t)
    requires s.maxPoints <= start < s.maxPoints + numFrozen && 0 < L
    requires |was| == |now| == s.maxPoints + numFrozen
    requires Renamed(Renaming(s.locationToTag.Keys, s.maxPoints, |was|), was, vectors, now, moved)
    ensures Below(InitIds(start, s.maxPoints, numFrozen), |was|)
    ensures TagResult(QueryFor(metric, point, now, moved, L), InitIds(start, s.maxPoints, numFrozen), K, resVectors,
                      t.locationToTag)
         == TagResult(QueryFor(metric, point, was, vectors, L), InitIds(start, s.maxPoints, numFrozen), K, resVectors,
                      s.locationToTag)
  {
    var r := Renaming(s.locationToTag.Keys, s.maxPoints, |was|);
    var starts := InitIds(start, s.maxPoints, numFrozen);
    StartsBelow(start, s.maxPoints, numFrozen);
    LiveCount(s);
    RenamedQuery(r, was, vectors, now, moved, metric, point, L);
    TagsFollow(s, t, |was|);
    forall i | 0 <= i < |starts| ensures starts[i] in r && r[starts[i]] == starts[i] {
      assert starts[i] in starts;
    }
    assert RenameAll(r, starts) == starts;
    AnswersRename(r, QueryFor(metric, point, was, vectors, L), QueryFor(metric, point, now, moved, L), starts,
                  s.locationToTag, t.locationToTag, K, resVectors);
  }

  /** The slots side of a consolidation: the slots stay valid. */
  lemma ConsolidationSlots(s: Slots)
    requires s.Valid() && !s.consolidating
    ensures |s.deleted| <= s.nd && s.deleted !! s.empty && forall x :: x in s.deleted ==> x < s.maxPoints
    ensures HandBack(TakeDeletes(s)).Valid()
  {
    CountSlots(s);
    TakeKeepsValid(s);
    HandBackKeepsValid(TakeDeletes(s));
  }

  /** The nodes side: the locations whose turn comes are the nodes that survive. */
  lemma ConsolidationNodes(s: Slots, numFrozen: nat, total: nat)
    requires s.Partition() && s.pending == {} && total == s.maxPoints + numFrozen
    ensures var nodes := Nodes(s, numFrozen);
      s.deleted <= nodes && nodes - s.deleted == Turns(total, s.deleted, s.empty, s.maxPoints)
  {
    var nodes := Nodes(s, numFrozen);
    forall x ensures x in nodes - s.deleted <==> x in Turns(total, s.deleted, s.empty, s.maxPoints) {
      assert x in nodes <==> x in s.Occupied() || s.maxPoints <= x < total;
    }
  }

  /** The survivors of a consolidation are the nodes that were there, without the deleted ones. */
  lemma SurvivingNodes(s: Slots, numFrozen: nat)
    requires s.Partition() && s.pending == {}
    ensures Nodes(HandBack(TakeDeletes(s)), numFrozen) == Nodes(s, numFrozen) - s.deleted
  {
  }

  /** Handing back the slots of the deleted points keeps the index valid once no list leads to them. */
  lemma HandedBackIsSound(s: Slots, numFrozen: nat, searchL: nat, start: nat, graph: Graph, vectors: nat)
    requires s.Valid() && !s.consolidating && s.pending == {}
    requires 0 < numFrozen && s.maxPoints + numFrozen < INVALID && 0 < searchL
    requires start == s.maxPoints && |graph| == vectors == s.maxPoints + numFrozen && FlagOk(s, graph)
    requires InRange(graph) && EdgesWithin(graph, Nodes(s, numFrozen) - s.deleted)
    ensures Sound(HandBack(TakeDeletes(s)), numFrozen, searchL, start, graph, vectors)
    ensures Nodes(HandBack(TakeDeletes(s)), numFrozen) == Nodes(s, numFrozen) - s.deleted
  {
    ConsolidationSlots(s);
    SurvivingNodes(s, numFrozen);
  }

  function DeleteTags(s: Slots, tags: seq<int>): Slots {
    if tags == [] then s.(compacted := false)
    else DeleteTag(DeleteTags(s, tags[..|tags| - 1]), tags[|tags| - 1])
  }

  function FailedTags(s: Slots, tags: seq<int>): seq<int> {
    if tags == [] then []
    else
      var failed := FailedTags(s, tags[..|tags| - 1]);
      var t := tags[|tags| - 1];
      if t in DeleteTags(s, tags[..|tags| - 1]).tagToLocation then failed else failed + [t]
  }

  lemma {:induction false} DeletesKeepValid(s: Slots, tags: seq<int>)
    requires s.Valid()
    ensures DeleteTags(s, tags).Valid() && DeleteTags(s, tags).Occupied() == s.Occupied()
  {
    if tags == [] {
      FlagDoesNotMatter(s);
    } else {
      var r := DeleteTags(s, tags[..|tags| - 1]);
      DeletesKeepValid(s, tags[..|tags| - 1]);
      DeleteKeepsValid(r, tags[|tags| - 1]);
      assert DeleteTags(s, tags) == DeleteTag(r, tags[|tags| - 1]);
    }
  }

  lemma DeletesAreSound(s: Slots, tags: seq<int>, numFrozen: nat, searchL: nat, start: nat, graph: Graph, vectors: nat)
    requires Sound(s, numFrozen, searchL, start, graph, vectors)
    ensures Sound(DeleteTags(s, tags), numFrozen, searchL, start, graph, vectors)
    ensures Nodes(DeleteTags(s, tags), numFrozen) == Nodes(s, numFrozen)
  {
    DeletesKeepValid(s, tags);
    SameSlotCount(s, tags);
    SoundByNodes(s, DeleteTags(s, tags), numFrozen, searchL, start, graph, vectors);
  }

  /** Soundness depends on the slots only through the nodes they hold. */
  lemma SoundByNodes(s: Slots, t: Slots, numFrozen: nat, searchL: nat, start: nat, graph: Graph, vectors: nat)
    requires Sound(s, numFrozen, searchL, start, graph, vectors)
    requires t.Valid() && t.maxPoints == s.maxPoints && t.Occupied() == s.Occupied() && !t.compacted
    ensures Sound(t, numFrozen, searchL, start, graph, vectors) && Nodes(t, numFrozen) == Nodes(s, numFrozen)
  {
    SameNodes(s, t, numFrozen);
  }

  lemma SameNodes(s: Slots, t: Slots, numFrozen: nat)
    requires t.maxPoints == s.maxPoints && t.Occupied() == s.Occupied()
    ensures Nodes(t, numFrozen) == Nodes(s, numFrozen)
  {
  }

  lemma {:induction false} SameSlotCount(s: Slots, tags: seq<int>)
    ensures DeleteTags(s, tags).maxPoints == s.maxPoints && !DeleteTags(s, tags).compacted
  {
    if tags != [] { SameSlotCount(s, tags[..|tags| - 1]); }
  }

  /** After a batch deletion exactly the other tags are left; a tag fails if it was absent or occurs again. */
  lemma {:induction false} DeletesRemoveExactly(s: Slots, tags: seq<int>)
    requires s.Valid()
    ensures forall t :: t in DeleteTags(s, tags).tagToLocation <==> t in s.tagToLocation && t !in tags
    ensures forall t :: t in FailedTags(s, tags) ==> t in tags
    ensures forall t :: t in tags && t !in s.tagToLocation ==> t in FailedTags(s, tags)
    ensures NoDup(tags) ==> forall t :: t in FailedTags(s, tags) ==> t !in s.tagToLocation
  {
    if tags != [] {
      var init, last := tags[..|tags| - 1], tags[|tags| - 1];
      assert tags == init + [last];
      DeletesRemoveExactly(s, init);
      NoDupSnoc(init, last);
    }
  }

  /** One deletion after the other: a tag fails exactly if it was absent from the beginning or occurred before. */
  lemma {:induction false} FailedAre(s: Slots, tags: seq<int>)
    requires s.Valid() && tags != []
    ensures var init, t := tags[..|tags| - 1], tags[|tags| - 1];
      FailedTags(s, tags) == FailedTags(s, init) + if t !in s.tagToLocation || t in init then [t] else []
  {
    DeletesRemoveExactly(s, tags[..|tags| - 1]);
  }

  lemma TaggedNodes(slots: Slots, tag: int, loc: nat, numFrozen: nat)
    ensures Nodes(Tagged(slots, tag, loc), numFrozen) == Nodes(slots, numFrozen) + {loc}
  {
  }

  lemma {:induction false} SomeStart(start: nat, maxPoints: nat, numFrozen: nat)
    ensures InitIds(start, maxPoints, numFrozen) != [] && InitIds(start, maxPoints, numFrozen)[0] == start
  {
    if numFrozen > 0 { SomeStart(start, maxPoints, numFrozen - 1); }
  }

  /** A search whose first start passes the filter expands something. */
  lemma FirstIsExpanded(q: Query, starts: seq<nat>)
    requires q.Valid() && Below(starts, |q.dist|) && starts != [] && starts[0] in q.allowed
    ensures Search(q, starts).expanded != []
  {
    SearchReachesFixedPoint(q, starts);
    var r := Search(q, starts);
    assert starts[0] in starts;
    assert starts[0] in r.visited;
    assert r.queue == [] ==> Ids(r.queue) == [];
    assert r.queue != [] ==> Ids(r.queue)[0] in Ids(r.queue);
  }

  lemma StartsBelow(start: nat, maxPoints: nat, numFrozen: nat)
    requires start < maxPoints + numFrozen
    ensures Below(InitIds(start, maxPoints, numFrozen), maxPoints + numFrozen)
  {
    var ids := InitIds(start, maxPoints, numFrozen);
    assert forall i :: 0 <= i < |ids| ==> ids[i] in ids;
  }

  lemma CandidatesBelow(q: Query, starts: seq<nat>)
    requires q.Valid() && Below(starts, |q.dist|)
    ensures Below(Search(q, starts).expanded, |q.graph|)
  {
    StartKeepsInv(q, starts);
    RunKeepsInv(q, StartState(q, starts));
    ExpandedBelow(q, Search(q, starts));
  }

  /** The erasing loop: every entry of the location itself leaves the pool. */
  method WithoutLocation(pool: seq<Neighbor>, loc: nat) returns (r: seq<Neighbor>)
    requires NoDup(Ids(pool))
    ensures Elems(Ids(r)) == Elems(Ids(pool)) - {loc} && NoDup(Ids(r))
    ensures forall e :: e in r ==> e in pool
  {
    r := [];
    for i := 0 to |pool|
      invariant Elems(Ids(r)) == Elems(Ids(pool[..i])) - {loc} && NoDup(Ids(r))
      invariant forall e :: e in r ==> e in pool
    {
      IdsSnoc(pool[..i], pool[i]);
      assert pool[..i + 1] == pool[..i] + [pool[i]];
      if pool[i].id != loc {
        IdsSnoc(r, pool[i]);
        NewId(pool, i);
        NoDupSnoc(Ids(r), pool[i].id);
        r := r + [pool[i]];
      }
    }
    assert pool[..|pool|] == pool;
  }

  /** The pool lists the expanded locations with their distances to the point at loc. */
  lemma PoolFacts(metric: (Vector, Vector) -> real, loc: nat, graph: Graph, vectors: seq<Vector>, L: nat,
                  expanded: seq<nat>)
    requires loc < |vectors| && Below(expanded, |vectors|)
    ensures Ids(PoolOf(QueryFor(metric, vectors[loc], graph, vectors, L), expanded)) == expanded
    ensures MeasuredFrom(loc, PoolOf(QueryFor(metric, vectors[loc], graph, vectors, L), expanded),
                         Between(metric, vectors))
  {
  }

  lemma StillFrom(loc: nat, pool: seq<Neighbor>, part: seq<Neighbor>, D: Metric)
    requires MeasuredFrom(loc, pool, D) && forall e :: e in part ==> e in pool
    ensures MeasuredFrom(loc, part, D)
  {
    forall i | 0 <= i < |part| ensures part[i].distance == D(loc, part[i].id) {
      assert part[i] in pool;
      var j :| 0 <= j < |pool| && pool[j] == part[i];
    }
  }

  lemma NewId(pool: seq<Neighbor>, i: nat)
    requires NoDup(Ids(pool)) && i < |pool|
    ensures pool[i].id !in Ids(pool[..i])
  {
    forall k | 0 <= k < i ensures Ids(pool[..i])[k] != pool[i].id { assert Ids(pool)[k] != Ids(pool)[i]; }
  }
}
