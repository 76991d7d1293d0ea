/** Compaction: the live points move to the first slots, in order, and the graph is renamed accordingly. */
module Compaction {
  import opened Collections
  import opened GraphSearch
  import opened SearchRenaming

  type Vector = seq<real>

  /** Stands for "no new location". */
  const INVALID: nat := 0xFFFF_FFFF

  /** The number of live slots below x. */
  ghost function Rank(live: set<nat>, x: nat): (r: nat)
    ensures r <= x
  {
    if x == 0 then 0 else Rank(live, x - 1) + if x - 1 in live then 1 else 0
  }

  lemma {:induction false} RankCounts(live: set<nat>, x: nat, below: set<nat>)
    requires forall y: nat :: y in below <==> y in live && y < x
    ensures Rank(live, x) == |below|
  {
    if x == 0 {
      assert below == {};
    } else if x - 1 in live {
      RankCounts(live, x - 1, below - {x - 1});
    } else {
      RankCounts(live, x - 1, below);
    }
  }

  lemma {:induction false} RankGrows(live: set<nat>, x: nat, y: nat)
    requires x < y
    ensures Rank(live, x) <= Rank(live, y)
    ensures x in live ==> Rank(live, x) < Rank(live, y)
    decreases y
  {
    if x < y - 1 { RankGrows(live, x, y - 1); }
  }

  /** Where compaction puts a location: live points by rank, frozen points where they are. */
  ghost function NewLocation(live: set<nat>, maxPoints: nat, x: nat): nat {
    if x in live then Rank(live, x) else if x >= maxPoints then x else INVALID
  }

  ghost predicate Present(live: set<nat>, maxPoints: nat, x: nat) {
    x in live || x >= maxPoints
  }

  /** The map from present locations to their new ones. */
  ghost function Renaming(live: set<nat>, maxPoints: nat, total: nat): (r: map<nat, nat>)
    ensures forall x: nat :: x in r <==> x < total && Present(live, maxPoints, x)
    ensures forall x :: x in r ==> r[x] == NewLocation(live, maxPoints, x)
  {
    map x | x in Interval(0, total) && Present(live, maxPoints, x) :: NewLocation(live, maxPoints, x)
  }

  ghost predicate LiveBelow(live: set<nat>, maxPoints: nat) {
    forall x :: x in live ==> x < maxPoints
  }

  lemma NewLocationMonotone(live: set<nat>, maxPoints: nat, x: nat, y: nat)
    requires LiveBelow(live, maxPoints) && Present(live, maxPoints, x) && Present(live, maxPoints, y) && x < y
    ensures NewLocation(live, maxPoints, x) < NewLocation(live, maxPoints, y)
  {
    RankGrows(live, x, y);
  }

  lemma RenamingMonotone(live: set<nat>, maxPoints: nat, total: nat)
    requires LiveBelow(live, maxPoints)
    ensures Monotone(Renaming(live, maxPoints, total))
  {
    var r := Renaming(live, maxPoints, total);
    forall x, y | x in r && y in r && x < y ensures r[x] < r[y] {
      NewLocationMonotone(live, maxPoints, x, y);
    }
  }

  lemma {:induction false} RanksFill(live: set<nat>, n: nat, k: nat) returns (x: nat)
    requires k < Rank(live, n)
    ensures x in live && x < n && Rank(live, x) == k
    decreases n
  {
    assert n > 0;
    if k == Rank(live, n - 1) { x := n - 1; } else { x := RanksFill(live, n - 1, k); }
  }

  /** The new list of a location: dangling neighbours dropped, the others renamed, in order. */
  function NewList(newLocation: seq<nat>, empties: set<nat>, nbrs: seq<nat>): (r: seq<nat>)
    requires Below(nbrs, |newLocation|)
    ensures |r| <= |nbrs|
  {
    if nbrs == [] then []
    else
      var r := NewList(newLocation, empties, nbrs[..|nbrs| - 1]);
      var y := nbrs[|nbrs| - 1];
      if y in empties then r else r + [newLocation[y]]
  }

  /** Without dangling neighbours the new list is the old one renamed. */
  lemma {:induction false} NewListRenames(live: set<nat>, maxPoints: nat, newLocation: seq<nat>, empties: set<nat>,
                                          nbrs: seq<nat>)
    requires Below(nbrs, |newLocation|)
    requires Assigned(newLocation, live, maxPoints)
    requires forall x: nat :: x in empties <==> x < maxPoints && x !in live
    requires forall i :: 0 <= i < |nbrs| ==> Present(live, maxPoints, nbrs[i])
    requires LiveBelow(live, maxPoints)
    ensures forall i :: 0 <= i < |nbrs| ==> nbrs[i] in Renaming(live, maxPoints, |newLocation|)
    ensures NewList(newLocation, empties, nbrs) == RenameAll(Renaming(live, maxPoints, |newLocation|), nbrs)
  {
    if nbrs != [] {
      var init := nbrs[..|nbrs| - 1];
      var r := Renaming(live, maxPoints, |newLocation|);
      NewListRenames(live, maxPoints, newLocation, empties, init);
      assert nbrs == init + [nbrs[|nbrs| - 1]];
      RenameSnoc(r, init, nbrs[|nbrs| - 1]);
    }
  }

  /** The result of compaction, in terms of the index before it. */
  ghost predicate Compacted(live: set<nat>, maxPoints: nat, newLocation: seq<nat>, empties: set<nat>,
                            was: Graph, vectors: seq<Vector>, now: Graph, moved: seq<Vector>)
    requires InRange(was) && |newLocation| == |was|
  {
    && |now| == |was| == |vectors| == |moved|
    && (forall x :: 0 <= x < |was| && Present(live, maxPoints, x) ==>
          && newLocation[x] < |was|
          && now[newLocation[x]] == NewList(newLocation, empties, was[x])
          && moved[newLocation[x]] == vectors[x])
    && (forall p :: |live| <= p < maxPoints && p < |now| ==> now[p] == [])
  }

  // ------------------------------------------------------------------ the loops

  ghost predicate Assigned(newLocation: seq<nat>, live: set<nat>, maxPoints: nat) {
    forall x :: 0 <= x < |newLocation| ==> newLocation[x] == NewLocation(live, maxPoints, x)
  }

  lemma AssignNext(newLocation: seq<nat>, live: set<nat>, maxPoints: nat, next: nat)
    requires Assigned(newLocation, live, maxPoints) && next == NewLocation(live, maxPoints, |newLocation|)
    ensures Assigned(newLocation + [next], live, maxPoints)
  {
  }

  /** The first loop: live slots are numbered in order, the others are empty. */
  method NumberSlots(tagged: map<nat, int>, maxPoints: nat) returns (newLocation: seq<nat>, empties: set<nat>)
    ensures |newLocation| == maxPoints && Assigned(newLocation, tagged.Keys, maxPoints)
    ensures forall x: nat :: x in empties <==> x < maxPoints && x !in tagged
  {
    newLocation, empties := [], {};
    var newCounter := 0;
    for loc := 0 to maxPoints
      invariant |newLocation| == loc && newCounter == Rank(tagged.Keys, loc)
      invariant Assigned(newLocation, tagged.Keys, maxPoints)
      invariant forall x: nat :: x in empties <==> x < loc && x !in tagged
    {
      AssignNext(newLocation, tagged.Keys, maxPoints, NewLocation(tagged.Keys, maxPoints, loc));
      if loc in tagged {
        newLocation := newLocation + [newCounter];
        newCounter := newCounter + 1;
      } else {
        newLocation := newLocation + [INVALID];
        empties := empties + {loc};
      }
    }
  }

  /** The second loop: frozen points stay. */
  method AssignLocations(tagged: map<nat, int>, maxPoints: nat, total: nat)
    returns (newLocation: seq<nat>, empties: set<nat>)
    requires LiveBelow(tagged.Keys, maxPoints) && maxPoints <= total
    ensures |newLocation| == total && Assigned(newLocation, tagged.Keys, maxPoints)
    ensures forall x: nat :: x in empties <==> x < maxPoints && x !in tagged
  {
    newLocation, empties := NumberSlots(tagged, maxPoints);
    for loc := maxPoints to total
      invariant |newLocation| == loc && Assigned(newLocation, tagged.Keys, maxPoints)
    {
      AssignNext(newLocation, tagged.Keys, maxPoints, loc);
      newLocation := newLocation + [loc];
    }
  }

  method RenameList(newLocation: seq<nat>, empties: set<nat>, nbrs: seq<nat>) returns (list: seq<nat>, numDangling: nat)
    requires Below(nbrs, |newLocation|)
    ensures list == NewList(newLocation, empties, nbrs) && |list| + numDangling == |nbrs|
  {
    list, numDangling := [], 0;
    for k := 0 to |nbrs|
      invariant list == NewList(newLocation, empties, nbrs[..k]) && |list| + numDangling == k
    {
      assert nbrs[..k + 1][..k] == nbrs[..k];
      if nbrs[k] in empties {
        numDangling := numDangling + 1;
      } else {
        list := list + [newLocation[nbrs[k]]];
      }
    }
    assert nbrs[..|nbrs|] == nbrs;
  }

  /** Halfway through the moving loop: present locations before loc have moved, the places nobody moved to are empty. */
  ghost predicate MovedUpTo(live: set<nat>, maxPoints: nat, newLocation: seq<nat>, empties: set<nat>, was: Graph,
                            vectors: seq<Vector>, now: Graph, moved: seq<Vector>, loc: nat)
    requires InRange(was) && |newLocation| == |was|
  {
    && |now| == |was| == |vectors| == |moved| && loc <= |was|
    && (forall x :: 0 <= x < loc && Present(live, maxPoints, x) ==>
          && newLocation[x] <= x
          && now[newLocation[x]] == NewList(newLocation, empties, was[x])
          && moved[newLocation[x]] == vectors[x])
    && (forall p :: 0 <= p < loc && p < maxPoints && Rank(live, loc) <= p ==> now[p] == [])
    && (forall p :: loc <= p < |was| ==> now[p] == was[p] && moved[p] == vectors[p])
  }

  lemma LiveMoves(live: set<nat>, maxPoints: nat, newLocation: seq<nat>, empties: set<nat>, was: Graph,
                  vectors: seq<Vector>, now: Graph, moved: seq<Vector>, loc: nat, next: Graph, vecs: seq<Vector>)
    requires InRange(was) && |newLocation| == |was| && LiveBelow(live, maxPoints)
    requires Assigned(newLocation, live, maxPoints)
    requires MovedUpTo(live, maxPoints, newLocation, empties, was, vectors, now, moved, loc)
    requires loc < |was| && Present(live, maxPoints, loc) && newLocation[loc] <= loc
    requires |next| == |vecs| == |was|
    requires next[newLocation[loc]] == NewList(newLocation, empties, was[loc]) && vecs[newLocation[loc]] == vectors[loc]
    requires newLocation[loc] != loc ==> next[loc] == []
    requires forall p :: 0 <= p < |was| && p != loc && p != newLocation[loc] ==> next[p] == now[p]
    requires forall p :: 0 <= p < |was| && p != newLocation[loc] ==> vecs[p] == moved[p]
    ensures MovedUpTo(live, maxPoints, newLocation, empties, was, vectors, next, vecs, loc + 1)
  {
    forall x | 0 <= x < loc && Present(live, maxPoints, x)
      ensures newLocation[x] < newLocation[loc]
    {
      NewLocationMonotone(live, maxPoints, x, loc);
    }
  }

  lemma DeadClears(live: set<nat>, maxPoints: nat, newLocation: seq<nat>, empties: set<nat>, was: Graph,
                   vectors: seq<Vector>, now: Graph, moved: seq<Vector>, loc: nat)
    requires InRange(was) && |newLocation| == |was|
    requires MovedUpTo(live, maxPoints, newLocation, empties, was, vectors, now, moved, loc)
    requires loc < |was| && !Present(live, maxPoints, loc)
    ensures MovedUpTo(live, maxPoints, newLocation, empties, was, vectors, now[loc := []], moved, loc + 1)
  {
  }

  /** The place a live location moves to is empty by then, unless it is its own. */
  lemma TargetIsEmpty(live: set<nat>, maxPoints: nat, newLocation: seq<nat>, empties: set<nat>, was: Graph,
                      vectors: seq<Vector>, now: Graph, moved: seq<Vector>, loc: nat)
    requires InRange(was) && |newLocation| == |was| && LiveBelow(live, maxPoints)
    requires MovedUpTo(live, maxPoints, newLocation, empties, was, vectors, now, moved, loc)
    requires loc < |was| && newLocation[loc] == NewLocation(live, maxPoints, loc) && Present(live, maxPoints, loc)
    ensures newLocation[loc] <= loc
    ensures newLocation[loc] != loc ==> now[newLocation[loc]] == []
  {
  }

  /** Moves one list and its vector; the list swaps places with the empty one at its new location. */
  method MoveOne(to: nat, loc: nat, list: seq<nat>, graph0: Graph, vecs0: seq<Vector>)
    returns (graph: Graph, vecs: seq<Vector>)
    requires to <= loc < |graph0| == |vecs0|
    ensures |graph| == |graph0| && |vecs| == |vecs0|
    ensures graph[to] == list && (to != loc ==> graph[loc] == graph0[to])
    ensures vecs[to] == vecs0[loc]
    ensures forall p :: 0 <= p < |graph| && p != loc && p != to ==> graph[p] == graph0[p]
    ensures forall p :: 0 <= p < |graph| && p != to ==> vecs[p] == vecs0[p]
  {
    graph, vecs := graph0[loc := list], vecs0;
    if to != loc {
      graph := graph[to := graph[loc]][loc := graph[to]];
      vecs := vecs[to := vecs[loc]];
    }
  }

  /** The moving loop. */
  method MoveAll(ghost live: set<nat>, maxPoints: nat, newLocation: seq<nat>, empties: set<nat>, was: Graph,
                 vectors: seq<Vector>)
    returns (graph: Graph, vecs: seq<Vector>)
    requires InRange(was) && |newLocation| == |was| == |vectors| && maxPoints <= |was| < INVALID
    requires LiveBelow(live, maxPoints)
    requires Assigned(newLocation, live, maxPoints)
    ensures MovedUpTo(live, maxPoints, newLocation, empties, was, vectors, graph, vecs, |was|)
  {
    graph, vecs := was, vectors;
    for loc := 0 to |was|
      invariant MovedUpTo(live, maxPoints, newLocation, empties, was, vectors, graph, vecs, loc)
    {
      if newLocation[loc] < maxPoints || loc >= maxPoints {
        ghost var now, moved := graph, vecs;
        TargetIsEmpty(live, maxPoints, newLocation, empties, was, vectors, graph, vecs, loc);
        var list, _ := RenameList(newLocation, empties, graph[loc]);
        graph, vecs := MoveOne(newLocation[loc], loc, list, graph, vecs);
        LiveMoves(live, maxPoints, newLocation, empties, was, vectors, now, moved, loc, graph, vecs);
      } else {
        DeadClears(live, maxPoints, newLocation, empties, was, vectors, graph, vecs, loc);
        graph := graph[loc := []];
      }
    }
  }

  lemma RankOfAll(live: set<nat>, maxPoints: nat, n: nat)
    requires LiveBelow(live, maxPoints) && maxPoints <= n
    ensures Rank(live, n) == |live|
  {
    RankCounts(live, n, live);
  }

  /** Rebuilding the tag map from the old location map. */
  method RenameTags(tagged: map<nat, int>, newLocation: seq<nat>, maxPoints: nat) returns (tagToLocation: map<int, nat>)
    requires LiveBelow(tagged.Keys, maxPoints) && maxPoints <= |newLocation|
    requires forall x, y :: x in tagged && y in tagged && tagged[x] == tagged[y] ==> x == y
    ensures forall x :: x in tagged ==> tagged[x] in tagToLocation && tagToLocation[tagged[x]] == newLocation[x]
    ensures forall t :: t in tagToLocation ==> exists x :: x in tagged && tagged[x] == t
  {
    tagToLocation := map[];
    for pos := 0 to maxPoints
      invariant forall x :: x in tagged && x < pos ==>
        tagged[x] in tagToLocation && tagToLocation[tagged[x]] == newLocation[x]
      invariant forall t :: t in tagToLocation ==> exists x :: x in tagged && tagged[x] == t
    {
      if pos in tagged {
        tagToLocation := tagToLocation[tagged[pos] := newLocation[pos]];
      }
    }
  }

  /** The location map from the tag map. */
  method InvertTags(tagToLocation: map<int, nat>) returns (locationToTag: map<nat, int>)
    requires forall t, u :: t in tagToLocation && u in tagToLocation && tagToLocation[t] == tagToLocation[u] ==> t == u
    ensures forall t :: t in tagToLocation ==> tagToLocation[t] in locationToTag && locationToTag[tagToLocation[t]] == t
    ensures forall y :: y in locationToTag ==> locationToTag[y] in tagToLocation && tagToLocation[locationToTag[y]] == y
  {
    locationToTag := map[];
    var rest := tagToLocation.Keys;
    while rest != {}
      invariant rest <= tagToLocation.Keys
      invariant forall t :: t in tagToLocation && t !in rest ==>
        tagToLocation[t] in locationToTag && locationToTag[tagToLocation[t]] == t
      invariant forall y :: y in locationToTag ==>
        locationToTag[y] in tagToLocation && locationToTag[y] !in rest && tagToLocation[locationToTag[y]] == y
      decreases rest
    {
      var t := AnyOf(rest);
      locationToTag := locationToTag[tagToLocation[t] := t];
      rest := rest - {t};
    }
  }

  lemma SameNewLocation(tagged: map<nat, int>, newLocation: seq<nat>, maxPoints: nat, tagToLocation: map<int, nat>,
                        t: int, u: int)
    requires LiveBelow(tagged.Keys, maxPoints) && maxPoints <= |newLocation|
    requires Assigned(newLocation, tagged.Keys, maxPoints)
    requires forall x :: x in tagged ==> tagged[x] in tagToLocation && tagToLocation[tagged[x]] == newLocation[x]
    requires forall s :: s in tagToLocation ==> exists x :: x in tagged && tagged[x] == s
    requires t in tagToLocation && u in tagToLocation && tagToLocation[t] == tagToLocation[u]
    ensures t == u
  {
    var x :| x in tagged && tagged[x] == t;
    var y :| y in tagged && tagged[y] == u;
    if x < y { NewLocationMonotone(tagged.Keys, maxPoints, x, y); }
    if y < x { NewLocationMonotone(tagged.Keys, maxPoints, y, x); }
  }

  // ------------------------------------------------------------------ what compaction preserves

  lemma RankBelow(live: set<nat>, maxPoints: nat, x: nat)
    requires LiveBelow(live, maxPoints) && x in live
    ensures Rank(live, x) < |live|
  {
    RankGrows(live, x, maxPoints);
    RankOfAll(live, maxPoints, maxPoints);
  }

  /** Edges between present locations stay edges between present locations. */
  lemma CompactedStaysWithin(live: set<nat>, maxPoints: nat, newLocation: seq<nat>, empties: set<nat>, was: Graph,
                             vectors: seq<Vector>, now: Graph, moved: seq<Vector>)
    requires InRange(was) && |newLocation| == |was| && Assigned(newLocation, live, maxPoints)
    requires LiveBelow(live, maxPoints) && maxPoints <= |was|
    requires forall x: nat :: x in empties <==> x < maxPoints && x !in live
    requires forall x, y :: 0 <= x < |was| && Present(live, maxPoints, x) && y in was[x] ==> Present(live, maxPoints, y)
    requires Compacted(live, maxPoints, newLocation, empties, was, vectors, now, moved)
    ensures InRange(now)
    ensures forall p, y :: 0 <= p < |now| && y in now[p] ==> (y < |live| || maxPoints <= y < |now|)
  {
    forall p | 0 <= p < |now|
      ensures Below(now[p], |now|) && forall y :: y in now[p] ==> (y < |live| || maxPoints <= y < |now|) {
      if p < |live| || maxPoints <= p {
        var x := p;
        if p < maxPoints {
          RankOfAll(live, maxPoints, maxPoints);
          x := RanksFill(live, maxPoints, p);
        }
        assert newLocation[x] == p;
        RenamedListWithin(live, maxPoints, newLocation, empties, was[x]);
      }
    }
  }

  lemma RenamedListWithin(live: set<nat>, maxPoints: nat, newLocation: seq<nat>, empties: set<nat>, nbrs: seq<nat>)
    requires Below(nbrs, |newLocation|) && Assigned(newLocation, live, maxPoints) && maxPoints <= |newLocation|
    requires LiveBelow(live, maxPoints)
    requires forall x: nat :: x in empties <==> x < maxPoints && x !in live
    requires forall y :: y in nbrs ==> Present(live, maxPoints, y)
    ensures forall y :: y in NewList(newLocation, empties, nbrs) ==> (y < |live| || maxPoints <= y < |newLocation|)
    ensures Below(NewList(newLocation, empties, nbrs), |newLocation|)
  {
    assert forall i :: 0 <= i < |nbrs| ==> nbrs[i] in nbrs;
    NewListRenames(live, maxPoints, newLocation, empties, nbrs);
    var list := NewList(newLocation, empties, nbrs);
    RankOfAll(live, maxPoints, maxPoints);
    forall i | 0 <= i < |list| ensures list[i] < |newLocation| && (list[i] < |live| || maxPoints <= list[i]) {
      if nbrs[i] in live { RankBelow(live, maxPoints, nbrs[i]); }
    }
  }

  /** The distances of all locations to a query point. */
  function Table(metric: (Vector, Vector) -> real, point: Vector, vectors: seq<Vector>): (t: seq<real>)
    ensures |t| == |vectors| && forall i :: 0 <= i < |vectors| ==> t[i] == metric(point, vectors[i])
  {
    seq(|vectors|, i requires 0 <= i < |vectors| => metric(point, vectors[i]))
  }

  function QueryFor(metric: (Vector, Vector) -> real, point: Vector, graph: Graph, vectors: seq<Vector>,
                    L: nat): Query {
    Query(graph, Table(metric, point, vectors), Interval(0, |graph|), L)
  }

  /** Lists and vectors after a move of the locations in r; the move keeps the order of the locations. */
  ghost predicate Renamed(r: map<nat, nat>, was: Graph, vectors: seq<Vector>, now: Graph, moved: seq<Vector>) {
    && Monotone(r) && InRange(was) && InRange(now) && |was| == |vectors| && |now| == |moved|
    && (forall x :: x in r ==> x < |was| && r[x] < |now|)
    && (forall x :: x in r ==> forall i :: 0 <= i < |was[x]| ==> was[x][i] in r)
    && (forall x :: x in r ==> now[r[x]] == RenameAll(r, was[x]))
    && (forall x :: x in r ==> moved[r[x]] == vectors[x])
  }

  /** A renamed index is the old one under the renaming, for every query point. */
  lemma RenamedQuery(r: map<nat, nat>, was: Graph, vectors: seq<Vector>, now: Graph, moved: seq<Vector>,
                     metric: (Vector, Vector) -> real, point: Vector, L: nat)
    requires Renamed(r, was, vectors, now, moved) && 0 < L
    ensures Renames(r, QueryFor(metric, point, was, vectors, L), QueryFor(metric, point, now, moved, L))
  {
  }

  /** The compacted lists and vectors are the old ones renamed. */
  lemma CompactionRenames(live: set<nat>, maxPoints: nat, newLocation: seq<nat>, empties: set<nat>, was: Graph,
                          vectors: seq<Vector>, now: Graph, moved: seq<Vector>)
    requires InRange(was) && InRange(now) && |newLocation| == |was| && Assigned(newLocation, live, maxPoints)
    requires LiveBelow(live, maxPoints) && maxPoints <= |was|
    requires forall x: nat :: x in empties <==> x < maxPoints && x !in live
    requires forall x, y :: 0 <= x < |was| && Present(live, maxPoints, x) && y in was[x] ==> Present(live, maxPoints, y)
    requires Compacted(live, maxPoints, newLocation, empties, was, vectors, now, moved)
    ensures Renamed(Renaming(live, maxPoints, |was|), was, vectors, now, moved)
  {
    var r := Renaming(live, maxPoints, |was|);
    RenamingMonotone(live, maxPoints, |was|);
    forall x | x in r
      ensures (forall i :: 0 <= i < |was[x]| ==> was[x][i] in r) && now[r[x]] == RenameAll(r, was[x])
    {
      forall i | 0 <= i < |was[x]| ensures Present(live, maxPoints, was[x][i]) { assert was[x][i] in was[x]; }
      NewListRenames(live, maxPoints, newLocation, empties, was[x]);
      assert r[x] == newLocation[x];
    }
  }

  /** The clearing loop over the slots behind the live points. */
  method ClearTail(graph0: Graph, nd: nat, maxPoints: nat) returns (graph: Graph)
    requires nd <= maxPoints <= |graph0|
    ensures |graph| == |graph0|
    ensures forall p :: 0 <= p < |graph| ==> graph[p] == if nd <= p < maxPoints then [] else graph0[p]
  {
    graph := graph0;
    for p := nd to maxPoints
      invariant |graph| == |graph0|
      invariant forall q :: 0 <= q < |graph| ==> graph[q] == if nd <= q < p then [] else graph0[q]
    {
      graph := graph[p := []];
    }
  }

  /** A list without its dangling neighbours. */
  ghost function Kept(live: set<nat>, maxPoints: nat, nbrs: seq<nat>): (r: seq<nat>)
    ensures forall y :: y in r <==> y in nbrs && Present(live, maxPoints, y)
  {
    if nbrs == [] then []
    else
      var init, y := nbrs[..|nbrs| - 1], nbrs[|nbrs| - 1];
      assert nbrs == init + [y];
      if Present(live, maxPoints, y) then Kept(live, maxPoints, init) + [y] else Kept(live, maxPoints, init)
  }

  lemma {:induction false} NothingDangling(live: set<nat>, maxPoints: nat, nbrs: seq<nat>)
    requires forall y :: y in nbrs ==> Present(live, maxPoints, y)
    ensures Kept(live, maxPoints, nbrs) == nbrs
  {
    if nbrs != [] {
      assert nbrs == nbrs[..|nbrs| - 1] + [nbrs[|nbrs| - 1]];
      NothingDangling(live, maxPoints, nbrs[..|nbrs| - 1]);
    }
  }

  /** The graph without edges to locations that hold no point. */
  ghost function Undangled(live: set<nat>, maxPoints: nat, g: Graph): (r: Graph)
    ensures |r| == |g| && forall x :: 0 <= x < |g| ==> r[x] == Kept(live, maxPoints, g[x])
  {
    seq(|g|, x requires 0 <= x < |g| => Kept(live, maxPoints, g[x]))
  }

  lemma UndangledInRange(live: set<nat>, maxPoints: nat, g: Graph)
    requires InRange(g)
    ensures InRange(Undangled(live, maxPoints, g))
  {
    var r := Undangled(live, maxPoints, g);
    forall x | 0 <= x < |r| ensures Below(r[x], |r|) {
      forall i | 0 <= i < |r[x]| ensures r[x][i] < |r| { assert r[x][i] in r[x] && r[x][i] in g[x]; }
    }
  }

  lemma UndangledSame(live: set<nat>, maxPoints: nat, g: Graph)
    requires forall x, y :: 0 <= x < |g| && Present(live, maxPoints, x) && y in g[x] ==> Present(live, maxPoints, y)
    ensures forall x :: 0 <= x < |g| && Present(live, maxPoints, x) ==> Undangled(live, maxPoints, g)[x] == g[x]
  {
    forall x | 0 <= x < |g| && Present(live, maxPoints, x) ensures Undangled(live, maxPoints, g)[x] == g[x] {
      NothingDangling(live, maxPoints, g[x]);
    }
  }

  lemma RenamedWithoutDangling(live: set<nat>, maxPoints: nat, was: Graph, vectors: seq<Vector>, now: Graph,
                               moved: seq<Vector>)
    requires forall x, y :: 0 <= x < |was| && Present(live, maxPoints, x) && y in was[x] ==> Present(live, maxPoints, y)
    requires InRange(was) && LiveBelow(live, maxPoints) && maxPoints <= |was|
    requires Renamed(Renaming(live, maxPoints, |was|), Undangled(live, maxPoints, was), vectors, now, moved)
    ensures Renamed(Renaming(live, maxPoints, |was|), was, vectors, now, moved)
  {
    UndangledSame(live, maxPoints, was);
  }

  lemma {:induction false} NewListOfKept(live: set<nat>, maxPoints: nat, newLocation: seq<nat>, empties: set<nat>,
                                         nbrs: seq<nat>)
    requires Below(nbrs, |newLocation|) && LiveBelow(live, maxPoints)
    requires forall x: nat :: x in empties <==> x < maxPoints && x !in live
    ensures Below(Kept(live, maxPoints, nbrs), |newLocation|)
    ensures NewList(newLocation, empties, Kept(live, maxPoints, nbrs)) == NewList(newLocation, empties, nbrs)
  {
    if nbrs != [] {
      var init, y := nbrs[..|nbrs| - 1], nbrs[|nbrs| - 1];
      NewListOfKept(live, maxPoints, newLocation, empties, init);
      if Present(live, maxPoints, y) {
        var kept := Kept(live, maxPoints, init);
        assert (kept + [y])[..|kept + [y]| - 1] == kept;
      }
    }
  }

  lemma CompactedWithoutDangling(live: set<nat>, maxPoints: nat, newLocation: seq<nat>, empties: set<nat>, was: Graph,
                                 vectors: seq<Vector>, now: Graph, moved: seq<Vector>)
    requires InRange(was) && |newLocation| == |was| && LiveBelow(live, maxPoints)
    requires forall x: nat :: x in empties <==> x < maxPoints && x !in live
    requires Compacted(live, maxPoints, newLocation, empties, was, vectors, now, moved)
    ensures InRange(Undangled(live, maxPoints, was))
    ensures Compacted(live, maxPoints, newLocation, empties, Undangled(live, maxPoints, was), vectors, now, moved)
  {
    UndangledInRange(live, maxPoints, was);
    forall x | 0 <= x < |was| && Present(live, maxPoints, x)
      ensures NewList(newLocation, empties, Undangled(live, maxPoints, was)[x]) == NewList(newLocation, empties, was[x])
    {
      NewListOfKept(live, maxPoints, newLocation, empties, was[x]);
    }
  }

  /** Compaction of lists and vectors: they are those of the graph without dangling edges, renamed. */
  method CompactLists(tagged: map<nat, int>, nd: nat, maxPoints: nat, was: Graph, vectors: seq<Vector>)
    returns (graph: Graph, vecs: seq<Vector>, newLocation: seq<nat>)
    requires InRange(was) && |was| == |vectors| && maxPoints <= |was| < INVALID
    requires LiveBelow(tagged.Keys, maxPoints) && nd == |tagged| <= maxPoints
    ensures |newLocation| == |was| && Assigned(newLocation, tagged.Keys, maxPoints) && |graph| == |was|
    ensures Renamed(Renaming(tagged.Keys, maxPoints, |was|), Undangled(tagged.Keys, maxPoints, was), vectors, graph,
                    vecs)
    ensures forall p, y :: 0 <= p < |graph| && y in graph[p] ==> (y < nd || maxPoints <= y < |graph|)
    ensures forall p :: nd <= p < maxPoints ==> graph[p] == []
  {
    ghost var live := tagged.Keys;
    ghost var kept := Undangled(live, maxPoints, was);
    var empties;
    newLocation, empties := AssignLocations(tagged, maxPoints, |was|);
    graph, vecs := MoveAll(live, maxPoints, newLocation, empties, was, vectors);
    RankOfAll(live, maxPoints, |was|);
    graph := ClearTail(graph, nd, maxPoints);
    CompactedWithoutDangling(live, maxPoints, newLocation, empties, was, vectors, graph, vecs);
    CompactedStaysWithin(live, maxPoints, newLocation, empties, kept, vectors, graph, vecs);
    CompactionRenames(live, maxPoints, newLocation, empties, kept, vectors, graph, vecs);
  }

  /** On a graph without dangling edges nothing is dropped. */
  method CompactPresent(tagged: map<nat, int>, nd: nat, maxPoints: nat, was: Graph, vectors: seq<Vector>)
    returns (graph: Graph, vecs: seq<Vector>, newLocation: seq<nat>)
    requires InRange(was) && |was| == |vectors| && maxPoints <= |was| < INVALID
    requires LiveBelow(tagged.Keys, maxPoints) && nd == |tagged| <= maxPoints
    requires forall x, y :: 0 <= x < |was| && Present(tagged.Keys, maxPoints, x) && y in was[x] ==>
      Present(tagged.Keys, maxPoints, y)
    ensures |newLocation| == |was| && Assigned(newLocation, tagged.Keys, maxPoints) && |graph| == |was|
    ensures Renamed(Renaming(tagged.Keys, maxPoints, |was|), was, vectors, graph, vecs)
    ensures forall p, y :: 0 <= p < |graph| && y in graph[p] ==> (y < nd || maxPoints <= y < |graph|)
    ensures forall p :: nd <= p < maxPoints && p < |graph| ==> graph[p] == []
  {
    graph, vecs, newLocation := CompactLists(tagged, nd, maxPoints, was, vectors);
    RenamedWithoutDangling(tagged.Keys, maxPoints, was, vectors, graph, vecs);
  }
}
