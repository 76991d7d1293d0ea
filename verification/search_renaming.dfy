/** The search commutes with a strictly monotone renaming of the locations, ties included. */
module SearchRenaming {
  import opened Collections
  import opened NeighborQueue
  import opened GraphSearch
  import opened SearchAnswers

  function RenameAll(r: map<nat, nat>, s: seq<nat>): (t: seq<nat>)
    requires forall i :: 0 <= i < |s| ==> s[i] in r
    ensures |t| == |s| && forall i :: 0 <= i < |s| ==> t[i] == r[s[i]]
  {
    seq(|s|, i requires 0 <= i < |s| => r[s[i]])
  }

  function RenameSet(r: map<nat, nat>, s: set<nat>): (t: set<nat>)
    requires s <= r.Keys
    ensures forall x :: x in s ==> r[x] in t
    ensures forall y :: y in t ==> exists x :: x in s && r[x] == y
  {
    set x | x in s :: r[x]
  }

  function RenameQueue(r: map<nat, nat>, q: seq<Neighbor>): (t: seq<Neighbor>)
    requires forall i :: 0 <= i < |q| ==> q[i].id in r
    ensures |t| == |q| && forall i :: 0 <= i < |q| ==> t[i] == q[i].(id := r[q[i].id])
  {
    seq(|q|, i requires 0 <= i < |q| => q[i].(id := r[q[i].id]))
  }

  ghost predicate Monotone(r: map<nat, nat>) {
    forall x, y :: x in r && y in r && x < y ==> r[x] < r[y]
  }

  /** p2 is p renamed by r, on the locations r knows; edges do not leave those. */
  ghost predicate Renames(r: map<nat, nat>, p: Query, p2: Query) {
    && p.Valid() && p2.Valid() && p.L == p2.L
    && Monotone(r)
    && (forall x :: x in r ==> x < |p.graph| && r[x] < |p2.graph|)
    && (forall x :: x in r ==> forall i :: 0 <= i < |p.graph[x]| ==> p.graph[x][i] in r)
    && (forall x :: x in r ==> p2.graph[r[x]] == RenameAll(r, p.graph[x]))
    && (forall x :: x in r ==> p2.dist[r[x]] == p.dist[x])
    && (forall x :: x in r ==> (x in p.allowed <==> r[x] in p2.allowed))
  }

  /** The state only mentions locations that r knows. */
  ghost predicate Known(r: map<nat, nat>, s: SearchState) {
    && (forall i :: 0 <= i < |s.queue| ==> s.queue[i].id in r)
    && s.visited <= r.Keys
    && (forall i :: 0 <= i < |s.expanded| ==> s.expanded[i] in r)
  }

  function RenameState(r: map<nat, nat>, s: SearchState): SearchState
    requires forall i :: 0 <= i < |s.queue| ==> s.queue[i].id in r
    requires s.visited <= r.Keys
    requires forall i :: 0 <= i < |s.expanded| ==> s.expanded[i] in r
  {
    SearchState(RenameQueue(r, s.queue), RenameSet(r, s.visited), RenameAll(r, s.expanded))
  }

  lemma Injective(r: map<nat, nat>, s: set<nat>, x: nat)
    requires Monotone(r) && s <= r.Keys && x in r
    ensures r[x] in RenameSet(r, s) <==> x in s
  {
    if r[x] in RenameSet(r, s) {
      var y :| y in s && r[y] == r[x];
      assert y == x || y < x || x < y;
    }
  }

  lemma RenameSnoc(r: map<nat, nat>, s: seq<nat>, x: nat)
    requires x in r && forall i :: 0 <= i < |s| ==> s[i] in r
    ensures forall i :: 0 <= i < |s + [x]| ==> (s + [x])[i] in r
    ensures RenameAll(r, s + [x]) == RenameAll(r, s) + [r[x]]
  {
  }

  lemma RenameInit(r: map<nat, nat>, s: seq<nat>)
    requires s != [] && forall i :: 0 <= i < |s| ==> s[i] in r
    ensures RenameAll(r, s)[..|s| - 1] == RenameAll(r, s[..|s| - 1])
    ensures RenameAll(r, s)[|s| - 1] == r[s[|s| - 1]]
  {
  }

  lemma RenameCons(r: map<nat, nat>, x: Neighbor, q: seq<Neighbor>)
    requires x.id in r && forall i :: 0 <= i < |q| ==> q[i].id in r
    ensures forall i :: 0 <= i < |[x] + q| ==> ([x] + q)[i].id in r
    ensures RenameQueue(r, [x] + q) == [x.(id := r[x.id])] + RenameQueue(r, q)
  {
  }

  lemma {:induction false} UnvisitedRenames(r: map<nat, nat>, p: Query, p2: Query, visited: set<nat>, nbrs: seq<nat>)
    requires Monotone(r) && visited <= r.Keys
    requires forall x :: x in r ==> (x in p.allowed <==> r[x] in p2.allowed)
    requires forall i :: 0 <= i < |nbrs| ==> nbrs[i] in r
    ensures forall i :: 0 <= i < |Unvisited(p, visited, nbrs)| ==> Unvisited(p, visited, nbrs)[i] in r
    ensures Unvisited(p2, RenameSet(r, visited), RenameAll(r, nbrs)) == RenameAll(r, Unvisited(p, visited, nbrs))
  {
    if nbrs != [] {
      var init := nbrs[..|nbrs| - 1];
      var x := nbrs[|nbrs| - 1];
      UnvisitedRenames(r, p, p2, visited, init);
      RenameInit(r, nbrs);
      Injective(r, visited, x);
      if x in p.allowed && x !in visited {
        RenameSnoc(r, Unvisited(p, visited, init), x);
      }
    }
  }

  lemma LessRenames(r: map<nat, nat>, x: Neighbor, y: Neighbor)
    requires Monotone(r) && x.id in r && y.id in r
    ensures Less(x.(id := r[x.id]), y.(id := r[y.id])) <==> Less(x, y)
    ensures r[x.id] == r[y.id] <==> x.id == y.id
  {
    assert x.id == y.id || x.id < y.id || y.id < x.id;
  }

  lemma {:induction false} PlaceRenames(r: map<nat, nat>, q: seq<Neighbor>, x: Neighbor)
    requires Monotone(r) && x.id in r
    requires forall i :: 0 <= i < |q| ==> q[i].id in r
    ensures forall i :: 0 <= i < |Place(q, x)| ==> Place(q, x)[i].id in r
    ensures Place(RenameQueue(r, q), x.(id := r[x.id])) == RenameQueue(r, Place(q, x))
  {
    if q == [] {
      RenameCons(r, Unexpanded(x), []);
    } else {
      assert q == [q[0]] + q[1..];
      LessRenames(r, x, q[0]);
      PlaceRenames(r, q[1..], x);
      RenameCons(r, q[0], q[1..]);
      RenameCons(r, Unexpanded(x), q);
      RenameCons(r, q[0], Place(q[1..], x));
    }
  }

  lemma OfferRenames(r: map<nat, nat>, q: seq<Neighbor>, x: Neighbor, capacity: nat)
    requires Monotone(r) && x.id in r
    requires forall i :: 0 <= i < |q| ==> q[i].id in r
    ensures forall i :: 0 <= i < |Offer(q, x, capacity)| ==> Offer(q, x, capacity)[i].id in r
    ensures Offer(RenameQueue(r, q), x.(id := r[x.id]), capacity) == RenameQueue(r, Offer(q, x, capacity))
  {
    PlaceRenames(r, q, x);
  }

  lemma {:induction false} OfferAllRenames(r: map<nat, nat>, p: Query, p2: Query, q: seq<Neighbor>, ids: seq<nat>)
    requires Renames(r, p, p2)
    requires forall i :: 0 <= i < |q| ==> q[i].id in r
    requires forall i :: 0 <= i < |ids| ==> ids[i] in r
    ensures Below(ids, |p.dist|) && Below(RenameAll(r, ids), |p2.dist|)
    ensures forall i :: 0 <= i < |OfferAll(p, q, ids)| ==> OfferAll(p, q, ids)[i].id in r
    ensures OfferAll(p2, RenameQueue(r, q), RenameAll(r, ids)) == RenameQueue(r, OfferAll(p, q, ids))
  {
    if ids != [] {
      var init := ids[..|ids| - 1];
      var x := ids[|ids| - 1];
      OfferAllRenames(r, p, p2, q, init);
      RenameInit(r, ids);
      OfferRenames(r, OfferAll(p, q, init), Item(p.dist, x), p.L);
    }
  }

  lemma ExpandRenames(r: map<nat, nat>, q: seq<Neighbor>)
    requires forall i :: 0 <= i < |q| ==> q[i].id in r
    ensures FirstUnexpanded(RenameQueue(r, q)) == FirstUnexpanded(q)
    ensures FirstUnexpanded(q) < |q| ==> Expand(RenameQueue(r, q)) == RenameQueue(r, Expand(q))
  {
    FirstUnexpandedIs(RenameQueue(r, q), FirstUnexpanded(q));
  }

  lemma RenameUnion(r: map<nat, nat>, s: set<nat>, ids: seq<nat>)
    requires s <= r.Keys && forall i :: 0 <= i < |ids| ==> ids[i] in r
    ensures s + Elems(ids) <= r.Keys
    ensures RenameSet(r, s + Elems(ids)) == RenameSet(r, s) + Elems(RenameAll(r, ids))
  {
    forall y | y in RenameSet(r, s + Elems(ids)) ensures y in RenameSet(r, s) + Elems(RenameAll(r, ids)) {
      var x :| x in s + Elems(ids) && r[x] == y;
      if x in ids {
        var i :| 0 <= i < |ids| && ids[i] == x;
        assert RenameAll(r, ids)[i] == y;
      }
    }
    forall y | y in RenameAll(r, ids) ensures y in RenameSet(r, s + Elems(ids)) {
      var i :| 0 <= i < |ids| && RenameAll(r, ids)[i] == y;
      assert ids[i] in s + Elems(ids);
    }
  }

  lemma RenameOneMore(r: map<nat, nat>, s: set<nat>, x: nat)
    requires s <= r.Keys && x in r
    ensures RenameSet(r, s + {x}) == RenameSet(r, s) + {r[x]}
  {
    RenameUnion(r, s, [x]);
    assert Elems([x]) == {x} && Elems(RenameAll(r, [x])) == {r[x]};
  }

  /** Expanding one location: the same place in the queue, the renamed news, the renamed queue. */
  lemma ExpansionRenames(r: map<nat, nat>, p: Query, p2: Query, queue: seq<Neighbor>, visited: set<nat>, n: nat)
    requires Renames(r, p, p2) && visited <= r.Keys
    requires forall i :: 0 <= i < |queue| ==> queue[i].id in r
    requires FirstUnexpanded(queue) < |queue| && n == queue[FirstUnexpanded(queue)].id
    ensures var found := Unvisited(p, visited, p.graph[n]);
      var queue2 := RenameQueue(r, queue);
      && FirstUnexpanded(queue2) == FirstUnexpanded(queue) && queue2[FirstUnexpanded(queue)].id == r[n]
      && (forall i :: 0 <= i < |found| ==> found[i] in r)
      && Below(found, |p.dist|) && Below(RenameAll(r, found), |p2.dist|)
      && Unvisited(p2, RenameSet(r, visited), p2.graph[r[n]]) == RenameAll(r, found)
      && (var now := OfferAll(p, Expand(queue), found);
          && (forall i :: 0 <= i < |now| ==> now[i].id in r)
          && OfferAll(p2, Expand(queue2), RenameAll(r, found)) == RenameQueue(r, now))
  {
    ExpandRenames(r, queue);
    UnvisitedRenames(r, p, p2, visited, p.graph[n]);
    OfferAllRenames(r, p, p2, Expand(queue), Unvisited(p, visited, p.graph[n]));
  }

  lemma StepRenames(r: map<nat, nat>, p: Query, p2: Query, s: SearchState)
    requires Renames(r, p, p2) && Known(r, s) && Inv(p, s) && Inv(p2, RenameState(r, s)) && !Done(s)
    ensures !Done(RenameState(r, s))
    ensures Known(r, Step(p, s)) && Step(p2, RenameState(r, s)) == RenameState(r, Step(p, s))
  {
    var n := s.queue[FirstUnexpanded(s.queue)].id;
    ExpansionRenames(r, p, p2, s.queue, s.visited, n);
    RenameUnion(r, s.visited, Unvisited(p, s.visited, p.graph[n]));
    RenameSnoc(r, s.expanded, n);
  }

  lemma {:induction false} RunRenames(r: map<nat, nat>, p: Query, p2: Query, s: SearchState)
    requires Renames(r, p, p2) && Known(r, s) && Inv(p, s) && Inv(p2, RenameState(r, s))
    ensures Known(r, Run(p, s)) && Run(p2, RenameState(r, s)) == RenameState(r, Run(p, s))
    decreases |p.graph| - |s.visited|, CountUnexpanded(s.queue)
  {
    BoundedSize(s.visited, |p.graph|);
    ExpandRenames(r, s.queue);
    if !Done(s) {
      StepRenames(r, p, p2, s);
      StepKeepsInv(p, s);
      StepProgress(p, s);
      StepKeepsInv(p2, RenameState(r, s));
      RunRenames(r, p, p2, Step(p, s));
    }
  }

  lemma {:induction false} StartRenames(r: map<nat, nat>, p: Query, p2: Query, starts: seq<nat>)
    requires Renames(r, p, p2) && forall i :: 0 <= i < |starts| ==> starts[i] in r
    ensures Below(starts, |p.dist|) && Below(RenameAll(r, starts), |p2.dist|)
    ensures Known(r, StartState(p, starts))
    ensures StartState(p2, RenameAll(r, starts)) == RenameState(r, StartState(p, starts))
  {
    if starts != [] {
      var init := starts[..|starts| - 1];
      var x := starts[|starts| - 1];
      StartRenames(r, p, p2, init);
      RenameInit(r, starts);
      var s := StartState(p, init);
      Injective(r, s.visited, x);
      if x in p.allowed && x !in s.visited {
        OfferRenames(r, s.queue, Item(p.dist, x), p.L);
        RenameOneMore(r, s.visited, x);
      }
    }
  }

  /** The whole search commutes with the renaming. */
  lemma SearchRenames(r: map<nat, nat>, p: Query, p2: Query, starts: seq<nat>)
    requires Renames(r, p, p2) && forall i :: 0 <= i < |starts| ==> starts[i] in r
    ensures Below(starts, |p.dist|) && Below(RenameAll(r, starts), |p2.dist|)
    ensures Known(r, Search(p, starts))
    ensures Search(p2, RenameAll(r, starts)) == RenameState(r, Search(p, starts))
  {
    StartRenames(r, p, p2, starts);
    StartKeepsInv(p, starts);
    StartKeepsInv(p2, RenameAll(r, starts));
    RunRenames(r, p, p2, StartState(p, starts));
  }

  lemma {:induction false} TagsRename(r: map<nat, nat>, q: seq<Neighbor>, tags: map<nat, int>, tags2: map<nat, int>)
    requires forall i :: 0 <= i < |q| ==> q[i].id in r
    requires forall x :: x in r ==> (x in tags <==> r[x] in tags2)
    requires forall x :: x in r && x in tags ==> tags[x] == tags2[r[x]]
    ensures TaggedEntries(RenameQueue(r, q), tags2) == TaggedEntries(q, tags)
  {
    if q != [] {
      var init := q[..|q| - 1];
      TagsRename(r, init, tags, tags2);
      assert RenameQueue(r, q)[..|q| - 1] == RenameQueue(r, init);
    }
  }

  /** Renaming the locations leaves the reported tags and distances as they were, whatever K, L and the clipping. */
  lemma AnswersRename(r: map<nat, nat>, p: Query, p2: Query, starts: seq<nat>, tags: map<nat, int>,
                      tags2: map<nat, int>, K: nat, resVectors: nat)
    requires Renames(r, p, p2)
    requires forall i :: 0 <= i < |starts| ==> starts[i] in r
    requires forall x :: x in r ==> (x in tags <==> r[x] in tags2)
    requires forall x :: x in r && x in tags ==> tags[x] == tags2[r[x]]
    ensures Below(starts, |p.dist|) && Below(RenameAll(r, starts), |p2.dist|)
    ensures TagResult(p2, RenameAll(r, starts), K, resVectors, tags2) == TagResult(p, starts, K, resVectors, tags)
  {
    SearchRenames(r, p, p2, starts);
    TagsRename(r, Search(p, starts).queue, tags, tags2);
  }
}
