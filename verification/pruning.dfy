/** From a candidate pool to an adjacency list: sort, prune, saturate. */
module Pruning {
  import opened Collections
  import opened NeighborQueue
  import opened Occlusion

  ghost predicate Sorted(q: seq<Neighbor>) {
    forall i, j :: 0 <= i < j < |q| ==> !Less(q[j], q[i])
  }

  lemma {:induction false} CountsBoundDuplicates(s: seq<nat>)
    ensures NoDup(s) <==> forall x :: multiset(s)[x] <= 1
  {
    if s != [] {
      var init := s[..|s| - 1];
      var last := s[|s| - 1];
      assert s == init + [last];
      CountsBoundDuplicates(init);
      NoDupSnoc(init, last);
      assert multiset(s) == multiset(init) + multiset{last};
      if last in init {
        assert multiset(s)[last] > 1;
      } else if !NoDup(init) {
        var x :| multiset(init)[x] > 1;
        assert multiset(s)[x] > 1;
      } else {
        assert multiset(init)[last] == 0;
      }
    }
  }

  function PutSorted(q: seq<Neighbor>, x: Neighbor): (r: seq<Neighbor>)
    ensures |r| == |q| + 1
  {
    if q == [] then [x]
    else if Less(q[|q| - 1], x) then q + [x]
    else PutSorted(q[..|q| - 1], x) + [q[|q| - 1]]
  }

  lemma {:induction false} PutSortedCounts(q: seq<Neighbor>, x: Neighbor)
    ensures multiset(PutSorted(q, x)) == multiset(q) + multiset{x}
    ensures multiset(Ids(PutSorted(q, x))) == multiset(Ids(q)) + multiset{x.id}
  {
    if q == [] {
      assert Ids([x]) == [x.id];
    } else {
      var init, last := q[..|q| - 1], q[|q| - 1];
      if Less(last, x) {
        CountsSnoc(q, x);
      } else {
        assert q == init + [last];
        PutSortedCounts(init, x);
        CountsBefore(init, PutSorted(init, x), last, x);
      }
    }
  }

  lemma CountsBefore(init: seq<Neighbor>, put: seq<Neighbor>, last: Neighbor, x: Neighbor)
    requires multiset(put) == multiset(init) + multiset{x} && multiset(Ids(put)) == multiset(Ids(init)) + multiset{x.id}
    ensures multiset(put + [last]) == multiset(init + [last]) + multiset{x}
    ensures multiset(Ids(put + [last])) == multiset(Ids(init + [last])) + multiset{x.id}
  {
    CountsSnoc(put, last);
    CountsSnoc(init, last);
  }

  lemma CountsSnoc(q: seq<Neighbor>, x: Neighbor)
    ensures multiset(q + [x]) == multiset(q) + multiset{x}
    ensures multiset(Ids(q + [x])) == multiset(Ids(q)) + multiset{x.id}
  {
    IdsSnoc(q, x);
  }

  lemma IdsSnoc(q: seq<Neighbor>, x: Neighbor)
    ensures Ids(q + [x]) == Ids(q) + [x.id]
  {
  }

  lemma {:induction false} PutSortedKeepsOrder(q: seq<Neighbor>, x: Neighbor)
    requires Sorted(q)
    ensures Sorted(PutSorted(q, x))
  {
    if q != [] {
      var init := q[..|q| - 1];
      var last := q[|q| - 1];
      if Less(last, x) {
        forall i | 0 <= i < |q| ensures !Less(x, q[i]) { assert i == |q| - 1 || !Less(q[|q| - 1], q[i]); }
      } else {
        PutSortedKeepsOrder(init, x);
        var r := PutSorted(init, x);
        PutSortedCounts(init, x);
        forall i | 0 <= i < |r| ensures !Less(last, r[i]) {
          assert r[i] in multiset(r);
          if r[i] != x {
            assert r[i] in multiset(init);
            var j :| 0 <= j < |init| && init[j] == r[i];
            assert !Less(q[|q| - 1], q[j]);
          }
        }
      }
    }
  }

  /** std::sort by distance, ties by location. */
  method SortPool(pool: seq<Neighbor>) returns (sorted: seq<Neighbor>)
    ensures Sorted(sorted) && multiset(sorted) == multiset(pool)
    ensures forall i, j :: 0 <= i < j < |sorted| ==>
      sorted[i].distance < sorted[j].distance
      || (sorted[i].distance == sorted[j].distance && sorted[i].id <= sorted[j].id)
    ensures multiset(Ids(sorted)) == multiset(Ids(pool))
  {
    sorted := [];
    for i := 0 to |pool|
      invariant Sorted(sorted) && multiset(sorted) == multiset(pool[..i])
      invariant multiset(Ids(sorted)) == multiset(Ids(pool[..i]))
    {
      PutSortedKeepsOrder(sorted, pool[i]);
      PutSortedCounts(sorted, pool[i]);
      IdsSnoc(pool[..i], pool[i]);
      assert pool[..i + 1] == pool[..i] + [pool[i]];
      sorted := PutSorted(sorted, pool[i]);
    }
    assert pool[..|pool|] == pool;
  }

  /** A saturated list: behind the pruned ones come the candidates at some positions, in order, and a candidate that is
      not listed finds the list full and comes after all of those. */
  ghost predicate Saturated(cand: seq<Neighbor>, pruned: seq<nat>, location: nat, range: nat, list: seq<nat>,
                            added: seq<nat>)
  {
    && pruned <= list && |list| == |pruned| + |added|
    && (forall k :: 0 <= k < |added| ==> added[k] < |cand| && list[|pruned| + k] == cand[added[k]].id)
    && (forall k, l :: 0 <= k < l < |added| ==> added[k] < added[l])
    && forall j {:trigger cand[j]} :: 0 <= j < |cand| ==> Listed(cand[j].id, location, range, list, added, j)
  }

  ghost predicate Listed(x: nat, location: nat, range: nat, list: seq<nat>, added: seq<nat>, j: nat) {
    x in list || x == location || (|list| == range && forall k :: 0 <= k < |added| ==> added[k] < j)
  }

  /** Saturation: candidates are appended, nearest first, until the list is full. */
  method Saturate(location: nat, cand: seq<Neighbor>, range: nat, pruned: seq<nat>)
    returns (list: seq<nat>, ghost added: seq<nat>)
    requires NoDup(pruned) && location !in pruned && |pruned| <= range
    ensures NoDup(list) && location !in list && |list| <= range
    ensures Saturated(cand, pruned, location, range, list, added)
  {
    list, added := pruned, [];
    for i := 0 to |cand|
      invariant pruned <= list && |list| == |pruned| + |added| && NoDup(list) && location !in list && |list| <= range
      invariant forall k :: 0 <= k < |added| ==> added[k] < i && list[|pruned| + k] == cand[added[k]].id
      invariant forall k, l :: 0 <= k < l < |added| ==> added[k] < added[l]
      invariant forall j :: 0 <= j < i ==> cand[j].id in list || cand[j].id == location
    {
      if |list| >= range {
        return;
      }
      if cand[i].id !in list && cand[i].id != location {
        NoDupSnoc(list, cand[i].id);
        list, added := list + [cand[i].id], added + [i];
      }
    }
  }

  lemma SaturatedMembers(cand: seq<Neighbor>, pruned: seq<nat>, location: nat, range: nat, list: seq<nat>,
                         added: seq<nat>)
    requires Saturated(cand, pruned, location, range, list, added)
    ensures forall x :: x in list ==> x in pruned || x in Ids(cand)
  {
    forall x | x in list ensures x in pruned || x in Ids(cand) {
      var i :| 0 <= i < |list| && list[i] == x;
      if i >= |pruned| { assert Ids(cand)[added[i - |pruned|]] == x; }
    }
  }

  /** The shape of every pruned adjacency list. */
  ghost predicate ListShape(location: nat, ids: set<nat>, range: nat, list: seq<nat>) {
    NoDup(list) && location !in list && |list| <= range && forall x :: x in list ==> x in ids
  }

  /** Every entry carries its distance to the location. */
  ghost predicate MeasuredFrom(location: nat, pool: seq<Neighbor>, D: Metric) {
    forall i :: 0 <= i < |pool| ==> pool[i].distance == D(location, pool[i].id)
  }

  /** The list is the pruning of the sorted candidates, followed by nothing or, if asked for, by saturation. */
  ghost predicate PrunedFrom(location: nat, sorted: seq<Neighbor>, range: nat, maxc: nat, alpha: real, saturate: bool,
                             D: Metric, list: seq<nat>, chosen: seq<nat>, rounds: seq<nat>)
  {
    var cand := Truncated(sorted, maxc);
    && Sorted(sorted)
    && IsPruning(cand, D, alpha, range, location, {}, chosen, rounds)
    && KeptIds(cand, chosen, location, {}) <= list
    && (!saturate || alpha <= 1.0 ==> list == KeptIds(cand, chosen, location, {}))
    && (saturate && alpha > 1.0 ==>
          exists added :: Saturated(cand, KeptIds(cand, chosen, location, {}), location, range, list, added))
  }

  /** The list that pruning makes of a set of candidate locations. */
  ghost predicate IsPruneResult(location: nat, ids: set<nat>, range: nat, maxc: nat, alpha: real, saturate: bool,
                                D: Metric, list: seq<nat>)
  {
    && ListShape(location, ids, range, list)
    && exists sorted, chosen, rounds ::
         && NoDup(Ids(sorted)) && Elems(Ids(sorted)) == ids && MeasuredFrom(location, sorted, D)
         && PrunedFrom(location, sorted, range, maxc, alpha, saturate, D, list, chosen, rounds)
  }

  /** In full: a duplicate-free list within the range, of candidates only and without the location. Without saturation,
      or with alpha at most 1, it is a pruning of the candidates in order of distance, cut to maxc; with it, a list that
      is not full has all of them. */
  lemma PruneResultMeans(location: nat, ids: set<nat>, range: nat, maxc: nat, alpha: real, saturate: bool, D: Metric,
                         list: seq<nat>)
    requires IsPruneResult(location, ids, range, maxc, alpha, saturate, D, list)
    ensures NoDup(list) && |list| <= range && location !in list && forall x :: x in list ==> x in ids
    ensures !saturate || alpha <= 1.0 ==> exists sorted: seq<Neighbor>, cand, chosen, rounds ::
      && Elems(Ids(sorted)) == ids && cand <= sorted && |cand| == (if |sorted| < maxc then |sorted| else maxc)
      && (forall i :: 0 <= i < |sorted| ==> sorted[i].distance == D(location, sorted[i].id))
      && (forall i, j :: 0 <= i < j < |sorted| ==> sorted[i].distance <= sorted[j].distance)
      && IsPruning(cand, D, alpha, range, location, {}, chosen, rounds) && list == KeptIds(cand, chosen, location, {})
    ensures saturate && alpha > 1.0 && |ids| <= maxc && |list| < range ==> forall x :: x in ids && x != location ==>
      x in list
  {
    var sorted, chosen, rounds :|
      && NoDup(Ids(sorted)) && Elems(Ids(sorted)) == ids && MeasuredFrom(location, sorted, D)
      && PrunedFrom(location, sorted, range, maxc, alpha, saturate, D, list, chosen, rounds);
    ElemsSize(Ids(sorted));
    var cand := Truncated(sorted, maxc);
    if saturate && alpha > 1.0 {
      if |ids| <= maxc && |list| < range {
        AllTaken(location, sorted, range, maxc, alpha, D, list, chosen, rounds);
      }
    } else {
      assert list == KeptIds(cand, chosen, location, {});
    }
  }

  lemma AllTaken(location: nat, sorted: seq<Neighbor>, range: nat, maxc: nat, alpha: real, D: Metric, list: seq<nat>,
                 chosen: seq<nat>, rounds: seq<nat>)
    requires PrunedFrom(location, sorted, range, maxc, alpha, true, D, list, chosen, rounds)
    requires alpha > 1.0 && |sorted| <= maxc && |list| < range
    ensures forall x :: x in Elems(Ids(sorted)) && x != location ==> x in list
  {
    var cand := Truncated(sorted, maxc);
    forall x | x in Elems(Ids(sorted)) && x != location ensures x in list {
      assert x in Ids(sorted) && cand == sorted;
      var j :| 0 <= j < |cand| && Ids(sorted)[j] == x;
      assert cand[j].id == x;
    }
  }

  method PruneNeighbors(location: nat, pool: seq<Neighbor>, range: nat, maxc: nat, alpha: real, saturate: bool,
                        D: Metric)
    returns (list: seq<nat>)
    requires NoDup(Ids(pool)) && MeasuredFrom(location, pool, D)
    ensures IsPruneResult(location, Elems(Ids(pool)), range, maxc, alpha, saturate, D, list)
  {
    var sorted := SortPool(pool);
    CountsBoundDuplicates(Ids(pool));
    CountsBoundDuplicates(Ids(sorted));
    SameIds(pool, sorted);
    StillMeasured(location, pool, sorted, D);
    ghost var chosen, rounds;
    var cand;
    cand, list, chosen, rounds := OccludeList(location, sorted, alpha, range, maxc, D, {});
    TruncatedIds(sorted, maxc);
    PrunedShape(cand, D, alpha, range, location, {}, chosen, rounds);
    if saturate && alpha > 1.0 {
      ghost var pruned, added := list, [];
      list, added := Saturate(location, cand, range, list);
      SaturatedMembers(cand, pruned, location, range, list, added);
    }
    assert PrunedFrom(location, sorted, range, maxc, alpha, saturate, D, list, chosen, rounds);
  }

  /** The nearest candidate is kept: a list is empty only if there is nobody but the location itself. */
  lemma PruneResultNonEmpty(location: nat, ids: set<nat>, range: nat, maxc: nat, alpha: real, saturate: bool,
                            D: Metric, list: seq<nat>)
    requires IsPruneResult(location, ids, range, maxc, alpha, saturate, D, list)
    requires range > 0 && maxc > 0 && alpha >= 1.0 && location !in ids && ids != {}
    ensures list != []
  {
    var sorted, chosen, rounds :|
      && NoDup(Ids(sorted)) && Elems(Ids(sorted)) == ids && MeasuredFrom(location, sorted, D)
      && PrunedFrom(location, sorted, range, maxc, alpha, saturate, D, list, chosen, rounds);
    var x := Member(ids);
    assert x in Ids(sorted);
    var cand := Truncated(sorted, maxc);
    NearestIsChosen(cand, D, alpha, range, location, {}, chosen, rounds);
    KeptMembers(cand, chosen, location, {});
    assert Ids(sorted)[0] == cand[0].id;
    assert cand[chosen[0]].id in KeptIds(cand, chosen, location, {});
  }

  lemma StillMeasured(location: nat, pool: seq<Neighbor>, sorted: seq<Neighbor>, D: Metric)
    requires MeasuredFrom(location, pool, D) && multiset(sorted) == multiset(pool)
    ensures MeasuredFrom(location, sorted, D)
  {
    forall i | 0 <= i < |sorted| ensures sorted[i].distance == D(location, sorted[i].id) {
      assert sorted[i] in multiset(sorted);
      assert sorted[i] in multiset(pool);
      var j :| 0 <= j < |pool| && pool[j] == sorted[i];
    }
  }

  lemma SameIds(q: seq<Neighbor>, r: seq<Neighbor>)
    requires multiset(Ids(q)) == multiset(Ids(r))
    ensures Elems(Ids(q)) == Elems(Ids(r))
  {
    forall x ensures x in Ids(q) <==> x in Ids(r) {
      assert x in multiset(Ids(q)) <==> x in multiset(Ids(r));
    }
  }

  lemma TruncatedIds(q: seq<Neighbor>, maxc: nat)
    ensures Ids(Truncated(q, maxc)) <= Ids(q)
    ensures forall x :: x in Ids(Truncated(q, maxc)) ==> x in Ids(q)
    ensures NoDup(Ids(q)) ==> NoDup(Ids(Truncated(q, maxc)))
  {
  }
}
