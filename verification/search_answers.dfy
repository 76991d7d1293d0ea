/** What a search reports from the candidate queue it ends with. */
module SearchAnswers {
  import opened Collections
  import opened NeighborQueue
  import opened GraphSearch

  datatype Outcome<T> = Answer(value: T) | Refused

  /** The locations a query starts from: the start location, then the other frozen ones. */
  function InitIds(start: nat, maxPoints: nat, numFrozen: nat): (r: seq<nat>)
    ensures forall x :: x in r <==> x == start || maxPoints <= x < maxPoints + numFrozen
    decreases numFrozen
  {
    if numFrozen == 0 then [start]
    else
      var r := InitIds(start, maxPoints, numFrozen - 1);
      var frozen := maxPoints + numFrozen - 1;
      if frozen != start then r + [frozen] else r
  }

  method GetInitIds(start: nat, maxPoints: nat, numFrozen: nat) returns (ids: seq<nat>)
    ensures ids == InitIds(start, maxPoints, numFrozen)
  {
    ids := [start];
    for frozen := maxPoints to maxPoints + numFrozen
      invariant ids == InitIds(start, maxPoints, frozen - maxPoints)
    {
      if frozen != start {
        ids := ids + [frozen];
      }
    }
  }

  /** The candidates with a location in a set, in order. */
  ghost function Chosen(queue: seq<Neighbor>, keep: set<nat>): seq<Neighbor> {
    if queue == [] then []
    else
      var r := Chosen(queue[..|queue| - 1], keep);
      var e := queue[|queue| - 1];
      if e.id in keep then r + [e] else r
  }

  /** The candidates that are not frozen points. */
  ghost function LiveEntries(queue: seq<Neighbor>, maxPoints: nat): seq<Neighbor> {
    Chosen(queue, Interval(0, maxPoints))
  }

  /** The tags and distances of the candidates that carry a tag, in order. */
  function TaggedEntries(queue: seq<Neighbor>, locationToTag: map<nat, int>): seq<(int, real)> {
    if queue == [] then []
    else
      var r := TaggedEntries(queue[..|queue| - 1], locationToTag);
      var e := queue[|queue| - 1];
      if e.id in locationToTag then r + [(locationToTag[e.id], e.distance)] else r
  }

  /** The loop's break: it stops once K entries are out, or as many as there are result vectors. It looks only after an
      entry, so a bound of 0 never stops it; without any bound the limit is 0. */
  function Limit(K: nat, resVectors: nat): nat {
    if K == 0 || 0 < resVectors < K then resVectors else K
  }

  /** What a limit lets through. */
  function Limited<T>(s: seq<T>, limit: nat): (r: seq<T>)
    ensures r <= s && (0 < limit ==> |r| <= limit)
  {
    if limit == 0 then s else First(s, limit)
  }

  /** What search reports of its candidates: the first K live ones. Asked for none, it compares only after the first
      candidate, and stops there only if that is a frozen point. */
  ghost function Reported(queue: seq<Neighbor>, K: nat, maxPoints: nat): seq<Neighbor> {
    if K > 0 then First(LiveEntries(queue, maxPoints), K)
    else if queue != [] && queue[0].id < maxPoints then LiveEntries(queue, maxPoints)
    else []
  }

  function First<T>(s: seq<T>, n: nat): (r: seq<T>)
    ensures |r| == (if |s| < n then |s| else n) && r <= s
  {
    if |s| <= n then s else s[..n]
  }

  lemma {:induction false} ChosenPrefix(queue: seq<Neighbor>, i: nat, keep: set<nat>)
    requires i <= |queue|
    ensures Chosen(queue[..i], keep) <= Chosen(queue, keep)
  {
    if i < |queue| {
      ChosenPrefix(queue[..|queue| - 1], i, keep);
      assert queue[..|queue| - 1][..i] == queue[..i];
    } else {
      assert queue[..i] == queue;
    }
  }

  lemma {:induction false} TaggedEntriesPrefix(queue: seq<Neighbor>, i: nat, locationToTag: map<nat, int>)
    requires i <= |queue|
    ensures TaggedEntries(queue[..i], locationToTag) <= TaggedEntries(queue, locationToTag)
  {
    if i < |queue| {
      TaggedEntriesPrefix(queue[..|queue| - 1], i, locationToTag);
      assert queue[..|queue| - 1][..i] == queue[..i];
    } else {
      assert queue[..i] == queue;
    }
  }

  /** The reporting loop of search: frozen points are skipped. */
  method ReportLive(queue: seq<Neighbor>, K: nat, maxPoints: nat) returns (found: seq<Neighbor>)
    ensures found == Reported(queue, K, maxPoints)
  {
    found := [];
    for i := 0 to |queue|
      invariant found == LiveEntries(queue[..i], maxPoints) && (0 < K ==> |found| < K)
      invariant K == 0 && 0 < i ==> queue[0].id < maxPoints && found != []
    {
      assert queue[..i + 1][..i] == queue[..i];
      if queue[i].id < maxPoints {
        found := found + [queue[i]];
      }
      if |found| == K {
        ChosenPrefix(queue, i + 1, Interval(0, maxPoints));
        return;
      }
    }
    assert queue[..|queue|] == queue;
  }

  /** The reporting loop of search_with_tags: locations without a tag are skipped. */
  method ReportTagged(queue: seq<Neighbor>, K: nat, resVectors: nat, locationToTag: map<nat, int>)
    returns (found: seq<(int, real)>)
    ensures found == Limited(TaggedEntries(queue, locationToTag), Limit(K, resVectors))
  {
    found := [];
    for i := 0 to |queue|
      invariant found == TaggedEntries(queue[..i], locationToTag)
      invariant 0 < Limit(K, resVectors) ==> |found| < Limit(K, resVectors)
    {
      assert queue[..i + 1][..i] == queue[..i];
      if queue[i].id in locationToTag {
        found := found + [(locationToTag[queue[i].id], queue[i].distance)];
        if |found| == K || |found| == resVectors {
          TaggedEntriesPrefix(queue, i + 1, locationToTag);
          return;
        }
      }
    }
    assert queue[..|queue|] == queue;
  }

  ghost function SearchResult(q: Query, start: nat, maxPoints: nat, numFrozen: nat, K: nat): seq<Neighbor>
    requires q.Valid() && Below(InitIds(start, maxPoints, numFrozen), |q.dist|)
  {
    Reported(Search(q, InitIds(start, maxPoints, numFrozen)).queue, K, maxPoints)
  }

  ghost function TagResult(q: Query, starts: seq<nat>, K: nat, resVectors: nat,
                           locationToTag: map<nat, int>): seq<(int, real)>
    requires q.Valid() && Below(starts, |q.dist|)
  {
    Limited(TaggedEntries(Search(q, starts).queue, locationToTag), Limit(K, resVectors))
  }

  /** What is reported is live, carries its distance, and is ordered; with a complete list nothing nearer is left
      out. */
  lemma ReportedMeans(q: Query, K: nat, start: nat, maxPoints: nat, numFrozen: nat)
    requires q.Valid() && Below(InitIds(start, maxPoints, numFrozen), |q.dist|)
    ensures var r := SearchResult(q, start, maxPoints, numFrozen, K);
      && Measured(r, q.dist) && Ordered(r) && (forall i :: 0 <= i < |r| ==> r[i].id < maxPoints)
    ensures 0 < K && |Reach(q, InitIds(start, maxPoints, numFrozen))| <= q.L ==>
      HoldsBest(SearchResult(q, start, maxPoints, numFrozen, K),
                Reach(q, InitIds(start, maxPoints, numFrozen)) * Interval(0, maxPoints), K, q.dist)
    ensures K == 0 ==>
      var queue := Search(q, InitIds(start, maxPoints, numFrozen)).queue;
      SearchResult(q, start, maxPoints, numFrozen, K) == [] <==> queue == [] || queue[0].id >= maxPoints
  {
    var starts := InitIds(start, maxPoints, numFrozen);
    var queue := Search(q, starts).queue;
    var live := LiveEntries(queue, maxPoints);
    SearchReachesFixedPoint(q, starts);
    ChosenOf(queue, Interval(0, maxPoints), q.dist);
    assert forall i :: 0 <= i < |live| ==> live[i] in live;
    if |Reach(q, starts)| <= q.L { SearchIsExact(q, K, start, maxPoints, numFrozen); }
    if queue != [] && queue[0].id < maxPoints { assert queue[0] in live; }
  }

  /** search: the K best candidates that are not frozen points. */
  method SearchIndex(q: Query, K: nat, start: nat, maxPoints: nat, numFrozen: nat) returns (r: Outcome<seq<Neighbor>>)
    requires q.Valid() && |q.graph| == maxPoints + numFrozen && start < |q.graph|
    ensures K > q.L ==> r == Refused
    ensures Below(InitIds(start, maxPoints, numFrozen), |q.dist|)
    ensures K <= q.L ==> r == Answer(SearchResult(q, start, maxPoints, numFrozen, K))
    ensures K <= q.L ==> forall i :: 0 <= i < |r.value| ==>
      r.value[i].id < maxPoints && r.value[i].distance == q.dist[r.value[i].id]
    ensures K <= q.L ==> forall i, j :: 0 <= i < j < |r.value| ==>
      r.value[i].distance < r.value[j].distance
      || (r.value[i].distance == r.value[j].distance && r.value[i].id < r.value[j].id)
    ensures 0 < K <= q.L && |Reach(q, InitIds(start, maxPoints, numFrozen))| <= q.L ==>
      && |r.value| <= K
      && (forall i :: 0 <= i < |r.value| ==> r.value[i].id in Reach(q, InitIds(start, maxPoints, numFrozen)))
      && forall x :: x in Reach(q, InitIds(start, maxPoints, numFrozen)) && x < maxPoints && x !in Ids(r.value) ==>
           |r.value| == K && forall i :: 0 <= i < |r.value| ==>
             r.value[i].distance < q.dist[x] || (r.value[i].distance == q.dist[x] && r.value[i].id < x)
    ensures 0 == K <= q.L ==>
      var queue := Search(q, InitIds(start, maxPoints, numFrozen)).queue;
      r.value == [] <==> queue == [] || queue[0].id >= maxPoints
  {
    var initIds := GetInitIds(start, maxPoints, numFrozen);
    assert forall i :: 0 <= i < |initIds| ==> initIds[i] in initIds;
    if K > q.L {
      return Refused;
    }
    var best := new NeighborPriorityQueue(q.L);
    var ok, _ := IterateToFixedPoint(q, initIds, true, best);
    var found := ReportLive(best.Contents(), K, maxPoints);
    ReportedMeans(q, K, start, maxPoints, numFrozen);
    return Answer(found);
  }

  /** search_with_tags: the tags of the best candidates that carry one. */
  method SearchWithTags(q: Query, K: nat, resVectors: nat, initIds: seq<nat>, locationToTag: map<nat, int>)
    returns (r: Outcome<seq<(int, real)>>)
    requires q.Valid()
    ensures K > q.L || !Below(initIds, |q.dist|) ==> r == Refused
    ensures K <= q.L && Below(initIds, |q.dist|) ==> r == Answer(TagResult(q, initIds, K, resVectors, locationToTag))
  {
    if K > q.L {
      return Refused;
    }
    var best := new NeighborPriorityQueue(q.L);
    var ok, _ := IterateToFixedPoint(q, initIds, true, best);
    if !ok {
      return Refused;
    }
    var found := ReportTagged(best.Contents(), K, resVectors, locationToTag);
    return Answer(found);
  }

  // ------------------------------------------------------------------ exactness

  lemma {:induction false} ChosenOf(queue: seq<Neighbor>, keep: set<nat>, dist: seq<real>)
    requires Ordered(queue) && Measured(queue, dist)
    ensures Ordered(Chosen(queue, keep)) && Measured(Chosen(queue, keep), dist)
    ensures forall e :: e in Chosen(queue, keep) <==> e in queue && e.id in keep
  {
    if queue != [] {
      var init := queue[..|queue| - 1];
      var last := queue[|queue| - 1];
      assert queue == init + [last];
      ChosenOf(init, keep, dist);
      forall i | 0 <= i < |Chosen(init, keep)| ensures Less(Chosen(init, keep)[i], last) {
        var j :| 0 <= j < |init| && init[j] == Chosen(init, keep)[i];
        assert Less(queue[j], queue[|queue| - 1]);
      }
    }
  }

  /** The first K of a complete ordered list are the K best. */
  lemma FirstAreBest(all: seq<Neighbor>, K: nat, dist: seq<real>)
    requires Ordered(all) && Measured(all, dist)
    ensures HoldsBest(First(all, K), Elems(Ids(all)), K, dist)
  {
    var r := First(all, K);
    assert forall i :: 0 <= i < |r| ==> r[i] == all[i] && Ids(r)[i] == all[i].id && Ids(all)[i] == all[i].id;
    forall x | x in Ids(all) && x !in Ids(r) ensures |r| == K && AllLess(r, Item(dist, x)) {
      var j :| 0 <= j < |all| && Ids(all)[j] == x;
      assert j >= |r|;
    }
  }

  /** With L at least the number of reachable locations, the first n candidates chosen are the n nearest reachable
      ones. */
  lemma ChosenIsExact(q: Query, starts: seq<nat>, keep: set<nat>, n: nat)
    requires q.Valid() && Below(starts, |q.dist|) && |Reach(q, starts)| <= q.L
    ensures HoldsBest(First(Chosen(Search(q, starts).queue, keep), n), Reach(q, starts) * keep, n, q.dist)
  {
    var queue := Search(q, starts).queue;
    LargeListIsExhaustive(q, starts);
    SearchReachesFixedPoint(q, starts);
    ChosenOf(queue, keep, q.dist);
    var live := Chosen(queue, keep);
    FirstAreBest(live, n, q.dist);
    assert Elems(Ids(live)) == Reach(q, starts) * keep by {
      forall x: nat ensures x in Ids(live) <==> x in Ids(queue) && x in keep {
        IdsOf(live, x);
        IdsOf(queue, x);
      }
    }
  }

  /** All candidates chosen are all of those. */
  lemma AllChosen(q: Query, starts: seq<nat>, keep: set<nat>)
    requires q.Valid() && Below(starts, |q.dist|) && |Reach(q, starts)| <= q.L
    ensures var all := Chosen(Search(q, starts).queue, keep);
      |all| == |Reach(q, starts) * keep| && HoldsBest(all, Reach(q, starts) * keep, |all|, q.dist)
  {
    var all := Chosen(Search(q, starts).queue, keep);
    ChosenIsExact(q, starts, keep, |all|);
    ChosenIsExact(q, starts, keep, |all| + 1);
    OrderedIdsDistinct(all, q.dist);
    ElemsSize(Ids(all));
    assert Elems(Ids(all)) == Reach(q, starts) * keep;
  }

  /** search then returns its exact K nearest reachable live locations. Asked for none, it returns none only if the
      closest candidate is a frozen point or there is no candidate, and otherwise all of them. */
  lemma SearchIsExact(q: Query, K: nat, start: nat, maxPoints: nat, numFrozen: nat)
    requires q.Valid() && Below(InitIds(start, maxPoints, numFrozen), |q.dist|)
    requires |Reach(q, InitIds(start, maxPoints, numFrozen))| <= q.L
    ensures var live, r := Reach(q, InitIds(start, maxPoints, numFrozen)) * Interval(0, maxPoints),
                           SearchResult(q, start, maxPoints, numFrozen, K);
      && (0 < K ==> HoldsBest(r, live, K, q.dist))
      && (K == 0 ==> r == [] || HoldsBest(r, live, |live|, q.dist))
  {
    ChosenIsExact(q, InitIds(start, maxPoints, numFrozen), Interval(0, maxPoints), K);
    AllChosen(q, InitIds(start, maxPoints, numFrozen), Interval(0, maxPoints));
  }

  /** Asked for at least one, no search reports more than it was asked for. */
  lemma NeverMoreThanAsked(q: Query, K: nat, start: nat, maxPoints: nat, numFrozen: nat, resVectors: nat, tags: map<nat,
                           int>)
    requires q.Valid() && Below(InitIds(start, maxPoints, numFrozen), |q.dist|) && 0 < K
    ensures |SearchResult(q, start, maxPoints, numFrozen, K)| <= K
    ensures |TagResult(q, InitIds(start, maxPoints, numFrozen), K, resVectors, tags)| <= K
  {
  }

  /** Tag and distance of candidates that all carry a tag. */
  ghost function Labelled(entries: seq<Neighbor>, tags: map<nat, int>): (r: seq<(int, real)>)
    requires forall i :: 0 <= i < |entries| ==> entries[i].id in tags
    ensures |r| == |entries| && forall i :: 0 <= i < |r| ==> r[i] == (tags[entries[i].id], entries[i].distance)
  {
    seq(|entries|, i requires 0 <= i < |entries| => (tags[entries[i].id], entries[i].distance))
  }

  lemma {:induction false} TaggedAreLabelled(queue: seq<Neighbor>, tags: map<nat, int>)
    ensures forall i :: 0 <= i < |Chosen(queue, tags.Keys)| ==> Chosen(queue, tags.Keys)[i].id in tags
    ensures TaggedEntries(queue, tags) == Labelled(Chosen(queue, tags.Keys), tags)
  {
    if queue != [] { TaggedAreLabelled(queue[..|queue| - 1], tags); }
  }

  /** The answers are exact: tags and distances of the n nearest of a set of tagged locations, nearest first, where n is
      the limit or, if the set is smaller, its size. */
  ghost predicate NearestTagged(answers: seq<(int, real)>, tags: map<nat, int>, among: set<nat>, n: nat,
                                dist: seq<real>) {
    exists nearest: seq<Neighbor> :: HoldsBest(nearest, among, n, dist)
      && (forall i :: 0 <= i < |nearest| ==> nearest[i].id in tags) && answers == Labelled(nearest, tags)
  }

  /** How many of a set of tagged locations are answered. */
  function LimitAmong(K: nat, resVectors: nat, size: nat): nat {
    if Limit(K, resVectors) == 0 then size else Limit(K, resVectors)
  }

  /** search_with_tags lists the tags of exactly the nearest reachable locations that carry one; asked for none, without
      result vectors, of all of them. */
  lemma TagSearchIsExact(q: Query, starts: seq<nat>, K: nat, resVectors: nat, tags: map<nat, int>)
    requires q.Valid() && Below(starts, |q.dist|) && |Reach(q, starts)| <= q.L
    ensures var among := Reach(q, starts) * tags.Keys;
      NearestTagged(TagResult(q, starts, K, resVectors, tags), tags, among, LimitAmong(K, resVectors, |among|), q.dist)
  {
    var nearest := AnswersCome(q, starts, K, resVectors, tags);
  }

  /** The candidates behind the answers of search_with_tags: they carry the tags, in order; with a complete list, they
      are the nearest of all. */
  lemma AnswersCome(q: Query, starts: seq<nat>, K: nat, resVectors: nat, tags: map<nat, int>)
    returns (nearest: seq<Neighbor>)
    requires q.Valid() && Below(starts, |q.dist|)
    ensures Measured(nearest, q.dist) && Ordered(nearest)
    ensures forall i :: 0 <= i < |nearest| ==> nearest[i].id in tags
    ensures TagResult(q, starts, K, resVectors, tags) == Labelled(nearest, tags)
    ensures |Reach(q, starts)| <= q.L ==>
      var among := Reach(q, starts) * tags.Keys;
      HoldsBest(nearest, among, LimitAmong(K, resVectors, |among|), q.dist)
    ensures 0 < K ==> |nearest| <= K
    ensures 0 < resVectors ==> |nearest| <= resVectors
  {
    var queue := Search(q, starts).queue;
    var chosen := Chosen(queue, tags.Keys);
    nearest := Limited(chosen, Limit(K, resVectors));
    SearchReachesFixedPoint(q, starts);
    ChosenOf(queue, tags.Keys, q.dist);
    TaggedAreLabelled(queue, tags);
    assert forall i :: 0 <= i < |nearest| ==> nearest[i] == chosen[i] && chosen[i] in chosen;
    assert TagResult(q, starts, K, resVectors, tags) == Labelled(nearest, tags);
    if |Reach(q, starts)| <= q.L {
      ChosenIsExact(q, starts, tags.Keys, Limit(K, resVectors));
      AllChosen(q, starts, tags.Keys);
    }
  }

  /** Whatever L is, only tags in the map are listed. */
  lemma OnlyTagsInUse(q: Query, starts: seq<nat>, K: nat, resVectors: nat, tags: map<nat, int>)
    requires q.Valid() && Below(starts, |q.dist|)
    ensures var answers := TagResult(q, starts, K, resVectors, tags);
      forall i :: 0 <= i < |answers| ==> answers[i].0 in tags.Values
  {
    var answers := TagResult(q, starts, K, resVectors, tags);
    var chosen := Chosen(Search(q, starts).queue, tags.Keys);
    TaggedAreLabelled(Search(q, starts).queue, tags);
    forall i | 0 <= i < |answers| ensures answers[i].0 in tags.Values {
      assert answers[i] == Labelled(chosen, tags)[i] && chosen[i].id in tags;
    }
  }

  lemma IdsOf(queue: seq<Neighbor>, x: nat)
    ensures x in Ids(queue) <==> exists e :: e in queue && e.id == x
  {
    if x in Ids(queue) {
      var i :| 0 <= i < |queue| && Ids(queue)[i] == x;
      assert queue[i] in queue;
    }
    if e :| e in queue && e.id == x {
      var i :| 0 <= i < |queue| && queue[i] == e;
      assert Ids(queue)[i] == x;
    }
  }
}
