/** Renumbering the vectors by their distance, in hops, from the start points. */
module Rearrange {
  import opened Collections
  import opened GraphSearch

  /** AISAQ_INVALID_VID. */
  const INVALID_VID: nat := 0xFFFF_FFFF

  datatype Sorter = Nhops | Random | NhopsScore | NhopsNnbrs | NhopsNnbrsScore | NhopsScoreNnbrs | Unknown

  // ------------------------------------------------------------------ hops

  /** The neighbours of a set of nodes. */
  ghost function Neighbours(g: Graph, s: set<nat>): (r: set<nat>)
    ensures forall y: nat :: y in r <==> exists x :: x in s && x < |g| && y in g[x]
  {
    set x, y | x in s && x < |g| && y in g[x] :: y
  }

  /** The nodes at most k hops from the starts. */
  ghost function Within(g: Graph, starts: set<nat>, k: nat): set<nat> {
    if k == 0 then starts else Within(g, starts, k - 1) + Neighbours(g, Within(g, starts, k - 1))
  }

  /** Being within k hops is having a path of at most k edges. */
  lemma {:induction false} WithinIsByPath(g: Graph, starts: set<nat>, k: nat, x: nat)
    ensures x in Within(g, starts, k) <==> exists w :: Path(g, starts, w) && |w| <= k + 1 && w[|w| - 1] == x
  {
    if x in Within(g, starts, k) { var w := PathTo(g, starts, k, x); }
    forall w | Path(g, starts, w) && |w| <= k + 1 && w[|w| - 1] == x ensures x in Within(g, starts, k) {
      PathStaysWithin(g, starts, k, w);
    }
  }

  lemma {:induction false} PathTo(g: Graph, starts: set<nat>, k: nat, x: nat) returns (w: seq<nat>)
    requires x in Within(g, starts, k)
    ensures Path(g, starts, w) && |w| <= k + 1 && w[|w| - 1] == x
  {
    if k == 0 {
      w := [x];
    } else if x in Within(g, starts, k - 1) {
      w := PathTo(g, starts, k - 1, x);
    } else {
      var y :| y in Within(g, starts, k - 1) && y < |g| && x in g[y];
      w := PathTo(g, starts, k - 1, y);
      PathSnoc(g, starts, w, x);
      w := w + [x];
    }
  }

  lemma {:induction false} PathStaysWithin(g: Graph, starts: set<nat>, k: nat, w: seq<nat>)
    requires Path(g, starts, w) && |w| <= k + 1
    ensures w[|w| - 1] in Within(g, starts, k)
    decreases k, |w|
  {
    if |w| == 1 {
      WithinGrows(g, starts, 0, k);
    } else {
      PathInit(g, starts, w);
      PathStaysWithin(g, starts, k - 1, w[..|w| - 1]);
    }
  }

  lemma {:induction false} WithinGrows(g: Graph, starts: set<nat>, j: nat, k: nat)
    requires j <= k
    ensures Within(g, starts, j) <= Within(g, starts, k)
  {
    if j < k { WithinGrows(g, starts, j, k - 1); }
  }

  /** Once a hop brings nothing new, no later hop does. */
  lemma {:induction false} WithinStops(g: Graph, starts: set<nat>, j: nat, k: nat)
    requires j <= k && Within(g, starts, j + 1) == Within(g, starts, j)
    ensures Within(g, starts, k) == Within(g, starts, j)
  {
    if j < k { WithinStops(g, starts, j, k - 1); }
  }

  // ------------------------------------------------------------------ the map

  /** order lists the nodes by their new ids; the others have none yet. */
  ghost predicate Numbers(vmap: seq<nat>, order: seq<nat>) {
    && NoDup(order) && Below(order, |vmap|) && |vmap| <= INVALID_VID
    && (forall v {:trigger order[v]} :: 0 <= v < |order| ==> vmap[order[v]] == v)
    && (forall x {:trigger vmap[x]} :: 0 <= x < |vmap| && x !in order ==> vmap[x] == INVALID_VID)
  }

  lemma NumberedCount(vmap: seq<nat>, order: seq<nat>)
    requires Numbers(vmap, order)
    ensures |order| <= |vmap|
    ensures forall x :: 0 <= x < |vmap| ==> (vmap[x] == INVALID_VID <==> x !in order)
  {
    ElemsSize(order);
    assert forall x :: x in order ==> exists i :: 0 <= i < |order| && order[i] == x;
    BoundedSize(Elems(order), |vmap|);
  }

  /** The next number goes to a node that has none. */
  lemma NumberNext(vmap: seq<nat>, order: seq<nat>, x: nat)
    requires Numbers(vmap, order) && x < |vmap| && x !in order
    ensures Numbers(vmap[x := |order|], order + [x])
  {
    NoDupSnoc(order, x);
    var now := order + [x];
    forall v | 0 <= v < |now| ensures vmap[x := |order|][now[v]] == v { assert v < |order| ==> order[v] in order; }
  }

  /** The first numbers went to the elements of s. */
  ghost predicate First(order: seq<nat>, s: set<nat>) {
    |s| <= |order| && Elems(order[..|s|]) == s
  }

  /** The first numbers went to the nodes within the fewest hops. */
  ghost predicate ByHops(g: Graph, starts: set<nat>, order: seq<nat>, k: nat) {
    forall j: nat {:trigger Within(g, starts, j)} :: j <= k ==> First(order, Within(g, starts, j))
  }

  lemma FirstStays(order: seq<nat>, now: seq<nat>, s: set<nat>)
    requires First(order, s) && order <= now
    ensures First(now, s)
  {
    assert now[..|s|] == order[..|s|];
  }

  lemma FirstWhole(order: seq<nat>, s: set<nat>)
    requires NoDup(order) && Elems(order) == s
    ensures First(order, s)
  {
    ElemsSize(order);
    assert order[..|order|] == order;
  }

  // ------------------------------------------------------------------ one level

  /** The lists that could be read; a node whose read fails counts as one without neighbours. */
  function Readable(g: Graph, failed: set<nat>): (r: Graph)
    ensures |r| == |g| && forall x :: 0 <= x < |g| ==> r[x] == if x in failed then [] else g[x]
  {
    seq(|g|, x requires 0 <= x < |g| => if x in failed then [] else g[x])
  }

  ghost function Union(lists: seq<seq<nat>>): (r: set<nat>)
    ensures forall y: nat :: y in r <==> exists i :: 0 <= i < |lists| && y in lists[i]
  {
    set i, y | 0 <= i < |lists| && y in lists[i] :: y
  }

  lemma UnionSnoc(lists: seq<seq<nat>>, list: seq<nat>)
    ensures Union(lists + [list]) == Union(lists) + Elems(list)
  {
    var now := lists + [list];
    forall y: nat | y in Union(lists) + Elems(list) ensures y in Union(now) {
      if y in Union(lists) {
        var i :| 0 <= i < |lists| && y in lists[i];
        assert now[i] == lists[i];
      } else {
        assert now[|lists|] == list;
      }
    }
    forall y: nat | y in Union(now) ensures y in Union(lists) + Elems(list) {
      var i :| 0 <= i < |now| && y in now[i];
      assert i < |lists| ==> now[i] == lists[i];
    }
  }

  /** Reads the lists of a level, in whatever order; what sorting and shuffling does is part of that order. */
  method ReadLevel(level: set<nat>, g: Graph, failed: set<nat>) returns (lists: seq<seq<nat>>)
    requires forall x :: x in level ==> x < |g|
    ensures Union(lists) == Neighbours(Readable(g, failed), level)
    ensures forall i :: 0 <= i < |lists| ==> lists[i] in g
  {
    var nodes := InSomeOrder(level);
    lists := [];
    ghost var seen: set<nat> := {};
    for i := 0 to |nodes|
      invariant seen == Elems(nodes[..i]) && Union(lists) == Neighbours(Readable(g, failed), seen)
      invariant forall i :: 0 <= i < |lists| ==> lists[i] in g
    {
      assert nodes[i] in Elems(nodes);
      assert nodes[..i + 1] == nodes[..i] + [nodes[i]];
      NeighboursOfOneMore(Readable(g, failed), seen, nodes[i]);
      seen := seen + {nodes[i]};
      if nodes[i] !in failed {
        UnionSnoc(lists, g[nodes[i]]);
        lists := lists + [g[nodes[i]]];
      }
    }
    assert nodes[..|nodes|] == nodes;
  }

  lemma NeighboursOfOneMore(g: Graph, s: set<nat>, x: nat)
    requires x < |g|
    ensures Neighbours(g, s + {x}) == Neighbours(g, s) + Elems(g[x])
  {
    forall y: nat | y in Neighbours(g, s) + Elems(g[x]) ensures y in Neighbours(g, s + {x}) {
      if y in Neighbours(g, s) {
        var z :| z in s && z < |g| && y in g[z];
        assert z in s + {x};
      } else {
        assert x in s + {x};
      }
    }
  }

  /** Numbers the nodes of a list that have no number yet. */
  method NumberList(vmap0: seq<nat>, vid0: nat, list: seq<nat>, next0: set<nat>, ghost order0: seq<nat>)
    returns (vmap: seq<nat>, vid: nat, next: set<nat>, ghost order: seq<nat>)
    requires Numbers(vmap0, order0) && Below(list, |vmap0|) && vid0 == |order0|
    ensures |vmap| == |vmap0| && Numbers(vmap, order) && order0 <= order && vid == |order|
    ensures Elems(order) == Elems(order0) + Elems(list) && next == next0 + (Elems(order) - Elems(order0))
  {
    vmap, vid, next, order := vmap0, vid0, next0, order0;
    for i := 0 to |list|
      invariant |vmap| == |vmap0| && Numbers(vmap, order) && order0 <= order && vid == |order|
      invariant Elems(order) == Elems(order0) + Elems(list[..i]) && next == next0 + (Elems(order) - Elems(order0))
    {
      assert list[..i + 1] == list[..i] + [list[i]];
      NumberedCount(vmap, order);
      if vmap[list[i]] == INVALID_VID {
        NumberNext(vmap, order, list[i]);
        vmap, next, order := vmap[list[i] := vid], next + {list[i]}, order + [list[i]];
        vid := vid + 1;
      }
    }
    assert list[..|list|] == list;
  }

  /** Numbers the new nodes of a level's lists; they are the next level. */
  method NumberLevel(vmap0: seq<nat>, vid0: nat, lists: seq<seq<nat>>, ghost order0: seq<nat>)
    returns (vmap: seq<nat>, vid: nat, next: set<nat>, ghost order: seq<nat>)
    requires Numbers(vmap0, order0) && vid0 == |order0| && forall i :: 0 <= i < |lists| ==> Below(lists[i], |vmap0|)
    ensures |vmap| == |vmap0| && Numbers(vmap, order) && order0 <= order && vid == |order|
    ensures Elems(order) == Elems(order0) + Union(lists) && next == Elems(order) - Elems(order0)
  {
    vmap, vid, next, order := vmap0, vid0, {}, order0;
    for i := 0 to |lists|
      invariant |vmap| == |vmap0| && Numbers(vmap, order) && order0 <= order && vid == |order|
      invariant Elems(order) == Elems(order0) + Union(lists[..i]) && next == Elems(order) - Elems(order0)
    {
      assert lists[..i + 1] == lists[..i] + [lists[i]];
      UnionSnoc(lists[..i], lists[i]);
      vmap, vid, next, order := NumberList(vmap, vid, lists[i], next, order);
    }
    assert lists[..|lists|] == lists;
  }

  // ------------------------------------------------------------------ all levels

  /** After k levels: the nodes within k hops are numbered, by hops, and level holds those exactly k hops away. */
  ghost predicate AfterLevels(e: Graph, starts: set<nat>, order: seq<nat>, level: set<nat>, k: nat) {
    ByHops(e, starts, order, k) && Elems(order) == Within(e, starts, k) && NoDup(order) && level == Ring(e, starts, k)
  }

  /** The nodes exactly k hops away. */
  ghost function Ring(e: Graph, starts: set<nat>, k: nat): set<nat> {
    if k == 0 then starts else Within(e, starts, k) - Within(e, starts, k - 1)
  }

  /** The next hop from all numbered nodes is the next hop from the last level. */
  lemma NextLevel(e: Graph, starts: set<nat>, order: seq<nat>, level: set<nat>, k: nat, now: seq<nat>)
    requires AfterLevels(e, starts, order, level, k) && order <= now && NoDup(now)
    requires Elems(now) == Elems(order) + Neighbours(e, level)
    ensures AfterLevels(e, starts, now, Elems(now) - Elems(order), k + 1)
  {
    NextElems(e, starts, order, level, k, now);
    ByHopsGrows(e, starts, order, k, now);
    NextRing(e, starts, k, Elems(order), Elems(now));
  }

  lemma NextRing(e: Graph, starts: set<nat>, k: nat, inner: set<nat>, outer: set<nat>)
    requires inner == Within(e, starts, k) && outer == Within(e, starts, k + 1)
    ensures outer - inner == Ring(e, starts, k + 1)
  {
  }

  lemma NextElems(e: Graph, starts: set<nat>, order: seq<nat>, level: set<nat>, k: nat, now: seq<nat>)
    requires Elems(order) == Within(e, starts, k) && Elems(now) == Elems(order) + Neighbours(e, level)
    requires level == Ring(e, starts, k)
    ensures Elems(now) == Within(e, starts, k + 1)
  {
    LastLevelSuffices(e, starts, level, k);
  }

  lemma ByHopsGrows(e: Graph, starts: set<nat>, order: seq<nat>, k: nat, now: seq<nat>)
    requires ByHops(e, starts, order, k) && order <= now && NoDup(now) && Elems(now) == Within(e, starts, k + 1)
    ensures ByHops(e, starts, now, k + 1)
  {
    forall j: nat | j <= k + 1 ensures First(now, Within(e, starts, j)) {
      if j <= k { FirstStays(order, now, Within(e, starts, j)); } else { FirstWhole(now, Within(e, starts, j)); }
    }
  }

  lemma LastLevelSuffices(e: Graph, starts: set<nat>, level: set<nat>, k: nat)
    requires level == Ring(e, starts, k)
    ensures Within(e, starts, k) + Neighbours(e, level) == Within(e, starts, k) + Neighbours(e, Within(e, starts, k))
  {
    forall y: nat | y in Neighbours(e, Within(e, starts, k)) ensures y in Within(e, starts, k) + Neighbours(e, level) {
      var x :| x in Within(e, starts, k) && x < |e| && y in e[x];
      if k > 0 && x in Within(e, starts, k - 1) { assert y in Neighbours(e, Within(e, starts, k - 1)); }
    }
    forall y: nat | y in Neighbours(e, level) ensures y in Neighbours(e, Within(e, starts, k)) {
      var x :| x in level && x < |e| && y in e[x];
      assert x in Within(e, starts, k);
    }
  }

  /** One round of the level loop. */
  method OneLevel(vmap0: seq<nat>, g: Graph, failed: set<nat>, level0: set<nat>, vid0: nat, ghost starts: set<nat>,
                  ghost order0: seq<nat>, ghost k: nat)
    returns (vmap: seq<nat>, vid: nat, level: set<nat>, ghost order: seq<nat>)
    requires |vmap0| == |g| && InRange(g) && Numbers(vmap0, order0) && vid0 == |order0|
    requires AfterLevels(Readable(g, failed), starts, order0, level0, k)
    ensures |vmap| == |g| && Numbers(vmap, order) && vid == |order|
    ensures AfterLevels(Readable(g, failed), starts, order, level, k + 1)
    ensures |order0| <= |order| <= |g| && (|order| == |order0| ==> level == {})
  {
    LevelBelow(Readable(g, failed), starts, order0, level0, k);
    var lists := ReadLevel(level0, g, failed);
    ListsBelow(g, lists);
    vmap, vid, level, order := NumberLevel(vmap0, vid0, lists, order0);
    NextLevel(Readable(g, failed), starts, order0, level0, k, order);
    NumberedCount(vmap, order);
    assert |order| == |order0| ==> order == order0;
  }

  lemma LevelBelow(e: Graph, starts: set<nat>, order: seq<nat>, level: set<nat>, k: nat)
    requires AfterLevels(e, starts, order, level, k) && Below(order, |e|)
    ensures forall x :: x in level ==> x < |e|
  {
    forall x | x in level ensures x < |e| {
      assert x in Elems(order);
      var i :| 0 <= i < |order| && order[i] == x;
    }
  }

  /** The level loop; it ends, because every round but the last numbers a node. */
  method NumberByHops(vmap0: seq<nat>, g: Graph, failed: set<nat>, starts: set<nat>, vid0: nat, ghost order0: seq<nat>)
    returns (vmap: seq<nat>, vid: nat, ghost order: seq<nat>, ghost k: nat)
    requires |vmap0| == |g| && InRange(g) && Numbers(vmap0, order0) && Elems(order0) == starts && vid0 == |order0|
    ensures |vmap| == |g| && Numbers(vmap, order) && vid == |order|
    ensures AfterLevels(Readable(g, failed), starts, order, {}, k)
  {
    vmap, vid, order, k := vmap0, vid0, order0, 0;
    var level := starts;
    FirstWhole(order, starts);
    NumberedCount(vmap, order);
    while level != {}
      invariant |vmap| == |g| && Numbers(vmap, order) && vid == |order| <= |g|
      invariant AfterLevels(Readable(g, failed), starts, order, level, k)
      decreases |g| - |order|, |level|
    {
      vmap, vid, level, order := OneLevel(vmap, g, failed, level, vid, starts, order, k);
      k := k + 1;
    }
  }

  lemma ListsBelow(g: Graph, lists: seq<seq<nat>>)
    requires InRange(g) && forall i :: 0 <= i < |lists| ==> lists[i] in g
    ensures forall i :: 0 <= i < |lists| ==> Below(lists[i], |g|)
  {
    forall i | 0 <= i < |lists| ensures Below(lists[i], |g|) {
      var x :| 0 <= x < |g| && g[x] == lists[i];
    }
  }

  // ------------------------------------------------------------------ the rest, and the whole map

  /** Nodes that no path reaches are numbered last, in their old order. */
  method NumberRest(vmap0: seq<nat>, vid0: nat, ghost order0: seq<nat>) returns (vmap: seq<nat>, ghost order: seq<nat>)
    requires Numbers(vmap0, order0) && vid0 == |order0|
    ensures |vmap| == |vmap0| && Numbers(vmap, order) && order0 <= order && |order| == |vmap|
    ensures forall i, j :: |order0| <= i < j < |order| ==> order[i] < order[j]
  {
    vmap, order := vmap0, order0;
    var vid := vid0;
    for i := 0 to |vmap0|
      invariant |vmap| == |vmap0| && Numbers(vmap, order) && order0 <= order && vid == |order|
      invariant forall x: nat :: x < i ==> x in order
      invariant forall j :: |order0| <= j < |order| ==> order[j] < i
      invariant forall i, j :: |order0| <= i < j < |order| ==> order[i] < order[j]
    {
      NumberedCount(vmap, order);
      if vmap[i] == INVALID_VID {
        NumberNext(vmap, order, i);
        vmap, order := vmap[i := vid], order + [i];
        vid := vid + 1;
      }
    }
    AllNumbered(vmap, order);
  }

  lemma AllNumbered(vmap: seq<nat>, order: seq<nat>)
    requires Numbers(vmap, order) && forall x: nat :: x < |vmap| ==> x in order
    ensures |order| == |vmap|
  {
    ElemsSize(order);
    IntervalSize(0, |vmap|);
    assert forall x :: x in order ==> exists i :: 0 <= i < |order| && order[i] == x;
    assert Elems(order) == Interval(0, |vmap|);
  }

  ghost predicate Unreached(e: Graph, starts: set<nat>, x: nat) {
    forall k: nat :: x !in Within(e, starts, k)
  }

  /** For every k the nodes within k hops have the smallest new ids. */
  ghost predicate NumberedByHops(e: Graph, starts: set<nat>, vmap: seq<nat>) {
    forall k: nat, x: nat {:trigger Within(e, starts, k), vmap[x]} :: x < |vmap| ==>
      (x in Within(e, starts, k) <==> vmap[x] < |Within(e, starts, k)|)
  }

  /** Nodes that no path reaches keep their order. */
  ghost predicate RestInOrder(e: Graph, starts: set<nat>, vmap: seq<nat>) {
    forall x, y :: 0 <= x < y < |vmap| && Unreached(e, starts, x) && Unreached(e, starts, y) ==> vmap[x] < vmap[y]
  }

  /** aisaq_generate_vectors_rearrange_map. */
  method GenerateMap(sorter: Sorter, num: nat, medoids: seq<nat>, filterMedoids: seq<nat>, g: Graph, failed: set<nat>)
    returns (ok: bool, vmap: seq<nat>, ghost order: seq<nat>)
    requires |g| == num <= INVALID_VID && InRange(g) && Below(medoids, num) && Below(filterMedoids, num)
    ensures ok <==> num > 0 && medoids != [] && sorter != Unknown
    ensures ok ==> |vmap| == num && Numbers(vmap, order) && |order| == num
    ensures ok ==> NumberedByHops(Readable(g, failed), Elems(medoids) + Elems(filterMedoids), vmap)
    ensures ok ==> RestInOrder(Readable(g, failed), Elems(medoids) + Elems(filterMedoids), vmap)
  {
    ok, vmap, order := num > 0 && medoids != [] && sorter != Unknown, [], [];
    if ok {
      var first := InSomeOrder(Elems(medoids) + Elems(filterMedoids));
      StartsBelowNum(medoids, filterMedoids, first, num);
      vmap, order := GenerateFrom(first, g, failed, Elems(medoids) + Elems(filterMedoids));
    }
  }

  method GenerateFrom(first: seq<nat>, g: Graph, failed: set<nat>, starts: set<nat>)
    returns (vmap: seq<nat>, ghost order: seq<nat>)
    requires |g| <= INVALID_VID && InRange(g) && Below(first, |g|) && Elems(first) == starts
    ensures |vmap| == |g| && Numbers(vmap, order) && |order| == |g|
    ensures NumberedByHops(Readable(g, failed), starts, vmap) && RestInOrder(Readable(g, failed), starts, vmap)
  {
    vmap := seq(|g|, i => INVALID_VID);
    var vid, level;
    vmap, vid, level, order := NumberList(vmap, 0, first, {}, []);
    ghost var k;
    vmap, vid, order, k := NumberByHops(vmap, g, failed, starts, vid, order);
    ghost var reached := order;
    vmap, order := NumberRest(vmap, vid, order);
    MapIsByHops(Readable(g, failed), starts, reached, vmap, order, k);
  }

  lemma MapIsByHops(e: Graph, starts: set<nat>, reached: seq<nat>, vmap: seq<nat>, order: seq<nat>, k: nat)
    requires AfterLevels(e, starts, reached, {}, k) && reached <= order && Numbers(vmap, order) && |order| == |vmap|
    requires forall i, j :: |reached| <= i < j < |order| ==> order[i] < order[j]
    ensures NumberedByHops(e, starts, vmap) && RestInOrder(e, starts, vmap)
  {
    forall j: nat, x: nat | x < |vmap| ensures x in Within(e, starts, j) <==> vmap[x] < |Within(e, starts, j)| {
      HopsByNumber(e, starts, reached, vmap, order, k, j, x);
    }
    RestIsInOrder(e, starts, reached, vmap, order, k);
  }

  lemma RestIsInOrder(e: Graph, starts: set<nat>, reached: seq<nat>, vmap: seq<nat>, order: seq<nat>, k: nat)
    requires AfterLevels(e, starts, reached, {}, k) && reached <= order && Numbers(vmap, order) && |order| == |vmap|
    requires forall i, j :: |reached| <= i < j < |order| ==> order[i] < order[j]
    ensures RestInOrder(e, starts, vmap)
  {
    forall x, y | 0 <= x < y < |vmap| && Unreached(e, starts, x) && Unreached(e, starts, y) ensures vmap[x] < vmap[y] {
      LastByNumber(e, starts, reached, vmap, order, k, x);
      LastByNumber(e, starts, reached, vmap, order, k, y);
      LaterIsLarger(order, |reached|, vmap[x], vmap[y]);
    }
  }

  lemma LaterIsLarger(order: seq<nat>, lo: nat, a: nat, b: nat)
    requires forall i, j :: lo <= i < j < |order| ==> order[i] < order[j]
    requires lo <= a < |order| && lo <= b < |order| && order[a] < order[b]
    ensures a < b
  {
  }

  lemma StartsBelowNum(medoids: seq<nat>, filterMedoids: seq<nat>, first: seq<nat>, num: nat)
    requires Below(medoids, num) && Below(filterMedoids, num) && Elems(first) == Elems(medoids) + Elems(filterMedoids)
    ensures Below(first, num)
  {
    forall i | 0 <= i < |first| ensures first[i] < num {
      assert first[i] in Elems(first);
      if first[i] in medoids {
        var j :| 0 <= j < |medoids| && medoids[j] == first[i];
      } else {
        var j :| 0 <= j < |filterMedoids| && filterMedoids[j] == first[i];
      }
    }
  }

  /** When the last level was empty, the numbered nodes are all that any number of hops reaches. */
  lemma NoMoreHops(e: Graph, starts: set<nat>, order: seq<nat>, k: nat, j: nat)
    requires AfterLevels(e, starts, order, {}, k) && k <= j
    ensures Within(e, starts, j) == Elems(order)
  {
    var last := if k == 0 then 0 else k - 1;
    EmptyRing(e, starts, k);
    WithinStops(e, starts, last, j);
    WithinStops(e, starts, last, k);
  }

  lemma EmptyRing(e: Graph, starts: set<nat>, k: nat)
    requires Ring(e, starts, k) == {}
    ensures k == 0 ==> Within(e, starts, 1) == Within(e, starts, 0)
    ensures k > 0 ==> Within(e, starts, k) == Within(e, starts, k - 1)
  {
    if k == 0 {
      NoNeighbours(e, starts);
    } else {
      WithinGrows(e, starts, k - 1, k);
      NothingLeft(Within(e, starts, k), Within(e, starts, k - 1));
    }
  }

  lemma NoNeighbours(e: Graph, starts: set<nat>)
    requires starts == {}
    ensures Within(e, starts, 1) == starts
  {
    assert Within(e, starts, 0) == starts;
  }

  lemma NothingLeft(a: set<nat>, b: set<nat>)
    requires a - b == {} && b <= a
    ensures a == b
  {
    assert forall x :: x in a ==> x !in a - b;
  }

  lemma HopsByNumber(e: Graph, starts: set<nat>, reached: seq<nat>, vmap: seq<nat>, order: seq<nat>, k: nat, j: nat,
                     x: nat)
    requires AfterLevels(e, starts, reached, {}, k) && reached <= order && Numbers(vmap, order) && |order| == |vmap|
      && x < |vmap|
    ensures x in Within(e, starts, j) <==> vmap[x] < |Within(e, starts, j)|
  {
    var s := Within(e, starts, j);
    if j <= k {
      FirstStays(reached, order, s);
    } else {
      NoMoreHops(e, starts, reached, k, j);
      FirstWhole(reached, s);
      FirstStays(reached, order, s);
    }
    FirstByNumber(vmap, order, s, x);
  }

  lemma FirstByNumber(vmap: seq<nat>, order: seq<nat>, s: set<nat>, x: nat)
    requires Numbers(vmap, order) && |order| == |vmap| && First(order, s) && x < |vmap|
    ensures x in s <==> vmap[x] < |s|
    ensures vmap[x] < |order| && order[vmap[x]] == x
  {
    Covers(order, |vmap|);
    assert x in order;
    var v :| 0 <= v < |order| && order[v] == x;
    if x in s {
      assert x in Elems(order[..|s|]);
      var i :| 0 <= i < |s| && order[..|s|][i] == x;
      assert order[i] == order[v];
    }
    forall u: nat | u < |s| ensures order[u] in s { assert order[..|s|][u] in Elems(order[..|s|]); }
  }

  lemma LastByNumber(e: Graph, starts: set<nat>, reached: seq<nat>, vmap: seq<nat>, order: seq<nat>, k: nat, x: nat)
    requires AfterLevels(e, starts, reached, {}, k) && reached <= order && Numbers(vmap, order) && |order| == |vmap|
      && x < |vmap|
    requires Unreached(e, starts, x)
    ensures |reached| <= vmap[x] < |order| && order[vmap[x]] == x
  {
    FirstWhole(reached, Within(e, starts, k));
    FirstStays(reached, order, Within(e, starts, k));
    FirstByNumber(vmap, order, Within(e, starts, k), x);
    ElemsSize(reached);
  }

  // ------------------------------------------------------------------ the reversed map

  /** A complete numbering is a permutation. */
  lemma NumberingIsPermutation(vmap: seq<nat>, order: seq<nat>)
    requires Numbers(vmap, order) && |order| == |vmap|
    ensures NoDup(vmap) && Below(vmap, |vmap|)
  {
    forall x | 0 <= x < |vmap| ensures vmap[x] < |order| && order[vmap[x]] == x {
      Covers(order, |vmap|);
      assert x in order;
      var v :| 0 <= v < |order| && order[v] == x;
    }
  }

  /** aisaq_create_reversed_vectors_map: it succeeds exactly when no two entries agree, and then inverts the map both
      ways. */
  method CreateReversedMap(vmap: seq<nat>) returns (ok: bool, rev: seq<nat>)
    requires Below(vmap, |vmap|) && |vmap| <= INVALID_VID
    ensures ok <==> NoDup(vmap)
    ensures ok ==> |rev| == |vmap| && Below(rev, |vmap|)
    ensures ok ==> forall i :: 0 <= i < |vmap| ==> rev[vmap[i]] == i && vmap[rev[i]] == i
  {
    rev := seq(|vmap|, i => INVALID_VID);
    for i := 0 to |vmap|
      invariant |rev| == |vmap|
      invariant forall j :: 0 <= j < i ==> rev[vmap[j]] == j
      invariant forall r :: 0 <= r < |rev| && rev[r] != INVALID_VID ==> rev[r] < i && vmap[rev[r]] == r
    {
      if rev[vmap[i]] != INVALID_VID {
        assert vmap[rev[vmap[i]]] == vmap[i];
        return false, [];
      }
      rev := rev[vmap[i] := i];
    }
    InjectiveFills(vmap, rev);
    ok := true;
  }

  lemma InjectiveFills(vmap: seq<nat>, rev: seq<nat>)
    requires Below(vmap, |vmap|) && |rev| == |vmap| <= INVALID_VID
    requires forall j :: 0 <= j < |vmap| ==> rev[vmap[j]] == j
    requires forall r :: 0 <= r < |rev| && rev[r] != INVALID_VID ==> rev[r] < |vmap| && vmap[rev[r]] == r
    ensures NoDup(vmap) && Below(rev, |vmap|) && forall i :: 0 <= i < |vmap| ==> vmap[rev[i]] == i
  {
    assert forall i, j :: 0 <= i < j < |vmap| ==> rev[vmap[i]] != rev[vmap[j]];
    Covers(vmap, |vmap|);
    forall r: nat | r < |rev| ensures rev[r] != INVALID_VID {
      assert r in vmap;
      var j :| 0 <= j < |vmap| && vmap[j] == r;
    }
  }
}
