/** Moving the frozen points next to the live ones, for saving, and back. */
module Reposition {
  import opened Bytes
  import opened Collections
  import opened GraphSearch
  import opened SearchAnswers
  import opened SearchRenaming
  import opened Compaction

  /** A block of num locations moves from one place to another; the place may overlap the block. */
  datatype Move = Move(from: nat, to: nat, num: nat) {
    predicate Fits(total: nat) {
      from + num <= total && to + num <= total
    }

    predicate Leaves(x: nat) { from <= x < from + num }

    predicate Arrives(x: nat) { to <= x < to + num }

    function Place(x: nat): nat {
      if Leaves(x) then x - from + to else x
    }

    function Back(): Move { Move(to, from, num) }
  }

  /** The difference of the two places as the code computes it, on 32-bit words. */
  function Delta(m: Move): (d: nat)
    ensures d < WORD
  {
    (m.to - m.from) % WORD
  }

  /** Adding that difference, on words, is right in both directions. */
  lemma DeltaMoves(m: Move, x: nat)
    requires m.Fits(WORD) && m.Leaves(x)
    ensures (x + Delta(m)) % WORD == m.Place(x)
  {
    if m.to < m.from {
      assert Delta(m) == m.to - m.from + WORD;
      assert x + Delta(m) == m.Place(x) + WORD;
    }
  }

  function PlaceAll(m: Move, list: seq<nat>): (r: seq<nat>)
    ensures |r| == |list| && forall i :: 0 <= i < |list| ==> r[i] == m.Place(list[i])
  {
    seq(|list|, i requires 0 <= i < |list| => m.Place(list[i]))
  }

  /** Where the distance d is smaller than the block, a displaced list is swapped on, d places each time. */
  function Lowest(k: nat, d: nat): (j: nat)
    requires 0 < d
    ensures j < d && j <= k && (k < d ==> j == k)
  {
    if k < d then k else Lowest(k - d, d)
  }

  function Highest(k: nat, d: nat, num: nat): (j: nat)
    requires 0 < d && k < num
    ensures k <= j < num && num <= j + d && (num <= k + d ==> j == k)
    decreases num - k
  {
    if num <= k + d then k else Highest(k + d, d, num)
  }

  /** Which list ends up at a location that the block has left: one that was in the way of the block. */
  function Displaced(m: Move, x: nat): (y: nat)
    requires m.Leaves(x) && !m.Arrives(x)
    ensures m.Arrives(y) && !m.Leaves(y)
  {
    if m.to < m.from then m.to + Lowest(x - m.from, m.from - m.to)
    else m.to + Highest(x - m.from, m.to - m.from, m.num)
  }

  /** On the way back the displaced lists return. */
  lemma DisplacedBack(m: Move, y: nat)
    requires m.Arrives(y) && !m.Leaves(y)
    ensures Displaced(m, Displaced(m.Back(), y)) == y
  {
    if m.to < m.from {
      LowestOfHighest(y - m.to, m.from - m.to, m.num);
    } else {
      HighestOfLowest(y - m.to, m.to - m.from, m.num);
    }
  }

  lemma {:induction false} LowestOfHighest(k: nat, d: nat, num: nat)
    requires 0 < d && k < num
    ensures Lowest(Highest(k, d, num), d) == Lowest(k, d)
    decreases num - k
  {
    if k + d < num { LowestOfHighest(k + d, d, num); }
  }

  lemma {:induction false} HighestOfLowest(k: nat, d: nat, num: nat)
    requires 0 < d && k < num
    ensures Highest(Lowest(k, d), d, num) == Highest(k, d, num)
  {
    if k >= d { HighestOfLowest(k - d, d, num); }
  }

  /** Where each list ends up: the block's lists at the new place, what was in their way where the block was. */
  ghost predicate ListsMoved(m: Move, was: Graph, now: Graph)
    requires m.Fits(|was|)
  {
    && |now| == |was|
    && forall x {:trigger now[x]} :: 0 <= x < |was| ==>
         now[x] ==
           if m.to <= x < m.to + m.num then was[x - m.to + m.from]
           else if m.from <= x < m.from + m.num then was[Displaced(m, x)]
           else was[x]
  }

  /** The same, with the lists renamed on the way. */
  ghost predicate GraphMoved(m: Move, was: Graph, now: Graph)
    requires m.Fits(|was|)
  {
    && |now| == |was|
    && forall x {:trigger now[x]} :: 0 <= x < |was| ==>
         now[x] ==
           if m.to <= x < m.to + m.num then PlaceAll(m, was[x - m.to + m.from])
           else if m.from <= x < m.from + m.num then PlaceAll(m, was[Displaced(m, x)])
           else PlaceAll(m, was[x])
  }

  ghost predicate VectorsMoved(m: Move, was: seq<Vector>, now: seq<Vector>, zero: Vector)
    requires m.Fits(|was|)
  {
    && |now| == |was|
    && forall x {:trigger now[x]} :: 0 <= x < |was| ==>
         now[x] ==
           if m.to <= x < m.to + m.num then was[x - m.to + m.from]
           else if m.from <= x < m.from + m.num then zero
           else was[x]
  }

  /** What the moving loops assert on their way: the lists at the new place are empty. */
  ghost predicate TargetEmpty(m: Move, graph: Graph)
    requires m.Fits(|graph|)
  {
    forall x {:trigger graph[x]} :: m.to <= x < m.to + m.num && !(m.from <= x < m.from + m.num) ==> graph[x] == []
  }

  // ------------------------------------------------------------------ the loops

  /** The neighbour lists are rewritten, word by word. */
  method RenameEdges(graph0: Graph, m: Move) returns (graph: Graph)
    requires m.Fits(|graph0|) && |graph0| <= WORD
    ensures |graph| == |graph0| && forall x :: 0 <= x < |graph| ==> graph[x] == PlaceAll(m, graph0[x])
  {
    var delta := Delta(m);
    graph := graph0;
    for x := 0 to |graph0|
      invariant |graph| == |graph0|
      invariant forall y :: 0 <= y < |graph| ==> graph[y] == if y < x then PlaceAll(m, graph0[y]) else graph0[y]
    {
      var list := RenameListEdges(graph0[x], m, delta);
      graph := graph[x := list];
    }
  }

  method RenameListEdges(list0: seq<nat>, m: Move, delta: nat) returns (list: seq<nat>)
    requires m.Fits(WORD) && delta == Delta(m)
    ensures list == PlaceAll(m, list0)
  {
    list := list0;
    for i := 0 to |list0|
      invariant |list| == |list0|
      invariant forall j :: 0 <= j < |list| ==> list[j] == if j < i then m.Place(list0[j]) else list0[j]
    {
      if m.from <= list[i] < m.from + m.num {
        DeltaMoves(m, list[i]);
        list := list[i := (list[i] + delta) % WORD];
      }
    }
  }

  /** Halfway: the first k lists of the block have moved (to a lower place). */
  ghost predicate UpTo(m: Move, k: nat, was: Graph, now: Graph)
    requires m.Fits(|was|) && k <= m.num && m.to < m.from
  {
    |now| == |was| && forall x {:trigger now[x]} :: 0 <= x < |was| ==>
      now[x] == if m.to <= x < m.to + k then was[x - m.to + m.from]
                else if m.from <= x < m.from + k then was[m.to + Lowest(x - m.from, m.from - m.to)]
                else was[x]
  }

  /** Halfway: all but the first k lists of the block have moved (to a higher place). */
  ghost predicate DownTo(m: Move, k: nat, was: Graph, now: Graph)
    requires m.Fits(|was|) && k <= m.num && m.from < m.to
  {
    |now| == |was| && forall x {:trigger now[x]} :: 0 <= x < |was| ==>
      now[x] == if m.to + k <= x < m.to + m.num then was[x - m.to + m.from]
                else if m.from + k <= x < m.from + m.num then was[m.to + Highest(x - m.from, m.to - m.from, m.num)]
                else was[x]
  }

  /** Two lists swap places. */
  function Swapped(graph: Graph, a: nat, b: nat): (r: Graph)
    requires a < |graph| && b < |graph|
    ensures |r| == |graph| && r[a] == graph[b] && r[b] == graph[a]
    ensures forall x :: 0 <= x < |graph| && x != a && x != b ==> r[x] == graph[x]
  {
    graph[a := graph[b]][b := graph[a]]
  }

  lemma SwapDown(m: Move, k: nat, was: Graph, now: Graph)
    requires m.Fits(|was|) && k < m.num && m.to < m.from && UpTo(m, k, was, now)
    ensures now[m.to + k] == was[m.to + Lowest(k, m.from - m.to)]
    ensures UpTo(m, k + 1, was, Swapped(now, m.to + k, m.from + k))
  {
    assert now[m.from + k] == was[m.from + k];
    assert now[m.to + k] == was[m.to + Lowest(k, m.from - m.to)];
  }

  lemma SwapUp(m: Move, k: nat, was: Graph, now: Graph)
    requires m.Fits(|was|) && k < m.num && m.from < m.to && DownTo(m, k + 1, was, now)
    ensures now[m.to + k] == was[m.to + Highest(k, m.to - m.from, m.num)]
    ensures DownTo(m, k, was, Swapped(now, m.to + k, m.from + k))
  {
    assert now[m.from + k] == was[m.from + k];
    assert now[m.to + k] == was[m.to + Highest(k, m.to - m.from, m.num)];
  }

  /** What the loops assert is that every list they meet at the new place is empty; nothing depends on it. */
  method MoveListsDown(graph0: Graph, m: Move) returns (graph: Graph, clean: bool)
    requires m.Fits(|graph0|) && m.to < m.from
    ensures ListsMoved(m, graph0, graph) && (clean <==> TargetEmpty(m, graph0))
  {
    graph, clean := graph0, true;
    for k := 0 to m.num
      invariant UpTo(m, k, graph0, graph)
      invariant clean <==> forall x {:trigger graph0[x]} :: m.to <= x < m.to + k && x < m.from ==> graph0[x] == []
    {
      SwapDown(m, k, graph0, graph);
      clean := clean && graph[m.to + k] == [];
      graph := Swapped(graph, m.to + k, m.from + k);
    }
  }

  method MoveListsUp(graph0: Graph, m: Move) returns (graph: Graph, clean: bool)
    requires m.Fits(|graph0|) && m.from < m.to
    ensures ListsMoved(m, graph0, graph) && (clean <==> TargetEmpty(m, graph0))
  {
    graph, clean := graph0, true;
    for k := m.num downto 0
      invariant DownTo(m, k, graph0, graph)
      invariant clean <==>
        forall x {:trigger graph0[x]} :: m.to + k <= x < m.to + m.num && m.from + m.num <= x ==> graph0[x] == []
    {
      SwapUp(m, k, graph0, graph);
      clean := clean && graph[m.to + k] == [];
      graph := Swapped(graph, m.to + k, m.from + k);
    }
  }

  /** move_vectors: memmove, then zero what the block has left behind. */
  method MoveVectors(vectors0: seq<Vector>, m: Move, zero: Vector) returns (vectors: seq<Vector>)
    requires m.Fits(|vectors0|)
    ensures VectorsMoved(m, vectors0, vectors, zero)
  {
    if m.num == 0 || m.from == m.to {
      return vectors0;
    }
    var clearFrom, clearTo := m.from, m.from + m.num;
    if m.to < m.from {
      if clearFrom < m.to + m.num {
        clearFrom := m.to + m.num;
      }
    } else {
      if clearTo > m.to {
        clearTo := m.to;
      }
    }
    vectors := vectors0;
    for k := 0 to m.num
      invariant |vectors| == |vectors0|
      invariant forall x {:trigger vectors[x]} :: 0 <= x < |vectors| ==>
        vectors[x] == if m.to <= x < m.to + k then vectors0[x - m.to + m.from] else vectors0[x]
    {
      vectors := vectors[m.to + k := vectors0[m.from + k]];
    }
    ghost var copied := vectors;
    for x := clearFrom to clearTo
      invariant |vectors| == |copied|
      invariant forall y :: 0 <= y < |vectors| ==> vectors[y] == if clearFrom <= y < x then zero else copied[y]
    {
      vectors := vectors[x := zero];
    }
  }

  /** reposition_points. clean tells whether every assertion on the way held; the rest is what happens either way. */
  method RepositionPoints(graph0: Graph, vectors0: seq<Vector>, m: Move, zero: Vector)
    returns (graph: Graph, vectors: seq<Vector>, clean: bool)
    requires m.Fits(|graph0|) && |graph0| == |vectors0| <= WORD
    ensures GraphMoved(m, graph0, graph) && VectorsMoved(m, vectors0, vectors, zero)
    ensures clean <==> TargetEmpty(m, graph0)
  {
    if m.num == 0 || m.from == m.to {
      NothingMoves(m, graph0, vectors0, zero);
      return graph0, vectors0, true;
    }
    graph := RenameEdges(graph0, m);
    ghost var renamed := graph;
    if m.to < m.from {
      graph, clean := MoveListsDown(graph, m);
    } else {
      graph, clean := MoveListsUp(graph, m);
    }
    assert TargetEmpty(m, renamed) <==> TargetEmpty(m, graph0) by { StillEmpty(m, graph0, renamed); }
    assert ListsMoved(m, renamed, graph);
    vectors := MoveVectors(vectors0, m, zero);
  }

  lemma StillEmpty(m: Move, was: Graph, renamed: Graph)
    requires m.Fits(|was|) && |renamed| == |was| && forall x :: 0 <= x < |was| ==> renamed[x] == PlaceAll(m, was[x])
    ensures TargetEmpty(m, renamed) <==> TargetEmpty(m, was)
  {
    assert forall x :: 0 <= x < |was| ==> (renamed[x] == [] <==> |was[x]| == 0);
  }

  // ------------------------------------------------------------------ there and back

  /** Moving there and back puts an edge right exactly when it did not lead into the gap the block moves to. */
  lemma EdgeRestored(m: Move, x: nat)
    ensures m.Back().Place(m.Place(x)) == x <==> (m.Arrives(x) ==> m.Leaves(x) || m.from == m.to)
  {
  }

  /** There and back every list is in its place again, whatever was in the way; its edges have been renamed twice. */
  ghost predicate Rerouted(m: Move, was: Graph, back: Graph) {
    |back| == |was| && forall x {:trigger back[x]} :: 0 <= x < |was| ==>
      back[x] == PlaceAll(m.Back(), PlaceAll(m, was[x]))
  }

  lemma GraphBack(m: Move, was: Graph, there: Graph, back: Graph)
    requires m.Fits(|was|) && GraphMoved(m, was, there) && GraphMoved(m.Back(), there, back)
    ensures Rerouted(m, was, back)
  {
    forall x | 0 <= x < |was| ensures back[x] == PlaceAll(m.Back(), PlaceAll(m, was[x])) {
      if m.Arrives(x) && !m.Leaves(x) {
        DisplacedBack(m, x);
        assert there[Displaced(m.Back(), x)] == PlaceAll(m, was[x]);
      }
    }
  }

  /** There and back is the identity on lists exactly when no list leads into the gap. */
  lemma GraphRestored(m: Move, was: Graph, back: Graph)
    requires m.Fits(|was|) && Rerouted(m, was, back)
    ensures back == was <==> m.from == m.to || NoEdgeIntoGap(m, was)
  {
    if m.from == m.to || NoEdgeIntoGap(m, was) {
      forall x | 0 <= x < |was| ensures back[x] == was[x] { ListRestored(m, was[x]); }
    } else {
      var x, i :| 0 <= x < |was| && 0 <= i < |was[x]| && m.Arrives(was[x][i]) && !m.Leaves(was[x][i]);
      EdgeRestored(m, was[x][i]);
      assert back[x][i] != was[x][i];
    }
  }

  ghost predicate NoEdgeIntoGap(m: Move, g: Graph) {
    forall x :: 0 <= x < |g| ==> forall i :: 0 <= i < |g[x]| ==> m.Arrives(g[x][i]) ==> m.Leaves(g[x][i])
  }

  /** If nothing was in the way there, nothing is on the way back. */
  lemma GapEmptyAfterMove(m: Move, was: Graph, there: Graph)
    requires m.Fits(|was|) && GraphMoved(m, was, there) && TargetEmpty(m, was)
    ensures TargetEmpty(m.Back(), there)
  {
    forall x | m.from <= x < m.from + m.num && !(m.to <= x < m.to + m.num) ensures there[x] == [] {
      assert was[Displaced(m, x)] == [];
    }
  }

  lemma NothingMoves(m: Move, graph: Graph, vectors: seq<Vector>, zero: Vector)
    requires m.Fits(|graph|) && |graph| == |vectors| && (m.num == 0 || m.from == m.to)
    ensures GraphMoved(m, graph, graph) && VectorsMoved(m, vectors, vectors, zero) && TargetEmpty(m, graph)
  {
    forall x | 0 <= x < |graph| ensures PlaceAll(m, graph[x]) == graph[x] { }
  }

  lemma ListRestored(m: Move, list: seq<nat>)
    requires m.from == m.to || forall i :: 0 <= i < |list| ==> m.Arrives(list[i]) ==> m.Leaves(list[i])
    ensures PlaceAll(m.Back(), PlaceAll(m, list)) == list
  {
    forall i | 0 <= i < |list| ensures m.Back().Place(m.Place(list[i])) == list[i] { EdgeRestored(m, list[i]); }
  }

  /** Vectors: everything is back in place, but the gap has been zeroed. */
  lemma VectorsRestored(m: Move, was: seq<Vector>, there: seq<Vector>, back: seq<Vector>, zero: Vector)
    requires m.Fits(|was|) && VectorsMoved(m, was, there, zero) && VectorsMoved(m.Back(), there, back, zero)
    ensures |back| == |was|
    ensures forall x :: 0 <= x < |was| ==>
      back[x] == if m.to <= x < m.to + m.num && !(m.from <= x < m.from + m.num) then zero else was[x]
  {
  }

  lemma ThereAndBack(m: Move, was: Graph, there: Graph, back: Graph, vectors: seq<Vector>, thereVectors: seq<Vector>,
                     backVectors: seq<Vector>, zero: Vector)
    requires m.Fits(|was|) && |was| == |vectors| && GraphMoved(m, was, there) && GraphMoved(m.Back(), there, back)
    requires VectorsMoved(m, vectors, thereVectors, zero) && VectorsMoved(m.Back(), thereVectors, backVectors, zero)
    ensures Rerouted(m, was, back) && |backVectors| == |vectors|
    ensures forall x :: 0 <= x < |vectors| ==>
      backVectors[x] == if m.to <= x < m.to + m.num && !(m.from <= x < m.from + m.num) then zero else vectors[x]
    ensures TargetEmpty(m, was) ==> TargetEmpty(m.Back(), there)
  {
    GraphBack(m, was, there, back);
    VectorsRestored(m, vectors, thereVectors, backVectors, zero);
    if TargetEmpty(m, was) { GapEmptyAfterMove(m, was, there); }
  }

  // ------------------------------------------------------------------ the moved index answers as before

  /** Live points stay, frozen points follow the live ones: the present locations keep their order. */
  function Closing(nd: nat, maxPoints: nat, numFrozen: nat): (r: map<nat, nat>)
    requires nd <= maxPoints
    ensures forall x: nat :: x in r <==> x < nd || maxPoints <= x < maxPoints + numFrozen
    ensures forall x :: x in r ==> r[x] == Move(maxPoints, nd, numFrozen).Place(x)
  {
    map x | x in Interval(0, nd) + Interval(maxPoints, maxPoints + numFrozen) :: Move(maxPoints, nd, numFrozen).Place(x)
  }

  lemma ClosingMonotone(nd: nat, maxPoints: nat, numFrozen: nat)
    requires nd <= maxPoints
    ensures Monotone(Closing(nd, maxPoints, numFrozen))
  {
  }

  /** The saved part of the moved index, live points and frozen points, is the old index renamed. */
  lemma ClosingRenames(nd: nat, maxPoints: nat, numFrozen: nat, was: Graph, vectors: seq<Vector>, now: Graph,
                       moved: seq<Vector>, zero: Vector)
    requires nd <= maxPoints && |was| == |vectors| == maxPoints + numFrozen && InRange(was)
    requires GraphMoved(Move(maxPoints, nd, numFrozen), was, now)
      && VectorsMoved(Move(maxPoints, nd, numFrozen), vectors, moved, zero)
    requires forall x :: 0 <= x < |was| ==> forall i :: 0 <= i < |was[x]| ==> was[x][i] < nd || maxPoints <= was[x][i]
    ensures Renamed(Closing(nd, maxPoints, numFrozen), was, vectors, now[..nd + numFrozen], moved[..nd + numFrozen])
  {
    var r := Closing(nd, maxPoints, numFrozen);
    var m := Move(maxPoints, nd, numFrozen);
    ClosingMonotone(nd, maxPoints, numFrozen);
    forall x | 0 <= x < |was|
      ensures (forall i :: 0 <= i < |was[x]| ==> was[x][i] in r) && RenameAll(r, was[x]) == PlaceAll(m, was[x])
      ensures Below(PlaceAll(m, was[x]), nd + numFrozen)
    {
      assert Below(was[x], |was|);
      ClosedList(nd, maxPoints, numFrozen, was[x]);
    }
    SavedInRange(nd, maxPoints, numFrozen, was, now);
    forall x | x in r
      ensures r[x] < nd + numFrozen && now[..nd + numFrozen][r[x]] == RenameAll(r, was[x])
      ensures moved[..nd + numFrozen][r[x]] == vectors[x]
    {
      ClosedPlace(nd, maxPoints, numFrozen, x);
    }
  }

  lemma ClosedPlace(nd: nat, maxPoints: nat, numFrozen: nat, x: nat)
    requires nd <= maxPoints && x in Closing(nd, maxPoints, numFrozen)
    ensures var y := Closing(nd, maxPoints, numFrozen)[x];
      if nd <= y < nd + numFrozen then x == y - nd + maxPoints else x == y && !(maxPoints <= y < maxPoints + numFrozen)
  {
  }

  lemma ClosedList(nd: nat, maxPoints: nat, numFrozen: nat, list: seq<nat>)
    requires nd <= maxPoints && Below(list, maxPoints + numFrozen)
    requires forall i :: 0 <= i < |list| ==> list[i] < nd || maxPoints <= list[i]
    ensures forall i :: 0 <= i < |list| ==> list[i] in Closing(nd, maxPoints, numFrozen)
    ensures RenameAll(Closing(nd, maxPoints, numFrozen), list) == PlaceAll(Move(maxPoints, nd, numFrozen), list)
  {
  }

  lemma SavedInRange(nd: nat, maxPoints: nat, numFrozen: nat, was: Graph, now: Graph)
    requires nd <= maxPoints && |was| == maxPoints + numFrozen && GraphMoved(Move(maxPoints, nd, numFrozen), was, now)
    requires forall x :: 0 <= x < |was| ==> Below(PlaceAll(Move(maxPoints, nd, numFrozen), was[x]), nd + numFrozen)
    ensures InRange(now[..nd + numFrozen])
  {
    var saved := now[..nd + numFrozen];
    forall x | 0 <= x < |saved| ensures Below(saved[x], |saved|) {
      assert nd <= x ==> Below(PlaceAll(Move(maxPoints, nd, numFrozen), was[x - nd + maxPoints]), nd + numFrozen);
      assert saved[x] == now[x];
    }
  }

  /** Every query, started at the moved frozen points, gets the answer it gets from the index in memory. */
  lemma SavedIndexAnswersAlike(nd: nat, maxPoints: nat, numFrozen: nat, was: Graph, vectors: seq<Vector>, now: Graph,
                               moved: seq<Vector>, zero: Vector, metric: (Vector, Vector) -> real, point: Vector,
                               K: nat, L: nat, resVectors: nat, tags: map<nat, int>)
    requires nd <= maxPoints && 0 < numFrozen && |was| == |vectors| == maxPoints + numFrozen && InRange(was)
      && 0 < L
    requires GraphMoved(Move(maxPoints, nd, numFrozen), was, now)
      && VectorsMoved(Move(maxPoints, nd, numFrozen), vectors, moved, zero)
    requires forall x :: 0 <= x < |was| ==> forall i :: 0 <= i < |was[x]| ==> was[x][i] < nd || maxPoints <= was[x][i]
    requires forall x :: x in tags ==> x < nd
    ensures InRange(now[..nd + numFrozen]) && Below(InitIds(maxPoints, maxPoints, numFrozen), |was|)
      && Below(InitIds(nd, nd, numFrozen), nd + numFrozen)
    ensures TagResult(QueryFor(metric, point, now[..nd + numFrozen], moved[..nd + numFrozen], L),
                      InitIds(nd, nd, numFrozen), K, resVectors, tags)
         == TagResult(QueryFor(metric, point, was, vectors, L), InitIds(maxPoints, maxPoints, numFrozen), K, resVectors,
                      tags)
  {
    var r := Closing(nd, maxPoints, numFrozen);
    var starts := InitIds(maxPoints, maxPoints, numFrozen);
    ClosingRenames(nd, maxPoints, numFrozen, was, vectors, now, moved, zero);
    RenamedQuery(r, was, vectors, now[..nd + numFrozen], moved[..nd + numFrozen], metric, point, L);
    StartsClose(nd, maxPoints, numFrozen, numFrozen);
    AnswersRename(r, QueryFor(metric, point, was, vectors, L),
                  QueryFor(metric, point, now[..nd + numFrozen], moved[..nd + numFrozen], L),
                  starts, tags, tags, K, resVectors);
  }

  lemma {:induction false} StartsClose(nd: nat, maxPoints: nat, numFrozen: nat, n: nat)
    requires nd <= maxPoints && n <= numFrozen && 0 < numFrozen
    ensures forall i :: 0 <= i < |InitIds(maxPoints, maxPoints, n)| ==>
      InitIds(maxPoints, maxPoints, n)[i] in Closing(nd, maxPoints, numFrozen)
    ensures RenameAll(Closing(nd, maxPoints, numFrozen), InitIds(maxPoints, maxPoints, n)) == InitIds(nd, nd, n)
  {
    if n != 0 {
      StartsClose(nd, maxPoints, numFrozen, n - 1);
      var r, ids := Closing(nd, maxPoints, numFrozen), InitIds(maxPoints, maxPoints, n - 1);
      if n > 1 { RenameSnoc(r, ids, maxPoints + n - 1); }
    }
  }
}
