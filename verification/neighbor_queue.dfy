/** The bounded candidate queue of the greedy search. */
module NeighborQueue {
  import opened Collections

  datatype Neighbor = Neighbor(id: nat, distance: real, expanded: bool)

  /** Candidates are ordered by distance, ties by location. */
  predicate Less(a: Neighbor, b: Neighbor) {
    a.distance < b.distance || (a.distance == b.distance && a.id < b.id)
  }

  /** Nearest first; of two at the same distance, the smaller location first. */
  ghost predicate Ordered(q: seq<Neighbor>) {
    forall i, j :: 0 <= i < j < |q| ==> Less(q[i], q[j])
  }

  /** No stored entry has x's location at another distance: distance is a function of the location. */
  ghost predicate Agrees(q: seq<Neighbor>, x: Neighbor) {
    forall i :: 0 <= i < |q| && q[i].id == x.id ==> q[i].distance == x.distance
  }

  function Unexpanded(x: Neighbor): Neighbor {
    x.(expanded := false)
  }

  /** x put at its place in q, unless its location is met first. */
  function Place(q: seq<Neighbor>, x: Neighbor): (r: seq<Neighbor>)
    ensures |q| <= |r| <= |q| + 1
  {
    if q == [] then [Unexpanded(x)]
    else if Less(x, q[0]) then [Unexpanded(x)] + q
    else if q[0].id == x.id then q
    else [q[0]] + Place(q[1..], x)
  }

  /** The queue after x has been offered to it. */
  function Offer(q: seq<Neighbor>, x: Neighbor, capacity: nat): (r: seq<Neighbor>) {
    var p := Place(q, x);
    if |p| > capacity then p[..capacity] else p
  }

  function FirstUnexpandedFrom(q: seq<Neighbor>, from: nat): (i: nat)
    requires from <= |q|
    ensures from <= i <= |q|
    ensures forall k :: from <= k < i ==> q[k].expanded
    ensures i < |q| ==> !q[i].expanded
    decreases |q| - from
  {
    if from == |q| || !q[from].expanded then from else FirstUnexpandedFrom(q, from + 1)
  }

  /** The cursor: the first entry that has not been expanded. */
  function FirstUnexpanded(q: seq<Neighbor>): (i: nat)
    ensures i <= |q|
    ensures forall k :: 0 <= k < i ==> q[k].expanded
    ensures i < |q| ==> !q[i].expanded
  {
    FirstUnexpandedFrom(q, 0)
  }

  lemma FirstUnexpandedIs(q: seq<Neighbor>, i: nat)
    requires i <= |q|
    requires forall k :: 0 <= k < i ==> q[k].expanded
    requires i < |q| ==> !q[i].expanded
    ensures FirstUnexpanded(q) == i
  {
    var f := FirstUnexpanded(q);
    assert f < |q| ==> !q[f].expanded;
    assert i < |q| ==> !q[i].expanded;
  }

  /** The entry under the cursor, marked as expanded. */
  function Expand(q: seq<Neighbor>): seq<Neighbor>
    requires FirstUnexpanded(q) < |q|
  {
    var i := FirstUnexpanded(q);
    q[i := q[i].(expanded := true)]
  }

  lemma {:induction false} PlaceAt(q: seq<Neighbor>, x: Neighbor, lo: nat)
    requires lo <= |q|
    requires forall i :: 0 <= i < lo ==> Less(q[i], x) && q[i].id != x.id
    requires forall i :: lo <= i < |q| ==> Less(x, q[i])
    ensures Place(q, x) == q[..lo] + [Unexpanded(x)] + q[lo..]
  {
    if lo == 0 {
      assert q[..0] + [Unexpanded(x)] + q[0..] == [Unexpanded(x)] + q;
    } else {
      PlaceAt(q[1..], x, lo - 1);
      assert [q[0]] + q[1..][..lo - 1] == q[..lo];
      assert q[1..][lo - 1..] == q[lo..];
    }
  }

  lemma {:induction false} PlaceFound(q: seq<Neighbor>, x: Neighbor, at: nat)
    requires at < |q| && Ordered(q) && Agrees(q, x) && q[at].id == x.id
    ensures Place(q, x) == q
  {
    if at > 0 {
      assert Less(q[0], q[at]);
      PlaceFound(q[1..], x, at - 1);
    }
  }

  /** Where a location that is not in an ordered queue belongs. */
  lemma {:induction false} Position(q: seq<Neighbor>, x: Neighbor) returns (lo: nat)
    requires Ordered(q) && Agrees(q, x)
    requires forall i :: 0 <= i < |q| ==> q[i].id != x.id
    ensures lo <= |q|
    ensures forall i :: 0 <= i < lo ==> Less(q[i], x)
    ensures forall i :: lo <= i < |q| ==> Less(x, q[i])
  {
    if q == [] {
      lo := 0;
    } else if Less(x, q[0]) {
      lo := 0;
      forall i | 0 <= i < |q| ensures Less(x, q[i]) {
        if i > 0 { assert Less(q[0], q[i]); }
      }
    } else {
      var l := Position(q[1..], x);
      lo := l + 1;
      forall i | lo <= i < |q| ensures Less(x, q[i]) { assert q[i] == q[1..][i - 1]; }
      forall i | 0 <= i < lo ensures Less(q[i], x) {
        if i > 0 { assert q[i] == q[1..][i - 1]; }
      }
    }
  }

  function Item(dist: seq<real>, x: nat): Neighbor
    requires x < |dist|
  {
    Neighbor(x, dist[x], false)
  }

  function Ids(q: seq<Neighbor>): (r: seq<nat>)
    ensures |r| == |q| && forall i :: 0 <= i < |q| ==> r[i] == q[i].id
  {
    seq(|q|, i requires 0 <= i < |q| => q[i].id)
  }

  /** Every entry carries the distance of its location. */
  ghost predicate Measured(q: seq<Neighbor>, dist: seq<real>) {
    forall i :: 0 <= i < |q| ==> q[i].id < |dist| && q[i].distance == dist[q[i].id]
  }

  /** Every entry is nearer than x, or as far with a smaller location. */
  ghost predicate AllLess(q: seq<Neighbor>, x: Neighbor) {
    forall i :: 0 <= i < |q| ==> Less(q[i], x)
  }

  /** q lists, in strict order, the capacity-many smallest of the offered locations. */
  ghost predicate HoldsBest(q: seq<Neighbor>, offered: set<nat>, capacity: nat, dist: seq<real>) {
    && (forall x :: x in offered ==> x < |dist|)
    && Ordered(q)
    && |q| <= capacity
    && Measured(q, dist)
    && (forall i :: 0 <= i < |q| ==> q[i].id in offered)
    && (forall x :: x in offered && x !in Ids(q) ==> |q| == capacity && AllLess(q, Item(dist, x)))
  }

  /** In numbers: nearest first, and of two at the same distance the smaller location first; what was offered and is not
      held finds the queue full, and is farther than everything in it, or as far with a larger location. */
  lemma BestInNumbers(q: seq<Neighbor>, offered: set<nat>, capacity: nat, dist: seq<real>)
    requires HoldsBest(q, offered, capacity, dist)
    ensures forall i, j :: 0 <= i < j < |q| ==>
      q[i].distance < q[j].distance || (q[i].distance == q[j].distance && q[i].id < q[j].id)
    ensures forall x, i :: x in offered && x !in Ids(q) && 0 <= i < |q| ==>
      |q| == capacity && (q[i].distance < dist[x] || (q[i].distance == dist[x] && q[i].id < x))
  {
    forall x, i | x in offered && x !in Ids(q) && 0 <= i < |q|
      ensures |q| == capacity && (q[i].distance < dist[x] || (q[i].distance == dist[x] && q[i].id < x))
    {
      assert Less(q[i], Item(dist, x));
    }
  }

  lemma OrderedIdsDistinct(q: seq<Neighbor>, dist: seq<real>)
    requires Ordered(q) && Measured(q, dist)
    ensures NoDup(Ids(q))
  {
    forall i, j | 0 <= i < j < |q| ensures q[i].id != q[j].id { assert Less(q[i], q[j]); }
  }

  /** q with x placed at lo. */
  function Inserted(q: seq<Neighbor>, x: Neighbor, lo: nat): (r: seq<Neighbor>)
    requires lo <= |q|
    ensures |r| == |q| + 1
    ensures forall i :: 0 <= i < |r| ==> r[i] == if i < lo then q[i] else if i == lo then x else q[i - 1]
  {
    q[..lo] + [x] + q[lo..]
  }

  /** q with x placed at lo and the last entry dropped. */
  function Shifted(q: seq<Neighbor>, x: Neighbor, lo: nat): (r: seq<Neighbor>)
    requires lo < |q|
    ensures |r| == |q|
    ensures forall i :: 0 <= i < |r| ==> r[i] == if i < lo then q[i] else if i == lo then x else q[i - 1]
  {
    q[..lo] + [x] + q[lo..|q| - 1]
  }

  /** q, holding at most capacity entries, with x placed at lo. */
  function Put(q: seq<Neighbor>, x: Neighbor, lo: nat, capacity: nat): seq<Neighbor>
    requires lo <= |q| <= capacity && lo < capacity
  {
    if |q| < capacity then Inserted(q, x, lo) else Shifted(q, x, lo)
  }

  /** lo splits q into the entries before x and those after it. */
  ghost predicate Splits(q: seq<Neighbor>, x: Neighbor, lo: nat) {
    && lo <= |q|
    && (forall i :: 0 <= i < lo ==> Less(q[i], x))
    && (forall i :: lo <= i < |q| ==> Less(x, q[i]))
  }

  /** What one offer does to the entries. */
  lemma OfferCases(q: seq<Neighbor>, x: Neighbor, capacity: nat) returns (lo: nat)
    requires Ordered(q) && Agrees(q, x) && |q| <= capacity
    ensures x.id in Ids(q) ==> Offer(q, x, capacity) == q
    ensures x.id !in Ids(q) ==>
      && Splits(q, x, lo)
      && Offer(q, x, capacity) == if lo < capacity then Put(q, Unexpanded(x), lo, capacity) else q
  {
    if x.id in Ids(q) {
      var i :| 0 <= i < |q| && Ids(q)[i] == x.id;
      PlaceFound(q, x, i);
      lo := 0;
    } else {
      forall i | 0 <= i < |q| ensures q[i].id != x.id { assert Ids(q)[i] == q[i].id; }
      lo := Position(q, x);
      PlaceAt(q, x, lo);
    }
  }

  lemma InsertedOrder(q: seq<Neighbor>, x: Neighbor, lo: nat)
    requires Ordered(q) && Splits(q, x, lo)
    ensures Ordered(Inserted(q, Unexpanded(x), lo))
  {
  }

  lemma ShiftedOrder(q: seq<Neighbor>, x: Neighbor, lo: nat)
    requires Ordered(q) && Splits(q, x, lo) && lo < |q|
    ensures Ordered(Shifted(q, Unexpanded(x), lo)) && AllLess(Shifted(q, Unexpanded(x), lo), q[|q| - 1])
  {
  }

  lemma KeptAfterInsertion(q: seq<Neighbor>, x: Neighbor, lo: nat, y: nat)
    requires lo <= |q|
    ensures y in Ids(Inserted(q, x, lo)) <==> y in Ids(q) || y == x.id
  {
    var r := Inserted(q, x, lo);
    assert Ids(r) == Ids(q)[..lo] + [x.id] + Ids(q)[lo..];
    assert Ids(q) == Ids(q)[..lo] + Ids(q)[lo..];
  }

  /** Room left: the new location joins the others. */
  lemma OfferWithRoom(q: seq<Neighbor>, offered: set<nat>, x: nat, capacity: nat, dist: seq<real>, lo: nat)
    requires HoldsBest(q, offered, capacity, dist) && x < |dist| && |q| < capacity && Splits(q, Item(dist, x), lo)
    ensures HoldsBest(Inserted(q, Item(dist, x), lo), offered + {x}, capacity, dist)
  {
    var r := Inserted(q, Item(dist, x), lo);
    assert Ordered(r) by { InsertedOrder(q, Item(dist, x), lo); }
    assert Measured(r, dist) && forall i :: 0 <= i < |r| ==> r[i].id in offered + {x};
    forall y | y in offered + {x} ensures y in Ids(r) { KeptAfterInsertion(q, Item(dist, x), lo, y); }
  }

  lemma AllLessThan(q: seq<Neighbor>, x: Neighbor, y: Neighbor)
    requires AllLess(q, x) && (Unexpanded(x) == y || Less(x, y))
    ensures AllLess(q, y)
  {
  }

  /** Full, and x beats the last entry, which leaves. */
  lemma OfferEvicts(q: seq<Neighbor>, offered: set<nat>, x: nat, capacity: nat, dist: seq<real>, lo: nat)
    requires HoldsBest(q, offered, capacity, dist) && x < |dist| && |q| == capacity && Splits(q, Item(dist, x), lo)
    requires lo < capacity
    ensures HoldsBest(Shifted(q, Item(dist, x), lo), offered + {x}, capacity, dist)
  {
    var last := q[capacity - 1];
    var r := Shifted(q, Item(dist, x), lo);
    assert Ordered(r) && AllLess(r, last) by { ShiftedOrder(q, Item(dist, x), lo); }
    assert Measured(r, dist) && forall i :: 0 <= i < |r| ==> r[i].id in offered + {x};
    assert Ids(r)[lo] == x;
    forall y | y in offered + {x} && y !in Ids(r) ensures AllLess(r, Item(dist, y)) {
      EvictedIsLast(q, Item(dist, x), lo, y);
      AllLessThan(r, last, Item(dist, y));
    }
  }

  lemma EvictedIsLast(q: seq<Neighbor>, x: Neighbor, lo: nat, y: nat)
    requires lo < |q|
    ensures y !in Ids(Shifted(q, x, lo)) ==> y !in Ids(q) || y == q[|q| - 1].id
  {
    var r := Shifted(q, x, lo);
    assert forall k :: 0 <= k < |q| - 1 ==> Ids(r)[if k < lo then k else k + 1] == q[k].id;
  }

  /** One insertion refines one set insertion. */
  lemma OfferKeepsBest(q: seq<Neighbor>, offered: set<nat>, x: nat, capacity: nat, dist: seq<real>)
    requires HoldsBest(q, offered, capacity, dist) && x < |dist|
    ensures HoldsBest(Offer(q, Item(dist, x), capacity), offered + {x}, capacity, dist)
  {
    var lo := OfferCases(q, Item(dist, x), capacity);
    if x in Ids(q) {
      var k :| 0 <= k < |q| && Ids(q)[k] == x;
      assert q[k].id in offered;
      assert offered + {x} == offered;
    } else if |q| < capacity {
      OfferWithRoom(q, offered, x, capacity, dist, lo);
    } else if lo < capacity {
      OfferEvicts(q, offered, x, capacity, dist, lo);
    } else {
      OfferRefused(q, offered, x, capacity, dist);
    }
  }

  /** Full, and x is beyond the last entry. */
  lemma OfferRefused(q: seq<Neighbor>, offered: set<nat>, x: nat, capacity: nat, dist: seq<real>)
    requires HoldsBest(q, offered, capacity, dist) && x < |dist| && |q| == capacity && AllLess(q, Item(dist, x))
    ensures HoldsBest(q, offered + {x}, capacity, dist)
  {
  }

  /** HoldsBest determines the locations: two queues for the same offers list the same ones. */
  lemma {:induction false} BestIsUnique(q: seq<Neighbor>, r: seq<Neighbor>, offered: set<nat>, capacity: nat,
                                        dist: seq<real>)
    requires HoldsBest(q, offered, capacity, dist) && HoldsBest(r, offered, capacity, dist)
    ensures Ids(q) == Ids(r)
  {
    OrderedIdsDistinct(q, dist);
    OrderedIdsDistinct(r, dist);
    forall x | x in offered ensures x in Ids(q) <==> x in Ids(r) {
      if x in Ids(q) { BestMember(q, r, offered, capacity, dist, x); }
      if x in Ids(r) { BestMember(r, q, offered, capacity, dist, x); }
    }
    assert forall x :: x in Ids(q) <==> x in Ids(r) by {
      forall x | x in Ids(q)
        ensures x in offered { var i :| 0 <= i < |q| && Ids(q)[i] == x; assert q[i].id in offered; }
      forall x | x in Ids(r)
        ensures x in offered { var i :| 0 <= i < |r| && Ids(r)[i] == x; assert r[i].id in offered; }
    }
    SortedIdsEqual(q, r, dist);
  }

  lemma BestMember(q: seq<Neighbor>, r: seq<Neighbor>, offered: set<nat>, capacity: nat, dist: seq<real>, x: nat)
    requires HoldsBest(q, offered, capacity, dist) && HoldsBest(r, offered, capacity, dist)
    requires x in Ids(q)
    ensures x in Ids(r)
  {
    if x !in Ids(r) {
      var k :| 0 <= k < |q| && Ids(q)[k] == x;
      assert q[k].id == x && q[k].id in offered;
      // Every entry of r is smaller than x, so all of them would be in q, below x.
      forall y | y in Ids(r) ensures y in Ids(q) {
        var i :| 0 <= i < |r| && Ids(r)[i] == y;
        assert r[i].id in offered && Less(r[i], Item(dist, x));
        assert y !in Ids(q) ==> Less(q[k], Item(dist, y));
      }
      OrderedIdsDistinct(q, dist);
      OrderedIdsDistinct(r, dist);
      ElemsSize(Ids(q));
      ElemsSize(Ids(r));
      assert Elems(Ids(r)) <= Elems(Ids(q)) - {x};
      SubsetSize(Elems(Ids(r)), Elems(Ids(q)) - {x});
    }
  }

  lemma HeadIsLeast(q: seq<Neighbor>, r: seq<Neighbor>, dist: seq<real>)
    requires Ordered(q) && Ordered(r) && Measured(q, dist) && Measured(r, dist) && q != []
    requires forall x :: x in Ids(q) ==> x in Ids(r)
    ensures r != []
    ensures q[0].id == r[0].id || Less(r[0], q[0])
  {
    assert Ids(q)[0] in Ids(r);
    var i :| 0 <= i < |r| && Ids(r)[i] == Ids(q)[0];
    assert i == 0 || Less(r[0], r[i]);
  }

  lemma {:induction false} SortedIdsEqual(q: seq<Neighbor>, r: seq<Neighbor>, dist: seq<real>)
    requires Ordered(q) && Ordered(r) && Measured(q, dist) && Measured(r, dist)
    requires forall x :: x in Ids(q) <==> x in Ids(r)
    ensures Ids(q) == Ids(r)
  {
    if q != [] {
      HeadIsLeast(q, r, dist);
      HeadIsLeast(r, q, dist);
      forall x ensures x in Ids(q[1..]) <==> x in Ids(r[1..]) {
        TailIds(q, dist, x);
        TailIds(r, dist, x);
      }
      SortedIdsEqual(q[1..], r[1..], dist);
      assert Ids(q) == [q[0].id] + Ids(q[1..]);
      assert Ids(r) == [r[0].id] + Ids(r[1..]);
    } else if r != [] {
      HeadIsLeast(r, q, dist);
    }
  }

  lemma TailIds(q: seq<Neighbor>, dist: seq<real>, x: nat)
    requires q != [] && Ordered(q) && Measured(q, dist)
    ensures x in Ids(q[1..]) <==> x in Ids(q) && x != q[0].id
  {
    if x in Ids(q[1..]) {
      var i :| 0 <= i < |q| - 1 && Ids(q[1..])[i] == x;
      assert Ids(q)[i + 1] == x && Less(q[0], q[i + 1]);
    }
    if x in Ids(q) && x != q[0].id {
      var i :| 0 <= i < |q| && Ids(q)[i] == x;
      assert Ids(q[1..])[i - 1] == x;
    }
  }

  lemma ExpandKeepsBest(q: seq<Neighbor>, offered: set<nat>, capacity: nat, dist: seq<real>)
    requires HoldsBest(q, offered, capacity, dist) && FirstUnexpanded(q) < |q|
    ensures HoldsBest(Expand(q), offered, capacity, dist) && Ids(Expand(q)) == Ids(q)
  {
    var e := Expand(q);
    ExpandKeepsOrder(q);
    assert forall i :: 0 <= i < |q| ==> e[i].id == q[i].id && e[i].distance == q[i].distance;
    forall x | x in offered && x !in Ids(q) ensures |e| == capacity && AllLess(e, Item(dist, x)) {
      assert AllLess(q, Item(dist, x));
    }
    assert Ids(e) == Ids(q);
  }

  datatype QueueOp = Insert(id: nat) | ClosestUnexpanded | Clear

  ghost predicate KnownIds(ops: seq<QueueOp>, dist: seq<real>) {
    forall i :: 0 <= i < |ops| && ops[i].Insert? ==> ops[i].id < |dist|
  }

  /** The queue after a run of operations on an empty one. */
  ghost function QueueAfter(ops: seq<QueueOp>, capacity: nat, dist: seq<real>): seq<Neighbor>
    requires KnownIds(ops, dist)
  {
    if ops == [] then []
    else
      var q := QueueAfter(ops[..|ops| - 1], capacity, dist);
      match ops[|ops| - 1]
      case Insert(id) => Offer(q, Item(dist, id), capacity)
      case ClosestUnexpanded => if FirstUnexpanded(q) < |q| then Expand(q) else q
      case Clear => []
  }

  /** The locations inserted since the last clear. */
  ghost function OfferedBy(ops: seq<QueueOp>): set<nat> {
    if ops == [] then {}
    else
      var s := OfferedBy(ops[..|ops| - 1]);
      match ops[|ops| - 1]
      case Insert(id) => s + {id}
      case ClosestUnexpanded => s
      case Clear => {}
  }

  /** After any run the queue holds exactly the best of what was offered since the last clear. */
  lemma {:induction false} QueueRefinesSortedSet(ops: seq<QueueOp>, capacity: nat, dist: seq<real>)
    requires KnownIds(ops, dist)
    ensures HoldsBest(QueueAfter(ops, capacity, dist), OfferedBy(ops), capacity, dist)
  {
    if ops != [] {
      var before := ops[..|ops| - 1];
      QueueRefinesSortedSet(before, capacity, dist);
      var q := QueueAfter(before, capacity, dist);
      match ops[|ops| - 1]
      case Insert(id) => OfferKeepsBest(q, OfferedBy(before), id, capacity, dist);
      case ClosestUnexpanded =>
        if FirstUnexpanded(q) < |q| { ExpandKeepsBest(q, OfferedBy(before), capacity, dist); }
      case Clear =>
    }
  }

  /** In numbers: the queue lists nearest first, and what was offered and is not held is farther than all it lists. */
  lemma QueueIsNearestFirst(ops: seq<QueueOp>, capacity: nat, dist: seq<real>)
    requires KnownIds(ops, dist)
    ensures var q := QueueAfter(ops, capacity, dist);
      && |q| <= capacity
      && (forall i :: 0 <= i < |q| ==> q[i].id in OfferedBy(ops) && q[i].id < |dist| && q[i].distance == dist[q[i].id])
      && (forall i, j :: 0 <= i < j < |q| ==>
            q[i].distance < q[j].distance || (q[i].distance == q[j].distance && q[i].id < q[j].id))
      && forall x, i :: x in OfferedBy(ops) && x !in Ids(q) && 0 <= i < |q| ==>
           |q| == capacity && x < |dist| && (q[i].distance < dist[x] || (q[i].distance == dist[x] && q[i].id < x))
  {
    QueueRefinesSortedSet(ops, capacity, dist);
    BestInNumbers(QueueAfter(ops, capacity, dist), OfferedBy(ops), capacity, dist);
  }

  /** The order of the insertions does not matter to which locations are held, nor to their order. */
  lemma InsertionOrderIrrelevant(ops: seq<QueueOp>, other: seq<QueueOp>, capacity: nat, dist: seq<real>)
    requires KnownIds(ops, dist) && KnownIds(other, dist) && OfferedBy(ops) == OfferedBy(other)
    ensures Ids(QueueAfter(ops, capacity, dist)) == Ids(QueueAfter(other, capacity, dist))
  {
    QueueRefinesSortedSet(ops, capacity, dist);
    QueueRefinesSortedSet(other, capacity, dist);
    BestIsUnique(QueueAfter(ops, capacity, dist), QueueAfter(other, capacity, dist), OfferedBy(ops), capacity, dist);
  }

  class NeighborPriorityQueue {
    var data: seq<Neighbor>
    var size: nat
    var capacity: nat
    var cur: nat

    function Contents(): seq<Neighbor>
      requires size <= |data|
      reads this
    {
      data[..size]
    }

    ghost predicate Valid()
      reads this
    {
      && size <= capacity < |data|
      && Ordered(Contents())
      && cur == FirstUnexpanded(Contents())
    }

    constructor (cap: nat)
      ensures Valid() && capacity == cap && Contents() == []
    {
      data := seq(cap + 1, i => Neighbor(0, 0.0, false));
      size, capacity, cur := 0, cap, 0;
    }

    /** Binary search: an entry with nbr's location was met, or lo is nbr's place. */
    method Locate(nbr: Neighbor) returns (found: bool, lo: nat)
      requires Valid()
      ensures found ==> lo < size && data[lo].id == nbr.id
      ensures !found ==> Splits(Contents(), nbr, lo)
      ensures !found && Agrees(Contents(), nbr) ==> nbr.id !in Ids(Contents())
    {
      lo := 0;
      var hi := size;
      while lo < hi
        invariant lo <= hi <= size
        invariant forall i :: 0 <= i < lo ==> Less(data[i], nbr)
        invariant forall i :: hi <= i < size ==> Less(nbr, data[i])
      {
        var mid := (lo + hi) / 2;
        if Less(nbr, data[mid]) {
          assert forall i :: mid < i < size ==> Less(data[mid], Contents()[i]);
          hi := mid;
        } else if data[mid].id == nbr.id {
          return true, mid;
        } else {
          assert forall i :: 0 <= i < mid ==> Less(Contents()[i], data[mid]);
          lo := mid + 1;
        }
      }
      return false, lo;
    }

    /** Moves the entries from lo on one place back and writes nbr at lo; a full queue drops its last entry. */
    method Write(nbr: Neighbor, lo: nat)
      requires size <= capacity < |data| && lo <= size && lo < capacity
      modifies this`size, this`data
      ensures |data| == old(|data|) && size == if old(size) < capacity then old(size) + 1 else old(size)
      ensures Contents() == Put(old(Contents()), Unexpanded(nbr), lo, capacity)
    {
      data := data[..lo + 1] + data[lo..size] + data[size + 1..];
      data := data[lo := Neighbor(nbr.id, nbr.distance, false)];
      if size < capacity {
        size := size + 1;
      }
    }

    /** Puts nbr at its place and moves the cursor forward if nbr is ahead of it. */
    method PutAt(nbr: Neighbor, lo: nat)
      requires Valid() && lo < capacity && Splits(Contents(), nbr, lo)
      modifies this`size, this`cur, this`data
      ensures Valid()
      ensures Contents() == Put(old(Contents()), Unexpanded(nbr), lo, capacity)
    {
      PutKeepsOrder(Contents(), nbr, lo, capacity);
      PutMovesCursor(Contents(), nbr, lo, capacity);
      Write(nbr, lo);
      if lo < cur {
        cur := lo;
      }
    }

    method Insert(nbr: Neighbor)
      requires Valid() && 0 < capacity
      modifies this`size, this`cur, this`data
      ensures Valid()
      ensures Agrees(old(Contents()), nbr) ==> Contents() == Offer(old(Contents()), nbr, capacity)
      ensures Contents() == old(Contents()) || Unexpanded(nbr) in Contents()
    {
      if size == capacity && Less(data[size - 1], nbr) {
        if Agrees(Contents(), nbr) { OfferBeyondLast(Contents(), nbr, capacity); }
        return;
      }
      var found, lo := Locate(nbr);
      if found {
        if Agrees(Contents(), nbr) { PlaceFound(Contents(), nbr, lo); }
        return;
      }
      if Agrees(Contents(), nbr) { OfferAtPlace(Contents(), nbr, lo, capacity); }
      PutAt(nbr, lo);
      assert Contents()[lo] == Unexpanded(nbr);
    }

    /** Insert that also reports the location that left the queue or was refused. */
    method InsertWithRemInfo(nbr: Neighbor) returns (rem: bool, id: nat)
      requires Valid() && 0 < capacity
      modifies this`size, this`cur, this`data
      ensures Valid()
      ensures Agrees(old(Contents()), nbr) ==> Contents() == Offer(old(Contents()), nbr, capacity)
      ensures Agrees(old(Contents()), nbr) ==> (rem, id) == Leaver(old(Contents()), nbr, capacity)
    {
      ghost var q := Contents();
      rem, id := false, 0;
      if size == capacity && Less(data[size - 1], nbr) {
        if Agrees(q, nbr) { RefusedLeaves(q, nbr, capacity); }
        return true, nbr.id;
      }
      var found, lo := Locate(nbr);
      if found {
        if Agrees(q, nbr) { HeldStays(q, nbr, lo, capacity); }
        return;
      }
      rem, id := PutAndReport(nbr, lo);
      if Agrees(q, nbr) { LastLeaves(q, nbr, lo, capacity); }
    }

    /** nbr goes to its place; a full queue reports its last entry. */
    method PutAndReport(nbr: Neighbor, lo: nat) returns (rem: bool, id: nat)
      requires Valid() && lo < capacity && Splits(Contents(), nbr, lo)
      modifies this`size, this`cur, this`data
      ensures Valid() && Contents() == Put(old(Contents()), Unexpanded(nbr), lo, capacity)
      ensures (rem, id) == if old(size) == capacity then (true, old(Contents())[capacity - 1].id) else (false, 0)
    {
      rem, id := false, 0;
      if size == capacity {
        rem, id := true, data[size - 1].id;
      }
      PutAt(nbr, lo);
    }

    /** The closest candidate that has not been expanded yet, which becomes expanded. */
    method ClosestUnexpanded() returns (nbr: Neighbor)
      requires Valid() && cur < size
      modifies this`cur, this`data
      ensures Valid() && Contents() == Expand(old(Contents()))
      ensures nbr == old(Contents()[cur]).(expanded := true)
    {
      data := data[cur := data[cur].(expanded := true)];
      var pre := cur;
      ghost var marked := data;
      ExpandKeepsOrder(old(Contents()));
      assert Contents() == Expand(old(Contents()));
      while cur < size && data[cur].expanded
        invariant pre <= cur <= size && data == marked
        invariant forall i :: 0 <= i < cur ==> marked[i].expanded
      {
        cur := cur + 1;
      }
      FirstUnexpandedIs(Contents(), cur);
      return data[pre];
    }

    predicate HasUnexpandedNode()
      requires Valid()
      reads this
      ensures HasUnexpandedNode() <==> exists i :: 0 <= i < size && !Contents()[i].expanded
    {
      assert cur < size ==> !Contents()[cur].expanded;
      cur < size
    }

    /** The first unexpanded entry behind a position; marking it keeps the cursor on the first one. */
    method GetNextUnexpandedPosition(from: nat, expand: bool) returns (found: bool, position: nat)
      requires Valid() && from < size
      modifies this`cur, this`data
      ensures Valid() && from < position <= size && found == (position < size)
      ensures forall i :: from < i < position ==> old(Contents()[i].expanded)
      ensures found ==> !old(Contents()[position].expanded)
      ensures Contents() == if found && expand
                            then old(Contents())[position := old(Contents()[position]).(expanded := true)]
                            else old(Contents())
    {
      position := from + 1;
      while position < size && data[position].expanded
        invariant from < position <= size
        invariant forall i :: from < i < position ==> data[i].expanded
      {
        position := position + 1;
      }
      if position < size {
        if expand {
          if position == cur {
            var _ := ClosestUnexpanded();
          } else {
            ghost var was := Contents();
            data := data[position := data[position].(expanded := true)];
            assert Contents() == was[position := was[position].(expanded := true)];
            MarkKeepsOrder(was, position);
            FirstUnexpandedIs(Contents(), cur);
          }
        }
        return true, position;
      }
      return false, position;
    }

    /** Sets the capacity, enlarging the storage if needed. */
    method Reserve(cap: nat)
      requires Valid() && size <= cap
      modifies this`capacity, this`data
      ensures Valid() && capacity == cap && Contents() == old(Contents())
    {
      if cap + 1 > |data| {
        data := data + seq(cap + 1 - |data|, i => Neighbor(0, 0.0, false));
      }
      capacity := cap;
      assert Contents() == old(Contents());
    }

    method Clear()
      requires Valid()
      modifies this`size, this`cur
      ensures Valid() && Contents() == []
    {
      size, cur := 0, 0;
    }
  }

  lemma MarkKeepsOrder(q: seq<Neighbor>, i: nat)
    requires Ordered(q) && i < |q|
    ensures Ordered(q[i := q[i].(expanded := true)])
  {
  }

  lemma ExpandKeepsOrder(q: seq<Neighbor>)
    requires Ordered(q) && FirstUnexpanded(q) < |q|
    ensures Ordered(Expand(q))
  {
    MarkKeepsOrder(q, FirstUnexpanded(q));
  }

  lemma PutKeepsOrder(q: seq<Neighbor>, x: Neighbor, lo: nat, capacity: nat)
    requires Ordered(q) && Splits(q, x, lo) && |q| <= capacity && lo < capacity
    ensures Ordered(Put(q, Unexpanded(x), lo, capacity))
  {
    if |q| < capacity { InsertedOrder(q, x, lo); } else { ShiftedOrder(q, x, lo); }
  }

  /** The cursor moves to the placed entry if that is ahead of it. */
  lemma PutMovesCursor(q: seq<Neighbor>, x: Neighbor, lo: nat, capacity: nat)
    requires lo <= |q| <= capacity && lo < capacity
    ensures FirstUnexpanded(Put(q, Unexpanded(x), lo, capacity)) ==
      if lo < FirstUnexpanded(q) then lo else FirstUnexpanded(q)
  {
    var p := Put(q, Unexpanded(x), lo, capacity);
    var first := FirstUnexpanded(q);
    assert forall k :: 0 <= k < lo ==> p[k] == q[k];
    assert p[lo] == Unexpanded(x);
    FirstUnexpandedIs(p, if lo < first then lo else first);
  }

  lemma OfferAtPlace(q: seq<Neighbor>, x: Neighbor, lo: nat, capacity: nat)
    requires Ordered(q) && Agrees(q, x) && x.id !in Ids(q) && Splits(q, x, lo) && |q| <= capacity && lo < capacity
    ensures Offer(q, x, capacity) == Put(q, Unexpanded(x), lo, capacity)
  {
    var at := OfferCases(q, x, capacity);
    assert at < |q| ==> Less(x, q[at]);
    assert lo < |q| ==> Less(x, q[lo]);
  }

  /** A full queue refuses what is beyond its last entry. */
  lemma OfferBeyondLast(q: seq<Neighbor>, x: Neighbor, capacity: nat)
    requires q != [] && Ordered(q) && Less(q[|q| - 1], x) && Agrees(q, x) && |q| == capacity
    ensures x.id !in Ids(q) && Offer(q, x, capacity) == q
  {
    forall i | 0 <= i < |q| ensures Less(q[i], x) && q[i].id != x.id {
      assert i == |q| - 1 || Less(q[i], q[|q| - 1]);
    }
    var at := OfferCases(q, x, capacity);
    assert at < |q| ==> Less(x, q[at]);
  }

  lemma IdsAfterPut(q: seq<Neighbor>, x: Neighbor, lo: nat)
    requires lo <= |q|
    ensures Elems(Ids(Inserted(q, x, lo))) == Elems(Ids(q)) + {x.id}
  {
    forall y: nat { KeptAfterInsertion(q, x, lo, y); }
  }

  lemma IdsAfterShift(q: seq<Neighbor>, x: Neighbor, lo: nat)
    requires lo < |q| && x.id !in Ids(q) && NoDup(Ids(q))
    ensures q[|q| - 1].id !in Ids(Shifted(q, x, lo))
    ensures Elems(Ids(Shifted(q, x, lo))) == Elems(Ids(q)) + {x.id} - {q[|q| - 1].id}
  {
    var init := q[..|q| - 1];
    assert Shifted(q, x, lo) == Inserted(init, x, lo);
    IdsAfterPut(init, x, lo);
    assert Ids(q) == Ids(init) + [q[|q| - 1].id];
    NoDupSnoc(Ids(init), q[|q| - 1].id);
    assert Ids(q)[|q| - 1] == q[|q| - 1].id;
  }

  /** Which location an offer loses: none, the refused one or the last one. */
  function Leaver(q: seq<Neighbor>, x: Neighbor, capacity: nat): (r: (bool, nat))
    requires 0 < capacity
  {
    if x.id in Ids(q) || |q| != capacity then (false, 0)
    else if Less(q[|q| - 1], x) then (true, x.id)
    else (true, q[|q| - 1].id)
  }

  lemma RefusedLeaves(q: seq<Neighbor>, x: Neighbor, capacity: nat)
    requires 0 < capacity && Ordered(q) && Agrees(q, x) && |q| == capacity && Less(q[|q| - 1], x)
    ensures Offer(q, x, capacity) == q && Leaver(q, x, capacity) == (true, x.id)
  {
    OfferBeyondLast(q, x, capacity);
  }

  lemma HeldStays(q: seq<Neighbor>, x: Neighbor, lo: nat, capacity: nat)
    requires |q| <= capacity && Ordered(q) && Agrees(q, x) && lo < |q| && q[lo].id == x.id
    ensures Offer(q, x, capacity) == q && Leaver(q, x, capacity) == (false, 0)
  {
    PlaceFound(q, x, lo);
    assert Ids(q)[lo] == x.id;
  }

  lemma LastLeaves(q: seq<Neighbor>, x: Neighbor, lo: nat, capacity: nat)
    requires Ordered(q) && Agrees(q, x) && x.id !in Ids(q) && Splits(q, x, lo) && |q| <= capacity && lo < capacity
    requires |q| == capacity ==> !Less(q[|q| - 1], x)
    ensures Offer(q, x, capacity) == Put(q, Unexpanded(x), lo, capacity)
    ensures Leaver(q, x, capacity) == if |q| == capacity then (true, q[|q| - 1].id) else (false, 0)
  {
    OfferAtPlace(q, x, lo, capacity);
  }

  /** The report is exact: what was held and x, less the reported location, is what is held. */
  lemma LeaverIsExact(q: seq<Neighbor>, x: Neighbor, capacity: nat)
    requires Ordered(q) && Agrees(q, x) && NoDup(Ids(q)) && |q| <= capacity && 0 < capacity
    ensures var (rem, id) := Leaver(q, x, capacity);
      var r := Offer(q, x, capacity);
      && (rem ==> id !in Ids(r))
      && Elems(Ids(r)) == Elems(Ids(q)) + {x.id} - if rem then {id} else {}
  {
    var lo := OfferCases(q, x, capacity);
    if x.id in Ids(q) {
      assert Elems(Ids(q)) + {x.id} == Elems(Ids(q));
    } else if |q| < capacity {
      IdsAfterPut(q, Unexpanded(x), lo);
    } else if Less(q[|q| - 1], x) {
      OfferBeyondLast(q, x, capacity);
    } else {
      IdsAfterShift(q, Unexpanded(x), lo);
    }
  }
}
