/** Collecting completed reads. */
module PqWait {
  import opened Arithmetic
  import opened Bytes
  import opened Collections
  import opened PqLayout
  import opened PqBatch

  /** read_vec and pq_vectors: the request, and where its vector lies. */
  datatype Delivery = Delivery(index: nat, buff: nat, offset: int)

  function Deliveries(io: seq<Io>, order: seq<nat>): (r: seq<Delivery>)
    requires Below(order, |io|)
    ensures |r| == |order|
    ensures forall i :: 0 <= i < |order| ==>
      r[i] == Delivery(io[order[i]].index, io[order[i]].buff, io[order[i]].range.offset)
  {
    seq(|order|, i requires 0 <= i < |order| =>
      Delivery(io[order[i]].index, io[order[i]].buff, io[order[i]].range.offset))
  }

  /** What a read of sectors from..to brings; it ends with the file. */
  function Sectors(file: seq<Byte>, r: Range): seq<Byte> {
    var lo := if r.from * SECTOR < |file| then r.from * SECTOR else |file|;
    var hi := if (r.to + 1) * SECTOR < |file| then (r.to + 1) * SECTOR else |file|;
    if lo <= hi then file[lo..hi] else []
  }

  /** The kernel reports reads that are done: at least min of them, at most max, any of the outstanding ones in any
      order. */
  method GetEvents(outstanding: set<nat>, min: nat, max: nat) returns (done: seq<nat>)
    requires min <= max && min <= |outstanding|
    ensures NoDup(done) && min <= |done| <= max && Elems(done) <= outstanding
  {
    var count: nat :| min <= count <= max && count <= |outstanding|;
    done := [];
    var rest := outstanding;
    while |done| < count
      invariant NoDup(done) && |done| <= count && rest <= outstanding && |rest| == |outstanding| - |done|
      invariant Elems(done) <= outstanding && forall x :: x in done ==> x !in rest
    {
      var r := AnyOf(rest);
      NoDupSnoc(done, r);
      rest := rest - {r};
      done := done + [r];
    }
  }

  /** Delivers what earlier calls had no room for, the newest first. */
  method Drain(events0: seq<nat>, max: nat) returns (order: seq<nat>, events: seq<nat>)
    requires NoDup(events0)
    ensures NoDup(order) && NoDup(events) && |order| <= max
    ensures forall x :: x in events0 <==> x in order || x in events
    ensures forall x :: x in order ==> x !in events
    ensures events == [] || |order| == max
  {
    order, events := [], events0;
    while events != [] && |order| < max
      invariant NoDup(order) && NoDup(events) && |order| <= max
      invariant forall x :: x in events0 <==> x in order || x in events
      invariant forall x :: x in order ==> x !in events
      decreases |events|
    {
      var last := events[|events| - 1];
      assert events == events[..|events| - 1] + [last];
      NoDupSnoc(events[..|events| - 1], last);
      NoDupSnoc(order, last);
      order := order + [last];
      events := events[..|events| - 1];
    }
  }

  /** What fits of xs is delivered, the rest is kept for later. */
  ghost predicate Spilled(order0: seq<nat>, events0: seq<nat>, xs: seq<nat>, max: nat, order: seq<nat>,
                          events: seq<nat>) {
    && |order0| <= max
    && var fit := Min(|xs|, max - |order0|);
       order == order0 + xs[..fit] && events == events0 + xs[fit..]
  }

  lemma SpillMore(order0: seq<nat>, events0: seq<nat>, xs: seq<nat>, ys: seq<nat>, max: nat,
                  order1: seq<nat>, events1: seq<nat>, order: seq<nat>, events: seq<nat>)
    requires Spilled(order0, events0, xs, max, order1, events1) && Spilled(order1, events1, ys, max, order, events)
    ensures Spilled(order0, events0, xs + ys, max, order, events)
  {
    var fit := Min(|xs|, max - |order0|);
    var zs := xs + ys;
    if fit == |xs| {
      assert zs[..Min(|zs|, max - |order0|)] == xs + ys[..Min(|ys|, max - |order1|)];
      assert zs[Min(|zs|, max - |order0|)..] == ys[Min(|ys|, max - |order1|)..];
    } else {
      assert ys[..0] == [] && ys[0..] == ys;
      assert zs[..fit] == xs[..fit] && zs[fit..] == xs[fit..] + ys;
    }
  }

  /** One request of a completed read. */
  method DeliverOne(i: nat, order0: seq<nat>, events0: seq<nat>, max: nat) returns (order: seq<nat>, events: seq<nat>)
    requires |order0| <= max
    ensures Spilled(order0, events0, [i], max, order, events)
  {
    order, events := order0, events0;
    if |order| < max {
      order := order + [i];
    } else {
      events := events + [i];
    }
  }

  lemma TailStep(io: seq<Io>, i: nat, seen: seq<nat>)
    requires Linked(io) && i < |io| && !io[i].root
    ensures LinkOk(io, i) && seen + Tail(io, i) == seen + [i] + Tail(io, io[i].hooked)
  {
    assert LinkOk(io, i);
  }

  /** Follows the links from a completed read. */
  method FollowChain(io: seq<Io>, r: nat, order0: seq<nat>, events0: seq<nat>, max: nat)
    returns (order: seq<nat>, events: seq<nat>)
    requires Linked(io) && r < |io| && |order0| <= max
    ensures Spilled(order0, events0, Chain(io, r), max, order, events)
  {
    order, events := DeliverOne(r, order0, events0, max);
    assert LinkOk(io, r);
    var i := io[r].hooked;
    ghost var seen: seq<nat> := [r];
    while i != -1
      invariant -1 <= i < |io| && (i >= 0 ==> !io[i].root)
      invariant Spilled(order0, events0, seen, max, order, events)
      invariant Chain(io, r) == seen + Tail(io, i)
      decreases i
    {
      assert LinkOk(io, i);
      ghost var was, wasEvents := order, events;
      order, events := DeliverOne(i, order, events, max);
      SpillMore(order0, events0, seen, [i], max, was, wasEvents, order, events);
      TailStep(io, i, seen);
      seen := seen + [i];
      i := io[i].hooked;
    }
  }

  /** The chains of completed reads, one after the other. */
  ghost function Chains(io: seq<Io>, done: seq<nat>): seq<nat>
    requires Linked(io) && Below(done, |io|)
  {
    if done == [] then [] else Chains(io, done[..|done| - 1]) + Chain(io, done[|done| - 1])
  }

  /** They deliver for exactly the requests of these reads, each once. */
  lemma {:induction false} ChainsCover(io: seq<Io>, owner: seq<nat>, done: seq<nat>)
    requires Hooked(io, owner) && Below(done, |io|) && NoDup(done)
    requires forall i :: 0 <= i < |done| ==> io[done[i]].root
    ensures NoDup(Chains(io, done)) && |done| <= |Chains(io, done)|
    ensures forall x: nat :: x in Chains(io, done) <==> x < |io| && !io[x].hit && owner[x] in done
  {
    if done != [] {
      var init, last := done[..|done| - 1], done[|done| - 1];
      assert done == init + [last];
      NoDupSnoc(init, last);
      ChainsCover(io, owner, init);
      assert ChainIs(io, owner, last);
      NoDupConcat(Chains(io, init), Chain(io, last));
    }
  }

  lemma NoDupConcat<T>(a: seq<T>, b: seq<T>)
    requires NoDup(a) && NoDup(b) && forall x :: x in a ==> x !in b
    ensures NoDup(a + b)
  {
    forall i, j | 0 <= i < j < |a + b| ensures (a + b)[i] != (a + b)[j] {
      if i < |a| <= j { assert a[i] in a && b[j - |a|] in b; }
    }
  }

  /** The completed reads, in the order reported. */
  method FollowAll(io: seq<Io>, done: seq<nat>, order0: seq<nat>, max: nat) returns (order: seq<nat>, events: seq<nat>)
    requires Linked(io) && Below(done, |io|) && |order0| <= max
    ensures Spilled(order0, [], Chains(io, done), max, order, events)
  {
    order, events := order0, [];
    for k := 0 to |done|
      invariant Spilled(order0, [], Chains(io, done[..k]), max, order, events)
    {
      assert done[..k + 1][..k] == done[..k];
      ghost var was, wasEvents := order, events;
      order, events := FollowChain(io, done[k], order, events, max);
      SpillMore(order0, [], Chains(io, done[..k]), Chain(io, done[k]), max, was, wasEvents, order, events);
    }
    assert done[..|done|] == done;
  }

  /** Every buffer holds at most so many sectors. */
  ghost predicate HeldIn(memory: seq<seq<Byte>>, capacity: nat) {
    forall b {:trigger memory[b]} :: 0 <= b < |memory| ==> |memory[b]| <= capacity * SECTOR
  }

  /** The completed reads have filled their buffers, and no more than these. */
  method FillBuffers(file: seq<Byte>, io: seq<Io>, done: seq<nat>, memory0: seq<seq<Byte>>, ghost capacity: nat)
    returns (memory: seq<seq<Byte>>)
    requires Below(done, |io|) && forall i :: 0 <= i < |done| ==> io[done[i]].buff < |memory0|
    requires forall i, j :: 0 <= i < j < |done| ==> io[done[i]].buff != io[done[j]].buff
    requires HeldIn(memory0, capacity)
    requires forall i :: 0 <= i < |done| ==> io[done[i]].range.to - io[done[i]].range.from + 1 <= capacity
    ensures |memory| == |memory0| && HeldIn(memory, capacity)
    ensures forall i :: 0 <= i < |done| ==> memory[io[done[i]].buff] == Sectors(file, io[done[i]].range)
    ensures forall b :: 0 <= b < |memory| && (forall i :: 0 <= i < |done| ==> io[done[i]].buff != b) ==>
      memory[b] == memory0[b]
  {
    memory := memory0;
    for k := 0 to |done|
      invariant |memory| == |memory0| && HeldIn(memory, capacity)
      invariant forall i :: 0 <= i < k ==> memory[io[done[i]].buff] == Sectors(file, io[done[i]].range)
      invariant forall b :: 0 <= b < |memory| && (forall i :: 0 <= i < k ==> io[done[i]].buff != b) ==>
        memory[b] == memory0[b]
    {
      SectorsFit(file, io[done[k]].range, capacity);
      memory := memory[io[done[k]].buff := Sectors(file, io[done[k]].range)];
    }
  }

  lemma SectorsFit(file: seq<Byte>, r: Range, capacity: nat)
    requires r.to - r.from + 1 <= capacity
    ensures |Sectors(file, r)| <= capacity * SECTOR
  {
  }
}
