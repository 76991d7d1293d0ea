/** The reader context of the aio engine and its calls: submit, wait, done. */
module PqReaderAio {
  import opened Arithmetic
  import opened Bytes
  import opened Collections
  import opened PqPool
  import opened PqBatch
  import opened PqSubmit
  import opened PqWait
  import opened PqReader
  import opened PageRecency

  lemma DoneAreRoots(c: Context, done: seq<nat>)
    requires c.Valid() && NoDup(done) && Elems(done) <= c.inFlight
    ensures Below(done, |c.io|) && forall i :: 0 <= i < |done| ==> c.io[done[i]].root && c.io[done[i]].buff < |c.memory|
    ensures forall i :: 0 <= i < |done| ==> c.io[done[i]].range.to - c.io[done[i]].range.from + 1 <= c.at.capacity
    ensures forall i, j :: 0 <= i < j < |done| ==> c.io[done[i]].buff != c.io[done[j]].buff
  {
    assert forall i :: 0 <= i < |done| ==> done[i] in Elems(done);
    forall i | 0 <= i < |done| ensures c.io[done[i]].buff < |c.memory| { RootsApart(c, done[i], done[i]); }
    forall i | 0 <= i < |done| ensures c.io[done[i]].range.to - c.io[done[i]].range.from + 1 <= c.at.capacity {
      EntryFits(c, done[i]);
    }
    forall i, j | 0 <= i < j < |done|
      ensures c.io[done[i]].buff != c.io[done[j]].buff { RootsApart(c, done[i], done[j]); }
  }

  lemma EntryFits(c: Context, x: nat)
    requires c.Valid() && x < |c.io|
    ensures c.io[x].range.to - c.io[x].range.from + 1 <= c.at.capacity
  {
    assert c.io[x].range == c.at.params(c.ids[x]) && c.ids[x] < c.at.numVectors;
  }

  lemma Joined(a: seq<nat>, b: seq<nat>)
    requires NoDup(a) && NoDup(b) && Elems(a) !! Elems(b)
    ensures NoDup(a + b) && Elems(a + b) == Elems(a) + Elems(b)
  {
    forall x | x in a ensures x !in b { assert x in Elems(a); }
    NoDupConcat(a, b);
  }

  lemma FreshContextValid(c: Context)
    requires c.at.Sound() && (c.useCache ==> c.at.paged) && |c.memory| == c.buffers && HeldIn(c.memory, c.at.capacity)
    requires c == Context(c.at, c.file, c.buffers, c.useCache, Pool(Firsts(c.buffers), [], map[]), c.memory, [], [], {},
                          [], [], [], {}, false)
    ensures c.Valid()
  {
  }

  // ------------------------------------------------------------------ the calls, on values

  /** What is read: the requests that are neither hits nor covered by another read, in their order; with pages, no page
      twice. */
  ghost predicate ReadsNeeded(at: Addressing, wanted: seq<nat>, io: seq<Io>, issued: seq<nat>) {
    && Ascending(issued) && (forall x: nat :: x in issued <==> x < |io| && io[x].root) && |io| == |wanted|
    && (forall i {:trigger io[i]} :: 0 <= i < |io| ==>
        io[i].range == at.params(wanted[i]) && (io[i].hit ==> !io[i].root))
    && (forall i {:trigger io[i]} :: 0 <= i < |io| && !io[i].hit ==> IsRead(at.params(wanted[i]), io, issued))
    && (at.paged ==> forall i, j :: 0 <= i < j < |io| && io[i].root && io[j].root ==>
        io[i].range.from != io[j].range.from)
  }

  lemma PreparedReads(c: Context, b: Batch, events: seq<nat>, pool: Pool, io: seq<Io>, issued: seq<nat>,
                      owner: seq<nat>, sectors: map<nat, nat>)
    requires JustPrepared(c, b, events, pool, io, issued, owner, sectors)
    ensures ReadsNeeded(c.at, b.ids, io, issued)
    ensures forall i :: 0 <= i < |io| ==>
      (io[i].hit <==> c.useCache && c.at.PageOf(c.at.params(b.ids[i])) in c.pool.cached)
    ensures NoDup(issued) && Ascending(events) && forall x: nat :: x in events <==> x < |io| && io[x].hit
  {
    ReadsBelow(io, issued);
    forall i | 0 <= i < |io|
      ensures io[i].range == c.at.params(b.ids[i]) && (io[i].hit ==> !io[i].root)
      ensures io[i].hit || IsRead(c.at.params(b.ids[i]), io, issued)
      ensures io[i].hit <==> c.useCache && c.at.PageOf(c.at.params(b.ids[i])) in c.pool.cached
      ensures io[i].hit <==> b.marked[i].hit
    {
      SubmittedEntries(c, b, events, pool, io, issued, owner, sectors, i);
      MissesRead(c, b, events, pool, io, issued, owner, sectors, i);
      assert SameRequest(b.marked[i], io[i]);
    }
    if c.at.paged {
      forall i, j | 0 <= i < j < |io| && io[i].root && io[j].root ensures io[i].range.from != io[j].range.from {
        ReadsApart(c.at, b.marked, io, owner, sectors, issued, i, j);
      }
    }
  }

  /** A batch that was accepted: its hits and reads, and the page list. */
  ghost predicate Planned(at: Addressing, wanted: seq<nat>, useCache: bool, was: Pool, pool: Pool, io: seq<Io>,
                          issued: seq<nat>, events: seq<nat>, before: seq<nat>, uses: seq<nat>) {
    && ReadsNeeded(at, wanted, io, issued)
    && (forall i {:trigger io[i]} :: 0 <= i < |io| ==>
        (io[i].hit <==> useCache && at.PageOf(at.params(wanted[i])) in was.cached))
    && Ascending(events) && (forall x: nat :: x in events <==> x < |io| && io[x].hit)
    && PagesUsed(at, wanted, events, before, uses) && CacheInOrder(was, pool, before, uses)
  }

  /** Both loops of read_pq_vectors_submit. */
  method PrepareBatch(ghost c: Context, at: Addressing, wanted: seq<nat>, pool0: Pool, useCache: bool,
                      ghost before: seq<nat>)
    returns (pool: Pool, io: seq<Io>, issued: seq<nat>, events: seq<nat>, ghost owner: seq<nat>, ghost uses: seq<nat>)
    requires c.Valid() && !c.active && at == c.at && pool0 == c.pool && useCache == c.useCache && |wanted| <= c.buffers
    requires forall i :: 0 <= i < |wanted| ==> wanted[i] < at.numVectors
    requires ByUse(PageIds(pool0.lru), before)
    ensures Submitted(c, wanted, pool, io, issued, events, owner).Valid()
    ensures |Elems(issued)| == |issued| && Planned(at, wanted, useCache, pool0, pool, io, issued, events, before, uses)
  {
    var marked, touched;
    ghost var pinned, sectors;
    marked, events, touched, pinned, uses := MarkHits(at, wanted, pool0, useCache, before);
    ghost var b := Batch(at, useCache, wanted, pool0.cached, marked, touched, c.buffers, pinned);
    BatchReady(c, b, events);
    io, pool, issued, owner, sectors := PrepareReads(marked, touched, useCache, b);
    SubmittedValid(c, b, events, pool, io, issued, owner, sectors);
    PreparedReads(c, b, events, pool, io, issued, owner, sectors);
    PreparedOrder(pool0, touched, pool, before, uses);
    ElemsSize(issued);
  }

  /** The part of read_pq_vectors_wait_completion that asks the kernel. */
  method CompleteReads(ghost c: Context, file: seq<Byte>, io: seq<Io>, inFlight: set<nat>, memory0: seq<seq<Byte>>,
                       order0: seq<nat>, min: nat, max: nat)
    returns (done: seq<nat>, memory: seq<seq<Byte>>, fit: seq<nat>, rest: seq<nat>)
    requires c.Valid() && c.active && c.events == [] && c.file == file && c.io == io && c.inFlight == inFlight
      && c.memory == memory0
    requires |order0| + min <= max && min <= |inFlight|
    ensures Completed(c, done, memory, fit, rest).Valid()
    ensures NoDup(fit) && |order0| + |fit| <= max && Below(fit, |io|) && Elems(fit) !! c.delivered
    ensures |order0| + |fit| == max || (rest == [] && min <= |fit|)
    ensures Elems(done) <= inFlight && |inFlight - Elems(done)| == |inFlight| - |done|
    ensures min == |inFlight| ==> inFlight - Elems(done) == {}
  {
    done := GetEvents(inFlight, min, max - |order0|);
    DoneAreRoots(c, done);
    memory := FillBuffers(file, io, done, memory0, c.at.capacity);
    var order;
    order, rest := FollowAll(io, done, order0, max);
    fit := order[|order0|..];
    assert fit + rest == Chains(io, done);
    CompletedValid(c, done, memory, fit, rest);
    CompletedEvents(c, done, memory, fit, rest);
    BroughtOnce(c, done, fit, rest);
    ElemsSize(done);
    SubsetSize(Elems(done), inFlight);
  }

  ghost predicate RootsCached(at: Addressing, io: seq<Io>, n: nat, pool: Pool) {
    n <= |io| && forall i {:trigger io[i]} :: 0 <= i < n && io[i].root ==> at.PageOf(io[i].range) in pool.cached
  }

  lemma OneMoreCached(at: Addressing, io: seq<Io>, i: nat, was: Pool, now: Pool)
    requires i < |io| && RootsCached(at, io, i, was) && was.cached.Keys <= now.cached.Keys
    requires io[i].root ==> at.PageOf(io[i].range) in now.cached
    ensures RootsCached(at, io, i + 1, now)
  {
    forall j | 0 <= j < i + 1 && io[j].root ensures at.PageOf(io[j].range) in now.cached {
      if j < i { assert at.PageOf(io[j].range) in was.cached.Keys; }
    }
  }

  method PutBackOne(ghost c: Context, at: Addressing, useCache: bool, e: Io, pool0: Pool, ghost k: nat)
    returns (pool: Pool)
    requires c.Valid() && c.inFlight == {} && c.at == at && c.useCache == useCache && PutAway(c, k, pool0)
    requires k < |c.issued| && c.io[c.issued[k]] == e && (useCache ==> PutInOrder(c, k, pool0))
    ensures PutAway(c, k + 1, pool) && (useCache ==> PutInOrder(c, k + 1, pool))
    ensures useCache ==> at.PageOf(e.range) in pool.cached && pool0.cached.Keys <= pool.cached.Keys
  {
    PutOneMore(c, k, pool0);
    if useCache { NextInOrder(c, k, pool0); }
    pool := PutOne(at, useCache, e, pool0);
  }

  /** Entry i: a root's buffer goes back, other entries hold none of their own. */
  method PutBackEntry(ghost c: Context, at: Addressing, useCache: bool, io: seq<Io>, i: nat, pool0: Pool, ghost k0: nat)
    returns (pool: Pool, ghost k: nat)
    requires c.Valid() && c.inFlight == {} && c.at == at && c.useCache == useCache && c.io == io && i < |io|
    requires PutAway(c, k0, pool0) && RootsBelow(c, i, k0) && (useCache ==> RootsCached(at, io, i, pool0))
    requires useCache ==> PutInOrder(c, k0, pool0)
    ensures PutAway(c, k, pool) && RootsBelow(c, i + 1, k) && (useCache ==> RootsCached(at, io, i + 1, pool))
    ensures useCache ==> PutInOrder(c, k, pool)
  {
    NextRoot(c, i, k0);
    pool, k := pool0, k0;
    if io[i].root {
      pool := PutBackOne(c, at, useCache, io[i], pool, k);
      k := k + 1;
    }
    if useCache { OneMoreCached(at, io, i, pool0, pool); }
  }

  /** The loop of read_pq_vectors_done. */
  method PutBack(ghost c: Context, at: Addressing, useCache: bool, io: seq<Io>, pool0: Pool) returns (pool: Pool)
    requires c.Valid() && c.inFlight == {} && c.at == at && c.useCache == useCache && c.io == io && c.pool == pool0
    ensures PutAway(c, |c.issued|, pool)
    ensures useCache ==> RootsCached(at, io, |io|, pool) && PutInOrder(c, |c.issued|, pool)
  {
    pool := pool0;
    ghost var k := 0;
    NothingPutAway(c);
    for i := 0 to |io|
      invariant PutAway(c, k, pool) && RootsBelow(c, i, k) && (useCache ==> RootsCached(at, io, i, pool))
      invariant useCache ==> PutInOrder(c, k, pool)
    {
      pool, k := PutBackEntry(c, at, useCache, io, i, pool, k);
    }
    RootsDone(c, k);
  }

  lemma NothingPutAway(c: Context)
    requires c.Valid()
    ensures PutAway(c, 0, c.pool) && RootsBelow(c, 0, 0) && PutInOrder(c, 0, c.pool)
  {
    assert Lent(c.io, c.issued)[0..] == Lent(c.io, c.issued);
  }

  /** The first k reads are those below i. */
  ghost predicate RootsBelow(c: Context, i: nat, k: nat) {
    k <= |c.issued| && (forall j :: 0 <= j < k ==> c.issued[j] < i)
      && forall j :: k <= j < |c.issued| ==> i <= c.issued[j]
  }

  lemma NextRoot(c: Context, i: nat, k: nat)
    requires c.RequestsOk() && RootsBelow(c, i, k) && i < |c.io|
    ensures c.io[i].root ==> k < |c.issued| && c.issued[k] == i && RootsBelow(c, i + 1, k + 1)
    ensures !c.io[i].root ==> RootsBelow(c, i + 1, k)
  {
    if c.io[i].root {
      assert i in c.issued;
      var j :| 0 <= j < |c.issued| && c.issued[j] == i;
      assert forall l :: k < l < |c.issued| ==> c.issued[k] < c.issued[l];
    } else {
      assert forall j :: 0 <= j < |c.issued| ==> c.issued[j] in c.issued;
    }
  }

  lemma RootsDone(c: Context, k: nat)
    requires c.RequestsOk() && RootsBelow(c, |c.io|, k)
    ensures k == |c.issued|
  {
    if k < |c.issued| {
      LastRead(c, k);
      assert false;
    }
  }

  lemma LastRead(c: Context, j: nat)
    requires c.RequestsOk() && j < |c.issued|
    ensures c.issued[j] < |c.io|
  {
  }

  /** What a batch was asked for, who reads for whom, and what has been handed out. */
  datatype Log = Log(ids: seq<nat>, owner: seq<nat>, delivered: set<nat>, active: bool)

  class ReaderContext {
    const at: Addressing
    const file: seq<Byte>
    const maxIos: nat
    const cacheBytes: nat
    /** The pages the cache has extra buffers for. */
    const cachePages: nat

    var pool: Pool
    var memory: seq<seq<Byte>>
    var io: seq<Io>
    var issued: seq<nat>
    var pending: nat
    var events: seq<nat>
    /** The reads the kernel is working on. */
    var inFlight: set<nat>
    ghost var log: Log
    /** Every hit and every read so far, by its page. */
    ghost var uses: seq<nat>

    /** max_ios buffers, and as many more as the cache holds pages. */
    ghost function NumBuffers(): nat {
      maxIos + cachePages
    }

    ghost function View(): Context
      reads this
    {
      Context(at, file, NumBuffers(), cacheBytes > 0, pool, memory, io, issued, inFlight, events, log.ids, log.owner,
              log.delivered, log.active)
    }

    ghost predicate Valid()
      reads this
    {
      View().Valid() && pending == |inFlight| && Holds(at, file)
    }

    /** The page list is ordered by the last uses. */
    ghost predicate Recorded()
      reads this
    {
      ByUse(PageIds(pool.lru), uses)
    }

    /** create_context; the cache is refused for flat files. */
    constructor (at: Addressing, pageSize: nat, file: seq<Byte>, maxIos: nat, cacheBytes: nat)
      requires at.Sound() && Holds(at, file) && (at.paged ==> 0 < pageSize)
      ensures Valid() && Recorded() && !log.active && this.at == at && this.file == file && this.maxIos == maxIos
      ensures this.cacheBytes == (if at.paged then cacheBytes else 0)
      ensures cachePages == (if at.paged then cacheBytes / pageSize else 0)
      ensures |pool.free| == NumBuffers() && pool.lru == []
    {
      this.at, this.file, this.maxIos := at, file, maxIos;
      var cache := if at.paged then cacheBytes else 0;
      var pages := if cache > 0 then cache / pageSize else 0;
      this.cacheBytes, cachePages := cache, pages;
      pool := Pool(Firsts(maxIos + pages), [], map[]);
      memory := seq(maxIos + pages, i => []);
      io, issued, pending, events, inFlight := [], [], 0, [], {};
      log, uses := Log([], [], {}, false), [];
      new;
      FreshContextValid(View());
    }

    method PrepareNext(wanted: seq<nat>)
      returns (rest: Pool, entries: seq<Io>, roots: seq<nat>, hits: seq<nat>, ghost owners: seq<nat>,
               ghost latest: seq<nat>)
      requires Valid() && Recorded() && !log.active && |wanted| <= maxIos &&
        forall i :: 0 <= i < |wanted| ==> wanted[i] < at.numVectors
      ensures Submitted(View(), wanted, rest, entries, roots, hits, owners).Valid()
      ensures |Elems(roots)| == |roots|
      ensures Planned(at, wanted, cacheBytes > 0, pool, rest, entries, roots, hits, uses, latest)
    {
      rest, entries, roots, hits, owners, latest := PrepareBatch(View(), at, wanted, pool, cacheBytes > 0, uses);
    }

    method Accept(wanted: seq<nat>, rest: Pool, entries: seq<Io>, roots: seq<nat>, hits: seq<nat>,
                  ghost owners: seq<nat>, ghost latest: seq<nat>)
      requires Holds(at, file) && Submitted(View(), wanted, rest, entries, roots, hits, owners).Valid()
        && |Elems(roots)| == |roots|
      modifies this
      ensures Valid() && log == Log(wanted, owners, {}, true) && pending == |issued| && inFlight == Elems(issued)
      ensures pool == rest && io == entries && issued == roots && events == hits && uses == latest
    {
      ghost var c := View();
      pool, io, issued, events := rest, entries, roots, hits;
      inFlight, pending, uses := Elems(roots), |roots|, latest;
      log := Log(wanted, owners, {}, true);
      assert View() == Submitted(c, wanted, rest, entries, roots, hits, owners);
    }

    /** The batch is accepted. */
    method SubmitBatch(wanted: seq<nat>)
      requires Valid() && Recorded() && !log.active && |wanted| <= maxIos &&
        forall i :: 0 <= i < |wanted| ==> wanted[i] < at.numVectors
      modifies this
      ensures Valid() && log.active && log.ids == wanted && log.delivered == {} && pending == |issued|
        && Elems(issued) == inFlight
      ensures Planned(at, wanted, cacheBytes > 0, old(pool), pool, io, issued, events, old(uses), uses)
    {
      var rest, entries, roots, hits;
      ghost var owners, latest;
      rest, entries, roots, hits, owners, latest := PrepareNext(wanted);
      Accept(wanted, rest, entries, roots, hits, owners, latest);
    }

    /** read_pq_vectors_submit. It refuses more ids than max_ios; otherwise every request is a hit, read, or hooked, and
        a buffer is found for every read. */
    method Submit(wanted: seq<nat>) returns (ok: bool, ioCount: nat)
      requires Valid() && Recorded() && !log.active && forall i :: 0 <= i < |wanted| ==> wanted[i] < at.numVectors
      modifies this
      ensures Valid() && Recorded() && (ok <==> |wanted| <= maxIos)
      ensures !ok ==> View() == old(View()) && uses == old(uses)
      ensures ok ==>
        log.active && log.ids == wanted && log.delivered == {} && ioCount == pending == |issued|
        && Elems(issued) == inFlight
      ensures ok ==> ReadsNeeded(at, wanted, io, issued) && forall i :: 0 <= i < |wanted| ==>
        (io[i].hit <==> cacheBytes > 0 && at.PageOf(at.params(wanted[i])) in old(pool).cached)
      ensures ok ==> Ascending(events) && forall x: nat :: x in events <==> x < |io| && io[x].hit
      ensures ok ==> PagesUsed(at, wanted, events, old(uses), uses) && CacheInOrder(old(pool), pool, old(uses), uses)
    {
      ok, ioCount := |wanted| <= maxIos, 0;
      if ok {
        SubmitBatch(wanted);
        ioCount := pending;
      }
    }

    /** The delivery is for request x, and points at the bytes stored for its id. */
    ghost predicate RightDelivery(d: Delivery, x: nat)
      reads this
    {
      && x < |log.ids| && d.index == x && d.buff < |memory| && 0 <= d.offset
        && d.offset + at.vectorSize <= |memory[d.buff]|
      && memory[d.buff][d.offset..d.offset + at.vectorSize] == at.stored(log.ids[x])
    }

    lemma DeliveredAreRight(order: seq<nat>)
      requires Valid() && log.active && Below(order, |io|) && Elems(order) <= log.delivered
      ensures forall i :: 0 <= i < |order| ==> RightDelivery(Deliveries(io, order)[i], order[i])
    {
      forall i | 0 <= i < |order| ensures RightDelivery(Deliveries(io, order)[i], order[i]) {
        assert order[i] in Elems(order);
        ArrivedIsRight(View(), order[i]);
      }
    }

    /** Events left over from earlier calls. */
    method TakeWaiting(max: nat) returns (order: seq<nat>)
      requires Valid() && log.active
      modifies this`events, this`log
      ensures Valid() && NoDup(order) && |order| <= max && Below(order, |io|)
      ensures Elems(order) !! old(log).delivered && log == old(log).(delivered := old(log).delivered + Elems(order))
      ensures events == [] || |order| == max
    {
      ghost var c := View();
      var rest;
      order, rest := Drain(events, max);
      DrainKeepsValid(c, order, rest);
      events, log := rest, log.(delivered := log.delivered + Elems(order));
      assert View() == Drained(c, order, rest);
    }

    /** The kernel is asked for completed reads: never for more than are outstanding. */
    method Collect(order0: seq<nat>, min: nat, max: nat) returns (fit: seq<nat>)
      requires Valid() && log.active && events == [] && |order0| + min <= max && min <= pending
      modifies this`memory, this`events, this`inFlight, this`pending, this`log
      ensures Valid() && NoDup(fit) && |order0| + |fit| <= max && Below(fit, |io|)
      ensures Elems(fit) !! old(log).delivered && log == old(log).(delivered := old(log).delivered + Elems(fit))
      ensures |order0| + |fit| == max || (events == [] && min <= |fit|)
      ensures min == old(pending) ==> inFlight == {}
    {
      ghost var c := View();
      var done, filled, rest;
      done, filled, fit, rest := CompleteReads(c, file, io, inFlight, memory, order0, min, max);
      memory, events, pending := filled, rest, pending - |done|;
      inFlight := inFlight - Elems(done);
      log := log.(delivered := log.delivered + Elems(fit));
      assert Valid() by { assert View() == Completed(c, done, filled, fit, rest); }
    }

    method CollectMore(taken: seq<nat>, nrEvents: nat, maxEvents: nat) returns (fit: seq<nat>)
      requires Valid() && log.active && |taken| < nrEvents && |taken| <= maxEvents
        && (events == [] || |taken| == maxEvents)
      modifies this`memory, this`events, this`inFlight, this`pending, this`log
      ensures Valid() && |taken| + |fit| <= maxEvents && Below(fit, |io|) && NoDup(fit)
      ensures log == old(log).(delivered := old(log).delivered + Elems(fit)) && Elems(fit) !! old(log).delivered
      ensures |taken| + |fit| >= nrEvents || |taken| + |fit| == maxEvents || (events == [] && inFlight == {})
    {
      var room := maxEvents - |taken|;
      if room > 0 && pending > 0 {
        fit := Collect(taken, Min(Min(nrEvents, room), pending), maxEvents);
      } else {
        fit := [];
        assert log == old(log).(delivered := old(log).delivered + Elems(fit));
      }
    }

    /** Which requests a call delivers. */
    method WaitIndices(nrEvents: nat, maxEvents: nat) returns (order: seq<nat>)
      requires Valid() && log.active
      modifies this`memory, this`events, this`inFlight, this`pending, this`log
      ensures Valid() && |order| <= maxEvents && Below(order, |io|)
      ensures NoDup(order) && Elems(order) !! old(log).delivered
        && log == old(log).(delivered := old(log).delivered + Elems(order))
      ensures |order| >= nrEvents || |order| == maxEvents || (events == [] && inFlight == {})
    {
      order := TakeWaiting(maxEvents);
      if |order| < nrEvents {
        var fit := CollectMore(order, nrEvents, maxEvents);
        Joined(order, fit);
        order := order + fit;
      }
    }

    /** read_pq_vectors_wait_completion: no request is delivered twice, every delivery points at the right bytes, and
        fewer than asked for come only if the caller has no room or everything has been delivered. */
    method WaitCompletion(nrEvents: nat, maxEvents: nat) returns (out: seq<Delivery>, ghost order: seq<nat>)
      requires Valid() && log.active
      modifies this`memory, this`events, this`inFlight, this`pending, this`log
      ensures Valid() && |out| == |order| <= maxEvents && Below(order, |io|)
      ensures NoDup(order) && Elems(order) !! old(log).delivered
        && log == old(log).(delivered := old(log).delivered + Elems(order))
      ensures |out| >= nrEvents || |out| == maxEvents || |log.delivered| == |log.ids|
      ensures forall i :: 0 <= i < |out| ==> RightDelivery(out[i], order[i])
    {
      var indices := WaitIndices(nrEvents, maxEvents);
      if events == [] && inFlight == {} { AllDelivered(View()); }
      DeliveredAreRight(indices);
      order := indices;
      out := Deliveries(io, indices);
    }

    method FinishBatch()
      requires Valid() && Recorded() && log.active && pending == 0
      modifies this
      ensures Valid() && !log.active && HeldOnce(pool, [], NumBuffers())
      ensures cacheBytes > 0 ==> PutInOrder(old(View()), |old(issued)|, pool)
      ensures ByUse(PageIds(pool.lru), uses) && PagesUsed(at, old(log).ids, old(issued), old(uses), uses)
      ensures cacheBytes > 0 ==> RootsCached(at, old(io), |old(io)|, pool)
    {
      ghost var c := View();
      var rest := PutBack(c, at, cacheBytes > 0, io, pool);
      IdleValid(c, rest);
      ReadsUsed(c, rest, uses);
      ReadsNamed(c, uses);
      uses := uses + ReadPages(at, io, issued);
      pool, io, issued := rest, [], [];
      log := Log([], [], {}, false);
      assert View() == Idle(c, rest);
    }

    /** read_pq_vectors_done: the list is as the hits left it, and behind it the pages read, in the order of the
        reads. */
    method Done()
      requires Valid() && Recorded() && log.active && pending == 0
      modifies this
      ensures Valid() && Recorded() && !log.active
      ensures HeldOnce(pool, [], NumBuffers())
      ensures cacheBytes > 0 ==>
        |pool.lru| == |old(pool).lru| + |old(issued)| && pool.lru[..|old(pool).lru|] == old(pool).lru
        && forall k :: 0 <= k < |old(issued)| ==>
          old(issued)[k] < |old(io)| && pool.lru[|old(pool).lru| + k] ==
            Page(at.PageOf(old(io)[old(issued)[k]].range), old(io)[old(issued)[k]].buff)
      ensures PagesUsed(at, old(log).ids, old(issued), old(uses), uses)
      ensures forall i :: 0 <= i < |old(io)| && old(io)[i].root && cacheBytes > 0 ==>
        at.PageOf(old(io)[i].range) in pool.cached
    {
      FinishBatch();
    }

    /** clear_page_cache, between batches. */
    method ClearPageCache()
      requires Valid() && !log.active
      modifies this`pool
      ensures Valid() && Recorded() && pool.lru == [] && pool.cached == map[] && |pool.free| == NumBuffers()
    {
      var cleared := Clear(pool);
      assert Lent(io, issued) == [];
      HeldCount(pool, [], NumBuffers());
      pool := cleared;
      HeldCount(pool, [], NumBuffers());
      NothingCached(uses);
    }
  }
}
