/** The asynchronous PQ vector reader: batches are submitted, completed in any order, and put away. */
module PqReader {
  import opened Bytes
  import opened Collections
  import opened PqLayout
  import opened PqPool
  import opened PqBatch
  import opened PageRecency
  import opened PqSubmit
  import opened PqWait

  /** Any read that covers the sectors of a vector brings its bytes, at the offset. */
  ghost predicate Holds(at: Addressing, file: seq<Byte>) {
    forall id: nat, r: Range {:trigger at.params(id), Sectors(file, r)} ::
      id < at.numVectors && r.from == at.params(id).from && at.params(id).to <= r.to ==> Found(at, Sectors(file, r), id)
  }

  ghost predicate Found(at: Addressing, content: seq<Byte>, id: nat) {
    var o := at.params(id).offset;
    0 <= o && o + at.vectorSize <= |content| && content[o..o + at.vectorSize] == at.stored(id)
  }

  /** The entries are those of the requests. */
  ghost predicate Requested(at: Addressing, ids: seq<nat>, io: seq<Io>) {
    |ids| == |io| && forall i {:trigger io[i]} :: 0 <= i < |io| ==>
      ids[i] < at.numVectors && io[i].range == at.params(ids[i]) && io[i].index == i
  }

  /** Everything a reader context holds, and the requests, owners and deliveries of the batch it is working on. */
  datatype Context = Context(
    at: Addressing, file: seq<Byte>, buffers: nat, useCache: bool,
    pool: Pool, memory: seq<seq<Byte>>, io: seq<Io>, issued: seq<nat>, inFlight: set<nat>, events: seq<nat>,
    ids: seq<nat>, owner: seq<nat>, delivered: set<nat>, active: bool)
  {
    ghost predicate Valid() {
      && at.Sound() && (useCache ==> at.paged) && |memory| == buffers && HeldIn(memory, at.capacity)
      && RequestsOk() && BuffersOk() && PagesOk() && HitsOk() && RootsNew() && FlightOk()
      && (active ==> EventsOk())
      && (!active ==> io == [] && issued == [])
    }

    /** The entries are those of the requests; what one read covers is hooked to it. */
    ghost predicate RequestsOk() {
      Hooked(io, owner) && ReadsAre(io, issued) && Below(issued, |io|) && Requested(at, ids, io)
    }

    /** Free list, page list and running reads together hold every buffer exactly once. */
    ghost predicate BuffersOk() {
      && Below(issued, |io|) && Consistent(pool) && HeldOnce(pool, Lent(io, issued), buffers)
        && (!useCache ==> pool.lru == [])
    }

    ghost predicate PageRight(e: Page) {
      e.buff < |memory| && forall id: nat {:trigger at.params(id)} ::
        at.PageOf(at.params(id)) == e.id ==> memory[e.buff] == Sectors(file, at.params(id))
    }

    /** Cached pages hold what the file holds. */
    ghost predicate PagesOk() {
      forall i {:trigger pool.lru[i]} :: 0 <= i < |pool.lru| ==> PageRight(pool.lru[i])
    }

    /** A page that was hit stays cached as long as the batch lasts. */
    ghost predicate HitsOk() {
      forall i {:trigger io[i]} :: 0 <= i < |io| && io[i].hit ==>
        useCache && at.PageOf(io[i].range) in pool.cached && pool.cached[at.PageOf(io[i].range)] == io[i].buff
    }

    /** With the cache in use, pages are read that are not cached, each once. */
    ghost predicate RootsNew() {
      && (useCache ==> forall i {:trigger io[i]} :: 0 <= i < |io| && io[i].root ==>
          at.PageOf(io[i].range) !in pool.cached)
      && (useCache ==> forall i, j :: 0 <= i < j < |io| && io[i].root && io[j].root ==>
          at.PageOf(io[i].range) != at.PageOf(io[j].range))
    }

    /** Completed reads have filled their buffers. */
    ghost predicate FlightOk() {
      && (forall r :: r in inFlight ==> r < |io| && io[r].root)
      && forall r {:trigger io[r]} :: 0 <= r < |io| && io[r].root && r !in inFlight ==>
           io[r].buff < |memory| && memory[io[r].buff] == Sectors(file, io[r].range)
    }

    ghost predicate Arrived(x: nat)
      requires x < |io| == |owner|
    {
      io[x].hit || owner[x] !in inFlight
    }

    /** What has arrived has been delivered or waits to be, not both. */
    ghost predicate EventsOk() {
      && |owner| == |io| && NoDup(events)
      && (forall x :: x in events ==> x < |io| && Arrived(x) && x !in delivered)
      && (forall x :: x in delivered ==> x < |io| && Arrived(x))
      && (forall x :: 0 <= x < |io| && Arrived(x) ==> x in events || x in delivered)
    }
  }

  /** Whatever has arrived lies, byte for byte, where its delivery says. */
  lemma ArrivedIsRight(c: Context, x: nat)
    requires c.Valid() && Holds(c.at, c.file) && x < |c.io| && c.Arrived(x)
    ensures c.io[x].buff < |c.memory| && c.io[x].index == x && c.io[x].range == c.at.params(c.ids[x])
    ensures Found(c.at, c.memory[c.io[x].buff], c.ids[x])
  {
    if c.io[x].hit {
      HitIsRight(c, x);
      assert Found(c.at, Sectors(c.file, c.io[x].range), c.ids[x]);
    } else {
      assert OwnedAt(c.io, c.owner, x);
      assert Found(c.at, Sectors(c.file, c.io[c.owner[x]].range), c.ids[x]);
    }
  }

  lemma HitIsRight(c: Context, x: nat)
    requires c.Valid() && x < |c.io| && c.io[x].hit
    ensures c.io[x].buff < |c.memory| && c.memory[c.io[x].buff] == Sectors(c.file, c.io[x].range)
  {
    var page := c.at.PageOf(c.io[x].range);
    assert page in Elems(PageIds(c.pool.lru));
    var i :| 0 <= i < |c.pool.lru| && PageIds(c.pool.lru)[i] == page;
    assert c.PageRight(c.pool.lru[i]);
  }

  // ------------------------------------------------------------------ submitting

  /** The context after a batch has been submitted. */
  function Submitted(c: Context, ids: seq<nat>, pool: Pool, io: seq<Io>, issued: seq<nat>, events: seq<nat>,
                     owner: seq<nat>): Context {
    Context(c.at, c.file, c.buffers, c.useCache, pool, c.memory, io, issued, Elems(issued), events, ids, owner, {},
            true)
  }

  ghost predicate JustPrepared(c: Context, b: Batch, events: seq<nat>, pool: Pool, io: seq<Io>, issued: seq<nat>,
                               owner: seq<nat>, sectors: map<nat, nat>) {
    && c.Valid() && !c.active
    && b.at == c.at && b.useCache == c.useCache && b.cached == c.pool.cached && b.n == c.buffers
    && b.Ready() && Marked(c.at, b.ids, c.pool, c.useCache, b.marked, events, b.pool, b.pinned)
    && |io| == |b.marked| && b.Halfway(io, pool, issued, owner, sectors)
    && (forall i :: 0 <= i < |b.ids| ==> b.ids[i] < c.at.numVectors)
  }

  lemma BatchReady(c: Context, b: Batch, events: seq<nat>)
    requires c.Valid() && !c.active && |b.ids| <= c.buffers
    requires b.at == c.at && b.useCache == c.useCache && b.cached == c.pool.cached && b.n == c.buffers
      && |b.marked| == |b.ids|
    requires Marked(c.at, b.ids, c.pool, c.useCache, b.marked, events, b.pool, b.pinned)
    ensures b.Ready() && PoolKept(b.pool, b.pool, [], b.n, b.pinned, b.useCache)
  {
    PinnedAreCached(b.pool, b.pinned);
    assert Lent(c.io, c.issued) == [];
    assert Holders(b.pool, []) == Holders(c.pool, []);
    assert b.pool.lru == [] <==> c.pool.lru == [];
  }

  lemma SubmittedEntries(c: Context, b: Batch, events: seq<nat>, pool: Pool, io: seq<Io>, issued: seq<nat>,
                         owner: seq<nat>, sectors: map<nat, nat>, i: nat)
    requires JustPrepared(c, b, events, pool, io, issued, owner, sectors) && i < |io|
    ensures b.ids[i] < c.at.numVectors && io[i].range == c.at.params(b.ids[i]) && io[i].index == i
      && (io[i].hit ==> !io[i].root)
    ensures io[i].hit <==> c.useCache && c.at.PageOf(io[i].range) in c.pool.cached
    ensures io[i].hit ==> io[i].buff == c.pool.cached[c.at.PageOf(io[i].range)] && c.at.PageOf(io[i].range) in b.pinned
    ensures !io[i].hit ==> owner[i] < |io| && io[owner[i]].root
  {
    assert MarkedAt(c.at, b.ids, c.pool.cached, c.useCache, b.marked[i], i);
    assert SameRequest(b.marked[i], io[i]);
    assert OwnedAt(io, owner, i);
  }

  lemma SubmittedBuffers(c: Context, b: Batch, events: seq<nat>, pool: Pool, io: seq<Io>, issued: seq<nat>,
                         owner: seq<nat>, sectors: map<nat, nat>)
    requires JustPrepared(c, b, events, pool, io, issued, owner, sectors)
    ensures Submitted(c, b.ids, pool, io, issued, events, owner).BuffersOk()
    ensures Submitted(c, b.ids, pool, io, issued, events, owner).PagesOk()
  {
    var t := Submitted(c, b.ids, pool, io, issued, events, owner);
    forall i | 0 <= i < |pool.lru| ensures t.PageRight(pool.lru[i]) {
      var e := pool.lru[i];
      assert e in pool.lru && e in b.pool.lru && e in c.pool.lru;
      var j :| 0 <= j < |c.pool.lru| && c.pool.lru[j] == e;
      assert c.PageRight(c.pool.lru[j]);
    }
  }

  lemma SubmittedRequests(c: Context, b: Batch, events: seq<nat>, pool: Pool, io: seq<Io>, issued: seq<nat>,
                          owner: seq<nat>, sectors: map<nat, nat>)
    requires JustPrepared(c, b, events, pool, io, issued, owner, sectors)
    ensures var t := Submitted(c, b.ids, pool, io, issued, events, owner); t.RequestsOk() && t.HitsOk() && t.FlightOk()
  {
    forall i | 0 <= i < |io|
      ensures b.ids[i] < c.at.numVectors && io[i].range == c.at.params(b.ids[i]) && io[i].index == i
      ensures io[i].hit ==>
        c.useCache && c.at.PageOf(io[i].range) in pool.cached && pool.cached[c.at.PageOf(io[i].range)] == io[i].buff
    {
      SubmittedEntries(c, b, events, pool, io, issued, owner, sectors, i);
    }
    ReadsBelow(io, issued);
  }

  /** What is read in the batch was not cached before. */
  lemma ReadsAreNew(c: Context, b: Batch, events: seq<nat>, pool: Pool, io: seq<Io>, issued: seq<nat>,
                    owner: seq<nat>, sectors: map<nat, nat>, i: nat)
    requires JustPrepared(c, b, events, pool, io, issued, owner, sectors) && c.useCache && i < |io| && io[i].root
    ensures c.at.PageOf(io[i].range) !in pool.cached
  {
    SubmittedEntries(c, b, events, pool, io, issued, owner, sectors, i);
  }

  lemma ReadsOfTwoPages(c: Context, b: Batch, events: seq<nat>, pool: Pool, io: seq<Io>, issued: seq<nat>,
                        owner: seq<nat>, sectors: map<nat, nat>, i: nat, j: nat)
    requires JustPrepared(c, b, events, pool, io, issued, owner, sectors) && c.useCache
    requires i < j < |io| && io[i].root && io[j].root
    ensures c.at.PageOf(io[i].range) != c.at.PageOf(io[j].range)
  {
    SubmittedEntries(c, b, events, pool, io, issued, owner, sectors, i);
    SubmittedEntries(c, b, events, pool, io, issued, owner, sectors, j);
    ReadsApart(c.at, b.marked, io, owner, sectors, issued, i, j);
  }

  lemma SubmittedRoots(c: Context, b: Batch, events: seq<nat>, pool: Pool, io: seq<Io>, issued: seq<nat>,
                       owner: seq<nat>, sectors: map<nat, nat>)
    requires JustPrepared(c, b, events, pool, io, issued, owner, sectors)
    ensures Submitted(c, b.ids, pool, io, issued, events, owner).RootsNew()
  {
    if c.useCache {
      forall i | 0 <= i < |io| && io[i].root ensures c.at.PageOf(io[i].range) !in pool.cached {
        ReadsAreNew(c, b, events, pool, io, issued, owner, sectors, i);
      }
      forall i, j | 0 <= i < j < |io| && io[i].root && io[j].root
        ensures c.at.PageOf(io[i].range) != c.at.PageOf(io[j].range) {
        ReadsOfTwoPages(c, b, events, pool, io, issued, owner, sectors, i, j);
      }
    }
  }

  lemma SubmittedEvents(c: Context, b: Batch, events: seq<nat>, pool: Pool, io: seq<Io>, issued: seq<nat>,
                        owner: seq<nat>, sectors: map<nat, nat>)
    requires JustPrepared(c, b, events, pool, io, issued, owner, sectors)
    ensures Submitted(c, b.ids, pool, io, issued, events, owner).EventsOk()
  {
    var t := Submitted(c, b.ids, pool, io, issued, events, owner);
    forall i | 0 <= i < |io| ensures t.Arrived(i) <==> i in events {
      SubmittedEntries(c, b, events, pool, io, issued, owner, sectors, i);
      assert SameRequest(b.marked[i], io[i]);
    }
  }

  lemma SubmittedValid(c: Context, b: Batch, events: seq<nat>, pool: Pool, io: seq<Io>, issued: seq<nat>,
                       owner: seq<nat>, sectors: map<nat, nat>)
    requires JustPrepared(c, b, events, pool, io, issued, owner, sectors)
    ensures Submitted(c, b.ids, pool, io, issued, events, owner).Valid()
  {
    SubmittedBuffers(c, b, events, pool, io, issued, owner, sectors);
    SubmittedRequests(c, b, events, pool, io, issued, owner, sectors);
    SubmittedRoots(c, b, events, pool, io, issued, owner, sectors);
    SubmittedEvents(c, b, events, pool, io, issued, owner, sectors);
  }

  // ------------------------------------------------------------------ waiting

  /** Different reads fill different buffers, none of them a cached page's. */
  lemma RootsApart(c: Context, r: nat, s: nat)
    requires c.RequestsOk() && c.BuffersOk() && r < |c.io| && s < |c.io| && c.io[r].root && c.io[s].root
    ensures c.io[r].buff < c.buffers && c.io[r].buff !in Buffs(c.pool.lru)
    ensures r != s ==> c.io[r].buff != c.io[s].buff
  {
    HandsApart(c.pool, Lent(c.io, c.issued), c.buffers);
    var i :| 0 <= i < |c.issued| && c.issued[i] == r;
    var j :| 0 <= j < |c.issued| && c.issued[j] == s;
    assert Lent(c.io, c.issued)[i] in Lent(c.io, c.issued);
    assert i < j ==> Lent(c.io, c.issued)[i] != Lent(c.io, c.issued)[j];
    assert j < i ==> Lent(c.io, c.issued)[j] != Lent(c.io, c.issued)[i];
  }

  /** Delivering waiting events. */
  function Drained(c: Context, order: seq<nat>, events: seq<nat>): Context {
    Context(c.at, c.file, c.buffers, c.useCache, c.pool, c.memory, c.io, c.issued, c.inFlight, events, c.ids, c.owner,
            c.delivered + Elems(order), c.active)
  }

  lemma DrainKeepsValid(c: Context, order: seq<nat>, events: seq<nat>)
    requires c.Valid() && c.active && NoDup(events)
    requires forall x :: x in c.events <==> x in order || x in events
    requires forall x :: x in order ==> x !in events
    ensures Drained(c, order, events).Valid() && Elems(order) !! c.delivered && Below(order, |c.io|)
  {
    var t := Drained(c, order, events);
    assert forall x: nat :: x < |c.io| ==> (t.Arrived(x) <==> c.Arrived(x));
    assert forall i :: 0 <= i < |order| ==> order[i] in order;
  }

  /** Some reads have completed and filled their buffers; fit of what they bring is delivered, the rest waits. */
  function Completed(c: Context, done: seq<nat>, memory: seq<seq<Byte>>, fit: seq<nat>, rest: seq<nat>): Context {
    Context(c.at, c.file, c.buffers, c.useCache, c.pool, memory, c.io, c.issued, c.inFlight - Elems(done), rest, c.ids,
            c.owner, c.delivered + Elems(fit), c.active)
  }

  ghost predicate Filled(c: Context, done: seq<nat>, memory: seq<seq<Byte>>)
    requires Below(done, |c.io|)
  {
    && |memory| == |c.memory| && HeldIn(memory, c.at.capacity)
    && (forall i :: 0 <= i < |done| ==>
        c.io[done[i]].buff < |memory| && memory[c.io[done[i]].buff] == Sectors(c.file, c.io[done[i]].range))
    && forall b :: 0 <= b < |memory| && (forall i :: 0 <= i < |done| ==> c.io[done[i]].buff != b) ==>
      memory[b] == c.memory[b]
  }

  lemma FilledKeeps(c: Context, done: seq<nat>, memory: seq<seq<Byte>>, fit: seq<nat>, rest: seq<nat>)
    requires c.Valid() && Below(done, |c.io|) && Elems(done) <= c.inFlight && Filled(c, done, memory)
    ensures Completed(c, done, memory, fit, rest).FlightOk()
    ensures Completed(c, done, memory, fit, rest).PagesOk()
  {
    var t := Completed(c, done, memory, fit, rest);
    assert forall i :: 0 <= i < |done| ==> done[i] in Elems(done);
    forall r | 0 <= r < |c.io| && c.io[r].root && r !in t.inFlight
      ensures c.io[r].buff < |memory| && memory[c.io[r].buff] == Sectors(c.file, c.io[r].range)
    {
      if r in done {
        var i :| 0 <= i < |done| && done[i] == r;
      } else {
        forall i | 0 <= i < |done| ensures c.io[done[i]].buff != c.io[r].buff { RootsApart(c, done[i], r); }
      }
    }
    forall k | 0 <= k < |c.pool.lru| ensures t.PageRight(c.pool.lru[k]) {
      PageUntouched(c, done, memory, k);
    }
  }

  lemma PageUntouched(c: Context, done: seq<nat>, memory: seq<seq<Byte>>, k: nat)
    requires c.Valid() && Below(done, |c.io|) && Elems(done) <= c.inFlight && Filled(c, done, memory)
      && k < |c.pool.lru|
    ensures var b := c.pool.lru[k].buff; b < |memory| && memory[b] == c.memory[b]
    ensures c.PageRight(c.pool.lru[k])
  {
    assert c.PageRight(c.pool.lru[k]);
    assert Buffs(c.pool.lru)[k] in Buffs(c.pool.lru);
    forall i | 0 <= i < |done| ensures c.io[done[i]].buff != c.pool.lru[k].buff {
      assert done[i] in Elems(done);
      RootsApart(c, done[i], done[i]);
    }
  }

  /** What completed reads bring had not arrived before. */
  lemma BroughtIsNew(c: Context, done: seq<nat>, fit: seq<nat>, rest: seq<nat>, x: nat)
    requires c.RequestsOk() && Below(done, |c.io|) && NoDup(done) && Elems(done) <= c.inFlight && c.FlightOk()
    requires fit + rest == Chains(c.io, done) && x < |c.io|
    ensures x in fit || x in rest <==> !c.io[x].hit && c.owner[x] in done
    ensures c.owner[x] in done ==> c.owner[x] in c.inFlight
  {
    assert forall i :: 0 <= i < |done| ==> done[i] in Elems(done);
    ChainsCover(c.io, c.owner, done);
    assert x in fit + rest <==> x in fit || x in rest;
  }

  lemma BroughtOnce(c: Context, done: seq<nat>, fit: seq<nat>, rest: seq<nat>)
    requires c.RequestsOk() && Below(done, |c.io|) && NoDup(done) && Elems(done) <= c.inFlight && c.FlightOk()
    requires fit + rest == Chains(c.io, done)
    ensures NoDup(fit) && NoDup(rest) && (forall x :: x in fit ==> x !in rest)
    ensures Below(fit, |c.io|) && Below(rest, |c.io|) && |done| <= |fit| + |rest|
  {
    assert forall i :: 0 <= i < |done| ==> done[i] in Elems(done);
    ChainsCover(c.io, c.owner, done);
    SplitNoDup(fit, rest);
    forall i | 0 <= i < |fit| ensures fit[i] < |c.io| { assert fit[i] == (fit + rest)[i] && fit[i] in fit + rest; }
    forall i | 0 <= i < |rest|
      ensures rest[i] < |c.io| { assert rest[i] == (fit + rest)[|fit| + i] && rest[i] in fit + rest; }
  }

  lemma CompletedEvents(c: Context, done: seq<nat>, memory: seq<seq<Byte>>, fit: seq<nat>, rest: seq<nat>)
    requires c.Valid() && c.active && c.events == [] && Below(done, |c.io|) && NoDup(done) && Elems(done) <= c.inFlight
    requires fit + rest == Chains(c.io, done)
    ensures Completed(c, done, memory, fit, rest).EventsOk()
    ensures Elems(fit) !! c.delivered
  {
    var t := Completed(c, done, memory, fit, rest);
    BroughtOnce(c, done, fit, rest);
    forall x: nat | x < |c.io|
      ensures t.Arrived(x) <==> c.Arrived(x) || x in fit || x in rest
      ensures c.Arrived(x) ==> x !in fit && x !in rest
    {
      BroughtIsNew(c, done, fit, rest, x);
      assert c.owner[x] in Elems(done) <==> c.owner[x] in done;
    }
  }

  lemma SplitNoDup<T>(a: seq<T>, b: seq<T>)
    requires NoDup(a + b)
    ensures NoDup(a) && NoDup(b) && forall x :: x in a ==> x !in b
  {
    var s := a + b;
    forall i, j | 0 <= i < j < |a| ensures a[i] != a[j] { assert s[i] != s[j]; }
    forall i, j | 0 <= i < j < |b| ensures b[i] != b[j] { assert s[|a| + i] != s[|a| + j]; }
    forall i, j | 0 <= i < |a| && 0 <= j < |b| ensures a[i] != b[j] { assert s[i] != s[|a| + j]; }
  }

  /** Entries and buffers are what they were. */
  lemma EntriesStay(c: Context, t: Context)
    requires c.RequestsOk() && c.BuffersOk() && c.HitsOk() && c.RootsNew()
    requires t.at == c.at && t.buffers == c.buffers && t.useCache == c.useCache && t.pool == c.pool && t.io == c.io
    requires t.issued == c.issued && t.ids == c.ids && t.owner == c.owner
    ensures t.RequestsOk() && t.BuffersOk() && t.HitsOk() && t.RootsNew()
  {
  }

  lemma CompletedValid(c: Context, done: seq<nat>, memory: seq<seq<Byte>>, fit: seq<nat>, rest: seq<nat>)
    requires c.Valid() && c.active && c.events == [] && Below(done, |c.io|) && NoDup(done) && Elems(done) <= c.inFlight
    requires Filled(c, done, memory) && fit + rest == Chains(c.io, done)
    ensures Completed(c, done, memory, fit, rest).Valid()
  {
    EntriesStay(c, Completed(c, done, memory, fit, rest));
    FilledKeeps(c, done, memory, fit, rest);
    CompletedEvents(c, done, memory, fit, rest);
  }

  /** With nothing in flight and nothing waiting, everything has been delivered. */
  lemma AllDelivered(c: Context)
    requires c.Valid() && c.active && c.inFlight == {} && c.events == []
    ensures c.delivered == Interval(0, |c.io|) && |c.delivered| == |c.ids|
  {
    forall x: nat | x < |c.io| ensures x in c.delivered {
      assert OwnedAt(c.io, c.owner, x);
      assert c.Arrived(x);
    }
    IntervalSize(0, |c.io|);
  }

  // ------------------------------------------------------------------ putting a batch away

  /** Halfway through: the buffers of the first k reads are with the pool again. */
  ghost predicate PutAway(c: Context, k: nat, pool: Pool) {
    && c.RequestsOk() && k <= |c.issued|
    && Consistent(pool) && HeldOnce(pool, Lent(c.io, c.issued)[k..], c.buffers) && (!c.useCache ==> pool.lru == [])
    && (forall x :: x in pool.cached ==>
        x in c.pool.cached || exists j :: 0 <= j < k && c.at.PageOf(c.io[c.issued[j]].range) == x)
    && (forall i {:trigger pool.lru[i]} :: 0 <= i < |pool.lru| ==> c.PageRight(pool.lru[i]))
  }

  lemma NotYetCached(c: Context, k: nat, pool: Pool)
    requires c.Valid() && PutAway(c, k, pool) && k < |c.issued| && c.useCache
    ensures c.at.PageOf(c.io[c.issued[k]].range) !in pool.cached
  {
    assert c.issued[k] in c.issued;
    forall j | 0 <= j < k ensures c.at.PageOf(c.io[c.issued[j]].range) != c.at.PageOf(c.io[c.issued[k]].range) {
      assert c.issued[j] in c.issued && c.issued[j] < c.issued[k];
    }
  }

  /** The page just read is right, whichever vector on it is asked for later. */
  lemma ReadPageIsRight(c: Context, r: nat)
    requires c.Valid() && c.useCache && r < |c.io| && c.io[r].root && c.inFlight == {}
    ensures c.PageRight(Page(c.at.PageOf(c.io[r].range), c.io[r].buff))
  {
    forall id: nat | c.at.PageOf(c.at.params(id)) == c.at.PageOf(c.io[r].range)
      ensures c.memory[c.io[r].buff] == Sectors(c.file, c.at.params(id))
    {
      assert c.io[r].range == c.at.params(c.ids[r]);
    }
  }

  function PutOne(at: Addressing, useCache: bool, e: Io, pool: Pool): Pool {
    if useCache then Store(pool, at.PageOf(e.range), e.buff) else Release(pool, e.buff)
  }

  lemma PutOneMore(c: Context, k: nat, pool: Pool)
    requires c.Valid() && PutAway(c, k, pool) && k < |c.issued| && c.inFlight == {}
    ensures PutAway(c, k + 1, PutOne(c.at, c.useCache, c.io[c.issued[k]], pool))
  {
    var r, lent := c.issued[k], Lent(c.io, c.issued);
    assert r in c.issued;
    assert lent[k..] == [c.io[r].buff] + lent[k + 1..];
    if c.useCache {
      NotYetCached(c, k, pool);
      ReadPageIsRight(c, r);
      StoreKeeps(pool, c.at.PageOf(c.io[r].range), c.io[r].buff, lent[k + 1..]);
      StoredPages(c, k, pool);
    } else {
      ReleaseKeeps(pool, c.io[r].buff, lent[k + 1..]);
    }
  }

  lemma StoredPages(c: Context, k: nat, pool: Pool)
    requires c.RequestsOk() && PutAway(c, k, pool) && k < |c.issued|
    ensures forall x :: x in Store(pool, c.at.PageOf(c.io[c.issued[k]].range), c.io[c.issued[k]].buff).cached ==>
      x in c.pool.cached || exists j :: 0 <= j < k + 1 && c.at.PageOf(c.io[c.issued[j]].range) == x
  {
  }

  /** The pages of the first k reads stand, in the order of the reads, behind what was in the list. */
  ghost predicate PutInOrder(c: Context, k: nat, pool: Pool) {
    && Below(c.issued, |c.io|) && k <= |c.issued| && |pool.lru| == |c.pool.lru| + k
    && pool.lru[..|c.pool.lru|] == c.pool.lru
    && forall j :: 0 <= j < k ==>
      pool.lru[|c.pool.lru| + j] == Page(c.at.PageOf(c.io[c.issued[j]].range), c.io[c.issued[j]].buff)
  }

  lemma NextInOrder(c: Context, k: nat, pool: Pool)
    requires c.useCache && PutInOrder(c, k, pool) && k < |c.issued|
    ensures PutInOrder(c, k + 1, PutOne(c.at, c.useCache, c.io[c.issued[k]], pool))
  {
  }

  /** The pages read, in the order of the reads. */
  ghost function ReadPages(at: Addressing, io: seq<Io>, issued: seq<nat>): (r: seq<nat>)
    requires Below(issued, |io|)
    ensures |r| == |issued| && forall k :: 0 <= k < |issued| ==> r[k] == at.PageOf(io[issued[k]].range)
  {
    seq(|issued|, k requires 0 <= k < |issued| => at.PageOf(io[issued[k]].range))
  }

  lemma ListWithReads(was: seq<Page>, now: seq<Page>, fetched: seq<nat>, before: seq<nat>)
    requires ByUse(PageIds(was), before) && NoDup(PageIds(now))
    requires |now| == |was| + |fetched| && now[..|was|] == was
    requires forall j :: 0 <= j < |fetched| ==> now[|was| + j].id == fetched[j]
    ensures ByUse(PageIds(now), before + fetched)
  {
    assert PageIds(now) == PageIds(was) + fetched by {
      assert forall i :: 0 <= i < |was| ==> now[i] == now[..|was|][i];
      assert forall j :: 0 <= j < |fetched| ==> PageIds(now)[|was| + j] == fetched[j];
    }
    ReadsAreLatest(PageIds(was), fetched, before);
  }

  /** Once the batch is put away, its reads are the latest uses. */
  lemma ReadsUsed(c: Context, pool: Pool, before: seq<nat>)
    requires Below(c.issued, |c.io|) && Consistent(pool) && ByUse(PageIds(c.pool.lru), before)
    requires if c.useCache then PutInOrder(c, |c.issued|, pool) else pool.lru == []
    ensures ByUse(PageIds(pool.lru), before + ReadPages(c.at, c.io, c.issued))
  {
    if c.useCache { ListWithReads(c.pool.lru, pool.lru, ReadPages(c.at, c.io, c.issued), before); }
  }

  lemma ReadsNamed(c: Context, before: seq<nat>)
    requires c.RequestsOk()
    ensures PagesUsed(c.at, c.ids, c.issued, before, before + ReadPages(c.at, c.io, c.issued))
  {
    assert (before + ReadPages(c.at, c.io, c.issued))[..|before|] == before;
  }

  /** What the page list shows of a batch: the hits moved to the back in their order, and the pages that had to go were
      used before all that stay. */
  ghost predicate CacheInOrder(was: Pool, pool: Pool, before: seq<nat>, uses: seq<nat>) {
    && |before| <= |uses| && ByUse(PageIds(pool.lru), uses)
    && (forall x, y :: x in was.cached && x !in pool.cached && y in pool.cached ==> UsedBefore(uses, x, y))
    && pool.cached.Keys <= was.cached.Keys && (|pool.lru| < |was.lru| ==> pool.free == [])
    && (forall i, j :: 0 <= i < j < |pool.lru| ==>
        Reordered(PageIds(was.lru), uses[|before|..], PageIds(pool.lru), i, j))
  }

  lemma PreparedOrder(was: Pool, touched: Pool, pool: Pool, before: seq<nat>, uses: seq<nat>)
    requires Consistent(was) && Consistent(touched) && Consistent(pool) && SameBuffers(was, touched)
    requires FrontTaken(touched, pool) && pool.cached.Keys <= touched.cached.Keys
    requires ByUse(PageIds(was.lru), before) && ByUse(PageIds(touched.lru), uses)
    requires |before| <= |uses| && uses[..|before|] == before
    ensures CacheInOrder(was, pool, before, uses)
  {
    EvictedAreOldest(touched, pool, uses);
    assert uses == before + uses[|before|..];
    forall i | 0 <= i < |pool.lru| ensures PageIds(pool.lru)[i] in PageIds(was.lru) {
      assert pool.lru[i].id in pool.cached.Keys && pool.lru[i].id in was.cached.Keys;
      assert pool.lru[i].id in Elems(PageIds(was.lru));
    }
    OrderAfterUses(PageIds(was.lru), before, PageIds(pool.lru), uses[|before|..]);
  }

  /** Some read of the batch fetches at least this range. */
  ghost predicate IsRead(range: Range, io: seq<Io>, issued: seq<nat>) {
    exists r :: r in issued && r < |io| && io[r].range.from == range.from && range.to <= io[r].range.to
  }

  lemma MissesRead(c: Context, b: Batch, events: seq<nat>, pool: Pool, io: seq<Io>, issued: seq<nat>,
                   owner: seq<nat>, sectors: map<nat, nat>, i: nat)
    requires JustPrepared(c, b, events, pool, io, issued, owner, sectors) && i < |io|
    ensures io[i].hit || IsRead(c.at.params(b.ids[i]), io, issued)
  {
    SubmittedEntries(c, b, events, pool, io, issued, owner, sectors, i);
    assert OwnedAt(io, owner, i);
    assert io[i].hit || owner[i] in issued;
  }

  /** The context once the batch is put away. */
  function Idle(c: Context, pool: Pool): Context {
    Context(c.at, c.file, c.buffers, c.useCache, pool, c.memory, [], [], {}, c.events, [], [], {}, false)
  }

  lemma IdleValid(c: Context, pool: Pool)
    requires c.Valid() && c.inFlight == {} && PutAway(c, |c.issued|, pool)
    ensures Idle(c, pool).Valid()
  {
    var t := Idle(c, pool);
    assert Lent(c.io, c.issued)[|c.issued|..] == [] == Lent([], []);
    forall i | 0 <= i < |pool.lru| ensures t.PageRight(pool.lru[i]) { assert c.PageRight(pool.lru[i]); }
  }
}
