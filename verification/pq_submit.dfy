/** Submitting a batch: cache hits first, then hooks and reads. */
module PqSubmit {
  import opened Bytes
  import opened Collections
  import opened PqLayout
  import opened PqPool
  import opened PqBatch
  import opened PageRecency

  /** What the reader knows of a file: where to read for an id, what page a read fetches, how many sectors its buffers
      hold, and what it should find. Page numbers count only for files with pages. */
  datatype Addressing = Addressing(paged: bool, numVectors: nat, vectorSize: nat, capacity: nat, params: nat -> Range,
                                   page: nat -> nat, stored: nat -> seq<Byte>)
  {
    function PageOf(r: Range): nat {
      page(r.from)
    }

    /** Every read fits into a buffer. */
    ghost predicate Fits() {
      forall id: nat {:trigger params(id)} :: id < numVectors ==> params(id).to - params(id).from + 1 <= capacity
    }

    /** With pages, requests on one page are read alike, and different pages are read apart. */
    ghost predicate PagesApart() {
      paged ==> forall i, j {:trigger params(i), params(j)} ::
        && (params(i).from == params(j).from ==> params(i).to == params(j).to)
        && (PageOf(params(i)) == PageOf(params(j)) <==> params(i).from == params(j).from)
    }

    ghost predicate Sound() {
      Fits() && PagesApart()
    }
  }

  /** The entry of request i before the reads are prepared. */
  ghost predicate MarkedAt(at: Addressing, ids: seq<nat>, cached: map<nat, nat>, useCache: bool, e: Io, i: nat)
    requires i < |ids|
  {
    && e.range == at.params(ids[i]) && e.id == ids[i] && e.index == i && !e.root && e.hooked == -1
    && (e.hit <==> useCache && at.PageOf(e.range) in cached)
    && (e.hit ==> e.buff == cached[at.PageOf(e.range)])
  }

  ghost function CountHits(io: seq<Io>): (c: nat)
    ensures c <= |io|
  {
    if io == [] then 0 else CountHits(io[..|io| - 1]) + if io[|io| - 1].hit then 1 else 0
  }

  lemma {:induction false} HitsBetween(io: seq<Io>, k: nat)
    requires k <= |io|
    ensures CountHits(io) <= CountHits(io[..k]) + |io| - k
  {
    if k < |io| {
      HitsBetween(io[..|io| - 1], k);
      assert io[..|io| - 1][..k] == io[..k];
    } else {
      assert io[..k] == io;
    }
  }

  ghost predicate Ascending(s: seq<nat>) {
    forall i, j :: 0 <= i < j < |s| ==> s[i] < s[j]
  }

  /** The pages of the given requests, in that order, have been used since. */
  ghost predicate PagesUsed(at: Addressing, ids: seq<nat>, which: seq<nat>, before: seq<nat>, uses: seq<nat>) {
    && |uses| == |before| + |which| && uses[..|before|] == before && Below(which, |ids|)
    && forall k {:trigger which[k]} :: 0 <= k < |which| ==> uses[|before| + k] == at.PageOf(at.params(ids[which[k]]))
  }

  /** The entries, the hits, and the pool in which the pages hit are the last ones. */
  ghost predicate Marked(at: Addressing, ids: seq<nat>, pool0: Pool, useCache: bool,
                         marked: seq<Io>, events: seq<nat>, pool: Pool, pinned: set<nat>)
    requires |marked| <= |ids|
  {
    && (forall i {:trigger marked[i]} :: 0 <= i < |marked| ==> MarkedAt(at, ids, pool0.cached, useCache, marked[i], i))
    && NoDup(events) && Ascending(events) && (forall x: nat :: x in events <==> x < |marked| && marked[x].hit)
    && |pinned| <= |events| == CountHits(marked)
    && HitsPinned(at, marked, pinned)
    && SameBuffers(pool0, pool) && Consistent(pool) && PinnedLast(pool.lru, pinned)
  }

  ghost predicate HitsPinned(at: Addressing, io: seq<Io>, pinned: set<nat>)
  {
    forall i {:trigger io[i]} :: 0 <= i < |io| && io[i].hit ==> at.PageOf(io[i].range) in pinned
  }

  /** Only the order of the list has changed. */
  ghost predicate SameBuffers(p: Pool, q: Pool) {
    && q.free == p.free && q.cached == p.cached && |q.lru| == |p.lru|
    && multiset(Buffs(q.lru)) == multiset(Buffs(p.lru)) && forall e :: e in q.lru <==> e in p.lru
  }

  lemma MissKeepsMarked(at: Addressing, ids: seq<nat>, pool0: Pool, useCache: bool,
                        marked: seq<Io>, events: seq<nat>, pool: Pool, pinned: set<nat>, e: Io)
    requires |marked| < |ids| && Marked(at, ids, pool0, useCache, marked, events, pool, pinned)
    requires MarkedAt(at, ids, pool0.cached, useCache, e, |marked|) && !e.hit
    ensures Marked(at, ids, pool0, useCache, marked + [e], events, pool, pinned)
  {
    assert (marked + [e])[..|marked|] == marked;
  }

  lemma HitKeepsMarked(at: Addressing, ids: seq<nat>, pool0: Pool, useCache: bool,
                       marked: seq<Io>, events: seq<nat>, pool: Pool, pinned: set<nat>, e: Io)
    requires |marked| < |ids| && Marked(at, ids, pool0, useCache, marked, events, pool, pinned)
    requires MarkedAt(at, ids, pool0.cached, useCache, e, |marked|) && e.hit
    ensures at.PageOf(e.range) in PageIds(pool.lru)
    ensures Marked(at, ids, pool0, useCache, marked + [e], events + [|marked|], Touch(pool, at.PageOf(e.range)),
                   pinned + {at.PageOf(e.range)})
  {
    HitCounted(marked, events, e);
    HitPinned(at, marked, pinned, e);
    TouchKeeps(pool, at.PageOf(e.range), pinned);
    forall i | 0 <= i < |marked| + 1 ensures MarkedAt(at, ids, pool0.cached, useCache, (marked + [e])[i], i) {
      assert i < |marked| ==> (marked + [e])[i] == marked[i];
    }
  }

  lemma HitPinned(at: Addressing, marked: seq<Io>, pinned: set<nat>, e: Io)
    requires HitsPinned(at, marked, pinned)
    ensures HitsPinned(at, marked + [e], pinned + {at.PageOf(e.range)})
  {
  }

  lemma HitCounted(marked: seq<Io>, events: seq<nat>, e: Io)
    requires e.hit && NoDup(events) && Ascending(events)
      && (forall x: nat :: x in events <==> x < |marked| && marked[x].hit)
    ensures CountHits(marked + [e]) == CountHits(marked) + 1
    ensures NoDup(events + [|marked|]) && Ascending(events + [|marked|])
    ensures forall x: nat :: x in events + [|marked|] <==> x < |marked + [e]| && (marked + [e])[x].hit
  {
    assert (marked + [e])[..|marked|] == marked;
    assert forall i :: 0 <= i < |events| ==> events[i] in events;
    NoDupSnoc(events, |marked|);
  }

  /** The page of a request is cached: it moves to the back of the list. */
  method MarkHit(at: Addressing, ids: seq<nat>, marked0: seq<Io>, events0: seq<nat>, pool1: Pool, page: nat,
                 ghost pool0: Pool, ghost pinned0: set<nat>)
    returns (marked: seq<Io>, events: seq<nat>, pool: Pool, ghost pinned: set<nat>)
    requires |marked0| < |ids| && Marked(at, ids, pool0, true, marked0, events0, pool1, pinned0)
    requires page == at.PageOf(at.params(ids[|marked0|])) && page in pool1.cached
    ensures |marked| == |marked0| + 1 && Marked(at, ids, pool0, true, marked, events, pool, pinned)
    ensures page in PageIds(pool1.lru) && pool == Touch(pool1, page) && events == events0 + [|marked0|]
  {
    var i := |marked0|;
    var e := Io(false, true, -1, at.params(ids[i]), ids[i], i, pool1.cached[page]);
    marked, events, pool, pinned := marked0 + [e], events0 + [i], Touch(pool1, page), pinned0 + {page};
    assert at.PageOf(e.range) == page;
    HitKeepsMarked(at, ids, pool0, true, marked0, events0, pool1, pinned0, e);
  }

  /** It is not: the request will be read. */
  method MarkMiss(at: Addressing, ids: seq<nat>, useCache: bool, marked0: seq<Io>, ghost events0: seq<nat>,
                  ghost pool1: Pool, ghost pool0: Pool, ghost pinned0: set<nat>)
    returns (marked: seq<Io>)
    requires |marked0| < |ids| && Marked(at, ids, pool0, useCache, marked0, events0, pool1, pinned0)
    requires !(useCache && at.PageOf(at.params(ids[|marked0|])) in pool1.cached)
    ensures |marked| == |marked0| + 1 && Marked(at, ids, pool0, useCache, marked, events0, pool1, pinned0)
  {
    var i := |marked0|;
    var e := Io(false, false, -1, at.params(ids[i]), ids[i], i, 0);
    MissKeepsMarked(at, ids, pool0, useCache, marked0, events0, pool1, pinned0, e);
    marked := marked0 + [e];
  }

  /** The page list is ordered by the uses so far, the last of them those of the hits. */
  ghost predicate Recent(at: Addressing, ids: seq<nat>, events: seq<nat>, pool: Pool, before: seq<nat>,
                         uses: seq<nat>) {
    ByUse(PageIds(pool.lru), uses) && PagesUsed(at, ids, events, before, uses)
  }

  lemma HitIsRecent(at: Addressing, ids: seq<nat>, events: seq<nat>, pool: Pool, before: seq<nat>, uses: seq<nat>,
                    i: nat)
    requires Recent(at, ids, events, pool, before, uses) && i < |ids|
    requires at.PageOf(at.params(ids[i])) in PageIds(pool.lru)
    ensures Recent(at, ids, events + [i], Touch(pool, at.PageOf(at.params(ids[i]))), before,
                   uses + [at.PageOf(at.params(ids[i]))])
  {
    TouchIsLatest(pool, at.PageOf(at.params(ids[i])), uses);
    assert (uses + [at.PageOf(at.params(ids[i]))])[..|before|] == uses[..|before|];
  }

  method MarkOne(at: Addressing, ids: seq<nat>, useCache: bool, marked0: seq<Io>, events0: seq<nat>, pool1: Pool,
                 ghost pool0: Pool, ghost pinned0: set<nat>, ghost before: seq<nat>, ghost uses0: seq<nat>)
    returns (marked: seq<Io>, events: seq<nat>, pool: Pool, ghost pinned: set<nat>, ghost uses: seq<nat>)
    requires |marked0| < |ids| && Marked(at, ids, pool0, useCache, marked0, events0, pool1, pinned0)
    requires Recent(at, ids, events0, pool1, before, uses0)
    ensures |marked| == |marked0| + 1 && Marked(at, ids, pool0, useCache, marked, events, pool, pinned)
    ensures Recent(at, ids, events, pool, before, uses)
  {
    var page := at.PageOf(at.params(ids[|marked0|]));
    if useCache && page in pool1.cached {
      marked, events, pool, pinned := MarkHit(at, ids, marked0, events0, pool1, page, pool0, pinned0);
      uses := uses0 + [page];
      HitIsRecent(at, ids, events0, pool1, before, uses0, |marked0|);
    } else {
      events, pool, pinned, uses := events0, pool1, pinned0, uses0;
      marked := MarkMiss(at, ids, useCache, marked0, events, pool, pool0, pinned);
    }
  }

  /** The first loop: a hit is the latest use of its page. */
  method MarkHits(at: Addressing, ids: seq<nat>, pool0: Pool, useCache: bool, ghost before: seq<nat>)
    returns (marked: seq<Io>, events: seq<nat>, pool: Pool, ghost pinned: set<nat>, ghost uses: seq<nat>)
    requires Consistent(pool0) && at.Fits() && forall i :: 0 <= i < |ids| ==> ids[i] < at.numVectors
    requires ByUse(PageIds(pool0.lru), before)
    ensures |marked| == |ids| && Marked(at, ids, pool0, useCache, marked, events, pool, pinned)
    ensures Recent(at, ids, events, pool, before, uses)
  {
    marked, events, pool, pinned, uses := [], [], pool0, {}, before;
    for i := 0 to |ids|
      invariant |marked| == i && Marked(at, ids, pool0, useCache, marked, events, pool, pinned)
      invariant Recent(at, ids, events, pool, before, uses)
    {
      assert at.params(ids[i]).to - at.params(ids[i]).from + 1 <= at.capacity;
      marked, events, pool, pinned, uses :=
        MarkOne(at, ids, useCache, marked, events, pool, pool0, pinned, before, uses);
    }
  }

  // ------------------------------------------------------------------ the second loop

  ghost predicate SameRequest(m: Io, e: Io) {
    e.range == m.range && e.id == m.id && e.index == m.index && e.hit == m.hit && (e.hit ==> e.buff == m.buff)
  }

  /** The reads issued are those of the roots, in their order. */
  ghost predicate ReadsAre(io: seq<Io>, issued: seq<nat>) {
    Ascending(issued) && forall x: nat :: x in issued <==> x < |io| && io[x].root
  }

  /** The map from first sectors to roots. */
  ghost predicate SectorsAre(at: Addressing, io: seq<Io>, sectors: map<nat, nat>) {
    && (forall f :: f in sectors ==>
        sectors[f] < |io| && io[sectors[f]].root && !io[sectors[f]].hit && io[sectors[f]].range.from == f)
    && (forall i {:trigger io[i]} :: 0 <= i < |io| && !io[i].hit ==> io[i].range.from in sectors)
    && (at.paged ==> forall i {:trigger io[i]} :: 0 <= i < |io| && io[i].root ==>
        io[i].range.from in sectors && sectors[io[i].range.from] == i)
  }

  /** The first entries are complete. */
  ghost predicate Prepared(at: Addressing, marked: seq<Io>, io: seq<Io>, owner: seq<nat>, sectors: map<nat, nat>,
                           issued: seq<nat>) {
    && |io| <= |marked| && Hooked(io, owner) && ReadsAre(io, issued) && SectorsAre(at, io, sectors)
    && forall i {:trigger io[i]} :: 0 <= i < |io| ==> SameRequest(marked[i], io[i])
  }

  /** The buffers lent to the reads. */
  function Lent(io: seq<Io>, issued: seq<nat>): (r: seq<nat>)
    requires Below(issued, |io|)
    ensures |r| == |issued| && forall i :: 0 <= i < |issued| ==> r[i] == io[issued[i]].buff
  {
    seq(|issued|, i requires 0 <= i < |issued| => io[issued[i]].buff)
  }

  lemma ReadsBelow(io: seq<Io>, issued: seq<nat>)
    requires ReadsAre(io, issued)
    ensures Below(issued, |io|) && NoDup(issued)
  {
    assert forall i :: 0 <= i < |issued| ==> issued[i] in issued;
  }

  lemma ReadsStay(io: seq<Io>, now: seq<Io>, issued: seq<nat>)
    requires ReadsAre(io, issued) && |now| == |io| + 1 && !now[|io|].root
    requires forall x :: 0 <= x < |io| ==> now[x].root == io[x].root && now[x].buff == io[x].buff
    ensures ReadsAre(now, issued) && Below(issued, |io|) && Lent(now, issued) == Lent(io, issued)
  {
    ReadsBelow(io, issued);
  }

  lemma ReadsGrow(io: seq<Io>, e: Io, issued: seq<nat>)
    requires ReadsAre(io, issued) && e.root
    ensures ReadsAre(Appended(io, e), issued + [|io|]) && Below(issued, |io|) && Below(issued + [|io|], |io| + 1)
    ensures Lent(Appended(io, e), issued + [|io|]) == Lent(io, issued) + [e.buff]
  {
    ReadsBelow(io, issued);
  }

  lemma HitKeepsPrepared(at: Addressing, marked: seq<Io>, io: seq<Io>, owner: seq<nat>, sectors: map<nat, nat>,
                         issued: seq<nat>)
    requires Prepared(at, marked, io, owner, sectors, issued) && |io| < |marked|
    requires marked[|io|].hit && !marked[|io|].root && marked[|io|].hooked == -1
    ensures Prepared(at, marked, Appended(io, marked[|io|]), owner + [|io|], sectors, issued)
    ensures Below(issued, |io|) && Lent(Appended(io, marked[|io|]), issued) == Lent(io, issued)
  {
    AppendKeepsHooked(io, owner, marked[|io|]);
    ReadsStay(io, Appended(io, marked[|io|]), issued);
  }

  lemma HookKeepsPrepared(at: Addressing, marked: seq<Io>, io: seq<Io>, owner: seq<nat>, sectors: map<nat, nat>,
                          issued: seq<nat>, e: Io)
    requires Prepared(at, marked, io, owner, sectors, issued) && |io| < |marked| && e == marked[|io|] && !e.hit
    requires e.range.from in sectors && e.range.to <= io[sectors[e.range.from]].range.to
    ensures Prepared(at, marked, HookTo(io, sectors[e.range.from], e), owner + [sectors[e.range.from]], sectors, issued)
    ensures Below(issued, |io|) && Lent(HookTo(io, sectors[e.range.from], e), issued) == Lent(io, issued)
  {
    var r := sectors[e.range.from];
    HookKeepsHooked(io, owner, r, e);
    var now := HookTo(io, r, e);
    ReadsStay(io, now, issued);
    forall i | 0 <= i < |now|
      ensures SameRequest(marked[i], now[i]) { assert i < |io| ==> SameRequest(marked[i], io[i]); }
  }

  lemma ReadKeepsPrepared(at: Addressing, marked: seq<Io>, io: seq<Io>, owner: seq<nat>, sectors: map<nat, nat>,
                          issued: seq<nat>, e: Io)
    requires Prepared(at, marked, io, owner, sectors, issued) && |io| < |marked| && !marked[|io|].hit
    requires e == marked[|io|].(root := true, hooked := -1, buff := e.buff)
    requires at.paged ==> e.range.from !in sectors
    ensures Prepared(at, marked, Appended(io, e), owner + [|io|],
                     if e.range.from in sectors then sectors else sectors[e.range.from := |io|], issued + [|io|])
    ensures Below(issued, |io|) && Below(issued + [|io|], |io| + 1)
    ensures Lent(Appended(io, e), issued + [|io|]) == Lent(io, issued) + [e.buff]
  {
    AppendKeepsHooked(io, owner, e);
    ReadsGrow(io, e, issued);
    var now := Appended(io, e);
    forall i | 0 <= i < |now|
      ensures SameRequest(marked[i], now[i]) { assert i < |io| ==> SameRequest(marked[i], io[i]); }
  }

  /** With pages, a request for sectors that are being read is always hooked. */
  lemma CoveredIsHooked(at: Addressing, ids: seq<nat>, cached: map<nat, nat>, useCache: bool, marked: seq<Io>,
                        io: seq<Io>, owner: seq<nat>, sectors: map<nat, nat>, issued: seq<nat>)
    requires at.Sound() && |marked| == |ids| && at.paged && |io| < |marked|
    requires forall i {:trigger marked[i]} :: 0 <= i < |marked| ==> MarkedAt(at, ids, cached, useCache, marked[i], i)
    requires Prepared(at, marked, io, owner, sectors, issued)
    requires marked[|io|].range.from in sectors
    ensures marked[|io|].range.to <= io[sectors[marked[|io|].range.from]].range.to
  {
    var r := sectors[marked[|io|].range.from];
    assert SameRequest(marked[r], io[r]);
    assert MarkedAt(at, ids, cached, useCache, marked[r], r) && MarkedAt(at, ids, cached, useCache, marked[|io|], |io|);
    assert at.params(ids[|io|]).from == at.params(ids[r]).from;
  }

  /** What preparing the reads keeps of the pool: no buffer lost, pinned pages in place, no page new. */
  ghost predicate PoolKept(p: Pool, q: Pool, lent: seq<nat>, n: nat, pinned: set<nat>, useCache: bool) {
    && Consistent(q) && HeldOnce(q, lent, n) && PinnedLast(q.lru, pinned) && (!useCache ==> q.lru == [])
    && q.cached.Keys <= p.cached.Keys && (forall e :: e in q.lru ==> e in p.lru)
    && forall x :: x in pinned ==> x in q.cached && x in p.cached && q.cached[x] == p.cached[x]
  }

  /** A buffer is always found: n requests never need more than n buffers that no hit keeps. */
  lemma BufferIsFound(p: Pool, q: Pool, lent: seq<nat>, n: nat, pinned: set<nat>, useCache: bool)
    requires PoolKept(p, q, lent, n, pinned, useCache) && |lent| + |pinned| < n
    ensures var (t, b) := Take(q, useCache); b.Some? && PoolKept(p, t, lent + [b.value], n, pinned, useCache)
  {
    HeldCount(q, lent, n);
    TakeKeeps(q, useCache, lent, pinned);
  }

  /** Fixed data of a batch. */
  datatype Batch = Batch(at: Addressing, useCache: bool, ids: seq<nat>, cached: map<nat, nat>, marked: seq<Io>,
                         pool: Pool, n: nat, pinned: set<nat>)
  {
    ghost predicate Ready() {
      && at.Sound() && |marked| == |ids| <= n && |pinned| <= CountHits(marked)
      && (forall i {:trigger marked[i]} :: 0 <= i < |marked| ==> MarkedAt(at, ids, cached, useCache, marked[i], i))
    }

    /** The first entries are complete, and their reads have buffers. */
    ghost predicate Halfway(io: seq<Io>, now: Pool, issued: seq<nat>, owner: seq<nat>, sectors: map<nat, nat>) {
      && Prepared(at, marked, io, owner, sectors, issued) && Below(issued, |io|)
      && PoolKept(pool, now, Lent(io, issued), n, pinned, useCache)
      && |issued| + CountHits(marked[..|io|]) <= |io|
    }

    lemma Hit(io: seq<Io>, now: Pool, issued: seq<nat>, owner: seq<nat>, sectors: map<nat, nat>)
      requires Ready() && Halfway(io, now, issued, owner, sectors) && |io| < |marked| && marked[|io|].hit
      ensures Halfway(Appended(io, marked[|io|]), now, issued, owner + [|io|], sectors)
    {
      assert marked[..|io| + 1][..|io|] == marked[..|io|];
      assert MarkedAt(at, ids, cached, useCache, marked[|io|], |io|);
      HitKeepsPrepared(at, marked, io, owner, sectors, issued);
    }

    lemma Hook(io: seq<Io>, now: Pool, issued: seq<nat>, owner: seq<nat>, sectors: map<nat, nat>)
      requires Ready() && Halfway(io, now, issued, owner, sectors) && |io| < |marked| && !marked[|io|].hit
      requires marked[|io|].range.from in sectors
        && marked[|io|].range.to <= io[sectors[marked[|io|].range.from]].range.to
      ensures var r := sectors[marked[|io|].range.from];
        Halfway(HookTo(io, r, marked[|io|]), now, issued, owner + [r], sectors)
    {
      assert marked[..|io| + 1][..|io|] == marked[..|io|];
      HookKeepsPrepared(at, marked, io, owner, sectors, issued, marked[|io|]);
    }

    lemma Room(io: seq<Io>, now: Pool, issued: seq<nat>, owner: seq<nat>, sectors: map<nat, nat>)
      requires Ready() && Halfway(io, now, issued, owner, sectors) && |io| < |marked| && !marked[|io|].hit
      ensures |issued| + |pinned| < n
    {
      assert marked[..|io| + 1][..|io|] == marked[..|io|];
      HitsBetween(marked, |io| + 1);
    }

    lemma Read(io: seq<Io>, now: Pool, issued: seq<nat>, owner: seq<nat>, sectors: map<nat, nat>)
      requires Ready() && Halfway(io, now, issued, owner, sectors) && |io| < |marked| && !marked[|io|].hit
      requires marked[|io|].range.from in sectors ==>
        marked[|io|].range.to > io[sectors[marked[|io|].range.from]].range.to
      ensures var (rest, found) := Take(now, useCache);
        found.Some?
        && var e := marked[|io|].(root := true, buff := found.value);
           Halfway(Appended(io, e), rest, issued + [|io|], owner + [|io|],
                   if e.range.from in sectors then sectors else sectors[e.range.from := |io|])
    {
      Room(io, now, issued, owner, sectors);
      BufferIsFound(pool, now, Lent(io, issued), n, pinned, useCache);
      ReadEntry(io, now, issued, owner, sectors, Take(now, useCache).1.value);
      MissCounts(|io|);
    }

    lemma MissCounts(k: nat)
      requires k < |marked| && !marked[k].hit
      ensures CountHits(marked[..k + 1]) == CountHits(marked[..k])
    {
      assert marked[..k + 1][..k] == marked[..k];
    }

    lemma ReadEntry(io: seq<Io>, now: Pool, issued: seq<nat>, owner: seq<nat>, sectors: map<nat, nat>, buff: nat)
      requires Ready() && Halfway(io, now, issued, owner, sectors) && |io| < |marked| && !marked[|io|].hit
      requires marked[|io|].range.from in sectors ==>
        marked[|io|].range.to > io[sectors[marked[|io|].range.from]].range.to
      ensures var e := marked[|io|].(root := true, buff := buff);
        && Prepared(at, marked, Appended(io, e), owner + [|io|],
                    if e.range.from in sectors then sectors else sectors[e.range.from := |io|], issued + [|io|])
        && Below(issued + [|io|], |io| + 1) && Lent(Appended(io, e), issued + [|io|]) == Lent(io, issued) + [buff]
    {
      assert MarkedAt(at, ids, cached, useCache, marked[|io|], |io|);
      if at.paged && marked[|io|].range.from in sectors {
        CoveredIsHooked(at, ids, cached, useCache, marked, io, owner, sectors, issued);
      }
      ReadKeepsPrepared(at, marked, io, owner, sectors, issued, marked[|io|].(root := true, buff := buff));
    }
  }

  /** The second loop: a request is a hit, or hooked, or read. The buffer a read needs is always found. */
  method PrepareReads(marked: seq<Io>, pool0: Pool, useCache: bool, ghost b: Batch)
    returns (io: seq<Io>, pool: Pool, issued: seq<nat>, ghost owner: seq<nat>, ghost sectors: map<nat, nat>)
    requires b.marked == marked && b.pool == pool0 && b.useCache == useCache
    requires b.Ready() && PoolKept(b.pool, b.pool, [], b.n, b.pinned, b.useCache)
    ensures |io| == |b.marked| && b.Halfway(io, pool, issued, owner, sectors) && FrontTaken(pool0, pool)
  {
    io, pool, issued, owner, sectors := [], pool0, [], [], map[];
    var first: map<nat, nat> := map[];
    for k := 0 to |marked|
      invariant |io| == k && sectors == first && b.Halfway(io, pool, issued, owner, first) && FrontTaken(pool0, pool)
    {
      TakeFromFront(pool0, pool, useCache);
      io, pool, issued, first, owner := PrepareOne(marked[k], useCache, io, pool, issued, first, owner, b);
      sectors := first;
    }
  }

  method PrepareOne(e: Io, useCache: bool, io0: seq<Io>, pool0: Pool, issued0: seq<nat>, first0: map<nat, nat>,
                    ghost owner0: seq<nat>, ghost b: Batch)
    returns (io: seq<Io>, pool: Pool, issued: seq<nat>, first: map<nat, nat>, ghost owner: seq<nat>)
    requires b.Ready() && b.useCache == useCache && b.Halfway(io0, pool0, issued0, owner0, first0)
    requires |io0| < |b.marked| && b.marked[|io0|] == e
    ensures |io| == |io0| + 1 && b.Halfway(io, pool, issued, owner, first)
    ensures pool == pool0 || pool == Take(pool0, useCache).0
  {
    if e.hit {
      b.Hit(io0, pool0, issued0, owner0, first0);
      io, pool, issued, first, owner := Appended(io0, e), pool0, issued0, first0, owner0 + [|io0|];
    } else if e.range.from in first0 && io0[first0[e.range.from]].range.to >= e.range.to {
      b.Hook(io0, pool0, issued0, owner0, first0);
      var r := first0[e.range.from];
      io, pool, issued, first, owner := HookTo(io0, r, e), pool0, issued0, first0, owner0 + [r];
    } else {
      io, pool, issued, first, owner := PrepareRead(e, useCache, io0, pool0, issued0, first0, owner0, b);
    }
  }

  /** A read of its own, into a buffer from the pool. */
  method PrepareRead(e: Io, useCache: bool, io0: seq<Io>, pool0: Pool, issued0: seq<nat>, first0: map<nat, nat>,
                     ghost owner0: seq<nat>, ghost b: Batch)
    returns (io: seq<Io>, pool: Pool, issued: seq<nat>, first: map<nat, nat>, ghost owner: seq<nat>)
    requires b.Ready() && b.useCache == useCache && b.Halfway(io0, pool0, issued0, owner0, first0)
    requires |io0| < |b.marked| && b.marked[|io0|] == e && !e.hit
    requires e.range.from in first0 ==> e.range.to > io0[first0[e.range.from]].range.to
    ensures |io| == |io0| + 1 && b.Halfway(io, pool, issued, owner, first) && pool == Take(pool0, useCache).0
  {
    b.Read(io0, pool0, issued0, owner0, first0);
    var (rest, found) := Take(pool0, useCache);
    var root := e.(root := true, buff := found.value);
    first := if e.range.from in first0 then first0 else first0[e.range.from := |io0|];
    io, pool, issued, owner := Appended(io0, root), rest, issued0 + [|io0|], owner0 + [|io0|];
  }

  /** With pages, no two reads of a batch fetch the same page. */
  lemma ReadsApart(at: Addressing, marked: seq<Io>, io: seq<Io>, owner: seq<nat>, sectors: map<nat, nat>,
                   issued: seq<nat>, i: nat, j: nat)
    requires at.paged && Prepared(at, marked, io, owner, sectors, issued)
    requires i < j < |io| && io[i].root && io[j].root
    ensures io[i].range.from != io[j].range.from
  {
  }
}
