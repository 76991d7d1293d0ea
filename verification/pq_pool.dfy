/** The read buffers of a PQ reader: free, or holding a cached page, or lent to a read. */
module PqPool {
  import opened Collections

  datatype Page = Page(id: nat, buff: nat)

  /** The stack of free buffers, the cached pages from least to most recently used, the map from page to buffer. */
  datatype Pool = Pool(free: seq<nat>, lru: seq<Page>, cached: map<nat, nat>)

  datatype Option<T> = None | Some(value: T)

  function Buffs(lru: seq<Page>): (r: seq<nat>)
    ensures |r| == |lru| && forall i :: 0 <= i < |lru| ==> r[i] == lru[i].buff
  {
    seq(|lru|, i requires 0 <= i < |lru| => lru[i].buff)
  }

  function PageIds(lru: seq<Page>): (r: seq<nat>)
    ensures |r| == |lru| && forall i :: 0 <= i < |lru| ==> r[i] == lru[i].id
  {
    seq(|lru|, i requires 0 <= i < |lru| => lru[i].id)
  }

  /** The map and the list name the same pages, each once. */
  ghost predicate Consistent(p: Pool) {
    && NoDup(PageIds(p.lru))
    && p.cached.Keys == Elems(PageIds(p.lru))
    && forall i :: 0 <= i < |p.lru| ==> p.lru[i].id in p.cached && p.cached[p.lru[i].id] == p.lru[i].buff
  }

  /** How often each buffer is held. */
  ghost function Holders(p: Pool, lent: seq<nat>): multiset<nat> {
    multiset(p.free) + multiset(Buffs(p.lru)) + multiset(lent)
  }

  /** Every one of the n buffers is held exactly once. */
  ghost predicate HeldOnce(p: Pool, lent: seq<nat>, n: nat) {
    Holders(p, lent) == multiset(Firsts(n))
  }

  /** The pinned pages are in the list, behind all others. */
  ghost predicate PinnedLast(lru: seq<Page>, pinned: set<nat>) {
    && (forall x :: x in pinned ==> x in PageIds(lru))
    && forall i, j :: 0 <= i < j < |lru| && lru[i].id in pinned ==> lru[j].id in pinned
  }

  function Position(lru: seq<Page>, id: nat): (k: nat)
    requires id in PageIds(lru)
    ensures k < |lru| && lru[k].id == id
  {
    if lru[0].id == id then 0 else
      assert id in PageIds(lru[1..]) by { assert PageIds(lru) == [lru[0].id] + PageIds(lru[1..]); }
      Position(lru[1..], id) + 1
  }

  /** A hit moves its page to the back of the list. */
  function Touch(p: Pool, id: nat): Pool
    requires id in PageIds(p.lru)
  {
    var k := Position(p.lru, id);
    p.(lru := Rotate(p.lru, k))
  }

  /** get_free_data_buffer: a free buffer, else that of the least recently used page. */
  function Take(p: Pool, useCache: bool): (Pool, Option<nat>) {
    if p.free != [] then
      (p.(free := p.free[..|p.free| - 1]), Some(p.free[|p.free| - 1]))
    else if useCache && p.lru != [] then
      (p.(lru := p.lru[1..], cached := p.cached - {p.lru[0].id}), Some(p.lru[0].buff))
    else
      (p, None)
  }

  function Store(p: Pool, id: nat, buff: nat): Pool {
    p.(lru := p.lru + [Page(id, buff)], cached := p.cached[id := buff])
  }

  function Release(p: Pool, buff: nat): Pool {
    p.(free := p.free + [buff])
  }

  // ------------------------------------------------------------------ what the operations keep

  /** An element moves to the back. */
  function Rotate<T>(s: seq<T>, k: nat): (r: seq<T>)
    requires k < |s|
    ensures |r| == |s|
    ensures forall i :: 0 <= i < |s| ==> r[i] == if i < k then s[i] else if i < |s| - 1 then s[i + 1] else s[k]
  {
    s[..k] + s[k + 1..] + [s[k]]
  }

  lemma RotateSame<T>(s: seq<T>, k: nat)
    requires k < |s|
    ensures multiset(Rotate(s, k)) == multiset(s)
  {
    assert s == s[..k] + [s[k]] + s[k + 1..];
  }

  lemma RotateMembers<T>(s: seq<T>, k: nat)
    requires k < |s|
    ensures forall x :: x in Rotate(s, k) <==> x in s
  {
    RotateSame(s, k);
    forall x ensures x in Rotate(s, k) <==> x in s { assert x in multiset(Rotate(s, k)) <==> x in multiset(s); }
  }

  lemma RotateNoDup<T>(s: seq<T>, k: nat)
    requires k < |s| && NoDup(s)
    ensures NoDup(Rotate(s, k))
  {
  }

  lemma RotateParts(lru: seq<Page>, k: nat)
    requires k < |lru|
    ensures PageIds(Rotate(lru, k)) == Rotate(PageIds(lru), k) && Buffs(Rotate(lru, k)) == Rotate(Buffs(lru), k)
  {
  }

  lemma RotatePins(lru: seq<Page>, k: nat, pinned: set<nat>)
    requires k < |lru| && PinnedLast(lru, pinned) && NoDup(PageIds(lru))
    ensures PinnedLast(Rotate(lru, k), pinned + {lru[k].id})
  {
    assert forall i :: 0 <= i < |lru| && i != k ==> PageIds(lru)[i] != PageIds(lru)[k];
    RotateParts(lru, k);
    RotateMembers(PageIds(lru), k);
    assert PageIds(lru)[k] in PageIds(lru);
  }

  lemma TouchConsistent(p: Pool, k: nat)
    requires Consistent(p) && k < |p.lru|
    ensures Consistent(p.(lru := Rotate(p.lru, k)))
  {
    var now := Rotate(p.lru, k);
    RotateParts(p.lru, k);
    RotateNoDup(PageIds(p.lru), k);
    assert Elems(Rotate(PageIds(p.lru), k)) == Elems(PageIds(p.lru)) by { RotateMembers(PageIds(p.lru), k); }
    forall i | 0 <= i < |now| ensures now[i].id in p.cached && p.cached[now[i].id] == now[i].buff {
      var j := if i < k then i else if i < |now| - 1 then i + 1 else k;
      assert now[i] == p.lru[j];
    }
  }

  /** A hit keeps list and map consistent and loses no buffer; its page joins the pinned ones at the back. */
  lemma TouchKeeps(p: Pool, id: nat, pinned: set<nat>)
    requires Consistent(p) && id in p.cached && PinnedLast(p.lru, pinned)
    ensures id in PageIds(p.lru)
    ensures Consistent(Touch(p, id)) && PinnedLast(Touch(p, id).lru, pinned + {id})
    ensures multiset(Buffs(Touch(p, id).lru)) == multiset(Buffs(p.lru))
    ensures forall e :: e in Touch(p, id).lru <==> e in p.lru
  {
    assert id in Elems(PageIds(p.lru));
    var k := Position(p.lru, id);
    TouchConsistent(p, k);
    RotatePins(p.lru, k, pinned);
    RotateParts(p.lru, k);
    RotateSame(Buffs(p.lru), k);
    RotateMembers(p.lru, k);
  }

  /** Taking a buffer keeps list and map consistent; the buffer is now lent. */
  lemma TakeKeeps(p: Pool, useCache: bool, lent: seq<nat>, pinned: set<nat>)
    requires Consistent(p) && PinnedLast(p.lru, pinned) && |pinned| < |p.free| + |p.lru|
    requires !useCache ==> p.lru == []
    ensures var (q, b) := Take(p, useCache);
      b.Some? && Consistent(q) && PinnedLast(q.lru, pinned) && Holders(q, lent + [b.value]) == Holders(p, lent)
      && q.cached.Keys <= p.cached.Keys && (forall e :: e in q.lru ==> e in p.lru)
      && (forall x :: x in pinned ==> x in q.cached && x in p.cached && q.cached[x] == p.cached[x])
  {
    PinnedAreCached(p, pinned);
    if p.free != [] { LastFree(p, lent); } else { TakeFront(p, lent, pinned); }
  }

  lemma LastFree(p: Pool, lent: seq<nat>)
    requires p.free != []
    ensures Holders(p.(free := p.free[..|p.free| - 1]), lent + [p.free[|p.free| - 1]]) == Holders(p, lent)
  {
    assert p.free == p.free[..|p.free| - 1] + [p.free[|p.free| - 1]];
  }

  lemma TakeFront(p: Pool, lent: seq<nat>, pinned: set<nat>)
    requires Consistent(p) && PinnedLast(p.lru, pinned) && |pinned| < |p.lru|
    ensures var q := p.(lru := p.lru[1..], cached := p.cached - {p.lru[0].id});
      Consistent(q) && PinnedLast(q.lru, pinned) && Holders(q, lent + [p.lru[0].buff]) == Holders(p, lent)
      && (forall x :: x in pinned ==> x in q.cached && x in p.cached && q.cached[x] == p.cached[x])
  {
    FrontIsNotPinned(p.lru, pinned);
    FrontLeaves(p);
    FrontPins(p.lru, pinned);
    PinnedAreCached(p, pinned);
    FrontBuffer(p.lru, p.free, lent);
  }

  lemma FrontBuffer(lru: seq<Page>, free: seq<nat>, lent: seq<nat>)
    requires lru != []
    ensures multiset(free) + multiset(Buffs(lru[1..])) + multiset(lent + [lru[0].buff])
      == multiset(free) + multiset(Buffs(lru)) + multiset(lent)
  {
    assert Buffs(lru) == [lru[0].buff] + Buffs(lru[1..]);
  }

  lemma PinnedAreCached(p: Pool, pinned: set<nat>)
    requires Consistent(p) && PinnedLast(p.lru, pinned)
    ensures forall x :: x in pinned ==> x in p.cached
  {
    forall x | x in pinned ensures x in p.cached { assert x in Elems(PageIds(p.lru)); }
  }

  lemma FrontPins(lru: seq<Page>, pinned: set<nat>)
    requires lru != [] && PinnedLast(lru, pinned) && lru[0].id !in pinned
    ensures PinnedLast(lru[1..], pinned)
  {
    assert PageIds(lru) == [lru[0].id] + PageIds(lru[1..]);
    forall x | x in pinned ensures x in PageIds(lru[1..]) { assert x in PageIds(lru); }
  }

  lemma FrontIsNotPinned(lru: seq<Page>, pinned: set<nat>)
    requires PinnedLast(lru, pinned) && NoDup(PageIds(lru)) && |pinned| < |lru|
    ensures lru[0].id !in pinned
  {
    if lru[0].id in pinned {
      assert forall x :: x in PageIds(lru) ==> x in pinned;
      ElemsSize(PageIds(lru));
      SubsetSize(Elems(PageIds(lru)), pinned);
      assert false;
    }
  }

  lemma FrontLeaves(p: Pool)
    requires Consistent(p) && p.lru != []
    ensures Consistent(p.(lru := p.lru[1..], cached := p.cached - {p.lru[0].id}))
  {
    var q := p.(lru := p.lru[1..], cached := p.cached - {p.lru[0].id});
    HeadLeaves(PageIds(p.lru));
    assert PageIds(q.lru) == PageIds(p.lru)[1..];
    forall i | 0 <= i < |q.lru| ensures q.lru[i].id in q.cached && q.cached[q.lru[i].id] == q.lru[i].buff {
      assert q.lru[i] == p.lru[i + 1];
      assert PageIds(p.lru)[0] != PageIds(p.lru)[i + 1];
    }
  }

  lemma HeadLeaves(s: seq<nat>)
    requires NoDup(s) && s != []
    ensures NoDup(s[1..]) && Elems(s[1..]) == Elems(s) - {s[0]}
  {
    assert s == [s[0]] + s[1..];
    forall x | x in s[1..] ensures x != s[0] {
      var i :| 0 <= i < |s| - 1 && s[1..][i] == x;
      assert s[0] != s[i + 1];
    }
  }

  /** A page that is not cached yet enters at the back; its buffer is no longer lent. */
  lemma StoreKeeps(p: Pool, id: nat, buff: nat, lent: seq<nat>)
    requires Consistent(p) && id !in p.cached
    ensures Consistent(Store(p, id, buff))
    ensures Holders(Store(p, id, buff), lent) == Holders(p, [buff] + lent)
  {
    var q := Store(p, id, buff);
    assert PageIds(q.lru) == PageIds(p.lru) + [id];
    assert Buffs(q.lru) == Buffs(p.lru) + [buff];
    assert multiset([buff] + lent) == multiset{buff} + multiset(lent);
    NoDupSnoc(PageIds(p.lru), id);
    forall i | 0 <= i < |q.lru| ensures q.lru[i].id in q.cached && q.cached[q.lru[i].id] == q.lru[i].buff {
      if i < |p.lru| { assert PageIds(p.lru)[i] in Elems(PageIds(p.lru)); }
    }
  }

  lemma ReleaseKeeps(p: Pool, buff: nat, lent: seq<nat>)
    requires Consistent(p)
    ensures Consistent(Release(p, buff)) && Holders(Release(p, buff), lent) == Holders(p, [buff] + lent)
  {
    assert multiset([buff] + lent) == multiset{buff} + multiset(lent);
  }

  // ------------------------------------------------------------------ counting

  function Firsts(n: nat): (r: seq<nat>)
    ensures |r| == n
  {
    if n == 0 then [] else Firsts(n - 1) + [n - 1]
  }

  lemma {:induction false} FirstsOnce(n: nat)
    ensures forall b: nat :: multiset(Firsts(n))[b] == if b < n then 1 else 0
  {
    if n != 0 { FirstsOnce(n - 1); }
  }

  /** No buffer is lost: those free, those in the list and those lent are n together. */
  lemma HeldCount(p: Pool, lent: seq<nat>, n: nat)
    requires HeldOnce(p, lent, n)
    ensures |p.free| + |p.lru| + |lent| == n
  {
    assert |Holders(p, lent)| == |p.free| + |Buffs(p.lru)| + |lent|;
    assert |multiset(Firsts(n))| == n;
  }

  lemma OnceApart(s: seq<nat>, i: nat, j: nat)
    requires i < j < |s| && multiset(s)[s[i]] <= 1
    ensures s[i] != s[j]
  {
    var x := s[i];
    assert s == s[..i] + [s[i]] + s[i + 1..];
    assert multiset(s) == multiset(s[..i]) + multiset{x} + multiset(s[i + 1..]);
    assert x !in multiset(s[i + 1..]);
    assert s[j] == s[i + 1..][j - i - 1] && s[j] in s[i + 1..];
  }

  /** Buffers in different hands are different. */
  lemma HandsApart(p: Pool, lent: seq<nat>, n: nat)
    requires HeldOnce(p, lent, n)
    ensures NoDup(lent) && NoDup(Buffs(p.lru)) && NoDup(p.free)
    ensures forall b :: b in lent ==> b < n && b !in Buffs(p.lru) && b !in p.free
    ensures forall b :: b in Buffs(p.lru) ==> b < n && b !in p.free
  {
    var all := Holders(p, lent);
    FirstsOnce(n);
    forall b | b in lent ensures b < n && b !in Buffs(p.lru) && b !in p.free {
      assert multiset(lent)[b] >= 1 && all[b] >= 1;
    }
    forall b | b in Buffs(p.lru) ensures b < n && b !in p.free {
      assert multiset(Buffs(p.lru))[b] >= 1 && all[b] >= 1;
    }
    forall i, j | 0 <= i < j < |lent| ensures lent[i] != lent[j] { assert all[lent[i]] <= 1; OnceApart(lent, i, j); }
    forall i, j | 0 <= i < j < |p.lru| ensures Buffs(p.lru)[i] != Buffs(p.lru)[j] {
      assert all[Buffs(p.lru)[i]] <= 1;
      OnceApart(Buffs(p.lru), i, j);
    }
    forall i, j | 0 <= i < j < |p.free|
      ensures p.free[i] != p.free[j] { assert all[p.free[i]] <= 1; OnceApart(p.free, i, j); }
  }

  /** clear_page_cache: every cached page gives its buffer back. */
  method Clear(p: Pool) returns (r: Pool)
    ensures r.lru == [] && r.cached == map[] && Consistent(r)
    ensures forall lent :: Holders(r, lent) == Holders(p, lent)
  {
    r := p;
    while r.lru != []
      invariant multiset(r.free) + multiset(Buffs(r.lru)) == multiset(p.free) + multiset(Buffs(p.lru))
      decreases |r.lru|
    {
      var last := r.lru[|r.lru| - 1];
      assert Buffs(r.lru) == Buffs(r.lru[..|r.lru| - 1]) + [last.buff];
      r := r.(free := r.free + [last.buff], lru := r.lru[..|r.lru| - 1]);
    }
    r := r.(cached := map[]);
  }
}
