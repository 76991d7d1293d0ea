/** When the pages of a reader were last used, and the page list as the list of cached pages by last use. */
module PageRecency {
  import opened Collections
  import opened PqPool

  /** The position of the last use of page x. */
  function LastUse(uses: seq<nat>, x: nat): (k: nat)
    requires x in uses
    ensures k < |uses| && uses[k] == x && forall j :: k < j < |uses| ==> uses[j] != x
  {
    if uses[|uses| - 1] == x then |uses| - 1 else LastUse(uses[..|uses| - 1], x)
  }

  ghost predicate UsedBefore(uses: seq<nat>, x: nat, y: nat) {
    x in uses && y in uses && LastUse(uses, x) < LastUse(uses, y)
  }

  /** The pages, each once, the least recently used first. */
  ghost predicate ByUse(pages: seq<nat>, uses: seq<nat>) {
    && (forall i :: 0 <= i < |pages| ==> pages[i] in uses)
    && forall i, j {:trigger UsedBefore(uses, pages[i], pages[j])} :: 0 <= i < j < |pages| ==>
        UsedBefore(uses, pages[i], pages[j])
  }

  lemma LastUseIs(uses: seq<nat>, x: nat, k: nat)
    requires k < |uses| && uses[k] == x && forall j :: k < j < |uses| ==> uses[j] != x
    ensures x in uses && LastUse(uses, x) == k
  {
  }

  /** A use of y is the last one of y, and leaves those of other pages alone. */
  lemma OneMoreUse(uses: seq<nat>, y: nat, x: nat)
    ensures x in uses + [y] <==> x in uses || x == y
    ensures x == y ==> LastUse(uses + [y], x) == |uses|
    ensures x != y && x in uses ==> LastUse(uses + [y], x) == LastUse(uses, x)
  {
    var now := uses + [y];
    if x == y {
      LastUseIs(now, x, |uses|);
    } else if x in uses {
      var k := LastUse(uses, x);
      assert now[k] == x;
      LastUseIs(now, x, k);
    }
  }

  /** A page used moves to the back. */
  lemma HitIsLatest(pages: seq<nat>, k: nat, uses: seq<nat>)
    requires ByUse(pages, uses) && k < |pages|
    ensures ByUse(Rotate(pages, k), uses + [pages[k]])
  {
    var now, later := Rotate(pages, k), uses + [pages[k]];
    forall i | 0 <= i < |pages| ensures pages[i] in later { OneMoreUse(uses, pages[k], pages[i]); }
    forall i, j | 0 <= i < j < |now| ensures UsedBefore(later, now[i], now[j]) {
      var a, b := if i < k then i else i + 1, if j < k then j else if j < |now| - 1 then j + 1 else k;
      assert now[i] == pages[a] && now[j] == pages[b] && a != k;
      OneMoreUse(uses, pages[k], now[i]);
      OneMoreUse(uses, pages[k], now[j]);
      assert a < k ==> UsedBefore(uses, pages[a], pages[k]);
      assert k < a ==> UsedBefore(uses, pages[k], pages[a]);
      assert b != k ==> UsedBefore(uses, pages[a], pages[b]);
      assert k < b ==> UsedBefore(uses, pages[k], pages[b]);
      assert b < k ==> UsedBefore(uses, pages[b], pages[k]);
    }
  }

  /** A page read joins at the back. */
  lemma ReadIsLatest(pages: seq<nat>, id: nat, uses: seq<nat>)
    requires ByUse(pages, uses) && id !in pages
    ensures ByUse(pages + [id], uses + [id])
  {
    var now, later := pages + [id], uses + [id];
    forall i | 0 <= i < |now| ensures now[i] in later { OneMoreUse(uses, id, now[i]); }
    forall i, j | 0 <= i < j < |now| ensures UsedBefore(later, now[i], now[j]) {
      assert now[i] == pages[i] && pages[i] in pages;
      assert j < |pages| ==> now[j] == pages[j] && pages[j] in pages && UsedBefore(uses, pages[i], pages[j]);
      OneMoreUse(uses, id, now[i]);
      OneMoreUse(uses, id, now[j]);
    }
  }

  /** Pages read one after the other. */
  lemma {:induction false} ReadsAreLatest(pages: seq<nat>, fetched: seq<nat>, uses: seq<nat>)
    requires ByUse(pages, uses) && NoDup(pages + fetched)
    ensures ByUse(pages + fetched, uses + fetched)
  {
    if fetched == [] {
      assert pages + fetched == pages && uses + fetched == uses;
    } else {
      var init, last := fetched[..|fetched| - 1], fetched[|fetched| - 1];
      assert pages + fetched == (pages + init) + [last] && uses + fetched == (uses + init) + [last];
      NoDupSnoc(pages + init, last);
      ReadsAreLatest(pages, init, uses);
      ReadIsLatest(pages + init, last, uses + init);
    }
  }

  /** What is dropped from the front was last used before everything that stays. */
  lemma OldestLeave(pages: seq<nat>, n: nat, uses: seq<nat>)
    requires ByUse(pages, uses) && n <= |pages|
    ensures ByUse(pages[n..], uses)
    ensures forall x, y :: x in pages && x !in pages[n..] && y in pages[n..] ==> UsedBefore(uses, x, y)
  {
    forall k | n <= k < |pages| ensures pages[k] in pages[n..] { assert pages[n..][k - n] == pages[k]; }
    forall x, y | x in pages && x !in pages[n..] && y in pages[n..] ensures UsedBefore(uses, x, y) {
      var i :| 0 <= i < |pages| && pages[i] == x;
      var j :| 0 <= j < |pages| - n && pages[n..][j] == y;
      assert pages[n + j] == y;
    }
  }

  /** The uses and the set of cached pages determine the list. */
  lemma {:induction false} ListIsDetermined(a: seq<nat>, b: seq<nat>, uses: seq<nat>)
    requires ByUse(a, uses) && ByUse(b, uses) && forall x :: x in a <==> x in b
    ensures a == b
  {
    SameEmptiness(a, b);
    if a != [] {
      assert a[0] in b;
      FirstAlike(a, b, uses);
      RestAlike(a, b, uses);
      ListIsDetermined(a[1..], b[1..], uses);
      assert a == [a[0]] + a[1..] && b == [b[0]] + b[1..];
    }
  }

  lemma SameEmptiness(a: seq<nat>, b: seq<nat>)
    requires forall x :: x in a <==> x in b
    ensures a == [] <==> b == []
  {
    if a != [] { assert a[0] in b; }
    if b != [] { assert b[0] in a; }
  }

  lemma FirstAlike(a: seq<nat>, b: seq<nat>, uses: seq<nat>)
    requires ByUse(a, uses) && ByUse(b, uses) && a != [] && b != []
    requires forall x :: x in a <==> x in b
    ensures a[0] == b[0]
  {
    assert a[0] in b && b[0] in a;
    var i :| 0 <= i < |b| && b[i] == a[0];
    var j :| 0 <= j < |a| && a[j] == b[0];
    assert i != 0 ==> UsedBefore(uses, b[0], b[i]);
    assert j != 0 ==> UsedBefore(uses, a[0], a[j]);
  }

  lemma RestAlike(a: seq<nat>, b: seq<nat>, uses: seq<nat>)
    requires ByUse(a, uses) && ByUse(b, uses) && a != [] && b != [] && a[0] == b[0]
    requires forall x :: x in a <==> x in b
    ensures ByUse(a[1..], uses) && ByUse(b[1..], uses) && forall x :: x in a[1..] <==> x in b[1..]
  {
    OldestLeave(a, 1, uses);
    OldestLeave(b, 1, uses);
    forall x ensures x in a[1..] <==> x in a && x != a[0] { InRest(a, uses, x); }
    forall x ensures x in b[1..] <==> x in b && x != b[0] { InRest(b, uses, x); }
  }

  lemma InRest(a: seq<nat>, uses: seq<nat>, x: nat)
    requires ByUse(a, uses) && a != []
    ensures x in a[1..] <==> x in a && x != a[0]
  {
    assert a == [a[0]] + a[1..];
    if x in a[1..] {
      var i :| 0 <= i < |a| - 1 && a[1..][i] == x;
      assert a[i + 1] == x && UsedBefore(uses, a[0], a[i + 1]);
    }
  }

  /** Uses before and after: the last use of x. */
  lemma LastOfBoth(uses: seq<nat>, more: seq<nat>, x: nat)
    ensures x in uses + more <==> x in uses || x in more
    ensures x in more ==> LastUse(uses + more, x) == |uses| + LastUse(more, x)
    ensures x !in more && x in uses ==> LastUse(uses + more, x) == LastUse(uses, x)
  {
    var all := uses + more;
    if x in more {
      var k := LastUse(more, x);
      assert all[|uses| + k] == x;
      LastUseIs(all, x, |uses| + k);
    } else if x in uses {
      var k := LastUse(uses, x);
      assert all[k] == x;
      LastUseIs(all, x, k);
    }
  }

  /** The list after more uses: first the pages not used, in their old order, then those used, by their last use. */
  ghost predicate Reordered(was: seq<nat>, more: seq<nat>, now: seq<nat>, i: nat, j: nat)
    requires i < j < |now|
  {
    && (now[i] in more ==> now[j] in more && LastUse(more, now[i]) < LastUse(more, now[j]))
    && (now[j] !in more ==> exists a, b :: 0 <= a < b < |was| && was[a] == now[i] && was[b] == now[j])
  }

  lemma OrderAfterUses(was: seq<nat>, uses: seq<nat>, now: seq<nat>, more: seq<nat>)
    requires ByUse(was, uses) && ByUse(now, uses + more)
    requires forall i :: 0 <= i < |now| ==> now[i] in was || now[i] in more
    ensures forall i, j :: 0 <= i < j < |now| ==> Reordered(was, more, now, i, j)
  {
    forall i, j | 0 <= i < j < |now| ensures Reordered(was, more, now, i, j) {
      assert UsedBefore(uses + more, now[i], now[j]);
      LastOfBoth(uses, more, now[i]);
      LastOfBoth(uses, more, now[j]);
      if now[j] !in more {
        var a :| 0 <= a < |was| && was[a] == now[i];
        var b :| 0 <= b < |was| && was[b] == now[j];
        assert b < a ==> UsedBefore(uses, was[b], was[a]);
      }
    }
  }

  lemma NothingCached(uses: seq<nat>)
    ensures ByUse(PageIds([]), uses)
  {
  }

  /** A hit in the list of a pool. */
  lemma TouchIsLatest(p: Pool, id: nat, uses: seq<nat>)
    requires ByUse(PageIds(p.lru), uses) && id in PageIds(p.lru)
    ensures ByUse(PageIds(Touch(p, id).lru), uses + [id])
  {
    var k := Position(p.lru, id);
    RotateParts(p.lru, k);
    HitIsLatest(PageIds(p.lru), k, uses);
  }

  /** Buffers are taken from the front: q is what p's list leaves, and pages go only when no buffer is free. */
  ghost predicate FrontTaken(p: Pool, q: Pool) {
    |q.lru| <= |p.lru| && q.lru == p.lru[|p.lru| - |q.lru|..] && (|q.lru| < |p.lru| ==> q.free == [])
  }

  lemma TakeFromFront(p: Pool, q: Pool, useCache: bool)
    requires FrontTaken(p, q)
    ensures FrontTaken(p, Take(q, useCache).0)
  {
  }

  /** A page evicted was last used before every page that stays. */
  lemma EvictedAreOldest(p: Pool, q: Pool, uses: seq<nat>)
    requires Consistent(p) && Consistent(q) && FrontTaken(p, q) && ByUse(PageIds(p.lru), uses)
    ensures ByUse(PageIds(q.lru), uses)
    ensures forall x, y :: x in p.cached && x !in q.cached && y in q.cached ==> UsedBefore(uses, x, y)
  {
    var n := |p.lru| - |q.lru|;
    assert PageIds(q.lru) == PageIds(p.lru)[n..];
    OldestLeave(PageIds(p.lru), n, uses);
    assert forall x :: x in p.cached ==> x in Elems(PageIds(p.lru));
    assert forall x :: x in q.cached <==> x in Elems(PageIds(q.lru));
  }
}
