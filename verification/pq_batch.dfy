/** One batch of PQ vector reads: requests that a pending read covers are hooked to it. */
module PqBatch {
  import opened Collections
  import opened PqLayout

  /** io_data: a read of its own (root), a cache hit, or hooked to a root; hooked is the next index of the chain, -1 at
      its end. */
  datatype Io = Io(root: bool, hit: bool, hooked: int, range: Range, id: nat, index: nat, buff: nat)

  /** A link leads to an entry that is no root; between such entries it leads down. */
  ghost predicate LinkOk(io: seq<Io>, x: nat)
    requires x < |io|
  {
    var h := io[x].hooked;
    -1 <= h < |io| && (h >= 0 ==> !io[h].root) && (!io[x].root ==> h < x)
  }

  ghost predicate Linked(io: seq<Io>) {
    forall x {:trigger LinkOk(io, x)} :: 0 <= x < |io| ==> LinkOk(io, x)
  }

  /** The entries from i along the links. */
  ghost function Tail(io: seq<Io>, i: int): (t: seq<nat>)
    requires Linked(io) && -1 <= i < |io| && (i >= 0 ==> !io[i].root)
    decreases i
  {
    if i < 0 then [] else
      assert LinkOk(io, i);
      [i] + Tail(io, io[i].hooked)
  }

  /** A root and the entries hooked to it, newest first. */
  ghost function Chain(io: seq<Io>, r: nat): seq<nat>
    requires Linked(io) && r < |io|
  {
    assert LinkOk(io, r);
    [r] + Tail(io, io[r].hooked)
  }

  /** Who reads for whom: owner names the root of every entry that is no hit. */
  ghost predicate OwnedAt(io: seq<Io>, owner: seq<nat>, i: nat)
    requires i < |io| == |owner|
  {
    if io[i].hit then !io[i].root
    else
      var r := owner[i];
      && r <= i && io[r].root && !io[r].hit && (io[i].root <==> r == i)
      && io[r].range.from == io[i].range.from && io[i].range.to <= io[r].range.to && io[r].buff == io[i].buff
  }

  ghost predicate ChainIs(io: seq<Io>, owner: seq<nat>, r: nat)
    requires Linked(io) && r < |io| == |owner|
  {
    && NoDup(Chain(io, r))
    && forall x: nat :: x in Chain(io, r) <==> x < |io| && !io[x].hit && owner[x] == r
  }

  /** The chains divide the entries that are no hits among the roots. */
  ghost predicate Hooked(io: seq<Io>, owner: seq<nat>) {
    && |owner| == |io| && Linked(io)
    && (forall i {:trigger OwnedAt(io, owner, i)} :: 0 <= i < |io| ==> OwnedAt(io, owner, i))
    && (forall r {:trigger ChainIs(io, owner, r)} :: 0 <= r < |io| && io[r].root ==> ChainIs(io, owner, r))
  }

  // ------------------------------------------------------------------ the three ways an entry joins

  lemma {:induction false} TailSame(a: seq<Io>, b: seq<Io>, i: int)
    requires Linked(a) && Linked(b) && |a| <= |b| && -1 <= i < |a| && (i >= 0 ==> !a[i].root)
    requires forall x :: 0 <= x < |a| ==> (a[x].root == b[x].root && (!a[x].root ==> a[x].hooked == b[x].hooked))
    ensures Tail(b, i) == Tail(a, i)
    decreases i
  {
    if i >= 0 {
      assert LinkOk(a, i);
      TailSame(a, b, a[i].hooked);
    }
  }

  /** A new entry at the end that nobody is linked to. */
  function Appended(io: seq<Io>, e: Io): (r: seq<Io>)
    ensures |r| == |io| + 1 && r[|io|] == e && forall x :: 0 <= x < |io| ==> r[x] == io[x]
  {
    io + [e]
  }

  lemma AppendedLinked(io: seq<Io>, e: Io)
    requires Linked(io) && e.hooked == -1
    ensures Linked(Appended(io, e))
    ensures forall r :: 0 <= r < |io| ==> Chain(Appended(io, e), r) == Chain(io, r)
    ensures Chain(Appended(io, e), |io|) == [|io|]
  {
    var now := Appended(io, e);
    forall x | 0 <= x < |now| ensures LinkOk(now, x) { assert x < |io| ==> LinkOk(io, x); }
    forall r | 0 <= r < |io| ensures Chain(now, r) == Chain(io, r) {
      assert LinkOk(io, r);
      TailSame(io, now, io[r].hooked);
    }
  }

  /** A hit or a read of its own. */
  lemma AppendKeepsHooked(io: seq<Io>, owner: seq<nat>, e: Io)
    requires Hooked(io, owner) && e.hooked == -1 && e.root == !e.hit
    ensures Hooked(Appended(io, e), owner + [|io|])
  {
    var now, own := Appended(io, e), owner + [|io|];
    AppendedLinked(io, e);
    forall i | 0 <= i < |now| ensures OwnedAt(now, own, i) { assert i < |io| ==> OwnedAt(io, owner, i); }
    forall r | 0 <= r < |now| && now[r].root ensures ChainIs(now, own, r) {
      if r < |io| {
        assert ChainIs(io, owner, r) && Chain(now, r) == Chain(io, r);
      } else {
        forall x: nat ensures x in Chain(now, r) <==> x < |now| && !now[x].hit && own[x] == r {
          assert x < |io| ==> OwnedAt(io, owner, x);
        }
      }
    }
  }

  /** A request that root r covers is put first in its chain. */
  function HookTo(io: seq<Io>, r: nat, e: Io): (now: seq<Io>)
    requires r < |io|
    ensures |now| == |io| + 1
    ensures now[|io|] == e.(root := false, hit := false, hooked := io[r].hooked, buff := io[r].buff)
    ensures now[r] == io[r].(hooked := |io|)
    ensures forall x :: 0 <= x < |io| && x != r ==> now[x] == io[x]
  {
    io[r := io[r].(hooked := |io|)] + [e.(root := false, hit := false, hooked := io[r].hooked, buff := io[r].buff)]
  }

  lemma HookLinked(io: seq<Io>, r: nat, e: Io)
    requires Linked(io) && r < |io| && io[r].root
    ensures Linked(HookTo(io, r, e))
    ensures forall s :: 0 <= s < |io| && s != r ==> Chain(HookTo(io, r, e), s) == Chain(io, s)
    ensures Chain(HookTo(io, r, e), r) == [r, |io|] + Chain(io, r)[1..]
  {
    var now := HookTo(io, r, e);
    assert LinkOk(io, r);
    forall x | 0 <= x < |now| ensures LinkOk(now, x) { assert x < |io| ==> LinkOk(io, x); }
    forall s | 0 <= s < |io| && s != r ensures Chain(now, s) == Chain(io, s) {
      assert LinkOk(io, s);
      TailSame(io, now, io[s].hooked);
    }
    TailSame(io, now, io[r].hooked);
    assert LinkOk(now, |io|);
    assert Tail(now, |io|) == [|io|] + Tail(now, io[r].hooked);
  }

  lemma HookKeepsHooked(io: seq<Io>, owner: seq<nat>, r: nat, e: Io)
    requires Hooked(io, owner) && r < |io| && io[r].root && io[r].range.from == e.range.from
      && e.range.to <= io[r].range.to
    ensures Hooked(HookTo(io, r, e), owner + [r])
  {
    var now, own := HookTo(io, r, e), owner + [r];
    HookLinked(io, r, e);
    assert OwnedAt(io, owner, r);
    forall i | 0 <= i < |now| ensures OwnedAt(now, own, i) { assert i < |io| ==> OwnedAt(io, owner, i); }
    forall s | 0 <= s < |now| && now[s].root ensures ChainIs(now, own, s) {
      assert ChainIs(io, owner, s);
      if s == r { HookChain(io, owner, r, e); }
    }
  }

  lemma HookChain(io: seq<Io>, owner: seq<nat>, r: nat, e: Io)
    requires Hooked(io, owner) && r < |io| && io[r].root && Linked(HookTo(io, r, e))
    requires Chain(HookTo(io, r, e), r) == [r, |io|] + Chain(io, r)[1..]
    ensures ChainIs(HookTo(io, r, e), owner + [r], r)
  {
    assert ChainIs(io, owner, r);
    var c := Chain(io, r);
    var now := HookTo(io, r, e);
    var d := Chain(now, r);
    assert c[0] == r && c == [r] + c[1..];
    forall x: nat ensures x in d <==> x in c || x == |io| { }
    forall i, j | 0 <= i < j < |d| ensures d[i] != d[j] {
      assert i > 1 ==> d[i] == c[i - 1];
      assert j > 1 ==> d[j] == c[j - 1] && c[j - 1] in c;
      assert c[0] in c;
    }
    assert OwnedAt(io, owner, r);
  }
}
