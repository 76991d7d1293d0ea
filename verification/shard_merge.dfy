/** Merging the graphs of overlapping shards into one graph file. */
module ShardMerge {
  import opened Arithmetic
  import opened Collections
  import opened GraphFile

  /** Shards: which nodes each holds, in ascending order, and the lists of these, in shard-local ids. */
  datatype Shards = Shards(idmaps: seq<seq<nat>>, lists: seq<seq<seq<nat>>>) {
    ghost predicate Valid() {
      && |idmaps| == |lists|
      && forall s {:trigger ShardOk(s)} :: 0 <= s < |idmaps| ==> ShardOk(s)
    }

    ghost predicate ShardOk(s: nat)
      requires s < |idmaps| == |lists|
    {
      && |lists[s]| == |idmaps[s]|
      && (forall i, j :: 0 <= i < j < |idmaps[s]| ==> idmaps[s][i] < idmaps[s][j])
      && forall j {:trigger lists[s][j]} :: 0 <= j < |lists[s]| ==> Below(lists[s][j], |idmaps[s]|)
    }

    ghost predicate Holds(e: Entry) {
      e.shard < |idmaps| && e.node in idmaps[e.shard]
    }

    /** What shard s says about the node at its place j, in global ids. */
    ghost function Said(s: nat, j: nat): (r: set<nat>)
      requires Valid() && s < |idmaps| && j < |idmaps[s]|
    {
      assert ShardOk(s);
      set y | 0 <= y < |lists[s][j]| :: idmaps[s][lists[s][j][y]]
    }

    /** What the shards in the given entries say about a node. */
    ghost predicate SaidIn(node: nat, entries: seq<Entry>, x: nat)
      requires Valid()
    {
      exists s: nat, j: nat {:trigger Said(s, j)} ::
        s < |idmaps| && j < |idmaps[s]| && idmaps[s][j] == node && Entry(node, s) in entries && x in Said(s, j)
    }

    /** The neighbours of a node: the union over all shards that hold it. */
    ghost predicate Neighbour(node: nat, x: nat)
      requires Valid()
    {
      exists s: nat, j: nat {:trigger Said(s, j)} :: s < |idmaps| && j < |idmaps[s]| && idmaps[s][j] == node
        && x in Said(s, j)
    }
  }

  /** A node in a shard. */
  datatype Entry = Entry(node: nat, shard: nat)

  predicate Before(a: Entry, b: Entry) {
    a.node < b.node || (a.node == b.node && a.shard < b.shard)
  }

  ghost predicate Sorted(entries: seq<Entry>) {
    forall i, j :: 0 <= i < j < |entries| ==> Before(entries[i], entries[j])
  }

  // ------------------------------------------------------------------ the inverse map

  /** Puts an entry in its place. */
  function Put(entries: seq<Entry>, e: Entry): (r: seq<Entry>)
    ensures |r| == |entries| + 1
    ensures forall x :: x in r <==> x in entries || x == e
  {
    if entries == [] then [e]
    else
      var last := entries[|entries| - 1];
      assert entries == entries[..|entries| - 1] + [last];
      if Before(last, e) then entries + [e] else Put(entries[..|entries| - 1], e) + [last]
  }

  lemma {:induction false} PutSorted(entries: seq<Entry>, e: Entry)
    requires Sorted(entries) && e !in entries
    ensures Sorted(Put(entries, e))
  {
    if entries != [] {
      var init, last := entries[..|entries| - 1], entries[|entries| - 1];
      PutSorted(init, e);
      var r := Put(init, e);
      forall i | 0 <= i < |r| && !Before(last, e) ensures Before(r[i], last) {
        assert r[i] in r;
        assert last in entries && last != e;
        if r[i] in init { var k :| 0 <= k < |init| && init[k] == r[i]; }
      }
    }
  }

  /** All entries, sorted by node and then by shard. */
  method InverseMap(ghost sh: Shards, idmaps: seq<seq<nat>>) returns (entries: seq<Entry>)
    requires sh.Valid() && sh.idmaps == idmaps
    ensures Sorted(entries) && forall e :: e in entries <==> sh.Holds(e)
  {
    entries := [];
    for s := 0 to |idmaps|
      invariant Sorted(entries) && forall e :: e in entries <==> sh.Holds(e) && e.shard < s
    {
      for j := 0 to |idmaps[s]|
        invariant Sorted(entries)
        invariant forall e :: e in entries <==>
          sh.Holds(e) && (e.shard < s || (e.shard == s && e.node in idmaps[s][..j]))
      {
        assert sh.ShardOk(s);
        assert idmaps[s][..j + 1] == idmaps[s][..j] + [idmaps[s][j]];
        PutSorted(entries, Entry(idmaps[s][j], s));
        entries := Put(entries, Entry(idmaps[s][j], s));
      }
      assert idmaps[s][..|idmaps[s]|] == idmaps[s];
    }
  }

  // ------------------------------------------------------------------ reading the shards side by side

  /** The unread words of every shard are the records from its place on. */
  ghost predicate ReadersAt(sh: Shards, rest: seq<seq<nat>>, idx: seq<nat>) {
    && |rest| == |idx| == |sh.lists|
    && forall s {:trigger rest[s]} :: 0 <= s < |rest| ==>
      idx[s] <= |sh.lists[s]| && rest[s] == Body(sh.lists[s][idx[s]..])
  }

  /** The places reached are those of the first i entries. */
  ghost predicate Reached(sh: Shards, entries: seq<Entry>, i: nat, idx: seq<nat>)
    requires sh.Valid() && i <= |entries|
  {
    && |idx| == |sh.idmaps|
    && forall s, j {:trigger sh.idmaps[s][j]} :: 0 <= s < |sh.idmaps| && 0 <= j < |sh.idmaps[s]| ==>
         (j < idx[s] <==> Entry(sh.idmaps[s][j], s) in entries[..i])
  }

  /** The next entry is about the next unread record of its shard. */
  lemma NextRecordIsIts(sh: Shards, entries: seq<Entry>, i: nat, idx: seq<nat>)
    requires sh.Valid() && Sorted(entries) && (forall e :: e in entries <==> sh.Holds(e)) && i < |entries|
    requires Reached(sh, entries, i, idx) && forall s :: 0 <= s < |idx| ==> idx[s] <= |sh.idmaps[s]|
    ensures var s := entries[i].shard; s < |idx| && idx[s] < |sh.idmaps[s]| && sh.idmaps[s][idx[s]] == entries[i].node
  {
    var e := entries[i];
    assert e in entries && sh.Holds(e);
    var s := e.shard;
    var j :| 0 <= j < |sh.idmaps[s]| && sh.idmaps[s][j] == e.node;
    assert sh.ShardOk(s);
    NotYet(entries, i);
    assert idx[s] <= j;
    if idx[s] < j {
      assert sh.idmaps[s][idx[s]] in sh.idmaps[s];
      EarlierIsPast(entries, i, Entry(sh.idmaps[s][idx[s]], s));
      assert false;
    }
  }

  lemma NotYet(entries: seq<Entry>, i: nat)
    requires Sorted(entries) && i < |entries|
    ensures entries[i] !in entries[..i]
  {
    forall k | 0 <= k < i ensures entries[..i][k] != entries[i] { assert Before(entries[k], entries[i]); }
  }

  lemma EarlierIsPast(entries: seq<Entry>, i: nat, x: Entry)
    requires Sorted(entries) && i < |entries| && x in entries && Before(x, entries[i])
    ensures x in entries[..i]
  {
    var k :| 0 <= k < |entries| && entries[k] == x;
    forall l | i <= l < |entries| ensures entries[l] != x { assert l > i ==> Before(entries[i], entries[l]); }
    assert entries[..i][k] == x;
  }

  lemma ReachedNext(sh: Shards, entries: seq<Entry>, i: nat, idx: seq<nat>)
    requires sh.Valid() && i < |entries| && Reached(sh, entries, i, idx)
    requires entries[i].shard < |idx| && idx[entries[i].shard] < |sh.idmaps[entries[i].shard]|
    requires sh.idmaps[entries[i].shard][idx[entries[i].shard]] == entries[i].node
    ensures Reached(sh, entries, i + 1, idx[entries[i].shard := idx[entries[i].shard] + 1])
  {
    var t := entries[i].shard;
    assert sh.ShardOk(t);
    assert entries[..i + 1] == entries[..i] + [entries[i]];
    forall s, j | 0 <= s < |sh.idmaps| && 0 <= j < |sh.idmaps[s]|
      ensures j < idx[t := idx[t] + 1][s] <==> Entry(sh.idmaps[s][j], s) in entries[..i + 1]
    {
      assert s == t && j != idx[t] ==> sh.idmaps[s][j] != entries[i].node;
    }
  }

  /** One record is read. */
  method ReadRecord(ghost sh: Shards, rest0: seq<seq<nat>>, s: nat, ghost idx: seq<nat>)
    returns (list: seq<nat>, rest: seq<seq<nat>>)
    requires sh.Valid() && ReadersAt(sh, rest0, idx) && s < |rest0| && idx[s] < |sh.lists[s]|
    ensures list == sh.lists[s][idx[s]] && ReadersAt(sh, rest, idx[s := idx[s] + 1])
  {
    ghost var left := sh.lists[s][idx[s]..];
    assert left[0] == sh.lists[s][idx[s]] && left[1..] == sh.lists[s][idx[s] + 1..];
    assert rest0[s] == Body(left);
    var k := rest0[s][0];
    list := rest0[s][1..1 + k];
    rest := rest0[s := rest0[s][1 + k..]];
    assert rest[s] == Body(left[1..]);
    ghost var now := idx[s := idx[s] + 1];
    forall t | 0 <= t < |rest| ensures now[t] <= |sh.lists[t]| && rest[t] == Body(sh.lists[t][now[t]..]) {
      assert t != s ==> rest[t] == rest0[t];
    }
  }

  // ------------------------------------------------------------------ the neighbourhood of one node

  /** Adds the ids of a list, renamed, that are not there yet. */
  method AddList(idmap: seq<nat>, list: seq<nat>, nhood0: seq<nat>, flags0: seq<bool>)
    returns (nhood: seq<nat>, flags: seq<bool>)
    requires Below(list, |idmap|) && Below(idmap, |flags0|) && FlagsAre(flags0, nhood0)
    ensures |flags| == |flags0| && FlagsAre(flags, nhood)
    ensures forall x :: x in nhood <==> x in nhood0 || exists y :: 0 <= y < |list| && idmap[list[y]] == x
  {
    nhood, flags := nhood0, flags0;
    for y := 0 to |list|
      invariant |flags| == |flags0| && FlagsAre(flags, nhood)
      invariant forall x :: x in nhood <==> x in nhood0 || exists k :: 0 <= k < y && idmap[list[k]] == x
    {
      var id := idmap[list[y]];
      if !flags[id] {
        NoDupSnoc(nhood, id);
        flags := flags[id := true];
        nhood := nhood + [id];
      }
    }
  }

  /** The flags tell which nodes are in the neighbourhood. */
  ghost predicate FlagsAre(flags: seq<bool>, nhood: seq<nat>) {
    && NoDup(nhood) && Below(nhood, |flags|)
    && forall x {:trigger flags[x]} :: 0 <= x < |flags| ==> (flags[x] <==> x in nhood)
  }

  method ClearFlags(flags0: seq<bool>, nhood: seq<nat>) returns (flags: seq<bool>)
    requires FlagsAre(flags0, nhood)
    ensures |flags| == |flags0| && FlagsAre(flags, [])
  {
    flags := flags0;
    for i := 0 to |nhood|
      invariant |flags| == |flags0| && forall x :: 0 <= x < |flags| ==> (flags[x] <==> x in nhood[i..])
    {
      assert nhood[i..] == [nhood[i]] + nhood[i + 1..];
      assert forall k :: i < k < |nhood| ==> nhood[k] != nhood[i];
      flags := flags[nhood[i] := false];
    }
  }

  ghost function Neighbourhood(sh: Shards, node: nat, n: nat): (r: set<nat>)
    requires sh.Valid()
    ensures forall x: nat :: x in r <==> x < n && sh.Neighbour(node, x)
  {
    set x | x in Interval(0, n) && sh.Neighbour(node, x)
  }

  /** A record is a duplicate-free part of the union, as large as the union and the maximal degree allow. */
  ghost predicate RecordOk(sh: Shards, n: nat, maxDegree: nat, node: nat, list: seq<nat>)
    requires sh.Valid()
  {
    NoDup(list) && Elems(list) <= Neighbourhood(sh, node, n) && |list| == Min(|Neighbourhood(sh, node, n)|, maxDegree)
  }

  /** The neighbourhood is shuffled and cut. */
  method Record(nhood: seq<nat>, maxDegree: nat) returns (list: seq<nat>)
    requires NoDup(nhood)
    ensures NoDup(list) && Elems(list) <= Elems(nhood) && |list| == Min(|Elems(nhood)|, maxDegree)
  {
    var shuffled := InSomeOrder(Elems(nhood));
    ElemsSize(shuffled);
    var nnbrs := Min(|shuffled|, maxDegree);
    list := shuffled[..nnbrs];
    assert forall x :: x in list ==> x in shuffled;
  }

  // ------------------------------------------------------------------ the merge

  /** The node being collected, its neighbourhood so far, the nodes written and their records. */
  datatype Merge = Merge(cur: nat, nhood: seq<nat>, ids: seq<nat>, merged: seq<seq<nat>>)

  /** The neighbourhood is what the first `said` entries say; the nodes met are those of the first `met` entries, and
      node 0. */
  ghost predicate MergeOk(sh: Shards, n: nat, maxDegree: nat, entries: seq<Entry>, said: nat, met: nat, m: Merge)
    requires sh.Valid() && said <= |entries| && met <= |entries|
  {
    && NhoodOk(sh, entries[..said], m)
    && RecordsOk(sh, n, maxDegree, m)
    && MetOk(entries[..met], m)
  }

  ghost predicate NhoodOk(sh: Shards, past: seq<Entry>, m: Merge)
    requires sh.Valid()
  {
    NoDup(m.nhood) && forall x: nat :: x in m.nhood <==> sh.SaidIn(m.cur, past, x)
  }

  ghost predicate RecordsOk(sh: Shards, n: nat, maxDegree: nat, m: Merge)
    requires sh.Valid()
  {
    && |m.ids| == |m.merged|
    && forall k {:trigger m.ids[k]} :: 0 <= k < |m.ids| ==> RecordOk(sh, n, maxDegree, m.ids[k], m.merged[k])
  }

  ghost predicate MetOk(past: seq<Entry>, m: Merge) {
    && (forall i, j :: 0 <= i < j < |m.ids| ==> m.ids[i] < m.ids[j])
    && Below(m.ids, m.cur)
    && (forall x: nat {:trigger Met(past, x)} :: x in m.ids || x == m.cur <==> Met(past, x))
  }

  ghost predicate Met(past: seq<Entry>, x: nat) {
    x == 0 || exists s: nat :: Entry(x, s) in past
  }

  lemma CurIsNotLater(entries: seq<Entry>, i: nat, m: Merge)
    requires Sorted(entries) && i < |entries| && MetOk(entries[..i], m)
    ensures m.cur <= entries[i].node
  {
    if m.cur != 0 {
      assert Met(entries[..i], m.cur);
      var s: nat :| Entry(m.cur, s) in entries[..i];
      var k :| 0 <= k < i && entries[k] == Entry(m.cur, s);
      assert Before(entries[k], entries[i]);
    }
  }

  /** When the next entry is about a later node, everything about this one has been said. */
  lemma AllSaid(sh: Shards, entries: seq<Entry>, i: nat, node: nat, x: nat)
    requires sh.Valid() && Sorted(entries) && i <= |entries| && (forall e :: e in entries <==> sh.Holds(e))
    requires i < |entries| ==> node < entries[i].node
    ensures sh.SaidIn(node, entries[..i], x) <==> sh.Neighbour(node, x)
  {
    if sh.Neighbour(node, x) {
      var s: nat, j: nat :| s < |sh.idmaps| && j < |sh.idmaps[s]| && sh.idmaps[s][j] == node && x in sh.Said(s, j);
      assert sh.Holds(Entry(node, s));
      if i < |entries| { EarlierIsPast(entries, i, Entry(node, s)); } else { assert entries[..i] == entries; }
    }
  }

  lemma SaidBelow(sh: Shards, n: nat, past: seq<Entry>, m: Merge)
    requires sh.Valid() && NhoodOk(sh, past, m) && forall s {:trigger sh.idmaps[s]} :: 0 <= s < |sh.idmaps| ==>
      Below(sh.idmaps[s], n)
    ensures Below(m.nhood, n)
  {
    forall i | 0 <= i < |m.nhood| ensures m.nhood[i] < n {
      assert m.nhood[i] in m.nhood;
      assert sh.SaidIn(m.cur, past, m.nhood[i]);
      var s: nat, j: nat :| s < |sh.idmaps| && j < |sh.idmaps[s]| && sh.idmaps[s][j] == m.cur && Entry(m.cur, s) in past
        && m.nhood[i] in sh.Said(s, j);
      assert sh.ShardOk(s);
      assert Below(sh.idmaps[s], n);
    }
  }

  /** The record of a finished node is right. */
  lemma FinishedRecord(sh: Shards, n: nat, maxDegree: nat, entries: seq<Entry>, i: nat, m: Merge, list: seq<nat>)
    requires sh.Valid() && Sorted(entries) && i <= |entries| && (forall e :: e in entries <==> sh.Holds(e))
    requires i < |entries| ==> m.cur < entries[i].node
    requires NhoodOk(sh, entries[..i], m) && Below(m.nhood, n)
    requires NoDup(list) && Elems(list) <= Elems(m.nhood) && |list| == Min(|Elems(m.nhood)|, maxDegree)
    ensures RecordOk(sh, n, maxDegree, m.cur, list)
  {
    forall x: nat ensures x in Elems(m.nhood) <==> x in Neighbourhood(sh, m.cur, n) {
      AllSaid(sh, entries, i, m.cur, x);
      if x in m.nhood { var k :| 0 <= k < |m.nhood| && m.nhood[k] == x; }
    }
    assert Elems(m.nhood) == Neighbourhood(sh, m.cur, n);
  }

  lemma RecordsGrow(sh: Shards, n: nat, maxDegree: nat, m: Merge, list: seq<nat>)
    requires sh.Valid() && RecordsOk(sh, n, maxDegree, m) && RecordOk(sh, n, maxDegree, m.cur, list)
    ensures RecordsOk(sh, n, maxDegree, m.(ids := m.ids + [m.cur], merged := m.merged + [list]))
  {
    var ids, merged := m.ids + [m.cur], m.merged + [list];
    forall k | 0 <= k < |ids| ensures RecordOk(sh, n, maxDegree, ids[k], merged[k]) {
      assert k < |m.ids| ==> ids[k] == m.ids[k] && merged[k] == m.merged[k];
    }
  }

  /** The current node is written and the next one begins. */
  lemma NextNode(sh: Shards, n: nat, maxDegree: nat, entries: seq<Entry>, i: nat, m: Merge, list: seq<nat>)
    requires sh.Valid() && Sorted(entries) && i < |entries| && (forall e :: e in entries <==> sh.Holds(e))
    requires MergeOk(sh, n, maxDegree, entries, i, i, m) && m.cur < entries[i].node
      && RecordOk(sh, n, maxDegree, m.cur, list)
    ensures MergeOk(sh, n, maxDegree, entries, i, i + 1, Merge(entries[i].node, [], m.ids + [m.cur], m.merged + [list]))
  {
    var next := Merge(entries[i].node, [], m.ids + [m.cur], m.merged + [list]);
    RecordsGrow(sh, n, maxDegree, m, list);
    NothingSaidYet(sh, entries, i, m);
    assert RecordsOk(sh, n, maxDegree, next) by {
      assert RecordsOk(sh, n, maxDegree, m.(ids := next.ids, merged := next.merged));
      assert forall k :: 0 <= k < |next.ids| ==> RecordOk(sh, n, maxDegree, next.ids[k], next.merged[k]);
    }
    assert entries[..i + 1] == entries[..i] + [entries[i]];
    forall x: nat ensures x in next.ids || x == next.cur <==> Met(entries[..i + 1], x) {
      assert x in m.ids || x == m.cur <==> Met(entries[..i], x);
      assert x in next.ids <==> x in m.ids || x == m.cur;
      if x == next.cur { assert Entry(x, entries[i].shard) in entries[..i + 1]; }
      if s: nat :| Entry(x, s) in entries[..i] { assert Entry(x, s) in entries[..i + 1]; }
    }
  }

  lemma NothingSaidYet(sh: Shards, entries: seq<Entry>, i: nat, m: Merge)
    requires sh.Valid() && Sorted(entries) && i < |entries| && MetOk(entries[..i], m) && m.cur < entries[i].node
    ensures forall x: nat :: !sh.SaidIn(entries[i].node, entries[..i], x)
  {
    var v := entries[i].node;
    assert v !in m.ids;
    assert !Met(entries[..i], v);
  }

  /** The next entry is about the same node. */
  lemma SameNode(sh: Shards, n: nat, maxDegree: nat, entries: seq<Entry>, i: nat, m: Merge)
    requires sh.Valid() && i < |entries| && MergeOk(sh, n, maxDegree, entries, i, i, m) && m.cur == entries[i].node
    ensures MergeOk(sh, n, maxDegree, entries, i, i + 1, m)
  {
    assert entries[..i + 1] == entries[..i] + [entries[i]];
    forall x: nat ensures x in m.ids || x == m.cur <==> Met(entries[..i + 1], x) {
      assert x in m.ids || x == m.cur <==> Met(entries[..i], x);
      if x == m.cur { assert Entry(x, entries[i].shard) in entries[..i + 1]; }
      if s: nat :| Entry(x, s) in entries[..i] { assert Entry(x, s) in entries[..i + 1]; }
    }
  }

  /** What the entry's shard says has been added. */
  lemma RecordAdded(sh: Shards, n: nat, maxDegree: nat, entries: seq<Entry>, i: nat, m: Merge, j: nat, nhood: seq<nat>)
    requires sh.Valid() && i < |entries| && MergeOk(sh, n, maxDegree, entries, i, i + 1, m) && m.cur == entries[i].node
    requires var s := entries[i].shard; s < |sh.idmaps| && j < |sh.idmaps[s]| && sh.idmaps[s][j] == m.cur
    requires NoDup(nhood) && forall x: nat :: x in nhood <==> x in m.nhood || x in sh.Said(entries[i].shard, j)
    ensures MergeOk(sh, n, maxDegree, entries, i + 1, i + 1, m.(nhood := nhood))
  {
    var t := entries[i].shard;
    assert sh.ShardOk(t);
    assert entries[..i + 1] == entries[..i] + [entries[i]];
    forall x: nat ensures x in nhood <==> sh.SaidIn(m.cur, entries[..i + 1], x) {
      if x in sh.Said(t, j) { assert Entry(m.cur, t) in entries[..i + 1]; }
      if sh.SaidIn(m.cur, entries[..i + 1], x) {
        var s: nat, k: nat :| s < |sh.idmaps| && k < |sh.idmaps[s]| && sh.idmaps[s][k] == m.cur
          && Entry(m.cur, s) in entries[..i + 1] && x in sh.Said(s, k);
        if s == t { assert k == j; } else { assert Entry(m.cur, s) in entries[..i]; }
      }
    }
  }

  /** Everything the loop of merge_shards holds when i entries are done. */
  ghost predicate LoopOk(sh: Shards, n: nat, maxDegree: nat, entries: seq<Entry>, i: nat, m: Merge,
                         rest: seq<seq<nat>>, idx: seq<nat>, flags: seq<bool>)
    requires sh.Valid() && i <= |entries|
  {
    && MergeOk(sh, n, maxDegree, entries, i, i, m)
    && ReadersAt(sh, rest, idx) && Reached(sh, entries, i, idx)
    && |flags| == n && FlagsAre(flags, m.nhood)
  }

  ghost predicate Setting(sh: Shards, n: nat, entries: seq<Entry>) {
    && sh.Valid() && Sorted(entries) && (forall e :: e in entries <==> sh.Holds(e))
    && forall s {:trigger sh.idmaps[s]} :: 0 <= s < |sh.idmaps| ==> Below(sh.idmaps[s], n)
  }

  /** A later node comes up: the record of the current one is written. */
  method WriteRecord(ghost sh: Shards, ghost n: nat, maxDegree: nat, ghost entries: seq<Entry>, ghost i: nat, m0: Merge,
                     node: nat, flags0: seq<bool>, out0: seq<nat>)
    returns (m: Merge, flags: seq<bool>, out: seq<nat>, list: seq<nat>)
    requires Setting(sh, n, entries) && i < |entries| && MergeOk(sh, n, maxDegree, entries, i, i, m0)
    requires node == entries[i].node && m0.cur < node && |flags0| == n && FlagsAre(flags0, m0.nhood)
    ensures MergeOk(sh, n, maxDegree, entries, i, i + 1, m) && m.cur == node && |flags| == n && FlagsAre(flags, m.nhood)
    ensures m.merged == m0.merged + [list] && out == out0 + [|list|] + list
  {
    SaidBelow(sh, n, entries[..i], m0);
    var record := Record(m0.nhood, maxDegree);
    FinishedRecord(sh, n, maxDegree, entries, i, m0, record);
    NextNode(sh, n, maxDegree, entries, i, m0, record);
    flags := ClearFlags(flags0, m0.nhood);
    out, list := out0 + [|record|] + record, record;
    m := Merge(node, [], m0.ids + [m0.cur], m0.merged + [record]);
  }

  /** One entry: its record is read and what it says is added. */
  method AddEntry(ghost sh: Shards, ghost n: nat, ghost maxDegree: nat, ghost entries: seq<Entry>, ghost i: nat,
                  e: Entry, m0: Merge, idmaps: seq<seq<nat>>, rest0: seq<seq<nat>>, ghost idx0: seq<nat>,
                  flags0: seq<bool>)
    returns (m: Merge, rest: seq<seq<nat>>, ghost idx: seq<nat>, flags: seq<bool>)
    requires Setting(sh, n, entries) && i < |entries| && e == entries[i] && idmaps == sh.idmaps
    requires MergeOk(sh, n, maxDegree, entries, i, i + 1, m0) && m0.cur == e.node
    requires ReadersAt(sh, rest0, idx0) && Reached(sh, entries, i, idx0) && |flags0| == n && FlagsAre(flags0, m0.nhood)
    ensures LoopOk(sh, n, maxDegree, entries, i + 1, m, rest, idx, flags) && m.merged == m0.merged
  {
    PlacesExist(sh, rest0, idx0);
    NextRecordIsIts(sh, entries, i, idx0);
    ReachedNext(sh, entries, i, idx0);
    assert sh.ShardOk(e.shard);
    ghost var j := idx0[e.shard];
    var list;
    list, rest := ReadRecord(sh, rest0, e.shard, idx0);
    assert Below(list, |idmaps[e.shard]|) && Below(idmaps[e.shard], n);
    var nhood;
    nhood, flags := AddList(idmaps[e.shard], list, m0.nhood, flags0);
    idx := idx0[e.shard := j + 1];
    RecordAdded(sh, n, maxDegree, entries, i, m0, j, nhood);
    m := m0.(nhood := nhood);
  }

  lemma PlacesExist(sh: Shards, rest: seq<seq<nat>>, idx: seq<nat>)
    requires sh.Valid() && ReadersAt(sh, rest, idx)
    ensures |idx| == |sh.idmaps| && forall s :: 0 <= s < |idx| ==> idx[s] <= |sh.idmaps[s]|
  {
    forall s | 0 <= s < |idx| ensures idx[s] <= |sh.idmaps[s]| {
      assert sh.ShardOk(s);
      var _ := rest[s];
    }
  }

  lemma StartOk(sh: Shards, n: nat, maxDegree: nat, entries: seq<Entry>, rest: seq<seq<nat>>, idx: seq<nat>,
                flags: seq<bool>)
    requires sh.Valid() && |rest| == |sh.lists| == |idx| && forall s :: 0 <= s < |idx| ==> idx[s] == 0
    requires forall s {:trigger rest[s]} :: 0 <= s < |rest| ==> rest[s] == Body(sh.lists[s])
    requires |flags| == n && forall x :: 0 <= x < n ==> !flags[x]
    ensures LoopOk(sh, n, maxDegree, entries, 0, Merge(0, [], [], []), rest, idx, flags)
  {
    forall s | 0 <= s < |rest|
      ensures rest[s] == Body(sh.lists[s][idx[s]..]) { assert sh.lists[s][0..] == sh.lists[s]; }
  }

  /** The main loop, and the record of the last node. */
  method MergeRecords(ghost sh: Shards, n: nat, maxDegree: nat, idmaps: seq<seq<nat>>, entries: seq<Entry>,
                      rest0: seq<seq<nat>>, header: seq<nat>)
    returns (out: seq<nat>, size: nat, ghost m: Merge)
    requires Setting(sh, n, entries) && idmaps == sh.idmaps && |rest0| == |sh.lists|
    requires forall s {:trigger rest0[s]} :: 0 <= s < |rest0| ==> rest0[s] == Body(sh.lists[s])
    ensures out == header + Body(m.merged) && size == 24 + 4 * |Body(m.merged)|
    ensures RecordsOk(sh, n, maxDegree, m) && (forall i, j :: 0 <= i < j < |m.ids| ==> m.ids[i] < m.ids[j])
    ensures forall x: nat :: x in m.ids <==> Met(entries, x)
  {
    var rest, flags := rest0, seq(n, i => false);
    var now := Merge(0, [], [], []);
    ghost var idx := seq(|rest0|, i => 0);
    out, size := header, 24;
    StartOk(sh, n, maxDegree, entries, rest, idx, flags);
    assert header + Body([]) == header;
    for i := 0 to |entries|
      invariant LoopOk(sh, n, maxDegree, entries, i, now, rest, idx, flags)
      invariant out == header + Body(now.merged) && size == 24 + 4 * |Body(now.merged)|
    {
      CurIsNotLater(entries, i, now);
      if now.cur < entries[i].node {
        ghost var was := now.merged;
        var list;
        now, flags, out, list := WriteRecord(sh, n, maxDegree, entries, i, now, entries[i].node, flags, out);
        BodySnoc(was, list);
        size := size + 4 + 4 * |list|;
      } else {
        SameNode(sh, n, maxDegree, entries, i, now);
      }
      now, rest, idx, flags := AddEntry(sh, n, maxDegree, entries, i, entries[i], now, idmaps, rest, idx, flags);
    }
    var list;
    list, m := LastRecord(sh, n, maxDegree, entries, now);
    out, size := out + [|list|] + list, size + 4 + 4 * |list|;
    BodySnoc(now.merged, list);
    assert entries[..|entries|] == entries;
  }

  /** The record of the last node. */
  method LastRecord(ghost sh: Shards, ghost n: nat, maxDegree: nat, ghost entries: seq<Entry>, m0: Merge)
    returns (list: seq<nat>, ghost m: Merge)
    requires Setting(sh, n, entries) && MergeOk(sh, n, maxDegree, entries, |entries|, |entries|, m0)
    ensures m == m0.(ids := m0.ids + [m0.cur], merged := m0.merged + [list]) && RecordsOk(sh, n, maxDegree, m)
    ensures (forall i, j :: 0 <= i < j < |m.ids| ==> m.ids[i] < m.ids[j]) &&
      forall x: nat :: x in m.ids <==> Met(entries[..|entries|], x)
  {
    SaidBelow(sh, n, entries[..|entries|], m0);
    list := Record(m0.nhood, maxDegree);
    FinishedRecord(sh, n, maxDegree, entries, |entries|, m0, list);
    RecordsGrow(sh, n, maxDegree, m0, list);
    m := m0.(ids := m0.ids + [m0.cur], merged := m0.merged + [list]);
    forall x: nat ensures x in m.ids <==> Met(entries[..|entries|], x) { }
  }

  // ------------------------------------------------------------------ the merged file

  /** The largest node id and one more. */
  method CountNodes(idmaps: seq<seq<nat>>) returns (n: nat)
    ensures 0 < n && forall s {:trigger idmaps[s]} :: 0 <= s < |idmaps| ==> Below(idmaps[s], n)
    ensures n == 1 || exists s, j :: 0 <= s < |idmaps| && 0 <= j < |idmaps[s]| && idmaps[s][j] == n - 1
  {
    n := 0;
    for s := 0 to |idmaps|
      invariant forall t {:trigger idmaps[t]} :: 0 <= t < s ==> Below(idmaps[t], n + 1)
      invariant n == 0 || exists s, j :: 0 <= s < |idmaps| && 0 <= j < |idmaps[s]| && idmaps[s][j] == n
    {
      for j := 0 to |idmaps[s]|
        invariant forall t {:trigger idmaps[t]} :: 0 <= t < s ==> Below(idmaps[t], n + 1)
        invariant forall i :: 0 <= i < j ==> idmaps[s][i] <= n
        invariant n == 0 || exists s, j :: 0 <= s < |idmaps| && 0 <= j < |idmaps[s]| && idmaps[s][j] == n
      {
        n := if idmaps[s][j] > n then idmaps[s][j] else n;
      }
    }
    n := n + 1;
  }

  /** The nodes that get a record: those some shard holds, and node 0. */
  ghost predicate HasRecord(sh: Shards, x: nat) {
    x == 0 || exists s: nat :: sh.Holds(Entry(x, s))
  }

  /** Record number i is about node i, for all nodes, exactly when the shards hold all nodes between them. */
  lemma RecordsByNode(sh: Shards, ids: seq<nat>, n: nat)
    requires (forall i, j :: 0 <= i < j < |ids| ==> ids[i] < ids[j]) && Below(ids, n)
    requires forall x: nat :: x in ids <==> HasRecord(sh, x)
    ensures (|ids| == n && forall i :: 0 <= i < n ==> ids[i] == i) <==> forall x: nat :: x < n ==> HasRecord(sh, x)
  {
    if forall x: nat :: x < n ==> HasRecord(sh, x) {
      forall x: nat | x < n ensures x in ids { assert HasRecord(sh, x); }
      AscendingCover(ids, n);
    }
    if |ids| == n && forall i :: 0 <= i < n ==> ids[i] == i {
      forall x: nat | x < n ensures HasRecord(sh, x) { assert ids[x] in ids; }
    }
  }

  lemma {:induction false} AscendingCover(ids: seq<nat>, n: nat)
    requires (forall i, j :: 0 <= i < j < |ids| ==> ids[i] < ids[j]) && Below(ids, n) &&
      forall x: nat :: x < n ==> x in ids
    ensures |ids| == n && forall i :: 0 <= i < n ==> ids[i] == i
  {
    if ids == [] {
      assert n > 0 ==> n - 1 in ids;
    } else {
      assert ids[|ids| - 1] < n;
      assert n - 1 in ids;
      var init := ids[..|ids| - 1];
      var k :| 0 <= k < |ids| && ids[k] == n - 1;
      assert forall l :: 0 <= l < |ids| - 1 ==> ids[l] < ids[|ids| - 1];
      assert ids == init + [n - 1];
      forall x: nat | x < n - 1 ensures x in init { assert x in ids; }
      forall i | 0 <= i < |init| ensures init[i] < n - 1 { assert ids[i] < ids[|ids| - 1]; }
      AscendingCover(init, n - 1);
    }
  }

  /** Place k of the list at place j of shard s is about the node, and names y. */
  ghost predicate Names(sh: Shards, node: nat, s: nat, j: nat, k: nat, y: nat)
    requires sh.Valid()
  {
    && s < |sh.idmaps| && j < |sh.idmaps[s]| && sh.idmaps[s][j] == node
    && sh.ShardOk(s) && k < |sh.lists[s][j]| && sh.idmaps[s][sh.lists[s][j][k]] == y
  }

  ghost predicate Named(sh: Shards, node: nat, y: nat)
    requires sh.Valid()
  {
    exists s: nat, j: nat, k: nat :: Names(sh, node, s, j, k, y)
  }

  /** A record holds nodes once, at most so many, and only such as some shard names for the node; if it could hold one
      more, it holds all of them. */
  ghost predicate RecordMeans(sh: Shards, maxDegree: nat, node: nat, list: seq<nat>)
    requires sh.Valid()
  {
    && (forall i, j :: 0 <= i < j < |list| ==> list[i] != list[j]) && |list| <= maxDegree
    && (forall i :: 0 <= i < |list| ==> Named(sh, node, list[i]))
    && (|list| < maxDegree ==>
        forall y: nat {:trigger Named(sh, node, y)} :: Named(sh, node, y) ==> y in list)
  }

  lemma RecordsMean(sh: Shards, n: nat, maxDegree: nat, node: nat, list: seq<nat>)
    requires sh.Valid() && RecordOk(sh, n, maxDegree, node, list)
    requires forall s {:trigger sh.idmaps[s]} :: 0 <= s < |sh.idmaps| ==> Below(sh.idmaps[s], n)
    ensures RecordMeans(sh, maxDegree, node, list)
  {
    forall i | 0 <= i < |list| ensures Named(sh, node, list[i]) {
      assert list[i] in Elems(list) && sh.Neighbour(node, list[i]);
      var s: nat, j: nat :| s < |sh.idmaps| && j < |sh.idmaps[s]| && sh.idmaps[s][j] == node
        && list[i] in sh.Said(s, j);
      assert sh.ShardOk(s);
      var k :| 0 <= k < |sh.lists[s][j]| && sh.idmaps[s][sh.lists[s][j][k]] == list[i];
      assert Names(sh, node, s, j, k, list[i]);
    }
    ElemsSize(list);
    SubsetSize(Elems(list), Neighbourhood(sh, node, n));
    if |list| < maxDegree {
      assert Elems(list) == Neighbourhood(sh, node, n);
      forall y: nat | Named(sh, node, y) ensures y in list {
        var s: nat, j: nat, k: nat :| Names(sh, node, s, j, k, y);
        assert Below(sh.idmaps[s], n);
        assert y in sh.Said(s, j);
        assert y in Neighbourhood(sh, node, n);
      }
    }
  }

  /** merge_shards, for bulk indices without frozen points. */
  method MergeShards(ghost sh: Shards, idmaps: seq<seq<nat>>, files: seq<seq<nat>>, ghost medoids: seq<nat>,
                     maxDegree: nat)
    returns (out: seq<nat>, medoidFile: seq<nat>, n: nat, ghost ids: seq<nat>, ghost merged: seq<seq<nat>>)
    requires sh.Valid() && idmaps == sh.idmaps && 0 < |files| == |idmaps| == |medoids|
    requires forall s {:trigger files[s]} :: 0 <= s < |files| ==> files[s] == FileOf(sh.lists[s], medoids[s], 0)
    requires forall s :: 0 <= s < |files| ==> medoids[s] < |idmaps[s]|
    ensures out == Long(4 * |out|) + [maxDegree, idmaps[|files| - 1][medoids[|files| - 1]]] + Long(0) + Body(merged)
    ensures |medoidFile| == |files| + 2 && medoidFile[..2] == [|files|, 1]
    ensures forall s :: 0 <= s < |files| ==> medoidFile[s + 2] == idmaps[s][medoids[s]]
    ensures |ids| == |merged| && forall k {:trigger ids[k]} :: 0 <= k < |ids| ==>
      RecordMeans(sh, maxDegree, ids[k], merged[k])
    ensures 0 < n && forall s {:trigger idmaps[s]} :: 0 <= s < |idmaps| ==> Below(idmaps[s], n)
    ensures n == 1 || exists s, j :: 0 <= s < |idmaps| && 0 <= j < |idmaps[s]| && idmaps[s][j] == n - 1
    ensures |out| >= 6 && out[0] < 0x1_0000_0000 && out[0] + 0x1_0000_0000 * out[1] == 4 * |out|
    ensures Below(ids, n) && (forall i, j :: 0 <= i < j < |ids| ==> ids[i] < ids[j]) &&
      forall x: nat :: x in ids <==> HasRecord(sh, x)
    ensures ReadNodes(out[6..], FromLong(out[0], out[1]) - 24) == Lists(merged)
  {
    n := CountNodes(idmaps);
    var entries := InverseMap(sh, idmaps);
    var rest, firsts;
    rest, medoidFile, firsts := ReadHeaders(sh, idmaps, files, medoids);
    out, ids, merged := MergeBodies(sh, n, maxDegree, idmaps, entries, rest, firsts[|files| - 1]);
    forall k | 0 <= k < |ids| ensures RecordMeans(sh, maxDegree, ids[k], merged[k]) {
      RecordsMean(sh, n, maxDegree, ids[k], merged[k]);
    }
  }

  /** The records between the two times the size is written. */
  method MergeBodies(ghost sh: Shards, n: nat, maxDegree: nat, idmaps: seq<seq<nat>>, entries: seq<Entry>,
                     rest: seq<seq<nat>>, medoid: nat)
    returns (out: seq<nat>, ghost ids: seq<nat>, ghost merged: seq<seq<nat>>)
    requires 0 < n && Setting(sh, n, entries) && idmaps == sh.idmaps && |rest| == |sh.lists|
    requires forall s {:trigger rest[s]} :: 0 <= s < |rest| ==> rest[s] == Body(sh.lists[s])
    ensures out == Long(4 * |out|) + [maxDegree, medoid] + Long(0) + Body(merged)
    ensures |ids| == |merged| && forall k {:trigger ids[k]} :: 0 <= k < |ids| ==>
      RecordOk(sh, n, maxDegree, ids[k], merged[k])
    ensures Below(ids, n) && (forall i, j :: 0 <= i < j < |ids| ==> ids[i] < ids[j])
    ensures forall x: nat :: x in ids <==> HasRecord(sh, x)
    ensures ReadNodes(out[6..], FromLong(out[0], out[1]) - 24) == Lists(merged)
  {
    var header := Long(24) + [maxDegree, medoid] + Long(0);
    var body, size;
    ghost var m;
    body, size, m := MergeRecords(sh, n, maxDegree, idmaps, entries, rest, header);
    ids, merged := m.ids, m.merged;
    MetIsHeld(sh, entries, ids, n);
    out := PatchSize(body, size, maxDegree, medoid, merged);
  }

  /** The size at the beginning of the file is overwritten with the final one. */
  method PatchSize(body: seq<nat>, size: nat, ghost maxDegree: nat, ghost medoid: nat, ghost merged: seq<seq<nat>>)
    returns (out: seq<nat>)
    requires body == Long(24) + [maxDegree, medoid] + Long(0) + Body(merged) && size == 24 + 4 * |Body(merged)|
    ensures out == Long(4 * |out|) + [maxDegree, medoid] + Long(0) + Body(merged)
    ensures ReadNodes(out[6..], FromLong(out[0], out[1]) - 24) == Lists(merged)
  {
    out := body[0 := Long(size)[0]][1 := Long(size)[1]];
    PatchedWords(body, size, maxDegree, medoid, Body(merged), out);
    RestReadsBack(merged, out[6..], FromLong(out[0], out[1]) - 24);
  }

  lemma PatchedWords(body: seq<nat>, size: nat, maxDegree: nat, medoid: nat, records: seq<nat>, out: seq<nat>)
    requires body == Long(24) + [maxDegree, medoid] + Long(0) + records && size == 24 + 4 * |records|
    requires out == body[0 := Long(size)[0]][1 := Long(size)[1]]
    ensures |out| == 6 + |records| && size == 4 * |out| && FromLong(out[0], out[1]) == size
    ensures out == Long(size) + [maxDegree, medoid] + Long(0) + records && out[6..] == records
  {
  }

  lemma RestReadsBack(lists: seq<seq<nat>>, rest: seq<nat>, bytes: int)
    requires rest == Body(lists) && bytes == 4 * |Body(lists)|
    ensures ReadNodes(rest, bytes) == Lists(lists)
  {
    BodyReadsBack(lists);
  }

  lemma MetIsHeld(sh: Shards, entries: seq<Entry>, ids: seq<nat>, n: nat)
    requires 0 < n && Setting(sh, n, entries) && forall x: nat :: x in ids <==> Met(entries, x)
    ensures Below(ids, n) && forall x: nat :: x in ids <==> HasRecord(sh, x)
  {
    forall x: nat ensures Met(entries, x) <==> HasRecord(sh, x) {
      if s: nat :| Entry(x, s) in entries { assert sh.Holds(Entry(x, s)); }
      if s: nat :| sh.Holds(Entry(x, s)) { assert Entry(x, s) in entries; }
    }
    forall i | 0 <= i < |ids| ensures ids[i] < n {
      assert ids[i] in ids && HasRecord(sh, ids[i]);
      if ids[i] != 0 {
        var s: nat :| sh.Holds(Entry(ids[i], s));
        assert Below(sh.idmaps[s], n);
      }
    }
  }

  /** The headers of the shard files; the medoids are renamed and listed. */
  method ReadHeaders(ghost sh: Shards, idmaps: seq<seq<nat>>, files: seq<seq<nat>>, ghost medoids: seq<nat>)
    returns (rest: seq<seq<nat>>, medoidFile: seq<nat>, renamed: seq<nat>)
    requires sh.Valid() && idmaps == sh.idmaps && |files| == |idmaps| == |medoids|
    requires forall s {:trigger files[s]} :: 0 <= s < |files| ==> files[s] == FileOf(sh.lists[s], medoids[s], 0)
    requires forall s :: 0 <= s < |files| ==> medoids[s] < |idmaps[s]|
    ensures |rest| == |files| == |renamed| && forall s {:trigger rest[s]} :: 0 <= s < |rest| ==>
      rest[s] == Body(sh.lists[s])
    ensures forall s :: 0 <= s < |files| ==> renamed[s] == idmaps[s][medoids[s]]
    ensures medoidFile == [|files|, 1] + renamed
  {
    rest, renamed := [], [];
    medoidFile := [|files|, 1];
    for s := 0 to |files|
      invariant |rest| == s == |renamed| && forall t {:trigger rest[t]} :: 0 <= t < s ==> rest[t] == Body(sh.lists[t])
      invariant forall t :: 0 <= t < s ==> renamed[t] == idmaps[t][medoids[t]]
      invariant medoidFile == [|files|, 1] + renamed
    {
      assert files[s][3] == medoids[s];
      renamed := renamed + [idmaps[s][files[s][3]]];
      medoidFile := medoidFile + [idmaps[s][files[s][3]]];
      assert files[s][6..] == Body(sh.lists[s]);
      rest := rest + [files[s][6..]];
    }
  }
}
