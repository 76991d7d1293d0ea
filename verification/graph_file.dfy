/** The in-memory graph store and its file, as a sequence of 32-bit words. */
module GraphFile {
  import opened Arithmetic
  import opened Bytes

  /** A 64-bit number as two words, the lower first. */
  function Long(n: nat): (w: seq<nat>)
    ensures |w| == 2 && FromLong(w[0], w[1]) == n
    ensures w[0] < 0x1_0000_0000 && w[0] + 0x1_0000_0000 * w[1] == n
  {
    [n % WORD, n / WORD]
  }

  function FromLong(lo: nat, hi: nat): nat {
    lo + hi * WORD
  }

  // ------------------------------------------------------------------ the format

  /** The records of the nodes: length, then neighbours. */
  function Body(lists: seq<seq<nat>>): seq<nat> {
    if lists == [] then [] else [|lists[0]|] + lists[0] + Body(lists[1..])
  }

  lemma {:induction false} BodySnoc(lists: seq<seq<nat>>, list: seq<nat>)
    ensures Body(lists + [list]) == Body(lists) + [|list|] + list
  {
    if lists == [] {
      assert (lists + [list])[1..] == [];
    } else {
      assert (lists + [list])[1..] == lists[1..] + [list];
      BodySnoc(lists[1..], list);
    }
  }

  function MaxDegree(lists: seq<seq<nat>>): nat {
    if lists == [] then 0
    else
      var m := MaxDegree(lists[..|lists| - 1]);
      if |lists[|lists| - 1]| > m then |lists[|lists| - 1]| else m
  }

  lemma MaxDegreeSnoc(lists: seq<seq<nat>>, list: seq<nat>)
    ensures MaxDegree(lists + [list]) == if |list| > MaxDegree(lists) then |list| else MaxDegree(lists)
  {
    assert (lists + [list])[..|lists|] == lists;
  }

  /** It bounds every list, and some list attains it. */
  lemma {:induction false} MaxDegreeIsMax(lists: seq<seq<nat>>)
    ensures forall i :: 0 <= i < |lists| ==> |lists[i]| <= MaxDegree(lists)
    ensures lists != [] ==> exists i :: 0 <= i < |lists| && |lists[i]| == MaxDegree(lists)
  {
    if lists != [] {
      var init, last := lists[..|lists| - 1], |lists| - 1;
      MaxDegreeIsMax(init);
      if |lists[last]| <= MaxDegree(init) && init != [] {
        var i :| 0 <= i < |init| && |init[i]| == MaxDegree(init);
        assert |lists[i]| == MaxDegree(lists);
      } else {
        assert |lists[last]| == MaxDegree(lists);
      }
    }
  }

  /** The whole file. The size in the header counts bytes. */
  function FileOf(lists: seq<seq<nat>>, start: nat, frozen: nat): seq<nat> {
    Header(24 + 4 * |Body(lists)|, MaxDegree(lists), start, frozen) + Body(lists)
  }

  /** Size in bytes, largest degree, start, frozen points. */
  function Header(size: nat, degree: nat, start: nat, frozen: nat): (h: seq<nat>)
    ensures |h| == 6 && FromLong(h[0], h[1]) == size && h[2] == degree && h[3] == start
      && FromLong(h[4], h[5]) == frozen
  {
    Long(size) + [degree, start] + Long(frozen)
  }

  /** The first six words: the size in bytes, lower word first, the largest degree, the start, the number of frozen
      points. */
  ghost predicate HeaderIs(file: seq<nat>, lists: seq<seq<nat>>, start: nat, frozen: nat) {
    && 6 <= |file| && file[0] < 0x1_0000_0000 && file[4] < 0x1_0000_0000
    && file[0] + 0x1_0000_0000 * file[1] == 4 * |file| && file[3] == start
    && file[4] + 0x1_0000_0000 * file[5] == frozen
    && (forall i {:trigger lists[i]} :: 0 <= i < |lists| ==> |lists[i]| <= file[2])
    && (if lists == [] then file[2] == 0 else exists i {:trigger lists[i]} :: 0 <= i < |lists| && |lists[i]| == file[2])
  }

  lemma HeaderInWords(lists: seq<seq<nat>>, start: nat, frozen: nat)
    ensures HeaderIs(FileOf(lists, start, frozen), lists, start, frozen)
  {
    MaxDegreeIsMax(lists);
  }

  // ------------------------------------------------------------------ reading it

  datatype Parsed = Lists(lists: seq<seq<nat>>) | EndOfFile

  function Prepend(done: seq<seq<nat>>, p: Parsed): Parsed {
    if p.Lists? then Lists(done + p.lists) else EndOfFile
  }

  /** Reads records until the bytes expected are used up exactly; a wrong size makes the stream run into its end. */
  function ReadNodes(words: seq<nat>, left: int): Parsed
    decreases |words|
  {
    if left == 0 then Lists([])
    else if words == [] || |words| - 1 < words[0] then EndOfFile
    else
      var k := words[0];
      Prepend([words[1..1 + k]], ReadNodes(words[1 + k..], left - 4 * (k + 1)))
  }

  lemma PrependTwice(a: seq<seq<nat>>, b: seq<seq<nat>>, p: Parsed)
    ensures Prepend(a, Prepend(b, p)) == Prepend(a + b, p)
  {
    if p.Lists? { assert a + (b + p.lists) == a + b + p.lists; }
  }

  lemma FirstRecord(list: seq<nat>, records: seq<nat>, rest: seq<nat>)
    ensures var words := [|list|] + list + records + rest;
      words[0] == |list| && words[1..1 + |list|] == list && words[1 + |list|..] == records + rest
  {
  }

  /** Reading undoes writing; whatever follows the records is not looked at. */
  lemma {:induction false} ReadsBack(lists: seq<seq<nat>>, rest: seq<nat>)
    ensures ReadNodes(Body(lists) + rest, 4 * |Body(lists)|) == Lists(lists)
  {
    if lists != [] {
      FirstRecord(lists[0], Body(lists[1..]), rest);
      ReadsBack(lists[1..], rest);
      assert [lists[0]] + lists[1..] == lists;
    }
  }

  lemma BodyReadsBack(lists: seq<seq<nat>>)
    ensures ReadNodes(Body(lists), 4 * |Body(lists)|) == Lists(lists)
  {
    assert Body(lists) + [] == Body(lists);
    ReadsBack(lists, []);
  }

  /** With the wrong number of bytes, reading succeeds exactly if they end at a record, and then brings the records
      before it. */
  lemma {:induction false} ReadsToABoundary(lists: seq<seq<nat>>, left: int)
    ensures ReadNodes(Body(lists), left).Lists? <==> exists k :: 0 <= k <= |lists| && left == 4 * |Body(lists[..k])|
    ensures forall k :: 0 <= k <= |lists| && left == 4 * |Body(lists[..k])| ==>
      ReadNodes(Body(lists), left) == Lists(lists[..k])
  {
    forall k | 0 <= k <= |lists| && left == 4 * |Body(lists[..k])|
      ensures ReadNodes(Body(lists), left) == Lists(lists[..k]) {
      BodyOfParts(lists[..k], lists[k..]);
      assert lists[..k] + lists[k..] == lists;
      ReadsBack(lists[..k], Body(lists[k..]));
    }
    if left == 0 {
      assert lists[..0] == [];
    } else if lists != [] {
      var first, rest := lists[0], lists[1..];
      FirstRecord(first, Body(rest), []);
      assert [|first|] + first + Body(rest) + [] == Body(lists);
      ReadsToABoundary(rest, left - 4 * (|first| + 1));
      if ReadNodes(Body(lists), left).Lists? {
        var k :| 0 <= k <= |rest| && left - 4 * (|first| + 1) == 4 * |Body(rest[..k])|;
        assert lists[..k + 1] == [first] + rest[..k] && ([first] + rest[..k])[1..] == rest[..k];
        assert left == 4 * |Body(lists[..k + 1])|;
      }
    }
  }

  lemma {:induction false} BodyOfParts(a: seq<seq<nat>>, b: seq<seq<nat>>)
    ensures Body(a + b) == Body(a) + Body(b)
  {
    if a == [] {
      assert a + b == b;
    } else {
      assert (a + b)[1..] == a[1..] + b;
      BodyOfParts(a[1..], b);
    }
  }

  datatype LoadResult = Loaded(nodes: nat, start: nat, frozen: nat) | StreamError | Overrun

  // ------------------------------------------------------------------ the store

  class InMemGraphStore {
    var graph: seq<seq<nat>>
    var maxObservedDegree: nat
    var maxRange: nat

    /** The observed degree bounds every list. */
    ghost predicate Valid()
      reads this
    {
      forall i :: 0 <= i < |graph| ==> |graph[i]| <= maxObservedDegree
    }

    constructor (totalPoints: nat)
      ensures Valid() && |graph| == totalPoints && forall i :: 0 <= i < totalPoints ==> graph[i] == []
    {
      graph, maxObservedDegree, maxRange := seq(totalPoints, i => []), 0, 0;
    }

    /** save_graph: size and degree are written twice, first as placeholders. */
    method SaveGraph(numPoints: nat, numFrozen: nat, start: nat) returns (file: seq<nat>, indexSize: nat)
      requires numPoints <= |graph|
      ensures file == FileOf(graph[..numPoints], start, numFrozen) && indexSize == 4 * |file|
      ensures HeaderIs(file, graph[..numPoints], start, numFrozen)
    {
      file, indexSize := WriteGraph(numPoints, numFrozen, start);
      HeaderInWords(graph[..numPoints], start, numFrozen);
    }

    method WriteGraph(numPoints: nat, numFrozen: nat, start: nat) returns (file: seq<nat>, indexSize: nat)
      requires numPoints <= |graph|
      ensures file == FileOf(graph[..numPoints], start, numFrozen) && indexSize == 4 * |file|
    {
      indexSize := 24;
      var maxDegree := 0;
      file := Long(indexSize) + [maxObservedDegree, start] + Long(numFrozen);
      ghost var header := file;
      for i := 0 to numPoints
        invariant file == header + Body(graph[..i]) && maxDegree == MaxDegree(graph[..i])
          && indexSize == 24 + 4 * |Body(graph[..i])|
      {
        assert graph[..i + 1] == graph[..i] + [graph[i]];
        BodySnoc(graph[..i], graph[i]);
        assert graph[..i + 1][..i] == graph[..i];
        file := file + [|graph[i]|] + graph[i];
        maxDegree := if |graph[i]| > maxDegree then |graph[i]| else maxDegree;
        indexSize := indexSize + 4 * (|graph[i]| + 1);
      }
      file := file[0 := Long(indexSize)[0]][1 := Long(indexSize)[1]][2 := maxDegree];
    }

    method StoreNode(nodes: nat, list: seq<nat>, ghost done: seq<seq<nat>>, ghost sized: seq<seq<nat>>)
      requires nodes == |done| < |graph| == |sized| && graph == done + sized[nodes..]
      modifies this`graph, this`maxRange
      ensures graph == done + [list] + sized[nodes + 1..] && maxRange == Max(|list|, old(maxRange))
    {
      graph := graph[nodes := list];
      if |list| > maxRange {
        maxRange := |list|;
      }
    }

    /** The record loop of load_impl. */
    method LoadNodes(file: seq<nat>, size: int) returns (r: LoadResult)
      requires |file| >= 6
      modifies this`graph, this`maxRange
      ensures LoadedAs(ReadNodes(file[6..], size), file, old(graph), old(maxRange), r, graph, maxRange)
    {
      var left, pos, nodes := size, 6, 0;
      ghost var sized, all, range0 := graph, ReadNodes(file[6..], left), maxRange;
      ghost var done: seq<seq<nat>> := [];
      while left != 0
        invariant 6 <= pos <= |file| && nodes == |done| <= |graph| == |sized|
        invariant graph == done + sized[nodes..]
        invariant all == Prepend(done, ReadNodes(file[pos..], left))
        invariant maxRange == Max(MaxDegree(done), range0)
        decreases |file| - pos
      {
        if pos == |file| || |file| - pos - 1 < file[pos] {
          return StreamError;
        }
        var k := file[pos];
        var list := file[pos + 1..pos + 1 + k];
        NextRecord(file, pos, left, done);
        MaxDegreeSnoc(done, list);
        if nodes == |graph| {
          LongerThan(done, list, ReadNodes(file[pos + 1 + k..], left - 4 * (k + 1)));
          return Overrun;
        }
        StoreNode(nodes, list, done, sized);
        done := done + [list];
        nodes, pos, left := nodes + 1, pos + 1 + k, left - 4 * (k + 1);
      }
      assert done + [] == done;
      r := Loaded(nodes, file[3], FromLong(file[4], file[5]));
    }

    /** load_impl. A file with more nodes than the store was sized for is read past the end of the store. */
    method LoadImpl(file: seq<nat>, expectedNumPoints: nat) returns (r: LoadResult)
      modifies this
      ensures |file| < 6 ==> r == StreamError
      ensures |file| >= 6 ==> maxObservedDegree == file[2]
      ensures |file| >= 6 ==>
        LoadedAs(ReadNodes(file[6..], FromLong(file[0], file[1]) - 24), file, Resized(old(graph), expectedNumPoints),
                    old(maxRange), r, graph, maxRange)
    {
      if |file| < 6 {
        return StreamError;
      }
      maxObservedDegree := file[2];
      graph := Resized(graph, expectedNumPoints);
      r := LoadNodes(file, FromLong(file[0], file[1]) - 24);
    }
  }

  /** The store is enlarged if it is smaller than expected. */
  function Resized(graph: seq<seq<nat>>, expected: nat): (r: seq<seq<nat>>)
    ensures |r| == Max(expected, |graph|) && graph <= r && forall i :: |graph| <= i < |r| ==> r[i] == []
  {
    if |graph| < expected then graph + seq(expected - |graph|, i => []) else graph
  }

  /** What loading makes of the records parsed. */
  ghost predicate LoadedAs(p: Parsed, file: seq<nat>, sized: seq<seq<nat>>, range0: nat, r: LoadResult,
                           graph: seq<seq<nat>>, range: nat)
    requires |file| >= 6
  {
    match p
    case Lists(lists) =>
      if |lists| <= |sized| then
        && r == Loaded(|lists|, file[3], FromLong(file[4], file[5]))
        && graph == lists + sized[|lists|..] && range == Max(MaxDegree(lists), range0)
      else r == Overrun
    case EndOfFile => r == StreamError || r == Overrun
  }

  lemma NextRecord(file: seq<nat>, pos: nat, left: int, done: seq<seq<nat>>)
    requires pos < |file| && file[pos] <= |file| - pos - 1 && left != 0
    ensures var k := file[pos];
      Prepend(done, ReadNodes(file[pos..], left))
        == Prepend(done + [file[pos + 1..pos + 1 + k]], ReadNodes(file[pos + 1 + k..], left - 4 * (k + 1)))
  {
    var k := file[pos];
    assert file[pos..][1..1 + k] == file[pos + 1..pos + 1 + k] && file[pos..][1 + k..] == file[pos + 1 + k..];
    PrependTwice(done, [file[pos + 1..pos + 1 + k]], ReadNodes(file[pos + 1 + k..], left - 4 * (k + 1)));
  }

  lemma LongerThan(done: seq<seq<nat>>, list: seq<nat>, p: Parsed)
    ensures Prepend(done + [list], p).Lists? ==> |Prepend(done + [list], p).lists| > |done|
  {
  }

  /** Loading what was saved gives back the lists in their order, the start, the frozen count and the true largest
      degree. */
  method SaveAndLoad(store: InMemGraphStore, numPoints: nat, numFrozen: nat, start: nat, expected: nat)
    returns (loaded: InMemGraphStore, r: LoadResult)
    requires numPoints <= |store.graph| && numPoints <= expected
    ensures fresh(loaded) && loaded.Valid() && r == Loaded(numPoints, start, numFrozen)
    ensures |loaded.graph| == expected && loaded.graph[..numPoints] == store.graph[..numPoints]
    ensures loaded.maxObservedDegree == MaxDegree(store.graph[..numPoints])
  {
    var file, size := store.SaveGraph(numPoints, numFrozen, start);
    loaded := new InMemGraphStore(0);
    ghost var lists := store.graph[..numPoints];
    FileReadsBack(lists, start, numFrozen);
    r := loaded.LoadImpl(file, expected);
    MaxDegreeIsMax(lists);
  }

  lemma FileReadsBack(lists: seq<seq<nat>>, start: nat, frozen: nat)
    ensures var file := FileOf(lists, start, frozen);
      && ReadNodes(file[6..], FromLong(file[0], file[1]) - 24) == Lists(lists)
      && file[2] == MaxDegree(lists) && file[3] == start && FromLong(file[4], file[5]) == frozen
  {
    AfterHeader(Header(24 + 4 * |Body(lists)|, MaxDegree(lists), start, frozen), Body(lists));
    BodyReadsBack(lists);
  }

  lemma AfterHeader(header: seq<nat>, records: seq<nat>)
    requires |header| == 6
    ensures (header + records)[6..] == records && forall i :: 0 <= i < 6 ==> (header + records)[i] == header[i]
  {
  }
}
