/** The disk index as a whole: numbering the vectors, writing their nodes and their PQ vectors, and finding both
    again. */
module DiskIndex {
  import opened Arithmetic
  import opened Bytes
  import opened Collections
  import opened GraphFile
  import opened NodeSizing
  import opened DiskNode
  import opened PqLayout
  import opened PqFile
  import opened PqReaderAio
  import opened PqFileWriter
  import opened Rearrange
  import opened DiskLayout

  /** A flat file that holds the first n vectors. */
  ghost predicate FlatFile(file: seq<Byte>, vectors: seq<seq<Byte>>, size: nat, n: nat) {
    && |file| == 8 + n * size && n <= |vectors|
    && forall i {:trigger vectors[i]} :: 0 <= i < n ==> FlatVector(file, vectors[i], size, i)
  }

  ghost predicate FlatVector(file: seq<Byte>, vector: seq<Byte>, size: nat, i: nat) {
    8 + i * size + size <= |file| && file[8 + i * size..8 + i * size + size] == vector
  }

  lemma FlatGrows(file: seq<Byte>, vectors: seq<seq<Byte>>, size: nat, n: nat)
    requires FlatFile(file, vectors, size, n) && n < |vectors| && Sized(vectors, size)
    ensures FlatFile(file + vectors[n], vectors, size, n + 1)
  {
    MulNext(n, size);
    var more := file + vectors[n];
    forall i | 0 <= i <= n ensures FlatVector(more, vectors[i], size, i) {
      if i < n {
        assert FlatVector(file, vectors[i], size, i);
        StaysAt(file, vectors[n], vectors[i], 8 + i * size);
      } else {
        AppendedAt(file, vectors[n], 8 + i * size);
      }
    }
  }

  lemma StaysAt(file: seq<Byte>, last: seq<Byte>, vector: seq<Byte>, at: nat)
    requires at + |vector| <= |file| && file[at..at + |vector|] == vector
    ensures (file + last)[at..at + |vector|] == vector
  {
  }

  lemma AppendedAt(file: seq<Byte>, last: seq<Byte>, at: nat)
    requires at == |file|
    ensures (file + last)[at..at + |last|] == last
  {
  }

  method WriteFlatFile(vectors: seq<seq<Byte>>, size: nat) returns (file: seq<Byte>)
    requires 0 < size && Sized(vectors, size)
    ensures FlatFile(file, vectors, size, |vectors|)
  {
    file := Word(|vectors|) + Word(size);
    for i := 0 to |vectors|
      invariant FlatFile(file, vectors, size, i)
    {
      FlatGrows(file, vectors, size, i);
      file := file + vectors[i];
    }
  }

  /** The file with pages holds the PQ vector of every x under x's new id. */
  ghost predicate PagesHold(file: seq<Byte>, pqs: seq<seq<Byte>>, size: nat, order: Order)
    requires 0 < size <= HEADER && order.Valid(|pqs|)
  {
    var g := Paged(|pqs|, size, HEADER);
    && |file| == g.FileSize()
    && forall x {:trigger pqs[x]} :: 0 <= x < |pqs| ==> StoredOf(g, file, order.fwd[x]) == pqs[x]
  }

  function Identity(n: nat): (r: seq<nat>)
    ensures |r| == n && forall i :: 0 <= i < n ==> r[i] == i
  {
    seq(n, i => i)
  }

  /** Both files of PQ vectors: the flat one in the new order, and from it the one with pages. */
  method WritePqFiles(pqs: seq<seq<Byte>>, size: nat, order: Order) returns (ok: bool, file: seq<Byte>)
    requires 0 < size <= HEADER && Sized(pqs, size) && order.Valid(|pqs|)
    ensures ok <==> pqs == [] || 100 <= |pqs|
    ensures ok ==> PagesHold(file, pqs, size, order)
  {
    var moved;
    ok, moved := RearrangePqs(pqs, order.rev);
    file := [];
    if ok {
      var flat := WriteFlatFile(moved, size);
      file := CreatePagedFile(flat, |pqs|, size, HEADER, Identity(|pqs|));
      forall x | 0 <= x < |pqs| ensures StoredOf(Paged(|pqs|, size, HEADER), file, order.fwd[x]) == pqs[x] {
        FlatStored(flat, moved, size, order.fwd[x]);
        assert order.rev[order.fwd[x]] == x;
      }
    }
  }

  lemma FlatStored(flat: seq<Byte>, vectors: seq<seq<Byte>>, size: nat, id: nat)
    requires 0 < size && FlatFile(flat, vectors, size, |vectors|) && id < |vectors|
    ensures ContentOf(flat, |vectors|, size, id) == vectors[id]
  {
    assert FlatVector(flat, vectors[id], size, id);
  }

  method ReadLists(words: seq<nat>, n: nat, ghost lists: seq<seq<nat>>) returns (g: seq<seq<nat>>)
    requires words == Body(lists) && n == |lists|
    ensures g == lists
  {
    var pos := NodePositions(words, n, lists);
    g := [];
    for i := 0 to n
      invariant g == lists[..i]
    {
      var list := ReadList(words, pos[i], lists, i);
      g := g + [list];
    }
  }

  /** The new ids and the way back, by hops from the entry points. */
  method Numbering(lists: seq<seq<nat>>, entries: seq<nat>) returns (ok: bool, order: Order)
    requires |lists| < WORD && Below(entries, |lists|) && forall x :: 0 <= x < |lists| ==> Below(lists[x], |lists|)
    ensures ok <==> lists != [] && entries != []
    ensures ok ==> order.Valid(|lists|) && NumberedByHops(lists, Elems(entries), order.fwd)
  {
    var vmap, rev;
    ghost var numbered;
    ok, vmap, numbered := GenerateMap(Nhops, |lists|, entries, [], lists, {});
    order := Order([], []);
    if ok {
      NumberingIsPermutation(vmap, numbered);
      ok, rev := CreateReversedMap(vmap);
      assert Readable(lists, {}) == lists && Elems(entries) + Elems([]) == Elems(entries);
      order := Order(vmap, rev);
    }
  }

  /** create_disk_layout: it fails exactly when vectors are to be rearranged and there is no entry point, or there are
      fewer than a hundred of them; otherwise every node, and with rearranged vectors every PQ vector, is found under
      its new id, and new ids grow with the number of hops from the entry points. */
  method BuildDiskIndex(o: Options, ghost src: Source, coords: seq<seq<Byte>>, words: seq<nat>, pqs: seq<seq<Byte>>,
                        entries: seq<nat>, medoid: nat)
    returns (ok: bool, out: seq<Byte>, pqFile: seq<Byte>, meta: Meta, order: Order)
    requires src.Valid(o) && coords == src.coords && words == Body(src.lists) && pqs == src.pqs && medoid < |pqs|
    requires Below(entries, |pqs|) && o.pqBytes <= HEADER
    ensures ok <==> !Sizing(o).rearrange || (entries != [] && 100 <= |pqs|)
    ensures RoomFor(o, Sizing(o)) && 0 < Sizing(o).len
    ensures ok && Sizing(o).rearrange ==>
      order.Valid(|pqs|) && NumberedByHops(src.lists, Elems(entries), order.fwd)
        && PagesHold(pqFile, pqs, o.pqBytes, order)
    ensures ok ==> forall x :: 0 <= x < |pqs| ==> NodeFound(o, src, order, out, x)
    ensures ok ==> meta.npts == |pqs| && meta.medoid == Place(Sizing(o), order, medoid) && meta.nodeLen == Sizing(o).len
  {
    SizingMakesRoom(o);
    ok, out, pqFile, meta, order := true, [], [], Meta(0, 0, 0, 0, 0, 0, false), Order([], []);
    if Sizing(o).rearrange {
      var lists := ReadLists(words, |pqs|, src.lists);
      ok, order := Numbering(lists, entries);
      if !ok { return; }
      ok, pqFile := WritePqFiles(pqs, o.pqBytes, order);
      if !ok { return; }
    }
    ok, out, meta := CreateDiskLayout(o, src, coords, words, pqs, order, medoid);
  }

  // ------------------------------------------------------------------ what a search reads

  /** The list of the node stored under an id. */
  method ReadNodeList(o: Options, ghost src: Source, ghost order: Order, out: seq<Byte>, num: nat, id: nat,
                      ghost x: nat)
    returns (list: seq<nat>)
    requires src.Valid(o) && num == |src.lists| && x < num && (Sizing(o).rearrange ==> order.Valid(num))
    requires RoomFor(o, Sizing(o)) && 0 < Sizing(o).len && NodeFound(o, src, order, out, x)
      && id == Place(Sizing(o), order, x)
    ensures |list| == |src.lists[x]| && Below(src.lists[x], num)
    ensures forall j :: 0 <= j < |list| ==> list[j] == Place(Sizing(o), order, src.lists[x][j])
  {
    var s := Sizing(o);
    var at := Pages(num, s.len).Position(id);
    ghost var c := NodeOf(src, s, order, x);
    NodeFits(o, src, s, order, x);
    FieldsRead(o, s, c, out[at..at + s.len]);
    list := ReadWords(o, out[at..at + s.len], c.nbrs);
  }

  /** The list of a node, from its bytes. */
  method ReadWords(o: Options, node: seq<Byte>, ghost nbrs: seq<nat>) returns (list: seq<nat>)
    requires CountAt(o) + 4 <= |node| && ListAt(o, 0) + 4 * |nbrs| <= |node| && WordAt(node, CountAt(o)) == |nbrs|
    requires forall j {:trigger nbrs[j]} :: 0 <= j < |nbrs| ==> WordAt(node, ListAt(o, j)) == nbrs[j]
    ensures list == nbrs
  {
    var count := WordAt(node, CountAt(o));
    list := [];
    for j := 0 to count
      invariant |list| == j && forall k :: 0 <= k < j ==> list[k] == nbrs[k]
    {
      assert nbrs[j] == nbrs[j];
      var y := WordAt(node, ListAt(o, j));
      list := list + [y];
    }
  }

  /** What a search does at a node of an index with rearranged vectors: the ids on the stored list, read from the file
      with pages, bring the PQ vectors of the neighbours the node had in the graph. */
  method FetchNeighbours(o: Options, ghost src: Source, ghost order: Order, out: seq<Byte>, pqFile: seq<Byte>, num: nat,
                         id: nat, ghost x: nat, maxIos: nat, cacheBytes: nat)
    returns (list: seq<nat>, vectors: seq<seq<Byte>>)
    requires src.Valid(o) && num == |src.lists| && x < num && Sizing(o).rearrange && order.Valid(num)
    requires RoomFor(o, Sizing(o)) && 0 < Sizing(o).len && NodeFound(o, src, order, out, x) && id == order.fwd[x]
    requires o.pqBytes <= HEADER && PagesHold(pqFile, src.pqs, o.pqBytes, order) && 0 < maxIos
    ensures |list| == |vectors| == |src.lists[x]| && Below(src.lists[x], num)
    ensures forall j :: 0 <= j < |list| ==>
      list[j] == order.fwd[src.lists[x][j]] && vectors[j] == src.pqs[src.lists[x][j]]
  {
    list := ReadNodeList(o, src, order, out, num, id, x);
    var g := Paged(num, o.pqBytes, HEADER);
    PagesFit(g);
    AddressingIsSound(g, pqFile);
    var reader := new ReaderContext(AddressingOf(g, pqFile), HEADER, pqFile, maxIos, cacheBytes);
    forall j | 0 <= j < |list| ensures list[j] < num { assert src.lists[x][j] < num; }
    vectors := ReadVectors(reader, list);
    forall j | 0 <= j < |list| ensures vectors[j] == src.pqs[src.lists[x][j]] {
      assert StoredOf(g, pqFile, order.fwd[src.lists[x][j]]) == src.pqs[src.lists[x][j]];
    }
  }
}
