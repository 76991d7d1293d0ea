/** Writing the disk index: the same graph, under the rearranged ids, with the right PQ vectors inline. */
module DiskLayout {
  import opened Arithmetic
  import opened Bytes
  import opened Collections
  import opened PqLayout
  import opened PqFileWriter
  import opened GraphFile
  import opened NodeSizing
  import opened DiskNode

  /** What the disk index is made of: vectors, neighbour lists, PQ vectors. */
  datatype Source = Source(coords: seq<seq<Byte>>, lists: seq<seq<nat>>, pqs: seq<seq<Byte>>) {
    ghost predicate Valid(o: Options) {
      && o.Valid() && |lists| == |coords| == |pqs| < WORD && o.width < WORD
      && Sized(coords, o.coordBytes) && Sized(pqs, o.pqBytes)
      && forall x {:trigger lists[x]} :: 0 <= x < |lists| ==> Below(lists[x], |lists|) && |lists[x]| <= o.width
    }
  }

  /** The ids under which vectors are stored, and the way back. */
  datatype Order = Order(fwd: seq<nat>, rev: seq<nat>) {
    ghost predicate Valid(n: nat) {
      && |fwd| == |rev| == n && Below(fwd, n) && Below(rev, n)
      && forall i {:trigger fwd[i]} {:trigger rev[i]} :: 0 <= i < n ==> rev[fwd[i]] == i && fwd[rev[i]] == i
    }
  }

  function Place(s: Sizes, order: Order, x: nat): nat
    requires s.rearrange ==> x < |order.fwd|
  {
    if s.rearrange then order.fwd[x] else x
  }

  function Origin(s: Sizes, order: Order, i: nat): nat
    requires s.rearrange ==> i < |order.rev|
  {
    if s.rearrange then order.rev[i] else i
  }

  /** What the node of vector x must hold: its own coordinates, its neighbours under their new ids in the same order,
      its original id, and the PQ vectors of its neighbours. */
  ghost function NodeOf(src: Source, s: Sizes, order: Order, x: nat): (c: Content)
    requires x < |src.lists| == |src.coords| == |src.pqs| && Below(src.lists[x], |src.lists|)
    requires s.rearrange ==> |order.fwd| == |src.lists|
    ensures |c.nbrs| == |c.vecs| == |src.lists[x]|
    ensures forall j :: 0 <= j < |src.lists[x]| ==>
      c.nbrs[j] == Place(s, order, src.lists[x][j]) && c.vecs[j] == src.pqs[src.lists[x][j]]
  {
    var l := src.lists[x];
    Content(src.coords[x], seq(|l|, j requires 0 <= j < |l| => Place(s, order, l[j])), x,
            seq(|l|, j requires 0 <= j < |l| => src.pqs[l[j]]))
  }

  lemma NodeFits(o: Options, src: Source, s: Sizes, order: Order, x: nat)
    requires src.Valid(o) && x < |src.lists| && (s.rearrange ==> order.Valid(|src.lists|))
    ensures Below(src.lists[x], |src.lists|) && Fits(o, NodeOf(src, s, order, x))
  {
    var c := NodeOf(src, s, order, x);
    assert src.lists[x] == src.lists[x] && |src.coords[x]| == o.coordBytes;
    forall j | 0 <= j < |c.nbrs| ensures c.nbrs[j] < WORD && |c.vecs[j]| == o.pqBytes {
      assert src.lists[x][j] < |src.lists|;
      assert s.rearrange ==> order.fwd[src.lists[x][j]] < |src.lists|;
    }
  }

  // ------------------------------------------------------------------ reading a node's parts

  /** The words before node i in the records of a graph file. */
  ghost function Offset(lists: seq<seq<nat>>, i: nat): nat
    requires i <= |lists|
  {
    |Body(lists[..i])|
  }

  /** The record of node i lies at its offset. */
  lemma RecordAt(lists: seq<seq<nat>>, i: nat)
    requires i < |lists|
    ensures Offset(lists, i + 1) == Offset(lists, i) + 1 + |lists[i]| <= |Body(lists)|
    ensures Body(lists)[Offset(lists, i)] == |lists[i]|
    ensures Body(lists)[Offset(lists, i) + 1..Offset(lists, i + 1)] == lists[i]
  {
    var a, list, b := lists[..i], lists[i], lists[i + 1..];
    assert lists == a + ([list] + b) && lists[..i + 1] == a + [list];
    RecordPlace(a, list, b);
  }

  /** The records in words: at each node's place its degree, and behind that its list. */
  lemma RecordsInWords(lists: seq<seq<nat>>) returns (at: seq<nat>)
    ensures |at| == |lists| + 1 && at[0] == 0 && at[|lists|] == |Body(lists)|
    ensures forall i :: 0 <= i < |lists| ==>
      at[i + 1] == at[i] + 1 + |lists[i]| <= |Body(lists)|
      && Body(lists)[at[i]] == |lists[i]| && Body(lists)[at[i] + 1..at[i + 1]] == lists[i]
  {
    at := seq(|lists| + 1, i requires 0 <= i <= |lists| => Offset(lists, i));
    assert lists[..|lists|] == lists;
    forall i | 0 <= i < |lists|
      ensures at[i + 1] == at[i] + 1 + |lists[i]| <= |Body(lists)|
        && Body(lists)[at[i]] == |lists[i]| && Body(lists)[at[i] + 1..at[i + 1]] == lists[i]
    {
      RecordAt(lists, i);
    }
  }

  lemma RecordPlace(a: seq<seq<nat>>, list: seq<nat>, b: seq<seq<nat>>)
    ensures var words, at, end := Body(a + ([list] + b)), |Body(a)|, |Body(a + [list])|;
      end == at + 1 + |list| <= |words| && words[at] == |list| && words[at + 1..end] == list
  {
    RecordBetween(a, list, b);
    BodySnoc(a, list);
    MiddleRecord(Body(a), list, Body(b));
  }

  lemma RecordBetween(a: seq<seq<nat>>, list: seq<nat>, b: seq<seq<nat>>)
    ensures Body(a + ([list] + b)) == Body(a) + ([|list|] + list + Body(b))
  {
    BodyOfParts(a, [list] + b);
    assert ([list] + b)[1..] == b;
  }

  lemma MiddleRecord(before: seq<nat>, list: seq<nat>, after: seq<nat>)
    ensures var words := before + ([|list|] + list + after);
      words[|before|] == |list| && words[|before| + 1..|before| + 1 + |list|] == list
  {
  }

  /** The map from node ids to the places of their records. */
  method NodePositions(words: seq<nat>, n: nat, ghost lists: seq<seq<nat>>) returns (pos: seq<nat>)
    requires words == Body(lists) && n == |lists|
    ensures |pos| == n && forall i :: 0 <= i < n ==> pos[i] == Offset(lists, i)
  {
    pos := [];
    var at := 0;
    for i := 0 to n
      invariant |pos| == i && at == Offset(lists, i) && forall j :: 0 <= j < i ==> pos[j] == Offset(lists, j)
    {
      RecordAt(lists, i);
      pos := pos + [at];
      at := at + 1 + words[at];
    }
  }

  /** Reads the list whose record lies at a place. */
  method ReadList(words: seq<nat>, at: nat, ghost lists: seq<seq<nat>>, ghost i: nat) returns (list: seq<nat>)
    requires words == Body(lists) && i < |lists| && at == Offset(lists, i)
    ensures list == lists[i]
  {
    RecordAt(lists, i);
    var nnbrs := words[at];
    list := words[at + 1..at + 1 + nnbrs];
  }

  method Translate(list0: seq<nat>, fwd: seq<nat>) returns (list: seq<nat>)
    requires Below(list0, |fwd|)
    ensures |list| == |list0| && forall j :: 0 <= j < |list| ==> list[j] == fwd[list0[j]]
  {
    list := list0;
    for j := 0 to |list0|
      invariant |list| == |list0| && forall k :: 0 <= k < |list| ==>
        list[k] == if k < j then fwd[list0[k]] else list0[k]
    {
      list := list[j := fwd[list[j]]];
    }
  }

  /** The PQ vectors in the new order: the file they are read from when vectors are rearranged. A progress dot is due
      every hundredth part of the vectors; with fewer than a hundred that part is zero, and the loop divides by it. */
  method RearrangePqs(pqs: seq<seq<Byte>>, rev: seq<nat>) returns (ok: bool, r: seq<seq<Byte>>)
    requires Below(rev, |pqs|)
    ensures ok <==> rev == [] || 100 <= |rev|
    ensures ok ==> |r| == |rev| && forall i :: 0 <= i < |rev| ==> r[i] == pqs[rev[i]]
  {
    var progressStep := |rev| / 100;
    r := [];
    for i := 0 to |rev|
      invariant |r| == i && forall j :: 0 <= j < i ==> r[j] == pqs[rev[j]]
      invariant i > 0 ==> progressStep != 0
    {
      if progressStep == 0 { return false, []; }
      r := r + [pqs[rev[i]]];
    }
    ok := true;
  }

  method PickVectors(pqs: seq<seq<Byte>>, nbrs: seq<nat>) returns (vecs: seq<seq<Byte>>)
    requires Below(nbrs, |pqs|)
    ensures |vecs| == |nbrs| && forall j :: 0 <= j < |nbrs| ==> vecs[j] == pqs[nbrs[j]]
  {
    vecs := [];
    for j := 0 to |nbrs|
      invariant |vecs| == j && forall k :: 0 <= k < j ==> vecs[k] == pqs[nbrs[k]]
    {
      vecs := vecs + [pqs[nbrs[j]]];
    }
  }

  /** What the loops read from: vectors, records, PQ vectors (in the new order if there is one), positions of the
      records. */
  datatype Inputs = Inputs(coords: seq<seq<Byte>>, words: seq<nat>, pqFile: seq<seq<Byte>>, pos: seq<nat>)

  ghost predicate InputsOk(o: Options, src: Source, s: Sizes, order: Order, ins: Inputs) {
    && src.Valid(o) && (s.rearrange ==> order.Valid(|src.lists|))
    && ins.coords == src.coords && ins.words == Body(src.lists) && |ins.pqFile| == |src.pqs| == |ins.pos|
    && (forall i {:trigger ins.pqFile[i]} :: 0 <= i < |src.pqs| ==> ins.pqFile[i] == src.pqs[Origin(s, order, i)])
    && forall i {:trigger ins.pos[i]} :: 0 <= i < |src.lists| ==> ins.pos[i] == Offset(src.lists, i)
  }

  ghost predicate NodeOk(o: Options, src: Source, s: Sizes, order: Order, i: nat, node: seq<Byte>)
    requires src.Valid(o) && (s.rearrange ==> order.Valid(|src.lists|)) && RoomFor(o, s) && i < |src.lists|
  {
    var x := Origin(s, order, i);
    && x < |src.lists| && Below(src.lists[x], |src.lists|) && |src.lists[x]| <= o.width
    && NodeHolds(o, s, node, NodeOf(src, s, order, x))
  }

  /** The node written at place i is that of the vector whose place it is. */
  method NodeAt(o: Options, ghost src: Source, s: Sizes, order: Order, ins: Inputs, i: nat) returns (node: seq<Byte>)
    requires InputsOk(o, src, s, order, ins) && RoomFor(o, s) && i < |src.lists|
    ensures |node| == s.len && NodeOk(o, src, s, order, i, node)
  {
    var rid := if s.rearrange then order.rev[i] else i;
    NodeFits(o, src, s, order, rid);
    var list := ReadList(ins.words, ins.pos[rid], src.lists, rid);
    ghost var original := list;
    if s.rearrange {
      list := Translate(list, order.fwd);
    }
    var vecs := PickVectors(ins.pqFile, list);
    ghost var c := NodeOf(src, s, order, rid);
    forall j | 0 <= j < |list| ensures vecs[j] == c.vecs[j] {
      assert ins.pqFile[list[j]] == src.pqs[Origin(s, order, list[j])];
      assert s.rearrange ==> order.rev[order.fwd[original[j]]] == original[j];
    }
    assert Content(ins.coords[rid], list, rid, vecs) == c;
    node := BuildNode(o, s, Content(ins.coords[rid], list, rid, vecs));
  }

  // ------------------------------------------------------------------ the file

  /** The file as equal pages that hold one or more nodes: a sector, or the sectors of one large node. */
  function Pages(num: nat, len: nat): (g: Geometry)
    requires 0 < len
    ensures g.Paged? && g.Supported() && g.numVectors == num && g.vectorSize == len
  {
    CeilBounds(len, SECTOR_LEN);
    Paged(num, len, SectorsPerNode(len) * SECTOR_LEN)
  }

  /** Nodes share a sector, or fill their sectors alone. */
  lemma PagesAre(num: nat, len: nat)
    requires 0 < len
    ensures PerSector(len) > 0 ==> Pages(num, len).pageSize == SECTOR_LEN && Pages(num, len).PerPage() == PerSector(len)
    ensures PerSector(len) == 0 ==> Pages(num, len).PerPage() == 1
  {
    CeilBounds(len, SECTOR_LEN);
    QuotientBounds(SECTOR_LEN, len);
    if len <= SECTOR_LEN {
      CeilIs(len, 1, SECTOR_LEN);
      DivMonotone(len, SECTOR_LEN, len);
    } else {
      QuotientIs(SECTOR_LEN, 0, len);
      QuotientIs(SectorsPerNode(len) * SECTOR_LEN, 1, len);
    }
  }

  /** Nodes do not overlap. */
  lemma NodesApart(num: nat, len: nat, i: nat, j: nat)
    requires 0 < len && i < j
    ensures Pages(num, len).Position(i) + len <= Pages(num, len).Position(j)
  {
    var g := Pages(num, len);
    AtLeastOne(len, g.pageSize);
    PlacesApart(i, j, g.PerPage(), len, g.pageSize);
  }

  lemma PlacesApart(i: nat, j: nat, perPage: nat, size: nat, page: nat)
    requires i < j && 0 < perPage && perPage * size <= page
    ensures PagedPlace(i, perPage, size, page) + size <= PagedPlace(j, perPage, size, page)
  {
    DivMonotone(i, j, perPage);
    QuotientBounds(i, perPage);
    QuotientBounds(j, perPage);
    MulApart(i / perPage, j / perPage, page);
    MulApart(i % perPage, j % perPage, size);
    MulApart(i % perPage, perPage, size);
    MulMonotone(0, j % perPage, size);
  }

  /** The nodes written so far hold what they must. */
  ghost predicate NodesOk(o: Options, src: Source, s: Sizes, order: Order, nodes: seq<seq<Byte>>)
    requires src.Valid(o) && (s.rearrange ==> order.Valid(|src.lists|)) && RoomFor(o, s)
  {
    && |nodes| <= |src.lists| && Sized(nodes, s.len)
    && forall i {:trigger nodes[i]} :: 0 <= i < |nodes| ==> NodeOk(o, src, s, order, i, nodes[i])
  }

  lemma PageGrows(buff: seq<Byte>, nodes: seq<seq<Byte>>, more: seq<seq<Byte>>, size: nat, first: nat, n: nat)
    requires PageHolds(buff, nodes, size, first, n) && nodes <= more
    ensures PageHolds(buff, more, size, first, n)
  {
    forall v: nat | v < n ensures v * size + size <= |buff| && Slot(buff, size, v) == more[first + v] {
      MulApart(v, n, size);
      assert Slot(buff, size, v) == nodes[first + v] == more[first + v];
    }
  }

  lemma FileGrows(out: seq<Byte>, g: Geometry, nodes: seq<seq<Byte>>, more: seq<seq<Byte>>, n: nat)
    requires g.Supported() && FileHolds(out, g, nodes, n) && nodes <= more
    ensures FileHolds(out, g, more, n)
  {
    forall i | 0 <= i < n ensures VectorAt(out, g, more[i], i) { assert more[i] == nodes[i]; }
  }

  /** Fills one page, a sector with the next nodes or the sectors of one large node. */
  method FillPage(o: Options, ghost src: Source, s: Sizes, order: Order, ins: Inputs, num: nat, perPage: nat,
                  pageSize: nat, first: nat, ghost nodes0: seq<seq<Byte>>)
    returns (buff: seq<Byte>, cur: nat, ghost nodes: seq<seq<Byte>>)
    requires InputsOk(o, src, s, order, ins) && RoomFor(o, s) && num == |src.lists| && perPage * s.len <= pageSize
    requires first == |nodes0| <= num && NodesOk(o, src, s, order, nodes0)
    ensures cur == Min(first + perPage, num) == |nodes| && |buff| == pageSize && nodes0 <= nodes
    ensures NodesOk(o, src, s, order, nodes) && PageHolds(buff, nodes, s.len, first, cur - first)
  {
    buff, cur, nodes := Zeros(pageSize), first, nodes0;
    var k := 0;
    while k < perPage && cur < num
      invariant k <= perPage && cur == first + k == |nodes| <= num && |buff| == pageSize && nodes0 <= nodes
      invariant NodesOk(o, src, s, order, nodes) && PageHolds(buff, nodes, s.len, first, k)
    {
      SlotFits(k, perPage, s.len, pageSize);
      var node;
      ghost var was := nodes;
      node, nodes := NextNode(o, src, s, order, ins, cur, nodes);
      NodeOnPage(buff, was, node, s.len, first, k);
      buff := Overwrite(buff, k * s.len, node);
      cur, k := cur + 1, k + 1;
    }
  }

  /** The next node. */
  method NextNode(o: Options, ghost src: Source, s: Sizes, order: Order, ins: Inputs, cur: nat,
                  ghost nodes0: seq<seq<Byte>>)
    returns (node: seq<Byte>, ghost nodes: seq<seq<Byte>>)
    requires InputsOk(o, src, s, order, ins) && RoomFor(o, s) && cur == |nodes0| < |src.lists|
      && NodesOk(o, src, s, order, nodes0)
    ensures |node| == s.len && nodes == nodes0 + [node] && NodesOk(o, src, s, order, nodes)
  {
    node := NodeAt(o, src, s, order, ins, cur);
    nodes := nodes0 + [node];
    NodesGrow(o, src, s, order, nodes0, node);
  }

  lemma NodeOnPage(buff: seq<Byte>, nodes: seq<seq<Byte>>, node: seq<Byte>, size: nat, first: nat, k: nat)
    requires PageHolds(buff, nodes, size, first, k) && Sized(nodes, size) && |node| == size && first + k == |nodes|
    requires k * size + size <= |buff|
    ensures PageHolds(Overwrite(buff, k * size, node), nodes + [node], size, first, k + 1)
  {
    var more := nodes + [node];
    PageGrows(buff, nodes, more, size, first, k);
    assert Sized(more, size);
    PutVector(buff, more, size, first, k);
  }

  lemma NodesGrow(o: Options, src: Source, s: Sizes, order: Order, nodes: seq<seq<Byte>>, node: seq<Byte>)
    requires src.Valid(o) && (s.rearrange ==> order.Valid(|src.lists|)) && RoomFor(o, s)
    requires NodesOk(o, src, s, order, nodes) && |nodes| < |src.lists| && |node| == s.len
      && NodeOk(o, src, s, order, |nodes|, node)
    ensures NodesOk(o, src, s, order, nodes + [node])
  {
    var more := nodes + [node];
    assert Sized(more, s.len);
    forall i | 0 <= i < |more| ensures NodeOk(o, src, s, order, i, more[i]) {
      if i < |nodes| { assert NodeOk(o, src, s, order, i, nodes[i]); }
    }
  }

  /** Writes all pages behind the first sector. */
  method WritePages(o: Options, ghost src: Source, s: Sizes, order: Order, ins: Inputs, num: nat, perPage: nat,
                    pageSize: nat)
    returns (out: seq<Byte>, ghost nodes: seq<seq<Byte>>)
    requires InputsOk(o, src, s, order, ins) && RoomFor(o, s) && num == |src.lists| && 0 < s.len
    requires perPage == Pages(num, s.len).PerPage() && 0 < perPage && pageSize == Pages(num, s.len).pageSize
      && perPage * s.len <= pageSize
    ensures |nodes| == num && NodesOk(o, src, s, order, nodes)
    ensures FileHolds(out, Pages(num, s.len), nodes, num) && |out| == HEADER + Ceil(num, perPage) * pageSize
  {
    out, nodes := Zeros(HEADER), [];
    var cur := 0;
    for page := 0 to Ceil(num, perPage)
      invariant cur == Min(page * perPage, num) == |nodes| && NodesOk(o, src, s, order, nodes)
      invariant FileHolds(out, Pages(num, s.len), nodes, cur) && |out| == HEADER + page * pageSize
    {
      PageStarts(page, num, perPage);
      var buff;
      ghost var was, first := nodes, cur;
      buff, cur, nodes := FillPage(o, src, s, order, ins, num, perPage, pageSize, cur, nodes);
      FileGrows(out, Pages(num, s.len), was, nodes, first);
      PageWritten(out, Pages(num, s.len), nodes, page, cur - first, buff);
      MulNext(page, pageSize);
      MulNext(page, perPage);
      out := out + buff;
    }
    CeilBounds(num, perPage);
  }

  lemma PageStarts(page: nat, num: nat, perPage: nat)
    requires 0 < perPage && page < Ceil(num, perPage)
    ensures page * perPage < num
  {
    CeilBounds(num, perPage);
    MulApart(page, Ceil(num, perPage), perPage);
  }

  /** A sector of metadata, and as many sectors as the nodes need. */
  lemma FileLength(num: nat, len: nat, size: nat, perSector: nat)
    requires 0 < len && perSector == PerSector(len)
    requires 0 < Pages(num, len).PerPage()
      && size == HEADER + Ceil(num, Pages(num, len).PerPage()) * Pages(num, len).pageSize
    ensures len <= 4096 ==> 0 < perSector && size == 4096 + (num + perSector - 1) / perSector * 4096
    ensures 4096 < len ==> perSector == 0 && size == 4096 + num * ((len + 4095) / 4096 * 4096)
  {
    PagesAre(num, len);
    CeilRoundsUp(len, 4096);
    CeilRoundsUp(num, Pages(num, len).PerPage());
    if len <= 4096 {
      DivMonotone(len, 4096, len);
    } else {
      QuotientIs(4096, 0, len);
      QuotientIs(num, num, 1);
    }
  }

  /** The metadata of the index: points, where the search starts, node size, nodes per sector, file size, inline,
      rearranged. */
  datatype Meta = Meta(npts: nat, medoid: nat, nodeLen: nat, perSector: nat, fileSize: nat, inlinePq: nat,
                       rearrange: bool)

  /** create_disk_layout, from the point where the ids are known: the node of every vector x lies at the place of its
      new id and holds x's coordinates, x's neighbours under their new ids, x itself, and the PQ vectors of x's
      neighbours. */
  method CreateDiskLayout(o: Options, ghost src: Source, coords: seq<seq<Byte>>, words: seq<nat>, pqs: seq<seq<Byte>>,
                          order: Order, medoid: nat)
    returns (ok: bool, out: seq<Byte>, meta: Meta)
    requires src.Valid(o) && coords == src.coords && words == Body(src.lists) && pqs == src.pqs && medoid < |pqs|
    requires Sizing(o).rearrange ==> order.Valid(|pqs|)
    ensures ok <==> !Sizing(o).rearrange || 100 <= |pqs|
    ensures ok ==> meta == Meta(|pqs|, Place(Sizing(o), order, medoid), Sizing(o).len, PerSectorOf(o), |out|,
                                if Sizing(o).inlineVectors > 0 then o.width else 0, Sizing(o).rearrange)
    ensures ok ==> meta.medoid == (if meta.rearrange then order.fwd[medoid] else medoid)
    ensures ok ==> 0 < meta.nodeLen && meta.perSector == 4096 / meta.nodeLen
    ensures ok && meta.nodeLen <= 4096 ==>
      0 < meta.perSector && |out| == 4096 + (|pqs| + meta.perSector - 1) / meta.perSector * 4096
    ensures ok && 4096 < meta.nodeLen ==> |out| == 4096 + |pqs| * ((meta.nodeLen + 4095) / 4096 * 4096)
    ensures RoomFor(o, Sizing(o)) && 0 < Sizing(o).len
    ensures ok ==> forall x :: 0 <= x < |pqs| ==> NodeFound(o, src, order, out, x)
  {
    var s, num := Sizing(o), |pqs|;
    SizingMakesRoom(o);
    PagesAre(num, s.len);
    ok, out := true, [];
    meta := Meta(0, 0, 0, 0, 0, 0, false);
    var pqFile := pqs;
    if s.rearrange {
      ok, pqFile := RearrangePqs(pqs, order.rev);
      if !ok { return; }
    }
    var pos := NodePositions(words, num, src.lists);
    var ins := Inputs(coords, words, pqFile, pos);
    ReadyToWrite(o, src, s, order, ins);
    var perSector := SECTOR_LEN / s.len;
    var g := Pages(num, s.len);
    AtLeastOne(s.len, g.pageSize);
    ghost var nodes;
    out, nodes := WritePages(o, src, s, order, ins, num, if perSector > 0 then perSector else 1,
                             SectorsPerNode(s.len) * SECTOR_LEN);
    FileLength(num, s.len, |out|, perSector);
    meta := Meta(num, if s.rearrange then order.fwd[medoid] else medoid, s.len, perSector, |out|,
                 if s.inlineVectors > 0 then o.width else 0, s.rearrange);
    forall x | 0 <= x < num ensures NodeFound(o, src, order, out, x) {
      FoundAtItsPlace(o, src, s, order, out, nodes, x);
    }
  }

  function PerSectorOf(o: Options): nat
    requires o.Valid()
  {
    SizingMakesRoom(o);
    PerSector(Sizing(o).len)
  }

  /** The node of x lies at a place of the file. */
  ghost predicate NodeLiesAt(o: Options, src: Source, s: Sizes, order: Order, out: seq<Byte>, x: nat, at: nat)
    requires src.Valid(o) && x < |src.lists| && (s.rearrange ==> order.Valid(|src.lists|)) && RoomFor(o, s)
  {
    && at + s.len <= |out| && Below(src.lists[x], |src.lists|) && |src.lists[x]| <= o.width
    && NodeHolds(o, s, out[at..at + s.len], NodeOf(src, s, order, x))
  }

  /** The node of x is found at its place in the file. */
  ghost predicate NodeFound(o: Options, src: Source, order: Order, out: seq<Byte>, x: nat)
    requires src.Valid(o) && x < |src.lists| && (Sizing(o).rearrange ==> order.Valid(|src.lists|))
    requires RoomFor(o, Sizing(o)) && 0 < Sizing(o).len
  {
    NodeLiesAt(o, src, Sizing(o), order, out, x,
               Pages(|src.lists|, Sizing(o).len).Position(Place(Sizing(o), order, x)))
  }

  lemma ReadyToWrite(o: Options, src: Source, s: Sizes, order: Order, ins: Inputs)
    requires src.Valid(o) && (s.rearrange ==> order.Valid(|src.lists|))
    requires ins.coords == src.coords && ins.words == Body(src.lists) && |ins.pqFile| == |src.pqs| == |ins.pos|
    requires if s.rearrange then forall i :: 0 <= i < |src.pqs| ==> ins.pqFile[i] == src.pqs[order.rev[i]]
             else ins.pqFile == src.pqs
    requires forall i :: 0 <= i < |src.lists| ==> ins.pos[i] == Offset(src.lists, i)
    ensures InputsOk(o, src, s, order, ins)
  {
  }

  lemma FoundAtItsPlace(o: Options, src: Source, s: Sizes, order: Order, out: seq<Byte>, nodes: seq<seq<Byte>>, x: nat)
    requires src.Valid(o) && s == Sizing(o) && (s.rearrange ==> order.Valid(|src.lists|)) && RoomFor(o, s) && 0 < s.len
    requires |nodes| == |src.lists| && NodesOk(o, src, s, order, nodes) && x < |nodes|
    requires FileHolds(out, Pages(|nodes|, s.len), nodes, |nodes|)
    ensures NodeFound(o, src, order, out, x)
  {
    var g, i := Pages(|nodes|, s.len), Place(s, order, x);
    ReadFromFile(out, g, nodes, i);
    LiesThere(o, src, s, order, out, nodes, x, g.Position(i));
  }

  lemma ReadFromFile(out: seq<Byte>, g: Geometry, nodes: seq<seq<Byte>>, i: nat)
    requires g.Supported() && FileHolds(out, g, nodes, |nodes|) && i < |nodes|
    ensures g.Position(i) + g.vectorSize <= |out|
    ensures out[g.Position(i)..g.Position(i) + g.vectorSize] == nodes[i]
  {
    assert VectorAt(out, g, nodes[i], i);
  }

  lemma LiesThere(o: Options, src: Source, s: Sizes, order: Order, out: seq<Byte>, nodes: seq<seq<Byte>>, x: nat,
                  at: nat)
    requires src.Valid(o) && (s.rearrange ==> order.Valid(|src.lists|)) && RoomFor(o, s)
    requires |nodes| == |src.lists| && NodesOk(o, src, s, order, nodes) && x < |nodes|
    requires at + s.len <= |out| && out[at..at + s.len] == nodes[Place(s, order, x)]
    ensures NodeLiesAt(o, src, s, order, out, x, at)
  {
    assert Origin(s, order, Place(s, order, x)) == x;
    assert NodeOk(o, src, s, order, Place(s, order, x), nodes[Place(s, order, x)]);
  }

  // ------------------------------------------------------------------ the file in numbers

  /** Where node i begins, in bytes: behind a sector of metadata, as many nodes in a sector as fit, or a node in as many
      sectors as it needs. */
  lemma NodePosition(num: nat, len: nat, i: nat)
    requires 0 < len
    ensures len <= 4096 ==> 0 < 4096 / len
    ensures len <= 4096 ==>
      Pages(num, len).Position(i) == 4096 + i / (4096 / len) * 4096 + i % (4096 / len) * len
    ensures 4096 < len ==> Pages(num, len).Position(i) == 4096 + i * ((len + 4095) / 4096 * 4096)
  {
    PagesAre(num, len);
    CeilRoundsUp(len, 4096);
    AtLeastOne(len, Pages(num, len).pageSize);
    if len <= 4096 {
      DivMonotone(len, 4096, len);
    } else {
      QuotientIs(4096, 0, len);
      OneAPage(i, len, Pages(num, len).pageSize);
    }
  }

  lemma OneAPage(i: nat, len: nat, page: nat)
    ensures PagedPlace(i, 1, len, page) == i * page
  {
    assert i / 1 == i && i % 1 == 0;
  }

  /** The content of the node of x: neighbours under their new ids, and the PQ vectors of the first ones. */
  lemma {:induction false} NodeParts(o: Options, src: Source, s: Sizes, order: Order, x: nat)
    returns (names: seq<nat>, vecs: seq<seq<Byte>>)
    requires src.Valid(o) && x < |src.lists| && (s.rearrange ==> order.Valid(|src.lists|))
      && Below(src.lists[x], |src.lists|)
    ensures var c := NodeOf(src, s, order, x);
      c.coords == src.coords[x] && c.origin == x && names == c.nbrs && vecs == c.vecs[..Min(s.inlineVectors, |names|)]
    ensures |names| == |src.lists[x]| <= o.width && |vecs| == Min(s.inlineVectors, |names|)
    ensures forall j :: 0 <= j < |names| ==>
      names[j] == if s.rearrange then order.fwd[src.lists[x][j]] else src.lists[x][j]
    ensures forall j :: 0 <= j < |vecs| ==> vecs[j] == src.pqs[src.lists[x][j]]
  {
    var c := NodeOf(src, s, order, x);
    assert src.lists[x] == src.lists[x];
    names, vecs := c.nbrs, c.vecs[..Min(s.inlineVectors, |c.nbrs|)];
  }

  lemma {:induction false} LaidOut(o: Options, s: Sizes, node: seq<Byte>, c: Content, vecs: seq<seq<Byte>>)
    requires RoomFor(o, s) && |c.nbrs| <= o.width && |c.vecs| == |c.nbrs| && NodeHolds(o, s, node, c)
    requires vecs == c.vecs[..Min(s.inlineVectors, |c.nbrs|)]
    ensures var used := o.coordBytes + 4 * (o.width + 1) + (if s.rearrange then 4 else 0) + |vecs| * o.pqBytes;
      && used <= s.len
      && node == c.coords + Word(|c.nbrs|) + Words(c.nbrs) + Zeros(4 * (o.width - |c.nbrs|))
         + (if s.rearrange then Word(c.origin) else []) + Concat(vecs) + Zeros(s.len - used)
  {
  }

  /** The node of x, byte by byte and in the order of the bytes: its coordinates, how many neighbours it has, their ids,
      room for the neighbours it might have had, its original id if ids have changed, the PQ vectors of the first
      neighbours, and nothing behind them. */
  lemma {:induction false} NodeInBytes(o: Options, src: Source, s: Sizes, order: Order, out: seq<Byte>, x: nat, at: nat)
    returns (names: seq<nat>, vecs: seq<seq<Byte>>)
    requires src.Valid(o) && x < |src.lists| && (s.rearrange ==> order.Valid(|src.lists|)) && RoomFor(o, s)
    requires NodeLiesAt(o, src, s, order, out, x, at)
    ensures Below(src.lists[x], |src.lists|) && |names| == |src.lists[x]| <= o.width
    ensures forall j :: 0 <= j < |names| ==>
      names[j] == if s.rearrange then order.fwd[src.lists[x][j]] else src.lists[x][j]
    ensures |vecs| == if s.inlineVectors < |names| then s.inlineVectors else |names|
    ensures forall j :: 0 <= j < |vecs| ==> vecs[j] == src.pqs[src.lists[x][j]]
    ensures var used := o.coordBytes + 4 * (o.width + 1) + (if s.rearrange then 4 else 0) + |vecs| * o.pqBytes;
      && at + s.len <= |out| && used <= s.len
      && out[at..at + s.len] == src.coords[x] + Word(|names|) + Words(names) + Zeros(4 * (o.width - |names|))
         + (if s.rearrange then Word(x) else []) + Concat(vecs) + Zeros(s.len - used)
  {
    names, vecs := NodeParts(o, src, s, order, x);
    LaidOut(o, s, out[at..at + s.len], NodeOf(src, s, order, x), vecs);
  }
}
