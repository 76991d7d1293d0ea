/** Writing the file with pages from the flat one, in a new order. */
module PqFileWriter {
  import opened Arithmetic
  import opened Bytes
  import opened PqLayout
  import opened PqFile
  import opened PqReaderAio

  /** The header sector: number of vectors, their size, the page size. */
  function Header(num: nat, size: nat, page: nat): (h: seq<Byte>)
    ensures |h| == HEADER
  {
    Word(num) + Word(size) + Word(page) + Zeros(HEADER - 12)
  }

  /** Vectors of one size. */
  ghost predicate Sized(vectors: seq<seq<Byte>>, size: nat) {
    forall i {:trigger vectors[i]} :: 0 <= i < |vectors| ==> |vectors[i]| == size
  }

  function Slot(buff: seq<Byte>, size: nat, v: nat): seq<Byte>
    requires v * size + size <= |buff|
  {
    buff[v * size..v * size + size]
  }

  /** The first n vectors of a page buffer are those from position first on. */
  ghost predicate PageHolds(buff: seq<Byte>, content: seq<seq<Byte>>, size: nat, first: nat, n: nat) {
    && n * size <= |buff| && first + n <= |content|
    && forall v: nat {:trigger Slot(buff, size, v)} :: v < n ==>
      v * size + size <= |buff| && Slot(buff, size, v) == content[first + v]
  }

  lemma PutVector(buff: seq<Byte>, content: seq<seq<Byte>>, size: nat, first: nat, n: nat)
    requires PageHolds(buff, content, size, first, n) && Sized(content, size)
    requires first + n < |content| && n * size + size <= |buff|
    ensures PageHolds(Overwrite(buff, n * size, content[first + n]), content, size, first, n + 1)
  {
    var now := Overwrite(buff, n * size, content[first + n]);
    MulNext(n, size);
    forall v | 0 <= v < n + 1 ensures v * size + size <= |now| && Slot(now, size, v) == content[first + v] {
      if v < n {
        MulApart(v, n, size);
        SlotKept(buff, n * size, content[first + n], size, v);
      } else {
        SlotPut(buff, content[first + n], size, n);
      }
    }
  }

  lemma SlotPut(buff: seq<Byte>, bytes: seq<Byte>, size: nat, v: nat)
    requires v * size + size <= |buff| && |bytes| == size
    ensures Slot(Overwrite(buff, v * size, bytes), size, v) == bytes
  {
    var slot := Slot(Overwrite(buff, v * size, bytes), size, v);
    forall i | 0 <= i < size
      ensures slot[i] == bytes[i] { assert slot[i] == Overwrite(buff, v * size, bytes)[v * size + i]; }
  }

  lemma SlotKept(buff: seq<Byte>, at: nat, bytes: seq<Byte>, size: nat, v: nat)
    requires at + |bytes| <= |buff| && v * size + size <= at
    ensures Slot(Overwrite(buff, at, bytes), size, v) == Slot(buff, size, v)
  {
  }

  /** Clearing the rest of the page leaves its vectors alone. */
  lemma ClearRest(buff: seq<Byte>, content: seq<seq<Byte>>, size: nat, first: nat, n: nat)
    requires PageHolds(buff, content, size, first, n)
    ensures PageHolds(Overwrite(buff, n * size, Zeros(|buff| - n * size)), content, size, first, n)
  {
    var now := Overwrite(buff, n * size, Zeros(|buff| - n * size));
    forall v | 0 <= v < n ensures v * size + size <= |now| && Slot(now, size, v) == content[first + v] {
      MulApart(v, n, size);
      SlotKept(buff, n * size, Zeros(|buff| - n * size), size, v);
    }
  }

  /** Vector id lies where the reader will look for it. */
  ghost predicate VectorAt(out: seq<Byte>, g: Geometry, vector: seq<Byte>, id: nat)
    requires g.Supported()
  {
    g.Position(id) + g.vectorSize <= |out| && out[g.Position(id)..g.Position(id) + g.vectorSize] == vector
  }

  ghost predicate FileHolds(out: seq<Byte>, g: Geometry, content: seq<seq<Byte>>, n: nat)
    requires g.Supported()
  {
    n <= |content| && forall id {:trigger content[id]} :: 0 <= id < n ==> VectorAt(out, g, content[id], id)
  }

  lemma PositionOf(g: Geometry, pages: nat, v: nat)
    requires g.Supported() && g.Paged? && v < g.PerPage()
    ensures g.Position(pages * g.PerPage() + v) == HEADER + pages * g.pageSize + v * g.vectorSize
    ensures v * g.vectorSize + g.vectorSize <= g.pageSize
  {
    AtLeastOne(g.vectorSize, g.pageSize);
    QuotientIs(pages * g.PerPage() + v, pages, g.PerPage());
    MulApart(v, g.PerPage(), g.vectorSize);
  }

  lemma PageWritten(out: seq<Byte>, g: Geometry, content: seq<seq<Byte>>, pages: nat, n: nat, buff: seq<Byte>)
    requires g.Supported() && g.Paged? && FileHolds(out, g, content, pages * g.PerPage())
    requires |out| == HEADER + pages * g.pageSize && |buff| == g.pageSize && n <= g.PerPage()
    requires PageHolds(buff, content, g.vectorSize, pages * g.PerPage(), n)
    ensures FileHolds(out + buff, g, content, pages * g.PerPage() + n)
  {
    var first := pages * g.PerPage();
    forall id | 0 <= id < first + n ensures VectorAt(out + buff, g, content[id], id) {
      if id < first {
        StillThere(out, buff, g, content[id], id);
      } else {
        NewlyThere(out, buff, g, content, pages, n, id - first);
      }
    }
  }

  lemma StillThere(out: seq<Byte>, buff: seq<Byte>, g: Geometry, vector: seq<Byte>, id: nat)
    requires g.Supported() && VectorAt(out, g, vector, id)
    ensures VectorAt(out + buff, g, vector, id)
  {
    Prefix(out, buff, g.Position(id), g.vectorSize);
  }

  lemma NewlyThere(out: seq<Byte>, buff: seq<Byte>, g: Geometry, content: seq<seq<Byte>>, pages: nat, n: nat, v: nat)
    requires g.Supported() && g.Paged? && v < n <= g.PerPage() && |out| == HEADER + pages * g.pageSize
      && |buff| == g.pageSize
    requires PageHolds(buff, content, g.vectorSize, pages * g.PerPage(), n)
    ensures VectorAt(out + buff, g, content[pages * g.PerPage() + v], pages * g.PerPage() + v)
  {
    PositionOf(g, pages, v);
    SlotAppended(out, buff, content, g.vectorSize, pages * g.PerPage(), n, v);
  }

  lemma SlotAppended(out: seq<Byte>, buff: seq<Byte>, content: seq<seq<Byte>>, size: nat, first: nat, n: nat, v: nat)
    requires PageHolds(buff, content, size, first, n) && v < n && v * size + size <= |buff|
    ensures (out + buff)[|out| + v * size..|out| + v * size + size] == content[first + v]
  {
    AfterPrefix(out, buff, v * size, size);
    assert Slot(buff, size, v) == content[first + v];
  }

  lemma Prefix(out: seq<Byte>, buff: seq<Byte>, at: nat, size: nat)
    requires at + size <= |out|
    ensures (out + buff)[at..at + size] == out[at..at + size]
  {
  }

  lemma AfterPrefix(out: seq<Byte>, buff: seq<Byte>, at: nat, size: nat)
    requires at + size <= |buff|
    ensures (out + buff)[|out| + at..|out| + at + size] == buff[at..at + size]
  {
  }

  // ------------------------------------------------------------------ the writing loop

  /** What belongs at a position: the vector its original id names, zeros if it names none. */
  function ContentOf(src: seq<Byte>, num: nat, size: nat, nid: nat): (v: seq<Byte>)
    requires 0 < size && |src| == 8 + num * size
  {
    if nid < num then Stored(Flat(num, size, SECTOR), src, nid) else Zeros(size)
  }

  ghost function Contents(src: seq<Byte>, num: nat, size: nat, order: seq<nat>): (c: seq<seq<Byte>>)
    requires 0 < size && |src| == 8 + num * size
    ensures |c| == |order| && forall i :: 0 <= i < |order| ==> c[i] == ContentOf(src, num, size, order[i])
  {
    seq(|order|, i requires 0 <= i < |order| => ContentOf(src, num, size, order[i]))
  }

  lemma ContentsSized(src: seq<Byte>, num: nat, size: nat, order: seq<nat>)
    requires 0 < size && |src| == 8 + num * size
    ensures Sized(Contents(src, num, size, order), size)
  {
    forall i | 0 <= i < |order| ensures |ContentOf(src, num, size, order[i])| == size {
      if order[i] < num { VectorInFile(Flat(num, size, SECTOR), order[i]); }
    }
  }

  /** Between two vectors: some pages are written, the page buffer holds the beginning of the next. */
  ghost predicate Halfway(g: Geometry, content: seq<seq<Byte>>, out: seq<Byte>, buff: seq<Byte>, pages: nat, vec: nat)
    requires g.Supported() && g.Paged?
  {
    && |out| == HEADER + pages * g.pageSize && |buff| == g.pageSize && vec < g.PerPage()
    && FileHolds(out, g, content, pages * g.PerPage())
      && PageHolds(buff, content, g.vectorSize, pages * g.PerPage(), vec)
  }

  /** A full page, or the last one, is written. */
  method FlushPage(g: Geometry, ghost content: seq<seq<Byte>>, out0: seq<Byte>, buff0: seq<Byte>, ghost pages: nat,
                   n: nat)
    returns (out: seq<Byte>, buff: seq<Byte>)
    requires g.Supported() && g.Paged? && |out0| == HEADER + pages * g.pageSize && |buff0| == g.pageSize
      && n <= g.PerPage()
    requires FileHolds(out0, g, content, pages * g.PerPage())
    requires PageHolds(buff0, content, g.vectorSize, pages * g.PerPage(), n)
    ensures |out| == HEADER + (pages + 1) * g.pageSize && |buff| == g.pageSize && out0 <= out
    ensures FileHolds(out, g, content, pages * g.PerPage() + n)
  {
    buff := Overwrite(buff0, n * g.vectorSize, Zeros(g.pageSize - n * g.vectorSize));
    ClearRest(buff0, content, g.vectorSize, pages * g.PerPage(), n);
    out := out0 + buff;
    PageWritten(out0, g, content, pages, n, buff);
    MulNext(pages, g.pageSize);
  }

  method PutContent(g: Geometry, ghost content: seq<seq<Byte>>, buff0: seq<Byte>, bytes: seq<Byte>, ghost first: nat,
                    vec: nat)
    returns (buff: seq<Byte>)
    requires PageHolds(buff0, content, g.vectorSize, first, vec) && Sized(content, g.vectorSize)
    requires first + vec < |content| && content[first + vec] == bytes && vec * g.vectorSize + g.vectorSize <= |buff0|
    ensures |buff| == |buff0| && PageHolds(buff, content, g.vectorSize, first, vec + 1)
  {
    PutVector(buff0, content, g.vectorSize, first, vec);
    buff := Overwrite(buff0, vec * g.vectorSize, bytes);
  }

  /** The state of the loop when id vectors have been taken: all of them are in the file, or in the file and the
      buffer. */
  ghost predicate Taken(g: Geometry, content: seq<seq<Byte>>, out: seq<Byte>, buff: seq<Byte>, id: nat, pages: nat,
                        vec: nat)
    requires g.Supported() && g.Paged?
  {
    if id == |content| then
      FileHolds(out, g, content, id) && 0 < g.PerPage() && |out| == HEADER + Ceil(id, g.PerPage()) * g.pageSize
    else id == pages * g.PerPage() + vec && Halfway(g, content, out, buff, pages, vec)
  }

  /** One round of the loop. */
  method TakeOne(g: Geometry, ghost content: seq<seq<Byte>>, out0: seq<Byte>, buff0: seq<Byte>, id: nat,
                 ghost pages0: nat, vec0: nat, bytes: seq<Byte>)
    returns (out: seq<Byte>, buff: seq<Byte>, ghost pages: nat, vec: nat)
    requires g.Supported() && g.Paged? && |content| == g.numVectors && Sized(content, g.vectorSize)
    requires id < g.numVectors && Taken(g, content, out0, buff0, id, pages0, vec0) && content[id] == bytes
    ensures Taken(g, content, out, buff, id + 1, pages, vec) && out0 <= out
  {
    AtLeastOne(g.vectorSize, g.pageSize);
    SlotFits(vec0, g.PerPage(), g.vectorSize, g.pageSize);
    buff := PutContent(g, content, buff0, bytes, pages0 * g.PerPage(), vec0);
    out, pages, vec := out0, pages0, vec0 + 1;
    if vec == g.PerPage() || id + 1 == g.numVectors {
      out, buff := FlushPage(g, content, out, buff, pages, vec);
      NextPage(id + 1, g.PerPage(), pages, vec);
      pages, vec := pages + 1, 0;
    }
  }

  /** Position id of a file with pages of perPage vectors holds vector nid of the flat file, or zeros if there is no
      such vector. */
  ghost predicate VectorMoved(src: seq<Byte>, num: nat, size: nat, page: nat, perPage: nat, nid: nat, out: seq<Byte>,
                              id: nat)
    requires 0 < perPage
  {
    var at := 4096 + id / perPage * page + id % perPage * size;
    && 0 <= at && at + size <= |out|
    && (nid < num ==>
        0 <= nid * size && 8 + nid * size + size <= |src|
        && out[at..at + size] == src[8 + nid * size..8 + nid * size + size])
    && (num <= nid ==> out[at..at + size] == Zeros(size))
  }

  lemma MovedInNumbers(src: seq<Byte>, num: nat, size: nat, page: nat, nid: nat, out: seq<Byte>, id: nat)
    requires Paged(num, size, page).Supported() && |src| == 8 + num * size && id < num && 0 < page / size
    requires |out| == Paged(num, size, page).FileSize()
    requires Stored(Paged(num, size, page), out, id) == ContentOf(src, num, size, nid)
    ensures VectorMoved(src, num, size, page, page / size, nid, out, id)
  {
    VectorInFile(Paged(num, size, page), id);
    if nid < num { VectorInFile(Flat(num, size, SECTOR), nid); }
  }

  lemma PagedSize(num: nat, size: nat, page: nat)
    requires Paged(num, size, page).Supported()
    ensures 0 < page / size
    ensures Paged(num, size, page).FileSize() == 4096 + (num + page / size - 1) / (page / size) * page
  {
    AtLeastOne(size, page);
    CeilRoundsUp(num, page / size);
  }

  lemma HeaderBytes(num: nat, size: nat, page: nat, out: seq<Byte>)
    requires Header(num, size, page) <= out
    ensures 4096 <= |out| && out[..4096] == Word(num) + Word(size) + Word(page) + Zeros(4084)
  {
  }

  /** aisaq_create_aligned_rearranged_pq_compressed_vectors_file: without a map the order is the original one. */
  method CreatePagedFile(src: seq<Byte>, num: nat, size: nat, page: nat, order: seq<nat>) returns (out: seq<Byte>)
    requires Paged(num, size, page).Supported() && |src| == 8 + num * size && |order| == num
    ensures |out| == Paged(num, size, page).FileSize() && Header(num, size, page) <= out
    ensures forall id :: 0 <= id < num ==>
      Stored(Paged(num, size, page), out, id) == ContentOf(src, num, size, order[id])
    ensures 0 < page / size && |out| == 4096 + (num + page / size - 1) / (page / size) * page
    ensures 4096 <= |out| && out[..4096] == Word(num) + Word(size) + Word(page) + Zeros(4084)
    ensures forall id {:trigger order[id]} :: 0 <= id < num ==>
      VectorMoved(src, num, size, page, page / size, order[id], out, id)
  {
    out := WritePages(src, num, size, page, order);
    PagedSize(num, size, page);
    HeaderBytes(num, size, page, out);
    forall id | 0 <= id < num
      ensures VectorMoved(src, num, size, page, page / size, order[id], out, id) {
      MovedInNumbers(src, num, size, page, order[id], out, id);
    }
  }

  /** The loop, a page at a time. */
  method WritePages(src: seq<Byte>, num: nat, size: nat, page: nat, order: seq<nat>) returns (out: seq<Byte>)
    requires Paged(num, size, page).Supported() && |src| == 8 + num * size && |order| == num
    ensures |out| == Paged(num, size, page).FileSize() && Header(num, size, page) <= out
    ensures forall id :: 0 <= id < num ==>
      Stored(Paged(num, size, page), out, id) == ContentOf(src, num, size, order[id])
  {
    var g := Paged(num, size, page);
    ghost var content := Contents(src, num, size, order);
    ContentsSized(src, num, size, order);
    AtLeastOne(size, page);
    out := Header(num, size, page);
    var buff := Overwrite(Zeros(page), 0, Word(num) + Word(size) + Word(page));
    var id, vec := 0, 0;
    ghost var pages := 0;
    while id < num
      invariant id <= num && Header(num, size, page) <= out && Taken(g, content, out, buff, id, pages, vec)
    {
      out, buff, pages, vec := TakeOne(g, content, out, buff, id, pages, vec, ContentOf(src, num, size, order[id]));
      id := id + 1;
    }
    forall i | 0 <= i < num ensures Stored(g, out, i) == ContentOf(src, num, size, order[i]) {
      assert VectorAt(out, g, content[i], i);
    }
  }

  lemma SlotFits(v: nat, perPage: nat, size: nat, page: nat)
    requires v < perPage && perPage * size <= page
    ensures v * size + size <= page
  {
    MulApart(v, perPage, size);
  }

  lemma NextPage(num: nat, perPage: nat, pages: nat, n: nat)
    requires 0 < n <= perPage
    ensures num == pages * perPage + n ==> Ceil(num, perPage) == pages + 1
    ensures (pages + 1) * perPage == pages * perPage + perPage
  {
    MulNext(pages, perPage);
    if num == pages * perPage + n { CeilIs(num, pages + 1, perPage); }
  }

  /** A reader on the new file gets, under new id i, the vector whose original id the map names. */
  method ReadFromPagedFile(src: seq<Byte>, num: nat, size: nat, page: nat, order: seq<nat>, ids: seq<nat>, maxIos: nat,
                           cacheBytes: nat)
    returns (vectors: seq<seq<Byte>>)
    requires Paged(num, size, page).Supported() && |src| == 8 + num * size && |order| == num && 0 < maxIos
    requires forall i :: 0 <= i < |ids| ==> ids[i] < num
    requires forall i :: 0 <= i < num ==> order[i] < num
    ensures |vectors| == |ids|
    ensures forall i :: 0 <= i < |ids| ==> vectors[i] == Stored(Flat(num, size, SECTOR), src, order[ids[i]])
  {
    var g := Paged(num, size, page);
    var file := CreatePagedFile(src, num, size, page, order);
    PagesFit(g);
    AddressingIsSound(g, file);
    var reader := new ReaderContext(AddressingOf(g, file), page, file, maxIos, cacheBytes);
    vectors := ReadVectors(reader, ids);
  }
}
