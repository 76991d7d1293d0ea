/** Reading vectors from a file, and writing the file with pages that is read from. */
module PqFile {
  import opened Arithmetic
  import opened Bytes
  import opened Collections
  import opened PqLayout
  import opened PqPool
  import opened PqBatch
  import opened PqSubmit
  import opened PqWait
  import opened PqReader
  import opened PqReaderAio

  /** The bytes of a vector, as they are in the file. */
  function Stored(g: Geometry, file: seq<Byte>, id: nat): seq<Byte>
    requires g.Supported() && |file| == g.FileSize() && id < g.numVectors
  {
    VectorInFile(g, id);
    file[g.Position(id)..g.Position(id) + g.vectorSize]
  }

  /** A read that covers the sectors of a vector brings its bytes, at the offset. */
  lemma SectorsHold(g: Geometry, file: seq<Byte>, id: nat, r: Range)
    requires g.Supported() && |file| == g.FileSize() && id < g.numVectors
    requires r.from == g.Params(id).from && g.Params(id).to <= r.to
    ensures var o := g.Params(id).offset;
      0 <= o && o + g.vectorSize <= |Sectors(file, r)| && Sectors(file, r)[o..o + g.vectorSize] == Stored(g, file, id)
  {
    ParamsAddress(g, id);
    VectorInFile(g, id);
    assert (g.Params(id).to + 1) * SECTOR <= (r.to + 1) * SECTOR;
    SliceOfSlice(file, r.from * SECTOR, (r.to + 1) * SECTOR, g.Position(id), g.vectorSize);
  }

  lemma SliceOfSlice(file: seq<Byte>, lo: nat, end: nat, at: nat, size: nat)
    requires lo <= at && at + size <= end && at + size <= |file|
    ensures var hi := if end < |file| then end else |file|;
      lo <= hi && at - lo + size <= hi - lo && file[lo..hi][at - lo..at - lo + size] == file[at..at + size]
  {
    var hi := if end < |file| then end else |file|;
    var part, whole := file[lo..hi][at - lo..at - lo + size], file[at..at + size];
    assert |part| == |whole| == size;
    forall i | 0 <= i < size
      ensures part[i] == whole[i] { assert part[i] == file[lo..hi][at - lo + i] == file[at + i]; }
  }

  /** A file, as the reader addresses it. */
  function AddressingOf(g: Geometry, file: seq<Byte>): Addressing
    requires g.Supported() && |file| == g.FileSize()
  {
    Addressing(g.Paged?, g.numVectors, g.vectorSize, g.MaxIoSectors(),
               (id: nat) => ParamsOf(g, id), (from: nat) => PageOfSector(g, from), (id: nat) => StoredOf(g, file, id))
  }

  function ParamsOf(g: Geometry, id: nat): Range {
    if g.Supported() then g.Params(id) else Range(0, 0, 0)
  }

  function PageOfSector(g: Geometry, from: nat): nat {
    if g.Supported() && g.Paged? && 0 < g.SectorsPerPage() then from / g.SectorsPerPage() else 0
  }

  function StoredOf(g: Geometry, file: seq<Byte>, id: nat): seq<Byte> {
    if g.Supported() && |file| == g.FileSize() && id < g.numVectors then Stored(g, file, id) else []
  }

  /** The addresses are what the reader relies on, page by page and byte by byte, on any file whose reads fit the
      buffers. */
  lemma AddressingIsSound(g: Geometry, file: seq<Byte>)
    requires g.Supported() && |file| == g.FileSize() && g.AllReadsFit()
    ensures AddressingOf(g, file).Sound() && Holds(AddressingOf(g, file), file)
  {
    var at := AddressingOf(g, file);
    forall id: nat | id < at.numVectors ensures at.params(id).to - at.params(id).from + 1 <= at.capacity {
      assert g.ReadFitsAt(id);
      FitOrNot(g, id);
    }
    if g.Paged? {
      forall i: nat, j: nat
        ensures at.params(i).from == at.params(j).from ==> at.params(i).to == at.params(j).to
        ensures at.PageOf(at.params(i)) == at.PageOf(at.params(j)) <==> at.params(i).from == at.params(j).from
      {
        SameOrApart(g, i, j);
      }
    }
    forall id: nat, r: Range | id < at.numVectors && r.from == at.params(id).from && at.params(id).to <= r.to
      ensures Found(at, Sectors(file, r), id)
    {
      SectorsHold(g, file, id, r);
    }
  }

  /** Conversely the reader can be set up on a file only if every read fits. */
  lemma SoundMeansAllFit(g: Geometry, file: seq<Byte>)
    requires g.Supported() && |file| == g.FileSize() && AddressingOf(g, file).Sound()
    ensures g.AllReadsFit()
  {
    var at := AddressingOf(g, file);
    forall id: nat | id < g.numVectors ensures g.ReadFitsAt(id) {
      assert at.params(id) == g.Params(id);
      FitOrNot(g, id);
    }
  }

  /** Reading any list of vectors, a batch at a time: submit, wait once for the whole batch, copy, done. */
  method ReadVectors(reader: ReaderContext, ids: seq<nat>) returns (vectors: seq<seq<Byte>>)
    requires reader.Valid() && reader.Recorded() && !reader.log.active && 0 < reader.maxIos
    requires forall i :: 0 <= i < |ids| ==> ids[i] < reader.at.numVectors
    modifies reader
    ensures reader.Valid() && reader.Recorded() && !reader.log.active
    ensures |vectors| == |ids| && forall i :: 0 <= i < |ids| ==> vectors[i] == reader.at.stored(ids[i])
  {
    vectors := [];
    while |vectors| < |ids|
      invariant reader.Valid() && reader.Recorded() && !reader.log.active && |vectors| <= |ids|
      invariant forall i :: 0 <= i < |vectors| ==> vectors[i] == reader.at.stored(ids[i])
      decreases |ids| - |vectors|
    {
      var offset := |vectors|;
      var count := Min(|ids| - offset, reader.maxIos);
      var batch := ReadBatch(reader, ids[offset..offset + count]);
      vectors := vectors + batch;
    }
  }

  /** One batch. */
  method ReadBatch(reader: ReaderContext, ids: seq<nat>) returns (vectors: seq<seq<Byte>>)
    requires reader.Valid() && reader.Recorded() && !reader.log.active && |ids| <= reader.maxIos
    requires forall i :: 0 <= i < |ids| ==> ids[i] < reader.at.numVectors
    modifies reader
    ensures reader.Valid() && reader.Recorded() && !reader.log.active
    ensures |vectors| == |ids| && forall i :: 0 <= i < |ids| ==> vectors[i] == reader.at.stored(ids[i])
  {
    var out;
    ghost var order;
    out, order := SubmitAndWait(reader, ids);
    vectors := CopyOut(reader, ids, out, order);
    reader.Done();
  }

  /** One wait for the whole batch delivers all of it, and leaves no read running. */
  method SubmitAndWait(reader: ReaderContext, ids: seq<nat>) returns (out: seq<Delivery>, ghost order: seq<nat>)
    requires reader.Valid() && reader.Recorded() && !reader.log.active && |ids| <= reader.maxIos
    requires forall i :: 0 <= i < |ids| ==> ids[i] < reader.at.numVectors
    modifies reader
    ensures reader.Valid() && reader.Recorded() && reader.log.active && reader.log.ids == ids && reader.pending == 0
    ensures |out| == |order| == |ids| && NoDup(order) && Below(order, |ids|)
    ensures forall i :: 0 <= i < |out| ==> reader.RightDelivery(out[i], order[i])
  {
    var ok, ioCount := reader.Submit(ids);
    out, order := reader.WaitCompletion(|ids|, |ids|);
    ElemsSize(order);
    assert reader.log.delivered == Elems(order);
    NothingInFlight(reader.View());
  }

  /** When everything has been delivered, no read is running any more. */
  lemma NothingInFlight(c: Context)
    requires c.Valid() && c.active && |c.delivered| >= |c.ids|
    ensures c.inFlight == {} && |c.delivered| == |c.ids|
  {
    IntervalSize(0, |c.io|);
    SubsetSize(c.delivered, Interval(0, |c.io|));
    forall x: nat | x < |c.io| ensures c.Arrived(x) { assert x in Interval(0, |c.io|); }
    forall x | x in c.inFlight ensures !c.Arrived(x) { assert OwnedAt(c.io, c.owner, x); }
    assert forall x :: x !in c.inFlight;
  }

  /** The copying loop. */
  method CopyOut(reader: ReaderContext, ids: seq<nat>, out: seq<Delivery>, ghost order: seq<nat>)
    returns (vectors: seq<seq<Byte>>)
    requires reader.log.ids == ids && |out| == |order| == |ids| && NoDup(order) && Below(order, |ids|)
    requires forall i :: 0 <= i < |out| ==> reader.RightDelivery(out[i], order[i])
    ensures |vectors| == |ids| && forall i :: 0 <= i < |ids| ==> vectors[i] == reader.at.stored(ids[i])
  {
    vectors := seq(|ids|, i => []);
    for k := 0 to |out|
      invariant |vectors| == |ids|
      invariant forall i :: 0 <= i < k ==> vectors[order[i]] == reader.at.stored(ids[order[i]])
    {
      var d := out[k];
      assert reader.RightDelivery(d, order[k]);
      vectors := vectors[d.index := reader.memory[d.buff][d.offset..d.offset + reader.at.vectorSize]];
    }
    Covers(order, |ids|);
    forall i | 0 <= i < |ids| ensures vectors[i] == reader.at.stored(ids[i]) {
      assert i in order;
      var k :| 0 <= k < |order| && order[k] == i;
    }
  }
}
