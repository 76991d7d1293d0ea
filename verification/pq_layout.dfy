/** Where the PQ vectors of an index lie in their file, and how a reader finds them. */
module PqLayout {
  import opened Arithmetic

  const SECTOR: nat := 512
  /** defaults::SECTOR_LEN, also the header size of a file with pages. */
  const HEADER: nat := 4096

  /** A file with pages, no vector crossing a page border, or a flat file on a device with the given block size. */
  datatype Geometry =
    | Paged(numVectors: nat, vectorSize: nat, pageSize: nat)
    | Flat(numVectors: nat, vectorSize: nat, blockSize: nat)
  {
    predicate Supported() {
      match this
      case Paged(_, size, page) => 0 < size <= page && page % HEADER == 0
      case Flat(_, size, block) => 0 < size && 0 < block && block % SECTOR == 0
    }

    function PerPage(): nat
      requires Supported() && Paged?
    {
      pageSize / vectorSize
    }

    function SectorsPerPage(): nat
      requires Supported() && Paged?
    {
      pageSize / SECTOR
    }

    /** calc_pq_vector_offset_bytes. */
    function Offset(id: nat): nat
      requires Supported()
    {
      if Paged? then
        AtLeastOne(vectorSize, pageSize);
        PagedPlace(id, PerPage(), vectorSize, pageSize)
      else id * vectorSize
    }

    function HeaderSize(): nat {
      if Paged? then HEADER else 8
    }

    function Position(id: nat): nat
      requires Supported()
    {
      HeaderSize() + Offset(id)
    }

    /** calc_pq_vector_read_params. */
    function Params(id: nat): Range
      requires Supported()
    {
      if Paged? then PagedRange(Offset(id) / pageSize, Offset(id) % pageSize, SectorsPerPage())
      else FlatRange(HeaderSize() + Offset(id), vectorSize, blockSize)
    }

    /** m_max_io_size_sectors: what a read buffer holds. */
    function MaxIoSectors(): nat
      requires Supported()
    {
      if Paged? then SectorsPerPage() else (vectorSize - 1) / SECTOR + 2
    }

    /** The size a well-formed file has. */
    function FileSize(): nat
      requires Supported()
    {
      if Paged? then
        PageFacts(vectorSize, pageSize);
        Ceil(numVectors, PerPage()) * pageSize + HEADER
      else 8 + numVectors * vectorSize
    }

    /** Whether the read for a vector fits into a buffer, by the size of vectors and blocks and where the vector begins:
        always with pages and on 512-byte blocks; on larger blocks the vector must not reach into one block more than it
        needs, and must nearly fill the last one. */
    predicate ReadFitsAt(id: nat)
      requires Supported()
    {
      Paged? || blockSize == SECTOR || FitsBlocks(HeaderSize() + Offset(id), vectorSize, blockSize)
    }

    ghost predicate AllReadsFit()
      requires Supported()
    {
      forall id: nat {:trigger ReadFitsAt(id)} :: id < numVectors ==> ReadFitsAt(id)
    }
  }

  predicate FitsBlocks(first: nat, size: nat, block: nat)
    requires 0 < size && 0 < block
  {
    first % block + (size - 1) % block < block && block / SECTOR <= (size - 1) % block / SECTOR + 2
  }

  /** First sector, last sector, where the vector begins in what is read. */
  datatype Range = Range(from: nat, to: int, offset: int)

  function PagedPlace(id: nat, perPage: nat, size: nat, page: nat): nat
    requires 0 < perPage
  {
    id / perPage * page + id % perPage * size
  }

  function PagedRange(page: nat, inPage: nat, sectors: nat): Range {
    var from := HEADER / SECTOR + page * sectors;
    Range(from, from + sectors - 1, inPage)
  }

  function FlatRange(position: nat, size: nat, block: nat): Range
    requires 0 < size && 0 < block
  {
    var perBlock := block / SECTOR;
    var from := position / block * perBlock;
    Range(from, ((position + size - 1) / block + 1) * perBlock - 1, position - from * SECTOR)
  }

  lemma PageFacts(size: nat, page: nat)
    requires 0 < size <= page && page % HEADER == 0
    ensures 0 < page / size && page / size * size <= page
    ensures page / SECTOR * SECTOR == page && 8 <= page / SECTOR
  {
    AtLeastOne(size, page);
    WholeSectors(page);
  }

  lemma AtLeastOne(size: nat, page: nat)
    requires 0 < size <= page
    ensures 0 < page / size && page / size * size <= page
  {
    DivMonotone(size, page, size);
    QuotientBounds(page, size);
  }

  lemma WholeSectors(page: nat)
    requires 0 < page && page % HEADER == 0
    ensures page / SECTOR * SECTOR == page && 8 <= page / SECTOR
  {
    var q := page / HEADER;
    assert page == q * HEADER && 1 <= q;
    QuotientIs(page, 8 * q, SECTOR);
  }

  /** With pages: the page number and the place in the page. */
  lemma PagedOffset(g: Geometry, id: nat)
    requires g.Supported() && g.Paged?
    ensures 0 < g.PerPage() && 0 < g.pageSize
    ensures g.Offset(id) / g.pageSize == id / g.PerPage()
    ensures g.Offset(id) % g.pageSize == id % g.PerPage() * g.vectorSize
    ensures id % g.PerPage() * g.vectorSize + g.vectorSize <= g.pageSize
  {
    PageFacts(g.vectorSize, g.pageSize);
    InPage(id / g.PerPage(), id % g.PerPage(), g.PerPage(), g.vectorSize, g.pageSize);
  }

  lemma InPage(p: nat, v: nat, perPage: nat, size: nat, page: nat)
    requires v < perPage && 0 < size && perPage * size <= page
    ensures 0 < page && v * size + size <= page
    ensures (p * page + v * size) / page == p && (p * page + v * size) % page == v * size
  {
    MulApart(v, perPage, size);
    QuotientIs(p * page + v * size, p, page);
  }

  lemma PagedAddress(p: nat, v: nat, sectors: nat, page: nat)
    requires sectors * SECTOR == page
    ensures (HEADER / SECTOR + p * sectors) * SECTOR + v == HEADER + (p * page + v)
    ensures (HEADER / SECTOR + p * sectors + sectors) * SECTOR == HEADER + p * page + page
  {
    MulAssoc(p, sectors, SECTOR);
  }

  lemma FlatAddress(first: nat, size: nat, perBlock: nat, block: nat)
    requires 0 < size && 0 < block && block == perBlock * SECTOR
    ensures var last := first + size - 1;
      first / block * perBlock * SECTOR <= first && last < (last / block + 1) * perBlock * SECTOR
      && first / block * perBlock <= (last / block + 1) * perBlock - 1
  {
    var last := first + size - 1;
    QuotientBounds(first, block);
    QuotientBounds(last, block);
    MulAssoc(first / block, perBlock, SECTOR);
    MulAssoc(last / block + 1, perBlock, SECTOR);
    MulNext(last / block, block);
    DivMonotone(first, last, block);
    MulMonotone(first / block, last / block, perBlock);
    MulNext(last / block, perBlock);
  }

  /** The parameters address the vector: it begins at the offset, and ends before the sectors read do. */
  lemma ParamsAddress(g: Geometry, id: nat)
    requires g.Supported()
    ensures var r := g.Params(id);
      0 <= r.offset && r.from <= r.to && r.from * SECTOR + r.offset == g.Position(id)
      && g.Position(id) + g.vectorSize <= (r.to + 1) * SECTOR
  {
    if g.Paged? {
      PagedParamsAddress(g, id);
    } else {
      FlatAddress(g.Position(id), g.vectorSize, g.blockSize / SECTOR, g.blockSize);
    }
  }

  lemma PagedParamsAddress(g: Geometry, id: nat)
    requires g.Supported() && g.Paged?
    ensures var r := g.Params(id);
      0 <= r.offset && r.from <= r.to && r.from * SECTOR + r.offset == g.Position(id)
      && g.Position(id) + g.vectorSize <= (r.to + 1) * SECTOR
  {
    PagedOffset(g, id);
    WholeSectors(g.pageSize);
    PagedRangeCovers(g.Offset(id), g.Offset(id) / g.pageSize, g.Offset(id) % g.pageSize, g.vectorSize,
                     g.SectorsPerPage(), g.pageSize);
  }

  lemma PagedRangeCovers(offset: nat, p: nat, v: nat, size: nat, sectors: nat, page: nat)
    requires 0 < page && p == offset / page && v == offset % page && sectors * SECTOR == page && 0 < sectors
      && v + size <= page
    ensures var r := PagedRange(p, v, sectors);
      r.from <= r.to && r.from * SECTOR + v == HEADER + offset && HEADER + offset + size <= (r.to + 1) * SECTOR
  {
    QuotientBounds(offset, page);
    PagedAddress(p, v, sectors, page);
  }

  /** What is read fits into a buffer exactly when the condition holds. */
  lemma FitOrNot(g: Geometry, id: nat)
    requires g.Supported()
    ensures g.Params(id).to - g.Params(id).from + 1 <= g.MaxIoSectors() <==> g.ReadFitsAt(id)
  {
    if g.Flat? { FlatFitOrNot(g.Position(id), g.vectorSize, g.blockSize / SECTOR, g.blockSize); }
  }

  /** With pages every read fits. */
  lemma PagesFit(g: Geometry)
    requires g.Supported() && g.Paged?
    ensures g.AllReadsFit()
  {
  }

  lemma FlatFitOrNot(first: nat, size: nat, m: nat, block: nat)
    requires 0 < size && 0 < block && block == m * SECTOR
    ensures var r := FlatRange(first, size, block);
      r.to - r.from + 1 <= (size - 1) / SECTOR + 2 <==> m == 1 || FitsBlocks(first, size, block)
  {
    var w, q := (size - 1) % block, (size - 1) / block;
    var e := if first % block + w < block then 0 else 1;
    var r := FlatRange(first, size, block);
    assert size - 1 == q * block + w && 0 <= w < block && 0 <= q by { QuotientBounds(size - 1, block); }
    assert block / SECTOR == m by { QuotientIs(block, m, SECTOR); }
    SectorsRead(first, size, block, m, q, w, e);
    SectorsOf(size - 1, q, w, m, block);
    Decide(r.to - r.from + 1, (size - 1) / SECTOR, m, q * m, e, w / SECTOR);
  }

  lemma SectorsRead(first: nat, size: nat, block: nat, m: nat, q: nat, w: nat, e: nat)
    requires 0 < size && 0 < block && size - 1 == q * block + w && w < block && block / SECTOR == m
    requires e == if first % block + w < block then 0 else 1
    ensures var r := FlatRange(first, size, block); r.to - r.from + 1 == q * m + (if e == 0 then m else m + m)
  {
    var f, k := first / block, (first + size - 1) / block;
    var span, r := (k + 1) * m - f * m, FlatRange(first, size, block);
    assert span == q * m + (if e == 0 then m else m + m) by { SpanOf(first, size, block, m, q, w, e); }
    assert r.to - r.from + 1 == span by { RangeOf(first, size, block, m); }
  }

  lemma RangeOf(first: nat, size: nat, block: nat, m: nat)
    requires 0 < size && 0 < block && block / SECTOR == m
    ensures var f, k, r := first / block, (first + size - 1) / block, FlatRange(first, size, block);
      r.to - r.from + 1 == (k + 1) * m - f * m
  {
  }

  lemma SpanOf(first: nat, size: nat, block: nat, m: nat, q: nat, w: nat, e: nat)
    requires 0 < size && 0 < block && size - 1 == q * block + w && w < block
    requires e == if first % block + w < block then 0 else 1
    ensures var f, k := first / block, (first + size - 1) / block;
      (k + 1) * m - f * m == q * m + if e == 0 then m else m + m
  {
    var f, k := first / block, (first + size - 1) / block;
    assert k == f + q + e by {
      QuotientBounds(first, block);
      BlocksTouched(first, size, block, q, w, first % block, e);
    }
    MulTwice(f, q, e + 1, m);
  }

  lemma Decide(count: int, last: int, m: int, qm: int, e: int, r: int)
    requires 0 <= r < m && 0 <= e <= 1 && last == qm + r && count == qm + if e == 0 then m else m + m
    ensures count <= last + 2 <==> m == 1 || (e == 0 && m <= r + 2)
  {
  }

  lemma BlocksTouched(first: nat, size: nat, block: nat, q: nat, w: nat, rho: nat, e: nat)
    requires 0 < size && 0 < block && size - 1 == q * block + w && w < block && first == first / block * block + rho
      && rho < block
    requires e == if rho + w < block then 0 else 1
    ensures (first + size - 1) / block == first / block + q + e
  {
    MulTwice(first / block, q, e, block);
    QuotientIs(first + size - 1, first / block + q + e, block);
  }

  lemma SectorsOf(n: nat, q: nat, w: nat, m: nat, block: nat)
    requires n == q * block + w && w < block && block == m * SECTOR
    ensures n / SECTOR == q * m + w / SECTOR && w / SECTOR < m
  {
    MulAssoc(q, m, SECTOR);
    QuotientBounds(w, SECTOR);
    QuotientIs(n, q * m + w / SECTOR, SECTOR);
  }

  lemma MulTwice(a: nat, b: nat, c: nat, d: nat)
    ensures (a + b + c) * d == a * d + b * d + c * d
  {
  }

  /** On 4096-byte blocks, the size assumed when the device does not tell, no read for a vector of at most 3072 bytes
      fits. */
  lemma SmallVectorsMisfit(num: nat, size: nat, id: nat)
    requires 0 < size <= 3072
    ensures !Flat(num, size, 4096).ReadFitsAt(id)
    ensures var g := Flat(num, size, 4096); g.Params(id).to - g.Params(id).from + 1 > g.MaxIoSectors()
  {
    FitOrNot(Flat(num, size, 4096), id);
  }

  /** A well-formed file holds every vector whole. */
  lemma VectorInFile(g: Geometry, id: nat)
    requires g.Supported() && id < g.numVectors
    ensures g.Position(id) + g.vectorSize <= g.FileSize()
  {
    if g.Paged? {
      PagedOffset(g, id);
      BelowCeil(id, g.numVectors, g.PerPage());
      MulApart(id / g.PerPage(), Ceil(g.numVectors, g.PerPage()), g.pageSize);
    } else {
      MulApart(id, g.numVectors, g.vectorSize);
    }
  }

  /** With pages, all vectors of a page are read alike, and the page number names the read. */
  lemma SameOrApart(g: Geometry, i: nat, j: nat)
    requires g.Supported() && g.Paged?
    ensures 0 < g.SectorsPerPage()
    ensures g.Params(i).from == g.Params(j).from ==> g.Params(i).to == g.Params(j).to
    ensures g.Params(i).from / g.SectorsPerPage() == g.Params(j).from / g.SectorsPerPage()
      <==> g.Params(i).from == g.Params(j).from
  {
    WholeSectors(g.pageSize);
    var p, v := PagedParams(g, i);
    var q, w := PagedParams(g, j);
    SamePage(p, q, g.SectorsPerPage());
  }

  lemma PagedParams(g: Geometry, id: nat) returns (p: nat, v: nat)
    requires g.Supported() && g.Paged?
    ensures g.Params(id) == PagedRange(p, v, g.SectorsPerPage())
  {
    p, v := g.Offset(id) / g.pageSize, g.Offset(id) % g.pageSize;
  }

  lemma SamePage(p: nat, q: nat, sectors: nat)
    requires 8 <= sectors
    ensures (HEADER / SECTOR + p * sectors) / sectors == (HEADER / SECTOR + q * sectors) / sectors <==> p == q
    ensures HEADER / SECTOR + p * sectors == HEADER / SECTOR + q * sectors <==> p == q
  {
    PageNumber(p, sectors);
    PageNumber(q, sectors);
    MulApart(p, q, sectors);
    MulApart(q, p, sectors);
  }

  /** from / sectors-per-page is the page, shifted by one on files with the smallest pages. */
  lemma PageNumber(p: nat, sectors: nat)
    requires 8 <= sectors
    ensures (HEADER / SECTOR + p * sectors) / sectors == p + if sectors == 8 then 1 else 0
  {
    if sectors == 8 {
    } else {
      QuotientIs(HEADER / SECTOR + p * sectors, p, sectors);
    }
  }
}
