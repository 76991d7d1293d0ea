/** How large a node of the disk index is, and how many PQ vectors of its neighbours fit into space that is there
    anyway. */
module NodeSizing {
  import opened Arithmetic

  const SECTOR_LEN: nat := 4096

  /** Nodes of the given size: how many share a sector (0 for larger ones), how many sectors one takes. */
  function PerSector(len: nat): nat
    requires 0 < len
  {
    SECTOR_LEN / len
  }

  function SectorsPerNode(len: nat): nat {
    Ceil(len, SECTOR_LEN)
  }

  /** aisaq_calc_max_inline_pq_vectors, for sizes whose products fit into 32 bits. */
  function MaxInline(len: nat, pqBytes: nat, maxDegree: nat): nat
    requires 0 < len && 0 < pqBytes
  {
    if len >= SECTOR_LEN then
      CeilBounds(len, SECTOR_LEN);
      Min(maxDegree, (Ceil(len, SECTOR_LEN) * SECTOR_LEN - len) / pqBytes)
    else
      InSector(len);
      Min(maxDegree, (SECTOR_LEN - PerSector(len) * len) / (PerSector(len) * pqBytes))
  }

  lemma InSector(len: nat)
    requires 0 < len < SECTOR_LEN
    ensures 0 < PerSector(len) && PerSector(len) * len <= SECTOR_LEN
    ensures forall p: nat :: 0 < p ==> 0 < PerSector(len) * p
  {
    DivMonotone(len, SECTOR_LEN, len);
    QuotientBounds(SECTOR_LEN, len);
    forall p: nat | 0 < p ensures 0 < PerSector(len) * p { MulMonotone(1, PerSector(len), p); }
  }

  /** Appending so many vectors costs nothing, and one more would cost, unless every neighbour has one already. */
  lemma InlineIsFreeAndTight(len: nat, pqBytes: nat, maxDegree: nat)
    requires 0 < len && 0 < pqBytes
    ensures var k := MaxInline(len, pqBytes, maxDegree);
      && PerSector(len + k * pqBytes) == PerSector(len) && SectorsPerNode(len + k * pqBytes) == SectorsPerNode(len)
      && (k < maxDegree ==> PerSector(len + (k + 1) * pqBytes) != PerSector(len)
                            || SectorsPerNode(len + (k + 1) * pqBytes) != SectorsPerNode(len))
  {
    if len >= SECTOR_LEN { LargeNode(len, pqBytes, maxDegree); } else { SmallNode(len, pqBytes, maxDegree); }
  }

  lemma LargeNode(len: nat, pqBytes: nat, maxDegree: nat)
    requires SECTOR_LEN <= len && 0 < pqBytes
    ensures var k := MaxInline(len, pqBytes, maxDegree);
      && PerSector(len + k * pqBytes) == PerSector(len) && SectorsPerNode(len + k * pqBytes) == SectorsPerNode(len)
      && (k < maxDegree ==> SectorsPerNode(len + (k + 1) * pqBytes) != SectorsPerNode(len))
  {
    var k, s := MaxInline(len, pqBytes, maxDegree), Ceil(len, SECTOR_LEN);
    var room := s * SECTOR_LEN - len;
    CeilBounds(len, SECTOR_LEN);
    QuotientBounds(room, pqBytes);
    MulMonotone(k, room / pqBytes, pqBytes);
    CeilIs(len + k * pqBytes, s, SECTOR_LEN);
    if len > SECTOR_LEN {
      QuotientIs(SECTOR_LEN, 0, len);
      QuotientIs(SECTOR_LEN, 0, len + k * pqBytes);
    } else {
      CeilIs(len, 1, SECTOR_LEN);
    }
    if k < maxDegree {
      MulNext(k, pqBytes);
      CeilBounds(len + (k + 1) * pqBytes, SECTOR_LEN);
    }
  }

  lemma SmallNode(len: nat, pqBytes: nat, maxDegree: nat)
    requires 0 < len < SECTOR_LEN && 0 < pqBytes
    ensures var k := MaxInline(len, pqBytes, maxDegree);
      && PerSector(len + k * pqBytes) == PerSector(len) && SectorsPerNode(len + k * pqBytes) == SectorsPerNode(len)
      && (k < maxDegree ==> PerSector(len + (k + 1) * pqBytes) != PerSector(len))
  {
    var k, n := MaxInline(len, pqBytes, maxDegree), PerSector(len);
    InSector(len);
    QuotientBounds(SECTOR_LEN, len);
    QuotientBounds(SECTOR_LEN - n * len, n * pqBytes);
    MulMonotone(k, (SECTOR_LEN - n * len) / (n * pqBytes), n * pqBytes);
    StillShared(len, k * pqBytes, n, k * (n * pqBytes), pqBytes, k);
    if k < maxDegree {
      MulNext(k, n * pqBytes);
      Spread(n, len, k + 1, pqBytes);
      QuotientBounds(SECTOR_LEN, len + (k + 1) * pqBytes);
    }
  }

  /** n nodes fit before and after the extra bytes. */
  lemma StillShared(len: nat, extra: nat, n: nat, all: nat, pqBytes: nat, k: nat)
    requires 0 < len < SECTOR_LEN && 0 < n && extra == k * pqBytes && all == k * (n * pqBytes)
    requires n * len + all <= SECTOR_LEN < n * len + len
    ensures PerSector(len + extra) == n && SectorsPerNode(len + extra) == SectorsPerNode(len)
  {
    Spread(n, len, k, pqBytes);
    QuotientIs(SECTOR_LEN, n, len + extra);
    MulMonotone(1, n, len + extra);
    CeilIs(len + extra, 1, SECTOR_LEN);
    CeilIs(len, 1, SECTOR_LEN);
  }

  lemma Spread(n: nat, len: nat, k: nat, pqBytes: nat)
    ensures n * (len + k * pqBytes) == n * len + k * (n * pqBytes)
  {
    MulAssoc(k, n, pqBytes);
    MulAssoc(n, k, pqBytes);
  }

  // ------------------------------------------------------------------ the node size

  /** Degree, size of a vector, size of a PQ vector, how many PQ vectors are asked for (-1: as many as are free), and
      whether vectors are to be rearranged. */
  datatype Options = Options(width: nat, coordBytes: nat, pqBytes: nat, inlinePq: int, rearrange: bool) {
    /** What the code asserts about its options. */
    predicate Valid() {
      0 < pqBytes && -1 <= inlinePq <= width
    }

    function Plain(): nat {
      (width + 1) * 4 + coordBytes
    }
  }

  /** The size of a node, the PQ vectors in it, and whether vectors will indeed be rearranged. */
  datatype Sizes = Sizes(len: nat, inlineVectors: nat, rearrange: bool)

  /** The size without PQ vectors, but with the original id if that is stored. */
  function BareLen(o: Options): nat
    requires o.Valid()
  {
    var named := o.rearrange
      && (if o.inlinePq >= 0 then o.inlinePq == 0 || o.inlinePq < o.width
          else MaxInline(o.Plain(), o.pqBytes, o.width) < o.width);
    o.Plain() + if named then 4 else 0
  }

  function InlineVectors(o: Options): nat
    requires o.Valid()
  {
    if o.inlinePq >= 0 then o.inlinePq else MaxInline(BareLen(o), o.pqBytes, o.width)
  }

  function Sizing(o: Options): Sizes
    requires o.Valid()
  {
    MulMonotone(0, InlineVectors(o), o.pqBytes);
    Sizes(BareLen(o) + InlineVectors(o) * o.pqBytes, InlineVectors(o),
          o.rearrange && (o.inlinePq == 0 || InlineVectors(o) != o.width))
  }

  /** All fields fit into a node, for every combination of options. */
  lemma FieldsFit(o: Options)
    requires o.Valid()
    ensures var s := Sizing(o);
      && s.inlineVectors <= o.width
      && o.Plain() + (if s.rearrange then 4 else 0) + s.inlineVectors * o.pqBytes <= s.len
      && (s.rearrange ==> o.rearrange)
      && (o.rearrange && !s.rearrange ==> s.inlineVectors == o.width)
  {
  }

  /** Asking for as many vectors as are free does not make the file larger than the same nodes without them, and takes
      all that are free. */
  lemma AutoIsFree(o: Options)
    requires o.Valid() && o.inlinePq == -1
    ensures 0 < o.Plain() <= BareLen(o) <= Sizing(o).len
    ensures PerSector(Sizing(o).len) == PerSector(BareLen(o))
      && SectorsPerNode(Sizing(o).len) == SectorsPerNode(BareLen(o))
    ensures var s := Sizing(o);
      s.inlineVectors < o.width ==> 4096 / (s.len + o.pqBytes) != 4096 / s.len
                                    || (s.len + o.pqBytes + 4095) / 4096 != (s.len + 4095) / 4096
  {
    FreeOnScalars(BareLen(o), o.pqBytes, o.width, InlineVectors(o), Sizing(o).len);
    CeilRoundsUp(Sizing(o).len, SECTOR_LEN);
    CeilRoundsUp(Sizing(o).len + o.pqBytes, SECTOR_LEN);
  }

  lemma FreeOnScalars(bare: nat, pqBytes: nat, width: nat, k: nat, len: nat)
    requires 0 < bare && 0 < pqBytes && k == MaxInline(bare, pqBytes, width) && len == bare + k * pqBytes
    ensures bare <= len && PerSector(len) == PerSector(bare) && SectorsPerNode(len) == SectorsPerNode(bare)
    ensures k < width ==>
      PerSector(len + pqBytes) != PerSector(len) || SectorsPerNode(len + pqBytes) != SectorsPerNode(len)
  {
    InlineIsFreeAndTight(bare, pqBytes, width);
    MulMonotone(0, k, pqBytes);
    MulNext(k, pqBytes);
  }

  /** Whether vectors for all neighbours could be appended without cost: as many nodes share a sector, or a node takes
      as many sectors, as before. */
  predicate AllFree(len: nat, pqBytes: nat, width: nat)
    requires 0 < len
  {
    && 0 <= width * pqBytes && 4096 / (len + width * pqBytes) == 4096 / len
    && (len + width * pqBytes + 4095) / 4096 == (len + 4095) / 4096
  }

  lemma MaxInlineIsAll(len: nat, pqBytes: nat, width: nat)
    requires 0 < len && 0 < pqBytes
    ensures MaxInline(len, pqBytes, width) == width <==> AllFree(len, pqBytes, width)
    ensures MaxInline(len, pqBytes, width) <= width
  {
    var k := MaxInline(len, pqBytes, width);
    MulMonotone(0, width, pqBytes);
    InlineIsFreeAndTight(len, pqBytes, width);
    CeilRoundsUp(len, SECTOR_LEN);
    CeilRoundsUp(len + width * pqBytes, SECTOR_LEN);
    if k < width {
      MulMonotone(k + 1, width, pqBytes);
      MulMonotone(0, k + 1, pqBytes);
      Shrinks(len, len + (k + 1) * pqBytes, len + width * pqBytes);
    }
  }

  lemma Shrinks(a: nat, b: nat, c: nat)
    requires 0 < a <= b <= c
    ensures PerSector(a) >= PerSector(b) >= PerSector(c)
    ensures SectorsPerNode(a) <= SectorsPerNode(b) <= SectorsPerNode(c)
  {
    Fewer(a, b);
    Fewer(b, c);
    CeilMonotone(a, b, SECTOR_LEN);
    CeilMonotone(b, c, SECTOR_LEN);
  }

  lemma Fewer(a: nat, b: nat)
    requires 0 < a <= b
    ensures PerSector(a) >= PerSector(b)
  {
    var p, q := PerSector(a), PerSector(b);
    QuotientBounds(SECTOR_LEN, a);
    QuotientBounds(SECTOR_LEN, b);
    MulMonotone(a, b, q);
    if p < q {
      MulMonotone(p + 1, q, a);
      MulNext(p, a);
    }
  }

  lemma CeilMonotone(a: nat, b: nat, d: nat)
    requires a <= b && 0 < d
    ensures Ceil(a, d) <= Ceil(b, d)
  {
    CeilRoundsUp(a, d);
    CeilRoundsUp(b, d);
    DivMonotone(a + d - 1, b + d - 1, d);
  }

  /** The length of a node, exactly: the coordinates, a count, room for the list, the PQ vectors, and four bytes for the
      original id. The id is there if vectors are rearranged; when as many PQ vectors are asked for as are free, it is
      also there if they turn out to be all only because of its own four bytes. */
  lemma NodeLength(o: Options)
    requires o.Valid()
    ensures var s := Sizing(o);
      var fields := o.coordBytes + 4 + 4 * o.width + s.inlineVectors * o.pqBytes;
      && (!o.rearrange ==> s.len == fields && !s.rearrange)
      && (o.rearrange && 0 <= o.inlinePq ==>
          s.inlineVectors == o.inlinePq && s.len == fields + (if s.rearrange then 4 else 0)
          && (s.rearrange <==> o.inlinePq == 0 || o.inlinePq < o.width))
      && (o.rearrange && o.inlinePq == -1 ==>
          s.len == fields + (if AllFree(o.coordBytes + 4 + 4 * o.width, o.pqBytes, o.width) then 0 else 4)
          && (s.rearrange <==> s.inlineVectors != o.width))
  {
    MaxInlineIsAll(o.Plain(), o.pqBytes, o.width);
    MulMonotone(0, Sizing(o).inlineVectors, o.pqBytes);
  }
}
