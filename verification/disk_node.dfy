/** One node of the disk index: coordinates, neighbours, original id, PQ vectors of the first neighbours. */
module DiskNode {
  import opened Arithmetic
  import opened Bytes
  import opened NodeSizing

  /** Where the fields of a node begin. */
  function CountAt(o: Options): nat { o.coordBytes }

  function ListAt(o: Options, j: nat): nat { o.coordBytes + 4 + 4 * j }

  function OriginAt(o: Options): nat { o.coordBytes + (o.width + 1) * 4 }

  function PqAt(o: Options, s: Sizes, cv: nat): nat {
    OriginAt(o) + (if s.rearrange then 4 else 0) + cv * o.pqBytes
  }

  /** What a node stands for: its coordinates, its neighbours, its original id, the PQ vectors of its neighbours. */
  datatype Content = Content(coords: seq<Byte>, nbrs: seq<nat>, origin: nat, vecs: seq<seq<Byte>>)

  ghost predicate Fits(o: Options, c: Content) {
    && |c.coords| == o.coordBytes && |c.nbrs| <= o.width && c.origin < WORD && |c.vecs| == |c.nbrs| < WORD
    && (forall j :: 0 <= j < |c.nbrs| ==> c.nbrs[j] < WORD)
    && forall j {:trigger c.vecs[j]} :: 0 <= j < |c.vecs| ==> |c.vecs[j]| == o.pqBytes
  }

  /** The node is long enough for its fields. */
  predicate RoomFor(o: Options, s: Sizes) {
    o.Plain() <= PqAt(o, s, 0) && PqAt(o, s, 0) + s.inlineVectors * o.pqBytes <= s.len
      && OriginAt(o) + (if s.rearrange then 4 else 0) <= s.len
  }

  lemma SizingMakesRoom(o: Options)
    requires o.Valid()
    ensures RoomFor(o, Sizing(o)) && 0 < Sizing(o).len
  {
    FieldsFit(o);
    MulMonotone(0, Sizing(o).inlineVectors, o.pqBytes);
  }

  ghost predicate VecAt(o: Options, s: Sizes, node: seq<Byte>, cv: nat, vec: seq<Byte>) {
    PqAt(o, s, cv) + o.pqBytes <= |node| && node[PqAt(o, s, cv)..PqAt(o, s, cv) + o.pqBytes] == vec
  }

  /** The fields of a node in their order; gap and rest are the lengths of the blank parts. */
  ghost function Laid(c: Content, gap: nat, origin: seq<Byte>, vecs: seq<Byte>, rest: nat): seq<Byte> {
    c.coords + Word(|c.nbrs|) + Words(c.nbrs) + Zeros(gap) + origin + vecs + Zeros(rest)
  }

  /** The node holds the content and nothing else. */
  ghost predicate NodeHolds(o: Options, s: Sizes, node: seq<Byte>, c: Content)
    requires RoomFor(o, s) && |c.nbrs| <= o.width && |c.vecs| == |c.nbrs|
  {
    var k := Min(s.inlineVectors, |c.nbrs|);
    && PqAt(o, s, k) <= s.len
    && node == Laid(c, 4 * (o.width - |c.nbrs|), if s.rearrange then Word(c.origin) else [], Concat(c.vecs[..k]),
                    s.len - PqAt(o, s, k))
  }

  /** Every field can be read at its place. */
  ghost predicate FieldsReadable(o: Options, s: Sizes, node: seq<Byte>, c: Content)
    requires RoomFor(o, s) && |c.nbrs| <= o.width && |c.vecs| == |c.nbrs|
  {
    && |node| == s.len
    && node[..o.coordBytes] == c.coords
    && WordAt(node, CountAt(o)) == |c.nbrs|
    && (forall j {:trigger c.nbrs[j]} :: 0 <= j < |c.nbrs| ==> WordAt(node, ListAt(o, j)) == c.nbrs[j])
    && (s.rearrange ==> WordAt(node, OriginAt(o)) == c.origin)
    && (forall cv {:trigger c.vecs[cv]} :: 0 <= cv < |c.vecs| && cv < s.inlineVectors ==>
        VecAt(o, s, node, cv, c.vecs[cv]))
  }

  // ------------------------------------------------------------------ building a node

  /** Copies a list of words behind what is there. */
  method PutWords(buff0: seq<Byte>, list: seq<nat>, ghost before: seq<Byte>, at: nat, ghost room: nat)
    returns (buff: seq<Byte>)
    requires buff0 == before + Zeros(room) && at == |before| && 4 * |list| <= room
    ensures buff == before + Words(list) + Zeros(room - 4 * |list|)
  {
    buff := buff0;
    assert before + Words(list[..0]) == before;
    for j := 0 to |list|
      invariant buff == before + Words(list[..j]) + Zeros(room - 4 * j)
    {
      OverwriteBlank(before + Words(list[..j]), room - 4 * j, Word(list[j]));
      OneWordMore(before, list, j);
      buff := Overwrite(buff, at + 4 * j, Word(list[j]));
    }
    assert list[..|list|] == list;
  }

  lemma {:induction false} OneWordMore(before: seq<Byte>, list: seq<nat>, j: nat)
    requires j < |list|
    ensures before + Words(list[..j]) + Word(list[j]) == before + Words(list[..j + 1])
  {
    assert list[..j + 1][..j] == list[..j];
  }

  /** Copies the PQ vectors of the first neighbours behind what is there. */
  method PutVectors(buff0: seq<Byte>, vecs: seq<seq<Byte>>, max: nat, size: nat, ghost before: seq<Byte>, at: nat,
                    ghost room: nat)
    returns (buff: seq<Byte>)
    requires buff0 == before + Zeros(room) && at == |before| && max * size <= room
    requires forall j {:trigger vecs[j]} :: 0 <= j < |vecs| ==> |vecs[j]| == size
    ensures var k := Min(max, |vecs|);
      k * size <= room && buff == before + Concat(vecs[..k]) + Zeros(room - k * size)
  {
    buff := buff0;
    var cv := 0;
    assert before + Concat(vecs[..0]) == before;
    while cv < max && cv < |vecs|
      invariant cv <= max && cv <= |vecs| && cv * size <= room
      invariant buff == before + Concat(vecs[..cv]) + Zeros(room - cv * size)
    {
      MulApart(cv, max, size);
      MulNext(cv, size);
      ConcatSize(vecs, cv, size);
      OverwriteBlank(before + Concat(vecs[..cv]), room - cv * size, vecs[cv]);
      OneVectorMore(before, vecs, cv);
      buff := Overwrite(buff, at + cv * size, vecs[cv]);
      cv := cv + 1;
    }
  }

  lemma {:induction false} OneVectorMore(before: seq<Byte>, vecs: seq<seq<Byte>>, cv: nat)
    requires cv < |vecs|
    ensures before + Concat(vecs[..cv]) + vecs[cv] == before + Concat(vecs[..cv + 1])
  {
    assert vecs[..cv + 1][..cv] == vecs[..cv];
  }

  lemma {:induction false} ConcatSize(vecs: seq<seq<Byte>>, k: nat, size: nat)
    requires k <= |vecs| && forall j {:trigger vecs[j]} :: 0 <= j < |vecs| ==> |vecs[j]| == size
    ensures |Concat(vecs[..k])| == k * size
  {
    if k > 0 {
      ConcatSize(vecs, k - 1, size);
      assert vecs[..k][..k - 1] == vecs[..k - 1];
      MulNext(k - 1, size);
    }
  }

  /** Vectors of one size can be told apart in what they are joined to. */
  lemma {:induction false} ConcatAt(vecs: seq<seq<Byte>>, k: nat, size: nat, cv: nat)
    requires cv < k <= |vecs| && forall j {:trigger vecs[j]} :: 0 <= j < |vecs| ==> |vecs[j]| == size
    ensures cv * size + size <= |Concat(vecs[..k])| && Concat(vecs[..k])[cv * size..cv * size + size] == vecs[cv]
  {
    assert vecs[..k][..k - 1] == vecs[..k - 1];
    ConcatSize(vecs, k - 1, size);
    ConcatSize(vecs, k, size);
    MulApart(cv, k, size);
    if cv < k - 1 {
      ConcatAt(vecs, k - 1, size, cv);
      PrefixSlice(Concat(vecs[..k - 1]), vecs[k - 1], cv * size, cv * size + size);
    }
  }

  /** Coordinates, count and list are written into a cleared buffer. */
  method WriteList(coords: seq<Byte>, nbrs: seq<nat>, len: nat) returns (node: seq<Byte>)
    requires |coords| + 4 + 4 * |nbrs| <= len
    ensures node == coords + Word(|nbrs|) + Words(nbrs) + Zeros(len - (|coords| + 4 + 4 * |nbrs|))
  {
    assert [] + Zeros(len) == Zeros(len) && [] + coords == coords;
    OverwriteBlank([], len, coords);
    node := Overwrite(Zeros(len), 0, coords);
    OverwriteBlank(coords, len - |coords|, Word(|nbrs|));
    node := Overwrite(node, |coords|, Word(|nbrs|));
    node := PutWords(node, nbrs, coords + Word(|nbrs|), |coords| + 4, len - |coords| - 4);
  }

  /** The original id behind the room for the list. */
  method WriteOrigin(node0: seq<Byte>, origin: nat, named: bool, ghost before: seq<Byte>, at: nat, ghost room: nat)
    returns (node: seq<Byte>)
    requires node0 == before + Zeros(room) && at == |before| && (named ==> 4 <= room)
    ensures node == before + (if named then Word(origin) else []) + Zeros(room - if named then 4 else 0)
  {
    node := node0;
    if named {
      OverwriteBlank(before, room, Word(origin));
      node := Overwrite(node, at, Word(origin));
    } else {
      assert before + [] == before;
    }
  }

  /** The fields are written one after the other. */
  method WriteFields(c: Content, width: nat, len: nat, named: bool, max: nat, size: nat) returns (node: seq<Byte>)
    requires |c.nbrs| <= width && |c.vecs| == |c.nbrs|
    requires |c.coords| + 4 * (width + 1) + (if named then 4 else 0) + max * size <= len
    requires forall j {:trigger c.vecs[j]} :: 0 <= j < |c.vecs| ==> |c.vecs[j]| == size
    ensures var k, fields := Min(max, |c.nbrs|), |c.coords| + 4 * (width + 1) + (if named then 4 else 0);
      && fields + k * size <= len && |node| == len
      && node == Laid(c, 4 * (width - |c.nbrs|), if named then Word(c.origin) else [], Concat(c.vecs[..k]),
                      len - (fields + k * size))
  {
    MulMonotone(0, max, size);
    var origin := |c.coords| + 4 * (width + 1);
    node := WriteList(c.coords, c.nbrs, len);
    ghost var list := c.coords + Word(|c.nbrs|) + Words(c.nbrs);
    BlankSplit(list, len - |list|, 4 * (width - |c.nbrs|));
    ghost var before := list + Zeros(4 * (width - |c.nbrs|));
    node := WriteOrigin(node, c.origin, named, before, origin, len - origin);
    before := before + if named then Word(c.origin) else [];
    node := PutVectors(node, c.vecs, max, size, before, origin + if named then 4 else 0, len - |before|);
    ConcatSize(c.vecs, Min(max, |c.nbrs|), size);
  }

  /** The bytes of a node, in the order in which they lie. */
  method BuildNode(o: Options, s: Sizes, c: Content) returns (node: seq<Byte>)
    requires RoomFor(o, s) && Fits(o, c)
    ensures var k, fields := Min(s.inlineVectors, |c.nbrs|), o.coordBytes + 4 * (o.width + 1)
        + (if s.rearrange then 4 else 0);
      && fields + k * o.pqBytes <= s.len
      && node == c.coords + Word(|c.nbrs|) + Words(c.nbrs) + Zeros(4 * (o.width - |c.nbrs|))
         + (if s.rearrange then Word(c.origin) else []) + Concat(c.vecs[..k]) + Zeros(s.len - (fields + k * o.pqBytes))
    ensures |node| == s.len && NodeHolds(o, s, node, c)
  {
    node := WriteFields(c, o.width, s.len, s.rearrange, s.inlineVectors, o.pqBytes);
  }

  // ------------------------------------------------------------------ reading it

  /** Whatever was laid down can be read back. */
  lemma {:induction false} FieldsRead(o: Options, s: Sizes, c: Content, node: seq<Byte>)
    requires RoomFor(o, s) && Fits(o, c) && NodeHolds(o, s, node, c)
    ensures FieldsReadable(o, s, node, c)
  {
    var k := Min(s.inlineVectors, |c.nbrs|);
    var gap, origin := Zeros(4 * (o.width - |c.nbrs|)), if s.rearrange then Word(c.origin) else [];
    var vecs, rest := Concat(c.vecs[..k]), Zeros(s.len - PqAt(o, s, k));
    ConcatSize(c.vecs, k, o.pqBytes);
    Regrouped(c.coords, Word(|c.nbrs|), Words(c.nbrs), gap, origin, vecs, rest);
    ListRead(c.coords, c.nbrs, gap + origin + vecs + rest);
    var front := c.coords + Word(|c.nbrs|) + Words(c.nbrs) + gap;
    if s.rearrange { WordAfter(front, c.origin, vecs + rest); }
    InlineRead(o, s, front + origin, c.vecs, k, rest);
  }

  lemma {:induction false} InlineRead(o: Options, s: Sizes, before: seq<Byte>, vecs: seq<seq<Byte>>, k: nat,
                                      after: seq<Byte>)
    requires |before| == PqAt(o, s, 0) && k == Min(s.inlineVectors, |vecs|)
    requires forall j {:trigger vecs[j]} :: 0 <= j < |vecs| ==> |vecs[j]| == o.pqBytes
    ensures forall cv {:trigger vecs[cv]} :: 0 <= cv < |vecs| && cv < s.inlineVectors ==>
      VecAt(o, s, before + Concat(vecs[..k]) + after, cv, vecs[cv])
  {
    forall cv | 0 <= cv < |vecs| && cv < s.inlineVectors
      ensures VecAt(o, s, before + Concat(vecs[..k]) + after, cv, vecs[cv]) {
      VectorsRead(before, vecs, k, o.pqBytes, after, cv);
    }
  }

  lemma Regrouped(a: seq<Byte>, b: seq<Byte>, c: seq<Byte>, d: seq<Byte>, e: seq<Byte>, f: seq<Byte>, g: seq<Byte>)
    ensures a + b + c + d + e + f + g == a + b + c + (d + e + f + g)
    ensures a + b + c + d + e + f + g == a + b + c + d + e + (f + g)
  {
  }

  lemma {:induction false} VectorsRead(before: seq<Byte>, vecs: seq<seq<Byte>>, k: nat, size: nat, after: seq<Byte>,
                                       cv: nat)
    requires cv < k <= |vecs| && forall j {:trigger vecs[j]} :: 0 <= j < |vecs| ==> |vecs[j]| == size
    ensures var all, at := before + Concat(vecs[..k]) + after, |before| + cv * size;
      |before| <= at && at + size <= |all| && all[at..at + size] == vecs[cv]
  {
    ConcatAt(vecs, k, size, cv);
    MulMonotone(0, cv, size);
    VectorRead(before, Concat(vecs[..k]), after, cv * size, size);
  }

  lemma {:induction false} ListRead(coords: seq<Byte>, nbrs: seq<nat>, after: seq<Byte>)
    requires |nbrs| < WORD && forall j :: 0 <= j < |nbrs| ==> nbrs[j] < WORD
    ensures var node := coords + Word(|nbrs|) + Words(nbrs) + after;
      && node[..|coords|] == coords && WordAt(node, |coords|) == |nbrs|
      && forall j {:trigger nbrs[j]} :: 0 <= j < |nbrs| ==> WordAt(node, |coords| + 4 + 4 * j) == nbrs[j]
  {
    Grouped(coords + Word(|nbrs|), Words(nbrs), after);
    FrontRead(coords, Word(|nbrs|), Words(nbrs) + after);
    WordAfter(coords, |nbrs|, Words(nbrs) + after);
    forall j | 0 <= j < |nbrs|
      ensures WordAt(coords + Word(|nbrs|) + Words(nbrs) + after, |coords| + 4 + 4 * j) == nbrs[j] {
      WordRead(coords + Word(|nbrs|), nbrs, after, j);
    }
  }

  lemma Grouped(a: seq<Byte>, b: seq<Byte>, c: seq<Byte>)
    ensures a + b + c == a + (b + c)
  {
  }

  lemma FrontRead(a: seq<Byte>, b: seq<Byte>, c: seq<Byte>)
    ensures (a + b + c)[..|a|] == a
  {
  }

  lemma WordAfter(before: seq<Byte>, n: nat, after: seq<Byte>)
    requires n < WORD
    ensures WordAt(before + Word(n) + after, |before|) == n
  {
    WordBack(before + Word(n) + after, |before|, n);
  }

  lemma {:induction false} WordRead(before: seq<Byte>, list: seq<nat>, after: seq<Byte>, j: nat)
    requires j < |list| && list[j] < WORD
    ensures WordAt(before + Words(list) + after, |before| + 4 * j) == list[j]
  {
    WordsAt(list, j, 0);
    WordsAt(list, j, 1);
    WordsAt(list, j, 2);
    WordsAt(list, j, 3);
    MiddleWord(before, Words(list), after, 4 * j, list[j]);
  }

  lemma MiddleWord(before: seq<Byte>, bytes: seq<Byte>, after: seq<Byte>, at: nat, n: nat)
    requires at + 4 <= |bytes| && n < WORD
    requires bytes[at] == Word(n)[0] && bytes[at + 1] == Word(n)[1] && bytes[at + 2] == Word(n)[2]
      && bytes[at + 3] == Word(n)[3]
    ensures WordAt(before + bytes + after, |before| + at) == n
  {
    WordBack(before + bytes + after, |before| + at, n);
  }

  lemma VectorRead(before: seq<Byte>, vecs: seq<Byte>, after: seq<Byte>, at: nat, size: nat)
    requires at + size <= |vecs|
    ensures (before + vecs + after)[|before| + at..|before| + at + size] == vecs[at..at + size]
  {
  }
}
