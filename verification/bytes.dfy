/** Bytes, and the 32-bit words made of them. */
module Bytes {
  type Byte = b: nat | b < 256 witness 0

  const WORD: nat := 0x1_0000_0000

  /** A 32-bit word, least significant byte first. */
  function Word(n: nat): (w: seq<Byte>)
    ensures |w| == 4
  {
    [n % 256, n / 256 % 256, n / 65536 % 256, n / 16777216 % 256]
  }

  function Zeros(n: nat): (z: seq<Byte>)
    ensures |z| == n && forall i :: 0 <= i < n ==> z[i] == 0
  {
    seq(n, i => 0)
  }

  /** A buffer after a copy into it. */
  function Overwrite(buff: seq<Byte>, at: nat, bytes: seq<Byte>): (r: seq<Byte>)
    requires at + |bytes| <= |buff|
    ensures |r| == |buff|
    ensures forall i :: 0 <= i < |buff| ==> r[i] == if at <= i < at + |bytes| then bytes[i - at] else buff[i]
  {
    buff[..at] + bytes + buff[at + |bytes|..]
  }

  /** The word at a place of a buffer. */
  function WordAt(buff: seq<Byte>, at: nat): nat
    requires at + 4 <= |buff|
  {
    buff[at] as int + 256 * buff[at + 1] as int + 65536 * buff[at + 2] as int + 16777216 * buff[at + 3] as int
  }

  lemma WordBack(buff: seq<Byte>, at: nat, n: nat)
    requires at + 4 <= |buff| && n < WORD
    requires buff[at] == Word(n)[0] && buff[at + 1] == Word(n)[1] && buff[at + 2] == Word(n)[2]
      && buff[at + 3] == Word(n)[3]
    ensures WordAt(buff, at) == n
  {
    Digits(n);
  }

  lemma Digits(n: nat)
    requires n < WORD
    ensures n % 256 + 256 * (n / 256 % 256) + 65536 * (n / 65536 % 256) + 16777216 * (n / 16777216 % 256) == n
  {
    assert n / 65536 == n / 256 / 256 && n / 16777216 == n / 65536 / 256;
  }

  /** The low byte comes first, and the bytes make up the number. */
  lemma LowByteFirst(n: nat)
    requires n < 0x1_0000_0000
    ensures var w := Word(n);
      n == w[0] as int + 256 * w[1] as int + 65536 * w[2] as int + 16777216 * w[3] as int
    ensures Word(n)[0] == n % 256 && Word(n)[3] == n / 16777216
  {
    Digits(n);
  }

  /** The words of a list, one after the other. */
  function Words(list: seq<nat>): (r: seq<Byte>)
    ensures |r| == 4 * |list|
  {
    if list == [] then [] else Words(list[..|list| - 1]) + Word(list[|list| - 1])
  }

  lemma {:induction false} WordsAt(list: seq<nat>, j: nat, i: nat)
    requires j < |list| && i < 4
    ensures Words(list)[4 * j + i] == Word(list[j])[i]
  {
    if j < |list| - 1 { WordsAt(list[..|list| - 1], j, i); }
  }

  lemma PrefixSlice(a: seq<Byte>, b: seq<Byte>, lo: nat, hi: nat)
    requires lo <= hi <= |a|
    ensures (a + b)[lo..hi] == a[lo..hi]
  {
  }

  /** Pieces one after the other. */
  function Concat(pieces: seq<seq<Byte>>): seq<Byte> {
    if pieces == [] then [] else Concat(pieces[..|pieces| - 1]) + pieces[|pieces| - 1]
  }

  /** A copy to the beginning of the blank part of a buffer. */
  lemma OverwriteBlank(before: seq<Byte>, n: nat, bytes: seq<Byte>)
    requires |bytes| <= n
    ensures Overwrite(before + Zeros(n), |before|, bytes) == before + bytes + Zeros(n - |bytes|)
  {
  }

  lemma BlankSplit(before: seq<Byte>, n: nat, k: nat)
    requires k <= n
    ensures before + Zeros(n) == before + Zeros(k) + Zeros(n - k)
  {
  }

  lemma Between(before: seq<Byte>, bytes: seq<Byte>, after: seq<Byte>)
    ensures (before + bytes + after)[|before|..|before| + |bytes|] == bytes
  {
  }
}
