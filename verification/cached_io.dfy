/** Sequential streams with a cache, against plain files. */
module CachedIo {
  import opened Bytes

  // ------------------------------------------------------------------ plain files

  /** A step of a reading client: the cache size is changed only right before a seek. */
  datatype ReadOp = Read(n: nat) | Seek(pos: nat) | Resize(cacheSize: nat, pos: nat)

  /** The bytes, the error of a read that would end behind the file, the error of the stream below. */
  datatype ReadResult = Got(value: seq<Byte>) | BeyondEnd | StreamError

  /** Where a stream is; one that has been read from behind the end of its file stays broken. */
  datatype Place = At(pos: nat) | Broken

  /** Reading a plain file: what a read returns and where it leaves the stream. A read behind the end breaks the stream,
      and then what is asked for is compared with the size of the file and one. */
  function PlainRead(file: seq<Byte>, place: Place, n: nat): (Place, ReadResult) {
    if n == 0 then (place, Got([]))
    else match place
      case At(pos) =>
        if pos > |file| then (Broken, StreamError)
        else if n <= |file| - pos then (At(pos + n), Got(file[pos..pos + n]))
        else (place, BeyondEnd)
      case Broken => (Broken, if n > |file| + 1 then BeyondEnd else StreamError)
  }

  function PlainSeek(place: Place, to: nat): Place {
    if place == Broken then Broken else At(to)
  }

  /** The answers of a plain file to a sequence of steps, and where it is in the end. */
  function PlainRun(file: seq<Byte>, place: Place, ops: seq<ReadOp>): (Place, seq<ReadResult>) {
    if ops == [] then (place, [])
    else
      var (p, answers) := PlainRun(file, place, ops[..|ops| - 1]);
      match ops[|ops| - 1]
      case Read(n) => (PlainRead(file, p, n).0, answers + [PlainRead(file, p, n).1])
      case Seek(q) => (PlainSeek(p, q), answers)
      case Resize(_, q) => (PlainSeek(p, q), answers)
  }

  /** Bytes written over the content of a file from a position on. */
  function Overlay(content: seq<Byte>, at: nat, bytes: seq<Byte>): (r: seq<Byte>)
    requires at <= |content|
    ensures |r| == if at + |bytes| > |content| then at + |bytes| else |content|
    ensures forall i :: 0 <= i < |r| ==> r[i] == if at <= i < at + |bytes| then bytes[i - at] else content[i]
  {
    content[..at] + bytes + if at + |bytes| < |content| then content[at + |bytes|..] else []
  }

  /** Two writes in a row are one. */
  lemma OverlayTwice(content: seq<Byte>, at: nat, a: seq<Byte>, b: seq<Byte>)
    requires at <= |content|
    ensures Overlay(Overlay(content, at, a), at + |a|, b) == Overlay(content, at, a + b)
  {
  }

  lemma WriteAtEnd(content: seq<Byte>, bytes: seq<Byte>)
    ensures Overlay(content, |content|, bytes) == content + bytes
  {
  }

  datatype WriteOp = Write(bytes: seq<Byte>) | Rewind

  /** A plain file after a sequence of writes and rewinds, and its position. */
  function PlainWrites(ops: seq<WriteOp>): (r: (seq<Byte>, nat))
    ensures r.1 <= |r.0|
  {
    if ops == [] then ([], 0)
    else
      var (content, at) := PlainWrites(ops[..|ops| - 1]);
      match ops[|ops| - 1]
      case Write(bytes) => (Overlay(content, at, bytes), at + |bytes|)
      case Rewind => (content, 0)
  }

  /** Without rewinding the file is the concatenation of the writes. */
  function Joined(ops: seq<WriteOp>): seq<Byte> {
    if ops == [] then []
    else Joined(ops[..|ops| - 1]) + if ops[|ops| - 1].Write? then ops[|ops| - 1].bytes else []
  }

  lemma {:induction false} WritesAreJoined(ops: seq<WriteOp>)
    requires forall i :: 0 <= i < |ops| ==> ops[i].Write?
    ensures PlainWrites(ops) == (Joined(ops), |Joined(ops)|)
  {
    if ops != [] {
      var init := ops[..|ops| - 1];
      WritesAreJoined(init);
      WriteAtEnd(Joined(init), ops[|ops| - 1].bytes);
    }
  }

  /** Writes, a rewind, writes again: the second part lies over the beginning of the first. */
  lemma {:induction false} RewoundWrites(first: seq<WriteOp>, second: seq<WriteOp>)
    requires forall i :: 0 <= i < |first| ==> first[i].Write?
    requires forall i :: 0 <= i < |second| ==> second[i].Write?
    ensures PlainWrites(first + [Rewind] + second) == (Overlay(Joined(first), 0, Joined(second)), |Joined(second)|)
    decreases |second|
  {
    var ops := first + [Rewind] + second;
    if second == [] {
      assert ops[..|ops| - 1] == first;
      WritesAreJoined(first);
      assert Overlay(Joined(first), 0, []) == Joined(first);
    } else {
      var init := second[..|second| - 1];
      assert ops[..|ops| - 1] == first + [Rewind] + init;
      RewoundWrites(first, init);
      OverlayTwice(Joined(first), 0, Joined(init), second[|second| - 1].bytes);
    }
  }

  lemma Consecutive(file: seq<Byte>, a: nat, b: nat, c: nat)
    requires a <= b <= c <= |file|
    ensures file[a..b] + file[b..c] == file[a..c]
  {
  }

  // ------------------------------------------------------------------ cached_ifstream

  class CachedReader {
    const file: seq<Byte>
    var pos: nat
    var broken: bool
    var cacheBuf: array<Byte>
    var curOff: nat

    /** The cache holds the bytes in front of the file position. */
    ghost predicate Valid()
      reads this, cacheBuf
    {
      && curOff <= cacheBuf.Length && cacheBuf.Length - curOff <= pos
      && (curOff < cacheBuf.Length ==>
            !broken && pos <= |file| && cacheBuf[curOff..] == file[pos - (cacheBuf.Length - curOff)..pos])
    }

    /** Where the client is. */
    ghost function Position(): Place
      requires Valid()
      reads this, cacheBuf
    {
      if broken then Broken else At(pos - (cacheBuf.Length - curOff))
    }

    constructor (file: seq<Byte>, cacheSize: nat)
      requires 0 < cacheSize
      ensures Valid() && fresh(cacheBuf) && this.file == file && Position() == At(0)
    {
      var size := if cacheSize < |file| then cacheSize else |file|;
      this.file, curOff, pos, broken := file, 0, size, false;
      var buf := new Byte[size](i requires 0 <= i < |file| => file[i]);
      cacheBuf := buf;
      new;
      assert cacheBuf[0..] == file[0..size];
    }

    /** Fills the cache from the file position on. */
    method Refill()
      requires !broken && cacheBuf.Length <= |file| - pos
      modifies this`pos, this`curOff, cacheBuf
      ensures Valid() && cacheBuf == old(cacheBuf) && Position() == At(old(pos))
    {
      forall i | 0 <= i < cacheBuf.Length {
        cacheBuf[i] := file[pos + i];
      }
      pos, curOff := pos + cacheBuf.Length, 0;
      assert cacheBuf[0..] == file[old(pos)..pos];
    }

    /** read: what a plain file would return at the client's position. */
    method Read(n: nat) returns (r: ReadResult)
      requires Valid()
      modifies this`pos, this`broken, this`curOff, cacheBuf
      ensures Valid() && cacheBuf == old(cacheBuf)
      ensures (Position(), r) == PlainRead(file, old(Position()), n)
      ensures old(Position()).At? ==>
        var p := old(Position()).pos;
        && (p + n <= |file| ==> r == Got(file[p..p + n]) && Position() == At(p + n))
        && (p <= |file| < p + n ==> r == BeyondEnd && Position() == At(p))
    {
      r := ReadThrough(n);
    }

    method ReadThrough(n: nat) returns (r: ReadResult)
      requires Valid()
      modifies this`pos, this`broken, this`curOff, cacheBuf
      ensures Valid() && cacheBuf == old(cacheBuf)
      ensures (Position(), r) == PlainRead(file, old(Position()), n)
    {
      var cached := cacheBuf.Length - curOff;
      ghost var p := pos - cached;
      if n <= cached {
        r := Got(cacheBuf[curOff..curOff + n]);
        if n > 0 {
          assert cacheBuf[curOff..curOff + n] == cacheBuf[curOff..][..n] == file[p..p + n];
          assert cacheBuf[curOff + n..] == cacheBuf[curOff..][n..];
        } else {
          assert r == Got([]);
        }
        curOff := curOff + n;
      } else if broken {
        r := if n > |file| + 1 then BeyondEnd else StreamError;
      } else if pos > |file| {
        broken, r := true, StreamError;
      } else if n - cached > |file| - pos {
        r := BeyondEnd;
      } else {
        r := Got(cacheBuf[curOff..] + file[pos..pos + (n - cached)]);
        Consecutive(file, p, pos, p + n);
        assert cacheBuf[curOff..] == file[p..pos];
        pos, curOff := pos + (n - cached), cacheBuf.Length;
        if |file| - pos >= cacheBuf.Length {
          Refill();
        }
      }
    }

    /** seek: a broken stream does not move. */
    method Seek(to: nat)
      requires Valid()
      modifies this`pos, this`curOff
      ensures Valid() && Position() == PlainSeek(old(Position()), to)
      ensures old(Position()).At? ==> Position() == At(to)
    {
      pos, curOff := if broken then pos else to, cacheBuf.Length;
    }

    /** set_cache_size drops what is cached without moving back: the client's position stays where it was exactly if
        nothing unread was cached. */
    method SetCacheSize(cacheSize: nat)
      requires Valid()
      modifies this`cacheBuf, this`curOff
      ensures Valid() && fresh(cacheBuf) && pos == old(pos) && broken == old(broken)
      ensures Position() == old(Position()) <==> old(curOff) == old(cacheBuf.Length)
    {
      var size := if cacheSize < |file| then cacheSize else |file|;
      assert cacheBuf.Length == curOff || !broken;
      cacheBuf := new Byte[size];
      curOff := size;
    }

    /** Any sequence of steps gets the answers of the plain file, whatever the cache sizes. */
    method Run(ops: seq<ReadOp>) returns (answers: seq<ReadResult>)
      requires Valid()
      modifies this, cacheBuf
      ensures Valid() && (Position(), answers) == PlainRun(file, old(Position()), ops)
    {
      answers := [];
      for i := 0 to |ops|
        invariant Valid() && (cacheBuf == old(cacheBuf) || fresh(cacheBuf))
        invariant (Position(), answers) == PlainRun(file, old(Position()), ops[..i])
      {
        assert ops[..i + 1][..i] == ops[..i];
        match ops[i] {
          case Read(n) =>
            var r := Read(n);
            answers := answers + [r];
          case Seek(q) =>
            Seek(q);
          case Resize(size, q) =>
            SetCacheSize(size);
            Seek(q);
        }
      }
      assert ops[..|ops|] == ops;
    }
  }

  // ------------------------------------------------------------------ cached_ofstream

  class CachedWriter {
    var file: seq<Byte>
    var at: nat
    var cacheBuf: array<Byte>
    var curOff: nat
    var fsize: nat

    ghost predicate Valid()
      reads this, cacheBuf
    {
      curOff <= cacheBuf.Length && at <= |file|
    }

    /** The file as it would be if the cache were written out, and where the client is. */
    ghost function Contents(): seq<Byte>
      requires Valid()
      reads this, cacheBuf
    {
      Overlay(file, at, cacheBuf[..curOff])
    }

    ghost function Position(): nat
      reads this
    {
      at + curOff
    }

    constructor (cacheSize: nat)
      requires 0 < cacheSize
      ensures Valid() && fresh(cacheBuf) && Contents() == [] && Position() == 0 && fsize == 0
    {
      file, at, curOff, fsize := [], 0, 0, 0;
      cacheBuf := new Byte[cacheSize];
    }

    /** The stream below: writes at its position. */
    method Put(bytes: seq<Byte>)
      requires at <= |file|
      modifies this`file, this`at, this`fsize
      ensures at <= |file| && file == Overlay(old(file), old(at), bytes) && at == old(at) + |bytes|
        && fsize == old(fsize) + |bytes|
    {
      file := Overlay(file, at, bytes);
      at, fsize := at + |bytes|, fsize + |bytes|;
    }

    method ClearCache()
      modifies this`curOff, cacheBuf
      ensures curOff == 0
    {
      forall i | 0 <= i < cacheBuf.Length {
        cacheBuf[i] := 0;
      }
      curOff := 0;
    }

    method Write(bytes: seq<Byte>)
      requires Valid()
      modifies this`file, this`at, this`fsize, this`curOff, cacheBuf
      ensures Valid() && Contents() == Overlay(old(Contents()), old(Position()), bytes)
      ensures Position() == old(Position()) + |bytes| && fsize + curOff == old(fsize + curOff) + |bytes|
    {
      OverlayTwice(file, at, cacheBuf[..curOff], bytes);
      if |bytes| <= cacheBuf.Length - curOff {
        ghost var was := cacheBuf[..curOff];
        forall i | 0 <= i < |bytes| {
          cacheBuf[curOff + i] := bytes[i];
        }
        curOff := curOff + |bytes|;
        assert cacheBuf[..curOff] == was + bytes;
      } else {
        Put(cacheBuf[..curOff]);
        Put(bytes);
        ClearCache();
        assert Overlay(file, at, []) == file;
      }
    }

    method FlushCache()
      requires Valid()
      modifies this`file, this`at, this`fsize, this`curOff, cacheBuf
      ensures Valid() && curOff == 0 && file == old(Contents()) && at == old(Position()) && fsize == old(fsize + curOff)
    {
      Put(cacheBuf[..curOff]);
      ClearCache();
    }

    /** reset: later writes go over the beginning of the file. */
    method Reset()
      requires Valid()
      modifies this`file, this`at, this`fsize, this`curOff, cacheBuf
      ensures Valid() && Contents() == old(Contents()) && Position() == 0 && fsize + curOff == old(fsize + curOff)
    {
      FlushCache();
      at := 0;
      assert Overlay(file, 0, []) == file;
    }

    /** close: the file holds everything that was written. */
    method Close()
      requires Valid()
      modifies this`file, this`at, this`fsize, this`curOff, cacheBuf
      ensures Valid() && curOff == 0 && file == old(Contents()) && fsize == old(fsize + curOff)
    {
      assert curOff == 0 ==> cacheBuf[..curOff] == [] && Overlay(file, at, []) == file;
      if curOff > 0 {
        FlushCache();
      }
    }

    /** Any sequence of writes and resets leaves what a plain file would hold, whatever the cache size. */
    method Run(ops: seq<WriteOp>)
      requires Valid() && Contents() == [] && Position() == 0
      modifies this`file, this`at, this`fsize, this`curOff, cacheBuf
      ensures Valid() && file == PlainWrites(ops).0
    {
      for i := 0 to |ops|
        invariant Valid() && (Contents(), Position()) == PlainWrites(ops[..i])
      {
        assert ops[..i + 1][..i] == ops[..i];
        match ops[i] {
          case Write(bytes) =>
            Write(bytes);
          case Rewind =>
            Reset();
        }
      }
      assert ops[..|ops|] == ops;
      Close();
    }
  }
}
