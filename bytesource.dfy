/**
  The random-access byte source the loaders read from: a memory-backed read
  file with a cursor, and what consecutive reads into a reused struct leave
  in that struct.
*/
module ByteSource {
  import opened Bytes

  /**
    What a read of `n` bytes at `pos` delivers: a memory-backed file hands
    over what is left, which may be fewer than `n` bytes.
  */
  function Chunk(data: seq<byte>, pos: nat, n: nat): (r: seq<byte>)
    ensures |r| <= n
  {
    if |data| <= pos then []
    else if pos + n <= |data| then data[pos..pos + n]
    else data[pos..]
  }

  /** A read that fits delivers exactly the bytes asked for; one that does not, what is left. */
  lemma ChunkFacts(data: seq<byte>, pos: nat, n: nat)
    ensures pos + n <= |data| ==> Chunk(data, pos, n) == data[pos..pos + n]
    ensures pos <= |data| ==> |Chunk(data, pos, n)| == Min(n, |data| - pos)
    ensures pos > |data| ==> Chunk(data, pos, n) == []
  {
  }

  /**
    A struct after a read of `got` into it: a short read leaves the tail of
    the struct as it was.
  */
  function Overlay(prev: seq<byte>, got: seq<byte>): (r: seq<byte>)
    requires |got| <= |prev|
    ensures |r| == |prev|
  {
    got + prev[|got|..]
  }

  /** The head of the struct is what was read; the rest is what was there before. */
  lemma OverlayParts(prev: seq<byte>, got: seq<byte>)
    requires |got| <= |prev|
    ensures Overlay(prev, got)[..|got|] == got
    ensures Overlay(prev, got)[|got|..] == prev[|got|..]
  {
  }

  /**
    The records copied out so far, the reused struct and the file cursor,
    after some reads into the struct.
  */
  datatype ReadState = ReadState(recs: seq<seq<byte>>, buf: seq<byte>, pos: nat)

  /**
    The state after `k` consecutive reads of `size` bytes each, from `pos`
    on, into one reused struct that initially holds `buf`; each read is
    followed by a copy of the whole struct.
  */
  function AfterReads(data: seq<byte>, pos: nat, buf: seq<byte>, size: nat, k: nat): (r: ReadState)
    requires size <= |buf|
    ensures |r.recs| == k && |r.buf| == |buf| && r.pos >= pos
    decreases k
  {
    if k == 0 then ReadState([], buf, pos)
    else
      var s := AfterReads(data, pos, buf, size, k - 1);
      var got := Chunk(data, s.pos, size);
      var b := Overlay(s.buf, got);
      ReadState(s.recs + [b], b, s.pos + |got|)
  }

  /** The successive contents of the struct over `n` such reads: what each push_back copies. */
  function Records(data: seq<byte>, pos: nat, buf: seq<byte>, size: nat, n: nat): (r: seq<seq<byte>>)
    requires size <= |buf|
  {
    AfterReads(data, pos, buf, size, n).recs
  }

  /** The cursor after `n` such reads. */
  function RecordsEnd(data: seq<byte>, pos: nat, buf: seq<byte>, size: nat, n: nat): nat
    requires size <= |buf|
  {
    AfterReads(data, pos, buf, size, n).pos
  }

  lemma {:induction false} RecordsAt(data: seq<byte>, pos: nat, buf: seq<byte>, size: nat, n: nat, k: nat)
    requires size <= |buf| && k < n
    ensures Records(data, pos, buf, size, n)[k] == AfterReads(data, pos, buf, size, k + 1).buf
    decreases n
  {
    var s := AfterReads(data, pos, buf, size, n - 1);
    var r := AfterReads(data, pos, buf, size, n);
    assert r.recs == s.recs + [r.buf];
    if k < n - 1 {
      RecordsAt(data, pos, buf, size, n - 1, k);
    }
  }
  /** Reads stop at the end of the data and never run past it. */
  lemma {:induction false} RecordsEndIsClamped(data: seq<byte>, pos: nat, buf: seq<byte>, size: nat, n: nat)
    requires size <= |buf| && pos <= |data|
    ensures RecordsEnd(data, pos, buf, size, n) == Min(pos + size * n, |data|)
    decreases n
  {
    if n > 0 {
      RecordsEndIsClamped(data, pos, buf, size, n - 1);
      ChunkFacts(data, RecordsEnd(data, pos, buf, size, n - 1), size);
      MulSucc(size, n - 1);
    }
  }

  lemma MulSucc(a: nat, b: nat)
    ensures a * (b + 1) == a * b + a
  {
  }

  lemma MulMono(a: nat, b: nat, c: nat)
    requires b <= c
    ensures a * b <= a * c
  {
  }

  /** The offset of record k when n records fit below `limit`. */
  lemma RecordOffsets(pos: nat, size: nat, n: nat, k: nat, limit: nat)
    requires k < n && pos + size * n <= limit
    ensures pos + size * k + size <= limit
  {
    MulMono(size, k + 1, n);
    MulSucc(size, k);
  }

  /**
    When all `n` records lie inside the data, read k+1 delivers exactly the k-th
    `size`-byte slice: the reused struct carries nothing over.
  */
  lemma ReadInBounds(data: seq<byte>, pos: nat, buf: seq<byte>, size: nat, n: nat, k: nat)
    requires size == |buf|
    requires pos + size * n <= |data|
    requires k < n
    ensures AfterReads(data, pos, buf, size, k + 1).buf == Chunk(data, pos + size * k, size)
    ensures |Chunk(data, pos + size * k, size)| == size
  {
    RecordOffsets(pos, size, n, k, |data|);
    RecordsEndIsClamped(data, pos, buf, size, k);
    ChunkFacts(data, pos + size * k, size);
  }

  lemma OverlayKeeps(prev: seq<byte>, got: seq<byte>, i: nat)
    requires |got| <= i < |prev|
    ensures Overlay(prev, got)[i] == prev[i]
  {
  }

  /**
    Reads of `size` bytes into a struct longer than that never touch the
    struct's tail: after any number of them byte i >= size is as it was at
    the start.
  */
  lemma {:induction false} ReadsKeepTail(data: seq<byte>, pos: nat, buf: seq<byte>, size: nat, k: nat, i: nat)
    requires size <= i < |buf|
    ensures AfterReads(data, pos, buf, size, k).buf[i] == buf[i]
    decreases k
  {
    if k > 0 {
      ReadsKeepTail(data, pos, buf, size, k - 1, i);
      var s := AfterReads(data, pos, buf, size, k - 1);
      OverlayKeeps(s.buf, Chunk(data, s.pos, size), i);
      assert AfterReads(data, pos, buf, size, k).buf == Overlay(s.buf, Chunk(data, s.pos, size));
    }
  }

  /** One more read: the struct is overlaid with what the next read delivers. */
  lemma ReadStep(data: seq<byte>, pos: nat, buf: seq<byte>, size: nat, k: nat)
    requires size <= |buf|
    ensures var s := AfterReads(data, pos, buf, size, k);
      var got := Chunk(data, s.pos, size);
      var b := Overlay(s.buf, got);
      AfterReads(data, pos, buf, size, k + 1) == ReadState(s.recs + [b], b, s.pos + |got|)
  {
  }

  /** A struct the C++ declares without initialising it; the model takes its bytes as zero. */
  function Blank(n: nat): (r: seq<byte>)
    ensures |r| == n
  {
    seq(n, _ => 0)
  }

  /**
    A memory-backed read file as the loaders see it: its bytes and its
    cursor. The loaders hold these as values and replace them after every
    seek or read.
  */
  datatype Src = Src(data: seq<byte>, pos: nat)

  /** An absolute seek; a target past the end fails and leaves the cursor. */
  function Seek(f: Src, p: nat): (r: Src)
    ensures r.data == f.data
    ensures p <= |f.data| ==> r.pos == p
    ensures p > |f.data| ==> r == f
  {
    if p <= |f.data| then Src(f.data, p) else f
  }

  /** A read of up to `n` bytes: what it delivers and where the cursor ends up. */
  function Read(f: Src, n: nat): (r: (seq<byte>, Src))
    ensures r.0 == Chunk(f.data, f.pos, n)
    ensures r.1 == Src(f.data, f.pos + |r.0|)
  {
    var got := Chunk(f.data, f.pos, n);
    (got, Src(f.data, f.pos + |got|))
  }

  /** A read of up to `n` bytes over the start of the struct `buf`. */
  function ReadOver(f: Src, buf: seq<byte>, n: nat): (r: (seq<byte>, Src))
    requires n <= |buf|
    ensures |r.0| == |buf|
  {
    var (got, g) := Read(f, n);
    (Overlay(buf, got), g)
  }

  /**
    A table read: `n` reads of `size` bytes into one reused struct that
    initially holds `buf`, each followed by a push_back of the struct. The
    records and the file afterwards.
  */
  function TableRead(f: Src, buf: seq<byte>, size: nat, n: nat): (r: (seq<seq<byte>>, Src))
    requires size <= |buf|
    ensures |r.0| == n && r.1.data == f.data
    ensures forall k :: 0 <= k < n ==> |r.0[k]| == |buf|
  {
    RecordsWidth(f.data, f.pos, buf, size, n);
    (Records(f.data, f.pos, buf, size, n), Src(f.data, RecordsEnd(f.data, f.pos, buf, size, n)))
  }

  /** A table read never moves the cursor back, nor past the end of the data. */
  lemma TableReadStays(f: Src, buf: seq<byte>, size: nat, n: nat)
    requires size <= |buf| && f.pos <= |f.data|
    ensures f.pos <= TableRead(f, buf, size, n).1.pos <= |f.data|
  {
    RecordsEndIsClamped(f.data, f.pos, buf, size, n);
  }

  /** The loop of a table read; also returns what the reused struct holds afterwards. */
  method ReadTable(f: Src, buf: seq<byte>, size: nat, n: nat) returns (recs: seq<seq<byte>>, g: Src, cur: seq<byte>)
    requires size <= |buf|
    ensures (recs, g) == TableRead(f, buf, size, n)
    ensures cur == AfterReads(f.data, f.pos, buf, size, n).buf
  {
    recs := [];
    cur := buf;
    g := f;
    var i := 0;
    while i < n
      invariant 0 <= i <= n && g.data == f.data
      invariant AfterReads(f.data, f.pos, buf, size, i) == ReadState(recs, cur, g.pos)
    {
      ReadStep(f.data, f.pos, buf, size, i);
      var got := Chunk(g.data, g.pos, size);
      cur := Overlay(cur, got);
      g := Src(g.data, g.pos + |got|);
      recs := recs + [cur];
      i := i + 1;
    }
  }

  /**
    A table that lies wholly inside the file: record k is the k-th slice of
    `size` bytes after the cursor, and nothing of the struct carries over.
  */
  lemma TableInBounds(f: Src, buf: seq<byte>, size: nat, n: nat, k: nat)
    requires size == |buf| && f.pos + size * n <= |f.data| && k < n
    ensures f.pos + size * k + size <= |f.data|
    ensures TableRead(f, buf, size, n).0[k] == f.data[f.pos + size * k..f.pos + size * k + size]
  {
    RecordOffsets(f.pos, size, n, k, |f.data|);
    RecordsAt(f.data, f.pos, buf, size, n, k);
    ReadInBounds(f.data, f.pos, buf, size, n, k);
  }

  /** Where read k of a run of `size`-byte reads from `pos` starts: reads stop at the end of the data. */
  function ReadPos(data: seq<byte>, pos: nat, size: nat, k: nat): nat
  {
    if pos >= |data| then pos else Min(pos + size * k, |data|)
  }

  /**
    A table read into a struct declared afresh for every record (the model
    reads an uninitialised struct as zeros): record k is what read k
    delivers, padded with zeros.
  */
  function FreshTable(f: Src, size: nat, n: nat): (r: (seq<seq<byte>>, Src))
    ensures |r.0| == n && r.1 == Src(f.data, ReadPos(f.data, f.pos, size, n))
    ensures forall k :: 0 <= k < n ==> |r.0[k]| == size
  {
    (seq(n, k requires 0 <= k < n => Overlay(Blank(size), Chunk(f.data, ReadPos(f.data, f.pos, size, k), size))),
     Src(f.data, ReadPos(f.data, f.pos, size, n)))
  }

  /** One more read starts where the last one stopped. */
  lemma ReadPosStep(data: seq<byte>, pos: nat, size: nat, k: nat)
    ensures ReadPos(data, pos, size, k + 1) == ReadPos(data, pos, size, k) + |Chunk(data, ReadPos(data, pos, size, k), size)|
  {
    MulSucc(size, k);
    ChunkFacts(data, ReadPos(data, pos, size, k), size);
  }

  /** The loop of a fresh-struct table read. */
  method ReadFreshTable(f: Src, size: nat, n: nat) returns (recs: seq<seq<byte>>, g: Src)
    ensures (recs, g) == FreshTable(f, size, n)
  {
    recs := [];
    g := f;
    var i := 0;
    while i < n
      invariant 0 <= i <= n && g == Src(f.data, ReadPos(f.data, f.pos, size, i))
      invariant recs == FreshTable(f, size, i).0
    {
      ReadPosStep(f.data, f.pos, size, i);
      var got := Chunk(g.data, g.pos, size);
      recs := recs + [Overlay(Blank(size), got)];
      g := Src(g.data, g.pos + |got|);
      i := i + 1;
    }
  }

  /** Every record of a table read is as long as the struct. */
  lemma RecordsWidth(data: seq<byte>, pos: nat, buf: seq<byte>, size: nat, n: nat)
    requires size <= |buf|
    ensures forall k :: 0 <= k < n ==> |Records(data, pos, buf, size, n)[k]| == |buf|
  {
    forall k | 0 <= k < n
      ensures |Records(data, pos, buf, size, n)[k]| == |buf|
    {
      RecordsAt(data, pos, buf, size, n, k);
    }
  }

  // ---------------------------------------------------------------------
  // Names read into a std::string buffer.

  /** std::string::resize: truncate, or extend with NULs. */
  function Resize(s: seq<byte>, n: nat): (r: seq<byte>)
    ensures |r| == n
    ensures forall i :: 0 <= i < n ==> r[i] == if i < |s| then s[i] else 0
  {
    if n <= |s| then s[..n] else s + Blank(n - |s|)
  }

  /** What c_str() shows of a buffer: everything before the first NUL. */
  function CString(b: seq<byte>): (r: seq<byte>)
    ensures |r| <= |b| && r == b[..|r|]
    ensures forall i :: 0 <= i < |r| ==> r[i] != 0
    ensures |r| < |b| ==> b[|r|] == 0
    decreases |b|
  {
    if b == [] || b[0] == 0 then [] else [b[0]] + CString(b[1..])
  }

  /** A NUL at z ends the string at or before z. */
  lemma {:induction false} CStringBeforeNul(b: seq<byte>, z: nat)
    requires z < |b| && b[z] == 0
    ensures |CString(b)| <= z
    decreases |b|
  {
    if b[0] != 0 {
      CStringBeforeNul(b[1..], z - 1);
    }
  }

  /** Two buffers that agree up to and including a NUL show the same string. */
  lemma {:induction false} CStringPrefix(b: seq<byte>, c: seq<byte>, z: nat)
    requires z < |b| && z < |c| && b[z] == 0 && b[..z + 1] == c[..z + 1]
    ensures CString(b) == CString(c)
    decreases |b|
  {
    assert b[0] == c[0];
    if b[0] != 0 {
      assert b[1..][..z] == c[1..][..z];
      CStringPrefix(b[1..], c[1..], z - 1);
    }
  }

  /** Without a NUL the whole buffer shows. */
  lemma {:induction false} CStringNoNul(b: seq<byte>)
    requires forall i :: 0 <= i < |b| ==> b[i] != 0
    ensures CString(b) == b
    decreases |b|
  {
    if b != [] {
      CStringNoNul(b[1..]);
    }
  }

  /** A NUL inside the first part hides whatever follows it. */
  lemma CStringStopsAtNul(a: seq<byte>, rest: seq<byte>, z: nat)
    requires z < |a| && a[z] == 0
    ensures CString(a + rest) == CString(a)
  {
    assert (a + rest)[..z + 1] == a[..z + 1];
    CStringPrefix(a + rest, a, z);
  }

  /** A byte string as characters, one for one. */
  function Chars(b: seq<byte>): (s: string)
    ensures |s| == |b|
  {
    seq(|b|, i requires 0 <= i < |b| => b[i] as char)
  }
}
