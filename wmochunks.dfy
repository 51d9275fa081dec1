/**
  The chunk reader of the WMO loader (CWMOMeshFileLoader::load): the
  byte-reversed tags, the records the chunks hold, and the loop that walks
  a root or group file chunk by chunk, filling the loader's tables.
*/
module WmoChunks {
  import opened Wrappers
  import opened Bytes
  import opened ByteSource
  import opened M2Geometry
  import R = M2Records

  // ---------------------------------------------------------------------
  // Tags (cpp:8-17)

  // The tags as the four bytes strcmp compares the tag buffer with.
  const MVER: seq<byte> := [0x4D, 0x56, 0x45, 0x52]
  const MOHD: seq<byte> := [0x4D, 0x4F, 0x48, 0x44]
  const MOTX: seq<byte> := [0x4D, 0x4F, 0x54, 0x58]
  const MOMT: seq<byte> := [0x4D, 0x4F, 0x4D, 0x54]
  const MOGP: seq<byte> := [0x4D, 0x4F, 0x47, 0x50]
  const MOPY: seq<byte> := [0x4D, 0x4F, 0x50, 0x59]
  const MOVI: seq<byte> := [0x4D, 0x4F, 0x56, 0x49]
  const MOVT: seq<byte> := [0x4D, 0x4F, 0x56, 0x54]
  const MONR: seq<byte> := [0x4D, 0x4F, 0x4E, 0x52]
  const MOTV: seq<byte> := [0x4D, 0x4F, 0x54, 0x56]
  const MOCV: seq<byte> := [0x4D, 0x4F, 0x43, 0x56]

  /** flipcc: the files store tags back to front. */
  function FlipCC(t: seq<byte>): (r: seq<byte>)
    requires |t| == 4
    ensures |r| == 4
  {
    [t[3], t[2], t[1], t[0]]
  }

  /** flipcc on the tag buffer: the first four bytes swap end for end, the terminator stays. */
  method FlipInPlace(fcc: array<byte>)
    requires fcc.Length >= 4
    modifies fcc
    ensures fcc[..4] == FlipCC(old(fcc[..4]))
    ensures fcc[4..] == old(fcc[4..])
  {
    var t := fcc[0];
    fcc[0] := fcc[3];
    fcc[3] := t;
    t := fcc[1];
    fcc[1] := fcc[2];
    fcc[2] := t;
  }

  /** Turning a tag round twice gives it back. */
  lemma FlipCCInvolution(t: seq<byte>)
    requires |t| == 4
    ensures FlipCC(FlipCC(t)) == t
  {
  }

  // ---------------------------------------------------------------------
  // Records

  /** Bytes of a RootHeader; nGroups is its second u32. */
  const RootHeaderSize: nat := 64
  const OfsGroups: nat := 4
  /** Bytes of a MOMT_Data record: blendMode, startNameIndex and endNameIndex sit at 8, 12 and 24. */
  const MomtSize: nat := 64
  /** Bytes of a MOPY_Data record: flags, then textureID. */
  const MopySize: nat := 2
  const IndexSize: nat := 2
  const VectorSize: nat := 12
  const TexCoordSize: nat := 8
  const ColorSize: nat := 4
  /** The part of a MOGP chunk stepped over before its sub-chunks. */
  const GroupHeaderSize: nat := 68

  function NGroups(header: seq<byte>): (r: nat)
    requires |header| == RootHeaderSize
    ensures r < TWO32
  {
    U32(header, OfsGroups)
  }

  /** The fields of a MOMT_Data record the loader uses. */
  datatype Momt = Momt(blendMode: nat, startNameIndex: nat, endNameIndex: nat)

  function DecodeMomt(b: seq<byte>): Momt
    requires |b| == MomtSize
  {
    Momt(U32(b, 8), U32(b, 12), U32(b, 24))
  }

  /**
    The loader's tables, kept from one load to the next: rootHeader,
    WMOMTexDefinition, WMOMTextureFiles, the texture id of each WMOMTexData
    entry, submeshes, WMOMIndices, WMOMVertices, WMOMNormals, WMOMTexcoord
    and the raw bytes of each WMOMVertexColor.
  */
  datatype WmoTables = WmoTables(
    header: seq<byte>,
    defs: seq<Momt>,
    textureFiles: seq<string>,
    textureIDs: seq<nat>,
    submeshes: seq<nat>,
    indices: seq<nat>,
    vertices: seq<Vec3>,
    normals: seq<Vec3>,
    texcoords: seq<Vec2>,
    colors: seq<seq<byte>>)
  {
    predicate Sized()
    {
      |header| == RootHeaderSize
    }
  }

  /**
    The locals of load across its loop: the file, the tag and size buffers
    (declared without a value; the model starts them as zeros) and
    textureOffset, which has no value until a MOTX chunk is met.
  */
  datatype Cursor = Cursor(file: Src, cc: seq<byte>, size: seq<byte>, textureOffset: Option<nat>)
  {
    predicate Valid()
    {
      |cc| == 4 && |size| == 4 && file.pos <= |file.data|
    }
  }

  function Start(f: Src): (r: Cursor)
    requires f.pos <= |f.data|
    ensures r.Valid() && r.file == f && r.textureOffset.None?
  {
    Cursor(f, Blank(4), Blank(4), None)
  }

  // ---------------------------------------------------------------------
  // Chunk header (cpp:95-99)

  /**
    The chunk header: four tag bytes and four size bytes, each read over
    what its buffer held, then the tag turned round.
  */
  function ReadChunkHeader(c: Cursor): (r: Cursor)
    requires c.Valid()
    ensures r.Valid() && r.file.data == c.file.data && r.textureOffset == c.textureOffset
    ensures c.file.pos <= r.file.pos
    ensures c.file.pos < |c.file.data| ==> c.file.pos < r.file.pos
  {
    var (got1, f1) := Read(c.file, 4);
    var (got2, f2) := Read(f1, 4);
    ChunkFacts(c.file.data, c.file.pos, 4);
    ChunkFacts(c.file.data, f1.pos, 4);
    Cursor(f2, FlipCC(Overlay(c.cc, got1)), Overlay(c.size, got2), c.textureOffset)
  }

  /** A whole header moves the cursor 8 bytes; the tag is the first four bytes reversed, the size the next four. */
  lemma ChunkHeaderInBounds(c: Cursor)
    requires c.Valid() && c.file.pos + 8 <= |c.file.data|
    ensures var r := ReadChunkHeader(c);
      var p := c.file.pos;
      r.file.pos == p + 8 && r.cc == FlipCC(c.file.data[p..p + 4]) && U32(r.size, 0) == U32(c.file.data, p + 4)
  {
    var p := c.file.pos;
    ChunkFacts(c.file.data, p, 4);
    ChunkFacts(c.file.data, p + 4, 4);
    R.U32Local(ReadChunkHeader(c).size, 0, c.file.data, p + 4);
  }

  // ---------------------------------------------------------------------
  // MOMT: material records and their texture names (cpp:118-147)

  /** The MOMT records: size/64 reads into one struct, each copied out. */
  function MaterialDefs(f: Src, size: nat): (r: (seq<Momt>, Src))
    requires f.pos <= |f.data|
    ensures |r.0| == size / MomtSize && r.1.data == f.data && f.pos <= r.1.pos <= |f.data|
  {
    var (recs, g) := TableRead(f, Blank(MomtSize), MomtSize, size / MomtSize);
    TableReadStays(f, Blank(MomtSize), MomtSize, size / MomtSize);
    (seq(|recs|, i requires 0 <= i < |recs| => DecodeMomt(recs[i])), g)
  }

  /** The names read so far, the std::string they are read into, and the file. */
  datatype NameState = NameState(names: seq<string>, buf: seq<byte>, file: Src)

  /**
    One texture name: the buffer resized to end-start (u32), a seek into the
    MOTX block, a read over the buffer, and what c_str() shows of it.
  */
  function NameStep(s: NameState, d: Momt, textureOffset: nat): (r: NameState)
    ensures |r.names| == |s.names| + 1 && r.names[..|s.names|] == s.names && r.file.data == s.file.data
  {
    var len := WrapU32(d.endNameIndex - d.startNameIndex);
    var b := Resize(s.buf, len);
    var (got, g) := Read(Seek(s.file, WrapU32(textureOffset + d.startNameIndex)), len);
    var b' := Overlay(b, got);
    NameState(s.names + [Chars(CString(b'))], b', g)
  }

  /** The state after the names of the first k records. */
  function NamesUpTo(f: Src, defs: seq<Momt>, textureOffset: nat, k: nat): (r: NameState)
    requires k <= |defs|
    ensures |r.names| == k && r.file.data == f.data
  {
    if k == 0 then NameState([], [], f)
    else NameStep(NamesUpTo(f, defs, textureOffset, k - 1), defs[k - 1], textureOffset)
  }

  /**
    A name that lies inside the file is the C string of its own bytes,
    whatever the buffer held before.
  */
  lemma NameInFile(s: NameState, d: Momt, textureOffset: nat)
    requires d.startNameIndex <= d.endNameIndex
    requires textureOffset + d.endNameIndex <= |s.file.data| && textureOffset + d.endNameIndex < TWO32
    ensures NameStep(s, d, textureOffset).names[|s.names|] ==
      Chars(CString(s.file.data[textureOffset + d.startNameIndex..textureOffset + d.endNameIndex]))
  {
    NameBufferInFile(s, d, textureOffset);
  }

  /** The buffer a name inside the file is read into ends up holding exactly the name's bytes. */
  lemma NameBufferInFile(s: NameState, d: Momt, textureOffset: nat)
    requires d.startNameIndex <= d.endNameIndex
    requires textureOffset + d.endNameIndex <= |s.file.data| && textureOffset + d.endNameIndex < TWO32
    ensures NameStep(s, d, textureOffset).buf == s.file.data[textureOffset + d.startNameIndex..textureOffset + d.endNameIndex]
  {
    var len := d.endNameIndex - d.startNameIndex;
    var p := textureOffset + d.startNameIndex;
    ChunkFacts(s.file.data, p, len);
    var got := Chunk(s.file.data, p, len);
    assert |got| == len;
    assert Overlay(Resize(s.buf, len), got) == got;
  }

  /**
    A MOMT chunk: the records, one texture name per record read from the
    MOTX block, then a seek back to the end of the records. With records to
    name and no MOTX chunk before them, the names come from an offset that
    was never set.
  */
  function MaterialsChunk(f: Src, size: nat, textureOffset: Option<nat>): (r: Outcome<(seq<Momt>, seq<string>, Src)>)
    requires f.pos <= |f.data|
    ensures r.Done? <==> (size / MomtSize == 0 || textureOffset.Some?)
    ensures r.Done? ==> r.value.0 == MaterialDefs(f, size).0 && |r.value.1| == |r.value.0|
    ensures r.Done? ==> r.value.2 == MaterialDefs(f, size).1
  {
    var (defs, g) := MaterialDefs(f, size);
    if |defs| > 0 && textureOffset.None? then Undefined
    else
      var s := NamesUpTo(g, defs, if textureOffset.Some? then textureOffset.value else 0, |defs|);
      Done((defs, s.names, Seek(s.file, g.pos)))
  }

  /** The loop over the texture names. */
  method ReadNames(f: Src, defs: seq<Momt>, textureOffset: nat) returns (s: NameState)
    ensures s == NamesUpTo(f, defs, textureOffset, |defs|)
  {
    s := NameState([], [], f);
    var i := 0;
    while i < |defs|
      invariant 0 <= i <= |defs| && s == NamesUpTo(f, defs, textureOffset, i)
    {
      s := NameStep(s, defs[i], textureOffset);
      i := i + 1;
    }
  }

  method ReadMaterials(f: Src, size: nat, textureOffset: Option<nat>) returns (r: Outcome<(seq<Momt>, seq<string>, Src)>)
    requires f.pos <= |f.data|
    ensures r == MaterialsChunk(f, size, textureOffset)
  {
    var recs, g, _ := ReadTable(f, Blank(MomtSize), MomtSize, size / MomtSize);
    var defs := seq(|recs|, i requires 0 <= i < |recs| => DecodeMomt(recs[i]));
    var tempOffset := g.pos;
    if |defs| > 0 && textureOffset.None? {
      return Undefined;
    }
    var s := ReadNames(g, defs, if textureOffset.Some? then textureOffset.value else 0);
    return Done((defs, s.names, Seek(s.file, tempOffset)));
  }

  // ---------------------------------------------------------------------
  // MOPY: the texture of each triangle and where the runs end (cpp:158-177)

  function TextureIDs(recs: seq<seq<byte>>): (r: seq<nat>)
    requires forall k | 0 <= k < |recs| :: |recs[k]| == MopySize
    ensures |r| == |recs|
    ensures forall k | 0 <= k < |r| :: r[k] < 256
  {
    seq(|recs|, k requires 0 <= k < |recs| => recs[k][1])
  }

  /** The triangles i >= 1, in order, whose texture differs from that of triangle i-1. */
  function RunStarts(ids: seq<nat>): seq<nat>
    decreases |ids|
  {
    if |ids| <= 1 then []
    else RunStarts(ids[..|ids| - 1]) + (if ids[|ids| - 1] != ids[|ids| - 2] then [|ids| - 1] else [])
  }

  /** submeshes: each run start, then the index of the last entry (size()-1 as a u32). */
  function Boundaries(ids: seq<nat>): seq<nat>
  {
    RunStarts(ids) + [WrapU32(|ids| - 1)]
  }

  /** A triangle starts a run exactly when its texture differs from that of the triangle before it. */
  lemma {:induction false} RunStartsMember(ids: seq<nat>, i: nat)
    ensures i in RunStarts(ids) <==> (1 <= i < |ids| && ids[i] != ids[i - 1])
    decreases |ids|
  {
    if |ids| > 1 {
      var init := ids[..|ids| - 1];
      assert RunStarts(ids) == RunStarts(init) + (if ids[|ids| - 1] != ids[|ids| - 2] then [|ids| - 1] else []);
      RunStartsMember(init, i);
      if 1 <= i < |init| {
        assert ids[i] == init[i] && ids[i - 1] == init[i - 1];
      }
    }
  }

  /** The run starts come in increasing order and are triangles of the chunk. */
  lemma {:induction false} RunStartsIncrease(ids: seq<nat>)
    ensures forall a, b | 0 <= a < b < |RunStarts(ids)| :: RunStarts(ids)[a] < RunStarts(ids)[b]
    ensures forall a | 0 <= a < |RunStarts(ids)| :: RunStarts(ids)[a] < |ids|
    decreases |ids|
  {
    if |ids| > 1 {
      var init := ids[..|ids| - 1];
      assert RunStarts(ids) == RunStarts(init) + (if ids[|ids| - 1] != ids[|ids| - 2] then [|ids| - 1] else []);
      RunStartsIncrease(init);
    }
  }

  /**
    For a non-empty MOPY chunk the boundaries rise strictly, the last one is
    the last triangle, and every one before it starts a run.
  */
  lemma BoundariesShape(ids: seq<nat>)
    requires 1 <= |ids| < TWO32
    ensures Boundaries(ids)[|Boundaries(ids)| - 1] == |ids| - 1
    ensures forall a, b | 0 <= a < b < |Boundaries(ids)| :: Boundaries(ids)[a] <= Boundaries(ids)[b]
    ensures forall a | 0 <= a < |Boundaries(ids)| - 1 :: 1 <= Boundaries(ids)[a] < |ids| && ids[Boundaries(ids)[a]] != ids[Boundaries(ids)[a] - 1]
  {
    RunStartsIncrease(ids);
    var rs := RunStarts(ids);
    forall a | 0 <= a < |rs|
      ensures 1 <= rs[a] < |ids| && ids[rs[a]] != ids[rs[a] - 1]
    {
      RunStartsMember(ids, rs[a]);
    }
  }

  /** A MOPY chunk: size/2 records into one struct; the texture ids and the boundaries. */
  function PolyChunk(f: Src, size: nat): (r: (seq<nat>, seq<nat>, Src))
    requires f.pos <= |f.data|
    ensures |r.0| == size / MopySize && r.1 == Boundaries(r.0)
    ensures r.2.data == f.data && f.pos <= r.2.pos <= |f.data|
  {
    var (recs, g) := TableRead(f, Blank(MopySize), MopySize, size / MopySize);
    TableReadStays(f, Blank(MopySize), MopySize, size / MopySize);
    var ids := TextureIDs(recs);
    (ids, Boundaries(ids), g)
  }

  /**
    What the MOPY loop keeps after i records: the records copied (the model
    keeps them as a ghost), the struct, the cursor, the ids, the run starts
    so far, and previous_texid (999, outside the u8 range, before the first
    record).
  */
  ghost predicate PolyLoop(f: Src, i: nat, recs: seq<seq<byte>>, buf: seq<byte>, g: Src, ids: seq<nat>, subs: seq<nat>, previous: nat)
  {
    g.data == f.data && |ids| == i &&
    AfterReads(f.data, f.pos, Blank(MopySize), MopySize, i) == ReadState(recs, buf, g.pos) &&
    (forall k | 0 <= k < |recs| :: |recs[k]| == MopySize) && ids == TextureIDs(recs) &&
    subs == RunStarts(ids) &&
    previous == if i == 0 then 999 else ids[i - 1]
  }

  /** One more MOPY record adds its texture id, and a run start when that id differs from the one before. */
  lemma PolyIdsStep(recs: seq<seq<byte>>, rec: seq<byte>, ids: seq<nat>)
    requires (forall k | 0 <= k < |recs| :: |recs[k]| == MopySize) && |rec| == MopySize
    requires ids == TextureIDs(recs)
    ensures TextureIDs(recs + [rec]) == ids + [rec[1]]
    ensures RunStarts(ids + [rec[1]]) == RunStarts(ids) + (if |ids| >= 1 && rec[1] != ids[|ids| - 1] then [|ids|] else [])
  {
    var r := TextureIDs(recs + [rec]);
    forall k | 0 <= k < |r|
      ensures r[k] == (ids + [rec[1]])[k]
    {
      if k < |ids| {
        assert (recs + [rec])[k] == recs[k];
      }
    }
    RunStartsSnoc(ids, rec[1]);
  }

  /** The run starts of one more id: those before, and the new index when the id changes. */
  lemma RunStartsSnoc(ids: seq<nat>, id: nat)
    ensures RunStarts(ids + [id]) == RunStarts(ids) + (if |ids| >= 1 && id != ids[|ids| - 1] then [|ids|] else [])
  {
    assert (ids + [id])[..|ids|] == ids;
  }

  /** One pass of the MOPY loop: read over the struct, copy it, and push i when the texture changes. */
  method ReadPoly(f: Src, i: nat, ghost recs: seq<seq<byte>>, buf: seq<byte>, g: Src, ids: seq<nat>, subs: seq<nat>, previous: nat)
    returns (ghost recs': seq<seq<byte>>, buf': seq<byte>, g': Src, ids': seq<nat>, subs': seq<nat>, previous': nat)
    requires PolyLoop(f, i, recs, buf, g, ids, subs, previous)
    ensures PolyLoop(f, i + 1, recs', buf', g', ids', subs', previous')
    ensures |buf'| == MopySize && ids' == ids + [buf'[1]] && previous' == buf'[1]
  {
    ReadStep(f.data, f.pos, Blank(MopySize), MopySize, i);
    var got := Chunk(g.data, g.pos, MopySize);
    buf' := Overlay(buf, got);
    g' := Src(g.data, g.pos + |got|);
    recs' := recs + [buf'];
    var id := buf'[1];
    previous' := previous;
    if previous' == 999 {
      previous' := id;
    }
    PolyIdsStep(recs, buf', ids);
    ids' := ids + [id];
    subs' := subs;
    if previous' != id {
      subs' := subs + [i];
    }
    previous' := id;
  }

  /** Before the first record the loop's state is the empty one. */
  lemma PolyLoopStarts(f: Src)
    ensures PolyLoop(f, 0, [], Blank(MopySize), f, [], [], 999)
  {
  }

  /** After all size/2 records the loop's state, with the last entry closing the boundaries, is the chunk's. */
  lemma PolyLoopEnds(f: Src, size: nat, recs: seq<seq<byte>>, buf: seq<byte>, g: Src, ids: seq<nat>, subs: seq<nat>, previous: nat)
    requires f.pos <= |f.data| && PolyLoop(f, size / MopySize, recs, buf, g, ids, subs, previous)
    ensures (ids, subs + [WrapU32(|ids| - 1)], g) == PolyChunk(f, size)
  {
  }

  /** The MOPY loop; the last entry closes the list of boundaries. */
  method ReadPolys(f: Src, size: nat) returns (ids: seq<nat>, subs: seq<nat>, g: Src)
    requires f.pos <= |f.data|
    ensures (ids, subs, g) == PolyChunk(f, size)
  {
    var n := size / MopySize;
    ids, subs, g := [], [], f;
    var buf := Blank(MopySize);
    var previous: nat := 999;
    ghost var recs: seq<seq<byte>> := [];
    var i: nat := 0;
    PolyLoopStarts(f);
    while i < n
      invariant 0 <= i <= n && PolyLoop(f, i, recs, buf, g, ids, subs, previous)
    {
      recs, buf, g, ids, subs, previous := ReadPoly(f, i, recs, buf, g, ids, subs, previous);
      i := i + 1;
    }
    PolyLoopEnds(f, size, recs, buf, g, ids, subs, previous);
    subs := subs + [WrapU32(|ids| - 1)];
  }

  // ---------------------------------------------------------------------
  // MOVI, MOVT, MONR, MOTV, MOCV: the group's geometry (cpp:178-251)

  /** A MOVI chunk: size/2 vertex indices (u16), read into one variable. */
  function IndexChunk(f: Src, size: nat): (r: (seq<nat>, Src))
    requires f.pos <= |f.data|
    ensures |r.0| == size / IndexSize && r.1.data == f.data && f.pos <= r.1.pos <= |f.data|
  {
    var (recs, g) := TableRead(f, Blank(IndexSize), IndexSize, size / IndexSize);
    TableReadStays(f, Blank(IndexSize), IndexSize, size / IndexSize);
    (seq(|recs|, i requires 0 <= i < |recs| => U16(recs[i], 0)), g)
  }

  method ReadIndices(f: Src, size: nat) returns (indices: seq<nat>, g: Src)
    requires f.pos <= |f.data|
    ensures (indices, g) == IndexChunk(f, size)
  {
    var recs, g', _ := ReadTable(f, Blank(IndexSize), IndexSize, size / IndexSize);
    indices := seq(|recs|, i requires 0 <= i < |recs| => U16(recs[i], 0));
    g := g';
  }

  /** The vector struct after Y and Z are swapped within it. */
  function SwapYZ(b: seq<byte>): (r: seq<byte>)
    requires |b| == VectorSize
    ensures |r| == VectorSize
  {
    b[..4] + b[8..12] + b[4..8]
  }

  /** The vectors copied out so far, the struct they are read into, and the cursor. */
  datatype VectorState = VectorState(vs: seq<Vec3>, buf: seq<byte>, pos: nat)

  /**
    k reads into one vector struct (constructed as zeros), each followed by
    the swap of Y and Z inside the struct and a copy; a short read lands on
    the swapped vector of the read before.
  */
  function SwappedReads(data: seq<byte>, pos: nat, k: nat): (r: VectorState)
    ensures |r.vs| == k && |r.buf| == VectorSize && pos <= r.pos
    ensures pos <= |data| ==> r.pos <= |data|
    decreases k
  {
    if k == 0 then VectorState([], Blank(VectorSize), pos)
    else
      var s := SwappedReads(data, pos, k - 1);
      var got := Chunk(data, s.pos, VectorSize);
      ChunkFacts(data, s.pos, VectorSize);
      var b := SwapYZ(Overlay(s.buf, got));
      VectorState(s.vs + [R.Vec3At(b, 0)], b, s.pos + |got|)
  }

  lemma {:induction false} SwappedReadsPos(data: seq<byte>, pos: nat, k: nat)
    requires pos + VectorSize * k <= |data|
    ensures SwappedReads(data, pos, k).pos == pos + VectorSize * k
    decreases k
  {
    if k > 0 {
      SwappedReadsPos(data, pos, k - 1);
      ChunkFacts(data, pos + VectorSize * (k - 1), VectorSize);
    }
  }

  /** The swapped struct decodes to the file's vector with Y and Z exchanged. */
  lemma SwapYZDecodes(data: seq<byte>, p: nat)
    requires p + VectorSize <= |data|
    ensures R.Vec3At(SwapYZ(data[p..p + VectorSize]), 0) == FixCoordSystem(R.Vec3At(data, p))
  {
    var d := data[p..p + VectorSize];
    var b := SwapYZ(d);
    assert b[0..4] == d[..4] && d[..4] == data[p..p + 4];
    assert b[4..8] == d[8..12] && d[8..12] == data[p + 8..p + 12];
    assert b[8..12] == d[4..8] && d[4..8] == data[p + 4..p + 8];
    R.U32Local(b, 0, data, p);
    R.U32Local(b, 4, data, p + 8);
    R.U32Local(b, 8, data, p + 4);
  }

  /** Vectors wholly inside the file are the file's vectors with Y and Z swapped. */
  lemma {:induction false} SwappedReadsInBounds(data: seq<byte>, pos: nat, n: nat, k: nat)
    requires pos + VectorSize * n <= |data| && k < n
    ensures pos + VectorSize * k + VectorSize <= |data|
    ensures SwappedReads(data, pos, n).vs[k] == FixCoordSystem(R.Vec3At(data, pos + VectorSize * k))
    decreases n
  {
    RecordOffsets(pos, VectorSize, n, k, |data|);
    if k < n - 1 {
      SwappedReadsInBounds(data, pos, n - 1, k);
    } else {
      var s := SwappedReads(data, pos, k);
      SwappedReadsPos(data, pos, k);
      var p := pos + VectorSize * k;
      ChunkFacts(data, p, VectorSize);
      assert Overlay(s.buf, Chunk(data, p, VectorSize)) == data[p..p + VectorSize];
      SwapYZDecodes(data, p);
    }
  }

  /** A MOVT or MONR chunk: size/12 vectors. */
  function VectorChunk(f: Src, size: nat): (r: (seq<Vec3>, Src))
    requires f.pos <= |f.data|
    ensures |r.0| == size / VectorSize && r.1.data == f.data && f.pos <= r.1.pos <= |f.data|
  {
    var s := SwappedReads(f.data, f.pos, size / VectorSize);
    (s.vs, Src(f.data, s.pos))
  }

  /** One pass of the MOVT and MONR loops: read over the struct, swap Y and Z through tempYZ, copy. */
  method ReadVector(data: seq<byte>, pos: nat, i: nat, s: VectorState) returns (r: VectorState)
    requires s == SwappedReads(data, pos, i)
    ensures r == SwappedReads(data, pos, i + 1)
  {
    var got := Chunk(data, s.pos, VectorSize);
    var buf := Overlay(s.buf, got);
    var tempYZ := buf[4..8];
    buf := buf[..4] + buf[8..12] + tempYZ;
    r := VectorState(s.vs + [R.Vec3At(buf, 0)], buf, s.pos + |got|);
  }

  /** The MOVT and MONR loops. */
  method ReadVectors(f: Src, size: nat) returns (vs: seq<Vec3>, g: Src)
    requires f.pos <= |f.data|
    ensures (vs, g) == VectorChunk(f, size)
  {
    var s := VectorState([], Blank(VectorSize), f.pos);
    var i := 0;
    while i < size / VectorSize
      invariant 0 <= i <= size / VectorSize && s == SwappedReads(f.data, f.pos, i)
    {
      s := ReadVector(f.data, f.pos, i, s);
      i := i + 1;
    }
    vs, g := s.vs, Src(f.data, s.pos);
  }

  /** A MOTV chunk: size/8 texture coordinates, read into one vector. */
  function TexCoordChunk(f: Src, size: nat): (r: (seq<Vec2>, Src))
    requires f.pos <= |f.data|
    ensures |r.0| == size / TexCoordSize && r.1.data == f.data && f.pos <= r.1.pos <= |f.data|
  {
    var (recs, g) := TableRead(f, Blank(TexCoordSize), TexCoordSize, size / TexCoordSize);
    TableReadStays(f, Blank(TexCoordSize), TexCoordSize, size / TexCoordSize);
    (seq(|recs|, i requires 0 <= i < |recs| => R.Vec2At(recs[i], 0)), g)
  }

  method ReadTexCoords(f: Src, size: nat) returns (tcs: seq<Vec2>, g: Src)
    requires f.pos <= |f.data|
    ensures (tcs, g) == TexCoordChunk(f, size)
  {
    var recs, g', _ := ReadTable(f, Blank(TexCoordSize), TexCoordSize, size / TexCoordSize);
    tcs := seq(|recs|, i requires 0 <= i < |recs| => R.Vec2At(recs[i], 0));
    g := g';
  }

  /** A MOCV chunk: size/4 colours, kept as their four bytes. */
  function ColorChunk(f: Src, size: nat): (r: (seq<seq<byte>>, Src))
    requires f.pos <= |f.data|
    ensures |r.0| == size / ColorSize && r.1.data == f.data && f.pos <= r.1.pos <= |f.data|
  {
    TableReadStays(f, Blank(ColorSize), ColorSize, size / ColorSize);
    TableRead(f, Blank(ColorSize), ColorSize, size / ColorSize)
  }

  // ---------------------------------------------------------------------
  // One chunk, and the loop over them (cpp:95-257)

  /** What one chunk leaves: whether load carries on, its locals, and the tables. */
  datatype Step = Step(more: bool, cur: Cursor, t: WmoTables)

  /** seek(n, true): a relative seek, which fails past the end of the file and leaves the cursor. */
  function Skip(c: Cursor, n: nat): (r: Cursor)
    requires c.Valid()
    ensures r.Valid() && r.file.data == c.file.data && c.file.pos <= r.file.pos
  {
    c.(file := Seek(c.file, c.file.pos + n))
  }

  /** The tags load knows; any other chunk is skipped. */
  const KnownTags := {MVER, MOHD, MOTX, MOMT, MOGP, MOPY, MOVI, MOVT, MONR, MOTV, MOCV}

  /** The body of the loop after the header: what the chunk with tag c.cc and size c.size does. */
  function ChunkBody(c: Cursor, t: WmoTables, root: bool): (r: Outcome<Step>)
    requires c.Valid() && t.Sized()
    ensures r.Done? ==> r.value.cur.Valid() && r.value.t.Sized()
    ensures r.Done? ==> r.value.cur.file.data == c.file.data && c.file.pos <= r.value.cur.file.pos
  {
    var f := c.file;
    var size := U32(c.size, 0);
    if c.cc == MVER then Done(Step(true, Skip(c, size), t))
    else if c.cc == MOHD then
      var (got, g) := Read(f, RootHeaderSize);
      ChunkFacts(f.data, f.pos, RootHeaderSize);
      Done(Step(root, c.(file := g), t.(header := Overlay(t.header, got))))
    else if c.cc == MOTX then Done(Step(true, Skip(c, size).(textureOffset := Some(f.pos)), t))
    else if c.cc == MOMT then
      match MaterialsChunk(f, size, c.textureOffset)
      case Undefined => Undefined
      case Done(m) => Done(Step(true, c.(file := m.2), t.(defs := m.0, textureFiles := m.1)))
    else if c.cc == MOGP then Done(Step(!root, Skip(c, GroupHeaderSize), t))
    else if c.cc == MOPY then
      var (ids, subs, g) := PolyChunk(f, size);
      Done(Step(true, c.(file := g), t.(textureIDs := ids, submeshes := subs)))
    else if c.cc == MOVI then
      var (indices, g) := IndexChunk(f, size);
      Done(Step(true, c.(file := g), t.(indices := indices)))
    else if c.cc == MOVT then
      var (vs, g) := VectorChunk(f, size);
      Done(Step(true, c.(file := g), t.(vertices := vs)))
    else if c.cc == MONR then
      var (ns, g) := VectorChunk(f, size);
      Done(Step(true, c.(file := g), t.(normals := ns)))
    else if c.cc == MOTV then
      var (tcs, g) := TexCoordChunk(f, size);
      Done(Step(true, c.(file := g), t.(texcoords := tcs)))
    else if c.cc == MOCV then
      var (cs, g) := ColorChunk(f, size);
      Done(Step(true, c.(file := g), t.(colors := cs)))
    else Done(Step(true, Skip(c, size), t))
  }

  /** One pass of the loop: the header, then the chunk's body. */
  function ChunkStep(c: Cursor, t: WmoTables, root: bool): (r: Outcome<Step>)
    requires c.Valid() && t.Sized()
    ensures r.Done? ==> r.value.cur.Valid() && r.value.t.Sized() && r.value.cur.file.data == c.file.data
    ensures r.Done? && c.file.pos < |c.file.data| ==> c.file.pos < r.value.cur.file.pos
  {
    ChunkBody(ReadChunkHeader(c), t, root)
  }

  /**
    The chunk loop: one chunk after another while the cursor is before the
    end of the file. A chunk that makes load return stops it with the flag
    false; otherwise the loop runs to the end of the file.
  */
  function Chunks(c: Cursor, t: WmoTables, root: bool): (r: Outcome<(bool, Cursor, WmoTables)>)
    requires c.Valid() && t.Sized()
    ensures r.Done? ==> r.value.1.Valid() && r.value.2.Sized() && r.value.1.file.data == c.file.data
    ensures r.Done? && r.value.0 ==> r.value.1.file.pos == |c.file.data|
    decreases |c.file.data| - c.file.pos
  {
    if c.file.pos >= |c.file.data| then Done((true, c, t))
    else match ChunkStep(c, t, root)
      case Undefined => Undefined
      case Done(s) => if !s.more then Done((false, s.cur, s.t)) else Chunks(s.cur, s.t, root)
  }

  /** The header read: tag and size over their buffers, then flipcc on the tag buffer. */
  method ReadHeader(c: Cursor) returns (r: Cursor)
    requires c.Valid()
    ensures r == ReadChunkHeader(c)
  {
    var (got1, f1) := Read(c.file, 4);
    var over := Overlay(c.cc, got1);
    var fourcc := new byte[5](i requires 0 <= i < 5 => if i < 4 then over[i] else 0);
    assert fourcc[..4] == over;
    FlipInPlace(fourcc);
    var (got2, f2) := Read(f1, 4);
    r := Cursor(f2, fourcc[..4], Overlay(c.size, got2), c.textureOffset);
  }

  /** The if-chain on the tag. */
  method ReadChunkBody(c: Cursor, t: WmoTables, root: bool) returns (r: Outcome<Step>)
    requires c.Valid() && t.Sized()
    ensures r == ChunkBody(c, t, root)
  {
    var f := c.file;
    var size := U32(c.size, 0);
    if c.cc == MVER {
      r := Done(Step(true, Skip(c, size), t));
    } else if c.cc == MOHD {
      var (got, g) := Read(f, RootHeaderSize);
      r := Done(Step(root, c.(file := g), t.(header := Overlay(t.header, got))));
    } else if c.cc == MOTX {
      r := Done(Step(true, Skip(c, size).(textureOffset := Some(f.pos)), t));
    } else if c.cc == MOMT {
      var m := ReadMaterials(f, size, c.textureOffset);
      if m.Undefined? {
        return Undefined;
      }
      r := Done(Step(true, c.(file := m.value.2), t.(defs := m.value.0, textureFiles := m.value.1)));
    } else if c.cc == MOGP {
      r := Done(Step(!root, Skip(c, GroupHeaderSize), t));
    } else if c.cc == MOPY {
      var ids, subs, g := ReadPolys(f, size);
      r := Done(Step(true, c.(file := g), t.(textureIDs := ids, submeshes := subs)));
    } else if c.cc == MOVI {
      var indices, g := ReadIndices(f, size);
      r := Done(Step(true, c.(file := g), t.(indices := indices)));
    } else if c.cc == MOVT {
      var vs, g := ReadVectors(f, size);
      r := Done(Step(true, c.(file := g), t.(vertices := vs)));
    } else if c.cc == MONR {
      var ns, g := ReadVectors(f, size);
      r := Done(Step(true, c.(file := g), t.(normals := ns)));
    } else if c.cc == MOTV {
      var tcs, g := ReadTexCoords(f, size);
      r := Done(Step(true, c.(file := g), t.(texcoords := tcs)));
    } else if c.cc == MOCV {
      var cs, g, _ := ReadTable(f, Blank(ColorSize), ColorSize, size / ColorSize);
      r := Done(Step(true, c.(file := g), t.(colors := cs)));
    } else {
      r := Done(Step(true, Skip(c, size), t));
    }
  }

  /** The while loop of load over the file's chunks. */
  method ReadChunks(c0: Cursor, t0: WmoTables, root: bool) returns (r: Outcome<(bool, Cursor, WmoTables)>)
    requires c0.Valid() && t0.Sized()
    ensures r == Chunks(c0, t0, root)
  {
    var c, t := c0, t0;
    while c.file.pos < |c.file.data|
      invariant c.Valid() && t.Sized() && c.file.data == c0.file.data
      invariant Chunks(c0, t0, root) == Chunks(c, t, root)
      decreases |c.file.data| - c.file.pos
    {
      var h := ReadHeader(c);
      var s := ReadChunkBody(h, t, root);
      assert s == ChunkStep(c, t, root);
      if s.Undefined? {
        return Undefined;
      }
      if !s.value.more {
        return Done((false, s.value.cur, s.value.t));
      }
      c, t := s.value.cur, s.value.t;
    }
    return Done((true, c, t));
  }

  // ---------------------------------------------------------------------
  // What the loop promises

  /**
    MVER, MOTX and unknown chunks are stepped over by exactly their size
    when it fits, leaving the tables alone; MOTX records where its names
    begin.
  */
  lemma SkippedChunk(c: Cursor, t: WmoTables, root: bool)
    requires c.Valid() && t.Sized()
    requires c.cc == MVER || c.cc == MOTX || c.cc !in KnownTags
    requires c.file.pos + U32(c.size, 0) <= |c.file.data|
    ensures ChunkBody(c, t, root) ==
      Done(Step(true, c.(file := Src(c.file.data, c.file.pos + U32(c.size, 0)),
                         textureOffset := if c.cc == MOTX then Some(c.file.pos) else c.textureOffset), t))
  {
  }

  /** MOGP steps over the 68-byte group header when it fits, whatever its size field says; a root file stops there. */
  lemma GroupHeaderSkipped(c: Cursor, t: WmoTables, root: bool)
    requires c.Valid() && t.Sized() && c.cc == MOGP
    requires c.file.pos + GroupHeaderSize <= |c.file.data|
    ensures ChunkBody(c, t, root) == Done(Step(!root, c.(file := Src(c.file.data, c.file.pos + GroupHeaderSize)), t))
  {
  }

  /**
    A root header met in a group file, or a group header met in a root file,
    ends load with false at once.
  */
  lemma WrongKindStops(c: Cursor, t: WmoTables, root: bool)
    requires c.Valid() && t.Sized() && c.file.pos < |c.file.data|
    requires var h := ReadChunkHeader(c); (h.cc == MOHD && !root) || (h.cc == MOGP && root)
    ensures Chunks(c, t, root).Done? && !Chunks(c, t, root).value.0
  {
  }

  /** Every vertex or normal of a chunk that lies inside the file is the file's vector with Y and Z swapped. */
  lemma VectorsSwapped(f: Src, size: nat, k: nat)
    requires f.pos + size <= |f.data| && k < size / VectorSize
    ensures f.pos + VectorSize * k + VectorSize <= |f.data|
    ensures VectorChunk(f, size).0[k] == FixCoordSystem(R.Vec3At(f.data, f.pos + VectorSize * k))
  {
    var n := size / VectorSize;
    assert VectorSize * n <= size;
    SwappedReadsInBounds(f.data, f.pos, n, k);
  }
}
