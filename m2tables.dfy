/**
  The tables the M2 loader reads before it assembles a mesh: a view's
  indices, triangles, submeshes and texture units; the vertices; the texture
  lookup, definitions, render flags and file names; the animation sequences
  with their .anim files; the bones and the vertex colours.
*/
module M2Tables {
  import opened Wrappers
  import opened Bytes
  import opened ByteSource
  import opened M2Records
  import opened M2Geometry
  import opened M2Anim
  import opened Decimal

  // ---------------------------------------------------------------------
  // Decoding tables of fixed-size records.

  function U16Table(recs: seq<seq<byte>>): (r: seq<nat>)
    requires forall k :: 0 <= k < |recs| ==> |recs[k]| == 2
    ensures |r| == |recs| && forall k :: 0 <= k < |r| ==> r[k] < TWO16
  {
    seq(|recs|, k requires 0 <= k < |recs| => U16(recs[k], 0))
  }

  function SubmeshTable(recs: seq<seq<byte>>): (r: seq<ModelViewSubmesh>)
    requires forall k :: 0 <= k < |recs| ==> |recs[k]| == SubmeshSize
    ensures |r| == |recs|
  {
    seq(|recs|, k requires 0 <= k < |recs| => DecodeSubmesh(recs[k]))
  }

  function TextureUnitTable(recs: seq<seq<byte>>): (r: seq<TextureUnit>)
    requires forall k :: 0 <= k < |recs| ==> |recs[k]| == TextureUnitSize
    ensures |r| == |recs|
  {
    seq(|recs|, k requires 0 <= k < |recs| => DecodeTextureUnit(recs[k]))
  }

  function TextureDefinitionTable(recs: seq<seq<byte>>): (r: seq<TextureDefinition>)
    requires forall k :: 0 <= k < |recs| ==> |recs[k]| == TextureDefinitionSize
    ensures |r| == |recs|
  {
    seq(|recs|, k requires 0 <= k < |recs| => DecodeTextureDefinition(recs[k]))
  }

  function RenderFlagsTable(recs: seq<seq<byte>>): (r: seq<RenderFlags>)
    requires forall k :: 0 <= k < |recs| ==> |recs[k]| == RenderFlagsSize
    ensures |r| == |recs|
  {
    seq(|recs|, k requires 0 <= k < |recs| => DecodeRenderFlags(recs[k]))
  }

  /** A table of u16 values at `h.ofs`, read through one reused u16. */
  function U16TableAt(f: Src, h: NumOfs): (r: (seq<nat>, Src))
    ensures |r.0| == h.num && r.1.data == f.data
  {
    var (recs, g) := Table(Seek(f, h.ofs), 2, h.num);
    (U16Table(recs), g)
  }

  /** A u16 table inside the file holds the file's little-endian values. */
  lemma U16TableInBounds(f: Src, h: NumOfs, k: nat)
    requires h.ofs + 2 * h.num <= |f.data| && k < h.num
    ensures h.ofs + 2 * k + 2 <= |f.data|
    ensures U16TableAt(f, h).0[k] == U16(f.data, h.ofs + 2 * k)
  {
    TableInBounds(Seek(f, h.ofs), Blank(2), 2, h.num, k);
  }

  // ---------------------------------------------------------------------
  // A view: ReadViewData.

  /** The four tables of one view (a .skin file from 0x108 on). */
  datatype SkinData = SkinData(Indices: seq<nat>, Triangles: seq<nat>, Submeshes: seq<ModelViewSubmesh>, TextureUnits: seq<TextureUnit>)

  /**
    ReadViewData: each table at its offset, through one struct per table;
    in the 0x100 format a submesh read fills only the first 32 bytes of the
    48-byte record.
  */
  function ViewData(f: Src, view: ModelView, version: nat): (r: (SkinData, Src))
    ensures |r.0.Indices| == view.Index.num && |r.0.Triangles| == view.Triangle.num
    ensures |r.0.Submeshes| == view.Submesh.num && |r.0.TextureUnits| == view.Tex.num
    ensures r.1.data == f.data
  {
    var (ri, f1) := U16TableAt(f, view.Index);
    var (rt, f2) := U16TableAt(f1, view.Triangle);
    var (rs, f3) := TableRead(Seek(f2, view.Submesh.ofs), Blank(SubmeshSize), SubmeshReadSize(version), view.Submesh.num);
    var (ru, f4) := Table(Seek(f3, view.Tex.ofs), TextureUnitSize, view.Tex.num);
    (SkinData(ri, rt, SubmeshTable(rs), TextureUnitTable(ru)), f4)
  }

  /**
    The 0x100 format stores no bounding box: every submesh the view holds
    has the BB and Radius of the record before any read, however the file
    is laid out.
  */
  lemma LegacyViewBounds(f: Src, view: ModelView, k: nat)
    requires k < view.Submesh.num
    ensures var sm := ViewData(f, view, 0x100).0.Submeshes[k];
      sm.BB == DecodeSubmesh(Blank(SubmeshSize)).BB && sm.Radius == DecodeSubmesh(Blank(SubmeshSize)).Radius
  {
    var (_, f1) := U16TableAt(f, view.Index);
    var (_, f2) := U16TableAt(f1, view.Triangle);
    var g := Seek(f2, view.Submesh.ofs);
    var size := SubmeshReadSize(0x100);
    RecordsAt(g.data, g.pos, Blank(SubmeshSize), size, view.Submesh.num, k);
    LegacySubmeshesKeepBounds(g.data, g.pos, Blank(SubmeshSize), k + 1);
  }

  // ---------------------------------------------------------------------
  // The vertices: ReadVertices.

  /**
    Where byte i of the vertex struct comes from after the loader's in-place
    fix: the Y and Z floats of the position (bytes 4..11) and of the normal
    (bytes 24..31) trade places.
  */
  function SwapSource(i: nat): (r: nat)
    ensures i < ModelVertexSize ==> r < ModelVertexSize
  {
    if 4 <= i < 8 || 24 <= i < 28 then i + 4
    else if 8 <= i < 12 || 28 <= i < 32 then i - 4
    else i
  }

  /** The vertex struct after the loader's in-place fix of its position and normal. */
  function FixVertexBytes(b: seq<byte>): (r: seq<byte>)
    requires |b| == ModelVertexSize
    ensures |r| == ModelVertexSize
  {
    seq(ModelVertexSize, i requires 0 <= i < ModelVertexSize => b[SwapSource(i)])
  }

  /** A float read from four bytes that are copies of four others. */
  lemma F32Moved(b: seq<byte>, off: nat, c: seq<byte>, coff: nat)
    requires off + 4 <= |b| && coff + 4 <= |c|
    requires b[off] == c[coff] && b[off + 1] == c[coff + 1] && b[off + 2] == c[coff + 2] && b[off + 3] == c[coff + 3]
    ensures F32(b, off) == F32(c, coff)
  {
    assert U32(b, off) == U32(c, coff);
  }

  /** The byte swap is the coordinate fix of position and normal and leaves the rest alone. */
  lemma FixVertexDecode(b: seq<byte>)
    requires |b| == ModelVertexSize
    ensures var v := DecodeModelVertex(b);
      DecodeModelVertex(FixVertexBytes(b)) == v.(pos := FixCoordSystem(v.pos), normal := FixCoordSystem(v.normal))
  {
    var c := FixVertexBytes(b);
    FixVertexVec3(b, 0);
    FixVertexVec3(b, 20);
    FixVertexKeeps(b);
  }

  /** The swap leaves the weights, the bone indices and the texture coordinates alone. */
  lemma FixVertexKeeps(b: seq<byte>)
    requires |b| == ModelVertexSize
    ensures var c := FixVertexBytes(b);
      c[12..20] == b[12..20] && Vec2At(c, 32) == Vec2At(b, 32)
  {
    var c := FixVertexBytes(b);
    F32Moved(c, 32, b, 32);
    F32Moved(c, 36, b, 36);
  }

  /** The swap turns the position (at 0) or the normal (at 20) into its coordinate fix. */
  lemma FixVertexVec3(b: seq<byte>, off: nat)
    requires |b| == ModelVertexSize && (off == 0 || off == 20)
    ensures Vec3At(FixVertexBytes(b), off) == FixCoordSystem(Vec3At(b, off))
  {
    var c := FixVertexBytes(b);
    F32Moved(c, off, b, off);
    F32Moved(c, off + 4, b, off + 8);
    F32Moved(c, off + 8, b, off + 4);
  }

  /** The vertex records copied out so far, the one reused struct and the cursor. */
  datatype VertexState = VertexState(recs: seq<seq<byte>>, buf: seq<byte>, pos: nat)

  /**
    The state after k vertex reads: each read overlays the struct, whose
    position and normal are then swapped in place before it is copied out,
    so a short read keeps swapped bytes of the previous vertex.
  */
  function VerticesAfter(data: seq<byte>, pos: nat, k: nat): (r: VertexState)
    ensures |r.recs| == k && |r.buf| == ModelVertexSize && r.pos >= pos
    ensures forall j :: 0 <= j < k ==> |r.recs[j]| == ModelVertexSize
    decreases k
  {
    if k == 0 then VertexState([], Blank(ModelVertexSize), pos)
    else
      var s := VerticesAfter(data, pos, k - 1);
      var got := Chunk(data, s.pos, ModelVertexSize);
      var b := FixVertexBytes(Overlay(s.buf, got));
      VertexState(s.recs + [b], b, s.pos + |got|)
  }

  /** Vertex record k is the struct as read k+1 left it. */
  lemma {:induction false} VerticesAt(data: seq<byte>, pos: nat, n: nat, k: nat)
    requires k < n
    ensures VerticesAfter(data, pos, n).recs[k] == VerticesAfter(data, pos, k + 1).buf
    decreases n
  {
    var s := VerticesAfter(data, pos, n - 1);
    var r := VerticesAfter(data, pos, n);
    assert r.recs == s.recs + [r.buf];
    if k < n - 1 {
      VerticesAt(data, pos, n - 1, k);
    }
  }

  /** One more vertex read: the struct overlaid with what the read delivers, swapped, and copied out. */
  lemma VerticesAfterStep(data: seq<byte>, pos: nat, k: nat)
    ensures var s := VerticesAfter(data, pos, k);
      var b := FixVertexBytes(Overlay(s.buf, Chunk(data, s.pos, ModelVertexSize)));
      VerticesAfter(data, pos, k + 1) == VertexState(s.recs + [b], b, s.pos + |Chunk(data, s.pos, ModelVertexSize)|)
  {
  }

  function DecodeVertices(recs: seq<seq<byte>>): (r: seq<ModelVertex>)
    requires forall k :: 0 <= k < |recs| ==> |recs[k]| == ModelVertexSize
    ensures |r| == |recs|
  {
    seq(|recs|, k requires 0 <= k < |recs| => DecodeModelVertex(recs[k]))
  }

  lemma DecodeVerticesSnoc(recs: seq<seq<byte>>, b: seq<byte>)
    requires forall k :: 0 <= k < |recs| ==> |recs[k]| == ModelVertexSize
    requires |b| == ModelVertexSize
    ensures DecodeVertices(recs + [b]) == DecodeVertices(recs) + [DecodeModelVertex(b)]
  {
  }

  /** ReadVertices: the vertex table at `h.ofs`. */
  function VertexTable(f: Src, h: NumOfs): (r: (seq<ModelVertex>, Src))
    ensures |r.0| == h.num && r.1.data == f.data
  {
    var g := Seek(f, h.ofs);
    var s := VerticesAfter(g.data, g.pos, h.num);
    (DecodeVertices(s.recs), Src(g.data, s.pos))
  }

  /** Full reads advance the cursor by a whole vertex each. */
  lemma {:induction false} VerticesCursor(data: seq<byte>, pos: nat, k: nat)
    requires pos + ModelVertexSize * k <= |data|
    ensures VerticesAfter(data, pos, k).pos == pos + ModelVertexSize * k
    decreases k
  {
    if k > 0 {
      VerticesCursor(data, pos, k - 1);
      var s := VerticesAfter(data, pos, k - 1);
      assert s.pos + ModelVertexSize <= |data|;
      assert |Chunk(data, s.pos, ModelVertexSize)| == ModelVertexSize;
    }
  }

  /** A vertex read that lies inside the file takes a whole record of the file and nothing of the previous one. */
  lemma VertexReadInBounds(data: seq<byte>, pos: nat, n: nat, k: nat)
    requires pos + ModelVertexSize * n <= |data| && k < n
    ensures pos + ModelVertexSize * k + ModelVertexSize <= |data|
    ensures VerticesAfter(data, pos, k + 1).buf == FixVertexBytes(data[pos + ModelVertexSize * k..pos + ModelVertexSize * k + ModelVertexSize])
  {
    RecordOffsets(pos, ModelVertexSize, n, k, |data|);
    VerticesCursor(data, pos, k);
    var s := VerticesAfter(data, pos, k);
    var got := Chunk(data, s.pos, ModelVertexSize);
    assert Overlay(s.buf, got) == got;
  }

  /**
    A vertex table inside the file: vertex k is the k-th 48-byte record of
    the file with the Y/Z swap applied to its position and normal.
  */
  lemma VertexTableInBounds(f: Src, h: NumOfs, k: nat)
    requires h.ofs + ModelVertexSize * h.num <= |f.data| && k < h.num
    ensures h.ofs + ModelVertexSize * k + ModelVertexSize <= |f.data|
    ensures var v := DecodeModelVertex(f.data[h.ofs + ModelVertexSize * k..h.ofs + ModelVertexSize * k + ModelVertexSize]);
      VertexTable(f, h).0[k] == v.(pos := FixCoordSystem(v.pos), normal := FixCoordSystem(v.normal))
  {
    var p := h.ofs + ModelVertexSize * k;
    VertexRecordInBounds(f, h, k);
    FixVertexDecode(f.data[p..p + ModelVertexSize]);
  }

  lemma VertexRecordInBounds(f: Src, h: NumOfs, k: nat)
    requires h.ofs + ModelVertexSize * h.num <= |f.data| && k < h.num
    ensures h.ofs + ModelVertexSize * k + ModelVertexSize <= |f.data|
    ensures VertexTable(f, h).0[k] == DecodeModelVertex(FixVertexBytes(f.data[h.ofs + ModelVertexSize * k..h.ofs + ModelVertexSize * k + ModelVertexSize]))
  {
    VertexRawInBounds(f.data, h.ofs, h.num, k);
  }

  lemma VertexRawInBounds(data: seq<byte>, pos: nat, n: nat, k: nat)
    requires pos + ModelVertexSize * n <= |data| && k < n
    ensures pos + ModelVertexSize * k + ModelVertexSize <= |data|
    ensures VerticesAfter(data, pos, n).recs[k] == FixVertexBytes(data[pos + ModelVertexSize * k..pos + ModelVertexSize * k + ModelVertexSize])
  {
    VerticesAt(data, pos, n, k);
    VertexReadInBounds(data, pos, n, k);
  }

  // ---------------------------------------------------------------------
  // Texture names: the end of ReadTextureDefinitions.

  /** The texture names read so far, the reused name buffer and the model file. */
  datatype NameState = NameState(names: seq<string>, buf: seq<byte>, file: Src)

  /**
    One texture name: the buffer resized to texFileLen+1 (a u32 sum), the
    name's bytes read over its start, and the text before the first NUL
    copied out. When the sum wraps to 0 and the read delivers bytes, the
    read writes past the buffer.
  */
  function NameStep(s: NameState, d: TextureDefinition): (r: Outcome<NameState>)
    ensures r.Done? ==> |r.value.names| == |s.names| + 1 && r.value.file.data == s.file.data
    ensures r.Done? ==> |r.value.names[|s.names|]| <= d.texFileLen + 1
  {
    var b1 := Resize(s.buf, WrapU32(d.texFileLen + 1));
    var (got, g) := Read(Seek(s.file, d.texFileOfs), d.texFileLen);
    if |got| > |b1| then Undefined
    else
      var b2 := Overlay(b1, got);
      Done(NameState(s.names + [Chars(CString(b2))], b2, g))
  }

  /** NameStep spelled out over the read it makes, for callers that make the read themselves. */
  lemma NameStepIs(s: NameState, d: TextureDefinition)
    ensures var b1 := Resize(s.buf, WrapU32(d.texFileLen + 1));
      var r := Read(Seek(s.file, d.texFileOfs), d.texFileLen);
      NameStep(s, d) == if |r.0| > |b1| then Undefined else
        var b2 := Overlay(b1, r.0);
        Done(NameState(s.names + [Chars(CString(b2))], b2, r.1))
  {
  }

  function NamesUpTo(f: Src, defs: seq<TextureDefinition>, k: nat): (r: Outcome<NameState>)
    requires k <= |defs|
    ensures r.Done? ==> |r.value.names| == k && r.value.file.data == f.data
    decreases k
  {
    if k == 0 then Done(NameState([], [], f))
    else
      match NamesUpTo(f, defs, k - 1)
      case Undefined => Undefined
      case Done(s) => NameStep(s, defs[k - 1])
  }

  lemma NamesSnoc(f: Src, defs: seq<TextureDefinition>, k: nat, s: NameState)
    requires k < |defs| && NamesUpTo(f, defs, k) == Done(s)
    ensures NamesUpTo(f, defs, k + 1) == NameStep(s, defs[k])
  {
  }

  lemma {:induction false} NamesStayUndefined(f: Src, defs: seq<TextureDefinition>, j: nat, k: nat)
    requires j <= k <= |defs| && NamesUpTo(f, defs, j).Undefined?
    ensures NamesUpTo(f, defs, k).Undefined?
    decreases k
  {
    if k > j {
      NamesStayUndefined(f, defs, j, k - 1);
    }
  }

  /** The texture tables of a model: lookup, definitions, render flags and file names. */
  datatype TextureTables = TextureTables(lookup: seq<nat>, defs: seq<TextureDefinition>, flags: seq<RenderFlags>, files: seq<string>)

  /**
    ReadTextureDefinitions: the texture lookup, the definitions and the
    render flags, each at its header offset, then every definition's file
    name, in order.
  */
  function TextureData(f: Src, h: ModelHeader): (r: Outcome<(TextureTables, Src)>)
    ensures r.Done? ==> var t := r.value.0;
      |t.lookup| == h.TexLookup.num && |t.defs| == h.Textures.num && |t.flags| == h.TexFlags.num && |t.files| == h.Textures.num
    ensures r.Done? ==> r.value.1.data == f.data
  {
    var (lookup, f1) := U16TableAt(f, h.TexLookup);
    var (drecs, f2) := Table(Seek(f1, h.Textures.ofs), TextureDefinitionSize, h.Textures.num);
    var (frecs, f3) := Table(Seek(f2, h.TexFlags.ofs), RenderFlagsSize, h.TexFlags.num);
    var defs := TextureDefinitionTable(drecs);
    match NamesUpTo(f3, defs, |defs|)
    case Undefined => Undefined
    case Done(s) => Done((TextureTables(lookup, defs, RenderFlagsTable(frecs), s.names), s.file))
  }

  /**
    A name stored with its terminating NUL inside the file reads back as the
    file's bytes before that NUL, whatever an earlier name left in the buffer.
  */
  lemma NameInBounds(s: NameState, d: TextureDefinition, z: nat)
    requires d.texFileOfs + d.texFileLen <= |s.file.data| && d.texFileLen + 1 < TWO32
    requires z < d.texFileLen && s.file.data[d.texFileOfs + z] == 0
    ensures NameStep(s, d).Done?
    ensures NameStep(s, d).value.names[|s.names|] == Chars(CString(s.file.data[d.texFileOfs..d.texFileOfs + d.texFileLen]))
  {
    NameFromFile(s, d);
    SliceNulStops(s.file.data, d.texFileOfs, d.texFileLen, z, NameTail(s.buf, d.texFileLen));
  }

  lemma SliceNulStops(data: seq<byte>, ofs: nat, len: nat, z: nat, tail: byte)
    requires ofs + len <= |data| && z < len && data[ofs + z] == 0
    ensures CString(data[ofs..ofs + len] + [tail]) == CString(data[ofs..ofs + len])
  {
    CStringStopsAtNul(data[ofs..ofs + len], [tail], z);
  }

  /** The byte the resized buffer holds just past a name of `len` bytes. */
  function NameTail(buf: seq<byte>, len: nat): byte
  {
    if len < |buf| then buf[len] else 0
  }

  /** A name that lies inside the file: its bytes, then the buffer's byte just past it. */
  lemma NameFromFile(s: NameState, d: TextureDefinition)
    requires d.texFileOfs + d.texFileLen <= |s.file.data| && d.texFileLen + 1 < TWO32
    ensures NameStep(s, d).Done?
    ensures NameStep(s, d).value.names[|s.names|] ==
      Chars(CString(s.file.data[d.texFileOfs..d.texFileOfs + d.texFileLen] + [NameTail(s.buf, d.texFileLen)]))
  {
    var b1 := Resize(s.buf, d.texFileLen + 1);
    var name := s.file.data[d.texFileOfs..d.texFileOfs + d.texFileLen];
    assert Read(Seek(s.file, d.texFileOfs), d.texFileLen).0 == name;
    assert Overlay(b1, name) == name + [NameTail(s.buf, d.texFileLen)];
  }

  /**
    A name stored without a NUL keeps the byte just past it from the buffer:
    a shorter name after a longer one picks up a character of the longer.
  */
  lemma NameWithoutNulKeepsStaleByte(s: NameState, d: TextureDefinition)
    requires d.texFileOfs + d.texFileLen <= |s.file.data| && d.texFileLen + 1 < TWO32
    requires d.texFileLen < |s.buf| && s.buf[d.texFileLen] != 0
    requires forall i :: d.texFileOfs <= i < d.texFileOfs + d.texFileLen ==> s.file.data[i] != 0
    ensures NameStep(s, d).Done?
    ensures NameStep(s, d).value.names[|s.names|] == Chars(s.file.data[d.texFileOfs..d.texFileOfs + d.texFileLen] + [s.buf[d.texFileLen]])
  {
    NameFromFile(s, d);
    var b := s.file.data[d.texFileOfs..d.texFileOfs + d.texFileLen] + [s.buf[d.texFileLen]];
    forall i | 0 <= i < |b|
      ensures b[i] != 0
    {
      if i < d.texFileLen {
        assert b[i] == s.file.data[d.texFileOfs + i];
      }
    }
    CStringNoNul(b);
  }

  // ---------------------------------------------------------------------
  // The animation sequences: the end of ReadAnimationData.

  /** The .anim name's suffix as sprintf("%04d-%02d.anim") writes it. */
  function AnimExt(id: nat, sub: nat): string
  {
    PadDecimal(id, 4) + "-" + PadDecimal(sub, 2) + ".anim"
  }

  /** The buffer the suffix is written into holds 13 characters with its NUL. */
  const AnimExtBuffer: nat := 13

  /** The model's name without its last three characters (all of it when it is shorter). */
  function Stem(name: string): (r: string)
    ensures |name| >= 3 ==> r == name[..|name| - 3]
  {
    if |name| < 3 then name else name[..|name| - 3]
  }

  /** The .anim file name of a sequence; a suffix too long for its buffer overflows it. */
  function AnimFileName(meshName: string, id: nat, sub: nat): Outcome<string>
  {
    var ext := AnimExt(id, sub);
    if |ext| + 1 > AnimExtBuffer then Undefined else Done(Stem(meshName) + ext)
  }

  /**
    The suffix overflows exactly when the id needs five digits or the
    sub-id three; otherwise it is 12 characters that read back as the two
    numbers.
  */
  lemma AnimFileNameShape(meshName: string, id: nat, sub: nat)
    ensures AnimFileName(meshName, id, sub).Undefined? <==> id > 9999 || sub > 99
    ensures AnimFileName(meshName, id, sub).Done? ==>
      var ext := AnimExt(id, sub);
      |ext| == 12 && AnimFileName(meshName, id, sub).value == Stem(meshName) + ext &&
      AllDigits(ext[..4]) && ParseDecimal(ext[..4]) == id && ext[4] == '-' &&
      AllDigits(ext[5..7]) && ParseDecimal(ext[5..7]) == sub && ext[7..] == ".anim"
  {
    ParsePadDecimal(id, 4);
    ParsePadDecimal(sub, 2);
    if id <= 9999 && sub <= 99 {
      NatToStringLength(id, 4);
      NatToStringLength(sub, 2);
      var ext := AnimExt(id, sub);
      assert ext[..4] == PadDecimal(id, 4);
      assert ext[5..7] == PadDecimal(sub, 2);
    } else if id > 9999 {
      NatToStringLong(id, 4);
    } else {
      NatToStringLong(sub, 2);
    }
  }

  /**
    What an Animation declared afresh holds in the two fields the loader
    never sets for a model before 0x108: whatever was in that memory.
  */
  datatype Uninit = Uninit(subanimationID: nat, flags: nat)

  /** A sequence of a model before 0x108: its own id, start and end; sub-id and flags as found in memory. */
  function LegacyAnimation(raw: RawAnimation, u: Uninit): (r: Animation)
    ensures r.animationID == raw.animationID && r.subanimationID == u.subanimationID
    ensures r.start == raw.start && r.end == raw.end && r.flags == u.flags
  {
    Animation(raw.animationID, u.subanimationID, raw.start, raw.end, u.flags, raw.probability as real / 32767.0)
  }

  /** A sequence from 0x108 on: it starts at `laststart` and ends `length` later, in u32 arithmetic. */
  function WotlkAnimation(raw: RawAnimationWotlk, laststart: nat): (r: Animation)
    ensures r.animationID == raw.animationID && r.subanimationID == raw.subanimationID && r.flags == raw.flags
    ensures r.start == laststart && r.end == WrapU32(laststart + raw.length) && r.end < TWO32
  {
    Animation(raw.animationID, raw.subanimationID, laststart, WrapU32(laststart + raw.length), raw.flags, raw.probability as real / 32767.0)
  }

  /** Where the sequence after `a` starts: 1000 after `a` ends, in u32 arithmetic. */
  function NextStart(a: Animation): nat
  {
    WrapU32(a.end + 1000)
  }

  /** What one record yields from 0x108 on: the sequence, its .anim slot and the next start. */
  datatype AnimRead = AnimRead(anim: Animation, slot: Option<Src>, laststart: nat)

  /** The .anim file by that name, at its start, or none when the archive has no such file. */
  function OpenAnim(archive: map<string, seq<byte>>, name: string): (r: Option<Src>)
    ensures r.Some? <==> name in archive
    ensures r.Some? ==> r.value == Src(archive[name], 0)
  {
    if name in archive then Some(Src(archive[name], 0)) else None
  }

  /**
    One record from 0x108 on. A sequence flagged 0x20 keeps its data in the
    model and gets an empty slot; any other gets the .anim file named after
    the model and its ids, opened from the archive, and overflows the name
    buffer when its ids are too long.
  */
  function AnimationOf(raw: RawAnimationWotlk, laststart: nat, meshName: string, archive: map<string, seq<byte>>): (r: Outcome<AnimRead>)
    ensures r.Undefined? <==> !Bit(raw.flags, 5) && (raw.animationID > 9999 || raw.subanimationID > 99)
    ensures r.Done? ==> r.value.anim == WotlkAnimation(raw, laststart) && r.value.laststart == NextStart(r.value.anim)
    ensures r.Done? && Bit(raw.flags, 5) ==> r.value.slot == None
    ensures r.Done? && !Bit(raw.flags, 5) ==>
      r.value.slot == OpenAnim(archive, Stem(meshName) + AnimExt(raw.animationID, raw.subanimationID))
  {
    AnimFileNameShape(meshName, raw.animationID, raw.subanimationID);
    var a := WotlkAnimation(raw, laststart);
    if Bit(raw.flags, 5) then Done(AnimRead(a, None, NextStart(a)))
    else
      match AnimFileName(meshName, raw.animationID, raw.subanimationID)
      case Undefined => Undefined
      case Done(name) => Done(AnimRead(a, OpenAnim(archive, name), NextStart(a)))
  }

  /** The sequences of the first k records from 0x108 on, their .anim slots and the next start. */
  datatype AnimTableState = AnimTableState(anims: seq<Animation>, slots: seq<Option<Src>>, laststart: nat)

  function AnimationsFrom(raws: seq<RawAnimationWotlk>, meshName: string, archive: map<string, seq<byte>>, k: nat): (r: Outcome<AnimTableState>)
    requires k <= |raws|
    ensures r.Done? ==> |r.value.anims| == k && |r.value.slots| == k
    decreases k
  {
    if k == 0 then Done(AnimTableState([], [], 0))
    else
      match AnimationsFrom(raws, meshName, archive, k - 1)
      case Undefined => Undefined
      case Done(s) =>
        match AnimationOf(raws[k - 1], s.laststart, meshName, archive)
        case Undefined => Undefined
        case Done(a) => Done(AnimTableState(s.anims + [a.anim], s.slots + [a.slot], a.laststart))
  }

  /** One more record that yields a sequence appends it, its slot and the next start. */
  lemma AnimationsSnoc(raws: seq<RawAnimationWotlk>, meshName: string, archive: map<string, seq<byte>>, k: nat, s: AnimTableState, a: AnimRead)
    requires k < |raws| && AnimationsFrom(raws, meshName, archive, k) == Done(s)
    requires AnimationOf(raws[k], s.laststart, meshName, archive) == Done(a)
    ensures AnimationsFrom(raws, meshName, archive, k + 1) == Done(AnimTableState(s.anims + [a.anim], s.slots + [a.slot], a.laststart))
  {
  }

  /** One more record that overflows the name buffer makes the table undefined. */
  lemma AnimationsFailAt(raws: seq<RawAnimationWotlk>, meshName: string, archive: map<string, seq<byte>>, k: nat, s: AnimTableState)
    requires k < |raws| && AnimationsFrom(raws, meshName, archive, k) == Done(s)
    requires AnimationOf(raws[k], s.laststart, meshName, archive).Undefined?
    ensures AnimationsFrom(raws, meshName, archive, k + 1).Undefined?
  {
  }

  lemma {:induction false} AnimationsStayUndefined(raws: seq<RawAnimationWotlk>, meshName: string, archive: map<string, seq<byte>>, j: nat, k: nat)
    requires j <= k <= |raws| && AnimationsFrom(raws, meshName, archive, j).Undefined?
    ensures AnimationsFrom(raws, meshName, archive, k).Undefined?
    decreases k
  {
    if k > j {
      AnimationsStayUndefined(raws, meshName, archive, j, k - 1);
    }
  }

  function LegacyAnimations(recs: seq<seq<byte>>, uninit: nat -> Uninit): (r: seq<Animation>)
    requires forall k :: 0 <= k < |recs| ==> |recs[k]| == RawAnimationSize
    ensures |r| == |recs|
  {
    seq(|recs|, k requires 0 <= k < |recs| => LegacyAnimation(DecodeRawAnimation(recs[k]), uninit(k)))
  }

  /** One more record read into a fresh struct appends one more sequence. */
  lemma LegacyAnimationsSnoc(f: Src, i: nat, uninit: nat -> Uninit)
    ensures var got := Chunk(f.data, ReadPos(f.data, f.pos, RawAnimationSize, i), RawAnimationSize);
      LegacyAnimations(FreshTable(f, RawAnimationSize, i + 1).0, uninit) ==
      LegacyAnimations(FreshTable(f, RawAnimationSize, i).0, uninit) + [LegacyAnimation(DecodeRawAnimation(Overlay(Blank(RawAnimationSize), got)), uninit(i))]
  {
    var a := LegacyAnimations(FreshTable(f, RawAnimationSize, i + 1).0, uninit);
    var b := LegacyAnimations(FreshTable(f, RawAnimationSize, i).0, uninit);
    assert forall k :: 0 <= k < i ==> a[k] == b[k];
  }

  function WotlkRecords(recs: seq<seq<byte>>): (r: seq<RawAnimationWotlk>)
    requires forall k :: 0 <= k < |recs| ==> |recs[k]| == RawAnimationWotlkSize
    ensures |r| == |recs|
  {
    seq(|recs|, k requires 0 <= k < |recs| => DecodeRawAnimationWotlk(recs[k]))
  }

  /** Record i of a table from 0x108 on is what read i delivers, padded with zeros. */
  lemma WotlkRecordAt(f: Src, n: nat, i: nat)
    requires i < n
    ensures WotlkRecords(FreshTable(f, RawAnimationWotlkSize, n).0)[i] ==
      DecodeRawAnimationWotlk(Overlay(Blank(RawAnimationWotlkSize), Chunk(f.data, ReadPos(f.data, f.pos, RawAnimationWotlkSize, i), RawAnimationWotlkSize)))
  {
  }

  /**
    The animation table at `h.ofs`, each record read into a fresh struct:
    the sequences, the .anim slots appended to `files` (none before 0x108)
    and the model file after the table.
  */
  function AnimationTable(f: Src, files: seq<Option<Src>>, h: NumOfs, version: nat, meshName: string, archive: map<string, seq<byte>>, uninit: nat -> Uninit): (r: Outcome<(seq<Animation>, seq<Option<Src>>, Src)>)
    ensures r.Done? ==> |r.value.0| == h.num && r.value.2.data == f.data
    ensures r.Done? && version < 0x108 ==> r.value.1 == files
    ensures r.Done? && version >= 0x108 ==> |r.value.1| == |files| + h.num && r.value.1[..|files|] == files
  {
    if version < 0x108 then
      var (recs, g) := FreshTable(Seek(f, h.ofs), RawAnimationSize, h.num);
      Done((LegacyAnimations(recs, uninit), files, g))
    else
      var (recs, g) := FreshTable(Seek(f, h.ofs), RawAnimationWotlkSize, h.num);
      match AnimationsFrom(WotlkRecords(recs), meshName, archive, h.num)
      case Undefined => Undefined
      case Done(t) => Done((t.anims, files + t.slots, g))
  }

  /** The bone lookup tables and the animation sequences with their .anim slots. */
  datatype AnimationTables = AnimationTables(boneLookup: seq<nat>, skelLookup: seq<nat>, anims: seq<Animation>, files: seq<Option<Src>>)

  /**
    ReadAnimationData: the bone lookup table, the skeleton bone lookup
    table and the animation table, each at its header offset.
  */
  function AnimationData(f: Src, files: seq<Option<Src>>, h: ModelHeader, meshName: string, archive: map<string, seq<byte>>, uninit: nat -> Uninit): (r: Outcome<(AnimationTables, Src)>)
    ensures r.Done? ==> var t := r.value.0;
      |t.boneLookup| == h.BoneLookupTable.num && |t.skelLookup| == h.SkelBoneLookup.num && |t.anims| == h.Animations.num
    ensures r.Done? ==> r.value.1.data == f.data
  {
    var (bl, f1) := U16TableAt(f, h.BoneLookupTable);
    var (sl, f2) := U16TableAt(f1, h.SkelBoneLookup);
    match AnimationTable(f2, files, h.Animations, h.version, meshName, archive, uninit)
    case Undefined => Undefined
    case Done((anims, slots, g)) => Done((AnimationTables(bl, sl, anims, slots), g))
  }

  /** Every sequence starts where NextStart of the one before it says. */
  predicate Chained(s: seq<Animation>)
    decreases |s|
  {
    |s| <= 1 || (Chained(s[..|s| - 1]) && s[|s| - 1].start == NextStart(s[|s| - 2]))
  }

  /** The index form of Chained. */
  lemma {:induction false} ChainedAt(s: seq<Animation>, j: nat)
    requires Chained(s) && 0 < j < |s|
    ensures s[j].start == NextStart(s[j - 1])
    decreases |s|
  {
    if j < |s| - 1 {
      var p := s[..|s| - 1];
      ChainedAt(p, j);
      assert p[j] == s[j] && p[j - 1] == s[j - 1];
    }
  }

  /** The .anim slot of a record from 0x108 on: none for a sequence flagged 0x20, else the file named after the model and its ids. */
  function SlotOf(raw: RawAnimationWotlk, meshName: string, archive: map<string, seq<byte>>): Option<Src>
  {
    if Bit(raw.flags, 5) then None else OpenAnim(archive, Stem(meshName) + AnimExt(raw.animationID, raw.subanimationID))
  }

  /** The sequences of the first k records lie on one timeline, each with its slot. */
  predicate Timeline(raws: seq<RawAnimationWotlk>, meshName: string, archive: map<string, seq<byte>>, t: AnimTableState, k: nat)
    requires k <= |raws|
  {
    |t.anims| == k && |t.slots| == k && Chained(t.anims) &&
    (k > 0 ==> t.anims[0].start == 0 && t.laststart == NextStart(t.anims[k - 1])) &&
    (k == 0 ==> t.laststart == 0) &&
    (forall j :: 0 <= j < k ==> t.anims[j] == WotlkAnimation(raws[j], t.anims[j].start)) &&
    (forall j :: 0 <= j < k ==> t.slots[j] == SlotOf(raws[j], meshName, archive))
  }

  /** One more record keeps the timeline. */
  lemma TimelineStep(raws: seq<RawAnimationWotlk>, meshName: string, archive: map<string, seq<byte>>, s: AnimTableState, k: nat)
    requires k < |raws| && Timeline(raws, meshName, archive, s, k)
    requires AnimationOf(raws[k], s.laststart, meshName, archive).Done?
    ensures var a := AnimationOf(raws[k], s.laststart, meshName, archive).value;
      Timeline(raws, meshName, archive, AnimTableState(s.anims + [a.anim], s.slots + [a.slot], a.laststart), k + 1)
  {
    var a := AnimationOf(raws[k], s.laststart, meshName, archive).value;
    var t := AnimTableState(s.anims + [a.anim], s.slots + [a.slot], a.laststart);
    assert t.anims[..k] == s.anims;
    forall j | 0 <= j < k
      ensures t.anims[j] == s.anims[j] && t.slots[j] == s.slots[j]
    {
    }
    if k > 0 {
      assert t.anims[0] == s.anims[0];
    }
  }

  /**
    From 0x108 on the sequences lie on one timeline: the first starts at 0,
    each next one 1000 after the previous ends (modulo 2^32), each carries
    its record's ids, length and flags, and each has its .anim slot, empty
    for those flagged 0x20.
  */
  lemma {:induction false} AnimationTimeline(raws: seq<RawAnimationWotlk>, meshName: string, archive: map<string, seq<byte>>, k: nat)
    requires k <= |raws|
    ensures var r := AnimationsFrom(raws, meshName, archive, k);
      r.Done? ==> Timeline(raws, meshName, archive, r.value, k)
    decreases k
  {
    if k > 0 {
      AnimationTimeline(raws, meshName, archive, k - 1);
      var prev := AnimationsFrom(raws, meshName, archive, k - 1);
      if prev.Done? && AnimationOf(raws[k - 1], prev.value.laststart, meshName, archive).Done? {
        TimelineStep(raws, meshName, archive, prev.value, k - 1);
      }
    }
  }

  /** The table is undefined exactly when some record without flag 0x20 has ids too long for the name buffer. */
  lemma {:induction false} AnimationsOverflow(raws: seq<RawAnimationWotlk>, meshName: string, archive: map<string, seq<byte>>, k: nat)
    requires k <= |raws|
    ensures AnimationsFrom(raws, meshName, archive, k).Undefined? <==>
      exists j :: 0 <= j < k && !Bit(raws[j].flags, 5) && (raws[j].animationID > 9999 || raws[j].subanimationID > 99)
    decreases k
  {
    if k > 0 {
      AnimationsOverflow(raws, meshName, archive, k - 1);
    }
  }

  // ---------------------------------------------------------------------
  // Bones and vertex colours: ReadBones and ReadColors.

  /**
    A table read entry by entry with `step`, each read starting where the
    previous one left the files; undefined from the first entry whose read
    is undefined on.
  */
  function Repeat<T>(fs: Files, step: Files -> Outcome<(T, Files)>, k: nat): (r: Outcome<(seq<T>, Files)>)
    ensures r.Done? ==> |r.value.0| == k
    decreases k
  {
    if k == 0 then Done(([], fs))
    else
      match Repeat(fs, step, k - 1)
      case Undefined => Undefined
      case Done((xs, g)) =>
        match step(g)
        case Undefined => Undefined
        case Done((x, h)) => Done((xs + [x], h))
  }

  /** One more entry read appends it. */
  lemma RepeatSnoc<T>(fs: Files, step: Files -> Outcome<(T, Files)>, k: nat, xs: seq<T>, g: Files)
    requires Repeat(fs, step, k) == Done((xs, g))
    ensures Repeat(fs, step, k + 1) == match step(g)
      case Undefined => Undefined
      case Done((x, h)) => Done((xs + [x], h))
  {
  }

  /** Once a read is undefined, so is every longer table. */
  lemma {:induction false} RepeatStayUndefined<T>(fs: Files, step: Files -> Outcome<(T, Files)>, j: nat, k: nat)
    requires j <= k && Repeat(fs, step, j).Undefined?
    ensures Repeat(fs, step, k).Undefined?
    decreases k
  {
    if k > j {
      RepeatStayUndefined(fs, step, j, k - 1);
    }
  }

  /** When every entry `step` can read satisfies `p`, so does every entry of the table. */
  lemma {:induction false} RepeatAll<T>(fs: Files, step: Files -> Outcome<(T, Files)>, k: nat, p: T -> bool)
    requires forall g :: step(g).Done? ==> p(step(g).value.0)
    ensures var r := Repeat(fs, step, k);
      r.Done? ==> forall i :: 0 <= i < |r.value.0| ==> p(r.value.0[i])
    decreases k
  {
    if k > 0 {
      RepeatAll(fs, step, k - 1, p);
      var prev := Repeat(fs, step, k - 1);
      if prev.Done? {
        RepeatSnoc(fs, step, k - 1, prev.value.0, prev.value.1);
      }
    }
  }

  /** A bone: its 16-byte head, its three animation blocks and its pivot. */
  datatype Bone = Bone(SkelBoneIndex: int, flags: nat, parentBone: int, translation: AnimBlock, rotation: AnimBlock, scaling: AnimBlock, PivotPoint: Vec3)

  /** Bone rotations are quantised shorts from 0x104 on, floats before. */
  function RotationType(version: nat): ValueType
  {
    if version >= 0x104 then ShortValues else FloatValues
  }

  /**
    One bone: the head (12 bytes in 0x100) into a fresh bone, the
    translation, rotation and scaling blocks, then the pivot with Y and Z
    swapped.
  */
  function BoneStep(fs: Files, anims: seq<Animation>, version: nat): (r: Outcome<(Bone, Files)>)
    ensures r.Done? ==> r.value.1.mesh.data == fs.mesh.data && |r.value.1.anims| == |fs.anims|
  {
    var (hb, m1) := ReadOver(fs.mesh, Blank(BoneHeadSize), BoneHeadReadSize(version));
    var head := DecodeBoneHead(hb);
    match ReadABlockSpec(Files(m1, fs.anims), anims, version, FloatValues, 3)
    case Undefined => Undefined
    case Done((t, g1)) =>
      match ReadABlockSpec(g1, anims, version, RotationType(version), 4)
      case Undefined => Undefined
      case Done((rot, g2)) =>
        match ReadABlockSpec(g2, anims, version, FloatValues, 3)
        case Undefined => Undefined
        case Done((sc, g3)) =>
          var (pb, m4) := ReadOver(g3.mesh, Blank(12), 12);
          Done((Bone(head.SkelBoneIndex, head.flags, head.parentBone, t, rot, sc, FixCoordSystem(Vec3At(pb, 0))), Files(m4, g3.anims)))
  }

  /** BoneStep as a reader of one table entry. */
  function BoneReader(anims: seq<Animation>, version: nat): Files -> Outcome<(Bone, Files)>
  {
    fs => BoneStep(fs, anims, version)
  }

  /** The first k bones read one after the other. */
  function BonesUpTo(fs: Files, anims: seq<Animation>, version: nat, k: nat): (r: Outcome<(seq<Bone>, Files)>)
    ensures r.Done? ==> |r.value.0| == k
  {
    Repeat(fs, BoneReader(anims, version), k)
  }

  /** ReadBones: the bone table at `h.ofs`. */
  function BoneTable(fs: Files, h: NumOfs, anims: seq<Animation>, version: nat): (r: Outcome<(seq<Bone>, Files)>)
    ensures r.Done? ==> |r.value.0| == h.num
  {
    BonesUpTo(Files(Seek(fs.mesh, h.ofs), fs.anims), anims, version, h.num)
  }

  /** Quantised values: every one lies in [-1, 1]. */
  predicate InUnitRange(values: seq<real>)
  {
    forall j :: 0 <= j < |values| ==> -1.0 <= values[j] <= 1.0
  }

  /** From 0x104 on a bone's rotation is a block of quantised shorts, so every value lies in [-1, 1]. */
  lemma BoneRotationInRange(fs: Files, anims: seq<Animation>, version: nat)
    ensures var r := BoneStep(fs, anims, version);
      r.Done? && version >= 0x104 ==> InUnitRange(r.value.0.rotation.values)
  {
    var (hb, m1) := ReadOver(fs.mesh, Blank(BoneHeadSize), BoneHeadReadSize(version));
    var t := ReadABlockSpec(Files(m1, fs.anims), anims, version, FloatValues, 3);
    if t.Done? {
      ShortBlockInRange(t.value.1, anims, version, 4);
    }
  }

  /** From 0x104 on every rotation value of every bone of the table lies in [-1, 1]. */
  lemma BoneTableRotationsInRange(fs: Files, h: NumOfs, anims: seq<Animation>, version: nat)
    requires version >= 0x104
    ensures var r := BoneTable(fs, h, anims, version);
      r.Done? ==> forall i :: 0 <= i < |r.value.0| ==> InUnitRange(r.value.0[i].rotation.values)
  {
    var step := BoneReader(anims, version);
    var p := (b: Bone) => InUnitRange(b.rotation.values);
    forall g | step(g).Done?
      ensures p(step(g).value.0)
    {
      BoneRotationInRange(g, anims, version);
    }
    RepeatAll(Files(Seek(fs.mesh, h.ofs), fs.anims), step, h.num, p);
  }

  /** A vertex colour: an RGB block of floats and an alpha block of shorts. */
  datatype VertexColor = VertexColor(Colors: AnimBlock, Alpha: AnimBlock)

  function ColorStep(fs: Files, anims: seq<Animation>, version: nat): (r: Outcome<(VertexColor, Files)>)
    ensures r.Done? ==> r.value.1.mesh.data == fs.mesh.data && |r.value.1.anims| == |fs.anims|
  {
    match ReadABlockSpec(fs, anims, version, FloatValues, 3)
    case Undefined => Undefined
    case Done((c, g1)) =>
      match ReadABlockSpec(g1, anims, version, ShortValues, 1)
      case Undefined => Undefined
      case Done((a, g2)) => Done((VertexColor(c, a), g2))
  }

  /** ColorStep as a reader of one table entry. */
  function ColorReader(anims: seq<Animation>, version: nat): Files -> Outcome<(VertexColor, Files)>
  {
    fs => ColorStep(fs, anims, version)
  }

  /** The first k colours read one after the other. */
  function ColorsUpTo(fs: Files, anims: seq<Animation>, version: nat, k: nat): (r: Outcome<(seq<VertexColor>, Files)>)
    ensures r.Done? ==> |r.value.0| == k
  {
    Repeat(fs, ColorReader(anims, version), k)
  }


  /** A colour's alpha is a block of quantised shorts, so every value lies in [-1, 1]. */
  lemma ColorAlphaInRange(fs: Files, anims: seq<Animation>, version: nat)
    ensures var r := ColorStep(fs, anims, version);
      r.Done? ==> InUnitRange(r.value.0.Alpha.values)
  {
    var c := ReadABlockSpec(fs, anims, version, FloatValues, 3);
    if c.Done? {
      ShortBlockInRange(c.value.1, anims, version, 1);
    }
  }

  /** ReadColors: the colour table at `h.ofs`. */
  function ColorTable(fs: Files, h: NumOfs, anims: seq<Animation>, version: nat): (r: Outcome<(seq<VertexColor>, Files)>)
    ensures r.Done? ==> |r.value.0| == h.num
  {
    ColorsUpTo(Files(Seek(fs.mesh, h.ofs), fs.anims), anims, version, h.num)
  }

  /** Every alpha value of every colour of the table lies in [-1, 1]. */
  lemma ColorTableAlphasInRange(fs: Files, h: NumOfs, anims: seq<Animation>, version: nat)
    ensures var r := ColorTable(fs, h, anims, version);
      r.Done? ==> forall i :: 0 <= i < |r.value.0| ==> InUnitRange(r.value.0[i].Alpha.values)
  {
    var step := ColorReader(anims, version);
    var p := (c: VertexColor) => InUnitRange(c.Alpha.values);
    forall g | step(g).Done?
      ensures p(step(g).value.0)
    {
      ColorAlphaInRange(g, anims, version);
    }
    RepeatAll(Files(Seek(fs.mesh, h.ofs), fs.anims), step, h.num, p);
  }
}
