/**
  The on-disk records of the M2 format as the loader declares them: their
  sizes, their field offsets and their little-endian decoders. All fields
  are unsigned unless the declaration says s16/s32; floats are read as reals.
*/
module M2Records {
  import opened Bytes
  import opened ByteSource
  import opened M2Geometry

  /** Bit k of x (x & (1 << k) != 0). */
  predicate Bit(x: nat, k: nat)
  {
    (x / Pow2(k)) % 2 == 1
  }

  /** A count and a file offset: the M2 way of pointing at a table. */
  datatype NumOfs = NumOfs(num: nat, ofs: nat)

  const NumOfsSize: nat := 8

  function DecodeNumOfs(b: seq<byte>, off: nat): (r: NumOfs)
    requires off + NumOfsSize <= |b|
    ensures r.num < TWO32 && r.ofs < TWO32
  {
    NumOfs(U32(b, off), U32(b, off + 4))
  }

  function EncodeNumOfs(x: NumOfs): (r: seq<byte>)
    requires x.num < TWO32 && x.ofs < TWO32
    ensures |r| == NumOfsSize
  {
    EncodeU32(x.num) + EncodeU32(x.ofs)
  }

  /** A u32 depends only on its own four bytes. */
  lemma U32Local(b: seq<byte>, off: nat, c: seq<byte>, coff: nat)
    requires off + 4 <= |b| && coff + 4 <= |c|
    requires b[off..off + 4] == c[coff..coff + 4]
    ensures U32(b, off) == U32(c, coff)
  {
    assert b[off] == c[coff] && b[off + 1] == c[coff + 1];
    assert b[off + 2] == c[coff + 2] && b[off + 3] == c[coff + 3];
  }

  /** Decoding an encoded numofs gives it back. */
  lemma NumOfsRoundTrip(x: NumOfs)
    requires x.num < TWO32 && x.ofs < TWO32
    ensures DecodeNumOfs(EncodeNumOfs(x), 0) == x
  {
    var e := EncodeNumOfs(x);
    DecodeEncodeU32(x.num);
    DecodeEncodeU32(x.ofs);
    U32Local(e, 0, EncodeU32(x.num), 0);
    U32Local(e, 4, EncodeU32(x.ofs), 0);
  }

  /** Encoding a decoded numofs gives its eight bytes back. */
  lemma NumOfsBytesRoundTrip(b: seq<byte>, off: nat)
    requires off + NumOfsSize <= |b|
    ensures EncodeNumOfs(DecodeNumOfs(b, off)) == b[off..off + NumOfsSize]
  {
    EncodeDecodeU32(b, off);
    EncodeDecodeU32(b, off + 4);
    assert b[off..off + 8] == b[off..off + 4] + b[off + 4..off + 8];
  }

  function Vec3At(b: seq<byte>, off: nat): Vec3
    requires off + 12 <= |b|
  {
    Vec3(F32(b, off), F32(b, off + 4), F32(b, off + 8))
  }

  function Vec2At(b: seq<byte>, off: nat): Vec2
    requires off + 8 <= |b|
  {
    Vec2(F32(b, off), F32(b, off + 4))
  }

  /** A float stays the same when bytes outside it change. */
  lemma F32Local(b: seq<byte>, off: nat, c: seq<byte>)
    requires off + 4 <= |b| == |c|
    requires forall i :: off <= i < off + 4 ==> b[i] == c[i]
    ensures F32(b, off) == F32(c, off)
  {
    assert b[off..off + 4] == c[off..off + 4];
    U32Local(b, off, c, off);
  }

  // ---------------------------------------------------------------------
  // ModelHeader: 20 bytes of id/version/name/type, 33 numofs and 14 floats.

  const HeaderSize: nat := 324
  const HeaderPrefixSize: nat := 20

  const OfsVersion: nat := 0x04
  const OfsGlobalSequences: nat := 0x14
  const OfsAnimations: nat := 0x1C
  const OfsD: nat := 0x2C
  const OfsBones: nat := 0x34
  const OfsSkelBoneLookup: nat := 0x3C
  const OfsVertices: nat := 0x44
  const OfsViews: nat := 0x4C
  const OfsColors: nat := 0x54
  const OfsTextures: nat := 0x5C
  const OfsI: nat := 0x6C
  const OfsTexAnims: nat := 0x74
  const OfsTexFlags: nat := 0x84
  const OfsBoneLookupTable: nat := 0x8C
  const OfsTexLookup: nat := 0x94

  /** The header fields the loader uses. */
  datatype ModelHeader = ModelHeader(
    version: nat,
    GlobalSequences: NumOfs,
    Animations: NumOfs,
    Bones: NumOfs,
    SkelBoneLookup: NumOfs,
    Vertices: NumOfs,
    Views: NumOfs,
    Colors: NumOfs,
    Textures: NumOfs,
    TexFlags: NumOfs,
    BoneLookupTable: NumOfs,
    TexLookup: NumOfs)

  function DecodeHeader(h: seq<byte>): ModelHeader
    requires |h| == HeaderSize
  {
    ModelHeader(
      U32(h, OfsVersion),
      DecodeNumOfs(h, OfsGlobalSequences),
      DecodeNumOfs(h, OfsAnimations),
      DecodeNumOfs(h, OfsBones),
      DecodeNumOfs(h, OfsSkelBoneLookup),
      DecodeNumOfs(h, OfsVertices),
      DecodeNumOfs(h, OfsViews),
      DecodeNumOfs(h, OfsColors),
      DecodeNumOfs(h, OfsTextures),
      DecodeNumOfs(h, OfsTexFlags),
      DecodeNumOfs(h, OfsBoneLookupTable),
      DecodeNumOfs(h, OfsTexLookup))
  }

  /**
    A read of `got` into the middle of a struct at byte `off`: those bytes are
    replaced and every other byte is kept.
  */
  function Patch(s: seq<byte>, off: nat, got: seq<byte>): (r: seq<byte>)
    requires off + |got| <= |s|
    ensures |r| == |s|
    ensures forall i :: 0 <= i < off || off + |got| <= i < |s| ==> r[i] == s[i]
    ensures forall i :: off <= i < off + |got| ==> r[i] == got[i - off]
  {
    s[..off] + got + s[off + |got|..]
  }

  // ---------------------------------------------------------------------
  // ModelView (44 bytes): where a view's tables lie.

  const ModelViewSize: nat := 44

  datatype ModelView = ModelView(Index: NumOfs, Triangle: NumOfs, Properties: NumOfs, Submesh: NumOfs, Tex: NumOfs, lod: nat)

  function DecodeModelView(b: seq<byte>): ModelView
    requires |b| == ModelViewSize
  {
    ModelView(DecodeNumOfs(b, 0), DecodeNumOfs(b, 8), DecodeNumOfs(b, 16), DecodeNumOfs(b, 24), DecodeNumOfs(b, 32), U32(b, 40))
  }

  // ---------------------------------------------------------------------
  // ModelViewSubmesh (48 bytes; the 0x100 format stores only the first 32).

  const SubmeshSize: nat := 48
  const SubmeshBoundsSize: nat := 16

  datatype ModelViewSubmesh = ModelViewSubmesh(
    meshpartId: nat,
    ofsVertex: nat,
    nVertex: nat,
    ofsTris: nat,
    nTris: nat,
    nBone: nat,
    ofsBone: nat,
    unk3: nat,
    unk4: nat,
    CenterOfMass: Vec3,
    BB: Vec3,
    Radius: real)

  function DecodeSubmesh(b: seq<byte>): (r: ModelViewSubmesh)
    requires |b| == SubmeshSize
    ensures r.ofsVertex < TWO16 && r.nVertex < TWO16 && r.ofsTris < TWO16 && r.nTris < TWO16
    ensures r.unk3 < TWO16 && r.unk4 < TWO16
  {
    ModelViewSubmesh(
      U32(b, 0), U16(b, 4), U16(b, 6), U16(b, 8), U16(b, 10),
      U16(b, 12), U16(b, 14), U16(b, 16), U16(b, 18),
      Vec3At(b, 20), Vec3At(b, 32), F32(b, 44))
  }

  /** How many bytes of a submesh record the file holds, by format version. */
  function SubmeshReadSize(version: nat): (r: nat)
    ensures r <= SubmeshSize
    ensures version == 0x100 <==> r == SubmeshSize - SubmeshBoundsSize
  {
    SubmeshSize - (if version == 0x100 then SubmeshBoundsSize else 0)
  }

  /**
    Two submesh records that agree on bytes 32..47 have the same bounding-box
    centre and radius.
  */
  lemma SubmeshBoundsLocal(b: seq<byte>, c: seq<byte>)
    requires |b| == |c| == SubmeshSize
    requires forall i :: SubmeshSize - SubmeshBoundsSize <= i < SubmeshSize ==> b[i] == c[i]
    ensures DecodeSubmesh(b).BB == DecodeSubmesh(c).BB
    ensures DecodeSubmesh(b).Radius == DecodeSubmesh(c).Radius
  {
    F32Local(b, 32, c);
    F32Local(b, 36, c);
    F32Local(b, 40, c);
    F32Local(b, 44, c);
  }

  /**
    In the 0x100 format every submesh read fills only the first 32 bytes of
    the one reused record, so the BB and Radius of every submesh decoded are
    those the record held before the first read.
  */
  lemma LegacySubmeshesKeepBounds(data: seq<byte>, pos: nat, buf: seq<byte>, k: nat)
    requires |buf| == SubmeshSize
    ensures var r := AfterReads(data, pos, buf, SubmeshReadSize(0x100), k).buf;
      DecodeSubmesh(r).BB == DecodeSubmesh(buf).BB && DecodeSubmesh(r).Radius == DecodeSubmesh(buf).Radius
  {
    var size := SubmeshReadSize(0x100);
    var r := AfterReads(data, pos, buf, size, k).buf;
    forall i | size <= i < SubmeshSize
      ensures r[i] == buf[i]
    {
      ReadsKeepTail(data, pos, buf, size, k, i);
    }
    SubmeshBoundsLocal(r, buf);
  }

  // ---------------------------------------------------------------------
  // TextureUnit (24 bytes) and RenderFlags (4 bytes).

  const TextureUnitSize: nat := 24

  datatype TextureUnit = TextureUnit(
    Flags: nat,
    renderOrder: int,
    submeshIndex1: nat,
    submeshIndex2: nat,
    colorIndex: int,
    renderFlagsIndex: nat,
    TextureUnitNumber: nat,
    Mode: nat,
    textureIndex: nat,
    TextureUnitNumber2: nat,
    transparencyIndex: nat,
    texAnimIndex: nat)

  function DecodeTextureUnit(b: seq<byte>): (r: TextureUnit)
    requires |b| == TextureUnitSize
    ensures r.Flags < TWO16 && -0x8000 <= r.renderOrder < 0x8000 && -0x8000 <= r.colorIndex < 0x8000
  {
    TextureUnit(
      U16(b, 0), S16(b, 2), U16(b, 4), U16(b, 6), S16(b, 8), U16(b, 10),
      U16(b, 12), U16(b, 14), U16(b, 16), U16(b, 18), U16(b, 20), U16(b, 22))
  }

  const RenderFlagsSize: nat := 4

  datatype RenderFlags = RenderFlags(flags: nat, blending: nat)

  function DecodeRenderFlags(b: seq<byte>): RenderFlags
    requires |b| == RenderFlagsSize
  {
    RenderFlags(U16(b, 0), U16(b, 2))
  }

  // ---------------------------------------------------------------------
  // TextureDefinition (16 bytes) and ModelVertex (48 bytes).

  const TextureDefinitionSize: nat := 16

  datatype TextureDefinition = TextureDefinition(texType: nat, unk: nat, texFlags: nat, texFileLen: nat, texFileOfs: nat)

  function DecodeTextureDefinition(b: seq<byte>): TextureDefinition
    requires |b| == TextureDefinitionSize
  {
    TextureDefinition(U32(b, 0), U16(b, 4), U16(b, 6), U32(b, 8), U32(b, 12))
  }

  const ModelVertexSize: nat := 48

  /** The four bone-weight slots of a vertex (u8[4]). */
  type Slots = s: seq<nat> | |s| == 4 witness [0, 0, 0, 0]

  datatype ModelVertex = ModelVertex(pos: Vec3, weights: Slots, bones: Slots, normal: Vec3, texcoords: Vec2)

  /** A vertex as stored; the loader applies the Y/Z swap afterwards. */
  function DecodeModelVertex(b: seq<byte>): (r: ModelVertex)
    requires |b| == ModelVertexSize
    ensures r.pos == Vec3At(b, 0) && r.normal == Vec3At(b, 20) && r.texcoords == Vec2At(b, 32)
    ensures forall j | 0 <= j < 4 :: r.weights[j] == b[12 + j] as nat < 256 && r.bones[j] == b[16 + j] as nat < 256
  {
    ModelVertex(
      Vec3At(b, 0),
      [b[12] as nat, b[13] as nat, b[14] as nat, b[15] as nat],
      [b[16] as nat, b[17] as nat, b[18] as nat, b[19] as nat],
      Vec3At(b, 20),
      Vec2At(b, 32))
  }

  // ---------------------------------------------------------------------
  // Animation records: RawAnimation (68 bytes, before 0x108) and
  // RawAnimationWOTLK (64 bytes, 0x108).

  const RawAnimationSize: nat := 68
  const RawAnimationWotlkSize: nat := 64

  datatype RawAnimation = RawAnimation(animationID: nat, start: nat, end: nat, probability: nat)

  function DecodeRawAnimation(b: seq<byte>): RawAnimation
    requires |b| == RawAnimationSize
  {
    RawAnimation(U32(b, 0), U32(b, 4), U32(b, 8), U32(b, 20))
  }

  datatype RawAnimationWotlk = RawAnimationWotlk(animationID: nat, subanimationID: nat, length: nat, flags: nat, probability: nat)

  function DecodeRawAnimationWotlk(b: seq<byte>): (r: RawAnimationWotlk)
    requires |b| == RawAnimationWotlkSize
    ensures r.animationID < TWO16 && r.subanimationID < TWO16 && r.length < TWO32 && r.probability < TWO16
  {
    RawAnimationWotlk(U16(b, 0), U16(b, 2), U32(b, 4), U32(b, 12), U16(b, 16))
  }

  // ---------------------------------------------------------------------
  // Bone: 16 bytes (12 in 0x100) before its three animation blocks, then a
  // 12-byte pivot after them.

  const BoneHeadSize: nat := 16

  datatype BoneHead = BoneHead(SkelBoneIndex: int, flags: nat, parentBone: int)

  function DecodeBoneHead(b: seq<byte>): (r: BoneHead)
    requires |b| == BoneHeadSize
    ensures -0x8000 <= r.parentBone < 0x8000
  {
    BoneHead(S32(b, 0), U32(b, 4), S16(b, 8))
  }

  function BoneHeadReadSize(version: nat): nat
  {
    12 + (if version == 0x100 then 0 else 4)
  }

  // ---------------------------------------------------------------------
  // AnimBlockHead: interpolation type and global sequence (4 bytes), the
  // interpolation ranges (8, absent from 0x108 on), then the timestamp and
  // value tables (8 each).

  /** How many header bytes an animation block occupies in the file. */
  function AnimBlockHeadFileSize(version: nat): nat
  {
    4 + (if version < 0x108 then NumOfsSize else 0) + NumOfsSize + NumOfsSize
  }
}
