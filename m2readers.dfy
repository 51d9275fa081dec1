/**
  The read loops of CM2MeshFileLoader, each on the file cursors it is given
  and proved to produce exactly what the corresponding specification
  function of M2Anim and M2Tables computes. The loader object stores their
  results in its members.
*/
module M2Readers {
  import opened Wrappers
  import opened Bytes
  import opened ByteSource
  import opened M2Records
  import opened M2Geometry
  import opened M2Anim
  import opened M2Tables

  // ---------------------------------------------------------------------
  // ReadABlock

  /** The per-sequence offset tables a block header's numofs leads to. */
  method ReadOffsets(f: Src, head: NumOfs, version: nat, buf: seq<byte>) returns (offs: seq<NumOfs>, cur: seq<byte>, g: Src)
    requires |buf| == NumOfsSize
    ensures (offs, cur, g) == OffsetsOf(f, head, version, buf)
  {
    if version < 0x108 {
      offs, cur, g := [head], buf, f;
    } else {
      var recs;
      recs, g, cur := ReadTable(Seek(f, head.ofs), buf, NumOfsSize, head.num);
      offs := NumOfsTable(recs);
    }
  }

  /** The timestamps of sequence i, from its .anim file or the model file. */
  method ReadStampsOf(fs: Files, o: NumOfs, anims: seq<Animation>, version: nat, i: nat) returns (r: Outcome<(seq<nat>, Files)>)
    ensures r == StampStep(fs, o, anims, version, i)
  {
    if i >= |anims| {
      return Undefined;
    }
    if Skipped(anims[i].flags) {
      return Done(([], fs));
    }
    var sel := SourceOf(fs, version, i);
    if sel.Undefined? {
      return Undefined;
    }
    var offset := if version >= 0x108 then anims[i].start else 0;
    var recs, g, _ := ReadTable(Seek(FileOf(fs, sel.value), o.ofs), Blank(4), 4, o.num);
    r := Done((Stamps(recs, offset), WithFile(fs, sel.value, g)));
  }

  /** The timestamps read so far, extended by those of sequence i. */
  method ReadNextStamps(fs: Files, offs: seq<NumOfs>, anims: seq<Animation>, version: nat, i: nat, stamps: seq<nat>, g: Files) returns (r: Outcome<(seq<nat>, Files)>)
    requires i < |offs| && StampsUpTo(fs, offs, anims, version, i) == Done((stamps, g))
    ensures r == StampsUpTo(fs, offs, anims, version, i + 1)
  {
    var more := ReadStampsOf(g, offs[i], anims, version, i);
    if more.Undefined? {
      return Undefined;
    }
    StampsSnoc(fs, offs, anims, version, i, stamps, g, more.value.0, more.value.1);
    r := Done((stamps + more.value.0, more.value.1));
  }

  /** The timestamps of all sequences a block has tables for. */
  method ReadStamps(fs: Files, offs: seq<NumOfs>, anims: seq<Animation>, version: nat) returns (r: Outcome<(seq<nat>, Files)>)
    ensures r == StampsUpTo(fs, offs, anims, version, |offs|)
  {
    var stamps: seq<nat> := [];
    var g := fs;
    var i: nat := 0;
    while i < |offs|
      invariant i <= |offs| && StampsUpTo(fs, offs, anims, version, i) == Done((stamps, g))
    {
      var next := ReadNextStamps(fs, offs, anims, version, i, stamps, g);
      if next.Undefined? {
        StampsStayUndefined(fs, offs, anims, version, i + 1, |offs|);
        return Undefined;
      }
      stamps, g := next.value.0, next.value.1;
      i := i + 1;
    }
    r := Done((stamps, g));
  }

  /**
    The values of sequence i: its source file is positioned, but shorts are
    read from the model file.
  */
  method ReadValuesOf(fs: Files, o: NumOfs, anims: seq<Animation>, version: nat, vt: ValueType, datanum: nat, i: nat) returns (r: Outcome<(seq<real>, Files)>)
    ensures r == ValueStep(fs, o, anims, version, vt, datanum, i)
  {
    if i >= |anims| {
      return Undefined;
    }
    if Skipped(anims[i].flags) {
      return Done(([], fs));
    }
    var sel := SourceOf(fs, version, i);
    if sel.Undefined? {
      return Undefined;
    }
    var count := WrapU32(o.num * datanum);
    var positioned := WithFile(fs, sel.value, Seek(FileOf(fs, sel.value), o.ofs));
    match vt {
      case FloatValues =>
        var recs, g, _ := ReadTable(FileOf(positioned, sel.value), Blank(4), 4, count);
        r := Done((FloatValuesOf(recs), WithFile(positioned, sel.value, g)));
      case IntValues =>
        var recs, g, _ := ReadTable(FileOf(positioned, sel.value), Blank(4), 4, count);
        r := Done((IntValuesOf(recs), WithFile(positioned, sel.value, g)));
      case ShortValues =>
        var recs, g, _ := ReadTable(positioned.mesh, Blank(2), 2, count);
        r := Done((ShortValuesOf(recs), Files(g, positioned.anims)));
    }
  }

  /** The values read so far, extended by those of sequence i. */
  method ReadNextValues(fs: Files, offs: seq<NumOfs>, anims: seq<Animation>, version: nat, vt: ValueType, datanum: nat, i: nat, values: seq<real>, g: Files) returns (r: Outcome<(seq<real>, Files)>)
    requires i < |offs| && ValuesUpTo(fs, offs, anims, version, vt, datanum, i) == Done((values, g))
    ensures r == ValuesUpTo(fs, offs, anims, version, vt, datanum, i + 1)
  {
    var more := ReadValuesOf(g, offs[i], anims, version, vt, datanum, i);
    if more.Undefined? {
      return Undefined;
    }
    ValuesSnoc(fs, offs, anims, version, vt, datanum, i, values, g, more.value.0, more.value.1);
    r := Done((values + more.value.0, more.value.1));
  }

  /** The values of all sequences a block has tables for. */
  method ReadValues(fs: Files, offs: seq<NumOfs>, anims: seq<Animation>, version: nat, vt: ValueType, datanum: nat) returns (r: Outcome<(seq<real>, Files)>)
    ensures r == ValuesUpTo(fs, offs, anims, version, vt, datanum, |offs|)
  {
    var values: seq<real> := [];
    var g := fs;
    var i: nat := 0;
    while i < |offs|
      invariant i <= |offs| && ValuesUpTo(fs, offs, anims, version, vt, datanum, i) == Done((values, g))
    {
      var next := ReadNextValues(fs, offs, anims, version, vt, datanum, i, values, g);
      if next.Undefined? {
        ValuesStayUndefined(fs, offs, anims, version, vt, datanum, i + 1, |offs|);
        return Undefined;
      }
      values, g := next.value.0, next.value.1;
      i := i + 1;
    }
    r := Done((values, g));
  }

  /**
    ReadABlock: one animation block from the model file's cursor, with its
    tables from the model or the sequences' .anim files; the model file's
    cursor ends just after the block's header.
  */
  method ReadABlock(fs: Files, anims: seq<Animation>, version: nat, vt: ValueType, datanum: nat) returns (r: Outcome<(AnimBlock, Files)>)
    ensures r == ReadABlockSpec(fs, anims, version, vt, datanum)
  {
    var head := BlockHead(fs.mesh, version);
    var ts, vs := head.0, head.1;
    var offsetNextEntry := head.2.pos;
    var tsOffs, tempNumOfs, m2 := ReadOffsets(head.2, ts, version, Blank(NumOfsSize));
    var stamps := ReadStamps(Files(m2, fs.anims), tsOffs, anims, version);
    if stamps.Undefined? {
      return Undefined;
    }
    var g1 := stamps.value.1;
    var vOffs, _, m3 := ReadOffsets(g1.mesh, vs, version, tempNumOfs);
    var values := ReadValues(Files(m3, g1.anims), vOffs, anims, version, vt, datanum);
    if values.Undefined? {
      return Undefined;
    }
    var g2 := values.value.1;
    r := Done((AnimBlock(ts, vs, stamps.value.0, values.value.0), Files(Seek(g2.mesh, offsetNextEntry), g2.anims)));
  }

  // ---------------------------------------------------------------------
  // The tables of a view, the vertices and the texture names.

  /** ReadViewData: the view's indices, triangles, submeshes and texture units from `f`. */
  method ReadViewTables(f: Src, view: ModelView, version: nat) returns (skin: SkinData, g: Src)
    ensures (skin, g) == ViewData(f, view, version)
  {
    var ri, f1, _ := ReadTable(Seek(f, view.Index.ofs), Blank(2), 2, view.Index.num);
    var rt, f2, _ := ReadTable(Seek(f1, view.Triangle.ofs), Blank(2), 2, view.Triangle.num);
    var rs, f3, _ := ReadTable(Seek(f2, view.Submesh.ofs), Blank(SubmeshSize), SubmeshReadSize(version), view.Submesh.num);
    var ru, f4, _ := ReadTable(Seek(f3, view.Tex.ofs), Blank(TextureUnitSize), TextureUnitSize, view.Tex.num);
    skin, g := SkinData(U16Table(ri), U16Table(rt), SubmeshTable(rs), TextureUnitTable(ru)), f4;
  }

  /**
    ReadVertices: the vertex table, each vertex read over the one reused
    struct and its position and normal swapped in place.
  */
  method ReadVertexTable(f: Src, h: NumOfs) returns (vertices: seq<ModelVertex>, g: Src)
    ensures (vertices, g) == VertexTable(f, h)
  {
    g := Seek(f, h.ofs);
    var f0 := g;
    var temp := Blank(ModelVertexSize);
    vertices := [];
    var i := 0;
    while i < h.num
      invariant 0 <= i <= h.num && g.data == f0.data
      invariant var s := VerticesAfter(f0.data, f0.pos, i);
        temp == s.buf && g.pos == s.pos && vertices == DecodeVertices(s.recs)
    {
      var v;
      v, temp, g := ReadNextVertex(f0, i, temp, g);
      vertices := vertices + [v];
      i := i + 1;
    }
  }

  /** One vertex: the reused struct overlaid by the read, its position and normal swapped, then copied out. */
  method ReadNextVertex(f0: Src, i: nat, temp: seq<byte>, g: Src) returns (v: ModelVertex, next: seq<byte>, h: Src)
    requires var s := VerticesAfter(f0.data, f0.pos, i); g.data == f0.data && temp == s.buf && g.pos == s.pos
    ensures var s := VerticesAfter(f0.data, f0.pos, i);
      var t := VerticesAfter(f0.data, f0.pos, i + 1);
      next == t.buf && h == Src(f0.data, t.pos) && DecodeVertices(t.recs) == DecodeVertices(s.recs) + [v]
  {
    VerticesAfterStep(f0.data, f0.pos, i);
    DecodeVerticesSnoc(VerticesAfter(f0.data, f0.pos, i).recs, FixVertexBytes(Overlay(temp, Chunk(g.data, g.pos, ModelVertexSize))));
    var got := Chunk(g.data, g.pos, ModelVertexSize);
    next := FixVertexBytes(Overlay(temp, got));
    v := DecodeModelVertex(next);
    h := Src(g.data, g.pos + |got|);
  }


  /**
    The texture file names: for each definition the one std::string is
    resized to texFileLen+1, the name read over its start, and its C string
    copied out.
  */
  method ReadTextureNames(f: Src, defs: seq<TextureDefinition>) returns (r: Outcome<NameState>)
    ensures r == NamesUpTo(f, defs, |defs|)
  {
    var st := NameState([], [], f);
    var i: nat := 0;
    while i < |defs|
      invariant i <= |defs| && NamesUpTo(f, defs, i) == Done(st)
    {
      var next := ReadName(f, defs, i, st);
      if next.Undefined? {
        NamesStayUndefined(f, defs, i + 1, |defs|);
        return Undefined;
      }
      st := next.value;
      i := i + 1;
    }
    r := Done(st);
  }

  /** The names read so far, extended by name i. */
  method ReadName(f: Src, defs: seq<TextureDefinition>, i: nat, s: NameState) returns (r: Outcome<NameState>)
    requires i < |defs| && NamesUpTo(f, defs, i) == Done(s)
    ensures r == NamesUpTo(f, defs, i + 1)
  {
    NamesSnoc(f, defs, i, s);
    r := ReadNextName(s, defs[i]);
  }

  /** One texture file name, read over the resized string. */
  method ReadNextName(s: NameState, d: TextureDefinition) returns (r: Outcome<NameState>)
    ensures r == NameStep(s, d)
  {
    var resized := Resize(s.buf, WrapU32(d.texFileLen + 1));
    var got := Read(Seek(s.file, d.texFileOfs), d.texFileLen);
    if |got.0| > |resized| {
      return Undefined;
    }
    var name := Overlay(resized, got.0);
    r := Done(NameState(s.names + [Chars(CString(name))], name, got.1));
  }

  /** ReadTextureDefinitions: the lookup, definition and render flag tables, then the file names. */
  method ReadTextureTables(f: Src, h: ModelHeader) returns (r: Outcome<(TextureTables, Src)>)
    ensures r == TextureData(f, h)
  {
    var recs, g, cur := ReadTable(Seek(f, h.TexLookup.ofs), Blank(2), 2, h.TexLookup.num);
    var lookup := U16Table(recs);
    recs, g, cur := ReadTable(Seek(g, h.Textures.ofs), Blank(TextureDefinitionSize), TextureDefinitionSize, h.Textures.num);
    var defs := TextureDefinitionTable(recs);
    recs, g, cur := ReadTable(Seek(g, h.TexFlags.ofs), Blank(RenderFlagsSize), RenderFlagsSize, h.TexFlags.num);
    var flags := RenderFlagsTable(recs);
    var names := ReadTextureNames(g, defs);
    if names.Undefined? {
      return Undefined;
    }
    r := Done((TextureTables(lookup, defs, flags, names.value.names), names.value.file));
  }

  // ---------------------------------------------------------------------
  // The animation sequences.

  /** The sequences of a model before 0x108, each record read into an Animation declared afresh. */
  method ReadLegacyAnimations(f: Src, n: nat, uninit: nat -> Uninit) returns (anims: seq<Animation>, g: Src)
    ensures var t := FreshTable(f, RawAnimationSize, n);
      anims == LegacyAnimations(t.0, uninit) && g == t.1
  {
    g := f;
    anims := [];
    var i := 0;
    while i < n
      invariant 0 <= i <= n && g == Src(f.data, ReadPos(f.data, f.pos, RawAnimationSize, i))
      invariant anims == LegacyAnimations(FreshTable(f, RawAnimationSize, i).0, uninit)
    {
      ReadPosStep(f.data, f.pos, RawAnimationSize, i);
      LegacyAnimationsSnoc(f, i, uninit);
      var got := Chunk(g.data, g.pos, RawAnimationSize);
      g := Src(g.data, g.pos + |got|);
      var raw := DecodeRawAnimation(Overlay(Blank(RawAnimationSize), got));
      anims := anims + [LegacyAnimation(raw, uninit(i))];
      i := i + 1;
    }
  }

  /** One more record from 0x108 on, read into an Animation declared afresh, and its sequence appended. */
  method ReadNextAnimation(f: Src, n: nat, meshName: string, archive: map<string, seq<byte>>, i: nat, t: AnimTableState, g: Src)
    returns (r: Outcome<AnimTableState>, h: Src)
    requires i < n && g == Src(f.data, ReadPos(f.data, f.pos, RawAnimationWotlkSize, i))
    requires AnimationsFrom(WotlkRecords(FreshTable(f, RawAnimationWotlkSize, n).0), meshName, archive, i) == Done(t)
    ensures r == AnimationsFrom(WotlkRecords(FreshTable(f, RawAnimationWotlkSize, n).0), meshName, archive, i + 1)
    ensures h == Src(f.data, ReadPos(f.data, f.pos, RawAnimationWotlkSize, i + 1))
  {
    ghost var all := WotlkRecords(FreshTable(f, RawAnimationWotlkSize, n).0);
    ReadPosStep(f.data, f.pos, RawAnimationWotlkSize, i);
    WotlkRecordAt(f, n, i);
    var got := Chunk(g.data, g.pos, RawAnimationWotlkSize);
    h := Src(g.data, g.pos + |got|);
    var raw := DecodeRawAnimationWotlk(Overlay(Blank(RawAnimationWotlkSize), got));
    var a := AnimationOf(raw, t.laststart, meshName, archive);
    if a.Undefined? {
      AnimationsFailAt(all, meshName, archive, i, t);
      return Undefined, h;
    }
    AnimationsSnoc(all, meshName, archive, i, t, a.value);
    r := Done(AnimTableState(t.anims + [a.value.anim], t.slots + [a.value.slot], a.value.laststart));
  }

  /**
    The sequences from 0x108 on: each record read into an Animation declared
    afresh, its .anim file opened, and the next one started 1000 after it ends.
  */
  method ReadWotlkAnimations(f: Src, n: nat, meshName: string, archive: map<string, seq<byte>>) returns (r: Outcome<AnimTableState>, g: Src)
    ensures var t := FreshTable(f, RawAnimationWotlkSize, n);
      r == AnimationsFrom(WotlkRecords(t.0), meshName, archive, n) && (r.Done? ==> g == t.1)
  {
    g := f;
    var t := AnimTableState([], [], 0);
    var i := 0;
    while i < n
      invariant 0 <= i <= n && g == Src(f.data, ReadPos(f.data, f.pos, RawAnimationWotlkSize, i))
      invariant AnimationsFrom(WotlkRecords(FreshTable(f, RawAnimationWotlkSize, n).0), meshName, archive, i) == Done(t)
    {
      var next;
      next, g := ReadNextAnimation(f, n, meshName, archive, i, t, g);
      if next.Undefined? {
        AnimationsStayUndefined(WotlkRecords(FreshTable(f, RawAnimationWotlkSize, n).0), meshName, archive, i + 1, n);
        return Undefined, g;
      }
      t := next.value;
      i := i + 1;
    }
    r := Done(t);
  }


  /**
    The animation table at `h.ofs`: the sequences, the .anim slots appended
    to `files` (none before 0x108) and the model file after the table.
  */
  method ReadAnimationTable(f: Src, files: seq<Option<Src>>, h: NumOfs, version: nat, meshName: string, archive: map<string, seq<byte>>, uninit: nat -> Uninit)
    returns (r: Outcome<(seq<Animation>, seq<Option<Src>>, Src)>)
    ensures r == AnimationTable(f, files, h, version, meshName, archive, uninit)
  {
    if version < 0x108 {
      var anims, g := ReadLegacyAnimations(Seek(f, h.ofs), h.num, uninit);
      return Done((anims, files, g));
    }
    var t, g := ReadWotlkAnimations(Seek(f, h.ofs), h.num, meshName, archive);
    if t.Undefined? {
      return Undefined;
    }
    r := Done((t.value.anims, files + t.value.slots, g));
  }
  /** ReadAnimationData: the two bone lookup tables, then the animation table. */
  method ReadAnimationTables(f: Src, files: seq<Option<Src>>, h: ModelHeader, meshName: string, archive: map<string, seq<byte>>, uninit: nat -> Uninit)
    returns (r: Outcome<(AnimationTables, Src)>)
    ensures r == AnimationData(f, files, h, meshName, archive, uninit)
  {
    var recs, g, cur := ReadTable(Seek(f, h.BoneLookupTable.ofs), Blank(2), 2, h.BoneLookupTable.num);
    var boneLookup := U16Table(recs);
    recs, g, cur := ReadTable(Seek(g, h.SkelBoneLookup.ofs), Blank(2), 2, h.SkelBoneLookup.num);
    var skelLookup := U16Table(recs);
    var t := ReadAnimationTable(g, files, h.Animations, h.version, meshName, archive, uninit);
    if t.Undefined? {
      return Undefined;
    }
    r := Done((AnimationTables(boneLookup, skelLookup, t.value.0, t.value.1), t.value.2));
  }


  // ---------------------------------------------------------------------
  // Bones and colours.

  /** One bone: its head, three animation blocks and its pivot. */
  method ReadBone(fs: Files, anims: seq<Animation>, version: nat) returns (r: Outcome<(Bone, Files)>)
    ensures r == BoneStep(fs, anims, version)
  {
    var hb := ReadOver(fs.mesh, Blank(BoneHeadSize), BoneHeadReadSize(version));
    var head := DecodeBoneHead(hb.0);
    var translation := ReadABlock(Files(hb.1, fs.anims), anims, version, FloatValues, 3);
    if translation.Undefined? {
      return Undefined;
    }
    var rotation := ReadABlock(translation.value.1, anims, version, RotationType(version), 4);
    if rotation.Undefined? {
      return Undefined;
    }
    var scaling := ReadABlock(rotation.value.1, anims, version, FloatValues, 3);
    if scaling.Undefined? {
      return Undefined;
    }
    var g3 := scaling.value.1;
    var pb := ReadOver(g3.mesh, Blank(12), 12);
    var pivot := FixCoordSystem(Vec3At(pb.0, 0));
    r := Done((Bone(head.SkelBoneIndex, head.flags, head.parentBone, translation.value.0, rotation.value.0, scaling.value.0, pivot), Files(pb.1, g3.anims)));
  }

  /** The table read so far, extended by one more entry read where it ended. */
  method ReadNextBone(start: Files, anims: seq<Animation>, version: nat, i: nat, bones: seq<Bone>, g: Files) returns (r: Outcome<(seq<Bone>, Files)>)
    requires BonesUpTo(start, anims, version, i) == Done((bones, g))
    ensures r == BonesUpTo(start, anims, version, i + 1)
  {
    RepeatSnoc(start, BoneReader(anims, version), i, bones, g);
    var b := ReadBone(g, anims, version);
    if b.Undefined? {
      return Undefined;
    }
    r := Done((bones + [b.value.0], b.value.1));
  }


  /** ReadBones: the bone table at `h.ofs`. */
  method ReadBoneTable(fs: Files, h: NumOfs, anims: seq<Animation>, version: nat) returns (r: Outcome<(seq<Bone>, Files)>)
    ensures r == BoneTable(fs, h, anims, version)
  {
    var start := Files(Seek(fs.mesh, h.ofs), fs.anims);
    var bones: seq<Bone> := [];
    var g := start;
    var i := 0;
    while i < h.num
      invariant 0 <= i <= h.num
      invariant BonesUpTo(start, anims, version, i) == Done((bones, g))
    {
      var next := ReadNextBone(start, anims, version, i, bones, g);
      if next.Undefined? {
        RepeatStayUndefined(start, BoneReader(anims, version), i + 1, h.num);
        return Undefined;
      }
      bones, g := next.value.0, next.value.1;
      i := i + 1;
    }
    r := Done((bones, g));
  }

  /** One vertex colour: an RGB block and an alpha block. */
  method ReadColor(fs: Files, anims: seq<Animation>, version: nat) returns (r: Outcome<(VertexColor, Files)>)
    ensures r == ColorStep(fs, anims, version)
  {
    var colors := ReadABlock(fs, anims, version, FloatValues, 3);
    if colors.Undefined? {
      return Undefined;
    }
    var alpha := ReadABlock(colors.value.1, anims, version, ShortValues, 1);
    if alpha.Undefined? {
      return Undefined;
    }
    r := Done((VertexColor(colors.value.0, alpha.value.0), alpha.value.1));
  }

  /** The table read so far, extended by one more entry read where it ended. */
  method ReadNextColor(start: Files, anims: seq<Animation>, version: nat, i: nat, colors: seq<VertexColor>, g: Files) returns (r: Outcome<(seq<VertexColor>, Files)>)
    requires ColorsUpTo(start, anims, version, i) == Done((colors, g))
    ensures r == ColorsUpTo(start, anims, version, i + 1)
  {
    RepeatSnoc(start, ColorReader(anims, version), i, colors, g);
    var c := ReadColor(g, anims, version);
    if c.Undefined? {
      return Undefined;
    }
    r := Done((colors + [c.value.0], c.value.1));
  }


  /** ReadColors: the vertex colour table at `h.ofs`. */
  method ReadColorTable(fs: Files, h: NumOfs, anims: seq<Animation>, version: nat) returns (r: Outcome<(seq<VertexColor>, Files)>)
    ensures r == ColorTable(fs, h, anims, version)
  {
    var start := Files(Seek(fs.mesh, h.ofs), fs.anims);
    var colors: seq<VertexColor> := [];
    var g := start;
    var i := 0;
    while i < h.num
      invariant 0 <= i <= h.num
      invariant ColorsUpTo(start, anims, version, i) == Done((colors, g))
    {
      var next := ReadNextColor(start, anims, version, i, colors, g);
      if next.Undefined? {
        RepeatStayUndefined(start, ColorReader(anims, version), i + 1, h.num);
        return Undefined;
      }
      colors, g := next.value.0, next.value.1;
      i := i + 1;
    }
    r := Done((colors, g));
  }
}
