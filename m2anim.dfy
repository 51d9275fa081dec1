/**
  What ReadABlock reads: an animation block's header from the model file,
  its per-sequence timestamp and value tables (from the model file or, in
  the 0x108 format, from the sequence's .anim file), and where it leaves
  every file cursor.
*/
module M2Anim {
  import opened Wrappers
  import opened Bytes
  import opened ByteSource
  import opened M2Records
  import opened M2Geometry

  /** An animation sequence as the loader keeps it; all fields are u32 but the probability. */
  datatype Animation = Animation(animationID: nat, subanimationID: nat, start: nat, end: nat, flags: nat, probability: real)

  /** A decoded animation block: the two table pointers of its header and what they led to. */
  datatype AnimBlock = AnimBlock(TimeStamp: NumOfs, Values: NumOfs, timestamps: seq<nat>, values: seq<real>)

  /** The value types of ReadABlock: f32, quantised s16 and s32. */
  datatype ValueType = FloatValues | ShortValues | IntValues

  /** The model file and the .anim files of the sequences, None where a sequence has none. */
  datatype Files = Files(mesh: Src, anims: seq<Option<Src>>)

  /** A sequence whose data lives in an .anim file that the block does not describe: it is skipped. */
  predicate Skipped(flags: nat)
  {
    !Bit(flags, 5) && Bit(flags, 6)
  }

  /**
    The file sequence i's tables are read from: its .anim file (Some(i)) in
    the 0x108 format when it has one, the model file (None) otherwise.
    Reading the .anim file list past its end is undefined.
  */
  function SourceOf(fs: Files, version: nat, i: nat): (r: Outcome<Option<nat>>)
    ensures r.Done? && r.value.Some? ==> r.value.value < |fs.anims| && fs.anims[r.value.value].Some?
  {
    if version < 0x108 then Done(None)
    else if i >= |fs.anims| then Undefined
    else if fs.anims[i].Some? then Done(Some(i))
    else Done(None)
  }

  predicate ValidSource(fs: Files, sel: Option<nat>)
  {
    sel.Some? ==> sel.value < |fs.anims| && fs.anims[sel.value].Some?
  }

  function FileOf(fs: Files, sel: Option<nat>): Src
    requires ValidSource(fs, sel)
  {
    if sel.Some? then fs.anims[sel.value].value else fs.mesh
  }

  function WithFile(fs: Files, sel: Option<nat>, f: Src): (r: Files)
    requires ValidSource(fs, sel)
    ensures |r.anims| == |fs.anims|
    ensures forall k :: 0 <= k < |fs.anims| ==> (r.anims[k].Some? <==> fs.anims[k].Some?)
  {
    if sel.Some? then Files(fs.mesh, fs.anims[sel.value := Some(f)]) else Files(f, fs.anims)
  }

  /** The numofs of a table of numofs records. */
  function NumOfsTable(recs: seq<seq<byte>>): (r: seq<NumOfs>)
    requires forall k :: 0 <= k < |recs| ==> |recs[k]| == NumOfsSize
    ensures |r| == |recs|
  {
    seq(|recs|, k requires 0 <= k < |recs| => DecodeNumOfs(recs[k], 0))
  }

  /** u32 timestamps, each shifted by the sequence's start with 32-bit wrap-around. */
  function Stamps(recs: seq<seq<byte>>, offset: nat): (r: seq<nat>)
    requires forall k :: 0 <= k < |recs| ==> |recs[k]| == 4
    ensures |r| == |recs|
  {
    seq(|recs|, k requires 0 <= k < |recs| => WrapU32(U32(recs[k], 0) + offset))
  }

  function FloatValuesOf(recs: seq<seq<byte>>): (r: seq<real>)
    requires forall k :: 0 <= k < |recs| ==> |recs[k]| == 4
    ensures |r| == |recs|
  {
    seq(|recs|, k requires 0 <= k < |recs| => F32(recs[k], 0))
  }

  function IntValuesOf(recs: seq<seq<byte>>): (r: seq<real>)
    requires forall k :: 0 <= k < |recs| ==> |recs[k]| == 4
    ensures |r| == |recs|
  {
    seq(|recs|, k requires 0 <= k < |recs| => S32(recs[k], 0) as real)
  }

  function ShortValuesOf(recs: seq<seq<byte>>): (r: seq<real>)
    requires forall k :: 0 <= k < |recs| ==> |recs[k]| == 2
    ensures |r| == |recs|
    ensures forall k :: 0 <= k < |r| ==> -1.0 <= r[k] <= 1.0
  {
    seq(|recs|, k requires 0 <= k < |recs| => ShortToReal(S16(recs[k], 0)))
  }

  /** A table of `n` records of `size` bytes read from `f` into a fresh struct. */
  function Table(f: Src, size: nat, n: nat): (r: (seq<seq<byte>>, Src))
    ensures |r.0| == n && r.1.data == f.data
    ensures forall k :: 0 <= k < n ==> |r.0[k]| == size
  {
    TableRead(f, Blank(size), size, n)
  }

  // ---------------------------------------------------------------------
  // The block header and the offset tables.

  /**
    The block header after its reads into a fresh header: 4 bytes of
    interpolation type and global sequence, the interpolation ranges before
    0x108, then the timestamp and value numofs. The reads land on disjoint
    parts of the zeroed struct, so each numofs is what its own read
    delivers, padded with zeros; the fields before them are never used.
  */
  function BlockHead(f: Src, version: nat): (r: (NumOfs, NumOfs, Src))
    ensures r.2.data == f.data
  {
    var f1 := Read(f, 4).1;
    var f2 := if version < 0x108 then Read(f1, NumOfsSize).1 else f1;
    var ts := Read(f2, NumOfsSize);
    var vs := Read(ts.1, NumOfsSize);
    (DecodeNumOfs(Overlay(Blank(NumOfsSize), ts.0), 0), DecodeNumOfs(Overlay(Blank(NumOfsSize), vs.0), 0), vs.1)
  }


  /**
    The per-sequence tables a header numofs leads to: before 0x108 the numofs
    itself; from 0x108 on a table of numofs at its offset in the model file,
    read into the reused struct `buf`. Also returns what that struct holds
    afterwards.
  */
  function OffsetsOf(f: Src, head: NumOfs, version: nat, buf: seq<byte>): (r: (seq<NumOfs>, seq<byte>, Src))
    requires |buf| == NumOfsSize
    ensures |r.1| == NumOfsSize && r.2.data == f.data
  {
    if version < 0x108 then ([head], buf, f)
    else
      var g := Seek(f, head.ofs);
      var (recs, h) := TableRead(g, buf, NumOfsSize, head.num);
      (NumOfsTable(recs), AfterReads(g.data, g.pos, buf, NumOfsSize, head.num).buf, h)
  }

  // ---------------------------------------------------------------------
  // Timestamps.

  /**
    Sequence i's timestamps: nothing when it is skipped; otherwise `num` u32s
    at its offset in its source file, each plus the sequence's start from
    0x108 on. Reading the animation list past its end is undefined.
  */
  function StampStep(fs: Files, o: NumOfs, anims: seq<Animation>, version: nat, i: nat): (r: Outcome<(seq<nat>, Files)>)
    ensures r.Done? ==> |r.value.1.anims| == |fs.anims| && r.value.1.mesh.data == fs.mesh.data
    ensures r.Done? ==> i < |anims| && (Skipped(anims[i].flags) ==> r.value == ([], fs))
    ensures r.Done? ==> i < |anims| && (!Skipped(anims[i].flags) ==> |r.value.0| == o.num)
    ensures r.Undefined? <==> i >= |anims| || (!Skipped(anims[i].flags) && version >= 0x108 && i >= |fs.anims|)
  {
    if i >= |anims| then Undefined
    else if Skipped(anims[i].flags) then Done(([], fs))
    else
      match SourceOf(fs, version, i)
      case Undefined => Undefined
      case Done(sel) =>
        var offset := if version >= 0x108 then anims[i].start else 0;
        var f := Seek(FileOf(fs, sel), o.ofs);
        var (recs, g) := Table(f, 4, o.num);
        Done((Stamps(recs, offset), WithFile(fs, sel, g)))
  }

  /** The timestamps of the first k sequences, and the files afterwards. */
  function StampsUpTo(fs: Files, offs: seq<NumOfs>, anims: seq<Animation>, version: nat, k: nat): (r: Outcome<(seq<nat>, Files)>)
    requires k <= |offs|
    ensures r.Done? ==> |r.value.1.anims| == |fs.anims| && r.value.1.mesh.data == fs.mesh.data
    decreases k
  {
    if k == 0 then Done(([], fs))
    else
      match StampsUpTo(fs, offs, anims, version, k - 1)
      case Undefined => Undefined
      case Done((ts, g)) =>
        match StampStep(g, offs[k - 1], anims, version, k - 1)
        case Undefined => Undefined
        case Done((more, h)) => Done((ts + more, h))
  }

  /** One more sequence appends its timestamps. */
  lemma StampsSnoc(fs: Files, offs: seq<NumOfs>, anims: seq<Animation>, version: nat, k: nat, ts: seq<nat>, g: Files, more: seq<nat>, h: Files)
    requires k < |offs| && StampsUpTo(fs, offs, anims, version, k) == Done((ts, g))
    requires StampStep(g, offs[k], anims, version, k) == Done((more, h))
    ensures StampsUpTo(fs, offs, anims, version, k + 1) == Done((ts + more, h))
  {
  }

  /** Once a sequence's timestamps are undefined, so are those of any longer run. */
  lemma {:induction false} StampsStayUndefined(fs: Files, offs: seq<NumOfs>, anims: seq<Animation>, version: nat, j: nat, k: nat)
    requires j <= k <= |offs| && StampsUpTo(fs, offs, anims, version, j).Undefined?
    ensures StampsUpTo(fs, offs, anims, version, k).Undefined?
    decreases k
  {
    if k > j {
      StampsStayUndefined(fs, offs, anims, version, j, k - 1);
    }
  }

  // ---------------------------------------------------------------------
  // Values.

  /**
    Sequence i's values: nothing when it is skipped; otherwise num*datanum
    (u32 product) values. Floats and ints come from the source file at the
    sequence's offset; shorts come from the model file at wherever its cursor
    is, although it is the source file that was positioned.
  */
  function ValueStep(fs: Files, o: NumOfs, anims: seq<Animation>, version: nat, vt: ValueType, datanum: nat, i: nat): (r: Outcome<(seq<real>, Files)>)
    ensures r.Done? ==> |r.value.1.anims| == |fs.anims| && r.value.1.mesh.data == fs.mesh.data
    ensures r.Done? ==> i < |anims| && (Skipped(anims[i].flags) ==> r.value == ([], fs))
    ensures r.Done? ==> i < |anims| && (!Skipped(anims[i].flags) ==> |r.value.0| == WrapU32(o.num * datanum))
    ensures r.Done? && vt == ShortValues ==> forall k :: 0 <= k < |r.value.0| ==> -1.0 <= r.value.0[k] <= 1.0
    ensures r.Undefined? <==> i >= |anims| || (!Skipped(anims[i].flags) && version >= 0x108 && i >= |fs.anims|)
  {
    if i >= |anims| then Undefined
    else if Skipped(anims[i].flags) then Done(([], fs))
    else
      match SourceOf(fs, version, i)
      case Undefined => Undefined
      case Done(sel) =>
        var count := WrapU32(o.num * datanum);
        var positioned := WithFile(fs, sel, Seek(FileOf(fs, sel), o.ofs));
        match vt
        case FloatValues =>
          var (recs, g) := Table(FileOf(positioned, sel), 4, count);
          Done((FloatValuesOf(recs), WithFile(positioned, sel, g)))
        case IntValues =>
          var (recs, g) := Table(FileOf(positioned, sel), 4, count);
          Done((IntValuesOf(recs), WithFile(positioned, sel, g)))
        case ShortValues =>
          var (recs, g) := Table(positioned.mesh, 2, count);
          Done((ShortValuesOf(recs), Files(g, positioned.anims)))
  }

  function ValuesUpTo(fs: Files, offs: seq<NumOfs>, anims: seq<Animation>, version: nat, vt: ValueType, datanum: nat, k: nat): (r: Outcome<(seq<real>, Files)>)
    requires k <= |offs|
    ensures r.Done? ==> |r.value.1.anims| == |fs.anims| && r.value.1.mesh.data == fs.mesh.data
    decreases k
  {
    if k == 0 then Done(([], fs))
    else
      match ValuesUpTo(fs, offs, anims, version, vt, datanum, k - 1)
      case Undefined => Undefined
      case Done((vs, g)) =>
        match ValueStep(g, offs[k - 1], anims, version, vt, datanum, k - 1)
        case Undefined => Undefined
        case Done((more, h)) => Done((vs + more, h))
  }

  /** One more sequence appends its values. */
  lemma ValuesSnoc(fs: Files, offs: seq<NumOfs>, anims: seq<Animation>, version: nat, vt: ValueType, datanum: nat, k: nat, vs: seq<real>, g: Files, more: seq<real>, h: Files)
    requires k < |offs| && ValuesUpTo(fs, offs, anims, version, vt, datanum, k) == Done((vs, g))
    requires ValueStep(g, offs[k], anims, version, vt, datanum, k) == Done((more, h))
    ensures ValuesUpTo(fs, offs, anims, version, vt, datanum, k + 1) == Done((vs + more, h))
  {
  }

  /** Once a sequence's values are undefined, so are those of any longer run. */
  lemma {:induction false} ValuesStayUndefined(fs: Files, offs: seq<NumOfs>, anims: seq<Animation>, version: nat, vt: ValueType, datanum: nat, j: nat, k: nat)
    requires j <= k <= |offs| && ValuesUpTo(fs, offs, anims, version, vt, datanum, j).Undefined?
    ensures ValuesUpTo(fs, offs, anims, version, vt, datanum, k).Undefined?
    decreases k
  {
    if k > j {
      ValuesStayUndefined(fs, offs, anims, version, vt, datanum, j, k - 1);
    }
  }

  // ---------------------------------------------------------------------
  // The whole block.

  /**
    ReadABlock: the header, the timestamps, the values, and finally the model
    file's cursor put back just after the header.
  */
  function ReadABlockSpec(fs: Files, anims: seq<Animation>, version: nat, vt: ValueType, datanum: nat): (r: Outcome<(AnimBlock, Files)>)
    ensures r.Done? ==> |r.value.1.anims| == |fs.anims| && r.value.1.mesh.data == fs.mesh.data
  {
    var (ts, vs, m1) := BlockHead(fs.mesh, version);
    var (tsOffs, buf, m2) := OffsetsOf(m1, ts, version, Blank(NumOfsSize));
    match StampsUpTo(Files(m2, fs.anims), tsOffs, anims, version, |tsOffs|)
    case Undefined => Undefined
    case Done((stamps, g1)) =>
      var (vOffs, _, m3) := OffsetsOf(g1.mesh, vs, version, buf);
      match ValuesUpTo(Files(m3, g1.anims), vOffs, anims, version, vt, datanum, |vOffs|)
      case Undefined => Undefined
      case Done((vals, g2)) =>
        Done((AnimBlock(ts, vs, stamps, vals), Files(Seek(g2.mesh, m1.pos), g2.anims)))
  }

  // ---------------------------------------------------------------------
  // Properties of a block read.

  /** Quantised shorts always decode into [-1, 1]. */
  lemma {:induction false} ShortValuesInRange(fs: Files, offs: seq<NumOfs>, anims: seq<Animation>, version: nat, datanum: nat, k: nat)
    requires k <= |offs|
    ensures var r := ValuesUpTo(fs, offs, anims, version, ShortValues, datanum, k);
      r.Done? ==> forall j :: 0 <= j < |r.value.0| ==> -1.0 <= r.value.0[j] <= 1.0
    decreases k
  {
    if k > 0 {
      ShortValuesInRange(fs, offs, anims, version, datanum, k - 1);
      var prev := ValuesUpTo(fs, offs, anims, version, ShortValues, datanum, k - 1);
      if prev.Done? {
        var step := ValueStep(prev.value.1, offs[k - 1], anims, version, ShortValues, datanum, k - 1);
        if step.Done? {
          var all := prev.value.0 + step.value.0;
          assert ValuesUpTo(fs, offs, anims, version, ShortValues, datanum, k) == Done((all, step.value.1));
          forall j | 0 <= j < |all|
            ensures -1.0 <= all[j] <= 1.0
          {
            if j >= |prev.value.0| {
              assert all[j] == step.value.0[j - |prev.value.0|];
            }
          }
        }
      }
    }
  }

  /** A block of shorts (bone rotations, colour alphas) holds values in [-1, 1] only. */
  lemma ShortBlockInRange(fs: Files, anims: seq<Animation>, version: nat, datanum: nat)
    ensures var r := ReadABlockSpec(fs, anims, version, ShortValues, datanum);
      r.Done? ==> forall j :: 0 <= j < |r.value.0.values| ==> -1.0 <= r.value.0.values[j] <= 1.0
  {
    var (ts, vs, m1) := BlockHead(fs.mesh, version);
    var (tsOffs, buf, m2) := OffsetsOf(m1, ts, version, Blank(NumOfsSize));
    var st := StampsUpTo(Files(m2, fs.anims), tsOffs, anims, version, |tsOffs|);
    if st.Done? {
      var (vOffs, _, m3) := OffsetsOf(st.value.1.mesh, vs, version, buf);
      ShortValuesInRange(Files(m3, st.value.1.anims), vOffs, anims, version, datanum, |vOffs|);
    }
  }

  /** When the header lies inside the file, reading it advances the cursor by its size in the file. */
  lemma BlockHeadAdvances(f: Src, version: nat)
    requires f.pos + AnimBlockHeadFileSize(version) <= |f.data|
    ensures BlockHead(f, version).2.pos == f.pos + AnimBlockHeadFileSize(version)
  {
  }

  /**
    Whatever the tables read, a block read leaves the model file just after
    the block's header, so that the next block's header follows.
  */
  lemma ReadABlockRestoresCursor(fs: Files, anims: seq<Animation>, version: nat, vt: ValueType, datanum: nat)
    requires fs.mesh.pos + AnimBlockHeadFileSize(version) <= |fs.mesh.data|
    ensures var r := ReadABlockSpec(fs, anims, version, vt, datanum);
      r.Done? ==> r.value.1.mesh == Src(fs.mesh.data, fs.mesh.pos + AnimBlockHeadFileSize(version))
  {
    BlockHeadAdvances(fs.mesh, version);
  }
}
