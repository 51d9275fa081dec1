/**
  The first part of CM2MeshFileLoader::load: the header, filled according
  to the file's version, and the views, which the 0x108 format keeps in
  .skin files named after the model.
*/
module M2Views {
  import opened Wrappers
  import opened Bytes
  import opened ByteSource
  import opened Decimal
  import opened M2Records
  import opened M2Tables
  import opened M2Readers

  // ---------------------------------------------------------------------
  // The header.

  /** The versions load knows: 0x100, 0x104 to 0x107, and 0x108. */
  predicate KnownVersion(version: nat)
  {
    version == 0x100 || 0x104 <= version <= 0x107 || version == 0x108
  }

  /** A read of up to `n` bytes into the header struct at byte `off`. */
  function ReadInto(f: Src, hdr: seq<byte>, off: nat, n: nat): (r: (seq<byte>, Src))
    requires off + n <= |hdr|
    ensures |r.0| == |hdr| && r.1.data == f.data
  {
    var (got, g) := Read(f, n);
    (Patch(hdr, off, got), g)
  }

  /**
    The reads after the 20-byte prefix: the rest of the struct in one read
    for the legacy versions; four ranges for 0x108, the last running to the
    end of the struct.
  */
  function HeaderRest(f: Src, hdr: seq<byte>, version: nat): (r: (seq<byte>, Src))
    requires |hdr| == HeaderSize
    ensures |r.0| == HeaderSize && r.1.data == f.data
  {
    if version == 0x108 then
      var (h1, f1) := ReadInto(f, hdr, 0x14, 24);
      var (h2, f2) := ReadInto(f1, h1, 0x34, 28);
      var (h3, f3) := ReadInto(f2, h2, 0x54, 24);
      ReadInto(f3, h3, 0x74, HeaderSize - 0x74)
    else
      ReadInto(f, hdr, HeaderPrefixSize, HeaderSize - HeaderPrefixSize)
  }

  /**
    For 0x108 the reads skip three ranges of the struct: the D numofs, the
    offset of Views and the I numofs keep what the struct held before.
  */
  lemma WotlkHeaderGaps(f: Src, hdr: seq<byte>)
    requires |hdr| == HeaderSize
    ensures var h := HeaderRest(f, hdr, 0x108).0;
      h[..0x14] == hdr[..0x14] && h[0x2C..0x34] == hdr[0x2C..0x34] &&
      h[0x50..0x54] == hdr[0x50..0x54] && h[0x6C..0x74] == hdr[0x6C..0x74]
  {
  }

  /**
    For 0x108, a file long enough for all four reads fills every byte
    outside those gaps from the file, in the struct's own layout.
  */
  lemma WotlkHeaderFromFile(f: Src, hdr: seq<byte>)
    requires |hdr| == HeaderSize
    requires f.pos + 284 <= |f.data|
    ensures var h := HeaderRest(f, hdr, 0x108).0; var d := f.data; var p := f.pos;
      h[0x14..0x2C] == d[p..p + 24] && h[0x34..0x50] == d[p + 24..p + 52] &&
      h[0x54..0x6C] == d[p + 52..p + 76] && h[0x74..] == d[p + 76..p + 76 + HeaderSize - 0x74]
  {
  }

  /** A legacy header with enough bytes left is the next 304 bytes of the file, after the prefix. */
  lemma LegacyHeaderFromFile(f: Src, hdr: seq<byte>, version: nat)
    requires |hdr| == HeaderSize && version != 0x108
    requires f.pos + HeaderSize - HeaderPrefixSize <= |f.data|
    ensures var (h, g) := HeaderRest(f, hdr, version);
      h[..HeaderPrefixSize] == hdr[..HeaderPrefixSize] &&
      h[HeaderPrefixSize..] == f.data[f.pos..f.pos + HeaderSize - HeaderPrefixSize] &&
      g.pos == f.pos + HeaderSize - HeaderPrefixSize
  {
  }

  // ---------------------------------------------------------------------
  // The views.

  /**
    The .skin name of view n: the model's name without its last three
    characters, then n with at least two digits, then ".skin".
  */
  function SkinName(meshName: string, n: nat): string
  {
    Stem(meshName) + (if n < 10 then "0" + NatToString(n) else NatToString(n)) + ".skin"
  }

  /** The number in a skin name is n zero-padded to two digits, and it reads back as n. */
  lemma SkinNameShape(meshName: string, n: nat)
    ensures SkinName(meshName, n) == Stem(meshName) + PadDecimal(n, 2) + ".skin"
    ensures AllDigits(PadDecimal(n, 2)) && ParseDecimal(PadDecimal(n, 2)) == n
    ensures n < 100 ==> |PadDecimal(n, 2)| == 2
  {
    NatToStringShape(n);
    ParsePadDecimal(n, 2);
    if n < 100 {
      NatToStringLength(n, 2);
    }
    if n >= 10 {
      NatToStringLong(n, 1);
    }
  }

  /** Different views have different skin names. */
  lemma SkinNamesDiffer(meshName: string, m: nat, n: nat)
    requires m != n
    ensures SkinName(meshName, m) != SkinName(meshName, n)
  {
    SkinNameShape(meshName, m);
    SkinNameShape(meshName, n);
    var a, b := PadDecimal(m, 2), PadDecimal(n, 2);
    var s := Stem(meshName);
    if |a| == |b| {
      assert a != b;
      var k :| 0 <= k < |a| && a[k] != b[k];
      assert (s + a + ".skin")[|s| + k] == a[k];
      assert (s + b + ".skin")[|s| + k] == b[k];
    }
  }

  /** The view struct's bytes. */
  type ViewBytes = v: seq<byte> | |v| == ModelViewSize witness Blank(ModelViewSize)

  /** The view struct and the skins read so far; the view struct is overwritten by every skin. */
  datatype ViewState = ViewState(view: ViewBytes, skins: seq<SkinData>)

  /** How the skin loop ends: every skin read, or at the first view whose .skin file is missing. */
  datatype SkinsResult = AllSkins(st: ViewState) | SkinMissing(st: ViewState, at: nat)

  /**
    A loop over the views with a u16 index that stops at the first view
    `step` fails on. With 65536 views or more the index wraps to 0 before
    reaching the count, so once every step succeeds the loop never ends.
  */
  function ViewLoop(step: (ViewState, nat) -> Option<ViewState>, num: nat, st: ViewState, n: nat): Outcome<SkinsResult>
    requires n <= TWO16
    decreases TWO16 - n
  {
    if n == TWO16 then Undefined
    else if n >= num then Done(AllSkins(st))
    else match step(st, n)
      case None => Done(SkinMissing(st, n))
      case Some(st') => ViewLoop(step, num, st', n + 1)
  }

  /**
    When whether a step succeeds depends only on the view (`present`), and
    every step appends one skin: the loop reads every view exactly when
    there are fewer than 65536 and all are present, and then it has
    appended one skin per view.
  */
  lemma {:induction false} ViewLoopAll(step: (ViewState, nat) -> Option<ViewState>, present: nat -> bool, num: nat, st: ViewState, n: nat)
    requires n <= TWO16 && n <= num
    requires forall s, m :: step(s, m).Some? <==> present(m)
    requires forall s, m :: step(s, m).Some? ==> |step(s, m).value.skins| == |s.skins| + 1 && step(s, m).value.skins[..|s.skins|] == s.skins
    ensures var r := ViewLoop(step, num, st, n);
      (r.Done? && r.value.AllSkins? <==> num < TWO16 && forall m | n <= m < num :: present(m)) &&
      (r.Done? && r.value.AllSkins? ==> |r.value.st.skins| == |st.skins| + num - n && r.value.st.skins[..|st.skins|] == st.skins)
    decreases TWO16 - n
  {
    if n < TWO16 && n < num {
      var s := step(st, n);
      if s.Some? {
        ViewLoopAll(step, present, num, s.value, n + 1);
        var r := ViewLoop(step, num, s.value, n + 1);
        if r.Done? && r.value.AllSkins? {
          assert r.value.st.skins[..|st.skins|] == r.value.st.skins[..|s.value.skins|][..|st.skins|];
        }
      }
    }
  }

  /** A loop that stops early stops at the first view below the count (and below 65536) that is not present. */
  lemma {:induction false} ViewLoopMissing(step: (ViewState, nat) -> Option<ViewState>, present: nat -> bool, num: nat, st: ViewState, n: nat)
    requires n <= TWO16 && n <= num
    requires forall s, m :: step(s, m).Some? <==> present(m)
    ensures var r := ViewLoop(step, num, st, n);
      r.Done? && r.value.SkinMissing? ==>
        n <= r.value.at < num && r.value.at < TWO16 && !present(r.value.at) &&
        forall p | n <= p < r.value.at :: present(p)
    decreases TWO16 - n
  {
    if n < TWO16 && n < num {
      var s := step(st, n);
      if s.Some? {
        ViewLoopMissing(step, present, num, s.value, n + 1);
      }
    }
  }

  /** The loop never ends exactly when there are 65536 views or more and all 65536 are present. */
  lemma {:induction false} ViewLoopHangs(step: (ViewState, nat) -> Option<ViewState>, present: nat -> bool, num: nat, st: ViewState, n: nat)
    requires n <= TWO16 && n <= num
    requires forall s, m :: step(s, m).Some? <==> present(m)
    ensures ViewLoop(step, num, st, n).Undefined? <==> num >= TWO16 && forall m | n <= m < TWO16 :: present(m)
    decreases TWO16 - n
  {
    if n < TWO16 && n < num {
      var s := step(st, n);
      if s.Some? {
        ViewLoopHangs(step, present, num, s.value, n + 1);
      }
    }
  }

  /**
    One skin: the file opened by its name, a seek to 4 past the "SKIN" tag,
    the view struct read from there, and that view's tables appended.
  */
  function SkinStep(meshName: string, archive: map<string, seq<byte>>, version: nat, st: ViewState, n: nat): (r: Option<ViewState>)
    ensures r.Some? <==> SkinName(meshName, n) in archive
    ensures r.Some? ==> |r.value.skins| == |st.skins| + 1 && r.value.skins[..|st.skins|] == st.skins
  {
    var name := SkinName(meshName, n);
    if name !in archive then None
    else
      var (got, g) := Read(Seek(Src(archive[name], 0), 4), ModelViewSize);
      var view := Overlay(st.view, got);
      Some(ViewState(view, st.skins + [ViewData(g, DecodeModelView(view), version).0]))
  }

  /** SkinStep as the step of the view loop. */
  function SkinReader(meshName: string, archive: map<string, seq<byte>>, version: nat): (ViewState, nat) -> Option<ViewState>
  {
    (st: ViewState, n: nat) => SkinStep(meshName, archive, version, st, n)
  }

  function SkinPresent(meshName: string, archive: map<string, seq<byte>>): (r: nat -> bool)
    ensures forall m :: r(m) == (SkinName(meshName, m) in archive)
  {
    (n: nat) => SkinName(meshName, n) in archive
  }

  /** The skin loop of load from view n on. */
  function SkinsFrom(meshName: string, archive: map<string, seq<byte>>, num: nat, version: nat, st: ViewState, n: nat): Outcome<SkinsResult>
    requires n <= TWO16
  {
    ViewLoop(SkinReader(meshName, archive, version), num, st, n)
  }

  /**
    The skin loop reads every skin exactly when there are fewer than 65536
    views and every name exists, and then appends exactly one skin per
    view; otherwise it stops at the first missing name, or, when all 65536
    names exist, never ends.
  */
  lemma SkinsOutcome(meshName: string, archive: map<string, seq<byte>>, num: nat, version: nat, st: ViewState)
    ensures var r := SkinsFrom(meshName, archive, num, version, st, 0);
      (r.Done? && r.value.AllSkins? <==> num < TWO16 && forall m | 0 <= m < num :: SkinName(meshName, m) in archive) &&
      (r.Done? && r.value.AllSkins? ==> |r.value.st.skins| == |st.skins| + num && r.value.st.skins[..|st.skins|] == st.skins) &&
      (r.Done? && r.value.SkinMissing? ==>
        r.value.at < num && r.value.at < TWO16 && SkinName(meshName, r.value.at) !in archive &&
        forall p | 0 <= p < r.value.at :: SkinName(meshName, p) in archive) &&
      (r.Undefined? <==> num >= TWO16 && forall m | 0 <= m < TWO16 :: SkinName(meshName, m) in archive)
  {
    var step, present := SkinReader(meshName, archive, version), SkinPresent(meshName, archive);
    assert forall s, m :: step(s, m) == SkinStep(meshName, archive, version, s, m);
    ViewLoopAll(step, present, num, st, 0);
    ViewLoopMissing(step, present, num, st, 0);
    ViewLoopHangs(step, present, num, st, 0);
  }

  /** The skin loop stops at a view whose .skin file is missing. */
  lemma SkinsFromMiss(meshName: string, archive: map<string, seq<byte>>, num: nat, version: nat, st: ViewState, n: nat)
    requires n < num && n < TWO16 && SkinStep(meshName, archive, version, st, n).None?
    ensures SkinsFrom(meshName, archive, num, version, st, n) == Done(SkinMissing(st, n))
  {
    assert SkinReader(meshName, archive, version)(st, n) == SkinStep(meshName, archive, version, st, n);
  }

  /** The skin loop goes on with the state one skin leaves. */
  lemma SkinsFromNext(meshName: string, archive: map<string, seq<byte>>, num: nat, version: nat, st: ViewState, n: nat, st': ViewState)
    requires n < num && n < TWO16 && SkinStep(meshName, archive, version, st, n) == Some(st')
    ensures SkinsFrom(meshName, archive, num, version, st, n) == SkinsFrom(meshName, archive, num, version, st', n + 1)
  {
    assert SkinReader(meshName, archive, version)(st, n) == SkinStep(meshName, archive, version, st, n);
  }

  /** One skin of the loop in load: SkinStep. */
  method ReadSkin(meshName: string, archive: map<string, seq<byte>>, version: nat, st: ViewState, n: nat) returns (r: Option<ViewState>)
    ensures r == SkinStep(meshName, archive, version, st, n)
  {
    var name := SkinName(meshName, n);
    if name !in archive {
      return None;
    }
    var (got, g) := Read(Seek(Src(archive[name], 0), 4), ModelViewSize);
    var view := Overlay(st.view, got);
    var skin, _ := ReadViewTables(g, DecodeModelView(view), version);
    return Some(ViewState(view, st.skins + [skin]));
  }

  /** The skin loop of load, with its u16 index. */
  method ReadSkins(meshName: string, archive: map<string, seq<byte>>, num: nat, version: nat, st0: ViewState) returns (r: Outcome<SkinsResult>)
    ensures r == SkinsFrom(meshName, archive, num, version, st0, 0)
  {
    var st := st0;
    var n := 0;
    while n < num
      invariant n < TWO16
      invariant SkinsFrom(meshName, archive, num, version, st0, 0) == SkinsFrom(meshName, archive, num, version, st, n)
      decreases TWO16 - n
    {
      var next := ReadSkin(meshName, archive, version, st, n);
      if next.None? {
        SkinsFromMiss(meshName, archive, num, version, st, n);
        return Done(SkinMissing(st, n));
      }
      SkinsFromNext(meshName, archive, num, version, st, n, next.value);
      st := next.value;
      if n == TWO16 - 1 {
        return Undefined;
      }
      n := n + 1;
    }
    return Done(AllSkins(st));
  }

  // ---------------------------------------------------------------------
  // The whole first part of load.

  /** What load has read when it reaches ReadVertices, or why it stopped before. */
  datatype HeadRead = HeadRead(ok: bool, header: seq<byte>, st: ViewState, mesh: Src)

  /**
    The 20-byte prefix; then, by version, the rest of the header and the
    views: a legacy model has one view, at the header's view offset of the
    model file itself; a 0x108 model one per .skin file. An unknown version,
    or a missing .skin file, stops load with false.
  */
  function HeadAndViews(mesh: Src, hdr: seq<byte>, st: ViewState, meshName: string, archive: map<string, seq<byte>>): (r: Outcome<HeadRead>)
    requires |hdr| == HeaderSize
    ensures r.Done? ==> |r.value.header| == HeaderSize
  {
    var (h0, f0) := ReadOver(mesh, hdr, HeaderPrefixSize);
    var version := DecodeHeader(h0).version;
    if !KnownVersion(version) then Done(HeadRead(false, h0, st, f0))
    else
      var (h1, f1) := HeaderRest(f0, h0, version);
      var header := DecodeHeader(h1);
      if version == 0x108 then
        match SkinsFrom(meshName, archive, header.Views.num, version, st, 0)
        case Undefined => Undefined
        case Done(AllSkins(st')) => Done(HeadRead(true, h1, st', f1))
        case Done(SkinMissing(st', _)) => Done(HeadRead(false, h1, st', f1))
      else
        var (got, f2) := Read(Seek(f1, header.Views.ofs), ModelViewSize);
        var view := Overlay(st.view, got);
        var (skin, f3) := ViewData(f2, DecodeModelView(view), version);
        Done(HeadRead(true, h1, ViewState(view, st.skins + [skin]), f3))
  }

  /**
    load rejects exactly the versions it does not know, and then reads
    nothing past the prefix and appends no view.
  */
  lemma HeadAndViewsVersions(mesh: Src, hdr: seq<byte>, st: ViewState, meshName: string, archive: map<string, seq<byte>>)
    requires |hdr| == HeaderSize
    ensures var (h0, f0) := ReadOver(mesh, hdr, HeaderPrefixSize);
      var r := HeadAndViews(mesh, hdr, st, meshName, archive);
      (!KnownVersion(DecodeHeader(h0).version) ==> r == Done(HeadRead(false, h0, st, f0))) &&
      (KnownVersion(DecodeHeader(h0).version) && DecodeHeader(h0).version != 0x108 ==>
        r.Done? && r.value.ok && |r.value.st.skins| == |st.skins| + 1 && r.value.st.skins[..|st.skins|] == st.skins)
  {
  }

  /** Versions 0x101 to 0x103 are among those load rejects. */
  lemma Versions101To103Rejected(v: nat)
    requires 0x101 <= v <= 0x103
    ensures !KnownVersion(v)
  {
  }

  /** The first part of load, on the loader's header, view struct and skin list. */
  method ReadHeadAndViews(mesh: Src, hdr: seq<byte>, st: ViewState, meshName: string, archive: map<string, seq<byte>>) returns (r: Outcome<HeadRead>)
    requires |hdr| == HeaderSize
    ensures r == HeadAndViews(mesh, hdr, st, meshName, archive)
  {
    var (h0, f0) := ReadOver(mesh, hdr, HeaderPrefixSize);
    var version := DecodeHeader(h0).version;
    if !KnownVersion(version) {
      return Done(HeadRead(false, h0, st, f0));
    }
    var (h1, f1) := HeaderRest(f0, h0, version);
    var header := DecodeHeader(h1);
    if version == 0x108 {
      var s := ReadSkins(meshName, archive, header.Views.num, version, st);
      match s
      case Undefined => r := Undefined;
      case Done(AllSkins(st')) => r := Done(HeadRead(true, h1, st', f1));
      case Done(SkinMissing(st', _)) => r := Done(HeadRead(false, h1, st', f1));
    } else {
      var (got, f2) := Read(Seek(f1, header.Views.ofs), ModelViewSize);
      var view := Overlay(st.view, got);
      var skin, f3 := ReadViewTables(f2, DecodeModelView(view), version);
      r := Done(HeadRead(true, h1, ViewState(view, st.skins + [skin]), f3));
    }
  }
}
