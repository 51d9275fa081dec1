/**
  MemoryDataHolder: the shared cache of file contents. The Make*Filename
  builders say where a map tile, a map's WDT or a model lives, in an MPQ
  archive or under ./data; GetFile, BackgroundLoadFile and Delete keep a
  reference count per name beside the cached blocks and the loaders still
  working on a name.
*/
module MemoryDataHolder {
  import opened Wrappers
  import opened Bytes
  import opened Decimal

  // ---------------------------------------------------------------------
  // File names (cpp:65-101)

  /** The (uint16) cast the builders apply to map ids and tile coordinates. */
  function U16(n: nat): (r: nat)
    ensures r < 65536
    ensures n < 65536 ==> r == n
  {
    n % 65536
  }

  /** The "%u_%u.adt" tail both map-tile formats end with. */
  function TileTail(x: nat, y: nat): string
  {
    NatToString(U16(x)) + "_" + NatToString(U16(y)) + ".adt"
  }

  /** MakeMapFilename: where the tile (x, y) of a map is read from. */
  function MapFilename(fromMpq: bool, mid: nat, mname: string, x: nat, y: nat): string
  {
    if fromMpq then "World\\Maps\\" + CPath(mname) + "\\" + CPath(mname) + "_" + TileTail(x, y)
    else "./data/maps/" + NatToString(U16(mid)) + "_" + TileTail(x, y)
  }

  /** MakeWDTFilename: where a map's WDT file is read from. */
  function WdtFilename(fromMpq: bool, mid: nat, mname: string): string
  {
    if fromMpq then "World\\Maps\\" + CPath(mname) + "\\" + CPath(mname) + ".wdt"
    else "./data/maps/" + NatToString(U16(mid)) + ".wdt"
  }

  /** `pat` starts at position `i` of `s`. */
  predicate OccursAt(s: string, pat: string, i: nat)
  {
    i + |pat| <= |s| && s[i..i + |pat|] == pat
  }

  /** std::string::find(pat) != npos. */
  predicate Contains(s: string, pat: string)
  {
    exists i: nat | i <= |s| :: OccursAt(s, pat, i)
  }

  /**
    The name MakeModelFilename formats: when ".mdx" occurs anywhere in it,
    its last three characters give way to "m2".
  */
  function ModelName(fname: string): string
  {
    if Contains(fname, ".mdx") then fname[..|fname| - 3] + "m2" else fname
  }

  /**
    MakeModelFilename. On the local branch the normalised file name the
    builder computes is thrown away, so the "%s" formats the whole name.
  */
  function ModelFilename(fromMpq: bool, fname: string): string
  {
    if fromMpq then CPath(ModelName(fname)) else "./data/model/" + CPath(ModelName(fname))
  }

  /** No decimal rendering holds the separator '_'. */
  lemma NoSeparatorInDigits(n: nat)
    ensures '_' !in NatToString(n)
  {
    NatToStringShape(n);
    var s := NatToString(n);
    forall i | 0 <= i < |s|
      ensures s[i] != '_'
    {
      assert IsDigit(s[i]);
    }
  }

  /** Where the separator follows the shorter head, the longer head has a character. */
  lemma SeparatorAt(a: string, b: string, c: string, d: string, sep: char, i: nat)
    requires i == |a| < |c|
    ensures (a + [sep] + b)[i] == sep
    ensures (c + [sep] + d)[i] == c[i]
  {
  }

  /** Cutting two strings at the first occurrence of a separator. */
  lemma SplitAtSeparator(a: string, b: string, c: string, d: string, sep: char)
    requires sep !in a && sep !in c
    requires a + [sep] + b == c + [sep] + d
    ensures a == c && b == d
  {
    var l := a + [sep] + b;
    var r := c + [sep] + d;
    if |a| < |c| {
      SeparatorAt(a, b, c, d, sep, |a|);
      assert false;
    } else if |c| < |a| {
      SeparatorAt(c, d, a, b, sep, |c|);
      assert false;
    }
    assert a == l[..|a|];
    assert c == r[..|c|];
    assert b == l[|a| + 1..];
    assert d == r[|c| + 1..];
  }

  /** Two tile tails are equal exactly when the truncated coordinates are. */
  lemma {:induction false} TileTailInjective(x: nat, y: nat, x': nat, y': nat)
    ensures TileTail(x, y) == TileTail(x', y') <==> U16(x) == U16(x') && U16(y) == U16(y')
  {
    if TileTail(x, y) == TileTail(x', y') {
      var a, b := NatToString(U16(x)), NatToString(U16(y));
      var c, d := NatToString(U16(x')), NatToString(U16(y'));
      NoSeparatorInDigits(U16(x));
      NoSeparatorInDigits(U16(x'));
      assert TileTail(x, y) == a + ['_'] + (b + ".adt");
      assert TileTail(x', y') == c + ['_'] + (d + ".adt");
      SplitAtSeparator(a, b + ".adt", c, d + ".adt", '_');
      assert b == (b + ".adt")[..|b|];
      assert d == (d + ".adt")[..|d|];
      NatToStringInjective(U16(x), U16(x'));
      NatToStringInjective(U16(y), U16(y'));
    }
  }

  /**
    Local map-tile names: two names are equal exactly when the truncated
    map ids and coordinates are; in the MPQ the same holds for the tiles
    of one map.
  */
  lemma {:induction false} MapFilenamesDiffer(fromMpq: bool, mid: nat, mid': nat, mname: string, x: nat, y: nat, x': nat, y': nat)
    ensures MapFilename(fromMpq, mid, mname, x, y) == MapFilename(fromMpq, mid', mname, x', y') <==>
      (fromMpq || U16(mid) == U16(mid')) && U16(x) == U16(x') && U16(y) == U16(y')
  {
    TileTailInjective(x, y, x', y');
    if MapFilename(fromMpq, mid, mname, x, y) == MapFilename(fromMpq, mid', mname, x', y') {
      if fromMpq {
        MpqTileNamesAgree(mid, mid', mname, x, y, x', y');
      } else {
        LocalTileNamesAgree(mid, mid', mname, x, y, x', y');
      }
    }
  }

  /** Equal MPQ tile names of one map have equal tails. */
  lemma MpqTileNamesAgree(mid: nat, mid': nat, mname: string, x: nat, y: nat, x': nat, y': nat)
    requires MapFilename(true, mid, mname, x, y) == MapFilename(true, mid', mname, x', y')
    ensures TileTail(x, y) == TileTail(x', y')
  {
    var p := "World\\Maps\\" + CPath(mname) + "\\" + CPath(mname) + "_";
    CancelPrefix(p, TileTail(x, y), TileTail(x', y'));
  }

  /** Equal local tile names have equal truncated map ids and equal tails. */
  lemma LocalTileNamesAgree(mid: nat, mid': nat, mname: string, x: nat, y: nat, x': nat, y': nat)
    requires MapFilename(false, mid, mname, x, y) == MapFilename(false, mid', mname, x', y')
    ensures U16(mid) == U16(mid') && TileTail(x, y) == TileTail(x', y')
  {
    var m, m' := NatToString(U16(mid)), NatToString(U16(mid'));
    LocalTileNameShape(mid, mname, x, y);
    LocalTileNameShape(mid', mname, x', y');
    CancelPrefix("./data/maps/", m + ['_'] + TileTail(x, y), m' + ['_'] + TileTail(x', y'));
    NoSeparatorInDigits(U16(mid));
    NoSeparatorInDigits(U16(mid'));
    SplitAtSeparator(m, TileTail(x, y), m', TileTail(x', y'), '_');
    NatToStringInjective(U16(mid), U16(mid'));
  }

  /** A local tile name is the directory, then the map id, '_' and the tile's tail. */
  lemma LocalTileNameShape(mid: nat, mname: string, x: nat, y: nat)
    ensures MapFilename(false, mid, mname, x, y) == "./data/maps/" + (NatToString(U16(mid)) + ['_'] + TileTail(x, y))
  {
  }

  /** Local WDT names are equal exactly when the truncated map ids are. */
  lemma WdtFilenamesDiffer(mid: nat, mid': nat, mname: string)
    ensures WdtFilename(false, mid, mname) == WdtFilename(false, mid', mname) <==> U16(mid) == U16(mid')
  {
    var m, m' := NatToString(U16(mid)), NatToString(U16(mid'));
    if WdtFilename(false, mid, mname) == WdtFilename(false, mid', mname) {
      assert WdtFilename(false, mid, mname) == "./data/maps/" + (m + ".wdt");
      assert WdtFilename(false, mid', mname) == "./data/maps/" + (m' + ".wdt");
      CancelPrefix("./data/maps/", m + ".wdt", m' + ".wdt");
      assert m == (m + ".wdt")[..|m|];
      assert m' == (m' + ".wdt")[..|m'|];
      NatToStringInjective(U16(mid), U16(mid'));
    }
  }

  /** The last four characters of a string. */
  function Extension(s: string): string
  {
    if |s| < 4 then s else s[|s| - 4..]
  }

  /** A WDT name ends in ".wdt", a tile name in ".adt": no WDT name is a tile name. */
  lemma WdtIsNoTile(fromMpq: bool, mid: nat, mname: string, mid': nat, x: nat, y: nat)
    ensures Extension(WdtFilename(fromMpq, mid, mname)) == ".wdt"
    ensures Extension(MapFilename(fromMpq, mid', mname, x, y)) == ".adt"
    ensures WdtFilename(fromMpq, mid, mname) != MapFilename(fromMpq, mid', mname, x, y)
  {
    var w := WdtFilename(fromMpq, mid, mname);
    var t := MapFilename(fromMpq, mid', mname, x, y);
    var tail := NatToString(U16(y)) + ".adt";
    assert TileTail(x, y) == NatToString(U16(x)) + "_" + tail;
    assert Extension(tail) == ".adt";
    assert t[|t| - 4..] == tail[|tail| - 4..];
    assert w[|w| - 4..] == ".wdt";
  }

  /** A name ending in ".mdx" becomes the same name ending in ".m2". */
  lemma MdxBecomesM2(stem: string)
    ensures ModelName(stem + ".mdx") == stem + ".m2"
  {
    var f := stem + ".mdx";
    assert OccursAt(f, ".mdx", |stem|);
    assert f[..|f| - 3] == stem + ".";
  }

  /** The builder rewrites a name exactly when ".mdx" occurs in it, wherever that is. */
  lemma ModelNameChanges(fname: string)
    ensures ModelName(fname) != fname <==> Contains(fname, ".mdx")
    ensures Contains(fname, ".mdx") ==> |ModelName(fname)| == |fname| - 1
  {
    if Contains(fname, ".mdx") {
      var i: nat :| i <= |fname| && OccursAt(fname, ".mdx", i);
      assert |ModelName(fname)| == |fname| - 1;
    }
  }

  /** ".mdx" in the middle of a name still costs its last three characters. */
  lemma ModelNameInnerMdx()
    ensures ModelName("a.mdx.blp") == "a.mdx.m2"
  {
    assert OccursAt("a.mdx.blp", ".mdx", 1);
    var f := "a.mdx.blp";
    assert Contains(f, ".mdx");
    assert ModelName(f) == f[..6] + "m2";
  }

  /** The MPQ name is the rewritten name; the local one sits under ./data/model/. */
  lemma ModelFilenameShape(fname: string)
    requires '\0' !in fname
    ensures ModelFilename(true, fname) == ModelName(fname)
    ensures ModelFilename(false, fname) == "./data/model/" + ModelName(fname)
  {
    ModelNameChanges(fname);
    var m := ModelName(fname);
    assert '\0' !in m by {
      if Contains(fname, ".mdx") {
        assert m == fname[..|fname| - 3] + "m2";
      }
    }
    CPathWhole(m);
  }

  /**
    MakeWMOFilename. As in MakeModelFilename, the local branch normalises a
    temporary and throws it away, so the "%s" formats the whole name, here
    under ./data/wmos/; there is no .mdx rewrite.
  */
  function WmoFilename(fromMpq: bool, fname: string): string
  {
    if fromMpq then CPath(fname) else "./data/wmos/" + CPath(fname)
  }

  /** A NUL-free WMO name is used as it is from the MPQ, and under ./data/wmos/ locally. */
  lemma WmoFilenameShape(fname: string)
    requires '\0' !in fname
    ensures WmoFilename(true, fname) == fname
    ensures WmoFilename(false, fname) == "./data/wmos/" + fname
  {
    CPathWhole(fname);
  }

  /** Distinct NUL-free WMO names give distinct file names, on either branch. */
  lemma WmoFilenamesDiffer(fromMpq: bool, a: string, b: string)
    requires '\0' !in a && '\0' !in b
    ensures WmoFilename(fromMpq, a) == WmoFilename(fromMpq, b) <==> a == b
  {
    WmoFilenameShape(a);
    WmoFilenameShape(b);
    if !fromMpq && WmoFilename(false, a) == WmoFilename(false, b) {
      CancelPrefix("./data/wmos/", a, b);
    }
  }

  /**
    MakeTextureFilename. NormalizeFilename takes its argument by value and
    its result is dropped here too, so the local branch formats the name
    as given, under ./data/textures/.
  */
  function TextureFilename(fromMpq: bool, fname: string): string
  {
    if fromMpq then CPath(fname) else "./data/textures/" + CPath(fname)
  }

  /**
    A NUL-free texture name is used as it is from the MPQ and under
    ./data/textures/ locally; with its terminating NUL it overflows the
    loaders' 1000-byte buffers from 1000 bytes on from the MPQ and from
    984 bytes on locally.
  */
  lemma TextureFilenameShape(fromMpq: bool, fname: string)
    requires '\0' !in fname
    ensures TextureFilename(fromMpq, fname) == if fromMpq then fname else "./data/textures/" + fname
    ensures |TextureFilename(fromMpq, fname)| + 1 > 1000 <==> |fname| >= if fromMpq then 1000 else 984
  {
    CPathWhole(fname);
  }

  // ---------------------------------------------------------------------
  // Reference counts (cpp:277-291, 365-393)

  /** The count GetFile leaves: a new name starts at 1 or 0, a known one grows by one only when counted. */
  function CountAfterGet(refs: map<string, nat>, s: string, counted: bool): (r: map<string, nat>)
    ensures s in r && r.Keys == refs.Keys + {s}
  {
    if s !in refs then refs[s := if counted then 1 else 0]
    else if counted then refs[s := WrapU32(refs[s] + 1)]
    else refs
  }

  /** The count Delete leaves: one less, never below zero, and the entry gone at zero. */
  function CountAfterDelete(refs: map<string, nat>, s: string): (r: map<string, nat>)
    ensures r.Keys <= refs.Keys
  {
    if s !in refs then refs
    else
      var c := if refs[s] > 0 then refs[s] - 1 else 0;
      if c == 0 then refs - {s} else refs[s := c]
  }

  /** Every count fits the uint32 it is stored in. */
  ghost predicate CountsFit(refs: map<string, nat>)
  {
    forall n | n in refs :: refs[n] < TWO32
  }

  /** GetFile's bookkeeping touches only its own name's count, which stays a uint32. */
  lemma GetCounts(refs: map<string, nat>, s: string, counted: bool)
    requires CountsFit(refs)
    ensures CountsFit(CountAfterGet(refs, s, counted))
    ensures forall n | n in refs && n != s :: CountAfterGet(refs, s, counted)[n] == refs[n]
    ensures s !in refs ==> CountAfterGet(refs, s, counted)[s] == (if counted then 1 else 0)
    ensures s in refs && counted && refs[s] + 1 < TWO32 ==> CountAfterGet(refs, s, counted)[s] == refs[s] + 1
    ensures s in refs && !counted ==> CountAfterGet(refs, s, counted)[s] == refs[s]
  {
    if s in refs && counted {

    }
  }

  /** A background load never raises a count; on a new name it leaves a zero. */
  lemma BackgroundNeverCounts(refs: map<string, nat>, s: string)
    ensures CountAfterGet(refs, s, false) == if s in refs then refs else refs[s := 0]
  {
  }

  /** Delete lowers only its own name's count and drops the entry when that reaches zero. */
  lemma DeleteCounts(refs: map<string, nat>, s: string)
    requires CountsFit(refs)
    ensures CountsFit(CountAfterDelete(refs, s))
    ensures forall n | n in refs && n != s :: n in CountAfterDelete(refs, s) && CountAfterDelete(refs, s)[n] == refs[n]
    ensures s in CountAfterDelete(refs, s) <==> s in refs && refs[s] > 1
    ensures s in CountAfterDelete(refs, s) ==> CountAfterDelete(refs, s)[s] == refs[s] - 1
  {
  }

  /**
    A counted GetFile followed by Delete gives the counts back, except that
    a name whose count was zero is forgotten; a background load followed
    by Delete is a Delete alone.
  */
  lemma DeleteUndoesGet(refs: map<string, nat>, s: string)
    requires CountsFit(refs)
    requires s in refs ==> refs[s] + 1 < TWO32
    ensures CountAfterDelete(CountAfterGet(refs, s, true), s) ==
      if s in refs && refs[s] > 0 then refs else refs - {s}
    ensures CountAfterDelete(CountAfterGet(refs, s, false), s) ==
      if s in refs then CountAfterDelete(refs, s) else refs
  {
    if s in refs {

      if refs[s] > 0 {
        assert CountAfterGet(refs, s, true)[s := refs[s]] == refs;
      }
    } else {
      assert refs[s := 1] - {s} == refs;
      assert refs[s := 0] - {s} == refs;
    }
  }

  // ---------------------------------------------------------------------
  // The holder (cpp:14-23, 41-63, 266-393)

  /** The flags of a MemoryDataResult and of a callback. */
  datatype Flag = FileOk | AlreadyExist | JustLoaded | Loading | FileError

  /** A callback registered with a loader: its function, its argument and its condition, each possibly NULL. */
  datatype Waiter = Waiter(func: Option<nat>, ptr: Option<nat>, cond: Option<nat>)

  /** MemoryDataResult: a copy of the block (empty while loading) and the flags. */
  datatype DataResult = DataResult(data: seq<byte>, flags: set<Flag>)

  class DataHolder {
    /** The loaded blocks by name. */
    var Storage: map<string, seq<byte>>
    /** The threaded loaders still at work, with the callbacks each will call. */
    var Loaders: map<string, seq<Waiter>>
    /** The reference count of every name asked for. */
    var Refs: map<string, nat>
    var AlwaysSingleThreaded: bool
    var LoadFromMpq: bool

    /** Counts are uint32s, and a name is loaded or being loaded, never both. */
    ghost predicate Valid()
      reads this
    {
      CountsFit(Refs) &&
      forall n | n in Loaders :: n !in Storage
    }

    constructor ()
      ensures Valid()
      ensures Storage == map[] && Loaders == map[] && Refs == map[]
      ensures !AlwaysSingleThreaded && !LoadFromMpq
    {
      Storage := map[];
      Loaders := map[];
      Refs := map[];
      AlwaysSingleThreaded := false;
      LoadFromMpq := false;
    }

    /** SetThreadCount: no threads means every load runs on the caller's thread. */
    method SetThreadCount(t: nat)
      modifies this`AlwaysSingleThreaded
      ensures AlwaysSingleThreaded <==> t == 0
    {
      AlwaysSingleThreaded := t == 0;
    }

    /** SetUseMPQ: from now on files come from the MPQ archives. */
    method SetUseMpq()
      modifies this`LoadFromMpq
      ensures LoadFromMpq
    {
      LoadFromMpq := true;
    }

    /** IsLoaded. */
    predicate IsLoaded(s: string)
      reads this
    {
      s in Storage
    }

    /**
      GetFile. `loaded` is what reading the file yields when this call reads
      it on its own thread: its contents, or None when the file cannot be
      read or is empty.
    */
    method GetFile(s: string, threaded: bool, w: Waiter, counted: bool, loaded: Option<seq<byte>>) returns (r: DataResult)
      requires Valid()
      modifies this`Refs, this`Storage, this`Loaders
      ensures Valid()
      ensures Refs == CountAfterGet(old(Refs), s, counted)
      ensures s in old(Storage) ==>
        r == DataResult(old(Storage)[s], {FileOk, AlreadyExist}) &&
        Storage == old(Storage) && Loaders == old(Loaders)
      ensures s !in old(Storage) && s in old(Loaders) ==>
        r == DataResult([], {Loading}) && Storage == old(Storage) &&
        Loaders == old(Loaders)[s := old(Loaders)[s] + [w]]
      ensures s !in old(Storage) && s !in old(Loaders) && threaded && !AlwaysSingleThreaded ==>
        r == DataResult([], {Loading}) && Storage == old(Storage) &&
        Loaders == old(Loaders)[s := [w]]
      ensures s !in old(Storage) && s !in old(Loaders) && (!threaded || AlwaysSingleThreaded) ==>
        Loaders == old(Loaders) &&
        Storage == (if loaded.Some? then old(Storage)[s := loaded.value] else old(Storage)) &&
        r.flags == (if s in Storage then {JustLoaded, FileOk} else {JustLoaded}) &&
        r.data == (if s in Storage then Storage[s] else [])
    {
      var threads := threaded && !AlwaysSingleThreaded;
      GetCounts(Refs, s, counted);
      Refs := CountAfterGet(Refs, s, counted);
      if s in Storage {
        r := DataResult(Storage[s], {FileOk, AlreadyExist});
      } else if s !in Loaders {
        if threads {
          Loaders := Loaders[s := [w]];
          r := DataResult([], {Loading});
        } else {
          var _ := Run(s, loaded, [w]);
          if s in Storage {
            r := DataResult(Storage[s], {JustLoaded, FileOk});
          } else {
            r := DataResult([], {JustLoaded});
          }
        }
      } else {
        Loaders := Loaders[s := Loaders[s] + [w]];
        r := DataResult([], {Loading});
      }
    }

    /**
      DataLoaderRunnable::run for the name `s` and its callbacks: the block
      is stored on success, the loader is unlinked either way, and every
      callback is then called with the returned flags.
    */
    method Run(s: string, loaded: Option<seq<byte>>, waiters: seq<Waiter>) returns (flags: set<Flag>)
      requires CountsFit(Refs) && s !in Storage
      requires forall n | n in Loaders && n != s :: n !in Storage
      modifies this`Storage, this`Loaders
      ensures Valid()
      ensures Loaders == old(Loaders) - {s}
      ensures Storage == if loaded.Some? then old(Storage)[s := loaded.value] else old(Storage)
      ensures flags == if loaded.Some? then {FileOk, JustLoaded} else {FileError}
    {
      if loaded.Some? {
        Storage := Storage[s := loaded.value];
        flags := {FileOk, JustLoaded};
      } else {
        flags := {FileError};
      }
      Loaders := Loaders - {s};
    }

    /** A threaded loader finishing: run with the callbacks its name collected. */
    method Finish(s: string, loaded: Option<seq<byte>>) returns (waiters: seq<Waiter>, flags: set<Flag>)
      requires Valid() && s in Loaders
      modifies this`Storage, this`Loaders
      ensures Valid()
      ensures waiters == old(Loaders)[s]
      ensures Loaders == old(Loaders) - {s}
      ensures s in Storage <==> loaded.Some?
      ensures Storage == if loaded.Some? then old(Storage)[s := loaded.value] else old(Storage)
      ensures flags == if loaded.Some? then {FileOk, JustLoaded} else {FileError}
    {
      waiters := Loaders[s];
      flags := Run(s, loaded, waiters);
    }

    /**
      BackgroundLoadFile: a threaded GetFile with no callback that leaves the
      count alone. A stored file stays as it is; a running loader gains a
      null callback; otherwise a loader starts, or, with no threads, the file
      is read on the caller's thread and stored exactly when it loads.
    */
    method BackgroundLoadFile(s: string, loaded: Option<seq<byte>>)
      requires Valid()
      modifies this`Refs, this`Storage, this`Loaders
      ensures Valid()
      ensures Refs == if s in old(Refs) then old(Refs) else old(Refs)[s := 0]
      ensures s in old(Storage) ==> Storage == old(Storage) && Loaders == old(Loaders)
      ensures s !in old(Storage) && s in old(Loaders) ==>
        Storage == old(Storage) && Loaders == old(Loaders)[s := old(Loaders)[s] + [Waiter(None, None, None)]]
      ensures s !in old(Storage) && s !in old(Loaders) && !AlwaysSingleThreaded ==>
        Storage == old(Storage) && Loaders == old(Loaders)[s := [Waiter(None, None, None)]]
      ensures s !in old(Storage) && s !in old(Loaders) && AlwaysSingleThreaded ==>
        Loaders == old(Loaders) &&
        Storage == (if loaded.Some? then old(Storage)[s := loaded.value] else old(Storage))
    {
      BackgroundNeverCounts(Refs, s);
      var _ := GetFile(s, true, Waiter(None, None, None), false, loaded);
    }

    /**
      Delete: false for a name never asked for. Otherwise the count drops
      by one (not below zero); at zero the name is forgotten and its block
      freed, and the result says whether there was a block.
    */
    method Delete(s: string) returns (ok: bool)
      requires Valid()
      modifies this`Refs, this`Storage
      ensures Valid()
      ensures Refs == CountAfterDelete(old(Refs), s)
      ensures s !in old(Refs) ==> !ok && Storage == old(Storage)
      ensures s in Refs ==> ok && Storage == old(Storage)
      ensures s in old(Refs) && s !in Refs ==> ok == (s in old(Storage)) && Storage == old(Storage) - {s}
    {
      if s !in Refs {
        return false;
      }
      DeleteCounts(Refs, s);
      Refs := CountAfterDelete(Refs, s);
      if s !in Refs {
        if s in Storage {
          Storage := Storage - {s};
          ok := true;
        } else {
          ok := false;
        }
      } else {
        ok := true;
      }
    }
  }
}
