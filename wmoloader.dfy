/**
  CWMOMeshFileLoader: the loader object, whose member vectors and root
  header persist from one load to the next, its load (the chunk loop, then
  for a group file the group's mesh buffers), and createMesh, which loads
  the root file and then every group file it names.
*/
module WmoLoader {
  import opened Wrappers
  import opened Bytes
  import opened ByteSource
  import opened M2Geometry
  import opened M2Mesh
  import opened WmoChunks
  import opened WmoGroup
  import opened Decimal

  // ---------------------------------------------------------------------
  // One load (cpp:89-345)

  /** What one call of load leaves: its result, the file's cursor, the tables and the buffers it added. */
  datatype Loaded = Loaded(ok: bool, file: Src, tables: WmoTables, added: seq<MeshBuffer>)

  /**
    load(root) on file f with the loader's tables t: the chunk loop; a chunk
    of the wrong kind of file returns false at once; a root file returns
    true after its last chunk; a group file then adds its buffers and clears
    its geometry before returning true.
  */
  function LoadOf(f: Src, t: WmoTables, root: bool, textures: set<string>): (r: Outcome<Loaded>)
    requires f.pos <= |f.data| && t.Sized()
    ensures r.Done? ==> r.value.tables.Sized() && r.value.file.data == f.data && r.value.file.pos <= |f.data|
    ensures r.Done? && r.value.ok ==> r.value.file.pos == |f.data|
    ensures r.Done? && (root || !r.value.ok) ==> r.value.added == []
    ensures r.Done? && !root && r.value.ok ==>
      r.value.tables.indices == [] && r.value.tables.vertices == [] && r.value.tables.normals == [] &&
      r.value.tables.texcoords == [] && r.value.tables.colors == []
  {
    match Chunks(Start(f), t, root)
    case Undefined => Undefined
    case Done((more, c, t')) =>
      if !more then Done(Loaded(false, c.file, t', []))
      else if root then Done(Loaded(true, c.file, t', []))
      else match GroupOf(t', textures)
        case Undefined => Undefined
        case Done(bs) => Done(Loaded(true, c.file, Cleared(t'), bs))
  }

  // ---------------------------------------------------------------------
  // Group file names (cpp:50-63)

  /**
    The name without its last four characters; a name shorter than four
    keeps all of them, since length()-4 wraps round and substr takes the
    whole string.
  */
  function GroupStem(path: string): (r: string)
    ensures '\0' !in r
  {
    var name := CPath(path);
    if |name| >= 4 then name[..|name| - 4] else name
  }

  /** sprintf("%s_%03u.wmo"): the name of group file i. */
  function GroupFileName(path: string, i: nat): string
  {
    GroupStem(path) + "_" + PadDecimal(i, 3) + ".wmo"
  }

  /** The buffer grpfilename holds 255 characters with the terminating NUL. */
  const GroupNameBuffer := 255

  /**
    The name of group i is the stem, an underscore, i with at least three
    digits, and ".wmo"; the digits read back as i, and below 1000 they are
    exactly three.
  */
  lemma GroupFileNameShape(path: string, i: nat)
    ensures var digits := PadDecimal(i, 3);
      GroupFileName(path, i) == GroupStem(path) + "_" + digits + ".wmo" &&
      AllDigits(digits) && ParseDecimal(digits) == i && |digits| >= 3 &&
      (i < 1000 <==> |digits| == 3)
  {
    ParsePadDecimal(i, 3);
    NatToStringShape(i);
    if i < 1000 {
      assert Pow10(3) == 1000;
      NatToStringLength(i, 3);
    } else {
      assert Pow10(3) == 1000;
      NatToStringLong(i, 3);
    }
  }

  /** Different groups are read from different files. */
  lemma GroupFileNamesDiffer(path: string, m: nat, n: nat)
    requires m != n
    ensures GroupFileName(path, m) != GroupFileName(path, n)
  {
    GroupFileNameShape(path, m);
    GroupFileNameShape(path, n);
    var a, b := PadDecimal(m, 3), PadDecimal(n, 3);
    var s := GroupStem(path) + "_";
    assert GroupFileName(path, m) == s + a + ".wmo";
    assert GroupFileName(path, n) == s + b + ".wmo";
    if |a| == |b| {
      assert a != b;
      var k :| 0 <= k < |a| && a[k] != b[k];
      assert (s + a + ".wmo")[|s| + k] == a[k];
      assert (s + b + ".wmo")[|s| + k] == b[k];
    }
  }

  /** Below group 1000 a name fits grpfilename exactly when the stem has at most 246 characters. */
  lemma GroupFileNameFits(path: string, i: nat)
    requires i < 1000
    ensures |GroupFileName(path, i)| + 1 <= GroupNameBuffer <==> |GroupStem(path)| <= 246
  {
    GroupFileNameShape(path, i);
  }

  // ---------------------------------------------------------------------
  // createMesh (cpp:47-86)

  /**
    The group loop from group i on, with the tables t and the buffers added
    so far: None when a group file is missing (createMesh returns 0),
    otherwise the final tables and every buffer added. nGroups is read
    from the root header afresh each time round, and a group file's own
    MOHD chunk overwrites it.
  */
  function GroupsFrom(path: string, i: nat, t: WmoTables, added: seq<MeshBuffer>,
                      archive: map<string, seq<byte>>, textures: set<string>): (r: Outcome<Option<(WmoTables, seq<MeshBuffer>)>>)
    requires t.Sized()
    ensures r.Done? && r.value.Some? ==> r.value.value.0.Sized() && added <= r.value.value.1
    ensures r.Done? && r.value.Some? ==>
      forall j | i <= j < NGroups(r.value.value.0.header) :: GroupFileName(path, j) in archive
    decreases TWO32 - i
  {
    if i >= NGroups(t.header) then Done(Some((t, added)))
    else
      var name := GroupFileName(path, i);
      if |name| + 1 > GroupNameBuffer then Undefined
      else if name !in archive then Done(None)
      else match LoadOf(Src(archive[name], 0), t, false, textures)
        case Undefined => Undefined
        case Done(l) => GroupsFrom(path, i + 1, l.tables, added + l.added, archive, textures)
  }

  /** createMesh: no file gives 0; a root file that loads gives the mesh once every group is in. */
  function CreateOf(file: Option<Src>, path: string, t: WmoTables,
                    archive: map<string, seq<byte>>, textures: set<string>): (r: Outcome<Option<(WmoTables, seq<MeshBuffer>)>>)
    requires t.Sized() && (file.Some? ==> file.value.pos <= |file.value.data|)
  {
    match file
    case None => Done(None)
    case Some(f) =>
      match LoadOf(f, t, true, textures)
      case Undefined => Undefined
      case Done(l) => if !l.ok then Done(None) else GroupsFrom(path, 0, l.tables, l.added, archive, textures)
  }

  /** Buffers added after buffers added are added together. */
  lemma AddedTwice(mesh: CM2Mesh, ids0: seq<nat>, render0: seq<bool>, bufs0: seq<MeshBuffer>, a: seq<MeshBuffer>, b: seq<MeshBuffer>)
    requires GroupAdded(mesh, ids0 + seq(|a|, _ => 0), render0 + seq(|a|, _ => true), bufs0 + a, b)
    ensures GroupAdded(mesh, ids0, render0, bufs0, a + b)
  {
    assert seq(|a|, _ => 0) + seq(|b|, _ => 0) == seq(|a + b|, _ => 0);
    assert seq(|a|, _ => true) + seq(|b|, _ => true) == seq(|a + b|, _ => true);
  }

  // ---------------------------------------------------------------------
  // The loader object

  class WmoMeshLoader {
    /** The files IrrCreateIReadFileBasic can open, by name. */
    const Archive: map<string, seq<byte>>
    /** The texture names the video driver has or can open. */
    const Textures: set<string>

    var Mesh: CM2Mesh?
    var MeshFile: Src
    /** Declared without a value; the model starts it as zeros. */
    var RootHeader: seq<byte>
    var WMOMTexDefinition: seq<Momt>
    var WMOMTextureFiles: seq<string>
    var WMOMTexData: seq<nat>
    var Submeshes: seq<nat>
    var WMOMIndices: seq<nat>
    var WMOMVertices: seq<Vec3>
    var WMOMNormals: seq<Vec3>
    var WMOMTexcoord: seq<Vec2>
    var WMOMVertexColor: seq<seq<byte>>

    constructor (archive: map<string, seq<byte>>, textures: set<string>)
      ensures Archive == archive && Textures == textures && Mesh == null && Valid()
      ensures Tables() == WmoTables(Blank(RootHeaderSize), [], [], [], [], [], [], [], [], [])
    {
      Archive, Textures := archive, textures;
      Mesh := null;
      MeshFile := Src([], 0);
      RootHeader := Blank(RootHeaderSize);
      WMOMTexDefinition, WMOMTextureFiles, WMOMTexData, Submeshes := [], [], [], [];
      WMOMIndices, WMOMVertices, WMOMNormals, WMOMTexcoord, WMOMVertexColor := [], [], [], [], [];
    }

    /** The root header has its size and the cursor lies inside the file. */
    ghost predicate Valid()
      reads this`RootHeader, this`MeshFile
    {
      |RootHeader| == RootHeaderSize && MeshFile.pos <= |MeshFile.data|
    }

    /** The members load reads and writes, as one value. */
    function Tables(): WmoTables
      reads this`RootHeader, this`WMOMTexDefinition, this`WMOMTextureFiles, this`WMOMTexData, this`Submeshes
      reads this`WMOMIndices, this`WMOMVertices, this`WMOMNormals, this`WMOMTexcoord, this`WMOMVertexColor
    {
      WmoTables(RootHeader, WMOMTexDefinition, WMOMTextureFiles, WMOMTexData, Submeshes,
        WMOMIndices, WMOMVertices, WMOMNormals, WMOMTexcoord, WMOMVertexColor)
    }

    /** Sets every member of Tables. */
    method SetTables(t: WmoTables)
      modifies this`RootHeader, this`WMOMTexDefinition, this`WMOMTextureFiles, this`WMOMTexData, this`Submeshes
      modifies this`WMOMIndices, this`WMOMVertices, this`WMOMNormals, this`WMOMTexcoord, this`WMOMVertexColor
      ensures Tables() == t
    {
      RootHeader, WMOMTexDefinition, WMOMTextureFiles, WMOMTexData, Submeshes := t.header, t.defs, t.textureFiles, t.textureIDs, t.submeshes;
      WMOMIndices, WMOMVertices, WMOMNormals, WMOMTexcoord, WMOMVertexColor := t.indices, t.vertices, t.normals, t.texcoords, t.colors;
    }

    /**
      load: the members and the mesh end as LoadOf says, unless the outcome
      is undefined.
    */
    method Load(root: bool) returns (r: Outcome<bool>)
      requires Valid() && Mesh != null && Mesh.Valid()
      modifies this`MeshFile, this`RootHeader, this`WMOMTexDefinition, this`WMOMTextureFiles, this`WMOMTexData, this`Submeshes
      modifies this`WMOMIndices, this`WMOMVertices, this`WMOMNormals, this`WMOMTexcoord, this`WMOMVertexColor
      modifies Mesh`GeoSetID, Mesh`GeoSetRender, Mesh`Buffers
      ensures var spec := old(LoadOf(MeshFile, Tables(), root, Textures));
        r.Done? == spec.Done? &&
        (r.Done? ==>
           r.value == spec.value.ok && MeshFile == spec.value.file && Tables() == spec.value.tables &&
           Valid() && Mesh.Valid() &&
           GroupAdded(Mesh, old(Mesh.GeoSetID), old(Mesh.GeoSetRender), old(Mesh.Buffers), spec.value.added))
    {
      var s := ReadChunks(Start(MeshFile), Tables(), root);
      if s.Undefined? {
        return Undefined;
      }
      var (more, c, t) := s.value;
      MeshFile := c.file;
      if !more || root {
        SetTables(t);
        return Done(more);
      }
      var ok := AssembleGroup(Mesh, t, Textures);
      if !ok {
        return Undefined;
      }
      SetTables(Cleared(t));
      r := Done(true);
    }

    /**
      One pass of the group loop: group i's name, then its load. Done(false)
      is a missing file; Done(true) leaves what LoadOf says.
    */
    method LoadGroup(path: string, i: nat) returns (r: Outcome<bool>)
      requires Valid() && Mesh != null && Mesh.Valid()
      modifies this`MeshFile, this`RootHeader, this`WMOMTexDefinition, this`WMOMTextureFiles, this`WMOMTexData, this`Submeshes
      modifies this`WMOMIndices, this`WMOMVertices, this`WMOMNormals, this`WMOMTexcoord, this`WMOMVertexColor
      modifies Mesh`GeoSetID, Mesh`GeoSetRender, Mesh`Buffers
      ensures var name := GroupFileName(path, i);
        (r.Done? <==>
           |name| + 1 <= GroupNameBuffer &&
           (name in Archive ==> old(LoadOf(Src(Archive[name], 0), Tables(), false, Textures)).Done?)) &&
        (r == Done(false) <==> |name| + 1 <= GroupNameBuffer && name !in Archive) &&
        (r == Done(true) ==>
           var l := old(LoadOf(Src(Archive[name], 0), Tables(), false, Textures)).value;
           Tables() == l.tables && Valid() && Mesh.Valid() &&
           GroupAdded(Mesh, old(Mesh.GeoSetID), old(Mesh.GeoSetRender), old(Mesh.Buffers), l.added))
    {
      var name := GroupFileName(path, i);
      if |name| + 1 > GroupNameBuffer {
        return Undefined;
      }
      if name !in Archive {
        return Done(false);
      }
      MeshFile := Src(Archive[name], 0);
      var g := Load(false);
      if g.Undefined? {
        return Undefined;
      }
      r := Done(true);
    }

    /**
      The group loop of createMesh: true when every group loaded, false
      when a group file is missing.
    */
    method LoadGroups(path: string) returns (r: Outcome<bool>)
      requires Valid() && Mesh != null && Mesh.Valid()
      modifies this`MeshFile, this`RootHeader, this`WMOMTexDefinition, this`WMOMTextureFiles, this`WMOMTexData, this`Submeshes
      modifies this`WMOMIndices, this`WMOMVertices, this`WMOMNormals, this`WMOMTexcoord, this`WMOMVertexColor
      modifies Mesh`GeoSetID, Mesh`GeoSetRender, Mesh`Buffers
      ensures var spec := old(GroupsFrom(path, 0, Tables(), [], Archive, Textures));
        r.Done? == spec.Done? &&
        (r.Done? ==> (r.value <==> spec.value.Some?)) &&
        (r == Done(true) ==>
           Tables() == spec.value.value.0 && Mesh.Valid() &&
           GroupAdded(Mesh, old(Mesh.GeoSetID), old(Mesh.GeoSetRender), old(Mesh.Buffers), spec.value.value.1))
    {
      ghost var spec := GroupsFrom(path, 0, Tables(), [], Archive, Textures);
      ghost var added: seq<MeshBuffer> := [];
      ghost var ids0, render0, bufs0 := Mesh.GeoSetID, Mesh.GeoSetRender, Mesh.Buffers;
      var i: nat := 0;
      while i < NGroups(RootHeader)
        invariant Valid() && Mesh.Valid()
        invariant spec == GroupsFrom(path, i, Tables(), added, Archive, Textures)
        invariant GroupAdded(Mesh, ids0, render0, bufs0, added)
        decreases TWO32 - i
      {
        ghost var name := GroupFileName(path, i);
        ghost var l := if name in Archive then LoadOf(Src(Archive[name], 0), Tables(), false, Textures) else Undefined;
        var g := LoadGroup(path, i);
        if g.Undefined? {
          return Undefined;
        }
        if !g.value {
          return Done(false);
        }
        AddedTwice(Mesh, ids0, render0, bufs0, added, l.value.added);
        added := added + l.value.added;
        i := i + 1;
      }
      return Done(true);
    }

    /**
      createMesh: the mesh with the buffers of every group file, 0 when
      there is no file, the root does not load or a group file is missing.
      A mesh it returns is new, and holds exactly the buffers CreateOf
      lists, each on geoset 0 and rendered.
    */
    method CreateMesh(file: Option<Src>, path: string) returns (r: Outcome<CM2Mesh?>)
      requires Valid() && (file.Some? ==> file.value.pos <= |file.value.data|)
      modifies this
      ensures var spec := old(CreateOf(file, path, Tables(), Archive, Textures));
        r.Done? == spec.Done? &&
        (r.Done? ==> (r.value == null <==> spec.value.None?)) &&
        (r.Done? && r.value != null ==>
          var (t, added) := spec.value.value;
          fresh(r.value) && r.value.Valid() && Tables() == t &&
          r.value.Buffers == added &&
          r.value.GeoSetID == seq(|added|, _ => 0) && r.value.GeoSetRender == seq(|added|, _ => true))
    {
      if file.None? {
        return Done(null);
      }
      MeshFile := file.value;
      var m := new CM2Mesh();
      Mesh := m;
      var loaded := Load(true);
      if loaded.Undefined? {
        return Undefined;
      }
      if !loaded.value {
        Mesh := null;
        return Done(null);
      }
      var groups := LoadGroups(path);
      if groups.Undefined? {
        return Undefined;
      }
      if !groups.value {
        return Done(null);
      }
      return Done(m);
    }
  }
}
