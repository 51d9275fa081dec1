/**
  CM2MeshFileLoader: the object that reads an M2 model (and, from 0x108
  on, its .skin and .anim files) into tables of its own, and then builds a
  CM2Mesh from those tables. Every Read* method is proved to leave in the
  loader's members exactly what the corresponding specification function of
  M2Anim and M2Tables computes from the files.
*/
module M2Loader {
  import opened Wrappers
  import opened Bytes
  import opened ByteSource
  import opened M2Records
  import opened M2Geometry
  import opened M2Anim
  import opened M2Tables
  import opened M2Readers
  import opened M2Views
  import opened M2Mesh
  import opened M2Assembly
  import opened M2BufferMap
  import opened M2Skeleton
  import opened M2SubmeshBuild
  import opened M2Build

  /** Everything load reads after the views, and the model file's cursor afterwards. */
  datatype ModelTables = ModelTables(
    vertices: seq<ModelVertex>,
    textures: TextureTables,
    animations: AnimationTables,
    bones: seq<Bone>,
    colors: seq<VertexColor>,
    mesh: Src)

  /**
    The reads load makes after the views, in its order: vertices, texture
    definitions, animation data, bones, colours; the last two read the
    .anim files the animation data opened.
  */
  function ModelTablesOf(f: Src, h: ModelHeader, files: seq<Option<Src>>, meshName: string, archive: map<string, seq<byte>>, uninit: nat -> Uninit): Outcome<ModelTables>
  {
    var (vertices, f1) := VertexTable(f, h.Vertices);
    match TextureData(f1, h)
    case Undefined => Undefined
    case Done((textures, f2)) =>
      match AnimationData(f2, files, h, meshName, archive, uninit)
      case Undefined => Undefined
      case Done((at, f3)) =>
        match BoneTable(Files(f3, at.files), h.Bones, at.anims, h.version)
        case Undefined => Undefined
        case Done((bones, fs4)) =>
          match ColorTable(fs4, h.Colors, at.anims, h.version)
          case Undefined => Undefined
          case Done((colors, fs5)) => Done(ModelTables(vertices, textures, at.(files := fs5.anims), bones, colors, fs5.mesh))
  }

  /** The reads of ModelTablesOf, in order. */
  method ReadModelTables(f: Src, h: ModelHeader, files: seq<Option<Src>>, meshName: string, archive: map<string, seq<byte>>, uninit: nat -> Uninit) returns (r: Outcome<ModelTables>)
    ensures r == ModelTablesOf(f, h, files, meshName, archive, uninit)
  {
    var vertices, f1 := ReadVertexTable(f, h.Vertices);
    var tex := ReadTextureTables(f1, h);
    if tex.Undefined? {
      return Undefined;
    }
    var anim := ReadAnimationTables(tex.value.1, files, h, meshName, archive, uninit);
    if anim.Undefined? {
      return Undefined;
    }
    var at := anim.value.0;
    var bones := ReadBoneTable(Files(anim.value.1, at.files), h.Bones, at.anims, h.version);
    if bones.Undefined? {
      return Undefined;
    }
    var colors := ReadColorTable(bones.value.1, h.Colors, at.anims, h.version);
    if colors.Undefined? {
      return Undefined;
    }
    var fs5 := colors.value.1;
    return Done(ModelTables(vertices, tex.value.0, at.(files := fs5.anims), bones.value.0, colors.value.0, fs5.mesh));
  }

  /** The loader's members, as one value. */
  datatype LoaderState = LoaderState(
    mesh: Src,
    header: seq<byte>,
    view: seq<byte>,
    skins: seq<SkinData>,
    vertices: seq<ModelVertex>,
    textures: TextureTables,
    animations: AnimationTables,
    bones: seq<Bone>,
    colors: seq<VertexColor>)
  {
    /** The header and view structs have their declared sizes. */
    predicate Sized() {
      |header| == HeaderSize && |view| == ModelViewSize
    }
  }

  /**
    The reading part of load, on the loader's members: the header and the
    views, then (unless the version is unknown or a .skin file is missing,
    when load returns false) the tables after them. On an undefined outcome
    the members are left unspecified.
  */
  function ReadsOf(s: LoaderState, meshName: string, archive: map<string, seq<byte>>, uninit: nat -> Uninit): (r: (Outcome<bool>, LoaderState))
    requires s.Sized()
    ensures r.1.Sized()
  {
    match HeadAndViews(s.mesh, s.header, ViewState(s.view, s.skins), meshName, archive)
    case Undefined => (Undefined, s)
    case Done(head) =>
      var s1 := s.(header := head.header, view := head.st.view, skins := head.st.skins, mesh := head.mesh);
      if !head.ok then (Done(false), s1)
      else match ModelTablesOf(head.mesh, DecodeHeader(head.header), s.animations.files, meshName, archive, uninit)
        case Undefined => (Undefined, s1)
        case Done(t) =>
          (Done(true), s1.(vertices := t.vertices, textures := t.textures, animations := t.animations, bones := t.bones, colors := t.colors, mesh := t.mesh))
  }

  /** The reads of ReadsOf, in order. */
  method ReadAll(s: LoaderState, meshName: string, archive: map<string, seq<byte>>, uninit: nat -> Uninit) returns (r: Outcome<bool>, s': LoaderState)
    requires s.Sized()
    ensures (r, s') == ReadsOf(s, meshName, archive, uninit)
  {
    var head := ReadHeadAndViews(s.mesh, s.header, ViewState(s.view, s.skins), meshName, archive);
    if head.Undefined? {
      return Undefined, s;
    }
    var h := head.value;
    s' := s.(header := h.header, view := h.st.view, skins := h.st.skins, mesh := h.mesh);
    if !h.ok {
      return Done(false), s';
    }
    var t := ReadModelTables(h.mesh, DecodeHeader(h.header), s.animations.files, meshName, archive, uninit);
    if t.Undefined? {
      return Undefined, s';
    }
    var m := t.value;
    s' := s'.(vertices := m.vertices, textures := m.textures, animations := m.animations, bones := m.bones, colors := m.colors, mesh := m.mesh);
    return Done(true), s';
  }

  /** The tables the assembly reads, from a state after the reads. */
  function TablesOf(basename: string, s: LoaderState): LoaderTables
  {
    LoaderTables(basename, s.vertices, s.animations.boneLookup, s.textures.lookup, s.textures.flags, s.textures.files, s.colors)
  }

  /**
    The clean-up at the end of a load that gets through the assembly: the
    vertex, texture, animation and colour tables are emptied; the views, the
    bones, the two bone lookup tables, the header and the cursor stay.
  */
  function CleanedUp(s: LoaderState): (r: LoaderState)
  {
    s.(vertices := [], textures := TextureTables([], [], [], []), animations := s.animations.(anims := [], files := []), colors := [])
  }

  /** The hardware hint of the mesh buffers, from the header's counts. */
  function HintOf(s: LoaderState): HardwareHint
    requires s.Sized()
  {
    var h := DecodeHeader(s.header);
    HintFor(h.Animations.num, h.GlobalSequences.num)
  }

  class M2Loader {
    /** The model's file name, from which the .skin and .anim names are made. */
    const MeshName: string
    /** The files the loader can open by name. */
    const Archive: map<string, seq<byte>>

    /** The model file's base name as Irrlicht's getFileBasename gives it, with its extension. */
    const BaseName: string

    var MeshFile: Src
    /** The header struct; a member, so bytes a load does not read keep what the previous load left. */
    var Header: seq<byte>
    var CurrentView: seq<byte>
    /** The views read so far; no load clears this list. */
    var M2MSkins: seq<SkinData>
    var M2MVertices: seq<ModelVertex>
    var M2MTextureLookup: seq<nat>
    var M2MTextureDef: seq<TextureDefinition>
    var M2MRenderFlags: seq<RenderFlags>
    var M2MTextureFiles: seq<string>
    var M2MBoneLookupTable: seq<nat>
    var M2MSkeleBoneLookupTable: seq<nat>
    var M2MAnimations: seq<Animation>
    var M2MAnimfiles: seq<Option<Src>>
    var M2MBones: seq<Bone>
    var M2MVertexColor: seq<VertexColor>

    /** The header and view structs have their declared sizes. */
    ghost predicate Valid()
      reads this
    {
      State().Sized()
    }

    function Hdr(): ModelHeader
      reads this`Header
      requires |Header| == HeaderSize
    {
      DecodeHeader(Header)
    }

    /** The loader's files as the animation readers see them. */
    function AnimFiles(): Files
      reads this`MeshFile, this`M2MAnimfiles
    {
      Files(MeshFile, M2MAnimfiles)
    }

    /**
      ReadViewData: the view's indices, triangles, submeshes and texture
      units from `file`, appended as one more skin.
    */
    method ReadViewData(file: Src) returns (g: Src)
      requires |Header| == HeaderSize && |CurrentView| == ModelViewSize
      modifies this`M2MSkins
      ensures var spec := ViewData(file, DecodeModelView(CurrentView), Hdr().version);
        M2MSkins == old(M2MSkins) + [spec.0] && g == spec.1
    {
      var skin;
      skin, g := ReadViewTables(file, DecodeModelView(CurrentView), Hdr().version);
      M2MSkins := M2MSkins + [skin];
    }

    /** ReadVertices: the vertex table at the header's offset. */
    method ReadVertices()
      requires |Header| == HeaderSize
      modifies this`MeshFile, this`M2MVertices
      ensures (M2MVertices, MeshFile) == old(VertexTable(MeshFile, Hdr().Vertices))
    {
      M2MVertices, MeshFile := ReadVertexTable(MeshFile, Hdr().Vertices);
    }

    /** ReadTextureDefinitions: the texture tables, then the texture file names. */
    method ReadTextureDefinitions() returns (defined: bool)
      requires |Header| == HeaderSize
      modifies this`MeshFile, this`M2MTextureLookup, this`M2MTextureDef, this`M2MRenderFlags, this`M2MTextureFiles
      ensures var spec := old(TextureData(MeshFile, Hdr()));
        defined == spec.Done? &&
        (spec.Done? ==> spec.value == (TextureTables(M2MTextureLookup, M2MTextureDef, M2MRenderFlags, M2MTextureFiles), MeshFile))
    {
      var t := ReadTextureTables(MeshFile, Hdr());
      defined := t.Done?;
      if defined {
        M2MTextureLookup, M2MTextureDef, M2MRenderFlags, M2MTextureFiles := t.value.0.lookup, t.value.0.defs, t.value.0.flags, t.value.0.files;
        MeshFile := t.value.1;
      }
    }


    /** ReadAnimationData: the two bone lookup tables, then the animation sequences. */
    method ReadAnimationData(uninit: nat -> Uninit) returns (defined: bool)
      requires |Header| == HeaderSize
      modifies this`MeshFile, this`M2MBoneLookupTable, this`M2MSkeleBoneLookupTable, this`M2MAnimations, this`M2MAnimfiles
      ensures var spec := old(AnimationData(MeshFile, M2MAnimfiles, Hdr(), MeshName, Archive, uninit));
        defined == spec.Done? &&
        (spec.Done? ==> spec.value == (AnimationTables(M2MBoneLookupTable, M2MSkeleBoneLookupTable, M2MAnimations, M2MAnimfiles), MeshFile))
    {
      var t := ReadAnimationTables(MeshFile, M2MAnimfiles, Hdr(), MeshName, Archive, uninit);
      defined := t.Done?;
      if defined {
        M2MBoneLookupTable, M2MSkeleBoneLookupTable, M2MAnimations, M2MAnimfiles := t.value.0.boneLookup, t.value.0.skelLookup, t.value.0.anims, t.value.0.files;
        MeshFile := t.value.1;
      }
    }


    /** ReadBones: the bone table, read with the sequences' .anim files. */
    method ReadBones() returns (defined: bool)
      requires |Header| == HeaderSize
      modifies this`MeshFile, this`M2MAnimfiles, this`M2MBones
      ensures var spec := old(BoneTable(AnimFiles(), Hdr().Bones, M2MAnimations, Hdr().version));
        defined == spec.Done? && (spec.Done? ==> spec.value == (M2MBones, AnimFiles()))
    {
      var t := ReadBoneTable(AnimFiles(), Hdr().Bones, M2MAnimations, Hdr().version);
      defined := t.Done?;
      if defined {
        M2MBones, MeshFile, M2MAnimfiles := t.value.0, t.value.1.mesh, t.value.1.anims;
      }
    }

    /** ReadColors: the vertex colour table, read with the sequences' .anim files. */
    method ReadColors() returns (defined: bool)
      requires |Header| == HeaderSize
      modifies this`MeshFile, this`M2MAnimfiles, this`M2MVertexColor
      ensures var spec := old(ColorTable(AnimFiles(), Hdr().Colors, M2MAnimations, Hdr().version));
        defined == spec.Done? && (spec.Done? ==> spec.value == (M2MVertexColor, AnimFiles()))
    {
      var t := ReadColorTable(AnimFiles(), Hdr().Colors, M2MAnimations, Hdr().version);
      defined := t.Done?;
      if defined {
        M2MVertexColor, MeshFile, M2MAnimfiles := t.value.0, t.value.1.mesh, t.value.1.anims;
      }
    }

    /** The members as one value. */
    function State(): LoaderState
      reads this
    {
      LoaderState(MeshFile, Header, CurrentView, M2MSkins, M2MVertices,
        TextureTables(M2MTextureLookup, M2MTextureDef, M2MRenderFlags, M2MTextureFiles),
        AnimationTables(M2MBoneLookupTable, M2MSkeleBoneLookupTable, M2MAnimations, M2MAnimfiles),
        M2MBones, M2MVertexColor)
    }

    /** Sets the cursor, the header, the current view and the views. */
    method SetViews(mesh: Src, header: seq<byte>, view: seq<byte>, skins: seq<SkinData>)
      modifies this`MeshFile, this`Header, this`CurrentView, this`M2MSkins
      ensures MeshFile == mesh && Header == header && CurrentView == view && M2MSkins == skins
    {
      MeshFile, Header, CurrentView, M2MSkins := mesh, header, view, skins;
    }

    /** Sets the four texture tables. */
    method SetTextures(t: TextureTables)
      modifies this`M2MTextureLookup, this`M2MTextureDef, this`M2MRenderFlags, this`M2MTextureFiles
      ensures TextureTables(M2MTextureLookup, M2MTextureDef, M2MRenderFlags, M2MTextureFiles) == t
    {
      M2MTextureLookup, M2MTextureDef, M2MRenderFlags, M2MTextureFiles := t.lookup, t.defs, t.flags, t.files;
    }

    /** Sets the bone lookup tables, the sequences and their .anim files. */
    method SetAnimations(a: AnimationTables)
      modifies this`M2MBoneLookupTable, this`M2MSkeleBoneLookupTable, this`M2MAnimations, this`M2MAnimfiles
      ensures AnimationTables(M2MBoneLookupTable, M2MSkeleBoneLookupTable, M2MAnimations, M2MAnimfiles) == a
    {
      M2MBoneLookupTable, M2MSkeleBoneLookupTable, M2MAnimations, M2MAnimfiles := a.boneLookup, a.skelLookup, a.anims, a.files;
    }

    /** Sets the vertex, bone and colour tables. */
    method SetGeometry(vertices: seq<ModelVertex>, bones: seq<Bone>, colors: seq<VertexColor>)
      modifies this`M2MVertices, this`M2MBones, this`M2MVertexColor
      ensures M2MVertices == vertices && M2MBones == bones && M2MVertexColor == colors
    {
      M2MVertices, M2MBones, M2MVertexColor := vertices, bones, colors;
    }

    /** Sets every member from `s`. */
    method SetState(s: LoaderState)
      modifies this
      ensures State() == s
    {
      SetViews(s.mesh, s.header, s.view, s.skins);
      SetTextures(s.textures);
      SetAnimations(s.animations);
      SetGeometry(s.vertices, s.bones, s.colors);
    }

    /**
      The reading part of load: the members end as ReadsOf says, unless the
      outcome is undefined.
    */
    method ReadModel(uninit: nat -> Uninit) returns (r: Outcome<bool>)
      requires Valid()
      modifies this
      ensures var spec := old(ReadsOf(State(), MeshName, Archive, uninit));
        r == spec.0 && (r.Done? ==> State() == spec.1 && Valid())
    {
      var s;
      r, s := ReadAll(State(), MeshName, Archive, uninit);
      if r.Done? {
        SetState(s);
      }
    }

    /** The clean-up at the end of load. */
    method CleanUp()
      modifies this`M2MAnimations, this`M2MAnimfiles, this`M2MVertices, this`M2MRenderFlags, this`M2MTextureDef
      modifies this`M2MTextureFiles, this`M2MTextureLookup, this`M2MVertexColor
      ensures State() == CleanedUp(old(State()))
    {
      SetTextures(TextureTables([], [], [], []));
      M2MAnimations, M2MAnimfiles := [], [];
      M2MVertices, M2MVertexColor := [], [];
    }

  }
}
