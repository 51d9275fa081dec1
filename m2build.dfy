/**
  The assembly half of CM2MeshFileLoader::load, from the loader's tables
  into the CM2Mesh: the skins, the default skin and the texture names, the
  buffer map, the animations and joints, and one mesh buffer per submesh of
  the default skin.
*/
module M2Build {
  import opened Wrappers
  import opened Bytes
  import opened M2Anim
  import opened M2Tables
  import opened M2Mesh
  import opened M2Assembly
  import opened M2BufferMap
  import opened M2Skeleton
  import opened M2SubmeshBuild

  // ---------------------------------------------------------------------
  // Skins, default skin, texture names, buffer map (cpp:1007-1350)
  // ---------------------------------------------------------------------

  /** The u16 skin loop ends and every skin can be assembled. */
  predicate AllSkinsDefined(skins: seq<SkinData>, t: LoaderTables)
  {
    |skins| < TWO16 && forall S | 0 <= S < |skins| :: SkinDefined(skins[S], t)
  }

  /** Skin data sd is defined and o is what it assembles to as skin number k. */
  ghost predicate SkinAssembled(o: Skin, k: nat, sd: SkinData, t: LoaderTables)
  {
    SkinDefined(sd, t) && SkinFrom(o, k, sd, t)
  }

  /** The first n skins are defined and out holds what each assembles to. */
  ghost predicate SkinsAssembled(out: seq<Skin>, skins: seq<SkinData>, t: LoaderTables, n: nat)
    requires n <= |skins|
  {
    |out| == n && forall k | 0 <= k < n :: SkinAssembled(out[k], k, skins[k], t)
  }

  lemma SkinsAssembledSnoc(out: seq<Skin>, skins: seq<SkinData>, t: LoaderTables, n: nat, s: Skin)
    requires n < |skins| && SkinsAssembled(out, skins, t, n) && SkinAssembled(s, n, skins[n], t)
    ensures SkinsAssembled(out + [s], skins, t, n + 1)
  {
    var out' := out + [s];
    assert forall k | 0 <= k < n :: out'[k] == out[k];
  }

  /** The skin loop: one skin per view, numbered by its position. */
  method AssembleSkins(mesh: CM2Mesh, skins: seq<SkinData>, t: LoaderTables) returns (ok: bool)
    requires mesh.Skins == []
    modifies mesh`Skins
    ensures ok == AllSkinsDefined(skins, t)
    ensures ok ==> SkinsAssembled(mesh.Skins, skins, t, |skins|)
  {
    if |skins| >= TWO16 {
      return false;
    }
    var S: nat := 0;
    while S < |skins|
      invariant S <= |skins| && SkinsAssembled(mesh.Skins, skins, t, S)
    {
      var r := AssembleSkin(S, skins[S], t);
      if r.Undefined? {
        assert !SkinDefined(skins[S], t);
        return false;
      }
      assert SkinAssembled(r.value, S, skins[S], t);
      SkinsAssembledSnoc(mesh.Skins, skins, t, S, r.value);
      mesh.Skins := mesh.Skins + [r.value];
      S := S + 1;
    }
    return true;
  }

  /** The u16 loop copying the texture names; with 65536 names or more it never ends. */
  method CopyTextureNames(mesh: CM2Mesh, files: seq<string>) returns (ok: bool)
    modifies mesh`Textures
    ensures ok == (|files| < TWO16) && (ok ==> mesh.Textures == old(mesh.Textures) + files)
  {
    if |files| >= TWO16 {
      return false;
    }
    var i := 0;
    while i < |files|
      invariant i <= |files| && mesh.Textures == old(mesh.Textures) + files[..i]
    {
      mesh.Textures := mesh.Textures + [files[i]];
      assert files[..i + 1] == files[..i] + [files[i]];
      i := i + 1;
    }
    assert files[..i] == files;
    return true;
  }

  /** The first stage is defined: every skin, the texture-name loop and the buffer map of skin 0. */
  predicate ViewsDefined(skins: seq<SkinData>, t: LoaderTables)
  {
    AllSkinsDefined(skins, t) && |t.textureFiles| < TWO16 && BufferMapOf(skins, t).Done?
  }

  /**
    What the first stage leaves in a mesh whose texture names and buffer map
    were textures and bufferMap: one assembled skin per view, skin 0 as the
    default, the texture names and the buffer map appended.
  */
  ghost predicate ViewsAssembled(mesh: CM2Mesh, textures: seq<string>, bufferMap: seq<BufferInfo>, skins: seq<SkinData>, t: LoaderTables)
    reads mesh`Skins, mesh`SkinID, mesh`Textures, mesh`BufferMap
    requires ViewsDefined(skins, t)
  {
    SkinsAssembled(mesh.Skins, skins, t, |skins|) && mesh.SkinID == 0 && mesh.Textures == textures + t.textureFiles &&
    mesh.BufferMap == bufferMap + BufferMapOf(skins, t).value
  }

  /**
    The first stage: the skins, then skin 0 as the default with the texture
    names, then the buffer map of the default skin.
  */
  method AssembleViews(mesh: CM2Mesh, skins: seq<SkinData>, t: LoaderTables) returns (ok: bool)
    requires mesh.Skins == []
    modifies mesh`Skins, mesh`SkinID, mesh`Textures, mesh`BufferMap
    ensures ok == ViewsDefined(skins, t)
    ensures ok ==> ViewsAssembled(mesh, old(mesh.Textures), old(mesh.BufferMap), skins, t)
  {
    ok := AssembleSkins(mesh, skins, t);
    if !ok {
      return;
    }
    mesh.SkinID := 0;
    ok := CopyTextureNames(mesh, t.textureFiles);
    if !ok {
      return;
    }
    var m := BuildBufferMap(skins, t);
    if m.Undefined? {
      return false;
    }
    mesh.BufferMap := mesh.BufferMap + m.value;
  }

  // ---------------------------------------------------------------------
  // The submesh buffers (cpp:1383-1418)
  // ---------------------------------------------------------------------

  /**
    The check that the base name starts with "bob": std::mismatch walks the
    name as far as the prefix matches, so a name that is itself a shorter
    prefix of "bob" ("", "b", "bo") is read past its end.
  */
  function BobPrefix(name: string): (r: Outcome<bool>)
    ensures r.Done? ==> (r.value <==> |name| >= 3 && name[..3] == "bob")
    ensures r.Undefined? <==> |name| < 3 && name == "bob"[..|name|]
  {
    if |name| >= 3 then Done(name[..3] == "bob")
    else if name == "bob"[..|name|] then Undefined
    else Done(false)
  }

  /**
    The buffers, their mesh-part ids and the joints after building the
    first k entries of the default skin's submesh list, entry k being built
    from the loader's submesh LoaderIndex as buffer number k.
  */
  function SubMeshesUpTo(joints: seq<Joint>, subs: seq<Submesh>, skin: SkinData, t: LoaderTables, available: set<string>, hint: HardwareHint, k: nat): (r: Outcome<(seq<MeshBuffer>, seq<nat>, seq<Joint>)>)
    requires k <= |subs|
    ensures r.Done? ==> |r.value.0| == |r.value.1| == k && |r.value.2| == |joints|
  {
    if k == 0 then Done(([], [], joints))
    else match SubMeshesUpTo(joints, subs, skin, t, available, hint, k - 1)
      case Undefined => Undefined
      case Done((bs, ids, js)) =>
        match NewSubMesh(js, skin, subs[k - 1].LoaderIndex, k - 1, t, available, hint)
        case Undefined => Undefined
        case Done((b, js')) => Done((bs + [b], ids + [skin.Submeshes[subs[k - 1].LoaderIndex].meshpartId], js'))
  }

  /**
    Buffer k holds the triangles and vertices of the submesh the k-th entry
    of the skin points back to, so its index count is that submesh's
    triangle count and its vertex count that submesh's vertex count.
  */
  lemma {:induction false} SubMeshBuffersMatchEntries(joints: seq<Joint>, subs: seq<Submesh>, skin: SkinData, t: LoaderTables, available: set<string>, hint: HardwareHint, k: nat, i: nat)
    requires i < k <= |subs| && SubMeshesUpTo(joints, subs, skin, t, available, hint, k).Done?
    ensures var r := SubMeshesUpTo(joints, subs, skin, t, available, hint, k).value;
      subs[i].LoaderIndex < |skin.Submeshes| &&
      var rec := skin.Submeshes[subs[i].LoaderIndex];
      |r.0[i].Indices| == rec.nTris && |r.0[i].Vertices| == rec.nVertex && r.0[i].Hint == hint && r.1[i] == rec.meshpartId
    decreases k
  {
    if i < k - 1 {
      SubMeshBuffersMatchEntries(joints, subs, skin, t, available, hint, k - 1, i);
    }
  }

  /** One step of the submesh loop: a defined buffer extends the buffers so far. */
  lemma SubMeshesStep(joints: seq<Joint>, subs: seq<Submesh>, skin: SkinData, t: LoaderTables, available: set<string>, hint: HardwareHint, i: nat,
                      before: (seq<MeshBuffer>, seq<nat>, seq<Joint>), b: MeshBuffer, js: seq<Joint>)
    requires i < |subs| && SubMeshesUpTo(joints, subs, skin, t, available, hint, i) == Done(before)
    requires NewSubMesh(before.2, skin, subs[i].LoaderIndex, i, t, available, hint) == Done((b, js))
    ensures subs[i].LoaderIndex < |skin.Submeshes|
    ensures SubMeshesUpTo(joints, subs, skin, t, available, hint, i + 1) ==
      Done((before.0 + [b], before.1 + [skin.Submeshes[subs[i].LoaderIndex].meshpartId], js))
  {
  }

  lemma {:induction false} SubMeshesStayUndefined(joints: seq<Joint>, subs: seq<Submesh>, skin: SkinData, t: LoaderTables, available: set<string>, hint: HardwareHint, k: nat)
    requires k <= |subs| && SubMeshesUpTo(joints, subs, skin, t, available, hint, k).Undefined?
    ensures SubMeshesUpTo(joints, subs, skin, t, available, hint, |subs|).Undefined?
    decreases |subs| - k
  {
    if k < |subs| {
      SubMeshesStayUndefined(joints, subs, skin, t, available, hint, k + 1);
    }
  }

  /** Whether each mesh part renders by default: only mesh part 0 does. */
  function RenderFlagsOf(ids: seq<nat>): (r: seq<bool>)
    ensures |r| == |ids| && forall k | 0 <= k < |ids| :: r[k] <==> ids[k] == 0
  {
    seq(|ids|, k requires 0 <= k < |ids| => ids[k] == 0)
  }

  /** The mesh's buffer lists are the given ones extended by a result of SubMeshesUpTo. */
  predicate BuiltFrom(mesh: CM2Mesh, b0: seq<MeshBuffer>, id0: seq<nat>, r0: seq<bool>, r: (seq<MeshBuffer>, seq<nat>, seq<Joint>))
    reads mesh
  {
    mesh.Buffers == b0 + r.0 && mesh.GeoSetID == id0 + r.1 && mesh.GeoSetRender == r0 + RenderFlagsOf(r.1) && mesh.Joints == r.2
  }

  /** Equal to snoc on the ids: the render flag of one more mesh part. */
  lemma RenderFlagsOfSnoc(ids: seq<nat>, id: nat)
    ensures RenderFlagsOf(ids + [id]) == RenderFlagsOf(ids) + [id == 0]
  {
    assert RenderFlagsOf(ids + [id])[|ids|] == (id == 0);
  }

  /** The body of the submesh loop: the buffer of entry i. */
  method BuildEntry(mesh: CM2Mesh, subs: seq<Submesh>, skin: SkinData, t: LoaderTables, available: set<string>, hint: HardwareHint, i: nat,
                    ghost joints: seq<Joint>, ghost b0: seq<MeshBuffer>, ghost id0: seq<nat>, ghost r0: seq<bool>,
                    ghost before: (seq<MeshBuffer>, seq<nat>, seq<Joint>)) returns (ok: bool, ghost after: (seq<MeshBuffer>, seq<nat>, seq<Joint>))
    requires i < |subs| && mesh.Valid()
    requires SubMeshesUpTo(joints, subs, skin, t, available, hint, i) == Done(before)
    requires BuiltFrom(mesh, b0, id0, r0, before)
    modifies mesh`GeoSetID, mesh`GeoSetRender, mesh`Buffers, mesh`Joints
    ensures !ok ==> SubMeshesUpTo(joints, subs, skin, t, available, hint, i + 1).Undefined?
    ensures ok ==> SubMeshesUpTo(joints, subs, skin, t, available, hint, i + 1) == Done(after)
    ensures ok ==> mesh.Valid() && BuiltFrom(mesh, b0, id0, r0, after)
  {
    ghost var spec := NewSubMesh(before.2, skin, subs[i].LoaderIndex, i, t, available, hint);
    ok := BuildANewSubMesh(mesh, skin, subs[i].LoaderIndex, i, t, available, hint);
    after := before;
    if ok {
      SubMeshesStep(joints, subs, skin, t, available, hint, i, before, spec.value.0, spec.value.1);
      ghost var id := skin.Submeshes[subs[i].LoaderIndex].meshpartId;
      RenderFlagsOfSnoc(before.1, id);
      after := (before.0 + [spec.value.0], before.1 + [id], spec.value.1);
    }
  }

  /** The loop building one buffer per entry of the default skin. */
  method BuildSubMeshes(mesh: CM2Mesh, subs: seq<Submesh>, skin: SkinData, t: LoaderTables, available: set<string>, hint: HardwareHint) returns (ok: bool)
    requires mesh.Valid()
    modifies mesh`GeoSetID, mesh`GeoSetRender, mesh`Buffers, mesh`Joints
    ensures var spec := SubMeshesUpTo(old(mesh.Joints), subs, skin, t, available, hint, |subs|);
      ok == spec.Done? &&
      (ok ==> mesh.Valid() && BuiltFrom(mesh, old(mesh.Buffers), old(mesh.GeoSetID), old(mesh.GeoSetRender), spec.value))
  {
    ghost var joints, b0, id0, r0 := mesh.Joints, mesh.Buffers, mesh.GeoSetID, mesh.GeoSetRender;
    ghost var acc: (seq<MeshBuffer>, seq<nat>, seq<Joint>) := ([], [], joints);
    assert r0 + RenderFlagsOf([]) == r0;
    var i: nat := 0;
    while i < |subs|
      invariant i <= |subs| && mesh.Valid() && BuiltFrom(mesh, b0, id0, r0, acc)
      invariant SubMeshesUpTo(joints, subs, skin, t, available, hint, i) == Done(acc)
    {
      ok, acc := BuildEntry(mesh, subs, skin, t, available, hint, i, joints, b0, id0, r0, acc);
      if !ok {
        SubMeshesStayUndefined(joints, subs, skin, t, available, hint, i + 1);
        return false;
      }
      i := i + 1;
    }
    return true;
  }

  /**
    The second stage is defined: the joints can be copied, the "bob" test
    reads inside the base name and, outside the "bob" branch, every entry of
    the default skin's list subs builds.
  */
  predicate BuffersDefined(joints: seq<Joint>, bones: seq<Bone>, subs: seq<Submesh>, skin: SkinData, t: LoaderTables, available: set<string>, hint: HardwareHint)
  {
    JointsUpTo(bones, |joints|, |bones|).Done? && BobPrefix(t.basename).Done? &&
    (!BobPrefix(t.basename).value ==>
      SubMeshesUpTo(joints + JointsUpTo(bones, |joints|, |bones|).value, subs, skin, t, available, hint, |subs|).Done?)
  }

  /**
    What the second stage leaves in the mesh's buffer lists and joints: the
    joints copied from the bones, then (outside the "bob" branch) one buffer
    per entry of subs with its weights added to those joints.
  */
  ghost predicate BuffersBuilt(mesh: CM2Mesh, b0: seq<MeshBuffer>, id0: seq<nat>, r0: seq<bool>, joints: seq<Joint>, bones: seq<Bone>,
                         subs: seq<Submesh>, skin: SkinData, t: LoaderTables, available: set<string>, hint: HardwareHint)
    reads mesh
    requires BuffersDefined(joints, bones, subs, skin, t, available, hint)
  {
    var js := joints + JointsUpTo(bones, |joints|, |bones|).value;
    mesh.Valid() &&
    if BobPrefix(t.basename).value then BuiltFrom(mesh, b0, id0, r0, ([], [], js))
    else BuiltFrom(mesh, b0, id0, r0, SubMeshesUpTo(js, subs, skin, t, available, hint, |subs|).value)
  }

  /**
    The second stage: the animations and joints, then (for a model whose
    base name does not start with "bob") one buffer per entry of the default
    skin. The "bob" branch, which builds a child mesh per submesh for the
    mesh cache, is not modelled and changes nothing here.
  */
  method AssembleBuffers(mesh: CM2Mesh, skin: SkinData, t: LoaderTables, anims: seq<Animation>, bones: seq<Bone>, available: set<string>, hint: HardwareHint) returns (ok: bool)
    requires mesh.Valid() && |mesh.Skins| > 0
    modifies mesh`Animations, mesh`Joints, mesh`GeoSetID, mesh`GeoSetRender, mesh`Buffers
    ensures mesh.Animations == old(mesh.Animations) + MeshAnimations(anims)
    ensures ok == BuffersDefined(old(mesh.Joints), bones, mesh.Skins[0].Submeshes, skin, t, available, hint)
    ensures ok ==> BuffersBuilt(mesh, old(mesh.Buffers), old(mesh.GeoSetID), old(mesh.GeoSetRender), old(mesh.Joints), bones,
      mesh.Skins[0].Submeshes, skin, t, available, hint)
  {
    ok := CopyAnimationsToMesh(mesh, anims, bones);
    if !ok {
      return;
    }
    var bob := BobPrefix(t.basename);
    if bob.Undefined? {
      return false;
    }
    if !bob.value {
      ok := BuildSubMeshes(mesh, mesh.Skins[0].Submeshes, skin, t, available, hint);
    }
  }

  // ---------------------------------------------------------------------
  // Both stages (cpp:1007-1418)
  // ---------------------------------------------------------------------

  /** The lists of a CM2Mesh the assembly appends to, as one value. */
  datatype MeshLists = MeshLists(buffers: seq<MeshBuffer>, ids: seq<nat>, render: seq<bool>, joints: seq<Joint>,
                                 animations: seq<M2Animation>, textures: seq<string>, bufferMap: seq<BufferInfo>)

  function ListsOf(mesh: CM2Mesh): MeshLists
    reads mesh
  {
    MeshLists(mesh.Buffers, mesh.GeoSetID, mesh.GeoSetRender, mesh.Joints, mesh.Animations, mesh.Textures, mesh.BufferMap)
  }

  /** Both stages are defined, the second one on the default skin's list as the first one left it in mesh. */
  predicate AssemblyDefined(mesh: CM2Mesh, before: MeshLists, skins: seq<SkinData>, t: LoaderTables, bones: seq<Bone>, available: set<string>, hint: HardwareHint)
    reads mesh
  {
    ViewsDefined(skins, t) && |mesh.Skins| > 0 &&
    BuffersDefined(before.joints, bones, mesh.Skins[0].Submeshes, skins[0], t, available, hint)
  }

  /**
    What the assembly leaves in a mesh whose lists were before: one
    assembled skin per view, skin 0 as the default, the texture names and
    the buffer map appended, the animations appended, and the joints and
    buffers of the second stage.
  */
  ghost predicate Assembled(mesh: CM2Mesh, before: MeshLists, skins: seq<SkinData>, t: LoaderTables, anims: seq<Animation>, bones: seq<Bone>,
                            available: set<string>, hint: HardwareHint)
    reads mesh
    requires AssemblyDefined(mesh, before, skins, t, bones, available, hint)
  {
    ViewsAssembled(mesh, before.textures, before.bufferMap, skins, t) &&
    mesh.Animations == before.animations + MeshAnimations(anims) &&
    BuffersBuilt(mesh, before.buffers, before.ids, before.render, before.joints, bones, mesh.Skins[0].Submeshes, skins[0], t, available, hint)
  }

  /** The assembly part of load: the first stage, then the second. */
  method Assemble(mesh: CM2Mesh, skins: seq<SkinData>, t: LoaderTables, anims: seq<Animation>, bones: seq<Bone>, available: set<string>, hint: HardwareHint)
    returns (ok: bool)
    requires mesh.Valid() && mesh.Skins == []
    modifies mesh
    ensures ok == AssemblyDefined(mesh, old(ListsOf(mesh)), skins, t, bones, available, hint)
    ensures ok ==> Assembled(mesh, old(ListsOf(mesh)), skins, t, anims, bones, available, hint)
  {
    ghost var before := ListsOf(mesh);
    ok := AssembleViews(mesh, skins, t);
    if !ok {
      return;
    }
    assert ListsOf(mesh).(textures := before.textures, bufferMap := before.bufferMap) == before;
    ok := AssembleBuffers(mesh, skins[0], t, anims, bones, available, hint);
  }
}
