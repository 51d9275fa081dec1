/**
  CM2MeshFileLoader::BuildANewSubMesh: one mesh buffer per submesh, holding
  the submesh's triangles rebased to its first vertex, its vertices, a bone
  weight on the mesh's joints for every non-zero weight slot, and a material
  set from the render flags of the texture units that apply to it.
*/
module M2SubmeshBuild {
  import opened Wrappers
  import opened Bytes
  import opened M2Geometry
  import opened M2Records
  import opened M2Tables
  import opened M2Mesh
  import opened M2Assembly

  // ---------------------------------------------------------------------
  // Indices (cpp:765-771)
  // ---------------------------------------------------------------------

  /**
    The buffer holds u16 indices: a vertex index minus the submesh's first
    vertex, wrapped to 16 bits when the index lies before that vertex.
  */
  function Rebase(index: nat, ofsVertex: nat): nat
  {
    WrapU16(index - ofsVertex)
  }

  /**
    Rebasing loses nothing for indices inside the submesh: within a vertex
    range that fits in 16 bits, an index is rebased into [0, n) exactly when
    it lies in [ofsVertex, ofsVertex + n), and adding the offset back restores
    it; an index before the range wraps around instead.
  */
  lemma RebaseIntoRange(index: nat, ofsVertex: nat, n: nat)
    requires index < TWO16 && ofsVertex + n <= TWO16
    ensures Rebase(index, ofsVertex) < n <==> ofsVertex <= index < ofsVertex + n
    ensures ofsVertex <= index ==> Rebase(index, ofsVertex) + ofsVertex == index
    ensures index < ofsVertex ==> Rebase(index, ofsVertex) == index - ofsVertex + TWO16
  {
  }

  /** Every triangle entry of the submesh and the vertex index it names exist. */
  predicate TrianglesReadable(skin: SkinData, rec: ModelViewSubmesh)
  {
    rec.nTris == 0 ||
    (rec.ofsTris + rec.nTris <= |skin.Triangles| &&
     forall k | rec.ofsTris <= k < rec.ofsTris + rec.nTris :: skin.Triangles[k] < |skin.Indices|)
  }

  function RebasedIndices(skin: SkinData, rec: ModelViewSubmesh): (r: Outcome<seq<nat>>)
    ensures r.Done? ==> |r.value| == rec.nTris
  {
    if !TrianglesReadable(skin, rec) then Undefined
    else Done(seq<nat>(rec.nTris, k requires 0 <= k < rec.nTris => Rebase(skin.Indices[skin.Triangles[rec.ofsTris + k]], rec.ofsVertex)))
  }

  method RebaseIndices(skin: SkinData, rec: ModelViewSubmesh) returns (r: Outcome<seq<nat>>)
    ensures r == RebasedIndices(skin, rec)
  {
    var out := [];
    var j := rec.ofsTris;
    while j < rec.ofsTris + rec.nTris
      invariant rec.ofsTris <= j <= rec.ofsTris + rec.nTris
      invariant j > rec.ofsTris ==> j <= |skin.Triangles|
      invariant forall k | rec.ofsTris <= k < j :: k < |skin.Triangles| && skin.Triangles[k] < |skin.Indices|
      invariant out == seq(j - rec.ofsTris, k requires 0 <= k < j - rec.ofsTris =>
        Rebase(skin.Indices[skin.Triangles[rec.ofsTris + k]], rec.ofsVertex))
    {
      if j >= |skin.Triangles| || skin.Triangles[j] >= |skin.Indices| {
        return Undefined;
      }
      out := out + [Rebase(skin.Indices[skin.Triangles[j]], rec.ofsVertex)];
      j := j + 1;
    }
    return Done(out);
  }

  // ---------------------------------------------------------------------
  // Vertices and weights (cpp:773-788)
  // ---------------------------------------------------------------------

  /** The vertex the buffer holds: position, normal and texture coordinates. */
  function BufferVertex(v: ModelVertex): Vertex
  {
    Vertex(v.pos, v.normal, v.texcoords)
  }

  predicate VerticesReadable(vs: seq<ModelVertex>, rec: ModelViewSubmesh)
  {
    rec.nVertex == 0 || rec.ofsVertex + rec.nVertex <= |vs|
  }

  /** A weight to add: the joint it goes to and the weight. */
  datatype WeightAdd = WeightAdd(joint: nat, w: Weight)

  /**
    The weights of slots [0, k) of one vertex: every slot with a non-zero
    weight adds that weight to the joint the slot names, for the vertex's
    position in the buffer and the buffer's number sn.
  */
  function SlotAdds(v: ModelVertex, id: nat, sn: nat, k: nat): (r: seq<WeightAdd>)
    requires k <= 4
    ensures |r| <= k
  {
    if k == 0 then []
    else
      var add := if v.weights[k - 1] > 0 then [WeightAdd(v.bones[k - 1], Weight(v.weights[k - 1], id, sn))] else [];
      SlotAdds(v, id, sn, k - 1) + add
  }

  /** The weights of the first m vertices of the submesh, in order. */
  function WeightAdds(vs: seq<ModelVertex>, ofs: nat, m: nat, sn: nat): seq<WeightAdd>
    requires ofs + m <= |vs|
  {
    if m == 0 then []
    else WeightAdds(vs, ofs, m - 1, sn) + SlotAdds(vs[ofs + m - 1], m - 1, sn, 4)
  }

  /**
    Every weight a submesh adds has a non-zero strength, names a vertex of
    the buffer (its position there) and the buffer's number.
  */
  lemma {:induction false} WeightAddsTagged(vs: seq<ModelVertex>, ofs: nat, m: nat, sn: nat)
    requires ofs + m <= |vs|
    ensures forall a | a in WeightAdds(vs, ofs, m, sn) :: a.w.strength > 0 && a.w.vertex_id < m && a.w.buffer_id == sn
  {
    if m > 0 {
      WeightAddsTagged(vs, ofs, m - 1, sn);
      SlotAddsTagged(vs[ofs + m - 1], m - 1, sn, 4);
    }
  }

  lemma {:induction false} SlotAddsTagged(v: ModelVertex, id: nat, sn: nat, k: nat)
    requires k <= 4
    ensures forall a | a in SlotAdds(v, id, sn, k) :: a.w.strength > 0 && a.w.vertex_id == id && a.w.buffer_id == sn
  {
    if k > 0 {
      SlotAddsTagged(v, id, sn, k - 1);
    }
  }

  /** getAllJoints()[bone] must exist for every weight added. */
  predicate JointsKnown(adds: seq<WeightAdd>, joints: nat)
  {
    forall a | a in adds :: a.joint < joints
  }

  /** The joints after the weights are added one by one. */
  function WithWeights(joints: seq<Joint>, adds: seq<WeightAdd>): (r: seq<Joint>)
    requires JointsKnown(adds, |joints|)
    ensures |r| == |joints|
  {
    if adds == [] then joints
    else
      var last := adds[|adds| - 1];
      var js := WithWeights(joints, adds[..|adds| - 1]);
      js[last.joint := js[last.joint].(Weights := js[last.joint].Weights + [last.w])]
  }

  /** The weights of a list that go to one joint, in order. */
  function WeightsFor(adds: seq<WeightAdd>, joint: nat): seq<Weight>
  {
    if adds == [] then []
    else WeightsFor(adds[..|adds| - 1], joint) + (if adds[|adds| - 1].joint == joint then [adds[|adds| - 1].w] else [])
  }

  /**
    Adding the weights gives every joint exactly the weights meant for it,
    in order, after the ones it had, and changes nothing else about it.
  */
  lemma {:induction false} WeightsReachTheirJoints(joints: seq<Joint>, adds: seq<WeightAdd>, J: nat)
    requires JointsKnown(adds, |joints|) && J < |joints|
    ensures WithWeights(joints, adds)[J] == joints[J].(Weights := joints[J].Weights + WeightsFor(adds, J))
  {
    if adds != [] {
      assert JointsKnown(adds[..|adds| - 1], |joints|) by {
        forall a | a in adds[..|adds| - 1] ensures a.joint < |joints| {
          assert a in adds;
        }
      }
      WeightsReachTheirJoints(joints, adds[..|adds| - 1], J);
    }
  }

  /** One step of the weight loops: one more add on top of the joints so far. */
  lemma WithWeightsStep(joints: seq<Joint>, adds: seq<WeightAdd>, a: WeightAdd)
    requires JointsKnown(adds + [a], |joints|)
    ensures JointsKnown(adds, |joints|)
    ensures var js := WithWeights(joints, adds);
      WithWeights(joints, adds + [a]) == js[a.joint := js[a.joint].(Weights := js[a.joint].Weights + [a.w])]
  {
    assert (adds + [a])[..|adds|] == adds;
    assert forall x | x in adds :: x in adds + [a];
  }

  /** The slot loop of one vertex. */
  method AddSlotWeights(mesh: CM2Mesh, v: ModelVertex, id: nat, sn: nat, ghost joints: seq<Joint>, ghost adds: seq<WeightAdd>) returns (ok: bool)
    requires JointsKnown(adds, |joints|) && mesh.Joints == WithWeights(joints, adds)
    modifies mesh`Joints
    ensures var all := adds + SlotAdds(v, id, sn, 4);
      ok == JointsKnown(all, |joints|) && (ok ==> mesh.Joints == WithWeights(joints, all))
  {
    assert adds + SlotAdds(v, id, sn, 0) == adds;
    var k := 0;
    while k < 4
      invariant k <= 4
      invariant JointsKnown(adds + SlotAdds(v, id, sn, k), |joints|)
      invariant mesh.Joints == WithWeights(joints, adds + SlotAdds(v, id, sn, k))
    {
      ghost var before := adds + SlotAdds(v, id, sn, k);
      if v.weights[k] > 0 {
        var a := WeightAdd(v.bones[k], Weight(v.weights[k], id, sn));
        assert adds + SlotAdds(v, id, sn, k + 1) == before + [a];
        if v.bones[k] >= |mesh.Joints| {
          SlotsStayUnknown(v, id, sn, k + 1, adds, |joints|);
          return false;
        }
        WithWeightsStep(joints, before, a);
        mesh.AddWeight(v.bones[k], a.w);
      } else {
        assert adds + SlotAdds(v, id, sn, k + 1) == before;
      }
      k := k + 1;
    }
    return true;
  }

  /** An add to an unknown joint among the first k slots stays among all four. */
  lemma {:induction false} SlotsStayUnknown(v: ModelVertex, id: nat, sn: nat, k: nat, adds: seq<WeightAdd>, joints: nat)
    requires k <= 4 && !JointsKnown(adds + SlotAdds(v, id, sn, k), joints)
    ensures !JointsKnown(adds + SlotAdds(v, id, sn, 4), joints)
    decreases 4 - k
  {
    if k < 4 {
      var a :| a in adds + SlotAdds(v, id, sn, k) && a.joint >= joints;
      assert a in adds + SlotAdds(v, id, sn, k + 1);
      SlotsStayUnknown(v, id, sn, k + 1, adds, joints);
    }
  }

  /** An add to an unknown joint among the first m vertices stays among all n. */
  lemma {:induction false} VerticesStayUnknown(vs: seq<ModelVertex>, ofs: nat, m: nat, n: nat, sn: nat, joints: nat)
    requires m <= n && ofs + n <= |vs| && !JointsKnown(WeightAdds(vs, ofs, m, sn), joints)
    ensures !JointsKnown(WeightAdds(vs, ofs, n, sn), joints)
    decreases n - m
  {
    if m < n {
      var a :| a in WeightAdds(vs, ofs, m, sn) && a.joint >= joints;
      assert a in WeightAdds(vs, ofs, m + 1, sn);
      VerticesStayUnknown(vs, ofs, m + 1, n, sn, joints);
    }
  }

  /** The buffer's vertices and the joints once their weights are added. */
  function VerticesAndWeights(joints: seq<Joint>, vs: seq<ModelVertex>, rec: ModelViewSubmesh, sn: nat): (r: Outcome<(seq<Vertex>, seq<Joint>)>)
  {
    if !VerticesReadable(vs, rec) then Undefined
    else if rec.nVertex == 0 then Done(([], joints))
    else
      var adds := WeightAdds(vs, rec.ofsVertex, rec.nVertex, sn);
      if !JointsKnown(adds, |joints|) then Undefined
      else Done((BufferVertices(vs, rec), WithWeights(joints, adds)))
  }

  /** The buffer's vertices, when the submesh's vertex range exists. */
  function BufferVertices(vs: seq<ModelVertex>, rec: ModelViewSubmesh): seq<Vertex>
    requires rec.ofsVertex + rec.nVertex <= |vs|
  {
    seq(rec.nVertex, k requires 0 <= k < rec.nVertex => BufferVertex(vs[rec.ofsVertex + k]))
  }

  /** The weight loops over the submesh's vertices. */
  method AddVertexWeights(mesh: CM2Mesh, vs: seq<ModelVertex>, ofs: nat, n: nat, sn: nat) returns (ok: bool)
    requires ofs + n <= |vs|
    modifies mesh`Joints
    ensures var adds := WeightAdds(vs, ofs, n, sn);
      ok == JointsKnown(adds, |old(mesh.Joints)|) && (ok ==> mesh.Joints == WithWeights(old(mesh.Joints), adds))
  {
    ghost var joints := mesh.Joints;
    var m := 0;
    while m < n
      invariant m <= n
      invariant JointsKnown(WeightAdds(vs, ofs, m, sn), |joints|)
      invariant mesh.Joints == WithWeights(joints, WeightAdds(vs, ofs, m, sn))
    {
      assert WeightAdds(vs, ofs, m + 1, sn) == WeightAdds(vs, ofs, m, sn) + SlotAdds(vs[ofs + m], m, sn, 4);
      ok := AddSlotWeights(mesh, vs[ofs + m], m, sn, joints, WeightAdds(vs, ofs, m, sn));
      if !ok {
        VerticesStayUnknown(vs, ofs, m + 1, n, sn, |joints|);
        return false;
      }
      m := m + 1;
    }
    return true;
  }

  /**
    The vertex loop: each vertex, then its weight slots. The buffer's
    vertices are collected beside the weights, which the vertices do not
    depend on.
  */
  method CopyVertices(mesh: CM2Mesh, vs: seq<ModelVertex>, rec: ModelViewSubmesh, sn: nat) returns (r: Outcome<seq<Vertex>>)
    modifies mesh`Joints
    ensures var spec := VerticesAndWeights(old(mesh.Joints), vs, rec, sn);
      r.Done? == spec.Done? && (r.Done? ==> r.value == spec.value.0 && mesh.Joints == spec.value.1)
  {
    if rec.nVertex == 0 {
      return Done([]);
    }
    if rec.ofsVertex + rec.nVertex > |vs| {
      return Undefined;
    }
    var out := [];
    var m := 0;
    while m < rec.nVertex
      invariant m <= rec.nVertex
      invariant |out| == m && forall k | 0 <= k < m :: out[k] == BufferVertex(vs[rec.ofsVertex + k])
    {
      out := out + [BufferVertex(vs[rec.ofsVertex + m])];
      m := m + 1;
    }
    var ok := AddVertexWeights(mesh, vs, rec.ofsVertex, rec.nVertex, sn);
    if !ok {
      return Undefined;
    }
    assert out == BufferVertices(vs, rec);
    return Done(out);
  }

  // ---------------------------------------------------------------------
  // Material (cpp:790-888)
  // ---------------------------------------------------------------------

  /** The switch on the blending mode; modes above 6 leave the type as it was. */
  function BlendType(blending: nat, before: MaterialType): MaterialType
  {
    if blending == 0 then Solid
    else if blending == 1 then TransparentAlphaChannelRef
    else if blending <= 6 then OneTextureBlend(blending)
    else before
  }

  /**
    The render flags of a unit: unlit (bit 0), unfogged (bit 1), two-sided
    (bit 2) and not z-written (bit 4) each switch the matching material flag
    off.
  */
  function ApplyRenderFlags(m: Material, rf: RenderFlags): Material
  {
    m.(Lighting := rf.flags % 2 == 0,
       FogEnable := (rf.flags / 2) % 2 == 0,
       BackfaceCulling := (rf.flags / 4) % 2 == 0,
       ZWriteEnable := (rf.flags / 16) % 2 == 0,
       Type := BlendType(rf.blending, m.Type))
  }

  /**
    The material flags agree with the masks 0x01, 0x02, 0x04 and 0x10 of the
    u16 render flags; the material is solid only for blending mode 0 (or an
    unknown mode over a solid material), blending modes 2 to 6 are one-texture
    blends carrying their mode, and unknown modes keep the type.
  */
  lemma RenderFlagMasks(m: Material, rf: RenderFlags)
    requires rf.flags < TWO16
    ensures var r := ApplyRenderFlags(m, rf); var f := rf.flags as bv16;
      (r.Lighting <==> f & 0x01 == 0) && (r.FogEnable <==> f & 0x02 == 0) &&
      (r.BackfaceCulling <==> f & 0x04 == 0) && (r.ZWriteEnable <==> f & 0x10 == 0)
    ensures var r := ApplyRenderFlags(m, rf);
      (r.Type == Solid <==> rf.blending == 0 || (rf.blending > 6 && m.Type == Solid)) &&
      (r.Type == TransparentAlphaChannelRef <==> rf.blending == 1 || (rf.blending > 6 && m.Type == TransparentAlphaChannelRef)) &&
      (2 <= rf.blending <= 6 ==> r.Type == OneTextureBlend(rf.blending)) &&
      (rf.blending > 6 ==> r.Type == m.Type)
  {
    var f := rf.flags as bv16;
    assert (f & 0x01 == 0) <==> rf.flags % 2 == 0;
    assert (f & 0x02 == 0) <==> (rf.flags / 2) % 2 == 0;
    assert (f & 0x04 == 0) <==> (rf.flags / 4) % 2 == 0;
    assert (f & 0x10 == 0) <==> (rf.flags / 16) % 2 == 0;
  }

  /** The size of the buffer MakeTextureFilename formats the texture's file name into. */
  const TextureNameBuffer: nat := 1000

  /**
    One texture unit of the loop over all units. A unit of another submesh,
    or one whose texture file name is empty, changes nothing; a colour index
    other than -1 must name a colour with three colour values and an alpha
    value (they are converted, though the colour is not applied); a name
    that with its terminating NUL does not fit the 1000-byte buffer
    overflows it; a texture that cannot be found ends the iteration;
    otherwise the texture is set on its layer and the render flags are
    applied.
  */
  function MaterialStep(m: Material, u: TextureUnit, i: nat, t: LoaderTables, available: set<string>): Outcome<Material>
  {
    if u.submeshIndex1 != i then Done(m)
    else if u.textureIndex >= |t.textureLookup| || t.textureLookup[u.textureIndex] >= |t.textureFiles| then Undefined
    else
      var name := t.textureFiles[t.textureLookup[u.textureIndex]];
      if name == "" then Done(m)
      else if u.colorIndex != -1 &&
        !(0 <= u.colorIndex < |t.colors| && |t.colors[u.colorIndex].Colors.values| >= 3 && |t.colors[u.colorIndex].Alpha.values| >= 1)
      then Undefined
      else if |name| + 1 > TextureNameBuffer then Undefined
      else if name !in available then Done(m)
      else if u.renderFlagsIndex >= |t.renderFlags| then Undefined
      else Done(ApplyRenderFlags(m.(TextureLayers := m.TextureLayers + [(u.TextureUnitNumber, name)]), t.renderFlags[u.renderFlagsIndex]))
  }

  /** The material after the first k units. */
  function MaterialUpTo(units: seq<TextureUnit>, i: nat, t: LoaderTables, available: set<string>, k: nat): Outcome<Material>
    requires k <= |units|
  {
    if k == 0 then Done(DefaultMaterial)
    else match MaterialUpTo(units, i, t, available, k - 1)
      case Undefined => Undefined
      case Done(m) => MaterialStep(m, units[k - 1], i, t, available)
  }

  /** The fold of MaterialStep over any list of units, from a given material. */
  function MaterialFold(m: Material, us: seq<TextureUnit>, i: nat, t: LoaderTables, available: set<string>): Outcome<Material>
  {
    if us == [] then Done(m)
    else match MaterialFold(m, us[..|us| - 1], i, t, available)
      case Undefined => Undefined
      case Done(m') => MaterialStep(m', us[|us| - 1], i, t, available)
  }

  /**
    Only the units of submesh i count: the material is the same when the
    loop runs over just those units, in order.
  */
  lemma {:induction false} MaterialOnlyOwnUnits(units: seq<TextureUnit>, i: nat, t: LoaderTables, available: set<string>, k: nat)
    requires k <= |units|
    ensures MaterialUpTo(units, i, t, available, k) == MaterialFold(DefaultMaterial, UnitsOf(units[..k], i), i, t, available)
  {
    if k > 0 {
      MaterialOnlyOwnUnits(units, i, t, available, k - 1);
      var us := UnitsOf(units[..k - 1], i);
      assert units[..k][..k - 1] == units[..k - 1];
      if units[k - 1].submeshIndex1 == i {
        assert UnitsOf(units[..k], i) == us + [units[k - 1]];
        assert (us + [units[k - 1]])[..|us|] == us;
      } else {
        assert UnitsOf(units[..k], i) == us;
      }
    }
  }

  /** A submesh no unit applies to keeps the default material. */
  lemma UnitlessSubmeshDefault(units: seq<TextureUnit>, i: nat, t: LoaderTables, available: set<string>)
    requires forall k | 0 <= k < |units| :: units[k].submeshIndex1 != i
    ensures MaterialUpTo(units, i, t, available, |units|) == Done(DefaultMaterial)
  {
    MaterialOnlyOwnUnits(units, i, t, available, |units|);
    if UnitsOf(units, i) != [] {
      var u := UnitsOf(units, i)[0];
      UnitsOfAreUnits(units, i, u);
    }
    assert units[..|units|] == units;
  }

  /** The units of a submesh come from the list. */
  lemma {:induction false} UnitsOfAreUnits(units: seq<TextureUnit>, i: nat, u: TextureUnit)
    requires u in UnitsOf(units, i)
    ensures u in units
  {
    if units != [] && u !in UnitsOf(units[..|units| - 1], i) {
      assert u == units[|units| - 1];
    } else if units != [] {
      UnitsOfAreUnits(units[..|units| - 1], i, u);
      assert u in units[..|units| - 1];
    }
  }

  method MaterialFor(units: seq<TextureUnit>, i: nat, t: LoaderTables, available: set<string>) returns (r: Outcome<Material>)
    ensures r == MaterialUpTo(units, i, t, available, |units|)
  {
    var m := DefaultMaterial;
    var j := 0;
    while j < |units|
      invariant j <= |units|
      invariant MaterialUpTo(units, i, t, available, j) == Done(m)
    {
      var step := MaterialStep(m, units[j], i, t, available);
      if step.Undefined? {
        MaterialStaysUndefined(units, i, t, available, j + 1);
        return Undefined;
      }
      m := step.value;
      j := j + 1;
    }
    return Done(m);
  }

  lemma {:induction false} MaterialStaysUndefined(units: seq<TextureUnit>, i: nat, t: LoaderTables, available: set<string>, k: nat)
    requires k <= |units| && MaterialUpTo(units, i, t, available, k).Undefined?
    ensures MaterialUpTo(units, i, t, available, |units|).Undefined?
    decreases |units| - k
  {
    if k < |units| {
      MaterialStaysUndefined(units, i, t, available, k + 1);
    }
  }

  /**
    A texture name of 1000 bytes or more on a unit of submesh i overflows
    the name buffer, so the material of submesh i is undefined.
  */
  lemma TextureNameOverflowUndefined(units: seq<TextureUnit>, i: nat, t: LoaderTables, available: set<string>, k: nat)
    requires k < |units| && units[k].submeshIndex1 == i
    requires units[k].textureIndex < |t.textureLookup| && t.textureLookup[units[k].textureIndex] < |t.textureFiles|
    requires |t.textureFiles[t.textureLookup[units[k].textureIndex]]| >= TextureNameBuffer
    ensures MaterialUpTo(units, i, t, available, |units|).Undefined?
  {
    assert MaterialUpTo(units, i, t, available, k + 1).Undefined?;
    MaterialStaysUndefined(units, i, t, available, k + 1);
  }

  // ---------------------------------------------------------------------
  // The buffer (cpp:757-908)
  // ---------------------------------------------------------------------

  /** Static buffers for models without animations and global sequences, streamed ones otherwise. */
  function HintFor(animations: nat, globalSequences: nat): HardwareHint
  {
    if animations == 0 && globalSequences == 0 then Static else Stream
  }

  /**
    The buffer of submesh i of a skin, numbered sn, and the mesh's joints
    once its weights are added.
  */
  function NewSubMesh(joints: seq<Joint>, skin: SkinData, i: nat, sn: nat, t: LoaderTables, available: set<string>, hint: HardwareHint): (r: Outcome<(MeshBuffer, seq<Joint>)>)
    ensures r.Done? ==> (i < |skin.Submeshes| && |r.value.1| == |joints| &&
      |r.value.0.Indices| == skin.Submeshes[i].nTris && |r.value.0.Vertices| == skin.Submeshes[i].nVertex &&
      r.value.0.Hint == hint)
  {
    if i >= |skin.Submeshes| then Undefined
    else
      var rec := skin.Submeshes[i];
      match (RebasedIndices(skin, rec), VerticesAndWeights(joints, t.vertices, rec, sn), MaterialUpTo(skin.TextureUnits, i, t, available, |skin.TextureUnits|))
      case (Done(ix), Done((vx, js)), Done(mat)) => Done((MeshBuffer(ix, vx, mat, hint), js))
      case _ => Undefined
  }

  /**
    BuildANewSubMesh: adds a buffer for the submesh's mesh part, then fills
    it and adds the weights.
  */
  method BuildANewSubMesh(mesh: CM2Mesh, skin: SkinData, i: nat, sn: nat, t: LoaderTables, available: set<string>, hint: HardwareHint) returns (ok: bool)
    requires mesh.Valid()
    modifies mesh`GeoSetID, mesh`GeoSetRender, mesh`Buffers, mesh`Joints
    ensures var spec := NewSubMesh(old(mesh.Joints), skin, i, sn, t, available, hint);
      ok == spec.Done? &&
      (ok ==> (mesh.Valid() &&
        mesh.GeoSetID == old(mesh.GeoSetID) + [skin.Submeshes[i].meshpartId] &&
        mesh.GeoSetRender == old(mesh.GeoSetRender) + [skin.Submeshes[i].meshpartId == 0] &&
        mesh.Buffers == old(mesh.Buffers) + [spec.value.0] &&
        mesh.Joints == spec.value.1))
  {
    if i >= |skin.Submeshes| {
      return false;
    }
    var rec := skin.Submeshes[i];
    var index := mesh.AddMeshBuffer(rec.meshpartId);
    var ix := RebaseIndices(skin, rec);
    if ix.Undefined? {
      return false;
    }
    var vx := CopyVertices(mesh, t.vertices, rec, sn);
    if vx.Undefined? {
      return false;
    }
    var mat := MaterialFor(skin.TextureUnits, i, t, available);
    if mat.Undefined? {
      return false;
    }
    mesh.SetBuffer(index, MeshBuffer(ix.value, vx.value, mat.value, hint));
    return true;
  }
}
