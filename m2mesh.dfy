/**
  The output side of the M2 loader (CM2Mesh): the per-skin submesh and
  texture records, the flat buffer map, geoset bookkeeping, the skinned
  joints and animations, and the Group_of_Points bounding-box helper.
*/
module M2Mesh {
  import opened Wrappers
  import opened M2Geometry

  /** A texture description of a submesh (CM2Mesh::texture); all fields are u16. */
  datatype Texture = Texture(
    TextureNumber: nat,
    Path: nat,
    animated: bool,
    RenderFlag: nat,
    BlendFlag: nat,
    shaderType: nat,
    Mode: nat,
    Block: nat,
    VertexColor: nat,
    transparency: nat,
    uvanimation: nat)

  /**
    A submesh of one skin (CM2Mesh::submesh). NearestVertex is None when no
    vertex was nearer than the starting distance, where the loader leaves it
    indeterminate.
  */
  datatype Submesh = Submesh(
    MeshPart: nat,
    RootBone: nat,
    Radius: real,
    Distance: real,
    NearestVertex: Option<nat>,
    UniqueName: string,
    LoaderIndex: nat,
    Textures: seq<Texture>)

  datatype Skin = Skin(ID: nat, Submeshes: seq<Submesh>)

  /** The decal footprint of a submesh (the loader's Bounds). */
  datatype Bounds = Bounds(Wmax: real, Wmin: real, Hmax: real, Hmin: real)

  /** One entry of the flat submesh map (CM2Mesh::BufferInfo). */
  datatype BufferInfo = BufferInfo(
    ID: nat,
    Mode: nat,
    order: nat,
    block: nat,
    blend: nat,
    flag: nat,
    unknown: nat,
    solid: bool,
    animatedtexture: bool,
    Coordinates: Vec3,
    Back: real,
    Middle: real,
    Front: real,
    SortPoint: Option<real>,
    Radius: real,
    Xpos: real,
    Xneg: real,
    Ypos: real,
    Yneg: real)

  /** A vertex as the mesh buffers hold it (S3DVertex without its fixed colour). */
  datatype Vertex = Vertex(Pos: Vec3, Normal: Vec3, TCoords: Vec2)

  datatype MaterialType = Solid | TransparentAlphaChannel | TransparentAlphaChannelRef | OneTextureBlend(BlendMode: nat)

  datatype Material = Material(
    Lighting: bool,
    FogEnable: bool,
    BackfaceCulling: bool,
    ZWriteEnable: bool,
    Type: MaterialType,
    TextureLayers: seq<(nat, string)>)

  /** Irrlicht's material defaults for a new buffer. */
  const DefaultMaterial := Material(true, false, true, true, Solid, [])

  datatype HardwareHint = Never | Static | Stream

  datatype MeshBuffer = MeshBuffer(Indices: seq<nat>, Vertices: seq<Vertex>, Mat: Material, Hint: HardwareHint)

  const EmptyBuffer := MeshBuffer([], [], DefaultMaterial, Never)

  datatype PositionKey = PositionKey(frame: nat, position: Vec3)
  datatype RotationKey = RotationKey(frame: nat, rotation: Quat)
  datatype ScaleKey = ScaleKey(frame: nat, scale: Vec3)
  datatype Weight = Weight(strength: nat, vertex_id: nat, buffer_id: nat)

  datatype Joint = Joint(
    Parent: Option<nat>,
    Name: string,
    PositionKeys: seq<PositionKey>,
    RotationKeys: seq<RotationKey>,
    ScaleKeys: seq<ScaleKey>,
    Weights: seq<Weight>,
    Animatedposition: Vec3)

  /** An animation range handed to the mesh; start and end are s32 there. */
  datatype M2Animation = M2Animation(id: nat, start: int, end: int, probability: real)

  class CM2Mesh {
    var GeoSetID: seq<nat>
    var GeoSetRender: seq<bool>
    var Buffers: seq<MeshBuffer>
    var Joints: seq<Joint>
    var Animations: seq<M2Animation>
    var Skins: seq<Skin>
    var SkinID: nat
    var Textures: seq<string>
    var BufferMap: seq<BufferInfo>

    /** Geoset bookkeeping runs in step with the buffers. */
    ghost predicate Valid()
      reads this
    {
      |GeoSetID| == |GeoSetRender| == |Buffers|
    }

    constructor ()
      ensures Valid()
      ensures GeoSetID == [] && GeoSetRender == [] && Buffers == [] && Joints == []
      ensures Animations == [] && Skins == [] && SkinID == 0 && Textures == [] && BufferMap == []
    {
      GeoSetID := [];
      GeoSetRender := [];
      Buffers := [];
      Joints := [];
      Animations := [];
      Skins := [];
      SkinID := 0;
      Textures := [];
      BufferMap := [];
    }

    /**
      addMeshBuffer(id): records the mesh part id and whether it renders by
      default (only mesh part 0 does), then adds an empty buffer.
    */
    method AddMeshBuffer(id: nat) returns (index: nat)
      requires Valid()
      modifies this`GeoSetID, this`GeoSetRender, this`Buffers
      ensures Valid()
      ensures GeoSetID == old(GeoSetID) + [id]
      ensures GeoSetRender == old(GeoSetRender) + [id == 0]
      ensures Buffers == old(Buffers) + [EmptyBuffer]
      ensures index == |old(Buffers)|
    {
      GeoSetID := GeoSetID + [id];
      GeoSetRender := GeoSetRender + [id == 0];
      index := |Buffers|;
      Buffers := Buffers + [EmptyBuffer];
    }

    /** Replaces the contents of a buffer the loader has finished filling. */
    method SetBuffer(index: nat, b: MeshBuffer)
      requires Valid() && index < |Buffers|
      modifies this`Buffers
      ensures Valid()
      ensures Buffers == old(Buffers)[index := b]
    {
      Buffers := Buffers[index := b];
    }

    /** addJoint(parent): a new unnamed joint without keys, linked to its parent. */
    method AddJoint(parent: Option<nat>) returns (index: nat)
      modifies this`Joints
      ensures Joints == old(Joints) + [Joint(parent, "", [], [], [], [], Vec3(0.0, 0.0, 0.0))]
      ensures index == |old(Joints)|
    {
      index := |Joints|;
      Joints := Joints + [Joint(parent, "", [], [], [], [], Vec3(0.0, 0.0, 0.0))];
    }

    method SetJoint(index: nat, j: Joint)
      requires index < |Joints|
      modifies this`Joints
      ensures Joints == old(Joints)[index := j]
    {
      Joints := Joints[index := j];
    }

    /** addWeight(joint): one more weight on that joint. */
    method AddWeight(joint: nat, w: Weight)
      requires joint < |Joints|
      modifies this`Joints
      ensures Joints == old(Joints)[joint := old(Joints)[joint].(Weights := old(Joints)[joint].Weights + [w])]
    {
      Joints := Joints[joint := Joints[joint].(Weights := Joints[joint].Weights + [w])];
    }

    /** newAnimation(id, start, end, probability). */
    method NewAnimation(a: M2Animation)
      modifies this`Animations
      ensures Animations == old(Animations) + [a]
    {
      Animations := Animations + [a];
    }
  }

  /** A float that may be infinite, as the bounding-box helper uses them. */
  datatype Ext = NegInf | Fin(v: real) | PosInf | NaN

  /** IEEE `<`: false whenever NaN takes part. */
  predicate Less(a: Ext, b: Ext)
  {
    match (a, b)
    case (NegInf, Fin(_)) => true
    case (NegInf, PosInf) => true
    case (Fin(x), Fin(y)) => x < y
    case (Fin(_), PosInf) => true
    case _ => false
  }

  predicate LessEq(a: Ext, b: Ext)
  {
    Less(a, b) || (a == b && a != NaN)
  }

  function Add(a: Ext, b: Ext): Ext
  {
    match (a, b)
    case (Fin(x), Fin(y)) => Fin(x + y)
    case (NaN, _) => NaN
    case (_, NaN) => NaN
    case (PosInf, NegInf) => NaN
    case (NegInf, PosInf) => NaN
    case (PosInf, _) => PosInf
    case (_, PosInf) => PosInf
    case _ => NegInf
  }

  function Half(a: Ext): Ext
  {
    if a.Fin? then Fin(a.v * 0.5) else a
  }

  datatype EVec = EVec(X: Ext, Y: Ext, Z: Ext)

  datatype Box = Box(MinEdge: EVec, MaxEdge: EVec)

  function ToEVec(v: Vec3): EVec
  {
    EVec(Fin(v.X), Fin(v.Y), Fin(v.Z))
  }

  /** The box computeBBox starts from: impossibly small. */
  const ResetBox := Box(EVec(PosInf, PosInf, PosInf), EVec(NegInf, NegInf, NegInf))

  /** Irrlicht's default box, from (-1,-1,-1) to (1,1,1). */
  const DefaultBox := Box(EVec(Fin(-1.0), Fin(-1.0), Fin(-1.0)), EVec(Fin(1.0), Fin(1.0), Fin(1.0)))

  predicate ContainsPoint(b: Box, p: Vec3)
  {
    LessEq(b.MinEdge.X, Fin(p.X)) && LessEq(Fin(p.X), b.MaxEdge.X) &&
    LessEq(b.MinEdge.Y, Fin(p.Y)) && LessEq(Fin(p.Y), b.MaxEdge.Y) &&
    LessEq(b.MinEdge.Z, Fin(p.Z)) && LessEq(Fin(p.Z), b.MaxEdge.Z)
  }

  /** `inner` lies within `outer` edge by edge. */
  predicate Within(inner: Box, outer: Box)
  {
    LessEq(outer.MinEdge.X, inner.MinEdge.X) && LessEq(inner.MaxEdge.X, outer.MaxEdge.X) &&
    LessEq(outer.MinEdge.Y, inner.MinEdge.Y) && LessEq(inner.MaxEdge.Y, outer.MaxEdge.Y) &&
    LessEq(outer.MinEdge.Z, inner.MinEdge.Z) && LessEq(inner.MaxEdge.Z, outer.MaxEdge.Z)
  }

  predicate NoNaN(b: Box)
  {
    b.MinEdge.X != NaN && b.MinEdge.Y != NaN && b.MinEdge.Z != NaN &&
    b.MaxEdge.X != NaN && b.MaxEdge.Y != NaN && b.MaxEdge.Z != NaN
  }

  function LowerTo(e: Ext, x: real): Ext
  {
    if Less(Fin(x), e) then Fin(x) else e
  }

  function RaiseTo(e: Ext, x: real): Ext
  {
    if Less(e, Fin(x)) then Fin(x) else e
  }

  /** extend(v): each edge moves out just far enough to take in v. */
  function Extend(b: Box, v: Vec3): Box
  {
    Box(EVec(LowerTo(b.MinEdge.X, v.X), LowerTo(b.MinEdge.Y, v.Y), LowerTo(b.MinEdge.Z, v.Z)),
        EVec(RaiseTo(b.MaxEdge.X, v.X), RaiseTo(b.MaxEdge.Y, v.Y), RaiseTo(b.MaxEdge.Z, v.Z)))
  }

  /** After extend(v) the box holds v and has not shrunk. */
  lemma ExtendContains(b: Box, v: Vec3)
    requires NoNaN(b)
    ensures NoNaN(Extend(b, v))
    ensures ContainsPoint(Extend(b, v), v)
    ensures Within(b, Extend(b, v))
  {
  }

  /** A box that holds p still holds it after any extension. */
  lemma ExtendKeeps(b: Box, v: Vec3, p: Vec3)
    requires NoNaN(b) && ContainsPoint(b, p)
    ensures ContainsPoint(Extend(b, v), p)
  {
  }

  /** The box computeBBox builds: the reset box extended by each indexed position in turn. */
  function BoxOf(b: Box, positions: seq<Vec3>, idx: seq<nat>): Box
    requires forall i | 0 <= i < |idx| :: idx[i] < |positions|
    decreases |idx|
  {
    if idx == [] then b else BoxOf(Extend(b, positions[idx[0]]), positions, idx[1..])
  }

  /** Every indexed position lies in the computed box. */
  lemma {:induction false} BoxOfContains(b: Box, positions: seq<Vec3>, idx: seq<nat>, k: nat)
    requires NoNaN(b)
    requires forall i | 0 <= i < |idx| :: idx[i] < |positions|
    requires k < |idx|
    ensures NoNaN(BoxOf(b, positions, idx))
    ensures ContainsPoint(BoxOf(b, positions, idx), positions[idx[k]])
    decreases |idx|
  {
    ExtendContains(b, positions[idx[0]]);
    BoxOfNoNaN(Extend(b, positions[idx[0]]), positions, idx[1..]);
    if k == 0 {
      BoxOfKeeps(Extend(b, positions[idx[0]]), positions, idx[1..], positions[idx[0]]);
    } else {
      BoxOfContains(Extend(b, positions[idx[0]]), positions, idx[1..], k - 1);
    }
  }

  lemma {:induction false} BoxOfNoNaN(b: Box, positions: seq<Vec3>, idx: seq<nat>)
    requires NoNaN(b)
    requires forall i | 0 <= i < |idx| :: idx[i] < |positions|
    ensures NoNaN(BoxOf(b, positions, idx))
    decreases |idx|
  {
    if idx != [] {
      ExtendContains(b, positions[idx[0]]);
      BoxOfNoNaN(Extend(b, positions[idx[0]]), positions, idx[1..]);
    }
  }

  lemma {:induction false} BoxOfKeeps(b: Box, positions: seq<Vec3>, idx: seq<nat>, p: Vec3)
    requires NoNaN(b) && ContainsPoint(b, p)
    requires forall i | 0 <= i < |idx| :: idx[i] < |positions|
    ensures ContainsPoint(BoxOf(b, positions, idx), p)
    decreases |idx|
  {
    if idx != [] {
      ExtendContains(b, positions[idx[0]]);
      ExtendKeeps(b, positions[idx[0]], p);
      BoxOfKeeps(Extend(b, positions[idx[0]]), positions, idx[1..], p);
    }
  }

  /** getValueByAxis_FromVector: X, Y or Z for axis 1, 2 or 3; any other axis has no defined result. */
  function GetValueByAxis(axis: nat, v: EVec): (r: Ext)
    requires 1 <= axis <= 3
    ensures axis == 1 ==> r == v.X
    ensures axis == 2 ==> r == v.Y
    ensures axis == 3 ==> r == v.Z
  {
    if axis == 1 then v.X else if axis == 2 then v.Y else v.Z
  }

  /** The split point of a box: halfway between its edges on the axis (NaN for an emptied box). */
  function SplitPoint(b: Box, axis: nat): Ext
    requires 1 <= axis <= 3
  {
    Half(Add(GetValueByAxis(axis, b.MinEdge), GetValueByAxis(axis, b.MaxEdge)))
  }

  predicate Above(positions: seq<Vec3>, i: nat, axis: nat, sp: Ext)
    requires i < |positions| && 1 <= axis <= 3
  {
    Less(sp, GetValueByAxis(axis, ToEVec(positions[i])))
  }

  /** The indices x of idx with test(x) == want, in their order. */
  function Select(idx: seq<nat>, test: nat -> bool, want: bool): (r: seq<nat>)
    ensures |r| <= |idx|
    decreases |idx|
  {
    if idx == [] then []
    else
      var last := idx[|idx| - 1];
      Select(idx[..|idx| - 1], test, want) + (if test(last) == want then [last] else [])
  }

  /** Every index is selected by exactly one of the two answers. */
  lemma {:induction false} SelectPartitions(idx: seq<nat>, test: nat -> bool)
    ensures multiset(Select(idx, test, false)) + multiset(Select(idx, test, true)) == multiset(idx)
    decreases |idx|
  {
    if idx != [] {
      var init, last := idx[..|idx| - 1], idx[|idx| - 1];
      SelectPartitions(init, test);
      assert idx == init + [last];
    }
  }

  /** What is selected passes the test as wanted and comes from idx. */
  lemma {:induction false} SelectSides(idx: seq<nat>, test: nat -> bool, want: bool, n: nat)
    requires forall i | 0 <= i < |idx| :: idx[i] < n
    ensures forall i | 0 <= i < |Select(idx, test, want)| ::
      Select(idx, test, want)[i] < n && test(Select(idx, test, want)[i]) == want
    decreases |idx|
  {
    if idx != [] {
      SelectSides(idx[..|idx| - 1], test, want, n);
    }
  }

  /** The test the split applies to a position index. */
  function AboveTest(positions: seq<Vec3>, axis: nat, sp: Ext): nat -> bool
    requires 1 <= axis <= 3
  {
    (i: nat) => i < |positions| && Above(positions, i, axis, sp)
  }

  /** The indices an intended split keeps: those not beyond the split point, in order. */
  function Kept(positions: seq<Vec3>, idx: seq<nat>, axis: nat, sp: Ext): seq<nat>
    requires 1 <= axis <= 3
  {
    Select(idx, AboveTest(positions, axis, sp), false)
  }

  /** The indices an intended split moves: those beyond the split point, in order. */
  function Moved(positions: seq<Vec3>, idx: seq<nat>, axis: nat, sp: Ext): seq<nat>
    requires 1 <= axis <= 3
  {
    Select(idx, AboveTest(positions, axis, sp), true)
  }

  /** Every index ends up in exactly one of the two groups. */
  lemma SplitPartitions(positions: seq<Vec3>, idx: seq<nat>, axis: nat, sp: Ext)
    requires 1 <= axis <= 3
    ensures multiset(Kept(positions, idx, axis, sp)) + multiset(Moved(positions, idx, axis, sp)) == multiset(idx)
  {
    SelectPartitions(idx, AboveTest(positions, axis, sp));
  }

  /**
    The moved indices are exactly those beyond the split point and the kept
    ones those not beyond it; all remain valid position indices.
  */
  lemma SplitSides(positions: seq<Vec3>, idx: seq<nat>, axis: nat, sp: Ext)
    requires 1 <= axis <= 3
    requires forall i | 0 <= i < |idx| :: idx[i] < |positions|
    ensures forall i | 0 <= i < |Kept(positions, idx, axis, sp)| ::
      Kept(positions, idx, axis, sp)[i] < |positions| && !Above(positions, Kept(positions, idx, axis, sp)[i], axis, sp)
    ensures forall i | 0 <= i < |Moved(positions, idx, axis, sp)| ::
      Moved(positions, idx, axis, sp)[i] < |positions| && Above(positions, Moved(positions, idx, axis, sp)[i], axis, sp)
  {
    SelectSides(idx, AboveTest(positions, axis, sp), false, |positions|);
    SelectSides(idx, AboveTest(positions, axis, sp), true, |positions|);
  }

  /**
    The split as written: `erase(i)` leaves Irrlicht's list iterator at the
    end of the list, so the loop stops after the first index it moves.
    Returns the indices kept and the indices moved.
  */
  function SplitAsWritten(positions: seq<Vec3>, idx: seq<nat>, axis: nat, sp: Ext): (seq<nat>, seq<nat>)
    requires 1 <= axis <= 3
    requires forall i | 0 <= i < |idx| :: idx[i] < |positions|
    decreases |idx|
  {
    if idx == [] then ([], [])
    else if Above(positions, idx[0], axis, sp) then (idx[1..], [idx[0]])
    else
      var (k, m) := SplitAsWritten(positions, idx[1..], axis, sp);
      ([idx[0]] + k, m)
  }

  /**
    Two points both beyond the split point of the box [0, 10] on X: the
    split as written moves only the first, and keeps a point beyond the
    split point; the intended split moves both.
  */
  lemma SplitAsWrittenStopsEarly()
    ensures var positions := [Vec3(6.0, 0.0, 0.0), Vec3(7.0, 0.0, 0.0)];
            var sp := SplitPoint(Box(EVec(Fin(0.0), Fin(0.0), Fin(0.0)), EVec(Fin(10.0), Fin(0.0), Fin(0.0))), 1);
            SplitAsWritten(positions, [0, 1], 1, sp) == ([1], [0]) &&
            Above(positions, 1, 1, sp) &&
            Moved(positions, [0, 1], 1, sp) == [0, 1] &&
            Kept(positions, [0, 1], 1, sp) == []
  {
    var positions := [Vec3(6.0, 0.0, 0.0), Vec3(7.0, 0.0, 0.0)];
    var sp := SplitPoint(Box(EVec(Fin(0.0), Fin(0.0), Fin(0.0)), EVec(Fin(10.0), Fin(0.0), Fin(0.0))), 1);
    assert sp == Fin(5.0);
    assert [0, 1][1..] == [1];
    assert [1][1..] == [];
  }

  /** A group of vertex indices of one submesh with its bounding box (Group_of_Points). */
  class GroupOfPoints {
    var Bounds: Box
    var Indices: seq<nat>

    constructor ()
      ensures Bounds == DefaultBox && Indices == []
    {
      Bounds := DefaultBox;
      Indices := [];
    }

    /** empty(): no indices, or a box whose two corners coincide. */
    function Empty(): (r: bool)
      reads this
      ensures r <==> Indices == [] || Bounds.MinEdge == Bounds.MaxEdge
    {
      if Indices == [] then true
      else if Bounds.MinEdge == Bounds.MaxEdge then true
      else false
    }

    method ExtendBy(v: Vec3)
      modifies this`Bounds
      ensures Bounds == Extend(old(Bounds), v)
    {
      var b := Bounds;
      var mn := b.MinEdge;
      var mx := b.MaxEdge;
      if Less(Fin(v.X), mn.X) { mn := mn.(X := Fin(v.X)); }
      if Less(Fin(v.Y), mn.Y) { mn := mn.(Y := Fin(v.Y)); }
      if Less(Fin(v.Z), mn.Z) { mn := mn.(Z := Fin(v.Z)); }
      if Less(mx.X, Fin(v.X)) { mx := mx.(X := Fin(v.X)); }
      if Less(mx.Y, Fin(v.Y)) { mx := mx.(Y := Fin(v.Y)); }
      if Less(mx.Z, Fin(v.Z)) { mx := mx.(Z := Fin(v.Z)); }
      Bounds := Box(mn, mx);
    }

    /** computeBBox: reset to the impossibly small box, then extend by every indexed position. */
    method ComputeBBox(positions: seq<Vec3>)
      requires forall i | 0 <= i < |Indices| :: Indices[i] < |positions|
      modifies this`Bounds
      ensures Bounds == BoxOf(ResetBox, positions, Indices)
    {
      Bounds := ResetBox;
      var k := 0;
      while k < |Indices|
        invariant 0 <= k <= |Indices|
        invariant BoxOf(Bounds, positions, Indices[k..]) == BoxOf(ResetBox, positions, Indices)
      {
        assert Indices[k..][1..] == Indices[k + 1..];
        ExtendBy(positions[Indices[k]]);
        k := k + 1;
      }
    }

    /**
      The loop of split(axis): one pass over the indices, sending those
      beyond the split point to the new group and keeping the rest.
    */
    static method Partition(positions: seq<Vec3>, idx: seq<nat>, axis: nat, sp: Ext) returns (kept: seq<nat>, moved: seq<nat>)
      requires 1 <= axis <= 3
      requires forall i | 0 <= i < |idx| :: idx[i] < |positions|
      ensures kept == Kept(positions, idx, axis, sp)
      ensures moved == Moved(positions, idx, axis, sp)
    {
      kept, moved := [], [];
      var k := 0;
      while k < |idx|
        invariant 0 <= k <= |idx|
        invariant kept == Kept(positions, idx[..k], axis, sp)
        invariant moved == Moved(positions, idx[..k], axis, sp)
      {
        assert idx[..k + 1][..k] == idx[..k];
        if Above(positions, idx[k], axis, sp) {
          moved := moved + [idx[k]];
        } else {
          kept := kept + [idx[k]];
        }
        k := k + 1;
      }
      assert idx[..k] == idx;
    }

    /**
      split(axis): indices beyond the midpoint of the box on the axis move to
      a new group; both boxes are then recomputed.
    */
    method Split(axis: nat, positions: seq<Vec3>) returns (newbox: GroupOfPoints)
      requires 1 <= axis <= 3
      requires forall i | 0 <= i < |Indices| :: Indices[i] < |positions|
      modifies this
      ensures fresh(newbox)
      ensures var sp := SplitPoint(old(Bounds), axis);
              Indices == Kept(positions, old(Indices), axis, sp) &&
              newbox.Indices == Moved(positions, old(Indices), axis, sp)
      ensures forall i | 0 <= i < |Indices| :: Indices[i] < |positions|
      ensures forall i | 0 <= i < |newbox.Indices| :: newbox.Indices[i] < |positions|
      ensures Bounds == BoxOf(ResetBox, positions, Indices)
      ensures newbox.Bounds == BoxOf(ResetBox, positions, newbox.Indices)
    {
      var sp := SplitPoint(Bounds, axis);
      newbox := new GroupOfPoints();
      var kept, moved := Partition(positions, Indices, axis, sp);
      SplitSides(positions, Indices, axis, sp);
      Indices := kept;
      newbox.Indices := moved;
      ComputeBBox(positions);
      newbox.ComputeBBox(positions);
    }
  }
}
