/**
  CM2MeshFileLoader::CopyAnimationsToMesh: the model's animation sequences
  and its skeleton become the mesh's animations and joints, each joint linked
  to the joint of its parent bone, named after its key bone and carrying its
  position, rotation and scale keys.
*/
module M2Skeleton {
  import opened Wrappers
  import opened Bytes
  import opened M2Geometry
  import opened M2Anim
  import opened M2Tables
  import opened M2Mesh

  // ---------------------------------------------------------------------
  // Animations (cpp:580-583)
  // ---------------------------------------------------------------------

  /** newAnimation's s32 start and end are the file's u32 fields read as signed. */
  function MeshAnimation(a: Animation): M2Animation
  {
    M2Animation(a.animationID, Signed32(WrapU32(a.start)), Signed32(WrapU32(a.end)), a.probability)
  }

  /** The animation list of the mesh after the copy: one entry per sequence, in order. */
  function MeshAnimations(anims: seq<Animation>): (r: seq<M2Animation>)
    ensures |r| == |anims|
    ensures forall i | 0 <= i < |anims| :: r[i].id == anims[i].animationID && r[i].probability == anims[i].probability
  {
    seq(|anims|, i requires 0 <= i < |anims| => MeshAnimation(anims[i]))
  }

  /** A start or end below 2^31 arrives unchanged; larger ones turn negative. */
  lemma MeshAnimationFrames(a: Animation)
    requires a.start < TWO32 && a.end < TWO32
    ensures var m := MeshAnimation(a);
      (a.start < 0x8000_0000 <==> m.start == a.start) && (a.end < 0x8000_0000 <==> m.end == a.end) &&
      (m.start < 0 <==> a.start >= 0x8000_0000) && m.start % TWO32 == a.start
  {
  }

  // ---------------------------------------------------------------------
  // Joint names (cpp:596-705)
  // ---------------------------------------------------------------------

  /** The names of the key bones, by key-bone index. */
  const KeyBoneNames: seq<string> := [
    "ArmL", "ArmR", "ShoulderL", "ShoulderR", "SpineLow", "Waist", "Head", "Jaw",
    "IndexFingerR", "MiddleFingerR", "PinkyFingerR", "RingFingerR", "ThumbR",
    "IndexFingerL", "MiddleFingerL", "PinkyFingerL", "RingFingerL", "ThumbL",
    "$BTH", "$CSR", "$CSL", "_Breath", "_Name", "_NameMount", "$CHD", "$CCH", "Root",
    "Wheel1", "Wheel2", "Wheel3", "Wheel4", "Wheel5", "Wheel6", "Wheel7", "Wheel8"]

  /** The joint's name: the key bone's name, or empty when the bone is no key bone. */
  function JointName(keyBone: int): string
  {
    if 0 <= keyBone < |KeyBoneNames| then KeyBoneNames[keyBone] else ""
  }

  /** Key bones 0 to 34 get a name; every other index, -1 included, leaves the name empty. */
  lemma JointNamesIdentifyKeyBones(a: int)
    ensures JointName(a) == "" <==> !(0 <= a < 35)
  {
    assert |KeyBoneNames| == 35;
    assert forall i | 0 <= i < 35 :: |KeyBoneNames[i]| > 0;
  }

  // ---------------------------------------------------------------------
  // Keys (cpp:707-741)
  // ---------------------------------------------------------------------

  /** Each timestamp j reads values[3j .. 3j+3), or values[4j .. 4j+4) for rotations. */
  predicate KeysReadable(b: AnimBlock, width: nat)
  {
    width * |b.timestamps| <= |b.values|
  }

  function PositionKeys(b: AnimBlock): (r: Outcome<seq<PositionKey>>)
  {
    if !KeysReadable(b, 3) then Undefined
    else Done(seq(|b.timestamps|, j requires 0 <= j < |b.timestamps| =>
      PositionKey(b.timestamps[j], FixCoordSystem(Vec3(b.values[3 * j], b.values[3 * j + 1], b.values[3 * j + 2])))))
  }

  function RotationKeys(b: AnimBlock): (r: Outcome<seq<RotationKey>>)
  {
    if !KeysReadable(b, 4) then Undefined
    else Done(seq(|b.timestamps|, j requires 0 <= j < |b.timestamps| =>
      RotationKey(b.timestamps[j], FixQuaternion(Quat(b.values[4 * j], b.values[4 * j + 1], b.values[4 * j + 2], b.values[4 * j + 3])))))
  }

  function ScaleKeys(b: AnimBlock): (r: Outcome<seq<ScaleKey>>)
  {
    if !KeysReadable(b, 3) then Undefined
    else Done(seq(|b.timestamps|, j requires 0 <= j < |b.timestamps| =>
      ScaleKey(b.timestamps[j], Vec3(b.values[3 * j], b.values[3 * j + 1], b.values[3 * j + 2]))))
  }

  /**
    The keys lose nothing: there is one per timestamp, at that frame, and
    undoing the axis swap gives back the values of the file.
  */
  lemma KeysKeepValues(b: AnimBlock, j: nat)
    requires j < |b.timestamps|
    ensures PositionKeys(b).Done? <==> 3 * |b.timestamps| <= |b.values|
    ensures RotationKeys(b).Done? <==> 4 * |b.timestamps| <= |b.values|
    ensures PositionKeys(b).Done? ==> (|PositionKeys(b).value| == |b.timestamps| &&
      var k := PositionKeys(b).value[j];
      k.frame == b.timestamps[j] &&
      FixCoordSystem(k.position) == Vec3(b.values[3 * j], b.values[3 * j + 1], b.values[3 * j + 2]))
    ensures RotationKeys(b).Done? ==> (|RotationKeys(b).value| == |b.timestamps| &&
      var k := RotationKeys(b).value[j];
      k.frame == b.timestamps[j] &&
      FixQuaternion(k.rotation) == Quat(b.values[4 * j], b.values[4 * j + 1], b.values[4 * j + 2], b.values[4 * j + 3]))
  {
    if PositionKeys(b).Done? {
      FixCoordSystemInvolution(Vec3(b.values[3 * j], b.values[3 * j + 1], b.values[3 * j + 2]));
    }
    if RotationKeys(b).Done? {
      FixQuaternionInvolution(Quat(b.values[4 * j], b.values[4 * j + 1], b.values[4 * j + 2], b.values[4 * j + 3]));
    }
  }

  method CopyPositionKeys(b: AnimBlock) returns (r: Outcome<seq<PositionKey>>)
    ensures r == PositionKeys(b)
  {
    var keys := [];
    var j := 0;
    while j < |b.timestamps|
      invariant j <= |b.timestamps|
      invariant |keys| == j
      invariant 3 * j <= |b.values|
      invariant forall i | 0 <= i < j ::
        keys[i] == PositionKey(b.timestamps[i], FixCoordSystem(Vec3(b.values[3 * i], b.values[3 * i + 1], b.values[3 * i + 2])))
    {
      if 3 * j + 2 >= |b.values| {
        return Undefined;
      }
      keys := keys + [PositionKey(b.timestamps[j], FixCoordSystem(Vec3(b.values[3 * j], b.values[3 * j + 1], b.values[3 * j + 2])))];
      j := j + 1;
    }
    assert KeysReadable(b, 3);
    assert keys == PositionKeys(b).value;
    return Done(keys);
  }

  method CopyRotationKeys(b: AnimBlock) returns (r: Outcome<seq<RotationKey>>)
    ensures r == RotationKeys(b)
  {
    var keys := [];
    var j := 0;
    while j < |b.timestamps|
      invariant j <= |b.timestamps|
      invariant |keys| == j
      invariant 4 * j <= |b.values|
      invariant forall i | 0 <= i < j ::
        keys[i] == RotationKey(b.timestamps[i], FixQuaternion(Quat(b.values[4 * i], b.values[4 * i + 1], b.values[4 * i + 2], b.values[4 * i + 3])))
    {
      if 4 * j + 3 >= |b.values| {
        return Undefined;
      }
      keys := keys + [RotationKey(b.timestamps[j], FixQuaternion(Quat(b.values[4 * j], b.values[4 * j + 1], b.values[4 * j + 2], b.values[4 * j + 3])))];
      j := j + 1;
    }
    assert KeysReadable(b, 4);
    assert keys == RotationKeys(b).value;
    return Done(keys);
  }

  method CopyScaleKeys(b: AnimBlock) returns (r: Outcome<seq<ScaleKey>>)
    ensures r == ScaleKeys(b)
  {
    var keys := [];
    var j := 0;
    while j < |b.timestamps|
      invariant j <= |b.timestamps|
      invariant |keys| == j
      invariant 3 * j <= |b.values|
      invariant forall i | 0 <= i < j ::
        keys[i] == ScaleKey(b.timestamps[i], Vec3(b.values[3 * i], b.values[3 * i + 1], b.values[3 * i + 2]))
    {
      if 3 * j + 2 >= |b.values| {
        return Undefined;
      }
      keys := keys + [ScaleKey(b.timestamps[j], Vec3(b.values[3 * j], b.values[3 * j + 1], b.values[3 * j + 2]))];
      j := j + 1;
    }
    assert KeysReadable(b, 3);
    assert keys == ScaleKeys(b).value;
    return Done(keys);
  }

  // ---------------------------------------------------------------------
  // Joints (cpp:585-753)
  // ---------------------------------------------------------------------

  /**
    The parent of a bone's joint, given the joints the mesh already has:
    none for parent -1, otherwise the joint at that index, which must exist.
  */
  function ParentJoint(parentBone: int, joints: nat): Outcome<Option<nat>>
  {
    if parentBone == -1 then Done(None)
    else if 0 <= parentBone < joints then Done(Some(parentBone))
    else Undefined
  }

  /** The joint a bone becomes when the mesh already has the given number of joints. */
  function JointOf(b: Bone, joints: nat): Outcome<Joint>
  {
    match (ParentJoint(b.parentBone, joints), PositionKeys(b.translation), RotationKeys(b.rotation), ScaleKeys(b.scaling))
    case (Done(p), Done(pk), Done(rk), Done(sk)) => Done(Joint(p, JointName(b.SkelBoneIndex), pk, rk, sk, [], b.PivotPoint))
    case _ => Undefined
  }

  /** The joints of the first k bones, appended after `base` joints. */
  function JointsUpTo(bones: seq<Bone>, base: nat, k: nat): (r: Outcome<seq<Joint>>)
    requires k <= |bones|
    ensures r.Done? ==> |r.value| == k
  {
    if k == 0 then Done([])
    else match JointsUpTo(bones, base, k - 1)
      case Undefined => Undefined
      case Done(js) =>
        match JointOf(bones[k - 1], base + k - 1)
        case Undefined => Undefined
        case Done(j) => Done(js + [j])
  }

  /**
    The skeleton is a forest laid out parents first: every joint's parent is
    an earlier joint, so following parents always ends at a root.
  */
  lemma {:induction false} ParentsPrecede(bones: seq<Bone>, base: nat, k: nat, i: nat)
    requires i < k <= |bones| && JointsUpTo(bones, base, k).Done?
    ensures var j := JointsUpTo(bones, base, k).value[i];
      (j.Parent.None? <==> bones[i].parentBone == -1) &&
      (j.Parent.Some? ==> j.Parent.value == bones[i].parentBone && j.Parent.value < base + i) &&
      j.Name == JointName(bones[i].SkelBoneIndex) && j.Animatedposition == bones[i].PivotPoint &&
      j.Weights == []
    decreases k
  {
    if i < k - 1 {
      ParentsPrecede(bones, base, k - 1, i);
    }
  }

  /** Once a joint is undefined, the skeleton stays undefined. */
  lemma {:induction false} JointsStayUndefined(bones: seq<Bone>, base: nat, k: nat)
    requires k <= |bones| && JointsUpTo(bones, base, k).Undefined?
    ensures JointsUpTo(bones, base, |bones|).Undefined?
    decreases |bones| - k
  {
    if k < |bones| {
      JointsStayUndefined(bones, base, k + 1);
    }
  }

  /** One bone: the parent lookup, addJoint, the name and the three key copies. */
  method CopyBone(mesh: CM2Mesh, b: Bone) returns (ok: bool)
    modifies mesh`Joints
    ensures var spec := JointOf(b, |old(mesh.Joints)|);
      ok == spec.Done? && (ok ==> mesh.Joints == old(mesh.Joints) + [spec.value])
  {
    var parent: Option<nat>;
    if b.parentBone == -1 {
      parent := None;
    } else if 0 <= b.parentBone < |mesh.Joints| {
      parent := Some(b.parentBone);
    } else {
      return false;
    }
    var index := mesh.AddJoint(parent);
    var pk := CopyPositionKeys(b.translation);
    var rk := CopyRotationKeys(b.rotation);
    var sk := CopyScaleKeys(b.scaling);
    if pk.Undefined? || rk.Undefined? || sk.Undefined? {
      return false;
    }
    mesh.SetJoint(index, Joint(parent, JointName(b.SkelBoneIndex), pk.value, rk.value, sk.value, [], b.PivotPoint));
    return true;
  }

  /** The first loop of CopyAnimationsToMesh: one mesh animation per sequence. */
  method CopyAnimations(mesh: CM2Mesh, anims: seq<Animation>)
    modifies mesh`Animations
    ensures mesh.Animations == old(mesh.Animations) + MeshAnimations(anims)
  {
    var i := 0;
    while i < |anims|
      invariant i <= |anims|
      invariant mesh.Animations == old(mesh.Animations) + MeshAnimations(anims[..i])
    {
      mesh.NewAnimation(MeshAnimation(anims[i]));
      assert MeshAnimations(anims[..i + 1]) == MeshAnimations(anims[..i]) + [MeshAnimation(anims[i])];
      i := i + 1;
    }
    assert anims[..i] == anims;
  }

  /** The second loop of CopyAnimationsToMesh: one joint per bone, in order. */
  method CopyJoints(mesh: CM2Mesh, bones: seq<Bone>) returns (ok: bool)
    modifies mesh`Joints
    ensures var spec := JointsUpTo(bones, |old(mesh.Joints)|, |bones|);
      ok == spec.Done? && (ok ==> mesh.Joints == old(mesh.Joints) + spec.value)
  {
    ghost var base := |mesh.Joints|;
    var i := 0;
    while i < |bones|
      invariant i <= |bones|
      invariant JointsUpTo(bones, base, i).Done?
      invariant mesh.Joints == old(mesh.Joints) + JointsUpTo(bones, base, i).value
    {
      ok := CopyBone(mesh, bones[i]);
      if !ok {
        JointsStayUndefined(bones, base, i + 1);
        return false;
      }
      i := i + 1;
    }
    return true;
  }

  /** CopyAnimationsToMesh: the animation list, then the skeleton. */
  method CopyAnimationsToMesh(mesh: CM2Mesh, anims: seq<Animation>, bones: seq<Bone>) returns (ok: bool)
    modifies mesh`Animations, mesh`Joints
    ensures mesh.Animations == old(mesh.Animations) + MeshAnimations(anims)
    ensures var spec := JointsUpTo(bones, |old(mesh.Joints)|, |bones|);
      ok == spec.Done? && (ok ==> mesh.Joints == old(mesh.Joints) + spec.value)
  {
    CopyAnimations(mesh, anims);
    ok := CopyJoints(mesh, bones);
  }
}
