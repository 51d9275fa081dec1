/**
  CM2MeshSceneNode: the animated-mesh scene node's frame-range state
  machine (setFrameLoop, setCurrentFrame, buildFrameNr, the animation
  speed, setM2Animation), its end-of-animation callback reference, the
  removal of a child, and which mesh buffers a render pass draws.

  Frame numbers and speeds are f32 in the node; the model computes them
  as exact reals.
*/
module M2SceneNode {
  import opened Wrappers
  import opened Bytes
  import opened M2Mesh

  // ---------------------------------------------------------------------
  // The mesh as the node sees it

  datatype MeshKind = M2 | Skinned | OtherKind

  /**
    The animated mesh behind the node: its type, frame count (u32), the
    material type of each buffer of getMesh(0, 0), the frame loop
    CM2Mesh::getFrameLoop gives per animation id, and CM2Mesh's geoset
    render flags per buffer.
  */
  datatype AnimatedMesh = AnimatedMesh(
    kind: MeshKind,
    frameCount: nat,
    materials: seq<MaterialType>,
    loops: map<nat, (int, int)>,
    geoSetRender: seq<bool>)

  /** getFrameCount() - 1 in s32: a mesh without frames gives -1. */
  function MaxFrame(frameCount: nat): (r: int)
    ensures 0 < frameCount <= 0x8000_0000 ==> r == frameCount - 1
    ensures frameCount == 0 ==> r == -1
  {
    Signed32(WrapU32(frameCount - 1))
  }

  // ---------------------------------------------------------------------
  // setFrameLoop (cpp:614-633)

  /** core::s32_clamp: max with low, then min with high. */
  function ClampInt(x: int, low: int, high: int): (r: int)
    ensures r <= high
    ensures low <= high ==> low <= r
    ensures low <= x <= high ==> r == x
  {
    var m := if x > low then x else low;
    if m < high then m else high
  }

  /**
    The loop setFrameLoop stores: the two ends in order, each clamped into
    [0, max], the end no lower than the start.
  */
  function FrameLoop(begin: int, end: int, max: int): (r: (int, int))
  {
    if end < begin then
      var s := ClampInt(end, 0, max);
      (s, ClampInt(begin, s, max))
    else
      var s := ClampInt(begin, 0, max);
      (s, ClampInt(end, s, max))
  }

  /**
    Whatever the arguments, the start never passes the end nor the end the
    last frame; with a last frame of at least 0, the start is at least 0.
  */
  lemma FrameLoopOrdered(begin: int, end: int, max: int)
    ensures var (s, e) := FrameLoop(begin, end, max);
      s <= e <= max && (0 <= max ==> 0 <= s)
  {
  }

  /** Arguments that lie in [0, max] are kept, swapped when they come in reverse order. */
  lemma FrameLoopKeeps(begin: int, end: int, max: int)
    requires 0 <= begin <= max && 0 <= end <= max
    ensures FrameLoop(begin, end, max) == if end < begin then (end, begin) else (begin, end)
  {
  }

  // ---------------------------------------------------------------------
  // setCurrentFrame (cpp:177-183)

  /** core::clamp on f32. */
  function Clamp(x: real, low: real, high: real): (r: real)
    ensures r <= high
    ensures low <= high ==> low <= r
    ensures low <= x <= high ==> r == x
  {
    var m := if x > low then x else low;
    if m < high then m else high
  }

  // ---------------------------------------------------------------------
  // buildFrameNr (cpp:186-250)

  /** Truncation toward zero. */
  function Trunc(q: real): (r: int)
  {
    if q >= 0.0 then q.Floor else -((-q).Floor)
  }

  /** C's fmod: x minus the whole multiples of y truncated toward zero. */
  function Fmod(x: real, y: real): real
    requires y != 0.0
  {
    x - y * (Trunc(x / y) as real)
  }

  /** When y * q == x, x - y * f is y times the fractional part q - f, so it lies in [0, y). */
  lemma ScaledFraction(x: real, y: real, q: real, f: real)
    requires y > 0.0 && y * q == x && f <= q < f + 1.0
    ensures 0.0 <= x - y * f < y
  {
    var d := q - f;
    assert 0.0 <= d < 1.0;
    assert x - y * f == y * d;
    assert 0.0 <= y * d;
    assert y * d < y;
  }

  /** For x >= 0 and y > 0, fmod lies in [0, y). */
  lemma FmodRange(x: real, y: real)
    requires x >= 0.0 && y > 0.0
    ensures 0.0 <= Fmod(x, y) < y
  {
    var q := x / y;
    var f := q.Floor as real;
    assert Fmod(x, y) == x - y * f;
    ScaledFraction(x, y, q, f);
  }

  /** The frame after timeMs milliseconds at fps frames per millisecond, before any wrapping or clamping. */
  function Advanced(cur: real, fps: real, timeMs: nat): (r: real)
    ensures fps > 0.0 ==> r >= cur
    ensures fps <= 0.0 ==> r <= cur
  {
    var t := timeMs as real;
    assert fps > 0.0 ==> t * fps >= 0.0;
    assert fps <= 0.0 ==> t * fps <= 0.0;
    cur + t * fps
  }

  /**
    A looping animation: a frame c past the end going forward wraps back by
    whole loop lengths from the start; before the start going backward,
    from the end.
  */
  function Wrapped(start: int, end: int, c: real, fps: real): real
    requires start != end
  {
    if fps > 0.0 then
      if c > end as real then start as real + Fmod(c - start as real, (end - start) as real) else c
    else
      if c < start as real then end as real - Fmod(end as real - c, (end - start) as real) else c
  }

  /** Going forward, a frame past the end wraps into [start, end). */
  lemma WrapsForward(start: int, end: int, c: real, fps: real)
    requires start < end && fps > 0.0 && c > end as real
    ensures start as real <= Wrapped(start, end, c, fps) < end as real
  {
    FmodRange(c - start as real, (end - start) as real);
  }

  /** Going backward, a frame before the start wraps into (start, end]. */
  lemma WrapsBackward(start: int, end: int, c: real, fps: real)
    requires start < end && fps <= 0.0 && c < start as real
    ensures start as real < Wrapped(start, end, c, fps) <= end as real
  {
    FmodRange(end as real - c, (end - start) as real);
  }

  /** The frame after timeMs milliseconds, and whether a non-looping animation hit its end. */
  datatype Frame = Frame(cur: real, ended: bool)

  /** A non-looping animation: a frame past the end going forward, or before the start going backward, stops there and ends. */
  function Clamped(start: int, end: int, c: real, fps: real): Frame
  {
    if fps > 0.0 then
      if c > end as real then Frame(end as real, true) else Frame(c, false)
    else
      if c < start as real then Frame(start as real, true) else Frame(c, false)
  }

  /** buildFrameNr's frame: pinned when the loop is one frame, else advanced, then wrapped or clamped. */
  function NextFrame(start: int, end: int, cur: real, fps: real, looping: bool, timeMs: nat): Frame
  {
    if start == end then Frame(start as real, false)
    else
      var c := Advanced(cur, fps, timeMs);
      if looping then Frame(Wrapped(start, end, c, fps), false) else Clamped(start, end, c, fps)
  }

  /** A frame inside the loop stays inside it, whatever the speed and the elapsed time. */
  lemma NextFrameInLoop(start: int, end: int, cur: real, fps: real, looping: bool, timeMs: nat)
    requires start <= end && start as real <= cur <= end as real
    ensures var r := NextFrame(start, end, cur, fps, looping, timeMs).cur;
      start as real <= r <= end as real
  {
    if start != end && looping {
      var c := Advanced(cur, fps, timeMs);
      if fps > 0.0 && c > end as real {
        WrapsForward(start, end, c, fps);
      } else if fps <= 0.0 && c < start as real {
        WrapsBackward(start, end, c, fps);
      }
    }
  }

  /**
    Without looping the animation ends exactly when the frame would pass
    the end going forward, or the start going backward; it then rests there.
  */
  lemma NonLoopingEnds(start: int, end: int, cur: real, fps: real, timeMs: nat)
    requires start != end
    ensures var c := Advanced(cur, fps, timeMs);
      var r := NextFrame(start, end, cur, fps, false, timeMs);
      r.ended == (if fps > 0.0 then c > end as real else c < start as real) &&
      (r.ended ==> r.cur == if fps > 0.0 then end as real else start as real)
  {
  }

  /** The blend of a joint transition: it grows with time and resets once past 1. */
  function NextBlend(transiting: real, blend: real, timeMs: nat): (r: (real, real))
    ensures transiting != 0.0 ==> r.1 <= 1.0
    ensures r.0 == transiting || r == (0.0, 0.0)
  {
    if transiting != 0.0 then
      var b := blend + (timeMs as real) * transiting;
      if b > 1.0 then (0.0, 0.0) else (transiting, b)
    else (transiting, blend)
  }

  // ---------------------------------------------------------------------
  // The render pass filter (cpp:419-442)

  /** Buffer i is drawn in this pass: its transparency matches the pass and, on an M2 mesh, its geoset is shown. */
  predicate DrawnIn(mesh: AnimatedMesh, materials: seq<MaterialType>, transparent: MaterialType -> bool, transparentPass: bool, i: nat)
    requires i < |materials| && (mesh.kind == M2 ==> i < |mesh.geoSetRender|)
  {
    transparent(materials[i]) == transparentPass && (mesh.kind == M2 ==> mesh.geoSetRender[i])
  }

  /** Every buffer below n has a material, and on an M2 mesh a geoset flag. */
  predicate Indexable(mesh: AnimatedMesh, materials: seq<MaterialType>, n: nat)
  {
    n <= |materials| && (mesh.kind == M2 ==> n <= |mesh.geoSetRender|)
  }

  // ---------------------------------------------------------------------
  // First occurrence, for removeChild (cpp:783-806)

  /** The index of the first x in s, or |s| when there is none. */
  function IndexOf<T(==)>(s: seq<T>, x: T): (r: nat)
    ensures r <= |s| && (r < |s| ==> s[r] == x)
    ensures forall k | 0 <= k < r :: s[k] != x
  {
    if s == [] then 0
    else if s[0] == x then 0
    else 1 + IndexOf(s[1..], x)
  }

  /** The first x is at i exactly when s[i] is x and none comes before it. */
  lemma IndexOfFirst<T>(s: seq<T>, x: T, i: nat)
    requires i < |s|
    ensures IndexOf(s, x) == i <==> s[i] == x && forall k | 0 <= k < i :: s[k] != x
  {
  }

  /** ISceneNode::removeChild: the first occurrence is taken out. */
  function RemoveFirst<T(==)>(s: seq<T>, x: T): (r: seq<T>)
    ensures x in s ==> |r| == |s| - 1 && multiset(r) == multiset(s) - multiset{x}
    ensures x !in s ==> r == s
  {
    var i := IndexOf(s, x);
    if i < |s| then
      assert s == s[..i] + [s[i]] + s[i + 1..];
      s[..i] + s[i + 1..]
    else s
  }

  /** Finds the first joint child equal to child, or returns |joints|. */
  method FindJointChild(joints: seq<Option<nat>>, child: Option<nat>) returns (i: nat)
    ensures i == IndexOf(joints, child)
  {
    i := 0;
    while i < |joints|
      invariant i <= |joints| && forall k | 0 <= k < i :: joints[k] != child
    {
      if joints[i] == child {
        IndexOfFirst(joints, child, i);
        return;
      }
      i := i + 1;
    }
  }

  // ---------------------------------------------------------------------
  // The passes a node registers for (cpp:254-292)

  /**
    The counting loop of OnRegisterSceneNode: a solid pass when some
    material is not transparent, a transparent pass when some is.
  */
  method CountPasses(materials: seq<MaterialType>, transparent: MaterialType -> bool) returns (solid: bool, translucent: bool)
    ensures solid <==> exists i | 0 <= i < |materials| :: !transparent(materials[i])
    ensures translucent <==> exists i | 0 <= i < |materials| :: transparent(materials[i])
  {
    var transparentCount: nat := 0;
    var solidCount: nat := 0;
    var i := 0;
    while i < |materials|
      invariant i <= |materials|
      invariant solidCount > 0 <==> exists k | 0 <= k < i :: !transparent(materials[k])
      invariant transparentCount > 0 <==> exists k | 0 <= k < i :: transparent(materials[k])
    {
      if transparent(materials[i]) {
        transparentCount := transparentCount + 1;
      } else {
        solidCount := solidCount + 1;
      }
      i := i + 1;
      if solidCount > 0 && transparentCount > 0 {
        break;
      }
    }
    solid, translucent := solidCount > 0, transparentCount > 0;
  }

  // ---------------------------------------------------------------------
  // The end-of-animation callback

  /** An IAnimationEndCallBack: only its reference count is modelled. */
  class EndCallback {
    var ReferenceCounter: int

    constructor ()
      ensures ReferenceCounter == 1
    {
      ReferenceCounter := 1;
    }

    method Grab()
      modifies this
      ensures ReferenceCounter == old(ReferenceCounter) + 1
    {
      ReferenceCounter := ReferenceCounter + 1;
    }

    method Drop()
      modifies this
      ensures ReferenceCounter == old(ReferenceCounter) - 1
    {
      ReferenceCounter := ReferenceCounter - 1;
    }
  }

  // ---------------------------------------------------------------------
  // The node

  class CM2MeshSceneNode {
    var Mesh: Option<AnimatedMesh>
    /** The node's copy of the material type of each buffer. */
    var Materials: seq<MaterialType>
    var StartFrame: int
    var EndFrame: int
    /** Frames per millisecond. */
    var FramesPerSecond: real
    var CurrentFrameNr: real
    /** Milliseconds; u32. */
    var TransitionTime: nat
    var Transiting: real
    var TransitingBlend: real
    var JointsUsed: bool
    var Looping: bool
    var LoopCallBack: EndCallback?
    var PassCount: nat
    var IsVisible: bool
    /** Scene nodes are named by number; None is a null pointer. */
    var Shadow: Option<nat>
    var Children: seq<nat>
    var JointChildSceneNodes: seq<Option<nat>>

    /** The current frame lies in the loop [StartFrame, EndFrame]. */
    ghost predicate Valid()
      reads this`StartFrame, this`EndFrame, this`CurrentFrameNr
    {
      StartFrame <= EndFrame && StartFrame as real <= CurrentFrameNr <= EndFrame as real
    }

    /**
      The constructor: 25 frames per second, looping, no callback, then
      setMesh, which copies the mesh's materials and sets the loop to all
      of its frames.
    */
    constructor (mesh: Option<AnimatedMesh>)
      ensures Valid() && Mesh == mesh && FramesPerSecond == 25.0 / 1000.0 && Looping && LoopCallBack == null
      ensures mesh.None? ==> StartFrame == 0 && EndFrame == 0 && CurrentFrameNr == 0.0 && Materials == []
      ensures mesh.Some? ==>
        Materials == mesh.value.materials &&
        (StartFrame, EndFrame) == FrameLoop(0, Signed32(WrapU32(mesh.value.frameCount)), MaxFrame(mesh.value.frameCount)) &&
        CurrentFrameNr == StartFrame as real
      ensures Transiting == 0.0 && TransitingBlend == 0.0 && !JointsUsed && TransitionTime == 0
      ensures IsVisible && Shadow.None? && Children == [] && JointChildSceneNodes == [] && PassCount == 0
    {
      Mesh := None;
      Materials := [];
      StartFrame, EndFrame := 0, 0;
      FramesPerSecond := 25.0 / 1000.0;
      CurrentFrameNr := 0.0;
      TransitionTime, Transiting, TransitingBlend := 0, 0.0, 0.0;
      JointsUsed, Looping := false, true;
      LoopCallBack := null;
      PassCount := 0;
      IsVisible := true;
      Shadow, Children, JointChildSceneNodes := None, [], [];
      new;
      if mesh.Some? {
        Mesh := mesh;
        Materials := mesh.value.materials;
        var _ := SetFrameLoop(0, Signed32(WrapU32(mesh.value.frameCount)));
      }
    }

    /** beginTransition: with joints in use, a transition time restarts the blend. */
    method BeginTransition()
      modifies this`Transiting, this`TransitingBlend
      ensures !JointsUsed ==> Transiting == old(Transiting) && TransitingBlend == old(TransitingBlend)
      ensures JointsUsed ==>
        TransitingBlend == 0.0 &&
        Transiting == if TransitionTime != 0 then 1.0 / (TransitionTime as real) else old(Transiting)
    {
      if !JointsUsed {
        return;
      }
      if TransitionTime != 0 {
        Transiting := 1.0 / (TransitionTime as real);
      }
      TransitingBlend := 0.0;
    }

    /** setCurrentFrame: the frame clamped into the loop. */
    method SetCurrentFrame(frame: real)
      requires StartFrame <= EndFrame
      modifies this`CurrentFrameNr, this`Transiting, this`TransitingBlend
      ensures Valid() && CurrentFrameNr == Clamp(frame, StartFrame as real, EndFrame as real)
      ensures StartFrame as real <= frame <= EndFrame as real ==> CurrentFrameNr == frame
      ensures !JointsUsed ==> Transiting == old(Transiting) && TransitingBlend == old(TransitingBlend)
      ensures JointsUsed ==>
        TransitingBlend == 0.0 &&
        Transiting == if TransitionTime != 0 then 1.0 / (TransitionTime as real) else old(Transiting)
    {
      CurrentFrameNr := Clamp(frame, StartFrame as real, EndFrame as real);
      BeginTransition();
    }

    /**
      setFrameLoop: the loop as FrameLoop orders and clamps it, then the
      current frame at its end when playing backward, else at its start.
    */
    method SetFrameLoop(begin: int, end: int) returns (r: bool)
      requires Mesh.Some?
      modifies this`StartFrame, this`EndFrame, this`CurrentFrameNr, this`Transiting, this`TransitingBlend
      ensures r && Valid()
      ensures (StartFrame, EndFrame) == FrameLoop(begin, end, MaxFrame(Mesh.value.frameCount))
      ensures CurrentFrameNr == if FramesPerSecond < 0.0 then EndFrame as real else StartFrame as real
      ensures !JointsUsed ==> Transiting == old(Transiting) && TransitingBlend == old(TransitingBlend)
      ensures JointsUsed ==>
        TransitingBlend == 0.0 &&
        Transiting == if TransitionTime != 0 then 1.0 / (TransitionTime as real) else old(Transiting)
    {
      var maxFrameCount := MaxFrame(Mesh.value.frameCount);
      if end < begin {
        StartFrame := ClampInt(end, 0, maxFrameCount);
        EndFrame := ClampInt(begin, StartFrame, maxFrameCount);
      } else {
        StartFrame := ClampInt(begin, 0, maxFrameCount);
        EndFrame := ClampInt(end, StartFrame, maxFrameCount);
      }
      if FramesPerSecond < 0.0 {
        SetCurrentFrame(EndFrame as real);
      } else {
        SetCurrentFrame(StartFrame as real);
      }
      r := true;
    }

    /** setAnimationSpeed: frames per second stored per millisecond. */
    method SetAnimationSpeed(framesPerSecond: real)
      modifies this`FramesPerSecond
      ensures FramesPerSecond == framesPerSecond * 0.001
      ensures AnimationSpeed() == framesPerSecond
    {
      FramesPerSecond := framesPerSecond * 0.001;
    }

    /** getAnimationSpeed. */
    function AnimationSpeed(): real
      reads this`FramesPerSecond
    {
      FramesPerSecond * 1000.0
    }

    /** The transition part of buildFrameNr. */
    method AdvanceBlend(timeMs: nat)
      modifies this`Transiting, this`TransitingBlend
      ensures (Transiting, TransitingBlend) == NextBlend(old(Transiting), old(TransitingBlend), timeMs)
    {
      if Transiting != 0.0 {
        TransitingBlend := TransitingBlend + (timeMs as real) * Transiting;
        if TransitingBlend > 1.0 {
          Transiting := 0.0;
          TransitingBlend := 0.0;
        }
      }
    }

    /** The looping branch of buildFrameNr. */
    method AdvanceLooped(timeMs: nat)
      requires StartFrame != EndFrame
      modifies this`CurrentFrameNr
      ensures CurrentFrameNr == Wrapped(StartFrame, EndFrame, Advanced(old(CurrentFrameNr), FramesPerSecond, timeMs), FramesPerSecond)
    {
      CurrentFrameNr := Advanced(CurrentFrameNr, FramesPerSecond, timeMs);
      if FramesPerSecond > 0.0 {
        if CurrentFrameNr > EndFrame as real {
          CurrentFrameNr := StartFrame as real + Fmod(CurrentFrameNr - StartFrame as real, (EndFrame - StartFrame) as real);
        }
      } else {
        if CurrentFrameNr < StartFrame as real {
          CurrentFrameNr := EndFrame as real - Fmod(EndFrame as real - CurrentFrameNr, (EndFrame - StartFrame) as real);
        }
      }
    }

    /** The non-looping branch of buildFrameNr; the result says whether the end callback was called. */
    method AdvanceOnce(timeMs: nat) returns (calledBack: bool)
      requires StartFrame != EndFrame
      modifies this`CurrentFrameNr
      ensures var f := Clamped(StartFrame, EndFrame, Advanced(old(CurrentFrameNr), FramesPerSecond, timeMs), FramesPerSecond);
        CurrentFrameNr == f.cur && calledBack == (f.ended && LoopCallBack != null)
    {
      calledBack := false;
      CurrentFrameNr := Advanced(CurrentFrameNr, FramesPerSecond, timeMs);
      if FramesPerSecond > 0.0 {
        if CurrentFrameNr > EndFrame as real {
          CurrentFrameNr := EndFrame as real;
          calledBack := LoopCallBack != null;
        }
      } else {
        if CurrentFrameNr < StartFrame as real {
          CurrentFrameNr := StartFrame as real;
          calledBack := LoopCallBack != null;
        }
      }
    }

    /**
      buildFrameNr: the transition blend and the frame after timeMs; the
      result says whether the end callback was called. The frame stays in
      the loop.
    */
    method BuildFrameNr(timeMs: nat) returns (calledBack: bool)
      requires Valid()
      modifies this`CurrentFrameNr, this`Transiting, this`TransitingBlend
      ensures Valid()
      ensures (Transiting, TransitingBlend) == NextBlend(old(Transiting), old(TransitingBlend), timeMs)
      ensures var f := NextFrame(StartFrame, EndFrame, old(CurrentFrameNr), FramesPerSecond, Looping, timeMs);
        CurrentFrameNr == f.cur && calledBack == (f.ended && LoopCallBack != null)
    {
      NextFrameInLoop(StartFrame, EndFrame, CurrentFrameNr, FramesPerSecond, Looping, timeMs);
      AdvanceBlend(timeMs);
      calledBack := false;
      if StartFrame == EndFrame {
        CurrentFrameNr := StartFrame as real;
      } else if Looping {
        AdvanceLooped(timeMs);
      } else {
        calledBack := AdvanceOnce(timeMs);
      }
    }

    /**
      setM2Animation: false, with nothing changed, unless the mesh is an M2
      mesh whose loop for animID has neither end at -1; then that loop.
    */
    method SetM2Animation(animID: nat) returns (r: bool)
      modifies this`StartFrame, this`EndFrame, this`CurrentFrameNr, this`Transiting, this`TransitingBlend
      ensures var ok := Mesh.Some? && Mesh.value.kind == M2 && animID in Mesh.value.loops &&
                        Mesh.value.loops[animID].0 != -1 && Mesh.value.loops[animID].1 != -1;
        r == ok &&
        (!ok ==> StartFrame == old(StartFrame) && EndFrame == old(EndFrame) && CurrentFrameNr == old(CurrentFrameNr) &&
                 Transiting == old(Transiting) && TransitingBlend == old(TransitingBlend)) &&
        (ok ==>
          Valid() &&
          (StartFrame, EndFrame) == FrameLoop(Mesh.value.loops[animID].0, Mesh.value.loops[animID].1, MaxFrame(Mesh.value.frameCount)) &&
          CurrentFrameNr == (if FramesPerSecond < 0.0 then EndFrame as real else StartFrame as real))
      ensures r && !JointsUsed ==> Transiting == old(Transiting) && TransitingBlend == old(TransitingBlend)
      ensures r && JointsUsed ==>
        TransitingBlend == 0.0 &&
        Transiting == if TransitionTime != 0 then 1.0 / (TransitionTime as real) else old(Transiting)
    {
      if Mesh.None? || Mesh.value.kind != M2 {
        return false;
      }
      var begin, end := -1, -1;
      if animID in Mesh.value.loops {
        begin, end := Mesh.value.loops[animID].0, Mesh.value.loops[animID].1;
      }
      if begin == -1 || end == -1 {
        return false;
      }
      var _ := SetFrameLoop(begin, end);
      return true;
    }

    /** setAnimationEndCallback: the same callback again changes nothing; otherwise the old one is dropped and the new one grabbed. */
    method SetAnimationEndCallback(callback: EndCallback?)
      modifies this`LoopCallBack, LoopCallBack, callback
      ensures callback == old(LoopCallBack) ==>
        LoopCallBack == old(LoopCallBack) &&
        (callback != null ==> callback.ReferenceCounter == old(callback.ReferenceCounter))
      ensures callback != old(LoopCallBack) ==>
        LoopCallBack == callback &&
        (old(LoopCallBack) != null ==> old(LoopCallBack).ReferenceCounter == old(LoopCallBack.ReferenceCounter) - 1) &&
        (callback != null ==> callback.ReferenceCounter == old(callback.ReferenceCounter) + 1)
    {
      if callback == LoopCallBack {
        return;
      }
      if LoopCallBack != null {
        LoopCallBack.Drop();
      }
      LoopCallBack := callback;
      if LoopCallBack != null {
        LoopCallBack.Grab();
      }
    }

    /**
      removeChild: a shadow equal to child is released; a child found among
      the children is taken out and, with joints in use, the first joint
      slot holding it is cleared.
    */
    method RemoveChild(child: Option<nat>) returns (removed: bool)
      modifies this`Shadow, this`Children, this`JointChildSceneNodes
      ensures Shadow == if child.Some? && old(Shadow) == child then None else old(Shadow)
      ensures removed <==> child.Some? && child.value in old(Children)
      ensures Children == if removed then RemoveFirst(old(Children), child.value) else old(Children)
      ensures var i := IndexOf(old(JointChildSceneNodes), child);
        JointChildSceneNodes ==
          if removed && JointsUsed && i < |old(JointChildSceneNodes)| then old(JointChildSceneNodes)[i := None]
          else old(JointChildSceneNodes)
    {
      if child.Some? && Shadow == child {
        Shadow := None;
      }
      if child.None? || child.value !in Children {
        return false;
      }
      Children := RemoveFirst(Children, child.value);
      if JointsUsed {
        var i := FindJointChild(JointChildSceneNodes, child);
        if i < |JointChildSceneNodes| {
          JointChildSceneNodes := JointChildSceneNodes[i := None];
          return true;
        }
      }
      return true;
    }

    /**
      OnRegisterSceneNode: a visible node registers for the solid pass when
      one of its materials is solid, and for the transparent pass when one
      is transparent.
    */
    method OnRegisterSceneNode(transparent: MaterialType -> bool) returns (solidPass: bool, transparentPass: bool)
      modifies this`PassCount
      ensures solidPass <==> IsVisible && exists i | 0 <= i < |Materials| :: !transparent(Materials[i])
      ensures transparentPass <==> IsVisible && exists i | 0 <= i < |Materials| :: transparent(Materials[i])
      ensures PassCount == if IsVisible then 0 else old(PassCount)
    {
      if !IsVisible {
        return false, false;
      }
      PassCount := 0;
      solidPass, transparentPass := CountPasses(Materials, transparent);
    }

    /**
      The buffers render draws in a pass, in order; without a mesh none.
      A buffer past the node's materials, or on an M2 mesh past its geoset
      flags, is read past its end.
    */
    method BuffersToDraw(transparent: MaterialType -> bool, transparentPass: bool, bufferCount: nat) returns (r: Outcome<seq<nat>>)
      ensures Mesh.None? ==> r == Done([])
      ensures Mesh.Some? ==> (r.Done? <==> Indexable(Mesh.value, Materials, bufferCount))
      ensures Mesh.Some? && r.Done? ==>
        (forall i: nat :: i in r.value <==> i < bufferCount && DrawnIn(Mesh.value, Materials, transparent, transparentPass, i)) &&
        (forall j, k | 0 <= j < k < |r.value| :: r.value[j] < r.value[k])
    {
      if Mesh.None? {
        return Done([]);
      }
      var mesh := Mesh.value;
      var drawn: seq<nat> := [];
      var i: nat := 0;
      while i < bufferCount
        invariant i <= bufferCount && Indexable(mesh, Materials, i)
        invariant forall j: nat :: j in drawn <==> j < i && DrawnIn(mesh, Materials, transparent, transparentPass, j)
        invariant forall j | 0 <= j < |drawn| :: drawn[j] < i
        invariant forall j, k | 0 <= j < k < |drawn| :: drawn[j] < drawn[k]
      {
        if i >= |Materials| {
          return Undefined;
        }
        var isTransparent := transparent(Materials[i]);
        var renderSubmesh := true;
        if mesh.kind == M2 {
          if i >= |mesh.geoSetRender| {
            return Undefined;
          }
          renderSubmesh := mesh.geoSetRender[i];
        }
        if isTransparent == transparentPass && renderSubmesh {
          drawn := drawn + [i];
        }
        i := i + 1;
      }
      return Done(drawn);
    }
  }
}
