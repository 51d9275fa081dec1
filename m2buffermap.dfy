/**
  The flat submesh map of CM2MeshFileLoader::load (CM2Mesh::BufferMap): for
  every submesh of the default skin, the first texture unit that applies to
  it, its render flags, its centre and the point it is sorted by.
*/
module M2BufferMap {
  import opened Wrappers
  import opened Bytes
  import opened M2Geometry
  import opened M2Records
  import opened M2Tables
  import opened M2Mesh
  import opened M2Assembly

  // ---------------------------------------------------------------------
  // The texture unit of a submesh (cpp:1159-1165)
  // ---------------------------------------------------------------------

  /** The first unit at or after T whose submeshIndex1 is s. */
  function FirstUnitFrom(units: seq<TextureUnit>, s: nat, T: nat): (r: Option<nat>)
    requires T <= |units|
    ensures r.Some? ==> T <= r.value < |units|
    decreases |units| - T
  {
    if T == |units| then None
    else if units[T].submeshIndex1 == s then Some(T)
    else FirstUnitFrom(units, s, T + 1)
  }

  /** The search finds the first unit that applies to s, and finds none only when none applies. */
  lemma {:induction false} FirstUnitFromIsFirst(units: seq<TextureUnit>, s: nat, T: nat)
    requires T <= |units|
    ensures var r := FirstUnitFrom(units, s, T);
      (r.Some? ==> (T <= r.value < |units| && units[r.value].submeshIndex1 == s &&
        forall j | T <= j < r.value :: units[j].submeshIndex1 != s)) &&
      (r.None? ==> forall j | T <= j < |units| :: units[j].submeshIndex1 != s)
    decreases |units| - T
  {
    if T < |units| && units[T].submeshIndex1 != s {
      FirstUnitFromIsFirst(units, s, T + 1);
    }
  }

  /**
    The search loop. Its u16 counter is set to the unit count to stop it, so
    with 65535 units a match wraps the counter to 0 and the search starts
    again, and with more it never ends; no match leaves the unit index
    uninitialised. All of these are Undefined.
  */
  function UnitOf(units: seq<TextureUnit>, s: nat): (r: Outcome<nat>)
  {
    if |units| >= TWO16 - 1 then Undefined
    else match FirstUnitFrom(units, s, 0)
      case None => Undefined
      case Some(T) => Done(T)
  }

  method FindUnit(units: seq<TextureUnit>, s: nat) returns (r: Outcome<nat>)
    ensures r == UnitOf(units, s)
  {
    if |units| >= TWO16 - 1 {
      return Undefined;
    }
    var T := 0;
    while T < |units|
      invariant T <= |units|
      invariant FirstUnitFrom(units, s, 0) == FirstUnitFrom(units, s, T)
    {
      if units[T].submeshIndex1 == s {
        return Done(T);
      }
      T := T + 1;
    }
    return Undefined;
  }

  // ---------------------------------------------------------------------
  // The sort point (cpp:1254-1272)
  // ---------------------------------------------------------------------

  /**
    The eight rules in the order the loader applies them; a later rule that
    fires overrides an earlier one, and when none fires the entry keeps the
    sort point of the previous entry (the record is reused across the loop).
  */
  function SortPoint(mode: nat, order: nat, radius: real, back: real, middle: real, front: real, prev: Option<real>): Option<real>
  {
    var p1 := if mode == 1 then Some(back) else prev;
    var p2 := if mode == 1 && 2.0 <= radius <= 6.0 then Some(front) else p1;
    var p3 := if mode == 2 && radius > 50.0 then Some(back) else p2;
    var p4 := if mode == 2 && 10.0 < radius < 50.0 then Some(front) else p3;
    var p5 := if mode == 2 && 2.0 <= radius < 10.0 then Some(front) else p4;
    var p6 := if mode == 2 && radius < 2.0 then Some(middle) else p5;
    var p7 := if order == 2 && radius > 50.0 then Some(middle) else p6;
    if order == 2 && radius < 50.0 then Some(back) else p7
  }

  /** The same rules read by precedence: overlays first, then mode 2, then mode 1. */
  function SortPointByPrecedence(mode: nat, order: nat, radius: real, back: real, middle: real, front: real, prev: Option<real>): Option<real>
  {
    if order == 2 && radius < 50.0 then Some(back)
    else if order == 2 && radius > 50.0 then Some(middle)
    else if mode == 2 then
      if radius < 2.0 then Some(middle)
      else if radius < 10.0 then Some(front)
      else if 10.0 < radius < 50.0 then Some(front)
      else if radius > 50.0 then Some(back)
      else prev
    else if mode == 1 then
      if 2.0 <= radius <= 6.0 then Some(front) else Some(back)
    else prev
  }

  lemma SortPointPrecedence(mode: nat, order: nat, radius: real, back: real, middle: real, front: real, prev: Option<real>)
    ensures SortPoint(mode, order, radius, back, middle, front, prev) ==
      SortPointByPrecedence(mode, order, radius, back, middle, front, prev)
  {
  }

  /**
    The previous entry's sort point survives exactly when no rule fires:
    neither mode 1, nor mode 2 away from radius 10 and 50, nor an overlay
    (order 2) away from radius 50.
  */
  lemma SortPointCarriedOver(mode: nat, order: nat, radius: real, back: real, middle: real, front: real)
    ensures var fires := mode == 1 || (mode == 2 && radius != 10.0 && radius != 50.0) || (order == 2 && radius != 50.0);
      (!fires ==> forall prev :: SortPoint(mode, order, radius, back, middle, front, prev) == prev) &&
      (fires ==> SortPoint(mode, order, radius, back, middle, front, None).Some?)
  {
  }

  // ---------------------------------------------------------------------
  // One entry and the whole map (cpp:1151-1295)
  // ---------------------------------------------------------------------

  /**
    The entry of submesh s, given the sort point of the previous entry:
    Undefined when the unit search is, or the unit's render flags, its
    texture (whose base name is logged; the log call itself is not
    modelled) or the submesh's first vertex is out of range.
  */
  function MapEntry(skin: SkinData, s: nat, t: LoaderTables, prev: Option<real>): (r: Outcome<BufferInfo>)
    requires s < |skin.Submeshes|
  {
    match UnitOf(skin.TextureUnits, s)
    case Undefined => Undefined
    case Done(T) =>
      var u := skin.TextureUnits[T];
      var rec := skin.Submeshes[s];
      if u.renderFlagsIndex >= |t.renderFlags| || u.textureIndex >= |t.textureLookup| ||
         t.textureLookup[u.textureIndex] >= |t.textureFiles| || rec.ofsVertex >= |t.vertices|
      then Undefined
      else
        var rf := t.renderFlags[u.renderFlagsIndex];
        var c := FixCoordSystem(rec.CenterOfMass);
        var z := t.vertices[rec.ofsVertex].pos.Z;
        var order := WrapU16(u.renderOrder);
        Done(BufferInfo(
          s, u.Mode, order, (u.Flags / 256) % 256, rf.blending, rf.flags, rec.unk3,
          rf.blending <= 1, u.Flags % 256 == 0, c, z, c.Z, z,
          SortPoint(u.Mode, order, rec.Radius, z, c.Z, z, prev),
          rec.Radius, c.X, c.X, c.Y, c.Y))
  }

  /** The entries of the first k submeshes. */
  function MapUpTo(skin: SkinData, t: LoaderTables, k: nat): (r: Outcome<seq<BufferInfo>>)
    requires k <= |skin.Submeshes|
    ensures r.Done? ==> |r.value| == k
  {
    if k == 0 then Done([])
    else match MapUpTo(skin, t, k - 1)
      case Undefined => Undefined
      case Done(m) =>
        var prev := if k == 1 then None else m[k - 2].SortPoint;
        match MapEntry(skin, k - 1, t, prev)
        case Undefined => Undefined
        case Done(e) => Done(m + [e])
  }

  /** The map of the default skin (skin 0); its u16 submesh counter hangs at 65536 submeshes. */
  function BufferMapOf(skins: seq<SkinData>, t: LoaderTables): Outcome<seq<BufferInfo>>
  {
    if |skins| == 0 || |skins[0].Submeshes| >= TWO16 then Undefined
    else MapUpTo(skins[0], t, |skins[0].Submeshes|)
  }

  /**
    Entry i of the map describes submesh i through the first texture unit
    that applies to it: its ID is i, its mode, order and block are the
    unit's, it is solid exactly when the unit's blending is at most 1, and
    its box is the single point of the submesh's centre in X and Y and of its
    first vertex in depth.
  */
  lemma {:induction false} MapEntryDescribes(skin: SkinData, t: LoaderTables, k: nat, i: nat)
    requires i < k <= |skin.Submeshes| && MapUpTo(skin, t, k).Done?
    ensures var e := MapUpTo(skin, t, k).value[i];
      var T := FirstUnitFrom(skin.TextureUnits, i, 0);
      T.Some? && T.value < |skin.TextureUnits| &&
      var u := skin.TextureUnits[T.value];
      skin.TextureUnits[T.value].submeshIndex1 == i &&
      (forall j | 0 <= j < T.value :: skin.TextureUnits[j].submeshIndex1 != i) &&
      e.ID == i && e.Mode == u.Mode && e.order == WrapU16(u.renderOrder) && e.block == (u.Flags / 256) % 256 &&
      u.renderFlagsIndex < |t.renderFlags| && e.blend == t.renderFlags[u.renderFlagsIndex].blending &&
      (e.solid <==> e.blend <= 1) && (e.animatedtexture <==> u.Flags % 256 == 0) &&
      e.Radius == skin.Submeshes[i].Radius && e.Coordinates == FixCoordSystem(skin.Submeshes[i].CenterOfMass) &&
      e.Xpos == e.Xneg == e.Coordinates.X && e.Ypos == e.Yneg == e.Coordinates.Y &&
      e.Back == e.Front && e.Middle == e.Coordinates.Z
    decreases k
  {
    FirstUnitFromIsFirst(skin.TextureUnits, i, 0);
    if i < k - 1 {
      MapEntryDescribes(skin, t, k - 1, i);
    }
  }

  /** Entry i's sort point follows from its own rules and the sort point of entry i-1 (or none for entry 0). */
  lemma {:induction false} MapSortPointChain(skin: SkinData, t: LoaderTables, k: nat, i: nat)
    requires i < k <= |skin.Submeshes| && MapUpTo(skin, t, k).Done?
    ensures var m := MapUpTo(skin, t, k).value;
      m[i].SortPoint == SortPoint(m[i].Mode, m[i].order, m[i].Radius, m[i].Back, m[i].Middle, m[i].Front,
        if i == 0 then None else m[i - 1].SortPoint)
    decreases k
  {
    if i < k - 1 {
      MapSortPointChain(skin, t, k - 1, i);
    }
  }

  /** Once an entry is undefined, the map stays undefined. */
  lemma {:induction false} MapStaysUndefined(skin: SkinData, t: LoaderTables, k: nat)
    requires k <= |skin.Submeshes| && MapUpTo(skin, t, k).Undefined?
    ensures MapUpTo(skin, t, |skin.Submeshes|).Undefined?
    decreases |skin.Submeshes| - k
  {
    if k < |skin.Submeshes| {
      MapStaysUndefined(skin, t, k + 1);
    }
  }

  /** One entry (the body of the submesh loop). */
  method BuildEntry(skin: SkinData, s: nat, t: LoaderTables, prev: Option<real>) returns (r: Outcome<BufferInfo>)
    requires s < |skin.Submeshes|
    ensures r == MapEntry(skin, s, t, prev)
  {
    var found := FindUnit(skin.TextureUnits, s);
    if found.Undefined? {
      return Undefined;
    }
    var u := skin.TextureUnits[found.value];
    var rec := skin.Submeshes[s];
    if u.renderFlagsIndex >= |t.renderFlags| || u.textureIndex >= |t.textureLookup| ||
       t.textureLookup[u.textureIndex] >= |t.textureFiles| || rec.ofsVertex >= |t.vertices| {
      return Undefined;
    }
    var rf := t.renderFlags[u.renderFlagsIndex];
    var c := FixCoordSystem(rec.CenterOfMass);
    var z := t.vertices[rec.ofsVertex].pos.Z;
    var order := WrapU16(u.renderOrder);
    r := Done(BufferInfo(
      s, u.Mode, order, (u.Flags / 256) % 256, rf.blending, rf.flags, rec.unk3,
      rf.blending <= 1, u.Flags % 256 == 0, c, z, c.Z, z,
      SortPoint(u.Mode, order, rec.Radius, z, c.Z, z, prev),
      rec.Radius, c.X, c.X, c.Y, c.Y));
  }

  /** The submesh loop over the default skin. */
  method BuildBufferMap(skins: seq<SkinData>, t: LoaderTables) returns (r: Outcome<seq<BufferInfo>>)
    ensures r == BufferMapOf(skins, t)
  {
    if |skins| == 0 || |skins[0].Submeshes| >= TWO16 {
      return Undefined;
    }
    var skin := skins[0];
    var m: seq<BufferInfo> := [];
    var prev: Option<real> := None;
    var s := 0;
    while s < |skin.Submeshes|
      invariant s <= |skin.Submeshes|
      invariant MapUpTo(skin, t, s) == Done(m)
      invariant prev == if s == 0 then None else m[s - 1].SortPoint
    {
      var e := BuildEntry(skin, s, t, prev);
      if e.Undefined? {
        MapStaysUndefined(skin, t, s + 1);
        return Undefined;
      }
      m := m + [e.value];
      prev := e.value.SortPoint;
      s := s + 1;
    }
    return Done(m);
  }
}
