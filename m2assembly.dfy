/**
  The assembly half of CM2MeshFileLoader::load: from the tables the loader
  has read it builds, per skin, the submesh records (nearest vertex to the
  built-in camera, decal footprint, texture records), splits them into a sky
  and a scene bucket, fixes decal distances and sorts each bucket.
*/
module M2Assembly {
  import opened Wrappers
  import opened Bytes
  import opened Decimal
  import opened M2Geometry
  import opened M2Records
  import opened M2Tables
  import opened M2Mesh
  import opened M2Ordering

  /** The tables of the loader that assembly reads. */
  datatype LoaderTables = LoaderTables(
    basename: string,
    vertices: seq<ModelVertex>,
    boneLookup: seq<nat>,
    textureLookup: seq<nat>,
    renderFlags: seq<RenderFlags>,
    textureFiles: seq<string>,
    colors: seq<VertexColor>)

  /** The position the loader measures submesh distances from. */
  const Camera := Vec3(11.11, 2.44, -0.03)

  /** The "closest so far" the nearest-vertex search starts from. */
  const FarAway: real := 100000000.0

  /** Submeshes at least this large go to the sky bucket. */
  const SkyRadius: real := 70.0

  function SqDist(vs: seq<ModelVertex>, j: nat): real
    requires j < |vs|
  {
    SquaredLength(Sub(vs[j].pos, Camera))
  }

  // ---------------------------------------------------------------------
  // Nearest vertex (cpp:1040-1053)
  // ---------------------------------------------------------------------

  /**
    The scan over the vertices [j, end) for the one nearest the camera,
    starting from the best distance and index found so far; a vertex
    replaces them only when it is strictly nearer.
  */
  function NearestFrom(vs: seq<ModelVertex>, j: nat, end: nat, best: real, at: Option<nat>): (real, Option<nat>)
    requires j <= end && (j < end ==> end <= |vs|)
    decreases end - j
  {
    if j == end then (best, at)
    else if SqDist(vs, j) < best then NearestFrom(vs, j + 1, end, SqDist(vs, j), Some(j))
    else NearestFrom(vs, j + 1, end, best, at)
  }

  /**
    The scan ends with a distance no greater than the start and than that of
    any vertex scanned. If it keeps the starting index, no vertex was nearer
    than the start; otherwise it ends at the first vertex of least distance.
  */
  lemma {:induction false} NearestFromIsFirstMinimum(vs: seq<ModelVertex>, j: nat, end: nat, best: real, at: Option<nat>)
    requires j <= end && (j < end ==> end <= |vs|)
    requires at.Some? ==> at.value < j
    ensures var (d, k) := NearestFrom(vs, j, end, best, at);
      d <= best &&
      (forall m | j <= m < end :: d <= SqDist(vs, m)) &&
      (k == at ==> d == best && forall m | j <= m < end :: SqDist(vs, m) >= best) &&
      (k != at ==> (k.Some? && j <= k.value < end && d == SqDist(vs, k.value) && d < best &&
        forall m | j <= m < k.value :: SqDist(vs, m) > d))
    decreases end - j
  {
    if j < end {
      if SqDist(vs, j) < best {
        NearestFromIsFirstMinimum(vs, j + 1, end, SqDist(vs, j), Some(j));
      } else {
        NearestFromIsFirstMinimum(vs, j + 1, end, best, at);
      }
    }
  }

  /** The nearest-vertex loop over the vertex range of one submesh. */
  method NearestVertex(vs: seq<ModelVertex>, ofs: nat, n: nat) returns (dist: real, nearest: Option<nat>)
    requires n > 0 ==> ofs + n <= |vs|
    ensures (dist, nearest) == NearestFrom(vs, ofs, ofs + n, FarAway, None)
  {
    dist, nearest := FarAway, None;
    var j := ofs;
    while j < ofs + n
      invariant ofs <= j <= ofs + n
      invariant NearestFrom(vs, j, ofs + n, dist, nearest) == NearestFrom(vs, ofs, ofs + n, FarAway, None)
    {
      var d := SquaredLength(Sub(vs[j].pos, Camera));
      if d < dist {
        dist, nearest := d, Some(j);
      }
      j := j + 1;
    }
  }

  // ---------------------------------------------------------------------
  // Decal footprint (cpp:1057-1084)
  // ---------------------------------------------------------------------

  /** One vertex's X and Y widen the footprint, each edge by its own test. */
  function Widen(b: Bounds, p: Vec3): (r: Bounds)
    ensures b.Wmin <= b.Wmax && b.Hmin <= b.Hmax ==> r.Wmin <= p.X <= r.Wmax && r.Hmin <= p.Y <= r.Hmax
    ensures r.Wmin <= b.Wmin && b.Wmax <= r.Wmax && r.Hmin <= b.Hmin && b.Hmax <= r.Hmax
  {
    Bounds(
      if p.X > b.Wmax then p.X else b.Wmax,
      if p.X < b.Wmin then p.X else b.Wmin,
      if p.Y > b.Hmax then p.Y else b.Hmax,
      if p.Y < b.Hmin then p.Y else b.Hmin)
  }

  /** The footprint after the vertices [j, end). */
  function BoundsFrom(vs: seq<ModelVertex>, j: nat, end: nat, b: Bounds): Bounds
    requires j <= end && (j < end ==> end <= |vs|)
    decreases end - j
  {
    if j == end then b else BoundsFrom(vs, j + 1, end, Widen(b, vs[j].pos))
  }

  /** The footprint starts as the point at the submesh's centre of mass, Y and Z swapped. */
  function CentreBounds(rec: ModelViewSubmesh): Bounds
  {
    var c := FixCoordSystem(rec.CenterOfMass);
    Bounds(c.X, c.X, c.Y, c.Y)
  }

  /** The end of the footprint scan: one before the end of the vertex range. */
  function BoundsEnd(rec: ModelViewSubmesh): nat
  {
    if rec.nVertex == 0 then rec.ofsVertex else rec.ofsVertex + rec.nVertex - 1
  }

  function SubmeshBounds(vs: seq<ModelVertex>, rec: ModelViewSubmesh): Bounds
    requires rec.nVertex > 0 ==> rec.ofsVertex + rec.nVertex <= |vs|
  {
    BoundsFrom(vs, rec.ofsVertex, BoundsEnd(rec), CentreBounds(rec))
  }

  /** The footprint loop over one submesh's vertices but its last. */
  method ScanBounds(vs: seq<ModelVertex>, rec: ModelViewSubmesh) returns (b: Bounds)
    requires rec.nVertex > 0 ==> rec.ofsVertex + rec.nVertex <= |vs|
    ensures b == SubmeshBounds(vs, rec)
  {
    var c := FixCoordSystem(rec.CenterOfMass);
    b := Bounds(c.X, c.X, c.Y, c.Y);
    var j := rec.ofsVertex;
    var end := BoundsEnd(rec);
    while j < end
      invariant rec.ofsVertex <= j <= end
      invariant BoundsFrom(vs, j, end, b) == SubmeshBounds(vs, rec)
    {
      var p := vs[j].pos;
      if p.X < b.Wmin {
        b := b.(Wmin := p.X);
      }
      if p.X > b.Wmax {
        b := b.(Wmax := p.X);
      }
      if p.Y < b.Hmin {
        b := b.(Hmin := p.Y);
      }
      if p.Y > b.Hmax {
        b := b.(Hmax := p.Y);
      }
      j := j + 1;
    }
  }

  /** The footprint contains the starting footprint and every vertex scanned. */
  lemma {:induction false} BoundsFromContains(vs: seq<ModelVertex>, j: nat, end: nat, b: Bounds)
    requires j <= end && (j < end ==> end <= |vs|)
    requires b.Wmin <= b.Wmax && b.Hmin <= b.Hmax
    ensures var r := BoundsFrom(vs, j, end, b);
      r.Wmin <= b.Wmin && b.Wmax <= r.Wmax && r.Hmin <= b.Hmin && b.Hmax <= r.Hmax &&
      forall m | j <= m < end :: r.Wmin <= vs[m].pos.X <= r.Wmax && r.Hmin <= vs[m].pos.Y <= r.Hmax
    decreases end - j
  {
    if j < end {
      BoundsFromContains(vs, j + 1, end, Widen(b, vs[j].pos));
    }
  }

  /**
    A submesh's footprint contains its centre of mass (X and Z of the
    stored vector) and every one of its vertices except the last.
  */
  lemma SubmeshBoundsContain(vs: seq<ModelVertex>, rec: ModelViewSubmesh)
    requires rec.nVertex > 0 ==> rec.ofsVertex + rec.nVertex <= |vs|
    ensures var r := SubmeshBounds(vs, rec);
      r.Wmin <= rec.CenterOfMass.X <= r.Wmax && r.Hmin <= rec.CenterOfMass.Z <= r.Hmax &&
      forall m | rec.ofsVertex <= m < rec.ofsVertex + rec.nVertex - 1 ::
        r.Wmin <= vs[m].pos.X <= r.Wmax && r.Hmin <= vs[m].pos.Y <= r.Hmax
  {
    BoundsFromContains(vs, rec.ofsVertex, BoundsEnd(rec), CentreBounds(rec));
  }

  /** The footprint scan never reads the vertices at or past `end`. */
  lemma {:induction false} BoundsFromIgnoresRest(vs: seq<ModelVertex>, ws: seq<ModelVertex>, j: nat, end: nat, b: Bounds)
    requires j <= end && (j < end ==> end <= |vs| && end <= |ws|)
    requires j == end || vs[..end] == ws[..end]
    ensures BoundsFrom(vs, j, end, b) == BoundsFrom(ws, j, end, b)
    decreases end - j
  {
    if j < end {
      assert vs[j] == vs[..end][j] == ws[..end][j] == ws[j];
      BoundsFromIgnoresRest(vs, ws, j + 1, end, Widen(b, vs[j].pos));
    }
  }

  /** The last vertex of a submesh plays no part in its footprint: changing it changes nothing. */
  lemma SubmeshBoundsSkipLastVertex(vs: seq<ModelVertex>, rec: ModelViewSubmesh, v: ModelVertex)
    requires rec.nVertex > 0 && rec.ofsVertex + rec.nVertex <= |vs|
    ensures SubmeshBounds(vs[rec.ofsVertex + rec.nVertex - 1 := v], rec) == SubmeshBounds(vs, rec)
  {
    var ws := vs[rec.ofsVertex + rec.nVertex - 1 := v];
    var end := BoundsEnd(rec);
    assert vs[..end] == ws[..end];
    BoundsFromIgnoresRest(ws, vs, rec.ofsVertex, end, CentreBounds(rec));
  }

  // ---------------------------------------------------------------------
  // Texture records (cpp:1087-1110)
  // ---------------------------------------------------------------------

  /**
    The texture record of one texture unit: the path is the unit's entry
    in the texture lookup table and the render and blend flags come from
    its render-flags entry (both reads undefined when out of range); the
    low byte of Flags being 0 marks an animated texture and the high byte
    is the block; the signed render order and colour index are stored as
    u16.
  */
  function TextureOf(u: TextureUnit, t: LoaderTables): Outcome<Texture>
  {
    if u.textureIndex >= |t.textureLookup| || u.renderFlagsIndex >= |t.renderFlags| then Undefined
    else
      var rf := t.renderFlags[u.renderFlagsIndex];
      Done(Texture(
        u.TextureUnitNumber, t.textureLookup[u.textureIndex], u.Flags % 256 == 0,
        rf.flags, rf.blending, WrapU16(u.renderOrder), u.Mode, (u.Flags / 256) % 256,
        WrapU16(u.colorIndex), u.transparencyIndex, u.texAnimIndex))
  }

  /** The texture units of submesh s, in order. */
  function UnitsOf(units: seq<TextureUnit>, s: nat): (r: seq<TextureUnit>)
    ensures |r| <= |units|
    ensures forall k | 0 <= k < |r| :: r[k].submeshIndex1 == s
  {
    if units == [] then []
    else UnitsOf(units[..|units| - 1], s) + (if units[|units| - 1].submeshIndex1 == s then [units[|units| - 1]] else [])
  }

  /** The texture records of the first k units that belong to submesh s. */
  function TexturesUpTo(units: seq<TextureUnit>, s: nat, t: LoaderTables, k: nat): Outcome<seq<Texture>>
    requires k <= |units|
  {
    if k == 0 then Done([])
    else match TexturesUpTo(units, s, t, k - 1)
      case Undefined => Undefined
      case Done(ts) =>
        if units[k - 1].submeshIndex1 != s then Done(ts)
        else match TextureOf(units[k - 1], t)
          case Undefined => Undefined
          case Done(x) => Done(ts + [x])
  }

  /** Every unit of the list has a texture record. */
  predicate AllTextured(us: seq<TextureUnit>, t: LoaderTables)
  {
    forall k | 0 <= k < |us| :: TextureOf(us[k], t).Done?
  }

  /**
    The texture list of submesh s is defined exactly when every unit of s
    has a texture record, and is then those records in the units' order.
  */
  lemma {:induction false} TexturesOfMatchingUnits(units: seq<TextureUnit>, s: nat, t: LoaderTables, k: nat)
    requires k <= |units|
    ensures var us := UnitsOf(units[..k], s);
      TexturesUpTo(units, s, t, k).Done? <==> AllTextured(us, t)
    ensures var us := UnitsOf(units[..k], s);
      TexturesUpTo(units, s, t, k).Done? ==>
        |TexturesUpTo(units, s, t, k).value| == |us| &&
        forall i | 0 <= i < |us| :: TexturesUpTo(units, s, t, k).value[i] == TextureOf(us[i], t).value
  {
    if k > 0 {
      TexturesOfMatchingUnits(units, s, t, k - 1);
      assert units[..k][..k - 1] == units[..k - 1];
      var us := UnitsOf(units[..k - 1], s);
      var u := units[k - 1];
      if u.submeshIndex1 == s {
        var us' := us + [u];
        assert UnitsOf(units[..k], s) == us';
        assert forall i | 0 <= i < |us| :: us'[i] == us[i];
        assert us'[|us|] == u;
      } else {
        assert UnitsOf(units[..k], s) == us;
      }
    }
  }

  /** Once undefined, the texture list stays undefined. */
  lemma {:induction false} TexturesStayUndefined(units: seq<TextureUnit>, s: nat, t: LoaderTables, k: nat)
    requires k <= |units| && TexturesUpTo(units, s, t, k).Undefined?
    ensures TexturesUpTo(units, s, t, |units|).Undefined?
    decreases |units| - k
  {
    if k < |units| {
      TexturesStayUndefined(units, s, t, k + 1);
    }
  }

  /** The loop over the texture units collecting submesh s's texture records. */
  method CollectTextures(units: seq<TextureUnit>, s: nat, t: LoaderTables) returns (r: Outcome<seq<Texture>>)
    requires |units| < TWO16
    ensures r == TexturesUpTo(units, s, t, |units|)
  {
    var ts := [];
    var k := 0;
    while k < |units|
      invariant k <= |units|
      invariant TexturesUpTo(units, s, t, k) == Done(ts)
    {
      var u := units[k];
      if u.submeshIndex1 == s {
        if u.textureIndex >= |t.textureLookup| || u.renderFlagsIndex >= |t.renderFlags| {
          TexturesStayUndefined(units, s, t, k + 1);
          return Undefined;
        }
        var rf := t.renderFlags[u.renderFlagsIndex];
        ts := ts + [Texture(
          u.TextureUnitNumber, t.textureLookup[u.textureIndex], u.Flags % 256 == 0,
          rf.flags, rf.blending, WrapU16(u.renderOrder), u.Mode, (u.Flags / 256) % 256,
          WrapU16(u.colorIndex), u.transparencyIndex, u.texAnimIndex)];
      }
      k := k + 1;
    }
    return Done(ts);
  }

  // ---------------------------------------------------------------------
  // The submesh record (cpp:1019-1115)
  // ---------------------------------------------------------------------

  /**
    The name that identifies a submesh across skins: the model's base name,
    the first vertex, "_" and the end of the vertex range as a u16.
  */
  function UniqueName(basename: string, rec: ModelViewSubmesh): string
  {
    basename + NatToString(rec.ofsVertex) + "_" + NatToString(WrapU16(rec.ofsVertex + rec.nVertex))
  }

  /** Splitting at the first "_" separates two digit strings again. */
  lemma SplitAtUnderscore(x: string, y: string, x': string, y': string)
    requires AllDigits(x) && AllDigits(y) && AllDigits(x') && AllDigits(y')
    requires x + "_" + y == x' + "_" + y'
    ensures x == x' && y == y'
  {
    var l := x + "_" + y;
    assert l[|x|] == '_' && l[|x'|] == '_';
    assert forall i | 0 <= i < |x| :: l[i] == x[i] && IsDigit(l[i]);
    assert forall i | 0 <= i < |x'| :: l[i] == x'[i] && IsDigit(l[i]);
    assert |x| == |x'|;
    assert x == l[..|x|] == x';
    assert y == l[|x| + 1..] == y';
  }

  /** Two distinct numbers below 2^16 and their names. */
  lemma RangeNamesDiffer(m: nat, n: nat, m': nat, n': nat)
    requires NatToString(m) + "_" + NatToString(n) == NatToString(m') + "_" + NatToString(n')
    ensures m == m' && n == n'
  {
    NatToStringShape(m);
    NatToStringShape(n);
    NatToStringShape(m');
    NatToStringShape(n');
    SplitAtUnderscore(NatToString(m), NatToString(n), NatToString(m'), NatToString(n'));
    NatToStringInjective(m, m');
    NatToStringInjective(n, n');
  }

  /** Two submeshes of the same model with the same name share their vertex range (the end taken as u16). */
  lemma UniqueNameIdentifiesRange(basename: string, a: ModelViewSubmesh, b: ModelViewSubmesh)
    requires UniqueName(basename, a) == UniqueName(basename, b)
    ensures a.ofsVertex == b.ofsVertex
    ensures WrapU16(a.ofsVertex + a.nVertex) == WrapU16(b.ofsVertex + b.nVertex)
  {
    var ea, eb := WrapU16(a.ofsVertex + a.nVertex), WrapU16(b.ofsVertex + b.nVertex);
    var x, y := NatToString(a.ofsVertex) + "_" + NatToString(ea), NatToString(b.ofsVertex) + "_" + NatToString(eb);
    assert UniqueName(basename, a) == basename + x;
    assert UniqueName(basename, b) == basename + y;
    CancelPrefix(basename, x, y);
    RangeNamesDiffer(a.ofsVertex, ea, b.ofsVertex, eb);
  }

  /** Whether the loop body for submesh s reads only what exists. */
  predicate SubmeshReadable(rec: ModelViewSubmesh, t: LoaderTables)
  {
    rec.unk4 < |t.boneLookup| && (rec.nVertex > 0 ==> rec.ofsVertex + rec.nVertex <= |t.vertices|)
  }

  /**
    The submesh record and footprint for submesh s of a skin: its mesh part,
    its root bone through the bone lookup table, its radius, its nearest
    vertex to the camera (relative to its first vertex), its name, its index
    s and its texture records.
  */
  function SubmeshEntry(skin: SkinData, s: nat, t: LoaderTables): (r: Outcome<(Submesh, Bounds)>)
    requires s < |skin.Submeshes|
    ensures r.Done? ==> r.value.0.LoaderIndex == s && r.value.0.Radius == skin.Submeshes[s].Radius
  {
    var rec := skin.Submeshes[s];
    if !SubmeshReadable(rec, t) || |skin.TextureUnits| >= TWO16 then Undefined
    else match TexturesUpTo(skin.TextureUnits, s, t, |skin.TextureUnits|)
      case Undefined => Undefined
      case Done(textures) =>
        var (d, k) := NearestFrom(t.vertices, rec.ofsVertex, rec.ofsVertex + rec.nVertex, FarAway, None);
        var nearest := if k.Some? && k.value >= rec.ofsVertex then Some(k.value - rec.ofsVertex) else None;
        Done((Submesh(rec.meshpartId, t.boneLookup[rec.unk4], rec.Radius, d, nearest, UniqueName(t.basename, rec), s, textures),
          SubmeshBounds(t.vertices, rec)))
  }

  /**
    A submesh's Distance is at most the start value and at most the squared
    distance of each of its vertices; its nearest vertex, when set, lies in
    its range and has exactly that distance.
  */
  lemma SubmeshEntryNearest(skin: SkinData, s: nat, t: LoaderTables)
    requires s < |skin.Submeshes| && SubmeshEntry(skin, s, t).Done?
    ensures var rec, e := skin.Submeshes[s], SubmeshEntry(skin, s, t).value.0;
      e.Distance <= FarAway &&
      (forall m | rec.ofsVertex <= m < rec.ofsVertex + rec.nVertex :: e.Distance <= SqDist(t.vertices, m)) &&
      (e.NearestVertex.Some? ==> (e.NearestVertex.value < rec.nVertex &&
        e.Distance == SqDist(t.vertices, rec.ofsVertex + e.NearestVertex.value)))
  {
    var rec := skin.Submeshes[s];
    NearestFromIsFirstMinimum(t.vertices, rec.ofsVertex, rec.ofsVertex + rec.nVertex, FarAway, None);
  }

  /** The body of the submesh loop for submesh s. */
  method BuildSubmesh(skin: SkinData, s: nat, t: LoaderTables) returns (r: Outcome<(Submesh, Bounds)>)
    requires s < |skin.Submeshes|
    ensures r == SubmeshEntry(skin, s, t)
  {
    var rec := skin.Submeshes[s];
    if !SubmeshReadable(rec, t) || |skin.TextureUnits| >= TWO16 {
      return Undefined;
    }
    var textures := CollectTextures(skin.TextureUnits, s, t);
    if textures.Undefined? {
      return Undefined;
    }
    var d, k := NearestVertex(t.vertices, rec.ofsVertex, rec.nVertex);
    var nearest := if k.Some? && k.value >= rec.ofsVertex then Some(k.value - rec.ofsVertex) else None;
    var bounds := ScanBounds(t.vertices, rec);
    r := Done((Submesh(rec.meshpartId, t.boneLookup[rec.unk4], rec.Radius, d, nearest, UniqueName(t.basename, rec), s, textures.value), bounds));
  }

  // ---------------------------------------------------------------------
  // One skin (cpp:1010-1137)
  // ---------------------------------------------------------------------

  /** The submesh records and footprints of the first k submeshes of a skin. */
  function EntriesUpTo(skin: SkinData, t: LoaderTables, k: nat): (r: Outcome<(seq<Submesh>, seq<Bounds>)>)
    requires k <= |skin.Submeshes|
    ensures r.Done? ==> |r.value.0| == |r.value.1| == k
  {
    if k == 0 then Done(([], []))
    else match EntriesUpTo(skin, t, k - 1)
      case Undefined => Undefined
      case Done((subs, dims)) =>
        match SubmeshEntry(skin, k - 1, t)
        case Undefined => Undefined
        case Done((e, b)) => Done((subs + [e], dims + [b]))
  }

  /**
    Entry i of the records is the record of submesh i, so its LoaderIndex is
    i and its footprint is entry i of the footprints.
  */
  lemma {:induction false} EntriesAreSubmeshEntries(skin: SkinData, t: LoaderTables, k: nat, i: nat)
    requires i < k <= |skin.Submeshes| && EntriesUpTo(skin, t, k).Done?
    ensures SubmeshEntry(skin, i, t).Done?
    ensures EntriesUpTo(skin, t, k).value.0[i] == SubmeshEntry(skin, i, t).value.0
    ensures EntriesUpTo(skin, t, k).value.1[i] == SubmeshEntry(skin, i, t).value.1
    ensures EntriesUpTo(skin, t, k).value.0[i].LoaderIndex == i
  {
    if i < k - 1 {
      EntriesAreSubmeshEntries(skin, t, k - 1, i);
    }
  }

  /** The submeshes that go to the sky bucket (want = true) or the scene bucket (want = false), in order. */
  function Bucket(subs: seq<Submesh>, want: bool): (r: seq<Submesh>)
    ensures |r| <= |subs|
    ensures forall x | x in r :: x in subs && (x.Radius >= SkyRadius) == want
  {
    if subs == [] then []
    else
      var last := subs[|subs| - 1];
      Bucket(subs[..|subs| - 1], want) + (if (last.Radius >= SkyRadius) == want then [last] else [])
  }

  /** Every submesh lands in exactly one bucket. */
  lemma {:induction false} BucketsPartition(subs: seq<Submesh>)
    ensures multiset(Bucket(subs, true)) + multiset(Bucket(subs, false)) == multiset(subs)
  {
    if subs != [] {
      BucketsPartition(subs[..|subs| - 1]);
      assert subs == subs[..|subs| - 1] + [subs[|subs| - 1]];
    }
  }

  /**
    A bucket the loader can fix and sort: FixDecalDistance reads the first
    texture of every entry but the last and the footprints of decals and
    their hosts, and sortDistance's unsigned bound size-2 needs two entries.
  */
  predicate Sortable(b: seq<Submesh>, dims: seq<Bounds>)
  {
    2 <= |b| <= TWO16 && DecalInputOK(b, dims)
  }

  /** The loop over a skin's submeshes is defined and both buckets can be fixed and sorted. */
  predicate SkinDefined(skin: SkinData, t: LoaderTables)
  {
    |skin.Submeshes| < TWO16 &&
    EntriesUpTo(skin, t, |skin.Submeshes|).Done? &&
    var (subs, dims) := EntriesUpTo(skin, t, |skin.Submeshes|).value;
    Sortable(Bucket(subs, true), dims) && Sortable(Bucket(subs, false), dims)
  }

  /** A bucket gets no entry from submeshes that all belong to the other side. */
  lemma {:induction false} BucketEmpty(subs: seq<Submesh>, want: bool)
    requires forall i | 0 <= i < |subs| :: (subs[i].Radius >= SkyRadius) != want
    ensures Bucket(subs, want) == []
  {
    if subs != [] {
      BucketEmpty(subs[..|subs| - 1], want);
    }
  }

  /** A bucket gets at most one entry when at most one submesh belongs to its side. */
  lemma {:induction false} BucketAtMostOne(subs: seq<Submesh>, want: bool)
    requires forall i, j | 0 <= i < j < |subs| :: !((subs[i].Radius >= SkyRadius) == want && (subs[j].Radius >= SkyRadius) == want)
    ensures |Bucket(subs, want)| <= 1
  {
    if subs != [] {
      var front := subs[..|subs| - 1];
      if (subs[|subs| - 1].Radius >= SkyRadius) == want {
        BucketEmpty(front, want);
      } else {
        BucketAtMostOne(front, want);
      }
    }
  }

  /**
    The unsigned bounds size()-2 and size()-1 of sortDistance,
    FixDecalDistance and the copy loop make a skin undefined whenever at
    most one of its submeshes has a radius on the sky side (want = true) or
    at most one on the scene side (want = false): in particular every skin
    without two submeshes of radius 70 or more.
  */
  lemma FewInBucketUndefined(skin: SkinData, t: LoaderTables, want: bool)
    requires forall i, j | 0 <= i < j < |skin.Submeshes| ::
      !((skin.Submeshes[i].Radius >= SkyRadius) == want && (skin.Submeshes[j].Radius >= SkyRadius) == want)
    ensures !SkinDefined(skin, t)
  {
    var n := |skin.Submeshes|;
    if n < TWO16 && EntriesUpTo(skin, t, n).Done? {
      var subs := EntriesUpTo(skin, t, n).value.0;
      forall i | 0 <= i < n
        ensures subs[i].Radius == skin.Submeshes[i].Radius
      {
        EntriesAreSubmeshEntries(skin, t, n, i);
      }
      BucketAtMostOne(subs, want);
    }
  }

  /**
    A bucket after sortDistance: a permutation of its input, ordered
    farthest first except for the last entry, which stays where it was.
  */
  ghost predicate SortedBucket(out: seq<Submesh>, input: seq<Submesh>)
  {
    |out| == |input| >= 1 && multiset(out) == multiset(input) &&
    out[|out| - 1] == input[|input| - 1] && DistanceDescending(out, |out| - 1)
  }

  /**
    The copy into the skin: every sky entry but the last, entry t > 0 with
    its Distance set to that of entry 0 minus t, then every scene entry but
    the last.
  */
  function CopyOut(sky: seq<Submesh>, scene: seq<Submesh>): (r: seq<Submesh>)
    requires |sky| >= 1 && |scene| >= 1
    ensures |r| == |sky| - 1 + |scene| - 1
  {
    seq(|sky| - 1, i requires 0 <= i < |sky| - 1 => if i > 0 then sky[i].(Distance := sky[0].Distance - i as real) else sky[i]) +
    scene[..|scene| - 1]
  }

  /**
    The skin the loader stores: number S, holding the copy of its sky and
    scene buckets after the decal fix and the sort.
  */
  ghost predicate SkinFrom(out: Skin, S: nat, skin: SkinData, t: LoaderTables)
    requires SkinDefined(skin, t)
  {
    var (subs, dims) := EntriesUpTo(skin, t, |skin.Submeshes|).value;
    out.ID == S &&
    exists sky, scene ::
      SortedBucket(sky, FixDecals(Bucket(subs, true), dims)) &&
      SortedBucket(scene, FixDecals(Bucket(subs, false), dims)) &&
      out.Submeshes == CopyOut(sky, scene)
  }

  /**
    The copied sky entries have strictly decreasing distances, so they keep
    their order if sorted again, and the scene entries are ordered farthest
    first; the last entry of each bucket is not copied.
  */
  lemma CopyOutOrdered(sky: seq<Submesh>, scene: seq<Submesh>)
    requires |sky| >= 1 && |scene| >= 1 && DistanceDescending(scene, |scene| - 1)
    ensures var r := CopyOut(sky, scene);
      (forall p, q | 0 <= p < q < |sky| - 1 :: r[p].Distance > r[q].Distance) &&
      (forall p, q | |sky| - 1 <= p < q < |r| :: r[p].Distance >= r[q].Distance) &&
      (forall i | 0 <= i < |scene| - 1 :: r[|sky| - 1 + i] == scene[i])
  {
  }

  /** The submesh loop of one skin: the records, the footprints and the two buckets. */
  method CollectEntries(skin: SkinData, t: LoaderTables) returns (r: Outcome<(seq<Submesh>, seq<Submesh>, seq<Bounds>)>)
    requires |skin.Submeshes| < TWO16
    ensures r.Done? <==> EntriesUpTo(skin, t, |skin.Submeshes|).Done?
    ensures r.Done? ==> var (subs, dims) := EntriesUpTo(skin, t, |skin.Submeshes|).value;
      r.value == (Bucket(subs, true), Bucket(subs, false), dims)
  {
    var sky, scene, dims := [], [], [];
    ghost var subs := [];
    var s: nat := 0;
    while s < |skin.Submeshes|
      invariant s <= |skin.Submeshes| && EntriesUpTo(skin, t, s) == Done((subs, dims)) &&
        sky == Bucket(subs, true) && scene == Bucket(subs, false)
    {
      var ok;
      ok, subs, dims, sky, scene := CollectEntry(skin, t, s, subs, dims, sky, scene);
      if !ok {
        EntriesStayUndefined(skin, t, s + 1);
        return Undefined;
      }
      s := s + 1;
    }
    return Done((sky, scene, dims));
  }

  /** One pass of the submesh loop: the record of submesh s, its footprint, and the bucket it joins. */
  method CollectEntry(skin: SkinData, t: LoaderTables, s: nat, ghost subs: seq<Submesh>, dims: seq<Bounds>,
                      sky: seq<Submesh>, scene: seq<Submesh>)
    returns (ok: bool, ghost subs': seq<Submesh>, dims': seq<Bounds>, sky': seq<Submesh>, scene': seq<Submesh>)
    requires s < |skin.Submeshes| && EntriesUpTo(skin, t, s) == Done((subs, dims))
    requires sky == Bucket(subs, true) && scene == Bucket(subs, false)
    ensures ok <==> EntriesUpTo(skin, t, s + 1).Done?
    ensures ok ==> EntriesUpTo(skin, t, s + 1) == Done((subs', dims'))
    ensures ok ==> sky' == Bucket(subs', true) && scene' == Bucket(subs', false)
  {
    var e := BuildSubmesh(skin, s, t);
    if e.Undefined? {
      return false, subs, dims, sky, scene;
    }
    var (sub, b) := e.value;
    EntriesStep(skin, t, s, subs, dims, sub, b);
    dims' := dims + [b];
    subs' := subs + [sub];
    sky', scene' := sky, scene;
    if sub.Radius >= SkyRadius {
      sky' := sky + [sub];
    } else {
      scene' := scene + [sub];
    }
    ok := true;
  }

  /** One step of the submesh loop: a defined record extends the records and one of the buckets. */
  lemma EntriesStep(skin: SkinData, t: LoaderTables, s: nat, subs: seq<Submesh>, dims: seq<Bounds>, sub: Submesh, b: Bounds)
    requires s < |skin.Submeshes| && EntriesUpTo(skin, t, s) == Done((subs, dims))
    requires SubmeshEntry(skin, s, t) == Done((sub, b))
    ensures EntriesUpTo(skin, t, s + 1) == Done((subs + [sub], dims + [b]))
    ensures Bucket(subs + [sub], true) == Bucket(subs, true) + (if sub.Radius >= SkyRadius then [sub] else [])
    ensures Bucket(subs + [sub], false) == Bucket(subs, false) + (if sub.Radius < SkyRadius then [sub] else [])
  {
    assert (subs + [sub])[..|subs|] == subs;
  }

  /** Once a submesh record is undefined, the skin's records stay undefined. */
  lemma {:induction false} EntriesStayUndefined(skin: SkinData, t: LoaderTables, k: nat)
    requires k <= |skin.Submeshes| && EntriesUpTo(skin, t, k).Undefined?
    ensures EntriesUpTo(skin, t, |skin.Submeshes|).Undefined?
    decreases |skin.Submeshes| - k
  {
    if k < |skin.Submeshes| {
      EntriesStayUndefined(skin, t, k + 1);
    }
  }

  /** A bucket as an array of its own. */
  method ToArray(b: seq<Submesh>) returns (a: array<Submesh>)
    ensures fresh(a) && a[..] == b
  {
    a := new Submesh[|b|](i requires 0 <= i < |b| => b[i]);
  }

  /** The copy loops: sky then scene, each without its last entry. */
  method CopyBuckets(sky: array<Submesh>, scene: array<Submesh>) returns (out: seq<Submesh>)
    requires sky.Length >= 1 && scene.Length >= 1 && sky != scene
    modifies sky
    ensures out == CopyOut(old(sky[..]), scene[..])
  {
    ghost var s0 := sky[..];
    out := [];
    var i := 0;
    while i < sky.Length - 1
      invariant i <= sky.Length - 1
      invariant sky[0] == s0[0] && sky[i..] == s0[i..]
      invariant out == seq(i, k requires 0 <= k < i => if k > 0 then s0[k].(Distance := s0[0].Distance - k as real) else s0[k])
    {
      if i > 0 {
        sky[i] := sky[i].(Distance := sky[0].Distance - i as real);
      }
      out := out + [sky[i]];
      i := i + 1;
    }
    i := 0;
    while i < scene.Length - 1
      invariant i <= scene.Length - 1
      invariant out == CopyOut(s0, scene[..])[..sky.Length - 1 + i]
    {
      out := out + [scene[i]];
      i := i + 1;
    }
  }

  /**
    One iteration of the skin loop: the submesh records, the two buckets,
    the decal fix on each, the sort of each, and the copy.
  */
  method AssembleSkin(S: nat, skin: SkinData, t: LoaderTables) returns (r: Outcome<Skin>)
    ensures r.Done? <==> SkinDefined(skin, t)
    ensures r.Done? ==> SkinFrom(r.value, S, skin, t)
  {
    if |skin.Submeshes| >= TWO16 {
      return Undefined;
    }
    var e := CollectEntries(skin, t);
    if e.Undefined? {
      return Undefined;
    }
    var (sky, scene, dims) := e.value;
    if !(Sortable(sky, dims) && Sortable(scene, dims)) {
      return Undefined;
    }
    var skyA := ToArray(sky);
    var sceneA := ToArray(scene);
    FixDecalDistance(sceneA, dims);
    FixDecalDistance(skyA, dims);
    SortDistance(skyA);
    SortDistance(sceneA);
    ghost var skySorted, sceneSorted := skyA[..], sceneA[..];
    var out := CopyBuckets(skyA, sceneA);
    r := Done(Skin(S, out));
    assert SortedBucket(skySorted, FixDecals(sky, dims)) && SortedBucket(sceneSorted, FixDecals(scene, dims));
  }
}
