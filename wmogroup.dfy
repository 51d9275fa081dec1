/**
  The second half of a WMO group load (CWMOMeshFileLoader::load, after the
  chunk loop): the group's vertices, the split of its triangles into one
  mesh buffer per run of one texture, and the buffers added to the mesh.
*/
module WmoGroup {
  import opened Wrappers
  import opened M2Geometry
  import opened M2Mesh
  import opened WmoChunks
  import opened Bytes

  // ---------------------------------------------------------------------
  // Vertices (cpp:261-269)

  /**
    The group's vertices in Irrlicht's form: position, normal and texture
    coordinate of each vertex (the fixed grey colour is not modelled).
    Fewer normals or coordinates than positions index past their ends.
  */
  function GroupVertices(t: WmoTables): (r: Outcome<seq<Vertex>>)
    ensures r.Done? <==> |t.vertices| <= |t.normals| && |t.vertices| <= |t.texcoords|
  {
    if |t.vertices| <= |t.normals| && |t.vertices| <= |t.texcoords| then
      Done(seq(|t.vertices|, i requires 0 <= i < |t.vertices| => Vertex(t.vertices[i], t.normals[i], t.texcoords[i])))
    else Undefined
  }

  /** The vertex loop. */
  method BuildVertices(t: WmoTables) returns (r: Outcome<seq<Vertex>>)
    ensures r == GroupVertices(t)
  {
    var vs: seq<Vertex> := [];
    var i := 0;
    while i < |t.vertices|
      invariant 0 <= i <= |t.vertices| && i <= |t.normals| && i <= |t.texcoords|
      invariant |vs| == i && forall k | 0 <= k < i :: vs[k] == Vertex(t.vertices[k], t.normals[k], t.texcoords[k])
    {
      if i >= |t.normals| || i >= |t.texcoords| {
        return Undefined;
      }
      vs := vs + [Vertex(t.vertices[i], t.normals[i], t.texcoords[i])];
      i := i + 1;
    }
    ghost var w := GroupVertices(t).value;
    assert |w| == |vs| && forall k | 0 <= k < |vs| :: vs[k] == w[k];
    assert vs == w;
    return Done(vs);
  }

  // ---------------------------------------------------------------------
  // Triangles of a submesh (cpp:279-287)

  /**
    The triangles j in [lo, lo + k) the inner loop takes: those whose three
    indices exist and whose texture is not 255. A triangle whose indices
    exist but which lies past the texture table reads past its end.
  */
  function TrianglesUpTo(t: WmoTables, lo: nat, k: nat): (r: Outcome<seq<nat>>)
    decreases k
  {
    if k == 0 then Done([])
    else match TrianglesUpTo(t, lo, k - 1)
      case Undefined => Undefined
      case Done(js) =>
        var j := lo + k - 1;
        if j * 3 + 2 >= |t.indices| then Done(js)
        else if j >= |t.textureIDs| then Undefined
        else if t.textureIDs[j] == 255 then Done(js)
        else Done(js + [j])
  }

  /** The triangles of the loop from lo up to hi (none when hi <= lo). */
  function Triangles(t: WmoTables, lo: nat, hi: nat): Outcome<seq<nat>>
  {
    TrianglesUpTo(t, lo, if hi > lo then hi - lo else 0)
  }

  /** A triangle is taken exactly when it lies in the range, has its three indices and a texture other than 255. */
  lemma {:induction false} TriangleMember(t: WmoTables, lo: nat, k: nat, j: nat)
    requires TrianglesUpTo(t, lo, k).Done?
    ensures j in TrianglesUpTo(t, lo, k).value <==>
      (lo <= j < lo + k && j * 3 + 2 < |t.indices| && j < |t.textureIDs| && t.textureIDs[j] != 255)
    decreases k
  {
    if k > 0 {
      TriangleMember(t, lo, k - 1, j);
    }
  }

  /** The loop reads past the texture table exactly when some triangle in range has its indices but no texture entry. */
  lemma {:induction false} TrianglesDefined(t: WmoTables, lo: nat, k: nat)
    ensures TrianglesUpTo(t, lo, k).Undefined? <==>
      exists j :: lo <= j < lo + k && j * 3 + 2 < |t.indices| && j >= |t.textureIDs|
    decreases k
  {
    if k > 0 {
      TrianglesDefined(t, lo, k - 1);
    }
  }

  lemma {:induction false} TrianglesStayUndefined(t: WmoTables, lo: nat, k: nat, n: nat)
    requires k <= n && TrianglesUpTo(t, lo, k).Undefined?
    ensures TrianglesUpTo(t, lo, n).Undefined?
    decreases n - k
  {
    if k < n {
      TrianglesStayUndefined(t, lo, k + 1, n);
    }
  }

  /** The three indices of triangle j. */
  function Triangle(indices: seq<nat>, j: nat): seq<nat>
  {
    if j * 3 + 2 < |indices| then [indices[j * 3], indices[j * 3 + 1], indices[j * 3 + 2]] else []
  }

  /** The index list of a buffer: the three indices of each triangle, in order. */
  function IndicesOf(indices: seq<nat>, js: seq<nat>): (r: seq<nat>)
    decreases |js|
  {
    if js == [] then [] else IndicesOf(indices, js[..|js| - 1]) + Triangle(indices, js[|js| - 1])
  }

  /** One more triangle in range extends the taken list as TrianglesUpTo says. */
  lemma TrianglesStep(t: WmoTables, lo: nat, j: nat, js: seq<nat>)
    requires lo <= j && TrianglesUpTo(t, lo, j - lo) == Done(js)
    ensures TrianglesUpTo(t, lo, j + 1 - lo) ==
      if j * 3 + 2 >= |t.indices| || (j < |t.textureIDs| && t.textureIDs[j] == 255) then Done(js)
      else if j >= |t.textureIDs| then Undefined
      else Done(js + [j])
  {
  }

  /** Taking one more triangle appends its three indices. */
  lemma IndicesSnoc(indices: seq<nat>, js: seq<nat>, j: nat)
    requires j * 3 + 2 < |indices|
    ensures IndicesOf(indices, js + [j]) == IndicesOf(indices, js) + [indices[j * 3], indices[j * 3 + 1], indices[j * 3 + 2]]
  {
    assert (js + [j])[..|js|] == js;
  }

  /** The inner loop: the triangles taken and their indices pushed three at a time. */
  method EmitTriangles(t: WmoTables, lo: nat, hi: nat) returns (r: Outcome<(seq<nat>, seq<nat>)>)
    ensures r.Done? <==> Triangles(t, lo, hi).Done?
    ensures r.Done? ==> r.value.0 == Triangles(t, lo, hi).value && r.value.1 == IndicesOf(t.indices, r.value.0)
  {
    var js: seq<nat> := [];
    var out: seq<nat> := [];
    var j: nat := lo;
    while j < hi
      invariant lo <= j && (j <= hi || j == lo)
      invariant TrianglesUpTo(t, lo, j - lo) == Done(js) && out == IndicesOf(t.indices, js)
    {
      TrianglesStep(t, lo, j, js);
      if j * 3 + 2 < |t.indices| && (j >= |t.textureIDs| || t.textureIDs[j] != 255) {
        if j >= |t.textureIDs| {
          TrianglesStayUndefined(t, lo, j + 1 - lo, hi - lo);
          return Undefined;
        }
        IndicesSnoc(t.indices, js, j);
        out := out + [t.indices[j * 3], t.indices[j * 3 + 1], t.indices[j * 3 + 2]];
        js := js + [j];
      }
      j := j + 1;
    }
    return Done((js, out));
  }

  // ---------------------------------------------------------------------
  // Submeshes (cpp:271-334)

  /** A buffer the group adds: its triangles, and the texture name and blend mode when the texture was found. */
  datatype GroupBuffer = GroupBuffer(triangles: seq<nat>, texture: Option<(string, nat)>)

  /** lastindex and the buffers added so far. */
  datatype Plan = Plan(last: nat, buffers: seq<GroupBuffer>)

  /** The size of the buffer MakeTextureFilename formats a group texture's file name into. */
  const GroupTextureNameBuffer: nat := 1000

  /**
    One boundary of submeshes: a run whose first texture is 255 adds
    nothing; otherwise a buffer with the run's triangles. A texture name
    that with its terminating NUL does not fit the 1000-byte buffer
    overflows it; otherwise the texture is looked up by name, and when it
    cannot be found the loop continues without moving lastindex on.
  */
  function SubmeshStep(t: WmoTables, available: set<string>, p: Plan, bound: nat): (r: Outcome<Plan>)
  {
    if p.last >= |t.textureIDs| then Undefined
    else if t.textureIDs[p.last] == 255 then Done(Plan(bound, p.buffers))
    else match Triangles(t, p.last, bound)
      case Undefined => Undefined
      case Done(js) =>
        var id := t.textureIDs[p.last];
        if id >= |t.textureFiles| then Undefined
        else
          var name := t.textureFiles[id];
          if |name| + 1 > GroupTextureNameBuffer then Undefined
          else if name !in available then Done(Plan(p.last, p.buffers + [GroupBuffer(js, None)]))
          else if id >= |t.defs| then Undefined
          else Done(Plan(bound, p.buffers + [GroupBuffer(js, Some((name, t.defs[id].blendMode)))]))
  }

  /** The plan after the first k boundaries. */
  function PlanUpTo(t: WmoTables, available: set<string>, k: nat): Outcome<Plan>
    requires k <= |t.submeshes|
  {
    if k == 0 then Done(Plan(0, []))
    else match PlanUpTo(t, available, k - 1)
      case Undefined => Undefined
      case Done(p) => SubmeshStep(t, available, p, t.submeshes[k - 1])
  }

  lemma {:induction false} PlanStaysUndefined(t: WmoTables, available: set<string>, k: nat)
    requires k <= |t.submeshes| && PlanUpTo(t, available, k).Undefined?
    ensures PlanUpTo(t, available, |t.submeshes|).Undefined?
    decreases |t.submeshes| - k
  {
    if k < |t.submeshes| {
      PlanStaysUndefined(t, available, k + 1);
    }
  }

  /**
    A run that starts with a texture whose name has 1000 bytes or more
    overflows the name buffer, so the whole group is undefined.
  */
  lemma GroupTextureNameOverflowUndefined(t: WmoTables, available: set<string>, k: nat)
    requires k < |t.submeshes| && PlanUpTo(t, available, k).Done?
    requires var p := PlanUpTo(t, available, k).value;
      p.last < |t.textureIDs| && t.textureIDs[p.last] != 255 && t.textureIDs[p.last] < |t.textureFiles| &&
      |t.textureFiles[t.textureIDs[p.last]]| >= GroupTextureNameBuffer
    ensures GroupOf(t, available).Undefined?
  {
    assert PlanUpTo(t, available, k + 1).Undefined?;
    PlanStaysUndefined(t, available, k + 1);
  }

  /**
    A step adds at most one buffer, and only when the texture at lastindex
    is not 255; lastindex moves to the boundary unless the texture was not
    found.
  */
  lemma SubmeshStepShape(t: WmoTables, available: set<string>, p: Plan, bound: nat)
    requires SubmeshStep(t, available, p, bound).Done?
    ensures var q := SubmeshStep(t, available, p, bound).value;
      p.last < |t.textureIDs| &&
      (t.textureIDs[p.last] == 255 <==> q.buffers == p.buffers) &&
      (q.buffers == p.buffers || (|q.buffers| == |p.buffers| + 1 && q.buffers[..|p.buffers|] == p.buffers)) &&
      q.last == if q.buffers != p.buffers && q.buffers[|p.buffers|].texture.None? then p.last else bound
  {
  }

  /** Each buffer holds only triangles below every boundary seen so far. */
  lemma {:induction false} PlanTrianglesBelow(t: WmoTables, available: set<string>, k: nat, m: nat)
    requires k <= |t.submeshes| && PlanUpTo(t, available, k).Done?
    requires forall i | 0 <= i < |t.submeshes| :: t.submeshes[i] <= m
    ensures PlanUpTo(t, available, k).value.last <= m
    ensures forall b, j | b in PlanUpTo(t, available, k).value.buffers && j in b.triangles :: j < m
    decreases k
  {
    if k > 0 {
      PlanTrianglesBelow(t, available, k - 1, m);
      var p := PlanUpTo(t, available, k - 1).value;
      var bound := t.submeshes[k - 1];
      if p.last < |t.textureIDs| && t.textureIDs[p.last] != 255 {
        var tr := Triangles(t, p.last, bound);
        if tr.Done? {
          forall j | j in tr.value
            ensures j < m
          {
            TriangleMember(t, p.last, if bound > p.last then bound - p.last else 0, j);
          }
        }
      }
    }
  }

  /**
    With the boundaries of the group's own MOPY chunk, no buffer ever holds
    the group's last triangle: the last boundary is that triangle, and the
    loop stops before each boundary.
  */
  lemma LastTriangleNeverEmitted(t: WmoTables, available: set<string>)
    requires 1 <= |t.textureIDs| < TWO32 && t.submeshes == Boundaries(t.textureIDs)
    requires PlanUpTo(t, available, |t.submeshes|).Done?
    ensures forall b | b in PlanUpTo(t, available, |t.submeshes|).value.buffers ::
      |t.textureIDs| - 1 !in b.triangles
  {
    BoundariesShape(t.textureIDs);
    RunStartsIncrease(t.textureIDs);
    PlanTrianglesBelow(t, available, |t.submeshes|, |t.textureIDs| - 1);
  }

  // ---------------------------------------------------------------------
  // Mesh buffers

  /**
    The mesh buffer of a planned buffer: the group's vertices and the
    triangles' indices; a found texture goes in layer 0, blend mode 1 makes
    it alpha-blended, and the buffer is mapped static.
  */
  function MeshBufferOf(t: WmoTables, verts: seq<Vertex>, b: GroupBuffer): MeshBuffer
  {
    match b.texture
    case None => MeshBuffer(IndicesOf(t.indices, b.triangles), verts, DefaultMaterial, Never)
    case Some((name, blend)) =>
      MeshBuffer(IndicesOf(t.indices, b.triangles), verts,
        DefaultMaterial.(TextureLayers := [(0, name)], Type := if blend == 1 then TransparentAlphaChannel else Solid),
        Static)
  }

  function MeshBuffersOf(t: WmoTables, verts: seq<Vertex>, bs: seq<GroupBuffer>): (r: seq<MeshBuffer>)
    ensures |r| == |bs|
  {
    seq(|bs|, i requires 0 <= i < |bs| => MeshBufferOf(t, verts, bs[i]))
  }

  /** The buffers a group load adds to the mesh. */
  function GroupOf(t: WmoTables, available: set<string>): (r: Outcome<seq<MeshBuffer>>)
    ensures r.Done? <==> GroupVertices(t).Done? && PlanUpTo(t, available, |t.submeshes|).Done?
    ensures r.Done? ==> forall i | 0 <= i < |r.value| :: r.value[i].Vertices == GroupVertices(t).value
  {
    match GroupVertices(t)
    case Undefined => Undefined
    case Done(verts) =>
      match PlanUpTo(t, available, |t.submeshes|)
      case Undefined => Undefined
      case Done(p) => Done(MeshBuffersOf(t, verts, p.buffers))
  }

  /** The tables after a group load: the group's geometry is cleared; materials, names and submeshes stay. */
  function Cleared(t: WmoTables): (r: WmoTables)
    ensures r.header == t.header && r.defs == t.defs && r.textureFiles == t.textureFiles
    ensures r.textureIDs == t.textureIDs && r.submeshes == t.submeshes
    ensures r.indices == [] && r.vertices == [] && r.normals == [] && r.texcoords == [] && r.colors == []
  {
    t.(indices := [], vertices := [], normals := [], texcoords := [], colors := [])
  }

  /** The mesh after `added` were appended by addMeshBuffer(0): geoset 0, rendered. */
  ghost predicate GroupAdded(mesh: CM2Mesh, ids0: seq<nat>, render0: seq<bool>, bufs0: seq<MeshBuffer>, added: seq<MeshBuffer>)
    reads mesh`GeoSetID, mesh`GeoSetRender, mesh`Buffers
  {
    mesh.Buffers == bufs0 + added &&
    mesh.GeoSetID == ids0 + seq(|added|, _ => 0) &&
    mesh.GeoSetRender == render0 + seq(|added|, _ => true)
  }

  /** One pass of the loop over submeshes. */
  method BuildSubmesh(mesh: CM2Mesh, t: WmoTables, verts: seq<Vertex>, available: set<string>, p: Plan, bound: nat,
                      ghost ids0: seq<nat>, ghost render0: seq<bool>, ghost bufs0: seq<MeshBuffer>)
    returns (r: Outcome<Plan>)
    requires mesh.Valid() && GroupAdded(mesh, ids0, render0, bufs0, MeshBuffersOf(t, verts, p.buffers))
    modifies mesh`GeoSetID, mesh`GeoSetRender, mesh`Buffers
    ensures r == SubmeshStep(t, available, p, bound)
    ensures r.Done? ==> mesh.Valid() && GroupAdded(mesh, ids0, render0, bufs0, MeshBuffersOf(t, verts, r.value.buffers))
  {
    if p.last >= |t.textureIDs| {
      return Undefined;
    }
    if t.textureIDs[p.last] == 255 {
      return Done(Plan(bound, p.buffers));
    }
    var index := mesh.AddMeshBuffer(0);
    var tr := EmitTriangles(t, p.last, bound);
    if tr.Undefined? {
      return Undefined;
    }
    var (js, indices) := tr.value;
    var id := t.textureIDs[p.last];
    if id >= |t.textureFiles| {
      return Undefined;
    }
    var name := t.textureFiles[id];
    if |name| + 1 > GroupTextureNameBuffer {
      return Undefined;
    }
    var b;
    if name !in available {
      b := GroupBuffer(js, None);
      mesh.SetBuffer(index, MeshBuffer(indices, verts, DefaultMaterial, Never));
      r := Done(Plan(p.last, p.buffers + [b]));
    } else {
      if id >= |t.defs| {
        return Undefined;
      }
      var mat := DefaultMaterial.(TextureLayers := [(0, name)]);
      if t.defs[id].blendMode == 1 {
        mat := mat.(Type := TransparentAlphaChannel);
      }
      b := GroupBuffer(js, Some((name, t.defs[id].blendMode)));
      mesh.SetBuffer(index, MeshBuffer(indices, verts, mat, Static));
      r := Done(Plan(bound, p.buffers + [b]));
    }
    assert MeshBuffersOf(t, verts, p.buffers + [b]) == MeshBuffersOf(t, verts, p.buffers) + [MeshBufferOf(t, verts, b)];
  }

  /** The loop over submeshes, with lastindex. */
  method BuildSubmeshes(mesh: CM2Mesh, t: WmoTables, verts: seq<Vertex>, available: set<string>) returns (r: Outcome<Plan>)
    requires mesh.Valid()
    modifies mesh`GeoSetID, mesh`GeoSetRender, mesh`Buffers
    ensures r == PlanUpTo(t, available, |t.submeshes|)
    ensures r.Done? ==> mesh.Valid()
    ensures r.Done? ==> GroupAdded(mesh, old(mesh.GeoSetID), old(mesh.GeoSetRender), old(mesh.Buffers), MeshBuffersOf(t, verts, r.value.buffers))
  {
    ghost var ids0, render0, bufs0 := mesh.GeoSetID, mesh.GeoSetRender, mesh.Buffers;
    var p := Plan(0, []);
    var i: nat := 0;
    while i < |t.submeshes|
      invariant i <= |t.submeshes| && PlanUpTo(t, available, i) == Done(p)
      invariant mesh.Valid() && GroupAdded(mesh, ids0, render0, bufs0, MeshBuffersOf(t, verts, p.buffers))
    {
      var s := BuildSubmesh(mesh, t, verts, available, p, t.submeshes[i], ids0, render0, bufs0);
      if s.Undefined? {
        PlanStaysUndefined(t, available, i + 1);
        return Undefined;
      }
      p := s.value;
      i := i + 1;
    }
    return Done(p);
  }

  /** The group's part of load: the vertices, then the buffers. */
  method AssembleGroup(mesh: CM2Mesh, t: WmoTables, available: set<string>) returns (ok: bool)
    requires mesh.Valid()
    modifies mesh`GeoSetID, mesh`GeoSetRender, mesh`Buffers
    ensures ok == GroupOf(t, available).Done?
    ensures ok ==> mesh.Valid()
    ensures ok ==> GroupAdded(mesh, old(mesh.GeoSetID), old(mesh.GeoSetRender), old(mesh.Buffers), GroupOf(t, available).value)
  {
    var verts := BuildVertices(t);
    if verts.Undefined? {
      return false;
    }
    var p := BuildSubmeshes(mesh, t, verts.value, available);
    ok := p.Done?;
  }
}
