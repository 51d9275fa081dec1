/**
  CM2MeshFileLoader::load as a whole: the loader's reads, then the assembly
  of the CM2Mesh from its tables, then the clean-up of the tables.
*/
module M2Load {
  import opened Wrappers
  import opened M2Tables
  import opened M2Mesh
  import opened M2Build
  import opened M2Loader
  import opened M2Assembly

  /**
    How a load whose reads all succeed, from the loader's members s, ends:
    never false; defined exactly when the assembly is, and then with the
    mesh assembled from the tables read and the loader's tables cleaned up
    (after is the loader's state at the end).
  */
  ghost predicate Loaded(r: Outcome<bool>, mesh: CM2Mesh, before: MeshLists, basename: string, s: LoaderState, after: LoaderState, available: set<string>)
    reads mesh
    requires s.Sized()
  {
    var t := TablesOf(basename, s);
    r != Done(false) &&
    (r.Done? <==> AssemblyDefined(mesh, before, s.skins, t, s.bones, available, HintOf(s))) &&
    (r.Done? ==> after == CleanedUp(s) && Assembled(mesh, before, s.skins, t, s.animations.anims, s.bones, available, HintOf(s)))
  }

  /**
    A load whose reads succeed but one of whose skins has at most one
    submesh on the sky side (want = true) or on the scene side (want =
    false) is undefined: the unsigned bounds of the bucket sorting and
    copying run past the bucket.
  */
  lemma FewInBucketLoadUndefined(r: Outcome<bool>, mesh: CM2Mesh, before: MeshLists, basename: string, s: LoaderState, after: LoaderState,
                                 available: set<string>, S: nat, want: bool)
    requires s.Sized() && Loaded(r, mesh, before, basename, s, after, available)
    requires S < |s.skins|
    requires forall i, j | 0 <= i < j < |s.skins[S].Submeshes| ::
      !((s.skins[S].Submeshes[i].Radius >= SkyRadius) == want && (s.skins[S].Submeshes[j].Radius >= SkyRadius) == want)
    ensures r == Undefined
  {
    FewInBucketUndefined(s.skins[S], TablesOf(basename, s), want);
  }

  /**
    load: the reads, then the assembly into AnimatedMesh, then the
    clean-up. An unknown version or a missing .skin file returns false
    after the reads and leaves the mesh alone; an assembly that reads
    outside a table or never ends is undefined; otherwise load returns
    true with the mesh assembled from the tables read and the tables
    cleaned up.
  */
  method Load(loader: M2Loader, AnimatedMesh: CM2Mesh, uninit: nat -> Uninit, available: set<string>) returns (r: Outcome<bool>)
    requires loader.Valid() && AnimatedMesh.Valid() && AnimatedMesh.Skins == []
    modifies loader, AnimatedMesh
    ensures var spec := old(ReadsOf(loader.State(), loader.MeshName, loader.Archive, uninit));
      spec.0 != Done(true) ==> r == spec.0 && (r.Done? ==> loader.State() == spec.1 && unchanged(AnimatedMesh))
    ensures var spec := old(ReadsOf(loader.State(), loader.MeshName, loader.Archive, uninit));
      spec.0 == Done(true) ==> Loaded(r, AnimatedMesh, old(ListsOf(AnimatedMesh)), loader.BaseName, spec.1, loader.State(), available)
  {
    ghost var before := ListsOf(AnimatedMesh);
    r := loader.ReadModel(uninit);
    if r != Done(true) {
      return;
    }
    var s := loader.State();
    assert ListsOf(AnimatedMesh) == before;
    var ok := Assemble(AnimatedMesh, s.skins, TablesOf(loader.BaseName, s), s.animations.anims, s.bones, available, HintOf(s));
    if !ok {
      return Undefined;
    }
    loader.CleanUp();
  }
}
