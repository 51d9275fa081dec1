/**
  The in-place ordering helpers of the M2 loader: the exchange sorts over
  submesh and buffer-map arrays and the decal distance fix-up. Each works by
  swapping elements of the array (or, for the decal fix, overwriting one
  Distance), so each is a method over an array, proved against an ordering
  predicate and a permutation.
*/
module M2Ordering {
  import opened Wrappers
  import opened Bytes
  import opened M2Mesh

  /** Exchanges two elements, as the loader does through a temporary. */
  method Swap<T>(a: array<T>, i: nat, j: nat)
    requires i < a.Length && j < a.Length
    modifies a
    ensures a[..] == old(a[..])[i := old(a[j])][j := old(a[i])]
    ensures multiset(a[..]) == multiset(old(a[..]))
  {
    a[i], a[j] := a[j], a[i];
  }

  // ---------------------------------------------------------------------
  // sortDistance
  // ---------------------------------------------------------------------

  /** The first n entries are ordered farthest first. */
  predicate DistanceDescending(s: seq<Submesh>, n: nat)
    requires n <= |s|
  {
    forall p, q | 0 <= p < q < n :: s[p].Distance >= s[q].Distance
  }

  /**
    One run of sortDistance's inner loop: exchanges bring the largest
    Distance of [i, end) to position i; entries outside that range stay.
  */
  method DistancePass(a: array<Submesh>, i: nat, end: nat)
    requires i < end <= a.Length
    requires PrefixFarther(a[..], i, end)
    modifies a
    ensures multiset(a[..]) == multiset(old(a[..]))
    ensures a[..i] == old(a[..i]) && a[end..] == old(a[end..])
    ensures PrefixFarther(a[..], i, end)
    ensures forall q | i < q < end :: a[i].Distance >= a[q].Distance
  {
    var j := i + 1;
    while j < end
      invariant i + 1 <= j <= end
      invariant multiset(a[..]) == multiset(old(a[..]))
      invariant a[..i] == old(a[..i]) && a[end..] == old(a[end..])
      invariant PrefixFarther(a[..], i, end)
      invariant forall q | i < q < j :: a[i].Distance >= a[q].Distance
    {
      if a[i].Distance < a[j].Distance {
        DistanceSwapStep(a[..], a[..][i := a[j]][j := a[i]], i, j, end);
        Swap(a, i, j);
      }
      j := j + 1;
    }
  }

  /** No entry before i is nearer than an entry of [i, end). */
  predicate PrefixFarther(s: seq<Submesh>, i: nat, end: nat)
    requires i <= end <= |s|
  {
    forall p, q | 0 <= p < i <= q < end :: s[p].Distance >= s[q].Distance
  }

  /** The exchange sortDistance makes keeps its invariants. */
  lemma DistanceSwapStep(s: seq<Submesh>, t: seq<Submesh>, i: nat, j: nat, end: nat)
    requires i < j < end <= |s| && t == s[i := s[j]][j := s[i]]
    requires s[i].Distance < s[j].Distance
    requires PrefixFarther(s, i, end)
    requires forall q | i < q < j :: s[i].Distance >= s[q].Distance
    ensures PrefixFarther(t, i, end)
    ensures forall q | i < q <= j :: t[i].Distance >= t[q].Distance
  {
  }

  /**
    sortDistance: an exchange sort of the entries [0, size-2] by decreasing
    Distance; the last entry takes no part. The size must be at least 2 (the
    bound size-2 is unsigned) and at most 65536 (the inner index is a u16 that
    must reach size-1).
  */
  method SortDistance(a: array<Submesh>)
    requires 2 <= a.Length <= 0x1_0000
    modifies a
    ensures multiset(a[..]) == multiset(old(a[..]))
    ensures a[a.Length - 1] == old(a[a.Length - 1])
    ensures DistanceDescending(a[..], a.Length - 1)
  {
    var n := a.Length;
    var i := 0;
    while i < n - 2
      invariant 0 <= i <= n - 2
      invariant multiset(a[..]) == multiset(old(a[..]))
      invariant a[n - 1] == old(a[n - 1])
      invariant DistanceDescending(a[..], i)
      invariant PrefixFarther(a[..], i, n - 1)
    {
      DistancePass(a, i, n - 1);
      i := i + 1;
    }
  }

  // ---------------------------------------------------------------------
  // FixDecalDistance
  // ---------------------------------------------------------------------

  /** A decal is a submesh whose first texture has shader type 2. */
  predicate IsDecal(s: Submesh)
  {
    |s.Textures| > 0 && s.Textures[0].shaderType == 2
  }

  /**
    The loader's footprint test: the decal's W range lies inside the host's
    and its Hmax is not above the host's. The fourth comparison is made
    between the decal's Hmin and itself, so the host's Hmin plays no part.
  */
  predicate Encloses(decal: Bounds, host: Bounds)
  {
    decal.Wmax <= host.Wmax && decal.Wmin >= host.Wmin && decal.Hmax <= host.Hmax && decal.Hmin >= decal.Hmin
  }

  /** The outcome of the backwards search for a decal's host. */
  datatype Search = Found(k: nat) | NotFound | OutOfRange

  /**
    The first index the search visits: i-1 stored in an s16, so for i = 0 it
    is -1 and past 32768 it wraps.
  */
  function StartIndex(i: nat): (r: int)
    ensures r <= i - 1
    ensures i <= 0x8000 ==> r == i - 1
  {
    Signed16(WrapU16(i - 1))
  }

  /**
    The search from index k down to 0 for the first entry whose bounds
    enclose those of entry i; OutOfRange when a LoaderIndex it reads lies
    outside the bounds table.
  */
  function SearchHost(s: seq<Submesh>, dims: seq<Bounds>, i: nat, k: int): Search
    requires i < |s| && k < |s|
    decreases k + 1
  {
    if k < 0 then NotFound
    else if s[i].LoaderIndex >= |dims| || s[k].LoaderIndex >= |dims| then OutOfRange
    else if Encloses(dims[s[i].LoaderIndex], dims[s[k].LoaderIndex]) then Found(k)
    else SearchHost(s, dims, i, k - 1)
  }

  /**
    What the search finds is the nearest entry at or below k that encloses
    entry i; when it finds nothing, no such entry exists.
  */
  lemma {:induction false} SearchHostNearest(s: seq<Submesh>, dims: seq<Bounds>, i: nat, k: int)
    requires i < |s| && k < |s|
    ensures SearchHost(s, dims, i, k).Found? ==>
      var h := SearchHost(s, dims, i, k).k;
      h <= k && s[i].LoaderIndex < |dims| && s[h].LoaderIndex < |dims| &&
      Encloses(dims[s[i].LoaderIndex], dims[s[h].LoaderIndex]) &&
      forall m | h < m <= k :: s[m].LoaderIndex < |dims| && !Encloses(dims[s[i].LoaderIndex], dims[s[m].LoaderIndex])
    ensures SearchHost(s, dims, i, k).NotFound? ==>
      forall m | 0 <= m <= k :: s[i].LoaderIndex < |dims| && s[m].LoaderIndex < |dims| && !Encloses(dims[s[i].LoaderIndex], dims[s[m].LoaderIndex])
    decreases k + 1
  {
    if k >= 0 && s[i].LoaderIndex < |dims| && s[k].LoaderIndex < |dims| && !Encloses(dims[s[i].LoaderIndex], dims[s[k].LoaderIndex]) {
      SearchHostNearest(s, dims, i, k - 1);
    }
  }

  /** The host of entry i as the loader's loop finds it. */
  function HostOf(s: seq<Submesh>, dims: seq<Bounds>, i: nat): Search
    requires i < |s|
  {
    SearchHost(s, dims, i, StartIndex(i))
  }

  /**
    The loader reads Textures[0] of every entry but the last, and searches
    only for decals; every LoaderIndex the searches read must be in range.
  */
  predicate DecalInputOK(s: seq<Submesh>, dims: seq<Bounds>)
  {
    |s| >= 1 &&
    forall i | 0 <= i < |s| - 1 ::
      |s[i].Textures| > 0 && (IsDecal(s[i]) ==> !HostOf(s, dims, i).OutOfRange?)
  }

  /**
    The Distance entry i ends with: a decal before the last position that
    finds a host takes the host's final Distance minus 0.0005; every other
    entry keeps its own.
  */
  function FixedDistance(s: seq<Submesh>, dims: seq<Bounds>, i: nat): real
    requires i < |s|
    decreases i
  {
    if i < |s| - 1 && IsDecal(s[i]) && HostOf(s, dims, i).Found? then
      var h := HostOf(s, dims, i).k;
      assert h < i by { SearchHostNearest(s, dims, i, StartIndex(i)); }
      FixedDistance(s, dims, h) - 0.0005
    else
      s[i].Distance
  }

  /** The whole array after the fix-up: the same entries in the same order, with their fixed distances. */
  function FixDecals(s: seq<Submesh>, dims: seq<Bounds>): (r: seq<Submesh>)
    ensures |r| == |s|
    ensures forall i | 0 <= i < |s| :: r[i] == s[i].(Distance := FixedDistance(s, dims, i))
  {
    seq(|s|, i requires 0 <= i < |s| => s[i].(Distance := FixedDistance(s, dims, i)))
  }

  /** The entries after position i are untouched while the loop is at i. */
  function PartlyFixed(s: seq<Submesh>, dims: seq<Bounds>, i: nat): (r: seq<Submesh>)
    requires i <= |s|
    ensures |r| == |s|
  {
    seq(|s|, k requires 0 <= k < |s| => if k < i then s[k].(Distance := FixedDistance(s, dims, k)) else s[k])
  }

  /** Entry i of a decal that found its host at h takes the host's fixed Distance minus 0.0005. */
  lemma HostStep(s: seq<Submesh>, dims: seq<Bounds>, i: nat, h: nat)
    requires i < |s| - 1 && h < i && IsDecal(s[i]) && HostOf(s, dims, i) == Found(h)
    ensures PartlyFixed(s, dims, i)[i := s[i].(Distance := FixedDistance(s, dims, h) - 0.0005)] == PartlyFixed(s, dims, i + 1)
  {
  }

  /** An entry that is no decal, or finds no host, keeps its Distance. */
  lemma NoHostStep(s: seq<Submesh>, dims: seq<Bounds>, i: nat)
    requires i < |s| - 1 && (!IsDecal(s[i]) || !HostOf(s, dims, i).Found?)
    ensures PartlyFixed(s, dims, i) == PartlyFixed(s, dims, i + 1)
  {
  }

  /**
    One step of FixDecalDistance at entry i: a decal searches backwards from
    its predecessor for an enclosing entry and takes that entry's (already
    fixed) Distance minus 0.0005.
  */
  method FixOneDecal(a: array<Submesh>, dims: seq<Bounds>, i: nat, ghost s: seq<Submesh>)
    requires i < a.Length - 1 && DecalInputOK(s, dims) && |s| == a.Length
    requires a[..] == PartlyFixed(s, dims, i)
    modifies a
    ensures a[..] == PartlyFixed(s, dims, i + 1)
  {
    if a[i].Textures[0].shaderType == 2 {
      assert IsDecal(s[i]);
      var index := StartIndex(i);
      ghost var done := false;
      while index >= 0
        invariant index < a.Length
        invariant !done ==> a[..] == PartlyFixed(s, dims, i) && HostOf(s, dims, i) == SearchHost(s, dims, i, index)
        invariant done ==> a[..] == PartlyFixed(s, dims, i + 1) && index == -2
        decreases index + 2
      {
        assert a[i] == s[i] && a[index] == s[index].(Distance := FixedDistance(s, dims, index));
        if Encloses(dims[a[i].LoaderIndex], dims[a[index].LoaderIndex]) {
          HostStep(s, dims, i, index);
          a[i] := a[i].(Distance := a[index].Distance - 0.0005);
          index := -1;
          done := true;
        }
        index := index - 1;
      }
      if !done {
        NoHostStep(s, dims, i);
      }
    } else {
      NoHostStep(s, dims, i);
    }
  }

  /** FixDecalDistance: the step above for every entry but the last, in order. */
  method FixDecalDistance(a: array<Submesh>, dims: seq<Bounds>)
    requires DecalInputOK(a[..], dims)
    modifies a
    ensures a[..] == FixDecals(old(a[..]), dims)
  {
    ghost var s := a[..];
    var i := 0;
    while i < a.Length - 1
      invariant 0 <= i <= a.Length - 1
      invariant a[..] == PartlyFixed(s, dims, i)
    {
      FixOneDecal(a, dims, i, s);
      i := i + 1;
    }
    assert a[..] == FixDecals(s, dims);
  }

  /**
    Only the Distance of a decal at a position strictly between the first and
    the last can change; every other field and every other entry is kept.
  */
  lemma FixDecalsChangesOnlyDecalDistances(s: seq<Submesh>, dims: seq<Bounds>, i: nat)
    requires i < |s|
    ensures FixDecals(s, dims)[i].(Distance := s[i].Distance) == s[i]
    ensures (i == 0 || i == |s| - 1 || !IsDecal(s[i])) ==> FixDecals(s, dims)[i] == s[i]
  {
    if i == 0 {
      assert StartIndex(0) == -1;
    }
  }

  /**
    A decal before the last position with a host ends 0.0005 nearer than the
    host's final Distance, and the host is the nearest preceding entry that
    encloses it.
  */
  lemma FixDecalsUsesNearestHost(s: seq<Submesh>, dims: seq<Bounds>, i: nat)
    requires 1 <= i < |s| - 1 && |s| <= 0x8001
    requires IsDecal(s[i]) && HostOf(s, dims, i).Found?
    ensures var h := HostOf(s, dims, i).k;
      h < i &&
      FixDecals(s, dims)[i].Distance == FixDecals(s, dims)[h].Distance - 0.0005 &&
      s[i].LoaderIndex < |dims| && s[h].LoaderIndex < |dims| &&
      Encloses(dims[s[i].LoaderIndex], dims[s[h].LoaderIndex]) &&
      forall m | h < m < i :: s[m].LoaderIndex < |dims| && !Encloses(dims[s[i].LoaderIndex], dims[s[m].LoaderIndex])
  {
    SearchHostNearest(s, dims, i, i - 1);
  }

  /**
    The host test ignores the host's Hmin: a host whose Hmin lies above the
    decal's still encloses it.
  */
  lemma EnclosesIgnoresHostHmin(decal: Bounds, host: Bounds)
    ensures Encloses(decal, host) <==> decal.Wmax <= host.Wmax && decal.Wmin >= host.Wmin && decal.Hmax <= host.Hmax
  {
  }

  // ---------------------------------------------------------------------
  // sortSizeBracketByMode and sortModeByBlock
  // ---------------------------------------------------------------------

  predicate HasTexture(s: seq<Submesh>)
  {
    forall k | 0 <= k < |s| :: |s[k].Textures| > 0
  }

  /** The first texture's Mode (the sorts read it only where a texture exists). */
  function ModeOf(x: Submesh): nat
  {
    if |x.Textures| > 0 then x.Textures[0].Mode else 0
  }

  function BlockOf(x: Submesh): nat
  {
    if |x.Textures| > 0 then x.Textures[0].Block else 0
  }

  predicate ModeAscending(s: seq<Submesh>)
  {
    forall p, q | 0 <= p < q < |s| :: ModeOf(s[p]) <= ModeOf(s[q])
  }

  /** No entry before i has a larger Mode than an entry of [i, end). */
  predicate PrefixModesBelow(s: seq<Submesh>, i: nat, end: nat)
    requires i <= end <= |s|
  {
    forall p, q | 0 <= p < i <= q < end :: ModeOf(s[p]) <= ModeOf(s[q])
  }

  /** The exchange sortSizeBracketByMode makes keeps its invariants. */
  lemma ModeSwapStep(s: seq<Submesh>, t: seq<Submesh>, i: nat, j: nat, end: nat)
    requires i < j < end <= |s| && t == s[i := s[j]][j := s[i]]
    requires ModeOf(s[i]) > ModeOf(s[j])
    requires PrefixModesBelow(s, i, end)
    requires forall q | i < q < j :: ModeOf(s[i]) <= ModeOf(s[q])
    ensures PrefixModesBelow(t, i, end)
    ensures forall q | i < q <= j :: ModeOf(t[i]) <= ModeOf(t[q])
  {
  }

  /** What sortSizeBracketByMode's inner loop keeps while it runs at i, having compared up to j. */
  ghost predicate ModePassInv(s0: seq<Submesh>, s: seq<Submesh>, i: nat, j: nat)
  {
    i < j <= |s| == |s0| &&
    multiset(s) == multiset(s0) && s[..i] == s0[..i] &&
    PrefixModesBelow(s, i, |s|) &&
    forall q | i < q < j :: ModeOf(s[i]) <= ModeOf(s[q])
  }

  /** One comparison of the inner loop: an exchange when entry j has the smaller Mode. */
  method ModeCompare(a: array<Submesh>, i: nat, j: nat, ghost s0: seq<Submesh>)
    requires j < a.Length && ModePassInv(s0, a[..], i, j)
    modifies a
    ensures ModePassInv(s0, a[..], i, j + 1)
  {
    if ModeOf(a[i]) > ModeOf(a[j]) {
      ModeSwapStep(a[..], a[..][i := a[j]][j := a[i]], i, j, a.Length);
      Swap(a, i, j);
    }
  }

  /** One run of sortSizeBracketByMode's inner loop: the smallest Mode from position i on comes to position i. */
  method ModePass(a: array<Submesh>, i: nat)
    requires i < a.Length
    requires PrefixModesBelow(a[..], i, a.Length)
    modifies a
    ensures ModePassInv(old(a[..]), a[..], i, a.Length)
  {
    var j := i + 1;
    while j < a.Length
      invariant j <= a.Length
      invariant ModePassInv(old(a[..]), a[..], i, j)
    {
      ModeCompare(a, i, j, old(a[..]));
      j := j + 1;
    }
  }

  /**
    sortSizeBracketByMode: an exchange sort by the first texture's Mode. The
    outer bound size-1 is unsigned, so the array is not empty; the inner u16
    index must reach size, so the size is at most 65535.
  */
  method SortSizeBracketByMode(a: array<Submesh>)
    requires 1 <= a.Length <= 0xFFFF
    requires HasTexture(a[..])
    modifies a
    ensures multiset(a[..]) == multiset(old(a[..]))
    ensures ModeAscending(a[..])
  {
    var n := a.Length;
    var i := 0;
    while i < n - 1
      invariant 0 <= i <= n - 1
      invariant multiset(a[..]) == multiset(old(a[..]))
      invariant ModeAscending(a[..i])
      invariant PrefixModesBelow(a[..], i, n)
    {
      ModePass(a, i);
      ModePrefixGrows(a[..], i, n);
      i := i + 1;
    }
    assert a[..] == a[..n];
  }

  /** After a pass at i, the ordered prefix takes in entry i. */
  lemma ModePrefixGrows(s: seq<Submesh>, i: nat, n: nat)
    requires i < n == |s|
    requires ModeAscending(s[..i]) && PrefixModesBelow(s, i, n)
    requires forall q | i < q < n :: ModeOf(s[i]) <= ModeOf(s[q])
    ensures ModeAscending(s[..i + 1]) && PrefixModesBelow(s, i + 1, n)
  {
  }

  /** The Mode at every position. */
  function Modes(s: seq<Submesh>): (r: seq<nat>)
    ensures |r| == |s|
  {
    seq(|s|, k requires 0 <= k < |s| => ModeOf(s[k]))
  }

  /** Among entries of equal Mode, Block never decreases along the array. */
  predicate BlockAscendingWithinMode(s: seq<Submesh>)
  {
    forall p, q | 0 <= p < q < |s| && ModeOf(s[p]) == ModeOf(s[q]) :: BlockOf(s[p]) <= BlockOf(s[q])
  }

  /** What sortModeByBlock's inner loop keeps while it runs at i, having compared up to j. */
  ghost predicate BlockPassInv(s0: seq<Submesh>, s: seq<Submesh>, i: nat, j: nat)
  {
    i < j <= |s| == |s0| &&
    multiset(s) == multiset(s0) && Modes(s) == Modes(s0) && s[..i] == s0[..i] &&
    PrefixBlocksBelow(s, i, |s|) &&
    forall q | i < q < j && ModeOf(s[i]) == ModeOf(s[q]) :: BlockOf(s[i]) <= BlockOf(s[q])
  }

  /** One comparison of the inner loop: an exchange when entry j has the same Mode and a smaller Block. */
  method BlockCompare(a: array<Submesh>, i: nat, j: nat, ghost s0: seq<Submesh>)
    requires j < a.Length && BlockPassInv(s0, a[..], i, j)
    modifies a
    ensures BlockPassInv(s0, a[..], i, j + 1)
  {
    if ModeOf(a[i]) == ModeOf(a[j]) && BlockOf(a[i]) > BlockOf(a[j]) {
      BlockSwapStep(a[..], a[..][i := a[j]][j := a[i]], i, j, a.Length);
      Swap(a, i, j);
    }
  }

  /**
    One run of sortModeByBlock's inner loop: among the entries from position
    i on with the Mode of entry i, the smallest Block comes to position i.
  */
  method BlockPass(a: array<Submesh>, i: nat)
    requires i < a.Length
    requires PrefixBlocksBelow(a[..], i, a.Length)
    modifies a
    ensures BlockPassInv(old(a[..]), a[..], i, a.Length)
  {
    var j := i + 1;
    while j < a.Length
      invariant j <= a.Length
      invariant BlockPassInv(old(a[..]), a[..], i, j)
    {
      BlockCompare(a, i, j, old(a[..]));
      j := j + 1;
    }
  }

  /** Within each Mode, no entry before i has a larger Block than an entry of [i, end). */
  predicate PrefixBlocksBelow(s: seq<Submesh>, i: nat, end: nat)
    requires i <= end <= |s|
  {
    forall p, q | 0 <= p < i <= q < end && ModeOf(s[p]) == ModeOf(s[q]) :: BlockOf(s[p]) <= BlockOf(s[q])
  }

  /** The exchange sortModeByBlock makes keeps its invariants. */
  lemma BlockSwapStep(s: seq<Submesh>, t: seq<Submesh>, i: nat, j: nat, end: nat)
    requires i < j < end <= |s| && t == s[i := s[j]][j := s[i]]
    requires ModeOf(s[i]) == ModeOf(s[j]) && BlockOf(s[i]) > BlockOf(s[j])
    requires PrefixBlocksBelow(s, i, end)
    requires forall q | i < q < j && ModeOf(s[i]) == ModeOf(s[q]) :: BlockOf(s[i]) <= BlockOf(s[q])
    ensures Modes(t) == Modes(s)
    ensures PrefixBlocksBelow(t, i, end)
    ensures forall q | i < q <= j && ModeOf(t[i]) == ModeOf(t[q]) :: BlockOf(t[i]) <= BlockOf(t[q])
  {
  }

  /**
    sortModeByBlock: exchanges two entries only when their Modes agree and
    the earlier one has the larger Block, so the Mode at every position is
    kept and each Mode's entries end ordered by Block.
  */
  method SortModeByBlock(a: array<Submesh>)
    requires 1 <= a.Length <= 0xFFFF
    requires HasTexture(a[..])
    modifies a
    ensures multiset(a[..]) == multiset(old(a[..]))
    ensures Modes(a[..]) == Modes(old(a[..]))
    ensures BlockAscendingWithinMode(a[..])
  {
    var n := a.Length;
    var i := 0;
    while i <= n - 1
      invariant 0 <= i <= n
      invariant multiset(a[..]) == multiset(old(a[..]))
      invariant Modes(a[..]) == Modes(old(a[..]))
      invariant BlockAscendingWithinMode(a[..i])
      invariant PrefixBlocksBelow(a[..], i, n)
    {
      BlockPass(a, i);
      BlockPrefixGrows(a[..], i, n);
      i := i + 1;
    }
    assert a[..] == a[..n];
  }

  /** After a pass at i, the prefix ordered within each Mode takes in entry i. */
  lemma BlockPrefixGrows(s: seq<Submesh>, i: nat, n: nat)
    requires i < n == |s|
    requires BlockAscendingWithinMode(s[..i]) && PrefixBlocksBelow(s, i, n)
    requires forall q | i < q < n && ModeOf(s[i]) == ModeOf(s[q]) :: BlockOf(s[i]) <= BlockOf(s[q])
    ensures BlockAscendingWithinMode(s[..i + 1]) && PrefixBlocksBelow(s, i + 1, n)
  {
  }

  // ---------------------------------------------------------------------
  // sortPointHighLow
  // ---------------------------------------------------------------------

  /** Every entry's SortPoint has been assigned (the sort reads them). */
  predicate SortPointsSet(s: seq<BufferInfo>)
  {
    forall k | 0 <= k < |s| :: s[k].SortPoint.Some?
  }

  /**
    The sort's exchange test: equal Back and Front with the earlier block
    larger, or else a smaller SortPoint in front of a larger one.
  */
  predicate ExchangeBefore(x: BufferInfo, y: BufferInfo)
    requires x.SortPoint.Some? && y.SortPoint.Some?
  {
    (x.Back == y.Back && x.Front == y.Front && x.block > y.block) || x.SortPoint.value < y.SortPoint.value
  }

  /**
    sortPointHighLow: an exchange sort of the buffer map by the test above;
    the outer bound size-1 is unsigned, so the list is not empty.
  */
  method SortPointHighLow(a: array<BufferInfo>)
    requires 1 <= a.Length
    requires SortPointsSet(a[..])
    modifies a
    ensures multiset(a[..]) == multiset(old(a[..]))
    ensures SortPointsSet(a[..])
  {
    var n := a.Length;
    var i := 0;
    while i < n - 1
      invariant 0 <= i <= n - 1
      invariant multiset(a[..]) == multiset(old(a[..]))
      invariant SortPointsSet(a[..])
    {
      var j := i + 1;
      while j < n
        invariant i + 1 <= j <= n
        invariant multiset(a[..]) == multiset(old(a[..]))
        invariant SortPointsSet(a[..])
      {
        if a[i].Back == a[j].Back && a[i].Front == a[j].Front && a[i].block > a[j].block {
          Swap(a, i, j);
        } else if a[i].SortPoint.value < a[j].SortPoint.value {
          Swap(a, i, j);
        }
        j := j + 1;
      }
      i := i + 1;
    }
  }
}
