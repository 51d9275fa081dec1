/**
  SceneLoading: the loading screen. Its constructor gathers the doodad
  models of the 3x3 map tiles round the player into a sorted list without
  repeats; each update after the first reads one model and its first .skin
  view, works out how far along the list is, and hands over to the world
  scene once the list is empty.
*/
module SceneLoading {
  import opened Wrappers
  import opened Decimal
  import M2Views

  // ---------------------------------------------------------------------
  // std::string's operator<

  /** Lexicographic order, character by character; a proper prefix comes first. */
  predicate Less(a: string, b: string)
    decreases |a|
  {
    b != [] && (a == [] || a[0] < b[0] || (a[0] == b[0] && Less(a[1..], b[1..])))
  }

  lemma {:induction false} LessIrreflexive(a: string)
    ensures !Less(a, a)
    decreases |a|
  {
    if a != [] {
      LessIrreflexive(a[1..]);
    }
  }

  lemma {:induction false} LessTransitive(a: string, b: string, c: string)
    requires Less(a, b) && Less(b, c)
    ensures Less(a, c)
    decreases |a|
  {
    if a != [] && a[0] == b[0] && b[0] == c[0] {
      LessTransitive(a[1..], b[1..], c[1..]);
    }
  }

  /** Of two different strings one comes first. */
  lemma {:induction false} LessTotal(a: string, b: string)
    requires a != b
    ensures Less(a, b) || Less(b, a)
    decreases |a|
  {
    if a != [] && b != [] && a[0] == b[0] {
      assert a == [a[0]] + a[1..] && b == [b[0]] + b[1..];
      LessTotal(a[1..], b[1..]);
    }
  }

  lemma LessAsymmetric(a: string, b: string)
    requires Less(a, b)
    ensures !Less(b, a)
  {
    if Less(b, a) {
      LessTransitive(a, b, a);
      LessIrreflexive(a);
    }
  }

  /** a < b and b <= c give a < c. */
  lemma LessThenNotLess(a: string, b: string, c: string)
    requires Less(a, b) && !Less(c, b)
    ensures Less(a, c)
  {
    if b != c {
      LessTotal(b, c);
      LessTransitive(a, b, c);
    }
  }

  /** a <= b and b <= c give a <= c. */
  lemma NotLessTransitive(a: string, b: string, c: string)
    requires !Less(b, a) && !Less(c, b)
    ensures !Less(c, a)
  {
    if Less(c, a) {
      if a != b {
        LessTotal(a, b);
        LessTransitive(c, a, b);
      }
    }
  }

  /** In order, equal neighbours allowed. */
  ghost predicate Sorted(s: seq<string>)
  {
    forall i, j | 0 <= i < j < |s| :: !Less(s[j], s[i])
  }

  /** In order with no repeats. */
  ghost predicate Strict(s: seq<string>)
  {
    forall i, j | 0 <= i < j < |s| :: Less(s[i], s[j])
  }

  // ---------------------------------------------------------------------
  // std::list::sort and std::list::unique

  /** A head no later than anything in a sorted tail keeps the whole sorted. */
  lemma SortedCons(h: string, t: seq<string>)
    requires Sorted(t)
    requires forall j | 0 <= j < |t| :: !Less(t[j], h)
    ensures Sorted([h] + t)
  {
    var s := [h] + t;
    forall i, j | 0 <= i < j < |s|
      ensures !Less(s[j], s[i])
    {
      assert s[j] == t[j - 1];
      if i > 0 {
        assert s[i] == t[i - 1];
      }
    }
  }

  /** Inserting after a head that comes before `x` keeps the head first. */
  lemma InsertBehind(s: seq<string>, x: string, rest: seq<string>)
    requires Sorted(s) && s != [] && Less(s[0], x)
    requires Sorted(rest) && multiset(rest) == multiset(s[1..]) + multiset{x}
    ensures Sorted([s[0]] + rest)
  {
    forall j | 0 <= j < |rest|
      ensures !Less(rest[j], s[0])
    {
      assert rest[j] in multiset(rest);
      if rest[j] == x {
        LessAsymmetric(s[0], x);
      } else {
        assert rest[j] in multiset(s[1..]);
        var k :| 0 <= k < |s[1..]| && s[1..][k] == rest[j];
        assert s[k + 1] == rest[j];
      }
    }
    SortedCons(s[0], rest);
  }

  /** `x` no later than a sorted list's head goes in front of it. */
  lemma InsertInFront(s: seq<string>, x: string)
    requires Sorted(s) && s != [] && !Less(s[0], x)
    ensures Sorted([x] + s)
  {
    forall j | 0 <= j < |s|
      ensures !Less(s[j], x)
    {
      if j > 0 {
        NotLessTransitive(x, s[0], s[j]);
      }
    }
    SortedCons(x, s);
  }

  /** A sorted list's tail is sorted. */
  lemma SortedTail(s: seq<string>)
    requires Sorted(s) && s != []
    ensures Sorted(s[1..])
  {
    forall i, j | 0 <= i < j < |s[1..]|
      ensures !Less(s[1..][j], s[1..][i])
    {
      assert s[1..][j] == s[j + 1] && s[1..][i] == s[i + 1];
    }
  }

  /** `x` placed before the first element it does not come after. */
  function Insert(s: seq<string>, x: string): (r: seq<string>)
    ensures multiset(r) == multiset(s) + multiset{x}
    ensures Sorted(s) ==> Sorted(r)
  {
    if s == [] then [x]
    else if Less(s[0], x) then
      assert s == [s[0]] + s[1..];
      var rest := Insert(s[1..], x);
      assert Sorted(s) ==> Sorted([s[0]] + rest) by {
        if Sorted(s) {
          SortedTail(s);
          InsertBehind(s, x, rest);
        }
      }
      [s[0]] + rest
    else
      assert Sorted(s) ==> Sorted([x] + s) by {
        if Sorted(s) {
          InsertInFront(s, x);
        }
      }
      [x] + s
  }

  /** std::list::sort: the same strings, in order. */
  function Sort(xs: seq<string>): (r: seq<string>)
    ensures multiset(r) == multiset(xs)
    ensures Sorted(r)
  {
    if xs == [] then []
    else
      assert xs == [xs[0]] + xs[1..];
      Insert(Sort(xs[1..]), xs[0])
  }

  /** std::list::unique: each run of equal neighbours kept once. */
  function Unique(xs: seq<string>): (r: seq<string>)
    ensures forall y :: y in r <==> y in xs
    ensures xs != [] ==> r != [] && r[0] == xs[0]
    ensures Sorted(xs) ==> Strict(r)
  {
    if |xs| <= 1 then xs
    else
      var rest := Unique(xs[1..]);
      if xs[0] == xs[1] then
        rest
      else
        assert Sorted(xs) ==> Strict([xs[0]] + rest) by {
          if Sorted(xs) {
            LessTotal(xs[0], xs[1]);
            SortedTail(xs);
            forall j | 0 <= j < |rest|
              ensures Less(xs[0], rest[j])
            {
              assert rest[j] in rest;
              assert rest[j] in xs[1..];
              var k :| 0 <= k < |xs[1..]| && xs[1..][k] == rest[j];
              if k > 0 {
                assert !Less(xs[k + 1], xs[1]);
              } else {
                LessIrreflexive(xs[1]);
              }
              LessThenNotLess(xs[0], xs[1], rest[j]);
            }
          }
        }
        [xs[0]] + rest
  }

  /** The constructor's sort then unique: the same names, strictly in order. */
  lemma SortUnique(xs: seq<string>)
    ensures Strict(Unique(Sort(xs)))
    ensures forall y :: y in Unique(Sort(xs)) <==> y in xs
  {
    var s := Sort(xs);
    forall y
      ensures y in s <==> y in xs
    {
      assert y in s <==> y in multiset(s);
      assert y in xs <==> y in multiset(xs);
    }
  }

  // ---------------------------------------------------------------------
  // Gathering the doodads (cpp:45-65)

  /** The offset (tilex - 1, tiley - 1) of near tile number k = tiley * 3 + tilex. */
  function TileOffset(k: nat): (int, int)
    requires k < 9
  {
    if k < 3 then (k - 1, -1) else if k < 6 then (k - 4, 0) else (k - 7, 1)
  }

  /**
    The doodad paths of the near tile number k, which the map manager looks
    up at its offset; no tile there gives no doodads.
  */
  function TileDoodads(near: (int, int) -> Option<seq<string>>, k: nat): seq<string>
    requires k < 9
  {
    match near(TileOffset(k).0, TileOffset(k).1)
    case None => []
    case Some(ds) => ds
  }

  /** The doodads of the first k near tiles, in the order the loops visit them. */
  function GatheredUpTo(near: (int, int) -> Option<seq<string>>, k: nat): seq<string>
    requires k <= 9
  {
    if k == 0 then [] else GatheredUpTo(near, k - 1) + TileDoodads(near, k - 1)
  }

  function Gathered(near: (int, int) -> Option<seq<string>>): seq<string>
  {
    GatheredUpTo(near, 9)
  }

  /** A path is gathered exactly when one of the tiles visited so far holds it. */
  lemma {:induction false} GatheredFrom(near: (int, int) -> Option<seq<string>>, k: nat, d: string)
    requires k <= 9
    ensures d in GatheredUpTo(near, k) <==> exists j | 0 <= j < k :: d in TileDoodads(near, j)
  {
    if k > 0 {
      GatheredFrom(near, k - 1, d);
      if d in TileDoodads(near, k - 1) {
        assert d in GatheredUpTo(near, k);
      }
    }
  }

  /** Every doodad of every near tile is gathered, and nothing else. */
  lemma GatheredIsNear(near: (int, int) -> Option<seq<string>>, d: string)
    ensures d in Gathered(near) <==>
      exists dx, dy | -1 <= dx <= 1 && -1 <= dy <= 1 :: near(dx, dy).Some? && d in near(dx, dy).value
  {
    GatheredFrom(near, 9, d);
    if d in Gathered(near) {
      var j :| 0 <= j < 9 && d in TileDoodads(near, j);
      assert near(TileOffset(j).0, TileOffset(j).1).Some?;
    } else {
      forall dx, dy | -1 <= dx <= 1 && -1 <= dy <= 1 && near(dx, dy).Some?
        ensures d !in near(dx, dy).value
      {
        var j := (dy + 1) * 3 + (dx + 1);
        assert TileOffset(j) == (dx, dy);
        assert TileDoodads(near, j) == near(dx, dy).value;
      }
    }
  }

  /** Tile number 3 * tiley + tilex sits at offset (tilex - 1, tiley - 1), the tile the source asks the map manager for. */
  lemma TileNumber(tilex: nat, tiley: nat)
    requires tilex < 3 && tiley < 3
    ensures TileOffset(3 * tiley + tilex) == (tilex - 1, tiley - 1)
  {
  }

  /** The innermost loop: every doodad of one tile pushed onto the back of the list. */
  method PushDoodads(all: seq<string>, doodads: seq<string>) returns (r: seq<string>)
    ensures r == all + doodads
  {
    r := all;
    var i := 0;
    while i < |doodads|
      invariant 0 <= i <= |doodads|
      invariant r == all + doodads[..i]
    {
      r := r + [doodads[i]];
      i := i + 1;
    }
  }

  /**
    One pass of the middle loop: the doodads of the tile at (tilex - 1,
    tiley - 1), if there is one; k counts the tiles visited before it.
  */
  method GatherTile(near: (int, int) -> Option<seq<string>>, all: seq<string>, tilex: nat, tiley: nat, ghost k: nat) returns (r: seq<string>)
    requires tilex < 3 && tiley < 3 && k == 3 * tiley + tilex
    requires all == GatheredUpTo(near, k)
    ensures r == GatheredUpTo(near, k + 1)
  {
    TileNumber(tilex, tiley);
    var tile := near(tilex - 1, tiley - 1);
    r := all;
    if tile.Some? {
      r := PushDoodads(all, tile.value);
    }
  }

  /** The three nested loops of the constructor that fill the list. */
  method GatherDoodads(near: (int, int) -> Option<seq<string>>) returns (all: seq<string>)
    ensures all == Gathered(near)
  {
    all := [];
    var tiley: nat := 0;
    while tiley < 3
      invariant tiley <= 3 && all == GatheredUpTo(near, 3 * tiley)
    {
      all := GatherRow(near, all, tiley, 3 * tiley);
      tiley := tiley + 1;
    }
  }

  /** One pass of the outer loop: the three tiles of row tiley, left to right; k counts the tiles before the row. */
  method GatherRow(near: (int, int) -> Option<seq<string>>, all: seq<string>, tiley: nat, ghost k: nat) returns (r: seq<string>)
    requires tiley < 3 && k == 3 * tiley && all == GatheredUpTo(near, k)
    ensures r == GatheredUpTo(near, k + 3)
  {
    r := all;
    var tilex: nat := 0;
    while tilex < 3
      invariant tilex <= 3 && r == GatheredUpTo(near, k + tilex)
    {
      r := GatherTile(near, r, tilex, tiley, k + tilex);
      tilex := tilex + 1;
    }
  }

  // ---------------------------------------------------------------------
  // The skin name (cpp:85-87)

  /**
    The .skin file read after a model: the path with "xxxx" appended and
    its last seven characters replaced by "00.skin". A path shorter than
    three characters puts the start of the replaced range before the
    beginning of the string, which is undefined. NormalizeFilename (cpp:86)
    takes its argument by value and its result is dropped, so it leaves the
    name as it is.
  */
  function LoadingSkin(m2model: string): Option<string>
  {
    var padded := m2model + "xxxx";
    if |padded| < 7 then None else Some(padded[..|padded| - 7] + "00.skin")
  }

  /** The skin read while loading is the first view's .skin the model loader asks for. */
  lemma LoadingSkinIsView0(m2model: string)
    ensures LoadingSkin(m2model).Some? <==> |m2model| >= 3
    ensures |m2model| >= 3 ==> LoadingSkin(m2model) == Some(M2Views.SkinName(m2model, 0))
  {
    if |m2model| >= 3 {
      var padded := m2model + "xxxx";
      assert padded[..|padded| - 7] == m2model[..|m2model| - 3];
      assert NatToString(0) == "0";
      assert M2Views.SkinName(m2model, 0) == m2model[..|m2model| - 3] + "00.skin";
    }
  }

  /** "X.m2" is followed by "X00.skin". */
  lemma LoadingSkinOfM2(stem: string)
    ensures LoadingSkin(stem + ".m2") == Some(stem + "00.skin")
  {
    var padded := stem + ".m2" + "xxxx";
    assert padded[..|padded| - 7] == stem;
  }

  // ---------------------------------------------------------------------
  // Progress (cpp:93-96)

  /** loaded * 100 / doodadtotal, for loaded at most doodadtotal, is a percentage. */
  lemma PercentBound(loaded: nat, total: nat)
    requires 0 < loaded <= total
    ensures loaded * 100 / total <= 100
  {
    var q := loaded * 100 / total;
    assert q * total <= loaded * 100;
  }

  /** The files the loading screen has read, and whether it has handed over. */
  class SceneLoad {
    /** The model paths still to read, in order; updates take them from the end. */
    var AllDoodads: seq<string>
    var DoodadTotal: nat
    var Loaded: nat
    var Percent: nat
    /** Set by the first update: models are read from the second on. */
    var LoadingTime: bool
    /** The files read through the data holder so far, in order. */
    var Requested: seq<string>
    /** SetSceneState(SCENESTATE_WORLD) has been called. */
    var World: bool

    ghost predicate Valid()
      reads this
    {
      Strict(AllDoodads) && |AllDoodads| <= DoodadTotal &&
      Loaded <= DoodadTotal && Percent <= 100
    }

    /**
      The constructor. `previous` is the list as it stands when the scene is
      built; only an empty list is filled from the near tiles.
    */
    constructor (previous: seq<string>, near: (int, int) -> Option<seq<string>>)
      ensures Valid()
      ensures Strict(AllDoodads) && DoodadTotal == |AllDoodads|
      ensures forall d :: d in AllDoodads <==> d in (if previous == [] then Gathered(near) else previous)
      ensures !LoadingTime && Loaded == 0 && Percent == 0
      ensures Requested == [] && !World
    {
      var all := previous;
      if all == [] {
        all := GatherDoodads(near);
      }
      SortUnique(all);
      var unique := Unique(Sort(all));
      AllDoodads := unique;
      DoodadTotal := |unique|;
      Loaded := 0;
      Percent := 0;
      LoadingTime := false;
      Requested := [];
      World := false;
    }

    /**
      OnUpdate. From the second call on, while models remain, the last one
      is taken off the list and read, then its skin; `defined` is false when
      that skin name is undefined.
    */
    method OnUpdate(timediff: int) returns (defined: bool)
      requires Valid()
      modifies this`AllDoodads, this`LoadingTime, this`Loaded, this`Percent, this`Requested, this`World
      ensures Valid()
      ensures LoadingTime && DoodadTotal == old(DoodadTotal)
      ensures !old(LoadingTime) || old(AllDoodads) == [] ==>
        AllDoodads == old(AllDoodads) && Requested == old(Requested) && defined
      ensures old(LoadingTime) && old(AllDoodads) != [] ==>
        var m := old(AllDoodads)[|old(AllDoodads)| - 1];
        AllDoodads == old(AllDoodads)[..|old(AllDoodads)| - 1] &&
        defined == LoadingSkin(m).Some? &&
        Requested == old(Requested) + [CPath(m)] +
          (if defined then [CPath(LoadingSkin(m).value)] else [])
      ensures Loaded == DoodadTotal - |AllDoodads|
      ensures Percent == if Loaded != 0 then Loaded * 100 / DoodadTotal else old(Percent)
      ensures World <==> old(World) || AllDoodads == []
    {
      defined := true;
      if LoadingTime && AllDoodads != [] {
        var m2model := AllDoodads[|AllDoodads| - 1];
        AllDoodads := AllDoodads[..|AllDoodads| - 1];
        Requested := Requested + [CPath(m2model)];
        var skin := LoadingSkin(m2model);
        if skin.Some? {
          Requested := Requested + [CPath(skin.value)];
        } else {
          defined := false;
        }
      }
      LoadingTime := true;
      Loaded := DoodadTotal - |AllDoodads|;
      if Loaded != 0 {
        PercentBound(Loaded, DoodadTotal);
        Percent := Loaded * 100 / DoodadTotal;
      }
      if AllDoodads == [] {
        World := true;
      }
    }
  }
}
