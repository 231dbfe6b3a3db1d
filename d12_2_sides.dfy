/** Day 12, part 2 (12-2/main.go): a region is priced at its area times its
    number of straight sides. Walk flood-fills a region as part 1's GetCost
    does and records each unit of fence under a key: a horizontal unit in
    HFences under the plot just below it, a vertical unit in VFences under
    the plot just right of it. NumSides sorts the keys and counts the units
    that begin a side.

    Part 2's board has the fields and the bounds test of part 1's, and the
    model reuses GardenRegions.Board; Walk, a method of the board in the
    source, takes the board as its first parameter. */
module GardenSides {
  import opened Vectors
  import opened GardenRegions

  // ---------------------------------------------------------------------
  // Orders on keys

  /** Row by row, left to right within a row. */
  function VectorCmpLRTB(v1: Vector, v2: Vector): (r: int)
    ensures -1 <= r <= 1
    ensures r == 0 <==> v1 == v2
    ensures r < 0 <==> v1.y < v2.y || (v1.y == v2.y && v1.x < v2.x)
  {
    if v1.y < v2.y then -1
    else if v1.y > v2.y then 1
    else if v1.x < v2.x then -1
    else if v1.x > v2.x then 1
    else 0
  }

  /** Column by column, top to bottom within a column. */
  function VectorCmpTBLR(v1: Vector, v2: Vector): (r: int)
    ensures -1 <= r <= 1
    ensures r == 0 <==> v1 == v2
    ensures r < 0 <==> v1.x < v2.x || (v1.x == v2.x && v1.y < v2.y)
  {
    if v1.x < v2.x then -1
    else if v1.x > v2.x then 1
    else if v1.y < v2.y then -1
    else if v1.y > v2.y then 1
    else 0
  }

  /** Both comparisons are antisymmetric, as slices.SortFunc requires. */
  lemma CmpAntisymmetric(v1: Vector, v2: Vector)
    ensures VectorCmpLRTB(v1, v2) == -VectorCmpLRTB(v2, v1)
    ensures VectorCmpTBLR(v1, v2) == -VectorCmpTBLR(v2, v1)
  {
  }

  /** a sorts strictly before b: by rows for horizontal keys, by columns for
      vertical ones. */
  predicate Precedes(a: Vector, b: Vector, byRows: bool)
  {
    if byRows then VectorCmpLRTB(a, b) < 0 else VectorCmpTBLR(a, b) < 0
  }

  predicate SortedBy(s: seq<Vector>, byRows: bool)
  {
    forall i, j :: 0 <= i < j < |s| ==> Precedes(s[i], s[j], byRows)
  }

  /** s with x put in its place. */
  function Insert(s: seq<Vector>, x: Vector, byRows: bool): (r: seq<Vector>)
    requires SortedBy(s, byRows) && x !in s
    ensures SortedBy(r, byRows) && Elems(r) == Elems(s) + {x} && |r| == |s| + 1
  {
    if s == [] then [x]
    else if Precedes(x, s[0], byRows) then [x] + s
    else
      assert SortedBy(s[1..], byRows);
      var t := Insert(s[1..], x, byRows);
      InsertAfter(s, x, byRows, t);
      [s[0]] + t
  }

  lemma InsertAfter(s: seq<Vector>, x: Vector, byRows: bool, t: seq<Vector>)
    requires SortedBy(s, byRows) && x !in s && s != [] && !Precedes(x, s[0], byRows)
    requires SortedBy(t, byRows) && Elems(t) == Elems(s[1..]) + {x}
    ensures SortedBy([s[0]] + t, byRows)
  {
    assert x != s[0];
    forall j | 0 <= j < |t|
      ensures Precedes(s[0], t[j], byRows)
    {
      assert t[j] in Elems(t);
      if t[j] != x {
        var i :| 0 <= i < |s[1..]| && s[1..][i] == t[j];
        assert s[i + 1] == t[j];
      }
    }
  }

  /** slices.Collect of the keys followed by slices.SortFunc. */
  method SortedKeys(keys: set<Vector>, byRows: bool) returns (s: seq<Vector>)
    ensures Elems(s) == keys && SortedBy(s, byRows)
  {
    s := [];
    var rest := keys;
    while rest != {}
      invariant SortInv(keys, byRows, s, rest)
      decreases |rest|
    {
      var x :| x in rest;
      ghost var s0, rest0 := s, rest;
      assert x !in Elems(s);
      s := Insert(s, x, byRows);
      rest := rest - {x};
      SortStep(keys, byRows, s0, rest0, x, s, rest);
    }
  }

  /** SortedKeys' loop state: s is sorted and holds the keys not in rest. */
  predicate SortInv(keys: set<Vector>, byRows: bool, s: seq<Vector>, rest: set<Vector>)
  {
    Elems(s) + rest == keys && Elems(s) !! rest && SortedBy(s, byRows)
  }

  lemma SortStep(keys: set<Vector>, byRows: bool, s: seq<Vector>, rest: set<Vector>, x: Vector,
                 s': seq<Vector>, rest': set<Vector>)
    requires SortInv(keys, byRows, s, rest) && x in rest
    requires SortedBy(s', byRows) && Elems(s') == Elems(s) + {x} && rest' == rest - {x}
    ensures SortInv(keys, byRows, s', rest') && |rest'| < |rest|
  {
  }

  // ---------------------------------------------------------------------
  // Sides

  /** The unit of fence a unit continues: the one to the left of a
      horizontal unit, the one above a vertical unit. */
  function Behind(v: Vector, byRows: bool): Vector
  {
    if byRows then Vector(v.x - 1, v.y) else Vector(v.x, v.y - 1)
  }

  /** The unit keyed v begins a side when no unit of its kind lies behind
      it, or when a unit of the other kind has the same key: the fence
      crosses itself at v's corner. */
  predicate StartsSide(v: Vector, keys: set<Vector>, cross: set<Vector>, byRows: bool)
  {
    v in cross || Behind(v, byRows) !in keys
  }

  ghost function StartsAmong(a: set<Vector>, keys: set<Vector>, cross: set<Vector>, byRows: bool): set<Vector>
  {
    set v | v in a && StartsSide(v, keys, cross, byRows)
  }

  /** The units of keys that begin a side. */
  ghost function Starts(keys: set<Vector>, cross: set<Vector>, byRows: bool): set<Vector>
  {
    StartsAmong(keys, keys, cross, byRows)
  }

  /** The number of sides of a fence with horizontal keys h and vertical
      keys vf: one per unit that begins a side. */
  ghost function SideCount(h: set<Vector>, vf: set<Vector>): nat
  {
    |Starts(h, vf, true)| + |Starts(vf, h, false)|
  }

  /** No key lies left of or above the board, so the sentinel (-1, -1)
      NumSides starts from is never the unit behind a key. */
  ghost predicate Natural(keys: set<Vector>)
  {
    forall k :: k in keys ==> 0 <= k.x && 0 <= k.y
  }

  /** The units of s that begin a side, counted from the front. */
  ghost function CountStarts(s: seq<Vector>, keys: set<Vector>, cross: set<Vector>, byRows: bool): nat
  {
    if s == [] then 0
    else CountStarts(s[..|s| - 1], keys, cross, byRows) + (if StartsSide(s[|s| - 1], keys, cross, byRows) then 1 else 0)
  }

  /** Counting the starts along s, which holds each key once, counts the set
      of starts among its keys. */
  lemma {:induction false} CountStartsCard(s: seq<Vector>, keys: set<Vector>, cross: set<Vector>, byRows: bool)
    requires Distinct(s)
    ensures CountStarts(s, keys, cross, byRows) == |StartsAmong(Elems(s), keys, cross, byRows)|
  {
    if s != [] {
      var p, x := s[..|s| - 1], s[|s| - 1];
      assert s == p + [x];
      assert Distinct(p);
      CountStartsCard(p, keys, cross, byRows);
      assert x !in Elems(p);
      ElemsAppend(p, [x]);
      assert Elems(s) == Elems(p) + {x};
      StartsAmongAdd(Elems(p), x, keys, cross, byRows);
    }
  }

  lemma StartsAmongAdd(a: set<Vector>, x: Vector, keys: set<Vector>, cross: set<Vector>, byRows: bool)
    requires x !in a
    ensures |StartsAmong(a + {x}, keys, cross, byRows)|
         == |StartsAmong(a, keys, cross, byRows)| + (if StartsSide(x, keys, cross, byRows) then 1 else 0)
  {
    var s0 := StartsAmong(a, keys, cross, byRows);
    if StartsSide(x, keys, cross, byRows) {
      assert StartsAmong(a + {x}, keys, cross, byRows) == s0 + {x};
    } else {
      assert StartsAmong(a + {x}, keys, cross, byRows) == s0;
    }
  }

  /** In a sorted run of the keys, the key before s[i] (or the sentinel
      (-1, -1) before the first) is the unit behind s[i] exactly when that
      unit is a key: nothing sorts between a unit and the one behind it. */
  lemma PrevIsBehind(s: seq<Vector>, keys: set<Vector>, byRows: bool, i: int)
    requires SortedBy(s, byRows) && Elems(s) == keys && Natural(keys) && 0 <= i < |s|
    ensures (if i == 0 then Vector(-1, -1) else s[i - 1]) == Behind(s[i], byRows) <==> Behind(s[i], byRows) in keys
  {
    var b := Behind(s[i], byRows);
    assert s[i] in keys;
    if b in keys {
      var j :| 0 <= j < |s| && s[j] == b;
      assert Precedes(b, s[i], byRows);
    } else if i > 0 {
      assert s[i - 1] in keys;
    }
  }

  // ---------------------------------------------------------------------
  // Region

  class Region {
    var Area: int
    const Crop: char
    /** Keys of the horizontal units of fence. */
    var HFences: set<Vector>
    /** Keys of the vertical units of fence. */
    var VFences: set<Vector>

    /** NewRegion: an empty region of one crop. */
    constructor (crop: char)
      ensures Area == 0 && Crop == crop && HFences == {} && VFences == {}
    {
      Area := 0;
      Crop := crop;
      HFences := {};
      VFences := {};
    }

    /** The number of sides: every unit of fence that begins a side is
        counted once, horizontal units along the rows and vertical units
        down the columns. */
    method NumSides() returns (sides: int)
      requires Natural(HFences) && Natural(VFences)
      ensures sides == SideCount(HFences, VFences)
    {
      var hfences := SortedKeys(HFences, true);
      var vfences := SortedKeys(VFences, false);

      sides := 0;
      var prev := Vector(-1, -1);
      for i := 0 to |hfences|
        invariant prev == (if i == 0 then Vector(-1, -1) else hfences[i - 1])
        invariant sides == CountStarts(hfences[..i], HFences, VFences, true)
      {
        var v := hfences[i];
        PrevIsBehind(hfences, HFences, true, i);
        assert hfences[..i + 1][..i] == hfences[..i];
        if v in VFences {
          sides := sides + 1;
        } else if prev.y != v.y || prev.x + 1 != v.x {
          sides := sides + 1;
        }
        prev := v;
      }
      ghost var hsides := sides;

      prev := Vector(-1, -1);
      for i := 0 to |vfences|
        invariant prev == (if i == 0 then Vector(-1, -1) else vfences[i - 1])
        invariant sides == hsides + CountStarts(vfences[..i], VFences, HFences, false)
      {
        var v := vfences[i];
        PrevIsBehind(vfences, VFences, false, i);
        assert vfences[..i + 1][..i] == vfences[..i];
        if v in HFences {
          sides := sides + 1;
        } else if prev.x != v.x || prev.y + 1 != v.y {
          sides := sides + 1;
        }
        prev := v;
      }
      SortedCounts(hfences, HFences, VFences, true);
      SortedCounts(vfences, VFences, HFences, false);
    }
  }

  lemma SortedCounts(s: seq<Vector>, keys: set<Vector>, cross: set<Vector>, byRows: bool)
    requires SortedBy(s, byRows) && Elems(s) == keys
    ensures CountStarts(s[..|s|], keys, cross, byRows) == |Starts(keys, cross, byRows)|
  {
    assert s[..|s|] == s;
    CountStartsCard(s, keys, cross, byRows);
  }

  // ---------------------------------------------------------------------
  // Walk

  datatype Side = Up | Down | Left | Right

  /** Walk's order of sides. */
  function WalkOrder(): seq<Side>
  {
    [Up, Down, Left, Right]
  }

  function Step(v: Vector, s: Side): Vector
  {
    match s
    case Up => Vector(v.x, v.y - 1)
    case Down => Vector(v.x, v.y + 1)
    case Left => Vector(v.x - 1, v.y)
    case Right => Vector(v.x + 1, v.y)
  }

  predicate Horizontal(s: Side)
  {
    s == Up || s == Down
  }

  /** A unit of fence is keyed by the plot below it or right of it: v itself
      for its top and left sides, the plot beyond for the other two. */
  function FenceKey(v: Vector, s: Side): Vector
  {
    if s == Up || s == Left then v else Step(v, s)
  }

  /** The plots around v are the four steps from it. */
  lemma AroundSteps(v: Vector)
    ensures Around(v) == [Step(v, Down), Step(v, Up), Step(v, Right), Step(v, Left)]
  {
  }

  /** Side s of plot p needs fence: the plot beyond is off the board or of
      another crop. */
  ghost predicate NeedsFence(b: Board, p: Vector, s: Side)
    requires b.Shaped() && b.InBounds(p)
  {
    !b.InBounds(Step(p, s)) || b.Crop(Step(p, s)) != b.Crop(p)
  }

  ghost function SideFence(b: Board, p: Vector, s: Side): set<Vector>
    requires b.Shaped() && b.InBounds(p)
  {
    if NeedsFence(b, p, s) then {FenceKey(p, s)} else {}
  }

  /** The keys of the horizontal fence around the plots of s. */
  ghost function HFencesOf(b: Board, s: seq<Vector>): set<Vector>
    requires b.Shaped() && b.OnBoard(s)
  {
    if s == [] then {}
    else SideFence(b, s[0], Up) + SideFence(b, s[0], Down) + HFencesOf(b, s[1..])
  }

  /** The keys of the vertical fence around the plots of s. */
  ghost function VFencesOf(b: Board, s: seq<Vector>): set<Vector>
    requires b.Shaped() && b.OnBoard(s)
  {
    if s == [] then {}
    else SideFence(b, s[0], Left) + SideFence(b, s[0], Right) + VFencesOf(b, s[1..])
  }

  lemma {:induction false} FencesAppend(b: Board, s: seq<Vector>, t: seq<Vector>)
    requires b.Shaped() && b.OnBoard(s) && b.OnBoard(t)
    ensures HFencesOf(b, s + t) == HFencesOf(b, s) + HFencesOf(b, t)
    ensures VFencesOf(b, s + t) == VFencesOf(b, s) + VFencesOf(b, t)
  {
    if s == [] {
      assert s + t == t;
    } else {
      assert (s + t)[0] == s[0] && (s + t)[1..] == s[1..] + t;
      FencesAppend(b, s[1..], t);
    }
  }

  /** Every key Walk records lies on the board or just below or right of
      it, never left of or above it. */
  lemma {:induction false} FenceKeysNatural(b: Board, s: seq<Vector>)
    requires b.Shaped() && b.OnBoard(s)
    ensures Natural(HFencesOf(b, s)) && Natural(VFencesOf(b, s))
  {
    if s != [] {
      assert s[0] in s;
      FenceKeysNatural(b, s[1..]);
    }
  }

  // ---------------------------------------------------------------------
  // The same fence as part 1

  /** key is the key of p's top or bottom unit of fence. */
  ghost predicate HKeyOf(b: Board, p: Vector, key: Vector)
    requires b.Shaped() && b.InBounds(p)
  {
    (key == p && NeedsFence(b, p, Up)) || (key == Step(p, Down) && NeedsFence(b, p, Down))
  }

  /** key is the key of p's left or right unit of fence. */
  ghost predicate VKeyOf(b: Board, p: Vector, key: Vector)
    requires b.Shaped() && b.InBounds(p)
  {
    (key == p && NeedsFence(b, p, Left)) || (key == Step(p, Right) && NeedsFence(b, p, Right))
  }

  lemma {:induction false} HKeyOrigin(b: Board, s: seq<Vector>, key: Vector)
    requires b.Shaped() && b.OnBoard(s) && key in HFencesOf(b, s)
    ensures exists q :: q in s && b.InBounds(q) && HKeyOf(b, q, key)
  {
    if key !in SideFence(b, s[0], Up) + SideFence(b, s[0], Down) {
      HKeyOrigin(b, s[1..], key);
      var q :| q in s[1..] && b.InBounds(q) && HKeyOf(b, q, key);
      assert q in s;
    } else {
      assert HKeyOf(b, s[0], key);
    }
  }

  lemma {:induction false} VKeyOrigin(b: Board, s: seq<Vector>, key: Vector)
    requires b.Shaped() && b.OnBoard(s) && key in VFencesOf(b, s)
    ensures exists q :: q in s && b.InBounds(q) && VKeyOf(b, q, key)
  {
    if key !in SideFence(b, s[0], Left) + SideFence(b, s[0], Right) {
      VKeyOrigin(b, s[1..], key);
      var q :| q in s[1..] && b.InBounds(q) && VKeyOf(b, q, key);
      assert q in s;
    } else {
      assert VKeyOf(b, s[0], key);
    }
  }

  /** Two plots of one crop never give the same key: plots stacked on each
      other, or side by side, have no fence between them. */
  lemma HKeysApart(b: Board, s: seq<Vector>, p: Vector, c: char)
    requires b.Shaped() && b.InBounds(p) && b.OnBoard(s) && b.OfCrop([p] + s, c) && p !in s
    ensures (SideFence(b, p, Up) + SideFence(b, p, Down)) !! HFencesOf(b, s)
  {
    forall key | key in SideFence(b, p, Up) + SideFence(b, p, Down)
      ensures key !in HFencesOf(b, s)
    {
      if key in HFencesOf(b, s) {
        HKeyOrigin(b, s, key);
      }
    }
  }

  lemma VKeysApart(b: Board, s: seq<Vector>, p: Vector, c: char)
    requires b.Shaped() && b.InBounds(p) && b.OnBoard(s) && b.OfCrop([p] + s, c) && p !in s
    ensures (SideFence(b, p, Left) + SideFence(b, p, Right)) !! VFencesOf(b, s)
  {
    forall key | key in SideFence(b, p, Left) + SideFence(b, p, Right)
      ensures key !in VFencesOf(b, s)
    {
      if key in VFencesOf(b, s) {
        VKeyOrigin(b, s, key);
      }
    }
  }

  /** Part 1's fence of one plot counts its sides that need fence. */
  lemma PlotFence(b: Board, p: Vector)
    requires b.Shaped() && b.InBounds(p)
    ensures b.Fence(p) == |SideFence(b, p, Up)| + |SideFence(b, p, Down)| + |SideFence(b, p, Left)| + |SideFence(b, p, Right)|
  {
    var a := Around(p);
    AroundSteps(p);
    assert b.FenceSides(p, a[..1]) == |SideFence(b, p, Down)| by {
      assert a[..1][..0] == [];
    }
    assert b.FenceSides(p, a[..2]) == |SideFence(b, p, Down)| + |SideFence(b, p, Up)| by {
      assert a[..2][..1] == a[..1];
    }
    assert b.FenceSides(p, a[..3]) == |SideFence(b, p, Down)| + |SideFence(b, p, Up)| + |SideFence(b, p, Right)| by {
      assert a[..3][..2] == a[..2];
    }
    assert a[..4][..3] == a[..3] && a[..4] == a;
  }

  /** Walk records one key per unit of part 1's fence: over plots of one
      crop, each once, the keys number as many as FenceSum counts. */
  lemma {:induction false} FenceKeysCount(b: Board, s: seq<Vector>, c: char)
    requires b.Shaped() && Distinct(s) && b.OfCrop(s, c)
    ensures |HFencesOf(b, s)| + |VFencesOf(b, s)| == b.FenceSum(s)
  {
    if s != [] {
      var p, t := s[0], s[1..];
      assert s == [p] + t;
      assert p !in t;
      assert Distinct(t);
      assert b.OfCrop(t, c) by {
        forall q | q in t ensures b.InBounds(q) && b.Crop(q) == c { assert q in s; }
      }
      FenceKeysCount(b, t, c);
      HKeysApart(b, t, p, c);
      VKeysApart(b, t, p, c);
      PlotFence(b, p);
      assert SideFence(b, p, Up) !! SideFence(b, p, Down);
      assert SideFence(b, p, Left) !! SideFence(b, p, Right);
    }
  }

  /** For a region, part 2's fence keys are part 1's fence, unit for unit. */
  lemma RegionFenceKeys(b: Board, r: seq<Vector>)
    requires b.Shaped() && b.IsRegion(r)
    ensures |HFencesOf(b, r)| + |VFencesOf(b, r)| == b.FenceSum(r)
  {
    FenceKeysCount(b, r, b.Crop(r[0]));
  }

  /** Side s of v is dealt with in vis: if the plot beyond holds v's crop,
      it is visited. */
  ghost predicate SideDone(b: Board, v: Vector, s: Side, vis: set<Vector>)
    requires b.Shaped() && b.InBounds(v)
  {
    b.InBounds(Step(v, s)) && b.Crop(Step(v, s)) == b.Crop(v) ==> Step(v, s) in vis
  }

  /** The first k sides of v, in Walk's order, are dealt with in vis. */
  ghost predicate SidesDone(b: Board, v: Vector, k: int, vis: set<Vector>)
    requires b.Shaped() && b.InBounds(v)
  {
    && (k > 0 ==> SideDone(b, v, Up, vis))
    && (k > 1 ==> SideDone(b, v, Down, vis))
    && (k > 2 ==> SideDone(b, v, Left, vis))
    && (k > 3 ==> SideDone(b, v, Right, vis))
  }

  /** The horizontal fence of v's first k sides. */
  ghost function HandledH(b: Board, v: Vector, k: int): set<Vector>
    requires b.Shaped() && b.InBounds(v)
  {
    (if k > 0 then SideFence(b, v, Up) else {}) + (if k > 1 then SideFence(b, v, Down) else {})
  }

  /** The vertical fence of v's first k sides. */
  ghost function HandledV(b: Board, v: Vector, k: int): set<Vector>
    requires b.Shaped() && b.InBounds(v)
  {
    (if k > 2 then SideFence(b, v, Left) else {}) + (if k > 3 then SideFence(b, v, Right) else {})
  }

  /** What one side of Walk promises: the plot beyond is dealt with, and
      run is empty or is the run Walk visited from that plot. */
  ghost predicate SideRun(b: Board, v: Vector, s: Side, vis0: set<Vector>, vis: set<Vector>, run: seq<Vector>)
    requires b.Shaped() && b.InBounds(v)
  {
    && SideDone(b, v, s, vis)
    && if run == [] then vis == vis0
       else
         && b.InBounds(Step(v, s)) && b.Crop(Step(v, s)) == b.Crop(v)
         && b.Visits(Step(v, s), vis0, vis, run) && b.Enclosed(run, vis)
  }

  /** The state of Walk after its first k sides. */
  ghost predicate WalkInv(b: Board, v: Vector, vis0: set<Vector>, vis: set<Vector>, k: int, order: seq<Vector>,
                          area0: int, area: int, h0: set<Vector>, h: set<Vector>, vf0: set<Vector>, vf: set<Vector>)
    requires b.Shaped() && b.InBounds(v)
  {
    WalkVisits(b, v, vis0, vis, k, order) && WalkFences(b, v, k, order, area0, area, h0, h, vf0, vf)
  }

  /** The plots Walk has visited after its first k sides. */
  ghost predicate WalkVisits(b: Board, v: Vector, vis0: set<Vector>, vis: set<Vector>, k: int, order: seq<Vector>)
    requires b.Shaped() && b.InBounds(v)
  {
    && 0 <= k <= 4
    && b.OnBoardSet(vis)
    && b.Visits(v, vis0, vis, order)
    && b.Enclosed(order[1..], vis)
    && SidesDone(b, v, k, vis)
    && b.OnBoard(order[1..])
  }

  /** The area and fences Walk has recorded after its first k sides. */
  ghost predicate WalkFences(b: Board, v: Vector, k: int, order: seq<Vector>,
                             area0: int, area: int, h0: set<Vector>, h: set<Vector>, vf0: set<Vector>, vf: set<Vector>)
    requires b.Shaped() && b.InBounds(v)
  {
    && |order| > 0
    && area == area0 + |order|
    && b.OnBoard(order[1..])
    && h == h0 + HandledH(b, v, k) + HFencesOf(b, order[1..])
    && vf == vf0 + HandledV(b, v, k) + VFencesOf(b, order[1..])
  }

  /** Walk fills the region of v's crop through v as GetCost does: the
      plots it visits form a connected run of that crop whose same-crop
      neighbours are all visited afterwards. The area grows by their number
      and the fences by the keys of their fence. */
  method Walk(b: Board, v: Vector, r: Region) returns (ghost order: seq<Vector>)
    requires b.Valid() && b.InBounds(v) && v !in b.Visited
    modifies b, r
    ensures b.Valid() && b.Visits(v, old(b.Visited), b.Visited, order) && b.Enclosed(order, b.Visited)
    ensures r.Area == old(r.Area) + |order|
    ensures r.HFences == old(r.HFences) + HFencesOf(b, order)
    ensures r.VFences == old(r.VFences) + VFencesOf(b, order)
    decreases |b.Cells() - b.Visited|, 1
  {
    ghost var vis0, area0, h0, vf0 := b.Visited, r.Area, r.HFences, r.VFences;
    b.Visited := b.Visited + {v};
    r.Area := r.Area + 1;
    order := [v];
    WalkStart(b, v, vis0, b.Visited, order, area0, r.Area, h0, vf0);
    for k := 0 to 4
      invariant WalkInv(b, v, vis0, b.Visited, k, order, area0, r.Area, h0, r.HFences, vf0, r.VFences)
    {
      ghost var vis1, order1, area1, h1, vf1 := b.Visited, order, r.Area, r.HFences, r.VFences;
      WalkFewer(b, v, vis0, vis1, order1);
      var run := WalkSide(b, v, WalkOrder()[k], r);
      order := order + run;
      WalkStep(b, v, vis0, vis1, k, order1, area0, area1, h0, h1, vf0, vf1,
               b.Visited, run, order, r.Area, r.HFences, r.VFences);
    }
    WalkDone(b, v, vis0, b.Visited, order, area0, r.Area, h0, r.HFences, vf0, r.VFences);
  }

  /** One of Walk's four blocks: fence side s of v, or walk on to the plot
      beyond when it holds the same crop and is not visited yet. */
  method WalkSide(b: Board, v: Vector, s: Side, r: Region) returns (ghost run: seq<Vector>)
    requires b.Valid() && b.InBounds(v)
    modifies b, r
    ensures b.Valid() && SideRun(b, v, s, old(b.Visited), b.Visited, run)
    ensures r.Area == old(r.Area) + |run|
    ensures r.HFences == old(r.HFences) + (if Horizontal(s) then SideFence(b, v, s) else {}) + HFencesOf(b, run)
    ensures r.VFences == old(r.VFences) + (if Horizontal(s) then {} else SideFence(b, v, s)) + VFencesOf(b, run)
    decreases |b.Cells() - b.Visited|, 2
  {
    var v2 := Step(v, s);
    if b.InBounds(v2) && b.Crop(v) == b.Crop(v2) {
      if v2 !in b.Visited {
        run := Walk(b, v2, r);
      } else {
        run := [];
      }
    } else {
      if Horizontal(s) {
        r.HFences := r.HFences + {FenceKey(v, s)};
      } else {
        r.VFences := r.VFences + {FenceKey(v, s)};
      }
      run := [];
    }
  }

  lemma WalkStart(b: Board, v: Vector, vis0: set<Vector>, vis: set<Vector>, order: seq<Vector>,
                  area0: int, area: int, h0: set<Vector>, vf0: set<Vector>)
    requires b.Shaped() && b.InBounds(v) && b.OnBoardSet(vis0) && v !in vis0
    requires vis == vis0 + {v} && order == [v] && area == area0 + 1
    ensures WalkInv(b, v, vis0, vis, 0, order, area0, area, h0, h0, vf0, vf0)
  {
    assert order[1..] == [];
    assert Elems(order) == {v};
  }

  /** Before side k: fewer plots are unvisited than when Walk began. */
  lemma WalkFewer(b: Board, v: Vector, vis0: set<Vector>, vis: set<Vector>, order: seq<Vector>)
    requires b.Shaped() && b.InBounds(v) && b.Visits(v, vis0, vis, order)
    ensures |b.Cells() - vis| < |b.Cells() - vis0|
  {
    assert v in b.Cells() && v in Elems(order);
    FewerUnvisited(b.Cells(), vis0, vis, v);
  }

  /** Side k of Walk extends its state by the run visited beyond it. */
  lemma WalkStep(b: Board, v: Vector, vis0: set<Vector>, vis: set<Vector>, k: int, order: seq<Vector>,
                 area0: int, area: int, h0: set<Vector>, h: set<Vector>, vf0: set<Vector>, vf: set<Vector>,
                 vis': set<Vector>, run: seq<Vector>, order': seq<Vector>,
                 area': int, h': set<Vector>, vf': set<Vector>)
    requires b.Shaped() && b.InBounds(v) && 0 <= k < 4
    requires WalkInv(b, v, vis0, vis, k, order, area0, area, h0, h, vf0, vf)
    requires b.OnBoardSet(vis') && SideRun(b, v, WalkOrder()[k], vis, vis', run)
    requires order' == order + run && area' == area + |run|
    requires var s := WalkOrder()[k];
      && h' == h + (if Horizontal(s) then SideFence(b, v, s) else {}) + HFencesOf(b, run)
      && vf' == vf + (if Horizontal(s) then {} else SideFence(b, v, s)) + VFencesOf(b, run)
    ensures WalkInv(b, v, vis0, vis', k + 1, order', area0, area', h0, h', vf0, vf')
  {
    VisitStep(b, v, vis0, vis, k, order, vis', run, order');
    FenceStep(b, v, k, order, area0, area, h0, h, vf0, vf, run, order', area', h', vf');
  }

  /** The visiting half of WalkStep. */
  lemma VisitStep(b: Board, v: Vector, vis0: set<Vector>, vis: set<Vector>, k: int, order: seq<Vector>,
                  vis': set<Vector>, run: seq<Vector>, order': seq<Vector>)
    requires b.Shaped() && b.InBounds(v) && 0 <= k < 4
    requires WalkVisits(b, v, vis0, vis, k, order)
    requires b.OnBoardSet(vis') && SideRun(b, v, WalkOrder()[k], vis, vis', run)
    requires order' == order + run
    ensures WalkVisits(b, v, vis0, vis', k + 1, order')
    ensures order'[1..] == order[1..] + run && b.OnBoard(run)
  {
    if run == [] {
      assert order' == order;
      assert SidesDone(b, v, k + 1, vis');
    } else {
      VisitRun(b, v, vis0, vis, k, order, vis', run, order');
    }
  }

  lemma VisitRun(b: Board, v: Vector, vis0: set<Vector>, vis: set<Vector>, k: int, order: seq<Vector>,
                 vis': set<Vector>, run: seq<Vector>, order': seq<Vector>)
    requires b.Shaped() && b.InBounds(v) && 0 <= k < 4
    requires WalkVisits(b, v, vis0, vis, k, order)
    requires b.OnBoardSet(vis') && SideRun(b, v, WalkOrder()[k], vis, vis', run) && run != []
    requires order' == order + run
    ensures WalkVisits(b, v, vis0, vis', k + 1, order')
    ensures order'[1..] == order[1..] + run && b.OnBoard(run)
  {
    SideJoins(b, v, vis0, vis, k, order, vis', run, order');
    assert order'[1..] == order[1..] + run;
    SideEncloses(b, v, vis0, vis, k, order, vis', run, order');
    SidesDoneGrows(b, v, k, vis, vis');
  }

  /** The run visited beyond side k extends the run from v. */
  lemma SideJoins(b: Board, v: Vector, vis0: set<Vector>, vis: set<Vector>, k: int, order: seq<Vector>,
                  vis': set<Vector>, run: seq<Vector>, order': seq<Vector>)
    requires b.Shaped() && b.InBounds(v) && 0 <= k < 4
    requires WalkVisits(b, v, vis0, vis, k, order)
    requires SideRun(b, v, WalkOrder()[k], vis, vis', run) && run != []
    requires order' == order + run
    ensures b.Visits(v, vis0, vis', order')
  {
    assert Adjacent(v, Step(v, WalkOrder()[k]));
    b.RunJoins(v, vis0, vis, order, vis', run, order');
  }

  /** The plots of both runs stay surrounded in the grown visited set. */
  lemma SideEncloses(b: Board, v: Vector, vis0: set<Vector>, vis: set<Vector>, k: int, order: seq<Vector>,
                     vis': set<Vector>, run: seq<Vector>, order': seq<Vector>)
    requires b.Shaped() && b.InBounds(v) && 0 <= k < 4
    requires WalkVisits(b, v, vis0, vis, k, order)
    requires SideRun(b, v, WalkOrder()[k], vis, vis', run) && run != []
    requires |order'| > 0 && order'[1..] == order[1..] + run
    ensures b.Enclosed(order'[1..], vis') && vis <= vis'
  {
    b.EnclosedGrows(order[1..], vis, vis');
    b.EnclosedAppend(order[1..], run, vis');
  }

  lemma SidesDoneGrows(b: Board, v: Vector, k: int, vis: set<Vector>, vis': set<Vector>)
    requires b.Shaped() && b.InBounds(v) && SidesDone(b, v, k, vis) && vis <= vis'
    ensures SidesDone(b, v, k, vis')
  {
  }

  /** The recording half of WalkStep. */
  lemma FenceStep(b: Board, v: Vector, k: int, order: seq<Vector>,
                  area0: int, area: int, h0: set<Vector>, h: set<Vector>, vf0: set<Vector>, vf: set<Vector>,
                  run: seq<Vector>, order': seq<Vector>, area': int, h': set<Vector>, vf': set<Vector>)
    requires b.Shaped() && b.InBounds(v) && 0 <= k < 4
    requires WalkFences(b, v, k, order, area0, area, h0, h, vf0, vf)
    requires b.OnBoard(run) && order' == order + run && order'[1..] == order[1..] + run && area' == area + |run|
    requires var s := WalkOrder()[k];
      && h' == h + (if Horizontal(s) then SideFence(b, v, s) else {}) + HFencesOf(b, run)
      && vf' == vf + (if Horizontal(s) then {} else SideFence(b, v, s)) + VFencesOf(b, run)
    ensures WalkFences(b, v, k + 1, order', area0, area', h0, h', vf0, vf')
  {
    FencesAppend(b, order[1..], run);
  }

  lemma WalkDone(b: Board, v: Vector, vis0: set<Vector>, vis: set<Vector>, order: seq<Vector>,
                 area0: int, area: int, h0: set<Vector>, h: set<Vector>, vf0: set<Vector>, vf: set<Vector>)
    requires b.Shaped() && b.InBounds(v)
    requires WalkInv(b, v, vis0, vis, 4, order, area0, area, h0, h, vf0, vf)
    ensures b.OnBoardSet(vis) && b.Visits(v, vis0, vis, order) && b.Enclosed(order, vis)
    ensures area == area0 + |order|
    ensures h == h0 + HFencesOf(b, order) && vf == vf0 + VFencesOf(b, order)
  {
    assert order == [v] + order[1..];
    AroundSteps(v);
    assert b.Surrounded(v, vis);
    b.EnclosedAppend([v], order[1..], vis);
  }

  // ---------------------------------------------------------------------
  // main

  /** The price of the regions found, each at its area times its number of
      sides. */
  ghost function SidesPrice(b: Board, rs: seq<seq<Vector>>): int
    requires b.Shaped() && forall r :: r in rs ==> b.IsRegion(r)
  {
    if rs == [] then 0
    else
      var r := rs[|rs| - 1];
      assert r in rs && b.IsRegion(r);
      SidesPrice(b, rs[..|rs| - 1]) + |r| * SideCount(HFencesOf(b, r), VFencesOf(b, r))
  }

  lemma SidesPriceAppend(b: Board, rs: seq<seq<Vector>>, r: seq<Vector>)
    requires b.Shaped() && b.IsRegion(r) && forall r' :: r' in rs ==> b.IsRegion(r')
    ensures SidesPrice(b, rs + [r]) == SidesPrice(b, rs) + |r| * SideCount(HFencesOf(b, r), VFencesOf(b, r))
  {
    assert (rs + [r])[..|rs|] == rs;
  }

  /** main's block for a plot not yet visited: walk the region through v
      into a new region record and price it at area times sides. */
  method PriceRegion(b: Board, v: Vector) returns (price: int, ghost region: seq<Vector>)
    requires b.Valid() && b.InBounds(v) && v !in b.Visited
    modifies b
    ensures b.Valid() && b.Visits(v, old(b.Visited), b.Visited, region) && b.Enclosed(region, b.Visited)
    ensures price == |region| * SideCount(HFencesOf(b, region), VFencesOf(b, region))
  {
    var r := new Region(b.Crop(v));
    region := Walk(b, v, r);
    FenceKeysNatural(b, region);
    var nSides := r.NumSides();
    price := r.Area * nSides;
    assert r.Area == |region| && nSides == SideCount(HFencesOf(b, region), VFencesOf(b, region)) by {
      assert r.HFences == HFencesOf(b, region) && r.VFences == VFencesOf(b, region);
    }
  }

  /** main: every plot is visited, the regions found hold every plot once,
      and cost is the sum over them of area times number of sides. */
  method TotalPrice(b: Board) returns (cost: int, ghost regions: seq<seq<Vector>>)
    requires b.Valid() && b.Visited == {}
    modifies b
    ensures b.Valid() && b.Visited == b.Cells()
    ensures forall r :: r in regions ==> b.IsRegion(r)
    ensures Elems(b.Concat(regions)) == b.Cells() && Distinct(b.Concat(regions))
    ensures cost == SidesPrice(b, regions)
  {
    cost := 0;
    regions := [];
    b.ScanStart();
    for y := 0 to b.Size.y
      invariant b.ScanInv(y, 0, b.Visited, regions) && cost == SidesPrice(b, regions)
    {
      for x := 0 to b.Size.x
        invariant b.ScanInv(y, x, b.Visited, regions) && cost == SidesPrice(b, regions)
      {
        var v := Vector(x, y);
        ghost var vis0, regions0 := b.Visited, regions;
        if v !in b.Visited {
          var price, region := PriceRegion(b, v);
          cost := cost + price;
          regions := regions + [region];
          b.ScanStep(y, x, vis0, regions0, b.Visited, region, regions);
          SidesPriceAppend(b, regions0, region);
        } else {
          b.ScanSkip(y, x, b.Visited, regions);
        }
      }
      b.RowDone(y, b.Visited, regions);
    }
    b.ScanDone(b.Visited, regions);
  }
}
