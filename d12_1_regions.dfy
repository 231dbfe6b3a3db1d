/** Day 12, part 1 (12-1/main.go): garden plots of one crop that touch
    orthogonally form a region. GetCost flood-fills a region from one of
    its plots, setting each plot's Visited flag, and returns the region's
    area and the length of fence around it; main prices every region at
    area times fence.

    A Cell's Visited flag is kept as the set of the positions whose flag is
    set; the crops never change and are constants. GetNeighbors returns
    pointers to cells, modelled as their positions. */
module GardenRegions {
  import opened Vectors

  /** The directions GetNeighbors tries, in its order. */
  function Dirs(): seq<Vector>
  {
    [Vector(0, 1), Vector(0, -1), Vector(1, 0), Vector(-1, 0)]
  }

  /** The four plots next to v, in the order of Dirs. */
  function Around(v: Vector): (r: seq<Vector>)
    ensures |r| == 4
  {
    [Add(v, Dirs()[0]), Add(v, Dirs()[1]), Add(v, Dirs()[2]), Add(v, Dirs()[3])]
  }

  predicate Adjacent(a: Vector, b: Vector)
  {
    ManhattanDist(a, b) == 1
  }

  /** The plots around v are the plots at distance one. */
  lemma AroundAdjacent(v: Vector, u: Vector)
    ensures u in Around(v) <==> Adjacent(v, u)
  {
    if Adjacent(v, u) {
      if u.x == v.x {
        if u.y > v.y { assert u == Around(v)[0]; } else { assert u == Around(v)[1]; }
      } else {
        if u.x > v.x { assert u == Around(v)[2]; } else { assert u == Around(v)[3]; }
      }
    }
  }

  predicate Distinct(s: seq<Vector>)
  {
    forall i, j :: 0 <= i < j < |s| ==> s[i] != s[j]
  }

  function Elems(s: seq<Vector>): (r: set<Vector>)
    ensures forall p :: p in r <==> p in s
  {
    set p | p in s
  }

  lemma ElemsAppend(s: seq<Vector>, t: seq<Vector>)
    ensures Elems(s + t) == Elems(s) + Elems(t)
  {
  }

  /** Joining two runs without a plot in common keeps every plot once. */
  lemma DistinctAppend(s: seq<Vector>, t: seq<Vector>)
    requires Distinct(s) && Distinct(t) && Elems(s) !! Elems(t)
    ensures Distinct(s + t)
  {
    forall a, b | 0 <= a < b < |s + t|
      ensures (s + t)[a] != (s + t)[b]
    {
      if b < |s| {
      } else if a >= |s| {
        assert (s + t)[a] == t[a - |s|] && (s + t)[b] == t[b - |s|];
      } else {
        assert (s + t)[a] in Elems(s) && (s + t)[b] in Elems(t);
      }
    }
  }

  /** s[j] touches a plot listed before it. */
  ghost predicate Joined(s: seq<Vector>, j: int)
    requires 0 <= j < |s|
  {
    exists k :: 0 <= k < j && Adjacent(s[k], s[j])
  }

  /** Every plot after the first touches an earlier one, so all of s is
      connected to s[0]. */
  ghost predicate Grown(s: seq<Vector>)
  {
    forall j :: 0 < j < |s| ==> Joined(s, j)
  }

  /** Appending a connected run whose first plot touches s keeps s
      connected. */
  lemma GrownAppend(s: seq<Vector>, t: seq<Vector>, k: nat)
    requires Grown(s) && Grown(t) && |t| > 0
    requires k < |s| && Adjacent(s[k], t[0])
    ensures Grown(s + t)
  {
    var u := s + t;
    forall j | 0 < j < |u|
      ensures Joined(u, j)
    {
      if j < |s| {
        assert Joined(s, j);
        var m :| 0 <= m < j && Adjacent(s[m], s[j]);
        assert u[m] == s[m] && u[j] == s[j];
      } else if j == |s| {
        assert u[k] == s[k] && u[j] == t[0];
      } else {
        assert Joined(t, j - |s|);
        var m :| 0 <= m < j - |s| && Adjacent(t[m], t[j - |s|]);
        assert u[m + |s|] == t[m] && u[j] == t[j - |s|];
      }
    }
  }

  lemma SubsetCard(a: set<Vector>, b: set<Vector>)
    requires a <= b
    ensures |a| <= |b|
    decreases |a|
  {
    if a != {} {
      var x :| x in a;
      SubsetCard(a - {x}, b - {x});
    }
  }

  /** Visiting one more plot leaves fewer plots to visit. */
  lemma FewerUnvisited(all: set<Vector>, v0: set<Vector>, v1: set<Vector>, v: Vector)
    requires v in all && v !in v0 && v0 + {v} <= v1
    ensures |all - v1| < |all - v0|
  {
    SubsetCard(all - v1, (all - v0) - {v});
  }

  class Board {
    const Crops: seq<seq<char>>
    const Size: Vector
    /** The plots whose Visited flag is set. */
    var Visited: set<Vector>

    /** At least one row, and every row as wide as the first: the size is
        taken from the first row. */
    predicate Shaped()
    {
      && |Crops| >= 1
      && Size == Vector(|Crops[0]|, |Crops|)
      && forall y :: 0 <= y < |Crops| ==> |Crops[y]| == Size.x
    }

    ghost predicate Valid()
      reads this
    {
      Shaped() && OnBoardSet(Visited)
    }

    predicate InBounds(v: Vector)
    {
      0 <= v.x < Size.x && 0 <= v.y < Size.y
    }

    /** Every plot of vis lies on the board. */
    ghost predicate OnBoardSet(vis: set<Vector>)
    {
      forall p :: p in vis ==> InBounds(p)
    }

    /** The plots of the board. */
    ghost function Cells(): (r: set<Vector>)
      requires Shaped()
      ensures forall v :: v in r <==> InBounds(v)
    {
      RowsBelow(Size.y)
    }

    /** The plots of the first n rows. */
    ghost function RowsBelow(n: nat): (r: set<Vector>)
      ensures forall v :: v in r <==> 0 <= v.x < Size.x && 0 <= v.y < n
    {
      if n == 0 then {} else RowsBelow(n - 1) + RowCells(n - 1, Size.x)
    }

    /** The first w plots of row y. */
    static ghost function RowCells(y: int, w: int): (r: set<Vector>)
      ensures forall v :: v in r <==> v.y == y && 0 <= v.x < w
      decreases w
    {
      if w <= 0 then {} else RowCells(y, w - 1) + {Vector(w - 1, y)}
    }

    function Crop(v: Vector): char
      requires Shaped() && InBounds(v)
    {
      Crops[v.y][v.x]
    }

    /** LoadBoard, from the lines of the input. */
    constructor (lines: seq<string>)
      requires |lines| >= 1 && forall y :: 0 <= y < |lines| ==> |lines[y]| == |lines[0]|
      ensures Crops == lines && Size == Vector(|lines[0]|, |lines|)
      ensures Visited == {} && Valid()
    {
      Crops := lines;
      Size := Vector(|lines[0]|, |lines|);
      Visited := {};
    }

    /** The plots of s that lie on the board, in order. */
    function Inside(s: seq<Vector>): (r: seq<Vector>)
      ensures |r| <= |s|
      ensures forall n :: n in r <==> n in s && InBounds(n)
    {
      if s == [] then []
      else if InBounds(s[|s| - 1]) then Inside(s[..|s| - 1]) + [s[|s| - 1]]
      else Inside(s[..|s| - 1])
    }

    /** The neighbours on the board, in the order of Dirs, and how many of
        the four directions lead off it. */
    method GetNeighbors(v: Vector) returns (neighbors: seq<Vector>, outOfBounds: nat)
      ensures neighbors == Inside(Around(v))
      ensures outOfBounds + |neighbors| == 4
    {
      neighbors, outOfBounds := [], 0;
      var around := Around(v);
      for i := 0 to 4
        invariant neighbors == Inside(around[..i])
        invariant outOfBounds + |neighbors| == i
      {
        var v2 := Add(v, Dirs()[i]);
        assert around[..i + 1][..i] == around[..i] && v2 == around[i];
        if InBounds(v2) {
          neighbors := neighbors + [v2];
        } else {
          outOfBounds := outOfBounds + 1;
        }
      }
      assert around[..4] == around;
    }

    /** The neighbours GetNeighbors returns are the plots on the board at
        distance one, each once. */
    lemma NeighborsAreAdjacent(v: Vector, n: Vector)
      ensures n in Inside(Around(v)) <==> InBounds(n) && Adjacent(v, n)
      ensures Distinct(Inside(Around(v)))
    {
      AroundAdjacent(v, n);
      InsideDistinct(Around(v));
    }

    lemma InsideDistinct(s: seq<Vector>)
      requires Distinct(s)
      ensures Distinct(Inside(s))
    {
      if s != [] {
        InsideDistinct(s[..|s| - 1]);
      }
    }

    // -------------------------------------------------------------------
    // The fence of a region

    /** The sides of plot v that need a fence: those leading off the board
        or to a plot of another crop. */
    function FenceSides(v: Vector, s: seq<Vector>): nat
      requires Shaped() && InBounds(v)
    {
      if s == [] then 0
      else FenceSides(v, s[..|s| - 1])
           + (if !InBounds(s[|s| - 1]) || Crop(s[|s| - 1]) != Crop(v) then 1 else 0)
    }

    function Fence(v: Vector): nat
      requires Shaped() && InBounds(v)
    {
      FenceSides(v, Around(v))
    }

    /** How many plots of s (all on the board) hold another crop than v. */
    function OtherCrops(v: Vector, s: seq<Vector>): nat
      requires Shaped() && InBounds(v) && forall n :: n in s ==> InBounds(n)
    {
      if s == [] then 0
      else OtherCrops(v, s[..|s| - 1]) + (if Crop(s[|s| - 1]) != Crop(v) then 1 else 0)
    }

    /** A side needs a fence when it leads off the board or to another
        crop, which is how GetCost counts. */
    lemma {:induction false} FenceSplits(v: Vector, s: seq<Vector>)
      requires Shaped() && InBounds(v)
      ensures FenceSides(v, s) == (|s| - |Inside(s)|) + OtherCrops(v, Inside(s))
    {
      if s != [] {
        FenceSplits(v, s[..|s| - 1]);
      }
    }

    /** Every plot of s lies on the board. */
    ghost predicate OnBoard(s: seq<Vector>)
    {
      forall n :: n in s ==> InBounds(n)
    }

    ghost function FenceSum(s: seq<Vector>): nat
      requires Shaped() && OnBoard(s)
    {
      if s == [] then 0 else Fence(s[0]) + FenceSum(s[1..])
    }

    lemma {:induction false} FenceSumAppend(s: seq<Vector>, t: seq<Vector>)
      requires Shaped() && OnBoard(s) && OnBoard(t)
      ensures FenceSum(s + t) == FenceSum(s) + FenceSum(t)
    {
      if s == [] {
        assert s + t == t;
      } else {
        assert (s + t)[0] == s[0] && (s + t)[1..] == s[1..] + t;
        FenceSumAppend(s[1..], t);
      }
    }

    // -------------------------------------------------------------------
    // GetCost

    /** Every plot next to p on the board that holds p's crop is in vis. */
    ghost predicate Surrounded(p: Vector, vis: set<Vector>)
      requires Shaped() && InBounds(p)
    {
      forall q :: q in Around(p) && InBounds(q) && Crop(q) == Crop(p) ==> q in vis
    }

    /** Every plot of s lies on the board and is surrounded in vis. */
    ghost predicate Enclosed(s: seq<Vector>, vis: set<Vector>)
      requires Shaped()
    {
      forall p :: p in s ==> InBounds(p) && Surrounded(p, vis)
    }

    lemma EnclosedGrows(s: seq<Vector>, vis: set<Vector>, vis': set<Vector>)
      requires Shaped() && Enclosed(s, vis) && vis <= vis'
      ensures Enclosed(s, vis')
    {
      forall p | p in s
        ensures Surrounded(p, vis')
      {
        assert Surrounded(p, vis);
      }
    }

    lemma EnclosedAppend(s: seq<Vector>, t: seq<Vector>, vis: set<Vector>)
      requires Shaped() && Enclosed(s, vis) && Enclosed(t, vis)
      ensures Enclosed(s + t, vis)
    {
    }

    /** What GetCost promises about the plots it visits, in visiting order,
        starting from v with vis0 visited: they were unvisited, each once,
        the visited set grew by exactly them, and they are a connected run
        of plots of v's crop. */
    ghost predicate Visits(v: Vector, vis0: set<Vector>, vis: set<Vector>, order: seq<Vector>)
      requires Shaped() && InBounds(v)
    {
      && |order| > 0 && order[0] == v && Distinct(order)
      && vis == vis0 + Elems(order) && vis0 !! Elems(order)
      && OfCrop(order, Crop(v))
      && Grown(order)
    }

    /** Every plot of s lies on the board and holds crop c. */
    ghost predicate OfCrop(s: seq<Vector>, c: char)
      requires Shaped()
    {
      OnBoard(s) && forall p :: p in s && InBounds(p) ==> Crop(p) == c
    }

    /** The state of GetCost's loop after the first i neighbours. */
    ghost predicate CostInv(v: Vector, vis0: set<Vector>, vis: set<Vector>, ns: seq<Vector>, oob: nat,
                            i: int, area: int, fence: int, order: seq<Vector>)
      requires Shaped() && InBounds(v)
    {
      && ns == Inside(Around(v)) && oob + |ns| == 4 && 0 <= i <= |ns|
      && OnBoardSet(vis)
      && Visits(v, vis0, vis, order)
      && area == |order|
      && Enclosed(order[1..], vis)
      && (forall k :: 0 <= k < i && Crop(ns[k]) == Crop(v) ==> ns[k] in vis)
      && fence == oob + OtherCrops(v, ns[..i]) + FenceSum(order[1..])
    }

    /** The area and fence of the region of v's crop that holds v, with the
        plots visited (order, ghost). Those plots form a connected run of
        v's crop whose same-crop neighbours are all visited afterwards, the
        area is their number and the fence is the sum of their fences. */
    method GetCost(v: Vector) returns (area: nat, fence: nat, ghost order: seq<Vector>)
      requires Valid() && InBounds(v) && v !in Visited
      modifies this
      ensures Valid() && Visits(v, old(Visited), Visited, order)
      ensures area == |order| && fence == FenceSum(order)
      ensures Enclosed(order, Visited)
      decreases |Cells() - Visited|
    {
      ghost var vis0 := Visited;
      Visited := Visited + {v};
      area := 1;
      order := [v];
      var neighbors, outOfBounds := GetNeighbors(v);
      fence := outOfBounds;
      CostStart(v, vis0, Visited, neighbors, outOfBounds, fence, order);
      for i := 0 to |neighbors|
        invariant CostInv(v, vis0, Visited, neighbors, outOfBounds, i, area, fence, order)
      {
        var c := neighbors[i];
        ghost var vis1, fence1, order1 := Visited, fence, order;
        if Crop(c) != Crop(v) {
          fence := fence + 1;
          OtherStep(v, vis0, Visited, neighbors, outOfBounds, i, area, fence1, order, fence);
        } else if c !in Visited {
          RecurseReady(v, vis0, Visited, neighbors, outOfBounds, i, area, fence, order);
          var carea, cfence, corder := GetCost(c);
          area := area + carea;
          fence := fence + cfence;
          order := order + corder;
          RegionStep(v, vis0, vis1, neighbors, outOfBounds, i, fence1, order1, Visited, corder, fence, order);
        } else {
          SameStep(v, vis0, Visited, neighbors, outOfBounds, i, area, fence, order);
        }
      }
      CostDone(v, vis0, Visited, neighbors, outOfBounds, area, fence, order);
    }

    /** Before recursing on the i-th neighbour: it lies on the board next to
        v, and fewer plots are unvisited than when this call began. */
    lemma RecurseReady(v: Vector, vis0: set<Vector>, vis: set<Vector>, ns: seq<Vector>, oob: nat,
                       i: int, area: int, fence: int, order: seq<Vector>)
      requires Shaped() && InBounds(v)
      requires CostInv(v, vis0, vis, ns, oob, i, area, fence, order) && i < |ns|
      ensures InBounds(ns[i]) && Adjacent(v, ns[i])
      ensures |Cells() - vis| < |Cells() - vis0|
    {
      AroundAdjacent(v, ns[i]);
      assert v in Cells() && v in Elems(order);
      FewerUnvisited(Cells(), vis0, vis, v);
    }

    lemma CostStart(v: Vector, vis0: set<Vector>, vis: set<Vector>, ns: seq<Vector>, oob: nat,
                    fence: int, order: seq<Vector>)
      requires Shaped() && InBounds(v) && OnBoardSet(vis0) && v !in vis0
      requires vis == vis0 + {v} && order == [v] && fence == oob
      requires ns == Inside(Around(v)) && oob + |ns| == 4
      ensures CostInv(v, vis0, vis, ns, oob, 0, 1, fence, order)
    {
      assert ns[..0] == [] && order[1..] == [];
      assert Elems(order) == {v};
    }

    lemma OtherStep(v: Vector, vis0: set<Vector>, vis: set<Vector>, ns: seq<Vector>, oob: nat,
                    i: int, area: int, fence: int, order: seq<Vector>, fence': int)
      requires Shaped() && InBounds(v)
      requires CostInv(v, vis0, vis, ns, oob, i, area, fence, order) && i < |ns|
      requires Crop(ns[i]) != Crop(v) && fence' == fence + 1
      ensures CostInv(v, vis0, vis, ns, oob, i + 1, area, fence', order)
    {
      assert ns[..i + 1][..i] == ns[..i];
    }

    lemma SameStep(v: Vector, vis0: set<Vector>, vis: set<Vector>, ns: seq<Vector>, oob: nat,
                   i: int, area: int, fence: int, order: seq<Vector>)
      requires Shaped() && InBounds(v)
      requires CostInv(v, vis0, vis, ns, oob, i, area, fence, order) && i < |ns|
      requires Crop(ns[i]) == Crop(v) && ns[i] in vis
      ensures CostInv(v, vis0, vis, ns, oob, i + 1, area, fence, order)
    {
      assert ns[..i + 1][..i] == ns[..i];
    }

    /** After the recursive call on a same-crop neighbour: the plots it
        visited join the run. */
    lemma RegionStep(v: Vector, vis0: set<Vector>, vis: set<Vector>, ns: seq<Vector>, oob: nat,
                     i: int, fence: int, order: seq<Vector>,
                     vis': set<Vector>, corder: seq<Vector>, fence': int, order': seq<Vector>)
      requires Shaped() && InBounds(v)
      requires CostInv(v, vis0, vis, ns, oob, i, |order|, fence, order) && i < |ns|
      requires InBounds(ns[i]) && Adjacent(v, ns[i]) && Crop(ns[i]) == Crop(v) && ns[i] !in vis
      requires OnBoardSet(vis') && Visits(ns[i], vis, vis', corder) && Enclosed(corder, vis')
      requires fence' == fence + FenceSum(corder) && order' == order + corder
      ensures CostInv(v, vis0, vis', ns, oob, i + 1, |order'|, fence', order')
    {
      RunJoins(v, vis0, vis, order, vis', corder, order');
      assert order'[1..] == order[1..] + corder;
      assert fence' == oob + OtherCrops(v, ns[..i + 1]) + FenceSum(order'[1..]) by {
        assert ns[..i + 1][..i] == ns[..i];
        FenceSumAppend(order[1..], corder);
      }
      assert Enclosed(order'[1..], vis') by {
        EnclosedGrows(order[1..], vis, vis');
        EnclosedAppend(order[1..], corder, vis');
      }
      assert forall k :: 0 <= k < i + 1 && Crop(ns[k]) == Crop(v) ==> ns[k] in vis' by {
        assert vis <= vis';
      }
    }

    /** The run visited from a same-crop neighbour extends the run from v. */
    lemma RunJoins(v: Vector, vis0: set<Vector>, vis: set<Vector>, order: seq<Vector>,
                   vis': set<Vector>, corder: seq<Vector>, order': seq<Vector>)
      requires Shaped() && InBounds(v) && Visits(v, vis0, vis, order)
      requires |corder| > 0 && InBounds(corder[0]) && Adjacent(v, corder[0]) && Crop(corder[0]) == Crop(v)
      requires Visits(corder[0], vis, vis', corder) && order' == order + corder
      ensures Visits(v, vis0, vis', order')
    {
      GrownAppend(order, corder, 0);
      ElemsAppend(order, corder);
      DistinctAppend(order, corder);
    }

    lemma CostDone(v: Vector, vis0: set<Vector>, vis: set<Vector>, ns: seq<Vector>, oob: nat,
                   area: int, fence: int, order: seq<Vector>)
      requires Shaped() && InBounds(v)
      requires CostInv(v, vis0, vis, ns, oob, |ns|, area, fence, order)
      ensures OnBoardSet(vis) && Visits(v, vis0, vis, order)
      ensures area == |order| && fence == FenceSum(order)
      ensures Enclosed(order, vis)
    {
      assert ns[..|ns|] == ns;
      FenceSplits(v, Around(v));
      assert order == [v] + order[1..];
      forall q | q in Around(v) && InBounds(q) && Crop(q) == Crop(v)
        ensures q in vis
      {
        var k :| 0 <= k < |ns| && ns[k] == q;
      }
      assert Surrounded(v, vis);
      EnclosedAppend([v], order[1..], vis);
    }

    // -------------------------------------------------------------------
    // The regions main prices

    /** A region as GetCost finds it: distinct plots of one crop, connected,
        and holding every same-crop neighbour of its plots. */
    ghost predicate IsRegion(r: seq<Vector>)
      requires Shaped()
    {
      && |r| > 0 && Distinct(r) && OnBoard(r) && InBounds(r[0])
      && OfCrop(r, Crop(r[0]))
      && Grown(r)
      && Enclosed(r, Elems(r))
    }

    /** Two regions that share a plot hold the same plots: a region is a
        connected component of the plots of one crop. */
    lemma RegionsMeet(r1: seq<Vector>, r2: seq<Vector>, p: Vector)
      requires Shaped() && IsRegion(r1) && IsRegion(r2) && p in r1 && p in r2
      ensures Elems(r1) == Elems(r2)
    {
      var m1 :| 0 <= m1 < |r1| && r1[m1] == p;
      var m2 :| 0 <= m2 < |r2| && r2[m2] == p;
      RootIn(r1, r2, m1);
      AllIn(r1, r2, |r1|);
      RootIn(r2, r1, m2);
      AllIn(r2, r1, |r2|);
    }

    /** Plots next to each other with the same crop: a region holding one
        holds the other. */
    lemma Spreads(r: seq<Vector>, p: Vector, q: Vector)
      requires Shaped() && IsRegion(r) && p in r && InBounds(q) && Adjacent(p, q)
      requires Crop(q) == Crop(p)
      ensures q in r
    {
      AroundAdjacent(p, q);
      assert Surrounded(p, Elems(r));
    }

    /** If r1[m] lies in the region r2, so does r1[0]: walk back along the
        plots r1[m] was joined to. */
    lemma {:induction false} RootIn(r1: seq<Vector>, r2: seq<Vector>, m: nat)
      requires Shaped() && IsRegion(r1) && IsRegion(r2) && m < |r1| && r1[m] in r2
      ensures r1[0] in r2
      decreases m
    {
      if m > 0 {
        assert Joined(r1, m);
        var k :| 0 <= k < m && Adjacent(r1[k], r1[m]);
        assert Adjacent(r1[m], r1[k]);
        Spreads(r2, r1[m], r1[k]);
        RootIn(r1, r2, k);
      }
    }

    /** If r1[0] lies in the region r2, so does every plot of r1[..n]. */
    lemma {:induction false} AllIn(r1: seq<Vector>, r2: seq<Vector>, n: nat)
      requires Shaped() && IsRegion(r1) && IsRegion(r2) && n <= |r1| && r1[0] in r2
      ensures forall j :: 0 <= j < n ==> r1[j] in r2
    {
      if n > 1 {
        AllIn(r1, r2, n - 1);
        assert Joined(r1, n - 1);
        var k :| 0 <= k < n - 1 && Adjacent(r1[k], r1[n - 1]);
        Spreads(r2, r1[k], r1[n - 1]);
      }
    }

    function Concat(rs: seq<seq<Vector>>): seq<Vector>
    {
      if rs == [] then [] else Concat(rs[..|rs| - 1]) + rs[|rs| - 1]
    }

    ghost function Price(rs: seq<seq<Vector>>): int
      requires Shaped() && forall r :: r in rs ==> IsRegion(r)
    {
      if rs == [] then 0
      else
        var r := rs[|rs| - 1];
        assert r in rs && IsRegion(r);
        Price(rs[..|rs| - 1]) + |r| * FenceSum(r)
    }

    lemma PriceAppend(rs: seq<seq<Vector>>, r: seq<Vector>)
      requires Shaped() && IsRegion(r) && forall r' :: r' in rs ==> IsRegion(r')
      ensures Price(rs + [r]) == Price(rs) + |r| * FenceSum(r)
    {
      assert (rs + [r])[..|rs|] == rs;
    }

    /** Every same-crop neighbour of a visited plot is visited. */
    ghost predicate Closed(vis: set<Vector>)
      requires Shaped()
    {
      forall p :: p in vis ==> InBounds(p) && Surrounded(p, vis)
    }

    /** The plots before (x, y) in reading order. */
    ghost function Before(y: int, x: int): set<Vector>
      requires Shaped()
    {
      set p | p in Cells() && (p.y < y || (p.y == y && p.x < x))
    }

    /** The state of main's scan before plot (x, y): the plots before it in
        reading order are visited, and the visited plots are the regions
        found, each once. */
    ghost predicate ScanInv(y: int, x: int, vis: set<Vector>, regions: seq<seq<Vector>>)
      requires Shaped()
    {
      && Before(y, x) <= vis && OnBoardSet(vis)
      && vis == Elems(Concat(regions))
      && Distinct(Concat(regions))
      && (forall r :: r in regions ==> IsRegion(r))
      && Closed(vis)
    }

    /** The price main computes: every plot is visited, the regions found
        hold every plot once, and cost is the sum of area times fence over
        them. */
    method TotalCost() returns (cost: int, ghost regions: seq<seq<Vector>>)
      requires Valid() && Visited == {}
      modifies this
      ensures Valid() && Visited == Cells()
      ensures forall r :: r in regions ==> IsRegion(r)
      ensures Elems(Concat(regions)) == Cells() && Distinct(Concat(regions))
      ensures cost == Price(regions)
    {
      cost := 0;
      regions := [];
      ScanStart();
      for y := 0 to Size.y
        invariant ScanInv(y, 0, Visited, regions) && cost == Price(regions)
      {
        for x := 0 to Size.x
          invariant ScanInv(y, x, Visited, regions) && cost == Price(regions)
        {
          var v := Vector(x, y);
          ghost var vis0, regions0 := Visited, regions;
          if v !in Visited {
            var area, fence, region := GetCost(v);
            cost := cost + area as int * fence as int;
            regions := regions + [region];
            ScanStep(y, x, vis0, regions0, Visited, region, regions);
            PriceAppend(regions0, region);
          } else {
            ScanSkip(y, x, Visited, regions);
          }
        }
        RowDone(y, Visited, regions);
      }
      ScanDone(Visited, regions);
    }

    lemma ScanStart()
      requires Shaped()
      ensures ScanInv(0, 0, {}, [])
    {
      assert Before(0, 0) == {};
    }

    lemma BeforeNext(y: int, x: int)
      requires Shaped() && 0 <= y < Size.y && 0 <= x < Size.x
      ensures Before(y, x + 1) == Before(y, x) + {Vector(x, y)}
    {
    }

    lemma ScanSkip(y: int, x: int, vis: set<Vector>, regions: seq<seq<Vector>>)
      requires Shaped() && 0 <= y < Size.y && 0 <= x < Size.x
      requires ScanInv(y, x, vis, regions) && Vector(x, y) in vis
      ensures ScanInv(y, x + 1, vis, regions)
    {
      BeforeNext(y, x);
    }

    lemma RowDone(y: int, vis: set<Vector>, regions: seq<seq<Vector>>)
      requires Shaped() && ScanInv(y, Size.x, vis, regions)
      ensures ScanInv(y + 1, 0, vis, regions)
    {
      assert Before(y + 1, 0) == Before(y, Size.x);
    }

    lemma ScanDone(vis: set<Vector>, regions: seq<seq<Vector>>)
      requires Shaped() && ScanInv(Size.y, 0, vis, regions)
      ensures vis == Cells()
    {
      assert Before(Size.y, 0) == Cells();
    }

    /** A region found at (x, y) extends the scan by one plot. */
    lemma ScanStep(y: int, x: int, vis0: set<Vector>, regions0: seq<seq<Vector>>,
                   vis: set<Vector>, region: seq<Vector>, regions: seq<seq<Vector>>)
      requires Shaped() && 0 <= y < Size.y && 0 <= x < Size.x && Vector(x, y) !in vis0
      requires ScanInv(y, x, vis0, regions0)
      requires OnBoardSet(vis) && Visits(Vector(x, y), vis0, vis, region) && Enclosed(region, vis)
      requires regions == regions0 + [region]
      ensures ScanInv(y, x + 1, vis, regions) && IsRegion(region)
    {
      BeforeNext(y, x);
      assert regions[..|regions| - 1] == regions0;
      assert Concat(regions) == Concat(regions0) + region;
      ElemsAppend(Concat(regions0), region);
      DistinctAppend(Concat(regions0), region);
      RegionFound(vis0, vis, region);
    }

    /** A run GetCost visits from an unvisited plot when the visited plots
        were closed is a whole region, and the visited plots stay closed. */
    lemma RegionFound(vis0: set<Vector>, vis: set<Vector>, region: seq<Vector>)
      requires Shaped() && Closed(vis0) && |region| > 0 && InBounds(region[0])
      requires Visits(region[0], vis0, vis, region) && Enclosed(region, vis)
      ensures IsRegion(region) && Closed(vis)
    {
      forall p | p in region
        ensures Surrounded(p, Elems(region))
      {
        forall q | q in Around(p) && InBounds(q) && Crop(q) == Crop(p)
          ensures q in Elems(region)
        {
          assert Surrounded(p, vis);
          if q in vis0 {
            AroundAdjacent(p, q);
            AroundAdjacent(q, p);
            assert false;
          }
        }
      }
      forall p | p in vis
        ensures InBounds(p) && Surrounded(p, vis)
      {
        if p in vis0 {
          assert Surrounded(p, vis0);
        } else {
          assert Surrounded(p, vis);
        }
      }
    }
  }
}
