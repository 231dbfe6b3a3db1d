/** Day 20, part 2: cheats of up to 20 moves through anything. The maze, its
    reading and both sweeps are those of part 1 (20-2/main.go repeats them);
    what changes is the set of landing cells around each dequeued cell. */
module RaceCheats {
  import opened Vectors
  import opened GoInt
  import opened RaceMaze

  /** The radius NeighborsX always uses. */
  const Reach: int := 20

  // -------------------------------------------------------------------
  // The diamond of landing cells

  /** The first `n` cells of row `dy` of the diamond around `v`, left to
      right, without `v` itself. */
  function RowCells(v: Vector, dy: int, n: nat): seq<Vector>
  {
    if n == 0 then []
    else
      var dx := -(Reach - Abs(dy)) + n - 1;
      RowCells(v, dy, n - 1) + (if dx == 0 && dy == 0 then [] else [Vector(v.x + dx, v.y + dy)])
  }

  /** The width of row `dy` of the diamond. */
  function RowWidth(dy: int): nat
    requires -Reach <= dy <= Reach
  {
    2 * (Reach - Abs(dy)) + 1
  }

  /** The first `n` rows of the diamond around `v`, top to bottom. */
  function Rows(v: Vector, n: nat): seq<Vector>
    requires n <= 2 * Reach + 1
  {
    if n == 0 then []
    else
      var dy := -Reach + n - 1;
      Rows(v, n - 1) + RowCells(v, dy, RowWidth(dy))
  }

  /** Every cell NeighborsX lists, in its order. */
  function Diamond(v: Vector): seq<Vector>
  {
    Rows(v, 2 * Reach + 1)
  }

  lemma {:induction false} InRowCells(v: Vector, dy: int, n: nat, u: Vector)
    ensures u in RowCells(v, dy, n) <==>
            u.y == v.y + dy && -(Reach - Abs(dy)) <= u.x - v.x < -(Reach - Abs(dy)) + n && u != v
  {
    if n > 0 {
      InRowCells(v, dy, n - 1, u);
    }
  }

  lemma {:induction false} InRows(v: Vector, n: nat, u: Vector)
    requires n <= 2 * Reach + 1
    ensures u in Rows(v, n) <==>
            -Reach <= u.y - v.y < -Reach + n && Abs(u.x - v.x) <= Reach - Abs(u.y - v.y) && u != v
  {
    if n > 0 {
      var dy := -Reach + n - 1;
      InRows(v, n - 1, u);
      InRowCells(v, dy, RowWidth(dy), u);
    }
  }

  /** The diamond is the set of cells one to twenty moves from `v`. */
  lemma InDiamond(v: Vector, u: Vector)
    ensures u in Diamond(v) <==> 1 <= ManhattanDist(v, u) <= Reach
  {
    InRows(v, 2 * Reach + 1, u);
  }

  lemma DistinctSnoc(s: seq<Vector>, a: Vector)
    requires Distinct(s) && a !in s
    ensures Distinct(s + [a])
  {
  }

  lemma DistinctConcat(s: seq<Vector>, t: seq<Vector>)
    requires Distinct(s) && Distinct(t)
    requires forall u :: u in s ==> u !in t
    ensures Distinct(s + t)
  {
    forall i, j | 0 <= i < j < |s + t|
      ensures (s + t)[i] != (s + t)[j]
    {
      if i < |s| && j >= |s| {
        assert (s + t)[i] in s && (s + t)[j] == t[j - |s|];
      }
    }
  }

  lemma {:induction false} RowCellsDistinct(v: Vector, dy: int, n: nat)
    ensures Distinct(RowCells(v, dy, n))
  {
    if n > 0 {
      RowCellsDistinct(v, dy, n - 1);
      var dx := -(Reach - Abs(dy)) + n - 1;
      var u := Vector(v.x + dx, v.y + dy);
      InRowCells(v, dy, n - 1, u);
      if !(dx == 0 && dy == 0) {
        DistinctSnoc(RowCells(v, dy, n - 1), u);
      }
    }
  }

  lemma {:induction false} RowsDistinct(v: Vector, n: nat)
    requires n <= 2 * Reach + 1
    ensures Distinct(Rows(v, n))
  {
    if n > 0 {
      var dy := -Reach + n - 1;
      RowsDistinct(v, n - 1);
      RowCellsDistinct(v, dy, RowWidth(dy));
      forall u | u in Rows(v, n - 1)
        ensures u !in RowCells(v, dy, RowWidth(dy))
      {
        InRows(v, n - 1, u);
        InRowCells(v, dy, RowWidth(dy), u);
      }
      DistinctConcat(Rows(v, n - 1), RowCells(v, dy, RowWidth(dy)));
    }
  }

  /** No cell is listed twice, so no cheat is found twice from one cell. */
  lemma DiamondDistinct(v: Vector)
    ensures Distinct(Diamond(v))
  {
    RowsDistinct(v, 2 * Reach + 1);
  }

  /** NeighborsX: the rows from twenty above to twenty below, each as wide as
      the moves left after the vertical ones allow; the radius argument is
      not used, the loops always reach twenty. */
  method NeighborsX(v: Vector, dist: int) returns (neighbors: seq<Vector>)
    ensures neighbors == Diamond(v)
  {
    neighbors := [];
    var dy := -Reach;
    while dy <= Reach
      invariant -Reach <= dy <= Reach + 1
      invariant neighbors == Rows(v, dy + Reach)
    {
      var stepsLeft := Reach - Abs(dy);
      var dx := -stepsLeft;
      while dx <= stepsLeft
        invariant -stepsLeft <= dx <= stepsLeft + 1
        invariant neighbors == Rows(v, dy + Reach) + RowCells(v, dy, dx + stepsLeft)
      {
        if dx == 0 && dy == 0 {
          dx := dx + 1;
          continue;
        }
        neighbors := neighbors + [Vector(v.x + dx, v.y + dy)];
        dx := dx + 1;
      }
      dy := dy + 1;
    }
  }

  // -------------------------------------------------------------------
  // The cheats

  /** The test for one landing cell `n` of a cell `f` at distance `d` from
      the start: off the grid, a wall, or (in the model) a cell that cannot
      reach End gives nothing; otherwise the cheat costs the moves to `f`,
      the Manhattan distance to `n` and the moves from `n` to End. */
  function CheatLanding(m: Maze, d: int, dEnd: map<Vector, int>, fastest: int, f: Vector, n: Vector): seq<Shortcut>
  {
    if IsOOB(n, m.Size) || n in m.Walls || n !in dEnd then []
    else if d + ManhattanDist(f, n) + dEnd[n] < fastest then [Shortcut(f, n, d + ManhattanDist(f, n) + dEnd[n])]
    else []
  }

  function CheatLandings(m: Maze, d: int, dEnd: map<Vector, int>, fastest: int, f: Vector, ns: seq<Vector>): seq<Shortcut>
  {
    if |ns| == 0 then []
    else CheatLandings(m, d, dEnd, fastest, f, ns[..|ns| - 1]) + CheatLanding(m, d, dEnd, fastest, f, ns[|ns| - 1])
  }

  /** The cheats from each cell of `fs` in turn. */
  function CheatsAlong(m: Maze, fs: seq<Vector>, dStart: map<Vector, int>, dEnd: map<Vector, int>, fastest: int): seq<Shortcut>
    requires forall f :: f in fs ==> f in dStart
  {
    if |fs| == 0 then []
    else
      var f := fs[|fs| - 1];
      CheatsAlong(m, fs[..|fs| - 1], dStart, dEnd, fastest) + CheatLandings(m, dStart[f], dEnd, fastest, f, Diamond(f))
  }

  /** The landing loop of SolveShortcuts for one dequeued cell `f` at
      distance `d` from the start. */
  method CheatHops(m: Maze, f: Vector, d: int, fastest: int) returns (found: seq<Shortcut>)
    ensures found == CheatLandings(m, d, m.DistToEnd, fastest, f, Diamond(f))
  {
    var ns := NeighborsX(f, Reach);
    found := [];
    for k := 0 to |ns|
      invariant found == CheatLandings(m, d, m.DistToEnd, fastest, f, ns[..k])
    {
      var n := ns[k];
      assert ns[..k + 1][..k] == ns[..k];
      if IsOOB(n, m.Size) || n in m.Walls || n !in m.DistToEnd {
        continue;
      }
      var dist := d + ManhattanDist(f, n) + m.DistToEnd[n];
      if dist < fastest {
        found := found + [Shortcut(f, n, dist)];
      }
    }
    assert ns[..|ns|] == ns;
  }

  lemma {:induction false} CheatsFrame(m: Maze, fs: seq<Vector>, dStart: map<Vector, int>, dStart': map<Vector, int>,
                                       dEnd: map<Vector, int>, fastest: int)
    requires forall f :: f in fs ==> f in dStart
    requires forall c :: c in dStart ==> c in dStart' && dStart'[c] == dStart[c]
    ensures CheatsAlong(m, fs, dStart, dEnd, fastest) == CheatsAlong(m, fs, dStart', dEnd, fastest)
  {
    if |fs| > 0 {
      CheatsFrame(m, fs[..|fs| - 1], dStart, dStart', dEnd, fastest);
    }
  }

  lemma CheatsSnoc(m: Maze, fs: seq<Vector>, f: Vector, dStart: map<Vector, int>, dEnd: map<Vector, int>, fastest: int)
    requires forall c :: c in fs ==> c in dStart
    requires f in dStart
    ensures forall c :: c in fs + [f] ==> c in dStart
    ensures CheatsAlong(m, fs + [f], dStart, dEnd, fastest) ==
            CheatsAlong(m, fs, dStart, dEnd, fastest) + CheatLandings(m, dStart[f], dEnd, fastest, f, Diamond(f))
  {
    assert (fs + [f])[..|fs|] == fs;
  }

  lemma CheatsStep(m: Maze, order: seq<Vector>, head: int, f: Vector, dist: map<Vector, int>, dist': map<Vector, int>,
                   pushed: seq<Vector>, dEnd: map<Vector, int>, fastest: int)
    requires Listed(dist, order) && 0 <= head < |order| && f == order[head]
    requires forall c :: c in dist ==> c in dist' && dist'[c] == dist[c]
    ensures forall c :: c in (order + pushed)[..head + 1] ==> c in dist'
    ensures CheatsAlong(m, (order + pushed)[..head + 1], dist', dEnd, fastest) ==
            CheatsAlong(m, order[..head], dist, dEnd, fastest) + CheatLandings(m, dist'[f], dEnd, fastest, f, Diamond(f))
  {
    var done := order[..head];
    assert (order + pushed)[..head + 1] == done + [f];
    assert forall c :: c in done ==> c in dist by {
      forall c | c in done
        ensures c in dist
      {
        var i :| 0 <= i < |done| && done[i] == c;
        assert order[i] in order;
      }
    }
    assert order[head] in order;
    CheatsFrame(m, done, dist, dist', dEnd, fastest);
    CheatsSnoc(m, done, f, dist', dEnd, fastest);
  }

  /** SolveShortcuts of part 2: the sweep from Start sets DistToStart as in
      part 1, and each dequeued cell contributes its cheats, in queue order. */
  method SolveShortcuts(m: Maze, fastest: int) returns (shortcuts: seq<Shortcut>, ghost order: seq<Vector>)
    requires m.Rectangular() && m.Sealed(m.Start) && m.DistToStart == map[]
    modifies m
    ensures m.DistToEnd == old(m.DistToEnd)
    ensures m.Solved(m.DistToStart, m.Start) && Listed(m.DistToStart, order) && order[0] == m.Start
    ensures shortcuts == CheatsAlong(m, order, m.DistToStart, m.DistToEnd, fastest)
  {
    var dist := map[m.Start := 0];
    var frontiers := [m.Start];
    order := [m.Start];
    ghost var head := 0;
    shortcuts := [];
    m.BfsStart(m.Start);
    while |frontiers| > 0
      invariant m.BfsInv(dist, order, head, m.Start) && frontiers == order[head..]
      invariant shortcuts == CheatsAlong(m, order[..head], dist, m.DistToEnd, fastest)
      modifies {}
      decreases m.Cells - dist.Keys, |frontiers|
    {
      ghost var dist0, order0, head0, frontiers0 := dist, order, head, frontiers;
      var frontier := frontiers[0];
      frontiers := frontiers[1..];
      var pushed;
      dist, pushed := m.Relax(dist, frontier);
      frontiers := frontiers + pushed;
      var found := CheatHops(m, frontier, dist[frontier], fastest);
      shortcuts := shortcuts + found;
      order, head := order + pushed, head + 1;
      m.SweepTurn(dist0, order0, head0, frontiers0, m.Start, frontier, dist, pushed, order, head, frontiers);
      ExtendKeeps(dist0, pushed, dist0[frontier] + 1);
      CheatsStep(m, order0, head0, frontier, dist0, dist, pushed, m.DistToEnd, fastest);
    }
    assert order[..head] == order;
    m.BfsDone(dist, order, m.Start);
    m.DistToStart := dist;
  }

  // -------------------------------------------------------------------
  // What the cheat list holds

  /** `s` is the cheat from `f`, at distance `d` from the start, to the open
      cell `n` on the grid that `dEnd` records, beating `fastest`. */
  predicate CheatTo(m: Maze, d: int, dEnd: map<Vector, int>, fastest: int, f: Vector, n: Vector, s: Shortcut)
  {
    !IsOOB(n, m.Size) && n !in m.Walls && n in dEnd &&
    s == Shortcut(f, n, d + ManhattanDist(f, n) + dEnd[n]) && s.dist < fastest
  }

  lemma {:induction false} InCheatLandings(m: Maze, d: int, dEnd: map<Vector, int>, fastest: int, f: Vector,
                                           ns: seq<Vector>, s: Shortcut)
    ensures s in CheatLandings(m, d, dEnd, fastest, f, ns) <==>
            exists n :: n in ns && CheatTo(m, d, dEnd, fastest, f, n, s)
  {
    if |ns| > 0 {
      var pre, n := ns[..|ns| - 1], ns[|ns| - 1];
      InCheatLandings(m, d, dEnd, fastest, f, pre, s);
      assert ns == pre + [n];
      if s in CheatLandings(m, d, dEnd, fastest, f, ns) && s !in CheatLandings(m, d, dEnd, fastest, f, pre) {
        assert CheatTo(m, d, dEnd, fastest, f, n, s);
      }
    }
  }

  lemma {:induction false} InCheatsAlong(m: Maze, fs: seq<Vector>, dStart: map<Vector, int>, dEnd: map<Vector, int>,
                                         fastest: int, s: Shortcut)
    requires forall f :: f in fs ==> f in dStart
    ensures s in CheatsAlong(m, fs, dStart, dEnd, fastest) <==>
            exists f :: f in fs && s in CheatLandings(m, dStart[f], dEnd, fastest, f, Diamond(f))
  {
    if |fs| > 0 {
      var pre, f := fs[..|fs| - 1], fs[|fs| - 1];
      assert fs == pre + [f];
      InCheatsAlong(m, pre, dStart, dEnd, fastest, s);
    }
  }

  /** A cheat from a cell `dStart` records to a cell one to twenty moves
      away that is open, on the grid and recorded by `dEnd`, beating
      `fastest`. */
  ghost predicate Cheat(m: Maze, dStart: map<Vector, int>, dEnd: map<Vector, int>, fastest: int, s: Shortcut)
  {
    exists f, n :: f in dStart && 1 <= ManhattanDist(f, n) <= Reach && CheatTo(m, dStart[f], dEnd, fastest, f, n, s)
  }

  /** The list SolveShortcuts returns holds exactly the cheats `Cheat`
      describes; with both maps solved, each from a cell reachable from
      Start to a cell that reaches End, costing the fewest moves to the
      first, the Manhattan distance between them and the fewest moves from
      the second to End. */
  lemma CheatsFound(m: Maze, order: seq<Vector>, dStart: map<Vector, int>, dEnd: map<Vector, int>,
                    fastest: int, s: Shortcut)
    requires Listed(dStart, order)
    ensures forall f :: f in order ==> f in dStart
    ensures s in CheatsAlong(m, order, dStart, dEnd, fastest) <==> Cheat(m, dStart, dEnd, fastest, s)
  {
    InCheatsAlong(m, order, dStart, dEnd, fastest, s);
    if s in CheatsAlong(m, order, dStart, dEnd, fastest) {
      var f :| f in order && s in CheatLandings(m, dStart[f], dEnd, fastest, f, Diamond(f));
      InCheatLandings(m, dStart[f], dEnd, fastest, f, Diamond(f), s);
      var n :| n in Diamond(f) && CheatTo(m, dStart[f], dEnd, fastest, f, n, s);
      InDiamond(f, n);
      assert f in dStart;
    }
    if Cheat(m, dStart, dEnd, fastest, s) {
      var f, n :| f in dStart && 1 <= ManhattanDist(f, n) <= Reach && CheatTo(m, dStart[f], dEnd, fastest, f, n, s);
      InDiamond(f, n);
      InCheatLandings(m, dStart[f], dEnd, fastest, f, Diamond(f), s);
      assert f in order;
    }
  }

  // -------------------------------------------------------------------
  // The landing as the source computes it

  /** The landing test of SolveShortcuts as written: only walls and cells
      off the grid are skipped, and the sum is taken in 64-bit `int`, so a
      landing no sweep reached contributes MaxInt to it. */
  function CheatLandingAsWritten(m: Maze, d: int, dEnd: map<Vector, int>, fastest: int, f: Vector, n: Vector): (r: seq<Shortcut>)
    ensures |r| <= 1
    ensures r != [] ==> r[0].pos1 == f && r[0].pos2 == n && r[0].dist < fastest && !IsOOB(n, m.Size) && n !in m.Walls
  {
    if IsOOB(n, m.Size) || n in m.Walls then []
    else
      var dist := Wrap64(d + ManhattanDist(f, n) + DistAt(dEnd, n));
      if dist < fastest then [Shortcut(f, n, dist)] else []
  }

  /** Where the landing reaches End and the sum fits in 64 bits, the code as
      written and the model agree. */
  lemma CheatLandingReachedAgrees(m: Maze, d: int, dEnd: map<Vector, int>, fastest: int, f: Vector, n: Vector)
    requires n in dEnd && -MaxInt - 1 <= d + ManhattanDist(f, n) + dEnd[n] <= MaxInt
    ensures CheatLandingAsWritten(m, d, dEnd, fastest, f, n) == CheatLanding(m, d, dEnd, fastest, f, n)
  {
  }

  /** A landing that cannot reach End: the code as written records a cheat
      the model drops, and its saving wraps to at least 100 once the cell
      plus the jump lie two or more moves beyond the fastest race. */
  lemma UnreachableCheatCounted(m: Maze, d: int, dEnd: map<Vector, int>, fastest: int, f: Vector, n: Vector)
    requires !IsOOB(n, m.Size) && n !in m.Walls && n !in dEnd
    requires 0 <= d && 0 <= fastest <= MaxInt
    requires fastest + 2 <= d + ManhattanDist(f, n) <= fastest + 0x1_0000
    ensures CheatLanding(m, d, dEnd, fastest, f, n) == []
    ensures CheatLandingAsWritten(m, d, dEnd, fastest, f, n) == [Shortcut(f, n, d + ManhattanDist(f, n) - MaxInt - 2)]
    ensures Saving(fastest, CheatLandingAsWritten(m, d, dEnd, fastest, f, n)[0]) >= 100
  {
    assert DistAt(dEnd, n) == MaxInt;
    var x := d + ManhattanDist(f, n) + MaxInt;
    assert MaxInt < x <= MaxInt + 0x1_0000_0000_0000_0000;
    assert Wrap64(x) == x - 0x1_0000_0000_0000_0000;
  }
}
