/** Day 6, part 1 (06-1/main.go): a guard walks a grid, turning right in
    front of an obstacle and otherwise stepping ahead, until the next step
    would leave the grid; the answer is the number of cells visited.

    The grid is a sequence of rows indexed [y][x], rewritten as the Go code
    rewrites its [][]CellStatus. Whether the guard turns or moves depends
    only on where the obstacles are, so the walk itself is specified on the
    grid of obstacles, Blocked(grid), which marking cells visited leaves
    alone. */
module GuardWalk {
  import opened Vectors
  import opened Grids

  datatype Option<T> = None | Some(value: T)

  datatype CellStatus = CellEmpty | CellObstacle | CellVisited

  datatype Dir = DirUp | DirRight | DirDown | DirLeft

  /** The guard's quarter turn clockwise. */
  function TurnRight(d: Dir): Dir
  {
    match d
    case DirUp => DirRight
    case DirRight => DirDown
    case DirDown => DirLeft
    case DirLeft => DirUp
  }

  /** Four quarter turns bring the guard back to its heading, and no fewer
      do. */
  lemma FourTurns(d: Dir)
    ensures TurnRight(TurnRight(TurnRight(TurnRight(d)))) == d
    ensures TurnRight(d) != d && TurnRight(TurnRight(d)) != d && TurnRight(TurnRight(TurnRight(d))) != d
  {
  }

  /** The neighbouring cell in direction d; y grows downwards. */
  function Ahead(p: Vector, d: Dir): Vector
  {
    match d
    case DirUp => Vector(p.x, p.y - 1)
    case DirRight => Vector(p.x + 1, p.y)
    case DirDown => Vector(p.x, p.y + 1)
    case DirLeft => Vector(p.x - 1, p.y)
  }

  /** Board.nextPos: the cell ahead, or nothing when the step would leave
      the grid (the right edge is read from the guard's own row). */
  function NextPos<T>(g: seq<seq<T>>, p: Vector, d: Dir): (r: Option<Vector>)
    requires 0 <= p.y < |g|
    ensures r.Some? ==> r.value == Ahead(p, d)
  {
    match d
    case DirUp => if p.y <= 0 then None else Some(Vector(p.x, p.y - 1))
    case DirRight => if p.x >= |g[p.y]| - 1 then None else Some(Vector(p.x + 1, p.y))
    case DirDown => if p.y >= |g| - 1 then None else Some(Vector(p.x, p.y + 1))
    case DirLeft => if p.x <= 0 then None else Some(Vector(p.x - 1, p.y))
  }

  /** On a rectangular grid nextPos fails exactly when the cell ahead is off
      the grid. */
  lemma NextPosLeaves<T>(g: seq<seq<T>>, p: Vector, d: Dir)
    requires Rectangular(g) && InGrid(g, p)
    ensures NextPos(g, p, d).None? <==> !InGrid(g, Ahead(p, d))
  {
  }

  /** Where the obstacles are. */
  function Blocked(g: seq<seq<CellStatus>>): (b: seq<seq<bool>>)
    ensures |b| == |g| && forall y :: 0 <= y < |g| ==> |b[y]| == |g[y]|
  {
    seq(|g|, y requires 0 <= y < |g| => seq(|g[y]|, x requires 0 <= x < |g[y]| => g[y][x] == CellObstacle))
  }

  /** The obstacle layer has the grid's cells. */
  lemma BlockedShape(g: seq<seq<CellStatus>>)
    ensures Rectangular(g) ==> Rectangular(Blocked(g))
    ensures forall v :: InGrid(Blocked(g), v) <==> InGrid(g, v)
  {
  }

  /** A cell is blocked exactly when it holds an obstacle. */
  lemma BlockedAt(g: seq<seq<CellStatus>>, v: Vector)
    requires InGrid(g, v)
    ensures InGrid(Blocked(g), v) && (At(Blocked(g), v) <==> At(g, v) == CellObstacle)
  {
  }

  /** Marking a free cell leaves the obstacles where they were. */
  lemma BlockedSet(g: seq<seq<CellStatus>>, v: Vector, c: CellStatus)
    requires InGrid(g, v) && At(g, v) != CellObstacle && c != CellObstacle
    ensures Blocked(Set(g, v, c)) == Blocked(g)
  {
    var h := Set(g, v, c);
    forall y | 0 <= y < |g|
      ensures Blocked(h)[y] == Blocked(g)[y]
    {
      assert forall x :: 0 <= x < |g[y]| ==> (h[y][x] == CellObstacle <==> g[y][x] == CellObstacle);
    }
  }

  datatype Guard = Guard(pos: Vector, dir: Dir)

  /** One turn of the walk loop: nothing when the guard steps off the grid;
      a quarter turn in place with an obstacle ahead; else a step ahead. */
  function Step(b: seq<seq<bool>>, w: Guard): (r: Option<Guard>)
    requires Rectangular(b) && InGrid(b, w.pos)
    ensures r.None? <==> !InGrid(b, Ahead(w.pos, w.dir))
    ensures r.Some? ==> InGrid(b, r.value.pos) && (r.value.pos == w.pos || !At(b, r.value.pos))
    ensures r.Some? && r.value.pos == w.pos ==> r.value.dir == TurnRight(w.dir)
    ensures r.Some? && r.value.pos != w.pos ==> r.value == Guard(Ahead(w.pos, w.dir), w.dir)
    ensures r.Some? ==> (r.value.pos == w.pos <==> At(b, Ahead(w.pos, w.dir)))
  {
    NextPosLeaves(b, w.pos, w.dir);
    match NextPos(b, w.pos, w.dir)
    case None => None
    case Some(q) => if At(b, q) then Some(Guard(w.pos, TurnRight(w.dir))) else Some(Guard(q, w.dir))
  }

  /** The cells the guard steps into, in order, until it leaves the grid;
      nothing when it has not left within fuel turns of the loop. */
  ghost function Run(b: seq<seq<bool>>, w: Guard, fuel: nat): (r: Option<seq<Vector>>)
    requires Rectangular(b) && InGrid(b, w.pos)
    ensures r.Some? ==> forall i :: 0 <= i < |r.value| ==> InGrid(b, r.value[i]) && !At(b, r.value[i])
    decreases fuel
  {
    match Step(b, w)
    case None => Some([])
    case Some(w') =>
      if fuel == 0 then None
      else match Run(b, w', fuel - 1)
        case None => None
        case Some(t) => Some(if w'.pos != w.pos then [w'.pos] + t else t)
  }

  /** The walk ends with nothing more entered once the next step leaves
      the grid. */
  lemma RunDone(b: seq<seq<bool>>, w: Guard, fuel: nat)
    requires Rectangular(b) && InGrid(b, w.pos) && Step(b, w).None?
    ensures Run(b, w, fuel) == Some([])
  {
  }

  /** Unfolding the walk by one turn of the loop. */
  lemma RunStep(b: seq<seq<bool>>, w: Guard, fuel: nat)
    requires Rectangular(b) && InGrid(b, w.pos) && Run(b, w, fuel).Some? && Step(b, w).Some?
    ensures fuel > 0 && Run(b, Step(b, w).value, fuel - 1).Some?
    ensures Run(b, w, fuel).value
            == (if Step(b, w).value.pos != w.pos then [Step(b, w).value.pos] else [])
               + Run(b, Step(b, w).value, fuel - 1).value
  {
  }

  /** The guard at w, with fuel turns to go, is on its way through trace
      and has already entered the cells of done. */
  ghost predicate OnTrace(b: seq<seq<bool>>, w: Guard, fuel: nat, done: seq<Vector>, trace: seq<Vector>)
  {
    Rectangular(b) && InGrid(b, w.pos) && Run(b, w, fuel).Some? && trace == done + Run(b, w, fuel).value
  }

  /** With an obstacle ahead, one turn of the loop turns the guard in
      place and keeps it on its trace. */
  lemma AdvanceTurn(b: seq<seq<bool>>, w: Guard, fuel: nat, done: seq<Vector>, trace: seq<Vector>)
    requires OnTrace(b, w, fuel, done, trace)
    requires InGrid(b, Ahead(w.pos, w.dir)) && At(b, Ahead(w.pos, w.dir))
    ensures fuel > 0 && OnTrace(b, Guard(w.pos, TurnRight(w.dir)), fuel - 1, done, trace)
  {
    NextPosLeaves(b, w.pos, w.dir);
    RunStep(b, w, fuel);
    assert done + [] == done;
  }

  /** With a free cell ahead, one turn of the loop steps the guard into it
      and keeps it on its trace. */
  lemma AdvanceMove(b: seq<seq<bool>>, w: Guard, fuel: nat, done: seq<Vector>, trace: seq<Vector>)
    requires OnTrace(b, w, fuel, done, trace)
    requires InGrid(b, Ahead(w.pos, w.dir)) && !At(b, Ahead(w.pos, w.dir))
    ensures fuel > 0 && OnTrace(b, Guard(Ahead(w.pos, w.dir), w.dir), fuel - 1, done + [Ahead(w.pos, w.dir)], trace)
  {
    NextPosLeaves(b, w.pos, w.dir);
    RunStep(b, w, fuel);
  }

  /** At the edge the trace has been walked to its end. */
  lemma Arrive(b: seq<seq<bool>>, w: Guard, fuel: nat, done: seq<Vector>, trace: seq<Vector>)
    requires OnTrace(b, w, fuel, done, trace) && !InGrid(b, Ahead(w.pos, w.dir))
    ensures done == trace
  {
    RunDone(b, w, fuel);
  }

  /** The walk does not depend on how much fuel it is given beyond what it
      needs. */
  lemma {:induction false} RunMoreFuel(b: seq<seq<bool>>, w: Guard, fuel: nat, more: nat)
    requires Rectangular(b) && InGrid(b, w.pos) && Run(b, w, fuel).Some? && fuel <= more
    ensures Run(b, w, more) == Run(b, w, fuel)
    decreases fuel
  {
    match Step(b, w)
    case None =>
    case Some(w') =>
      RunMoreFuel(b, w', fuel - 1, more - 1);
  }

  /** The grid with every cell of t marked visited. */
  function Mark(g: seq<seq<CellStatus>>, t: seq<Vector>): (r: seq<seq<CellStatus>>)
    requires forall i :: 0 <= i < |t| ==> InGrid(g, t[i])
    ensures SameShape(g, r)
  {
    if t == [] then g
    else
      var m := Mark(g, t[..|t| - 1]);
      assert InGrid(g, t[|t| - 1]);
      Set(m, t[|t| - 1], CellVisited)
  }

  /** Marking one more cell. */
  lemma MarkSnoc(g: seq<seq<CellStatus>>, t: seq<Vector>, v: Vector)
    requires forall i :: 0 <= i < |t| ==> InGrid(g, t[i])
    requires InGrid(g, v)
    ensures forall i :: 0 <= i < |t + [v]| ==> InGrid(g, (t + [v])[i])
    ensures InGrid(Mark(g, t), v)
    ensures Mark(g, t + [v]) == Set(Mark(g, t), v, CellVisited)
  {
    assert (t + [v])[..|t|] == t;
  }

  /** A cell of the marked grid is visited when t passes it, and keeps its
      status otherwise. */
  lemma {:induction false} MarkAt(g: seq<seq<CellStatus>>, t: seq<Vector>, v: Vector)
    requires forall i :: 0 <= i < |t| ==> InGrid(g, t[i])
    requires InGrid(g, v)
    ensures At(Mark(g, t), v) == if v in t then CellVisited else At(g, v)
  {
    if t != [] {
      var t' := t[..|t| - 1];
      MarkAt(g, t', v);
      AtSet(Mark(g, t'), t[|t| - 1], CellVisited, v);
      assert v in t <==> v in t' || v == t[|t| - 1];
    }
  }

  // ---------------------------------------------------------------------
  // Loading

  /** The status the loader writes for character i of a line: '.', '#' and
      '^' set it, and any other character repeats the previous one (the
      status variable is kept from cell to cell and starts empty on each
      line). */
  function StatusAt(line: string, i: nat): CellStatus
    requires i < |line|
  {
    if line[i] == '.' then CellEmpty
    else if line[i] == '#' then CellObstacle
    else if line[i] == '^' then CellVisited
    else if i == 0 then CellEmpty
    else StatusAt(line, i - 1)
  }

  function DecodeRow(line: string): (r: seq<CellStatus>)
    ensures |r| == |line|
  {
    seq(|line|, i requires 0 <= i < |line| => StatusAt(line, i))
  }

  /** The last '^' among the first k characters of a line. */
  function LastCaretIn(line: string, k: nat): (r: Option<nat>)
    requires k <= |line|
    ensures r.Some? ==> r.value < k && line[r.value] == '^'
    ensures r.Some? ==> forall i :: r.value < i < k ==> line[i] != '^'
    ensures r.None? ==> forall i :: 0 <= i < k ==> line[i] != '^'
  {
    if k == 0 then None
    else if line[k - 1] == '^' then Some(k - 1)
    else LastCaretIn(line, k - 1)
  }

  /** Where the guard starts: the last '^' of the first n lines in reading
      order. */
  function LastCaret(lines: seq<string>, n: nat): (r: Option<Vector>)
    requires n <= |lines|
    ensures r.Some? ==> 0 <= r.value.y < n && 0 <= r.value.x < |lines[r.value.y]|
                        && lines[r.value.y][r.value.x] == '^'
  {
    if n == 0 then None
    else match LastCaretIn(lines[n - 1], |lines[n - 1]|)
      case Some(x) => Some(Vector(x, n - 1))
      case None => LastCaret(lines, n - 1)
  }

  /** What the walk loop keeps: g is the starting grid g0 with the cells
      of done marked, the guard stands on a visited cell, and it is on its
      way through trace with f turns of fuel left. */
  ghost predicate WalkInv(g0: seq<seq<CellStatus>>, b: seq<seq<bool>>, g: seq<seq<CellStatus>>,
                          w: Guard, f: nat, done: seq<Vector>, trace: seq<Vector>)
  {
    && Rectangular(g) && InGrid(g, w.pos) && At(g, w.pos) == CellVisited
    && SameShape(g0, g) && Blocked(g) == b
    && OnTrace(b, w, f, done, trace)
    && (forall i :: 0 <= i < |done| ==> InGrid(g0, done[i]))
    && g == Mark(g0, done)
  }

  /** The loop starts on its invariant. */
  lemma WalkStart(g0: seq<seq<CellStatus>>, w: Guard, fuel: nat)
    requires Rectangular(g0) && InGrid(g0, w.pos) && At(g0, w.pos) == CellVisited
    requires Run(Blocked(g0), w, fuel).Some?
    ensures WalkInv(g0, Blocked(g0), g0, w, fuel, [], Run(Blocked(g0), w, fuel).value)
  {
    BlockedShape(g0);
    assert [] + Run(Blocked(g0), w, fuel).value == Run(Blocked(g0), w, fuel).value;
  }

  /** Turning at an obstacle keeps the invariant: w' and f' are the guard
      and the fuel after the turn. */
  lemma WalkTurn(g0: seq<seq<CellStatus>>, b: seq<seq<bool>>, g: seq<seq<CellStatus>>,
                 w: Guard, f: nat, done: seq<Vector>, trace: seq<Vector>, q: Vector, w': Guard, f': int)
    requires WalkInv(g0, b, g, w, f, done, trace)
    requires NextPos(g, w.pos, w.dir) == Some(q) && InGrid(g, q) && At(g, q) == CellObstacle
    requires w' == Guard(w.pos, TurnRight(w.dir)) && f' == f - 1
    ensures f' >= 0 && WalkInv(g0, b, g, w', f', done, trace)
  {
    BlockedAt(g, q);
    AdvanceTurn(b, w, f, done, trace);
  }

  /** Stepping into a free cell and marking it keeps the invariant: g', w',
      f' and done' are the state after the step. */
  lemma WalkMove(g0: seq<seq<CellStatus>>, b: seq<seq<bool>>, g: seq<seq<CellStatus>>,
                 w: Guard, f: nat, done: seq<Vector>, trace: seq<Vector>, q: Vector,
                 g': seq<seq<CellStatus>>, w': Guard, f': int, done': seq<Vector>)
    requires WalkInv(g0, b, g, w, f, done, trace)
    requires NextPos(g, w.pos, w.dir) == Some(q) && InGrid(g, q) && At(g, q) != CellObstacle
    requires g' == Set(g, q, CellVisited) && w' == Guard(q, w.dir) && f' == f - 1 && done' == done + [q]
    ensures f' >= 0 && WalkInv(g0, b, g', w', f', done', trace)
  {
    BlockedAt(g, q);
    AdvanceMove(b, w, f, done, trace);
    MarkSnoc(g0, done, q);
    BlockedSet(g, q, CellVisited);
  }

  /** At the edge the grid is the start with the whole trace marked. */
  lemma WalkEnd(g0: seq<seq<CellStatus>>, b: seq<seq<bool>>, g: seq<seq<CellStatus>>,
                w: Guard, f: nat, done: seq<Vector>, trace: seq<Vector>)
    requires WalkInv(g0, b, g, w, f, done, trace)
    requires NextPos(g, w.pos, w.dir).None?
    ensures g == Mark(g0, trace)
  {
    NextPosLeaves(g, w.pos, w.dir);
    Arrive(b, w, f, done, trace);
  }

  class Board {
    var grid: seq<seq<CellStatus>>
    var playerPos: Vector
    var playerDir: Dir

    /** A rectangular grid with the guard on a visited cell. */
    ghost predicate Valid()
      reads this
    {
      Rectangular(grid) && InGrid(grid, playerPos) && At(grid, playerPos) == CellVisited
    }

    /** The loading loop of main: one row per line, the guard at the last
        '^' facing up (at the origin when there is none), and its cell
        already visited. */
    constructor Load(lines: seq<string>)
      ensures grid == seq(|lines|, y requires 0 <= y < |lines| => DecodeRow(lines[y]))
      ensures playerDir == DirUp
      ensures playerPos == match LastCaret(lines, |lines|) case Some(p) => p case None => Vector(0, 0)
      ensures LastCaret(lines, |lines|).Some? ==> InGrid(grid, playerPos) && At(grid, playerPos) == CellVisited
    {
      var g: seq<seq<CellStatus>> := [];
      var pos := Vector(0, 0);
      var dir := DirUp;
      for y := 0 to |lines|
        invariant g == seq(y, k requires 0 <= k < y => DecodeRow(lines[k]))
        invariant dir == DirUp
        invariant pos == match LastCaret(lines, y) case Some(p) => p case None => Vector(0, 0)
      {
        var line := lines[y];
        var gridLine: seq<CellStatus> := [];
        var status := CellEmpty;
        for i := 0 to |line|
          invariant gridLine == DecodeRow(line)[..i]
          invariant i > 0 ==> status == StatusAt(line, i - 1)
          invariant i == 0 ==> status == CellEmpty
          invariant dir == DirUp
          invariant pos == match LastCaretIn(line, i)
                           case Some(x) => Vector(x, y)
                           case None => (match LastCaret(lines, y) case Some(p) => p case None => Vector(0, 0))
        {
          var c := line[i];
          if c == '.' {
            status := CellEmpty;
          } else if c == '#' {
            status := CellObstacle;
          } else if c == '^' {
            status := CellVisited;
            pos := Vector(i, y);
            dir := DirUp;
          }
          gridLine := gridLine + [status];
        }
        g := g + [gridLine];
        assert gridLine == DecodeRow(line);
      }
      if LastCaret(lines, |lines|).Some? {
        var p := LastCaret(lines, |lines|).value;
        assert g[p.y] == DecodeRow(lines[p.y]);
      }
      grid, playerPos, playerDir := g, pos, dir;
    }

    /** The walk loop of main. The Go loop runs until the guard steps off the
        grid, so it ends only on maps where the guard gets out; fuel is a
        number of turns within which it does. The guard visits exactly the
        cells of the walk, the obstacles stay, and it ends facing off the
        grid. */
    method Walk(ghost fuel: nat)
      requires Valid() && Run(Blocked(grid), Guard(playerPos, playerDir), fuel).Some?
      modifies this
      ensures Valid() && Blocked(grid) == Blocked(old(grid))
      ensures grid == Mark(old(grid), Run(Blocked(old(grid)), Guard(old(playerPos), old(playerDir)), fuel).value)
      ensures NextPos(grid, playerPos, playerDir).None?
    {
      var g, pos, dir := grid, playerPos, playerDir;
      ghost var g0 := g;
      ghost var b := Blocked(g);
      ghost var trace := Run(b, Guard(pos, dir), fuel).value;
      ghost var done: seq<Vector> := [];
      ghost var f: int := fuel;
      WalkStart(g, Guard(pos, dir), fuel);
      while true
        invariant f >= 0 && WalkInv(g0, b, g, Guard(pos, dir), f, done, trace)
        decreases f
      {
        var next := NextPos(g, pos, dir);
        NextPosLeaves(g, pos, dir);
        if next.None? {
          WalkEnd(g0, b, g, Guard(pos, dir), f, done, trace);
          break;
        }
        var nextPos := next.value;
        ghost var gBefore, wBefore, fBefore, doneBefore := g, Guard(pos, dir), f, done;
        if g[nextPos.y][nextPos.x] == CellObstacle {
          dir := TurnRight(dir);
          f := f - 1;
          WalkTurn(g0, b, gBefore, wBefore, fBefore, doneBefore, trace, nextPos, Guard(pos, dir), f);
        } else {
          pos := nextPos;
          g := Set(g, pos, CellVisited);
          done := done + [pos];
          f := f - 1;
          WalkMove(g0, b, gBefore, wBefore, fBefore, doneBefore, trace, nextPos, g, Guard(pos, dir), f, done);
        }
      }
      grid, playerPos, playerDir := g, pos, dir;
    }

    /** The count at the end of main: how many cells are visited. */
    method CountVisited() returns (tot: nat)
      ensures tot == Count(grid, CellVisited, |grid|)
    {
      tot := 0;
      for y := 0 to |grid|
        invariant tot == Count(grid, CellVisited, y)
      {
        var line := grid[y];
        for x := 0 to |line|
          invariant tot == Count(grid, CellVisited, y) + RowCount(line, CellVisited, x)
        {
          if line[x] == CellVisited {
            tot := tot + 1;
          }
        }
      }
    }
  }

  /** After the walk, a cell is visited exactly when it was visited before
      (the start) or the guard stepped into it. */
  lemma WalkVisits(g: seq<seq<CellStatus>>, w: Guard, fuel: nat, v: Vector)
    requires Rectangular(g) && InGrid(g, w.pos) && Run(Blocked(g), w, fuel).Some? && InGrid(g, v)
    ensures forall i :: 0 <= i < |Run(Blocked(g), w, fuel).value| ==> InGrid(g, Run(Blocked(g), w, fuel).value[i])
    ensures At(Mark(g, Run(Blocked(g), w, fuel).value), v) == CellVisited
            <==> At(g, v) == CellVisited || v in Run(Blocked(g), w, fuel).value
  {
    MarkAt(g, Run(Blocked(g), w, fuel).value, v);
  }
}
