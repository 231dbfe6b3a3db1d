/** Day 6, part 2 (06-2/main.go): the guard of part 1 walks the same way,
    and at every step where the cell ahead is still free and not yet
    entered, a copy of the board gets an obstacle there and is walked on
    to see whether the guard then goes round in a loop.

    A cell now carries, beside its status, the set of directions the guard
    has left it in, as a bit mask (Go's Dir values are the bits 1, 2, 4, 8).
    The guard loops exactly when it stands again on a cell it has already
    left in its current direction. The walk itself is the one of part 1
    (GuardWalk.Step), over the grid of obstacles. */
module GuardLoops {
  import opened Vectors
  import opened Grids
  import opened Bits
  import opened GuardWalk

  /** A cell: its status and the directions it was left in. */
  datatype Cell = Cell(visited: CellStatus, dir: nat)

  /** The bit a direction has in the mask: Go's Dir value is 1 << Index(d). */
  function Index(d: Dir): (i: nat)
    ensures i < 4
  {
    match d
    case DirUp => 0
    case DirRight => 1
    case DirDown => 2
    case DirLeft => 3
  }

  /** Each direction has its own bit. */
  lemma IndexInjective(d: Dir, e: Dir)
    ensures Index(d) == Index(e) ==> d == e
  {
  }

  // ---------------------------------------------------------------------
  // Iterating the walk

  /** The guard after n turns of the walk loop from w, or nothing when it
      has left the grid before. */
  ghost function Iter(b: seq<seq<bool>>, w: Guard, n: nat): (r: Option<Guard>)
    requires Rectangular(b) && InGrid(b, w.pos)
    ensures r.Some? ==> InGrid(b, r.value.pos)
    decreases n
  {
    if n == 0 then Some(w)
    else match Step(b, w)
      case None => None
      case Some(w') => Iter(b, w', n - 1)
  }

  /** n + 1 turns are n turns followed by one more. */
  lemma {:induction false} IterSnoc(b: seq<seq<bool>>, w: Guard, n: nat)
    requires Rectangular(b) && InGrid(b, w.pos)
    ensures Iter(b, w, n + 1) == match Iter(b, w, n) case None => None case Some(x) => Step(b, x)
    decreases n
  {
    if n > 0 {
      match Step(b, w)
      case None =>
      case Some(w') => IterSnoc(b, w', n - 1);
    }
  }

  /** A walk that leaves the grid within fuel turns passes every state the
      loop reaches on the way, and leaves from there too. */
  lemma {:induction false} RunIter(b: seq<seq<bool>>, w: Guard, fuel: nat, n: nat, w': Guard)
    requires Rectangular(b) && InGrid(b, w.pos) && Run(b, w, fuel).Some? && Iter(b, w, n) == Some(w')
    ensures n <= fuel && InGrid(b, w'.pos) && Run(b, w', fuel - n).Some?
    decreases n
  {
    if n > 0 {
      var w1 := Step(b, w).value;
      RunStep(b, w, fuel);
      RunIter(b, w1, fuel - 1, n - 1, w');
    }
  }

  /** A state that leads to a state that leaves the grid leaves it too. */
  lemma {:induction false} IterRun(b: seq<seq<bool>>, w: Guard, n: nat, w': Guard, fuel: nat)
    requires Rectangular(b) && InGrid(b, w.pos) && Iter(b, w, n) == Some(w')
    requires InGrid(b, w'.pos) && Run(b, w', fuel).Some?
    ensures Run(b, w, n + fuel).Some?
    decreases n
  {
    if n > 0 {
      var w1 := Step(b, w).value;
      IterRun(b, w1, n - 1, w', fuel);
      assert Run(b, w, n + fuel) == match Run(b, w1, n - 1 + fuel)
        case None => None
        case Some(t) => Some(if w1.pos != w.pos then [w1.pos] + t else t);
    }
  }

  /** A state the walk comes back to is never left: the guard goes round
      for ever. */
  lemma {:induction false} CycleNeverExits(b: seq<seq<bool>>, w: Guard, n: nat, fuel: nat)
    requires Rectangular(b) && InGrid(b, w.pos) && n >= 1 && Iter(b, w, n) == Some(w)
    ensures Run(b, w, fuel).None?
    decreases fuel
  {
    if Run(b, w, fuel).Some? {
      RunIter(b, w, fuel, n, w);
      CycleNeverExits(b, w, n, fuel - n);
    }
  }

  /** The guard starting at w leaves the grid. */
  ghost predicate Exits(b: seq<seq<bool>>, w: Guard)
  {
    Rectangular(b) && InGrid(b, w.pos) && exists fuel: nat :: Run(b, w, fuel).Some?
  }

  /** The guard starting at w never leaves the grid. */
  ghost predicate Loops(b: seq<seq<bool>>, w: Guard)
  {
    Rectangular(b) && InGrid(b, w.pos) && forall fuel: nat :: Run(b, w, fuel).None?
  }

  /** From s the walk reaches w after one turn of the loop or more. */
  ghost predicate Leads(b: seq<seq<bool>>, s: Guard, w: Guard)
  {
    Rectangular(b) && InGrid(b, s.pos) && exists n: nat :: n >= 1 && Iter(b, s, n) == Some(w)
  }

  /** Leading to w, s leads to where w goes next. */
  lemma LeadsStep(b: seq<seq<bool>>, s: Guard, w: Guard, w': Guard)
    requires Leads(b, s, w) && Step(b, w) == Some(w')
    ensures Leads(b, s, w')
  {
    var n: nat :| n >= 1 && Iter(b, s, n) == Some(w);
    IterSnoc(b, s, n);
  }

  // ---------------------------------------------------------------------
  // Cells and marks

  /** Where the obstacles are. */
  function Obstacles(g: seq<seq<Cell>>): (b: seq<seq<bool>>)
    ensures |b| == |g| && forall y :: 0 <= y < |g| ==> |b[y]| == |g[y]|
  {
    seq(|g|, y requires 0 <= y < |g| => seq(|g[y]|, x requires 0 <= x < |g[y]| => g[y][x].visited == CellObstacle))
  }

  /** The obstacle layer has the grid's cells, and a cell is blocked
      exactly when it holds an obstacle. */
  lemma ObstaclesAt(g: seq<seq<Cell>>, v: Vector)
    ensures Rectangular(g) ==> Rectangular(Obstacles(g))
    ensures InGrid(Obstacles(g), v) <==> InGrid(g, v)
    ensures InGrid(g, v) ==> (At(Obstacles(g), v) <==> At(g, v).visited == CellObstacle)
  {
  }

  /** Rewriting a cell without making or removing an obstacle keeps the
      obstacle layer; putting an obstacle on a cell blocks that cell. */
  lemma ObstaclesSet(g: seq<seq<Cell>>, v: Vector, c: Cell)
    requires InGrid(g, v)
    ensures At(g, v).visited != CellObstacle && c.visited != CellObstacle ==> Obstacles(Set(g, v, c)) == Obstacles(g)
    ensures c.visited == CellObstacle ==> Obstacles(Set(g, v, c)) == Set(Obstacles(g), v, true)
  {
    var h := Set(g, v, c);
    if At(g, v).visited != CellObstacle && c.visited != CellObstacle {
      forall y | 0 <= y < |g|
        ensures Obstacles(h)[y] == Obstacles(g)[y]
      {
        assert forall x :: 0 <= x < |g[y]| ==> (h[y][x].visited == CellObstacle <==> g[y][x].visited == CellObstacle);
      }
    }
    if c.visited == CellObstacle {
      var o := Set(Obstacles(g), v, true);
      forall y | 0 <= y < |g|
        ensures Obstacles(h)[y] == o[y]
      {
        assert forall x :: 0 <= x < |g[y]| ==> (h[y][x].visited == CellObstacle <==> o[y][x]);
      }
    }
  }

  /** A rewritten cell keeps the grid rectangular. */
  lemma SetRectangular<T>(g: seq<seq<T>>, v: Vector, c: T)
    requires Rectangular(g) && InGrid(g, v)
    ensures Rectangular(Set(g, v, c))
    ensures forall u :: InGrid(Set(g, v, c), u) <==> InGrid(g, u)
  {
  }

  /** The guard has already left cell s.pos in direction s.dir: the test
      LoopOrExit makes (a visited cell whose mask has the direction's
      bit). */
  ghost predicate Marked(g: seq<seq<Cell>>, s: Guard)
  {
    InGrid(g, s.pos) && At(g, s.pos).visited == CellVisited && TestBit(At(g, s.pos).dir, Index(s.dir))
  }

  /** Only visited cells carry direction bits. */
  ghost predicate NoStrayBits(g: seq<seq<Cell>>)
  {
    forall y, x :: 0 <= y < |g| && 0 <= x < |g[y]| && g[y][x].visited != CellVisited ==> g[y][x].dir == 0
  }

  /** How many of the four direction bits a mask has. */
  function Bits4(m: nat): (r: nat)
    ensures r <= 4
  {
    (if TestBit(m, 0) then 1 else 0) + (if TestBit(m, 1) then 1 else 0)
    + (if TestBit(m, 2) then 1 else 0) + (if TestBit(m, 3) then 1 else 0)
  }

  /** Setting a direction bit the mask lacks adds one. */
  lemma Bits4SetBit(m: nat, i: nat)
    requires i < 4 && !TestBit(m, i)
    ensures Bits4(SetBit(m, i)) == Bits4(m) + 1
  {
    SetBitTest(m, i, 0);
    SetBitTest(m, i, 1);
    SetBitTest(m, i, 2);
    SetBitTest(m, i, 3);
  }

  function RowFree(row: seq<Cell>, k: nat): nat
    requires k <= |row|
  {
    if k == 0 then 0 else RowFree(row, k - 1) + (4 - Bits4(row[k - 1].dir))
  }

  /** The (cell, direction) pairs of the first n rows not yet marked in the
      masks: the measure that makes LoopOrExit end. */
  function Free(g: seq<seq<Cell>>, n: nat): nat
    requires n <= |g|
  {
    if n == 0 then 0 else Free(g, n - 1) + RowFree(g[n - 1], |g[n - 1]|)
  }

  lemma {:induction false} RowFreeUpdate(row: seq<Cell>, x: nat, c: Cell, k: nat)
    requires x < |row| && k <= |row|
    ensures RowFree(row[x := c], k) + (if x < k then 4 - Bits4(row[x].dir) else 0)
            == RowFree(row, k) + (if x < k then 4 - Bits4(c.dir) else 0)
  {
    if k > 0 {
      RowFreeUpdate(row, x, c, k - 1);
    }
  }

  /** Rewriting a cell trades its old share of the measure for the new. */
  lemma {:induction false} FreeUpdate(g: seq<seq<Cell>>, v: Vector, c: Cell, n: nat)
    requires InGrid(g, v) && n <= |g|
    ensures Free(Set(g, v, c), n) + (if v.y < n then 4 - Bits4(At(g, v).dir) else 0)
            == Free(g, n) + (if v.y < n then 4 - Bits4(c.dir) else 0)
  {
    if n > 0 {
      FreeUpdate(g, v, c, n - 1);
      if v.y == n - 1 {
        RowFreeUpdate(g[v.y], v.x, c, |g[v.y]|);
      }
    }
  }

  /** The cell w.pos once the guard leaves it facing w.dir. */
  function Leave(c: Cell, d: Dir): Cell
  {
    Cell(CellVisited, SetBit(c.dir, Index(d)))
  }

  /** Leaving a free cell keeps the obstacles, the shape, and bits on
      visited cells only. */
  lemma LeaveKeeps(g: seq<seq<Cell>>, w: Guard)
    requires Rectangular(g) && InGrid(g, w.pos) && At(g, w.pos).visited != CellObstacle && NoStrayBits(g)
    ensures Obstacles(Set(g, w.pos, Leave(At(g, w.pos), w.dir))) == Obstacles(g)
    ensures NoStrayBits(Set(g, w.pos, Leave(At(g, w.pos), w.dir)))
    ensures Rectangular(Set(g, w.pos, Leave(At(g, w.pos), w.dir)))
  {
    ObstaclesSet(g, w.pos, Leave(At(g, w.pos), w.dir));
    SetRectangular(g, w.pos, Leave(At(g, w.pos), w.dir));
  }

  /** Leaving w.pos facing w.dir marks that pair and no other. */
  lemma LeaveMarked(g: seq<seq<Cell>>, w: Guard, s: Guard)
    requires InGrid(g, w.pos) && NoStrayBits(g)
    ensures Marked(Set(g, w.pos, Leave(At(g, w.pos), w.dir)), s) <==> s == w || Marked(g, s)
  {
    var c := At(g, w.pos);
    if InGrid(g, s.pos) {
      AtSet(g, w.pos, Leave(c, w.dir), s.pos);
      if s.pos == w.pos {
        SetBitTest(c.dir, Index(w.dir), Index(s.dir));
        IndexInjective(s.dir, w.dir);
        if c.visited != CellVisited {
          TestBitZero(Index(s.dir));
        }
      }
    }
  }

  /** Leaving a cell in a direction not yet marked shrinks the measure. */
  lemma LeaveShrinks(g: seq<seq<Cell>>, w: Guard)
    requires InGrid(g, w.pos) && NoStrayBits(g) && !Marked(g, w)
    ensures Free(Set(g, w.pos, Leave(At(g, w.pos), w.dir)), |g|) < Free(g, |g|)
  {
    var c := At(g, w.pos);
    if c.visited != CellVisited {
      TestBitZero(Index(w.dir));
    }
    Bits4SetBit(c.dir, Index(w.dir));
    FreeUpdate(g, w.pos, Leave(c, w.dir), |g|);
  }

  // ---------------------------------------------------------------------
  // LoopOrExit

  /** What LoopOrExit needs of the board it starts on: the guard stands
      on a free cell of a rectangular grid, only visited cells carry bits,
      and every pair already marked is a state from which the walk comes
      to the guard's present state. */
  ghost predicate Ready(g: seq<seq<Cell>>, w: Guard)
  {
    && Rectangular(g) && InGrid(g, w.pos) && At(g, w.pos).visited != CellObstacle
    && NoStrayBits(g)
    && (forall s :: Marked(g, s) ==> Leads(Obstacles(g), s, w))
  }

  /** What the loop of LoopOrExit keeps: the guard is k turns past w0 on
      the walk over the obstacles b, which never change. */
  ghost predicate LoopInv(b: seq<seq<bool>>, w0: Guard, g: seq<seq<Cell>>, w: Guard, k: nat)
  {
    && Ready(g, w) && Obstacles(g) == b
    && Rectangular(b) && InGrid(b, w0.pos) && Iter(b, w0, k) == Some(w)
  }

  lemma LoopStart(g: seq<seq<Cell>>, w: Guard)
    requires Ready(g, w)
    ensures LoopInv(Obstacles(g), w, g, w, 0)
  {
    ObstaclesAt(g, w.pos);
  }

  /** The guard faces off the grid: the walk from w0 leaves it. */
  lemma LoopExit(b: seq<seq<bool>>, w0: Guard, g: seq<seq<Cell>>, w: Guard, k: nat)
    requires LoopInv(b, w0, g, w, k) && NextPos(g, w.pos, w.dir).None?
    ensures Exits(b, w0) && !Loops(b, w0)
  {
    ObstaclesAt(g, w.pos);
    NextPosLeaves(g, w.pos, w.dir);
    ObstaclesAt(g, Ahead(w.pos, w.dir));
    RunDone(b, w, 0);
    IterRun(b, w0, k, w, 0);
    assert Run(b, w0, k).Some?;
  }

  /** The guard is in a state it has been in before: the walk from w0
      never leaves the grid. */
  lemma LoopFound(b: seq<seq<bool>>, w0: Guard, g: seq<seq<Cell>>, w: Guard, k: nat)
    requires LoopInv(b, w0, g, w, k) && Marked(g, w)
    ensures Loops(b, w0) && !Exits(b, w0)
  {
    var n: nat :| n >= 1 && Iter(b, w, n) == Some(w);
    forall fuel: nat
      ensures Run(b, w0, fuel).None?
    {
      if Run(b, w0, fuel).Some? {
        RunIter(b, w0, fuel, k, w);
        CycleNeverExits(b, w, n, fuel - k);
      }
    }
  }

  /** One turn of the loop when the guard's state is new: the cell is
      marked, and the guard turns or steps as in part 1. */
  /** LoopInv together with the marks the walk started with, which it
      never clears. */
  ghost predicate LoopState(b: seq<seq<bool>>, w0: Guard, g0: seq<seq<Cell>>, g: seq<seq<Cell>>, w: Guard, k: nat)
  {
    LoopInv(b, w0, g, w, k) && forall s :: Marked(g0, s) ==> Marked(g, s)
  }

  /** One turn of LoopOrExit from an unmarked state: the guard's cell is
      marked (g'), the guard turns or steps (w'), the invariant holds one
      turn later and fewer (cell, direction) pairs are left unmarked. */
  lemma LoopTurn(b: seq<seq<bool>>, w0: Guard, g0: seq<seq<Cell>>, g: seq<seq<Cell>>, w: Guard, k: nat, q: Vector,
                 g': seq<seq<Cell>>, w': Guard, k': nat)
    requires LoopState(b, w0, g0, g, w, k) && !Marked(g, w)
    requires NextPos(g, w.pos, w.dir) == Some(q)
    requires InGrid(g, w.pos) && g' == Set(g, w.pos, Leave(At(g, w.pos), w.dir))
    requires InGrid(g', q) && w' == if At(g', q).visited == CellObstacle then Guard(w.pos, TurnRight(w.dir)) else Guard(q, w.dir)
    requires k' == k + 1
    ensures LoopState(b, w0, g0, g', w', k') && Free(g', |g'|) < Free(g, |g|)
  {
    NextPosLeaves(g, w.pos, w.dir);
    ObstaclesAt(g, w.pos);
    ObstaclesAt(g, q);
    NextPosLeaves(b, w.pos, w.dir);
    AtSet(g, w.pos, Leave(At(g, w.pos), w.dir), q);
    assert Step(b, w) == Some(w');
    IterSnoc(b, w0, k);
    LeaveKeeps(g, w);
    LeaveShrinks(g, w);
    SetRectangular(g, w.pos, Leave(At(g, w.pos), w.dir));
    AtSet(g, w.pos, Leave(At(g, w.pos), w.dir), w'.pos);
    forall s | Marked(g, s)
      ensures Marked(g', s)
    {
      LeaveMarked(g, w, s);
    }
    forall s | Marked(g', s)
      ensures Leads(b, s, w')
    {
      LeaveMarked(g, w, s);
      if s == w {
        assert Iter(b, w, 1) == Some(w');
      } else {
        LeadsStep(b, s, w, w');
      }
    }
  }

  // ---------------------------------------------------------------------
  // The fork loop of main

  /** A cell the guard has neither entered nor found an obstacle on. */
  ghost predicate FreeCell(g: seq<seq<Cell>>, q: Vector)
  {
    InGrid(g, q) && At(g, q).visited == CellEmpty
  }

  /** Blocking a cell the guard does not face changes nothing about its
      next step. */
  lemma StepBlocked(b: seq<seq<bool>>, q: Vector, w: Guard)
    requires Rectangular(b) && InGrid(b, w.pos) && InGrid(b, q)
    requires InGrid(b, Ahead(w.pos, w.dir)) ==> Ahead(w.pos, w.dir) != q
    ensures Rectangular(Set(b, q, true)) && InGrid(Set(b, q, true), w.pos)
    ensures Step(Set(b, q, true), w) == Step(b, w)
  {
    SetRectangular(b, q, true);
    if InGrid(b, Ahead(w.pos, w.dir)) {
      AtSet(b, q, true, Ahead(w.pos, w.dir));
    }
  }

  /** How many loops the fork loop of main finds from w on: at every turn
      of the walk over b whose cell ahead is free and was not entered
      before (seen holds the cells entered so far), one when an obstacle
      there makes the guard, from where it stands, walk for ever. */
  ghost function ForkLoops(b: seq<seq<bool>>, w: Guard, seen: set<Vector>, fuel: nat): nat
    requires Rectangular(b) && InGrid(b, w.pos) && Run(b, w, fuel).Some?
    decreases fuel
  {
    match Step(b, w)
    case None => 0
    case Some(w') =>
      var q := Ahead(w.pos, w.dir);
      (if !At(b, q) && q !in seen && Loops(Set(b, q, true), w) then 1 else 0)
      + ForkLoops(b, w', seen + {w.pos}, fuel - 1)
  }

  /** A board as loaded: nothing visited and no direction bits. */
  ghost predicate Unvisited(g: seq<seq<Cell>>)
  {
    forall y, x :: 0 <= y < |g| && 0 <= x < |g[y]| ==> g[y][x].visited != CellVisited && g[y][x].dir == 0
  }

  /** What the fork loop keeps: the obstacles are b; a cell is visited
      exactly when the guard has left it (seen); the walk from w leaves the
      grid within f turns; and for every free cell q other than the
      guard's, each marked state leads to the guard's state even with an
      obstacle on q. */
  ghost predicate MainInv(b: seq<seq<bool>>, g: seq<seq<Cell>>, w: Guard, seen: set<Vector>, f: nat)
  {
    && Rectangular(g) && InGrid(g, w.pos) && At(g, w.pos).visited != CellObstacle
    && Obstacles(g) == b && NoStrayBits(g)
    && Rectangular(b) && InGrid(b, w.pos) && Run(b, w, f).Some?
    && (forall v :: InGrid(g, v) && At(g, v).visited != CellObstacle ==> (At(g, v).visited == CellVisited <==> v in seen))
    && (forall s, q :: Marked(g, s) && FreeCell(g, q) && q != w.pos ==> Leads(Set(b, q, true), s, w))
  }

  lemma MainStart(g: seq<seq<Cell>>, w: Guard, fuel: nat)
    requires Rectangular(g) && InGrid(g, w.pos) && At(g, w.pos).visited != CellObstacle && Unvisited(g)
    requires Run(Obstacles(g), w, fuel).Some?
    ensures MainInv(Obstacles(g), g, w, {}, fuel)
  {
    ObstaclesAt(g, w.pos);
  }

  /** The guard faces off the grid: no forks are left. */
  lemma MainEnd(b: seq<seq<bool>>, g: seq<seq<Cell>>, w: Guard, seen: set<Vector>, f: nat)
    requires MainInv(b, g, w, seen, f) && NextPos(g, w.pos, w.dir).None?
    ensures ForkLoops(b, w, seen, f) == 0
  {
    NextPosLeaves(g, w.pos, w.dir);
    ObstaclesAt(g, Ahead(w.pos, w.dir));
  }

  /** The board main hands to LoopOrExit, with an obstacle on the free
      cell q ahead, is ready, and its obstacles are b with q blocked. */
  lemma MainFork(b: seq<seq<bool>>, g: seq<seq<Cell>>, w: Guard, seen: set<Vector>, f: nat, q: Vector)
    requires MainInv(b, g, w, seen, f) && NextPos(g, w.pos, w.dir) == Some(q) && At(g, q).visited == CellEmpty
    ensures InGrid(g, q)
    ensures Ready(Set(g, q, At(g, q).(visited := CellObstacle)), w)
    ensures Obstacles(Set(g, q, At(g, q).(visited := CellObstacle))) == Set(b, q, true)
  {
    NextPosLeaves(g, w.pos, w.dir);
    var c := At(g, q).(visited := CellObstacle);
    var g1 := Set(g, q, c);
    ObstaclesSet(g, q, c);
    SetRectangular(g, q, c);
    AtSet(g, q, c, w.pos);
    assert NoStrayBits(g1) by {
      forall y, x | 0 <= y < |g1| && 0 <= x < |g1[y]| && g1[y][x].visited != CellVisited
        ensures g1[y][x].dir == 0
      {
        AtSet(g, q, c, Vector(x, y));
      }
    }
    forall s | Marked(g1, s)
      ensures Leads(Obstacles(g1), s, w)
    {
      AtSet(g, q, c, s.pos);
      assert Marked(g, s);
    }
  }

  /** One turn of the fork loop: the guard's cell is marked (g'), the
      guard turns or steps (w'), and the count still to come drops by what
      this turn contributes (c). */
  lemma MainStep(b: seq<seq<bool>>, g: seq<seq<Cell>>, w: Guard, seen: set<Vector>, f: nat, q: Vector,
                 g': seq<seq<Cell>>, w': Guard, c: nat)
    requires MainInv(b, g, w, seen, f) && NextPos(g, w.pos, w.dir) == Some(q)
    requires InGrid(g, q) && g' == Set(g, w.pos, Leave(At(g, w.pos), w.dir))
    requires w' == if At(g, q).visited == CellObstacle then Guard(w.pos, TurnRight(w.dir)) else Guard(q, w.dir)
    requires c == if At(g, q).visited == CellEmpty && Loops(Set(b, q, true), w) then 1 else 0
    ensures f > 0 && MainInv(b, g', w', seen + {w.pos}, f - 1)
    ensures ForkLoops(b, w, seen, f) == c + ForkLoops(b, w', seen + {w.pos}, f - 1)
  {
    NextPosLeaves(g, w.pos, w.dir);
    NextPosLeaves(b, w.pos, w.dir);
    ObstaclesAt(g, w.pos);
    ObstaclesAt(g, q);
    assert Step(b, w) == Some(w');
    RunStep(b, w, f);
    LeaveKeeps(g, w);
    SetRectangular(g, w.pos, Leave(At(g, w.pos), w.dir));
    AtSet(g, w.pos, Leave(At(g, w.pos), w.dir), w'.pos);
    forall v | InGrid(g', v) && At(g', v).visited != CellObstacle
      ensures At(g', v).visited == CellVisited <==> v in seen + {w.pos}
    {
      AtSet(g, w.pos, Leave(At(g, w.pos), w.dir), v);
    }
    forall s, q' | Marked(g', s) && FreeCell(g', q') && q' != w'.pos
      ensures Leads(Set(b, q', true), s, w')
    {
      AtSet(g, w.pos, Leave(At(g, w.pos), w.dir), q');
      LeaveMarked(g, w, s);
      StepBlocked(b, q', w);
      if s == w {
        assert Iter(Set(b, q', true), w, 1) == Some(w');
      } else {
        LeadsStep(Set(b, q', true), s, w, w');
      }
    }
  }

  /** The fork loop's invariant with its running count: loops forks
      counted so far plus those still to come make the total. */
  ghost predicate MainCount(b: seq<seq<bool>>, g: seq<seq<Cell>>, w: Guard, seen: set<Vector>, f: nat, loops: nat, total: nat)
  {
    MainInv(b, g, w, seen, f) && loops + ForkLoops(b, w, seen, f) == total
  }

  /** MainStep with the count carried along. */
  lemma MainCountStep(b: seq<seq<bool>>, g: seq<seq<Cell>>, w: Guard, seen: set<Vector>, f: nat, q: Vector,
                      g': seq<seq<Cell>>, w': Guard, c: nat, loops: nat, total: nat,
                      seen': set<Vector>, f': int, loops': nat)
    requires MainCount(b, g, w, seen, f, loops, total) && NextPos(g, w.pos, w.dir) == Some(q)
    requires InGrid(g, q) && g' == Set(g, w.pos, Leave(At(g, w.pos), w.dir))
    requires w' == if At(g, q).visited == CellObstacle then Guard(w.pos, TurnRight(w.dir)) else Guard(q, w.dir)
    requires c == if At(g, q).visited == CellEmpty && Loops(Set(b, q, true), w) then 1 else 0
    requires seen' == seen + {w.pos} && f' == f - 1 && loops' == loops + c
    ensures f' >= 0 && MainCount(b, g', w', seen', f', loops', total)
  {
    MainStep(b, g, w, seen, f, q, g', w', c);
  }

  // ---------------------------------------------------------------------
  // The board

  class Board {
    var grid: seq<seq<Cell>>
    var playerPos: Vector
    var playerDir: Dir

    constructor (g: seq<seq<Cell>>, p: Vector, d: Dir)
      ensures grid == g && playerPos == p && playerDir == d
    {
      grid, playerPos, playerDir := g, p, d;
    }

    /** A new board with a copy of every row and the same guard. Rows are
        values here, so changing the copy cannot reach this board. */
    method Clone() returns (ret: Board)
      ensures fresh(ret)
      ensures ret.grid == grid && ret.playerPos == playerPos && ret.playerDir == playerDir
    {
      var rows: seq<seq<Cell>> := [];
      for y := 0 to |grid|
        invariant rows == grid[..y]
      {
        var line := grid[y];
        var copied: seq<Cell> := [];
        for x := 0 to |line|
          invariant copied == line[..x]
        {
          copied := copied + [line[x]];
        }
        assert copied == line;
        rows := rows + [copied];
      }
      assert rows == grid;
      ret := new Board(rows, playerPos, playerDir);
    }

    /** The guard's quarter turn clockwise. */
    method TurnRight()
      modifies this`playerDir
      ensures playerDir == GuardWalk.TurnRight(old(playerDir))
    {
      match playerDir
      case DirUp => playerDir := DirRight;
      case DirRight => playerDir := DirDown;
      case DirDown => playerDir := DirLeft;
      case DirLeft => playerDir := DirUp;
    }

    /** Walks on until the guard faces off the grid (0) or stands in a
        state it was in before (1), marking each cell with the directions
        it leaves it in. The result is 0 exactly when the walk from the
        guard's starting state leaves the grid. */
    method LoopOrExit() returns (r: int)
      requires Ready(grid, Guard(playerPos, playerDir))
      modifies this
      ensures r == 0 || r == 1
      ensures r == 0 <==> Exits(Obstacles(old(grid)), Guard(old(playerPos), old(playerDir)))
      ensures r == 1 <==> Loops(Obstacles(old(grid)), Guard(old(playerPos), old(playerDir)))
      ensures Obstacles(grid) == Obstacles(old(grid))
      ensures forall s :: Marked(old(grid), s) ==> Marked(grid, s)
    {
      var g: seq<seq<Cell>>, pos: Vector, dir: Dir := grid, playerPos, playerDir;
      ghost var w0 := Guard(pos, dir);
      ghost var g0 := g;
      ghost var b := Obstacles(g);
      ghost var k: nat := 0;
      LoopStart(g, w0);
      while true
        invariant LoopState(b, w0, g0, g, Guard(pos, dir), k)
        decreases Free(g, |g|)
      {
        var next := NextPos(g, pos, dir);
        if next.None? {
          LoopExit(b, w0, g, Guard(pos, dir), k);
          r := 0;
          break;
        }
        var nextPos := next.value;
        var cell := g[pos.y][pos.x];
        if cell.visited == CellVisited && TestBit(cell.dir, Index(dir)) {
          LoopFound(b, w0, g, Guard(pos, dir), k);
          r := 1;
          break;
        }
        NextPosLeaves(g, pos, dir);
        var g1: seq<seq<Cell>> := Set(g, pos, Leave(cell, dir));
        var pos1, dir1 := pos, dir;
        if g1[nextPos.y][nextPos.x].visited == CellObstacle {
          dir1 := GuardWalk.TurnRight(dir);
        } else {
          pos1 := nextPos;
        }
        ghost var gBefore, wBefore, kBefore := g, Guard(pos, dir), k;
        g, pos, dir, k := g1, pos1, dir1, k + 1;
        LoopTurn(b, w0, g0, gBefore, wBefore, kBefore, nextPos, g, Guard(pos, dir), k);
      }
      grid, playerPos, playerDir := g, pos, dir;
    }

    /** One fork of main: a copy of the board with an obstacle on q,
        walked until the guard leaves or loops; 1 when it loops. This
        board does not change. */
    method Fork(q: Vector) returns (r: int)
      requires InGrid(grid, q) && Ready(Set(grid, q, At(grid, q).(visited := CellObstacle)), Guard(playerPos, playerDir))
      ensures r == 0 || r == 1
      ensures r == 1 <==> Loops(Obstacles(Set(grid, q, At(grid, q).(visited := CellObstacle))), Guard(playerPos, playerDir))
    {
      var b1 := Clone();
      b1.grid := Set(b1.grid, q, b1.grid[q.y][q.x].(visited := CellObstacle));
      r := b1.LoopOrExit();
    }

    /** One turn of main's loop, the cell ahead being q: forks when q is
        free and not yet entered (c is 1 when that fork loops), marks the
        guard's cell with its direction, then turns or steps. */
    method MainTurn(q: Vector, loops: nat, ghost b: seq<seq<bool>>, ghost seen: set<Vector>, ghost f: nat, ghost total: nat)
      returns (loops': nat, ghost seen': set<Vector>, ghost f': nat)
      requires MainCount(b, grid, Guard(playerPos, playerDir), seen, f, loops, total)
      requires NextPos(grid, playerPos, playerDir) == Some(q)
      modifies this
      ensures MainCount(b, grid, Guard(playerPos, playerDir), seen', f', loops', total)
      ensures seen' == seen + {old(playerPos)} && f' < f
    {
      var g: seq<seq<Cell>>, pos: Vector, dir: Dir := grid, playerPos, playerDir;
      NextPosLeaves(g, pos, dir);
      var cell := g[pos.y][pos.x];
      var c: nat := 0;
      if g[q.y][q.x].visited == CellEmpty {
        MainFork(b, g, Guard(pos, dir), seen, f, q);
        var r := Fork(q);
        c := r;
      }
      var g1: seq<seq<Cell>> := Set(g, pos, Leave(cell, dir));
      AtSet(g, pos, Leave(cell, dir), q);
      var pos1, dir1 := pos, dir;
      if g1[q.y][q.x].visited == CellObstacle {
        dir1 := GuardWalk.TurnRight(dir);
      } else {
        pos1 := q;
      }
      grid, playerPos, playerDir := g1, pos1, dir1;
      loops', seen', f' := loops + c, seen + {pos}, f - 1;
      MainCountStep(b, g, Guard(pos, dir), seen, f, q, grid, Guard(playerPos, playerDir), c, loops, total, seen', f', loops');
    }

    /** The fork loop of main: walks the guard as in part 1, and wherever
        the cell ahead is free and not yet entered, walks a copy of the
        board with an obstacle there and counts the copies that loop. The
        Go loop ends only if the guard leaves the grid, within fuel turns
        here. */
    method CountLoops(ghost fuel: nat) returns (loops: nat)
      requires Rectangular(grid) && InGrid(grid, playerPos) && At(grid, playerPos).visited != CellObstacle
      requires Unvisited(grid)
      requires Run(Obstacles(grid), Guard(playerPos, playerDir), fuel).Some?
      modifies this
      ensures loops == ForkLoops(Obstacles(old(grid)), Guard(old(playerPos), old(playerDir)), {}, fuel)
    {
      ghost var b := Obstacles(grid);
      ghost var seen: set<Vector> := {};
      ghost var f := fuel;
      ghost var total := ForkLoops(b, Guard(playerPos, playerDir), {}, fuel);
      MainStart(grid, Guard(playerPos, playerDir), fuel);
      loops := 0;
      while true
        invariant MainCount(b, grid, Guard(playerPos, playerDir), seen, f, loops, total)
        decreases f
      {
        var next := NextPos(grid, playerPos, playerDir);
        if next.None? {
          MainEnd(b, grid, Guard(playerPos, playerDir), seen, f);
          break;
        }
        loops, seen, f := MainTurn(next.value, loops, b, seen, f, total);
      }
    }
  }
}
