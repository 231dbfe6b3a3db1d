/** Day 15, part 1 (15-1/main.go): a robot walks a walled warehouse and
    pushes rows of boxes. The grid is a sequence of rows indexed [y][x]; the
    board's methods rewrite it cell by cell, as the Go code does through Set.
    Moves are the runes '^', 'v', '<' and '>'; any other rune is an unknown
    move that goes nowhere. The Go code relies on the border being walls
    (otherwise Get would index out of range); that is the Walled
    precondition here. */
module BoxPush {
  import opened Vectors
  import opened Grids

  datatype Option<T> = None | Some(value: T)

  const Box: char := 'O'
  const Empty: char := '.'
  const Wall: char := '#'
  const Player: char := '@'

  predicate IsMove(m: char)
  {
    m == '^' || m == 'v' || m == '<' || m == '>'
  }

  /** One step in the move's direction (y grows downwards); an unknown move
      leaves the vector as it is. */
  function MoveVector(v: Vector, m: char): (r: Vector)
    ensures IsMove(m) ==> || (r.x == v.x && (r.y == v.y + 1 || r.y == v.y - 1))
                          || (r.y == v.y && (r.x == v.x + 1 || r.x == v.x - 1))
    ensures !IsMove(m) ==> r == v
  {
    if m == '^' then Vector(v.x, v.y - 1)
    else if m == 'v' then Vector(v.x, v.y + 1)
    else if m == '<' then Vector(v.x - 1, v.y)
    else if m == '>' then Vector(v.x + 1, v.y)
    else v
  }

  // ---------------------------------------------------------------------
  // Grids

  /** Same shape, and a wall in one exactly where there is one in the
      other. */
  predicate SameWalls(g: seq<seq<char>>, h: seq<seq<char>>)
  {
    && SameShape(g, h)
    && forall y, x :: 0 <= y < |g| && 0 <= x < |g[y]| ==> (g[y][x] == Wall <==> h[y][x] == Wall)
  }

  /** A non-empty rectangle whose border cells are all walls. */
  predicate Walled(g: seq<seq<char>>)
  {
    && |g| > 0
    && (forall y :: 0 <= y < |g| ==> |g[y]| == |g[0]|)
    && (forall y, x :: 0 <= y < |g| && 0 <= x < |g[y]| && (y == 0 || y == |g| - 1 || x == 0 || x == |g[y]| - 1)
                       ==> g[y][x] == Wall)
  }

  /** Steps left before the move would reach the border. */
  function Reach(g: seq<seq<char>>, v: Vector, m: char): int
    requires |g| > 0
  {
    if m == '^' then v.y
    else if m == 'v' then |g| - 1 - v.y
    else if m == '<' then v.x
    else if m == '>' then |g[0]| - 1 - v.x
    else 0
  }

  /** A cell that is not a wall lies inside the border, so a step from it
      stays on the grid and brings it closer to the border. */
  lemma Inside(g: seq<seq<char>>, v: Vector, m: char)
    requires Walled(g) && InGrid(g, v) && At(g, v) != Wall
    ensures InGrid(g, MoveVector(v, m))
    ensures IsMove(m) ==> 0 <= Reach(g, MoveVector(v, m), m) < Reach(g, v, m)
  {
  }

  lemma SameWallsWalled(g: seq<seq<char>>, h: seq<seq<char>>)
    requires Walled(g) && SameWalls(g, h)
    ensures Walled(h)
  {
  }

  /** Writing a non-wall over a non-wall keeps the walls where they are. */
  lemma SetKeepsWalls(g0: seq<seq<char>>, g: seq<seq<char>>, v: Vector, c: char)
    requires Walled(g0) && SameWalls(g0, g) && InGrid(g, v) && At(g, v) != Wall && c != Wall
    ensures SameWalls(g0, Set(g, v, c)) && Walled(Set(g, v, c))
  {
    var r := Set(g, v, c);
    forall y, x | 0 <= y < |g0| && 0 <= x < |g0[y]|
      ensures g0[y][x] == Wall <==> r[y][x] == Wall
    {
      AtSet(g, v, c, Vector(x, y));
    }
    SameWallsWalled(g0, r);
  }

  // ---------------------------------------------------------------------
  // Pushing

  /** What MoveObject does to the grid: None when it refuses. */
  function Push(g: seq<seq<char>>, pos: Vector, m: char): (r: Option<seq<seq<char>>>)
    requires Walled(g) && InGrid(g, pos) && At(g, pos) != Wall && (IsMove(m) || At(g, pos) != Box)
    ensures r.Some? ==> SameWalls(g, r.value) && Walled(r.value)
    decreases Reach(g, pos, m)
  {
    Inside(g, pos, m);
    var cell := At(g, pos);
    var newPos := MoveVector(pos, m);
    var newCell := At(g, newPos);
    if newCell == Wall then None
    else if newCell == Empty then
      SetKeepsWalls(g, g, pos, Empty);
      SetKeepsWalls(g, Set(g, pos, Empty), newPos, cell);
      Some(Set(Set(g, pos, Empty), newPos, cell))
    else if newCell == Box then
      match Push(g, newPos, m)
      case None => None
      case Some(g1) =>
        SetKeepsWalls(g, g1, pos, Empty);
        SetKeepsWalls(g, Set(g1, pos, Empty), newPos, cell);
        Some(Set(Set(g1, pos, Empty), newPos, cell))
    else None
  }

  class Board {
    var Cells: seq<seq<char>>
    var Pos: Vector

    /** The robot stands on the board, in a walled warehouse. */
    ghost predicate Valid()
      reads this
    {
      Walled(Cells) && InGrid(Cells, Pos) && At(Cells, Pos) == Player
    }

    function Get(v: Vector): char
      reads this
      requires InGrid(Cells, v)
    {
      Cells[v.y][v.x]
    }

    method SetCell(v: Vector, c: char)
      requires InGrid(Cells, v)
      modifies this
      ensures Cells == Set(old(Cells), v, c) && Pos == old(Pos)
    {
      Cells := Cells[v.y := Cells[v.y][v.x := c]];
    }

    /** Moves the object at pos one step, first pushing a box in the way;
        reports whether it moved. */
    method MoveObject(pos: Vector, move: char) returns (moved: bool)
      requires Walled(Cells) && InGrid(Cells, pos) && Get(pos) != Wall && (IsMove(move) || Get(pos) != Box)
      modifies this
      ensures moved == Push(old(Cells), pos, move).Some?
      ensures moved ==> Cells == Push(old(Cells), pos, move).value
      ensures !moved ==> Cells == old(Cells)
      ensures Pos == old(Pos)
      decreases Reach(Cells, pos, move)
    {
      Inside(Cells, pos, move);
      var cell := Get(pos);
      var newPos := MoveVector(pos, move);
      var newCell := Get(newPos);

      if newCell == Wall {
        return false;
      }

      if Get(newPos) == Empty {
        SetCell(pos, Empty);
        SetCell(newPos, cell);
        return true;
      }

      if newCell == Box {
        ghost var g := Cells;
        moved := MoveObject(newPos, move);
        if moved {
          assert Push(g, newPos, move).Some? && Cells == Push(g, newPos, move).value;
          SetCell(pos, Empty);
          SetCell(newPos, cell);
          return true;
        }
      }
      return false;
    }

    /** The robot moves, and its position with it, when its push succeeds. */
    method MoveRobot(move: char)
      requires Valid()
      modifies this
      ensures Valid()
      ensures Push(old(Cells), old(Pos), move).Some? ==>
                Cells == Push(old(Cells), old(Pos), move).value && Pos == MoveVector(old(Pos), move)
      ensures Push(old(Cells), old(Pos), move).None? ==> Cells == old(Cells) && Pos == old(Pos)
    {
      ghost var g := Cells;
      var moved := MoveObject(Pos, move);
      if moved {
        PushMovesCell(g, Pos, move);
        Pos := MoveVector(Pos, move);
      }
    }

    /** The sum of x + 100 y over the boxes. */
    method Score() returns (score: int)
      ensures score == ScoreRows(Cells, Box, |Cells|)
    {
      score := 0;
      for y := 0 to |Cells|
        invariant score == ScoreRows(Cells, Box, y)
      {
        var row := Cells[y];
        for x := 0 to |row|
          invariant score == ScoreRows(Cells, Box, y) + RowScore(row, Box, y, x)
        {
          if row[x] == Box {
            score := score + x + y * 100;
          }
        }
      }
    }
  }

  /** After a push the object stands one step ahead. */
  lemma PushMovesCell(g: seq<seq<char>>, pos: Vector, m: char)
    requires Walled(g) && InGrid(g, pos) && At(g, pos) != Wall && (IsMove(m) || At(g, pos) != Box)
    requires Push(g, pos, m).Some?
    ensures InGrid(g, MoveVector(pos, m)) && At(Push(g, pos, m).value, MoveVector(pos, m)) == At(g, pos)
  {
    Inside(g, pos, m);
  }

  // ---------------------------------------------------------------------
  // The ray: what a push does, stated without recursion

  /** How many steps along the move v lies from pos, or -1 when it is not
      on that ray. */
  function Ray(pos: Vector, m: char, v: Vector): int
  {
    if m == '^' then (if v.x == pos.x && v.y <= pos.y then pos.y - v.y else -1)
    else if m == 'v' then (if v.x == pos.x && v.y >= pos.y then v.y - pos.y else -1)
    else if m == '<' then (if v.y == pos.y && v.x <= pos.x then pos.x - v.x else -1)
    else if m == '>' then (if v.y == pos.y && v.x >= pos.x then v.x - pos.x else -1)
    else -1
  }

  /** The cell i steps along the move from pos. */
  function Along(pos: Vector, m: char, i: int): Vector
  {
    if m == '^' then Vector(pos.x, pos.y - i)
    else if m == 'v' then Vector(pos.x, pos.y + i)
    else if m == '<' then Vector(pos.x - i, pos.y)
    else if m == '>' then Vector(pos.x + i, pos.y)
    else pos
  }

  lemma RayFacts(pos: Vector, m: char, v: Vector)
    requires IsMove(m)
    ensures Ray(pos, m, v) == 0 <==> v == pos
    ensures Ray(pos, m, v) == 1 <==> v == MoveVector(pos, m)
    ensures Ray(MoveVector(pos, m), m, v) == if Ray(pos, m, v) >= 1 then Ray(pos, m, v) - 1 else -1
  {
  }

  /** How far the run of boxes reaches: the first cell after pos that is not
      a box is this many steps along. */
  ghost function RunEnd(g: seq<seq<char>>, pos: Vector, m: char): (e: nat)
    requires Walled(g) && InGrid(g, pos) && At(g, pos) != Wall && IsMove(m)
    ensures e >= 1 && InGrid(g, Along(pos, m, e))
    decreases Reach(g, pos, m)
  {
    Inside(g, pos, m);
    var newPos := MoveVector(pos, m);
    if At(g, newPos) == Box then
      var e := 1 + RunEnd(g, newPos, m);
      assert Along(newPos, m, e - 1) == Along(pos, m, e);
      e
    else 1
  }

  /** A push succeeds exactly when the cell past the run of boxes is
      empty. */
  lemma {:induction false} PushSucceeds(g: seq<seq<char>>, pos: Vector, m: char)
    requires Walled(g) && InGrid(g, pos) && At(g, pos) != Wall && IsMove(m)
    ensures Push(g, pos, m).Some? <==> At(g, Along(pos, m, RunEnd(g, pos, m))) == Empty
    decreases Reach(g, pos, m)
  {
    Inside(g, pos, m);
    var newPos := MoveVector(pos, m);
    assert Along(pos, m, 1) == newPos;
    if At(g, newPos) == Box {
      PushSucceeds(g, newPos, m);
      assert Along(newPos, m, RunEnd(g, newPos, m)) == Along(pos, m, RunEnd(g, pos, m));
    }
  }

  /** A successful push steps the object ahead, empties pos, makes the run
      of boxes one longer at its far end, and changes nothing else. */
  lemma {:induction false} PushRay(g: seq<seq<char>>, pos: Vector, m: char)
    requires Walled(g) && InGrid(g, pos) && At(g, pos) != Wall && IsMove(m)
    requires Push(g, pos, m).Some?
    ensures forall v :: InGrid(g, v) ==>
        At(Push(g, pos, m).value, v) ==
          if v == pos then Empty
          else if Ray(pos, m, v) == 1 then At(g, pos)
          else if 2 <= Ray(pos, m, v) <= RunEnd(g, pos, m) then Box
          else At(g, v)
    decreases Reach(g, pos, m)
  {
    Inside(g, pos, m);
    var newPos := MoveVector(pos, m);
    var e := RunEnd(g, pos, m);
    var r := Push(g, pos, m).value;
    var g1 := g;
    if At(g, newPos) == Box {
      PushRay(g, newPos, m);
      g1 := Push(g, newPos, m).value;
    }
    assert r == Set(Set(g1, pos, Empty), newPos, At(g, pos));
    forall v | InGrid(g, v)
      ensures At(r, v) ==
        if v == pos then Empty
        else if Ray(pos, m, v) == 1 then At(g, pos)
        else if 2 <= Ray(pos, m, v) <= e then Box
        else At(g, v)
    {
      RayFacts(pos, m, v);
      AtSet(g1, pos, Empty, v);
      AtSet(Set(g1, pos, Empty), newPos, At(g, pos), v);
    }
  }

  // ---------------------------------------------------------------------
  // Counting cells

  /** Pushing moves cells around and never adds or removes one: the boxes,
      the walls and the robot keep their numbers. */
  lemma {:induction false} PushKeepsCells(g: seq<seq<char>>, pos: Vector, m: char, c: char)
    requires Walled(g) && InGrid(g, pos) && At(g, pos) != Wall && (IsMove(m) || At(g, pos) != Box)
    requires Push(g, pos, m).Some?
    ensures Count(Push(g, pos, m).value, c, |g|) == Count(g, c, |g|)
    decreases Reach(g, pos, m)
  {
    Inside(g, pos, m);
    var cell := At(g, pos);
    var newPos := MoveVector(pos, m);
    if At(g, newPos) == Box {
      var g1 := Push(g, newPos, m).value;
      PushKeepsCells(g, newPos, m, c);
      PushPrefix(g, newPos, m, pos);
      SwapCells(g1, pos, newPos, cell, c);
    } else {
      SwapCells(g, pos, newPos, cell, c);
    }
  }

  /** A push from newPos leaves the cell behind it alone and empties
      newPos. */
  lemma PushPrefix(g: seq<seq<char>>, newPos: Vector, m: char, pos: Vector)
    requires Walled(g) && InGrid(g, newPos) && At(g, newPos) != Wall && IsMove(m)
    requires InGrid(g, pos) && newPos == MoveVector(pos, m)
    requires Push(g, newPos, m).Some?
    ensures At(Push(g, newPos, m).value, pos) == At(g, pos)
    ensures At(Push(g, newPos, m).value, newPos) == Empty
  {
    PushRay(g, newPos, m);
    RayFacts(newPos, m, pos);
  }

  /** Emptying pos and writing its content d at q, where q was empty (or is
      pos itself), keeps every count. */
  lemma SwapCells(g: seq<seq<char>>, pos: Vector, q: Vector, d: char, c: char)
    requires InGrid(g, pos) && InGrid(g, q) && At(g, pos) == d && (q == pos || At(g, q) == Empty)
    ensures Count(Set(Set(g, pos, Empty), q, d), c, |g|) == Count(g, c, |g|)
  {
    var h := Set(g, pos, Empty);
    CountUpdate(g, pos, Empty, c, |g|);
    CountUpdate(h, q, d, c, |h|);
  }

  // ---------------------------------------------------------------------
  // Score

  /** x + 100 y for a cell at (x, y) holding the scored kind b, nothing
      for other cells. */
  function Worth(c: char, b: char, x: int, y: int): int
  {
    if c == b then x + y * 100 else 0
  }

  function RowScore(row: seq<char>, b: char, y: int, k: nat): int
    requires k <= |row|
  {
    if k == 0 then 0 else RowScore(row, b, y, k - 1) + Worth(row[k - 1], b, k - 1, y)
  }

  function ScoreRows(g: seq<seq<char>>, b: char, n: nat): int
    requires n <= |g|
  {
    if n == 0 then 0 else ScoreRows(g, b, n - 1) + RowScore(g[n - 1], b, n - 1, |g[n - 1]|)
  }

  lemma {:induction false} RowScoreUpdate(row: seq<char>, b: char, y: int, x: nat, c: char, k: nat)
    requires x < |row| && k <= |row|
    ensures RowScore(row[x := c], b, y, k) ==
      RowScore(row, b, y, k) + (if x < k then Worth(c, b, x, y) - Worth(row[x], b, x, y) else 0)
  {
    if k > 0 {
      RowScoreUpdate(row, b, y, x, c, k - 1);
    }
  }

  /** Changing one cell changes the score by that cell's worth only: the
      score depends on nothing but where the scored cells are. */
  lemma {:induction false} ScoreUpdate(g: seq<seq<char>>, b: char, v: Vector, c: char, n: nat)
    requires InGrid(g, v) && n <= |g|
    ensures ScoreRows(Set(g, v, c), b, n) ==
      ScoreRows(g, b, n) + (if v.y < n then Worth(c, b, v.x, v.y) - Worth(At(g, v), b, v.x, v.y) else 0)
  {
    if n > 0 {
      ScoreUpdate(g, b, v, c, n - 1);
      if v.y == n - 1 {
        RowScoreUpdate(g[v.y], b, v.y, v.x, c, |g[v.y]|);
      }
    }
  }
}
