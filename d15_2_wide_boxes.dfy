/** Day 15, part 2 (15-2/main.go): the warehouse of part 1 read twice as
    wide. Every box becomes the two halves '[' and ']', and a vertical push
    of one half pushes the other half too, so one push can fan out into a
    tree of boxes. The robot first asks CanMove, a read-only recursion, and
    only then runs Move, which rewrites the grid recursively. Move itself
    looks at nothing but walls and empty cells; where the Go code would
    index out of range (a panic) the model's Move reports failure. */
module WideBoxPush {
  import opened Vectors
  import opened BoxPush
  import opened Grids

  const LBox: char := '['
  const RBox: char := ']'

  predicate Vertical(m: char)
  {
    m == '^' || m == 'v'
  }

  /** A non-empty grid whose rows all have the same length. */
  predicate Rect(g: seq<seq<char>>)
  {
    |g| > 0 && forall y :: 0 <= y < |g| ==> |g[y]| == |g[0]|
  }

  /** Every '[' has its ']' to the right and every ']' its '[' to the
      left. */
  predicate Paired(g: seq<seq<char>>)
  {
    forall y :: 0 <= y < |g| ==> PairedRow(g[y])
  }

  /** In one row, every '[' has a ']' right after it and every ']' a '['
      right before it. */
  predicate PairedRow(r: seq<char>)
  {
    forall x :: 0 <= x < |r| ==> PairedAt(r, x)
  }

  /** Cell x of row r is not a half, or its partner is beside it. */
  predicate PairedAt(r: seq<char>, x: nat)
    requires x < |r|
  {
    && (r[x] == LBox ==> x + 1 < |r| && r[x + 1] == RBox)
    && (r[x] == RBox ==> 0 < x && r[x - 1] == LBox)
  }

  // ---------------------------------------------------------------------
  // Reading the board

  /** The two cells one cell of the narrow map becomes. */
  function WidenCell(c: char): (r: seq<char>)
    ensures |r| == 2
  {
    if c == Player then [Player, Empty]
    else if c == Box then [LBox, RBox]
    else [c, c]
  }

  /** A line of the map, each cell doubled (WidenRowIndex: cell i of the
      result is half i % 2 of cell i / 2 of the line). */
  function WidenRow(line: string): (r: seq<char>)
    ensures |r| == 2 * |line|
  {
    if line == [] then [] else WidenRow(line[..|line| - 1]) + WidenCell(line[|line| - 1])
  }

  /** Cell i of a line becomes cells 2i and 2i + 1 of the widened line. */
  lemma {:induction false} WidenRowAt(line: string, i: nat)
    requires i < |line|
    ensures WidenRow(line)[2 * i] == WidenCell(line[i])[0]
    ensures WidenRow(line)[2 * i + 1] == WidenCell(line[i])[1]
  {
    var n := |line| - 1;
    if i < n {
      WidenRowAt(line[..n], i);
    }
  }

  lemma WidenRowIndex(line: string, x: nat)
    requires x < 2 * |line|
    ensures x / 2 < |line| && WidenRow(line)[x] == WidenCell(line[x / 2])[x % 2]
  {
    var i := x / 2;
    WidenRowAt(line, i);
    if x % 2 == 0 {
      assert x == 2 * i;
    } else {
      assert x == 2 * i + 1;
    }
  }

  /** The widened grid: row y is line y widened. */
  function Widen(rows: seq<string>): seq<seq<char>>
  {
    seq(|rows|, y requires 0 <= y < |rows| => WidenRow(rows[y]))
  }

  /** How many lines of the map there are from line i on: the index of
      the first blank line at or after i, or the number of lines. */
  function MapEnd(lines: seq<string>, i: nat): (k: nat)
    requires i <= |lines|
    ensures i <= k <= |lines| && forall j :: i <= j < k ==> |lines[j]| > 0
    ensures k < |lines| ==> |lines[k]| == 0
    decreases |lines| - i
  {
    if i == |lines| || lines[i] == [] then i else MapEnd(lines, i + 1)
  }

  /** The column of the last '@' of a line, if it has one. */
  function LastPlayer(line: string): (r: Option<nat>)
    ensures r.None? ==> forall x :: 0 <= x < |line| ==> line[x] != Player
    ensures r.Some? ==> r.value < |line| && line[r.value] == Player
                        && forall x :: r.value < x < |line| ==> line[x] != Player
  {
    if line == [] then None
    else if line[|line| - 1] == Player then Some(|line| - 1)
    else
      var r := LastPlayer(line[..|line| - 1]);
      assert forall x :: 0 <= x < |line| - 1 ==> line[..|line| - 1][x] == line[x];
      r
  }

  /** The robot's position after reading row y: the widened position of
      the row's last '@', or where it was before. */
  function Placed(x: Option<nat>, y: nat, before: Vector): Vector
  {
    match x
    case Some(x) => Vector(2 * x, y)
    case None => before
  }

  predicate HasPlayer(rows: seq<string>)
  {
    exists y, x :: 0 <= y < |rows| && 0 <= x < |rows[y]| && rows[y][x] == Player
  }

  /** p is the widened position of an '@' that no later '@' follows, in
      reading order. */
  predicate LastPlayerAt(rows: seq<string>, p: Vector)
  {
    && 0 <= p.y < |rows| && p.x % 2 == 0 && 0 <= p.x / 2 < |rows[p.y]| && rows[p.y][p.x / 2] == Player
    && forall y, x :: p.y <= y < |rows| && 0 <= x < |rows[y]| && (y > p.y || 2 * x > p.x) ==> rows[y][x] != Player
  }

  /** Where reading the rows leaves the robot: the widened position of the
      last '@', or the zero vector when there is none. */
  function PlayerPos(rows: seq<string>): (p: Vector)
    ensures !HasPlayer(rows) ==> p == Vector(0, 0)
    ensures HasPlayer(rows) ==> LastPlayerAt(rows, p)
  {
    if rows == [] then Vector(0, 0)
    else
      var n := |rows| - 1;
      var p := Placed(LastPlayer(rows[n]), n, PlayerPos(rows[..n]));
      assert forall y :: 0 <= y < n ==> rows[..n][y] == rows[y];
      p
  }

  /** Widening a walled map gives a walled map, and the robot read from a
      map with an '@' stands on an '@' of the widened grid: the board read
      is valid. */
  lemma WidenValid(rows: seq<string>)
    requires Walled(rows)
    ensures Walled(Widen(rows))
    ensures HasPlayer(rows) ==> InGrid(Widen(rows), PlayerPos(rows)) && At(Widen(rows), PlayerPos(rows)) == Player
  {
    var g := Widen(rows);
    forall y, x | 0 <= y < |g| && 0 <= x < |g[y]|
      ensures |g[y]| == |g[0]|
      ensures (y == 0 || y == |g| - 1 || x == 0 || x == |g[y]| - 1) ==> g[y][x] == Wall
    {
      assert g[y] == WidenRow(rows[y]);
      WidenRowIndex(rows[y], x);
      if x == |g[y]| - 1 {
        assert x / 2 == |rows[y]| - 1;
      }
    }
    if HasPlayer(rows) {
      var p := PlayerPos(rows);
      assert g[p.y] == WidenRow(rows[p.y]) && p.x / 2 < |rows[p.y]|;
      WidenRowIndex(rows[p.y], p.x);
    }
  }

  predicate NoHalves(rows: seq<string>)
  {
    forall y, x :: 0 <= y < |rows| && 0 <= x < |rows[y]| ==> rows[y][x] != LBox && rows[y][x] != RBox
  }

  /** A map without box halves widens to a grid whose halves come in
      pairs. */
  lemma WidenPaired(rows: seq<string>)
    requires NoHalves(rows)
    ensures Paired(Widen(rows))
  {
    var g := Widen(rows);
    forall y | 0 <= y < |g|
      ensures PairedRow(g[y])
    {
      RowPaired(rows[y], g[y]);
    }
  }

  /** The two cells a cell that is not already a half widens to hold
      either both halves of a box, in order, or neither. */
  lemma WidenedPair(line: string, i: nat)
    requires i < |line| && line[i] != LBox && line[i] != RBox
    ensures 2 * i + 1 < |WidenRow(line)|
    ensures WidenRow(line)[2 * i] != RBox && WidenRow(line)[2 * i + 1] != LBox
    ensures WidenRow(line)[2 * i] == LBox <==> WidenRow(line)[2 * i + 1] == RBox
  {
    WidenRowAt(line, i);
  }

  lemma WidenedPairedAt(line: string, x: nat)
    requires x < |WidenRow(line)| && line[x / 2] != LBox && line[x / 2] != RBox
    ensures PairedAt(WidenRow(line), x)
  {
    var i := x / 2;
    WidenedPair(line, i);
    assert x == 2 * i || x == 2 * i + 1;
  }

  lemma RowPaired(line: string, r: seq<char>)
    requires forall x :: 0 <= x < |line| ==> line[x] != LBox && line[x] != RBox
    requires r == WidenRow(line)
    ensures PairedRow(r)
  {
    forall x | 0 <= x < |r|
      ensures PairedAt(r, x)
    {
      WidenedPairedAt(line, x);
    }
  }

  /** Each box of a map without box halves becomes exactly one '[' and one
      ']'. */
  lemma {:induction false} WidenCount(rows: seq<string>, h: char, n: nat)
    requires NoHalves(rows) && (h == LBox || h == RBox) && n <= |rows|
    ensures Count(Widen(rows), h, n) == Count(rows, Box, n)
  {
    if n > 0 {
      var line := rows[n - 1];
      var g := Widen(rows);
      WidenCount(rows, h, n - 1);
      assert forall x :: 0 <= x < |line| ==> line[x] != LBox && line[x] != RBox by {
        forall x | 0 <= x < |line| ensures line[x] != LBox && line[x] != RBox {
          assert rows[n - 1][x] == line[x];
        }
      }
      WidenRowCount(line, h, |line|);
      assert g[n - 1] == WidenRow(line);
    }
  }

  /** A widened cell holds one box half exactly when the cell held a box. */
  lemma WidenCellCount(c: char, h: char)
    requires c != LBox && c != RBox && (h == LBox || h == RBox)
    ensures (if WidenCell(c)[0] == h then 1 else 0) + (if WidenCell(c)[1] == h then 1 else 0) == if c == Box then 1 else 0
  {
  }

  lemma RowCountTwo<T>(row: seq<T>, c: T, j: nat)
    requires j + 2 <= |row|
    ensures RowCount(row, c, j + 2) == RowCount(row, c, j) + (if row[j] == c then 1 else 0) + (if row[j + 1] == c then 1 else 0)
  {
  }

  lemma {:induction false} WidenRowCount(line: string, h: char, k: nat)
    requires k <= |line| && (h == LBox || h == RBox)
    requires forall x :: 0 <= x < |line| ==> line[x] != LBox && line[x] != RBox
    ensures RowCount(WidenRow(line), h, 2 * k) == RowCount(line, Box, k)
  {
    if k > 0 {
      var i := k - 1;
      WidenRowCount(line, h, i);
      WidenRowAt(line, i);
      WidenCellCount(line[i], h);
      RowCountTwo(WidenRow(line), h, 2 * i);
    }
  }

  // ---------------------------------------------------------------------
  // Moving

  /** The other half of the box whose half c stands at v, when a vertical
      move has to push it too. */
  function Partner(v: Vector, c: char, m: char): (r: Option<Vector>)
    ensures r.Some? ==> Vertical(m) && r.value.y == v.y && (r.value.x == v.x + 1 || r.value.x == v.x - 1)
  {
    if Vertical(m) && c == LBox then Some(Vector(v.x + 1, v.y))
    else if Vertical(m) && c == RBox then Some(Vector(v.x - 1, v.y))
    else None
  }

  /** A cell that is not a wall lies strictly inside the border. */
  lemma Interior(g: seq<seq<char>>, v: Vector)
    requires Walled(g) && InGrid(g, v) && At(g, v) != Wall
    ensures 0 < v.y < |g| - 1 && 0 < v.x < |g[0]| - 1
  {
  }

  /** Whether the object at pos can take one step, with everything it
      pushes: a wall stops it, an empty cell lets it go, a box half pushed
      up or down needs both halves to move, anything else needs the next
      cell to move. */
  function CanMove(g: seq<seq<char>>, pos: Vector, m: char): bool
    requires Walled(g) && IsMove(m) && InGrid(g, pos) && InGrid(g, MoveVector(pos, m))
    decreases Reach(g, pos, m)
  {
    var newPos := MoveVector(pos, m);
    var newCell := At(g, newPos);
    if newCell == Wall then false
    else if newCell == Empty then true
    else
      Interior(g, newPos);
      match Partner(newPos, newCell, m)
      case Some(newPos2) => CanMove(g, newPos, m) && CanMove(g, newPos2, m)
      case None => CanMove(g, newPos, m)
  }

  /** What Move does to the grid; None where the Go code indexes out of
      range. */
  function MoveF(g: seq<seq<char>>, pos: Vector, m: char): (r: Option<seq<seq<char>>>)
    requires Rect(g) && IsMove(m) && InGrid(g, pos)
    ensures r.Some? ==> SameShape(g, r.value)
    decreases Reach(g, pos, m)
  {
    var cell := At(g, pos);
    var newPos := MoveVector(pos, m);
    if !InGrid(g, newPos) then None
    else
      var newCell := At(g, newPos);
      if newCell == Empty then Some(Set(Set(g, pos, Empty), newPos, cell))
      else if newCell == Wall then Some(g)
      else
        match MoveF(g, newPos, m)
        case None => None
        case Some(g1) =>
          match Partner(newPos, newCell, m)
          case None => Some(Set(Set(g1, pos, Empty), newPos, cell))
          case Some(newPos2) =>
            if !InGrid(g1, newPos2) then None
            else
              match MoveF(g1, newPos2, m)
              case None => None
              case Some(g2) => Some(Set(Set(g2, pos, Empty), newPos, cell))
  }

  class Board {
    var Cells: seq<seq<char>>
    var Pos: Vector

    /** The robot stands on the board, in a walled warehouse, and every
        box is whole. */
    ghost predicate Valid()
      reads this
    {
      Walled(Cells) && Paired(Cells) && InGrid(Cells, Pos) && At(Cells, Pos) == Player
    }

    /** The zero board: no rows, the robot at the origin. */
    constructor ()
      ensures Cells == [] && Pos == Vector(0, 0)
    {
      Cells := [];
      Pos := Vector(0, 0);
    }

    function Get(v: Vector): char
      reads this
      requires InGrid(Cells, v)
    {
      Cells[v.y][v.x]
    }

    method SetCell(v: Vector, c: char)
      requires InGrid(Cells, v)
      modifies this
      ensures Cells == Set(old(Cells), v, c) && Pos == old(Pos)
    {
      Cells := Cells[v.y := Cells[v.y][v.x := c]];
    }

    /** Moves the object at pos one step, first moving what stands in the
        way (both halves of a box pushed up or down); ok is false where the
        Go code would index out of range. */
    method Move(pos: Vector, move: char) returns (ok: bool)
      requires Rect(Cells) && IsMove(move) && InGrid(Cells, pos)
      modifies this
      ensures ok == MoveF(old(Cells), pos, move).Some?
      ensures ok ==> Cells == MoveF(old(Cells), pos, move).value
      ensures Pos == old(Pos)
      decreases Reach(Cells, pos, move)
    {
      var cell := Get(pos);
      var newPos := MoveVector(pos, move);
      if !InGrid(Cells, newPos) {
        return false;
      }
      var newCell := Get(newPos);

      if newCell == Empty {
        SetCell(pos, Empty);
        SetCell(newPos, cell);
        return true;
      }

      if newCell == Wall {
        return true;
      }

      var newPos2: Option<Vector> := None;
      if move == '^' || move == 'v' {
        if newCell == LBox {
          newPos2 := Some(Vector(newPos.x + 1, newPos.y));
        }
        if newCell == RBox {
          newPos2 := Some(Vector(newPos.x - 1, newPos.y));
        }
      }
      assert newPos2 == Partner(newPos, newCell, move);

      ok := Move(newPos, move);
      if !ok {
        return;
      }

      if newPos2.Some? {
        if !InGrid(Cells, newPos2.value) {
          return false;
        }
        ok := Move(newPos2.value, move);
        if !ok {
          return;
        }
      }

      SetCell(pos, Empty);
      SetCell(newPos, cell);
    }

    /** The robot moves, and its position with it, only when CanMove
        allows it. Then everything it pushes takes one step along the move
        (both halves of every box pushed up or down), the cell it leaves is
        empty, walls stay, every box stays whole and no kind of cell gains
        or loses a cell; ok is false only where the Go code would index out
        of range, which a valid board never does. */
    method MoveRobot(move: char) returns (ok: bool)
      requires Valid() && IsMove(move)
      modifies this
      ensures ok && Valid()
      ensures !CanMove(old(Cells), old(Pos), move) ==> Cells == old(Cells) && Pos == old(Pos)
      ensures CanMove(old(Cells), old(Pos), move) ==>
                && MoveF(old(Cells), old(Pos), move) == Some(Cells)
                && Cells == Shift(old(Cells), Pushed(old(Cells), old(Pos), move), move)
                && Pos == MoveVector(old(Pos), move)
                && At(Cells, old(Pos)) == Empty
      ensures SameWalls(old(Cells), Cells)
      ensures forall c :: Count(Cells, c, |Cells|) == Count(old(Cells), c, |old(Cells)|)
    {
      ok := true;
      if CanMove(Cells, Pos, move) {
        ghost var g := Cells;
        ghost var t := Pushed(g, Pos, move);
        PairedAll(g, t, Pos);
        MoveShifts(g, Pos, move, Player);
        forall c
          ensures Count(Shift(g, t, move), c, |g|) == Count(g, c, |g|)
        {
          MoveShifts(g, Pos, move, c);
        }
        ShiftWalls(g, Pos, move);
        ShiftPaired(g, Pos, move);
        ShiftPlayer(g, Pos, move);
        ShiftLeaves(g, Pos, move);
        ok := Move(Pos, move);
        Pos := MoveVector(Pos, move);
      }
    }

    /** The sum of x + 100 y over the left box halves. */
    method Score() returns (score: int)
      ensures score == ScoreRows(Cells, LBox, |Cells|)
    {
      score := 0;
      for y := 0 to |Cells|
        invariant score == ScoreRows(Cells, LBox, y)
      {
        var row := Cells[y];
        for x := 0 to |row|
          invariant score == ScoreRows(Cells, LBox, y) + RowScore(row, LBox, y, x)
        {
          if row[x] == LBox {
            score := score + x + y * 100;
          }
        }
      }
    }
  }

  /** Reads the map lines up to the first blank one, widening every cell;
      the robot ends at the widened position of the last '@'. */
  method ReadBoard(lines: seq<string>) returns (b: Board)
    ensures fresh(b)
    ensures b.Cells == Widen(lines[..MapEnd(lines, 0)]) && b.Pos == PlayerPos(lines[..MapEnd(lines, 0)])
  {
    var cells: seq<seq<char>> := [];
    var pos := Vector(0, 0);
    var n := 0;
    while n < |lines| && lines[n] != []
      invariant ReadInv(lines, n, cells, pos)
    {
      var row, pos1 := ReadRow(lines[n], n, pos);
      ghost var n0, cells0, pos0 := n, cells, pos;
      cells, pos, n := cells + [row], pos1, n + 1;
      ReadStep(lines, n0, cells0, pos0, n, cells, pos);
    }
    b := new Board();
    b.Cells := cells;
    b.Pos := pos;
  }

  /** One line of the map, widened; an '@' moves the robot to its widened
      position in row y. */
  method ReadRow(line: string, y: nat, pos0: Vector) returns (row: seq<char>, pos: Vector)
    ensures row == WidenRow(line)
    ensures pos == Placed(LastPlayer(line), y, pos0)
  {
    row := [];
    pos := pos0;
    for x := 0 to |line|
      invariant row == WidenRow(line[..x])
      invariant pos == Placed(LastPlayer(line[..x]), y, pos0)
    {
      var c1 := line[x];
      var c2 := c1;
      RowStep(line, x);
      if c1 == Player {
        pos := Vector(|row|, y);
        c2 := Empty;
      }
      if c1 == Box {
        c1 := LBox;
        c2 := RBox;
      }
      assert [c1, c2] == WidenCell(line[x]);
      row := row + [c1];
      row := row + [c2];
    }
    assert line[..|line|] == line;
  }

  lemma RowStep(line: string, x: nat)
    requires x < |line|
    ensures WidenRow(line[..x + 1]) == WidenRow(line[..x]) + WidenCell(line[x])
    ensures LastPlayer(line[..x + 1]) == if line[x] == Player then Some(x) else LastPlayer(line[..x])
  {
    assert line[..x + 1][..x] == line[..x];
  }

  /** What ReadBoard keeps: it has read and widened the first n lines,
      all of them before the first blank line. */
  ghost predicate ReadInv(lines: seq<string>, n: nat, cells: seq<seq<char>>, pos: Vector)
  {
    n <= |lines| && MapEnd(lines, n) == MapEnd(lines, 0)
    && cells == Widen(lines[..n]) && pos == PlayerPos(lines[..n])
  }

  lemma ReadStep(lines: seq<string>, n: nat, cells: seq<seq<char>>, pos: Vector,
                 n': nat, cells': seq<seq<char>>, pos': Vector)
    requires ReadInv(lines, n, cells, pos) && n < |lines| && lines[n] != []
    requires n' == n + 1 && cells' == cells + [WidenRow(lines[n])] && pos' == Placed(LastPlayer(lines[n]), n, pos)
    ensures ReadInv(lines, n', cells', pos')
  {
    RowsStep(lines, n);
  }

  lemma RowsStep(lines: seq<string>, n: nat)
    requires n < |lines|
    ensures Widen(lines[..n + 1]) == Widen(lines[..n]) + [WidenRow(lines[n])]
    ensures PlayerPos(lines[..n + 1]) == Placed(LastPlayer(lines[n]), n, PlayerPos(lines[..n]))
  {
    assert lines[..n + 1][..n] == lines[..n];
    assert Widen(lines[..n + 1]) == Widen(lines[..n]) + [WidenRow(lines[n])];
  }

  // ---------------------------------------------------------------------
  // What a move changes

  /** Whether v lies strictly ahead of q for the move: in a further row for
      a vertical move, further along the same row for a horizontal one. */
  predicate Ahead(q: Vector, m: char, v: Vector)
  {
    if m == '^' then v.y < q.y
    else if m == 'v' then v.y > q.y
    else if m == '<' then v.y == q.y && v.x < q.x
    else if m == '>' then v.y == q.y && v.x > q.x
    else false
  }

  /** Move from q rewrites q and cells ahead of it only: the row behind a
      vertical push, and the part of the row behind a horizontal one, stay
      as they were. */
  lemma {:induction false} MoveFrame(g: seq<seq<char>>, q: Vector, m: char)
    requires Rect(g) && IsMove(m) && InGrid(g, q)
    requires MoveF(g, q, m).Some?
    ensures forall v :: InGrid(g, v) && v != q && !Ahead(q, m, v) ==> At(MoveF(g, q, m).value, v) == At(g, v)
    decreases Reach(g, q, m)
  {
    var newPos := MoveVector(q, m);
    var newCell := At(g, newPos);
    if newCell != Empty && newCell != Wall {
      MoveFrame(g, newPos, m);
      var g2 := MoveF(g, newPos, m).value;
      var partner := Partner(newPos, newCell, m);
      if partner.Some? {
        MoveFrame(g2, partner.value, m);
        g2 := MoveF(g2, partner.value, m).value;
      }
      var r := MoveF(g, q, m).value;
      assert r == Set(Set(g2, q, Empty), newPos, At(g, q));
      forall v | InGrid(g, v) && v != q && !Ahead(q, m, v)
        ensures At(r, v) == At(g, v)
      {
        Behind(q, m, v);
        AtSet(g2, q, Empty, v);
        AtSet(Set(g2, q, Empty), newPos, At(g, q), v);
      }
    }
  }

  /** A cell behind q is behind the next cell along the move, and behind
      that cell's partner. */
  lemma Behind(q: Vector, m: char, v: Vector)
    requires IsMove(m) && v != q && !Ahead(q, m, v)
    ensures v != MoveVector(q, m) && !Ahead(MoveVector(q, m), m, v)
    ensures forall c :: Partner(MoveVector(q, m), c, m).Some? ==>
              v != Partner(MoveVector(q, m), c, m).value && !Ahead(Partner(MoveVector(q, m), c, m).value, m, v)
  {
  }

  // ---------------------------------------------------------------------
  // Horizontal moves: a row of cells

  /** How far the run of cells that are neither walls nor empty reaches
      ahead of pos along a horizontal move: the first wall or empty cell is
      this many steps along. */
  ghost function HRunEnd(g: seq<seq<char>>, pos: Vector, m: char): (e: nat)
    requires Walled(g) && IsMove(m) && !Vertical(m) && InGrid(g, pos) && At(g, pos) != Wall
    ensures e >= 1 && forall i :: 1 <= i <= e ==> InGrid(g, Along(pos, m, i))
    ensures At(g, Along(pos, m, e)) == Wall || At(g, Along(pos, m, e)) == Empty
    ensures forall i :: 1 <= i < e ==> At(g, Along(pos, m, i)) != Wall && At(g, Along(pos, m, i)) != Empty
    decreases Reach(g, pos, m)
  {
    Inside(g, pos, m);
    var newPos := MoveVector(pos, m);
    assert Along(pos, m, 1) == newPos;
    if At(g, newPos) != Wall && At(g, newPos) != Empty then
      var e := 1 + HRunEnd(g, newPos, m);
      assert forall i :: 1 <= i <= e ==> Along(pos, m, i) == Along(newPos, m, i - 1);
      e
    else 1
  }

  /** A horizontal move can go exactly when the cell past the run of
      objects ahead is empty rather than a wall. */
  lemma {:induction false} HorizontalCanMove(g: seq<seq<char>>, pos: Vector, m: char)
    requires Walled(g) && IsMove(m) && !Vertical(m) && InGrid(g, pos) && At(g, pos) != Wall
    ensures CanMove(g, pos, m) <==> At(g, Along(pos, m, HRunEnd(g, pos, m))) == Empty
    decreases Reach(g, pos, m)
  {
    Inside(g, pos, m);
    var newPos := MoveVector(pos, m);
    assert Along(pos, m, 1) == newPos;
    if At(g, newPos) != Wall && At(g, newPos) != Empty {
      HorizontalCanMove(g, newPos, m);
      assert Along(newPos, m, HRunEnd(g, newPos, m)) == Along(pos, m, HRunEnd(g, pos, m));
    }
  }

  // ---------------------------------------------------------------------
  // Vertical moves: both halves of a box

  /** Pushing a box half up or down when the cells beyond both halves are
      empty: CanMove allows it and the box moves as a whole, its other half
      included. */
  lemma VerticalOneBox(g: seq<seq<char>>, pos: Vector, m: char)
    requires Walled(g) && IsMove(m) && Vertical(m) && InGrid(g, pos) && At(g, pos) != Wall
    requires At(g, MoveVector(pos, m)) == LBox || At(g, MoveVector(pos, m)) == RBox
    requires var n := MoveVector(pos, m);
             var n2 := Partner(n, At(g, n), m).value;
             At(g, MoveVector(n, m)) == Empty && At(g, MoveVector(n2, m)) == Empty
    ensures CanMove(g, pos, m) && MoveF(g, pos, m).Some?
    ensures var n := MoveVector(pos, m);
            var n2 := Partner(n, At(g, n), m).value;
            forall v :: InGrid(g, v) ==>
              At(MoveF(g, pos, m).value, v) ==
                if v == pos || v == n2 then Empty
                else if v == n then At(g, pos)
                else if v == MoveVector(n, m) then At(g, n)
                else if v == MoveVector(n2, m) then At(g, n2)
                else At(g, v)
  {
    var n := MoveVector(pos, m);
    var n2 := Partner(n, At(g, n), m).value;
    var g1 := Set(Set(g, n, Empty), MoveVector(n, m), At(g, n));
    assert MoveF(g, n, m) == Some(g1);
    AtSet(g, n, Empty, n2);
    AtSet(Set(g, n, Empty), MoveVector(n, m), At(g, n), n2);
    AtSet(g, n, Empty, MoveVector(n2, m));
    AtSet(Set(g, n, Empty), MoveVector(n, m), At(g, n), MoveVector(n2, m));
    var g2 := Set(Set(g1, n2, Empty), MoveVector(n2, m), At(g, n2));
    assert MoveF(g1, n2, m) == Some(g2);
    var r := Set(Set(g2, pos, Empty), n, At(g, pos));
    assert MoveF(g, pos, m) == Some(r);
    forall v | InGrid(g, v)
      ensures At(r, v) ==
                if v == pos || v == n2 then Empty
                else if v == n then At(g, pos)
                else if v == MoveVector(n, m) then At(g, n)
                else if v == MoveVector(n2, m) then At(g, n2)
                else At(g, v)
    {
      AtSet(g, n, Empty, v);
      AtSet(Set(g, n, Empty), MoveVector(n, m), At(g, n), v);
      AtSet(g1, n2, Empty, v);
      AtSet(Set(g1, n2, Empty), MoveVector(n2, m), At(g, n2), v);
      AtSet(g2, pos, Empty, v);
      AtSet(Set(g2, pos, Empty), n, At(g, pos), v);
    }
  }

  // ---------------------------------------------------------------------
  // Any move: everything pushed takes one step

  /** The cell a move brings into v: the one just behind it. */
  function Back(v: Vector, m: char): (r: Vector)
    requires IsMove(m)
    ensures MoveVector(r, m) == v
  {
    if m == '^' then Vector(v.x, v.y + 1)
    else if m == 'v' then Vector(v.x, v.y - 1)
    else if m == '<' then Vector(v.x + 1, v.y)
    else Vector(v.x - 1, v.y)
  }

  lemma BackStep(v: Vector, m: char)
    requires IsMove(m)
    ensures Back(MoveVector(v, m), m) == v
  {
  }

  /** The cells a move from pos pushes, pos included: the cell ahead when
      it holds something, with all it pushes, and for a box half pushed up
      or down the other half too, with all that one pushes. */
  ghost function Pushed(g: seq<seq<char>>, pos: Vector, m: char): set<Vector>
    requires Walled(g) && IsMove(m) && InGrid(g, pos) && InGrid(g, MoveVector(pos, m))
    decreases Reach(g, pos, m)
  {
    var newPos := MoveVector(pos, m);
    var newCell := At(g, newPos);
    if newCell == Wall || newCell == Empty then {pos}
    else
      Interior(g, newPos);
      match Partner(newPos, newCell, m)
      case Some(newPos2) => {pos} + Pushed(g, newPos, m) + Pushed(g, newPos2, m)
      case None => {pos} + Pushed(g, newPos, m)
  }

  /** The grid after every cell of t hands its content one step along the
      move: a cell of t is left empty unless a cell of t moves into it, and
      every other cell stays as it was. */
  ghost function Shift(g: seq<seq<char>>, t: set<Vector>, m: char): (r: seq<seq<char>>)
    requires IsMove(m)
    ensures SameShape(g, r)
  {
    seq(|g|, y requires 0 <= y < |g| =>
      seq(|g[y]|, x requires 0 <= x < |g[y]| => Shifted(g, t, m, Vector(x, y))))
  }

  /** Cell v of the shifted grid. */
  ghost function Shifted(g: seq<seq<char>>, t: set<Vector>, m: char, v: Vector): char
    requires IsMove(m) && InGrid(g, v)
  {
    if Back(v, m) in t && InGrid(g, Back(v, m)) then At(g, Back(v, m))
    else if v in t then Empty
    else At(g, v)
  }

  lemma AtShift(g: seq<seq<char>>, t: set<Vector>, m: char, v: Vector)
    requires IsMove(m) && InGrid(g, v)
    ensures At(Shift(g, t, m), v) == Shifted(g, t, m, v)
  {
  }

  /** Two grids of one shape that agree on every cell are the same grid. */
  lemma SameGrid(g: seq<seq<char>>, h: seq<seq<char>>)
    requires SameShape(g, h) && forall v :: InGrid(g, v) ==> At(g, v) == At(h, v)
    ensures g == h
  {
    forall y | 0 <= y < |g|
      ensures g[y] == h[y]
    {
      forall x | 0 <= x < |g[y]|
        ensures g[y][x] == h[y][x]
      {
        assert InGrid(g, Vector(x, y));
      }
    }
  }

  /** Every cell of s other than root that holds a box half has the other
      half beside it. */
  ghost predicate PairedOn(g: seq<seq<char>>, s: set<Vector>, root: Vector)
  {
    forall v :: v in s && v != root && InGrid(g, v) ==> PairedAt(g[v.y], v.x)
  }

  /** The partner of a paired half holds the other half, and that half's
      partner is the first. */
  lemma PartnerBack(g: seq<seq<char>>, v: Vector, m: char)
    requires InGrid(g, v) && PairedAt(g[v.y], v.x) && Partner(v, At(g, v), m).Some?
    ensures var w := Partner(v, At(g, v), m).value;
            && InGrid(g, w) && (At(g, w) == LBox || At(g, w) == RBox) && At(g, w) != At(g, v)
            && Partner(w, At(g, w), m) == Some(v)
  {
  }

  /** Where the pushed cells lie: on the grid, pos or ahead of it, each
      with all it pushes itself, and each able to move when pos is. */
  lemma PushedWhere(g: seq<seq<char>>, pos: Vector, m: char)
    requires Walled(g) && IsMove(m) && InGrid(g, pos) && InGrid(g, MoveVector(pos, m))
    ensures pos in Pushed(g, pos, m)
    ensures forall v :: v in Pushed(g, pos, m) ==>
              && InGrid(g, v) && InGrid(g, MoveVector(v, m))
              && (v == pos || Ahead(pos, m, v))
              && Pushed(g, v, m) <= Pushed(g, pos, m)
              && (CanMove(g, pos, m) ==> CanMove(g, v, m))
  {
    PushedPlace(g, pos, m);
    PushedClosed(g, pos, m);
  }

  /** The pushed cells lie on the grid, at pos or ahead of it. */
  lemma {:induction false} PushedPlace(g: seq<seq<char>>, pos: Vector, m: char)
    requires Walled(g) && IsMove(m) && InGrid(g, pos) && InGrid(g, MoveVector(pos, m))
    ensures pos in Pushed(g, pos, m)
    ensures forall v :: v in Pushed(g, pos, m) ==>
              InGrid(g, v) && InGrid(g, MoveVector(v, m)) && (v == pos || Ahead(pos, m, v))
    decreases Reach(g, pos, m)
  {
    var newPos := MoveVector(pos, m);
    var newCell := At(g, newPos);
    if newCell != Wall && newCell != Empty {
      Interior(g, newPos);
      PushedPlace(g, newPos, m);
      var partner := Partner(newPos, newCell, m);
      if partner.Some? {
        PushedPlace(g, partner.value, m);
      }
    }
  }

  /** Each pushed cell pushes nothing pos does not, and can move when pos
      can. */
  lemma {:induction false} PushedClosed(g: seq<seq<char>>, pos: Vector, m: char)
    requires Walled(g) && IsMove(m) && InGrid(g, pos) && InGrid(g, MoveVector(pos, m))
    requires forall v :: v in Pushed(g, pos, m) ==> InGrid(g, v) && InGrid(g, MoveVector(v, m))
    ensures forall v :: v in Pushed(g, pos, m) ==>
              Pushed(g, v, m) <= Pushed(g, pos, m) && (CanMove(g, pos, m) ==> CanMove(g, v, m))
    decreases Reach(g, pos, m)
  {
    var newPos := MoveVector(pos, m);
    var newCell := At(g, newPos);
    if newCell != Wall && newCell != Empty {
      Interior(g, newPos);
      PushedPlace(g, newPos, m);
      PushedClosed(g, newPos, m);
      var partner := Partner(newPos, newCell, m);
      if partner.Some? {
        PushedPlace(g, partner.value, m);
        PushedClosed(g, partner.value, m);
      }
    }
  }

  /** Below a cell of the pushed set, the pairing facts still hold. */
  lemma PairedSub(g: seq<seq<char>>, pos: Vector, m: char, v: Vector)
    requires Walled(g) && IsMove(m) && InGrid(g, pos) && InGrid(g, MoveVector(pos, m))
    requires PairedOn(g, Pushed(g, pos, m), pos) && v in Pushed(g, pos, m)
    ensures InGrid(g, v) && InGrid(g, MoveVector(v, m)) && PairedOn(g, Pushed(g, v, m), v)
  {
    PushedWhere(g, pos, m);
    PushedWhere(g, v, m);
  }

  /** Every pushed cell except pos holds a box half or another object. */
  lemma {:induction false} PushedFull(g: seq<seq<char>>, pos: Vector, m: char)
    requires Walled(g) && IsMove(m) && InGrid(g, pos) && InGrid(g, MoveVector(pos, m))
    requires PairedOn(g, Pushed(g, pos, m), pos)
    ensures forall v :: v in Pushed(g, pos, m) && v != pos ==>
              InGrid(g, v) && At(g, v) != Wall && At(g, v) != Empty
    decreases Reach(g, pos, m)
  {
    PushedWhere(g, pos, m);
    var newPos := MoveVector(pos, m);
    var newCell := At(g, newPos);
    if newCell != Wall && newCell != Empty {
      Interior(g, newPos);
      PairedSub(g, pos, m, newPos);
      PushedFull(g, newPos, m);
      var partner := Partner(newPos, newCell, m);
      if partner.Some? {
        PartnerBack(g, newPos, m);
        PairedSub(g, pos, m, partner.value);
        PushedFull(g, partner.value, m);
      }
    }
  }

  /** What stands just ahead of a pushed cell is no wall, and is pushed
      too unless it is empty. */
  lemma PushedAhead(g: seq<seq<char>>, pos: Vector, m: char, v: Vector)
    requires Walled(g) && IsMove(m) && InGrid(g, pos) && InGrid(g, MoveVector(pos, m))
    requires CanMove(g, pos, m) && v in Pushed(g, pos, m)
    ensures InGrid(g, MoveVector(v, m)) && At(g, MoveVector(v, m)) != Wall
    ensures At(g, MoveVector(v, m)) != Empty ==> MoveVector(v, m) in Pushed(g, pos, m)
  {
    PushedWhere(g, pos, m);
    var n := MoveVector(v, m);
    if At(g, n) != Wall && At(g, n) != Empty {
      Interior(g, n);
      PushedWhere(g, n, m);
    }
  }

  /** A pushed box half other than pos has its other half pushed too. */
  lemma {:induction false} PushedPartner(g: seq<seq<char>>, pos: Vector, m: char, v: Vector)
    requires Walled(g) && IsMove(m) && InGrid(g, pos) && InGrid(g, MoveVector(pos, m))
    requires PairedOn(g, Pushed(g, pos, m), pos)
    requires v in Pushed(g, pos, m) && v != pos && InGrid(g, v) && Partner(v, At(g, v), m).Some?
    ensures Partner(v, At(g, v), m).value in Pushed(g, pos, m)
    decreases Reach(g, pos, m)
  {
    PushedWhere(g, pos, m);
    var newPos := MoveVector(pos, m);
    var newCell := At(g, newPos);
    Interior(g, newPos);
    var partner := Partner(newPos, newCell, m);
    PairedSub(g, pos, m, newPos);
    PushedWhere(g, newPos, m);
    if v == newPos {
      PushedWhere(g, partner.value, m);
    } else if partner.Some? && v == partner.value {
      PartnerBack(g, newPos, m);
    } else if v in Pushed(g, newPos, m) {
      PushedPartner(g, newPos, m, v);
    } else {
      PairedSub(g, pos, m, partner.value);
      PushedPartner(g, partner.value, m, v);
    }
  }

  /** Along a row, every pushed cell other than pos was pushed by the cell
      just behind it. */
  lemma {:induction false} PushedChain(g: seq<seq<char>>, pos: Vector, m: char, v: Vector)
    requires Walled(g) && IsMove(m) && !Vertical(m) && InGrid(g, pos) && InGrid(g, MoveVector(pos, m))
    requires v in Pushed(g, pos, m) && v != pos
    ensures Back(v, m) in Pushed(g, pos, m)
    decreases Reach(g, pos, m)
  {
    var newPos := MoveVector(pos, m);
    Interior(g, newPos);
    PushedWhere(g, newPos, m);
    if v != newPos {
      PushedChain(g, newPos, m, v);
    }
  }

  /** Shifting a second set whose cells do not step out of cells of the
      first shifts the two together. */
  lemma ShiftCompose(g: seq<seq<char>>, a: set<Vector>, b: set<Vector>, m: char)
    requires IsMove(m) && a !! b
    requires forall w :: w in a + b ==> InGrid(g, w)
    requires forall w :: w in b ==> Back(w, m) !in a
    ensures Shift(Shift(g, a, m), b, m) == Shift(g, a + b, m)
  {
    var h := Shift(g, a, m);
    forall v | InGrid(g, v)
      ensures At(Shift(h, b, m), v) == At(Shift(g, a + b, m), v)
    {
      AtShift(g, a, m, v);
      AtShift(h, b, m, v);
      AtShift(g, a + b, m, v);
      if InGrid(g, Back(v, m)) {
        AtShift(g, a, m, Back(v, m));
      }
    }
    SameGrid(Shift(h, b, m), Shift(g, a + b, m));
  }

  /** A push from a moves only cells that could move and leaves cells that
      could move, so walls stay where they are. */
  lemma ShiftWalls(g: seq<seq<char>>, pos: Vector, m: char)
    requires Walled(g) && IsMove(m) && InGrid(g, pos) && At(g, pos) != Wall
    requires CanMove(g, pos, m) && PairedOn(g, Pushed(g, pos, m), pos)
    ensures SameWalls(g, Shift(g, Pushed(g, pos, m), m)) && Walled(Shift(g, Pushed(g, pos, m), m))
  {
    var h := Shift(g, Pushed(g, pos, m), m);
    forall y, x | 0 <= y < |g| && 0 <= x < |g[y]|
      ensures g[y][x] == Wall <==> h[y][x] == Wall
    {
      WallKept(g, pos, m, Vector(x, y));
    }
    SameWallsWalled(g, h);
  }

  /** One cell of ShiftWalls: a push neither makes nor removes a wall. */
  lemma WallKept(g: seq<seq<char>>, pos: Vector, m: char, v: Vector)
    requires Walled(g) && IsMove(m) && InGrid(g, pos) && At(g, pos) != Wall
    requires CanMove(g, pos, m) && PairedOn(g, Pushed(g, pos, m), pos)
    requires InGrid(g, v)
    ensures At(g, v) == Wall <==> At(Shift(g, Pushed(g, pos, m), m), v) == Wall
  {
    var t := Pushed(g, pos, m);
    AtShift(g, t, m, v);
    if Back(v, m) in t {
      PushedAt(g, pos, m, Back(v, m));
      PushedAhead(g, pos, m, Back(v, m));
      PushedFull(g, pos, m);
    } else if v in t {
      PushedFull(g, pos, m);
    }
  }

  /** One pushed cell: where it lies, and that it pushes nothing the push
      from pos does not. */
  lemma PushedAt(g: seq<seq<char>>, pos: Vector, m: char, v: Vector)
    requires Walled(g) && IsMove(m) && InGrid(g, pos) && InGrid(g, MoveVector(pos, m))
    requires v in Pushed(g, pos, m)
    ensures InGrid(g, v) && InGrid(g, MoveVector(v, m)) && (v == pos || Ahead(pos, m, v))
    ensures Pushed(g, v, m) <= Pushed(g, pos, m) && (CanMove(g, pos, m) ==> CanMove(g, v, m))
  {
    PushedWhere(g, pos, m);
  }

  /** Once the cells pushed from a have shifted, a cell x beside or ahead
      of a that a did not push, and that nothing moved into, still moves:
      it pushes what it pushed before, less what a already moved. */
  lemma {:induction false} PushedAfter(g: seq<seq<char>>, a: Vector, m: char, x: Vector)
    requires Walled(g) && IsMove(m) && Vertical(m) && InGrid(g, a) && At(g, a) != Wall
    requires CanMove(g, a, m) && PairedOn(g, Pushed(g, a, m), a)
    requires InGrid(g, x) && At(g, x) != Wall && CanMove(g, x, m) && PairedOn(g, Pushed(g, x, m), x)
    requires x !in Pushed(g, a, m) && Back(x, m) !in Pushed(g, a, m) && (x.y == a.y || Ahead(a, m, x))
    ensures Walled(Shift(g, Pushed(g, a, m), m))
    ensures CanMove(Shift(g, Pushed(g, a, m), m), x, m)
    ensures Pushed(Shift(g, Pushed(g, a, m), m), x, m) == Pushed(g, x, m) - Pushed(g, a, m)
    decreases Reach(g, x, m), 1
  {
    var t := Pushed(g, a, m);
    var h := Shift(g, t, m);
    ShiftWalls(g, a, m);
    Inside(g, x, m);
    var n := MoveVector(x, m);
    BackStep(x, m);
    AtShift(g, t, m, x);
    AtShift(g, t, m, n);
    if n in t {
      AfterBlocked(g, a, m, x);
    } else if At(g, n) == Empty {
      EmptyAhead(h, x, m);
      EmptyAhead(g, x, m);
    } else {
      AfterFull(g, a, m, x);
    }
  }

  /** The case of PushedAfter where the cell ahead of x holds something a
      did not push: it still moves, and so does x. */
  lemma {:induction false} AfterFull(g: seq<seq<char>>, a: Vector, m: char, x: Vector)
    requires Walled(g) && IsMove(m) && Vertical(m) && InGrid(g, a) && At(g, a) != Wall
    requires CanMove(g, a, m) && PairedOn(g, Pushed(g, a, m), a)
    requires InGrid(g, x) && At(g, x) != Wall && CanMove(g, x, m) && PairedOn(g, Pushed(g, x, m), x)
    requires x !in Pushed(g, a, m) && Back(x, m) !in Pushed(g, a, m) && (x.y == a.y || Ahead(a, m, x))
    requires InGrid(g, MoveVector(x, m)) && MoveVector(x, m) !in Pushed(g, a, m)
    requires At(g, MoveVector(x, m)) != Empty
    ensures Walled(Shift(g, Pushed(g, a, m), m))
    ensures CanMove(Shift(g, Pushed(g, a, m), m), x, m)
    ensures Pushed(Shift(g, Pushed(g, a, m), m), x, m) == Pushed(g, x, m) - Pushed(g, a, m)
    decreases Reach(g, x, m), 0
  {
    var t := Pushed(g, a, m);
    var h := Shift(g, t, m);
    ShiftWalls(g, a, m);
    Inside(g, x, m);
    var n := MoveVector(x, m);
    BackStep(x, m);
    AtShift(g, t, m, n);
    Interior(g, n);
    assert n in Pushed(g, x, m);
    PairedSub(g, x, m, n);
    PushedAfter(g, a, m, n);
    var partner := Partner(n, At(g, n), m);
    if partner.Some? {
      var z := partner.value;
      NextPartner(g, m, x);
      AfterPartner(g, a, m, n, z);
      PairedSub(g, x, m, z);
      PushedAfter(g, a, m, z);
    }
    AfterJoin(g, h, t, m, x);
  }

  /** When the cell ahead of x reads the same in h as in g, and what it
      (and a box's other half) pushes in h is what it pushed in g less t,
      the same goes for x. */
  lemma AfterJoin(g: seq<seq<char>>, h: seq<seq<char>>, t: set<Vector>, m: char, x: Vector)
    requires Walled(g) && Walled(h) && SameShape(g, h) && IsMove(m) && x !in t
    requires InGrid(g, x) && InGrid(g, MoveVector(x, m))
    requires var n := MoveVector(x, m); At(h, n) == At(g, n) && At(g, n) != Wall && At(g, n) != Empty
    requires var n := MoveVector(x, m); 0 < n.y < |g| - 1 && 0 < n.x < |g[0]| - 1
    requires Pushed(h, MoveVector(x, m), m) == Pushed(g, MoveVector(x, m), m) - t
    requires var n := MoveVector(x, m);
             Partner(n, At(g, n), m).Some? ==>
               Pushed(h, Partner(n, At(g, n), m).value, m) == Pushed(g, Partner(n, At(g, n), m).value, m) - t
    ensures Pushed(h, x, m) == Pushed(g, x, m) - t
  {
    var n := MoveVector(x, m);
    Interior(g, n);
  }

  /** The case of PushedAfter where the cell ahead of x was pushed from a:
      it is empty now, so x only moves itself. */
  lemma AfterBlocked(g: seq<seq<char>>, a: Vector, m: char, x: Vector)
    requires Walled(g) && IsMove(m) && Vertical(m) && InGrid(g, a) && At(g, a) != Wall
    requires CanMove(g, a, m) && PairedOn(g, Pushed(g, a, m), a)
    requires InGrid(g, x) && At(g, x) != Wall && (x.y == a.y || Ahead(a, m, x))
    requires x !in Pushed(g, a, m) && MoveVector(x, m) in Pushed(g, a, m)
    ensures Walled(Shift(g, Pushed(g, a, m), m))
    ensures CanMove(Shift(g, Pushed(g, a, m), m), x, m)
    ensures Pushed(Shift(g, Pushed(g, a, m), m), x, m) == Pushed(g, x, m) - Pushed(g, a, m)
  {
    var t := Pushed(g, a, m);
    ShiftWalls(g, a, m);
    Inside(g, x, m);
    BackStep(x, m);
    AtShift(g, t, m, MoveVector(x, m));
    EmptyAhead(Shift(g, t, m), x, m);
    BlockedBefore(g, a, m, x);
  }

  /** With nothing ahead, a cell moves, pushing only itself. */
  lemma EmptyAhead(h: seq<seq<char>>, x: Vector, m: char)
    requires Walled(h) && IsMove(m) && InGrid(h, x) && InGrid(h, MoveVector(x, m))
    requires At(h, MoveVector(x, m)) == Empty
    ensures CanMove(h, x, m) && Pushed(h, x, m) == {x}
  {
  }

  /** A cell x whose next cell a already pushes pushes nothing a does not,
      but itself. */
  lemma BlockedBefore(g: seq<seq<char>>, a: Vector, m: char, x: Vector)
    requires Walled(g) && IsMove(m) && Vertical(m) && InGrid(g, a) && InGrid(g, MoveVector(a, m))
    requires PairedOn(g, Pushed(g, a, m), a)
    requires InGrid(g, x) && InGrid(g, MoveVector(x, m)) && At(g, x) != Wall && x !in Pushed(g, a, m)
    requires MoveVector(x, m) in Pushed(g, a, m) && MoveVector(x, m) != a
    ensures Pushed(g, x, m) - Pushed(g, a, m) == {x}
  {
    var n := MoveVector(x, m);
    PushedAt(g, a, m, n);
    FullAt(g, a, m, n);
    Interior(g, n);
    var partner := Partner(n, At(g, n), m);
    if partner.Some? {
      PartnerClosed(g, a, m, n);
      PushedAt(g, a, m, partner.value);
    }
  }

  /** PushedFull at one cell. */
  lemma FullAt(g: seq<seq<char>>, pos: Vector, m: char, v: Vector)
    requires Walled(g) && IsMove(m) && InGrid(g, pos) && InGrid(g, MoveVector(pos, m))
    requires PairedOn(g, Pushed(g, pos, m), pos) && v in Pushed(g, pos, m) && v != pos
    ensures InGrid(g, v) && At(g, v) != Wall && At(g, v) != Empty
  {
    PushedFull(g, pos, m);
  }

  /** The other half of a box just ahead of x: on the grid, itself a box
      half, pushed from x and able to move when x is. */
  lemma NextPartner(g: seq<seq<char>>, m: char, x: Vector)
    requires Walled(g) && IsMove(m) && Vertical(m) && InGrid(g, x) && At(g, x) != Wall
    requires PairedOn(g, Pushed(g, x, m), x)
    requires At(g, MoveVector(x, m)) == LBox || At(g, MoveVector(x, m)) == RBox
    ensures var n := MoveVector(x, m);
            var z := Partner(n, At(g, n), m).value;
            && InGrid(g, n) && InGrid(g, z) && InGrid(g, MoveVector(z, m)) && z.y == n.y
            && (At(g, z) == LBox || At(g, z) == RBox) && Partner(z, At(g, z), m) == Some(n)
            && n in Pushed(g, x, m) && z in Pushed(g, x, m)
            && (CanMove(g, x, m) ==> CanMove(g, z, m) && CanMove(g, n, m))
  {
    Inside(g, x, m);
    var n := MoveVector(x, m);
    Interior(g, n);
    assert n in Pushed(g, x, m);
    PartnerBack(g, n, m);
  }

  /** In PushedAfter, the other half of a box ahead of x was neither
      pushed from a nor stepped into. */
  lemma AfterPartner(g: seq<seq<char>>, a: Vector, m: char, n: Vector, z: Vector)
    requires Walled(g) && IsMove(m) && Vertical(m) && InGrid(g, a) && InGrid(g, MoveVector(a, m))
    requires CanMove(g, a, m) && PairedOn(g, Pushed(g, a, m), a)
    requires InGrid(g, z) && InGrid(g, Back(z, m)) && z.y != a.y && At(g, z) != Empty
    requires Partner(z, At(g, z), m) == Some(n) && n !in Pushed(g, a, m)
    ensures z !in Pushed(g, a, m) && Back(z, m) !in Pushed(g, a, m)
  {
    PartnerClosed(g, a, m, z);
    AheadClosed(g, a, m, Back(z, m));
  }

  /** PushedPartner as an implication, for cells not known to be pushed. */
  lemma PartnerClosed(g: seq<seq<char>>, pos: Vector, m: char, v: Vector)
    requires Walled(g) && IsMove(m) && InGrid(g, pos) && InGrid(g, MoveVector(pos, m))
    requires PairedOn(g, Pushed(g, pos, m), pos)
    requires v != pos && InGrid(g, v) && Partner(v, At(g, v), m).Some?
    ensures v in Pushed(g, pos, m) ==> Partner(v, At(g, v), m).value in Pushed(g, pos, m)
  {
    if v in Pushed(g, pos, m) {
      PushedPartner(g, pos, m, v);
    }
  }

  /** PushedAhead as an implication, for cells not known to be pushed. */
  lemma AheadClosed(g: seq<seq<char>>, pos: Vector, m: char, v: Vector)
    requires Walled(g) && IsMove(m) && InGrid(g, pos) && InGrid(g, MoveVector(pos, m)) && CanMove(g, pos, m)
    requires InGrid(g, v) && InGrid(g, MoveVector(v, m))
    ensures v in Pushed(g, pos, m) && At(g, MoveVector(v, m)) != Empty ==> MoveVector(v, m) in Pushed(g, pos, m)
  {
    if v in Pushed(g, pos, m) {
      PushedAhead(g, pos, m, v);
    }
  }

  /** Move from pos, when CanMove allows it, shifts exactly the cells pos
      pushes one step along the move, and so keeps how many cells hold c. */
  lemma {:induction false} MoveShifts(g: seq<seq<char>>, pos: Vector, m: char, c: char)
    requires Walled(g) && IsMove(m) && InGrid(g, pos) && At(g, pos) != Wall
    requires CanMove(g, pos, m) && PairedOn(g, Pushed(g, pos, m), pos)
    ensures MoveF(g, pos, m) == Some(Shift(g, Pushed(g, pos, m), m))
    ensures Count(Shift(g, Pushed(g, pos, m), m), c, |g|) == Count(g, c, |g|)
    decreases Reach(g, pos, m), 2
  {
    Inside(g, pos, m);
    if At(g, MoveVector(pos, m)) == Empty {
      IntoEmpty(g, pos, m, c);
    } else {
      PushAhead(g, pos, m, c);
      StepLast(g, pos, m, c);
    }
  }

  /** MoveShifts once everything pos pushes but pos has shifted: pos steps
      into the cell ahead, which that shift has emptied. */
  lemma StepLast(g: seq<seq<char>>, pos: Vector, m: char, c: char)
    requires Walled(g) && IsMove(m) && InGrid(g, pos) && InGrid(g, MoveVector(pos, m))
    requires var s := Pushed(g, pos, m) - {pos};
             && Back(pos, m) !in s && MoveVector(pos, m) in s
             && MoveF(g, pos, m) == Some(Set(Set(Shift(g, s, m), pos, Empty), MoveVector(pos, m), At(g, pos)))
             && Count(Shift(g, s, m), c, |g|) == Count(g, c, |g|)
    ensures MoveF(g, pos, m) == Some(Shift(g, Pushed(g, pos, m), m))
    ensures Count(Shift(g, Pushed(g, pos, m), m), c, |g|) == Count(g, c, |g|)
  {
    var s := Pushed(g, pos, m) - {pos};
    PushedWhere(g, pos, m);
    FinalStep(g, s, pos, m);
    assert s + {pos} == Pushed(g, pos, m);
    SwapCells(Shift(g, s, m), pos, MoveVector(pos, m), At(g, pos), c);
  }

  /** MoveShifts when the cell ahead is empty: pos alone steps. */
  lemma IntoEmpty(g: seq<seq<char>>, pos: Vector, m: char, c: char)
    requires Walled(g) && IsMove(m) && InGrid(g, pos) && InGrid(g, MoveVector(pos, m))
    requires At(g, MoveVector(pos, m)) == Empty
    ensures MoveF(g, pos, m) == Some(Shift(g, Pushed(g, pos, m), m))
    ensures Count(Shift(g, Pushed(g, pos, m), m), c, |g|) == Count(g, c, |g|)
  {
    BackStep(pos, m);
    ShiftNone(g, m);
    FinalStep(g, {}, pos, m);
    assert {} + {pos} == Pushed(g, pos, m);
    SwapCells(g, pos, MoveVector(pos, m), At(g, pos), c);
  }

  /** When pos has something ahead of it, Move first shifts everything pos
      pushes but pos itself, keeping the counts, and then steps pos. */
  lemma {:induction false} PushAhead(g: seq<seq<char>>, pos: Vector, m: char, c: char)
    requires Walled(g) && IsMove(m) && InGrid(g, pos) && At(g, pos) != Wall
    requires CanMove(g, pos, m) && PairedOn(g, Pushed(g, pos, m), pos)
    requires At(g, MoveVector(pos, m)) != Empty
    ensures var s := Pushed(g, pos, m) - {pos};
            && Back(pos, m) !in s && MoveVector(pos, m) in s
            && MoveF(g, pos, m) == Some(Set(Set(Shift(g, s, m), pos, Empty), MoveVector(pos, m), At(g, pos)))
            && Count(Shift(g, s, m), c, |g|) == Count(g, c, |g|)
    decreases Reach(g, pos, m), 1
  {
    Inside(g, pos, m);
    var n := MoveVector(pos, m);
    Interior(g, n);
    if Partner(n, At(g, n), m).Some? {
      PushPair(g, pos, m, c);
    } else {
      PairedSub(g, pos, m, n);
      MoveShifts(g, n, m, c);
      NotPushed(g, n, m, pos);
      NotPushed(g, n, m, Back(pos, m));
      PushedWhere(g, n, m);
      assert Pushed(g, pos, m) - {pos} == Pushed(g, n, m);
    }
  }

  /** PushAhead for a box half pushed up or down: Move shifts what the
      half pushes, then what the other half still pushes in the grid that
      leaves, and the two shifts together are the shift of all of it. */
  lemma {:induction false} PushPair(g: seq<seq<char>>, pos: Vector, m: char, c: char)
    requires Walled(g) && IsMove(m) && InGrid(g, pos) && At(g, pos) != Wall
    requires CanMove(g, pos, m) && PairedOn(g, Pushed(g, pos, m), pos)
    requires At(g, MoveVector(pos, m)) == LBox || At(g, MoveVector(pos, m)) == RBox
    requires Vertical(m)
    ensures var s := Pushed(g, pos, m) - {pos};
            && Back(pos, m) !in s && MoveVector(pos, m) in s
            && MoveF(g, pos, m) == Some(Set(Set(Shift(g, s, m), pos, Empty), MoveVector(pos, m), At(g, pos)))
            && Count(Shift(g, s, m), c, |g|) == Count(g, c, |g|)
    decreases Reach(g, pos, m), 0
  {
    Inside(g, pos, m);
    var n := MoveVector(pos, m);
    Interior(g, n);
    var a := Pushed(g, n, m);
    var q := Partner(n, At(g, n), m).value;
    NextPartner(g, m, pos);
    PairFacts(g, pos, m, n, q);
    MoveShifts(g, n, m, c);
    var g1 := Shift(g, a, m);
    MoveShifts(g1, q, m, c);
    var b := Pushed(g, q, m) - a;
    assert MoveF(g1, q, m) == Some(Shift(g, a + b, m));
  }

  /** What PushPair needs beside the two recursive moves: the other half
      still moves once the first half's pushes are done, it pushes what it
      pushed before less those, and the two shifts add up. */
  lemma PairFacts(g: seq<seq<char>>, pos: Vector, m: char, n: Vector, q: Vector)
    requires Walled(g) && IsMove(m) && InGrid(g, pos) && At(g, pos) != Wall
    requires CanMove(g, pos, m) && PairedOn(g, Pushed(g, pos, m), pos)
    requires Vertical(m) && n == MoveVector(pos, m) && InGrid(g, n) && InGrid(g, MoveVector(n, m))
    requires (At(g, n) == LBox || At(g, n) == RBox) && Partner(n, At(g, n), m) == Some(q)
    requires InGrid(g, q) && InGrid(g, MoveVector(q, m))
    ensures At(g, n) != Wall && CanMove(g, n, m) && PairedOn(g, Pushed(g, n, m), n)
    ensures var g1 := Shift(g, Pushed(g, n, m), m);
            && Walled(g1) && InGrid(g1, q) && At(g1, q) != Wall
            && CanMove(g1, q, m) && PairedOn(g1, Pushed(g1, q, m), q)
            && Pushed(g1, q, m) == Pushed(g, q, m) - Pushed(g, n, m)
    ensures var a := Pushed(g, n, m);
            var b := Pushed(g, q, m) - a;
            && Shift(Shift(g, a, m), b, m) == Shift(g, a + b, m)
            && Pushed(g, pos, m) - {pos} == a + b
            && Back(pos, m) !in a + b && n in a
  {
    Inside(g, pos, m);
    NextPartner(g, m, pos);
    PairedSub(g, pos, m, n);
    PairedSub(g, pos, m, q);
    PairAfter(g, n, m, q);
    PairSets(g, pos, m, n, q);
  }

  /** The other half still moves once the first half's pushes are done,
      pushing what it pushed before less those. */
  lemma PairAfter(g: seq<seq<char>>, n: Vector, m: char, q: Vector)
    requires Walled(g) && IsMove(m) && Vertical(m) && InGrid(g, n) && InGrid(g, MoveVector(n, m))
    requires (At(g, n) == LBox || At(g, n) == RBox) && Partner(n, At(g, n), m) == Some(q)
    requires InGrid(g, q) && InGrid(g, MoveVector(q, m)) && (At(g, q) == LBox || At(g, q) == RBox)
    requires CanMove(g, n, m) && CanMove(g, q, m)
    requires PairedOn(g, Pushed(g, n, m), n) && PairedOn(g, Pushed(g, q, m), q)
    ensures var g1 := Shift(g, Pushed(g, n, m), m);
            && Walled(g1) && InGrid(g1, q) && At(g1, q) != Wall
            && CanMove(g1, q, m) && PairedOn(g1, Pushed(g1, q, m), q)
            && Pushed(g1, q, m) == Pushed(g, q, m) - Pushed(g, n, m)
  {
    var a := Pushed(g, n, m);
    NotPushed(g, n, m, q);
    NotPushed(g, n, m, Back(q, m));
    PushedAfter(g, n, m, q);
    AfterPaired(g, n, m, q);
    AtShift(g, a, m, q);
  }

  /** The two shifts add up to the shift of all pos pushes but pos. */
  lemma PairSets(g: seq<seq<char>>, pos: Vector, m: char, n: Vector, q: Vector)
    requires Walled(g) && IsMove(m) && Vertical(m) && InGrid(g, pos) && InGrid(g, MoveVector(pos, m))
    requires n == MoveVector(pos, m) && InGrid(g, n) && InGrid(g, MoveVector(n, m))
    requires (At(g, n) == LBox || At(g, n) == RBox) && Partner(n, At(g, n), m) == Some(q)
    requires InGrid(g, q) && InGrid(g, MoveVector(q, m)) && CanMove(g, n, m)
    requires PairedOn(g, Pushed(g, q, m), q)
    ensures var a := Pushed(g, n, m);
            var b := Pushed(g, q, m) - a;
            && Shift(Shift(g, a, m), b, m) == Shift(g, a + b, m)
            && Pushed(g, pos, m) - {pos} == a + b
            && Back(pos, m) !in a + b && n in a
  {
    NotPushed(g, n, m, Back(q, m));
    PairCompose(g, n, m, q);
    PairUnion(g, pos, m, n, q);
  }

  /** What pos pushes besides itself is what the two halves push, and
      neither pos nor the cell behind it is among those. */
  lemma PairUnion(g: seq<seq<char>>, pos: Vector, m: char, n: Vector, q: Vector)
    requires Walled(g) && IsMove(m) && Vertical(m) && InGrid(g, pos) && InGrid(g, MoveVector(pos, m))
    requires n == MoveVector(pos, m) && InGrid(g, n) && InGrid(g, MoveVector(n, m))
    requires (At(g, n) == LBox || At(g, n) == RBox) && Partner(n, At(g, n), m) == Some(q)
    requires InGrid(g, q) && InGrid(g, MoveVector(q, m))
    ensures var a := Pushed(g, n, m);
            var b := Pushed(g, q, m) - a;
            && Pushed(g, pos, m) - {pos} == a + b
            && Back(pos, m) !in a + b && n in a
  {
    var a := Pushed(g, n, m);
    NotPushed(g, n, m, pos);
    NotPushed(g, n, m, Back(pos, m));
    NotPushed(g, q, m, pos);
    NotPushed(g, q, m, Back(pos, m));
    Interior(g, n);
    assert Pushed(g, pos, m) == {pos} + a + Pushed(g, q, m);
  }

  lemma PairCompose(g: seq<seq<char>>, n: Vector, m: char, q: Vector)
    requires Walled(g) && IsMove(m) && Vertical(m) && InGrid(g, n) && InGrid(g, MoveVector(n, m))
    requires InGrid(g, q) && InGrid(g, MoveVector(q, m)) && CanMove(g, n, m)
    requires PairedOn(g, Pushed(g, q, m), q) && Back(q, m) !in Pushed(g, n, m)
    ensures var a := Pushed(g, n, m);
            Shift(Shift(g, a, m), Pushed(g, q, m) - a, m) == Shift(g, a + (Pushed(g, q, m) - a), m)
  {
    var a := Pushed(g, n, m);
    OnGrid(g, n, m);
    OnGrid(g, q, m);
    StepsApart(g, n, m, q);
    ShiftCompose(g, a, Pushed(g, q, m) - a, m);
  }

  /** Every pushed cell is on the grid. */
  lemma OnGrid(g: seq<seq<char>>, pos: Vector, m: char)
    requires Walled(g) && IsMove(m) && InGrid(g, pos) && InGrid(g, MoveVector(pos, m))
    ensures forall w :: w in Pushed(g, pos, m) ==> InGrid(g, w)
  {
    PushedWhere(g, pos, m);
  }

  /** A cell neither at pos nor ahead of it is not pushed from pos. */
  lemma NotPushed(g: seq<seq<char>>, pos: Vector, m: char, v: Vector)
    requires Walled(g) && IsMove(m) && InGrid(g, pos) && InGrid(g, MoveVector(pos, m))
    requires v != pos && !Ahead(pos, m, v)
    ensures v !in Pushed(g, pos, m)
  {
    PushedWhere(g, pos, m);
  }

  /** Shifting no cells leaves the grid as it is. */
  lemma ShiftNone(g: seq<seq<char>>, m: char)
    requires IsMove(m)
    ensures Shift(g, {}, m) == g
  {
    forall v | InGrid(g, v)
      ensures At(g, v) == At(Shift(g, {}, m), v)
    {
      AtShift(g, {}, m, v);
    }
    SameGrid(g, Shift(g, {}, m));
  }

  /** The last step of Move: with s shifted, emptying pos and writing its
      content one step ahead shifts pos too. */
  lemma FinalStep(g: seq<seq<char>>, s: set<Vector>, pos: Vector, m: char)
    requires IsMove(m) && InGrid(g, pos) && InGrid(g, MoveVector(pos, m))
    requires pos !in s && Back(pos, m) !in s
    ensures At(Shift(g, s, m), pos) == At(g, pos)
    ensures MoveVector(pos, m) in s ==> At(Shift(g, s, m), MoveVector(pos, m)) == Empty
    ensures Set(Set(Shift(g, s, m), pos, Empty), MoveVector(pos, m), At(g, pos)) == Shift(g, s + {pos}, m)
  {
    var n := MoveVector(pos, m);
    var h := Shift(g, s, m);
    var r := Set(Set(h, pos, Empty), n, At(g, pos));
    BackStep(pos, m);
    AtShift(g, s, m, pos);
    AtShift(g, s, m, n);
    forall v | InGrid(g, v)
      ensures At(r, v) == At(Shift(g, s + {pos}, m), v)
    {
      FinalStepAt(g, s, pos, m, v);
    }
    SameGrid(r, Shift(g, s + {pos}, m));
  }

  /** One cell of FinalStep. */
  lemma FinalStepAt(g: seq<seq<char>>, s: set<Vector>, pos: Vector, m: char, v: Vector)
    requires IsMove(m) && InGrid(g, pos) && InGrid(g, MoveVector(pos, m)) && InGrid(g, v)
    requires pos !in s && Back(pos, m) !in s
    ensures var h := Shift(g, s, m);
            At(Set(Set(h, pos, Empty), MoveVector(pos, m), At(g, pos)), v) == At(Shift(g, s + {pos}, m), v)
  {
    var n := MoveVector(pos, m);
    var h := Shift(g, s, m);
    AtSet(h, pos, Empty, v);
    AtSet(Set(h, pos, Empty), n, At(g, pos), v);
    AtShift(g, s, m, v);
    AtShift(g, s + {pos}, m, v);
    if Back(v, m) == pos {
      assert v == n;
    }
  }

  /** No cell pushed from q but not from n steps out of a cell n pushes:
      the two shifts can run one after the other. */
  lemma StepsApart(g: seq<seq<char>>, n: Vector, m: char, q: Vector)
    requires Walled(g) && IsMove(m) && Vertical(m) && InGrid(g, n) && InGrid(g, MoveVector(n, m))
    requires CanMove(g, n, m) && InGrid(g, q) && InGrid(g, MoveVector(q, m))
    requires PairedOn(g, Pushed(g, q, m), q) && Back(q, m) !in Pushed(g, n, m)
    ensures forall w :: w in Pushed(g, q, m) - Pushed(g, n, m) ==> Back(w, m) !in Pushed(g, n, m)
  {
    PushedWhere(g, n, m);
    PushedWhere(g, q, m);
    forall w | w in Pushed(g, q, m) - Pushed(g, n, m) && w != q
      ensures Back(w, m) !in Pushed(g, n, m)
    {
      FullAt(g, q, m, w);
      if InGrid(g, Back(w, m)) {
        AheadClosed(g, n, m, Back(w, m));
      }
    }
  }

  /** After the shift of what n pushes, the cells q still pushes keep
      their pairing. */
  lemma AfterPaired(g: seq<seq<char>>, n: Vector, m: char, q: Vector)
    requires Walled(g) && IsMove(m) && Vertical(m) && InGrid(g, n) && At(g, n) != Wall
    requires CanMove(g, n, m) && PairedOn(g, Pushed(g, n, m), n)
    requires InGrid(g, q) && InGrid(g, MoveVector(q, m)) && q.y == n.y && PairedOn(g, Pushed(g, q, m), q)
    ensures PairedOn(Shift(g, Pushed(g, n, m), m), Pushed(g, q, m) - Pushed(g, n, m), q)
  {
    var a := Pushed(g, n, m);
    var h := Shift(g, a, m);
    PushedWhere(g, q, m);
    forall u | u in Pushed(g, q, m) - a && u != q && InGrid(h, u)
      ensures PairedAt(h[u.y], u.x)
    {
      AfterPairedAt(g, n, m, q, u);
    }
  }

  lemma AfterPairedAt(g: seq<seq<char>>, n: Vector, m: char, q: Vector, u: Vector)
    requires Walled(g) && IsMove(m) && Vertical(m) && InGrid(g, n) && At(g, n) != Wall
    requires CanMove(g, n, m) && PairedOn(g, Pushed(g, n, m), n)
    requires InGrid(g, q) && InGrid(g, MoveVector(q, m)) && q.y == n.y && PairedOn(g, Pushed(g, q, m), q)
    requires u in Pushed(g, q, m) && u !in Pushed(g, n, m) && u != q
    ensures InGrid(g, u) && PairedAt(Shift(g, Pushed(g, n, m), m)[u.y], u.x)
  {
    var a := Pushed(g, n, m);
    var h := Shift(g, a, m);
    Inside(g, n, m);
    PushedAt(g, q, m, u);
    FullAt(g, q, m, u);
    Untouched(g, n, m, u);
    var p := Partner(u, At(g, u), m);
    if p.Some? {
      var w := p.value;
      PartnerBack(g, u, m);
      PartnerClosed(g, n, m, w);
      Untouched(g, n, m, w);
    }
    PairedKept(g, h, m, u);
  }

  /** A cell that holds something and that n does not push reads the same
      after the shift of what n pushes. */
  lemma Untouched(g: seq<seq<char>>, n: Vector, m: char, v: Vector)
    requires Walled(g) && IsMove(m) && InGrid(g, n) && InGrid(g, MoveVector(n, m)) && CanMove(g, n, m)
    requires InGrid(g, v) && v !in Pushed(g, n, m) && At(g, v) != Empty
    ensures At(Shift(g, Pushed(g, n, m), m), v) == At(g, v)
  {
    AtShift(g, Pushed(g, n, m), m, v);
    if InGrid(g, Back(v, m)) {
      AheadClosed(g, n, m, Back(v, m));
    }
  }

  /** A cell and its partner that read the same in h as in g are paired in
      h as they were in g. */
  lemma PairedKept(g: seq<seq<char>>, h: seq<seq<char>>, m: char, u: Vector)
    requires Vertical(m) && SameShape(g, h) && InGrid(g, u) && PairedAt(g[u.y], u.x)
    requires At(h, u) == At(g, u)
    requires Partner(u, At(g, u), m).Some? ==>
               InGrid(g, Partner(u, At(g, u), m).value) &&
               At(h, Partner(u, At(g, u), m).value) == At(g, Partner(u, At(g, u), m).value)
    ensures PairedAt(h[u.y], u.x)
  {
  }

  // ---------------------------------------------------------------------
  // A push keeps every box whole

  /** The robot's push from pos is possible, on a walled board whose boxes
      are all whole; pos itself holds no box half. */
  ghost predicate Pushable(g: seq<seq<char>>, pos: Vector, m: char)
  {
    && Walled(g) && Paired(g) && IsMove(m) && InGrid(g, pos)
    && At(g, pos) != Wall && At(g, pos) != LBox && At(g, pos) != RBox
    && InGrid(g, MoveVector(pos, m)) && CanMove(g, pos, m)
  }

  /** On a board whose boxes are all whole, every set of cells is paired. */
  lemma PairedAll(g: seq<seq<char>>, s: set<Vector>, root: Vector)
    requires Paired(g)
    ensures PairedOn(g, s, root)
  {
  }

  /** PushedChain as an implication, for cells not known to be pushed. */
  lemma ChainClosed(g: seq<seq<char>>, pos: Vector, m: char, v: Vector)
    requires Walled(g) && IsMove(m) && !Vertical(m) && InGrid(g, pos) && InGrid(g, MoveVector(pos, m))
    requires v != pos
    ensures v in Pushed(g, pos, m) ==> Back(v, m) in Pushed(g, pos, m)
  {
    if v in Pushed(g, pos, m) {
      PushedChain(g, pos, m, v);
    }
  }

  /** The other half of a pushed half is pushed too, whatever the
      direction: by the pairing for a vertical push, and along the row for
      a horizontal one. */
  lemma OtherHalfPushed(g: seq<seq<char>>, pos: Vector, m: char, u: Vector, w: Vector)
    requires Pushable(g, pos, m) && u in Pushed(g, pos, m) && InGrid(g, u)
    requires (At(g, u) == LBox && w == Vector(u.x + 1, u.y)) || (At(g, u) == RBox && w == Vector(u.x - 1, u.y))
    ensures w in Pushed(g, pos, m) && InGrid(g, w) && InGrid(g, MoveVector(w, m))
    ensures At(g, w) == if At(g, u) == LBox then RBox else LBox
  {
    PairedAll(g, Pushed(g, pos, m), pos);
    assert PairedAt(g[u.y], u.x);
    if Vertical(m) {
      PushedPartner(g, pos, m, u);
    } else if MoveVector(u, m) == w {
      PushedAhead(g, pos, m, u);
    } else {
      PushedChain(g, pos, m, u);
    }
    PushedAt(g, pos, m, w);
  }

  /** A pushed half lands with its other half beside it. */
  lemma MovedInHalf(g: seq<seq<char>>, pos: Vector, m: char, u: Vector, w: Vector)
    requires Pushable(g, pos, m) && u in Pushed(g, pos, m) && InGrid(g, u)
    requires (At(g, u) == LBox && w == Vector(u.x + 1, u.y)) || (At(g, u) == RBox && w == Vector(u.x - 1, u.y))
    ensures InGrid(g, MoveVector(w, m))
    ensures At(Shift(g, Pushed(g, pos, m), m), MoveVector(w, m)) == if At(g, u) == LBox then RBox else LBox
  {
    OtherHalfPushed(g, pos, m, u, w);
    BackStep(w, m);
    AtShift(g, Pushed(g, pos, m), m, MoveVector(w, m));
  }

  /** A step moves two cells of one row alike. */
  lemma StepBeside(u: Vector, w: Vector, m: char)
    requires IsMove(m) && w.y == u.y
    ensures MoveVector(w, m).y == MoveVector(u, m).y
    ensures MoveVector(w, m).x - MoveVector(u, m).x == w.x - u.x
  {
  }

  /** A pushed '[' lands as a whole box. */
  lemma MovedInLeft(g: seq<seq<char>>, pos: Vector, m: char, u: Vector)
    requires Pushable(g, pos, m) && u in Pushed(g, pos, m) && InGrid(g, u) && At(g, u) == LBox
    requires InGrid(g, MoveVector(u, m)) && At(Shift(g, Pushed(g, pos, m), m), MoveVector(u, m)) == LBox
    ensures var v := MoveVector(u, m);
            PairedAt(Shift(g, Pushed(g, pos, m), m)[v.y], v.x)
  {
    var v := MoveVector(u, m);
    var w := Vector(u.x + 1, u.y);
    MovedInHalf(g, pos, m, u, w);
    StepBeside(u, w, m);
    assert MoveVector(w, m) == Vector(v.x + 1, v.y);
  }

  /** A pushed ']' lands as a whole box. */
  lemma MovedInRight(g: seq<seq<char>>, pos: Vector, m: char, u: Vector)
    requires Pushable(g, pos, m) && u in Pushed(g, pos, m) && InGrid(g, u) && At(g, u) == RBox
    requires InGrid(g, MoveVector(u, m)) && At(Shift(g, Pushed(g, pos, m), m), MoveVector(u, m)) == RBox
    ensures var v := MoveVector(u, m);
            PairedAt(Shift(g, Pushed(g, pos, m), m)[v.y], v.x)
  {
    var v := MoveVector(u, m);
    var w := Vector(u.x - 1, u.y);
    MovedInHalf(g, pos, m, u, w);
    StepBeside(u, w, m);
    assert MoveVector(w, m) == Vector(v.x - 1, v.y);
  }

  /** A cell the push moves something into is paired afterwards. */
  lemma MovedIn(g: seq<seq<char>>, pos: Vector, m: char, u: Vector)
    requires Pushable(g, pos, m) && u in Pushed(g, pos, m)
    ensures var v := MoveVector(u, m);
            InGrid(g, v) && PairedAt(Shift(g, Pushed(g, pos, m), m)[v.y], v.x)
  {
    var v := MoveVector(u, m);
    PushedAt(g, pos, m, u);
    BackStep(u, m);
    AtShift(g, Pushed(g, pos, m), m, v);
    if At(g, u) == LBox {
      MovedInLeft(g, pos, m, u);
    } else if At(g, u) == RBox {
      MovedInRight(g, pos, m, u);
    }
  }

  /** The other half of a half the push leaves alone is not pushed
      either. */
  lemma PartnerStays(g: seq<seq<char>>, pos: Vector, m: char, v: Vector, w: Vector)
    requires Pushable(g, pos, m) && InGrid(g, v) && v !in Pushed(g, pos, m)
    requires (At(g, v) == LBox && w == Vector(v.x + 1, v.y)) || (At(g, v) == RBox && w == Vector(v.x - 1, v.y))
    ensures InGrid(g, w) && At(g, w) != Wall && At(g, w) != Empty && w != pos && w !in Pushed(g, pos, m)
  {
    HalfBeside(g, v, w);
    if Vertical(m) {
      PartnerClosed(g, pos, m, w);
    } else if MoveVector(w, m) == v {
      AheadClosed(g, pos, m, w);
    } else {
      ChainClosed(g, pos, m, w);
    }
  }

  /** On a board whose boxes are all whole, the cell beside a half on the
      side of its partner holds the other half. */
  lemma HalfBeside(g: seq<seq<char>>, v: Vector, w: Vector)
    requires Walled(g) && Paired(g) && InGrid(g, v)
    requires (At(g, v) == LBox && w == Vector(v.x + 1, v.y)) || (At(g, v) == RBox && w == Vector(v.x - 1, v.y))
    ensures InGrid(g, w) && At(g, w) == if At(g, v) == LBox then RBox else LBox
  {
    assert PairedRow(g[v.y]);
    assert PairedAt(g[v.y], v.x);
  }

  /** A half that the push leaves where it was, and nothing moves into,
      keeps its other half beside it. */
  lemma Stayed(g: seq<seq<char>>, pos: Vector, m: char, v: Vector, w: Vector)
    requires Pushable(g, pos, m) && InGrid(g, v) && v !in Pushed(g, pos, m)
    requires (At(g, v) == LBox && w == Vector(v.x + 1, v.y)) || (At(g, v) == RBox && w == Vector(v.x - 1, v.y))
    ensures InGrid(g, w) && At(Shift(g, Pushed(g, pos, m), m), w) == At(g, w)
    ensures At(g, w) == if At(g, v) == LBox then RBox else LBox
  {
    PairedAll(g, Pushed(g, pos, m), pos);
    assert PairedAt(g[v.y], v.x);
    PartnerStays(g, pos, m, v, w);
    Interior(g, w);
    AheadClosed(g, pos, m, Back(w, m));
    AtShift(g, Pushed(g, pos, m), m, w);
  }

  /** A cell the push neither empties nor moves anything into is paired
      afterwards. */
  lemma StayedPaired(g: seq<seq<char>>, pos: Vector, m: char, v: Vector)
    requires Pushable(g, pos, m) && InGrid(g, v)
    requires v !in Pushed(g, pos, m) && Back(v, m) !in Pushed(g, pos, m)
    ensures PairedAt(Shift(g, Pushed(g, pos, m), m)[v.y], v.x)
  {
    AtShift(g, Pushed(g, pos, m), m, v);
    if At(g, v) == LBox {
      Stayed(g, pos, m, v, Vector(v.x + 1, v.y));
    } else if At(g, v) == RBox {
      Stayed(g, pos, m, v, Vector(v.x - 1, v.y));
    }
  }

  /** After the push every box is still whole. */
  lemma ShiftPaired(g: seq<seq<char>>, pos: Vector, m: char)
    requires Pushable(g, pos, m)
    ensures Paired(Shift(g, Pushed(g, pos, m), m))
  {
    var t := Pushed(g, pos, m);
    var h := Shift(g, t, m);
    forall y | 0 <= y < |h|
      ensures PairedRow(h[y])
    {
      forall x | 0 <= x < |h[y]|
        ensures PairedAt(h[y], x)
      {
        var v := Vector(x, y);
        if Back(v, m) in t {
          MovedIn(g, pos, m, Back(v, m));
        } else if v in t {
          AtShift(g, t, m, v);
        } else {
          StayedPaired(g, pos, m, v);
        }
      }
    }
  }

  /** After the push the robot stands one step further on. */
  lemma ShiftPlayer(g: seq<seq<char>>, pos: Vector, m: char)
    requires Pushable(g, pos, m)
    ensures At(Shift(g, Pushed(g, pos, m), m), MoveVector(pos, m)) == At(g, pos)
  {
    PushedWhere(g, pos, m);
    BackStep(pos, m);
    AtShift(g, Pushed(g, pos, m), m, MoveVector(pos, m));
  }

  /** After the push the cell the robot left is empty. */
  lemma ShiftLeaves(g: seq<seq<char>>, pos: Vector, m: char)
    requires Pushable(g, pos, m)
    ensures At(Shift(g, Pushed(g, pos, m), m), pos) == Empty
  {
    PushedWhere(g, pos, m);
    AtShift(g, Pushed(g, pos, m), m, pos);
  }
}
