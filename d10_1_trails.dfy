/** Day 10, part 1 (10-1/main.go): a hiking trail climbs a height map one
    level per step, from 0 to 9, moving between orthogonal neighbours.
    SearchBoard counts the trails that start at a cell. */
module Trails {
  import opened Vectors

  /** The board as loaded: at least one row, all rows as wide as the first,
      heights single digits. */
  predicate ValidBoard(board: seq<seq<int>>)
  {
    && |board| >= 1
    && (forall y :: 0 <= y < |board| ==> |board[y]| == |board[0]|)
    && forall y, x :: 0 <= y < |board| && 0 <= x < |board[y]| ==> 0 <= board[y][x] <= 9
  }

  predicate IsOutOfBounds(board: seq<seq<int>>, v: Vector)
    requires |board| >= 1
  {
    v.x < 0 || v.x >= |board[0]| || v.y < 0 || v.y >= |board|
  }

  function Height(board: seq<seq<int>>, v: Vector): (h: int)
    requires ValidBoard(board) && !IsOutOfBounds(board, v)
    ensures 0 <= h <= 9
  {
    board[v.y][v.x]
  }

  /** The source's search order: left, right, up, down. */
  function Steps(v: Vector): seq<Vector>
  {
    [Vector(v.x - 1, v.y), Vector(v.x + 1, v.y), Vector(v.x, v.y - 1), Vector(v.x, v.y + 1)]
  }

  /** The number of trails from v, given that the previous cell had height
      hPrev. */
  function SearchBoard(board: seq<seq<int>>, v: Vector, hPrev: int): nat
    requires ValidBoard(board)
    decreases 9 - hPrev
  {
    if IsOutOfBounds(board, v) then 0
    else
      var h := Height(board, v);
      if h != hPrev + 1 then 0
      else if h == 9 then 1
      else
        var s := Steps(v);
        SearchBoard(board, s[0], h) + SearchBoard(board, s[1], h)
          + SearchBoard(board, s[2], h) + SearchBoard(board, s[3], h)
  }

  function ScoreTrailhead(board: seq<seq<int>>, v: Vector): nat
    requires ValidBoard(board)
  {
    SearchBoard(board, v, -1)
  }

  // ---------------------------------------------------------------------
  // Reference: trails as sequences of cells

  /** p is a trail whose first cell has height hPrev + 1: every cell is on
      the board, each step goes to an orthogonal neighbour one level higher,
      and the last cell has height 9. */
  ghost predicate IsTrail(board: seq<seq<int>>, p: seq<Vector>, hPrev: int)
    requires ValidBoard(board)
  {
    && |p| >= 1
    && (forall i :: 0 <= i < |p| ==> !IsOutOfBounds(board, p[i]) && Height(board, p[i]) == hPrev + 1 + i)
    && (forall i :: 0 <= i < |p| - 1 ==> ManhattanDist(p[i], p[i + 1]) == 1)
    && Height(board, p[|p| - 1]) == 9
  }

  function Prepend(v: Vector, s: set<seq<Vector>>): set<seq<Vector>>
  {
    set p | p in s :: [v] + p
  }

  /** The trails from v, built as SearchBoard explores them. */
  function TrailsFrom(board: seq<seq<int>>, v: Vector, hPrev: int): set<seq<Vector>>
    requires ValidBoard(board)
    decreases 9 - hPrev
  {
    if IsOutOfBounds(board, v) then {}
    else
      var h := Height(board, v);
      if h != hPrev + 1 then {}
      else if h == 9 then {[v]}
      else
        var s := Steps(v);
        Prepend(v, TrailsFrom(board, s[0], h)) + Prepend(v, TrailsFrom(board, s[1], h))
          + Prepend(v, TrailsFrom(board, s[2], h)) + Prepend(v, TrailsFrom(board, s[3], h))
  }

  /** What TrailsFrom builds are trails from v, all of length 9 - hPrev (so
      the search is at most ten calls deep). */
  lemma {:induction false} TrailsFromSound(board: seq<seq<int>>, v: Vector, hPrev: int, p: seq<Vector>)
    requires ValidBoard(board) && p in TrailsFrom(board, v, hPrev)
    ensures IsTrail(board, p, hPrev) && p[0] == v && |p| == 9 - hPrev
    decreases 9 - hPrev
  {
    var h := Height(board, v);
    if h != 9 {
      var s := Steps(v);
      var k :| 0 <= k < 4 && p in Prepend(v, TrailsFrom(board, s[k], h));
      var q :| q in TrailsFrom(board, s[k], h) && p == [v] + q;
      TrailsFromSound(board, s[k], h, q);
      StepsAtDistanceOne(v, s[k]);
      PrependTrail(board, v, q, hPrev);
    }
  }

  /** The four steps are the cells at distance one. */
  lemma StepsAtDistanceOne(v: Vector, u: Vector)
    ensures ManhattanDist(v, u) == 1 <==> u in Steps(v)
  {
    NeighborsAtDistanceOne(v, u);
  }

  lemma PrependTrail(board: seq<seq<int>>, v: Vector, q: seq<Vector>, hPrev: int)
    requires ValidBoard(board) && IsTrail(board, q, hPrev + 1)
    requires !IsOutOfBounds(board, v) && Height(board, v) == hPrev + 1
    requires ManhattanDist(v, q[0]) == 1
    ensures IsTrail(board, [v] + q, hPrev)
  {
    var p := [v] + q;
    forall i | 1 <= i < |p|
      ensures p[i] == q[i - 1]
    {
    }
  }

  /** Every trail from v is found. */
  lemma {:induction false} TrailsFromComplete(board: seq<seq<int>>, v: Vector, hPrev: int, p: seq<Vector>)
    requires ValidBoard(board) && IsTrail(board, p, hPrev) && p[0] == v
    ensures p in TrailsFrom(board, v, hPrev)
    decreases 9 - hPrev
  {
    var h := Height(board, v);
    if h == 9 {
      assert p == [v];
    } else {
      assert |p| >= 2;
      var q := p[1..];
      assert IsTrail(board, q, h) by {
        forall i | 0 <= i < |q|
          ensures q[i] == p[i + 1]
        {
        }
      }
      StepsAtDistanceOne(v, p[1]);
      var k :| 0 <= k < 4 && Steps(v)[k] == p[1];
      TrailsFromComplete(board, p[1], h, q);
      assert p == [v] + q;
      assert p in Prepend(v, TrailsFrom(board, Steps(v)[k], h));
    }
  }

  /** SearchBoard counts exactly the trails from v. */
  lemma {:induction false} SearchCountsTrails(board: seq<seq<int>>, v: Vector, hPrev: int)
    requires ValidBoard(board)
    ensures SearchBoard(board, v, hPrev) == |TrailsFrom(board, v, hPrev)|
    decreases 9 - hPrev
  {
    if !IsOutOfBounds(board, v) {
      var h := Height(board, v);
      if h == hPrev + 1 && h != 9 {
        var s := Steps(v);
        var t0, t1, t2, t3 := TrailsFrom(board, s[0], h), TrailsFrom(board, s[1], h),
          TrailsFrom(board, s[2], h), TrailsFrom(board, s[3], h);
        SearchCountsTrails(board, s[0], h);
        SearchCountsTrails(board, s[1], h);
        SearchCountsTrails(board, s[2], h);
        SearchCountsTrails(board, s[3], h);
        PrependCount(v, t0);
        PrependCount(v, t1);
        PrependCount(v, t2);
        PrependCount(v, t3);
        var a0, a1, a2, a3 := Prepend(v, t0), Prepend(v, t1), Prepend(v, t2), Prepend(v, t3);
        SecondCell(board, v, s[0], h, a0);
        SecondCell(board, v, s[1], h, a1);
        SecondCell(board, v, s[2], h, a2);
        SecondCell(board, v, s[3], h, a3);
        assert a0 !! a1 && a0 !! a2 && a0 !! a3 && a1 !! a2 && a1 !! a3 && a2 !! a3;
        DisjointCount(a0, a1);
        DisjointCount(a0 + a1, a2);
        DisjointCount(a0 + a1 + a2, a3);
      }
    }
  }

  /** The trails through neighbour n all have n as their second cell. */
  lemma SecondCell(board: seq<seq<int>>, v: Vector, n: Vector, h: int, a: set<seq<Vector>>)
    requires ValidBoard(board) && a == Prepend(v, TrailsFrom(board, n, h))
    ensures forall p :: p in a ==> |p| >= 2 && p[1] == n
  {
    forall p | p in a
      ensures |p| >= 2 && p[1] == n
    {
      var q :| q in TrailsFrom(board, n, h) && p == [v] + q;
      TrailsFromSound(board, n, h, q);
    }
  }

  lemma DisjointCount<T>(a: set<T>, b: set<T>)
    requires a !! b
    ensures |a + b| == |a| + |b|
  {
  }

  /** Putting the same cell in front of distinct trails keeps them distinct. */
  lemma {:induction false} PrependCount(v: Vector, s: set<seq<Vector>>)
    ensures |Prepend(v, s)| == |s|
    decreases |s|
  {
    if s != {} {
      var x :| x in s;
      var s' := s - {x};
      PrependCount(v, s');
      assert Prepend(v, s) == Prepend(v, s') + {[v] + x};
      forall y | y in s'
        ensures [v] + y != [v] + x
      {
        assert ([v] + y)[1..] == y && ([v] + x)[1..] == x;
      }
    }
  }

  /** ScoreTrailhead counts the complete trails, from height 0 to 9, that
      start at v. */
  lemma ScoreIsTrailCount(board: seq<seq<int>>, v: Vector)
    requires ValidBoard(board)
    ensures ScoreTrailhead(board, v) == |TrailsFrom(board, v, -1)|
    ensures forall p :: p in TrailsFrom(board, v, -1) ==> IsTrail(board, p, -1) && p[0] == v && |p| == 10
    ensures forall p :: IsTrail(board, p, -1) && p[0] == v ==> p in TrailsFrom(board, v, -1)
  {
    SearchCountsTrails(board, v, -1);
    forall p | p in TrailsFrom(board, v, -1)
      ensures IsTrail(board, p, -1) && p[0] == v && |p| == 10
    {
      TrailsFromSound(board, v, -1, p);
    }
    forall p | IsTrail(board, p, -1) && p[0] == v
      ensures p in TrailsFrom(board, v, -1)
    {
      TrailsFromComplete(board, v, -1, p);
    }
  }
}
