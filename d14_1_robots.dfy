/** Day 14, part 1 (14-1/main.go): robots move with constant velocities on a
    board whose edges wrap around; the safety score multiplies the numbers of
    robots in the four quadrants, ignoring the middle row and column. */
module RobotBoard {
  import opened GoInt
  import opened Vectors

  datatype Robot = Robot(pos: Vector, vel: Vector)

  /** One robot after one second: moved by its velocity, then wrapped. */
  function Moved(r: Robot, size: Vector): Robot
    requires size.x != 0 && size.y != 0
  {
    Robot(Wrap(Add(r.pos, r.vel), size), r.vel)
  }

  /** Every robot moved once. */
  function StepAll(rs: seq<Robot>, size: Vector): (rs': seq<Robot>)
    requires size.x != 0 && size.y != 0
    ensures |rs'| == |rs|
    ensures forall i :: 0 <= i < |rs| ==> rs'[i] == Moved(rs[i], size)
  {
    seq(|rs|, i requires 0 <= i < |rs| => Moved(rs[i], size))
  }

  function Iterate(rs: seq<Robot>, size: Vector, n: nat): (rs': seq<Robot>)
    requires size.x != 0 && size.y != 0
    ensures |rs'| == |rs|
    decreases n
  {
    if n == 0 then rs else Iterate(StepAll(rs, size), size, n - 1)
  }

  /** On the board, with each velocity component smaller than the board. */
  predicate WellPlaced(r: Robot, size: Vector)
  {
    && !IsOOB(r.pos, size)
    && Abs(r.vel.x) < size.x && Abs(r.vel.y) < size.y
  }

  /** Which quadrant a position is in, 0 for the middle row or column:
      1 top left, 2 bottom left, 3 top right, 4 bottom right. */
  function Quadrant(p: Vector, mid: Vector): (q: nat)
    ensures q <= 4
  {
    if p.x < mid.x then
      (if p.y < mid.y then 1 else if p.y > mid.y then 2 else 0)
    else if p.x > mid.x then
      (if p.y < mid.y then 3 else if p.y > mid.y then 4 else 0)
    else 0
  }

  /** The number of robots in quadrant q. */
  function CountIn(rs: seq<Robot>, mid: Vector, q: nat): (n: nat)
    ensures n <= |rs|
  {
    if rs == [] then 0
    else CountIn(rs[..|rs| - 1], mid, q) + (if Quadrant(rs[|rs| - 1].pos, mid) == q then 1 else 0)
  }

  /** The middle of the board, as the source computes it with Div. */
  function Mid(size: Vector): Vector
  {
    Vector(Quot(size.x, 2), Quot(size.y, 2))
  }

  // ---------------------------------------------------------------------
  // Properties

  /** A step moves positions only: the robots and their velocities stay. */
  lemma StepKeepsRobots(rs: seq<Robot>, size: Vector)
    requires size.x != 0 && size.y != 0
    ensures var rs' := StepAll(rs, size);
      |rs'| == |rs| && forall i :: 0 <= i < |rs| ==> rs'[i].vel == rs[i].vel
  {
  }

  /** A step keeps well-placed robots on the board. */
  lemma StepKeepsOnBoard(r: Robot, size: Vector)
    requires size.x > 0 && size.y > 0 && WellPlaced(r, size)
    ensures WellPlaced(Moved(r, size), size)
    ensures Moved(r, size).pos == Vector((r.pos.x + r.vel.x) % size.x, (r.pos.y + r.vel.y) % size.y)
  {
    WrapInRange(Add(r.pos, r.vel), size);
  }

  /** Where a well-placed robot is after n seconds: its start plus n times
      its velocity, reduced modulo the board. */
  lemma {:induction false} AfterSeconds(r: Robot, size: Vector, n: nat)
    requires size.x > 0 && size.y > 0 && WellPlaced(r, size)
    ensures var r' := Iterate([r], size, n)[0];
      && WellPlaced(r', size) && r'.vel == r.vel
      && r'.pos == Vector((r.pos.x + n * r.vel.x) % size.x, (r.pos.y + n * r.vel.y) % size.y)
    decreases n
  {
    if n == 0 {
      ModOfInRange(r.pos.x, size.x);
      ModOfInRange(r.pos.y, size.y);
    } else {
      var r1 := Moved(r, size);
      StepKeepsOnBoard(r, size);
      assert StepAll([r], size) == [r1];
      AfterSeconds(r1, size, n - 1);
      ShiftedMod(r.pos.x, r.vel.x, n, size.x);
      ShiftedMod(r.pos.y, r.vel.y, n, size.y);
    }
  }

  /** Robots do not interact: each one moves as if it were alone. */
  lemma {:induction false} MovesIndependently(rs: seq<Robot>, size: Vector, n: nat, i: nat)
    requires size.x != 0 && size.y != 0 && i < |rs|
    ensures Iterate(rs, size, n)[i] == Iterate([rs[i]], size, n)[0]
    decreases n
  {
    if n > 0 {
      var rs1 := StepAll(rs, size);
      MovesIndependently(rs1, size, n - 1, i);
      assert StepAll([rs[i]], size) == [rs1[i]];
    }
  }

  lemma ModOfInRange(p: int, w: int)
    requires 0 <= p < w
    ensures p % w == p
  {
    ModUnique(p, w, 0, p);
  }

  /** ((p + v) mod w + (n - 1) v) mod w == (p + n v) mod w. */
  lemma ShiftedMod(p: int, v: int, n: nat, w: int)
    requires w > 0 && n >= 1
    ensures ((p + v) % w + (n - 1) * v) % w == (p + n * v) % w
  {
    AddModLeft(p + v, (n - 1) * v, w);
    assert p + v + (n - 1) * v == p + n * v;
  }

  /** Reducing the left summand first does not change the sum's residue. */
  lemma AddModLeft(a: int, b: int, w: int)
    requires w > 0
    ensures (a % w + b) % w == (a + b) % w
  {
    var s := a % w + b;
    ModUnique(a + b, w, a / w + s / w, s % w);
  }

  /** Each robot is in at most one quadrant, so the quadrant counts add up
      to at most the number of robots; the rest are on a middle line. */
  lemma {:induction false} QuadrantsPartition(rs: seq<Robot>, mid: Vector)
    ensures CountIn(rs, mid, 0) + CountIn(rs, mid, 1) + CountIn(rs, mid, 2)
      + CountIn(rs, mid, 3) + CountIn(rs, mid, 4) == |rs|
    decreases |rs|
  {
    if rs != [] {
      QuadrantsPartition(rs[..|rs| - 1], mid);
    }
  }

  /** The source's Board: the robots and the board size (never changed
      after construction). */
  class Board {
    var Robots: seq<Robot>
    const Size: Vector

    constructor (size: Vector)
      ensures Robots == [] && Size == size
    {
      Robots := [];
      Size := size;
    }

    method AddRobot(r: Robot)
      modifies this
      ensures Robots == old(Robots) + [r]
    {
      Robots := Robots + [r];
    }

    /** Moves every robot once, in place. */
    method Step()
      requires Size.x != 0 && Size.y != 0
      modifies this
      ensures Robots == StepAll(old(Robots), Size)
    {
      for i := 0 to |Robots|
        invariant |Robots| == |old(Robots)|
        invariant forall j :: 0 <= j < i ==> Robots[j] == Moved(old(Robots)[j], Size)
        invariant forall j :: i <= j < |Robots| ==> Robots[j] == old(Robots)[j]
      {
        var r := Robots[i];
        var pos := Add(r.pos, r.vel);
        pos := Wrap(pos, Size);
        Robots := Robots[i := Robot(pos, r.vel)];
      }
    }

    /** The source's main loop: `steps` seconds (100 in the source). */
    method Run(steps: nat)
      requires Size.x != 0 && Size.y != 0
      modifies this
      ensures Robots == Iterate(old(Robots), Size, steps)
    {
      var i := 0;
      while i < steps
        invariant 0 <= i <= steps
        invariant Iterate(Robots, Size, steps - i) == Iterate(old(Robots), Size, steps)
      {
        Step();
        i := i + 1;
      }
    }

    /** The safety factor: the product of the four quadrant counts. */
    method Score() returns (score: int)
      ensures var mid := Mid(Size);
        score == CountIn(Robots, mid, 1) * CountIn(Robots, mid, 2)
               * CountIn(Robots, mid, 3) * CountIn(Robots, mid, 4)
    {
      var q1, q2, q3, q4 := 0, 0, 0, 0;
      var mid := Mid(Size);
      for i := 0 to |Robots|
        invariant q1 == CountIn(Robots[..i], mid, 1) && q2 == CountIn(Robots[..i], mid, 2)
        invariant q3 == CountIn(Robots[..i], mid, 3) && q4 == CountIn(Robots[..i], mid, 4)
      {
        assert Robots[..i + 1][..i] == Robots[..i];
        var r := Robots[i];
        if r.pos.x < mid.x {
          if r.pos.y < mid.y {
            q1 := q1 + 1;
          } else if r.pos.y > mid.y {
            q2 := q2 + 1;
          }
        } else if r.pos.x > mid.x {
          if r.pos.y < mid.y {
            q3 := q3 + 1;
          } else if r.pos.y > mid.y {
            q4 := q4 + 1;
          }
        }
      }
      assert Robots[..|Robots|] == Robots;
      score := q1 * q2 * q3 * q4;
    }
  }
}
