/** Integer 2-D vectors on a grid (20-2/vector.go; 13-1/main.go and
    14-1/main.go define the same methods on their own Vector type, and the
    models of those days share these definitions). X grows to the right, Y
    grows downwards. */
module Vectors {
  import opened GoInt

  datatype Vector = Vector(x: int, y: int)

  function Add(v1: Vector, v2: Vector): Vector
  {
    Vector(v1.x + v2.x, v1.y + v2.y)
  }

  function AddInt(v: Vector, i: int): Vector
  {
    Vector(v.x + i, v.y + i)
  }

  function Sub(v1: Vector, v2: Vector): Vector
  {
    Vector(v1.x - v2.x, v1.y - v2.y)
  }

  function SubInt(v: Vector, i: int): Vector
  {
    Vector(v.x - i, v.y - i)
  }

  function Mul(v: Vector, i: int): Vector
  {
    Vector(v.x * i, v.y * i)
  }

  /** Componentwise Go division: quotient and remainder recombine to the
      vector, and each remainder is smaller than the divisor and has the sign
      of its component. */
  function Div(v: Vector, d: int): (qr: (Vector, Vector))
    requires d != 0
    ensures qr.0.x * d + qr.1.x == v.x && qr.0.y * d + qr.1.y == v.y
    ensures Abs(qr.1.x) < Abs(d) && Abs(qr.1.y) < Abs(d)
    ensures (v.x >= 0 ==> qr.1.x >= 0) && (v.y >= 0 ==> qr.1.y >= 0)
  {
    RemBounds(v.x, d);
    RemBounds(v.y, d);
    (Vector(Quot(v.x, d), Quot(v.y, d)), Vector(Rem(v.x, d), Rem(v.y, d)))
  }

  function AbsVector(v: Vector): Vector
  {
    Vector(Abs(v.x), Abs(v.y))
  }

  /** Go's Wrap: a negative component is raised by the size once, then the
      Go remainder by the size is taken. */
  function Wrap(v: Vector, w: Vector): Vector
    requires w.x != 0 && w.y != 0
  {
    var x := if v.x < 0 then v.x + w.x else v.x;
    var y := if v.y < 0 then v.y + w.y else v.y;
    Vector(Rem(x, w.x), Rem(y, w.y))
  }

  predicate IsOOB(v: Vector, size: Vector)
  {
    v.x < 0 || v.y < 0 || v.x >= size.x || v.y >= size.y
  }

  /** Up, Right, Down, Left, in that order. */
  function Neighbors4(v: Vector): (ns: seq<Vector>)
    ensures |ns| == 4
  {
    [Add(v, Vector(0, -1)), Add(v, Vector(1, 0)), Add(v, Vector(0, 1)), Add(v, Vector(-1, 0))]
  }

  function ManhattanDist(v1: Vector, v2: Vector): nat
  {
    Abs(v1.x - v2.x) + Abs(v1.y - v2.y)
  }

  // ---------------------------------------------------------------------
  // Properties

  /** Adding and subtracting the same vector, or the same integer, undo each
      other. */
  lemma AddSubInverse(v1: Vector, v2: Vector, i: int)
    ensures Sub(Add(v1, v2), v2) == v1 && Add(Sub(v1, v2), v2) == v1
    ensures SubInt(AddInt(v1, i), i) == v1 && AddInt(SubInt(v1, i), i) == v1
  {
  }

  /** Dividing a multiple gives the factor back with no remainder. */
  lemma DivOfMul(v: Vector, d: int)
    requires d != 0
    ensures Div(Mul(v, d), d) == (v, Vector(0, 0))
  {
    QuotOfMultiple(v.x, d);
    QuotOfMultiple(v.y, d);
  }

  /** For a positive size, Wrap lands on the grid and stays congruent to the
      input, provided no component is below minus the size. */
  lemma WrapInRange(v: Vector, w: Vector)
    requires w.x > 0 && w.y > 0 && v.x >= -w.x && v.y >= -w.y
    ensures var r := Wrap(v, w);
      && !IsOOB(r, w)
      && r.x == v.x % w.x && r.y == v.y % w.y
  {
    WrapComponent(v.x, w.x);
    WrapComponent(v.y, w.y);
  }

  lemma WrapComponent(v: int, w: int)
    requires w > 0 && v >= -w
    ensures var x := if v < 0 then v + w else v;
      0 <= Rem(x, w) < w && Rem(x, w) == v % w
  {
    var x := if v < 0 then v + w else v;
    RemOfMagnitudes(x, w);
    if v < 0 {
      ShiftByModulus(v, w);
    }
  }

  lemma ShiftByModulus(v: int, w: int)
    requires w > 0
    ensures (v + w) % w == v % w
  {
    ModUnique(v + w, w, v / w + 1, v % w);
  }

  /** Below minus the size Wrap leaves the grid: the source relies on
      velocities smaller than the board. */
  lemma WrapBelowRange(v: Vector, w: Vector)
    requires w.x > 0 && w.y > 0 && v.x < -w.x && (v.x + w.x) % w.x != 0
    ensures IsOOB(Wrap(v, w), w)
  {
    RemBounds(v.x + w.x, w.x);
    RemZeroIffMultiple(v.x + w.x, w.x);
    if Rem(v.x + w.x, w.x) == 0 {
      MultipleModZero(Quot(v.x + w.x, w.x), w.x);
    }
  }

  lemma MultipleModZero(q: int, w: int)
    requires w > 0
    ensures (q * w) % w == 0
  {
    ModUnique(q * w, w, q, 0);
  }

  /** The distance is symmetric, zero exactly between equal vectors, and
      obeys the triangle inequality. */
  lemma ManhattanMetric(u: Vector, v: Vector, w: Vector)
    ensures ManhattanDist(u, v) == ManhattanDist(v, u)
    ensures ManhattanDist(u, v) == 0 <==> u == v
    ensures ManhattanDist(u, w) <= ManhattanDist(u, v) + ManhattanDist(v, w)
  {
  }

  /** The four neighbours are exactly the vectors at distance one. */
  lemma NeighborsAtDistanceOne(v: Vector, u: Vector)
    ensures forall i :: 0 <= i < 4 ==> ManhattanDist(v, Neighbors4(v)[i]) == 1
    ensures ManhattanDist(v, u) == 1 <==> u in Neighbors4(v)
  {
    var ns := Neighbors4(v);
    if ManhattanDist(v, u) == 1 {
      if u.x == v.x {
        if u.y < v.y { assert u == ns[0]; } else { assert u == ns[2]; }
      } else {
        if u.x > v.x { assert u == ns[1]; } else { assert u == ns[3]; }
      }
    }
  }

  /** The length of a vector is its distance from the origin. */
  lemma AbsIsDistanceFromOrigin(v: Vector)
    ensures var a := AbsVector(v);
      a.x >= 0 && a.y >= 0 && a.x + a.y == ManhattanDist(v, Vector(0, 0))
  {
  }
}
