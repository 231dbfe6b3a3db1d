/** Day 13, part 1 (13-1/main.go): a claw machine's two buttons move the claw
    by the columns of a 2x2 matrix, and the presses that reach the prize are
    the integer solution of a linear system, found by Cramer's rule. */
module Cramer {
  import opened GoInt
  import opened Vectors

  /** [[a, b], [c, d]]: button A moves by (a, c), button B by (b, d). */
  datatype Matrix2x2 = Matrix2x2(a: int, b: int, c: int, d: int)

  datatype Option<T> = None | Some(value: T)

  function Determinant(m: Matrix2x2): int
  {
    m.a * m.d - m.b * m.c
  }

  /** The matrix applied to the vector (x, y): where x presses of A and y of
      B take the claw. */
  function Apply(m: Matrix2x2, v: Vector): Vector
  {
    Vector(m.a * v.x + m.b * v.y, m.c * v.x + m.d * v.y)
  }

  /** Cramer's rule in integers: no answer for a singular matrix or when a
      numerator is not a multiple of the determinant. */
  function LinearSolve(m: Matrix2x2, c: Vector): Option<Vector>
  {
    var det := Determinant(m);
    if det == 0 then None
    else
      var v := Vector(m.d * c.x - m.b * c.y, m.a * c.y - m.c * c.x);
      var (res, rem) := Div(v, det);
      if rem.x != 0 || rem.y != 0 then None else Some(res)
  }

  // ---------------------------------------------------------------------
  // Properties

  /** A singular matrix has no answer. */
  lemma SingularHasNoAnswer(m: Matrix2x2, c: Vector)
    requires Determinant(m) == 0
    ensures LinearSolve(m, c) == None
  {
  }

  /** Cramer's numerators are the determinant times the solution. */
  lemma CramerNumerators(m: Matrix2x2, v: Vector)
    ensures var c := Apply(m, v);
      && m.d * c.x - m.b * c.y == Determinant(m) * v.x
      && m.a * c.y - m.c * c.x == Determinant(m) * v.y
  {
    Eliminate(m.d, m.a, m.b, m.c, v.x, v.y);
    Eliminate(m.a, m.d, m.c, m.b, v.y, v.x);
  }

  /** Applying the matrix to Cramer's numerators scales the target by the
      determinant. */
  lemma NumeratorsApplied(m: Matrix2x2, c: Vector)
    ensures var n := Vector(m.d * c.x - m.b * c.y, m.a * c.y - m.c * c.x);
      Apply(m, n) == Vector(Determinant(m) * c.x, Determinant(m) * c.y)
  {
    Combine(m.a, m.d, m.b, m.c, c.x, c.y);
    Combine(m.d, m.a, m.c, m.b, c.y, c.x);
  }

  /** Eliminating y from p(qx + ry) and r(sx + py). */
  lemma Eliminate(p: int, q: int, r: int, s: int, x: int, y: int)
    ensures p * (q * x + r * y) - r * (s * x + p * y) == (q * p - r * s) * x
  {
    assert p * (q * x + r * y) == p * q * x + p * r * y;
    assert r * (s * x + p * y) == r * s * x + r * p * y;
    assert (q * p - r * s) * x == p * q * x - r * s * x;
  }

  /** Recombining p(qx - ry) + r(py - sx). */
  lemma Combine(p: int, q: int, r: int, s: int, x: int, y: int)
    ensures p * (q * x - r * y) + r * (p * y - s * x) == (p * q - r * s) * x
  {
    assert p * (q * x - r * y) == p * q * x - p * r * y;
    assert r * (p * y - s * x) == r * p * y - r * s * x;
    assert (p * q - r * s) * x == p * q * x - r * s * x;
  }

  lemma Cancel(k: int, p: int, q: int)
    requires k != 0 && k * p == k * q
    ensures p == q
  {
    assert k * (p - q) == 0;
    if p != q {
      AbsMul(p - q, k);
    }
  }

  /** An answer presses the buttons so that the claw lands on the prize. */
  lemma LinearSolveSound(m: Matrix2x2, c: Vector)
    requires LinearSolve(m, c).Some?
    ensures Apply(m, LinearSolve(m, c).value) == c
  {
    var det := Determinant(m);
    var v := LinearSolve(m, c).value;
    var n := Vector(m.d * c.x - m.b * c.y, m.a * c.y - m.c * c.x);
    assert n == Vector(v.x * det, v.y * det);
    NumeratorsApplied(m, c);
    var w := Apply(m, v);
    assert Apply(m, n) == Vector(det * w.x, det * w.y) by {
      ScaleApply(m, v, det);
    }
    Cancel(det, w.x, c.x);
    Cancel(det, w.y, c.y);
  }

  lemma ScaleApply(m: Matrix2x2, v: Vector, k: int)
    ensures Apply(m, Vector(v.x * k, v.y * k)) == Vector(k * Apply(m, v).x, k * Apply(m, v).y)
  {
    assert m.a * (v.x * k) + m.b * (v.y * k) == k * (m.a * v.x + m.b * v.y);
    assert m.c * (v.x * k) + m.d * (v.y * k) == k * (m.c * v.x + m.d * v.y);
  }

  /** With a non-singular matrix, any integer presses that reach the prize
      are the answer: it is found, and it is the only one. */
  lemma LinearSolveComplete(m: Matrix2x2, c: Vector, v: Vector)
    requires Determinant(m) != 0 && Apply(m, v) == c
    ensures LinearSolve(m, c) == Some(v)
  {
    var det := Determinant(m);
    CramerNumerators(m, v);
    QuotOfMultiple(v.x, det);
    QuotOfMultiple(v.y, det);
    assert v.x * det == det * v.x && v.y * det == det * v.y;
  }

  /** No answer means no integer presses reach the prize. */
  lemma NoAnswerMeansNoPresses(m: Matrix2x2, c: Vector, v: Vector)
    requires LinearSolve(m, c) == None && Determinant(m) != 0
    ensures Apply(m, v) != c
  {
    if Apply(m, v) == c {
      LinearSolveComplete(m, c, v);
    }
  }
}
