/** Grids stored as rows of cells, indexed [y][x] as the Go code indexes
    its [][] slices, and the number of cells of a kind. */
module Grids {
  import opened Vectors

  predicate InGrid<T>(g: seq<seq<T>>, v: Vector)
  {
    0 <= v.y < |g| && 0 <= v.x < |g[v.y]|
  }

  function At<T>(g: seq<seq<T>>, v: Vector): T
    requires InGrid(g, v)
  {
    g[v.y][v.x]
  }

  function Set<T>(g: seq<seq<T>>, v: Vector, c: T): (r: seq<seq<T>>)
    requires InGrid(g, v)
    ensures SameShape(g, r)
  {
    g[v.y := g[v.y][v.x := c]]
  }

  /** Every row as long as the first. */
  predicate Rectangular<T>(g: seq<seq<T>>)
  {
    forall y :: 0 <= y < |g| ==> |g[y]| == |g[0]|
  }

  predicate SameShape<T>(g: seq<seq<T>>, h: seq<seq<T>>)
  {
    |g| == |h| && forall y :: 0 <= y < |g| ==> |g[y]| == |h[y]|
  }

  lemma AtSet<T>(g: seq<seq<T>>, w: Vector, c: T, v: Vector)
    requires InGrid(g, w) && InGrid(g, v)
    ensures At(Set(g, w, c), v) == if v == w then c else At(g, v)
  {
  }

  function RowCount<T(==)>(row: seq<T>, c: T, k: nat): nat
    requires k <= |row|
  {
    if k == 0 then 0 else RowCount(row, c, k - 1) + (if row[k - 1] == c then 1 else 0)
  }

  /** How many cells of the first n rows hold c. */
  function Count<T(==)>(g: seq<seq<T>>, c: T, n: nat): nat
    requires n <= |g|
  {
    if n == 0 then 0 else Count(g, c, n - 1) + RowCount(g[n - 1], c, |g[n - 1]|)
  }

  lemma {:induction false} RowCountUpdate<T>(row: seq<T>, c: T, x: nat, d: T, k: nat)
    requires x < |row| && k <= |row|
    ensures RowCount(row[x := d], c, k) + (if x < k && row[x] == c then 1 else 0)
            == RowCount(row, c, k) + (if x < k && d == c then 1 else 0)
  {
    if k > 0 {
      RowCountUpdate(row, c, x, d, k - 1);
    }
  }

  /** Overwriting a cell trades one of its old content for one of the new. */
  lemma {:induction false} CountUpdate<T>(g: seq<seq<T>>, v: Vector, d: T, c: T, n: nat)
    requires InGrid(g, v) && n <= |g|
    ensures Count(Set(g, v, d), c, n) + (if v.y < n && At(g, v) == c then 1 else 0)
            == Count(g, c, n) + (if v.y < n && d == c then 1 else 0)
  {
    if n > 0 {
      CountUpdate(g, v, d, c, n - 1);
      if v.y == n - 1 {
        RowCountUpdate(g[v.y], c, v.x, d, |g[v.y]|);
      }
    }
  }
}
