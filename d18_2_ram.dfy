/** Day 18, part 2: bytes fall one by one onto a square memory grid, and a
    unit-cost Dijkstra search from the top-left corner tells whether the
    bottom-right corner can still be reached (18-2/main.go). */
module RamRun {
  import opened Vectors
  import opened GoInt
  import opened Grids

  datatype Option<T> = None | Some(value: T)

  /** A memory cell: whether a byte has fallen on it, where it is, and its
      score, MaxInt until a search reaches it. */
  datatype Cell = Cell(blocked: bool, loc: Vector, score: int)

  function NewCell(loc: Vector): Cell
  {
    Cell(false, loc, MaxInt)
  }

  predicate Distinct(s: seq<Vector>)
  {
    forall i, j :: 0 <= i < j < |s| ==> s[i] != s[j]
  }

  // ---------------------------------------------------------------------
  // The grid

  /** The cells form a size.x by size.y grid, each cell holding its own
      position. */
  ghost predicate Shaped(cells: seq<seq<Cell>>, size: Vector)
  {
    |cells| == size.y && 0 <= size.x &&
    (forall y :: 0 <= y < |cells| ==> |cells[y]| == size.x) &&
    (forall v :: InGrid(cells, v) ==> At(cells, v).loc == v)
  }

  /** Two grids that differ in scores only. */
  ghost predicate SameBlocks(a: seq<seq<Cell>>, b: seq<seq<Cell>>)
  {
    SameShape(a, b) &&
    forall v :: InGrid(a, v) ==> At(b, v).blocked == At(a, v).blocked && At(b, v).loc == At(a, v).loc
  }

  lemma OnGridIn(cells: seq<seq<Cell>>, size: Vector, v: Vector)
    requires Shaped(cells, size)
    ensures InGrid(cells, v) <==> !IsOOB(v, size)
  {
    if 0 <= v.y < |cells| {
      assert |cells[v.y]| == size.x;
    }
  }

  function Score(cells: seq<seq<Cell>>, v: Vector): int
    requires InGrid(cells, v)
  {
    At(cells, v).score
  }

  function SetScore(cells: seq<seq<Cell>>, v: Vector, s: int): (r: seq<seq<Cell>>)
    requires InGrid(cells, v)
    ensures SameShape(cells, r)
    ensures forall u :: InGrid(cells, u) ==> At(r, u) == if u == v then At(cells, u).(score := s) else At(cells, u)
  {
    Set(cells, v, At(cells, v).(score := s))
  }

  /** Every cell of the grid reads MaxInt: no search has run since the
      board was made or reset. */
  ghost predicate AllUnscored(cells: seq<seq<Cell>>)
  {
    forall v :: InGrid(cells, v) ==> Score(cells, v) == MaxInt
  }

  /** The grid with the cells of `fallen` blocked and nothing scored. */
  ghost function Fresh(size: Vector, fallen: set<Vector>): (r: seq<seq<Cell>>)
    requires 0 <= size.x && 0 <= size.y
    ensures Shaped(r, size) && AllUnscored(r)
    ensures forall v :: InGrid(r, v) ==> (At(r, v).blocked <==> v in fallen)
  {
    seq(size.y, y => seq(size.x, x => Cell(Vector(x, y) in fallen, Vector(x, y), MaxInt)))
  }

  // ---------------------------------------------------------------------
  // Counting the cells no search has reached

  function RowUnscored(row: seq<Cell>, k: nat): nat
    requires k <= |row|
  {
    if k == 0 then 0 else RowUnscored(row, k - 1) + (if row[k - 1].score == MaxInt then 1 else 0)
  }

  function Unscored(cells: seq<seq<Cell>>, n: nat): nat
    requires n <= |cells|
  {
    if n == 0 then 0 else Unscored(cells, n - 1) + RowUnscored(cells[n - 1], |cells[n - 1]|)
  }

  lemma {:induction false} RowUnscoredSet(row: seq<Cell>, x: nat, s: int, k: nat)
    requires x < |row| && k <= |row|
    ensures RowUnscored(row[x := row[x].(score := s)], k) + (if x < k && row[x].score == MaxInt then 1 else 0)
            == RowUnscored(row, k) + (if x < k && s == MaxInt then 1 else 0)
  {
    if k > 0 {
      RowUnscoredSet(row, x, s, k - 1);
    }
  }

  lemma {:induction false} UnscoredSetN(cells: seq<seq<Cell>>, v: Vector, s: int, n: nat)
    requires InGrid(cells, v) && n <= |cells|
    ensures Unscored(SetScore(cells, v, s), n) + (if v.y < n && Score(cells, v) == MaxInt then 1 else 0)
            == Unscored(cells, n) + (if v.y < n && s == MaxInt then 1 else 0)
  {
    if n > 0 {
      UnscoredSetN(cells, v, s, n - 1);
      var r := SetScore(cells, v, s);
      if v.y == n - 1 {
        assert r[v.y] == cells[v.y][v.x := cells[v.y][v.x].(score := s)];
        RowUnscoredSet(cells[v.y], v.x, s, |cells[v.y]|);
      } else {
        assert r[n - 1] == cells[n - 1];
      }
    }
  }

  /** Scoring an unscored cell leaves one unscored cell fewer. */
  lemma UnscoredSet(cells: seq<seq<Cell>>, v: Vector, s: int)
    requires InGrid(cells, v) && Score(cells, v) == MaxInt && s != MaxInt
    ensures Unscored(SetScore(cells, v, s), |cells|) + 1 == Unscored(cells, |cells|)
  {
    UnscoredSetN(cells, v, s, |cells|);
  }

  lemma {:induction false} RowAllUnscored(row: seq<Cell>, k: nat)
    requires k <= |row| && forall x :: 0 <= x < |row| ==> row[x].score == MaxInt
    ensures RowUnscored(row, k) == k
  {
    if k > 0 {
      RowAllUnscored(row, k - 1);
    }
  }

  lemma {:induction false} AllUnscoredCountN(cells: seq<seq<Cell>>, size: Vector, n: nat)
    requires Shaped(cells, size) && AllUnscored(cells) && n <= |cells|
    ensures Unscored(cells, n) == n * size.x
  {
    if n > 0 {
      AllUnscoredCountN(cells, size, n - 1);
      var row := cells[n - 1];
      forall x | 0 <= x < |row|
        ensures row[x].score == MaxInt
      {
        assert Score(cells, Vector(x, n - 1)) == MaxInt;
      }
      RowAllUnscored(row, |row|);
    }
  }

  /** On a board nobody has searched, every one of its cells is unscored. */
  lemma AllUnscoredCount(cells: seq<seq<Cell>>, size: Vector)
    requires Shaped(cells, size) && AllUnscored(cells)
    ensures Unscored(cells, |cells|) == size.x * size.y
  {
    AllUnscoredCountN(cells, size, |cells|);
  }

  // ---------------------------------------------------------------------
  // Routes

  predicate Open(cells: seq<seq<Cell>>, v: Vector)
  {
    InGrid(cells, v) && !At(cells, v).blocked
  }

  /** Step i of `p` moves to a neighbour that exists and is not blocked. */
  predicate StepAt(cells: seq<seq<Cell>>, p: seq<Vector>, i: int)
    requires 0 <= i < |p| - 1
  {
    p[i + 1] in Neighbors4(p[i]) && Open(cells, p[i + 1])
  }

  /** A route from `o`: the search never checks `o` itself. */
  predicate IsRoute(cells: seq<seq<Cell>>, p: seq<Vector>, o: Vector)
  {
    |p| > 0 && p[0] == o && forall i :: 0 <= i < |p| - 1 ==> StepAt(cells, p, i)
  }

  ghost predicate Connected(cells: seq<seq<Cell>>, o: Vector, c: Vector)
  {
    exists p :: IsRoute(cells, p, o) && p[|p| - 1] == c
  }

  /** `d` steps lead from `o` to `c`, and no route takes fewer. */
  ghost predicate Shortest(cells: seq<seq<Cell>>, o: Vector, c: Vector, d: int)
  {
    (exists p :: IsRoute(cells, p, o) && p[|p| - 1] == c && |p| == d + 1) &&
    forall p :: IsRoute(cells, p, o) && p[|p| - 1] == c ==> d + 1 <= |p|
  }

  predicate ScoredAll(cells: seq<seq<Cell>>, p: seq<Vector>)
  {
    forall i :: 0 <= i < |p| ==> InGrid(cells, p[i]) && Score(cells, p[i]) != MaxInt
  }

  /** A route to `c` through scored cells only. */
  ghost predicate ScoredRoute(cells: seq<seq<Cell>>, o: Vector, c: Vector)
  {
    exists p :: IsRoute(cells, p, o) && p[|p| - 1] == c && ScoredAll(cells, p)
  }

  /** Routes depend on the blocked cells only. */
  lemma RouteSameBlocks(a: seq<seq<Cell>>, b: seq<seq<Cell>>, p: seq<Vector>, o: Vector)
    requires SameBlocks(a, b)
    ensures IsRoute(a, p, o) <==> IsRoute(b, p, o)
  {
    if |p| > 0 {
      forall i | 0 <= i < |p| - 1
        ensures StepAt(a, p, i) <==> StepAt(b, p, i)
      {
      }
    }
  }

  lemma ConnectedSameBlocks(a: seq<seq<Cell>>, b: seq<seq<Cell>>, o: Vector, c: Vector)
    requires SameBlocks(a, b)
    ensures Connected(a, o, c) <==> Connected(b, o, c)
  {
    if Connected(a, o, c) {
      var p :| IsRoute(a, p, o) && p[|p| - 1] == c;
      RouteSameBlocks(a, b, p, o);
    }
    if Connected(b, o, c) {
      var p :| IsRoute(b, p, o) && p[|p| - 1] == c;
      RouteSameBlocks(a, b, p, o);
    }
  }

  /** A route stays a route when cells it does not enter are blocked. */
  lemma RouteKeeps(a: seq<seq<Cell>>, b: seq<seq<Cell>>, p: seq<Vector>, o: Vector)
    requires SameShape(a, b) && IsRoute(a, p, o)
    requires forall i :: 1 <= i < |p| ==> Open(b, p[i])
    ensures IsRoute(b, p, o)
  {
    forall i | 0 <= i < |p| - 1
      ensures StepAt(b, p, i)
    {
      assert StepAt(a, p, i);
    }
  }

  lemma RouteFewerFallen(size: Vector, fallen: set<Vector>, fallen': set<Vector>, p: seq<Vector>, o: Vector)
    requires 0 <= size.x && 0 <= size.y && fallen <= fallen'
    requires IsRoute(Fresh(size, fallen'), p, o)
    ensures IsRoute(Fresh(size, fallen), p, o)
  {
    var a, b := Fresh(size, fallen), Fresh(size, fallen');
    forall i | 1 <= i < |p|
      ensures Open(a, p[i])
    {
      assert StepAt(b, p, i - 1);
    }
    RouteKeeps(b, a, p, o);
  }

  /** Blocking more cells never shortens the way: a route avoiding the
      larger set of fallen bytes avoids the smaller one. */
  lemma BlockingNeverShortens(size: Vector, fallen: set<Vector>, fallen': set<Vector>, o: Vector, c: Vector,
                              d: int, d': int)
    requires 0 <= size.x && 0 <= size.y && fallen <= fallen'
    requires Shortest(Fresh(size, fallen), o, c, d) && Shortest(Fresh(size, fallen'), o, c, d')
    ensures d <= d'
  {
    var a, b := Fresh(size, fallen), Fresh(size, fallen');
    var p :| IsRoute(b, p, o) && p[|p| - 1] == c && |p| == d' + 1;
    RouteFewerFallen(size, fallen, fallen', p, o);
  }

  /** ...and a corner cut off stays cut off. */
  lemma BlockingKeepsCut(size: Vector, fallen: set<Vector>, fallen': set<Vector>, o: Vector, c: Vector)
    requires 0 <= size.x && 0 <= size.y && fallen <= fallen'
    requires !Connected(Fresh(size, fallen), o, c)
    ensures !Connected(Fresh(size, fallen'), o, c)
  {
    var a, b := Fresh(size, fallen), Fresh(size, fallen');
    if Connected(b, o, c) {
      var p :| IsRoute(b, p, o) && p[|p| - 1] == c;
      RouteFewerFallen(size, fallen, fallen', p, o);
    }
  }

  /** Along the top row, then down the right-hand column. */
  ghost function Corner(size: Vector): seq<Vector>
    requires 1 <= size.x && 1 <= size.y
  {
    seq(size.x, i => Vector(i, 0)) + seq(size.y - 1, j => Vector(size.x - 1, j + 1))
  }

  /** With no byte fallen, the far corner can be reached. */
  lemma OpenBoardConnected(cells: seq<seq<Cell>>, size: Vector)
    requires Shaped(cells, size) && 1 <= size.x && 1 <= size.y
    requires forall v :: InGrid(cells, v) ==> !At(cells, v).blocked
    ensures Connected(cells, Vector(0, 0), SubInt(size, 1))
  {
    var p := Corner(size);
    forall i | 0 <= i < |p|
      ensures Open(cells, p[i])
    {
      OnGridIn(cells, size, p[i]);
    }
    forall i | 0 <= i < |p| - 1
      ensures StepAt(cells, p, i)
    {
      if i < size.x - 1 {
        assert p[i + 1] == Neighbors4(p[i])[1];
      } else {
        assert p[i + 1] == Neighbors4(p[i])[2];
      }
    }
    assert IsRoute(cells, p, Vector(0, 0));
  }

  // ---------------------------------------------------------------------
  // One search step

  /** A neighbour the popped cell `c` improves. */
  predicate Better(cells: seq<seq<Cell>>, c: Vector, n: Vector)
    requires InGrid(cells, c)
  {
    Open(cells, n) && Score(cells, c) + 1 < Score(cells, n)
  }

  /** The neighbours among `ns` that `c` improves, in order. */
  function Improvable(cells: seq<seq<Cell>>, c: Vector, ns: seq<Vector>): seq<Vector>
    requires InGrid(cells, c)
  {
    if |ns| == 0 then []
    else Improvable(cells, c, ns[..|ns| - 1]) + (if Better(cells, c, ns[|ns| - 1]) then [ns[|ns| - 1]] else [])
  }

  /** Improvable keeps exactly the cells of `ns` that `c` improves. */
  lemma {:induction false} InImprovable(cells: seq<seq<Cell>>, c: Vector, ns: seq<Vector>, n: Vector)
    requires InGrid(cells, c)
    ensures n in Improvable(cells, c, ns) <==> n in ns && Better(cells, c, n)
  {
    if |ns| > 0 {
      var pre := ns[..|ns| - 1];
      InImprovable(cells, c, pre, n);
      assert ns == pre + [ns[|ns| - 1]];
    }
  }

  lemma {:induction false} ImprovableDistinct(cells: seq<seq<Cell>>, c: Vector, ns: seq<Vector>)
    requires InGrid(cells, c) && Distinct(ns)
    ensures Distinct(Improvable(cells, c, ns))
  {
    if |ns| > 0 {
      var pre, n := ns[..|ns| - 1], ns[|ns| - 1];
      ImprovableDistinct(cells, c, pre);
      InImprovable(cells, c, pre, n);
      assert n !in pre;
    }
  }

  /** The grid with every cell of `ns` scored `d`. */
  function Assign(cells: seq<seq<Cell>>, ns: seq<Vector>, d: int): (r: seq<seq<Cell>>)
    requires forall n :: n in ns ==> InGrid(cells, n)
    ensures SameShape(cells, r)
  {
    if |ns| == 0 then cells
    else
      var pre, n := ns[..|ns| - 1], ns[|ns| - 1];
      assert n in ns && forall m :: m in pre ==> m in ns;
      var r := Assign(cells, pre, d);
      assert InGrid(r, n) by {
        assert InGrid(cells, n) && |r[n.y]| == |cells[n.y]|;
      }
      SetScore(r, n, d)
  }

  /** Assign scores the cells of `ns` and leaves the rest alone. */
  lemma {:induction false} AssignAt(cells: seq<seq<Cell>>, ns: seq<Vector>, d: int, v: Vector)
    requires forall n :: n in ns ==> InGrid(cells, n)
    requires InGrid(cells, v)
    ensures At(Assign(cells, ns, d), v) == if v in ns then At(cells, v).(score := d) else At(cells, v)
  {
    if |ns| > 0 {
      var pre := ns[..|ns| - 1];
      assert ns == pre + [ns[|ns| - 1]];
      AssignAt(cells, pre, d, v);
    }
  }

  lemma {:induction false} AssignCount(cells: seq<seq<Cell>>, ns: seq<Vector>, d: int)
    requires forall n :: n in ns ==> InGrid(cells, n) && Score(cells, n) == MaxInt
    requires Distinct(ns) && d != MaxInt
    ensures Unscored(Assign(cells, ns, d), |cells|) + |ns| == Unscored(cells, |cells|)
  {
    if |ns| > 0 {
      var pre, n := ns[..|ns| - 1], ns[|ns| - 1];
      assert forall m :: m in pre ==> m in ns;
      AssignCount(cells, pre, d);
      var r0 := Assign(cells, pre, d);
      assert n !in pre;
      AssignAt(cells, pre, d, n);
      UnscoredSet(r0, n, d);
    }
  }

  /** Neighbour k of the loop is improved: it joins the pushed cells. */
  lemma RelaxPush(cells: seq<seq<Cell>>, c: Vector, ns: seq<Vector>, k: nat, d: int,
                  cells0: seq<seq<Cell>>, pushed0: seq<Vector>)
    requires InGrid(cells, c) && d == Score(cells, c) + 1
    requires k < |ns| && Distinct(ns)
    requires pushed0 == Improvable(cells, c, ns[..k]) && (forall n :: n in pushed0 ==> InGrid(cells, n))
    requires cells0 == Assign(cells, pushed0, d)
    requires Open(cells0, ns[k]) && d < Score(cells0, ns[k])
    ensures pushed0 + [ns[k]] == Improvable(cells, c, ns[..k + 1])
    ensures forall n :: n in pushed0 + [ns[k]] ==> InGrid(cells, n)
    ensures SetScore(cells0, ns[k], d) == Assign(cells, pushed0 + [ns[k]], d)
  {
    var n := ns[k];
    assert ns[..k + 1][..k] == ns[..k];
    assert n !in ns[..k];
    InImprovable(cells, c, ns[..k], n);
    assert InGrid(cells, n);
    AssignAt(cells, pushed0, d, n);
    assert (pushed0 + [n])[..|pushed0|] == pushed0;
  }

  /** Neighbour k of the loop is left alone. */
  lemma RelaxSkip(cells: seq<seq<Cell>>, c: Vector, ns: seq<Vector>, k: nat, d: int,
                  cells0: seq<seq<Cell>>, pushed0: seq<Vector>)
    requires InGrid(cells, c) && d == Score(cells, c) + 1
    requires k < |ns| && Distinct(ns)
    requires pushed0 == Improvable(cells, c, ns[..k]) && (forall n :: n in pushed0 ==> InGrid(cells, n))
    requires cells0 == Assign(cells, pushed0, d)
    requires !(Open(cells0, ns[k]) && d < Score(cells0, ns[k]))
    ensures pushed0 == Improvable(cells, c, ns[..k + 1])
  {
    var n := ns[k];
    assert ns[..k + 1][..k] == ns[..k];
    assert n !in ns[..k];
    InImprovable(cells, c, ns[..k], n);
    if InGrid(cells, n) {
      AssignAt(cells, pushed0, d, n);
    }
  }

  /** `pushed` are the neighbours of `c` it improves, in the order Up, Right,
      Down, Left, and `cells'` scores each of them one above `c`. */
  ghost predicate Relaxed(cells: seq<seq<Cell>>, c: Vector, pushed: seq<Vector>, cells': seq<seq<Cell>>)
    requires InGrid(cells, c)
  {
    pushed == Improvable(cells, c, Neighbors4(c)) && (forall n :: n in pushed ==> InGrid(cells, n)) &&
    cells' == Assign(cells, pushed, Score(cells, c) + 1)
  }

  /** What Relaxed means cell by cell. */
  ghost predicate Lowered(cells: seq<seq<Cell>>, c: Vector, pushed: seq<Vector>, cells': seq<seq<Cell>>)
    requires InGrid(cells, c)
  {
    SameShape(cells, cells') && Distinct(pushed) &&
    (forall n :: n in pushed <==> n in Neighbors4(c) && Better(cells, c, n)) &&
    forall v :: InGrid(cells, v) ==>
      At(cells', v) == if v in pushed then At(cells, v).(score := Score(cells, c) + 1) else At(cells, v)
  }

  lemma RelaxedLowered(cells: seq<seq<Cell>>, c: Vector, pushed: seq<Vector>, cells': seq<seq<Cell>>)
    requires InGrid(cells, c) && Relaxed(cells, c, pushed, cells')
    ensures Lowered(cells, c, pushed, cells')
  {
    forall n
      ensures n in pushed <==> n in Neighbors4(c) && Better(cells, c, n)
    {
      InImprovable(cells, c, Neighbors4(c), n);
    }
    NeighborsDistinct(c);
    ImprovableDistinct(cells, c, Neighbors4(c));
    forall v | InGrid(cells, v)
      ensures At(cells', v) == if v in pushed then At(cells, v).(score := Score(cells, c) + 1) else At(cells, v)
    {
      AssignAt(cells, pushed, Score(cells, c) + 1, v);
    }
  }

  /** The neighbour loop of Solve for the popped cell `c`: each neighbour on
      the grid that is not blocked and whose score exceeds c's plus one gets
      c's score plus one and is pushed, Up, Right, Down, Left. */
  method Relax(cells: seq<seq<Cell>>, size: Vector, c: Vector) returns (cells': seq<seq<Cell>>, pushed: seq<Vector>)
    requires Shaped(cells, size) && InGrid(cells, c)
    ensures Relaxed(cells, c, pushed, cells')
  {
    var ns := Neighbors4(c);
    assert Distinct(ns);
    var d := Score(cells, c) + 1;
    cells', pushed := cells, [];
    for k := 0 to 4
      invariant pushed == Improvable(cells, c, ns[..k]) && forall n :: n in pushed ==> InGrid(cells, n)
      invariant cells' == Assign(cells, pushed, d)
    {
      var n := ns[k];
      OnGridIn(cells, size, n);
      assert InGrid(cells, n) ==> InGrid(cells', n) by {
        if InGrid(cells, n) {
          assert |cells'[n.y]| == |cells[n.y]|;
        }
      }
      if !IsOOB(n, size) && !At(cells', n).blocked && d < At(cells', n).score {
        RelaxPush(cells, c, ns, k, d, cells', pushed);
        cells' := SetScore(cells', n, d);
        pushed := pushed + [n];
      } else {
        RelaxSkip(cells, c, ns, k, d, cells', pushed);
      }
    }
    assert ns[..4] == ns;
  }

  /** heap.Pop: an entry of least score (the heap's choice among equal
      scores is not modelled). */
  method MinIndex(cells: seq<seq<Cell>>, pq: seq<Vector>) returns (i: nat)
    requires |pq| > 0 && forall j :: 0 <= j < |pq| ==> InGrid(cells, pq[j])
    ensures i < |pq| && forall j :: 0 <= j < |pq| ==> Score(cells, pq[i]) <= Score(cells, pq[j])
  {
    i := 0;
    for j := 1 to |pq|
      invariant i < j && forall m :: 0 <= m < j ==> Score(cells, pq[i]) <= Score(cells, pq[m])
    {
      if Score(cells, pq[j]) < Score(cells, pq[i]) {
        i := j;
      }
    }
  }

  // ---------------------------------------------------------------------
  // The state of a search from `o`

  predicate Covered(cells: seq<seq<Cell>>, v: Vector, n: Vector)
    requires InGrid(cells, v)
  {
    Open(cells, n) ==> Score(cells, n) <= Score(cells, v) + 1
  }

  /** Every open neighbour of `v` is scored at most one above it. */
  ghost predicate Settled(cells: seq<seq<Cell>>, v: Vector)
    requires InGrid(cells, v)
  {
    forall k :: 0 <= k < 4 ==> Covered(cells, v, Neighbors4(v)[k])
  }

  predicate ParentAt(cells: seq<seq<Cell>>, v: Vector, k: int)
    requires InGrid(cells, v) && 0 <= k < 4
  {
    var u := Neighbors4(v)[k];
    InGrid(cells, u) && 0 <= Score(cells, u) && Score(cells, u) + 1 == Score(cells, v)
  }

  /** `o` scores 0; any other scored cell is open and has a neighbour scored
      one less. */
  ghost predicate HasParent(cells: seq<seq<Cell>>, o: Vector, v: Vector)
    requires InGrid(cells, v)
  {
    if v == o then Score(cells, v) == 0
    else !At(cells, v).blocked && exists k :: 0 <= k < 4 && ParentAt(cells, v, k)
  }

  /** The queue holds distinct cells, none popped, scored `level` or one
      more. */
  ghost predicate QueueLevels(cells: seq<seq<Cell>>, pq: seq<Vector>, popped: set<Vector>, level: int)
  {
    Distinct(pq) && 0 <= level &&
    forall i :: 0 <= i < |pq| ==> InGrid(cells, pq[i]) && level <= Score(cells, pq[i]) <= level + 1 && pq[i] !in popped
  }

  /** The popped cells are scored at most `level` and settled. */
  ghost predicate PoppedSettled(cells: seq<seq<Cell>>, popped: set<Vector>, level: int)
  {
    forall v :: v in popped ==> InGrid(cells, v) && 0 <= Score(cells, v) <= level && Settled(cells, v)
  }

  ghost predicate Queued(cells: seq<seq<Cell>>, pq: seq<Vector>, popped: set<Vector>, level: int)
  {
    QueueLevels(cells, pq, popped, level) && PoppedSettled(cells, popped, level)
  }

  /** `o` scores 0 and every scored cell, below MaxInt, has a parent. */
  ghost predicate Parented(cells: seq<seq<Cell>>, o: Vector)
  {
    InGrid(cells, o) && Score(cells, o) == 0 &&
    forall v {:trigger HasParent(cells, o, v)} ::
      InGrid(cells, v) && Score(cells, v) != MaxInt ==> Score(cells, v) < MaxInt && HasParent(cells, o, v)
  }

  /** Every scored cell is queued or popped and scored at most one above
      `level`. */
  ghost predicate Reached(cells: seq<seq<Cell>>, pq: seq<Vector>, popped: set<Vector>, level: int)
  {
    forall v :: InGrid(cells, v) && Score(cells, v) != MaxInt ==> Score(cells, v) <= level + 1 && (v in popped || v in pq)
  }

  ghost predicate Sound(cells: seq<seq<Cell>>, o: Vector, pq: seq<Vector>, popped: set<Vector>, level: int)
  {
    Parented(cells, o) && Reached(cells, pq, popped, level)
  }

  /** The search invariant; `level` plus the queue plus the unscored cells
      never exceed the cells of the grid, which keeps every score far below
      MaxInt. */
  ghost predicate SearchInv(cells: seq<seq<Cell>>, size: Vector, o: Vector, e: Vector, pq: seq<Vector>,
                            popped: set<Vector>, level: int)
  {
    Shaped(cells, size) && Queued(cells, pq, popped, level) && Sound(cells, o, pq, popped, level) &&
    e !in popped && level + |pq| + Unscored(cells, |cells|) <= size.x * size.y
  }

  lemma SearchStart(cells: seq<seq<Cell>>, size: Vector, o: Vector, e: Vector, cells': seq<seq<Cell>>)
    requires Shaped(cells, size) && AllUnscored(cells) && InGrid(cells, o)
    requires cells' == SetScore(cells, o, 0)
    ensures Searching(cells, cells', size, o, e, [o], {}, 0)
  {
    AllUnscoredCount(cells, size);
    UnscoredSet(cells, o, 0);
    forall v | InGrid(cells', v) && Score(cells', v) != MaxInt
      ensures v == o
    {
      assert InGrid(cells, v) && Score(cells, v) == MaxInt;
    }
  }

  lemma RemoveAt(pq: seq<Vector>, i: int, pq1: seq<Vector>)
    requires Distinct(pq) && 0 <= i < |pq| && pq1 == pq[..i] + pq[i + 1..]
    ensures Distinct(pq1) && |pq1| == |pq| - 1
    ensures forall v :: v in pq1 <==> v in pq && v != pq[i]
  {
    forall v | v in pq && v != pq[i]
      ensures v in pq1
    {
      var j :| 0 <= j < |pq| && pq[j] == v;
      if j < i { assert pq1[j] == v; } else { assert pq1[j - 1] == v; }
    }
  }

  /** The cells the popped cell pushes were all unscored: a score is only
      ever lowered from MaxInt, never for a cell already in the heap, so the
      heap's order is never disturbed in place. */
  lemma PushedUnscored(cells: seq<seq<Cell>>, size: Vector, o: Vector, e: Vector, pq: seq<Vector>,
                       popped: set<Vector>, level: int, i: int, c: Vector, pushed: seq<Vector>,
                       cells': seq<seq<Cell>>)
    requires SearchInv(cells, size, o, e, pq, popped, level) && size.x * size.y < MaxInt - 1
    requires 0 <= i < |pq| && c == pq[i]
    requires Lowered(cells, c, pushed, cells')
    ensures forall n :: n in pushed ==> Score(cells, n) == MaxInt && n !in pq && n !in popped
  {
    forall n | n in pushed
      ensures Score(cells, n) == MaxInt && n !in pq && n !in popped
    {
      assert Better(cells, c, n);
    }
  }

  lemma QueuedTurn(cells: seq<seq<Cell>>, size: Vector, o: Vector, e: Vector, pq: seq<Vector>,
                   popped: set<Vector>, level: int, i: int, c: Vector, d: int, pq1: seq<Vector>,
                   pushed: seq<Vector>, cells': seq<seq<Cell>>, pq': seq<Vector>, popped': set<Vector>)
    requires SearchInv(cells, size, o, e, pq, popped, level)
    requires 0 <= i < |pq| && c == pq[i] && forall j :: 0 <= j < |pq| ==> Score(cells, c) <= Score(cells, pq[j])
    requires pq1 == pq[..i] + pq[i + 1..] && d == Score(cells, c)
    requires Lowered(cells, c, pushed, cells')
    requires pq' == pq1 + pushed && popped' == popped + {c}
    requires forall n :: n in pushed ==> Score(cells, n) == MaxInt && n !in pq && n !in popped
    ensures Queued(cells', pq', popped', d)
  {
    RemoveAt(pq, i, pq1);
    assert Distinct(Neighbors4(c));
    forall j | 0 <= j < |pq'|
      ensures InGrid(cells', pq'[j]) && d <= Score(cells', pq'[j]) <= d + 1 && pq'[j] !in popped'
    {
      if j < |pq1| {
        assert pq1[j] in pq;
      } else {
        assert pq'[j] in pushed;
      }
    }
    assert Distinct(pq') by {
      forall a, b | 0 <= a < b < |pq'|
        ensures pq'[a] != pq'[b]
      {
        if a < |pq1| && b >= |pq1| {
          assert pq'[a] in pq && pq'[b] in pushed;
        }
      }
    }
    forall v | v in popped'
      ensures InGrid(cells', v) && 0 <= Score(cells', v) <= d && Settled(cells', v)
    {
      assert v !in pushed;
      forall k | 0 <= k < 4
        ensures Covered(cells', v, Neighbors4(v)[k])
      {
        var n := Neighbors4(v)[k];
        if Open(cells', n) {
          if v == c {
            if n !in pushed {
              assert !Better(cells, c, n);
            }
          } else {
            assert Covered(cells, v, n);
          }
        }
      }
    }
  }

  lemma SoundTurn(cells: seq<seq<Cell>>, size: Vector, o: Vector, e: Vector, pq: seq<Vector>,
                  popped: set<Vector>, level: int, i: int, c: Vector, d: int, pq1: seq<Vector>,
                  pushed: seq<Vector>, cells': seq<seq<Cell>>, pq': seq<Vector>, popped': set<Vector>)
    requires SearchInv(cells, size, o, e, pq, popped, level)
    requires 0 <= i < |pq| && c == pq[i] && forall j :: 0 <= j < |pq| ==> Score(cells, c) <= Score(cells, pq[j])
    requires pq1 == pq[..i] + pq[i + 1..] && d == Score(cells, c)
    requires Lowered(cells, c, pushed, cells')
    requires pq' == pq1 + pushed && popped' == popped + {c}
    requires forall n :: n in pushed ==> Score(cells, n) == MaxInt && n !in pq && n !in popped
    requires d + 1 < MaxInt
    ensures Sound(cells', o, pq', popped', d)
  {
    RemoveAt(pq, i, pq1);
    assert o !in pushed;
    forall v | InGrid(cells', v) && Score(cells', v) != MaxInt
      ensures Score(cells', v) <= d + 1 && HasParent(cells', o, v) && (v in popped' || v in pq')
    {
      if v in pushed {
        assert Better(cells, c, v);
        assert v != o;
        NeighborsAtDistanceOne(c, v);
        ManhattanMetric(c, v, c);
        NeighborsAtDistanceOne(v, c);
        var k :| 0 <= k < 4 && Neighbors4(v)[k] == c;
        assert c !in pushed;
        assert ParentAt(cells', v, k);
      } else {
        assert Score(cells, v) != MaxInt;
        if v != o {
          assert HasParent(cells, o, v);
          var k :| 0 <= k < 4 && ParentAt(cells, v, k);
          var u := Neighbors4(v)[k];
          assert u !in pushed;
          assert ParentAt(cells', v, k);
        }
        if v !in popped && v != c {
          assert v in pq1;
        }
      }
    }
  }

  lemma NeighborsDistinct(c: Vector)
    ensures Distinct(Neighbors4(c))
  {
  }

  /** Each pushed cell was unscored, so the count of unscored cells falls
      by as many cells as the queue gains. */
  lemma CountTurn(cells: seq<seq<Cell>>, size: Vector, pq: seq<Vector>, level: int, i: int, c: Vector, d: int,
                  pushed: seq<Vector>, cells': seq<seq<Cell>>, pq': seq<Vector>)
    requires level + |pq| + Unscored(cells, |cells|) <= size.x * size.y
    requires 0 <= i < |pq| && InGrid(cells, c) && d == Score(cells, c) && d <= level + 1 && d + 1 != MaxInt
    requires Distinct(pushed) && forall n :: n in pushed ==> InGrid(cells, n) && Score(cells, n) == MaxInt
    requires Relaxed(cells, c, pushed, cells') && pq' == pq[..i] + pq[i + 1..] + pushed
    ensures d + |pq'| + Unscored(cells', |cells'|) <= size.x * size.y
    ensures Unscored(cells', |cells'|) < Unscored(cells, |cells|) ||
            (Unscored(cells', |cells'|) == Unscored(cells, |cells|) && |pq'| < |pq|)
  {
    AssignCount(cells, pushed, Score(cells, c) + 1);
  }

  lemma SameBlocksTrans(a: seq<seq<Cell>>, b: seq<seq<Cell>>, c: seq<seq<Cell>>)
    requires SameBlocks(a, b) && SameBlocks(b, c)
    ensures SameBlocks(a, c)
  {
    forall v | InGrid(a, v)
      ensures At(c, v).blocked == At(a, v).blocked && At(c, v).loc == At(a, v).loc
    {
      assert InGrid(b, v);
    }
  }

  lemma LoweredShaped(cells: seq<seq<Cell>>, size: Vector, c: Vector, pushed: seq<Vector>, cells': seq<seq<Cell>>)
    requires Shaped(cells, size) && InGrid(cells, c) && Lowered(cells, c, pushed, cells')
    ensures Shaped(cells', size) && SameBlocks(cells, cells')
  {
    forall v | InGrid(cells', v)
      ensures At(cells', v).loc == v
    {
      assert InGrid(cells, v);
    }
  }

  /** The popped cell's score stays two below MaxInt. */
  lemma LevelBound(cells: seq<seq<Cell>>, size: Vector, o: Vector, e: Vector, pq: seq<Vector>,
                   popped: set<Vector>, level: int, i: int)
    requires SearchInv(cells, size, o, e, pq, popped, level) && size.x * size.y < MaxInt - 1
    requires 0 <= i < |pq|
    ensures Score(cells, pq[i]) + 1 < MaxInt
  {
  }

  /** The search invariant over a grid whose blocked cells are those of `g`. */
  ghost predicate Searching(g: seq<seq<Cell>>, cells: seq<seq<Cell>>, size: Vector, o: Vector, e: Vector,
                            pq: seq<Vector>, popped: set<Vector>, level: int)
  {
    SearchInv(cells, size, o, e, pq, popped, level) && SameBlocks(g, cells)
  }

  /** What Solve needs to pop and relax. */
  lemma Poppable(g: seq<seq<Cell>>, cells: seq<seq<Cell>>, size: Vector, o: Vector, e: Vector,
                 pq: seq<Vector>, popped: set<Vector>, level: int)
    requires Searching(g, cells, size, o, e, pq, popped, level)
    ensures Shaped(cells, size) && forall j :: 0 <= j < |pq| ==> InGrid(cells, pq[j])
  {
  }

  /** What Solve promises once the search is over. */
  lemma SearchDone(g: seq<seq<Cell>>, cells: seq<seq<Cell>>, size: Vector, o: Vector, e: Vector,
                   pq: seq<Vector>, popped: set<Vector>, level: int)
    requires Searching(g, cells, size, o, e, pq, popped, level)
    ensures Shaped(cells, size) && SameBlocks(g, cells) && InGrid(cells, o) && Score(cells, o) == 0
    ensures forall v :: InGrid(cells, v) && Score(cells, v) != MaxInt ==> v == o || !At(cells, v).blocked
  {
    forall v | InGrid(cells, v) && Score(cells, v) != MaxInt
      ensures v == o || !At(cells, v).blocked
    {
      assert HasParent(cells, o, v);
    }
  }

  /** One turn of the search loop, for a popped cell that is not End. */
  lemma SearchTurn(g: seq<seq<Cell>>, cells: seq<seq<Cell>>, size: Vector, o: Vector, e: Vector, pq: seq<Vector>,
                   popped: set<Vector>, level: int, i: int, c: Vector, pq1: seq<Vector>,
                   pushed: seq<Vector>, cells': seq<seq<Cell>>, pq': seq<Vector>, popped': set<Vector>, level': int)
    requires Searching(g, cells, size, o, e, pq, popped, level) && size.x * size.y < MaxInt - 1
    requires 0 <= i < |pq| && c == pq[i] && forall j :: 0 <= j < |pq| ==> Score(cells, c) <= Score(cells, pq[j])
    requires c != e && pq1 == pq[..i] + pq[i + 1..] && level' == Score(cells, c)
    requires Relaxed(cells, c, pushed, cells')
    requires pq' == pq1 + pushed && popped' == popped + {c}
    ensures Searching(g, cells', size, o, e, pq', popped', level')
    ensures Unscored(cells', |cells'|) < Unscored(cells, |cells|) ||
            (Unscored(cells', |cells'|) == Unscored(cells, |cells|) && |pq'| < |pq|)
  {
    LevelBound(cells, size, o, e, pq, popped, level, i);
    RelaxedLowered(cells, c, pushed, cells');
    PushedUnscored(cells, size, o, e, pq, popped, level, i, c, pushed, cells');
    LoweredShaped(cells, size, c, pushed, cells');
    SameBlocksTrans(g, cells, cells');
    QueuedTurn(cells, size, o, e, pq, popped, level, i, c, level', pq1, pushed, cells', pq', popped');
    SoundTurn(cells, size, o, e, pq, popped, level, i, c, level', pq1, pushed, cells', pq', popped');
    NeighborsDistinct(c);
    CountTurn(cells, size, pq, level, i, c, level', pushed, cells', pq');
  }

  // ---------------------------------------------------------------------
  // Why the search is right

  /** Any route from `o` either passes a queued cell scored no more than
      its position on the route, or ends at a popped cell scored no more than
      its length. */
  lemma {:induction false} RouteMeetsQueue(cells: seq<seq<Cell>>, o: Vector, pq: seq<Vector>,
                                           popped: set<Vector>, level: int, q: seq<Vector>)
    requires InGrid(cells, o) && Score(cells, o) == 0 && level + 1 < MaxInt
    requires Reached(cells, pq, popped, level) && PoppedSettled(cells, popped, level)
    requires IsRoute(cells, q, o)
    ensures (exists j :: 0 <= j < |q| && q[j] in pq && InGrid(cells, q[j]) && Score(cells, q[j]) <= j) ||
            (q[|q| - 1] in popped && Score(cells, q[|q| - 1]) <= |q| - 1)
  {
    if |q| == 1 {
      assert q[0] == o;
    } else {
      var q' := q[..|q| - 1];
      assert IsRoute(cells, q', o) by {
        forall i | 0 <= i < |q'| - 1
          ensures StepAt(cells, q', i)
        {
          assert StepAt(cells, q, i);
        }
      }
      RouteMeetsQueue(cells, o, pq, popped, level, q');
      if exists j :: 0 <= j < |q'| && q'[j] in pq && InGrid(cells, q'[j]) && Score(cells, q'[j]) <= j {
        var j :| 0 <= j < |q'| && q'[j] in pq && InGrid(cells, q'[j]) && Score(cells, q'[j]) <= j;
        assert q[j] == q'[j];
      } else {
        var u, v := q[|q| - 2], q[|q| - 1];
        assert StepAt(cells, q, |q| - 2);
        var k :| 0 <= k < 4 && Neighbors4(u)[k] == v;
        assert Covered(cells, u, v);
        if v !in popped {
          assert v in pq;
        }
      }
    }
  }

  /** Following parents back from a scored cell gives a route of scored
      cells whose length is the score. */
  lemma ParentRoute(cells: seq<seq<Cell>>, o: Vector, v: Vector) returns (p: seq<Vector>)
    requires Parented(cells, o)
    requires InGrid(cells, v) && Score(cells, v) != MaxInt
    ensures IsRoute(cells, p, o) && p[|p| - 1] == v && |p| == Score(cells, v) + 1 && ScoredAll(cells, p)
    decreases Score(cells, v)
  {
    if v == o {
      p := [o];
    } else {
      assert HasParent(cells, o, v);
      var k :| 0 <= k < 4 && ParentAt(cells, v, k);
      var u := Neighbors4(v)[k];
      assert HasParent(cells, o, u);
      var q := ParentRoute(cells, o, u);
      NeighborsAtDistanceOne(v, u);
      ManhattanMetric(v, u, v);
      NeighborsAtDistanceOne(u, v);
      p := q + [v];
      forall i | 0 <= i < |p| - 1
        ensures StepAt(cells, p, i)
      {
        if i < |q| - 1 {
          assert StepAt(cells, q, i);
          assert p[i] == q[i] && p[i + 1] == q[i + 1];
        } else {
          assert p[i] == u && p[i + 1] == v;
        }
      }
    }
  }

  /** The outcome Solve promises for End. */
  ghost predicate Answered(cells: seq<seq<Cell>>, o: Vector, e: Vector)
    requires InGrid(cells, e)
  {
    (Score(cells, e) == MaxInt <==> !Connected(cells, o, e)) &&
    (Score(cells, e) != MaxInt ==> Shortest(cells, o, e, Score(cells, e)) && ScoredRoute(cells, o, e))
  }

  /** End is popped: its score is the fewest steps. */
  lemma EndPopped(g: seq<seq<Cell>>, cells: seq<seq<Cell>>, size: Vector, o: Vector, e: Vector, pq: seq<Vector>,
                  popped: set<Vector>, level: int, i: int)
    requires Searching(g, cells, size, o, e, pq, popped, level) && size.x * size.y < MaxInt - 1
    requires 0 <= i < |pq| && e == pq[i] && forall j :: 0 <= j < |pq| ==> Score(cells, e) <= Score(cells, pq[j])
    ensures InGrid(cells, e) && Answered(cells, o, e)
  {
    var p := ParentRoute(cells, o, e);
    assert level + 1 < MaxInt;
    forall q | IsRoute(cells, q, o) && q[|q| - 1] == e
      ensures Score(cells, e) + 1 <= |q|
    {
      RouteMeetsQueue(cells, o, pq, popped, level, q);
      var j :| 0 <= j < |q| && q[j] in pq && InGrid(cells, q[j]) && Score(cells, q[j]) <= j;
      var m :| 0 <= m < |pq| && pq[m] == q[j];
    }
  }

  /** The queue ran dry before End was popped: End cannot be reached. */
  lemma QueueDry(g: seq<seq<Cell>>, cells: seq<seq<Cell>>, size: Vector, o: Vector, e: Vector,
                 popped: set<Vector>, level: int)
    requires Searching(g, cells, size, o, e, [], popped, level) && size.x * size.y < MaxInt - 1
    requires InGrid(cells, e)
    ensures Answered(cells, o, e)
  {
    if Connected(cells, o, e) {
      var q :| IsRoute(cells, q, o) && q[|q| - 1] == e;
      assert level + 1 < MaxInt;
      RouteMeetsQueue(cells, o, [], popped, level, q);
    }
  }

  // ---------------------------------------------------------------------
  // The board

  class Board {
    const Size: Vector
    const Start: Vector
    const End: Vector
    var Cells: seq<seq<Cell>>

    ghost predicate Valid()
      reads this
    {
      Shaped(Cells, Size) && Start == Vector(0, 0) && End == SubInt(Size, 1)
    }

    /** NewBoard: every cell free, unscored and at its own position; Start
        at the top-left corner and End at the bottom-right one. */
    constructor (size: Vector)
      requires 0 <= size.x && 0 <= size.y
      ensures Valid() && Size == size && Start == Vector(0, 0) && End == SubInt(size, 1)
      ensures forall v :: InGrid(Cells, v) ==> Grids.At(Cells, v) == NewCell(v)
    {
      var cells: seq<seq<Cell>> := [];
      for y := 0 to size.y
        invariant |cells| == y
        invariant forall j :: 0 <= j < y ==> |cells[j]| == size.x
        invariant forall v :: InGrid(cells, v) ==> Grids.At(cells, v) == NewCell(v)
      {
        var row: seq<Cell> := [];
        for x := 0 to size.x
          invariant |row| == x
          invariant forall i :: 0 <= i < x ==> row[i] == NewCell(Vector(i, y))
        {
          row := row + [NewCell(Vector(x, y))];
        }
        cells := cells + [row];
      }
      Size, Start, End, Cells := size, Vector(0, 0), SubInt(size, 1), cells;
    }

    /** At: nil exactly outside the grid, otherwise the cell there. */
    function At(v: Vector): (r: Option<Cell>)
      reads this
      requires Valid()
      ensures r.None? <==> IsOOB(v, Size)
      ensures r.Some? ==> InGrid(Cells, v) && r.value == Grids.At(Cells, v) && r.value.loc == v
    {
      OnGridIn(Cells, Size, v);
      if IsOOB(v, Size) then None else Some(Grids.At(Cells, v))
    }

    /** Clone: a new board of the same size, each row copied. */
    method Clone() returns (clone: Board)
      requires Valid()
      ensures fresh(clone) && clone.Valid()
      ensures clone.Size == Size && clone.Start == Start && clone.End == End && clone.Cells == Cells
    {
      clone := new Board(Size);
      for y := 0 to |Cells|
        invariant clone.Size == Size && |clone.Cells| == |Cells|
        invariant forall j :: 0 <= j < |Cells| ==> |clone.Cells[j]| == |Cells[j]|
        invariant forall j :: 0 <= j < y ==> clone.Cells[j] == Cells[j]
      {
        clone.Cells := clone.Cells[y := Cells[y]];
      }
      assert clone.Cells == Cells;
    }

    /** Reset: every score back to MaxInt, nothing else changed. */
    method Reset()
      requires Valid()
      modifies this
      ensures Valid() && AllUnscored(Cells) && SameBlocks(old(Cells), Cells)
    {
      var cells := Cells;
      for y := 0 to |cells|
        invariant SameShape(Cells, cells)
        invariant forall v :: InGrid(cells, v) ==>
          Grids.At(cells, v) == if v.y < y then Grids.At(Cells, v).(score := MaxInt) else Grids.At(Cells, v)
        modifies {}
      {
        for x := 0 to |cells[y]|
          invariant SameShape(Cells, cells)
          invariant forall v :: InGrid(cells, v) ==>
            Grids.At(cells, v) == if v.y < y || (v.y == y && v.x < x) then Grids.At(Cells, v).(score := MaxInt) else Grids.At(Cells, v)
          modifies {}
        {
          cells := SetScore(cells, Vector(x, y), MaxInt);
        }
      }
      Cells := cells;
    }

    /** Solve: Dijkstra from Start with unit steps. The result is End's
        score: the fewest steps from Start to End over cells no byte has
        fallen on, or MaxInt exactly when there is no such route; a finite
        result comes with a route of scored cells. Start scores 0, a blocked
        cell other than Start is never scored, and only scores change. */
    method Solve() returns (score: int)
      requires Valid() && AllUnscored(Cells) && 1 <= Size.x && 1 <= Size.y && Size.x * Size.y < MaxInt - 1
      modifies this
      ensures Valid() && SameBlocks(old(Cells), Cells)
      ensures InGrid(Cells, End) && score == Score(Cells, End)
      ensures Answered(Cells, Start, End)
      ensures InGrid(Cells, Start) && Score(Cells, Start) == 0
      ensures forall v :: InGrid(Cells, v) && Score(Cells, v) != MaxInt ==> v == Start || !Grids.At(Cells, v).blocked
    {
      OnGridIn(Cells, Size, Start);
      OnGridIn(Cells, Size, End);
      var cells := SetScore(Cells, Start, 0);
      var pq := [Start];
      ghost var popped: set<Vector> := {};
      ghost var level := 0;
      ghost var found := false;
      SearchStart(Cells, Size, Start, End, cells);
      while |pq| > 0
        invariant Searching(Cells, cells, Size, Start, End, pq, popped, level) && !found
        decreases Unscored(cells, |cells|), |pq|
        modifies {}
      {
        Poppable(Cells, cells, Size, Start, End, pq, popped, level);
        var i := MinIndex(cells, pq);
        var cell := pq[i];
        ghost var cells0, pq0, popped0, level0 := cells, pq, popped, level;
        pq := pq[..i] + pq[i + 1..];
        if cell == End {
          EndPopped(Cells, cells, Size, Start, End, pq0, popped, level, i);
          SearchDone(Cells, cells, Size, Start, End, pq0, popped, level);
          found := true;
          break;
        }
        var pushed;
        cells, pushed := Relax(cells, Size, cell);
        pq := pq + pushed;
        popped, level := popped + {cell}, Score(cells0, cell);
        SearchTurn(Cells, cells0, Size, Start, End, pq0, popped0, level0, i, cell, pq0[..i] + pq0[i + 1..],
                   pushed, cells, pq, popped, Score(cells0, cell));
      }
      if !found {
        QueueDry(Cells, cells, Size, Start, End, popped, level);
        SearchDone(Cells, cells, Size, Start, End, pq, popped, level);
      }
      Cells := cells;
      score := Grids.At(Cells, End).score;
    }
  }

  /** The grid of `board` holds exactly the bytes of `fallen`. */
  ghost predicate Holds(cells: seq<seq<Cell>>, fallen: set<Vector>)
  {
    forall v :: InGrid(cells, v) ==> (At(cells, v).blocked <==> v in fallen)
  }

  ghost function Fallen(events: seq<Vector>, n: int): set<Vector>
    requires 0 <= n <= |events|
  {
    set j | 0 <= j < n :: events[j]
  }

  lemma HoldsFresh(cells: seq<seq<Cell>>, size: Vector, fallen: set<Vector>, o: Vector, e: Vector)
    requires Shaped(cells, size) && Holds(cells, fallen)
    ensures Connected(cells, o, e) <==> Connected(Fresh(size, fallen), o, e)
  {
    ConnectedSameBlocks(cells, Fresh(size, fallen), o, e);
  }

  /** A byte falls on `b`. */
  function Block(cells: seq<seq<Cell>>, b: Vector): (r: seq<seq<Cell>>)
    requires InGrid(cells, b)
    ensures SameShape(cells, r)
    ensures forall v :: InGrid(cells, v) ==> At(r, v) == if v == b then At(cells, v).(blocked := true) else At(cells, v)
  {
    Set(cells, b, At(cells, b).(blocked := true))
  }

  /** After byte i falls, the grid holds the first i + 1 bytes. */
  lemma Dropped(cells: seq<seq<Cell>>, size: Vector, events: seq<Vector>, i: int)
    requires Shaped(cells, size) && 0 <= i < |events| && InGrid(cells, events[i])
    requires Holds(cells, Fallen(events, i))
    ensures Shaped(Block(cells, events[i]), size) && Holds(Block(cells, events[i]), Fallen(events, i + 1))
  {
    var r := Block(cells, events[i]);
    assert Fallen(events, i + 1) == Fallen(events, i) + {events[i]};
    forall v | InGrid(r, v)
      ensures At(r, v).loc == v
    {
      assert InGrid(cells, v);
    }
  }

  lemma HoldsSameBlocks(a: seq<seq<Cell>>, b: seq<seq<Cell>>, c: seq<seq<Cell>>, fallen: set<Vector>)
    requires Holds(a, fallen) && SameBlocks(a, b) && SameBlocks(b, c)
    ensures Holds(c, fallen)
  {
    forall v | InGrid(c, v)
      ensures At(c, v).blocked <==> v in fallen
    {
      assert InGrid(a, v) && InGrid(b, v);
    }
  }

  lemma ScoredConnected(cells: seq<seq<Cell>>, o: Vector, e: Vector)
    requires ScoredRoute(cells, o, e)
    ensures Connected(cells, o, e)
  {
  }

  /** Blocking a cell the last search never scored keeps its scored route,
      so main need not search again. */
  lemma UnscoredBlockKeepsRoute(cells: seq<seq<Cell>>, o: Vector, e: Vector, b: Vector)
    requires InGrid(cells, b) && Score(cells, b) == MaxInt
    requires ScoredRoute(cells, o, e)
    ensures ScoredRoute(Block(cells, b), o, e)
  {
    var cells' := Block(cells, b);
    var p :| IsRoute(cells, p, o) && p[|p| - 1] == e && ScoredAll(cells, p);
    forall i | 1 <= i < |p|
      ensures Open(cells', p[i])
    {
      assert StepAt(cells, p, i - 1);
    }
    RouteKeeps(cells, cells', p, o);
  }

  /** The bottom-right corner can be reached from the top-left one once the
      bytes of `fallen` have fallen. */
  ghost predicate Reachable(size: Vector, fallen: set<Vector>)
    requires 0 <= size.x && 0 <= size.y
  {
    Connected(Fresh(size, fallen), Vector(0, 0), SubInt(size, 1))
  }

  /** Byte n is the first to cut the corners apart. */
  ghost predicate CutAt(size: Vector, events: seq<Vector>, n: int)
    requires 0 <= size.x && 0 <= size.y && 0 <= n < |events|
  {
    Reachable(size, Fallen(events, n)) && !Reachable(size, Fallen(events, n + 1))
  }

  /** main's event loop: drop the bytes in order, and search again only
      when the byte lands on a cell the last search scored; report the first
      byte after which End cannot be reached. */
  method FirstCut(size: Vector, events: seq<Vector>) returns (cut: Option<nat>)
    requires 1 <= size.x && 1 <= size.y && size.x * size.y < MaxInt - 1
    requires forall i :: 0 <= i < |events| ==> !IsOOB(events[i], size)
    ensures cut.Some? ==> cut.value < |events| && CutAt(size, events, cut.value)
    ensures cut.None? ==> Reachable(size, Fallen(events, |events|))
  {
    var board := new Board(size);
    ghost var o, e := Vector(0, 0), SubInt(size, 1);
    OpenBoardConnected(board.Cells, size);
    ghost var start := board.Cells;
    var first := board.Solve();
    ConnectedSameBlocks(start, board.Cells, o, e);
    HoldsSameBlocks(start, start, board.Cells, {});
    for i := 0 to |events|
      invariant board.Valid() && board.Size == size && board.Start == o && board.End == e
      invariant Holds(board.Cells, Fallen(events, i)) && ScoredRoute(board.Cells, o, e)
    {
      var event := events[i];
      OnGridIn(board.Cells, size, event);
      ghost var before := board.Cells;
      board.Cells := Block(board.Cells, event);
      Dropped(before, size, events, i);
      if Grids.At(board.Cells, event).score != MaxInt {
        ghost var blocked := board.Cells;
        board.Reset();
        ghost var reset := board.Cells;
        var score := board.Solve();
        HoldsSameBlocks(blocked, reset, board.Cells, Fallen(events, i + 1));
        if score == MaxInt {
          HoldsFresh(board.Cells, size, Fallen(events, i + 1), o, e);
          ScoredConnected(before, o, e);
          HoldsFresh(before, size, Fallen(events, i), o, e);
          assert CutAt(size, events, i);
          return Some(i);
        }
      } else {
        UnscoredBlockKeepsRoute(before, o, e, event);
      }
    }
    ScoredConnected(board.Cells, o, e);
    HoldsFresh(board.Cells, size, Fallen(events, |events|), o, e);
    return None;
  }
}
