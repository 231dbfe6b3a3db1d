/** Day 20, part 1: a racetrack maze. Breadth-first sweeps give every cell
    its distance to the end and from the start, and a shortcut passes
    through one wall to an open cell behind it (20-1/main.go). */
module RaceMaze {
  import opened Vectors
  import opened GoInt

  datatype Option<T> = None | Some(value: T)

  /** One cell as At hands it out; a distance never set reads MaxInt. */
  datatype Cell = Cell(pos: Vector, wall: bool, distToEnd: int, distToStart: int)

  datatype Shortcut = Shortcut(pos1: Vector, pos2: Vector, dist: int)

  /** What the puzzle answer counts for a shortcut: the time it saves, as a
      64-bit subtraction. */
  function Saving(fastest: int, s: Shortcut): (r: int)
    ensures -MaxInt - 1 <= fastest - s.dist <= MaxInt ==> r == fastest - s.dist
  {
    Wrap64(fastest - s.dist)
  }

  /** The distance a map records for `v`, MaxInt when it records none. */
  function DistAt(dist: map<Vector, int>, v: Vector): int
  {
    if v in dist then dist[v] else MaxInt
  }

  predicate Distinct(s: seq<Vector>)
  {
    forall i, j :: 0 <= i < j < |s| ==> s[i] != s[j]
  }

  /** `order` lists the cells of `dist`, each once. */
  ghost predicate Listed(dist: map<Vector, int>, order: seq<Vector>)
  {
    Distinct(order) && forall c :: c in dist <==> c in order
  }

  /** `dist` with every cell of `s` set to `d`. */
  function Extend(dist: map<Vector, int>, s: seq<Vector>, d: int): (r: map<Vector, int>)
    ensures forall c :: c in r <==> c in dist || c in s
    ensures forall c :: c in r ==> r[c] == if c in s then d else dist[c]
  {
    if |s| == 0 then dist else Extend(dist, s[..|s| - 1], d)[s[|s| - 1] := d]
  }

  /** Extending by cells not yet recorded keeps every recorded distance. */
  lemma ExtendKeeps(dist: map<Vector, int>, s: seq<Vector>, d: int)
    requires forall n :: n in s ==> n !in dist
    ensures forall c :: c in dist ==> c in Extend(dist, s, d) && Extend(dist, s, d)[c] == dist[c]
  {
  }

  /** Neighbourhood is symmetric. */
  lemma NeighborBack(u: Vector, v: Vector)
    requires v in Neighbors4(u)
    ensures u in Neighbors4(v)
  {
    var ns := Neighbors4(v);
    if v == Neighbors4(u)[0] { assert u == ns[2]; }
    else if v == Neighbors4(u)[1] { assert u == ns[3]; }
    else if v == Neighbors4(u)[2] { assert u == ns[0]; }
    else { assert u == ns[1]; }
  }

  // ---------------------------------------------------------------------
  // Reading the maze

  predicate InLines(lines: seq<string>, v: Vector)
  {
    0 <= v.y < |lines| && 0 <= v.x < |lines[v.y]|
  }

  /** Cell `v` comes before column `x` of row `y` in reading order. */
  predicate Before(v: Vector, y: int, x: int)
  {
    v.y < y || (v.y == y && v.x < x)
  }

  /** Among the cells read before (y, x), `p` is the last one holding `c`,
      or (0, 0) when none does. */
  ghost predicate LastSeen(lines: seq<string>, c: char, p: Vector, y: int, x: int)
  {
    (p == Vector(0, 0) &&
     forall v :: InLines(lines, v) && Before(v, y, x) ==> lines[v.y][v.x] != c)
    || (InLines(lines, p) && Before(p, y, x) && lines[p.y][p.x] == c &&
        forall v :: InLines(lines, v) && Before(v, y, x) && Before(p, v.y, v.x) ==> lines[v.y][v.x] != c)
  }

  /** What NewMaze has gathered once it has read the cells before (y, x):
      every cell read, the walls ('#') among them, and the last 'S' and 'E'. */
  ghost predicate ReadInv(lines: seq<string>, y: int, x: int, cells: set<Vector>, walls: set<Vector>,
                    start: Vector, end: Vector)
  {
    (forall v :: v in cells <==> InLines(lines, v) && Before(v, y, x)) &&
    (forall v :: v in walls <==> InLines(lines, v) && Before(v, y, x) && lines[v.y][v.x] == '#') &&
    LastSeen(lines, 'S', start, y, x) && LastSeen(lines, 'E', end, y, x)
  }

  lemma LastSeenStep(lines: seq<string>, c: char, p: Vector, y: int, x: int, p': Vector)
    requires 0 <= y < |lines| && 0 <= x < |lines[y]|
    requires LastSeen(lines, c, p, y, x)
    requires p' == if lines[y][x] == c then Vector(x, y) else p
    ensures LastSeen(lines, c, p', y, x + 1)
  {
  }

  lemma ReadStep(lines: seq<string>, y: int, x: int, cells: set<Vector>, walls: set<Vector>,
                 start: Vector, end: Vector, cells': set<Vector>, walls': set<Vector>,
                 start': Vector, end': Vector)
    requires 0 <= y < |lines| && 0 <= x < |lines[y]|
    requires ReadInv(lines, y, x, cells, walls, start, end)
    requires cells' == cells + {Vector(x, y)}
    requires walls' == if lines[y][x] == '#' then walls + {Vector(x, y)} else walls
    requires start' == if lines[y][x] == 'S' then Vector(x, y) else start
    requires end' == if lines[y][x] != 'S' && lines[y][x] == 'E' then Vector(x, y) else end
    ensures ReadInv(lines, y, x + 1, cells', walls', start', end')
  {
    LastSeenStep(lines, 'S', start, y, x, start');
    LastSeenStep(lines, 'E', end, y, x, end');
  }

  /** The end of a row is the start of the next one. */
  lemma ReadNextRow(lines: seq<string>, y: int, cells: set<Vector>, walls: set<Vector>,
                    start: Vector, end: Vector)
    requires 0 <= y < |lines|
    requires ReadInv(lines, y, |lines[y]|, cells, walls, start, end)
    ensures ReadInv(lines, y + 1, 0, cells, walls, start, end)
  {
    forall v | InLines(lines, v)
      ensures Before(v, y, |lines[y]|) <==> Before(v, y + 1, 0)
    {
    }
  }

  // ---------------------------------------------------------------------
  // The maze

  class Maze {
    /** The cells that exist: column x of row y for every x below the length
        of row y. */
    const Cells: set<Vector>
    const Walls: set<Vector>
    const Size: Vector
    const Start: Vector
    const End: Vector
    /** The DistToEnd and DistToStart fields of the cells; a cell missing from
        a map holds MaxInt. */
    var DistToEnd: map<Vector, int>
    var DistToStart: map<Vector, int>

    /** NewMaze: a cell per character, a wall per '#', Start and End at the
        last 'S' and 'E' read (or (0, 0)), and every distance MaxInt. The size
        is the length of the first line by the number of lines. */
    constructor (lines: seq<string>)
      requires |lines| > 0
      ensures ReadInv(lines, |lines|, 0, Cells, Walls, Start, End)
      ensures Size == Vector(|lines[0]|, |lines|)
      ensures DistToEnd == map[] && DistToStart == map[]
    {
      var cells, walls: set<Vector> := {}, {};
      var start, end := Vector(0, 0), Vector(0, 0);
      for y := 0 to |lines|
        invariant ReadInv(lines, y, 0, cells, walls, start, end)
      {
        for x := 0 to |lines[y]|
          invariant ReadInv(lines, y, x, cells, walls, start, end)
        {
          ghost var cells0, walls0, start0, end0 := cells, walls, start, end;
          var v := Vector(x, y);
          cells := cells + {v};
          if lines[y][x] == '#' {
            walls := walls + {v};
          }
          if lines[y][x] == 'S' {
            start := v;
          } else if lines[y][x] == 'E' {
            end := v;
          }
          ReadStep(lines, y, x, cells0, walls0, start0, end0, cells, walls, start, end);
        }
        ReadNextRow(lines, y, cells, walls, start, end);
      }
      Cells, Walls, Start, End := cells, walls, start, end;
      Size := Vector(|lines[0]|, |lines|);
      DistToEnd, DistToStart := map[], map[];
    }

    predicate OnGrid(v: Vector)
    {
      !IsOOB(v, Size)
    }

    /** Every position within the size exists (the lines are all as long as
        the first); Go indexes past a short row otherwise. */
    ghost predicate Rectangular()
    {
      forall v :: OnGrid(v) ==> v in Cells
    }

    /** At: nil outside the size, otherwise the cell at `v`. */
    function At(v: Vector): (r: Option<Cell>)
      reads this
      requires OnGrid(v) ==> v in Cells
      ensures r.None? <==> IsOOB(v, Size)
      ensures r.Some? ==> r.value.pos == v && r.value.wall == (v in Walls)
    {
      if IsOOB(v, Size) then None
      else Some(Cell(v, v in Walls, DistAt(DistToEnd, v), DistAt(DistToStart, v)))
    }

    predicate Open(v: Vector)
    {
      OnGrid(v) && v !in Walls
    }

    predicate NeighborsOnGrid(v: Vector)
    {
      forall k :: 0 <= k < 4 ==> OnGrid(Neighbors4(v)[k])
    }

    /** A sweep from `o` looks at the neighbours of `o` and of every open
        cell it reaches; Go dereferences a nil cell unless they all lie
        within the size. */
    ghost predicate Sealed(o: Vector)
    {
      OnGrid(o) && NeighborsOnGrid(o) && forall v :: Open(v) ==> NeighborsOnGrid(v)
    }

    // -------------------------------------------------------------------
    // Walks and distances

    /** One move: from an open cell to a neighbour within the size. */
    predicate Hop(u: Vector, v: Vector)
    {
      Open(u) && OnGrid(v) && v in Neighbors4(u)
    }

    predicate HopAt(p: seq<Vector>, i: int)
      requires 0 <= i < |p| - 1
    {
      Hop(p[i], p[i + 1])
    }

    /** `p` walks over open cells to `o`; `o` itself need not be open. */
    predicate IsWalk(p: seq<Vector>, o: Vector)
    {
      |p| > 0 && p[|p| - 1] == o && OnGrid(o) && forall i :: 0 <= i < |p| - 1 ==> HopAt(p, i)
    }

    ghost predicate WalkOfLength(c: Vector, d: int, o: Vector)
    {
      exists p :: IsWalk(p, o) && p[0] == c && |p| == d + 1
    }

    ghost predicate Reachable(c: Vector, o: Vector)
    {
      exists p :: IsWalk(p, o) && p[0] == c
    }

    /** `d` moves take `c` to `o`, and no walk takes fewer. */
    ghost predicate Shortest(c: Vector, d: int, o: Vector)
    {
      WalkOfLength(c, d, o) && forall p :: IsWalk(p, o) && p[0] == c ==> d + 1 <= |p|
    }

    /** The outcome of a sweep from `o`: `o` at 0, exactly the cells that can
        walk to `o` have a distance, and each is the shortest walk; no wall
        but `o` gets one. */
    ghost predicate Solved(dist: map<Vector, int>, o: Vector)
    {
      o in dist && dist[o] == 0 &&
      (forall c :: c in dist ==> c == o || Open(c)) &&
      (forall c :: c in dist <==> Reachable(c, o)) &&
      (forall c :: c in dist ==> Shortest(c, dist[c], o))
    }

    lemma WalkPrepend(n: Vector, p: seq<Vector>, o: Vector)
      requires IsWalk(p, o) && Hop(n, p[0])
      ensures IsWalk([n] + p, o)
    {
      var q := [n] + p;
      forall i | 0 <= i < |q| - 1
        ensures HopAt(q, i)
      {
        if i > 0 {
          assert HopAt(p, i - 1);
        }
      }
    }

    lemma WalkLonger(n: Vector, p: seq<Vector>, o: Vector)
      requires IsWalk(p, o) && Hop(n, p[0])
      ensures WalkOfLength(n, |p|, o)
    {
      WalkPrepend(n, p, o);
      var q := [n] + p;
      assert q[0] == n && |q| == |p| + 1;
    }

    lemma WalkTail(p: seq<Vector>, o: Vector)
      requires IsWalk(p, o) && |p| > 1
      ensures IsWalk(p[1..], o) && Hop(p[0], p[1])
    {
      assert HopAt(p, 0);
      forall i | 0 <= i < |p| - 2
        ensures HopAt(p[1..], i)
      {
        assert HopAt(p, i + 1);
      }
    }

    // -------------------------------------------------------------------
    // One turn of a sweep

    /** The cells of `ns` that the neighbour loop pushes: neither walls nor
        reached yet. */
    function FreshAmong(dist: map<Vector, int>, ns: seq<Vector>): (r: seq<Vector>)
      ensures forall n :: n in r ==> n in ns && n !in Walls && n !in dist
      ensures forall n :: n in ns && n !in Walls && n !in dist ==> n in r
      ensures Distinct(ns) ==> Distinct(r)
    {
      if |ns| == 0 then []
      else
        var n := ns[|ns| - 1];
        var r0 := FreshAmong(dist, ns[..|ns| - 1]);
        assert Distinct(ns) ==> n !in ns[..|ns| - 1];
        r0 + (if n !in Walls && n !in dist then [n] else [])
    }

    /** One turn of the neighbour loop of `Relax`. */
    lemma RelaxTurn(dist: map<Vector, int>, ns: seq<Vector>, k: nat, d: int,
                    dist0: map<Vector, int>, pushed0: seq<Vector>,
                    dist': map<Vector, int>, pushed: seq<Vector>)
      requires k < |ns| && Distinct(ns)
      requires pushed0 == FreshAmong(dist, ns[..k]) && dist0 == Extend(dist, pushed0, d)
      requires var n := ns[k];
        if n !in Walls && n !in dist0 then dist' == dist0[n := d] && pushed == pushed0 + [n]
        else dist' == dist0 && pushed == pushed0
      ensures pushed == FreshAmong(dist, ns[..k + 1])
      ensures dist' == Extend(dist, pushed, d)
    {
      var n := ns[k];
      assert ns[..k + 1][..k] == ns[..k];
      assert n !in ns[..k];
      assert n !in pushed0;
      if n !in Walls && n !in dist0 {
        assert pushed[..|pushed| - 1] == pushed0;
      }
    }

    /** The neighbour loop shared by the three sweeps: every neighbour of `f`
        that is neither a wall nor reached gets the distance of `f` plus one
        and is queued, in the order Up, Right, Down, Left. */
    method Relax(dist: map<Vector, int>, f: Vector) returns (dist': map<Vector, int>, pushed: seq<Vector>)
      requires f in dist && NeighborsOnGrid(f)
      ensures pushed == FreshAmong(dist, Neighbors4(f))
      ensures dist' == Extend(dist, pushed, dist[f] + 1)
    {
      var ns := Neighbors4(f);
      assert Distinct(ns);
      var d := dist[f] + 1;
      dist', pushed := dist, [];
      for k := 0 to 4
        invariant pushed == FreshAmong(dist, ns[..k])
        invariant dist' == Extend(dist, pushed, d)
      {
        var n := ns[k];
        ghost var dist0, pushed0 := dist', pushed;
        if n !in Walls && n !in dist' {
          dist' := dist'[n := d];
          pushed := pushed + [n];
        }
        RelaxTurn(dist, ns, k, d, dist0, pushed0, dist', pushed);
      }
      assert ns[..4] == ns;
      assert ns[..4] == ns;
    }

    // -------------------------------------------------------------------
    // The state of a sweep

    /** An open neighbour `n` of `f` is reached, at most one move further. */
    ghost predicate Covered(dist: map<Vector, int>, f: Vector, n: Vector)
      requires f in dist
    {
      Open(n) ==> n in dist && dist[n] <= dist[f] + 1
    }

    ghost predicate Settled(dist: map<Vector, int>, f: Vector)
      requires f in dist
    {
      forall k :: 0 <= k < 4 ==> Covered(dist, f, Neighbors4(f)[k])
    }

    /** The queue part of a sweep: `order` lists each reached cell once, in
        the order it was queued, by non-decreasing distance; the queue is
        order[head..] and spans at most one distance step. */
    ghost predicate Queued(dist: map<Vector, int>, order: seq<Vector>, head: int)
    {
      0 <= head <= |order| && Listed(dist, order) &&
      (forall i, j :: 0 <= i <= j < |order| ==>
         order[i] in dist && order[j] in dist && dist[order[i]] <= dist[order[j]]) &&
      (head < |order| ==>
         order[head] in dist && order[|order| - 1] in dist &&
         dist[order[|order| - 1]] <= dist[order[head]] + 1)
    }

    /** What a sweep from `o` knows: `o` first at 0, every dequeued cell
        settled, every reached cell open (or `o`) and at the end of a walk of
        its distance. */
    ghost predicate Known(dist: map<Vector, int>, order: seq<Vector>, head: int, o: Vector)
      requires Queued(dist, order, head)
    {
      |order| > 0 && order[0] == o && dist[o] == 0 &&
      (forall i :: 0 <= i < head ==> Settled(dist, order[i])) &&
      (forall c :: c in dist ==> (c == o || Open(c)) && WalkOfLength(c, dist[c], o))
    }

    ghost predicate BfsInv(dist: map<Vector, int>, order: seq<Vector>, head: int, o: Vector)
    {
      Queued(dist, order, head) && Known(dist, order, head, o)
    }

    lemma BfsStart(o: Vector)
      requires OnGrid(o)
      ensures BfsInv(map[o := 0], [o], 0, o)
    {
      assert IsWalk([o], o);
    }

    lemma FreshOpen(dist: map<Vector, int>, f: Vector, o: Vector, pushed: seq<Vector>)
      requires Sealed(o) && f in dist && (f == o || Open(f))
      requires pushed == FreshAmong(dist, Neighbors4(f))
      ensures Distinct(pushed)
      ensures forall n :: n in pushed ==> Open(n) && n in Neighbors4(f)
    {
      assert Distinct(Neighbors4(f));
      assert NeighborsOnGrid(f);
    }

    lemma QueuedStep(dist: map<Vector, int>, order: seq<Vector>, head: int, f: Vector, d: int,
                     dist': map<Vector, int>, pushed: seq<Vector>)
      requires Queued(dist, order, head) && head < |order| && f == order[head] && d == dist[f] + 1
      requires Distinct(pushed) && forall n :: n in pushed ==> n !in dist
      requires dist' == Extend(dist, pushed, d)
      ensures Queued(dist', order + pushed, head + 1)
    {
      var order' := order + pushed;
      assert forall c :: c in dist ==> dist[c] <= d by {
        forall c | c in dist
          ensures dist[c] <= d
        {
          var i :| 0 <= i < |order| && order[i] == c;
          assert dist[order[i]] <= dist[order[|order| - 1]];
        }
      }
      forall i, j | 0 <= i < j < |order'|
        ensures order'[i] != order'[j]
      {
        if j >= |order| && i < |order| {
          assert order'[j] in pushed;
        }
      }
      forall i, j | 0 <= i <= j < |order'|
        ensures order'[i] in dist' && order'[j] in dist' && dist'[order'[i]] <= dist'[order'[j]]
      {
        if i < |order| {
          assert order'[i] in dist;
          if j < |order| {
            assert order'[j] in dist;
          } else {
            assert order'[j] in pushed;
          }
        } else {
          assert order'[i] in pushed && order'[j] in pushed;
        }
      }
      if head + 1 < |order'| {
        var last := order'[|order'| - 1];
        assert last in pushed || last in dist;
        assert dist'[order'[head + 1]] >= dist[f] by {
          assert order'[head] == f;
        }
      }
    }

    lemma SettledGrows(dist: map<Vector, int>, f: Vector, dist': map<Vector, int>)
      requires f in dist && Settled(dist, f)
      requires forall c :: c in dist ==> c in dist' && dist'[c] == dist[c]
      ensures Settled(dist', f)
    {
      forall k | 0 <= k < 4
        ensures Covered(dist', f, Neighbors4(f)[k])
      {
        assert Covered(dist, f, Neighbors4(f)[k]);
      }
    }

    lemma SettledFront(dist: map<Vector, int>, order: seq<Vector>, head: int, f: Vector, d: int,
                       dist': map<Vector, int>, pushed: seq<Vector>)
      requires Queued(dist, order, head) && head < |order| && f == order[head] && d == dist[f] + 1
      requires pushed == FreshAmong(dist, Neighbors4(f))
      requires dist' == Extend(dist, pushed, d)
      ensures f in dist' && Settled(dist', f)
    {
      forall k | 0 <= k < 4
        ensures Covered(dist', f, Neighbors4(f)[k])
      {
        var n := Neighbors4(f)[k];
        if Open(n) && n in dist {
          var i :| 0 <= i < |order| && order[i] == n;
          assert dist[order[i]] <= dist[order[|order| - 1]];
        }
      }
    }

    lemma ReachedStep(dist: map<Vector, int>, f: Vector, o: Vector, d: int,
                      dist': map<Vector, int>, pushed: seq<Vector>)
      requires f in dist && WalkOfLength(f, dist[f], o) && d == dist[f] + 1
      requires forall c :: c in dist ==> (c == o || Open(c)) && WalkOfLength(c, dist[c], o)
      requires forall n :: n in pushed ==> Open(n) && n in Neighbors4(f)
      requires dist' == Extend(dist, pushed, d)
      ensures forall c :: c in dist' ==> (c == o || Open(c)) && WalkOfLength(c, dist'[c], o)
    {
      var p :| IsWalk(p, o) && p[0] == f && |p| == d;
      forall n | n in pushed
        ensures WalkOfLength(n, d, o)
      {
        NeighborBack(f, n);
        WalkLonger(n, p, o);
      }
    }

    /** One turn of a sweep: dequeue the head, relax its neighbours, queue the
        fresh ones. */
    lemma BfsStep(dist: map<Vector, int>, order: seq<Vector>, head: int, o: Vector, f: Vector, d: int,
                  dist': map<Vector, int>, pushed: seq<Vector>)
      requires Sealed(o) && BfsInv(dist, order, head, o) && head < |order|
      requires f == order[head] && d == dist[f] + 1
      requires pushed == FreshAmong(dist, Neighbors4(f))
      requires dist' == Extend(dist, pushed, d)
      ensures BfsInv(dist', order + pushed, head + 1, o)
    {
      assert f in dist;
      FreshOpen(dist, f, o, pushed);
      QueuedStep(dist, order, head, f, d, dist', pushed);
      var order' := order + pushed;
      forall i | 0 <= i < head + 1
        ensures Settled(dist', order'[i])
      {
        if i < head {
          SettledGrows(dist, order[i], dist');
        } else {
          SettledFront(dist, order, head, f, d, dist', pushed);
        }
      }
      ReachedStep(dist, f, o, d, dist', pushed);
    }

    /** Every walk to `o` is at least as long as the distance of its first
        cell, once every reached cell is settled. */
    lemma {:induction false} LowerBound(dist: map<Vector, int>, o: Vector, p: seq<Vector>)
      requires o in dist && dist[o] == 0
      requires forall c :: c in dist ==> Settled(dist, c)
      requires IsWalk(p, o)
      ensures p[0] in dist && dist[p[0]] <= |p| - 1
      decreases |p|
    {
      if |p| > 1 {
        WalkTail(p, o);
        LowerBound(dist, o, p[1..]);
        NeighborBack(p[0], p[1]);
        var k :| 0 <= k < 4 && Neighbors4(p[1])[k] == p[0];
        assert Settled(dist, p[1]);
        assert Covered(dist, p[1], p[0]);
      }
    }

    /** An empty queue leaves the exact distances. */
    lemma BfsDone(dist: map<Vector, int>, order: seq<Vector>, o: Vector)
      requires BfsInv(dist, order, |order|, o)
      ensures Solved(dist, o)
    {
      assert o in dist;
      forall c | c in dist
        ensures Settled(dist, c)
      {
        var i :| 0 <= i < |order| && order[i] == c;
      }
      forall c | Reachable(c, o)
        ensures c in dist
      {
        var p :| IsWalk(p, o) && p[0] == c;
        LowerBound(dist, o, p);
      }
      forall c | c in dist
        ensures Shortest(c, dist[c], o)
      {
        forall p | IsWalk(p, o) && p[0] == c
          ensures dist[c] + 1 <= |p|
        {
          LowerBound(dist, o, p);
        }
      }
    }

    // -------------------------------------------------------------------
    // Distances to the end

    /** BackwardsSolve: a breadth-first sweep from End over the open cells
        sets DistToEnd to the length of the shortest walk to End, for exactly
        the cells that have one; `order` is the queue order, each cell queued
        once. */
    method BackwardsSolve() returns (ghost order: seq<Vector>)
      requires Rectangular() && Sealed(End) && DistToEnd == map[]
      modifies this
      ensures DistToStart == old(DistToStart)
      ensures Solved(DistToEnd, End) && Listed(DistToEnd, order) && order[0] == End
    {
      var dist := map[End := 0];
      var frontiers := [End];
      order := [End];
      ghost var head := 0;
      BfsStart(End);
      while |frontiers| > 0
        invariant BfsInv(dist, order, head, End) && frontiers == order[head..]
        modifies {}
        decreases Cells - dist.Keys, |frontiers|
      {
        ghost var dist0, order0, head0, frontiers0 := dist, order, head, frontiers;
        var frontier := frontiers[0];
        frontiers := frontiers[1..];
        var pushed;
        dist, pushed := Relax(dist, frontier);
        frontiers := frontiers + pushed;
        order, head := order + pushed, head + 1;
        SweepTurn(dist0, order0, head0, frontiers0, End, frontier, dist, pushed, order, head, frontiers);
      }
      BfsDone(dist, order, End);
      DistToEnd := dist;
    }

    /** One turn of a sweep loop, stated on the loop's variables before and
        after the turn. */
    lemma SweepTurn(dist: map<Vector, int>, order: seq<Vector>, head: int, frontiers: seq<Vector>, o: Vector,
                    f: Vector, dist': map<Vector, int>, pushed: seq<Vector>,
                    order': seq<Vector>, head': int, frontiers': seq<Vector>)
      requires Rectangular() && Sealed(o)
      requires BfsInv(dist, order, head, o) && frontiers == order[head..] && |frontiers| > 0
      requires f == frontiers[0] && f in dist
      requires pushed == FreshAmong(dist, Neighbors4(f))
      requires dist' == Extend(dist, pushed, dist[f] + 1)
      requires order' == order + pushed && head' == head + 1 && frontiers' == frontiers[1..] + pushed
      ensures BfsInv(dist', order', head', o) && frontiers' == order'[head'..]
      ensures Cells - dist'.Keys <= Cells - dist.Keys
      ensures |pushed| > 0 ==> Cells - dist'.Keys < Cells - dist.Keys
    {
      assert f == order[head];
      BfsStep(dist, order, head, o, f, dist[f] + 1, dist', pushed);
      FreshOpen(dist, f, o, pushed);
      Progress(dist, pushed, dist');
      QueueShift(order, head, pushed);
    }

    lemma QueueShift(order: seq<Vector>, head: int, pushed: seq<Vector>)
      requires 0 <= head < |order|
      ensures order[head..][1..] + pushed == (order + pushed)[head + 1..]
    {
    }

    /** Queuing a cell shrinks the set of cells not yet reached. */
    lemma Progress(dist: map<Vector, int>, pushed: seq<Vector>, dist': map<Vector, int>)
      requires Rectangular()
      requires forall n :: n in pushed ==> Open(n) && n !in dist
      requires forall c :: c in dist' <==> c in dist || c in pushed
      ensures Cells - dist'.Keys <= Cells - dist.Keys
      ensures |pushed| > 0 ==> Cells - dist'.Keys < Cells - dist.Keys
    {
      if |pushed| > 0 {
        assert pushed[0] in pushed && Open(pushed[0]);
        assert pushed[0] in Cells - dist.Keys;
      }
    }

    // -------------------------------------------------------------------
    // Shortcuts

    /** The shortcut through wall `n1` to `n2`, from a cell `d` moves from the
        start: recorded when `n2` is within the size, open and reaches the
        end, and the whole race beats `fastest`. */
    function Landing(d: int, dEnd: map<Vector, int>, fastest: int, n1: Vector, n2: Vector): seq<Shortcut>
    {
      if IsOOB(n2, Size) || n2 in Walls || n2 !in dEnd then []
      else if d + 2 + dEnd[n2] < fastest then [Shortcut(n1, n2, d + 2 + dEnd[n2])]
      else []
    }

    function Landings(d: int, dEnd: map<Vector, int>, fastest: int, n1: Vector, n2s: seq<Vector>): seq<Shortcut>
    {
      if |n2s| == 0 then []
      else Landings(d, dEnd, fastest, n1, n2s[..|n2s| - 1]) + Landing(d, dEnd, fastest, n1, n2s[|n2s| - 1])
    }

    /** The shortcuts through the walls among `n1s`. */
    function Jumps(d: int, dEnd: map<Vector, int>, fastest: int, n1s: seq<Vector>): seq<Shortcut>
    {
      if |n1s| == 0 then []
      else
        var n1 := n1s[|n1s| - 1];
        Jumps(d, dEnd, fastest, n1s[..|n1s| - 1]) +
        (if IsOOB(n1, Size) || n1 !in Walls then [] else Landings(d, dEnd, fastest, n1, Neighbors4(n1)))
    }

    /** The shortcuts from each cell of `fs` in turn. */
    function Along(fs: seq<Vector>, dStart: map<Vector, int>, dEnd: map<Vector, int>, fastest: int): seq<Shortcut>
      requires forall f :: f in fs ==> f in dStart
    {
      if |fs| == 0 then []
      else
        var f := fs[|fs| - 1];
        Along(fs[..|fs| - 1], dStart, dEnd, fastest) + Jumps(dStart[f], dEnd, fastest, Neighbors4(f))
    }

    /** The loops over `n1` and `n2` in SolveShortcuts, for one dequeued cell
        `f` at distance `d` from the start. */
    method WallHops(f: Vector, d: int, fastest: int) returns (found: seq<Shortcut>)
      ensures found == Jumps(d, DistToEnd, fastest, Neighbors4(f))
    {
      var n1s := Neighbors4(f);
      found := [];
      for k1 := 0 to 4
        invariant found == Jumps(d, DistToEnd, fastest, n1s[..k1])
      {
        var n1 := n1s[k1];
        assert n1s[..k1 + 1][..k1] == n1s[..k1];
        if IsOOB(n1, Size) || n1 !in Walls {
          continue;
        }
        var n2s := Neighbors4(n1);
        ghost var found0 := found;
        for k2 := 0 to 4
          invariant found == found0 + Landings(d, DistToEnd, fastest, n1, n2s[..k2])
        {
          var n2 := n2s[k2];
          assert n2s[..k2 + 1][..k2] == n2s[..k2];
          if IsOOB(n2, Size) || n2 in Walls || n2 !in DistToEnd {
            continue;
          }
          var dist := d + 2 + DistToEnd[n2];
          if dist < fastest {
            found := found + [Shortcut(n1, n2, dist)];
          }
        }
        assert n2s[..4] == n2s;
      }
      assert n1s[..4] == n1s;
    }

    lemma {:induction false} AlongFrame(fs: seq<Vector>, dStart: map<Vector, int>, dStart': map<Vector, int>,
                                        dEnd: map<Vector, int>, fastest: int)
      requires forall f :: f in fs ==> f in dStart
      requires forall c :: c in dStart ==> c in dStart' && dStart'[c] == dStart[c]
      ensures Along(fs, dStart, dEnd, fastest) == Along(fs, dStart', dEnd, fastest)
    {
      if |fs| > 0 {
        AlongFrame(fs[..|fs| - 1], dStart, dStart', dEnd, fastest);
      }
    }

    /** SolveShortcuts: the sweep from Start sets DistToStart as
        BackwardsSolve sets DistToEnd, and each dequeued cell contributes its
        shortcuts, in queue order. */
    method SolveShortcuts(fastest: int) returns (shortcuts: seq<Shortcut>, ghost order: seq<Vector>)
      requires Rectangular() && Sealed(Start) && DistToStart == map[]
      modifies this
      ensures DistToEnd == old(DistToEnd)
      ensures Solved(DistToStart, Start) && Listed(DistToStart, order) && order[0] == Start
      ensures shortcuts == Along(order, DistToStart, DistToEnd, fastest)
    {
      var dist := map[Start := 0];
      var frontiers := [Start];
      order := [Start];
      ghost var head := 0;
      shortcuts := [];
      BfsStart(Start);
      while |frontiers| > 0
        invariant BfsInv(dist, order, head, Start) && frontiers == order[head..]
        invariant shortcuts == Along(order[..head], dist, DistToEnd, fastest)
        modifies {}
        decreases Cells - dist.Keys, |frontiers|
      {
        ghost var dist0, order0, head0, frontiers0 := dist, order, head, frontiers;
        var frontier := frontiers[0];
        frontiers := frontiers[1..];
        var pushed;
        dist, pushed := Relax(dist, frontier);
        frontiers := frontiers + pushed;
        var found := WallHops(frontier, dist[frontier], fastest);
        shortcuts := shortcuts + found;
        order, head := order + pushed, head + 1;
        SweepTurn(dist0, order0, head0, frontiers0, Start, frontier, dist, pushed, order, head, frontiers);
        AlongStep(order0, head0, frontier, dist0, dist, pushed, DistToEnd, fastest);
      }
      assert order[..head] == order;
      BfsDone(dist, order, Start);
      DistToStart := dist;
    }

    lemma AlongStep(order: seq<Vector>, head: int, f: Vector, dist: map<Vector, int>, dist': map<Vector, int>,
                    pushed: seq<Vector>, dEnd: map<Vector, int>, fastest: int)
      requires Listed(dist, order) && 0 <= head < |order| && f == order[head]
      requires forall n :: n in pushed ==> n !in dist
      requires dist' == Extend(dist, pushed, dist[f] + 1)
      ensures forall c :: c in (order + pushed)[..head + 1] ==> c in dist'
      ensures Along((order + pushed)[..head + 1], dist', dEnd, fastest) ==
              Along(order[..head], dist, dEnd, fastest) + Jumps(dist'[f], dEnd, fastest, Neighbors4(f))
    {
      var pre := (order + pushed)[..head + 1];
      PrefixListed(order, pushed, head, dist);
      AlongFrame(order[..head], dist, dist', dEnd, fastest);
      AlongLast(pre, dist', dEnd, fastest);
    }

    /** The queue up to and including head holds only cells of order, all
        with a distance. */
    lemma PrefixListed(order: seq<Vector>, pushed: seq<Vector>, head: int, dist: map<Vector, int>)
      requires Listed(dist, order) && 0 <= head < |order|
      ensures (order + pushed)[..head + 1] == order[..head + 1]
      ensures (order + pushed)[..head + 1][..head] == order[..head]
      ensures forall c :: c in order[..head + 1] ==> c in dist
    {
      var pre := order[..head + 1];
      assert (order + pushed)[..head + 1] == pre;
      assert pre[..head] == order[..head];
      forall c | c in pre
        ensures c in dist
      {
        var i :| 0 <= i < |pre| && pre[i] == c;
        assert order[i] in order;
      }
    }

    /** Along over a non-empty queue ends with the last cell's jumps. */
    lemma AlongLast(fs: seq<Vector>, dStart: map<Vector, int>, dEnd: map<Vector, int>, fastest: int)
      requires forall f :: f in fs ==> f in dStart
      requires fs != []
      ensures Along(fs, dStart, dEnd, fastest) ==
              Along(fs[..|fs| - 1], dStart, dEnd, fastest) + Jumps(dStart[fs[|fs| - 1]], dEnd, fastest, Neighbors4(fs[|fs| - 1]))
    {
    }

    // -------------------------------------------------------------------
    // What the shortcut list holds

    /** A wall on the grid, the first move of a shortcut. */
    predicate Hurdle(n1: Vector)
    {
      !IsOOB(n1, Size) && n1 in Walls
    }

    /** `s` lands on the open cell `n2` behind the wall `n1`, from a cell at
        distance `d` from the start, and beats `fastest`. */
    predicate LandsOn(d: int, dEnd: map<Vector, int>, fastest: int, n1: Vector, n2: Vector, s: Shortcut)
    {
      !IsOOB(n2, Size) && n2 !in Walls && n2 in dEnd &&
      s == Shortcut(n1, n2, d + 2 + dEnd[n2]) && s.dist < fastest
    }

    lemma {:induction false} InLandings(d: int, dEnd: map<Vector, int>, fastest: int, n1: Vector,
                                        n2s: seq<Vector>, s: Shortcut)
      ensures s in Landings(d, dEnd, fastest, n1, n2s) <==>
              exists n2 :: n2 in n2s && LandsOn(d, dEnd, fastest, n1, n2, s)
    {
      if |n2s| > 0 {
        var pre, n2 := n2s[..|n2s| - 1], n2s[|n2s| - 1];
        InLandings(d, dEnd, fastest, n1, pre, s);
        assert n2s == pre + [n2];
        if s in Landings(d, dEnd, fastest, n1, n2s) && s !in Landings(d, dEnd, fastest, n1, pre) {
          assert LandsOn(d, dEnd, fastest, n1, n2, s);
        }
      }
    }

    lemma {:induction false} InJumps(d: int, dEnd: map<Vector, int>, fastest: int, n1s: seq<Vector>, s: Shortcut)
      ensures s in Jumps(d, dEnd, fastest, n1s) <==>
              exists n1, n2 :: n1 in n1s && Hurdle(n1) && n2 in Neighbors4(n1) && LandsOn(d, dEnd, fastest, n1, n2, s)
    {
      if |n1s| > 0 {
        var pre, n1 := n1s[..|n1s| - 1], n1s[|n1s| - 1];
        InJumps(d, dEnd, fastest, pre, s);
        InLandings(d, dEnd, fastest, n1, Neighbors4(n1), s);
        assert n1s == pre + [n1];
        if s in Jumps(d, dEnd, fastest, n1s) && s !in Jumps(d, dEnd, fastest, pre) {
          var n2 :| n2 in Neighbors4(n1) && LandsOn(d, dEnd, fastest, n1, n2, s);
          assert Hurdle(n1);
        }
        if exists n1', n2 :: n1' in n1s && Hurdle(n1') && n2 in Neighbors4(n1') && LandsOn(d, dEnd, fastest, n1', n2, s) {
          var n1', n2 :| n1' in n1s && Hurdle(n1') && n2 in Neighbors4(n1') && LandsOn(d, dEnd, fastest, n1', n2, s);
          if n1' == n1 {
            assert s in Landings(d, dEnd, fastest, n1, Neighbors4(n1));
          }
        }
      }
    }

    lemma {:induction false} InAlong(fs: seq<Vector>, dStart: map<Vector, int>, dEnd: map<Vector, int>,
                                     fastest: int, s: Shortcut)
      requires forall f :: f in fs ==> f in dStart
      ensures s in Along(fs, dStart, dEnd, fastest) <==>
              exists f :: f in fs && s in Jumps(dStart[f], dEnd, fastest, Neighbors4(f))
    {
      if |fs| > 0 {
        var pre, f := fs[..|fs| - 1], fs[|fs| - 1];
        assert fs == pre + [f];
        InAlong(pre, dStart, dEnd, fastest, s);
      }
    }

    /** A shortcut from a cell `dStart` records, through a wall on the grid
        next to it, to an open cell behind the wall that `dEnd` records,
        beating `fastest`. */
    ghost predicate Found(dStart: map<Vector, int>, dEnd: map<Vector, int>, fastest: int, s: Shortcut)
    {
      exists f, n1, n2 :: f in dStart && n1 in Neighbors4(f) && Hurdle(n1) && n2 in Neighbors4(n1) &&
        LandsOn(dStart[f], dEnd, fastest, n1, n2, s)
    }

    /** The list SolveShortcuts returns holds exactly the shortcuts `Found`
        describes. With both maps `Solved`, that is: from a cell reachable
        from Start, through one wall, to an open cell that reaches End, with
        the distance the fewest moves to the first cell, the two moves through
        the wall and the fewest moves from the landing to End. */
    lemma ShortcutsFound(order: seq<Vector>, dStart: map<Vector, int>, dEnd: map<Vector, int>,
                         fastest: int, s: Shortcut)
      requires Listed(dStart, order)
      ensures forall f :: f in order ==> f in dStart
      ensures s in Along(order, dStart, dEnd, fastest) <==> Found(dStart, dEnd, fastest, s)
    {
      InAlong(order, dStart, dEnd, fastest, s);
      if s in Along(order, dStart, dEnd, fastest) {
        var f :| f in order && s in Jumps(dStart[f], dEnd, fastest, Neighbors4(f));
        InJumps(dStart[f], dEnd, fastest, Neighbors4(f), s);
        var n1, n2 :| n1 in Neighbors4(f) && Hurdle(n1) && n2 in Neighbors4(n1) &&
                      LandsOn(dStart[f], dEnd, fastest, n1, n2, s);
        assert f in dStart;
      }
      if Found(dStart, dEnd, fastest, s) {
        var f, n1, n2 :| f in dStart && n1 in Neighbors4(f) && Hurdle(n1) && n2 in Neighbors4(n1) &&
                         LandsOn(dStart[f], dEnd, fastest, n1, n2, s);
        InJumps(dStart[f], dEnd, fastest, Neighbors4(f), s);
        assert f in order;
      }
    }

    // -------------------------------------------------------------------
    // The landing as the source computes it

    /** The inner test of SolveShortcuts as written: only walls and cells
        off the grid are skipped, and the sum is taken in 64-bit `int`, so a
        landing no sweep reached contributes MaxInt to it. */
    function LandingAsWritten(d: int, dEnd: map<Vector, int>, fastest: int, n1: Vector, n2: Vector): (r: seq<Shortcut>)
      ensures |r| <= 1
      ensures r != [] ==> r[0].pos1 == n1 && r[0].pos2 == n2 && r[0].dist < fastest && !IsOOB(n2, Size) && n2 !in Walls
    {
      if IsOOB(n2, Size) || n2 in Walls then []
      else
        var dist := Wrap64(d + 2 + DistAt(dEnd, n2));
        if dist < fastest then [Shortcut(n1, n2, dist)] else []
    }

    /** Where the landing reaches End and the sum fits in 64 bits, the code as
        written and the model agree. */
    lemma LandingReachedAgrees(d: int, dEnd: map<Vector, int>, fastest: int, n1: Vector, n2: Vector)
      requires n2 in dEnd && -MaxInt - 1 <= d + 2 + dEnd[n2] <= MaxInt
      ensures LandingAsWritten(d, dEnd, fastest, n1, n2) == Landing(d, dEnd, fastest, n1, n2)
    {
    }

    /** A landing that cannot reach End: the wrapped sum is hugely negative,
        so the code as written records a shortcut the model drops, and the
        saving the puzzle answer counts wraps to at least 100 whenever the
        start cell lies at least as far from Start as End does. */
    lemma UnreachableLandingCounted(d: int, dEnd: map<Vector, int>, fastest: int, n1: Vector, n2: Vector)
      requires !IsOOB(n2, Size) && n2 !in Walls && n2 !in dEnd
      requires 0 <= fastest <= MaxInt && fastest <= d <= fastest + 0x1_0000
      ensures Landing(d, dEnd, fastest, n1, n2) == []
      ensures LandingAsWritten(d, dEnd, fastest, n1, n2) == [Shortcut(n1, n2, d + 1 - MaxInt - 1)]
      ensures Saving(fastest, LandingAsWritten(d, dEnd, fastest, n1, n2)[0]) >= 100
    {
      assert DistAt(dEnd, n2) == MaxInt;
      var x := d + 2 + MaxInt;
      assert MaxInt < x <= MaxInt + 0x1_0000_0000_0000_0000;
      assert Wrap64(x) == x - 0x1_0000_0000_0000_0000;
    }
  }
}
