// Day 16, part 2 (16-2/main.go): a reindeer maze. Every cell holds one
// node per facing; moving forward costs 1 and turning in place costs 1000.
// Solve relaxes node distances from the start facing right through a
// heap, and MarkPath walks back from the end over edges whose costs add
// up exactly, marking the cells on best paths.

module MazeGraph {
  import opened GoInt
  import opened Vectors
  import opened Grids

  /** The four facings, in the order of their iota values. */
  datatype Dir = Up | Right | Down | Left

  const Dirs: seq<Dir> := [Up, Right, Down, Left]

  const Empty: char := '.'
  const Wall: char := '#'

  /** Dir.Vector: one step in the facing, y growing downwards. */
  function DirVector(d: Dir): (v: Vector)
    ensures Abs(v.x) + Abs(v.y) == 1
    ensures d == Up <==> v == Vector(0, -1)
  {
    match d
    case Up => Vector(0, -1)
    case Right => Vector(1, 0)
    case Down => Vector(0, 1)
    case Left => Vector(-1, 0)
  }

  /** The next facing in the order of Dirs. */
  function Clockwise(d: Dir): Dir
  {
    match d
    case Up => Right
    case Right => Down
    case Down => Left
    case Left => Up
  }

  /** Each facing in Dirs is the previous one turned a quarter clockwise
      on the screen, so the four vectors are distinct. */
  lemma VectorsRotate(d: Dir)
    ensures DirVector(Clockwise(d)) == Vector(-DirVector(d).y, DirVector(d).x)
    ensures forall e: Dir :: DirVector(e) == DirVector(d) ==> e == d
  {
  }

  predicate Vertical(d: Dir)
  {
    d == Up || d == Down
  }

  /** A quarter turn apart: one facing vertical, the other horizontal. */
  predicate Perpendicular(d: Dir, e: Dir)
  {
    Vertical(d) != Vertical(e)
  }

  function Dot(a: Vector, b: Vector): int
  {
    a.x * b.x + a.y * b.y
  }

  /** Perpendicular facings are those whose vectors have a zero dot
      product. */
  lemma PerpendicularDot(d: Dir, e: Dir)
    ensures Perpendicular(d, e) <==> Dot(DirVector(d), DirVector(e)) == 0
  {
    var u, v := DirVector(d), DirVector(e);
    assert u.x * v.x == if u.x == 0 || v.x == 0 then 0 else if u.x == v.x then 1 else -1;
    assert u.y * v.y == if u.y == 0 || v.y == 0 then 0 else if u.y == v.y then 1 else -1;
  }

  /** Dir.Turns: the two facings a quarter turn away. */
  function Turns(d: Dir): (r: seq<Dir>)
    ensures |r| == 2 && r[0] != r[1]
    ensures forall e: Dir :: e in r <==> Perpendicular(d, e)
  {
    match d
    case Up => [Left, Right]
    case Down => [Left, Right]
    case Right => [Up, Down]
    case Left => [Up, Down]
  }

  /** Every node of a cell is one of its four facings. */
  datatype Node = Node(pos: Vector, dir: Dir)

  lemma CellNodes(pos: Vector)
    ensures forall d: Dir :: Node(pos, d) in {Node(pos, Up), Node(pos, Right), Node(pos, Down), Node(pos, Left)}
  {
    forall d: Dir
      ensures Node(pos, d) in {Node(pos, Up), Node(pos, Right), Node(pos, Down), Node(pos, Left)}
    {
      match d
      case Up =>
      case Right =>
      case Down =>
      case Left =>
    }
  }

  datatype Edge = Edge(From: Node, To: Node, Cost: int)

  /** NewCell: the four nodes of the cell at pos, one per facing, each at
      distance MaxInt. */
  function NewCell(pos: Vector): (r: map<Node, int>)
    ensures forall d: Dir :: Node(pos, d) in r
    ensures forall n | n in r :: n.pos == pos && r[n] == MaxInt
  {
    CellNodes(pos);
    map[Node(pos, Up) := MaxInt, Node(pos, Right) := MaxInt,
        Node(pos, Down) := MaxInt, Node(pos, Left) := MaxInt]
  }

  predicate Open(types: seq<seq<char>>, v: Vector)
  {
    InGrid(types, v) && At(types, v) == Empty
  }

  /** Every open cell has its four neighbours on the grid, as when the
      maze is framed by walls; Maze.At indexes the grid unchecked. */
  ghost predicate Enclosed(types: seq<seq<char>>)
  {
    forall v, d: Dir | Open(types, v) :: InGrid(types, Add(v, DirVector(d)))
  }

  lemma NeighbourBack(types: seq<seq<char>>, v: Vector, d: Dir)
    requires Enclosed(types) && Open(types, v)
    ensures InGrid(types, Add(v, DirVector(d))) && InGrid(types, Sub(v, DirVector(d)))
  {
    var e := Clockwise(Clockwise(d));
    assert Sub(v, DirVector(d)) == Add(v, DirVector(e));
  }

  /** The moves out of n: forward into an open cell at cost 1, or a
      quarter turn in place at cost 1000. */
  predicate OutEdge(types: seq<seq<char>>, n: Node, e: Edge)
  {
    e.From == n
    && ((e.Cost == 1 && e.To == Node(Add(n.pos, DirVector(n.dir)), n.dir) && Open(types, e.To.pos))
        || (e.Cost == 1000 && e.To.pos == n.pos && Perpendicular(n.dir, e.To.dir)))
  }

  /** The moves into n: from the open cell behind it at cost 1, or a
      quarter turn in place at cost 1000. */
  predicate InEdge(types: seq<seq<char>>, n: Node, e: Edge)
  {
    e.To == n
    && ((e.Cost == 1 && e.From == Node(Sub(n.pos, DirVector(n.dir)), n.dir) && Open(types, e.From.pos))
        || (e.Cost == 1000 && e.From.pos == n.pos && Perpendicular(e.From.dir, n.dir)))
  }

  /** Maze.GetOutEdges: the forward edge first when the cell ahead is
      open, then the two turns. */
  function OutEdges(types: seq<seq<char>>, n: Node): (r: seq<Edge>)
    requires Enclosed(types) && Open(types, n.pos)
    ensures forall e :: e in r <==> OutEdge(types, n, e)
    ensures |r| == if Open(types, Add(n.pos, DirVector(n.dir))) then 3 else 2
  {
    var next := Add(n.pos, DirVector(n.dir));
    NeighbourBack(types, n.pos, n.dir);
    var forward := if At(types, next) == Empty then [Edge(n, Node(next, n.dir), 1)] else [];
    var turns := Turns(n.dir);
    forward + [Edge(n, Node(n.pos, turns[0]), 1000), Edge(n, Node(n.pos, turns[1]), 1000)]
  }

  /** Maze.GetInEdges: the backward edge first when the cell behind is
      open, then the two turns. */
  function InEdges(types: seq<seq<char>>, n: Node): (r: seq<Edge>)
    requires Enclosed(types) && Open(types, n.pos)
    ensures forall e :: e in r <==> InEdge(types, n, e)
    ensures |r| <= 3
  {
    var prev := Sub(n.pos, DirVector(n.dir));
    NeighbourBack(types, n.pos, n.dir);
    var backward := if At(types, prev) == Empty then [Edge(Node(prev, n.dir), n, 1)] else [];
    var turns := Turns(n.dir);
    backward + [Edge(Node(n.pos, turns[0]), n, 1000), Edge(Node(n.pos, turns[1]), n, 1000)]
  }

  /** Between open cells, the edges into a node are exactly the edges out
      of their sources that end there. */
  lemma EdgesReverse(types: seq<seq<char>>, e: Edge)
    requires Enclosed(types) && Open(types, e.From.pos) && Open(types, e.To.pos)
    ensures e in OutEdges(types, e.From) <==> e in InEdges(types, e.To)
  {
    var a, n := e.From, e.To;
    if e.Cost == 1 {
      assert OutEdge(types, a, e) <==> e.To == Node(Add(a.pos, DirVector(a.dir)), a.dir);
      assert InEdge(types, n, e) <==> e.From == Node(Sub(n.pos, DirVector(n.dir)), n.dir);
    }
  }

  /** Costs of the edges of a walk. */
  function Cost(w: seq<Edge>): int
  {
    if w == [] then 0 else Cost(w[..|w| - 1]) + w[|w| - 1].Cost
  }

  function Last(w: seq<Edge>, a: Node): Node
  {
    if w == [] then a else w[|w| - 1].To
  }

  /** w is a walk of out-edges from a over open cells. */
  ghost predicate IsWalk(types: seq<seq<char>>, w: seq<Edge>, a: Node)
  {
    w == [] ||
    (var e := w[|w| - 1];
     IsWalk(types, w[..|w| - 1], a) && e.From == Last(w[..|w| - 1], a)
     && Open(types, e.From.pos) && OutEdge(types, e.From, e))
  }

  /** Some walk from a ends at b and costs c. */
  ghost predicate Walk(types: seq<seq<char>>, a: Node, b: Node, c: int)
  {
    exists w :: IsWalk(types, w, a) && Last(w, a) == b && Cost(w) == c
  }

  lemma WalkZero(types: seq<seq<char>>, a: Node)
    ensures Walk(types, a, a, 0)
  {
    assert IsWalk(types, [], a) && Last([], a) == a && Cost([]) == 0;
  }

  lemma WalkSnoc(types: seq<seq<char>>, a: Node, b: Node, c: int, e: Edge)
    requires Walk(types, a, b, c) && Open(types, b.pos) && OutEdge(types, b, e)
    ensures Walk(types, a, e.To, c + e.Cost)
  {
    var w :| IsWalk(types, w, a) && Last(w, a) == b && Cost(w) == c;
    var w' := w + [e];
    assert w'[..|w'| - 1] == w;
    assert IsWalk(types, w', a) && Last(w', a) == e.To && Cost(w') == c + e.Cost;
  }
}

/** Solve and MarkPath over a maze whose node distances live in one map. */
module MazeRun {
  import opened GoInt
  import opened Vectors
  import opened Grids
  import opened MazeGraph

  /** The nodes of the map are exactly the four of every cell on the grid. */
  ghost predicate Domain(types: seq<seq<char>>, dist: map<Node, int>)
  {
    forall n: Node :: n in dist <==> InGrid(types, n.pos)
  }

  ghost predicate Bounded(dist: map<Node, int>)
  {
    forall n | n in dist :: 0 <= dist[n] <= MaxInt
  }

  predicate Finite(dist: map<Node, int>, n: Node)
  {
    n in dist && dist[n] < MaxInt
  }

  /** Every finite distance is the cost of a walk from s0 over open cells. */
  ghost predicate Reached(types: seq<seq<char>>, s0: Node, dist: map<Node, int>)
  {
    forall n | Finite(dist, n) :: Open(types, n.pos) && Walk(types, s0, n, dist[n])
  }

  /** No out-edge of u would improve its target. */
  ghost predicate Relaxed(types: seq<seq<char>>, dist: map<Node, int>, u: Node)
    requires u in dist
  {
    forall e | OutEdge(types, u, e) :: e.To in dist && dist[e.To] <= dist[u] + e.Cost
  }

  ghost predicate Queued(dist: map<Node, int>, q: seq<Node>)
  {
    forall i | 0 <= i < |q| :: Finite(dist, q[i])
  }

  /** Every finite node outside skip is waiting in the queue, or has been
      expanded: it is relaxed and is not at the end. */
  ghost predicate Covering(types: seq<seq<char>>, end: Vector, dist: map<Node, int>, q: seq<Node>, skip: set<Node>)
  {
    forall n | Finite(dist, n) && n !in skip :: n in q || (n.pos != end && Relaxed(types, dist, n))
  }

  /** The state Solve keeps between pops. */
  ghost predicate Searching(types: seq<seq<char>>, s0: Node, end: Vector, dist: map<Node, int>, q: seq<Node>, skip: set<Node>)
  {
    Domain(types, dist) && Bounded(dist) && s0 in dist && dist[s0] == 0
    && Reached(types, s0, dist) && Queued(dist, q) && Covering(types, end, dist, q, skip)
  }

  /** Some queued node is no further than c. */
  ghost predicate Below(dist: map<Node, int>, q: seq<Node>, c: int)
  {
    exists j :: 0 <= j < |q| && q[j] in dist && dist[q[j]] <= c
  }

  /** q[i] has the least distance in q: the node the heap pops. */
  predicate Least(dist: map<Node, int>, q: seq<Node>, i: nat)
  {
    i < |q| && q[i] in dist && forall j | 0 <= j < |q| && q[j] in dist :: dist[q[i]] <= dist[q[j]]
  }

  lemma {:induction false} LeastExists(dist: map<Node, int>, q: seq<Node>)
    requires q != [] && Queued(dist, q)
    ensures exists i: nat :: Least(dist, q, i)
  {
    if |q| > 1 {
      LeastExists(dist, q[1..]);
      var i: nat :| Least(dist, q[1..], i);
      if dist[q[0]] <= dist[q[1..][i]] {
        assert Least(dist, q, 0);
      } else {
        assert Least(dist, q, i + 1);
      }
    } else {
      assert Least(dist, q, 0);
    }
  }

  function Remove(q: seq<Node>, i: nat): (r: seq<Node>)
    requires i < |q|
    ensures |r| == |q| - 1
    ensures forall n :: n in q ==> n in r || n == q[i]
    ensures forall n :: n in r ==> n in q
  {
    q[..i] + q[i + 1..]
  }

  lemma {:induction false} CostNonneg(types: seq<seq<char>>, w: seq<Edge>, a: Node)
    requires IsWalk(types, w, a)
    ensures Cost(w) >= 0
  {
    if w != [] {
      CostNonneg(types, w[..|w| - 1], a);
    }
  }

  /** The heart of Dijkstra's argument: along any walk from s0, either
      some queued node is no further than the walk's cost, or its last node
      already is. */
  lemma {:induction false} Frontier(types: seq<seq<char>>, s0: Node, end: Vector, dist: map<Node, int>, q: seq<Node>, w: seq<Edge>)
    requires Searching(types, s0, end, dist, q, {}) && IsWalk(types, w, s0)
    ensures Last(w, s0) in dist
    ensures Below(dist, q, Cost(w)) || dist[Last(w, s0)] <= Cost(w)
  {
    if w != [] {
      var w', e := w[..|w| - 1], w[|w| - 1];
      var u := Last(w', s0);
      Frontier(types, s0, end, dist, q, w');
      CostNonneg(types, w', s0);
      assert e.From == u && Open(types, u.pos) && OutEdge(types, u, e);
      assert e.To in dist;
      if u in q && dist[u] <= Cost(w') {
        var j :| 0 <= j < |q| && q[j] == u;
        assert dist[q[j]] <= Cost(w);
      } else if Below(dist, q, Cost(w')) {
        var j :| 0 <= j < |q| && q[j] in dist && dist[q[j]] <= Cost(w');
        assert dist[q[j]] <= Cost(w);
      } else if Cost(w) < MaxInt {
        assert Finite(dist, u);
        assert Relaxed(types, dist, u);
      }
    }
  }

  /** A least node popped at the end is no further than any walk to the
      end. */
  lemma PopOptimal(types: seq<seq<char>>, s0: Node, end: Vector, dist: map<Node, int>, q: seq<Node>, i: nat)
    requires Searching(types, s0, end, dist, q, {}) && Least(dist, q, i) && q[i].pos == end
    ensures forall w | IsWalk(types, w, s0) && Last(w, s0).pos == end :: dist[q[i]] <= Cost(w)
  {
    forall w | IsWalk(types, w, s0) && Last(w, s0).pos == end
      ensures dist[q[i]] <= Cost(w)
    {
      Frontier(types, s0, end, dist, q, w);
      var x := Last(w, s0);
      if Below(dist, q, Cost(w)) {
        var j :| 0 <= j < |q| && q[j] in dist && dist[q[j]] <= Cost(w);
      } else if Cost(w) < MaxInt {
        assert Finite(dist, x);
        var j :| 0 <= j < |q| && q[j] == x;
      }
    }
  }

  /** With nothing queued, no walk reaches the end below MaxInt. */
  lemma Exhausted(types: seq<seq<char>>, s0: Node, end: Vector, dist: map<Node, int>)
    requires Searching(types, s0, end, dist, [], {})
    ensures forall w | IsWalk(types, w, s0) && Last(w, s0).pos == end :: MaxInt <= Cost(w)
  {
    forall w | IsWalk(types, w, s0) && Last(w, s0).pos == end
      ensures MaxInt <= Cost(w)
    {
      Frontier(types, s0, end, dist, [], w);
      assert Cost(w) >= MaxInt || Finite(dist, Last(w, s0));
    }
  }

  /** Sum of all distances, which every improvement lowers. */
  ghost function Total(m: map<Node, int>): int
    decreases |m|
  {
    if m == map[] then 0 else var k :| k in m; m[k] + Total(m - {k})
  }

  lemma {:induction false} TotalPick(m: map<Node, int>, k: Node)
    requires k in m
    ensures Total(m) == m[k] + Total(m - {k})
    decreases |m|
  {
    var j :| j in m && Total(m) == m[j] + Total(m - {j});
    if j != k {
      TotalPick(m - {j}, k);
      TotalPick(m - {k}, j);
      assert m - {j} - {k} == m - {k} - {j};
    }
  }

  /** No distance went up, and t went down. */
  ghost predicate Lowered(a: map<Node, int>, b: map<Node, int>)
  {
    a.Keys == b.Keys && forall x | x in b :: a[x] <= b[x]
  }

  lemma {:induction false} TotalLess(a: map<Node, int>, b: map<Node, int>)
    requires Lowered(a, b)
    ensures Total(a) <= Total(b)
    ensures (exists t :: t in b && a[t] < b[t]) ==> Total(a) < Total(b)
    decreases |b|
  {
    if b != map[] {
      var k :| k in b && ((exists t :: t in b && a[t] < b[t]) ==> a[k] < b[k]);
      TotalPick(a, k);
      TotalPick(b, k);
      assert (a - {k}).Keys == a.Keys - {k};
      TotalLess(a - {k}, b - {k});
    }
  }

  lemma {:induction false} TotalNonneg(m: map<Node, int>)
    requires Bounded(m)
    ensures Total(m) >= 0
    decreases |m|
  {
    if m != map[] {
      var k :| k in m && Total(m) == m[k] + Total(m - {k});
      TotalNonneg(m - {k});
    }
  }

  /** Popping a node that is not at the end exempts it from the covering
      until it is expanded. */
  lemma Pop(types: seq<seq<char>>, s0: Node, end: Vector, dist: map<Node, int>, q: seq<Node>, i: nat)
    requires Searching(types, s0, end, dist, q, {}) && i < |q| && q[i].pos != end
    ensures Finite(dist, q[i]) && Searching(types, s0, end, dist, Remove(q, i), {q[i]})
    ensures Open(types, q[i].pos)
    ensures forall e | OutEdge(types, q[i], e) :: e.To in dist
  {
    var n := q[i];
    assert Finite(dist, n);
    forall e | OutEdge(types, n, e)
      ensures e.To in dist
    {
    }
  }

  /** Lowering t to v, the cost of a walk to n plus one out-edge of n,
      and queueing t keeps the search state. */
  lemma Improve(types: seq<seq<char>>, s0: Node, end: Vector, dist: map<Node, int>, q: seq<Node>, n: Node, e: Edge)
    requires Searching(types, s0, end, dist, q, {n}) && Finite(dist, n)
    requires OutEdge(types, n, e) && e.To in dist && dist[e.To] > dist[n] + e.Cost
    ensures e.To != n
    ensures Searching(types, s0, end, dist[e.To := dist[n] + e.Cost], q + [e.To], {n})
  {
    var t, v := e.To, dist[n] + e.Cost;
    var dist' := dist[t := v];
    VectorsRotate(n.dir);
    assert t != n;
    assert Walk(types, s0, t, v) by {
      WalkSnoc(types, s0, n, dist[n], e);
    }
    assert Open(types, t.pos);
    assert Reached(types, s0, dist');
    forall m | Finite(dist', m) && m !in {n}
      ensures m in q + [t] || (m.pos != end && Relaxed(types, dist', m))
    {
      if m != t && m !in q {
        assert Relaxed(types, dist, m);
      }
    }
  }

  /** The state Solve keeps while it relaxes the out-edges of n: the
      first k hold, and the distances either went down in total or were
      left alone. */
  ghost predicate Relaxing(types: seq<seq<char>>, s0: Node, end: Vector, dist: map<Node, int>, q: seq<Node>, n: Node, edges: seq<Edge>, k: int, dist0: map<Node, int>, q0: seq<Node>)
  {
    Searching(types, s0, end, dist, q, {n}) && Finite(dist, n) && n.pos != end
    && (forall e :: e in edges <==> OutEdge(types, n, e))
    && EdgesHold(dist, n, edges, k, dist0) && Progress(dist, q, dist0, q0)
  }

  /** The first k edges of n hold, n keeps its distance, and every edge
      target is a node of the map. */
  ghost predicate EdgesHold(dist: map<Node, int>, n: Node, edges: seq<Edge>, k: int, dist0: map<Node, int>)
  {
    n in dist && n in dist0 && dist[n] == dist0[n]
    && (forall j | 0 <= j < |edges| :: edges[j].To in dist)
    && 0 <= k <= |edges|
    && (forall j | 0 <= j < k :: dist[edges[j].To] <= dist[n] + edges[j].Cost)
  }

  /** Either nothing changed, or some distance went down and none went up. */
  ghost predicate Progress(dist: map<Node, int>, q: seq<Node>, dist0: map<Node, int>, q0: seq<Node>)
  {
    Lowered(dist, dist0) && ((q == q0 && dist == dist0) || exists t :: t in dist0 && dist[t] < dist0[t])
  }


  lemma RelaxStart(types: seq<seq<char>>, s0: Node, end: Vector, dist: map<Node, int>, q: seq<Node>, n: Node, edges: seq<Edge>)
    requires Searching(types, s0, end, dist, q, {n}) && Finite(dist, n) && n.pos != end
    requires forall e :: e in edges <==> OutEdge(types, n, e)
    requires forall e | OutEdge(types, n, e) :: e.To in dist
    ensures Relaxing(types, s0, end, dist, q, n, edges, 0, dist, q)
  {
    forall j | 0 <= j < |edges|
      ensures edges[j].To in dist
    {
      assert edges[j] in edges;
    }
  }

  /** Lowering the target of the k-th edge, as Solve does on a strict
      improvement. */
  lemma RelaxLower(types: seq<seq<char>>, s0: Node, end: Vector, dist: map<Node, int>, q: seq<Node>, n: Node, edges: seq<Edge>, k: int, dist0: map<Node, int>, q0: seq<Node>)
    requires Relaxing(types, s0, end, dist, q, n, edges, k, dist0, q0) && k < |edges|
    requires dist[edges[k].To] > dist[n] + edges[k].Cost
    ensures Relaxing(types, s0, end, dist[edges[k].To := dist[n] + edges[k].Cost], q + [edges[k].To], n, edges, k + 1, dist0, q0)
  {
    var e := edges[k];
    assert OutEdge(types, n, e) by {
      assert e in edges;
    }
    Improve(types, s0, end, dist, q, n, e);
    LowerBook(dist, q, n, edges, k, dist0, q0);
  }

  /** The bookkeeping half of RelaxLower. */
  lemma LowerBook(dist: map<Node, int>, q: seq<Node>, n: Node, edges: seq<Edge>, k: int, dist0: map<Node, int>, q0: seq<Node>)
    requires EdgesHold(dist, n, edges, k, dist0) && Progress(dist, q, dist0, q0) && k < |edges|
    requires edges[k].To != n && dist[edges[k].To] > dist[n] + edges[k].Cost
    ensures var d' := dist[edges[k].To := dist[n] + edges[k].Cost];
            EdgesHold(d', n, edges, k + 1, dist0) && Progress(d', q + [edges[k].To], dist0, q0)
  {
    var t := edges[k].To;
    var d' := dist[t := dist[n] + edges[k].Cost];
    assert t in dist0 && d'[t] < dist0[t];
    assert d'.Keys == dist.Keys;
  }

  /** An edge that would not improve its target is left alone. */
  lemma RelaxKeep(types: seq<seq<char>>, s0: Node, end: Vector, dist: map<Node, int>, q: seq<Node>, n: Node, edges: seq<Edge>, k: int, dist0: map<Node, int>, q0: seq<Node>)
    requires Relaxing(types, s0, end, dist, q, n, edges, k, dist0, q0) && k < |edges|
    requires dist[edges[k].To] <= dist[n] + edges[k].Cost
    ensures Relaxing(types, s0, end, dist, q, n, edges, k + 1, dist0, q0)
  {
  }

  /** The loop over GetOutEdges in Solve: every out-edge of n that
      strictly improves its target lowers it and queues it again. */
  method Expand(types: seq<seq<char>>, s0: Node, end: Vector, dist: map<Node, int>, q: seq<Node>, n: Node, edges: seq<Edge>)
    returns (dist': map<Node, int>, q': seq<Node>)
    requires Relaxing(types, s0, end, dist, q, n, edges, 0, dist, q)
    ensures Relaxing(types, s0, end, dist', q', n, edges, |edges|, dist, q)
  {
    dist', q' := dist, q;
    for k := 0 to |edges|
      invariant Relaxing(types, s0, end, dist', q', n, edges, k, dist, q)
    {
      var e := edges[k];
      if dist'[e.To] > dist'[n] + e.Cost {
        RelaxLower(types, s0, end, dist', q', n, edges, k, dist, q);
        dist' := dist'[e.To := dist'[n] + e.Cost];
        q' := q' + [e.To];
      } else {
        RelaxKeep(types, s0, end, dist', q', n, edges, k, dist, q);
      }
    }
  }

  /** An expanded node whose out-edges all hold is relaxed, which
      restores the full covering. */
  lemma Settle(types: seq<seq<char>>, s0: Node, end: Vector, dist: map<Node, int>, q: seq<Node>, n: Node, edges: seq<Edge>, dist0: map<Node, int>, q0: seq<Node>)
    requires Relaxing(types, s0, end, dist, q, n, edges, |edges|, dist0, q0)
    ensures Searching(types, s0, end, dist, q, {}) && Total(dist) >= 0
    ensures Total(dist) < Total(dist0) || (q == q0 && dist == dist0)
  {
    assert Relaxed(types, dist, n) by {
      forall e | OutEdge(types, n, e)
        ensures e.To in dist && dist[e.To] <= dist[n] + e.Cost
      {
        var j :| 0 <= j < |edges| && edges[j] == e;
      }
    }
    TotalNonneg(dist);
    TotalLess(dist, dist0);
  }

  /** e is followed back: its source is finite and it lies on a cheapest
      way into its target. */
  ghost predicate Tight(dist: map<Node, int>, e: Edge)
  {
    e.From in dist && e.To in dist && dist[e.From] != MaxInt && dist[e.From] + e.Cost == dist[e.To]
  }

  /** MarkPath steps back from n to m: n is not at the start, and m is the
      source of a tight in-edge of n. */
  ghost predicate BackStep(types: seq<seq<char>>, dist: map<Node, int>, start: Vector, m: Node, n: Node)
  {
    n.pos != start && Open(types, n.pos) && Open(types, m.pos)
    && exists c: int :: InEdge(types, n, Edge(m, n, c)) && Tight(dist, Edge(m, n, c))
  }

  /** c starts at a node of the end cell and steps back each time. */
  ghost predicate IsChain(types: seq<seq<char>>, dist: map<Node, int>, start: Vector, end: Vector, c: seq<Node>)
    decreases |c|
  {
    if |c| <= 1 then |c| == 1 && c[0].pos == end
    else IsChain(types, dist, start, end, c[..|c| - 1]) && BackStep(types, dist, start, c[|c| - 1], c[|c| - 2])
  }

  /** n is reached by stepping back from the end cell. */
  ghost predicate BackReach(types: seq<seq<char>>, dist: map<Node, int>, start: Vector, end: Vector, n: Node)
  {
    exists c :: |c| > 0 && IsChain(types, dist, start, end, c) && c[|c| - 1] == n
  }

  lemma ChainStart(types: seq<seq<char>>, dist: map<Node, int>, start: Vector, end: Vector, d: Dir)
    ensures BackReach(types, dist, start, end, Node(end, d))
  {
    assert IsChain(types, dist, start, end, [Node(end, d)]);
  }

  lemma ChainSnoc(types: seq<seq<char>>, dist: map<Node, int>, start: Vector, end: Vector, n: Node, e: Edge)
    requires BackReach(types, dist, start, end, n) && n.pos != start && Open(types, n.pos)
    requires InEdge(types, n, e) && Tight(dist, e) && Open(types, e.From.pos)
    ensures BackReach(types, dist, start, end, e.From)
  {
    var c :| |c| > 0 && IsChain(types, dist, start, end, c) && c[|c| - 1] == n;
    var c' := c + [e.From];
    assert c'[..|c'| - 1] == c;
    assert e == Edge(e.From, n, e.Cost);
    assert BackStep(types, dist, start, e.From, n);
    assert IsChain(types, dist, start, end, c');
  }

  /** Every node of the queue and of done is reached backwards, and every
      marked cell was marked before or holds such a node. */
  ghost predicate MarkSound(types: seq<seq<char>>, dist: map<Node, int>, start: Vector, end: Vector, q: seq<Node>, done: set<Node>, onPath: set<Vector>, base: set<Vector>)
  {
    (forall i | 0 <= i < |q| :: BackReach(types, dist, start, end, q[i]) && Open(types, q[i].pos) && q[i].pos in onPath)
    && (forall n | n in done :: BackReach(types, dist, start, end, n) && n.pos in onPath)
    && (forall v | v in onPath :: v in base || exists d: Dir :: BackReach(types, dist, start, end, Node(v, d)))
    && base <= onPath
  }

  /** Every tight in-edge of a node in done (outside skip, not at the
      start) comes from a node in done or in the queue, and the end
      nodes are in one of them. */
  ghost predicate MarkClosed(types: seq<seq<char>>, dist: map<Node, int>, start: Vector, end: Vector, q: seq<Node>, done: set<Node>, skip: set<Node>)
  {
    (forall d: Dir :: Node(end, d) in done || Node(end, d) in q)
    && forall n, m, c | n in done && n !in skip && n.pos != start
                        && InEdge(types, n, Edge(m, n, c)) && Tight(dist, Edge(m, n, c)) ::
         m in done || m in q
  }

  /** With nothing queued, a closed done holds every node reached
      backwards. */
  lemma {:induction false} ChainDone(types: seq<seq<char>>, dist: map<Node, int>, start: Vector, end: Vector, done: set<Node>, c: seq<Node>)
    requires MarkClosed(types, dist, start, end, [], done, {}) && IsChain(types, dist, start, end, c)
    ensures |c| > 0 && c[|c| - 1] in done
    decreases |c|
  {
    if |c| > 1 {
      ChainDone(types, dist, start, end, done, c[..|c| - 1]);
      var n, m := c[|c| - 2], c[|c| - 1];
      assert BackStep(types, dist, start, m, n);
      var k: int :| InEdge(types, n, Edge(m, n, k)) && Tight(dist, Edge(m, n, k));
      assert c[..|c| - 1][|c| - 2] == n;
    } else {
      assert Node(end, c[0].dir) == c[0];
    }
  }

  /** The four end nodes start the queue, their cell marked. */
  lemma MarkInit(types: seq<seq<char>>, dist: map<Node, int>, start: Vector, end: Vector, base: set<Vector>)
    requires Open(types, end)
    ensures var q := [Node(end, Up), Node(end, Right), Node(end, Down), Node(end, Left)];
            MarkSound(types, dist, start, end, q, {}, base + {end}, base)
            && MarkClosed(types, dist, start, end, q, {}, {})
  {
    var q := [Node(end, Up), Node(end, Right), Node(end, Down), Node(end, Left)];
    ChainStart(types, dist, start, end, Up);
    ChainStart(types, dist, start, end, Right);
    ChainStart(types, dist, start, end, Down);
    ChainStart(types, dist, start, end, Left);
    forall d: Dir
      ensures Node(end, d) in q
    {
      match d
      case Up =>
      case Right =>
      case Down =>
      case Left =>
    }
    forall v | v in base + {end}
      ensures v in base || exists d: Dir :: BackReach(types, dist, start, end, Node(v, d))
    {
      if v == end {
        assert BackReach(types, dist, start, end, Node(v, Up));
      }
    }
  }

  /** Taking the head off the queue puts it in done, exempt from the
      closure until it is expanded; a node at the start stays exempt. */
  lemma MarkPop(types: seq<seq<char>>, dist: map<Node, int>, start: Vector, end: Vector, q: seq<Node>, done: set<Node>, onPath: set<Vector>, base: set<Vector>)
    requires MarkSound(types, dist, start, end, q, done, onPath, base) && MarkClosed(types, dist, start, end, q, done, {})
    requires q != []
    ensures MarkSound(types, dist, start, end, q[1..], done + {q[0]}, onPath, base)
    ensures MarkClosed(types, dist, start, end, q[1..], done + {q[0]}, {q[0]})
    ensures q[0].pos == start ==> MarkClosed(types, dist, start, end, q[1..], done + {q[0]}, {})
    ensures BackReach(types, dist, start, end, q[0]) && Open(types, q[0].pos)
    ensures Weight(dist, q) == Pow4(if q[0] in dist then dist[q[0]] else 0) + Weight(dist, q[1..])
  {
    assert forall m :: m in q ==> m == q[0] || m in q[1..];
  }

  /** The state MarkPath keeps while it looks at the in-edges of n: the
      first k have been looked at, and the pushed nodes are all nearer
      than n. */
  ghost predicate Expanding(types: seq<seq<char>>, dist: map<Node, int>, start: Vector, end: Vector, q: seq<Node>, done: set<Node>, onPath: set<Vector>, base: set<Vector>, n: Node, edges: seq<Edge>, k: int, q1: seq<Node>, pushed: seq<Node>)
  {
    MarkSound(types, dist, start, end, q, done, onPath, base) && MarkClosed(types, dist, start, end, q, done, {n})
    && Domain(types, dist) && Bounded(dist)
    && BackReach(types, dist, start, end, n) && n.pos != start && Open(types, n.pos) && n in dist
    && (forall e :: e in edges <==> InEdge(types, n, e))
    && (forall j | 0 <= j < |edges| :: edges[j].From in dist && edges[j].To == n)
    && 0 <= k <= |edges| && q == q1 + pushed && |pushed| <= k
    && (forall j | 0 <= j < |pushed| :: pushed[j] in dist && 0 <= dist[pushed[j]] < dist[n])
    && (forall j | 0 <= j < k && Tight(dist, edges[j]) :: edges[j].From in q)
  }

  lemma ExpandStart(types: seq<seq<char>>, dist: map<Node, int>, start: Vector, end: Vector, q: seq<Node>, done: set<Node>, onPath: set<Vector>, base: set<Vector>, n: Node, edges: seq<Edge>)
    requires MarkSound(types, dist, start, end, q, done, onPath, base) && MarkClosed(types, dist, start, end, q, done, {n})
    requires Domain(types, dist) && Bounded(dist)
    requires BackReach(types, dist, start, end, n) && n.pos != start && Open(types, n.pos)
    requires forall e :: e in edges <==> InEdge(types, n, e)
    ensures Expanding(types, dist, start, end, q, done, onPath, base, n, edges, 0, q, [])
  {
    forall j | 0 <= j < |edges|
      ensures edges[j].From in dist && edges[j].To == n
    {
      assert InEdge(types, n, edges[j]);
    }
    assert q == q + [];
  }

  /** Following a tight in-edge back queues and marks its source. */
  lemma ExpandPush(types: seq<seq<char>>, dist: map<Node, int>, start: Vector, end: Vector, q: seq<Node>, done: set<Node>, onPath: set<Vector>, base: set<Vector>, n: Node, edges: seq<Edge>, k: int, q1: seq<Node>, pushed: seq<Node>)
    requires Expanding(types, dist, start, end, q, done, onPath, base, n, edges, k, q1, pushed) && k < |edges|
    requires Tight(dist, edges[k])
    ensures Expanding(types, dist, start, end, q + [edges[k].From], done, onPath + {edges[k].From.pos}, base, n, edges, k + 1, q1, pushed + [edges[k].From])
  {
    var e := edges[k];
    assert InEdge(types, n, e) by {
      assert e in edges;
    }
    PushSound(types, dist, start, end, q, done, onPath, base, n, e);
    PushClosed(types, dist, start, end, q, done, {n}, e.From);
    PushSeen(dist, edges, q, k);
    PushNearer(dist, pushed, e.From, n, e.Cost);
    assert q + [e.From] == q1 + (pushed + [e.From]);
  }

  lemma PushSound(types: seq<seq<char>>, dist: map<Node, int>, start: Vector, end: Vector, q: seq<Node>, done: set<Node>, onPath: set<Vector>, base: set<Vector>, n: Node, e: Edge)
    requires MarkSound(types, dist, start, end, q, done, onPath, base)
    requires BackReach(types, dist, start, end, n) && n.pos != start && Open(types, n.pos)
    requires InEdge(types, n, e) && Tight(dist, e)
    ensures MarkSound(types, dist, start, end, q + [e.From], done, onPath + {e.From.pos}, base)
  {
    assert Open(types, e.From.pos);
    ChainSnoc(types, dist, start, end, n, e);
  }

  lemma PushClosed(types: seq<seq<char>>, dist: map<Node, int>, start: Vector, end: Vector, q: seq<Node>, done: set<Node>, skip: set<Node>, m: Node)
    requires MarkClosed(types, dist, start, end, q, done, skip)
    ensures MarkClosed(types, dist, start, end, q + [m], done, skip)
  {
    assert forall x :: x in q ==> x in q + [m];
  }

  lemma PushSeen(dist: map<Node, int>, edges: seq<Edge>, q: seq<Node>, k: int)
    requires 0 <= k < |edges|
    requires forall j | 0 <= j < k && Tight(dist, edges[j]) :: edges[j].From in q
    ensures forall j | 0 <= j < k + 1 && Tight(dist, edges[j]) :: edges[j].From in q + [edges[k].From]
  {
    assert forall x :: x in q ==> x in q + [edges[k].From];
  }

  lemma PushNearer(dist: map<Node, int>, pushed: seq<Node>, m: Node, n: Node, c: int)
    requires n in dist
    requires forall j | 0 <= j < |pushed| :: pushed[j] in dist && 0 <= dist[pushed[j]] < dist[n]
    requires m in dist && n in dist && 0 <= dist[m] && c >= 1 && dist[m] + c == dist[n]
    ensures forall j | 0 <= j < |pushed + [m]| :: (pushed + [m])[j] in dist && 0 <= dist[(pushed + [m])[j]] < dist[n]
  {
  }

  /** An edge that is not tight is passed over. */
  lemma ExpandSkip(types: seq<seq<char>>, dist: map<Node, int>, start: Vector, end: Vector, q: seq<Node>, done: set<Node>, onPath: set<Vector>, base: set<Vector>, n: Node, edges: seq<Edge>, k: int, q1: seq<Node>, pushed: seq<Node>)
    requires Expanding(types, dist, start, end, q, done, onPath, base, n, edges, k, q1, pushed) && k < |edges|
    requires !Tight(dist, edges[k])
    ensures Expanding(types, dist, start, end, q, done, onPath, base, n, edges, k + 1, q1, pushed)
  {
  }

  /** Once every in-edge of n has been looked at, n is closed. */
  /** The inner loop of MarkPath: queue and mark the source of every tight in-edge of n. */
  method Retrace(types: seq<seq<char>>, dist: map<Node, int>, start: Vector, end: Vector, q0: seq<Node>, ghost done: set<Node>, onPath0: set<Vector>, ghost base: set<Vector>, n: Node, edges: seq<Edge>)
    returns (q: seq<Node>, onPath: set<Vector>, ghost pushed: seq<Node>)
    requires Expanding(types, dist, start, end, q0, done, onPath0, base, n, edges, 0, q0, [])
    ensures Expanding(types, dist, start, end, q, done, onPath, base, n, edges, |edges|, q0, pushed)
  {
    q, onPath, pushed := q0, onPath0, [];
    for k := 0 to |edges|
      invariant Expanding(types, dist, start, end, q, done, onPath, base, n, edges, k, q0, pushed)
    {
      var e := edges[k];
      if dist[e.From] != MaxInt && dist[e.From] + e.Cost == dist[e.To] {
        ExpandPush(types, dist, start, end, q, done, onPath, base, n, edges, k, q0, pushed);
        onPath := onPath + {e.From.pos};
        q, pushed := q + [e.From], pushed + [e.From];
      } else {
        ExpandSkip(types, dist, start, end, q, done, onPath, base, n, edges, k, q0, pushed);
      }
    }
  }

  lemma MarkSettle(types: seq<seq<char>>, dist: map<Node, int>, start: Vector, end: Vector, q: seq<Node>, done: set<Node>, onPath: set<Vector>, base: set<Vector>, n: Node, edges: seq<Edge>, q1: seq<Node>, pushed: seq<Node>)
    requires Expanding(types, dist, start, end, q, done, onPath, base, n, edges, |edges|, q1, pushed)
    requires |edges| <= 3
    ensures MarkSound(types, dist, start, end, q, done, onPath, base) && MarkClosed(types, dist, start, end, q, done, {})
    ensures q == q1 + pushed && |pushed| <= 3
    ensures forall j | 0 <= j < |pushed| :: pushed[j] in dist && 0 <= dist[pushed[j]] < dist[n]
  {
    forall m, c | n in done && n.pos != start && InEdge(types, n, Edge(m, n, c)) && Tight(dist, Edge(m, n, c))
      ensures m in done || m in q
    {
      var j :| 0 <= j < |edges| && edges[j] == Edge(m, n, c);
    }
  }

  /** With the queue empty, the marked cells are exactly the earlier ones
      and those of nodes reached backwards. */
  /** One round of MarkPath's loop: pop the head of the queue and, unless it is
      on the start cell, queue the sources of its tight in-edges. */
  method MarkStep(types: seq<seq<char>>, dist: map<Node, int>, start: Vector, end: Vector, q0: seq<Node>, ghost done0: set<Node>, onPath0: set<Vector>, ghost base: set<Vector>)
    returns (q: seq<Node>, onPath: set<Vector>, ghost done: set<Node>)
    requires Enclosed(types) && Domain(types, dist) && Bounded(dist) && q0 != []
    requires MarkSound(types, dist, start, end, q0, done0, onPath0, base) && MarkClosed(types, dist, start, end, q0, done0, {})
    ensures MarkSound(types, dist, start, end, q, done, onPath, base) && MarkClosed(types, dist, start, end, q, done, {})
    ensures Weight(dist, q) < Weight(dist, q0)
  {
    var n := q0[0];
    MarkPop(types, dist, start, end, q0, done0, onPath0, base);
    q, done, onPath := q0[1..], done0 + {n}, onPath0;
    if n.pos == start {
      return;
    }
    var edges := InEdges(types, n);
    ghost var q1 := q;
    ghost var pushed;
    ExpandStart(types, dist, start, end, q, done, onPath, base, n, edges);
    q, onPath, pushed := Retrace(types, dist, start, end, q, done, onPath, base, n, edges);
    MarkSettle(types, dist, start, end, q, done, onPath, base, n, edges, q1, pushed);
    WeightAppend(dist, q1, pushed);
    SmallPushes(dist, pushed, dist[n]);
  }

  /** MarkPath's search on values: the cells of onPath are those of base and
      the cells of the nodes that lie on a cheapest path back from End. */
  method MarkAll(types: seq<seq<char>>, dist: map<Node, int>, start: Vector, end: Vector, base: set<Vector>)
    returns (onPath: set<Vector>)
    requires Enclosed(types) && Domain(types, dist) && Bounded(dist) && Open(types, end)
    ensures forall v :: v in onPath <==> v in base || exists d: Dir :: BackReach(types, dist, start, end, Node(v, d))
  {
    onPath := base + {end};
    var q := [Node(end, Up), Node(end, Right), Node(end, Down), Node(end, Left)];
    ghost var done: set<Node> := {};
    MarkInit(types, dist, start, end, base);
    while q != []
      invariant MarkSound(types, dist, start, end, q, done, onPath, base)
      invariant MarkClosed(types, dist, start, end, q, done, {})
      decreases Weight(dist, q)
    {
      q, onPath, done := MarkStep(types, dist, start, end, q, done, onPath, base);
    }
    MarkDone(types, dist, start, end, done, onPath, base);
  }

  lemma MarkDone(types: seq<seq<char>>, dist: map<Node, int>, start: Vector, end: Vector, done: set<Node>, onPath: set<Vector>, base: set<Vector>)
    requires MarkSound(types, dist, start, end, [], done, onPath, base) && MarkClosed(types, dist, start, end, [], done, {})
    ensures forall v :: v in onPath <==> v in base || exists d: Dir :: BackReach(types, dist, start, end, Node(v, d))
  {
    forall v, d: Dir | BackReach(types, dist, start, end, Node(v, d))
      ensures v in onPath
    {
      var c :| |c| > 0 && IsChain(types, dist, start, end, c) && c[|c| - 1] == Node(v, d);
      ChainDone(types, dist, start, end, done, c);
    }
  }

  function Pow4(x: int): (r: nat)
    ensures r >= 1
    decreases x
  {
    if x <= 0 then 1 else 4 * Pow4(x - 1)
  }

  lemma {:induction false} Pow4Mono(a: int, b: int)
    requires a <= b
    ensures Pow4(a) <= Pow4(b)
    decreases b - a
  {
    if a < b {
      Pow4Mono(a, b - 1);
    }
  }

  /** Each queued node weighs 4 to the power of its distance; a node
      replaced by at most three strictly nearer ones lowers the weight. */
  ghost function Weight(dist: map<Node, int>, q: seq<Node>): nat
  {
    if q == [] then 0 else Pow4(if q[0] in dist then dist[q[0]] else 0) + Weight(dist, q[1..])
  }

  lemma {:induction false} WeightAppend(dist: map<Node, int>, a: seq<Node>, b: seq<Node>)
    ensures Weight(dist, a + b) == Weight(dist, a) + Weight(dist, b)
  {
    if a != [] {
      WeightAppend(dist, a[1..], b);
      var ab := a + b;
      assert ab[0] == a[0] && ab[1..] == a[1..] + b;
      assert Weight(dist, ab) == Pow4(if a[0] in dist then dist[a[0]] else 0) + Weight(dist, ab[1..]);
    } else {
      assert a + b == b;
    }
  }

  lemma SmallPushes(dist: map<Node, int>, s: seq<Node>, d: int)
    requires |s| <= 3
    requires forall j | 0 <= j < |s| :: s[j] in dist && 0 <= dist[s[j]] < d
    ensures Weight(dist, s) < Pow4(d)
  {
    if s != [] {
      var p := Pow4(d - 1);
      forall j | 0 <= j < |s|
        ensures Pow4(dist[s[j]]) <= p
      {
        Pow4Mono(dist[s[j]], d - 1);
      }
      assert 0 <= dist[s[0]] < d;
      assert Pow4(d) == 4 * p;
      var w0 := Pow4(dist[s[0]]);
      var t := s[1..];
      if t == [] {
        assert Weight(dist, s) == w0;
      } else {
        var u := t[1..];
        assert t[0] == s[1];
        assert Weight(dist, t) == Pow4(dist[s[1]]) + Weight(dist, u);
        if u == [] {
          assert Weight(dist, s) == w0 + Pow4(dist[s[1]]);
        } else {
          assert u[0] == s[2] && u[1..] == [];
          assert Weight(dist, u) == Pow4(dist[s[2]]);
          assert Weight(dist, s) == w0 + Pow4(dist[s[1]]) + Pow4(dist[s[2]]);
        }
      }
    }
  }

  class Maze {
    const Types: seq<seq<char>>
    const Start: Vector
    const End: Vector
    /** Node.Dist of every node of every cell. */
    var Dist: map<Node, int>
    /** The cells whose Cell.OnPath is set. */
    var OnPath: set<Vector>

    ghost predicate Valid()
      reads this
    {
      Domain(Types, Dist) && Bounded(Dist) && Reached(Types, Node(Start, Right), Dist)
    }

    /** Every node still at MaxInt, as NewCell leaves it. */
    ghost predicate Pristine()
      reads this
    {
      forall n | n in Dist :: Dist[n] == MaxInt
    }

    /** A maze read from its text: every cell gets the nodes of NewCell. */
    constructor(types: seq<seq<char>>, start: Vector, end: Vector)
      ensures Types == types && Start == start && End == end
      ensures Valid() && Pristine() && OnPath == {}
    {
      Types, Start, End := types, start, end;
      var dist: map<Node, int> := map[];
      for y := 0 to |types|
        invariant forall n: Node :: n in dist <==> InGrid(types, n.pos) && n.pos.y < y
        invariant forall n | n in dist :: dist[n] == MaxInt
      {
        for x := 0 to |types[y]|
          invariant forall n: Node :: n in dist <==> InGrid(types, n.pos) && (n.pos.y < y || (n.pos.y == y && n.pos.x < x))
          invariant forall n | n in dist :: dist[n] == MaxInt
        {
          var cell := NewCell(Vector(x, y));
          forall n: Node | n.pos == Vector(x, y)
            ensures n in cell
          {
            assert n == Node(Vector(x, y), n.dir);
          }
          dist := dist + cell;
        }
      }
      Dist, OnPath := dist, {};
    }

    /** Dijkstra's search from the start facing right; the first node of
        the end cell popped gives the answer. */
    method Solve() returns (r: int)
      requires Valid() && Pristine() && Enclosed(Types) && Open(Types, Start)
      modifies this
      ensures Valid() && OnPath == old(OnPath)
      ensures Node(Start, Right) in Dist && Dist[Node(Start, Right)] == 0
      ensures 0 <= r <= MaxInt
      ensures r < MaxInt ==> exists d: Dir :: Walk(Types, Node(Start, Right), Node(End, d), r)
      ensures forall w | IsWalk(Types, w, Node(Start, Right)) && Last(w, Node(Start, Right)).pos == End :: r <= Cost(w)
    {
      var s0 := Node(Start, Right);
      var dist := Dist[s0 := 0];
      var pq := [s0];
      WalkZero(Types, s0);
      assert Searching(Types, s0, End, dist, pq, {});
      TotalNonneg(dist);
      while pq != []
        invariant Searching(Types, s0, End, dist, pq, {}) && Total(dist) >= 0
        invariant unchanged(this)
        decreases Total(dist), |pq|
      {
        LeastExists(dist, pq);
        var i: nat :| Least(dist, pq, i);
        var n := pq[i];
        if n.pos == End {
          PopOptimal(Types, s0, End, dist, pq, i);
          assert n == Node(End, n.dir);
          Dist := dist;
          assert Domain(Types, Dist) && Bounded(Dist);
          assert Reached(Types, Node(Start, Right), Dist);
          return dist[n];
        }
        Pop(Types, s0, End, dist, pq, i);
        pq := Remove(pq, i);
        var edges := OutEdges(Types, n);
        RelaxStart(Types, s0, End, dist, pq, n, edges);
        ghost var dist0, pq0 := dist, pq;
        dist, pq := Expand(Types, s0, End, dist, pq, n, edges);
        Settle(Types, s0, End, dist, pq, n, edges, dist0, pq0);
      }
      Exhausted(Types, s0, End, dist);
      Dist := dist;
      assert Domain(Types, Dist) && Bounded(Dist);
      assert Reached(Types, Node(Start, Right), Dist);
      return MaxInt;
    }

    /** Marks the cells of every cheapest path: from the four end nodes,
        step back over tight in-edges, never past the start cell. */
    method MarkPath()
      requires Valid() && Enclosed(Types) && Open(Types, End)
      modifies this
      ensures Dist == old(Dist) && Valid()
      ensures forall v :: v in OnPath <==> v in old(OnPath) || exists d: Dir :: BackReach(Types, Dist, Start, End, Node(v, d))
    {
      var onPath := MarkAll(Types, Dist, Start, End, OnPath);
      OnPath := onPath;
      assert Domain(Types, Dist) && Bounded(Dist);
      assert Reached(Types, Node(Start, Right), Dist);
    }
  }
}
