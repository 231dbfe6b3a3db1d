/** Day 23, part 1 (23-1/main.go): a graph of named computers, stored as an
    adjacency matrix with a degree per node, and a search for the cliques of
    a given size whose ids increase. Go's Assert stops the program; here it
    is the Fault result and the graph is left as it was. */
module Cliques {

  datatype Result<T> = Ok(value: T) | Fault

  /** The number of true entries in a matrix row. */
  function RowCount(row: seq<bool>): (n: nat)
    ensures n <= |row|
  {
    if row == [] then 0 else RowCount(row[..|row| - 1]) + (if row[|row| - 1] then 1 else 0)
  }

  /** A square matrix over the ids 0 .. |edges| - 1. */
  predicate Square(edges: seq<seq<bool>>)
  {
    forall i :: 0 <= i < |edges| ==> |edges[i]| == |edges|
  }

  /** Every id in c names a row of the matrix. */
  predicate IdsIn(edges: seq<seq<bool>>, c: seq<nat>)
  {
    forall k :: 0 <= k < |c| ==> c[k] < |edges|
  }

  /** Every two members of c (earlier one first) are joined by an edge. */
  predicate CliqueSeq(edges: seq<seq<bool>>, c: seq<nat>)
    requires Square(edges) && IdsIn(edges, c)
  {
    forall a, b :: 0 <= a < b < |c| ==> edges[c[a]][c[b]]
  }

  predicate Increasing(s: seq<nat>)
  {
    forall a, b :: 0 <= a < b < |s| ==> s[a] < s[b]
  }

  /** Setting one entry of a row raises its count by at most one. */
  lemma {:induction false} RowCountSet(row: seq<bool>, j: nat)
    requires j < |row|
    ensures RowCount(row[j := true]) <= RowCount(row) + 1
    ensures row[j] ==> RowCount(row[j := true]) == RowCount(row)
    decreases |row|
  {
    var last := |row| - 1;
    if j < last {
      RowCountSet(row[..last], j);
      assert row[j := true][..last] == row[..last][j := true];
    } else {
      assert row[j := true][..last] == row[..last];
    }
  }

  lemma {:induction false} RowCountFalse(n: nat)
    ensures RowCount(seq(n, _ => false)) == 0
    decreases n
  {
    if n > 0 {
      assert seq(n, _ => false)[..n - 1] == seq(n - 1, _ => false);
      RowCountFalse(n - 1);
    }
  }

  class Graph {
    var Edges: seq<seq<bool>>
    var Degrees: seq<int>
    var NodeNames: map<nat, string>
    var NodeIDs: map<string, nat>

    /** Ids are 0 .. n - 1 and the two name maps are inverse to each other.
        Before InitEdges the matrix is nil (empty); after it, the matrix is
        square over all ids, symmetric, and each degree is at least the
        number of neighbours. */
    ghost predicate Valid()
      reads this
    {
      && (forall id: int :: id in NodeNames <==> 0 <= id < |NodeNames|)
      && (forall id :: id in NodeNames ==> NodeNames[id] in NodeIDs && NodeIDs[NodeNames[id]] == id)
      && (forall name :: name in NodeIDs ==> NodeIDs[name] in NodeNames && NodeNames[NodeIDs[name]] == name)
      && (if Edges == [] then Degrees == []
          else
            && |Edges| == |Degrees| == |NodeNames|
            && Square(Edges)
            && (forall i, j :: 0 <= i < |Edges| && 0 <= j < |Edges| ==> Edges[i][j] == Edges[j][i])
            && forall i :: 0 <= i < |Edges| ==> Degrees[i] >= RowCount(Edges[i]))
    }

    /** NewGraph: id 0 is reserved for the name "INVALID". */
    constructor ()
      ensures Valid()
      ensures NodeNames == map[0 := "INVALID"] && NodeIDs == map["INVALID" := 0]
      ensures Edges == [] && Degrees == []
    {
      Edges := [];
      Degrees := [];
      NodeNames := map[];
      NodeIDs := map[];
      new;
      assert |NodeNames| == 0;
      var _ := RegisterNode("INVALID");
    }

    method RegisterNode(name: string) returns (r: Result<()>)
      requires Valid()
      modifies this
      ensures Valid() && Edges == old(Edges) && Degrees == old(Degrees)
      ensures old(Edges) != [] ==> (r == Fault && NodeNames == old(NodeNames) && NodeIDs == old(NodeIDs))
      ensures old(Edges) == [] ==>
        (r == Ok(()) && name in NodeIDs && NodeNames.Keys == old(NodeNames).Keys + {NodeIDs[name]})
    {
      if Edges != [] {
        return Fault;
      }
      var id := GetNodeID(name);
      r := Ok(());
    }

    /** A known name keeps its id; a new name gets the next id, n, but only
        before InitEdges. */
    method GetNodeID(name: string) returns (r: Result<nat>)
      requires Valid()
      modifies this
      ensures Valid() && Edges == old(Edges) && Degrees == old(Degrees)
      ensures name in old(NodeIDs) ==>
        (r == Ok(old(NodeIDs)[name]) && NodeNames == old(NodeNames) && NodeIDs == old(NodeIDs))
      ensures name !in old(NodeIDs) && old(Edges) != [] ==>
        (r == Fault && NodeNames == old(NodeNames) && NodeIDs == old(NodeIDs))
      ensures name !in old(NodeIDs) && old(Edges) == [] ==>
        (&& r == Ok(|old(NodeNames)|)
         && NodeNames == old(NodeNames)[|old(NodeNames)| := name]
         && NodeIDs == old(NodeIDs)[name := |old(NodeNames)|])
    {
      if name in NodeIDs {
        return Ok(NodeIDs[name]);
      }
      if Edges != [] {
        return Fault;
      }
      var id := |NodeNames|;
      assert id !in NodeNames;
      NodeNames := NodeNames[id := name];
      NodeIDs := NodeIDs[name := id];
      r := Ok(id);
    }

    /** An n-by-n matrix with no edges and every degree zero. */
    method InitEdges() returns (r: Result<()>)
      requires Valid()
      modifies this
      ensures Valid() && NodeNames == old(NodeNames) && NodeIDs == old(NodeIDs)
      ensures |old(NodeNames)| == 0 ==> (r == Fault && Edges == old(Edges) && Degrees == old(Degrees))
      ensures |old(NodeNames)| > 0 ==>
        (&& r == Ok(())
         && |Edges| == |Degrees| == |NodeNames|
         && (forall i :: 0 <= i < |Edges| ==> Edges[i] == seq(|NodeNames|, _ => false))
         && (forall i :: 0 <= i < |Degrees| ==> Degrees[i] == 0))
    {
      if |NodeNames| == 0 {
        return Fault;
      }
      var numNodes := |NodeNames|;
      RowCountFalse(numNodes);
      Edges := seq(numNodes, _ => seq(numNodes, _ => false));
      Degrees := seq(numNodes, _ => 0);
      r := Ok(());
    }

    /** Joins from and to in both directions and counts the edge in both
        degrees (twice in one degree for a loop). */
    method AddEdge(from: int, to: int) returns (r: Result<()>)
      requires Valid()
      modifies this
      ensures Valid() && NodeNames == old(NodeNames) && NodeIDs == old(NodeIDs)
      ensures (old(Edges) == [] || !(0 <= from < |old(Edges)|) || !(0 <= to < |old(Edges)|)) ==>
        (r == Fault && Edges == old(Edges) && Degrees == old(Degrees))
      ensures old(Edges) != [] && 0 <= from < |old(Edges)| && 0 <= to < |old(Edges)| ==>
        (&& r == Ok(())
         && Edges == Joined(old(Edges), from, to)
         && Degrees == Counted(old(Degrees), from, to))
    {
      if Edges == [] || !(0 <= from < |Edges|) || !(0 <= to < |Edges|) {
        return Fault;
      }
      JoinedKeepsGraph(Edges, Degrees, from, to);
      Edges := Joined(Edges, from, to);
      Degrees := Counted(Degrees, from, to);
      r := Ok(());
    }

    /** Whether the first `size` ids of the working array form a clique. */
    method IsClique(size: int, working: array<nat>) returns (b: bool)
      requires Square(Edges)
      requires 0 <= size <= working.Length && IdsIn(Edges, working[..size])
      ensures b <==> CliqueSeq(Edges, working[..size])
    {
      for i := 0 to size
        invariant forall a, c :: 0 <= a < i && a < c < size ==> Edges[working[a]][working[c]]
      {
        for j := i + 1 to size
          invariant forall c :: i < c < j ==> Edges[working[i]][working[c]]
        {
          if !Edges[working[i]][working[j]] {
            assert working[..size][i] == working[i] && working[..size][j] == working[j];
            return false;
          }
        }
      }
      return true;
    }

    /** The cliques of `size` nodes that extend the first currSize - 1
        entries of working with increasing ids from startID on, each node
        added having degree at least size - 1: all of them, and each once. */
    method FindCliquesInner(startID: nat, currSize: nat, size: nat, working: array<nat>)
      returns (cliques: seq<seq<nat>>)
      requires Valid() && Edges != []
      requires 1 <= currSize <= size == working.Length
      requires IdsIn(Edges, working[..])
      modifies working
      ensures IdsIn(Edges, working[..])
      ensures working[..currSize - 1] == old(working[..currSize - 1])
      ensures forall c :: c in cliques ==> Found(c, old(working[..currSize - 1]), startID, size)
      ensures forall c :: Found(c, old(working[..currSize - 1]), startID, size) ==> c in cliques
      ensures Distinct(cliques)
      decreases |Edges| - startID, 1
    {
      ghost var prefix := working[..currSize - 1];
      cliques := [];
      var numNodes := |NodeNames|;
      var i := startID;
      while i < numNodes
        invariant startID <= i
        invariant IdsIn(Edges, working[..])
        invariant working[..currSize - 1] == prefix
        invariant forall c :: c in cliques ==> Found(c, prefix, startID, size) && c[currSize - 1] < i
        invariant forall c :: Found(c, prefix, startID, size) && c[currSize - 1] < i ==> c in cliques
        invariant Distinct(cliques)
      {
        var found := CliquesThrough(i, currSize, size, working, prefix, startID);
        DistinctAppend(cliques, found);
        cliques := cliques + found;
        i := i + 1;
      }
    }

    /** One round of FindCliquesInner's loop: put i next in working and
        collect the cliques below the prefix whose next id is i, each
        once. */
    method CliquesThrough(i: nat, currSize: nat, size: nat, working: array<nat>,
                          ghost prefix: seq<nat>, ghost startID: nat)
      returns (found: seq<seq<nat>>)
      requires Valid() && Edges != []
      requires 1 <= currSize <= size == working.Length && startID <= i < |Edges|
      requires IdsIn(Edges, working[..]) && working[..currSize - 1] == prefix
      modifies working
      ensures IdsIn(Edges, working[..]) && working[..currSize - 1] == prefix
      ensures forall c :: c in found ==> Found(c, prefix, startID, size) && c[currSize - 1] == i
      ensures forall c :: Found(c, prefix, startID, size) && c[currSize - 1] == i ==> c in found
      ensures Distinct(found)
      decreases |Edges| - i, 0
    {
      found := [];
      if Degrees[i] >= size - 1 {
        ghost var before := working[..];
        working[currSize - 1] := i;
        assert working[..currSize - 1] == before[..currSize - 1];
        assert working[..currSize] == prefix + [i];
        assert IdsIn(Edges, working[..currSize]);
        var isClique := IsClique(currSize, working);
        if !isClique {
          NoneThrough(Edges, Degrees, prefix, i, startID, size);
        } else if currSize == size {
          assert working[..] == working[..currSize];
          OnlyThrough(Edges, Degrees, prefix, i, startID, size);
          found := [working[..]];
        } else {
          ghost var here := working[..currSize];
          found := FindCliquesInner(i + 1, currSize + 1, size, working);
          assert here == prefix + [i];
          ThroughFound(Edges, Degrees, found, prefix, i, startID, size);
          assert working[..currSize - 1] == here[..currSize - 1];
        }
      } else {
        NoneThrough(Edges, Degrees, prefix, i, startID, size);
      }
    }

    /** c has `size` ids in range, begins with the prefix, continues with
        increasing ids from startID on, each of degree at least size - 1,
        and is a clique. */
    ghost predicate Found(c: seq<nat>, prefix: seq<nat>, startID: nat, size: nat)
      reads this
      requires Valid() && Edges != []
    {
      FoundIn(Edges, Degrees, c, prefix, startID, size)
    }

    /** FindTriangleCliques: every triangle with increasing ids from 1 and
        degrees of at least 2, each once, and nothing else. */
    method FindTriangleCliques() returns (cliques: seq<seq<nat>>)
      requires Valid() && Edges != []
      ensures forall c :: c in cliques <==> Triangle(Edges, Degrees, c)
      ensures Distinct(cliques)
    {
      var working := new nat[3](_ => 0);
      assert working[..0] == [];
      cliques := FindCliquesInner(1, 1, 3, working);
      forall c
        ensures Triangle(Edges, Degrees, c) <==> FoundIn(Edges, Degrees, c, [], 1, 3)
      {
        TriangleFound(Edges, Degrees, c);
      }
    }
  }

  /** Three ids from 1 up, increasing, pairwise joined, each of degree at
      least 2. */
  predicate Triangle(edges: seq<seq<bool>>, degrees: seq<int>, c: seq<nat>)
    requires |degrees| == |edges|
  {
    && |c| == 3 && 1 <= c[0] < c[1] < c[2] < |edges|
    && |edges[c[0]]| == |edges[c[1]]| == |edges|
    && edges[c[0]][c[1]] && edges[c[0]][c[2]] && edges[c[1]][c[2]]
    && degrees[c[0]] >= 2 && degrees[c[1]] >= 2 && degrees[c[2]] >= 2
  }

  /** The triangles are exactly the cliques of three found below the empty
      prefix from id 1. */
  lemma TriangleFound(edges: seq<seq<bool>>, degrees: seq<int>, c: seq<nat>)
    requires Square(edges) && |degrees| == |edges|
    ensures Triangle(edges, degrees, c) <==> FoundIn(edges, degrees, c, [], 1, 3)
  {
    if |c| == 3 {
      assert c[0..] == c;
      if Triangle(edges, degrees, c) {
        assert forall a, b :: 0 <= a < b < 3 ==> edges[c[a]][c[b]];
      }
      if FoundIn(edges, degrees, c, [], 1, 3) {
        assert c[0] < c[1] < c[2];
      }
    }
  }

  /** The matrix after AddEdge(from, to). */
  function Joined(edges: seq<seq<bool>>, from: nat, to: nat): seq<seq<bool>>
    requires Square(edges) && from < |edges| && to < |edges|
  {
    var e := edges[from := edges[from][to := true]];
    e[to := e[to][from := true]]
  }

  /** The degrees after AddEdge(from, to). */
  function Counted(degrees: seq<int>, from: nat, to: nat): seq<int>
    requires from < |degrees| && to < |degrees|
  {
    var d := degrees[from := degrees[from] + 1];
    d[to := d[to] + 1]
  }

  /** AddEdge adds exactly the edge between from and to, in both directions,
      raises the two degrees by one each, and keeps the matrix square and
      symmetric with every degree at least the number of neighbours. */
  lemma JoinedKeepsGraph(edges: seq<seq<bool>>, degrees: seq<int>, from: nat, to: nat)
    requires Square(edges) && |degrees| == |edges| && from < |edges| && to < |edges|
    requires forall i, j :: 0 <= i < |edges| && 0 <= j < |edges| ==> edges[i][j] == edges[j][i]
    requires forall i :: 0 <= i < |edges| ==> degrees[i] >= RowCount(edges[i])
    ensures var e, d := Joined(edges, from, to), Counted(degrees, from, to);
      && |e| == |edges| && Square(e) && |d| == |degrees|
      && (forall i, j :: 0 <= i < |e| && 0 <= j < |e| ==>
            e[i][j] == (edges[i][j] || (i == from && j == to) || (i == to && j == from)))
      && (forall i, j :: 0 <= i < |e| && 0 <= j < |e| ==> e[i][j] == e[j][i])
      && (forall k :: 0 <= k < |d| ==>
            d[k] == degrees[k] + (if k == from then 1 else 0) + (if k == to then 1 else 0))
      && (forall i :: 0 <= i < |e| ==> d[i] >= RowCount(e[i]))
  {
    var e1 := edges[from := edges[from][to := true]];
    RowCountSet(edges[from], to);
    RowCountSet(e1[to], from);
    var e := Joined(edges, from, to);
    if from == to {
      assert e[from] == edges[from][to := true];
    } else {
      assert e[from] == edges[from][to := true];
      assert e[to] == edges[to][from := true];
    }
  }

  ghost predicate FoundIn(edges: seq<seq<bool>>, degrees: seq<int>, c: seq<nat>, prefix: seq<nat>,
                          startID: nat, size: nat)
    requires Square(edges) && |degrees| == |edges|
  {
    && |c| == size && |prefix| < size
    && IdsIn(edges, c)
    && c[..|prefix|] == prefix
    && Increasing(c[|prefix|..]) && c[|prefix|] >= startID
    && (forall k :: |prefix| <= k < size ==> degrees[c[k]] >= size - 1)
    && CliqueSeq(edges, c)
  }

  /** No clique is listed twice. */
  predicate Distinct(s: seq<seq<nat>>)
  {
    forall a, b :: 0 <= a < b < |s| ==> s[a] != s[b]
  }

  /** Two lists without repeats and without a common entry make one
      list without repeats. */
  lemma DistinctAppend(s: seq<seq<nat>>, t: seq<seq<nat>>)
    requires Distinct(s) && Distinct(t) && forall x :: x in s ==> x !in t
    ensures Distinct(s + t)
  {
    forall a, b | 0 <= a < b < |s + t|
      ensures (s + t)[a] != (s + t)[b]
    {
      if b >= |s| && a < |s| {
        assert (s + t)[a] in s && (s + t)[b] in t;
      }
    }
  }

  /** When i has too small a degree, or does not close a clique with the
      prefix, no clique below the prefix continues with i. */
  lemma NoneThrough(edges: seq<seq<bool>>, degrees: seq<int>, prefix: seq<nat>, i: nat,
                    startID: nat, size: nat)
    requires Square(edges) && |degrees| == |edges| && i < |edges| && IdsIn(edges, prefix + [i])
    requires !(degrees[i] >= size - 1 && CliqueSeq(edges, prefix + [i]))
    ensures forall c :: FoundIn(edges, degrees, c, prefix, startID, size) ==> c[|prefix|] != i
  {
    forall c | FoundIn(edges, degrees, c, prefix, startID, size)
      ensures c[|prefix|] != i
    {
      FoundHead(edges, degrees, c, prefix, startID, size);
    }
  }

  /** With one place left, the only clique below the prefix that continues
      with i is prefix + [i], when it is one. */
  lemma OnlyThrough(edges: seq<seq<bool>>, degrees: seq<int>, prefix: seq<nat>, i: nat,
                    startID: nat, size: nat)
    requires Square(edges) && |degrees| == |edges| && startID <= i < |edges| && IdsIn(edges, prefix + [i])
    requires |prefix| + 1 == size && degrees[i] >= size - 1 && CliqueSeq(edges, prefix + [i])
    ensures FoundIn(edges, degrees, prefix + [i], prefix, startID, size)
    ensures forall c :: FoundIn(edges, degrees, c, prefix, startID, size) && c[|prefix|] == i ==> c == prefix + [i]
  {
    var c := prefix + [i];
    assert c[..|prefix|] == prefix && c[|prefix|..] == [i];
    forall d | FoundIn(edges, degrees, d, prefix, startID, size) && d[|prefix|] == i
      ensures d == prefix + [i]
    {
      FoundHead(edges, degrees, d, prefix, startID, size);
      assert d == d[..|prefix| + 1];
    }
  }

  /** The first |prefix| + 1 ids of a clique found below prefix: the
      prefix and one more id, of enough degree, all joined. */
  lemma FoundHead(edges: seq<seq<bool>>, degrees: seq<int>, c: seq<nat>, prefix: seq<nat>,
                  startID: nat, size: nat)
    requires Square(edges) && |degrees| == |edges|
    requires FoundIn(edges, degrees, c, prefix, startID, size)
    ensures c[..|prefix| + 1] == prefix + [c[|prefix|]]
    ensures IdsIn(edges, c[..|prefix| + 1]) && CliqueSeq(edges, c[..|prefix| + 1])
    ensures degrees[c[|prefix|]] >= size - 1
  {
    var n := |prefix|;
    assert c[..n + 1] == c[..n] + [c[n]];
  }

  /** The cliques below prefix + [i] from i + 1 on are exactly the cliques
      below prefix from startID on whose next id is i. */
  lemma ThroughFound(edges: seq<seq<bool>>, degrees: seq<int>, found: seq<seq<nat>>, prefix: seq<nat>,
                     i: nat, startID: nat, size: nat)
    requires Square(edges) && |degrees| == |edges| && |prefix| + 1 < size
    requires startID <= i < |edges| && degrees[i] >= size - 1
    requires forall c :: c in found ==> FoundIn(edges, degrees, c, prefix + [i], i + 1, size)
    requires forall c :: FoundIn(edges, degrees, c, prefix + [i], i + 1, size) ==> c in found
    ensures forall c :: c in found ==> FoundIn(edges, degrees, c, prefix, startID, size) && c[|prefix|] == i
    ensures forall c :: FoundIn(edges, degrees, c, prefix, startID, size) && c[|prefix|] == i ==> c in found
  {
    forall c | c in found
      ensures FoundIn(edges, degrees, c, prefix, startID, size) && c[|prefix|] == i
    {
      ExtendFound(edges, degrees, c, prefix, i, startID, size);
    }
    forall c | FoundIn(edges, degrees, c, prefix, startID, size) && c[|prefix|] == i
      ensures c in found
    {
      NarrowFound(edges, degrees, c, prefix, i, startID, size);
    }
  }

  lemma NarrowFound(edges: seq<seq<bool>>, degrees: seq<int>, c: seq<nat>, prefix: seq<nat>,
                    i: nat, startID: nat, size: nat)
    requires Square(edges) && |degrees| == |edges| && |prefix| + 1 < size
    requires FoundIn(edges, degrees, c, prefix, startID, size) && c[|prefix|] == i
    ensures FoundIn(edges, degrees, c, prefix + [i], i + 1, size)
  {
    var n := |prefix|;
    assert c[..n + 1] == c[..n] + [c[n]];
    assert c[n..][0] == i && c[n..][1] == c[n + 1];
    var tail := c[n + 1..];
    forall a, b | 0 <= a < b < |tail|
      ensures tail[a] < tail[b]
    {
      assert tail[a] == c[n..][a + 1] && tail[b] == c[n..][b + 1];
    }
  }

  /** A result found below prefix + [i] (ids after i) is found below prefix
      from any startID <= i. */
  lemma ExtendFound(edges: seq<seq<bool>>, degrees: seq<int>, c: seq<nat>, prefix: seq<nat>,
                    i: nat, startID: nat, size: nat)
    requires Square(edges) && |degrees| == |edges|
    requires startID <= i < |edges| && degrees[i] >= size - 1
    requires FoundIn(edges, degrees, c, prefix + [i], i + 1, size)
    ensures FoundIn(edges, degrees, c, prefix, startID, size)
  {
    var n := |prefix|;
    assert c[..n] == (prefix + [i])[..n] == prefix;
    assert c[n] == i;
    var tail := c[n..];
    forall a, b | 0 <= a < b < |tail|
      ensures tail[a] < tail[b]
    {
      if a > 0 {
        assert tail[a] == c[n + 1..][a - 1] && tail[b] == c[n + 1..][b - 1];
      } else {
        assert tail[b] == c[n + 1..][b - 1];
      }
    }
  }
}
