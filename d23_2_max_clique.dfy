/** Day 23, part 2 (23-2/main.go): the largest clique. The graph type and its
    methods are the same as in part 1 and come from the Cliques module; the
    search, a method of the graph in the source, takes the graph as its
    first parameter here. */
module MaxClique {
  import opened Cliques

  /** c extends the prefix with at least one more id, the new ids
      increasing from startID and all in range. */
  ghost predicate Extends(edges: seq<seq<bool>>, c: seq<nat>, prefix: seq<nat>, startID: nat)
  {
    && |c| > |prefix|
    && c[..|prefix|] == prefix
    && Increasing(c[|prefix|..]) && c[|prefix|] >= startID
    && IdsIn(edges, c)
  }

  /** The largest clique extending the first currSize - 1 entries of working
      with increasing ids from startID on; empty when there is none. It is at
      least as large as every such clique. */
  method FindMaxCliqueInner(g: Graph, startID: nat, currSize: nat, working: array<nat>)
    returns (maxClique: seq<nat>)
    requires Square(g.Edges) && |g.NodeNames| == |g.Edges|
    requires 1 <= currSize <= startID <= |g.Edges| && working.Length == |g.Edges|
    requires IdsIn(g.Edges, working[..])
    modifies working
    ensures IdsIn(g.Edges, working[..])
    ensures working[..currSize - 1] == old(working[..currSize - 1])
    ensures maxClique == [] || (Extends(g.Edges, maxClique, old(working[..currSize - 1]), startID)
                                && CliqueSeq(g.Edges, maxClique))
    ensures forall c :: Extends(g.Edges, c, old(working[..currSize - 1]), startID) && CliqueSeq(g.Edges, c)
                        ==> |c| <= |maxClique|
    decreases |g.Edges| - startID
  {
    ghost var prefix := working[..currSize - 1];
    maxClique := [];
    var numNodes := |g.NodeNames|;
    var i := startID;
    while i < numNodes
      invariant IdsIn(g.Edges, working[..])
      invariant working[..currSize - 1] == prefix
      invariant maxClique == [] || (Extends(g.Edges, maxClique, prefix, startID) && CliqueSeq(g.Edges, maxClique))
      invariant forall c :: Extends(g.Edges, c, prefix, startID) && CliqueSeq(g.Edges, c) && c[currSize - 1] < i
                           ==> |c| <= |maxClique|
    {
      ghost var before := working[..];
      working[currSize - 1] := i;
      assert working[..currSize - 1] == before[..currSize - 1];
      ghost var here := working[..currSize];
      assert here == prefix + [i];

      var isClique := g.IsClique(currSize, working);
      if isClique {
        if currSize > |maxClique| {
          maxClique := working[..currSize];
          assert Extends(g.Edges, maxClique, prefix, startID) by {
            assert maxClique[currSize - 1..] == [i];
          }
        }

        var nextClique := FindMaxCliqueInner(g, i + 1, currSize + 1, working);
        if |nextClique| > |maxClique| {
          ExtendsShorter(g.Edges, nextClique, prefix, i, startID);
          maxClique := nextClique;
        }
        ThroughNext(g.Edges, prefix, i, startID, nextClique);
        assert working[..currSize - 1] == here[..currSize - 1];
      } else {
        NoneThrough(g.Edges, prefix, i, startID);
      }
      i := i + 1;
    }
  }

  /** Every clique extending prefix through i is at most one longer than the
      prefix or at most as long as the largest extension of prefix + [i]. */
  lemma ThroughNext(edges: seq<seq<bool>>, prefix: seq<nat>, i: nat, startID: nat, next: seq<nat>)
    requires Square(edges)
    requires forall c :: Extends(edges, c, prefix + [i], i + 1) && CliqueSeq(edges, c) ==> |c| <= |next|
    ensures forall c :: Extends(edges, c, prefix, startID) && CliqueSeq(edges, c) && c[|prefix|] == i
                        ==> |c| <= |prefix| + 1 || |c| <= |next|
  {
    forall c | Extends(edges, c, prefix, startID) && CliqueSeq(edges, c) && c[|prefix|] == i && |c| > |prefix| + 1
      ensures |c| <= |next|
    {
      ExtendsLonger(edges, c, prefix, i);
    }
  }

  /** When prefix + [i] is not a clique, no clique extends prefix through i. */
  lemma NoneThrough(edges: seq<seq<bool>>, prefix: seq<nat>, i: nat, startID: nat)
    requires Square(edges) && IdsIn(edges, prefix + [i]) && !CliqueSeq(edges, prefix + [i])
    ensures forall c :: Extends(edges, c, prefix, startID) && CliqueSeq(edges, c) ==> c[|prefix|] != i
  {
    forall c | Extends(edges, c, prefix, startID) && CliqueSeq(edges, c)
      ensures c[|prefix|] != i
    {
      var n := |prefix| + 1;
      PrefixOfClique(edges, c, n);
      assert c[..n] == c[..n - 1] + [c[n - 1]];
    }
  }

  /** The first k members of a clique form a clique. */
  lemma PrefixOfClique(edges: seq<seq<bool>>, c: seq<nat>, k: nat)
    requires Square(edges) && IdsIn(edges, c) && CliqueSeq(edges, c) && k <= |c|
    ensures IdsIn(edges, c[..k]) && CliqueSeq(edges, c[..k])
  {
  }

  /** An extension of prefix + [i] from i + 1 on extends prefix from any
      startID <= i. */
  lemma ExtendsShorter(edges: seq<seq<bool>>, c: seq<nat>, prefix: seq<nat>, i: nat, startID: nat)
    requires startID <= i && Extends(edges, c, prefix + [i], i + 1)
    ensures Extends(edges, c, prefix, startID)
  {
    var n := |prefix|;
    assert c[..n] == (prefix + [i])[..n];
    assert c[n] == i;
    var tail, rest := c[n..], c[n + 1..];
    assert rest[0] == c[n + 1] >= i + 1;
    forall a, b | 0 <= a < b < |tail|
      ensures tail[a] < tail[b]
    {
      assert tail[b] == rest[b - 1];
      if a == 0 {
        assert tail[0] == i;
        if b > 1 {
          assert rest[0] < rest[b - 1];
        }
      } else {
        assert tail[a] == rest[a - 1] < rest[b - 1];
      }
    }
  }

  /** A longer extension of prefix whose next id is i extends prefix + [i]
      from i + 1. */
  lemma ExtendsLonger(edges: seq<seq<bool>>, c: seq<nat>, prefix: seq<nat>, i: nat)
    requires Extends(edges, c, prefix, 0) && c[|prefix|] == i && |c| > |prefix| + 1
    ensures Extends(edges, c, prefix + [i], i + 1)
  {
    var n := |prefix|;
    assert c[..n + 1] == c[..n] + [c[n]];
    assert c[n + 1] > i by {
      assert c[n..][0] == i && c[n..][1] == c[n + 1];
    }
    var tail := c[n + 1..];
    forall a, b | 0 <= a < b < |tail|
      ensures tail[a] < tail[b]
    {
      assert tail[a] == c[n..][a + 1] && tail[b] == c[n..][b + 1];
    }
  }

  /** FindMaxClique: the largest clique with increasing ids from 1 (every
      clique of real nodes, listed in increasing order, is one of these). */
  method FindMaxClique(g: Graph) returns (clique: seq<nat>)
    requires g.Valid() && g.Edges != []
    ensures clique == [] || (Increasing(clique) && clique[0] >= 1 && IdsIn(g.Edges, clique)
                             && CliqueSeq(g.Edges, clique))
    ensures forall c :: |c| >= 1 && Increasing(c) && c[0] >= 1 && IdsIn(g.Edges, c) && CliqueSeq(g.Edges, c)
                        ==> |c| <= |clique|
  {
    var numNodes := |g.NodeNames|;
    var working := new nat[numNodes](_ => 0);
    clique := FindMaxCliqueInner(g, 1, 1, working);
    forall c | |c| >= 1 && Increasing(c) && c[0] >= 1 && IdsIn(g.Edges, c) && CliqueSeq(g.Edges, c)
      ensures Extends(g.Edges, c, [], 1)
    {
      assert c[..0] == [] && c[0..] == c;
    }
    if clique != [] {
      assert clique[0..] == clique;
    }
  }
}
