/** Day 19, part 2 (19-2/main.go): the same trie of towel patterns, now
    counting the ways a design splits into patterns, with the answers for
    the designs and suffixes already seen kept in a cache. The trie nodes
    (TrieNode) are the Tries.Trie of part 1; nodes are named by their path
    from the root, as there. */
module TrieCounts {
  import opened Tries

  // ---------------------------------------------------------------------
  // What Solve counts

  /** The number of ways to split w into non-empty stored words: w itself
      when it is stored, plus, for each stored proper prefix, the ways to
      split the rest. */
  function Ways(nodes: map<string, bool>, w: string): nat
    decreases |w|, 1, 0
  {
    WaysBefore(nodes, w, |w|) + (if w != [] && Token(nodes, w) then 1 else 0)
  }

  /** The splittings of w whose first word has a length in [1, n). */
  function WaysBefore(nodes: map<string, bool>, w: string, n: nat): nat
    requires n <= |w|
    decreases |w|, 0, n
  {
    if n <= 1 then 0
    else WaysBefore(nodes, w, n - 1) + (if Token(nodes, w[..n - 1]) then Ways(nodes, w[n - 1..]) else 0)
  }

  /** The words of a splitting, put back together. */
  function Concat(parts: seq<string>): string
  {
    if parts == [] then [] else parts[0] + Concat(parts[1..])
  }

  /** parts is a splitting of w into non-empty stored words. */
  ghost predicate IsSplitting(nodes: map<string, bool>, parts: seq<string>, w: string)
  {
    && |parts| >= 1
    && (forall j :: 0 <= j < |parts| ==> parts[j] != [] && Token(nodes, parts[j]))
    && Concat(parts) == w
  }

  function PrependPart(t: string, s: set<seq<string>>): set<seq<string>>
  {
    set d | d in s :: [t] + d
  }

  /** The splittings of w, gathered the way Ways counts them. */
  function Splittings(nodes: map<string, bool>, w: string): set<seq<string>>
    decreases |w|, 1, 0
  {
    SplittingsBefore(nodes, w, |w|) + (if w != [] && Token(nodes, w) then {[w]} else {})
  }

  function SplittingsBefore(nodes: map<string, bool>, w: string, n: nat): set<seq<string>>
    requires n <= |w|
    decreases |w|, 0, n
  {
    if n <= 1 then {}
    else
      SplittingsBefore(nodes, w, n - 1)
        + (if Token(nodes, w[..n - 1]) then PrependPart(w[..n - 1], Splittings(nodes, w[n - 1..])) else {})
  }

  // ---------------------------------------------------------------------
  // Properties of the count

  /** Everything gathered is a splitting whose first word is shorter than n. */
  lemma {:induction false} SplittingsBeforeSound(nodes: map<string, bool>, w: string, n: nat, d: seq<string>)
    requires n <= |w| && d in SplittingsBefore(nodes, w, n)
    ensures IsSplitting(nodes, d, w) && 1 <= |d[0]| < n
    decreases |w|, 0, n
  {
    if d !in SplittingsBefore(nodes, w, n - 1) {
      var t := w[..n - 1];
      var e :| e in Splittings(nodes, w[n - 1..]) && d == [t] + e;
      SplittingsSound(nodes, w[n - 1..], e);
      assert d[1..] == e;
      assert Concat(d) == t + Concat(e);
      assert w == t + w[n - 1..];
    } else {
      SplittingsBeforeSound(nodes, w, n - 1, d);
    }
  }

  lemma {:induction false} SplittingsSound(nodes: map<string, bool>, w: string, d: seq<string>)
    requires d in Splittings(nodes, w)
    ensures IsSplitting(nodes, d, w)
    decreases |w|, 1, 0
  {
    if d in SplittingsBefore(nodes, w, |w|) {
      SplittingsBeforeSound(nodes, w, |w|, d);
    } else {
      assert d == [w];
      assert Concat(d) == w + Concat([]);
    }
  }

  /** Every splitting of w is gathered. */
  lemma {:induction false} SplittingsComplete(nodes: map<string, bool>, w: string, d: seq<string>)
    requires IsSplitting(nodes, d, w)
    ensures d in Splittings(nodes, w)
    decreases |w|
  {
    var t := d[0];
    assert w == t + Concat(d[1..]);
    if |d| == 1 {
      assert d[1..] == [];
      assert Concat(d[1..]) == [];
      assert d == [t] && w == t;
    } else {
      var e := d[1..];
      var rest := Concat(e);
      assert IsSplitting(nodes, e, rest) by {
        forall j | 0 <= j < |e|
          ensures e[j] == d[j + 1]
        {
        }
      }
      assert |rest| >= 1 by {
        ConcatLength(e);
      }
      assert t == w[..|t|] && rest == w[|t|..];
      SplittingsComplete(nodes, rest, e);
      assert d == [t] + e;
      InBefore(nodes, w, |t|, d);
    }
  }

  /** |Concat(parts)| is at least the length of the first part. */
  lemma ConcatLength(parts: seq<string>)
    requires |parts| >= 1
    ensures |Concat(parts)| >= |parts[0]|
  {
  }

  /** A splitting whose first word has length k, 1 <= k < |w|, is gathered
      by SplittingsBefore at every n > k. */
  lemma {:induction false} InBefore(nodes: map<string, bool>, w: string, k: nat, d: seq<string>)
    requires 1 <= k < |w| && Token(nodes, w[..k]) && |d| >= 1 && d[0] == w[..k]
    requires d[1..] in Splittings(nodes, w[k..])
    ensures d in SplittingsBefore(nodes, w, |w|)
  {
    var n := |w|;
    while n > k + 1
      invariant k + 1 <= n <= |w|
      invariant d in SplittingsBefore(nodes, w, n) ==> d in SplittingsBefore(nodes, w, |w|)
      decreases n
    {
      n := n - 1;
    }
    assert d == [w[..k]] + d[1..];
  }

  /** Ways counts the splittings: the number of ways to make the design. */
  lemma {:induction false} WaysCountsSplittings(nodes: map<string, bool>, w: string)
    ensures Ways(nodes, w) == |Splittings(nodes, w)|
    decreases |w|, 1, 0
  {
    WaysBeforeCounts(nodes, w, |w|);
    if w != [] && Token(nodes, w) {
      forall d | d in SplittingsBefore(nodes, w, |w|)
        ensures d != [w]
      {
        SplittingsBeforeSound(nodes, w, |w|, d);
      }
      DisjointCount(SplittingsBefore(nodes, w, |w|), {[w]});
    }
  }

  lemma {:induction false} WaysBeforeCounts(nodes: map<string, bool>, w: string, n: nat)
    requires n <= |w|
    ensures WaysBefore(nodes, w, n) == |SplittingsBefore(nodes, w, n)|
    decreases |w|, 0, n
  {
    if n > 1 {
      WaysBeforeCounts(nodes, w, n - 1);
      var t := w[..n - 1];
      if Token(nodes, t) {
        var s := Splittings(nodes, w[n - 1..]);
        WaysCountsSplittings(nodes, w[n - 1..]);
        PrependPartCount(t, s);
        forall d | d in SplittingsBefore(nodes, w, n - 1)
          ensures d !in PrependPart(t, s)
        {
          SplittingsBeforeSound(nodes, w, n - 1, d);
        }
        DisjointCount(SplittingsBefore(nodes, w, n - 1), PrependPart(t, s));
      }
    }
  }

  lemma DisjointCount<T>(a: set<T>, b: set<T>)
    requires a !! b
    ensures |a + b| == |a| + |b|
  {
  }

  /** Putting the same word in front of distinct splittings keeps them
      distinct. */
  lemma {:induction false} PrependPartCount(t: string, s: set<seq<string>>)
    ensures |PrependPart(t, s)| == |s|
    decreases |s|
  {
    if s != {} {
      var x :| x in s;
      var s' := s - {x};
      PrependPartCount(t, s');
      assert PrependPart(t, s) == PrependPart(t, s') + {[t] + x};
      forall y | y in s'
        ensures [t] + y != [t] + x
      {
        assert ([t] + y)[1..] == y && ([t] + x)[1..] == x;
      }
    }
  }

  /** A design can be made in some way exactly when part 1 finds it
      possible. */
  lemma {:induction false} WaysPositiveIffSplits(nodes: map<string, bool>, w: string)
    ensures Ways(nodes, w) > 0 <==> Splits(nodes, w)
    decreases |w|, 1, 0
  {
    WaysBeforePositive(nodes, w, |w|);
  }

  lemma {:induction false} WaysBeforePositive(nodes: map<string, bool>, w: string, n: nat)
    requires n <= |w|
    ensures WaysBefore(nodes, w, n) > 0
      <==> exists k :: 1 <= k < n && Token(nodes, w[..k]) && Splits(nodes, w[k..])
    decreases |w|, 0, n
  {
    if n > 1 {
      WaysBeforePositive(nodes, w, n - 1);
      WaysPositiveIffSplits(nodes, w[n - 1..]);
      if Token(nodes, w[..n - 1]) && Splits(nodes, w[n - 1..]) {
        assert 1 <= n - 1 < n;
      }
    }
  }

  /** Past a missing child no longer prefix is stored, so the rest of the
      loop would add nothing. */
  lemma {:induction false} NothingPastMissingChild(nodes: map<string, bool>, w: string, i: nat, n: nat)
    requires PrefixClosed(nodes) && i < |w| && w[..i + 1] !in nodes && i + 1 <= n <= |w|
    ensures WaysBefore(nodes, w, n) == WaysBefore(nodes, w, i + 1)
    ensures !Token(nodes, w)
    decreases n
  {
    assert w[..|w|][..i + 1] == w[..i + 1];
    assert w[..|w|] == w;
    if n > i + 1 {
      NothingPastMissingChild(nodes, w, i, n - 1);
      assert w[..n - 1][..i + 1] == w[..i + 1];
    }
  }

  // ---------------------------------------------------------------------
  // The source's Trie: the nodes and the cache of answers

  class CountingTrie {
    const root: Trie
    var cache: map<string, int>

    /** The trie is well formed and every cached answer is the count of
        splittings of its word. */
    ghost predicate Valid()
      reads this, root
    {
      && root.Valid()
      && forall w :: w in cache ==> cache[w] == Ways(root.Nodes, w)
    }

    constructor ()
      ensures Valid() && fresh(root) && root.Nodes == map["" := false] && root.Inserted == {}
      ensures cache == map[]
    {
      root := new Trie();
      cache := map[];
    }

    /** Inserting keeps the cache; answers cached before an insertion may be
        stale, so the cache is only known to be right while it is empty. */
    method InsertToken(word: string)
      requires root.Valid()
      modifies root
      ensures root.Valid() && root.Inserted == old(root.Inserted) + {word}
      ensures Token(root.Nodes, word)
      ensures forall p :: Token(old(root.Nodes), p) ==> Token(root.Nodes, p)
      ensures cache == old(cache)
      ensures cache == map[] ==> Valid()
    {
      root.InsertToken(word);
    }

    /** The number of ways to make the design, cached. An empty stored word
        would make Solve call itself on the same word forever. */
    method Solve(word: string) returns (tot: int)
      requires Valid() && !Token(root.Nodes, "")
      modifies this
      ensures Valid()
      ensures tot == Ways(root.Nodes, word)
      ensures word in cache && cache[word] == tot
      ensures old(cache).Keys <= cache.Keys
      decreases |word|
    {
      tot := 0;
      var node := "";

      if word in cache {
        return cache[word];
      }

      for i := 0 to |word|
        invariant Valid() && old(cache).Keys <= cache.Keys
        invariant node == word[..i] && node in root.Nodes
        invariant tot == WaysBefore(root.Nodes, word, i)
      {
        if node in root.Nodes && root.Nodes[node] {
          assert i > 0 by {
            assert word[..0] == "";
          }
          var remtotal := Solve(word[i..]);
          tot := tot + remtotal;
        }

        var child := node + [word[i]];
        assert child == word[..i + 1];
        if child !in root.Nodes {
          NothingPastMissingChild(root.Nodes, word, i, |word|);
          cache := cache[word := tot];
          return tot;
        }

        node := child;
      }

      assert node == word;
      if node in root.Nodes && root.Nodes[node] {
        tot := tot + 1;
      }

      cache := cache[word := tot];
    }

    /** TrieNode.Tokens on the node p: the stored words below p, as
        suffixes of p, children taken in any order. */
    method TokensBelow(p: string) returns (tokens: seq<string>)
      requires PrefixClosed(root.Nodes) && p in root.Nodes
      ensures forall s :: s in tokens <==> s != [] && Token(root.Nodes, p + s)
      decreases |Below(root.Nodes, p)|
    {
      tokens := [];
      var todo := Children(root.Nodes, p);
      ghost var done: set<string> := {};
      while todo != {}
        invariant todo <= Children(root.Nodes, p) && done == Children(root.Nodes, p) - todo
        invariant forall s :: s in tokens <==>
          s != [] && Token(root.Nodes, p + s) && (p + s)[..|p| + 1] in done
        decreases |todo|
      {
        var child :| child in todo;
        var r := child[|p|];
        BelowShrinks(root.Nodes, p, child);
        ghost var start := tokens;
        if root.Nodes[child] {
          tokens := tokens + [[r]];
        }
        var sub := TokensBelow(child);
        ghost var before := tokens;
        for j := 0 to |sub|
          invariant tokens == before + PrefixAll(r, sub[..j])
        {
          PrefixAllSnoc(r, sub, j);
          assert before + PrefixAll(r, sub[..j + 1]) == tokens + [[r] + sub[j]];
          tokens := tokens + [[r] + sub[j]];
        }
        assert sub[..|sub|] == sub;
        ChildStep(root.Nodes, p, child, r, done, start, before, sub, tokens);
        todo := todo - {child};
        done := done + {child};
      }
      ThroughChildren(root.Nodes, p);
    }

    /** Trie.Tokens: exactly the non-empty inserted words. */
    method Tokens() returns (tokens: seq<string>)
      requires root.Valid()
      ensures forall s :: s in tokens <==> s != [] && s in root.Inserted
    {
      tokens := TokensBelow("");
      forall s
        ensures "" + s == s
      {
      }
    }
  }

  /** Every listed word with the rune r put in front. */
  function PrefixAll(r: char, ss: seq<string>): (ts: seq<string>)
    ensures |ts| == |ss| && forall j :: 0 <= j < |ss| ==> ts[j] == [r] + ss[j]
  {
    seq(|ss|, j requires 0 <= j < |ss| => [r] + ss[j])
  }

  /** Listing the child p + [r] (the child itself when it is a token, then
      the words below it with r in front) adds exactly the words below p
      that go through that child. */
  lemma ChildStep(nodes: map<string, bool>, p: string, child: string, r: char, done: set<string>,
                  start: seq<string>, before: seq<string>, sub: seq<string>, after: seq<string>)
    requires child == p + [r]
    requires forall s :: s in start <==> s != [] && Token(nodes, p + s) && (p + s)[..|p| + 1] in done
    requires child !in done
    requires before == start + (if Token(nodes, child) then [[r]] else [])
    requires forall s :: s in sub <==> s != [] && Token(nodes, child + s)
    requires after == before + PrefixAll(r, sub)
    ensures forall s :: s in after <==>
      s != [] && Token(nodes, p + s) && (p + s)[..|p| + 1] in done + {child}
  {
    forall s
      ensures s in after <==> s != [] && Token(nodes, p + s) && (p + s)[..|p| + 1] in done + {child}
    {
      if s != [] {
        assert (p + s)[..|p| + 1] == p + [s[0]];
        if s[0] == r {
          assert p + s == child + s[1..];
          if s[1..] == [] {
            assert s == [r];
            assert s !in PrefixAll(r, sub);
          } else {
            assert s == [r] + s[1..];
            if s in PrefixAll(r, sub) {
              var m :| 0 <= m < |sub| && PrefixAll(r, sub)[m] == s;
              assert sub[m] == s[1..];
            }
            if s[1..] in sub {
              var m :| 0 <= m < |sub| && sub[m] == s[1..];
              assert PrefixAll(r, sub)[m] == s;
            }
          }
        } else {
          assert p + [s[0]] != child by {
            assert child[|p|] == r;
          }
        }
      }
    }
  }

  lemma PrefixAllSnoc(r: char, ss: seq<string>, j: nat)
    requires j < |ss|
    ensures PrefixAll(r, ss[..j + 1]) == PrefixAll(r, ss[..j]) + [[r] + ss[j]]
  {
  }

  /** Every word stored below p goes through one of p's children. */
  lemma ThroughChildren(nodes: map<string, bool>, p: string)
    requires PrefixClosed(nodes)
    ensures forall s :: s != [] && Token(nodes, p + s) ==> (p + s)[..|p| + 1] in Children(nodes, p)
  {
    forall s | s != [] && Token(nodes, p + s)
      ensures (p + s)[..|p| + 1] in Children(nodes, p)
    {
      assert (p + s)[..|p| + 1][..|p|] == p;
    }
  }

  /** The children of node p. */
  function Children(nodes: map<string, bool>, p: string): set<string>
  {
    set c | c in nodes.Keys && |c| == |p| + 1 && c[..|p|] == p
  }

  /** The nodes strictly below p. */
  ghost function Below(nodes: map<string, bool>, p: string): set<string>
  {
    set k | k in nodes.Keys && |k| > |p| && k[..|p|] == p
  }

  /** A child has fewer nodes below it than its parent. */
  lemma BelowShrinks(nodes: map<string, bool>, p: string, c: string)
    requires c in Children(nodes, p)
    ensures |Below(nodes, c)| < |Below(nodes, p)|
    ensures c == p + [c[|p|]]
  {
    forall k | k in Below(nodes, c)
      ensures k in Below(nodes, p)
    {
      assert k[..|c|][..|p|] == k[..|p|];
    }
    assert c in Below(nodes, p) && c !in Below(nodes, c);
    var a, b := Below(nodes, c), Below(nodes, p);
    assert a + (b - a) == b;
    DisjointCount(a, b - a);
  }
}
