/** Day 19, part 1 (19-1/main.go): towel patterns are stored in a trie, and
    a design can be made when it splits into stored patterns.

    A trie node is identified with the string spelled on the way to it from
    the root, so the whole trie is a map from those strings to the node's
    Token flag: node p has a child for rune r exactly when p + [r] is a key.
    NewTrie is the map holding only the root "". */
module Tries {

  /** Node p exists and ends a stored word. */
  predicate Token(nodes: map<string, bool>, p: string)
  {
    p in nodes && nodes[p]
  }

  /** Every prefix of a node is a node: children hang below their parent. */
  predicate PrefixClosed(nodes: map<string, bool>)
  {
    forall p, k :: p in nodes && 0 <= k <= |p| ==> p[..k] in nodes
  }

  class Trie {
    var Nodes: map<string, bool>
    /** The words inserted so far. */
    ghost var Inserted: set<string>

    /** The root exists, children hang below their parents, and the Token
        flags mark exactly the inserted words. */
    ghost predicate Valid()
      reads this
    {
      && "" in Nodes
      && PrefixClosed(Nodes)
      && (forall p :: p in Nodes ==> (Nodes[p] <==> p in Inserted))
      && (forall w :: w in Inserted ==> w in Nodes)
    }

    constructor ()
      ensures Valid() && Nodes == map["" := false] && Inserted == {}
    {
      Nodes := map["" := false];
      Inserted := {};
    }

    /** Walks down the word from the root, making the children that are
        missing, and marks the last node as a token. */
    method InsertToken(word: string)
      requires Valid()
      modifies this
      ensures Valid() && Inserted == old(Inserted) + {word}
      ensures Token(Nodes, word)
      ensures old(Nodes).Keys <= Nodes.Keys
      ensures forall p :: Token(old(Nodes), p) ==> Token(Nodes, p)
      ensures forall p :: p in Nodes && p !in old(Nodes) ==> |p| <= |word| && p == word[..|p|]
    {
      var node := "";
      for i := 0 to |word|
        invariant node == word[..i] && node in Nodes
        invariant "" in Nodes && PrefixClosed(Nodes)
        invariant forall p :: p in Nodes ==> (Nodes[p] <==> p in Inserted)
        invariant forall w :: w in Inserted ==> w in Nodes
        invariant Inserted == old(Inserted)
        invariant old(Nodes).Keys <= Nodes.Keys
        invariant forall p :: p in old(Nodes) ==> Nodes[p] == old(Nodes)[p]
        invariant forall p :: p in Nodes && p !in old(Nodes) ==> |p| <= i && p == word[..|p|]
      {
        var r := word[i];
        var child := node + [r];
        assert child == word[..i + 1];
        if child !in Nodes {
          ChildKeepsClosed(Nodes, node, r);
          Nodes := Nodes[child := false];
        }
        node := child;
      }
      assert node == word;
      Nodes := Nodes[node := true];
      Inserted := Inserted + {word};
    }
  }

  /** Adding a child of an existing node keeps the map prefix-closed. */
  lemma ChildKeepsClosed(nodes: map<string, bool>, node: string, r: char)
    requires PrefixClosed(nodes) && node in nodes
    ensures PrefixClosed(nodes[node + [r] := false])
  {
    var child := node + [r];
    forall p, k | p in nodes[child := false] && 0 <= k <= |p|
      ensures p[..k] in nodes[child := false]
    {
      if p == child {
        if k <= |node| {
          assert p[..k] == node[..k];
        } else {
          assert p[..k] == child;
        }
      } else {
        assert p in nodes;
      }
    }
  }

  // ---------------------------------------------------------------------
  // Solve

  /** Solve(root, word): can the word be split into stored words? */
  function Solve(nodes: map<string, bool>, word: string): bool
    requires !Token(nodes, "")
    decreases |word|, |word| + 1
  {
    Walk(nodes, word, 0)
  }

  /** Solve's loop at index i, standing on the node word[..i]: a missing
      child ends the walk, where a token node may still restart from the
      root on the rest; a token node on the way first tries the rest from
      the root; at the end the answer is whether the node is a token. */
  function Walk(nodes: map<string, bool>, word: string, i: nat): bool
    requires !Token(nodes, "") && i <= |word|
    decreases |word|, |word| - i
  {
    var node := word[..i];
    if i == |word| then Token(nodes, node)
    else
      var r := word[i];
      if node + [r] !in nodes then
        (if Token(nodes, node) then (assert i > 0; Solve(nodes, word[i..])) else false)
      else if Token(nodes, node) && (assert i > 0; Solve(nodes, word[i..])) then true
      else Walk(nodes, word, i + 1)
  }

  /** The word is a stored word, or a stored word followed by a word that
      splits. */
  ghost predicate Splits(nodes: map<string, bool>, w: string)
    decreases |w|
  {
    || (w != [] && Token(nodes, w))
    || exists k :: 1 <= k < |w| && Token(nodes, w[..k]) && Splits(nodes, w[k..])
  }

  /** Solve answers exactly whether the word splits into stored words
      (with the empty word never stored, which also keeps Solve from
      calling itself on the same word). */
  lemma {:induction false} SolveCorrect(nodes: map<string, bool>, w: string)
    requires PrefixClosed(nodes) && !Token(nodes, "")
    ensures Solve(nodes, w) <==> Splits(nodes, w)
    decreases |w|, |w| + 1
  {
    WalkCorrect(nodes, w, 0);
    if w != [] && Token(nodes, w) {
      assert w[..|w|] == w;
      assert Completes(nodes, w, |w|);
    } else if Splits(nodes, w) {
      var k :| 1 <= k < |w| && Token(nodes, w[..k]) && Splits(nodes, w[k..]);
      assert Completes(nodes, w, k);
    }
    if Solve(nodes, w) {
      var k :| 0 <= k <= |w| && Completes(nodes, w, k);
      assert k != 0 by {
        assert w[..0] == "";
      }
      if k == |w| {
        assert w[..k] == w;
      } else {
        assert 1 <= k < |w| && Token(nodes, w[..k]) && Splits(nodes, w[k..]);
      }
      assert Splits(nodes, w);
    }
  }

  /** The token prefix w[..k] finishes the word or is followed by a part
      that splits. */
  ghost predicate Completes(nodes: map<string, bool>, w: string, k: nat)
    requires k <= |w|
  {
    Token(nodes, w[..k]) && (k == |w| || Splits(nodes, w[k..]))
  }

  /** The walk from node w[..i] succeeds exactly when some token prefix at
      least i long completes the word. */
  lemma {:induction false} WalkCorrect(nodes: map<string, bool>, w: string, i: nat)
    requires PrefixClosed(nodes) && !Token(nodes, "") && i <= |w|
    ensures Walk(nodes, w, i) <==> exists k :: i <= k <= |w| && Completes(nodes, w, k)
    decreases |w|, |w| - i
  {
    var node := w[..i];
    if i == |w| {
      assert node == w;
      if Walk(nodes, w, i) {
        assert Completes(nodes, w, i);
      }
    } else {
      if i > 0 && Token(nodes, node) {
        SolveCorrect(nodes, w[i..]);
        if Solve(nodes, w[i..]) {
          assert Completes(nodes, w, i);
        }
      }
      if i == 0 {
        assert node == "";
      }
      var r := w[i];
      assert node + [r] == w[..i + 1];
      if node + [r] !in nodes {
        forall k | i < k <= |w|
          ensures w[..k][..i + 1] == w[..i + 1]
        {
        }
        if Walk(nodes, w, i) {
          assert Completes(nodes, w, i);
        }
      } else {
        WalkCorrect(nodes, w, i + 1);
      }
    }
  }
}
