// Day 21, part 1, main: each door code is typed digit by digit, the arms
// travelling by a fewest-keys path from the last button pressed to the
// next and the human then pressing A, which presses the keypad button.

module KeypadCodes {
  import opened Keypads
  import opened KeypadSearch
  import opened KeypadFinder
  import opened Decimal

  /** The keys, entered from s, with the keypad buttons they press: 'A' on
      an arm chain resting on A up to the keypad robot presses the button
      under the last arm and moves nothing (NextState has no next state
      there); any other key acts as NextState says. */
  function Typed(s: State, keys: seq<char>): (r: Option<(State, seq<char>)>)
    ensures r.Some? ==> |r.value.0| == |s|
  {
    if keys == [] then Some((s, []))
    else
      match Typed(s, keys[..|keys| - 1])
      case None => None
      case Some((t, out)) =>
        var c := keys[|keys| - 1];
        if c == 'A' && Emits(t) then Some((t, out + [t[|t| - 1]]))
        else
          match NextState(t, c)
          case None => None
          case Some(n) => Some((n, out))
  }

  /** The arms resting on A, the keypad robot pointing at d (21-1/main.go,
      line 214; NumLayers is 3). */
  function Rest(d: char): (s: State)
    ensures |s| == 3 && Emits(s) && s[2] == d
  {
    ['A', 'A', d]
  }

  /** Where the arms start typing digit i of the code, and where they
      press it. */
  function From(code: seq<char>, i: nat): State
    requires i <= |code|
  {
    if i == 0 then Rest('A') else Rest(code[i - 1])
  }

  function To(code: seq<char>, i: nat): State
    requires i < |code|
  {
    Rest(code[i])
  }

  ghost predicate TypesCode(keys: seq<char>, code: seq<char>)
  {
    Pressable(keys) && Typed(Rest('A'), keys).Some? && Typed(Rest('A'), keys).value.1 == code
  }

  /** Some keys type the code. */
  ghost predicate Typable(code: seq<char>)
  {
    exists keys :: TypesCode(keys, code)
  }

  /** No keys that type the code are fewer than n. */
  ghost predicate Cheapest(code: seq<char>, n: nat)
  {
    forall keys | TypesCode(keys, code) :: n <= |keys|
  }

  /** Keys for the digits before k: each digit's path and its press. */
  function Cost(lens: seq<nat>, k: nat): nat
    requires k <= |lens|
  {
    if k == 0 then 0 else Cost(lens, k - 1) + lens[k - 1] + 1
  }

  /** A bound added at the end leaves the cost of the digits before it. */
  lemma {:induction false} CostSnoc(lens: seq<nat>, x: nat, k: nat)
    requires k <= |lens|
    ensures Cost(lens + [x], k) == Cost(lens, k)
  {
    if k > 0 {
      CostSnoc(lens, x, k - 1);
      assert (lens + [x])[k - 1] == lens[k - 1];
    }
  }

  /** A chain of three arms resting on A is at rest over its last button. */
  lemma AtRest(t: State)
    requires |t| == 3 && Emits(t)
    ensures t == Rest(t[2])
  {
    assert t[0] == 'A' && t[1] == 'A';
  }

  /** Replayed keys press no keypad button: Typed follows Replay. */
  lemma {:induction false} TypedReplay(s: State, p: seq<char>, t: State, out: seq<char>, sub: seq<char>)
    requires Typed(s, p) == Some((t, out)) && Replay(t, sub).Some?
    ensures Typed(s, p + sub) == Some((Replay(t, sub).value, out))
  {
    if sub == [] {
      assert p + sub == p;
    } else {
      var n := |sub| - 1;
      var c := sub[n];
      TypedReplay(s, p, t, out, sub[..n]);
      var t1 := Replay(t, sub[..n]).value;
      assert (p + sub)[..|p + sub| - 1] == p + sub[..n];
      if c == 'A' && Emits(t1) {
        PressAtKeypad(t1);
      }
    }
  }

  /** A path to the arms' rest over d, then A, types d. */
  lemma TypeDigit(path: seq<char>, start: State, out: seq<char>, sub: seq<char>, d: char)
    requires Pressable(path) && Typed(Rest('A'), path) == Some((start, out))
    requires Pressable(sub) && Replay(start, sub) == Some(Rest(d))
    ensures Pressable(path + sub + ['A'])
    ensures Typed(Rest('A'), path + sub + ['A']) == Some((Rest(d), out + [d]))
  {
    TypedReplay(Rest('A'), path, start, out, sub);
    var keys := path + sub + ['A'];
    assert keys[..|keys| - 1] == path + sub;
    forall i | 0 <= i < |keys|
      ensures IsKey(keys[i])
    {
      if i < |path| {
        assert keys[i] == path[i];
      } else if i < |path| + |sub| {
        assert keys[i] == sub[i - |path|];
      }
    }
  }

  lemma PressableInit(keys: seq<char>, m: nat)
    requires Pressable(keys) && m <= |keys|
    ensures keys != [] ==> Pressable(keys[..|keys| - 1])
    ensures Pressable(keys[|keys| - m..])
  {
    if keys != [] {
      var init := keys[..|keys| - 1];
      forall i | 0 <= i < |init|
        ensures IsKey(init[i])
      {
        assert init[i] == keys[i];
      }
    }
    var run := keys[|keys| - m..];
    forall i | 0 <= i < |run|
      ensures IsKey(run[i])
    {
      assert run[i] == keys[|keys| - m + i];
    }
  }

  /** The step of Split where the last key presses digit k: the run
      before it reaches the arms' rest over that digit, so the digit is
      reachable and its bound is at most the run's length. */
  lemma SplitPress(code: seq<char>, lens: seq<nat>, k: nat, run: seq<char>, t: State)
    requires k < |code| && |t| == 3 && Emits(t) && t[2] == code[k]
    requires Pressable(run) && Replay(From(code, k), run) == Some(t)
    requires |lens| <= |code| && forall j | 0 <= j < |lens| :: Fewest(From(code, j), To(code, j), lens[j])
    ensures Reachable(From(code, k), To(code, k)) && Replay(From(code, k + 1), []) == Some(t)
    ensures k < |lens| ==> lens[k] <= |run|
  {
    AtRest(t);
    assert To(code, k) == t;
  }

  /** The step of Split where the last key moves an arm: the run grows by
      that key. */
  lemma SplitMove(keys: seq<char>, from: State, m: nat, t': State, t: State)
    requires keys != [] && m < |keys| && Replay(from, keys[..|keys| - 1][|keys| - 1 - m..]) == Some(t')
    requires NextState(t', keys[|keys| - 1]) == Some(t)
    ensures Replay(from, keys[|keys| - (m + 1)..]) == Some(t)
  {
    var run := keys[|keys| - (m + 1)..];
    assert run[..|run| - 1] == keys[..|keys| - 1][|keys| - 1 - m..];
  }

  /** The digits before k reachable, and digit k: the digits up to k. */
  lemma ReachableSnoc(code: seq<char>, k: nat)
    requires k < |code| && Reachable(From(code, k), To(code, k))
    requires forall j | 0 <= j < k :: Reachable(From(code, j), To(code, j))
    ensures forall j | 0 <= j < k + 1 :: Reachable(From(code, j), To(code, j))
  {
  }

  /** Typed unfolded at its last key: either that key presses a keypad
      button (emit) or it acts as NextState says. */
  lemma TypedLast(keys: seq<char>, t: State, out: seq<char>) returns (t': State, out': seq<char>, emit: bool)
    requires keys != [] && Typed(Rest('A'), keys) == Some((t, out))
    ensures Typed(Rest('A'), keys[..|keys| - 1]) == Some((t', out'))
    ensures emit ==> Emits(t') && out == out' + [t'[2]] && t == t'
    ensures !emit ==> out == out' && NextState(t', keys[|keys| - 1]) == Some(t)
  {
    t', out' := Typed(Rest('A'), keys[..|keys| - 1]).value.0, Typed(Rest('A'), keys[..|keys| - 1]).value.1;
    emit := keys[|keys| - 1] == 'A' && Emits(t');
  }

  /** Any keys typing a prefix of the code from A A A end with a run of m
      keys replayed from where the last digit typed left the arms; every
      digit typed was reachable from the one before; and, given lower
      bounds lens on each digit's path, the keys before that run cost at
      least the bounds plus one press per digit. */
  lemma {:induction false} Split(keys: seq<char>, code: seq<char>, lens: seq<nat>, t: State, out: seq<char>)
    returns (m: nat)
    requires Pressable(keys) && Typed(Rest('A'), keys) == Some((t, out))
    requires |out| <= |code| && out == code[..|out|]
    requires |lens| <= |code|
    requires forall j | 0 <= j < |lens| :: Fewest(From(code, j), To(code, j), lens[j])
    decreases |keys|, 2
    ensures m <= |keys|
    ensures Replay(From(code, |out|), keys[|keys| - m..]) == Some(t)
    ensures forall j | 0 <= j < |out| :: Reachable(From(code, j), To(code, j))
    ensures |out| <= |lens| ==> Cost(lens, |out|) <= |keys| - m
  {
    if keys == [] {
      m := 0;
      assert t == Rest('A') && out == [] && keys[|keys| - m..] == [];
      assert Replay(From(code, 0), []) == Some(t);
    } else {
      m := SplitLast(keys, code, lens, t, out);
    }
  }

  /** Split on keys that are not empty: unfold Typed at the last key. */
  lemma {:induction false} SplitLast(keys: seq<char>, code: seq<char>, lens: seq<nat>, t: State, out: seq<char>)
    returns (m: nat)
    requires keys != [] && Pressable(keys) && Typed(Rest('A'), keys) == Some((t, out))
    requires |out| <= |code| && out == code[..|out|]
    requires |lens| <= |code|
    requires forall j | 0 <= j < |lens| :: Fewest(From(code, j), To(code, j), lens[j])
    decreases |keys|, 1
    ensures m <= |keys|
    ensures Replay(From(code, |out|), keys[|keys| - m..]) == Some(t)
    ensures forall j | 0 <= j < |out| :: Reachable(From(code, j), To(code, j))
    ensures |out| <= |lens| ==> Cost(lens, |out|) <= |keys| - m
  {
    PressableInit(keys, 0);
    var t', out', emit := TypedLast(keys, t, out);
    if emit {
      m := SplitPressCase(keys, code, lens, t, out, t', out');
    } else {
      m := SplitMoveCase(keys, code, lens, t, out, t', out');
    }
  }

  /** Split when the last key presses digit k: the run starts afresh. */
  lemma {:induction false} SplitPressCase(keys: seq<char>, code: seq<char>, lens: seq<nat>, t: State, out: seq<char>,
                                          t': State, out': seq<char>)
    returns (m: nat)
    requires keys != [] && Pressable(keys[..|keys| - 1]) && Typed(Rest('A'), keys[..|keys| - 1]) == Some((t', out'))
    requires Emits(t') && out == out' + [t'[2]] && t == t'
    requires |out| <= |code| && out == code[..|out|]
    requires |lens| <= |code|
    requires forall j | 0 <= j < |lens| :: Fewest(From(code, j), To(code, j), lens[j])
    decreases |keys|, 0
    ensures m <= |keys|
    ensures Replay(From(code, |out|), keys[|keys| - m..]) == Some(t)
    ensures forall j | 0 <= j < |out| :: Reachable(From(code, j), To(code, j))
    ensures |out| <= |lens| ==> Cost(lens, |out|) <= |keys| - m
  {
    var init := keys[..|keys| - 1];
    var k := |out'|;
    assert out' == code[..k] && t'[2] == code[k] by {
      assert out' == out[..k] && out[k] == code[k];
    }
    var m' := Split(init, code, lens, t', out');
    PressableInit(init, m');
    SplitPress(code, lens, k, init[|init| - m'..], t');
    ReachableSnoc(code, k);
    m := 0;
    assert keys[|keys| - m..] == [] && |out| == k + 1;
  }

  /** Split when the last key moves an arm: the run grows by that key. */
  lemma {:induction false} SplitMoveCase(keys: seq<char>, code: seq<char>, lens: seq<nat>, t: State, out: seq<char>,
                                         t': State, out': seq<char>)
    returns (m: nat)
    requires keys != [] && Pressable(keys[..|keys| - 1]) && Typed(Rest('A'), keys[..|keys| - 1]) == Some((t', out'))
    requires out == out' && NextState(t', keys[|keys| - 1]) == Some(t)
    requires |out| <= |code| && out == code[..|out|]
    requires |lens| <= |code|
    requires forall j | 0 <= j < |lens| :: Fewest(From(code, j), To(code, j), lens[j])
    decreases |keys|, 0
    ensures m <= |keys|
    ensures Replay(From(code, |out|), keys[|keys| - m..]) == Some(t)
    ensures forall j | 0 <= j < |out| :: Reachable(From(code, j), To(code, j))
    ensures |out| <= |lens| ==> Cost(lens, |out|) <= |keys| - m
  {
    var m' := Split(keys[..|keys| - 1], code, lens, t', out');
    SplitMove(keys, From(code, |out|), m', t', t);
    m := m' + 1;
  }

  /** The loop of main over one code after i digits: path types the
      first i digits from A A A, leaving the arms at start, and costs
      lens, each a fewest-keys bound. */
  ghost predicate Typing(code: seq<char>, i: nat, path: seq<char>, start: State, lens: seq<nat>)
  {
    i <= |code| && |lens| == i && start == From(code, i)
    && (forall j | 0 <= j < i :: Fewest(From(code, j), To(code, j), lens[j]))
    && Pressable(path) && Typed(Rest('A'), path) == Some((start, code[..i]))
    && |path| == Cost(lens, i)
  }

  lemma TypingStep(code: seq<char>, i: nat, path: seq<char>, start: State, lens: seq<nat>, sub: seq<char>)
    requires Typing(code, i, path, start, lens) && i < |code|
    requires Pressable(sub) && Replay(start, sub) == Some(To(code, i)) && Fewest(start, To(code, i), |sub|)
    ensures Typing(code, i + 1, path + sub + ['A'], To(code, i), lens + [|sub|])
  {
    TypeDigit(path, start, code[..i], sub, code[i]);
    PrefixSnoc(code, i);
    BoundsSnoc(code, i, lens, |sub|);
    assert To(code, i) == From(code, i + 1);
  }

  lemma PrefixSnoc(code: seq<char>, i: nat)
    requires i < |code|
    ensures code[..i] + [code[i]] == code[..i + 1]
  {
  }

  lemma BoundsSnoc(code: seq<char>, i: nat, lens: seq<nat>, x: nat)
    requires i < |code| && |lens| == i && Fewest(From(code, i), To(code, i), x)
    requires forall j | 0 <= j < i :: Fewest(From(code, j), To(code, j), lens[j])
    ensures forall j | 0 <= j < i + 1 :: Fewest(From(code, j), To(code, j), (lens + [x])[j])
    ensures Cost(lens + [x], i + 1) == Cost(lens, i) + x + 1
  {
    var lens' := lens + [x];
    forall j | 0 <= j < i + 1
      ensures Fewest(From(code, j), To(code, j), lens'[j])
    {
      if j < i {
        assert lens'[j] == lens[j];
      }
    }
    CostSnoc(lens, x, i);
  }

  lemma TypingStuck(code: seq<char>, i: nat, path: seq<char>, start: State, lens: seq<nat>)
    requires Typing(code, i, path, start, lens) && i < |code| && !Reachable(start, To(code, i))
    ensures !Typable(code)
  {
    if Typable(code) {
      var keys :| TypesCode(keys, code);
      assert code[..|code|] == code;
      var _ := Split(keys, code, lens, Typed(Rest('A'), keys).value.0, code);
    }
  }

  lemma TypingDone(code: seq<char>, path: seq<char>, start: State, lens: seq<nat>)
    requires Typing(code, |code|, path, start, lens)
    ensures TypesCode(path, code) && Cheapest(code, |path|)
  {
    assert code[..|code|] == code;
    forall keys | TypesCode(keys, code)
      ensures |path| <= |keys|
    {
      var _ := Split(keys, code, lens, Typed(Rest('A'), keys).value.0, code);
    }
  }

  /** The keys main sends for one code (21-1/main.go, lines 210-223), with
      the corrected path finder: for each digit, a fewest-keys path from
      the arms' rest over the previous button to their rest over the
      digit, then A. Nothing returned means some digit cannot be reached
      (where main stops with log.Fatalf); then no keys type the code. The
      keys returned type exactly the code and no keys that do are
      fewer. */
  method CodeKeys(finder: PathFinder, code: seq<char>) returns (path: seq<char>, ok: bool)
    requires finder.Valid()
    modifies finder
    ensures finder.Valid()
    ensures ok ==> TypesCode(path, code) && Cheapest(code, |path|)
    ensures !ok ==> !Typable(code)
  {
    path := [];
    ghost var lens: seq<nat> := [];
    var start := Rest('A');
    assert code[..0] == [];
    for i := 0 to |code|
      invariant finder.Valid() && Typing(code, i, path, start, lens)
    {
      var dest := Rest(code[i]);
      var sub, found := finder.FindShortestPath(start, dest);
      if !found {
        TypingStuck(code, i, path, start, lens);
        return [], false;
      }
      TypingStep(code, i, path, start, lens, sub);
      path, lens, start := path + sub + ['A'], lens + [|sub|], dest;
    }
    TypingDone(code, path, start, lens);
    return path, true;
  }

  /** The fewest keys that type the code number n. */
  ghost predicate LeastKeys(code: seq<char>, n: nat)
  {
    (exists keys :: TypesCode(keys, code) && |keys| == n) && Cheapest(code, n)
  }

  /** A code's first three characters read as a number (MustAtoi on
      code[0:3]). */
  predicate Numbered(code: seq<char>)
  {
    |code| >= 3 && AllDigits(code[..3])
  }

  function Number(code: seq<char>): nat
    requires Numbered(code)
  {
    Parse(code[..3])
  }

  /** The sum of each code's key count times its number. */
  function Weighted(codes: seq<seq<char>>, lens: seq<nat>): int
    requires |lens| == |codes| && forall i | 0 <= i < |codes| :: Numbered(codes[i])
  {
    if codes == [] then 0
    else
      var n := |codes| - 1;
      assert Numbered(codes[n]);
      Weighted(codes[..n], lens[..n]) + lens[n] * Number(codes[n])
  }

  /** main's loop after i codes: lens holds their fewest key counts and
      complexity their weighted sum. */
  ghost predicate Summed(codes: seq<seq<char>>, i: nat, lens: seq<nat>, complexity: int)
  {
    i <= |codes| && |lens| == i && (forall j | 0 <= j < |codes| :: Numbered(codes[j]))
    && (forall j | 0 <= j < i :: LeastKeys(codes[j], lens[j]))
    && complexity == Weighted(codes[..i], lens)
  }

  lemma SummedStep(codes: seq<seq<char>>, i: nat, lens: seq<nat>, complexity: int, path: seq<char>)
    requires Summed(codes, i, lens, complexity) && i < |codes|
    requires TypesCode(path, codes[i]) && Cheapest(codes[i], |path|)
    ensures Summed(codes, i + 1, lens + [|path|], complexity + |path| * Number(codes[i]))
  {
    var lens' := lens + [|path|];
    forall j | 0 <= j < i + 1
      ensures LeastKeys(codes[j], lens'[j])
    {
      if j < i {
        assert lens'[j] == lens[j];
      }
    }
    assert codes[..i + 1][..i] == codes[..i] && lens'[..i] == lens;
  }

  /** main (21-1/main.go, lines 204-231): the complexity of the codes, the
      sum over the codes of the fewest keys that type each times the
      number its first three digits spell; no result when some code
      cannot be typed. */
  method Complexity(finder: PathFinder, codes: seq<seq<char>>) returns (complexity: int, ok: bool, ghost lens: seq<nat>)
    requires finder.Valid() && forall i | 0 <= i < |codes| :: Numbered(codes[i])
    modifies finder
    ensures finder.Valid()
    ensures ok ==> |lens| == |codes| && (forall i | 0 <= i < |codes| :: LeastKeys(codes[i], lens[i]))
                   && complexity == Weighted(codes, lens)
    ensures !ok ==> exists i | 0 <= i < |codes| :: !Typable(codes[i])
  {
    complexity, lens := 0, [];
    for i := 0 to |codes|
      invariant finder.Valid() && Summed(codes, i, lens, complexity)
    {
      var path, typed := CodeKeys(finder, codes[i]);
      if !typed {
        return 0, false, [];
      }
      SummedStep(codes, i, lens, complexity, path);
      complexity, lens := complexity + |path| * Number(codes[i]), lens + [|path|];
    }
    assert codes[..|codes|] == codes;
    return complexity, true, lens;
  }
}
