// Day 21, part 1: a chain of robots typing a door code. A state holds the
// button each robot arm points at, the human-driven robot first and the
// robot in front of the numeric keypad last; a human key either moves the
// first arm or, on 'A', presses the button under it, which acts on the
// next robot down the chain.

module Keypads {
  datatype Option<T> = None | Some(value: T)

  /** One arm position per robot, outermost first. */
  type State = seq<char>

  /** The zero rune: "no button that way" in the move tables. */
  const NULL: char := '\0'

  /** The buttons of a directional keypad. */
  datatype Action = Up | Right | Down | Left | Press

  /** ActionMapInv, read the way Go reads a map: a rune that is not a key
      gives the zero Action, Up. */
  function ActionOf(r: char): (a: Action)
    ensures a == Press <==> r == 'A'
  {
    match r
    case '^' => Up
    case '>' => Right
    case 'v' => Down
    case '<' => Left
    case 'A' => Press
    case _ => Up
  }

  /** The column of a direction in the move tables. */
  function Column(a: Action): (d: nat)
    requires a != Press
    ensures d < 4
  {
    match a
    case Up => 0
    case Right => 1
    case Down => 2
    case Left => 3
  }

  /** The rune of the direction in column d. */
  function DirKey(d: nat): (c: char)
    requires d < 4
    ensures ActionOf(c) != Press && Column(ActionOf(c)) == d
  {
    if d == 0 then '^' else if d == 1 then '>' else if d == 2 then 'v' else '<'
  }

  /** The column of the opposite direction. */
  function Opposite(d: nat): (r: nat)
    requires d < 4
    ensures r < 4 && r != d
  {
    (d + 2) % 4
  }

  /** keypadMoves: the button reached from p by each direction, NULL off the
      keypad or over its gap; a rune that is no button gives four NULLs, as
      Go's zero array does. */
  function KeypadMoves(p: char): (r: seq<char>)
    ensures |r| == 4
  {
    match p
    case 'A' => ['3', NULL, NULL, '0']
    case '0' => ['2', 'A', NULL, NULL]
    case '1' => ['4', '2', NULL, NULL]
    case '2' => ['5', '3', '0', '1']
    case '3' => ['6', NULL, 'A', '2']
    case '4' => ['7', '5', '1', NULL]
    case '5' => ['8', '6', '2', '4']
    case '6' => ['9', NULL, '3', '5']
    case '7' => [NULL, '8', '4', NULL]
    case '8' => [NULL, '9', '5', '7']
    case '9' => [NULL, NULL, '6', '8']
    case _ => [NULL, NULL, NULL, NULL]
  }

  /** robotMoves: the same for a directional keypad. */
  function RobotMoves(p: char): (r: seq<char>)
    ensures |r| == 4
  {
    match p
    case 'A' => [NULL, NULL, '>', '^']
    case '<' => [NULL, 'v', NULL, NULL]
    case 'v' => ['^', '>', NULL, '<']
    case '>' => ['A', NULL, NULL, 'v']
    case '^' => [NULL, 'A', 'v', NULL]
    case _ => [NULL, NULL, NULL, NULL]
  }

  /** Every rune either table can move an arm to. */
  predicate IsLabel(c: char)
  {
    c == 'A' || c == '^' || c == '>' || c == 'v' || c == '<' || ('0' <= c <= '9')
  }

  /** The numeric keypad's table can be walked back: moving the other way
      returns to the button moved from. */
  lemma KeypadReversible(p: char, d: nat)
    requires d < 4 && KeypadMoves(p)[d] != NULL
    ensures IsLabel(KeypadMoves(p)[d]) && KeypadMoves(KeypadMoves(p)[d])[Opposite(d)] == p
  {
    match p
    case 'A' =>
    case '0' =>
    case '1' =>
    case '2' =>
    case '3' =>
    case '4' =>
    case '5' =>
    case '6' =>
    case '7' =>
    case '8' =>
    case '9' =>
    case _ =>
  }

  /** ...and so can the directional keypad's. */
  lemma RobotReversible(p: char, d: nat)
    requires d < 4 && RobotMoves(p)[d] != NULL
    ensures IsLabel(RobotMoves(p)[d]) && RobotMoves(RobotMoves(p)[d])[Opposite(d)] == p
  {
    match p
    case 'A' =>
    case '<' =>
    case 'v' =>
    case '>' =>
    case '^' =>
    case _ =>
  }

  /** The state after the human presses action: a direction moves the first
      arm (by the numeric table when it is the only one), 'A' keeps the
      first arm and passes the button under it to the rest of the chain.
      None when an arm would leave its keypad, and when a press reaches past
      the last robot. */
  function NextState(s: State, action: char): (r: Option<State>)
    decreases |s|
    ensures r.Some? ==> |r.value| == |s|
    ensures s == [] ==> r == None
  {
    if |s| == 0 then None
    else if action == 'A' then
      match NextState(s[1..], s[0])
      case None => None
      case Some(t) => Some([s[0]] + t)
    else
      var moves := if |s| == 1 then KeypadMoves(s[0]) else RobotMoves(s[0]);
      var next := moves[Column(ActionOf(action))];
      if next == NULL then None else Some([next] + s[1..])
  }

  /** A direction key moves the first arm and nothing else, and the opposite
      key moves it back. */
  lemma MoveUndone(s: State, d: nat)
    requires d < 4 && NextState(s, DirKey(d)).Some?
    ensures var t := NextState(s, DirKey(d)).value;
      t[1..] == s[1..] && NextState(t, DirKey(Opposite(d))) == Some(s)
  {
    var t := NextState(s, DirKey(d)).value;
    if |s| == 1 {
      KeypadReversible(s[0], d);
    } else {
      RobotReversible(s[0], d);
    }
    assert t == [t[0]] + s[1..];
    assert [s[0]] + t[1..] == s;
  }

  /** 'A' travels down the arms that rest on 'A' and acts, at the first arm
      that rests elsewhere, on the robot behind it. */
  lemma {:induction false} PressActsBelow(s: State, k: nat)
    requires k + 1 < |s| && s[k] != 'A' && forall j | 0 <= j < k :: s[j] == 'A'
    ensures NextState(s, 'A') == match NextState(s[k + 1..], s[k])
                                 case None => None
                                 case Some(t) => Some(s[..k + 1] + t)
  {
    if k > 0 {
      PressActsBelow(s[1..], k - 1);
      assert s[1..][k..] == s[k + 1..];
      assert s[1..][..k] == s[1..k + 1];
      match NextState(s[k + 1..], s[k])
      case None =>
      case Some(t) =>
        assert [s[0]] + (s[1..k + 1] + t) == s[..k + 1] + t;
    } else {
      assert s[..1] == [s[0]];
    }
  }

  /** An arm chain resting on 'A' up to the keypad robot: 'A' presses the
      keypad button itself, which moves no robot, so there is no next state. */
  predicate Emits(s: State)
  {
    |s| >= 1 && forall j | 0 <= j < |s| - 1 :: s[j] == 'A'
  }

  lemma {:induction false} PressAtKeypad(s: State)
    requires Emits(s)
    ensures NextState(s, 'A') == None
  {
    if |s| > 1 {
      assert Emits(s[1..]) by {
        forall j | 0 <= j < |s[1..]| - 1
          ensures s[1..][j] == 'A'
        {
          assert s[1..][j] == s[j + 1];
        }
      }
      PressAtKeypad(s[1..]);
    }
  }

  // ---------------------------------------------------------------------
  // Key sequences

  /** The human's five keys. */
  predicate IsKey(c: char)
  {
    c == '^' || c == '>' || c == 'v' || c == '<' || c == 'A'
  }

  predicate Pressable(keys: seq<char>)
  {
    forall i | 0 <= i < |keys| :: IsKey(keys[i])
  }

  /** The state after the keys, one NextState at a time. */
  function Replay(s: State, keys: seq<char>): (r: Option<State>)
    ensures r.Some? ==> |r.value| == |s|
  {
    if keys == [] then Some(s)
    else
      match Replay(s, keys[..|keys| - 1])
      case None => None
      case Some(t) => NextState(t, keys[|keys| - 1])
  }

  /** Keys replayed after keys continue from where the first ones stopped. */
  lemma {:induction false} ReplayAppend(s: State, a: seq<char>, b: seq<char>)
    ensures Replay(s, a + b) == match Replay(s, a)
                                case None => None
                                case Some(t) => Replay(t, b)
  {
    if b == [] {
      assert a + b == a;
    } else {
      ReplayAppend(s, a, b[..|b| - 1]);
      assert (a + b)[..|a + b| - 1] == a + b[..|b| - 1];
    }
  }

  ghost predicate Reachable(from: State, to: State)
  {
    exists keys :: Pressable(keys) && Replay(from, keys) == Some(to)
  }

  /** No key sequence from from to to is shorter than n. */
  ghost predicate Fewest(from: State, to: State, n: nat)
  {
    forall keys :: Pressable(keys) && Replay(from, keys) == Some(to) ==> n <= |keys|
  }
}

module KeypadSearch {
  import opened Keypads

  // ---------------------------------------------------------------------
  // The states a search can meet

  /** Every rune a move table holds. */
  function Labels(): set<char>
  {
    {'A', '^', '>', 'v', '<', '0', '1', '2', '3', '4', '5', '6', '7', '8', '9'}
  }

  ghost predicate Over(w: State, sigma: set<char>)
  {
    forall i | 0 <= i < |w| :: w[i] in sigma
  }

  /** The runes a search from `from` can meet: its own and the tables'. */
  ghost function Sigma(from: State): set<char>
  {
    (set x | x in from) + Labels()
  }

  /** All states of n arms over sigma: a finite set. */
  ghost function Words(n: nat, sigma: set<char>): set<State>
  {
    if n == 0 then {[]} else set c, w | c in sigma && w in Words(n - 1, sigma) :: [c] + w
  }

  lemma {:induction false} InWords(n: nat, sigma: set<char>, w: State)
    requires |w| == n && Over(w, sigma)
    ensures w in Words(n, sigma)
  {
    if n > 0 {
      assert Over(w[1..], sigma) by {
        forall i | 0 <= i < |w[1..]|
          ensures w[1..][i] in sigma
        {
          assert w[1..][i] == w[i + 1];
        }
      }
      InWords(n - 1, sigma, w[1..]);
      assert [w[0]] + w[1..] == w;
    }
  }

  /** A move only ever puts a table's rune under an arm. */
  lemma {:induction false} NextOver(s: State, action: char, sigma: set<char>)
    requires Over(s, sigma) && Labels() <= sigma && NextState(s, action).Some?
    ensures Over(NextState(s, action).value, sigma)
    decreases |s|
  {
    var t := NextState(s, action).value;
    if action == 'A' {
      assert Over(s[1..], sigma) by {
        forall i | 0 <= i < |s[1..]|
          ensures s[1..][i] in sigma
        {
          assert s[1..][i] == s[i + 1];
        }
      }
      NextOver(s[1..], s[0], sigma);
      assert t == [s[0]] + NextState(s[1..], s[0]).value;
    } else {
      var d := Column(ActionOf(action));
      if |s| == 1 {
        KeypadReversible(s[0], d);
      } else {
        RobotReversible(s[0], d);
      }
      assert t[0] in Labels();
      forall i | 1 <= i < |t|
        ensures t[i] in sigma
      {
        assert t[i] == s[i];
      }
    }
  }

  lemma {:induction false} ReplayOver(from: State, keys: seq<char>)
    requires Replay(from, keys).Some?
    ensures Over(Replay(from, keys).value, Sigma(from))
  {
    if keys == [] {
      forall i | 0 <= i < |from|
        ensures from[i] in Sigma(from)
      {
        assert from[i] in from;
      }
    } else {
      ReplayOver(from, keys[..|keys| - 1]);
      NextOver(Replay(from, keys[..|keys| - 1]).value, keys[|keys| - 1], Sigma(from));
    }
  }

  /** The states a search from `from` can meet. */
  ghost function Universe(from: State): set<State>
  {
    Words(|from|, Sigma(from))
  }

  /** Finitely many states can be reached from `from`. */
  lemma FiniteReach(from: State) returns (u: set<State>)
    ensures forall keys | Replay(from, keys).Some? :: Replay(from, keys).value in u
  {
    u := Universe(from);
    forall keys | Replay(from, keys).Some?
      ensures Replay(from, keys).value in u
    {
      ReplayOver(from, keys);
      InWords(|from|, Sigma(from), Replay(from, keys).value);
    }
  }

  // ---------------------------------------------------------------------
  // The caches

  datatype CacheKey = CacheKey(from: State, to: State)

  /** A state a search has queued, with the keys that reached it. */
  datatype Frontier = Frontier(p: seq<char>, s: State)

  type Cache = map<CacheKey, seq<char>>

  /** Every cached path is made of keys and leads from its start to its
      target. */
  ghost predicate Replays(pc: Cache)
  {
    forall k | k in pc :: Pressable(pc[k]) && Replay(k.from, pc[k]) == Some(k.to)
  }

  /** The states a search from f has seen. */
  ghost function Seen(pc: Cache, f: State): set<State>
  {
    set k | k in pc && k.from == f :: k.to
  }

  /** Each queued state is seen, with the keys queued beside it. */
  ghost predicate Queued(pc: Cache, f: State, q: seq<Frontier>)
  {
    forall i | 0 <= i < |q| :: CacheKey(f, q[i].s) in pc && pc[CacheKey(f, q[i].s)] == q[i].p
  }

  /** pc' holds every entry of pc and adds entries for searches from f only. */
  ghost predicate Grown(pc: Cache, pc': Cache, f: State)
  {
    (forall k | k in pc :: k in pc' && pc'[k] == pc[k]) && (forall k | k in pc' && k !in pc :: k.from == f)
  }

  predicate InQueue(q: seq<Frontier>, t: State)
  {
    exists i | 0 <= i < |q| :: q[i].s == t
  }

  /** Breadth-first order: paths never get shorter along the queue, and all
      lie within one key of level. */
  ghost predicate Layered(q: seq<Frontier>, level: nat)
  {
    (forall i, j | 0 <= i <= j < |q| :: |q[i].p| <= |q[j].p|)
    && forall i | 0 <= i < |q| :: level <= |q[i].p| <= level + 1
  }

  function Level(q: seq<Frontier>): nat
  {
    if q == [] then 0 else |q[0].p|
  }

  /** Key c from t leads to a state the search from f has seen (or nowhere). */
  ghost predicate Followed(pc: Cache, f: State, t: State, c: char)
  {
    NextState(t, c).Some? ==> CacheKey(f, NextState(t, c).value) in pc
  }

  ghost predicate Expanded(pc: Cache, f: State, t: State)
  {
    forall c | IsKey(c) :: Followed(pc, f, t, c)
  }

  /** The search from f has seen t. (A predicate of its own, so that the
      invariants below are used only for states named on purpose.) */
  ghost predicate Known(pc: Cache, f: State, t: State)
  {
    CacheKey(f, t) in pc
  }

  /** Every seen state is queued, being expanded, or has all its successors
      seen. */
  ghost predicate Closed(pc: Cache, f: State, q: seq<Frontier>, pending: set<State>)
  {
    forall t | Known(pc, f, t) :: InQueue(q, t) || t in pending || Expanded(pc, f, t)
  }

  /** Every seen state was reached by a fewest-keys path. */
  ghost predicate Shortest(pc: Cache, f: State)
  {
    forall t | Known(pc, f, t) :: Fewest(f, t, |pc[CacheKey(f, t)]|)
  }

  /** The state a breadth-first search from f rests in between calls. */
  ghost predicate Settled(pc: Cache, f: State, q: seq<Frontier>)
  {
    CacheKey(f, f) in pc && Queued(pc, f, q) && Layered(q, Level(q)) && Closed(pc, f, q, {})
    && Shortest(pc, f)
  }

  // ---------------------------------------------------------------------
  // Why breadth-first order finds fewest keys

  /** Along keys from f to a state not seen there is a first step from a
      seen state to one that is not. */
  lemma {:induction false} FirstUnseen(pc: Cache, f: State, keys: seq<char>, t: State) returns (j: nat)
    requires CacheKey(f, f) in pc && Replay(f, keys) == Some(t) && CacheKey(f, t) !in pc
    ensures j < |keys| && Replay(f, keys[..j]).Some? && CacheKey(f, Replay(f, keys[..j]).value) in pc
    ensures !Followed(pc, f, Replay(f, keys[..j]).value, keys[j])
  {
    var init := keys[..|keys| - 1];
    var u := Replay(f, init).value;
    assert keys[..|keys| - 1] == init;
    if CacheKey(f, u) in pc {
      j := |keys| - 1;
    } else {
      j := FirstUnseen(pc, f, init, u);
      assert init[..j] == keys[..j] && init[j] == keys[j];
    }
  }

  /** A state first seen while expanding a state at level is no nearer than
      level + 1. */
  lemma NewIsFar(pc: Cache, f: State, q: seq<Frontier>, level: nat, s: State, n: State)
    requires CacheKey(f, f) in pc && Queued(pc, f, q) && Layered(q, level)
    requires Closed(pc, f, q, {s}) && Shortest(pc, f)
    requires CacheKey(f, s) in pc && |pc[CacheKey(f, s)]| == level
    requires CacheKey(f, n) !in pc
    ensures Fewest(f, n, level + 1)
  {
    forall keys | Pressable(keys) && Replay(f, keys) == Some(n)
      ensures level + 1 <= |keys|
    {
      var j := FirstUnseen(pc, f, keys, n);
      var u := Replay(f, keys[..j]).value;
      assert Known(pc, f, u) && Pressable(keys[..j]);
      assert !Expanded(pc, f, u) by {
        assert IsKey(keys[j]);
      }
      assert Fewest(f, u, |pc[CacheKey(f, u)]|);
      if u != s {
        var i :| 0 <= i < |q| && q[i].s == u;
        assert level <= |q[i].p|;
      }
    }
  }

  /** When nothing is queued or pending, every state the keys can reach
      from f has been seen. */
  lemma Unreachable(pc: Cache, f: State, to: State)
    requires CacheKey(f, f) in pc && Closed(pc, f, [], {}) && CacheKey(f, to) !in pc
    ensures !Reachable(f, to)
  {
    if Reachable(f, to) {
      var keys :| Pressable(keys) && Replay(f, keys) == Some(to);
      var j := FirstUnseen(pc, f, keys, to);
      assert Known(pc, f, Replay(f, keys[..j]).value);
    }
  }

  // ---------------------------------------------------------------------
  // One step of the search

  lemma SeenAdd(pc: Cache, f: State, n: State, p: seq<char>)
    ensures Seen(pc[CacheKey(f, n) := p], f) == Seen(pc, f) + {n}
  {
    var pc' := pc[CacheKey(f, n) := p];
    forall t | t in Seen(pc', f)
      ensures t in Seen(pc, f) + {n}
    {
      var k :| k in pc' && k.from == f && k.to == t;
      if k != CacheKey(f, n) {
        assert k in pc;
      }
    }
    forall t | t in Seen(pc, f) + {n}
      ensures t in Seen(pc', f)
    {
      assert CacheKey(f, t) in pc';
    }
  }

  lemma SeenHas(pc: Cache, f: State, n: State)
    ensures n in Seen(pc, f) <==> CacheKey(f, n) in pc
  {
    if n in Seen(pc, f) {
      var k :| k in pc && k.from == f && k.to == n;
      assert k == CacheKey(f, n);
    }
  }

  lemma FewerUnseen(u: set<State>, seen: set<State>, n: State)
    requires n in u && n !in seen
    ensures |u - (seen + {n})| < |u - seen|
  {
    assert u - seen == (u - (seen + {n})) + {n};
  }

  lemma LayeredAtFront(q: seq<Frontier>, level: nat)
    requires Layered(q, level) && q != []
    ensures Layered(q, Level(q))
  {
  }

  /** The search state while the keys from s are tried: s itself is the
      one seen state whose successors may be missing. */
  ghost predicate Expanding(pc: Cache, f: State, q: seq<Frontier>, level: nat, s: State, to: State)
  {
    CacheKey(f, f) in pc && Layered(q, level) && Closed(pc, f, q, {s}) && Shortest(pc, f)
    && CacheKey(f, s) in pc && |pc[CacheKey(f, s)]| == level && s != to
    && (CacheKey(f, to) in pc ==> InQueue(q, to))
  }

  /** Popping the front of a settled queue starts expanding it. */
  lemma PopStep(pc: Cache, f: State, q: seq<Frontier>, level: nat, to: State)
    requires CacheKey(f, f) in pc && Queued(pc, f, q) && Layered(q, level) && Closed(pc, f, q, {})
    requires Shortest(pc, f) && (CacheKey(f, to) in pc ==> InQueue(q, to))
    requires q != [] && q[0].s != to
    ensures Expanding(pc, f, q[1..], |q[0].p|, q[0].s, to)
  {
    var s := q[0].s;
    forall t | Known(pc, f, t)
      ensures InQueue(q[1..], t) || t in {s} || Expanded(pc, f, t)
    {
      if InQueue(q, t) && t != s {
        var i :| 0 <= i < |q| && q[i].s == t;
        assert q[1..][i - 1].s == t;
      }
    }
    if CacheKey(f, to) in pc {
      var i :| 0 <= i < |q| && q[i].s == to;
      assert q[1..][i - 1].s == to;
    }
  }

  /** Queueing n, first seen by key c from s, keeps every cached path
      sound and the queue in step with the cache. */
  lemma PushSound(pc0: Cache, pc: Cache, f: State, q: seq<Frontier>, p: seq<char>, s: State, c: char,
                  n: State)
    requires Replays(pc) && Grown(pc0, pc, f) && Queued(pc, f, q)
    requires Pressable(p) && Replay(f, p) == Some(s) && IsKey(c) && NextState(s, c) == Some(n)
    requires CacheKey(f, n) !in pc
    ensures Replays(pc[CacheKey(f, n) := p + [c]]) && Grown(pc0, pc[CacheKey(f, n) := p + [c]], f)
    ensures Queued(pc[CacheKey(f, n) := p + [c]], f, q + [Frontier(p + [c], n)])
  {
    assert (p + [c])[..|p + [c]| - 1] == p;
  }

  /** ...and keeps the search breadth-first: n is no nearer than level + 1. */
  lemma PushSettled(pc: Cache, f: State, q: seq<Frontier>, level: nat, p: seq<char>, s: State, c: char,
                    n: State, to: State)
    requires Queued(pc, f, q) && Expanding(pc, f, q, level, s, to) && |p| == level
    requires CacheKey(f, n) !in pc
    ensures Expanding(pc[CacheKey(f, n) := p + [c]], f, q + [Frontier(p + [c], n)], level, s, to)
  {
    var pc', q' := pc[CacheKey(f, n) := p + [c]], q + [Frontier(p + [c], n)];
    NewIsFar(pc, f, q, level, s, n);
    forall t | Known(pc', f, t)
      ensures InQueue(q', t) || t in {s} || Expanded(pc', f, t)
    {
      if t == n {
        assert q'[|q|].s == n;
      } else if InQueue(q, t) {
        var i :| 0 <= i < |q| && q[i].s == t;
        assert q'[i].s == t;
      } else if t !in {s} {
        assert Known(pc, f, t);
        assert Expanded(pc, f, t);
        forall c' | IsKey(c')
          ensures Followed(pc', f, t, c')
        {
          assert Followed(pc, f, t, c');
        }
      }
    }
    assert Shortest(pc', f) by {
      forall t | Known(pc', f, t)
        ensures Fewest(f, t, |pc'[CacheKey(f, t)]|)
      {
        if t != n {
          assert Known(pc, f, t);
          assert Fewest(f, t, |pc[CacheKey(f, t)]|);
        }
      }
    }
    if CacheKey(f, to) in pc' {
      if to == n {
        assert q'[|q|].s == to;
      } else {
        var i :| 0 <= i < |q| && q[i].s == to;
        assert q'[i].s == to;
      }
    }
    assert Layered(q', level) by {
      forall i, j | 0 <= i <= j < |q'|
        ensures |q'[i].p| <= |q'[j].p|
      {
        if j == |q| && i < |q| {
          assert |q[i].p| <= level + 1;
        }
      }
    }
  }

  /** Once every key from s has been followed, s is expanded. */
  lemma ExpandDone(pc: Cache, f: State, q: seq<Frontier>, level: nat, s: State, to: State)
    requires Expanding(pc, f, q, level, s, to) && Expanded(pc, f, s)
    ensures Closed(pc, f, q, {}) && Layered(q, level)
  {
  }

  /** Every state a replay from `from` reaches lies in u. */
  ghost predicate Inside(u: set<State>, from: State)
  {
    forall keys | Replay(from, keys).Some? :: Replay(from, keys).value in u
  }

  lemma InsideHas(u: set<State>, from: State, keys: seq<char>)
    requires Inside(u, from) && Replay(from, keys).Some?
    ensures Replay(from, keys).value in u
  {
  }

  lemma QueuedTail(pc: Cache, f: State, q: seq<Frontier>)
    requires Queued(pc, f, q) && q != []
    ensures Queued(pc, f, q[1..])
  {
    forall i | 0 <= i < |q| - 1
      ensures CacheKey(f, q[1..][i].s) in pc && pc[CacheKey(f, q[1..][i].s)] == q[1..][i].p
    {
      assert q[1..][i] == q[i + 1];
    }
  }

  /** The order in which FindShortestPath tries the keys: ^ > v < A. */
  function KeyOrder(k: nat): (c: char)
    requires k < 5
    ensures IsKey(c)
  {
    if k == 0 then '^' else if k == 1 then '>' else if k == 2 then 'v' else if k == 3 then '<' else 'A'
  }

  /** The keys before k in that order lead from t to states seen from f. */
  ghost predicate FollowedUpTo(pc: Cache, f: State, t: State, k: nat)
  {
    forall i | 0 <= i < k && i < 5 :: Followed(pc, f, t, KeyOrder(i))
  }

  /** One more key followed, in a cache that kept every entry. */
  lemma FollowedNext(pc: Cache, pc': Cache, f: State, t: State, k: nat)
    requires k < 5 && FollowedUpTo(pc, f, t, k) && (forall key | key in pc :: key in pc')
    requires Followed(pc', f, t, KeyOrder(k))
    ensures FollowedUpTo(pc', f, t, k + 1)
  {
    forall i | 0 <= i < k + 1 && i < 5
      ensures Followed(pc', f, t, KeyOrder(i))
    {
      if i < k {
        assert Followed(pc, f, t, KeyOrder(i));
      }
    }
  }

  /** All five keys followed: every key is. */
  lemma FollowedAll(pc: Cache, f: State, t: State)
    requires FollowedUpTo(pc, f, t, 5)
    ensures forall c | IsKey(c) :: Followed(pc, f, t, c)
  {
    forall c | IsKey(c)
      ensures Followed(pc, f, t, c)
    {
      assert c == KeyOrder(0) || c == KeyOrder(1) || c == KeyOrder(2) || c == KeyOrder(3) || c == KeyOrder(4);
    }
  }

  /** The inner loop of FindShortestPath (21-1/main.go, lines 160-172):
      from the popped state s, reached by keys p, try the keys ^ > v < A
      and queue, with its keys, each state they lead to that the search
      from `from` has not seen. Afterwards every key from s leads to a
      seen state; either nothing was queued or the search saw a new state
      of u. */
  method Expand(from: State, ghost to: State, pc0: Cache, q0: seq<Frontier>, p: seq<char>, s: State,
                ghost level: nat, ghost strong: bool, ghost u: set<State>)
    returns (pc: Cache, rest: seq<Frontier>)
    requires Replays(pc0) && Queued(pc0, from, q0) && Inside(u, from)
    requires CacheKey(from, s) in pc0 && pc0[CacheKey(from, s)] == p
    requires strong ==> Expanding(pc0, from, q0, level, s, to)
    ensures Replays(pc) && Grown(pc0, pc, from) && Queued(pc, from, rest)
    ensures Expanded(pc, from, s)
    ensures pc == pc0 ==> rest == q0
    ensures pc != pc0 ==> |u - Seen(pc, from)| < |u - Seen(pc0, from)|
    ensures strong ==> Expanding(pc, from, rest, level, s, to)
  {
    assert Pressable(p) && Replay(from, p) == Some(s);
    pc, rest := pc0, q0;
    for k := 0 to 5
      invariant Replays(pc) && Grown(pc0, pc, from) && Queued(pc, from, rest)
      invariant pc == pc0 ==> rest == q0
      invariant pc != pc0 ==> |u - Seen(pc, from)| < |u - Seen(pc0, from)|
      invariant FollowedUpTo(pc, from, s, k)
      invariant strong ==> Expanding(pc, from, rest, level, s, to)
    {
      var key := KeyOrder(k);
      var next := NextState(s, key);
      ghost var pc1 := pc;
      if next.Some? && CacheKey(from, next.value) !in pc {
        var newPath := p + [key];
        PushSound(pc0, pc, from, rest, p, s, key, next.value);
        if strong {
          PushSettled(pc, from, rest, level, p, s, key, next.value, to);
        }
        ReplayAppend(from, p, [key]);
        InsideHas(u, from, newPath);
        SeenAdd(pc, from, next.value, newPath);
        SeenHas(pc, from, next.value);
        FewerUnseen(u, Seen(pc, from), next.value);
        rest := rest + [Frontier(newPath, next.value)];
        pc := pc[CacheKey(from, next.value) := newPath];
      }
      FollowedNext(pc1, pc, from, s, k);
    }
    FollowedAll(pc, from, s);
  }

  /** A queue is its head followed by its tail. */
  lemma Uncons(q: seq<Frontier>)
    requires q != []
    ensures [q[0]] + q[1..] == q
  {
  }

  /** The loop of FindShortestPath (21-1/main.go, lines 148-175) over the
      queue q0: pop the front; stop with its keys when it is `to`; otherwise
      queue every state one key away that the search from `from` has not
      seen, trying the keys in the order ^ > v < A. Returns the cache, the
      queue left behind the popped target, and ok = false when the queue
      runs dry. With strong, the queue is a settled breadth-first frontier,
      and the keys returned are then a fewest-keys path, and a dry queue
      means `to` cannot be reached. */
  method Resume(from: State, to: State, pc0: Cache, q0: seq<Frontier>, ghost strong: bool)
    returns (path: seq<char>, ok: bool, pc: Cache, rest: seq<Frontier>)
    requires Replays(pc0) && Queued(pc0, from, q0)
    requires strong ==> Settled(pc0, from, q0) && (CacheKey(from, to) in pc0 ==> InQueue(q0, to))
    ensures Replays(pc) && Grown(pc0, pc, from)
    ensures ok ==> Pressable(path) && Replay(from, path) == Some(to)
    ensures ok ==> Queued(pc, from, [Frontier(path, to)] + rest)
    ensures !ok ==> path == [] && rest == []
    ensures q0 == [] ==> !ok && pc == pc0
    ensures q0 != [] && q0[0].s == to ==> ok && path == q0[0].p && rest == q0[1..] && pc == pc0
    ensures strong && ok ==> Settled(pc, from, [Frontier(path, to)] + rest) && Fewest(from, to, |path|)
    ensures strong && !ok ==> Settled(pc, from, []) && !Reachable(from, to)
  {
    pc, rest := pc0, q0;
    ghost var level: nat := Level(q0);
    ghost var u := FiniteReach(from);
    assert Inside(u, from);
    while |rest| > 0
      invariant Replays(pc) && Grown(pc0, pc, from) && Queued(pc, from, rest)
      invariant strong ==> CacheKey(from, from) in pc && Layered(rest, level) && Closed(pc, from, rest, {})
                           && Shortest(pc, from) && (CacheKey(from, to) in pc ==> InQueue(rest, to))
      invariant q0 != [] && q0[0].s == to ==> rest == q0 && pc == pc0
      invariant q0 == [] ==> rest == [] && pc == pc0
      decreases |u - Seen(pc, from)|, |rest|
    {
      var frontier := rest[0];
      ghost var q := rest;
      rest := rest[1..];
      if frontier.s == to {
        assert Frontier(frontier.p, to) == frontier;
        Uncons(q);
        if strong {
          LayeredAtFront(q, level);
        }
        return frontier.p, true, pc, rest;
      }
      if strong {
        PopStep(pc, from, q, level, to);
      }
      level := |frontier.p|;
      assert CacheKey(from, frontier.s) in pc && pc[CacheKey(from, frontier.s)] == frontier.p;
      QueuedTail(pc, from, q);
      pc, rest := Expand(from, to, pc, rest, frontier.p, frontier.s, level, strong, u);
      if strong {
        ExpandDone(pc, from, rest, level, frontier.s, to);
      }
    }
    if strong {
      Unreachable(pc, from, to);
    }
    return [], false, pc, [];
  }
}

module KeypadFinder {
  import opened Keypads
  import opened KeypadSearch

  /** Every queue of a search from f is in step with the cache. */
  lemma GrownQueued(pc: Cache, pc': Cache, f: State, g: State, q: seq<Frontier>)
    requires Queued(pc, g, q) && Grown(pc, pc', f)
    ensures Queued(pc', g, q)
  {
  }

  /** Growing the search from f leaves a settled search from g settled. */
  lemma GrownSettled(pc: Cache, pc': Cache, f: State, g: State, q: seq<Frontier>)
    requires Settled(pc, g, q) && Grown(pc, pc', f) && g != f
    ensures Settled(pc', g, q)
  {
    forall t | Known(pc', g, t)
      ensures InQueue(q, t) || Expanded(pc', g, t)
    {
      assert Known(pc, g, t);
      if !InQueue(q, t) {
        assert Expanded(pc, g, t);
        forall c | IsKey(c)
          ensures Followed(pc', g, t, c)
        {
          assert Followed(pc, g, t, c);
        }
      }
    }
    forall t | Known(pc', g, t)
      ensures Fewest(g, t, |pc'[CacheKey(g, t)]|)
    {
      assert Known(pc, g, t);
    }
  }

  /** A search from f that has seen nothing starts settled. */
  lemma FreshSettled(pc: Cache, f: State)
    requires Replays(pc) && forall k | k in pc :: k.from != f
    ensures Replays(pc[CacheKey(f, f) := []]) && Grown(pc, pc[CacheKey(f, f) := []], f)
    ensures Settled(pc[CacheKey(f, f) := []], f, [Frontier([], f)])
  {
    var pc' := pc[CacheKey(f, f) := []];
    forall t | Known(pc', f, t)
      ensures InQueue([Frontier([], f)], t)
    {
      assert [Frontier([], f)][0].s == t;
    }
  }

  lemma GrownTrans(pc: Cache, pc': Cache, pc'': Cache, f: State)
    requires Grown(pc, pc', f) && Grown(pc', pc'', f)
    ensures Grown(pc, pc'', f)
  {
  }

  /** Every search with cached paths is saved, and every saved search is a
      settled breadth-first search. */
  ghost predicate Consistent(pc: Cache, sc: map<State, seq<Frontier>>)
  {
    Replays(pc) && (forall k | k in pc :: k.from in sc) && forall f | f in sc :: Settled(pc, f, sc[f])
  }

  /** Saving a settled search from f, grown from consistent caches, keeps
      them consistent. */
  lemma SaveSearch(pc: Cache, pc': Cache, sc: map<State, seq<Frontier>>, f: State, q: seq<Frontier>)
    requires Consistent(pc, sc) && Replays(pc') && Grown(pc, pc', f) && Settled(pc', f, q)
    ensures Consistent(pc', sc[f := q])
  {
    var sc' := sc[f := q];
    forall g | g in sc'
      ensures Settled(pc', g, sc'[g])
    {
      if g != f {
        GrownSettled(pc, pc', f, g, sc[g]);
      }
    }
    forall k | k in pc'
      ensures k.from in sc'
    {
      if k !in pc {
        assert k.from == f;
      }
    }
  }

  /** Cache entries of searches from other starts are left as they were. */
  ghost predicate OthersKept(pc: Cache, pc': Cache, f: State)
  {
    (forall k | k in pc && k.from != f :: k in pc' && pc'[k] == pc[k])
    && (forall k | k in pc' && k.from != f :: k in pc)
  }

  /** The package-level PathCache and SearchCache of 21-1/main.go (lines
      114-125) and FindShortestPath (lines 128-176), which resumes the
      search from a start where an earlier call left it. */
  class PathFinder {
    var PathCache: Cache
    var SearchCache: map<State, seq<Frontier>>

    /** Both caches stay in step: cached paths lead where they say and
        every saved queue holds cached states with their paths. */
    ghost predicate Sane()
      reads this
    {
      Replays(PathCache) && forall f | f in SearchCache :: Queued(PathCache, f, SearchCache[f])
    }

    /** The corrected caches: every search with cached paths is saved, and
        every saved search is a settled breadth-first search. */
    ghost predicate Valid()
      reads this
    {
      Consistent(PathCache, SearchCache)
    }

    constructor ()
      ensures PathCache == map[] && SearchCache == map[]
      ensures Sane() && Valid()
    {
      PathCache := map[];
      SearchCache := map[];
    }

    /** FindShortestPath with the saved queue mended: the popped target
        goes back on the front of the saved queue, and a search that runs
        dry saves an empty queue. The path returned is a fewest-keys path,
        and no path means none exists. */
    method FindShortestPath(from: State, to: State) returns (path: seq<char>, ok: bool)
      requires Valid()
      modifies this
      ensures Valid()
      ensures ok ==> Pressable(path) && Replay(from, path) == Some(to) && Fewest(from, to, |path|)
      ensures !ok ==> !Reachable(from, to)
      ensures Grown(old(PathCache), PathCache, from)
      ensures old(CacheKey(from, to) in PathCache) ==> ok && path == old(PathCache[CacheKey(from, to)])
                                                       && unchanged(this)
    {
      var pc := PathCache;
      var q: seq<Frontier>;
      if from in SearchCache {
        if CacheKey(from, to) in PathCache {
          assert Known(PathCache, from, to);
          return PathCache[CacheKey(from, to)], true;
        }
        q := SearchCache[from];
      } else {
        FreshSettled(pc, from);
        pc := pc[CacheKey(from, from) := []];
        q := [Frontier([], from)];
        if CacheKey(from, to) in pc {
          assert [Frontier([], from)][0].s == to;
        }
      }
      var pc1, rest;
      path, ok, pc1, rest := Resume(from, to, pc, q, true);
      var saved := if ok then [Frontier(path, to)] + rest else [];
      GrownTrans(PathCache, pc, pc1, from);
      SaveSearch(PathCache, pc1, SearchCache, from, saved);
      PathCache := pc1;
      SearchCache := SearchCache[from := saved];
    }

    /** FindShortestPath as written: a found target is popped and not
        saved, and a search that runs dry leaves SearchCache as it was.
        The caches stay in step and any path returned is a real one. */
    method FindShortestPathAsWritten(from: State, to: State) returns (path: seq<char>, ok: bool)
      requires Sane()
      modifies this
      ensures Sane()
      ensures ok ==> Pressable(path) && Replay(from, path) == Some(to)
      ensures OthersKept(old(PathCache), PathCache, from)
      ensures forall f | f != from :: (f in SearchCache <==> f in old(SearchCache))
      ensures forall f | f in old(SearchCache) && f != from :: SearchCache[f] == old(SearchCache[f])
      ensures old(from in SearchCache && CacheKey(from, to) in PathCache)
              ==> ok && path == old(PathCache[CacheKey(from, to)]) && unchanged(this)
      ensures old(from in SearchCache && CacheKey(from, to) !in PathCache && SearchCache[from] == [])
              ==> !ok && unchanged(this)
      ensures old(from !in SearchCache) && from == to
              ==> ok && path == [] && SearchCache == old(SearchCache)[from := []]
                  && PathCache == old(PathCache)[CacheKey(from, from) := []]
    {
      var pc := PathCache;
      var q: seq<Frontier>;
      if from in SearchCache {
        if CacheKey(from, to) in PathCache {
          return PathCache[CacheKey(from, to)], true;
        }
        q := SearchCache[from];
      } else {
        pc := pc[CacheKey(from, from) := []];
        q := [Frontier([], from)];
      }
      var pc1, rest;
      path, ok, pc1, rest := Resume(from, to, pc, q, false);
      forall g | g in SearchCache
        ensures Queued(pc1, g, SearchCache[g])
      {
        assert Queued(PathCache, g, SearchCache[g]);
        GrownQueued(pc, pc1, from, g, SearchCache[g]);
      }
      PathCache := pc1;
      if ok {
        QueuedTail(pc1, from, [Frontier(path, to)] + rest);
        assert ([Frontier(path, to)] + rest)[1..] == rest;
        SearchCache := SearchCache[from := rest];
      }
    }
  }
}

module KeypadStranded {
  import opened Keypads
  import opened KeypadSearch
  import opened KeypadFinder

  /** Keys that step through the states one by one replay from the first
      state to the last. */
  lemma {:induction false} ReplaySteps(keys: seq<char>, states: seq<State>)
    requires |states| == |keys| + 1
    requires forall i | 0 <= i < |keys| :: NextState(states[i], keys[i]) == Some(states[i + 1])
    ensures Replay(states[0], keys) == Some(states[|keys|])
  {
    if keys != [] {
      var n := |keys| - 1;
      ReplaySteps(keys[..n], states[..n + 1]);
      assert keys[..n][..n] == keys[..n];
    }
  }

  // The nine steps, three at a time.
  lemma FirstSteps()
    ensures NextState("AA1", 'v') == Some(">A1")
    ensures NextState(">A1", '<') == Some("vA1")
    ensures NextState("vA1", 'A') == Some("v>1")
  {
    assert NextState("AA1", 'v') == Some(">A1") by {
      assert ActionOf('v') == Down && Column(Down) == 2 && RobotMoves('A')[2] == '>';
      assert ['>'] + "AA1"[1..] == ">A1";
    }
    assert NextState(">A1", '<') == Some("vA1") by {
      assert ActionOf('<') == Left && Column(Left) == 3 && RobotMoves('>')[3] == 'v';
      assert ['v'] + ">A1"[1..] == "vA1";
    }
    assert "vA1"[1..] == "A1";
    assert NextState("A1", 'v') == Some(">1") by {
      assert RobotMoves('A')[2] == '>' && ['>'] + "A1"[1..] == ">1";
    }
    assert ['v'] + ">1" == "v>1";
  }

  lemma MiddleSteps()
    ensures NextState("v>1", '^') == Some("^>1")
    ensures NextState("^>1", '>') == Some("A>1")
    ensures NextState("A>1", 'A') == Some("A>2")
  {
    assert NextState("v>1", '^') == Some("^>1") by {
      assert ActionOf('^') == Up && Column(Up) == 0 && RobotMoves('v')[0] == '^';
      assert ['^'] + "v>1"[1..] == "^>1";
    }
    assert NextState("^>1", '>') == Some("A>1") by {
      assert ActionOf('>') == Right && Column(Right) == 1 && RobotMoves('^')[1] == 'A';
      assert ['A'] + "^>1"[1..] == "A>1";
    }
    assert "A>1"[1..] == ">1" && ">1"[1..] == "1";
    assert NextState("1", '>') == Some("2") by {
      assert KeypadMoves('1')[1] == '2' && ['2'] + "1"[1..] == "2";
    }
    assert ['>'] + "2" == ">2" && ['A'] + ">2" == "A>2";
  }

  lemma LastSteps()
    ensures NextState("A>2", '<') == Some("^>2")
    ensures NextState("^>2", 'A') == Some("^A2")
    ensures NextState("^A2", '>') == Some("AA2")
  {
    assert NextState("A>2", '<') == Some("^>2") by {
      assert ActionOf('<') == Left && Column(Left) == 3 && RobotMoves('A')[3] == '^';
      assert ['^'] + "A>2"[1..] == "^>2";
    }
    assert "^>2"[1..] == ">2";
    assert NextState(">2", '^') == Some("A2") by {
      assert ActionOf('^') == Up && Column(Up) == 0;
      assert RobotMoves('>')[0] == 'A' && ['A'] + ">2"[1..] == "A2";
    }
    assert ['^'] + "A2" == "^A2";
    assert NextState("^A2", '>') == Some("AA2") by {
      assert ActionOf('>') == Right && Column(Right) == 1 && RobotMoves('^')[1] == 'A';
      assert ['A'] + "^A2"[1..] == "AA2";
    }
  }

  /** Nine keys take the arms from A A 1 to A A 2. */
  lemma OneToTwo()
    ensures Reachable("AA1", "AA2")
  {
    var keys := "v<A^>A<A>";
    var states := ["AA1", ">A1", "vA1", "v>1", "^>1", "A>1", "A>2", "^>2", "^A2", "AA2"];
    FirstSteps();
    MiddleSteps();
    LastSteps();
    forall i | 0 <= i < 9
      ensures NextState(states[i], keys[i]) == Some(states[i + 1])
    {
      assert i == 0 || i == 1 || i == 2 || i == 3 || i == 4 || i == 5 || i == 6 || i == 7 || i == 8;
    }
    assert Pressable(keys);
    ReplaySteps(keys, states);
  }

  /** The searches main makes for the code 112A, with the caches as
      written: after the search from A A 1 to itself saves an empty queue,
      the search from A A 1 to A A 2 finds nothing, though A A 2 can be
      reached. */
  method Stranded() returns (found: bool)
    ensures !found && Reachable("AA1", "AA2")
  {
    var finder := new PathFinder();
    var _, _ := finder.FindShortestPathAsWritten("AAA", "AA1");
    var _, _ := finder.FindShortestPathAsWritten("AA1", "AA1");
    var _, ok := finder.FindShortestPathAsWritten("AA1", "AA2");
    OneToTwo();
    return ok;
  }
}
