// Day 21, part 2: a chain of 26 machines, the numeric keypad last and the
// human first. Machine.Press(from, to) counts the human keys needed to
// move one machine's arm from one button to another and press it, by a
// cheapest-first search whose moves cost what the parent machine needs to
// press the matching direction key.

module RobotActions {
  import K = Keypads

  /** The Action of 21-2: the four directions, the press key, and the
      Invalid marker for runes that are no key. */
  datatype Action = Up | Right | Down | Left | PressOld | Invalid

  /** Action(i) for a table column i. */
  function OfColumn(i: nat): (a: Action)
    requires i < 4
    ensures a != PressOld && a != Invalid
  {
    if i == 0 then Up else if i == 1 then Right else if i == 2 then Down else Left
  }

  /** The table column of a direction. */
  function ColumnOf(a: Action): (i: nat)
    requires a != PressOld && a != Invalid
    ensures i < 4 && OfColumn(i) == a
  {
    match a
    case Up => 0
    case Right => 1
    case Down => 2
    case Left => 3
  }

  /** ActionReverse, read as Go reads a map: Invalid, which is not a key
      of the map, gives the zero Action, Up. A direction turns into the
      one whose column the tables call opposite. */
  function Reverse(a: Action): (r: Action)
    ensures a != PressOld && a != Invalid
            ==> r != PressOld && r != Invalid && ColumnOf(r) == K.Opposite(ColumnOf(a))
    ensures a == PressOld <==> r == PressOld
  {
    match a
    case Up => Down
    case Right => Left
    case Down => Up
    case Left => Right
    case PressOld => PressOld
    case Invalid => Up
  }

  lemma ReverseInvolution(a: Action)
    requires a != Invalid
    ensures Reverse(Reverse(a)) == a
  {
  }

  /** Action.State: the key of an action; Invalid, missing from ActionMap,
      gives the zero State, NULL. */
  function KeyOf(a: Action): (s: char)
    ensures s == K.NULL <==> a == Invalid
    ensures a != Invalid ==> K.IsKey(s)
  {
    match a
    case Up => '^'
    case Right => '>'
    case Down => 'v'
    case Left => '<'
    case PressOld => 'A'
    case Invalid => K.NULL
  }

  /** State.Action: the action of a key, Invalid for any other rune. */
  function ActionOf(s: char): (a: Action)
    ensures a == Invalid <==> !K.IsKey(s)
  {
    match s
    case '^' => Up
    case '>' => Right
    case 'v' => Down
    case '<' => Left
    case 'A' => PressOld
    case _ => Invalid
  }

  lemma KeyRoundTrip(a: Action, s: char)
    ensures a != Invalid ==> ActionOf(KeyOf(a)) == a
    ensures K.IsKey(s) ==> KeyOf(ActionOf(s)) == s
  {
  }
}

module RobotWalks {
  import K = Keypads

  /** The move table of a machine: keypadMoves for the numeric keypad,
      robotMoves for a robot; a rune with no row gives four NULLs. */
  function Row(keypad: bool, s: char): (r: seq<char>)
    ensures |r| == 4
  {
    if keypad then K.KeypadMoves(s) else K.RobotMoves(s)
  }

  predicate Adjacent(keypad: bool, a: char, b: char)
  {
    b != K.NULL && b in Row(keypad, a)
  }

  /** A sequence of buttons, each one move from the one before. */
  ghost predicate IsWalk(keypad: bool, w: seq<char>)
  {
    |w| >= 1 && forall i | 0 <= i < |w| - 1 :: Adjacent(keypad, w[i], w[i + 1])
  }

  /** n moves take the arm from a to b. */
  ghost predicate Steps(keypad: bool, a: char, b: char, n: nat)
  {
    exists w :: IsWalk(keypad, w) && |w| == n + 1 && w[0] == a && w[n] == b
  }

  ghost predicate Reach(keypad: bool, a: char, b: char)
  {
    exists n: nat :: Steps(keypad, a, b, n)
  }

  lemma StepsZero(keypad: bool, a: char)
    ensures Steps(keypad, a, a, 0) && Reach(keypad, a, a)
  {
    assert IsWalk(keypad, [a]);
  }

  lemma StepsSnoc(keypad: bool, a: char, b: char, n: nat, c: char)
    requires Steps(keypad, a, b, n) && Adjacent(keypad, b, c)
    ensures Steps(keypad, a, c, n + 1) && Reach(keypad, a, c)
  {
    var w :| IsWalk(keypad, w) && |w| == n + 1 && w[0] == a && w[n] == b;
    var w' := w + [c];
    assert w'[n] == b && w'[n + 1] == c;
    assert IsWalk(keypad, w') by {
      forall i | 0 <= i < |w'| - 1
        ensures Adjacent(keypad, w'[i], w'[i + 1])
      {
        if i < n {
          assert w'[i] == w[i] && w'[i + 1] == w[i + 1];
        }
      }
    }
  }

  lemma ReachSnoc(keypad: bool, a: char, b: char, c: char)
    requires Reach(keypad, a, b) && Adjacent(keypad, b, c)
    ensures Reach(keypad, a, c)
  {
    var n: nat :| Steps(keypad, a, b, n);
    StepsSnoc(keypad, a, b, n, c);
  }

  /** No walk leaves a set of buttons that holds every move out of it. */
  ghost predicate Shut(keypad: bool, vis: set<char>)
  {
    forall s | s in vis :: forall d | 0 <= d < 4 :: Row(keypad, s)[d] == K.NULL || Row(keypad, s)[d] in vis
  }

  lemma {:induction false} ShutWalk(keypad: bool, vis: set<char>, w: seq<char>)
    requires Shut(keypad, vis) && IsWalk(keypad, w) && w[0] in vis
    ensures w[|w| - 1] in vis
  {
    if |w| > 1 {
      var w' := w[..|w| - 1];
      assert IsWalk(keypad, w') by {
        forall i | 0 <= i < |w'| - 1
          ensures Adjacent(keypad, w'[i], w'[i + 1])
        {
          assert w'[i] == w[i] && w'[i + 1] == w[i + 1];
        }
      }
      ShutWalk(keypad, vis, w');
      var s, t := w[|w| - 2], w[|w| - 1];
      assert Adjacent(keypad, s, t);
      var d :| 0 <= d < 4 && Row(keypad, s)[d] == t;
    }
  }

  lemma ShutOut(keypad: bool, vis: set<char>, a: char, b: char)
    requires Shut(keypad, vis) && a in vis && b !in vis
    ensures !Reach(keypad, a, b)
  {
    if Reach(keypad, a, b) {
      var n: nat :| Steps(keypad, a, b, n);
      var w :| IsWalk(keypad, w) && |w| == n + 1 && w[0] == a && w[n] == b;
      ShutWalk(keypad, vis, w);
    }
  }

  /** On the directional keypad every key can reach A. */
  lemma RobotHome(x: char)
    requires K.IsKey(x)
    ensures Reach(false, x, 'A')
  {
    StepsZero(false, x);
    if x == '^' {
      assert K.RobotMoves('^')[1] == 'A';
      ReachSnoc(false, '^', '^', 'A');
    } else if x == '>' {
      assert K.RobotMoves('>')[0] == 'A';
      ReachSnoc(false, '>', '>', 'A');
    } else if x == 'v' {
      assert K.RobotMoves('v')[1] == '>' && K.RobotMoves('>')[0] == 'A';
      ReachSnoc(false, 'v', 'v', '>');
      ReachSnoc(false, 'v', '>', 'A');
    } else if x == '<' {
      assert K.RobotMoves('<')[1] == 'v' && K.RobotMoves('v')[1] == '>' && K.RobotMoves('>')[0] == 'A';
      ReachSnoc(false, '<', '<', 'v');
      ReachSnoc(false, '<', 'v', '>');
      ReachSnoc(false, '<', '>', 'A');
    }
  }

  /** On the directional keypad every key can reach every key: through A. */
  lemma RobotConnected(x: char, y: char)
    requires K.IsKey(x) && K.IsKey(y)
    ensures Reach(false, x, y)
  {
    RobotHome(x);
    assert K.RobotMoves('A')[2] == '>' && K.RobotMoves('A')[3] == '^';
    assert K.RobotMoves('>')[3] == 'v' && K.RobotMoves('v')[3] == '<';
    if y == '^' {
      ReachSnoc(false, x, 'A', '^');
    } else if y != 'A' {
      ReachSnoc(false, x, 'A', '>');
      if y != '>' {
        ReachSnoc(false, x, '>', 'v');
        if y == '<' {
          ReachSnoc(false, x, 'v', '<');
        }
      }
    }
  }
}

/** What the human's keys do to the chain: each arm acts on the keys its
    parent presses, the first arm of the list on the door keypad (or on
    whatever pad the list starts on) and the last one on the human's
    keys. */
module ChainKeys {
  import K = Keypads
  import opened RobotActions
  import opened RobotWalks

  datatype Option<T> = None | Some(value: T)

  /** The actions in order, on one arm resting on s: where it ends and
      what it emits, None once it would leave the pad. */
  function ActAll(keypad: bool, s: char, acts: seq<Action>): Option<(char, seq<char>)>
    decreases |acts|, 1
  {
    if acts == [] then Some((s, [])) else Act(keypad, s, acts[0], acts[1..])
  }

  /** Action a on an arm resting on s, then the rest: a direction moves
      the arm along the table (None off the pad), the press key presses
      the button under it and emits that button. */
  function Act(keypad: bool, s: char, a: Action, rest: seq<Action>): Option<(char, seq<char>)>
    decreases |rest| + 1, 0
  {
    if a == PressOld then
      match ActAll(keypad, s, rest)
      case None => None
      case Some((s2, o2)) => Some((s2, [s] + o2))
    else if a == Invalid then None
    else
      var next := Row(keypad, s)[ColumnOf(a)];
      if next == K.NULL then None else ActAll(keypad, next, rest)
  }

  /** One action alone. */
  function Step(keypad: bool, s: char, a: Action): Option<(char, seq<char>)>
  {
    Act(keypad, s, a, [])
  }

  /** The actions the keys of out stand for. */
  function ActionsOf(out: seq<char>): (r: seq<Action>)
    ensures |r| == |out|
  {
    if out == [] then [] else [ActionOf(out[0])] + ActionsOf(out[1..])
  }

  /** The human's keys on a chain of arms, arms[0] the one whose buttons
      are the output, arms[|arms| - 1] the one the human drives: the arms
      afterwards and the buttons arms[0] pressed. */
  function Drive(keypad: bool, arms: seq<char>, keys: seq<Action>): (r: Option<(seq<char>, seq<char>)>)
    requires |arms| >= 1
    ensures r.Some? ==> |r.value.0| == |arms|
    decreases |arms|
  {
    if |arms| == 1 then
      match ActAll(keypad, arms[0], keys)
      case None => None
      case Some((s, o)) => Some(([s], o))
    else
      match Drive(false, arms[1..], keys)
      case None => None
      case Some((up, o)) =>
        match ActAll(keypad, arms[0], ActionsOf(o))
        case None => None
        case Some((s, o0)) => Some(([s] + up, o0))
  }

  /** n human keys take the arms from arms to arms' and press out. */
  ghost predicate Types(keypad: bool, arms: seq<char>, arms': seq<char>, out: seq<char>, n: nat)
    requires |arms| >= 1
  {
    exists keys :: |keys| == n && Drive(keypad, arms, keys) == Some((arms', out))
  }

  /** h arms resting on A. */
  function Home(h: nat): (r: seq<char>)
    ensures |r| == h
  {
    if h == 0 then [] else ['A'] + Home(h - 1)
  }

  /** The arms above a machine of height h: the parent on p, the rest on A. */
  function Above(p: char, h: nat): (r: seq<char>)
    ensures |r| == h
  {
    if h == 0 then [] else [p] + Home(h - 1)
  }

  lemma {:induction false} ActAllAppend(keypad: bool, s: char, a: seq<Action>, b: seq<Action>,
                                        s1: char, o1: seq<char>, s2: char, o2: seq<char>)
    requires ActAll(keypad, s, a) == Some((s1, o1)) && ActAll(keypad, s1, b) == Some((s2, o2))
    ensures ActAll(keypad, s, a + b) == Some((s2, o1 + o2))
    decreases |a|
  {
    if a != [] {
      var x, r := a[0], a[1..];
      assert (a + b)[0] == x && (a + b)[1..] == r + b;
      assert ActAll(keypad, s, a) == Act(keypad, s, x, r);
      assert ActAll(keypad, s, a + b) == Act(keypad, s, x, r + b);
      if x == PressOld {
        var m := ActAll(keypad, s, r).value;
        ActAllAppend(keypad, s, r, b, m.0, m.1, s2, o2);
        assert [s] + (m.1 + o2) == ([s] + m.1) + o2;
      } else {
        ActAllAppend(keypad, Row(keypad, s)[ColumnOf(x)], r, b, s1, o1, s2, o2);
      }
    } else {
      assert s1 == s && o1 == [] && a + b == b && o1 + o2 == o2;
    }
  }

  lemma {:induction false} ActionsAppend(a: seq<char>, b: seq<char>)
    ensures ActionsOf(a + b) == ActionsOf(a) + ActionsOf(b)
  {
    if a == [] {
      assert a + b == b;
    } else {
      assert (a + b)[0] == a[0] && (a + b)[1..] == a[1..] + b;
      ActionsAppend(a[1..], b);
    }
  }

  lemma {:induction false} DriveAppend(keypad: bool, arms: seq<char>, a: seq<Action>, b: seq<Action>,
                                       arms1: seq<char>, o1: seq<char>, arms2: seq<char>, o2: seq<char>)
    requires |arms| >= 1 && |arms1| >= 1
    requires Drive(keypad, arms, a) == Some((arms1, o1)) && Drive(keypad, arms1, b) == Some((arms2, o2))
    ensures Drive(keypad, arms, a + b) == Some((arms2, o1 + o2))
    decreases |arms|
  {
    if |arms| == 1 {
      ActAllAppend(keypad, arms[0], a, b, arms1[0], o1, arms2[0], o2);
    } else {
      var u1 := Drive(false, arms[1..], a).value;
      assert arms1 == [arms1[0]] + u1.0;
      assert arms1[1..] == u1.0;
      var u2 := Drive(false, arms1[1..], b).value;
      DriveAppend(false, arms[1..], a, b, u1.0, u1.1, u2.0, u2.1);
      ActionsAppend(u1.1, u2.1);
      ActAllAppend(keypad, arms[0], ActionsOf(u1.1), ActionsOf(u2.1), arms1[0], o1, arms2[0], o2);
    }
  }

  /** Key sequences compose: the arms one leaves are the arms the next
      starts from. */
  lemma TypesAppend(keypad: bool, arms: seq<char>, arms1: seq<char>, arms2: seq<char>,
                    o1: seq<char>, o2: seq<char>, n1: nat, n2: nat)
    requires |arms| >= 1 && |arms1| >= 1
    requires Types(keypad, arms, arms1, o1, n1) && Types(keypad, arms1, arms2, o2, n2)
    ensures Types(keypad, arms, arms2, o1 + o2, n1 + n2)
  {
    var a :| |a| == n1 && Drive(keypad, arms, a) == Some((arms1, o1));
    var b :| |b| == n2 && Drive(keypad, arms1, b) == Some((arms2, o2));
    DriveAppend(keypad, arms, a, b, arms1, o1, arms2, o2);
  }

  lemma {:induction false} DriveNone(keypad: bool, arms: seq<char>)
    requires |arms| >= 1
    ensures Drive(keypad, arms, []) == Some((arms, []))
    decreases |arms|
  {
    if |arms| > 1 {
      DriveNone(false, arms[1..]);
      assert ActionsOf([]) == [];
      assert [arms[0]] + arms[1..] == arms;
    } else {
      assert [arms[0]] == arms;
    }
  }

  /** No keys, no change. */
  lemma TypesZero(keypad: bool, arms: seq<char>)
    requires |arms| >= 1
    ensures Types(keypad, arms, arms, [], 0)
  {
    DriveNone(keypad, arms);
  }

  /** Pressing leaves the arm where it is and outputs its button. */
  lemma PressStep(keypad: bool, s: char)
    ensures Step(keypad, s, PressOld) == Some((s, [s]))
  {
    assert ActAll(keypad, s, []) == Some((s, []));
    var none: seq<char> := [];
    assert [s] + none == [s];
  }

  /** The human drives the machine directly: one key, one action. */
  lemma TypesTop(keypad: bool, s: char, a: Action, s': char, o: seq<char>)
    requires Step(keypad, s, a) == Some((s', o))
    ensures Types(keypad, [s], [s'], o, 1)
  {
    assert [a][1..] == [];
    assert ActAll(keypad, s, [a]) == Act(keypad, s, a, []);
    assert Drive(keypad, [s], [a]) == Some(([s'], o));
  }

  /** Keys that make the parent press key, its own parents back on A,
      make this machine do key's action. */
  lemma TypesLift(keypad: bool, s: char, p: char, h: nat, key: char, s': char, o: seq<char>, n: nat)
    requires h >= 1 && Types(false, [p] + Home(h - 1), [key] + Home(h - 1), [key], n)
    requires Step(keypad, s, ActionOf(key)) == Some((s', o))
    ensures Types(keypad, [s] + Above(p, h), [s'] + Above(key, h), o, n)
  {
    var keys :| |keys| == n && Drive(false, [p] + Home(h - 1), keys) == Some(([key] + Home(h - 1), [key]));
    var arms := [s] + Above(p, h);
    assert arms[1..] == [p] + Home(h - 1);
    assert ActionsOf([key]) == [ActionOf(key)];
    assert [ActionOf(key)][1..] == [];
    assert ActAll(keypad, s, [ActionOf(key)]) == Act(keypad, s, ActionOf(key), []);
    assert o + [] == o;
    assert Drive(keypad, arms, keys) == Some(([s'] + ([key] + Home(h - 1)), o));
    assert [s'] + ([key] + Home(h - 1)) == [s'] + Above(key, h);
  }

  /** With every arm above on A, one human press presses the button
      under the first arm. */
  lemma {:induction false} PressHere(keypad: bool, s: char, h: nat)
    ensures Types(keypad, [s] + Home(h), [s] + Home(h), [s], 1)
    decreases h
  {
    if h == 0 {
      assert [s] + Home(0) == [s];
      PressStep(keypad, s);
      TypesTop(keypad, s, PressOld, s, [s]);
    } else {
      PressHere(false, 'A', h - 1);
      assert Home(h) == ['A'] + Home(h - 1);
      assert Above('A', h) == Home(h);
      assert ActionOf('A') == PressOld;
      PressStep(keypad, s);
      TypesLift(keypad, s, 'A', h, 'A', s, [s], 1);
    }
  }
}

module RobotSearch {
  import K = Keypads
  import S = KeypadSearch
  import opened RobotWalks

  datatype CacheKey = CacheKey(from: char, to: char)

  /** A queued button S, the parent's arm ParentS after the moves that
      reached it, the human keys D spent, and whether S has been pressed. */
  datatype QueueItem = QueueItem(S: char, ParentS: char, D: int, Pressing: bool)

  /** The buttons a search from `from` can queue. */
  function Universe(from: char): set<char>
  {
    S.Labels() + {from}
  }

  lemma RowInUniverse(keypad: bool, s: char, d: nat, from: char)
    requires d < 4 && Row(keypad, s)[d] != K.NULL
    ensures Row(keypad, s)[d] in Universe(from) && Adjacent(keypad, s, Row(keypad, s)[d])
  {
    if keypad {
      K.KeypadReversible(s, d);
    } else {
      K.RobotReversible(s, d);
    }
  }

  /** Item i has the smallest D: what heap.Pop returns, ties broken in an
      order the model leaves open. */
  predicate Least(q: seq<QueueItem>, i: nat)
  {
    i < |q| && forall j | 0 <= j < |q| :: q[i].D <= q[j].D
  }

  lemma {:induction false} LeastExists(q: seq<QueueItem>)
    requires q != []
    ensures exists i: nat :: Least(q, i)
  {
    if |q| > 1 {
      LeastExists(q[1..]);
      var i: nat :| Least(q[1..], i);
      if q[0].D <= q[1..][i].D {
        assert Least(q, 0) by {
          forall j | 0 <= j < |q|
            ensures q[0].D <= q[j].D
          {
            if j > 0 {
              assert q[j] == q[1..][j - 1];
            }
          }
        }
      } else {
        assert Least(q, i + 1) by {
          forall j | 0 <= j < |q|
            ensures q[i + 1].D <= q[j].D
          {
            if j > 0 {
              assert q[j] == q[1..][j - 1];
            }
          }
        }
      }
    } else {
      assert Least(q, 0);
    }
  }

  function Remove(q: seq<QueueItem>, i: nat): (r: seq<QueueItem>)
    requires i < |q|
    ensures |r| == |q| - 1
    ensures forall j | 0 <= j < |q| && j != i :: q[j] in r
  {
    assert forall j | 0 <= j < |q| && j > i :: q[j] == (q[..i] + q[i + 1..])[j - 1];
    assert forall j | 0 <= j < i :: q[j] == (q[..i] + q[i + 1..])[j];
    q[..i] + q[i + 1..]
  }

  /** What a queued item promises: S can be reached from `from` and lies
      in the universe; D counts human keys (the moves themselves, one key
      each, when the human drives this machine); only the target is ever
      pressed, and only through a parent; a parent's arm is on a key. */
  ghost predicate ItemOk(keypad: bool, top: bool, from: char, to: char, it: QueueItem)
  {
    it.S in Universe(from) && Reach(keypad, from, it.S) && it.D >= 0
    && (it.Pressing ==> !top && it.S == to && it.D >= 1)
    && (!top ==> K.IsKey(it.ParentS))
    && (top ==> !it.Pressing && Steps(keypad, from, it.S, it.D))
  }

  predicate Pending(q: seq<QueueItem>, s: char)
  {
    exists i | 0 <= i < |q| :: q[i].S == s
  }

  /** Each move out of s leads off the table, to a visited button or to a
      queued one. */
  ghost predicate Spread(keypad: bool, s: char, vis: set<char>, q: seq<QueueItem>)
  {
    forall d | 0 <= d < 4 :: Row(keypad, s)[d] == K.NULL || Row(keypad, s)[d] in vis || Pending(q, Row(keypad, s)[d])
  }

  ghost predicate ItemsOk(keypad: bool, top: bool, from: char, to: char, q: seq<QueueItem>)
  {
    forall i | 0 <= i < |q| :: ItemOk(keypad, top, from, to, q[i])
  }

  /** The search between pops: every visited button is still queued or has
      all its moves followed; the target, once visited, stays queued. */
  ghost predicate Searching(keypad: bool, top: bool, from: char, to: char, vis: set<char>, q: seq<QueueItem>)
  {
    from != to && from in vis && vis <= Universe(from) && ItemsOk(keypad, top, from, to, q)
    && forall t | t in vis :: Pending(q, t) || (t != to && Spread(keypad, t, vis, q))
  }

  /** The search while the moves out of s, the button just popped, are
      followed: those before column d are. */
  ghost predicate Expanding(keypad: bool, top: bool, from: char, to: char, vis: set<char>, q: seq<QueueItem>,
                            s: char, d: nat)
  {
    from != to && from in vis && vis <= Universe(from) && ItemsOk(keypad, top, from, to, q)
    && s in vis && s != to
    && (forall t | t in vis && t != s :: Pending(q, t) || (t != to && Spread(keypad, t, vis, q)))
    && forall c | 0 <= c < d && c < 4 :: Row(keypad, s)[c] == K.NULL || Row(keypad, s)[c] in vis || Pending(q, Row(keypad, s)[c])
  }

  /** Queued items for visited buttons, not yet pressed. */
  function Stale(q: seq<QueueItem>, vis: set<char>): nat
  {
    if q == [] then 0
    else Stale(q[..|q| - 1], vis) + (if !q[|q| - 1].Pressing && q[|q| - 1].S in vis then 1 else 0)
  }

  lemma {:induction false} StaleAppend(a: seq<QueueItem>, b: seq<QueueItem>, vis: set<char>)
    ensures Stale(a + b, vis) == Stale(a, vis) + Stale(b, vis)
  {
    if b == [] {
      assert a + b == a;
    } else {
      StaleAppend(a, b[..|b| - 1], vis);
      assert (a + b)[..|a + b| - 1] == a + b[..|b| - 1];
    }
  }

  lemma StaleRemove(q: seq<QueueItem>, i: nat, vis: set<char>)
    requires i < |q| && !q[i].Pressing && q[i].S in vis
    ensures Stale(Remove(q, i), vis) < Stale(q, vis)
  {
    assert q == q[..i] + [q[i]] + q[i + 1..];
    StaleAppend(q[..i] + [q[i]], q[i + 1..], vis);
    StaleAppend(q[..i], [q[i]], vis);
    StaleAppend(q[..i], q[i + 1..], vis);
    assert Stale([q[i]], vis) == 1 by {
      assert [q[i]][..0] == [];
    }
  }

  lemma StaleFresh(q: seq<QueueItem>, it: QueueItem, vis: set<char>)
    requires it.Pressing || it.S !in vis
    ensures Stale(q + [it], vis) == Stale(q, vis)
  {
    assert (q + [it])[..|q|] == q;
  }

  lemma PendingRemove(q: seq<QueueItem>, i: nat, t: char)
    requires i < |q| && Pending(q, t) && q[i].S != t
    ensures Pending(Remove(q, i), t)
  {
    var j :| 0 <= j < |q| && q[j].S == t;
    var r := Remove(q, i);
    if j < i {
      assert r[j] == q[j];
    } else {
      assert r[j - 1] == q[j];
    }
  }

  lemma PendingAppend(q: seq<QueueItem>, it: QueueItem, t: char)
    requires Pending(q, t) || it.S == t
    ensures Pending(q + [it], t)
  {
    if it.S == t {
      assert (q + [it])[|q|] == it;
    } else {
      var j :| 0 <= j < |q| && q[j].S == t;
      assert (q + [it])[j] == q[j];
    }
  }

  lemma ItemsRemove(keypad: bool, top: bool, from: char, to: char, q: seq<QueueItem>, i: nat)
    requires ItemsOk(keypad, top, from, to, q) && i < |q|
    ensures ItemsOk(keypad, top, from, to, Remove(q, i))
  {
    var r := Remove(q, i);
    forall j | 0 <= j < |r|
      ensures ItemOk(keypad, top, from, to, r[j])
    {
      if j < i {
        assert r[j] == q[j];
      } else {
        assert r[j] == q[j + 1];
      }
    }
  }

  lemma ItemsAppend(keypad: bool, top: bool, from: char, to: char, q: seq<QueueItem>, it: QueueItem)
    requires ItemsOk(keypad, top, from, to, q) && ItemOk(keypad, top, from, to, it)
    ensures ItemsOk(keypad, top, from, to, q + [it])
  {
    forall j | 0 <= j < |q| + 1
      ensures ItemOk(keypad, top, from, to, (q + [it])[j])
    {
      if j < |q| {
        assert (q + [it])[j] == q[j];
      }
    }
  }

  /** Popping item i, which is not the target, starts following its moves. */
  lemma PopStep(keypad: bool, top: bool, from: char, to: char, vis: set<char>, q: seq<QueueItem>, i: nat)
    requires Searching(keypad, top, from, to, vis, q) && i < |q| && q[i].S != to
    ensures Expanding(keypad, top, from, to, vis + {q[i].S}, Remove(q, i), q[i].S, 0)
  {
    var s, vis', r := q[i].S, vis + {q[i].S}, Remove(q, i);
    ItemsRemove(keypad, top, from, to, q, i);
    assert ItemOk(keypad, top, from, to, q[i]);
    forall t | t in vis' && t != s
      ensures Pending(r, t) || (t != to && Spread(keypad, t, vis', r))
    {
      if Pending(q, t) {
        PendingRemove(q, i, t);
      } else {
        forall d | 0 <= d < 4
          ensures Row(keypad, t)[d] == K.NULL || Row(keypad, t)[d] in vis' || Pending(r, Row(keypad, t)[d])
        {
          var n := Row(keypad, t)[d];
          if n != K.NULL && n !in vis' {
            PendingRemove(q, i, n);
          }
        }
      }
    }
  }

  /** Popping the target unpressed, through a parent: it goes back on the
      queue pressed, at cost D plus what the parent spends pressing A. */
  lemma TargetStep(keypad: bool, from: char, to: char, vis: set<char>, q: seq<QueueItem>, i: nat, it: QueueItem)
    requires Searching(keypad, false, from, to, vis, q) && i < |q| && q[i].S == to && !q[i].Pressing
    requires it.S == to && it.ParentS == q[i].ParentS && it.D > q[i].D && it.Pressing
    ensures Searching(keypad, false, from, to, vis + {to}, Remove(q, i) + [it])
  {
    var vis' := vis + {to};
    var r := Remove(q, i);
    var r' := r + [it];
    ItemsRemove(keypad, false, from, to, q, i);
    assert ItemOk(keypad, false, from, to, q[i]);
    ItemsAppend(keypad, false, from, to, r, it);
    forall t | t in vis'
      ensures Pending(r', t) || (t != to && Spread(keypad, t, vis', r'))
    {
      if t == to {
        PendingAppend(r, it, t);
      } else if Pending(q, t) {
        PendingRemove(q, i, t);
        PendingAppend(r, it, t);
      } else {
        forall d | 0 <= d < 4
          ensures Row(keypad, t)[d] == K.NULL || Row(keypad, t)[d] in vis' || Pending(r', Row(keypad, t)[d])
        {
          var n := Row(keypad, t)[d];
          if n != K.NULL && n !in vis' {
            PendingRemove(q, i, n);
            PendingAppend(r, it, n);
          }
        }
      }
    }
  }

  /** Following move d out of s: nothing to do, or queue the button it
      leads to at cost D + nd. */
  lemma FollowStep(keypad: bool, top: bool, from: char, to: char, vis: set<char>, q: seq<QueueItem>,
                   f: QueueItem, d: nat)
    requires Expanding(keypad, top, from, to, vis, q, f.S, d) && d < 4
    requires Row(keypad, f.S)[d] == K.NULL || Row(keypad, f.S)[d] in vis
    ensures Expanding(keypad, top, from, to, vis, q, f.S, d + 1)
  {
  }

  lemma PushStep(keypad: bool, top: bool, from: char, to: char, vis: set<char>, q: seq<QueueItem>,
                 f: QueueItem, d: nat, ps: char, nd: int)
    requires Expanding(keypad, top, from, to, vis, q, f.S, d) && d < 4 && ItemOk(keypad, top, from, to, f)
    requires Row(keypad, f.S)[d] != K.NULL && Row(keypad, f.S)[d] !in vis
    requires nd >= 0 && (top ==> nd == 1) && (!top ==> K.IsKey(ps))
    ensures Expanding(keypad, top, from, to, vis, q + [QueueItem(Row(keypad, f.S)[d], ps, f.D + nd, false)], f.S, d + 1)
  {
    var n := Row(keypad, f.S)[d];
    var it := QueueItem(n, ps, f.D + nd, false);
    var q' := q + [it];
    RowInUniverse(keypad, f.S, d, from);
    ReachSnoc(keypad, from, f.S, n);
    if top {
      StepsSnoc(keypad, from, f.S, f.D, n);
    }
    assert ItemOk(keypad, top, from, to, it);
    ItemsAppend(keypad, top, from, to, q, it);
    forall t | t in vis && t != f.S
      ensures Pending(q', t) || (t != to && Spread(keypad, t, vis, q'))
    {
      if Pending(q, t) {
        PendingAppend(q, it, t);
      } else {
        forall c | 0 <= c < 4
          ensures Row(keypad, t)[c] == K.NULL || Row(keypad, t)[c] in vis || Pending(q', Row(keypad, t)[c])
        {
          var m := Row(keypad, t)[c];
          if m != K.NULL && m !in vis {
            PendingAppend(q, it, m);
          }
        }
      }
    }
    forall c | 0 <= c < d + 1 && c < 4
      ensures Row(keypad, f.S)[c] == K.NULL || Row(keypad, f.S)[c] in vis || Pending(q', Row(keypad, f.S)[c])
    {
      var m := Row(keypad, f.S)[c];
      if m != K.NULL && m !in vis {
        PendingAppend(q, it, m);
      }
    }
  }

  lemma ExpandDone(keypad: bool, top: bool, from: char, to: char, vis: set<char>, q: seq<QueueItem>, s: char)
    requires Expanding(keypad, top, from, to, vis, q, s, 4)
    ensures Searching(keypad, top, from, to, vis, q)
  {
    assert Spread(keypad, s, vis, q);
  }

  /** A search whose queue runs dry never visited the target, and the
      buttons it visited hold every move out of them: the target cannot
      be reached. */
  lemma DryQueue(keypad: bool, top: bool, from: char, to: char, vis: set<char>)
    requires Searching(keypad, top, from, to, vis, [])
    ensures !Reach(keypad, from, to)
  {
    assert to !in vis;
    assert Shut(keypad, vis) by {
      forall s | s in vis
        ensures forall d | 0 <= d < 4 :: Row(keypad, s)[d] == K.NULL || Row(keypad, s)[d] in vis
      {
        assert Spread(keypad, s, vis, []);
      }
    }
    ShutOut(keypad, vis, from, to);
  }

  lemma SearchStart(keypad: bool, top: bool, from: char, to: char)
    requires from != to
    ensures Searching(keypad, top, from, to, {from}, [QueueItem(from, 'A', 0, false)])
  {
    StepsZero(keypad, from);
    var q := [QueueItem(from, 'A', 0, false)];
    assert ItemOk(keypad, top, from, to, q[0]);
    assert Pending(q, from);
  }

  /** The buttons of the universe not visited yet. */
  function Unseen(from: char, vis: set<char>): nat
  {
    |Universe(from) - vis|
  }

  lemma Progress(from: char, vis: set<char>, s: char)
    requires s in Universe(from) && s !in vis
    ensures Unseen(from, vis + {s}) < Unseen(from, vis)
  {
    assert Universe(from) - (vis + {s}) == (Universe(from) - vis) - {s};
  }

  lemma Popped(keypad: bool, top: bool, from: char, to: char, vis: set<char>, q: seq<QueueItem>, i: nat)
    requires Searching(keypad, top, from, to, vis, q) && i < |q|
    ensures ItemOk(keypad, top, from, to, q[i]) && q[i].S in Universe(from)
  {
  }
}

module RobotChain {
  import K = Keypads
  import opened KeypadCodes
  import opened RobotActions
  import opened RobotWalks
  import opened RobotSearch
  import opened ChainKeys

  /** What a cached cost promises: at least one key, for a pair that can
      be reached; with the human at the controls (top) the length of a
      walk plus the final press; and in every case the length of a human
      key sequence that moves the arm from k.from to k.to and presses it,
      the chain above at rest before and after. */
  ghost predicate Cached(keypad: bool, top: bool, h: nat, cache: map<CacheKey, int>, k: CacheKey)
  {
    k in cache && cache[k] >= 1 && Reach(keypad, k.from, k.to)
    && (top ==> Steps(keypad, k.from, k.to, cache[k] - 1))
    && Types(keypad, [k.from] + Home(h), [k.to] + Home(h), [k.to], cache[k])
  }

  ghost predicate Sound(keypad: bool, top: bool, h: nat, cache: map<CacheKey, int>)
  {
    forall k {:trigger Cached(keypad, top, h, cache, k)} | k in cache :: Cached(keypad, top, h, cache, k)
  }

  lemma SoundAdd(keypad: bool, top: bool, h: nat, cache: map<CacheKey, int>, from: char, to: char, r: int)
    requires Sound(keypad, top, h, cache) && Found(keypad, top, h, from, to, r)
    ensures Sound(keypad, top, h, cache[CacheKey(from, to) := r])
  {
    var c := cache[CacheKey(from, to) := r];
    forall k | k in c
      ensures Cached(keypad, top, h, c, k)
    {
      if k != CacheKey(from, to) {
        assert Cached(keypad, top, h, cache, k);
        CachedKept(keypad, top, h, cache, k, CacheKey(from, to), r);
      } else {
        assert c[k] == r && k.from == from && k.to == to;
      }
    }
  }

  lemma CachedKept(keypad: bool, top: bool, h: nat, cache: map<CacheKey, int>, k: CacheKey, k0: CacheKey, r: int)
    requires Cached(keypad, top, h, cache, k) && k != k0
    ensures Cached(keypad, top, h, cache[k0 := r], k)
  {
    assert cache[k0 := r][k] == cache[k];
  }

  /** What a cached cost promises, read back. */
  lemma CacheHit(keypad: bool, top: bool, h: nat, cache: map<CacheKey, int>, from: char, to: char)
    requires Sound(keypad, top, h, cache) && CacheKey(from, to) in cache
    ensures cache[CacheKey(from, to)] >= 1 && Reach(keypad, from, to)
    ensures top ==> Steps(keypad, from, to, cache[CacheKey(from, to)] - 1)
    ensures Types(keypad, [from] + Home(h), [to] + Home(h), [to], cache[CacheKey(from, to)])
  {
    var k := CacheKey(from, to);
    assert k.from == from && k.to == to && Cached(keypad, top, h, cache, k);
  }

  /** A queued item's cost D is the length of a human key sequence from
      the chain at rest (this machine on from, all above on A): one that
      leaves this arm on S and the parent's on ParentS, the rest on A,
      pressing nothing, or for a pressed item one that pressed to and
      left everything above on A again. */
  ghost predicate ItemTyped(keypad: bool, h: nat, from: char, to: char, it: QueueItem)
  {
    it.D >= 0
    && (it.Pressing ==> Types(keypad, [from] + Home(h), [to] + Home(h), [to], it.D))
    && (!it.Pressing ==> Types(keypad, [from] + Home(h), [it.S] + Above(it.ParentS, h), [], it.D))
  }

  ghost predicate ItemsTyped(keypad: bool, h: nat, from: char, to: char, q: seq<QueueItem>)
  {
    forall i {:trigger ItemTyped(keypad, h, from, to, q[i])} | 0 <= i < |q| :: ItemTyped(keypad, h, from, to, q[i])
  }

  lemma TypedStart(keypad: bool, h: nat, from: char, to: char)
    ensures ItemsTyped(keypad, h, from, to, [QueueItem(from, 'A', 0, false)])
  {
    assert Above('A', h) == Home(h);
    TypesZero(keypad, [from] + Home(h));
  }

  lemma TypedRemove(keypad: bool, h: nat, from: char, to: char, q: seq<QueueItem>, i: nat)
    requires ItemsTyped(keypad, h, from, to, q) && i < |q|
    ensures ItemsTyped(keypad, h, from, to, Remove(q, i))
  {
    var r := Remove(q, i);
    forall j | 0 <= j < |r|
      ensures ItemTyped(keypad, h, from, to, r[j])
    {
      if j < i {
        assert r[j] == q[j];
      } else {
        assert r[j] == q[j + 1];
      }
    }
  }

  lemma TypedAppend(keypad: bool, h: nat, from: char, to: char, q: seq<QueueItem>, it: QueueItem)
    requires ItemsTyped(keypad, h, from, to, q) && ItemTyped(keypad, h, from, to, it)
    ensures ItemsTyped(keypad, h, from, to, q + [it])
  {
    forall j | 0 <= j < |q| + 1
      ensures ItemTyped(keypad, h, from, to, (q + [it])[j])
    {
      if j < |q| {
        assert (q + [it])[j] == q[j];
      }
    }
  }

  /** Move d out of f.S costs one human key at the top, and otherwise
      the parent's keys for pressing the direction key: together with
      f's keys they bring the arm to the next button. */
  lemma MoveTyped(keypad: bool, h: nat, from: char, to: char, f: QueueItem, d: nat, ps: char,
                  pk: bool, ph: nat, nd: nat)
    requires d < 4 && Row(keypad, f.S)[d] != K.NULL && ItemTyped(keypad, h, from, to, f) && !f.Pressing
    requires h == 0 ==> nd == 1
    requires h >= 1 ==> !pk && ph + 1 == h && ps == KeyOf(OfColumn(d))
                        && Types(pk, [f.ParentS] + Home(ph), [ps] + Home(ph), [ps], nd)
    ensures ItemTyped(keypad, h, from, to, QueueItem(Row(keypad, f.S)[d], ps, f.D + nd, false))
  {
    var next := Row(keypad, f.S)[d];
    assert ColumnOf(OfColumn(d)) == d;
    assert ActAll(keypad, next, []) == Some((next, []));
    assert Step(keypad, f.S, OfColumn(d)) == Some((next, []));
    var none: seq<char> := [];
    assert none + none == none;
    if h == 0 {
      assert [from] + Home(0) == [from] && [f.S] + Above(f.ParentS, 0) == [f.S];
      assert [next] + Above(ps, 0) == [next];
      TypesTop(keypad, f.S, OfColumn(d), next, []);
      TypesAppend(keypad, [from], [f.S], [next], [], [], f.D, 1);
    } else {
      KeyRoundTrip(OfColumn(d), ps);
      TypesLift(keypad, f.S, f.ParentS, h, ps, next, [], nd);
      TypesAppend(keypad, [from] + Home(h), [f.S] + Above(f.ParentS, h), [next] + Above(ps, h), [], [], f.D, nd);
    }
  }

  /** Pressing the target costs one human key at the top, and otherwise
      the parent's keys for pressing A: together with f's keys they press
      to and bring every arm above home. */
  lemma PressTyped(keypad: bool, h: nat, from: char, to: char, f: QueueItem, pk: bool, ph: nat, nd: nat)
    requires ItemTyped(keypad, h, from, to, f) && !f.Pressing && f.S == to
    requires h == 0 ==> nd == 1
    requires h >= 1 ==> !pk && ph + 1 == h && Types(pk, [f.ParentS] + Home(ph), ['A'] + Home(ph), ['A'], nd)
    ensures Types(keypad, [from] + Home(h), [to] + Home(h), [to], f.D + nd)
  {
    PressStep(keypad, to);
    assert [] + [to] == [to];
    if h == 0 {
      assert [from] + Home(0) == [from] && [to] + Above(f.ParentS, 0) == [to] && [to] + Home(0) == [to];
      TypesTop(keypad, to, PressOld, to, [to]);
      TypesAppend(keypad, [from], [to], [to], [], [to], f.D, 1);
    } else {
      assert ActionOf('A') == PressOld;
      assert Above('A', h) == Home(h);
      TypesLift(keypad, to, f.ParentS, h, 'A', to, [to], nd);
      TypesAppend(keypad, [from] + Home(h), [to] + Above(f.ParentS, h), [to] + Home(h), [], [to], f.D, nd);
    }
  }

  /** Requeueing the target pressed keeps the search invariant and makes
      progress. */
  lemma RequeueOk(keypad: bool, h: nat, from: char, to: char, vis: set<char>, q: seq<QueueItem>, i: nat, item: QueueItem)
    requires Searching(keypad, false, from, to, vis, q) && ItemsTyped(keypad, h, from, to, q)
    requires i < |q| && q[i].S == to && !q[i].Pressing
    requires item.S == to && item.ParentS == q[i].ParentS && item.D > q[i].D && item.Pressing
    requires Types(keypad, [from] + Home(h), [to] + Home(h), [to], item.D)
    ensures Searching(keypad, false, from, to, vis + {to}, Remove(q, i) + [item])
    ensures ItemsTyped(keypad, h, from, to, Remove(q, i) + [item])
    ensures Unseen(from, vis + {to}) < Unseen(from, vis)
            || (vis + {to} == vis && Stale(Remove(q, i) + [item], vis + {to}) < Stale(q, vis))
  {
    assert ItemOk(keypad, false, from, to, q[i]) && ItemTyped(keypad, h, from, to, q[i]);
    TargetStep(keypad, from, to, vis, q, i, item);
    TypedRemove(keypad, h, from, to, q, i);
    TypedAppend(keypad, h, from, to, Remove(q, i), item);
    if to in vis {
      assert vis + {to} == vis;
      StaleRemove(q, i, vis);
      StaleFresh(Remove(q, i), item, vis);
    } else {
      Progress(from, vis, to);
    }
  }

  /** Popping item i, not the target, starts following its moves and
      makes progress. */
  lemma PopOk(keypad: bool, top: bool, h: nat, from: char, to: char, vis: set<char>, q: seq<QueueItem>, i: nat)
    requires Searching(keypad, top, from, to, vis, q) && ItemsTyped(keypad, h, from, to, q)
    requires i < |q| && q[i].S != to
    ensures Expanding(keypad, top, from, to, vis + {q[i].S}, Remove(q, i), q[i].S, 0)
    ensures ItemsTyped(keypad, h, from, to, Remove(q, i))
    ensures Unseen(from, vis + {q[i].S}) < Unseen(from, vis)
            || (vis + {q[i].S} == vis && Stale(Remove(q, i), vis + {q[i].S}) < Stale(q, vis))
  {
    PopStep(keypad, top, from, to, vis, q, i);
    TypedRemove(keypad, h, from, to, q, i);
    if q[i].S in vis {
      assert vis + {q[i].S} == vis;
      StaleRemove(q, i, vis);
    } else {
      Popped(keypad, top, from, to, vis, q, i);
      Progress(from, vis, q[i].S);
    }
  }

  /** A finished search: dist is a cost from `from` to `to` pressed, as
      typed at the top and, with nobody above, as steps. */
  ghost predicate Found(keypad: bool, top: bool, h: nat, from: char, to: char, dist: int)
  {
    dist >= 1 && Reach(keypad, from, to) && (top ==> Steps(keypad, from, to, dist - 1))
    && Types(keypad, [from] + Home(h), [to] + Home(h), [to], dist)
  }

  /** One pass of the search that did not finish kept its invariants and
      made progress. */
  ghost predicate Advanced(keypad: bool, top: bool, h: nat, from: char, to: char,
                           vis: set<char>, q: seq<QueueItem>, vis': set<char>, q': seq<QueueItem>)
  {
    Searching(keypad, top, from, to, vis', q') && ItemsTyped(keypad, h, from, to, q')
    && (Unseen(from, vis') < Unseen(from, vis) || (vis' == vis && Stale(q', vis') < Stale(q, vis)))
  }

  /** The popped target already pressed: its cost is the answer. */
  lemma PressedFound(keypad: bool, top: bool, h: nat, from: char, to: char, vis: set<char>, q: seq<QueueItem>, i: nat)
    requires Searching(keypad, top, from, to, vis, q) && ItemsTyped(keypad, h, from, to, q)
    requires i < |q| && q[i].S == to && q[i].Pressing
    ensures Found(keypad, top, h, from, to, q[i].D)
  {
    Popped(keypad, top, from, to, vis, q, i);
    assert ItemTyped(keypad, h, from, to, q[i]);
  }

  /** The popped target with the human at the controls: one more key
      presses it. */
  lemma TopFound(keypad: bool, from: char, to: char, vis: set<char>, q: seq<QueueItem>, i: nat)
    requires Searching(keypad, true, from, to, vis, q) && ItemsTyped(keypad, 0, from, to, q)
    requires i < |q| && q[i].S == to && !q[i].Pressing
    ensures Found(keypad, true, 0, from, to, q[i].D + 1)
  {
    Popped(keypad, true, from, to, vis, q, i);
    assert ItemTyped(keypad, 0, from, to, q[i]);
    PressTyped(keypad, 0, from, to, q[i], false, 0, 1);
  }

  /** One machine of the chain: the door keypad or a robot's directional
      keypad, the machine whose arm presses its buttons (none when the
      human presses them), and the key costs found so far. */
  class Machine {
    const Keypad: bool
    const Parent: Machine?
    ghost const Height: nat
    ghost const Repr: set<object>
    var Cache: map<CacheKey, int>

    ghost predicate CacheSound()
      reads this
    {
      Sound(Keypad, Parent == null, Height, Cache)
    }

    ghost predicate Valid()
      reads this, Repr
      decreases Height
    {
      this in Repr && CacheSound()
      && (Parent == null ==> Height == 0)
      && (Parent != null ==>
            Parent in Repr && Parent.Repr <= Repr && this !in Parent.Repr
            && Parent.Height + 1 == Height && !Parent.Keypad && Parent.Valid())
    }

    constructor (keypad: bool, parent: Machine?)
      requires parent != null ==> parent.Valid() && !parent.Keypad
      ensures Valid() && Keypad == keypad && Parent == parent && Cache == map[]
      ensures Repr == {this} + (if parent == null then {} else parent.Repr)
      ensures Height == (if parent == null then 0 else parent.Height + 1)
    {
      Keypad := keypad;
      Parent := parent;
      Height := if parent == null then 0 else parent.Height + 1;
      Repr := {this} + (if parent == null then {} else parent.Repr);
      Cache := map[];
    }

    /** The parent's arm can reach any key from any key. */
    lemma ParentReach(s: char, t: char)
      requires Valid() && Parent != null && K.IsKey(s) && K.IsKey(t)
      ensures Reach(Parent.Keypad, s, t)
    {
      RobotConnected(s, t);
    }

    /** The human keys it costs to move this machine's arm from `from` to
        `to` and press it, every machine above starting and ending on A.
        Zero when `to` cannot be reached. */
    method Press(from: char, to: char) returns (r: int)
      requires Valid()
      modifies Repr
      decreases Height, 5
      ensures Valid()
      ensures r >= 0 && (r >= 1 <==> Reach(Keypad, from, to))
      ensures from == to ==> r == 1
      ensures from != to && CacheKey(from, to) in old(Cache) ==> r == old(Cache)[CacheKey(from, to)]
      ensures from != to && r >= 1 ==> Cache == old(Cache)[CacheKey(from, to) := r]
      ensures from == to || r == 0 ==> Cache == old(Cache)
      ensures Parent == null && r >= 1 ==> Steps(Keypad, from, to, r - 1)
      ensures r >= 1 ==> Types(Keypad, [from] + Home(Height), [to] + Home(Height), [to], r)
    {
      if from == to {
        StepsZero(Keypad, from);
        PressHere(Keypad, from, Height);
        return 1;
      }
      if CacheKey(from, to) in Cache {
        CacheHit(Keypad, Parent == null, Height, Cache, from, to);
        r := Cache[CacheKey(from, to)];
        assert Cache == Cache[CacheKey(from, to) := r];
        return;
      }
      r := Search(from, to);
    }

    /** Press's cheapest-first search, for a pair not in the cache. */
    method Search(from: char, to: char) returns (r: int)
      requires Valid() && from != to && CacheKey(from, to) !in Cache
      modifies Repr
      decreases Height, 4
      ensures Valid()
      ensures r >= 0 && (r >= 1 <==> Reach(Keypad, from, to))
      ensures r >= 1 ==> Cache == old(Cache)[CacheKey(from, to) := r]
      ensures r == 0 ==> Cache == old(Cache)
      ensures r >= 1 ==> Found(Keypad, Parent == null, Height, from, to, r)
    {
      var q := [QueueItem(from, 'A', 0, false)];
      var vis := {from};
      SearchStart(Keypad, Parent == null, from, to);
      TypedStart(Keypad, Height, from, to);
      while |q| > 0
        invariant Valid() && Cache == old(Cache)
        invariant Searching(Keypad, Parent == null, from, to, vis, q)
        invariant ItemsTyped(Keypad, Height, from, to, q)
        decreases Unseen(from, vis), Stale(q, vis)
      {
        var done, dist;
        done, dist, q, vis := Visit(from, to, q, vis);
        if done {
          Record(from, to, dist);
          return dist;
        }
      }
      DryQueue(Keypad, Parent == null, from, to, vis);
      return 0;
    }

    /** Caches a cost the search found. */
    method Record(from: char, to: char, r: int)
      requires Valid() && Found(Keypad, Parent == null, Height, from, to, r)
      modifies this
      ensures Valid() && Cache == old(Cache)[CacheKey(from, to) := r]
    {
      SoundAdd(Keypad, Parent == null, Height, Cache, from, to, r);
      Cache := Cache[CacheKey(from, to) := r];
    }

    /** One pass of Press's loop: pop a cheapest item; finish with its
        cost when it is the target, pressed or with the human at the
        controls; queue the target pressed when it is not; otherwise
        follow its moves. */
    method Visit(from: char, to: char, q: seq<QueueItem>, vis: set<char>)
      returns (done: bool, dist: int, q': seq<QueueItem>, vis': set<char>)
      requires Valid() && Searching(Keypad, Parent == null, from, to, vis, q) && q != []
      requires ItemsTyped(Keypad, Height, from, to, q)
      modifies Repr
      decreases Height, 3
      ensures Valid() && Cache == old(Cache)
      ensures done ==> Found(Keypad, Parent == null, Height, from, to, dist)
      ensures !done ==> Advanced(Keypad, Parent == null, Height, from, to, vis, q, vis', q')
    {
      LeastExists(q);
      var i: nat :| Least(q, i);
      if q[i].S == to {
        done, dist, q', vis' := AtTarget(from, to, q, vis, i);
      } else {
        q', vis' := Expand(from, to, q, vis, i);
        done, dist := false, 0;
      }
    }

    /** Visit when the popped item is the target. */
    method AtTarget(from: char, to: char, q: seq<QueueItem>, vis: set<char>, i: nat)
      returns (done: bool, dist: int, q': seq<QueueItem>, vis': set<char>)
      requires Valid() && Searching(Keypad, Parent == null, from, to, vis, q)
      requires ItemsTyped(Keypad, Height, from, to, q) && i < |q| && q[i].S == to
      modifies Repr
      decreases Height, 2
      ensures Valid() && Cache == old(Cache)
      ensures done ==> Found(Keypad, Parent == null, Height, from, to, dist)
      ensures !done ==> Advanced(Keypad, Parent == null, Height, from, to, vis, q, vis', q')
    {
      if q[i].Pressing {
        PressedFound(Keypad, Parent == null, Height, from, to, vis, q, i);
        return true, q[i].D, q, vis;
      }
      if Parent == null {
        TopFound(Keypad, from, to, vis, q, i);
        return true, q[i].D + 1, q, vis;
      }
      q', vis' := Requeue(from, to, q, vis, i);
      return false, 0, q', vis';
    }

    /** Visit when the popped item is not the target: follow its moves. */
    method Expand(from: char, to: char, q: seq<QueueItem>, vis: set<char>, i: nat)
      returns (q': seq<QueueItem>, vis': set<char>)
      requires Valid() && Searching(Keypad, Parent == null, from, to, vis, q)
      requires ItemsTyped(Keypad, Height, from, to, q) && i < |q| && q[i].S != to
      modifies Repr
      decreases Height, 2
      ensures Valid() && Cache == old(Cache)
      ensures Advanced(Keypad, Parent == null, Height, from, to, vis, q, vis', q')
    {
      var frontier := q[i];
      Popped(Keypad, Parent == null, from, to, vis, q, i);
      assert ItemTyped(Keypad, Height, from, to, q[i]);
      PopOk(Keypad, Parent == null, Height, from, to, vis, q, i);
      vis' := vis + {frontier.S};
      q' := Follow(from, to, frontier, Remove(q, i), vis');
    }

    /** The target popped unpressed, through a parent: it goes back on
        the queue pressed, at its cost plus what the parent spends
        pressing A. */
    method Requeue(from: char, to: char, q: seq<QueueItem>, vis: set<char>, i: nat)
      returns (q': seq<QueueItem>, vis': set<char>)
      requires Valid() && Parent != null && Searching(Keypad, false, from, to, vis, q)
      requires ItemsTyped(Keypad, Height, from, to, q)
      requires i < |q| && q[i].S == to && !q[i].Pressing
      modifies Repr
      decreases Height, 1
      ensures Valid() && Cache == old(Cache)
      ensures Advanced(Keypad, false, Height, from, to, vis, q, vis', q')
    {
      var f := q[i];
      Popped(Keypad, false, from, to, vis, q, i);
      var nd := PressParent(from, to, f);
      var item := QueueItem(to, f.ParentS, f.D + nd, true);
      RequeueOk(Keypad, Height, from, to, vis, q, i, item);
      q', vis' := Remove(q, i) + [item], vis + {to};
    }

    /** What the parent spends pressing A once the arm is on the target
        f.S: at least one human key, and with f's keys a sequence that
        presses the target and brings every arm above home. */
    method PressParent(from: char, to: char, f: QueueItem) returns (nd: int)
      requires Valid() && Parent != null && K.IsKey(f.ParentS)
      requires ItemTyped(Keypad, Height, from, to, f) && !f.Pressing && f.S == to
      modifies Repr
      decreases Height, 0
      ensures Valid() && Cache == old(Cache) && nd >= 1
      ensures Types(Keypad, [from] + Home(Height), [to] + Home(Height), [to], f.D + nd)
    {
      ParentReach(f.ParentS, 'A');
      assert Parent.Height + 1 == Height && !Parent.Keypad;
      nd := Parent.Press(f.ParentS, 'A');
      PressTyped(Keypad, Height, from, to, f, Parent.Keypad, Parent.Height, nd);
    }

    /** The moves out of the popped button f.S, in the order of the
        machine's table: each leads off the table, to a visited button,
        or onto the queue at f's cost plus the parent's keys for the
        direction (one human key without a parent). */
    method Follow(from: char, to: char, f: QueueItem, q: seq<QueueItem>, vis: set<char>)
      returns (q': seq<QueueItem>)
      requires Valid() && ItemOk(Keypad, Parent == null, from, to, f)
      requires Expanding(Keypad, Parent == null, from, to, vis, q, f.S, 0)
      requires ItemTyped(Keypad, Height, from, to, f) && ItemsTyped(Keypad, Height, from, to, q)
      modifies Repr
      decreases Height, 0
      ensures Valid() && Cache == old(Cache)
      ensures Searching(Keypad, Parent == null, from, to, vis, q')
      ensures ItemsTyped(Keypad, Height, from, to, q')
      ensures Stale(q', vis) == Stale(q, vis)
    {
      q' := q;
      var nextStates := Row(Keypad, f.S);
      for d := 0 to 4
        invariant Valid() && Cache == old(Cache)
        invariant Expanding(Keypad, Parent == null, from, to, vis, q', f.S, d)
        invariant ItemsTyped(Keypad, Height, from, to, q')
        invariant Stale(q', vis) == Stale(q, vis)
      {
        var next := nextStates[d];
        if next == K.NULL || next in vis {
          FollowStep(Keypad, Parent == null, from, to, vis, q', f, d);
          continue;
        }
        var nextDist: int;
        var parentS := K.NULL;
        ghost var pk, ph := false, 0;
        if Parent == null {
          nextDist := 1;
        } else {
          var parentKey := KeyOf(OfColumn(d));
          ParentReach(f.ParentS, parentKey);
          nextDist := Parent.Press(f.ParentS, parentKey);
          parentS := parentKey;
          pk, ph := Parent.Keypad, Parent.Height;
        }
        PushStep(Keypad, Parent == null, from, to, vis, q', f, d, parentS, nextDist);
        MoveTyped(Keypad, Height, from, to, f, d, parentS, pk, ph, nextDist);
        var item := QueueItem(next, parentS, f.D + nextDist, false);
        TypedAppend(Keypad, Height, from, to, q', item);
        StaleFresh(q', item, vis);
        q' := q' + [item];
      }
      ExpandDone(Keypad, Parent == null, from, to, vis, q', f.S);
    }
  }

  /** The chain main builds: the door keypad, then layers - 1 robots, the
      last of them driven by the human. */
  method BuildChain(layers: nat) returns (keypad: Machine)
    requires layers >= 1
    ensures fresh(keypad.Repr) && keypad.Valid() && keypad.Keypad && keypad.Cache == map[]
    ensures keypad.Height == layers - 1
  {
    var c: Machine? := null;
    for i := 0 to layers - 1
      invariant c == null <==> i == 0
      invariant c != null ==> fresh(c.Repr) && c.Valid() && !c.Keypad && c.Height == i - 1
    {
      c := new Machine(false, c);
    }
    keypad := new Machine(true, c);
  }

  /** The button the arm rests on before code[i] is typed. */
  function Prev(code: seq<char>, i: nat): char
    requires i < |code|
  {
    if i == 0 then 'A' else code[i - 1]
  }

  /** Each digit of the code can be reached from the one before. */
  ghost predicate Connected(code: seq<char>)
  {
    forall i | 0 <= i < |code| :: Reach(true, Prev(code, i), code[i])
  }

  /** The button the arm rests on once code is typed. */
  function Last(code: seq<char>): (c: char)
    ensures code != [] ==> c == code[|code| - 1]
  {
    if code == [] then 'A' else code[|code| - 1]
  }

  /** n human keys, from the chain at rest on A, type code on the door
      keypad and leave the chain at rest again. */
  ghost predicate Typing(h: nat, code: seq<char>, n: int)
  {
    n >= 0 && Types(true, ['A'] + Home(h), [Last(code)] + Home(h), code, n)
  }

  lemma TypingStart(h: nat)
    ensures Typing(h, [], 0)
  {
    TypesZero(true, ['A'] + Home(h));
  }

  /** The keys for the next digit follow the keys for those before. */
  lemma TypingSnoc(h: nat, code: seq<char>, i: nat, total: nat, dist: nat)
    requires i < |code| && Typing(h, code[..i], total)
    requires Types(true, [Last(code[..i])] + Home(h), [code[i]] + Home(h), [code[i]], dist)
    ensures Typing(h, code[..i + 1], total + dist)
  {
    assert code[..i + 1] == code[..i] + [code[i]];
    TypesAppend(true, ['A'] + Home(h), [Last(code[..i])] + Home(h), [code[i]] + Home(h),
                code[..i], [code[i]], total, dist);
  }

  /** main's count of the human keys that type code on the door keypad:
      whenever every digit can be reached, the length of a key sequence
      that types the code, at least one key per digit. */
  method CodeCost(keypad: Machine, code: seq<char>) returns (total: int)
    requires keypad.Valid() && keypad.Keypad
    modifies keypad.Repr
    ensures keypad.Valid() && total >= 0
    ensures CostOf(keypad.Height, code, total)
  {
    total := 0;
    var curr := 'A';
    TypingStart(keypad.Height);
    for i := 0 to |code|
      invariant keypad.Valid() && total >= 0
      invariant curr == Last(code[..i])
      invariant ConnectedUpTo(code, i) ==> total >= i && Typing(keypad.Height, code[..i], total)
    {
      total := TypeDigit(keypad, code, i, curr, total);
      curr := code[i];
    }
    assert code[..|code|] == code;
  }

  /** total is the length of a key sequence that types code, at least
      one key per digit, whenever every digit can be reached. */
  ghost predicate CostOf(h: nat, code: seq<char>, total: int)
  {
    Connected(code) ==> total >= |code| && Typing(h, code, total)
  }

  /** The first i digits can each be reached from the one before. */
  ghost predicate ConnectedUpTo(code: seq<char>, i: nat)
    requires i <= |code|
  {
    forall j | 0 <= j < i :: Reach(true, Prev(code, j), code[j])
  }

  /** One pass of CodeCost's loop: the keys for digit i added on. */
  method TypeDigit(keypad: Machine, code: seq<char>, i: nat, curr: char, total: int) returns (total': int)
    requires keypad.Valid() && keypad.Keypad && i < |code| && curr == Last(code[..i]) && total >= 0
    requires ConnectedUpTo(code, i) ==> total >= i && Typing(keypad.Height, code[..i], total)
    modifies keypad.Repr
    ensures keypad.Valid() && total' >= 0
    ensures ConnectedUpTo(code, i + 1) ==> total' >= i + 1 && Typing(keypad.Height, code[..i + 1], total')
  {
    assert Prev(code, i) == curr;
    var dist := keypad.Press(curr, code[i]);
    if ConnectedUpTo(code, i + 1) {
      assert ConnectedUpTo(code, i) && Reach(true, curr, code[i]);
      TypingSnoc(keypad.Height, code, i, total, dist);
    }
    total' := total + dist;
  }

  lemma WeightedSnoc(codes: seq<seq<char>>, i: nat, totals: seq<nat>, total: nat)
    requires i < |codes| && |totals| == i && forall j | 0 <= j < |codes| :: Numbered(codes[j])
    ensures Weighted(codes[..i + 1], totals + [total]) == Weighted(codes[..i], totals) + total * Number(codes[i])
  {
    assert codes[..i + 1][..i] == codes[..i] && (totals + [total])[..i] == totals;
    assert codes[..i + 1][i] == codes[i];
  }

  /** main's sum over the codes of key count times numeric part. */
  method Complexity(keypad: Machine, codes: seq<seq<char>>) returns (complexity: int, ghost totals: seq<nat>)
    requires keypad.Valid() && keypad.Keypad && forall i | 0 <= i < |codes| :: Numbered(codes[i])
    modifies keypad.Repr
    ensures keypad.Valid()
    ensures |totals| == |codes| && complexity == Weighted(codes, totals)
    ensures forall i {:trigger CostOf(keypad.Height, codes[i], totals[i])} | 0 <= i < |codes| ::
              CostOf(keypad.Height, codes[i], totals[i])
  {
    complexity, totals := 0, [];
    for i := 0 to |codes|
      invariant keypad.Valid() && |totals| == i
      invariant complexity == Weighted(codes[..i], totals)
      invariant forall j {:trigger CostOf(keypad.Height, codes[j], totals[j])} | 0 <= j < i ::
                  CostOf(keypad.Height, codes[j], totals[j])
    {
      var total := CodeCost(keypad, codes[i]);
      WeightedSnoc(codes, i, totals, total);
      complexity, totals := complexity + total * Number(codes[i]), totals + [total];
    }
    assert codes[..|codes|] == codes;
  }
}
