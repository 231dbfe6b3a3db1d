/** Day 7, part 2 (07-2/main.go): as part 1 with a third operator, decimal
    concatenation. Search undoes it by cutting the last input's digits off
    the end of the total's decimal text. */
module ConcatSearch {
  import opened GoInt
  import opened Decimal

  predicate HasSuffix(s: string, suffix: string)
  {
    |suffix| <= |s| && s[|s| - |suffix|..] == suffix
  }

  /** The source's split: remove b's decimal text from the end of a's; fail
      when it is not a suffix or what is left is empty or only a sign. */
  function Split(a: int, b: int): (int, bool)
  {
    var sa, sb := Text(a), Text(b);
    if HasSuffix(sa, sb) then
      var trimmed := sa[..|sa| - |sb|];
      if trimmed == "" || trimmed[0] == '-' then (0, false)
      else
        TextShape(a);
        (Parse(trimmed), true)
    else (0, false)
  }

  /** Every input after the first is non-zero: the source divides by it. */
  predicate NonZeroTail(inputs: seq<int>)
  {
    forall i :: 1 <= i < |inputs| ==> inputs[i] != 0
  }

  function Search(inputs: seq<int>, total: int): bool
    requires |inputs| >= 1 && NonZeroTail(inputs)
    decreases |inputs|
  {
    if |inputs| == 1 then inputs[0] == total
    else
      var a, b := inputs[..|inputs| - 1], inputs[|inputs| - 1];
      if b < total && Search(a, total - b) then true
      else if Rem(total, b) == 0 && Search(a, Quot(total, b)) then true
      else
        var (s, ok) := Split(total, b);
        ok && Search(a, s)
  }

  // ---------------------------------------------------------------------
  // Splitting undoes concatenation

  /** `x || y`: the number whose decimal text is x's followed by y's. */
  function Concat(x: nat, y: nat): nat
  {
    ParseText(x);
    ParseText(y);
    Parse(Text(x) + Text(y))
  }

  /** Concatenation shifts x left by as many decimal places as y has digits. */
  lemma ConcatShifts(x: nat, y: nat)
    ensures Concat(x, y) == x * Pow10(|Text(y)|) + y
  {
    ParseText(x);
    ParseText(y);
    ParseAppend(Text(x), Text(y));
  }

  /** A successful split cuts a's text into the text of a positive number
      followed by b's text, so gluing them back gives a. */
  lemma SplitJoins(a: int, b: int)
    requires Split(a, b).1
    ensures var r := Split(a, b).0;
      && a >= 0 && b >= 0 && r >= 1
      && Text(r) + Text(b) == Text(a)
      && a == Concat(r, b)
  {
    var sa, sb := Text(a), Text(b);
    var t := sa[..|sa| - |sb|];
    TextShape(a);
    TextShape(b);
    assert sa[0] == t[0];
    assert a >= 0;
    assert |sb| >= 1 && |sa| >= 2;
    assert Canonical(t) && t[0] != '0';
    TextParse(t);
    ParseAtLeastOne(t);
    assert sa == t + sb;
    ParseText(a);
  }

  /** Splitting a concatenation with a positive left part gives that part
      back. */
  lemma SplitConcat(x: nat, y: nat)
    requires x >= 1
    ensures Split(Concat(x, y), y) == (x, true)
  {
    var tx, ty := Text(x), Text(y);
    TextShape(x);
    TextShape(y);
    var c := tx + ty;
    assert Canonical(c) && c[0] != '0';
    TextParse(c);
    assert Text(Concat(x, y)) == c;
    assert c[..|c| - |ty|] == tx;
    ParseText(x);
  }

  // ---------------------------------------------------------------------
  // Reference: left-to-right evaluation under a choice of operators

  datatype Op = Plus | Times | Join

  /** Concatenation only applies to non-negative operands; the inputs are
      positive, and so is every value they evaluate to. */
  function Apply(op: Op, x: int, y: int): int
  {
    match op
    case Plus => x + y
    case Times => x * y
    case Join => if x >= 0 && y >= 0 then Concat(x, y) else 0
  }

  predicate AllPositive(inputs: seq<int>)
  {
    forall i :: 0 <= i < |inputs| ==> inputs[i] >= 1
  }

  function Eval(inputs: seq<int>, ops: seq<Op>): int
    requires |inputs| >= 1 && |ops| == |inputs| - 1
    decreases |inputs|
  {
    if |inputs| == 1 then inputs[0]
    else
      var n := |inputs| - 1;
      Apply(ops[n - 1], Eval(inputs[..n], ops[..n - 1]), inputs[n])
  }

  ghost predicate Reachable(inputs: seq<int>, total: int)
    requires |inputs| >= 1
  {
    exists ops: seq<Op> :: |ops| == |inputs| - 1 && Eval(inputs, ops) == total
  }

  /** Positive inputs evaluate to positive values under every choice. */
  lemma {:induction false} EvalPositive(inputs: seq<int>, ops: seq<Op>)
    requires |inputs| >= 1 && |ops| == |inputs| - 1 && AllPositive(inputs)
    ensures Eval(inputs, ops) >= 1
    decreases |inputs|
  {
    if |inputs| > 1 {
      var n := |inputs| - 1;
      var v := Eval(inputs[..n], ops[..n - 1]);
      EvalPositive(inputs[..n], ops[..n - 1]);
      ApplyPositive(ops[n - 1], v, inputs[n]);
    }
  }

  lemma ApplyPositive(op: Op, x: int, y: int)
    requires x >= 1 && y >= 1
    ensures Apply(op, x, y) >= 1
  {
    match op
    case Plus =>
    case Times => ProductPositive(x, y);
    case Join => ProductPositive(x, Pow10(|Text(y)|)); ConcatShifts(x, y);
  }

  lemma ProductPositive(x: int, y: int)
    requires x >= 1 && y >= 1
    ensures x * y >= 1
  {
  }

  lemma EvalSnoc(inputs: seq<int>, ops: seq<Op>, op: Op)
    requires |inputs| >= 2 && |ops| == |inputs| - 2
    ensures Eval(inputs, ops + [op])
      == Apply(op, Eval(inputs[..|inputs| - 1], ops), inputs[|inputs| - 1])
  {
    assert (ops + [op])[..|ops|] == ops;
  }

  /** The total is reachable exactly when the last operator can be undone
      to a value reachable from the prefix. */
  lemma ReachableStep(inputs: seq<int>, total: int)
    requires |inputs| >= 2 && AllPositive(inputs)
    ensures var a, b := inputs[..|inputs| - 1], inputs[|inputs| - 1];
      Reachable(inputs, total) <==>
        || Reachable(a, total - b)
        || (exists v :: Reachable(a, v) && v * b == total)
        || (exists v: nat :: Reachable(a, v) && Concat(v, b) == total)
  {
    var a, b := inputs[..|inputs| - 1], inputs[|inputs| - 1];
    assert AllPositive(a);
    if Reachable(inputs, total) {
      var ops: seq<Op> :| |ops| == |inputs| - 1 && Eval(inputs, ops) == total;
      var pre := ops[..|ops| - 1];
      assert ops == pre + [ops[|ops| - 1]];
      EvalSnoc(inputs, pre, ops[|ops| - 1]);
      EvalPositive(a, pre);
      assert Reachable(a, Eval(a, pre));
    }
    if Reachable(a, total - b) {
      var pre: seq<Op> :| |pre| == |a| - 1 && Eval(a, pre) == total - b;
      EvalSnoc(inputs, pre, Plus);
      assert Eval(inputs, pre + [Plus]) == total;
    }
    if exists v :: Reachable(a, v) && v * b == total {
      var v :| Reachable(a, v) && v * b == total;
      var pre: seq<Op> :| |pre| == |a| - 1 && Eval(a, pre) == v;
      EvalSnoc(inputs, pre, Times);
      assert Eval(inputs, pre + [Times]) == total;
    }
    if exists v: nat :: Reachable(a, v) && Concat(v, b) == total {
      var v: nat :| Reachable(a, v) && Concat(v, b) == total;
      var pre: seq<Op> :| |pre| == |a| - 1 && Eval(a, pre) == v;
      EvalSnoc(inputs, pre, Join);
      assert Eval(inputs, pre + [Join]) == total;
    }
  }

  /** Undoing an addition: for positive inputs the guard b < total loses
      nothing, since every reachable value is positive. */
  lemma PlusBranch(a: seq<int>, b: int, total: int)
    requires |a| >= 1 && AllPositive(a)
    ensures (b < total && Reachable(a, total - b)) <==> Reachable(a, total - b)
  {
    if Reachable(a, total - b) {
      var pre: seq<Op> :| |pre| == |a| - 1 && Eval(a, pre) == total - b;
      EvalPositive(a, pre);
    }
  }

  /** Undoing a multiplication: the exact quotient is the only candidate. */
  lemma TimesBranch(a: seq<int>, b: int, total: int)
    requires |a| >= 1 && b != 0
    ensures (Rem(total, b) == 0 && Reachable(a, Quot(total, b)))
      <==> exists v :: Reachable(a, v) && v * b == total
  {
    if exists v :: Reachable(a, v) && v * b == total {
      var v :| Reachable(a, v) && v * b == total;
      QuotOfMultiple(v, b);
    }
  }

  /** Undoing a concatenation: the split-off prefix is the only candidate. */
  lemma JoinBranch(a: seq<int>, b: int, total: int)
    requires |a| >= 1 && AllPositive(a) && b >= 1
    ensures (Split(total, b).1 && Reachable(a, Split(total, b).0))
      <==> exists v: nat :: Reachable(a, v) && Concat(v, b) == total
  {
    if exists v: nat :: Reachable(a, v) && Concat(v, b) == total {
      var v: nat :| Reachable(a, v) && Concat(v, b) == total;
      var pre: seq<Op> :| |pre| == |a| - 1 && Eval(a, pre) == v;
      EvalPositive(a, pre);
      SplitConcat(v, b);
    }
    if Split(total, b).1 {
      SplitJoins(total, b);
    }
  }

  /** For positive inputs, Search answers exactly whether some choice of +,
      * and concatenation evaluates to the total. */
  lemma {:induction false} SearchCorrect(inputs: seq<int>, total: int)
    requires |inputs| >= 1 && AllPositive(inputs)
    ensures NonZeroTail(inputs)
    ensures Search(inputs, total) <==> Reachable(inputs, total)
    decreases |inputs|
  {
    if |inputs| == 1 {
      if Search(inputs, total) {
        assert Eval(inputs, []) == total;
      }
    } else {
      var a, b := inputs[..|inputs| - 1], inputs[|inputs| - 1];
      assert AllPositive(a);
      forall t
        ensures Search(a, t) <==> Reachable(a, t)
      {
        SearchCorrect(a, t);
      }
      ReachableStep(inputs, total);
      PlusBranch(a, b, total);
      TimesBranch(a, b, total);
      JoinBranch(a, b, total);
    }
  }
}
