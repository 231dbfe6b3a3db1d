/** Day 7, part 1 (07-1/main.go): can + and * placed between the inputs,
    evaluated left to right, produce the total? Search works backwards from
    the last input, undoing an addition or, when the division is exact, a
    multiplication. */
module OperatorSearch {
  import opened GoInt

  /** Every input after the first is non-zero: the source divides by it. */
  predicate NonZeroTail(inputs: seq<int>)
  {
    forall i :: 1 <= i < |inputs| ==> inputs[i] != 0
  }

  /** The source's Search, with Go's truncating `/` and `%`. */
  function Search(inputs: seq<int>, total: int): bool
    requires |inputs| >= 1 && NonZeroTail(inputs)
    decreases |inputs|
  {
    if |inputs| == 1 then inputs[0] == total
    else
      var a, b := inputs[..|inputs| - 1], inputs[|inputs| - 1];
      if Search(a, total - b) then true
      else Rem(total, b) == 0 && Search(a, Quot(total, b))
  }

  // ---------------------------------------------------------------------
  // Reference: left-to-right evaluation under a choice of operators

  datatype Op = Plus | Times

  function Apply(op: Op, x: int, y: int): int
  {
    match op
    case Plus => x + y
    case Times => x * y
  }

  /** Evaluate inputs[0] op[0] inputs[1] op[1] ... strictly left to right. */
  function Eval(inputs: seq<int>, ops: seq<Op>): int
    requires |inputs| >= 1 && |ops| == |inputs| - 1
    decreases |inputs|
  {
    if |inputs| == 1 then inputs[0]
    else
      var n := |inputs| - 1;
      Apply(ops[n - 1], Eval(inputs[..n], ops[..n - 1]), inputs[n])
  }

  /** Some choice of operators evaluates to `total`. */
  ghost predicate Reachable(inputs: seq<int>, total: int)
    requires |inputs| >= 1
  {
    exists ops: seq<Op> :: |ops| == |inputs| - 1 && Eval(inputs, ops) == total
  }

  /** Extending a choice for the prefix by one operator. */
  lemma EvalSnoc(inputs: seq<int>, ops: seq<Op>, op: Op)
    requires |inputs| >= 2 && |ops| == |inputs| - 2
    ensures Eval(inputs, ops + [op])
      == Apply(op, Eval(inputs[..|inputs| - 1], ops), inputs[|inputs| - 1])
  {
    assert (ops + [op])[..|ops|] == ops;
  }

  /** The total is reachable exactly when it is the last input added to, or
      multiplied by, a value reachable from the prefix. */
  lemma ReachableStep(inputs: seq<int>, total: int)
    requires |inputs| >= 2
    ensures var a, b := inputs[..|inputs| - 1], inputs[|inputs| - 1];
      Reachable(inputs, total) <==> Reachable(a, total - b) || exists v :: Reachable(a, v) && v * b == total
  {
    var a, b := inputs[..|inputs| - 1], inputs[|inputs| - 1];
    if Reachable(inputs, total) {
      var ops: seq<Op> :| |ops| == |inputs| - 1 && Eval(inputs, ops) == total;
      var pre := ops[..|ops| - 1];
      assert ops == pre + [ops[|ops| - 1]];
      EvalSnoc(inputs, pre, ops[|ops| - 1]);
      assert Reachable(a, Eval(a, pre));
    }
    if Reachable(a, total - b) {
      var pre: seq<Op> :| |pre| == |a| - 1 && Eval(a, pre) == total - b;
      EvalSnoc(inputs, pre, Plus);
      assert Eval(inputs, pre + [Plus]) == total;
    }
    if exists v :: Reachable(a, v) && v * b == total {
      var v :| Reachable(a, v) && v * b == total;
      var pre: seq<Op> :| |pre| == |a| - 1 && Eval(a, pre) == v;
      EvalSnoc(inputs, pre, Times);
      assert Eval(inputs, pre + [Times]) == total;
    }
  }

  /** Search answers exactly whether some choice of + and * evaluates to the
      total. */
  lemma {:induction false} SearchCorrect(inputs: seq<int>, total: int)
    requires |inputs| >= 1 && NonZeroTail(inputs)
    ensures Search(inputs, total) <==> Reachable(inputs, total)
    decreases |inputs|
  {
    if |inputs| == 1 {
      if Search(inputs, total) {
        assert Eval(inputs, []) == total;
      }
    } else {
      var a, b := inputs[..|inputs| - 1], inputs[|inputs| - 1];
      assert NonZeroTail(a);
      ReachableStep(inputs, total);
      SearchCorrect(a, total - b);
      SearchCorrect(a, Quot(total, b));
      if exists v :: Reachable(a, v) && v * b == total {
        var v :| Reachable(a, v) && v * b == total;
        QuotOfMultiple(v, b);
      }
    }
  }
}
