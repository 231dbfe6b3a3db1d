/** Day 11, part 2 (11-2/main.go): the number of stones one stone becomes
    after n blinks, computed recursively and memoised in a table keyed by
    (value, blinks). */
module StoneCount {
  import opened Decimal
  import opened StoneLine

  /** The source's Blink without its table. */
  function Count(value: nat, iters: nat): nat
    decreases iters
  {
    if iters == 0 then 1
    else if value == 0 then Count(1, iters - 1)
    else if EvenDigits(value) then
      Count(LeftHalf(value), iters - 1) + Count(RightHalf(value), iters - 1)
    else Count(value * 2024, iters - 1)
  }

  /** A count with blinks left is the count of what the part-1 rule turns
      the stone into. */
  lemma CountByRule(value: nat, iters: nat)
    requires iters >= 1
    ensures 1 <= |Rule(value)| <= 2
    ensures var r := Rule(value);
      Count(value, iters) == if |r| == 1 then Count(r[0], iters - 1)
                             else Count(r[0], iters - 1) + Count(r[1], iters - 1)
  {
    RuleShape(value);
  }

  /** The count is the length of the line one stone becomes under the
      part-1 rule. */
  lemma {:induction false} CountIsLineLength(value: nat, iters: nat)
    ensures Count(value, iters) == |Iterate([value], iters)|
    decreases iters
  {
    if iters > 0 {
      var r := Rule(value);
      CountByRule(value, iters);
      CountIsLineLength(r[0], iters - 1);
      if |r| == 2 {
        CountIsLineLength(r[1], iters - 1);
      }
      calc {
        |Iterate([value], iters)|;
        { FirstBlink(value, iters); }
        |Iterate(r, iters - 1)|;
        { LineOfParts(r, iters - 1); }
        if |r| == 1 then |Iterate([r[0]], iters - 1)|
        else |Iterate([r[0]], iters - 1)| + |Iterate([r[1]], iters - 1)|;
      }
    }
  }

  /** A stone never disappears, so the count is at least one. */
  lemma {:induction false} CountAtLeastOne(value: nat, iters: nat)
    ensures Count(value, iters) >= 1
    decreases iters
  {
    if iters > 0 {
      CountByRule(value, iters);
      CountAtLeastOne(Rule(value)[0], iters - 1);
    }
  }

  lemma FirstBlink(value: nat, n: nat)
    requires n >= 1
    ensures Iterate([value], n) == Iterate(Rule(value), n - 1)
  {
    assert StepAll([value]) == Rule(value) by {
      assert [value][..0] == [];
    }
  }

  lemma LineOfParts(r: seq<nat>, n: nat)
    requires 1 <= |r| <= 2
    ensures |Iterate(r, n)| == if |r| == 1 then |Iterate([r[0]], n)|
                               else |Iterate([r[0]], n)| + |Iterate([r[1]], n)|
  {
    if |r| == 2 {
      assert r == [r[0]] + [r[1]];
      IterateAppend([r[0]], [r[1]], n);
    } else {
      assert r == [r[0]];
    }
  }

  /** A whole line's count is the sum of its stones' counts. */
  function CountAll(stones: seq<nat>, iters: nat): nat
  {
    if stones == [] then 0
    else CountAll(stones[..|stones| - 1], iters) + Count(stones[|stones| - 1], iters)
  }

  /** The source's main loop total is the length of the part-1 line. */
  lemma {:induction false} CountAllIsLineLength(stones: seq<nat>, iters: nat)
    ensures CountAll(stones, iters) == |Iterate(stones, iters)|
    decreases |stones|
  {
    if stones == [] {
      IterateEmpty(iters);
    } else {
      var init, last := stones[..|stones| - 1], stones[|stones| - 1];
      assert stones == init + [last];
      CountAllIsLineLength(init, iters);
      CountIsLineLength(last, iters);
      IterateAppend(init, [last], iters);
    }
  }

  lemma {:induction false} IterateEmpty(n: nat)
    ensures Iterate([], n) == []
    decreases n
  {
    if n > 0 {
      IterateEmpty(n - 1);
    }
  }

  /** A memo-table key: a stone's value and the blinks still to do. */
  datatype Question = Question(value: nat, iters: nat)

  /** The memo table of the source (a package-level map there). */
  class Memo {
    var Answers: map<Question, nat>

    /** Every stored answer is the true count, and only questions with at
        least one blink are stored. */
    ghost predicate Valid()
      reads this
    {
      forall q :: q in Answers ==> q.iters >= 1 && Answers[q] == Count(q.value, q.iters)
    }

    constructor ()
      ensures Valid() && Answers == map[]
    {
      Answers := map[];
    }

    /** The source's Blink: answers from the table when it can, otherwise
        recurses and stores what it computed before returning it. */
    method Blink(value: nat, iters: nat) returns (r: nat)
      requires Valid()
      modifies this
      ensures Valid()
      ensures r == Count(value, iters)
      ensures old(Answers).Keys <= Answers.Keys
      ensures forall q :: q in old(Answers) ==> Answers[q] == old(Answers)[q]
      ensures iters >= 1 ==> Question(value, iters) in Answers
      decreases iters
    {
      if iters == 0 {
        return 1;
      }
      var q := Question(value, iters);
      if q in Answers {
        return Answers[q];
      }
      if value == 0 {
        r := Blink(1, iters - 1);
        assert r == Count(value, iters);
      } else {
        var vText := Text(value);
        HalvesAreText(value);
        if |vText| % 2 == 0 {
          var s1 := Parse(vText[..|vText| / 2]);
          var s2 := Parse(vText[|vText| / 2..]);
          var r1 := Blink(s1, iters - 1);
          var r2 := Blink(s2, iters - 1);
          r := r1 + r2;
          assert r == Count(value, iters);
        } else {
          r := Blink(value * 2024, iters - 1);
          assert r == Count(value, iters);
        }
      }
      Answers := Answers[q := r];
    }

    /** The source's main: the total over the initial line. */
    method Total(stones: seq<nat>, iters: nat) returns (tot: nat)
      requires Valid()
      modifies this
      ensures Valid()
      ensures tot == CountAll(stones, iters) == |Iterate(stones, iters)|
    {
      tot := 0;
      for i := 0 to |stones|
        invariant Valid()
        invariant tot == CountAll(stones[..i], iters)
      {
        assert stones[..i + 1][..i] == stones[..i];
        var c := Blink(stones[i], iters);
        tot := tot + c;
      }
      assert stones[..|stones|] == stones;
      CountAllIsLineLength(stones, iters);
    }
  }
}
