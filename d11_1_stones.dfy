/** Day 11, part 1 (11-1/main.go): each blink replaces every stone by one or
    two stones, in place in the line, and the answer is the line's length. */
module StoneLine {
  import opened Decimal

  /** What one stone becomes: 0 becomes 1; a number with an even count of
      digits splits into the numbers its left and right halves spell (leading
      zeros dropped); anything else is multiplied by 2024. */
  function Rule(s: nat): seq<nat>
  {
    if s == 0 then [1]
    else if EvenDigits(s) then [LeftHalf(s), RightHalf(s)]
    else [s * 2024]
  }

  /** Itoa(s) has an even number of characters. */
  predicate EvenDigits(s: nat)
  {
    NumDigits(s) % 2 == 0
  }

  /** Atoi of the first half of Itoa(s). */
  function LeftHalf(s: nat): nat
  {
    DropDigits(s, NumDigits(s) / 2)
  }

  /** Atoi of the second half of Itoa(s). */
  function RightHalf(s: nat): nat
  {
    KeepDigits(s, NumDigits(s) / 2)
  }

  /** The arithmetic halves are what the source computes on the text: the
      text's length decides the branch, and Atoi of each half of the text
      gives LeftHalf and RightHalf. */
  lemma HalvesAreText(s: nat)
    ensures var t := Text(s);
      && AllDigits(t)
      && (EvenDigits(s) <==> |t| % 2 == 0)
      && (EvenDigits(s) ==> Parse(t[..|t| / 2]) == LeftHalf(s) && Parse(t[|t| / 2..]) == RightHalf(s))
  {
    var t := Text(s);
    CutText(s, NumDigits(s) / 2);
  }

  /** One blink over the whole line, stone by stone from the left. */
  function StepAll(stones: seq<nat>): seq<nat>
  {
    if stones == [] then []
    else StepAll(stones[..|stones| - 1]) + Rule(stones[|stones| - 1])
  }

  /** n blinks. */
  function Iterate(stones: seq<nat>, n: nat): seq<nat>
    decreases n
  {
    if n == 0 then stones else Iterate(StepAll(stones), n - 1)
  }

  /** A stone turns into one or two stones; two exactly when its digit count
      is even (0 has one digit), and then the halves glue back to it. */
  lemma RuleShape(s: nat)
    ensures 1 <= |Rule(s)| <= 2
    ensures s == 0 ==> Rule(s) == [1]
    ensures s != 0 && !EvenDigits(s) ==> Rule(s) == [s * 2024]
    ensures |Rule(s)| == 2 <==> s != 0 && EvenDigits(s)
    ensures |Rule(s)| == 2 ==> Rule(s)[0] * Pow10(NumDigits(s) / 2) + Rule(s)[1] == s
  {
    if s != 0 && EvenDigits(s) {
      HalvesRejoin(s);
    }
  }

  /** The two halves of an even-length number glue back to it. */
  lemma HalvesRejoin(s: nat)
    ensures LeftHalf(s) * Pow10(NumDigits(s) / 2) + RightHalf(s) == s
  {
    CutRejoins(s, NumDigits(s) / 2);
  }

  /** A blink treats the two parts of a line independently, so the stones
      keep their relative order. */
  lemma {:induction false} StepAllAppend(a: seq<nat>, b: seq<nat>)
    ensures StepAll(a + b) == StepAll(a) + StepAll(b)
    decreases |b|
  {
    if b == [] {
      assert a + b == a;
    } else {
      var b' := b[..|b| - 1];
      assert (a + b)[..|a + b| - 1] == a + b';
      StepAllAppend(a, b');
    }
  }

  /** A blink never shortens the line. */
  lemma {:induction false} StepAllGrows(stones: seq<nat>)
    ensures |StepAll(stones)| >= |stones|
    decreases |stones|
  {
    if stones != [] {
      StepAllGrows(stones[..|stones| - 1]);
      RuleShape(stones[|stones| - 1]);
    }
  }

  /** Blinking a line is blinking its parts. */
  lemma {:induction false} IterateAppend(a: seq<nat>, b: seq<nat>, n: nat)
    ensures Iterate(a + b, n) == Iterate(a, n) + Iterate(b, n)
    decreases n
  {
    if n > 0 {
      var a', b' := StepAll(a), StepAll(b);
      StepAllAppend(a, b);
      IterateAppend(a', b', n - 1);
      calc {
        Iterate(a + b, n);
        Iterate(StepAll(a + b), n - 1);
        Iterate(a' + b', n - 1);
      }
    }
  }

  /** One blink of the source's loop: a new line built stone by stone. */
  method Blink(stones: seq<nat>) returns (stones2: seq<nat>)
    ensures stones2 == StepAll(stones)
  {
    stones2 := [];
    for i := 0 to |stones|
      invariant stones2 == StepAll(stones[..i])
    {
      assert stones[..i + 1][..i] == stones[..i];
      var s := stones[i];
      if s == 0 {
        stones2 := stones2 + [1];
        continue;
      }
      var sText := Text(s);
      HalvesAreText(s);
      if |sText| % 2 == 0 {
        var s1 := Parse(sText[..|sText| / 2]);
        var s2 := Parse(sText[|sText| / 2..]);
        stones2 := stones2 + [s1, s2];
        continue;
      }
      stones2 := stones2 + [s * 2024];
    }
    assert stones[..|stones|] == stones;
  }

  /** The source's outer loop: `iterations` blinks (25 in the source); its
      answer is the length of the result. */
  method BlinkTimes(stones: seq<nat>, iterations: nat) returns (result: seq<nat>)
    ensures result == Iterate(stones, iterations)
    ensures |result| >= |stones|
  {
    result := stones;
    var i := 0;
    while i < iterations
      invariant 0 <= i <= iterations
      invariant Iterate(result, iterations - i) == Iterate(stones, iterations)
      invariant |result| >= |stones|
    {
      StepAllGrows(result);
      result := Blink(result);
      i := i + 1;
    }
  }
}
