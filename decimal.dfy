/** Decimal text of integers, as Go's strconv.Itoa / FormatInt write it and
    strconv.Atoi / ParseInt read it back (07-2, 11-1, 11-2 split and join
    numbers through their decimal text). */
module Decimal {

  function Pow10(k: nat): (r: nat)
    ensures r >= 1
  {
    if k == 0 then 1 else 10 * Pow10(k - 1)
  }

  predicate IsDigit(c: char)
  {
    '0' <= c <= '9'
  }

  predicate AllDigits(s: string)
  {
    forall i :: 0 <= i < |s| ==> IsDigit(s[i])
  }

  /** A digit string as FormatInt writes a non-negative number: at least one
      digit, and no leading zero unless it is "0" itself. */
  predicate Canonical(s: string)
  {
    |s| >= 1 && AllDigits(s) && (|s| > 1 ==> s[0] != '0')
  }

  function DigitChar(d: nat): (c: char)
    requires d < 10
    ensures IsDigit(c)
  {
    (d + '0' as int) as char
  }

  function DigitValue(c: char): (d: nat)
    requires IsDigit(c)
    ensures d < 10 && DigitChar(d) == c
  {
    c as int - '0' as int
  }

  /** strconv.Itoa: a minus sign for negative values, then the digits. */
  function Text(n: int): string
    decreases if n < 0 then 1 - n else n
  {
    if n < 0 then "-" + Text(-n)
    else if n < 10 then [DigitChar(n)]
    else Text(n / 10) + [DigitChar(n % 10)]
  }

  /** strconv.Atoi on a string of digits (leading zeros allowed). */
  function Parse(s: string): (r: nat)
    requires AllDigits(s)
  {
    if s == [] then 0 else 10 * Parse(s[..|s| - 1]) + DigitValue(s[|s| - 1])
  }

  /** The text of a non-negative number is canonical; that of a negative one
      is a minus sign followed by canonical digits. */
  lemma {:induction false} TextShape(n: int)
    ensures n >= 0 ==> Canonical(Text(n))
    ensures n < 0 ==> Text(n)[0] == '-' && Canonical(Text(n)[1..])
    ensures n >= 10 ==> |Text(n)| >= 2
    ensures n >= 1 ==> Text(n)[0] != '0'
    decreases if n < 0 then 1 - n else n
  {
    if n < 0 {
      TextShape(-n);
      assert Text(n)[1..] == Text(-n);
    } else if n >= 10 {
      TextShape(n / 10);
      var t := Text(n / 10);
      assert Text(n) == t + [DigitChar(n % 10)];
      assert Text(n)[0] == t[0];
      if |t| == 1 {
        assert t[0] != '0' by {
          assert t == [DigitChar(n / 10)];
        }
      }
    }
  }

  /** Reading back what was written gives the number. */
  lemma {:induction false} ParseText(n: nat)
    ensures AllDigits(Text(n)) && Parse(Text(n)) == n
  {
    TextShape(n);
    if n >= 10 {
      ParseText(n / 10);
      var t := Text(n);
      assert t[..|t| - 1] == Text(n / 10);
    }
  }

  /** Writing what was read gives the string back, when it is canonical. */
  lemma {:induction false} TextParse(s: string)
    requires Canonical(s)
    ensures Text(Parse(s)) == s
    ensures |s| > 1 ==> Parse(s) >= 10
    decreases |s|
  {
    if |s| > 1 {
      var init := s[..|s| - 1];
      assert Canonical(init) && init[0] == s[0];
      TextParse(init);
      ParseAtLeastOne(init);
      var d := DigitValue(s[|s| - 1]);
      var p := Parse(init);
      assert Parse(s) == 10 * p + d;
      assert Parse(s) / 10 == p && Parse(s) % 10 == d;
      assert s == init + [s[|s| - 1]];
    }
  }

  /** A canonical string with more than one digit starts with a non-zero
      digit, so it reads as a positive number. */
  lemma {:induction false} ParseAtLeastOne(s: string)
    requires AllDigits(s) && |s| >= 1 && s[0] != '0'
    ensures Parse(s) >= 1
    decreases |s|
  {
    if |s| > 1 {
      ParseAtLeastOne(s[..|s| - 1]);
    }
  }

  /** Reading a concatenation: the left part is shifted by one decimal place
      per digit of the right part. */
  lemma {:induction false} ParseAppend(x: string, y: string)
    requires AllDigits(x) && AllDigits(y)
    ensures AllDigits(x + y)
    ensures Parse(x + y) == Parse(x) * Pow10(|y|) + Parse(y)
    decreases |y|
  {
    if y != [] {
      var y' := y[..|y| - 1];
      assert (x + y)[..|x + y| - 1] == x + y';
      ParseAppend(x, y');
      var d := DigitValue(y[|y| - 1]);
      ShiftOneDigit(Parse(x), Pow10(|y'|), Parse(y'), d);
    } else {
      assert x + y == x;
    }
  }

  lemma ShiftOneDigit(a: int, p: int, b: int, d: int)
    ensures 10 * (a * p + b) + d == a * (10 * p) + (10 * b + d)
  {
  }

  // ---------------------------------------------------------------------
  // Cutting a number's decimal text, in arithmetic

  /** The length of Text(n), counted by repeated division. */
  function NumDigits(n: nat): (r: nat)
    ensures r >= 1
  {
    if n < 10 then 1 else 1 + NumDigits(n / 10)
  }

  /** The number spelled by all but the last k digits of n. */
  function DropDigits(n: nat, k: nat): nat
  {
    if k == 0 then n else DropDigits(n / 10, k - 1)
  }

  /** The number spelled by the last k digits of n (leading zeros dropped). */
  function KeepDigits(n: nat, k: nat): nat
  {
    if k == 0 then 0 else 10 * KeepDigits(n / 10, k - 1) + n % 10
  }

  lemma {:induction false} TextLength(n: nat)
    ensures |Text(n)| == NumDigits(n)
    decreases n
  {
    if n >= 10 {
      TextLength(n / 10);
    }
  }

  /** The two parts of a cut glue back to the number. */
  lemma {:induction false} CutRejoins(n: nat, k: nat)
    ensures DropDigits(n, k) * Pow10(k) + KeepDigits(n, k) == n
    decreases k
  {
    if k > 0 {
      CutRejoins(n / 10, k - 1);
      ShiftOneDigit(DropDigits(n / 10, k - 1), Pow10(k - 1), KeepDigits(n / 10, k - 1), n % 10);
    }
  }

  /** Atoi of a cut of Itoa's text is the arithmetic cut: the first
      |Text(n)| - k characters spell DropDigits(n, k) and the last k spell
      KeepDigits(n, k). */
  lemma {:induction false} CutText(n: nat, k: nat)
    requires k <= NumDigits(n)
    ensures var t := Text(n);
      && |t| == NumDigits(n)
      && AllDigits(t)
      && Parse(t[..|t| - k]) == DropDigits(n, k)
      && Parse(t[|t| - k..]) == KeepDigits(n, k)
    decreases n
  {
    var t := Text(n);
    ParseText(n);
    TextLength(n);
    if k == 0 {
      assert t[..|t|] == t;
      assert t[|t|..] == [];
    } else if n < 10 {
      assert t[..0] == [] && t[0..] == t;
      assert Parse(t) == n;
    } else {
      CutStep(n, k);
    }
  }

  lemma CutStep(n: nat, k: nat)
    requires n >= 10 && 1 <= k <= NumDigits(n)
    ensures var t := Text(n);
      && AllDigits(t) && |t| == NumDigits(n)
      && Parse(t[..|t| - k]) == DropDigits(n, k)
      && Parse(t[|t| - k..]) == KeepDigits(n, k)
  {
    TextSnoc(n);
    TextLength(n / 10);
    CutText(n / 10, k - 1);
    DigitRoundTrip(n % 10);
    CutOneMore(Text(n / 10), DigitChar(n % 10), k, n);
  }

  /** One more digit d = n % 10 after the text t' of n / 10: the cuts of
      t' for k - 1 give the cuts of t' + [d] for k. */
  lemma CutOneMore(t': string, d: char, k: nat, n: nat)
    requires AllDigits(t') && IsDigit(d) && 1 <= k <= |t'| + 1
    requires |t'| + 1 == NumDigits(n) && n >= 10
    requires DigitValue(d) == n % 10
    requires Parse(t'[..|t'| - (k - 1)]) == DropDigits(n / 10, k - 1)
    requires Parse(t'[|t'| - (k - 1)..]) == KeepDigits(n / 10, k - 1)
    ensures var t := t' + [d];
      && AllDigits(t) && |t| == NumDigits(n)
      && Parse(t[..|t| - k]) == DropDigits(n, k)
      && Parse(t[|t| - k..]) == KeepDigits(n, k)
  {
    CutSnoc(t', d, k);
  }

  lemma TextSnoc(n: nat)
    requires n >= 10
    ensures Text(n) == Text(n / 10) + [DigitChar(n % 10)]
  {
  }

  lemma DigitRoundTrip(d: nat)
    requires d < 10
    ensures DigitValue(DigitChar(d)) == d
  {
  }

  /** Cutting t' + [d]: the head is a head of t', the tail is a tail of t'
      followed by d. */
  lemma CutSnoc(t': string, d: char, k: nat)
    requires AllDigits(t') && IsDigit(d) && 1 <= k <= |t'| + 1
    ensures var t := t' + [d];
      && AllDigits(t)
      && Parse(t[..|t| - k]) == Parse(t'[..|t'| - (k - 1)])
      && Parse(t[|t| - k..]) == 10 * Parse(t'[|t'| - (k - 1)..]) + DigitValue(d)
  {
    var t := t' + [d];
    assert t[..|t| - k] == t'[..|t'| - (k - 1)];
    var tail := t[|t| - k..];
    assert tail[..k - 1] == t'[|t'| - (k - 1)..];
  }
}
