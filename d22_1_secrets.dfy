/** The pseudo-random secret numbers of day 22, part 1 (22-1/main.go).
    Go's `int` is a 64-bit two's-complement word, modelled as `bv64`; every
    shift and mask of the source is then exact, wrap-around included. */
module SecretNumbers {

  const PruneMask: bv64 := (1 << 24) - 1

  /** One round of mix and prune: multiply by 64, divide by 32, multiply by
      2048, each time xor-ing into the secret and keeping the low 24 bits.
      The right shift is taken after the first prune, when the value is
      non-negative, so Go's arithmetic shift and the logical one agree. */
  function Generate(i: bv64): (r: bv64)
    ensures r < 1 << 24
  {
    var x := MixPrune(i, i << 6);
    var y := MixPrune(x, x >> 5);
    MixPrune(y, y << 11)
  }

  /** Xor a value into the secret, then keep the low 24 bits. */
  function MixPrune(secret: bv64, v: bv64): (r: bv64)
    ensures r < 1 << 24
  {
    (secret ^ v) & PruneMask
  }

  /** The n-th secret after i: the value GenerateN's loop reaches. */
  function Iterated(i: bv64, n: nat): bv64
    decreases n
  {
    if n == 0 then i else Iterated(Generate(i), n - 1)
  }

  /** The loop of the source: apply Generate n times. */
  method GenerateN(i: bv64, n: int) returns (r: bv64)
    ensures r == Iterated(i, if n < 0 then 0 else n)
    ensures n > 0 ==> r < 1 << 24
  {
    r := i;
    var j := 0;
    while j < n
      invariant n >= 0 ==> 0 <= j <= n
      invariant n < 0 ==> j == 0
      invariant Iterated(r, if n < 0 then 0 else n - j) == Iterated(i, if n < 0 then 0 else n)
      invariant j > 0 ==> r < 1 << 24
    {
      r := Generate(r);
      j := j + 1;
    }
  }

  /** Zero rounds give back the seed. */
  lemma IteratedZero(i: bv64)
    ensures Iterated(i, 0) == i
  {
  }

  /** One more round can be taken at the end as well as at the start. */
  lemma {:induction false} IteratedSuccessor(i: bv64, n: nat)
    ensures Iterated(i, n + 1) == Generate(Iterated(i, n))
    decreases n
  {
    if n > 0 {
      IteratedSuccessor(Generate(i), n - 1);
    }
  }

  /** Running a rounds and then b rounds is running a + b rounds. */
  lemma {:induction false} IteratedAdds(i: bv64, a: nat, b: nat)
    ensures Iterated(Iterated(i, a), b) == Iterated(i, a + b)
    decreases a
  {
    if a > 0 {
      IteratedAdds(Generate(i), a - 1, b);
    }
  }

  /** After at least one round the secret lies in [0, 2^24), whatever the seed. */
  lemma {:induction false} IteratedBounded(i: bv64, n: nat)
    requires n > 0
    ensures Iterated(i, n) < 1 << 24
  {
    IteratedSuccessor(i, n - 1);
  }
}
