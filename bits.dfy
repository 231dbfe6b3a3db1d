/** Bitwise operations on non-negative integers, shared by the models that
    need exclusive or without fixing a word size. */
module Bits {

  function Pow2(k: nat): (r: nat)
    ensures r >= 1
  {
    if k == 0 then 1 else 2 * Pow2(k - 1)
  }

  /** Bitwise exclusive or on non-negative integers, bit by bit. */
  function Xor(x: nat, y: nat): nat
    decreases x + y
  {
    if x == 0 then y
    else if y == 0 then x
    else 2 * Xor(x / 2, y / 2) + (if x % 2 == y % 2 then 0 else 1)
  }

  lemma {:induction false} XorZeroRight(x: nat)
    ensures Xor(x, 0) == x
  {
  }

  lemma {:induction false} XorCommutes(x: nat, y: nat)
    ensures Xor(x, y) == Xor(y, x)
    decreases x + y
  {
    if x != 0 && y != 0 {
      XorCommutes(x / 2, y / 2);
    }
  }

  /** Applying the same mask twice restores the register (BXL twice is a no-op). */
  lemma {:induction false} XorInvolution(x: nat, y: nat)
    ensures Xor(Xor(x, y), y) == x
    decreases x + y
  {
    if x == 0 {
      XorSelf(y);
    } else if y == 0 {
    } else {
      XorInvolution(x / 2, y / 2);
      var z := Xor(x / 2, y / 2);
      var bit := if x % 2 == y % 2 then 0 else 1;
      assert Xor(x, y) == 2 * z + bit;
      if 2 * z + bit == 0 {
        assert z == 0 && bit == 0;
        XorSelf(y / 2);
        XorInvolution(x / 2, y / 2);
        assert x / 2 == y / 2;
        assert x == y;
      } else {
        assert (2 * z + bit) / 2 == z;
        assert (2 * z + bit) % 2 == bit;
      }
    }
  }

  lemma {:induction false} XorSelf(x: nat)
    ensures Xor(x, x) == 0
    decreases x
  {
    if x != 0 {
      XorSelf(x / 2);
    }
  }

  /** Xor never needs more bits than its wider operand, so registers that start
      below 2^k (k = 63 for Go's int) stay below 2^k. */
  lemma {:induction false} XorBound(x: nat, y: nat, k: nat)
    requires x < Pow2(k) && y < Pow2(k)
    ensures Xor(x, y) < Pow2(k)
    decreases k
  {
    if x != 0 && y != 0 {
      assert k > 0;
      XorBound(x / 2, y / 2, k - 1);
    }
  }

  /** Bit k of x. */
  predicate TestBit(x: nat, k: nat)
  {
    if k == 0 then x % 2 == 1 else TestBit(x / 2, k - 1)
  }

  /** `x | 1 << k`: x with bit k set. */
  function SetBit(x: nat, k: nat): nat
  {
    if k == 0 then (if x % 2 == 1 then x else x + 1)
    else 2 * SetBit(x / 2, k - 1) + x % 2
  }

  /** Setting bit k sets that bit and leaves every other bit alone. */
  lemma {:induction false} SetBitTest(x: nat, k: nat, j: nat)
    ensures TestBit(SetBit(x, k), j) <==> j == k || TestBit(x, j)
  {
    var r := SetBit(x, k);
    if k == 0 {
      if j > 0 {
        assert r / 2 == x / 2;
      }
    } else {
      assert r / 2 == SetBit(x / 2, k - 1) && r % 2 == x % 2;
      if j > 0 {
        SetBitTest(x / 2, k - 1, j - 1);
      }
    }
  }

  /** Setting a bit below n keeps a number below 2^n. */
  lemma {:induction false} SetBitBound(x: nat, k: nat, n: nat)
    requires x < Pow2(n) && k < n
    ensures SetBit(x, k) < Pow2(n)
    decreases k
  {
    assert Pow2(n) == 2 * Pow2(n - 1);
    if k > 0 {
      SetBitBound(x / 2, k - 1, n - 1);
    }
  }

  /** Zero has no bit set. */
  lemma {:induction false} TestBitZero(j: nat)
    ensures !TestBit(0, j)
  {
    if j > 0 {
      TestBitZero(j - 1);
    }
  }
}
