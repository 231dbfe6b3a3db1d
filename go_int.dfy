/** Go's integer division and remainder: the quotient is truncated toward
    zero and the remainder takes the sign of the dividend (Dafny's own `/` and
    `%` are Euclidean, so they differ for negative operands). */
module GoInt {

  /** math.MaxInt on a 64-bit platform. */
  const MaxInt: int := 0x7fff_ffff_ffff_ffff

  /** A Go `int` result as the machine holds it: the exact value wrapped into
      the 64-bit two's-complement range. */
  function Wrap64(x: int): (r: int)
    ensures -MaxInt - 1 <= r <= MaxInt
    ensures (x - r) % 0x1_0000_0000_0000_0000 == 0
    ensures -MaxInt - 1 <= x <= MaxInt ==> r == x
    ensures MaxInt < x <= MaxInt + 0x1_0000_0000_0000_0000 ==> r == x - 0x1_0000_0000_0000_0000
  {
    (x + MaxInt + 1) % 0x1_0000_0000_0000_0000 - MaxInt - 1
  }

  function Abs(x: int): nat
  {
    if x < 0 then -x else x
  }

  /** `x / d` in Go. */
  function Quot(x: int, d: int): int
    requires d != 0
  {
    if (x < 0) == (d < 0) then Abs(x) / Abs(d) else -(Abs(x) / Abs(d))
  }

  /** `x % d` in Go. */
  function Rem(x: int, d: int): (r: int)
    requires d != 0
    ensures Quot(x, d) * d + r == x
  {
    x - Quot(x, d) * d
  }

  /** The remainder is the Euclidean remainder of the magnitudes, carrying
      the dividend's sign. */
  lemma RemOfMagnitudes(x: int, d: int)
    requires d != 0
    ensures Rem(x, d) == if x >= 0 then Abs(x) % Abs(d) else -(Abs(x) % Abs(d))
  {
    var ax: int, ad: int := Abs(x), Abs(d);
    var q: int, m: int := ax / ad, ax % ad;
    assert ax == q * ad + m;
    NegateFactor(q, ad);
    if d > 0 {
      assert d == ad;
    } else {
      assert d == -ad;
    }
  }

  lemma NegateFactor(a: int, b: int)
    ensures (-a) * b == -(a * b) && a * (-b) == -(a * b) && (-a) * (-b) == a * b
  {
  }

  /** The remainder is smaller than the divisor and never has the opposite
      sign of the dividend. */
  lemma RemBounds(x: int, d: int)
    requires d != 0
    ensures Abs(Rem(x, d)) < Abs(d)
    ensures x >= 0 ==> Rem(x, d) >= 0
    ensures x <= 0 ==> Rem(x, d) <= 0
  {
    RemOfMagnitudes(x, d);
  }

  /** The remainder is zero exactly when d divides x, and then the quotient is
      the cofactor. */
  lemma RemZeroIffMultiple(x: int, d: int)
    requires d != 0
    ensures Rem(x, d) == 0 <==> x == Quot(x, d) * d
  {
  }

  lemma QuotOfMultiple(v: int, d: int)
    requires d != 0
    ensures Rem(v * d, d) == 0 && Quot(v * d, d) == v
  {
    var q := Quot(v * d, d);
    var r := Rem(v * d, d);
    RemBounds(v * d, d);
    assert (v - q) * d == r;
    if v != q {
      AbsMul(v - q, d);
    }
  }

  lemma AbsMul(a: int, b: int)
    requires a != 0
    ensures Abs(a * b) >= Abs(b)
  {
    if a > 0 {
      if b >= 0 { assert a * b >= b; } else { assert a * b <= b; }
    } else {
      if b >= 0 { assert a * b <= -b; } else { assert a * b >= -b; }
    }
  }

  /** Euclidean division is determined by its defining equation: a quotient
      and remainder in [0, w) that recombine to x are x / w and x % w. */
  lemma ModUnique(x: int, w: int, q: int, r: int)
    requires w > 0 && x == q * w + r && 0 <= r < w
    ensures x / w == q && x % w == r
  {
    var q', r' := x / w, x % w;
    assert (q - q') * w == r' - r;
    if q != q' {
      AbsMul(q - q', w);
    }
  }
}
