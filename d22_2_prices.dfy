/** Buyer prices and packed change sequences of day 22, part 2 (22-2/main.go).
    A `Seq` is a uint32 holding four price changes, one per byte, each stored
    as change + 9; `Price` and `PriceDiff` are int8 and are kept here as
    integers wrapped explicitly to [-128, 128). */
module PriceSequences {
  import opened Bits

  const NumSamples: nat := 2000

  /** Go's conversion of an integer to int8: keep the low 8 bits, signed. */
  function Int8(v: int): (r: int)
    ensures -128 <= r < 128
    ensures -128 <= v < 128 ==> r == v
  {
    (v + 128) % 256 - 128
  }

  /** A uint32 value. */
  type U32 = x: int | 0 <= x < 0x1_0000_0000

  /** Byte k of a packed sequence, most significant first:
      `(in & 0xFF00_0000) >> 24` for k = 0 down to `in & 0xFF` for k = 3. */
  function Byte(s: U32, k: nat): (r: int)
    requires k < 4
    ensures 0 <= r < 256
  {
    if k == 0 then s / 0x100_0000
    else if k == 1 then (s / 0x1_0000) % 256
    else if k == 2 then (s / 0x100) % 256
    else s % 256
  }

  /** The four changes held in a packed sequence, oldest first: each byte,
      read as an int8, minus 9 in int8 arithmetic. */
  function Unpack(s: U32): (r: seq<int>)
    ensures |r| == 4
  {
    [Int8(Int8(Byte(s, 0)) - 9), Int8(Int8(Byte(s, 1)) - 9),
     Int8(Int8(Byte(s, 2)) - 9), Int8(Int8(Byte(s, 3)) - 9)]
  }

  /** Shift the sequence one byte up and put the newest change, plus 9 in
      int8 arithmetic, in the low byte. `(in << 8) & 0xFFFFFF00` is
      (in mod 2^24) * 256; or-ing a non-negative int8 fills the low byte,
      while a negative one is sign-extended to 0xFFFFFFxx and so sets every
      bit above the low byte as well. */
  function AddAndShift(s: U32, diff: int): (r: U32)
    requires -128 <= diff < 128
  {
    var v := Int8(diff + 9);
    if v >= 0 then (s % 0x100_0000) * 256 + v else 0xFFFF_FF00 + (v + 256)
  }

  /** The low byte receives diff + 9 and the old low three bytes move up one
      byte, for every change a price difference can take. */
  lemma AddAndShiftBytes(s: U32, d: int)
    requires -9 <= d <= 9
    ensures var t := AddAndShift(s, d);
      Byte(t, 0) == Byte(s, 1) && Byte(t, 1) == Byte(s, 2) && Byte(t, 2) == Byte(s, 3) && Byte(t, 3) == d + 9
  {
    var lo := s % 0x100_0000;
    var e := d + 9;
    var t := lo * 256 + e;
    assert t == AddAndShift(s, d);
    ByteAppend(lo, e);
    LowBytes(s);
  }

  /** Appending a byte below a number: the quotient by 256 gives the number
      back, and the quotients by 2^16 and 2^24 are those of the number by
      2^8 and 2^16. */
  lemma ByteAppend(lo: nat, e: int)
    requires lo < 0x100_0000 && 0 <= e < 256
    ensures (lo * 256 + e) % 256 == e
    ensures (lo * 256 + e) / 0x100 % 256 == lo % 256
    ensures (lo * 256 + e) / 0x1_0000 % 256 == lo / 0x100 % 256
    ensures (lo * 256 + e) / 0x100_0000 == lo / 0x1_0000
  {
    var t := lo * 256 + e;
    assert t / 256 == lo;
    assert t / 0x1_0000 == lo / 256 by {
      assert lo == 256 * (lo / 256) + lo % 256;
      assert t == 0x1_0000 * (lo / 256) + (256 * (lo % 256) + e);
    }
    assert t / 0x100_0000 == lo / 0x1_0000 by {
      assert lo == 0x1_0000 * (lo / 0x1_0000) + lo % 0x1_0000;
      assert t == 0x100_0000 * (lo / 0x1_0000) + (256 * (lo % 0x1_0000) + e);
    }
  }

  /** Dropping the top byte does not change the lower three. */
  lemma LowBytes(s: U32)
    ensures (s % 0x100_0000) % 256 == s % 256
    ensures (s % 0x100_0000) / 0x100 % 256 == s / 0x100 % 256
    ensures (s % 0x100_0000) / 0x1_0000 == s / 0x1_0000 % 256
  {
    var hi, lo := s / 0x100_0000, s % 0x100_0000;
    assert s == 0x100_0000 * hi + lo;
    LowByte3(hi, lo);
    LowByte2(hi, lo);
    LowByte1(hi, lo);
  }

  lemma ModOfMultiple(a: int, r: int)
    requires 0 <= r < 256
    ensures (256 * a + r) % 256 == r
  {
  }

  lemma LowByte3(hi: nat, lo: nat)
    requires lo < 0x100_0000
    ensures (0x100_0000 * hi + lo) % 256 == lo % 256
  {
    var q, r := lo / 256, lo % 256;
    assert lo == 256 * q + r;
    assert 0x100_0000 * hi + lo == 256 * (0x1_0000 * hi + q) + r;
    ModOfMultiple(0x1_0000 * hi + q, r);
  }

  lemma LowByte2(hi: nat, lo: nat)
    requires lo < 0x100_0000
    ensures (0x100_0000 * hi + lo) / 0x100 % 256 == lo / 0x100 % 256
  {
    var x := 0x100_0000 * hi + lo;
    assert x == 0x100 * (0x1_0000 * hi + lo / 0x100) + lo % 0x100;
    assert x / 0x100 == 0x1_0000 * hi + lo / 0x100;
    assert 0x1_0000 * hi + lo / 0x100 == 256 * (0x100 * hi + lo / 0x1_0000) + lo / 0x100 % 256;
  }

  lemma LowByte1(hi: nat, lo: nat)
    requires lo < 0x100_0000
    ensures (0x100_0000 * hi + lo) / 0x1_0000 % 256 == lo / 0x1_0000
  {
    var x := 0x100_0000 * hi + lo;
    assert x == 0x1_0000 * (0x100 * hi + lo / 0x1_0000) + lo % 0x1_0000;
    assert x / 0x1_0000 == 0x100 * hi + lo / 0x1_0000;
  }

  /** AddAndShift drops the oldest change, keeps the other three in order and
      appends the new one. */
  lemma {:induction false} UnpackAddAndShift(s: U32, d: int)
    requires -9 <= d <= 9
    ensures Unpack(AddAndShift(s, d)) == Unpack(s)[1..] + [d]
  {
    AddAndShiftBytes(s, d);
  }

  /** The uint32 version of the generator. The source computes in uint64,
      where no shift of a value below 2^32 can overflow: `<< 6` is * 64,
      `>> 5` is / 32, `<< 11` is * 2048 and the prune `& (1<<24 - 1)` is
      mod 2^24. */
  function Generate(i: U32): (r: U32)
    ensures r < 0x100_0000
  {
    var x := Xor(i, i * 64) % 0x100_0000;
    var y := Xor(x, x / 32) % 0x100_0000;
    Xor(y, y * 2048) % 0x100_0000
  }

  /** A buyer's price: the last decimal digit of the secret. */
  function PriceOf(secret: U32): (r: int)
    ensures 0 <= r <= 9
  {
    secret % 10
  }

  /** `Price.Diff`: int8 subtraction. */
  function Diff(p: int, other: int): int
  {
    Int8(p - other)
  }

  lemma DiffOfPrices(p: int, other: int)
    requires 0 <= p <= 9 && 0 <= other <= 9
    ensures Diff(p, other) == p - other && -9 <= Diff(p, other) <= 9
  {
  }

  // ---------------------------------------------------------------------
  // One buyer's samples, as PopulateSeqResults's loop produces them.

  /** The secret after n rounds of the generator. */
  function SecretAfter(secret: U32, n: nat): U32
  {
    if n == 0 then secret else Generate(SecretAfter(secret, n - 1))
  }

  /** The buyer's prices: that of the initial secret and of the next n. */
  function PriceTrace(secret: U32, n: nat): (r: seq<int>)
    ensures |r| == n + 1 && AllPrices(r)
  {
    if n == 0 then [PriceOf(secret)] else PriceTrace(secret, n - 1) + [PriceOf(SecretAfter(secret, n))]
  }

  ghost predicate AllPrices(prices: seq<int>)
  {
    forall i :: 0 <= i < |prices| ==> 0 <= prices[i] <= 9
  }

  /** The packed sequence after a list of prices: 0xFFFFFFFF to begin with,
      then each price change shifted in. */
  function Window(prices: seq<int>): U32
    requires |prices| >= 1
  {
    if |prices| == 1 then 0xFFFF_FFFF
    else
      var n := |prices| - 1;
      AddAndShift(Window(prices[..n]), Diff(prices[n], prices[n - 1]))
  }

  /** The (sequence, price) pairs handed to Add while the prices are
      sampled: one per sample from the fourth on, i.e. once at least five
      prices (the initial one and four samples) are known. */
  function Recorded(prices: seq<int>): seq<(U32, int)>
    requires |prices| >= 1
  {
    if |prices| == 1 then []
    else
      var n := |prices| - 1;
      Recorded(prices[..n]) + (if n >= 4 then [(Window(prices), prices[n])] else [])
  }

  /** At most NumSamples - 3 adds per buyer: the first three samples only
      fill the window. */
  lemma {:induction false} RecordedLength(prices: seq<int>)
    requires |prices| >= 1
    ensures |Recorded(prices)| == if |prices| <= 4 then 0 else |prices| - 4
  {
    if |prices| > 1 {
      RecordedLength(prices[..|prices| - 1]);
    }
  }

  /** Every recorded pair carries the window and the price of the same
      sample, from the fourth sample on. */
  lemma {:induction false} RecordedPairs(prices: seq<int>, k: nat)
    requires k + 5 <= |prices|
    ensures |Recorded(prices)| == |prices| - 4 && Recorded(prices)[k] == (Window(prices[..k + 5]), prices[k + 4])
  {
    var n := |prices| - 1;
    RecordedLength(prices);
    RecordedLength(prices[..n]);
    if k + 5 <= n {
      RecordedPairs(prices[..n], k);
      assert prices[..n][..k + 5] == prices[..k + 5];
    } else {
      assert prices[..k + 5] == prices;
    }
  }

  /** One turn of PopulateSeqResults's loop: one more secret, and its price
      appended to the trace. */
  lemma SampleStep(secret: U32, j: nat)
    ensures SecretAfter(secret, j + 1) == Generate(SecretAfter(secret, j))
    ensures PriceTrace(secret, j + 1) == PriceTrace(secret, j) + [PriceOf(SecretAfter(secret, j + 1))]
  {
  }

  /** Each sample shifts its price change, plus 9, into the low byte and
      moves the other bytes up. */
  lemma WindowStep(prices: seq<int>)
    requires |prices| >= 2 && AllPrices(prices)
    ensures var n := |prices| - 1;
      var w, w' := Window(prices[..n]), Window(prices);
      && Byte(w', 0) == Byte(w, 1) && Byte(w', 1) == Byte(w, 2) && Byte(w', 2) == Byte(w, 3)
      && Byte(w', 3) == prices[n] - prices[n - 1] + 9
  {
    var n := |prices| - 1;
    DiffOfPrices(prices[n], prices[n - 1]);
    AddAndShiftBytes(Window(prices[..n]), Diff(prices[n], prices[n - 1]));
  }

  /** From the fourth sample on, each byte of the packed sequence holds one
      of the last four price changes, plus 9. */
  lemma WindowBytes(prices: seq<int>, n: nat)
    requires |prices| == n + 1 && n >= 4 && AllPrices(prices)
    ensures var w := Window(prices);
      && Byte(w, 0) == prices[n - 3] - prices[n - 4] + 9 && Byte(w, 1) == prices[n - 2] - prices[n - 3] + 9
      && Byte(w, 2) == prices[n - 1] - prices[n - 2] + 9 && Byte(w, 3) == prices[n] - prices[n - 1] + 9
  {
    var p1, p2, p3 := prices[..n], prices[..n - 1], prices[..n - 2];
    assert p1[..n - 1] == p2 && p2[..n - 2] == p3;
    WindowStep(prices);
    WindowStep(p1);
    WindowStep(p2);
    WindowStep(p3);
  }

  /** From the fourth sample on, the packed sequence holds exactly the last
      four price changes, oldest first: the initial 0xFF bytes are gone. */
  lemma WindowHoldsLastFour(prices: seq<int>, n: nat)
    requires |prices| == n + 1 && n >= 4 && AllPrices(prices)
    ensures Unpack(Window(prices)) == [prices[n - 3] - prices[n - 4], prices[n - 2] - prices[n - 3],
                                       prices[n - 1] - prices[n - 2], prices[n] - prices[n - 1]]
  {
    WindowBytes(prices, n);
    UnpackBytes(Window(prices), prices[n - 3] - prices[n - 4], prices[n - 2] - prices[n - 3],
                prices[n - 1] - prices[n - 2], prices[n] - prices[n - 1]);
  }

  /** A sequence whose bytes are four changes plus 9 unpacks to those changes. */
  lemma UnpackBytes(s: U32, a: int, b: int, c: int, d: int)
    requires -9 <= a <= 9 && -9 <= b <= 9 && -9 <= c <= 9 && -9 <= d <= 9
    requires Byte(s, 0) == a + 9 && Byte(s, 1) == b + 9 && Byte(s, 2) == c + 9 && Byte(s, 3) == d + 9
    ensures Unpack(s) == [a, b, c, d]
  {
  }

  // ---------------------------------------------------------------------
  // The table of first prices per sequence and buyer.

  /** A fresh price vector: one slot per buyer, all -1 ("no price yet"). */
  function Unset(numInputs: nat): (r: seq<int>)
    ensures |r| == numInputs && forall i :: 0 <= i < numInputs ==> r[i] == -1
  {
    seq(numInputs, _ => -1)
  }

  ghost predicate WellShaped(m: map<U32, seq<int>>, numInputs: nat)
  {
    forall s :: s in m ==> |m[s]| == numInputs
  }

  /** What Add does to the table, and whether it stored the price. */
  function AddTo(m: map<U32, seq<int>>, numInputs: nat, inputIndex: nat, s: U32, price: int)
    : (map<U32, seq<int>>, bool)
    requires WellShaped(m, numInputs) && inputIndex < numInputs
  {
    var prices := if s in m then m[s] else Unset(numInputs);
    if prices[inputIndex] == -1 then (m[s := prices[inputIndex := price]], true)
    else (m[s := prices], false)
  }

  /** Add keeps every vector NumInputs long and touches only one slot. */
  lemma AddToShape(m: map<U32, seq<int>>, numInputs: nat, inputIndex: nat, s: U32, price: int)
    requires WellShaped(m, numInputs) && inputIndex < numInputs
    ensures var (m', _) := AddTo(m, numInputs, inputIndex, s, price);
      && WellShaped(m', numInputs)
      && m'.Keys == m.Keys + {s}
      && (forall t :: t in m && t != s ==> m'[t] == m[t])
      && (forall j :: 0 <= j < numInputs && j != inputIndex ==>
            m'[s][j] == (if s in m then m[s][j] else -1))
  {
  }

  /** The first Add for a (sequence, buyer) stores the price and says so. */
  lemma AddFirstStores(m: map<U32, seq<int>>, numInputs: nat, inputIndex: nat, s: U32, price: int)
    requires WellShaped(m, numInputs) && inputIndex < numInputs
    requires s !in m || m[s][inputIndex] == -1
    ensures var (m', added) := AddTo(m, numInputs, inputIndex, s, price);
      added && s in m' && |m'[s]| == numInputs && m'[s][inputIndex] == price
  {
  }

  /** A later Add for the same pair returns false and keeps the first price. */
  lemma AddLaterKeeps(m: map<U32, seq<int>>, numInputs: nat, inputIndex: nat, s: U32, price: int)
    requires WellShaped(m, numInputs) && inputIndex < numInputs
    requires s in m && m[s][inputIndex] != -1
    ensures AddTo(m, numInputs, inputIndex, s, price) == (m, false)
  {
    assert m[s := m[s]] == m;
  }

  /** A sequence seen for the first time gets a vector of -1 with this
      buyer's slot set. */
  lemma AddNewSequence(m: map<U32, seq<int>>, numInputs: nat, inputIndex: nat, s: U32, price: int)
    requires WellShaped(m, numInputs) && inputIndex < numInputs && s !in m
    ensures AddTo(m, numInputs, inputIndex, s, price).0[s] == Unset(numInputs)[inputIndex := price]
  {
  }

  /** Add applied to each recorded pair in turn. */
  function AddAll(m: map<U32, seq<int>>, numInputs: nat, inputIndex: nat, obs: seq<(U32, int)>)
    : (r: map<U32, seq<int>>)
    requires WellShaped(m, numInputs) && inputIndex < numInputs
    ensures WellShaped(r, numInputs) && m.Keys <= r.Keys
  {
    if obs == [] then m
    else
      var before := AddAll(m, numInputs, inputIndex, obs[..|obs| - 1]);
      AddToShape(before, numInputs, inputIndex, obs[|obs| - 1].0, obs[|obs| - 1].1);
      AddTo(before, numInputs, inputIndex, obs[|obs| - 1].0, obs[|obs| - 1].1).0
  }

  /** Folding one more observation is one more AddTo. */
  lemma AddAllAppend(m: map<U32, seq<int>>, numInputs: nat, inputIndex: nat,
                     obs: seq<(U32, int)>, o: (U32, int))
    requires WellShaped(m, numInputs) && inputIndex < numInputs
    ensures var before := AddAll(m, numInputs, inputIndex, obs);
      AddAll(m, numInputs, inputIndex, obs + [o]) == AddTo(before, numInputs, inputIndex, o.0, o.1).0
  {
    assert (obs + [o])[..|obs|] == obs;
  }

  /** One more price: the window shifts in its change and, from the fifth
      price on, the table gets one more AddTo. */
  lemma RecordOneMore(m0: map<U32, seq<int>>, numInputs: nat, inputIndex: nat,
                      prices: seq<int>, price: int)
    requires WellShaped(m0, numInputs) && inputIndex < numInputs && |prices| >= 1
    ensures var after := prices + [price];
      var w := AddAndShift(Window(prices), Diff(price, prices[|prices| - 1]));
      var prev := AddAll(m0, numInputs, inputIndex, Recorded(prices));
      && Window(after) == w
      && AddAll(m0, numInputs, inputIndex, Recorded(after))
         == if |prices| >= 4 then AddTo(prev, numInputs, inputIndex, w, price).0 else prev
  {
    var after := prices + [price];
    assert after[..|prices|] == prices;
    assert after[|prices| - 1] == prices[|prices| - 1];
    var w := AddAndShift(Window(prices), Diff(price, prices[|prices| - 1]));
    assert Window(after) == w;
    if |prices| >= 4 {
      assert Recorded(after) == Recorded(prices) + [(w, price)];
      AddAllAppend(m0, numInputs, inputIndex, Recorded(prices), (w, price));
    } else {
      assert Recorded(after) == Recorded(prices);
    }
  }

  /** A buyer's slot, once set, never changes: the table keeps the FIRST price
      at which each sequence appeared. */
  lemma {:induction false} AddAllKeepsFirst(m: map<U32, seq<int>>, numInputs: nat, inputIndex: nat,
                                            obs: seq<(U32, int)>, s: U32)
    requires WellShaped(m, numInputs) && inputIndex < numInputs
    requires s in m && m[s][inputIndex] != -1
    ensures var r := AddAll(m, numInputs, inputIndex, obs);
      s in r && r[s][inputIndex] == m[s][inputIndex]
  {
    if obs != [] {
      AddAllKeepsFirst(m, numInputs, inputIndex, obs[..|obs| - 1], s);
      var before := AddAll(m, numInputs, inputIndex, obs[..|obs| - 1]);
      AddToShape(before, numInputs, inputIndex, obs[|obs| - 1].0, obs[|obs| - 1].1);
    }
  }

  /** Adding one buyer's observations leaves every other buyer's slots alone. */
  lemma {:induction false} AddAllOtherBuyers(m: map<U32, seq<int>>, numInputs: nat, inputIndex: nat,
                                             obs: seq<(U32, int)>, s: U32, j: nat)
    requires WellShaped(m, numInputs) && inputIndex < numInputs
    requires j < numInputs && j != inputIndex
    ensures var r := AddAll(m, numInputs, inputIndex, obs);
      s in r ==> r[s][j] == (if s in m then m[s][j] else -1)
  {
    if obs != [] {
      AddAllOtherBuyers(m, numInputs, inputIndex, obs[..|obs| - 1], s, j);
      var before := AddAll(m, numInputs, inputIndex, obs[..|obs| - 1]);
      AddToShape(before, numInputs, inputIndex, obs[|obs| - 1].0, obs[|obs| - 1].1);
    }
  }

  /** The sum of the prices set in a vector (slots holding -1 are skipped). */
  function Total(prices: seq<int>): int
  {
    if prices == [] then 0
    else Total(prices[..|prices| - 1]) + (if prices[|prices| - 1] != -1 then prices[|prices| - 1] else 0)
  }

  /** Vectors built by Add hold -1 or prices in [0, 9]; their total is then
      never negative. */
  lemma {:induction false} TotalNonNegative(prices: seq<int>)
    requires forall i :: 0 <= i < |prices| ==> prices[i] == -1 || prices[i] >= 0
    ensures Total(prices) >= 0
  {
    if prices != [] {
      TotalNonNegative(prices[..|prices| - 1]);
    }
  }

  /** PopulateSeqResults after j samples: cur is the j-th secret, prevPrice
      its price, diffs the window over the prices so far, and m the table
      with every pair recorded so far added. */
  ghost predicate Sampled(m0: map<U32, seq<int>>, numInputs: nat, inputIndex: nat, secret: U32,
                          j: nat, cur: U32, prevPrice: int, diffs: U32, m: map<U32, seq<int>>)
  {
    && j <= NumSamples && WellShaped(m0, numInputs) && inputIndex < numInputs
    && cur == SecretAfter(secret, j)
    && prevPrice == PriceTrace(secret, j)[j] && diffs == Window(PriceTrace(secret, j))
    && m == AddAll(m0, numInputs, inputIndex, Recorded(PriceTrace(secret, j)))
  }

  /** One sample: the next secret, its price, the shifted window and, from
      the fourth sample on, one more Add. */
  lemma SampleTurn(m0: map<U32, seq<int>>, numInputs: nat, inputIndex: nat, secret: U32,
                   j: nat, cur: U32, prevPrice: int, diffs: U32, m: map<U32, seq<int>>,
                   j': nat, cur': U32, prevPrice': int, diffs': U32, m': map<U32, seq<int>>)
    requires Sampled(m0, numInputs, inputIndex, secret, j, cur, prevPrice, diffs, m) && j < NumSamples
    requires j' == j + 1 && cur' == Generate(cur) && prevPrice' == PriceOf(cur')
    requires -128 <= Diff(prevPrice', prevPrice) < 128
    requires diffs' == AddAndShift(diffs, Diff(prevPrice', prevPrice))
    requires WellShaped(m, numInputs)
    requires m' == if j >= 3 then AddTo(m, numInputs, inputIndex, diffs', prevPrice').0 else m
    ensures Sampled(m0, numInputs, inputIndex, secret, j', cur', prevPrice', diffs', m')
  {
    SampleStep(secret, j);
    RecordOneMore(m0, numInputs, inputIndex, PriceTrace(secret, j), prevPrice');
  }

  /** The results of all buyers: for each sequence, each buyer's first price. */
  class SeqResults {
    var SeqPrices: map<U32, seq<int>>
    var NumInputs: nat

    ghost predicate Valid()
      reads this
    {
      WellShaped(SeqPrices, NumInputs)
    }

    constructor Init(numInputs: nat)
      ensures Valid() && SeqPrices == map[] && NumInputs == numInputs
    {
      SeqPrices := map[];
      NumInputs := numInputs;
    }

    /** Record `price` for (seq, buyer) unless the buyer already has one. */
    method Add(inputIndex: nat, s: U32, price: int) returns (added: bool)
      requires Valid() && inputIndex < NumInputs
      modifies this
      ensures Valid() && NumInputs == old(NumInputs)
      ensures (SeqPrices, added) == AddTo(old(SeqPrices), NumInputs, inputIndex, s, price)
    {
      var prices: seq<int>;
      if s in SeqPrices {
        prices := SeqPrices[s];
      } else {
        prices := seq(NumInputs, _ => -1);
        SeqPrices := SeqPrices[s := prices];
      }
      var currPrice := prices[inputIndex];
      if currPrice == -1 {
        SeqPrices := SeqPrices[s := prices[inputIndex := price]];
        assert SeqPrices == old(SeqPrices)[s := prices[inputIndex := price]];
        return true;
      }
      assert SeqPrices == old(SeqPrices)[s := prices];
      return false;
    }

    /** Take NumSamples samples of one buyer and record each window from the
        fourth sample on. */
    method PopulateSeqResults(inputIndex: nat, secret: U32)
      requires Valid() && inputIndex < NumInputs
      modifies this
      ensures Valid() && NumInputs == old(NumInputs)
      ensures SeqPrices == AddAll(old(SeqPrices), NumInputs, inputIndex, Recorded(PriceTrace(secret, NumSamples)))
    {
      var diffs: U32 := 0xFFFF_FFFF;
      var prevPrice := PriceOf(secret);
      var cur := secret;
      var j := 0;
      while j < NumSamples
        invariant NumInputs == old(NumInputs)
        invariant Sampled(old(SeqPrices), NumInputs, inputIndex, secret, j, cur, prevPrice, diffs, SeqPrices)
      {
        ghost var m, j0, cur0, prev0, diffs0 := SeqPrices, j, cur, prevPrice, diffs;
        cur := Generate(cur);
        var price := PriceOf(cur);
        var diff := Diff(price, prevPrice);
        diffs := AddAndShift(diffs, diff);
        if j >= 3 {
          var _ := Add(inputIndex, diffs, price);
        }
        prevPrice := price;
        j := j + 1;
        SampleTurn(old(SeqPrices), NumInputs, inputIndex, secret, j0, cur0, prev0, diffs0, m,
                   j, cur, prevPrice, diffs, SeqPrices);
      }
    }

    /** The sum of one vector's set prices, as the inner loop computes it. */
    static method SumPrices(prices: seq<int>) returns (total: int)
      ensures total == Total(prices)
    {
      total := 0;
      for i := 0 to |prices|
        invariant total == Total(prices[..i])
      {
        assert prices[..i + 1][..i] == prices[..i];
        if prices[i] != -1 {
          total := total + prices[i];
        }
      }
      assert prices[..|prices|] == prices;
    }

    /** The sequence with the largest total, in map order; 0xFFFFFFFF and 0
        when no total is positive. */
    method FindBestSeq() returns (bestSeq: U32, bestTotal: int)
      ensures bestTotal >= 0
      ensures forall s :: s in SeqPrices ==> Total(SeqPrices[s]) <= bestTotal
      ensures bestTotal > 0 ==> bestSeq in SeqPrices && Total(SeqPrices[bestSeq]) == bestTotal
      ensures bestTotal == 0 ==> bestSeq == 0xFFFF_FFFF
    {
      bestSeq, bestTotal := 0xFFFF_FFFF, 0;
      var todo := SeqPrices.Keys;
      while todo != {}
        invariant todo <= SeqPrices.Keys
        invariant bestTotal >= 0
        invariant forall s :: s in SeqPrices && s !in todo ==> Total(SeqPrices[s]) <= bestTotal
        invariant bestTotal > 0 ==> bestSeq in SeqPrices && Total(SeqPrices[bestSeq]) == bestTotal
        invariant bestTotal == 0 ==> bestSeq == 0xFFFF_FFFF
        decreases todo
      {
        var s: U32 :| s in todo;
        var total := SumPrices(SeqPrices[s]);
        if total > bestTotal {
          bestSeq, bestTotal := s, total;
        }
        todo := todo - {s};
      }
    }
  }
}
