/** Shifts, masks and bit strings over unbounded naturals.

    `Shl`, `Shr` and `Low` are the C operators `x << k`, `x >> k` and `x & ((1 << k) - 1)`. A bit
    string is a `seq<bool>` in the order in which the bits travel on the stream. The compressor
    packs numbers least significant bit first (`ToBits`), except that Huffman codes travel most
    significant bit first (`MsbBits`). */
module Bits {

  type byte = x: int | 0 <= x < 256
  type Bytes = seq<byte>
  type BitString = seq<bool>

  function Pow2(n: nat): (r: nat)
    ensures r >= 1
  {
    if n == 0 then 1 else 2 * Pow2(n - 1)
  }

  function Shl(x: nat, k: nat): (r: nat)
    ensures r >= x
  {
    if k == 0 then x else 2 * Shl(x, k - 1)
  }

  function Shr(x: nat, k: nat): (r: nat)
    ensures r <= x
  {
    if k == 0 then x else Shr(x / 2, k - 1)
  }

  function Low(x: nat, k: nat): (r: nat)
    ensures r < Pow2(k) && r <= x
  {
    if k == 0 then 0 else x % 2 + 2 * Low(x / 2, k - 1)
  }

  // ----- powers of two and left shifts --------------------------------------------------------

  lemma Pow2Values()
    ensures Pow2(0) == 1 && Pow2(1) == 2 && Pow2(2) == 4 && Pow2(3) == 8 && Pow2(4) == 16
    ensures Pow2(5) == 32 && Pow2(6) == 64 && Pow2(7) == 128 && Pow2(8) == 256 && Pow2(9) == 512
    ensures Pow2(10) == 1024 && Pow2(11) == 2048 && Pow2(12) == 4096 && Pow2(13) == 8192
    ensures Pow2(14) == 16384 && Pow2(15) == 32768 && Pow2(16) == 65536
  {
    assert Pow2(4) == 16;
    assert Pow2(8) == 256;
    assert Pow2(12) == 4096;
  }

  lemma {:induction false} Pow2Monotone(a: nat, b: nat)
    requires a <= b
    ensures Pow2(a) <= Pow2(b)
    ensures a < b ==> 2 * Pow2(a) <= Pow2(b)
  {
    if a < b {
      Pow2Monotone(a, b - 1);
    }
  }

  lemma Pow2Steps(n: nat)
    ensures Pow2(0) == 1 && Pow2(n + 1) == 2 * Pow2(n)
  {
  }

  lemma {:induction false} ShlPow2(a: nat, k: nat)
    ensures Shl(Pow2(a), k) == Pow2(a + k)
  {
    if k > 0 {
      ShlPow2(a, k - 1);
    }
  }

  lemma {:induction false} ShlAdd(x: nat, y: nat, k: nat)
    ensures Shl(x + y, k) == Shl(x, k) + Shl(y, k)
  {
    if k > 0 {
      ShlAdd(x, y, k - 1);
    }
  }

  lemma {:induction false} ShlShl(x: nat, a: nat, b: nat)
    ensures Shl(Shl(x, a), b) == Shl(x, a + b)
  {
    if b > 0 {
      ShlShl(x, a, b - 1);
    }
  }

  // x < y leaves room for one more multiple of 2^k.
  lemma {:induction false} ShlMonotone(x: nat, y: nat, k: nat)
    ensures x <= y ==> Shl(x, k) <= Shl(y, k)
    ensures x < y ==> Shl(x, k) + Pow2(k) <= Shl(y, k)
  {
    if k > 0 {
      ShlMonotone(x, y, k - 1);
    }
  }

  lemma ShlReflects(x: nat, y: nat, k: nat)
    requires Shl(x, k) < Shl(y, k)
    ensures x < y
  {
    ShlMonotone(y, x, k);
  }

  lemma {:induction false} ShlStrict(x: nat, y: nat, k: nat)
    requires x < y
    ensures Shl(x, k) < Shl(y, k)
    decreases k
  {
    if k > 0 {
      ShlTwice(x, k);
      ShlTwice(y, k);
      ShlStrict(x, y, k - 1);
    }
  }

  lemma {:induction false} ShlIsProduct(x: nat, k: nat)
    ensures Shl(x, k) == x * Pow2(k)
  {
    if k > 0 {
      ShlIsProduct(x, k - 1);
      assert 2 * (x * Pow2(k - 1)) == x * (2 * Pow2(k - 1));
    }
  }

  // ----- right shifts and masks ---------------------------------------------------------------

  lemma {:induction false} ShrLow(x: nat, k: nat)
    ensures x == Shl(Shr(x, k), k) + Low(x, k)
  {
    if k > 0 {
      ShrLow(x / 2, k - 1);
      ShlTwice(Shr(x, k), k - 1);
    }
  }

  lemma {:induction false} ShlTwice(x: nat, k: nat)
    ensures Shl(2 * x, k) == 2 * Shl(x, k)
  {
    if k > 0 {
      ShlTwice(x, k - 1);
    }
  }

  lemma {:induction false} ShrLowUnique(x: nat, k: nat, q: nat, r: nat)
    requires x == Shl(q, k) + r && r < Pow2(k)
    ensures Shr(x, k) == q && Low(x, k) == r
  {
    if k > 0 {
      ShrLowUnique(x / 2, k - 1, q, r / 2);
    }
  }

  lemma {:induction false} ShrShr(x: nat, a: nat, b: nat)
    ensures Shr(Shr(x, a), b) == Shr(x, a + b)
  {
    if a > 0 {
      ShrShr(x / 2, a - 1, b);
    }
  }

  lemma {:induction false} LowLow(x: nat, a: nat, b: nat)
    requires a <= b
    ensures Low(Low(x, b), a) == Low(x, a)
  {
    if a > 0 {
      LowLow(x / 2, a - 1, b - 1);
    }
  }

  lemma {:induction false} ShrOfLow(x: nat, a: nat, b: nat)
    ensures Shr(Low(x, a + b), a) == Low(Shr(x, a), b)
  {
    if a > 0 {
      ShrOfLow(x / 2, a - 1, b);
    }
  }

  // The low a + b bits are the low a bits and the b bits above them.
  lemma {:induction false} LowJoin(x: nat, y: nat, a: nat, b: nat)
    ensures Low(x, a + b) == Low(y, a + b) <==>
            Low(x, a) == Low(y, a) && Low(Shr(x, a), b) == Low(Shr(y, a), b)
  {
    if a > 0 {
      LowJoin(x / 2, y / 2, a - 1, b);
    }
  }

  lemma LowIsWhole(x: nat, y: nat, a: nat, b: nat)
    requires y < Pow2(a + b)
    ensures Low(x, a + b) == y <==> Low(x, a) == Low(y, a) && Low(Shr(x, a), b) == Shr(y, a)
  {
    LowSmall(y, a + b);
    LowJoin(x, y, a, b);
    ShrBelow(y, a, b);
    LowSmall(Shr(y, a), b);
  }

  // Adding one carries out of the low k bits exactly when they all become zero.
  lemma {:induction false} IncrementCarry(x: nat, k: nat)
    ensures Shr(x + 1, k) == Shr(x, k) || (Shr(x + 1, k) == Shr(x, k) + 1 && Low(x + 1, k) == 0)
  {
    if k > 0 && x % 2 == 1 {
      IncrementCarry(x / 2, k - 1);
    }
  }

  lemma {:induction false} LowBit(x: nat, k: nat)
    ensures Low(x, k + 1) == Low(x, k) + (if Shr(x, k) % 2 == 1 then Pow2(k) else 0)
  {
    if k > 0 {
      LowBit(x / 2, k - 1);
    }
  }

  lemma {:induction false} ShrHalf(x: nat, k: nat)
    ensures Shr(x, k + 1) == Shr(x, k) / 2
  {
    if k > 0 {
      ShrHalf(x / 2, k - 1);
    }
  }

  lemma {:induction false} AllOnes(x: nat, n: nat, d: nat)
    requires d < n && x + 1 == Pow2(n)
    ensures Shr(x, d) % 2 == 1
  {
    if d > 0 {
      AllOnes(x / 2, n - 1, d - 1);
    }
  }

  lemma {:induction false} LowSmall(x: nat, k: nat)
    requires x < Pow2(k)
    ensures Low(x, k) == x && Shr(x, k) == 0
  {
    if k > 0 {
      LowSmall(x / 2, k - 1);
    }
  }

  lemma {:induction false} ShrMonotone(x: nat, y: nat, k: nat)
    requires x <= y
    ensures Shr(x, k) <= Shr(y, k)
  {
    if k > 0 {
      ShrMonotone(x / 2, y / 2, k - 1);
    }
  }

  lemma {:induction false} ShrBelow(x: nat, a: nat, b: nat)
    requires x < Pow2(a + b)
    ensures Shr(x, a) < Pow2(b)
  {
    if a > 0 {
      ShrBelow(x / 2, a - 1, b);
    }
  }

  lemma ShrOfShl(x: nat, r: nat, k: nat)
    requires r < Pow2(k)
    ensures Shr(Shl(x, k) + r, k) == x
    ensures Low(Shl(x, k) + r, k) == r
  {
    ShrLowUnique(Shl(x, k) + r, k, x, r);
  }

  // ----- numbers as bit strings, least significant bit first ------------------------------------

  function ToBits(v: nat, n: nat): (b: BitString)
    ensures |b| == n
  {
    if n == 0 then [] else [v % 2 == 1] + ToBits(v / 2, n - 1)
  }

  function FromBits(b: BitString): (v: nat)
    ensures v < Pow2(|b|)
  {
    if b == [] then 0 else (if b[0] then 1 else 0) + 2 * FromBits(b[1..])
  }

  lemma {:induction false} FromToBits(v: nat, n: nat)
    ensures FromBits(ToBits(v, n)) == Low(v, n)
  {
    if n > 0 {
      FromToBits(v / 2, n - 1);
      assert ToBits(v, n)[1..] == ToBits(v / 2, n - 1);
    }
  }

  lemma {:induction false} ToFromBits(b: BitString)
    ensures ToBits(FromBits(b), |b|) == b
  {
    if b != [] {
      ToFromBits(b[1..]);
      assert b == [b[0]] + b[1..];
    }
  }

  lemma {:induction false} ToBitsConcat(v: nat, a: nat, b: nat)
    ensures ToBits(v, a + b) == ToBits(v, a) + ToBits(Shr(v, a), b)
  {
    if a > 0 {
      ToBitsConcat(v / 2, a - 1, b);
      assert ToBits(v, a + b) == [v % 2 == 1] + ToBits(v / 2, a - 1 + b);
    }
  }

  lemma {:induction false} FromBitsConcat(a: BitString, b: BitString)
    ensures FromBits(a + b) == FromBits(a) + Shl(FromBits(b), |a|)
  {
    if a == [] {
      assert a + b == b;
    } else {
      FromBitsConcat(a[1..], b);
      assert (a + b)[1..] == a[1..] + b;
    }
  }

  lemma {:induction false} ToBitsLow(v: nat, n: nat, m: nat)
    requires n <= m
    ensures ToBits(Low(v, m), n) == ToBits(v, n)
  {
    if n > 0 {
      ToBitsLow(v / 2, n - 1, m - 1);
    }
  }

  // The low k bits, and the bits above them, of the number a bit string denotes.
  lemma {:induction false} FromBitsSplit(b: BitString, k: nat)
    requires k <= |b|
    ensures FromBits(b[..k]) == Low(FromBits(b), k)
    ensures FromBits(b[k..]) == Shr(FromBits(b), k)
  {
    var lo, hi := b[..k], b[k..];
    assert b == lo + hi;
    FromBitsConcat(lo, hi);
    ShrLowUnique(FromBits(b), k, FromBits(hi), FromBits(lo));
  }

  lemma FromBitsInjective(a: BitString, b: BitString)
    requires |a| == |b| && FromBits(a) == FromBits(b)
    ensures a == b
  {
    ToFromBits(a);
    ToFromBits(b);
  }

  // ----- Huffman codes, most significant bit first ----------------------------------------------

  function MsbBits(c: nat, n: nat): (b: BitString)
    ensures |b| == n
  {
    if n == 0 then [] else MsbBits(c / 2, n - 1) + [c % 2 == 1]
  }

  // What bi_reverse computes: the low n bits of c in the opposite order.
  function Reverse(c: nat, n: nat): (r: nat)
    ensures r < Pow2(n)
  {
    if n == 0 then 0 else (if c % 2 == 1 then Pow2(n - 1) else 0) + Reverse(c / 2, n - 1)
  }

  lemma ReverseStep(c: nat, n: nat)
    requires n > 0
    ensures Reverse(c, n) == (if c % 2 == 1 then Pow2(n - 1) else 0) + Reverse(c / 2, n - 1)
  {
  }

  lemma AppendBit(b: BitString, top: bool)
    ensures FromBits(b + [top]) == FromBits(b) + (if top then Pow2(|b|) else 0)
  {
    hide FromBits, Shl, Pow2;
    FromBitsConcat(b, [top]);
    OneBit(top);
    ShlOne(|b|);
    ShlZero(|b|);
  }

  lemma OneBit(top: bool)
    ensures FromBits([top]) == if top then 1 else 0
  {
    assert [top][1..] == [];
  }

  lemma ShlOne(k: nat)
    ensures Shl(1, k) == Pow2(k)
  {
    ShlPow2(0, k);
  }

  lemma {:induction false} ReverseIsMsb(c: nat, n: nat)
    ensures ToBits(Reverse(c, n), n) == MsbBits(c, n)
    ensures FromBits(MsbBits(c, n)) == Reverse(c, n)
  {
    hide Reverse, Pow2, FromBits;
    if n > 0 {
      ReverseIsMsb(c / 2, n - 1);
      AppendBit(MsbBits(c / 2, n - 1), c % 2 == 1);
      ReverseStep(c, n);
    } else {
      EmptyReverse(c);
    }
    ToFromBits(MsbBits(c, n));
  }

  lemma EmptyReverse(c: nat)
    ensures Reverse(c, 0) == 0 == FromBits([])
  {
  }

  lemma {:induction false} ShlZero(k: nat)
    ensures Shl(0, k) == 0
  {
    if k > 0 {
      ShlZero(k - 1);
    }
  }

  lemma TopBit(r: nat, n: nat, d: nat)
    ensures Low(r + Pow2(n + d), n) == Low(r, n)
    ensures Shr(r + Pow2(n + d), n) == Shr(r, n) + Pow2(d)
  {
    hide Shl, Shr, Low, Pow2;
    ShrLow(r, n);
    ShlPow2(d, n);
    ShlAdd(Shr(r, n), Pow2(d), n);
    ShrLowUnique(r + Pow2(n + d), n, Shr(r, n) + Pow2(d), Low(r, n));
  }

  // Reversing a longer code keeps, in its low bits, the reversal of its leading bits.
  lemma {:induction false} ReversePrefix(c: nat, n: nat, d: nat)
    ensures Low(Reverse(c, n + d), n) == Reverse(Shr(c, d), n)
    ensures Shr(Reverse(c, n + d), n) == Reverse(c, d)
    decreases d
  {
    hide Reverse, Low, Pow2;
    if d > 0 {
      ReversePrefix(c / 2, n, d - 1);
      TopBit(Reverse(c / 2, n + d - 1), n, d - 1);
      ReverseStep(c, n + d);
      ReverseStep(c, d);
    } else {
      LowSmall(Reverse(c, n), n);
      EmptyReverse(c);
    }
  }

  lemma {:induction false} ReverseShl(c: nat, n: nat, d: nat)
    ensures Reverse(Shl(c, d), n + d) == Reverse(c, n)
    decreases d
  {
    if d > 0 {
      ReverseShl(c, n, d - 1);
    }
  }

  lemma {:induction false} ReverseInjective(a: nat, b: nat, n: nat)
    requires a < Pow2(n) && b < Pow2(n)
    requires Reverse(a, n) == Reverse(b, n)
    ensures a == b
  {
    if n > 0 {
      ReverseInjective(a / 2, b / 2, n - 1);
    }
  }

  lemma {:induction false} ReverseLow(c: nat, n: nat)
    ensures Reverse(Low(c, n), n) == Reverse(c, n)
  {
    if n > 0 {
      ReverseLow(c / 2, n - 1);
    }
  }

  lemma {:induction false} ReverseReverse(c: nat, n: nat)
    requires c < Pow2(n)
    ensures Reverse(Reverse(c, n), n) == c
  {
    hide Reverse, Low, Shr, Pow2;
    if n > 0 {
      // the low bit of c is the top bit of the reversal; the rest is the reversal of c / 2
      var r := Reverse(c, n);
      var rr := Reverse(r, n);
      Pow2Steps(n - 1);
      ReversePrefix(c, n - 1, 1);
      ReversePrefix(r, 1, n - 1);
      ReverseReverse(c / 2, n - 1);
      ReverseLow(r, n - 1);
      SingleBit(c);
      SingleBit(c % 2);
      SingleBit(rr);
      assert rr / 2 == c / 2 && rr % 2 == c % 2;
    } else {
      EmptyReverse(Reverse(c, 0));
      Pow2Steps(0);
    }
  }

  lemma SingleBit(x: nat)
    ensures Reverse(x, 1) == x % 2 == Low(x, 1) && Shr(x, 1) == x / 2
  {
    assert Reverse(x / 2, 0) == 0 && Low(x / 2, 0) == 0 && Pow2(0) == 1;
  }

  // ----- bytes as bits --------------------------------------------------------------------------

  function BytesToBits(s: Bytes): (b: BitString)
    ensures |b| == 8 * |s|
  {
    if s == [] then [] else ToBits(s[0], 8) + BytesToBits(s[1..])
  }

  lemma {:induction false} BytesToBitsConcat(s: Bytes, t: Bytes)
    ensures BytesToBits(s + t) == BytesToBits(s) + BytesToBits(t)
  {
    if s == [] {
      assert s + t == t;
    } else {
      assert (s + t)[1..] == s[1..] + t;
      BytesToBitsConcat(s[1..], t);
    }
  }
}
