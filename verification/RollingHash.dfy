/** The hash of three bytes that deflate keys its chains with, and why it can be computed byte by byte
    and makes the comparison of the third byte unnecessary. */
module RollingHash {
  import opened Bits

  function Xor(a: nat, b: nat): (r: nat)
    decreases a + b
  {
    if a == 0 && b == 0 then 0 else (a + b) % 2 + 2 * Xor(a / 2, b / 2)
  }

  lemma {:induction false} XorCancel(a: nat, b: nat, c: nat)
    ensures Xor(a, b) == Xor(a, c) ==> b == c
    decreases a + b + c
  {
    if a != 0 || b != 0 || c != 0 {
      XorCancel(a / 2, b / 2, c / 2);
    }
  }

  lemma XorHalf(a: nat, b: nat)
    ensures Xor(a, b) / 2 == Xor(a / 2, b / 2) && Xor(a, b) % 2 == (a + b) % 2
  {
  }

  // Two numbers are equal if their halves and their lowest bits are.
  lemma SameHalves(x: nat, y: nat)
    requires x / 2 == y / 2 && x % 2 == y % 2
    ensures x == y
  {
  }

  lemma Parity(a: nat, b: nat, c: nat, ab: nat, bc: nat)
    requires ab % 2 == (a + b) % 2 && bc % 2 == (b + c) % 2
    ensures (ab + c) % 2 == (a + bc) % 2
  {
  }

  lemma {:induction false} XorAssoc(a: nat, b: nat, c: nat)
    ensures Xor(Xor(a, b), c) == Xor(a, Xor(b, c))
    decreases a + b + c
  {
    if a != 0 || b != 0 || c != 0 {
      AssocStep(a, b, c);
      XorAssoc(a / 2, b / 2, c / 2);
      SameHalves(Xor(Xor(a, b), c), Xor(a, Xor(b, c)));
    }
  }

  lemma AssocStep(a: nat, b: nat, c: nat)
    ensures Xor(Xor(a, b), c) / 2 == Xor(Xor(a / 2, b / 2), c / 2) && Xor(a, Xor(b, c)) / 2 == Xor(a / 2, Xor(b / 2, c / 2))
    ensures Xor(Xor(a, b), c) % 2 == Xor(a, Xor(b, c)) % 2
  {
    hide Xor;
    XorHalf(a, b);
    XorHalf(b, c);
    XorHalf(Xor(a, b), c);
    XorHalf(a, Xor(b, c));
    Parity(a, b, c, Xor(a, b), Xor(b, c));
  }

  lemma {:induction false} XorZero(a: nat)
    ensures Xor(0, a) == a
  {
    if a > 0 {
      XorZero(a / 2);
    }
  }

  lemma DoubleXor(a: nat, b: nat)
    ensures Xor(2 * a, 2 * b) == 2 * Xor(a, b)
  {
    hide Xor;
    var x, y := 2 * a, 2 * b;
    XorHalf(x, y);
    assert x / 2 == a && y / 2 == b;
    SameHalves(Xor(x, y), 2 * Xor(a, b));
  }

  lemma {:induction false} XorShl(a: nat, b: nat, k: nat)
    ensures Shl(Xor(a, b), k) == Xor(Shl(a, k), Shl(b, k))
  {
    hide Xor;
    if k > 0 {
      XorShl(a, b, k - 1);
      DoubleXor(Shl(a, k - 1), Shl(b, k - 1));
    }
  }

  lemma LowHalf(x: nat, n: nat)
    requires n > 0
    ensures Low(x, n) / 2 == Low(x / 2, n - 1) && Low(x, n) % 2 == x % 2
  {
  }

  lemma {:induction false} XorLow(a: nat, b: nat, n: nat)
    ensures Low(Xor(a, b), n) == Xor(Low(a, n), Low(b, n))
  {
    hide Xor, Low;
    if n > 0 {
      XorLow(a / 2, b / 2, n - 1);
      XorHalf(a, b);
      LowHalf(a, n);
      LowHalf(b, n);
      LowHalf(Xor(a, b), n);
      XorHalf(Low(a, n), Low(b, n));
      SameHalves(Low(Xor(a, b), n), Xor(Low(a, n), Low(b, n)));
    } else {
      LowNone(Xor(a, b));
      LowNone(a);
      LowNone(b);
      XorZero(0);
    }
  }

  lemma LowNone(x: nat)
    ensures Low(x, 0) == 0
  {
  }

  lemma {:induction false} LowShlLow(x: nat, k: nat, n: nat)
    ensures Low(Shl(Low(x, n), k), n) == Low(Shl(x, k), n)
    decreases k
  {
    if k == 0 {
      LowLow(x, n, n);
    } else {
      LowShlLow(x, k - 1, n);
      LowDouble(Shl(Low(x, n), k - 1), n);
      LowDouble(Shl(x, k - 1), n);
    }
  }

  lemma {:induction false} LowDouble(x: nat, n: nat)
    ensures Low(2 * x, n) == Low(2 * Low(x, n), n)
  {
    hide Low;
    LowTwice(x, n);
    LowTwice(Low(x, n), n);
    if n > 0 {
      LowLow(x, n - 1, n);
    }
  }

  lemma LowTwice(x: nat, n: nat)
    ensures Low(2 * x, n) == if n == 0 then 0 else 2 * Low(x, n - 1)
  {
  }

  lemma LowOfShl(x: nat, k: nat, n: nat)
    requires k >= n
    ensures Low(Shl(x, k), n) == 0
  {
    hide Shl, Low, Pow2;
    ShlShl(x, k - n, n);
    ShrOfShl(Shl(x, k - n), 0, n);
  }

  // ----- the hash ---------------------------------------------------------------------------------------

  // UPDATE_HASH.
  function Update(h: nat, c: byte, shift: nat, bits: nat): (r: nat)
    ensures r < Pow2(bits)
  {
    Low(Xor(Shl(h, shift), c), bits)
  }

  function Hash2(b0: byte, b1: byte, shift: nat, bits: nat): nat {
    Update(b0, b1, shift, bits)
  }

  function Hash3(b0: byte, b1: byte, b2: byte, shift: nat, bits: nat): (r: nat)
    ensures r < Pow2(bits)
  {
    Update(Hash2(b0, b1, shift, bits), b2, shift, bits)
  }

  // Equal hashes after equal states mean equal bytes, when the hash has at least 8 bits.
  lemma UpdateInjective(h: nat, c: byte, d: byte, shift: nat, bits: nat)
    requires bits >= 8 && Update(h, c, shift, bits) == Update(h, d, shift, bits)
    ensures c == d
  {
    var x := Shl(h, shift);
    XorLow(x, c, bits);
    XorLow(x, d, bits);
    XorCancel(Low(x, bits), Low(c, bits), Low(d, bits));
    Pow2Monotone(8, bits);
    Pow2Values();
    LowSmall(c, bits);
    LowSmall(d, bits);
  }

  lemma ThirdByte(b0: byte, b1: byte, c: byte, d: byte, shift: nat, bits: nat)
    requires bits >= 8 && Hash3(b0, b1, c, shift, bits) == Hash3(b0, b1, d, shift, bits)
    ensures c == d
  {
    UpdateInjective(Hash2(b0, b1, shift, bits), c, d, shift, bits);
  }

  // Two updates in one formula.
  lemma UpdateTwice(x: nat, c: byte, d: byte, shift: nat, bits: nat)
    ensures Update(Low(x, bits), d, shift, bits) == Low(Xor(Shl(x, shift), d), bits)
  {
    hide Low, Shl, Xor;
    XorLow(Shl(Low(x, bits), shift), d, bits);
    XorLow(Shl(x, shift), d, bits);
    LowShlLow(x, shift, bits);
  }

  // The running hash forgets a byte after three updates.
  lemma Rolls(b0: byte, b1: byte, b2: byte, b3: byte, shift: nat, bits: nat)
    requires 3 * shift >= bits
    ensures Update(Hash3(b0, b1, b2, shift, bits), b3, shift, bits) == Hash3(b1, b2, b3, shift, bits)
  {
    hide Low, Shl, Xor;
    var x0, x1, x2: nat := b0, b1, b2;
    var u := Xor(Shl(x0, shift), x1);
    var v := Xor(Shl(u, shift), x2);
    var w := Xor(Shl(x1, shift), x2);
    UpdateTwice(u, b1, b2, shift, bits);
    UpdateTwice(v, b2, b3, shift, bits);
    UpdateTwice(w, b2, b3, shift, bits);
    // v is w with the first byte added far to the left
    XorShl(Shl(x0, shift), x1, shift);
    XorAssoc(Shl(Shl(x0, shift), shift), Shl(x1, shift), x2);
    var y := Shl(Shl(x0, shift), shift);
    assert v == Xor(y, w);
    XorShl(y, w, shift);
    XorAssoc(Shl(y, shift), Shl(w, shift), b3);
    var z := Xor(Shl(w, shift), b3);
    XorLow(Shl(y, shift), z, bits);
    ShlShl(x0, shift, shift);
    ShlShl(x0, 2 * shift, shift);
    LowOfShl(x0, 3 * shift, bits);
    XorZero(Low(z, bits));
  }
}
