/** The Adler-32 checksum (section 2.2 of RFC 1950), computed with deferred reduction. */
module Adler32 {
  import opened Bits

  const BASE: nat := 65521
  const NMAX: nat := 5552

  // The two sums, and the checksum they make up.
  datatype Sums = Sums(a: nat, s: nat)

  predicate Reduced(c: Sums) {
    c.a < BASE && c.s < BASE
  }

  function Pack(c: Sums): nat {
    c.a + 65536 * c.s
  }

  function Unpack(adler: nat): (c: Sums)
    ensures c.a < 65536 && c.s < 65536
  {
    Sums(adler % 65536, adler / 65536 % 65536)
  }

  // The definition: both sums are reduced at every byte.
  function Bytewise(c: Sums, buf: Bytes): (r: Sums)
    ensures Reduced(c) ==> Reduced(r)
  {
    if buf == [] then c
    else
      var p := Bytewise(c, buf[..|buf| - 1]);
      var a := (p.a + buf[|buf| - 1]) % BASE;
      Sums(a, (p.s + a) % BASE)
  }

  // The checksum of a whole byte string.
  function Checksum(buf: Bytes): nat {
    Pack(Bytewise(Sums(1, 0), buf))
  }

  // ----- the sums of RFC 1950 ------------------------------------------------------------------------------------

  // All bytes, and each byte as often as there are bytes from it on.
  function Total(buf: Bytes): nat {
    if buf == [] then 0 else Total(buf[..|buf| - 1]) + buf[|buf| - 1]
  }

  function Weighted(buf: Bytes): nat {
    if buf == [] then 0 else Weighted(buf[..|buf| - 1]) + Total(buf)
  }

  // The one sum is that of all bytes and 1, the other that of all values of the first one, both modulo 65521.
  lemma {:induction false} SumsAre(buf: Bytes)
    ensures Bytewise(Sums(1, 0), buf) == Sums((1 + Total(buf)) % 65521, (|buf| + Weighted(buf)) % 65521)
    ensures Checksum(buf) == (|buf| + Weighted(buf)) % 65521 * 65536 + (1 + Total(buf)) % 65521
  {
    hide Pack;
    if buf != [] {
      var n := |buf| - 1;
      SumsAre(buf[..n]);
      TotalStep(Total(buf[..n]), Weighted(buf[..n]), n, buf[n]);
    }
    PackIs(Bytewise(Sums(1, 0), buf));
  }

  lemma PackIs(c: Sums)
    ensures Pack(c) == c.s * 65536 + c.a
  {
  }

  lemma TotalStep(total: nat, weighted: nat, n: nat, b: nat)
    ensures ((1 + total) % 65521 + b) % 65521 == (1 + (total + b)) % 65521
    ensures ((n + weighted) % 65521 + (1 + (total + b)) % 65521) % 65521 == (n + 1 + (weighted + (total + b))) % 65521
  {
    var x, y := 1 + (total + b), n + weighted;
    ModStep((1 + total) % BASE, 1 + total, b);
    ModStep(y % BASE, y, x % BASE);
    ModStep(x % BASE, x, y);
  }

  // A checksum can be continued.
  lemma {:induction false} BytewiseJoin(c: Sums, x: Bytes, y: Bytes)
    ensures Bytewise(c, x + y) == Bytewise(Bytewise(c, x), y)
  {
    if y == [] {
      assert x + y == x;
    } else {
      assert (x + y)[..|x + y| - 1] == x + y[..|y| - 1];
      BytewiseJoin(c, x, y[..|y| - 1]);
    }
  }

  // The checksum kept in a state can be continued, too.
  lemma ChecksumContinues(x: Bytes, y: Bytes)
    ensures Reduced(Unpack(Checksum(x))) && Pack(Bytewise(Unpack(Checksum(x)), y)) == Checksum(x + y)
  {
    hide Bytewise, Unpack;
    var c := Bytewise(Sums(1, 0), x);
    BytewiseJoin(Sums(1, 0), x, y);
    ChecksumSums(x);
  }

  // ----- the sums without reduction ----------------------------------------------------------------------

  function Raw(c: Sums, buf: Bytes): Sums {
    if buf == [] then c
    else
      var p := Raw(c, buf[..|buf| - 1]);
      var a := p.a + buf[|buf| - 1];
      Sums(a, p.s + a)
  }

  lemma ModStep(x: nat, y: nat, b: nat)
    requires x % BASE == y % BASE
    ensures (x + b) % BASE == (y + b) % BASE
  {
    var k := x / BASE;
    var l := y / BASE;
    assert x == BASE * k + x % BASE && y == BASE * l + x % BASE;
    SameRemainder(x % BASE + b, k);
    SameRemainder(x % BASE + b, l);
  }

  lemma SameRemainder(r: nat, k: nat)
    ensures (BASE * k + r) % BASE == r % BASE
  {
    var q := r / BASE;
    assert BASE * k + r == BASE * (k + q) + r % BASE;
    UniqueRemainder(BASE * k + r, k + q, r % BASE);
  }

  lemma UniqueRemainder(x: nat, q: nat, r: nat)
    requires x == BASE * q + r && r < BASE
    ensures x % BASE == r
  {
  }

  lemma ModSmall(x: nat)
    requires x < BASE
    ensures x % BASE == x
  {
  }

  // Reducing at the end gives the same as reducing all along.
  lemma {:induction false} RawIsBytewise(c: Sums, buf: Bytes)
    requires Reduced(c)
    ensures Raw(c, buf).a % BASE == Bytewise(c, buf).a
    ensures Raw(c, buf).s % BASE == Bytewise(c, buf).s
  {
    if buf == [] {
      ModSmall(c.a);
      ModSmall(c.s);
    } else {
      var p, q, b := Raw(c, buf[..|buf| - 1]), Bytewise(c, buf[..|buf| - 1]), buf[|buf| - 1];
      RawIsBytewise(c, buf[..|buf| - 1]);
      SumsStep(p, q, b);
    }
  }

  lemma SumsStep(p: Sums, q: Sums, b: byte)
    requires Reduced(q) && p.a % BASE == q.a && p.s % BASE == q.s
    ensures (p.a + b) % BASE == (q.a + b) % BASE
    ensures (p.s + (p.a + b)) % BASE == (q.s + (q.a + b) % BASE) % BASE
  {
    ModSmall(q.a);
    ModSmall(q.s);
    ModStep(p.a, q.a, b);
    var a := (q.a + b) % BASE;
    ModSmall(a);
    ModStep(p.s, q.s, p.a + b);
    ModStep(p.a + b, a, q.s);
  }

  // How large the sums can get after n bytes.
  function SumBound(n: nat): nat {
    n * (BASE - 1) + 255 * (n * (n + 1) / 2)
  }

  lemma SumBoundStep(n: nat)
    ensures SumBound(n + 1) == SumBound(n) + (BASE - 1) + 255 * (n + 1)
  {
    assert (n + 1) * (n + 2) == n * (n + 1) + 2 * (n + 1);
    assert (n + 1) * (BASE - 1) == n * (BASE - 1) + (BASE - 1);
  }

  lemma {:induction false} RawBound(c: Sums, buf: Bytes)
    requires Reduced(c)
    ensures Raw(c, buf).a <= BASE - 1 + 255 * |buf|
    ensures Raw(c, buf).s <= BASE - 1 + SumBound(|buf|)
  {
    hide SumBound;
    if buf == [] {
      assert SumBound(0) == 0 by { NoBound(); }
    } else {
      RawBound(c, buf[..|buf| - 1]);
      SumBoundStep(|buf| - 1);
    }
  }

  lemma NoBound()
    ensures SumBound(0) == 0
  {
  }

  lemma {:induction false} BoundGrows(n: nat, m: nat)
    requires n <= m
    ensures SumBound(n) <= SumBound(m)
    decreases m - n
  {
    hide SumBound;
    if n < m {
      SumBoundStep(n);
      BoundGrows(n + 1, m);
    }
  }

  // NMAX bytes are the most for which the sums are sure to fit into 32 bits.
  lemma NmaxFits(c: Sums, buf: Bytes)
    requires Reduced(c) && |buf| <= NMAX
    ensures Raw(c, buf).a < 0x1_0000_0000 && Raw(c, buf).s < 0x1_0000_0000
  {
    hide SumBound;
    RawBound(c, buf);
    BoundGrows(|buf|, NMAX);
    NmaxBound();
  }

  // The greatest bytes there are.
  function Full(n: nat): (buf: Bytes)
    ensures |buf| == n
  {
    seq(n, _ => 255)
  }

  lemma {:induction false} RawFull(c: Sums, n: nat)
    ensures Raw(c, Full(n)).a == c.a + 255 * n
    ensures c.a == BASE - 1 ==> Raw(c, Full(n)).s == c.s + SumBound(n)
  {
    hide SumBound;
    if n == 0 {
      NoBound();
    } else {
      RawFull(c, n - 1);
      SumBoundStep(n - 1);
      assert Full(n)[..n - 1] == Full(n - 1);
    }
  }

  // One byte more, and there is a buffer for which the second sum leaves 32 bits.
  lemma NmaxIsGreatest()
    ensures Reduced(Sums(BASE - 1, BASE - 1)) && |Full(NMAX + 1)| == NMAX + 1
    ensures Raw(Sums(BASE - 1, BASE - 1), Full(NMAX + 1)).s > 0xffff_ffff
  {
    hide SumBound, Full;
    RawFull(Sums(BASE - 1, BASE - 1), NMAX + 1);
    NmaxBound();
  }

  lemma NmaxBound()
    ensures BASE - 1 + SumBound(NMAX) <= 0xffff_ffff < BASE - 1 + SumBound(NMAX + 1)
    ensures BASE - 1 + SumBound(15) < 32 * BASE
  {
  }

  // ----- remainders without division -----------------------------------------------------------------------

  lemma Subtract(x: nat, m: nat)
    requires x >= BASE * m
    ensures (x - BASE * m) % BASE == x % BASE
  {
    SameRemainder(x - BASE * m, m);
  }

  // The first k steps of the ladder MOD, or of its short form MOD4.
  method Ladder(x: nat, k: nat) returns (r: nat)
    requires k <= 17 && x < BASE * Pow2(k)
    ensures r == x % BASE
  {
    hide Pow2;
    r := x;
    Pow2Values();
    var i: nat := k;
    while i > 0
      invariant i <= k && r < BASE * Pow2(i) && r % BASE == x % BASE
    {
      i := i - 1;
      Pow2Steps(i);
      if r >= BASE * Pow2(i) {
        Subtract(r, Pow2(i));
        r := r - BASE * Pow2(i);
      }
    }
    ModSmall(r);
  }

  lemma Wide()
    ensures 0x1_0000_0000 <= BASE * Pow2(17) && BASE * Pow2(5) == 32 * BASE
  {
    hide Pow2;
    Pow2Values();
    Pow2Steps(16);
  }

  // MOD: with or without a division instruction.
  method Mod(x: nat, noDivide: bool) returns (r: nat)
    requires x < 0x1_0000_0000
    ensures r == x % BASE
  {
    if noDivide {
      Wide();
      r := Ladder(x, 17);
    } else {
      r := x % BASE;
    }
  }

  method Mod4(x: nat, noDivide: bool) returns (r: nat)
    requires x < 32 * BASE
    ensures r == x % BASE
  {
    if noDivide {
      Wide();
      r := Ladder(x, 5);
    } else {
      r := x % BASE;
    }
  }

  // ----- adler32 ---------------------------------------------------------------------------------------------

  lemma RawStep(c: Sums, buf: Bytes, i: nat, j: nat)
    requires i <= j < |buf|
    ensures Raw(c, buf[i..j + 1]) == Sums(Raw(c, buf[i..j]).a + buf[j], Raw(c, buf[i..j]).s + Raw(c, buf[i..j]).a + buf[j])
  {
    assert buf[i..j + 1][..j - i] == buf[i..j];
  }

  // n bytes from position i on are added to the sums of the block that started at `start`.
  method AddBytes(buf: Bytes, i: nat, n: nat, adler0: nat, sum0: nat, ghost c: Sums, ghost start: nat) returns (adler: nat, sum2: nat)
    requires start <= i && i + n <= |buf| && Reduced(c) && i + n - start <= NMAX
    requires Sums(adler0, sum0) == Raw(c, buf[start..i])
    ensures Sums(adler, sum2) == Raw(c, buf[start..i + n])
    ensures adler < 0x1_0000_0000 && sum2 < 0x1_0000_0000
  {
    hide Raw;
    adler, sum2 := adler0, sum0;
    NmaxFits(c, buf[start..i]);
    for k := 0 to n
      invariant Sums(adler, sum2) == Raw(c, buf[start..i + k])
      invariant adler < 0x1_0000_0000 && sum2 < 0x1_0000_0000
    {
      RawStep(c, buf, start, i + k);
      NmaxFits(c, buf[start..i + k + 1]);
      adler := adler + buf[i + k];
      sum2 := sum2 + adler;
    }
  }

  lemma Reducing(c: Sums, buf: Bytes, start: nat, i: nat)
    requires start <= i <= |buf| && Reduced(c)
    ensures Raw(c, buf[start..i]).a % BASE == Bytewise(c, buf[start..i]).a
    ensures Raw(c, buf[start..i]).s % BASE == Bytewise(c, buf[start..i]).s
  {
    RawIsBytewise(c, buf[start..i]);
  }

  // Lengths below 16, with one subtraction for the first sum and the short ladder for the second.
  method ShortSum(c: Sums, buf: Bytes, noDivide: bool) returns (r: Sums)
    requires Reduced(c) && |buf| < 16
    ensures r == Bytewise(c, buf)
  {
    hide Raw, Bytewise, SumBound;
    assert buf[0..0] == [] && buf[0..|buf|] == buf;
    RawEmpty(c);
    var adler, sum2 := AddBytes(buf, 0, |buf|, c.a, c.s, c, 0);
    RawBound(c, buf);
    BoundGrows(|buf|, 15);
    NmaxBound();
    Reducing(c, buf, 0, |buf|);
    if adler >= BASE {
      Subtract(adler, 1);
      adler := adler - BASE;
    }
    ModSmall(adler);
    sum2 := Mod4(sum2, noDivide);
    r := Sums(adler, sum2);
  }

  lemma RawEmpty(c: Sums)
    ensures Raw(c, []) == c && Bytewise(c, []) == c
  {
  }

  // One byte, with subtractions only.
  method OneByte(c: Sums, b: byte) returns (r: Sums)
    requires Reduced(c)
    ensures r == Bytewise(c, [b])
  {
    var adler: nat := c.a + b;
    if adler >= BASE {
      adler := adler - BASE;
    }
    var sum2 := c.s + adler;
    if sum2 >= BASE {
      sum2 := sum2 - BASE;
    }
    r := Sums(adler, sum2);
    assert [b][..0] == [];
    assert Bytewise(c, []) == c;
  }

  // A block of at most NMAX bytes in runs of 16, and then one reduction of each sum.
  method Block(c: Sums, buf: Bytes, start: nat, n: nat, noDivide: bool) returns (r: Sums)
    requires Reduced(c) && start + n <= |buf| && n <= NMAX
    ensures Reduced(r) && r == Bytewise(c, buf[start..start + n])
  {
    hide Raw, Bytewise;
    var adler, sum2, i, left := c.a, c.s, start, n;
    assert buf[start..start] == [];
    RawEmpty(c);
    while left >= 16
      invariant start <= i && i + left == start + n && 0 <= left
      invariant Sums(adler, sum2) == Raw(c, buf[start..i])
      invariant adler < 0x1_0000_0000 && sum2 < 0x1_0000_0000
    {
      adler, sum2 := AddBytes(buf, i, 16, adler, sum2, c, start);
      i := i + 16;
      left := left - 16;
    }
    adler, sum2 := AddBytes(buf, i, left, adler, sum2, c, start);
    Reducing(c, buf, start, start + n);
    adler := Mod(adler, noDivide);
    sum2 := Mod(sum2, noDivide);
    r := Sums(adler, sum2);
  }

  lemma BytewiseNext(c: Sums, buf: Bytes, i: nat, n: nat)
    requires i + n <= |buf|
    ensures Bytewise(c, buf[..i + n]) == Bytewise(Bytewise(c, buf[..i]), buf[i..i + n])
  {
    BytewiseJoin(c, buf[..i], buf[i..i + n]);
    assert buf[..i] + buf[i..i + n] == buf[..i + n];
  }

  // A missing buffer asks for the initial value.
  method Adler32(adler: nat, buf: Bytes, isNull: bool, noDivide: bool) returns (r: nat)
    requires Reduced(Unpack(adler)) && (isNull ==> buf == [])
    ensures isNull ==> r == 1
    ensures !isNull ==> r == Pack(Bytewise(Unpack(adler), buf))
    ensures r < 0x1_0000_0000 && Reduced(Unpack(r))
  {
    hide Bytewise;
    var c := Unpack(adler);
    if |buf| == 1 {
      assert buf == [buf[0]];
      c := OneByte(c, buf[0]);
    } else if isNull {
      return 1;
    } else if |buf| < 16 {
      c := ShortSum(c, buf, noDivide);
    } else {
      var i: nat := 0;
      RawEmpty(c);
      assert buf[..0] == [];
      while |buf| - i >= NMAX
        invariant i <= |buf| && Reduced(c) && c == Bytewise(Unpack(adler), buf[..i])
        decreases |buf| - i
      {
        BytewiseNext(Unpack(adler), buf, i, NMAX);
        c := Block(c, buf, i, NMAX, noDivide);
        i := i + NMAX;
      }
      if |buf| > i {
        BytewiseNext(Unpack(adler), buf, i, |buf| - i);
        c := Block(c, buf, i, |buf| - i, noDivide);
      }
      assert buf[..|buf|] == buf;
    }
    BytewiseReduced(Unpack(adler), buf);
    r := c.a + 65536 * c.s;
  }

  lemma {:induction false} BytewiseReduced(c: Sums, buf: Bytes)
    requires Reduced(c)
    ensures Reduced(Bytewise(c, buf))
  {
  }

  // ----- adler32_combine -----------------------------------------------------------------------------------

  // Equal up to multiples of BASE.
  ghost predicate Congruent(x: int, y: int) {
    exists k: int :: x - y == BASE * k
  }

  lemma CongruentRemainder(x: nat)
    ensures Congruent(x, x % BASE)
  {
    assert x - x % BASE == BASE * (x / BASE);
  }

  lemma CongruentSum(x: int, y: int, u: int, v: int)
    requires Congruent(x, y) && Congruent(u, v)
    ensures Congruent(x + u, y + v) && Congruent(x - u, y - v)
  {
    var k: int :| x - y == BASE * k;
    var l: int :| u - v == BASE * l;
    assert (x + u) - (y + v) == BASE * (k + l);
    assert (x - u) - (y - v) == BASE * (k - l);
  }

  lemma CongruentProduct(x: int, y: int, m: int)
    requires Congruent(x, y)
    ensures Congruent(m * x, m * y)
  {
    var k: int :| x - y == BASE * k;
    assert m * x - m * y == BASE * (m * k);
  }

  lemma CongruentSelf(x: int)
    ensures Congruent(x, x)
  {
    assert x - x == BASE * 0;
  }

  lemma CongruentShift(x: int, m: int)
    ensures Congruent(x - BASE * m, x)
  {
    assert (x - BASE * m) - x == BASE * (-m);
  }

  lemma CongruentTrans(x: int, y: int, z: int)
    requires Congruent(x, y) && Congruent(y, z)
    ensures Congruent(x, z) && Congruent(z, x)
  {
    var k: int :| x - y == BASE * k;
    var l: int :| y - z == BASE * l;
    assert x - z == BASE * (k + l);
    assert z - x == BASE * (-k - l);
  }

  // How the sums of a continuation depend on where they start.
  lemma {:induction false} RawShift(c: Sums, buf: Bytes)
    ensures Raw(c, buf).a == c.a + Raw(Sums(0, 0), buf).a
    ensures Raw(c, buf).s == c.s + |buf| * c.a + Raw(Sums(0, 0), buf).s
  {
    if buf != [] {
      RawShift(c, buf[..|buf| - 1]);
      assert |buf| * c.a == (|buf| - 1) * c.a + c.a;
    }
  }

  lemma RawCongruent(c: Sums, buf: Bytes)
    requires Reduced(c)
    ensures Congruent(Raw(c, buf).a, Bytewise(c, buf).a) && Congruent(Raw(c, buf).s, Bytewise(c, buf).s)
  {
    hide Raw, Bytewise, Congruent;
    RawIsBytewise(c, buf);
    CongruentRemainder(Raw(c, buf).a);
    CongruentRemainder(Raw(c, buf).s);
  }

  // The sums of a concatenation from those of its parts.
  lemma ConcatSums(x: Bytes, y: Bytes)
    ensures var p, q, r := Bytewise(Sums(1, 0), x), Bytewise(Sums(1, 0), y), Bytewise(Sums(1, 0), x + y);
            Congruent(p.a + q.a - 1, r.a) && Congruent(p.s + |y| * p.a + q.s - |y|, r.s)
  {
    hide Raw, Bytewise, Congruent;
    var one := Sums(1, 0);
    var p, q, r := Bytewise(one, x), Bytewise(one, y), Bytewise(one, x + y);
    BytewiseReduced(one, x);
    BytewiseJoin(one, x, y);
    RawShift(p, y);
    RawShift(one, y);
    RawCongruent(p, y);
    RawCongruent(one, y);
    // r is the continuation of p by y, q that of one
    CongruentSelf(p.a - 1);
    CongruentSum(p.a - 1, p.a - 1, Raw(one, y).a, q.a);
    CongruentTrans(p.a - 1 + q.a, p.a - 1 + q.a, p.a - 1 + q.a) by { CongruentSelf(p.a - 1 + q.a); }
    Flip(p.a - 1 + Raw(one, y).a, p.a - 1 + q.a);
    CongruentTrans(p.a - 1 + q.a, p.a - 1 + Raw(one, y).a, r.a);
    var d := p.s + |y| * p.a - |y|;
    CongruentSelf(d);
    CongruentSum(d, d, Raw(one, y).s, q.s);
    Flip(d + Raw(one, y).s, d + q.s);
    CongruentTrans(d + q.s, d + Raw(one, y).s, r.s);
  }

  lemma Flip(x: int, y: int)
    requires Congruent(x, y)
    ensures Congruent(y, x)
  {
    CongruentSelf(y);
    CongruentTrans(x, y, y);
  }

  // What adler32_combine makes of the sums p and q, the latter of len2 bytes.
  ghost predicate Combined(p: Sums, q: Sums, len2: nat, r: Sums) {
    && 1 <= r.a <= BASE && 1 <= r.s <= BASE
    && Congruent(r.a, p.a + q.a - 1) && Congruent(r.s, p.s + len2 * p.a + q.s - len2)
  }

  method Combine(adler1: nat, adler2: nat, len2: nat, noDivide: bool) returns (r: nat)
    requires Reduced(Unpack(adler1)) && Reduced(Unpack(adler2))
    ensures r < 0x1_0000_0000 && Combined(Unpack(adler1), Unpack(adler2), len2, Unpack(r))
  {
    hide Congruent;
    var p, q := Unpack(adler1), Unpack(adler2);
    var rem := len2 % BASE;
    var sum1 := p.a;
    ProductFits(rem, sum1);
    var sum2 := Mod(rem * sum1, noDivide);
    CombineCongruent(p, q, len2, rem, sum2);
    sum1 := sum1 + q.a + BASE - 1;
    sum2 := sum2 + p.s + q.s + BASE - rem;
    ghost var total1, total2 := sum1, sum2;
    if sum1 > BASE {
      sum1 := sum1 - BASE;
    }
    if sum1 > BASE {
      sum1 := sum1 - BASE;
    }
    if sum2 > 2 * BASE {
      sum2 := sum2 - 2 * BASE;
    }
    if sum2 > BASE {
      sum2 := sum2 - BASE;
    }
    Dropped(total1, sum1, p.a + q.a - 1);
    Dropped(total2, sum2, p.s + len2 * p.a + q.s - len2);
    Unpacked(sum1, sum2);
    r := sum1 + 65536 * sum2;
  }

  lemma Unpacked(a: nat, s: nat)
    requires a < 65536 && s < 65536
    ensures Unpack(a + 65536 * s) == Sums(a, s) && a + 65536 * s < 0x1_0000_0000
  {
  }

  lemma ProductFits(rem: nat, a: nat)
    requires rem < BASE && a < BASE
    ensures 0 <= rem * a < 0x1_0000_0000
  {
    MulMonotone(rem, BASE - 1, a);
    MulMonotone(a, BASE - 1, BASE - 1);
  }

  lemma MulMonotone(x: nat, y: nat, c: nat)
    requires x <= y
    ensures 0 <= x * c <= y * c
  {
    assert (y - x) * c >= 0;
  }

  // Taking BASE off up to three times does not change the residue.
  lemma Dropped(total: int, rest: int, target: int)
    requires Congruent(total, target)
    requires rest == total || rest == total - BASE || rest == total - 2 * BASE || rest == total - 3 * BASE
    ensures Congruent(rest, target)
  {
    hide Congruent;
    CongruentShift(total, 0);
    CongruentShift(total, 1);
    CongruentShift(total, 2);
    CongruentShift(total, 3);
    CongruentTrans(rest, total, target);
  }

  lemma CombineCongruent(p: Sums, q: Sums, len2: nat, rem: nat, prod: nat)
    requires rem == len2 % BASE && prod == (rem * p.a) % BASE
    ensures Congruent(p.a + q.a + BASE - 1, p.a + q.a - 1)
    ensures Congruent(prod + p.s + q.s + BASE - rem, p.s + len2 * p.a + q.s - len2)
  {
    hide Congruent;
    CongruentShift(p.a + q.a - 1, -1);
    CongruentRemainder(len2);
    CongruentRemainder(rem * p.a);
    CongruentProduct(len2, rem, p.a);
    CongruentTrans(p.a * len2, p.a * rem, prod);
    // prod - rem against len2 * p.a - len2
    CongruentSum(p.a * len2, prod, len2, rem);
    CongruentSelf(p.s + q.s);
    CongruentSum(p.a * len2 - len2, prod - rem, p.s + q.s, p.s + q.s);
    Flip(p.a * len2 - len2 + (p.s + q.s), prod - rem + (p.s + q.s));
    CongruentShift(prod - rem + (p.s + q.s), -1);
    CongruentTrans(prod + p.s + q.s + BASE - rem, prod - rem + (p.s + q.s), p.a * len2 - len2 + (p.s + q.s));
  }

  // adler32_combine on the checksums of two byte strings is, half by half, congruent to the checksum
  // of their concatenation.
  lemma CombineIsConcat(x: Bytes, y: Bytes, r: Sums)
    requires Combined(Bytewise(Sums(1, 0), x), Bytewise(Sums(1, 0), y), |y|, r)
    ensures Congruent(r.a, Bytewise(Sums(1, 0), x + y).a) && Congruent(r.s, Bytewise(Sums(1, 0), x + y).s)
  {
    hide Bytewise, Congruent;
    ConcatSums(x, y);
    var p, q, t := Bytewise(Sums(1, 0), x), Bytewise(Sums(1, 0), y), Bytewise(Sums(1, 0), x + y);
    CongruentTrans(r.a, p.a + q.a - 1, t.a);
    CongruentTrans(r.s, p.s + |y| * p.a + q.s - |y|, t.s);
  }

  lemma SameResidue(x: int, y: int)
    requires Congruent(x, y)
    ensures x % BASE == y % BASE
  {
    var k: int :| x - y == BASE * k;
    var n := BASE as int;
    assert x == n * (y / n + k) + y % n;
    EuclidUnique(x, y / n + k, y % n);
  }

  lemma EuclidUnique(x: int, q: int, r: int)
    requires x == BASE * q + r && 0 <= r < BASE
    ensures x % BASE == r
  {
  }

  // One half: right exactly when it should not be zero.
  lemma HalfExact(sum: nat, target: int, right: nat)
    requires 1 <= sum <= BASE && right < BASE && Congruent(sum, target) && Congruent(sum, right)
    ensures sum == right <==> target % BASE != 0
    ensures target % BASE == 0 ==> sum == BASE && right == 0
  {
    hide Congruent;
    SameResidue(sum, target);
    SameResidue(sum, right);
    ModSmall(right);
    if sum < BASE {
      ModSmall(sum);
    }
  }

  // adler32_combine gives the checksum of the concatenation if and only if neither sum of the two parts is a
  // multiple of BASE. A half whose sum is one comes out as BASE instead of zero.
  lemma CombineExact(x: Bytes, y: Bytes, r: Sums)
    requires Combined(Unpack(Checksum(x)), Unpack(Checksum(y)), |y|, r)
    ensures var p, q, t := Unpack(Checksum(x)), Unpack(Checksum(y)), Unpack(Checksum(x + y));
            var a, s := (p.a + q.a - 1) % BASE, (p.s + |y| * p.a + q.s - |y|) % BASE;
            && (r.a == t.a <==> a != 0) && (r.s == t.s <==> s != 0)
            && (a == 0 ==> r.a == BASE && t.a == 0) && (s == 0 ==> r.s == BASE && t.s == 0)
            && (Pack(r) == Checksum(x + y) <==> a != 0 && s != 0)
  {
    hide Bytewise, Congruent, Unpack, Pack;
    ChecksumSums(x);
    ChecksumSums(y);
    ChecksumSums(x + y);
    CombineIsConcat(x, y, r);
    var p, q, t := Unpack(Checksum(x)), Unpack(Checksum(y)), Unpack(Checksum(x + y));
    PairExact(r, t, p.a + q.a - 1, p.s + |y| * p.a + q.s - |y|);
  }

  lemma PairExact(r: Sums, t: Sums, a: int, s: int)
    requires 1 <= r.a <= BASE && 1 <= r.s <= BASE && Reduced(t)
    requires Congruent(r.a, a) && Congruent(r.a, t.a) && Congruent(r.s, s) && Congruent(r.s, t.s)
    ensures (r.a == t.a <==> a % BASE != 0) && (a % BASE == 0 ==> r.a == BASE && t.a == 0)
    ensures (r.s == t.s <==> s % BASE != 0) && (s % BASE == 0 ==> r.s == BASE && t.s == 0)
    ensures Pack(r) == Pack(t) <==> a % BASE != 0 && s % BASE != 0
  {
    hide Congruent;
    HalfExact(r.a, a, t.a);
    HalfExact(r.s, s, t.s);
    SamePack(r, t);
  }

  lemma SamePack(r: Sums, t: Sums)
    requires r.a < 65536 && t.a < 65536
    ensures Pack(r) == Pack(t) <==> r == t
  {
  }

  lemma ChecksumSums(x: Bytes)
    ensures Unpack(Checksum(x)) == Bytewise(Sums(1, 0), x) && Reduced(Bytewise(Sums(1, 0), x))
  {
    hide Bytewise;
    BytewiseReduced(Sums(1, 0), x);
    var c := Bytewise(Sums(1, 0), x);
    Unpacked(c.a, c.s);
  }

  // It does happen: the first sum of these 257 bytes is a multiple of BASE, and combining their checksum with
  // that of nothing does not give it back.
  lemma CombineMisses(r: Sums)
    requires Combined(Unpack(Checksum(Full(256) + [240])), Unpack(Checksum([])), 0, r)
    ensures Unpack(Checksum(Full(256) + [240])).a == 0 && r.a == BASE
    ensures Pack(r) != Checksum(Full(256) + [240] + [])
  {
    hide Congruent, Full;
    var x, one := Full(256) + [240], Sums(1, 0);
    RawFull(one, 256);
    assert x[..|x| - 1] == Full(256);
    assert Raw(one, x).a == BASE;
    RawIsBytewise(one, x);
    ChecksumSums(x);
    ChecksumSums([]);
    assert Bytewise(one, []) == one;
    assert x + [] == x;
    CombineExact(x, [], r);
  }
}
