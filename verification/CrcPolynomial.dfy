/** The CRC of section 8 of RFC 1952 as a remainder of polynomials over GF(2), and the shift register
    that computes it. A register holds one coefficient per bit, the lowest power in the highest bit. */
module CrcPolynomial {
  const POLY: bv32 := 0xedb88320

  // ----- words ---------------------------------------------------------------------------------------------

  // Addition of polynomials.
  function Plus(a: bv32, b: bv32): bv32 {
    a ^ b
  }

  function Half(a: bv32): bv32 {
    a >> 1
  }

  predicate Odd(a: bv32) {
    a & 1 == 1
  }

  function Bit(b: bool): bv32 {
    if b then 1 else 0
  }

  lemma PlusLaws(a: bv32, b: bv32, c: bv32)
    ensures Plus(Plus(a, b), c) == Plus(a, Plus(b, c)) && Plus(a, b) == Plus(b, a)
    ensures Plus(a, 0) == a && Plus(a, a) == 0
  {
  }

  lemma PlusSwap(a: bv32, b: bv32, c: bv32, d: bv32)
    ensures Plus(Plus(a, b), Plus(c, d)) == Plus(Plus(a, c), Plus(b, d))
    ensures Plus(Plus(a, b), c) == Plus(Plus(a, c), b)
  {
  }

  lemma PlusParts(a: bv32, b: bv32)
    ensures Half(Plus(a, b)) == Plus(Half(a), Half(b)) && (Odd(Plus(a, b)) <==> Odd(a) != Odd(b))
  {
  }

  lemma ZeroParts()
    ensures Half(0) == 0 && !Odd(0)
  {
  }

  lemma BitParts(c: bv32, b: bool)
    ensures (Odd(Plus(c, Bit(b))) <==> Odd(c) != b) && Half(Plus(c, Bit(b))) == Half(c)
  {
  }

  // ----- the shift register ------------------------------------------------------------------------------

  // Multiplies the register by x.
  function Step(c: bv32): bv32 {
    if Odd(c) then Plus(POLY, Half(c)) else Half(c)
  }

  function Shift(c: bv32, n: nat): bv32
    decreases n
  {
    if n == 0 then c else Shift(Step(c), n - 1)
  }

  lemma StepLinear(a: bv32, b: bv32)
    ensures Step(Plus(a, b)) == Plus(Step(a), Step(b))
  {
    hide Plus, Odd, Half;
    PlusParts(a, b);
    PlusSwap(POLY, Half(a), POLY, Half(b));
    PlusLaws(POLY, Half(a), Half(b));
    PlusLaws(Half(a), POLY, Half(b));
    PlusLaws(Plus(Half(a), Half(b)), 0, POLY);
    PlusSwap(POLY, Half(a), Half(b), 0);
    PlusLaws(POLY, POLY, 0);
    PlusLaws(0, Plus(Half(a), Half(b)), 0);
  }

  lemma {:induction false} ShiftLinear(a: bv32, b: bv32, n: nat)
    ensures Shift(Plus(a, b), n) == Plus(Shift(a, n), Shift(b, n))
    decreases n
  {
    hide Step, Plus;
    if n > 0 {
      StepLinear(a, b);
      ShiftLinear(Step(a), Step(b), n - 1);
    }
  }

  lemma {:induction false} ShiftZero(n: nat)
    ensures Shift(0, n) == 0
  {
    hide Odd, Half, Plus;
    if n > 0 {
      ZeroParts();
      ShiftZero(n - 1);
    }
  }

  lemma {:induction false} ShiftSum(c: bv32, n: nat, m: nat)
    ensures Shift(c, n + m) == Shift(Shift(c, n), m)
    decreases n
  {
    hide Step;
    if n > 0 {
      ShiftSum(Step(c), n - 1, m);
    }
  }

  // ----- coefficients ------------------------------------------------------------------------------------

  // The n lowest bits, lowest first.
  function Coefs(x: bv32, n: nat): (s: seq<bool>)
    ensures |s| == n
    decreases n
  {
    if n == 0 then [] else [Odd(x)] + Coefs(Half(x), n - 1)
  }

  // No more than n bits.
  predicate Fits(x: bv32, n: nat)
    decreases n
  {
    if n == 0 then x == 0 else Fits(Half(x), n - 1)
  }

  function Sum(s: seq<bool>, t: seq<bool>): (r: seq<bool>)
    requires |s| <= |t|
    ensures |r| == |t|
    ensures forall i :: 0 <= i < |t| ==> r[i] == if i < |s| then s[i] != t[i] else t[i]
  {
    seq(|t|, i requires 0 <= i < |t| => if i < |s| then s[i] != t[i] else t[i])
  }

  lemma {:induction false} CoefsPlus(a: bv32, b: bv32, n: nat)
    ensures Coefs(Plus(a, b), n) == Sum(Coefs(a, n), Coefs(b, n))
    decreases n
  {
    hide Plus, Odd, Half, Sum;
    if n > 0 {
      PlusParts(a, b);
      CoefsPlus(Half(a), Half(b), n - 1);
    }
  }

  lemma {:induction false} CoefsZero(n: nat)
    ensures Coefs(0, n) == seq(n, _ => false)
  {
    hide Odd, Half;
    if n > 0 {
      ZeroParts();
      CoefsZero(n - 1);
    }
  }

  // Bits beyond those that fit are zero.
  lemma {:induction false} CoefsMore(x: bv32, n: nat)
    requires Fits(x, n)
    ensures Coefs(x, n + 1) == Coefs(x, n) + [false]
    decreases n
  {
    hide Odd, Half;
    ZeroParts();
    if n > 0 {
      CoefsMore(Half(x), n - 1);
    }
  }

  lemma EightShifts(x: bv32)
    ensures Half(Half(Half(Half(Half(Half(Half(Half(x)))))))) == x >> 8
  {
  }

  lemma FitsMore(x: bv32, n: nat)
    requires Fits(Half(Half(x)), n)
    ensures Fits(x, n + 2)
  {
    hide Half;
    assert Fits(Half(x), n + 1);
  }

  lemma FitsByte(x: bv32, n: nat)
    requires Fits(x >> 8, n)
    ensures Fits(x, n + 8)
  {
    hide Half, Fits;
    EightShifts(x);
    var a := Half(Half(x));
    var b := Half(Half(a));
    var c := Half(Half(b));
    FitsMore(c, n);
    FitsMore(b, n + 2);
    FitsMore(a, n + 4);
    FitsMore(x, n + 6);
  }

  lemma NoBitsFit(x: bv32)
    ensures x == 0 ==> Fits(x, 0)
    ensures (((x >> 8) >> 8) >> 8) >> 8 == 0
  {
  }

  lemma FitsWord(x: bv32)
    ensures Fits(x, 32)
  {
    hide Fits;
    NoBitsFit(x);
    NoBitsFit((((x >> 8) >> 8) >> 8) >> 8);
    FitsByte(((x >> 8) >> 8) >> 8, 0);
    FitsByte((x >> 8) >> 8, 8);
    FitsByte(x >> 8, 16);
    FitsByte(x, 24);
  }

  lemma OctetHigh(b: bv8)
    ensures (b as bv32) >> 8 == 0
  {
  }

  lemma FitsOctet(b: bv8)
    ensures Fits(b as bv32, 8)
  {
    hide Fits;
    OctetHigh(b);
    NoBitsFit((b as bv32) >> 8);
    FitsByte(b as bv32, 0);
  }

  // ----- the polynomial ------------------------------------------------------------------------------------

  // x^32+x^26+x^23+x^22+x^16+x^12+x^11+x^10+x^8+x^7+x^5+x^4+x^2+x+1 without its highest term.
  const POWERS: set<int> := {26, 23, 22, 16, 12, 11, 10, 8, 7, 5, 4, 2, 1, 0}

  // Its coefficients, the highest power first.
  function Divisor(): (p: seq<bool>)
    ensures |p| == 32
  {
    seq(32, i => (31 - i) in POWERS)
  }

  lemma Nibble(x: bv32, n: nat)
    ensures Coefs(x, n + 4) == [x & 1 != 0, x & 2 != 0, x & 4 != 0, x & 8 != 0] + Coefs(x >> 4, n)
  {
    hide Odd, Half;
    NibbleParts(x);
    var a := Half(x);
    var b := Half(a);
    var c := Half(b);
    assert Coefs(c, n + 1) == [Odd(c)] + Coefs(Half(c), n);
    assert Coefs(b, n + 2) == [Odd(b)] + Coefs(c, n + 1);
    assert Coefs(a, n + 3) == [Odd(a)] + Coefs(b, n + 2);
  }

  lemma NibbleParts(x: bv32)
    ensures Half(Half(Half(Half(x)))) == x >> 4
    ensures Odd(x) <==> x & 1 != 0
    ensures Odd(Half(x)) <==> x & 2 != 0
    ensures Odd(Half(Half(x))) <==> x & 4 != 0
    ensures Odd(Half(Half(Half(x)))) <==> x & 8 != 0
  {
  }

  lemma DivisorIsPoly()
    ensures Coefs(POLY, 32) == Divisor()
  {
    hide Coefs;
    Nibble(0xedb88320, 28);
    Nibble(0xedb8832, 24);
    Nibble(0xedb883, 20);
    Nibble(0xedb88, 16);
    Nibble(0xedb8, 12);
    Nibble(0xedb, 8);
    Nibble(0xed, 4);
    Nibble(0xe, 0);
    assert Coefs(0, 0) == [];
    assert Coefs(0xe, 4) == [false, true, true, true];
    assert Coefs(0xed, 8) == [true, false, true, true] + Coefs(0xe, 4);
    assert Coefs(0xedb, 12) == [true, true, false, true] + Coefs(0xed, 8);
    assert Coefs(0xedb8, 16) == [false, false, false, true] + Coefs(0xedb, 12);
    assert Coefs(0xedb88, 20) == [false, false, false, true] + Coefs(0xedb8, 16);
    assert Coefs(0xedb883, 24) == [true, true, false, false] + Coefs(0xedb88, 20);
    assert Coefs(0xedb8832, 28) == [false, true, false, false] + Coefs(0xedb883, 24);
    assert Coefs(0xedb88320, 32) == [false, false, false, false] + Coefs(0xedb8832, 28);
  }

  // ----- division --------------------------------------------------------------------------------------------

  // The remainder by long division: while there are more than 32 coefficients, the highest one is
  // cleared by subtracting the polynomial, if need be.
  function Remainder(s: seq<bool>): (r: seq<bool>)
    requires |s| >= 32
    ensures |r| == 32
    decreases |s|
  {
    if |s| == 32 then s
    else if s[0] then Remainder(Sum(Divisor(), s[1..]))
    else Remainder(s[1..])
  }

  function Zeros(n: nat): (z: seq<bool>)
    ensures |z| == n && forall i :: 0 <= i < n ==> !z[i]
  {
    seq(n, _ => false)
  }

  // The register after the bits of a message.
  function Feed(c: bv32, m: seq<bool>): bv32
    decreases |m|
  {
    if m == [] then c else Feed(Step(Plus(c, Bit(m[0]))), m[1..])
  }

  // What is still to be divided when the register holds c and the bits m are to come.
  function Dividend(c: bv32, m: seq<bool>): (s: seq<bool>)
    ensures |s| == |m| + 32
  {
    Sum(Coefs(c, 32), m + Zeros(32))
  }

  lemma StepCoefs(c: bv32)
    ensures Coefs(c, 32) == [Odd(c)] + Coefs(Half(c), 32)[..31] && !Coefs(Half(c), 32)[31]
    ensures Coefs(Step(c), 32) == if Odd(c) then Sum(Divisor(), Coefs(Half(c), 32)) else Coefs(Half(c), 32)
  {
    hide Odd, Half, Plus, Sum, Divisor;
    FitsWord(c);
    assert Fits(Half(c), 31);
    CoefsMore(Half(c), 31);
    DivisorIsPoly();
    CoefsPlus(POLY, Half(c), 32);
  }

  lemma DividendHead(c: bv32, m: seq<bool>)
    requires m != []
    ensures Dividend(c, m)[0] == (Odd(c) != m[0])
    ensures Dividend(c, m)[1..] == Sum(Coefs(Half(c), 32), m[1..] + Zeros(32))
  {
    hide Odd, Half, Coefs;
    StepCoefs(c);
    assert (m + Zeros(32))[1..] == m[1..] + Zeros(32);
  }

  lemma SumTwice(p: seq<bool>, s: seq<bool>, t: seq<bool>)
    requires |p| == |s| <= |t|
    ensures Sum(p, Sum(s, t)) == Sum(Sum(p, s), t)
  {
  }

  // One bit fed is one step of the division.
  lemma FeedDivides(c: bv32, m: seq<bool>)
    requires m != []
    ensures Remainder(Dividend(c, m)) == Remainder(Dividend(Step(Plus(c, Bit(m[0]))), m[1..]))
  {
    hide Coefs, Step, Divisor, Sum, Odd, Half, Plus, Bit;
    var d := Plus(c, Bit(m[0]));
    BitParts(c, m[0]);
    StepCoefs(d);
    DividendHead(c, m);
    SumTwice(Divisor(), Coefs(Half(c), 32), m[1..] + Zeros(32));
    assert |Dividend(c, m)| > 32;
  }

  lemma {:induction false} FeedIsRemainder(c: bv32, m: seq<bool>)
    ensures Coefs(Feed(c, m), 32) == Remainder(Dividend(c, m))
    decreases |m|
  {
    hide Coefs, Step, Divisor, Plus, Bit;
    if m == [] {
      assert Dividend(c, m) == Coefs(c, 32);
    } else {
      FeedDivides(c, m);
      FeedIsRemainder(Step(Plus(c, Bit(m[0]))), m[1..]);
    }
  }

  // ----- whole fields at once ----------------------------------------------------------------------------------

  // What is left of x without its lowest bit.
  function Even(x: bv32): bv32 {
    x & 0xfffffffe
  }

  lemma EvenParts(x: bv32)
    ensures !Odd(Even(x)) && Half(Even(x)) == Half(x) && x == Plus(Bit(Odd(x)), Even(x))
  {
    WithoutLowBit(x);
    if Odd(x) {
      assert Bit(Odd(x)) == x & 1;
    } else {
      assert Bit(Odd(x)) == 0 == x & 1;
    }
  }

  lemma WithoutLowBit(x: bv32)
    ensures (x & 0xfffffffe) & 1 == 0 && (x & 0xfffffffe) >> 1 == x >> 1 && (x & 1) ^ (x & 0xfffffffe) == x
    ensures x & 1 == 1 || x & 1 == 0
  {
  }

  // The bits of a field may be added to the register all at once.
  lemma {:induction false} FeedField(c: bv32, x: bv32, n: nat)
    requires Fits(x, n)
    ensures Feed(c, Coefs(x, n)) == Shift(Plus(c, x), n)
    decreases n
  {
    hide Plus, Bit, Odd, Half, Even;
    PlusLaws(c, 0, 0);
    if n > 0 {
      var bit := Bit(Odd(x));
      EvenParts(x);
      PlusLaws(c, bit, Even(x));
      StepLinear(Plus(c, bit), Even(x));
      assert Coefs(x, n)[1..] == Coefs(Half(x), n - 1);
      FeedField(Step(Plus(c, bit)), Half(x), n - 1);
    }
  }

  lemma {:induction false} FeedJoin(c: bv32, m: seq<bool>, k: seq<bool>)
    ensures Feed(c, m + k) == Feed(Feed(c, m), k)
    decreases |m|
  {
    hide Step, Plus, Bit;
    if m == [] {
      assert m + k == k;
    } else {
      assert (m + k)[1..] == m[1..] + k;
      FeedJoin(Step(Plus(c, Bit(m[0]))), m[1..], k);
    }
  }

  // ----- bytes ---------------------------------------------------------------------------------------------------

  type Octets = seq<bv8>

  function Message(bytes: Octets): seq<bool> {
    if bytes == [] then [] else Coefs(bytes[0] as bv32, 8) + Message(bytes[1..])
  }

  // The register after whole bytes.
  function Register(c: bv32, bytes: Octets): bv32
    decreases |bytes|
  {
    if bytes == [] then c else Register(Shift(Plus(c, bytes[0] as bv32), 8), bytes[1..])
  }

  lemma {:induction false} RegisterIsFeed(c: bv32, bytes: Octets)
    ensures Register(c, bytes) == Feed(c, Message(bytes))
    decreases |bytes|
  {
    hide Shift, Coefs, Fits, Plus, Feed;
    if bytes == [] {
      assert Feed(c, []) == c by { FeedNothing(c); }
    } else {
      FitsOctet(bytes[0]);
      FeedField(c, bytes[0] as bv32, 8);
      FeedJoin(c, Coefs(bytes[0] as bv32, 8), Message(bytes[1..]));
      RegisterIsFeed(Shift(Plus(c, bytes[0] as bv32), 8), bytes[1..]);
    }
  }

  lemma FeedNothing(c: bv32)
    ensures Feed(c, []) == c
  {
  }

  // The register is the remainder of the message, shifted up by 32 places, with the initial register
  // added to its first 32 coefficients.
  lemma RegisterIsRemainder(c: bv32, bytes: Octets)
    ensures Coefs(Register(c, bytes), 32) == Remainder(Dividend(c, Message(bytes)))
  {
    hide Coefs, Remainder, Dividend, Register, Message;
    RegisterIsFeed(c, bytes);
    FeedIsRemainder(c, Message(bytes));
  }

  // The checksum: ones-complement before and after.
  function Crc(bytes: Octets): bv32 {
    Plus(Register(0xffffffff, bytes), 0xffffffff)
  }

  // Of nothing, and of the letter a.
  lemma CrcExamples()
    ensures Crc([]) == 0 && Crc([0x61]) == 0xe8b7be43
  {
    assert [0x61 as bv8][1..] == [];
  }

  lemma {:induction false} RegisterJoin(c: bv32, x: Octets, y: Octets)
    ensures Register(c, x + y) == Register(Register(c, x), y)
    decreases |x|
  {
    hide Shift, Plus;
    if x == [] {
      assert x + y == y;
    } else {
      assert (x + y)[1..] == x[1..] + y;
      RegisterJoin(Shift(Plus(c, x[0] as bv32), 8), x[1..], y);
    }
  }

  // Two registers that differ by d differ by d shifted after the same bytes.
  lemma {:induction false} RegisterLinear(c: bv32, d: bv32, bytes: Octets)
    ensures Register(Plus(c, d), bytes) == Plus(Register(c, bytes), Shift(d, 8 * |bytes|))
    decreases |bytes|
  {
    hide Step, Plus;
    if bytes != [] {
      var b := bytes[0] as bv32;
      PlusSwap(c, d, b, 0);
      ShiftLinear(Plus(c, b), d, 8);
      RegisterLinear(Shift(Plus(c, b), 8), Shift(d, 8), bytes[1..]);
      ShiftSum(d, 8, 8 * (|bytes| - 1));
    }
  }
}
