/** The canonical Huffman code that a sequence of code lengths determines (section 3.2.2 of RFC
    1951). A length of zero means that the symbol has no code. Compressor and decompressor both
    rebuild the code from the lengths; everything they must agree on is proved here once. */
module Canonical {
  import opened Bits

  const MAX_BITS: nat := 15

  type Lens = seq<nat>

  predicate LensOk(lens: Lens) {
    forall s :: 0 <= s < |lens| ==> lens[s] <= MAX_BITS
  }

  predicate Coded(lens: Lens, s: int) {
    0 <= s < |lens| && lens[s] != 0
  }

  // How many of the first n symbols have length b.
  function Count(lens: Lens, n: nat, b: nat): (r: nat)
    requires n <= |lens|
    ensures r <= n
  {
    if n == 0 then 0 else Count(lens, n - 1, b) + (if lens[n - 1] == b then 1 else 0)
  }

  // bl_count: how many symbols have length b, with length zero not counted.
  function Total(lens: Lens, n: nat, b: nat): nat
    requires n <= |lens|
  {
    if b == 0 then 0 else Count(lens, n, b)
  }

  // next_code: the first code of length b, when only the first n symbols are in the code.
  function FirstCode(lens: Lens, n: nat, b: nat): nat
    requires n <= |lens|
    decreases b, 0
  {
    if b == 0 then 0 else 2 * EndCode(lens, n, b - 1)
  }

  // One past the last code of length b.
  function EndCode(lens: Lens, n: nat, b: nat): nat
    requires n <= |lens|
    decreases b, 1
  {
    FirstCode(lens, n, b) + Total(lens, n, b)
  }

  function Code(lens: Lens, s: nat): nat
    requires s < |lens|
  {
    FirstCode(lens, |lens|, lens[s]) + Count(lens, s, lens[s])
  }

  // The code as it travels, and as the number the decoder sees in its accumulator.
  function CodeBits(lens: Lens, s: nat): (b: BitString)
    requires s < |lens|
    ensures |b| == lens[s]
  {
    MsbBits(Code(lens, s), lens[s])
  }

  function RevCode(lens: Lens, s: nat): (r: nat)
    requires s < |lens|
    ensures r < Pow2(lens[s])
  {
    Reverse(Code(lens, s), lens[s])
  }

  // The Kraft sum over the first n symbols in units of 2^-m; longer codes are left out.
  function KraftAt(lens: Lens, n: nat, m: nat): nat
    requires n <= |lens|
  {
    if n == 0 then 0
    else KraftAt(lens, n - 1, m) + (if 0 < lens[n - 1] <= m then Pow2(m - lens[n - 1]) else 0)
  }

  function Kraft(lens: Lens): nat {
    KraftAt(lens, |lens|, MAX_BITS)
  }

  predicate NotOversubscribed(lens: Lens) {
    Kraft(lens) <= Pow2(MAX_BITS)
  }

  predicate Complete(lens: Lens) {
    Kraft(lens) == Pow2(MAX_BITS)
  }

  // ----- counting -----------------------------------------------------------------------------

  lemma {:induction false} CountMonotone(lens: Lens, m: nat, n: nat, b: nat)
    requires m <= n <= |lens|
    ensures Count(lens, m, b) <= Count(lens, n, b)
    ensures m < n && lens[m] == b ==> Count(lens, m, b) < Count(lens, n, b)
  {
    if m < n {
      CountMonotone(lens, m, n - 1, b);
    }
  }

  // The r-th symbol of length b.
  lemma {:induction false} FindRank(lens: Lens, n: nat, b: nat, r: nat) returns (s: nat)
    requires n <= |lens| && r < Count(lens, n, b)
    ensures s < n && lens[s] == b && Count(lens, s, b) == r
  {
    if lens[n - 1] == b && Count(lens, n - 1, b) == r {
      s := n - 1;
    } else {
      s := FindRank(lens, n - 1, b, r);
    }
  }

  // ----- the Kraft sum is where the codes of the greatest length end ------------------------------

  lemma {:induction false} EndCodeStep(lens: Lens, n: nat, b: nat)
    requires 0 < n <= |lens|
    ensures var l := lens[n - 1];
            EndCode(lens, n, b) == EndCode(lens, n - 1, b) + (if 0 < l <= b then Pow2(b - l) else 0)
  {
    if b > 0 {
      EndCodeStep(lens, n, b - 1);
    }
  }

  lemma {:induction false} EndCodeEmpty(lens: Lens, b: nat)
    ensures EndCode(lens, 0, b) == 0
  {
    if b > 0 {
      EndCodeEmpty(lens, b - 1);
    }
  }

  lemma {:induction false} KraftIsEndCode(lens: Lens, n: nat, m: nat)
    requires n <= |lens|
    ensures KraftAt(lens, n, m) == EndCode(lens, n, m)
  {
    if n == 0 {
      EndCodeEmpty(lens, m);
    } else {
      KraftIsEndCode(lens, n - 1, m);
      EndCodeStep(lens, n, m);
    }
  }

  // The same sum in smaller units.
  lemma {:induction false} KraftScale(lens: Lens, n: nat, m: nat, d: nat)
    requires n <= |lens| && forall x :: 0 <= x < |lens| ==> lens[x] <= m
    ensures KraftAt(lens, n, m + d) == Shl(KraftAt(lens, n, m), d)
  {
    hide Pow2, Shl;
    if n == 0 {
      ShlZero(d);
    } else {
      KraftScale(lens, n - 1, m, d);
      if lens[n - 1] > 0 {
        ShlPow2(m - lens[n - 1], d);
        ShlAdd(KraftAt(lens, n - 1, m), Pow2(m - lens[n - 1]), d);
      }
    }
  }

  // Codes of length b, extended with zeros to length b + d, all lie below the next first code.
  lemma {:induction false} EndCodeGrows(lens: Lens, b: nat, d: nat)
    ensures Shl(EndCode(lens, |lens|, b), d) <= EndCode(lens, |lens|, b + d)
    ensures d > 0 ==> Shl(EndCode(lens, |lens|, b), d) <= FirstCode(lens, |lens|, b + d)
  {
    if d > 0 {
      EndCodeGrows(lens, b, d - 1);
    }
  }

  lemma EndCodeFits(lens: Lens, b: nat)
    requires LensOk(lens) && NotOversubscribed(lens) && b <= MAX_BITS
    ensures EndCode(lens, |lens|, b) <= Pow2(b)
  {
    var m: nat := MAX_BITS;
    var e := EndCode(lens, |lens|, b);
    KraftIsEndCode(lens, |lens|, m);
    EndCodeGrows(lens, b, m - b);
    ShlPow2(b, m - b);
    ShlMonotone(Pow2(b), e, m - b);
  }

  lemma CodeFits(lens: Lens, s: nat)
    requires LensOk(lens) && NotOversubscribed(lens) && Coded(lens, s)
    ensures FirstCode(lens, |lens|, lens[s]) <= Code(lens, s) < EndCode(lens, |lens|, lens[s])
    ensures Code(lens, s) < Pow2(lens[s])
  {
    CountMonotone(lens, s, |lens|, lens[s]);
    EndCodeFits(lens, lens[s]);
  }

  // ----- no code is a prefix of another -----------------------------------------------------------

  lemma SameLengthDiffers(lens: Lens, s: nat, t: nat)
    requires Coded(lens, s) && Coded(lens, t) && s < t && lens[s] == lens[t]
    ensures Code(lens, t) > Code(lens, s)
  {
    CountMonotone(lens, s, t, lens[s]);
  }

  lemma LongerComesLater(lens: Lens, s: nat, t: nat)
    requires LensOk(lens) && NotOversubscribed(lens)
    requires Coded(lens, s) && Coded(lens, t) && lens[s] < lens[t]
    ensures Shr(Code(lens, t), lens[t] - lens[s]) > Code(lens, s)
  {
    hide Code, EndCode, FirstCode, Shr, Shl, Pow2, LensOk, NotOversubscribed;
    var e := EndCode(lens, |lens|, lens[s]);
    CodeFits(lens, s);
    CodeFits(lens, t);
    EndCodeGrows(lens, lens[s], lens[t] - lens[s]);
    ShrAtLeast(Code(lens, t), e, lens[t] - lens[s]);
  }

  lemma PrefixFreeMsb(lens: Lens, s: nat, t: nat)
    requires LensOk(lens) && NotOversubscribed(lens)
    requires Coded(lens, s) && Coded(lens, t) && s != t && lens[s] <= lens[t]
    ensures Shr(Code(lens, t), lens[t] - lens[s]) != Code(lens, s)
  {
    if lens[s] < lens[t] {
      LongerComesLater(lens, s, t);
    } else if s < t {
      SameLengthDiffers(lens, s, t);
    } else {
      SameLengthDiffers(lens, t, s);
    }
  }

  lemma ShrAtLeast(x: nat, q: nat, k: nat)
    requires x >= Shl(q, k)
    ensures Shr(x, k) >= q
  {
    ShrMonotone(Shl(q, k), x, k);
    ShrOfShl(q, 0, k);
  }

  lemma PrefixFree(lens: Lens, s: nat, t: nat)
    requires LensOk(lens) && NotOversubscribed(lens)
    requires Coded(lens, s) && Coded(lens, t) && s != t && lens[s] <= lens[t]
    ensures Low(RevCode(lens, t), lens[s]) != RevCode(lens, s)
  {
    hide Code, Low, Shr, Reverse, Pow2, NotOversubscribed, LensOk;
    var d := lens[t] - lens[s];
    var p := Shr(Code(lens, t), d);
    PrefixFreeMsb(lens, s, t);
    CodeFits(lens, s);
    CodeFits(lens, t);
    ReversePrefix(Code(lens, t), lens[s], d);
    ShrBelow(Code(lens, t), d, lens[s]);
    if Reverse(p, lens[s]) == RevCode(lens, s) {
      ReverseInjective(p, Code(lens, s), lens[s]);
    }
  }

  // ----- below the Kraft sum every bit pattern starts with a code ----------------------------------

  lemma FindCode(lens: Lens, v: nat) returns (s: nat)
    requires LensOk(lens) && NotOversubscribed(lens) && v < Kraft(lens)
    ensures Coded(lens, s) && Shr(v, MAX_BITS - lens[s]) == Code(lens, s)
  {
    var m: nat := MAX_BITS;
    KraftIsEndCode(lens, |lens|, m);
    s := FindCodeOfLength(lens, v, m);
  }

  lemma {:induction false} FindCodeOfLength(lens: Lens, v: nat, b: nat) returns (s: nat)
    requires b <= MAX_BITS && Shr(v, MAX_BITS - b) < EndCode(lens, |lens|, b)
    ensures Coded(lens, s) && lens[s] <= b && Shr(v, MAX_BITS - lens[s]) == Code(lens, s)
    decreases b
  {
    var c := Shr(v, MAX_BITS - b);
    if c < FirstCode(lens, |lens|, b) {
      ShrShr(v, MAX_BITS - b, 1);
      assert Shr(c, 1) == c / 2;
      s := FindCodeOfLength(lens, v, b - 1);
    } else {
      s := FindRank(lens, |lens|, b, c - FirstCode(lens, |lens|, b));
    }
  }

  // The same for the accumulator, whose low bits are the next bits of the stream.
  lemma FindRevCode(lens: Lens, w: nat) returns (s: nat)
    requires LensOk(lens) && Complete(lens)
    ensures Coded(lens, s) && Low(w, lens[s]) == RevCode(lens, s)
  {
    var w' := Low(w, MAX_BITS);
    var v := Reverse(w', MAX_BITS);
    s := FindCode(lens, v);
    var d := MAX_BITS - lens[s];
    ReverseReverse(w', MAX_BITS);
    ReversePrefix(v, lens[s], d);
    LowLow(w, lens[s], MAX_BITS);
  }

  // ----- codes as bit strings ----------------------------------------------------------------------

  lemma RevCodeBits(lens: Lens, s: nat)
    requires s < |lens|
    ensures FromBits(CodeBits(lens, s)) == RevCode(lens, s)
    ensures ToBits(RevCode(lens, s), lens[s]) == CodeBits(lens, s)
  {
    ReverseIsMsb(Code(lens, s), lens[s]);
  }

  lemma PrefixIsTake<T>(a: seq<T>, b: seq<T>)
    requires |a| <= |b|
    ensures a <= b <==> b[..|a|] == a
  {
    assert b == b[..|a|] + b[|a|..];
  }

  // A code starts the stream exactly when the accumulator's low bits are the reversed code.
  lemma CodeStarts(lens: Lens, s: nat, rest: BitString)
    requires s < |lens| && lens[s] <= |rest|
    ensures CodeBits(lens, s) <= rest <==> Low(FromBits(rest), lens[s]) == RevCode(lens, s)
  {
    var l := lens[s];
    var c := CodeBits(lens, s);
    RevCodeBits(lens, s);
    FromBitsSplit(rest, l);
    PrefixIsTake(c, rest);
    if FromBits(rest[..l]) == FromBits(c) {
      FromBitsInjective(rest[..l], c);
    }
  }

  ghost predicate StartsWith(lens: Lens, s: int, rest: BitString) {
    Coded(lens, s) && CodeBits(lens, s) <= rest
  }

  lemma UniqueStart(lens: Lens, s: int, t: int, rest: BitString)
    requires LensOk(lens) && NotOversubscribed(lens)
    requires StartsWith(lens, s, rest) && StartsWith(lens, t, rest)
    ensures s == t
  {
    if s != t {
      var a, b := if lens[s] <= lens[t] then s else t, if lens[s] <= lens[t] then t else s;
      CodeStarts(lens, a, rest);
      CodeStarts(lens, b, rest);
      LowLow(FromBits(rest), lens[a], lens[b]);
      PrefixFree(lens, a, b);
    }
  }

  // ----- decoding one symbol -----------------------------------------------------------------------

  datatype SymResult = Sym(s: nat) | NeedMore | BadCode

  // The symbol whose code starts `rest`; undecided while the bits at hand could still become a
  // code. No decision is ever taken on no bits at all.
  ghost function DecodeSym(lens: Lens, rest: BitString): (r: SymResult)
    ensures r.Sym? ==> StartsWith(lens, r.s, rest)
    ensures r.BadCode? ==> rest != []
  {
    if exists s :: StartsWith(lens, s, rest) then
      var s :| StartsWith(lens, s, rest); Sym(s)
    else if rest == [] || exists s :: Coded(lens, s) && rest <= CodeBits(lens, s) then NeedMore
    else BadCode
  }

  lemma DecodeSymIs(lens: Lens, s: nat, rest: BitString)
    requires LensOk(lens) && NotOversubscribed(lens) && StartsWith(lens, s, rest)
    ensures DecodeSym(lens, rest) == Sym(s)
  {
    var t :| StartsWith(lens, t, rest) && DecodeSym(lens, rest) == Sym(t);
    UniqueStart(lens, s, t, rest);
  }

  lemma PrefixesComparable(c: BitString, rest: BitString, more: BitString)
    ensures c <= rest + more ==> c <= rest || rest <= c
    ensures rest + more <= c ==> rest <= c
  {
    var r := rest + more;
    assert rest == r[..|rest|];
    if c <= r {
      assert c == r[..|c|];
    }
  }

  // Bits that arrive later never change a decision.
  lemma DecodeSymStable(lens: Lens, rest: BitString, more: BitString)
    requires LensOk(lens) && NotOversubscribed(lens)
    requires DecodeSym(lens, rest) != NeedMore
    ensures DecodeSym(lens, rest + more) == DecodeSym(lens, rest)
  {
    var r := rest + more;
    if DecodeSym(lens, rest).Sym? {
      DecodeSymIs(lens, DecodeSym(lens, rest).s, r);
    } else {
      forall s | Coded(lens, s)
        ensures !StartsWith(lens, s, r) && !(r <= CodeBits(lens, s))
      {
        assert !StartsWith(lens, s, rest) && !(rest <= CodeBits(lens, s));
        PrefixesComparable(CodeBits(lens, s), rest, more);
      }
    }
  }
}
