/** What RFC 1951 says of its orders, codes and bits, as formulas, and that the reader and the writer go by them. */
module Standard {
  import opened Bits
  import opened Canonical
  import opened InfTreesSpec
  import opened Format
  import opened StaticTables
  import opened BlockCode
  import opened TreeCode
  import opened Blocks

  // ----- bits of bytes (section 3.1.1) -----------------------------------------------------------------------

  // Bytes travel in order, each from its lowest bit to its highest.
  lemma {:induction false} LowestFirst(s: Bytes, i: nat, j: nat)
    requires i < |s| && j < 8
    ensures BytesToBits(s)[8 * i + j] == (Shr(s[i], j) % 2 == 1)
    decreases i
  {
    if i == 0 {
      BitOf(s[0], 8, j);
    } else {
      LowestFirst(s[1..], i - 1, j);
      assert BytesToBits(s)[8 * i + j] == BytesToBits(s[1..])[8 * (i - 1) + j];
    }
  }

  lemma {:induction false} BitOf(v: nat, n: nat, j: nat)
    requires j < n
    ensures ToBits(v, n)[j] == (Shr(v, j) % 2 == 1)
    decreases j
  {
    if j > 0 {
      BitOf(v / 2, n - 1, j - 1);
    }
  }

  // ----- the example of section 3.2.2 ---------------------------------------------------------------------------

  const EXAMPLE: Lens := [3, 3, 3, 3, 3, 2, 4, 4]

  lemma ExampleStarts()
    ensures FirstCode(EXAMPLE, 8, 2) == 0 && FirstCode(EXAMPLE, 8, 3) == 2 && FirstCode(EXAMPLE, 8, 4) == 14
  {
    hide FirstCode, EndCode, Count;
    NextStart(EXAMPLE, 0);
    NextStart(EXAMPLE, 1);
    NextStart(EXAMPLE, 2);
    NextStart(EXAMPLE, 3);
    ExampleCounts(1);
    ExampleCounts(2);
    ExampleCounts(3);
    ShortestStart(EXAMPLE);
  }

  lemma ShortestStart(l: Lens)
    ensures FirstCode(l, |l|, 0) == 0
  {
  }

  lemma NextStart(l: Lens, b: nat)
    ensures FirstCode(l, |l|, b + 1) == 2 * (FirstCode(l, |l|, b) + Total(l, |l|, b))
  {
  }

  lemma ExampleCounts(b: nat)
    ensures Count(EXAMPLE, 4, b) == if b == 3 then 4 else 0
    ensures Count(EXAMPLE, 5, b) == if b == 3 then 5 else 0
    ensures Count(EXAMPLE, 6, b) == if b == 3 then 5 else if b == 2 then 1 else 0
    ensures Count(EXAMPLE, 7, b) == if b == 3 then 5 else if b == 2 || b == 4 then 1 else 0
    ensures Count(EXAMPLE, 8, b) == if b == 3 then 5 else if b == 2 then 1 else if b == 4 then 2 else 0
  {
    assert Count(EXAMPLE, 2, b) == if b == 3 then 2 else 0;
  }

  // For the lengths (3, 3, 3, 3, 3, 2, 4, 4) the codes are 010, ..., 110, 00, 1110, 1111.
  lemma ExampleCodes()
    ensures Code(EXAMPLE, 0) == 2 && Code(EXAMPLE, 4) == 6 && Code(EXAMPLE, 5) == 0 && Code(EXAMPLE, 6) == 14 && Code(EXAMPLE, 7) == 15
    ensures CodeBits(EXAMPLE, 4) == [true, true, false] && CodeBits(EXAMPLE, 6) == [true, true, true, false]
  {
    hide FirstCode, Count;
    ExampleStarts();
    ExampleCounts(2);
    ExampleCounts(3);
    ExampleCounts(4);
    NoneBefore(EXAMPLE, 3);
    CodeDigits();
  }

  lemma NoneBefore(l: Lens, b: nat)
    ensures Count(l, 0, b) == 0
  {
  }

  lemma CodeDigits()
    ensures MsbBits(6, 3) == [true, true, false] && MsbBits(14, 4) == [true, true, true, false]
  {
    var two, three: nat := 2, 3;
    assert MsbBits(6, two) == [true, false];
    assert MsbBits(14, two) == [true, false] && MsbBits(14, three) == [true, true, false];
  }

  // ----- the start of a block (section 3.2.3) --------------------------------------------------------------------

  // The first bit says whether the block is the last, the next two how it is coded: 00 stored, 10 with the fixed codes, 01
  // with its own; 11 is refused. A stored block goes on at the next byte.
  lemma BlockStart(s: BitString, a: Abs)
    requires a.mode == TypeDo && !a.last && Has(s, a.pos, 3)
    ensures var b := a.(pos := a.pos + 3, last := s[a.pos]);
            Step(s, a) == Next(
              match (s[a.pos + 1], s[a.pos + 2])
              case (false, false) => b.(pos := (a.pos + 10) / 8 * 8, mode := Stored)
              case (true, false) => b.(mode := Len, l := FixedLit(), d := FixedDist())
              case (false, true) => b.(mode := Table)
              case (true, true) => b.(mode := Bad))
  {
    var two: nat := 2;
    assert s[a.pos + 1..a.pos + 1 + two][1..] == [s[a.pos + 2]];
    assert FromBits([s[a.pos + 2]]) == if s[a.pos + 2] then 1 else 0;
  }

  lemma TypeIs(kind: nat, eof: bool)
    requires kind < 4
    ensures TypeBits(kind, eof) == [eof, kind % 2 == 1, kind / 2 == 1]
  {
    var two, three: nat := 2, 3;
    var v := 2 * kind + if eof then 1 else 0;
    assert ToBits(v, three) == [v % 2 == 1] + ToBits(kind, two);
    assert ToBits(kind, two) == [kind % 2 == 1] + ToBits(kind / 2, 1);
    assert ToBits(kind / 2, 1) == [kind / 2 == 1];
  }

  lemma BlocksStart(l: Lens, d: Lens, cl: Lens, n: nat, toks: seq<Token>, pad: nat, data: Bytes, eof: bool)
    requires 257 <= |l| && 1 <= |d| && |cl| == 19 && 4 <= n <= 19 && |data| < 65536
    ensures [eof, false, false] <= StoredBits(pad, data, eof) && [eof, true, false] <= FixedBits(toks, eof)
    ensures [eof, false, true] <= DynamicBits(l, d, cl, n, toks, eof)
  {
    hide ToBits, TypeBits, HeaderBits, BlockBits;
    TypeIs(0, eof);
    TypeIs(1, eof);
    TypeIs(2, eof);
  }

  // ----- stored blocks (section 3.2.4) ----------------------------------------------------------------------------

  // The length and its complement, two bytes each; anything else is refused.
  lemma StoredLength(s: BitString, a: Abs)
    requires a.mode == Stored && Has(s, a.pos, 32)
    ensures var len := Field(s, a.pos, 16);
            if Field(s, a.pos + 16, 16) == 65535 - len then Step(s, a) == Next(a.(pos := a.pos + 32, mode := Copy(len)))
            else Step(s, a) == Next(a.(mode := Bad))
  {
    hide Field, Pow2;
  }

  lemma StoredIs(pad: nat, data: Bytes, eof: bool)
    requires |data| < 65536
    ensures StoredBits(pad, data, eof)[3..] == ToBits(0, pad) + ToBits(|data|, 16) + ToBits(65535 - |data|, 16) + BytesToBits(data)
  {
    hide ToBits, BytesToBits;
    TypeIs(0, eof);
    var rest := ToBits(0, pad) + ToBits(|data|, 16) + ToBits(65535 - |data|, 16) + BytesToBits(data);
    assert StoredBits(pad, data, eof) == TypeBits(0, eof) + rest;
  }

  // ----- literals and the end of a block (section 3.2.5) ---------------------------------------------------------

  // Symbols below 256 stand for a byte, 256 ends the block.
  lemma LiteralSymbol(s: BitString, a: Abs, sym: nat)
    requires a.mode == Len && a.pos <= |s| && DecodeSym(a.l, s[a.pos..]) == Sym(sym) && sym <= 256 && sym < |a.l|
    ensures var b := a.(pos := a.pos + a.l[sym]);
            if sym == 256 then Step(s, a) == Next(b.(mode := TypeDo, l := [], d := []))
            else Step(s, a) == Next(b.(mode := Lit(sym))) && Step(s, b.(mode := Lit(sym))) == Next(b.(out := a.out + [sym]))
  {
    hide DecodeSym;
  }

  lemma LiteralIs(l: Lens, d: Lens, toks: seq<Token>, tok: Token)
    ensures tok.dist == 0 ==> TokenBits(l, d, tok) == CodeOf(l, tok.lc)
    ensures BlockBits(l, d, []) == CodeOf(l, 256)
    ensures BlockBits(l, d, [tok] + toks) == TokenBits(l, d, tok) + BlockBits(l, d, toks)
  {
    hide TokenBits, CodeOf;
    FirstToken(l, d, tok, toks);
    if tok.dist == 0 {
      OneLiteral(l, d, tok);
    }
  }

  lemma OneLiteral(l: Lens, d: Lens, tok: Token)
    requires tok.dist == 0
    ensures TokenBits(l, d, tok) == CodeOf(l, tok.lc)
  {
  }

  lemma {:induction false} FirstToken(l: Lens, d: Lens, tok: Token, toks: seq<Token>)
    ensures TokensBits(l, d, [tok] + toks) == TokenBits(l, d, tok) + TokensBits(l, d, toks)
    decreases |toks|
  {
    hide TokenBits;
    if toks == [] {
      assert [tok] + toks == [tok] && [tok][..0] == [];
    } else {
      var n := |toks| - 1;
      FirstToken(l, d, tok, toks[..n]);
      assert ([tok] + toks)[..n + 1] == [tok] + toks[..n];
    }
  }

  // ----- what a match copies (section 3.2.3) -------------------------------------------------------------------------

  // A distance may not reach back before the output.
  lemma Distance(s: BitString, a: Abs)
    requires a.mode.DistExt? && Has(s, a.pos, a.mode.extra)
    ensures var dist := a.mode.dbase + Field(s, a.pos, a.mode.extra);
            Step(s, a) == Next(a.(pos := a.pos + a.mode.extra, mode := if dist <= |a.out| then Match(a.mode.length, dist) else Bad))
  {
    hide Field;
  }

  // ----- the order of the code length code (section 3.2.7) --------------------------------------------------

  // The symbol whose length is sent in place i: first the repeat codes and zero, then outwards from 8.
  function SymbolIn(i: nat): (sym: nat)
    requires i < 19
    ensures sym < 19
  {
    if i < 3 then 16 + i else if i == 3 then 0 else if i % 2 == 0 then 8 + (i - 4) / 2 else 8 - (i - 3) / 2
  }

  lemma OrderIs(i: nat)
    requires i < 19
    ensures OrderOf(i) == SymbolIn(i)
  {
  }

  // What the reader makes of the lengths in the order in which they come.
  lemma LengthsInOrder(got: seq<nat>)
    requires |got| == 19
    ensures var cl := Permuted(got);
            && cl[16] == got[0] && cl[17] == got[1] && cl[18] == got[2] && cl[0] == got[3]
            && (forall j :: 0 <= j <= 7 ==> cl[8 + j] == got[4 + 2 * j])
            && (forall j :: 1 <= j <= 7 ==> cl[8 - j] == got[3 + 2 * j])
  {
    hide OrderOf, PermutedTo;
    forall i | 0 <= i < 19
      ensures Permuted(got)[SymbolIn(i)] == got[i]
    {
      OrderIs(i);
      PermutedAt(got, 19, i);
    }
    var cl := Permuted(got);
    assert cl[SymbolIn(0)] == got[0] && cl[SymbolIn(1)] == got[1] && cl[SymbolIn(2)] == got[2] && cl[SymbolIn(3)] == got[3];
    forall j | 0 <= j <= 7
      ensures cl[8 + j] == got[4 + 2 * j]
    {
      assert SymbolIn(4 + 2 * j) == 8 + j;
    }
    forall j | 1 <= j <= 7
      ensures cl[8 - j] == got[3 + 2 * j]
    {
      assert SymbolIn(3 + 2 * j) == 8 - j;
    }
  }

  // The lengths that did not come are zero.
  lemma LengthsLeftOut(got: seq<nat>, i: nat)
    requires |got| <= i < 19
    ensures Permuted(got)[SymbolIn(i)] == 0
  {
    OrderIs(i);
    PermutedAt(got, |got|, i);
  }

  lemma {:induction false} OrderField(cl: Lens, n: nat, i: nat)
    requires |cl| == 19 && i < n <= 19
    ensures |OrderBits(cl, n)| == 3 * n
    ensures OrderBits(cl, n)[3 * i..3 * i + 3] == ToBits(cl[SymbolIn(i)], 3)
    decreases n
  {
    hide OrderOf, ToBits, SymbolIn;
    OrderIs(n - 1);
    OrderSize(cl, n - 1);
    if i < n - 1 {
      OrderField(cl, n - 1, i);
      assert OrderBits(cl, n)[3 * i..3 * i + 3] == OrderBits(cl, n - 1)[3 * i..3 * i + 3];
    }
  }

  lemma {:induction false} OrderSize(cl: Lens, n: nat)
    requires |cl| == 19 && n <= 19
    ensures |OrderBits(cl, n)| == 3 * n
  {
    hide OrderOf, ToBits;
    if n > 0 {
      OrderSize(cl, n - 1);
    }
  }

  // What the writer puts into a header: behind 14 bits, three bits for each length in this order.
  lemma HeaderField(l: Lens, d: Lens, cl: Lens, n: nat, i: nat)
    requires 257 <= |l| && 1 <= |d| && |cl| == 19 && 4 <= n <= 19 && i < n
    ensures |HeaderBits(l, d, cl, n)| >= 14 + 3 * n
    ensures HeaderBits(l, d, cl, n)[14 + 3 * i..14 + 3 * i + 3] ==
            ToBits(cl[if i < 3 then 16 + i else if i == 3 then 0 else if i % 2 == 0 then 8 + (i - 4) / 2 else 8 - (i - 3) / 2], 3)
  {
    hide OrderBits, ItemsBits, Rle, ToBits;
    OrderField(cl, n, i);
    var counts, order, items := ToBits(|l| - 257, 5) + ToBits(|d| - 1, 5) + ToBits(n - 4, 4), OrderBits(cl, n), ItemsBits(cl, Rle(l) + Rle(d));
    assert HeaderBits(l, d, cl, n) == counts + order + items;
    assert (counts + order + items)[14 + 3 * i..14 + 3 * i + 3] == order[3 * i..3 * i + 3];
  }

  // The counts in front of them: 257 less than the number of literal/length codes, one less than that of distance codes,
  // four less than that of code length codes. More than 286 or 30 codes are refused.
  lemma Counts(s: BitString, a: Abs)
    requires a.mode == Table && Has(s, a.pos, 14)
    ensures var nlen, ndist, ncode := 257 + Field(s, a.pos, 5), 1 + Field(s, a.pos + 5, 5), 4 + Field(s, a.pos + 10, 4);
            Step(s, a) == Next(a.(pos := a.pos + 14, mode := if nlen <= 286 && ndist <= 30 then LenLens(nlen, ndist, ncode, []) else Bad))
  {
    hide Field;
  }

  // And the lengths behind them, those of the literals and lengths first.
  lemma HeaderIs(l: Lens, d: Lens, cl: Lens, n: nat)
    requires 257 <= |l| && 1 <= |d| && |cl| == 19 && 4 <= n <= 19
    ensures |HeaderBits(l, d, cl, n)| >= 14 + 3 * n
    ensures HeaderBits(l, d, cl, n)[..14] == ToBits(|l| - 257, 5) + ToBits(|d| - 1, 5) + ToBits(n - 4, 4)
    ensures HeaderBits(l, d, cl, n)[14 + 3 * n..] == ItemsBits(cl, Rle(l)) + ItemsBits(cl, Rle(d))
  {
    hide OrderBits, ItemsBits, Rle, ToBits;
    OrderSize(cl, n);
    ItemsBitsJoin(cl, Rle(l), Rle(d));
    var counts, order, items := ToBits(|l| - 257, 5) + ToBits(|d| - 1, 5) + ToBits(n - 4, 4), OrderBits(cl, n), ItemsBits(cl, Rle(l) + Rle(d));
    assert HeaderBits(l, d, cl, n) == counts + order + items;
    assert |counts| == 14 && |order| == 3 * n;
    assert (counts + order + items)[14 + 3 * n..] == items;
  }

  // ----- sets of codes (section 3.2.7) ----------------------------------------------------------------------------

  // How much of the bit strings of length 15 the codes of the first n symbols take up.
  function Taken(l: Lens, n: nat): nat
    requires n <= |l|
  {
    if n == 0 then 0 else Taken(l, n - 1) + if l[n - 1] == 0 || l[n - 1] > 15 then 0 else Pow2(15 - l[n - 1])
  }

  lemma {:induction false} TakenIs(l: Lens, n: nat)
    requires n <= |l|
    ensures Taken(l, n) == KraftAt(l, n, 15)
  {
    hide Pow2;
    if n > 0 {
      TakenIs(l, n - 1);
    }
  }

  // A set is taken if it has no codes, if its codes take up everything, or, except for the code length code, if it has a
  // single code of one bit.
  lemma SetsTaken(kind: Kind, l: Lens)
    ensures Acceptable(kind, l) <==>
            || (forall i :: 0 <= i < |l| ==> l[i] == 0)
            || Taken(l, |l|) == 32768
            || (kind != CODES && exists i :: 0 <= i < |l| && l[i] == 1 && forall j :: 0 <= j < |l| && j != i ==> l[j] == 0)
  {
    hide Pow2, KraftAt, Taken;
    Pow2Values();
    TakenIs(l, |l|);
    assert NoCodes(l) <==> forall i :: 0 <= i < |l| ==> l[i] == 0 by {
      assert forall i :: 0 <= i < |l| && l[i] != 0 ==> Coded(l, i);
    }
    if OneShortCode(l) {
      var i :| Coded(l, i);
      assert l[i] == 1;
      forall j | 0 <= j < |l| && j != i
        ensures l[j] == 0
      {
        if Coded(l, j) {
          TwoTaken(l, |l|, if i < j then i else j, if i < j then j else i);
        }
      }
    }
    forall i | 0 <= i < |l| && l[i] == 1 && (forall j :: 0 <= j < |l| && j != i ==> l[j] == 0)
      ensures OneShortCode(l)
    {
      assert Coded(l, i);
      OneTaken(l, |l|, i);
    }
  }

  lemma {:induction false} OneTaken(l: Lens, n: nat, i: nat)
    requires i < |l| && n <= |l| && l[i] == 1 && forall j :: 0 <= j < |l| && j != i ==> l[j] == 0
    ensures Taken(l, n) == if i < n then 16384 else 0
  {
    hide Pow2;
    Pow2Values();
    if n > 0 {
      OneTaken(l, n - 1, i);
    }
  }

  lemma {:induction false} TwoTaken(l: Lens, n: nat, i: nat, j: nat)
    requires i < j < n <= |l| && l[i] == 1 == l[j]
    ensures Taken(l, n) >= 32768
    decreases n
  {
    hide Pow2;
    Pow2Values();
    if j < n - 1 {
      TwoTaken(l, n - 1, i, j);
    } else {
      FirstTaken(l, n - 1, i);
    }
  }

  lemma {:induction false} FirstTaken(l: Lens, n: nat, i: nat)
    requires i < n <= |l| && l[i] == 1
    ensures Taken(l, n) >= 16384
    decreases n
  {
    hide Pow2;
    Pow2Values();
    if i < n - 1 {
      FirstTaken(l, n - 1, i);
    }
  }

  // Behind the last length both sets are tried.
  lemma SetsComplete(s: BitString, a: Abs)
    requires a.mode.CodeLens? && |a.mode.got| == a.mode.nlen + a.mode.ndist
    ensures var l, d := a.mode.got[..a.mode.nlen], a.mode.got[a.mode.nlen..];
            Step(s, a) == Next(if Acceptable(LENS, l) && Acceptable(DISTS, d) then a.(mode := Len, l := l, d := d) else a.(mode := Bad))
  {
    hide Acceptable;
  }

  // There is nothing for the first length to repeat.
  lemma NothingToRepeat(s: BitString, a: Abs)
    requires a.mode.CodeLens? && a.mode.got == [] && a.mode.nlen + a.mode.ndist > 0 && a.pos <= |s| && |a.mode.cl| > 16
    requires DecodeSym(a.mode.cl, s[a.pos..]) == Sym(16) && Has(s, a.pos + a.mode.cl[16], 2)
    ensures Step(s, a) == Next(a.(pos := a.pos + a.mode.cl[16], mode := Bad))
  {
    hide DecodeSym;
  }

  // ----- the repeat codes (section 3.2.7) -------------------------------------------------------------------------

  // A length stands for itself; 16 repeats the last length three to six times, 17 and 18 stand for 3 to 10 and 11 to
  // 138 zeros.
  lemma RepeatCodes(s: BitString, a: Abs, sym: nat)
    requires a.mode.CodeLens? && |a.mode.got| < a.mode.nlen + a.mode.ndist && a.pos <= |s| && DecodeSym(a.mode.cl, s[a.pos..]) == Sym(sym)
    requires sym < |a.mode.cl| && sym < 19 && (sym == 16 ==> a.mode.got != [])
    ensures var m, p := a.mode, a.pos + a.mode.cl[sym];
            var bits := if sym < 16 then 0 else if sym == 16 then 2 else if sym == 17 then 3 else 7;
            if !Has(s, p, bits) then StepCodeLens(s, a) == Stuck
            else
              var x := Field(s, p, bits);
              var n := if sym < 16 then 1 else if sym == 18 then x + 11 else x + 3;
              var v := if sym < 16 then sym else if sym == 16 then m.got[|m.got| - 1] else 0;
              StepCodeLens(s, a) == Next(a.(pos := p + bits, mode :=
                if |m.got| + n <= m.nlen + m.ndist then CodeLens(m.nlen, m.ndist, m.cl, m.got + seq(n, _ => v)) else Bad))
  {
    hide DecodeSym, Field;
  }

  // ----- lengths and distances (section 3.2.5) ----------------------------------------------------------------------

  function LengthBits(c: nat): nat {
    if c < 8 || c == 28 then 0 else c / 4 - 1
  }

  function LengthStart(c: nat): nat {
    if c < 8 then 3 + c else if c < 28 then 3 + (4 + c % 4) * Pow2(c / 4 - 1) else 258
  }

  function DistBits(c: nat): nat {
    if c < 2 then 0 else c / 2 - 1
  }

  function DistStart(c: nat): nat {
    if c < 2 then 1 + c else 1 + (2 + c % 2) * Pow2(c / 2 - 1)
  }

  lemma LengthCodesAre(c: nat)
    requires c < 29
    ensures |LBASE| >= 29 && |LEXT| >= 29 && |EXTRA_LBITS| == 29
    ensures LBASE[c] == LengthStart(c) && LEXT[c] == LengthBits(c) + 16 && EXTRA_LBITS[c] == LengthBits(c)
  {
    if c < 16 {
      ShortCodesAre(c);
    } else {
      LongCodesAre(c);
    }
  }

  lemma ShortCodesAre(c: nat)
    requires c < 16
    ensures |LBASE| >= 29 && |LEXT| >= 29 && |EXTRA_LBITS| == 29
    ensures LBASE[c] == LengthStart(c) && LEXT[c] == LengthBits(c) + 16 && EXTRA_LBITS[c] == LengthBits(c)
  {
    hide Pow2;
    Pow2Values();
  }

  lemma LongCodesAre(c: nat)
    requires 16 <= c < 29
    ensures |LBASE| >= 29 && |LEXT| >= 29 && |EXTRA_LBITS| == 29
    ensures LBASE[c] == LengthStart(c) && LEXT[c] == LengthBits(c) + 16 && EXTRA_LBITS[c] == LengthBits(c)
  {
    hide Pow2;
    Pow2Values();
  }

  lemma DistCodesAre(c: nat)
    requires c < 30
    ensures |DBASE| >= 30 && |DEXT| >= 30 && |EXTRA_DBITS| == 30
    ensures DBASE[c] == DistStart(c) && DEXT[c] == DistBits(c) + 16 && EXTRA_DBITS[c] == DistBits(c)
  {
    if c < 16 {
      NearCodesAre(c);
    } else {
      FarCodesAre(c);
    }
  }

  lemma NearCodesAre(c: nat)
    requires c < 16
    ensures |DBASE| >= 30 && |DEXT| >= 30 && |EXTRA_DBITS| == 30
    ensures DBASE[c] == DistStart(c) && DEXT[c] == DistBits(c) + 16 && EXTRA_DBITS[c] == DistBits(c)
  {
    hide Pow2;
    Pow2Values();
  }

  lemma FarCodesAre(c: nat)
    requires 16 <= c < 30
    ensures |DBASE| >= 30 && |DEXT| >= 30 && |EXTRA_DBITS| == 30
    ensures DBASE[c] == DistStart(c) && DEXT[c] == DistBits(c) + 16 && EXTRA_DBITS[c] == DistBits(c)
  {
    hide Pow2;
    Pow2Values();
  }

  // Where the reader goes with a symbol of the literal/length code ...
  lemma LengthSymbol(s: BitString, a: Abs, c: nat)
    requires a.mode == Len && a.pos <= |s| && DecodeSym(a.l, s[a.pos..]) == Sym(257 + c) && 257 + c < |a.l|
    ensures StepLen(s, a) == Next(a.(pos := a.pos + a.l[257 + c], mode := if c < 29 then LenExt(LengthStart(c), LengthBits(c)) else Bad))
  {
    hide DecodeSym, LBASE, LEXT, LengthStart, LengthBits;
    if c < 29 {
      LengthCodesAre(c);
    }
  }

  // ... and of the distance code.
  lemma DistSymbol(s: BitString, a: Abs, c: nat)
    requires a.mode.Dist? && a.pos <= |s| && DecodeSym(a.d, s[a.pos..]) == Sym(c) && c < |a.d|
    ensures StepDist(s, a) ==
            Next(a.(pos := a.pos + a.d[c], mode := if c < 30 then DistExt(a.mode.length, DistStart(c), DistBits(c)) else Bad))
  {
    hide DecodeSym, DBASE, DEXT, DistStart, DistBits;
    if c < 30 {
      DistCodesAre(c);
    }
  }

  // The code of a length: 258 has one of its own, the others lie in the range of theirs.
  lemma LengthCodeOf(len: nat)
    requires 3 <= len <= 258
    ensures var c := LengthSym(len);
            && c < 29 && (c == 28 <==> len == 258) && LengthStart(c) <= len < LengthStart(c) + Pow2(LengthBits(c))
  {
    hide LBASE, EXTRA_LBITS, LengthSym, LengthStart, LengthBits, Pow2;
    LengthFits(len);
    LengthCodesAre(LengthSym(len));
  }

  lemma DistCodeFor(dist: nat)
    requires 1 <= dist <= 32768
    ensures var c := DistSym(dist); c < 30 && DistStart(c) <= dist < DistStart(c) + Pow2(DistBits(c))
  {
    hide DBASE, EXTRA_DBITS, DistSym, DistStart, DistBits, Pow2;
    DistFits(dist);
    DistCodesAre(DistSym(dist));
  }

  // What the tables of the compressor hold.
  lemma TablesAre(t: Static)
    requires StaticOk(t)
    ensures |t.baseLength| == 29 && |t.baseDist| == 30 && |t.lengthCode| == 256 && |t.distCode| == 512
    ensures forall c :: 0 <= c < 28 ==> t.baseLength[c] + 3 == LengthStart(c)
    ensures forall c :: 0 <= c < 30 ==> t.baseDist[c] + 1 == DistStart(c)
    ensures forall lc :: 0 <= lc < 256 ==>
              var c := t.lengthCode[lc];
              c < 29 && (c == 28 <==> lc == 255) && LengthStart(c) <= lc + 3 < LengthStart(c) + Pow2(LengthBits(c))
    ensures forall dist :: 0 <= dist < 32768 ==>
              var c := DCode(t, dist); c < 30 && DistStart(c) <= dist + 1 < DistStart(c) + Pow2(DistBits(c))
  {
    hide LBASE, DBASE, LengthSym, DistSym, DCode, LengthStart, LengthBits, DistStart, DistBits, Pow2, RevCode;
    forall c | 0 <= c < 28
      ensures t.baseLength[c] + 3 == LengthStart(c)
    {
      LengthCodesAre(c);
    }
    forall c | 0 <= c < 30
      ensures t.baseDist[c] + 1 == DistStart(c)
    {
      DistCodesAre(c);
    }
    forall lc | 0 <= lc < 256
      ensures var c := t.lengthCode[lc];
              c < 29 && (c == 28 <==> lc == 255) && LengthStart(c) <= lc + 3 < LengthStart(c) + Pow2(LengthBits(c))
    {
      LengthCodeOf(lc + 3);
    }
    forall dist | 0 <= dist < 32768
      ensures var c := DCode(t, dist); c < 30 && DistStart(c) <= dist + 1 < DistStart(c) + Pow2(DistBits(c))
    {
      DistCodeFor(dist + 1);
    }
  }

  // What the writer sends for a pair.
  lemma PairIs(l: Lens, d: Lens, tok: Token)
    requires 0 < tok.dist <= 32768
    ensures exists c, e :: c < 29 && e < 30 && PairWith(l, d, tok, c, e)
  {
    hide LBASE, DBASE, EXTRA_LBITS, EXTRA_DBITS, LengthSym, DistSym, LengthStart, LengthBits, DistStart, DistBits,
      Pow2, ToBits, CodeOf, TokenBits;
    var len: nat := tok.lc + 3;
    var c, e := LengthSym(len), DistSym(tok.dist);
    LengthCodeOf(len);
    DistCodeFor(tok.dist);
    LengthCodesAre(c);
    DistCodesAre(e);
    PairBitsAre(l, d, tok);
    assert PairWith(l, d, tok, c, e);
  }

  lemma PairBitsAre(l: Lens, d: Lens, tok: Token)
    requires 0 < tok.dist <= 32768
    ensures var len: nat := tok.lc + 3;
            var c, e := LengthSym(len), DistSym(tok.dist);
            && LBASE[c] <= len && DBASE[e] <= tok.dist
            && TokenBits(l, d, tok) ==
               CodeOf(l, 257 + c) + ToBits(len - LBASE[c], EXTRA_LBITS[c]) + CodeOf(d, e) + ToBits(tok.dist - DBASE[e], EXTRA_DBITS[e])
  {
    hide LBASE, DBASE, EXTRA_LBITS, EXTRA_DBITS, LengthSym, DistSym, Pow2, ToBits, CodeOf;
    Sizes();
    LengthFits(tok.lc + 3);
    DistFits(tok.dist);
  }

  // The length symbol and distance symbol of a pair, each with what is left of the length or distance.
  ghost predicate PairWith(l: Lens, d: Lens, tok: Token, c: nat, e: nat) {
    var len: nat := tok.lc + 3;
    && (c == 28 <==> len == 258) && LengthStart(c) <= len < LengthStart(c) + Pow2(LengthBits(c))
    && DistStart(e) <= tok.dist < DistStart(e) + Pow2(DistBits(e))
    && TokenBits(l, d, tok) ==
       CodeOf(l, 257 + c) + ToBits(len - LengthStart(c), LengthBits(c)) + CodeOf(d, e) + ToBits(tok.dist - DistStart(e), DistBits(e))
  }
}
