/** What `compress_block` writes for a sequence of literals and matches, and that the reader of the
    format gets exactly their LZ77 expansion back. */
module BlockCode {
  import opened Bits
  import opened Canonical
  import opened InfTreesSpec
  import opened Format
  import opened StaticTables

  // One entry of d_buf and l_buf: dist 0 is the literal lc; otherwise lc is the match length minus 3.
  datatype Token = Token(dist: nat, lc: byte)

  // ----- LZ77 expansion ----------------------------------------------------------------------------------

  function CopyFrom(out: Bytes, dist: nat, len: nat): (r: Bytes)
    requires 1 <= dist <= |out|
    ensures |r| == |out| + len
    decreases len
  {
    if len == 0 then out else CopyFrom(out + [out[|out| - dist]], dist, len - 1)
  }

  predicate TokenOk(out: Bytes, tok: Token) {
    tok.dist <= |out| && tok.dist <= 32768
  }

  function ExpandOne(out: Bytes, tok: Token): (r: Bytes) {
    if tok.dist == 0 then out + [tok.lc] else if tok.dist <= |out| then CopyFrom(out, tok.dist, tok.lc + 3) else out
  }

  function Expand(out: Bytes, toks: seq<Token>): (r: Bytes) {
    if toks == [] then out else ExpandOne(Expand(out, toks[..|toks| - 1]), toks[|toks| - 1])
  }

  // No match reaches back before the start of the output.
  predicate Expandable(out: Bytes, toks: seq<Token>) {
    toks != [] ==>
      Expandable(out, toks[..|toks| - 1]) && TokenOk(Expand(out, toks[..|toks| - 1]), toks[|toks| - 1])
  }

  // ----- the bits of a block -------------------------------------------------------------------------------

  function LitSym(tok: Token): (s: nat)
    ensures s < 286 && s != 256
  {
    if tok.dist == 0 then tok.lc else LengthSym(tok.lc + 3) + 257
  }

  function DSym(tok: Token): (s: nat)
    requires tok.dist > 0
    ensures s < 30
  {
    DistCodeOf(tok.dist - 1)
  }

  function LenExtra(tok: Token): (b: BitString)
    requires tok.dist > 0
  {
    var c := LengthSym(tok.lc + 3);
    if tok.lc + 3 >= LBASE[c] then ToBits(tok.lc + 3 - LBASE[c], EXTRA_LBITS[c]) else []
  }

  function DistExtra(tok: Token): (b: BitString)
    requires tok.dist > 0
  {
    var c := DSym(tok);
    if tok.dist >= DBASE[c] then ToBits(tok.dist - DBASE[c], EXTRA_DBITS[c]) else []
  }

  // The code of a symbol, which may lie beyond the lengths that were sent.
  function CodeOf(l: Lens, s: nat): (b: BitString) {
    if s < |l| then CodeBits(l, s) else []
  }

  predicate HasCode(l: Lens, s: nat) {
    s < |l| && l[s] != 0
  }

  function TokenBits(l: Lens, d: Lens, tok: Token): (b: BitString) {
    if tok.dist == 0 then CodeOf(l, tok.lc)
    else CodeOf(l, LitSym(tok)) + LenExtra(tok) + CodeOf(d, DSym(tok)) + DistExtra(tok)
  }

  function TokensBits(l: Lens, d: Lens, toks: seq<Token>): (b: BitString) {
    if toks == [] then [] else TokensBits(l, d, toks[..|toks| - 1]) + TokenBits(l, d, toks[|toks| - 1])
  }

  function BlockBits(l: Lens, d: Lens, toks: seq<Token>): (b: BitString) {
    TokensBits(l, d, toks) + CodeOf(l, 256)
  }

  // Both codes can express the block.
  ghost predicate Covers(l: Lens, d: Lens, toks: seq<Token>) {
    && Usable(l) && Usable(d) && HasCode(l, 256)
    && forall i :: 0 <= i < |toks| ==> HasCode(l, LitSym(toks[i])) && (toks[i].dist > 0 ==> HasCode(d, DSym(toks[i])))
  }

  // ----- reading what was written ----------------------------------------------------------------------------

  // b stands at bit pos of s.
  predicate At(s: BitString, pos: nat, b: BitString) {
    pos + |b| <= |s| && s[pos..pos + |b|] == b
  }

  lemma AtSplit(s: BitString, pos: nat, a: BitString, b: BitString)
    requires At(s, pos, a + b)
    ensures At(s, pos, a) && At(s, pos + |a|, b)
  {
    var c := s[pos..pos + |a + b|];
    assert c[..|a|] == a && c[|a|..] == b;
    assert s[pos..pos + |a|] == c[..|a|];
    assert s[pos + |a|..pos + |a| + |b|] == c[|a|..];
  }

  lemma FieldAt(s: BitString, pos: nat, v: nat, n: nat)
    requires At(s, pos, ToBits(v, n)) && v < Pow2(n)
    ensures Has(s, pos, n) && Field(s, pos, n) == v
  {
    FromToBits(v, n);
    LowSmall(v, n);
  }

  lemma SymAt(s: BitString, pos: nat, lens: Lens, sym: nat)
    requires Usable(lens) && HasCode(lens, sym) && At(s, pos, CodeOf(lens, sym))
    ensures pos <= |s| && DecodeSym(lens, s[pos..]) == Sym(sym)
  {
    hide DecodeSym;
    var c := CodeOf(lens, sym);
    assert s[pos..][..|c|] == s[pos..pos + |c|];
    PrefixIsTake(c, s[pos..]);
    DecodeSymIs(lens, sym, s[pos..]);
  }

  lemma LiteralDecodes(s: BitString, a: Abs, tok: Token)
    requires a.mode == Len && Usable(a.l) && tok.dist == 0 && HasCode(a.l, tok.lc)
    requires At(s, a.pos, CodeOf(a.l, tok.lc))
    ensures Reaches(s, a, a.(pos := a.pos + a.l[tok.lc], out := a.out + [tok.lc]))
  {
    hide DecodeSym, Reaches, Usable, CodeBits;
    SymAt(s, a.pos, a.l, tok.lc);
    var b := a.(pos := a.pos + a.l[tok.lc], mode := Lit(tok.lc));
    assert StepLen(s, a) == Next(b);
    ReachesStep(s, a, b);
    var c := a.(pos := a.pos + a.l[tok.lc], out := a.out + [tok.lc]);
    ReachesStep(s, b, c);
    ReachesTrans(s, a, b, c);
  }

  lemma LengthStep(s: BitString, a: Abs, tok: Token)
    requires a.mode == Len && Usable(a.l) && tok.dist > 0 && HasCode(a.l, LitSym(tok))
    requires At(s, a.pos, CodeOf(a.l, LitSym(tok)))
    ensures var c := LengthSym(tok.lc + 3);
            StepLen(s, a) == Next(a.(pos := a.pos + a.l[LitSym(tok)], mode := LenExt(LBASE[c], EXTRA_LBITS[c])))
  {
    hide DecodeSym, Usable, CodeBits, LBASE, LEXT, EXTRA_LBITS, LengthSym;
    Sizes();
    SymAt(s, a.pos, a.l, LitSym(tok));
    var c := LengthSym(tok.lc + 3);
    LastLength();
    if c < 28 {
      LengthExtras(c);
    }
  }

  lemma LengthExtraStep(s: BitString, a: Abs, tok: Token)
    requires tok.dist > 0 && a.mode == LenExt(LBASE[LengthSym(tok.lc + 3)], EXTRA_LBITS[LengthSym(tok.lc + 3)])
    requires At(s, a.pos, LenExtra(tok))
    ensures StepLenExt(s, a) == Next(a.(pos := a.pos + |LenExtra(tok)|, mode := Dist(tok.lc + 3)))
  {
    hide LBASE, EXTRA_LBITS, LengthSym, Field, Pow2;
    Sizes();
    var c := LengthSym(tok.lc + 3);
    LengthFits(tok.lc + 3);
    FieldAt(s, a.pos, tok.lc + 3 - LBASE[c], EXTRA_LBITS[c]);
  }

  lemma DistStep(s: BitString, a: Abs, tok: Token)
    requires tok.dist > 0 && a.mode.Dist? && Usable(a.d) && HasCode(a.d, DSym(tok))
    requires At(s, a.pos, CodeOf(a.d, DSym(tok)))
    ensures var c := DSym(tok);
            StepDist(s, a) == Next(a.(pos := a.pos + a.d[c], mode := DistExt(a.mode.length, DBASE[c], EXTRA_DBITS[c])))
  {
    hide DecodeSym, Usable, CodeBits, DBASE, DEXT, EXTRA_DBITS, DSym;
    Sizes();
    SymAt(s, a.pos, a.d, DSym(tok));
    DistExtras(DSym(tok));
  }

  lemma DistExtraStep(s: BitString, a: Abs, tok: Token)
    requires TokenOk(a.out, tok) && tok.dist > 0 && a.mode.DistExt?
    requires a.mode == DistExt(a.mode.length, DBASE[DSym(tok)], EXTRA_DBITS[DSym(tok)])
    requires At(s, a.pos, DistExtra(tok))
    ensures StepDistExt(s, a) == Next(a.(pos := a.pos + |DistExtra(tok)|, mode := Match(a.mode.length, tok.dist)))
  {
    hide DBASE, EXTRA_DBITS, DistSym, Field, Pow2;
    Sizes();
    var c := DSym(tok);
    DistFits(tok.dist);
    FieldAt(s, a.pos, tok.dist - DBASE[c], EXTRA_DBITS[c]);
  }

  // The copy goes byte by byte, so it may read what it has just written.
  lemma {:induction false} MatchCopies(s: BitString, a: Abs, len: nat, dist: nat)
    requires a.mode == Match(len, dist) && len >= 1 && 1 <= dist <= |a.out|
    ensures Reaches(s, a, a.(mode := Len, out := CopyFrom(a.out, dist, len)))
    decreases len
  {
    hide Reaches;
    var b := a.(out := a.out + [a.out[|a.out| - dist]], mode := if len == 1 then Len else Match(len - 1, dist));
    assert Step(s, a) == Next(b);
    ReachesStep(s, a, b);
    if len > 1 {
      MatchCopies(s, b, len - 1, dist);
      ReachesTrans(s, a, b, b.(mode := Len, out := CopyFrom(b.out, dist, len - 1)));
    } else {
      assert CopyFrom(a.out, dist, 1) == CopyFrom(b.out, dist, 0) == b.out;
    }
  }

  lemma TwoSteps(s: BitString, a: Abs, b: Abs, c: Abs)
    requires Step(s, a) == Next(b) && Step(s, b) == Next(c)
    ensures Reaches(s, a, c)
  {
    hide Step, Reaches;
    ReachesStep(s, a, b);
    ReachesStep(s, b, c);
    ReachesTrans(s, a, b, c);
  }

  lemma PairDecodes(s: BitString, a: Abs, tok: Token)
    requires a.mode == Len && Usable(a.l) && Usable(a.d)
    requires tok.dist > 0 && TokenOk(a.out, tok) && HasCode(a.l, LitSym(tok)) && HasCode(a.d, DSym(tok))
    requires At(s, a.pos, TokenBits(a.l, a.d, tok))
    ensures Reaches(s, a, a.(pos := a.pos + |TokenBits(a.l, a.d, tok)|, out := CopyFrom(a.out, tok.dist, tok.lc + 3)))
  {
    hide Reaches, Usable, CodeBits, LenExtra, DistExtra, LBASE, DBASE, EXTRA_LBITS, EXTRA_DBITS, LengthSym, DSym, LitSym, At, CopyFrom,
      StepLen, StepLenExt, StepDist, StepDistExt;
    Sizes();
    var b1, b2, b3, b4 := CodeOf(a.l, LitSym(tok)), LenExtra(tok), CodeOf(a.d, DSym(tok)), DistExtra(tok);
    AtSplit(s, a.pos, b1 + b2 + b3, b4);
    AtSplit(s, a.pos, b1 + b2, b3);
    AtSplit(s, a.pos, b1, b2);
    var c, e := LengthSym(tok.lc + 3), DSym(tok);
    LengthStep(s, a, tok);
    var a1 := a.(pos := a.pos + |b1|, mode := LenExt(LBASE[c], EXTRA_LBITS[c]));
    LengthExtraStep(s, a1, tok);
    var a2 := a1.(pos := a1.pos + |b2|, mode := Dist(tok.lc + 3));
    TwoSteps(s, a, a1, a2);
    DistStep(s, a2, tok);
    var a3 := a2.(pos := a2.pos + |b3|, mode := DistExt(tok.lc + 3, DBASE[e], EXTRA_DBITS[e]));
    DistExtraStep(s, a3, tok);
    var a4 := a3.(pos := a3.pos + |b4|, mode := Match(tok.lc + 3, tok.dist));
    TwoSteps(s, a2, a3, a4);
    ReachesTrans(s, a, a2, a4);
    MatchCopies(s, a4, tok.lc + 3, tok.dist);
    ReachesTrans(s, a, a4, a4.(mode := Len, out := CopyFrom(a4.out, tok.dist, tok.lc + 3)));
  }

  lemma TokenDecodes(s: BitString, a: Abs, tok: Token)
    requires a.mode == Len && Usable(a.l) && Usable(a.d)
    requires TokenOk(a.out, tok) && HasCode(a.l, LitSym(tok)) && (tok.dist > 0 ==> HasCode(a.d, DSym(tok)))
    requires At(s, a.pos, TokenBits(a.l, a.d, tok))
    ensures Reaches(s, a, a.(pos := a.pos + |TokenBits(a.l, a.d, tok)|, out := ExpandOne(a.out, tok)))
  {
    hide Reaches, Usable, LenExtra, DistExtra, LengthSym, DSym, At;
    if tok.dist == 0 {
      LiteralDecodes(s, a, tok);
    } else {
      PairDecodes(s, a, tok);
    }
  }

  lemma {:induction false} TokensDecode(s: BitString, a: Abs, toks: seq<Token>)
    requires a.mode == Len && Covers(a.l, a.d, toks) && Expandable(a.out, toks)
    requires At(s, a.pos, TokensBits(a.l, a.d, toks))
    ensures Reaches(s, a, a.(pos := a.pos + |TokensBits(a.l, a.d, toks)|, out := Expand(a.out, toks)))
  {
    hide Reaches, Usable, TokenBits, At, LitSym, DSym, TokenOk, ExpandOne;
    if toks == [] {
      ReachesSelf(s, a);
    } else {
      var n := |toks| - 1;
      AtSplit(s, a.pos, TokensBits(a.l, a.d, toks[..n]), TokenBits(a.l, a.d, toks[n]));
      TokensDecode(s, a, toks[..n]);
      var b := a.(pos := a.pos + |TokensBits(a.l, a.d, toks[..n])|, out := Expand(a.out, toks[..n]));
      TokenDecodes(s, b, toks[n]);
      ReachesTrans(s, a, b, b.(pos := b.pos + |TokenBits(a.l, a.d, toks[n])|, out := ExpandOne(b.out, toks[n])));
    }
  }

  lemma EndStep(s: BitString, a: Abs)
    requires a.mode == Len && Usable(a.l) && HasCode(a.l, 256) && At(s, a.pos, CodeOf(a.l, 256))
    ensures Step(s, a) == Next(a.(pos := a.pos + a.l[256], mode := TypeDo, l := [], d := []))
  {
    hide DecodeSym, Usable, CodeBits, At;
    SymAt(s, a.pos, a.l, 256);
  }

  // The block round trip: the bits of the tokens read back as their expansion, and the reader stops
  // right behind the end-of-block code.
  lemma BlockDecodes(s: BitString, a: Abs, toks: seq<Token>)
    requires a.mode == Len && Covers(a.l, a.d, toks) && Expandable(a.out, toks)
    requires At(s, a.pos, BlockBits(a.l, a.d, toks))
    ensures Reaches(s, a, Abs(a.pos + |BlockBits(a.l, a.d, toks)|, a.last, TypeDo, [], [], Expand(a.out, toks)))
  {
    hide Reaches, Usable, TokensBits, At, LitSym, DSym, Expandable, Expand, Step, CodeBits;
    AtSplit(s, a.pos, TokensBits(a.l, a.d, toks), CodeOf(a.l, 256));
    TokensDecode(s, a, toks);
    var b := a.(pos := a.pos + |TokensBits(a.l, a.d, toks)|, out := Expand(a.out, toks));
    EndStep(s, b);
    var c := Abs(a.pos + |BlockBits(a.l, a.d, toks)|, a.last, TypeDo, [], [], Expand(a.out, toks));
    ReachesStep(s, b, c);
    ReachesTrans(s, a, b, c);
  }
}
