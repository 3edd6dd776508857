/** When a block is written without overwriting tokens that are still to be sent, and when it is not. */
module OverlayRoom {
  import opened Bits
  import opened Canonical
  import opened InfTreesSpec
  import opened Format
  import opened BitLengths
  import opened StaticTables
  import opened BitOutput
  import opened BlockCode
  import opened TreeCost
  import opened Overlay
  import opened Coverage
  import opened Blocks
  import opened TreeCode
  import T = Trees

  // No distance is greater than `far`; with zero there are only literals.
  ghost predicate AllNear(toks: seq<Token>, far: nat) {
    forall i :: 0 <= i < |toks| ==> toks[i].dist <= far
  }

  function FixedCost(tok: Token): nat {
    |TokenBits(FixedLit(), FixedDist(), tok)|
  }

  // ----- bits of the first tokens -------------------------------------------------------------------------------

  lemma {:induction false} FirstAtMost(l: Lens, d: Lens, toks: seq<Token>, i: nat, cost: nat)
    requires i <= |toks| && forall k :: 0 <= k < i ==> |TokenBits(l, d, toks[k])| <= cost
    ensures |TokensBits(l, d, toks[..i])| <= cost * i
  {
    hide TokenBits;
    if i > 0 {
      FirstAtMost(l, d, toks, i - 1, cost);
      assert toks[..i][..i - 1] == toks[..i - 1];
      assert cost * i == cost * (i - 1) + cost;
    }
  }

  // Every token takes at least one bit.
  lemma {:induction false} FirstOfAll(l: Lens, d: Lens, toks: seq<Token>, i: nat)
    requires i <= |toks| && forall k :: 0 <= k < |toks| ==> |TokenBits(l, d, toks[k])| >= 1
    ensures |TokensBits(l, d, toks[..i])| + (|toks| - i) <= |TokensBits(l, d, toks)|
    decreases |toks| - i
  {
    hide TokenBits;
    if i == |toks| {
      assert toks[..i] == toks;
    } else {
      FirstOfAll(l, d, toks, i + 1);
      assert toks[..i + 1][..i] == toks[..i];
    }
  }

  lemma SomeBits(l: Lens, d: Lens, toks: seq<Token>, k: nat)
    requires Covers(l, d, toks) && k < |toks|
    ensures |TokenBits(l, d, toks[k])| >= 1
  {
    hide Usable, LenExtra, DistExtra, DSym, CodeBits;
  }

  // ----- static blocks --------------------------------------------------------------------------------------------

  lemma NearCode(tok: Token)
    requires 0 < tok.dist <= 256
    ensures ExtraBits(DDesc(), DSym(tok)) <= 6
  {
    hide DBASE, SymFor;
    Sizes();
    var c := DSym(tok);
    assert DBASE[c] <= tok.dist by { FirstDist(); }
    if c > 16 {
      DistBasesRise(16, c);
    }
    FirstDist();
    SmallExtras(c);
  }

  lemma FirstDist()
    ensures |DBASE| == 32 && DBASE[0] == 1 && DBASE[16] == 257
  {
  }

  lemma SmallExtras(c: nat)
    requires c < 16
    ensures EXTRA_DBITS[c] <= 6
  {
  }

  // With static trees a literal takes up to nine bits, and a pair whose distance is up to 256 no more than 24 ...
  lemma NearCosts(tok: Token)
    requires tok.dist <= 256
    ensures FixedCost(tok) <= if tok.dist == 0 then 9 else 24
  {
    hide LenExtra, DistExtra, DSym, LengthSym, CodeBits, ExtraBits;
    if tok.dist > 0 {
      LitExtra(tok);
      DistExtraLen(tok);
      T.ExtraLimits(tok);
      NearCode(tok);
    }
  }

  // ... while one more takes 25.
  lemma FarCosts(dist: nat)
    requires 257 <= dist <= 384
    ensures FixedCost(Token(dist, 128)) == 25
  {
    hide LenExtra, DistExtra, DSym, LengthSym, CodeBits, ExtraBits, LitSym;
    var tok := Token(dist, 128);
    LitExtra(tok);
    DistExtraLen(tok);
    FarCodes(dist);
  }

  lemma FarCodes(dist: nat)
    requires 257 <= dist <= 384
    ensures var tok := Token(dist, 128);
            && LitSym(tok) == 281 && DSym(tok) == 16
            && ExtraBits(LDesc(), LitSym(tok)) == 5 && ExtraBits(DDesc(), DSym(tok)) == 7
  {
    hide Pow2, LengthSym, DistSym;
    Pow2Values();
    LengthSymIs(24, 131);
    DistSymIs(16, dist);
  }

  // The comment at zlib/deflate.c:229-231 speaks of 24 bits on the average. If no token takes more, none is overwritten.
  lemma ThriftySpared(held: nat, toks: seq<Token>, size: nat)
    requires held <= 16 && |toks| < size && 128 <= size && forall i :: 0 <= i < |toks| ==> FixedCost(toks[i]) <= 24
    ensures Spared(held + 3, FixedLit(), FixedDist(), toks, size)
  {
    hide TokenBits, TokensBits, FixedLit, FixedDist;
    forall i | 0 <= i < |toks|
      ensures Before(held + 3, FixedLit(), FixedDist(), toks, i) <= size + 2 * i
    {
      FirstAtMost(FixedLit(), FixedDist(), toks, i, 24);
    }
  }

  function Copies(tok: Token, n: nat): (toks: seq<Token>)
    ensures |toks| == n && forall i :: 0 <= i < n ==> toks[i] == tok
  {
    if n == 0 then [] else Copies(tok, n - 1) + [tok]
  }

  lemma {:induction false} CopiesCost(tok: Token, n: nat)
    ensures |TokensBits(FixedLit(), FixedDist(), Copies(tok, n))| == FixedCost(tok) * n
  {
    hide TokenBits, FixedLit, FixedDist;
    if n > 0 {
      CopiesCost(tok, n - 1);
      assert Copies(tok, n)[..n - 1] == Copies(tok, n - 1);
      assert FixedCost(tok) * n == FixedCost(tok) * (n - 1) + FixedCost(tok);
    }
  }

  // One bit more for each, and a full buffer is overwritten, whatever its size.
  lemma CostlyLost(held: nat, tok: Token, size: nat)
    requires FixedCost(tok) >= 25 && size >= 128
    ensures !Spared(held + 3, FixedLit(), FixedDist(), Copies(tok, size - 1), size)
  {
    hide TokenBits, TokensBits, FixedLit, FixedDist, FixedCost;
    var toks, i := Copies(tok, size - 1), size - 2;
    assert toks[..i] == Copies(tok, i);
    CopiesCost(tok, i);
    assert FixedCost(tok) * i >= 25 * i by { Scale(FixedCost(tok), i); }
    assert Before(held + 3, FixedLit(), FixedDist(), toks, i) > size + 2 * i;
  }

  lemma Scale(a: nat, n: nat)
    requires a >= 25
    ensures a * n >= 25 * n
  {
  }

  // So static blocks are safe exactly up to distances of 256.
  lemma FixedExactly(held: nat, far: nat, size: nat)
    requires held <= 16 && 128 <= size
    ensures (forall toks :: |toks| < size && AllNear(toks, far) ==> Spared(held + 3, FixedLit(), FixedDist(), toks, size)) <==> far <= 256
  {
    hide FixedCost, Spared, FixedLit, FixedDist;
    if far <= 256 {
      forall toks | |toks| < size && AllNear(toks, far)
        ensures Spared(held + 3, FixedLit(), FixedDist(), toks, size)
      {
        forall i | 0 <= i < |toks|
          ensures FixedCost(toks[i]) <= 24
        {
          NearCosts(toks[i]);
        }
        ThriftySpared(held, toks, size);
      }
    } else {
      FarCosts(257);
      CostlyLost(held, Token(257, 128), size);
      assert AllNear(Copies(Token(257, 128), size - 1), far);
    }
  }

  // ----- blocks that lose tokens ------------------------------------------------------------------------------------

  lemma {:induction false} CopiesExpand(out: Bytes, dist: nat, n: nat)
    requires 0 < dist <= |out| && dist <= 32768
    ensures Expandable(out, Copies(Token(dist, 128), n)) && |Expand(out, Copies(Token(dist, 128), n))| == |out| + 131 * n
  {
    hide CopyFrom, Expand, Expandable;
    if n > 0 {
      CopiesExpand(out, dist, n - 1);
      OneMore(out, Copies(Token(dist, 128), n - 1), Token(dist, 128));
    } else {
      NothingExpands(out);
    }
  }

  lemma NothingExpands(out: Bytes)
    ensures Expandable(out, []) && Expand(out, []) == out
  {
  }

  // With Z_FIXED nothing but the static form is left when the bytes are many.
  lemma StaticChosen(tok: Token, n: nat, some: bool, storedLen: nat, form: T.Form, h: T.Header, eof: bool)
    requires FixedCost(tok) == 25 && storedLen == 131 * n && n > 0 && T.WellChosen(form, T.Z_FIXED, some, Copies(tok, n), storedLen, h, eof)
    ensures form == T.FixedForm
  {
    hide TokensBits, FixedCost, FixedLit, FixedDist, T.DynBits, TypeBits, Copies;
    CopiesCost(tok, n);
    TypeLength(1, eof);
  }

  // Behind any 257 bytes of input, as much as fills the token buffer with matches of 131 bytes at that distance: with
  // Z_FIXED the block is a static one, and tokens are overwritten, at every memory level.
  lemma FullBlockLost(out: Bytes, held: nat, size: nat, some: bool, storedLen: nat, form: T.Form, h: T.Header, eof: bool)
    requires |out| >= 257 && size >= 128 && held <= 16 && storedLen == 131 * (size - 1)
    requires T.WellChosen(form, T.Z_FIXED, some, Copies(Token(257, 128), size - 1), storedLen, h, eof)
    ensures var toks := Copies(Token(257, 128), size - 1);
            && Expandable(out, toks) && |Expand(out, toks)| == |out| + storedLen
            && form == T.FixedForm && !T.BlockSpared(form, h, toks, held, size)
  {
    hide Spared, FixedCost, FixedLit, FixedDist, T.WellChosen, Copies, Expand, Expandable;
    var tok, n := Token(257, 128), size - 1;
    CopiesExpand(out, 257, n);
    FarCosts(257);
    CostlyLost(held, tok, size);
    StaticChosen(tok, n, some, storedLen, form, h, eof);
  }

  // ----- literals only --------------------------------------------------------------------------------------------------

  lemma LiteralsCost(toks: seq<Token>, eof: bool)
    requires AllNear(toks, 0)
    ensures |FixedBits(toks, eof)| <= 9 * |toks| + 10
  {
    hide TokenBits, FixedLit, FixedDist, TypeBits, TokensBits;
    TypeLength(1, eof);
    forall k | 0 <= k < |toks|
      ensures |TokenBits(FixedLit(), FixedDist(), toks[k])| <= 9
    {
      NearCosts(toks[k]);
    }
    FirstAtMost(FixedLit(), FixedDist(), toks, |toks|, 9);
    assert toks[..|toks|] == toks;
  }

  // A dynamic block is chosen only if it is shorter, so neither its header nor its first tokens can take too much.
  lemma DynamicSpared(held: nat, h: T.Header, toks: seq<Token>, size: nat, eof: bool)
    requires held <= 16 && |toks| < size && size % 2 == 0 && AllNear(toks, 0) && T.HeaderShaped(h) && Covers(h.l, h.d, toks)
    requires |T.DynBits(h, toks, eof)| < |FixedBits(toks, eof)|
    ensures Spared(held + 3 + |HeaderBits(h.l, h.d, h.cl, h.n)|, h.l, h.d, toks, size)
  {
    hide TokenBits, TokensBits, FixedBits, HeaderBits, Covers, T.DynBits;
    LiteralsCost(toks, eof);
    T.DynIs([], h, toks, eof);
    EndBits(h.l, h.d, toks);
    forall k | 0 <= k < |toks|
      ensures |TokenBits(h.l, h.d, toks[k])| >= 1
    {
      SomeBits(h.l, h.d, toks, k);
    }
    forall i | 0 <= i < |toks|
      ensures Before(held + 3 + |HeaderBits(h.l, h.d, h.cl, h.n)|, h.l, h.d, toks, i) <= size + 2 * i
    {
      FirstOfAll(h.l, h.d, toks, i);
      FewPut(held + 3 + |HeaderBits(h.l, h.d, h.cl, h.n)| + |TokensBits(h.l, h.d, toks[..i])|, size, i);
    }
  }

  lemma EndBits(l: Lens, d: Lens, toks: seq<Token>)
    requires Covers(l, d, toks)
    ensures |BlockBits(l, d, toks)| >= |TokensBits(l, d, toks)| + 1
  {
    hide TokensBits, Usable, CodeBits;
  }

  lemma FewPut(held: nat, size: nat, i: nat)
    requires size % 2 == 0 && held <= 8 * size + i + 16
    ensures Put(held) <= size + 2 * i
  {
  }

  // Which settings never lose a token.
  predicate Safe(level: nat, strategy: nat, far: nat) {
    level == 0 || strategy == T.Z_HUFFMAN_ONLY || (strategy == T.Z_FIXED && far <= 256)
  }

  // How far a pair may reach back.
  function Far(strategy: nat, far: nat): nat {
    if strategy == T.Z_HUFFMAN_ONLY then 0 else far
  }

  lemma SafeSpared(level: nat, strategy: nat, far: nat, form: T.Form, h: T.Header, toks: seq<Token>, held: nat, size: nat, some: bool, storedLen: nat, eof: bool)
    requires Safe(level, strategy, far) && held <= 16 && |toks| < size && 128 <= size && size % 2 == 0
    requires if level > 0 then AllNear(toks, Far(strategy, far)) else toks == []
    requires level > 0 ==> T.WellChosen(form, strategy, some, toks, storedLen, h, eof) && Covers(h.l, h.d, toks)
    requires level == 0 ==> form == T.StoredForm
    ensures T.BlockSpared(form, h, toks, held, size)
  {
    hide Spared, FixedBits, T.DynBits, HeaderBits, Covers, FixedLit, FixedDist;
    match form
    case StoredForm =>
    case FixedForm =>
      FixedExactly(held, if far <= 256 then far else 256, size);
      FixedExactly(held, 0, size);
    case DynamicForm => DynamicSpared(held, h, toks, size, eof);
  }
}
