/** The loops of trees.c that write a block. */
module Sending {
  import opened Bits
  import opened Canonical
  import opened InfTreesSpec
  import opened Format
  import opened StaticTables
  import opened BitOutput
  import opened BlockCode
  import opened Overlay
  import opened TreeCode
  import opened TreeCost

  // codes and lens (the fields Code and Len of a tree) hold the canonical code of the lengths l.
  ghost predicate TreeFor(codes: seq<nat>, lens: seq<nat>, l: Lens) {
    forall s: nat :: HasCode(l, s) ==> s < |codes| && s < |lens| && codes[s] == RevCode(l, s) && lens[s] == l[s]
  }

  lemma CodeIsBits(codes: seq<nat>, lens: seq<nat>, l: Lens, sym: nat)
    requires TreeFor(codes, lens, l) && HasCode(l, sym) && LensOk(l)
    ensures sym < |codes| && sym < |lens| && lens[sym] <= 15 && codes[sym] < Pow2(lens[sym])
    ensures ToBits(codes[sym], lens[sym]) == CodeOf(l, sym) && |CodeOf(l, sym)| == lens[sym]
  {
    hide Pow2, ToBits;
    RevCodeBits(l, sym);
  }

  method SendCode(w: Output, codes: seq<nat>, lens: seq<nat>, sym: nat, ghost l: Lens)
    requires TreeFor(codes, lens, l) && HasCode(l, sym) && LensOk(l) && w.Ready(|CodeOf(l, sym)|)
    modifies w`pending, w`biBuf, w`biValid, w.pendingBuf
    ensures w.Valid() && w.pendingOut == 0 && w.Held() == old(w.Held()) + |CodeOf(l, sym)|
    ensures w.Sent() == old(w.Sent()) + CodeOf(l, sym)
    ensures forall b: Bytes :: old(w.Laid(b)) ==> w.Laid(b)
  {
    hide Pow2, ToBits, BytesToBits, TreeFor, CodeOf, LensOk, Output.Laid;
    CodeIsBits(codes, lens, l, sym);
    w.SendBits(codes[sym], lens[sym]);
  }

  // ----- literals and matches -------------------------------------------------------------------------------

  method SendLength(w: Output, t: Static, tok: Token, lcodes: seq<nat>, llens: seq<nat>, ghost l: Lens)
    requires StaticOk(t) && TreeFor(lcodes, llens, l) && LensOk(l) && tok.dist > 0 && HasCode(l, LitSym(tok))
    requires w.Ready(|CodeOf(l, LitSym(tok))| + |LenExtra(tok)|)
    modifies w`pending, w`biBuf, w`biValid, w.pendingBuf
    ensures w.Valid() && w.pendingOut == 0 && w.Held() == old(w.Held()) + |CodeOf(l, LitSym(tok))| + |LenExtra(tok)|
    ensures w.Sent() == old(w.Sent()) + CodeOf(l, LitSym(tok)) + LenExtra(tok)
    ensures forall b: Bytes :: old(w.Laid(b)) ==> w.Laid(b)
  {
    hide Pow2, ToBits, BytesToBits, TreeFor, CodeOf, LensOk, LenExtra, StaticOk, EXTRA_LBITS, LitSym, HasCode, Output.Laid;
    Sizes();
    LengthEntry(t, tok);
    var lc: nat := tok.lc;
    var code := t.lengthCode[lc];
    SendCode(w, lcodes, llens, code + 257, l);
    var extra := EXTRA_LBITS[code];
    if extra != 0 {
      w.SendBits(lc - t.baseLength[code], extra);
    }
  }

  method SendDist(w: Output, t: Static, tok: Token, dcodes: seq<nat>, dlens: seq<nat>, ghost d: Lens)
    requires StaticOk(t) && TreeFor(dcodes, dlens, d) && LensOk(d) && 0 < tok.dist <= 32768 && HasCode(d, DSym(tok))
    requires w.Ready(|CodeOf(d, DSym(tok))| + |DistExtra(tok)|)
    modifies w`pending, w`biBuf, w`biValid, w.pendingBuf
    ensures w.Valid() && w.pendingOut == 0 && w.Held() == old(w.Held()) + |CodeOf(d, DSym(tok))| + |DistExtra(tok)|
    ensures w.Sent() == old(w.Sent()) + CodeOf(d, DSym(tok)) + DistExtra(tok)
    ensures forall b: Bytes :: old(w.Laid(b)) ==> w.Laid(b)
  {
    hide Pow2, ToBits, BytesToBits, TreeFor, CodeOf, LensOk, DistExtra, StaticOk, EXTRA_DBITS, DSym, HasCode, DCode, Output.Laid;
    Sizes();
    DistEntry(t, tok);
    var dist := tok.dist - 1;
    var code := DCode(t, dist);
    SendCode(w, dcodes, dlens, code, d);
    var extra := EXTRA_DBITS[code];
    if extra != 0 {
      w.SendBits(dist - t.baseDist[code], extra);
    }
  }

  // The extra bits, and when there are none.
  lemma LengthEntry(t: Static, tok: Token)
    requires StaticOk(t) && tok.dist > 0
    ensures |t.lengthCode| == 256 && |t.baseLength| == 29
    ensures var c := t.lengthCode[tok.lc];
            && c < 29 && c + 257 == LitSym(tok)
            && (EXTRA_LBITS[c] == 0 ==> LenExtra(tok) == [])
            && (EXTRA_LBITS[c] != 0 ==>
                  && t.baseLength[c] <= tok.lc && tok.lc - t.baseLength[c] < Pow2(EXTRA_LBITS[c])
                  && EXTRA_LBITS[c] <= 16 && LenExtra(tok) == ToBits(tok.lc - t.baseLength[c], EXTRA_LBITS[c]))
  {
    hide Pow2, LBASE, EXTRA_LBITS, SymFor, DCode, RevCode, ToBits;
    Sizes();
    var c := LengthSym(tok.lc + 3);
    LengthFits(tok.lc + 3);
    LastLength();
    NoBits(tok.lc + 3 - LBASE[c]);
    if c < 28 {
      LengthExtras(c);
    }
  }

  lemma DistEntry(t: Static, tok: Token)
    requires StaticOk(t) && 0 < tok.dist <= 32768
    ensures |t.distCode| == 512 && |t.baseDist| == 30
    ensures var c := DCode(t, tok.dist - 1);
            && c < 30 && c == DSym(tok)
            && (EXTRA_DBITS[c] == 0 ==> DistExtra(tok) == [])
            && (EXTRA_DBITS[c] != 0 ==>
                  && t.baseDist[c] <= tok.dist - 1 && tok.dist - 1 - t.baseDist[c] < Pow2(EXTRA_DBITS[c])
                  && EXTRA_DBITS[c] <= 16 && DistExtra(tok) == ToBits(tok.dist - 1 - t.baseDist[c], EXTRA_DBITS[c]))
  {
    hide Pow2, DBASE, EXTRA_DBITS, DistSym, DCode, RevCode, ToBits;
    Sizes();
    var c := DSym(tok);
    DistFits(tok.dist);
    DistExtras(c);
    NoBits(tok.dist - DBASE[c]);
  }

  method SendToken(w: Output, t: Static, tok: Token, lcodes: seq<nat>, llens: seq<nat>, dcodes: seq<nat>, dlens: seq<nat>,
      ghost l: Lens, ghost d: Lens)
    requires StaticOk(t) && TreeFor(lcodes, llens, l) && TreeFor(dcodes, dlens, d) && LensOk(l) && LensOk(d)
    requires HasCode(l, LitSym(tok)) && (tok.dist > 0 ==> HasCode(d, DSym(tok))) && tok.dist <= 32768
    requires w.Ready(|TokenBits(l, d, tok)|)
    modifies w`pending, w`biBuf, w`biValid, w.pendingBuf
    ensures w.Valid() && w.pendingOut == 0 && w.Held() == old(w.Held()) + |TokenBits(l, d, tok)|
    ensures w.Sent() == old(w.Sent()) + TokenBits(l, d, tok)
    ensures forall b: Bytes :: old(w.Laid(b)) ==> w.Laid(b)
  {
    hide BytesToBits, ToBits, TreeFor, CodeOf, LensOk, TokenBits, StaticOk, LitSym, DSym, LenExtra, DistExtra, HasCode,
      Output.Laid;
    if tok.dist == 0 {
      LiteralBits(l, d, tok);
      SendCode(w, lcodes, llens, tok.lc, l);
    } else {
      PairBits(l, d, tok, w.Sent());
      SendLength(w, t, tok, lcodes, llens, l);
      SendDist(w, t, tok, dcodes, dlens, d);
    }
  }

  // How much has been sent: all of it, or what comes before the first token that was overwritten.
  ghost predicate Issued(ok: bool, s: BitString, held: nat, s': BitString, held': nat, bits: BitString) {
    && (ok ==> s' == s + bits && held' == held + |bits|)
    && held' <= held + |bits| && |s| <= |s'|
  }

  // The tokens before some entry are sent, and the bytes put reach into that entry.
  ghost predicate Stopped(l: Lens, d: Lens, toks: seq<Token>, size: nat, pending: nat, s: BitString, s': BitString) {
    exists i :: 0 <= i < |toks| && size + 2 * i < pending && s' == s + TokensBits(l, d, toks[..i])
  }

  // Sends the token that lies in entry lx, which has not been overwritten.
  method SendEntry(w: Output, t: Static, lx: nat, size: nat, lcodes: seq<nat>, llens: seq<nat>, dcodes: seq<nat>, dlens: seq<nat>,
      ghost toks: seq<Token>, ghost laid: Bytes, ghost l: Lens, ghost d: Lens)
    requires lx < |toks| <= size && w.pendingBuf.Length == 4 * size && w.Laid(laid) && Overlaid(laid, size, toks) && w.pending <= size + 2 * lx
    requires StaticOk(t) && TreeFor(lcodes, llens, l) && TreeFor(dcodes, dlens, d) && Covers(l, d, toks) && Sendable(toks)
    requires w.Ready(|TokenBits(l, d, toks[lx])|)
    modifies w`pending, w`biBuf, w`biValid, w.pendingBuf
    ensures w.Valid() && w.pendingOut == 0 && w.Held() == old(w.Held()) + |TokenBits(l, d, toks[lx])|
    ensures w.Sent() == old(w.Sent()) + TokenBits(l, d, toks[lx])
    ensures w.Laid(laid)
  {
    hide BytesToBits, ToBits, TreeFor, CodeOf, LensOk, TokenBits, StaticOk, NotOversubscribed, LitSym, DSym, HasCode,
      Overlaid, Output.Laid, Short;
    StillThere(w, laid, size, toks, lx);
    var dist := Short(w.pendingBuf[size + 2 * lx], w.pendingBuf[size + 2 * lx + 1]);
    var lc := w.pendingBuf[3 * size + lx];
    SendToken(w, t, Token(dist, lc), lcodes, llens, dcodes, dlens, l, d);
  }

  // Sends the tokens from where they lie in pending_buf, and the end of the block. The result says whether none was
  // overwritten before its turn. The model stops at the first one that was: what the source sends from there on are
  // bytes of its own output, read as tokens.
  method CompressBlock(w: Output, t: Static, lastLit: nat, size: nat, lcodes: seq<nat>, llens: seq<nat>, dcodes: seq<nat>, dlens: seq<nat>,
      ghost toks: seq<Token>, ghost laid: Bytes, ghost l: Lens, ghost d: Lens)
    returns (ok: bool)
    requires lastLit == |toks| < size && w.pendingBuf.Length == 4 * size && w.Laid(laid) && Overlaid(laid, size, toks)
    requires StaticOk(t) && TreeFor(lcodes, llens, l) && TreeFor(dcodes, dlens, d) && Covers(l, d, toks) && Sendable(toks)
    requires w.Ready(|BlockBits(l, d, toks)|)
    modifies w`pending, w`biBuf, w`biValid, w.pendingBuf
    ensures w.Valid() && w.pendingOut == 0
    ensures ok <==> Spared(old(w.Held()), l, d, toks, size)
    ensures Issued(ok, old(w.Sent()), old(w.Held()), w.Sent(), w.Held(), BlockBits(l, d, toks))
    ensures !ok ==> Stopped(l, d, toks, size, w.pending, old(w.Sent()), w.Sent())
  {
    hide BytesToBits, ToBits, TreeFor, CodeOf, LensOk, TokenBits, StaticOk, NotOversubscribed, LitSym, DSym,
      TokensBits, HasCode, Output.Laid, Overlaid, Put, Covers, Output.Sent;
    ghost var s0, h0 := w.Sent(), w.Held();
    NoTokens(l, d);
    var lx: nat := 0;
    while lx < lastLit
      invariant lx <= |toks| && w.Valid() && w.pendingOut == 0 && w.Laid(laid)
      invariant w.Held() == h0 + |TokensBits(l, d, toks[..lx])| && w.Sent() == s0 + TokensBits(l, d, toks[..lx])
      invariant forall i :: 0 <= i < lx ==> Before(h0, l, d, toks, i) <= size + 2 * i
    {
      TokensMonotone(l, d, toks, lx);
      w.PutIs(laid);
      assert w.pending == Before(h0, l, d, toks, lx);
      if w.pending > size + 2 * lx {
        return false;
      }
      SendEntry(w, t, lx, size, lcodes, llens, dcodes, dlens, toks, laid, l, d);
      lx := lx + 1;
    }
    assert toks[..|toks|] == toks;
    EndCovered(l, d, toks);
    SendCode(w, lcodes, llens, 256, l);
    ok := true;
  }

  lemma EndCovered(l: Lens, d: Lens, toks: seq<Token>)
    requires Covers(l, d, toks)
    ensures HasCode(l, 256) && LensOk(l)
  {
  }

  lemma NoTokens(l: Lens, d: Lens)
    ensures TokensBits(l, d, []) == []
  {
  }

  lemma LiteralBits(l: Lens, d: Lens, tok: Token)
    requires tok.dist == 0
    ensures LitSym(tok) == tok.lc && TokenBits(l, d, tok) == CodeOf(l, tok.lc)
  {
  }

  lemma PairBits(l: Lens, d: Lens, tok: Token, s: BitString)
    requires tok.dist > 0
    ensures s + CodeOf(l, LitSym(tok)) + LenExtra(tok) + CodeOf(d, DSym(tok)) + DistExtra(tok) == s + TokenBits(l, d, tok)
  {
    hide CodeOf, LenExtra, DistExtra, DSym;
  }

  // The bits of the tokens sent so far never exceed those of the block.
  lemma {:induction false} TokensMonotone(l: Lens, d: Lens, toks: seq<Token>, n: nat)
    requires n < |toks|
    ensures TokensBits(l, d, toks[..n + 1]) == TokensBits(l, d, toks[..n]) + TokenBits(l, d, toks[n])
    ensures |TokensBits(l, d, toks[..n + 1])| <= |TokensBits(l, d, toks)|
    decreases |toks| - n
  {
    hide TokenBits;
    assert toks[..n + 1][..n] == toks[..n];
    if n + 1 < |toks| {
      TokensMonotone(l, d, toks, n + 1);
    } else {
      assert toks[..n + 1] == toks;
    }
  }

  // ----- the two passes over a tree ----------------------------------------------------------------------------

  // What is left to do of a run-length coding, one length further on.
  lemma RleStep(lens: seq<nat>, n: nat, prev: int, count: nat)
    requires n < |lens|
    ensures GoesOn(lens, n, prev, count) ==> RleFrom(lens, n, prev, count) == RleFrom(lens, n + 1, prev, count + 1)
    ensures !GoesOn(lens, n, prev, count) ==>
              RleFrom(lens, n, prev, count) == EmitRun(lens[n], prev, count + 1) + RleFrom(lens, n + 1, lens[n], 0)
  {
    hide EmitRun;
  }

  // The tree's lengths up to max_code, with the guard behind them.
  ghost predicate Guarded(dl: seq<nat>, maxCode: nat, lens: seq<nat>) {
    && maxCode + 1 < |dl| && lens == dl[..maxCode + 1] && dl[maxCode + 1] == GUARD && LensOk(lens)
  }

  lemma {:induction false} AddSingles(freq: seq<nat>, v: nat, n: nat)
    requires |freq| >= 19 && v < 19
    ensures BlFreq(freq, Singles(v, n)) == freq[v := freq[v] + n]
    decreases n
  {
    if n > 0 {
      assert Singles(v, n)[1..] == Singles(v, n - 1);
      AddSingles(Plus(freq, v), v, n - 1);
    }
  }

  // The counters after one run.
  lemma AddRun(freq: seq<nat>, cur: nat, prev: int, count: nat)
    requires |freq| >= 19 && cur < 16 && count >= 1
    ensures BlFreq(freq, EmitRun(cur, prev, count)) ==
            if count < MinCount(cur, prev) then freq[cur := freq[cur] + count]
            else if cur != 0 then Plus(if cur != prev then Plus(freq, cur) else freq, 16)
            else if count <= 10 then Plus(freq, 17)
            else Plus(freq, 18)
  {
    hide BlFreq;
    if count < MinCount(cur, prev) {
      AddSingles(freq, cur, count);
    } else if cur != 0 && cur != prev {
      var a, b := Item(cur, 0), Item(16, count - 4);
      assert [a] + [b] == [a, b];
      BlFreqJoin(freq, [a], [b]);
      AddOne(freq, a);
      AddOne(Plus(freq, cur), b);
    } else {
      AddOne(freq, EmitRun(cur, prev, count)[0]);
    }
  }

  lemma AddOne(freq: seq<nat>, it: Item)
    requires |freq| >= 19 && it.sym < 19
    ensures BlFreq(freq, [it]) == Plus(freq, it.sym)
  {
    assert [it][1..] == [];
  }

  // Sets the guard and counts the items.
  method ScanTree(dl0: seq<nat>, maxCode: nat, bl0: seq<nat>, ghost lens: seq<nat>) returns (dl: seq<nat>, bl: seq<nat>)
    requires maxCode + 1 < |dl0| && lens == dl0[..maxCode + 1] && LensOk(lens) && |bl0| >= 19
    ensures dl == dl0[maxCode + 1 := GUARD] && Guarded(dl, maxCode, lens)
    ensures bl == BlFreq(bl0, Rle(lens))
  {
    hide BlFreq, RleFrom, EmitRun;
    bl := bl0;
    var prevLen: int, nextLen, count: nat := -1, dl0[0], 0;
    dl := dl0[maxCode + 1 := GUARD];
    assert dl[..maxCode + 1] == lens;
    var maxCount, minCount := 7, 4;
    if nextLen == 0 {
      maxCount, minCount := 138, 3;
    }
    for n := 0 to maxCode + 1
      invariant |bl| == |bl0| && nextLen == dl[n]
      invariant n <= maxCode ==> maxCount == MaxCount(nextLen, prevLen) && minCount == MinCount(nextLen, prevLen)
      invariant BlFreq(bl, RleFrom(lens, n, prevLen, count)) == BlFreq(bl0, Rle(lens))
    {
      var curLen := nextLen;
      nextLen := dl[n + 1];
      RleStep(lens, n, prevLen, count);
      count := count + 1;
      if count < maxCount && curLen == nextLen {
        continue;
      }
      BlFreqJoin(bl, EmitRun(curLen, prevLen, count), RleFrom(lens, n + 1, curLen, 0));
      AddRun(bl, curLen, prevLen, count);
      if count < minCount {
        bl := bl[curLen := bl[curLen] + count];
      } else if curLen != 0 {
        if curLen != prevLen {
          bl := bl[curLen := bl[curLen] + 1];
        }
        bl := bl[16 := bl[16] + 1];
      } else if count <= 10 {
        bl := bl[17 := bl[17] + 1];
      } else {
        bl := bl[18 := bl[18] + 1];
      }
      count, prevLen := 0, curLen;
      if nextLen == 0 {
        maxCount, minCount := 138, 3;
      } else if curLen == nextLen {
        maxCount, minCount := 6, 3;
      } else {
        maxCount, minCount := 7, 4;
      }
    }
    RleEnd(lens, prevLen, count);
    NoItemsFreq(bl);
  }

  lemma RleEnd(lens: seq<nat>, prev: int, count: nat)
    ensures RleFrom(lens, |lens|, prev, count) == []
  {
  }

  lemma NoItemsFreq(freq: seq<nat>)
    requires |freq| >= 19
    ensures BlFreq(freq, []) == freq
  {
  }

  // ----- sending a tree ------------------------------------------------------------------------------------------

  lemma OneItemBits(cl: Lens, it: Item)
    ensures ItemsBits(cl, [it]) == CodeOf(cl, it.sym) + ToBits(it.extra, RepeatBits(it.sym))
  {
    hide CodeOf, ToBits;
    assert [it][1..] == [];
  }

  lemma PlainItemBits(cl: Lens, v: nat)
    requires v < 16
    ensures ItemsBits(cl, [Item(v, 0)]) == CodeOf(cl, v)
  {
    hide CodeOf;
    OneItemBits(cl, Item(v, 0));
  }

  lemma {:induction false} SinglesJoin(v: nat, n: nat)
    ensures Singles(v, n + 1) == Singles(v, n) + [Item(v, 0)]
  {
    if n > 0 {
      SinglesJoin(v, n - 1);
      assert Singles(v, n + 1) == [Item(v, 0)] + Singles(v, n);
      assert Singles(v, n) == [Item(v, 0)] + Singles(v, n - 1);
    }
  }

  // The items of the list all have codes.
  ghost predicate Coverable(cl: Lens, items: seq<Item>) {
    forall it :: it in items ==> HasCode(cl, it.sym)
  }

  method SendSingles(w: Output, codes: seq<nat>, lens: seq<nat>, v: nat, n: nat, ghost cl: Lens)
    requires TreeFor(codes, lens, cl) && LensOk(cl) && HasCode(cl, v) && v < 16 && n >= 1
    requires w.Ready(|ItemsBits(cl, Singles(v, n))|)
    modifies w`pending, w`biBuf, w`biValid, w.pendingBuf
    ensures w.Valid() && w.pendingOut == 0 && w.Held() == old(w.Held()) + |ItemsBits(cl, Singles(v, n))|
    ensures w.Sent() == old(w.Sent()) + ItemsBits(cl, Singles(v, n))
    ensures forall b: Bytes :: old(w.Laid(b)) ==> w.Laid(b)
  {
    hide TreeFor, LensOk, HasCode, CodeOf, ItemsBits, ToBits, BytesToBits, Singles, Output.Laid;
    ghost var s0, h0 := w.Sent(), w.Held();
    var count := n;
    NoSingles(cl, v);
    ghost var done := ItemsBits(cl, Singles(v, 0));
    while true
      invariant 1 <= count <= n && w.Valid() && w.pendingOut == 0 && done == ItemsBits(cl, Singles(v, n - count))
      invariant w.Held() == h0 + |done| && w.Sent() == s0 + done
      invariant forall b: Bytes :: old(w.Laid(b)) ==> w.Laid(b)
      decreases count
    {
      SinglesStep(cl, v, n - count, n);
      SendCode(w, codes, lens, v, cl);
      done := done + CodeOf(cl, v);
      count := count - 1;
      if count == 0 {
        break;
      }
    }
  }

  lemma NoSingles(cl: Lens, v: nat)
    ensures ItemsBits(cl, Singles(v, 0)) == []
  {
  }

  lemma {:induction false} SinglesStep(cl: Lens, v: nat, k: nat, n: nat)
    requires k < n && v < 16
    ensures ItemsBits(cl, Singles(v, k + 1)) == ItemsBits(cl, Singles(v, k)) + CodeOf(cl, v)
    ensures |ItemsBits(cl, Singles(v, k + 1))| <= |ItemsBits(cl, Singles(v, n))|
    decreases n - k
  {
    hide CodeOf, ItemsBits, Singles;
    SinglesJoin(v, k);
    ItemsBitsJoin(cl, Singles(v, k), [Item(v, 0)]);
    PlainItemBits(cl, v);
    if k + 1 < n {
      SinglesStep(cl, v, k + 1, n);
    }
  }

  // A repeat code and its count.
  method SendRepeat(w: Output, codes: seq<nat>, lens: seq<nat>, it: Item, ghost cl: Lens)
    requires TreeFor(codes, lens, cl) && LensOk(cl) && HasCode(cl, it.sym) && 16 <= it.sym < 19
    requires it.extra < Pow2(RepeatBits(it.sym)) && w.Ready(|ItemsBits(cl, [it])|)
    modifies w`pending, w`biBuf, w`biValid, w.pendingBuf
    ensures w.Valid() && w.pendingOut == 0 && w.Held() == old(w.Held()) + |ItemsBits(cl, [it])|
    ensures w.Sent() == old(w.Sent()) + ItemsBits(cl, [it])
    ensures forall b: Bytes :: old(w.Laid(b)) ==> w.Laid(b)
  {
    hide TreeFor, LensOk, HasCode, CodeOf, ItemsBits, ToBits, BytesToBits, Pow2, Output.Laid;
    OneItemBits(cl, it);
    SendCode(w, codes, lens, it.sym, cl);
    w.SendBits(it.extra, RepeatBits(it.sym));
  }

  lemma RunBits(cl: Lens, cur: nat, prev: int, count: nat)
    requires 1 <= count <= MaxCount(cur, prev) && cur < 16
    ensures count >= MinCount(cur, prev) ==> count >= if cur != 0 && cur != prev then 4 else 3
    ensures var r := EmitRun(cur, prev, count);
            if count < MinCount(cur, prev) then r == Singles(cur, count)
            else if cur != 0 && cur != prev then
              && r == [Item(cur, 0), Item(16, count - 4)] && count - 4 < 4
              && ItemsBits(cl, r) == CodeOf(cl, cur) + ItemsBits(cl, [Item(16, count - 4)])
            else if cur != 0 then r == [Item(16, count - 3)] && count - 3 < 4
            else if count <= 10 then r == [Item(17, count - 3)] && count - 3 < 8
            else r == [Item(18, count - 11)] && count - 11 < 128
  {
    hide CodeOf, ItemsBits;
    if count >= MinCount(cur, prev) && cur != 0 && cur != prev {
      var a, b := Item(cur, 0), Item(16, count - 4);
      assert [a] + [b] == [a, b];
      ItemsBitsJoin(cl, [a], [b]);
      PlainItemBits(cl, cur);
    }
  }

  method SendRun(w: Output, codes: seq<nat>, lens: seq<nat>, curLen: nat, prevLen: int, count0: nat, minCount: nat, ghost cl: Lens)
    requires TreeFor(codes, lens, cl) && LensOk(cl) && curLen < 16 && minCount == MinCount(curLen, prevLen)
    requires 1 <= count0 <= MaxCount(curLen, prevLen) && Coverable(cl, EmitRun(curLen, prevLen, count0))
    requires w.Ready(|ItemsBits(cl, EmitRun(curLen, prevLen, count0))|)
    modifies w`pending, w`biBuf, w`biValid, w.pendingBuf
    ensures w.Valid() && w.pendingOut == 0 && w.Held() == old(w.Held()) + |ItemsBits(cl, EmitRun(curLen, prevLen, count0))|
    ensures w.Sent() == old(w.Sent()) + ItemsBits(cl, EmitRun(curLen, prevLen, count0))
    ensures forall b: Bytes :: old(w.Laid(b)) ==> w.Laid(b)
  {
    hide TreeFor, LensOk, HasCode, CodeOf, ItemsBits, ToBits, BytesToBits, Pow2, EmitRun, Singles, MaxCount, MinCount,
      Output.Laid;
    Pow2Values();
    RunBits(cl, curLen, prevLen, count0);
    var count := count0;
    if count < minCount {
      SinglesIn(curLen, count);
      SendSingles(w, codes, lens, curLen, count, cl);
    } else if curLen != 0 {
      if curLen != prevLen {
        assert Item(curLen, 0) in EmitRun(curLen, prevLen, count0);
        SendCode(w, codes, lens, curLen, cl);
        count := count - 1;
      }
      assert Item(16, count - 3) in EmitRun(curLen, prevLen, count0);
      SendRepeat(w, codes, lens, Item(16, count - 3), cl);
    } else if count <= 10 {
      assert Item(17, count - 3) in EmitRun(curLen, prevLen, count0);
      SendRepeat(w, codes, lens, Item(17, count - 3), cl);
    } else {
      assert Item(18, count - 11) in EmitRun(curLen, prevLen, count0);
      SendRepeat(w, codes, lens, Item(18, count - 11), cl);
    }
  }

  lemma SinglesIn(v: nat, n: nat)
    requires n >= 1
    ensures Item(v, 0) in Singles(v, n)
  {
    assert Singles(v, n)[0] == Item(v, 0);
  }

  lemma RleRest(cl: Lens, lens: seq<nat>, n: nat, prev: int, count: nat)
    requires n < |lens| && Coverable(cl, RleFrom(lens, n, prev, count)) && !GoesOn(lens, n, prev, count)
    ensures Coverable(cl, EmitRun(lens[n], prev, count + 1)) && Coverable(cl, RleFrom(lens, n + 1, lens[n], 0))
    ensures ItemsBits(cl, RleFrom(lens, n, prev, count)) ==
            ItemsBits(cl, EmitRun(lens[n], prev, count + 1)) + ItemsBits(cl, RleFrom(lens, n + 1, lens[n], 0))
  {
    hide HasCode, EmitRun, ItemsBits, GoesOn, RleFrom;
    RleStep(lens, n, prev, count);
    var a, b := EmitRun(lens[n], prev, count + 1), RleFrom(lens, n + 1, lens[n], 0);
    ItemsBitsJoin(cl, a, b);
    forall it | it in a
      ensures HasCode(cl, it.sym)
    {
      assert it in a + b;
    }
    forall it | it in b
      ensures HasCode(cl, it.sym)
    {
      assert it in a + b;
    }
  }

  // What remains to be sent of a tree.
  ghost predicate Remaining(w0: BitString, h0: nat, w: BitString, h: nat, cl: Lens, lens: seq<nat>, rest: seq<Item>) {
    && Coverable(cl, rest)
    && w + ItemsBits(cl, rest) == w0 + ItemsBits(cl, Rle(lens))
    && h + |ItemsBits(cl, rest)| == h0 + |ItemsBits(cl, Rle(lens))|
  }

  lemma RemainingStep(w0: BitString, h0: nat, w: BitString, h: nat, cl: Lens, lens: seq<nat>, n: nat, prev: int, count: nat)
    requires n < |lens| && Remaining(w0, h0, w, h, cl, lens, RleFrom(lens, n, prev, count))
    ensures GoesOn(lens, n, prev, count) ==> Remaining(w0, h0, w, h, cl, lens, RleFrom(lens, n + 1, prev, count + 1))
    ensures !GoesOn(lens, n, prev, count) ==>
              var b := ItemsBits(cl, EmitRun(lens[n], prev, count + 1));
              && Coverable(cl, EmitRun(lens[n], prev, count + 1))
              && h + |b| <= h0 + |ItemsBits(cl, Rle(lens))|
              && Remaining(w0, h0, w + b, h + |b|, cl, lens, RleFrom(lens, n + 1, lens[n], 0))
  {
    hide Coverable, EmitRun, ItemsBits, GoesOn, RleFrom, Rle;
    RleStep(lens, n, prev, count);
    if !GoesOn(lens, n, prev, count) {
      RleRest(cl, lens, n, prev, count);
    }
  }

  method SendTree(w: Output, dl: seq<nat>, maxCode: nat, codes: seq<nat>, lens: seq<nat>, ghost l: Lens, ghost cl: Lens)
    requires Guarded(dl, maxCode, l) && TreeFor(codes, lens, cl) && LensOk(cl) && Coverable(cl, Rle(l))
    requires w.Ready(|ItemsBits(cl, Rle(l))|)
    modifies w`pending, w`biBuf, w`biValid, w.pendingBuf
    ensures w.Valid() && w.pendingOut == 0 && w.Held() == old(w.Held()) + |ItemsBits(cl, Rle(l))|
    ensures w.Sent() == old(w.Sent()) + ItemsBits(cl, Rle(l))
    ensures forall b: Bytes :: old(w.Laid(b)) ==> w.Laid(b)
  {
    hide TreeFor, Coverable, ItemsBits, ToBits, BytesToBits, RleFrom, EmitRun, Remaining, Output.Laid;
    ghost var w0, h0 := w.Sent(), w.Held();
    var prevLen: int, nextLen, count: nat := -1, dl[0], 0;
    var maxCount, minCount := 7, 4;
    if nextLen == 0 {
      maxCount, minCount := 138, 3;
    }
    RemainingStart(w0, h0, cl, l);
    for n := 0 to maxCode + 1
      invariant w.Valid() && w.pendingOut == 0 && w.Held() <= h0 + |ItemsBits(cl, Rle(l))| && nextLen == dl[n]
      invariant n <= maxCode ==>
                  && maxCount == MaxCount(nextLen, prevLen) && minCount == MinCount(nextLen, prevLen)
                  && count < maxCount
      invariant Remaining(w0, h0, w.Sent(), w.Held(), cl, l, RleFrom(l, n, prevLen, count))
      invariant forall b: Bytes :: old(w.Laid(b)) ==> w.Laid(b)
    {
      var curLen := nextLen;
      nextLen := dl[n + 1];
      RemainingStep(w0, h0, w.Sent(), w.Held(), cl, l, n, prevLen, count);
      count := count + 1;
      if count < maxCount && curLen == nextLen {
        continue;
      }
      SendRun(w, codes, lens, curLen, prevLen, count, minCount, cl);
      count, prevLen := 0, curLen;
      if nextLen == 0 {
        maxCount, minCount := 138, 3;
      } else if curLen == nextLen {
        maxCount, minCount := 6, 3;
      } else {
        maxCount, minCount := 7, 4;
      }
    }
    RleEnd(l, prevLen, count);
    RemainingEnd(w0, h0, w.Sent(), w.Held(), cl, l);
  }

  lemma RemainingStart(w0: BitString, h0: nat, cl: Lens, lens: seq<nat>)
    requires Coverable(cl, Rle(lens))
    ensures Remaining(w0, h0, w0, h0, cl, lens, RleFrom(lens, 0, -1, 0))
  {
  }

  lemma RemainingEnd(w0: BitString, h0: nat, w: BitString, h: nat, cl: Lens, lens: seq<nat>)
    requires Remaining(w0, h0, w, h, cl, lens, [])
    ensures w == w0 + ItemsBits(cl, Rle(lens)) && h == h0 + |ItemsBits(cl, Rle(lens))|
  {
    hide Rle;
  }

  // ----- the header of a dynamic block ------------------------------------------------------------------------------

  // The three trees are what the header announces.
  ghost predicate HeaderTrees(l: Lens, d: Lens, cl: Lens, n: nat, ldl: seq<nat>, ddl: seq<nat>, blcodes: seq<nat>, bllens: seq<nat>) {
    && HeaderOk(l, d, cl, n)
    && Guarded(ldl, |l| - 1, l) && Guarded(ddl, |d| - 1, d)
    && TreeFor(blcodes, bllens, cl) && |bllens| >= 19 && bllens[..19] == cl
  }

  lemma ItemsSplit(l: Lens, d: Lens, cl: Lens, n: nat)
    requires HeaderOk(l, d, cl, n)
    ensures Coverable(cl, Rle(l)) && Coverable(cl, Rle(d))
    ensures HeaderBits(l, d, cl, n) ==
            ToBits(|l| - 257, 5) + ToBits(|d| - 1, 5) + ToBits(n - 4, 4) + OrderBits(cl, n) + ItemsBits(cl, Rle(l)) + ItemsBits(cl, Rle(d))
    ensures |OrderBits(cl, n)| == 3 * n
  {
    hide HasCode, Rle, ItemsBits, OrderBits, ToBits, LensOk, Usable, Acceptable;
    ItemsBitsJoin(cl, Rle(l), Rle(d));
    OrderLength(cl, n);
    forall it | it in Rle(l)
      ensures HasCode(cl, it.sym)
    {
      assert it in Rle(l) + Rle(d);
    }
    forall it | it in Rle(d)
      ensures HasCode(cl, it.sym)
    {
      assert it in Rle(l) + Rle(d);
    }
  }

  lemma HeaderSizes(l: Lens, d: Lens, cl: Lens, n: nat, ldl: seq<nat>, ddl: seq<nat>, blcodes: seq<nat>, bllens: seq<nat>)
    requires HeaderTrees(l, d, cl, n, ldl, ddl, blcodes, bllens)
    ensures 257 <= |l| <= 286 && 1 <= |d| <= 30 && 4 <= n <= 19 && |cl| == 19 <= |bllens| && LensOk(cl)
    ensures Guarded(ldl, |l| - 1, l) && Guarded(ddl, |d| - 1, d) && TreeFor(blcodes, bllens, cl) && HeaderOk(l, d, cl, n)
    ensures forall i :: 0 <= i < 19 ==> bllens[i] == cl[i] <= 7
  {
    hide Guarded, TreeFor, Acceptable, Rle, HasCode, NotOversubscribed;
    forall i | 0 <= i < 19
      ensures bllens[i] == cl[i]
    {
      assert bllens[..19][i] == cl[i];
    }
  }

  method SendOrder(w: Output, bllens: seq<nat>, n: nat, ghost cl: Lens)
    requires n <= 19 <= |bllens| && |cl| == 19 && forall i :: 0 <= i < 19 ==> bllens[i] == cl[i] <= 7
    requires w.Ready(3 * n)
    modifies w`pending, w`biBuf, w`biValid, w.pendingBuf
    ensures w.Valid() && w.pendingOut == 0 && w.Held() == old(w.Held()) + 3 * n
    ensures w.Sent() == old(w.Sent()) + OrderBits(cl, n)
    ensures forall b: Bytes :: old(w.Laid(b)) ==> w.Laid(b)
  {
    hide BytesToBits, ToBits, Pow2, OrderBits, OrderOf, Output.Laid;
    ghost var w0, h0 := w.Sent(), w.Held();
    Pow2Values();
    NoOrder(cl);
    for rank := 0 to n
      invariant w.Valid() && w.pendingOut == 0 && w.Held() == h0 + 3 * rank && w.Sent() == w0 + OrderBits(cl, rank)
      invariant forall b: Bytes :: old(w.Laid(b)) ==> w.Laid(b)
    {
      OrderStep(cl, rank);
      w.SendBits(bllens[OrderOf(rank)], 3);
    }
  }

  lemma NoOrder(cl: Lens)
    requires |cl| == 19
    ensures OrderBits(cl, 0) == []
  {
  }

  lemma OrderStep(cl: Lens, n: nat)
    requires |cl| == 19 && n < 19
    ensures OrderBits(cl, n + 1) == OrderBits(cl, n) + ToBits(cl[OrderOf(n)], 3)
  {
    hide ToBits, OrderOf;
  }

  function CountsBits(lcodes: nat, dcodes: nat, blcodes: nat): BitString
    requires lcodes >= 257 && dcodes >= 1 && blcodes >= 4
  {
    ToBits(lcodes - 257, 5) + ToBits(dcodes - 1, 5) + ToBits(blcodes - 4, 4)
  }

  method SendCounts(w: Output, lcodes: nat, dcodes: nat, blcodes: nat)
    requires 257 <= lcodes <= 286 && 1 <= dcodes <= 30 && 4 <= blcodes <= 19 && w.Ready(14)
    modifies w`pending, w`biBuf, w`biValid, w.pendingBuf
    ensures w.Valid() && w.pendingOut == 0 && w.Held() == old(w.Held()) + 14
    ensures w.Sent() == old(w.Sent()) + CountsBits(lcodes, dcodes, blcodes)
    ensures forall b: Bytes :: old(w.Laid(b)) ==> w.Laid(b)
  {
    hide BytesToBits, ToBits, Pow2, Output.Laid;
    Pow2Values();
    w.SendBits(lcodes - 257, 5);
    w.SendBits(dcodes - 1, 5);
    w.SendBits(blcodes - 4, 4);
  }

  lemma HeaderParts(l: Lens, d: Lens, cl: Lens, n: nat, w: BitString)
    requires HeaderOk(l, d, cl, n)
    ensures Coverable(cl, Rle(l)) && Coverable(cl, Rle(d))
    ensures w + CountsBits(|l|, |d|, n) + OrderBits(cl, n) + ItemsBits(cl, Rle(l)) + ItemsBits(cl, Rle(d)) == w + HeaderBits(l, d, cl, n)
    ensures |HeaderBits(l, d, cl, n)| == 14 + 3 * n + |ItemsBits(cl, Rle(l))| + |ItemsBits(cl, Rle(d))|
  {
    hide Rle, ItemsBits, OrderBits, ToBits, HeaderOk;
    ItemsSplit(l, d, cl, n);
  }

  method SendAllTrees(w: Output, lcodes: nat, dcodes: nat, blcodes: nat, ldl: seq<nat>, ddl: seq<nat>, blfc: seq<nat>, bldl: seq<nat>,
      ghost l: Lens, ghost d: Lens, ghost cl: Lens)
    requires HeaderTrees(l, d, cl, blcodes, ldl, ddl, blfc, bldl) && lcodes == |l| && dcodes == |d|
    requires w.Ready(|HeaderBits(l, d, cl, blcodes)|)
    modifies w`pending, w`biBuf, w`biValid, w.pendingBuf
    ensures w.Valid() && w.pendingOut == 0 && w.Held() == old(w.Held()) + |HeaderBits(l, d, cl, blcodes)|
    ensures w.Sent() == old(w.Sent()) + HeaderBits(l, d, cl, blcodes)
    ensures forall b: Bytes :: old(w.Laid(b)) ==> w.Laid(b)
  {
    hide HeaderTrees, HeaderOk, Guarded, TreeFor, LensOk, BytesToBits, ToBits, Pow2, OrderBits, ItemsBits, Rle,
      HeaderBits, Coverable, CountsBits, Output.Laid;
    HeaderSizes(l, d, cl, blcodes, ldl, ddl, blfc, bldl);
    HeaderParts(l, d, cl, blcodes, w.Sent());
    SendCounts(w, lcodes, dcodes, blcodes);
    SendOrder(w, bldl, blcodes, cl);
    SendTree(w, ldl, lcodes - 1, blfc, bldl, l, cl);
    SendTree(w, ddl, dcodes - 1, blfc, bldl, d, cl);
  }
}
