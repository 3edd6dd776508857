/** Exact cost accounting: the sums that `build_tree` keeps are the numbers of bits that are sent. */
module TreeCost {
  import opened Bits
  import opened Canonical
  import opened InfTreesSpec
  import opened Format
  import opened StaticTables
  import opened BlockCode
  import opened TreeCode
  import opened HuffmanTree
  import opened BitLengths
  import opened InitHeap

  const EXTRA_BLBITS: seq<nat> := [0, 0, 0, 0, 0, 0, 0, 0, 0, 0, 0, 0, 0, 0, 0, 0, 2, 3, 7]

  function LDesc(): TreeDesc {
    TreeDesc(286, 15, EXTRA_LBITS, 257, FixedLit())
  }

  function DDesc(): TreeDesc {
    TreeDesc(30, 15, EXTRA_DBITS, 0, FixedDist())
  }

  function BlDesc(): TreeDesc {
    TreeDesc(19, 7, EXTRA_BLBITS, 0, [])
  }

  lemma DescsOk()
    ensures DescOk(LDesc()) && DescOk(DDesc()) && DescOk(BlDesc())
  {
    hide Pow2;
    Pow2Values();
  }

  // ----- trailing symbols without codes do not matter -------------------------------------------------------

  lemma {:induction false} CountOfPrefix(lens: Lens, k: nat, n: nat, b: nat)
    requires k <= |lens| && n <= k
    ensures Count(lens[..k], n, b) == Count(lens, n, b)
  {
    if n > 0 {
      CountOfPrefix(lens, k, n - 1, b);
    }
  }

  lemma {:induction false} CountBeyond(lens: Lens, k: nat, n: nat, b: nat)
    requires k <= n <= |lens| && b > 0 && forall s :: k <= s < |lens| ==> lens[s] == 0
    ensures Count(lens, n, b) == Count(lens, k, b)
  {
    if k < n {
      CountBeyond(lens, k, n - 1, b);
    }
  }

  lemma {:induction false} EndCodeOfPrefix(lens: Lens, k: nat, b: nat)
    requires k <= |lens| && forall s :: k <= s < |lens| ==> lens[s] == 0
    ensures EndCode(lens[..k], k, b) == EndCode(lens, |lens|, b)
    ensures FirstCode(lens[..k], k, b) == FirstCode(lens, |lens|, b)
  {
    if b > 0 {
      EndCodeOfPrefix(lens, k, b - 1);
      CountOfPrefix(lens, k, k, b);
      CountBeyond(lens, k, |lens|, b);
    }
  }

  lemma PrefixSameCodes(lens: Lens, k: nat)
    requires k <= |lens| && (forall s :: k <= s < |lens| ==> lens[s] == 0) && LensOk(lens) && Complete(lens)
    ensures LensOk(lens[..k]) && Complete(lens[..k])
    ensures forall s :: 0 <= s < k ==> RevCode(lens[..k], s) == RevCode(lens, s)
  {
    hide FirstCode, EndCode, Reverse, Pow2, KraftAt;
    var m: nat := MAX_BITS;
    KraftIsEndCode(lens[..k], k, m);
    KraftIsEndCode(lens, |lens|, m);
    EndCodeOfPrefix(lens, k, m);
    forall s | 0 <= s < k
      ensures RevCode(lens[..k], s) == RevCode(lens, s)
    {
      EndCodeOfPrefix(lens, k, lens[s]);
      CountOfPrefix(lens, k, s, lens[s]);
    }
  }

  // ----- frequencies of the tokens -----------------------------------------------------------------------------

  function Plus(freq: seq<nat>, x: nat): seq<nat>
    requires x < |freq|
  {
    freq[x := freq[x] + 1]
  }

  // dyn_ltree and dyn_dtree as init_block and _tr_tally leave them.
  function LFreq(toks: seq<Token>): (f: seq<nat>)
    ensures |f| == HEAP_SIZE
  {
    if toks == [] then Plus(seq(HEAP_SIZE, _ => 0), 256) else Plus(LFreq(toks[..|toks| - 1]), LitSym(toks[|toks| - 1]))
  }

  function DFreq(toks: seq<Token>): (f: seq<nat>)
    ensures |f| == HEAP_SIZE
  {
    if toks == [] then seq(HEAP_SIZE, _ => 0)
    else
      var f, tok := DFreq(toks[..|toks| - 1]), toks[|toks| - 1];
      if tok.dist == 0 then f else Plus(f, DSym(tok))
  }

  lemma {:induction false} FreqBounds(toks: seq<Token>)
    ensures FreqTotal(LFreq(toks), 286) == |toks| + 1
    ensures FreqTotal(DFreq(toks), 30) <= |toks|
    ensures forall x :: 0 <= x < HEAP_SIZE ==> LFreq(toks)[x] <= |toks| + 1 && DFreq(toks)[x] <= |toks|
  {
    hide FreqTotal, LitSym, DSym;
    var zero: seq<nat> := seq(HEAP_SIZE, _ => 0);
    if toks == [] {
      NoFreq(zero, 286);
      NoFreq(zero, 30);
      FreqTotalUpdate(zero, 286, 256, 1);
    } else {
      var front, tok := toks[..|toks| - 1], toks[|toks| - 1];
      FreqBounds(front);
      FreqTotalUpdate(LFreq(front), 286, LitSym(tok), LFreq(front)[LitSym(tok)] + 1);
      if tok.dist > 0 {
        FreqTotalUpdate(DFreq(front), 30, DSym(tok), DFreq(front)[DSym(tok)] + 1);
      }
    }
  }

  lemma {:induction false} NoFreq(freq: seq<nat>, n: nat)
    requires n <= |freq| && forall x :: 0 <= x < |freq| ==> freq[x] == 0
    ensures FreqTotal(freq, n) == 0
  {
    if n > 0 {
      NoFreq(freq, n - 1);
    }
  }

  // Every symbol that the block needs has been counted.
  lemma {:induction false} FreqUsed(toks: seq<Token>, i: nat)
    requires i < |toks|
    ensures LFreq(toks)[LitSym(toks[i])] > 0 && (toks[i].dist > 0 ==> DFreq(toks)[DSym(toks[i])] > 0)
  {
    hide LitSym, DSym;
    if i < |toks| - 1 {
      FreqUsed(toks[..|toks| - 1], i);
    }
  }

  lemma {:induction false} EndUsed(toks: seq<Token>)
    ensures LFreq(toks)[256] > 0
  {
    if toks != [] {
      EndUsed(toks[..|toks| - 1]);
    }
  }

  // One more occurrence of a symbol costs its code and its extra bits.
  lemma {:induction false} CodedBitsPlus(freq: seq<nat>, lens: seq<nat>, desc: TreeDesc, n: nat, x: nat)
    requires n <= |lens| && n <= |freq| && n <= desc.base + |desc.extra| && x < n
    ensures CodedBits(Plus(freq, x), lens, desc, n) ==
            CodedBits(freq, lens, desc, n) + if lens[x] == 0 then 0 else lens[x] + ExtraBits(desc, x)
  {
    if x < n - 1 {
      CodedBitsPlus(freq, lens, desc, n - 1, x);
    } else {
      CodedBitsSame(freq, Plus(freq, x), lens, desc, n - 1);
      var c := lens[x] + ExtraBits(desc, x);
      assert (freq[x] + 1) * c == freq[x] * c + c;
    }
  }

  lemma {:induction false} CodedBitsSame(freq: seq<nat>, freq': seq<nat>, lens: seq<nat>, desc: TreeDesc, n: nat)
    requires n <= |lens| && n <= |freq| && n <= |freq'| && n <= desc.base + |desc.extra|
    requires forall x :: 0 <= x < n ==> freq[x] == freq'[x]
    ensures CodedBits(freq, lens, desc, n) == CodedBits(freq', lens, desc, n)
  {
    if n > 0 {
      CodedBitsSame(freq, freq', lens, desc, n - 1);
    }
  }

  lemma {:induction false} CodedBitsNone(freq: seq<nat>, lens: seq<nat>, desc: TreeDesc, n: nat)
    requires n <= |lens| && n <= |freq| && n <= desc.base + |desc.extra| && forall x :: 0 <= x < |freq| ==> freq[x] == 0
    ensures CodedBits(freq, lens, desc, n) == 0
  {
    if n > 0 {
      CodedBitsNone(freq, lens, desc, n - 1);
    }
  }

  // The static cost is the cost under the static lengths, when all used symbols are in the code.
  lemma {:induction false} StaticIsCoded(freq: seq<nat>, lens: seq<nat>, desc: TreeDesc, n: nat)
    requires n <= |lens| && n <= |freq| && n <= desc.base + |desc.extra| && n <= |desc.stree|
    requires forall x :: 0 <= x < n ==> desc.stree[x] != 0 && (freq[x] != 0 ==> lens[x] != 0)
    ensures desc.stree != [] ==> StaticBits(freq, lens, desc, n) == CodedBits(freq, desc.stree, desc, n)
  {
    if n > 0 {
      StaticIsCoded(freq, lens, desc, n - 1);
    }
  }

  // ----- bits of a block -------------------------------------------------------------------------------------------

  // The lengths of the full tree agree with those that were sent.
  ghost predicate Agrees(l: Lens, full: Lens, n: nat) {
    |full| >= n && (forall s: nat :: HasCode(l, s) && s < n ==> full[s] == l[s])
  }

  lemma LitExtra(tok: Token)
    ensures ExtraBits(LDesc(), LitSym(tok)) == if tok.dist == 0 then 0 else |LenExtra(tok)|
  {
    hide LBASE, EXTRA_LBITS, LengthSym;
    Sizes();
    if tok.dist > 0 {
      LengthFits(tok.lc + 3);
    }
  }

  lemma DistExtraLen(tok: Token)
    requires 0 < tok.dist <= 32768
    ensures ExtraBits(DDesc(), DSym(tok)) == |DistExtra(tok)|
  {
    hide DBASE, EXTRA_DBITS, DistSym;
    Sizes();
    DistFits(tok.dist);
  }

  lemma TokenCost(l: Lens, d: Lens, tok: Token)
    requires HasCode(l, LitSym(tok)) && (tok.dist > 0 ==> HasCode(d, DSym(tok))) && tok.dist <= 32768
    ensures |TokenBits(l, d, tok)| == l[LitSym(tok)] + ExtraBits(LDesc(), LitSym(tok)) +
            if tok.dist == 0 then 0 else d[DSym(tok)] + ExtraBits(DDesc(), DSym(tok))
  {
    hide LenExtra, DistExtra, ExtraBits, DSym, LengthSym;
    LitExtra(tok);
    if tok.dist > 0 {
      DistExtraLen(tok);
    }
  }

  predicate Sendable(toks: seq<Token>) {
    forall i :: 0 <= i < |toks| ==> toks[i].dist <= 32768
  }

  lemma {:induction false} BlockCost(l: Lens, d: Lens, lfull: Lens, dfull: Lens, toks: seq<Token>)
    requires Covers(l, d, toks) && Sendable(toks) && Agrees(l, lfull, 286) && Agrees(d, dfull, 30)
    ensures |BlockBits(l, d, toks)| == CodedBits(LFreq(toks), lfull, LDesc(), 286) + CodedBits(DFreq(toks), dfull, DDesc(), 30)
  {
    hide CodedBits, TokenBits, LitSym, DSym, ExtraBits, Usable;
    Sizes();
    var zero: seq<nat> := seq(HEAP_SIZE, _ => 0);
    if toks == [] {
      CodedBitsNone(zero, lfull, LDesc(), 286);
      CodedBitsNone(zero, dfull, DDesc(), 30);
      CodedBitsPlus(zero, lfull, LDesc(), 286, 256);
      NoEndExtra();
    } else {
      var front, tok := toks[..|toks| - 1], toks[|toks| - 1];
      BlockCost(l, d, lfull, dfull, front);
      TokenCost(l, d, tok);
      CodedBitsPlus(LFreq(front), lfull, LDesc(), 286, LitSym(tok));
      if tok.dist > 0 {
        CodedBitsPlus(DFreq(front), dfull, DDesc(), 30, DSym(tok));
      }
    }
  }

  lemma NoEndExtra()
    ensures ExtraBits(LDesc(), 256) == 0
  {
  }

  // ----- bits of the header --------------------------------------------------------------------------------------------

  function BlFreq(freq: seq<nat>, items: seq<Item>): (f: seq<nat>)
    requires |freq| >= 19
    ensures |f| == |freq|
    decreases items
  {
    if items == [] then freq
    else BlFreq(if items[0].sym < 19 then Plus(freq, items[0].sym) else freq, items[1..])
  }

  lemma {:induction false} BlFreqJoin(freq: seq<nat>, a: seq<Item>, b: seq<Item>)
    requires |freq| >= 19
    ensures BlFreq(freq, a + b) == BlFreq(BlFreq(freq, a), b)
    decreases a
  {
    if a == [] {
      assert a + b == b;
    } else {
      assert (a + b)[1..] == a[1..] + b;
      BlFreqJoin(if a[0].sym < 19 then Plus(freq, a[0].sym) else freq, a[1..], b);
    }
  }

  lemma {:induction false} BlFreqGrows(freq: seq<nat>, items: seq<Item>)
    requires |freq| >= 19
    ensures forall x :: 0 <= x < |freq| ==> BlFreq(freq, items)[x] >= freq[x]
    ensures forall it :: it in items && it.sym < 19 ==> BlFreq(freq, items)[it.sym] > 0
    ensures FreqTotal(BlFreq(freq, items), 19) <= FreqTotal(freq, 19) + |items|
    decreases items
  {
    hide FreqTotal;
    if items != [] {
      var next := if items[0].sym < 19 then Plus(freq, items[0].sym) else freq;
      BlFreqGrows(next, items[1..]);
      if items[0].sym < 19 {
        FreqTotalUpdate(freq, 19, items[0].sym, freq[items[0].sym] + 1);
      }
      forall it | it in items && it.sym < 19
        ensures BlFreq(freq, items)[it.sym] > 0
      {
        if it != items[0] {
          assert it in items[1..];
        }
      }
    }
  }

  lemma RepeatExtra(sym: nat)
    requires sym < 19
    ensures |EXTRA_BLBITS| == 19 && EXTRA_BLBITS[sym] == RepeatBits(sym)
  {
  }

  lemma ItemCost(cl: Lens, it: Item)
    requires HasCode(cl, it.sym) && |cl| == 19
    ensures |ItemBits(cl, it)| == cl[it.sym] + ExtraBits(BlDesc(), it.sym)
  {
    RepeatExtra(it.sym);
  }

  lemma {:induction false} ItemsCost(freq: seq<nat>, cl: Lens, items: seq<Item>)
    requires |freq| >= 19 && |cl| == 19 && forall it :: it in items ==> HasCode(cl, it.sym)
    ensures CodedBits(BlFreq(freq, items), cl, BlDesc(), 19) == CodedBits(freq, cl, BlDesc(), 19) + |ItemsBits(cl, items)|
    decreases items
  {
    hide CodedBits, ItemBits, ExtraBits;
    BlSize();
    if items != [] {
      ItemCost(cl, items[0]);
      CodedBitsPlus(freq, cl, BlDesc(), 19, items[0].sym);
      ItemsCost(Plus(freq, items[0].sym), cl, items[1..]);
    }
  }

  lemma BlSize()
    ensures |EXTRA_BLBITS| == 19
  {
  }

  lemma {:induction false} OrderLength(cl: Lens, n: nat)
    requires |cl| == 19 && n <= 19
    ensures |OrderBits(cl, n)| == 3 * n
  {
    hide OrderOf;
    if n > 0 {
      OrderLength(cl, n - 1);
    }
  }

  // Each run takes no more items than it has lengths.
  lemma RunLength(cur: nat, prev: int, count: nat)
    requires count >= 1
    ensures |EmitRun(cur, prev, count)| <= count
  {
  }

  lemma {:induction false} RleLength(lens: seq<nat>, n: nat, prev: int, count: nat)
    requires n <= |lens|
    ensures |RleFrom(lens, n, prev, count)| <= count + |lens| - n
    decreases |lens| - n
  {
    hide EmitRun, GoesOn;
    if n < |lens| {
      if GoesOn(lens, n, prev, count) {
        RleLength(lens, n + 1, prev, count + 1);
      } else {
        RunLength(lens[n], prev, count + 1);
        RleLength(lens, n + 1, lens[n], 0);
      }
    }
  }
}
