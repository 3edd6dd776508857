/** trees.c: building the trees of a block and writing the block in the cheapest of three forms. */
module Trees {
  import opened Bits
  import opened Canonical
  import opened InfTreesSpec
  import opened Format
  import opened StaticTables
  import opened BitOutput
  import opened BlockCode
  import opened Overlay
  import opened TreeCode
  import opened TreeCost
  import opened Sending
  import opened Blocks
  import opened HuffmanTree
  import opened BitLengths
  import opened InitHeap
  import opened TreeBuilder

  // ----- from build_tree to the codes that are sent --------------------------------------------------------

  // A tree cut off behind its largest code is the same code.
  lemma CutTree(desc: TreeDesc, freq: seq<nat>, fc: seq<nat>, lens: Lens, maxCode: nat, opt: int, stat: int)
    requires Built(desc, freq, fc, lens, maxCode, opt, stat)
    ensures maxCode < |lens| && LensOk(lens[..maxCode + 1]) && Complete(lens[..maxCode + 1]) && Usable(lens[..maxCode + 1])
    ensures TreeFor(fc, lens, lens[..maxCode + 1]) && Agrees(lens[..maxCode + 1], lens, |lens|)
    ensures forall s: nat :: s < |lens| && freq[s] != 0 ==> HasCode(lens[..maxCode + 1], s)
  {
    hide Kraft, RevCode, Pow2;
    PrefixSameCodes(lens, maxCode + 1);
  }

  // The frequencies are those of the tokens, as far as the trees look at them.
  ghost predicate Counted(toks: seq<Token>, lfc: seq<nat>, dfc: seq<nat>) {
    && |lfc| == |dfc| == HEAP_SIZE
    && (forall s :: 0 <= s < 286 ==> lfc[s] == LFreq(toks)[s])
    && (forall s :: 0 <= s < 30 ==> dfc[s] == DFreq(toks)[s])
  }

  lemma CountedTotals(toks: seq<Token>, lfc: seq<nat>, dfc: seq<nat>)
    requires Counted(toks, lfc, dfc) && |toks| < 32768
    ensures FreqTotal(lfc, 286) < 65534 && FreqTotal(dfc, 30) < 65534
  {
    hide FreqTotal, LFreq, DFreq;
    FreqBounds(toks);
    TotalAgrees(lfc, LFreq(toks), 286);
    TotalAgrees(dfc, DFreq(toks), 30);
  }

  lemma {:induction false} TotalAgrees(f: seq<nat>, g: seq<nat>, n: nat)
    requires n <= |f| && n <= |g| && forall s :: 0 <= s < n ==> f[s] == g[s]
    ensures FreqTotal(f, n) == FreqTotal(g, n)
  {
    if n > 0 {
      TotalAgrees(f, g, n - 1);
    }
  }

  // Both trees cover the block, and their costs add up to its size.
  lemma TreesCover(toks: seq<Token>, lfc: seq<nat>, dfc: seq<nat>, lcodes: seq<nat>, dcodes: seq<nat>, llens: Lens, dlens: Lens,
      lMax: nat, dMax: nat, lopt: int, dopt: int, lstat: int, dstat: int)
    requires Counted(toks, lfc, dfc) && Sendable(toks)
    requires Built(LDesc(), lfc, lcodes, llens, lMax, lopt, lstat) && Built(DDesc(), dfc, dcodes, dlens, dMax, dopt, dstat)
    ensures 256 <= lMax < 286 && dMax < 30 && |llens| == 286 && |dlens| == 30
    ensures Covers(llens[..lMax + 1], dlens[..dMax + 1], toks)
    ensures lopt + dopt == |BlockBits(llens[..lMax + 1], dlens[..dMax + 1], toks)|
    ensures lstat + dstat == |BlockBits(FixedLit(), FixedDist(), toks)|
  {
    hide Built, CodedBits, StaticBits, TreeFor, BlockBits, LFreq, DFreq, LitSym, DSym, Usable, FixedLit, FixedDist;
    CutTree(LDesc(), lfc, lcodes, llens, lMax, lopt, lstat);
    CutTree(DDesc(), dfc, dcodes, dlens, dMax, dopt, dstat);
    BuiltCosts(LDesc(), lfc, lcodes, llens, lMax, lopt, lstat);
    BuiltCosts(DDesc(), dfc, dcodes, dlens, dMax, dopt, dstat);
    EndUsed(toks);
    var l, d := llens[..lMax + 1], dlens[..dMax + 1];
    forall i | 0 <= i < |toks|
      ensures HasCode(l, LitSym(toks[i])) && (toks[i].dist > 0 ==> HasCode(d, DSym(toks[i])))
    {
      FreqUsed(toks, i);
    }
    BlockCost(l, d, llens, dlens, toks);
    CodedBitsSame(lfc, LFreq(toks), llens, LDesc(), 286);
    CodedBitsSame(dfc, DFreq(toks), dlens, DDesc(), 30);
    StaticCost(toks, lfc, dfc, llens, dlens);
  }

  lemma BuiltCosts(desc: TreeDesc, freq: seq<nat>, fc: seq<nat>, lens: Lens, maxCode: nat, opt: int, stat: int)
    requires Built(desc, freq, fc, lens, maxCode, opt, stat)
    ensures |lens| == desc.elems <= |freq| && |lens| <= desc.base + |desc.extra| && (desc.stree == [] || |lens| <= |desc.stree|)
    ensures opt == CodedBits(freq, lens, desc, |lens|) && stat == StaticBits(freq, lens, desc, |lens|)
    ensures forall x :: 0 <= x < |lens| && freq[x] != 0 ==> lens[x] != 0
  {
    hide CodedBits, StaticBits, Complete, RevCode;
  }

  lemma StaticCost(toks: seq<Token>, lfc: seq<nat>, dfc: seq<nat>, llens: Lens, dlens: Lens)
    requires Counted(toks, lfc, dfc) && Sendable(toks) && |llens| == 286 && |dlens| == 30
    requires forall x :: 0 <= x < 286 && lfc[x] != 0 ==> llens[x] != 0
    requires forall x :: 0 <= x < 30 && dfc[x] != 0 ==> dlens[x] != 0
    ensures LDesc().base + |LDesc().extra| >= 286 && DDesc().base + |DDesc().extra| >= 30
    ensures StaticBits(lfc, llens, LDesc(), 286) + StaticBits(dfc, dlens, DDesc(), 30) == |BlockBits(FixedLit(), FixedDist(), toks)|
  {
    hide CodedBits, StaticBits, BlockBits, LFreq, DFreq, LitSym, DSym;
    Sizes();
    FixedCovers(toks);
    StaticIsCoded(lfc, llens, LDesc(), 286);
    StaticIsCoded(dfc, dlens, DDesc(), 30);
    BlockCost(FixedLit(), FixedDist(), FixedLit(), FixedDist(), toks);
    CodedBitsSame(lfc, LFreq(toks), FixedLit(), LDesc(), 286);
    CodedBitsSame(dfc, DFreq(toks), FixedDist(), DDesc(), 30);
  }

  lemma FixedCovers(toks: seq<Token>)
    ensures Covers(FixedLit(), FixedDist(), toks)
  {
    hide NotOversubscribed, LensOk, LengthSym, DistCodeOf;
    FixedUsable();
  }

  // ----- the bit length tree ---------------------------------------------------------------------------------

  lemma {:induction false} PlainSyms(got: seq<nat>, items: seq<Item>)
    requires ItemsOk(got, items)
    ensures forall it :: it in items ==> it.sym < 19
    decreases items
  {
    hide ExpandItem, Pow2;
    if items != [] {
      PlainSyms(ExpandItem(got, items[0]), items[1..]);
      forall it | it in items
        ensures it.sym < 19
      {
        assert it == items[0] || it in items[1..];
      }
    }
  }

  // Items that never name a length give only zeros.
  lemma {:induction false} OnlyZeros(got: seq<nat>, items: seq<Item>)
    requires ItemsOk(got, items) && (forall i :: 0 <= i < |got| ==> got[i] == 0)
    requires forall it :: it in items ==> it.sym == 0 || it.sym >= 16
    ensures forall i :: 0 <= i < |ExpandItems(got, items)| ==> ExpandItems(got, items)[i] == 0
    decreases items
  {
    hide Pow2;
    if items != [] {
      assert items[0] in items;
      OnlyZeros(ExpandItem(got, items[0]), items[1..]);
    }
  }

  // So a tree with a code needs at least one length by name.
  lemma SomeLength(l: Lens) returns (it: Item)
    requires LensOk(l) && exists s :: 0 <= s < |l| && l[s] != 0
    ensures it in Rle(l) && 1 <= it.sym < 16
  {
    hide ItemsOk, ExpandItems, Rle, LensOk;
    RleReads(l, []);
    assert [] + l == l;
    if forall it :: it in Rle(l) ==> it.sym == 0 || it.sym >= 16 {
      OnlyZeros([], Rle(l));
      assert false;
    }
    it :| it in Rle(l) && 1 <= it.sym < 16;
  }

  // The lengths that are named stand behind the three repeat codes in the order of sending.
  lemma OrderTail(i: nat)
    requires i < 19 && OrderOf(i) < 16
    ensures i >= 3
  {
  }

  // The bit length tree covers the items of both trees and its cost is that of the items.
  lemma BlCovers(l: Lens, d: Lens, blfreq: seq<nat>, blcodes: seq<nat>, bllens: Lens, blMax: nat, opt: int, stat: int)
    requires LensOk(l) && LensOk(d) && |blfreq| == HEAP_SIZE
    requires forall s :: 0 <= s < 19 ==> blfreq[s] == BlFreq(seq(HEAP_SIZE, _ => 0), Rle(l) + Rle(d))[s]
    requires Built(BlDesc(), blfreq, blcodes, bllens, blMax, opt, stat)
    ensures |bllens| == 19 && Complete(bllens) && LensOk(bllens) && forall i :: 0 <= i < 19 ==> bllens[i] <= 7
    ensures Coverable(bllens, Rle(l) + Rle(d)) && TreeFor(blcodes, bllens, bllens)
    ensures opt == |ItemsBits(bllens, Rle(l) + Rle(d))|
  {
    hide Built, CodedBits, StaticBits, Rle, BlFreq, ItemsBits, ItemsOk, ExpandItems, LensOk, Complete, RevCode;
    var items := Rle(l) + Rle(d);
    var zero: seq<nat> := seq(HEAP_SIZE, _ => 0);
    BothRead(l, d);
    PlainSyms([], items);
    BlFreqGrows(zero, items);
    BuiltCosts(BlDesc(), blfreq, blcodes, bllens, blMax, opt, stat);
    BuiltShape(BlDesc(), blfreq, blcodes, bllens, blMax, opt, stat);
    BlSize();
    CodedBitsNone(zero, bllens, BlDesc(), 19);
    ItemsCost(zero, bllens, items);
    CodedBitsSame(blfreq, BlFreq(zero, items), bllens, BlDesc(), 19);
  }

  lemma BuiltShape(desc: TreeDesc, freq: seq<nat>, fc: seq<nat>, lens: Lens, maxCode: nat, opt: int, stat: int)
    requires Built(desc, freq, fc, lens, maxCode, opt, stat)
    ensures Complete(lens) && LensOk(lens) && forall i :: 0 <= i < |lens| ==> lens[i] <= desc.maxLength
    ensures TreeFor(fc, lens, lens)
  {
    hide CodedBits, StaticBits, Complete, RevCode;
  }

  lemma CompleteAccepted(kind: Kind, lens: Lens)
    requires Complete(lens)
    ensures Acceptable(kind, lens) && NotOversubscribed(lens)
  {
    hide Kraft;
  }

  // Everything send_all_trees relies on.
  lemma HeaderReady(l: Lens, d: Lens, cl: Lens, n: nat)
    requires 257 <= |l| <= 286 && 1 <= |d| <= 30 && LensOk(l) && LensOk(d) && Complete(l) && Complete(d) && l[256] != 0
    requires |cl| == 19 && Complete(cl) && LensOk(cl) && (forall i :: 0 <= i < 19 ==> cl[i] <= 7)
    requires Coverable(cl, Rle(l) + Rle(d))
    requires 3 <= n <= 19 && (n > 3 ==> cl[OrderOf(n - 1)] != 0) && forall i :: n <= i < 19 ==> cl[OrderOf(i)] == 0
    ensures HeaderOk(l, d, cl, n)
  {
    hide Complete, Acceptable, LensOk, Rle, NotOversubscribed, OrderOf, PLACES;
    CompleteAccepted(LENS, l);
    CompleteAccepted(DISTS, d);
    CompleteAccepted(CODES, cl);
    var it := SomeLength(l);
    assert it in Rle(l) + Rle(d);
    OrderIsPermutation();
    OrderTail(PLACES[it.sym]);
  }

  lemma ItemsFew(l: Lens, d: Lens)
    ensures |Rle(l) + Rle(d)| <= |l| + |d|
  {
    hide RleFrom;
    RleLength(l, 0, -1, 0);
    RleLength(d, 0, -1, 0);
  }

  // ----- the trees of a block, built -----------------------------------------------------------------------------

  // A tree of the state: fc holds frequencies and then codes, dl fathers and then lengths.
  datatype Tree = Tree(fc: seq<nat>, dl: seq<nat>, maxCode: nat) {
    predicate Sized() {
      |fc| == |dl| == HEAP_SIZE
    }

    // Frequencies are 16 bits wide.
    function Count(x: nat): Tree
      requires x < |fc|
    {
      this.(fc := fc[x := (fc[x] + 1) % 65536])
    }
  }

  // The lengths to be sent, cut off behind the largest code, and the number of lengths sent for their
  // own code.
  datatype Header = Header(l: Lens, d: Lens, cl: Lens, n: nat)

  ghost predicate HeaderFits(h: Header) {
    HeaderOk(h.l, h.d, h.cl, h.n)
  }

  // The trees in the state are those of the header, they cover the tokens, and optLen and staticLen
  // are exactly what a dynamic and a static block take, without the three bits of the block type.
  ghost predicate TreesReady(h: Header, toks: seq<Token>, lt: Tree, dt: Tree, bt: Tree, optLen: int, staticLen: int) {
    && HeaderFits(h) && HeaderTrees(h.l, h.d, h.cl, h.n, lt.dl, dt.dl, bt.fc, bt.dl)
    && TreeFor(lt.fc, lt.dl, h.l) && TreeFor(dt.fc, dt.dl, h.d) && Covers(h.l, h.d, toks)
    && optLen == |HeaderBits(h.l, h.d, h.cl, h.n)| + |BlockBits(h.l, h.d, toks)|
    && staticLen == |BlockBits(FixedLit(), FixedDist(), toks)|
  }

  method MaxBlIndex(bldl: seq<nat>) returns (maxBlindex: int)
    requires |bldl| >= 19
    ensures 2 <= maxBlindex <= 18
    ensures maxBlindex > 2 ==> bldl[OrderOf(maxBlindex)] != 0
    ensures forall i :: maxBlindex < i < 19 ==> bldl[OrderOf(i)] == 0
  {
    hide OrderOf;
    maxBlindex := 18;
    while maxBlindex >= 3
      invariant 2 <= maxBlindex <= 18 && forall i :: maxBlindex < i < 19 ==> bldl[OrderOf(i)] == 0
    {
      if bldl[OrderOf(maxBlindex)] != 0 {
        break;
      }
      maxBlindex := maxBlindex - 1;
    }
  }

  lemma BlFinish(l: Lens, d: Lens, ldl: seq<nat>, ddl: seq<nat>, blfc0: seq<nat>, blfreq: seq<nat>, blfc: seq<nat>, bldl: seq<nat>, maxCode: nat,
      opt: int, stat: int, n: nat)
    requires 257 <= |l| <= 286 && 1 <= |d| <= 30 && Guarded(ldl, |l| - 1, l) && Guarded(ddl, |d| - 1, d)
    requires LensOk(l) && LensOk(d) && Complete(l) && Complete(d) && l[256] != 0
    requires |blfc0| == HEAP_SIZE && (forall s :: 0 <= s < 19 ==> blfc0[s] == 0) && blfreq == BlFreq(blfc0, Rle(l) + Rle(d))
    requires |bldl| == HEAP_SIZE && Built(BlDesc(), blfreq, blfc, bldl[..19], maxCode, opt, stat)
    requires 3 <= n <= 19 && (n > 3 ==> bldl[OrderOf(n - 1)] != 0) && forall i :: n <= i < 19 ==> bldl[OrderOf(i)] == 0
    ensures n >= 4 && HeaderTrees(l, d, bldl[..19], n, ldl, ddl, blfc, bldl)
    ensures opt + 3 * n + 14 == |HeaderBits(l, d, bldl[..19], n)|
  {
    hide Rle, BlFreq, Built, Complete, TreeFor, ItemsBits, HeaderOk, HeaderBits, OrderOf, Guarded, LensOk, Coverable;
    var cl := bldl[..19];
    BlZero(blfc0, Rle(l) + Rle(d));
    BlCovers(l, d, blfreq, blfc, cl, maxCode, opt, stat);
    HeaderReady(l, d, cl, n);
    HeaderShape(l, d, cl, n);
    TreeForLonger(blfc, bldl, cl);
    HeaderParts(l, d, cl, n, []);
    ItemsBitsJoin(cl, Rle(l), Rle(d));
  }

  // build_bl_tree.
  method BuildBlTree(heap: array<nat>, depth: seq<nat>, ldl0: seq<nat>, ddl0: seq<nat>, lMax: nat, dMax: nat, blfc0: seq<nat>, bldl0: seq<nat>,
      optLen0: int, ghost l: Lens, ghost d: Lens)
    returns (maxBlindex: int, ldl: seq<nat>, ddl: seq<nat>, blfc: seq<nat>, bldl: seq<nat>, maxCode: nat, optLen: int)
    requires heap.Length == |depth| == |ldl0| == |ddl0| == |blfc0| == |bldl0| == HEAP_SIZE
    requires forall s :: 0 <= s < 19 ==> blfc0[s] == 0
    requires lMax < 286 && dMax < 30 && l == ldl0[..lMax + 1] && d == ddl0[..dMax + 1]
    requires LensOk(l) && LensOk(d) && Complete(l) && Complete(d) && 257 <= |l| && l[256] != 0
    modifies heap
    ensures 3 <= maxBlindex < 19 && |bldl| == |blfc| == HEAP_SIZE && ldl == ldl0[lMax + 1 := GUARD] && ddl == ddl0[dMax + 1 := GUARD]
    ensures HeaderTrees(l, d, bldl[..19], maxBlindex + 1, ldl, ddl, blfc, bldl)
    ensures optLen == optLen0 + |HeaderBits(l, d, bldl[..19], maxBlindex + 1)|
  {
    hide Rle, BlFreq, Built, Complete, HeaderOk, HeaderBits, OrderOf, FreqTotal, Guarded, LensOk, OptimalLengths,
      HeaderTrees, BlDesc, Frequent;
    var staticLen, overflow;
    ldl, blfc := ScanTree(ldl0, lMax, blfc0, l);
    ddl, blfc := ScanTree(ddl0, dMax, blfc, d);
    BlFreqJoin(blfc0, Rle(l), Rle(d));
    ghost var blfreq := blfc;
    BlTotal(blfc0, Rle(l) + Rle(d), l, d);
    BlDescIs();
    blfc, bldl, maxCode, optLen, staticLen, overflow := BuildTree(BlDesc(), heap, depth, blfc, bldl0, optLen0, 0);
    BuiltSizes(BlDesc(), blfreq, blfc, bldl[..19], maxCode, optLen - optLen0, staticLen);
    maxBlindex := MaxBlIndex(bldl);
    BlFinish(l, d, ldl, ddl, blfc0, blfreq, blfc, bldl, maxCode, optLen - optLen0, staticLen, maxBlindex + 1);
    optLen := optLen + 3 * (maxBlindex + 1) + 5 + 5 + 4;
  }

  lemma BlDescIs()
    ensures DescOk(BlDesc()) && BlDesc().elems == 19
  {
    DescsOk();
  }

  lemma BuiltSizes(desc: TreeDesc, freq: seq<nat>, fc: seq<nat>, lens: Lens, maxCode: nat, opt: int, stat: int)
    requires Built(desc, freq, fc, lens, maxCode, opt, stat)
    ensures |fc| == |freq|
  {
    hide CodedBits, StaticBits, Complete, RevCode;
  }

  lemma TreeForLonger(fc: seq<nat>, dl: seq<nat>, lens: Lens)
    requires |lens| <= |dl| && dl[..|lens|] == lens && TreeFor(fc, lens, lens)
    ensures TreeFor(fc, dl, lens)
  {
    hide RevCode;
    forall s: nat | HasCode(lens, s)
      ensures dl[s] == lens[s]
    {
      assert dl[..|lens|][s] == lens[s];
    }
  }

  lemma BlTotal(blfc0: seq<nat>, items: seq<Item>, l: Lens, d: Lens)
    requires |blfc0| == HEAP_SIZE && (forall s :: 0 <= s < 19 ==> blfc0[s] == 0)
    requires items == Rle(l) + Rle(d) && |l| <= 286 && |d| <= 30
    ensures FreqTotal(BlFreq(blfc0, items), 19) < 65534
  {
    hide BlFreq, Rle, FreqTotal;
    BlFreqGrows(blfc0, items);
    NoFreqBelow(blfc0, 19);
    ItemsFew(l, d);
  }

  lemma {:induction false} NoFreqBelow(freq: seq<nat>, n: nat)
    requires n <= |freq| && forall x :: 0 <= x < n ==> freq[x] == 0
    ensures FreqTotal(freq, n) == 0
  {
    if n > 0 {
      NoFreqBelow(freq, n - 1);
    }
  }

  // What lies beyond the symbols does not influence their counts.
  lemma {:induction false} BlFreqAgree(f: seq<nat>, g: seq<nat>, items: seq<Item>)
    requires |f| >= 19 && |g| >= 19 && forall s :: 0 <= s < 19 ==> f[s] == g[s]
    ensures forall s :: 0 <= s < 19 ==> BlFreq(f, items)[s] == BlFreq(g, items)[s]
    decreases items
  {
    if items != [] {
      BlFreqAgree(if items[0].sym < 19 then Plus(f, items[0].sym) else f,
                  if items[0].sym < 19 then Plus(g, items[0].sym) else g, items[1..]);
    }
  }

  lemma BlZero(blfc0: seq<nat>, items: seq<Item>)
    requires |blfc0| == HEAP_SIZE && forall s :: 0 <= s < 19 ==> blfc0[s] == 0
    ensures forall s :: 0 <= s < 19 ==> BlFreq(blfc0, items)[s] == BlFreq(seq(HEAP_SIZE, _ => 0), items)[s]
  {
    BlFreqAgree(blfc0, seq(HEAP_SIZE, _ => 0), items);
  }

  // ----- sizes --------------------------------------------------------------------------------------------------------

  // In a static block no token takes more than 31 bits.
  lemma FixedToken(tok: Token)
    requires tok.dist <= 32768
    ensures |TokenBits(FixedLit(), FixedDist(), tok)| <= 31
  {
    hide LenExtra, DistExtra, DSym, LBASE, EXTRA_LBITS, LengthSym, CodeBits;
    Sizes();
    if tok.dist > 0 {
      LitExtra(tok);
      DistExtraLen(tok);
      ExtraLimits(tok);
    }
  }

  lemma ExtraLimits(tok: Token)
    requires 0 < tok.dist <= 32768
    ensures ExtraBits(LDesc(), LitSym(tok)) <= 5 && ExtraBits(DDesc(), DSym(tok)) <= 13
  {
    hide LengthSym, DistCodeOf;
    var c := LengthSym(tok.lc + 3);
    LastLength();
    if c < 28 {
      LengthExtras(c);
    }
    DistExtras(DSym(tok));
  }

  lemma {:induction false} FixedTokens(toks: seq<Token>)
    requires Sendable(toks)
    ensures |TokensBits(FixedLit(), FixedDist(), toks)| <= 31 * |toks|
  {
    hide TokenBits, FixedLit, FixedDist;
    if toks != [] {
      FixedTokens(toks[..|toks| - 1]);
      FixedToken(toks[|toks| - 1]);
    }
  }

  lemma FixedSize(toks: seq<Token>)
    requires Sendable(toks)
    ensures |BlockBits(FixedLit(), FixedDist(), toks)| <= 31 * |toks| + 7
  {
    hide TokensBits;
    FixedTokens(toks);
  }

  // ----- the state that trees.c keeps ---------------------------------------------------------------------------------

  datatype Option<T> = None | Some(value: T)

  const Z_HUFFMAN_ONLY := 2
  const Z_FIXED := 4

  // How a block was written.
  datatype Form = StoredForm | FixedForm | DynamicForm

  // How many bits the end of a block takes; a stored block counts as one of eight.
  function EndLen(form: Form, h: Header): nat {
    match form
    case StoredForm => 8
    case FixedForm => |CodeOf(FixedLit(), 256)|
    case DynamicForm => |CodeOf(h.l, 256)|
  }

  // What has been written as a block, and how many bits were held back before it.
  datatype Block = Block(form: Form, h: Header, toks: seq<Token>, held: nat)

  function Flat(blocks: seq<Block>): seq<Token> {
    if blocks == [] then [] else Flat(blocks[..|blocks| - 1]) + blocks[|blocks| - 1].toks
  }

  lemma FlatMore(blocks: seq<Block>, b: Block)
    ensures Flat(blocks + [b]) + [] == Flat(blocks) + b.toks
  {
    assert (blocks + [b])[..|blocks|] == blocks;
  }

  method ClearFreq(freq: seq<nat>, codes: nat) returns (f: seq<nat>)
    requires codes <= |freq|
    ensures |f| == |freq| && forall s :: 0 <= s < codes ==> f[s] == 0
  {
    f := freq;
    for n := 0 to codes
      invariant |f| == |freq| && forall s :: 0 <= s < n ==> f[s] == 0
    {
      f := f[n := 0];
    }
  }

  method ClearTrees(lfc0: seq<nat>, dfc0: seq<nat>, blfc0: seq<nat>) returns (lfc: seq<nat>, dfc: seq<nat>, blfc: seq<nat>)
    requires |lfc0| == |dfc0| == |blfc0| == HEAP_SIZE
    ensures Counted([], lfc, dfc) && |lfc| == |dfc| == |blfc| == HEAP_SIZE && forall s :: 0 <= s < 19 ==> blfc[s] == 0
  {
    hide Counted;
    lfc := ClearFreq(lfc0, 286);
    dfc := ClearFreq(dfc0, 30);
    blfc := ClearFreq(blfc0, 19);
    lfc := lfc[256 := 1];
    FreshCounts(lfc, dfc);
  }

  class TreeState {
    const w: Output
    const t: Static
    const litBufsize: nat
    const level: nat
    const strategy: nat
    const heap: array<nat>
    var depth: seq<nat>
    var ltree: Tree
    var dtree: Tree
    var bltree: Tree
    var optLen: int
    var staticLen: int
    var lastLit: nat
    var matches: nat
    var lastEobLen: nat
    // No block so far has been written over tokens that were still to be sent.
    var intact: bool
    ghost var toks: seq<Token>
    ghost var blocks: seq<Block>

    ghost predicate Sized()
      reads this, heap
    {
      && StaticOk(t) && heap.Length == HEAP_SIZE && 128 <= litBufsize <= 32768
      && |depth| == HEAP_SIZE && ltree.Sized() && dtree.Sized() && bltree.Sized()
    }

    // Between blocks and while tokens are collected.
    ghost predicate Valid()
      reads this, heap
    {
      && Sized()
      && lastLit == |toks| < litBufsize && Sendable(toks) && Counted(toks, ltree.fc, dtree.fc)
      && (forall s :: 0 <= s < 19 ==> bltree.fc[s] == 0)
      && optLen == 0 == staticLen && Kept()
    }

    // All tokens so far, in the blocks written and in the current one.
    ghost function Told(): seq<Token>
      reads this`blocks, this`toks
    {
      Flat(blocks) + toks
    }

    // No token has been lost exactly if each block so far has been spared.
    ghost predicate Kept()
      reads this`intact, this`blocks
    {
      intact <==> forall b :: b in blocks ==> BlockSpared(b.form, b.h, b.toks, b.held, litBufsize)
    }

    // _tr_init.
    constructor (w: Output, t: Static, litBufsize: nat, level: nat, strategy: nat)
      requires StaticOk(t) && 128 <= litBufsize <= 32768
      ensures Valid() && toks == [] && blocks == [] && intact && fresh(heap)
      ensures this.w == w && this.t == t && this.litBufsize == litBufsize && this.level == level && this.strategy == strategy
    {
      this.w, this.t, this.litBufsize, this.level, this.strategy := w, t, litBufsize, level, strategy;
      heap := new nat[HEAP_SIZE](_ => 0);
      var zero: seq<nat> := seq(HEAP_SIZE, _ => 0);
      depth, ltree, dtree, bltree := zero, Tree(zero, zero, 0), Tree(zero, zero, 0), Tree(zero, zero, 0);
      optLen, staticLen, lastLit, toks, matches, lastEobLen, intact, blocks := 0, 0, 0, [], 0, 8, true, [];
      new;
      InitBlock();
    }

    // init_block.
    method InitBlock()
      requires Sized() && Kept()
      modifies this
      ensures Valid() && toks == [] && matches == 0 && lastEobLen == old(lastEobLen) && intact == old(intact) && blocks == old(blocks)
    {
      hide StaticOk, Counted, BlockSpared;
      var lfc, dfc, blfc := ClearTrees(ltree.fc, dtree.fc, bltree.fc);
      ltree, dtree, bltree := ltree.(fc := lfc), dtree.(fc := dfc), bltree.(fc := blfc);
      optLen, staticLen, lastLit, toks, matches := 0, 0, 0, [], 0;
    }

    // The tokens of the block lie in pending_buf.
    ghost predicate Collected()
      reads this`toks, w.pendingBuf
    {
      Overlaid(w.pendingBuf[..], litBufsize, toks)
    }

    // The two stores of _tr_tally.
    method Store(dist: nat, lc: byte)
      requires Collected() && lastLit == |toks| < litBufsize && dist < 65536
      requires w.Valid() && w.pendingOut == 0 == w.pending
      modifies this`lastLit, this`toks, w.pendingBuf
      ensures Collected() && toks == old(toks) + [Token(dist, lc)] && lastLit == old(lastLit) + 1
      ensures Told() == old(Told()) + [Token(dist, lc)]
      ensures w.Valid() && w.Sent() == old(w.Sent()) && w.SentBytes() == old(w.SentBytes())
    {
      ghost var buf := w.pendingBuf[..];
      w.pendingBuf[litBufsize + 2 * lastLit] := dist % 256;
      w.pendingBuf[litBufsize + 2 * lastLit + 1] := dist / 256;
      w.pendingBuf[3 * litBufsize + lastLit] := lc;
      PutDown(buf, w.pendingBuf[..], litBufsize, toks, Token(dist, lc));
      lastLit := lastLit + 1;
      toks := toks + [Token(dist, lc)];
      assert Flat(blocks) + (old(toks) + [Token(dist, lc)]) == Flat(blocks) + old(toks) + [Token(dist, lc)];
    }

    // _tr_tally; the result says that the block must be flushed.
    method Tally(dist: nat, lc: byte) returns (flush: bool)
      requires Valid() && Collected() && |toks| + 1 < litBufsize && dist <= 32768
      requires w.Valid() && w.pendingOut == 0 == w.pending
      modifies this`ltree, this`dtree, this`lastLit, this`toks, this`matches, w.pendingBuf
      ensures Valid() && Collected() && toks == old(toks) + [Token(dist, lc)] && (flush <==> |toks| == litBufsize - 1)
      ensures Told() == old(Told()) + [Token(dist, lc)]
      ensures w.Valid() && w.Sent() == old(w.Sent()) && w.SentBytes() == old(w.SentBytes())
    {
      hide StaticOk, LFreq, DFreq, LBASE, EXTRA_LBITS, LengthSym, DistCodeOf, DCode, Collected, Output.Valid,
        Output.Sent, Output.SentBytes, TreeState.Told, TreeState.Kept;
      var tok := Token(dist, lc);
      TallyStep(toks, ltree.fc, dtree.fc, tok);
      TallyEntry(t, tok);
      Store(dist, lc);
      var c: nat := lc;
      if dist == 0 {
        ltree := ltree.Count(c);
      } else {
        matches := matches + 1;
        ltree := ltree.Count(t.lengthCode[c] + 257);
        dtree := dtree.Count(DCode(t, dist - 1));
      }
      flush := lastLit == litBufsize - 1;
    }

    // The part of _tr_flush_block that builds the trees.
    method BuildTrees() returns (maxBlindex: int, ghost h: Header)
      requires Valid()
      modifies this`ltree, this`dtree, this`bltree, this`optLen, this`staticLen, heap
      ensures Sized() && 3 <= maxBlindex < 19 && h.n == maxBlindex + 1 && |h.l| == ltree.maxCode + 1 && |h.d| == dtree.maxCode + 1
      ensures TreesReady(h, toks, ltree, dtree, bltree, optLen, staticLen)
    {
      hide StaticOk, Sendable, Covers, HeaderTrees, HeaderOk, HeaderBits, BlockBits, TreeFor, LensOk, Complete,
        Counted, TreesReady, FixedLit, FixedDist;
      ghost var l, d;
      var lfc, ldl, dfc, ddl, blfc, bldl, lMax, dMax, blMax;
      lfc, ldl, dfc, ddl, lMax, dMax, optLen, staticLen, l, d :=
        BuildPair(heap, depth, ltree.fc, ltree.dl, dtree.fc, dtree.dl, optLen, staticLen, toks);
      ghost var ldl1, ddl1 := ldl, ddl;
      EndCoded(l, d, toks);
      maxBlindex, ldl, ddl, blfc, bldl, blMax, optLen := BuildBlTree(heap, depth, ldl, ddl, lMax, dMax, bltree.fc, bltree.dl, optLen, l, d);
      GuardedFor(lfc, ldl1, lMax, 286);
      GuardedFor(dfc, ddl1, dMax, 30);
      h := Header(l, d, bldl[..19], maxBlindex + 1);
      ltree, dtree, bltree := Tree(lfc, ldl, lMax), Tree(dfc, ddl, dMax), Tree(blfc, bldl, blMax);
      AllReady(h, toks, ltree, dtree, bltree, optLen, staticLen);
    }

    // _tr_stored_block.
    method StoredBlock(buf: Bytes, eof: bool)
      requires |buf| < 65536 && w.Ready(3)
      requires w.Held() + 3 + PadLen(|w.Sent()| + 3) + 32 + 8 * |buf| <= 8 * w.pendingBuf.Length
      modifies this`lastEobLen, w`pending, w`biBuf, w`biValid, w.pendingBuf
      ensures w.Valid() && w.pendingOut == 0 && w.biValid == 0 && lastEobLen == 8
      ensures w.Held() == old(w.Held()) + |StoredBits(PadLen(old(|w.Sent()|) + 3), buf, eof)|
      ensures w.Sent() == old(w.Sent()) + StoredBits(PadLen(old(|w.Sent()|) + 3), buf, eof)
    {
      hide ToBits, BytesToBits, Pow2, PadLen, StoredTail, TypeBits, StoredBits;
      ghost var s := w.Sent();
      SendType(w, 0, eof);
      PadOf(w);
      StoredIs(s, PadLen(|s| + 3), buf, eof);
      CopyBlock(w, buf);
      lastEobLen := 8;
    }

    // The tokens stand in pending_buf ahead of what is about to be written.
    ghost predicate Ahead(laid: Bytes)
      reads this`lastLit, this`toks, w`pending, w`biValid, w.pendingBuf
    {
      lastLit == |toks| < litBufsize && w.pendingBuf.Length == 4 * litBufsize && w.Laid(laid) && Overlaid(laid, litBufsize, toks)
    }

    // A block with the static trees.
    method FixedBlock(eof: bool, ghost laid: Bytes) returns (ok: bool)
      requires StaticOk(t) && Sendable(toks) && w.Ready(|FixedBits(toks, eof)|) && Ahead(laid)
      modifies this`lastEobLen, w`pending, w`biBuf, w`biValid, w.pendingBuf
      ensures w.Valid() && w.pendingOut == 0 && Issued(ok, old(w.Sent()), old(w.Held()), w.Sent(), w.Held(), FixedBits(toks, eof))
      ensures ok <==> Spared(old(w.Held()) + 3, FixedLit(), FixedDist(), toks, litBufsize)
      ensures lastEobLen == |CodeOf(FixedLit(), 256)|
    {
      hide ToBits, BytesToBits, Pow2, StaticOk, BlockBits, Sendable, TreeFor, Covers, FixedLit, FixedDist, TypeBits,
        Spared, Output.Laid, Overlaid, Issued, Stopped, Output.Sent, StaticDist;
      ghost var s, held := w.Sent(), w.Held();
      TypeLength(1, eof);
      SendType(w, 1, eof);
      FixedTrees(t, toks);
      SparedSame(w.Held(), toks, litBufsize);
      ok := CompressBlock(w, t, lastLit, litBufsize, t.ltree, FixedLit(), t.dtree, StaticDist(), toks, laid, FixedLit(), StaticDist());
      AfterType(ok, s, held, TypeBits(1, eof), BlockBits(FixedLit(), StaticDist(), toks), w.Sent(), w.Held());
      FixedEnd();
      lastEobLen := FixedLit()[256];
    }

    // A block with the dynamic trees, header first.
    method DynamicBlock(maxBlindex: int, eof: bool, ghost laid: Bytes, ghost h: Header) returns (ok: bool)
      requires StaticOk(t) && Sendable(toks) && TreesReady(h, toks, ltree, dtree, bltree, optLen, staticLen)
      requires maxBlindex + 1 == h.n && |h.l| == ltree.maxCode + 1 && |h.d| == dtree.maxCode + 1
      requires w.Ready(|DynBits(h, toks, eof)|) && Ahead(laid)
      modifies this`lastEobLen, w`pending, w`biBuf, w`biValid, w.pendingBuf
      ensures w.Valid() && w.pendingOut == 0 && Issued(ok, old(w.Sent()), old(w.Held()), w.Sent(), w.Held(), DynBits(h, toks, eof))
      ensures lastEobLen == |CodeOf(h.l, 256)|
      ensures HeaderShaped(h) && (ok <==> Spared(old(w.Held()) + 3 + |HeaderBits(h.l, h.d, h.cl, h.n)|, h.l, h.d, toks, litBufsize))
    {
      hide ToBits, BytesToBits, Pow2, StaticOk, BlockBits, Sendable, TreeFor, Covers, HeaderTrees, HeaderBits,
        TreesReady, TypeBits, DynBits, Spared, Output.Laid, Overlaid, Issued, Stopped, Output.Sent;
      ghost var s, held := w.Sent(), w.Held();
      ReadyParts(h, toks, ltree, dtree, bltree, optLen, staticLen);
      DynIs(w.Sent(), h, toks, eof);
      SendType(w, 2, eof);
      SendAllTrees(w, ltree.maxCode + 1, dtree.maxCode + 1, maxBlindex + 1, ltree.dl, dtree.dl, bltree.fc, bltree.dl, h.l, h.d, h.cl);
      ok := CompressBlock(w, t, lastLit, litBufsize, ltree.fc, ltree.dl, dtree.fc, dtree.dl, toks, laid, h.l, h.d);
      assert s + (TypeBits(2, eof) + HeaderBits(h.l, h.d, h.cl, h.n)) == s + TypeBits(2, eof) + HeaderBits(h.l, h.d, h.cl, h.n);
      AfterType(ok, s, held, TypeBits(2, eof) + HeaderBits(h.l, h.d, h.cl, h.n), BlockBits(h.l, h.d, toks), w.Sent(), w.Held());
      lastEobLen := ltree.dl[256];
    }

    // Writes the block in the form chosen by its sizes in bytes.
    method WriteBlock(buf: Option<Bytes>, storedLen: nat, maxBlindex: int, optLenb: int, staticLenb: int, eof: bool, ghost laid: Bytes, ghost h: Header)
      returns (ok: bool, ghost form: Form)
      requires StaticOk(t) && Sendable(toks) && w.Ready(0) && Ahead(laid)
      requires buf.Some? ==> |buf.value| == storedLen < 65536
      requires Chooses(buf.Some?, storedLen, optLenb, staticLenb, strategy) == DynamicForm ==>
                 && TreesReady(h, toks, ltree, dtree, bltree, optLen, staticLen)
                 && maxBlindex + 1 == h.n && |h.l| == ltree.maxCode + 1 && |h.d| == dtree.maxCode + 1
      requires w.Ready(|FormBits(Chooses(buf.Some?, storedLen, optLenb, staticLenb, strategy), |w.Sent()|, h, toks, buf, eof)|)
      modifies this`lastEobLen, w`pending, w`biBuf, w`biValid, w.pendingBuf
      ensures form == Chooses(buf.Some?, storedLen, optLenb, staticLenb, strategy)
      ensures w.Valid() && w.pendingOut == 0
      ensures Issued(ok, old(w.Sent()), old(w.Held()), w.Sent(), w.Held(), FormBits(form, old(|w.Sent()|), h, toks, buf, eof))
      ensures ok <==> BlockSpared(form, h, toks, old(w.Held()), litBufsize)
      ensures lastEobLen == EndLen(form, h) && (form == StoredForm ==> w.biValid == 0)
    {
      hide StaticOk, Sendable, TreesReady, DynBits, FixedBits, StoredBits, PadLen, BytesToBits, ToBits, Pow2, Spared,
        HeaderBits, FixedLit, FixedDist, TreeState.Ahead;
      ok := true;
      if storedLen + 4 <= optLenb && buf.Some? {
        form := StoredForm;
        StoredIs(w.Sent(), PadLen(|w.Sent()| + 3), buf.value, eof);
        StoredBlock(buf.value, eof);
      } else if strategy == Z_FIXED || staticLenb == optLenb {
        form := FixedForm;
        ok := FixedBlock(eof, laid);
      } else {
        form := DynamicForm;
        ok := DynamicBlock(maxBlindex, eof, laid, h);
      }
    }

    // The first half of _tr_flush_block: the trees and the sizes, unless a stored block is forced.
    method PrepareBlock(buf: Option<Bytes>, storedLen: nat, ghost eof: bool)
      returns (maxBlindex: int, optLenb: int, staticLenb: int, ghost h: Header, ghost form: Form)
      requires Valid() && w.Valid() && w.pendingOut == 0 == w.pending && w.pendingBuf.Length == 4 * litBufsize
      requires buf.Some? ==> |buf.value| == storedLen < 65536
      requires level == 0 ==> buf.Some? && w.biValid <= 5 && storedLen + 5 <= 4 * litBufsize
      modifies this`ltree, this`dtree, this`bltree, this`optLen, this`staticLen, heap
      ensures Sized() && form == Chooses(buf.Some?, storedLen, optLenb, staticLenb, strategy)
      ensures form == StoredForm ==> buf.Some?
      ensures level == 0 ==> form == StoredForm
      ensures level > 0 ==>
                && TreesReady(h, toks, ltree, dtree, bltree, optLen, staticLen) && WellChosen(form, strategy, buf.Some?, toks, storedLen, h, eof)
                && maxBlindex + 1 == h.n && |h.l| == ltree.maxCode + 1 && |h.d| == dtree.maxCode + 1
      ensures w.Ready(|FormBits(form, |w.Sent()|, h, toks, buf, eof)|)
    {
      hide StaticOk, Sendable, TreesReady, DynBits, FixedBits, StoredBits, PadLen, BytesToBits, ToBits, Pow2, FormBits,
        Chooses, Counted, WellChosen;
      ghost var pos, held := |w.Sent()|, w.Held();
      w.SentLength();
      if level > 0 {
        maxBlindex, h := BuildTrees();
        optLenb := (optLen + 3 + 7) / 8;
        staticLenb := (staticLen + 3 + 7) / 8;
        WellChosenBy(h, toks, ltree, dtree, bltree, optLen, staticLen, strategy, buf, storedLen, eof);
        Fits(pos, held, h, toks, ltree, dtree, bltree, optLen, staticLen, strategy, buf, storedLen, litBufsize, eof);
        if staticLenb <= optLenb {
          optLenb := staticLenb;
        }
      } else {
        maxBlindex, h := 0, Header([], [], [], 0);
        optLenb := storedLen + 5;
        staticLenb := storedLen + 5;
        FitsStored(pos, held, h, toks, strategy, buf, storedLen, litBufsize, eof);
      }
      form := Chooses(buf.Some?, storedLen, optLenb, staticLenb, strategy);
      ChoiceIs(buf.Some?, storedLen, optLenb, staticLenb, strategy);
    }

    // The block itself.
    method BlockOut(buf: Option<Bytes>, storedLen: nat, eof: bool, ghost views: seq<View>) returns (ghost form: Form, ghost h: Header)
      requires Valid() && Collected() && StaticOk(t) && w.Valid() && w.pendingOut == 0 == w.pending && w.pendingBuf.Length == 4 * litBufsize
      requires buf.Some? ==> |buf.value| == storedLen < 65536
      requires level == 0 ==> buf.Some? && w.biValid <= 5 && storedLen + 5 <= 4 * litBufsize
      requires forall v :: v in views ==> InView(v, intact, w.Sent()) && Means(v, level, buf, toks)
      modifies this, heap, w`pending, w`biBuf, w`biValid, w.pendingBuf
      ensures Sized() && Kept() && w.Ready(0) && |w.Sent()| >= old(|w.Sent()|)
      ensures blocks == old(blocks) + [Block(form, h, old(toks), old(w.Held()))]
      ensures intact <==> old(intact) && BlockSpared(form, h, old(toks), old(w.Held()), litBufsize)
      ensures intact ==> w.Sent() == old(w.Sent()) + FormBits(form, |old(w.Sent())|, h, old(toks), buf, eof)
      ensures forall v :: v in views && old(intact) ==> BlockReads(v, old(w.Sent()), FormBits(form, |old(w.Sent())|, h, old(toks), buf, eof), eof)
      ensures level > 0 ==> WellChosen(form, strategy, buf.Some?, old(toks), storedLen, h, eof) && Covers(h.l, h.d, old(toks))
      ensures level == 0 ==> form == StoredForm && w.biValid == 0
      ensures lastEobLen == EndLen(form, h)
    {
      hide StaticOk, Sendable, TreesReady, PadLen, BytesToBits, ToBits, Pow2, FormBits, Chooses, Counted, Written,
        WellChosen, BlockSpared, Overlaid, Output.Laid, InView, Means, BlockReads, Output.Sent, Covers, HeaderTrees,
        TreeFor;
      ghost var s, held, toks0, was, laid := w.Sent(), w.Held(), toks, intact, w.pendingBuf[..];
      var maxBlindex, optLenb, staticLenb, ok;
      maxBlindex, optLenb, staticLenb, h, form := PrepareBlock(buf, storedLen, eof);
      if level > 0 {
        ReadyParts(h, toks, ltree, dtree, bltree, optLen, staticLen);
      }
      w.LaidFirst();
      ok, form := WriteBlock(buf, storedLen, maxBlindex, optLenb, staticLenb, eof, laid, h);
      intact := intact && ok;
      blocks := blocks + [Block(form, h, toks, held)];
      ViewsRead(views, was, form, s, h, level, toks0, ltree, dtree, bltree, optLen, staticLen, buf, eof);
    }

    // _tr_flush_block, without the guess of the data type, for each view on the stream. As long as no token has been
    // overwritten before its turn, the stream reads back as it must.
    method FlushBlock(buf: Option<Bytes>, storedLen: nat, eof: bool, ghost views: seq<View>)
      returns (ghost form: Form, ghost h: Header)
      requires Valid() && Collected() && StaticOk(t) && w.Valid() && w.pendingOut == 0 == w.pending && w.pendingBuf.Length == 4 * litBufsize
      requires buf.Some? ==> |buf.value| == storedLen < 65536
      requires level == 0 ==> buf.Some? && w.biValid <= 5 && storedLen + 5 <= 4 * litBufsize
      requires forall v :: v in views ==> InView(v, intact, w.Sent()) && Means(v, level, buf, toks)
      modifies this, heap, w`pending, w`biBuf, w`biValid, w.pendingBuf
      ensures Valid() && toks == [] && w.Valid() && w.pendingOut == 0
      ensures blocks == old(blocks) + [Block(form, h, old(toks), old(w.Held()))] && Told() == old(Told())
      ensures intact <==> old(intact) && BlockSpared(form, h, old(toks), old(w.Held()), litBufsize)
      ensures forall v :: v in views ==>
                Flushed(intact, old(w.Sent()), w.Sent(), FormBits(form, |old(w.Sent())|, h, old(toks), buf, eof), eof, v.at, v.out2)
      ensures |w.Sent()| >= old(|w.Sent()|)
      ensures level > 0 ==> WellChosen(form, strategy, buf.Some?, old(toks), storedLen, h, eof) && Covers(h.l, h.d, old(toks))
      ensures level == 0 ==> form == StoredForm
      ensures lastEobLen == EndLen(form, h)
      ensures level == 0 || eof ==> w.biValid == 0
    {
      hide StaticOk, PadLen, BytesToBits, ToBits, FormBits, Counted, WellChosen, Covers, Flushed, BlockSpared,
        Overlaid, InView, Means, BlockReads, Output.Sent;
      ghost var s, toks0, was := w.Sent(), toks, intact;
      form, h := BlockOut(buf, storedLen, eof, views);
      FlatMore(old(blocks), Block(form, h, toks0, old(w.Held())));
      InitBlock();
      EndStream(eof);
      ViewsFlushed(views, was, intact, s, w.Sent(), FormBits(form, |s|, h, toks0, buf, eof), eof);
    }

    // Behind the last block the stream is padded to a byte.
    method EndStream(eof: bool)
      requires w.Ready(0)
      modifies w`pending, w`biBuf, w`biValid, w.pendingBuf
      ensures w.Valid() && w.pendingOut == 0 && (if eof then w.biValid == 0 else w.biValid == old(w.biValid))
      ensures w.Sent() == old(w.Sent()) + if eof then ToBits(0, PadLen(|old(w.Sent())|)) else []
    {
      hide PadLen, BytesToBits, ToBits, Pow2, Output.Sent;
      PadOf(w);
      if eof {
        w.BiWindup();
      }
    }

    // An empty static block.
    method EmptyBlock()
      requires StaticOk(t) && w.Ready(10)
      modifies w`pending, w`biBuf, w`biValid, w.pendingBuf
      ensures w.Valid() && w.pendingOut == 0 && w.Held() == old(w.Held()) + 10 && w.biValid == (old(w.biValid) + 10) % 8
      ensures w.Sent() == old(w.Sent()) + FixedBits([], false)
    {
      hide ToBits, BytesToBits, Pow2, StaticOk, TreeFor, Covers, FixedLit, FixedDist, TypeBits, FixedBits, CodeOf,
        HasCode, LensOk, BlockBits;
      FixedTrees(t, []);
      FixedEnd();
      SendType(w, 1, false);
      SendCode(w, t.ltree, FixedLit(), 256, FixedLit());
      ghost var held := w.Held();
      w.BiFlush();
      RestOf(w.pending, w.biValid, held);
    }

    // _tr_align.
    method Align() returns (ghost blocks: nat)
      requires StaticOk(t) && w.Ready(20)
      modifies this`lastEobLen, w`pending, w`biBuf, w`biValid, w.pendingBuf
      ensures w.Valid() && w.pendingOut == 0 && w.biValid < 8 && lastEobLen == 7
      ensures blocks == if old(lastEobLen) + 11 - (old(w.biValid) + 10) % 8 < 9 then 2 else 1
      ensures w.Sent() == old(w.Sent()) + EmptyBits(blocks) && w.Held() == old(w.Held()) + 10 * blocks
    {
      hide ToBits, BytesToBits, Pow2, StaticOk, FixedBits;
      ghost var s, e := w.Sent(), FixedBits([], false);
      EmptyBlock();
      blocks := 1;
      assert EmptyBits(0) + e == e;
      if 1 + lastEobLen + 10 - w.biValid < 9 {
        EmptyBlock();
        blocks := 2;
        assert s + e + e == s + (EmptyBits(1) + e);
      }
      lastEobLen := 7;
    }
  }

  lemma RestOf(bytes: nat, bits: nat, held: nat)
    requires 8 * bytes + bits == held && bits < 8
    ensures bits == held % 8
  {
  }

  lemma GoesOnReading(r: BitString, out: Bytes)
    requires Reaches(r, START, Between(|r|, false, out))
    ensures Written(r, out)
  {
  }

  lemma FixedEnd()
    ensures HasCode(FixedLit(), 256) && LensOk(FixedLit()) && |CodeOf(FixedLit(), 256)| == 7
    ensures FixedBits([], false) == TypeBits(1, false) + CodeOf(FixedLit(), 256)
  {
    hide CodeBits, TypeBits;
    assert TokensBits(FixedLit(), FixedDist(), []) == [];
  }

  // An empty block adds nothing to what the stream stands for.
  lemma EmptyReads(s: BitString, hdr: nat, out: Bytes)
    requires 8 * hdr <= |s| && Written(s[8 * hdr..], out)
    ensures Written((s + FixedBits([], false))[8 * hdr..], out)
  {
    hide Written, Reaches, Covers, At, FixedBits;
    var q, bits := s[8 * hdr..], FixedBits([], false);
    assert (s + bits)[8 * hdr..] == q + bits;
    AtEnd(q, bits);
    FixedCovers([]);
    FixedDecodes(q + bits, |q|, out, [], false);
    BlockAdded(q, bits, out, out, false);
    GoesOnReading(q + bits, out);
  }

  // So do several of them.
  function EmptyBits(n: nat): BitString {
    if n == 0 then [] else EmptyBits(n - 1) + FixedBits([], false)
  }

  lemma {:induction false} EmptiesRead(s: BitString, n: nat, at: nat, out: Bytes)
    requires 8 * at <= |s| && Written(s[8 * at..], out)
    ensures Written((s + EmptyBits(n))[8 * at..], out)
  {
    hide FixedBits, Written;
    if n == 0 {
      assert s + [] == s;
    } else {
      EmptiesRead(s, n - 1, at, out);
      EmptyReads(s + EmptyBits(n - 1), at, out);
      assert s + EmptyBits(n - 1) + FixedBits([], false) == s + EmptyBits(n);
    }
  }

  // A view on the stream: from byte `at` on it reads back as `out` so far, and must as `out2` with the block.
  datatype View = View(at: nat, out: Bytes, out2: Bytes)

  ghost predicate InView(v: View, intact: bool, sent: BitString) {
    8 * v.at <= |sent| && (intact ==> Written(sent[8 * v.at..], v.out))
  }

  // What the block adds, as bytes and as tokens.
  ghost predicate Means(v: View, level: nat, buf: Option<Bytes>, toks: seq<Token>) {
    && (buf.Some? ==> v.out2 == v.out + buf.value)
    && (level > 0 ==> Expandable(v.out, toks) && Expand(v.out, toks) == v.out2)
  }

  ghost predicate BlockReads(v: View, s: BitString, bits: BitString, eof: bool) {
    8 * v.at <= |s| && var r := (s + bits)[8 * v.at..]; Reaches(r, START, Between(|r|, eof, v.out2))
  }

  lemma ViewReads(v: View, form: Form, s: BitString, h: Header, level: nat, toks: seq<Token>, lt: Tree, dt: Tree, bt: Tree, optLen: int, staticLen: int,
      buf: Option<Bytes>, eof: bool)
    requires InView(v, true, s) && Means(v, level, buf, toks)
    requires form == StoredForm ==> buf.Some? && |buf.value| < 65536
    requires form != StoredForm ==> level > 0 && TreesReady(h, toks, lt, dt, bt, optLen, staticLen)
    ensures BlockReads(v, s, FormBits(form, |s|, h, toks, buf, eof), eof)
  {
    hide Written, Expandable, Expand, TreesReady, Reaches, FormBits;
    FormReads(form, s, v.at, h, toks, lt, dt, bt, optLen, staticLen, buf, eof, v.out, v.out2);
  }

  // If all is well, the stream has grown by the block, and after the last block by padding; it reads back as `out`.
  ghost predicate Flushed(intact: bool, s: BitString, s': BitString, bits: BitString, eof: bool, at: nat, out: Bytes) {
    && 8 * at <= |s| <= |s'|
    && (intact ==>
          && s' == s + bits + (if eof then ToBits(0, PadLen(|s + bits|)) else [])
          && (if eof then Finished(s'[8 * at..], out) else Written(s'[8 * at..], out)))
  }

  lemma FlushedFrom(s: BitString, s': BitString, bits: BitString, eof: bool, at: nat, out: Bytes)
    requires 8 * at <= |s| && s' == if eof then s + bits + ToBits(0, PadLen(|s + bits|)) else s + bits
    requires var r := (s + bits)[8 * at..]; Reaches(r, START, Between(|r|, eof, out))
    ensures Flushed(true, s, s', bits, eof, at, out)
  {
    hide Reaches, ToBits, PadLen, Finished;
    if eof {
      EndReads(s + bits, at, out);
    }
  }

  lemma ViewsRead(views: seq<View>, was: bool, form: Form, s: BitString, h: Header, level: nat, toks: seq<Token>, lt: Tree, dt: Tree, bt: Tree,
      optLen: int, staticLen: int, buf: Option<Bytes>, eof: bool)
    requires forall v :: v in views ==> InView(v, was, s) && Means(v, level, buf, toks)
    requires form == StoredForm ==> buf.Some? && |buf.value| < 65536
    requires form != StoredForm ==> level > 0 && TreesReady(h, toks, lt, dt, bt, optLen, staticLen)
    ensures forall v :: v in views && was ==> BlockReads(v, s, FormBits(form, |s|, h, toks, buf, eof), eof)
  {
    hide InView, Means, BlockReads, TreesReady, FormBits;
    forall v | v in views && was
      ensures BlockReads(v, s, FormBits(form, |s|, h, toks, buf, eof), eof)
    {
      ViewReads(v, form, s, h, level, toks, lt, dt, bt, optLen, staticLen, buf, eof);
    }
  }

  lemma ViewsFlushed(views: seq<View>, was: bool, intact: bool, s: BitString, s': BitString, bits: BitString, eof: bool)
    requires |s| <= |s'| && (intact ==> was && s' == s + bits + if eof then ToBits(0, PadLen(|s + bits|)) else [])
    requires forall v :: v in views ==> InView(v, was, s) && (was ==> BlockReads(v, s, bits, eof))
    ensures forall v :: v in views ==> Flushed(intact, s, s', bits, eof, v.at, v.out2)
  {
    hide InView, BlockReads, Flushed, ToBits, PadLen;
    forall v | v in views
      ensures Flushed(intact, s, s', bits, eof, v.at, v.out2)
    {
      ViewFlushed(v, was, intact, s, s', bits, eof);
    }
  }

  lemma ViewFlushed(v: View, was: bool, intact: bool, s: BitString, s': BitString, bits: BitString, eof: bool)
    requires InView(v, was, s) && |s| <= |s'|
    requires intact ==> was && BlockReads(v, s, bits, eof) && s' == if eof then s + bits + ToBits(0, PadLen(|s + bits|)) else s + bits
    ensures Flushed(intact, s, s', bits, eof, v.at, v.out2)
  {
    hide Reaches, ToBits, PadLen, Finished, Written;
    if intact {
      FlushedFrom(s, s', bits, eof, v.at, v.out2);
    }
  }

  lemma AfterType(ok: bool, s: BitString, held: nat, front: BitString, rest: BitString, s': BitString, held': nat)
    requires Issued(ok, s + front, held + |front|, s', held', rest)
    ensures Issued(ok, s, held, s', held', front + rest)
  {
    assert s + front + rest == s + (front + rest);
  }

  // No token of the block is overwritten before its turn. What the code lengths and the bits held back say of it is
  // known before the block is written.
  ghost predicate BlockSpared(form: Form, h: Header, toks: seq<Token>, held: nat, size: nat) {
    match form
    case StoredForm => true
    case FixedForm => Spared(held + 3, FixedLit(), FixedDist(), toks, size)
    case DynamicForm => HeaderShaped(h) && Spared(held + 3 + |HeaderBits(h.l, h.d, h.cl, h.n)|, h.l, h.d, toks, size)
  }

  // static_dtree makes no difference.
  lemma SparedSame(held: nat, toks: seq<Token>, size: nat)
    ensures Spared(held, FixedLit(), StaticDist(), toks, size) <==> Spared(held, FixedLit(), FixedDist(), toks, size)
  {
    hide TokensBits, Put, FixedLit, FixedDist, StaticDist;
    forall i | 0 <= i < |toks|
      ensures Before(held, FixedLit(), StaticDist(), toks, i) == Before(held, FixedLit(), FixedDist(), toks, i)
    {
      StaticDistTokens(FixedLit(), toks[..i]);
    }
  }

  // The form that _tr_flush_block chooses, where optLenb is already the smaller of the two sizes.
  function Chooses(some: bool, storedLen: nat, optLenb: int, staticLenb: int, strategy: nat): Form {
    if storedLen + 4 <= optLenb && some then StoredForm
    else if strategy == Z_FIXED || staticLenb == optLenb then FixedForm
    else DynamicForm
  }

  function SmallerOf(a: int, b: int): int {
    if b <= a then b else a
  }

  // In bytes, a dynamic block is never longer than the static one, nor, unless Z_FIXED asks for it, the
  // static block longer than the dynamic one; and a stored block is no longer than either.
  ghost predicate WellChosen(form: Form, strategy: nat, some: bool, toks: seq<Token>, storedLen: nat, h: Header, eof: bool) {
    var dyn, fix := (|DynBits(h, toks, eof)| + 7) / 8, (|FixedBits(toks, eof)| + 7) / 8;
    && HeaderShaped(h)
    && (form == StoredForm <==> some && storedLen + 4 <= dyn && storedLen + 4 <= fix)
    && (form == FixedForm <==> form != StoredForm && (strategy == Z_FIXED || fix <= dyn))
  }

  lemma WellChosenBy(h: Header, toks: seq<Token>, lt: Tree, dt: Tree, bt: Tree, optLen: int, staticLen: int,
      strategy: nat, buf: Option<Bytes>, storedLen: nat, eof: bool)
    requires TreesReady(h, toks, lt, dt, bt, optLen, staticLen)
    ensures var o, s := (optLen + 3 + 7) / 8, (staticLen + 3 + 7) / 8;
            WellChosen(Chooses(buf.Some?, storedLen, SmallerOf(o, s), s, strategy), strategy, buf.Some?, toks, storedLen, h, eof)
  {
    hide HeaderTrees, TreeFor, Covers, HeaderBits, BlockBits, HeaderFits, TypeBits, FixedLit, FixedDist, DynBits;
    ReadyParts(h, toks, lt, dt, bt, optLen, staticLen);
    DynIs([], h, toks, eof);
    TypeLength(1, eof);
  }

  lemma ChoiceIs(some: bool, storedLen: nat, optLenb: int, staticLenb: int, strategy: nat)
    ensures Chooses(some, storedLen, optLenb, staticLenb, strategy) == StoredForm ==> some
    ensures some && optLenb == staticLenb == storedLen + 5 ==> Chooses(some, storedLen, optLenb, staticLenb, strategy) == StoredForm
  {
  }

  // pending_buf always has room for the block.
  lemma Fits(pos: nat, held: nat, h: Header, toks: seq<Token>, lt: Tree, dt: Tree, bt: Tree, optLen: int, staticLen: int,
      strategy: nat, buf: Option<Bytes>, storedLen: nat, lb: nat, eof: bool)
    requires TreesReady(h, toks, lt, dt, bt, optLen, staticLen) && Sendable(toks) && |toks| < lb && lb >= 128 && held <= 16
    requires buf.Some? ==> |buf.value| == storedLen < 65536
    ensures var o, s := (optLen + 3 + 7) / 8, (staticLen + 3 + 7) / 8;
            held + |FormBits(Chooses(buf.Some?, storedLen, SmallerOf(o, s), s, strategy), pos, h, toks, buf, eof)| <= 32 * lb
  {
    hide HeaderTrees, TreeFor, Covers, HeaderBits, BlockBits, HeaderFits, TypeBits, FixedLit, FixedDist, DynBits,
      StoredBits, Sendable;
    ReadyParts(h, toks, lt, dt, bt, optLen, staticLen);
    DynIs([], h, toks, eof);
    TypeLength(1, eof);
    FixedSize(toks);
    if buf.Some? {
      StoredIs([], PadLen(pos + 3), buf.value, eof);
    }
  }

  lemma FitsStored(pos: nat, held: nat, h: Header, toks: seq<Token>, strategy: nat, buf: Option<Bytes>, storedLen: nat, lb: nat, eof: bool)
    requires held <= 5 && pos % 8 == held % 8 && buf.Some? && |buf.value| == storedLen < 65536 && storedLen + 5 <= 4 * lb
    ensures held + |FormBits(Chooses(buf.Some?, storedLen, storedLen + 5, storedLen + 5, strategy), pos, h, toks, buf, eof)| <= 32 * lb
  {
    hide StoredBits, FixedBits, DynBits, PadLen;
    StoredIs([], PadLen(pos + 3), buf.value, eof);
    ShortPad(pos, held);
  }

  lemma ShortPad(pos: nat, held: nat)
    requires held <= 5 && pos % 8 == held % 8
    ensures held + 3 + PadLen(pos + 3) <= 8
  {
  }

  // The block reads back from where the stream so far ends.
  lemma FormReads(form: Form, s: BitString, hdr: nat, h: Header, toks: seq<Token>, lt: Tree, dt: Tree, bt: Tree, optLen: int, staticLen: int,
      buf: Option<Bytes>, eof: bool, out: Bytes, out2: Bytes)
    requires 8 * hdr <= |s| && Written(s[8 * hdr..], out)
    requires form == StoredForm ==> buf.Some? && |buf.value| < 65536 && out2 == out + buf.value
    requires form != StoredForm ==> Expandable(out, toks) && Expand(out, toks) == out2 && TreesReady(h, toks, lt, dt, bt, optLen, staticLen)
    ensures var r := (s + FormBits(form, |s|, h, toks, buf, eof))[8 * hdr..];
            Reaches(r, START, Between(|r|, eof, out2))
  {
    hide Written, Expandable, Expand, TreesReady, FixedBits, StoredBits, Reaches, At, DynamicBits, Covers, HeaderOk,
      Between, PadLen, FixedLit, FixedDist;
    var bits := FormBits(form, |s|, h, toks, buf, eof);
    var q := s[8 * hdr..];
    assert (s + bits)[8 * hdr..] == q + bits;
    AtEnd(q, bits);
    match form {
      case StoredForm =>
        SamePad(|q| + 3, |s| + 3);
        StoredDecodes(q + bits, |q|, out, PadLen(|q| + 3), buf.value, eof);
      case FixedForm =>
        FixedCovers(toks);
        FixedDecodes(q + bits, |q|, out, toks, eof);
      case DynamicForm =>
        ReadyParts(h, toks, lt, dt, bt, optLen, staticLen);
        ReadyHeader(h, toks, lt, dt, bt, optLen, staticLen);
        DynamicDecodes(q + bits, |q|, out, h.l, h.d, h.cl, h.n, toks, eof);
    }
    BlockAdded(q, bits, out, out2, eof);
  }

  lemma ReadyHeader(h: Header, toks: seq<Token>, lt: Tree, dt: Tree, bt: Tree, optLen: int, staticLen: int)
    requires TreesReady(h, toks, lt, dt, bt, optLen, staticLen)
    ensures HeaderOk(h.l, h.d, h.cl, h.n)
  {
    hide HeaderTrees, TreeFor, Covers, HeaderBits, BlockBits, HeaderOk;
  }

  lemma TailJoin(s: BitString, t: BitString, n: nat)
    requires n <= |s|
    ensures (s + t)[n..] == s[n..] + t
  {
  }

  lemma EndReads(q: BitString, hdr: nat, out: Bytes)
    requires 8 * hdr <= |q| && Reaches(q[8 * hdr..], START, Between(|q[8 * hdr..]|, true, out))
    ensures Finished((q + ToBits(0, PadLen(|q|)))[8 * hdr..], out)
  {
    hide Reaches, ToBits, PadLen, Finished, Between;
    var r, pad := q[8 * hdr..], ToBits(0, PadLen(|q|));
    TailJoin(q, pad, 8 * hdr);
    SamePad(|r|, |q|);
    Ended(r, pad, out);
  }

  // The bits of a block in each form; pos is where it starts.
  function FormBits(form: Form, pos: nat, h: Header, toks: seq<Token>, buf: Option<Bytes>, eof: bool): BitString {
    match form
    case StoredForm => if buf.Some? && |buf.value| < 65536 then StoredBits(PadLen(pos + 3), buf.value, eof) else []
    case FixedForm => FixedBits(toks, eof)
    case DynamicForm => DynBits(h, toks, eof)
  }

  function DynBits(h: Header, toks: seq<Token>, eof: bool): BitString {
    if HeaderShaped(h) then DynamicBits(h.l, h.d, h.cl, h.n, toks, eof) else []
  }

  lemma DynIs(s: BitString, h: Header, toks: seq<Token>, eof: bool)
    requires HeaderShaped(h)
    ensures s + DynBits(h, toks, eof) == s + TypeBits(2, eof) + HeaderBits(h.l, h.d, h.cl, h.n) + BlockBits(h.l, h.d, toks)
    ensures DynBits(h, toks, eof) == TypeBits(2, eof) + HeaderBits(h.l, h.d, h.cl, h.n) + BlockBits(h.l, h.d, toks)
    ensures |DynBits(h, toks, eof)| == 3 + |HeaderBits(h.l, h.d, h.cl, h.n)| + |BlockBits(h.l, h.d, toks)|
  {
    hide HeaderBits, BlockBits;
    TypeLength(2, eof);
  }

  // The padding depends only on how many bits have been sent.
  lemma PadOf(w: Output)
    requires w.Valid()
    ensures PadLen(|w.Sent()|) == PadLen(w.biValid)
  {
    w.SentLength();
  }

  lemma StoredIs(s: BitString, pad: nat, buf: Bytes, eof: bool)
    requires |buf| < 65536
    ensures s + StoredBits(pad, buf, eof) == s + TypeBits(0, eof) + ToBits(0, pad) + StoredTail(buf)
    ensures |StoredBits(pad, buf, eof)| == 3 + pad + 32 + 8 * |buf|
  {
    hide ToBits, BytesToBits;
    TypeLength(0, eof);
  }

  lemma ReadyParts(h: Header, toks: seq<Token>, lt: Tree, dt: Tree, bt: Tree, optLen: int, staticLen: int)
    requires TreesReady(h, toks, lt, dt, bt, optLen, staticLen)
    ensures HeaderShaped(h) && HeaderTrees(h.l, h.d, h.cl, h.n, lt.dl, dt.dl, bt.fc, bt.dl)
    ensures TreeFor(lt.fc, lt.dl, h.l) && TreeFor(dt.fc, dt.dl, h.d) && Covers(h.l, h.d, toks)
    ensures |lt.dl| > 256 && lt.dl[256] == |CodeOf(h.l, 256)|
  {
    hide HeaderTrees, TreeFor, Covers, HeaderBits, BlockBits, HeaderOk;
    HeaderShape(h.l, h.d, h.cl, h.n);
    EndLength(lt.fc, lt.dl, h.l, h.d, toks);
  }

  lemma EndLength(fc: seq<nat>, dl: seq<nat>, l: Lens, d: Lens, toks: seq<Token>)
    requires TreeFor(fc, dl, l) && Covers(l, d, toks)
    ensures |dl| > 256 && |l| > 256 && dl[256] == l[256] == |CodeOf(l, 256)|
  {
    hide RevCode, Usable;
  }

  lemma TypeFits(kind: nat, eof: bool)
    requires kind < 3
    ensures 2 * kind + (if eof then 1 else 0) < Pow2(3)
    ensures |TypeBits(kind, eof)| == 3
  {
    hide Pow2;
    Pow2Values();
  }

  lemma SamePad(a: nat, b: nat)
    requires a % 8 == b % 8
    ensures PadLen(a) == PadLen(b)
  {
  }

  predicate HeaderShaped(h: Header) {
    257 <= |h.l| && 1 <= |h.d| && |h.cl| == 19 && 4 <= h.n <= 19
  }

  // static_dtree: 30 codes of 5 bits.
  function StaticDist(): (d: Lens)
    ensures |d| == 30 && forall s :: 0 <= s < 30 ==> d[s] == 5
  {
    seq(30, _ => 5)
  }

  // The two codes of five bits that are left over make no difference.
  lemma {:induction false} StaticDistCount(n: nat, b: nat)
    requires n <= 30
    ensures Count(StaticDist(), n, b) == if b == 5 then n else 0
  {
    if n > 0 {
      StaticDistCount(n - 1, b);
    }
  }

  lemma {:induction false} StaticDistFirst(b: nat)
    requires b <= 5
    ensures FirstCode(StaticDist(), 30, b) == 0
  {
    if b > 0 {
      StaticDistFirst(b - 1);
      StaticDistCount(30, b - 1);
    }
  }

  lemma {:induction false} StaticDistKraft(n: nat, m: nat)
    requires n <= 30 && m == 5
    ensures KraftAt(StaticDist(), n, m) == n
  {
    if n > 0 {
      StaticDistKraft(n - 1, m);
    }
  }

  lemma StaticDistUsable()
    ensures Usable(StaticDist())
  {
    hide Pow2, KraftAt, Shl;
    var five, ten: nat := 5, 10;
    StaticDistKraft(30, five);
    KraftScale(StaticDist(), 30, five, ten);
    ShlIsProduct(30, ten);
    Pow2Values();
  }

  lemma StaticDistCode(s: nat)
    requires s < 30
    ensures CodeOf(StaticDist(), s) == CodeOf(FixedDist(), s) && RevCode(StaticDist(), s) == RevCode(FixedDist(), s)
  {
    hide MsbBits, Reverse, Count, FirstCode;
    var five: nat := 5;
    StaticDistFirst(five);
    StaticDistCount(s, five);
    NoShorterDist(five);
    FixedDistCounts(s, five);
  }

  lemma {:induction false} StaticDistTokens(l: Lens, toks: seq<Token>)
    ensures TokensBits(l, StaticDist(), toks) == TokensBits(l, FixedDist(), toks)
  {
    hide CodeOf, LenExtra, DistExtra, LitSym, DSym, StaticDist, FixedDist;
    if toks != [] {
      StaticDistTokens(l, toks[..|toks| - 1]);
      var tok := toks[|toks| - 1];
      if tok.dist > 0 {
        StaticDistCode(DSym(tok));
      }
    }
  }

  lemma FixedTrees(t: Static, toks: seq<Token>)
    requires StaticOk(t)
    ensures TreeFor(t.ltree, FixedLit(), FixedLit()) && TreeFor(t.dtree, StaticDist(), StaticDist())
    ensures Covers(FixedLit(), StaticDist(), toks)
    ensures BlockBits(FixedLit(), StaticDist(), toks) == BlockBits(FixedLit(), FixedDist(), toks)
  {
    hide RevCode, DCode, LengthSym, DistCodeOf, LBASE, DBASE, NotOversubscribed, TokensBits, CodeOf;
    FixedUsable();
    StaticDistUsable();
    StaticDistTokens(FixedLit(), toks);
    forall s | 0 <= s < 30
      ensures t.dtree[s] == RevCode(StaticDist(), s)
    {
      StaticDistCode(s);
    }
  }

  // The block type, with the mark of the last block.
  method SendType(w: Output, kind: nat, eof: bool)
    requires kind < 3 && w.Ready(3)
    modifies w`pending, w`biBuf, w`biValid, w.pendingBuf
    ensures w.Valid() && w.pendingOut == 0 && w.Held() == old(w.Held()) + 3
    ensures w.Sent() == old(w.Sent()) + TypeBits(kind, eof) && |TypeBits(kind, eof)| == 3
    ensures forall b: Bytes :: old(w.Laid(b)) ==> w.Laid(b)
  {
    hide ToBits, BytesToBits, Pow2;
    TypeFits(kind, eof);
    w.SendBits(2 * kind + (if eof then 1 else 0), 3);
  }

  // What is left to write of a stored block: its lengths and its bytes.
  function StoredTail(data: Bytes): BitString
    requires |data| < 65536
  {
    ToBits(|data|, 16) + ToBits(65535 - |data|, 16) + BytesToBits(data)
  }

  // The length of a stored block and its complement.
  method PutLengths(w: Output, len: nat)
    requires len < 65536 && w.Valid() && w.pendingOut == 0 && w.biValid == 0 && w.pending + 4 <= w.pendingBuf.Length
    modifies w`pending, w.pendingBuf
    ensures w.Valid() && w.pending == old(w.pending) + 4
    ensures w.Sent() == old(w.Sent()) + ToBits(len, 16) + ToBits(65535 - len, 16)
  {
    hide ToBits, BytesToBits, Pow2;
    ghost var s := w.SentBytes();
    SentWhole(w);
    TwoBytes(s, len);
    TwoBytes(s + [len % 256, len / 256], 65535 - len);
    w.PutShort(len);
    assert w.SentBytes() == s + [len % 256, len / 256];
    w.PutShort(65535 - len);
    assert w.SentBytes() == s + [len % 256, len / 256] + [(65535 - len) % 256, (65535 - len) / 256];
    SentWhole(w);
  }

  method PutBytes(w: Output, buf: Bytes)
    requires w.Valid() && w.pendingOut == 0 && w.biValid == 0 && w.pending + |buf| <= w.pendingBuf.Length
    modifies w`pending, w.pendingBuf
    ensures w.Valid() && w.pending == old(w.pending) + |buf|
    ensures w.Sent() == old(w.Sent()) + BytesToBits(buf)
  {
    hide ToBits, BytesToBits, Pow2;
    ghost var s := w.SentBytes();
    SentWhole(w);
    var i: nat := 0;
    while i < |buf|
      invariant i <= |buf| && w.Valid() && w.pending == old(w.pending) + i && w.SentBytes() == s + buf[..i]
    {
      ghost var before := w.SentBytes();
      w.PutByte(buf[i]);
      assert w.SentBytes() == before + [buf[i]];
      assert buf[..i + 1] == buf[..i] + [buf[i]];
      i := i + 1;
    }
    assert buf[..|buf|] == buf;
    BytesToBitsConcat(s, buf);
    SentWhole(w);
  }

  // copy_block, with header.
  method CopyBlock(w: Output, buf: Bytes)
    requires |buf| < 65536 && w.Ready(0)
    requires PadLen(w.biValid) + w.Held() + 32 + 8 * |buf| <= 8 * w.pendingBuf.Length
    modifies w`pending, w`biBuf, w`biValid, w.pendingBuf
    ensures w.Valid() && w.pendingOut == 0 && w.biValid == 0
    ensures w.Held() == old(w.Held()) + PadLen(old(w.biValid)) + 32 + 8 * |buf|
    ensures w.Sent() == old(w.Sent()) + ToBits(0, PadLen(old(w.biValid))) + StoredTail(buf)
  {
    hide ToBits, BytesToBits, PadLen, Pow2;
    w.BiWindup();
    PutLengths(w, |buf|);
    PutBytes(w, buf);
  }

  lemma SentWhole(w: Output)
    requires w.Valid() && w.biValid == 0
    ensures w.Sent() == BytesToBits(w.SentBytes())
  {
    NoBits(w.biBuf);
  }

  // The literal and the distance tree. The frequencies in lfc and dfc give way to the codes.
  method BuildPair(heap: array<nat>, depth: seq<nat>, lfc0: seq<nat>, ldl0: seq<nat>, dfc0: seq<nat>, ddl0: seq<nat>,
      optLen0: int, staticLen0: int, ghost toks: seq<Token>)
    returns (lfc: seq<nat>, ldl: seq<nat>, dfc: seq<nat>, ddl: seq<nat>, lMax: nat, dMax: nat, optLen: int, staticLen: int, ghost l: Lens, ghost d: Lens)
    requires heap.Length == |depth| == |ldl0| == |ddl0| == HEAP_SIZE && Counted(toks, lfc0, dfc0) && Sendable(toks) && |toks| < 32768
    modifies heap
    ensures |lfc| == |ldl| == |dfc| == |ddl| == HEAP_SIZE && lMax < 286 && dMax < 30
    ensures l == ldl[..lMax + 1] && d == ddl[..dMax + 1] && LensOk(l) && Complete(l) && LensOk(d) && Complete(d)
    ensures Covers(l, d, toks)
    ensures TreeFor(lfc, ldl[..286], ldl[..286][..lMax + 1]) && TreeFor(dfc, ddl[..30], ddl[..30][..dMax + 1])
    ensures optLen == optLen0 + |BlockBits(l, d, toks)|
    ensures staticLen == staticLen0 + |BlockBits(FixedLit(), FixedDist(), toks)|
  {
    hide Built, FreqTotal, Sendable, Covers, BlockBits, TreeFor, OptimalLengths, Frequent, LDesc, DDesc, LensOk,
      Complete, Counted, FixedLit, FixedDist, Usable, Agrees, HasCode;
    DescIs();
    CountedTotals(toks, lfc0, dfc0);
    CountedSizes(toks, lfc0, dfc0);
    var overflow;
    lfc, ldl, lMax, optLen, staticLen, overflow := BuildTree(LDesc(), heap, depth, lfc0, ldl0, optLen0, staticLen0);
    ghost var lopt, lstat := optLen - optLen0, staticLen - staticLen0;
    ghost var optLen1, staticLen1 := optLen, staticLen;
    dfc, ddl, dMax, optLen, staticLen, overflow := BuildTree(DDesc(), heap, depth, dfc0, ddl0, optLen, staticLen);
    PairBuilt(toks, lfc0, dfc0, lfc, dfc, ldl, ddl, lMax, dMax, lopt, optLen - optLen1, lstat, staticLen - staticLen1);
    l, d := ldl[..lMax + 1], ddl[..dMax + 1];
  }

  lemma PairBuilt(toks: seq<Token>, lf: seq<nat>, df: seq<nat>, lfc: seq<nat>, dfc: seq<nat>, ldl: seq<nat>, ddl: seq<nat>,
      lMax: nat, dMax: nat, lopt: int, dopt: int, lstat: int, dstat: int)
    requires Counted(toks, lf, df) && Sendable(toks) && |ldl| == |ddl| == HEAP_SIZE
    requires Built(LDesc(), lf, lfc, ldl[..286], lMax, lopt, lstat) && Built(DDesc(), df, dfc, ddl[..30], dMax, dopt, dstat)
    ensures |lfc| == |dfc| == HEAP_SIZE && lMax < 286 && dMax < 30
    ensures var l, d := ldl[..lMax + 1], ddl[..dMax + 1];
            && l == ldl[..286][..lMax + 1] && d == ddl[..30][..dMax + 1]
            && LensOk(l) && Complete(l) && LensOk(d) && Complete(d) && Covers(l, d, toks)
            && TreeFor(lfc, ldl[..286], l) && TreeFor(dfc, ddl[..30], d)
            && lopt + dopt == |BlockBits(l, d, toks)|
    ensures lstat + dstat == |BlockBits(FixedLit(), FixedDist(), toks)|
  {
    hide Built, Sendable, Covers, BlockBits, TreeFor, LDesc, DDesc, LensOk, Complete, Counted, FixedLit, FixedDist,
      Usable, Agrees, HasCode;
    CountedSizes(toks, lf, df);
    TreesCover(toks, lf, df, lfc, dfc, ldl[..286], ddl[..30], lMax, dMax, lopt, dopt, lstat, dstat);
    CutTree(LDesc(), lf, lfc, ldl[..286], lMax, lopt, lstat);
    CutTree(DDesc(), df, dfc, ddl[..30], dMax, dopt, dstat);
    BuiltSizes(LDesc(), lf, lfc, ldl[..286], lMax, lopt, lstat);
    BuiltSizes(DDesc(), df, dfc, ddl[..30], dMax, dopt, dstat);
    assert ldl[..lMax + 1] == ldl[..286][..lMax + 1];
    assert ddl[..dMax + 1] == ddl[..30][..dMax + 1];
  }

  lemma DescIs()
    ensures DescOk(LDesc()) && LDesc().elems == 286 && DescOk(DDesc()) && DDesc().elems == 30
  {
    DescsOk();
  }

  lemma CountedSizes(toks: seq<Token>, lfc: seq<nat>, dfc: seq<nat>)
    requires Counted(toks, lfc, dfc)
    ensures |lfc| == |dfc| == HEAP_SIZE
  {
  }

  lemma EndCoded(l: Lens, d: Lens, toks: seq<Token>)
    requires Covers(l, d, toks)
    ensures |l| >= 257 && l[256] != 0
  {
    hide Usable;
  }

  // Neither cutting a tree off nor the guard behind it changes its codes.
  lemma GuardedFor(fc: seq<nat>, dl: seq<nat>, maxCode: nat, elems: nat)
    requires maxCode < elems <= |dl| && maxCode + 1 < |dl| && TreeFor(fc, dl[..elems], dl[..elems][..maxCode + 1])
    ensures TreeFor(fc, dl[maxCode + 1 := GUARD], dl[..maxCode + 1])
  {
    hide RevCode;
    var l := dl[..maxCode + 1];
    assert l == dl[..elems][..maxCode + 1];
    forall s: nat | HasCode(l, s)
      ensures dl[maxCode + 1 := GUARD][s] == l[s] == dl[..elems][s]
    {
    }
  }

  lemma AllReady(h: Header, toks: seq<Token>, lt: Tree, dt: Tree, bt: Tree, optLen: int, staticLen: int)
    requires HeaderTrees(h.l, h.d, h.cl, h.n, lt.dl, dt.dl, bt.fc, bt.dl)
    requires TreeFor(lt.fc, lt.dl, h.l) && TreeFor(dt.fc, dt.dl, h.d) && Covers(h.l, h.d, toks)
    requires optLen == |HeaderBits(h.l, h.d, h.cl, h.n)| + |BlockBits(h.l, h.d, toks)|
    requires staticLen == |BlockBits(FixedLit(), FixedDist(), toks)|
    ensures TreesReady(h, toks, lt, dt, bt, optLen, staticLen)
  {
    hide HeaderOk, Covers, TreeFor, HeaderBits, BlockBits, Guarded;
    HeaderSizes(h.l, h.d, h.cl, h.n, lt.dl, dt.dl, bt.fc, bt.dl);
  }

  lemma FreshCounts(lfc: seq<nat>, dfc: seq<nat>)
    requires |lfc| == |dfc| == HEAP_SIZE && (forall s :: 0 <= s < 286 ==> lfc[s] == if s == 256 then 1 else 0)
    requires forall s :: 0 <= s < 30 ==> dfc[s] == 0
    ensures Counted([], lfc, dfc)
  {
  }

  lemma TallyStep(toks: seq<Token>, lfc: seq<nat>, dfc: seq<nat>, tok: Token)
    requires Counted(toks, lfc, dfc) && |toks| < 32768
    ensures lfc[LitSym(tok)] < 65535 && Counted(toks + [tok], Plus(lfc, LitSym(tok)), if tok.dist == 0 then dfc else Plus(dfc, DSym(tok)))
    ensures tok.dist > 0 ==> dfc[DSym(tok)] < 65535
  {
    hide LitSym, DSym;
    assert (toks + [tok])[..|toks|] == toks;
    FreqBounds(toks);
  }

  lemma TallyEntry(t: Static, tok: Token)
    requires StaticOk(t) && tok.dist <= 32768
    ensures tok.dist == 0 ==> LitSym(tok) == tok.lc
    ensures tok.dist > 0 ==> |t.lengthCode| == 256 && |t.distCode| == 512 && t.lengthCode[tok.lc] + 257 == LitSym(tok) && DCode(t, tok.dist - 1) == DSym(tok)
  {
    hide RevCode, LengthSym, DistCodeOf, DCode, LBASE, DBASE;
  }
}
