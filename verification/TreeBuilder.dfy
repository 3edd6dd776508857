/** `gen_bitlen` and `build_tree`: from frequencies to a complete set of code lengths and their codes. */
module TreeBuilder {
  import opened Bits
  import opened Canonical
  import opened HuffmanOptimal
  import opened HuffmanTree
  import opened BitLengths
  import opened GenLengths
  import opened GrowTree
  import opened InitHeap
  import opened CodeGeneration

  // ----- gen_bitlen ------------------------------------------------------------------------------------

  // The lengths are a complete code on the leaves, counted by bl.
  ghost predicate CompleteOn(desc: TreeDesc, acts: seq<set<nat>>, dl: seq<nat>, bl: seq<nat>)
    requires |acts| > 0
  {
    && LeafLengths(desc, acts, dl)
    && CountsOf(bl, dl[..desc.elems])
    && KraftAt(dl[..desc.elems], desc.elems, desc.maxLength) == Pow2(desc.maxLength)
  }

  lemma LensAreLengths(desc: TreeDesc, acts: seq<set<nat>>, dl: seq<nat>, lens: seq<nat>, g: seq<nat>)
    requires |acts| > 0 && LensAre(desc, acts, lens, g) && |dl| == HEAP_SIZE && DescOk(desc) && dl[..desc.elems] == lens
    requires forall x :: x in acts[0] ==> x < desc.elems && 1 <= g[x] <= desc.maxLength
    ensures LeafLengths(desc, acts, dl)
    ensures forall x :: x in acts[0] ==> dl[x] == g[x]
  {
    forall x: nat | x < desc.elems
      ensures dl[x] == lens[x]
    {
      assert dl[..desc.elems][x] == dl[x];
    }
  }

  // Lengths above the greatest one allowed are not counted.
  lemma NoLonger(desc: TreeDesc, bl: seq<nat>, lens: seq<nat>)
    requires CountsOf(bl, lens) && forall x :: 0 <= x < |lens| ==> lens[x] <= desc.maxLength
    ensures forall b :: desc.maxLength < b <= MAX_BITS ==> bl[b] == 0
  {
    forall b: nat | desc.maxLength < b
      ensures Count(lens, |lens|, b) == 0
    {
      CountAbsent(lens, |lens|, b);
    }
  }

  lemma {:induction false} CountAbsent(lens: seq<nat>, n: nat, b: nat)
    requires n <= |lens| && forall x :: 0 <= x < |lens| ==> lens[x] != b
    ensures Count(lens, n, b) == 0
  {
    if n > 0 {
      CountAbsent(lens, n - 1, b);
    }
  }

  // If nothing was cut off, the lengths are the depths, and no prefix code does better.
  lemma UncutOptimal(desc: TreeDesc, acts: seq<set<nat>>, h: seq<nat>, w: seq<nat>, dl0: seq<nat>, q: nat, dl: seq<nat>)
    requires DescOk(desc) && Grown(desc, acts, h, w, dl0, q) && |dl| == HEAP_SIZE
    requires var g := Depths(dl0, desc.elems + q - 1, desc.maxLength);
             && Over(g, desc.elems, 0, q, desc.maxLength) == 0
             && forall x :: x in acts[0] ==> x < |dl| && dl[x] == g[x]
    ensures LowerBound(acts[0], w, Cost(acts[0], w, dl))
  {
    var g := Depths(dl0, desc.elems + q - 1, desc.maxLength);
    DepthsOneBelow(acts, h, w, dl0, desc.elems, q, desc.maxLength);
    DepthsCost(acts, h, w, g, desc.elems, q, 0, desc.maxLength);
    MergesOptimal(acts, h, w, desc.elems, q, 0);
    SumAgree(acts[0], acts[0], Products(w, g), Products(w, dl), |w|);
  }

  lemma LensAreTo(desc: TreeDesc, acts: seq<set<nat>>, h: seq<nat>, w: seq<nat>, dl0: seq<nat>, q: nat, lens: seq<nat>)
    requires Grown(desc, acts, h, w, dl0, q)
    requires LensAre(desc, acts, lens, Depths(dl0, desc.elems + q - 1, desc.maxLength))
    ensures LeavesTo(h, lens, Depths(dl0, desc.elems + q - 1, desc.maxLength), desc.elems, Top(q), HEAP_SIZE)
  {
    LeafPositions(desc, acts, h, w, dl0, q);
    assert h[Top(q)..HEAP_SIZE] == h[Top(q)..];
  }

  lemma SumOfLeaves(desc: TreeDesc, acts: seq<set<nat>>, h: seq<nat>, w: seq<nat>, dl0: seq<nat>, q: nat, lens: seq<nat>, bl: seq<nat>)
    requires DescOk(desc) && Grown(desc, acts, h, w, dl0, q)
    requires LensAre(desc, acts, lens, Depths(dl0, desc.elems + q - 1, desc.maxLength))
    requires forall x :: x in acts[0] ==> 1 <= Depths(dl0, desc.elems + q - 1, desc.maxLength)[x]
    requires CountsOf(bl, lens)
    ensures CountsSum(bl, desc.maxLength) == LeafCount(h, desc.elems, Top(q), HEAP_SIZE)
  {
    hide History, Dads, Count;
    var g := Depths(dl0, desc.elems + q - 1, desc.maxLength);
    var top := Top(q);
    LeafPositions(desc, acts, h, w, dl0, q);
    LensAreTo(desc, acts, h, w, dl0, q, lens);
    forall i, j | top <= i < j < HEAP_SIZE
      ensures h[i] != h[j]
    {
      Distinct(desc, acts, h, w, dl0, q, i, j);
    }
    forall i | top <= i < HEAP_SIZE && h[i] < desc.elems
      ensures 1 <= g[h[i]] <= desc.maxLength
    {
      assert h[top..][i - top] == h[i];
    }
    LeavesCoded(h, lens, g, desc.elems, top, HEAP_SIZE, desc.maxLength);
    CountsSumBound(bl, lens, desc.maxLength);
  }

  // The static cost depends only on which symbols have codes.
  lemma {:induction false} StaticBitsAgree(freq: seq<nat>, lens: seq<nat>, lens': seq<nat>, desc: TreeDesc, n: nat)
    requires n <= |lens| == |lens'| && n <= |freq| && n <= desc.base + |desc.extra| && (desc.stree == [] || n <= |desc.stree|)
    requires forall x :: 0 <= x < n ==> (lens[x] > 0 <==> lens'[x] > 0)
    ensures StaticBits(freq, lens, desc, n) == StaticBits(freq, lens', desc, n)
  {
    if n > 0 {
      StaticBitsAgree(freq, lens, lens', desc, n - 1);
    }
  }

  // What the first pass leaves behind.
  ghost predicate Passed(desc: TreeDesc, acts: seq<set<nat>>, w: seq<nat>, g: seq<nat>, over: nat, h: seq<nat>, top: nat, dl: seq<nat>, bl: seq<nat>, lens: seq<nat>)
  {
    && |acts| > 0 && DescOk(desc) && |bl| == MAX_BITS + 1 && top <= |h| == HEAP_SIZE && |dl| == |w| == HEAP_SIZE && desc.elems <= HEAP_SIZE
    && dl[..desc.elems] == lens && CountsOf(bl, lens)
    && LeafLengths(desc, acts, dl)
    && (forall x :: x in acts[0] ==> x < |dl| && x < |g| && dl[x] == g[x])
    && (forall b :: desc.maxLength < b <= MAX_BITS ==> bl[b] == 0)
    && KraftAt(lens, desc.elems, desc.maxLength) == CountsKraft(bl, desc.maxLength) == Pow2(desc.maxLength) + over
    && (over > 0 ==> bl[desc.maxLength] > over)
    && CountsSum(bl, desc.maxLength) <= Pow2(desc.maxLength)
    && CountsSum(bl, desc.maxLength) == LeafCount(h, desc.elems, top, HEAP_SIZE)
  }

  lemma GrownSize(desc: TreeDesc, acts: seq<set<nat>>, h: seq<nat>, w: seq<nat>, dl: seq<nat>, q: nat)
    requires Grown(desc, acts, h, w, dl, q)
    ensures |acts| == q + 1 && (forall x :: x in acts[0] ==> x < desc.elems) && |h| == HEAP_SIZE
  {
  }

  lemma AfterPass(desc: TreeDesc, acts: seq<set<nat>>, h: seq<nat>, w: seq<nat>, dl0: seq<nat>, q: nat,
      dl: seq<nat>, bl: seq<nat>, lens: seq<nat>, overflow: nat, optLen: int, staticLen: int)
    requires DescOk(desc) && Grown(desc, acts, h, w, dl0, q)
    requires FirstDone(desc, acts, h, w, dl0, q, dl, HEAP_SIZE, lens, overflow)
    requires Tallied(desc, w, lens, bl, optLen, staticLen)
    ensures var g := Depths(dl0, desc.elems + q - 1, desc.maxLength);
            var over := Over(g, desc.elems, 0, q, desc.maxLength);
            overflow == 2 * over && Passed(desc, acts, w, g, over, h, Top(q), dl, bl, lens)
  {
    hide Visited, LeavesTo, History, Dads, Count, CodedBits, StaticBits, KraftAt, CountsKraft, CountsSum, LenOf;
    var g := Depths(dl0, desc.elems + q - 1, desc.maxLength);
    GrownSize(desc, acts, h, w, dl0, q);
    AfterFirst(desc, acts, h, w, dl0, q, dl, lens, overflow);
    ReadyForRepair(desc, acts, h, w, dl0, q, lens, bl);
    SumOfLeaves(desc, acts, h, w, dl0, q, lens, bl);
    LensAreLengths(desc, acts, dl, lens, g);
    NoLonger(desc, bl, lens);
  }

  lemma CutRepaired(desc: TreeDesc, acts: seq<set<nat>>, dl: seq<nat>, bl: seq<nat>)
    requires |acts| > 0 && LeafLengths(desc, acts, dl) && CountsOf(bl, dl[..desc.elems]) && desc.maxLength <= MAX_BITS
    requires CountsKraft(bl, desc.maxLength) == Pow2(desc.maxLength)
    ensures CompleteOn(desc, acts, dl, bl)
  {
    hide Count;
    CountsKraftIs(bl, dl[..desc.elems], desc.maxLength);
    KraftIsEndCode(dl[..desc.elems], desc.elems, desc.maxLength);
  }

  lemma SameLeaves(desc: TreeDesc, acts: seq<set<nat>>, w: seq<nat>, dl: seq<nat>, dl': seq<nat>)
    requires |acts| > 0 && DescOk(desc) && |w| == HEAP_SIZE && LeafLengths(desc, acts, dl) && LeafLengths(desc, acts, dl')
    ensures StaticBits(w, dl[..desc.elems], desc, desc.elems) == StaticBits(w, dl'[..desc.elems], desc, desc.elems)
  {
    StaticBitsAgree(w, dl[..desc.elems], dl'[..desc.elems], desc, desc.elems);
  }

  method GenBitlen(desc: TreeDesc, heap: array<nat>, heapMax: nat, w: seq<nat>, dl0: seq<nat>, maxCode: nat,
      optLen0: int, staticLen0: int, ghost acts: seq<set<nat>>, ghost q: nat)
    returns (dl: seq<nat>, bl: seq<nat>, overflow: nat, optLen: int, staticLen: int)
    requires DescOk(desc) && Grown(desc, acts, heap[..], w, dl0, q) && heapMax == Top(q)
    requires maxCode < desc.elems && forall x :: x in acts[0] ==> x <= maxCode
    ensures |acts| > 0 && CompleteOn(desc, acts, dl, bl) && |bl| > 0 && bl[0] == 0
    ensures optLen - optLen0 == CodedBits(w, dl[..desc.elems], desc, desc.elems)
    ensures staticLen - staticLen0 == StaticBits(w, dl[..desc.elems], desc, desc.elems)
    ensures overflow == 2 * Over(Depths(dl0, desc.elems + q - 1, desc.maxLength), desc.elems, 0, q, desc.maxLength)
    ensures overflow == 0 ==> LowerBound(acts[0], w, Cost(acts[0], w, dl))
    ensures overflow == 0 ==> forall x :: x in acts[0] ==> x < |dl| && dl[x] == Depths(dl0, desc.elems + q - 1, desc.maxLength)[x]
  {
    hide Grown, FirstDone, LowerBound, Cost, Over, LenOf, KraftAt, LeafCount, CountsKraft, CountsSum, CountsOf,
      CodedBits, StaticBits, LeafLengths, Count;
    ghost var lens;
    dl, bl, overflow, optLen, staticLen, lens := FirstPass(desc, heap, heapMax, w, dl0, maxCode, optLen0, staticLen0, acts, q);
    AfterPass(desc, acts, heap[..], w, dl0, q, dl, bl, lens, overflow, optLen - optLen0, staticLen - staticLen0);
    if overflow == 0 {
      UncutOptimal(desc, acts, heap[..], w, dl0, q, dl);
      return;
    }
    bl := Repair(bl, desc.maxLength, overflow);
    ghost var dl1 := dl;
    dl, optLen := SecondPass(desc, heap, heapMax, w, dl, maxCode, bl, optLen, acts, q, dl0);
    CutRepaired(desc, acts, dl, bl);
    SameLeaves(desc, acts, w, dl1, dl);
  }

  // ----- build_tree --------------------------------------------------------------------------------------

  // What the caller of build_tree gets: a complete code within the length limit that gives every used
  // symbol a code, and no other one if there are two; the codes themselves; and the exact costs of a
  // block with these frequencies.
  ghost predicate Built(desc: TreeDesc, freq: seq<nat>, fc: seq<nat>, lens: Lens, maxCode: nat, opt: int, stat: int) {
    && DescOk(desc) && |lens| == desc.elems <= |freq| == |fc|
    && LensOk(lens) && Complete(lens)
    && (forall x :: 0 <= x < |lens| ==> lens[x] <= desc.maxLength)
    && (forall x :: 0 <= x < |lens| && freq[x] != 0 ==> lens[x] != 0)
    && (forall x :: 0 <= x < |lens| && lens[x] != 0 ==> freq[x] != 0 || |Frequent(freq, desc.elems)| < 2)
    && maxCode < |lens| && lens[maxCode] != 0 && (forall x :: maxCode < x < |lens| ==> lens[x] == 0)
    && (forall x :: Coded(lens, x) ==> fc[x] == RevCode(lens, x))
    && opt == CodedBits(freq, lens, desc, |lens|)
    && stat == StaticBits(freq, lens, desc, |lens|)
  }

  lemma CompleteLengths(desc: TreeDesc, acts: seq<set<nat>>, dl: seq<nat>, bl: seq<nat>)
    requires |acts| > 0 && DescOk(desc) && CompleteOn(desc, acts, dl, bl)
    ensures LensOk(dl[..desc.elems]) && Complete(dl[..desc.elems])
    ensures forall x :: 0 <= x < desc.elems ==> dl[..desc.elems][x] <= desc.maxLength
    ensures forall x: nat :: x < desc.elems ==> (dl[..desc.elems][x] != 0 <==> x in acts[0])
  {
    hide Pow2, Count, KraftAt;
    var d: nat := MAX_BITS - desc.maxLength;
    KraftScale(dl[..desc.elems], desc.elems, desc.maxLength, d);
    ShlPow2(desc.maxLength, d);
  }

  lemma NothingElse(s: set<nat>, n: nat, m: nat, p: nat)
    requires p !in s && s - {n, m} + {p} == {p}
    ensures forall x :: x in s ==> x == n || x == m
  {
    assert s - {n, m} <= s - {n, m} + {p};
    assert s - {n, m} == {};
    forall x | x in s
      ensures x == n || x == m
    {
      assert x !in s - {n, m};
    }
  }

  // With two leaves both codes have one bit, and nothing is cut off.
  lemma TwoLeaves(desc: TreeDesc, acts: seq<set<nat>>, h: seq<nat>, w: seq<nat>, dl0: seq<nat>)
    requires DescOk(desc) && Grown(desc, acts, h, w, dl0, 1)
    ensures Over(Depths(dl0, desc.elems, desc.maxLength), desc.elems, 0, 1, desc.maxLength) == 0
    ensures forall x :: x in acts[0] ==> x < |dl0| && Depths(dl0, desc.elems, desc.maxLength)[x] == 1
  {
    var g := Depths(dl0, desc.elems, desc.maxLength);
    DepthsOneBelow(acts, h, w, dl0, desc.elems, 1, desc.maxLength);
    assert Merged(acts[0], acts[1], First(h, 0), Second(h, 0), desc.elems, w);
    NothingElse(acts[0], First(h, 0), Second(h, 0), desc.elems);
  }

  // The bits taken off for forced symbols have come back.
  lemma ForcedCosts(desc: TreeDesc, freq: seq<nat>, w: seq<nat>, s: set<nat>, forced: set<nat>, opt: int, stat: int, lens: Lens)
    requires Forced(desc, freq, w, s, forced, opt, stat) && |lens| == desc.elems
    requires forall x :: x in forced && x < |lens| ==> lens[x] == 1
    ensures CodedBits(w, lens, desc, desc.elems) + opt == CodedBits(freq, lens, desc, desc.elems)
    ensures StaticBits(w, lens, desc, desc.elems) + stat == StaticBits(freq, lens, desc, desc.elems)
  {
    hide CodedBits, StaticBits, FreqTotal;
  }

  lemma {:induction false} BitsAgree(desc: TreeDesc, w: seq<nat>, w': seq<nat>, lens: Lens, n: nat)
    requires DescOk(desc) && n <= desc.elems == |lens| && n <= |w| && n <= |w'|
    requires forall x :: 0 <= x < n ==> w[x] == w'[x]
    ensures CodedBits(w, lens, desc, n) == CodedBits(w', lens, desc, n)
    ensures StaticBits(w, lens, desc, n) == StaticBits(w', lens, desc, n)
  {
    if n > 0 {
      BitsAgree(desc, w, w', lens, n - 1);
    }
  }

  lemma LowerBoundAgree(s: set<nat>, w: seq<nat>, w': seq<nat>, c: nat)
    requires |w| == |w'| && LowerBound(s, w, c) && forall x :: x in s && x < |w| ==> w[x] == w'[x]
    ensures LowerBound(s, w', c)
  {
    forall l: seq<nat>, m: nat | |l| == |w'| && Feasible(s, l, m)
      ensures c <= Cost(s, w', l)
    {
      SumAgree(s, s, Products(w, l), Products(w', l), |w|);
    }
  }

  // The lengths are optimal: no prefix code on the used symbols needs fewer bits.
  ghost predicate OptimalLengths(desc: TreeDesc, freq: seq<nat>, dl: seq<nat>) {
    && desc.elems <= |freq| == |dl|
    && LowerBound(Frequent(freq, desc.elems), freq, Cost(Frequent(freq, desc.elems), freq, dl))
  }

  lemma OptimalFor(desc: TreeDesc, freq: seq<nat>, w1: seq<nat>, w: seq<nat>, s: set<nat>, forced: set<nat>, opt: int, stat: int, dl: seq<nat>)
    requires Forced(desc, freq, w1, s, forced, opt, stat) && |Frequent(freq, desc.elems)| >= 2
    requires |w| == |w1| == |dl| && forall x :: 0 <= x < |w| && x < desc.elems ==> w[x] == w1[x]
    requires LowerBound(s, w, Cost(s, w, dl))
    ensures OptimalLengths(desc, freq, dl)
  {
    hide CodedBits, StaticBits, FreqTotal, LowerBound;
    assert forced == {};
    assert s == Frequent(freq, desc.elems);
    LowerBoundAgree(s, w, freq, Cost(s, w, dl));
    SumAgree(s, s, Products(w, dl), Products(freq, dl), |w|);
  }

  lemma BuiltFrom(desc: TreeDesc, freq: seq<nat>, w1: seq<nat>, w: seq<nat>, s: set<nat>, forced: set<nat>, acts: seq<set<nat>>,
      dl: seq<nat>, bl: seq<nat>, fc: seq<nat>, maxCode: nat, opt1: int, stat1: int, opt: int, stat: int)
    requires Forced(desc, freq, w1, s, forced, opt1, stat1) && Largest(s, maxCode) && maxCode < desc.elems
    requires |w| == |w1| && forall x :: 0 <= x < |w| && x < desc.elems ==> w[x] == w1[x]
    requires |acts| > 0 && acts[0] == s && DescOk(desc) && CompleteOn(desc, acts, dl, bl)
    requires CodesSet(w, fc, dl[..desc.elems], desc.elems)
    requires forced != {} ==> forall x :: x in s ==> x < |dl| && dl[x] == 1
    requires opt - opt1 == CodedBits(w, dl[..desc.elems], desc, desc.elems)
    requires stat - stat1 == StaticBits(w, dl[..desc.elems], desc, desc.elems)
    ensures Built(desc, freq, fc, dl[..desc.elems], maxCode, opt, stat)
  {
    hide CodedBits, StaticBits, FreqTotal, Balanced, Complete, RevCode, CompleteOn;
    CompleteShape(desc, acts, dl, bl);
    CompleteLengths(desc, acts, dl, bl);
    var lens := dl[..desc.elems];
    ForcedCosts(desc, freq, w1, s, forced, opt1, stat1, lens);
    BitsAgree(desc, w, w1, lens, desc.elems);
    assert lens[maxCode] != 0;
    ForcedSizes(desc, freq, w1, s, forced, opt1, stat1);
  }

  lemma ForcedSizes(desc: TreeDesc, freq: seq<nat>, w: seq<nat>, s: set<nat>, forced: set<nat>, opt: int, stat: int)
    requires Forced(desc, freq, w, s, forced, opt, stat)
    ensures |freq| == |w| == HEAP_SIZE
    ensures forall x: nat :: x < desc.elems && freq[x] != 0 ==> x in s
    ensures forced != {} || |Frequent(freq, desc.elems)| < 2 ==> |s| <= 2
    ensures forced <= s
    ensures forall x :: x in s ==> x < |freq| && (freq[x] != 0 || |Frequent(freq, desc.elems)| < 2)
  {
    hide CodedBits, StaticBits, FreqTotal;
    BalancedDesc(desc, freq, w, forced, opt, stat);
  }

  method BuildTree(desc: TreeDesc, heap: array<nat>, depth0: seq<nat>, freq: seq<nat>, dl0: seq<nat>, optLen0: int, staticLen0: int)
    returns (fc: seq<nat>, dl: seq<nat>, maxCode: nat, optLen: int, staticLen: int, overflow: nat)
    requires DescOk(desc) && heap.Length == |depth0| == |freq| == |dl0| == HEAP_SIZE
    requires FreqTotal(freq, desc.elems) < 65534
    modifies heap
    ensures |dl| == HEAP_SIZE && Built(desc, freq, fc, dl[..desc.elems], maxCode, optLen - optLen0, staticLen - staticLen0)
    ensures overflow == 0 ==> (OptimalLengths(desc, freq, dl) <==> |Frequent(freq, desc.elems)| != 1)
    ensures |Frequent(freq, desc.elems)| < 2 ==> overflow == 0
  {
    hide Grown, Growing, FreqTotal, Forced, CodedBits, StaticBits, CodesSet, LowerBound, CompleteOn, Built, Largest,
      Over, SumOver, OptimalLengths, Frequent, LenOf, DescOk, Pow2, Kraft, CountsOf, Cost, Coded, LensOk;
    var heapLen, w1, depth;
    ghost var s, forced;
    heapLen, maxCode, w1, dl, depth, optLen, staticLen, s, forced := StartTree(desc, heap, freq, dl0, depth0, optLen0, staticLen0);
    ghost var opt1, stat1 := optLen - optLen0, staticLen - staticLen0;
    ForcedSizes(desc, freq, w1, s, forced, opt1, stat1);
    LargestBounds(s, maxCode);
    var heapMax, w;
    ghost var acts, q;
    heapMax, w, dl, acts, q := MergeAll(desc, heap, heapLen, w1, dl, depth, s, SumOver(s, w1, HEAP_SIZE));
    ghost var dlMerged := dl;
    var bl;
    dl, bl, overflow, optLen, staticLen := GenBitlen(desc, heap, heapMax, w, dl, maxCode, optLen, staticLen, acts, q);
    if q == 1 {
      TwoLeaves(desc, acts, heap[..], w, dlMerged);
    }
    CompleteLengths(desc, acts, dl, bl);
    CompleteShape(desc, acts, dl, bl);
    fc := GenCodes(w, dl[..desc.elems], maxCode, bl);
    BuiltFrom(desc, freq, w1, w, s, forced, acts, dl, bl, fc, maxCode, opt1, stat1, optLen - optLen0, staticLen - staticLen0);
    if |Frequent(freq, desc.elems)| >= 2 && overflow == 0 {
      OptimalFor(desc, freq, w1, w, s, forced, opt1, stat1, dl);
    } else if |Frequent(freq, desc.elems)| == 1 {
      OneSymbol(desc, freq, fc, dl, maxCode, optLen - optLen0, staticLen - staticLen0);
    } else if |Frequent(freq, desc.elems)| == 0 {
      NoSymbols(desc, freq, dl);
    }
  }

  lemma NoSymbols(desc: TreeDesc, freq: seq<nat>, dl: seq<nat>)
    requires desc.elems <= |freq| == |dl| && |Frequent(freq, desc.elems)| == 0
    ensures OptimalLengths(desc, freq, dl)
  {
    assert Frequent(freq, desc.elems) == {};
    SumEmpty(Products(freq, dl), |freq|);
  }

  // A single used symbol gets one bit, while the empty word would do.
  lemma OneSymbol(desc: TreeDesc, freq: seq<nat>, fc: seq<nat>, dl: seq<nat>, maxCode: nat, opt: int, stat: int)
    requires desc.elems <= |freq| == |dl| && |Frequent(freq, desc.elems)| == 1
    requires Built(desc, freq, fc, dl[..desc.elems], maxCode, opt, stat)
    ensures !OptimalLengths(desc, freq, dl)
  {
    hide Complete, CodedBits, StaticBits, RevCode;
    var s := Frequent(freq, desc.elems);
    var x: nat :| x in s;
    assert |s - {x}| == 0;
    assert s == {x};
    var none := seq(|freq|, _ => 0);
    SingleSum(Products(freq, dl), x);
    SingleSum(Products(freq, none), x);
    SingleSum(Shares(none, 0), x);
    assert dl[..desc.elems][x] == dl[x] >= 1;
    Positive(freq[x], dl[x]);
    assert Pow2(0) == 1;
    assert Feasible(s, none, 0);
    assert Cost(s, freq, none) == 0 < Cost(s, freq, dl);
  }

  lemma Positive(a: nat, b: nat)
    requires a >= 1 && b >= 1
    ensures a * b >= 1
  {
    assert a * b >= a;
  }

  lemma LargestBounds(s: set<nat>, maxCode: nat)
    requires Largest(s, maxCode)
    ensures forall x :: x in s ==> x <= maxCode
  {
  }

  lemma CompleteShape(desc: TreeDesc, acts: seq<set<nat>>, dl: seq<nat>, bl: seq<nat>)
    requires |acts| > 0 && CompleteOn(desc, acts, dl, bl)
    ensures |dl| == HEAP_SIZE && desc.elems <= HEAP_SIZE && CountsOf(bl, dl[..desc.elems])
  {
  }
}
