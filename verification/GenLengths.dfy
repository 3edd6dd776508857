/** The two passes of `gen_bitlen` over the sorted nodes of the tree. */
module GenLengths {
  import opened Bits
  import opened Canonical
  import opened HuffmanOptimal
  import opened HuffmanTree
  import opened BitLengths

  // heap_max once the tree is complete.
  function Top(q: nat): nat
    requires 2 * q < HEAP_SIZE
  {
    HEAP_SIZE - 1 - 2 * q
  }

  // The finished tree: q merges made the root out of the leaves acts[0].
  ghost predicate Grown(desc: TreeDesc, acts: seq<set<nat>>, h: seq<nat>, w: seq<nat>, dl: seq<nat>, q: nat) {
    && 1 <= q && 2 * q < HEAP_SIZE && desc.elems + q <= HEAP_SIZE
    && |w| == |dl| == HEAP_SIZE
    && History(acts, h, w, desc.elems, q) && Dads(h, dl, desc.elems, q)
    && acts[q] == {desc.elems + q - 1} && h[Top(q)] == desc.elems + q - 1
    && (forall x :: x in acts[0] ==> x < desc.elems)
    && (forall x :: 0 <= x < desc.elems && x !in acts[0] ==> dl[x] == 0)
  }

  function Pair(p: nat): nat
    requires p < HEAP_SIZE
  {
    (HEAP_SIZE - 1 - p) / 2
  }

  lemma AtPosition(desc: TreeDesc, acts: seq<set<nat>>, h: seq<nat>, w: seq<nat>, dl: seq<nat>, q: nat, p: nat)
    requires Grown(desc, acts, h, w, dl, q) && Top(q) < p < HEAP_SIZE
    ensures Pair(p) < q && NodeOf(h, Pair(p), h[p])
    ensures h[p] in acts[Pair(p)] && h[p] !in acts[Pair(p) + 1] && h[p] < desc.elems + Pair(p)
    ensures dl[h[p]] == desc.elems + Pair(p)
  {
    var j := Pair(p);
    assert Merged(acts[j], acts[j + 1], First(h, j), Second(h, j), desc.elems + j, w);
  }

  lemma Distinct(desc: TreeDesc, acts: seq<set<nat>>, h: seq<nat>, w: seq<nat>, dl: seq<nat>, q: nat, a: nat, b: nat)
    requires Grown(desc, acts, h, w, dl, q) && Top(q) <= a < b < HEAP_SIZE
    ensures h[a] != h[b]
  {
    AtPosition(desc, acts, h, w, dl, q, b);
    var i := Pair(b);
    if a == Top(q) {
    } else {
      AtPosition(desc, acts, h, w, dl, q, a);
      var j := Pair(a);
      if i == j {
        assert Merged(acts[j], acts[j + 1], First(h, j), Second(h, j), desc.elems + j, w);
      } else {
        MergesDistinct(acts, h, w, desc.elems, q, i, j, h[b], h[a]);
      }
    }
  }

  // The father of a node stands before it.
  lemma FatherFirst(desc: TreeDesc, acts: seq<set<nat>>, h: seq<nat>, w: seq<nat>, dl: seq<nat>, q: nat, p: nat) returns (f: nat)
    requires Grown(desc, acts, h, w, dl, q) && Top(q) < p < HEAP_SIZE
    ensures Top(q) <= f < p && h[f] == desc.elems + Pair(p)
  {
    var j := Pair(p);
    AtPosition(desc, acts, h, w, dl, q, p);
    if j + 1 == q {
      f := Top(q);
    } else {
      assert Merged(acts[j], acts[j + 1], First(h, j), Second(h, j), desc.elems + j, w);
      var i := FindMerge(acts, h, w, desc.elems, q, desc.elems + j, j + 1);
      f := if desc.elems + j == First(h, i) then HEAP_SIZE - 1 - 2 * i else HEAP_SIZE - 2 - 2 * i;
    }
  }

  // The symbols among the nodes are exactly the leaves.
  lemma LeafPositions(desc: TreeDesc, acts: seq<set<nat>>, h: seq<nat>, w: seq<nat>, dl: seq<nat>, q: nat)
    requires Grown(desc, acts, h, w, dl, q)
    ensures forall x: nat :: x < desc.elems ==> (x in h[Top(q)..] <==> x in acts[0])
  {
    forall x: nat | x < desc.elems && x in acts[0]
      ensures x in h[Top(q)..]
    {
      var i := FindMerge(acts, h, w, desc.elems, q, x, 0);
      var p := if x == First(h, i) then HEAP_SIZE - 1 - 2 * i else HEAP_SIZE - 2 - 2 * i;
      assert h[Top(q)..][p - Top(q)] == x;
    }
    forall x: nat | x < desc.elems && x in h[Top(q)..]
      ensures x in acts[0]
    {
      var p :| Top(q) <= p < HEAP_SIZE && h[p] == x;
      AtPosition(desc, acts, h, w, dl, q, p);
      RootFromStart(acts, h, w, desc.elems, q, Pair(p), x);
    }
  }

  // ----- the first pass ------------------------------------------------------------------------------------

  // Nodes before position p carry their lengths, those from p on still their fathers.
  ghost predicate Visited(h: seq<nat>, dl: seq<nat>, dl0: seq<nat>, g: seq<nat>, top: nat, p: nat) {
    && |dl| == |dl0| == |g| == HEAP_SIZE == |h| && top <= p <= HEAP_SIZE
    && (forall i :: top <= i < p ==> h[i] < |dl| && dl[h[i]] == g[h[i]])
    && (forall i :: p <= i < HEAP_SIZE ==> h[i] < |dl| && dl[h[i]] == dl0[h[i]])
    && (forall x :: 0 <= x < |dl| && x !in h[top..] ==> dl[x] == dl0[x])
  }

  lemma VisitStep(desc: TreeDesc, acts: seq<set<nat>>, h: seq<nat>, w: seq<nat>, dl0: seq<nat>, q: nat, max: nat, dl: seq<nat>, p: nat)
    requires Grown(desc, acts, h, w, dl0, q) && Top(q) < p < HEAP_SIZE
    requires Visited(h, dl, dl0, Depths(dl0, desc.elems + q - 1, max), Top(q), p)
    ensures h[p] < |dl| && dl[h[p]] == desc.elems + Pair(p) < |dl|
    ensures var g := Depths(dl0, desc.elems + q - 1, max);
            && dl[dl[h[p]]] == g[desc.elems + Pair(p)] && g[h[p]] == Min(g[desc.elems + Pair(p)] + 1, max)
            && Visited(h, dl[h[p] := g[h[p]]], dl0, g, Top(q), p + 1)
  {
    var g := Depths(dl0, desc.elems + q - 1, max);
    AtPosition(desc, acts, h, w, dl0, q, p);
    var f := FatherFirst(desc, acts, h, w, dl0, q, p);
    DepthsOneBelow(acts, h, w, dl0, desc.elems, q, max);
    hide Grown, Depths, History;
    forall i | Top(q) <= i < HEAP_SIZE && i != p
      ensures h[i] != h[p]
    {
      Distinct(desc, acts, h, w, dl0, q, if i < p then i else p, if i < p then p else i);
    }
    VisitedNext(h, dl, dl0, g, Top(q), p);
  }

  lemma VisitedNext(h: seq<nat>, dl: seq<nat>, dl0: seq<nat>, g: seq<nat>, top: nat, p: nat)
    requires Visited(h, dl, dl0, g, top, p) && top < p < HEAP_SIZE
    requires forall i :: top <= i < HEAP_SIZE && i != p ==> h[i] != h[p]
    ensures h[p] < |dl| && Visited(h, dl[h[p] := g[h[p]]], dl0, g, top, p + 1)
  {
    assert h[p] in h[top..] by {
      assert h[top..][p - top] == h[p];
    }
  }

  // How many of the nodes at positions lo..p have a father as deep as allowed.
  ghost function OverAt(g: seq<nat>, elems: nat, max: nat, lo: nat, p: nat): nat
    requires lo <= p <= HEAP_SIZE <= |g| && (lo < p ==> elems + Pair(lo) < |g|)
  {
    if p == lo then 0
    else OverAt(g, elems, max, lo, p - 1) + (if g[elems + Pair(p - 1)] == max then 1 else 0)
  }

  lemma {:induction false} OverAtPairs(g: seq<nat>, elems: nat, max: nat, q: nat, j: nat)
    requires j <= q && 2 * q < HEAP_SIZE <= |g| && elems + q <= |g|
    ensures OverAt(g, elems, max, HEAP_SIZE - 2 * q, HEAP_SIZE - 2 * j) == 2 * Over(g, elems, j, q, max)
    decreases q - j
  {
    if j < q {
      OverAtPairs(g, elems, max, q, j + 1);
      var p := HEAP_SIZE - 2 * j;
      assert Pair(p - 1) == j && Pair(p - 2) == j;
    }
  }

  // lens holds the depths of the leaves before position p.
  ghost predicate LeavesTo(h: seq<nat>, lens: seq<nat>, g: seq<nat>, elems: nat, top: nat, p: nat) {
    && |lens| == elems <= |g| && top <= p <= |h|
    && forall x :: 0 <= x < elems ==> lens[x] == if x in h[top..p] then g[x] else 0
  }

  lemma LeavesStep(h: seq<nat>, lens: seq<nat>, g: seq<nat>, elems: nat, top: nat, p: nat)
    requires LeavesTo(h, lens, g, elems, top, p) && p < |h|
    requires forall i :: top <= i < p ==> h[i] != h[p]
    ensures h[p] >= elems ==> LeavesTo(h, lens, g, elems, top, p + 1)
    ensures h[p] < elems ==> lens[h[p]] == 0 && LeavesTo(h, lens[h[p] := g[h[p]]], g, elems, top, p + 1)
  {
    assert h[top..p + 1] == h[top..p] + [h[p]];
  }

  // The counters agree with the lengths handed out so far.
  ghost predicate Tallied(desc: TreeDesc, w: seq<nat>, lens: seq<nat>, bl: seq<nat>, optLen: int, staticLen: int) {
    && DescOk(desc) && |lens| == desc.elems && |w| == HEAP_SIZE
    && CountsOf(bl, lens)
    && optLen == CodedBits(w, lens, desc, desc.elems)
    && staticLen == StaticBits(w, lens, desc, desc.elems)
  }

  lemma TallyNone(desc: TreeDesc, w: seq<nat>, lens: seq<nat>, bl: seq<nat>)
    requires DescOk(desc) && |lens| == desc.elems && |w| == HEAP_SIZE && |bl| == MAX_BITS + 1
    requires (forall x :: 0 <= x < |lens| ==> lens[x] == 0) && (forall b :: 0 <= b <= MAX_BITS ==> bl[b] == 0)
    ensures Tallied(desc, w, lens, bl, 0, 0)
  {
    NoBits(desc, w, lens, desc.elems);
    forall b: nat | 1 <= b
      ensures Count(lens, |lens|, b) == 0
    {
      CountNone(lens, |lens|, b);
    }
  }

  lemma {:induction false} NoBits(desc: TreeDesc, w: seq<nat>, lens: seq<nat>, n: nat)
    requires DescOk(desc) && n <= |lens| == desc.elems <= |w| && forall x :: 0 <= x < |lens| ==> lens[x] == 0
    ensures CodedBits(w, lens, desc, n) == 0 == StaticBits(w, lens, desc, n)
  {
    if n > 0 {
      NoBits(desc, w, lens, n - 1);
    }
  }

  lemma {:induction false} CountNone(lens: seq<nat>, n: nat, b: nat)
    requires n <= |lens| && b > 0 && forall x :: 0 <= x < |lens| ==> lens[x] == 0
    ensures Count(lens, n, b) == 0
  {
    if n > 0 {
      CountNone(lens, n - 1, b);
    }
  }

  function StaticStep(desc: TreeDesc, f: nat, x: nat): nat
    requires x < desc.base + |desc.extra| && (desc.stree == [] || x < |desc.stree|)
  {
    if desc.stree == [] then 0 else f * (desc.stree[x] + ExtraBits(desc, x))
  }

  lemma TallyStep(desc: TreeDesc, w: seq<nat>, lens: seq<nat>, bl: seq<nat>, optLen: int, staticLen: int, x: nat, v: nat)
    requires Tallied(desc, w, lens, bl, optLen, staticLen)
    requires x < desc.elems && lens[x] == 0 && 1 <= v <= MAX_BITS
    ensures Tallied(desc, w, lens[x := v], bl[v := bl[v] + 1],
                    optLen + w[x] * (v + ExtraBits(desc, x)), staticLen + StaticStep(desc, w[x], x))
  {
    CodedBitsUpdate(w, lens, desc, desc.elems, x, v);
    StaticBitsUpdate(w, lens, desc, desc.elems, x, v);
    var bl' := bl[v := bl[v] + 1];
    forall b | 1 <= b <= MAX_BITS
      ensures bl'[b] == Count(lens[x := v], desc.elems, b)
    {
      CountUpdate(lens, desc.elems, x, v, b);
    }
  }

  ghost predicate FirstDone(desc: TreeDesc, acts: seq<set<nat>>, h: seq<nat>, w: seq<nat>, dl0: seq<nat>, q: nat,
      dl: seq<nat>, p: nat, lens: seq<nat>, overflow: int)
    requires Grown(desc, acts, h, w, dl0, q)
  {
    var g := Depths(dl0, desc.elems + q - 1, desc.maxLength);
    && Top(q) < p <= HEAP_SIZE
    && Visited(h, dl, dl0, g, Top(q), p)
    && LeavesTo(h, lens, g, desc.elems, Top(q), p)
    && overflow == OverAt(g, desc.elems, desc.maxLength, Top(q) + 1, p)
  }

  // The first node is the root, of length zero.
  lemma FirstStart(desc: TreeDesc, acts: seq<set<nat>>, h: seq<nat>, w: seq<nat>, dl: seq<nat>, q: nat, lens: seq<nat>)
    requires Grown(desc, acts, h, w, dl, q)
    requires |lens| == desc.elems && forall x :: 0 <= x < |lens| ==> lens[x] == 0
    ensures h[Top(q)] < |dl|
    ensures FirstDone(desc, acts, h, w, dl, q, dl[h[Top(q)] := 0], Top(q) + 1, lens, 0)
  {
    var top := Top(q);
    DepthsOneBelow(acts, h, w, dl, desc.elems, q, desc.maxLength);
    forall i | top < i < HEAP_SIZE
      ensures h[i] != h[top] && h[i] < |dl|
    {
      Distinct(desc, acts, h, w, dl, q, top, i);
      AtPosition(desc, acts, h, w, dl, q, i);
    }
    assert h[top] in h[top..] by {
      assert h[top..][0] == h[top];
    }
    assert h[top..top + 1] == [h[top]];
  }

  lemma FirstStep(desc: TreeDesc, acts: seq<set<nat>>, h: seq<nat>, w: seq<nat>, dl0: seq<nat>, q: nat,
      dl: seq<nat>, p: nat, lens: seq<nat>, overflow: int)
    requires Grown(desc, acts, h, w, dl0, q) && p < HEAP_SIZE && 1 <= desc.maxLength
    requires FirstDone(desc, acts, h, w, dl0, q, dl, p, lens, overflow)
    ensures h[p] < |dl| && dl[h[p]] < |dl|
    ensures var b := dl[dl[h[p]]] + 1;
            var bits := if b > desc.maxLength then desc.maxLength else b;
            var overflow' := if b > desc.maxLength then overflow + 1 else overflow;
            && 1 <= bits
            && (h[p] < desc.elems ==> lens[h[p]] == 0)
            && FirstDone(desc, acts, h, w, dl0, q, dl[h[p] := bits], p + 1,
                         if h[p] < desc.elems then lens[h[p] := bits] else lens, overflow')
  {
    hide Grown, Visited, LeavesTo, LenOf, History, Dads;
    var g := Depths(dl0, desc.elems + q - 1, desc.maxLength);
    VisitStep(desc, acts, h, w, dl0, q, desc.maxLength, dl, p);
    FirstBounds(desc, acts, h, w, dl0, q, dl, p, lens, overflow);
    forall i | Top(q) <= i < p
      ensures h[i] != h[p]
    {
      Distinct(desc, acts, h, w, dl0, q, i, p);
    }
    LeavesStep(h, lens, g, desc.elems, Top(q), p);
  }

  lemma FirstBounds(desc: TreeDesc, acts: seq<set<nat>>, h: seq<nat>, w: seq<nat>, dl0: seq<nat>, q: nat,
      dl: seq<nat>, p: nat, lens: seq<nat>, overflow: int)
    requires Grown(desc, acts, h, w, dl0, q)
    requires FirstDone(desc, acts, h, w, dl0, q, dl, p, lens, overflow)
    ensures |lens| == desc.elems && |dl| == |dl0| == |h| == HEAP_SIZE && desc.elems + q <= HEAP_SIZE && 2 * q < HEAP_SIZE
    ensures Top(q) < p
  {
    hide Visited, Merged, Dads;
    assert |dl| == HEAP_SIZE by {
      VisitedSize(h, dl, dl0, Depths(dl0, desc.elems + q - 1, desc.maxLength), Top(q), p);
    }
  }

  lemma VisitedSize(h: seq<nat>, dl: seq<nat>, dl0: seq<nat>, g: seq<nat>, top: nat, p: nat)
    requires Visited(h, dl, dl0, g, top, p)
    ensures |dl| == HEAP_SIZE
  {
  }

  // Computes the cut-off depths; overflow counts the nodes that were cut.
  method FirstPass(desc: TreeDesc, heap: array<nat>, heapMax: nat, w: seq<nat>, dl0: seq<nat>, maxCode: nat,
      optLen0: int, staticLen0: int, ghost acts: seq<set<nat>>, ghost q: nat)
    returns (dl: seq<nat>, bl: seq<nat>, overflow: nat, optLen: int, staticLen: int, ghost lens: seq<nat>)
    requires DescOk(desc) && Grown(desc, acts, heap[..], w, dl0, q) && heapMax == Top(q)
    requires maxCode < desc.elems && forall x :: x in acts[0] ==> x <= maxCode
    ensures FirstDone(desc, acts, heap[..], w, dl0, q, dl, HEAP_SIZE, lens, overflow)
    ensures Tallied(desc, w, lens, bl, optLen - optLen0, staticLen - staticLen0) && |bl| > 0 && bl[0] == 0
  {
    hide Grown, FirstDone, Tallied, StaticStep, DescOk;
    ghost var h := heap[..];
    bl := seq(MAX_BITS + 1, _ => 0);
    overflow, optLen, staticLen := 0, optLen0, staticLen0;
    lens := seq(desc.elems, _ => 0);
    DescBounds(desc);
    GrownBounds(desc, acts, h, w, dl0, q, heapMax);
    TallyNone(desc, w, lens, bl);
    FirstStart(desc, acts, h, w, dl0, q, lens);
    dl := dl0[heap[heapMax] := 0];
    for p := heapMax + 1 to HEAP_SIZE
      invariant heapMax < p && heap[..] == h && |bl| == MAX_BITS + 1 && bl[0] == 0 && |lens| == desc.elems
      invariant FirstDone(desc, acts, h, w, dl0, q, dl, p, lens, overflow)
      invariant Tallied(desc, w, lens, bl, optLen - optLen0, staticLen - staticLen0)
    {
      FirstStep(desc, acts, h, w, dl0, q, dl, p, lens, overflow);
      var n := heap[p];
      LeafIs(desc, acts, h, w, dl0, q, p, maxCode);
      var bits := dl[dl[n]] + 1;
      if bits > desc.maxLength {
        bits := desc.maxLength;
        overflow := overflow + 1;
      }
      dl := dl[n := bits];
      if n <= maxCode {
        TallyStep(desc, w, lens, bl, optLen - optLen0, staticLen - staticLen0, n, bits);
        bl := bl[bits := bl[bits] + 1];
        var xbits := ExtraBits(desc, n);
        var f := w[n];
        optLen := optLen + f * (bits + xbits);
        StaticStepIs(desc, f, n);
        if desc.stree != [] {
          staticLen := staticLen + f * (desc.stree[n] + xbits);
        }
        lens := lens[n := bits];
      }
    }
  }

  lemma DescBounds(desc: TreeDesc)
    requires DescOk(desc)
    ensures 1 <= desc.maxLength <= MAX_BITS && desc.elems <= desc.base + |desc.extra|
    ensures desc.stree == [] || desc.elems <= |desc.stree|
  {
  }

  lemma StaticStepIs(desc: TreeDesc, f: nat, x: nat)
    requires x < desc.base + |desc.extra| && (desc.stree == [] || x < |desc.stree|)
    ensures StaticStep(desc, f, x) == if desc.stree == [] then 0 else f * (desc.stree[x] + ExtraBits(desc, x))
  {
  }

  lemma GrownBounds(desc: TreeDesc, acts: seq<set<nat>>, h: seq<nat>, w: seq<nat>, dl: seq<nat>, q: nat, top: nat)
    requires Grown(desc, acts, h, w, dl, q) && top == Top(q)
    ensures |w| == |dl| == |h| == HEAP_SIZE && top < HEAP_SIZE && desc.elems <= HEAP_SIZE && h[top] < HEAP_SIZE
  {
  }

  // A node is a leaf exactly when it does not exceed the largest code.
  lemma LeafIs(desc: TreeDesc, acts: seq<set<nat>>, h: seq<nat>, w: seq<nat>, dl: seq<nat>, q: nat, p: nat, maxCode: nat)
    requires Grown(desc, acts, h, w, dl, q) && Top(q) <= p < HEAP_SIZE
    requires maxCode < desc.elems && forall x :: x in acts[0] ==> x <= maxCode
    ensures h[p] <= maxCode <==> h[p] < desc.elems
    ensures h[p] < HEAP_SIZE
  {
    LeafPositions(desc, acts, h, w, dl, q);
    assert h[p] in h[Top(q)..] by {
      assert h[Top(q)..][p - Top(q)] == h[p];
    }
    if p > Top(q) {
      AtPosition(desc, acts, h, w, dl, q, p);
    }
  }

  // ----- between the passes ---------------------------------------------------------------------------------------

  // The lengths of the symbols: cut-off depths for the leaves, zero for unused symbols.
  ghost predicate LensAre(desc: TreeDesc, acts: seq<set<nat>>, lens: seq<nat>, g: seq<nat>)
    requires |acts| > 0
  {
    && |lens| == desc.elems <= |g|
    && forall x: nat :: x < desc.elems ==> lens[x] == if x in acts[0] then g[x] else 0
  }

  lemma AfterFirst(desc: TreeDesc, acts: seq<set<nat>>, h: seq<nat>, w: seq<nat>, dl0: seq<nat>, q: nat,
      dl: seq<nat>, lens: seq<nat>, overflow: int)
    requires Grown(desc, acts, h, w, dl0, q) && 1 <= desc.maxLength
    requires FirstDone(desc, acts, h, w, dl0, q, dl, HEAP_SIZE, lens, overflow)
    ensures var g := Depths(dl0, desc.elems + q - 1, desc.maxLength);
            && LensAre(desc, acts, lens, g)
            && (forall x :: x in acts[0] ==> 1 <= g[x])
            && overflow == 2 * Over(g, desc.elems, 0, q, desc.maxLength)
    ensures |dl| == HEAP_SIZE && dl[..desc.elems] == lens
  {
    var g := Depths(dl0, desc.elems + q - 1, desc.maxLength);
    var top := Top(q);
    LeafPositions(desc, acts, h, w, dl0, q);
    OverAtPairs(g, desc.elems, desc.maxLength, q, 0);
    DepthsOneBelow(acts, h, w, dl0, desc.elems, q, desc.maxLength);
    assert h[top..HEAP_SIZE] == h[top..];
    forall x | x in acts[0]
      ensures 1 <= g[x]
    {
      var i := FindMerge(acts, h, w, desc.elems, q, x, 0);
    }
    forall x: nat | x < desc.elems
      ensures dl[x] == lens[x]
    {
      if x in h[top..] {
        var p :| top <= p < HEAP_SIZE && h[p] == x;
      }
    }
  }

  // The sums over the leaves are the sums over the lengths.
  lemma {:induction false} SharesAreKraft(s: set<nat>, lens: seq<nat>, g: seq<nat>, max: nat, n: nat)
    requires n <= |lens| <= |g|
    requires forall x: nat :: x < |lens| ==> lens[x] == if x in s then g[x] else 0
    requires forall x: nat :: x in s && x < |lens| ==> 1 <= g[x] <= max
    ensures SumOver(s, Shares(g, max), n) == KraftAt(lens, n, max)
    ensures max >= 1 ==> SumOver(s, AtMax(g, max), n) == Count(lens, n, max)
  {
    if n > 0 {
      SharesAreKraft(s, lens, g, max, n - 1);
    }
  }

  lemma {:induction false} SumBeyond(s: set<nat>, f: seq<nat>, n: nat, m: nat)
    requires n <= m <= |f| && forall x :: x in s ==> x < n
    ensures SumOver(s, f, m) == SumOver(s, f, n)
  {
    if n < m {
      SumBeyond(s, f, n, m - 1);
    }
  }

  lemma {:induction false} CountsSumBound(bl: seq<nat>, lens: Lens, b: nat)
    requires CountsOf(bl, lens) && b <= MAX_BITS
    ensures CountsSum(bl, b) == CodedUpTo(lens, |lens|, b)
    ensures CountsSum(bl, b) <= |lens|
  {
    CodedUpToBound(lens, |lens|, b);
    if b > 0 {
      CountsSumBound(bl, lens, b - 1);
      CodedUpToStep(lens, |lens|, b);
    } else {
      NoneUpToZero(lens, |lens|);
    }
  }

  // How many of the first n symbols have a length in 1..b.
  function CodedUpTo(lens: Lens, n: nat, b: nat): nat
    requires n <= |lens|
  {
    if n == 0 then 0 else CodedUpTo(lens, n - 1, b) + (if 1 <= lens[n - 1] <= b then 1 else 0)
  }

  lemma {:induction false} CodedUpToBound(lens: Lens, n: nat, b: nat)
    requires n <= |lens|
    ensures CodedUpTo(lens, n, b) <= n
  {
    if n > 0 {
      CodedUpToBound(lens, n - 1, b);
    }
  }

  lemma {:induction false} CodedUpToStep(lens: Lens, n: nat, b: nat)
    requires n <= |lens| && b > 0
    ensures CodedUpTo(lens, n, b) == CodedUpTo(lens, n, b - 1) + Count(lens, n, b)
  {
    if n > 0 {
      CodedUpToStep(lens, n - 1, b);
    }
  }

  lemma {:induction false} NoneUpToZero(lens: Lens, n: nat)
    requires n <= |lens|
    ensures CodedUpTo(lens, n, 0) == 0
  {
    if n > 0 {
      NoneUpToZero(lens, n - 1);
    }
  }

  // What the repair starts from.
  lemma ReadyForRepair(desc: TreeDesc, acts: seq<set<nat>>, h: seq<nat>, w: seq<nat>, dl0: seq<nat>, q: nat,
      lens: seq<nat>, bl: seq<nat>)
    requires DescOk(desc) && Grown(desc, acts, h, w, dl0, q)
    requires LensAre(desc, acts, lens, Depths(dl0, desc.elems + q - 1, desc.maxLength))
    requires forall x :: x in acts[0] ==> 1 <= Depths(dl0, desc.elems + q - 1, desc.maxLength)[x]
    requires CountsOf(bl, lens)
    ensures var over := Over(Depths(dl0, desc.elems + q - 1, desc.maxLength), desc.elems, 0, q, desc.maxLength);
            && KraftAt(lens, desc.elems, desc.maxLength) == CountsKraft(bl, desc.maxLength) == Pow2(desc.maxLength) + over
            && (over > 0 ==> bl[desc.maxLength] > over)
    ensures CountsSum(bl, desc.maxLength) <= Pow2(desc.maxLength)
  {
    var max, root := desc.maxLength, desc.elems + q - 1;
    var g := Depths(dl0, root, max);
    DepthsOneBelow(acts, h, w, dl0, desc.elems, q, max);
    DepthsKraft(acts, h, w, g, desc.elems, q, 0, max);
    DepthsAtMax(acts, h, w, g, desc.elems, q, 0, max);
    SharesAreKraft(acts[0], lens, g, max, desc.elems);
    SumBeyond(acts[0], Shares(g, max), desc.elems, |g|);
    SumBeyond(acts[0], AtMax(g, max), desc.elems, |g|);
    KraftIsEndCode(lens, desc.elems, max);
    CountsKraftIs(bl, lens, max);
    CountsSumBound(bl, lens, max);
  }

  // ----- the second pass -------------------------------------------------------------------------------------------

  // How many of the nodes at positions lo..p are leaves.
  ghost function LeafCount(h: seq<nat>, elems: nat, lo: nat, p: nat): nat
    requires lo <= p <= |h|
  {
    if p == lo then 0 else LeafCount(h, elems, lo, p - 1) + (if h[p - 1] < elems then 1 else 0)
  }

  lemma {:induction false} NoLeaves(h: seq<nat>, elems: nat, lo: nat, p: nat)
    requires lo <= p <= |h| && LeafCount(h, elems, lo, p) == 0
    ensures forall i :: lo <= i < p ==> h[i] >= elems
  {
    if lo < p {
      NoLeaves(h, elems, lo, p - 1);
    }
  }

  lemma {:induction false} CodedUpToUpdate(lens: Lens, n: nat, b: nat, x: nat, v: nat)
    requires n <= |lens| && x < |lens| && lens[x] == 0 && 1 <= v <= b
    ensures CodedUpTo(lens[x := v], n, b) == CodedUpTo(lens, n, b) + (if x < n then 1 else 0)
  {
    if n > 0 {
      CodedUpToUpdate(lens, n - 1, b, x, v);
    }
  }

  lemma LeavesBack(h: seq<nat>, lens: seq<nat>, g: seq<nat>, elems: nat, top: nat, p: nat)
    requires LeavesTo(h, lens, g, elems, top, p + 1) && top <= p
    requires forall i :: top <= i < p ==> h[i] != h[p]
    ensures h[p] >= elems ==> LeavesTo(h, lens, g, elems, top, p)
    ensures h[p] < elems ==> LeavesTo(h, lens[h[p] := 0], g, elems, top, p) && lens == lens[h[p] := 0][h[p] := g[h[p]]]
  {
    assert h[top..p + 1] == h[top..p] + [h[p]];
  }

  // Each leaf carries one coded length.
  lemma {:induction false} LeavesCoded(h: seq<nat>, lens: seq<nat>, g: seq<nat>, elems: nat, top: nat, p: nat, b: nat)
    requires LeavesTo(h, lens, g, elems, top, p)
    requires forall i, j :: top <= i < j < p ==> h[i] != h[j]
    requires forall i :: top <= i < p && h[i] < elems ==> 1 <= g[h[i]] <= b
    ensures |lens| == elems && CodedUpTo(lens, elems, b) == LeafCount(h, elems, top, p)
    decreases p
  {
    hide CodedUpTo;
    if p == top {
      NoneCoded(lens, elems, b);
    } else {
      LeavesBack(h, lens, g, elems, top, p - 1);
      if h[p - 1] < elems {
        var x := h[p - 1];
        LeavesCoded(h, lens[x := 0], g, elems, top, p - 1, b);
        CodedUpToUpdate(lens[x := 0], elems, b, x, g[x]);
      } else {
        LeavesCoded(h, lens, g, elems, top, p - 1, b);
      }
    }
  }

  lemma {:induction false} NoneCoded(lens: Lens, n: nat, b: nat)
    requires n <= |lens| && forall x :: 0 <= x < |lens| ==> lens[x] == 0
    ensures CodedUpTo(lens, n, b) == 0
  {
    if n > 0 {
      NoneCoded(lens, n - 1, b);
    }
  }

  // The nodes from position p on carry their new lengths, the others the old ones.
  ghost predicate Reassigned(h: seq<nat>, dl: seq<nat>, dl1: seq<nat>, elems: nat, top: nat, p: nat, lens: seq<nat>) {
    && |dl| == |dl1| == HEAP_SIZE == |h| && |lens| == elems <= |dl| && top <= p <= |h|
    && (forall x :: 0 <= x < elems ==> lens[x] == if x in h[p..] then dl[x] else 0)
    && (forall x :: 0 <= x < elems && x !in h[p..] ==> dl[x] == dl1[x])
  }

  // The new lengths use up the counts of the lengths above `bits`, and all but n of those of `bits`.
  ghost predicate Handed(lens: seq<nat>, bl: seq<nat>, bits: nat, n: nat) {
    && |bl| == MAX_BITS + 1 && bits <= MAX_BITS && n <= bl[bits]
    && forall b :: 1 <= b <= MAX_BITS ==>
         Count(lens, |lens|, b) == if b > bits then bl[b] else if b == bits then bl[b] - n else 0
  }

  lemma ReassignStep(h: seq<nat>, dl: seq<nat>, dl1: seq<nat>, elems: nat, top: nat, p: nat, lens: seq<nat>, bits: nat)
    requires Reassigned(h, dl, dl1, elems, top, p, lens) && top < p
    requires forall i :: p <= i < |h| ==> h[i] != h[p - 1]
    ensures h[p - 1] >= elems ==> Reassigned(h, dl, dl1, elems, top, p - 1, lens)
    ensures h[p - 1] < elems ==>
              && lens[h[p - 1]] == 0 && dl[h[p - 1]] == dl1[h[p - 1]]
              && Reassigned(h, dl[h[p - 1] := bits], dl1, elems, top, p - 1, lens[h[p - 1] := bits])
  {
    assert h[p - 1..] == [h[p - 1]] + h[p..];
  }

  lemma HandStep(lens: seq<nat>, bl: seq<nat>, bits: nat, n: nat, x: nat)
    requires Handed(lens, bl, bits, n) && n > 0 && bits > 0 && x < |lens| && lens[x] == 0
    ensures Handed(lens[x := bits], bl, bits, n - 1)
  {
    forall b | 1 <= b <= MAX_BITS
      ensures Count(lens[x := bits], |lens|, b) == if b > bits then bl[b] else if b == bits then bl[b] - (n - 1) else 0
    {
      CountUpdate(lens, |lens|, x, bits, b);
    }
  }

  // dl agrees with the tree: exactly the leaves have lengths, none above the greatest allowed.
  ghost predicate LeafLengths(desc: TreeDesc, acts: seq<set<nat>>, dl: seq<nat>)
    requires |acts| > 0
  {
    && |dl| == HEAP_SIZE && desc.elems <= HEAP_SIZE
    && forall x: nat :: x < desc.elems ==> (dl[x] > 0 <==> x in acts[0]) && dl[x] <= desc.maxLength
  }

  // Before position p, with n symbols still to be given the length `bits`.
  ghost predicate Giving(desc: TreeDesc, acts: seq<set<nat>>, h: seq<nat>, w: seq<nat>, q: nat, dl1: seq<nat>, bl: seq<nat>,
      p: nat, bits: nat, n: nat, dl: seq<nat>, lens: seq<nat>, diff: int)
    requires |acts| > 0 && 2 * q < HEAP_SIZE
  {
    && DescOk(desc) && |w| == HEAP_SIZE && LeafLengths(desc, acts, dl1) && LeafLengths(desc, acts, dl)
    && Reassigned(h, dl, dl1, desc.elems, Top(q), p, lens)
    && Handed(lens, bl, bits, n)
    && LeafCount(h, desc.elems, Top(q), p) == n + (if bits > 0 then CountsSum(bl, bits - 1) else 0)
    && diff == CodedBits(w, dl[..desc.elems], desc, desc.elems) - CodedBits(w, dl1[..desc.elems], desc, desc.elems)
  }

  lemma GiveStart(desc: TreeDesc, acts: seq<set<nat>>, h: seq<nat>, w: seq<nat>, q: nat, dl1: seq<nat>, bl: seq<nat>, lens: seq<nat>)
    requires |acts| > 0 && 2 * q < HEAP_SIZE && |h| == HEAP_SIZE
    requires DescOk(desc) && |w| == HEAP_SIZE && LeafLengths(desc, acts, dl1)
    requires |bl| == MAX_BITS + 1 && forall b :: desc.maxLength < b <= MAX_BITS ==> bl[b] == 0
    requires CountsSum(bl, desc.maxLength) == LeafCount(h, desc.elems, Top(q), HEAP_SIZE)
    requires |lens| == desc.elems && forall x :: 0 <= x < |lens| ==> lens[x] == 0
    ensures Giving(desc, acts, h, w, q, dl1, bl, HEAP_SIZE, desc.maxLength, bl[desc.maxLength], dl1, lens, 0)
  {
    forall b | 1 <= b <= MAX_BITS
      ensures Count(lens, |lens|, b) == 0
    {
      CountNone(lens, |lens|, b);
    }
    assert h[HEAP_SIZE..] == [];
  }

  lemma GiveNode(desc: TreeDesc, acts: seq<set<nat>>, h: seq<nat>, w: seq<nat>, dl0: seq<nat>, q: nat, dl1: seq<nat>, bl: seq<nat>,
      p: nat, bits: nat, n: nat, dl: seq<nat>, lens: seq<nat>, diff: int)
    requires Grown(desc, acts, h, w, dl0, q)
    requires Giving(desc, acts, h, w, q, dl1, bl, p, bits, n, dl, lens, diff) && n > 0 && 0 < bits <= desc.maxLength
    ensures Top(q) < p <= HEAP_SIZE && |dl| == |h| == |w| == HEAP_SIZE && desc.elems <= |dl| && |lens| == desc.elems
    ensures var m := h[p - 1];
            if m < desc.elems then
              Giving(desc, acts, h, w, q, dl1, bl, p - 1, bits, n - 1, dl[m := bits], lens[m := bits], diff + (bits - dl[m]) * w[m])
            else
              Giving(desc, acts, h, w, q, dl1, bl, p - 1, bits, n, dl, lens, diff)
  {
    hide Handed, Count;
    assert Top(q) < p;
    var m := h[p - 1];
    forall i | p <= i < HEAP_SIZE
      ensures h[i] != m
    {
      Distinct(desc, acts, h, w, dl0, q, p - 1, i);
    }
    ReassignStep(h, dl, dl1, desc.elems, Top(q), p, lens, bits);
    if m < desc.elems {
      LeafPositions(desc, acts, h, w, dl0, q);
      assert m in h[Top(q)..] by {
        assert h[Top(q)..][p - 1 - Top(q)] == m;
      }
      HandStep(lens, bl, bits, n, m);
      GiveBits(desc, w, dl, m, bits);
    }
  }

  lemma GiveBits(desc: TreeDesc, w: seq<nat>, dl: seq<nat>, m: nat, bits: nat)
    requires DescOk(desc) && |w| == |dl| == HEAP_SIZE && m < desc.elems <= HEAP_SIZE && dl[m] > 0 && bits > 0
    ensures CodedBits(w, dl[m := bits][..desc.elems], desc, desc.elems) ==
            CodedBits(w, dl[..desc.elems], desc, desc.elems) + (bits - dl[m]) * w[m]
  {
    assert dl[m := bits][..desc.elems] == dl[..desc.elems][m := bits];
    CodedBitsUpdate(w, dl[..desc.elems], desc, desc.elems, m, bits);
    var f, x := w[m], ExtraBits(desc, m);
    assert f * (bits + x) - f * (dl[m] + x) == (bits - dl[m]) * f;
  }

  lemma GiveLength(desc: TreeDesc, acts: seq<set<nat>>, h: seq<nat>, w: seq<nat>, q: nat, dl1: seq<nat>, bl: seq<nat>,
      p: nat, bits: nat, dl: seq<nat>, lens: seq<nat>, diff: int)
    requires |acts| > 0 && 2 * q < HEAP_SIZE
    requires Giving(desc, acts, h, w, q, dl1, bl, p, bits, 0, dl, lens, diff) && bits > 0 && bl[0] == 0
    ensures Giving(desc, acts, h, w, q, dl1, bl, p, bits - 1, bl[bits - 1], dl, lens, diff)
  {
    hide Reassigned, LeafLengths, CodedBits, DescOk, LeafCount, Count;
  }

  lemma GiveEnd(desc: TreeDesc, acts: seq<set<nat>>, h: seq<nat>, w: seq<nat>, dl0: seq<nat>, q: nat, dl1: seq<nat>, bl: seq<nat>,
      p: nat, dl: seq<nat>, lens: seq<nat>, diff: int)
    requires Grown(desc, acts, h, w, dl0, q)
    requires Giving(desc, acts, h, w, q, dl1, bl, p, 0, 0, dl, lens, diff)
    ensures LeafLengths(desc, acts, dl) && CountsOf(bl, dl[..desc.elems])
    ensures diff == CodedBits(w, dl[..desc.elems], desc, desc.elems) - CodedBits(w, dl1[..desc.elems], desc, desc.elems)
  {
    hide Merged, Count, CodedBits;
    NoLeaves(h, desc.elems, Top(q), p);
    LeafPositions(desc, acts, h, w, dl0, q);
    forall x: nat | x < desc.elems
      ensures dl[x] == lens[x]
    {
      if x in acts[0] {
        var i :| Top(q) <= i < HEAP_SIZE && h[i] == x;
        assert i >= p;
        assert h[p..][i - p] == x;
      }
    }
    assert dl[..desc.elems] == lens;
  }

  method SecondPass(desc: TreeDesc, heap: array<nat>, heapMax: nat, w: seq<nat>, dl1: seq<nat>, maxCode: nat, bl: seq<nat>,
      optLen1: int, ghost acts: seq<set<nat>>, ghost q: nat, ghost dl0: seq<nat>)
    returns (dl: seq<nat>, optLen: int)
    requires DescOk(desc) && Grown(desc, acts, heap[..], w, dl0, q) && heapMax == Top(q)
    requires maxCode < desc.elems && forall x :: x in acts[0] ==> x <= maxCode
    requires |acts| > 0 && LeafLengths(desc, acts, dl1) && |bl| == MAX_BITS + 1 && bl[0] == 0
    requires forall b :: desc.maxLength < b <= MAX_BITS ==> bl[b] == 0
    requires CountsSum(bl, desc.maxLength) == LeafCount(heap[..], desc.elems, heapMax, HEAP_SIZE)
    ensures LeafLengths(desc, acts, dl) && CountsOf(bl, dl[..desc.elems])
    ensures optLen - optLen1 == CodedBits(w, dl[..desc.elems], desc, desc.elems) - CodedBits(w, dl1[..desc.elems], desc, desc.elems)
  {
    hide Grown, Giving, LeafLengths, DescOk, CountsOf, CountsSum, LeafCount, CodedBits;
    ghost var hs := heap[..];
    DescBounds(desc);
    GrownBounds(desc, acts, hs, w, dl0, q, heapMax);
    var h: nat := HEAP_SIZE;
    dl, optLen := dl1, optLen1;
    var bits: nat := desc.maxLength;
    ghost var lens: seq<nat> := seq(desc.elems, _ => 0);
    GiveStart(desc, acts, hs, w, q, dl1, bl, lens);
    while bits != 0
      invariant bits <= desc.maxLength && h <= HEAP_SIZE
      invariant Giving(desc, acts, hs, w, q, dl1, bl, h, bits, bl[bits], dl, lens, optLen - optLen1)
      decreases bits
    {
      var n := bl[bits];
      while n != 0
        invariant h <= HEAP_SIZE
        invariant Giving(desc, acts, hs, w, q, dl1, bl, h, bits, n, dl, lens, optLen - optLen1)
        decreases h
      {
        GiveNode(desc, acts, hs, w, dl0, q, dl1, bl, h, bits, n, dl, lens, optLen - optLen1);
        h := h - 1;
        var m := heap[h];
        LeafIs(desc, acts, hs, w, dl0, q, h, maxCode);
        if m > maxCode {
          continue;
        }
        lens := lens[m := bits];
        if dl[m] != bits {
          optLen := optLen + (bits - dl[m]) * w[m];
          dl := dl[m := bits];
        } else {
          assert dl[m := bits] == dl;
        }
        n := n - 1;
      }
      GiveLength(desc, acts, hs, w, q, dl1, bl, h, bits, dl, lens, optLen - optLen1);
      bits := bits - 1;
    }
    GiveEnd(desc, acts, hs, w, dl0, q, dl1, bl, h, dl, lens, optLen - optLen1);
  }
}
