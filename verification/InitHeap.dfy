/** The start of `build_tree`: the used symbols become the initial heap, and if there are fewer than two
    of them, symbols are added until there are two. */
module InitHeap {
  import opened HuffmanOptimal
  import opened HuffmanHeap
  import opened HuffmanTree
  import opened BitLengths
  import opened GenLengths
  import opened GrowTree

  ghost function Frequent(freq: seq<nat>, n: nat): set<nat>
    requires n <= |freq|
  {
    set x: nat | x < n && freq[x] != 0
  }

  function FreqTotal(freq: seq<nat>, n: nat): nat
    requires n <= |freq|
  {
    if n == 0 then 0 else FreqTotal(freq, n - 1) + freq[n - 1]
  }

  lemma {:induction false} FreqTotalUpdate(freq: seq<nat>, n: nat, x: nat, v: nat)
    requires n <= |freq| && x < |freq|
    ensures FreqTotal(freq[x := v], n) + (if x < n then freq[x] else 0) == FreqTotal(freq, n) + (if x < n then v else 0)
  {
    if n > 0 {
      FreqTotalUpdate(freq, n - 1, x, v);
    }
  }

  lemma {:induction false} TotalIsSum(freq: seq<nat>, s: set<nat>, n: nat)
    requires n <= |freq| && forall x: nat :: x < n && x !in s ==> freq[x] == 0
    ensures SumOver(s, freq, n) == FreqTotal(freq, n)
  {
    if n > 0 {
      TotalIsSum(freq, s, n - 1);
    }
  }

  // max_code: the largest symbol of the set, or -1.
  ghost predicate Largest(s: set<nat>, maxCode: int) {
    && -1 <= maxCode
    && (maxCode >= 0 ==> maxCode in s)
    && forall x :: x in s ==> x <= maxCode
  }

  // ----- collecting the used symbols -------------------------------------------------------------------

  ghost predicate Collected(desc: TreeDesc, w: seq<nat>, h: seq<nat>, len: nat, dl: seq<nat>, n: nat, maxCode: int) {
    && |h| == |w| == |dl| == HEAP_SIZE && DescOk(desc) && n <= desc.elems && len <= n
    && Queue(h, len, Frequent(w, n))
    && Largest(Frequent(w, n), maxCode)
    && forall x :: 0 <= x < n && w[x] == 0 ==> dl[x] == 0
  }

  lemma CollectStep(desc: TreeDesc, w: seq<nat>, h: seq<nat>, len: nat, dl: seq<nat>, n: nat, maxCode: int)
    requires Collected(desc, w, h, len, dl, n, maxCode) && n < desc.elems
    ensures |h| == |w| == |dl| == HEAP_SIZE && len + 1 < HEAP_SIZE && n < HEAP_SIZE
    ensures w[n] != 0 ==> Collected(desc, w, h[len + 1 := n], len + 1, dl, n + 1, n)
    ensures w[n] == 0 ==> Collected(desc, w, h, len, dl[n := 0], n + 1, maxCode)
  {
    hide Queue;
    if w[n] != 0 {
      assert Frequent(w, n + 1) == Frequent(w, n) + {n};
      QueueBound(h, len, Frequent(w, n));
      QueueAdd(h, len, Frequent(w, n), n);
    } else {
      assert Frequent(w, n + 1) == Frequent(w, n);
    }
  }

  lemma QueueBound(h: seq<nat>, len: nat, s: set<nat>)
    requires Queue(h, len, s)
    ensures len < |h|
  {
  }

  // ----- forcing two codes -------------------------------------------------------------------------------

  // The lengths counted for forced symbols were taken off beforehand: for every code that gives each
  // forced symbol one bit, the sums come out as if the symbols were not there.
  ghost predicate Balanced(desc: TreeDesc, w0: seq<nat>, w: seq<nat>, forced: set<nat>, opt: int, stat: int) {
    && DescOk(desc) && |w0| == |w| == HEAP_SIZE
    && forall lens: seq<nat> :: |lens| == desc.elems && (forall x :: x in forced && x < |lens| ==> lens[x] == 1) ==>
         && CodedBits(w, lens, desc, desc.elems) == CodedBits(w0, lens, desc, desc.elems) - opt
         && StaticBits(w, lens, desc, desc.elems) == StaticBits(w0, lens, desc, desc.elems) - stat
  }

  lemma {:induction false} ForceBits(desc: TreeDesc, w: seq<nat>, lens: seq<nat>, n: nat, x: nat)
    requires DescOk(desc) && n <= desc.elems == |lens| && |w| == HEAP_SIZE && x < 3 && w[x] == 0 && lens[x] == 1
    ensures CodedBits(w[x := 1], lens, desc, n) == CodedBits(w, lens, desc, n) + (if x < n then 1 else 0)
    ensures StaticBits(w[x := 1], lens, desc, n) ==
            StaticBits(w, lens, desc, n) + (if x < n && desc.stree != [] then desc.stree[x] else 0)
  {
    if n > 0 {
      ForceBits(desc, w, lens, n - 1, x);
    }
  }

  lemma BalancedStep(desc: TreeDesc, w0: seq<nat>, w: seq<nat>, forced: set<nat>, opt: int, stat: int, x: nat)
    requires Balanced(desc, w0, w, forced, opt, stat) && x < 3 && w[x] == 0
    ensures Balanced(desc, w0, w[x := 1], forced + {x}, opt - 1, stat - if desc.stree == [] then 0 else desc.stree[x])
  {
    var w' := w[x := 1];
    var opt', stat' := opt - 1, stat - if desc.stree == [] then 0 else desc.stree[x];
    forall lens: seq<nat> | |lens| == desc.elems && forall y :: y in forced + {x} && y < |lens| ==> lens[y] == 1
      ensures CodedBits(w', lens, desc, desc.elems) == CodedBits(w0, lens, desc, desc.elems) - opt'
      ensures StaticBits(w', lens, desc, desc.elems) == StaticBits(w0, lens, desc, desc.elems) - stat'
    {
      assert x in forced + {x} && forall y :: y in forced ==> y in forced + {x};
      ForceBits(desc, w, lens, desc.elems, x);
    }
  }

  // Symbols `forced` were added to the used ones with frequency 1.
  ghost predicate Forced(desc: TreeDesc, w0: seq<nat>, w: seq<nat>, s: set<nat>, forced: set<nat>, opt: int, stat: int) {
    && Balanced(desc, w0, w, forced, opt, stat)
    && s == Frequent(w, desc.elems) == Frequent(w0, desc.elems) + forced
    && (forall x :: 0 <= x < |w| ==> w[x] == if x in forced then 1 else w0[x])
    && FreqTotal(w, desc.elems) == FreqTotal(w0, desc.elems) + |forced| && |forced| <= 2
    && |s| == |Frequent(w0, desc.elems)| + |forced|
    && (forced != {} ==> |s| <= 2)
  }

  lemma ForceStart(desc: TreeDesc, w0: seq<nat>)
    requires DescOk(desc) && |w0| == HEAP_SIZE
    ensures Forced(desc, w0, w0, Frequent(w0, desc.elems), {}, 0, 0)
  {
    hide CodedBits, StaticBits, FreqTotal;
    var s := Frequent(w0, desc.elems);
    assert s + {} == s;
  }

  function ForcedNode(maxCode: int): (n: nat)
    requires -1 <= maxCode
  {
    if maxCode < 2 then maxCode + 1 else 0
  }

  // The node chosen is new and among the first three.
  lemma ForcedNodeIsNew(s: set<nat>, maxCode: int)
    requires |s| < 2 && Largest(s, maxCode)
    ensures var x := ForcedNode(maxCode);
            && x < 3 && x !in s && Largest(s + {x}, if maxCode < 2 then x else maxCode)
            && (x == 2 <==> s == {1})
  {
    if maxCode >= 0 {
      assert s - {maxCode} == {} || |s - {maxCode}| >= 1;
      OneLeft(s, maxCode, maxCode);
    } else {
      assert s == {};
    }
  }

  lemma FrequentAdd(w: seq<nat>, n: nat, x: nat)
    requires n <= |w| && x < n
    ensures Frequent(w[x := 1], n) == Frequent(w, n) + {x}
    ensures x !in Frequent(w, n) ==> w[x] == 0
  {
  }

  lemma BalancedDesc(desc: TreeDesc, w0: seq<nat>, w: seq<nat>, forced: set<nat>, opt: int, stat: int)
    requires Balanced(desc, w0, w, forced, opt, stat)
    ensures DescOk(desc) && 3 <= desc.elems <= |w| == |w0| && (desc.stree == [] || |desc.stree| >= 3)
  {
  }

  lemma ForceStep(desc: TreeDesc, w0: seq<nat>, w: seq<nat>, s: set<nat>, forced: set<nat>, opt: int, stat: int, maxCode: int)
    requires Forced(desc, w0, w, s, forced, opt, stat) && |s| < 2 && -1 <= maxCode && Largest(s, maxCode)
    ensures DescOk(desc)
    ensures var x := ForcedNode(maxCode);
            && x < 3 && x < |w| && x < desc.elems && x !in s
            && Forced(desc, w0, w[x := 1], s + {x}, forced + {x}, opt - 1, stat - if desc.stree == [] then 0 else desc.stree[x])
            && Largest(s + {x}, if maxCode < 2 then x else maxCode)
  {
    hide Balanced, FreqTotal, Largest, ForcedNode, DescOk, Frequent;
    var x := ForcedNode(maxCode);
    ForcedNodeIsNew(s, maxCode);
    BalancedDesc(desc, w0, w, forced, opt, stat);
    FrequentAdd(w, desc.elems, x);
    BalancedStep(desc, w0, w, forced, opt, stat, x);
    FreqTotalUpdate(w, desc.elems, x, 1);
    assert Frequent(w0, desc.elems) + (forced + {x}) == s + {x};
  }

  // ----- heap order -----------------------------------------------------------------------------------------

  method Heapify(heap: array<nat>, heapLen: nat, freq: seq<nat>, depth: seq<nat>, ghost s: set<nat>)
    requires heapLen < heap.Length && Queue(heap[..], heapLen, s)
    requires |freq| == |depth| && forall x :: x in s ==> x < |freq|
    modifies heap
    ensures HeapFrom(heap[..], heapLen, 1, freq, depth) && Queue(heap[..], heapLen, s)
  {
    hide SameMembers, Queue, Smaller;
    QueueMembers(heap[..], heapLen, s);
    var n := heapLen / 2;
    while n >= 1
      invariant 0 <= n <= heapLen / 2 && Queue(heap[..], heapLen, s) && HeapFrom(heap[..], heapLen, n + 1, freq, depth)
      decreases n
    {
      ghost var h := heap[..];
      PqDownHeap(heap, heapLen, freq, depth, n);
      QueueSame(h, heap[..], heapLen, s);
      n := n - 1;
    }
  }

  method CollectSymbols(desc: TreeDesc, heap: array<nat>, w: seq<nat>, dl0: seq<nat>, depth0: seq<nat>)
    returns (heapLen: nat, maxCode: int, dl: seq<nat>, depth: seq<nat>)
    requires heap.Length == |w| == |dl0| == |depth0| == HEAP_SIZE && DescOk(desc)
    modifies heap
    ensures Collected(desc, w, heap[..], heapLen, dl, desc.elems, maxCode)
    ensures |depth| == |depth0| && forall n :: 0 <= n < desc.elems && w[n] != 0 ==> depth[n] == 0
  {
    hide Queue;
    heapLen, maxCode, dl, depth := 0, -1, dl0, depth0;
    EmptyQueue(heap[..]);
    assert Frequent(w, 0) == {};
    for n := 0 to desc.elems
      invariant Collected(desc, w, heap[..], heapLen, dl, n, maxCode)
      invariant |depth| == |depth0| && forall i :: 0 <= i < n && w[i] != 0 ==> depth[i] == 0
    {
      ghost var h := heap[..];
      CollectStep(desc, w, h, heapLen, dl, n, maxCode);
      if w[n] != 0 {
        heapLen := heapLen + 1;
        heap[heapLen] := n;
        maxCode := n;
        depth := depth[n := 0];
        assert heap[..] == h[heapLen := n];
      } else {
        dl := dl[n := 0];
      }
    }
  }

  lemma EmptyQueue(h: seq<nat>)
    requires |h| > 0
    ensures Queue(h, 0, {})
  {
    assert h[1..1] == [];
  }

  // Everything before the first merge.
  method StartTree(desc: TreeDesc, heap: array<nat>, w0: seq<nat>, dl0: seq<nat>, depth0: seq<nat>, optLen0: int, staticLen0: int)
    returns (heapLen: nat, maxCode: nat, w: seq<nat>, dl: seq<nat>, depth: seq<nat>, optLen: int, staticLen: int,
        ghost s: set<nat>, ghost forced: set<nat>)
    requires heap.Length == |w0| == |dl0| == |depth0| == HEAP_SIZE && DescOk(desc) && FreqTotal(w0, desc.elems) < 65534
    modifies heap
    ensures Forced(desc, w0, w, s, forced, optLen - optLen0, staticLen - staticLen0)
    ensures heapLen == |s| >= 2 && Largest(s, maxCode) && maxCode < desc.elems
    ensures Growing(desc, [s], heap[..], w, dl, depth, 0, heapLen, SumOver(s, w, HEAP_SIZE))
    ensures forall x :: x in s ==> x < |depth| && depth[x] == 0
  {
    hide Forced, Queue, HeapFrom, FreqTotal, CodedBits, StaticBits;
    var largest;
    heapLen, largest, dl, depth := CollectSymbols(desc, heap, w0, dl0, depth0);
    w, optLen, staticLen := w0, optLen0, staticLen0;
    s, forced := Frequent(w0, desc.elems), {};
    ForceStart(desc, w0);
    QueueMembers(heap[..], heapLen, s);
    while heapLen < 2
      invariant heapLen == |s| <= desc.elems && Queue(heap[..], heapLen, s) && Largest(s, largest)
      invariant forall x :: x in s ==> x < desc.elems
      invariant Forced(desc, w0, w, s, forced, optLen - optLen0, staticLen - staticLen0)
      invariant |w| == |dl| == |depth| == HEAP_SIZE && forall x :: 0 <= x < desc.elems && x !in s ==> dl[x] == 0
      invariant forall x :: x in s ==> depth[x] == 0
    {
      ForceStep(desc, w0, w, s, forced, optLen - optLen0, staticLen - staticLen0, largest);
      var node: nat := if largest < 2 then largest + 1 else 0;
      QueueAdd(heap[..], heapLen, s, node);
      ghost var h := heap[..];
      heapLen := heapLen + 1;
      heap[heapLen] := node;
      assert heap[..] == h[heapLen := node];
      if largest < 2 {
        largest := node;
      }
      w := w[node := 1];
      depth := depth[node := 0];
      optLen := optLen - 1;
      if desc.stree != [] {
        staticLen := staticLen - desc.stree[node];
      }
      s, forced := s + {node}, forced + {node};
    }
    LargestIs(s, largest);
    maxCode := largest;
    Heapify(heap, heapLen, w, depth, s);
    ForcedTotal(desc, w0, w, s, forced, optLen - optLen0, staticLen - staticLen0);
    GrowStart(desc, heap[..], heapLen, w, dl, depth, s, SumOver(s, w, HEAP_SIZE));
  }

  lemma LargestIs(s: set<nat>, largest: int)
    requires Largest(s, largest) && |s| >= 2
    ensures largest in s
  {
    var x :| x in s;
  }

  lemma ForcedTotal(desc: TreeDesc, w0: seq<nat>, w: seq<nat>, s: set<nat>, forced: set<nat>, opt: int, stat: int)
    requires Forced(desc, w0, w, s, forced, opt, stat) && FreqTotal(w0, desc.elems) < 65534
    ensures |w| == HEAP_SIZE && SumOver(s, w, HEAP_SIZE) < 65536
  {
    hide CodedBits, StaticBits;
    TotalIsSum(w, s, desc.elems);
    SumBeyond(s, w, desc.elems, HEAP_SIZE);
  }
}
