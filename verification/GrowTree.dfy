/** How `build_tree` grows the tree: a heap of the used symbols, from which the two lightest nodes are
    taken again and again to become brothers. */
module GrowTree {
  import opened HuffmanOptimal
  import opened HuffmanHeap
  import opened HuffmanTree
  import opened BitLengths
  import opened GenLengths

  // ----- the heap as a set of nodes ------------------------------------------------------------------

  ghost predicate Queue(h: seq<nat>, len: nat, s: set<nat>) {
    len < |h| && multiset(h[1..len + 1]) == multiset(s)
  }

  lemma QueueMembers(h: seq<nat>, len: nat, s: set<nat>)
    requires Queue(h, len, s)
    ensures |s| == len
    ensures forall i :: 1 <= i <= len ==> h[i] in s
    ensures forall x :: x in s ==> exists i :: 1 <= i <= len && h[i] == x
  {
    assert |multiset(s)| == |s|;
    forall i | 1 <= i <= len
      ensures h[i] in s
    {
      assert h[1..len + 1][i - 1] in multiset(s);
    }
    forall x | x in s
      ensures exists i :: 1 <= i <= len && h[i] == x
    {
      assert x in multiset(h[1..len + 1]);
      var k :| 0 <= k < len && h[1..len + 1][k] == x;
      assert h[k + 1] == x;
    }
  }

  lemma QueueSame(h: seq<nat>, h': seq<nat>, len: nat, s: set<nat>)
    requires Queue(h, len, s) && SameMembers(h, h', len)
    ensures Queue(h', len, s)
  {
  }

  lemma QueueElsewhere(h: seq<nat>, h': seq<nat>, len: nat, s: set<nat>)
    requires Queue(h, len, s) && |h'| == |h| && forall i :: 1 <= i <= len ==> h'[i] == h[i]
    ensures Queue(h', len, s)
  {
    assert h'[1..len + 1] == h[1..len + 1];
  }

  lemma DropFirst(a: seq<nat>, s: set<nat>)
    requires a != [] && multiset(a) == multiset(s)
    ensures a[0] in s && multiset(a[1..]) == multiset(s - {a[0]})
  {
    assert a == [a[0]] + a[1..];
    assert a[0] in multiset(a);
    assert multiset(s) == multiset(s - {a[0]}) + multiset{a[0]};
    Cancel(multiset(a[1..]), multiset(s - {a[0]}), a[0]);
  }

  lemma Cancel(a: multiset<nat>, b: multiset<nat>, x: nat)
    requires multiset{x} + a == b + multiset{x}
    ensures a == b
  {
    forall y: nat
      ensures a[y] == b[y]
    {
      assert (multiset{x} + a)[y] == (b + multiset{x})[y];
    }
  }

  // The last node moves into the place of the first.
  lemma QueuePop(h: seq<nat>, len: nat, s: set<nat>)
    requires Queue(h, len, s) && len >= 1
    ensures h[1] in s && Queue(h[1 := h[len]], len - 1, s - {h[1]})
  {
    var a := h[1..len + 1];
    var h' := h[1 := h[len]];
    DropFirst(a, s);
    if len >= 2 {
      var mid := h[2..len];
      assert a[1..] == mid + [h[len]];
      assert h'[1..len] == [h[len]] + mid;
    } else {
      assert h'[1..len] == [] && a[1..] == [];
    }
  }

  lemma QueueReplace(h: seq<nat>, len: nat, s: set<nat>, x: nat)
    requires Queue(h, len, s) && len >= 1 && x !in s
    ensures h[1] in s && Queue(h[1 := x], len, s - {h[1]} + {x})
  {
    var a := h[1..len + 1];
    DropFirst(a, s);
    assert h[1 := x][1..len + 1] == [x] + a[1..];
    assert multiset(s - {h[1]} + {x}) == multiset(s - {h[1]}) + multiset{x};
  }

  lemma QueueAdd(h: seq<nat>, len: nat, s: set<nat>, x: nat)
    requires Queue(h, len, s) && len + 1 < |h| && x !in s
    ensures Queue(h[len + 1 := x], len + 1, s + {x})
  {
    var h' := h[len + 1 := x];
    assert h'[1..len + 2] == h[1..len + 1] + [x];
    assert multiset(s + {x}) == multiset(s) + multiset{x};
  }

  // The root of the heap is the lightest node.
  // The node n goes before all others in s: it is lighter, or as light with no higher a subtree.
  ghost predicate Leads(s: set<nat>, n: nat, freq: seq<nat>, depth: seq<nat>) {
    |freq| == |depth| && n < |freq| && forall x :: x in s ==> x < |freq| && Smaller(freq, depth, n, x)
  }

  lemma QueueLeads(h: seq<nat>, len: nat, s: set<nat>, freq: seq<nat>, depth: seq<nat>)
    requires Queue(h, len, s) && HeapFrom(h, len, 1, freq, depth) && len >= 1
    ensures len < |h| && Leads(s, h[1], freq, depth)
  {
    QueueMembers(h, len, s);
    forall x | x in s
      ensures x < |freq| && Smaller(freq, depth, h[1], x)
    {
      var i: nat :| 1 <= i <= len && h[i] == x;
      RootLeast(h, len, freq, depth, i);
    }
  }

  lemma QueueLeast(h: seq<nat>, len: nat, s: set<nat>, freq: seq<nat>, depth: seq<nat>)
    requires Queue(h, len, s) && HeapFrom(h, len, 1, freq, depth) && len >= 1
    ensures len < |h| && h[1] in s && (forall x :: x in s ==> x < |freq|) && (forall x :: x in s ==> freq[h[1]] <= freq[x])
  {
    QueueMembers(h, len, s);
    forall x | x in s
      ensures x < |freq| && freq[h[1]] <= freq[x]
    {
      var i: nat :| 1 <= i <= len && h[i] == x;
      RootLeast(h, len, freq, depth, i);
    }
  }

  lemma Shrink(h: seq<nat>, len: nat, freq: seq<nat>, depth: seq<nat>, x: nat)
    requires HeapFrom(h, len, 1, freq, depth) && len >= 2 && x < |freq|
    ensures HeapFrom(h[1 := h[len]], len - 1, 2, freq, depth)
  {
  }

  // A new node at the root leaves the order below it alone.
  lemma NewRoot(h: seq<nat>, len: nat, s: set<nat>, freq: seq<nat>, depth: seq<nat>, x: nat, f: nat, d: nat)
    requires HeapFrom(h, len, 1, freq, depth) && Queue(h, len, s) && len >= 1 && x !in s && x < |freq|
    ensures |freq| == |depth| && HeapFrom(h[1 := x], len, 2, freq[x := f], depth[x := d])
  {
    QueueMembers(h, len, s);
  }

  method PqRemove(heap: array<nat>, heapLen0: nat, freq: seq<nat>, depth: seq<nat>, ghost s: set<nat>)
    returns (top: nat, heapLen: nat)
    requires 2 <= heapLen0 < heap.Length && HeapFrom(heap[..], heapLen0, 1, freq, depth) && Queue(heap[..], heapLen0, s)
    modifies heap
    ensures heapLen == heapLen0 - 1 && top in s && (forall x :: x in s ==> x < |freq|) && forall x :: x in s ==> freq[top] <= freq[x]
    ensures Leads(s, top, freq, depth)
    ensures HeapFrom(heap[..], heapLen, 1, freq, depth) && Queue(heap[..], heapLen, s - {top})
    ensures heap[heapLen0..] == old(heap[heapLen0..])
  {
    hide HeapFrom, SameMembers, Queue, Leads;
    ghost var h := heap[..];
    QueueLeast(h, heapLen0, s, freq, depth);
    QueueLeads(h, heapLen0, s, freq, depth);
    QueuePop(h, heapLen0, s);
    top := heap[1];
    Shrink(h, heapLen0, freq, depth, top);
    heap[1] := heap[heapLen0];
    heapLen := heapLen0 - 1;
    ghost var h1 := heap[..];
    assert h1 == h[1 := h[heapLen0]];
    assert heap[heapLen0..] == h[heapLen0..];
    PqDownHeap(heap, heapLen, freq, depth, 1);
    QueueSame(h1, heap[..], heapLen, s - {top});
  }

  // ----- merging -----------------------------------------------------------------------------------------

  // The stored nodes are sorted by weight, and no root is lighter than any of them.
  ghost predicate ByWeight(h: seq<nat>, w: seq<nat>, s: set<nat>, lo: nat)
    requires lo <= |h|
  {
    && (forall i :: lo <= i < |h| ==> h[i] < |w|)
    && (forall i, j :: lo <= i <= j < |h| ==> w[h[j]] <= w[h[i]])
    && (forall i, x :: lo <= i < |h| && x in s && x < |w| ==> w[h[i]] <= w[x])
  }

  // After q merges: `len` roots wait in the heap, the 2q nodes joined so far are stored above them.
  ghost predicate Growing(desc: TreeDesc, acts: seq<set<nat>>, h: seq<nat>, w: seq<nat>, dl: seq<nat>, depth: seq<nat>,
      q: nat, len: nat, total: nat)
  {
    && |h| == |w| == |dl| == |depth| == HEAP_SIZE
    && DescOk(desc) && 1 <= len && len + q <= desc.elems
    && History(acts, h, w, desc.elems, q) && Dads(h, dl, desc.elems, q) && Gone(h, acts[q], q)
    && Queue(h, len, acts[q]) && HeapFrom(h, len, 1, w, depth)
    && (forall x :: x in acts[q] ==> x < desc.elems + q)
    && (forall x :: x in acts[0] ==> x < desc.elems)
    && (forall x :: 0 <= x < desc.elems && x !in acts[0] ==> dl[x] == 0)
    && SumOver(acts[q], w, HEAP_SIZE) == total < 65536
    && ByWeight(h, w, acts[q], HEAP_SIZE - 2 * q)
  }

  lemma GoneStep(acts: seq<set<nat>>, h: seq<nat>, h': seq<nat>, w: seq<nat>, elems: nat, q: nat, s': set<nat>, n: nat, m: nat)
    requires History(acts, h, w, elems, q) && Gone(h, acts[q], q) && 2 * q + 2 <= HEAP_SIZE == |h'|
    requires forall i :: HEAP_SIZE - 2 * q <= i < HEAP_SIZE ==> h'[i] == h[i]
    requires First(h', q) == n && Second(h', q) == m && n != elems + q && m != elems + q
    requires s' == acts[q] - {n, m} + {elems + q}
    ensures Gone(h', s', q + 1)
  {
    forall j | 0 <= j < q
      ensures First(h', j) !in s' && Second(h', j) !in s'
    {
      assert Merged(acts[j], acts[j + 1], First(h, j), Second(h, j), elems + j, w);
      assert First(h', j) == First(h, j) && Second(h', j) == Second(h, j);
    }
  }

  lemma WeightStep(h: seq<nat>, h': seq<nat>, w: seq<nat>, w': seq<nat>, s: set<nat>, s': set<nat>, lo: nat, n: nat, m: nat, p: nat)
    requires 2 <= lo <= |h| == |h'| && |w'| == |w| && ByWeight(h, w, s, lo)
    requires forall i :: lo <= i < |h| ==> h'[i] == h[i] && h[i] != p
    requires h'[lo - 1] == n && h'[lo - 2] == m
    requires forall x :: 0 <= x < |w| && x != p ==> w'[x] == w[x]
    requires Merged(s, s', n, m, p, w')
    ensures ByWeight(h', w', s', lo - 2)
  {
    assert forall x :: x in s' ==> x in s || x == p;
    assert w'[n] <= w'[m] <= w'[p];
  }

  lemma SumStep(s: set<nat>, s': set<nat>, w: seq<nat>, w': seq<nat>, n: nat, m: nat, p: nat)
    requires Merged(s, s', n, m, p, w') && |w'| == |w| && forall x :: 0 <= x < |w| && x != p ==> w'[x] == w[x]
    ensures SumOver(s', w', |w|) == SumOver(s, w, |w|)
  {
    hide SumOver;
    Unmerge(s, s', n, m, p, w', w');
    SumAgree(s, s, w, w', |w|);
  }

  // The two lightest roots weigh no more than all of them.
  lemma TwoWeigh(s: set<nat>, w: seq<nat>, n: nat, m: nat)
    requires n in s && m in s && n != m && n < |w| && m < |w|
    ensures w[n] + w[m] <= SumOver(s, w, |w|)
  {
    hide SumOver;
    SumDropTwo(s, w, |w|, n, m);
  }

  lemma GrowStep(desc: TreeDesc, acts: seq<set<nat>>, h: seq<nat>, w: seq<nat>, dl: seq<nat>, depth: seq<nat>,
      q: nat, len: nat, total: nat, n: nat, m: nat, h': seq<nat>, w': seq<nat>, depth': seq<nat>, s': set<nat>)
    requires Growing(desc, acts, h, w, dl, depth, q, len, total) && len >= 2 && |h'| == |depth'| == HEAP_SIZE
    requires forall i :: HEAP_SIZE - 2 * q <= i < HEAP_SIZE ==> h'[i] == h[i]
    requires First(h', q) == n && Second(h', q) == m
    requires |w'| == |w| && forall x :: 0 <= x < |w| && x != desc.elems + q ==> w'[x] == w[x]
    requires Merged(acts[q], s', n, m, desc.elems + q, w')
    requires Queue(h', len - 1, s') && HeapFrom(h', len - 1, 1, w', depth')
    ensures n < HEAP_SIZE && m < HEAP_SIZE
    ensures Growing(desc, acts + [s'], h', w', dl[n := desc.elems + q][m := desc.elems + q], depth', q + 1, len - 1, total)
  {
    hide Queue, HeapFrom, History, SumOver, ByWeight, DescOk, Gone, Dads;
    var p := desc.elems + q;
    HistoryStep(acts, h, h', w, w', dl, desc.elems, q, s', n, m);
    GoneStep(acts, h, h', w, desc.elems, q, s', n, m);
    StoredBefore(acts, h, w, desc.elems, q);
    WeightStep(h, h', w, w', acts[q], s', HEAP_SIZE - 2 * q, n, m, p);
    SumStep(acts[q], s', w, w', n, m, p);
    LeavesStay(acts, h, w, desc.elems, q, n, m);
    HistoryShape(acts, h, w, desc.elems, q);
  }

  lemma HistoryShape(acts: seq<set<nat>>, h: seq<nat>, w: seq<nat>, elems: nat, q: nat)
    requires History(acts, h, w, elems, q)
    ensures |acts| == q + 1
  {
  }

  lemma StoredBefore(acts: seq<set<nat>>, h: seq<nat>, w: seq<nat>, elems: nat, q: nat)
    requires History(acts, h, w, elems, q)
    ensures forall i :: HEAP_SIZE - 2 * q <= i < HEAP_SIZE ==> h[i] < elems + q
  {
    forall i | HEAP_SIZE - 2 * q <= i < HEAP_SIZE
      ensures h[i] < elems + q
    {
      var j := Pair(i);
      assert Merged(acts[j], acts[j + 1], First(h, j), Second(h, j), elems + j, w);
      assert NodeOf(h, j, h[i]);
    }
  }

  lemma LeavesStay(acts: seq<set<nat>>, h: seq<nat>, w: seq<nat>, elems: nat, q: nat, n: nat, m: nat)
    requires History(acts, h, w, elems, q) && n in acts[q] && m in acts[q]
    ensures n < elems ==> n in acts[0]
    ensures m < elems ==> m in acts[0]
  {
    if n < elems {
      RootFromStart(acts, h, w, elems, q, q, n);
    }
    if m < elems {
      RootFromStart(acts, h, w, elems, q, q, m);
    }
  }

  lemma GrowStart(desc: TreeDesc, h: seq<nat>, len: nat, w: seq<nat>, dl: seq<nat>, depth: seq<nat>, s: set<nat>, total: nat)
    requires |h| == |w| == |dl| == |depth| == HEAP_SIZE && DescOk(desc) && 1 <= len <= desc.elems
    requires Queue(h, len, s) && HeapFrom(h, len, 1, w, depth) && forall x :: x in s ==> x < desc.elems
    requires forall x :: 0 <= x < desc.elems && x !in s ==> dl[x] == 0
    requires SumOver(s, w, HEAP_SIZE) == total < 65536
    ensures Growing(desc, [s], h, w, dl, depth, 0, len, total)
  {
  }

  lemma GrowEnd(desc: TreeDesc, acts: seq<set<nat>>, h: seq<nat>, w: seq<nat>, dl: seq<nat>, depth: seq<nat>, q: nat, total: nat)
    requires Growing(desc, acts, h, w, dl, depth, q, 1, total) && q >= 1
    ensures 2 * q < HEAP_SIZE && |h| == HEAP_SIZE && Grown(desc, acts, h[Top(q) := h[1]], w, dl, q)
    ensures 1 < Top(q) && ByWeight(h[Top(q) := h[1]], w, {}, Top(q))
  {
    hide HeapFrom, SumOver, ByWeight, Gone, History, Dads, Queue;
    GrowBounds(desc, acts, h, w, dl, depth, q, 1, total);
    RootByWeight(h, w, acts[q], HEAP_SIZE - 2 * q, h[1]) by { QueueMembers(h, 1, acts[q]); }
    HistoryShape(acts, h, w, desc.elems, q);
    QueueMembers(h, 1, acts[q]);
    LastRoot(acts, h, w, desc.elems, q);
    OneLeft(acts[q], h[1], desc.elems + q - 1);
    TopWritten(acts, h, w, dl, desc.elems, q, h[1]);
  }

  // The last root outweighs all stored nodes.
  lemma RootByWeight(h: seq<nat>, w: seq<nat>, s: set<nat>, lo: nat, root: nat)
    requires 1 <= lo <= |h| && ByWeight(h, w, s, lo) && root in s && root < |w|
    ensures ByWeight(h[lo - 1 := root], w, {}, lo - 1)
  {
  }

  lemma LastRoot(acts: seq<set<nat>>, h: seq<nat>, w: seq<nat>, elems: nat, q: nat)
    requires History(acts, h, w, elems, q) && q >= 1
    ensures elems + q - 1 in acts[q]
  {
    var j := q - 1;
    assert Merged(acts[j], acts[j + 1], First(h, j), Second(h, j), elems + j, w);
  }

  // Writing the root below the stored pairs changes none of them.
  lemma TopWritten(acts: seq<set<nat>>, h: seq<nat>, w: seq<nat>, dl: seq<nat>, elems: nat, q: nat, root: nat)
    requires 2 * q < HEAP_SIZE && History(acts, h, w, elems, q) && Dads(h, dl, elems, q)
    ensures History(acts, h[Top(q) := root], w, elems, q) && Dads(h[Top(q) := root], dl, elems, q)
  {
    hide Merged;
    var h' := h[Top(q) := root];
    forall j | 0 <= j < q
      ensures Merged(acts[j], acts[j + 1], First(h', j), Second(h', j), elems + j, w)
      ensures First(h', j) == First(h, j) && Second(h', j) == Second(h, j)
    {
      assert Merged(acts[j], acts[j + 1], First(h, j), Second(h, j), elems + j, w);
    }
  }

  lemma OneLeft(s: set<nat>, x: nat, y: nat)
    requires |s| == 1 && x in s && y in s
    ensures s == {x} && x == y
  {
    assert |s - {x}| == 0;
  }

  lemma GrowBounds(desc: TreeDesc, acts: seq<set<nat>>, h: seq<nat>, w: seq<nat>, dl: seq<nat>, depth: seq<nat>,
      q: nat, len: nat, total: nat)
    requires Growing(desc, acts, h, w, dl, depth, q, len, total)
    ensures |h| == |w| == |dl| == |depth| == HEAP_SIZE && |acts| == q + 1 && desc.elems + q < HEAP_SIZE
    ensures 1 <= len && len + 2 * q + 1 < HEAP_SIZE
    ensures Queue(h, len, acts[q]) && HeapFrom(h, len, 1, w, depth)
    ensures desc.elems + q !in acts[q] && SumOver(acts[q], w, HEAP_SIZE) == total < 65536
    ensures forall x :: x in acts[q] ==> x < desc.elems + q
  {
    hide HeapFrom, Queue, SumOver, ByWeight, Gone, Dads;
  }

  lemma NewNode(h: seq<nat>, len: nat, s: set<nat>, freq: seq<nat>, depth: seq<nat>, n: nat, x: nat, f: nat, d: nat)
    requires HeapFrom(h, len, 1, freq, depth) && Queue(h, len, s - {n}) && len >= 1 && x !in s && x < |freq|
    requires n in s && (forall y :: y in s ==> y < x) && forall y :: y in s ==> y < |freq| && freq[n] <= freq[y]
    requires h[1] < |freq| && n < |freq| && f == freq[n] + freq[h[1]]
    ensures |freq| == |depth| && HeapFrom(h[1 := x], len, 2, freq[x := f], depth[x := d])
    ensures Queue(h[1 := x], len, s - {n, h[1]} + {x})
    ensures Merged(s, s - {n, h[1]} + {x}, n, h[1], x, freq[x := f])
  {
    hide HeapFrom, Queue;
    NewRoot(h, len, s - {n}, freq, depth, x, f, d);
    QueueReplace(h, len, s - {n}, x);
    QueueLeast(h, len, s - {n}, freq, depth);
    assert s - {n} - {h[1]} + {x} == s - {n, h[1]} + {x};
  }

  // The two nodes that go first are joined, and the new subtree is one higher than the higher of theirs.
  ghost predicate Joined(s: set<nat>, n: nat, m: nat, x: nat, freq: seq<nat>, depth: seq<nat>, depth': seq<nat>) {
    && Leads(s, n, freq, depth) && Leads(s - {n}, m, freq, depth) && x < |depth|
    && depth' == depth[x := (1 + if depth[n] >= depth[m] then depth[n] else depth[m]) % 256]
  }

  lemma JoinedNow(s: set<nat>, n: nat, m: nat, x: nat, freq: seq<nat>, depth: seq<nat>)
    requires Leads(s, n, freq, depth) && Leads(s - {n}, m, freq, depth) && x < |depth|
    ensures n < |depth| && m < |depth|
    ensures Joined(s, n, m, x, freq, depth, depth[x := ((if depth[n] >= depth[m] then depth[n] else depth[m]) + 1) % 256])
  {
    hide Smaller;
  }

  // One round of merging. Frequencies are 16 bits wide and depths 8, as in the source.
  method MergeTwo(desc: TreeDesc, heap: array<nat>, heapLen0: nat, heapMax0: nat, node: nat, w0: seq<nat>, dl0: seq<nat>,
      depth0: seq<nat>, ghost acts0: seq<set<nat>>, ghost q: nat, ghost total: nat)
    returns (heapLen: nat, heapMax: nat, w: seq<nat>, dl: seq<nat>, depth: seq<nat>, ghost acts: seq<set<nat>>)
    requires heap.Length == HEAP_SIZE && Growing(desc, acts0, heap[..], w0, dl0, depth0, q, heapLen0, total)
    requires heapLen0 >= 2 && heapMax0 == HEAP_SIZE - 2 * q && node == desc.elems + q
    modifies heap
    ensures heapLen == heapLen0 - 1 && heapMax == heapMax0 - 2
    ensures Growing(desc, acts, heap[..], w, dl, depth, q + 1, heapLen, total)
    ensures |w| == |w0| && (forall x :: 0 <= x < |w| && x != node ==> w[x] == w0[x])
    ensures acts0 != [] && acts != [] && acts[0] == acts0[0]
    ensures Joined(if q < |acts0| then acts0[q] else {}, First(heap[..], q), Second(heap[..], q), node, w0, depth0, depth)
  {
    hide Growing, HeapFrom, Queue, SameMembers, SumOver, Leads, Merged, Joined, ByWeight, Gone, Dads, History, Smaller;
    ghost var h := heap[..];
    GrowBounds(desc, acts0, h, w0, dl0, depth0, q, heapLen0, total);
    ghost var s := acts0[q];
    var n;
    n, heapLen := PqRemove(heap, heapLen0, w0, depth0, s);
    ghost var h1 := heap[..];
    QueueLeast(h1, heapLen, s - {n}, w0, depth0);
    QueueLeads(h1, heapLen, s - {n}, w0, depth0);
    var m := heap[1];
    heapMax := heapMax0 - 1;
    heap[heapMax] := n;
    heapMax := heapMax - 1;
    heap[heapMax] := m;
    TwoWeigh(s, w0, n, m);
    var f := (w0[n] + w0[m]) % 65536;
    var d := ((if depth0[n] >= depth0[m] then depth0[n] else depth0[m]) + 1) % 256;
    w := w0[node := f];
    depth := depth0[node := d];
    JoinedNow(s, n, m, node, w0, depth0);
    dl := dl0[n := node][m := node];
    ghost var h2 := heap[..];
    ghost var s' := s - {n, m} + {node};
    StillHeap(h1, h2, heapLen, s - {n}, w0, depth0);
    NewNode(h2, heapLen, s, w0, depth0, n, node, f, d);
    heap[1] := node;
    ghost var h3 := heap[..];
    assert h3 == h2[1 := node];
    PqDownHeap(heap, heapLen, w, depth, 1);
    QueueSame(h3, heap[..], heapLen, s');
    acts := acts0 + [s'];
    Unmoved(h, h1, h3, heap[..], heapLen, q, n, m);
    GrowStep(desc, acts0, h, w0, dl0, depth0, q, heapLen0, total, n, m, heap[..], w, depth, s');
  }

  lemma StillHeap(h: seq<nat>, h': seq<nat>, len: nat, s: set<nat>, freq: seq<nat>, depth: seq<nat>)
    requires HeapFrom(h, len, 1, freq, depth) && Queue(h, len, s)
    requires |h'| == |h| && forall i :: 1 <= i <= len ==> h'[i] == h[i]
    ensures HeapFrom(h', len, 1, freq, depth) && Queue(h', len, s)
  {
    QueueElsewhere(h, h', len, s);
  }

  // The stored nodes stay where they are, and the new pair joins them.
  lemma Unmoved(h: seq<nat>, h1: seq<nat>, h3: seq<nat>, h4: seq<nat>, len: nat, q: nat, n: nat, m: nat)
    requires |h| == |h1| == |h3| == |h4| == HEAP_SIZE && len + 2 * q + 2 < HEAP_SIZE
    requires h1[len + 1..] == h[len + 1..] && h4[len + 1..] == h3[len + 1..]
    requires forall i :: HEAP_SIZE - 2 * q <= i < HEAP_SIZE ==> h3[i] == h1[i]
    requires First(h3, q) == n && Second(h3, q) == m
    ensures forall i :: HEAP_SIZE - 2 * q <= i < HEAP_SIZE ==> h4[i] == h[i]
    ensures First(h4, q) == n && Second(h4, q) == m
  {
    forall i | len < i < HEAP_SIZE
      ensures h1[i] == h[i] && h4[i] == h3[i]
    {
      assert h1[len + 1..][i - (len + 1)] == h[len + 1..][i - (len + 1)];
      assert h4[len + 1..][i - (len + 1)] == h3[len + 1..][i - (len + 1)];
    }
  }

  method MergeAll(desc: TreeDesc, heap: array<nat>, heapLen0: nat, w0: seq<nat>, dl0: seq<nat>, depth0: seq<nat>,
      ghost s: set<nat>, ghost total: nat)
    returns (heapMax: nat, w: seq<nat>, dl: seq<nat>, ghost acts: seq<set<nat>>, ghost q: nat)
    requires heap.Length == HEAP_SIZE && heapLen0 >= 2 && Growing(desc, [s], heap[..], w0, dl0, depth0, 0, heapLen0, total)
    modifies heap
    ensures Grown(desc, acts, heap[..], w, dl, q) && heapMax == Top(q) && acts != [] && acts[0] == s
    ensures q == heapLen0 - 1 && |w| == |w0| && forall x :: 0 <= x < |w| && x < desc.elems ==> w[x] == w0[x]
    ensures 1 < heapMax < HEAP_SIZE && ByWeight(heap[..], w, {}, heapMax)
  {
    hide Growing, Grown, ByWeight;
    var depth, heapLen, node := depth0, heapLen0, desc.elems;
    heapMax, w, dl, acts, q := HEAP_SIZE, w0, dl0, [s], 0;
    while heapLen >= 2
      invariant heapLen + q == heapLen0 && 1 <= heapLen
      invariant heapMax == HEAP_SIZE - 2 * q && node == desc.elems + q
      invariant Growing(desc, acts, heap[..], w, dl, depth, q, heapLen, total)
      invariant acts != [] && acts[0] == s
      invariant |w| == |w0| && forall x :: 0 <= x < |w| && x < desc.elems ==> w[x] == w0[x]
      decreases heapLen
    {
      heapLen, heapMax, w, dl, depth, acts := MergeTwo(desc, heap, heapLen, heapMax, node, w, dl, depth, acts, q, total);
      node := node + 1;
      q := q + 1;
    }
    GrowEnd(desc, acts, heap[..], w, dl, depth, q, total);
    heapMax := heapMax - 1;
    heap[heapMax] := heap[1];
  }
}
