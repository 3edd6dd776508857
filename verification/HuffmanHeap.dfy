/** The priority queue of `build_tree`: node numbers in heap[1..heap_len], least frequent first. */
module HuffmanHeap {

  // Equal frequencies are told apart by the depth of the subtrees.
  predicate Smaller(freq: seq<nat>, depth: seq<nat>, n: nat, m: nat)
    requires n < |freq| && m < |freq| && |freq| == |depth|
  {
    freq[n] < freq[m] || (freq[n] == freq[m] && depth[n] <= depth[m])
  }

  // Every node whose father sits at lo or above is no smaller than its father.
  ghost predicate HeapFrom(h: seq<nat>, len: nat, lo: nat, freq: seq<nat>, depth: seq<nat>) {
    && len < |h| && |freq| == |depth|
    && (forall i :: 1 <= i <= len ==> h[i] < |freq|)
    && (forall i :: 2 <= i <= len && i / 2 >= lo ==> Smaller(freq, depth, h[i / 2], h[i]))
  }

  // The same but for the children of k, which instead are no smaller than k's father.
  ghost predicate HeapBut(h: seq<nat>, len: nat, lo: nat, k: nat, freq: seq<nat>, depth: seq<nat>) {
    && len < |h| && |freq| == |depth| && 1 <= lo <= k <= len
    && (forall i :: 1 <= i <= len ==> h[i] < |freq|)
    && (forall i :: 2 <= i <= len && i / 2 >= lo && i / 2 != k ==> Smaller(freq, depth, h[i / 2], h[i]))
    && (forall i :: 2 <= i <= len && i / 2 == k && k / 2 >= lo ==> Smaller(freq, depth, h[k / 2], h[i]))
  }

  function Exchange(h: seq<nat>, i: nat, j: nat): seq<nat>
    requires i < |h| && j < |h|
  {
    h[i := h[j]][j := h[i]]
  }

  ghost predicate SameMembers(h: seq<nat>, h': seq<nat>, len: nat) {
    len < |h| == |h'| && multiset(h[1..len + 1]) == multiset(h'[1..len + 1])
  }

  lemma ExchangeKeeps(h0: seq<nat>, h: seq<nat>, len: nat, i: nat, j: nat)
    requires SameMembers(h0, h, len) && 1 <= i <= len && 1 <= j <= len
    ensures SameMembers(h0, Exchange(h, i, j), len)
  {
    var s := h[1..len + 1];
    assert Exchange(h, i, j)[1..len + 1] == s[i - 1 := s[j - 1]][j - 1 := s[i - 1]];
  }

  // j is a child of k and no larger than its sibling.
  ghost predicate LeastChild(h: seq<nat>, len: nat, k: nat, j: nat, freq: seq<nat>, depth: seq<nat>)
    requires len < |h| && |freq| == |depth| && forall i :: 1 <= i <= len ==> h[i] < |freq|
  {
    j / 2 == k && 1 <= j <= len && forall i :: 2 <= i <= len && i / 2 == k ==> Smaller(freq, depth, h[j], h[i])
  }

  lemma SmallestChild(h: seq<nat>, len: nat, k: nat, j: nat, freq: seq<nat>, depth: seq<nat>)
    requires len < |h| && |freq| == |depth| && forall i :: 1 <= i <= len ==> h[i] < |freq|
    requires 1 <= k && (j == 2 * k || j == 2 * k + 1) && j <= len
    requires j == 2 * k && j < len ==> !Smaller(freq, depth, h[j + 1], h[j])
    requires j == 2 * k + 1 ==> Smaller(freq, depth, h[j], h[j - 1])
    ensures LeastChild(h, len, k, j, freq, depth)
  {
  }

  lemma SmallerThanBoth(h: seq<nat>, len: nat, k: nat, j: nat, freq: seq<nat>, depth: seq<nat>)
    requires len < |h| && |freq| == |depth| && forall i :: 1 <= i <= len ==> h[i] < |freq|
    requires 1 <= k <= len && LeastChild(h, len, k, j, freq, depth) && Smaller(freq, depth, h[k], h[j])
    ensures forall i :: 2 <= i <= len && i / 2 == k ==> Smaller(freq, depth, h[k], h[i])
  {
  }

  // Moving the smaller child j of k up and k's node down moves the exception down to j.
  lemma SiftStep(h: seq<nat>, len: nat, lo: nat, k: nat, j: nat, freq: seq<nat>, depth: seq<nat>)
    requires HeapBut(h, len, lo, k, freq, depth)
    requires LeastChild(h, len, k, j, freq, depth) && !Smaller(freq, depth, h[k], h[j])
    ensures HeapBut(Exchange(h, k, j), len, lo, j, freq, depth)
  {
  }

  lemma SiftDone(h: seq<nat>, len: nat, lo: nat, k: nat, freq: seq<nat>, depth: seq<nat>)
    requires HeapBut(h, len, lo, k, freq, depth)
    requires forall i :: 2 <= i <= len && i / 2 == k ==> Smaller(freq, depth, h[k], h[i])
    ensures HeapFrom(h, len, lo, freq, depth)
  {
  }

  // The array as it would be with the node being moved down written at k.
  ghost predicate Sifting(h0: seq<nat>, h: seq<nat>, len: nat, lo: nat, k: nat, freq: seq<nat>, depth: seq<nat>) {
    && HeapBut(h, len, lo, k, freq, depth)
    && SameMembers(h0, h, len)
    && h[len + 1..] == h0[len + 1..]
  }

  lemma SiftStart(h: seq<nat>, len: nat, lo: nat, freq: seq<nat>, depth: seq<nat>)
    requires 1 <= lo <= len && HeapFrom(h, len, lo + 1, freq, depth)
    ensures Sifting(h, h, len, lo, lo, freq, depth)
  {
  }

  lemma Bounds(h0: seq<nat>, h: seq<nat>, len: nat, lo: nat, k: nat, freq: seq<nat>, depth: seq<nat>)
    requires Sifting(h0, h, len, lo, k, freq, depth)
    ensures len < |h| && |freq| == |depth| && 1 <= k <= len && forall i :: 1 <= i <= len ==> h[i] < |freq|
  {
  }

  lemma SiftRound(h0: seq<nat>, h: seq<nat>, len: nat, lo: nat, k: nat, j: nat, freq: seq<nat>, depth: seq<nat>)
    requires Sifting(h0, h, len, lo, k, freq, depth) && LeastChild(h, len, k, j, freq, depth)
    requires !Smaller(freq, depth, h[k], h[j])
    ensures Sifting(h0, Exchange(h, k, j), len, lo, j, freq, depth)
  {
    hide SameMembers, Smaller;
    SiftStep(h, len, lo, k, j, freq, depth);
    ExchangeKeeps(h0, h, len, k, j);
  }

  lemma SiftEnd(h0: seq<nat>, h: seq<nat>, len: nat, lo: nat, k: nat, j: nat, freq: seq<nat>, depth: seq<nat>)
    requires Sifting(h0, h, len, lo, k, freq, depth)
    requires 2 * k > len || (LeastChild(h, len, k, j, freq, depth) && Smaller(freq, depth, h[k], h[j]))
    ensures HeapFrom(h, len, lo, freq, depth) && SameMembers(h0, h, len) && h[len + 1..] == h0[len + 1..]
  {
    if 2 * k <= len {
      SmallerThanBoth(h, len, k, j, freq, depth);
    }
    SiftDone(h, len, lo, k, freq, depth);
  }

  method PqDownHeap(heap: array<nat>, heapLen: nat, freq: seq<nat>, depth: seq<nat>, k0: nat)
    requires 1 <= k0 <= heapLen < heap.Length
    requires HeapFrom(heap[..], heapLen, k0 + 1, freq, depth)
    modifies heap
    ensures HeapFrom(heap[..], heapLen, k0, freq, depth)
    ensures SameMembers(old(heap[..]), heap[..], heapLen)
    ensures heap[heapLen + 1..] == old(heap[heapLen + 1..])
  {
    hide Sifting, HeapFrom, Smaller, SameMembers, LeastChild;
    ghost var h0 := heap[..];
    var k := k0;
    var v := heap[k];
    var j := 2 * k;
    ghost var view := h0;
    SiftStart(h0, heapLen, k0, freq, depth);
    while j <= heapLen
      invariant j == 2 * k && Sifting(h0, view, heapLen, k0, k, freq, depth)
      invariant |view| == heap.Length && 1 <= k <= heapLen && view[k] == v
      invariant forall i :: 0 <= i < heap.Length && i != k ==> heap[i] == view[i]
      decreases heapLen - k
    {
      Bounds(h0, view, heapLen, k0, k, freq, depth);
      if j < heapLen && Smaller(freq, depth, heap[j + 1], heap[j]) {
        j := j + 1;
      }
      SmallestChild(view, heapLen, k, j, freq, depth);
      if Smaller(freq, depth, v, heap[j]) {
        break;
      }
      SiftRound(h0, view, heapLen, k0, k, j, freq, depth);
      view := Exchange(view, k, j);
      heap[k] := heap[j];
      k := j;
      j := 2 * j;
    }
    SiftEnd(h0, view, heapLen, k0, k, j, freq, depth);
    heap[k] := v;
    assert heap[..] == view;
  }

  // The root of the heap is least.
  lemma {:induction false} RootLeast(h: seq<nat>, len: nat, freq: seq<nat>, depth: seq<nat>, i: nat)
    requires HeapFrom(h, len, 1, freq, depth) && 1 <= i <= len
    ensures Smaller(freq, depth, h[1], h[i])
  {
    if i > 1 {
      RootLeast(h, len, freq, depth, i / 2);
    }
  }
}
