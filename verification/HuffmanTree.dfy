/** The tree that `build_tree` grows, described by the history of its merges. The nodes are stored
    from the top of the heap array downwards: merge j joined the nodes at HEAP_SIZE-1-2j and
    HEAP_SIZE-2-2j into node elems+j. */
module HuffmanTree {
  import opened Bits
  import opened HuffmanOptimal

  const L_CODES := 286
  const HEAP_SIZE: nat := 573

  // The nodes joined by merge j.
  function First(h: seq<nat>, j: nat): nat
    requires |h| == HEAP_SIZE && 2 * j + 2 <= HEAP_SIZE
  {
    h[HEAP_SIZE - 1 - 2 * j]
  }

  function Second(h: seq<nat>, j: nat): nat
    requires |h| == HEAP_SIZE && 2 * j + 2 <= HEAP_SIZE
  {
    h[HEAP_SIZE - 2 - 2 * j]
  }

  // The two lightest nodes n and m of s give way to their father p.
  ghost predicate Merged(s: set<nat>, s': set<nat>, n: nat, m: nat, p: nat, w: seq<nat>) {
    && n in s && m in s && n != m && p !in s && p < |w|
    && (forall x :: x in s ==> x < p)
    && s' == s - {n, m} + {p}
    && w[p] == w[n] + w[m]
    && (forall x :: x in s ==> w[n] <= w[x])
    && (forall x :: x in s && x != n ==> w[m] <= w[x])
  }

  // acts[j] is the set of roots after j merges.
  ghost predicate History(acts: seq<set<nat>>, h: seq<nat>, w: seq<nat>, elems: nat, q: nat) {
    && |h| == HEAP_SIZE && 2 * q <= HEAP_SIZE && |acts| == q + 1
    && forall j :: 0 <= j < q ==> Merged(acts[j], acts[j + 1], First(h, j), Second(h, j), elems + j, w)
  }

  // Every node below a merge knows its father.
  ghost predicate Dads(h: seq<nat>, dl: seq<nat>, elems: nat, q: nat)
    requires |h| == HEAP_SIZE && 2 * q <= HEAP_SIZE
  {
    forall j :: 0 <= j < q ==>
      && First(h, j) < |dl| && Second(h, j) < |dl|
      && dl[First(h, j)] == elems + j && dl[Second(h, j)] == elems + j
  }

  // The nodes already joined are roots no longer.
  ghost predicate Gone(h: seq<nat>, s: set<nat>, q: nat)
    requires |h| == HEAP_SIZE && 2 * q <= HEAP_SIZE
  {
    forall j :: 0 <= j < q ==> First(h, j) !in s && Second(h, j) !in s
  }

  // ----- one more merge ------------------------------------------------------------------------------

  lemma HistoryStep(acts: seq<set<nat>>, h: seq<nat>, h': seq<nat>, w: seq<nat>, w': seq<nat>, dl: seq<nat>,
      elems: nat, q: nat, s': set<nat>, n: nat, m: nat)
    requires History(acts, h, w, elems, q) && 2 * q + 2 <= HEAP_SIZE && |h'| == HEAP_SIZE
    requires forall i :: HEAP_SIZE - 2 * q <= i < HEAP_SIZE ==> h'[i] == h[i]
    requires First(h', q) == n && Second(h', q) == m
    requires |w'| == |w| && (forall x :: 0 <= x < |w| && x != elems + q ==> w'[x] == w[x])
    requires Merged(acts[q], s', n, m, elems + q, w')
    requires Dads(h, dl, elems, q) && Gone(h, acts[q], q) && n < |dl| && m < |dl|
    ensures History(acts + [s'], h', w', elems, q + 1)
    ensures Dads(h', dl[n := elems + q][m := elems + q], elems, q + 1)
  {
    assert Dads(h', dl[n := elems + q][m := elems + q], elems, q + 1) by {
      forall j | 0 <= j < q
        ensures First(h', j) == First(h, j) && Second(h', j) == Second(h, j)
      {
      }
    }
    HistoryKept(acts, h, h', w, w', elems, q, s');
  }

  lemma HistoryKept(acts: seq<set<nat>>, h: seq<nat>, h': seq<nat>, w: seq<nat>, w': seq<nat>,
      elems: nat, q: nat, s': set<nat>)
    requires History(acts, h, w, elems, q) && 2 * q + 2 <= HEAP_SIZE && |h'| == HEAP_SIZE
    requires forall i :: HEAP_SIZE - 2 * q <= i < HEAP_SIZE ==> h'[i] == h[i]
    requires |w'| == |w| && (forall x :: 0 <= x < |w| && x != elems + q ==> w'[x] == w[x])
    requires Merged(acts[q], s', First(h', q), Second(h', q), elems + q, w')
    ensures History(acts + [s'], h', w', elems, q + 1)
  {
    var acts' := acts + [s'];
    forall j | 0 <= j < q + 1
      ensures Merged(acts'[j], acts'[j + 1], First(h', j), Second(h', j), elems + j, w')
    {
      if j < q {
        assert Merged(acts[j], acts[j + 1], First(h, j), Second(h, j), elems + j, w);
        assert First(h', j) == First(h, j) && Second(h', j) == Second(h, j);
      }
    }
  }

  // ----- the merges are optimal ------------------------------------------------------------------------

  // The weights of the fathers made from merge j on: the cost of the tree above acts[j].
  ghost function Fathers(w: seq<nat>, elems: nat, j: nat, q: nat): nat
    requires j <= q && elems + q <= |w|
    decreases q - j
  {
    if j == q then 0 else w[elems + j] + Fathers(w, elems, j + 1, q)
  }

  lemma {:induction false} MergesOptimal(acts: seq<set<nat>>, h: seq<nat>, w: seq<nat>, elems: nat, q: nat, j: nat)
    requires History(acts, h, w, elems, q) && j <= q && elems + q <= |w|
    ensures LowerBound(acts[j], w, Fathers(w, elems, j, q))
    decreases q - j
  {
    hide Cost, Feasible;
    if j < q {
      MergesOptimal(acts, h, w, elems, q, j + 1);
      var n, m, p := First(h, j), Second(h, j), elems + j;
      assert Merged(acts[j], acts[j + 1], n, m, p, w);
      assert w[p := w[n] + w[m]] == w;
      MergeStep(acts[j], w, n, m, p, Fathers(w, elems, j + 1, q));
    }
  }

  // ----- once joined, a node is never a root again -----------------------------------------------------

  lemma {:induction false} NeverBack(acts: seq<set<nat>>, h: seq<nat>, w: seq<nat>, elems: nat, q: nat, x: nat, j: nat, i: nat)
    requires History(acts, h, w, elems, q) && j < i <= q
    requires x !in acts[j + 1] && x < elems + j
    ensures x !in acts[i]
    decreases i
  {
    if j + 1 < i {
      NeverBack(acts, h, w, elems, q, x, j, i - 1);
      assert Merged(acts[i - 1], acts[i], First(h, i - 1), Second(h, i - 1), elems + i - 1, w);
    }
  }

  // A root of an intermediate forest that is not a root at the end was joined in between.
  lemma {:induction false} FindMerge(acts: seq<set<nat>>, h: seq<nat>, w: seq<nat>, elems: nat, q: nat, x: nat, j: nat) returns (i: nat)
    requires History(acts, h, w, elems, q) && j <= q
    requires x in acts[j] && x !in acts[q]
    ensures j <= i < q && (x == First(h, i) || x == Second(h, i))
    decreases q - j
  {
    assert Merged(acts[j], acts[j + 1], First(h, j), Second(h, j), elems + j, w);
    if x == First(h, j) || x == Second(h, j) {
      i := j;
    } else {
      i := FindMerge(acts, h, w, elems, q, x, j + 1);
    }
  }

  // A symbol that is a root was one from the start.
  lemma {:induction false} RootFromStart(acts: seq<set<nat>>, h: seq<nat>, w: seq<nat>, elems: nat, q: nat, j: nat, x: nat)
    requires History(acts, h, w, elems, q) && j <= q && x in acts[j] && x < elems
    ensures x in acts[0]
  {
    if j > 0 {
      assert Merged(acts[j - 1], acts[j], First(h, j - 1), Second(h, j - 1), elems + (j - 1), w);
      RootFromStart(acts, h, w, elems, q, j - 1, x);
    }
  }

  ghost predicate NodeOf(h: seq<nat>, j: nat, x: nat)
    requires |h| == HEAP_SIZE && 2 * j + 2 <= HEAP_SIZE
  {
    x == First(h, j) || x == Second(h, j)
  }

  lemma MergesDistinct(acts: seq<set<nat>>, h: seq<nat>, w: seq<nat>, elems: nat, q: nat, j: nat, i: nat, x: nat, y: nat)
    requires History(acts, h, w, elems, q) && j < i < q
    requires NodeOf(h, j, x) && NodeOf(h, i, y)
    ensures x != y
  {
    assert Merged(acts[j], acts[j + 1], First(h, j), Second(h, j), elems + j, w);
    assert Merged(acts[i], acts[i + 1], First(h, i), Second(h, i), elems + i, w);
    NeverBack(acts, h, w, elems, q, x, j, i);
  }

  // ----- the depth of every node, cut off at the greatest length allowed -------------------------------------

  function Min(a: nat, b: nat): nat {
    if a <= b then a else b
  }

  function LenOf(dl: seq<nat>, root: nat, x: nat, max: nat): (l: nat)
    ensures l <= max
    decreases root - x
  {
    if x >= root || x >= |dl| || dl[x] <= x || dl[x] > root then 0
    else Min(LenOf(dl, root, dl[x], max) + 1, max)
  }

  function Depths(dl: seq<nat>, root: nat, max: nat): (g: seq<nat>)
    ensures |g| == |dl| && forall x :: 0 <= x < |g| ==> g[x] == LenOf(dl, root, x, max)
  {
    seq(|dl|, x requires 0 <= x < |dl| => LenOf(dl, root, x, max))
  }

  // What the depths look like to the merges: both nodes one below their father.
  ghost predicate OneBelow(h: seq<nat>, g: seq<nat>, elems: nat, q: nat, max: nat)
    requires |h| == HEAP_SIZE && 2 * q <= HEAP_SIZE
  {
    forall j :: 0 <= j < q ==>
      && First(h, j) < |g| && Second(h, j) < |g| && elems + j < |g|
      && g[First(h, j)] == Min(g[elems + j] + 1, max)
      && g[Second(h, j)] == Min(g[elems + j] + 1, max)
  }

  lemma DepthsOneBelow(acts: seq<set<nat>>, h: seq<nat>, w: seq<nat>, dl: seq<nat>, elems: nat, q: nat, max: nat)
    requires History(acts, h, w, elems, q) && Dads(h, dl, elems, q) && q >= 1 && elems + q <= |dl|
    ensures OneBelow(h, Depths(dl, elems + q - 1, max), elems, q, max)
    ensures Depths(dl, elems + q - 1, max)[elems + q - 1] == 0
  {
    forall j | 0 <= j < q
      ensures LenOf(dl, elems + q - 1, First(h, j), max) == Min(LenOf(dl, elems + q - 1, elems + j, max) + 1, max)
      ensures LenOf(dl, elems + q - 1, Second(h, j), max) == Min(LenOf(dl, elems + q - 1, elems + j, max) + 1, max)
    {
      assert Merged(acts[j], acts[j + 1], First(h, j), Second(h, j), elems + j, w);
    }
  }

  // How many merges, from merge j on, have a father that is already as deep as allowed.
  ghost function Over(g: seq<nat>, elems: nat, j: nat, q: nat, max: nat): nat
    requires j <= q && elems + q <= |g|
    decreases q - j
  {
    if j == q then 0 else (if g[elems + j] == max then 1 else 0) + Over(g, elems, j + 1, q, max)
  }

  function AtMax(g: seq<nat>, max: nat): (p: seq<nat>)
    ensures |p| == |g| && forall i :: 0 <= i < |p| ==> p[i] == if g[i] == max then 1 else 0
  {
    seq(|g|, i requires 0 <= i < |g| => if g[i] == max then 1 else 0)
  }

  // Undoing a merge in a sum over the roots.
  lemma Unmerge(s: set<nat>, s': set<nat>, n: nat, m: nat, p: nat, w: seq<nat>, f: seq<nat>)
    requires Merged(s, s', n, m, p, w) && |f| == |w|
    ensures SumOver(s, f, |f|) + f[p] == SumOver(s', f, |f|) + f[n] + f[m]
  {
    hide SumOver;
    var r := s - {n, m};
    SumDropTwo(s, f, |f|, n, m);
    SumAdd(r, f, |f|, p);
  }

  // The cut-off depths overfill the code space by one word of the greatest length for each merge
  // whose father is already that deep.
  lemma {:induction false} DepthsKraft(acts: seq<set<nat>>, h: seq<nat>, w: seq<nat>, g: seq<nat>, elems: nat, q: nat, j: nat, max: nat)
    requires History(acts, h, w, elems, q) && OneBelow(h, g, elems, q, max)
    requires j <= q && q >= 1 && elems + q <= |g| == |w|
    requires acts[q] == {elems + q - 1} && g[elems + q - 1] == 0 && max >= 1
    requires forall x :: 0 <= x < |g| ==> g[x] <= max
    ensures KraftOver(acts[j], g, max) == Pow2(max) + Over(g, elems, j, q, max)
    decreases q - j
  {
    hide SumOver;
    if j == q {
      SingleSum(Shares(g, max), elems + q - 1);
    } else {
      var n, m, p := First(h, j), Second(h, j), elems + j;
      assert Merged(acts[j], acts[j + 1], n, m, p, w);
      DepthsKraft(acts, h, w, g, elems, q, j + 1, max);
      Unmerge(acts[j], acts[j + 1], n, m, p, w, Shares(g, max));
    }
  }

  // There are more words of the greatest length than the excess.
  lemma {:induction false} DepthsAtMax(acts: seq<set<nat>>, h: seq<nat>, w: seq<nat>, g: seq<nat>, elems: nat, q: nat, j: nat, max: nat)
    requires History(acts, h, w, elems, q) && OneBelow(h, g, elems, q, max)
    requires j <= q && q >= 1 && elems + q <= |g| == |w|
    requires acts[q] == {elems + q - 1} && g[elems + q - 1] == 0 && max >= 1
    requires forall x :: 0 <= x < |g| ==> g[x] <= max
    ensures Over(g, elems, j, q, max) > 0 ==> SumOver(acts[j], AtMax(g, max), |g|) > Over(g, elems, j, q, max)
    decreases q - j
  {
    hide SumOver;
    if j == q {
    } else {
      var n, m, p := First(h, j), Second(h, j), elems + j;
      assert Merged(acts[j], acts[j + 1], n, m, p, w);
      DepthsAtMax(acts, h, w, g, elems, q, j + 1, max);
      Unmerge(acts[j], acts[j + 1], n, m, p, w, AtMax(g, max));
      MemberCounts(acts[j + 1], AtMax(g, max), p);
    }
  }

  // Without excess the cost is what the merges added up to.
  lemma {:induction false} DepthsCost(acts: seq<set<nat>>, h: seq<nat>, w: seq<nat>, g: seq<nat>, elems: nat, q: nat, j: nat, max: nat)
    requires History(acts, h, w, elems, q) && OneBelow(h, g, elems, q, max)
    requires j <= q && q >= 1 && elems + q <= |g| == |w|
    requires acts[q] == {elems + q - 1} && g[elems + q - 1] == 0 && max >= 1
    requires forall x :: 0 <= x < |g| ==> g[x] <= max
    ensures Over(g, elems, j, q, max) == 0 ==> Cost(acts[j], w, g) == Fathers(w, elems, j, q)
    decreases q - j
  {
    hide SumOver;
    if j == q {
      SingleSum(Products(w, g), elems + q - 1);
    } else {
      var n, m, p := First(h, j), Second(h, j), elems + j;
      assert Merged(acts[j], acts[j + 1], n, m, p, w);
      DepthsCost(acts, h, w, g, elems, q, j + 1, max);
      Unmerge(acts[j], acts[j + 1], n, m, p, w, Products(w, g));
      UnmergeProducts(w[n], w[m], g[p]);
    }
  }

  lemma MemberCounts(s: set<nat>, f: seq<nat>, x: nat)
    requires x in s && x < |f|
    ensures SumOver(s, f, |f|) >= f[x]
  {
    SumDrop(s, f, |f|, x);
  }

  lemma UnmergeProducts(a: nat, b: nat, d: nat)
    ensures a * (d + 1) + b * (d + 1) == (a + b) * d + (a + b)
  {
  }

  lemma SingleSum(f: seq<nat>, x: nat)
    requires x < |f|
    ensures SumOver({x}, f, |f|) == f[x]
  {
    SumAdd({}, f, |f|, x);
    SumEmpty(f, |f|);
    assert {} + {x} == {x};
  }
}
