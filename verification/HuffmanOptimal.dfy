/** Why merging the two lightest nodes is optimal. Lengths are measured against every assignment that
    satisfies the Kraft inequality, hence against every prefix code on the same symbols. */
module HuffmanOptimal {
  import opened Bits

  // ----- sums over the members of a set of node numbers ------------------------------------------------

  ghost function SumOver(s: set<nat>, f: seq<nat>, n: nat): nat
    requires n <= |f|
  {
    if n == 0 then 0 else SumOver(s, f, n - 1) + (if n - 1 in s then f[n - 1] else 0)
  }

  lemma {:induction false} SumAgree(s: set<nat>, t: set<nat>, f: seq<nat>, g: seq<nat>, n: nat)
    requires n <= |f| && n <= |g|
    requires forall i: nat :: i < n ==> (i in s <==> i in t) && (i in s ==> f[i] == g[i])
    ensures SumOver(s, f, n) == SumOver(t, g, n)
  {
    if n > 0 {
      SumAgree(s, t, f, g, n - 1);
    }
  }

  lemma {:induction false} SumDrop(s: set<nat>, f: seq<nat>, n: nat, x: nat)
    requires x in s && x < n <= |f|
    ensures SumOver(s, f, n) == SumOver(s - {x}, f, n) + f[x]
  {
    if n - 1 == x {
      SumAgree(s, s - {x}, f, f, n - 1);
    } else {
      SumDrop(s, f, n - 1, x);
    }
  }

  lemma SumDropTwo(s: set<nat>, f: seq<nat>, n: nat, x: nat, y: nat)
    requires x in s && y in s && x != y && x < n && y < n <= |f|
    ensures SumOver(s, f, n) == SumOver(s - {x, y}, f, n) + f[x] + f[y]
  {
    SumDrop(s, f, n, x);
    SumDrop(s - {x}, f, n, y);
    assert s - {x} - {y} == s - {x, y};
  }

  lemma SumAdd(s: set<nat>, f: seq<nat>, n: nat, x: nat)
    requires x !in s && x < n <= |f|
    ensures SumOver(s + {x}, f, n) == SumOver(s, f, n) + f[x]
  {
    SumDrop(s + {x}, f, n, x);
    assert s + {x} - {x} == s;
  }

  lemma {:induction false} SumEmpty(f: seq<nat>, n: nat)
    requires n <= |f|
    ensures SumOver({}, f, n) == 0
  {
    if n > 0 {
      SumEmpty(f, n - 1);
    }
  }

  // ----- weights, lengths and the Kraft sum --------------------------------------------------------------

  function Products(w: seq<nat>, l: seq<nat>): (p: seq<nat>)
    requires |w| == |l|
    ensures |p| == |w| && forall i :: 0 <= i < |p| ==> p[i] == w[i] * l[i]
  {
    seq(|w|, i requires 0 <= i < |w| => w[i] * l[i])
  }

  // A code of length l takes 2^(m-l) of the 2^m words of length m.
  function Shares(l: seq<nat>, m: nat): (p: seq<nat>)
    ensures |p| == |l| && forall i :: 0 <= i < |p| ==> p[i] == if l[i] <= m then Pow2(m - l[i]) else 0
  {
    seq(|l|, i requires 0 <= i < |l| => if l[i] <= m then Pow2(m - l[i]) else 0)
  }

  ghost function Cost(s: set<nat>, w: seq<nat>, l: seq<nat>): nat
    requires |w| == |l|
  {
    SumOver(s, Products(w, l), |w|)
  }

  ghost function KraftOver(s: set<nat>, l: seq<nat>, m: nat): nat {
    SumOver(s, Shares(l, m), |l|)
  }

  ghost predicate Within(s: set<nat>, l: seq<nat>, m: nat) {
    forall i :: i in s ==> i < |l| && l[i] <= m
  }

  ghost predicate Feasible(s: set<nat>, l: seq<nat>, m: nat) {
    Within(s, l, m) && KraftOver(s, l, m) <= Pow2(m)
  }

  // No assignment of lengths that a prefix code could have costs less than c.
  ghost predicate LowerBound(s: set<nat>, w: seq<nat>, c: nat) {
    forall l: seq<nat>, m: nat :: |l| == |w| && Feasible(s, l, m) ==> c <= Cost(s, w, l)
  }

  lemma {:induction false} ShareScale(s: set<nat>, l: seq<nat>, m: nat, d: nat, n: nat)
    requires n <= |l| && Within(s, l, m)
    ensures SumOver(s, Shares(l, m + d), n) == Shl(SumOver(s, Shares(l, m), n), d)
  {
    hide Pow2, Shl;
    if n == 0 {
      ShlZero(d);
    } else {
      ShareScale(s, l, m, d, n - 1);
      if n - 1 in s {
        ShlPow2(m - l[n - 1], d);
        ShlAdd(SumOver(s, Shares(l, m), n - 1), Pow2(m - l[n - 1]), d);
      }
    }
  }

  // ----- the exchange argument -------------------------------------------------------------------------------

  function Swap(l: seq<nat>, x: nat, y: nat): seq<nat>
    requires x < |l| && y < |l|
  {
    l[x := l[y]][y := l[x]]
  }

  lemma Rearrange(a: nat, b: nat, p: nat, q: nat)
    requires a <= b && p <= q
    ensures a * q + b * p <= a * p + b * q
  {
    assert (b - a) * (q - p) >= 0;
  }

  // Giving the lighter of two nodes the greater length costs no more.
  lemma SwapCost(s: set<nat>, w: seq<nat>, l: seq<nat>, x: nat, z: nat)
    requires |w| == |l| && x in s && z in s && x != z && x < |l| && z < |l|
    requires w[x] <= w[z] && l[x] <= l[z]
    ensures Cost(s, w, Swap(l, x, z)) <= Cost(s, w, l)
  {
    var p, p' := Products(w, l), Products(w, Swap(l, x, z));
    var rest := s - {x, z};
    SumDropTwo(s, p, |w|, x, z);
    SumDropTwo(s, p', |w|, x, z);
    SumAgree(rest, rest, p, p', |w|);
    Rearrange(w[x], w[z], l[x], l[z]);
  }

  lemma SwapFeasible(s: set<nat>, l: seq<nat>, m: nat, x: nat, z: nat)
    requires Feasible(s, l, m) && x in s && z in s && x != z
    ensures x < |l| && z < |l| && Feasible(s, Swap(l, x, z), m)
  {
    var l' := Swap(l, x, z);
    var p, p' := Shares(l, m), Shares(l', m);
    var rest := s - {x, z};
    SumDropTwo(s, p, |l|, x, z);
    SumDropTwo(s, p', |l|, x, z);
    SumAgree(rest, rest, p, p', |l|);
  }

  ghost predicate LongestIn(s: set<nat>, l: seq<nat>, z: nat) {
    z in s && z < |l| && forall i :: i in s && i < |l| ==> l[i] <= l[z]
  }

  lemma {:induction false} FindLongest(s: set<nat>, l: seq<nat>) returns (z: nat)
    requires s != {} && forall i :: i in s ==> i < |l|
    ensures LongestIn(s, l, z)
    decreases |s|
  {
    var x :| x in s;
    if s == {x} {
      z := x;
    } else {
      assert s - {x} != {};
      z := FindLongest(s - {x}, l);
      if l[x] > l[z] {
        z := x;
      }
    }
  }

  // The lightest node may be given the greatest length.
  lemma Deepen(s: set<nat>, w: seq<nat>, l: seq<nat>, m: nat, among: set<nat>, x: nat, bound: nat) returns (l': seq<nat>)
    requires |w| == |l| && Feasible(s, l, m) && x in among && among <= s
    requires forall i :: i in among && i < |w| ==> w[x] <= w[i] && l[i] <= bound
    ensures |l'| == |l| && Feasible(s, l', m) && Cost(s, w, l') <= Cost(s, w, l)
    ensures LongestIn(among, l', x) && l'[x] <= bound
    ensures forall i :: i in s - among && i < |l| ==> l'[i] == l[i]
  {
    hide SumOver;
    var z := FindLongest(among, l);
    if z == x {
      l' := l;
    } else {
      l' := Swap(l, x, z);
      SwapCost(s, w, l, x, z);
      SwapFeasible(s, l, m, x, z);
    }
  }

  lemma CostOfOne(s: set<nat>, w: seq<nat>, l: seq<nat>, x: nat, v: nat)
    requires |w| == |l| && x in s && x < |l| && v <= l[x]
    ensures Cost(s, w, l[x := v]) <= Cost(s, w, l)
  {
    var p, p' := Products(w, l), Products(w, l[x := v]);
    SumDrop(s, p, |w|, x);
    SumDrop(s, p', |w|, x);
    SumAgree(s - {x}, s - {x}, p, p', |w|);
    MulMonotone(w[x], v, l[x]);
  }

  lemma MulMonotone(a: nat, p: nat, q: nat)
    requires p <= q
    ensures a * p <= a * q
  {
  }

  // A node that is alone at the greatest length may come up to the next one.
  lemma ShortenFeasible(s: set<nat>, l: seq<nat>, m: nat, x: nat, y: nat)
    requires Feasible(s, l, m) && x in s && x < |l| && LongestIn(s - {x}, l, y) && l[y] < l[x]
    ensures Feasible(s, l[x := l[y]], l[y])
  {
    hide SumOver, Pow2, Shl;
    var r, d, n := s - {x}, l[y], |l|;
    var l' := l[x := d];
    SumDrop(s, Shares(l, m), n, x);
    ShareScale(r, l, d, m - d, n);
    ShlPow2(d, m - d);
    ShlReflects(SumOver(r, Shares(l, d), n), Pow2(d), m - d);
    SumDrop(s, Shares(l', d), n, x);
    SumAgree(r, r, Shares(l, d), Shares(l', d), n);
    Pow2Steps(0);
  }

  // The two lightest nodes may be given equal lengths.
  lemma Level(s: set<nat>, w: seq<nat>, l: seq<nat>, m: nat, x: nat, y: nat) returns (l': seq<nat>, m': nat)
    requires |w| == |l| && Feasible(s, l, m) && x in s && y in s && x != y
    requires forall i :: i in s && i < |w| ==> w[x] <= w[i]
    requires forall i :: i in s && i < |w| && i != x ==> w[y] <= w[i]
    ensures x < |l| && y < |l|
    ensures |l'| == |l| && Feasible(s, l', m') && Cost(s, w, l') <= Cost(s, w, l)
    ensures l'[x] == l'[y]
  {
    hide SumOver, Pow2, KraftOver, Cost;
    var l1 := Deepen(s, w, l, m, s, x, m);
    var l2 := Deepen(s, w, l1, m, s - {x}, y, l1[x]);
    assert l2[x] == l1[x];
    if l2[x] == l2[y] {
      l', m' := l2, m;
    } else {
      l', m' := l2[x := l2[y]], l2[y];
      ShortenFeasible(s, l2, m, x, y);
      CostOfOne(s, w, l2, x, l2[y]);
    }
  }

  // Two nodes cannot both be the whole code.
  lemma NotBothWhole(s: set<nat>, l: seq<nat>, m: nat, x: nat, y: nat)
    requires Feasible(s, l, m) && x in s && y in s && x != y && x < |l| && y < |l| && l[x] == l[y]
    ensures l[x] >= 1
  {
    SumDropTwo(s, Shares(l, m), |l|, x, y);
  }

  // Replacing two nodes of equal length by a parent one step shorter keeps the Kraft sum and takes
  // the weight of both off the cost.
  lemma MergeKraft(s: set<nat>, l: seq<nat>, m: nat, x: nat, y: nat, p: nat)
    requires Feasible(s, l, m) && x in s && y in s && x != y && p !in s
    requires x < |l| && y < |l| && p < |l| && l[x] == l[y] >= 1
    ensures Feasible(s - {x, y} + {p}, l[p := l[x] - 1], m)
  {
    hide SumOver;
    var r, l', n := s - {x, y}, l[p := l[x] - 1], |l|;
    SumDropTwo(s, Shares(l, m), n, x, y);
    SumAdd(r, Shares(l', m), n, p);
    SumAgree(r, r, Shares(l, m), Shares(l', m), n);
  }

  lemma MergeCost(s: set<nat>, w: seq<nat>, l: seq<nat>, x: nat, y: nat, p: nat)
    requires |w| == |l| && x in s && y in s && x != y && p !in s
    requires x < |l| && y < |l| && p < |l| && l[x] == l[y] >= 1
    ensures Cost(s - {x, y} + {p}, w[p := w[x] + w[y]], l[p := l[x] - 1]) + w[x] + w[y] == Cost(s, w, l)
  {
    hide SumOver;
    var r, l', w', n := s - {x, y}, l[p := l[x] - 1], w[p := w[x] + w[y]], |l|;
    SumDropTwo(s, Products(w, l), n, x, y);
    SumAdd(r, Products(w', l'), n, p);
    SumAgree(r, r, Products(w, l), Products(w', l'), n);
    Distribute(w[x], w[y], l[x]);
  }

  lemma Distribute(a: nat, b: nat, d: nat)
    requires d >= 1
    ensures (a + b) * (d - 1) + a + b == a * d + b * d
  {
  }

  lemma MergeStep(s: set<nat>, w: seq<nat>, x: nat, y: nat, p: nat, c: nat)
    requires x in s && y in s && x != y && p !in s && x < |w| && y < |w| && p < |w|
    requires forall i :: i in s && i < |w| ==> w[x] <= w[i]
    requires forall i :: i in s && i < |w| && i != x ==> w[y] <= w[i]
    requires LowerBound(s - {x, y} + {p}, w[p := w[x] + w[y]], c)
    ensures LowerBound(s, w, c + w[x] + w[y])
  {
    hide Cost, KraftOver, Pow2;
    forall l: seq<nat>, m: nat | |l| == |w| && Feasible(s, l, m)
      ensures c + w[x] + w[y] <= Cost(s, w, l)
    {
      var l1, m1 := Level(s, w, l, m, x, y);
      NotBothWhole(s, l1, m1, x, y);
      MergeKraft(s, l1, m1, x, y, p);
      MergeCost(s, w, l1, x, y, p);
      assert c <= Cost(s - {x, y} + {p}, w[p := w[x] + w[y]], l1[p := l1[x] - 1]);
    }
  }
}
