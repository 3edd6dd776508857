/** Optimality against all prefix codes: any assignment of bit strings of which none is a prefix of
    another obeys the Kraft inequality, so the lengths of `build_tree` cost no more. */
module PrefixCodes {
  import opened Bits
  import opened HuffmanOptimal
  import opened HuffmanTree
  import opened BitLengths
  import opened InitHeap
  import opened TreeBuilder

  ghost predicate PrefixCode(s: set<nat>, c: seq<BitString>) {
    && (forall i :: i in s ==> i < |c|)
    && forall i, j :: i in s && j in s && i != j && i < |c| && j < |c| ==> !(c[i] <= c[j])
  }

  function Lengths(c: seq<BitString>): (l: seq<nat>)
    ensures |l| == |c| && forall i :: 0 <= i < |c| ==> l[i] == |c[i]|
  {
    seq(|c|, i requires 0 <= i < |c| => |c[i]|)
  }

  function Tails(c: seq<BitString>): (t: seq<BitString>)
    ensures |t| == |c| && forall i :: 0 <= i < |c| ==> t[i] == if c[i] == [] then [] else c[i][1..]
  {
    seq(|c|, i requires 0 <= i < |c| => if c[i] == [] then [] else c[i][1..])
  }

  ghost function Starting(s: set<nat>, c: seq<BitString>, bit: bool): set<nat> {
    set i | i in s && i < |c| && c[i] != [] && c[i][0] == bit
  }

  lemma TailsPrefixFree(s: set<nat>, c: seq<BitString>, bit: bool)
    requires PrefixCode(s, c)
    ensures PrefixCode(Starting(s, c, bit), Tails(c))
  {
    var r, t := Starting(s, c, bit), Tails(c);
    forall i, j | i in r && j in r && i != j && i < |t| && j < |t|
      ensures !(t[i] <= t[j])
    {
      assert c[i] == [bit] + t[i] && c[j] == [bit] + t[j];
    }
  }

  lemma {:induction false} SplitSum(s: set<nat>, c: seq<BitString>, m: nat, n: nat)
    requires n <= |c| && m >= 1 && forall i :: i in s ==> i < |c| && 1 <= |c[i]| <= m
    ensures SumOver(s, Shares(Lengths(c), m), n) ==
            SumOver(Starting(s, c, false), Shares(Lengths(Tails(c)), m - 1), n) +
            SumOver(Starting(s, c, true), Shares(Lengths(Tails(c)), m - 1), n)
  {
    if n > 0 {
      SplitSum(s, c, m, n - 1);
    }
  }

  lemma {:induction false} KraftInequality(s: set<nat>, c: seq<BitString>, m: nat)
    requires PrefixCode(s, c) && forall i :: i in s && i < |c| ==> |c[i]| <= m
    ensures Feasible(s, Lengths(c), m)
    decreases m
  {
    hide SumOver, Pow2;
    if i :| i in s && c[i] == [] {
      OnlyMember(s, c, i);
      SingleSum(Shares(Lengths(c), m), i);
    } else if m == 0 {
      assert s == {};
      SumEmpty(Shares(Lengths(c), m), |c|);
    } else {
      SplitSum(s, c, m, |c|);
      TailsPrefixFree(s, c, false);
      KraftInequality(Starting(s, c, false), Tails(c), m - 1);
      TailsPrefixFree(s, c, true);
      KraftInequality(Starting(s, c, true), Tails(c), m - 1);
      Pow2Steps(m - 1);
    }
  }

  lemma OnlyMember(s: set<nat>, c: seq<BitString>, i: nat)
    requires PrefixCode(s, c) && i in s && i < |c| && c[i] == []
    ensures s == {i}
  {
    forall j | j in s
      ensures j == i
    {
      assert c[i] <= c[j];
    }
  }

  ghost function LongestOf(s: set<nat>, c: seq<BitString>, n: nat): (m: nat)
    requires n <= |c|
    ensures forall i :: i in s && i < n ==> |c[i]| <= m
  {
    if n == 0 then 0
    else
      var m := LongestOf(s, c, n - 1);
      if m < |c[n - 1]| then |c[n - 1]| else m
  }

  // If no length had to be cut, no prefix code on the used symbols makes the block shorter.
  lemma NoPrefixCodeIsBetter(desc: TreeDesc, freq: seq<nat>, dl: seq<nat>, c: seq<BitString>)
    requires OptimalLengths(desc, freq, dl) && |c| == |freq| && PrefixCode(Frequent(freq, desc.elems), c)
    ensures Cost(Frequent(freq, desc.elems), freq, dl) <= Cost(Frequent(freq, desc.elems), freq, Lengths(c))
  {
    var s := Frequent(freq, desc.elems);
    KraftInequality(s, c, LongestOf(s, c, |c|));
  }
}
