/** The header of a dynamic block (section 3.2.7 of RFC 1951): two sets of code lengths, run-length
    coded, and the code that those runs are written in. */
module TreeCode {
  import opened Bits
  import opened Canonical
  import opened InfTreesSpec
  import opened Format
  import opened BlockCode

  // A symbol of the code length code and its extra bits.
  datatype Item = Item(sym: nat, extra: nat)

  // ----- what the reader makes of the items -------------------------------------------------------------

  predicate ItemOk(got: seq<nat>, it: Item) {
    it.sym < 19 && it.extra < Pow2(RepeatBits(it.sym)) && (it.sym == 16 ==> got != [])
  }

  function ExpandItem(got: seq<nat>, it: Item): (r: seq<nat>)
    ensures |r| >= |got|
  {
    got + Repeat(if it.sym < 16 then it.sym else if it.sym == 16 && got != [] then got[|got| - 1] else 0,
                 RepeatCount(it.sym, it.extra))
  }

  function ExpandItems(got: seq<nat>, items: seq<Item>): (r: seq<nat>)
    ensures |r| >= |got|
    decreases items
  {
    if items == [] then got else ExpandItems(ExpandItem(got, items[0]), items[1..])
  }

  predicate ItemsOk(got: seq<nat>, items: seq<Item>)
    decreases items
  {
    items != [] ==> ItemOk(got, items[0]) && ItemsOk(ExpandItem(got, items[0]), items[1..])
  }

  lemma {:induction false} ItemsJoin(got: seq<nat>, a: seq<Item>, b: seq<Item>)
    ensures ExpandItems(got, a + b) == ExpandItems(ExpandItems(got, a), b)
    ensures ItemsOk(got, a + b) <==> ItemsOk(got, a) && ItemsOk(ExpandItems(got, a), b)
    decreases a
  {
    if a == [] {
      assert a + b == b;
    } else {
      assert (a + b)[1..] == a[1..] + b;
      ItemsJoin(ExpandItem(got, a[0]), a[1..], b);
    }
  }

  // ----- run-length coding, as scan_tree and send_tree do it ---------------------------------------------

  // The largest and the smallest run that is sent as a repeat; prev is the last length sent, or -1.
  function MaxCount(cur: nat, prev: int): nat {
    if cur == 0 then 138 else if cur == prev then 6 else 7
  }

  function MinCount(cur: nat, prev: int): nat {
    if cur == 0 || cur == prev then 3 else 4
  }

  function Singles(sym: nat, n: nat): (r: seq<Item>)
    ensures |r| == n
  {
    if n == 0 then [] else [Item(sym, 0)] + Singles(sym, n - 1)
  }

  // What is sent for a run of `count` lengths `cur`.
  function EmitRun(cur: nat, prev: int, count: nat): seq<Item>
    requires count >= 1
  {
    if count < MinCount(cur, prev) then Singles(cur, count)
    else if cur != 0 then
      if cur != prev then [Item(cur, 0), Item(16, count - 4)] else [Item(16, count - 3)]
    else if count <= 10 then [Item(17, count - 3)]
    else [Item(18, count - 11)]
  }

  const GUARD := 65535

  function NextLen(lens: seq<nat>, n: nat): nat {
    if n + 1 < |lens| then lens[n + 1] else GUARD
  }

  predicate GoesOn(lens: seq<nat>, n: nat, prev: int, count: nat)
    requires n < |lens|
  {
    count + 1 < MaxCount(lens[n], prev) && lens[n] == NextLen(lens, n)
  }

  // The items for the lengths from n on, `count` of which before n belong to the current run.
  function RleFrom(lens: seq<nat>, n: nat, prev: int, count: nat): seq<Item>
    requires n <= |lens|
    decreases |lens| - n
  {
    if n == |lens| then []
    else if GoesOn(lens, n, prev, count) then RleFrom(lens, n + 1, prev, count + 1)
    else EmitRun(lens[n], prev, count + 1) + RleFrom(lens, n + 1, lens[n], 0)
  }

  function Rle(lens: seq<nat>): seq<Item> {
    RleFrom(lens, 0, -1, 0)
  }

  // ----- the runs read back as the lengths ------------------------------------------------------------------

  lemma {:induction false} SinglesExpand(got: seq<nat>, v: nat, n: nat)
    requires v < 16
    ensures ExpandItems(got, Singles(v, n)) == got + Repeat(v, n) && ItemsOk(got, Singles(v, n))
    decreases n
  {
    if n > 0 {
      var one := ExpandItem(got, Item(v, 0));
      assert one == got + [v];
      SinglesExpand(one, v, n - 1);
      assert Singles(v, n)[1..] == Singles(v, n - 1);
      assert one + Repeat(v, n - 1) == got + Repeat(v, n);
    } else {
      assert got + Repeat(v, 0) == got;
    }
  }

  lemma OneItem(got: seq<nat>, it: Item)
    ensures ExpandItems(got, [it]) == ExpandItem(got, it)
    ensures ItemsOk(got, [it]) <==> ItemOk(got, it)
  {
    assert [it][1..] == [];
  }

  ghost predicate LastIs(got: seq<nat>, prev: int) {
    prev == -1 || (got != [] && got[|got| - 1] == prev)
  }

  lemma RunExpands(got: seq<nat>, cur: nat, prev: int, count: nat)
    requires cur < 16 && 1 <= count <= MaxCount(cur, prev) && LastIs(got, prev)
    ensures ExpandItems(got, EmitRun(cur, prev, count)) == got + Repeat(cur, count)
    ensures ItemsOk(got, EmitRun(cur, prev, count))
  {
    hide Pow2, ExpandItems, ItemsOk;
    Pow2Values();
    if count < MinCount(cur, prev) {
      SinglesExpand(got, cur, count);
    } else if cur != 0 && cur != prev {
      var a, b := Item(cur, 0), Item(16, count - 4);
      var one := ExpandItem(got, a);
      assert one == got + [cur];
      assert [a] + [b] == [a, b];
      ItemsJoin(got, [a], [b]);
      OneItem(got, a);
      OneItem(one, b);
      assert one + Repeat(cur, count - 1) == got + Repeat(cur, count);
    } else {
      OneItem(got, EmitRun(cur, prev, count)[0]);
    }
  }

  lemma {:induction false} RleExpands(lens: seq<nat>, n: nat, prev: int, count: nat, got: seq<nat>)
    requires count <= n <= |lens| && LensOk(lens) && LastIs(got, prev)
    requires forall i :: n - count <= i < n ==> n < |lens| && lens[i] == lens[n]
    requires if n < |lens| then count < MaxCount(lens[n], prev) else count == 0
    ensures ExpandItems(got, RleFrom(lens, n, prev, count)) == got + lens[n - count..]
    ensures ItemsOk(got, RleFrom(lens, n, prev, count))
    decreases |lens| - n
  {
    hide ExpandItems, ItemsOk, EmitRun;
    if n == |lens| {
      assert got + lens[n - count..] == got;
      NoItems(got);
    } else if GoesOn(lens, n, prev, count) {
      RleExpands(lens, n + 1, prev, count + 1, got);
    } else {
      var cur, c := lens[n], count + 1;
      RunExpands(got, cur, prev, c);
      var more := got + Repeat(cur, c);
      RleExpands(lens, n + 1, cur, 0, more);
      ItemsJoin(got, EmitRun(cur, prev, c), RleFrom(lens, n + 1, cur, 0));
      assert lens[n - count..] == Repeat(cur, c) + lens[n + 1..];
    }
  }

  lemma NoItems(got: seq<nat>)
    ensures ExpandItems(got, []) == got && ItemsOk(got, [])
  {
  }

  // Whatever stands before it, a run-length coded set reads back as itself: its first item never
  // repeats a length from before.
  lemma RleReads(lens: seq<nat>, got: seq<nat>)
    requires LensOk(lens)
    ensures ExpandItems(got, Rle(lens)) == got + lens && ItemsOk(got, Rle(lens))
  {
    hide ExpandItems, ItemsOk;
    RleExpands(lens, 0, -1, 0, got);
  }

  // ----- no run is coded in another way ---------------------------------------------------------------------

  // From position p on there are n lengths v.
  predicate RunAt(lens: seq<nat>, p: nat, v: nat, n: nat) {
    p + n <= |lens| && forall i :: p <= i < p + n ==> lens[i] == v
  }

  predicate EndsAt(lens: seq<nat>, p: nat, v: nat) {
    p >= |lens| || lens[p] != v
  }

  // The item that a run calls for at position p. A length is sent by itself if it is new there, or if fewer than three
  // like it follow; a repeat goes on to the end of the run, or as far as the symbol allows.
  predicate Due(lens: seq<nat>, p: nat, it: Item) {
    && p < |lens| && it.sym < 19
    && var v, n := lens[p], RepeatCount(it.sym, it.extra);
       && RunAt(lens, p, v, n)
       && if it.sym < 16 then
            it.sym == v && it.extra == 0 && ((v != 0 && (p == 0 || lens[p - 1] != v)) || !RunAt(lens, p, v, 3))
          else if it.sym == 16 then
            v != 0 && p > 0 && lens[p - 1] == v && n <= 6 && (n == 6 || EndsAt(lens, p + n, v))
          else
            v == 0 && n <= (if it.sym == 17 then 10 else 138) && (n == 138 || EndsAt(lens, p + n, v))
  }

  predicate AllDue(lens: seq<nat>, p: nat, items: seq<Item>)
    decreases items
  {
    if items == [] then p == |lens| else Due(lens, p, items[0]) && AllDue(lens, p + RepeatCount(items[0].sym, items[0].extra), items[1..])
  }

  // A run of `count` lengths, which ends there or is as long as it may be.
  ghost predicate Chunk(lens: seq<nat>, p: nat, prev: int, cur: nat, count: nat) {
    && 1 <= count <= MaxCount(cur, prev) && cur < 16 && RunAt(lens, p, cur, count) && (count == MaxCount(cur, prev) || EndsAt(lens, p + count, cur))
    && prev == if p == 0 then -1 else if p <= |lens| then lens[p - 1] else -1
  }

  lemma {:induction false} SinglesDue(lens: seq<nat>, p: nat, v: nat, n: nat, rest: seq<Item>)
    requires v < 16 && RunAt(lens, p, v, n) && n <= 3 && (n > 0 ==> EndsAt(lens, p + n, v))
    requires n == 3 ==> v != 0 && (p == 0 || lens[p - 1] != v)
    requires AllDue(lens, p + n, rest)
    ensures AllDue(lens, p, Singles(v, n) + rest)
    decreases n
  {
    if n == 0 {
      assert Singles(v, n) + rest == rest;
    } else {
      SinglesDue(lens, p + 1, v, n - 1, rest);
      assert (Singles(v, n) + rest)[1..] == Singles(v, n - 1) + rest;
    }
  }

  lemma RunDue(lens: seq<nat>, p: nat, prev: int, cur: nat, count: nat, rest: seq<Item>)
    requires Chunk(lens, p, prev, cur, count) && AllDue(lens, p + count, rest)
    ensures AllDue(lens, p, EmitRun(cur, prev, count) + rest)
  {
    var items := EmitRun(cur, prev, count);
    if count < MinCount(cur, prev) {
      SinglesDue(lens, p, cur, count, rest);
    } else if cur != 0 && cur != prev {
      assert (items + rest)[1..] == [items[1]] + rest;
      assert ([items[1]] + rest)[1..] == rest;
      assert AllDue(lens, p + 1, [items[1]] + rest);
    } else {
      assert (items + rest)[1..] == rest;
    }
  }

  lemma {:induction false} RleDue(lens: seq<nat>, n: nat, prev: int, count: nat)
    requires LensOk(lens) && count <= n <= |lens| && (if n < |lens| then RunAt(lens, n - count, lens[n], count) && count < MaxCount(lens[n], prev) else count == 0)
    requires prev == if n == count then -1 else lens[n - count - 1]
    ensures AllDue(lens, n - count, RleFrom(lens, n, prev, count))
    decreases |lens| - n
  {
    hide AllDue, EmitRun;
    if n == |lens| {
      NoneDue(lens);
    } else if GoesOn(lens, n, prev, count) {
      RleDue(lens, n + 1, prev, count + 1);
    } else {
      RleDue(lens, n + 1, lens[n], 0);
      RunDue(lens, n - count, prev, lens[n], count + 1, RleFrom(lens, n + 1, lens[n], 0));
    }
  }

  lemma NoneDue(lens: seq<nat>)
    ensures AllDue(lens, |lens|, [])
  {
  }

  // Each item is the one its place calls for ...
  lemma RleIsDue(lens: seq<nat>)
    requires LensOk(lens)
    ensures AllDue(lens, 0, Rle(lens))
  {
    hide AllDue;
    RleDue(lens, 0, -1, 0);
  }

  // ... and there is no other.
  lemma {:induction false} DueOnce(lens: seq<nat>, p: nat, a: seq<Item>, b: seq<Item>)
    requires AllDue(lens, p, a) && AllDue(lens, p, b)
    ensures a == b
    decreases |a|
  {
    if a != [] && b != [] {
      OneDue(lens, p, a[0], b[0]);
      DueOnce(lens, p + RepeatCount(a[0].sym, a[0].extra), a[1..], b[1..]);
    }
  }

  lemma OneDue(lens: seq<nat>, p: nat, a: Item, b: Item)
    requires Due(lens, p, a) && Due(lens, p, b)
    ensures a == b
  {
  }

  // ----- the bits of the header --------------------------------------------------------------------------------

  function ItemBits(cl: Lens, it: Item): BitString {
    CodeOf(cl, it.sym) + ToBits(it.extra, RepeatBits(it.sym))
  }

  function ItemsBits(cl: Lens, items: seq<Item>): BitString {
    if items == [] then [] else ItemBits(cl, items[0]) + ItemsBits(cl, items[1..])
  }

  lemma {:induction false} ItemsBitsJoin(cl: Lens, a: seq<Item>, b: seq<Item>)
    ensures ItemsBits(cl, a + b) == ItemsBits(cl, a) + ItemsBits(cl, b)
  {
    if a == [] {
      assert a + b == b;
    } else {
      assert (a + b)[1..] == a[1..] + b;
      ItemsBitsJoin(cl, a[1..], b);
    }
  }

  // The first n lengths of the code length code, in the order in which they are sent.
  function OrderBits(cl: Lens, n: nat): BitString
    requires |cl| == 19 && n <= 19
  {
    if n == 0 then [] else OrderBits(cl, n - 1) + ToBits(cl[OrderOf(n - 1)], 3)
  }

  function HeaderBits(l: Lens, d: Lens, cl: Lens, n: nat): BitString
    requires 257 <= |l| && 1 <= |d| && |cl| == 19 && 4 <= n <= 19
  {
    ToBits(|l| - 257, 5) + ToBits(|d| - 1, 5) + ToBits(n - 4, 4) + OrderBits(cl, n) + ItemsBits(cl, Rle(l) + Rle(d))
  }

  // The code length code can express the items, and the lengths not sent are zero.
  ghost predicate HeaderOk(l: Lens, d: Lens, cl: Lens, n: nat) {
    && 257 <= |l| <= 286 && 1 <= |d| <= 30 && |cl| == 19 && 4 <= n <= 19
    && LensOk(l) && LensOk(d) && Acceptable(LENS, l) && Acceptable(DISTS, d)
    && Usable(cl) && Acceptable(CODES, cl) && (forall i :: 0 <= i < 19 ==> cl[i] <= 7)
    && (forall i :: n <= i < 19 ==> cl[OrderOf(i)] == 0)
    && (forall it :: it in Rle(l) + Rle(d) ==> HasCode(cl, it.sym))
  }

  // ----- reading the header ---------------------------------------------------------------------------------------

  lemma CountsStep(s: BitString, a: Abs, nlen: nat, ndist: nat, ncode: nat)
    requires a.mode == Table && 257 <= nlen <= 286 && 1 <= ndist <= 30 && 4 <= ncode <= 19
    requires At(s, a.pos, ToBits(nlen - 257, 5) + ToBits(ndist - 1, 5) + ToBits(ncode - 4, 4))
    ensures Step(s, a) == Next(a.(pos := a.pos + 14, mode := LenLens(nlen, ndist, ncode, [])))
  {
    hide Field, Pow2, ToBits, At;
    Pow2Values();
    AtSplit(s, a.pos, ToBits(nlen - 257, 5) + ToBits(ndist - 1, 5), ToBits(ncode - 4, 4));
    AtSplit(s, a.pos, ToBits(nlen - 257, 5), ToBits(ndist - 1, 5));
    FieldAt(s, a.pos, nlen - 257, 5);
    FieldAt(s, a.pos + 5, ndist - 1, 5);
    FieldAt(s, a.pos + 10, ncode - 4, 4);
  }

  function Ordered(cl: Lens, n: nat): (r: seq<nat>)
    requires |cl| == 19 && n <= 19
    ensures |r| == n && forall i :: 0 <= i < n ==> r[i] == cl[OrderOf(i)]
  {
    seq(n, i requires 0 <= i < n => cl[OrderOf(i)])
  }

  lemma {:induction false} OrderReads(s: BitString, a: Abs, cl: Lens, k: nat, n: nat, nlen: nat, ndist: nat)
    requires |cl| == 19 && k <= n <= 19 && (forall i :: 0 <= i < 19 ==> cl[i] <= 7)
    requires a.mode == LenLens(nlen, ndist, n, []) && At(s, a.pos, OrderBits(cl, k))
    ensures Reaches(s, a, a.(pos := a.pos + 3 * k, mode := LenLens(nlen, ndist, n, Ordered(cl, k))))
    ensures |OrderBits(cl, k)| == 3 * k
  {
    hide Reaches, At, Field, Pow2, ToBits, OrderOf, Acceptable;
    if k == 0 {
      ReachesSelf(s, a);
      assert Ordered(cl, 0) == [];
    } else {
      AtSplit(s, a.pos, OrderBits(cl, k - 1), ToBits(cl[OrderOf(k - 1)], 3));
      OrderReads(s, a, cl, k - 1, n, nlen, ndist);
      var b := a.(pos := a.pos + 3 * (k - 1), mode := LenLens(nlen, ndist, n, Ordered(cl, k - 1)));
      Pow2Values();
      FieldAt(s, b.pos, cl[OrderOf(k - 1)], 3);
      assert Ordered(cl, k - 1) + [cl[OrderOf(k - 1)]] == Ordered(cl, k);
      var c := a.(pos := a.pos + 3 * k, mode := LenLens(nlen, ndist, n, Ordered(cl, k)));
      assert StepLenLens(s, b) == Next(c);
      ReachesStep(s, b, c);
      ReachesTrans(s, a, b, c);
    }
  }

  lemma PermutedBack(cl: Lens, n: nat)
    requires |cl| == 19 && n <= 19 && forall i :: n <= i < 19 ==> cl[OrderOf(i)] == 0
    ensures Permuted(Ordered(cl, n)) == cl
  {
    hide OrderOf, PermutedTo;
    PermutedIs(Ordered(cl, n), cl);
  }

  lemma ItemStep(s: BitString, a: Abs, nlen: nat, ndist: nat, cl: Lens, got: seq<nat>, it: Item)
    requires a.mode == CodeLens(nlen, ndist, cl, got) && Usable(cl) && |cl| == 19 && ItemOk(got, it) && HasCode(cl, it.sym)
    requires |ExpandItem(got, it)| <= nlen + ndist && At(s, a.pos, ItemBits(cl, it))
    ensures Step(s, a) == Next(a.(pos := a.pos + |ItemBits(cl, it)|, mode := CodeLens(nlen, ndist, cl, ExpandItem(got, it))))
  {
    hide DecodeSym, Usable, CodeBits, Field, Pow2, At, Acceptable;
    AtSplit(s, a.pos, CodeOf(cl, it.sym), ToBits(it.extra, RepeatBits(it.sym)));
    SymAt(s, a.pos, cl, it.sym);
    FieldAt(s, a.pos + cl[it.sym], it.extra, RepeatBits(it.sym));
    assert |ExpandItem(got, it)| > |got|;
  }

  lemma {:induction false} ItemsRead(s: BitString, a: Abs, nlen: nat, ndist: nat, cl: Lens, got: seq<nat>, items: seq<Item>)
    requires a.mode == CodeLens(nlen, ndist, cl, got) && Usable(cl) && |cl| == 19 && ItemsOk(got, items)
    requires forall it :: it in items ==> HasCode(cl, it.sym)
    requires |ExpandItems(got, items)| <= nlen + ndist && At(s, a.pos, ItemsBits(cl, items))
    ensures Reaches(s, a, a.(pos := a.pos + |ItemsBits(cl, items)|, mode := CodeLens(nlen, ndist, cl, ExpandItems(got, items))))
    decreases |items|
  {
    hide Reaches, Usable, At, Step, ItemOk, ItemBits, ExpandItem;
    if items == [] {
      ReachesSelf(s, a);
    } else {
      AtSplit(s, a.pos, ItemBits(cl, items[0]), ItemsBits(cl, items[1..]));
      ItemStep(s, a, nlen, ndist, cl, got, items[0]);
      var b := a.(pos := a.pos + |ItemBits(cl, items[0])|, mode := CodeLens(nlen, ndist, cl, ExpandItem(got, items[0])));
      ReachesStep(s, a, b);
      ItemsRead(s, b, nlen, ndist, cl, ExpandItem(got, items[0]), items[1..]);
      ReachesTrans(s, a, b, b.(pos := b.pos + |ItemsBits(cl, items[1..])|, mode := CodeLens(nlen, ndist, cl, ExpandItems(got, items))));
    }
  }

  lemma CodesStep(s: BitString, a: Abs, l: Lens, d: Lens, cl: Lens, n: nat)
    requires HeaderOk(l, d, cl, n) && a.mode == LenLens(|l|, |d|, n, Ordered(cl, n))
    ensures Step(s, a) == Next(a.(mode := CodeLens(|l|, |d|, cl, [])))
  {
    hide Usable, Acceptable, Permuted, Rle, LensOk;
    PermutedBack(cl, n);
  }

  lemma TablesStep(s: BitString, a: Abs, l: Lens, d: Lens, cl: Lens, n: nat)
    requires HeaderOk(l, d, cl, n) && a.mode == CodeLens(|l|, |d|, cl, l + d)
    ensures Step(s, a) == Next(a.(mode := Len, l := l, d := d))
  {
    hide Usable, Acceptable, Rle, LensOk, DecodeSym;
    assert (l + d)[..|l|] == l && (l + d)[|l|..] == d;
  }

  // The header round trip: reading what send_all_trees writes rebuilds exactly the two sets of lengths.
  lemma HeaderDecodes(s: BitString, a: Abs, l: Lens, d: Lens, cl: Lens, n: nat)
    requires HeaderOk(l, d, cl, n) && a.mode == Table && At(s, a.pos, HeaderBits(l, d, cl, n))
    ensures Reaches(s, a, a.(pos := a.pos + |HeaderBits(l, d, cl, n)|, mode := Len, l := l, d := d))
  {
    hide Reaches, Usable, At, Step, Rle, OrderBits, ItemsBits, ToBits, LensOk, Acceptable, OrderOf, ItemsOk, ExpandItems;
    var counts := ToBits(|l| - 257, 5) + ToBits(|d| - 1, 5) + ToBits(n - 4, 4);
    var order, items := OrderBits(cl, n), Rle(l) + Rle(d);
    AtSplit(s, a.pos, counts + order, ItemsBits(cl, items));
    AtSplit(s, a.pos, counts, order);
    CountsStep(s, a, |l|, |d|, n);
    var b := a.(pos := a.pos + 14, mode := LenLens(|l|, |d|, n, []));
    ReachesStep(s, a, b);
    OrderReads(s, b, cl, n, n, |l|, |d|);
    var c := b.(pos := b.pos + 3 * n, mode := LenLens(|l|, |d|, n, Ordered(cl, n)));
    ReachesTrans(s, a, b, c);
    CodesStep(s, c, l, d, cl, n);
    var e := c.(mode := CodeLens(|l|, |d|, cl, []));
    ReachesStep(s, c, e);
    ReachesTrans(s, a, c, e);
    BothRead(l, d);
    ItemsRead(s, e, |l|, |d|, cl, [], items);
    var f := e.(pos := e.pos + |ItemsBits(cl, items)|, mode := CodeLens(|l|, |d|, cl, l + d));
    ReachesTrans(s, a, e, f);
    TablesStep(s, f, l, d, cl, n);
    var g := f.(mode := Len, l := l, d := d);
    ReachesStep(s, f, g);
    ReachesTrans(s, a, f, g);
  }

  lemma BothRead(l: Lens, d: Lens)
    requires LensOk(l) && LensOk(d)
    ensures ExpandItems([], Rle(l) + Rle(d)) == l + d && ItemsOk([], Rle(l) + Rle(d))
  {
    hide Rle, ItemsOk, ExpandItems;
    RleReads(l, []);
    RleReads(d, l);
    assert [] + l == l;
    ItemsJoin([], Rle(l), Rle(d));
  }
}
