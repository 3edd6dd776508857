/** `gen_bitlen`: code lengths from the tree, cut off at the greatest length allowed and repaired. */
module BitLengths {
  import opened Bits
  import opened Canonical
  import opened HuffmanTree

  // static_tree_desc: the extra bits of the symbols from `base` on, the number of symbols, the greatest
  // length, and the lengths of the static tree (empty if there is none).
  datatype TreeDesc = TreeDesc(elems: nat, maxLength: nat, extra: seq<nat>, base: nat, stree: seq<nat>)

  predicate DescOk(desc: TreeDesc) {
    && 3 <= desc.elems <= L_CODES
    && 1 <= desc.maxLength <= MAX_BITS
    && desc.elems <= Pow2(desc.maxLength)
    && desc.elems <= desc.base + |desc.extra|
    && (desc.stree == [] || |desc.stree| >= desc.elems)
    && (desc.base >= 3 || (desc.base == 0 && desc.extra[0] == desc.extra[1] == desc.extra[2] == 0))
  }

  function ExtraBits(desc: TreeDesc, n: nat): nat
    requires n < desc.base + |desc.extra|
  {
    if n >= desc.base then desc.extra[n - desc.base] else 0
  }

  // ----- what a block of these frequencies takes -----------------------------------------------------------

  // Bits for n symbols with the given code lengths, extra bits included.
  function CodedBits(freq: seq<nat>, lens: seq<nat>, desc: TreeDesc, n: nat): nat
    requires n <= |lens| && n <= |freq| && n <= desc.base + |desc.extra|
  {
    if n == 0 then 0
    else CodedBits(freq, lens, desc, n - 1) +
         (if lens[n - 1] == 0 then 0 else freq[n - 1] * (lens[n - 1] + ExtraBits(desc, n - 1)))
  }

  // The same for the static tree, over the symbols that have a code in lens.
  function StaticBits(freq: seq<nat>, lens: seq<nat>, desc: TreeDesc, n: nat): nat
    requires n <= |lens| && n <= |freq| && n <= desc.base + |desc.extra| && (desc.stree == [] || n <= |desc.stree|)
  {
    if n == 0 || desc.stree == [] then 0
    else StaticBits(freq, lens, desc, n - 1) +
         (if lens[n - 1] == 0 then 0 else freq[n - 1] * (desc.stree[n - 1] + ExtraBits(desc, n - 1)))
  }

  lemma {:induction false} CodedBitsUpdate(freq: seq<nat>, lens: seq<nat>, desc: TreeDesc, n: nat, x: nat, v: nat)
    requires n <= |lens| && n <= |freq| && n <= desc.base + |desc.extra|
    requires x < |lens| && x < |freq| && x < desc.base + |desc.extra| && v > 0
    ensures CodedBits(freq, lens[x := v], desc, n) ==
            CodedBits(freq, lens, desc, n) +
            (if x < n then freq[x] * (v + ExtraBits(desc, x)) - (if lens[x] == 0 then 0 else freq[x] * (lens[x] + ExtraBits(desc, x)))
             else 0)
  {
    if n > 0 {
      CodedBitsUpdate(freq, lens, desc, n - 1, x, v);
    }
  }

  lemma {:induction false} StaticBitsUpdate(freq: seq<nat>, lens: seq<nat>, desc: TreeDesc, n: nat, x: nat, v: nat)
    requires n <= |lens| && n <= |freq| && n <= desc.base + |desc.extra| && (desc.stree == [] || n <= |desc.stree|)
    requires x < |lens| && x < |freq| && x < desc.base + |desc.extra| && v > 0 && lens[x] == 0
    requires desc.stree != [] ==> x < |desc.stree|
    ensures StaticBits(freq, lens[x := v], desc, n) ==
            StaticBits(freq, lens, desc, n) +
            (if x < n && desc.stree != [] then freq[x] * (desc.stree[x] + ExtraBits(desc, x)) else 0)
  {
    if n > 0 {
      StaticBitsUpdate(freq, lens, desc, n - 1, x, v);
    }
  }

  lemma {:induction false} CountUpdate(lens: Lens, n: nat, x: nat, v: nat, b: nat)
    requires n <= |lens| && x < |lens| && b > 0
    ensures Count(lens[x := v], n, b) ==
            Count(lens, n, b) + (if x < n && v == b then 1 else 0) - (if x < n && lens[x] == b then 1 else 0)
  {
    if n > 0 {
      CountUpdate(lens, n - 1, x, v, b);
    }
  }

  // ----- length counts ----------------------------------------------------------------------------------------

  // The Kraft sum of a table of length counts, in units of 2^-b.
  function CountsKraft(bl: seq<nat>, b: nat): nat
    requires b < |bl|
  {
    if b == 0 then 0 else 2 * CountsKraft(bl, b - 1) + bl[b]
  }

  function CountsSum(bl: seq<nat>, b: nat): nat
    requires b < |bl|
  {
    if b == 0 then 0 else CountsSum(bl, b - 1) + bl[b]
  }

  // bl holds the counts of the lengths 1..15.
  ghost predicate CountsOf(bl: seq<nat>, lens: Lens) {
    |bl| == MAX_BITS + 1 && forall b :: 1 <= b <= MAX_BITS ==> bl[b] == Count(lens, |lens|, b)
  }

  lemma {:induction false} CountsKraftIs(bl: seq<nat>, lens: Lens, b: nat)
    requires CountsOf(bl, lens) && b <= MAX_BITS
    ensures CountsKraft(bl, b) == EndCode(lens, |lens|, b)
  {
    if b > 0 {
      CountsKraftIs(bl, lens, b - 1);
    }
  }

  lemma {:induction false} CountsKraftUpdate(bl: seq<nat>, x: nat, v: nat, b: nat)
    requires b < |bl| && x < |bl|
    ensures b < x ==> CountsKraft(bl[x := v], b) == CountsKraft(bl, b)
    ensures 0 < x == b ==> CountsKraft(bl[x := v], b) + bl[x] == CountsKraft(bl, b) + v
  {
    if 0 < b <= x {
      CountsKraftUpdate(bl, x, v, b - 1);
    }
  }

  // Counts that differ below b only in a way that leaves the sum at some length a < b alone.
  lemma {:induction false} CountsKraftAbove(bl: seq<nat>, bl': seq<nat>, a: nat, b: nat)
    requires a <= b < |bl| && |bl'| == |bl|
    requires CountsKraft(bl, a) == CountsKraft(bl', a)
    requires forall i :: a < i <= b ==> bl[i] == bl'[i]
    ensures CountsKraft(bl, b) == CountsKraft(bl', b)
  {
    if a < b {
      CountsKraftAbove(bl, bl', a, b - 1);
    }
  }

  lemma {:induction false} CountsSumUpdate(bl: seq<nat>, x: nat, v: nat, b: nat)
    requires b < |bl| && x < |bl|
    ensures CountsSum(bl[x := v], b) + (if 1 <= x <= b then bl[x] else 0) ==
            CountsSum(bl, b) + (if 1 <= x <= b then v else 0)
  {
    if b > 0 {
      CountsSumUpdate(bl, x, v, b - 1);
    }
  }

  lemma {:induction false} OnlyLongest(bl: seq<nat>, b: nat)
    requires b < |bl| && forall i :: 1 <= i <= b ==> bl[i] == 0
    ensures CountsKraft(bl, b) == 0 == CountsSum(bl, b)
  {
    if b > 0 {
      OnlyLongest(bl, b - 1);
    }
  }

  // ----- the repair of overflowing lengths ----------------------------------------------------------------------

  // One round: a leaf of a shorter length moves one down and takes an overflowing leaf as its brother.
  function MoveOne(bl: seq<nat>, bits: nat, max: nat): seq<nat>
    requires bits + 1 <= max < |bl| && bl[bits] > 0 && (bl[max] > 0 || bits + 1 == max)
  {
    var bl1 := bl[bits := bl[bits] - 1];
    var bl2 := bl1[bits + 1 := bl1[bits + 1] + 2];
    bl2[max := bl2[max] - 1]
  }

  // It takes one word of the greatest length off the Kraft sum and no leaf away.
  lemma MoveOneEffect(bl: seq<nat>, bits: nat, max: nat)
    requires 1 <= bits < max < |bl| && bl[bits] > 0 && bl[max] > 0
    ensures CountsKraft(MoveOne(bl, bits, max), max) == CountsKraft(bl, max) - 1
    ensures CountsSum(MoveOne(bl, bits, max), max) == CountsSum(bl, max)
    ensures MoveOne(bl, bits, max)[max] >= bl[max] - 1
  {
    var bl1 := bl[bits := bl[bits] - 1];
    var bl2 := bl1[bits + 1 := bl1[bits + 1] + 2];
    CountsKraftUpdate(bl, bits, bl[bits] - 1, bits);
    CountsKraftUpdate(bl1, bits + 1, bl1[bits + 1] + 2, bits);
    assert CountsKraft(bl2, bits + 1) == CountsKraft(bl, bits + 1);
    CountsKraftAbove(bl, bl2, bits + 1, max);
    CountsKraftUpdate(bl2, max, bl2[max] - 1, max);
    CountsSumUpdate(bl, bits, bl[bits] - 1, max);
    CountsSumUpdate(bl1, bits + 1, bl1[bits + 1] + 2, max);
    CountsSumUpdate(bl2, max, bl2[max] - 1, max);
  }

  method Repair(bl0: seq<nat>, max: nat, overflow0: int) returns (bl: seq<nat>)
    requires |bl0| == MAX_BITS + 1 && 1 <= max <= MAX_BITS
    requires overflow0 > 0 && overflow0 % 2 == 0
    requires CountsKraft(bl0, max) == Pow2(max) + overflow0 / 2
    requires bl0[max] > overflow0 / 2 && CountsSum(bl0, max) <= Pow2(max)
    ensures |bl| == |bl0| && bl[0] == bl0[0] && forall b :: max < b <= MAX_BITS ==> bl[b] == bl0[b]
    ensures CountsKraft(bl, max) == Pow2(max)
    ensures CountsSum(bl, max) == CountsSum(bl0, max)
  {
    hide CountsKraft, CountsSum, Pow2;
    bl := bl0;
    var overflow := overflow0;
    while true
      invariant |bl| == |bl0| && bl[0] == bl0[0] && forall b :: max < b <= MAX_BITS ==> bl[b] == bl0[b]
      invariant overflow > 0 && overflow % 2 == 0
      invariant CountsKraft(bl, max) == Pow2(max) + overflow / 2
      invariant bl[max] > overflow / 2
      invariant CountsSum(bl, max) == CountsSum(bl0, max)
      decreases overflow
    {
      var bits := max - 1;
      SomeShorter(bl, max);
      while bl[bits] == 0
        invariant 0 <= bits < max
        invariant forall b :: bits < b < max ==> bl[b] == 0
        invariant exists b :: 1 <= b <= bits && bl[b] > 0
        decreases bits
      {
        bits := bits - 1;
      }
      MoveOneEffect(bl, bits, max);
      ghost var moved := MoveOne(bl, bits, max);
      bl := bl[bits := bl[bits] - 1];
      bl := bl[bits + 1 := bl[bits + 1] + 2];
      bl := bl[max := bl[max] - 1];
      assert bl == moved;
      overflow := overflow - 2;
      if overflow <= 0 {
        break;
      }
    }
  }

  // While there is excess, some leaf is shorter than the greatest length.
  lemma SomeShorter(bl: seq<nat>, max: nat)
    requires |bl| == MAX_BITS + 1 && 1 <= max <= MAX_BITS
    requires CountsKraft(bl, max) > Pow2(max) >= CountsSum(bl, max)
    ensures exists b :: 1 <= b <= max - 1 && bl[b] > 0
  {
    if forall b :: 1 <= b <= max - 1 ==> bl[b] == 0 {
      OnlyLongest(bl, max - 1);
    }
  }
}
