/** `inflate_table`: builds the two-level table that decodes a canonical code. */
module InfTrees {
  import opened Bits
  import opened Canonical
  import opened SymbolOrder

  // ----- counting and checking the lengths --------------------------------------------------------

  method CountLengths(lens: Lens) returns (count: seq<nat>)
    requires LensOk(lens)
    ensures |count| == MAX_BITS + 1
    ensures forall b :: 0 <= b <= MAX_BITS ==> count[b] == Count(lens, |lens|, b)
  {
    count := seq(MAX_BITS + 1, _ => 0);
    for sym := 0 to |lens|
      invariant |count| == MAX_BITS + 1
      invariant forall b :: 0 <= b <= MAX_BITS ==> count[b] == Count(lens, sym, b)
    {
      count := count[lens[sym] := count[lens[sym]] + 1];
    }
  }

  method LongestLength(count: seq<nat>) returns (max: nat)
    requires |count| == MAX_BITS + 1
    ensures max <= MAX_BITS && (max > 0 ==> count[max] != 0)
    ensures forall b :: max < b <= MAX_BITS ==> count[b] == 0
  {
    max := MAX_BITS;
    while max >= 1 && count[max] == 0
      invariant max <= MAX_BITS
      invariant forall b :: max < b <= MAX_BITS ==> count[b] == 0
    {
      max := max - 1;
    }
  }

  method ShortestLength(count: seq<nat>, max: nat) returns (min: nat)
    requires |count| == MAX_BITS + 1 && 1 <= max <= MAX_BITS && count[max] != 0
    ensures 1 <= min <= max && count[min] != 0
    ensures forall b :: 1 <= b < min ==> count[b] == 0
  {
    min := 1;
    while min <= MAX_BITS && count[min] == 0
      invariant 1 <= min <= max
      invariant forall b :: 1 <= b < min ==> count[b] == 0
    {
      min := min + 1;
    }
  }

  // How much of the code space stays free; negative as soon as some length has too many codes.
  method FreeSpace(lens: Lens, count: seq<nat>) returns (left: int)
    requires LensOk(lens) && |count| == MAX_BITS + 1
    requires forall b :: 0 <= b <= MAX_BITS ==> count[b] == Count(lens, |lens|, b)
    ensures left < 0 <==> !NotOversubscribed(lens)
    ensures left >= 0 ==> left + Kraft(lens) == Pow2(MAX_BITS)
  {
    hide Count, Pow2, KraftAt;
    left := 1;
    var len := 0;
    ghost var m: nat := MAX_BITS;
    KraftIsEndCode(lens, |lens|, m);
    Pow2Steps(0);
    while len < MAX_BITS
      invariant len <= MAX_BITS && left >= 0
      invariant left == Pow2(len) - EndCode(lens, |lens|, len)
    {
      Pow2Steps(len);
      len := len + 1;
      left := 2 * left;
      left := left - count[len];
      if left < 0 {
        OverflowStays(lens, len, m);
        return;
      }
    }
  }

  lemma OverflowStays(lens: Lens, b: nat, m: nat)
    requires b <= m && EndCode(lens, |lens|, b) > Pow2(b)
    ensures EndCode(lens, |lens|, m) > Pow2(m)
  {
    EndCodeGrows(lens, b, m - b);
    ShlPow2(b, m - b);
    ShlMonotone(Pow2(b), EndCode(lens, |lens|, b), m - b);
  }

  // ----- sorting the symbols ----------------------------------------------------------------------

  method Offsets(lens: Lens, count: seq<nat>) returns (offs: seq<nat>)
    requires |count| == MAX_BITS + 1
    requires forall b :: 0 <= b <= MAX_BITS ==> count[b] == Count(lens, |lens|, b)
    ensures |offs| == MAX_BITS + 1
    ensures forall b :: 1 <= b <= MAX_BITS ==> offs[b] == Offs(lens, b)
  {
    offs := seq(MAX_BITS + 1, _ => 0);
    for len := 1 to MAX_BITS
      invariant |offs| == MAX_BITS + 1
      invariant forall b :: 1 <= b <= len ==> offs[b] == Offs(lens, b)
    {
      offs := offs[len + 1 := offs[len] + count[len]];
    }
  }

  lemma {:induction false} UsedBound(lens: Lens, n: nat, b: nat)
    requires n <= |lens| && b >= 1
    ensures OffsN(lens, n, b) <= n
  {
    if n > 0 {
      UsedBound(lens, n - 1, b);
      OffsNStep(lens, n, b);
    } else {
      OffsNZero(lens, b);
    }
  }

  ghost function OffsN(lens: Lens, n: nat, b: nat): nat
    requires n <= |lens|
  {
    if b <= 1 then 0 else OffsN(lens, n, b - 1) + Count(lens, n, b - 1)
  }

  lemma {:induction false} OffsNStep(lens: Lens, n: nat, b: nat)
    requires 0 < n <= |lens| && b >= 1
    ensures OffsN(lens, n, b) == OffsN(lens, n - 1, b) + (if 1 <= lens[n - 1] < b then 1 else 0)
  {
    if b > 1 {
      OffsNStep(lens, n, b - 1);
    }
  }

  lemma {:induction false} OffsNZero(lens: Lens, b: nat)
    ensures OffsN(lens, 0, b) == 0
  {
    if b > 1 {
      OffsNZero(lens, b - 1);
    }
  }

  lemma {:induction false} OffsNWhole(lens: Lens, b: nat)
    ensures OffsN(lens, |lens|, b) == Offs(lens, b)
  {
    if b > 1 {
      OffsNWhole(lens, b - 1);
    }
  }

  lemma UsedAtMost(lens: Lens)
    ensures Used(lens) <= |lens|
  {
    var b: nat := MAX_BITS + 1;
    UsedBound(lens, |lens|, b);
    OffsNWhole(lens, b);
  }

  method SortSymbols(lens: Lens, count: seq<nat>, work: array<nat>) returns (n: nat)
    requires LensOk(lens) && |count| == MAX_BITS + 1
    requires forall b :: 0 <= b <= MAX_BITS ==> count[b] == Count(lens, |lens|, b)
    requires work.Length >= |lens|
    modifies work
    ensures n == Used(lens) <= work.Length
    ensures Sorted(lens, work[..n])
  {
    hide Used, Offs;
    var offs := Offsets(lens, count);
    UsedAtMost(lens);
    for sym := 0 to |lens|
      invariant |offs| == MAX_BITS + 1
      invariant forall b :: 1 <= b <= MAX_BITS ==> offs[b] == Offs(lens, b) + Count(lens, sym, b)
      invariant forall s :: Coded(lens, s) && s < sym ==>
                  Pos(lens, s) < Used(lens) && work[Pos(lens, s)] == s
    {
      if lens[sym] != 0 {
        PosBelowUsed(lens, sym);
        forall s | Coded(lens, s) && s < sym
          ensures Pos(lens, s) != Pos(lens, sym)
        {
          PosOrder(lens, s, sym);
        }
        work[offs[lens[sym]]] := sym;
        offs := offs[lens[sym] := offs[lens[sym]] + 1];
      }
    }
    n := Used(lens);
  }

  // ----- the code kept backwards ------------------------------------------------------------------

  lemma CodeBit(c: nat, i: nat, d: nat)
    ensures Shr(Reverse(c, i + 1 + d), i) % 2 == Shr(c, d) % 2
    ensures Low(Reverse(c, i + 1 + d), i) == Reverse(Shr(c, d) / 2, i)
  {
    ReversePrefix(c, i, d + 1);
    ReversePrefix(c, 1, d);
    ShrHalf(c, d);
    assert Low(Reverse(c, 1 + d), 1) == Reverse(c, 1 + d) % 2;
    assert Reverse(Shr(c, d), 1) == Shr(c, d) % 2;
  }

  lemma ReverseOdd(x: nat, i: nat)
    requires x % 2 == 0
    ensures Reverse(x + 1, i + 1) == Pow2(i) + Reverse(x / 2, i)
  {
    assert (x + 1) % 2 == 1 && (x + 1) / 2 == x / 2;
    hide Pow2;
  }

  // The low d bits of c are all ones.
  ghost predicate TrailingOnes(c: nat, d: nat) {
    Low(c, d) + 1 == Pow2(d)
  }

  lemma OneMore(c: nat, i: nat, d: nat)
    requires TrailingOnes(c, d)
    ensures Shr(Reverse(c, i + 1 + d), i) % 2 == 1 ==> TrailingOnes(c, d + 1)
  {
    CodeBit(c, i, d);
    LowBit(c, d);
  }

  lemma NotAllOnes(c: nat, n: nat, d: nat)
    requires d < n && Shr(c, d) % 2 == 0
    ensures c + 1 != Pow2(n)
  {
    if c + 1 == Pow2(n) {
      AllOnes(c, n, d);
    }
  }

  lemma CarryIntoZero(c: nat, d: nat)
    requires TrailingOnes(c, d)
    ensures c + 1 == Shl(Shr(c, d) + 1, d)
  {
    ShrLow(c, d);
    ShlAdd(Shr(c, d), 1, d);
    ShlPow2(0, d);
  }

  lemma Incremented(c: nat, i: nat, d: nat)
    requires TrailingOnes(c, d) && Shr(Reverse(c, i + 1 + d), i) % 2 == 0
    ensures Reverse(c + 1, i + 1 + d) == Low(Reverse(c, i + 1 + d), i) + Pow2(i)
    ensures c + 1 != Pow2(i + 1 + d)
  {
    hide Shr, Shl, Low, Reverse, Pow2, TrailingOnes;
    var x := Shr(c, d);
    CodeBit(c, i, d);
    CarryIntoZero(c, d);
    ReverseShl(x + 1, i + 1, d);
    ReverseOdd(x, i);
    NotAllOnes(c, i + 1 + d, d);
  }

  lemma Wrapped(c: nat, n: nat)
    requires c < Pow2(n) && TrailingOnes(c, n)
    ensures c + 1 == Pow2(n)
  {
    LowSmall(c, n);
  }

  // Adds one to the code c of len bits whose reversal is huff. The bit of weight 1 << i plays incr.
  method BackIncrement(huff: nat, len: nat, ghost c: nat) returns (r: nat)
    requires 1 <= len && c < Pow2(len) && huff == Reverse(c, len)
    ensures c + 1 < Pow2(len) ==> r == Reverse(c + 1, len)
    ensures c + 1 == Pow2(len) ==> r == 0
  {
    var i := len - 1;
    ghost var d := 0;
    assert TrailingOnes(c, 0);
    hide TrailingOnes, Low, Shr, Reverse, Pow2;
    while i >= 0 && Shr(huff, i) % 2 == 1
      invariant -1 <= i < len && i + 1 + d == len
      invariant TrailingOnes(c, d)
    {
      OneMore(c, i, d);
      i, d := i - 1, d + 1;
    }
    if i >= 0 {
      Incremented(c, i, d);
      r := Low(huff, i) + Pow2(i);
    } else {
      Wrapped(c, len);
      r := 0;
    }
  }

  // ----- how large a sub-table must be ------------------------------------------------------------

  // The leading root bits of a code.
  ghost function Prefix(lens: Lens, s: nat, root: nat): nat
    requires Coded(lens, s) && root <= lens[s]
  {
    Shr(Code(lens, s), lens[s] - root)
  }

  // curr more bits suffice for every code with the leading bits p.
  ghost predicate Sized(lens: Lens, root: nat, p: nat, curr: nat, max: nat) {
    && curr + root <= max
    && (curr + root == max || EndCode(lens, |lens|, curr + root) >= Shl(p + 1, curr))
  }

  lemma SizedFits(lens: Lens, root: nat, p: nat, curr: nat, max: nat, s: nat)
    requires LensOk(lens) && NotOversubscribed(lens) && Sized(lens, root, p, curr, max)
    requires Coded(lens, s) && root <= lens[s] <= max && Prefix(lens, s, root) == p
    ensures lens[s] <= root + curr
  {
    hide EndCode, FirstCode, NotOversubscribed, Shl, Code;
    if lens[s] > root + curr {
      var b, d := root + curr, lens[s] - (root + curr);
      var e := EndCode(lens, |lens|, b);
      CodeFits(lens, s);
      EndCodeGrows(lens, b, d);
      ShlMonotone(Shl(p + 1, curr), e, d);
      ShlShl(p + 1, curr, d);
      ShrAtLeast(Code(lens, s), p + 1, curr + d);
    }
  }

  // count holds the codes not yet entered: of length len those from code c on, of greater lengths all.
  method SubTableBits(lens: Lens, count: seq<nat>, len: nat, root: nat, max: nat, ghost p: nat)
    returns (curr: nat)
    requires |count| == MAX_BITS + 1 && 1 <= root < len <= max <= MAX_BITS
    requires count[len] + Shl(p, len - root) == EndCode(lens, |lens|, len)
    requires forall b :: len < b <= MAX_BITS ==> count[b] == Total(lens, |lens|, b)
    ensures curr >= len - root && Sized(lens, root, p, curr, max)
    ensures curr > len - root ==> EndCode(lens, |lens|, root + curr - 1) < Shl(p + 1, curr - 1)
  {
    hide Count, Shl, Pow2, EndCode, FirstCode, Total;
    curr := len - root;
    var left: int := Pow2(curr);
    ShlAdd(p, 1, curr);
    ShlPow2(0, curr);
    Pow2Steps(0);
    while curr + root < max
      invariant len - root <= curr <= max - root
      invariant Shl(p + 1, curr) == Shl(p, curr) + Pow2(curr)
      invariant left - count[curr + root] == Shl(p + 1, curr) - EndCode(lens, |lens|, curr + root)
      invariant curr > len - root ==> EndCode(lens, |lens|, root + curr - 1) < Shl(p + 1, curr - 1)
      decreases max - curr
    {
      left := left - count[curr + root];
      if left <= 0 {
        break;
      }
      OneBitMore(lens, p, curr, curr + root);
      curr := curr + 1;
      left := 2 * left;
    }
  }

  lemma OneBitMore(lens: Lens, p: nat, curr: nat, b: nat)
    ensures Shl(p + 1, curr + 1) == 2 * Shl(p + 1, curr) && Shl(p, curr + 1) == 2 * Shl(p, curr) && Pow2(curr + 1) == 2 * Pow2(curr)
    ensures EndCode(lens, |lens|, b + 1) == 2 * EndCode(lens, |lens|, b) + Total(lens, |lens|, b + 1)
  {
    ShlTwice(p, curr + 1);
    ShlTwice(p + 1, curr + 1);
  }
}
