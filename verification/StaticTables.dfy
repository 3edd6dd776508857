/** `tr_static_init`: the compressor's tables of length and distance codes and its static trees, shown
    to agree with the tables of the decompressor (section 3.2.5 of RFC 1951). */
module StaticTables {
  import opened Bits
  import opened Canonical
  import opened InfTreesSpec
  import opened Format
  import opened CodeGeneration

  const EXTRA_LBITS: seq<nat> := [0, 0, 0, 0, 0, 0, 0, 0, 1, 1, 1, 1, 2, 2, 2, 2, 3, 3, 3, 3, 4, 4, 4, 4, 5, 5, 5, 5, 0]
  const EXTRA_DBITS: seq<nat> := [0, 0, 0, 0, 1, 1, 2, 2, 3, 3, 4, 4, 5, 5, 6, 6, 7, 7, 8, 8, 9, 9, 10, 10, 11, 11, 12, 12, 13, 13]

  // The last of the first n bases that does not exceed x.
  function SymFor(base: seq<nat>, n: nat, x: nat): (c: nat)
    requires 1 <= n <= |base|
    ensures c < n
    ensures base[0] <= x ==> base[c] <= x
    ensures forall i :: c < i < n ==> x < base[i]
  {
    if n == 1 || base[n - 1] <= x then n - 1 else SymFor(base, n - 1, x)
  }

  // The length code (without the 257) and the distance code of RFC 1951.
  function LengthSym(len: nat): (c: nat)
    ensures c < 29
  {
    SymFor(LBASE, 29, len)
  }

  function DistSym(dist: nat): (c: nat)
    ensures c < 30
  {
    SymFor(DBASE, 30, dist)
  }

  lemma {:induction false} SymForIs(base: seq<nat>, n: nat, x: nat, c: nat)
    requires 1 <= n <= |base| && c < n && base[c] <= x && forall i :: c < i < n ==> x < base[i]
    ensures SymFor(base, n, x) == c
  {
    if c < n - 1 {
      SymForIs(base, n - 1, x, c);
    }
  }

  // The distance code of a distance minus one, which is how the compressor counts.
  function DistCodeOf(dist: nat): (c: nat)
    ensures c < 30
  {
    DistSym(dist + 1)
  }

  lemma Sizes()
    ensures |LBASE| == |LEXT| == 31 && |DBASE| == |DEXT| == 32 && |EXTRA_LBITS| == 29 && |EXTRA_DBITS| == 30
  {
  }

  // ----- the two sides' tables tile the same ranges ------------------------------------------------------

  lemma LengthExtras(c: nat)
    requires c < 28
    ensures EXTRA_LBITS[c] == LEXT[c] - 16 <= 5
  {
  }

  lemma DistExtras(c: nat)
    requires c < 30
    ensures EXTRA_DBITS[c] == DEXT[c] - 16 <= 13
  {
  }

  lemma LengthSteps(c: nat)
    requires c < 28
    ensures LBASE[c] + Pow2(EXTRA_LBITS[c]) == (if c == 27 then 259 else LBASE[c + 1])
  {
    hide Pow2;
    Pow2Values();
  }

  lemma DistSteps(c: nat)
    requires c < 30
    ensures DBASE[c] + Pow2(EXTRA_DBITS[c]) == (if c == 29 then 32769 else DBASE[c + 1])
  {
    hide Pow2;
    Pow2Values();
  }

  lemma {:induction false} LengthBasesRise(c: nat, i: nat)
    requires c < i < 29
    ensures LBASE[c] < LBASE[i]
  {
    hide LBASE;
    Sizes();
    if c + 1 < i {
      LengthBasesRise(c, i - 1);
    }
    LengthSteps(i - 1);
    LastLength();
  }

  lemma LastLength()
    ensures LBASE[28] == 258 && LBASE[0] == 3 && LBASE[27] == 227 && EXTRA_LBITS[28] == 0 && LEXT[28] == 16
  {
  }

  lemma {:induction false} DistBasesRise(c: nat, i: nat)
    requires c < i < 30
    ensures DBASE[c] < DBASE[i]
  {
    hide DBASE;
    Sizes();
    if c + 1 < i {
      DistBasesRise(c, i - 1);
    }
    DistSteps(i - 1);
  }

  lemma LengthSymIs(c: nat, len: nat)
    requires c < 28 && LBASE[c] <= len < LBASE[c] + Pow2(EXTRA_LBITS[c]) && len < 258
    ensures LengthSym(len) == c
  {
    hide LBASE, EXTRA_LBITS, Pow2, SymFor;
    Sizes();
    LengthSteps(c);
    LastLength();
    forall i | c < i < 29
      ensures len < LBASE[i]
    {
      if c + 1 < i {
        LengthBasesRise(c + 1, i);
      }
    }
    SymForIs(LBASE, 29, len, c);
  }

  lemma DistSymIs(c: nat, dist: nat)
    requires c < 30 && DBASE[c] <= dist < DBASE[c] + Pow2(EXTRA_DBITS[c])
    ensures DistSym(dist) == c
  {
    hide DBASE, EXTRA_DBITS, Pow2, SymFor;
    Sizes();
    DistSteps(c);
    forall i | c < i < 30
      ensures dist < DBASE[i]
    {
      if c + 1 < i {
        DistBasesRise(c + 1, i);
      }
    }
    SymForIs(DBASE, 30, dist, c);
  }

  // What the extra bits have to say: every length and distance is its base plus a number that fits.
  lemma LengthFits(len: nat)
    requires 3 <= len <= 258
    ensures var c := LengthSym(len);
            LBASE[c] <= len < LBASE[c] + Pow2(EXTRA_LBITS[c]) && (len == 258 <==> c == 28)
  {
    hide Pow2, LBASE, EXTRA_LBITS, SymFor;
    Sizes();
    var c := LengthSym(len);
    LastLength();
    assert LBASE[c] <= len;
    if c < 28 {
      LengthSteps(c);
      assert len < LBASE[28];
      assert c < 27 ==> len < LBASE[c + 1];
    }
  }

  lemma DistFits(dist: nat)
    requires 1 <= dist <= 32768
    ensures var c := DistSym(dist); DBASE[c] <= dist < DBASE[c] + Pow2(EXTRA_DBITS[c])
  {
    hide Pow2, DBASE, EXTRA_DBITS, SymFor;
    Sizes();
    var c := DistSym(dist);
    FirstDist();
    DistSteps(c);
    assert c < 29 ==> dist < DBASE[c + 1];
  }

  lemma FirstDist()
    ensures DBASE[0] == 1 && DBASE[16] == 257
  {
  }

  // ----- the tables ------------------------------------------------------------------------------------------

  datatype Static = Static(lengthCode: seq<nat>, distCode: seq<nat>, baseLength: seq<nat>, baseDist: seq<nat>,
    ltree: seq<nat>, dtree: seq<nat>)

  // d_code.
  function DCode(t: Static, dist: nat): nat
    requires |t.distCode| == 512 && dist < 32768
  {
    if dist < 256 then t.distCode[dist] else t.distCode[256 + dist / 128]
  }

  ghost predicate StaticOk(t: Static) {
    && |t.lengthCode| == 256 && |t.distCode| == 512 && |t.baseLength| == 29 && |t.baseDist| == 30
    && (forall lc :: 0 <= lc < 256 ==> t.lengthCode[lc] == LengthSym(lc + 3))
    && (forall dist :: 0 <= dist < 32768 ==> DCode(t, dist) == DistCodeOf(dist))
    && (forall c :: 0 <= c < 28 ==> t.baseLength[c] + 3 == LBASE[c])
    && (forall c :: 0 <= c < 30 ==> t.baseDist[c] + 1 == DBASE[c])
    && |t.ltree| == 288 && (forall s :: 0 <= s < 288 ==> t.ltree[s] == RevCode(FixedLit(), s))
    && |t.dtree| == 30 && (forall s :: 0 <= s < 30 ==> t.dtree[s] == RevCode(FixedDist(), s))
  }

  ghost predicate LengthsDone(lengthCode: seq<nat>, length: nat) {
    |lengthCode| == 256 && length <= 256 &&
    forall lc :: 0 <= lc < length && lc != 255 ==> lengthCode[lc] == LengthSym(lc + 3)
  }

  method LengthTables() returns (lengthCode: seq<nat>, baseLength: seq<nat>)
    ensures |lengthCode| == 256 && forall lc :: 0 <= lc < 256 ==> lengthCode[lc] == LengthSym(lc + 3)
    ensures |baseLength| == 29 && forall c :: 0 <= c < 28 ==> baseLength[c] + 3 == LBASE[c]
  {
    hide LengthSym, LBASE, EXTRA_LBITS, Pow2;
    Sizes();
    lengthCode, baseLength := seq(256, _ => 0), seq(29, _ => 0);
    var length: nat, code: nat := 0, 0;
    LastLength();
    while code < 28
      invariant code <= 28 && (if code < 28 then length + 3 == LBASE[code] else length == 256) && LengthsDone(lengthCode, length)
      invariant |baseLength| == 29 && forall c :: 0 <= c < code ==> baseLength[c] + 3 == LBASE[c]
    {
      baseLength := baseLength[code := length];
      LengthSteps(code);
      var n: nat := 0;
      while n < Pow2(EXTRA_LBITS[code])
        invariant n <= Pow2(EXTRA_LBITS[code]) && length + 3 == LBASE[code] + n && LengthsDone(lengthCode, length)
      {
        LengthRoom(code, length);
        lengthCode := lengthCode[length := code];
        length := length + 1;
        n := n + 1;
      }
      code := code + 1;
    }
    lengthCode := lengthCode[length - 1 := code];
    LongestLength();
  }

  lemma LengthRoom(c: nat, length: nat)
    requires c < 28 && LBASE[c] <= length + 3 < LBASE[c] + Pow2(EXTRA_LBITS[c])
    ensures length < 256 && (length != 255 ==> LengthSym(length + 3) == c)
  {
    hide LBASE, EXTRA_LBITS, Pow2;
    Sizes();
    LengthSteps(c);
    LastLength();
    if c < 27 {
      if c + 1 < 28 {
        LengthBasesRise(c + 1, 28);
      }
    }
    if length < 255 {
      LengthSymIs(c, length + 3);
    }
  }

  lemma LongestLength()
    ensures LengthSym(258) == 28
  {
    hide LBASE;
    Sizes();
    LastLength();
  }

  // The first part of dist_code holds the codes of small distances, the second those of blocks of 128.
  ghost predicate DistsDone(distCode: seq<nat>, dist: nat, blocks: nat) {
    && |distCode| == 512 && dist <= 256 && 2 <= blocks <= 256
    && (forall k :: 0 <= k < dist ==> distCode[k] == DistCodeOf(k))
    && forall x :: 256 <= x < 128 * blocks ==> distCode[256 + x / 128] == DistCodeOf(x)
  }

  lemma SmallDist(distCode: seq<nat>, dist: nat, c: nat)
    requires DistsDone(distCode, dist, 2) && c < 16 && DBASE[c] <= dist + 1 < DBASE[c] + Pow2(EXTRA_DBITS[c])
    ensures dist < 256 && DistsDone(distCode[dist := c], dist + 1, 2)
  {
    hide DBASE, EXTRA_DBITS, Pow2, DistSym;
    Sizes();
    DistSteps(c);
    FirstDist();
    if c < 15 {
      DistBasesRise(c + 1, 16);
    }
    DistSymIs(c, dist + 1);
  }

  lemma WideDist(distCode: seq<nat>, k: nat, c: nat)
    requires DistsDone(distCode, 256, k) && 16 <= c < 30 && DBASE[c] <= 128 * k + 1 && 128 * k + 128 < DBASE[c] + Pow2(EXTRA_DBITS[c])
    ensures k < 256 && DistsDone(distCode[256 + k := c], 256, k + 1)
  {
    hide DBASE, EXTRA_DBITS, Pow2, DistSym;
    Sizes();
    DistSteps(c);
    if c < 29 {
      DistEnd(c + 1);
    }
    forall x | 128 * k <= x < 128 * k + 128
      ensures DistCodeOf(x) == c
    {
      DistSymIs(c, x + 1);
    }
  }

  lemma {:induction false} DistEnd(c: nat)
    requires c < 30
    ensures DBASE[c] <= 32768
    decreases 30 - c
  {
    hide DBASE, EXTRA_DBITS, Pow2;
    Sizes();
    DistSteps(c);
    if c < 29 {
      DistEnd(c + 1);
    }
  }

  // From code 16 on the ranges consist of whole blocks of 128 distances.
  lemma WideSteps(c: nat)
    requires 16 <= c < 30
    ensures EXTRA_DBITS[c] >= 7 && Pow2(EXTRA_DBITS[c]) == 128 * Pow2(EXTRA_DBITS[c] - 7)
  {
    hide Pow2;
    Pow2Values();
  }

  method DistTables() returns (distCode: seq<nat>, baseDist: seq<nat>)
    ensures |distCode| == 512 && DistsDone(distCode, 256, 256)
    ensures |baseDist| == 30 && forall c :: 0 <= c < 30 ==> baseDist[c] + 1 == DBASE[c]
  {
    hide DistSym, DBASE, EXTRA_DBITS, Pow2, DistsDone;
    Sizes();
    distCode, baseDist := seq(512, _ => 0), seq(30, _ => 0);
    var dist: nat, code: nat := 0, 0;
    FirstDist();
    NoDists(distCode);
    while code < 16
      invariant code <= 16 && dist + 1 == DBASE[code] && |distCode| == 512 && DistsDone(distCode, dist, 2)
      invariant |baseDist| == 30 && forall c :: 0 <= c < code ==> baseDist[c] + 1 == DBASE[c]
    {
      baseDist := baseDist[code := dist];
      DistSteps(code);
      var n: nat := 0;
      while n < Pow2(EXTRA_DBITS[code])
        invariant n <= Pow2(EXTRA_DBITS[code]) && dist + 1 == DBASE[code] + n && |distCode| == 512 && DistsDone(distCode, dist, 2)
      {
        SmallDist(distCode, dist, code);
        distCode := distCode[dist := code];
        dist := dist + 1;
        n := n + 1;
      }
      code := code + 1;
    }
    dist := dist / 128;
    while code < 30
      invariant 16 <= code <= 30 && 128 * dist + 1 == (if code < 30 then DBASE[code] else 32769)
      invariant |distCode| == 512 && DistsDone(distCode, 256, dist)
      invariant |baseDist| == 30 && forall c :: 0 <= c < code ==> baseDist[c] + 1 == DBASE[c]
    {
      baseDist := baseDist[code := 128 * dist];
      DistSteps(code);
      WideSteps(code);
      var n: nat := 0;
      while n < Pow2(EXTRA_DBITS[code] - 7)
        invariant n <= Pow2(EXTRA_DBITS[code] - 7) && 128 * dist + 1 == DBASE[code] + 128 * n
        invariant |distCode| == 512 && DistsDone(distCode, 256, dist)
      {
        WideDist(distCode, dist, code);
        distCode := distCode[256 + dist := code];
        dist := dist + 1;
        n := n + 1;
      }
      code := code + 1;
    }
  }

  lemma NoDists(distCode: seq<nat>)
    requires |distCode| == 512
    ensures DistsDone(distCode, 0, 2)
  {
  }

  // ----- the static trees ----------------------------------------------------------------------------------------

  lemma {:induction false} FixedLitCounts(n: nat, b: nat)
    requires n <= 288 && 1 <= b <= 15
    ensures Count(FixedLit(), n, b) ==
            if b == 8 then (if n <= 144 then n else if n <= 280 then 144 else n - 136)
            else if b == 9 then (if n <= 144 then 0 else if n <= 256 then n - 144 else 112)
            else if b == 7 then (if n <= 256 then 0 else if n <= 280 then n - 256 else 24)
            else 0
  {
    if n > 0 {
      FixedLitCounts(n - 1, b);
    }
  }

  // The distance codes of five bits are the numbers 0..31 themselves.
  lemma {:induction false} FixedDistCounts(n: nat, b: nat)
    requires n <= 32
    ensures Count(FixedDist(), n, b) == if b == 5 then n else 0
  {
    if n > 0 {
      FixedDistCounts(n - 1, b);
    }
  }

  lemma {:induction false} NoShorterDist(b: nat)
    requires b <= 5
    ensures FirstCode(FixedDist(), 32, b) == 0
  {
    if b > 0 {
      NoShorterDist(b - 1);
      FixedDistCounts(32, b - 1);
    }
  }

  lemma FixedDistCode(s: nat)
    requires s < 32
    ensures RevCode(FixedDist(), s) == Reverse(s, 5)
  {
    hide Reverse, Pow2, FirstCode, Count;
    var five: nat := 5;
    NoShorterDist(five);
    FixedDistCounts(s, five);
  }

  // The lengths are put in by counting up through four ranges of symbols.
  method StaticLtree() returns (ltree: seq<nat>)
    ensures |ltree| == 288 && forall s :: 0 <= s < 288 ==> ltree[s] == RevCode(FixedLit(), s)
  {
    hide Count, RevCode, Kraft, Pow2, CodesSet;
    var len: seq<nat>, bl: seq<nat> := seq(288, _ => 0), seq(MAX_BITS + 1, _ => 0);
    var n: nat := 0;
    while n < 288
      invariant n <= 288 && |len| == 288 && |bl| == MAX_BITS + 1 && bl[0] == 0
      invariant forall s :: 0 <= s < n ==> len[s] == FixedLit()[s]
      invariant bl[8] == (if n <= 144 then n else if n <= 280 then 144 else n - 136)
      invariant bl[9] == if n <= 144 then 0 else if n <= 256 then n - 144 else 112
      invariant bl[7] == if n <= 256 then 0 else if n <= 280 then n - 256 else 24
      invariant forall b :: 1 <= b <= MAX_BITS && b != 7 && b != 8 && b != 9 ==> bl[b] == 0
    {
      var bits: nat := if n <= 143 then 8 else if n <= 255 then 9 else if n <= 279 then 7 else 8;
      len := len[n := bits];
      bl := bl[bits := bl[bits] + 1];
      n := n + 1;
    }
    assert len == FixedLit();
    forall b: nat | 1 <= b <= MAX_BITS
      ensures bl[b] == Count(len, |len|, b)
    {
      FixedLitCounts(288, b);
    }
    FixedComplete();
    ltree := GenCodes(seq(288, _ => 0), len, 287, bl);
    SetCodes(seq(288, _ => 0), ltree);
  }

  lemma SetCodes(fc0: seq<nat>, fc: seq<nat>)
    requires CodesSet(fc0, fc, FixedLit(), 288) && |fc0| == 288
    ensures |fc| == 288 && forall s :: 0 <= s < 288 ==> fc[s] == RevCode(FixedLit(), s)
  {
    hide RevCode;
  }

  method StaticDtree() returns (dtree: seq<nat>)
    ensures |dtree| == 30 && forall s :: 0 <= s < 30 ==> dtree[s] == RevCode(FixedDist(), s)
  {
    hide RevCode, Reverse;
    dtree := [];
    for n := 0 to 30
      invariant |dtree| == n && forall s :: 0 <= s < n ==> dtree[s] == RevCode(FixedDist(), s)
    {
      var r := BiReverse(n, 5);
      FixedDistCode(n);
      dtree := dtree + [r];
    }
  }

  method TrStaticInit() returns (t: Static)
    ensures StaticOk(t)
  {
    hide RevCode, LengthSym, DistCodeOf, LBASE, DBASE;
    Sizes();
    var lengthCode, baseLength := LengthTables();
    var distCode, baseDist := DistTables();
    var ltree := StaticLtree();
    var dtree := StaticDtree();
    t := Static(lengthCode, distCode, baseLength, baseDist, ltree, dtree);
  }
}
