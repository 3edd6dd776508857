/** crc32.c: the tables, the byte-wise and the word-wise loops, and the combination of two checksums. */
module Crc32 {
  import opened CrcPolynomial

  // ----- octets ------------------------------------------------------------------------------------------------

  // The octet at the low end, as an index.
  function Octet(x: bv32): (i: nat)
    ensures i < 256
  {
    SmallOctet(x);
    OctetIndex((x & 0xff) as bv8);
    ((x & 0xff) as bv8) as nat
  }

  // An index as a word.
  function Word(i: nat): bv32
    requires i < 256
  {
    (i as bv8) as bv32
  }

  lemma SmallOctet(x: bv32)
    ensures x & 0xff < 0x100
  {
  }

  lemma OctetIndex(v: bv8)
    ensures v as nat < 256 && (v as nat) as bv8 == v
  {
  }

  lemma OctetWord(x: bv32)
    ensures Word(Octet(x)) == x & 0xff
  {
    SmallOctet(x);
    var v := (x & 0xff) as bv8;
    OctetIndex(v);
    assert v as bv32 == x & 0xff;
  }

  // The byte reversal REV.
  function Rev(w: bv32): bv32 {
    (w >> 24) + ((w >> 8) & 0xff00) + ((w & 0xff00) << 8) + ((w & 0xff) << 24)
  }

  lemma RevPlus(a: bv32, b: bv32)
    ensures Rev(Plus(a, b)) == Plus(Rev(a), Rev(b))
  {
  }

  lemma RevTwice(a: bv32)
    ensures Rev(Rev(a)) == a && Rev(0) == 0 && Rev(0xffffffff) == 0xffffffff
  {
  }

  lemma NotPlus(a: bv32)
    ensures !a == Plus(a, 0xffffffff)
  {
  }

  function Down(x: bv32): bv32 {
    x >> 8
  }

  // The low octet and the rest.
  lemma SplitOctet(x: bv32)
    ensures x == Plus(Word(Octet(x)), Down(x) << 8)
  {
    OctetWord(x);
    assert x == (x & 0xff) ^ ((x >> 8) << 8);
  }

  lemma EightZeros(x: bv32)
    ensures Step(Step(Step(Step(Step(Step(Step(Step((x >> 8) << 8)))))))) == x >> 8
  {
  }

  lemma ShiftEight(x: bv32)
    ensures Shift(x, 8) == Step(Step(Step(Step(Step(Step(Step(Step(x))))))))
  {
    hide Step;
    var a := Step(Step(x));
    var b := Step(Step(a));
    var c := Step(Step(b));
    assert Shift(c, 2) == Step(Step(c));
    assert Shift(b, 4) == Shift(c, 2);
    assert Shift(a, 6) == Shift(b, 4);
    assert Shift(x, 8) == Shift(a, 6);
  }

  // Octets that are zero at the low end are merely shifted out.
  lemma ShiftOut(x: bv32)
    ensures Shift(Down(x) << 8, 8) == Down(x)
  {
    hide Step, Shift;
    ShiftEight((x >> 8) << 8);
    EightZeros(x);
  }

  // The low octet is shifted through, the rest first loses the place of that octet.
  lemma Peel(x: bv32, n: nat)
    ensures Shift(x, 8 + n) == Plus(Shift(Word(Octet(x)), 8 + n), Shift(Down(x), n))
  {
    hide Shift, Plus, Octet, Word, Down;
    SplitOctet(x);
    ShiftLinear(Word(Octet(x)), Down(x) << 8, 8 + n);
    ShiftSum(Down(x) << 8, 8, n);
    ShiftOut(x);
  }

  // ----- the tables --------------------------------------------------------------------------------------------

  // Row k of the table up to octet m holds what an octet becomes under 8 * (k + 1) bits; the rows 4 to 7
  // are the byte reversals of the rows 0 to 3.
  function Entry(k: nat, i: nat): bv32
    requires i < 256
  {
    if k < 4 then Shift(Word(i), 8 * (k + 1)) else Rev(Shift(Word(i), 8 * (k - 3)))
  }

  ghost predicate RowOk(crcTable: array2<bv32>, k: nat, m: nat)
    requires crcTable.Length0 == 8 && crcTable.Length1 == 256 && k < 8 && m <= 256
    reads crcTable
  {
    forall i :: 0 <= i < m ==> crcTable[k, i] == Entry(k, i)
  }

  ghost predicate TablesOk(crcTable: array2<bv32>)
    reads crcTable
  {
    && crcTable.Length0 == 8 && crcTable.Length1 == 256
    && forall k :: 0 <= k < 8 ==> RowOk(crcTable, k, 256)
  }

  const TERMS: seq<bv8> := [0, 1, 2, 4, 5, 7, 8, 10, 11, 12, 16, 22, 23, 26]

  // The exclusive-or pattern of the first n terms.
  function Pattern(n: nat): bv32
    requires n <= |TERMS|
  {
    if n == 0 then 0 else Pattern(n - 1) | ((1 as bv32) << (31 - TERMS[n - 1] % 32))
  }

  lemma HalfPattern()
    ensures Pattern(7) == 0xed800000
  {
    assert Pattern(1) == 0x80000000;
    assert Pattern(2) == 0xc0000000;
    assert Pattern(3) == 0xe0000000;
    assert Pattern(4) == 0xe8000000;
    assert Pattern(5) == 0xec000000;
    assert Pattern(6) == 0xed000000;
  }

  lemma PatternIsPoly()
    ensures Pattern(14) == POLY
  {
    HalfPattern();
    assert Pattern(8) == 0xeda00000;
    assert Pattern(9) == 0xedb00000;
    assert Pattern(10) == 0xedb80000;
    assert Pattern(11) == 0xedb88000;
    assert Pattern(12) == 0xedb88200;
    assert Pattern(13) == 0xedb88300;
  }

  method MakePattern() returns (poly: bv32)
    ensures poly == POLY
  {
    poly := 0;
    var n: nat := 0;
    while n < |TERMS|
      invariant n <= |TERMS| && poly == Pattern(n)
    {
      poly := poly | ((1 as bv32) << (31 - TERMS[n] % 32));
      n := n + 1;
    }
    PatternIsPoly();
  }

  // Eight bits through the register.
  method EightBits(x: bv32, poly: bv32) returns (c: bv32)
    requires poly == POLY
    ensures c == Shift(x, 8)
  {
    c := x;
    var k: nat := 0;
    while k < 8
      invariant k <= 8 && Shift(c, 8 - k) == Shift(x, 8)
    {
      ghost var c0 := c;
      c := if c & 1 == 1 then poly ^ (c >> 1) else c >> 1;
      assert c == Step(c0);
      k := k + 1;
    }
  }

  // One octet is looked up, the others move down.
  lemma LookUp(x: bv32)
    ensures Plus(Entry(0, Octet(x)), Down(x)) == Shift(x, 8)
  {
    hide Plus, Octet, Word, Down, Step;
    Peel(x, 0);
  }

  // How far row j has been filled when column n has its entries in the rows before k and in the rows 4
  // to m + 3.
  function Extent(j: nat, n: nat, k: nat, m: nat): nat {
    if j == 0 then 256 else if j < k || 4 <= j < m + 4 then n + 1 else n
  }

  ghost predicate Column(crcTable: array2<bv32>, n: nat, k: nat, m: nat)
    reads crcTable
  {
    && crcTable.Length0 == 8 && crcTable.Length1 == 256 && n < 256
    && forall j :: 0 <= j < 8 ==> RowOk(crcTable, j, Extent(j, n, k, m))
  }

  // One more entry, in the row of a table or of a reversed table.
  method PutEntry(crcTable: array2<bv32>, j: nat, n: nat, c: bv32, ghost k: nat, ghost m: nat)
    requires 1 <= k <= 4 && m < 4 && Column(crcTable, n, k, m) && (j == k < 4 || j == m + 4) && c == Entry(j, n)
    modifies crcTable
    ensures Column(crcTable, n, if j == k then k + 1 else k, if j == k then m else m + 1)
  {
    hide Entry;
    crcTable[j, n] := c;
    ghost var k', m' := if j == k then k + 1 else k, if j == k then m else m + 1;
    forall i | 0 <= i < 8
      ensures RowOk(crcTable, i, Extent(i, n, k', m'))
    {
      assert old(RowOk(crcTable, i, Extent(i, n, k, m)));
    }
  }

  // The entries of octet n in the tables 1 to 7.
  method MakeColumn(crcTable: array2<bv32>, n: nat)
    requires Column(crcTable, n, 1, 0)
    modifies crcTable
    ensures Column(crcTable, n, 4, 4)
  {
    hide Shift, Rev, Plus, Octet, Word, Column;
    FirstRow(crcTable, n, 1, 0);
    var c := crcTable[0, n];
    PutEntry(crcTable, 4, n, Rev(c), 1, 0);
    var k: nat := 1;
    while k < 4
      invariant 1 <= k <= 4 && c == Shift(Word(n), 8 * k) && Column(crcTable, n, k, k)
    {
      FirstRow(crcTable, n, k, k);
      LookUp(c);
      ShiftSum(Word(n), 8 * k, 8);
      c := Plus(crcTable[0, Octet(c)], Down(c));
      PutEntry(crcTable, k, n, c, k, k);
      PutEntry(crcTable, k + 4, n, Rev(c), k + 1, k);
      k := k + 1;
    }
  }

  lemma FirstRow(crcTable: array2<bv32>, n: nat, k: nat, m: nat)
    requires Column(crcTable, n, k, m)
    ensures crcTable.Length0 == 8 && crcTable.Length1 == 256 && n < 256 && RowOk(crcTable, 0, 256)
  {
    assert Extent(0, n, k, m) == 256;
  }

  lemma NextColumn(crcTable: array2<bv32>, n: nat)
    requires Column(crcTable, n, 4, 4)
    ensures crcTable.Length0 == 8 && crcTable.Length1 == 256
    ensures n < 255 ==> Column(crcTable, n + 1, 1, 0)
    ensures n == 255 ==> TablesOk(crcTable)
  {
    hide RowOk;
    var n' := n + 1;
    forall j | 0 <= j < 8
      ensures RowOk(crcTable, j, Extent(j, n', 1, 0))
    {
      assert RowOk(crcTable, j, Extent(j, n, 4, 4));
    }
    if n == 255 {
      forall j | 0 <= j < 8
        ensures RowOk(crcTable, j, 256)
      {
        assert RowOk(crcTable, j, Extent(j, n', 1, 0));
      }
    }
  }

  // make_crc_table.
  method MakeCrcTable() returns (crcTable: array2<bv32>)
    ensures fresh(crcTable) && TablesOk(crcTable)
  {
    hide Shift, Rev, Entry;
    var poly := MakePattern();
    crcTable := new bv32[8, 256];
    var n: nat := 0;
    while n < 256
      invariant n <= 256 && RowOk(crcTable, 0, n)
    {
      crcTable[0, n] := EightBits(n as bv8 as bv32, poly);
      FirstEntry(n);
      n := n + 1;
    }
    n := 0;
    while n < 256
      invariant n <= 256 && if n < 256 then Column(crcTable, n, 1, 0) else TablesOk(crcTable)
    {
      MakeColumn(crcTable, n);
      NextColumn(crcTable, n);
      n := n + 1;
    }
  }

  lemma FirstEntry(i: nat)
    requires i < 256
    ensures Entry(0, i) == Shift(i as bv8 as bv32, 8)
  {
    hide Shift;
  }

  // ----- byte by byte ------------------------------------------------------------------------------------------

  lemma Grown(c: bv32, buf: Octets, i: nat)
    requires i < |buf|
    ensures Register(c, buf[..i + 1]) == Shift(Plus(Register(c, buf[..i]), buf[i] as bv32), 8)
  {
    hide Shift, Plus;
    RegisterJoin(c, buf[..i], [buf[i]]);
    assert buf[..i] + [buf[i]] == buf[..i + 1];
    assert [buf[i]][1..] == [];
  }

  lemma SameDown(c: bv32, b: bv8)
    ensures Down(Plus(c, b as bv32)) == Down(c)
  {
  }

  // DO1.
  method Do1(crcTable: array2<bv32>, crc: bv32, b: bv8) returns (r: bv32)
    requires TablesOk(crcTable)
    ensures r == Shift(Plus(crc, b as bv32), 8)
  {
    hide Shift, Plus, Down;
    LookUp(Plus(crc, b as bv32));
    SameDown(crc, b);
    assert RowOk(crcTable, 0, 256);
    r := Plus(crcTable[0, Octet(Plus(crc, b as bv32))], Down(crc));
  }

  // DO8, from index i on.
  method Do8(crcTable: array2<bv32>, crc: bv32, buf: Octets, i: nat, ghost c: bv32) returns (r: bv32)
    requires TablesOk(crcTable) && i + 8 <= |buf| && crc == Register(c, buf[..i])
    ensures r == Register(c, buf[..i + 8])
  {
    hide Shift, Plus, Register, TablesOk;
    r := crc;
    var n: nat := 0;
    while n < 8
      invariant n <= 8 && r == Register(c, buf[..i + n])
    {
      Grown(c, buf, i + n);
      r := Do1(crcTable, r, buf[i + n]);
      n := n + 1;
    }
  }

  lemma NothingYet(c: bv32, buf: Octets)
    ensures Register(c, buf[..0]) == c && buf[..|buf|] == buf
  {
  }

  // crc32 where words are not used.
  method CrcBytes(crcTable: array2<bv32>, crc: bv32, buf: Octets) returns (r: bv32)
    requires TablesOk(crcTable)
    ensures r == !Register(!crc, buf)
  {
    hide Shift, Plus, Register, TablesOk;
    NotPlus(crc);
    NothingYet(!crc, buf);
    r := crc ^ 0xffffffff;
    var i: nat := 0;
    while |buf| - i >= 8
      invariant i <= |buf| && r == Register(!crc, buf[..i])
    {
      r := Do8(crcTable, r, buf, i, !crc);
      i := i + 8;
    }
    while i < |buf|
      invariant i <= |buf| && r == Register(!crc, buf[..i])
    {
      Grown(!crc, buf, i);
      r := Do1(crcTable, r, buf[i]);
      i := i + 1;
    }
    NotPlus(r);
    r := r ^ 0xffffffff;
  }

  // ----- word by word ------------------------------------------------------------------------------------------

  // Four octets as a word, the first one at the low end or at the high end.
  function LittleWord(b0: bv8, b1: bv8, b2: bv8, b3: bv8): bv32 {
    (b0 as bv32) | ((b1 as bv32) << 8) | ((b2 as bv32) << 16) | ((b3 as bv32) << 24)
  }

  function BigWord(b0: bv8, b1: bv8, b2: bv8, b3: bv8): bv32 {
    LittleWord(b3, b2, b1, b0)
  }

  lemma WordParts(b0: bv8, b1: bv8, b2: bv8, b3: bv8)
    ensures var w := LittleWord(b0, b1, b2, b3);
            && BigWord(b0, b1, b2, b3) == Rev(w)
            && w & 0xff == b0 as bv32 && Down(w) & 0xff == b1 as bv32 && Down(Down(w)) & 0xff == b2 as bv32
            && Down(Down(Down(w))) & 0xff == b3 as bv32 && Down(Down(Down(Down(w)))) == 0
  {
  }

  // A word that has been added is used up an octet at a time.
  lemma WordStep(c: bv32, w: bv32, n: nat)
    ensures Shift(Plus(c, w), 8 + n) == Shift(Plus(Shift(Plus(c, w & 0xff), 8), Down(w)), n)
  {
    hide Shift, Plus, Octet, Word, Down;
    SplitOctet(w);
    OctetWord(w);
    PlusLaws(c, w & 0xff, Down(w) << 8);
    ShiftSum(Plus(c, w), 8, n);
    ShiftLinear(Plus(c, w & 0xff), Down(w) << 8, 8);
    ShiftOut(w);
  }

  lemma FourBytes(c: bv32, b0: bv8, b1: bv8, b2: bv8, b3: bv8)
    ensures Register(c, [b0, b1, b2, b3]) == Shift(Plus(c, LittleWord(b0, b1, b2, b3)), 32)
  {
    hide Shift, Plus, Octet, Word, Down, LittleWord, Register, Step;
    var w := LittleWord(b0, b1, b2, b3);
    WordParts(b0, b1, b2, b3);
    var c1 := Shift(Plus(c, b0 as bv32), 8);
    var c2 := Shift(Plus(c1, b1 as bv32), 8);
    var c3 := Shift(Plus(c2, b2 as bv32), 8);
    var c4 := Shift(Plus(c3, b3 as bv32), 8);
    WordStep(c, w, 24);
    WordStep(c1, Down(w), 16);
    WordStep(c2, Down(Down(w)), 8);
    WordStep(c3, Down(Down(Down(w))), 0);
    PlusLaws(c4, 0, 0);
    ShiftNothing(c4);
    RegisterFour(c, b0, b1, b2, b3);
  }

  lemma ShiftNothing(c: bv32)
    ensures Shift(c, 0) == c
  {
  }

  lemma RegisterFour(c: bv32, b0: bv8, b1: bv8, b2: bv8, b3: bv8)
    ensures Register(c, [b0, b1, b2, b3]) ==
            Shift(Plus(Shift(Plus(Shift(Plus(Shift(Plus(c, b0 as bv32), 8), b1 as bv32), 8), b2 as bv32), 8), b3 as bv32), 8)
  {
    hide Shift, Plus;
    var c1 := Shift(Plus(c, b0 as bv32), 8);
    var c2 := Shift(Plus(c1, b1 as bv32), 8);
    var c3 := Shift(Plus(c2, b2 as bv32), 8);
    assert [b0, b1, b2, b3][1..] == [b1, b2, b3];
    assert Register(c, [b0, b1, b2, b3]) == Register(c1, [b1, b2, b3]);
    assert [b1, b2, b3][1..] == [b2, b3];
    assert Register(c1, [b1, b2, b3]) == Register(c2, [b2, b3]);
    assert [b2, b3][1..] == [b3];
    assert Register(c2, [b2, b3]) == Register(c3, [b3]);
    assert [b3][1..] == [];
    assert Register(c3, [b3]) == Shift(Plus(c3, b3 as bv32), 8);
  }

  // Four lookups are 32 bits at once.
  lemma FourLookUps(x: bv32)
    ensures Shift(x, 32) == Plus(Plus(Plus(Entry(3, Octet(x)), Entry(2, Octet(Down(x)))), Entry(1, Octet(Down(Down(x))))), Entry(0, Octet(Down(Down(Down(x))))))
  {
    hide Shift, Plus, Octet, Word, Down;
    var y := Down(x);
    var z := Down(y);
    var u := Down(z);
    Peel(x, 24);
    Peel(y, 16);
    Peel(z, 8);
    Peel(u, 0);
    LastOctet(x);
    ShiftNothing(0);
    var a, b, c, d := Entry(3, Octet(x)), Entry(2, Octet(y)), Entry(1, Octet(z)), Entry(0, Octet(u));
    PlusLaws(d, 0, 0);
    PlusLaws(a, b, Plus(c, d));
    PlusLaws(Plus(a, b), c, d);
  }

  lemma LastOctet(x: bv32)
    ensures Down(Down(Down(Down(x)))) == 0
  {
  }

  // DOLIT4 on the word at index i.
  method DoLit4(crcTable: array2<bv32>, c: bv32, buf: Octets, i: nat, ghost c0: bv32) returns (r: bv32)
    requires TablesOk(crcTable) && i + 4 <= |buf| && c == Register(c0, buf[..i])
    ensures r == Register(c0, buf[..i + 4])
  {
    hide Shift, Plus, Register, LittleWord, Down, Entry;
    var x := Plus(c, LittleWord(buf[i], buf[i + 1], buf[i + 2], buf[i + 3]));
    FourLookUps(x);
    assert RowOk(crcTable, 0, 256) && RowOk(crcTable, 1, 256) && RowOk(crcTable, 2, 256) && RowOk(crcTable, 3, 256);
    r := Plus(Plus(Plus(crcTable[3, Octet(x)], crcTable[2, Octet(Down(x))]), crcTable[1, Octet(Down(Down(x)))]),
              crcTable[0, Octet(Down(Down(Down(x))))]);
    FourMore(c0, buf, i);
  }

  lemma FourMore(c0: bv32, buf: Octets, i: nat)
    requires i + 4 <= |buf|
    ensures Register(c0, buf[..i + 4]) == Shift(Plus(Register(c0, buf[..i]), LittleWord(buf[i], buf[i + 1], buf[i + 2], buf[i + 3])), 32)
  {
    hide Shift, Plus, Register, LittleWord;
    FourBytes(Register(c0, buf[..i]), buf[i], buf[i + 1], buf[i + 2], buf[i + 3]);
    RegisterJoin(c0, buf[..i], buf[i..i + 4]);
    assert buf[..i] + buf[i..i + 4] == buf[..i + 4];
    assert buf[i..i + 4] == [buf[i], buf[i + 1], buf[i + 2], buf[i + 3]];
  }

  // crc32_little; start is the address of the buffer.
  method CrcLittle(crcTable: array2<bv32>, crc: bv32, buf: Octets, start: nat) returns (r: bv32)
    requires TablesOk(crcTable)
    ensures r == !Register(!crc, buf)
  {
    hide Shift, Plus, Register, TablesOk;
    NothingYet(!crc, buf);
    var c := !crc;
    var i: nat := 0;
    while i < |buf| && (start + i) % 4 != 0
      invariant i <= |buf| && c == Register(!crc, buf[..i])
    {
      Grown(!crc, buf, i);
      c := Do1(crcTable, c, buf[i]);
      i := i + 1;
    }
    while |buf| - i >= 32
      invariant i <= |buf| && c == Register(!crc, buf[..i])
    {
      var n: nat := 0;
      while n < 8
        invariant n <= 8 && i + 4 * n <= |buf| && c == Register(!crc, buf[..i + 4 * n])
        invariant |buf| - i >= 32
      {
        c := DoLit4(crcTable, c, buf, i + 4 * n, !crc);
        n := n + 1;
      }
      i := i + 32;
    }
    while |buf| - i >= 4
      invariant i <= |buf| && c == Register(!crc, buf[..i])
    {
      c := DoLit4(crcTable, c, buf, i, !crc);
      i := i + 4;
    }
    while i < |buf|
      invariant i <= |buf| && c == Register(!crc, buf[..i])
    {
      Grown(!crc, buf, i);
      c := Do1(crcTable, c, buf[i]);
      i := i + 1;
    }
    r := !c;
  }

  // ----- the same on a big-endian machine: everything is byte-reversed -----------------------------------------

  function Up(x: bv32): bv32 {
    x << 8
  }

  function Top(x: bv32): bv32 {
    x >> 24
  }

  lemma RevEnds(x: bv32)
    ensures Rev(Down(x)) == Up(Rev(x)) && Top(Rev(x)) == x & 0xff
  {
  }

  lemma RevOctets(x: bv32)
    ensures Octet(Rev(x)) == Octet(Down(Down(Down(x)))) && Octet(Down(Rev(x))) == Octet(Down(Down(x)))
    ensures Octet(Down(Down(Rev(x)))) == Octet(Down(x)) && Octet(Down(Down(Down(Rev(x))))) == Octet(x)
  {
    RevMasked(x);
  }

  lemma RevMasked(x: bv32)
    ensures Rev(x) & 0xff == Down(Down(Down(x))) & 0xff && Down(Rev(x)) & 0xff == Down(Down(x)) & 0xff
    ensures Down(Down(Rev(x))) & 0xff == Down(x) & 0xff && Down(Down(Down(Rev(x)))) & 0xff == x & 0xff
  {
  }

  lemma TopOctet(c: bv32, b: bv8)
    ensures Plus(Top(Rev(c)), b as bv32) & 0xff == Plus(c, b as bv32) & 0xff
    ensures Octet(Plus(Top(Rev(c)), b as bv32)) == Octet(Plus(c, b as bv32))
  {
    RevEnds(c);
    assert ((c & 0xff) ^ b as bv32) & 0xff == (c ^ b as bv32) & 0xff;
  }

  // One byte on the reversed register.
  method Do1Big(crcTable: array2<bv32>, c: bv32, b: bv8, ghost x: bv32) returns (r: bv32)
    requires TablesOk(crcTable) && c == Rev(x)
    ensures r == Rev(Shift(Plus(x, b as bv32), 8))
  {
    hide Shift, Plus, Down, Rev, Octet, Top, Up;
    var i := Octet(Plus(Top(c), b as bv32));
    TopOctet(x, b);
    LookUp(Plus(x, b as bv32));
    SameDown(x, b);
    RevEnds(x);
    RevPlus(Entry(0, i), Down(x));
    assert RowOk(crcTable, 4, 256);
    r := Plus(crcTable[4, i], Up(c));
  }

  // DOBIG4 on the word at index i.
  method DoBig4(crcTable: array2<bv32>, c: bv32, buf: Octets, i: nat, ghost c0: bv32) returns (r: bv32)
    requires TablesOk(crcTable) && i + 4 <= |buf| && c == Rev(Register(c0, buf[..i]))
    ensures r == Rev(Register(c0, buf[..i + 4]))
  {
    hide Shift, Plus, Register, LittleWord, Down, Rev, Entry, Octet;
    var y := Plus(c, BigWord(buf[i], buf[i + 1], buf[i + 2], buf[i + 3]));
    assert RowOk(crcTable, 4, 256) && RowOk(crcTable, 5, 256) && RowOk(crcTable, 6, 256) && RowOk(crcTable, 7, 256);
    r := Plus(Plus(Plus(crcTable[4, Octet(y)], crcTable[5, Octet(Down(y))]), crcTable[6, Octet(Down(Down(y)))]),
              crcTable[7, Octet(Down(Down(Down(y))))]);
    ghost var w := LittleWord(buf[i], buf[i + 1], buf[i + 2], buf[i + 3]);
    ghost var x := Plus(Register(c0, buf[..i]), w);
    WordParts(buf[i], buf[i + 1], buf[i + 2], buf[i + 3]);
    RevPlus(Register(c0, buf[..i]), w);
    assert y == Rev(x);
    FourReversed(x);
    FourMore(c0, buf, i);
  }

  lemma FourReversed(x: bv32)
    ensures var y := Rev(x);
            Rev(Shift(x, 32)) == Plus(Plus(Plus(Entry(4, Octet(y)), Entry(5, Octet(Down(y)))), Entry(6, Octet(Down(Down(y))))), Entry(7, Octet(Down(Down(Down(y))))))
  {
    hide Shift, Plus, Octet, Down, Rev, Word;
    RevOctets(x);
    FourLookUps(x);
    var a, b, c, d := Entry(3, Octet(x)), Entry(2, Octet(Down(x))), Entry(1, Octet(Down(Down(x)))), Entry(0, Octet(Down(Down(Down(x)))));
    RevPlus(Plus(Plus(a, b), c), d);
    RevPlus(Plus(a, b), c);
    RevPlus(a, b);
    var p, q, r, s := Rev(a), Rev(b), Rev(c), Rev(d);
    PlusLaws(p, q, 0);
    PlusLaws(Plus(q, p), r, 0);
    PlusLaws(r, Plus(q, p), s);
    PlusLaws(Plus(r, Plus(q, p)), s, 0);
    PlusLaws(s, r, Plus(q, p));
    PlusLaws(Plus(s, r), q, p);
  }

  // DOBIG32.
  method DoBig32(crcTable: array2<bv32>, c: bv32, buf: Octets, i: nat, ghost c0: bv32) returns (r: bv32)
    requires TablesOk(crcTable) && i + 32 <= |buf| && c == Rev(Register(c0, buf[..i]))
    ensures r == Rev(Register(c0, buf[..i + 32]))
  {
    hide Shift, Plus, Register, TablesOk, Rev;
    var n: nat := 0;
    r := c;
    while n < 8
      invariant n <= 8 && r == Rev(Register(c0, buf[..i + 4 * n]))
    {
      r := DoBig4(crcTable, r, buf, i + 4 * n, c0);
      n := n + 1;
    }
  }

  // crc32_big.
  method CrcBig(crcTable: array2<bv32>, crc: bv32, buf: Octets, start: nat) returns (r: bv32)
    requires TablesOk(crcTable)
    ensures r == !Register(!crc, buf)
  {
    hide Shift, Plus, Register, TablesOk, Rev;
    ghost var c0 := !crc;
    NothingYet(c0, buf);
    var c := Rev(crc);
    RevNot(crc);
    c := !c;
    var i: nat := 0;
    while i < |buf| && (start + i) % 4 != 0
      invariant i <= |buf| && c == Rev(Register(c0, buf[..i]))
    {
      Grown(c0, buf, i);
      c := Do1Big(crcTable, c, buf[i], Register(c0, buf[..i]));
      i := i + 1;
    }
    while |buf| - i >= 32
      invariant i <= |buf| && c == Rev(Register(c0, buf[..i]))
    {
      c := DoBig32(crcTable, c, buf, i, c0);
      i := i + 32;
    }
    while |buf| - i >= 4
      invariant i <= |buf| && c == Rev(Register(c0, buf[..i]))
    {
      c := DoBig4(crcTable, c, buf, i, c0);
      i := i + 4;
    }
    while i < |buf|
      invariant i <= |buf| && c == Rev(Register(c0, buf[..i]))
    {
      Grown(c0, buf, i);
      c := Do1Big(crcTable, c, buf[i], Register(c0, buf[..i]));
      i := i + 1;
    }
    BackAgain(c, Register(c0, buf));
    c := !c;
    r := Rev(c);
  }

  lemma BackAgain(c: bv32, x: bv32)
    requires c == Rev(x)
    ensures Rev(!c) == !x
  {
    hide Rev;
    RevNot(x);
    RevTwice(!x);
  }

  lemma RevNot(x: bv32)
    ensures !Rev(x) == Rev(!x)
  {
    hide Rev, Plus;
    NotPlus(x);
    NotPlus(Rev(x));
    RevPlus(x, 0xffffffff);
    RevTwice(0);
  }

  datatype Machine = Bytewise | LittleEndian | BigEndian

  // crc32; a missing buffer asks for the initial value.
  method Checksum(crcTable: array2<bv32>, crc: bv32, buf: Octets, isNull: bool, start: nat, machine: Machine) returns (r: bv32)
    requires TablesOk(crcTable)
    ensures r == if isNull then 0 else !Register(!crc, buf)
  {
    hide Register, TablesOk;
    if isNull {
      return 0;
    }
    match machine {
      case LittleEndian => r := CrcLittle(crcTable, crc, buf, start);
      case BigEndian => r := CrcBig(crcTable, crc, buf, start);
      case Bytewise => r := CrcBytes(crcTable, crc, buf);
    }
  }

  // ----- combining two checksums -----------------------------------------------------------------------------

  // gf2_matrix_times as a function: the sum of the rows that belong to the bits of vec.
  function Times(mat: seq<bv32>, vec: bv32): bv32
    decreases |mat|
  {
    if mat == [] then 0 else Plus(if Odd(vec) then mat[0] else 0, Times(mat[1..], Half(vec)))
  }

  lemma {:induction false} TimesZero(mat: seq<bv32>)
    ensures Times(mat, 0) == 0
    decreases |mat|
  {
    hide Plus, Odd, Half;
    ZeroParts();
    PlusLaws(0, 0, 0);
    if mat != [] {
      TimesZero(mat[1..]);
    }
  }

  lemma {:induction false} TimesLinear(mat: seq<bv32>, a: bv32, b: bv32)
    ensures Times(mat, Plus(a, b)) == Plus(Times(mat, a), Times(mat, b))
    decreases |mat|
  {
    hide Plus, Odd, Half;
    PlusLaws(0, 0, 0);
    if mat != [] {
      PlusParts(a, b);
      TimesLinear(mat[1..], Half(a), Half(b));
      var x, y := if Odd(a) then mat[0] else 0, if Odd(b) then mat[0] else 0;
      PlusLaws(mat[0], mat[0], 0);
      PlusLaws(mat[0], 0, 0);
      PlusLaws(0, mat[0], 0);
      assert Plus(x, y) == if Odd(Plus(a, b)) then mat[0] else 0;
      PlusSwap(x, Times(mat[1..], Half(a)), y, Times(mat[1..], Half(b)));
    }
  }

  method Gf2MatrixTimes(mat: array<bv32>, vec: bv32) returns (sum: bv32)
    requires mat.Length == 32
    ensures sum == Times(mat[..], vec)
  {
    hide Plus, Odd, Half, Times, Fits;
    sum := 0;
    var v := vec;
    var i: nat := 0;
    FitsWord(vec);
    assert mat[0..] == mat[..];
    PlusLaws(Times(mat[..], vec), 0, 0);
    PlusLaws(0, Times(mat[..], vec), 0);
    while v != 0
      invariant i <= 32 && Fits(v, 32 - i)
      invariant Plus(sum, Times(mat[i..], v)) == Times(mat[..], vec)
      decreases 32 - i
    {
      MoreRows(v, 32 - i);
      Row(mat[i..], v, sum);
      if Odd(v) {
        sum := Plus(sum, mat[i]);
      }
      v := Half(v);
      i := i + 1;
      assert mat[i - 1..][1..] == mat[i..];
    }
    TimesZero(mat[i..]);
    PlusLaws(sum, 0, 0);
  }

  lemma MoreRows(v: bv32, n: nat)
    requires v != 0 && Fits(v, n)
    ensures n > 0 && Fits(Half(v), n - 1)
  {
  }

  lemma Row(mat: seq<bv32>, v: bv32, sum: bv32)
    requires mat != []
    ensures Plus(sum, Times(mat, v)) == Plus(if Odd(v) then Plus(sum, mat[0]) else sum, Times(mat[1..], Half(v)))
  {
    hide Plus, Odd, Half;
    PlusLaws(sum, mat[0], Times(mat[1..], Half(v)));
    PlusLaws(0, Times(mat[1..], Half(v)), 0);
    PlusLaws(Times(mat[1..], Half(v)), 0, 0);
  }

  // The operator of n zero bits.
  ghost predicate Operator(mat: seq<bv32>, n: nat) {
    |mat| == 32 && forall v: bv32 :: Times(mat, v) == Shift(v, n)
  }

  // Rows that are products make a matrix that is the product.
  lemma {:induction false} TimesRows(rows: seq<bv32>, mat: seq<bv32>, other: seq<bv32>, v: bv32)
    requires |rows| == |other| && forall i :: 0 <= i < |rows| ==> rows[i] == Times(mat, other[i])
    ensures Times(rows, v) == Times(mat, Times(other, v))
    decreases |rows|
  {
    hide Plus, Odd, Half;
    TimesZero(mat);
    if rows != [] {
      TimesRows(rows[1..], mat, other[1..], Half(v));
      TimesLinear(mat, if Odd(v) then other[0] else 0, Times(other[1..], Half(v)));
    }
  }

  method Gf2MatrixSquare(square: array<bv32>, mat: array<bv32>, ghost k: nat)
    requires square.Length == 32 == mat.Length && square != mat && Operator(mat[..], k)
    modifies square
    ensures Operator(square[..], 2 * k)
  {
    hide Times, Shift, Operator;
    ghost var m := mat[..];
    var n: nat := 0;
    while n < 32
      invariant n <= 32 && mat[..] == m
      invariant forall i :: 0 <= i < n ==> square[i] == Times(m, m[i])
    {
      square[n] := Gf2MatrixTimes(mat, mat[n]);
      n := n + 1;
    }
    Squared(square[..], m, k);
  }

  lemma Squared(square: seq<bv32>, mat: seq<bv32>, k: nat)
    requires |square| == 32 && Operator(mat, k) && forall i :: 0 <= i < 32 ==> square[i] == Times(mat, mat[i])
    ensures Operator(square, 2 * k)
  {
    hide Times, Shift;
    forall v: bv32
      ensures Times(square, v) == Shift(v, 2 * k)
    {
      TimesRows(square, mat, mat, v);
      ShiftSum(v, k, k);
    }
  }

  function Double(x: bv32): bv32 {
    x << 1
  }

  function Doubled(x: bv32, n: nat): bv32
    decreases n
  {
    if n == 0 then x else Doubled(Double(x), n - 1)
  }

  lemma DoubleParts(x: bv32, y: bv32)
    ensures Double(Plus(x, y)) == Plus(Double(x), Double(y)) && x == Plus(Bit(Odd(x)), Double(Half(x)))
  {
    assert (x & 1) ^ ((x >> 1) << 1) == x;
    if Odd(x) {
      assert Bit(Odd(x)) == x & 1;
    } else {
      assert x & 1 == 0;
    }
  }

  lemma {:induction false} DoubledPlus(x: bv32, y: bv32, n: nat)
    ensures Doubled(Plus(x, y), n) == Plus(Doubled(x, n), Doubled(y, n))
    decreases n
  {
    hide Plus, Double, Half, Odd;
    if n > 0 {
      DoubleParts(x, y);
      DoubledPlus(Double(x), Double(y), n - 1);
    }
  }

  lemma {:induction false} DoubledNext(x: bv32, n: nat)
    ensures Double(Doubled(x, n)) == Doubled(x, n + 1)
    decreases n
  {
    hide Double;
    if n > 0 {
      DoubledNext(Double(x), n - 1);
    }
  }

  lemma DoubleZero()
    ensures Double(0) == 0
  {
  }

  lemma {:induction false} DoubledZero(n: nat)
    ensures Doubled(0, n) == 0
  {
    hide Double;
    DoubleZero();
    if n > 0 {
      DoubledZero(n - 1);
    }
  }

  // Rows of single bits, from bit j on, leave a vector as it is, but j places higher up.
  lemma {:induction false} SingleBits(rows: seq<bv32>, v: bv32, j: nat)
    requires Fits(v, |rows|) && forall i :: 0 <= i < |rows| ==> rows[i] == Doubled(1, j + i)
    ensures Times(rows, v) == Doubled(v, j)
    decreases |rows|
  {
    hide Plus, Odd, Half, Double, Doubled;
    DoubledZero(j);
    if rows != [] {
      var h := Half(v);
      forall i | 0 <= i < |rows[1..]|
        ensures rows[1..][i] == Doubled(1, j + 1 + i)
      {
        assert rows[1..][i] == rows[i + 1];
      }
      SingleBits(rows[1..], h, j + 1);
      DoubleParts(v, 0);
      DoubledPlus(Bit(Odd(v)), Double(h), j);
      DoubledMore(h, j);
    }
  }

  lemma DoubledMore(x: bv32, n: nat)
    ensures Doubled(Double(x), n) == Doubled(x, n + 1)
  {
  }

  // The first matrix: one zero bit.
  lemma OneZeroBit(mat: seq<bv32>)
    requires |mat| == 32 && mat[0] == POLY && forall i :: 1 <= i < 32 ==> mat[i] == Doubled(1, i - 1)
    ensures Operator(mat, 1)
  {
    hide Plus, Odd, Half, Double, Doubled;
    forall v: bv32
      ensures Times(mat, v) == Shift(v, 1)
    {
      FitsWord(v);
      SingleBits(mat[1..], Half(v), 0);
      DoubledNone(Half(v));
      PlusLaws(Half(v), 0, 0);
      assert Shift(v, 1) == Step(v);
    }
  }

  lemma DoubledNone(x: bv32)
    ensures Doubled(x, 0) == x
  {
  }

  method OneBitOperator(odd: array<bv32>)
    requires odd.Length == 32
    modifies odd
    ensures Operator(odd[..], 1)
  {
    hide Operator, Doubled, Double;
    odd[0] := POLY;
    var row: bv32 := 1;
    DoubledNone(1);
    var n: nat := 1;
    while n < 32
      invariant 1 <= n <= 32 && row == Doubled(1, n - 1) && odd[0] == POLY
      invariant forall i :: 1 <= i < n ==> odd[i] == Doubled(1, i - 1)
    {
      odd[n] := row;
      DoubledNext(1, n - 1);
      row := Double(row);
      n := n + 1;
    }
    OneZeroBit(odd[..]);
  }

  // One bit of the length: q bytes each, l times.
  lemma Halve(c: bv32, q: nat, l: nat)
    ensures Shift(c, 8 * (q * l)) == Shift(if l % 2 == 1 then Shift(c, 8 * q) else c, 8 * (2 * q * (l / 2)))
  {
    hide Shift;
    var h := l / 2;
    if l % 2 == 1 {
      assert q * l == q + 2 * q * h by {
        assert l == 1 + 2 * h;
      }
      ShiftSum(c, 8 * q, 8 * (2 * q * h));
    } else {
      assert q * l == 2 * q * h by {
        assert l == 2 * h;
      }
    }
  }

  lemma NoneLeft(c: bv32, q: nat)
    ensures Shift(c, 8 * (q * 0)) == c
  {
  }

  // One half of a round: the operator is squared, and applied if the lowest bit of the length asks for it.
  method Round(to: array<bv32>, from: array<bv32>, crc: bv32, len: nat, ghost q: nat) returns (c: bv32)
    requires to.Length == 32 == from.Length && to != from && Operator(from[..], 4 * q)
    modifies to
    ensures Operator(to[..], 8 * q) && Shift(c, 8 * (2 * q * (len / 2))) == Shift(crc, 8 * (q * len))
  {
    hide Operator, Shift, Times;
    Gf2MatrixSquare(to, from, 4 * q);
    c := crc;
    Halve(crc, q, len);
    if len % 2 == 1 {
      c := Gf2MatrixTimes(to, crc);
      Applied(to[..], crc, 8 * q);
    }
  }

  lemma Applied(mat: seq<bv32>, v: bv32, n: nat)
    requires Operator(mat, n)
    ensures Times(mat, v) == Shift(v, n)
  {
  }

  // crc32_combine.
  method CrcCombine(crc1: bv32, crc2: bv32, len2: nat) returns (r: bv32)
    ensures r == if len2 == 0 then crc1 else Plus(Shift(crc1, 8 * len2), crc2)
    ensures forall x: Octets, y: Octets :: crc1 == Crc(x) && crc2 == Crc(y) && |y| == len2 ==> r == Crc(x + y)
  {
    hide Operator, Shift, Plus, Crc;
    forall x: Octets, y: Octets | crc1 == Crc(x) && crc2 == Crc(y) && |y| == len2
      ensures (if len2 == 0 then crc1 else Plus(Shift(crc1, 8 * len2), crc2)) == Crc(x + y)
    {
      CombineIsConcat(x, y);
      assert y == [] ==> x + y == x;
    }
    if len2 == 0 {
      return crc1;
    }
    var even, odd := new bv32[32], new bv32[32];
    OneBitOperator(odd);
    Gf2MatrixSquare(even, odd, 1);
    Gf2MatrixSquare(odd, even, 2);
    var c, len := crc1, len2;
    ghost var q: nat := 1;
    while true
      invariant Operator(odd[..], 4 * q) && len > 0
      invariant Shift(c, 8 * (q * len)) == Shift(crc1, 8 * len2)
      decreases len
    {
      c := Round(even, odd, c, len, q);
      len := len / 2;
      if len == 0 {
        NoneLeft(c, 2 * q);
        break;
      }
      c := Round(odd, even, c, len, 2 * q);
      len := len / 2;
      q := 4 * q;
      if len == 0 {
        NoneLeft(c, q);
        break;
      }
    }
    r := Plus(c, crc2);
  }

  // For a nonempty second part the result is the checksum of the two parts in a row.
  lemma CombineIsConcat(x: Octets, y: Octets)
    ensures Plus(Shift(Crc(x), 8 * |y|), Crc(y)) == Crc(x + y)
  {
    hide Plus, Shift, Register;
    var a, b, m := Register(0xffffffff, x), Register(0xffffffff, y), 0xffffffff;
    RegisterJoin(m, x, y);
    PlusLaws(m, Crc(x), 0);
    PlusLaws(a, m, m);
    PlusLaws(a, 0, 0);
    assert Plus(m, Crc(x)) == a;
    RegisterLinear(m, Crc(x), y);
    PlusLaws(b, Shift(Crc(x), 8 * |y|), m);
    PlusLaws(Plus(b, Shift(Crc(x), 8 * |y|)), m, 0);
    PlusSwap(b, Shift(Crc(x), 8 * |y|), m, 0);
    PlusLaws(Plus(b, m), Shift(Crc(x), 8 * |y|), 0);
  }

  lemma Inverted(x: Octets)
    ensures !Crc(x) == Register(0xffffffff, x)
  {
    hide Register, Plus;
    var a := Register(0xffffffff, x);
    NotPlus(Crc(x));
    PlusLaws(a, 0xffffffff, 0xffffffff);
    PlusLaws(0xffffffff, 0xffffffff, 0);
    PlusLaws(a, 0, 0);
  }

  // A checksum can be continued.
  lemma Continued(x: Octets, y: Octets)
    ensures !Register(!Crc(x), y) == Crc(x + y)
  {
    hide Register, Plus, Crc;
    Inverted(x);
    RegisterJoin(0xffffffff, x, y);
    Finished(x + y);
  }

  lemma Finished(x: Octets)
    ensures !Register(0xffffffff, x) == Crc(x)
  {
    hide Register, Plus;
    NotPlus(Register(0xffffffff, x));
  }
}
