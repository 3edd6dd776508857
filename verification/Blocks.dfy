/** The three kinds of block as bit strings, and that each reads back as the bytes it stands for. */
module Blocks {
  import opened Bits
  import opened Canonical
  import opened Format
  import opened BitOutput
  import opened BlockCode
  import opened TreeCode

  function TypeBits(kind: nat, eof: bool): BitString {
    ToBits(2 * kind + (if eof then 1 else 0), 3)
  }

  function FixedBits(toks: seq<Token>, eof: bool): BitString {
    TypeBits(1, eof) + BlockBits(FixedLit(), FixedDist(), toks)
  }

  function DynamicBits(l: Lens, d: Lens, cl: Lens, n: nat, toks: seq<Token>, eof: bool): BitString
    requires 257 <= |l| && 1 <= |d| && |cl| == 19 && 4 <= n <= 19
  {
    TypeBits(2, eof) + HeaderBits(l, d, cl, n) + BlockBits(l, d, toks)
  }

  function StoredBits(pad: nat, data: Bytes, eof: bool): BitString
    requires |data| < 65536
  {
    TypeBits(0, eof) + ToBits(0, pad) + ToBits(|data|, 16) + ToBits(65535 - |data|, 16) + BytesToBits(data)
  }

  // A state between blocks.
  function Between(pos: nat, last: bool, out: Bytes): Abs {
    Abs(pos, last, TypeDo, [], [], out)
  }

  lemma TypeReads(s: BitString, pos: nat, kind: nat, eof: bool)
    requires kind < 3 && At(s, pos, TypeBits(kind, eof))
    ensures Has(s, pos, 3) && s[pos] == eof && Field(s, pos + 1, 2) == kind
  {
    hide Field, Pow2;
    var v := 2 * kind + (if eof then 1 else 0);
    var one, two: nat := 1, 2;
    ToBitsConcat(v, one, two);
    assert Shr(v, one) == kind;
    AtSplit(s, pos, ToBits(v, one), ToBits(kind, two));
    Pow2Values();
    FieldAt(s, pos + 1, kind, two);
    assert ToBits(v, one)[0] == (v % 2 == 1);
    assert s[pos] == s[pos..pos + 1][0];
  }

  lemma FixedDecodes(s: BitString, pos: nat, out: Bytes, toks: seq<Token>, eof: bool)
    requires Covers(FixedLit(), FixedDist(), toks) && Expandable(out, toks) && At(s, pos, FixedBits(toks, eof))
    ensures Reaches(s, Between(pos, false, out), Between(pos + |FixedBits(toks, eof)|, eof, Expand(out, toks)))
  {
    hide Reaches, Covers, At, TypeBits, BlockBits, Expandable, Expand, Field;
    var a := Between(pos, false, out);
    AtSplit(s, pos, TypeBits(1, eof), BlockBits(FixedLit(), FixedDist(), toks));
    TypeReads(s, pos, 1, eof);
    var b := Abs(pos + 3, eof, Len, FixedLit(), FixedDist(), out);
    assert Step(s, a) == Next(b);
    ReachesStep(s, a, b);
    assert |TypeBits(1, eof)| == 3 by { TypeLength(1, eof); }
    BlockDecodes(s, b, toks);
    ReachesTrans(s, a, b, Between(b.pos + |BlockBits(b.l, b.d, toks)|, eof, Expand(out, toks)));
  }

  lemma TypeLength(kind: nat, eof: bool)
    ensures |TypeBits(kind, eof)| == 3
  {
  }

  lemma HeaderShape(l: Lens, d: Lens, cl: Lens, n: nat)
    requires HeaderOk(l, d, cl, n)
    ensures 257 <= |l| && 1 <= |d| && |cl| == 19 && 4 <= n <= 19
  {
  }

  lemma DynamicDecodes(s: BitString, pos: nat, out: Bytes, l: Lens, d: Lens, cl: Lens, n: nat, toks: seq<Token>, eof: bool)
    requires HeaderOk(l, d, cl, n) && Covers(l, d, toks) && Expandable(out, toks)
    requires At(s, pos, DynamicBits(l, d, cl, n, toks, eof))
    ensures Reaches(s, Between(pos, false, out), Between(pos + |DynamicBits(l, d, cl, n, toks, eof)|, eof, Expand(out, toks)))
  {
    hide Reaches, HeaderOk, Covers, At, TypeBits, HeaderBits, BlockBits, Expandable, Expand, Field;
    var a := Between(pos, false, out);
    HeaderShape(l, d, cl, n);
    AtSplit(s, pos, TypeBits(2, eof) + HeaderBits(l, d, cl, n), BlockBits(l, d, toks));
    AtSplit(s, pos, TypeBits(2, eof), HeaderBits(l, d, cl, n));
    TypeReads(s, pos, 2, eof);
    TypeLength(2, eof);
    var b := Abs(pos + 3, eof, Table, [], [], out);
    assert Step(s, a) == Next(b);
    ReachesStep(s, a, b);
    HeaderDecodes(s, b, l, d, cl, n);
    var c := b.(pos := b.pos + |HeaderBits(l, d, cl, n)|, mode := Len, l := l, d := d);
    ReachesTrans(s, a, b, c);
    BlockDecodes(s, c, toks);
    ReachesTrans(s, a, c, Between(c.pos + |BlockBits(l, d, toks)|, eof, Expand(out, toks)));
  }

  lemma ByteReads(s: BitString, a: Abs, data: Bytes)
    requires data != [] && a.mode == Copy(|data|) && At(s, a.pos, BytesToBits(data))
    ensures Step(s, a) == Next(a.(pos := a.pos + 8, mode := Copy(|data| - 1), out := a.out + [data[0]]))
    ensures At(s, a.pos + 8, BytesToBits(data[1..]))
  {
    hide Field, Pow2, At;
    AtSplit(s, a.pos, ToBits(data[0], 8), BytesToBits(data[1..]));
    Pow2Values();
    FieldAt(s, a.pos, data[0], 8);
  }

  lemma {:induction false} BytesRead(s: BitString, a: Abs, data: Bytes)
    requires a.mode == Copy(|data|) && At(s, a.pos, BytesToBits(data))
    ensures Reaches(s, a, a.(pos := a.pos + 8 * |data|, mode := TypeDo, out := a.out + data))
    decreases |data|
  {
    hide Reaches, At, Field, BytesToBits;
    if data == [] {
      assert a.out + data == a.out;
      ReachesStep(s, a, a.(mode := TypeDo));
    } else {
      ByteReads(s, a, data);
      var b := a.(pos := a.pos + 8, mode := Copy(|data| - 1), out := a.out + [data[0]]);
      ReachesStep(s, a, b);
      BytesRead(s, b, data[1..]);
      assert a.out + [data[0]] + data[1..] == a.out + data;
      ReachesTrans(s, a, b, a.(pos := a.pos + 8 * |data|, mode := TypeDo, out := a.out + data));
    }
  }

  lemma StoredDecodes(s: BitString, pos: nat, out: Bytes, pad: nat, data: Bytes, eof: bool)
    requires |data| < 65536 && pad == PadLen(pos + 3) && At(s, pos, StoredBits(pad, data, eof))
    ensures Reaches(s, Between(pos, false, out), Between(pos + |StoredBits(pad, data, eof)|, eof, out + data))
  {
    hide Reaches, At, TypeBits, BytesToBits, ToBits, Field, Pow2;
    var a := Between(pos, false, out);
    var n1, n2 := ToBits(|data|, 16), ToBits(65535 - |data|, 16);
    AtSplit(s, pos, TypeBits(0, eof) + ToBits(0, pad) + n1 + n2, BytesToBits(data));
    AtSplit(s, pos, TypeBits(0, eof) + ToBits(0, pad) + n1, n2);
    AtSplit(s, pos, TypeBits(0, eof) + ToBits(0, pad), n1);
    AtSplit(s, pos, TypeBits(0, eof), ToBits(0, pad));
    TypeReads(s, pos, 0, eof);
    TypeLength(0, eof);
    var p := pos + 3 + pad;
    UpIsPad(pos + 3);
    var b := Abs(p, eof, Stored, [], [], out);
    assert Step(s, a) == Next(b);
    ReachesStep(s, a, b);
    Pow2Values();
    FieldAt(s, p, |data|, 16);
    FieldAt(s, p + 16, 65535 - |data|, 16);
    var c := b.(pos := p + 32, mode := Copy(|data|));
    assert StepStored(s, b) == Next(c);
    ReachesStep(s, b, c);
    ReachesTrans(s, a, b, c);
    BytesRead(s, c, data);
    ReachesTrans(s, a, c, Between(c.pos + 8 * |data|, eof, out + data));
  }

  lemma UpIsPad(n: nat)
    ensures Up8(n) == n + PadLen(n)
  {
  }

  // After the last block the reader moves to the next byte and is done.
  lemma LastDone(s: BitString, pos: nat, out: Bytes)
    ensures Reaches(s, Between(pos, true, out), Abs(Up8(pos), true, Check, [], [], out))
  {
    hide Reaches;
    ReachesStep(s, Between(pos, true, out), Abs(Up8(pos), true, Check, [], [], out));
  }

  // ----- streams ---------------------------------------------------------------------------------------------

  // The stream so far consists of whole blocks and reads back as `out`.
  ghost predicate Written(s: BitString, out: Bytes) {
    Reaches(s, START, Between(|s|, false, out))
  }

  // The stream is finished and reads back as `out`.
  ghost predicate Finished(s: BitString, out: Bytes) {
    Reaches(s, START, Abs(|s|, true, Check, [], [], out))
  }

  lemma NothingWritten()
    ensures Written([], [])
  {
    hide Reaches;
    ReachesSelf([], START);
  }

  // A block that reads back from where the stream ends extends the stream.
  lemma BlockAdded(s: BitString, block: BitString, out: Bytes, out': Bytes, eof: bool)
    requires Written(s, out) && Reaches(s + block, Between(|s|, false, out), Between(|s + block|, eof, out'))
    ensures Reaches(s + block, START, Between(|s + block|, eof, out'))
  {
    hide Reaches;
    ReachesMore(s, block, START, Between(|s|, false, out));
    ReachesTrans(s + block, START, Between(|s|, false, out), Between(|s + block|, eof, out'));
  }

  lemma Ended(s: BitString, pad: BitString, out: Bytes)
    requires Reaches(s, START, Between(|s|, true, out)) && |pad| == PadLen(|s|)
    ensures Finished(s + pad, out)
  {
    hide Reaches;
    ReachesMore(s, pad, START, Between(|s|, true, out));
    LastDone(s + pad, |s|, out);
    UpIsPad(|s|);
    ReachesTrans(s + pad, START, Between(|s|, true, out), Abs(Up8(|s|), true, Check, [], [], out));
  }

  lemma AtEnd(s: BitString, b: BitString)
    ensures At(s + b, |s|, b)
  {
    assert (s + b)[|s|..|s| + |b|] == b;
  }
}
