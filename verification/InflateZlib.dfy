/** `inflate` for zlib streams: the states before and behind the deflated data (section 2.2 of RFC 1950). The states
    in between are those of a raw stream. */
module InflateZlib {
  import opened Bits
  import opened Canonical
  import opened InfTreesSpec
  import opened Format
  import opened BitInput
  import opened InflateStates
  import opened Inflate
  import opened Blocks
  import opened RoundTrip
  import A = Adler32
  import D = DeflateStream

  const Z_NEED_DICT := 2

  // ----- numbers read byte by byte --------------------------------------------------------------------------------

  function Little(s: Bytes): nat {
    if s == [] then 0 else s[0] + 256 * Little(s[1..])
  }

  lemma {:induction false} LittleBits(s: Bytes)
    ensures FromBits(BytesToBits(s)) == Little(s)
  {
    if s != [] {
      LittleBits(s[1..]);
      LittleStep(s[0], BytesToBits(s[1..]));
    }
  }

  lemma LittleStep(b: byte, rest: BitString)
    ensures FromBits(ToBits(b, 8) + rest) == b + 256 * FromBits(rest)
  {
    hide FromBits, ToBits, Low, Shl, Pow2;
    Pow2Values();
    FromBitsConcat(ToBits(b, 8), rest);
    FromToBits(b, 8);
    LowSmall(b, 8);
    ShlIsProduct(FromBits(rest), 8);
  }

  // The accumulator holds these bytes and nothing else.
  ghost predicate Held(part: Bytes, hold: nat, bits: nat) {
    Accum(part, hold, bits) && bits == 8 * |part|
  }

  lemma HeldValue(part: Bytes, hold: nat, bits: nat)
    requires Held(part, hold, bits)
    ensures hold == Little(part)
  {
    hide FromBits, ToBits, BytesToBits, Low, Pow2, Little;
    assert BytesToBits(part)[0..] == BytesToBits(part);
    FromToBits(hold, bits);
    LowSmall(hold, bits);
    LittleBits(part);
  }

  lemma HeldNothing()
    ensures Held([], 0, 0)
  {
  }

  // NEEDBITS(8 * n) on an accumulator of whole bytes.
  method Gather(hold: nat, bits: nat, n: nat, input: Bytes, ghost part: Bytes)
    returns (ok: bool, hold': nat, bits': nat, rest: Bytes, ghost part': Bytes)
    requires Held(part, hold, bits) && |part| < n
    ensures Held(part', hold', bits') && part <= part' && part' + rest == part + input
    ensures if ok then |part'| == n && bits' == 8 * n && hold' == Little(part') else |part'| < n && rest == []
  {
    hide Accum;
    var io := Io(hold, bits, input, [], 0);
    var io';
    ok, io', part' := NeedBits(io, 8 * n, part);
    hold', bits', rest := io'.hold, io'.bits, io'.next;
    if ok {
      HeldValue(part', hold', bits');
    }
  }

  // ----- the header -------------------------------------------------------------------------------------------------

  // A multiple of 31, method 8, and a window of at most 2^15 bytes.
  predicate GoodHeader(h: Bytes)
    requires |h| == 2
  {
    var a: nat, b: nat := h[0], h[1];
    (a * 256 + b) % 31 == 0 && a % 16 == 8 && a / 16 <= 7
  }

  predicate WantsDict(h: Bytes)
    requires |h| == 2
  {
    h[1] / 32 % 2 == 1
  }

  // What the tests of the source see in the accumulator.
  lemma HeaderWord(h: Bytes, hold: nat)
    requires |h| == 2 && hold == Little(h)
    ensures hold % 256 == h[0] && hold / 256 == h[1]
    ensures hold % 16 == h[0] % 16 && hold / 16 % 16 == h[0] / 16
    ensures hold / 16 / 512 % 2 == h[1] / 32 % 2
  {
    assert Little(h[1..]) == h[1] + 256 * Little(h[1..][1..]) && Little(h[1..][1..]) == 0;
    TwoParts(h[0], h[1]);
  }

  lemma TwoParts(a: nat, b: nat)
    requires a < 256 && b < 256
    ensures var w := a + 256 * b;
            && w % 256 == a && w / 256 == b && w % 16 == a % 16 && w / 16 % 16 == a / 16 && w / 16 / 512 % 2 == b / 32 % 2
  {
    var w := a + 256 * b;
    assert w / 16 == a / 16 + 16 * b;
    assert w / 16 / 512 == b / 32;
  }

  // The header that deflate writes.
  lemma DeflateHeader(wBits: nat, level: nat, strategy: nat)
    requires 8 <= wBits <= 15
    ensures |D.HeaderBytes(wBits, level, strategy)| == 2
    ensures GoodHeader(D.HeaderBytes(wBits, level, strategy)) && !WantsDict(D.HeaderBytes(wBits, level, strategy))
  {
    hide D.Header;
    D.HeaderFields(wBits, level, strategy);
    var h := D.Header(wBits, level, strategy);
    TwoHalves(h);
  }

  lemma TwoHalves(h: nat)
    ensures h / 256 * 256 + h % 256 == h && h % 256 / 32 % 2 == h / 32 % 2
  {
    var q, r := h / 256, h % 256;
    assert h == 256 * q + r;
    ThreeParts(q, r / 32, r % 32);
    assert r == 32 * (r / 32) + r % 32;
  }

  lemma ThreeParts(q: nat, u: nat, l: nat)
    requires l < 32
    ensures (256 * q + 32 * u + l) / 32 == 8 * q + u && (8 * q + u) % 2 == u % 2
  {
    assert 8 * q + u == u + 2 * (4 * q);
  }

  // ----- the trailer ------------------------------------------------------------------------------------------------

  // REVERSE.
  function Reversed(q: nat): nat {
    q / 0x100_0000 % 256 + q / 0x1_0000 % 256 * 256 + q / 256 % 256 * 0x1_0000 + q % 256 * 0x100_0000
  }

  lemma ReversedSize(q: nat)
    ensures Reversed(q) < 0x1_0000_0000
  {
  }

  function Word(a: nat, b: nat, c: nat, d: nat): nat {
    a + 256 * b + 0x1_0000 * c + 0x100_0000 * d
  }

  lemma FourLittle(s: Bytes)
    requires |s| == 4
    ensures Little(s) == Word(s[0], s[1], s[2], s[3])
  {
    assert Little(s[1..]) == s[1] + 256 * Little(s[1..][1..]);
    assert Little(s[1..][1..]) == s[2] + 256 * Little(s[1..][1..][1..]);
    assert Little(s[1..][1..][1..]) == s[3] + 256 * Little(s[1..][1..][1..][1..]);
  }

  lemma Octets(a: nat, b: nat, c: nat, d: nat)
    requires a < 256 && b < 256 && c < 256 && d < 256
    ensures var q := Word(a, b, c, d);
            q % 256 == a && q / 256 % 256 == b && q / 0x1_0000 % 256 == c && q / 0x100_0000 % 256 == d
  {
    var q := Word(a, b, c, d);
    assert q / 256 == b + 256 * c + 0x1_0000 * d;
    assert q / 0x1_0000 == c + 256 * d;
    assert q / 0x100_0000 == d;
  }

  // The comparison is with the four bytes in network order.
  lemma TrailerIs(s: Bytes, v: nat)
    requires |s| == 4 && v < 0x1_0000_0000
    ensures Reversed(Little(s)) == v <==> s == D.BigEndian(v)
  {
    FourLittle(s);
    ReversedWord(s[0], s[1], s[2], s[3]);
    hide Word, Reversed, D.BigEndian;
    BigIs(s, v);
  }

  lemma ReversedWord(a: nat, b: nat, c: nat, d: nat)
    requires a < 256 && b < 256 && c < 256 && d < 256
    ensures Reversed(Word(a, b, c, d)) == Word(d, c, b, a)
  {
    assert Word(d, c, b, a) == d + 256 * c + 0x1_0000 * b + 0x100_0000 * a;
    Octets(a, b, c, d);
    hide Word;
    var q := Word(a, b, c, d);
    assert Reversed(q) == d + c * 256 + b * 0x1_0000 + a * 0x100_0000;
  }

  lemma BigIs(s: Bytes, v: nat)
    requires |s| == 4 && v < 0x1_0000_0000
    ensures Word(s[3], s[2], s[1], s[0]) == v <==> s == D.BigEndian(v)
  {
    Octets(s[3], s[2], s[1], s[0]);
    FourParts(v);
    hide Word;
    if Word(s[3], s[2], s[1], s[0]) == v {
      assert s == D.BigEndian(v);
    }
  }

  lemma FourParts(v: nat)
    requires v < 0x1_0000_0000
    ensures Word(v % 256, v / 256 % 256, v / 0x1_0000 % 256, v / 0x100_0000 % 256) == v
  {
    assert v == v % 256 + 256 * (v / 256);
    assert v / 256 == v / 256 % 256 + 256 * (v / 0x1_0000);
    assert v / 0x1_0000 == v / 0x1_0000 % 256 + 256 * (v / 0x100_0000);
    assert v / 0x100_0000 < 256;
  }

  lemma ChecksumSize(data: Bytes)
    ensures A.Checksum(data) < 0x1_0000_0000
  {
    hide A.Bytewise;
    A.BytewiseReduced(A.Sums(1, 0), data);
  }

  // ----- the states -------------------------------------------------------------------------------------------------

  datatype Stage = AtHead | AtDictId | AtDict | AtBody | AtCheck | AtEnd | AtBad

  // A header without a dictionary has been read.
  predicate Opened(seen: Bytes) {
    |seen| >= 2 && GoodHeader(seen[..2]) && !WantsDict(seen[..2])
  }

  // A header with a dictionary, and some of the identifier.
  predicate Dictionary(seen: Bytes) {
    |seen| >= 2 && GoodHeader(seen[..2]) && WantsDict(seen[..2])
  }

  // What has been read: the header, the deflated data as far as it goes, and some of the trailer. `body` and `hist`
  // are the input and the output of the states in between, and p is where they stand.
  ghost predicate Staged(stage: Stage, seen: Bytes, hold: nat, bits: nat, check: nat, body: Bytes, hist: Bytes, p: Phase) {
    match stage
    case AtHead => |seen| < 2 && Held(seen, hold, bits) && body == [] && hist == [] && Early(p)
    case AtDictId => Dictionary(seen) && |seen| < 6 && Held(seen[2..], hold, bits) && hist == []
    case AtDict => Dictionary(seen) && |seen| == 6 && hist == [] && check < 0x1_0000_0000 && seen[2..] == D.BigEndian(check)
    case AtBody => Opened(seen) && seen[2..] == body && Early(p) && check == A.Checksum(hist)
    case AtCheck =>
      && Opened(seen) && body <= seen[2..] && |seen| < 6 + |body| && Held(seen[2 + |body|..], hold, bits)
      && p == DONE && check == A.Checksum(hist)
    case AtEnd => Opened(seen) && p == DONE && seen[2..] == body + D.BigEndian(A.Checksum(hist))
    case AtBad =>
      || (|seen| == 2 && !GoodHeader(seen) && hist == [])
      || (Opened(seen) && p == BAD && seen[2..] == body)
      || (Opened(seen) && p == DONE && |seen| == 6 + |body| && body <= seen[2..] && seen[2 + |body|..] != D.BigEndian(A.Checksum(hist)))
  }

  // The tests of the header, on the sixteen bits in the accumulator.
  method JudgeHeader(hold0: nat, ghost h: Bytes) returns (stage: Stage)
    requires |h| == 2 && hold0 == Little(h)
    ensures stage == if !GoodHeader(h) then AtBad else if WantsDict(h) then AtDictId else AtBody
  {
    HeaderWord(h, hold0);
    hide Little;
    var hold := hold0;
    if (hold % 256 * 256 + hold / 256) % 31 != 0 {
      return AtBad;
    }
    if hold % 16 != 8 {
      return AtBad;
    }
    hold := hold / 16;
    var len := hold % 16 + 8;
    if len > 15 {
      return AtBad;
    }
    stage := if hold / 512 % 2 == 1 then AtDictId else AtBody;
  }

  lemma NothingSummed()
    ensures A.Checksum([]) == 1
  {
  }

  // HEAD.
  method ReadHead(hold: nat, bits: nat, check: nat, input: Bytes, ghost seen: Bytes, ghost p: Phase)
    returns (stage: Stage, hold': nat, bits': nat, check': nat, rest: Bytes, ghost seen': Bytes)
    requires Staged(AtHead, seen, hold, bits, check, [], [], p)
    ensures Staged(stage, seen', hold', bits', check', [], [], p) && seen <= seen' && seen' + rest == seen + input
    ensures stage != AtDict && stage != AtCheck && stage != AtEnd && (stage == AtHead ==> rest == [])
  {
    hide Held, A.Checksum, Little, GoodHeader, WantsDict;
    var ok;
    check' := check;
    ok, hold', bits', rest, seen' := Gather(hold, bits, 2, input, seen);
    stage := AtHead;
    if ok {
      stage := JudgeHeader(hold', seen');
      if stage != AtBad {
        assert seen'[..2] == seen' && seen'[2..] == [];
        check', hold', bits' := 1, 0, 0;
        NothingSummed();
        HeldNothing();
      }
    }
  }

  // DICTID.
  method ReadDictId(hold: nat, bits: nat, check: nat, input: Bytes, ghost seen: Bytes, ghost body: Bytes, ghost p: Phase)
    returns (stage: Stage, hold': nat, bits': nat, check': nat, rest: Bytes, ghost seen': Bytes)
    requires Staged(AtDictId, seen, hold, bits, check, body, [], p)
    ensures Staged(stage, seen', hold', bits', check', body, [], p) && seen <= seen' && seen' + rest == seen + input
    ensures stage == AtDict || (stage == AtDictId && rest == [])
  {
    hide Held, GoodHeader, WantsDict, D.BigEndian, Reversed, Little;
    var ok;
    ghost var part;
    check' := check;
    ok, hold', bits', rest, part := Gather(hold, bits, 4, input, seen[2..]);
    seen' := seen[..2] + part;
    Extended(seen, 2, part, rest, input);
    stage := AtDictId;
    if ok {
      check' := Reversed(hold');
      ReversedSize(hold');
      TrailerIs(part, check');
      hold', bits' := 0, 0;
      stage := AtDict;
    }
  }

  // A longer tail behind the first k bytes.
  lemma Extended(seen: Bytes, k: nat, part: Bytes, rest: Bytes, input: Bytes)
    requires k <= |seen| && seen[k..] <= part && part + rest == seen[k..] + input
    ensures var s := seen[..k] + part;
            seen <= s && s + rest == seen + input && s[..k] == seen[..k] && s[k..] == part
  {
    assert seen == seen[..k] + seen[k..];
    assert seen[..k] + part + rest == seen[..k] + (part + rest);
    assert seen[..k] + (seen[k..] + input) == seen + input;
  }

  // CHECK.
  method ReadCheck(hold: nat, bits: nat, check: nat, input: Bytes, ghost seen: Bytes, ghost body: Bytes, ghost hist: Bytes)
    returns (stage: Stage, hold': nat, bits': nat, rest: Bytes, ghost seen': Bytes)
    requires Staged(AtCheck, seen, hold, bits, check, body, hist, DONE)
    ensures Staged(stage, seen', hold', bits', check, body, hist, DONE) && seen <= seen' && seen' + rest == seen + input
    ensures stage == AtEnd || stage == AtBad || (stage == AtCheck && rest == [])
  {
    hide Held, GoodHeader, WantsDict, A.Checksum, D.BigEndian, Reversed, Little;
    var ok;
    ghost var part;
    ghost var k := 2 + |body|;
    ok, hold', bits', rest, part := Gather(hold, bits, 4, input, seen[k..]);
    seen' := seen[..k] + part;
    Extended(seen, k, part, rest, input);
    assert seen'[..2] == seen[..2] && seen'[2..][..|body|] == seen[2..][..|body|] == body;
    assert seen'[2..] == body + part;
    stage := AtCheck;
    if ok {
      ChecksumSize(hist);
      TrailerIs(part, check);
      stage := if Reversed(hold') != check then AtBad else AtEnd;
      if stage == AtEnd {
        hold', bits' := 0, 0;
      }
    }
  }

  // The decoder of the raw stream does not read the fields of the one around it.
  lemma Apart(x: object, z: Inflater)
    requires x is ZlibInflater
    ensures x !in {z, z.m.lens, z.m.lenfix, z.m.distfix, z.t.lencode, z.t.distcode, z.window}
  {
  }

  lemma InBody(seen: Bytes, hold: nat, bits: nat, check: nat, body: Bytes, hist: Bytes, p: Phase)
    requires Staged(AtBody, seen, hold, bits, check, body, hist, p)
    ensures Opened(seen) && |seen| >= 2 && seen[2..] == body && check == A.Checksum(hist)
  {
    hide A.Checksum;
  }

  // Where a call of the decoder of the raw stream leads.
  lemma AfterBody(seen: Bytes, body: Bytes, hist: Bytes, p: Phase, ret: int, hold: nat, bits: nat, check: nat)
    requires Opened(seen) && |seen| >= 2 && check == A.Checksum(hist)
    requires (ret == Z_STREAM_END <==> p == DONE) && (ret == Z_DATA_ERROR <==> p == BAD) && (p != DONE && p != BAD ==> Early(p))
    ensures Staged(if p == DONE then AtCheck else if p == BAD then AtBad else AtBody, seen[..2] + body,
                   if p == DONE then 0 else hold, if p == DONE then 0 else bits, check, body, hist, p)
  {
    hide GoodHeader, WantsDict, A.Checksum, D.BigEndian, Held;
    var s := seen[..2] + body;
    assert s[..2] == seen[..2] && s[2..] == body && s[2 + |body|..] == [];
    HeldNothing();
  }

  class ZlibInflater {
    const z: Inflater
    var stage: Stage
    var hold: nat
    var bits: nat
    var check: nat
    ghost var seen: Bytes

    ghost predicate Valid()
      reads this, z, z.m.lens, z.m.lenfix, z.m.distfix, z.t.lencode, z.t.distcode, z.window
    {
      z.Valid() && Staged(stage, seen, hold, bits, check, z.tr.seen, z.tr.hist, z.st.phase)
    }

    // inflateInit.
    constructor ()
      ensures Valid() && seen == [] == z.tr.hist && stage == AtHead
      ensures fresh(z) && fresh(z.m.lens) && fresh(z.m.work) && fresh(z.m.codes) && fresh(z.m.dcodes) && fresh(z.window)
    {
      hide Held, Decoded, TabsOk, FixedOk;
      z := new Inflater();
      stage, hold, bits, check := AtHead, 0, 0, 0;
      seen := [];
      HeldNothing();
    }

    // The states of a raw stream, with the checksum of their output.
    method InflateBody(input: Bytes, room: nat, flush: int) returns (rest: Bytes, out: Bytes)
      requires Valid() && stage == AtBody
      modifies this`stage, this`hold, this`bits, this`check, this`seen, z, z.m.lens, z.m.work, z.m.codes, z.m.dcodes, z.window
      ensures Valid() && seen + rest == old(seen) + input && old(seen) <= seen && z.tr.hist == old(z.tr.hist) + out && |out| <= room
      ensures stage == AtBody || stage == AtCheck || stage == AtBad
      ensures stage == AtBody ==> |out| == room || (rest == [] && Step(BytesToBits(z.tr.seen), z.tr.a) == Stuck)
    {
      hide Inflater.Valid, Staged, Opened, A.Bytewise, A.Unpack, A.Pack, A.Checksum, Step, BytesToBits;
      InBody(seen, hold, bits, check, z.tr.seen, z.tr.hist, z.st.phase);
      var ret;
      ghost var hist, before := z.tr.hist, seen;
      ret, rest, out := z.Inflate(input, room, flush);
      A.ChecksumContinues(hist, out);
      var c := check;
      if out != [] {
        c := A.Adler32(check, out, false, false);
      } else {
        assert hist + out == hist;
      }
      Extended(seen, 2, z.tr.seen, rest, input);
      AfterBody(seen, z.tr.seen, z.tr.hist, z.st.phase, ret, hold, bits, c);
      Apart(this, z);
      check, seen := c, seen[..2] + z.tr.seen;
      if ret == Z_STREAM_END {
        stage, hold, bits := AtCheck, 0, 0;
      } else if ret == Z_DATA_ERROR {
        stage := AtBad;
      }
    }

    // The header.
    method Open(input: Bytes) returns (rest: Bytes)
      requires Valid() && (stage == AtHead || stage == AtDictId)
      modifies this
      ensures Valid() && seen + rest == old(seen) + input && old(seen) <= seen
      ensures stage == AtBody || stage == AtBad || stage == AtDict || ((stage == AtHead || stage == AtDictId) && rest == [])
    {
      hide Inflater.Valid, Held, GoodHeader, WantsDict, A.Checksum, D.BigEndian;
      rest := input;
      var st, h, b, c := stage, hold, bits, check;
      ghost var s := seen;
      if st == AtHead {
        st, h, b, c, rest, s := ReadHead(h, b, c, rest, s, z.st.phase);
      }
      if st == AtDictId {
        st, h, b, c, rest, s := ReadDictId(h, b, c, rest, s, z.tr.seen, z.st.phase);
      }
      Apart(this, z);
      stage, hold, bits, check, seen := st, h, b, c, s;
    }

    // The trailer.
    method Close(input: Bytes) returns (rest: Bytes)
      requires Valid() && stage == AtCheck
      modifies this
      ensures Valid() && seen + rest == old(seen) + input && old(seen) <= seen
      ensures stage == AtEnd || stage == AtBad || (stage == AtCheck && rest == [])
    {
      hide Inflater.Valid, Held, GoodHeader, WantsDict, A.Checksum, D.BigEndian;
      var st, h, b;
      ghost var s;
      st, h, b, rest, s := ReadCheck(hold, bits, check, input, seen, z.tr.seen, z.tr.hist);
      Apart(this, z);
      stage, hold, bits, seen := st, h, b, s;
    }

    // inflate.
    method Inflate(input: Bytes, room: nat, flush: int) returns (ret: int, rest: Bytes, out: Bytes)
      requires Valid()
      modifies this, z, z.m.lens, z.m.work, z.m.codes, z.m.dcodes, z.window
      ensures Valid() && seen + rest == old(seen) + input && old(seen) <= seen && z.tr.hist == old(z.tr.hist) + out && |out| <= room
      ensures (ret == Z_STREAM_END <==> stage == AtEnd) && (ret == Z_DATA_ERROR <==> stage == AtBad) && (ret == Z_NEED_DICT <==> stage == AtDict)
      ensures ret == Z_OK || ret == Z_BUF_ERROR || ret == Z_STREAM_END || ret == Z_DATA_ERROR || ret == Z_NEED_DICT
      ensures ret == Z_BUF_ERROR <==> stage != AtEnd && stage != AtBad && stage != AtDict && ((rest == input && out == []) || flush == Z_FINISH)
      ensures ret == Z_OK || ret == Z_BUF_ERROR ==>
                if stage == AtBody then |out| == room || (rest == [] && Step(BytesToBits(z.tr.seen), z.tr.a) == Stuck) else rest == []
    {
      hide Inflater.Valid, Held, GoodHeader, WantsDict, A.Checksum, D.BigEndian, Step, BytesToBits;
      rest, out := input, [];
      if stage == AtHead || stage == AtDictId {
        rest := Open(rest);
      }
      if stage == AtBody {
        rest, out := InflateBody(rest, room, flush);
      }
      if stage == AtCheck {
        rest := Close(rest);
      }
      NothingTaken(old(seen), input, seen, rest);
      ret := match stage case AtEnd => Z_STREAM_END case AtBad => Z_DATA_ERROR case AtDict => Z_NEED_DICT case _ => Z_OK;
      if ret == Z_OK && ((|input| == |rest| && out == []) || flush == Z_FINISH) {
        ret := Z_BUF_ERROR;
      }
    }
  }

  // ----- the end is the right end ---------------------------------------------------------------------------------

  // Outside of a compressed block there are no codes, and the end comes behind the last block.
  ghost predicate Bare(a: Abs) {
    match a.mode
    case TypeDo => a.l == [] == a.d
    case Stored => a.l == [] == a.d
    case Copy(_) => a.l == [] == a.d
    case Table => a.l == [] == a.d
    case LenLens(_, _, _, _) => a.l == [] == a.d
    case CodeLens(_, _, _, _) => a.l == [] == a.d
    case Check => a.l == [] == a.d && a.last
    case _ => true
  }

  lemma StepBare(s: BitString, a: Abs)
    requires Bare(a) && Step(s, a).Next?
    ensures Bare(Step(s, a).a)
  {
    hide Field, DecodeSym, Acceptable, Permuted, FixedLit, FixedDist, Up8, Repeat;
    hide StepCodeLens, StepStored, StepMatch, StepDistExt;
    match a.mode
    case CodeLens(_, _, _, _) => CodeLensBare(s, a);
    case Stored => StoredBare(s, a);
    case Match(_, _) => MatchBare(a);
    case DistExt(_, _, _) => DistExtBare(s, a);
    case _ =>
  }

  lemma StoredBare(s: BitString, a: Abs)
    requires Bare(a) && a.mode.Stored? && StepStored(s, a).Next?
    ensures Bare(StepStored(s, a).a)
  {
    hide Field;
  }

  lemma MatchBare(a: Abs)
    requires a.mode.Match? && StepMatch(a).Next?
    ensures Bare(StepMatch(a).a)
  {
  }

  lemma DistExtBare(s: BitString, a: Abs)
    requires a.mode.DistExt? && StepDistExt(s, a).Next?
    ensures Bare(StepDistExt(s, a).a)
  {
    hide Field;
  }

  lemma CodeLensBare(s: BitString, a: Abs)
    requires Bare(a) && a.mode.CodeLens? && StepCodeLens(s, a).Next?
    ensures Bare(StepCodeLens(s, a).a)
  {
    hide Field, DecodeSym, Acceptable, Repeat;
  }

  lemma {:induction false} StepsBare(s: BitString, a: Abs, n: nat)
    requires Bare(a) && Steps(s, a, n).Next?
    ensures Bare(Steps(s, a, n).a)
    decreases n
  {
    hide Step;
    if n > 0 {
      StepBare(s, a);
      StepsBare(s, Step(s, a).a, n - 1);
    }
  }

  // A raw stream at whose end the decoder stands is one that stands for the output.
  lemma DoneIsFinished(x: Inflater)
    requires x.Valid() && x.st.phase == DONE
    ensures Finished(BytesToBits(x.tr.seen), x.tr.hist)
  {
    hide Inflater.Valid, Step, BytesToBits;
    StateOf(x);
    var n: nat :| Steps(BytesToBits(x.tr.seen), START, n) == Next(x.tr.a);
    StepsBare(BytesToBits(x.tr.seen), START, n);
    assert x.tr.a == Abs(8 * |x.tr.seen|, true, Check, [], [], x.tr.hist);
  }

  // Z_STREAM_END comes only for a complete zlib stream of the output: header, data and the right checksum.
  lemma EndIsComplete(x: ZlibInflater)
    requires x.Valid() && x.stage == AtEnd
    ensures |x.seen| >= 2 && D.Complete(x.seen, x.seen[..2], x.z.tr.hist)
  {
    hide Inflater.Valid, Finished, BytesToBits, A.Checksum;
    DoneIsFinished(x.z);
    var h, body, t := x.seen[..2], x.z.tr.seen, D.BigEndian(A.Checksum(x.z.tr.hist));
    assert x.seen == h + (body + t);
    assert x.seen[2..|x.seen| - 4] == body && x.seen[|x.seen| - 4..] == t;
  }

  // ----- and it is reached ----------------------------------------------------------------------------------------

  lemma FourBytes(v: nat)
    ensures |D.BigEndian(v)| == 4
  {
  }

  // Reading a complete zlib stream, followed by anything: only its data comes out, no error and no end comes before
  // the last byte, and behind that one the end is there.
  lemma ZlibReadsBack(x: ZlibInflater, bytes: Bytes, data: Bytes, more: Bytes)
    requires x.Valid() && |bytes| >= 2 && D.Complete(bytes, bytes[..2], data) && Opened(bytes) && x.seen <= bytes + more
    ensures x.z.tr.hist <= data && x.stage != AtBad && x.stage != AtDict && x.stage != AtDictId
    ensures x.stage == AtEnd ==> x.z.tr.hist == data && x.seen == bytes
    ensures bytes <= x.seen ==> x.stage == AtEnd || (x.stage == AtBody && Step(BytesToBits(x.z.tr.seen), x.z.tr.a).Next?)
  {
    hide Inflater.Valid, Finished, BytesToBits, A.Checksum, Step, GoodHeader, WantsDict, Held, D.BigEndian;
    var stream, t := bytes[2..|bytes| - 4], D.BigEndian(A.Checksum(data));
    FourBytes(A.Checksum(data));
    var seen, body := x.seen, x.z.tr.seen;
    InParts(bytes, stream, t, more, seen);
    if Opened(seen) && body <= seen[2..] {
      ReadsBack(x.z, stream, data, t + more);
      Trailing(seen[2..], body, stream, t, more);
      assert seen[2 + |body|..] == seen[2..][|body|..];
    }
  }

  // Header, deflated data and trailer, and how much of them has been seen.
  lemma InParts(bytes: Bytes, stream: Bytes, t: Bytes, more: Bytes, seen: Bytes)
    requires |bytes| >= 6 && stream == bytes[2..|bytes| - 4] && t == bytes[|bytes| - 4..] && seen <= bytes + more
    ensures bytes == bytes[..2] + (stream + t)
    ensures |seen| >= 2 ==> seen[..2] == bytes[..2] && seen[2..] <= stream + (t + more) && (|seen| == 2 ==> seen == seen[..2])
  {
    assert bytes[2..] == stream + t;
    if |seen| >= 2 {
      assert (bytes + more)[2..] == bytes[2..] + more == stream + (t + more);
      assert seen[2..] == (bytes + more)[2..|seen|] == (stream + (t + more))[..|seen| - 2];
    }
  }

  // What follows the deflated data is the trailer.
  lemma Trailing(s: Bytes, body: Bytes, stream: Bytes, t: Bytes, more: Bytes)
    requires body <= s <= stream + (t + more) && |t| == 4
    ensures body == stream && |s| == |body| + 4 ==> s == body + t && s[|body|..] == t
    ensures body == stream && |s| < |body| + 4 ==> s < stream + t
  {
    if body == stream && |s| == |body| + 4 {
      assert s == (stream + (t + more))[..|s|] == stream + t;
    }
    if body == stream && |s| < |body| + 4 {
      assert s == (stream + (t + more))[..|s|] == (stream + t)[..|s|];
    }
  }

  // Fed in any pieces, with any room for each, a complete zlib stream is read to its end, and its trailer accepted.
  method InflateZlibInPieces(bytes: Bytes, ghost data: Bytes) returns (out: Bytes)
    requires |bytes| >= 2 && D.Complete(bytes, bytes[..2], data) && Opened(bytes)
    ensures out == data
  {
    hide Inflater.Valid, ZlibInflater.Valid, BytesToBits, Step, D.Complete, GoodHeader, WantsDict;
    var x := new ZlibInflater();
    var given: nat, ret := 0, Z_OK;
    out := [];
    while ret != Z_STREAM_END
      invariant x.Valid() && fresh(x) && fresh(x.z) && fresh(x.z.m.lens) && fresh(x.z.m.work) && fresh(x.z.m.codes) && fresh(x.z.m.dcodes) && fresh(x.z.window)
      invariant given <= |bytes| && x.seen == bytes[..given] && x.z.tr.hist == out <= data
      invariant ret == Z_STREAM_END ==> out == data
      decreases |bytes| - given + |data| - |out|, if ret == Z_STREAM_END then 0 else 1
    {
      var n: int, room: int := *, *;
      n := if n < 1 then 1 else n;
      n := if n <= |bytes| - given then n else |bytes| - given;
      room := if room < 1 then 1 else room;
      var rest, piece;
      ret, rest, piece := x.Inflate(bytes[given..given + n], room, 0);
      assert bytes[..given] + bytes[given..given + n] == bytes[..given + n];
      Taken(x.seen, rest, bytes[..given + n]);
      assert bytes + [] == bytes && x.seen <= bytes;
      ZlibReadsBack(x, bytes, data, []);
      given := given + n - |rest|;
      out := out + piece;
    }
  }

  // compress and uncompress, wrapper and all: the zlib stream that any calls of deflate have written is read to its
  // end by any calls of inflate, checksum included, unless a block was written over its own tokens.
  method ZlibRoundTrip(data: Bytes, requests: seq<Request>, level: nat, windowBits: nat, memLevel: nat, strategy: nat)
    returns (bytes: Bytes, intact: bool, back: Bytes)
    requires level <= 9 && 8 <= windowBits <= 15 && 1 <= memLevel <= 9 && strategy <= 4
    requires forall r :: r in requests ==> r.flush != Z_FINISH
    ensures intact ==> back == data
    ensures D.NeverLost(level, strategy, windowBits) ==> intact
  {
    hide D.Complete, D.Through, D.NeverLost, D.Compressor.Valid, D.Compressor.HeaderDue, D.Compressor.Handed,
      GoodHeader, WantsDict;
    var c := new D.Compressor(level, windowBits, memLevel, strategy, 1);
    var given, first := DeflateSome(c, data, requests);
    var last := DeflateRest(c, data[given..]);
    bytes, intact, back := first + last, c.s.ts.intact, [];
    if D.NeverLost(level, strategy, windowBits) {
      c.NothingLost();
    }
    if intact {
      assert [] + data[..given] + data[given..] == data && [] + first + last == bytes;
      DueHeader(c);
      ThroughParts(bytes, c.HeaderDue(), c.s.mark, data);
      Wrapped(bytes, c.HeaderDue(), data);
      back := InflateZlibInPieces(bytes, data);
    }
  }

  lemma DueHeader(c: D.Compressor)
    requires c.s.hdr == 2 && 8 <= c.wBits <= 15
    ensures |c.HeaderDue()| == 2 && GoodHeader(c.HeaderDue()) && !WantsDict(c.HeaderDue())
  {
    hide GoodHeader, WantsDict, D.HeaderBytes;
    DeflateHeader(c.wBits, c.s.ts.level, c.s.ts.strategy);
  }

  lemma Wrapped(bytes: Bytes, header: Bytes, data: Bytes)
    requires |header| == 2 && GoodHeader(header) && !WantsDict(header) && D.Complete(bytes, header, data)
    ensures |bytes| >= 2 && bytes[..2] == header && Opened(bytes) && D.Complete(bytes, bytes[..2], data)
  {
    hide GoodHeader, WantsDict, Finished, BytesToBits, A.Checksum;
    assert bytes[..2] == header;
  }
}
