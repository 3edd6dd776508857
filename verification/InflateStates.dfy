/** inflate.c: the states of the decoder between block headers and symbols, each against the steps of
    the format. */
module InflateStates {
  import opened Bits
  import opened Format
  import opened BitInput
  import BitOutput

  datatype Phase =
    TYPE | TYPEDO | STORED | COPY | TABLE | LENLENS | CODELENS | LEN | LENEXT | DIST | DISTEXT | MATCH | LIT | CHECK | DONE | BAD

  // The scalar fields of the decoder's state.
  datatype Regs = Regs(phase: Phase, last: bool, length: nat, offset: nat, extra: nat, nlen: nat, ndist: nat, ncode: nat, have: nat)

  // The state stands for a state of the format's reader. A stored block's header begins at the next
  // byte boundary, which the state reaches a little later than the reader.
  ghost predicate Rep(st: Regs, lens: seq<nat>, a: Abs, pos: nat, bits: nat) {
    && a.last == st.last && a.pos == (if st.phase == STORED then Up8(pos) else pos)
    && match st.phase
       case TYPE => a.mode == TypeDo
       case TYPEDO => a.mode == TypeDo
       case STORED => a.mode == Stored
       case COPY => a.mode == Copy(st.length) && bits == 0
       case TABLE => a.mode == Table
       case LENLENS =>
         && a.mode.LenLens? && a.mode.nlen == st.nlen && a.mode.ndist == st.ndist && a.mode.ncode == st.ncode && |a.mode.got| == st.have
         && st.ncode <= 19 <= |lens| && st.have <= st.ncode && forall i :: 0 <= i < st.have ==> lens[OrderOf(i)] == a.mode.got[i]
       case CODELENS =>
         && a.mode.CodeLens? && a.mode.nlen == st.nlen && a.mode.ndist == st.ndist
         && st.have <= st.nlen + st.ndist <= |lens| && a.mode.got == lens[..st.have]
       case LEN => a.mode == Len
       case LENEXT => a.mode == LenExt(st.length, st.extra) && st.extra <= 13
       case DIST => a.mode == Dist(st.length)
       case DISTEXT => a.mode == DistExt(st.length, st.offset, st.extra) && st.extra <= 13 && st.offset + Pow2(st.extra) <= 32769
       case MATCH => a.mode == Match(st.length, st.offset) && st.offset <= 32768
       case LIT => st.length < 256 && a.mode == Lit(st.length)
       case CHECK => a.mode == Check && bits == 0
       case DONE => a.mode == Check && bits == 0
       case BAD => a.mode == Bad
  }

  // No byte has been pulled that was not needed.
  ghost predicate Lean(seen: Bytes, bits: nat, a: Abs) {
    bits < 8 || Step(BytesToBits(seen), a) == Stuck
  }

  // The decoder has got where the reader gets from the start with the bytes pulled so far, and has put
  // out what the reader has; hist is the output of earlier calls.
  ghost predicate Loose(st: Regs, lens: seq<nat>, seen: Bytes, io: Io, a: Abs, hist: Bytes) {
    && Accum(seen, io.hold, io.bits) && io.bits <= 32 && Rep(st, lens, a, Pos(seen, io), io.bits)
    && a.out == hist + io.put && Reaches(BytesToBits(seen), START, a)
  }

  ghost predicate On(st: Regs, lens: seq<nat>, seen: Bytes, io: Io, a: Abs, hist: Bytes) {
    Loose(st, lens, seen, io, a, hist) && Lean(seen, io.bits, a)
  }

  // Input is only taken from the front, and output only appended, in the room there is.
  ghost predicate Moved(seen: Bytes, io: Io, seen': Bytes, io': Io) {
    && seen <= seen' && seen' + io'.next == seen + io.next
    && io.put <= io'.put && |io'.put| + io'.left == |io.put| + io.left
  }

  lemma MovedMore(s0: Bytes, io0: Io, s1: Bytes, io1: Io, s2: Bytes, io2: Io)
    requires Moved(s0, io0, s1, io1) && Moved(s1, io1, s2, io2)
    ensures Moved(s0, io0, s2, io2)
  {
  }

  function Rank(p: Phase): nat {
    match p
    case STORED => 15
    case COPY => 14
    case TYPE => 13
    case TYPEDO => 12
    case TABLE => 11
    case LENLENS => 10
    case CODELENS => 9
    case LEN => 8
    case LENEXT => 7
    case DIST => 6
    case DISTEXT => 5
    case MATCH => 4
    case LIT => 3
    case CHECK => 2
    case DONE => 1
    case BAD => 0
  }

  function Unread(io: Io): nat {
    8 * |io.next| + io.bits
  }

  // Every round of the loop gets on.
  ghost predicate Onward(st: Regs, io: Io, st': Regs, io': Io) {
    || Unread(io') < Unread(io)
    || (Unread(io') == Unread(io) && io'.left < io.left)
    || (Unread(io') == Unread(io) && io'.left == io.left && Rank(st'.phase) < Rank(st.phase))
  }

  // ----- steps of the reader on more and more input ----------------------------------------------------------

  lemma {:induction false} MoreBits(seen: Bytes, seen': Bytes)
    requires seen <= seen'
    ensures BytesToBits(seen') == BytesToBits(seen) + BytesToBits(seen'[|seen|..])
  {
    BytesToBitsConcat(seen, seen'[|seen|..]);
    assert seen + seen'[|seen|..] == seen';
  }

  lemma Waited(seen: Bytes, seen': Bytes, a: Abs)
    requires seen <= seen' && Reaches(BytesToBits(seen), START, a)
    ensures Reaches(BytesToBits(seen'), START, a)
  {
    hide Reaches, BytesToBits;
    MoreBits(seen, seen');
    ReachesMore(BytesToBits(seen), BytesToBits(seen'[|seen|..]), START, a);
  }

  lemma Stepped(seen: Bytes, seen': Bytes, a: Abs, b: Abs)
    requires seen <= seen' && Reaches(BytesToBits(seen), START, a) && Step(BytesToBits(seen'), a) == Next(b)
    ensures Reaches(BytesToBits(seen'), START, b)
  {
    hide Reaches, BytesToBits, Step;
    Waited(seen, seen', a);
    ReachesStep(BytesToBits(seen'), a, b);
    ReachesTrans(BytesToBits(seen'), START, a, b);
  }

  lemma PulledMoved(seen: Bytes, io: Io, seen': Bytes, io': Io)
    requires Pulled(seen, io, seen', io')
    ensures Moved(seen, io, seen', io') && Unread(io') == Unread(io)
  {
    assert |seen'| + |io'.next| == |seen| + |io.next|;
  }

  // Pulling bytes leaves the decoder where it is.
  lemma Waits(st: Regs, lens: seq<nat>, seen: Bytes, io: Io, a: Abs, hist: Bytes, seen': Bytes, io': Io)
    requires Loose(st, lens, seen, io, a, hist) && Pulled(seen, io, seen', io') && Accum(seen', io'.hold, io'.bits) && io'.bits <= 32
    requires st.phase != COPY && st.phase != CHECK && st.phase != DONE
    ensures Loose(st, lens, seen', io', a, hist) && Moved(seen, io, seen', io') && Unread(io') == Unread(io)
  {
    hide Reaches, Accum, BytesToBits;
    Waited(seen, seen', a);
    PulledMoved(seen, io, seen', io');
  }

  // One step of the reader.
  lemma Steps1(st: Regs, lens: seq<nat>, seen: Bytes, io: Io, a: Abs, hist: Bytes, st': Regs, lens': seq<nat>, io': Io, a': Abs)
    requires Loose(st, lens, seen, io, a, hist) && Step(BytesToBits(seen), a) == Next(a')
    requires Accum(seen, io'.hold, io'.bits) && io'.bits <= 32 && Rep(st', lens', a', Pos(seen, io'), io'.bits)
    requires a'.out == hist + io'.put
    ensures Loose(st', lens', seen, io', a', hist)
  {
    hide Reaches, Accum, BytesToBits, Step, Rep;
    Stepped(seen, seen, a, a');
  }

  lemma LooseParts(st: Regs, lens: seq<nat>, seen: Bytes, io: Io, a: Abs, hist: Bytes)
    requires Loose(st, lens, seen, io, a, hist)
    ensures Accum(seen, io.hold, io.bits) && io.bits <= 32 && io.bits <= 8 * |seen| && |BytesToBits(seen)| == 8 * |seen|
    ensures Rep(st, lens, a, Pos(seen, io), io.bits) && a.out == hist + io.put && a.last == st.last
  {
    hide Reaches, BytesToBits;
  }

  // With eight bits at hand the reader must be stuck.
  lemma LeanBits(seen: Bytes, bits: nat, a: Abs)
    requires Lean(seen, bits, a) && Step(BytesToBits(seen), a).Next?
    ensures bits < 8
  {
  }

  // The state is one that the reader reaches.
  lemma SaneNow(st: Regs, lens: seq<nat>, seen: Bytes, io: Io, a: Abs, hist: Bytes)
    requires Loose(st, lens, seen, io, a, hist)
    ensures Sane(a)
  {
    hide Reaches, Step, Rep, Accum, Sane;
    assert Sane(START) by { StartSane(); }
    ReachesSane(BytesToBits(seen), START, a);
  }

  lemma StartSane()
    ensures Sane(START)
  {
  }

  // ----- TYPE and TYPEDO -------------------------------------------------------------------------------------------

  lemma TypeFields(seen: Bytes, hold: nat, bits: nat)
    requires Accum(seen, hold, bits) && bits >= 3
    ensures var s, pos := BytesToBits(seen), 8 * |seen| - bits;
            && Has(s, pos, 3) && s[pos] == (Low(hold, 1) == 1) && Field(s, pos + 1, 2) == Low(Shr(hold, 1), 2)
  {
    hide Shr, BytesToBits, Pow2, Accum;
    AccumSize(seen, hold, bits);
    var s, pos := BytesToBits(seen), 8 * |seen| - bits;
    AccumField(seen, hold, bits, 1);
    AccumFieldAt(seen, hold, bits, 1, 2);
    assert s[pos..pos + 1] == [s[pos]];
    assert s[pos..pos + 1][1..] == [];
    assert FromBits(s[pos..pos + 1]) == if s[pos] then 1 else 0;
  }

  lemma UpPos(seen: Bytes, io: Io)
    requires io.bits <= 8 * |seen|
    ensures Up8(Pos(seen, io)) == Pos(seen, io) + io.bits % 8
  {
  }

  lemma SmallType(t: nat)
    requires t < Pow2(2)
    ensures t < 4
  {
    Pow2Values();
  }

  lemma TypeRead(st: Regs, lens: seq<nat>, seen: Bytes, io: Io, a: Abs, hist: Bytes, t: nat, st': Regs, io': Io) returns (a': Abs)
    requires Loose(st, lens, seen, io, a, hist) && (st.phase == TYPE || st.phase == TYPEDO) && !st.last && 3 <= io.bits <= 10
    requires t == Low(Shr(io.hold, 1), 2)
    requires st' == st.(last := Low(io.hold, 1) == 1, phase := if t == 0 then STORED else if t == 1 then LEN else if t == 2 then TABLE else BAD)
    requires io' == io.(hold := Shr(Shr(io.hold, 1), 2), bits := io.bits - 3)
    ensures On(st', lens, seen, io', a', hist) && (st'.phase == LEN ==> a'.l == FixedLit() && a'.d == FixedDist())
  {
    hide Reaches, Accum, BytesToBits, Pow2, Low, Shr, Field, Has, FixedLit, FixedDist, Loose;
    LooseParts(st, lens, seen, io, a, hist);
    TypeFields(seen, io.hold, io.bits);
    SmallType(t);
    AccumDrop(seen, io.hold, io.bits, 1);
    AccumDrop(seen, Shr(io.hold, 1), io.bits - 1, 2);
    a' := StepType(BytesToBits(seen), a).a;
    Steps1(st, lens, seen, io, a, hist, st', lens, io', a');
  }

  lemma TypeNeeds(st: Regs, lens: seq<nat>, seen: Bytes, io: Io, a: Abs, hist: Bytes)
    requires Loose(st, lens, seen, io, a, hist) && (st.phase == TYPE || st.phase == TYPEDO)
    ensures Step(BytesToBits(seen), a).Next? <==> st.last || io.bits >= 3
  {
    hide Reaches, Accum, BytesToBits, Field, FixedLit, FixedDist;
    LooseParts(st, lens, seen, io, a, hist);
  }

  // The last block is followed by the next byte boundary.
  lemma LastLeads(st: Regs, lens: seq<nat>, seen: Bytes, io: Io, a: Abs, hist: Bytes) returns (a': Abs)
    requires On(st, lens, seen, io, a, hist) && (st.phase == TYPE || st.phase == TYPEDO) && st.last
    ensures On(st.(phase := CHECK), lens, seen, Drop(io, io.bits % 8), a', hist) && io.bits % 8 == io.bits
  {
    hide Reaches, Accum, BytesToBits, Pow2, Low, Shr, Field, Has, FixedLit, FixedDist, Loose;
    TypeNeeds(st, lens, seen, io, a, hist);
    LeanBits(seen, io.bits, a);
    LooseParts(st, lens, seen, io, a, hist);
    UpPos(seen, io);
    AccumDrop(seen, io.hold, io.bits, io.bits % 8);
    a' := a.(pos := Up8(a.pos), mode := Check);
    Steps1(st, lens, seen, io, a, hist, st.(phase := CHECK), lens, Drop(io, io.bits % 8), a');
  }

  method TypeState(st: Regs, io: Io, ghost lens: seq<nat>, ghost seen: Bytes, ghost a: Abs, ghost hist: Bytes)
    returns (go: bool, st': Regs, io': Io, ghost seen': Bytes, ghost a': Abs)
    requires On(st, lens, seen, io, a, hist) && (st.phase == TYPE || st.phase == TYPEDO)
    ensures On(st', lens, seen', io', a', hist) && Moved(seen, io, seen', io')
    ensures if go then Onward(st, io, st', io') else st' == st && a' == a && io'.next == [] && Step(BytesToBits(seen'), a') == Stuck
    ensures go ==> st'.phase == CHECK || st'.phase == STORED || st'.phase == LEN || st'.phase == TABLE || st'.phase == BAD
    ensures go && st'.phase == LEN ==> a'.l == FixedLit() && a'.d == FixedDist()
  {
    hide Rep, Accum, BytesToBits, Pow2, Low, Shr, Step, FixedLit, FixedDist, Loose;
    LooseParts(st, lens, seen, io, a, hist);
    io', seen', a', st' := io, seen, a, st;
    if st.last {
      a' := LastLeads(st, lens, seen, io, a, hist);
      io', st' := Drop(io, io.bits % 8), st.(phase := CHECK);
      go := true;
      return;
    }
    go, io', seen' := NeedBits(io, 3, seen);
    Waits(st, lens, seen, io, a, hist, seen', io');
    TypeNeeds(st, lens, seen', io', a, hist);
    if !go {
      return;
    }
    if io.bits >= 3 {
      LeanBits(seen, io.bits, a);
    }
    ghost var io1 := io';
    st' := st.(last := Low(io'.hold, 1) == 1);
    io' := Drop(io', 1);
    var t := Low(io'.hold, 2);
    st' := st'.(phase := if t == 0 then STORED else if t == 1 then LEN else if t == 2 then TABLE else BAD);
    io' := Drop(io', 2);
    a' := TypeRead(st, lens, seen', io1, a, hist, t, st', io');
  }

  // ----- STORED and COPY ---------------------------------------------------------------------------------------------

  // BYTEBITS does not move the reader, which is at the byte boundary already.
  lemma ByteBits(st: Regs, lens: seq<nat>, seen: Bytes, io: Io, a: Abs, hist: Bytes)
    requires On(st, lens, seen, io, a, hist) && st.phase == STORED
    ensures io.bits % 8 <= io.bits && On(st, lens, seen, Drop(io, io.bits % 8), a, hist)
    ensures Pos(seen, Drop(io, io.bits % 8)) % 8 == 0
  {
    hide Reaches, Accum, BytesToBits, Step;
    LooseParts(st, lens, seen, io, a, hist);
    UpPos(seen, io);
    AccumDrop(seen, io.hold, io.bits, io.bits % 8);
  }

  lemma StoredNeeds(st: Regs, lens: seq<nat>, seen: Bytes, io: Io, a: Abs, hist: Bytes)
    requires Loose(st, lens, seen, io, a, hist) && st.phase == STORED && Pos(seen, io) % 8 == 0
    ensures Step(BytesToBits(seen), a).Next? <==> io.bits >= 32
  {
    hide Reaches, Accum, BytesToBits, Field;
    LooseParts(st, lens, seen, io, a, hist);
  }

  lemma StoredRead(st: Regs, lens: seq<nat>, seen: Bytes, io: Io, a: Abs, hist: Bytes, st': Regs, io': Io) returns (a': Abs)
    requires Loose(st, lens, seen, io, a, hist) && st.phase == STORED && Pos(seen, io) % 8 == 0 && io.bits == 32
    requires if Low(io.hold, 16) + Shr(io.hold, 16) != 65535 then st' == st.(phase := BAD) && io' == io
             else st' == st.(phase := COPY, length := Low(io.hold, 16)) && io' == io.(hold := 0, bits := 0)
    ensures On(st', lens, seen, io', a', hist)
  {
    hide Reaches, Accum, BytesToBits, Pow2, Low, Shr, Field, Loose;
    LooseParts(st, lens, seen, io, a, hist);
    AccumField(seen, io.hold, io.bits, 16);
    AccumFieldAt(seen, io.hold, io.bits, 16, 16);
    Upper(seen, io.hold, 16, 16);
    AccumDrop(seen, io.hold, io.bits, 32);
    Emptied(seen, Shr(io.hold, 32));
    a' := StepStored(BytesToBits(seen), a).a;
    Steps1(st, lens, seen, io, a, hist, st', lens, io', a');
  }

  lemma Upper(seen: Bytes, hold: nat, a: nat, b: nat)
    requires Accum(seen, hold, a + b)
    ensures Shr(hold, a) < Pow2(b) && Low(Shr(hold, a), b) == Shr(hold, a)
  {
    ShrBelow(hold, a, b);
    LowSmall(Shr(hold, a), b);
  }

  // INITBITS, when nothing is left in the accumulator.
  lemma Emptied(seen: Bytes, hold: nat)
    ensures Accum(seen, hold, 0) ==> hold == 0 && Accum(seen, 0, 0)
  {
  }

  lemma WordsSmall(hold: nat, seen: Bytes)
    requires Accum(seen, hold, 32)
    ensures Low(hold, 16) <= 65535 && Shr(hold, 16) <= 65535
  {
    hide Low, Shr;
    Pow2Values();
    Upper(seen, hold, 16, 16);
  }

  method StoredState(st: Regs, io: Io, ghost lens: seq<nat>, ghost seen: Bytes, ghost a: Abs, ghost hist: Bytes)
    returns (go: bool, st': Regs, io': Io, ghost seen': Bytes, ghost a': Abs)
    requires On(st, lens, seen, io, a, hist) && st.phase == STORED
    ensures On(st', lens, seen', io', a', hist) && Moved(seen, io, seen', io')
    ensures if go then Onward(st, io, st', io') else st' == st && a' == a && io'.next == [] && Step(BytesToBits(seen'), a') == Stuck
    ensures go ==> st'.phase == COPY || st'.phase == BAD
  {
    hide Rep, Accum, BytesToBits, Pow2, Low, Shr, Step, Loose;
    LooseParts(st, lens, seen, io, a, hist);
    ByteBits(st, lens, seen, io, a, hist);
    io', seen', a', st' := Drop(io, io.bits % 8), seen, a, st;
    ghost var io0 := io';
    LooseParts(st, lens, seen, io', a, hist);
    go, io', seen' := NeedBits(io', 32, seen');
    WholeBytes(seen, io0, seen', io');
    Waits(st, lens, seen, io0, a, hist, seen', io');
    StoredNeeds(st, lens, seen', io', a, hist);
    if !go {
      return;
    }
    ghost var io1 := io';
    WordsSmall(io'.hold, seen');
    // the one's complement of the upper half
    if Low(io'.hold, 16) != 65535 - Shr(io'.hold, 16) {
      st' := st.(phase := BAD);
    } else {
      st' := st.(phase := COPY, length := Low(io'.hold, 16));
      io' := io'.(hold := 0, bits := 0);
    }
    a' := StoredRead(st, lens, seen', io1, a, hist, st', io');
  }

  lemma WholeBytes(seen: Bytes, io: Io, seen': Bytes, io': Io)
    requires Pulled(seen, io, seen', io') && Pos(seen, io) % 8 == 0 && io.bits <= 32 && io'.bits <= (if io.bits >= 32 then io.bits else 39)
    ensures io'.bits <= 32 && Pos(seen', io') % 8 == 0
  {
  }

  // Bytes of a stored block are copied as they are.
  lemma {:induction false} CopySteps(seen: Bytes, chunk: Bytes, a: Abs)
    requires a.mode.Copy? && a.pos == 8 * |seen| && |chunk| <= a.mode.left && Reaches(BytesToBits(seen), START, a)
    ensures Reaches(BytesToBits(seen + chunk), START, a.(pos := a.pos + 8 * |chunk|, mode := Copy(a.mode.left - |chunk|), out := a.out + chunk))
    decreases |chunk|
  {
    hide Reaches, BytesToBits;
    if chunk == [] {
      assert seen + chunk == seen && a.out + chunk == a.out;
    } else {
      var c := chunk[0];
      var b := a.(pos := a.pos + 8, mode := Copy(a.mode.left - 1), out := a.out + [c]);
      CopyOne(seen, c, a);
      Stepped(seen, seen + [c], a, b);
      CopySteps(seen + [c], chunk[1..], b);
      assert seen + [c] + chunk[1..] == seen + chunk;
      assert a.out + [c] + chunk[1..] == a.out + chunk;
    }
  }

  lemma ByteField(s: BitString, pos: nat, c: byte)
    requires pos + 8 <= |s| && s[pos..pos + 8] == ToBits(c, 8)
    ensures Field(s, pos, 8) == c
  {
    hide ToBits, FromBits, Pow2, Low;
    FromToBits(c, 8);
    Pow2Values();
    LowSmall(c, 8);
  }

  lemma CopyOne(seen: Bytes, c: byte, a: Abs)
    requires a.mode.Copy? && a.pos == 8 * |seen| && a.mode.left > 0
    ensures Step(BytesToBits(seen + [c]), a) == Next(a.(pos := a.pos + 8, mode := Copy(a.mode.left - 1), out := a.out + [c]))
  {
    hide BytesToBits, ToBits, Field, Step;
    BitOutput.OneByte(seen, c);
    var s := BytesToBits(seen + [c]);
    assert s[a.pos..a.pos + 8] == ToBits(c, 8);
    ByteField(s, a.pos, c);
    ByteStep(s, a, c);
  }

  lemma ByteStep(s: BitString, a: Abs, c: byte)
    requires a.mode.Copy? && a.mode.left > 0 && Has(s, a.pos, 8) && Field(s, a.pos, 8) == c
    ensures Step(s, a) == Next(a.(pos := a.pos + 8, mode := Copy(a.mode.left - 1), out := a.out + [c]))
  {
    hide Field, Pow2;
  }

  lemma EmptyAccum(seen: Bytes)
    ensures Accum(seen, 0, 0)
  {
    hide BytesToBits;
    assert BytesToBits(seen)[8 * |seen|..] == [];
  }

  lemma CopyOn(st: Regs, lens: seq<nat>, seen: Bytes, io: Io, a: Abs, hist: Bytes, n: nat) returns (a': Abs)
    requires On(st, lens, seen, io, a, hist) && st.phase == COPY && n <= st.length && n <= |io.next| && n <= io.left
    ensures On(st.(length := st.length - n), lens, seen + io.next[..n],
               io.(next := io.next[n..], put := io.put + io.next[..n], left := io.left - n), a', hist)
  {
    hide Reaches, BytesToBits, Step;
    var chunk := io.next[..n];
    CopySteps(seen, chunk, a);
    EmptyAccum(seen + chunk);
    a' := a.(pos := a.pos + 8 * n, mode := Copy(st.length - n), out := a.out + chunk);
    assert hist + io.put + chunk == hist + (io.put + chunk);
  }

  lemma CopyNeeds(st: Regs, lens: seq<nat>, seen: Bytes, io: Io, a: Abs, hist: Bytes)
    requires On(st, lens, seen, io, a, hist) && st.phase == COPY && st.length > 0
    ensures Step(BytesToBits(seen), a) == Stuck
  {
    hide Reaches, BytesToBits, Accum;
    LooseParts(st, lens, seen, io, a, hist);
  }

  lemma CopyEnds(st: Regs, lens: seq<nat>, seen: Bytes, io: Io, a: Abs, hist: Bytes) returns (a': Abs)
    requires On(st, lens, seen, io, a, hist) && st.phase == COPY && st.length == 0
    ensures On(st.(phase := TYPE), lens, seen, io, a', hist)
  {
    hide Reaches, Accum, BytesToBits, Loose;
    LooseParts(st, lens, seen, io, a, hist);
    a' := a.(mode := TypeDo);
    Steps1(st, lens, seen, io, a, hist, st.(phase := TYPE), lens, io, a');
  }

  method CopyState(st: Regs, io: Io, ghost lens: seq<nat>, ghost seen: Bytes, ghost a: Abs, ghost hist: Bytes)
    returns (go: bool, st': Regs, io': Io, ghost seen': Bytes, ghost a': Abs)
    requires On(st, lens, seen, io, a, hist) && st.phase == COPY
    ensures On(st', lens, seen', io', a', hist) && Moved(seen, io, seen', io')
    ensures if go then Onward(st, io, st', io') else st' == st && a' == a && ((io'.next == [] && Step(BytesToBits(seen'), a') == Stuck) || io'.left == 0)
    ensures go ==> st'.phase == COPY || st'.phase == TYPE
  {
    hide On;
    io', seen', a', st' := io, seen, a, st;
    var copy := st.length;
    if copy > 0 {
      if copy > |io.next| {
        copy := |io.next|;
      }
      if copy > io.left {
        copy := io.left;
      }
      if copy == 0 {
        CopyNeeds(st, lens, seen, io, a, hist);
        go := false;
        return;
      }
      a' := CopyOn(st, lens, seen, io, a, hist, copy);
      seen' := seen + io.next[..copy];
      io' := io.(next := io.next[copy..], put := io.put + io.next[..copy], left := io.left - copy);
      st' := st.(length := st.length - copy);
      assert seen' + io'.next == seen + io.next;
    } else {
      a' := CopyEnds(st, lens, seen, io, a, hist);
      st' := st.(phase := TYPE);
    }
    go := true;
  }

  // ----- TABLE ---------------------------------------------------------------------------------------------------------

  lemma TableNeeds(st: Regs, lens: seq<nat>, seen: Bytes, io: Io, a: Abs, hist: Bytes)
    requires Loose(st, lens, seen, io, a, hist) && st.phase == TABLE
    ensures Step(BytesToBits(seen), a).Next? <==> io.bits >= 14
  {
    hide Reaches, Accum, BytesToBits, Field;
    LooseParts(st, lens, seen, io, a, hist);
  }

  lemma TableRead(st: Regs, lens: seq<nat>, seen: Bytes, io: Io, a: Abs, hist: Bytes, st': Regs, io': Io) returns (a': Abs)
    requires Loose(st, lens, seen, io, a, hist) && st.phase == TABLE && 14 <= io.bits <= 21 && |lens| >= 19
    requires var nlen, ndist, ncode := Low(io.hold, 5) + 257, Low(Shr(io.hold, 5), 5) + 1, Low(Shr(io.hold, 10), 4) + 4;
             st' == st.(nlen := nlen, ndist := ndist, ncode := ncode, have := if nlen > 286 || ndist > 30 then st.have else 0,
                        phase := if nlen > 286 || ndist > 30 then BAD else LENLENS)
    requires io' == io.(hold := Shr(io.hold, 14), bits := io.bits - 14)
    ensures On(st', lens, seen, io', a', hist)
  {
    hide Reaches, Accum, BytesToBits, Pow2, Low, Shr, Field, Has, Loose;
    LooseParts(st, lens, seen, io, a, hist);
    AccumField(seen, io.hold, io.bits, 5);
    AccumFieldAt(seen, io.hold, io.bits, 5, 5);
    AccumFieldAt(seen, io.hold, io.bits, 10, 4);
    AccumFieldAt(seen, io.hold, io.bits, 0, 14);
    AccumDrop(seen, io.hold, io.bits, 14);
    assert Low(Shr(io.hold, 10), 4) < 16 by { Pow2Values(); }
    a' := StepTable(BytesToBits(seen), a).a;
    Steps1(st, lens, seen, io, a, hist, st', lens, io', a');
  }

  method TableState(st: Regs, io: Io, ghost lens: seq<nat>, ghost seen: Bytes, ghost a: Abs, ghost hist: Bytes)
    returns (go: bool, st': Regs, io': Io, ghost seen': Bytes, ghost a': Abs)
    requires On(st, lens, seen, io, a, hist) && st.phase == TABLE && |lens| >= 19
    ensures On(st', lens, seen', io', a', hist) && Moved(seen, io, seen', io')
    ensures if go then Onward(st, io, st', io') else st' == st && a' == a && io'.next == [] && Step(BytesToBits(seen'), a') == Stuck
    ensures go ==> st'.phase == BAD || st'.phase == LENLENS
  {
    hide Rep, Accum, BytesToBits, Pow2, Low, Shr, Step, Loose;
    LooseParts(st, lens, seen, io, a, hist);
    st', a' := st, a;
    go, io', seen' := NeedBits(io, 14, seen);
    Waits(st, lens, seen, io, a, hist, seen', io');
    TableNeeds(st, lens, seen', io', a, hist);
    if !go {
      return;
    }
    TableNeeds(st, lens, seen, io, a, hist);
    ghost var io1 := io';
    ShrShr(io1.hold, 5, 5);
    ShrShr(io1.hold, 10, 4);
    var nlen := Low(io'.hold, 5) + 257;
    io' := Drop(io', 5);
    var ndist := Low(io'.hold, 5) + 1;
    io' := Drop(io', 5);
    var ncode := Low(io'.hold, 4) + 4;
    io' := Drop(io', 4);
    st' := st.(nlen := nlen, ndist := ndist, ncode := ncode);
    if nlen > 286 || ndist > 30 {
      st' := st'.(phase := BAD);
    } else {
      st' := st'.(have := 0, phase := LENLENS);
    }
    a' := TableRead(st, lens, seen', io1, a, hist, st', io');
  }
}
