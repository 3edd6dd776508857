/** inflate.c: the states that decode the symbols of a block, and the copying of matches out of the
    window and the output. */
module InflateCodes {
  import opened Bits
  import opened Canonical
  import opened InfTreesSpec
  import opened Format
  import opened BitInput
  import opened InflateStates
  import opened RingWindow
  import B = BlockCode

  // Both tables of the block.
  ghost predicate Coders(a: Abs, lt: seq<Entry>, lenbits: nat, dt: seq<Entry>, distbits: nat) {
    && TableFor(LENS, a.l, lt, lenbits) && TableFor(DISTS, a.d, dt, distbits)
    && 1 <= lenbits <= MAX_BITS && 1 <= distbits <= MAX_BITS
  }

  lemma CodersParts(a: Abs, lt: seq<Entry>, lenbits: nat, dt: seq<Entry>, distbits: nat)
    requires Coders(a, lt, lenbits, dt, distbits)
    ensures TableFor(LENS, a.l, lt, lenbits) && TableFor(DISTS, a.d, dt, distbits) && 1 <= lenbits <= MAX_BITS && 1 <= distbits <= MAX_BITS
    ensures |a.l| <= 288 && |a.d| <= 32 && LensOk(a.l) && LensOk(a.d)
  {
    hide Decodes, Acceptable;
  }

  // ----- LEN ---------------------------------------------------------------------------------------------------------

  lemma LenSteps(s: BitString, a: Abs)
    requires a.mode == Len && a.pos <= |s|
    ensures Step(s, a).Next? <==> !DecodeSym(a.l, s[a.pos..]).NeedMore?
  {
    hide DecodeSym, LBASE, LEXT;
  }

  lemma LenStepIs(s: BitString, a: Abs)
    requires a.mode == Len
    ensures Step(s, a) == StepLen(s, a)
  {
    hide StepLen;
  }

  lemma DistStepIs(s: BitString, a: Abs)
    requires a.mode.Dist?
    ensures Step(s, a) == StepDist(s, a)
  {
    hide StepDist;
  }

  lemma LenNeeds(st: Regs, lens: seq<nat>, seen: Bytes, io: Io, a: Abs, hist: Bytes)
    requires Loose(st, lens, seen, io, a, hist) && st.phase == LEN
    ensures io.bits <= 8 * |seen| && (Step(BytesToBits(seen), a).Next? <==> !Ahead(a.l, seen, io).NeedMore?)
  {
    hide Reaches, Accum, BytesToBits, DecodeSym, Step;
    LooseParts(st, lens, seen, io, a, hist);
    LenSteps(BytesToBits(seen), a);
  }

  // What the entry of a literal or length symbol makes of the state.
  function LenNext(st: Regs, e: Entry): Regs {
    var s := st.(length := e.val);
    if e.op == 0 then s.(phase := LIT)
    else if e.op / 32 % 2 == 1 then s.(phase := TYPE)
    else if e.op / 64 % 2 == 1 then s.(phase := BAD)
    else s.(extra := e.op % 16, phase := LENEXT)
  }

  // The entries agree with the format: literals below 256, the end of the block, lengths, and no more.
  lemma LenAction(l: Lens, r: SymResult, e: Entry, n: nat)
    requires |l| <= 288 && LensOk(l) && Verdict(LENS, l, r, Action(e.op, e.val), n)
    ensures n <= MAX_BITS
    ensures match r
            case NeedMore => false
            case BadCode => e.op == 64 && n == 1
            case Sym(s) =>
              && n == l[s]
              && if s < 256 then e.op == 0 && e.val == s
                 else if s == 256 then e.op == 96
                 else if s < 286 then e.op == LEXT[s - 257] && 16 <= e.op <= 21 && e.val == LBASE[s - 257]
                 else e.op / 32 % 2 == 0 && e.op / 64 % 2 == 1
  {
    LextValues();
  }

  lemma LextValues()
    ensures |LEXT| == 31 && |LBASE| == 31 && forall c :: 0 <= c < 29 ==> 16 <= LEXT[c] <= 21
    ensures LEXT[29] == 201 && LEXT[30] == 196
  {
  }

  // The step of the reader that the entry stands for.
  lemma LenOutcome(s: BitString, a: Abs, st: Regs, e: Entry, n: nat) returns (b: Abs)
    requires a.mode == Len && a.pos <= |s| && |a.l| <= 288 && LensOk(a.l)
    requires Verdict(LENS, a.l, DecodeSym(a.l, s[a.pos..]), Action(e.op, e.val), n)
    ensures Step(s, a) == Next(b) && b.pos == a.pos + n && b.out == a.out && b.last == a.last
    ensures match LenNext(st, e).phase
            case LIT => e.val < 256 && b.mode == Lit(e.val) && b.l == a.l && b.d == a.d
            case TYPE => b.mode == TypeDo
            case BAD => b.mode == Bad
            case LENEXT => b.mode == LenExt(e.val, e.op % 16) && e.op % 16 <= 13 && b.l == a.l && b.d == a.d
            case _ => false
  {
    hide DecodeSym, Verdict, LBASE, LEXT, Step;
    LextValues();
    LenAction(a.l, DecodeSym(a.l, s[a.pos..]), e, n);
    LenStepIs(s, a);
    b := StepLen(s, a).a;
  }

  lemma LenRead(st: Regs, lens: seq<nat>, seen: Bytes, io: Io, a: Abs, hist: Bytes, e: Entry, n: nat) returns (a': Abs)
    requires Loose(st, lens, seen, io, a, hist) && st.phase == LEN && |a.l| <= 288 && LensOk(a.l)
    requires Verdict(LENS, a.l, Ahead(a.l, seen, io), Action(e.op, e.val), n) && 1 <= n <= io.bits < n + 8
    ensures On(LenNext(st, e), lens, seen, Drop(io, n), a', hist)
    ensures LenNext(st, e).phase == LIT || LenNext(st, e).phase == LENEXT ==> a'.l == a.l && a'.d == a.d
  {
    hide Reaches, Accum, BytesToBits, DecodeSym, Loose, Verdict, Shr, Step;
    LooseParts(st, lens, seen, io, a, hist);
    AccumDrop(seen, io.hold, io.bits, n);
    a' := LenOutcome(BytesToBits(seen), a, st, e, n);
    Steps1(st, lens, seen, io, a, hist, LenNext(st, e), lens, Drop(io, n), a');
  }

  // The slow form of LEN: one symbol.
  method LenState(lencode: array<Entry>, lenbits: nat, st: Regs, io: Io, ghost lens: seq<nat>, ghost seen: Bytes, ghost a: Abs, ghost hist: Bytes)
    returns (go: bool, st': Regs, io': Io, ghost seen': Bytes, ghost a': Abs)
    requires On(st, lens, seen, io, a, hist) && st.phase == LEN && TableFor(LENS, a.l, lencode[..], lenbits) && 1 <= lenbits <= MAX_BITS
    requires |a.l| <= 288 && LensOk(a.l)
    ensures On(st', lens, seen', io', a', hist) && Moved(seen, io, seen', io') && io'.left == io.left
    ensures if go then Unread(io') < Unread(io) else st' == st && a' == a && io'.next == [] && Step(BytesToBits(seen'), a') == Stuck
    ensures go ==> st'.phase == LIT || st'.phase == TYPE || st'.phase == BAD || st'.phase == LENEXT
    ensures go && (st'.phase == LIT || st'.phase == LENEXT) ==> a'.l == a.l && a'.d == a.d
  {
    hide Rep, Accum, BytesToBits, Step, Loose, TableFor, Verdict, DecodeSym, LensOk, Shr;
    LooseParts(st, lens, seen, io, a, hist);
    var e, drop;
    st', a' := st, a;
    go, e, drop, io', seen' := Decode(LENS, lencode, lenbits, io, a.l, seen);
    Waits(st, lens, seen, io, a, hist, seen', io');
    LenNeeds(st, lens, seen', io', a, hist);
    if !go {
      return;
    }
    assert io' == io ==> seen' == seen;
    if io' == io {
      LeanBits(seen, io.bits, a);
    }
    a' := LenRead(st, lens, seen', io', a, hist, e, drop + e.bits);
    DropTwice(io', drop, e.bits);
    io' := Drop(io', drop);
    io' := Drop(io', e.bits);
    st' := LenNext(st, e);
  }

  // ----- LENEXT --------------------------------------------------------------------------------------------------------

  lemma LenExtNeeds(st: Regs, lens: seq<nat>, seen: Bytes, io: Io, a: Abs, hist: Bytes)
    requires Loose(st, lens, seen, io, a, hist) && st.phase == LENEXT
    ensures st.extra <= 13 && (Step(BytesToBits(seen), a).Next? <==> io.bits >= st.extra)
  {
    hide Reaches, Accum, BytesToBits, Field;
    LooseParts(st, lens, seen, io, a, hist);
  }

  lemma LenExtRead(st: Regs, lens: seq<nat>, seen: Bytes, io: Io, a: Abs, hist: Bytes) returns (a': Abs)
    requires Loose(st, lens, seen, io, a, hist) && st.phase == LENEXT && st.extra <= io.bits < st.extra + 8
    ensures On(st.(length := st.length + Low(io.hold, st.extra), phase := DIST), lens, seen, Drop(io, st.extra), a', hist)
    ensures a'.l == a.l && a'.d == a.d
  {
    hide Reaches, Accum, BytesToBits, Field, Loose, Low, Shr, Pow2;
    LooseParts(st, lens, seen, io, a, hist);
    AccumField(seen, io.hold, io.bits, st.extra);
    AccumDrop(seen, io.hold, io.bits, st.extra);
    a' := StepLenExt(BytesToBits(seen), a).a;
    Steps1(st, lens, seen, io, a, hist, st.(length := st.length + Low(io.hold, st.extra), phase := DIST), lens, Drop(io, st.extra), a');
  }

  lemma NoExtra(io: Io)
    ensures Drop(io, 0) == io && Low(io.hold, 0) == 0
  {
  }

  method LenExtState(st: Regs, io: Io, ghost lens: seq<nat>, ghost seen: Bytes, ghost a: Abs, ghost hist: Bytes)
    returns (go: bool, st': Regs, io': Io, ghost seen': Bytes, ghost a': Abs)
    requires On(st, lens, seen, io, a, hist) && st.phase == LENEXT
    ensures On(st', lens, seen', io', a', hist) && Moved(seen, io, seen', io')
    ensures if go then Onward(st, io, st', io') else st' == st && a' == a && io'.next == [] && Step(BytesToBits(seen'), a') == Stuck
    ensures go ==> st'.phase == DIST && a'.l == a.l && a'.d == a.d
  {
    hide Rep, Accum, BytesToBits, Step, Loose, Shr, Low;
    LooseParts(st, lens, seen, io, a, hist);
    LenExtNeeds(st, lens, seen, io, a, hist);
    st', io', seen', a' := st, io, seen, a;
    go := true;
    NoExtra(io);
    ghost var io1 := io;
    if st.extra > 0 {
      go, io', seen' := NeedBits(io, st.extra, seen);
      Waits(st, lens, seen, io, a, hist, seen', io');
      LenExtNeeds(st, lens, seen', io', a, hist);
      if !go {
        return;
      }
      io1 := io';
      st' := st'.(length := st.length + Low(io'.hold, st.extra));
      io' := Drop(io', st.extra);
    }
    if io.bits >= st.extra {
      LeanBits(seen, io.bits, a);
    }
    a' := LenExtRead(st, lens, seen', io1, a, hist);
    st' := st'.(phase := DIST);
  }

  // ----- DIST ----------------------------------------------------------------------------------------------------------

  lemma DistSteps(s: BitString, a: Abs)
    requires a.mode.Dist? && a.pos <= |s|
    ensures Step(s, a).Next? <==> !DecodeSym(a.d, s[a.pos..]).NeedMore?
  {
    hide DecodeSym, DBASE, DEXT;
  }

  lemma DistNeeds(st: Regs, lens: seq<nat>, seen: Bytes, io: Io, a: Abs, hist: Bytes)
    requires Loose(st, lens, seen, io, a, hist) && st.phase == DIST
    ensures io.bits <= 8 * |seen| && (Step(BytesToBits(seen), a).Next? <==> !Ahead(a.d, seen, io).NeedMore?)
  {
    hide Reaches, Accum, BytesToBits, DecodeSym, Step;
    LooseParts(st, lens, seen, io, a, hist);
    DistSteps(BytesToBits(seen), a);
  }

  function DistNext(st: Regs, e: Entry): Regs {
    if e.op / 64 % 2 == 1 then st.(phase := BAD)
    else st.(offset := e.val, extra := e.op % 16, phase := DISTEXT)
  }

  lemma DextValues()
    ensures |DEXT| == 32 && |DBASE| == 32 && DEXT[30] == 64 && DEXT[31] == 64
    ensures forall c :: 0 <= c < 30 ==> 16 <= DEXT[c] <= 29 && DBASE[c] >= 1
  {
  }

  // No distance symbol reaches further back than the largest window.
  lemma DistReach(c: nat)
    requires c < 30
    ensures |DEXT| == 32 && |DBASE| == 32 && DEXT[c] >= 16 && DBASE[c] + Pow2(DEXT[c] - 16) <= 32769
  {
    hide Pow2;
    DextValues();
    Pow2Values();
  }

  lemma DistAction(d: Lens, r: SymResult, e: Entry, n: nat)
    requires |d| <= 32 && LensOk(d) && Verdict(DISTS, d, r, Action(e.op, e.val), n)
    ensures n <= MAX_BITS
    ensures match r
            case NeedMore => false
            case BadCode => e.op == 64 && n == 1
            case Sym(s) =>
              && n == d[s]
              && if s < 30 then e.op == DEXT[s] && 16 <= e.op <= 29 && e.val == DBASE[s] && e.val + Pow2(e.op % 16) <= 32769
                 else e.op == 64
  {
    hide Pow2;
    DextValues();
    if r.Sym? && r.s < 30 {
      DistReach(r.s);
    }
  }

  lemma DistRead(st: Regs, lens: seq<nat>, seen: Bytes, io: Io, a: Abs, hist: Bytes, e: Entry, n: nat) returns (a': Abs)
    requires Loose(st, lens, seen, io, a, hist) && st.phase == DIST && |a.d| <= 32 && LensOk(a.d)
    requires Verdict(DISTS, a.d, Ahead(a.d, seen, io), Action(e.op, e.val), n) && 1 <= n <= io.bits < n + 8
    ensures On(DistNext(st, e), lens, seen, Drop(io, n), a', hist) && a'.l == a.l && a'.d == a.d
  {
    hide Reaches, Accum, BytesToBits, DecodeSym, Loose, Verdict, Shr, DBASE, DEXT, Pow2, Step;
    LooseParts(st, lens, seen, io, a, hist);
    DextValues();
    DistAction(a.d, Ahead(a.d, seen, io), e, n);
    AccumDrop(seen, io.hold, io.bits, n);
    DistStepIs(BytesToBits(seen), a);
    a' := StepDist(BytesToBits(seen), a).a;
    Steps1(st, lens, seen, io, a, hist, DistNext(st, e), lens, Drop(io, n), a');
  }

  method DistState(distcode: array<Entry>, distbits: nat, st: Regs, io: Io, ghost lens: seq<nat>, ghost seen: Bytes, ghost a: Abs, ghost hist: Bytes)
    returns (go: bool, st': Regs, io': Io, ghost seen': Bytes, ghost a': Abs)
    requires On(st, lens, seen, io, a, hist) && st.phase == DIST && TableFor(DISTS, a.d, distcode[..], distbits) && 1 <= distbits <= MAX_BITS
    requires |a.d| <= 32 && LensOk(a.d)
    ensures On(st', lens, seen', io', a', hist) && Moved(seen, io, seen', io')
    ensures if go then Unread(io') < Unread(io) else st' == st && a' == a && io'.next == [] && Step(BytesToBits(seen'), a') == Stuck
    ensures go ==> st'.phase == DISTEXT || st'.phase == BAD
    ensures a'.l == a.l && a'.d == a.d
  {
    hide Rep, Accum, BytesToBits, Step, Loose, TableFor, Verdict, DecodeSym, LensOk, Shr;
    LooseParts(st, lens, seen, io, a, hist);
    var e, drop;
    st', a' := st, a;
    go, e, drop, io', seen' := Decode(DISTS, distcode, distbits, io, a.d, seen);
    Waits(st, lens, seen, io, a, hist, seen', io');
    DistNeeds(st, lens, seen', io', a, hist);
    if !go {
      return;
    }
    assert io' == io ==> seen' == seen;
    if io' == io {
      LeanBits(seen, io.bits, a);
    }
    a' := DistRead(st, lens, seen', io', a, hist, e, drop + e.bits);
    DropTwice(io', drop, e.bits);
    io' := Drop(io', drop);
    io' := Drop(io', e.bits);
    st' := DistNext(st, e);
  }

  // ----- DISTEXT -------------------------------------------------------------------------------------------------------

  lemma DistExtNeeds(st: Regs, lens: seq<nat>, seen: Bytes, io: Io, a: Abs, hist: Bytes)
    requires Loose(st, lens, seen, io, a, hist) && st.phase == DISTEXT
    ensures st.extra <= 13 && (Step(BytesToBits(seen), a).Next? <==> io.bits >= st.extra)
  {
    hide Reaches, Accum, BytesToBits, Field, Pow2;
    LooseParts(st, lens, seen, io, a, hist);
  }

  // The window is large enough for every distance, so the test of the source is the test of the format.
  lemma TooFar(window: Bytes, ring: Ring, hist: Bytes, put: Bytes, offset: nat)
    requires RingOk(window, ring, hist) && offset <= 32768
    ensures offset > ring.whave + |put| <==> offset > |hist + put|
  {
    RingSize(window, ring, hist);
  }

  lemma DistExtRead(st: Regs, lens: seq<nat>, seen: Bytes, io: Io, a: Abs, hist: Bytes, window: Bytes, ring: Ring, st': Regs) returns (a': Abs)
    requires Loose(st, lens, seen, io, a, hist) && st.phase == DISTEXT && st.extra <= io.bits < st.extra + 8
    requires RingOk(window, ring, hist)
    requires var offset := st.offset + Low(io.hold, st.extra);
             st' == st.(offset := offset, phase := if offset > ring.whave + |io.put| then BAD else MATCH)
    ensures On(st', lens, seen, Drop(io, st.extra), a', hist) && a'.l == a.l && a'.d == a.d
  {
    hide Reaches, Accum, BytesToBits, Field, Loose, Low, Shr, Pow2, RingOk;
    LooseParts(st, lens, seen, io, a, hist);
    TooFar(window, ring, hist, io.put, st'.offset);
    AccumField(seen, io.hold, io.bits, st.extra);
    AccumDrop(seen, io.hold, io.bits, st.extra);
    a' := StepDistExt(BytesToBits(seen), a).a;
    Steps1(st, lens, seen, io, a, hist, st', lens, Drop(io, st.extra), a');
  }

  method DistExtState(ring: Ring, st: Regs, io: Io, ghost window: Bytes, ghost lens: seq<nat>, ghost seen: Bytes, ghost a: Abs, ghost hist: Bytes)
    returns (go: bool, st': Regs, io': Io, ghost seen': Bytes, ghost a': Abs)
    requires On(st, lens, seen, io, a, hist) && st.phase == DISTEXT && RingOk(window, ring, hist)
    ensures On(st', lens, seen', io', a', hist) && Moved(seen, io, seen', io')
    ensures if go then Onward(st, io, st', io') else st' == st && a' == a && io'.next == [] && Step(BytesToBits(seen'), a') == Stuck
    ensures go ==> (st'.phase == MATCH || st'.phase == BAD) && a'.l == a.l && a'.d == a.d
  {
    hide Rep, Accum, BytesToBits, Step, Loose, Shr, Low, RingOk;
    LooseParts(st, lens, seen, io, a, hist);
    DistExtNeeds(st, lens, seen, io, a, hist);
    st', io', seen', a' := st, io, seen, a;
    go := true;
    NoExtra(io);
    ghost var io1 := io;
    if st.extra > 0 {
      go, io', seen' := NeedBits(io, st.extra, seen);
      Waits(st, lens, seen, io, a, hist, seen', io');
      DistExtNeeds(st, lens, seen', io', a, hist);
      if !go {
        return;
      }
      io1 := io';
      st' := st'.(offset := st.offset + Low(io'.hold, st.extra));
      io' := Drop(io', st.extra);
    }
    if io.bits >= st.extra {
      LeanBits(seen, io.bits, a);
    }
    st' := st'.(phase := if st'.offset > ring.whave + |io'.put| then BAD else MATCH);
    a' := DistExtRead(st, lens, seen', io1, a, hist, window, ring, st');
  }

  // ----- MATCH ---------------------------------------------------------------------------------------------------------

  // Part of a match: n more bytes, each the one `offset` places back.
  lemma {:induction false} MatchSome(s: BitString, a: Abs, n: nat)
    requires a.mode.Match? && 1 <= n <= a.mode.length && 1 <= a.mode.offset <= |a.out|
    ensures var m := a.mode;
            Reaches(s, a, a.(mode := if n == m.length then Len else Match(m.length - n, m.offset), out := B.CopyFrom(a.out, m.offset, n)))
    decreases n
  {
    hide Reaches;
    var m := a.mode;
    var b := a.(out := a.out + [a.out[|a.out| - m.offset]], mode := if m.length == 1 then Len else Match(m.length - 1, m.offset));
    assert Step(s, a) == Next(b);
    ReachesStep(s, a, b);
    if n > 1 {
      MatchSome(s, b, n - 1);
      ReachesTrans(s, a, b, b.(mode := if n == m.length then Len else Match(m.length - n, m.offset), out := B.CopyFrom(b.out, m.offset, n - 1)));
    } else {
      assert B.CopyFrom(a.out, m.offset, 1) == B.CopyFrom(b.out, m.offset, 0) == b.out;
    }
  }

  // A copy out of the window: contiguous bytes from index `from`.
  method CopyWindow(window: array<byte>, from: nat, n: nat, put: Bytes, ghost ring: Ring, ghost hist: Bytes, ghost offset: nat)
    returns (put': Bytes)
    requires RingOk(window[..], ring, hist) && |put| < offset <= |hist + put| && offset - |put| <= |LastOf(hist)|
    requires var d := offset - |put|;
             if d > ring.write then from == ring.wsize - (d - ring.write) && n <= d - ring.write && ring.wsize == WSIZE else from == ring.write - d && n <= d
    ensures hist + put' == B.CopyFrom(hist + put, offset, n) && put <= put' && |put'| == |put| + n
  {
    hide RingOk, B.CopyFrom;
    RingShape(window[..], ring, hist);
    put' := put;
    var i: nat := 0;
    ghost var d := offset - |put|;
    while i < n
      invariant i <= n && put <= put' && |put'| == |put| + i && offset <= |hist + put'|
      invariant B.CopyFrom(hist + put', offset, n - i) == B.CopyFrom(hist + put, offset, n)
    {
      RingByte(window[..], ring, hist, d - i);
      OneMore(hist, put', offset, n - i);
      put' := put' + [window[from + i]];
      i := i + 1;
    }
    CopyNothing(hist + put', offset);
  }

  lemma CopyNothing(out: Bytes, offset: nat)
    requires 1 <= offset <= |out|
    ensures B.CopyFrom(out, offset, 0) == out
  {
  }

  lemma OneMore(hist: Bytes, put: Bytes, offset: nat, n: nat)
    requires 1 <= offset <= |hist + put| && n >= 1
    ensures var c := (hist + put)[|hist + put| - offset];
            B.CopyFrom(hist + put, offset, n) == B.CopyFrom(hist + (put + [c]), offset, n - 1)
  {
    var c := (hist + put)[|hist + put| - offset];
    assert hist + put + [c] == hist + (put + [c]);
  }

  // A copy within the output of this call; the two stretches may overlap.
  method CopyOutput(put: Bytes, offset: nat, n: nat, ghost hist: Bytes) returns (put': Bytes)
    requires 1 <= offset <= |put|
    ensures hist + put' == B.CopyFrom(hist + put, offset, n) && put <= put' && |put'| == |put| + n
  {
    hide B.CopyFrom;
    put' := put;
    var from, i: nat := |put| - offset, 0;
    while i < n
      invariant i <= n && put <= put' && |put'| == |put| + i && from == |put'| - offset
      invariant B.CopyFrom(hist + put', offset, n - i) == B.CopyFrom(hist + put, offset, n)
    {
      OneMore(hist, put', offset, n - i);
      put' := put' + [put'[from]];
      from := from + 1;
      i := i + 1;
    }
    CopyNothing(hist + put', offset);
  }

  lemma MatchOn(st: Regs, lens: seq<nat>, seen: Bytes, io: Io, a: Abs, hist: Bytes, n: nat, put': Bytes) returns (a': Abs)
    requires On(st, lens, seen, io, a, hist) && st.phase == MATCH && 1 <= n <= st.length && n <= io.left
    requires 1 <= st.offset <= |hist + io.put| && hist + put' == B.CopyFrom(hist + io.put, st.offset, n)
    ensures On(st.(length := st.length - n, phase := if n == st.length then LEN else MATCH), lens, seen, io.(put := put', left := io.left - n), a', hist)
    ensures a'.l == a.l && a'.d == a.d
  {
    hide Reaches, Accum, BytesToBits, B.CopyFrom;
    MatchSome(BytesToBits(seen), a, n);
    a' := a.(mode := if n == st.length then Len else Match(st.length - n, st.offset), out := B.CopyFrom(a.out, st.offset, n));
    ReachesTrans(BytesToBits(seen), START, a, a');
  }

  lemma MatchBits(st: Regs, lens: seq<nat>, seen: Bytes, io: Io, a: Abs, hist: Bytes)
    requires On(st, lens, seen, io, a, hist) && st.phase == MATCH
    ensures st.length >= 1 && 1 <= st.offset <= |hist + io.put| && st.offset <= 32768
  {
    hide Reaches, Accum, BytesToBits, Usable;
    SaneNow(st, lens, seen, io, a, hist);
  }

  // How far back the window must reach.
  lemma MatchReach(st: Regs, lens: seq<nat>, seen: Bytes, io: Io, a: Abs, hist: Bytes, window: Bytes, ring: Ring)
    requires On(st, lens, seen, io, a, hist) && st.phase == MATCH && RingOk(window, ring, hist)
    ensures st.length >= 1 && 1 <= st.offset <= |hist + io.put|
    ensures st.offset > |io.put| ==> st.offset - |io.put| <= |LastOf(hist)| && (st.offset - |io.put| > ring.write ==> ring.wsize == WSIZE)
  {
    hide On, RingOk;
    MatchBits(st, lens, seen, io, a, hist);
    if st.offset > |io.put| {
      RingByte(window, ring, hist, st.offset - |io.put|);
    }
  }

  method MatchState(window: array<byte>, ring: Ring, st: Regs, io: Io, ghost lens: seq<nat>, ghost seen: Bytes, ghost a: Abs, ghost hist: Bytes)
    returns (go: bool, st': Regs, io': Io, ghost a': Abs)
    requires On(st, lens, seen, io, a, hist) && st.phase == MATCH && RingOk(window[..], ring, hist)
    ensures On(st', lens, seen, io', a', hist) && Moved(seen, io, seen, io')
    ensures if go then Onward(st, io, st', io') else st' == st && a' == a && io'.left == 0
    ensures go ==> (st'.phase == LEN || st'.phase == MATCH) && a'.l == a.l && a'.d == a.d && st'.offset == st.offset
  {
    hide On, RingOk, B.CopyFrom;
    st', io', a' := st, io, a;
    if io.left == 0 {
      go := false;
      return;
    }
    MatchReach(st, lens, seen, io, a, hist, window[..], ring);
    RingShape(window[..], ring, hist);
    var copy, put' := |io.put|, [];
    if st.offset > copy {
      copy := st.offset - copy;
      var from;
      if copy > ring.write {
        copy := copy - ring.write;
        from := ring.wsize - copy;
      } else {
        from := ring.write - copy;
      }
      if copy > st.length {
        copy := st.length;
      }
      if copy > io.left {
        copy := io.left;
      }
      put' := CopyWindow(window, from, copy, io.put, ring, hist, st.offset);
    } else {
      copy := st.length;
      if copy > io.left {
        copy := io.left;
      }
      put' := CopyOutput(io.put, st.offset, copy, hist);
    }
    a' := MatchOn(st, lens, seen, io, a, hist, copy, put');
    io' := io.(put := put', left := io.left - copy);
    st' := st.(length := st.length - copy);
    if st'.length == 0 {
      st' := st'.(phase := LEN);
    }
    go := true;
  }

  // ----- LIT and CHECK -----------------------------------------------------------------------------------------------

  lemma LitOn(st: Regs, lens: seq<nat>, seen: Bytes, io: Io, a: Abs, hist: Bytes) returns (a': Abs)
    requires On(st, lens, seen, io, a, hist) && st.phase == LIT && io.left > 0
    ensures st.length < 256 && On(st.(phase := LEN), lens, seen, io.(put := io.put + [st.length], left := io.left - 1), a', hist)
    ensures a'.l == a.l && a'.d == a.d
  {
    hide Reaches, Accum, BytesToBits;
    a' := a.(mode := Len, out := a.out + [st.length]);
    assert hist + io.put + [st.length] == hist + (io.put + [st.length]);
    ReachesStep(BytesToBits(seen), a, a');
    ReachesTrans(BytesToBits(seen), START, a, a');
  }

  method LitState(st: Regs, io: Io, ghost lens: seq<nat>, ghost seen: Bytes, ghost a: Abs, ghost hist: Bytes)
    returns (go: bool, st': Regs, io': Io, ghost a': Abs)
    requires On(st, lens, seen, io, a, hist) && st.phase == LIT
    ensures On(st', lens, seen, io', a', hist) && Moved(seen, io, seen, io')
    ensures if go then Onward(st, io, st', io') else st' == st && a' == a && io'.left == 0
    ensures go ==> st'.phase == LEN && a'.l == a.l && a'.d == a.d
  {
    hide On;
    st', io', a' := st, io, a;
    if io.left == 0 {
      go := false;
      return;
    }
    a' := LitOn(st, lens, seen, io, a, hist);
    io' := io.(put := io.put + [st.length], left := io.left - 1);
    st' := st.(phase := LEN);
    go := true;
  }

  lemma CheckOn(st: Regs, lens: seq<nat>, seen: Bytes, io: Io, a: Abs, hist: Bytes)
    requires On(st, lens, seen, io, a, hist) && st.phase == CHECK
    ensures On(st.(phase := DONE), lens, seen, io, a, hist)
  {
    hide Reaches, Accum, BytesToBits;
  }
}
