/** inflate.c: `inflate` for raw streams and a window of 32K, over any run of calls with any amount of
    input and room for output. */
module Inflate {
  import opened Bits
  import opened Canonical
  import opened InfTreesSpec
  import opened Format
  import opened BitInput
  import opened InflateStates
  import opened InflateHeader
  import opened InflateCodes
  import opened RingWindow
  import F = InflateFast
  import R = TableRoom
  import T = InflateTable

  const Z_OK := 0
  const Z_STREAM_END := 1
  const Z_DATA_ERROR := -3
  const Z_BUF_ERROR := -5

  const Z_FINISH := 4

  // The modes of the source before CHECK.
  predicate Early(p: Phase) {
    p != CHECK && p != DONE && p != BAD
  }

  predicate Coding(p: Phase) {
    p == LEN || p == LENEXT || p == DIST || p == DISTEXT || p == MATCH || p == LIT
  }

  // The tables that the current state uses are those of the codes being read.
  ghost predicate TabsOk(p: Phase, a: Abs, lt: seq<Entry>, lenbits: nat, dt: seq<Entry>, distbits: nat) {
    && (p == CODELENS ==>
          && a.mode.CodeLens? && TableFor(CODES, a.mode.cl, lt, lenbits) && lenbits >= 1
          && forall s :: Coded(a.mode.cl, s) ==> a.mode.cl[s] <= lenbits)
    && (Coding(p) ==> Coders(a, lt, lenbits, dt, distbits))
  }

  // The decoder is where the format's reader gets to with the input so far.
  ghost predicate Decoded(st: Regs, lens: seq<nat>, seen: Bytes, hold: nat, bits: nat, a: Abs, hist: Bytes) {
    On(st, lens, seen, Io(hold, bits, [], [], 0), a, hist)
  }

  lemma Enters(st: Regs, lens: seq<nat>, seen: Bytes, hold: nat, bits: nat, a: Abs, hist: Bytes, next: Bytes, left: nat)
    requires Decoded(st, lens, seen, hold, bits, a, hist)
    ensures On(st, lens, seen, Io(hold, bits, next, [], left), a, hist)
  {
    hide Reaches, Accum, BytesToBits, Step, Rep;
    assert hist + [] == hist;
  }

  lemma Leaves(st: Regs, lens: seq<nat>, seen: Bytes, io: Io, a: Abs, hist: Bytes)
    requires On(st, lens, seen, io, a, hist)
    ensures Decoded(st, lens, seen, io.hold, io.bits, a, hist + io.put)
  {
    hide Reaches, Accum, BytesToBits, Step, Rep;
    assert hist + io.put + [] == hist + io.put;
  }

  // TYPE on entry: the check for Z_BLOCK is skipped.
  lemma SkipsCheck(st: Regs, lens: seq<nat>, seen: Bytes, io: Io, a: Abs, hist: Bytes)
    requires On(st, lens, seen, io, a, hist) && st.phase == TYPE
    ensures On(st.(phase := TYPEDO), lens, seen, io, a, hist)
  {
    hide Reaches, Accum, BytesToBits, Step;
  }

  // A phase without tables.
  lemma NoTabs(p: Phase, a: Abs, lt: seq<Entry>, lenbits: nat, dt: seq<Entry>, distbits: nat)
    requires p != CODELENS && !Coding(p)
    ensures TabsOk(p, a, lt, lenbits, dt, distbits)
  {
    hide TableFor;
  }

  lemma TabsParts(p: Phase, a: Abs, lt: seq<Entry>, lenbits: nat, dt: seq<Entry>, distbits: nat)
    requires TabsOk(p, a, lt, lenbits, dt, distbits)
    ensures Coding(p) ==> Coders(a, lt, lenbits, dt, distbits)
    ensures p == CODELENS ==> a.mode.CodeLens? && TableFor(CODES, a.mode.cl, lt, lenbits) && lenbits >= 1
    ensures p == CODELENS ==> forall s :: Coded(a.mode.cl, s) ==> a.mode.cl[s] <= lenbits
  {
    hide TableFor, Coders;
  }

  lemma CodersTabs(p: Phase, a: Abs, lt: seq<Entry>, lenbits: nat, dt: seq<Entry>, distbits: nat)
    requires p != CODELENS && Coders(a, lt, lenbits, dt, distbits)
    ensures TabsOk(p, a, lt, lenbits, dt, distbits)
  {
    hide TableFor, Coders;
  }

  lemma OneTable(a: Abs, lt: seq<Entry>, lenbits: nat, dt: seq<Entry>, distbits: nat, dt': seq<Entry>)
    requires TabsOk(CODELENS, a, lt, lenbits, dt, distbits)
    ensures TabsOk(CODELENS, a, lt, lenbits, dt', distbits)
  {
    hide TableFor;
  }

  // A call may stop only for want of input that is really needed, or for want of room.
  ghost predicate Halted(seen: Bytes, io: Io, a: Abs) {
    (io.next == [] && Step(BytesToBits(seen), a) == Stuck) || io.left == 0
  }

  // What a turn of the loop promises.
  ghost predicate Turned(go: bool, st: Regs, seen: Bytes, io: Io, st': Regs, seen': Bytes, io': Io, a': Abs) {
    Moved(seen, io, seen', io') && if go then Onward(st, io, st', io') else st'.phase == st.phase && Halted(seen', io', a')
  }

  // The states that need no tables.
  method TurnPlain(st: Regs, io: Io, ghost lens: seq<nat>, ghost seen: Bytes, ghost a: Abs, ghost hist: Bytes)
    returns (go: bool, st': Regs, io': Io, ghost seen': Bytes, ghost a': Abs)
    requires On(st, lens, seen, io, a, hist) && |lens| == 320
    requires st.phase == TYPE || st.phase == TYPEDO || st.phase == STORED || st.phase == COPY || st.phase == TABLE
    ensures On(st', lens, seen', io', a', hist) && Turned(go, st, seen, io, st', seen', io', a')
    ensures st'.phase != CODELENS && (Coding(st'.phase) ==> st'.phase == LEN && a'.l == FixedLit() && a'.d == FixedDist())
  {
    hide On, Moved, Onward, Step, FixedLit, FixedDist, BytesToBits;
    match st.phase {
      case STORED => go, st', io', seen', a' := StoredState(st, io, lens, seen, a, hist);
      case COPY => go, st', io', seen', a' := CopyState(st, io, lens, seen, a, hist);
      case TABLE => go, st', io', seen', a' := TableState(st, io, lens, seen, a, hist);
      case _ => go, st', io', seen', a' := TypeState(st, io, lens, seen, a, hist);
    }
  }

  // The states that use both tables of a block.
  method TurnCoding(lencode: array<Entry>, lenbits: nat, distcode: array<Entry>, distbits: nat, window: array<byte>, ring: Ring, st: Regs, io: Io,
      ghost lens: seq<nat>, ghost seen: Bytes, ghost a: Abs, ghost hist: Bytes)
    returns (go: bool, st': Regs, io': Io, ghost seen': Bytes, ghost a': Abs)
    requires On(st, lens, seen, io, a, hist) && Coding(st.phase) && RingOk(window[..], ring, hist)
    requires Coders(a, lencode[..], lenbits, distcode[..], distbits)
    ensures On(st', lens, seen', io', a', hist) && Turned(go, st, seen, io, st', seen', io', a')
    ensures st'.phase != CODELENS && (Coding(st'.phase) ==> Coders(a', lencode[..], lenbits, distcode[..], distbits))
  {
    hide On, Moved, Step, BytesToBits, Coders, RingOk, TableFor, LensOk;
    CodersParts(a, lencode[..], lenbits, distcode[..], distbits);
    seen' := seen;
    match st.phase {
      case LEN =>
        if |io.next| >= 6 && io.left >= 258 {
          var p;
          p, io', seen', a' := F.Fast(lencode, lenbits, distcode, distbits, window, ring, io, st, lens, seen, a, hist);
          go, st' := true, st.(phase := p);
        } else {
          go, st', io', seen', a' := LenState(lencode, lenbits, st, io, lens, seen, a, hist);
        }
      case LENEXT => go, st', io', seen', a' := LenExtState(st, io, lens, seen, a, hist);
      case DIST => go, st', io', seen', a' := DistState(distcode, distbits, st, io, lens, seen, a, hist);
      case DISTEXT => go, st', io', seen', a' := DistExtState(ring, st, io, window[..], lens, seen, a, hist);
      case MATCH => go, st', io', a' := MatchState(window, ring, st, io, lens, seen, a, hist);
      case LIT => go, st', io', a' := LitState(st, io, lens, seen, a, hist);
    }
    if Coding(st'.phase) {
      F.CodersSame(a, a', lencode[..], lenbits, distcode[..], distbits);
    }
  }

  // ----- the loop ------------------------------------------------------------------------------------------------------

  // One turn for the states of a dynamic block's header.
  method TurnHeader(lens: array<nat>, work: array<nat>, codes: array<Entry>, dcodes: array<Entry>, lenbits: nat, distbits: nat, st: Regs, io: Io,
      ghost seen: Bytes, ghost a: Abs, ghost hist: Bytes, ghost dt: seq<Entry>)
    returns (go: bool, st': Regs, io': Io, lenbits': nat, distbits': nat, ghost seen': Bytes, ghost a': Abs)
    requires On(st, lens[..], seen, io, a, hist) && (st.phase == LENLENS || st.phase == CODELENS)
    requires lens.Length == 320 && work.Length >= 288 && lens != work && codes != dcodes
    requires codes.Length >= R.Space(LENS, 9) && codes.Length >= R.Space(CODES, 7) && dcodes.Length >= R.Space(DISTS, 6)
    requires st.phase == CODELENS ==> TabsOk(CODELENS, a, codes[..], lenbits, dt, distbits)
    modifies lens, work, codes, dcodes
    ensures On(st', lens[..], seen', io', a', hist) && Turned(go, st, seen, io, st', seen', io', a')
    ensures st'.phase == LENLENS || st'.phase == CODELENS || st'.phase == LEN || st'.phase == BAD
    ensures st'.phase != LENLENS && st'.phase != BAD ==> TabsOk(st'.phase, a', codes[..], lenbits', dcodes[..], distbits')
  {
    hide On, Moved, Onward, Step, BytesToBits, TableFor, R.Space;
    distbits' := distbits;
    if st.phase == LENLENS {
      assert st.have <= st.ncode <= 19 by { LenLensShape(st, lens[..], seen, io, a, hist); }
      go, st', io', lenbits', seen', a' := LenLensState(lens, codes, work, st, io, lenbits, seen, a, hist);
    } else {
      TabsParts(CODELENS, a, codes[..], lenbits, dt, distbits);
      go, st', io', lenbits', distbits', seen', a' := CodeLensState(lens, codes, dcodes, work, st, io, lenbits, distbits, seen, a, hist);
    }
  }

  lemma LenLensShape(st: Regs, lens: seq<nat>, seen: Bytes, io: Io, a: Abs, hist: Bytes)
    requires On(st, lens, seen, io, a, hist) && st.phase == LENLENS
    ensures st.have <= st.ncode <= 19
  {
    hide Reaches, Accum, BytesToBits, Step;
  }

  // The tables of the fixed codes.
  ghost predicate FixedOk(lt: seq<Entry>, lenbits: nat, dt: seq<Entry>, distbits: nat) {
    && TableFor(LENS, FixedLit(), lt, lenbits) && TableFor(DISTS, FixedDist(), dt, distbits)
    && 1 <= lenbits <= MAX_BITS && 1 <= distbits <= MAX_BITS
  }

  lemma FixedCoders(a: Abs, lt: seq<Entry>, lenbits: nat, dt: seq<Entry>, distbits: nat)
    requires FixedOk(lt, lenbits, dt, distbits) && a.l == FixedLit() && a.d == FixedDist()
    ensures TabsOk(LEN, a, lt, lenbits, dt, distbits)
  {
    hide TableFor, FixedLit, FixedDist;
  }

  // The result of a run of turns.
  ghost predicate Ended(ret: int, p: Phase, seen: Bytes, io: Io, a: Abs) {
    if p == DONE then ret == Z_STREAM_END
    else if p == BAD then ret == Z_DATA_ERROR
    else ret == Z_OK && p != CHECK && Halted(seen, io, a)
  }

  // The arrays of the decoder: scratch space, the tables of dynamic blocks, and those of the fixed codes.
  datatype Store = Store(lens: array<nat>, work: array<nat>, codes: array<Entry>, dcodes: array<Entry>, lenfix: array<Entry>, distfix: array<Entry>,
                         fixbits: nat, dfixbits: nat)

  ghost predicate Shaped(m: Store) {
    && m.lens.Length == 320 && m.work.Length >= 288 && m.lens != m.work && m.codes != m.dcodes
    && m.codes.Length >= R.Space(LENS, 9) && m.codes.Length >= R.Space(CODES, 7) && m.dcodes.Length >= R.Space(DISTS, 6)
    && m.codes != m.lenfix && m.codes != m.distfix && m.dcodes != m.lenfix && m.dcodes != m.distfix
  }

  // The tables in use are those of the last dynamic block, or the fixed ones, and they fit the state.
  ghost predicate Tabled(m: Store, p: Phase, a: Abs, t: Tab)
    reads t.lencode, t.distcode, m.lenfix, m.distfix
  {
    && TabsOk(p, a, t.lencode[..], t.lenbits, t.distcode[..], t.distbits)
    && FixedOk(m.lenfix[..], m.fixbits, m.distfix[..], m.dfixbits)
    && (t.lencode == m.codes || t.lencode == m.lenfix) && (t.distcode == m.dcodes || t.distcode == m.distfix)
    && (p == CODELENS ==> t.lencode == m.codes)
  }

  datatype Tab = Tab(lencode: array<Entry>, lenbits: nat, distcode: array<Entry>, distbits: nat)

  method TurnTables(m: Store, t: Tab, st: Regs, io: Io, ghost seen: Bytes, ghost a: Abs, ghost hist: Bytes)
    returns (go: bool, st': Regs, io': Io, t': Tab, ghost seen': Bytes, ghost a': Abs)
    requires On(st, m.lens[..], seen, io, a, hist) && (st.phase == LENLENS || st.phase == CODELENS)
    requires Shaped(m) && Tabled(m, st.phase, a, t)
    modifies m.lens, m.work, m.codes, m.dcodes
    ensures On(st', m.lens[..], seen', io', a', hist) && Turned(go, st, seen, io, st', seen', io', a') && Tabled(m, st'.phase, a', t')
    ensures Early(st'.phase) ==> Early(st.phase)
  {
    hide On, Moved, Onward, Step, BytesToBits, TableFor, R.Space, TabsOk, FixedOk, Halted;
    var lenbits', distbits';
    go, st', io', lenbits', distbits', seen', a' :=
      TurnHeader(m.lens, m.work, m.codes, m.dcodes, t.lenbits, t.distbits, st, io, seen, a, hist, t.distcode[..]);
    t' := Tab(m.codes, lenbits', if st'.phase == LEN then m.dcodes else t.distcode, distbits');
    if st'.phase == CODELENS {
      OneTable(a', m.codes[..], lenbits', m.dcodes[..], distbits', t'.distcode[..]);
    } else if st'.phase != LEN {
      NoTabs(st'.phase, a', t'.lencode[..], t'.lenbits, t'.distcode[..], t'.distbits);
    }
  }

  method TurnBlock(m: Store, t: Tab, window: array<byte>, ring: Ring, st: Regs, io: Io, ghost seen: Bytes, ghost a: Abs, ghost hist: Bytes)
    returns (go: bool, st': Regs, io': Io, t': Tab, ghost seen': Bytes, ghost a': Abs)
    requires On(st, m.lens[..], seen, io, a, hist) && Early(st.phase) && st.phase != LENLENS && st.phase != CODELENS
    requires Shaped(m) && Tabled(m, st.phase, a, t) && RingOk(window[..], ring, hist)
    ensures On(st', m.lens[..], seen', io', a', hist) && Turned(go, st, seen, io, st', seen', io', a') && Tabled(m, st'.phase, a', t')
  {
    hide On, Moved, Onward, Step, BytesToBits, TableFor, R.Space, TabsOk, FixedOk, Halted, Coders, RingOk, FixedLit, FixedDist;
    t' := t;
    if Coding(st.phase) {
      TabsParts(st.phase, a, t.lencode[..], t.lenbits, t.distcode[..], t.distbits);
      go, st', io', seen', a' := TurnCoding(t.lencode, t.lenbits, t.distcode, t.distbits, window, ring, st, io, m.lens[..], seen, a, hist);
      if Coding(st'.phase) {
        CodersTabs(st'.phase, a', t.lencode[..], t.lenbits, t.distcode[..], t.distbits);
      }
    } else {
      go, st', io', seen', a' := TurnPlain(st, io, m.lens[..], seen, a, hist);
      if st'.phase == LEN {
        t' := Tab(m.lenfix, m.fixbits, m.distfix, m.dfixbits);
        FixedCoders(a', m.lenfix[..], m.fixbits, m.distfix[..], m.dfixbits);
      }
    }
    if !Coding(st'.phase) {
      NoTabs(st'.phase, a', t.lencode[..], t.lenbits, t.distcode[..], t.distbits);
    }
  }

  // The body of inflate between LOAD() and inf_leave, without the fall-through from one case to the next.
  method Loop(m: Store, t: Tab, window: array<byte>, ring: Ring, st: Regs, io: Io, ghost seen: Bytes, ghost a: Abs, ghost hist: Bytes)
    returns (ret: int, st': Regs, io': Io, t': Tab, ghost seen': Bytes, ghost a': Abs)
    requires On(st, m.lens[..], seen, io, a, hist) && Shaped(m) && Tabled(m, st.phase, a, t)
    requires Early(st.phase) ==> RingOk(window[..], ring, hist)
    modifies m.lens, m.work, m.codes, m.dcodes
    ensures On(st', m.lens[..], seen', io', a', hist) && Moved(seen, io, seen', io') && Ended(ret, st'.phase, seen', io', a')
    ensures Tabled(m, st'.phase, a', t') && (Early(st'.phase) ==> Early(st.phase))
  {
    hide On, Moved, Step, BytesToBits, TableFor, R.Space, RingOk, TabsOk, FixedOk, Halted, Coding, Shaped;
    st', io', t', seen', a' := st, io, t, seen, a;
    F.NotMoved(seen, io);
    var go := true;
    while st'.phase != DONE && st'.phase != BAD && go
      invariant On(st', m.lens[..], seen', io', a', hist) && Moved(seen, io, seen', io') && Tabled(m, st'.phase, a', t')
      invariant Early(st'.phase) ==> Early(st.phase)
      invariant !go ==> Early(st'.phase) && Halted(seen', io', a')
      decreases go, Unread(io'), io'.left, Rank(st'.phase)
    {
      ghost var seen1, io1 := seen', io';
      if st'.phase == CHECK {
        CheckOn(st', m.lens[..], seen', io', a', hist);
        st' := st'.(phase := DONE);
        StillTabled(m, a', t');
      } else {
        if st'.phase == LENLENS || st'.phase == CODELENS {
          go, st', io', t', seen', a' := TurnTables(m, t', st', io', seen', a', hist);
        } else {
          go, st', io', t', seen', a' := TurnBlock(m, t', window, ring, st', io', seen', a', hist);
        }
        MovedMore(seen, io, seen1, io1, seen', io');
      }
    }
    ret := if st'.phase == DONE then Z_STREAM_END else if st'.phase == BAD then Z_DATA_ERROR else Z_OK;
  }

  lemma StillTabled(m: Store, a: Abs, t: Tab)
    requires Tabled(m, CHECK, a, t)
    ensures Tabled(m, DONE, a, t)
  {
    hide FixedOk, TableFor;
  }

  // ----- the stream ------------------------------------------------------------------------------------------------------

  // What has been read, what has been put out, and where the format's reader has got.
  datatype Trace = Trace(seen: Bytes, hist: Bytes, a: Abs)

  // The end of a call: the registers are stored, and the window takes in the output if it may be needed.
  method Leave(window: array<byte>, ring: Ring, p: Phase, put: Bytes, ghost hist: Bytes) returns (ring': Ring)
    requires Early(p) || ring.wsize != 0 ==> RingOk(window[..], ring, hist)
    modifies window
    ensures Early(p) || ring'.wsize != 0 ==> RingOk(window[..], ring', hist + put)
  {
    hide RingOk;
    ring' := ring;
    if ring.wsize != 0 || (Early(p) && put != []) {
      ring' := UpdateWindow(window, ring, put, hist);
    } else {
      assert Early(p) ==> hist + put == hist;
    }
  }

  method FillLengths(lens: array<nat>, from: nat, to: nat, v: nat)
    requires from <= to <= lens.Length
    modifies lens
    ensures forall i :: from <= i < to ==> lens[i] == v
    ensures forall i :: 0 <= i < from || to <= i < lens.Length ==> lens[i] == old(lens[i])
  {
    var sym := from;
    while sym < to
      invariant from <= sym <= to
      invariant forall i :: from <= i < sym ==> lens[i] == v
      invariant forall i :: 0 <= i < from || sym <= i < lens.Length ==> lens[i] == old(lens[i])
    {
      lens[sym] := v;
      sym := sym + 1;
    }
  }

  lemma FixedTable(kind: Kind, lens: Lens, t: seq<Entry>, root: nat)
    requires (kind == LENS && lens == FixedLit()) || (kind == DISTS && lens == FixedDist())
    requires Decodes(lens, Actions(kind), t, root)
    ensures TableFor(kind, lens, t, root) && 1 <= root <= MAX_BITS
  {
    hide FixedLit, FixedDist, Kraft, Pow2;
    FixedComplete();
    FixedUsable();
  }

  lemma FixedAcceptable()
    ensures Acceptable(LENS, FixedLit()) && Acceptable(DISTS, FixedDist()) && LensOk(FixedLit()) && LensOk(FixedDist())
  {
    hide Kraft, Pow2;
    FixedComplete();
  }

  // fixedtables: the tables of the fixed codes, built by inflate_table like any others.
  method FixedTables(lens: array<nat>, work: array<nat>) returns (lenfix: array<Entry>, distfix: array<Entry>, fixbits: nat, dfixbits: nat)
    requires lens.Length == 320 && work.Length >= 288 && lens != work
    modifies lens, work
    ensures fresh(lenfix) && fresh(distfix) && FixedOk(lenfix[..], fixbits, distfix[..], dfixbits)
  {
    hide TableFor, Acceptable, Decodes, R.Space, LensOk;
    FixedAcceptable();
    R.EnoughIsEnough();
    FillLengths(lens, 0, 144, 8);
    FillLengths(lens, 144, 256, 9);
    FillLengths(lens, 256, 280, 7);
    FillLengths(lens, 280, 288, 8);
    assert lens[..288] == FixedLit();
    lenfix := new Entry[R.Space(LENS, 9)](_ => Entry(0, 0, 0));
    var ret, used;
    ret, used, fixbits := T.InflateTable(LENS, lens[..288], lenfix, 9, work);
    FixedTable(LENS, FixedLit(), lenfix[..], fixbits);
    FillLengths(lens, 0, 32, 5);
    assert lens[..32] == FixedDist();
    distfix := new Entry[R.Space(DISTS, 5)](_ => Entry(0, 0, 0));
    ret, used, dfixbits := T.InflateTable(DISTS, lens[..32], distfix, 5, work);
    FixedTable(DISTS, FixedDist(), distfix[..], dfixbits);
  }

  lemma StartsOn(lens: seq<nat>)
    ensures Decoded(Regs(TYPEDO, false, 0, 0, 0, 0, 0, 0, 0), lens, [], 0, 0, START, [])
  {
    hide Reaches, Step;
    ReachesSelf([], START);
  }

  lemma EmptyRing(window: Bytes)
    requires |window| == WSIZE
    ensures RingOk(window, Ring(0, 0, 0), [])
  {
  }

  // Between two calls.
  ghost predicate Between(m: Store, t: Tab, window: array<byte>, ring: Ring, st: Regs, hold: nat, bits: nat, tr: Trace)
    reads m.lens, m.lenfix, m.distfix, t.lencode, t.distcode, window
  {
    && Shaped(m) && Tabled(m, st.phase, tr.a, t) && (Early(st.phase) || ring.wsize != 0 ==> RingOk(window[..], ring, tr.hist))
    && Decoded(st, m.lens[..], tr.seen, hold, bits, tr.a, tr.hist)
  }

  // What a call promises: input is taken from the front, output is appended, and the call stops early only
  // for want of room, or of input without which nothing more can be decided.
  ghost predicate Called(ret: int, p: Phase, input: Bytes, room: nat, flush: int, rest: Bytes, out: Bytes, tr: Trace, tr': Trace) {
    && tr'.seen + rest == tr.seen + input && tr.seen <= tr'.seen && tr'.hist == tr.hist + out && |out| <= room
    && (ret == Z_STREAM_END <==> p == DONE) && (ret == Z_DATA_ERROR <==> p == BAD)
    && (ret == Z_OK || ret == Z_BUF_ERROR || ret == Z_STREAM_END || ret == Z_DATA_ERROR)
    && (ret == Z_BUF_ERROR <==> Early(p) && ((rest == input && out == []) || flush == Z_FINISH))
    && (ret == Z_OK || ret == Z_BUF_ERROR ==> Early(p) && (|out| == room || (rest == [] && Step(BytesToBits(tr'.seen), tr'.a) == Stuck)))
  }

  lemma NothingTaken(seen: Bytes, input: Bytes, seen': Bytes, rest: Bytes)
    requires seen' + rest == seen + input && seen <= seen'
    ensures |rest| == |input| <==> rest == input
  {
    if |rest| == |input| {
      assert (seen' + rest)[|seen'|..] == rest && (seen + input)[|seen|..] == input;
    }
  }

  method Call(m: Store, t: Tab, window: array<byte>, ring: Ring, st: Regs, hold: nat, bits: nat, input: Bytes, room: nat, flush: int, ghost tr: Trace)
    returns (ret: int, st': Regs, hold': nat, bits': nat, t': Tab, ring': Ring, rest: Bytes, out: Bytes, ghost tr': Trace)
    requires Between(m, t, window, ring, st, hold, bits, tr)
    modifies m.lens, m.work, m.codes, m.dcodes, window
    ensures Between(m, t', window, ring', st', hold', bits', tr') && Called(ret, st'.phase, input, room, flush, rest, out, tr, tr')
  {
    hide Decoded, RingOk, Step, TableFor, TabsOk, FixedOk, On, Shaped;
    var io := Io(hold, bits, input, [], room);
    st' := st;
    Enters(st, m.lens[..], tr.seen, hold, bits, tr.a, tr.hist, input, room);
    if st'.phase == TYPE {
      SkipsCheck(st', m.lens[..], tr.seen, io, tr.a, tr.hist);
      st' := st'.(phase := TYPEDO);
      SkipsTabs(m, tr.a, t);
    }
    var io';
    ghost var seen', a';
    ret, st', io', t', seen', a' := Loop(m, t, window, ring, st', io, tr.seen, tr.a, tr.hist);
    Leaves(st', m.lens[..], seen', io', a', tr.hist);
    ring' := Leave(window, ring, st'.phase, io'.put, tr.hist);
    hold', bits', rest, out := io'.hold, io'.bits, io'.next, io'.put;
    tr' := Trace(seen', tr.hist + out, a');
    NothingTaken(tr.seen, input, seen', rest);
    if ret == Z_OK && ((|input| == |rest| && out == []) || flush == Z_FINISH) {
      ret := Z_BUF_ERROR;
    }
  }

  class Inflater {
    const m: Store
    const window: array<byte>
    var st: Regs
    var hold: nat
    var bits: nat
    var t: Tab
    var ring: Ring
    ghost var tr: Trace

    // Between two calls.
    ghost predicate Valid()
      reads this, m.lens, m.lenfix, m.distfix, t.lencode, t.distcode, window
    {
      Between(m, t, window, ring, st, hold, bits, tr)
    }

    // inflateInit2 with windowBits -15. The state HEAD does nothing but lead to TYPEDO for a raw stream.
    constructor ()
      ensures Valid() && tr.seen == [] == tr.hist && st.phase == TYPEDO
      ensures fresh(m.lens) && fresh(m.work) && fresh(m.codes) && fresh(m.dcodes) && fresh(window)
    {
      hide FixedOk, RingOk, Decoded, TabsOk, R.Space;
      var lens, work := new nat[320](_ => 0), new nat[288](_ => 0);
      var lenfix, distfix, fixbits, dfixbits := FixedTables(lens, work);
      R.EnoughIsEnough();
      var codes := new Entry[ENOUGH](_ => Entry(0, 0, 0));
      var dcodes := new Entry[R.Space(DISTS, 6)](_ => Entry(0, 0, 0));
      m := Store(lens, work, codes, dcodes, lenfix, distfix, fixbits, dfixbits);
      window := new byte[WSIZE](_ => 0);
      st := Regs(TYPEDO, false, 0, 0, 0, 0, 0, 0, 0);
      hold, bits := 0, 0;
      t := Tab(codes, 0, dcodes, 0);
      ring := Ring(0, 0, 0);
      tr := Trace([], [], START);
      new;
      StartsOn(m.lens[..]);
      EmptyRing(window[..]);
      NoTabs(TYPEDO, START, codes[..], 0, dcodes[..], 0);
    }

    // inflate, with any input and any room for output, and any flush but Z_BLOCK.
    method Inflate(input: Bytes, room: nat, flush: int) returns (ret: int, rest: Bytes, out: Bytes)
      requires Valid()
      modifies this, m.lens, m.work, m.codes, m.dcodes, window
      ensures Valid() && Called(ret, st.phase, input, room, flush, rest, out, old(tr), tr)
    {
      hide Called, Decoded, RingOk, TabsOk, FixedOk, Shaped;
      var st', hold', bits', t', ring';
      ghost var tr';
      ret, st', hold', bits', t', ring', rest, out, tr' := Call(m, t, window, ring, st, hold, bits, input, room, flush, tr);
      st, hold, bits, t, ring := st', hold', bits', t', ring';
      tr := tr';
    }
  }

  lemma SkipsTabs(m: Store, a: Abs, t: Tab)
    requires Tabled(m, TYPE, a, t)
    ensures Tabled(m, TYPEDO, a, t)
  {
    hide FixedOk, TableFor;
  }
}
