/** inffast.c: the fast form of the LEN to MATCH states. It pulls two bytes at a time without looking
    for the end of the input and hands back what it has not used. Beside it runs a shadow, the slow
    decoder at the same place in the input, which has pulled no more than it needed. */
module InflateFast {
  import opened Bits
  import opened Canonical
  import opened InfTreesSpec
  import opened Format
  import opened BitInput
  import opened InflateStates
  import opened InflateCodes
  import opened RingWindow
  import opened FastCopy
  import B = BlockCode

  // (w, v) is the slow decoder where the fast one stands at (seen, io).
  ghost predicate Shadow(w: Bytes, v: Io, seen: Bytes, io: Io) {
    && w <= seen && w + v.next == seen + io.next && v.put == io.put && v.left == io.left
    && Accum(seen, io.hold, io.bits) && Accum(w, v.hold, v.bits)
    && v.bits <= io.bits && Pos(w, v) == Pos(seen, io) && v.hold == Low(io.hold, v.bits)
  }

  lemma ShadowSelf(seen: Bytes, io: Io)
    requires Accum(seen, io.hold, io.bits)
    ensures Shadow(seen, io, seen, io)
  {
    hide Low, Pow2, BytesToBits, ToBits;
    LowSmall(io.hold, io.bits);
  }

  // The accumulator without its last k bytes.
  lemma AccumTake(seen: Bytes, hold: nat, bits: nat, k: nat)
    requires Accum(seen, hold, bits) && 8 * k <= bits
    ensures k <= |seen| && Accum(seen[..|seen| - k], Low(hold, bits - 8 * k), bits - 8 * k)
  {
    hide Low, Shr, Pow2, BytesToBits, ToBits;
    var m, n := |seen| - k, bits - 8 * k;
    BytesToBitsConcat(seen[..m], seen[m..]);
    assert seen[..m] + seen[m..] == seen;
    var s, pos := BytesToBits(seen), 8 * |seen| - bits;
    assert BytesToBits(seen[..m]) == s[..8 * m];
    assert s[..8 * m][pos..] == s[pos..][..n];
    ToBitsConcat(hold, n, 8 * k);
    ToBitsLow(hold, n, n);
  }

  // The shadow pulls what it needs for n more bits, out of what the fast form has pulled already.
  lemma Extend(w: Bytes, v: Io, seen: Bytes, io: Io, n: nat) returns (w': Bytes, v': Io)
    requires Shadow(w, v, seen, io) && n <= io.bits
    ensures Shadow(w', v', seen, io) && Pulled(w, v, w', v') && Accum(w', v'.hold, v'.bits)
    ensures v'.bits >= n && ((w' == w && v' == v) || v'.bits < n + 8)
  {
    hide Accum, Low;
    w', v' := w, v;
    if v.bits < n {
      var k := (io.bits - n) / 8;
      AccumTake(seen, io.hold, io.bits, k);
      var m := |seen| - k;
      w' := seen[..m];
      v' := v.(hold := Low(io.hold, io.bits - 8 * k), bits := io.bits - 8 * k, next := seen[m..] + io.next);
      assert m >= |w| by { assert 8 * |w| - v.bits == 8 * |seen| - io.bits; }
      assert w' + v'.next == seen + io.next;
      assert w <= w';
    }
  }

  lemma ShadowDrop(w: Bytes, v: Io, seen: Bytes, io: Io, n: nat)
    requires Shadow(w, v, seen, io) && n <= v.bits
    ensures Shadow(w, Drop(v, n), seen, Drop(io, n))
  {
    hide Accum, Low, Shr;
    AccumDrop(seen, io.hold, io.bits, n);
    AccumDrop(w, v.hold, v.bits, n);
    ShrOfLow(io.hold, n, v.bits - n);
  }

  lemma ShadowPull(w: Bytes, v: Io, seen: Bytes, io: Io, seen': Bytes, io': Io)
    requires Shadow(w, v, seen, io) && Accum(seen', io'.hold, io'.bits) && Pulled(seen, io, seen', io')
    requires io'.bits >= io.bits && Low(io'.hold, io.bits) == io.hold
    ensures Shadow(w, v, seen', io')
  {
    hide Accum, Low;
    LowLow(io'.hold, v.bits, io.bits);
  }

  // The shadow sees the same symbol and the same fields.
  lemma ShadowSymbol(kind: Kind, lens: Lens, w: Bytes, v: Io, seen: Bytes, io: Io, act: Action, n: nat)
    requires Shadow(w, v, seen, io) && |lens| <= SymbolLimit(kind) && Usable(lens) && Acceptable(kind, lens)
    requires Verdict(kind, lens, Ahead(lens, seen, io), act, n) && 1 <= n <= v.bits
    ensures Verdict(kind, lens, Ahead(lens, w, v), act, n) && !Ahead(lens, w, v).NeedMore?
  {
    hide Accum, Low, SymAction, Usable, Acceptable, BytesToBits;
    MoreBits(w, seen);
    var rest, all, more := BytesToBits(w)[Pos(w, v)..], BytesToBits(seen)[Pos(seen, io)..], BytesToBits(seen[|w|..]);
    assert all == rest + more;
    assert |rest| == v.bits;
    SameSymbol(kind, lens, rest, more, n);
  }

  lemma SameSymbol(kind: Kind, lens: Lens, rest: BitString, more: BitString, n: nat)
    requires |lens| <= SymbolLimit(kind) && Usable(lens) && Acceptable(kind, lens) && 1 <= n <= |rest|
    requires match DecodeSym(lens, rest + more) case Sym(s) => lens[s] == n case BadCode => true case NeedMore => false
    ensures DecodeSym(lens, rest) == DecodeSym(lens, rest + more)
  {
    hide CodeBits, Usable, Acceptable;
    match DecodeSym(lens, rest + more) {
      case Sym(s) =>
        PrefixesComparable(CodeBits(lens, s), rest, more);
        SamePrefix(CodeBits(lens, s), rest);
        assert StartsWith(lens, s, rest);
        SymHere(lens, s, rest);
      case BadCode =>
        BadAtOnce(kind, lens, rest, more);
      case NeedMore =>
    }
  }

  lemma SamePrefix(c: BitString, rest: BitString)
    requires |c| <= |rest| && (c <= rest || rest <= c)
    ensures c <= rest
  {
  }

  lemma SymHere(lens: Lens, s: nat, rest: BitString)
    requires Usable(lens) && StartsWith(lens, s, rest)
    ensures DecodeSym(lens, rest) == Sym(s)
  {
    DecodeSymIs(lens, s, rest);
  }

  // ----- a symbol with fifteen bits at hand --------------------------------------------------------------------------

  // op & 16 and op & 64 are clear: a link to a sub-table, unless it is a literal.
  predicate LinkOp(kind: Kind, op: nat) {
    op / 16 % 2 == 0 && op / 64 % 2 == 0 && (op != 0 || kind == DISTS)
  }

  lemma OpKinds(kind: Kind, act: Action)
    requires kind != CODES && SomeAction(kind, act)
    ensures !LinkOp(kind, act.op)
    ensures forall op :: 0 < op < 16 ==> LinkOp(kind, op)
  {
    hide LEXT, DEXT, LBASE, DBASE;
    LextValues();
    DextValues();
    forall op | 0 < op < 16
      ensures LinkOp(kind, op)
    {
    }
    if act != INVALID {
      var s: nat :| s < SymbolLimit(kind) && act == SymAction(kind, s);
      if kind == LENS && s > 256 {
        LengthOps(act.op);
      } else if kind == DISTS {
        assert DEXT[s] == 64 || 16 <= DEXT[s] <= 29;
      }
    }
  }

  lemma LengthOps(op: nat)
    requires 16 <= op <= 21 || op == 201 || op == 196
    ensures op / 16 % 2 == 1 || op / 64 % 2 == 1
  {
  }

  method LookFast(kind: Kind, t: array<Entry>, root: nat, io: Io, ghost lens: Lens, ghost seen: Bytes)
    returns (e: Entry, io': Io, ghost n: nat)
    requires kind != CODES && TableFor(kind, lens, t[..], root) && Accum(seen, io.hold, io.bits) && 1 <= root <= MAX_BITS && io.bits >= 15
    ensures 1 <= n <= MAX_BITS && io' == Drop(io, n) && |lens| <= SymbolLimit(kind) && io.bits <= 8 * |seen|
    ensures Verdict(kind, lens, Ahead(lens, seen, io), Action(e.op, e.val), n)
  {
    hide TableFor, Pow2, DecodeSym, Accum, Low, Shr, SymAction, Verdict, LooksUp, SomeAction, SomeLength, LinkOp;
    ghost var act;
    act, n := LookNow(kind, lens, t[..], root, seen, io);
    LongEntry(kind, t[..], root, io.hold, act, n);
    OpKinds(kind, act);
    e := t[Low(io.hold, root)];
    io' := Drop(io, e.bits);
    if LinkOp(kind, e.op) {
      e := t[e.val + Low(io'.hold, e.op)];
      DropTwice(io, root, e.bits);
      io' := Drop(io', e.bits);
    }
  }

  // if (bits < need) PUP(in), while the input is known to suffice.
  method PullIf(io: Io, need: nat, ghost w: Bytes, ghost v: Io, ghost seen: Bytes)
    returns (io': Io, ghost seen': Bytes)
    requires Shadow(w, v, seen, io) && Accum(seen, io.hold, io.bits) && (io.bits < need ==> io.next != [])
    ensures Shadow(w, v, seen', io') && Pulled(seen, io, seen', io') && Accum(seen', io'.hold, io'.bits)
    ensures io'.bits == if io.bits < need then io.bits + 8 else io.bits
    ensures |io'.next| == if io.bits < need then |io.next| - 1 else |io.next|
  {
    hide Shadow, Accum, Low;
    io', seen' := io, seen;
    if io.bits < need {
      io', seen' := PullByte(io, seen);
      ShadowPull(w, v, seen, io, seen', io');
    } else {
      assert Pulled(seen, io, seen, io) by { AccumSize(seen, io.hold, io.bits); }
    }
  }

  // if (bits < 15): two bytes.
  method Refill(io: Io, ghost w: Bytes, ghost v: Io, ghost seen: Bytes) returns (io': Io, ghost seen': Bytes)
    requires Shadow(w, v, seen, io) && Accum(seen, io.hold, io.bits) && (io.bits < 15 ==> |io.next| >= 2)
    ensures Shadow(w, v, seen', io') && Pulled(seen, io, seen', io') && Accum(seen', io'.hold, io'.bits)
    ensures io'.bits == if io.bits < 15 then io.bits + 16 else io.bits
    ensures |io'.next| == if io.bits < 15 then |io.next| - 2 else |io.next|
  {
    hide Shadow, Accum;
    io', seen' := io, seen;
    if io.bits < 15 {
      io', seen' := PullIf(io, 15, w, v, seen);
      ghost var io1, seen1 := io', seen';
      io', seen' := PullIf(io', io'.bits + 1, w, v, seen');
      PulledMore(seen, io, seen1, io1, seen', io');
    } else {
      assert Pulled(seen, io, seen, io) by { AccumSize(seen, io.hold, io.bits); }
    }
  }

  // ----- the shadow's steps ------------------------------------------------------------------------------------------

  lemma ShadowParts(w: Bytes, v: Io, seen: Bytes, io: Io)
    requires Shadow(w, v, seen, io)
    ensures Accum(seen, io.hold, io.bits) && Accum(w, v.hold, v.bits) && v.put == io.put && v.left == io.left
    ensures w <= seen && w + v.next == seen + io.next && v.bits <= io.bits && Unread(v) == Unread(io)
  {
    hide Accum, Low;
    AccumSize(seen, io.hold, io.bits);
    AccumSize(w, v.hold, v.bits);
    assert |w| + |v.next| == |seen| + |io.next|;
  }

  lemma Usually(kind: Kind, lens: Lens, t: seq<Entry>, root: nat)
    requires TableFor(kind, lens, t, root)
    ensures |lens| <= SymbolLimit(kind) && Usable(lens) && Acceptable(kind, lens) && LensOk(lens)
  {
    hide Acceptable, Decodes;
  }

  lemma FastLen(st: Regs, lens: seq<nat>, w: Bytes, v: Io, a: Abs, hist: Bytes, seen: Bytes, io: Io, e: Entry, n: nat, t: seq<Entry>, root: nat)
    returns (w': Bytes, v': Io, a': Abs)
    requires On(st, lens, w, v, a, hist) && st.phase == LEN && Shadow(w, v, seen, io) && TableFor(LENS, a.l, t, root)
    requires 1 <= n <= MAX_BITS && n <= io.bits <= 8 * |seen| && |a.l| <= 288 && Verdict(LENS, a.l, Ahead(a.l, seen, io), Action(e.op, e.val), n)
    ensures On(LenNext(st, e), lens, w', v', a', hist) && Shadow(w', v', seen, Drop(io, n)) && Moved(w, v, w', v') && Unread(v') < Unread(v) && v'.bits < 8
    ensures LenNext(st, e).phase == LIT || LenNext(st, e).phase == LENEXT ==> a'.l == a.l && a'.d == a.d
  {
    hide Rep, Loose, Step, Shadow, Accum, Verdict, TableFor, Usable, Acceptable, DecodeSym, Pow2, LensOk, Shr;
    Usually(LENS, a.l, t, root);
    LooseParts(st, lens, w, v, a, hist);
    var w1, v1 := Extend(w, v, seen, io, n);
    ShadowParts(w1, v1, seen, io);
    Waits(st, lens, w, v, a, hist, w1, v1);
    ShadowSymbol(LENS, a.l, w1, v1, seen, io, Action(e.op, e.val), n);
    LenNeeds(st, lens, w1, v1, a, hist);
    if w1 == w && v1 == v {
      LeanBits(w, v.bits, a);
    }
    a' := LenRead(st, lens, w1, v1, a, hist, e, n);
    ShadowDrop(w1, v1, seen, io, n);
    w', v' := w1, Drop(v1, n);
  }

  lemma FastLenExt(st: Regs, lens: seq<nat>, w: Bytes, v: Io, a: Abs, hist: Bytes, seen: Bytes, io: Io)
    returns (w': Bytes, v': Io, a': Abs)
    requires On(st, lens, w, v, a, hist) && st.phase == LENEXT && Shadow(w, v, seen, io) && st.extra <= io.bits
    ensures On(st.(length := st.length + Low(io.hold, st.extra), phase := DIST), lens, w', v', a', hist) && a'.l == a.l && a'.d == a.d
    ensures Shadow(w', v', seen, Drop(io, st.extra)) && Moved(w, v, w', v') && Unread(v') <= Unread(v) && v'.bits < 8
  {
    hide Rep, Loose, Step, Shadow, Accum, Pow2, Low, Shr;
    LooseParts(st, lens, w, v, a, hist);
    LenExtNeeds(st, lens, w, v, a, hist);
    var w1, v1 := Extend(w, v, seen, io, st.extra);
    ShadowParts(w1, v1, seen, io);
    Waits(st, lens, w, v, a, hist, w1, v1);
    LenExtNeeds(st, lens, w1, v1, a, hist);
    if w1 == w && v1 == v {
      LeanBits(w, v.bits, a);
    }
    ShadowField(w1, v1, seen, io, st.extra);
    a' := LenExtRead(st, lens, w1, v1, a, hist);
    ShadowDrop(w1, v1, seen, io, st.extra);
    w', v' := w1, Drop(v1, st.extra);
  }

  lemma ShadowField(w: Bytes, v: Io, seen: Bytes, io: Io, n: nat)
    requires Shadow(w, v, seen, io) && n <= v.bits
    ensures Low(v.hold, n) == Low(io.hold, n)
  {
    hide Accum, Low;
    LowLow(io.hold, n, v.bits);
  }

  lemma FastDist(st: Regs, lens: seq<nat>, w: Bytes, v: Io, a: Abs, hist: Bytes, seen: Bytes, io: Io, e: Entry, n: nat, t: seq<Entry>, root: nat)
    returns (w': Bytes, v': Io, a': Abs)
    requires On(st, lens, w, v, a, hist) && st.phase == DIST && Shadow(w, v, seen, io) && TableFor(DISTS, a.d, t, root)
    requires 1 <= n <= MAX_BITS && n <= io.bits <= 8 * |seen| && |a.d| <= 32 && Verdict(DISTS, a.d, Ahead(a.d, seen, io), Action(e.op, e.val), n)
    ensures On(DistNext(st, e), lens, w', v', a', hist) && Shadow(w', v', seen, Drop(io, n)) && Moved(w, v, w', v') && Unread(v') < Unread(v) && v'.bits < 8
    ensures a'.l == a.l && a'.d == a.d
  {
    hide Rep, Loose, Step, Shadow, Accum, Verdict, TableFor, Usable, Acceptable, DecodeSym, Pow2, LensOk, Shr;
    Usually(DISTS, a.d, t, root);
    LooseParts(st, lens, w, v, a, hist);
    var w1, v1 := Extend(w, v, seen, io, n);
    ShadowParts(w1, v1, seen, io);
    Waits(st, lens, w, v, a, hist, w1, v1);
    ShadowSymbol(DISTS, a.d, w1, v1, seen, io, Action(e.op, e.val), n);
    DistNeeds(st, lens, w1, v1, a, hist);
    if w1 == w && v1 == v {
      LeanBits(w, v.bits, a);
    }
    a' := DistRead(st, lens, w1, v1, a, hist, e, n);
    ShadowDrop(w1, v1, seen, io, n);
    w', v' := w1, Drop(v1, n);
  }

  lemma FastDistExt(st: Regs, lens: seq<nat>, w: Bytes, v: Io, a: Abs, hist: Bytes, seen: Bytes, io: Io, window: Bytes, ring: Ring, st': Regs)
    returns (w': Bytes, v': Io, a': Abs)
    requires On(st, lens, w, v, a, hist) && st.phase == DISTEXT && Shadow(w, v, seen, io) && st.extra <= io.bits && RingOk(window, ring, hist)
    requires var offset := st.offset + Low(io.hold, st.extra);
             st' == st.(offset := offset, phase := if offset > ring.whave + |io.put| then BAD else MATCH)
    ensures On(st', lens, w', v', a', hist) && Shadow(w', v', seen, Drop(io, st.extra)) && Moved(w, v, w', v') && Unread(v') <= Unread(v) && v'.bits < 8
    ensures a'.l == a.l && a'.d == a.d
  {
    hide Rep, Loose, Step, Shadow, Accum, Pow2, Low, Shr, RingOk;
    LooseParts(st, lens, w, v, a, hist);
    DistExtNeeds(st, lens, w, v, a, hist);
    var w1, v1 := Extend(w, v, seen, io, st.extra);
    ShadowParts(w1, v1, seen, io);
    Waits(st, lens, w, v, a, hist, w1, v1);
    DistExtNeeds(st, lens, w1, v1, a, hist);
    if w1 == w && v1 == v {
      LeanBits(w, v.bits, a);
    }
    ShadowField(w1, v1, seen, io, st.extra);
    a' := DistExtRead(st, lens, w1, v1, a, hist, window, ring, st');
    ShadowDrop(w1, v1, seen, io, st.extra);
    w', v' := w1, Drop(v1, st.extra);
  }

  // ----- one round -----------------------------------------------------------------------------------------------------

  lemma FastBranch(l: Lens, r: SymResult, e: Entry, n: nat)
    requires |l| <= 288 && LensOk(l) && Verdict(LENS, l, r, Action(e.op, e.val), n)
    ensures || (e.op == 0 && e.val < 256)
            || (16 <= e.op <= 21 && 3 <= e.val && e.val + Pow2(e.op % 16) <= 259)
            || e.op == 96
            || (e.op / 16 % 2 == 0 && e.op / 32 % 2 == 0 && e.op / 64 % 2 == 1)
  {
    hide DecodeSym, Pow2, LBASE, LEXT;
    LenAction(l, r, e, n);
    if r.Sym? && 256 < r.s < 286 {
      LengthReach(r.s - 257);
    } else if r.Sym? && r.s >= 286 {
      LextValues();
    }
  }

  // No length is greater than 258.
  lemma LengthReach(c: nat)
    requires c < 29
    ensures |LEXT| == 31 && |LBASE| == 31 && 16 <= LEXT[c] <= 21 && LBASE[c] >= 3 && LBASE[c] + Pow2(LEXT[c] - 16) <= 259
  {
    hide Pow2;
    Pow2Values();
  }

  lemma PhaseOnly(st1: Regs, st: Regs, lens: seq<nat>, w: Bytes, v: Io, a: Abs, hist: Bytes)
    requires On(st1, lens, w, v, a, hist) && (st1.phase == LEN || st1.phase == TYPE || st1.phase == BAD) && st1.last == st.last
    ensures On(st.(phase := st1.phase), lens, w, v, a, hist)
  {
    hide Reaches, Accum, BytesToBits, Step;
  }

  lemma FastMatch(st: Regs, lens: seq<nat>, w: Bytes, v: Io, a: Abs, hist: Bytes, seen: Bytes, io: Io, put': Bytes) returns (v': Io, a': Abs)
    requires On(st, lens, w, v, a, hist) && st.phase == MATCH && Shadow(w, v, seen, io) && 1 <= st.length <= io.left
    requires 1 <= st.offset <= |hist + io.put| && hist + put' == B.CopyFrom(hist + io.put, st.offset, st.length) && io.put <= put'
    requires |put'| == |io.put| + st.length
    ensures On(st.(length := 0, phase := LEN), lens, w, v', a', hist) && a'.l == a.l && a'.d == a.d && v'.bits == v.bits
    ensures Shadow(w, v', seen, io.(put := put', left := io.left - st.length)) && Moved(w, v, w, v') && Unread(v') == Unread(v)
  {
    hide On, Accum, B.CopyFrom, Low;
    a' := MatchOn(st, lens, w, v, a, hist, st.length, put');
    v' := v.(put := put', left := v.left - st.length);
  }

  // The match behind a distance: copied, or too far back.
  method FastCopyOut(window: array<byte>, ring: Ring, dist: nat, len: nat, io: Io, ghost st: Regs, ghost lens: seq<nat>, ghost w: Bytes, ghost v: Io,
      ghost seen: Bytes, ghost a: Abs, ghost hist: Bytes)
    returns (io': Io, ghost v': Io, ghost a': Abs)
    requires On(st, lens, w, v, a, hist) && st.phase == MATCH && Shadow(w, v, seen, io) && RingOk(window[..], ring, hist)
    requires st.offset == dist && st.length == len && 3 <= len <= 258 <= io.left && dist <= ring.whave + |io.put|
    ensures On(st.(length := 0, phase := LEN), lens, w, v', a', hist) && a'.l == a.l && a'.d == a.d && v'.bits == v.bits
    ensures Shadow(w, v', seen, io') && Moved(w, v, w, v') && Unread(v') == Unread(v)
    ensures io' == io.(put := io'.put, left := io.left - len) && |io'.put| == |io.put| + len
  {
    hide On, RingOk, Shadow, B.CopyFrom;
    ShadowParts(w, v, seen, io);
    MatchBits(st, lens, w, v, a, hist);
    RingSize(window[..], ring, hist);
    var put';
    if dist > |io.put| {
      put' := CopyFar(window, ring, io.put, dist, len, hist);
    } else {
      put' := CopyNear(window, io.put, dist, len, ring, hist);
    }
    v', a' := FastMatch(st, lens, w, v, a, hist, seen, io, put');
    io' := io.(put := put', left := io.left - len);
  }

  // What a round leaves behind: the slow decoder is at LEN again, behind the block, or at an error.
  ghost predicate Landed(st: Regs, phase: Phase, lens: seq<nat>, w': Bytes, v': Io, seen': Bytes, io': Io, a: Abs, a': Abs, hist: Bytes) {
    && On(st.(phase := phase), lens, w', v', a', hist) && Shadow(w', v', seen', io') && v'.bits < 8
    && (phase == LEN || phase == TYPE || phase == BAD) && (phase == LEN ==> a'.l == a.l && a'.d == a.d)
  }

  // Shadow and fast decoder have both got on.
  ghost predicate Along(w: Bytes, v: Io, seen: Bytes, io: Io, w': Bytes, v': Io, seen': Bytes, io': Io) {
    && Moved(w, v, w', v') && Moved(seen, io, seen', io')
  }

  lemma AlongMore(w0: Bytes, v0: Io, s0: Bytes, io0: Io, w1: Bytes, v1: Io, s1: Bytes, io1: Io, w2: Bytes, v2: Io, s2: Bytes, io2: Io)
    requires Along(w0, v0, s0, io0, w1, v1, s1, io1) && Along(w1, v1, s1, io1, w2, v2, s2, io2)
    ensures Along(w0, v0, s0, io0, w2, v2, s2, io2)
  {
  }

  // The distance is known: the match is copied, unless it reaches too far back.
  method FastEnd(window: array<byte>, ring: Ring, dist: nat, len: nat, io: Io, ghost st: Regs, ghost st0: Regs, ghost lens: seq<nat>,
      ghost w: Bytes, ghost v: Io, ghost seen: Bytes, ghost a: Abs, ghost hist: Bytes)
    returns (phase: Phase, io': Io, ghost v': Io, ghost a': Abs)
    requires On(st, lens, w, v, a, hist) && Shadow(w, v, seen, io) && v.bits < 8 && RingOk(window[..], ring, hist) && st0.last == st.last
    requires st.offset == dist && st.length == len && 3 <= len <= 258 <= io.left
    requires st.phase == if dist > ring.whave + |io.put| then BAD else MATCH
    ensures Landed(st0, phase, lens, w, v', seen, io', a, a', hist) && Along(w, v, seen, io, w, v', seen, io') && Unread(v') == Unread(v)
    ensures io' == io.(put := io'.put, left := io'.left) && |io'.put| <= |io.put| + 258
  {
    hide On, RingOk, Shadow, Accum;
    io', v', a' := io, v, a;
    if dist > ring.whave + |io.put| {
      PhaseOnly(st, st0, lens, w, v, a, hist);
      phase := BAD;
    } else {
      io', v', a' := FastCopyOut(window, ring, dist, len, io, st, lens, w, v, seen, a, hist);
      PhaseOnly(st.(length := 0, phase := LEN), st0, lens, w, v', a', hist);
      phase := LEN;
      ShadowParts(w, v, seen, io);
      ShadowParts(w, v', seen, io');
    }
  }

  // From the distance entry on; no more than `spare` bytes are pulled.
  method FastDistance(window: array<byte>, ring: Ring, e: Entry, len: nat, io: Io, ghost st: Regs, ghost st0: Regs, ghost lens: seq<nat>,
      ghost w: Bytes, ghost v: Io, ghost seen: Bytes, ghost a: Abs, ghost hist: Bytes, ghost spare: nat)
    returns (phase: Phase, io': Io, ghost w': Bytes, ghost v': Io, ghost seen': Bytes, ghost a': Abs)
    requires On(st, lens, w, v, a, hist) && st.phase == DISTEXT && Shadow(w, v, seen, io) && v.bits < 8 && RingOk(window[..], ring, hist)
    requires st.extra == e.op % 16 <= 13 && st.offset == e.val && st.length == len && 3 <= len <= 258 <= io.left
    requires io.bits + 8 * spare >= 13 && spare <= |io.next| && st0.last == st.last
    ensures Landed(st0, phase, lens, w', v', seen', io', a, a', hist) && Along(w, v, seen, io, w', v', seen', io') && Unread(v') <= Unread(v)
    ensures |io'.next| + spare >= |io.next| && |io'.put| <= |io.put| + 258
  {
    hide On, RingOk, Shadow, Low, Shr, Accum, Landed;
    ShadowParts(w, v, seen, io);
    var op := e.op % 16;
    io', seen' := PullIf(io, op, w, v, seen);
    PulledMoved(seen, io, seen', io');
    ghost var io1, seen1 := io', seen';
    io', seen' := PullIf(io', op, w, v, seen');
    PulledMoved(seen1, io1, seen', io');
    MovedMore(seen, io, seen1, io1, seen', io');
    var dist := e.val + Low(io'.hold, op);
    ghost var io2 := io';
    io' := Drop(io', op);
    ghost var st2 := st.(offset := dist, phase := if dist > ring.whave + |io'.put| then BAD else MATCH);
    w', v', a' := FastDistExt(st, lens, w, v, a, hist, seen', io2, window[..], ring, st2);
    ghost var v2, io3, a2 := v', io', a';
    phase, io', v', a' := FastEnd(window, ring, dist, len, io', st2, st0, lens, w', v', seen', a', hist);
    AlongMore(w, v, seen, io, w', v2, seen', io3, w', v', seen', io');
    LandedFrom(st0, phase, lens, w', v', seen', io', a2, a, a', hist);
  }

  lemma LandedFrom(st: Regs, phase: Phase, lens: seq<nat>, w: Bytes, v: Io, seen: Bytes, io: Io, a1: Abs, a: Abs, a': Abs, hist: Bytes)
    requires Landed(st, phase, lens, w, v, seen, io, a1, a', hist) && a1.l == a.l && a1.d == a.d
    ensures Landed(st, phase, lens, w, v, seen, io, a, a', hist)
  {
    hide On, Shadow;
  }

  // The distance symbol and what follows it.
  method FastAfterLength(distcode: array<Entry>, distbits: nat, window: array<byte>, ring: Ring, len: nat, io: Io, ghost st: Regs, ghost st0: Regs,
      ghost lens: seq<nat>, ghost w: Bytes, ghost v: Io, ghost seen: Bytes, ghost a: Abs, ghost hist: Bytes, ghost spare: nat)
    returns (phase: Phase, io': Io, ghost w': Bytes, ghost v': Io, ghost seen': Bytes, ghost a': Abs)
    requires On(st, lens, w, v, a, hist) && st.phase == DIST && Shadow(w, v, seen, io) && RingOk(window[..], ring, hist)
    requires TableFor(DISTS, a.d, distcode[..], distbits) && 1 <= distbits <= MAX_BITS
    requires st.length == len && 3 <= len <= 258 <= io.left && io.bits >= 15
    requires io.bits + 8 * spare >= 28 && spare <= |io.next| && st0.last == st.last
    ensures Landed(st0, phase, lens, w', v', seen', io', a, a', hist) && Along(w, v, seen, io, w', v', seen', io') && Unread(v') <= Unread(v)
    ensures |io'.next| + spare >= |io.next| && |io'.put| <= |io.put| + 258
  {
    hide On, RingOk, Shadow, Low, Shr, Accum, Landed, TableFor, Verdict, DecodeSym;
    ShadowParts(w, v, seen, io);
    var e;
    ghost var n;
    e, io', n := LookFast(DISTS, distcode, distbits, io, a.d, seen);
    DistBranch(a.d, Ahead(a.d, seen, io), e, n, distcode[..], distbits);
    w', v', a' := FastDist(st, lens, w, v, a, hist, seen, io, e, n, distcode[..], distbits);
    seen' := seen;
    ghost var w1, v1, io1, a1 := w', v', io', a';
    if e.op / 16 % 2 == 1 {
      phase, io', w', v', seen', a' := FastDistance(window, ring, e, len, io', DistNext(st, e), st0, lens, w', v', seen, a', hist, spare);
      AlongMore(w, v, seen, io, w1, v1, seen, io1, w', v', seen', io');
      LandedFrom(st0, phase, lens, w', v', seen', io', a1, a, a', hist);
    } else {
      PhaseOnly(DistNext(st, e), st0, lens, w', v', a', hist);
      phase := BAD;
      LandedAt(st0, phase, lens, w', v', seen', io', a, a', hist);
    }
  }

  // From the length entry on.
  method FastLength(distcode: array<Entry>, distbits: nat, window: array<byte>, ring: Ring, e: Entry, io: Io, ghost st: Regs, ghost st0: Regs,
      ghost lens: seq<nat>, ghost w: Bytes, ghost v: Io, ghost seen: Bytes, ghost a: Abs, ghost hist: Bytes, ghost spare: nat)
    returns (phase: Phase, io': Io, ghost w': Bytes, ghost v': Io, ghost seen': Bytes, ghost a': Abs)
    requires On(st, lens, w, v, a, hist) && st.phase == LENEXT && Shadow(w, v, seen, io) && RingOk(window[..], ring, hist)
    requires TableFor(DISTS, a.d, distcode[..], distbits) && 1 <= distbits <= MAX_BITS
    requires 16 <= e.op <= 21 && st.extra == e.op % 16 && st.length == e.val && 3 <= e.val && e.val + Pow2(e.op % 16) <= 259 && 258 <= io.left
    requires io.bits + 8 * spare >= 33 && spare <= |io.next| && st0.last == st.last
    ensures Landed(st0, phase, lens, w', v', seen', io', a, a', hist) && Along(w, v, seen, io, w', v', seen', io') && Unread(v') <= Unread(v)
    ensures |io'.next| + spare >= |io.next| && |io'.put| <= |io.put| + 258
  {
    hide On, RingOk, Shadow, Low, Shr, Accum, Landed, TableFor, Pow2;
    ShadowParts(w, v, seen, io);
    var op := e.op % 16;
    io', seen' := PullIf(io, op, w, v, seen);
    PulledMoved(seen, io, seen', io');
    var len := e.val + Low(io'.hold, op);
    w', v', a' := FastLenExt(st, lens, w, v, a, hist, seen', io');
    io' := Drop(io', op);
    ghost var io1, seen1 := io', seen';
    ShadowParts(w', v', seen', io');
    io', seen' := Refill(io', w', v', seen');
    PulledMoved(seen1, io1, seen', io');
    MovedMore(seen, io, seen1, io1, seen', io');
    ghost var w2, v2, seen2, io2, a2 := w', v', seen', io', a';
    phase, io', w', v', seen', a' := FastAfterLength(distcode, distbits, window, ring, len, io', st.(length := len, phase := DIST), st0, lens,
      w', v', seen', a', hist, spare - (|io.next| - |io'.next|));
    AlongMore(w, v, seen, io, w2, v2, seen2, io2, w', v', seen', io');
    LandedFrom(st0, phase, lens, w', v', seen', io', a2, a, a', hist);
  }

  lemma LandedAt(st: Regs, phase: Phase, lens: seq<nat>, w: Bytes, v: Io, seen: Bytes, io: Io, a: Abs, a': Abs, hist: Bytes)
    requires On(st.(phase := phase), lens, w, v, a', hist) && Shadow(w, v, seen, io) && v.bits < 8
    requires (phase == LEN || phase == TYPE || phase == BAD) && (phase == LEN ==> a'.l == a.l && a'.d == a.d)
    ensures Landed(st, phase, lens, w, v, seen, io, a, a', hist)
  {
    hide On, Shadow;
  }

  lemma DistBranch(d: Lens, r: SymResult, e: Entry, n: nat, t: seq<Entry>, root: nat)
    requires TableFor(DISTS, d, t, root) && Verdict(DISTS, d, r, Action(e.op, e.val), n)
    ensures e.op == 64 || (16 <= e.op <= 29 && e.op / 16 % 2 == 1 && e.op / 64 % 2 == 0 && e.op % 16 <= 13)
  {
    hide DecodeSym, Pow2, TableFor;
    Usually(DISTS, d, t, root);
    DistAction(d, r, e, n);
  }

  // One round of the loop: a literal, a match, the end of the block, or an error. No more than six bytes
  // are pulled and no more than 258 put out.
  method FastRound(lencode: array<Entry>, lenbits: nat, distcode: array<Entry>, distbits: nat, window: array<byte>, ring: Ring, io: Io,
      ghost st: Regs, ghost lens: seq<nat>, ghost w: Bytes, ghost v: Io, ghost seen: Bytes, ghost a: Abs, ghost hist: Bytes)
    returns (phase: Phase, io': Io, ghost w': Bytes, ghost v': Io, ghost seen': Bytes, ghost a': Abs)
    requires On(st, lens, w, v, a, hist) && st.phase == LEN && Shadow(w, v, seen, io) && RingOk(window[..], ring, hist)
    requires Coders(a, lencode[..], lenbits, distcode[..], distbits) && |io.next| >= 6 && io.left >= 258
    ensures Landed(st, phase, lens, w', v', seen', io', a, a', hist) && Along(w, v, seen, io, w', v', seen', io') && Unread(v') < Unread(v)
    ensures |io.next| - |io'.next| <= 6 && |io'.put| <= |io.put| + 258
  {
    hide On, RingOk, Shadow, Low, Shr, Accum, Landed, TableFor, Pow2, Verdict, DecodeSym, Coders;
    CodersParts(a, lencode[..], lenbits, distcode[..], distbits);
    ShadowParts(w, v, seen, io);
    io', seen' := Refill(io, w, v, seen);
    PulledMoved(seen, io, seen', io');
    ghost var io1, n := io', 0;
    var e;
    e, io', n := LookFast(LENS, lencode, lenbits, io', a.l, seen');
    FastBranch(a.l, Ahead(a.l, seen', io1), e, n);
    w', v', a' := FastLen(st, lens, w, v, a, hist, seen', io1, e, n, lencode[..], lenbits);
    ghost var w2, v2, seen2, io2, a2 := w', v', seen', io', a';
    ShadowParts(w', v', seen', io');
    if e.op == 0 {
      a' := LitOn(LenNext(st, e), lens, w', v', a', hist);
      io' := io'.(put := io'.put + [e.val], left := io'.left - 1);
      v' := v'.(put := v'.put + [e.val], left := v'.left - 1);
      ShadowPut(w', v2, seen', io2, e.val);
      PhaseOnly(LenNext(st, e).(phase := LEN), st, lens, w', v', a', hist);
      phase := LEN;
      LandedAt(st, phase, lens, w', v', seen', io', a, a', hist);
    } else if e.op / 16 % 2 == 1 {
      phase, io', w', v', seen', a' := FastLength(distcode, distbits, window, ring, e, io', LenNext(st, e), st, lens,
        w', v', seen', a', hist, 6 - (|io.next| - |io'.next|));
      AlongMore(w, v, seen, io, w2, v2, seen2, io2, w', v', seen', io');
      LandedFrom(st, phase, lens, w', v', seen', io', a2, a, a', hist);
    } else {
      phase := if e.op / 32 % 2 == 1 then TYPE else BAD;
      PhaseOnly(LenNext(st, e), st, lens, w', v', a', hist);
      LandedAt(st, phase, lens, w', v', seen', io', a, a', hist);
    }
  }

  lemma ShadowPut(w: Bytes, v: Io, seen: Bytes, io: Io, b: byte)
    requires Shadow(w, v, seen, io) && io.left > 0
    ensures Shadow(w, v.(put := v.put + [b], left := v.left - 1), seen, io.(put := io.put + [b], left := io.left - 1))
  {
    hide Accum, Low;
  }

  // What the fast form hands back is what the shadow has not pulled; all of it was read in this call.
  lemma HandedBack(seen0: Bytes, next0: Bytes, w: Bytes, v: Io, seen: Bytes, io: Io)
    requires Shadow(w, v, seen, io) && v.bits < 8 && seen0 <= w && seen + io.next == seen0 + next0
    ensures io.bits / 8 <= |next0| - |io.next| && v.bits == io.bits % 8
    ensures v == Io(Low(io.hold, io.bits % 8), io.bits % 8, next0[|next0| - |io.next| - io.bits / 8..], io.put, io.left)
  {
    hide Low, Accum;
    ShadowParts(w, v, seen, io);
    assert 8 * |seen| - io.bits == 8 * |w| - v.bits;
    var k := io.bits / 8;
    assert |w| == |seen| - k;
    assert |seen0| + |next0| == |seen| + |io.next| by { assert |seen + io.next| == |seen0 + next0|; }
    assert v.next == (w + v.next)[|w|..] == (seen0 + next0)[|w|..] == next0[|w| - |seen0|..];
  }

  // inflate_fast: rounds while at least six bytes of input and room for 258 bytes are left, and then the
  // unused bytes are handed back. It ends where the slow decoder can get to by whole rounds.
  method Fast(lencode: array<Entry>, lenbits: nat, distcode: array<Entry>, distbits: nat, window: array<byte>, ring: Ring, io: Io,
      ghost st: Regs, ghost lens: seq<nat>, ghost seen: Bytes, ghost a: Abs, ghost hist: Bytes)
    returns (phase: Phase, io': Io, ghost seen': Bytes, ghost a': Abs)
    requires On(st, lens, seen, io, a, hist) && st.phase == LEN && RingOk(window[..], ring, hist)
    requires Coders(a, lencode[..], lenbits, distcode[..], distbits) && |io.next| >= 6 && io.left >= 258
    ensures On(st.(phase := phase), lens, seen', io', a', hist) && Moved(seen, io, seen', io') && Unread(io') < Unread(io) && io'.bits < 8
    ensures phase == LEN || phase == TYPE || phase == BAD
    ensures phase == LEN ==> a'.l == a.l && a'.d == a.d
  {
    hide On, RingOk, Shadow, Low, Accum, Coders, Landed, Loose;
    io', seen', a' := io, seen, a;
    ghost var w, v := seen, io;
    OnParts(st, lens, seen, io, a, hist);
    ShadowSelf(seen, io);
    NotMoved(seen, io);
    phase := LEN;
    while true
      invariant On(st, lens, w, v, a', hist) && Shadow(w, v, seen', io') && Along(seen, io, seen, io, w, v, seen', io')
      invariant Unread(v) <= Unread(io) && |io'.next| >= 6 && io'.left >= 258 && a'.l == a.l && a'.d == a.d
      decreases Unread(v)
    {
      ghost var w1, v1, seen1, io1, a1 := w, v, seen', io', a';
      CodersSame(a, a', lencode[..], lenbits, distcode[..], distbits);
      phase, io', w, v, seen', a' := FastRound(lencode, lenbits, distcode, distbits, window, ring, io', st, lens, w, v, seen', a', hist);
      AlongMore(seen, io, seen, io, w1, v1, seen1, io1, w, v, seen', io');
      LandedParts(st, phase, lens, w, v, seen', io', a1, a', hist);
      if phase != LEN || |io'.next| < 6 || io'.left < 258 {
        break;
      }
    }
    HandedBack(seen, io.next, w, v, seen', io');
    var len := io'.bits / 8;
    io' := Io(Low(io'.hold, io'.bits % 8), io'.bits % 8, io.next[|io.next| - |io'.next| - len..], io'.put, io'.left);
    seen' := w;
  }

  lemma NotMoved(seen: Bytes, io: Io)
    ensures Moved(seen, io, seen, io)
  {
  }

  lemma CodersSame(a: Abs, b: Abs, lt: seq<Entry>, lenbits: nat, dt: seq<Entry>, distbits: nat)
    requires Coders(a, lt, lenbits, dt, distbits) && a.l == b.l && a.d == b.d
    ensures Coders(b, lt, lenbits, dt, distbits)
  {
    hide TableFor;
  }

  lemma OnParts(st: Regs, lens: seq<nat>, seen: Bytes, io: Io, a: Abs, hist: Bytes)
    requires On(st, lens, seen, io, a, hist)
    ensures Accum(seen, io.hold, io.bits)
  {
    hide Rep, Reaches, Accum;
  }

  lemma LandedParts(st: Regs, phase: Phase, lens: seq<nat>, w: Bytes, v: Io, seen: Bytes, io: Io, a: Abs, a': Abs, hist: Bytes)
    requires Landed(st, phase, lens, w, v, seen, io, a, a', hist)
    ensures On(st.(phase := phase), lens, w, v, a', hist) && Shadow(w, v, seen, io) && v.bits < 8
    ensures (phase == LEN || phase == TYPE || phase == BAD) && (phase == LEN ==> a'.l == a.l && a'.d == a.d)
  {
    hide On, Shadow;
  }
}
