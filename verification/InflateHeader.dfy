/** inflate.c: the header of a dynamic block, from the lengths of the code length code to the tables
    for the block. */
module InflateHeader {
  import opened Bits
  import opened Canonical
  import opened InfTreesSpec
  import opened Format
  import opened BitInput
  import opened InflateStates
  import T = InflateTable
  import R = TableRoom

  // ----- LENLENS ---------------------------------------------------------------------------------------------------

  lemma LenLensNeeds(st: Regs, lens: seq<nat>, seen: Bytes, io: Io, a: Abs, hist: Bytes)
    requires Loose(st, lens, seen, io, a, hist) && st.phase == LENLENS && st.have < st.ncode
    ensures Step(BytesToBits(seen), a).Next? <==> io.bits >= 3
  {
    hide Reaches, Accum, BytesToBits, Field;
    LooseParts(st, lens, seen, io, a, hist);
  }

  lemma LenLensRead(st: Regs, lens: seq<nat>, seen: Bytes, io: Io, a: Abs, hist: Bytes) returns (a': Abs)
    requires Loose(st, lens, seen, io, a, hist) && st.phase == LENLENS && st.have < st.ncode <= 19 <= |lens| && 3 <= io.bits <= 10
    ensures On(st.(have := st.have + 1), lens[OrderOf(st.have) := Low(io.hold, 3)], seen, Drop(io, 3), a', hist)
  {
    hide Reaches, Accum, BytesToBits, Pow2, Low, Shr, Field, Loose, OrderOf;
    LooseParts(st, lens, seen, io, a, hist);
    AccumField(seen, io.hold, io.bits, 3);
    AccumDrop(seen, io.hold, io.bits, 3);
    var v, st', lens' := Low(io.hold, 3), st.(have := st.have + 1), lens[OrderOf(st.have) := Low(io.hold, 3)];
    a' := StepLenLens(BytesToBits(seen), a).a;
    forall i | 0 <= i < st.have + 1
      ensures lens'[OrderOf(i)] == a'.mode.got[i]
    {
      if i < st.have && OrderOf(i) == OrderOf(st.have) {
        OrderInjective(i, st.have);
      }
    }
    Steps1(st, lens, seen, io, a, hist, st', lens', Drop(io, 3), a');
  }

  // The loop that reads the lengths.
  method ReadLenLens(lens: array<nat>, st: Regs, io: Io, ghost seen: Bytes, ghost a: Abs, ghost hist: Bytes)
    returns (go: bool, st': Regs, io': Io, ghost seen': Bytes, ghost a': Abs)
    requires On(st, lens[..], seen, io, a, hist) && st.phase == LENLENS && lens.Length >= 19 && st.have <= st.ncode <= 19
    modifies lens
    ensures On(st', lens[..], seen', io', a', hist) && Moved(seen, io, seen', io') && Unread(io') <= Unread(io) && io'.left == io.left
    ensures st' == st.(have := st'.have) && if go then st'.have == st.ncode else io'.next == [] && Step(BytesToBits(seen'), a') == Stuck
  {
    hide Rep, Accum, BytesToBits, Pow2, Low, Shr, Step, Loose, Reaches, OrderOf;
    st', io', seen', a' := st, io, seen, a;
    while st'.have < st'.ncode
      invariant On(st', lens[..], seen', io', a', hist) && Moved(seen, io, seen', io') && Unread(io') <= Unread(io) && io'.left == io.left
      invariant st' == st.(have := st'.have) && st'.have <= st.ncode
    {
      ghost var io1, seen1 := io', seen';
      LooseParts(st', lens[..], seen', io', a', hist);
      LenLensNeeds(st', lens[..], seen', io', a', hist);
      go, io', seen' := NeedBits(io', 3, seen');
      Waits(st', lens[..], seen1, io1, a', hist, seen', io');
      MovedMore(seen, io, seen1, io1, seen', io');
      LenLensNeeds(st', lens[..], seen', io', a', hist);
      if !go {
        return;
      }
      a' := LenLensRead(st', lens[..], seen', io', a', hist);
      lens[OrderOf(st'.have)] := Low(io'.hold, 3);
      st' := st'.(have := st'.have + 1);
      io' := Drop(io', 3);
    }
    go := true;
  }

  // All lengths have been read: the code is checked.
  lemma LenLensEnds(st: Regs, lens: seq<nat>, seen: Bytes, io: Io, a: Abs, hist: Bytes, lens': seq<nat>, st': Regs) returns (a': Abs)
    requires On(st, lens, seen, io, a, hist) && st.phase == LENLENS && st.have == st.ncode <= 19 <= |lens| == |lens'|
    requires a.mode.LenLens? && lens'[..19] == Permuted(a.mode.got) && st.nlen + st.ndist <= |lens|
    requires st' == if Acceptable(CODES, lens'[..19]) then st.(have := 0, phase := CODELENS) else st.(have := 19, phase := BAD)
    ensures On(st', lens', seen, io, a', hist)
    ensures st'.phase == CODELENS ==> a'.mode.CodeLens? && a'.mode.cl == lens'[..19]
  {
    hide Reaches, Accum, BytesToBits, Field, Acceptable, Loose, PermutedTo, OrderOf;
    LooseParts(st, lens, seen, io, a, hist);
    a' := StepLenLens(BytesToBits(seen), a).a;
    LeanBits(seen, io.bits, a);
    Steps1(st, lens, seen, io, a, hist, st', lens', io, a');
  }

  lemma GotLengths(st: Regs, lens: seq<nat>, seen: Bytes, io: Io, a: Abs, hist: Bytes)
    requires On(st, lens, seen, io, a, hist) && st.phase == LENLENS
    ensures a.mode.LenLens? && |a.mode.got| == st.have && st.nlen <= 286 && st.ndist <= 30 && st.ncode <= 19
    ensures forall i :: 0 <= i < st.have ==> i < 19 && |lens| >= 19 && lens[OrderOf(i)] == a.mode.got[i]
    ensures forall i :: 0 <= i < 19 ==> Permuted(a.mode.got)[i] <= 7
  {
    hide Reaches, Accum, BytesToBits, OrderOf, PermutedTo;
    SaneNow(st, lens, seen, io, a, hist);
    PermutedSmall(a.mode.got, |a.mode.got|, 7);
  }

  // Lengths that are not sent are zero.
  method ZeroRest(lens: array<nat>, have: nat)
    requires lens.Length >= 19 && have <= 19
    modifies lens
    ensures forall i :: 0 <= i < have ==> lens[OrderOf(i)] == old(lens[OrderOf(i)])
    ensures forall i :: have <= i < 19 ==> lens[OrderOf(i)] == 0
  {
    hide OrderOf;
    var h := have;
    while h < 19
      invariant have <= h <= 19
      invariant forall i :: 0 <= i < have ==> lens[OrderOf(i)] == old(lens[OrderOf(i)])
      invariant forall i :: have <= i < h ==> lens[OrderOf(i)] == 0
    {
      forall i | 0 <= i < 19 && OrderOf(i) == OrderOf(h)
        ensures i == h
      {
        OrderInjective(i, h);
      }
      lens[OrderOf(h)] := 0;
      h := h + 1;
    }
  }

  lemma CodeTable(lens: Lens, t: seq<Entry>, root: nat)
    requires |lens| == 19 && LensOk(lens) && Acceptable(CODES, lens) && Decodes(lens, Actions(CODES), t, root)
    ensures TableFor(CODES, lens, t, root) && 1 <= root
  {
    hide Acceptable;
    AcceptableIsUsable(CODES, lens);
  }

  method LenLensState(lens: array<nat>, codes: array<Entry>, work: array<nat>, st: Regs, io: Io, lenbits: nat,
      ghost seen: Bytes, ghost a: Abs, ghost hist: Bytes)
    returns (go: bool, st': Regs, io': Io, lenbits': nat, ghost seen': Bytes, ghost a': Abs)
    requires On(st, lens[..], seen, io, a, hist) && st.phase == LENLENS && lens.Length == 320 && st.have <= st.ncode <= 19
    requires codes.Length >= R.Space(CODES, 7) && work.Length >= 288 && lens != work
    modifies lens, codes, work
    ensures On(st', lens[..], seen', io', a', hist) && Moved(seen, io, seen', io')
    ensures if go then Onward(st, io, st', io') else
              st'.phase == LENLENS && io'.next == [] && Step(BytesToBits(seen'), a') == Stuck && codes[..] == old(codes[..]) && lenbits' == lenbits
    ensures go ==> st'.phase == BAD || st'.phase == CODELENS
    ensures st'.phase == CODELENS ==>
              && a'.mode.CodeLens? && TableFor(CODES, a'.mode.cl, codes[..], lenbits')
              && lenbits' >= 1 && forall s :: Coded(a'.mode.cl, s) ==> a'.mode.cl[s] <= lenbits'
  {
    hide Rep, Accum, BytesToBits, Pow2, Low, Shr, Step, Loose, Reaches, OrderOf, Acceptable, Decodes, PermutedTo,
      R.Space, TableFor;
    lenbits' := lenbits;
    go, st', io', seen', a' := ReadLenLens(lens, st, io, seen, a, hist);
    if !go {
      return;
    }
    ghost var st1, lens1, got := st', lens[..], a'.mode;
    GotLengths(st', lens[..], seen', io', a', hist);
    ZeroRest(lens, st'.have);
    PermutedIs(a'.mode.got, lens[..]);
    ghost var lens2 := lens[..];
    var cl := lens[..19];
    var ret, used;
    ret, used, lenbits' := T.InflateTable(CODES, cl, codes, 7, work);
    assert lens[..] == lens2;
    if ret != 0 {
      st' := st'.(have := 19, phase := BAD);
    } else {
      st' := st'.(have := 0, phase := CODELENS);
      CodeTable(cl, codes[..], lenbits');
    }
    a' := LenLensEnds(st1, lens1, seen', io', a', hist, lens[..], st');
  }

  // ----- CODELENS --------------------------------------------------------------------------------------------------

  // The bits at hand show a whole item of the sequence of lengths.
  ghost predicate ItemThere(cl: Lens, seen: Bytes, io: Io)
    requires io.bits <= 8 * |seen|
  {
    match Ahead(cl, seen, io)
    case NeedMore => false
    case BadCode => true
    case Sym(s) => s < |cl| && cl[s] + RepeatBits(s) <= io.bits
  }

  lemma CodeLensSteps(s: BitString, a: Abs)
    requires a.mode.CodeLens? && |a.mode.got| < a.mode.nlen + a.mode.ndist && a.pos <= |s|
    ensures Step(s, a).Next? <==>
            match DecodeSym(a.mode.cl, s[a.pos..])
            case NeedMore => false
            case BadCode => true
            case Sym(x) => a.pos + a.mode.cl[x] + RepeatBits(x) <= |s|
  {
    hide Field, DecodeSym, RepeatBits, RepeatCount, Repeat;
  }

  lemma CodeLensNeeds(st: Regs, lens: seq<nat>, seen: Bytes, io: Io, a: Abs, hist: Bytes)
    requires Loose(st, lens, seen, io, a, hist) && st.phase == CODELENS && st.have < st.nlen + st.ndist
    ensures a.mode.CodeLens? && io.bits <= 8 * |seen|
    ensures Step(BytesToBits(seen), a).Next? <==> ItemThere(a.mode.cl, seen, io)
  {
    hide Reaches, Accum, BytesToBits, DecodeSym, Step;
    LooseParts(st, lens, seen, io, a, hist);
    CodeLensSteps(BytesToBits(seen), a);
  }

  // What an item says: n times the length v, with x extra bits behind the symbol.
  ghost predicate Item(e: Entry, f: nat, prev: nat, v: nat, n: nat) {
    && n == RepeatCount(e.val, f)
    && v == if e.val < 16 then e.val else if e.val == 16 then prev else 0
  }

  lemma CodeSymbol(cl: Lens, r: SymResult, e: Entry)
    requires |cl| == 19 && Verdict(CODES, cl, r, Action(e.op, e.val), e.bits)
    ensures LensOk(cl) ==> e.bits <= MAX_BITS
    ensures e.val < 19 && match r case Sym(s) => s == e.val && s < 19 && cl[s] == e.bits case BadCode => e.val == 0 && e.bits == 1 case NeedMore => false
  {
  }

  // The step of the reader that the item stands for: an error, or more lengths.
  lemma ItemOutcome(s: BitString, a: Abs, e: Entry, f: nat, v: nat, n: nat) returns (b: Abs)
    requires a.mode.CodeLens? && |a.mode.cl| == 19 && a.pos <= |s| && |a.mode.got| < a.mode.nlen + a.mode.ndist
    requires Verdict(CODES, a.mode.cl, DecodeSym(a.mode.cl, s[a.pos..]), Action(e.op, e.val), e.bits)
    requires e.val < 19 && Has(s, a.pos + e.bits, RepeatBits(e.val)) && f == Field(s, a.pos + e.bits, RepeatBits(e.val))
    requires Item(e, f, if a.mode.got != [] then a.mode.got[|a.mode.got| - 1] else 0, v, n)
    ensures Step(s, a) == Next(b) && b.out == a.out && b.last == a.last
    ensures if e.val == 16 && a.mode.got == [] then b.mode == Bad && b.pos == a.pos + e.bits
            else b.pos == a.pos + e.bits + RepeatBits(e.val) &&
                 if |a.mode.got| + n > a.mode.nlen + a.mode.ndist then b.mode == Bad
                 else b.mode == CodeLens(a.mode.nlen, a.mode.ndist, a.mode.cl, a.mode.got + Repeat(v, n))
  {
    hide Field, DecodeSym, Verdict, Step, Repeat;
    CodeSymbol(a.mode.cl, DecodeSym(a.mode.cl, s[a.pos..]), e);
    CodeLensStepIs(s, a);
    b := StepCodeLens(s, a).a;
    if e.val < 16 {
      OneLength(v);
    }
  }

  lemma OneLength(v: nat)
    ensures Repeat(v, 1) == [v]
  {
  }

  lemma CodeLensStepIs(s: BitString, a: Abs)
    requires a.mode.CodeLens?
    ensures Step(s, a) == StepCodeLens(s, a)
  {
    hide StepCodeLens;
  }

  // An item has been read.
  lemma CodeLensRead(st: Regs, lens: seq<nat>, seen: Bytes, io: Io, a: Abs, hist: Bytes, e: Entry, f: nat, v: nat, n: nat, st': Regs, lens': seq<nat>, drop: nat)
    returns (a': Abs)
    requires Loose(st, lens, seen, io, a, hist) && st.phase == CODELENS && st.have < st.nlen + st.ndist <= |lens| == |lens'|
    requires a.mode.CodeLens? && |a.mode.cl| == 19 && Verdict(CODES, a.mode.cl, Ahead(a.mode.cl, seen, io), Action(e.op, e.val), e.bits)
    requires 1 <= e.bits && e.bits + RepeatBits(e.val) <= io.bits < e.bits + RepeatBits(e.val) + 8
    requires f == Low(Shr(io.hold, e.bits), RepeatBits(e.val)) && Item(e, f, if st.have > 0 then lens[st.have - 1] else 0, v, n)
    requires if e.val == 16 && st.have == 0 then drop == e.bits && st' == st.(phase := BAD) && lens' == lens
             else drop == e.bits + RepeatBits(e.val) &&
                  if st.have + n > st.nlen + st.ndist then st' == st.(phase := BAD) && lens' == lens
                  else st' == st.(have := st.have + n) && lens' == lens[..st.have] + Repeat(v, n) + lens[st.have + n..]
    ensures On(st', lens', seen, Drop(io, drop), a', hist)
    ensures st'.phase == CODELENS ==> a'.mode.CodeLens? && a'.mode.cl == a.mode.cl
  {
    hide Reaches, Accum, BytesToBits, Field, DecodeSym, Loose, Low, Shr, Verdict, Step, RepeatBits, RepeatCount;
    LooseParts(st, lens, seen, io, a, hist);
    CodeSymbol(a.mode.cl, Ahead(a.mode.cl, seen, io), e);
    AccumFieldAt(seen, io.hold, io.bits, e.bits, RepeatBits(e.val));
    AccumDrop(seen, io.hold, io.bits, drop);
    a' := ItemOutcome(BytesToBits(seen), a, e, f, v, n);
    assert a.mode.got == lens[..st.have];
    if st'.phase == CODELENS {
      assert lens'[..st'.have] == lens[..st.have] + Repeat(v, n);
    }
    BadIsStuck(BytesToBits(seen), a');
    Steps1(st, lens, seen, io, a, hist, st', lens', Drop(io, drop), a');
  }

  lemma BadIsStuck(s: BitString, a: Abs)
    ensures a.mode == Bad ==> Step(s, a) == Stuck
  {
  }

  // while (copy--) state->lens[state->have++] = len;
  method PutLengths(lens: array<nat>, at: nat, v: nat, n: nat)
    requires at + n <= lens.Length
    modifies lens
    ensures lens[..] == old(lens[..at]) + Repeat(v, n) + old(lens[at + n..])
  {
    var i: nat := 0;
    while i < n
      invariant i <= n
      invariant forall k :: at <= k < at + i ==> lens[k] == v
      invariant forall k :: 0 <= k < at ==> lens[k] == old(lens[k])
      invariant forall k :: at + i <= k < lens.Length ==> lens[k] == old(lens[k])
    {
      lens[at + i] := v;
      i := i + 1;
    }
  }

  lemma ItemFits(cl: Lens, seen: Bytes, io: Io, e: Entry)
    requires io.bits <= 8 * |seen| && |cl| == 19 && LensOk(cl) && Verdict(CODES, cl, Ahead(cl, seen, io), Action(e.op, e.val), e.bits)
    ensures e.val < 19 && e.bits <= MAX_BITS && RepeatBits(e.val) <= 7 && (e.val < 16 ==> RepeatBits(e.val) == 0)
    ensures ItemThere(cl, seen, io) <==> e.bits + RepeatBits(e.val) <= io.bits || Ahead(cl, seen, io).BadCode?
    ensures Ahead(cl, seen, io).BadCode? ==> e.val == 0 && e.bits == 1
    ensures !Ahead(cl, seen, io).NeedMore?
  {
    hide DecodeSym, BytesToBits, Verdict;
    CodeSymbol(cl, Ahead(cl, seen, io), e);
  }

  // The bits of one item: its symbol and what follows it.
  method NeedItem(codes: array<Entry>, lenbits: nat, io: Io, ghost cl: Lens, ghost seen: Bytes)
    returns (ok: bool, e: Entry, io': Io, ghost seen': Bytes)
    requires TableFor(CODES, cl, codes[..], lenbits) && Accum(seen, io.hold, io.bits) && |cl| == 19
    requires lenbits >= 1 && forall s :: Coded(cl, s) ==> cl[s] <= lenbits
    requires io.bits <= 32 && (io.bits >= 8 ==> !ItemThere(cl, seen, io))
    ensures Accum(seen', io'.hold, io'.bits) && Pulled(seen, io, seen', io') && io'.bits <= 32
    ensures if ok then
              && e.val < 19 && 1 <= e.bits && e.bits + RepeatBits(e.val) <= io'.bits < e.bits + RepeatBits(e.val) + 8
              && Verdict(CODES, cl, Ahead(cl, seen', io'), Action(e.op, e.val), e.bits)
            else io'.next == [] && !ItemThere(cl, seen', io')
  {
    hide TableFor, Accum, DecodeSym, Verdict, Pow2, Usable, Ahead, ItemThere, RepeatBits;
    AccumSize(seen, io.hold, io.bits);
    TableForSize(CODES, cl, codes[..], lenbits);
    TableForUsable(cl, codes[..], lenbits);
    ok, e, io', seen' := DecodeShort(codes, lenbits, io, CODES, cl, seen);
    if !ok {
      NothingThere(cl, seen', io');
      return;
    }
    ItemFits(cl, seen', io', e);
    assert io' == io ==> seen' == seen;
    if e.val >= 16 {
      ghost var io1, seen1 := io', seen';
      ok, io', seen' := NeedBits(io', e.bits + RepeatBits(e.val), seen');
      PulledMore(seen, io, seen1, io1, seen', io');
      AheadStays(cl, seen1, io1, seen', io');
      ItemFits(cl, seen', io', e);
    }
  }

  lemma NothingThere(cl: Lens, seen: Bytes, io: Io)
    requires io.bits <= 8 * |seen| && Ahead(cl, seen, io).NeedMore?
    ensures !ItemThere(cl, seen, io)
  {
    hide DecodeSym;
  }

  lemma TableForUsable(cl: Lens, t: seq<Entry>, root: nat)
    requires TableFor(CODES, cl, t, root)
    ensures Usable(cl) && LensOk(cl)
  {
  }

  // More bytes do not change a symbol that is complete.
  lemma AheadStays(cl: Lens, seen: Bytes, io: Io, seen': Bytes, io': Io)
    requires Usable(cl) && Pulled(seen, io, seen', io') && !Ahead(cl, seen, io).NeedMore?
    ensures Ahead(cl, seen', io') == Ahead(cl, seen, io)
  {
    hide DecodeSym, BytesToBits, Usable;
    MoreBits(seen, seen');
    SymStable(BytesToBits(seen), BytesToBits(seen'[|seen|..]), Pos(seen, io), cl);
  }

  // What an item does to the lengths.
  method TakeItem(lens: array<nat>, e: Entry, st: Regs, io: Io, ghost seen: Bytes, ghost a: Abs, ghost hist: Bytes)
    returns (st': Regs, io': Io, ghost a': Abs)
    requires Loose(st, lens[..], seen, io, a, hist) && st.phase == CODELENS && st.have < st.nlen + st.ndist <= lens.Length
    requires a.mode.CodeLens? && |a.mode.cl| == 19 && Verdict(CODES, a.mode.cl, Ahead(a.mode.cl, seen, io), Action(e.op, e.val), e.bits)
    requires e.val < 19 && 1 <= e.bits && e.bits + RepeatBits(e.val) <= io.bits < e.bits + RepeatBits(e.val) + 8 && io.bits <= 8 * |seen|
    modifies lens
    ensures On(st', lens[..], seen, io', a', hist) && io'.bits < io.bits
    ensures io'.next == io.next && io'.put == io.put && io'.left == io.left
    ensures st'.phase == BAD || (st' == st.(have := st'.have) && st'.have <= st.nlen + st.ndist && a'.mode.CodeLens? && a'.mode.cl == a.mode.cl)
  {
    hide Rep, Accum, BytesToBits, Pow2, Low, Shr, Step, Loose, Verdict, DecodeSym, On;
    ghost var lens1 := lens[..];
    io' := Drop(io, e.bits);
    ghost var f := Low(io'.hold, RepeatBits(e.val));
    var len, copy := 0, 1;
    if e.val < 16 {
      len := e.val;
    } else if e.val == 16 {
      if st.have == 0 {
        st' := st.(phase := BAD);
        a' := CodeLensRead(st, lens1, seen, io, a, hist, e, f, 0, RepeatCount(e.val, f), st', lens1, e.bits);
        return;
      }
      len := lens[st.have - 1];
      copy := 3 + Low(io'.hold, 2);
    } else if e.val == 17 {
      copy := 3 + Low(io'.hold, 3);
    } else {
      copy := 11 + Low(io'.hold, 7);
    }
    DropTwice(io, e.bits, RepeatBits(e.val));
    io' := Drop(io', RepeatBits(e.val));
    if st.have + copy > st.nlen + st.ndist {
      st' := st.(phase := BAD);
    } else {
      PutLengths(lens, st.have, len, copy);
      st' := st.(have := st.have + copy);
    }
    a' := CodeLensRead(st, lens1, seen, io, a, hist, e, f, len, copy, st', lens[..], e.bits + RepeatBits(e.val));
  }

  // One item of the sequence of lengths.
  method ReadItem(lens: array<nat>, codes: array<Entry>, lenbits: nat, st: Regs, io: Io, ghost seen: Bytes, ghost a: Abs, ghost hist: Bytes)
    returns (go: bool, st': Regs, io': Io, ghost seen': Bytes, ghost a': Abs)
    requires On(st, lens[..], seen, io, a, hist) && st.phase == CODELENS && st.have < st.nlen + st.ndist <= lens.Length
    requires a.mode.CodeLens? && |a.mode.cl| == 19 && TableFor(CODES, a.mode.cl, codes[..], lenbits)
    requires lenbits >= 1 && forall s :: Coded(a.mode.cl, s) ==> a.mode.cl[s] <= lenbits
    modifies lens
    ensures On(st', lens[..], seen', io', a', hist) && Moved(seen, io, seen', io') && io'.left == io.left
    ensures if go then Unread(io') < Unread(io) else
              st' == st && a' == a && io'.next == [] && Unread(io') == Unread(io) && Step(BytesToBits(seen'), a') == Stuck
    ensures st'.phase == BAD || (st' == st.(have := st'.have) && st'.have <= st.nlen + st.ndist && a'.mode.CodeLens? && a'.mode.cl == a.mode.cl)
  {
    hide Rep, Accum, BytesToBits, Pow2, Low, Shr, Step, Loose, Reaches, TableFor, Verdict, DecodeSym, Onward;
    LooseParts(st, lens[..], seen, io, a, hist);
    CodeLensNeeds(st, lens[..], seen, io, a, hist);
    if io.bits >= 8 {
      assert !ItemThere(a.mode.cl, seen, io);
    }
    var e;
    st', a' := st, a;
    go, e, io', seen' := NeedItem(codes, lenbits, io, a.mode.cl, seen);
    Waits(st, lens[..], seen, io, a, hist, seen', io');
    CodeLensNeeds(st, lens[..], seen', io', a, hist);
    if !go {
      return;
    }
    st', io', a' := TakeItem(lens, e, st, io', seen', a, hist);
  }

  // ----- the tables of the block ---------------------------------------------------------------------------------------

  lemma BlockTable(kind: Kind, lens: Lens, t: seq<Entry>, root: nat)
    requires |lens| <= SymbolLimit(kind) && LensOk(lens) && Acceptable(kind, lens) && Decodes(lens, Actions(kind), t, root)
    ensures TableFor(kind, lens, t, root) && 1 <= root <= MAX_BITS
  {
    hide Acceptable;
    AcceptableIsUsable(kind, lens);
  }

  lemma ItemsRead(st: Regs, lens: seq<nat>, seen: Bytes, io: Io, a: Abs, hist: Bytes)
    requires On(st, lens, seen, io, a, hist) && st.phase == CODELENS && st.have == st.nlen + st.ndist <= |lens|
    ensures st.nlen <= 286 && st.ndist <= 30 && a.mode.CodeLens? && a.mode.got == lens[..st.nlen + st.ndist]
    ensures LensOk(lens[..st.nlen]) && LensOk(lens[st.nlen..st.nlen + st.ndist])
  {
    hide Reaches, Accum, BytesToBits, Usable;
    SaneNow(st, lens, seen, io, a, hist);
  }

  lemma CodeLensEnds(st: Regs, lens: seq<nat>, seen: Bytes, io: Io, a: Abs, hist: Bytes, st': Regs) returns (a': Abs)
    requires On(st, lens, seen, io, a, hist) && st.phase == CODELENS && st.have == st.nlen + st.ndist <= |lens|
    requires var l, d := lens[..st.nlen], lens[st.nlen..st.nlen + st.ndist];
             st' == if Acceptable(LENS, l) && Acceptable(DISTS, d) then st.(phase := LEN) else st.(phase := BAD)
    ensures On(st', lens, seen, io, a', hist)
    ensures st'.phase == LEN ==> a'.l == lens[..st.nlen] && a'.d == lens[st.nlen..st.nlen + st.ndist]
  {
    hide Reaches, Accum, BytesToBits, Field, Acceptable, Loose, DecodeSym;
    ItemsRead(st, lens, seen, io, a, hist);
    LooseParts(st, lens, seen, io, a, hist);
    var got := a.mode.got;
    assert got[..st.nlen] == lens[..st.nlen] && got[st.nlen..] == lens[st.nlen..st.nlen + st.ndist];
    a' := StepCodeLens(BytesToBits(seen), a).a;
    LeanBits(seen, io.bits, a);
    Steps1(st, lens, seen, io, a, hist, st', lens, io, a');
  }

  // Both tables are built, or one of the two sets of lengths is refused.
  method BuildTables(lens: array<nat>, codes: array<Entry>, dcodes: array<Entry>, work: array<nat>, st: Regs, io: Io, lenbits: nat, distbits: nat,
      ghost seen: Bytes, ghost a: Abs, ghost hist: Bytes)
    returns (st': Regs, lenbits': nat, distbits': nat, ghost a': Abs)
    requires On(st, lens[..], seen, io, a, hist) && st.phase == CODELENS && st.have == st.nlen + st.ndist <= lens.Length
    requires codes.Length >= R.Space(LENS, 9) && dcodes.Length >= R.Space(DISTS, 6) && work.Length >= 288 && lens != work && codes != dcodes
    modifies codes, dcodes, work
    ensures On(st', lens[..], seen, io, a', hist) && (st'.phase == LEN || st'.phase == BAD)
    ensures st'.phase == LEN ==>
              && TableFor(LENS, a'.l, codes[..], lenbits') && TableFor(DISTS, a'.d, dcodes[..], distbits')
              && 1 <= lenbits' <= MAX_BITS && 1 <= distbits' <= MAX_BITS
  {
    hide On, R.Space, TableFor, Acceptable, Decodes, R.Limit;
    ItemsRead(st, lens[..], seen, io, a, hist);
    R.EnoughIsEnough();
    st', lenbits', distbits' := st, lenbits, distbits;
    var l, d := lens[..st.nlen], lens[st.nlen..st.nlen + st.ndist];
    var ret, used;
    ret, used, lenbits' := T.InflateTable(LENS, l, codes, 9, work);
    if ret != 0 {
      st' := st.(phase := BAD);
      a' := CodeLensEnds(st, lens[..], seen, io, a, hist, st');
      return;
    }
    ret, used, distbits' := T.InflateTable(DISTS, d, dcodes, 6, work);
    if ret != 0 {
      st' := st.(phase := BAD);
      a' := CodeLensEnds(st, lens[..], seen, io, a, hist, st');
      return;
    }
    st' := st.(phase := LEN);
    BlockTable(LENS, l, codes[..], lenbits');
    BlockTable(DISTS, d, dcodes[..], distbits');
    a' := CodeLensEnds(st, lens[..], seen, io, a, hist, st');
  }

  lemma CodeLensBounds(st: Regs, lens: seq<nat>, seen: Bytes, io: Io, a: Abs, hist: Bytes)
    requires On(st, lens, seen, io, a, hist) && st.phase == CODELENS
    ensures a.mode.CodeLens? && |a.mode.cl| == 19 && st.nlen + st.ndist <= 316 && st.have <= st.nlen + st.ndist
  {
    hide Reaches, Accum, BytesToBits, Usable;
    SaneNow(st, lens, seen, io, a, hist);
  }

  method CodeLensState(lens: array<nat>, codes: array<Entry>, dcodes: array<Entry>, work: array<nat>, st: Regs, io: Io, lenbits: nat, distbits: nat,
      ghost seen: Bytes, ghost a: Abs, ghost hist: Bytes)
    returns (go: bool, st': Regs, io': Io, lenbits': nat, distbits': nat, ghost seen': Bytes, ghost a': Abs)
    requires On(st, lens[..], seen, io, a, hist) && st.phase == CODELENS && lens.Length == 320
    requires a.mode.CodeLens? && TableFor(CODES, a.mode.cl, codes[..], lenbits)
    requires lenbits >= 1 && forall s :: Coded(a.mode.cl, s) ==> a.mode.cl[s] <= lenbits
    requires codes.Length >= R.Space(LENS, 9) && dcodes.Length >= R.Space(DISTS, 6) && work.Length >= 288 && lens != work && codes != dcodes
    modifies lens, codes, dcodes, work
    ensures On(st', lens[..], seen', io', a', hist) && Moved(seen, io, seen', io')
    ensures if go then Onward(st, io, st', io') else
              && st'.phase == CODELENS && io'.next == [] && Step(BytesToBits(seen'), a') == Stuck && a'.mode.CodeLens? && a'.mode.cl == a.mode.cl
              && codes[..] == old(codes[..]) && dcodes[..] == old(dcodes[..]) && lenbits' == lenbits && distbits' == distbits
    ensures go ==> st'.phase == LEN || st'.phase == BAD
    ensures st'.phase == LEN ==>
              && TableFor(LENS, a'.l, codes[..], lenbits') && TableFor(DISTS, a'.d, dcodes[..], distbits')
              && 1 <= lenbits' <= MAX_BITS && 1 <= distbits' <= MAX_BITS
  {
    hide On, TableFor, R.Space, Pow2;
    st', io', seen', a', lenbits', distbits' := st, io, seen, a, lenbits, distbits;
    CodeLensBounds(st, lens[..], seen, io, a, hist);
    while st'.have < st'.nlen + st'.ndist
      invariant On(st', lens[..], seen', io', a', hist) && Moved(seen, io, seen', io') && Unread(io') <= Unread(io) && io'.left == io.left
      invariant st' == st.(have := st'.have) && st'.have <= st.nlen + st.ndist && a'.mode.CodeLens? && a'.mode.cl == a.mode.cl
      invariant codes[..] == old(codes[..]) && dcodes[..] == old(dcodes[..])
      decreases Unread(io')
    {
      ghost var io1, seen1, st1 := io', seen', st';
      go, st', io', seen', a' := ReadItem(lens, codes, lenbits, st', io', seen', a', hist);
      MovedMore(seen, io, seen1, io1, seen', io');
      if !go || st'.phase == BAD {
        return;
      }
    }
    go := true;
    st', lenbits', distbits', a' := BuildTables(lens, codes, dcodes, work, st', io', lenbits, distbits, seen', a', hist);
  }
}
