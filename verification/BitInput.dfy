/** inflate.c: the input bit accumulator and its macros, and the table lookups that feed it a byte at a
    time. Whatever the byte boundaries at which input arrives, fields and symbols are read in order. */
module BitInput {
  import opened Bits
  import opened Canonical
  import opened InfTreesSpec
  import opened Format
  import BitOutput

  // The registers that LOAD() and RESTORE() move: the accumulator, the input still to be read, the
  // output of this call and the room left for it.
  datatype Io = Io(hold: nat, bits: nat, next: Bytes, put: Bytes, left: nat)

  // The accumulator holds the last `bits` bits of the bytes pulled so far.
  ghost predicate Accum(seen: Bytes, hold: nat, bits: nat) {
    && bits <= 8 * |seen| && hold < Pow2(bits)
    && BytesToBits(seen)[8 * |seen| - bits..] == ToBits(hold, bits)
  }

  // How many bits have been used.
  ghost function Pos(seen: Bytes, io: Io): nat
    requires io.bits <= 8 * |seen|
  {
    8 * |seen| - io.bits
  }

  // Bytes may have moved from the input to the accumulator, and nothing else.
  ghost predicate Pulled(seen: Bytes, io: Io, seen': Bytes, io': Io) {
    && seen <= seen' && seen' + io'.next == seen + io.next && io'.put == io.put && io'.left == io.left
    && io'.bits <= 8 * |seen'| && io.bits <= 8 * |seen| && Pos(seen', io') == Pos(seen, io)
  }

  lemma PulledMore(s0: Bytes, io0: Io, s1: Bytes, io1: Io, s2: Bytes, io2: Io)
    requires Pulled(s0, io0, s1, io1) && Pulled(s1, io1, s2, io2)
    ensures Pulled(s0, io0, s2, io2)
  {
  }

  lemma AccumPull(seen: Bytes, hold: nat, bits: nat, b: byte)
    requires Accum(seen, hold, bits)
    ensures Accum(seen + [b], hold + Shl(b, bits), bits + 8)
    ensures Low(hold + Shl(b, bits), bits) == hold
  {
    hide ToBits, BytesToBits, Pow2, Shl, Low;
    Pow2Values();
    BitOutput.ShlDisjoint(hold, b, bits, 8);
    BitOutput.OneByte(seen, b);
    ShrOfShl(b, hold, bits);
    assert (BytesToBits(seen) + ToBits(b, 8))[8 * |seen| - bits..] == BytesToBits(seen)[8 * |seen| - bits..] + ToBits(b, 8);
  }

  // BITS(n).
  lemma AccumField(seen: Bytes, hold: nat, bits: nat, n: nat)
    requires Accum(seen, hold, bits) && n <= bits
    ensures var s, pos := BytesToBits(seen), 8 * |seen| - bits;
            Has(s, pos, n) && Field(s, pos, n) == Low(hold, n)
  {
    hide ToBits, BytesToBits, Pow2, Low, Field;
    FieldOf(BytesToBits(seen), 8 * |seen| - bits, hold, bits, n);
  }

  lemma FieldOf(s: BitString, pos: nat, hold: nat, bits: nat, n: nat)
    requires pos <= |s| && s[pos..] == ToBits(hold, bits) && n <= bits
    ensures Has(s, pos, n) && Field(s, pos, n) == Low(hold, n)
  {
    hide ToBits, Pow2, Shr, Low, FromBits;
    ToBitsConcat(hold, n, bits - n);
    Leading(s, pos, ToBits(hold, n), ToBits(Shr(hold, n), bits - n));
    FromToBits(hold, n);
  }

  lemma Leading(s: BitString, pos: nat, a: BitString, b: BitString)
    requires pos <= |s| && s[pos..] == a + b
    ensures pos + |a| <= |s| && s[pos..pos + |a|] == a
  {
    assert s[pos..pos + |a|] == s[pos..][..|a|];
  }

  // DROPBITS(n).
  lemma AccumDrop(seen: Bytes, hold: nat, bits: nat, n: nat)
    requires Accum(seen, hold, bits) && n <= bits
    ensures Accum(seen, Shr(hold, n), bits - n)
  {
    hide ToBits, BytesToBits, Pow2, Shr;
    var s, pos := BytesToBits(seen), 8 * |seen| - bits;
    ToBitsConcat(hold, n, bits - n);
    ShrBelow(hold, n, bits - n);
    assert s[pos + n..] == s[pos..][n..];
  }

  // A later field of the accumulator.
  lemma AccumFieldAt(seen: Bytes, hold: nat, bits: nat, k: nat, n: nat)
    requires Accum(seen, hold, bits) && k + n <= bits
    ensures var s, pos := BytesToBits(seen), 8 * |seen| - bits;
            Has(s, pos + k, n) && Field(s, pos + k, n) == Low(Shr(hold, k), n)
  {
    hide ToBits, BytesToBits, Pow2, Shr, Low, FromBits, Field, Accum;
    assert bits <= 8 * |seen| by { AccumSize(seen, hold, bits); }
    AccumDrop(seen, hold, bits, k);
    AccumField(seen, Shr(hold, k), bits - k, n);
  }

  lemma AccumSize(seen: Bytes, hold: nat, bits: nat)
    requires Accum(seen, hold, bits)
    ensures bits <= 8 * |seen| && hold < Pow2(bits) && |BytesToBits(seen)| == 8 * |seen|
  {
  }

  function Drop(io: Io, n: nat): Io
    requires n <= io.bits
  {
    io.(hold := Shr(io.hold, n), bits := io.bits - n)
  }

  lemma DropTwice(io: Io, n: nat, m: nat)
    requires n + m <= io.bits
    ensures Drop(Drop(io, n), m) == Drop(io, n + m)
  {
    ShrShr(io.hold, n, m);
  }

  // PULLBYTE.
  method PullByte(io: Io, ghost seen: Bytes) returns (io': Io, ghost seen': Bytes)
    requires Accum(seen, io.hold, io.bits) && io.next != []
    ensures Accum(seen', io'.hold, io'.bits) && Pulled(seen, io, seen', io')
    ensures io'.bits == io.bits + 8 && io'.next == io.next[1..] && Low(io'.hold, io.bits) == io.hold
    ensures seen' == seen + [io.next[0]]
  {
    hide Pow2, Shl, BytesToBits, ToBits, Low;
    AccumPull(seen, io.hold, io.bits, io.next[0]);
    seen' := seen + [io.next[0]];
    io' := io.(hold := io.hold + Shl(io.next[0], io.bits), bits := io.bits + 8, next := io.next[1..]);
    assert seen + [io.next[0]] + io.next[1..] == seen + io.next;
  }

  // NEEDBITS(n): false if the input runs out first.
  method NeedBits(io: Io, n: nat, ghost seen: Bytes) returns (ok: bool, io': Io, ghost seen': Bytes)
    requires Accum(seen, io.hold, io.bits)
    ensures Accum(seen', io'.hold, io'.bits) && Pulled(seen, io, seen', io')
    ensures if ok then io'.bits >= n && io'.bits <= (if io.bits >= n then io.bits else n + 7) else io'.bits < n && io'.next == []
    ensures io.bits >= n ==> io' == io && seen' == seen
  {
    hide Accum;
    io', seen' := io, seen;
    assert Pulled(seen, io, seen, io) by { AccumSize(seen, io.hold, io.bits); }
    while io'.bits < n
      invariant Accum(seen', io'.hold, io'.bits) && Pulled(seen, io, seen', io')
      invariant io'.bits <= (if io.bits >= n then io.bits else n + 7)
      invariant io.bits >= n ==> io' == io && seen' == seen
      decreases |io'.next|
    {
      if io'.next == [] {
        return false, io', seen';
      }
      ghost var io1, seen1 := io', seen';
      io', seen' := PullByte(io', seen');
      PulledMore(seen, io, seen1, io1, seen', io');
    }
    ok := true;
  }

  // ----- looking up a symbol -------------------------------------------------------------------------------------

  // A table that decodes a code which inflate has let through.
  ghost predicate TableFor(kind: Kind, lens: Lens, t: seq<Entry>, root: nat) {
    && |lens| <= SymbolLimit(kind) && Usable(lens) && Acceptable(kind, lens) && Decodes(lens, Actions(kind), t, root)
  }

  // What a lookup that uses n bits has found.
  ghost predicate Verdict(kind: Kind, lens: Lens, r: SymResult, act: Action, n: nat)
    requires |lens| <= SymbolLimit(kind)
  {
    match r
    case Sym(s) => Coded(lens, s) && act == SymAction(kind, s) && n == lens[s]
    case BadCode => act == INVALID && n == 1
    case NeedMore => false
  }

  ghost predicate SomeLength(lens: Lens, n: nat) {
    n == 1 || exists s :: Coded(lens, s) && lens[s] == n
  }

  ghost predicate SomeAction(kind: Kind, act: Action) {
    act == INVALID || exists s: nat :: s < SymbolLimit(kind) && act == SymAction(kind, s)
  }

  // The bits at hand, padded with zeros, always lead to some entry; it is right if it uses no more bits
  // than there are, and otherwise no symbol is complete.
  ghost predicate Looked(kind: Kind, lens: Lens, t: seq<Entry>, root: nat, w: nat, rest: BitString, act: Action, n: nat)
    requires |lens| <= SymbolLimit(kind)
  {
    && LooksUp(t, root, w, act, n) && 1 <= n <= MAX_BITS && SomeLength(lens, n) && SomeAction(kind, act)
    && (n <= |rest| ==> Verdict(kind, lens, DecodeSym(lens, rest), act, n))
    && (n > |rest| ==> DecodeSym(lens, rest).NeedMore?)
  }

  lemma MatchedLook(kind: Kind, lens: Lens, t: seq<Entry>, root: nat, w: nat, bits: nat, s: nat)
    requires TableFor(kind, lens, t, root) && w < Pow2(bits) && Coded(lens, s) && Low(w, lens[s]) == RevCode(lens, s)
    ensures Looked(kind, lens, t, root, w, ToBits(w, bits), SymAction(kind, s), lens[s])
  {
    hide Pow2, Low, RevCode, DecodeSym, LooksUp, SymAction, CodeBits, ToBits, FromBits, Acceptable;
    var rest, l := ToBits(w, bits), lens[s];
    assert LooksUp(t, root, w, SymAction(kind, s), l);
    FromToBits(w, bits);
    LowSmall(w, bits);
    if l <= bits {
      CodeStarts(lens, s, rest);
      assert StartsWith(lens, s, rest);
      DecodeSymIs(lens, s, rest);
    } else {
      PartialCode(lens, w, bits, s);
      StillOpen(lens, rest, s);
    }
  }

  // The bits at hand are the beginning of the code of s.
  lemma PartialCode(lens: Lens, w: nat, bits: nat, s: nat)
    requires LensOk(lens) && w < Pow2(bits) && Coded(lens, s) && bits < lens[s] && Low(w, lens[s]) == RevCode(lens, s)
    ensures ToBits(w, bits) <= CodeBits(lens, s)
  {
    hide Pow2, Low, RevCode, CodeBits, ToBits, Shr;
    var l := lens[s];
    RevCodeBits(lens, s);
    ToBitsLow(w, l, l);
    ToBitsConcat(w, bits, l - bits);
  }

  lemma StillOpen(lens: Lens, rest: BitString, s: nat)
    requires Usable(lens) && Coded(lens, s) && rest <= CodeBits(lens, s) && |rest| < lens[s]
    ensures DecodeSym(lens, rest).NeedMore?
  {
    hide CodeBits;
    if exists u :: StartsWith(lens, u, rest) {
      var u :| StartsWith(lens, u, rest);
      var c := CodeBits(lens, s);
      assert CodeBits(lens, u) <= c;
      assert StartsWith(lens, u, c) && StartsWith(lens, s, c);
      UniqueStart(lens, u, s, c);
    }
  }

  lemma ShortPrefix(c: BitString, rest: BitString, more: BitString)
    requires |c| == 1 && rest != []
    ensures rest <= c ==> c <= rest
    ensures c <= rest ==> c <= rest + more
  {
    assert (rest + more)[0] == rest[0];
  }

  lemma StartsNow(lens: Lens, s: nat, rest: BitString)
    requires Coded(lens, s) && CodeBits(lens, s) <= rest
    ensures DecodeSym(lens, rest).Sym?
  {
    assert StartsWith(lens, s, rest);
  }

  lemma UnmatchedLook(kind: Kind, lens: Lens, t: seq<Entry>, root: nat, w: nat, bits: nat)
    requires TableFor(kind, lens, t, root) && w < Pow2(bits) && NoCodeMatches(lens, w)
    ensures Looked(kind, lens, t, root, w, ToBits(w, bits), INVALID, 1)
  {
    hide Pow2, Low, RevCode, LooksUp, SymAction, CodeBits, ToBits, FromBits, Kraft, NotOversubscribed;
    var rest := ToBits(w, bits);
    FromToBits(w, bits);
    LowSmall(w, bits);
    forall s | StartsWith(lens, s, rest)
      ensures false
    {
      CodeStarts(lens, s, rest);
    }
    if Complete(lens) {
      var s := FindRevCode(lens, w);
      assert false;
    } else if bits > 0 {
      forall s | Coded(lens, s)
        ensures !(rest <= CodeBits(lens, s))
      {
        assert OneShortCode(lens);
        ShortPrefix(CodeBits(lens, s), rest, []);
        assert !StartsWith(lens, s, rest);
      }
    }
  }

  lemma Look(kind: Kind, lens: Lens, t: seq<Entry>, root: nat, w: nat, bits: nat) returns (act: Action, n: nat)
    requires TableFor(kind, lens, t, root) && w < Pow2(bits)
    ensures Looked(kind, lens, t, root, w, ToBits(w, bits), act, n)
  {
    hide Looked, TableFor, Pow2, ToBits;
    assert |lens| <= SymbolLimit(kind) by { TableForSize(kind, lens, t, root); }
    if s: nat :| Coded(lens, s) && Low(w, lens[s]) == RevCode(lens, s) {
      MatchedLook(kind, lens, t, root, w, bits, s);
      act, n := SymAction(kind, s), lens[s];
    } else {
      UnmatchedLook(kind, lens, t, root, w, bits);
      act, n := INVALID, 1;
    }
  }

  lemma TableForSize(kind: Kind, lens: Lens, t: seq<Entry>, root: nat)
    requires TableFor(kind, lens, t, root)
    ensures |lens| <= SymbolLimit(kind)
  {
  }

  // ----- the lookup loops ----------------------------------------------------------------------------------------

  // What the bits at hand say next.
  ghost function Ahead(lens: Lens, seen: Bytes, io: Io): SymResult
    requires io.bits <= 8 * |seen|
  {
    DecodeSym(lens, BytesToBits(seen)[Pos(seen, io)..])
  }

  // Without the byte pulled last no symbol was complete.
  ghost predicate WasOpen(lens: Lens, seen: Bytes, io: Io)
    requires io.bits <= 8 * |seen|
  {
    io.bits >= 8 && DecodeSym(lens, BytesToBits(seen)[Pos(seen, io)..8 * |seen| - 8]).NeedMore?
  }

  lemma OpenBefore(lens: Lens, seen: Bytes, io: Io, seen': Bytes, io': Io, b: byte)
    requires io.bits <= 8 * |seen| && Ahead(lens, seen, io).NeedMore?
    requires seen' == seen + [b] && io'.bits == io.bits + 8
    ensures WasOpen(lens, seen', io')
  {
    hide DecodeSym, BytesToBits;
    BitOutput.OneByte(seen, b);
    assert BytesToBits(seen')[Pos(seen', io')..8 * |seen'| - 8] == BytesToBits(seen)[Pos(seen, io)..];
  }

  // So less than a byte is left behind the symbol.
  lemma FrugalBits(kind: Kind, lens: Lens, t: seq<Entry>, root: nat, rest: BitString, more: BitString, act: Action, n: nat)
    requires TableFor(kind, lens, t, root) && DecodeSym(lens, rest).NeedMore?
    requires Verdict(kind, lens, DecodeSym(lens, rest + more), act, n)
    ensures n > |rest|
  {
    hide SymAction, CodeBits, Decodes, Kraft, Pow2;
    var r := rest + more;
    if n <= |rest| {
      match DecodeSym(lens, r) {
        case Sym(s) =>
          PrefixesComparable(CodeBits(lens, s), rest, more);
          StartsNow(lens, s, rest);
        case BadCode =>
          BadAtOnce(kind, lens, rest, more);
      }
      assert false;
    }
  }

  lemma BadAtOnce(kind: Kind, lens: Lens, rest: BitString, more: BitString)
    requires Usable(lens) && Acceptable(kind, lens) && DecodeSym(lens, rest + more).BadCode? && rest != []
    ensures DecodeSym(lens, rest).BadCode?
  {
    hide CodeBits, Kraft, Pow2, Low, RevCode, FromBits;
    var r := rest + more;
    if Complete(lens) {
      var s := FindRevCode(lens, FromBits(r));
      if lens[s] <= |r| {
        CodeStarts(lens, s, r);
        StartsNow(lens, s, r);
      } else {
        ToFromBits(r);
        PartialCode(lens, FromBits(r), |r|, s);
      }
      assert false;
    } else {
      forall s | Coded(lens, s)
        ensures !StartsWith(lens, s, rest) && !(rest <= CodeBits(lens, s))
      {
        ShortPrefix(CodeBits(lens, s), rest, more);
        assert !StartsWith(lens, s, r);
      }
    }
  }

  lemma FrugalNow(kind: Kind, lens: Lens, t: seq<Entry>, root: nat, seen: Bytes, io: Io, act: Action, n: nat)
    requires TableFor(kind, lens, t, root) && io.bits <= 8 * |seen| && WasOpen(lens, seen, io) && |lens| <= SymbolLimit(kind)
    requires Verdict(kind, lens, Ahead(lens, seen, io), act, n)
    ensures io.bits < n + 8
  {
    hide TableFor, Verdict, DecodeSym, BytesToBits;
    var s, p := BytesToBits(seen), Pos(seen, io);
    assert s[p..] == s[p..|s| - 8] + s[|s| - 8..];
    FrugalBits(kind, lens, t, root, s[p..|s| - 8], s[|s| - 8..], act, n);
  }

  lemma LookNow(kind: Kind, lens: Lens, t: seq<Entry>, root: nat, seen: Bytes, io: Io) returns (act: Action, n: nat)
    requires TableFor(kind, lens, t, root) && Accum(seen, io.hold, io.bits)
    ensures io.bits <= 8 * |seen| && |lens| <= SymbolLimit(kind)
    ensures LooksUp(t, root, io.hold, act, n) && 1 <= n <= MAX_BITS && SomeLength(lens, n) && SomeAction(kind, act)
    ensures if n <= io.bits then Verdict(kind, lens, Ahead(lens, seen, io), act, n) else Ahead(lens, seen, io).NeedMore?
  {
    hide TableFor, LooksUp, Verdict, Pow2, DecodeSym, ToBits;
    AccumSize(seen, io.hold, io.bits);
    TableForSize(kind, lens, t, root);
    act, n := Look(kind, lens, t, root, io.hold, io.bits);
  }

  lemma ShortEntry(t: seq<Entry>, root: nat, w: nat, act: Action, n: nat)
    requires LooksUp(t, root, w, act, n) && n <= root
    ensures Low(w, root) < |t| && t[Low(w, root)] == Entry(act.op, n, act.val) && !IsLink(t[Low(w, root)])
  {
  }

  // The single-level loop of the code length code.
  method DecodeShort(t: array<Entry>, root: nat, io: Io, ghost kind: Kind, ghost lens: Lens, ghost seen: Bytes)
    returns (ok: bool, e: Entry, io': Io, ghost seen': Bytes)
    requires TableFor(kind, lens, t[..], root) && Accum(seen, io.hold, io.bits)
    requires root >= 1 && forall s :: Coded(lens, s) ==> lens[s] <= root
    ensures Accum(seen', io'.hold, io'.bits) && Pulled(seen, io, seen', io') && |lens| <= SymbolLimit(kind)
    ensures ok ==> 1 <= e.bits <= io'.bits && Verdict(kind, lens, Ahead(lens, seen', io'), Action(e.op, e.val), e.bits)
    ensures ok ==> io' == io || io'.bits < e.bits + 8
    ensures io'.bits <= io.bits || io'.bits < MAX_BITS + 8
    ensures !ok ==> io'.next == [] && Ahead(lens, seen', io').NeedMore?
  {
    hide TableFor, Pow2, DecodeSym, Accum, Low, SymAction, Verdict, LooksUp, WasOpen;
    io', seen' := io, seen;
    assert Pulled(seen, io, seen, io) by { AccumSize(seen, io.hold, io.bits); }
    while true
      invariant Accum(seen', io'.hold, io'.bits) && Pulled(seen, io, seen', io')
      invariant io'.bits <= io.bits || io'.bits < MAX_BITS + 8
      invariant io' == io || WasOpen(lens, seen', io')
      decreases |io'.next|
    {
      ghost var act, n := LookNow(kind, lens, t[..], root, seen', io');
      assert n <= root;
      ShortEntry(t[..], root, io'.hold, act, n);
      e := t[Low(io'.hold, root)];
      if e.bits <= io'.bits {
        if io' != io {
          FrugalNow(kind, lens, t[..], root, seen', io', act, n);
        }
        return true, e, io', seen';
      }
      if io'.next == [] {
        return false, e, io', seen';
      }
      ghost var io1, seen1 := io', seen';
      io', seen' := PullByte(io', seen');
      OpenBefore(lens, seen1, io1, seen', io', io1.next[0]);
      PulledMore(seen, io, seen1, io1, seen', io');
    }
  }

  lemma DistanceOps(act: Action)
    requires SomeAction(DISTS, act)
    ensures act.op >= 16
  {
  }

  // Only a link goes on to a sub-table.
  lemma LongEntry(kind: Kind, t: seq<Entry>, root: nat, w: nat, act: Action, n: nat)
    requires LooksUp(t, root, w, act, n) && SomeAction(kind, act)
    ensures Low(w, root) < |t|
    ensures var e := t[Low(w, root)];
            if IsLink(e) then
              && e.bits == root && e.val + Low(Shr(w, root), e.op) < |t|
              && t[e.val + Low(Shr(w, root), e.op)] == Entry(act.op, n - root, act.val) && n > root
            else e == Entry(act.op, n, act.val)
    ensures kind == DISTS ==> (IsLink(t[Low(w, root)]) <==> t[Low(w, root)].op < 16)
  {
    hide Low, Shr, SomeAction;
    if kind == DISTS {
      DistanceOps(act);
    }
  }

  // BITS(a + b) >> a.
  lemma UpperField(w: nat, a: nat, b: nat)
    ensures Shr(Low(w, a + b), a) == Low(Shr(w, a), b)
  {
    ShrOfLow(w, a, b);
  }

  // Pulling bytes does not change what the root index has shown.
  lemma SameIndex(w: nat, w': nat, a: nat, b: nat)
    requires Low(w', b) == w && w < Pow2(b) && a <= b
    ensures Low(w', a) == Low(w, a)
  {
    LowLow(w', a, b);
  }

  // The root part of a lookup: enough bits for the root entry.
  method DecodeRoot(kind: Kind, t: array<Entry>, root: nat, io: Io, ghost lens: Lens, ghost seen: Bytes)
    returns (ok: bool, e: Entry, io': Io, ghost seen': Bytes)
    requires TableFor(kind, lens, t[..], root) && Accum(seen, io.hold, io.bits) && 1 <= root <= MAX_BITS
    ensures Accum(seen', io'.hold, io'.bits) && Pulled(seen, io, seen', io')
    ensures io' == io || WasOpen(lens, seen', io')
    ensures io'.bits <= io.bits || io'.bits < MAX_BITS + 8
    ensures ok ==> e.bits <= io'.bits && Low(io'.hold, root) < t.Length && e == t[Low(io'.hold, root)]
    ensures !ok ==> io'.next == [] && Ahead(lens, seen', io').NeedMore?
  {
    hide TableFor, Pow2, DecodeSym, Accum, Low, SymAction, Verdict, LooksUp, WasOpen, SomeAction, SomeLength;
    io', seen' := io, seen;
    assert Pulled(seen, io, seen, io) by { AccumSize(seen, io.hold, io.bits); }
    while true
      invariant Accum(seen', io'.hold, io'.bits) && Pulled(seen, io, seen', io')
      invariant io'.bits <= io.bits || io'.bits < MAX_BITS + 8
      invariant io' == io || WasOpen(lens, seen', io')
      decreases |io'.next|
    {
      ghost var act, n := LookNow(kind, lens, t[..], root, seen', io');
      LongEntry(kind, t[..], root, io'.hold, act, n);
      e := t[Low(io'.hold, root)];
      if e.bits <= io'.bits {
        return true, e, io', seen';
      }
      assert n > io'.bits;
      if io'.next == [] {
        return false, e, io', seen';
      }
      ghost var io1, seen1 := io', seen';
      io', seen' := PullByte(io', seen');
      OpenBefore(lens, seen1, io1, seen', io', io1.next[0]);
      PulledMore(seen, io, seen1, io1, seen', io');
    }
  }

  // The part behind a link.
  method DecodeLink(kind: Kind, t: array<Entry>, root: nat, last: Entry, io: Io, ghost lens: Lens, ghost seen: Bytes, ghost io0: Io)
    returns (ok: bool, e: Entry, io': Io, ghost seen': Bytes)
    requires TableFor(kind, lens, t[..], root) && Accum(seen, io.hold, io.bits) && 1 <= root <= MAX_BITS
    requires root <= io.bits && Low(io.hold, root) < t.Length && last == t[Low(io.hold, root)] && IsLink(last)
    requires io == io0 || WasOpen(lens, seen, io)
    requires io.bits <= io0.bits || io.bits < MAX_BITS + 8
    ensures Accum(seen', io'.hold, io'.bits) && Pulled(seen, io, seen', io') && |lens| <= SymbolLimit(kind)
    ensures io' == io0 || WasOpen(lens, seen', io')
    ensures io'.bits <= io0.bits || io'.bits < MAX_BITS + 8
    ensures last.bits == root
    ensures ok ==> e.bits >= 1 && root + e.bits <= io'.bits && Verdict(kind, lens, Ahead(lens, seen', io'), Action(e.op, e.val), root + e.bits)
    ensures !ok ==> io'.next == [] && Ahead(lens, seen', io').NeedMore?
  {
    hide TableFor, Pow2, DecodeSym, Accum, Low, Shr, SymAction, Verdict, LooksUp, WasOpen, SomeAction, SomeLength;
    io', seen' := io, seen;
    assert Pulled(seen, io, seen, io) by { AccumSize(seen, io.hold, io.bits); }
    while true
      invariant Accum(seen', io'.hold, io'.bits) && Pulled(seen, io, seen', io')
      invariant io' == io0 || WasOpen(lens, seen', io')
      invariant io'.bits <= io0.bits || io'.bits < MAX_BITS + 8
      invariant io.bits <= io'.bits && Low(io'.hold, root) == Low(io.hold, root)
      decreases |io'.next|
    {
      ghost var act, n := LookNow(kind, lens, t[..], root, seen', io');
      LongEntry(kind, t[..], root, io'.hold, act, n);
      UpperField(io'.hold, root, last.op);
      e := t[last.val + Shr(Low(io'.hold, last.bits + last.op), last.bits)];
      if last.bits + e.bits <= io'.bits {
        return true, e, io', seen';
      }
      if io'.next == [] {
        return false, e, io', seen';
      }
      ghost var io1, seen1 := io', seen';
      io', seen' := PullByte(io', seen');
      AccumSize(seen1, io1.hold, io1.bits);
      SameIndex(io1.hold, io'.hold, root, io1.bits);
      OpenBefore(lens, seen1, io1, seen', io', io1.next[0]);
      PulledMore(seen, io, seen1, io1, seen', io');
    }
  }

  lemma Settled(kind: Kind, lens: Lens, r: SymResult, act: Action, n: nat)
    requires |lens| <= SymbolLimit(kind) && Verdict(kind, lens, r, act, n)
    ensures !r.NeedMore?
  {
  }

  // A symbol through the root table and, behind a link, a sub-table. `drop` is what the root part uses.
  method Decode(kind: Kind, t: array<Entry>, root: nat, io: Io, ghost lens: Lens, ghost seen: Bytes)
    returns (ok: bool, e: Entry, drop: nat, io': Io, ghost seen': Bytes)
    requires kind != CODES && TableFor(kind, lens, t[..], root) && Accum(seen, io.hold, io.bits) && 1 <= root <= MAX_BITS
    ensures Accum(seen', io'.hold, io'.bits) && Pulled(seen, io, seen', io') && |lens| <= SymbolLimit(kind)
    ensures ok ==> !Ahead(lens, seen', io').NeedMore?
    ensures ok ==> 1 <= drop + e.bits <= io'.bits && Verdict(kind, lens, Ahead(lens, seen', io'), Action(e.op, e.val), drop + e.bits)
    ensures ok ==> io' == io || io'.bits < drop + e.bits + 8
    ensures io'.bits <= io.bits || io'.bits < MAX_BITS + 8
    ensures !ok ==> io'.next == [] && Ahead(lens, seen', io').NeedMore?
  {
    hide TableFor, Pow2, DecodeSym, Accum, Low, Shr, SymAction, Verdict, LooksUp, WasOpen, SomeAction, SomeLength;
    drop := 0;
    ok, e, io', seen' := DecodeRoot(kind, t, root, io, lens, seen);
    TableForSize(kind, lens, t[..], root);
    if !ok {
      return;
    }
    ghost var act, n := LookNow(kind, lens, t[..], root, seen', io');
    LongEntry(kind, t[..], root, io'.hold, act, n);
    if e.op < 16 && (e.op != 0 || kind == DISTS) {
      var last := e;
      ghost var io1, seen1 := io', seen';
      ok, e, io', seen' := DecodeLink(kind, t, root, last, io', lens, seen', io);
      PulledMore(seen, io, seen1, io1, seen', io');
      drop := last.bits;
    }
    if ok {
      Settled(kind, lens, Ahead(lens, seen', io'), Action(e.op, e.val), drop + e.bits);
    }
    if ok && io' != io {
      FrugalNow(kind, lens, t[..], root, seen', io', Action(e.op, e.val), drop + e.bits);
    }
  }
}
