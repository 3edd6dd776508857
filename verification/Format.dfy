/** The deflate format (RFC 1951) as a small-step reader of a bit string. Every step either needs bits
    that are not there yet, or is determined by bits that are; so bits that arrive later never change
    what has been decided. The steps are those of the states of `inflate` from TYPE to CHECK, but each
    reads one field, one symbol or one byte, and the whole output stands in for the window. */
module Format {
  import opened Bits
  import opened Canonical
  import opened InfTreesSpec

  datatype Mode =
    | TypeDo
    | Stored
    | Copy(left: nat)
    | Table
    | LenLens(nlen: nat, ndist: nat, ncode: nat, got: seq<nat>)
    | CodeLens(nlen: nat, ndist: nat, cl: Lens, got: Lens)
    | Len
    | LenExt(base: nat, extra: nat)
    | Dist(length: nat)
    | DistExt(length: nat, dbase: nat, extra: nat)
    | Match(length: nat, offset: nat)
    | Lit(b: byte)
    | Check
    | Bad

  // pos: how many bits have been used; l and d: the code lengths of the current block.
  datatype Abs = Abs(pos: nat, last: bool, mode: Mode, l: Lens, d: Lens, out: Bytes)

  datatype Outcome = Stuck | Next(a: Abs)

  const ORDER: seq<nat> := [16, 17, 18, 0, 8, 7, 9, 6, 10, 5, 11, 4, 12, 3, 13, 2, 14, 1, 15]

  // The symbol whose length is sent in place i.
  function OrderOf(i: nat): (sym: nat)
    requires i < 19
    ensures sym < 19
  {
    ORDER[i]
  }

  // ----- fixed codes (section 3.2.6) -----------------------------------------------------------------

  function FixedLit(): (l: Lens)
    ensures |l| == 288
    ensures forall s :: 0 <= s < 288 ==> l[s] == if s < 144 then 8 else if s < 256 then 9 else if s < 280 then 7 else 8
  {
    seq(288, s => if s < 144 then 8 else if s < 256 then 9 else if s < 280 then 7 else 8)
  }

  function FixedDist(): (d: Lens)
    ensures |d| == 32 && forall s :: 0 <= s < 32 ==> d[s] == 5
  {
    seq(32, _ => 5)
  }

  lemma {:induction false} FixedLitKraft(n: nat, m: nat)
    requires n <= 288 && m == 9
    ensures KraftAt(FixedLit(), n, m) ==
            if n <= 144 then 2 * n else if n <= 256 then 288 + (n - 144) else if n <= 280 then 400 + 4 * (n - 256) else 496 + 2 * (n - 280)
  {
    if n > 0 {
      FixedLitKraft(n - 1, m);
      Pow2Values();
    }
  }

  lemma {:induction false} FixedDistKraft(n: nat, m: nat)
    requires n <= 32 && m == 5
    ensures KraftAt(FixedDist(), n, m) == n
  {
    if n > 0 {
      FixedDistKraft(n - 1, m);
    }
  }

  lemma FixedComplete()
    ensures LensOk(FixedLit()) && Complete(FixedLit())
    ensures LensOk(FixedDist()) && Complete(FixedDist())
  {
    hide Pow2, Shl, KraftAt;
    var nine, five, six, ten: nat := 9, 5, 6, 10;
    Pow2Values();
    FixedLitKraft(288, nine);
    KraftScale(FixedLit(), 288, nine, six);
    ShlPow2(nine, six);
    FixedDistKraft(32, five);
    KraftScale(FixedDist(), 32, five, ten);
    ShlPow2(five, ten);
  }

  // ----- reading fields --------------------------------------------------------------------------------

  predicate Has(s: BitString, pos: nat, n: nat) {
    pos + n <= |s|
  }

  function Field(s: BitString, pos: nat, n: nat): (v: nat)
    requires Has(s, pos, n)
    ensures v < Pow2(n)
  {
    FromBits(s[pos..pos + n])
  }

  // The next byte boundary.
  function Up8(pos: nat): (r: nat)
    ensures pos <= r < pos + 8 && r % 8 == 0
  {
    (pos + 7) / 8 * 8
  }

  // The code lengths of the code length code, from the order in which they are sent.
  function Permuted(got: seq<nat>): (cl: Lens)
    ensures |cl| == 19
  {
    PermutedTo(got, |got|)
  }

  function PermutedTo(got: seq<nat>, n: nat): (cl: Lens)
    requires n <= |got|
    ensures |cl| == 19
  {
    if n == 0 then seq(19, _ => 0)
    else
      var cl := PermutedTo(got, n - 1);
      if n <= 19 then cl[OrderOf(n - 1) := got[n - 1]] else cl
  }

  // Where each symbol stands in the order.
  const PLACES: seq<nat> := [3, 17, 15, 13, 11, 9, 7, 5, 4, 6, 8, 10, 12, 14, 16, 18, 0, 1, 2]

  lemma OrderIsPermutation()
    ensures |PLACES| == 19
    ensures forall j :: 0 <= j < 19 ==> 0 <= PLACES[j] < 19 && OrderOf(PLACES[j]) == j
    ensures forall i :: 0 <= i < 19 ==> PLACES[OrderOf(i)] == i
  {
  }

  lemma OrderInjective(i: nat, j: nat)
    requires i < 19 && j < 19 && OrderOf(i) == OrderOf(j)
    ensures i == j
  {
    hide OrderOf, PLACES;
    OrderIsPermutation();
  }

  lemma {:induction false} PermutedAt(got: seq<nat>, n: nat, i: nat)
    requires n <= |got| && n <= 19 && i < 19
    ensures PermutedTo(got, n)[OrderOf(i)] == if i < n then got[i] else 0
  {
    hide OrderOf;
    if n > 0 {
      PermutedAt(got, n - 1, i);
      if i != n - 1 && OrderOf(i) == OrderOf(n - 1) {
        OrderInjective(i, n - 1);
      }
    }
  }

  // Filled up with zeros, the array holds the lengths symbol by symbol.
  lemma PermutedIs(got: seq<nat>, lens: seq<nat>)
    requires |got| <= 19 <= |lens|
    requires forall i :: 0 <= i < |got| ==> lens[OrderOf(i)] == got[i]
    requires forall i :: |got| <= i < 19 ==> lens[OrderOf(i)] == 0
    ensures lens[..19] == Permuted(got)
  {
    hide OrderOf, PLACES, PermutedTo;
    OrderIsPermutation();
    forall j | 0 <= j < 19
      ensures lens[j] == Permuted(got)[j]
    {
      PermutedAt(got, |got|, PLACES[j]);
    }
  }

  function Repeat(v: nat, n: nat): (r: seq<nat>)
    ensures |r| == n && forall i :: 0 <= i < n ==> r[i] == v
  {
    seq(n, _ => v)
  }

  // ----- the steps ---------------------------------------------------------------------------------------

  ghost function StepType(s: BitString, a: Abs): Outcome {
    if a.last then Next(a.(pos := Up8(a.pos), mode := Check))
    else if !Has(s, a.pos, 3) then Stuck
    else
      var b := a.(pos := a.pos + 3, last := s[a.pos]);
      var t := Field(s, a.pos + 1, 2);
      if t == 0 then Next(b.(pos := Up8(b.pos), mode := Stored))
      else if t == 1 then Next(b.(mode := Len, l := FixedLit(), d := FixedDist()))
      else if t == 2 then Next(b.(mode := Table))
      else Next(b.(mode := Bad))
  }

  ghost function StepStored(s: BitString, a: Abs): Outcome {
    if !Has(s, a.pos, 32) then Stuck
    else
      var len, nlen := Field(s, a.pos, 16), Field(s, a.pos + 16, 16);
      if len + nlen != 65535 then Next(a.(mode := Bad))
      else Next(a.(pos := a.pos + 32, mode := Copy(len)))
  }

  ghost function StepCopy(s: BitString, a: Abs): Outcome
    requires a.mode.Copy?
  {
    if a.mode.left == 0 then Next(a.(mode := TypeDo))
    else if !Has(s, a.pos, 8) then Stuck
    else Next(a.(pos := a.pos + 8, mode := Copy(a.mode.left - 1), out := a.out + [ByteAt(s, a.pos)]))
  }

  function ByteAt(s: BitString, pos: nat): byte
    requires Has(s, pos, 8)
  {
    Pow2Values();
    Field(s, pos, 8)
  }

  ghost function StepTable(s: BitString, a: Abs): Outcome {
    if !Has(s, a.pos, 14) then Stuck
    else
      var nlen, ndist, ncode := Field(s, a.pos, 5) + 257, Field(s, a.pos + 5, 5) + 1, Field(s, a.pos + 10, 4) + 4;
      var b := a.(pos := a.pos + 14);
      if nlen > 286 || ndist > 30 then Next(b.(mode := Bad)) else Next(b.(mode := LenLens(nlen, ndist, ncode, [])))
  }

  ghost function StepLenLens(s: BitString, a: Abs): Outcome
    requires a.mode.LenLens?
  {
    var m := a.mode;
    if |m.got| < m.ncode then
      if !Has(s, a.pos, 3) then Stuck
      else Next(a.(pos := a.pos + 3, mode := LenLens(m.nlen, m.ndist, m.ncode, m.got + [Field(s, a.pos, 3)])))
    else if !Acceptable(CODES, Permuted(m.got)) then Next(a.(mode := Bad))
    else Next(a.(mode := CodeLens(m.nlen, m.ndist, Permuted(m.got), [])))
  }

  // How many bits follow a symbol of the code length code, and how many lengths it stands for.
  function RepeatBits(sym: nat): nat {
    if sym < 16 then 0 else if sym == 16 then 2 else if sym == 17 then 3 else 7
  }

  function RepeatCount(sym: nat, extra: nat): nat {
    if sym < 16 then 1 else if sym == 18 then 11 + extra else 3 + extra
  }

  ghost function StepCodeLens(s: BitString, a: Abs): Outcome
    requires a.mode.CodeLens?
  {
    var m := a.mode;
    if |m.got| < m.nlen + m.ndist then
      if a.pos > |s| then Stuck
      else
        match DecodeSym(m.cl, s[a.pos..])
        case NeedMore => Stuck
        // inflate takes the marker entry of an empty code length code for the length zero
        case BadCode => Next(a.(pos := a.pos + 1, mode := CodeLens(m.nlen, m.ndist, m.cl, m.got + [0])))
        case Sym(sym) =>
          var p, x := a.pos + m.cl[sym], RepeatBits(sym);
          if !Has(s, p, x) then Stuck
          else if sym == 16 && m.got == [] then Next(a.(pos := p, mode := Bad))
          else
            var n := RepeatCount(sym, Field(s, p, x));
            var v := if sym < 16 then sym else if sym == 16 then m.got[|m.got| - 1] else 0;
            if |m.got| + n > m.nlen + m.ndist then Next(a.(pos := p + x, mode := Bad))
            else Next(a.(pos := p + x, mode := CodeLens(m.nlen, m.ndist, m.cl, m.got + Repeat(v, n))))
    else if m.nlen <= |m.got| && Acceptable(LENS, m.got[..m.nlen]) && Acceptable(DISTS, m.got[m.nlen..]) then
      Next(a.(mode := Len, l := m.got[..m.nlen], d := m.got[m.nlen..]))
    else Next(a.(mode := Bad))
  }

  ghost function StepLen(s: BitString, a: Abs): Outcome {
    if a.pos > |s| then Stuck
    else
      match DecodeSym(a.l, s[a.pos..])
      case NeedMore => Stuck
      case BadCode => Next(a.(pos := a.pos + 1, mode := Bad))
      case Sym(sym) =>
        var b := a.(pos := a.pos + a.l[sym]);
        if sym < 256 then Next(b.(mode := Lit(sym)))
        else if sym == 256 then Next(b.(mode := TypeDo, l := [], d := []))
        else if sym < 286 then Next(b.(mode := LenExt(LBASE[sym - 257], LEXT[sym - 257] - 16)))
        else Next(b.(mode := Bad))
  }

  ghost function StepLenExt(s: BitString, a: Abs): Outcome
    requires a.mode.LenExt?
  {
    if !Has(s, a.pos, a.mode.extra) then Stuck
    else Next(a.(pos := a.pos + a.mode.extra, mode := Dist(a.mode.base + Field(s, a.pos, a.mode.extra))))
  }

  ghost function StepDist(s: BitString, a: Abs): Outcome
    requires a.mode.Dist?
  {
    if a.pos > |s| then Stuck
    else
      match DecodeSym(a.d, s[a.pos..])
      case NeedMore => Stuck
      case BadCode => Next(a.(pos := a.pos + 1, mode := Bad))
      case Sym(sym) =>
        var b := a.(pos := a.pos + a.d[sym]);
        if sym < 30 then Next(b.(mode := DistExt(a.mode.length, DBASE[sym], DEXT[sym] - 16)))
        else Next(b.(mode := Bad))
  }

  ghost function StepDistExt(s: BitString, a: Abs): Outcome
    requires a.mode.DistExt?
  {
    if !Has(s, a.pos, a.mode.extra) then Stuck
    else
      var b := a.(pos := a.pos + a.mode.extra);
      var offset := a.mode.dbase + Field(s, a.pos, a.mode.extra);
      if offset > |a.out| then Next(b.(mode := Bad)) else Next(b.(mode := Match(a.mode.length, offset)))
  }

  ghost function StepMatch(a: Abs): Outcome
    requires a.mode.Match?
  {
    var m := a.mode;
    if m.length == 0 || m.offset == 0 || m.offset > |a.out| then Stuck
    else
      Next(a.(out := a.out + [a.out[|a.out| - m.offset]], mode := if m.length == 1 then Len else Match(m.length - 1, m.offset)))
  }

  ghost function Step(s: BitString, a: Abs): Outcome {
    match a.mode
    case TypeDo => StepType(s, a)
    case Stored => StepStored(s, a)
    case Copy(_) => StepCopy(s, a)
    case Table => StepTable(s, a)
    case LenLens(_, _, _, _) => StepLenLens(s, a)
    case CodeLens(_, _, _, _) => StepCodeLens(s, a)
    case Len => StepLen(s, a)
    case LenExt(_, _) => StepLenExt(s, a)
    case Dist(_) => StepDist(s, a)
    case DistExt(_, _, _) => StepDistExt(s, a)
    case Match(_, _) => StepMatch(a)
    case Lit(b) => Next(a.(mode := Len, out := a.out + [b]))
    case Check => Stuck
    case Bad => Stuck
  }

  const START: Abs := Abs(0, false, TypeDo, [], [], [])

  // ----- well-formed states --------------------------------------------------------------------------------

  predicate Usable(lens: Lens) {
    LensOk(lens) && NotOversubscribed(lens)
  }

  // The codes that the current mode reads from can be decoded.
  predicate Sane(a: Abs) {
    match a.mode
    case LenLens(nlen, ndist, ncode, got) => 4 <= ncode <= 19 && |got| <= ncode && (forall i :: 0 <= i < |got| ==> got[i] < 8) && nlen <= 286 && ndist <= 30
    case CodeLens(nlen, ndist, cl, got) =>
      Usable(cl) && |cl| == 19 && LensOk(got) && |got| <= nlen + ndist && nlen <= 286 && ndist <= 30
    case Len => Usable(a.l) && Usable(a.d) && |a.l| <= 288 && |a.d| <= 32
    case Lit(_) => Usable(a.l) && Usable(a.d) && |a.l| <= 288 && |a.d| <= 32
    case LenExt(base, extra) => Usable(a.l) && Usable(a.d) && |a.l| <= 288 && |a.d| <= 32 && base >= 3
    case Dist(length) => Usable(a.l) && Usable(a.d) && |a.l| <= 288 && |a.d| <= 32 && length >= 3
    case DistExt(length, base, _) => Usable(a.l) && Usable(a.d) && |a.l| <= 288 && |a.d| <= 32 && length >= 3 && base >= 1
    case Match(length, offset) => Usable(a.l) && Usable(a.d) && |a.l| <= 288 && |a.d| <= 32 && length >= 1 && 1 <= offset <= |a.out|
    case _ => true
  }

  // ----- bits that arrive later change nothing -------------------------------------------------------------------

  lemma FieldStable(s: BitString, t: BitString, pos: nat, n: nat)
    requires Has(s, pos, n)
    ensures Has(s + t, pos, n) && Field(s + t, pos, n) == Field(s, pos, n)
  {
    assert (s + t)[pos..pos + n] == s[pos..pos + n];
  }

  lemma SymStable(s: BitString, t: BitString, pos: nat, lens: Lens)
    requires pos <= |s| && Usable(lens) && !DecodeSym(lens, s[pos..]).NeedMore?
    ensures DecodeSym(lens, (s + t)[pos..]) == DecodeSym(lens, s[pos..])
  {
    hide DecodeSym;
    assert (s + t)[pos..] == s[pos..] + t;
    DecodeSymStable(lens, s[pos..], t);
  }

  lemma TypeStable(s: BitString, t: BitString, a: Abs)
    requires StepType(s, a).Next?
    ensures StepType(s + t, a) == StepType(s, a)
  {
    hide Field;
    if !a.last {
      FieldStable(s, t, a.pos + 1, 2);
    }
  }

  lemma StoredStable(s: BitString, t: BitString, a: Abs)
    requires StepStored(s, a).Next?
    ensures StepStored(s + t, a) == StepStored(s, a)
  {
    hide Field;
    FieldStable(s, t, a.pos, 16);
    FieldStable(s, t, a.pos + 16, 16);
  }

  lemma CopyStable(s: BitString, t: BitString, a: Abs)
    requires a.mode.Copy? && StepCopy(s, a).Next?
    ensures StepCopy(s + t, a) == StepCopy(s, a)
  {
    hide Field;
    if a.mode.left > 0 {
      FieldStable(s, t, a.pos, 8);
    }
  }

  lemma TableStable(s: BitString, t: BitString, a: Abs)
    requires StepTable(s, a).Next?
    ensures StepTable(s + t, a) == StepTable(s, a)
  {
    hide Field;
    FieldStable(s, t, a.pos, 5);
    FieldStable(s, t, a.pos + 5, 5);
    FieldStable(s, t, a.pos + 10, 4);
  }

  lemma LenLensStable(s: BitString, t: BitString, a: Abs)
    requires a.mode.LenLens? && StepLenLens(s, a).Next?
    ensures StepLenLens(s + t, a) == StepLenLens(s, a)
  {
    hide Field, Acceptable, PermutedTo;
    if |a.mode.got| < a.mode.ncode {
      FieldStable(s, t, a.pos, 3);
    }
  }

  lemma CodeLensStable(s: BitString, t: BitString, a: Abs)
    requires a.mode.CodeLens? && StepCodeLens(s, a).Next? && Usable(a.mode.cl)
    ensures StepCodeLens(s + t, a) == StepCodeLens(s, a)
  {
    hide Field, Acceptable, DecodeSym;
    var m := a.mode;
    if |m.got| < m.nlen + m.ndist {
      SymStable(s, t, a.pos, m.cl);
      var r := DecodeSym(m.cl, s[a.pos..]);
      if r.Sym? {
        FieldStable(s, t, a.pos + m.cl[r.s], RepeatBits(r.s));
      }
    }
  }

  lemma LenStable(s: BitString, t: BitString, a: Abs)
    requires StepLen(s, a).Next? && Usable(a.l)
    ensures StepLen(s + t, a) == StepLen(s, a)
  {
    hide DecodeSym;
    SymStable(s, t, a.pos, a.l);
  }

  lemma DistStable(s: BitString, t: BitString, a: Abs)
    requires a.mode.Dist? && StepDist(s, a).Next? && Usable(a.d)
    ensures StepDist(s + t, a) == StepDist(s, a)
  {
    hide DecodeSym;
    SymStable(s, t, a.pos, a.d);
  }

  lemma ExtraStable(s: BitString, t: BitString, a: Abs)
    ensures a.mode.LenExt? && StepLenExt(s, a).Next? ==> StepLenExt(s + t, a) == StepLenExt(s, a)
    ensures a.mode.DistExt? && StepDistExt(s, a).Next? ==> StepDistExt(s + t, a) == StepDistExt(s, a)
  {
    hide Field;
    if (a.mode.LenExt? || a.mode.DistExt?) && Has(s, a.pos, a.mode.extra) {
      FieldStable(s, t, a.pos, a.mode.extra);
    }
  }

  lemma StepStable(s: BitString, t: BitString, a: Abs)
    requires Sane(a) && Step(s, a).Next?
    ensures Step(s + t, a) == Step(s, a)
  {
    hide Usable, StepType, StepStored, StepCopy, StepTable, StepLenLens, StepCodeLens, StepLen, StepLenExt, StepDist,
      StepDistExt, StepMatch;
    match a.mode
    case TypeDo => TypeStable(s, t, a);
    case Stored => StoredStable(s, t, a);
    case Copy(_) => CopyStable(s, t, a);
    case Table => TableStable(s, t, a);
    case LenLens(_, _, _, _) => LenLensStable(s, t, a);
    case CodeLens(_, _, _, _) => CodeLensStable(s, t, a);
    case Len => LenStable(s, t, a);
    case LenExt(_, _) => ExtraStable(s, t, a);
    case Dist(_) => DistStable(s, t, a);
    case DistExt(_, _, _) => ExtraStable(s, t, a);
    case _ =>
  }

  // ----- steps keep states well formed -----------------------------------------------------------------------------

  lemma AcceptableIsUsable(kind: Kind, lens: Lens)
    requires Acceptable(kind, lens) && LensOk(lens)
    ensures Usable(lens)
  {
    if NoCodes(lens) {
      NoneKraft(lens, |lens|, MAX_BITS);
    }
  }

  lemma {:induction false} NoneKraft(lens: Lens, n: nat, m: nat)
    requires n <= |lens| && NoCodes(lens)
    ensures KraftAt(lens, n, m) == 0
  {
    if n > 0 {
      assert !Coded(lens, n - 1);
      NoneKraft(lens, n - 1, m);
    }
  }

  lemma {:induction false} PermutedSmall(got: seq<nat>, n: nat, bound: nat)
    requires n <= |got| && forall i :: 0 <= i < |got| ==> got[i] <= bound
    ensures forall i :: 0 <= i < 19 ==> PermutedTo(got, n)[i] <= bound
  {
    if n > 0 {
      PermutedSmall(got, n - 1, bound);
    }
  }

  lemma BasesPositive()
    ensures forall i :: 0 <= i < 29 ==> LBASE[i] >= 3
    ensures forall i :: 0 <= i < 30 ==> DBASE[i] >= 1
  {
  }

  lemma TypeSane(s: BitString, a: Abs)
    requires StepType(s, a).Next?
    ensures Sane(StepType(s, a).a)
  {
    hide Field, Usable;
    FixedUsable();
  }

  lemma FixedUsable()
    ensures Usable(FixedLit()) && Usable(FixedDist())
  {
    hide Pow2, Kraft;
    FixedComplete();
  }

  lemma LenLensSane(s: BitString, a: Abs)
    requires Sane(a) && a.mode.LenLens? && StepLenLens(s, a).Next?
    ensures Sane(StepLenLens(s, a).a)
  {
    hide Field, Acceptable, PermutedTo;
    Pow2Values();
    var got := a.mode.got;
    PermutedSmall(got, |got|, 7);
    if |got| >= a.mode.ncode && Acceptable(CODES, Permuted(got)) {
      AcceptableIsUsable(CODES, Permuted(got));
    }
  }

  lemma CodeLensSane(s: BitString, a: Abs)
    requires Sane(a) && a.mode.CodeLens? && StepCodeLens(s, a).Next?
    ensures Sane(StepCodeLens(s, a).a)
  {
    hide Field, Acceptable, DecodeSym, NotOversubscribed;
    var m := a.mode;
    if |m.got| >= m.nlen + m.ndist && m.nlen <= |m.got| {
      var l, d := m.got[..m.nlen], m.got[m.nlen..];
      if Acceptable(LENS, l) && Acceptable(DISTS, d) {
        AcceptableIsUsable(LENS, l);
        AcceptableIsUsable(DISTS, d);
      }
    }
  }

  lemma StepSane(s: BitString, a: Abs)
    requires Sane(a) && Step(s, a).Next?
    ensures Sane(Step(s, a).a)
  {
    hide Usable, Field, StepType, StepLenLens, StepCodeLens, DecodeSym, LBASE, DBASE, LEXT, DEXT;
    match a.mode
    case TypeDo => TypeSane(s, a);
    case LenLens(_, _, _, _) => LenLensSane(s, a);
    case CodeLens(_, _, _, _) => CodeLensSane(s, a);
    case Table => Pow2Values();
    case Len => BasesPositive();
    case Dist(_) => BasesPositive();
    case _ =>
  }

  // ----- runs -----------------------------------------------------------------------------------------------------------

  ghost function Steps(s: BitString, a: Abs, n: nat): Outcome
    decreases n
  {
    if n == 0 then Next(a)
    else match Step(s, a) case Stuck => Stuck case Next(b) => Steps(s, b, n - 1)
  }

  ghost predicate Reaches(s: BitString, a: Abs, b: Abs) {
    exists n: nat :: Steps(s, a, n) == Next(b)
  }

  lemma ReachesSelf(s: BitString, a: Abs)
    ensures Reaches(s, a, a)
  {
    assert Steps(s, a, 0) == Next(a);
  }

  lemma ReachesStep(s: BitString, a: Abs, b: Abs)
    requires Step(s, a) == Next(b)
    ensures Reaches(s, a, b)
  {
    hide Step;
    assert Steps(s, b, 0) == Next(b);
    assert Steps(s, a, 1) == Next(b);
  }

  lemma {:induction false} StepsJoin(s: BitString, a: Abs, b: Abs, n: nat, m: nat)
    requires Steps(s, a, n) == Next(b)
    ensures Steps(s, a, n + m) == Steps(s, b, m)
    decreases n
  {
    hide Step;
    if n > 0 {
      StepsJoin(s, Step(s, a).a, b, n - 1, m);
    }
  }

  lemma ReachesTrans(s: BitString, a: Abs, b: Abs, c: Abs)
    requires Reaches(s, a, b) && Reaches(s, b, c)
    ensures Reaches(s, a, c)
  {
    hide Step;
    var n: nat :| Steps(s, a, n) == Next(b);
    var m: nat :| Steps(s, b, m) == Next(c);
    StepsJoin(s, a, b, n, m);
  }

  lemma {:induction false} StepsSane(s: BitString, a: Abs, n: nat)
    requires Sane(a) && Steps(s, a, n).Next?
    ensures Sane(Steps(s, a, n).a)
    decreases n
  {
    hide Step, Sane;
    if n > 0 {
      StepSane(s, a);
      StepsSane(s, Step(s, a).a, n - 1);
    }
  }

  lemma ReachesSane(s: BitString, a: Abs, b: Abs)
    requires Sane(a) && Reaches(s, a, b)
    ensures Sane(b)
  {
    hide Step, Sane;
    var n: nat :| Steps(s, a, n) == Next(b);
    StepsSane(s, a, n);
  }

  lemma {:induction false} StepsStable(s: BitString, t: BitString, a: Abs, n: nat)
    requires Sane(a) && Steps(s, a, n).Next?
    ensures Steps(s + t, a, n) == Steps(s, a, n)
    decreases n
  {
    hide Step, Sane;
    if n > 0 {
      StepStable(s, t, a);
      StepSane(s, a);
      StepsStable(s, t, Step(s, a).a, n - 1);
    }
  }

  lemma ReachesMore(s: BitString, t: BitString, a: Abs, b: Abs)
    requires Sane(a) && Reaches(s, a, b)
    ensures Reaches(s + t, a, b)
  {
    hide Step, Sane;
    var n: nat :| Steps(s, a, n) == Next(b);
    StepsStable(s, t, a, n);
  }

  predicate Final(a: Abs) {
    a.mode == Check || a.mode == Bad
  }

  // A run ends in at most one way.
  lemma FinalUnique(s: BitString, a: Abs, b: Abs, c: Abs)
    requires Reaches(s, a, b) && Reaches(s, a, c) && Final(b) && Final(c)
    ensures b == c
  {
    hide Step;
    var n: nat :| Steps(s, a, n) == Next(b);
    var m: nat :| Steps(s, a, m) == Next(c);
    FinalStuck(s, b);
    FinalStuck(s, c);
    StepsJoin(s, a, b, n, if n <= m then m - n else 0);
    StepsJoin(s, a, c, m, if m <= n then n - m else 0);
  }

  lemma FinalStuck(s: BitString, a: Abs)
    requires Final(a)
    ensures Step(s, a) == Stuck
  {
  }
}
