/** What the tables of `inflate_table` are for: looking up the next bits of the stream must give the
    symbol whose canonical code they start with. */
module InfTreesSpec {
  import opened Bits
  import opened Canonical

  datatype Kind = CODES | LENS | DISTS

  // op: operation, extra bits or table bits; bits: bits in this part of the code; val: value or offset.
  datatype Entry = Entry(op: nat, bits: nat, val: nat)

  // What a looked-up symbol tells the decoder to do.
  datatype Action = Action(op: nat, val: nat)

  const ENOUGH := 2048
  const MAXD := 592

  const LBASE: seq<nat> := [
    3, 4, 5, 6, 7, 8, 9, 10, 11, 13, 15, 17, 19, 23, 27, 31,
    35, 43, 51, 59, 67, 83, 99, 115, 131, 163, 195, 227, 258, 0, 0]
  const LEXT: seq<nat> := [
    16, 16, 16, 16, 16, 16, 16, 16, 17, 17, 17, 17, 18, 18, 18, 18,
    19, 19, 19, 19, 20, 20, 20, 20, 21, 21, 21, 21, 16, 201, 196]
  const DBASE: seq<nat> := [
    1, 2, 3, 4, 5, 7, 9, 13, 17, 25, 33, 49, 65, 97, 129, 193,
    257, 385, 513, 769, 1025, 1537, 2049, 3073, 4097, 6145,
    8193, 12289, 16385, 24577, 0, 0]
  const DEXT: seq<nat> := [
    16, 16, 16, 16, 17, 17, 18, 18, 19, 19, 20, 20, 21, 21, 22, 22,
    23, 23, 24, 24, 25, 25, 26, 26, 27, 27, 28, 28, 29, 29, 64, 64]

  function Actions(kind: Kind): (acts: seq<Action>)
    ensures |acts| == SymbolLimit(kind)
    ensures forall s :: 0 <= s < |acts| ==> acts[s] == SymAction(kind, s)
  {
    seq(SymbolLimit(kind), s requires 0 <= s < SymbolLimit(kind) => SymAction(kind, s))
  }

  const INVALID := Action(64, 0)

  function SymbolLimit(kind: Kind): nat {
    match kind case CODES => 19 case LENS => 288 case DISTS => 32
  }

  function SymAction(kind: Kind, s: nat): Action
    requires s < SymbolLimit(kind)
  {
    match kind
    case CODES => Action(0, s)
    case LENS =>
      if s < 256 then Action(0, s)
      else if s > 256 then Action(LEXT[s - 257], LBASE[s - 257])
      else Action(32 + 64, 0)
    case DISTS => Action(DEXT[s], DBASE[s])
  }

  predicate IsLink(e: Entry) {
    0 < e.op < 16
  }

  // Looking up w through the root table, and through a sub-table if the root entry is a link, gives
  // the action and the number of bits used.
  ghost predicate LooksUp(t: seq<Entry>, root: nat, w: nat, act: Action, n: nat) {
    && Low(w, root) < |t|
    && var e := t[Low(w, root)];
       if IsLink(e) then
         var j := e.val + Low(Shr(w, root), e.op);
         && e.bits == root && j < |t| && !IsLink(t[j]) && t[j].bits >= 1
         && act == Action(t[j].op, t[j].val) && n == root + t[j].bits
       else
         act == Action(e.op, e.val) && n == e.bits
  }

  ghost predicate NoCodeMatches(lens: Lens, w: nat) {
    forall s :: Coded(lens, s) ==> Low(w, lens[s]) != RevCode(lens, s)
  }

  // Every accumulator that starts with a symbol's code finds that symbol and uses exactly its code;
  // one that starts with no code finds the invalid-code marker.
  ghost predicate Decodes(lens: Lens, acts: seq<Action>, t: seq<Entry>, root: nat)
    requires |lens| <= |acts|
  {
    && 1 <= root <= MAX_BITS
    && (forall s, w: nat :: Coded(lens, s) && Low(w, lens[s]) == RevCode(lens, s) ==>
          LooksUp(t, root, w, acts[s], lens[s]))
    && (forall w: nat :: NoCodeMatches(lens, w) ==> LooksUp(t, root, w, INVALID, 1))
  }

  ghost predicate NoCodes(lens: Lens) {
    forall s :: !Coded(lens, s)
  }

  // The one incomplete code that is let through: a single code of one bit.
  ghost predicate OneShortCode(lens: Lens) {
    && !NoCodes(lens)
    && Kraft(lens) < Pow2(MAX_BITS)
    && (forall s :: Coded(lens, s) ==> lens[s] == 1)
  }

  ghost predicate Acceptable(kind: Kind, lens: Lens) {
    NoCodes(lens) || Complete(lens) || (kind != CODES && OneShortCode(lens))
  }
}
