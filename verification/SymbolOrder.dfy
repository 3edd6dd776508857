/** The order in which canonical codes are handed out: by length, then by symbol. `inflate_table`
    sorts the symbols into `work` in this order and counts codes upwards along it. */
module SymbolOrder {
  import opened Bits
  import opened Canonical

  // offs: where the symbols of length b start in the sorted table.
  function Offs(lens: Lens, b: nat): nat {
    if b <= 1 then 0 else Offs(lens, b - 1) + Count(lens, |lens|, b - 1)
  }

  // How many symbols have codes.
  function Used(lens: Lens): nat {
    Offs(lens, MAX_BITS + 1)
  }

  function Pos(lens: Lens, s: nat): nat
    requires s < |lens|
  {
    Offs(lens, lens[s]) + Count(lens, s, lens[s])
  }

  ghost predicate Sorted(lens: Lens, work: seq<nat>) {
    && |work| == Used(lens)
    && forall s :: Coded(lens, s) ==> Pos(lens, s) < |work| && work[Pos(lens, s)] == s
  }

  lemma {:induction false} OffsMonotone(lens: Lens, a: nat, b: nat)
    requires 1 <= a < b
    ensures Offs(lens, a) + Count(lens, |lens|, a) <= Offs(lens, b)
  {
    if a + 1 < b {
      OffsMonotone(lens, a, b - 1);
    }
  }

  lemma PosBounds(lens: Lens, s: nat)
    requires Coded(lens, s)
    ensures Offs(lens, lens[s]) <= Pos(lens, s) < Offs(lens, lens[s]) + Count(lens, |lens|, lens[s])
  {
    CountMonotone(lens, s, |lens|, lens[s]);
  }

  lemma PosBelowUsed(lens: Lens, s: nat)
    requires LensOk(lens) && Coded(lens, s)
    ensures Pos(lens, s) < Used(lens)
  {
    PosBounds(lens, s);
    OffsMonotone(lens, lens[s], MAX_BITS + 1);
  }

  // Shorter codes come first; among equal lengths, smaller symbols.
  lemma PosOrder(lens: Lens, s: nat, t: nat)
    requires Coded(lens, s) && Coded(lens, t)
    ensures lens[s] < lens[t] ==> Pos(lens, s) < Pos(lens, t)
    ensures lens[s] == lens[t] && s < t ==> Pos(lens, s) < Pos(lens, t)
    ensures Pos(lens, s) == Pos(lens, t) ==> s == t
  {
    PosBounds(lens, s);
    PosBounds(lens, t);
    if lens[s] < lens[t] {
      OffsMonotone(lens, lens[s], lens[t]);
    } else if lens[t] < lens[s] {
      OffsMonotone(lens, lens[t], lens[s]);
    } else if s < t {
      CountMonotone(lens, s, t, lens[s]);
    } else {
      CountMonotone(lens, t, s, lens[s]);
    }
  }

  lemma {:induction false} FindPos(lens: Lens, k: nat, b: nat) returns (s: nat)
    requires k < Offs(lens, b)
    ensures Coded(lens, s) && lens[s] < b && Pos(lens, s) == k
  {
    if k < Offs(lens, b - 1) {
      s := FindPos(lens, k, b - 1);
    } else {
      s := FindRank(lens, |lens|, b - 1, k - Offs(lens, b - 1));
    }
  }

  lemma WorkAt(lens: Lens, work: seq<nat>, k: nat)
    requires Sorted(lens, work) && k < |work|
    ensures Coded(lens, work[k]) && Pos(lens, work[k]) == k
  {
    var s := FindPos(lens, k, MAX_BITS + 1);
  }

  lemma WorkMonotone(lens: Lens, work: seq<nat>, j: nat, k: nat)
    requires Sorted(lens, work) && j <= k < |work|
    ensures Coded(lens, work[j]) && Coded(lens, work[k])
    ensures lens[work[j]] <= lens[work[k]]
    ensures j < k ==> work[j] != work[k]
  {
    WorkAt(lens, work, j);
    WorkAt(lens, work, k);
    PosOrder(lens, work[k], work[j]);
  }

  // Codes along the order only grow: the leading bits of a later code are never below an earlier one.
  lemma CodesAscend(lens: Lens, work: seq<nat>, j: nat, k: nat)
    requires LensOk(lens) && NotOversubscribed(lens)
    requires Sorted(lens, work) && j <= k < |work|
    ensures Coded(lens, work[j]) && Coded(lens, work[k]) && lens[work[j]] <= lens[work[k]]
    ensures Code(lens, work[j]) <= Shr(Code(lens, work[k]), lens[work[k]] - lens[work[j]])
  {
    WorkMonotone(lens, work, j, k);
    WorkAt(lens, work, j);
    WorkAt(lens, work, k);
    if lens[work[j]] < lens[work[k]] {
      LongerComesLater(lens, work[j], work[k]);
    }
  }

  // Leading root bits of two codes at least that long.
  lemma PrefixesAscend(lens: Lens, work: seq<nat>, j: nat, k: nat, root: nat)
    requires LensOk(lens) && NotOversubscribed(lens)
    requires Sorted(lens, work) && j <= k < |work|
    requires Coded(lens, work[j]) && root <= lens[work[j]]
    ensures Coded(lens, work[k]) && root <= lens[work[j]] <= lens[work[k]]
    ensures Shr(Code(lens, work[j]), lens[work[j]] - root) <= Shr(Code(lens, work[k]), lens[work[k]] - root)
  {
    CodesAscend(lens, work, j, k);
    var c, d := Code(lens, work[j]), Code(lens, work[k]);
    var a, b := lens[work[j]] - root, lens[work[k]] - lens[work[j]];
    ShrMonotone(c, Shr(d, b), a);
    ShrShr(d, b, a);
  }

  // No symbols of the lengths strictly between a and b: the first code of length b continues a's.
  lemma {:induction false} EmptyLengths(lens: Lens, a: nat, b: nat)
    requires 1 <= a < b && Offs(lens, b) == Offs(lens, a) + Count(lens, |lens|, a)
    ensures FirstCode(lens, |lens|, b) == Shl(EndCode(lens, |lens|, a), b - a)
  {
    if a + 1 < b {
      OffsMonotone(lens, a, b - 1);
      EmptyLengths(lens, a, b - 1);
    }
  }

  // The next code in the order is the previous one plus one, with zeros appended if it is longer.
  lemma NextCode(lens: Lens, work: seq<nat>, k: nat)
    requires Sorted(lens, work) && k + 1 < |work|
    ensures Coded(lens, work[k]) && Coded(lens, work[k + 1]) && lens[work[k]] <= lens[work[k + 1]]
    ensures Code(lens, work[k + 1]) == Shl(Code(lens, work[k]) + 1, lens[work[k + 1]] - lens[work[k]])
    ensures lens[work[k + 1]] == lens[work[k]] <==>
            k + 1 < Offs(lens, lens[work[k]]) + Count(lens, |lens|, lens[work[k]])
  {
    WorkMonotone(lens, work, k, k + 1);
    WorkAt(lens, work, k);
    WorkAt(lens, work, k + 1);
    var s, t := work[k], work[k + 1];
    PosBounds(lens, s);
    PosBounds(lens, t);
    if lens[s] < lens[t] {
      OffsMonotone(lens, lens[s], lens[t]);
      EmptyLengths(lens, lens[s], lens[t]);
    }
  }

  // The last symbol in the order ends the code.
  lemma LastCode(lens: Lens, work: seq<nat>, b: nat)
    requires LensOk(lens) && Sorted(lens, work) && |work| > 0 && b == MAX_BITS
    ensures Coded(lens, work[|work| - 1])
    ensures var s := work[|work| - 1];
            Shl(Code(lens, s) + 1, b - lens[s]) == Kraft(lens)
  {
    WorkAt(lens, work, |work| - 1);
    var s := work[|work| - 1];
    PosBounds(lens, s);
    OffsMonotone(lens, lens[s], b + 1);
    EmptyLengths(lens, lens[s], b + 1);
    KraftIsEndCode(lens, |lens|, b);
  }
}
