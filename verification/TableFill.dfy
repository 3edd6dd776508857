/** How the entries of a two-level decoding table accumulate, one code at a time, without a later
    code disturbing an earlier one. */
module TableFill {
  import opened Bits
  import opened Canonical
  import opened InfTreesSpec

  // In the table of 2^curr entries at base, every index whose low l bits are h holds e.
  ghost predicate Repeated(t: seq<Entry>, base: nat, curr: nat, l: nat, h: nat, e: Entry) {
    && base + Pow2(curr) <= |t|
    && forall i: nat :: i < Pow2(curr) && Low(i, l) == h ==> t[base + i] == e
  }

  // The root entry for the low root bits of a longer code points to a sub-table large enough for it.
  ghost predicate LinkPlaced(t: seq<Entry>, root: nat, l: nat, h: nat) {
    && Low(h, root) < Pow2(root) <= |t|
    && var e := t[Low(h, root)];
       && IsLink(e) && e.bits == root && root + e.op >= l
       && Pow2(root) <= e.val && e.val + Pow2(e.op) <= |t|
  }

  ghost predicate LongPlaced(t: seq<Entry>, root: nat, l: nat, h: nat, act: Action)
    requires l > root
  {
    && LinkPlaced(t, root, l, h)
    && var e := t[Low(h, root)];
       Repeated(t, e.val, e.op, l - root, Shr(h, root), Entry(act.op, l - root, act.val))
  }

  ghost predicate Placed(lens: Lens, acts: seq<Action>, root: nat, t: seq<Entry>, s: nat)
    requires Coded(lens, s) && |lens| <= |acts|
  {
    if lens[s] <= root then
      var a := acts[s];
      Repeated(t, 0, root, lens[s], RevCode(lens, s), Entry(a.op, lens[s], a.val))
    else
      LongPlaced(t, root, lens[s], RevCode(lens, s), acts[s])
  }

  // No symbol's action looks like a link.
  ghost predicate Plain(acts: seq<Action>) {
    forall s :: 0 <= s < |acts| ==> !(0 < acts[s].op < 16)
  }

  lemma ShortLooksUp(t: seq<Entry>, root: nat, l: nat, h: nat, e: Entry, w: nat)
    requires l <= root && Repeated(t, 0, root, l, h, e) && Low(w, l) == h && !IsLink(e)
    ensures LooksUp(t, root, w, Action(e.op, e.val), e.bits)
  {
    LowLow(w, l, root);
    assert t[0 + Low(w, root)] == e;
  }

  lemma LongLooksUp(t: seq<Entry>, root: nat, l: nat, h: nat, act: Action, w: nat)
    requires l > root && LongPlaced(t, root, l, h, act) && Low(w, l) == h
    requires !IsLink(Entry(act.op, l - root, act.val))
    ensures LooksUp(t, root, w, act, l)
  {
    LowLow(w, root, l);
    ShrOfLow(w, root, l - root);
    var e := t[Low(w, root)];
    var j := Low(Shr(w, root), e.op);
    LowLow(Shr(w, root), l - root, e.op);
    assert t[e.val + j] == Entry(act.op, l - root, act.val);
  }

  lemma PlacedLooksUp(lens: Lens, acts: seq<Action>, root: nat, t: seq<Entry>, s: nat, w: nat)
    requires Coded(lens, s) && |lens| <= |acts| && Plain(acts) && Placed(lens, acts, root, t, s)
    requires Low(w, lens[s]) == RevCode(lens, s)
    ensures LooksUp(t, root, w, acts[s], lens[s])
  {
    var a, h := acts[s], RevCode(lens, s);
    if lens[s] <= root {
      ShortLooksUp(t, root, lens[s], h, Entry(a.op, lens[s], a.val), w);
    } else {
      LongLooksUp(t, root, lens[s], h, a, w);
    }
  }

  // One round of replication: within [base, base + size) exactly the indices with low l bits h change.
  ghost predicate Wrote(t: seq<Entry>, t': seq<Entry>, base: nat, size: nat, l: nat, h: nat, e: Entry) {
    && |t'| == |t| && base + size <= |t|
    && forall i :: 0 <= i < |t| ==>
         t'[i] == if base <= i < base + size && Low(i - base, l) == h then e else t[i]
  }

  // Within one block of 2^l numbers the low l bits count from zero.
  lemma LowsInBlock(q: nat, l: nat)
    ensures forall i: nat :: Shl(q, l) <= i < Shl(q, l) + Pow2(l) ==> Low(i, l) == i - Shl(q, l)
  {
    var start := Shl(q, l);
    forall i: nat | start <= i < start + Pow2(l)
      ensures Low(i, l) == i - start
    {
      ShrOfShl(q, i - start, l);
    }
  }

  method Fill(table: array<Entry>, base: nat, curr: nat, l: nat, h: nat, e: Entry)
    requires base + Pow2(curr) <= table.Length && l <= curr && h < Pow2(l)
    modifies table
    ensures Wrote(old(table[..]), table[..], base, Pow2(curr), l, h, e)
  {
    var incr := Pow2(l);
    var fill := Pow2(curr);
    ghost var q := Pow2(curr - l);
    ShlPow2(curr - l, l);
    hide Low, Shl, Pow2;
    while fill != 0
      invariant fill == Shl(q, l) && fill <= Pow2(curr)
      invariant forall i :: 0 <= i < table.Length ==>
                  table[i] == if base + fill <= i < base + Pow2(curr) && Low(i - base, l) == h then e
                              else old(table[i])
    {
      if q == 0 { ShlZero(l); }
      q := q - 1;
      ShlAdd(q, 1, l);
      ShlPow2(0, l);
      fill := fill - incr;
      LowsInBlock(q, l);
      table[base + h + fill] := e;
    }
  }

  // ----- short codes --------------------------------------------------------------------------

  // The codes entered before the k-th are no longer than it.
  ghost predicate Ordered(lens: Lens, work: seq<nat>, k: nat) {
    && k < |work| && Coded(lens, work[k])
    && forall j :: 0 <= j < k ==>
         Coded(lens, work[j]) && work[j] != work[k] && lens[work[j]] <= lens[work[k]]
  }

  ghost predicate Filled(lens: Lens, acts: seq<Action>, work: seq<nat>, root: nat, t: seq<Entry>, k: nat)
    requires |lens| <= |acts| && k <= |work|
  {
    forall j :: 0 <= j < k ==> Coded(lens, work[j]) && Placed(lens, acts, root, t, work[j])
  }

  // In the root table an earlier, shorter code never matches an index that a later code owns.
  lemma EarlierIndexDiffers(lens: Lens, s: nat, u: nat, i: nat, m: nat)
    requires LensOk(lens) && NotOversubscribed(lens)
    requires Coded(lens, s) && Coded(lens, u) && s != u && lens[s] <= m <= lens[u]
    requires Low(i, m) == Low(RevCode(lens, u), m)
    ensures Low(i, lens[s]) != RevCode(lens, s)
  {
    PrefixFree(lens, s, u);
    LowLow(i, lens[s], m);
    LowLow(RevCode(lens, u), lens[s], m);
  }

  lemma FillShortKeeps(lens: Lens, acts: seq<Action>, root: nat, t: seq<Entry>, t': seq<Entry>, s: nat, u: nat, e: Entry)
    requires LensOk(lens) && NotOversubscribed(lens) && |lens| <= |acts|
    requires Coded(lens, s) && Coded(lens, u) && s != u && lens[s] <= lens[u] <= root
    requires Placed(lens, acts, root, t, s)
    requires Wrote(t, t', 0, Pow2(root), lens[u], RevCode(lens, u), e)
    ensures Placed(lens, acts, root, t', s)
  {
    forall i: nat | i < Pow2(root) && Low(i, lens[s]) == RevCode(lens, s)
      ensures t'[0 + i] == t[0 + i]
    {
      LowSmall(RevCode(lens, u), lens[u]);
      if Low(i, lens[u]) == RevCode(lens, u) {
        EarlierIndexDiffers(lens, s, u, i, lens[u]);
      }
    }
  }

  lemma FillShortPlaces(lens: Lens, acts: seq<Action>, root: nat, t: seq<Entry>, t': seq<Entry>, u: nat)
    requires |lens| <= |acts| && Coded(lens, u) && lens[u] <= root
    requires var a := acts[u];
             Wrote(t, t', 0, Pow2(root), lens[u], RevCode(lens, u), Entry(a.op, lens[u], a.val))
    ensures Placed(lens, acts, root, t', u)
  {
    hide RevCode;
  }

  lemma FillShort(lens: Lens, acts: seq<Action>, work: seq<nat>, root: nat, t: seq<Entry>, t': seq<Entry>, k: nat)
    requires LensOk(lens) && NotOversubscribed(lens) && |lens| <= |acts|
    requires Ordered(lens, work, k) && Filled(lens, acts, work, root, t, k)
    requires lens[work[k]] <= root
    requires var a := acts[work[k]];
             Wrote(t, t', 0, Pow2(root), lens[work[k]], RevCode(lens, work[k]), Entry(a.op, lens[work[k]], a.val))
    ensures Filled(lens, acts, work, root, t', k + 1)
  {
    hide Wrote, NotOversubscribed, LensOk, RevCode;
    var u := work[k];
    var e := Entry(acts[u].op, lens[u], acts[u].val);
    FillShortPlaces(lens, acts, root, t, t', u);
    forall j | 0 <= j < k
      ensures Coded(lens, work[j]) && Placed(lens, acts, root, t', work[j])
    {
      FillShortKeeps(lens, acts, root, t, t', work[j], u, e);
    }
  }

  // ----- long codes ---------------------------------------------------------------------------

  ghost predicate SubTableOf(lens: Lens, root: nat, t: seq<Entry>, s: nat, low: int, next: nat)
    requires Coded(lens, s)
  {
    && Pow2(root) <= |t|
    && (lens[s] > root ==>
          var e := t[Low(RevCode(lens, s), root)];
          if Low(RevCode(lens, s), root) == low then e.val == next else e.val + Pow2(e.op) <= next)
  }

  // Where the sub-tables of the codes entered so far lie: those that share the current root index
  // `low` use the sub-table at `next`, all others lie wholly before it.
  ghost predicate SubTables(lens: Lens, work: seq<nat>, root: nat, t: seq<Entry>, k: nat, low: int, next: nat)
    requires k <= |work|
  {
    && Pow2(root) <= |t|
    && forall j :: 0 <= j < k && Coded(lens, work[j]) ==> SubTableOf(lens, root, t, work[j], low, next)
  }

  // Two codes with the same root index differ in the bits above it.
  lemma SameRootDiffers(lens: Lens, s: nat, u: nat, root: nat, i: nat)
    requires LensOk(lens) && NotOversubscribed(lens)
    requires Coded(lens, s) && Coded(lens, u) && s != u && root < lens[s] <= lens[u]
    requires Low(RevCode(lens, s), root) == Low(RevCode(lens, u), root)
    requires Low(i, lens[u] - root) == Shr(RevCode(lens, u), root)
    ensures Low(i, lens[s] - root) != Shr(RevCode(lens, s), root)
  {
    hide NotOversubscribed, LensOk, RevCode, Low, Shr;
    var a, b := lens[s] - root, lens[u] - root;
    PrefixFree(lens, s, u);
    LowIsWhole(RevCode(lens, u), RevCode(lens, s), root, a);
    LowLow(i, a, b);
  }

  // A round that writes elsewhere, or at indices that do not match, leaves a repeated entry alone.
  lemma RepeatedKeeps(t: seq<Entry>, t': seq<Entry>, base: nat, curr: nat, l: nat, h: nat, e: Entry,
      next: nat, size: nat, l': nat, h': nat, e': Entry)
    requires Repeated(t, base, curr, l, h, e)
    requires Wrote(t, t', next, size, l', h', e')
    requires base + Pow2(curr) <= next || (base == next && forall i: nat :: Low(i, l) == h ==> Low(i, l') != h')
    ensures Repeated(t', base, curr, l, h, e)
  {
    forall i: nat | i < Pow2(curr) && Low(i, l) == h
      ensures t'[base + i] == e
    {
      assert t[base + i] == e;
      if base == next {
        assert base + i - next == i;
        assert Low(i, l') != h';
      }
    }
  }

  lemma BelowUnchanged(t: seq<Entry>, t': seq<Entry>, base: nat, size: nat, l: nat, h: nat, e: Entry)
    requires Wrote(t, t', base, size, l, h, e)
    ensures |t'| == |t| && forall i :: 0 <= i < base && i < |t| ==> t'[i] == t[i]
  {
  }

  lemma FillLongKeeps(lens: Lens, root: nat, t: seq<Entry>, t': seq<Entry>, s: nat, u: nat,
      next: nat, size: nat, e: Entry, act: Action)
    requires LensOk(lens) && NotOversubscribed(lens)
    requires Coded(lens, s) && Coded(lens, u) && s != u && root < lens[s] <= lens[u]
    requires LongPlaced(t, root, lens[s], RevCode(lens, s), act) && Pow2(root) <= next
    requires Wrote(t, t', next, size, lens[u] - root, Shr(RevCode(lens, u), root), e)
    requires var l := t[Low(RevCode(lens, s), root)];
             if Low(RevCode(lens, s), root) == Low(RevCode(lens, u), root) then l.val == next
             else l.val + Pow2(l.op) <= next
    ensures LongPlaced(t', root, lens[s], RevCode(lens, s), act)
  {
    hide RevCode, NotOversubscribed, LensOk, Wrote, Repeated, Low, Shr, Pow2;
    var h, h' := RevCode(lens, s), RevCode(lens, u);
    var l := t[Low(h, root)];
    var m, m' := lens[s] - root, lens[u] - root;
    var hi, hi' := Shr(h, root), Shr(h', root);
    BelowUnchanged(t, t', next, size, m', hi', e);
    if Low(h, root) == Low(h', root) {
      forall i: nat | Low(i, m) == hi
        ensures Low(i, m') != hi'
      {
        if Low(i, m') == hi' {
          SameRootDiffers(lens, s, u, root, i);
        }
      }
    }
    RepeatedKeeps(t, t', l.val, l.op, m, hi, Entry(act.op, m, act.val), next, size, m', hi', e);
  }

  lemma FillLongKeepsAny(lens: Lens, acts: seq<Action>, root: nat, t: seq<Entry>, t': seq<Entry>, s: nat, u: nat,
      next: nat, size: nat, e: Entry)
    requires LensOk(lens) && NotOversubscribed(lens) && |lens| <= |acts|
    requires Coded(lens, s) && Coded(lens, u) && s != u && lens[s] <= lens[u] && root < lens[u]
    requires Placed(lens, acts, root, t, s) && Pow2(root) <= next
    requires Wrote(t, t', next, size, lens[u] - root, Shr(RevCode(lens, u), root), e)
    requires SubTableOf(lens, root, t, s, Low(RevCode(lens, u), root), next)
    ensures Placed(lens, acts, root, t', s)
  {
    hide Wrote, Repeated, RevCode, NotOversubscribed, LensOk, LongPlaced;
    var a := acts[s];
    if lens[s] <= root {
      RepeatedKeeps(t, t', 0, root, lens[s], RevCode(lens, s), Entry(a.op, lens[s], a.val),
                    next, size, lens[u] - root, Shr(RevCode(lens, u), root), e);
    } else {
      FillLongKeeps(lens, root, t, t', s, u, next, size, e, a);
    }
  }

  lemma FillLong(lens: Lens, acts: seq<Action>, work: seq<nat>, root: nat, t: seq<Entry>, t': seq<Entry>, k: nat,
      next: nat, curr: nat)
    requires LensOk(lens) && NotOversubscribed(lens) && |lens| <= |acts|
    requires Ordered(lens, work, k) && Filled(lens, acts, work, root, t, k)
    requires lens[work[k]] > root && Pow2(root) <= next
    requires SubTables(lens, work, root, t, k, Low(RevCode(lens, work[k]), root), next)
    requires t[Low(RevCode(lens, work[k]), root)] == Entry(curr, root, next)
    requires 1 <= curr < 16 && lens[work[k]] <= root + curr
    requires var a := acts[work[k]];
             Wrote(t, t', next, Pow2(curr), lens[work[k]] - root, Shr(RevCode(lens, work[k]), root),
                   Entry(a.op, lens[work[k]] - root, a.val))
    ensures Filled(lens, acts, work, root, t', k + 1)
    ensures SubTables(lens, work, root, t', k + 1, Low(RevCode(lens, work[k]), root), next)
  {
    hide Wrote, NotOversubscribed, LensOk, RevCode, Placed, SubTableOf, Low, Shr, Pow2;
    var u := work[k];
    var a := acts[u];
    forall j | 0 <= j < k
      ensures Coded(lens, work[j]) && Placed(lens, acts, root, t', work[j])
    {
      var s, e := work[j], Entry(a.op, lens[u] - root, a.val);
      FillLongKeepsAny(lens, acts, root, t, t', s, u, next, Pow2(curr), e);
    }
    FillLongPlaces(lens, acts, root, t, t', u, next, curr);
    FillLongSubTables(lens, work, root, t, t', k, next, Pow2(curr), Entry(a.op, lens[u] - root, a.val));
  }

  lemma FillLongSubTables(lens: Lens, work: seq<nat>, root: nat, t: seq<Entry>, t': seq<Entry>, k: nat,
      next: nat, size: nat, e: Entry)
    requires k < |work| && Coded(lens, work[k])
    requires lens[work[k]] > root && Pow2(root) <= next
    requires Wrote(t, t', next, size, lens[work[k]] - root, Shr(RevCode(lens, work[k]), root), e)
    requires SubTables(lens, work, root, t, k, Low(RevCode(lens, work[k]), root), next)
    requires t[Low(RevCode(lens, work[k]), root)].val == next
    ensures SubTables(lens, work, root, t', k + 1, Low(RevCode(lens, work[k]), root), next)
  {
    hide RevCode, Shr;
    assert forall i :: 0 <= i < Pow2(root) ==> t'[i] == t[i];
  }

  lemma FillLongPlaces(lens: Lens, acts: seq<Action>, root: nat, t: seq<Entry>, t': seq<Entry>, u: nat, next: nat, curr: nat)
    requires Coded(lens, u) && |lens| <= |acts|
    requires lens[u] > root && Pow2(root) <= next && 1 <= curr < 16 && lens[u] <= root + curr
    requires Pow2(root) <= |t| && t[Low(RevCode(lens, u), root)] == Entry(curr, root, next)
    requires Wrote(t, t', next, Pow2(curr), lens[u] - root, Shr(RevCode(lens, u), root),
                   Entry(acts[u].op, lens[u] - root, acts[u].val))
    ensures Placed(lens, acts, root, t', u)
  {
    hide RevCode, Shr;
    assert t'[Low(RevCode(lens, u), root)] == Entry(curr, root, next);
  }

  // ----- starting a new sub-table -----------------------------------------------------------------

  lemma RootIndex(lens: Lens, s: nat, root: nat)
    requires LensOk(lens) && NotOversubscribed(lens) && Coded(lens, s) && root <= lens[s]
    ensures Low(RevCode(lens, s), root) == Reverse(Shr(Code(lens, s), lens[s] - root), root)
    ensures Shr(RevCode(lens, s), root) == Reverse(Code(lens, s), lens[s] - root)
    ensures Shr(Code(lens, s), lens[s] - root) < Pow2(root)
  {
    CodeFits(lens, s);
    ReversePrefix(Code(lens, s), root, lens[s] - root);
    ShrBelow(Code(lens, s), lens[s] - root, root);
  }

  // The new root index belongs to no earlier code.
  ghost predicate FreshRoot(lens: Lens, work: seq<nat>, root: nat, k: nat)
    requires k < |work| && Coded(lens, work[k])
  {
    forall j :: 0 <= j < k && Coded(lens, work[j]) && lens[work[j]] > root ==>
      Low(RevCode(lens, work[j]), root) != Low(RevCode(lens, work[k]), root)
  }

  lemma LinkKeeps(lens: Lens, acts: seq<Action>, work: seq<nat>, root: nat, t: seq<Entry>, k: nat, low: int, next: nat,
      next': nat, e: Entry)
    requires LensOk(lens) && NotOversubscribed(lens) && |lens| <= |acts|
    requires Ordered(lens, work, k) && Filled(lens, acts, work, root, t, k)
    requires lens[work[k]] > root
    requires SubTables(lens, work, root, t, k, low, next)
    requires FreshRoot(lens, work, root, k)
    requires forall j :: 0 <= j < k && Coded(lens, work[j]) && lens[work[j]] > root ==>
               var l := t[Low(RevCode(lens, work[j]), root)]; l.val + Pow2(l.op) <= next'
    ensures var t' := t[Low(RevCode(lens, work[k]), root) := e];
            && Filled(lens, acts, work, root, t', k)
            && SubTables(lens, work, root, t', k, Low(RevCode(lens, work[k]), root), next')
  {
    var lo := Low(RevCode(lens, work[k]), root);
    var t' := t[lo := e];
    forall j | 0 <= j < k
      ensures Coded(lens, work[j]) && Placed(lens, acts, root, t', work[j])
    {
      LinkKeepsOne(lens, acts, root, t, work[j], work[k], e);
    }
  }

  lemma LinkKeepsOne(lens: Lens, acts: seq<Action>, root: nat, t: seq<Entry>, s: nat, u: nat, e: Entry)
    requires LensOk(lens) && NotOversubscribed(lens) && |lens| <= |acts|
    requires Coded(lens, s) && Coded(lens, u) && s != u && lens[s] <= lens[u] && lens[u] > root
    requires Placed(lens, acts, root, t, s) && Pow2(root) <= |t|
    requires lens[s] > root ==> Low(RevCode(lens, s), root) != Low(RevCode(lens, u), root)
    ensures Placed(lens, acts, root, t[Low(RevCode(lens, u), root) := e], s)
  {
    hide RevCode, NotOversubscribed, LensOk, Repeated, LongPlaced;
    var lo := Low(RevCode(lens, u), root);
    if lens[s] <= root {
      LowSmall(lo, root);
      EarlierIndexDiffers(lens, s, u, lo, root);
      RepeatedUpdate(t, root, lens[s], RevCode(lens, s), Entry(acts[s].op, lens[s], acts[s].val), lo, e);
    } else {
      LongUpdate(t, root, lens[s], RevCode(lens, s), acts[s], lo, e);
    }
  }

  lemma RepeatedUpdate(t: seq<Entry>, root: nat, l: nat, h: nat, e: Entry, lo: nat, x: Entry)
    requires Repeated(t, 0, root, l, h, e) && lo < Pow2(root) && Low(lo, l) != h
    ensures Repeated(t[lo := x], 0, root, l, h, e)
  {
    forall i: nat | i < Pow2(root) && Low(i, l) == h
      ensures t[lo := x][0 + i] == e
    {
      assert t[0 + i] == e;
    }
  }

  lemma LongUpdate(t: seq<Entry>, root: nat, l: nat, h: nat, act: Action, lo: nat, x: Entry)
    requires l > root && LongPlaced(t, root, l, h, act) && lo < Pow2(root) && lo != Low(h, root)
    ensures LongPlaced(t[lo := x], root, l, h, act)
  {
    var link := t[Low(h, root)];
    var m, hi := l - root, Shr(h, root);
    var t' := t[lo := x];
    assert t'[Low(h, root)] == link;
    forall i: nat | i < Pow2(link.op) && Low(i, m) == hi
      ensures t'[link.val + i] == Entry(act.op, m, act.val)
    {
      assert t[link.val + i] == Entry(act.op, m, act.val);
    }
  }
}
