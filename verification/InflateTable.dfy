/** The main loop of `inflate_table` and its result. */
module InflateTable {
  import opened Bits
  import opened Canonical
  import opened InfTreesSpec
  import opened SymbolOrder
  import opened TableFill
  import opened InfTrees
  import opened TableRoom

  // ----- the state of the loop -----------------------------------------------------------------------

  ghost predicate Context(lens: Lens, acts: seq<Action>, order: seq<nat>, root: nat, max: nat) {
    && LensOk(lens) && NotOversubscribed(lens)
    && |lens| <= |acts| && Plain(acts)
    && Sorted(lens, order)
    && 1 <= root <= max <= MAX_BITS
    && forall s :: Coded(lens, s) ==> lens[s] <= max
  }

  // The table being filled when the k-th code is due: the root table, or a sub-table for its root bits.
  ghost predicate Shape(lens: Lens, order: seq<nat>, root: nat, max: nat, t: seq<Entry>, k: nat,
      low: int, next: nat, curr: nat, used: nat)
  {
    && k < |order| && Coded(lens, order[k]) && Pow2(root) <= |t| && used <= |t|
    && if lens[order[k]] <= root then
         low == -1 && next == 0 && curr == root && used == Pow2(root)
       else
         && low == Low(RevCode(lens, order[k]), root) && Pow2(root) <= next && used == next + Pow2(curr)
         && t[low] == Entry(curr, root, next) && 1 <= curr < 16
         && Sized(lens, root, Prefix(lens, order[k], root), curr, max)
  }

  ghost predicate State(lens: Lens, acts: seq<Action>, order: seq<nat>, root: nat, max: nat, t: seq<Entry>,
      k: nat, low: int, next: nat, curr: nat, used: nat)
    requires |lens| <= |acts| && root <= MAX_BITS
  {
    && Shape(lens, order, root, max, t, k, low, next, curr, used)
    && Filled(lens, acts, order, root, t, k)
    && SubTables(lens, order, root, t, k, low, next)
    && Room(lens, order, root, k, curr, used)
  }

  // The same once the k-th code is in the table.
  ghost predicate Entered(lens: Lens, acts: seq<Action>, order: seq<nat>, root: nat, max: nat, t: seq<Entry>,
      k: nat, low: int, next: nat, curr: nat, used: nat)
    requires |lens| <= |acts| && root <= MAX_BITS
  {
    && Shape(lens, order, root, max, t, k, low, next, curr, used)
    && Filled(lens, acts, order, root, t, k + 1)
    && SubTables(lens, order, root, t, k + 1, low, next)
    && Room(lens, order, root, k, curr, used)
  }

  lemma OrderedAt(lens: Lens, order: seq<nat>, k: nat)
    requires Sorted(lens, order) && k < |order|
    ensures Ordered(lens, order, k)
  {
    WorkAt(lens, order, k);
    forall j | 0 <= j <= k
      ensures Coded(lens, order[j]) && lens[order[j]] <= lens[order[k]]
      ensures j < k ==> order[j] != order[k]
    {
      WorkMonotone(lens, order, j, k);
    }
  }

  function Drop(l: nat, root: nat): nat {
    if l > root then root else 0
  }

  // ----- entering one code ------------------------------------------------------------------------------

  lemma CodeFitsTable(lens: Lens, acts: seq<Action>, order: seq<nat>, root: nat, max: nat, t: seq<Entry>,
      k: nat, low: int, next: nat, curr: nat, used: nat)
    requires Context(lens, acts, order, root, max)
    requires Shape(lens, order, root, max, t, k, low, next, curr, used)
    ensures var l := lens[order[k]];
            && l - Drop(l, root) <= curr
            && Shr(RevCode(lens, order[k]), Drop(l, root)) < Pow2(l - Drop(l, root))
            && next + Pow2(curr) <= used
  {
    hide Sized, RevCode, NotOversubscribed, LensOk, Sorted, Plain, Prefix, Low;
    var s := order[k];
    if lens[s] > root {
      SizedFits(lens, root, Prefix(lens, s, root), curr, max, s);
      ShrBelow(RevCode(lens, s), root, lens[s] - root);
    }
  }

  lemma EnterStep(lens: Lens, acts: seq<Action>, order: seq<nat>, root: nat, max: nat, t: seq<Entry>,
      t': seq<Entry>, k: nat, low: int, next: nat, curr: nat, used: nat)
    requires Context(lens, acts, order, root, max)
    requires State(lens, acts, order, root, max, t, k, low, next, curr, used)
    requires var s, l := order[k], lens[order[k]];
             Wrote(t, t', next, Pow2(curr), l - Drop(l, root), Shr(RevCode(lens, s), Drop(l, root)),
                   Entry(acts[s].op, l - Drop(l, root), acts[s].val))
    ensures Entered(lens, acts, order, root, max, t', k, low, next, curr, used)
  {
    hide Wrote, RevCode, Filled, SubTables, Pow2, LensOk, NotOversubscribed, Plain;
    CodeFitsTable(lens, acts, order, root, max, t, k, low, next, curr, used);
    OrderedAt(lens, order, k);
    if lens[order[k]] <= root {
      EnterShort(lens, acts, order, root, t, t', k, low, next);
    } else {
      EnterLong(lens, acts, order, root, max, t, t', k, low, next, curr, used);
    }
  }

  lemma EnterShort(lens: Lens, acts: seq<Action>, order: seq<nat>, root: nat, t: seq<Entry>, t': seq<Entry>,
      k: nat, low: int, next: nat)
    requires LensOk(lens) && NotOversubscribed(lens) && |lens| <= |acts|
    requires Ordered(lens, order, k) && Filled(lens, acts, order, root, t, k)
    requires lens[order[k]] <= root && Pow2(root) <= |t|
    requires var s, l := order[k], lens[order[k]];
             Wrote(t, t', 0, Pow2(root), l, RevCode(lens, s), Entry(acts[s].op, l, acts[s].val))
    ensures Filled(lens, acts, order, root, t', k + 1)
    ensures SubTables(lens, order, root, t', k + 1, low, next)
    ensures |t'| == |t|
  {
    assert |t'| == |t|;
    hide Wrote, NotOversubscribed, LensOk, RevCode, Filled;
    FillShort(lens, acts, order, root, t, t', k);
  }

  lemma EnterLong(lens: Lens, acts: seq<Action>, order: seq<nat>, root: nat, max: nat, t: seq<Entry>,
      t': seq<Entry>, k: nat, low: int, next: nat, curr: nat, used: nat)
    requires LensOk(lens) && NotOversubscribed(lens) && |lens| <= |acts|
    requires Ordered(lens, order, k) && Filled(lens, acts, order, root, t, k)
    requires SubTables(lens, order, root, t, k, low, next)
    requires lens[order[k]] > root && lens[order[k]] <= root + curr
    requires Shape(lens, order, root, max, t, k, low, next, curr, used)
    requires var s, l := order[k], lens[order[k]];
             Wrote(t, t', next, Pow2(curr), l - root, Shr(RevCode(lens, s), root),
                   Entry(acts[s].op, l - root, acts[s].val))
    ensures Filled(lens, acts, order, root, t', k + 1)
    ensures SubTables(lens, order, root, t', k + 1, low, next)
    ensures Shape(lens, order, root, max, t', k, low, next, curr, used)
  {
    assert |t'| == |t| && t'[low] == t[low];
    hide Wrote, NotOversubscribed, LensOk, RevCode, Filled, SubTables, Ordered, Sized;
    FillLong(lens, acts, order, root, t, t', k, next, curr);
  }

  // ----- the next code stays in the same table -------------------------------------------------------------

  lemma SameRoot(lens: Lens, root: nat, s: nat, u: nat)
    requires LensOk(lens) && NotOversubscribed(lens)
    requires Coded(lens, s) && Coded(lens, u) && root <= lens[s] && root <= lens[u]
    ensures Low(RevCode(lens, s), root) == Low(RevCode(lens, u), root) <==>
            Prefix(lens, s, root) == Prefix(lens, u, root)
  {
    RootIndex(lens, s, root);
    RootIndex(lens, u, root);
    if Low(RevCode(lens, s), root) == Low(RevCode(lens, u), root) {
      ReverseInjective(Prefix(lens, s, root), Prefix(lens, u, root), root);
    }
  }

  lemma StayStep(lens: Lens, acts: seq<Action>, order: seq<nat>, root: nat, max: nat, t: seq<Entry>,
      k: nat, low: int, next: nat, curr: nat, used: nat)
    requires Context(lens, acts, order, root, max) && k + 1 < |order|
    requires Entered(lens, acts, order, root, max, t, k, low, next, curr, used)
    requires Coded(lens, order[k + 1])
    requires lens[order[k + 1]] <= root || low == Low(RevCode(lens, order[k + 1]), root)
    ensures State(lens, acts, order, root, max, t, k + 1, low, next, curr, used)
    ensures lens[order[k]] <= root <==> lens[order[k + 1]] <= root
  {
    hide Filled, SubTables, RevCode, NotOversubscribed, LensOk, Sized, Sorted, Plain, Room, Prefix;
    WorkMonotone(lens, order, k, k + 1);
    if lens[order[k]] > root {
      SameRoot(lens, root, order[k], order[k + 1]);
      SizedFits(lens, root, Prefix(lens, order[k], root), curr, max, order[k + 1]);
    }
    RoomStays(lens, order, root, max, k, curr, used);
  }

  // ----- the next code opens a new sub-table ----------------------------------------------------------------

  // It comes first among the codes with its leading bits, so its own trailing bits are zero.
  lemma Aligned(lens: Lens, order: seq<nat>, root: nat, k: nat)
    requires LensOk(lens) && NotOversubscribed(lens)
    requires Sorted(lens, order) && k + 1 < |order|
    requires Coded(lens, order[k]) && Coded(lens, order[k + 1]) && lens[order[k + 1]] > root
    requires lens[order[k]] > root ==> Prefix(lens, order[k], root) != Prefix(lens, order[k + 1], root)
    ensures Code(lens, order[k + 1]) == Shl(Prefix(lens, order[k + 1], root), lens[order[k + 1]] - root)
    ensures lens[order[k]] > root ==> Prefix(lens, order[k + 1], root) == Prefix(lens, order[k], root) + 1
    ensures Opens(lens, order, root, k)
  {
    hide Code, NotOversubscribed, LensOk, Sorted, Shl, Shr;
    NextCode(lens, order, k);
    AlignedNumber(Code(lens, order[k]), lens[order[k]], lens[order[k + 1]], root);
  }

  lemma AlignedNumber(c: nat, l: nat, l': nat, root: nat)
    requires root < l' && l <= l'
    ensures var c' := Shl(c + 1, l' - l);
            (l > root ==> Shr(c, l - root) != Shr(c', l' - root)) ==>
              && c' == Shl(Shr(c', l' - root), l' - root)
              && (l > root ==> Shr(c', l' - root) == Shr(c, l - root) + 1 && c + 1 == Shl(Shr(c', l' - root), l - root))
  {
    hide Shl, Shr, Low;
    if l <= root {
      ShlShl(c + 1, root - l, l' - root);
      ShrOfShl(Shl(c + 1, root - l), 0, l' - root);
    } else {
      var d := l' - l;
      IncrementCarry(c, l - root);
      ShrOfShl(c + 1, 0, d);
      ShrShr(Shl(c + 1, d), d, l - root);
      ShrLow(c + 1, l - root);
      ShlShl(Shr(c + 1, l - root), l - root, d);
    }
  }

  lemma NewRootIsFresh(lens: Lens, acts: seq<Action>, order: seq<nat>, root: nat, max: nat, k: nat)
    requires Context(lens, acts, order, root, max) && k + 1 < |order|
    requires Coded(lens, order[k]) && Coded(lens, order[k + 1]) && lens[order[k + 1]] > root
    requires lens[order[k]] > root ==> Prefix(lens, order[k], root) != Prefix(lens, order[k + 1], root)
    ensures FreshRoot(lens, order, root, k + 1)
  {
    Aligned(lens, order, root, k);
    forall j | 0 <= j < k + 1 && Coded(lens, order[j]) && lens[order[j]] > root
      ensures Low(RevCode(lens, order[j]), root) != Low(RevCode(lens, order[k + 1]), root)
    {
      hide Sorted, NotOversubscribed, LensOk, RevCode, Plain;
      PrefixesAscend(lens, order, j, k, root);
      SameRoot(lens, root, order[j], order[k + 1]);
    }
  }

  // All sub-tables opened so far end where the new one starts.
  lemma EarlierEndBefore(lens: Lens, order: seq<nat>, root: nat, max: nat, t: seq<Entry>,
      k: nat, low: int, next: nat, curr: nat, used: nat)
    requires Shape(lens, order, root, max, t, k, low, next, curr, used)
    requires SubTables(lens, order, root, t, k + 1, low, next)
    ensures forall j :: 0 <= j < k + 1 && Coded(lens, order[j]) && lens[order[j]] > root ==>
              var l := t[Low(RevCode(lens, order[j]), root)]; l.val + Pow2(l.op) <= next + Pow2(curr)
  {
    hide Sized, RevCode;
    forall j | 0 <= j < k + 1 && Coded(lens, order[j]) && lens[order[j]] > root
      ensures var l := t[Low(RevCode(lens, order[j]), root)]; l.val + Pow2(l.op) <= next + Pow2(curr)
    {
      assert SubTableOf(lens, root, t, order[j], low, next);
    }
  }

  // A sub-table of half the size would not do for code k.
  ghost predicate NoLarger(lens: Lens, order: seq<nat>, root: nat, k: nat, curr: nat)
    requires k < |order| && Coded(lens, order[k]) && root < lens[order[k]]
  {
    root + curr > lens[order[k]] ==>
      curr >= 1 && EndCode(lens, |lens|, root + curr - 1) < Shl(Prefix(lens, order[k], root) + 1, curr - 1)
  }

  lemma RoomNext(lens: Lens, acts: seq<Action>, order: seq<nat>, root: nat, max: nat, t: seq<Entry>,
      k: nat, low: int, next: nat, curr: nat, used: nat, curr': nat)
    requires Context(lens, acts, order, root, max) && k + 1 < |order| && Opens(lens, order, root, k)
    requires Shape(lens, order, root, max, t, k, low, next, curr, used) && Room(lens, order, root, k, curr, used)
    requires lens[order[k + 1]] <= root + curr' && NoLarger(lens, order, root, k + 1, curr')
    ensures Room(lens, order, root, k + 1, curr', used + Pow2(curr'))
  {
    hide NotOversubscribed, LensOk, RevCode, Sized, Sorted, Plain, Room, Prefix, Code, EndCode;
    if lens[order[k]] > root {
      SizedFits(lens, root, Prefix(lens, order[k], root), curr, max, order[k]);
    }
    RoomOpens(lens, order, root, k, curr, used, curr');
  }

  lemma NewStep(lens: Lens, acts: seq<Action>, order: seq<nat>, root: nat, max: nat, t: seq<Entry>,
      k: nat, low: int, next: nat, curr: nat, used: nat, curr': nat)
    requires Context(lens, acts, order, root, max) && k + 1 < |order|
    requires Entered(lens, acts, order, root, max, t, k, low, next, curr, used)
    requires Coded(lens, order[k + 1]) && lens[order[k + 1]] > root
    requires low != Low(RevCode(lens, order[k + 1]), root)
    requires lens[order[k + 1]] <= root + curr' && used + Pow2(curr') <= |t|
    requires Sized(lens, root, Prefix(lens, order[k + 1], root), curr', max) && NoLarger(lens, order, root, k + 1, curr')
    ensures var low' := Low(RevCode(lens, order[k + 1]), root);
            && low' < |t|
            && State(lens, acts, order, root, max, t[low' := Entry(curr', root, next + Pow2(curr))],
                     k + 1, low', next + Pow2(curr), curr', used + Pow2(curr'))
  {
    hide Filled, SubTables, RevCode, NotOversubscribed, LensOk, Sorted, Plain, Ordered, FreshRoot, Room, Prefix, Code,
      Opens, NoLarger;
    var low' := Low(RevCode(lens, order[k + 1]), root);
    NewRoot(lens, acts, order, root, max, t, k, low, next, curr, used);
    Aligned(lens, order, root, k);
    RoomNext(lens, acts, order, root, max, t, k, low, next, curr, used, curr');
    EarlierEndBefore(lens, order, root, max, t, k, low, next, curr, used);
    NewRootIsFresh(lens, acts, order, root, max, k);
    OrderedAt(lens, order, k + 1);
    LinkKeeps(lens, acts, order, root, t, k + 1, low, next, next + Pow2(curr), Entry(curr', root, next + Pow2(curr)));
  }

  lemma NewRoot(lens: Lens, acts: seq<Action>, order: seq<nat>, root: nat, max: nat, t: seq<Entry>,
      k: nat, low: int, next: nat, curr: nat, used: nat)
    requires Context(lens, acts, order, root, max) && k + 1 < |order|
    requires Shape(lens, order, root, max, t, k, low, next, curr, used)
    requires Coded(lens, order[k + 1]) && lens[order[k + 1]] > root
    requires low != Low(RevCode(lens, order[k + 1]), root)
    ensures lens[order[k]] > root ==> Prefix(lens, order[k], root) != Prefix(lens, order[k + 1], root)
  {
    hide Sized, Sorted, Plain, NotOversubscribed, LensOk, RevCode;
    if lens[order[k]] > root {
      SameRoot(lens, root, order[k], order[k + 1]);
    }
  }

  // ----- counting down the codes that remain ------------------------------------------------------------------

  ghost predicate CountsLeft(lens: Lens, count: seq<nat>, k: nat, len: nat) {
    && |count| == MAX_BITS + 1 && 1 <= len <= MAX_BITS
    && count[len] + k == Offs(lens, len) + Count(lens, |lens|, len)
    && forall b :: len < b <= MAX_BITS ==> count[b] == Count(lens, |lens|, b)
  }

  lemma LengthNotDone(lens: Lens, order: seq<nat>, k: nat, len: nat)
    requires LensOk(lens) && Sorted(lens, order)
    requires 1 <= len && Offs(lens, len) <= k < Offs(lens, len) + Count(lens, |lens|, len)
    ensures k < |order| && Coded(lens, order[k]) && lens[order[k]] == len
  {
    var s := FindRank(lens, |lens|, len, k - Offs(lens, len));
    assert Coded(lens, s) && Pos(lens, s) == k;
  }

  lemma LengthDone(lens: Lens, order: seq<nat>, k: nat, max: nat)
    requires LensOk(lens) && Sorted(lens, order) && k < |order| && Coded(lens, order[k])
    requires k + 1 == Offs(lens, lens[order[k]]) + Count(lens, |lens|, lens[order[k]])
    requires lens[order[k]] <= max && Count(lens, |lens|, max) > 0
    requires forall s :: Coded(lens, s) ==> lens[s] <= max
    ensures lens[order[k]] == max <==> k + 1 == |order|
    ensures k + 1 < |order| ==> Coded(lens, order[k + 1]) && lens[order[k]] < lens[order[k + 1]]
    ensures k + 1 < |order| ==> k + 1 == Offs(lens, lens[order[k + 1]])
  {
    var len := lens[order[k]];
    hide Offs, Count, Used;
    if k + 1 < |order| {
      WorkMonotone(lens, order, k, k + 1);
      NextCode(lens, order, k);
      WorkAt(lens, order, k + 1);
      PosBounds(lens, order[k + 1]);
      OffsMonotone(lens, len, lens[order[k + 1]]);
    } else if len < max {
      OffsMonotone(lens, len, max);
      LengthNotDone(lens, order, Offs(lens, max), max);
    }
  }

  lemma AdvanceCounts(lens: Lens, acts: seq<Action>, order: seq<nat>, root: nat, max: nat, count: seq<nat>, k: nat, len: nat)
    requires Context(lens, acts, order, root, max) && k < |order|
    requires Coded(lens, order[k]) && len == lens[order[k]]
    requires CountsLeft(lens, count, k, len) && Count(lens, |lens|, max) > 0
    ensures |count| == MAX_BITS + 1 && len <= MAX_BITS && count[len] > 0
    ensures k + 1 < |order| ==> Coded(lens, order[k + 1]) && len <= lens[order[k + 1]]
    ensures var count' := count[len := count[len] - 1];
            if count'[len] == 0 then
              && (len == max <==> k + 1 == |order|)
              && (len != max ==> Coded(lens, order[k + 1]) && CountsLeft(lens, count', k + 1, lens[order[k + 1]]))
            else
              k + 1 < |order| && Coded(lens, order[k + 1]) && lens[order[k + 1]] == len && CountsLeft(lens, count', k + 1, len)
  {
    hide Sorted, NotOversubscribed, Plain, Offs, Count;
    WorkAt(lens, order, k);
    PosBounds(lens, order[k]);
    if k + 1 < |order| {
      WorkMonotone(lens, order, k, k + 1);
    }
    if count[len] == 1 {
      LengthDone(lens, order, k, max);
    } else {
      LengthNotDone(lens, order, k + 1, len);
    }
  }

  // ----- the loop -------------------------------------------------------------------------------------------------

  // The reversed code that follows c, or zero when the codes of length len are used up.
  ghost function NextHuff(c: nat, len: nat): nat {
    if c + 1 < Pow2(len) then Reverse(c + 1, len) else 0
  }

  lemma NextHuffIs(lens: Lens, order: seq<nat>, k: nat)
    requires LensOk(lens) && NotOversubscribed(lens) && Sorted(lens, order) && k + 1 < |order|
    requires Coded(lens, order[k]) && Coded(lens, order[k + 1])
    ensures NextHuff(Code(lens, order[k]), lens[order[k]]) == RevCode(lens, order[k + 1])
  {
    hide Code, Sorted, NotOversubscribed, LensOk, Pow2, Shl, Reverse;
    NextCode(lens, order, k);
    CodeFits(lens, order[k + 1]);
    var c, l, d := Code(lens, order[k]), lens[order[k]], lens[order[k + 1]] - lens[order[k]];
    ReverseShl(c + 1, l, d);
    BelowPow2(c + 1, l, d);
  }

  lemma BelowPow2(c: nat, l: nat, d: nat)
    requires Shl(c, d) < Pow2(l + d)
    ensures c < Pow2(l)
  {
    ShlMonotone(Pow2(l), c, d);
    ShlPow2(l, d);
  }

  lemma {:induction false} NothingShorter(lens: Lens, b: nat)
    requires Offs(lens, b) == 0
    ensures FirstCode(lens, |lens|, b) == 0
  {
    if b > 1 {
      NothingShorter(lens, b - 1);
    }
  }

  lemma StartState(lens: Lens, acts: seq<Action>, order: seq<nat>, root: nat, max: nat, t: seq<Entry>, counts: seq<nat>)
    requires Context(lens, acts, order, root, max)
    requires |order| > 0 && Coded(lens, order[0]) && lens[order[0]] <= root
    requires Pow2(root) <= |t| && |counts| == MAX_BITS + 1
    requires forall b :: 0 <= b <= MAX_BITS ==> counts[b] == Count(lens, |lens|, b)
    ensures State(lens, acts, order, root, max, t, 0, -1, 0, root, Pow2(root))
    ensures CountsLeft(lens, counts, 0, lens[order[0]])
    ensures RevCode(lens, order[0]) == 0
  {
    hide Sorted, Plain, NotOversubscribed;
    WorkAt(lens, order, 0);
    NothingShorter(lens, lens[order[0]]);
    ReverseZero(lens[order[0]]);
  }

  lemma {:induction false} ReverseZero(n: nat)
    ensures Reverse(0, n) == 0
  {
    if n > 0 {
      ReverseZero(n - 1);
    }
  }

  ghost predicate Untouched(t0: seq<Entry>, t: seq<Entry>, used: nat) {
    |t| == |t0| && forall i :: used <= i < |t| ==> t[i] == t0[i]
  }

  lemma FillUntouched(t0: seq<Entry>, t: seq<Entry>, t': seq<Entry>, base: nat, size: nat, l: nat, h: nat, e: Entry, used: nat)
    requires Untouched(t0, t, used) && Wrote(t, t', base, size, l, h, e) && base + size <= used
    ensures Untouched(t0, t', used)
  {
  }

  // What the sub-table size calculation needs to know about the code that opens the sub-table.
  lemma BeforeSizing(lens: Lens, acts: seq<Action>, order: seq<nat>, root: nat, max: nat, t: seq<Entry>,
      k: nat, low: int, next: nat, curr: nat, used: nat, count: seq<nat>, len: nat)
    requires Context(lens, acts, order, root, max) && k + 1 < |order|
    requires Shape(lens, order, root, max, t, k, low, next, curr, used)
    requires Coded(lens, order[k + 1]) && lens[order[k + 1]] == len > root
    requires low != Low(RevCode(lens, order[k + 1]), root)
    requires CountsLeft(lens, count, k + 1, len)
    ensures len <= max
    ensures count[len] + Shl(Prefix(lens, order[k + 1], root), len - root) == EndCode(lens, |lens|, len)
    ensures forall b :: len < b <= MAX_BITS ==> count[b] == Total(lens, |lens|, b)
  {
    hide RevCode, Low, Pow2;
    NewRoot(lens, acts, order, root, max, t, k, low, next, curr, used);
    Aligned(lens, order, root, k);
    WorkAt(lens, order, k + 1);
  }

  // One code goes into the table.
  method EnterOne(kind: Kind, lens: Lens, table: array<Entry>, root: nat, max: nat, sym: nat, ghost order: seq<nat>,
      ghost k: nat, huff: nat, len: nat, drop: nat, ghost low: int, next: nat, curr: nat, ghost used: nat)
    returns (huff': nat)
    requires |lens| <= SymbolLimit(kind) && Context(lens, Actions(kind), order, root, max)
    requires State(lens, Actions(kind), order, root, max, table[..], k, low, next, curr, used)
    requires sym == order[k] && len == lens[sym] && huff == RevCode(lens, sym) && drop == Drop(len, root)
    modifies table
    ensures Entered(lens, Actions(kind), order, root, max, table[..], k, low, next, curr, used)
    ensures huff' == NextHuff(Code(lens, sym), len)
    ensures Untouched(old(table[..]), table[..], used)
  {
    hide SymAction, Filled, SubTables, RevCode, NotOversubscribed, LensOk, Plain, Sorted, Sized, Prefix, Code, Wrote,
      Reverse, Low, Shr, Room, Pow2;
    ghost var acts := Actions(kind);
    ghost var t := table[..];
    CodeFitsTable(lens, acts, order, root, max, t, k, low, next, curr, used);
    var act := SymAction(kind, sym);
    var e := Entry(act.op, len - drop, act.val);
    Fill(table, next, curr, len - drop, Shr(huff, drop), e);
    EnterStep(lens, acts, order, root, max, t, table[..], k, low, next, curr, used);
    FillUntouched(t, t, table[..], next, Pow2(curr), len - drop, Shr(huff, drop), e, used);
    CodeFits(lens, sym);
    RevCodeIs(lens, sym);
    huff' := BackIncrement(huff, len, Code(lens, sym));
  }

  lemma RevCodeIs(lens: Lens, s: nat)
    requires s < |lens|
    ensures RevCode(lens, s) == Reverse(Code(lens, s), lens[s])
  {
  }

  // Starts the sub-table for the next code; ret is 1 if a LENS table would get too large.
  method OpenSubTable(kind: Kind, lens: Lens, table: array<Entry>, root: nat, max: nat, ghost order: seq<nat>,
      ghost k: nat, huff: nat, len: nat, ghost low: int, next: nat, curr: nat, used: nat, count: seq<nat>)
    returns (ret: int, low': nat, next': nat, curr': nat, used': nat)
    requires |lens| <= SymbolLimit(kind) && Context(lens, Actions(kind), order, root, max) && k + 1 < |order|
    requires Entered(lens, Actions(kind), order, root, max, table[..], k, low, next, curr, used)
    requires Coded(lens, order[k + 1]) && lens[order[k + 1]] == len > root && huff == RevCode(lens, order[k + 1])
    requires low != Low(huff, root) && CountsLeft(lens, count, k + 1, len)
    requires Complete(lens) || max == 1
    requires table.Length >= Limit(|lens|, root, max)
    modifies table
    ensures ret == 0 || (ret == 1 && kind == LENS && Limit(|lens|, root, max) >= ENOUGH - MAXD)
    ensures ret == 0 ==> State(lens, Actions(kind), order, root, max, table[..], k + 1, low', next', curr', used')
    ensures ret == 0 ==> used <= used' && Untouched(old(table[..]), table[..], used')
  {
    hide SymAction, Filled, SubTables, RevCode, NotOversubscribed, LensOk, Plain, Sorted, Sized, Prefix, Code, Pow2,
      Low, EndCode, Total, Count;
    ghost var acts := Actions(kind);
    ghost var t := table[..];
    ghost var s := order[k + 1];
    BeforeSizing(lens, acts, order, root, max, t, k, low, next, curr, used, count, len);
    next' := next + Pow2(curr);
    curr' := SubTableBits(lens, count, len, root, max, Prefix(lens, s, root));
    used' := used + Pow2(curr');
    NewRoot(lens, acts, order, root, max, t, k, low, next, curr, used);
    Aligned(lens, order, root, k);
    SizedBounds(lens, root, Prefix(lens, s, root), curr', max);
    RoomNext(lens, acts, order, root, max, t, k, low, next, curr, used, curr');
    RoomBound(lens, order, root, max, k + 1, curr', used');
    if kind == LENS && used' >= ENOUGH - MAXD {
      low', ret := 0, 1;
      return;
    }
    low' := Low(huff, root);
    NewStep(lens, acts, order, root, max, t, k, low, next, curr, used, curr');
    table[low'] := Entry(curr', root, next');
    assert table[..] == t[low' := Entry(curr', root, next')];
    ret := 0;
  }

  lemma SizedBounds(lens: Lens, root: nat, p: nat, curr: nat, max: nat)
    requires Sized(lens, root, p, curr, max)
    ensures curr + root <= max
  {
  }

  lemma AllEntered(lens: Lens, acts: seq<Action>, order: seq<nat>, root: nat, max: nat, t: seq<Entry>,
      k: nat, low: int, next: nat, curr: nat, used: nat)
    requires k + 1 == |order| && Context(lens, acts, order, root, max) && (Complete(lens) || max == 1)
    requires Entered(lens, acts, order, root, max, t, k, low, next, curr, used)
    ensures Pow2(root) <= used <= Limit(|lens|, root, max) && Filled(lens, acts, order, root, t, |order|)
    ensures Coded(lens, order[k]) && (lens[order[k]] <= root ==> next == 0)
  {
    hide Filled, SubTables, Sized, RevCode, Prefix, Sorted, NotOversubscribed, LensOk, Complete, Plain, Room;
    if lens[order[k]] > root {
      RoomBound(lens, order, root, max, k, curr, used);
    } else {
      assert used == Pow2(root);
    }
  }

  // Enters all codes in order, opening sub-tables as they are needed. On return 0 the local
  // variables that the rest of the function uses come back as they are after the loop.
  method EnterCodes(kind: Kind, lens: Lens, table: array<Entry>, root: nat, min: nat, max: nat, counts: seq<nat>,
      work: array<nat>, ghost order: seq<nat>)
    returns (ret: int, used: nat, huff: nat, len: nat, drop: nat, low: int, next: nat)
    requires |lens| <= SymbolLimit(kind) && Context(lens, Actions(kind), order, root, max)
    requires 0 < |order| <= work.Length && work[..|order|] == order
    requires Coded(lens, order[0]) && lens[order[0]] == min <= root
    requires |counts| == MAX_BITS + 1 && counts[max] > 0
    requires forall b :: 0 <= b <= MAX_BITS ==> counts[b] == Count(lens, |lens|, b)
    requires Complete(lens) || max == 1
    requires table.Length >= Limit(|lens|, root, max)
    modifies table
    ensures ret == 0 || (ret == 1 && kind == LENS && Limit(|lens|, root, max) >= ENOUGH - MAXD)
    ensures ret == 0 ==>
              && Pow2(root) <= used <= Limit(|lens|, root, max)
              && Filled(lens, Actions(kind), order, root, table[..], |order|)
              && Coded(lens, order[|order| - 1]) && len == lens[order[|order| - 1]] == max
              && huff == NextHuff(Code(lens, order[|order| - 1]), len)
              && drop == Drop(len, root) && (len <= root ==> next == 0)
    ensures ret == 0 ==> forall i :: used <= i < table.Length ==> table[i] == old(table[i])
  {
    hide SymAction, Filled, SubTables, RevCode, NotOversubscribed, LensOk, Plain, Sorted, Sized, Prefix, Code, Count,
      Offs, Pow2, Low, State, CountsLeft, Shape;
    ghost var acts := Actions(kind);
    ghost var t0 := table[..];
    var sym := 0;
    var count := counts;
    len := min;
    huff, low, next, drop, ret := 0, -1, 0, 0, 0;
    var curr := root;
    used := Pow2(root);
    if kind == LENS && used >= ENOUGH - MAXD {
      ret := 1;
      return;
    }
    StartState(lens, acts, order, root, max, table[..], counts);
    while true
      invariant sym < |order| && work[sym] == order[sym]
      invariant State(lens, acts, order, root, max, table[..], sym, low, next, curr, used)
      invariant Coded(lens, order[sym]) && len == lens[order[sym]] && huff == RevCode(lens, order[sym])
      invariant CountsLeft(lens, count, sym, len) && drop == Drop(len, root)
      invariant |count| == MAX_BITS + 1 && len <= MAX_BITS
      invariant Untouched(t0, table[..], used)
      decreases |order| - sym
    {
      huff := EnterOne(kind, lens, table, root, max, work[sym], order, sym, huff, len, drop, low, next, curr, used);
      AdvanceCounts(lens, acts, order, root, max, count, sym, len);
      count := count[len := count[len] - 1];
      if count[len] == 0 {
        if len == max {
          AllEntered(lens, acts, order, root, max, table[..], sym, low, next, curr, used);
          return;
        }
        len := lens[work[sym + 1]];
      }
      NextHuffIs(lens, order, sym);
      if len > root && Low(huff, root) != low {
        if drop == 0 {
          drop := root;
        }
        ret, low, next, curr, used := OpenSubTable(kind, lens, table, root, max, order, sym, huff, len, low, next, curr, used, count);
        if ret != 0 {
          return;
        }
      } else {
        StayStep(lens, acts, order, root, max, table[..], sym, low, next, curr, used);
      }
      sym := sym + 1;
    }
  }

  // ----- after the loop -----------------------------------------------------------------------------------------------

  lemma FilledLooksUp(lens: Lens, acts: seq<Action>, order: seq<nat>, root: nat, max: nat, t: seq<Entry>)
    requires Context(lens, acts, order, root, max) && Filled(lens, acts, order, root, t, |order|)
    ensures forall s, w: nat :: Coded(lens, s) && Low(w, lens[s]) == RevCode(lens, s) ==>
              LooksUp(t, root, w, acts[s], lens[s])
  {
    forall s, w: nat | Coded(lens, s) && Low(w, lens[s]) == RevCode(lens, s)
      ensures LooksUp(t, root, w, acts[s], lens[s])
    {
      assert order[Pos(lens, s)] == s;
      hide Sorted, RevCode, LooksUp, Pos;
      PlacedLooksUp(lens, acts, root, t, s, w);
    }
  }

  lemma CompleteDecodes(lens: Lens, acts: seq<Action>, order: seq<nat>, root: nat, max: nat, t: seq<Entry>)
    requires Context(lens, acts, order, root, max) && Filled(lens, acts, order, root, t, |order|)
    requires Complete(lens)
    ensures Decodes(lens, acts, t, root)
  {
    FilledLooksUp(lens, acts, order, root, max, t);
    forall w: nat
      ensures !NoCodeMatches(lens, w)
    {
      var s := FindRevCode(lens, w);
    }
  }

  lemma CompleteEnds(lens: Lens, order: seq<nat>)
    requires LensOk(lens) && Sorted(lens, order) && |order| > 0 && Complete(lens)
    ensures Coded(lens, order[|order| - 1])
    ensures NextHuff(Code(lens, order[|order| - 1]), lens[order[|order| - 1]]) == 0
  {
    var m: nat := MAX_BITS;
    LastCode(lens, order, m);
    var c, l := Code(lens, order[|order| - 1]), lens[order[|order| - 1]];
    WholeSpace(c + 1, l, m);
  }

  lemma WholeSpace(c: nat, l: nat, m: nat)
    requires l <= m && Shl(c, m - l) == Pow2(m)
    ensures c == Pow2(l)
  {
    ShlPow2(l, m - l);
    ShlMonotone(c, Pow2(l), m - l);
    ShlMonotone(Pow2(l), c, m - l);
  }

  // With one code of one bit the code is zero, and one is the only index left to fill.
  lemma LastShortCode(lens: Lens, order: seq<nat>, m: nat)
    requires LensOk(lens) && Sorted(lens, order) && |order| > 0 && OneShortCode(lens) && m == MAX_BITS
    ensures Coded(lens, order[|order| - 1]) && lens[order[|order| - 1]] == 1
    ensures Code(lens, order[|order| - 1]) == 0
  {
    hide Code, Sorted, LensOk, KraftAt, Pow2, Shl;
    LastCode(lens, order, m);
    var c := Code(lens, order[|order| - 1]);
    ShlMonotone(2, c + 1, m - 1);
    ShlPow2(1, m - 1);
    Pow2Values();
  }

  lemma ShortEnds(lens: Lens, order: seq<nat>)
    requires LensOk(lens) && NotOversubscribed(lens) && Sorted(lens, order) && |order| > 0 && OneShortCode(lens)
    ensures forall s :: Coded(lens, s) ==> lens[s] == 1 && RevCode(lens, s) == 0
    ensures Coded(lens, order[|order| - 1])
    ensures NextHuff(Code(lens, order[|order| - 1]), lens[order[|order| - 1]]) == 1
  {
    hide Code, Kraft, NotOversubscribed, LensOk, Pos;
    LastShortCode(lens, order, MAX_BITS);
    assert Reverse(1, 1) == 1 && Reverse(0, 1) == 0 && Pow2(1) == 2;
    forall s | Coded(lens, s)
      ensures lens[s] == 1 && RevCode(lens, s) == 0
    {
      assert order[Pos(lens, s)] == s;
      CodesAscend(lens, order, Pos(lens, s), |order| - 1);
    }
  }

  // Writing root entry 1 disturbs no code whose only bit is zero.
  lemma ShortStays(lens: Lens, acts: seq<Action>, t: seq<Entry>, e: Entry, s: nat)
    requires Coded(lens, s) && |lens| <= |acts| && lens[s] == 1 && RevCode(lens, s) == 0 && |t| >= 2
    requires Placed(lens, acts, 1, t, s)
    ensures Placed(lens, acts, 1, t[1 := e], s)
  {
    assert Pow2(1) == 2 && Low(1, 1) == 1;
    forall i: nat | i < Pow2(1) && Low(i, lens[s]) == 0
      ensures t[1 := e][0 + i] == t[0 + i]
    {
    }
  }

  lemma ShortDecodes(lens: Lens, acts: seq<Action>, order: seq<nat>, max: nat, t: seq<Entry>)
    requires Context(lens, acts, order, 1, max) && Filled(lens, acts, order, 1, t, |order|)
    requires |order| > 0 && OneShortCode(lens) && |t| >= 2
    ensures Decodes(lens, acts, t[1 := Entry(64, 1, 0)], 1)
  {
    var t' := t[1 := Entry(64, 1, 0)];
    ShortEnds(lens, order);
    var last := order[|order| - 1];
    assert Filled(lens, acts, order, 1, t', |order|) by {
      hide NotOversubscribed, Sorted, RevCode, LensOk, Placed;
      forall j | 0 <= j < |order|
        ensures Coded(lens, order[j]) && Placed(lens, acts, 1, t', order[j])
      {
        ShortStays(lens, acts, t, Entry(64, 1, 0), order[j]);
      }
    }
    FilledLooksUp(lens, acts, order, 1, max, t');
    hide NotOversubscribed, Sorted, Filled, RevCode, LensOk;
    forall w: nat | NoCodeMatches(lens, w)
      ensures LooksUp(t', 1, w, INVALID, 1)
    {
      assert Low(w, lens[last]) != 0;
    }
  }

  // Fills what an incomplete code leaves open. The tests are those of the source; with the one
  // incomplete code it admits, only the root entry 1 is ever written.
  method FillRest(table: array<Entry>, root: nat, huff0: nat, len0: nat, drop0: nat, low: int, next0: nat)
    requires huff0 == 0 || (huff0 == 1 && len0 == 1 && drop0 == 0 && next0 == 0 && root == 1)
    requires table.Length >= 2 && drop0 <= len0
    modifies table
    ensures table[..] == if huff0 == 0 then old(table[..]) else old(table[..])[1 := Entry(64, 1, 0)]
  {
    var huff := huff0;
    var len: int, drop: int, next: int := len0, drop0, next0;
    var bits := len - drop;
    while huff != 0
      invariant huff0 == 0 ==> huff == 0 && table[..] == old(table[..])
      invariant huff0 == 1 ==> len == bits == root == 1 && drop == 0 && next == 0
      invariant huff0 == 1 ==> (huff == 1 && table[..] == old(table[..])) ||
                               (huff == 0 && table[..] == old(table[..])[1 := Entry(64, 1, 0)])
      decreases huff
    {
      if drop != 0 && Low(huff, root) != low {
        drop, len, next := 0, root, 0;
        bits := len;
      }
      table[next + Shr(huff, drop)] := Entry(64, bits, 0);
      assert Pow2(1) == 2 && Reverse(1, 1) == 1;
      huff := BackIncrement(huff, len, 1);
    }
  }

  // ----- the whole function ---------------------------------------------------------------------------------------------

  lemma ActionsPlain(kind: Kind)
    ensures Plain(Actions(kind))
  {
    hide Actions;
    forall s | 0 <= s < SymbolLimit(kind)
      ensures !(0 < SymAction(kind, s).op < 16)
    {
      PlainAction(kind, s);
    }
  }

  lemma PlainAction(kind: Kind, s: nat)
    requires s < SymbolLimit(kind)
    ensures !(0 < SymAction(kind, s).op < 16)
  {
  }

  // The longest length bounds all lengths, and is zero exactly when nothing has a code.
  lemma LongestBounds(lens: Lens, counts: seq<nat>, max: nat)
    requires LensOk(lens) && |counts| == MAX_BITS + 1 && max <= MAX_BITS
    requires forall b :: 0 <= b <= MAX_BITS ==> counts[b] == Count(lens, |lens|, b)
    requires forall b :: max < b <= MAX_BITS ==> counts[b] == 0
    requires max > 0 ==> counts[max] != 0
    ensures forall s :: Coded(lens, s) ==> lens[s] <= max
    ensures max == 0 <==> NoCodes(lens)
    ensures max > 0 ==> exists s :: Coded(lens, s) && lens[s] == max
  {
    forall s | Coded(lens, s)
      ensures lens[s] <= max
    {
      CountMonotone(lens, s, |lens|, lens[s]);
    }
    if max > 0 {
      var s := FindRank(lens, |lens|, max, 0);
      assert Coded(lens, s);
    }
  }

  lemma FirstIsShortest(lens: Lens, order: seq<nat>, counts: seq<nat>, min: nat)
    requires LensOk(lens) && Sorted(lens, order) && |counts| == MAX_BITS + 1 && 1 <= min <= MAX_BITS
    requires forall b :: 0 <= b <= MAX_BITS ==> counts[b] == Count(lens, |lens|, b)
    requires forall b :: 1 <= b < min ==> counts[b] == 0
    requires counts[min] != 0
    ensures |order| > 0 && Coded(lens, order[0]) && lens[order[0]] == min
  {
    var s := FindRank(lens, |lens|, min, 0);
    PosBelowUsed(lens, s);
    WorkAt(lens, order, 0);
    WorkMonotone(lens, order, 0, Pos(lens, s));
    CountMonotone(lens, order[0], |lens|, lens[order[0]]);
  }

  lemma EmptyDecodes(kind: Kind, lens: Lens, acts: seq<Action>, t: seq<Entry>)
    requires NoCodes(lens) && |lens| <= |acts| && |t| >= 2
    requires t[0] == t[1] == Entry(64, 1, 0)
    ensures Decodes(lens, acts, t, 1)
    ensures Acceptable(kind, lens) && Pow2(1) == 2
  {
    assert Pow2(1) == 2;
  }

  lemma OneShortRoot(kind: Kind, lens: Lens, max: nat)
    requires Acceptable(kind, lens) && !NoCodes(lens) && !Complete(lens)
    requires exists s :: Coded(lens, s) && lens[s] == max
    ensures max == 1 && OneShortCode(lens)
  {
  }

  lemma AcceptableIs(kind: Kind, lens: Lens, max: nat, left: int)
    requires LensOk(lens)
    requires forall s :: Coded(lens, s) ==> lens[s] <= max
    requires exists s :: Coded(lens, s) && lens[s] == max
    requires left < 0 <==> !NotOversubscribed(lens)
    requires left >= 0 ==> left + Kraft(lens) == Pow2(MAX_BITS)
    ensures Acceptable(kind, lens) <==> left == 0 || (left > 0 && kind != CODES && max == 1)
    ensures !NoCodes(lens)
  {
    hide KraftAt, Pow2;
    var s :| Coded(lens, s) && lens[s] == max;
  }

  lemma RootLimit(kind: Kind, lens: Lens, order: seq<nat>, bits: nat, root: nat, max: nat, min: nat)
    requires |lens| <= SymbolLimit(kind) && LensOk(lens) && Acceptable(kind, lens) && !NoCodes(lens) && Sorted(lens, order)
    requires |order| > 0 && Coded(lens, order[0]) && lens[order[0]] == min && 1 <= min <= max <= MAX_BITS && 1 <= bits <= MAX_BITS
    requires exists s :: Coded(lens, s) && lens[s] == max
    requires root == if max < bits then max else if bits < min then min else bits
    ensures Limit(|lens|, root, max) <= Space(kind, bits)
  {
    hide SymbolLimit, Limit, Space, Pow2, LensOk, Pos, Used;
    if Complete(lens) {
      forall s | Coded(lens, s)
        ensures min <= lens[s]
      {
        assert order[Pos(lens, s)] == s;
        WorkMonotone(lens, order, 0, Pos(lens, s));
      }
      EnoughSymbols(lens, min, MAX_BITS);
    } else {
      OneShortRoot(kind, lens, max);
    }
    SpaceSuffices(kind, |lens|, bits, root, max, min);
  }

  // The codes of an acceptable, nonempty set of lengths go into the table.
  method BuildTable(kind: Kind, lens: Lens, table: array<Entry>, root: nat, min: nat, max: nat, counts: seq<nat>,
      work: array<nat>, ghost order: seq<nat>)
    returns (ret: int, used: nat)
    requires |lens| <= SymbolLimit(kind) && Context(lens, Actions(kind), order, root, max)
    requires 0 < |order| <= work.Length && work[..|order|] == order
    requires Coded(lens, order[0]) && lens[order[0]] == min <= root
    requires |counts| == MAX_BITS + 1 && counts[max] > 0
    requires forall b :: 0 <= b <= MAX_BITS ==> counts[b] == Count(lens, |lens|, b)
    requires Acceptable(kind, lens) && !NoCodes(lens)
    requires exists s :: Coded(lens, s) && lens[s] == max
    requires table.Length >= Limit(|lens|, root, max)
    modifies table
    ensures ret == 0 || (ret == 1 && kind == LENS && Limit(|lens|, root, max) >= ENOUGH - MAXD)
    ensures ret == 0 ==> Decodes(lens, Actions(kind), table[..], root)
    ensures ret == 0 ==> Pow2(root) <= used <= Limit(|lens|, root, max)
    ensures ret == 0 ==> forall i :: used <= i < table.Length ==> table[i] == old(table[i])
  {
    hide SymAction, Decodes, Sorted, Filled, Plain, NotOversubscribed, LensOk, Acceptable, NoCodes, OneShortCode, Code;
    ghost var acts := Actions(kind);
    if !Complete(lens) {
      OneShortRoot(kind, lens, max);
    }
    var huff, len, drop, low, next;
    ret, used, huff, len, drop, low, next := EnterCodes(kind, lens, table, root, min, max, counts, work, order);
    if ret != 0 {
      return;
    }
    ghost var t := table[..];
    if Complete(lens) {
      CompleteEnds(lens, order);
      CompleteDecodes(lens, acts, order, root, max, t);
    } else {
      OneShortRoot(kind, lens, max);
      ShortEnds(lens, order);
      ShortDecodes(lens, acts, order, max, t);
    }
    FillRest(table, root, huff, len, drop, low, next);
    assert table[..] == if huff == 0 then t else t[1 := Entry(64, 1, 0)];
  }

  // Returns 0 and a table that decodes the code; -1 exactly when the lengths are not acceptable; 1
  // only if a LENS table might be too large for ENOUGH. The table occupies the first `used` entries.
  method InflateTable(kind: Kind, lens: Lens, table: array<Entry>, bits: nat, work: array<nat>)
    returns (ret: int, used: nat, root: nat)
    requires LensOk(lens) && |lens| <= SymbolLimit(kind) && |lens| <= work.Length
    requires 1 <= bits <= MAX_BITS && table.Length >= Space(kind, bits)
    modifies table, work
    ensures ret == -1 <==> !Acceptable(kind, lens)
    ensures ret == -1 || ret == 0 || (ret == 1 && kind == LENS && Space(kind, bits) >= ENOUGH - MAXD)
    ensures ret == 0 ==> Decodes(lens, Actions(kind), table[..], root)
    ensures ret == 0 ==> Pow2(root) <= used <= Space(kind, bits)
    ensures ret == 0 ==> forall s :: Coded(lens, s) && lens[s] <= bits ==> lens[s] <= root
    ensures ret == 0 ==> forall i :: used <= i < table.Length ==> table[i] == old(table[i])
  {
    hide SymAction, Decodes, Sorted, Filled, Plain, Pow2, Kraft, LensOk, Acceptable, NoCodes, Count;
    var counts := CountLengths(lens);
    root := bits;
    var max := LongestLength(counts);
    LongestBounds(lens, counts, max);
    if root > max {
      root := max;
    }
    if max == 0 {
      table[0], table[1] := Entry(64, 1, 0), Entry(64, 1, 0);
      ret, used, root := 0, 2, 1;
      EmptyDecodes(kind, lens, Actions(kind), table[..]);
      return;
    }
    var min := ShortestLength(counts, max);
    if root < min {
      root := min;
    }
    var left := FreeSpace(lens, counts);
    AcceptableIs(kind, lens, max, left);
    if left < 0 {
      ret, used := -1, 0;
      return;
    }
    if left > 0 && (kind == CODES || max != 1) {
      ret, used := -1, 0;
      return;
    }
    var n := SortSymbols(lens, counts, work);
    FirstIsShortest(lens, work[..n], counts, min);
    ActionsPlain(kind);
    RootLimit(kind, lens, work[..n], bits, root, max, min);
    ret, used := BuildTable(kind, lens, table, root, min, max, counts, work, work[..n]);
  }
}
