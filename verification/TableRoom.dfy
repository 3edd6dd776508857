/** How large the tables of `inflate_table` get. A sub-table either holds codes of one length only, and
    then has as many entries as codes; or it ends with longer codes than it starts with, and then no
    later sub-table of that kind has the same size. */
module TableRoom {
  import opened Bits
  import opened Canonical
  import opened InfTreesSpec
  import opened SymbolOrder
  import opened InfTrees

  // The sub-table that holds code k was opened for code j, when the tables took no more than the root
  // table, one entry for each code before j, and all sizes of sub-tables below that of code j.
  ghost predicate Opened(lens: Lens, order: seq<nat>, root: nat, k: nat, j: nat, curr: nat, used: nat) {
    && j <= k < |order| && Coded(lens, order[j]) && Coded(lens, order[k]) && root < lens[order[j]] <= lens[order[k]]
    && var l, p := lens[order[j]], Prefix(lens, order[k], root);
       && Prefix(lens, order[j], root) == p && Code(lens, order[j]) == Shl(p, l - root) && l <= root + curr && curr >= 1
       && (l == root + curr ==> lens[order[k]] == l && Code(lens, order[k]) == Code(lens, order[j]) + (k - j))
       && (l < root + curr ==> EndCode(lens, |lens|, root + curr - 1) < Shl(p + 1, curr - 1))
       && used <= Pow2(root) + j + Pow2(l - root + 1) + Pow2(curr)
  }

  ghost predicate Room(lens: Lens, order: seq<nat>, root: nat, k: nat, curr: nat, used: nat)
    requires k < |order| && Coded(lens, order[k])
  {
    if lens[order[k]] <= root then used == Pow2(root)
    else exists j: nat :: Opened(lens, order, root, k, j, curr, used)
  }

  // The next code stays in the sub-table.
  lemma RoomStays(lens: Lens, order: seq<nat>, root: nat, max: nat, k: nat, curr: nat, used: nat)
    requires LensOk(lens) && NotOversubscribed(lens) && Sorted(lens, order) && k + 1 < |order|
    requires Coded(lens, order[k]) && Coded(lens, order[k + 1]) && Room(lens, order, root, k, curr, used)
    requires lens[order[k]] <= lens[order[k + 1]] && (lens[order[k]] <= root <==> lens[order[k + 1]] <= root)
    requires lens[order[k]] > root ==> Prefix(lens, order[k], root) == Prefix(lens, order[k + 1], root)
    requires lens[order[k + 1]] > root ==> lens[order[k + 1]] <= root + curr
    ensures Room(lens, order, root, k + 1, curr, used)
  {
    hide NotOversubscribed, LensOk, Sorted, Prefix, Code, EndCode, Pow2;
    if lens[order[k]] > root {
      var j: nat :| Opened(lens, order, root, k, j, curr, used);
      NextCode(lens, order, k);
      ShlNothing(Code(lens, order[k]) + 1);
      assert Opened(lens, order, root, k + 1, j, curr, used);
    }
  }

  lemma ShlNothing(x: nat)
    ensures Shl(x, 0) == x
  {
  }

  // What is known of the code that opens a sub-table.
  ghost predicate Opens(lens: Lens, order: seq<nat>, root: nat, k: nat) {
    && k + 1 < |order| && Coded(lens, order[k]) && Coded(lens, order[k + 1]) && root < lens[order[k + 1]]
    && lens[order[k]] <= lens[order[k + 1]]
    && var l, p := lens[order[k + 1]], Prefix(lens, order[k + 1], root);
       && Code(lens, order[k + 1]) == Shl(p, l - root)
       && (lens[order[k]] > root ==> p == Prefix(lens, order[k], root) + 1 && Code(lens, order[k]) + 1 == Shl(p, lens[order[k]] - root))
  }

  // A sub-table of codes of one length only is full when it is closed.
  lemma CloseEven(lens: Lens, order: seq<nat>, root: nat, k: nat, j: nat, curr: nat, used: nat)
    requires Opened(lens, order, root, k, j, curr, used) && Opens(lens, order, root, k) && lens[order[j]] == root + curr
    ensures used <= Pow2(root) + (k + 1) + Pow2(lens[order[k + 1]] - root + 1)
  {
    hide Prefix, Code, EndCode, Pow2, Shl;
    var p := Prefix(lens, order[k], root);
    ShlAdd(p, 1, curr);
    ShlPow2(0, curr);
    Pow2Steps(0);
    Pow2Monotone(curr + 1, lens[order[k + 1]] - root + 1);
  }

  // The last code of the other kind of sub-table is as long as any of its codes may be.
  lemma LastIsLongest(lens: Lens, root: nat, p: nat, s: nat, curr: nat)
    requires Coded(lens, s) && root < lens[s] <= root + curr && Code(lens, s) + 1 == Shl(p + 1, lens[s] - root)
    requires EndCode(lens, |lens|, root + curr - 1) < Shl(p + 1, curr - 1)
    ensures lens[s] == root + curr
  {
    hide Pow2, Shl, EndCode;
    var l := lens[s];
    if l < root + curr {
      var d := root + curr - 1 - l;
      assert l - root + d == curr - 1 && l + d == root + curr - 1;
      CodeBelowEnd(lens, s);
      EndCodeGrows(lens, l, d);
      ShlMonotone(Shl(p + 1, l - root), EndCode(lens, |lens|, l), d);
      ShlShl(p + 1, l - root, d);
    }
  }

  lemma CodeBelowEnd(lens: Lens, s: nat)
    requires Coded(lens, s)
    ensures Code(lens, s) + 1 <= EndCode(lens, |lens|, lens[s])
  {
    CountMonotone(lens, s + 1, |lens|, lens[s]);
  }

  lemma CloseMixed(lens: Lens, order: seq<nat>, root: nat, k: nat, j: nat, curr: nat, used: nat)
    requires Opened(lens, order, root, k, j, curr, used) && Opens(lens, order, root, k) && lens[order[j]] < root + curr
    requires lens[order[k]] <= root + curr
    ensures used <= Pow2(root) + (k + 1) + Pow2(lens[order[k + 1]] - root + 1)
  {
    hide Prefix, Code, EndCode, Pow2, Shl;
    var p := Prefix(lens, order[k], root);
    LastIsLongest(lens, root, p, order[k], curr);
    Pow2Monotone(lens[order[j]] - root + 1, curr);
    Pow2Steps(curr);
    Pow2Monotone(curr + 1, lens[order[k + 1]] - root + 1);
  }

  // The next code opens a sub-table.
  lemma RoomOpens(lens: Lens, order: seq<nat>, root: nat, k: nat, curr: nat, used: nat, curr': nat)
    requires Opens(lens, order, root, k) && Room(lens, order, root, k, curr, used)
    requires lens[order[k]] > root ==> lens[order[k]] <= root + curr
    requires lens[order[k + 1]] <= root + curr'
    requires var l, p := lens[order[k + 1]], Prefix(lens, order[k + 1], root);
             l < root + curr' ==> EndCode(lens, |lens|, root + curr' - 1) < Shl(p + 1, curr' - 1)
    ensures Room(lens, order, root, k + 1, curr', used + Pow2(curr'))
  {
    hide Prefix, Code, EndCode, Pow2, Shl;
    if lens[order[k]] > root {
      var j: nat :| Opened(lens, order, root, k, j, curr, used);
      if lens[order[j]] == root + curr {
        CloseEven(lens, order, root, k, j, curr, used);
      } else {
        CloseMixed(lens, order, root, k, j, curr, used);
      }
    }
    assert Opened(lens, order, root, k + 1, k + 1, curr', used + Pow2(curr'));
  }

  // ----- the bound -----------------------------------------------------------------------------------------------

  // Codes of one length follow each other in the order.
  lemma CodesLeft(lens: Lens, order: seq<nat>, j: nat)
    requires LensOk(lens) && Sorted(lens, order) && j < |order| && Coded(lens, order[j])
    ensures j + EndCode(lens, |lens|, lens[order[j]]) - Code(lens, order[j]) <= |order|
  {
    WorkAt(lens, order, j);
    OffsMonotone(lens, lens[order[j]], MAX_BITS + 1);
  }

  lemma WholeCodeSpace(lens: Lens, max: nat, m: nat)
    requires Complete(lens) && m == MAX_BITS && max <= m && forall s :: Coded(lens, s) ==> lens[s] <= max
    ensures EndCode(lens, |lens|, max) == Pow2(max)
  {
    hide Pow2, KraftAt, Shl;
    KraftIsEndCode(lens, |lens|, m);
    NothingLonger(lens, max, m - max);
    ShlPow2(max, m - max);
    ShlCancel(EndCode(lens, |lens|, max), Pow2(max), m - max);
  }

  lemma {:induction false} ShlCancel(x: nat, y: nat, k: nat)
    requires Shl(x, k) == Shl(y, k)
    ensures x == y
    decreases k
  {
    if k > 0 {
      ShlTwice(x, k);
      ShlTwice(y, k);
      ShlCancel(x, y, k - 1);
    }
  }

  lemma {:induction false} NothingLonger(lens: Lens, b: nat, d: nat)
    requires forall s :: Coded(lens, s) ==> lens[s] <= b
    ensures EndCode(lens, |lens|, b + d) == Shl(EndCode(lens, |lens|, b), d)
    decreases d
  {
    if d > 0 {
      NothingLonger(lens, b, d - 1);
      NoneOfLength(lens, |lens|, b + d);
    }
  }

  lemma {:induction false} NoneOfLength(lens: Lens, n: nat, b: nat)
    requires n <= |lens| && b > 0 && forall s :: Coded(lens, s) ==> lens[s] < b
    ensures Count(lens, n, b) == 0
  {
    if n > 0 {
      assert Coded(lens, n - 1) ==> lens[n - 1] < b;
      NoneOfLength(lens, n - 1, b);
    }
  }

  // A sub-table of codes of one length still finds all its codes ahead when it is opened.
  lemma EvenHasCodes(lens: Lens, order: seq<nat>, root: nat, max: nat, p: nat, j: nat, curr: nat)
    requires LensOk(lens) && Complete(lens) && Sorted(lens, order) && j < |order| && Coded(lens, order[j])
    requires max <= MAX_BITS && forall s :: Coded(lens, s) ==> lens[s] <= max
    requires lens[order[j]] == root + curr && Code(lens, order[j]) == Shl(p, curr) && p < Pow2(root) && Sized(lens, root, p, curr, max)
    ensures j + Pow2(curr) <= |order|
  {
    hide Code, EndCode, Pow2, Shl, Complete, Sorted;
    ShlAdd(p, 1, curr);
    ShlPow2(0, curr);
    Pow2Steps(0);
    CodesLeft(lens, order, j);
    if root + curr == max {
      WholeCodeSpace(lens, max, MAX_BITS);
      ShlMonotone(p + 1, Pow2(root), curr);
      ShlPow2(root, curr);
    }
  }

  // No more than this is ever used.
  lemma RoomBound(lens: Lens, order: seq<nat>, root: nat, max: nat, k: nat, curr: nat, used: nat)
    requires LensOk(lens) && NotOversubscribed(lens) && Complete(lens) && Sorted(lens, order) && k < |order| && Coded(lens, order[k])
    requires root <= max <= MAX_BITS && forall s :: Coded(lens, s) ==> lens[s] <= max
    requires Room(lens, order, root, k, curr, used)
    requires lens[order[k]] > root ==> Sized(lens, root, Prefix(lens, order[k], root), curr, max)
    ensures used <= Limit(|lens|, root, max)
  {
    hide Code, EndCode, Pow2, Shl, Complete, Sorted, NotOversubscribed, LensOk, Used;
    if lens[order[k]] > root {
      var j: nat :| Opened(lens, order, root, k, j, curr, used);
      var l, p := lens[order[j]], Prefix(lens, order[k], root);
      OrderSize(lens, order);
      assert curr + root <= max;
      if l == root + curr {
        PrefixSmall(lens, order[k], root);
        EvenHasCodes(lens, order, root, max, p, j, curr);
        Pow2Monotone(l - root + 1, max - root + 1);
      } else {
        Pow2Monotone(l - root + 1, curr);
        Pow2Steps(curr);
        Pow2Monotone(curr + 1, max - root + 1);
      }
    }
  }

  lemma OrderSize(lens: Lens, order: seq<nat>)
    requires Sorted(lens, order)
    ensures |order| <= |lens|
  {
    hide Used, Pos;
    UsedAtMost(lens);
  }

  lemma PrefixSmall(lens: Lens, s: nat, root: nat)
    requires LensOk(lens) && NotOversubscribed(lens) && Coded(lens, s) && root <= lens[s]
    ensures Prefix(lens, s, root) < Pow2(root)
  {
    hide Code, Pow2;
    CodeFits(lens, s);
    ShrBelow(Code(lens, s), lens[s] - root, root);
  }

  // A code that has no short codes has many.
  lemma {:induction false} FewShort(lens: Lens, n: nat, min: nat, m: nat)
    requires n <= |lens| && min <= m && forall s :: Coded(lens, s) ==> min <= lens[s]
    ensures KraftAt(lens, n, m) <= Shl(n, m - min)
  {
    hide Pow2, Shl;
    if n == 0 {
      ShlZero(m - min);
    } else {
      assert Coded(lens, n - 1) ==> min <= lens[n - 1];
      FewShort(lens, n - 1, min, m);
      ShlAdd(n - 1, 1, m - min);
      ShlPow2(0, m - min);
      Pow2Steps(0);
      if 0 < lens[n - 1] <= m {
        Pow2Monotone(m - lens[n - 1], m - min);
      }
    }
  }

  lemma EnoughSymbols(lens: Lens, min: nat, m: nat)
    requires Complete(lens) && m == MAX_BITS && min <= m && forall s :: Coded(lens, s) ==> min <= lens[s]
    ensures Pow2(min) <= |lens|
  {
    hide Pow2, Shl, KraftAt;
    FewShort(lens, |lens|, min, m);
    ShlPow2(min, m - min);
    if |lens| < Pow2(min) {
      ShlStrict(|lens|, Pow2(min), m - min);
    }
  }

  // ----- the sizes in use --------------------------------------------------------------------------------------

  // What the tables of n symbols take at most.
  function Limit(n: nat, root: nat, max: nat): nat {
    Pow2(root) + (if root < max then n + Pow2(max - root + 1) else 0)
  }

  // Room for the tables of a code with at most SymbolLimit symbols and a root index of `bits` bits.
  function Space(kind: Kind, bits: nat): nat
    requires bits <= MAX_BITS
  {
    (if SymbolLimit(kind) > Pow2(bits) then SymbolLimit(kind) else Pow2(bits)) + SymbolLimit(kind) + Pow2(MAX_BITS + 1 - bits)
  }

  lemma SpaceSuffices(kind: Kind, n: nat, bits: nat, root: nat, max: nat, min: nat)
    requires n <= SymbolLimit(kind) && bits <= MAX_BITS && root <= max <= MAX_BITS
    requires root == bits || (root < bits && root == max) || (bits < root == min && Pow2(min) <= n)
    ensures Limit(n, root, max) <= Space(kind, bits)
  {
    hide Pow2, SymbolLimit;
    if root < bits {
      Pow2Monotone(root, bits);
    } else {
      Pow2Monotone(max - root + 1, MAX_BITS + 1 - bits);
    }
  }

  // The constant ENOUGH, with the root sizes of inflate: the literal and distance tables fit side by
  // side, and the literal table never runs into the limit that is checked.
  lemma EnoughIsEnough()
    ensures Space(LENS, 9) + Space(DISTS, 6) <= ENOUGH && Space(LENS, 9) < ENOUGH - MAXD && Space(CODES, 7) <= ENOUGH
  {
    Pow2Values();
  }
}
