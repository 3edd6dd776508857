/** The sliding window and its dictionary, as `fill_window` and INSERT_STRING maintain them. */
module SlidingWindow {
  import opened Bits
  import opened RollingHash
  import opened HashChains
  import opened Memory
  import A = Adler32

  // After one more byte the running hash is the hash of the string that starts with b0 and b1.
  ghost predicate Primed(g: Geometry, insH: nat, b0: byte, b1: byte) {
    forall c: byte :: Update(insH, c, g.shift, g.bits) == Hash3(b0, b1, c, g.shift, g.bits)
  }

  lemma PrimedByTwo(g: Geometry, b0: byte, b1: byte)
    ensures Primed(g, Update(b0, b1, g.shift, g.bits), b0, b1)
  {
    hide Update;
  }

  lemma PrimedByThree(g: Geometry, b0: byte, b1: byte, b2: byte)
    requires GeometryOk(g)
    ensures Primed(g, Hash3(b0, b1, b2, g.shift, g.bits), b1, b2)
  {
    hide Update, Hash3;
    forall c: byte
      ensures Update(Hash3(b0, b1, b2, g.shift, g.bits), c, g.shift, g.bits) == Hash3(b1, b2, c, g.shift, g.bits)
    {
      Rolls(b0, b1, b2, c, g.shift, g.bits);
    }
  }

  // The running hash is ready for the string at byte a, if there is one.
  ghost predicate HashReady(g: Geometry, insH: nat, hist: Bytes, a: nat) {
    a + 2 < |hist| ==> Primed(g, insH, hist[a], hist[a + 1])
  }

  method SlideTable(a: array<nat>, w: nat)
    modifies a
    ensures a[..] == Slid(old(a[..]), w)
  {
    var n := a.Length;
    while n > 0
      invariant 0 <= n <= a.Length
      invariant forall i :: 0 <= i < n ==> a[i] == old(a[i])
      invariant forall i :: n <= i < a.Length ==> a[i] == SlidOne(old(a[i]), w)
    {
      n := n - 1;
      var m := a[n];
      a[n] := if m >= w then m - w else 0;
    }
  }

  // The upper half of the window is copied over the lower.
  method MoveDown(window: array<byte>, w: nat)
    requires window.Length == 2 * w
    modifies window
    ensures window[..] == old(window[w..]) + old(window[w..])
  {
    var i: nat := 0;
    while i < w
      invariant i <= w
      invariant forall k :: 0 <= k < i ==> window[k] == old(window[w + k])
      invariant forall k :: i <= k < window.Length ==> window[k] == old(window[k])
    {
      window[i] := window[i + w];
      i := i + 1;
    }
  }

  lemma Appended(window: Bytes, window': Bytes, hist: Bytes, off: nat, end: nat, more: Bytes)
    requires Holds(window, hist, off, end) && |window'| == |window| && end + |more| <= |window|
    requires window' == window[..end] + more + window[end + |more|..]
    ensures Holds(window', hist + more, off, end + |more|)
  {
    assert window'[..end + |more|] == window[..end] + more;
    assert (hist + more)[off..] == hist[off..] + more;
  }

  lemma Halved(window: Bytes, window': Bytes, hist: Bytes, off: nat, end: nat, w: nat)
    requires Holds(window, hist, off, end) && |window'| == |window| == 2 * w && w <= end
    requires window' == window[w..] + window[w..]
    ensures Holds(window', hist, off + w, end - w)
  {
    assert window'[..end - w] == window[..end][w..];
    assert hist[off..][w..] == hist[off + w..];
  }

  // hist has grown by the input that is no longer in rest.
  ghost predicate Taken(hist0: Bytes, hist: Bytes, nextIn: Bytes, rest: Bytes) {
    |rest| <= |nextIn| && rest == nextIn[|nextIn| - |rest|..] && hist == hist0 + nextIn[..|nextIn| - |rest|]
  }

  ghost predicate AsMuchAsFits(avail: nat, size: nat, n: int) {
    n == if avail < size then avail else size
  }

  lemma SomeFits(avail: nat, size: nat, n: int)
    requires AsMuchAsFits(avail, size, n) && avail > 0 && size > 0
    ensures n > 0
  {
  }

  lemma Filled(avail: nat, size: nat, left: nat)
    requires AsMuchAsFits(avail, size, avail - left)
    ensures left == 0 || avail - left == size
  {
  }

  // One read is enough: it takes all input, or it leaves MIN_LOOKAHEAD bytes ahead. So the loop of fill_window never
  // goes around a second time.
  lemma OneRead(g: Geometry, strstart: nat, lookahead: nat, avail: nat, n: nat)
    requires GeometryOk(g) && strstart < g.wSize + MaxDist(g) && strstart + lookahead <= 2 * g.wSize
    requires AsMuchAsFits(avail, 2 * g.wSize - lookahead - strstart, n)
    ensures n == avail || lookahead + n >= MIN_LOOKAHEAD
  {
  }

  lemma NothingTaken(hist: Bytes, nextIn: Bytes)
    ensures Taken(hist, hist, nextIn, nextIn)
  {
    assert nextIn[..0] == [];
  }

  lemma TakenMore(hist0: Bytes, hist1: Bytes, hist2: Bytes, nextIn: Bytes, rest1: Bytes, rest2: Bytes)
    requires Taken(hist0, hist1, nextIn, rest1) && Taken(hist1, hist2, rest1, rest2)
    ensures Taken(hist0, hist2, nextIn, rest2)
  {
    assert nextIn[..|nextIn| - |rest2|] == nextIn[..|nextIn| - |rest1|] + rest1[..|rest1| - |rest2|];
  }

  // Where the window stands in the input.
  datatype Spot = Spot(off: nat, strstart: nat, blockStart: int, matchStart: int)

  // The same positions in the input, whether or not the window has slid; a block that is recent enough
  // does not leave the window.
  ghost predicate SameSpot(w: nat, p: Spot, q: Spot) {
    && q.off >= p.off && q.off + q.strstart == p.off + p.strstart
    && q.off + q.blockStart == p.off + p.blockStart && q.off + q.matchStart == p.off + p.matchStart
    && (p.strstart >= 1 ==> q.strstart >= 1)
    && (p.blockStart >= 0 && p.strstart - p.blockStart < w - MIN_LOOKAHEAD ==> q.blockStart >= 0)
  }

  lemma SpotSelf(w: nat, p: Spot)
    ensures SameSpot(w, p, p)
  {
  }

  lemma SpotSlid(w: nat, p: Spot, q: Spot)
    requires SameSpot(w, p, q) && q.strstart >= w + w - MIN_LOOKAHEAD && w >= 512
    ensures SameSpot(w, p, Spot(q.off + w, q.strstart - w, q.blockStart - w, q.matchStart - w))
  {
  }

  // The positions after the one and before the other.
  ghost function Passed(lo: nat, hi: nat): (s: set<nat>)
    ensures forall a :: a in s <==> lo < a < hi
  {
    if hi <= lo + 1 then {} else Passed(lo, hi - 1) + {hi - 1}
  }

  // The same, as far as three bytes of input are there.
  ghost function WholeStrings(lo: nat, hi: nat, hist: Bytes): set<nat> {
    Passed(lo, if hi + 2 <= |hist| then hi else if |hist| < 2 then 0 else |hist| - 2)
  }

  class Window {
    const g: Geometry
    const wrapped: bool
    const window: array<byte>
    const prev: array<nat>
    const head: array<nat>
    var insH: nat
    var strstart: nat
    var lookahead: nat
    var blockStart: int
    var matchStart: int
    var adler: nat
    ghost var hist: Bytes
    ghost var off: nat
    ghost var ins: set<nat>

    // The window holds the input up to index `end`, and the dictionary only positions before `top`.
    ghost predicate Dict(end: nat, top: nat)
      reads this`hist, this`off, this`ins, window, prev, head
    {
      && head != prev && window.Length == 2 * g.wSize
      && Holds(window[..], hist, off, end)
      && Chains(g, hist, off, ins, head[..], prev[..], top)
    }

    ghost predicate Valid()
      reads this`hist, this`off, this`ins, this`strstart, this`lookahead, this`insH, this`blockStart, window, prev, head
    {
      && Dict(strstart + lookahead, strstart)
      && HashReady(g, insH, hist, off + strstart)
      && 0 <= off + blockStart && blockStart <= strstart
    }

    ghost function Here(): Spot
      reads this`off, this`strstart, this`blockStart, this`matchStart
    {
      Spot(off, strstart, blockStart, matchStart)
    }

    // The window alone, without its dictionary.
    ghost predicate Live()
      reads this`hist, this`off, this`strstart, this`lookahead, this`blockStart, window
    {
      && window.Length == 2 * g.wSize && Holds(window[..], hist, off, strstart + lookahead)
      && 0 <= off + blockStart && blockStart <= strstart
    }

    // Behind a zlib header the checksum of the input is kept.
    ghost predicate Summed()
      reads this`adler, this`hist
    {
      wrapped ==> adler == A.Checksum(hist)
    }

    constructor (g: Geometry, wrapped: bool)
      requires GeometryOk(g)
      ensures Valid() && Summed() && this.g == g && this.wrapped == wrapped && fresh(window) && fresh(prev) && fresh(head)
      ensures hist == [] && ins == {} && off == 0 && strstart == 0 == lookahead && blockStart == 0
    {
      this.g, this.wrapped := g, wrapped;
      adler := 1;
      window := new byte[2 * g.wSize](_ => 0);
      prev := new nat[g.wSize](_ => 0);
      head := new nat[Pow2(g.bits)](_ => 0);
      insH, strstart, lookahead, blockStart, matchStart := 0, 0, 0, 0, 0;
      hist, off, ins := [], 0, {};
      new;
      Cleared(g, [], 0, head[..], prev[..], 0);
    }

    // INSERT_STRING.
    method InsertString(str: nat, ghost end: nat, ghost top: nat) returns (hashHead: nat)
      requires Dict(end, top) && top <= str && str + 2 < end && HashReady(g, insH, hist, off + str)
      modifies this`insH, this`ins, head, prev
      ensures Dict(end, str + 1) && HashReady(g, insH, hist, off + str + 1)
      ensures off + str + 2 < |hist| && Link(g, hist, off, ins, hashHead, str, HashAt(g, hist, off + str))
      ensures ins == old(ins) + {off + str}
    {
      hide Pow2, Link, Update, Hash3, Primed, Chains, HashAt, HashReady, Holds;
      ghost var a, head0, prev0 := off + str, head[..], prev[..];
      DictBounds(g, window[..], hist, off, ins, head0, prev0, end, top);
      Inserted(g, hist, off, ins, head0, prev0, str, top);
      UpdateIs(g, insH, window[..], hist, off, end, str);
      insH := Update(insH, window[str + 2], g.shift, g.bits);
      hashHead := head[insH];
      LinkAlso(g, hist, off, ins, a, hashHead, str);
      var i := str % g.wSize;
      prev[i] := hashHead;
      head[insH] := str;
      ins := ins + {a};
      assert head[..] == head0[insH := str];
      assert prev[..] == prev0[i := hashHead];
    }

    // The slide of fill_window: the upper half of the window moves to the lower.
    method Slide()
      requires Valid() && strstart >= g.wSize
      modifies this`strstart, this`blockStart, this`matchStart, this`off, window, prev, head
      ensures Valid() && off == old(off) + g.wSize && strstart == old(strstart) - g.wSize
      ensures blockStart == old(blockStart) - g.wSize && matchStart == old(matchStart) - g.wSize
    {
      hide Pow2, Chains, HashAt, HashReady, Holds, Slid;
      ghost var end, w0, head0, prev0 := strstart + lookahead, window[..], head[..], prev[..];
      DictBounds(g, w0, hist, off, ins, head0, prev0, end, strstart);
      MoveDown(window, g.wSize);
      Halved(w0, window[..], hist, off, end, g.wSize);
      ChainsSlid(g, hist, off, ins, head0, prev0, strstart);
      matchStart := matchStart - g.wSize;
      strstart := strstart - g.wSize;
      blockStart := blockStart - g.wSize;
      off := off + g.wSize;
      SlideTable(head, g.wSize);
      SlideTable(prev, g.wSize);
    }

    // The part of read_buf that continues the checksum.
    method AddChecksum(more: Bytes)
      requires Summed()
      modifies this`adler
      ensures wrapped ==> adler == A.Checksum(hist + more)
    {
      hide A.Checksum, A.Bytewise;
      if wrapped && |more| > 0 {
        A.ChecksumContinues(hist, more);
        adler := A.Adler32(adler, more, false, false);
      } else {
        assert |more| == 0 ==> hist + more == hist;
      }
    }

    // read_buf, and the hash restarted behind what was read.
    method ReadBuf(nextIn: Bytes, size: nat) returns (rest: Bytes)
      requires Valid() && Summed() && strstart + lookahead + size <= window.Length
      modifies this`lookahead, this`insH, this`hist, this`adler, window
      ensures Valid() && Summed() && AsMuchAsFits(|nextIn|, size, |nextIn| - |rest|)
      ensures Taken(old(hist), hist, nextIn, rest)
      ensures lookahead == old(lookahead) + |nextIn| - |rest|
    {
      hide Pow2, Chains, HashAt, HashReady, Holds, Update, A.Checksum;
      ghost var end, w0 := strstart + lookahead, window[..];
      var len := |nextIn|;
      if len > size {
        len := size;
      }
      ghost var more := nextIn[..len];
      AddChecksum(nextIn[..len]);
      Store(window, strstart + lookahead, nextIn[..len]);
      rest := nextIn[len..];
      Appended(w0, window[..], hist, off, end, more);
      Extended(g, hist, more, off, ins, head[..], prev[..], strstart);
      hist := hist + more;
      lookahead := lookahead + len;
      if lookahead >= MIN_MATCH {
        Restarted(g, window[..], hist, off, strstart + lookahead, strstart);
        insH := Update(window[strstart], window[strstart + 1], g.shift, g.bits);
      } else {
        NoString(g, insH, window[..], hist, off, strstart + lookahead, strstart);
      }
    }

    // fill_window: slides the window if it is almost full, then reads while there is room and input.
    method FillWindow(nextIn: Bytes) returns (rest: Bytes)
      requires Valid() && Summed() && lookahead < MIN_LOOKAHEAD
      modifies this, window, prev, head
      ensures Valid() && Summed() && strstart + MIN_LOOKAHEAD <= window.Length
      ensures Taken(old(hist), hist, nextIn, rest) && (rest == [] || lookahead >= MIN_LOOKAHEAD)
      ensures lookahead == old(lookahead) + |nextIn| - |rest| && SameSpot(g.wSize, old(Here()), Here())
      ensures rest == [] || strstart + lookahead == window.Length
      ensures ins == old(ins)
      ensures GeometryOk(g) && off == old(off) + if old(strstart) >= g.wSize + MaxDist(g) then g.wSize else 0
    {
      hide Pow2, Chains, HashAt, HashReady, Taken, Holds, AsMuchAsFits, SameSpot, A.Checksum;
      ghost var hist0, here, n := hist, Here(), lookahead + |nextIn|;
      SpotSelf(g.wSize, here);
      rest := nextIn;
      NothingTaken(hist, nextIn);
      Room(g, window[..], hist, off, ins, head[..], prev[..], strstart, lookahead);
      ghost var first := true;
      while true
        invariant GeometryOk(g) && if first then off == old(off) && strstart == old(strstart)
                  else strstart < g.wSize + MaxDist(g) && off == old(off) + if old(strstart) >= g.wSize + MaxDist(g) then g.wSize else 0
        invariant Valid() && Summed() && lookahead < MIN_LOOKAHEAD && Taken(hist0, hist, nextIn, rest)
        invariant lookahead + |rest| == n && SameSpot(g.wSize, here, Here()) && ins == old(ins)
        decreases |rest|
      {
        Room(g, window[..], hist, off, ins, head[..], prev[..], strstart, lookahead);
        var more := window.Length - lookahead - strstart;
        if strstart >= g.wSize + MaxDist(g) {
          SpotSlid(g.wSize, here, Here());
          Slide();
          more := more + g.wSize;
        }
        if rest == [] {
          return;
        }
        first := false;
        ghost var hist1, rest1 := hist, rest;
        rest := ReadBuf(rest, more);
        SomeFits(|rest1|, more, |rest1| - |rest|);
        TakenMore(hist0, hist1, hist, nextIn, rest1, rest);
        if lookahead >= MIN_LOOKAHEAD || rest == [] {
          Filled(|rest1|, more, |rest|);
          break;
        }
      }
    }

    // The string at strstart has been entered, if there is one.
    ghost predicate Entered()
      reads this`hist, this`off, this`ins, this`strstart, this`lookahead, this`insH, this`blockStart, window, prev, head
    {
      && Dict(strstart + lookahead, if lookahead >= MIN_MATCH then strstart + 1 else strstart)
      && HashReady(g, insH, hist, off + strstart + 1)
      && 0 <= off + blockStart && blockStart <= strstart
    }

    // INSERT_STRING at strstart, unless less than three bytes are left; then hashHead stays as it was.
    method InsertCurrent(hashHead0: nat) returns (hashHead: nat)
      requires Valid()
      modifies this`insH, this`ins, head, prev
      ensures Entered()
      ensures lookahead < MIN_MATCH ==> hashHead == hashHead0 && ins == old(ins)
      ensures lookahead >= MIN_MATCH ==> ins == old(ins) + {off + strstart}
      ensures lookahead >= MIN_MATCH ==>
                off + strstart + 2 < |hist| && Link(g, hist, off, ins, hashHead, strstart, HashAt(g, hist, off + strstart))
    {
      hide Pow2, Chains, HashAt, HashReady, Holds, Link;
      hashHead := hashHead0;
      if lookahead >= MIN_MATCH {
        hashHead := InsertString(strstart, strstart + lookahead, strstart);
      } else {
        NoString(g, insH, window[..], hist, off, strstart + lookahead, strstart + 1);
      }
    }

    // A new block begins.
    twostate lemma EnteredStill()
      requires old(Entered()) && blockStart == strstart
      requires unchanged(this`hist, this`off, this`ins, this`strstart, this`lookahead, this`insH, window, prev, head)
      ensures Entered()
    {
      hide Chains, HashReady, Holds;
    }

    // One byte further.
    method Advance()
      requires Entered() && lookahead >= 1
      modifies this`strstart, this`lookahead
      ensures Valid() && strstart == old(strstart) + 1 && lookahead == old(lookahead) - 1
    {
      hide Pow2, Chains, HashAt, HashReady, Holds;
      DictBounds(g, window[..], hist, off, ins, head[..], prev[..], strstart + lookahead, if lookahead >= MIN_MATCH then strstart + 1 else strstart);
      Later(g, hist, off, ins, head[..], prev[..], if lookahead >= MIN_MATCH then strstart + 1 else strstart, strstart + 1);
      strstart := strstart + 1;
      lookahead := lookahead - 1;
    }

    // deflate_fast behind a match: enters all strings of a short match, and only restarts the hash
    // behind a long one.
    method PassMatchFast(length: nat, maxInsert: nat, hashHead0: nat) returns (hashHead: nat)
      requires Entered() && MIN_MATCH <= length <= lookahead && strstart + length + 1 < window.Length
      modifies this`strstart, this`lookahead, this`insH, this`ins, head, prev
      ensures Valid() && strstart == old(strstart) + length && lookahead == old(lookahead) - length
      ensures ins == old(ins) + if length <= maxInsert && lookahead >= MIN_MATCH then Passed(old(off + strstart), off + strstart) else {}
    {
      hide Pow2, Chains, HashAt, HashReady, Holds, Link, Update;
      ghost var end := strstart + lookahead;
      hashHead := hashHead0;
      DictBounds(g, window[..], hist, off, ins, head[..], prev[..], end, strstart + 1);
      lookahead := lookahead - length;
      ghost var last, left := strstart + length, lookahead;
      if length <= maxInsert && lookahead >= MIN_MATCH {
        var matchLength := length - 1;
        while true
          invariant 1 <= matchLength < length && strstart + matchLength + 1 == last && lookahead == left
          invariant Dict(end, strstart + 1) && HashReady(g, insH, hist, off + strstart + 1)
          invariant blockStart <= strstart && ins == old(ins) + Passed(old(off + strstart), off + strstart + 1)
          decreases matchLength
        {
          strstart := strstart + 1;
          hashHead := InsertString(strstart, end, strstart);
          matchLength := matchLength - 1;
          if matchLength == 0 {
            break;
          }
        }
        strstart := strstart + 1;
      } else {
        Later(g, hist, off, ins, head[..], prev[..], strstart + 1, strstart + length);
        strstart := strstart + length;
        if lookahead >= MIN_MATCH {
          Restarted(g, window[..], hist, off, end, strstart);
        }
        insH := Update(window[strstart], window[strstart + 1], g.shift, g.bits);
        if lookahead < MIN_MATCH {
          NoString(g, insH, window[..], hist, off, end, strstart);
        }
      }
    }

    // deflate_slow behind the match of the previous position: enters every string that is complete.
    method PassMatchSlow(length: nat, hashHead0: nat) returns (hashHead: nat)
      requires Entered() && MIN_MATCH <= length <= lookahead + 1 && strstart >= 1
      requires strstart + lookahead >= MIN_MATCH
      modifies this`strstart, this`lookahead, this`insH, this`ins, head, prev
      ensures Valid() && strstart == old(strstart) + length - 1 && lookahead == old(lookahead) - (length - 1)
      ensures ins == old(ins) + WholeStrings(old(off + strstart), off + strstart, hist)
    {
      hide Pow2, Chains, HashAt, HashReady, Holds, Link, Update;
      ghost var end := strstart + lookahead;
      hashHead := hashHead0;
      var maxInsert := strstart + lookahead - MIN_MATCH;
      DictBounds(g, window[..], hist, off, ins, head[..], prev[..], end, if lookahead >= MIN_MATCH then strstart + 1 else strstart);
      Later(g, hist, off, ins, head[..], prev[..], if lookahead >= MIN_MATCH then strstart + 1 else strstart, strstart + 1);
      lookahead := lookahead - (length - 1);
      var prevLength := length - 2;
      ghost var last, left := strstart + length - 1, lookahead;
      while true
        invariant 1 <= prevLength <= length - 2 && strstart + prevLength + 1 == last && lookahead == left
        invariant Dict(end, strstart + 1) && HashReady(g, insH, hist, off + strstart + 1)
        invariant blockStart <= strstart
        invariant ins == old(ins) + WholeStrings(old(off + strstart), off + strstart + 1, hist)
        decreases prevLength
      {
        strstart := strstart + 1;
        if strstart <= maxInsert {
          hashHead := InsertString(strstart, end, strstart);
        } else {
          Later(g, hist, off, ins, head[..], prev[..], strstart, strstart + 1);
          NoString(g, insH, window[..], hist, off, end, strstart + 1);
        }
        prevLength := prevLength - 1;
        if prevLength == 0 {
          break;
        }
      }
      strstart := strstart + 1;
    }

    // deflate_stored takes all of the lookahead, but no more than fits into a block.
    method TakeStored(maxStart: int)
      requires Dict(strstart + lookahead, strstart) && lookahead >= 1 && 0 <= blockStart <= strstart < maxStart
      modifies this`strstart, this`lookahead
      ensures Dict(strstart + lookahead, strstart) && strstart + lookahead == old(strstart + lookahead)
      ensures strstart == if old(strstart + lookahead) < maxStart then old(strstart + lookahead) else maxStart
      ensures strstart > old(strstart)
    {
      hide Pow2, Chains, HashAt, HashReady, Holds;
      ghost var end, s := strstart + lookahead, strstart;
      DictBounds(g, window[..], hist, off, ins, head[..], prev[..], end, s);
      strstart := strstart + lookahead;
      lookahead := 0;
      if strstart == 0 || strstart >= maxStart {
        lookahead := strstart - maxStart;
        strstart := maxStart;
      }
      Later(g, hist, off, ins, head[..], prev[..], s, strstart);
    }

    // CLEAR_HASH.
    method ClearHash()
      requires Valid()
      modifies this`ins, head
      ensures Valid() && ins == {} && forall i :: 0 <= i < head.Length ==> head[i] == 0
    {
      hide Pow2, Link, HashAt, HashReady, Holds;
      var n: nat := 0;
      while n < head.Length
        invariant n <= head.Length && forall i :: 0 <= i < n ==> head[i] == 0
      {
        head[n] := 0;
        n := n + 1;
      }
      ins := {};
      Cleared(g, hist, off, head[..], prev[..], strstart);
    }
  }

  lemma DictBounds(g: Geometry, window: Bytes, hist: Bytes, off: nat, ins: set<nat>, head: seq<nat>, prev: seq<nat>, end: nat, top: nat)
    requires |window| == 2 * g.wSize && Holds(window, hist, off, end) && Chains(g, hist, off, ins, head, prev, top)
    ensures GeometryOk(g) && |head| == Pow2(g.bits) && |prev| == g.wSize && |hist| == off + end && end <= |window|
  {
    hide Pow2, HashAt;
  }

  lemma Restarted(g: Geometry, window: Bytes, hist: Bytes, off: nat, end: nat, s: nat)
    requires Holds(window, hist, off, end) && s + 2 < end
    ensures s + 1 < |window| && HashReady(g, Update(window[s], window[s + 1], g.shift, g.bits), hist, off + s)
  {
    hide Update, Hash3;
    assert window[..end][s] == hist[off..][s] && window[..end][s + 1] == hist[off..][s + 1];
    PrimedByTwo(g, window[s], window[s + 1]);
  }

  // With fewer than three bytes ahead any running hash will do.
  lemma NoString(g: Geometry, insH: nat, window: Bytes, hist: Bytes, off: nat, end: nat, s: nat)
    requires Holds(window, hist, off, end) && s + 2 >= end
    ensures HashReady(g, insH, hist, off + s)
  {
  }

  lemma Room(g: Geometry, window: Bytes, hist: Bytes, off: nat, ins: set<nat>, head: seq<nat>, prev: seq<nat>, s: nat, lookahead: nat)
    requires |window| == 2 * g.wSize && Holds(window, hist, off, s + lookahead) && Chains(g, hist, off, ins, head, prev, s)
    ensures GeometryOk(g) && s + lookahead <= |window|
  {
    hide Pow2, HashAt;
  }

  lemma LinkAlso(g: Geometry, hist: Bytes, off: nat, ins: set<nat>, a: nat, q: nat, p: nat)
    requires off + p + 2 < |hist| && off + p <= a && Link(g, hist, off, ins, q, p, HashAt(g, hist, off + p))
    ensures Link(g, hist, off, ins + {a}, q, p, HashAt(g, hist, off + p))
  {
    hide HashAt;
    LinkMore(g, hist, off, ins, a, q, p, p, HashAt(g, hist, off + p));
  }

  // The running hash becomes the hash of the string, and is then ready for the next one.
  lemma UpdateIs(g: Geometry, insH: nat, window: Bytes, hist: Bytes, off: nat, end: nat, s: nat)
    requires GeometryOk(g) && Holds(window, hist, off, end) && s + 2 < end && HashReady(g, insH, hist, off + s)
    ensures off + s + 2 < |hist| && Update(insH, window[s + 2], g.shift, g.bits) == HashAt(g, hist, off + s)
    ensures HashReady(g, HashAt(g, hist, off + s), hist, off + s + 1)
  {
    hide Update, Hash3;
    var a := off + s;
    assert window[..end][s + 2] == hist[off..][s + 2];
    assert hist[a] == hist[off..][s] && hist[a + 1] == hist[off..][s + 1];
    PrimedByThree(g, hist[a], hist[a + 1], hist[a + 2]);
  }
}
