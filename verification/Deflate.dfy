/** deflate.c: the compression functions and the driver. */
module Deflate {
  import opened Bits
  import opened HashChains
  import opened SlidingWindow
  import opened Matching
  import opened Coverage
  import opened BlockCode
  import opened Overlay
  import opened OverlayRoom
  import opened Parsing
  import opened StaticTables
  import opened BitOutput
  import opened Blocks
  import opened TreeCost
  import T = Trees

  datatype BlockState = NeedMore | BlockDone | FinishStarted | FinishDone

  const Z_NO_FLUSH := 0
  const Z_PARTIAL_FLUSH := 1
  const Z_SYNC_FLUSH := 2
  const Z_FULL_FLUSH := 3
  const Z_FINISH := 4

  // Matches of three bytes further back than this are given up.
  const TOO_FAR := 4096

  // configuration_table.
  function ConfigFor(level: nat): (c: Config)
    ensures level >= 1 ==> c.maxChain >= 4 && c.niceLength >= 4
  {
    match level
    case 0 => Config(0, 0, 0, 0)
    case 1 => Config(4, 4, 8, 4)
    case 2 => Config(4, 5, 16, 8)
    case 3 => Config(4, 6, 32, 32)
    case 4 => Config(4, 4, 16, 16)
    case 5 => Config(8, 16, 32, 32)
    case 6 => Config(8, 16, 128, 128)
    case 7 => Config(8, 32, 128, 256)
    case 8 => Config(32, 128, 258, 1024)
    case _ => Config(32, 258, 258, 4096)
  }

  // Among the levels of one compression function a higher one searches at least as long for at least as much, and the
  // highest is not content with less than the longest match.
  lemma LevelsGrow(a: nat, b: nat)
    requires 1 <= a <= b <= 3 || 4 <= a <= b <= 9
    ensures var x, y := ConfigFor(a), ConfigFor(b);
            && 4 <= x.goodLength <= y.goodLength && 4 <= x.maxLazy <= y.maxLazy
            && 8 <= x.niceLength <= y.niceLength <= MAX_MATCH && 4 <= x.maxChain <= y.maxChain <= 4096
    ensures ConfigFor(9) == Config(32, MAX_MATCH, MAX_MATCH, 4096)
  {
  }

  // From byte `at` on the stream reads back as `out`, if no token has been lost.
  ghost predicate Streams(intact: bool, sent: BitString, at: nat, out: Bytes) {
    8 * at <= |sent| && (intact ==> Written(sent[8 * at..], out))
  }

  ghost predicate Closed(intact: bool, sent: BitString, at: nat, out: Bytes) {
    8 * at <= |sent| && (intact ==> Finished(sent[8 * at..], out))
  }

  // The last full flush, or the start: how many bytes of the stream and of the input lie before it.
  datatype Mark = Mark(cut: nat, from: nat)

  // The stream behind its header stands for the input up to byte `at`; and what has been written since the last full
  // flush stands for the input since then, on its own.
  ghost predicate Stands(intact: bool, sent: BitString, hdr: nat, mark: Mark, hist: Bytes, at: int) {
    && mark.from <= at <= |hist|
    && Streams(intact, sent, hdr, hist[..at]) && Streams(intact, sent, mark.cut, hist[mark.from..at])
  }

  // The same when the stream has come to its end.
  ghost predicate Ends(intact: bool, sent: BitString, hdr: nat, mark: Mark, hist: Bytes) {
    mark.from <= |hist| && Closed(intact, sent, hdr, hist) && Closed(intact, sent, mark.cut, hist[mark.from..])
  }

  // What trees.c is told of a block of input from byte bs to byte end.
  function Views(hdr: nat, mark: Mark, hist: Bytes, bs: nat, end: nat): seq<T.View>
    requires mark.from <= bs <= end <= |hist|
  {
    [T.View(hdr, hist[..bs], hist[..end]), T.View(mark.cut, hist[mark.from..bs], hist[mark.from..end])]
  }

  lemma ViewsStart(level: nat, far: nat, intact: bool, sent: BitString, hdr: nat, mark: Mark, hist: Bytes, bs: nat, end: nat,
      buf: T.Option<Bytes>, toks: seq<Token>)
    requires Stands(intact, sent, hdr, mark, hist, bs) && Spoken(level, far, hist, mark.from, bs, end, toks)
    requires buf.Some? ==> hist[..end] == hist[..bs] + buf.value
    ensures mark.from <= bs <= end <= |hist|
    ensures forall v :: v in Views(hdr, mark, hist, bs, end) ==> T.InView(v, intact, sent) && T.Means(v, level, buf, toks)
  {
    hide Written, Expandable, Expand;
    SpokenParts(level, far, hist, mark.from, bs, end, toks);
    if buf.Some? {
      assert hist[mark.from..end] == hist[..end][mark.from..] == hist[mark.from..bs] + buf.value;
    }
  }

  lemma ViewsEnd(intact: bool, s: BitString, s': BitString, bits: BitString, eof: bool, hdr: nat, mark: Mark, hist: Bytes, bs: nat, end: nat)
    requires mark.from <= bs <= end <= |hist|
    requires forall v :: v in Views(hdr, mark, hist, bs, end) ==> T.Flushed(intact, s, s', bits, eof, v.at, v.out2)
    ensures !eof ==> Stands(intact, s', hdr, mark, hist, end)
    ensures eof && end == |hist| ==> Ends(intact, s', hdr, mark, hist)
  {
    hide Written, Finished, ToBits;
    assert Views(hdr, mark, hist, bs, end)[0] in Views(hdr, mark, hist, bs, end);
    assert Views(hdr, mark, hist, bs, end)[1] in Views(hdr, mark, hist, bs, end);
    if end == |hist| {
      assert hist[..end] == hist && hist[mark.from..end] == hist[mark.from..];
    }
  }

  // The bytes of the current block as they stand in the window.
  lemma BlockBytes(window: Bytes, hist: Bytes, off: nat, end: nat, bs: nat, s: nat)
    requires Holds(window, hist, off, end) && bs <= s <= end
    ensures hist[..off + s] == hist[..off + bs] + window[bs..s]
  {
    assert window[bs..s] == window[..end][bs..s];
    assert hist[off..][bs..s] == hist[off + bs..off + s];
  }

  // The tokens of the current block stand for the input from byte bs up to byte cov, and reach back neither before
  // byte `from` nor by more than `far`; at level 0 there are no tokens.
  ghost predicate Spoken(level: nat, far: nat, hist: Bytes, from: nat, bs: nat, cov: nat, toks: seq<Token>) {
    && from <= bs <= cov <= |hist|
    && if level > 0 then Covered(hist[from..], bs - from, cov - from, toks) && AllNear(toks, far) else toks == []
  }

  lemma SpokenParts(level: nat, far: nat, hist: Bytes, from: nat, bs: nat, cov: nat, toks: seq<Token>)
    requires Spoken(level, far, hist, from, bs, cov, toks)
    ensures from <= bs <= cov <= |hist|
    ensures level > 0 ==> Expandable(hist[..bs], toks) && Expand(hist[..bs], toks) == hist[..cov]
    ensures level > 0 ==> Expandable(hist[from..bs], toks) && Expand(hist[from..bs], toks) == hist[from..cov]
  {
    hide Expandable, Expand;
    if level > 0 {
      CoveredBehind(hist, from, bs, cov, toks);
      assert hist[from..][..bs - from] == hist[from..bs] && hist[from..][..cov - from] == hist[from..cov];
    }
  }

  // So a pair at byte b of the input reaches back no further than byte `from`.
  lemma OnItsOwn(level: nat, far: nat, hist: Bytes, from: nat, bs: nat, cov: nat, toks: seq<Token>, i: nat)
    requires level > 0 && Spoken(level, far, hist, from, bs, cov, toks) && i < |toks|
    ensures bs + |Expand(hist[from..bs], toks[..i])| - |hist[from..bs]| <= cov
    ensures toks[i].dist <= |Expand(hist[from..bs], toks[..i])|
  {
    hide Covered;
    SpokenParts(level, far, hist, from, bs, cov, toks);
    FirstExpand(hist[from..bs], toks, i);
  }

  lemma {:induction false} FirstExpand(out: Bytes, toks: seq<Token>, i: nat)
    requires i < |toks| && Expandable(out, toks)
    ensures toks[i].dist <= |Expand(out, toks[..i])| <= |Expand(out, toks)|
    decreases |toks|
  {
    hide CopyFrom;
    var n := |toks| - 1;
    if i < n {
      FirstExpand(out, toks[..n], i);
      assert toks[..n][..i] == toks[..i];
    }
  }

  lemma NothingSpoken(level: nat, far: nat, hist: Bytes, from: nat, bs: nat)
    requires from <= bs <= |hist|
    ensures Spoken(level, far, hist, from, bs, bs, [])
  {
    NothingCovered(hist[from..], bs - from);
  }

  // Without tokens any input may count as dealt with.
  lemma SilentMore(far: nat, hist: Bytes, from: nat, bs: nat, cov: nat, toks: seq<Token>)
    requires Spoken(0, far, hist, from, bs, cov, toks)
    ensures forall c :: cov <= c <= |hist| ==> Spoken(0, far, hist, from, bs, c, toks)
  {
  }

  lemma SpokenMore(level: nat, far: nat, hist: Bytes, more: Bytes, from: nat, bs: nat, cov: nat, toks: seq<Token>)
    requires Spoken(level, far, hist, from, bs, cov, toks)
    ensures Spoken(level, far, hist + more, from, bs, cov, toks)
  {
    hide Covered;
    if level > 0 {
      CoveredMore(hist[from..], more, bs - from, cov - from, toks);
      assert (hist + more)[from..] == hist[from..] + more;
    }
  }

  lemma SpokenLiteral(level: nat, far: nat, hist: Bytes, from: nat, bs: nat, cov: nat, toks: seq<Token>)
    requires level > 0 && Spoken(level, far, hist, from, bs, cov, toks) && cov < |hist|
    ensures Spoken(level, far, hist, from, bs, cov + 1, toks + [Token(0, hist[cov])])
  {
    hide Covered;
    LiteralCovered(hist[from..], bs - from, cov - from, toks);
    assert hist[from..][cov - from] == hist[cov];
  }

  // A match that may be sent: one that is within `far`, and does not reach back before byte `from`.
  ghost predicate Fit(g: Geometry, far: nat, from: nat, hist: Bytes, a: int, b: nat, n: nat) {
    GoodMatch(g, hist, a, b, n) && b - a <= far && from <= a
  }

  lemma SpokenMatch(level: nat, g: Geometry, far: nat, hist: Bytes, from: nat, bs: nat, a: int, b: nat, n: nat, toks: seq<Token>)
    requires level > 0 && Spoken(level, far, hist, from, bs, b, toks) && Fit(g, far, from, hist, a, b, n)
    ensures 0 <= a < b && b - a <= 32768 && MIN_MATCH <= n <= MAX_MATCH && b + n <= |hist|
    ensures Spoken(level, far, hist, from, bs, b + n, toks + [Token(b - a, n - 3)])
  {
    hide Covered, GoodMatch, Lawful, LookOk, RawOk;
    MatchBehind(g, hist, from, a, b, n);
    MatchCovered(g, hist[from..], bs - from, a - from, b - from, n, toks);
  }

  // The output has grown by as many bytes as the room for it has shrunk.
  ghost predicate Delivered(out0: Bytes, room0: nat, out: Bytes, room: nat) {
    out0 <= out && room <= room0 && |out| - |out0| == room0 - room
  }

  datatype Start = Start(input: Bytes, hist: Bytes, output: Bytes, room: nat, intact: bool)

  datatype Ahead = Go | Starved | AtEnd

  lemma DeliveredMore(out0: Bytes, room0: nat, out1: Bytes, room1: nat, out2: Bytes, room2: nat)
    requires Delivered(out0, room0, out1, room1) && Delivered(out1, room1, out2, room2)
    ensures Delivered(out0, room0, out2, room2)
  {
  }

  class Deflater {
    const win: Window
    const ts: T.TreeState
    const w: Output
    const cfg: Config
    const hdr: nat
    var matchLength: nat
    var prevLength: nat
    var prevMatch: int
    var matchAvailable: bool
    var nextIn: Bytes
    var availOut: nat
    var output: Bytes
    ghost var mark: Mark
    // Why each token so far was sent, and what was found for the byte or match held back.
    ghost var notes: seq<Note>
    ghost var held: Look

    constructor (level: nat, windowBits: nat, memLevel: nat, strategy: nat, wrap: nat)
      requires level <= 9 && 8 <= windowBits <= 15 && 1 <= memLevel <= 9 && strategy <= 4 && wrap <= 1
      ensures Base() && win.Valid() && win.Summed() && ts.Valid() && w.Valid()
      ensures win.hist == [] && win.off == win.strstart == win.lookahead == win.blockStart == 0
      ensures w.Sent() == [] && w.taken == output == [] && Drained() && w.biValid == 0 && ts.toks == []
      ensures Greedy() && Lazy() && !matchAvailable && win.wrapped == (wrap == 1)
      ensures ts.level == level && ts.strategy == strategy && hdr == 2 * wrap && mark == Mark(hdr, 0) && win.ins == {} && ts.intact && notes == [] && ts.blocks == []
      ensures Secure() <==> Safe(level, strategy, MaxDist(win.g))
      ensures windowBits <= 9 <==> MaxDist(win.g) <= 256
      ensures win.g.wSize == Pow2(if windowBits == 8 then 9 else windowBits) && ts.litBufsize == Pow2(memLevel + 6)
      ensures win.g.bits == memLevel + 7 && win.g.bits <= 3 * win.g.shift < win.g.bits + 3
      ensures fresh(win) && fresh(win.window) && fresh(win.prev) && fresh(win.head) && fresh(ts) && fresh(ts.heap) && fresh(w) && fresh(w.pendingBuf)
    {
      hide Pow2, StaticOk, T.TreeState.Valid, Window.Valid, BytesToBits, ToBits, Fit, Holding, Window.Summed, Safe,
        T.TreeState.Told, Output.Valid, Output.Sent, ConfigFor, T.TreeState.Kept, Far;
      WindowSize(windowBits);
      var t := TrStaticInit();
      var bits := if windowBits == 8 then 9 else windowBits;
      var g := Geometry(Pow2(bits), memLevel + 7, (memLevel + 9) / 3);
      win := new Window(g, wrap == 1);
      var lit := Pow2(memLevel + 6);
      LitSize(memLevel);
      var out := new Output(4 * lit);
      w := out;
      ts := new T.TreeState(out, t, lit, level, strategy);
      cfg := ConfigFor(level);
      hdr := 2 * wrap;
      matchLength, prevLength, prevMatch, matchAvailable := 2, 2, 0, false;
      nextIn, availOut, output := [], 0, [];
      mark := Mark(2 * wrap, 0);
      notes, held := [], Look(0, 0, 0, {}, 0, [], 0, 0, 0);
    }

    ghost predicate Base() {
      && win.window != w.pendingBuf && ts.heap != win.prev && ts.heap != win.head
      && ts.w == w && StaticOk(ts.t) && w.pendingBuf.Length == 4 * ts.litBufsize
      && cfg == ConfigFor(ts.level) && GeometryOk(win.g)
      && 128 <= ts.litBufsize && ts.litBufsize % 2 == 0
    }

    ghost function Settings(): Rules {
      Rules(win.g, cfg, ts.strategy, ts.level > 3)
    }

    // The tokens up to byte cov are those that the settings ask for.
    ghost predicate Parsed(cov: nat)
      reads this`notes, win`hist, ts`toks, ts`blocks
    {
      ts.level > 0 ==> Lawful(Settings(), win.hist, cov, ts.Told(), notes)
    }

    // How far a pair may reach back with this strategy.
    ghost function Reach(): nat {
      if GeometryOk(win.g) then Far(ts.strategy, MaxDist(win.g)) else 0
    }

    // The settings are such that no token is ever lost.
    ghost predicate Secure() {
      GeometryOk(win.g) && Safe(ts.level, ts.strategy, MaxDist(win.g))
    }

    // The dictionary holds nothing from before the last full flush.
    ghost predicate Own()
      reads this`mark, win`ins
    {
      forall a :: a in win.ins ==> mark.from <= a
    }

    ghost function BlockAt(): int
      reads win`off, win`blockStart
    {
      win.off + win.blockStart
    }

    ghost function Reached(): nat
      reads win`off, win`strstart
    {
      win.off + win.strstart
    }

    // The parts of the state are in order, whatever they hold.
    ghost predicate Sound()
      reads this`output, win`hist, win`off, win`strstart, win`lookahead, win`blockStart, win.window, ts, ts.heap, w, w.pendingBuf
    {
      Base() && win.Live() && ts.Valid() && w.Valid() && output == w.taken && (Secure() ==> ts.intact)
    }

    // The stream written so far reads back as the input before the current block, and the tokens of
    // the current block stand for the input up to byte cov.
    ghost predicate Core(cov: nat)
      reads this`output, this`mark, this`notes, win`hist, win`off, win`strstart, win`lookahead, win`blockStart, win.window, ts, ts.heap, w, w.pendingBuf
    {
      && Sound()
      && 0 <= BlockAt() <= |win.hist| && mark.from <= BlockAt() && ts.Collected()
      && Stands(ts.intact, w.Sent(), hdr, mark, win.hist, BlockAt())
      && Spoken(ts.level, Reach(), win.hist, mark.from, BlockAt(), cov, ts.toks) && Parsed(cov)
    }

    // With the dictionary as it is between two rounds of a compression function ...
    ghost predicate Steady(cov: nat)
      reads this`output, this`mark, this`notes, win, win.window, win.prev, win.head, ts, ts.heap, w, w.pendingBuf
    {
      Core(cov) && win.Valid() && Own()
    }

    // ... and when the string at strstart has just been entered.
    ghost predicate Mid(cov: nat)
      reads this`output, this`mark, this`notes, win, win.window, win.prev, win.head, ts, ts.heap, w, w.pendingBuf
    {
      Core(cov) && win.Entered() && Own()
    }

    // The pending buffer is empty, so put_byte starts at its bottom.
    ghost predicate Drained()
      reads w
    {
      w.pending == 0 && w.pendingOut == 0
    }

    // While there is room for output nothing is left behind.
    ghost predicate Tidy()
      reads this`availOut, w
    {
      (availOut > 0 ==> Drained()) && (w.pending == 0 ==> w.pendingOut == 0)
    }

    // A stored block has room.
    ghost predicate Storable()
      reads this, win, ts, w
    {
      win.blockStart >= 0 && w.biValid <= 5 && win.strstart - win.blockStart + 5 <= 4 * ts.litBufsize
    }

    // The bytes of the current block, or NULL if they have left the window.
    method BlockBuf() returns (buf: T.Option<Bytes>)
      requires Core(Reached())
      ensures buf.Some? <==> win.blockStart >= 0
      ensures buf.Some? ==> |buf.value| == win.strstart - win.blockStart && win.hist[..Reached()] == win.hist[..BlockAt()] + buf.value
    {
      hide Stands, Streams, StaticOk, T.Counted, Chains, HashReady, BytesToBits, ToBits, Lawful, LookOk, RawOk, Deflater.Parsed;
      SpokenParts(ts.level, Reach(), win.hist, mark.from, BlockAt(), Reached(), ts.toks);
      buf := T.None;
      if win.blockStart >= 0 {
        buf := T.Some(win.window[win.blockStart..win.strstart]);
        BlockBytes(win.window[..], win.hist, win.off, win.strstart + win.lookahead, win.blockStart, win.strstart);
      }
    }

    // The block that FLUSH_BLOCK_ONLY hands to trees.c: all input dealt with since the last one.
    method EmitBlock(eof: bool) returns (ghost form: T.Form, ghost h: T.Header)
      requires Core(Reached()) && Drained() && (ts.level == 0 ==> Storable()) && (eof ==> Reached() == |win.hist|)
      requires win.blockStart >= 0 ==> win.strstart - win.blockStart < 65536
      modifies win`blockStart, ts, ts.heap, w`pending, w`biBuf, w`biValid, w.pendingBuf
      ensures Sound() && ts.toks == [] && win.blockStart == win.strstart && w.pendingOut == 0
      ensures ts.intact <==> old(ts.intact) && T.BlockSpared(form, h, old(ts.toks), old(w.biValid), ts.litBufsize)
      ensures ts.Told() == old(ts.Told()) && Parsed(Reached()) && OneBlock(old(ts.blocks), ts.blocks, old(ts.toks))
      ensures ts.level > 0 ==>
                T.WellChosen(form, ts.strategy, old(win.blockStart >= 0), old(ts.toks), old(win.strstart - win.blockStart), h, eof)
      ensures if eof then Ends(ts.intact, w.Sent(), hdr, mark, win.hist) else Stands(ts.intact, w.Sent(), hdr, mark, win.hist, Reached())
      ensures ts.level == 0 ==> ts.lastEobLen == 8
      ensures ts.level == 0 || eof ==> w.biValid == 0
    {
      hide Stands, Streams, Ends, Closed, Spoken, StaticOk, BytesToBits, ToBits, T.Flushed, T.FormBits, T.WellChosen,
        Expandable, Expand, Written, T.Counted, Chains, HashReady, Holds, Finished, Sendable, T.TreeState.Valid,
        T.BlockSpared, T.InView, T.Means, Views, Covers, Output.Sent, Overlaid, Safe, Lawful, LookOk, RawOk,
        T.TreeState.Told, T.TreeState.Kept, ConfigFor, T.Flat, Deflater.Settings;
      var buf := BlockBuf();
      SpokenParts(ts.level, Reach(), win.hist, mark.from, BlockAt(), Reached(), ts.toks);
      ViewsStart(ts.level, Reach(), ts.intact, w.Sent(), hdr, mark, win.hist, BlockAt(), Reached(), buf, ts.toks);
      StillValid();
      ghost var s, toks, held, bs := w.Sent(), ts.toks, w.Held(), BlockAt();
      form, h := ts.FlushBlock(buf, win.strstart - win.blockStart, eof, Views(hdr, mark, win.hist, bs, Reached()));
      ViewsEnd(ts.intact, s, w.Sent(), T.FormBits(form, |s|, h, toks, buf, eof), eof, hdr, mark, win.hist, bs, Reached());
      Secured(form, h, toks, held, buf.Some?, win.strstart - win.blockStart, eof, bs);
      win.blockStart := win.strstart;
    }

    // With settings that are safe the block has kept all its tokens.
    lemma Secured(form: T.Form, h: T.Header, toks: seq<Token>, held: nat, some: bool, storedLen: nat, eof: bool, bs: nat)
      requires Base() && held <= 16 && |toks| < ts.litBufsize && Spoken(ts.level, Reach(), win.hist, mark.from, bs, Reached(), toks)
      requires ts.level > 0 ==> T.WellChosen(form, ts.strategy, some, toks, storedLen, h, eof) && Covers(h.l, h.d, toks)
      requires ts.level == 0 ==> form == T.StoredForm
      ensures Secure() ==> T.BlockSpared(form, h, toks, held, ts.litBufsize)
    {
      hide Covered, T.WellChosen, Covers, T.BlockSpared, Safe, StaticOk;
      if Secure() {
        SafeSpared(ts.level, ts.strategy, MaxDist(win.g), form, h, toks, held, ts.litBufsize, some, storedLen, eof);
      }
    }

    // flush_pending.
    method FlushPending()
      requires w.Valid() && (w.pending == 0 ==> w.pendingOut == 0) && output == w.taken
      modifies this`availOut, this`output, w`pendingOut, w`pending, w`taken
      ensures w.Valid() && w.Sent() == old(w.Sent()) && w.SentBytes() == old(w.SentBytes()) && output == w.taken
      ensures Tidy()
      ensures Delivered(old(output), old(availOut), output, availOut)
      ensures w.pending == (if old(w.pending) < old(availOut) then 0 else old(w.pending) - old(availOut))
      ensures availOut == 0 <==> old(w.pending) >= old(availOut)
    {
      hide BytesToBits, ToBits;
      var out := w.FlushPending(availOut);
      output := output + out;
      availOut := availOut - |out|;
    }

    // FLUSH_BLOCK_ONLY.
    method FlushBlockOnly(eof: bool)
      requires Core(Reached()) && Drained() && (ts.level == 0 ==> Storable()) && (eof ==> Reached() == |win.hist|)
      requires win.blockStart >= 0 ==> win.strstart - win.blockStart < 65536
      modifies this`availOut, this`output, win`blockStart, ts, ts.heap, w, w.pendingBuf
      ensures Sound() && ts.toks == [] && win.blockStart == win.strstart && (ts.intact ==> old(ts.intact)) && ts.Told() == old(ts.Told())
      ensures OneBlock(old(ts.blocks), ts.blocks, old(ts.toks))
      ensures if eof then Ends(ts.intact, w.Sent(), hdr, mark, win.hist) && Parsed(Reached()) else Core(Reached())
      ensures Tidy()
      ensures w.pendingOut + w.pending <= w.pendingBuf.Length && Delivered(old(output), old(availOut), output, availOut)
      ensures ts.level == 0 ==> ts.lastEobLen == 8
      ensures ts.level == 0 || eof ==> w.biValid == 0
    {
      hide *;
      ghost var form, h := EmitBlock(eof);
      label Emitted:
      SoundParts();
      FlushPending();
      SoundKept@Emitted();
      SoundParts();
      if !eof {
        NewBlock();
      }
    }

    lemma SoundParts()
      requires Sound()
      ensures w.Valid() && output == w.taken && win.window != w.pendingBuf && w.pendingOut + w.pending <= w.pendingBuf.Length
    {
      hide StaticOk, Holds, T.TreeState.Valid, Safe;
    }

    // flush_pending changes nothing but what is pending.
    twostate lemma SoundKept()
      requires old(Sound()) && w.Valid() && output == w.taken
      requires unchanged(win`hist, win`off, win`strstart, win`lookahead, win`blockStart, win.window, ts, ts.heap, w.pendingBuf)
      ensures Sound()
    {
      hide StaticOk, Holds, T.TreeState.Valid, Output.Valid, Safe;
    }

    // Behind a block nothing is left over.
    lemma NewBlock()
      requires Sound() && Parsed(Reached()) && ts.toks == [] && win.blockStart == win.strstart && Stands(ts.intact, w.Sent(), hdr, mark, win.hist, Reached())
      ensures Core(Reached())
    {
      hide Streams, StaticOk, Holds, T.TreeState.Valid, Output.Valid, Output.Sent, Safe;
      NothingOverlaid(w.pendingBuf[..], ts.litBufsize);
      NothingSpoken(ts.level, Reach(), win.hist, mark.from, Reached());
    }

    // fill_window on the stream's input.
    method Fill(ghost cov: nat)
      requires Steady(cov) && win.Summed() && win.lookahead < MIN_LOOKAHEAD
      modifies this`nextIn, win, win.window, win.prev, win.head
      ensures Steady(cov) && win.Summed() && win.strstart + MIN_LOOKAHEAD <= win.window.Length
      ensures nextIn == [] || win.lookahead >= MIN_LOOKAHEAD
      ensures Reached() == old(Reached()) && BlockAt() == old(BlockAt()) && win.off + win.matchStart == old(win.off + win.matchStart)
      ensures old(win.strstart) >= 1 ==> win.strstart >= 1
      ensures old(win.blockStart >= 0 && win.strstart - win.blockStart < win.g.wSize - MIN_LOOKAHEAD) ==> win.blockStart >= 0
      ensures win.hist + nextIn == old(win.hist + nextIn) && old(win.hist) <= win.hist
      ensures win.lookahead + |nextIn| == old(win.lookahead + |nextIn|)
    {
      hide Stands, Streams, Spoken, StaticOk, BytesToBits, ToBits, T.Counted, Chains, HashReady, T.TreeState.Valid,
        Sendable, Lawful, LookOk, RawOk;
      ghost var in0, hist0 := nextIn, win.hist;
      nextIn := win.FillWindow(nextIn);
      ghost var more := in0[..|in0| - |nextIn|];
      TakenAll(hist0, win.hist, in0, nextIn);
      SpokenMore(ts.level, Reach(), hist0, more, mark.from, BlockAt(), cov, ts.toks);
      if ts.level > 0 {
        LawfulMore(Settings(), hist0, more, cov, ts.Told(), notes);
      }
      StandsMore(ts.intact, w.Sent(), hdr, mark, hist0, more, BlockAt());
    }

    // The positions on a hash chain that the level lets a search look at.
    ghost function Candidates(hashHead: nat): seq<nat>
      requires GeometryOk(win.g) && win.prev.Length > 0
      reads this`prevLength, win`strstart, win.prev
    {
      Chain(win.prev[..], hashHead, if win.strstart > MaxDist(win.g) then win.strstart - MaxDist(win.g) else 0,
            if prevLength >= cfg.goodLength then cfg.maxChain / 4 else cfg.maxChain)
    }

    // hash_head is where the chain of the string at strstart begins, if there is a string.
    ghost predicate Headed(hashHead: nat)
      reads win`hist, win`off, win`ins, win`strstart, win`lookahead
    {
      win.lookahead >= MIN_MATCH ==>
        && win.off + win.strstart + 2 < |win.hist|
        && Link(win.g, win.hist, win.off, win.ins, hashHead, win.strstart, HashAt(win.g, win.hist, win.off + win.strstart))
    }

    // What has been looked for at strstart.
    ghost predicate Looked(look: Look)
      reads this`prevLength, win`hist, win`off, win`strstart, win`matchStart, win`ins
    {
      && RawOk(Settings(), win.hist, look) && look.at == Reached() && look.low == win.off && look.seen == |win.hist|
      && look.dict == win.ins && look.prev == prevLength && look.start == win.off + win.matchStart
    }

    // The choice of the search, common to both compression functions.
    method Search(hashHead: nat) returns (ghost look: Look)
      requires !(ts.level > 3 && prevLength >= cfg.maxLazy)
      requires Base() && ts.level > 0 && win.Entered() && Own() && win.strstart + MIN_LOOKAHEAD <= win.window.Length
      requires hashHead != 0 && hashHead <= win.strstart && win.strstart - hashHead <= MaxDist(win.g)
      requires Headed(hashHead)
      requires 1 <= prevLength <= MAX_MATCH && 1 <= win.lookahead && matchLength < MIN_MATCH
      modifies this`matchLength, win`matchStart
      ensures Looked(look) && look.raw == matchLength
      ensures win.Entered() && matchLength <= MAX_MATCH && (old(matchLength) >= 1 ==> matchLength >= 1)
      ensures matchLength >= MIN_MATCH ==> matchLength <= win.lookahead
      ensures matchLength >= MIN_MATCH && matchLength > prevLength ==>
                Fit(win.g, Reach(), mark.from, win.hist, win.off + win.matchStart, Reached(), matchLength)
      ensures ts.strategy == Z_HUFFMAN_ONLY || (ts.strategy == Z_RLE && win.strstart - hashHead != 1) ==>
                matchLength == old(matchLength) && win.matchStart == old(win.matchStart)
      ensures ts.strategy == Z_RLE && win.strstart - hashHead == 1 && win.lookahead >= MIN_MATCH ==>
                var n := Agree(win.window[..], hashHead, win.strstart, 0);
                matchLength == if n < MIN_MATCH then MIN_MATCH - 1 else if n <= win.lookahead then n else win.lookahead
      ensures ts.strategy != Z_HUFFMAN_ONLY && ts.strategy != Z_RLE && win.lookahead >= MIN_MATCH ==>
                look.cands == Shifted(Candidates(hashHead), win.off)
      ensures ts.strategy != Z_HUFFMAN_ONLY && ts.strategy != Z_RLE && win.lookahead >= MIN_MATCH ==>
                || matchLength >= cfg.niceLength || matchLength == win.lookahead
                || (matchLength >= prevLength && NoneBetter(win.window[..], win.strstart, Candidates(hashHead), matchLength))
    {
      hide StaticOk, Fit, GoodMatch, NoneBetter, Agree, Chain, RawOk, Shifted, Deflater.Looked, Searching, Candidate, Window.Entered, Window.Live, Deflater.Own, Deflater.Reach, ConfigFor, Deflater.Headed;
      Ready(hashHead);
      if ts.strategy != Z_HUFFMAN_ONLY && ts.strategy != Z_RLE {
        look := SearchChain(hashHead);
      } else if ts.strategy == Z_RLE && win.strstart - hashHead == 1 {
        matchLength, win.matchStart :=
          LongestMatchFast(win.g, win.window, win.strstart, win.lookahead, win.matchStart, hashHead,
                           win.hist, win.off, win.ins, win.head[..], win.prev[..]);
        if matchLength >= MIN_MATCH {
          InDictionary(win.g, win.hist, win.off, win.ins, win.strstart, win.lookahead, hashHead);
          OwnMatch(win.off + win.matchStart, Reached(), matchLength);
        }
        look := RunLooked(hashHead);
      } else {
        look := NothingLooked(hashHead);
      }
    }

    // longest_match.
    method SearchChain(hashHead: nat) returns (ghost look: Look)
      requires ts.strategy != Z_HUFFMAN_ONLY && ts.strategy != Z_RLE && !(ts.level > 3 && prevLength >= cfg.maxLazy)
      requires Base() && ts.level > 0 && win.Entered() && Own() && win.strstart + MIN_LOOKAHEAD <= win.window.Length
      requires hashHead != 0 && hashHead <= win.strstart && win.strstart - hashHead <= MaxDist(win.g)
      requires Headed(hashHead)
      requires 1 <= prevLength <= MAX_MATCH && 1 <= win.lookahead && win.prev.Length > 0
      modifies this`matchLength, win`matchStart
      ensures Looked(look) && look.raw == matchLength && 1 <= matchLength <= MAX_MATCH && matchLength <= win.lookahead
      ensures matchLength >= MIN_MATCH && matchLength > prevLength ==>
                Fit(win.g, Reach(), mark.from, win.hist, win.off + win.matchStart, Reached(), matchLength)
      ensures win.lookahead >= MIN_MATCH ==>
                && look.cands == Shifted(Candidates(hashHead), win.off)
                && (|| matchLength >= cfg.niceLength || matchLength == win.lookahead
                    || (matchLength >= prevLength && NoneBetter(win.window[..], win.strstart, Candidates(hashHead), matchLength)))
    {
      hide StaticOk, Fit, GoodMatch, NoneBetter, Foremost, Agree, Chain, RawOk, Shifted, Deflater.Looked, Searching, Candidate, Window.Entered, Window.Live, Deflater.Own, Deflater.Reach, ConfigFor, Deflater.Settings, Deflater.Headed;
      Ready(hashHead);
      ghost var seen;
      matchLength, win.matchStart, seen :=
        LongestMatch(win.g, cfg, win.window, win.prev, win.strstart, win.lookahead, prevLength, win.matchStart, hashHead,
                     win.hist, win.off, win.ins, win.head[..]);
      if matchLength >= MIN_MATCH && matchLength > prevLength {
        Followed(win.g, win.window[..], win.hist, win.off, win.ins, win.head[..], win.prev[..], win.strstart, win.lookahead, hashHead,
                 if win.strstart > MaxDist(win.g) then win.strstart - MaxDist(win.g) else 0,
                 if prevLength >= cfg.goodLength then cfg.maxChain / 4 else cfg.maxChain, win.matchStart);
        OwnMatch(win.off + win.matchStart, Reached(), matchLength);
      }
      look := ChainLooked(hashHead, seen);
    }

    lemma Ready(hashHead: nat)
      requires win.Entered() && win.strstart + MIN_LOOKAHEAD <= win.window.Length && 0 < hashHead <= win.strstart
      requires Headed(hashHead)
      ensures win.Live() && |win.hist| == win.off + win.strstart + win.lookahead && win.prev.Length > 0
      ensures Searching(win.g, win.window[..], win.hist, win.off, win.ins, win.head[..], win.prev[..], win.strstart, win.lookahead)
      ensures Candidate(win.g, win.hist, win.off, win.ins, win.strstart, win.lookahead, hashHead)
    {
      hide Chains, HashReady, HashAt, Holds, Link, Searching, Candidate;
      HeldSize(win.window[..], win.hist, win.off, win.strstart + win.lookahead);
      DictBounds(win.g, win.window[..], win.hist, win.off, win.ins, win.head[..], win.prev[..], win.strstart + win.lookahead,
                 if win.lookahead >= MIN_MATCH then win.strstart + 1 else win.strstart);
      ReadyToSearch(win.g, win.window[..], win.hist, win.off, win.ins, win.head[..], win.prev[..], win.strstart, win.lookahead, hashHead);
    }

    // What has been looked for, when nothing was to be looked at ...
    lemma NothingLooked(hashHead: nat) returns (look: Look)
      requires Base() && win.Live() && win.lookahead >= 1 && matchLength < MIN_MATCH && Headed(hashHead)
      requires win.lookahead >= MIN_MATCH && Allowance(Settings(), prevLength) > 0 ==>
                 || hashHead == 0 || hashHead > win.strstart || win.strstart - hashHead > MaxDist(win.g)
                 || (ts.strategy == Z_RLE && win.strstart - hashHead != 1)
      ensures Looked(look) && look.raw == matchLength && look.cands == []
    {
      hide StaticOk, Holds, HashAt, Link, RawOk, Allowance;
      HeldSize(win.window[..], win.hist, win.off, win.strstart + win.lookahead);
      EmptyLook(Settings(), win.hist, win.off, win.ins, win.strstart, win.lookahead, hashHead, prevLength, matchLength, win.off + win.matchStart, 0);
      look := Look(Reached(), win.off, |win.hist|, win.ins, prevLength, [], matchLength, win.off + win.matchStart, 0);
    }

    // ... after longest_match ...
    lemma ChainLooked(hashHead: nat, chain: seq<nat>) returns (look: Look)
      requires Base() && ts.level > 0 && win.Live() && win.prev.Length > 0 && hashHead != 0 && hashHead <= win.strstart && win.strstart - hashHead <= MaxDist(win.g)
      requires ts.strategy != Z_HUFFMAN_ONLY && ts.strategy != Z_RLE && !(ts.level > 3 && prevLength >= cfg.maxLazy)
      requires Searching(win.g, win.window[..], win.hist, win.off, win.ins, win.head[..], win.prev[..], win.strstart, win.lookahead)
      requires Candidate(win.g, win.hist, win.off, win.ins, win.strstart, win.lookahead, hashHead) && win.strstart + MAX_MATCH <= win.window.Length
      requires Headed(hashHead)
      requires chain == Candidates(hashHead) && matchLength <= win.lookahead && win.lookahead >= 1
      requires win.lookahead >= MIN_MATCH ==>
                 || matchLength >= cfg.niceLength || matchLength == win.lookahead
                 || (matchLength >= prevLength && NoneBetter(win.window[..], win.strstart, chain, matchLength))
      requires matchLength > prevLength && matchLength >= MIN_MATCH ==>
                 win.matchStart in chain && GoodMatch(win.g, win.hist, win.off + win.matchStart, Reached(), matchLength)
      requires matchLength > prevLength && win.lookahead >= MIN_MATCH ==>
                 Foremost(win.window[..], win.strstart, chain, win.matchStart, prevLength, if matchLength < cfg.niceLength then matchLength else cfg.niceLength)
      ensures Looked(look) && look.raw == matchLength && (win.lookahead >= MIN_MATCH ==> look.cands == Shifted(chain, win.off))
    {
      hide StaticOk, Holds, HashAt, Link, RawOk, Searching, Candidate, NoneBetter, GoodMatch, Chain, Shifted, Foremost;
      HeldSize(win.window[..], win.hist, win.off, win.strstart + win.lookahead);
      if win.lookahead >= MIN_MATCH {
        ChainLook(Settings(), win.window[..], win.hist, win.off, win.ins, win.head[..], win.prev[..], win.strstart, win.lookahead, hashHead, prevLength,
                  if win.strstart > MaxDist(win.g) then win.strstart - MaxDist(win.g) else 0, chain, matchLength, win.matchStart, 0);
        look := Look(Reached(), win.off, |win.hist|, win.ins, prevLength, Shifted(chain, win.off), matchLength, win.off + win.matchStart, 0);
      } else {
        look := NothingLooked(hashHead);
      }
    }

    // ... and after longest_match_fast.
    lemma RunLooked(hashHead: nat) returns (look: Look)
      requires Base() && win.Live() && win.strstart - hashHead == 1 && ts.strategy == Z_RLE && !(ts.level > 3 && prevLength >= cfg.maxLazy)
      requires Searching(win.g, win.window[..], win.hist, win.off, win.ins, win.head[..], win.prev[..], win.strstart, win.lookahead)
      requires Candidate(win.g, win.hist, win.off, win.ins, win.strstart, win.lookahead, hashHead) && win.strstart + MAX_MATCH <= win.window.Length
      requires win.lookahead >= 1 && (matchLength <= win.lookahead || matchLength == MIN_MATCH - 1)
      requires win.lookahead >= MIN_MATCH ==>
                 var n := Agree(win.window[..], hashHead, win.strstart, 0);
                 matchLength == if n < MIN_MATCH then MIN_MATCH - 1 else if n <= win.lookahead then n else win.lookahead
      requires matchLength >= MIN_MATCH ==>
                 win.matchStart == hashHead && GoodMatch(win.g, win.hist, win.off + win.matchStart, Reached(), matchLength)
      ensures Looked(look) && look.raw == matchLength
    {
      hide StaticOk, Holds, HashAt, RawOk, Searching, Candidate, GoodMatch, Agree;
      HeldSize(win.window[..], win.hist, win.off, win.strstart + win.lookahead);
      if win.lookahead >= MIN_MATCH {
        RunLook(Settings(), win.window[..], win.hist, win.off, win.ins, win.head[..], win.prev[..], win.strstart, win.lookahead, hashHead, prevLength,
                matchLength, win.matchStart, 0);
        look := Look(Reached(), win.off, |win.hist|, win.ins, prevLength, [win.off + hashHead], matchLength, win.off + win.matchStart, 0);
      } else {
        look := NothingLooked(hashHead);
      }
    }

    // A match with a position in the dictionary may be sent.
    lemma OwnMatch(a: int, b: nat, n: nat)
      requires Own() && a >= 0 && a in win.ins && GoodMatch(win.g, win.hist, a, b, n) && ts.strategy != Z_HUFFMAN_ONLY
      ensures Fit(win.g, Reach(), mark.from, win.hist, a, b, n)
    {
    }

    // The tree builder always has room for one more token.
    lemma StillValid()
      requires Base() && ts.Valid()
      ensures |ts.toks| < ts.litBufsize && 128 <= ts.litBufsize && MaxDist(win.g) > 0 && MaxBlockSize() > 0
    {
      hide StaticOk, T.Counted;
    }

    // The tables of the dictionary share nothing with what Core speaks of.
    lemma Separate(cov: nat)
      requires Core(cov) && (win.Valid() || win.Entered())
      ensures win.head != ts.heap && win.prev != ts.heap && win.window != w.pendingBuf && w.Valid()
      ensures win.head.Length > 0 && win.prev.Length == win.window.Length / 2
    {
    }

    // Behind a full flush the state is what it was, with a new mark.
    twostate lemma Restarted(cov: nat)
      requires old(Core(cov)) && w.Valid() && old(ts.toks) == [] && win.ins == {} && mark.from == BlockAt() == |win.hist| == cov
      requires Stands(ts.intact, w.Sent(), hdr, mark, win.hist, BlockAt())
      requires unchanged(this`output, this`notes, win`hist, win`off, win`strstart, win`lookahead, win`blockStart, win.window, ts, ts.heap, w, w.pendingBuf)
      ensures Core(cov) && Own()
    {
      hide Streams, StaticOk, Holds, T.TreeState.Valid, Output.Valid, Output.Sent, Overlaid, Safe;
      NothingSpoken(ts.level, Reach(), win.hist, mark.from, BlockAt());
    }

    lemma CoreBase(cov: nat)
      requires Core(cov)
      ensures Base() && mark.from <= Reached() && win.Live()
      ensures |win.hist| == Reached() + win.lookahead && win.strstart + win.lookahead <= win.window.Length
    {
      hide Stands, Streams, Spoken, StaticOk, Holds, T.TreeState.Valid, Lawful, LookOk, RawOk, Deflater.Parsed,
        T.TreeState.Told, Safe, Output.Valid, Output.Sent, Overlaid;
      HeldSize(win.window[..], win.hist, win.off, win.strstart + win.lookahead);
    }

    // Core does not depend on how far the window has been worked through.
    twostate lemma CoreKept(cov: nat)
      requires old(Core(cov)) && win.Live()
      requires unchanged(this`output, this`mark, this`notes, win`hist, win`off, win`blockStart, win.window, ts, ts.heap, w, w.pendingBuf)
      ensures Core(cov)
    {
      hide Stands, Spoken, StaticOk, Holds, T.TreeState.Valid, Output.Valid, Output.Sent, Overlaid, Safe, Lawful,
        T.TreeState.Told;
    }

    // INSERT_STRING at strstart, if there is a string.
    method Enter(hashHead0: nat, ghost cov: nat) returns (hashHead: nat)
      requires Steady(cov)
      modifies win`insH, win`ins, win.head, win.prev
      ensures Mid(cov) && win.Live()
      ensures win.ins == old(win.ins) + if win.lookahead >= MIN_MATCH then {Reached()} else {}
      ensures Headed(hashHead)
    {
      hide Deflater.Core, Window.Dict, Window.Live, StaticOk, HashAt, Link;
      CoreBase(cov);
      Separate(cov);
      hashHead := win.InsertCurrent(hashHead0);
      CoreKept(cov);
    }

    // deflate_fast passes a match ...
    method PassFast(length: nat, hashHead0: nat, ghost cov: nat) returns (hashHead: nat)
      requires Mid(cov) && MIN_MATCH <= length <= win.lookahead && win.strstart + length + 1 < win.window.Length
      modifies win`strstart, win`lookahead, win`insH, win`ins, win.head, win.prev
      ensures Steady(cov) && win.strstart == old(win.strstart) + length && win.lookahead == old(win.lookahead) - length
      ensures win.ins == old(win.ins) +
                if length <= cfg.maxLazy && win.lookahead >= MIN_MATCH then Passed(old(Reached()), Reached()) else {}
    {
      hide Deflater.Core, Window.Dict, StaticOk, HashReady, Holds;
      CoreBase(cov);
      Separate(cov);
      hashHead := win.PassMatchFast(length, cfg.maxLazy, hashHead0);
      ValidLive();
      CoreKept(cov);
    }

    // ... and deflate_slow the rest of the match at the previous byte.
    method PassSlow(length: nat, hashHead0: nat, ghost cov: nat) returns (hashHead: nat)
      requires Mid(cov) && MIN_MATCH <= length <= win.lookahead + 1 && win.strstart >= 1 && win.strstart + win.lookahead >= MIN_MATCH
      modifies win`strstart, win`lookahead, win`insH, win`ins, win.head, win.prev
      ensures Steady(cov) && win.strstart == old(win.strstart) + length - 1 && win.lookahead == old(win.lookahead) - (length - 1)
      ensures win.ins == old(win.ins) + WholeStrings(old(Reached()), Reached(), win.hist)
    {
      hide Deflater.Core, Window.Dict, StaticOk, HashReady, Holds;
      CoreBase(cov);
      Separate(cov);
      hashHead := win.PassMatchSlow(length, hashHead0);
      ValidLive();
      CoreKept(cov);
    }

    lemma ValidLive()
      requires win.Valid()
      ensures win.Live()
    {
      hide Chains, HashReady, Holds;
    }

    // _tr_tally_lit for the byte at window index i.
    method SendLiteral(i: nat, ghost note: Note) returns (bflush: bool)
      requires ts.level > 0 && Core(win.off + i) && note.look.at == win.off + i && Drained() && i < win.strstart + win.lookahead && |ts.toks| + 1 < ts.litBufsize
      requires i < win.window.Length && TokenFits(Settings(), win.hist, Token(0, win.window[i]), note)
      modifies this`notes, ts`ltree, ts`dtree, ts`lastLit, ts`toks, ts`matches, w.pendingBuf
      ensures ts.Told() == old(ts.Told()) + [Token(0, win.window[i])]
      ensures Core(win.off + i + 1) && |ts.toks| == old(|ts.toks|) + 1 < ts.litBufsize && (bflush <==> |ts.toks| == ts.litBufsize - 1)
    {
      hide Stands, Streams, Spoken, StaticOk, BytesToBits, ToBits, T.Counted, Chains, HashReady, Sendable, Lawful, LookOk, RawOk;
      HeldSize(win.window[..], win.hist, win.off, win.strstart + win.lookahead);
      WindowByte(win.window[..], win.hist, win.off, win.strstart + win.lookahead, i);
      SpokenLiteral(ts.level, Reach(), win.hist, mark.from, BlockAt(), win.off + i, ts.toks);
      LawfulStep(Settings(), win.hist, win.off + i, ts.Told(), notes, Token(0, win.window[i]), note);
      bflush := ts.Tally(0, win.window[i]);
      notes := notes + [note];
    }

    // _tr_tally_dist.
    method SendMatch(dist: int, length: nat, ghost a: int, ghost b: nat, ghost note: Note) returns (bflush: bool)
      requires ts.level > 0 && Core(b) && Drained() && Fit(win.g, Reach(), mark.from, win.hist, a, b, length) && dist == b - a && |ts.toks| + 1 < ts.litBufsize
      requires note.look.at == b && NoteOk(Settings(), win.hist, note) && note.look.len == length && note.look.start == a
      requires ts.level > 3 ==> note.Compared? && note.next.len <= length
      modifies this`notes, ts`ltree, ts`dtree, ts`lastLit, ts`toks, ts`matches, w.pendingBuf
      ensures dist >= 0 && 0 <= length - MIN_MATCH < 256 && ts.Told() == old(ts.Told()) + [Token(dist, length - MIN_MATCH)]
      ensures Core(b + length) && |ts.toks| == old(|ts.toks|) + 1 < ts.litBufsize && (bflush <==> |ts.toks| == ts.litBufsize - 1)
    {
      hide Stands, Streams, Spoken, StaticOk, BytesToBits, ToBits, T.Counted, Chains, HashReady, Sendable, Fit,
        GoodMatch, Lawful, LookOk, RawOk;
      SpokenMatch(ts.level, win.g, Reach(), win.hist, mark.from, BlockAt(), a, b, length, ts.toks);
      LawfulStep(Settings(), win.hist, b, ts.Told(), notes, Token(dist, length - MIN_MATCH), note);
      bflush := ts.Tally(dist, length - MIN_MATCH);
      notes := notes + [note];
    }

    // Enters the string at strstart and looks for a match.
    method FindFast(hashHead0: nat) returns (hashHead: nat, ghost look: Look)
      requires Steady(Reached()) && 0 < ts.level <= 3 && win.lookahead >= 1 && win.strstart + MIN_LOOKAHEAD <= win.window.Length
      requires matchLength < MIN_MATCH && prevLength == 2
      modifies this`matchLength, win`insH, win`ins, win`matchStart, win.head, win.prev
      ensures Mid(Reached()) && matchLength <= MAX_MATCH && |win.hist| == Reached() + win.lookahead
      ensures win.ins == old(win.ins) + if win.lookahead >= MIN_MATCH then {Reached()} else {}
      ensures Looked(look) && LookOk(Settings(), win.hist, look) && look.len == matchLength
      ensures look.at == Reached() && look.seen == |win.hist| && look.low == win.off && look.prev == prevLength && look.dict == win.ins
      ensures look.start == win.off + win.matchStart
      ensures matchLength >= MIN_MATCH ==>
                matchLength <= win.lookahead && Fit(win.g, Reach(), mark.from, win.hist, win.off + win.matchStart, Reached(), matchLength)
    {
      hide Stands, Streams, Spoken, StaticOk, BytesToBits, ToBits, T.Counted, Chains, HashReady, Sendable, Fit, GoodMatch, Holds, GeometryOk, T.TreeState.Valid, Lawful, LookOk, RawOk, Deflater.Parsed, Deflater.Core, Window.Entered, Window.Live, Window.Dict, Window.Valid, Deflater.Headed;
      CoreBase(Reached());
      hashHead := Enter(hashHead0, Reached());
      if hashHead != 0 && hashHead <= win.strstart && win.strstart - hashHead <= MaxDist(win.g) {
        look := Search(hashHead);
      } else {
        look := NothingLooked(hashHead);
      }
      look := Concluded(look);
    }

    // Greedy matching takes what is found.
    lemma Concluded(look: Look) returns (look': Look)
      requires Looked(look) && look.raw == matchLength && ts.level <= 3
      ensures look' == look.(len := matchLength) && Looked(look') && LookOk(Settings(), win.hist, look')
    {
      look' := look.(len := matchLength);
      RawLength(Settings(), win.hist, look, matchLength);
    }

    // The match just found is sent and passed.
    method FastMatch(hashHead0: nat, ghost look: Look) returns (hashHead: nat, bflush: bool)
      requires Looked(look) && LookOk(Settings(), win.hist, look) && look.len == matchLength && prevLength == 2 && ts.level <= 3
      requires Mid(Reached()) && Drained() && ts.level > 0 && |ts.toks| + 1 < ts.litBufsize && win.strstart + MIN_LOOKAHEAD <= win.window.Length
      requires MIN_MATCH <= matchLength <= win.lookahead && matchLength <= MAX_MATCH
      requires Fit(win.g, Reach(), mark.from, win.hist, win.off + win.matchStart, Reached(), matchLength)
      modifies this`matchLength, this`notes, win`insH, win`ins, win`strstart, win`lookahead, win.head, win.prev, ts`ltree, ts`dtree, ts`lastLit, ts`toks, ts`matches, w.pendingBuf
      ensures Steady(Reached()) && matchLength == 0 && win.strstart + 4 <= win.window.Length
      ensures win.lookahead == old(win.lookahead) - look.len
      ensures Reached() == old(Reached()) + look.len && 0 <= look.len - MIN_MATCH < 256 && look.at >= look.start
      ensures ts.Told() == old(ts.Told()) + [Token(look.at - look.start, look.len - MIN_MATCH)]
      ensures win.ins == old(win.ins) +
                if look.len <= cfg.maxLazy && win.lookahead >= MIN_MATCH then Passed(old(Reached()), Reached()) else {}
      ensures (bflush <==> |ts.toks| == ts.litBufsize - 1) && |ts.toks| < ts.litBufsize
    {
      hide Stands, Streams, Spoken, StaticOk, BytesToBits, ToBits, T.Counted, Chains, HashReady, Sendable, Fit,
        GoodMatch, HashAt, Link, Holds, GeometryOk, T.TreeState.Valid, Lawful, LookOk, RawOk, Deflater.Parsed,
        T.TreeState.Told, Deflater.Core, Window.Entered, Window.Live, Window.Dict, Window.Valid;
      CoreBase(Reached());
      bflush := SendMatch(win.strstart - win.matchStart, matchLength, win.off + win.matchStart, Reached(), Plain(look));
      hashHead := PassFast(matchLength, hashHead0, Reached() + matchLength);
      matchLength := 0;
    }

    // Nothing was found: the byte at strstart is sent.
    method FastLiteral(ghost look: Look) returns (bflush: bool)
      requires LookOk(Settings(), win.hist, look) && look.at == Reached() && look.len < MIN_MATCH && look.prev == 2
      requires Mid(Reached()) && Drained() && 0 < ts.level <= 3 && |ts.toks| + 1 < ts.litBufsize && win.lookahead >= 1
      modifies this`notes, win`strstart, win`lookahead, ts`ltree, ts`dtree, ts`lastLit, ts`toks, ts`matches, w.pendingBuf
      ensures Steady(Reached()) && win.strstart == old(win.strstart) + 1 && win.lookahead == old(win.lookahead) - 1
      ensures look.at < |win.hist| && ts.Told() == old(ts.Told()) + [Token(0, win.hist[look.at])]
      ensures (bflush <==> |ts.toks| == ts.litBufsize - 1) && |ts.toks| < ts.litBufsize
    {
      hide Deflater.Core, Window.Entered, Window.Live, Window.Dict, Window.Valid, StaticOk, LookOk, T.TreeState.Told, Overlaid;
      CoreBase(Reached());
      ByteAt(win.strstart);
      bflush := SendLiteral(win.strstart, Plain(look));
      Forward(Reached() + 1);
    }

    lemma ByteAt(i: nat)
      requires win.Live() && i < win.strstart + win.lookahead
      ensures i < win.window.Length && win.off + i < |win.hist| && win.window[i] == win.hist[win.off + i]
    {
      WindowByte(win.window[..], win.hist, win.off, win.strstart + win.lookahead, i);
    }

    // One byte further.
    method Forward(ghost cov: nat)
      requires Mid(cov) && win.lookahead >= 1
      modifies win`strstart, win`lookahead
      ensures Steady(cov) && win.strstart == old(win.strstart) + 1 && win.lookahead == old(win.lookahead) - 1
    {
      hide Deflater.Core, Window.Dict, StaticOk, HashReady, Holds;
      win.Advance();
      ValidLive();
      CoreKept(cov);
    }

    // One round of deflate_fast: a match or a literal.
    method FastStep(hashHead0: nat) returns (hashHead: nat, bflush: bool, ghost look: Look)
      requires Steady(Reached()) && Drained() && 0 < ts.level <= 3 && |ts.toks| + 1 < ts.litBufsize
      requires win.lookahead >= 1 && win.strstart + MIN_LOOKAHEAD <= win.window.Length
      requires matchLength < MIN_MATCH && prevLength == 2
      modifies this`matchLength, this`notes, win`insH, win`ins, win`strstart, win`lookahead, win`matchStart, win.head, win.prev,
        ts`ltree, ts`dtree, ts`lastLit, ts`toks, ts`matches, w.pendingBuf
      ensures Steady(Reached()) && matchLength < MIN_MATCH && win.strstart + 4 <= win.window.Length
      ensures LookOk(Settings(), win.hist, look) && look.at == old(Reached()) && look.seen == |win.hist| && look.low == old(win.off)
      ensures look.dict == old(win.ins) + if old(win.lookahead) >= MIN_MATCH then {old(Reached())} else {}
      ensures FastSends(win.hist, cfg.maxLazy, look, old(ts.Told()), ts.Told(), Reached(), win.ins)
      ensures win.lookahead < old(win.lookahead) && (bflush <==> |ts.toks| == ts.litBufsize - 1) && |ts.toks| < ts.litBufsize
    {
      hide Deflater.Core, Deflater.Own, Deflater.Since, Window.Entered, Window.Valid, LookOk, T.TreeState.Told,
        Deflater.Looked, Passed, Deflater.Settings, Fit, StaticOk;
      hashHead, look := FindFast(hashHead0);
      if matchLength >= MIN_MATCH {
        hashHead, bflush := FastMatch(hashHead, look);
      } else {
        bflush := FastLiteral(look);
      }
    }

    // deflate_fast and deflate_slow may be called, or have returned before the end of the stream.
    ghost predicate Running(cov: nat)
      reads this`output, this`mark, this`notes, win, win.window, win.prev, win.head, ts, ts.heap, w, w.pendingBuf
    {
      Steady(cov) && |ts.toks| + 1 < ts.litBufsize
    }

    ghost predicate Greedy()
      reads this`matchLength, this`prevLength
    {
      matchLength < MIN_MATCH && prevLength == 2
    }

    // The last block has been written, and with it all input.
    ghost predicate Ended()
      reads this`output, this`mark, this`notes, win, win.window, win.prev, win.head, ts, ts.heap, w, w.pendingBuf
    {
      && Sound() && Ends(ts.intact, w.Sent(), hdr, mark, win.hist) && Parsed(|win.hist|) && win.lookahead == 0
      && win.strstart <= win.window.Length && w.biValid == 0
    }

    // All input up to now has been written in whole blocks.
    ghost predicate Flushed()
      reads this, win, win.window, win.prev, win.head, ts, ts.heap, w, w.pendingBuf
    {
      Running(Reached()) && ts.toks == [] && win.lookahead == 0 && nextIn == [] && win.blockStart == win.strstart
    }

    // The last lines of the compression functions: FLUSH_BLOCK(s, flush == Z_FINISH) and the result.
    method LastBlock(flush: nat) returns (state: BlockState)
      requires Steady(Reached()) && Drained() && (ts.level == 0 ==> Storable()) && win.lookahead == 0 && nextIn == []
      requires win.blockStart >= 0 ==> win.strstart - win.blockStart < 65536
      modifies this`availOut, this`output, win`blockStart, ts, ts.heap, w, w.pendingBuf
      ensures match state
              case NeedMore => Flushed() && availOut == 0 && flush != Z_FINISH
              case BlockDone => Flushed() && Drained() && availOut > 0 && flush != Z_FINISH
              case FinishStarted => Ended() && nextIn == [] && availOut == 0 && flush == Z_FINISH
              case FinishDone => Ended() && nextIn == [] && Drained() && flush == Z_FINISH && availOut > 0
      ensures Tidy() && Delivered(old(output), old(availOut), output, availOut) && (ts.intact ==> old(ts.intact))
      ensures OneBlock(old(ts.blocks), ts.blocks, old(ts.toks))
      ensures ts.level == 0 ==> w.biValid == 0 && ts.lastEobLen == 8
    {
      hide Stands, Streams, Ends, Closed, Spoken, StaticOk, BytesToBits, ToBits, T.Counted, Chains, HashReady,
        Sendable, Delivered, Lawful, LookOk, RawOk, Deflater.Parsed, OneBlock, Whole;
      HeldSize(win.window[..], win.hist, win.off, win.strstart);
      assert win.hist[..Reached()] == win.hist;
      FlushBlockOnly(flush == Z_FINISH);
      if availOut == 0 {
        return if flush == Z_FINISH then FinishStarted else NeedMore;
      }
      state := if flush == Z_FINISH then FinishDone else BlockDone;
    }

    // flush_pending between two blocks.
    method FlushBetween(ghost p: Start)
      requires Flushed() && w.pendingOut == 0 && Since(p)
      modifies this`availOut, this`output, w`pendingOut, w`pending, w`taken
      ensures Flushed() && Tidy() && Since(p) && w.Valid() && output == w.taken && old(output) <= output
      ensures w.Sent() == old(w.Sent()) && w.SentBytes() == old(w.SentBytes())
    {
      hide Stands, Streams, BytesToBits, ToBits, StaticOk, Chains, HashReady, T.TreeState.Valid, Written, Spoken,
        Holds, Window.Summed, Lawful, LookOk, RawOk, Deflater.Parsed;
      ghost var out1, room1 := output, availOut;
      FlushPending();
      DeliveredMore(p.output, p.room, out1, room1, output, availOut);
    }

    // What a compression function promises when it returns. Input() is everything given so far.
    ghost predicate Returned(state: BlockState, flush: nat, cov: nat)
      reads this, win, win.window, win.prev, win.head, ts, ts.heap, w, w.pendingBuf
    {
      Tidy() &&
      match state
      case NeedMore => Running(cov) && (availOut == 0 || (flush == Z_NO_FLUSH && nextIn == [] && win.lookahead < MIN_LOOKAHEAD))
      case BlockDone => Flushed() && Drained() && availOut > 0 && flush != Z_FINISH && flush != Z_NO_FLUSH
      case FinishStarted => Ended() && nextIn == [] && availOut == 0 && flush == Z_FINISH
      case FinishDone => Ended() && nextIn == [] && Drained() && availOut > 0 && flush == Z_FINISH
    }

    // How much input has not been passed yet.
    ghost function Left(): nat
      reads this`nextIn, win`lookahead
    {
      win.lookahead + |nextIn|
    }

    ghost function Input(): Bytes
      reads this`nextIn, win`hist
    {
      win.hist + nextIn
    }

    // How things stood when the compression function was called.
    ghost predicate Since(p: Start)
      reads this`nextIn, this`availOut, this`output, win`hist, win`adler, ts`intact
    {
      && Input() == p.input && p.hist <= win.hist && Delivered(p.output, p.room, output, availOut)
      && win.Summed() && (ts.intact ==> p.intact)
    }

    ghost function Now(): Start
      reads this`nextIn, this`availOut, this`output, win`hist, ts`intact
    {
      Start(Input(), win.hist, output, availOut, ts.intact)
    }

    lemma SinceNow()
      requires win.Summed()
      ensures Since(Now())
    {
      hide Window.Summed;
      DeliveredNothing(output, availOut);
    }

    lemma SinceSummed(p: Start)
      requires Since(p)
      ensures win.Summed()
    {
      hide Window.Summed;
    }

    lemma SinceTrans(p: Start, q: Start)
      requires Since(q) && q.input == p.input && p.hist <= q.hist && (q.intact ==> p.intact) && Delivered(p.output, p.room, q.output, q.room)
      ensures Since(p)
    {
      hide Window.Summed;
      DeliveredMore(p.output, p.room, q.output, q.room, output, availOut);
    }

    method FillSince(ghost cov: nat, ghost p: Start)
      requires Steady(cov) && Since(p) && win.lookahead < MIN_LOOKAHEAD
      modifies this`nextIn, win, win.window, win.prev, win.head
      ensures Steady(cov) && Since(p) && win.strstart + MIN_LOOKAHEAD <= win.window.Length
      ensures nextIn == [] || win.lookahead >= MIN_LOOKAHEAD
      ensures Reached() == old(Reached()) && BlockAt() == old(BlockAt()) && win.off + win.matchStart == old(win.off + win.matchStart)
      ensures old(win.strstart) >= 1 ==> win.strstart >= 1
      ensures old(win.blockStart >= 0 && win.strstart - win.blockStart < win.g.wSize - MIN_LOOKAHEAD) ==> win.blockStart >= 0
      ensures old(win.hist) <= win.hist && win.lookahead + |nextIn| == old(win.lookahead + |nextIn|)
    {
      hide Deflater.Steady, Delivered, Window.Summed;
      Fill(cov);
    }

    lemma Geometric()
      requires Base() && win.Valid()
      ensures win.window.Length <= 65536 && win.strstart + win.lookahead <= win.window.Length
    {
      hide Chains, HashReady, StaticOk;
    }

    // The first lines of the loops of deflate_fast and deflate_slow.
    method LookAhead(flush: nat, ghost cov: nat, ghost p: Start) returns (ahead: Ahead)
      requires Running(cov) && Since(p)
      modifies this`nextIn, win, win.window, win.prev, win.head
      ensures Running(cov) && Since(p) && win.strstart + MIN_LOOKAHEAD <= win.window.Length <= 65536
      ensures Reached() == old(Reached()) && win.off + win.matchStart == old(win.off + win.matchStart)
      ensures old(win.strstart) >= 1 ==> win.strstart >= 1
      ensures old(win.hist) <= win.hist && win.lookahead + |nextIn| == old(win.lookahead + |nextIn|)
      ensures match ahead
              case Go => win.lookahead >= 1
              case Starved => flush == Z_NO_FLUSH && nextIn == [] && win.lookahead < MIN_LOOKAHEAD
              case AtEnd => win.lookahead == 0 && nextIn == [] && flush != Z_NO_FLUSH
    {
      hide Deflater.Since, Deflater.Core, Stands, Streams, Spoken, StaticOk, BytesToBits, ToBits, T.Counted, Chains,
        HashReady, Sendable, Holds, T.TreeState.Valid, Lawful, LookOk, RawOk, Deflater.Parsed;
      ahead := Go;
      CoreBase(cov);
      Geometric();
      if win.lookahead < MIN_LOOKAHEAD {
        FillSince(cov, p);
        CoreBase(cov);
        Geometric();
        if win.lookahead < MIN_LOOKAHEAD && flush == Z_NO_FLUSH {
          ahead := Starved;
        } else if win.lookahead == 0 {
          ahead := AtEnd;
        }
      }
    }

    // FLUSH_BLOCK(s, 0) when the token buffer is full, up to the test of avail_out.
    method FlushFull(ghost p: Start)
      requires Steady(Reached()) && Drained() && Since(p) && availOut > 0 && ts.level > 0
      requires win.strstart < 65536
      modifies this`availOut, this`output, win`blockStart, ts, ts.heap, w, w.pendingBuf
      ensures Running(Reached()) && Since(p) && ts.toks == [] && Tidy() && ts.Told() == old(ts.Told())
      ensures OneBlock(old(ts.blocks), ts.blocks, old(ts.toks))
    {
      hide Stands, Streams, Ends, Closed, Spoken, StaticOk, BytesToBits, ToBits, T.Counted, Chains, HashReady,
        Sendable, Delivered, Holds, GeometryOk, T.TreeState.Valid, Lawful, LookOk, RawOk, Deflater.Parsed, OneBlock,
        Whole;
      ghost var out1, room1 := output, availOut;
      FlushBlockOnly(false);
      DeliveredMore(p.output, p.room, out1, room1, output, availOut);
    }

    method Finish(flush: nat, ghost p: Start) returns (state: BlockState)
      requires Steady(Reached()) && Drained() && Since(p) && availOut > 0 && win.lookahead == 0 && nextIn == []
      requires (ts.level == 0 ==> Storable()) && win.strstart < 65536 && flush != Z_NO_FLUSH
      modifies this`availOut, this`output, win`blockStart, ts, ts.heap, w, w.pendingBuf
      ensures Returned(state, flush, Reached()) && Since(p) && OneBlock(old(ts.blocks), ts.blocks, old(ts.toks))
      ensures state == NeedMore ==> flush != Z_FINISH
      ensures flush != Z_FINISH ==> win.blockStart == win.strstart && win.lookahead == 0 && (ts.level == 0 ==> w.biValid == 0 && ts.lastEobLen == 8)
    {
      hide Stands, Streams, Ends, Closed, Spoken, StaticOk, BytesToBits, ToBits, T.Counted, Chains, HashReady,
        Sendable, Delivered, Holds, GeometryOk, T.TreeState.Valid, Lawful, LookOk, RawOk, Deflater.Parsed, OneBlock,
        Whole;
      ghost var out1, room1 := output, availOut;
      state := LastBlock(flush);
      DeliveredMore(p.output, p.room, out1, room1, output, availOut);
    }

    method DeflateFast(flush: nat) returns (state: BlockState)
      requires Running(Reached()) && Drained() && Greedy() && 0 < ts.level <= 3 && availOut > 0 && win.Summed()
      modifies this`matchLength, this`notes, this`nextIn, this`availOut, this`output, win, win.window, win.prev, win.head, ts, ts.heap, w, w.pendingBuf
      ensures Returned(state, flush, Reached()) && Greedy() && Since(old(Now()))
      ensures Whole(old(ts.blocks), ts.blocks, ts.litBufsize, flush != Z_NO_FLUSH && Left() == 0)
      ensures state == NeedMore && flush == Z_FINISH ==> Left() < old(Left())
    {
      hide Deflater.Core, Deflater.Own, Deflater.Since, Window.Entered, Window.Valid, Whole, OneBlock, LookOk,
        T.TreeState.Told, StaticOk, Deflater.Ended, Deflater.Settings;
      var hashHead: nat := 0;
      ghost var p := Now();
      SinceNow();
      WholeNow(ts.blocks, ts.litBufsize);
      while true
        invariant Running(Reached()) && Drained() && Greedy() && availOut > 0 && Since(p) && Left() <= old(Left())
        invariant Whole(old(ts.blocks), ts.blocks, ts.litBufsize, false)
        decreases Left()
      {
        var ahead := LookAhead(flush, Reached(), p);
        if ahead == Starved {
          WholeEnd(old(ts.blocks), ts.blocks, ts.litBufsize, flush != Z_NO_FLUSH && Left() == 0);
          return NeedMore;
        }
        if ahead == AtEnd {
          break;
        }
        var bflush;
        ghost var look;
        hashHead, bflush, look := FastStep(hashHead);
        if bflush {
          ghost var blocks, toks := ts.blocks, ts.toks;
          FlushFull(p);
          WholeMore(old(ts.blocks), blocks, ts.blocks, toks, ts.litBufsize);
          if availOut == 0 {
            WholeEnd(old(ts.blocks), ts.blocks, ts.litBufsize, flush != Z_NO_FLUSH && Left() == 0);
            return NeedMore;
          }
        }
      }
      ghost var blocks, toks := ts.blocks, ts.toks;
      state := Finish(flush, p);
      WholeLast(old(ts.blocks), blocks, ts.blocks, toks, ts.litBufsize);
    }

    // ----- lazy matching -------------------------------------------------------------------------------------

    // The tokens lag one byte behind while a match or a literal is held back.
    ghost function Behind(): nat
      reads this`matchAvailable, win`off, win`strstart
    {
      if matchAvailable && Reached() >= 1 then Reached() - 1 else Reached()
    }

    // Between two rounds of deflate_slow: a match found at the previous position is held back.
    ghost predicate Lazy()
      reads this`matchLength, this`matchAvailable, this`mark, this`held, win`hist, win`off, win`strstart, win`matchStart
    {
      && (matchAvailable ==> win.strstart >= 1) && 1 <= matchLength <= MAX_MATCH
      && (matchLength >= MIN_MATCH ==> matchAvailable && Fit(win.g, Reach(), mark.from, win.hist, win.off + win.matchStart, Reached() - 1, matchLength))
      && (matchAvailable ==> Holding(Settings(), win.hist, held, Reached() - 1, matchLength, win.off + win.matchStart))
    }

    // Within a round: the match held back ...
    ghost predicate HeldBack()
      reads this`prevLength, this`prevMatch, this`matchAvailable, this`mark, this`held, win`hist, win`off, win`strstart
    {
      && (matchAvailable ==> win.strstart >= 1) && 1 <= prevLength <= MAX_MATCH
      && (prevLength >= MIN_MATCH ==> matchAvailable && Fit(win.g, Reach(), mark.from, win.hist, win.off + prevMatch, Reached() - 1, prevLength))
      && (matchAvailable ==> Holding(Settings(), win.hist, held, Reached() - 1, prevLength, win.off + prevMatch))
    }

    // ... and the one just found.
    ghost predicate Found()
      reads this`matchLength, this`prevLength, this`mark, win`hist, win`off, win`strstart, win`matchStart
    {
      && 1 <= matchLength <= MAX_MATCH
      && (matchLength >= MIN_MATCH && matchLength > prevLength ==>
            Fit(win.g, Reach(), mark.from, win.hist, win.off + win.matchStart, Reached(), matchLength))
    }

    twostate lemma NowHeldBack()
      requires old(Lazy()) && prevLength == old(matchLength) && prevMatch == old(win.matchStart) && matchLength == MIN_MATCH - 1
      requires unchanged(this`matchAvailable, this`mark, this`held, win`hist, win`off, win`strstart)
      ensures HeldBack() && Found() && 1 <= prevLength <= MAX_MATCH
    {
      hide Fit, Holding;
    }

    // The search of deflate_slow, if a string is near enough and the match held back is not long enough already; short
    // matches that do not pay are given up.
    method LazySearch(hashHead: nat) returns (ghost look: Look)
      requires Base() && ts.level > 3 && win.Entered() && win.Live() && Own() && win.strstart + MIN_LOOKAHEAD <= win.window.Length
      requires Headed(hashHead) && 1 <= prevLength <= MAX_MATCH && 1 <= win.lookahead && matchLength == MIN_MATCH - 1
      modifies this`matchLength, win`matchStart
      ensures Found() && Looked(look) && LookOk(Settings(), win.hist, look) && look.len == matchLength
    {
      hide StaticOk, Fit, LookOk, RawOk, ConfigFor, Window.Entered, Window.Live, Deflater.Own, Deflater.Headed, Deflater.Looked, Allowance;
      if hashHead != 0 && prevLength < cfg.maxLazy && hashHead <= win.strstart && win.strstart - hashHead <= MaxDist(win.g) {
        look := Search(hashHead);
        ghost var raw := matchLength;
        if matchLength <= 5 &&
           (ts.strategy == Z_FILTERED || (matchLength == MIN_MATCH && (win.strstart - win.matchStart) % 0x1_0000_0000 > TOO_FAR)) {
          matchLength := MIN_MATCH - 1;
        }
        look := Reduced(look, raw);
      } else {
        look := NotSearched(hashHead);
      }
    }

    // What lazy matching makes of what is found.
    lemma Reduced(look: Look, raw: nat) returns (look': Look)
      requires Looked(look) && look.raw == raw && ts.level > 3 && matchLength == Kept(Settings(), Reached(), raw, win.off + win.matchStart)
      ensures look' == look.(len := matchLength) && Looked(look') && LookOk(Settings(), win.hist, look')
    {
      hide RawOk, Kept;
      look' := look.(len := matchLength);
      RawLength(Settings(), win.hist, look, matchLength);
    }

    // Nothing is looked for if no string is near enough or the match held back is long enough.
    lemma NotSearched(hashHead: nat) returns (look: Look)
      requires Base() && win.Live() && win.lookahead >= 1 && matchLength == MIN_MATCH - 1 && ts.level > 3
      requires Headed(hashHead)
      requires hashHead == 0 || prevLength >= cfg.maxLazy || hashHead > win.strstart || win.strstart - hashHead > MaxDist(win.g)
      ensures Looked(look) && LookOk(Settings(), win.hist, look) && look.len == matchLength
    {
      hide StaticOk, Holds, HashAt, Link, LookOk, Deflater.Looked;
      look := NothingLooked(hashHead);
      look := Reduced(look, MIN_MATCH - 1);
    }

    // Enters the string at strstart and looks for a match, unless the one held back is long enough.
    method FindSlow(hashHead0: nat) returns (hashHead: nat, ghost look: Look)
      requires Steady(Behind()) && Lazy() && ts.level > 3 && win.lookahead >= 1 && win.strstart + MIN_LOOKAHEAD <= win.window.Length
      modifies this`matchLength, this`prevLength, this`prevMatch, win`insH, win`ins, win`matchStart, win.head, win.prev
      ensures Mid(Behind()) && HeldBack() && Found() && |win.hist| == Reached() + win.lookahead
      ensures prevLength == old(matchLength) && prevMatch == old(win.matchStart)
      ensures win.ins == old(win.ins) + if win.lookahead >= MIN_MATCH then {Reached()} else {}
      ensures Looked(look) && LookOk(Settings(), win.hist, look) && look.len == matchLength
      ensures look.at == Reached() && look.seen == |win.hist| && look.low == win.off && look.prev == prevLength && look.dict == win.ins
    {
      hide Deflater.Core, Deflater.Own, Window.Entered, Window.Live, Window.Valid, Deflater.Lazy, Deflater.HeldBack, Deflater.Found, LookOk, RawOk, Allowance, Deflater.Settings, StaticOk, Deflater.Headed;
      CoreBase(Behind());
      hashHead := Enter(hashHead0, Behind());
      prevLength, prevMatch := matchLength, win.matchStart;
      matchLength := MIN_MATCH - 1;
      NowHeldBack();
      look := LazySearch(hashHead);
    }

    // The previous match was at least as good: it is sent.
    method SlowMatch(hashHead0: nat, ghost look: Look) returns (hashHead: nat, bflush: bool)
      requires Looked(look) && LookOk(Settings(), win.hist, look) && look.len <= prevLength
      requires ts.level > 3 && Mid(Behind()) && Drained() && HeldBack() && prevLength >= MIN_MATCH && |ts.toks| + 1 < ts.litBufsize && win.lookahead >= 1
      requires win.strstart + MIN_LOOKAHEAD <= win.window.Length
      modifies this`matchLength, this`prevLength, this`matchAvailable, this`notes, win`insH, win`ins, win`strstart, win`lookahead, win.head, win.prev,
        ts`ltree, ts`dtree, ts`lastLit, ts`toks, ts`matches, w.pendingBuf
      ensures Steady(Behind()) && Lazy() && !matchAvailable && matchLength == 2 && win.lookahead == old(win.lookahead - (prevLength - 1))
      ensures Reached() == old(Reached()) + old(prevLength) - 1 && 0 <= old(prevLength) - MIN_MATCH < 256 && old(win.strstart - 1 - prevMatch) >= 0
      ensures ts.Told() == old(ts.Told()) + [Token(old(win.strstart - 1 - prevMatch), old(prevLength) - MIN_MATCH)]
      ensures win.ins == old(win.ins) + WholeStrings(old(Reached()), Reached(), win.hist)
      ensures win.strstart + 4 <= win.window.Length
      ensures (bflush <==> |ts.toks| == ts.litBufsize - 1) && |ts.toks| < ts.litBufsize
    {
      hide Deflater.Core, Deflater.HeldBack, Window.Entered, Window.Live, Window.Valid, LookOk, T.TreeState.Told, Deflater.Settings, Fit, StaticOk, WholeStrings, NoteOk, Holding, Spoken, T.TreeState.Kept;
      PairFits(look);
      CoreBase(Behind());
      bflush := SendMatch(win.strstart - 1 - prevMatch, prevLength, win.off + prevMatch, Reached() - 1, Compared(held, look));
      hashHead := PassSlow(prevLength, hashHead0, Reached() - 1 + prevLength);
      prevLength := 0;
      matchAvailable := false;
      matchLength := MIN_MATCH - 1;
    }

    // The byte held back is sent as a literal; a full token buffer is flushed before strstart moves on.
    method SlowLiteral(ghost p: Start, ghost look: Look)
      requires Looked(look) && LookOk(Settings(), win.hist, look) && HeldBack() && (prevLength < MIN_MATCH || look.len > prevLength) && ts.level > 3
      requires Mid(Behind()) && matchAvailable && |ts.toks| + 1 < ts.litBufsize && win.lookahead >= 1
      requires Drained() && availOut > 0 && Since(p) && ts.level > 0 && win.strstart < 65536
      modifies this`availOut, this`output, this`notes, win`blockStart, ts, ts.heap, w, w.pendingBuf
      ensures Mid(Reached()) && |ts.toks| + 1 < ts.litBufsize && Since(p) && Tidy() && Whole(old(ts.blocks), ts.blocks, ts.litBufsize, false)
      ensures 1 <= Reached() <= |win.hist| && ts.Told() == old(ts.Told()) + [Token(0, win.hist[Reached() - 1])]
    {
      hide Stands, Streams, Spoken, StaticOk, BytesToBits, ToBits, T.Counted, Chains, HashReady, Sendable, Holds,
        GeometryOk, T.TreeState.Valid, Delivered, Deflater.Core, Lawful, LookOk, RawOk, Deflater.Parsed,
        T.TreeState.Told, Deflater.Sound, Deflater.Secure, T.TreeState.Collected, T.TreeState.Kept, Window.Valid,
        Window.Entered, Window.Live, Window.Dict, Window.Summed, Output.Valid, Output.Sent, Output.Held,
        Deflater.Settings, Deflater.Reach, WholeStrings, Passed, TokenFits, NoteOk, Beats, Allowance, Far, Safe,
        Holding, Deflater.Flushed, Deflater.Ended, T.Flat, Agree, Deflater.HeldBack, Deflater.Looked, OneBlock, Whole;
      WholeNow(ts.blocks, ts.litBufsize);
      CoreBase(Behind());
      Separate(Behind());
      HeldThere();
      ByteAt(win.strstart - 1);
      LiteralFits(look);
      var bflush := SendLiteral(win.strstart - 1, Compared(held, look));
      if bflush {
        ghost var out1, room1, blocks, toks := output, availOut, ts.blocks, ts.toks;
        label Before:
        FlushBlockOnly(false);
        WholeMore(old(ts.blocks), blocks, ts.blocks, toks, ts.litBufsize);
        win.EnteredStill@Before();
        DeliveredMore(p.output, p.room, out1, room1, output, availOut);
      }
    }

    lemma HeldThere()
      requires HeldBack() && matchAvailable
      ensures win.strstart >= 1
    {
    }

    // What is held back may be sent behind a search that finds nothing longer.
    lemma PairFits(look: Look)
      requires Looked(look) && LookOk(Settings(), win.hist, look) && look.len <= prevLength && HeldBack() && prevLength >= MIN_MATCH && ts.level > 3
      ensures matchAvailable && win.strstart >= 1 && prevLength <= MAX_MATCH && Reached() - 1 + prevLength <= |win.hist|
      ensures Fit(win.g, Reach(), mark.from, win.hist, win.off + prevMatch, Reached() - 1, prevLength)
      ensures NoteOk(Settings(), win.hist, Compared(held, look)) && held.at == Reached() - 1 && held.len == prevLength && held.start == win.off + prevMatch
    {
      hide LookOk, RawOk, Fit;
      MatchSizes(win.g, Reach(), mark.from, win.hist, win.off + prevMatch, Reached() - 1, prevLength);
    }

    lemma LiteralFits(look: Look)
      requires Looked(look) && LookOk(Settings(), win.hist, look) && HeldBack() && (prevLength < MIN_MATCH || look.len > prevLength) && ts.level > 3
      requires matchAvailable && 1 <= win.strstart <= win.window.Length && Reached() - 1 < |win.hist| && win.window[win.strstart - 1] == win.hist[Reached() - 1]
      ensures TokenFits(Settings(), win.hist, Token(0, win.window[win.strstart - 1]), Compared(held, look)) && held.at == Reached() - 1
    {
      hide LookOk, RawOk, Fit;
    }

    // The match just found, or the byte at strstart, is held back while strstart moves on.
    method HoldBack(ghost look: Look)
      requires Looked(look) && LookOk(Settings(), win.hist, look) && look.len == matchLength && (prevLength < MIN_MATCH || matchLength > prevLength)
      requires Mid(Reached()) && win.lookahead >= 1 && Found()
      modifies this`matchAvailable, this`held, win`strstart, win`lookahead
      ensures matchAvailable && held == look && Reached() == old(Reached()) + 1 <= |win.hist|
      ensures Steady(Behind()) && Lazy() && win.lookahead == old(win.lookahead) - 1
    {
      hide Stands, Streams, Spoken, StaticOk, BytesToBits, ToBits, T.Counted, Chains, HashReady, Sendable, Holds,
        GeometryOk, T.TreeState.Valid, Delivered, Fit, GoodMatch, Lawful, LookOk, RawOk, Deflater.Parsed,
        Deflater.Core, Window.Entered, Window.Valid, Window.Live, Window.Dict, T.TreeState.Told;
      CoreBase(Reached());
      matchAvailable := true;
      held := look;
      Forward(Reached());
    }

    // The byte held back is sent, if there is one, and what was just found takes its place.
    method GoOn(ghost p: Start, ghost look: Look)
      requires Looked(look) && LookOk(Settings(), win.hist, look) && look.len == matchLength && (prevLength < MIN_MATCH || matchLength > prevLength)
      requires Mid(Behind()) && HeldBack() && Found() && |ts.toks| + 1 < ts.litBufsize && win.lookahead >= 1 && win.strstart < 65536
      requires Drained() && availOut > 0 && Since(p) && ts.level > 3
      modifies this`matchAvailable, this`held, this`availOut, this`output, this`notes, win`strstart, win`lookahead, win`blockStart, ts, ts.heap, w, w.pendingBuf
      ensures Running(Behind()) && Lazy() && Since(p) && Tidy() && matchAvailable && held == look
      ensures Whole(old(ts.blocks), ts.blocks, ts.litBufsize, false)
      ensures Reached() == old(Reached()) + 1 <= |win.hist| && win.lookahead == old(win.lookahead) - 1 && (old(matchAvailable) ==> old(Reached()) >= 1)
      ensures ts.Told() == old(ts.Told()) + if old(matchAvailable) then [Token(0, win.hist[old(Reached()) - 1])] else []
    {
      hide Deflater.Since, Deflater.Core, Window.Entered, Window.Live, Window.Valid, Deflater.Lazy, Deflater.HeldBack,
        Deflater.Found, Deflater.Looked, LookOk, T.TreeState.Told, Deflater.Own, OneBlock, Whole;
      WholeNow(ts.blocks, ts.litBufsize);
      if matchAvailable {
        SlowLiteral(p, look);
      }
      HoldBack(look);
    }

    // One round of deflate_slow behind the search.
    method SlowRound(hashHead0: nat, ghost p: Start) returns (hashHead: nat, ghost look: Look)
      requires Running(Behind()) && Lazy() && Drained() && ts.level > 3 && availOut > 0 && Since(p)
      requires win.lookahead >= 1 && win.strstart + MIN_LOOKAHEAD <= win.window.Length <= 65536
      modifies this`matchLength, this`prevLength, this`prevMatch, this`matchAvailable, this`availOut, this`output, this`notes, this`held,
        win`insH, win`ins, win`strstart, win`lookahead, win`blockStart, win`matchStart, win.prev, win.head, ts, ts.heap, w, w.pendingBuf
      ensures Running(Behind()) && Lazy() && Since(p) && Tidy()
      ensures win.lookahead < old(win.lookahead) && Whole(old(ts.blocks), ts.blocks, ts.litBufsize, false)
      ensures LookOk(Settings(), win.hist, look) && look.at == old(Reached()) && look.seen == |win.hist| && look.low == old(win.off)
      ensures look.prev == old(matchLength) && look.dict == old(win.ins) + if old(win.lookahead) >= MIN_MATCH then {old(Reached())} else {}
      ensures SlowSends(win.hist, look, old(matchAvailable), old(win.strstart - 1 - win.matchStart), old(ts.Told()), ts.Told(), Reached(), win.ins)
      ensures matchAvailable == !PairDue(look) && (matchAvailable ==> held == look)
    {
      hide Deflater.Core, Deflater.Own, Deflater.Since, Window.Entered, Window.Valid, LookOk, T.TreeState.Told,
        Deflater.Lazy, Deflater.HeldBack, Deflater.Found, Deflater.Looked, WholeStrings, Whole, OneBlock,
        Deflater.Settings;
      WholeNow(ts.blocks, ts.litBufsize);
      hashHead, look := FindSlow(hashHead0);
      if prevLength >= MIN_MATCH && matchLength <= prevLength {
        var bflush;
        hashHead, bflush := SlowMatch(hashHead, look);
        if bflush {
          ghost var blocks, toks := ts.blocks, ts.toks;
          FlushFull(p);
          WholeMore(old(ts.blocks), blocks, ts.blocks, toks, ts.litBufsize);
        }
      } else {
        GoOn(p, look);
      }
    }

    // More input changes nothing in what is held back.
    twostate lemma StillLazy()
      requires old(Lazy()) && old(win.hist) <= win.hist && Reached() == old(Reached())
      requires win.off + win.matchStart == old(win.off + win.matchStart) && (old(win.strstart) >= 1 ==> win.strstart >= 1)
      requires unchanged(this`matchLength, this`matchAvailable, this`mark, this`held)
      ensures Lazy()
    {
      hide Fit, Holding;
      ghost var a, b, hist := win.off + win.matchStart, Reached() - 1, old(win.hist);
      if matchAvailable {
        HoldingMore(Settings(), hist, win.hist, held, b, matchLength, a);
      }
      if matchLength >= MIN_MATCH {
        MatchPrefix(win.g, Reach(), mark.from, hist, win.hist, a, b, matchLength);
      }
    }

    lemma NoMatchLeft()
      requires Lazy() && |win.hist| == Reached()
      ensures matchLength < MIN_MATCH
    {
      hide Fit, LookOk;
      if matchLength >= MIN_MATCH {
        MatchSizes(win.g, Reach(), mark.from, win.hist, win.off + win.matchStart, Reached() - 1, matchLength);
      }
    }

    // At the end of the input nothing is held back any more.
    method SendRest()
      requires Running(Behind()) && Drained() && Lazy() && win.lookahead == 0 && ts.level > 3
      modifies this`matchAvailable, this`notes, ts`ltree, ts`dtree, ts`lastLit, ts`toks, ts`matches, w.pendingBuf
      ensures Steady(Reached()) && Lazy() && !matchAvailable
    {
      hide Stands, Streams, Spoken, StaticOk, BytesToBits, ToBits, T.Counted, Chains, HashReady, Sendable, Delivered,
        GeometryOk, Lawful, LookOk, RawOk, Deflater.Parsed;
      HeldSize(win.window[..], win.hist, win.off, win.strstart);
      if matchAvailable {
        WindowByte(win.window[..], win.hist, win.off, win.strstart, win.strstart - 1);
        NoMatchLeft();
        var bflush := SendLiteral(win.strstart - 1, Plain(held));
        matchAvailable := false;
      }
    }

    method DeflateSlow(flush: nat) returns (state: BlockState)
      requires Running(Behind()) && Lazy() && Drained() && ts.level > 3 && availOut > 0 && win.Summed()
      modifies this`matchLength, this`prevLength, this`prevMatch, this`matchAvailable, this`notes, this`held, this`nextIn, this`availOut, this`output, win, win.window, win.prev, win.head, ts, ts.heap, w, w.pendingBuf
      ensures Returned(state, flush, Behind()) && Lazy() && Since(old(Now())) && (state != NeedMore ==> !matchAvailable)
      ensures Whole(old(ts.blocks), ts.blocks, ts.litBufsize, flush != Z_NO_FLUSH && Left() == 0)
      ensures state == NeedMore && flush == Z_FINISH ==> Left() < old(Left())
    {
      hide Deflater.Core, Deflater.Own, Deflater.Since, Window.Entered, Window.Valid, Deflater.Lazy, Whole, OneBlock, LookOk, T.TreeState.Told, StaticOk, Deflater.Ended, Deflater.Settings;
      var hashHead: nat := 0;
      ghost var p := Now();
      SinceNow();
      WholeNow(ts.blocks, ts.litBufsize);
      while true
        invariant Running(Behind()) && Lazy() && Drained() && availOut > 0 && Since(p) && Left() <= old(Left())
        invariant Whole(old(ts.blocks), ts.blocks, ts.litBufsize, false)
        decreases Left()
      {
        label Round:
        var ahead := LookAhead(flush, Behind(), p);
        StillLazy@Round();
        if ahead == Starved {
          WholeEnd(old(ts.blocks), ts.blocks, ts.litBufsize, flush != Z_NO_FLUSH && Left() == 0);
          return NeedMore;
        }
        if ahead == AtEnd {
          break;
        }
        ghost var look;
        ghost var blocks := ts.blocks;
        hashHead, look := SlowRound(hashHead, p);
        WholeJoin(old(ts.blocks), blocks, ts.blocks, ts.litBufsize);
        if availOut == 0 {
          WholeEnd(old(ts.blocks), ts.blocks, ts.litBufsize, flush != Z_NO_FLUSH && Left() == 0);
          return NeedMore;
        }
      }
      SendRest();
      ghost var blocks, toks := ts.blocks, ts.toks;
      state := Finish(flush, p);
      WholeLast(old(ts.blocks), blocks, ts.blocks, toks, ts.litBufsize);
    }

    // ----- stored blocks -------------------------------------------------------------------------------------------

    // As much as a stored block may hold, and as pending_buf has room for behind its header.
    function MaxBlockSize(): (n: int)
      ensures n <= 65535 && n + 5 <= 4 * ts.litBufsize && (n == 65535 || n + 5 == 4 * ts.litBufsize)
    {
      if 65535 > 4 * ts.litBufsize - 5 then 4 * ts.litBufsize - 5 else 65535
    }

    // At level 0 the current block is kept short enough to stay in the window and to fit pending_buf.
    ghost predicate Copying()
      reads this`output, this`mark, this`notes, win, win.window, win.prev, win.head, ts, ts.heap, w, w.pendingBuf
    {
      && Core(Reached()) && win.Dict(win.strstart + win.lookahead, win.strstart) && Own() && ts.level == 0
      && 0 <= win.blockStart && win.strstart - win.blockStart < MaxDist(win.g) && win.strstart - win.blockStart < MaxBlockSize()
      && w.biValid <= 5
    }

    lemma CopyingSteady()
      requires Copying() && win.lookahead < MIN_MATCH
      ensures Steady(Reached()) && Storable()
    {
      hide Stands, Streams, Spoken, StaticOk, Chains, T.TreeState.Valid, HashReady, Lawful, LookOk, RawOk, Deflater.Parsed;
      NoString(win.g, win.insH, win.window[..], win.hist, win.off, win.strstart + win.lookahead, win.strstart);
    }

    // FLUSH_BLOCK_ONLY(s, 0) at level 0.
    method FlushStored(ghost p: Start)
      requires Core(Reached()) && win.Dict(win.strstart + win.lookahead, win.strstart) && Own() && ts.level == 0 && Drained() && Since(p)
      requires Storable() && win.strstart - win.blockStart <= MaxBlockSize()
      modifies this`availOut, this`output, win`blockStart, ts, ts.heap, w, w.pendingBuf
      ensures Copying() && win.blockStart == win.strstart && Since(p) && Tidy()
    {
      hide Stands, Streams, Ends, Closed, Spoken, StaticOk, BytesToBits, ToBits, T.Counted, Chains, HashReady,
        Delivered, Holds, T.TreeState.Valid, Deflater.Core, Lawful, LookOk, RawOk;
      CoreBase(Reached());
      ghost var out1, room1 := output, availOut;
      FlushBlockOnly(false);
      DeliveredMore(p.output, p.room, out1, room1, output, availOut);
    }

    // One round of deflate_stored behind the filling of the window: the block takes all input that has been read, but no
    // more than a stored block may hold, and is written exactly if it is that long or might be left behind by the window.
    method StoredRound(ghost p: Start)
      requires Copying() && Drained() && Since(p) && availOut > 0 && win.lookahead >= 1
      modifies this`availOut, this`output, win`strstart, win`lookahead, win`blockStart, ts, ts.heap, w, w.pendingBuf
      ensures Copying() && Since(p) && Tidy() && win.lookahead < old(win.lookahead)
      ensures Reached() == if old(BlockAt()) + MaxBlockSize() <= |win.hist| then old(BlockAt()) + MaxBlockSize() else |win.hist|
      ensures BlockAt() ==
              if Reached() - old(BlockAt()) >= MaxBlockSize() || Reached() - old(BlockAt()) >= MaxDist(win.g) then Reached() else old(BlockAt())
    {
      hide Stands, Streams, Ends, Closed, Spoken, StaticOk, BytesToBits, ToBits, T.Counted, Chains, HashReady,
        Delivered, Holds, T.TreeState.Valid, Lawful, LookOk, RawOk;
      var maxStart := win.blockStart + MaxBlockSize();
      SilentMore(Reach(), win.hist, mark.from, BlockAt(), Reached(), ts.toks);
      HeldSize(win.window[..], win.hist, win.off, win.strstart + win.lookahead);
      win.TakeStored(maxStart);
      if win.strstart >= maxStart {
        FlushStored(p);
        if availOut == 0 {
          return;
        }
      }
      if win.strstart - win.blockStart >= MaxDist(win.g) {
        FlushStored(p);
      }
    }

    method DeflateStored(flush: nat) returns (state: BlockState)
      requires Copying() && Drained() && availOut > 0 && win.Summed()
      modifies this`nextIn, this`availOut, this`output, win, win.window, win.prev, win.head, ts, ts.heap, w, w.pendingBuf
      ensures Tidy()
      ensures state == NeedMore ==> Copying() && (availOut == 0 || (flush == Z_NO_FLUSH && nextIn == [] && win.lookahead == 0))
      ensures state != NeedMore ==> Returned(state, flush, Reached()) && (state == BlockDone ==> Copying() && w.biValid == 0 && ts.lastEobLen == 8)
      ensures Since(old(Now()))
      ensures state == NeedMore && flush == Z_FINISH ==> Left() < old(Left())
    {
      hide Deflater.Since, Stands, Streams, Ends, Closed, Spoken, StaticOk, BytesToBits, ToBits, T.Counted, Chains,
        HashReady, Delivered, Holds, T.TreeState.Valid, Deflater.Core, Lawful, LookOk, RawOk, Deflater.Parsed;
      ghost var p := Now();
      SinceNow();
      while true
        invariant Copying() && Drained() && availOut > 0 && Since(p) && Left() <= old(Left())
        decreases Left()
      {
        if win.lookahead <= 1 {
          CopyingSteady();
          FillSince(Reached(), p);
          CoreBase(Reached());
          Geometric();
          if win.lookahead == 0 && flush == Z_NO_FLUSH {
            return NeedMore;
          }
          if win.lookahead == 0 {
            break;
          }
        }
        StoredRound(p);
        if availOut == 0 {
          return NeedMore;
        }
      }
      CopyingSteady();
      CoreBase(Reached());
      state := Finish(flush, p);
    }
  }

  // One block has been added, with these tokens.
  ghost predicate OneBlock(blocks: seq<T.Block>, blocks': seq<T.Block>, toks: seq<Token>) {
    blocks <= blocks' && |blocks'| == |blocks| + 1 && blocks'[|blocks|].toks == toks
  }

  // The blocks added end where the token buffer is full, but for the last one if the input has come to an end.
  ghost predicate Whole(blocks: seq<T.Block>, blocks': seq<T.Block>, size: nat, atEnd: bool) {
    && blocks <= blocks'
    && forall i :: |blocks| <= i < |blocks'| - (if atEnd then 1 else 0) ==> |blocks'[i].toks| == size - 1
  }

  lemma WholeNow(blocks: seq<T.Block>, size: nat)
    ensures Whole(blocks, blocks, size, false)
  {
  }

  lemma WholeEnd(blocks: seq<T.Block>, blocks': seq<T.Block>, size: nat, atEnd: bool)
    requires Whole(blocks, blocks', size, false)
    ensures Whole(blocks, blocks', size, atEnd)
  {
  }

  lemma WholeMore(blocks0: seq<T.Block>, blocks: seq<T.Block>, blocks': seq<T.Block>, toks: seq<Token>, size: nat)
    requires Whole(blocks0, blocks, size, false) && OneBlock(blocks, blocks', toks) && |toks| == size - 1
    ensures Whole(blocks0, blocks', size, false)
  {
  }

  lemma WholeLast(blocks0: seq<T.Block>, blocks: seq<T.Block>, blocks': seq<T.Block>, toks: seq<Token>, size: nat)
    requires Whole(blocks0, blocks, size, false) && OneBlock(blocks, blocks', toks)
    ensures Whole(blocks0, blocks', size, true)
  {
  }

  lemma WholeJoin(blocks0: seq<T.Block>, blocks: seq<T.Block>, blocks': seq<T.Block>, size: nat)
    requires Whole(blocks0, blocks, size, false) && Whole(blocks, blocks', size, false)
    ensures Whole(blocks0, blocks', size, false)
  {
  }

  // A round of deflate_fast sends the match just found, or else the byte at strstart, and goes on behind it; the
  // strings of a match are entered only if it is short.
  ghost predicate FastSends(hist: Bytes, maxInsert: nat, look: Look, told: seq<Token>, told': seq<Token>, next: nat, ins: set<nat>) {
    if look.len >= MIN_MATCH then
      && next == look.at + look.len <= |hist| && look.len - MIN_MATCH < 256 && look.at >= look.start
      && told' == told + [Token(look.at - look.start, look.len - MIN_MATCH)]
      && ins == look.dict + if look.len <= maxInsert && |hist| - next >= MIN_MATCH then Passed(look.at, next) else {}
    else
      && next == look.at + 1 <= |hist| && told' == told + [Token(0, hist[look.at])] && ins == look.dict
  }

  // The match held back is at least as good as the one just found.
  predicate PairDue(look: Look) {
    look.prev >= MIN_MATCH && look.len <= look.prev
  }

  // A round of deflate_slow sends the match held back, `dist` bytes back from the byte before strstart, exactly if nothing
  // longer was found, and goes on behind it with all its strings entered; otherwise it sends the byte held back, if there
  // is one, and goes on by one byte.
  ghost predicate SlowSends(hist: Bytes, look: Look, available: bool, dist: int, told: seq<Token>, told': seq<Token>, next: nat, ins: set<nat>) {
    if PairDue(look) then
      && next == look.at - 1 + look.prev <= |hist| && look.prev - MIN_MATCH < 256 && dist >= 0
      && told' == told + [Token(dist, look.prev - MIN_MATCH)] && ins == look.dict + WholeStrings(look.at, next, hist)
    else
      && next == look.at + 1 <= |hist| && (available ==> look.at >= 1)
      && told' == told + (if available then [Token(0, hist[look.at - 1])] else []) && ins == look.dict
  }

  // The search whose result is held back.
  ghost predicate Holding(r: Rules, hist: Bytes, look: Look, at: int, len: nat, start: int) {
    look.at == at && look.len == len && look.start == start && LookOk(r, hist, look) && Beats(look)
  }

  lemma HoldingMore(r: Rules, hist: Bytes, hist': Bytes, look: Look, at: int, len: nat, start: int)
    requires hist <= hist' && Holding(r, hist, look, at, len, start)
    ensures Holding(r, hist', look, at, len, start)
  {
    hide RawOk, Kept;
    RawKept(r, hist, hist'[|hist|..], look);
    assert hist' == hist + hist'[|hist|..];
  }

  lemma MatchSizes(g: Geometry, far: nat, from: nat, hist: Bytes, a: int, b: nat, n: nat)
    requires Fit(g, far, from, hist, a, b, n)
    ensures MIN_MATCH <= n <= MAX_MATCH && b + n <= |hist|
  {
  }

  lemma MatchPrefix(g: Geometry, far: nat, from: nat, hist: Bytes, hist': Bytes, a: int, b: nat, n: nat)
    requires hist <= hist' && Fit(g, far, from, hist, a, b, n)
    ensures Fit(g, far, from, hist', a, b, n)
  {
    hide GoodMatch, Lawful, LookOk, RawOk, Deflater.Parsed;
    MatchKept(g, hist, hist'[|hist|..], a, b, n);
    assert hist' == hist + hist'[|hist|..];
  }

  // The positions that a search follows are in the dictionary.
  lemma Followed(g: Geometry, window: Bytes, hist: Bytes, off: nat, ins: set<nat>, head: seq<nat>, prev: seq<nat>, s: nat, lookahead: nat,
      p: nat, limit: nat, n: nat, a: int)
    requires Searching(g, window, hist, off, ins, head, prev, s, lookahead) && lookahead >= MIN_MATCH
    requires |hist| == off + s + lookahead && Candidate(g, hist, off, ins, s, lookahead, p) && s - p <= MaxDist(g) && limit >= s - MaxDist(g)
    requires |prev| > 0 && a in Chain(prev, p, limit, n)
    ensures off + a in ins
  {
    hide Searching, Candidate, HashAt, Chain;
    SearchBounds(g, window, hist, off, ins, head, prev, s, lookahead);
    ChainDescends(g, window, hist, off, ins, head, prev, s, lookahead, p, limit, n);
    var i :| 0 <= i < |Chain(prev, p, limit, n)| && Chain(prev, p, limit, n)[i] == a;
    assert Within(g, hist, off, ins, s, HashAt(g, hist, off + s), Chain(prev, p, limit, n)[i]);
  }

  lemma InDictionary(g: Geometry, hist: Bytes, off: nat, ins: set<nat>, s: nat, lookahead: nat, p: nat)
    requires |hist| == off + s + lookahead && lookahead >= MIN_MATCH && Candidate(g, hist, off, ins, s, lookahead, p)
    ensures off + p in ins
  {
    hide HashAt;
  }

  lemma StandsMore(intact: bool, sent: BitString, hdr: nat, mark: Mark, hist: Bytes, more: Bytes, at: int)
    requires Stands(intact, sent, hdr, mark, hist, at)
    ensures Stands(intact, sent, hdr, mark, hist + more, at)
  {
    hide Streams;
    assert (hist + more)[..at] == hist[..at] && (hist + more)[mark.from..at] == hist[mark.from..at];
  }

  lemma DeliveredNothing(out: Bytes, room: nat)
    ensures Delivered(out, room, out, room)
  {
  }

  lemma TakenAll(hist0: Bytes, hist: Bytes, nextIn: Bytes, rest: Bytes)
    requires Taken(hist0, hist, nextIn, rest)
    ensures hist + rest == hist0 + nextIn && hist0 <= hist && |rest| <= |nextIn| && hist == hist0 + nextIn[..|nextIn| - |rest|]
  {
  }

  lemma ReadyToSearch(g: Geometry, window: Bytes, hist: Bytes, off: nat, ins: set<nat>, head: seq<nat>, prev: seq<nat>, s: nat, lookahead: nat, p: nat)
    requires |window| == 2 * g.wSize && Holds(window, hist, off, s + lookahead) && s + MIN_LOOKAHEAD <= |window|
    requires Chains(g, hist, off, ins, head, prev, if lookahead >= MIN_MATCH then s + 1 else s) && p != 0 && p <= s
    requires lookahead >= MIN_MATCH ==> off + s + 2 < |hist| && Link(g, hist, off, ins, p, s, HashAt(g, hist, off + s))
    ensures Searching(g, window, hist, off, ins, head, prev, s, lookahead) && Candidate(g, hist, off, ins, s, lookahead, p)
  {
    hide HashAt, Chains;
  }

  lemma HeldSize(window: Bytes, hist: Bytes, off: nat, end: nat)
    requires Holds(window, hist, off, end)
    ensures end <= |window| && |hist| == off + end
  {
  }

  lemma WindowSize(windowBits: nat)
    requires 8 <= windowBits <= 15
    ensures 512 <= Pow2(if windowBits == 8 then 9 else windowBits) <= 32768
    ensures Pow2(if windowBits == 8 then 9 else windowBits) <= 518 <==> windowBits <= 9
  {
    hide Pow2;
    Pow2Values();
    Pow2Monotone(9, if windowBits == 8 then 9 else windowBits);
    Pow2Monotone(if windowBits == 8 then 9 else windowBits, 15);
  }

  lemma LitSize(memLevel: nat)
    requires 1 <= memLevel <= 9
    ensures 128 <= Pow2(memLevel + 6) <= 32768 && Pow2(memLevel + 6) % 2 == 0
  {
    hide Pow2;
    Pow2Values();
    Pow2Monotone(7, memLevel + 6);
    Pow2Monotone(memLevel + 6, 15);
  }
}
