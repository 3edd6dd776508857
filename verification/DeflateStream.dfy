/** deflate.c: `deflate` for raw and zlib streams, over any run of calls with any amount of input and
    room for output. */
module DeflateStream {
  import opened Bits
  import opened HashChains
  import opened Matching
  import opened SlidingWindow
  import opened StaticTables
  import opened BitOutput
  import opened Blocks
  import opened TreeCost
  import opened Deflate
  import opened Overlay
  import opened Parsing
  import OverlayRoom
  import A = Adler32
  import T = Trees

  const Z_OK := 0
  const Z_STREAM_END := 1
  const Z_STREAM_ERROR := -2
  const Z_BUF_ERROR := -5

  datatype Status = Init | Busy | Finishing

  // ----- the wrapper ---------------------------------------------------------------------------------------

  function LevelFlags(level: nat, strategy: nat): (f: nat)
    ensures f <= 3
  {
    if strategy >= Z_HUFFMAN_ONLY || level < 2 then 0 else if level < 6 then 1 else if level == 6 then 2 else 3
  }

  function Header(wBits: nat, level: nat, strategy: nat): (h: nat)
    requires 8 <= wBits <= 15
  {
    var h := (8 + (wBits - 8) * 16) * 256 + LevelFlags(level, strategy) * 64;
    h + 31 - h % 31
  }

  function HeaderBytes(wBits: nat, level: nat, strategy: nat): (b: Bytes)
    requires 8 <= wBits <= 15
  {
    var h := Header(wBits, level, strategy);
    HeaderFields(wBits, level, strategy);
    [h / 256, h % 256]
  }

  // The level field: 0 to 3 for the fastest, fast, the default and the slowest compression.
  predicate LevelSays(field: nat, level: nat, strategy: nat) {
    && (field == 0 <==> strategy >= 2 || level <= 1)
    && (field == 1 <==> strategy <= 1 && 2 <= level <= 5)
    && (field == 2 <==> strategy <= 1 && level == 6)
    && (field == 3 <==> strategy <= 1 && level >= 7)
  }

  // It stands at the top of the second byte. The default settings give the well-known 78 9c.
  lemma HeaderLevel(wBits: nat, level: nat, strategy: nat)
    requires 8 <= wBits <= 15
    ensures LevelSays(HeaderBytes(wBits, level, strategy)[1] / 64, level, strategy)
    ensures HeaderBytes(15, 6, 0) == [0x78, 0x9c]
  {
    hide LevelSays;
    HeaderFields(wBits, level, strategy);
    TopOfByte(Header(wBits, level, strategy));
    assert Header(15, 6, 0) == 0x789c;
  }

  lemma TopOfByte(h: nat)
    ensures h % 256 / 64 == h / 64 % 4
  {
    assert h == 256 * (h / 256) + h % 256;
    assert h / 64 == 4 * (h / 256) + h % 256 / 64;
  }

  // Section 2.2 of RFC 1950: method 8, the window size, no preset dictionary, a level, and a check value that
  // makes the sixteen bits a multiple of 31.
  lemma HeaderFields(wBits: nat, level: nat, strategy: nat)
    requires 8 <= wBits <= 15
    ensures var h := Header(wBits, level, strategy);
            && h < 65536 && h % 31 == 0 && h / 256 % 16 == 8 && h / 256 / 16 == wBits - 8
            && h / 32 % 2 == 0 && LevelSays(h / 64 % 4, level, strategy)
  {
    var c, f := 8 + (wBits - 8) * 16, LevelFlags(level, strategy);
    var h0 := c * 256 + f * 64;
    var k := 31 - h0 % 31;
    var h := h0 + k;
    assert h == c * 256 + (f * 64 + k) && f * 64 + k < 256;
    assert h / 256 == c;
    assert h / 64 == c * 4 + f;
    assert h / 32 == (c * 4 + f) * 2;
    Divides(h0);
  }

  lemma Divides(h: nat)
    ensures (h + 31 - h % 31) % 31 == 0
  {
    assert h + 31 - h % 31 == 31 * (h / 31 + 1);
  }

  function BigEndian(v: nat): Bytes {
    [v / 0x100_0000 % 256, v / 0x1_0000 % 256, v / 0x100 % 256, v % 256]
  }

  // The most significant byte comes first.
  lemma BigEndianValue(v: nat)
    requires v < 0x1_0000_0000
    ensures |BigEndian(v)| == 4
    ensures var p: nat, q: nat, r: nat, s: nat := BigEndian(v)[0], BigEndian(v)[1], BigEndian(v)[2], BigEndian(v)[3];
            v == 0x100_0000 * p + 0x1_0000 * q + 0x100 * r + s
  {
    var b2, b1, b0 := v / 0x100, v / 0x1_0000, v / 0x100_0000;
    QuarterSteps(v);
    assert v == 0x100 * b2 + v % 0x100 && b2 == 0x100 * b1 + b2 % 0x100 && b1 == 0x100 * b0 + b1 % 0x100;
    assert b0 % 0x100 == b0;
  }

  lemma QuarterSteps(v: nat)
    ensures v / 0x1_0000 == v / 0x100 / 0x100 && v / 0x100_0000 == v / 0x1_0000 / 0x100
  {
  }

  // The whole stream: header, deflated data, and the checksum of the data in network byte order.
  ghost predicate Complete(bytes: Bytes, header: Bytes, hist: Bytes) {
    if header == [] then Finished(BytesToBits(bytes), hist)
    else
      && |bytes| >= |header| + 4 && header <= bytes
      && Finished(BytesToBits(bytes[|header|..|bytes| - 4]), hist)
      && bytes[|bytes| - 4..] == BigEndian(A.Checksum(hist))
  }

  // From byte `at` on, up to a trailer, the bytes are deflated data that read back as `part`.
  ghost predicate Alone(bytes: Bytes, at: nat, trailer: nat, part: Bytes) {
    at + trailer <= |bytes| && Finished(BytesToBits(bytes[at..|bytes| - trailer]), part)
  }

  // Unless tokens were lost the stream is complete, and what follows the last full flush is so on its own.
  ghost predicate Through(intact: bool, bytes: Bytes, header: Bytes, mark: Mark, hist: Bytes) {
    intact ==>
      && Complete(bytes, header, hist)
      && mark.from <= |hist| && Alone(bytes, mark.cut, if header == [] then 0 else 4, hist[mark.from..])
  }

  // The settings with which no token is ever lost.
  predicate NeverLost(level: nat, strategy: nat, windowBits: nat) {
    level == 0 || strategy == Z_HUFFMAN_ONLY || (strategy == T.Z_FIXED && windowBits <= 9)
  }

  // All of hist can be read back from the bytes given so far.
  ghost predicate Readable(bytes: Bytes, hdr: nat, hist: Bytes) {
    exists n: nat :: 8 * hdr <= n <= 8 * |bytes| && Written(BytesToBits(bytes)[8 * hdr..n], hist)
  }

  lemma ReadableUpTo(bytes: Bytes, hdr: nat, n: nat, s: BitString, hist: Bytes)
    requires 8 * hdr <= n == |s| <= 8 * |bytes| && s <= BytesToBits(bytes) && Written(s[8 * hdr..], hist)
    ensures Readable(bytes, hdr, hist)
  {
    hide Written, BytesToBits;
    assert BytesToBits(bytes)[8 * hdr..n] == s[8 * hdr..];
  }

  lemma {:induction false} BitsFrom(bytes: Bytes, k: nat)
    requires k <= |bytes|
    ensures BytesToBits(bytes)[8 * k..] == BytesToBits(bytes[k..])
  {
    hide BytesToBits;
    BytesToBitsConcat(bytes[..k], bytes[k..]);
    assert bytes[..k] + bytes[k..] == bytes;
  }

  lemma NoBitsYet(intact: bool, s: BitString, at: nat)
    requires |s| == 8 * at
    ensures Streams(intact, s, at, [])
  {
    hide Written;
    assert s[8 * at..] == [];
    NothingWritten();
  }

  // A new part begins where the stream is, in the input and in the output.
  lemma NewPart(intact: bool, s: BitString, hdr: nat, cut: nat, hist: Bytes)
    requires Streams(intact, s, hdr, hist) && |s| == 8 * cut
    ensures Stands(intact, s, hdr, Mark(cut, |hist|), hist, |hist|)
  {
    hide Streams;
    NoBitsYet(intact, s, cut);
    assert hist[..|hist|] == hist && hist[|hist|..] == [];
  }

  // An empty stored block adds nothing to what the stream stands for.
  lemma EmptyStoredReads(intact: bool, s: BitString, at: nat, out: Bytes)
    requires Streams(intact, s, at, out)
    ensures Streams(intact, s + StoredBits(PadLen(|s| + 3), [], false), at, out)
  {
    hide Written, PadLen, StoredBits;
    if intact {
      assert out + [] == out;
      var tr, h := T.Tree([], [], 0), T.Header([], [], [], 0);
      T.FormReads(T.StoredForm, s, at, h, [], tr, tr, tr, 0, 0, T.Some([]), false, out, out);
      T.GoesOnReading((s + StoredBits(PadLen(|s| + 3), [], false))[8 * at..], out);
    }
  }

  // Nor do empty static blocks.
  lemma EmptyStaticRead(intact: bool, s: BitString, n: nat, at: nat, out: Bytes)
    requires Streams(intact, s, at, out)
    ensures Streams(intact, s + T.EmptyBits(n), at, out)
  {
    hide Written, T.EmptyBits;
    if intact {
      T.EmptiesRead(s, n, at, out);
    }
  }

  // So what stands for all input does so behind them.
  lemma MarksStand(intact: bool, s: BitString, partial: bool, n: nat, hdr: nat, mark: Mark, hist: Bytes)
    requires Stands(intact, s, hdr, mark, hist, |hist|)
    ensures Stands(intact, s + if partial then T.EmptyBits(n) else StoredBits(PadLen(|s| + 3), [], false), hdr, mark, hist, |hist|)
  {
    hide Streams, StoredBits, T.EmptyBits, PadLen;
    if partial {
      EmptyStaticRead(intact, s, n, hdr, hist[..|hist|]);
      EmptyStaticRead(intact, s, n, mark.cut, hist[mark.from..|hist|]);
    } else {
      EmptyStoredReads(intact, s, hdr, hist[..|hist|]);
      EmptyStoredReads(intact, s, mark.cut, hist[mark.from..|hist|]);
    }
  }

  lemma StandsParts(intact: bool, s: BitString, hdr: nat, mark: Mark, hist: Bytes)
    requires Stands(intact, s, hdr, mark, hist, |hist|)
    ensures 8 * hdr <= |s| && 8 * mark.cut <= |s| && mark.from <= |hist| && Streams(intact, s, hdr, hist)
    ensures intact ==> Written(s[8 * hdr..], hist) && Written(s[8 * mark.cut..], hist[mark.from..])
  {
    hide Written;
    assert hist[..|hist|] == hist && hist[mark.from..|hist|] == hist[mark.from..];
  }

  // A call that can do nothing: there is no room; or nothing is pending, no input comes and the flush value asks
  // for no more than the last one; or input comes after the end.
  ghost predicate Useless(pending: nat, room: nat, input: Bytes, flush: int, oldFlush: int, status: Status) {
    || room == 0
    || (pending == 0 && input == [] && flush <= oldFlush && flush != Z_FINISH)
    || (status == Finishing && input != [] && pending < room)
  }

  // How far a call with Z_FINISH has got: the stage, then the input left, then the bytes pending.
  ghost predicate Closer(rank: nat, left: nat, pending: nat, rank': nat, left': nat, pending': nat) {
    rank' < rank || (rank' == rank && (left' < left || (left' == left && pending' < pending)))
  }

  // From byte `at` on the bytes read back as `part`, all of them unless the flush was a partial one.
  ghost predicate Given(bytes: Bytes, at: nat, part: Bytes, flush: int) {
    && Readable(bytes, at, part)
    && (flush != Z_PARTIAL_FLUSH ==> 8 * at <= 8 * |bytes| && Written(BytesToBits(bytes)[8 * at..], part))
  }

  // Bits up to the n-th that have been given, and all of them unless the flush was a partial one.
  lemma GivenFrom(bytes: Bytes, sent: BitString, n: nat, at: nat, part: Bytes, flush: int)
    requires 8 * at <= n <= |sent| && n <= 8 * |bytes| && sent[..n] <= BytesToBits(bytes) && Written(sent[..n][8 * at..], part)
    requires flush != Z_PARTIAL_FLUSH ==> BytesToBits(bytes) == sent && 8 * at <= |sent| && Written(sent[8 * at..], part)
    ensures Given(bytes, at, part, flush)
  {
    hide Written, BytesToBits, Readable;
    ReadableUpTo(bytes, at, n, sent[..n], part);
  }

  class Compressor {
    const s: Deflater
    const wBits: nat
    var status: Status
    var lastFlush: int
    var wrap: int

    // ----- between two calls -----------------------------------------------------------------------------

    ghost function HeaderDue(): Bytes {
      if s.hdr == 2 && 8 <= wBits <= 15 then HeaderBytes(wBits, s.ts.level, s.ts.strategy) else []
    }

    // The compression function of the level can be called, again.
    ghost predicate Resumable()
      reads s, s.win, s.win.window, s.win.prev, s.win.head, s.ts, s.ts.heap, s.w, s.w.pendingBuf
    {
      if s.ts.level == 0 then s.Copying()
      else if s.ts.level <= 3 then s.Running(s.Reached()) && s.Greedy()
      else s.Running(s.Behind()) && s.Lazy()
    }

    // Nothing has happened yet.
    ghost predicate Blank()
      reads s, s.win, s.win.window, s.win.prev, s.win.head, s.ts, s.ts.heap, s.w, s.w.pendingBuf
    {
      && s.Base() && s.win.Valid() && s.ts.Valid() && s.w.Valid() && s.output == s.w.taken
      && s.mark == Mark(s.hdr, 0) && s.win.ins == {} && s.ts.intact
      && s.win.hist == [] && s.win.off == s.win.strstart == s.win.lookahead == s.win.blockStart == 0
      && s.ts.toks == [] == s.ts.Told() && s.notes == [] && s.w.biValid == 0 && s.Greedy() && s.Lazy() && !s.matchAvailable
    }

    // The trailer has been written.
    ghost predicate Trailed()
      reads s, s.win, s.ts`intact, s.ts`toks, s.ts`blocks, s.w, s.w.pendingBuf
    {
      && s.Base() && s.Parsed(|s.win.hist|) && s.w.Valid() && s.output == s.w.taken && HeaderDue() != [] && (s.Secure() ==> s.ts.intact)
      && Through(s.ts.intact, s.w.SentBytes(), HeaderDue(), s.mark, s.win.hist)
    }

    ghost predicate Legal()
      reads this`wrap, s, s.win, s.w
    {
      && 8 <= wBits <= 15 && s.win.g.wSize == Pow2(wBits) && -1 <= wrap <= 1 && s.win.Summed() && s.win.wrapped == (wrap != 0) && s.hdr == (if wrap == 0 then 0 else 2)
      && (s.w.pending == 0 ==> s.w.pendingOut == 0)
    }

    ghost predicate Valid()
      reads this`status, this`wrap, s, s.win, s.win.window, s.win.prev, s.win.head, s.ts, s.ts.heap, s.w, s.w.pendingBuf
    {
      && Legal() && s.w.Valid()
      && match status
         case Init => wrap == 1 && Blank() && s.Drained() && s.w.taken == []
         case Busy => wrap >= 0 && Resumable() && HeaderDue() <= s.w.SentBytes()
         case Finishing => s.win.lookahead == 0 && if wrap >= 0 then s.Ended() && HeaderDue() <= s.w.SentBytes() else Trailed()
    }

    // Everything put before is still there, in front.
    ghost predicate Grown(bytes: Bytes)
      requires s.w.Valid()
      reads s.w, s.w.pendingBuf
    {
      bytes <= s.w.SentBytes()
    }

    // The last full flush is where the stream and the input are now.
    ghost predicate AtMark()
      reads s`mark, s.win`hist, s.w, s.w.pendingBuf
    {
      s.w.Valid() && s.mark == Mark(|s.w.SentBytes()|, |s.win.hist|)
    }

    ghost function Rank(): nat
      reads this`status, this`wrap
    {
      match status
      case Init => 3
      case Busy => 2
      case Finishing => if wrap > 0 then 1 else 0
    }

    lemma Starts()
      requires Blank() && |s.w.Sent()| == 8 * s.hdr
      ensures Resumable()
    {
      hide StaticOk, Chains, HashReady, T.TreeState.Valid, BytesToBits, ToBits, Written, Stands, Streams, Spoken;
      NoBitsYet(s.ts.intact, s.w.Sent(), s.hdr);
      NewPart(s.ts.intact, s.w.Sent(), s.hdr, s.hdr, s.win.hist);
      NothingSpoken(s.ts.level, s.Reach(), s.win.hist, 0, 0);
      NothingOverlaid(s.w.pendingBuf[..], s.ts.litBufsize);
      NothingTold(s.Settings(), []);
      s.StillValid();
    }

    constructor (level: nat, windowBits: nat, memLevel: nat, strategy: nat, wrap: nat)
      requires level <= 9 && 8 <= windowBits <= 15 && 1 <= memLevel <= 9 && strategy <= 4 && wrap <= 1
      ensures Valid() && s.output == [] == s.win.hist && lastFlush == 0 && s.hdr == 2 * wrap && 8 <= wBits <= 15
      ensures status == if wrap == 1 then Init else Busy
      ensures s.mark == Mark(s.hdr, 0) && (s.Secure() <==> NeverLost(level, strategy, windowBits))
      ensures s.ts.level == level && s.ts.strategy == strategy
      ensures wBits == (if windowBits == 8 then 9 else windowBits) && s.win.g.wSize == Pow2(wBits)
      ensures fresh(s) && fresh(s.win) && fresh(s.win.window) && fresh(s.win.prev) && fresh(s.win.head)
      ensures fresh(s.ts) && fresh(s.ts.heap) && fresh(s.w) && fresh(s.w.pendingBuf)
    {
      hide Deflater.Base, Window.Valid, Window.Summed, T.TreeState.Valid, Output.Valid, Written, BytesToBits, ToBits;
      s := new Deflater(level, windowBits, memLevel, strategy, wrap);
      wBits := if windowBits == 8 then 9 else windowBits;
      status := if wrap > 0 then Init else Busy;
      lastFlush := Z_NO_FLUSH;
      this.wrap := wrap;
      new;
      if wrap == 0 {
        Starts();
      }
    }

    // The zlib header.
    method WriteHeader(ghost p: Start)
      requires Valid() && status == Init && s.Since(p)
      modifies this`status, s.w`pending, s.w.pendingBuf
      ensures Valid() && s.w.Valid() && status == Busy && s.Since(p) && s.w.pending == 2
      ensures s.w.SentBytes() == HeaderBytes(wBits, s.ts.level, s.ts.strategy) && LevelSays(s.w.SentBytes()[1] / 64, s.ts.level, s.ts.strategy)
      ensures Grown(old(s.w.SentBytes()))
    {
      hide Deflater.Base, Window.Valid, Window.Summed, T.TreeState.Valid, Written, BytesToBits, ToBits, Deflater.Since,
        Deflater.Running, Deflater.Copying, HeaderBytes, LevelSays, Output.SentBytes;
      RoomForHeader();
      NothingSent();
      status := Busy;
      PutHeader();
      s.w.SentLength();
      HeaderLevel(wBits, s.ts.level, s.ts.strategy);
      Starts();
    }

    lemma NothingSent()
      requires s.w.Valid() && s.Drained() && s.w.taken == []
      ensures s.w.SentBytes() == []
    {
    }

    method PutHeader()
      requires 8 <= wBits <= 15 && s.w.Valid() && s.Drained() && s.w.pendingBuf.Length >= 2 && s.w.SentBytes() == []
      modifies s.w`pending, s.w.pendingBuf
      ensures s.w.Valid() && s.w.pending == 2 && s.w.SentBytes() == HeaderBytes(wBits, s.ts.level, s.ts.strategy)
    {
      hide Header;
      var header := Header(wBits, s.ts.level, s.ts.strategy);
      HeaderFields(wBits, s.ts.level, s.ts.strategy);
      s.w.PutByte(header / 256);
      s.w.PutByte(header % 256);
    }

    lemma RoomForHeader()
      requires s.Base()
      ensures s.w.pendingBuf.Length >= 512 && s.ts.w == s.w && StaticOk(s.ts.t) && s.win.window != s.w.pendingBuf
    {
      hide StaticOk;
    }

    // ----- one call --------------------------------------------------------------------------------------

    // Nothing is held back when a block has just been finished.
    ghost predicate NothingHeld()
      reads s, s.win, s.ts, s.w
    {
      if s.ts.level == 0 then s.w.biValid <= 5 else if s.ts.level <= 3 then s.Greedy() else s.Lazy() && !s.matchAvailable
    }

    lemma Resumes()
      requires s.Flushed() && NothingHeld()
      ensures Resumable()
    {
      hide StaticOk, Chains, HashReady, T.TreeState.Valid, BytesToBits, ToBits, Written, Stands, Streams, Spoken,
        Deflater.Greedy, Deflater.Lazy;
      s.StillValid();
    }

    lemma ResumableSound()
      requires Resumable()
      ensures s.w.Valid() && s.output == s.w.taken
    {
      hide StaticOk, Chains, HashReady, T.TreeState.Valid, Stands, Streams, Spoken, Holds, Output.Valid;
    }

    lemma FlushedSound()
      requires s.Flushed()
      ensures s.w.Valid() && s.output == s.w.taken
    {
      hide StaticOk, Chains, HashReady, T.TreeState.Valid, Stands, Streams, Spoken, Holds, Output.Valid;
    }

    lemma EndedSound()
      requires s.Ended()
      ensures s.w.Valid() && s.output == s.w.taken && s.w.pendingBuf.Length >= 512 && (s.Secure() ==> s.ts.intact) && s.Parsed(|s.win.hist|) && s.Base()
    {
      hide StaticOk, T.TreeState.Valid, Ends, Closed, Holds, Output.Valid, Deflater.Parsed;
    }

    // The compression function of the level.
    method Compress(flush: nat, ghost p: Start) returns (state: BlockState)
      requires Resumable() && s.Drained() && s.availOut > 0 && s.Since(p)
      modifies s, s.win, s.win.window, s.win.prev, s.win.head, s.ts, s.ts.heap, s.w, s.w.pendingBuf
      ensures s.Since(p) && s.Tidy() && s.w.Valid() && s.output == s.w.taken && old(s.output) <= s.output && s.mark == old(s.mark)
      ensures match state
              case NeedMore => Resumable() && (s.availOut == 0 || (flush == Z_NO_FLUSH && s.nextIn == [] && s.win.lookahead < MIN_LOOKAHEAD))
              case BlockDone => s.Flushed() && NothingHeld() && s.Drained() && s.availOut > 0 && flush != Z_FINISH && flush != Z_NO_FLUSH
                                && (s.ts.level == 0 ==> s.w.biValid == 0 && s.ts.lastEobLen == 8)
              case FinishStarted => s.Ended() && s.nextIn == [] && s.availOut == 0 && flush == Z_FINISH
              case FinishDone => s.Ended() && s.nextIn == [] && s.Drained() && s.availOut > 0 && flush == Z_FINISH
      ensures state == NeedMore && flush == Z_FINISH ==> s.Left() < old(s.Left())
      ensures s.ts.level > 0 ==> Whole(old(s.ts.blocks), s.ts.blocks, s.ts.litBufsize, flush != Z_NO_FLUSH && s.Left() == 0)
    {
      hide Whole, Deflater.Base, Deflater.Running, Deflater.Copying, Deflater.Greedy, Deflater.Lazy, Deflater.Flushed,
        Deflater.Ended;
      ghost var q := s.Now();
      s.SinceSummed(p);
      if s.ts.level == 0 {
        state := s.DeflateStored(flush);
      } else if s.ts.level <= 3 {
        state := s.DeflateFast(flush);
      } else {
        state := s.DeflateSlow(flush);
      }
      s.SinceTrans(p, q);
      match state {
        case NeedMore => ResumableSound();
        case BlockDone => FlushedSound();
        case _ => EndedSound();
      }
    }

    // All input so far is in the stream, in whole blocks, and the bits up to the last of them have left bi_buf.
    ghost predicate AllIn(flush: nat)
      reads s, s.win, s.win.window, s.win.prev, s.win.head, s.ts, s.ts.heap, s.w, s.w.pendingBuf
    {
      && s.Flushed() && NothingHeld() && (flush != Z_PARTIAL_FLUSH ==> s.w.biValid == 0)
      && exists n: nat :: n <= |s.w.Sent()| - s.w.biValid && Stands(s.ts.intact, s.w.Sent()[..n], s.hdr, s.mark, s.win.hist, |s.win.hist|)
    }

    lemma FlushedAll()
      requires s.Flushed()
      ensures s.BlockAt() == |s.win.hist| && Stands(s.ts.intact, s.w.Sent(), s.hdr, s.mark, s.win.hist, |s.win.hist|)
      ensures StaticOk(s.ts.t) && s.ts.w == s.w && s.w.pendingBuf.Length >= 512 && s.win.window != s.w.pendingBuf
    {
      hide StaticOk, Chains, HashReady, T.TreeState.Valid, BytesToBits, ToBits, Stands, Streams, Spoken;
    }

    lemma MarkedAll(flush: nat, sent: BitString)
      requires s.Flushed() && NothingHeld() && (flush != Z_PARTIAL_FLUSH ==> s.w.biValid == 0) && s.w.Valid()
      requires sent <= s.w.Sent() && Stands(s.ts.intact, sent, s.hdr, s.mark, s.win.hist, |s.win.hist|) && |sent| + s.w.biValid <= |s.w.Sent()|
      ensures AllIn(flush)
    {
      hide Stands, Streams, Output.Sent, Deflater.Flushed;
      assert s.w.Sent()[..|sent|] == sent;
    }

    // One or two empty static blocks, or an empty stored block.
    method PutMark(flush: nat) returns (ghost blocks: nat)
      requires StaticOk(s.ts.t) && s.ts.w == s.w && s.w.Valid() && s.Drained() && s.w.pendingBuf.Length >= 512
      requires s.ts.level == 0 ==> s.ts.lastEobLen == 8 && s.w.biValid == 0
      modifies s.ts`lastEobLen, s.w`pending, s.w`biBuf, s.w`biValid, s.w.pendingBuf
      ensures s.w.Valid() && s.w.pendingOut == 0
      ensures s.w.Sent() == old(s.w.Sent()) + if flush == Z_PARTIAL_FLUSH then T.EmptyBits(blocks) else StoredBits(PadLen(|old(s.w.Sent())| + 3), [], false)
      ensures if flush == Z_PARTIAL_FLUSH then s.w.biValid < 8 && (s.ts.level == 0 ==> s.w.biValid <= 5) else s.w.biValid == 0
      ensures |s.w.Sent()| >= |old(s.w.Sent())| + s.w.biValid
    {
      hide StaticOk, BytesToBits, ToBits, PadLen, StoredBits, T.EmptyBits;
      s.w.SentLength();
      blocks := 0;
      if flush == Z_PARTIAL_FLUSH {
        blocks := s.ts.Align();
      } else {
        s.ts.StoredBlock([], false);
      }
      s.w.SentLength();
    }

    // The empty block behind a flush.
    method MarkFlush(flush: nat)
      requires s.Flushed() && NothingHeld() && s.Drained() && 1 <= flush <= 3
      requires s.ts.level == 0 ==> s.w.biValid == 0 && s.ts.lastEobLen == 8
      modifies s.ts`lastEobLen, s.w`pending, s.w`biBuf, s.w`biValid, s.w.pendingBuf
      ensures AllIn(flush) && s.w.pendingOut == 0
    {
      hide StaticOk, Chains, HashReady, T.Counted, Sendable, BytesToBits, ToBits, Written, Spoken, Holds, PadLen,
        StoredBits, AllIn, Stands, Streams, Output.Sent, Overlaid, OverlayRoom.Safe, T.TreeState.Kept, Lawful,
        T.TreeState.Told, Deflater.Lazy, Deflater.Greedy, Deflater.Own;
      FlushedAll();
      ghost var sent := s.w.Sent();
      s.w.SentLength();
      ghost var blocks := PutMark(flush);
      NothingOverlaid(s.w.pendingBuf[..], s.ts.litBufsize);
      MarksStand(s.ts.intact, sent, flush == Z_PARTIAL_FLUSH, blocks, s.hdr, s.mark, s.win.hist);
      s.w.SentLength();
      MarkedAll(flush, sent);
    }

    // The application can read back all input from what it has been given, unless tokens were lost; and all input since
    // the last full flush from what it has been given since.
    ghost predicate Handed(flush: int)
      reads s`output, s`mark, s.win`hist, s.ts`intact
    {
      s.ts.intact ==>
        && Given(s.output, s.hdr, s.win.hist, flush)
        && s.mark.from <= |s.win.hist| && Given(s.output, s.mark.cut, s.win.hist[s.mark.from..], flush)
    }

    lemma AllHanded(flush: nat)
      requires AllIn(flush) && s.Drained() && s.w.Valid() && s.output == s.w.taken
      ensures Handed(flush)
    {
      hide Stands, Streams, BytesToBits, ToBits, Deflater.Flushed, Written, Readable, Given;
      FlushedAll();
      assert s.w.taken + s.w.Contents() == s.w.taken;
      s.w.SentLength();
      var n: nat :| n <= |s.w.Sent()| - s.w.biValid && Stands(s.ts.intact, s.w.Sent()[..n], s.hdr, s.mark, s.win.hist, |s.win.hist|);
      StandsParts(s.ts.intact, s.w.Sent()[..n], s.hdr, s.mark, s.win.hist);
      StandsParts(s.ts.intact, s.w.Sent(), s.hdr, s.mark, s.win.hist);
      if s.ts.intact {
        NoBits(s.w.biBuf);
        assert flush != Z_PARTIAL_FLUSH ==> s.w.Sent() == BytesToBits(s.output);
        GivenFrom(s.output, s.w.Sent(), n, s.hdr, s.win.hist, flush);
        GivenFrom(s.output, s.w.Sent(), n, s.mark.cut, s.win.hist[s.mark.from..], flush);
      }
    }

    lemma AllFlushed(flush: nat)
      requires AllIn(flush)
      ensures s.Flushed() && NothingHeld()
    {
      hide Deflater.Flushed, Output.Sent;
    }

    // The dictionary is cleared behind the empty block of a full flush, so no later match reaches back: a new part of
    // the stream begins, which stands on its own.
    method ForgetHistory(flush: nat)
      requires AllIn(flush) && flush != Z_PARTIAL_FLUSH
      modifies s`mark, s.win`ins, s.win.head
      ensures AllIn(flush) && s.w.Valid() && AtMark()
    {
      hide Stands, Streams, Deflater.Core, Window.Valid, BytesToBits, ToBits, Written, Output.Sent, T.TreeState.Valid;
      FlushedSound();
      s.Separate(s.Reached());
      FlushedAll();
      StandsParts(s.ts.intact, s.w.Sent(), s.hdr, s.mark, s.win.hist);
      s.w.SentLength();
      NewPart(s.ts.intact, s.w.Sent(), s.hdr, |s.w.SentBytes()|, s.win.hist);
      ghost var sent := s.w.Sent();
      s.win.ClearHash();
      s.mark := Mark(|s.w.SentBytes()|, |s.win.hist|);
      assert s.w.Sent() == sent == sent[..|sent|];
      s.Restarted(s.Reached());
    }

    // flush_pending where all input is in.
    method FlushMark(flush: nat, ghost p: Start)
      requires AllIn(flush) && s.w.pendingOut == 0 && s.Since(p)
      modifies s`availOut, s`output, s.w`pendingOut, s.w`pending, s.w`taken
      ensures AllIn(flush) && s.Tidy() && s.Since(p) && s.w.Valid() && s.output == s.w.taken && old(s.output) <= s.output
      ensures old(AtMark()) ==> AtMark()
    {
      hide Stands, Streams, Output.Sent, Deflater.Flushed, Deflater.Since;
      AllFlushed(flush);
      s.FlushBetween(p);
    }

    lemma FlushKinds()
      ensures Z_FULL_FLUSH != Z_PARTIAL_FLUSH
    {
    }

    lemma RoomLeft()
      requires s.Tidy() && s.availOut > 0
      ensures s.Drained()
    {
    }

    // What deflate does behind a finished block.
    method EndBlock(flush: nat, ghost p: Start)
      requires s.Flushed() && NothingHeld() && s.Drained() && 1 <= flush <= 3 && s.Since(p)
      requires s.ts.level == 0 ==> s.w.biValid == 0 && s.ts.lastEobLen == 8
      modifies s`availOut, s`output, s`mark, s.win`ins, s.win.head, s.ts`lastEobLen, s.w, s.w.pendingBuf
      ensures s.w.Valid() && if flush == Z_FULL_FLUSH then AtMark() else s.mark == old(s.mark)
      ensures Resumable() && s.Since(p) && s.Tidy() && s.w.Valid() && s.output == s.w.taken && old(s.output) <= s.output
      ensures s.availOut > 0 ==> Handed(flush)
    {
      hide *;
      FlushKinds();
      MarkFlush(flush);
      AllFlushed(flush);
      if flush == Z_FULL_FLUSH {
        ForgetHistory(flush);
      }
      FlushMark(flush, p);
      if s.availOut > 0 {
        RoomLeft();
        AllHanded(flush);
      }
      AllFlushed(flush);
      Resumes();
    }

    lemma GivenFirst()
      requires s.w.Valid() && s.output == s.w.taken
      ensures s.output <= s.w.SentBytes() && (s.Drained() ==> s.output == s.w.SentBytes())
    {
    }

    // Starts a new block or continues the current one; the result says that the call ends here.
    method Proceed(flush: nat, ghost p: Start) returns (stop: bool)
      requires Valid() && status == Busy && s.Drained() && s.availOut > 0 && s.Since(p) && flush <= 4
      modifies this`status, s, s.win, s.win.window, s.win.prev, s.win.head, s.ts, s.ts.heap, s.w, s.w.pendingBuf
      ensures Valid() && s.w.Valid() && s.Since(p) && status != Init && Grown(old(s.w.SentBytes()))
      ensures s.mark == old(s.mark) || (flush == Z_FULL_FLUSH && AtMark())
      ensures !stop && flush == Z_FULL_FLUSH ==> AtMark()
      ensures stop ==> s.availOut == 0 || (flush == Z_NO_FLUSH && s.nextIn == [] && s.win.lookahead < MIN_LOOKAHEAD)
      ensures !stop ==> s.availOut > 0 && s.Drained() && s.nextIn == [] && flush != Z_NO_FLUSH && s.win.lookahead == 0
      ensures !stop ==> if flush == Z_FINISH then status == Finishing else Handed(flush) && status == Busy
      ensures if status == Busy then flush == Z_FINISH ==> s.Left() < old(s.Left()) else flush == Z_FINISH && s.nextIn == []
    {
      hide Deflater.Since, Handed, Deflater.Flushed, Deflater.Ended, Resumable, NothingHeld, Blank, Trailed,
        Output.Valid, Window.Summed, Deflater.Now, Legal, Compressor.Valid, Compressor.HeaderDue, AtMark;
      InBusy();
      Legally();
      ResumableSound();
      GivenFirst();
      var state := Compress(flush, p);
      if state == FinishStarted || state == FinishDone {
        EndedAhead();
        status := Finishing;
      } else if state == BlockDone {
        FlushedAhead();
        EndBlock(flush, p);
      }
      s.SinceSummed(p);
      GivenFirst();
      stop := state == NeedMore || state == FinishStarted || s.availOut == 0;
      StillLegal();
      Again();
    }

    // In mid-stream.
    ghost predicate Going()
      reads this`status, this`wrap, s, s.win, s.win.window, s.win.prev, s.win.head, s.ts, s.ts.heap, s.w, s.w.pendingBuf
    {
      && wrap >= 0 && s.w.Valid() && HeaderDue() <= s.w.SentBytes()
      && status != Init && if status == Busy then Resumable() else s.Ended()
    }

    lemma InBusy()
      requires Valid() && (status == Busy || (status == Finishing && wrap >= 0))
      ensures Legal() && Going() && s.w.Valid() && wrap >= 0 && (status == Busy ==> Resumable()) && (status == Finishing ==> s.Ended())
    {
      hide Legal, Resumable, Deflater.Ended, Output.Valid, Compressor.HeaderDue;
    }

    lemma Again()
      requires Legal() && Going()
      ensures Valid()
    {
      hide Legal, Resumable, Output.Valid, Compressor.HeaderDue;
    }

    lemma Legally()
      requires Legal()
      ensures 8 <= wBits <= 15 && s.win.g.wSize == Pow2(wBits) && -1 <= wrap <= 1 && s.win.Summed() && s.win.wrapped == (wrap != 0) && s.hdr == (if wrap == 0 then 0 else 2)
    {
    }

    lemma StillLegal()
      requires 8 <= wBits <= 15 && s.win.g.wSize == Pow2(wBits) && -1 <= wrap <= 1 && s.win.Summed() && s.win.wrapped == (wrap != 0) && s.hdr == (if wrap == 0 then 0 else 2)
      requires s.Tidy()
      ensures Legal()
    {
    }

    lemma EndedAhead()
      requires s.Ended()
      ensures s.win.lookahead == 0
    {
    }

    lemma FlushedAhead()
      requires s.Flushed()
      ensures s.nextIn == [] && s.win.lookahead == 0
    {
    }

    // ----- the trailer -------------------------------------------------------------------------------------

    lemma Finishes()
      requires s.Ended() && s.Drained()
      ensures s.hdr <= |s.output| && s.mark.from <= |s.win.hist|
      ensures s.ts.intact ==>
                Finished(BytesToBits(s.output[s.hdr..]), s.win.hist) && Alone(s.output, s.mark.cut, 0, s.win.hist[s.mark.from..])
    {
      hide StaticOk, T.TreeState.Valid, Holds, BytesToBits, ToBits, Finished;
      NoBits(s.w.biBuf);
      s.w.SentLength();
      assert s.w.taken + s.w.Contents() == s.output;
      assert s.w.Sent() == BytesToBits(s.output);
      BitsFrom(s.output, s.hdr);
      BitsFrom(s.output, s.mark.cut);
      assert s.output[s.mark.cut..|s.output| - 0] == s.output[s.mark.cut..];
    }

    // putShortMSB.
    method PutShortMSB(b: nat)
      requires s.w.Valid() && s.w.pendingOut == 0 && s.w.pending + 2 <= s.w.pendingBuf.Length
      modifies s.w`pending, s.w.pendingBuf
      ensures s.w.Valid() && s.w.pending == old(s.w.pending) + 2
      ensures s.w.SentBytes() == old(s.w.SentBytes()) + [b / 256 % 256, b % 256]
    {
      s.w.PutByte(b / 256 % 256);
      s.w.PutByte(b % 256);
    }

    method PutChecksum()
      requires s.w.Valid() && s.w.pendingOut == 0 && s.w.pending + 4 <= s.w.pendingBuf.Length
      modifies s.w`pending, s.w.pendingBuf
      ensures s.w.Valid() && s.w.pending == old(s.w.pending) + 4
      ensures s.w.SentBytes() == old(s.w.SentBytes()) + BigEndian(s.win.adler)
    {
      hide Output.Valid;
      PutShortMSB(s.win.adler / 65536);
      PutShortMSB(s.win.adler % 65536);
      BigEndianIs(s.win.adler);
    }

    lemma BigEndianIs(v: nat)
      ensures [v / 65536 / 256 % 256, v / 65536 % 256] + [v % 65536 / 256 % 256, v % 65536 % 256] == BigEndian(v)
    {
      var a, b := v / 65536, v % 65536;
      var c, d, e, f := a / 256, a % 256, b / 256, b % 256;
      assert v == 65536 * a + b && a == 256 * c + d && b == 256 * e + f;
      Quarters(c, d, e, f);
      assert c % 256 == a / 256 % 256;
    }

    lemma Quarters(c: nat, d: nat, e: nat, f: nat)
      requires d < 256 && e < 256 && f < 256
      ensures var v := 65536 * (256 * c + d) + (256 * e + f);
              v / 0x100_0000 == c && v / 0x1_0000 % 256 == d && v / 0x100 % 256 == e && v % 256 == f
    {
      var v := 65536 * (256 * c + d) + (256 * e + f);
      assert v == 0x100_0000 * c + (65536 * d + 256 * e + f);
      assert v == 0x1_0000 * (256 * c + d) + (256 * e + f);
      assert v == 256 * (256 * (256 * c + d) + e) + f;
    }

    lemma Completes(intact: bool, given: Bytes, header: Bytes, mark: Mark, hist: Bytes)
      requires header != [] && header <= given && mark.from <= |hist|
      requires intact ==> Finished(BytesToBits(given[|header|..]), hist) && Alone(given, mark.cut, 0, hist[mark.from..])
      ensures Through(intact, given + BigEndian(A.Checksum(hist)), header, mark, hist)
    {
      hide Finished, BytesToBits, A.Checksum;
      var bytes := given + BigEndian(A.Checksum(hist));
      assert bytes[|header|..|bytes| - 4] == given[|header|..];
      if intact {
        assert bytes[mark.cut..|bytes| - 4] == given[mark.cut..] == given[mark.cut..|given| - 0];
      }
    }

    lemma HeaderThere()
      requires 8 <= wBits <= 15 && s.hdr == 2
      ensures |HeaderDue()| == 2
    {
      hide Header;
    }

    // The trailer, which is written only once.
    method WriteTrailer(ghost p: Start) returns (ret: int)
      requires Valid() && status == Finishing && wrap == 1 && s.Drained() && s.Since(p)
      modifies this`wrap, s`availOut, s`output, s.w`pendingOut, s.w`pending, s.w`taken, s.w.pendingBuf
      ensures Valid() && s.w.Valid() && wrap == -1 && s.Since(p) && Grown(old(s.w.SentBytes()))
      ensures if ret == Z_STREAM_END then Through(s.ts.intact, s.output, HeaderDue(), s.mark, s.win.hist) else ret == Z_OK && s.availOut == 0
    {
      hide Complete, Through, Finished, BytesToBits, ToBits, Deflater.Ended, A.Checksum, Compressor.HeaderDue,
        BigEndian, Output.Sent, Deflater.Parsed, Deflater.Base;
      EndedSound();
      Finishes();
      GivenFirst();
      ghost var given := s.output;
      PutChecksum();
      HeaderThere();
      assert s.w.SentBytes() == given + BigEndian(A.Checksum(s.win.hist));
      Completes(s.ts.intact, given, HeaderDue(), s.mark, s.win.hist);
      ghost var room := s.availOut;
      s.FlushPending();
      DeliveredMore(p.output, p.room, given, room, s.output, s.availOut);
      GivenFirst();
      wrap := -wrap;
      ret := if s.w.pending != 0 then Z_OK else Z_STREAM_END;
    }

    // flush_pending keeps the state as it is, whatever it is.
    method FlushFirst(ghost p: Start)
      requires Valid() && status != Init && s.Since(p)
      modifies s`availOut, s`output, s.w`pendingOut, s.w`pending, s.w`taken
      ensures Valid() && s.Since(p) && s.Tidy() && s.w.SentBytes() == old(s.w.SentBytes())
      ensures s.w.Valid() && s.output == s.w.taken && old(s.output) <= s.output
      ensures s.w.pending == (if old(s.w.pending) < old(s.availOut) then 0 else old(s.w.pending) - old(s.availOut))
      ensures s.availOut == 0 <==> old(s.w.pending) >= old(s.availOut)
    {
      hide Stands, Streams, BytesToBits, ToBits, StaticOk, Chains, HashReady, T.TreeState.Valid, Written, Spoken,
        Holds, Window.Summed, Ends, Closed, Complete, Through, Compressor.HeaderDue, Deflater.MaxBlockSize,
        Deflater.Base, Deflater.Parsed, Deflater.Lazy, Deflater.Greedy, Deflater.Own, T.TreeState.Told;
      ghost var out1, room1 := s.output, s.availOut;
      s.FlushPending();
      DeliveredMore(p.output, p.room, out1, room1, s.output, s.availOut);
    }

    // How a call ends: with room left over everything has been used, and a flush has reached its goal.
    ghost predicate Verdict(ret: int, flush: int)
      reads s`nextIn, s`availOut, s`output, s`mark, s.win`hist, s.win`lookahead, s.ts`intact
    {
      && (ret == Z_OK && s.availOut > 0 ==>
            && s.nextIn == [] && flush != Z_FINISH
            && if flush == Z_NO_FLUSH then s.win.lookahead < MIN_LOOKAHEAD else s.win.lookahead == 0 && Handed(flush))
      && (ret == Z_STREAM_END ==> flush == Z_FINISH && s.nextIn == [] && Through(s.ts.intact, s.output, HeaderDue(), s.mark, s.win.hist))
      && (ret == Z_OK || ret == Z_STREAM_END || ret == Z_BUF_ERROR)
    }

    lemma AtEnd()
      requires Valid() && status == Finishing && s.Drained() && wrap <= 0
      ensures Through(s.ts.intact, s.output, HeaderDue(), s.mark, s.win.hist)
    {
      hide Finished, BytesToBits, ToBits, A.Checksum, Header, Ends, Closed, StaticOk, T.TreeState.Valid, Deflater.Ended;
      Facts();
      GivenFirst();
      if wrap == 0 {
        Finishes();
        assert s.output[0..] == s.output;
      }
    }

    // With safe settings no token is ever lost.
    lemma NothingLost()
      requires Valid() && s.Secure()
      ensures s.ts.intact
    {
      hide StaticOk, Chains, HashReady, T.TreeState.Valid, Stands, Ends, Spoken, Holds, Output.Valid, Through,
        Window.Summed, Deflater.Secure, Compressor.HeaderDue;
    }

    // How far the tokens sent so far reach in the input.
    ghost function Spent(): nat
      reads this`status, s`matchAvailable, s.win`hist, s.win`off, s.win`strstart
    {
      if status == Finishing then |s.win.hist| else if s.ts.level > 3 then s.Behind() else s.Reached()
    }

    // At any time, each token so far is the one that the search at its place calls for, and they leave nothing out.
    lemma TokensLawful()
      requires Valid() && s.ts.level > 0
      ensures Lawful(s.Settings(), s.win.hist, Spent(), s.ts.Told(), s.notes)
      ensures s.Settings() == Rules(s.win.g, ConfigFor(s.ts.level), s.ts.strategy, s.ts.level > 3)
    {
      hide StaticOk, Chains, HashReady, T.TreeState.Valid, Stands, Ends, Spoken, Holds, Output.Valid, Through,
        Window.Summed, Deflater.Secure, Compressor.HeaderDue, Lawful, T.TreeState.Told, ConfigFor;
      if status == Init {
        NothingTold(s.Settings(), []);
      }
    }

    // At levels 1 to 3 a byte is sent as a literal only if no string offered to the search there has three bytes in common.
    lemma GreedyRun(i: nat, a: nat)
      requires Valid() && 1 <= s.ts.level <= 3 && i < |s.ts.Told()| && i < |s.notes|
      requires s.ts.Told()[i].dist == 0 && Offered(s.Settings(), s.notes[i].look, a)
      ensures s.notes[i].look.at == Span(s.ts.Told()[..i]) && Shared(s.win.hist, s.notes[i].look, a) < MIN_MATCH
    {
      hide Compressor.Valid, Lawful, Offered, Shared, Span, ConfigFor, T.TreeState.Told;
      TokensLawful();
      GreedyLaw(s.Settings(), s.win.hist, Spent(), s.ts.Told(), s.notes, i, a);
    }

    // From level 4 on, unless the input is filtered, a byte where a string offered has four bytes in common is sent as a
    // literal only if the search there came to a match, and the search at the next byte to a longer one.
    lemma LazyRun(i: nat, a: nat)
      requires Valid() && s.ts.level >= 4 && s.ts.strategy != Z_FILTERED && i < |s.ts.Told()| && i < |s.notes|
      requires s.ts.Told()[i].dist == 0 && Offered(s.Settings(), s.notes[i].look, a) && Shared(s.win.hist, s.notes[i].look, a) >= 4
      ensures s.notes[i].look.at == Span(s.ts.Told()[..i]) && s.notes[i].Compared?
      ensures var look, next := s.notes[i].look, s.notes[i].next;
              && (look.len >= ConfigFor(s.ts.level).niceLength || look.len >= Shared(s.win.hist, look, a))
              && next.len > look.len && GoodMatch(s.win.g, s.win.hist, next.start, look.at + 1, next.len)
    {
      hide Compressor.Valid, Lawful, Offered, Shared, Span, ConfigFor, GoodMatch, T.TreeState.Told;
      TokensLawful();
      LazyLaw(s.Settings(), s.win.hist, Spent(), s.ts.Told(), s.notes, i, a);
    }

    // No pair reaches back further than the window whose size the header announces.
    lemma WithinWindow(i: nat)
      requires Valid() && s.ts.level > 0 && i < |s.ts.Told()| && s.ts.Told()[i].dist != 0
      ensures s.ts.Told()[i].dist <= Pow2(wBits) - MIN_LOOKAHEAD
    {
      hide Lawful, Resumable, Blank, Trailed, Deflater.Ended, Offered, Shared, Span, ConfigFor, T.TreeState.Told, Pow2, Window.Summed, Output.Valid,
        Compressor.HeaderDue;
      TokensLawful();
      PairLaw(s.Settings(), s.win.hist, Spent(), s.ts.Told(), s.notes, i);
    }

    lemma Facts()
      requires Valid()
      ensures s.w.Valid() && (s.w.pending == 0 ==> s.w.pendingOut == 0) && -1 <= wrap <= 1 && (status == Finishing ==> s.win.lookahead == 0)
      ensures s.output == s.w.taken && (status == Busy ==> wrap >= 0)
    {
      hide Output.Valid, Complete, Through, Window.Summed, Compressor.HeaderDue, Deflater.Copying, Deflater.Running,
        Deflater.Ended;
      if status == Busy {
        ResumableSound();
      } else if status == Finishing && wrap >= 0 {
        EndedSound();
      }
    }

    // The trailer, if it is due.
    method Conclude(ghost p: Start) returns (ret: int)
      requires Valid() && status == Finishing && s.Drained() && s.Since(p)
      modifies this`wrap, s`availOut, s`output, s.w`pendingOut, s.w`pending, s.w`taken, s.w.pendingBuf
      ensures Valid() && s.w.Valid() && s.Since(p) && Grown(old(s.w.SentBytes()))
      ensures if ret == Z_STREAM_END then Through(s.ts.intact, s.output, HeaderDue(), s.mark, s.win.hist)
              else ret == Z_OK && s.availOut == 0 && old(wrap) == 1 && wrap == -1
    {
      hide Compressor.Valid, Deflater.Since, Through, Compressor.HeaderDue;
      Facts();
      if wrap <= 0 {
        AtEnd();
        return Z_STREAM_END;
      }
      ret := WriteTrailer(p);
    }

    // deflate behind the header.
    method Run(flush: nat, oldFlush: int, ghost p: Start) returns (ret: int)
      requires Valid() && status != Init && s.Since(p) && s.availOut > 0 && flush <= 4 && (status == Finishing ==> flush == Z_FINISH) && lastFlush == flush
      modifies this, s, s.win, s.win.window, s.win.prev, s.win.head, s.ts, s.ts.heap, s.w, s.w.pendingBuf
      ensures Valid() && s.Since(p) && Grown(old(s.w.SentBytes())) && Verdict(ret, flush)
      ensures ret == Z_BUF_ERROR ==> s.nextIn == old(s.nextIn)
      ensures s.w.Valid() && (s.mark == old(s.mark) || (flush == Z_FULL_FLUSH && AtMark()))
      ensures ret == Z_OK && s.availOut > 0 && flush == Z_FULL_FLUSH ==> s.Drained() && AtMark()
      ensures ret == Z_BUF_ERROR <==> Useless(old(s.w.pending), old(s.availOut), old(s.nextIn), flush, oldFlush, old(status))
      ensures status != Init && (status == Finishing ==> flush == Z_FINISH && (s.nextIn == [] || old(status) == Finishing))
      ensures ret == Z_OK && flush == Z_FINISH ==>
                Closer(old(Rank()), old(s.Left()), old(s.w.pending), Rank(), s.Left(), s.w.pending)
      ensures lastFlush == flush || (lastFlush == -1 && ret == Z_OK && s.availOut == 0)
      ensures ret == Z_OK && s.availOut == 0 && (flush != Z_FINISH || status == Busy) ==> lastFlush == -1
    {
      hide Deflater.Since, Handed, Deflater.Flushed, Deflater.Ended, Resumable, NothingHeld, Complete, Through,
        Compressor.Valid, Output.Valid, Compressor.HeaderDue, Window.Summed, AtMark;
      Facts();
      if s.w.pending != 0 {
        FlushFirst(p);
        if s.availOut == 0 {
          lastFlush := -1;
          return Z_OK;
        }
        Facts();
      } else if s.nextIn == [] && flush <= oldFlush && flush != Z_FINISH {
        return Z_BUF_ERROR;
      }
      if status == Finishing && s.nextIn != [] {
        return Z_BUF_ERROR;
      }
      if s.nextIn != [] || s.win.lookahead != 0 || (flush != Z_NO_FLUSH && status != Finishing) {
        var stop := Proceed(flush, p);
        if stop {
          if s.availOut == 0 {
            lastFlush := -1;
          }
          return Z_OK;
        }
      }
      if flush != Z_FINISH {
        return Z_OK;
      }
      ret := Conclude(p);
    }

    // The header, if it is due, and the rest.
    method Proper(flush: nat, oldFlush: int, ghost p: Start) returns (ret: int)
      requires Valid() && s.w.Valid() && s.Since(p) && s.availOut > 0 && flush <= 4 && (status == Finishing ==> flush == Z_FINISH) && lastFlush == flush
      modifies this, s, s.win, s.win.window, s.win.prev, s.win.head, s.ts, s.ts.heap, s.w, s.w.pendingBuf
      ensures Valid() && s.w.Valid() && s.Since(p) && Grown(old(s.w.SentBytes())) && Verdict(ret, flush)
      ensures s.mark == old(s.mark) || (flush == Z_FULL_FLUSH && AtMark())
      ensures ret == Z_OK && s.availOut > 0 && flush == Z_FULL_FLUSH ==> s.Drained() && AtMark()
      ensures ret == Z_BUF_ERROR ==> s.nextIn == old(s.nextIn)
      ensures ret == Z_BUF_ERROR <==>
                Useless(old(if status == Init then 2 else s.w.pending), old(s.availOut), old(s.nextIn), flush, oldFlush, old(status))
      ensures status == Finishing ==> flush == Z_FINISH && (s.nextIn == [] || old(status) == Finishing)
      ensures ret == Z_OK && flush == Z_FINISH ==>
                Closer(old(Rank()), old(s.Left()), old(s.w.pending), Rank(), s.Left(), s.w.pending)
      ensures lastFlush == flush || (lastFlush == -1 && ret == Z_OK && s.availOut == 0)
      ensures ret == Z_OK && s.availOut == 0 && (flush != Z_FINISH || status == Busy) ==> lastFlush == -1
    {
      hide Compressor.Valid, Deflater.Since, Output.Valid, Complete, Through, Compressor.HeaderDue, Handed,
        Compressor.Verdict, AtMark;
      if status == Init {
        WriteHeader(p);
      }
      ret := Run(flush, oldFlush, p);
    }

    // The application's buffers for one call.
    method Offer(input: Bytes, room: nat) returns (ghost p: Start)
      requires Valid()
      modifies s`nextIn, s`availOut
      ensures Valid() && s.nextIn == input && s.availOut == room && s.Since(p)
      ensures p == Start(s.win.hist + input, s.win.hist, s.output, room, s.ts.intact)
    {
      hide Stands, Streams, BytesToBits, ToBits, StaticOk, Chains, HashReady, T.TreeState.Valid, Written, Spoken,
        Holds, Window.Summed, Ends, Closed, Complete, Through, Compressor.HeaderDue, Deflater.MaxBlockSize,
        Deflater.Base, Deflater.Parsed, Deflater.Lazy, Deflater.Greedy, Deflater.Own, T.TreeState.Told,
        Deflater.Running, Deflater.Copying, Deflater.Ended;
      s.nextIn, s.availOut := input, room;
      p := s.Now();
      s.SinceNow();
    }

    // deflate, with any input and any room for output: what has been given and what is pending only
    // ever grows at its end, and input is only ever taken from the front.
    method Deflate(input: Bytes, room: nat, flush: int) returns (ret: int, rest: Bytes, out: Bytes)
      requires Valid()
      modifies this, s, s.win, s.win.window, s.win.prev, s.win.head, s.ts, s.ts.heap, s.w, s.w.pendingBuf
      ensures Valid() && s.w.Valid() && s.output == s.w.taken && Grown(old(s.w.SentBytes()))
      ensures s.output == old(s.output) + out && |out| <= room
      ensures s.win.hist + rest == old(s.win.hist) + input && old(s.win.hist) <= s.win.hist
      ensures ret == Z_STREAM_ERROR <==> !(0 <= flush <= 4) || (old(status) == Finishing && flush != Z_FINISH)
      ensures ret == Z_OK || ret == Z_STREAM_END || ret == Z_BUF_ERROR || ret == Z_STREAM_ERROR
      ensures ret == Z_STREAM_ERROR ==> out == [] && rest == input
      ensures ret == Z_BUF_ERROR ==> rest == input
      ensures ret == Z_BUF_ERROR <==>
                ret != Z_STREAM_ERROR && Useless(old(if status == Init then 2 else s.w.pending), room, input, flush, old(lastFlush), old(status))
      ensures status == Finishing ==> old(status) == Finishing || flush == Z_FINISH
      ensures status == Finishing && old(status) != Finishing ==> rest == []
      ensures ret == Z_OK && flush == Z_FINISH ==>
                Closer(old(Rank()), old(s.win.lookahead) + |input|, old(s.w.pending), Rank(), s.win.lookahead + |rest|, s.w.pending)
      ensures ret == Z_OK && |out| < room ==> rest == [] && flush != Z_FINISH
      ensures ret == Z_OK && |out| < room ==> if flush == Z_NO_FLUSH then s.win.lookahead < MIN_LOOKAHEAD else s.win.lookahead == 0 && Handed(flush)
      ensures ret == Z_STREAM_END ==> flush == Z_FINISH && rest == [] && Through(s.ts.intact, s.output, HeaderDue(), s.mark, s.win.hist)
      ensures if ret == Z_STREAM_ERROR || room == 0 then lastFlush == old(lastFlush)
              else lastFlush == flush || (lastFlush == -1 && ret == Z_OK && |out| == room)
      ensures ret == Z_OK && |out| == room && (flush != Z_FINISH || status == Busy) ==> lastFlush == -1
      ensures s.ts.intact ==> old(s.ts.intact)
      ensures s.mark == old(s.mark) || (flush == Z_FULL_FLUSH && AtMark())
      ensures ret == Z_OK && |out| < room && flush == Z_FULL_FLUSH ==> s.mark == Mark(|s.output|, |s.win.hist|)
    {
      hide Compressor.Valid, Deflater.Since, Output.Valid, Complete, Through, Compressor.HeaderDue, Handed,
        Compressor.Verdict, AtMark, Output.SentBytes, Deflater.Now, Deflater.Drained;
      Facts();
      rest, out := input, [];
      if flush > 4 || flush < 0 || (status == Finishing && flush != Z_FINISH) {
        return Z_STREAM_ERROR, rest, out;
      }
      if room == 0 {
        return Z_BUF_ERROR, rest, out;
      }
      ghost var p := Offer(input, room);
      var oldFlush, given := lastFlush, |s.output|;
      lastFlush := flush;
      ret := Proper(flush, oldFlush, p);
      Decided(ret, flush);
      Facts();
      SinceParts(p);
      GivenMark();
      rest, out := s.nextIn, s.output[given..];
    }

    lemma GivenMark()
      requires s.w.Valid() && s.output == s.w.taken
      ensures s.Drained() && AtMark() ==> s.mark == Mark(|s.output|, |s.win.hist|)
    {
    }

    lemma Decided(ret: int, flush: int)
      requires Verdict(ret, flush)
      ensures ret == Z_OK && s.availOut > 0 ==>
                && s.nextIn == [] && flush != Z_FINISH
                && if flush == Z_NO_FLUSH then s.win.lookahead < MIN_LOOKAHEAD else s.win.lookahead == 0 && Handed(flush)
      ensures ret == Z_STREAM_END ==> flush == Z_FINISH && s.nextIn == [] && Through(s.ts.intact, s.output, HeaderDue(), s.mark, s.win.hist)
      ensures ret == Z_OK || ret == Z_STREAM_END || ret == Z_BUF_ERROR
    {
      hide Complete, Through, Handed;
    }

    lemma SinceParts(p: Start)
      requires s.Since(p)
      ensures s.win.hist + s.nextIn == p.input && p.hist <= s.win.hist
      ensures p.output <= s.output && s.availOut <= p.room && |s.output| - |p.output| == p.room - s.availOut && (s.ts.intact ==> p.intact)
    {
      hide Window.Summed;
    }
  }
}
