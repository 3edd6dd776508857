/** Whole streams: the outcome of decompression does not depend on how the input and the room for
    output are cut up, and decompressing what deflate has written gives back its input. */
module RoundTrip {
  import opened Bits
  import opened Canonical
  import opened Format
  import opened BitInput
  import opened InflateStates
  import opened Inflate
  import opened BitOutput
  import opened Blocks
  import Deflate
  import D = DeflateStream

  // ----- the reader's path is one ----------------------------------------------------------------------------

  // Of two states on the path one comes first.
  lemma OnePath(s: BitString, a: Abs, b: Abs)
    requires Reaches(s, START, a) && Reaches(s, START, b)
    ensures Reaches(s, a, b) || Reaches(s, b, a)
  {
    hide Step;
    var n: nat :| Steps(s, START, n) == Next(a);
    var m: nat :| Steps(s, START, m) == Next(b);
    if n <= m {
      StepsJoin(s, START, a, n, m - n);
      assert Steps(s, a, m - n) == Next(b);
    } else {
      StepsJoin(s, START, b, m, n - m);
      assert Steps(s, b, n - m) == Next(a);
    }
  }

  // Nothing comes behind a state in which the reader is stuck.
  lemma StuckIsLast(s: BitString, a: Abs, b: Abs)
    requires Step(s, a) == Stuck && Reaches(s, a, b)
    ensures a == b
  {
    hide Step;
    var n: nat :| Steps(s, a, n) == Next(b);
    assert n == 0;
  }

  lemma PutsOut(s: BitString, a: Abs)
    requires Step(s, a).Next?
    ensures a.out <= Step(s, a).a.out
  {
    hide Field, DecodeSym;
  }

  lemma {:induction false} StepsPutOut(s: BitString, a: Abs, n: nat)
    requires Steps(s, a, n).Next?
    ensures a.out <= Steps(s, a, n).a.out
    decreases n
  {
    hide Step;
    if n > 0 {
      PutsOut(s, a);
      StepsPutOut(s, Step(s, a).a, n - 1);
    }
  }

  // Output is only ever appended to.
  lemma OutGrows(s: BitString, a: Abs, b: Abs)
    requires Reaches(s, a, b)
    ensures a.out <= b.out
  {
    hide Step;
    var n: nat :| Steps(s, a, n) == Next(b);
    StepsPutOut(s, a, n);
  }

  // ----- the decoder's state, whatever the calls were -----------------------------------------------------------

  lemma StateOf(x: Inflater)
    requires x.Valid()
    ensures Reaches(BytesToBits(x.tr.seen), START, x.tr.a) && x.tr.a.out == x.tr.hist
    ensures x.st.phase == DONE <==> x.tr.a.mode == Check && x.st.phase != CHECK
    ensures x.st.phase == BAD <==> x.tr.a.mode == Bad
    ensures x.st.phase == DONE ==> x.tr.a.pos == 8 * |x.tr.seen|
  {
    hide Reaches, Accum, BytesToBits, Step, Shaped, Tabled, R.Space;
  }

  // Two decoders that have been given the same input in any portions, with any room for output at each
  // call, and have come to an end, have come to the same end with the same output.
  lemma ChunksDoNotMatter(x: Inflater, y: Inflater, whole: Bytes)
    requires x.Valid() && y.Valid() && x.tr.seen <= whole && y.tr.seen <= whole
    requires (x.st.phase == DONE || x.st.phase == BAD) && (y.st.phase == DONE || y.st.phase == BAD)
    ensures x.st.phase == y.st.phase && x.tr.hist == y.tr.hist && x.tr.a == y.tr.a
    ensures x.st.phase == DONE ==> x.tr.seen == y.tr.seen
  {
    hide Reaches, BytesToBits, Inflater.Valid;
    StateOf(x);
    StateOf(y);
    Waited(x.tr.seen, whole, x.tr.a);
    Waited(y.tr.seen, whole, y.tr.a);
    FinalUnique(BytesToBits(whole), START, x.tr.a, y.tr.a);
    if x.st.phase == DONE {
      assert |x.tr.seen| == |y.tr.seen|;
      assert x.tr.seen == whole[..|x.tr.seen|] == y.tr.seen;
    }
  }

  // Where the decoder stands on the path to the end of a whole stream.
  lemma OnTheWay(x: Inflater, stream: Bytes, data: Bytes, more: Bytes) returns (end: Abs)
    requires x.Valid() && Finished(BytesToBits(stream), data) && x.tr.seen <= stream + more
    ensures end.mode == Check && end.out == data && end.pos == 8 * |stream|
    ensures Reaches(BytesToBits(stream + more), x.tr.a, end)
    ensures stream <= x.tr.seen ==> Reaches(BytesToBits(x.tr.seen), START, end)
  {
    hide Reaches, BytesToBits, Step, Inflater.Valid;
    end := Abs(8 * |stream|, true, Check, [], [], data);
    StateOf(x);
    Waited(x.tr.seen, stream + more, x.tr.a);
    Waited(stream, stream + more, end);
    OnePath(BytesToBits(stream + more), x.tr.a, end);
    assert Step(BytesToBits(stream + more), end) == Stuck by { FinalStuck(BytesToBits(stream + more), end); }
    if Reaches(BytesToBits(stream + more), end, x.tr.a) {
      StuckIsLast(BytesToBits(stream + more), end, x.tr.a);
      ReachesSelf(BytesToBits(stream + more), end);
    }
    if stream <= x.tr.seen {
      Waited(stream, x.tr.seen, end);
    }
  }

  // While a whole stream is being read, the output is a prefix of its data; an end is the right end, behind the
  // last byte of the stream; and the decoder does not ask for input behind the stream.
  lemma ReadsBack(x: Inflater, stream: Bytes, data: Bytes, more: Bytes)
    requires x.Valid() && Finished(BytesToBits(stream), data) && x.tr.seen <= stream + more
    ensures x.tr.hist <= data && x.st.phase != BAD
    ensures x.st.phase == DONE ==> x.tr.hist == data && x.tr.seen == stream
    ensures stream <= x.tr.seen && Early(x.st.phase) ==> Step(BytesToBits(x.tr.seen), x.tr.a).Next?
  {
    hide Reaches, BytesToBits, Step, Inflater.Valid;
    var s := BytesToBits(stream + more);
    var end := OnTheWay(x, stream, data, more);
    StateOf(x);
    OutGrows(s, x.tr.a, end);
    if x.st.phase == DONE || x.st.phase == BAD {
      FinalStuck(s, x.tr.a);
      StuckIsLast(s, x.tr.a, end);
      if x.st.phase == DONE {
        assert |x.tr.seen| == |stream|;
        assert x.tr.seen == (stream + more)[..|stream|] == stream;
      }
    }
    if stream <= x.tr.seen && Step(BytesToBits(x.tr.seen), x.tr.a) == Stuck && Early(x.st.phase) {
      OnePath(BytesToBits(x.tr.seen), x.tr.a, end);
      FinalStuck(BytesToBits(x.tr.seen), end);
      if Reaches(BytesToBits(x.tr.seen), x.tr.a, end) {
        StuckIsLast(BytesToBits(x.tr.seen), x.tr.a, end);
      } else {
        StuckIsLast(BytesToBits(x.tr.seen), end, x.tr.a);
      }
      assert false;
    }
  }

  // ----- there and back -----------------------------------------------------------------------------------------------

  // The deflated data within a whole stream.
  function Body(bytes: Bytes, header: Bytes): Bytes
    requires header == [] || |bytes| >= |header| + 4
  {
    if header == [] then bytes else bytes[|header|..|bytes| - 4]
  }

  // Whatever calls of deflate have written a stream, and whatever calls of inflate read it: the output is
  // the input, the decoder stops right behind the deflated data, and it does not stop before.
  lemma ThereAndBack(bytes: Bytes, header: Bytes, data: Bytes, x: Inflater, more: Bytes)
    requires D.Complete(bytes, header, data) && x.Valid() && x.tr.seen <= Body(bytes, header) + more
    ensures x.tr.hist <= data && x.st.phase != BAD
    ensures x.st.phase == DONE ==> x.tr.hist == data && x.tr.seen == Body(bytes, header)
    ensures Body(bytes, header) <= x.tr.seen && Early(x.st.phase) ==> Step(BytesToBits(x.tr.seen), x.tr.a).Next?
  {
    hide Reaches, BytesToBits, Step, Inflater.Valid, Finished;
    ReadsBack(x, Body(bytes, header), data, more);
  }

  // With all of the stream and more room than the data takes, a single call is enough.
  method InflateAtOnce(stream: Bytes, room: nat, ghost data: Bytes) returns (ret: int, rest: Bytes, out: Bytes)
    requires Finished(BytesToBits(stream), data) && room > |data|
    ensures ret == Z_STREAM_END && rest == [] && out == data
  {
    hide Reaches, BytesToBits, Step, Inflater.Valid, Finished;
    var x := new Inflater();
    ret, rest, out := x.Inflate(stream, room, Z_FINISH);
    assert [] + stream == stream == stream + [];
    assert x.tr.seen + rest == stream;
    Taken(x.tr.seen, rest, stream);
    ReadsBack(x, stream, data, []);
  }

  // After a call that has not ended: with all of the stream consumed only want of room can be the reason.
  lemma OnlyRoom(x: Inflater, stream: Bytes, data: Bytes, room: nat, piece: Bytes, ret: int)
    requires x.Valid() && Finished(BytesToBits(stream), data) && x.tr.seen <= stream
    requires ret == Z_OK || ret == Z_BUF_ERROR ==>
               Early(x.st.phase) && (|piece| == room || Step(BytesToBits(x.tr.seen), x.tr.a) == Stuck)
    requires (ret == Z_STREAM_END <==> x.st.phase == DONE) && (ret == Z_DATA_ERROR <==> x.st.phase == BAD)
    ensures x.tr.hist <= data && ret != Z_DATA_ERROR && (ret == Z_STREAM_END ==> x.tr.hist == data && x.tr.seen == stream)
    ensures (ret == Z_OK || ret == Z_BUF_ERROR) && x.tr.seen == stream ==> |piece| == room
  {
    hide Reaches, BytesToBits, Step, Inflater.Valid, Finished;
    assert stream + [] == stream;
    ReadsBack(x, stream, data, []);
  }

  // Fed in any pieces of at least one byte, with any room of at least one byte for each: decompression always
  // comes to its end, with all of the data.
  method InflateInPieces(stream: Bytes, ghost data: Bytes) returns (out: Bytes)
    requires Finished(BytesToBits(stream), data)
    ensures out == data
  {
    hide Reaches, BytesToBits, Step, Inflater.Valid, Finished;
    var x := new Inflater();
    var given: nat, ret := 0, Z_OK;
    out := [];
    while ret != Z_STREAM_END
      invariant x.Valid() && fresh(x) && fresh(x.m.lens) && fresh(x.m.work) && fresh(x.m.codes) && fresh(x.m.dcodes) && fresh(x.window)
      invariant given <= |stream| && x.tr.seen == stream[..given] && x.tr.hist == out <= data
      invariant ret == Z_STREAM_END ==> out == data
      decreases |stream| - given + |data| - |out|, if ret == Z_STREAM_END then 0 else 1
    {
      var n: int, room: int := *, *;
      n := if n < 1 then 1 else n;
      n := if n <= |stream| - given then n else |stream| - given;
      room := if room < 1 then 1 else room;
      var rest, piece;
      ret, rest, piece := x.Inflate(stream[given..given + n], room, 0);
      assert stream[..given] + stream[given..given + n] == stream[..given + n];
      Taken(x.tr.seen, rest, stream[..given + n]);
      assert x.tr.seen <= stream;
      OnlyRoom(x, stream, data, room, piece, ret);
      given := given + n - |rest|;
      out := out + piece;
    }
  }

  lemma Taken(seen: Bytes, rest: Bytes, all: Bytes)
    requires seen + rest == all
    ensures seen == all[..|all| - |rest|] && seen <= all && (rest == [] ==> seen == all)
  {
  }

  lemma Unwrapped(bytes: Bytes, header: Bytes, data: Bytes, n: nat)
    requires D.Complete(bytes, header, data) && |header| == n && (n == 0 || n == 2)
    ensures n == 2 ==> |bytes| >= 6
    ensures Finished(BytesToBits(if n == 2 then bytes[2..|bytes| - 4] else bytes), data)
  {
    hide Finished, BytesToBits;
  }

  // One call of deflate: n more bytes of input, room for output, and a flush value.
  datatype Request = Request(n: nat, room: nat, flush: int)

  // Any calls that do not ask for the end yet.
  method DeflateSome(c: D.Compressor, data: Bytes, requests: seq<Request>) returns (given: nat, out: Bytes)
    requires c.Valid() && c.status != D.Finishing && forall r :: r in requests ==> r.flush != Z_FINISH
    modifies c, c.s, c.s.win, c.s.win.window, c.s.win.prev, c.s.win.head, c.s.ts, c.s.ts.heap, c.s.w, c.s.w.pendingBuf
    ensures c.Valid() && c.status != D.Finishing && given <= |data|
    ensures c.s.win.hist == old(c.s.win.hist) + data[..given] && c.s.output == old(c.s.output) + out
  {
    hide D.Complete, D.Compressor.Valid, D.Compressor.HeaderDue, D.Compressor.Handed, Output.Valid, D.Useless, D.Closer;
    given, out := 0, [];
    for i := 0 to |requests|
      invariant c.Valid() && c.status != D.Finishing && given <= |data|
      invariant c.s.win.hist == old(c.s.win.hist) + data[..given] && c.s.output == old(c.s.output) + out
    {
      var r := requests[i];
      var n := if r.n <= |data| - given then r.n else |data| - given;
      var ret, rest, piece := c.Deflate(data[given..given + n], r.room, r.flush);
      assert data[..given] + data[given..given + n] == data[..given + n];
      Prefixed(old(c.s.win.hist), data, given + n, c.s.win.hist, rest);
      given := given + n - |rest|;
      out := out + piece;
    }
  }

  lemma Prefixed(h: Bytes, data: Bytes, k: nat, h': Bytes, rest: Bytes)
    requires k <= |data| && h' + rest == h + data[..k] && |h| <= |h'|
    ensures |rest| <= k && h' == h + data[..k - |rest|]
  {
    assert h' == (h' + rest)[..|h'|];
  }

  // Calls with Z_FINISH, each with any room of at least one byte, until the end: they always get there.
  method DeflateRest(c: D.Compressor, input: Bytes) returns (out: Bytes)
    requires c.Valid() && c.status != D.Finishing
    modifies c, c.s, c.s.win, c.s.win.window, c.s.win.prev, c.s.win.head, c.s.ts, c.s.ts.heap, c.s.w, c.s.w.pendingBuf
    ensures c.Valid() && c.s.win.hist == old(c.s.win.hist) + input && c.s.output == old(c.s.output) + out && c.s.mark == old(c.s.mark)
    ensures D.Through(c.s.ts.intact, c.s.output, c.HeaderDue(), c.s.mark, c.s.win.hist)
  {
    hide D.Complete, D.Through, D.Compressor.Valid, D.Compressor.HeaderDue, D.Compressor.Handed, D.Compressor.AtMark,
      Output.Valid;
    var rest, ret := input, D.Z_OK;
    out := [];
    while ret == D.Z_OK
      invariant c.Valid() && c.s.win.hist + rest == old(c.s.win.hist) + input && c.s.output == old(c.s.output) + out && c.s.mark == old(c.s.mark)
      invariant (c.status == D.Finishing ==> rest == []) && (ret == D.Z_OK || ret == D.Z_STREAM_END)
      invariant ret == D.Z_STREAM_END ==> rest == [] && D.Through(c.s.ts.intact, c.s.output, c.HeaderDue(), c.s.mark, c.s.win.hist)
      decreases if ret == D.Z_OK then 1 else 0, c.Rank(), c.s.win.lookahead + |rest|, c.s.w.pending
    {
      var room: int := *;
      room := if room < 1 then 1 else room;
      var piece;
      ret, rest, piece := c.Deflate(rest, room, Z_FINISH);
      out := out + piece;
    }
  }

  // compress and uncompress with buffers of any sizes: whatever the parameters, however the data is cut up, flushed
  // and given room on the way in and on the way out, it comes back, unless a block was written over its own tokens.
  method CompressUncompress(data: Bytes, requests: seq<Request>, level: nat, windowBits: nat, memLevel: nat, strategy: nat, wrap: nat)
    returns (bytes: Bytes, intact: bool, back: Bytes)
    requires level <= 9 && 8 <= windowBits <= 15 && 1 <= memLevel <= 9 && strategy <= 4 && wrap <= 1
    requires forall r :: r in requests ==> r.flush != Z_FINISH
    ensures intact ==> back == data
    ensures D.NeverLost(level, strategy, windowBits) ==> intact
  {
    hide D.Complete, D.Through, D.NeverLost, Finished, BytesToBits, D.Compressor.Valid, D.Compressor.HeaderDue,
      D.Compressor.Handed, Output.Valid;
    var c := new D.Compressor(level, windowBits, memLevel, strategy, wrap);
    var given, first := DeflateSome(c, data, requests);
    var last := DeflateRest(c, data[given..]);
    bytes, intact, back := first + last, c.s.ts.intact, [];
    if D.NeverLost(level, strategy, windowBits) {
      c.NothingLost();
    }
    if intact {
      assert [] + data[..given] + data[given..] == data && [] + first + last == bytes;
      ThroughParts(bytes, c.HeaderDue(), c.s.mark, data);
      Unwrapped(bytes, c.HeaderDue(), data, 2 * wrap) by { DueSize(c); }
      back := InflateInPieces(if wrap == 1 then bytes[2..|bytes| - 4] else bytes, data);
    }
  }

  lemma ThroughParts(bytes: Bytes, header: Bytes, mark: Deflate.Mark, data: Bytes)
    requires D.Through(true, bytes, header, mark, data)
    ensures D.Complete(bytes, header, data) && mark.from <= |data|
    ensures D.Alone(bytes, mark.cut, if header == [] then 0 else 4, data[mark.from..])
  {
    hide Finished, D.Complete, D.Alone;
  }

  // Any calls, one with Z_FULL_FLUSH for the rest of the input, and calls to the end. `flushed` says that the call that
  // flushes had room for all it had to give.
  method DeflateParts(c: D.Compressor, first: Bytes, requests: seq<Request>, room: nat, second: Bytes)
    returns (bytes: Bytes, cut: nat, flushed: bool)
    requires c.Valid() && c.status != D.Finishing && c.s.output == [] == c.s.win.hist && forall r :: r in requests ==> r.flush != Z_FINISH
    modifies c, c.s, c.s.win, c.s.win.window, c.s.win.prev, c.s.win.head, c.s.ts, c.s.ts.heap, c.s.w, c.s.w.pendingBuf
    ensures c.Valid() && D.Through(c.s.ts.intact, bytes, c.HeaderDue(), c.s.mark, first + second)
    ensures flushed ==> c.s.mark == Deflate.Mark(cut, |first|)
  {
    hide D.Complete, D.Through, D.Compressor.Valid, D.Compressor.HeaderDue, D.Compressor.Handed, D.Compressor.AtMark,
      Output.Valid, Output.SentBytes, D.Useless, D.Closer;
    var given, early := DeflateSome(c, first, requests);
    assert [] + first[..given] + first[given..] == first && [] + early == early;
    var ret, rest, piece := c.Deflate(first[given..], room, Deflate.Z_FULL_FLUSH);
    cut, flushed := |early + piece|, ret == D.Z_OK && |piece| < room;
    assert c.s.win.hist + (rest + second) == c.s.win.hist + rest + second == first + second;
    var tail := DeflateRest(c, rest + second);
    bytes := early + piece + tail;
  }

  // Behind a full flush a decoder can start afresh: what was given from there on is a deflated stream of the data from
  // there on, as if nothing had come before.
  method StartBehindFlush(first: Bytes, requests: seq<Request>, room: nat, second: Bytes, level: nat, windowBits: nat, memLevel: nat, strategy: nat, wrap: nat)
    returns (bytes: Bytes, cut: nat, flushed: bool, intact: bool, back: Bytes)
    requires level <= 9 && 8 <= windowBits <= 15 && 1 <= memLevel <= 9 && strategy <= 4 && wrap <= 1
    requires forall r :: r in requests ==> r.flush != Z_FINISH
    ensures flushed && intact ==> cut <= |bytes| && back == second
    ensures D.NeverLost(level, strategy, windowBits) ==> intact
  {
    hide D.Complete, D.Through, D.NeverLost, Finished, BytesToBits, D.Compressor.Valid, D.Compressor.HeaderDue, Output.Valid;
    var c := new D.Compressor(level, windowBits, memLevel, strategy, wrap);
    bytes, cut, flushed := DeflateParts(c, first, requests, room, second);
    intact, back := c.s.ts.intact, [];
    if D.NeverLost(level, strategy, windowBits) {
      c.NothingLost();
    }
    if flushed && intact {
      assert (first + second)[|first|..] == second;
      ThroughParts(bytes, c.HeaderDue(), c.s.mark, first + second);
      assert c.HeaderDue() == [] <==> wrap == 0 by { DueSize(c); }
      back := InflateInPieces(bytes[cut..|bytes| - (if wrap == 0 then 0 else 4)], second);
    }
  }

  lemma DueSize(c: D.Compressor)
    requires (c.s.hdr == 2 || c.s.hdr == 0) && 8 <= c.wBits <= 15
    ensures |c.HeaderDue()| == c.s.hdr
  {
  }
}
