/** inflate.c: the circular window, which keeps the last output of earlier calls. */
module RingWindow {
  import opened Bits
  import opened Memory

  const WSIZE: nat := 32768

  // wsize is zero while the window is not in use; the next byte goes to index `write`.
  datatype Ring = Ring(wsize: nat, whave: nat, write: nat)

  // The bytes in the window, the oldest one first.
  function Unrolled(window: Bytes, r: Ring): Bytes
    requires r.write <= |window|
  {
    if r.whave < WSIZE then window[..r.write] else window[r.write..] + window[..r.write]
  }

  function LastOf(hist: Bytes): Bytes {
    if |hist| <= WSIZE then hist else hist[|hist| - WSIZE..]
  }

  // The window holds the last WSIZE bytes of the output, or all of it.
  ghost predicate RingOk(window: Bytes, r: Ring, hist: Bytes) {
    && |window| == WSIZE && r.write < WSIZE && r.whave <= WSIZE && (r.whave < WSIZE ==> r.write == r.whave)
    && (r.wsize == WSIZE || (r.wsize == 0 && r.whave == 0))
    && Unrolled(window, r) == LastOf(hist)
  }

  // A byte d places back in the output.
  lemma RingByte(window: Bytes, r: Ring, hist: Bytes, d: nat)
    requires RingOk(window, r, hist) && 1 <= d <= |LastOf(hist)|
    ensures r.whave == |LastOf(hist)| && d <= |hist| && (d > r.write ==> r.wsize == WSIZE)
    ensures var i := if d > r.write then r.wsize - (d - r.write) else r.write - d;
            0 <= i < WSIZE && window[i] == hist[|hist| - d]
  {
    var u := Unrolled(window, r);
    assert u[|u| - d] == hist[|hist| - d];
  }

  lemma RingSize(window: Bytes, r: Ring, hist: Bytes)
    requires RingOk(window, r, hist)
    ensures r.whave == |LastOf(hist)|
  {
  }

  lemma WholeWindow(window: Bytes, hist: Bytes, put: Bytes)
    requires |put| >= WSIZE && window == put[|put| - WSIZE..]
    ensures RingOk(window, Ring(WSIZE, WSIZE, 0), hist + put)
  {
    assert (hist + put)[|hist + put| - WSIZE..] == put[|put| - WSIZE..];
  }

  // New bytes that reach past the end of the window go on at its start.
  lemma RoundTheEnd(window: Bytes, r: Ring, hist: Bytes, put: Bytes, dist: nat)
    requires RingOk(window, r, hist) && dist == WSIZE - r.write && dist < |put| < WSIZE
    ensures |put| - dist <= r.write
    ensures RingOk(put[dist..] + window[|put| - dist..r.write] + put[..dist], Ring(WSIZE, WSIZE, |put| - dist), hist + put)
  {
    var n := |put| - dist;
    var w := put[dist..] + window[n..r.write] + put[..dist];
    assert w[n..] == window[n..r.write] + put[..dist];
    assert w[..n] == put[dist..];
    assert w[n..] + w[..n] == window[n..r.write] + put;
    if r.whave < WSIZE {
      assert (hist + put)[|hist + put| - WSIZE..] == hist[n..] + put;
    } else {
      Older(window[r.write..] + window[..r.write], hist, put);
      assert (window[r.write..] + window[..r.write])[|put|..] == window[n..r.write];
    }
  }

  lemma Older(u: Bytes, hist: Bytes, put: Bytes)
    requires u == LastOf(hist) && |u| == WSIZE && |put| <= WSIZE
    ensures LastOf(hist + put) == u[|put|..] + put
  {
    assert (hist + put)[|hist + put| - WSIZE..] == hist[|hist| - WSIZE..][|put|..] + put;
  }

  lemma FillsUp(window: Bytes, r: Ring, hist: Bytes, put: Bytes)
    requires RingOk(window, r, hist) && r.write + |put| <= WSIZE && |put| < WSIZE
    ensures var n := r.write + |put|;
            RingOk(window[..r.write] + put + window[n..],
                   Ring(WSIZE, if r.whave < WSIZE then r.whave + |put| else WSIZE, if n == WSIZE then 0 else n), hist + put)
  {
    var n := r.write + |put|;
    var w := window[..r.write] + put + window[n..];
    if r.whave < WSIZE {
      assert w[..n] == hist + put;
    } else {
      Older(window[r.write..] + window[..r.write], hist, put);
      assert (window[r.write..] + window[..r.write])[|put|..] == window[n..] + window[..r.write];
      assert w[n..] == window[n..];
      assert w[..n] == window[..r.write] + put;
    }
  }

  // The two copies of updatewindow when the output is shorter than the window.
  method CopyAround(window: array<byte>, r: Ring, put: Bytes, ghost hist: Bytes) returns (r': Ring)
    requires RingOk(window[..], r, hist) && r.wsize == WSIZE && |put| < WSIZE
    modifies window
    ensures r'.wsize == WSIZE && RingOk(window[..], r', hist + put)
  {
    hide RingOk;
    RingShape(window[..], r, hist);
    ghost var w0 := window[..];
    var copy := |put|;
    var dist := r.wsize - r.write;
    if dist > copy {
      dist := copy;
    }
    Store(window, r.write, put[..dist]);
    ghost var w1 := window[..];
    assert w1 == w0[..r.write] + put[..dist] + w0[r.write + dist..];
    copy := copy - dist;
    if copy > 0 {
      RoundTheEnd(w0, r, hist, put, dist);
      Store(window, 0, put[dist..]);
      assert window[..] == put[dist..] + w1[copy..];
      assert w1[copy..] == w0[copy..r.write] + put[..dist];
      assert window[..] == put[dist..] + w0[copy..r.write] + put[..dist];
      r' := r.(write := copy, whave := WSIZE);
    } else {
      assert put[..dist] == put;
      FillsUp(w0, r, hist, put);
      r' := Ring(r.wsize, if r.whave < r.wsize then r.whave + dist else r.whave, if r.write + dist == r.wsize then 0 else r.write + dist);
    }
  }

  // updatewindow: the output of this call, or the last of it, goes into the window.
  method UpdateWindow(window: array<byte>, r: Ring, put: Bytes, ghost hist: Bytes) returns (r': Ring)
    requires RingOk(window[..], r, hist)
    modifies window
    ensures r'.wsize == WSIZE && RingOk(window[..], r', hist + put)
  {
    hide RingOk;
    RingShape(window[..], r, hist);
    r' := if r.wsize == 0 then Ring(WSIZE, 0, 0) else r;
    InUse(window[..], r, r', hist);
    if |put| >= r'.wsize {
      Store(window, 0, put[|put| - WSIZE..]);
      r' := r'.(write := 0, whave := WSIZE);
      WholeWindow(window[..], hist, put);
    } else {
      r' := CopyAround(window, r', put, hist);
    }
  }

  lemma RingShape(window: Bytes, r: Ring, hist: Bytes)
    requires RingOk(window, r, hist)
    ensures |window| == WSIZE && r.write < WSIZE && r.whave <= WSIZE && (r.whave < WSIZE ==> r.write == r.whave)
    ensures r.wsize == WSIZE || (r.wsize == 0 && r.whave == 0)
  {
  }

  lemma InUse(window: Bytes, r: Ring, r': Ring, hist: Bytes)
    requires RingOk(window, r, hist) && r' == if r.wsize == 0 then Ring(WSIZE, 0, 0) else r
    ensures RingOk(window, r', hist) && r'.wsize == WSIZE && r'.write < WSIZE && r'.whave <= WSIZE
  {
  }
}
