/** inffast.c: the three ways in which a whole match is copied, in steps of three bytes. */
module FastCopy {
  import opened Bits
  import opened RingWindow
  import opened InflateCodes
  import B = BlockCode

  // Where the next byte of a match comes from.
  datatype Source = InWindow(at: nat) | InOutput(at: nat)

  // The source stands `dist` places back in the output, with n bytes ahead that can be read in a row.
  ghost predicate From(window: Bytes, ring: Ring, hist: Bytes, put: Bytes, dist: nat, from: Source, n: nat) {
    && 1 <= dist <= |hist + put|
    && match from
       case InOutput(i) => i + dist == |put|
       case InWindow(i) =>
         && |put| < dist && dist - |put| <= |LastOf(hist)|
         && var d := dist - |put|;
            if d > ring.write then i + (d - ring.write) == ring.wsize && n <= d - ring.write && ring.wsize == WSIZE
            else i + d == ring.write && n <= d
  }

  // PUP(out) = PUP(from).
  method CopyByte(window: array<byte>, from: Source, put: Bytes, ghost ring: Ring, ghost hist: Bytes, ghost dist: nat, ghost n: nat)
    returns (put': Bytes, from': Source)
    requires RingOk(window[..], ring, hist) && n >= 1 && From(window[..], ring, hist, put, dist, from, n)
    ensures hist + put' == B.CopyFrom(hist + put, dist, 1) && put <= put' && |put'| == |put| + 1
    ensures n > 1 ==> From(window[..], ring, hist, put', dist, from', n - 1)
  {
    hide RingOk, B.CopyFrom;
    OneMore(hist, put, dist, 1);
    RingShape(window[..], ring, hist);
    match from {
      case InOutput(i) =>
        put', from' := put + [put[i]], InOutput(i + 1);
      case InWindow(i) =>
        RingByte(window[..], ring, hist, dist - |put|);
        put', from' := put + [window[i]], InWindow(i + 1);
    }
    CopyNothing(hist + put', dist);
  }

  lemma {:induction false} CopyJoin(out: Bytes, dist: nat, n: nat, m: nat)
    requires 1 <= dist <= |out|
    ensures B.CopyFrom(B.CopyFrom(out, dist, n), dist, m) == B.CopyFrom(out, dist, n + m)
    decreases n
  {
    if n > 0 {
      CopyJoin(out + [out[|out| - dist]], dist, n - 1, m);
    }
  }

  // One byte more than has been copied so far.
  lemma CopyNext(hist: Bytes, put0: Bytes, put: Bytes, put': Bytes, dist: nat, k: nat)
    requires 1 <= dist <= |hist + put0| && hist + put == B.CopyFrom(hist + put0, dist, k) && hist + put' == B.CopyFrom(hist + put, dist, 1)
    ensures hist + put' == B.CopyFrom(hist + put0, dist, k + 1)
  {
    hide B.CopyFrom;
    CopyJoin(hist + put0, dist, k, 1);
  }

  // Three bytes at a time, then what is left.
  method CopyRest(window: array<byte>, from: Source, len: nat, put: Bytes, ghost ring: Ring, ghost hist: Bytes, ghost dist: nat)
    returns (put': Bytes)
    requires RingOk(window[..], ring, hist) && (len > 0 ==> From(window[..], ring, hist, put, dist, from, len))
    requires 1 <= dist <= |hist + put|
    ensures hist + put' == B.CopyFrom(hist + put, dist, len) && put <= put' && |put'| == |put| + len
  {
    hide RingOk, B.CopyFrom, From;
    put' := put;
    var f, n: nat := from, len;
    CopyNothing(hist + put, dist);
    while n > 2
      invariant n <= len && put <= put' && |put'| + n == |put| + len
      invariant hist + put' == B.CopyFrom(hist + put, dist, len - n)
      invariant n > 0 ==> From(window[..], ring, hist, put', dist, f, n)
    {
      put', f := Threefold(window, f, put', put, n, len - n, ring, hist, dist);
      n := n - 3;
    }
    if n > 0 {
      ghost var p := put';
      put', f := CopyByte(window, f, put', ring, hist, dist, n);
      CopyNext(hist, put, p, put', dist, len - n);
      if n > 1 {
        p := put';
        put', f := CopyByte(window, f, put', ring, hist, dist, n - 1);
        CopyNext(hist, put, p, put', dist, len - n + 1);
      }
    }
  }

  method Threefold(window: array<byte>, from: Source, put: Bytes, ghost put0: Bytes, ghost n: nat, ghost k: nat,
      ghost ring: Ring, ghost hist: Bytes, ghost dist: nat)
    returns (put': Bytes, from': Source)
    requires RingOk(window[..], ring, hist) && n >= 3 && From(window[..], ring, hist, put, dist, from, n)
    requires 1 <= dist <= |hist + put0| && put0 <= put && hist + put == B.CopyFrom(hist + put0, dist, k)
    ensures hist + put' == B.CopyFrom(hist + put0, dist, k + 3) && put <= put' && |put'| == |put| + 3
    ensures n > 3 ==> From(window[..], ring, hist, put', dist, from', n - 3)
  {
    hide RingOk, B.CopyFrom, From;
    put', from' := CopyByte(window, from, put, ring, hist, dist, n);
    CopyNext(hist, put0, put, put', dist, k);
    ghost var p := put';
    put', from' := CopyByte(window, from', put', ring, hist, dist, n - 1);
    CopyNext(hist, put0, p, put', dist, k + 1);
    p := put';
    put', from' := CopyByte(window, from', put', ring, hist, dist, n - 2);
    CopyNext(hist, put0, p, put', dist, k + 2);
  }

  lemma CopyPart(hist: Bytes, put0: Bytes, put: Bytes, put': Bytes, dist: nat, k: nat, n: nat)
    requires 1 <= dist <= |hist + put0| && hist + put == B.CopyFrom(hist + put0, dist, k) && hist + put' == B.CopyFrom(hist + put, dist, n)
    ensures hist + put' == B.CopyFrom(hist + put0, dist, k + n)
  {
    hide B.CopyFrom;
    CopyJoin(hist + put0, dist, k, n);
  }

  // The first `op` bytes come from the window, the rest from the output or from the other end of it.
  method CopyHead(window: array<byte>, at: nat, op: nat, put: Bytes, ghost ring: Ring, ghost hist: Bytes, ghost dist: nat)
    returns (put': Bytes)
    requires RingOk(window[..], ring, hist) && op >= 1 && From(window[..], ring, hist, put, dist, InWindow(at), op)
    ensures hist + put' == B.CopyFrom(hist + put, dist, op) && put <= put' && |put'| == |put| + op
  {
    hide RingOk, B.CopyFrom;
    put' := CopyWindow(window, at, op, put, ring, hist, dist);
  }

  // A whole match that starts in the window.
  method CopyFar(window: array<byte>, ring: Ring, put: Bytes, dist: nat, len0: nat, ghost hist: Bytes) returns (put': Bytes)
    requires RingOk(window[..], ring, hist) && |put| < dist && dist - |put| <= ring.whave && len0 >= 3
    ensures hist + put' == B.CopyFrom(hist + put, dist, len0) && put <= put' && |put'| == |put| + len0
  {
    hide RingOk, B.CopyFrom, LastOf;
    RingShape(window[..], ring, hist);
    RingSize(window[..], ring, hist);
    var op, len := dist - |put|, len0;
    RingByte(window[..], ring, hist, op);
    CopyNothing(hist + put, dist);
    put' := put;
    var from;
    if ring.write == 0 {
      from := InWindow(ring.wsize - op);
      if op < len {
        len := len - op;
        put' := CopyHead(window, ring.wsize - op, op, put, ring, hist, dist);
        from := InOutput(|put'| - dist);
      }
    } else if ring.write < op {
      from := InWindow(ring.wsize + ring.write - op);
      op := op - ring.write;
      if op < len {
        len := len - op;
        put' := CopyHead(window, from.at, op, put, ring, hist, dist);
        from := InWindow(0);
        if ring.write < len {
          op := ring.write;
          len := len - op;
          ghost var p := put';
          put' := CopyHead(window, 0, op, put', ring, hist, dist);
          CopyPart(hist, put, p, put', dist, len0 - len - op, op);
          from := InOutput(|put'| - dist);
        }
      }
    } else {
      from := InWindow(ring.write - op);
      if op < len {
        len := len - op;
        put' := CopyHead(window, ring.write - op, op, put, ring, hist, dist);
        from := InOutput(|put'| - dist);
      }
    }
    ghost var p := put';
    put' := CopyRest(window, from, len, put', ring, hist, dist);
    CopyPart(hist, put, p, put', dist, len0 - len, len);
  }

  // A whole match within the output; at least three bytes.
  method CopyNear(window: array<byte>, put: Bytes, dist: nat, len0: nat, ghost ring: Ring, ghost hist: Bytes) returns (put': Bytes)
    requires RingOk(window[..], ring, hist) && 1 <= dist <= |put| && len0 >= 3
    ensures hist + put' == B.CopyFrom(hist + put, dist, len0) && put <= put' && |put'| == |put| + len0
  {
    hide RingOk, B.CopyFrom;
    put' := CopyRest(window, InOutput(|put| - dist), len0, put, ring, hist, dist);
  }
}
