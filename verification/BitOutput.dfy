/** The compressor's output: bits collect in `bi_buf`, full bytes move to `pending_buf`, and
    `flush_pending` hands them to the application. Everything ever sent is one bit string. */
module BitOutput {
  import opened Bits

  lemma ShlDisjoint(v: nat, w: nat, n: nat, k: nat)
    requires v < Pow2(n) && w < Pow2(k)
    ensures v + Shl(w, n) < Pow2(n + k)
    ensures ToBits(v + Shl(w, n), n + k) == ToBits(v, n) + ToBits(w, k)
  {
    hide Shl, Shr, Low, Pow2, ToBits;
    var x := v + Shl(w, n);
    ShlPow2(k, n);
    ShlMonotone(w, Pow2(k), n);
    ShrOfShl(w, v, n);
    ToBitsConcat(x, n, k);
    ToBitsLow(x, n, n);
    ToBitsLow(v, n, n);
    LowSmall(v, n);
    PowSum(n, k);
  }

  lemma PowSum(n: nat, k: nat)
    ensures Pow2(n + k) == Pow2(k + n)
  {
  }

  // How many zero bits bi_windup adds to n bits.
  function PadLen(n: nat): (p: nat)
    ensures p < 8 && (n + p) % 8 == 0
  {
    (8 - n % 8) % 8
  }

  // How many bytes have left bi_buf when `held` bits have been sent since pending_buf was empty.
  function Put(held: nat): (n: nat) {
    if held == 0 then 0 else (held - 1) / 16 * 2
  }

  class Output {
    const pendingBuf: array<byte>
    var pendingOut: nat
    var pending: nat
    var biBuf: nat
    var biValid: nat
    ghost var taken: Bytes

    ghost predicate Valid()
      reads this, pendingBuf
    {
      && pendingOut + pending <= pendingBuf.Length
      && biValid <= 16 && biBuf < Pow2(biValid)
    }

    function Contents(): Bytes
      requires Valid()
      reads this, pendingBuf
    {
      pendingBuf[pendingOut..pendingOut + pending]
    }

    // Every bit sent so far, in order, padding included.
    ghost function Sent(): BitString
      requires Valid()
      reads this, pendingBuf
    {
      BytesToBits(taken + Contents()) + ToBits(biBuf, biValid)
    }

    // How many bits wait in the two buffers.
    function Held(): nat
      reads this
    {
      8 * pending + biValid
    }

    // put_byte appends only while the pending bytes start at the bottom of their buffer.
    ghost predicate Ready(n: nat)
      reads this, pendingBuf
    {
      Valid() && pendingOut == 0 && Held() + n <= 8 * pendingBuf.Length
    }

    // Since pending_buf held b and was empty, bits have only been sent: whole words have been put, and b is still
    // there behind them.
    ghost predicate Laid(b: Bytes)
      reads this`pending, this`biValid, pendingBuf
    {
      && |b| == pendingBuf.Length && pending % 2 == 0 && (pending > 0 ==> biValid >= 1)
      && forall k :: pending <= k < pendingBuf.Length ==> pendingBuf[k] == b[k]
    }

    lemma LaidFirst()
      requires Valid() && pending == 0
      ensures Laid(pendingBuf[..])
    {
    }

    twostate lemma StillLaid()
      requires pending % 2 == old(pending) % 2 && pending >= old(pending)
      requires biValid >= if pending > old(pending) then 1 else old(biValid)
      requires forall k :: pending <= k < pendingBuf.Length ==> pendingBuf[k] == old(pendingBuf[k])
      ensures forall b: Bytes :: old(Laid(b)) ==> Laid(b)
    {
    }

    lemma PutIs(b: Bytes)
      requires Valid() && Laid(b)
      ensures pending == Put(Held())
    {
    }

    constructor (size: nat)
      ensures Valid() && fresh(pendingBuf) && pendingBuf.Length == size
      ensures Sent() == [] && Held() == 0 && Ready(0) && taken == []
    {
      pendingBuf := new byte[size](_ => 0);
      pendingOut, pending, biBuf, biValid, taken := 0, 0, 0, 0, [];
    }

    ghost function SentBytes(): Bytes
      requires Valid()
      reads this, pendingBuf
    {
      taken + Contents()
    }

    lemma SentLength()
      requires Valid()
      ensures |Sent()| == 8 * |SentBytes()| + biValid && |Sent()| % 8 == biValid % 8
    {
      hide BytesToBits, ToBits;
    }

    method PutByte(c: byte)
      requires Valid() && pendingOut == 0 && pending < pendingBuf.Length
      modifies this`pending, pendingBuf
      ensures Valid() && pending == old(pending) + 1 && Contents() == old(Contents()) + [c]
      ensures forall k :: pending <= k < pendingBuf.Length ==> pendingBuf[k] == old(pendingBuf[k])
    {
      pendingBuf[pending] := c;
      pending := pending + 1;
    }

    // put_short: the low byte first.
    method PutShort(w: nat)
      requires Valid() && pendingOut == 0 && pending + 2 <= pendingBuf.Length && w < 65536
      modifies this`pending, pendingBuf
      ensures Valid() && pending == old(pending) + 2 && Contents() == old(Contents()) + [w % 256, w / 256]
      ensures forall k :: pending <= k < pendingBuf.Length ==> pendingBuf[k] == old(pendingBuf[k])
    {
      PutByte(w % 256);
      PutByte(w / 256);
    }

    method SendBits(value: nat, length: nat)
      requires length <= 16 && value < Pow2(length) && Ready(length)
      modifies this`pending, this`biBuf, this`biValid, pendingBuf
      ensures Valid() && pendingOut == 0 && Held() == old(Held()) + length
      ensures Sent() == old(Sent()) + ToBits(value, length)
      ensures forall b: Bytes :: old(Laid(b)) ==> Laid(b)
    {
      hide Pow2, Shl, Shr, Low, ToBits, BytesToBits, Laid;
      ghost var bytes := taken + Contents();
      ghost var n := biValid;
      ShlDisjoint(biBuf, value, n, length);
      ghost var x := biBuf + Shl(value, n);
      if biValid > 16 - length {
        // the low 16 bits go out, the rest stays
        FullWord(x, n, length);
        HighPart(biBuf, value, n, length);
        PutShort(Low(biBuf + Shl(value, biValid), 16));
        biBuf := Shr(value, 16 - biValid);
        biValid := biValid + length - 16;
        TwoBytes(bytes, Low(x, 16));
        assert taken + Contents() == bytes + [Low(x, 16) % 256, Low(x, 16) / 256];
        assert Sent() == BytesToBits(bytes) + ToBits(x, n + length);
      } else {
        biBuf := biBuf + Shl(value, biValid);
        biValid := biValid + length;
      }
      StillLaid();
    }

    // bi_flush: keeps at most 7 bits back.
    method BiFlush()
      requires Ready(0)
      modifies this`pending, this`biBuf, this`biValid, pendingBuf
      ensures Valid() && pendingOut == 0 && Held() == old(Held()) && biValid < 8
      ensures Sent() == old(Sent())
    {
      hide Pow2, ToBits, BytesToBits;
      ghost var bytes := taken + Contents();
      ghost var x := biBuf;
      Pow2Values();
      if biValid == 16 {
        TwoBytes(bytes, x);
        PutShort(biBuf);
        biBuf := 0;
        biValid := 0;
        assert taken + Contents() == bytes + [x % 256, x / 256];
        NoBits(0);
      } else if biValid >= 8 {
        TopBits(x, biValid);
        OneByte(bytes, x % 256);
        PutByte(biBuf % 256);
        biBuf := biBuf / 256;
        biValid := biValid - 8;
        assert taken + Contents() == bytes + [x % 256];
      }
    }

    // bi_windup: pads with zero bits to a byte boundary.
    method BiWindup()
      requires Ready(0)
      modifies this`pending, this`biBuf, this`biValid, pendingBuf
      ensures Valid() && pendingOut == 0 && biValid == 0
      ensures Held() == old(Held()) + PadLen(old(biValid))
      ensures Sent() == old(Sent()) + ToBits(0, PadLen(old(biValid)))
    {
      hide Pow2, ToBits, BytesToBits, PadLen;
      ghost var bytes, x, n := taken + Contents(), biBuf, biValid;
      ghost var more := if biValid > 8 then [x % 256, x / 256] else if biValid > 0 then [x] else [];
      WindupBits(bytes, x, n);
      if biValid > 8 {
        PutShort(biBuf);
      } else if biValid > 0 {
        PutByte(biBuf);
      }
      biBuf := 0;
      biValid := 0;
      assert taken + Contents() == bytes + more;
    }

    // flush_pending: as many bytes as there is room for.
    method FlushPending(availOut: nat) returns (out: Bytes)
      requires Valid()
      modifies this`pendingOut, this`pending, this`taken
      ensures Valid() && taken == old(taken) + out && taken + Contents() == old(taken + Contents())
      ensures |out| == if old(pending) < availOut then old(pending) else availOut
      ensures Sent() == old(Sent())
      ensures old(pendingOut) == 0 && |out| < availOut ==> pendingOut == 0
      ensures pending == old(pending) - |out| && (pending == 0 && old(pending) != 0 ==> pendingOut == 0)
      ensures old(pending) == 0 ==> pendingOut == old(pendingOut)
    {
      hide BytesToBits, ToBits, Pow2;
      var len := pending;
      if len > availOut {
        len := availOut;
      }
      out := pendingBuf[pendingOut..pendingOut + len];
      if len == 0 {
        return;
      }
      SplitFront(pendingBuf[..], pendingOut, pending, len);
      pendingOut := pendingOut + len;
      pending := pending - len;
      ghost var rest := Contents();
      assert taken + (out + rest) == taken + out + rest;
      if pending == 0 {
        pendingOut := 0;
      }
      assert Contents() == rest;
      taken := taken + out;
    }
  }

  // ----- words and bytes as bits ------------------------------------------------------------------------

  lemma SplitFront(buf: Bytes, at: nat, n: nat, k: nat)
    requires k <= n && at + n <= |buf|
    ensures buf[at..at + n] == buf[at..at + k] + buf[at + k..at + k + (n - k)]
  {
  }

  lemma NoBits(v: nat)
    ensures ToBits(v, 0) == []
  {
  }

  lemma OneByte(s: Bytes, c: byte)
    ensures BytesToBits(s + [c]) == BytesToBits(s) + ToBits(c, 8)
  {
    BytesToBitsConcat(s, [c]);
    assert [c][1..] == [];
  }

  lemma TwoBytes(s: Bytes, w: nat)
    requires w < 65536
    ensures BytesToBits(s + [w % 256, w / 256]) == BytesToBits(s) + ToBits(w, 16)
  {
    hide BytesToBits, ToBits, Pow2;
    Pow2Values();
    OneByte(s, w % 256);
    OneByte(s + [w % 256], w / 256);
    assert s + [w % 256] + [w / 256] == s + [w % 256, w / 256];
    TopBits(w, 16);
  }

  // The low byte and what is above it.
  lemma TopBits(x: nat, n: nat)
    requires n >= 8 && x < Pow2(n)
    ensures ToBits(x, n) == ToBits(x % 256, 8) + ToBits(x / 256, n - 8)
    ensures x / 256 < Pow2(n - 8)
  {
    hide ToBits, Pow2;
    var eight: nat := 8;
    ToBitsConcat(x, eight, n - 8);
    EightBits(x);
    ToBitsLow(x, eight, eight);
    ShrBelow(x, eight, n - 8);
  }

  lemma EightBits(x: nat)
    ensures Low(x, 8) == x % 256 && Shr(x, 8) == x / 256
  {
    var eight: nat := 8;
    Pow2Values();
    ShlIsProduct(x / 256, eight);
    ShrLowUnique(x, eight, x / 256, x % 256);
  }

  lemma FullWord(x: nat, n: nat, k: nat)
    requires x < Pow2(n + k) && n + k >= 16
    ensures ToBits(x, n + k) == ToBits(Low(x, 16), 16) + ToBits(Shr(x, 16), n + k - 16)
    ensures Low(x, 16) < 65536 && Shr(x, 16) < Pow2(n + k - 16)
  {
    hide ToBits, Pow2, Low, Shr;
    var m: nat := 16;
    Pow2Values();
    ToBitsConcat(x, m, n + k - m);
    ToBitsLow(x, m, m);
    ShrBelow(x, m, n + k - m);
  }

  // What does not fit into the word is the top of the value.
  lemma HighPart(v: nat, w: nat, n: nat, k: nat)
    requires n <= 16 && v < Pow2(n) && w < Pow2(k)
    ensures Shr(v + Shl(w, n), 16) == Shr(w, 16 - n)
  {
    hide Pow2, Shl, Shr;
    ShrOfShl(w, v, n);
    ShrShr(v + Shl(w, n), n, 16 - n);
  }

  lemma PadBits(x: nat, n: nat, pad: nat)
    requires x < Pow2(n)
    ensures ToBits(x, n + pad) == ToBits(x, n) + ToBits(0, pad)
  {
    hide Pow2, ToBits, Shr;
    ToBitsConcat(x, n, pad);
    LowSmall(x, n);
  }

  lemma WindupBits(bytes: Bytes, x: nat, n: nat)
    requires n <= 16 && x < Pow2(n)
    ensures n <= 8 ==> x < 256
    ensures x < 65536
    ensures PadLen(n) == if n > 8 then 16 - n else if n > 0 then 8 - n else 0
    ensures var more := if n > 8 then [x % 256, x / 256] else if n > 0 then [x] else [];
            BytesToBits(bytes + more) + ToBits(0, 0) == BytesToBits(bytes) + ToBits(x, n) + ToBits(0, PadLen(n))
  {
    hide Pow2, ToBits, BytesToBits;
    SmallWord(x, n);
    PadBits(x, n, PadLen(n));
    NoBits(0);
    NoBits(x);
    if n > 8 {
      TwoBytes(bytes, x);
    } else if n > 0 {
      OneByte(bytes, x);
    } else {
      assert bytes + [] == bytes;
    }
  }

  lemma SmallWord(x: nat, n: nat)
    requires x < Pow2(n)
    ensures n <= 8 ==> x < 256
    ensures n <= 16 ==> x < 65536
  {
    hide Pow2;
    Pow2Values();
    if n <= 8 {
      Pow2Monotone(n, 8);
    }
    if n <= 16 {
      Pow2Monotone(n, 16);
    }
  }
}
