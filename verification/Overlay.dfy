/** The buffers for tokens lie in the upper three quarters of `pending_buf`: d_buf with two bytes an entry behind the
    first quarter, l_buf with one byte an entry in the last one. The block that is written grows from the bottom, under
    the tokens it is written from. */
module Overlay {
  import opened Bits
  import opened Canonical
  import opened BitOutput
  import opened BlockCode

  function Short(low: byte, high: byte): nat {
    var l: nat, h: nat := low, high;
    l + 256 * h
  }

  // Entry i of both buffers, as it stands in a pending_buf for `size` tokens; an unsigned short has its low byte first.
  function EntryAt(buf: Bytes, size: nat, i: nat): (tok: Token)
    requires |buf| == 4 * size && i < size
  {
    Token(Short(buf[size + 2 * i], buf[size + 2 * i + 1]), buf[3 * size + i])
  }

  // The entries hold the tokens.
  ghost predicate Overlaid(buf: Bytes, size: nat, toks: seq<Token>) {
    && |buf| == 4 * size && |toks| <= size
    && forall i :: 0 <= i < |toks| ==> EntryAt(buf, size, i) == toks[i]
  }

  lemma NothingOverlaid(buf: Bytes, size: nat)
    requires |buf| == 4 * size
    ensures Overlaid(buf, size, [])
  {
  }

  // A token is put down in its three bytes.
  lemma PutDown(buf: Bytes, buf': Bytes, size: nat, toks: seq<Token>, tok: Token)
    requires Overlaid(buf, size, toks) && |toks| < size && tok.dist < 65536 && |buf'| == |buf|
    requires buf'[size + 2 * |toks|] == tok.dist % 256 && buf'[size + 2 * |toks| + 1] == tok.dist / 256 && buf'[3 * size + |toks|] == tok.lc
    requires forall k :: 0 <= k < |buf| && k != size + 2 * |toks| && k != size + 2 * |toks| + 1 && k != 3 * size + |toks| ==> buf'[k] == buf[k]
    ensures Overlaid(buf', size, toks + [tok])
  {
    forall i | 0 <= i <= |toks|
      ensures EntryAt(buf', size, i) == (toks + [tok])[i]
    {
      if i < |toks| {
        assert EntryAt(buf, size, i) == toks[i];
      }
    }
  }

  // An entry is as it was as long as the bytes put end below it.
  lemma StillThere(w: Output, b: Bytes, size: nat, toks: seq<Token>, i: nat)
    requires w.Laid(b) && Overlaid(b, size, toks) && i < |toks| && w.pending <= size + 2 * i
    ensures EntryAt(w.pendingBuf[..], size, i) == toks[i]
  {
    assert EntryAt(b, size, i) == toks[i];
  }

  // When the tokens are sent with these codes, `held` bits behind the start of the buffer, none is overwritten before
  // its turn.
  ghost predicate Spared(held: nat, l: Lens, d: Lens, toks: seq<Token>, size: nat) {
    forall i :: 0 <= i < |toks| ==> Before(held, l, d, toks, i) <= size + 2 * i
  }

  // How many bytes have been put when it is the turn of token i.
  function Before(held: nat, l: Lens, d: Lens, toks: seq<Token>, i: nat): nat
    requires i <= |toks|
  {
    Put(held + |TokensBits(l, d, toks[..i])|)
  }
}
