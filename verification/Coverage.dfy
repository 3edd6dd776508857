/** What the tokens of the current block stand for. */
module Coverage {
  import opened Bits
  import opened HashChains
  import opened Matching
  import opened BlockCode
  import opened TreeCost

  // The tokens expand to the input from byte bs up to byte cov.
  ghost predicate Covered(hist: Bytes, bs: nat, cov: nat, toks: seq<Token>) {
    && bs <= cov <= |hist| && Sendable(toks)
    && Expandable(hist[..bs], toks) && Expand(hist[..bs], toks) == hist[..cov]
  }

  lemma NothingCovered(hist: Bytes, bs: nat)
    requires bs <= |hist|
    ensures Covered(hist, bs, bs, [])
  {
  }

  lemma OneMore(out: Bytes, toks: seq<Token>, tok: Token)
    requires Expandable(out, toks) && TokenOk(Expand(out, toks), tok)
    ensures Expandable(out, toks + [tok]) && Expand(out, toks + [tok]) == ExpandOne(Expand(out, toks), tok)
  {
    assert (toks + [tok])[..|toks|] == toks;
  }

  lemma LiteralCovered(hist: Bytes, bs: nat, cov: nat, toks: seq<Token>)
    requires Covered(hist, bs, cov, toks) && cov < |hist|
    ensures Covered(hist, bs, cov + 1, toks + [Token(0, hist[cov])])
  {
    hide Expand, Expandable;
    OneMore(hist[..bs], toks, Token(0, hist[cov]));
    assert hist[..cov] + [hist[cov]] == hist[..cov + 1];
  }

  lemma MatchCovered(g: Geometry, hist: Bytes, bs: nat, a: int, b: nat, n: nat, toks: seq<Token>)
    requires Covered(hist, bs, b, toks) && GoodMatch(g, hist, a, b, n)
    ensures 0 <= a < b && b - a <= 32768 && MIN_MATCH <= n <= MAX_MATCH && b + n <= |hist|
    ensures Covered(hist, bs, b + n, toks + [Token(b - a, n - 3)])
  {
    hide Expand, Expandable;
    MatchExpands(hist, a, b, n);
    OneMore(hist[..bs], toks, Token(b - a, n - 3));
  }

  lemma CoveredMore(hist: Bytes, more: Bytes, bs: nat, cov: nat, toks: seq<Token>)
    requires Covered(hist, bs, cov, toks)
    ensures Covered(hist + more, bs, cov, toks)
  {
    hide Expand, Expandable;
    assert (hist + more)[..bs] == hist[..bs] && (hist + more)[..cov] == hist[..cov];
  }

  // ----- tokens that do not reach back before byte `from` ---------------------------------------------------------

  lemma {:induction false} CopyBehind(pre: Bytes, out: Bytes, dist: nat, len: nat)
    requires 1 <= dist <= |out|
    ensures CopyFrom(pre + out, dist, len) == pre + CopyFrom(out, dist, len)
    decreases len
  {
    if len > 0 {
      assert (pre + out)[|pre + out| - dist] == out[|out| - dist];
      assert pre + out + [out[|out| - dist]] == pre + (out + [out[|out| - dist]]);
      CopyBehind(pre, out + [out[|out| - dist]], dist, len - 1);
    }
  }

  lemma {:induction false} ExpandBehind(pre: Bytes, out: Bytes, toks: seq<Token>)
    requires Expandable(out, toks)
    ensures Expandable(pre + out, toks) && Expand(pre + out, toks) == pre + Expand(out, toks)
  {
    hide CopyFrom;
    if toks != [] {
      var n := |toks| - 1;
      ExpandBehind(pre, out, toks[..n]);
      var mid, tok := Expand(out, toks[..n]), toks[n];
      if tok.dist == 0 {
        assert pre + mid + [tok.lc] == pre + (mid + [tok.lc]);
      } else {
        CopyBehind(pre, mid, tok.dist, tok.lc + 3);
      }
    }
  }

  // What the tokens stand for on their own, they stand for behind all input before.
  lemma CoveredBehind(hist: Bytes, from: nat, bs: nat, cov: nat, toks: seq<Token>)
    requires from <= bs <= cov <= |hist| && Covered(hist[from..], bs - from, cov - from, toks)
    ensures Covered(hist, bs, cov, toks)
  {
    hide Expand, Expandable;
    ExpandBehind(hist[..from], hist[from..][..bs - from], toks);
    assert hist[..from] + hist[from..][..bs - from] == hist[..bs];
    assert hist[..from] + hist[from..][..cov - from] == hist[..cov];
  }

  lemma MatchBehind(g: Geometry, hist: Bytes, from: nat, a: int, b: nat, n: nat)
    requires GoodMatch(g, hist, a, b, n) && from <= a
    ensures GoodMatch(g, hist[from..], a - from, b - from, n)
  {
    var tail, a1, b1 := hist[from..], a - from, b - from;
    forall i | 0 <= i < n
      ensures EqualAt(tail, a1, b1, i)
    {
      assert EqualAt(hist, a, b, i);
    }
  }

  // A match stays one when more input arrives.
  lemma MatchKept(g: Geometry, hist: Bytes, more: Bytes, a: int, b: nat, n: nat)
    requires GoodMatch(g, hist, a, b, n)
    ensures GoodMatch(g, hist + more, a, b, n)
  {
    forall i | 0 <= i < n
      ensures EqualAt(hist + more, a, b, i)
    {
      assert EqualAt(hist, a, b, i);
    }
  }
}
