/** `longest_match` and `longest_match_fast`: what they return is a match in the input, and the longest one
    among the candidates that the level lets them look at. */
module Matching {
  import opened Bits
  import opened RollingHash
  import opened HashChains
  import opened BlockCode

  // The len bytes from b on repeat those from a on.
  ghost predicate MatchAt(hist: Bytes, a: nat, b: nat, len: nat) {
    a < b && b + len <= |hist| && forall i :: 0 <= i < len ==> EqualAt(hist, a, b, i)
  }

  predicate EqualAt(hist: Bytes, a: nat, b: nat, i: nat)
    requires a <= b && b + i < |hist|
  {
    hist[a + i] == hist[b + i]
  }

  // Copying a match byte by byte reproduces the input.
  lemma {:induction false} MatchExpands(hist: Bytes, a: nat, b: nat, len: nat)
    requires MatchAt(hist, a, b, len)
    ensures CopyFrom(hist[..b], b - a, len) == hist[..b + len]
    decreases len
  {
    if len > 0 {
      assert EqualAt(hist, a, b, 0);
      assert hist[..b] + [hist[a]] == hist[..b + 1];
      var a1, b1 := a + 1, b + 1;
      forall i | 0 <= i < len - 1
        ensures EqualAt(hist, a1, b1, i)
      {
        assert EqualAt(hist, a, b, i + 1);
      }
      MatchExpands(hist, a + 1, b + 1, len - 1);
    }
  }

  // ----- the window and the input -------------------------------------------------------------------------

  lemma WindowByte(window: Bytes, hist: Bytes, off: nat, end: nat, i: nat)
    requires Holds(window, hist, off, end) && i < end
    ensures off + i < |hist| && window[i] == hist[off + i]
  {
    assert window[..end][i] == hist[off..][i];
  }

  ghost predicate SameBytes(window: Bytes, p: nat, s: nat, from: nat, len: nat) {
    p <= s && s + len <= |window| && forall i :: from <= i < len ==> SameByte(window, p, s, i)
  }

  predicate SameByte(window: Bytes, p: nat, s: nat, i: nat)
    requires p <= s && s + i < |window|
  {
    window[p + i] == window[s + i]
  }

  // Two equal bytes and an equal hash make three equal bytes.
  lemma ThirdIsEqual(g: Geometry, window: Bytes, hist: Bytes, off: nat, end: nat, ins: set<nat>, p: nat, s: nat)
    requires GeometryOk(g) && Holds(window, hist, off, end) && s + 2 < end && p < s
    requires Entry(g, hist, off, ins, p, HashAt(g, hist, off + s))
    requires window[p] == window[s] && window[p + 1] == window[s + 1]
    ensures window[p + 2] == window[s + 2]
  {
    hide Hash3;
    WindowByte(window, hist, off, end, p);
    WindowByte(window, hist, off, end, p + 1);
    WindowByte(window, hist, off, end, p + 2);
    WindowByte(window, hist, off, end, s);
    WindowByte(window, hist, off, end, s + 1);
    WindowByte(window, hist, off, end, s + 2);
    ThirdByte(window[s], window[s + 1], window[p + 2], window[s + 2], g.shift, g.bits);
  }

  lemma FoundMatch(window: Bytes, hist: Bytes, off: nat, s: nat, lookahead: nat, p: nat, len: nat, n: nat)
    requires Holds(window, hist, off, s + lookahead) && p < s && SameBytes(window, p, s, 0, len) && n <= len && n <= lookahead
    ensures MatchAt(hist, off + p, off + s, n)
  {
    var a, b := off + p, off + s;
    forall i | 0 <= i < n
      ensures EqualAt(hist, a, b, i)
    {
      assert SameByte(window, p, s, i);
      WindowByte(window, hist, off, s + lookahead, p + i);
      WindowByte(window, hist, off, s + lookahead, s + i);
    }
  }

  // The comparison from the fourth byte on. The end is only looked for at every eighth byte, and the
  // last comparison is of byte 258, which is not part of the match any more.
  method Compare(window: array<byte>, p: nat, s: nat) returns (len: nat)
    requires p <= s && s + MIN_LOOKAHEAD <= window.Length
    ensures MIN_MATCH <= len <= MAX_MATCH && SameBytes(window[..], p, s, MIN_MATCH, len)
    ensures len < MAX_MATCH ==> window[p + len] != window[s + len]
  {
    var k: nat := 2;
    while true
      invariant 2 <= k <= MAX_MATCH && SameBytes(window[..], p, s, MIN_MATCH, k + 1)
      invariant k > 2 && (k - 2) % 8 == 0 ==> k < MAX_MATCH
      decreases MAX_MATCH - k
    {
      k := k + 1;
      assert k <= MAX_MATCH;
      if window[s + k] != window[p + k] {
        break;
      }
      assert SameByte(window[..], p, s, k);
      if (k - 2) % 8 == 0 && k >= MAX_MATCH {
        break;
      }
    }
    len := k;
  }

  // The tuning parameters of a level.
  datatype Config = Config(goodLength: nat, maxLazy: nat, niceLength: nat, maxChain: nat)

  // The n bytes of input from b on may be sent as a match with those from a on.
  ghost predicate GoodMatch(g: Geometry, hist: Bytes, a: int, b: nat, n: nat) {
    && GeometryOk(g) && 0 <= a < b && b - a <= MaxDist(g)
    && MIN_MATCH <= n <= MAX_MATCH && MatchAt(hist, a, b, n)
  }

  // The state of a search for the string at s. With less than three bytes left there is no string, and
  // the search may start anywhere.
  ghost predicate Searching(g: Geometry, window: Bytes, hist: Bytes, off: nat, ins: set<nat>, head: seq<nat>, prev: seq<nat>, s: nat, lookahead: nat) {
    && |window| == 2 * g.wSize && s + MIN_LOOKAHEAD <= |window| && Holds(window, hist, off, s + lookahead)
    && Chains(g, hist, off, ins, head, prev, if lookahead >= MIN_MATCH then s + 1 else s)
  }

  ghost predicate Candidate(g: Geometry, hist: Bytes, off: nat, ins: set<nat>, s: nat, lookahead: nat, p: nat)
    requires |hist| == off + s + lookahead
  {
    p <= s && (lookahead >= MIN_MATCH ==> p < s && Entry(g, hist, off, ins, p, HashAt(g, hist, off + s)))
  }

  // Following a link from a candidate within reach leads to the end or to another candidate.
  lemma NextCandidate(g: Geometry, window: Bytes, hist: Bytes, off: nat, ins: set<nat>, head: seq<nat>, prev: seq<nat>, s: nat, lookahead: nat, p: nat)
    requires Searching(g, window, hist, off, ins, head, prev, s, lookahead) && Candidate(g, hist, off, ins, s, lookahead, p)
    requires s - p <= MaxDist(g)
    ensures p % g.wSize < |prev|
    ensures prev[p % g.wSize] != 0 ==> Candidate(g, hist, off, ins, s, lookahead, prev[p % g.wSize])
    ensures prev[p % g.wSize] != 0 && lookahead >= MIN_MATCH ==> prev[p % g.wSize] < p
  {
    hide HashAt, Pow2;
    RingIndex(p, g.wSize);
    if lookahead >= MIN_MATCH {
      assert Linked(g, hist, off, ins, prev, p);
    }
  }

  // A candidate that beats the best match so far.
  lemma BetterMatch(g: Geometry, window: Bytes, hist: Bytes, off: nat, ins: set<nat>, head: seq<nat>, prev: seq<nat>, s: nat, lookahead: nat, p: nat, len: nat)
    requires Searching(g, window, hist, off, ins, head, prev, s, lookahead) && Candidate(g, hist, off, ins, s, lookahead, p)
    requires s - p <= MaxDist(g) && MIN_MATCH <= len <= MAX_MATCH && SameBytes(window, p, s, MIN_MATCH, len)
    requires window[p] == window[s] && window[p + 1] == window[s + 1]
    ensures lookahead >= MIN_MATCH ==> GoodMatch(g, hist, off + p, off + s, if len <= lookahead then len else lookahead)
  {
    hide HashAt, Pow2, Chains;
    if lookahead >= MIN_MATCH {
      ChainsGeometry(g, hist, off, ins, head, prev, s + 1);
      ThirdIsEqual(g, window, hist, off, s + lookahead, ins, p, s);
      forall i | 0 <= i < len
        ensures SameByte(window, p, s, i)
      {
      }
      FoundMatch(window, hist, off, s, lookahead, p, len, if len <= lookahead then len else lookahead);
    }
  }

  lemma ChainsGeometry(g: Geometry, hist: Bytes, off: nat, ins: set<nat>, head: seq<nat>, prev: seq<nat>, top: nat)
    requires Chains(g, hist, off, ins, head, prev, top)
    ensures GeometryOk(g) && |head| == Pow2(g.bits) && |prev| == g.wSize
  {
    hide Pow2;
  }

  // ----- how good the match is --------------------------------------------------------------------------

  // How many bytes agree, from the k-th on, up to the greatest length of a match.
  function Agree(window: Bytes, p: nat, s: nat, k: nat): (n: nat)
    requires p <= s && s + MAX_MATCH <= |window| && k <= MAX_MATCH
    ensures k <= n <= MAX_MATCH
    decreases MAX_MATCH - k
  {
    if k < MAX_MATCH && window[p + k] == window[s + k] then Agree(window, p, s, k + 1) else k
  }

  lemma {:induction false} AgreeBelow(window: Bytes, p: nat, s: nat, k: nat, d: nat)
    requires p <= s && s + MAX_MATCH <= |window| && k <= d < MAX_MATCH && window[p + d] != window[s + d]
    ensures Agree(window, p, s, k) <= d
    decreases d - k
  {
    if k < d && window[p + k] == window[s + k] {
      AgreeBelow(window, p, s, k + 1, d);
    }
  }

  lemma {:induction false} AgreeAtLeast(window: Bytes, p: nat, s: nat, k: nat, n: nat)
    requires p <= s && s + MAX_MATCH <= |window| && k <= n <= MAX_MATCH && SameBytes(window, p, s, k, n)
    ensures Agree(window, p, s, k) >= n
    decreases n - k
  {
    if k < n {
      assert SameByte(window, p, s, k);
      AgreeAtLeast(window, p, s, k + 1, n);
    }
  }

  // The first n positions of a hash chain from p on, as long as they lie above the limit.
  function Chain(prev: seq<nat>, p: nat, limit: nat, n: nat): (c: seq<nat>)
    requires prev != []
    decreases n
  {
    if n == 0 then [] else
      var q := prev[p % |prev|];
      [p] + if q <= limit then [] else Chain(prev, q, limit, n - 1)
  }

  lemma ChainStep(prev: seq<nat>, p: nat, limit: nat, n: nat, past: seq<nat>)
    requires prev != [] && n >= 1
    ensures var c, q := past + Chain(prev, p, limit, n), prev[p % |prev|];
            && past + [p] <= c
            && (q <= limit || n == 1 ==> c == past + [p])
            && (q > limit ==> c == past + [p] + Chain(prev, q, limit, n - 1))
  {
    var q := prev[p % |prev|];
    var rest := if q <= limit then [] else Chain(prev, q, limit, n - 1);
    assert Chain(prev, p, limit, n) == [p] + rest;
    hide Chain;
    Regroup(past, p, rest);
  }

  lemma Regroup(past: seq<nat>, p: nat, rest: seq<nat>)
    ensures past + ([p] + rest) == past + [p] + rest && past + [p] <= past + ([p] + rest)
  {
  }

  // No position looked at has more bytes in common with s than `best`.
  ghost predicate NoneBetter(window: Bytes, s: nat, seen: seq<nat>, best: nat)
    requires s + MAX_MATCH <= |window|
  {
    forall i :: 0 <= i < |seen| ==> seen[i] <= s && Agree(window, seen[i], s, 0) <= best
  }

  lemma NoneBetterYet(window: Bytes, s: nat, seen: seq<nat>, best: nat, p: nat, best': nat)
    requires s + MAX_MATCH <= |window| && NoneBetter(window, s, seen, best) && best <= best'
    requires p <= s && Agree(window, p, s, 0) <= best'
    ensures NoneBetter(window, s, seen + [p], best')
  {
  }

  // Of the positions looked at, `start` is the first with at least `least` bytes in common with s and more than
  // `prevLength`.
  ghost predicate Foremost(window: Bytes, s: nat, seen: seq<nat>, start: int, prevLength: nat, least: nat)
    requires s + MAX_MATCH <= |window|
  {
    exists i :: 0 <= i < |seen| && seen[i] == start && LessBefore(window, s, seen, i, prevLength, least)
  }

  ghost predicate LessBefore(window: Bytes, s: nat, seen: seq<nat>, i: nat, prevLength: nat, least: nat)
    requires s + MAX_MATCH <= |window| && i <= |seen|
  {
    forall j :: 0 <= j < i ==> seen[j] <= s && (Agree(window, seen[j], s, 0) <= prevLength || Agree(window, seen[j], s, 0) < least)
  }

  lemma ForemostNew(window: Bytes, s: nat, past: seq<nat>, p: nat, prevLength: nat, best: nat, least: nat)
    requires s + MAX_MATCH <= |window| && NoneBetter(window, s, past, best) && (best == prevLength || best < least)
    ensures Foremost(window, s, past + [p], p, prevLength, least)
  {
    hide Agree;
    var seen := past + [p];
    assert seen[|past|] == p && LessBefore(window, s, seen, |past|, prevLength, least);
  }

  lemma ForemostStill(window: Bytes, s: nat, past: seq<nat>, seen: seq<nat>, start: int, prevLength: nat, least: nat)
    requires s + MAX_MATCH <= |window| && Foremost(window, s, past, start, prevLength, least) && past <= seen
    ensures Foremost(window, s, seen, start, prevLength, least)
  {
    hide Agree;
    var i :| 0 <= i < |past| && past[i] == start && LessBefore(window, s, past, i, prevLength, least);
    assert seen[i] == start && LessBefore(window, s, seen, i, prevLength, least);
  }

  // The quick tests turn away only candidates that are no better.
  lemma NotBetter(window: Bytes, p: nat, s: nat, best: nat)
    requires p <= s && s + MIN_LOOKAHEAD <= |window| && 1 <= best <= MAX_MATCH
    requires !(window[p + best] == window[s + best] && window[p + best - 1] == window[s + best - 1] && window[p] == window[s] && window[p + 1] == window[s + 1])
    ensures Agree(window, p, s, 0) <= best
  {
    hide Agree;
    if window[p] != window[s] {
      AgreeBelow(window, p, s, 0, 0);
    } else if window[p + 1] != window[s + 1] {
      AgreeBelow(window, p, s, 0, 1);
    } else if window[p + best - 1] != window[s + best - 1] {
      AgreeBelow(window, p, s, 0, best - 1);
    } else if best < MAX_MATCH {
      AgreeBelow(window, p, s, 0, best);
    }
  }

  // A position that may be compared with s.
  ghost predicate Within(g: Geometry, hist: Bytes, off: nat, ins: set<nat>, s: nat, h: nat, p: nat)
    requires GeometryOk(g)
  {
    p < s <= p + MaxDist(g) && Entry(g, hist, off, ins, p, h)
  }

  ghost predicate Descending(c: seq<nat>) {
    forall i :: 1 <= i < |c| ==> c[i] < c[i - 1]
  }

  // Every position followed from a candidate lies before s and within reach, its three bytes have the hash of
  // those at s, and the chain only leads further back.
  lemma {:induction false} ChainDescends(g: Geometry, window: Bytes, hist: Bytes, off: nat, ins: set<nat>, head: seq<nat>, prev: seq<nat>,
      s: nat, lookahead: nat, p: nat, limit: nat, n: nat)
    requires Searching(g, window, hist, off, ins, head, prev, s, lookahead) && lookahead >= MIN_MATCH
    requires Candidate(g, hist, off, ins, s, lookahead, p) && s - p <= MaxDist(g) && limit >= s - MaxDist(g)
    ensures |prev| == g.wSize && |hist| == off + s + lookahead && Descending(Chain(prev, p, limit, n))
    ensures forall i :: 0 <= i < |Chain(prev, p, limit, n)| ==> Within(g, hist, off, ins, s, HashAt(g, hist, off + s), Chain(prev, p, limit, n)[i])
    decreases n
  {
    hide HashAt, Pow2, Entry, Holds, Chains, Searching;
    SearchBounds(g, window, hist, off, ins, head, prev, s, lookahead);
    if n > 0 {
      var q := prev[p % |prev|];
      NextCandidate(g, window, hist, off, ins, head, prev, s, lookahead, p);
      if q > limit {
        ChainDescends(g, window, hist, off, ins, head, prev, s, lookahead, q, limit, n - 1);
        var rest := Chain(prev, q, limit, n - 1);
        assert Chain(prev, p, limit, n) == [p] + rest;
        assert n > 1 ==> rest[0] == q;
      }
    }
  }

  // And none is left out: a position in the dictionary under this hash, above the limit, is followed unless the chain has
  // been followed as far as it may.
  lemma {:induction false} ChainReaches(g: Geometry, window: Bytes, hist: Bytes, off: nat, ins: set<nat>, head: seq<nat>, prev: seq<nat>,
      s: nat, lookahead: nat, p: nat, limit: nat, n: nat, r: nat)
    requires Searching(g, window, hist, off, ins, head, prev, s, lookahead) && lookahead >= MIN_MATCH && |hist| == off + s + lookahead
    requires Candidate(g, hist, off, ins, s, lookahead, p) && s - p <= MaxDist(g) && limit >= s - MaxDist(g) && |prev| > 0
    requires Entry(g, hist, off, ins, r, HashAt(g, hist, off + s)) && limit < r <= p
    ensures r in Chain(prev, p, limit, n) || (|Chain(prev, p, limit, n)| == n && forall c :: c in Chain(prev, p, limit, n) ==> c > r)
    decreases n
  {
    hide HashAt, Pow2, Holds, Chains, Searching, Entry, Candidate;
    SearchBounds(g, window, hist, off, ins, head, prev, s, lookahead);
    if n > 0 && r < p {
      var q := prev[p % |prev|];
      NextCandidate(g, window, hist, off, ins, head, prev, s, lookahead, p);
      NextIsNearest(g, window, hist, off, ins, head, prev, s, lookahead, p, r);
      ChainReaches(g, window, hist, off, ins, head, prev, s, lookahead, q, limit, n - 1, r);
      assert Chain(prev, p, limit, n) == [p] + Chain(prev, q, limit, n - 1);
    }
  }

  lemma NextIsNearest(g: Geometry, window: Bytes, hist: Bytes, off: nat, ins: set<nat>, head: seq<nat>, prev: seq<nat>, s: nat, lookahead: nat, p: nat, r: nat)
    requires Searching(g, window, hist, off, ins, head, prev, s, lookahead) && lookahead >= MIN_MATCH && |hist| == off + s + lookahead
    requires Candidate(g, hist, off, ins, s, lookahead, p) && s - p <= MaxDist(g) && |prev| == g.wSize > 0
    requires Entry(g, hist, off, ins, r, HashAt(g, hist, off + s)) && r < p
    ensures r <= prev[p % g.wSize] && prev[p % g.wSize] < p
  {
    hide HashAt, Pow2;
    assert Linked(g, hist, off, ins, prev, p);
  }

  // ----- matches in the input -------------------------------------------------------------------------------

  // How many bytes the input has in common from byte a and from byte b on, up to the greatest length of a match.
  function Common(hist: Bytes, a: nat, b: nat): (n: nat)
    requires a <= b
    ensures n <= MAX_MATCH
  {
    CommonFrom(hist, a, b, 0)
  }

  function CommonFrom(hist: Bytes, a: nat, b: nat, k: nat): (n: nat)
    requires a <= b && k <= MAX_MATCH
    ensures k <= n <= MAX_MATCH
    decreases MAX_MATCH - k
  {
    if k < MAX_MATCH && b + k < |hist| && hist[a + k] == hist[b + k] then CommonFrom(hist, a, b, k + 1) else k
  }

  // It is the length of the longest match.
  lemma {:induction false} CommonAt(hist: Bytes, a: nat, b: nat, k: nat, i: nat)
    requires a <= b && k <= MAX_MATCH && k <= i < CommonFrom(hist, a, b, k)
    ensures b + i < |hist| && EqualAt(hist, a, b, i)
    decreases MAX_MATCH - k
  {
    if k < i {
      CommonAt(hist, a, b, k + 1, i);
    }
  }

  lemma CommonMatches(hist: Bytes, a: nat, b: nat, n: nat)
    requires a < b <= |hist| && n <= Common(hist, a, b)
    ensures MatchAt(hist, a, b, n)
  {
    hide CommonFrom;
    if n > 0 {
      CommonAt(hist, a, b, 0, n - 1);
    }
    forall i | 0 <= i < n
      ensures EqualAt(hist, a, b, i)
    {
      CommonAt(hist, a, b, 0, i);
    }
  }

  lemma {:induction false} CommonGreatest(hist: Bytes, a: nat, b: nat, n: nat, k: nat)
    requires MatchAt(hist, a, b, n) && k <= n <= MAX_MATCH
    ensures CommonFrom(hist, a, b, k) >= n
    decreases n - k
  {
    if k < n {
      assert EqualAt(hist, a, b, k);
      CommonGreatest(hist, a, b, n, k + 1);
    }
  }

  // What the window shows is this, cut to the lookahead.
  lemma {:induction false} CommonShown(window: Bytes, hist: Bytes, off: nat, s: nat, lookahead: nat, p: nat, k: nat)
    requires Holds(window, hist, off, s + lookahead) && p <= s && s + MAX_MATCH <= |window| && k <= MAX_MATCH && k <= lookahead
    ensures CommonFrom(hist, off + p, off + s, k) == if Agree(window, p, s, k) <= lookahead then Agree(window, p, s, k) else lookahead
    decreases MAX_MATCH - k
  {
    hide Holds;
    if k < MAX_MATCH && k < lookahead {
      WindowByte(window, hist, off, s + lookahead, p + k);
      WindowByte(window, hist, off, s + lookahead, s + k);
      if window[p + k] == window[s + k] {
        CommonShown(window, hist, off, s, lookahead, p, k + 1);
      }
    } else if k == lookahead {
      HeldInput(window, hist, off, s + lookahead);
    }
  }

  lemma HeldInput(window: Bytes, hist: Bytes, off: nat, end: nat)
    requires Holds(window, hist, off, end)
    ensures |hist| == off + end
  {
  }

  // What Compare finds is all that agrees: the third byte does so by its hash.
  lemma AllCompared(g: Geometry, window: Bytes, hist: Bytes, off: nat, ins: set<nat>, head: seq<nat>, prev: seq<nat>, s: nat, lookahead: nat, p: nat, len: nat)
    requires Searching(g, window, hist, off, ins, head, prev, s, lookahead) && Candidate(g, hist, off, ins, s, lookahead, p)
    requires MIN_MATCH <= len <= MAX_MATCH && SameBytes(window, p, s, MIN_MATCH, len) && (len < MAX_MATCH ==> window[p + len] != window[s + len])
    requires window[p] == window[s] && window[p + 1] == window[s + 1] && lookahead >= MIN_MATCH
    ensures Agree(window, p, s, 0) == len
  {
    hide HashAt, Pow2, Chains, Agree;
    ChainsGeometry(g, hist, off, ins, head, prev, s + 1);
    ThirdIsEqual(g, window, hist, off, s + lookahead, ins, p, s);
    forall i | 0 <= i < len
      ensures SameByte(window, p, s, i)
    {
    }
    AgreeAtLeast(window, p, s, 0, len);
    if len < MAX_MATCH {
      AgreeBelow(window, p, s, 0, len);
    }
  }

  // How far the search has come: the best of the positions looked at, if it beats the previous match.
  ghost predicate Progress(g: Geometry, window: Bytes, hist: Bytes, off: nat, s: nat, lookahead: nat, prevLength: nat, past: seq<nat>,
      best: nat, start: int, start0: int, nice: nat)
  {
    && s + MAX_MATCH <= |window| && prevLength <= best <= MAX_MATCH
    && (if best == prevLength then start == start0 else start in past)
    && (lookahead >= MIN_MATCH ==>
          && NoneBetter(window, s, past, best)
          && (best > prevLength ==> Foremost(window, s, past, start, prevLength, if best < nice then best else nice))
          && (best > prevLength ==> GoodMatch(g, hist, off + start, off + s, if best <= lookahead then best else lookahead)))
  }

  lemma NothingSeen(g: Geometry, window: Bytes, hist: Bytes, off: nat, s: nat, lookahead: nat, prevLength: nat, start0: int, nice: nat)
    requires s + MAX_MATCH <= |window| && prevLength <= MAX_MATCH
    ensures Progress(g, window, hist, off, s, lookahead, prevLength, [], prevLength, start0, start0, nice)
  {
  }

  lemma ProgressParts(g: Geometry, window: Bytes, hist: Bytes, off: nat, s: nat, lookahead: nat, prevLength: nat, past: seq<nat>,
      best: nat, start: int, start0: int, nice: nat)
    requires Progress(g, window, hist, off, s, lookahead, prevLength, past, best, start, start0, nice)
    ensures prevLength <= best <= MAX_MATCH
  {
    hide NoneBetter, GoodMatch, Foremost;
  }

  // One round of the search: the quick tests, and the comparison if the candidate passes them.
  method LookAt(g: Geometry, window: array<byte>, p: nat, strstart: nat, lookahead: nat, scanEnd1: byte, scanEnd: byte, bestLen0: nat, matchStart0: int,
      ghost hist: Bytes, ghost off: nat, ghost ins: set<nat>, ghost head: seq<nat>, ghost prev: seq<nat>, ghost prevLength: nat, ghost past: seq<nat>, ghost start0: int, ghost nice: nat)
    returns (bestLen: nat, matchStart: int)
    requires Searching(g, window[..], hist, off, ins, head, prev, strstart, lookahead)
    requires |hist| == off + strstart + lookahead && Candidate(g, hist, off, ins, strstart, lookahead, p)
    requires GeometryOk(g) && strstart - p <= MaxDist(g) && strstart + MIN_LOOKAHEAD <= window.Length && 1 <= prevLength <= bestLen0 <= MAX_MATCH
    requires scanEnd1 == window[strstart + bestLen0 - 1] && scanEnd == window[strstart + bestLen0]
    requires Progress(g, window[..], hist, off, strstart, lookahead, prevLength, past, bestLen0, matchStart0, start0, nice)
    requires bestLen0 == prevLength || bestLen0 < nice
    ensures bestLen0 <= bestLen && Progress(g, window[..], hist, off, strstart, lookahead, prevLength, past + [p], bestLen, matchStart, start0, nice)
  {
    hide Searching, Candidate, GoodMatch, SameBytes, GeometryOk, NoneBetter, Agree, Foremost;
    CandidateBefore(g, hist, off, ins, strstart, lookahead, p);
    bestLen, matchStart := bestLen0, matchStart0;
    if window[p + bestLen] == scanEnd && window[p + bestLen - 1] == scanEnd1 && window[p] == window[strstart] && window[p + 1] == window[strstart + 1] {
      var len := Compare(window, p, strstart);
      BetterMatch(g, window[..], hist, off, ins, head, prev, strstart, lookahead, p, len);
      if lookahead >= MIN_MATCH {
        AllCompared(g, window[..], hist, off, ins, head, prev, strstart, lookahead, p, len);
      }
      if len > bestLen {
        matchStart := p;
        bestLen := len;
      }
    } else {
      NotBetter(window[..], p, strstart, bestLen);
    }
    if lookahead >= MIN_MATCH {
      NoneBetterYet(window[..], strstart, past, bestLen0, p, bestLen);
      if bestLen > bestLen0 {
        ForemostNew(window[..], strstart, past, p, prevLength, bestLen0, if bestLen < nice then bestLen else nice);
      } else if bestLen > prevLength {
        ForemostStill(window[..], strstart, past, past + [p], matchStart, prevLength, if bestLen < nice then bestLen else nice);
      }
    }
  }

  // The match is in the input, and unless it is long enough for the level, no candidate among the first ones
  // of the chain, as many as the level allows, is longer.
  method LongestMatch(g: Geometry, cfg: Config, window: array<byte>, prev: array<nat>, strstart: nat, lookahead: nat, prevLength: nat,
      matchStart0: int, curMatch0: nat, ghost hist: Bytes, ghost off: nat, ghost ins: set<nat>, ghost head: seq<nat>)
    returns (len: nat, matchStart: int, ghost seen: seq<nat>)
    requires Searching(g, window[..], hist, off, ins, head, prev[..], strstart, lookahead)
    requires Candidate(g, hist, off, ins, strstart, lookahead, curMatch0) && strstart - curMatch0 <= MaxDist(g)
    requires 1 <= prevLength <= MAX_MATCH && cfg.maxChain >= 4
    ensures len <= lookahead && len <= MAX_MATCH && (lookahead >= 1 ==> len >= 1)
    ensures len > prevLength && len >= MIN_MATCH ==> GoodMatch(g, hist, off + matchStart, off + strstart, len)
    ensures len == prevLength && lookahead > prevLength ==> matchStart == matchStart0
    ensures strstart + MAX_MATCH <= window.Length && prev.Length > 0
    ensures seen == Chain(prev[..], curMatch0, if strstart > MaxDist(g) then strstart - MaxDist(g) else 0,
                          if prevLength >= cfg.goodLength then cfg.maxChain / 4 else cfg.maxChain)
    ensures lookahead >= MIN_MATCH ==>
              len >= cfg.niceLength || len == lookahead || (len >= prevLength && NoneBetter(window[..], strstart, seen, len))
    ensures len > prevLength ==> matchStart in seen
    ensures len > prevLength && lookahead >= MIN_MATCH ==>
              Foremost(window[..], strstart, seen, matchStart, prevLength, if len < cfg.niceLength then len else cfg.niceLength)
  {
    hide Searching, Candidate, GoodMatch, Chains, Holds, Entry, HashAt, Pow2, GeometryOk, NoneBetter, Foremost, Agree,
      Progress, Chain;
    var chainLength := cfg.maxChain;
    var bestLen := prevLength;
    matchStart := matchStart0;
    SearchBounds(g, window[..], hist, off, ins, head, prev[..], strstart, lookahead);
    var limit := if strstart > MaxDist(g) then strstart - MaxDist(g) else 0;
    var scanEnd1, scanEnd := window[strstart + bestLen - 1], window[strstart + bestLen];
    if prevLength >= cfg.goodLength {
      chainLength := chainLength / 4;
    }
    seen := Chain(prev[..], curMatch0, limit, chainLength);
    var niceMatch := cfg.niceLength;
    if niceMatch > lookahead {
      niceMatch := lookahead;
    }
    var curMatch: nat := curMatch0;
    ghost var past: seq<nat> := [];
    NothingSeen(g, window[..], hist, off, strstart, lookahead, prevLength, matchStart0, niceMatch);
    while true
      invariant Candidate(g, hist, off, ins, strstart, lookahead, curMatch) && strstart - curMatch <= MaxDist(g)
      invariant prevLength <= bestLen <= MAX_MATCH && chainLength >= 1 && (bestLen == prevLength || bestLen < niceMatch)
      invariant scanEnd1 == window[strstart + bestLen - 1] && scanEnd == window[strstart + bestLen]
      invariant seen == past + Chain(prev[..], curMatch, limit, chainLength)
      invariant Progress(g, window[..], hist, off, strstart, lookahead, prevLength, past, bestLen, matchStart, matchStart0, niceMatch)
      decreases chainLength
    {
      var best := bestLen;
      bestLen, matchStart := LookAt(g, window, curMatch, strstart, lookahead, scanEnd1, scanEnd, bestLen, matchStart,
                                    hist, off, ins, head, prev[..], prevLength, past, matchStart0, niceMatch);
      ChainStep(prev[..], curMatch, limit, chainLength, past);
      past := past + [curMatch];
      ProgressParts(g, window[..], hist, off, strstart, lookahead, prevLength, past, bestLen, matchStart, matchStart0, niceMatch);
      if bestLen > best {
        if bestLen >= niceMatch {
          break;
        }
        scanEnd1 := window[strstart + bestLen - 1];
        scanEnd := window[strstart + bestLen];
      }
      NextCandidate(g, window[..], hist, off, ins, head, prev[..], strstart, lookahead, curMatch);
      curMatch := prev[curMatch % g.wSize];
      if curMatch <= limit {
        break;
      }
      chainLength := chainLength - 1;
      if chainLength == 0 {
        break;
      }
    }
    assert past <= seen && (past == seen || bestLen >= niceMatch);
    Concluded(g, window[..], hist, off, strstart, lookahead, prevLength, seen, past, bestLen, matchStart, matchStart0, niceMatch);
    len := if bestLen <= lookahead then bestLen else lookahead;
  }

  lemma Concluded(g: Geometry, window: Bytes, hist: Bytes, off: nat, s: nat, lookahead: nat, prevLength: nat, seen: seq<nat>, past: seq<nat>,
      best: nat, start: int, start0: int, nice: nat)
    requires Progress(g, window, hist, off, s, lookahead, prevLength, past, best, start, start0, nice) && nice <= lookahead
    requires past <= seen && (past == seen || best >= nice)
    ensures prevLength <= best <= MAX_MATCH && s + MAX_MATCH <= |window|
    ensures var len := if best <= lookahead then best else lookahead;
            && (len > prevLength && len >= MIN_MATCH ==> GoodMatch(g, hist, off + start, off + s, len))
            && (len == prevLength && lookahead > prevLength ==> start == start0)
            && (len > prevLength ==> start in seen)
            && (len > prevLength && lookahead >= MIN_MATCH ==> Foremost(window, s, seen, start, prevLength, if len < nice then len else nice))
            && (lookahead >= MIN_MATCH ==> len >= nice || len == lookahead || (len >= prevLength && NoneBetter(window, s, seen, len)))
  {
    hide NoneBetter, GoodMatch, Foremost;
    if best > prevLength && lookahead >= MIN_MATCH {
      ForemostStill(window, s, past, seen, start, prevLength, if best < nice then best else nice);
    }
  }

  lemma SearchBounds(g: Geometry, window: Bytes, hist: Bytes, off: nat, ins: set<nat>, head: seq<nat>, prev: seq<nat>, s: nat, lookahead: nat)
    requires Searching(g, window, hist, off, ins, head, prev, s, lookahead)
    ensures GeometryOk(g) && |prev| == g.wSize && |window| == 2 * g.wSize && s + MIN_LOOKAHEAD <= |window| && |hist| == off + s + lookahead
  {
    hide Pow2;
  }

  lemma CandidateBefore(g: Geometry, hist: Bytes, off: nat, ins: set<nat>, s: nat, lookahead: nat, p: nat)
    requires |hist| == off + s + lookahead && Candidate(g, hist, off, ins, s, lookahead, p)
    ensures p <= s
  {
    hide Entry;
  }

  // The variant for level 1 and for Z_RLE: one candidate only.
  method LongestMatchFast(g: Geometry, window: array<byte>, strstart: nat, lookahead: nat, matchStart0: int, curMatch: nat,
      ghost hist: Bytes, ghost off: nat, ghost ins: set<nat>, ghost head: seq<nat>, ghost prev: seq<nat>)
    returns (len: nat, matchStart: int)
    requires Searching(g, window[..], hist, off, ins, head, prev, strstart, lookahead)
    requires Candidate(g, hist, off, ins, strstart, lookahead, curMatch) && strstart - curMatch <= MaxDist(g)
    ensures len <= MAX_MATCH && (len <= lookahead || len == MIN_MATCH - 1) && (lookahead >= 1 ==> len >= 1)
    ensures len >= MIN_MATCH ==> GoodMatch(g, hist, off + matchStart, off + strstart, len)
    ensures curMatch <= strstart && strstart + MAX_MATCH <= window.Length
    ensures lookahead >= MIN_MATCH ==>
              var n := Agree(window[..], curMatch, strstart, 0);
              len == if n < MIN_MATCH then MIN_MATCH - 1 else if n <= lookahead then n else lookahead
    ensures len >= MIN_MATCH ==> matchStart == curMatch
    ensures len < MIN_MATCH && lookahead >= MIN_MATCH ==> matchStart == matchStart0
  {
    hide Searching, Candidate, GoodMatch, SameBytes, Agree;
    matchStart := matchStart0;
    SearchBounds(g, window[..], hist, off, ins, head, prev, strstart, lookahead);
    CandidateBefore(g, hist, off, ins, strstart, lookahead, curMatch);
    if window[curMatch] != window[strstart] || window[curMatch + 1] != window[strstart + 1] {
      AgreeBelow(window[..], curMatch, strstart, 0, if window[curMatch] != window[strstart] then 0 else 1);
      return MIN_MATCH - 1, matchStart;
    }
    len := Compare(window, curMatch, strstart);
    BetterMatch(g, window[..], hist, off, ins, head, prev, strstart, lookahead, curMatch, len);
    if lookahead >= MIN_MATCH {
      AllCompared(g, window[..], hist, off, ins, head, prev, strstart, lookahead, curMatch, len);
    }
    // the source tests here for a length below MIN_MATCH, which Compare never returns
    matchStart := curMatch;
    len := if len <= lookahead then len else lookahead;
  }
}
