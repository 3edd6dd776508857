/** Which tokens the compression functions choose: what each search comes to, and what follows from it for the token that
    is sent, greedily at the lower levels and lazily at the higher ones. */
module Parsing {
  import opened Bits
  import opened RollingHash
  import opened HashChains
  import opened Matching
  import opened BlockCode
  import T = Trees

  const Z_FILTERED := 1
  const Z_HUFFMAN_ONLY := T.Z_HUFFMAN_ONLY
  const Z_RLE := 3

  // What is settled for a stream: the window, the parameters of the level, the strategy, and whether matching is lazy.
  datatype Rules = Rules(g: Geometry, cfg: Config, strategy: nat, lazy: bool)

  // A search for the string at byte `at`, with the input read up to byte `seen`, the window from byte `low` on and the
  // strings at the bytes of `dict` in the dictionary: the candidates looked at, how many bytes it found in common, where,
  // and what is made of it. `prev` is the length of the match held back.
  datatype Look = Look(at: nat, low: nat, seen: nat, dict: set<nat>, prev: nat, cands: seq<nat>, raw: nat, start: int, len: nat)

  // ----- one search -------------------------------------------------------------------------------------------------

  // How many candidates may be looked at: none if nothing is to be searched, a quarter behind a good match.
  function Allowance(r: Rules, prev: nat): nat {
    if r.strategy == Z_HUFFMAN_ONLY || (r.lazy && prev >= r.cfg.maxLazy) then 0
    else if r.strategy == Z_RLE then 1
    else if prev >= r.cfg.goodLength then r.cfg.maxChain / 4
    else r.cfg.maxChain
  }

  // Byte a is near enough to start a match at byte b.
  predicate Near(r: Rules, a: nat, b: nat) {
    GeometryOk(r.g) && a < b && if r.strategy == Z_RLE then a + 1 == b else b - a < r.g.wSize - (MAX_MATCH + MIN_MATCH + 1)
  }

  // There is a string of three bytes, under the same hash.
  predicate Alike(r: Rules, hist: Bytes, a: nat, b: nat) {
    a + 2 < |hist| && b + 2 < |hist| && HashAt(r.g, hist, a) == HashAt(r.g, hist, b)
  }

  // The candidates are strings of the dictionary within reach, and all that are near unless there are as many newer ones
  // as may be looked at.
  ghost predicate CandsOk(r: Rules, hist: Bytes, look: Look) {
    && GeometryOk(r.g) && |look.cands| <= Allowance(r, look.prev) && (look.cands != [] ==> look.at + 2 < look.seen)
    && (forall c :: c in look.cands ==> c in look.dict && c < look.at <= c + MaxDist(r.g) && Alike(r, hist, c, look.at))
    && (look.at + 2 < look.seen ==>
          forall a :: a in look.dict && look.low < a && Near(r, a, look.at) && Alike(r, hist, a, look.at) ==> Listed(r, look, a))
  }

  ghost predicate Listed(r: Rules, look: Look, a: nat) {
    a in look.cands || (|look.cands| == Allowance(r, look.prev) && forall c :: c in look.cands ==> c > a)
  }

  // How many bytes the string has in common with the one at byte a, in the input read so far.
  ghost function Shared(hist: Bytes, look: Look, a: nat): (n: nat)
    ensures n <= MAX_MATCH
  {
    if a < look.at && look.seen <= |hist| then Common(hist[..look.seen], a, look.at) else 0
  }

  // No candidate has more in common with the string than was found, or than the match held back.
  ghost predicate Best(hist: Bytes, look: Look) {
    forall c :: c in look.cands ==> Shared(hist, look, c) <= if look.raw > look.prev then look.raw else look.prev
  }

  // What is found is a match with a candidate, and none of them is better unless it is long enough for the level.
  ghost predicate RawOk(r: Rules, hist: Bytes, look: Look) {
    && look.at < look.seen <= |hist| && CandsOk(r, hist, look)
    && (look.raw >= r.cfg.niceLength || Best(hist, look))
    && (look.cands == [] ==> look.raw < MIN_MATCH)
    && (look.raw >= MIN_MATCH && look.raw > look.prev ==>
          && look.start >= 0 && look.start in look.cands && GoodMatch(r.g, hist[..look.seen], look.start, look.at, look.raw)
          && Nearest(r, hist, look))
  }

  // Nearer candidates have less in common with the string, and too little for the level to stop there.
  ghost predicate Nearest(r: Rules, hist: Bytes, look: Look) {
    forall c :: c in look.cands && c > look.start ==>
      Shared(hist, look, c) <= look.prev || (Shared(hist, look, c) < look.raw && Shared(hist, look, c) < r.cfg.niceLength)
  }

  // Lazy matching makes nothing of a short match when the input is filtered, nor of three bytes far away.
  function Kept(r: Rules, at: nat, raw: nat, start: int): nat {
    if r.lazy && raw <= 5 && (r.strategy == Z_FILTERED || (raw == MIN_MATCH && (at - start) % 0x1_0000_0000 > 4096)) then MIN_MATCH - 1
    else raw
  }

  ghost predicate LookOk(r: Rules, hist: Bytes, look: Look) {
    RawOk(r, hist, look) && look.len == Kept(r, look.at, look.raw, look.start)
  }

  // It beats the match held back, if there is one.
  predicate Beats(look: Look) {
    look.prev < MIN_MATCH || look.len > look.prev
  }

  lemma RawLength(r: Rules, hist: Bytes, look: Look, len: nat)
    requires RawOk(r, hist, look)
    ensures RawOk(r, hist, look.(len := len))
  {
    hide Allowance, Common, GoodMatch, HashAt;
    var look' := look.(len := len);
    forall a | look.at + 2 < look.seen && a in look.dict && look.low < a && Near(r, a, look.at) && Alike(r, hist, a, look.at)
      ensures Listed(r, look', a)
    {
      assert Listed(r, look, a);
    }
    forall c | c in look'.cands
      ensures Shared(hist, look', c) == Shared(hist, look, c)
    {
    }
  }

  lemma RawKept(r: Rules, hist: Bytes, more: Bytes, look: Look)
    requires RawOk(r, hist, look)
    ensures RawOk(r, hist + more, look)
  {
    hide HashAt, Common, GoodMatch, Allowance;
    assert (hist + more)[..look.seen] == hist[..look.seen];
    forall a: nat | a + 2 < |hist|
      ensures HashAt(r.g, hist + more, a) == HashAt(r.g, hist, a)
    {
      HashKept(r.g, hist, more, a);
    }
    if look.at + 2 < look.seen {
      forall a | a in look.dict && look.low < a && Near(r, a, look.at) && Alike(r, hist + more, a, look.at)
        ensures Listed(r, look, a)
      {
        assert Alike(r, hist, a, look.at);
      }
    }
  }

  lemma MatchOf(r: Rules, hist: Bytes, look: Look)
    requires LookOk(r, hist, look) && look.len >= MIN_MATCH && Beats(look)
    ensures look.raw == look.len && look.start >= 0 && look.start in look.cands && GoodMatch(r.g, hist, look.start, look.at, look.len)
  {
    hide Common, CandsOk, GoodMatch;
    MatchThere(r.g, hist, look.seen, look.start, look.at, look.len);
  }

  lemma MatchThere(g: Geometry, hist: Bytes, seen: nat, a: int, b: nat, n: nat)
    requires seen <= |hist| && GoodMatch(g, hist[..seen], a, b, n)
    ensures GoodMatch(g, hist, a, b, n)
  {
    forall i | 0 <= i < n
      ensures EqualAt(hist, a, b, i)
    {
      assert EqualAt(hist[..seen], a, b, i);
    }
  }

  // ----- from the search to the look --------------------------------------------------------------------------------

  // Positions in the window as bytes of the input.
  function Shifted(c: seq<nat>, off: nat): (d: seq<nat>)
    ensures |d| == |c| && forall i :: 0 <= i < |c| ==> d[i] == off + c[i]
  {
    seq(|c|, i requires 0 <= i < |c| => off + c[i])
  }

  // There is nothing to look at: too little input, nothing to be searched, no string under the hash, or none near enough.
  lemma EmptyLook(r: Rules, hist: Bytes, off: nat, ins: set<nat>, s: nat, lookahead: nat, hashHead: nat, prev: nat, raw: nat, start: int, len: nat)
    requires GeometryOk(r.g) && |hist| == off + s + lookahead && lookahead >= 1 && raw < MIN_MATCH
    requires lookahead >= MIN_MATCH && Allowance(r, prev) > 0 ==>
               && Link(r.g, hist, off, ins, hashHead, s, HashAt(r.g, hist, off + s))
               && (hashHead == 0 || hashHead > s || s - hashHead > MaxDist(r.g) || (r.strategy == Z_RLE && s - hashHead != 1))
    ensures RawOk(r, hist, Look(off + s, off, |hist|, ins, prev, [], raw, start, len))
  {
    hide HashAt, Allowance, Shared;
    var look := Look(off + s, off, |hist|, ins, prev, [], raw, start, len);
    forall a | look.at + 2 < look.seen && a in look.dict && look.low < a && Near(r, a, look.at) && Alike(r, hist, a, look.at)
      ensures Listed(r, look, a)
    {
      assert off + (a - off) == a;
      assert Allowance(r, prev) > 0 ==> Entry(r.g, hist, off, ins, a - off, HashAt(r.g, hist, off + s));
    }
  }

  lemma {:induction false} ChainSize(prev: seq<nat>, p: nat, limit: nat, n: nat)
    requires prev != []
    ensures |Chain(prev, p, limit, n)| <= n && (n > 0 ==> |Chain(prev, p, limit, n)| > 0)
    decreases n
  {
    if n > 0 && prev[p % |prev|] > limit {
      ChainSize(prev, prev[p % |prev|], limit, n - 1);
    }
  }

  // What longest_match comes to.
  lemma ChainLook(r: Rules, window: Bytes, hist: Bytes, off: nat, ins: set<nat>, head: seq<nat>, prev: seq<nat>, s: nat, lookahead: nat,
      hashHead: nat, prevLength: nat, limit: nat, chain: seq<nat>, raw: nat, start: int, len: nat)
    requires Searching(r.g, window, hist, off, ins, head, prev, s, lookahead) && lookahead >= MIN_MATCH && |hist| == off + s + lookahead
    requires GeometryOk(r.g) && hashHead != 0 && hashHead <= s && s - hashHead <= MaxDist(r.g) && Candidate(r.g, hist, off, ins, s, lookahead, hashHead)
    requires Link(r.g, hist, off, ins, hashHead, s, HashAt(r.g, hist, off + s)) && s + MAX_MATCH <= |window|
    requires limit == (if s > MaxDist(r.g) then s - MaxDist(r.g) else 0) && |prev| > 0 && Allowance(r, prevLength) > 0 && r.strategy != Z_RLE
    requires chain == Chain(prev, hashHead, limit, Allowance(r, prevLength)) && raw <= lookahead
    requires raw >= r.cfg.niceLength || raw == lookahead || (raw >= prevLength && NoneBetter(window, s, chain, raw))
    requires raw > prevLength && raw >= MIN_MATCH ==>
               && start in chain && GoodMatch(r.g, hist, off + start, off + s, raw)
               && Foremost(window, s, chain, start, prevLength, if raw < r.cfg.niceLength then raw else r.cfg.niceLength)
    ensures RawOk(r, hist, Look(off + s, off, |hist|, ins, prevLength, Shifted(chain, off), raw, off + start, len))
  {
    hide HashAt, Allowance, Agree, GoodMatch, Searching, Candidate, Chain, Link, CandsOk, Common, Best, Nearest, Foremost;
    var look := Look(off + s, off, |hist|, ins, prevLength, Shifted(chain, off), raw, off + start, len);
    assert hist[..|hist|] == hist;
    ChainSize(prev, hashHead, limit, Allowance(r, prevLength));
    ChainCands(r, window, hist, off, ins, head, prev, s, lookahead, hashHead, limit, chain, look);
    ChainBest(r, window, hist, off, ins, head, prev, s, lookahead, chain, look);
    if raw > prevLength && raw >= MIN_MATCH {
      var i :| 0 <= i < |chain| && chain[i] == start;
      assert Shifted(chain, off)[i] == off + start;
      ChainNearest(r, window, hist, off, ins, head, prev, s, lookahead, hashHead, limit, chain, start, look);
    }
  }

  lemma ChainCands(r: Rules, window: Bytes, hist: Bytes, off: nat, ins: set<nat>, head: seq<nat>, prev: seq<nat>, s: nat, lookahead: nat,
      hashHead: nat, limit: nat, chain: seq<nat>, look: Look)
    requires Searching(r.g, window, hist, off, ins, head, prev, s, lookahead) && lookahead >= MIN_MATCH && |hist| == off + s + lookahead
    requires GeometryOk(r.g) && hashHead <= s && s - hashHead <= MaxDist(r.g) && Candidate(r.g, hist, off, ins, s, lookahead, hashHead)
    requires Link(r.g, hist, off, ins, hashHead, s, HashAt(r.g, hist, off + s)) && r.strategy != Z_RLE
    requires limit == (if s > MaxDist(r.g) then s - MaxDist(r.g) else 0) && |prev| > 0
    requires chain == Chain(prev, hashHead, limit, Allowance(r, look.prev)) && |chain| <= Allowance(r, look.prev)
    requires look.at == off + s && look.low == off && look.seen == |hist| && look.dict == ins && look.cands == Shifted(chain, off)
    ensures CandsOk(r, hist, look)
  {
    hide HashAt, Allowance, Searching, Candidate, Chain, Link, Alike, Near, Listed;
    forall c | c in look.cands
      ensures c in look.dict && c < look.at <= c + MaxDist(r.g) && Alike(r, hist, c, look.at)
    {
      var i :| 0 <= i < |chain| && c == off + chain[i];
      ChainCand(r, window, hist, off, ins, head, prev, s, lookahead, hashHead, limit, Allowance(r, look.prev), i);
    }
    forall a | a in look.dict && look.low < a && Near(r, a, look.at) && Alike(r, hist, a, look.at)
      ensures Listed(r, look, a)
    {
      ChainMember(r, window, hist, off, ins, head, prev, s, lookahead, hashHead, limit, Allowance(r, look.prev), a);
      ListedFrom(r, look, off, chain, a - off);
    }
  }

  lemma ChainCand(r: Rules, window: Bytes, hist: Bytes, off: nat, ins: set<nat>, head: seq<nat>, prev: seq<nat>, s: nat, lookahead: nat,
      hashHead: nat, limit: nat, n: nat, i: nat)
    requires Searching(r.g, window, hist, off, ins, head, prev, s, lookahead) && lookahead >= MIN_MATCH && |hist| == off + s + lookahead
    requires GeometryOk(r.g) && s - hashHead <= MaxDist(r.g) && Candidate(r.g, hist, off, ins, s, lookahead, hashHead)
    requires limit >= s - MaxDist(r.g) && |prev| > 0 && i < |Chain(prev, hashHead, limit, n)|
    ensures var c := off + Chain(prev, hashHead, limit, n)[i];
            c in ins && c < off + s <= c + MaxDist(r.g) && Alike(r, hist, c, off + s)
  {
    hide HashAt, Searching, Candidate, Chain;
    ChainDescends(r.g, window, hist, off, ins, head, prev, s, lookahead, hashHead, limit, n);
    assert Within(r.g, hist, off, ins, s, HashAt(r.g, hist, off + s), Chain(prev, hashHead, limit, n)[i]);
  }

  lemma ChainMember(r: Rules, window: Bytes, hist: Bytes, off: nat, ins: set<nat>, head: seq<nat>, prev: seq<nat>, s: nat, lookahead: nat,
      hashHead: nat, limit: nat, n: nat, a: nat)
    requires Searching(r.g, window, hist, off, ins, head, prev, s, lookahead) && lookahead >= MIN_MATCH && |hist| == off + s + lookahead
    requires GeometryOk(r.g) && hashHead <= s && s - hashHead <= MaxDist(r.g) && Candidate(r.g, hist, off, ins, s, lookahead, hashHead)
    requires Link(r.g, hist, off, ins, hashHead, s, HashAt(r.g, hist, off + s)) && r.strategy != Z_RLE
    requires limit == (if s > MaxDist(r.g) then s - MaxDist(r.g) else 0) && |prev| > 0
    requires a in ins && off < a && Near(r, a, off + s) && Alike(r, hist, a, off + s)
    ensures var c := Chain(prev, hashHead, limit, n);
            a - off in c || (|c| == n && forall k :: k in c ==> k > a - off)
  {
    hide HashAt, Searching, Candidate, Chain;
    assert off + (a - off) == a;
    assert Entry(r.g, hist, off, ins, a - off, HashAt(r.g, hist, off + s));
    ChainReaches(r.g, window, hist, off, ins, head, prev, s, lookahead, hashHead, limit, n, a - off);
  }

  lemma ListedFrom(r: Rules, look: Look, off: nat, chain: seq<nat>, p: nat)
    requires look.cands == Shifted(chain, off)
    requires p in chain || (|chain| == Allowance(r, look.prev) && forall c :: c in chain ==> c > p)
    ensures Listed(r, look, off + p)
  {
    hide Allowance;
    if p in chain {
      var i :| 0 <= i < |chain| && chain[i] == p;
      assert look.cands[i] == off + p;
    } else {
      forall c | c in look.cands
        ensures c > off + p
      {
        var i :| 0 <= i < |look.cands| && look.cands[i] == c;
        assert chain[i] in chain;
      }
    }
  }

  lemma ChainBest(r: Rules, window: Bytes, hist: Bytes, off: nat, ins: set<nat>, head: seq<nat>, prev: seq<nat>, s: nat, lookahead: nat,
      chain: seq<nat>, look: Look)
    requires Searching(r.g, window, hist, off, ins, head, prev, s, lookahead) && |hist| == off + s + lookahead && s + MAX_MATCH <= |window|
    requires look.at == off + s && look.seen == |hist| && look.cands == Shifted(chain, off)
    requires look.raw == lookahead || (look.raw >= look.prev && NoneBetter(window, s, chain, look.raw)) || look.raw >= r.cfg.niceLength
    ensures look.raw >= r.cfg.niceLength || Best(hist, look)
  {
    hide Agree, CommonFrom, Chains;
    assert hist[..|hist|] == hist;
    forall i | 0 <= i < |chain| && look.raw < r.cfg.niceLength
      ensures Shared(hist, look, off + chain[i]) <= if look.raw > look.prev then look.raw else look.prev
    {
      if chain[i] < s {
        CommonShown(window, hist, off, s, lookahead, chain[i], 0);
      }
    }
  }

  lemma {:induction false} FurtherDown(c: seq<nat>, i: nat, j: nat)
    requires Descending(c) && i <= j < |c|
    ensures c[j] <= c[i]
    decreases j
  {
    if i < j {
      FurtherDown(c, i, j - 1);
    }
  }

  // As the chain descends, the first one found is the nearest.
  lemma ChainNearest(r: Rules, window: Bytes, hist: Bytes, off: nat, ins: set<nat>, head: seq<nat>, prev: seq<nat>, s: nat, lookahead: nat,
      hashHead: nat, limit: nat, chain: seq<nat>, start: int, look: Look)
    requires Searching(r.g, window, hist, off, ins, head, prev, s, lookahead) && lookahead >= MIN_MATCH && |hist| == off + s + lookahead
    requires s + MAX_MATCH <= |window| && GeometryOk(r.g) && s - hashHead <= MaxDist(r.g) && |prev| > 0 && limit >= s - MaxDist(r.g)
    requires Candidate(r.g, hist, off, ins, s, lookahead, hashHead) && chain == Chain(prev, hashHead, limit, Allowance(r, look.prev))
    requires look.at == off + s && look.seen == |hist| && look.cands == Shifted(chain, off) && look.start == off + start
    requires Foremost(window, s, chain, start, look.prev, if look.raw < r.cfg.niceLength then look.raw else r.cfg.niceLength)
    ensures Nearest(r, hist, look)
  {
    hide HashAt, Allowance, Agree, Candidate, Chain, CommonFrom, Chains, Holds;
    var least := if look.raw < r.cfg.niceLength then look.raw else r.cfg.niceLength;
    var i :| 0 <= i < |chain| && chain[i] == start && LessBefore(window, s, chain, i, look.prev, least);
    ChainDescends(r.g, window, hist, off, ins, head, prev, s, lookahead, hashHead, limit, Allowance(r, look.prev));
    assert hist[..|hist|] == hist;
    forall c | c in look.cands && c > look.start
      ensures Shared(hist, look, c) <= look.prev || Shared(hist, look, c) < least
    {
      var j :| 0 <= j < |chain| && look.cands[j] == c;
      assert c == off + chain[j] && chain[i] == start;
      if i <= j {
        FurtherDown(chain, i, j);
      }
      if chain[j] < s {
        CommonShown(window, hist, off, s, lookahead, chain[j], 0);
      }
    }
  }

  // And longest_match_fast.
  lemma RunLook(r: Rules, window: Bytes, hist: Bytes, off: nat, ins: set<nat>, head: seq<nat>, prev: seq<nat>, s: nat, lookahead: nat,
      hashHead: nat, prevLength: nat, raw: nat, start: int, len: nat)
    requires Searching(r.g, window, hist, off, ins, head, prev, s, lookahead) && lookahead >= MIN_MATCH && |hist| == off + s + lookahead
    requires GeometryOk(r.g) && s - hashHead == 1 && Candidate(r.g, hist, off, ins, s, lookahead, hashHead) && s + MAX_MATCH <= |window|
    requires Allowance(r, prevLength) == 1 && r.strategy == Z_RLE
    requires var n := Agree(window, hashHead, s, 0);
             raw == if n < MIN_MATCH then MIN_MATCH - 1 else if n <= lookahead then n else lookahead
    requires raw >= MIN_MATCH ==> start == hashHead && GoodMatch(r.g, hist, off + start, off + s, raw)
    ensures RawOk(r, hist, Look(off + s, off, |hist|, ins, prevLength, [off + hashHead], raw, off + start, len))
  {
    hide HashAt, Allowance, Agree, GoodMatch, Chains, CommonFrom;
    assert hist[..|hist|] == hist;
    CommonShown(window, hist, off, s, lookahead, hashHead, 0);
  }

  // ----- one token --------------------------------------------------------------------------------------------------

  // Why a token was sent: what was found at its first byte, and, in lazy matching, at the next byte.
  datatype Note = Plain(look: Look) | Compared(look: Look, next: Look)

  ghost predicate NoteOk(r: Rules, hist: Bytes, note: Note) {
    && LookOk(r, hist, note.look) && Beats(note.look)
    && (note.Compared? ==> r.lazy && LookOk(r, hist, note.next) && note.next.at == note.look.at + 1 && note.next.prev == note.look.len)
  }

  // A literal is sent if nothing was found, or in lazy matching something better at the next byte; otherwise what was
  // found is sent.
  ghost predicate TokenFits(r: Rules, hist: Bytes, tok: Token, note: Note) {
    && NoteOk(r, hist, note)
    && if tok.dist == 0 then
         && note.look.at < |hist| && tok.lc == hist[note.look.at]
         && (note.look.len < MIN_MATCH || (note.Compared? && note.next.len > note.look.len))
       else
         && note.look.len == tok.lc + 3 && note.look.start == note.look.at - tok.dist
         && (r.lazy ==> note.Compared? && note.next.len <= note.look.len)
  }

  lemma TokenKept(r: Rules, hist: Bytes, more: Bytes, tok: Token, note: Note)
    requires TokenFits(r, hist, tok, note)
    ensures TokenFits(r, hist + more, tok, note)
  {
    hide RawOk, Kept;
    RawKept(r, hist, more, note.look);
    if note.Compared? {
      RawKept(r, hist, more, note.next);
    }
  }

  // ----- all tokens -------------------------------------------------------------------------------------------------

  function Size(tok: Token): (n: nat)
    ensures n >= 1
  {
    if tok.dist == 0 then 1 else tok.lc + 3
  }

  function Span(toks: seq<Token>): nat {
    if toks == [] then 0 else Span(toks[..|toks| - 1]) + Size(toks[|toks| - 1])
  }

  // The tokens lie behind each other from the first byte of the input to byte cov, each sent for its note.
  ghost predicate Lawful(r: Rules, hist: Bytes, cov: nat, told: seq<Token>, notes: seq<Note>) {
    && |notes| == |told| && Span(told) == cov
    && forall i :: 0 <= i < |told| ==> TokenFits(r, hist, told[i], notes[i]) && notes[i].look.at == Span(told[..i])
  }

  lemma NothingTold(r: Rules, hist: Bytes)
    ensures Lawful(r, hist, 0, [], [])
  {
  }

  lemma LawfulMore(r: Rules, hist: Bytes, more: Bytes, cov: nat, told: seq<Token>, notes: seq<Note>)
    requires Lawful(r, hist, cov, told, notes)
    ensures Lawful(r, hist + more, cov, told, notes)
  {
    hide TokenFits, Span;
    forall i | 0 <= i < |told|
      ensures TokenFits(r, hist + more, told[i], notes[i])
    {
      TokenKept(r, hist, more, told[i], notes[i]);
    }
  }

  lemma LawfulStep(r: Rules, hist: Bytes, cov: nat, told: seq<Token>, notes: seq<Note>, tok: Token, note: Note)
    requires Lawful(r, hist, cov, told, notes) && TokenFits(r, hist, tok, note) && note.look.at == cov
    ensures Lawful(r, hist, cov + Size(tok), told + [tok], notes + [note])
  {
    hide TokenFits, Size;
    var told', notes' := told + [tok], notes + [note];
    assert told'[..|told|] == told;
    forall i | 0 <= i < |told'|
      ensures TokenFits(r, hist, told'[i], notes'[i]) && notes'[i].look.at == Span(told'[..i])
    {
      if i < |told| {
        assert told'[..i] == told[..i];
      }
    }
  }

  // ----- what follows for the input -----------------------------------------------------------------------------

  // Three equal bytes are under the same hash.
  lemma SharedAlike(r: Rules, hist: Bytes, look: Look, a: nat)
    requires Shared(hist, look, a) >= MIN_MATCH
    ensures look.at + 2 < look.seen <= |hist| && a < look.at && Alike(r, hist, a, look.at)
  {
    hide CommonFrom, Hash3;
    var h := hist[..look.seen];
    CommonAt(h, a, look.at, 0, 0);
    CommonAt(h, a, look.at, 0, 1);
    CommonAt(h, a, look.at, 0, 2);
  }

  // An earlier string that was in reach of the search.
  ghost predicate Offered(r: Rules, look: Look, a: nat) {
    a in look.dict && look.low < a && Near(r, a, look.at) && (|look.cands| < Allowance(r, look.prev) || exists c :: c in look.cands && c <= a)
  }

  lemma OfferedListed(r: Rules, hist: Bytes, look: Look, a: nat)
    requires LookOk(r, hist, look) && Offered(r, look, a) && Shared(hist, look, a) >= MIN_MATCH
    ensures a in look.cands
  {
    hide Shared, HashAt, GoodMatch, Best, Allowance;
    SharedAlike(r, hist, look, a);
    assert Listed(r, look, a);
  }

  // A search that beats what is held back finds at least what it was offered, or enough for the level.
  lemma FindsWhatIsThere(r: Rules, hist: Bytes, look: Look, a: nat)
    requires LookOk(r, hist, look) && Beats(look) && Offered(r, look, a) && Shared(hist, look, a) >= MIN_MATCH
    ensures look.raw >= r.cfg.niceLength || look.raw >= Shared(hist, look, a)
  {
    hide Shared, CandsOk, GoodMatch, Offered;
    OfferedListed(r, hist, look, a);
  }

  // Greedy matching: at a byte that is sent as a literal no string offered has three bytes in common.
  lemma GreedyLaw(r: Rules, hist: Bytes, cov: nat, told: seq<Token>, notes: seq<Note>, i: nat, a: nat)
    requires Lawful(r, hist, cov, told, notes) && i < |told| && told[i].dist == 0 && !r.lazy && r.cfg.niceLength >= 4
    requires Offered(r, notes[i].look, a)
    ensures notes[i].look.at == Span(told[..i]) && Shared(hist, notes[i].look, a) < MIN_MATCH
  {
    hide Shared, RawOk, Offered, Span;
    var look := notes[i].look;
    assert TokenFits(r, hist, told[i], notes[i]);
    if Shared(hist, look, a) >= MIN_MATCH {
      FindsWhatIsThere(r, hist, look, a);
      assert false;
    }
  }

  // Lazy matching: a byte at which a string offered has four bytes in common is sent as a literal only if a longer match
  // than was found there starts at the next byte.
  lemma LazyLaw(r: Rules, hist: Bytes, cov: nat, told: seq<Token>, notes: seq<Note>, i: nat, a: nat)
    requires Lawful(r, hist, cov, told, notes) && i < |told| && told[i].dist == 0 && r.lazy && r.cfg.niceLength >= 4 && r.strategy != Z_FILTERED
    requires Offered(r, notes[i].look, a) && Shared(hist, notes[i].look, a) >= 4
    ensures notes[i].look.at == Span(told[..i]) && notes[i].Compared?
    ensures var look, next := notes[i].look, notes[i].next;
            && (look.len >= r.cfg.niceLength || look.len >= Shared(hist, look, a))
            && next.len > look.len && GoodMatch(r.g, hist, next.start, look.at + 1, next.len)
  {
    hide Shared, RawOk, Offered, Span, GoodMatch;
    var note := notes[i];
    assert TokenFits(r, hist, told[i], note);
    FindsWhatIsThere(r, hist, note.look, a);
    MatchOf(r, hist, note.next);
  }

  // A pair is a match with a string of the dictionary, and one that none offered beats, unless it is long enough; and
  // in lazy matching nothing longer was found at the next byte.
  lemma PairLaw(r: Rules, hist: Bytes, cov: nat, told: seq<Token>, notes: seq<Note>, i: nat)
    requires Lawful(r, hist, cov, told, notes) && i < |told| && told[i].dist != 0
    ensures var b, n, look := Span(told[..i]), told[i].lc + 3, notes[i].look;
            && look.at == b && GoodMatch(r.g, hist, b - told[i].dist, b, n) && b - told[i].dist in look.dict
            && (n >= r.cfg.niceLength || forall a :: Offered(r, look, a) ==> Shared(hist, look, a) <= n)
            && (r.lazy ==> notes[i].Compared? && notes[i].next.at == b + 1 && notes[i].next.len <= n)
  {
    hide Shared, Offered, Span, GoodMatch, Kept, Best, Allowance;
    var note := notes[i];
    assert TokenFits(r, hist, told[i], note);
    MatchOf(r, hist, note.look);
    forall a | Offered(r, note.look, a)
      ensures note.look.len >= r.cfg.niceLength || Shared(hist, note.look, a) <= note.look.len
    {
      if Shared(hist, note.look, a) > note.look.len {
        FindsWhatIsThere(r, hist, note.look, a);
      }
    }
  }

  // A pair goes to the nearest string there is with as many bytes in common.
  lemma NearestLaw(r: Rules, hist: Bytes, cov: nat, told: seq<Token>, notes: seq<Note>, i: nat, a: nat)
    requires Lawful(r, hist, cov, told, notes) && i < |told| && told[i].dist != 0
    requires Offered(r, notes[i].look, a) && a > Span(told[..i]) - told[i].dist
    ensures Shared(hist, notes[i].look, a) < told[i].lc + 3
  {
    hide Shared, Offered, Span, GoodMatch, CandsOk, Best;
    var look := notes[i].look;
    assert TokenFits(r, hist, told[i], notes[i]);
    if Shared(hist, look, a) >= MIN_MATCH {
      OfferedListed(r, hist, look, a);
    }
  }

  // And there, unless the match held back was long enough not to look, no string offered has more in common.
  lemma NextLaw(r: Rules, hist: Bytes, cov: nat, told: seq<Token>, notes: seq<Note>, i: nat, a: nat)
    requires Lawful(r, hist, cov, told, notes) && i < |told| && told[i].dist != 0 && r.lazy && r.strategy != Z_FILTERED
    requires notes[i].Compared? && Offered(r, notes[i].next, a)
    ensures told[i].lc + 3 >= r.cfg.niceLength || Shared(hist, notes[i].next, a) <= told[i].lc + 3
  {
    hide Shared, Offered, Span, GoodMatch, CandsOk;
    var next, n := notes[i].next, told[i].lc + 3;
    assert TokenFits(r, hist, told[i], notes[i]);
    if Shared(hist, next, a) > n {
      OfferedListed(r, hist, next, a);
    }
  }
}
