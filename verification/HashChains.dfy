/** The dictionary of `deflate`: hash chains threaded through the ring `prev`. `hist` is all input ever
    read and `off` how much of it has left the window, so window index p stands for byte off + p. */
module HashChains {
  import opened Bits
  import opened RollingHash

  const MIN_MATCH: nat := 3
  const MAX_MATCH: nat := 258
  const MIN_LOOKAHEAD: nat := 262

  // The window holds 2 * wSize bytes; the hash has `bits` bits and moves up by `shift` at each byte.
  datatype Geometry = Geometry(wSize: nat, bits: nat, shift: nat)

  predicate GeometryOk(g: Geometry) {
    512 <= g.wSize <= 32768 && 8 <= g.bits <= 16 && 3 * g.shift >= g.bits
  }

  function MaxDist(g: Geometry): nat
    requires GeometryOk(g)
  {
    g.wSize - MIN_LOOKAHEAD
  }

  // The first `end` bytes of the window are the input from byte off on.
  ghost predicate Holds(window: Bytes, hist: Bytes, off: nat, end: nat) {
    end <= |window| && |hist| == off + end && window[..end] == hist[off..]
  }

  // The hash of the three bytes of input from byte a on.
  function HashAt(g: Geometry, hist: Bytes, a: nat): (h: nat)
    requires a + 2 < |hist|
    ensures h < Pow2(g.bits)
  {
    Hash3(hist[a], hist[a + 1], hist[a + 2], g.shift, g.bits)
  }

  // p is a position in the dictionary under hash h.
  ghost predicate Entry(g: Geometry, hist: Bytes, off: nat, ins: set<nat>, p: nat, h: nat) {
    p >= 1 && off + p in ins && off + p + 2 < |hist| && HashAt(g, hist, off + p) == h
  }

  // What a chain link is: the last earlier position under the same hash, or the end if there is none.
  ghost predicate Link(g: Geometry, hist: Bytes, off: nat, ins: set<nat>, q: nat, p: nat, h: nat) {
    (q == 0 || (q < p && Entry(g, hist, off, ins, q, h))) && NoneBetween(g, hist, off, ins, q, p, h)
  }

  ghost predicate NoneBetween(g: Geometry, hist: Bytes, off: nat, ins: set<nat>, q: nat, p: nat, h: nat) {
    forall r :: q < r < p ==> !Entry(g, hist, off, ins, r, h)
  }

  // All positions in the dictionary lie before top. Links are kept for the last wSize positions only.
  ghost predicate Chains(g: Geometry, hist: Bytes, off: nat, ins: set<nat>, head: seq<nat>, prev: seq<nat>, top: nat) {
    && GeometryOk(g) && |head| == Pow2(g.bits) && |prev| == g.wSize && top <= 2 * g.wSize
    && (forall a :: a in ins ==> a < off + top && a + 2 < |hist|)
    && (forall h :: 0 <= h < |head| ==> Link(g, hist, off, ins, head[h], top, h))
    && (forall p :: 0 <= p < top && off + p in ins && p + g.wSize >= top ==> Linked(g, hist, off, ins, prev, p))
    && (forall i :: 0 <= i < |prev| ==> prev[i] == 0 || prev[i] < top)
  }

  ghost predicate Linked(g: Geometry, hist: Bytes, off: nat, ins: set<nat>, prev: seq<nat>, p: nat)
    requires |prev| == g.wSize > 0
  {
    off + p + 2 < |hist| && Link(g, hist, off, ins, prev[p % g.wSize], p, HashAt(g, hist, off + p))
  }

  lemma RingIndex(p: nat, w: nat)
    requires w > 0 && p < 2 * w
    ensures p % w == if p < w then p else p - w
  {
    if p >= w {
      assert (p - w) % w == p - w;
    }
  }

  // ----- inserting a string --------------------------------------------------------------------------------

  // A position at or behind p enters the dictionary, and none under this hash comes before p'.
  lemma LinkMore(g: Geometry, hist: Bytes, off: nat, ins: set<nat>, more: nat, q: nat, p: nat, p': nat, h: nat)
    requires Link(g, hist, off, ins, q, p, h) && p <= p' && off + p <= more
    requires forall r :: p <= r < p' ==> !Entry(g, hist, off, ins + {more}, r, h)
    ensures Link(g, hist, off, ins + {more}, q, p', h)
  {
    hide HashAt;
    forall r | q < r < p'
      ensures !Entry(g, hist, off, ins + {more}, r, h)
    {
      if r < p {
        assert !Entry(g, hist, off, ins, r, h);
      }
    }
  }

  lemma Inserted(g: Geometry, hist: Bytes, off: nat, ins: set<nat>, head: seq<nat>, prev: seq<nat>, s: nat, top: nat)
    requires Chains(g, hist, off, ins, head, prev, top) && top <= s < 2 * g.wSize && off + s + 2 < |hist|
    ensures var h := HashAt(g, hist, off + s);
            && h < |head|
            && Link(g, hist, off, ins, head[h], s, h)
            && s % g.wSize < |prev|
            && Chains(g, hist, off, ins + {off + s}, head[h := s], prev[s % g.wSize := head[h]], s + 1)
  {
    hide HashAt, Pow2;
    var h := HashAt(g, hist, off + s);
    var ins', head', prev' := ins + {off + s}, head[h := s], prev[s % g.wSize := head[h]];
    HashBound(g, hist, off + s);
    forall i | 0 <= i < |head'|
      ensures Link(g, hist, off, ins', head'[i], s + 1, i)
    {
      if i != h {
        LinkMore(g, hist, off, ins, off + s, head[i], top, s + 1, i);
      }
    }
    LinkMore(g, hist, off, ins, off + s, head[h], top, s, h);
    NothingLater(g, hist, off, ins, head[h], top, s, h);
    forall p | 0 <= p < s + 1 && off + p in ins' && p + g.wSize >= s + 1
      ensures Linked(g, hist, off, ins', prev', p)
    {
      if p < s {
        RingIndex(p, g.wSize);
        RingIndex(s, g.wSize);
        assert Linked(g, hist, off, ins, prev, p);
        LinkMore(g, hist, off, ins, off + s, prev[p % g.wSize], p, p, HashAt(g, hist, off + p));
      }
    }
  }

  lemma NothingLater(g: Geometry, hist: Bytes, off: nat, ins: set<nat>, q: nat, p: nat, p': nat, h: nat)
    requires Link(g, hist, off, ins, q, p, h) && p <= p' && forall a :: a in ins ==> a < off + p
    ensures Link(g, hist, off, ins, q, p', h)
  {
    hide HashAt;
    forall r | q < r < p'
      ensures !Entry(g, hist, off, ins, r, h)
    {
      assert r < p ==> !Entry(g, hist, off, ins, r, h);
    }
  }

  lemma HashBound(g: Geometry, hist: Bytes, a: nat)
    requires a + 2 < |hist|
    ensures HashAt(g, hist, a) < Pow2(g.bits)
  {
  }

  // ----- more input -------------------------------------------------------------------------------------------

  lemma HashKept(g: Geometry, hist: Bytes, more: Bytes, a: nat)
    requires a + 2 < |hist|
    ensures HashAt(g, hist + more, a) == HashAt(g, hist, a)
  {
  }

  lemma LinkKept(g: Geometry, hist: Bytes, more: Bytes, off: nat, ins: set<nat>, q: nat, p: nat, h: nat)
    requires Link(g, hist, off, ins, q, p, h) && forall a :: a in ins ==> a + 2 < |hist|
    ensures Link(g, hist + more, off, ins, q, p, h)
  {
    hide HashAt;
    if q != 0 {
      HashKept(g, hist, more, off + q);
    }
    forall r | q < r < p
      ensures !Entry(g, hist + more, off, ins, r, h)
    {
      assert !Entry(g, hist, off, ins, r, h);
      if off + r in ins {
        HashKept(g, hist, more, off + r);
      }
    }
  }

  lemma Extended(g: Geometry, hist: Bytes, more: Bytes, off: nat, ins: set<nat>, head: seq<nat>, prev: seq<nat>, top: nat)
    requires Chains(g, hist, off, ins, head, prev, top)
    ensures Chains(g, hist + more, off, ins, head, prev, top)
  {
    hide HashAt, Pow2, Link;
    forall h | 0 <= h < |head|
      ensures Link(g, hist + more, off, ins, head[h], top, h)
    {
      LinkKept(g, hist, more, off, ins, head[h], top, h);
    }
    forall p | 0 <= p < top && off + p in ins && p + g.wSize >= top
      ensures Linked(g, hist + more, off, ins, prev, p)
    {
      assert Linked(g, hist, off, ins, prev, p);
      HashKept(g, hist, more, off + p);
      LinkKept(g, hist, more, off, ins, prev[p % g.wSize], p, HashAt(g, hist, off + p));
    }
  }

  lemma Later(g: Geometry, hist: Bytes, off: nat, ins: set<nat>, head: seq<nat>, prev: seq<nat>, top: nat, top': nat)
    requires Chains(g, hist, off, ins, head, prev, top) && top <= top' <= 2 * g.wSize
    ensures Chains(g, hist, off, ins, head, prev, top')
  {
    hide HashAt, Pow2, Linked, Link;
    forall h | 0 <= h < |head|
      ensures Link(g, hist, off, ins, head[h], top', h)
    {
      NothingLater(g, hist, off, ins, head[h], top, top', h);
    }
  }

  // ----- sliding the window --------------------------------------------------------------------------------------

  function SlidOne(m: nat, w: nat): nat {
    if m >= w then m - w else 0
  }

  function Slid(s: seq<nat>, w: nat): (r: seq<nat>)
    ensures |r| == |s| && forall i :: 0 <= i < |s| ==> r[i] == SlidOne(s[i], w)
  {
    seq(|s|, i requires 0 <= i < |s| => SlidOne(s[i], w))
  }

  lemma LinkSlid(g: Geometry, hist: Bytes, off: nat, ins: set<nat>, q: nat, p: nat, h: nat)
    requires Link(g, hist, off, ins, q, p, h) && p >= g.wSize
    ensures Link(g, hist, off + g.wSize, ins, SlidOne(q, g.wSize), p - g.wSize, h)
  {
    hide HashAt;
    var w := g.wSize;
    if q > w {
      assert off + w + (q - w) == off + q;
    }
    var off' := off + w;
    forall r | SlidOne(q, w) < r < p - w
      ensures !Entry(g, hist, off', ins, r, h)
    {
      assert off' + r == off + (r + w);
      assert !Entry(g, hist, off, ins, r + w, h);
    }
  }

  lemma ChainsSlid(g: Geometry, hist: Bytes, off: nat, ins: set<nat>, head: seq<nat>, prev: seq<nat>, top: nat)
    requires Chains(g, hist, off, ins, head, prev, top) && top >= g.wSize
    ensures Chains(g, hist, off + g.wSize, ins, Slid(head, g.wSize), Slid(prev, g.wSize), top - g.wSize)
  {
    hide HashAt, Pow2, Link, Entry;
    var w := g.wSize;
    var head', prev' := Slid(head, w), Slid(prev, w);
    forall h | 0 <= h < |head'|
      ensures Link(g, hist, off + w, ins, head'[h], top - w, h)
    {
      LinkSlid(g, hist, off, ins, head[h], top, h);
    }
    var off' := off + w;
    forall p | 0 <= p < top - w && off' + p in ins && p + w >= top - w
      ensures Linked(g, hist, off', ins, prev', p)
    {
      assert off' + p == off + (p + w);
      assert Linked(g, hist, off, ins, prev, p + w);
      RingIndex(p, w);
      RingIndex(p + w, w);
      LinkSlid(g, hist, off, ins, prev[(p + w) % w], p + w, HashAt(g, hist, off + (p + w)));
    }
  }

  lemma Cleared(g: Geometry, hist: Bytes, off: nat, head: seq<nat>, prev: seq<nat>, top: nat)
    requires GeometryOk(g) && |head| == Pow2(g.bits) && |prev| == g.wSize && top <= 2 * g.wSize
    requires (forall h :: 0 <= h < |head| ==> head[h] == 0) && forall i :: 0 <= i < |prev| ==> prev[i] == 0 || prev[i] < top
    ensures Chains(g, hist, off, {}, head, prev, top)
  {
  }
}
