/** `gen_codes` and `bi_reverse`: the canonical code of the lengths, ready to be sent. */
module CodeGeneration {
  import opened Bits
  import opened Canonical
  import opened BitLengths

  // The bits still to come go below those already reversed.
  lemma ReverseSplit(c: nat, done: nat, n: nat)
    ensures Reverse(c, done + n) == Shl(Reverse(c, done), n) + Reverse(Shr(c, done), n)
  {
    ReversePrefix(c, n, done);
    ShrLow(Reverse(c, done + n), n);
  }

  lemma ReverseOne(c: nat)
    ensures Reverse(c, 1) == c % 2
  {
  }

  method BiReverse(code0: nat, len0: nat) returns (r: nat)
    requires len0 >= 1
    ensures r == Reverse(code0, len0)
  {
    hide Reverse, Shr, Shl, Pow2;
    var res, code, len := 0, code0, len0;
    assert Shr(code0, 0) == code0 by { ShrNone(code0); }
    EmptyReverse(code0);
    while true
      invariant 1 <= len <= len0
      invariant code == Shr(code0, len0 - len) && res == 2 * Reverse(code0, len0 - len)
      decreases len
    {
      ghost var done := len0 - len;
      res := res + code % 2;
      ReverseSplit(code0, done, 1);
      ReverseOne(code);
      ShlByOne(Reverse(code0, done));
      ShrHalf(code0, done);
      code := code / 2;
      res := 2 * res;
      len := len - 1;
      if len == 0 {
        break;
      }
    }
    r := res / 2;
  }

  lemma ShrNone(x: nat)
    ensures Shr(x, 0) == x
  {
  }

  lemma ShlByOne(x: nat)
    ensures Shl(x, 1) == 2 * x
  {
  }

  // next_code after the first n symbols: where each length's next code is.
  ghost predicate NextCodes(next: seq<nat>, lens: Lens, n: nat)
    requires n <= |lens|
  {
    |next| == MAX_BITS + 1 && forall b :: 1 <= b <= MAX_BITS ==> next[b] == FirstCode(lens, |lens|, b) + Count(lens, n, b)
  }

  // The codes of the first n symbols are in place; nothing else has changed.
  ghost predicate CodesSet(fc0: seq<nat>, fc: seq<nat>, lens: Lens, n: nat) {
    && |fc| == |fc0| >= |lens|
    && (forall s: nat :: s < n && Coded(lens, s) ==> fc[s] == RevCode(lens, s))
    && (forall s: nat :: s < |fc| && !(s < n && Coded(lens, s)) ==> fc[s] == fc0[s])
  }

  lemma FirstCodeFits(lens: Lens, b: nat)
    requires LensOk(lens) && NotOversubscribed(lens) && 1 <= b <= MAX_BITS
    ensures FirstCode(lens, |lens|, b) <= EndCode(lens, |lens|, b) <= Pow2(b) <= 32768
  {
    hide Pow2, Count;
    EndCodeFits(lens, b);
    Pow2Monotone(b, 15);
    Pow2Values();
  }

  lemma NextStep(next: seq<nat>, lens: Lens, n: nat)
    requires n < |lens| && LensOk(lens) && NotOversubscribed(lens) && NextCodes(next, lens, n)
    ensures lens[n] != 0 ==> lens[n] < |next| && next[lens[n]] == Code(lens, n) < 65535 && NextCodes(next[lens[n] := next[lens[n]] + 1], lens, n + 1)
    ensures lens[n] == 0 ==> NextCodes(next, lens, n + 1)
  {
    hide Pow2, Count, FirstCode, EndCode;
    CountSteps(lens, n);
    if lens[n] != 0 {
      FirstCodeFits(lens, lens[n]);
      CodeFits(lens, n);
    }
  }

  lemma CountSteps(lens: Lens, n: nat)
    requires n < |lens|
    ensures forall b: nat :: Count(lens, n + 1, b) == Count(lens, n, b) + if lens[n] == b then 1 else 0
  {
  }

  // The source's counts are 16 bits wide; a code that is not over-subscribed never reaches the limit.
  method GenCodes(fc0: seq<nat>, lens: Lens, maxCode: int, bl: seq<nat>) returns (fc: seq<nat>)
    requires LensOk(lens) && NotOversubscribed(lens) && CountsOf(bl, lens) && bl[0] == 0
    requires |fc0| >= |lens| && -1 <= maxCode < |lens| && forall s :: maxCode < s < |lens| ==> lens[s] == 0
    ensures CodesSet(fc0, fc, lens, |lens|)
  {
    hide CodesSet, Count, FirstCode, EndCode, Kraft, Reverse, Pow2;
    var next: seq<nat> := seq(MAX_BITS + 1, _ => 0);
    var code: nat := 0;
    CodeStart(lens);
    for bits := 1 to MAX_BITS + 1
      invariant |next| == MAX_BITS + 1
      invariant code == FirstCode(lens, |lens|, bits - 1)
      invariant forall b :: 1 <= b < bits ==> next[b] == FirstCode(lens, |lens|, b)
    {
      CodeStep(lens, bl, bits);
      FirstCodeFits(lens, bits);
      code := (2 * (code + bl[bits - 1])) % 65536;
      next := next[bits := code];
    }
    fc := fc0;
    NextStart(next, lens);
    SetStart(fc, lens);
    for n := 0 to maxCode + 1
      invariant NextCodes(next, lens, n) && CodesSet(fc0, fc, lens, n)
    {
      var len := lens[n];
      NextStep(next, lens, n);
      if len == 0 {
        SetSkip(fc0, fc, lens, n);
        continue;
      }
      var r := BiReverse(next[len], len);
      SetStep(fc0, fc, lens, n);
      fc := fc[n := r];
      next := next[len := (next[len] + 1) % 65536];
    }
    SetEnd(fc0, fc, lens, maxCode);
  }

  lemma CodeStart(lens: Lens)
    ensures FirstCode(lens, |lens|, 0) == 0
  {
  }

  lemma CodeStep(lens: Lens, bl: seq<nat>, b: nat)
    requires CountsOf(bl, lens) && bl[0] == 0 && 1 <= b <= MAX_BITS
    ensures FirstCode(lens, |lens|, b) == 2 * (FirstCode(lens, |lens|, b - 1) + bl[b - 1])
  {
    hide Count;
  }

  lemma NextStart(next: seq<nat>, lens: Lens)
    requires |next| == MAX_BITS + 1 && forall b :: 1 <= b <= MAX_BITS ==> next[b] == FirstCode(lens, |lens|, b)
    ensures NextCodes(next, lens, 0)
  {
    hide FirstCode;
  }

  lemma SetStart(fc: seq<nat>, lens: Lens)
    requires |fc| >= |lens|
    ensures CodesSet(fc, fc, lens, 0)
  {
  }

  lemma SetSkip(fc0: seq<nat>, fc: seq<nat>, lens: Lens, n: nat)
    requires CodesSet(fc0, fc, lens, n) && n < |lens| && lens[n] == 0
    ensures CodesSet(fc0, fc, lens, n + 1)
  {
    hide RevCode;
  }

  lemma SetStep(fc0: seq<nat>, fc: seq<nat>, lens: Lens, n: nat)
    requires CodesSet(fc0, fc, lens, n) && n < |lens| && lens[n] != 0
    ensures |fc| >= |lens| && CodesSet(fc0, fc[n := RevCode(lens, n)], lens, n + 1)
  {
    hide RevCode;
  }

  lemma SetEnd(fc0: seq<nat>, fc: seq<nat>, lens: Lens, maxCode: int)
    requires -1 <= maxCode < |lens| && CodesSet(fc0, fc, lens, maxCode + 1) && forall s :: maxCode < s < |lens| ==> lens[s] == 0
    ensures CodesSet(fc0, fc, lens, |lens|)
  {
    hide RevCode;
  }
}
