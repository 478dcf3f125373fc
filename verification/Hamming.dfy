/** The Hamming code of libocfs2/blockcheck.c.  Data bit `i` sits at a code
    position that is not a power of two; the parity word is the exclusive or of
    the positions of the set bits. */
module Hamming {
  import opened Words
  import opened Bitops
  import opened Weight
  import HighestBit

  // ---------------------------------------------------------------------
  // Powers of two

  predicate IsPow2(n: nat) {
    n == 1 || (n > 0 && n % 2 == 0 && IsPow2(n / 2))
  }

  lemma {:induction false} Pow2IsPow2(k: nat)
    ensures IsPow2(Pow2(k))
  {
    if k > 0 {
      Pow2IsPow2(k - 1);
    }
  }

  lemma {:induction false} IsPow2Exponent(n: nat) returns (k: nat)
    requires IsPow2(n)
    ensures n == Pow2(k)
  {
    if n == 1 {
      k := 0;
    } else {
      k := IsPow2Exponent(n / 2);
      k := k + 1;
    }
  }

  /** Strictly between two adjacent powers of two there is none. */
  lemma BetweenPowers(c: nat, p: nat)
    requires Pow2(p) < c < Pow2(p + 1)
    ensures !IsPow2(c)
  {
    if IsPow2(c) {
      var k := IsPow2Exponent(c);
      if k <= p {
        Pow2Monotonic(k, p);
      } else {
        Pow2Monotonic(p + 1, k);
      }
    }
  }

  /** Any other position lies strictly between two adjacent powers of two. */
  lemma {:induction false} PowersAround(c: nat) returns (p: nat)
    requires c > 0 && !IsPow2(c)
    ensures Pow2(p) < c < Pow2(p + 1)
    decreases c
  {
    if c == 3 {
      p := 1;
    } else if IsPow2(c / 2) {
      p := IsPow2Exponent(c / 2);
      p := p + 1;
    } else {
      p := PowersAround(c / 2);
      p := p + 1;
    }
  }

  // ---------------------------------------------------------------------
  // Code positions

  /** The least count `q >= p` of parity bits such that data bit `i`, moved up by
      `q`, lies below the next power of two. */
  function ParityFrom(i: nat, p: nat): (q: nat)
    ensures q >= p
    decreases i + 2 - p
  {
    if Pow2(p) < i + p + 2 then ParityFrom(i, p + 1) else p
  }

  function ParityCount(i: nat): nat {
    ParityFrom(i, 0)
  }

  function CodeBit(i: nat): nat {
    i + 1 + ParityCount(i)
  }

  lemma {:induction false} ParityEnough(i: nat, p: nat)
    ensures Pow2(ParityFrom(i, p)) >= i + ParityFrom(i, p) + 2
    decreases i + 2 - p
  {
    if Pow2(p) < i + p + 2 {
      ParityEnough(i, p + 1);
    }
  }

  lemma {:induction false} ParityLeast(i: nat, p: nat, k: nat)
    requires p <= k && Pow2(k) >= i + k + 2
    ensures ParityFrom(i, p) <= k
    decreases i + 2 - p
  {
    if Pow2(p) < i + p + 2 {
      ParityLeast(i, p + 1, k);
    }
  }

  lemma ParityAtMost(i: nat, k: nat)
    requires Pow2(k) >= i + k + 2
    ensures ParityCount(i) <= k
  {
    ParityLeast(i, 0, k);
  }

  /** A valid cached parity count is any that is not too large. */
  lemma ParityFromCache(i: nat, p: nat)
    requires p <= ParityCount(i)
    ensures ParityFrom(i, p) == ParityCount(i)
  {
    ParityEnough(i, 0);
    ParityLeast(i, p, ParityCount(i));
    ParityEnough(i, p);
    ParityAtMost(i, ParityFrom(i, p));
  }

  lemma CodeBitBounds(i: nat)
    ensures ParityCount(i) >= 1
    ensures Pow2(ParityCount(i) - 1) < CodeBit(i) < Pow2(ParityCount(i))
    ensures !IsPow2(CodeBit(i)) && CodeBit(i) >= 3
  {
    var p := ParityCount(i);
    ParityEnough(i, 0);
    if Pow2(p - 1) >= i + (p - 1) + 2 {
      ParityAtMost(i, p - 1);
    }
    BetweenPowers(CodeBit(i), p - 1);
  }

  lemma ParityMonotonic(i: nat, j: nat)
    requires i <= j
    ensures ParityCount(i) <= ParityCount(j)
  {
    ParityEnough(j, 0);
    ParityAtMost(i, ParityCount(j));
  }

  lemma CodeBitIncreasing(i: nat, j: nat)
    requires i < j
    ensures CodeBit(i) < CodeBit(j)
  {
    ParityMonotonic(i, j);
  }

  /** Every position that is not a power of two belongs to a data bit.  With the
      two lemmas before, `CodeBit` is the increasing bijection onto them. */
  lemma DataBitAt(c: nat) returns (i: nat)
    requires c > 0 && !IsPow2(c)
    ensures CodeBit(i) == c
  {
    var p := PowersAround(c);
    assert c >= p + 2;
    i := c - 2 - p;
    ParityAt(i, p + 1);
  }

  /** The parity count is the only one that puts the position between its powers. */
  lemma ParityAt(i: nat, p: nat)
    requires p >= 1 && Pow2(p - 1) < i + 1 + p < Pow2(p)
    ensures ParityCount(i) == p
  {
    ParityAtMost(i, p);
    if ParityCount(i) < p {
      CodeBitBounds(i);
      Pow2Monotonic(ParityCount(i), p - 1);
      Pow2Slow(ParityCount(i), p - 1);
    }
  }

  /** Powers of two grow at least as fast as their exponents. */
  lemma {:induction false} Pow2Slow(a: nat, b: nat)
    requires a <= b
    ensures Pow2(b) - Pow2(a) >= b - a
    decreases b - a
  {
    if a < b {
      Pow2Slow(a, b - 1);
    }
  }

  /** calc_code_bit(): the position of data bit `i`, starting from a cached parity
      count and handing back the new one. */
  method CalcCodeBit(i: nat, cache: nat) returns (b: nat, p: nat)
    requires cache <= ParityCount(i)
    ensures b == CodeBit(i) && p == ParityCount(i)
  {
    p := cache;
    b := i + 1 + p;
    while Pow2(p) < b + 1
      invariant b == i + 1 + p && p <= ParityCount(i)
      decreases ParityCount(i) - p
    {
      ParityEnough(i, 0);
      b := b + 1;
      p := p + 1;
    }
    ParityFromCache(i, p);
  }

  // ---------------------------------------------------------------------
  // Encoding

  /** The parity word of bits `i..d` of a hunk at offset `nr`, added to `parity`. */
  function Encode(parity: nat, buf: seq<Byte>, d: nat, nr: nat, i: nat): nat
    requires d <= 8 * |buf|
    decreases d - i
  {
    if i >= d then parity
    else Encode(if Bit(buf, i) then Xor(parity, CodeBit(nr + i)) else parity, buf, d, nr, i + 1)
  }

  lemma {:induction false} EncodeSkip(parity: nat, buf: seq<Byte>, d: nat, nr: nat, i: nat, j: nat)
    requires d <= 8 * |buf| && i <= j
    requires forall k :: i <= k < j && k < d ==> !Bit(buf, k)
    ensures Encode(parity, buf, d, nr, i) == Encode(parity, buf, d, nr, j)
    decreases j - i
  {
    if i < j && i < d {
      EncodeSkip(parity, buf, d, nr, i + 1, j);
    }
  }

  /** The next set bit at or after `i`, up to which nothing is added to the parity. */
  method NextDataBit(ghost parity: nat, buf: seq<Byte>, d: nat, ghost nr: nat, i: nat) returns (r: nat)
    requires i <= d <= 8 * |buf|
    ensures r < d ==> i <= r && Bit(buf, r)
    ensures Encode(parity, buf, d, nr, i) == Encode(parity, buf, d, nr, r)
  {
    r := FindNextBitSet(buf, d, i);
    EncodeSkip(parity, buf, d, nr, i, NextBit(buf, d, i, true));
  }

  /** ocfs2_hamming_encode(): visits the set bits, keeping the parity count cached. */
  method HammingEncode(start: nat, buf: seq<Byte>, d: nat, nr: nat) returns (parity: nat)
    requires 0 < d <= 8 * |buf|
    ensures parity == Encode(start, buf, d, nr, 0)
  {
    parity := start;
    var p: nat := 0;
    var i := NextDataBit(parity, buf, d, nr, 0);
    while i < d
      invariant i < d ==> Bit(buf, i) && p <= ParityCount(nr + i)
      invariant Encode(start, buf, d, nr, 0) == Encode(parity, buf, d, nr, i)
      decreases d - i
    {
      var b;
      b, p := CalcCodeBit(nr + i, p);
      parity := Xor(parity, b);
      var next := NextDataBit(parity, buf, d, nr, i + 1);
      if next < d {
        ParityMonotonic(nr + i, nr + next);
      }
      i := next;
    }
  }

  /** A prefix of whole bytes contributes what it would on its own, and a suffix
      what it would at its offset. */
  lemma {:induction false} EncodeHunk(parity: nat, a: seq<Byte>, b: seq<Byte>, nr: nat, i: nat)
    requires i <= 8 * |a|
    ensures Encode(parity, a + b, 8 * |a + b|, nr, i)
         == Encode(Encode(parity, a, 8 * |a|, nr, i), a + b, 8 * |a + b|, nr, 8 * |a|)
    decreases 8 * |a| - i
  {
    if i < 8 * |a| {
      assert Bit(a + b, i) == Bit(a, i);
      EncodeHunk(if Bit(a, i) then Xor(parity, CodeBit(nr + i)) else parity, a, b, nr, i + 1);
    }
  }

  lemma {:induction false} EncodeShift(parity: nat, a: seq<Byte>, b: seq<Byte>, nr: nat, i: nat)
    requires i <= 8 * |b|
    ensures Encode(parity, a + b, 8 * |a + b|, nr, 8 * |a| + i)
         == Encode(parity, b, 8 * |b|, nr + 8 * |a|, i)
    decreases 8 * |b| - i
  {
    if i < 8 * |b| {
      assert Bit(a + b, 8 * |a| + i) == Bit(b, i);
      EncodeShift(if Bit(b, i) then Xor(parity, CodeBit(nr + 8 * |a| + i)) else parity, a, b, nr, i + 1);
    }
  }

  /** Encoding byte-aligned hunks one after another encodes the whole. */
  lemma HunksCompose(parity: nat, a: seq<Byte>, b: seq<Byte>, nr: nat)
    ensures Encode(parity, a + b, 8 * |a + b|, nr, 0)
         == Encode(Encode(parity, a, 8 * |a|, nr, 0), b, 8 * |b|, nr + 8 * |a|, 0)
  {
    EncodeHunk(parity, a, b, nr, 0);
    EncodeShift(Encode(parity, a, 8 * |a|, nr, 0), a, b, nr, 0);
  }

  /** The starting parity factors out. */
  lemma {:induction false} EncodeFrom(parity: nat, buf: seq<Byte>, d: nat, nr: nat, i: nat)
    requires d <= 8 * |buf|
    ensures Encode(parity, buf, d, nr, i) == Xor(parity, Encode(0, buf, d, nr, i))
    decreases d - i
  {
    XorZero(parity);
    if i < d {
      if Bit(buf, i) {
        var c := CodeBit(nr + i);
        EncodeFrom(Xor(parity, c), buf, d, nr, i + 1);
        EncodeFrom(Xor(0, c), buf, d, nr, i + 1);
        XorZero(c);
        XorAssoc(parity, c, Encode(0, buf, d, nr, i + 1));
      } else {
        EncodeFrom(parity, buf, d, nr, i + 1);
      }
    }
  }

  lemma XorBoth(c: nat, x: nat, y: nat)
    ensures Xor(Xor(c, x), Xor(c, y)) == Xor(x, y)
  {
    XorComm(c, x);
    XorComm(c, y);
    XorCancel(x, y, c);
  }

  lemma XorTwice(c: nat, x: nat)
    ensures Xor(Xor(c, x), x) == c && Xor(x, Xor(c, x)) == c
  {
    XorCancel(c, 0, x);
    XorZero(x);
    XorZero(c);
    XorComm(Xor(c, x), x);
  }

  /** Two hunks that differ in exactly one bit have parity words that differ in
      exactly that bit's position. */
  lemma {:induction false} EncodeFlip(a: seq<Byte>, b: seq<Byte>, d: nat, nr: nat, i: nat, j: nat)
    requires d <= 8 * |a| && |a| == |b|
    requires i <= j < d && Bit(a, j) != Bit(b, j)
    requires forall k :: 0 <= k < d && k != j ==> Bit(a, k) == Bit(b, k)
    ensures Xor(Encode(0, a, d, nr, i), Encode(0, b, d, nr, i)) == CodeBit(nr + j)
    decreases j - i
  {
    var c := CodeBit(nr + i);
    var x, y := Encode(0, a, d, nr, i + 1), Encode(0, b, d, nr, i + 1);
    XorZero(c);
    EncodeFrom(c, a, d, nr, i + 1);
    EncodeFrom(c, b, d, nr, i + 1);
    if i < j {
      EncodeFlip(a, b, d, nr, i + 1, j);
      XorBoth(c, x, y);
    } else {
      EncodeSame(a, b, d, nr, i + 1);
      XorTwice(c, x);
    }
  }

  lemma {:induction false} EncodeSame(a: seq<Byte>, b: seq<Byte>, d: nat, nr: nat, i: nat)
    requires d <= 8 * |a| && |a| == |b|
    requires forall k :: i <= k < d ==> Bit(a, k) == Bit(b, k)
    ensures forall parity :: Encode(parity, a, d, nr, i) == Encode(parity, b, d, nr, i)
    decreases d - i
  {
    if i < d {
      EncodeSame(a, b, d, nr, i + 1);
    }
  }

  /** The parity word has no more bits than the position of the last data bit. */
  lemma {:induction false} EncodeFits(parity: nat, buf: seq<Byte>, d: nat, i: nat, k: nat)
    requires 0 < d <= 8 * |buf| && parity < Pow2(k) && CodeBit(d - 1) < Pow2(k)
    ensures Encode(parity, buf, d, 0, i) < Pow2(k)
    decreases d - i
  {
    if i < d {
      if i < d - 1 {
        CodeBitIncreasing(i, d - 1);
      }
      XorBound(parity, CodeBit(i), k);
      EncodeFits(if Bit(buf, i) then Xor(parity, CodeBit(i)) else parity, buf, d, i + 1, k);
    }
  }

  // ---------------------------------------------------------------------
  // Fixing a bit

  lemma {:induction false} PopcountOne(n: nat)
    ensures Popcount(n) == 0 <==> n == 0
    ensures Popcount(n) == 1 <==> IsPow2(n)
  {
    if n > 0 {
      PopcountOne(n / 2);
    }
  }

  /** A weight of one marks the parity positions. */
  lemma WeightOne(n: nat)
    requires n < WORD32
    ensures HWeight32(n) == 1 <==> IsPow2(n)
  {
    WeightIsPopcount(n);
    PopcountOne(n);
  }

  /** After the position of data bit `i` the next one that is not a parity bit is
      that of data bit `i + 1`. */
  lemma NextPosition(i: nat, c: nat)
    requires CodeBit(i) < c && !IsPow2(c)
    ensures CodeBit(i + 1) <= c
  {
    var k := DataBitAt(c);
    ParityMonotonic(if k <= i then k else i + 1, if k <= i then i else k);
  }

  /** Everything from `b` up to the position of data bit `i` is a parity bit. */
  ghost predicate SkipsTo(b: nat, i: nat) {
    b <= CodeBit(i) && forall c :: b <= c < CodeBit(i) ==> IsPow2(c)
  }

  method IsParityBit(b: nat) returns (parity: bool)
    requires b < WORD32
    ensures parity == IsPow2(b)
  {
    WeightOne(b);
    parity := HWeight32(b) == 1;
  }

  method SkipParity(start: nat, ghost i: nat) returns (b: nat)
    requires SkipsTo(start, i) && CodeBit(i) < WORD32
    ensures b == CodeBit(i)
  {
    b := start;
    CodeBitBounds(i);
    var parity := IsParityBit(b);
    while parity
      invariant SkipsTo(b, i) && parity == IsPow2(b)
      decreases CodeBit(i) - b
    {
      b := b + 1;
      parity := IsParityBit(b);
    }
  }

  /** Data bit `i` of a hunk sits at code position `fix`. */
  ghost predicate Located(d: nat, nr: nat, fix: nat, i: nat) {
    i < d && CodeBit(nr + i) == fix
  }

  lemma LocatedBounds(d: nat, nr: nat, fix: nat)
    ensures forall i: nat :: Located(d, nr, fix, i) ==>
      !IsPow2(fix) && CodeBit(nr) <= fix < CodeBit(nr + d)
  {
    forall i: nat | Located(d, nr, fix, i)
      ensures !IsPow2(fix) && CodeBit(nr) <= fix < CodeBit(nr + d)
    {
      CodeBitBounds(nr + i);
      ParityMonotonic(nr + i, nr + d);
      ParityMonotonic(nr, nr + i);
    }
  }

  lemma LocatedOnce(d: nat, nr: nat, fix: nat, i: nat)
    requires Located(d, nr, fix, i)
    ensures forall j: nat :: Located(d, nr, fix, j) ==> j == i
  {
    forall j: nat | Located(d, nr, fix, j)
      ensures j == i
    {
      ParityMonotonic(nr + if i < j then i else j, nr + if i < j then j else i);
    }
  }

  /** The search of ocfs2_hamming_fix(): which data bit of the hunk sits at `fix`. */
  method Locate(d: nat, nr: nat, fix: nat) returns (found: bool, i: nat)
    requires fix < WORD32 && CodeBit(nr + d) < WORD32
    ensures found ==> Located(d, nr, fix, i)
    ensures !found ==> forall k: nat :: !Located(d, nr, fix, k)
  {
    LocatedBounds(d, nr, fix);
    var parity := IsParityBit(fix);
    if parity {
      return false, 0;
    }
    var end, _ := CalcCodeBit(nr + d, 0);
    if fix >= end {
      return false, 0;
    }
    var b, _ := CalcCodeBit(nr, 0);
    if fix < b {
      return false, 0;
    }
    i := 0;
    while i < d
      invariant i <= d && SkipsTo(b, nr + i)
      invariant forall k :: 0 <= k < i ==> !Located(d, nr, fix, k)
    {
      ParityMonotonic(nr + i, nr + d);
      b := SkipParity(b, nr + i);
      if b == fix {
        return true, i;
      }
      SkipsToNext(nr + i);
      b, i := b + 1, i + 1;
    }
    found := false;
  }

  lemma SkipsToNext(i: nat)
    ensures SkipsTo(CodeBit(i) + 1, i + 1)
  {
    ParityMonotonic(i, i + 1);
    forall c | CodeBit(i) + 1 <= c < CodeBit(i + 1)
      ensures IsPow2(c)
    {
      if !IsPow2(c) {
        NextPosition(i, c);
      }
    }
  }

  /** ocfs2_hamming_fix(): flips the data bit at position `fix` when it is in this
      hunk, and does nothing otherwise. */
  method HammingFix(data: array<Byte>, d: nat, nr: nat, fix: nat)
    requires 0 < d <= 8 * data.Length && fix < WORD32 && CodeBit(nr + d) < WORD32
    modifies data
    ensures forall i: nat :: Located(d, nr, fix, i) ==>
      data[..] == WithBit(old(data[..]), i, !Bit(old(data[..]), i))
    ensures (forall i: nat :: !Located(d, nr, fix, i)) ==> data[..] == old(data[..])
  {
    var found, i := Locate(d, nr, fix);
    if found {
      LocatedOnce(d, nr, fix, i);
      if Bit(data[..], i) {
        var _ := ClearBit(i, data);
      } else {
        var _ := SetBit(i, data);
      }
    }
  }

  // ---------------------------------------------------------------------
  // The original and the cheating forms

  /** The low `j` bits of a word. */
  function LowBits(w: nat, j: nat): (r: nat)
    ensures r < Pow2(j)
  {
    if j == 0 then 0 else w % 2 + 2 * LowBits(w / 2, j - 1)
  }

  lemma {:induction false} LowBitsStep(w: nat, j: nat)
    ensures LowBits(w, j + 1) == LowBits(w, j) + if HighestBit.BitAt(w, j) then Pow2(j) else 0
  {
    if j > 0 {
      LowBitsStep(w / 2, j - 1);
    }
  }

  lemma {:induction false} LowBitsAll(w: nat, j: nat)
    requires w < Pow2(j)
    ensures LowBits(w, j) == w
  {
    if j > 0 {
      LowBitsAll(w / 2, j - 1);
    }
  }

  lemma XorNextBit(low: nat, j: nat)
    requires low < Pow2(j)
    ensures Xor(low, Pow2(j)) == low + Pow2(j)
  {
    XorSplit(low, 1, j);
  }

  /** calc_parity_bits_orig(), for sizes it has an answer for. */
  method CalcParityBitsOrig(d: nat) returns (p: nat)
    requires 0 < d <= 0x8000_0000 - 32
    ensures p == ParityCount(d - 1)
  {
    Pow2Values();
    ParityAtMost(d - 1, 31);
    CodeBitBounds(d - 1);
    p := 1;
    while p < 32
      invariant 1 <= p <= ParityCount(d - 1) <= 31
    {
      if d + p + 1 <= Pow2(p) {
        ParityAtMost(d - 1, p);
        return;
      }
      p := p + 1;
    }
  }

  /** The original inner loop: one exclusive or per bit of the position. */
  method AddPositionOrig(start: nat, b: nat, p: nat) returns (parity: nat)
    requires b < Pow2(p)
    ensures parity == Xor(start, b)
  {
    parity := start;
    XorZero(start);
    for j := 0 to p
      invariant parity == Xor(start, LowBits(b, j))
    {
      if HighestBit.BitAt(b, j) {
        XorAssoc(start, LowBits(b, j), Pow2(j));
        XorNextBit(LowBits(b, j), j);
        parity := Xor(parity, Pow2(j));
      }
      LowBitsStep(b, j);
    }
    LowBitsAll(b, p);
  }

  lemma PositionFits(i: nat, d: nat)
    requires i < d
    ensures CodeBit(i) < Pow2(ParityCount(d - 1))
  {
    CodeBitBounds(i);
    ParityMonotonic(i, d - 1);
    Pow2Monotonic(ParityCount(i), ParityCount(d - 1));
  }

  /** hamming_encode_orig() at offset 0 computes the same word. */
  method HammingEncodeOrig(start: nat, buf: seq<Byte>, d: nat) returns (parity: nat)
    requires 0 < d <= 8 * |buf| && d < 0x4000_0000
    ensures parity == Encode(start, buf, d, 0, 0)
  {
    var p := CalcParityBitsOrig(d);
    parity := start;
    var i := NextDataBit(parity, buf, d, 0, 0);
    while i < d
      invariant i < d ==> Bit(buf, i)
      invariant Encode(start, buf, d, 0, 0) == Encode(parity, buf, d, 0, i)
      decreases d - i
    {
      var b, _ := CalcCodeBit(i, 0);
      PositionFits(i, d);
      parity := AddPositionOrig(parity, b, p);
      i := NextDataBit(parity, buf, d, 0, i + 1);
    }
  }

  /** calc_code_bit_cheat(): starts at the highest bit of the data bit number and
      doubles the power instead of counting. */
  method CalcCodeBitCheat(i: nat) returns (b: nat)
    requires i < 0x4000_0000
    ensures b == CodeBit(i)
  {
    var k := HighestBit.FindHighestBitSet(i + 1);
    b := i + 1 + k;
    var p := Pow2(k);
    StartBelow(i, k);
    while p < b + 1
      invariant b == i + 1 + k && p == Pow2(k) && k <= ParityCount(i)
      decreases ParityCount(i) - k
    {
      StillBelow(i, k);
      b := b + 1;
      p := 2 * p;
      k := k + 1;
    }
    ParityFromCache(i, k);
  }

  /** ocfs2_hamming_encode_cheat_code_bit() computes the same word. */
  method HammingEncodeCheat(start: nat, buf: seq<Byte>, d: nat, nr: nat) returns (parity: nat)
    requires 0 < d <= 8 * |buf| && nr + d < 0x4000_0000
    ensures parity == Encode(start, buf, d, nr, 0)
  {
    parity := start;
    var i := NextDataBit(parity, buf, d, nr, 0);
    while i < d
      invariant i < d ==> Bit(buf, i)
      invariant Encode(start, buf, d, nr, 0) == Encode(parity, buf, d, nr, i)
      decreases d - i
    {
      var b := CalcCodeBitCheat(nr + i);
      parity := Xor(parity, b);
      i := NextDataBit(parity, buf, d, nr, i + 1);
    }
  }

  lemma StillBelow(i: nat, k: nat)
    requires k <= ParityCount(i) && Pow2(k) < i + 2 + k
    ensures k < ParityCount(i)
  {
    ParityEnough(i, 0);
  }

  lemma StartBelow(i: nat, k: nat)
    requires Pow2(k) <= i + 1
    ensures k <= ParityCount(i)
  {
    if ParityCount(i) < k {
      ParityEnough(i, 0);
      Pow2Monotonic(ParityCount(i), k);
    }
  }
}
