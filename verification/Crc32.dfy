/** The reflected CRC-32 of libocfs2/blockcheck.c: polynomial 0xEDB88320, as in
    section 8 of RFC 1952.  The lookup table is given by its recurrence, and a
    uint32_t is a natural below 2^32. */
module Crc32 {
  import opened Words
  import opened Bitops

  const POLYNOMIAL: nat := 0xEDB88320

  /** One bit of the shift register. */
  function BitStep(c: nat): nat {
    if c % 2 == 1 then Xor(c / 2, POLYNOMIAL) else c / 2
  }

  function Steps(n: nat, c: nat): nat {
    if n == 0 then c else Steps(n - 1, BitStep(c))
  }

  /** Entry `index` of the lookup table: eight bits of the shift register. */
  function Table(index: nat): nat
    requires index < 256
  {
    Steps(8, index)
  }

  /** The checksum by definition: each byte is fed in one bit at a time. */
  function Fold(crc: nat, bytes: seq<Byte>): nat
    decreases |bytes|
  {
    if bytes == [] then crc else Fold(Steps(8, Xor(crc, ByteValue(bytes[0]))), bytes[1..])
  }

  /** The value of a sequence of bits, least significant first. */
  function BitsValue(bits: seq<bool>): (v: nat)
    ensures v < Pow2(|bits|)
  {
    if bits == [] then 0 else (if bits[0] then 1 else 0) + 2 * BitsValue(bits[1..])
  }

  function ByteValue(b: Byte): (v: nat)
    ensures v < 256
  {
    Pow2Values();
    BitsValue(b)
  }

  lemma {:induction false} BitsValueInjective(a: seq<bool>, b: seq<bool>)
    requires |a| == |b| && BitsValue(a) == BitsValue(b)
    ensures a == b
  {
    if a != [] {
      BitsValueInjective(a[1..], b[1..]);
      assert a == [a[0]] + a[1..] && b == [b[0]] + b[1..];
    }
  }

  /** The low `k` bits of a word, least significant first. */
  function ToBits(v: nat, k: nat): (bits: seq<bool>)
    ensures |bits| == k
  {
    if k == 0 then [] else [v % 2 == 1] + ToBits(v / 2, k - 1)
  }

  lemma {:induction false} ToBitsValue(v: nat, k: nat)
    requires v < Pow2(k)
    ensures BitsValue(ToBits(v, k)) == v
  {
    if k > 0 {
      ToBitsValue(v / 2, k - 1);
      assert ToBits(v, k)[1..] == ToBits(v / 2, k - 1);
    }
  }

  lemma {:induction false} FoldConcat(crc: nat, a: seq<Byte>, b: seq<Byte>)
    ensures Fold(crc, a + b) == Fold(Fold(crc, a), b)
    decreases |a|
  {
    if a == [] {
      assert a + b == b;
    } else {
      assert (a + b)[1..] == a[1..] + b;
      FoldConcat(Steps(8, Xor(crc, ByteValue(a[0]))), a[1..], b);
    }
  }

  // ---------------------------------------------------------------------
  // The register is linear and injective

  lemma BitStepLinear(a: nat, b: nat)
    ensures BitStep(Xor(a, b)) == Xor(BitStep(a), BitStep(b))
  {
    XorBits(a, b);
    XorCancel(a / 2, b / 2, POLYNOMIAL);
    XorAssoc(a / 2, b / 2, POLYNOMIAL);
    XorAssoc(a / 2, POLYNOMIAL, b / 2);
    XorComm(b / 2, POLYNOMIAL);
  }

  lemma {:induction false} StepsLinear(n: nat, a: nat, b: nat)
    ensures Steps(n, Xor(a, b)) == Xor(Steps(n, a), Steps(n, b))
  {
    if n > 0 {
      BitStepLinear(a, b);
      StepsLinear(n - 1, BitStep(a), BitStep(b));
    }
  }

  lemma BitStepBound(c: nat)
    requires c < WORD32
    ensures BitStep(c) < WORD32
  {
    Pow2Values();
    XorBound(c / 2, POLYNOMIAL, 32);
  }

  lemma {:induction false} StepsBound(n: nat, c: nat)
    requires c < WORD32
    ensures Steps(n, c) < WORD32
  {
    if n > 0 {
      BitStepBound(c);
      StepsBound(n - 1, BitStep(c));
    }
  }

  /** The top bit of the polynomial is set, so the bit that was shifted out can be
      read off the result. */
  lemma BitStepInjective(a: nat, b: nat)
    requires a < WORD32 && b < WORD32
    requires BitStep(a) == BitStep(b)
    ensures a == b
  {
    Pow2Values();
    XorTopBit(a / 2, POLYNOMIAL, 31);
    XorTopBit(b / 2, POLYNOMIAL, 31);
    if a % 2 == 1 && b % 2 == 1 {
      XorInjective(a / 2, b / 2, POLYNOMIAL);
    }
  }

  lemma {:induction false} StepsInjective(n: nat, a: nat, b: nat)
    requires a < WORD32 && b < WORD32
    requires Steps(n, a) == Steps(n, b)
    ensures a == b
  {
    if n > 0 {
      BitStepBound(a);
      BitStepBound(b);
      StepsInjective(n - 1, BitStep(a), BitStep(b));
      BitStepInjective(a, b);
    }
  }

  /** With zeros at the bottom nothing is fed back: the register only shifts. */
  lemma {:induction false} StepsShift(n: nat, c: nat)
    ensures Steps(n, Pow2(n) * c) == c
  {
    if n > 0 {
      TwiceProduct(Pow2(n - 1), c);
      EvenStep(Pow2(n - 1) * c);
      StepsShift(n - 1, c);
    }
  }

  lemma EvenStep(half: nat)
    ensures BitStep(2 * half) == half
  {
    LowBit(0, half);
  }

  lemma XorSplit8(low: nat, high: nat)
    requires low < 256
    ensures Xor(low, 256 * high) == low + 256 * high
  {
    Pow2Values();
    XorSplit(low, high, 8);
  }

  lemma StepsShift8(c: nat)
    ensures Steps(8, 256 * c) == c
  {
    Pow2Values();
    StepsShift(8, c);
  }

  /** Feeding in a word whose low byte is `low`: the rest just moves down. */
  lemma StepsSplit(low: nat, high: nat)
    requires low < 256
    ensures Steps(8, low + 256 * high) == Xor(Steps(8, low), high)
  {
    XorSplit8(low, high);
    StepsLinear(8, low, 256 * high);
    StepsShift8(high);
  }

  // ---------------------------------------------------------------------
  // The table-driven, word-at-a-time form

  /** The macro DO_CRC on a little-endian host. */
  function DoCrc(crc: nat, x: nat): nat {
    Xor(Table(Xor(crc, x) % 256), crc / 256)
  }

  lemma XorHighBytes(a: nat, x: nat)
    requires x < 256
    ensures Xor(a, x) / 256 == a / 256
  {
    var low, high := a % 256, a / 256;
    var shifted := 256 * high;
    calc {
      Xor(a, x);
      { XorSplit8(low, high); XorComm(low, shifted); }
      Xor(Xor(shifted, low), x);
      { XorAssoc(shifted, low, x); XorComm(shifted, Xor(low, x)); }
      Xor(Xor(low, x), shifted);
      { Pow2Values(); XorBound(low, x, 8); XorSplit8(Xor(low, x), high); }
      Xor(low, x) + 256 * high;
    }
    assert Xor(low, x) < 256 by { Pow2Values(); XorBound(low, x, 8); }
  }

  lemma DoCrcIsSteps(crc: nat, x: nat)
    requires x < 256
    ensures DoCrc(crc, x) == Steps(8, Xor(crc, x))
  {
    var c := Xor(crc, x);
    XorHighBytes(crc, x);
    StepsSplit(c % 256, c / 256);
  }

  /** The value of bytes read as one little-endian word. */
  function WordValue(bytes: seq<Byte>): nat {
    if bytes == [] then 0 else ByteValue(bytes[0]) + 256 * WordValue(bytes[1..])
  }

  lemma {:induction false} StepsAdd(m: nat, n: nat, c: nat)
    ensures Steps(m + n, c) == Steps(n, Steps(m, c))
  {
    if m > 0 {
      StepsAdd(m - 1, n, BitStep(c));
    }
  }

  lemma ByteOfWord(crc: nat, v: nat, rest: nat)
    requires v < 256
    ensures Steps(8, Xor(crc, v + 256 * rest)) == Xor(Steps(8, Xor(crc, v)), rest)
  {
    XorSplit8(v, rest);
    XorAssoc(crc, v, 256 * rest);
    StepsLinear(8, Xor(crc, v), 256 * rest);
    StepsShift8(rest);
  }

  /** Bytes may be fed in all at once, as one word. */
  lemma {:induction false} FoldAsWord(crc: nat, bytes: seq<Byte>)
    ensures Fold(crc, bytes) == Steps(8 * |bytes|, Xor(crc, WordValue(bytes)))
    decreases |bytes|
  {
    if bytes == [] {
      XorZero(crc);
    } else {
      var v, rest := ByteValue(bytes[0]), bytes[1..];
      FoldAsWord(Steps(8, Xor(crc, v)), rest);
      ByteOfWord(crc, v, WordValue(rest));
      StepsByte(|rest|, Xor(crc, WordValue(bytes)));
      assert |bytes| == |rest| + 1;
    }
  }

  lemma StepsByte(n: nat, c: nat)
    ensures Steps(8 * (n + 1), c) == Steps(8 * n, Steps(8, c))
  {
    StepsAdd(8, 8 * n, c);
    assert 8 * (n + 1) == 8 + 8 * n;
  }

  /** crc32_le(): a byte at a time up to an aligned address, then a word at a time,
      then the rest.  `address` is where `p` begins. */
  method Crc32Le(crc: nat, p: seq<Byte>, address: nat) returns (r: nat)
    ensures r == Fold(crc, p)
  {
    r := crc;
    var b := 0;
    while b < |p| && (address + b) % 4 != 0
      invariant b <= |p| && r == Fold(crc, p[..b])
    {
      r, b := FeedByte(crc, p, b, r);
    }
    while |p| - b >= 4
      invariant b <= |p| && r == Fold(crc, p[..b])
    {
      var bytes := p[b..b + 4];
      FoldConcat(crc, p[..b], bytes);
      assert p[..b] + bytes == p[..b + 4];
      r := FeedWord(r, bytes);
      b := b + 4;
    }
    while b < |p|
      invariant b <= |p| && r == Fold(crc, p[..b])
    {
      r, b := FeedByte(crc, p, b, r);
    }
    assert p[..b] == p;
  }

  method FeedByte(crc: nat, p: seq<Byte>, b: nat, r: nat) returns (r': nat, b': nat)
    requires b < |p| && r == Fold(crc, p[..b])
    ensures b' == b + 1 && r' == Fold(crc, p[..b'])
  {
    r' := DoCrc(r, ByteValue(p[b]));
    b' := b + 1;
    DoCrcIsSteps(r, ByteValue(p[b]));
    FoldConcat(crc, p[..b], [p[b]]);
    assert p[..b'] == p[..b] + [p[b]];
    assert Fold(r, [p[b]]) == r';
  }

  method FeedWord(crc: nat, bytes: seq<Byte>) returns (r: nat)
    requires |bytes| == 4
    ensures r == Fold(crc, bytes)
  {
    var c0 := Xor(crc, WordValue(bytes));
    var c1 := DoCrc(c0, 0);
    var c2 := DoCrc(c1, 0);
    var c3 := DoCrc(c2, 0);
    r := DoCrc(c3, 0);
    FoldAsWord(crc, bytes);
    FourSteps(c0, c1, c2, c3);
  }

  lemma FourSteps(c0: nat, c1: nat, c2: nat, c3: nat)
    requires c1 == DoCrc(c0, 0) && c2 == DoCrc(c1, 0) && c3 == DoCrc(c2, 0)
    ensures DoCrc(c3, 0) == Steps(32, c0)
  {
    ZeroStep(c0);
    ZeroStep(c1);
    ZeroStep(c2);
    ZeroStep(c3);
    StepsAdd(8, 8, c0);
    StepsAdd(8, 8, c2);
    StepsAdd(16, 16, c0);
  }

  lemma ZeroStep(c: nat)
    ensures DoCrc(c, 0) == Steps(8, c)
  {
    DoCrcIsSteps(c, 0);
    XorZero(c);
  }

  // ---------------------------------------------------------------------
  // What the checksum detects

  lemma {:induction false} FoldBound(crc: nat, bytes: seq<Byte>)
    requires crc < WORD32
    ensures Fold(crc, bytes) < WORD32
    decreases |bytes|
  {
    if bytes != [] {
      var c := Xor(crc, ByteValue(bytes[0]));
      Pow2Values();
      XorBound(crc, ByteValue(bytes[0]), 32);
      StepsBound(8, c);
      FoldBound(Steps(8, c), bytes[1..]);
    }
  }

  /** Different registers stay different whatever is fed in. */
  lemma {:induction false} FoldInjective(a: nat, b: nat, bytes: seq<Byte>)
    requires a < WORD32 && b < WORD32
    requires Fold(a, bytes) == Fold(b, bytes)
    ensures a == b
    decreases |bytes|
  {
    if bytes != [] {
      var v := ByteValue(bytes[0]);
      Pow2Values();
      XorBound(a, v, 32);
      XorBound(b, v, 32);
      StepsBound(8, Xor(a, v));
      StepsBound(8, Xor(b, v));
      FoldInjective(Steps(8, Xor(a, v)), Steps(8, Xor(b, v)), bytes[1..]);
      StepsInjective(8, Xor(a, v), Xor(b, v));
      XorInjective(a, b, v);
    }
  }

  lemma {:induction false} WordValueInjective(a: seq<Byte>, b: seq<Byte>)
    requires |a| == |b| && WordValue(a) == WordValue(b)
    ensures a == b
  {
    if a != [] {
      assert ByteValue(a[0]) == ByteValue(b[0]);
      BitsValueInjective(a[0], b[0]);
      WordValueInjective(a[1..], b[1..]);
      assert a == [a[0]] + a[1..] && b == [b[0]] + b[1..];
    }
  }

  lemma {:induction false} WordValueBound(bytes: seq<Byte>, k: nat)
    requires |bytes| <= k
    ensures WordValue(bytes) < Pow2(8 * k)
  {
    if bytes != [] {
      WordValueBound(bytes[1..], k - 1);
      Pow2Values();
      Pow2Add(8, 8 * (k - 1));
    }
  }

  /** Two messages that agree outside at most four adjacent bytes, and differ
      there, never have the same checksum. */
  lemma BurstDetected(crc: nat, before: seq<Byte>, x: seq<Byte>, y: seq<Byte>, after: seq<Byte>)
    requires crc < WORD32
    requires |x| == |y| <= 4 && x != y
    ensures Fold(crc, before + x + after) != Fold(crc, before + y + after)
  {
    var c := Fold(crc, before);
    FoldBound(crc, before);
    FoldBound(c, x);
    FoldBound(c, y);
    FoldConcat(crc, before, x);
    FoldConcat(crc, before, y);
    FoldConcat(crc, before + x, after);
    FoldConcat(crc, before + y, after);
    if Fold(Fold(c, x), after) == Fold(Fold(c, y), after) {
      FoldInjective(Fold(c, x), Fold(c, y), after);
      WindowInjective(c, x, y);
    }
  }

  lemma WindowInjective(c: nat, x: seq<Byte>, y: seq<Byte>)
    requires c < WORD32
    requires |x| == |y| <= 4 && Fold(c, x) == Fold(c, y)
    ensures x == y
  {
    var u, v := WordValue(x), WordValue(y);
    FoldAsWord(c, x);
    FoldAsWord(c, y);
    FourBytes(c, x);
    FourBytes(c, y);
    StepsInjective(8 * |x|, Xor(c, u), Xor(c, v));
    XorComm(c, u);
    XorComm(c, v);
    XorInjective(u, v, c);
    WordValueInjective(x, y);
  }

  lemma FourBytes(c: nat, bytes: seq<Byte>)
    requires c < WORD32 && |bytes| <= 4
    ensures Xor(c, WordValue(bytes)) < WORD32
  {
    Pow2Values();
    WordValueBound(bytes, 4);
    XorBound(c, WordValue(bytes), 32);
  }
}
