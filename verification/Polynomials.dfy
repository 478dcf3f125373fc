/** Polynomials over the field of two elements, and that the checksum of
    libocfs2/blockcheck.c is the remainder of a division by the one of section 8 of
    RFC 1952.  A polynomial is the sequence of its coefficients, the highest power first. */
module Polynomials {
  import opened Basics
  import opened Bitops
  import opened Crc32
  import opened Words

  type Poly = seq<bool>

  function Zeros(n: nat): Poly {
    seq(n, _ => false)
  }

  function Add(a: Poly, b: Poly): (r: Poly)
    requires |a| == |b|
    ensures |r| == |a|
  {
    seq(|a|, i requires 0 <= i < |a| => a[i] != b[i])
  }

  /** The product, by the school method. */
  function Times(q: Poly, g: Poly): (r: Poly)
    requires |g| > 0
    ensures |r| == |q| + |g| - 1
  {
    if q == [] then Zeros(|g| - 1)
    else Add((if q[0] then g else Zeros(|g|)) + Zeros(|q| - 1), [false] + Times(q[1..], g))
  }

  /** `m` is `q` times `g` plus `r`, which is of lower degree. */
  predicate Divides(m: Poly, g: Poly, q: Poly, r: Poly) {
    |g| > 0 && |r| == |g| - 1 && |m| == |q| + |r| && m == Add(Times(q, g), Zeros(|q|) + r)
  }

  /** `m` divided by `g` leaves `r`. */
  ghost predicate Remainder(m: Poly, g: Poly, r: Poly) {
    exists q :: Divides(m, g, q, r)
  }

  // ---------------------------------------------------------------------
  // Long division

  /** One step: the leading coefficient goes, and with it a multiple of `g`. */
  function Reduce(m: Poly, g: Poly): (r: Poly)
    requires 0 < |g| <= |m|
    ensures |r| == |m| - 1
  {
    Add(m[1..], (if m[0] then g[1..] else Zeros(|g| - 1)) + Zeros(|m| - |g|))
  }

  function Divide(m: Poly, g: Poly): (r: Poly)
    requires |g| > 0 && |g| - 1 <= |m|
    ensures |r| == |g| - 1
    decreases |m|
  {
    if |m| == |g| - 1 then m else Divide(Reduce(m, g), g)
  }

  lemma {:induction false} TakeBack(m: Poly, g: Poly, q: Poly, r: Poly)
    requires 0 < |g| <= |m| && g[0] && Divides(Reduce(m, g), g, q, r)
    ensures Divides(m, g, [m[0]] + q, r)
  {
    var q' := [m[0]] + q;
    assert q'[1..] == q;
    var back := Add(Times(q', g), Zeros(|q'|) + r);
    forall i | 0 <= i < |m|
      ensures back[i] == m[i]
    {
      if i > 0 {
        assert Reduce(m, g)[i - 1] == Add(Times(q, g), Zeros(|q|) + r)[i - 1];
      }
    }
  }

  lemma {:induction false} NothingTimes(m: Poly, g: Poly)
    requires |m| + 1 == |g|
    ensures Divides(m, g, [], m)
  {
  }

  /** Long division finds quotient and remainder. */
  lemma {:induction false} DivideLeaves(m: Poly, g: Poly) returns (q: Poly)
    requires 0 < |g| && |g| - 1 <= |m| && g[0]
    ensures Divides(m, g, q, Divide(m, g))
    decreases |m|
  {
    if |m| == |g| - 1 {
      q := [];
      NothingTimes(m, g);
    } else {
      var q' := DivideLeaves(Reduce(m, g), g);
      TakeBack(m, g, q', Divide(m, g));
      q := [m[0]] + q';
    }
  }

  /** There is only one remainder. */
  lemma {:induction false} RemainderUnique(m: Poly, g: Poly, r: Poly, r': Poly)
    requires |g| > 0 && g[0] && Remainder(m, g, r) && Remainder(m, g, r')
    ensures r == r'
  {
    var q :| Divides(m, g, q, r);
    var q' :| Divides(m, g, q', r');
    SameQuotient(q, q', g, r, r');
  }

  /** The coefficients of a product, given those of the product without the first of `q`. */
  lemma {:induction false} TimesAt(q: Poly, g: Poly, i: nat)
    requires q != [] && |g| > 0 && i < |q| + |g| - 1
    ensures Times(q, g)[i] == ((i < |g| && q[0] && g[i]) != (i > 0 && Times(q[1..], g)[i - 1]))
  {
  }

  /** `t` is `g`, if `lead`, plus `u` one place down. */
  ghost predicate Shifted(t: Poly, lead: bool, g: Poly, u: Poly) {
    |t| == |u| + 1 && forall i :: 0 <= i < |t| ==> t[i] == ((i < |g| && lead && g[i]) != (i > 0 && u[i - 1]))
  }

  lemma {:induction false} TimesShifted(q: Poly, g: Poly)
    requires q != [] && |g| > 0
    ensures Shifted(Times(q, g), q[0], g, Times(q[1..], g))
  {
    forall i | 0 <= i < |q| + |g| - 1
      ensures Times(q, g)[i] == ((i < |g| && q[0] && g[i]) != (i > 0 && Times(q[1..], g)[i - 1]))
    {
      TimesAt(q, g, i);
    }
  }

  lemma {:induction false} SameShifted(t: Poly, t': Poly, lead: bool, lead': bool, g: Poly, u: Poly, u': Poly, r: Poly,
      r': Poly, n: nat)
    requires |g| > 0 && g[0] && Shifted(t, lead, g, u) && Shifted(t', lead', g, u')
    requires |u| == |u'| == n + |r| && |r| == |r'| && Add(t, Zeros(n + 1) + r) == Add(t', Zeros(n + 1) + r')
    ensures lead == lead' && Add(u, Zeros(n) + r) == Add(u', Zeros(n) + r')
  {
    var a, b := Add(t, Zeros(n + 1) + r), Add(t', Zeros(n + 1) + r');
    assert a[0] == b[0] && t[0] == lead && t'[0] == lead';
    forall i | 0 <= i < |u|
      ensures Add(u, Zeros(n) + r)[i] == Add(u', Zeros(n) + r')[i]
    {
      assert a[i + 1] == b[i + 1];
      assert (Zeros(n + 1) + r)[i + 1] == (Zeros(n) + r)[i] && (Zeros(n + 1) + r')[i + 1] == (Zeros(n) + r')[i];
    }
  }

  lemma {:induction false} SameQuotient(q: Poly, q': Poly, g: Poly, r: Poly, r': Poly)
    requires |g| > 0 && g[0] && |q| == |q'| && |r| == |r'| == |g| - 1
    requires Add(Times(q, g), Zeros(|q|) + r) == Add(Times(q', g), Zeros(|q|) + r')
    ensures q == q' && r == r'
    decreases |q|
  {
    if q == [] {
      var a, b := Add(Times(q, g), Zeros(|q|) + r), Add(Times(q', g), Zeros(|q|) + r');
      forall i | 0 <= i < |r|
        ensures r[i] == r'[i]
      {
        assert a[i] == b[i];
      }
    } else {
      TimesShifted(q, g);
      TimesShifted(q', g);
      SameShifted(Times(q, g), Times(q', g), q[0], q'[0], g, Times(q[1..], g), Times(q'[1..], g), r, r', |q| - 1);
      SameQuotient(q[1..], q'[1..], g, r, r');
      assert q == [q[0]] + q[1..] && q' == [q'[0]] + q'[1..];
    }
  }

  // ---------------------------------------------------------------------
  // The register of the checksum

  /** The powers of x in the polynomial of RFC 1952. */
  const POWERS: set<nat> := {32, 26, 23, 22, 16, 12, 11, 10, 8, 7, 5, 4, 2, 1, 0}

  const GENERATOR: Poly := seq(33, i requires 0 <= i < 33 => 32 - i in POWERS)

  lemma {:induction false} ToBitsXor(a: nat, b: nat, k: nat)
    ensures ToBits(Xor(a, b), k) == Add(ToBits(a, k), ToBits(b, k))
    decreases k
  {
    if k > 0 {
      XorBits(a, b);
      ToBitsXor(a / 2, b / 2, k - 1);
    }
  }

  lemma {:induction false} ToBitsZero(k: nat)
    ensures ToBits(0, k) == Zeros(k)
  {
    if k > 0 {
      ToBitsZero(k - 1);
    }
  }

  /** Above its width a word has zeros. */
  lemma {:induction false} ToBitsWider(v: nat, k: nat, n: nat)
    requires v < Pow2(k)
    ensures ToBits(v, k + n) == ToBits(v, k) + Zeros(n)
    decreases k
  {
    if k == 0 {
      ToBitsZero(n);
      assert [] + Zeros(n) == Zeros(n);
    } else {
      ToBitsWider(v / 2, k - 1, n);
      assert k + n - 1 == k - 1 + n;
    }
  }

  function One(b: bool): nat {
    if b then 1 else 0
  }

  lemma {:induction false} TwoBits(a: bool, b: bool, rest: seq<bool>)
    ensures BitsValue([a, b] + rest) == One(a) + 2 * One(b) + 4 * BitsValue(rest)
  {
    assert ([a, b] + rest)[1..] == [b] + rest;
    assert ([b] + rest)[1..] == rest;
  }

  /** The value of bits that start with those of a digit. */
  lemma {:induction false} HexDigit(a: bool, b: bool, c: bool, d: bool, rest: seq<bool>, bits: seq<bool>, v: nat)
    requires bits == [a, b, c, d] + rest && v == One(a) + 2 * One(b) + 4 * One(c) + 8 * One(d) + 16 * BitsValue(rest)
    ensures BitsValue(bits) == v
  {
    TwoBits(a, b, [c, d] + rest);
    TwoBits(c, d, rest);
    assert [a, b] + ([c, d] + rest) == bits;
  }

  const LOW: Poly := [false, false, false, false, false, true, false, false,
                      true, true, false, false, false, false, false, true]
  const HIGH: Poly := [false, false, false, true, true, true, false, true,
                       true, false, true, true, false, true, true, true]

  lemma {:induction false} HighBits(low: Poly)
    requires BitsValue(low) == 0
    ensures BitsValue(HIGH + low) == 0xEDB8
  {
    var a := HIGH[12..] + low;
    var b := HIGH[8..] + low;
    var c := HIGH[4..] + low;
    HexDigit(false, true, true, true, low, a, 0xE);
    HexDigit(true, false, true, true, a, b, 0xED);
    HexDigit(true, true, false, true, b, c, 0xEDB);
    HexDigit(false, false, false, true, c, HIGH + low, 0xEDB8);
  }

  lemma {:induction false} LowBits(high: Poly)
    requires BitsValue(high) == 0xEDB8
    ensures BitsValue(LOW + high) == 0xEDB88320
  {
    var a := LOW[12..] + high;
    var b := LOW[8..] + high;
    var c := LOW[4..] + high;
    HexDigit(false, false, false, true, high, a, 0xEDB88);
    HexDigit(true, true, false, false, a, b, 0xEDB883);
    HexDigit(false, true, false, false, b, c, 0xEDB8832);
    HexDigit(false, false, false, false, c, LOW + high, 0xEDB88320);
  }

  lemma {:induction false} LowPowers(i: nat)
    requires i < 16
    ensures LOW[i] == (31 - i in POWERS)
  {
  }

  lemma {:induction false} HighPowers(i: nat)
    requires i < 16
    ensures HIGH[i] == (15 - i in POWERS)
  {
  }

  lemma {:induction false} GeneratorIs()
    ensures |GENERATOR| == 33 && GENERATOR[0] && GENERATOR[1..] == LOW + HIGH
  {
    forall i | 0 <= i < 32
      ensures GENERATOR[1..][i] == (LOW + HIGH)[i]
    {
      if i < 16 {
        LowPowers(i);
      } else {
        HighPowers(i - 16);
      }
    }
  }

  lemma {:induction false} BitsOfValue(bits: seq<bool>, v: nat)
    requires BitsValue(bits) == v
    ensures ToBits(v, |bits|) == bits
  {
    ToBitsValue(v, |bits|);
    BitsValueInjective(ToBits(v, |bits|), bits);
  }

  lemma {:induction false} PolynomialIs(high: Poly, low: Poly)
    requires low == [] && high == HIGH + low
    ensures BitsValue(LOW + high) == POLYNOMIAL
  {
    HighBits(low);
    LowBits(high);
  }

  /** The polynomial of the shift register, with the coefficient of the highest power in the
      lowest bit, is that of RFC 1952 without its leading term. */
  lemma {:induction false} GeneratorBits(v: nat, k: nat)
    requires v == POLYNOMIAL && k == 32
    ensures ToBits(v, k) == GENERATOR[1..] && |GENERATOR| == 33 && GENERATOR[0]
  {
    GeneratorIs();
    PlusNone(HIGH);
    PolynomialIs(HIGH + [], []);
    BitsOfValue(GENERATOR[1..], v);
  }

  // ---------------------------------------------------------------------
  // The checksum

  lemma {:induction false} AddZeros(a: Poly)
    ensures Add(a, Zeros(|a|)) == a
  {
  }

  /** A step of the register is a step of the division. */
  lemma {:induction false} BitStepReduces(c: nat, k: nat, n: nat, poly: nat)
    requires n == 32 && k >= n && poly == POLYNOMIAL
    ensures |GENERATOR| == 33 && ToBits(BitStep(c), k) == Reduce(ToBits(c, k + 1), GENERATOR)
  {
    GeneratorBits(poly, n);
    var m := ToBits(c, k + 1);
    assert m[1..] == ToBits(c / 2, k);
    Pow2Values();
    ToBitsWider(poly, n, k - n);
    ToBitsXor(c / 2, poly, k);
    AddZeros(ToBits(c / 2, k));
    assert Zeros(n) + Zeros(k - n) == Zeros(k);
  }

  lemma {:induction false} StepsDivide(c: nat, n: nat)
    ensures |GENERATOR| == 33 && Divide(ToBits(c, n + 32), GENERATOR) == ToBits(Steps(n, c), 32)
    decreases n
  {
    BitStepReduces(c, n + 32, 32, POLYNOMIAL);
    if n > 0 {
      BitStepReduces(c, n + 31, 32, POLYNOMIAL);
      StepsDivide(BitStep(c), n - 1);
    }
  }

  /** The bits of a buffer in the order in which they are sent. */
  function BitsOf(bytes: seq<Byte>): (bits: Poly)
    ensures |bits| == 8 * |bytes|
  {
    if bytes == [] then [] else bytes[0] + BitsOf(bytes[1..])
  }

  lemma {:induction false} BitsValueConcat(a: seq<bool>, b: seq<bool>)
    ensures BitsValue(a + b) == BitsValue(a) + Pow2(|a|) * BitsValue(b)
    decreases |a|
  {
    if a == [] {
      assert a + b == b;
    } else {
      BitsValueConcat(a[1..], b);
      assert (a + b)[1..] == a[1..] + b;
      TwiceProduct(Pow2(|a| - 1), BitsValue(b));
    }
  }

  lemma {:induction false} BitsOfWord(bytes: seq<Byte>)
    ensures BitsValue(BitsOf(bytes)) == WordValue(bytes)
  {
    if bytes != [] {
      BitsOfWord(bytes[1..]);
      Pow2Values();
      BitsValueConcat(bytes[0], BitsOf(bytes[1..]));
    }
  }

  function Ones(n: nat): Poly {
    seq(n, _ => true)
  }

  lemma {:induction false} OnesValue(n: nat)
    ensures BitsValue(Ones(n)) == Pow2(n) - 1
  {
    if n > 0 {
      OnesValue(n - 1);
      assert Ones(n)[1..] == Ones(n - 1);
    }
  }

  /** The first `n` coefficients inverted. */
  function Inverted(bits: Poly, n: nat): (r: Poly)
    requires n <= |bits|
    ensures |r| == |bits|
  {
    Add(bits, Ones(n) + Zeros(|bits| - n))
  }

  lemma {:induction false} WideBits(bits: Poly, v: nat, n: nat)
    requires BitsValue(bits) == v
    ensures ToBits(v, |bits| + n) == bits + Zeros(n)
  {
    BitsOfValue(bits, v);
    ToBitsWider(v, |bits|, n);
  }

  /** What the register starts with, and the message, as one word. */
  lemma {:induction false} MessageBits(bytes: seq<Byte>, seed: nat, n: nat)
    requires seed == 0xffff_ffff && n == 32 <= 8 * |bytes|
    ensures ToBits(Xor(seed, WordValue(bytes)), 8 * |bytes| + n) == Inverted(BitsOf(bytes), n) + Zeros(n)
  {
    var bits, size := BitsOf(bytes), 8 * |bytes|;
    BitsOfWord(bytes);
    WideBits(bits, WordValue(bytes), n);
    OnesValue(n);
    Pow2Values();
    WideBits(Ones(n), seed, size);
    ToBitsXor(seed, WordValue(bytes), size + n);
    AddParts(bits, Ones(n), size - n, n);
  }

  lemma {:induction false} AddParts(bits: Poly, ones: Poly, k: nat, n: nat)
    requires |bits| == |ones| + k
    ensures Add(ones + Zeros(k + n), bits + Zeros(n)) == Add(bits, ones + Zeros(k)) + Zeros(n)
  {
  }

  /** The checksum is the remainder of the message, with its first 32 bits inverted and shifted
      up 32 places, on division by the polynomial of RFC 1952. */
  lemma {:induction false} ChecksumIsRemainder(bytes: seq<Byte>, seed: nat)
    requires seed == 0xffff_ffff && |bytes| >= 4
    ensures Remainder(Inverted(BitsOf(bytes), 32) + Zeros(32), GENERATOR, ToBits(Fold(seed, bytes), 32))
  {
    var word, n := Xor(seed, WordValue(bytes)), 8 * |bytes|;
    FoldAsWord(seed, bytes);
    MessageBits(bytes, seed, 32);
    StepsDivide(word, n);
    GeneratorBits(POLYNOMIAL, 32);
    var q := DivideLeaves(ToBits(word, n + 32), GENERATOR);
  }
}
