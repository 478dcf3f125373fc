/** Unsigned machine words as naturals, with exclusive or defined bit by bit. */
module Words {

  const WORD32: nat := 0x1_0000_0000

  function Pow2(k: nat): (r: nat)
    ensures r > 0
    ensures k < r
  {
    if k == 0 then 1 else 2 * Pow2(k - 1)
  }

  lemma TwiceProduct(x: nat, y: nat)
    ensures 2 * (x * y) == 2 * x * y
  {
  }

  lemma {:induction false} Pow2Add(a: nat, b: nat)
    ensures Pow2(a + b) == Pow2(a) * Pow2(b)
  {
    if a > 0 {
      Pow2Add(a - 1, b);
      TwiceProduct(Pow2(a - 1), Pow2(b));
    }
  }

  lemma Pow2Values()
    ensures Pow2(8) == 0x100 && Pow2(15) == 0x8000 && Pow2(16) == 0x1_0000
    ensures Pow2(31) == 0x8000_0000 && Pow2(32) == WORD32
  {
    assert Pow2(7) == 0x80;
    Pow2Add(7, 8);
    Pow2Add(15, 16);
  }

  lemma {:induction false} Pow2Monotonic(a: nat, b: nat)
    requires a <= b
    ensures Pow2(a) <= Pow2(b)
    decreases b - a
  {
    if a < b {
      Pow2Monotonic(a, b - 1);
    }
  }

  function Xor(a: nat, b: nat): nat
    decreases a + b
  {
    if a == 0 && b == 0 then 0 else (if a % 2 == b % 2 then 0 else 1) + 2 * Xor(a / 2, b / 2)
  }

  lemma {:induction false} XorComm(a: nat, b: nat)
    ensures Xor(a, b) == Xor(b, a)
    decreases a + b
  {
    if a != 0 || b != 0 {
      XorComm(a / 2, b / 2);
    }
  }

  lemma {:induction false} XorZero(a: nat)
    ensures Xor(a, 0) == a && Xor(0, a) == a && Xor(a, a) == 0
  {
    if a != 0 {
      XorZero(a / 2);
    }
  }

  lemma {:induction false} XorAssoc(a: nat, b: nat, c: nat)
    ensures Xor(Xor(a, b), c) == Xor(a, Xor(b, c))
    decreases a + b + c
  {
    if a != 0 || b != 0 || c != 0 {
      XorAssoc(a / 2, b / 2, c / 2);
      XorBits(a, b);
      XorBits(b, c);
      XorBits(Xor(a, b), c);
      XorBits(a, Xor(b, c));
      FromBits(Xor(Xor(a, b), c), Xor(a, Xor(b, c)));
    }
  }

  /** The low bit and the rest of an exclusive or. */
  lemma {:induction false} XorBits(a: nat, b: nat)
    ensures Xor(a, b) % 2 == if a % 2 == b % 2 then 0 else 1
    ensures Xor(a, b) / 2 == Xor(a / 2, b / 2)
  {
    if a != 0 || b != 0 {
      LowBit(if a % 2 == b % 2 then 0 else 1, Xor(a / 2, b / 2));
    }
  }

  lemma LowBit(low: nat, high: nat)
    requires low < 2
    ensures (low + 2 * high) % 2 == low && (low + 2 * high) / 2 == high
  {
  }

  /** A word is its low bit and the rest. */
  lemma FromBits(a: nat, b: nat)
    requires a % 2 == b % 2 && a / 2 == b / 2
    ensures a == b
  {
  }

  lemma XorCancel(a: nat, b: nat, c: nat)
    ensures Xor(Xor(a, c), Xor(b, c)) == Xor(a, b)
    ensures Xor(Xor(a, c), c) == a
    ensures Xor(c, Xor(c, a)) == a
  {
    calc {
      Xor(Xor(a, c), Xor(b, c));
      { XorAssoc(a, c, Xor(b, c)); }
      Xor(a, Xor(c, Xor(b, c)));
      { XorComm(b, c); XorAssoc(c, c, b); XorZero(c); XorZero(b); }
      Xor(a, b);
    }
    XorAssoc(a, c, c);
    XorAssoc(c, c, a);
    XorZero(c);
    XorZero(a);
  }

  lemma XorInjective(a: nat, b: nat, c: nat)
    requires Xor(a, c) == Xor(b, c)
    ensures a == b
  {
    XorCancel(a, b, c);
    XorCancel(b, a, c);
  }

  lemma {:induction false} XorBound(a: nat, b: nat, k: nat)
    requires a < Pow2(k) && b < Pow2(k)
    ensures Xor(a, b) < Pow2(k)
    decreases k
  {
    if k > 0 {
      XorBound(a / 2, b / 2, k - 1);
      XorBits(a, b);
    }
  }

  /** A bit above the width of the other operand survives. */
  lemma {:induction false} XorTopBit(a: nat, b: nat, k: nat)
    requires a < Pow2(k) <= b
    ensures Xor(a, b) >= Pow2(k)
    decreases k
  {
    if k > 0 {
      XorTopBit(a / 2, b / 2, k - 1);
      XorBits(a, b);
    } else {
      XorZero(b);
    }
  }

  /** Words with no bit in common: exclusive or adds them. */
  lemma {:induction false} XorSplit(low: nat, high: nat, n: nat)
    requires low < Pow2(n)
    ensures Xor(low, Pow2(n) * high) == low + Pow2(n) * high
  {
    if n == 0 {
      XorZero(high);
    } else {
      var rest := Pow2(n - 1) * high;
      assert Pow2(n) * high == 2 * rest;
      XorSplit(low / 2, high, n - 1);
      XorBits(low, 2 * rest);
      LowBit(0, rest);
      FromBits(Xor(low, 2 * rest), low + 2 * rest);
    }
  }
}
