/** find_highest_bit_set() of libocfs2/blockcheck.c: smearing the highest bit downwards,
    and a table indexed by five bits of a product. */
module HighestBit {
  import opened Words

  /** The table MultiplyDeBruijnBitPosition. */
  function Entry(i: nat): nat {
    match i
    case 0 => 0 case 1 => 1 case 2 => 28 case 3 => 2
    case 4 => 29 case 5 => 14 case 6 => 24 case 7 => 3
    case 8 => 30 case 9 => 22 case 10 => 20 case 11 => 15
    case 12 => 25 case 13 => 17 case 14 => 4 case 15 => 8
    case 16 => 31 case 17 => 27 case 18 => 13 case 19 => 23
    case 20 => 21 case 21 => 19 case 22 => 16 case 23 => 7
    case 24 => 26 case 25 => 12 case 26 => 18 case 27 => 6
    case 28 => 11 case 29 => 5 case 30 => 10 case 31 => 9
    case _ => 0
  }

  /** The number of the highest set bit. */
  function Log2(v: nat): (k: nat)
    requires v > 0
    ensures Pow2(k) <= v < Pow2(k + 1)
  {
    if v == 1 then 0 else Log2(v / 2) + 1
  }

  predicate BitAt(x: nat, i: nat)
    decreases i
  {
    if i == 0 then x % 2 == 1 else BitAt(x / 2, i - 1)
  }

  /** `x >> m` */
  function Shr(x: nat, m: nat): nat
    decreases m
  {
    if m == 0 then x else Shr(x / 2, m - 1)
  }

  /** `a | b` */
  function Or(a: nat, b: nat): nat {
    if a == 0 then b else 2 * Or(a / 2, b / 2) + (if a % 2 == 1 || b % 2 == 1 then 1 else 0)
  }

  lemma {:induction false} ShrBit(x: nat, m: nat, i: nat)
    ensures BitAt(Shr(x, m), i) == BitAt(x, i + m)
    decreases m
  {
    if m > 0 {
      ShrBit(x / 2, m - 1, i);
    }
  }

  lemma {:induction false} NoBits(i: nat)
    ensures !BitAt(0, i)
  {
    if i > 0 {
      NoBits(i - 1);
    }
  }

  lemma {:induction false} OrBit(a: nat, b: nat, i: nat)
    ensures BitAt(Or(a, b), i) == (BitAt(a, i) || BitAt(b, i))
    decreases i
  {
    if a == 0 {
      NoBits(i);
    } else if i > 0 {
      OrBit(a / 2, b / 2, i - 1);
      assert Or(a, b) / 2 == Or(a / 2, b / 2);
    }
  }

  /** The highest `m` bits from bit `k` down are set, and none above. */
  ghost predicate Smeared(x: nat, k: nat, m: nat) {
    && (forall i: nat :: i > k ==> !BitAt(x, i))
    && (forall i: nat :: k < i + m && i <= k ==> BitAt(x, i))
  }

  lemma {:induction false} TopBit(v: nat)
    requires v > 0
    ensures Smeared(v, Log2(v), 1)
  {
    if v == 1 {
      forall i: nat | i > 0
        ensures !BitAt(v, i)
      {
        NoBits(i - 1);
      }
    } else {
      TopBit(v / 2);
      forall i: nat | i >= Log2(v)
        ensures BitAt(v, i) == (i == Log2(v))
      {
        assert BitAt(v, i) == BitAt(v / 2, i - 1);
      }
    }
  }

  lemma Smear(x: nat, k: nat, m: nat)
    requires Smeared(x, k, m)
    ensures Smeared(Or(x, Shr(x, m)), k, 2 * m)
  {
    var y := Or(x, Shr(x, m));
    forall i: nat
      ensures i > k ==> !BitAt(y, i)
      ensures k < i + 2 * m && i <= k ==> BitAt(y, i)
    {
      OrBit(x, Shr(x, m), i);
      ShrBit(x, m, i);
    }
  }

  lemma {:induction false} AllOnes(x: nat, k: nat)
    requires Smeared(x, k, k + 1)
    ensures x + 1 == Pow2(k + 1)
    decreases k
  {
    assert BitAt(x, 0);
    if k == 0 {
      forall i: nat
        ensures !BitAt(x / 2, i)
      {
        assert !BitAt(x, i + 1);
      }
      ZeroBits(x / 2);
    } else {
      forall i: nat
        ensures BitAt(x / 2, i) == BitAt(x, i + 1)
      {
      }
      AllOnes(x / 2, k - 1);
    }
  }

  lemma {:induction false} ZeroBits(x: nat)
    requires forall i: nat :: !BitAt(x, i)
    ensures x == 0
  {
    if x > 0 {
      assert !BitAt(x, 0);
      forall i: nat
        ensures !BitAt(x / 2, i)
      {
        assert !BitAt(x, i + 1);
      }
      ZeroBits(x / 2);
    }
  }

  /** The low word of the product of the multiplier and a power of two. */
  function Product(power: nat): nat {
    0x77C_B531 * power % 0x1_0000_0000
  }

  /** The products, written out. */
  function Shifted(k: nat): nat {
    match k
    case 0 => 0x77CB531 case 1 => 0xEF96A62 case 2 => 0x1DF2D4C4 case 3 => 0x3BE5A988
    case 4 => 0x77CB5310 case 5 => 0xEF96A620 case 6 => 0xDF2D4C40 case 7 => 0xBE5A9880
    case 8 => 0x7CB53100 case 9 => 0xF96A6200 case 10 => 0xF2D4C400 case 11 => 0xE5A98800
    case 12 => 0xCB531000 case 13 => 0x96A62000 case 14 => 0x2D4C4000 case 15 => 0x5A988000
    case 16 => 0xB5310000 case 17 => 0x6A620000 case 18 => 0xD4C40000 case 19 => 0xA9880000
    case 20 => 0x53100000 case 21 => 0xA6200000 case 22 => 0x4C400000 case 23 => 0x98800000
    case 24 => 0x31000000 case 25 => 0x62000000 case 26 => 0xC4000000 case 27 => 0x88000000
    case 28 => 0x10000000 case 29 => 0x20000000 case 30 => 0x40000000 case 31 => 0x80000000
    case _ => 0
  }

  lemma ShiftedStep(k: nat)
    requires 0 < k < 32
    ensures Shifted(k) == 2 * Shifted(k - 1) % 0x1_0000_0000
  {
  }

  lemma DoubleMod(a: nat)
    ensures 2 * a % 0x1_0000_0000 == 2 * (a % 0x1_0000_0000) % 0x1_0000_0000
  {
    var q, r := a / 0x1_0000_0000, a % 0x1_0000_0000;
    assert a == 0x1_0000_0000 * q + r;
    if 2 * r < 0x1_0000_0000 {
      assert 2 * a == 0x1_0000_0000 * (2 * q) + 2 * r;
    } else {
      assert 2 * a == 0x1_0000_0000 * (2 * q + 1) + (2 * r - 0x1_0000_0000);
    }
  }

  lemma {:induction false} ProductShifts(k: nat)
    requires k < 32
    ensures Product(Pow2(k)) == Shifted(k)
  {
    if k > 0 {
      ProductShifts(k - 1);
      ShiftedStep(k);
      var p := Pow2(k - 1);
      assert 0x77C_B531 * (2 * p) == 2 * (0x77C_B531 * p);
      DoubleMod(0x77C_B531 * p);
    }
  }

  /** The high five bits of the products are a permutation that the table inverts. */
  lemma TableInverts(k: nat)
    requires k < 32
    ensures Entry(Shifted(k) / 0x800_0000) == k
  {
  }

  method FindHighestBitSet(v: nat) returns (k: nat)
    requires 0 < v < WORD32
    ensures k == Log2(v)
  {
    ghost var top := Log2(v);
    Pow2Values();
    Below(v, 32);
    TopBit(v);
    var x := Or(v, Shr(v, 1));
    Smear(v, top, 1);
    Smear(x, top, 2);
    x := Or(x, Shr(x, 2));
    Smear(x, top, 4);
    x := Or(x, Shr(x, 4));
    Smear(x, top, 8);
    x := Or(x, Shr(x, 8));
    Smear(x, top, 16);
    x := Or(x, Shr(x, 16));
    AllOnes(x, top);
    x := Shr(x, 1) + 1;
    assert x == Pow2(top);
    ProductShifts(top);
    TableInverts(top);
    k := Entry(Product(x) / 0x800_0000);
  }

  lemma {:induction false} Below(v: nat, n: nat)
    requires 0 < v < Pow2(n)
    ensures Log2(v) < n
  {
    if v > 1 {
      Below(v / 2, n - 1);
    }
  }
}
