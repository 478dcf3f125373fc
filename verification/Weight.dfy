/** hc_hweight32() of libocfs2/blockcheck.c: counting the set bits of a word by
    adding ever wider fields pairwise. */
module Weight {
  import opened Basics
  import opened Words

  /** `w & mask`, where the mask keeps every second field: bits for base 2, pairs of
      bits for base 4, and so on. */
  function EvenFields(w: nat, base: nat): nat
    requires base >= 2
  {
    if w == 0 then 0 else w % base + base * base * EvenFields(Above(w, base), base)
  }

  /** What is left of a word without its two lowest fields. */
  function Above(w: nat, base: nat): (r: nat)
    requires base >= 2
    ensures w > 0 ==> r < w
  {
    DivSmaller(w, base);
    DivSmaller(w / base, base);
    w / base / base
  }

  /** `(w & mask) + ((w >> width) & mask)` */
  function AddFields(w: nat, base: nat): nat
    requires base >= 2
  {
    EvenFields(w, base) + EvenFields(w / base, base)
  }

  /** hc_hweight32() */
  function HWeight32(w: nat): nat {
    AddFields(AddFields(AddFields(AddFields(AddFields(w, 2), 4), 16), 256), 65536)
  }

  /** The number of set bits. */
  function Popcount(w: nat): nat {
    if w == 0 then 0 else w % 2 + Popcount(w / 2)
  }

  /** The sum of the fields of a word. */
  function FieldSum(w: nat, base: nat): nat
    requires base >= 2
  {
    if w == 0 then 0 else (DivSmaller(w, base); w % base + FieldSum(w / base, base))
  }

  // ---------------------------------------------------------------------
  // Division by a field width

  lemma DivSmaller(w: nat, base: nat)
    requires base >= 2
    ensures w > 0 ==> w / base < w
    ensures w == 0 ==> w / base == 0
  {
    var q := w / base;
    assert w == base * q + w % base;
    assert base * q >= 2 * q;
  }

  // ---------------------------------------------------------------------
  // Each stage keeps the sum of the fields

  lemma EvenFieldsStep(w: nat, base: nat)
    requires base >= 2
    ensures EvenFields(w, base) == w % base + base * base * EvenFields(Above(w, base), base)
  {
    Zero(base);
  }

  lemma AddFieldsStep(w: nat, base: nat)
    requires base >= 2
    ensures AddFields(w, base) == w % base + w / base % base + base * base * AddFields(Above(w, base), base)
  {
    var q := Above(w, base);
    var a, b := EvenFields(q, base), EvenFields(q / base, base);
    EvenFieldsStep(w, base);
    EvenFieldsStep(w / base, base);
    Distribute(base * base, a, b);
  }

  lemma Zero(base: nat)
    requires base >= 2
    ensures 0 / base == 0 && 0 % base == 0 && EvenFields(0, base) == 0 && base * base * 0 == 0
  {
    DivUnique(0, base, 0, 0);
  }

  lemma {:induction false} AddFieldsSum(w: nat, base: nat)
    requires base >= 2
    ensures FieldSum(AddFields(w, base), base * base) == FieldSum(w, base)
    decreases w
  {
    Zero(base);
    if w > 0 {
      var low, q := w % base + w / base % base, Above(w, base);
      AddFieldsStep(w, base);
      assert low < base * base by {
        assert base * base >= 2 * base;
      }
      DivUnique(AddFields(w, base), base * base, AddFields(q, base), low);
      AddFieldsSum(q, base);
      FieldSumTwo(w, base);
      FieldSumStep(AddFields(w, base), base * base);
    }
  }

  lemma FieldSumStep(w: nat, base: nat)
    requires base >= 2
    ensures FieldSum(w, base) == w % base + FieldSum(w / base, base)
  {
    Zero(base);
  }

  lemma FieldSumTwo(w: nat, base: nat)
    requires base >= 2
    ensures FieldSum(w, base) == w % base + w / base % base + FieldSum(Above(w, base), base)
  {
    FieldSumStep(w, base);
    FieldSumStep(w / base, base);
  }

  lemma {:induction false} PopcountIsFieldSum(w: nat)
    ensures Popcount(w) == FieldSum(w, 2)
  {
    if w > 0 {
      PopcountIsFieldSum(w / 2);
    }
  }

  /** Adding fields never makes the word larger. */
  lemma {:induction false} AddFieldsAtMost(w: nat, base: nat)
    requires base >= 2
    ensures AddFields(w, base) <= w
    decreases w
  {
    Zero(base);
    if w > 0 {
      var q, m := Above(w, base), w / base % base;
      AddFieldsStep(w, base);
      AddFieldsAtMost(q, base);
      Division(w, base);
      Division(w / base, base);
      Scale(base * base, AddFields(q, base), q);
      Nested(base, q, m);
    }
  }

  lemma Scale(d: nat, x: nat, y: nat)
    requires x <= y
    ensures d * x <= d * y
  {
    Distribute(d, x, y - x);
  }

  lemma Nested(base: nat, q: nat, m: nat)
    requires base >= 1
    ensures base * (base * q + m) >= base * base * q + m
  {
    Distribute(base, base * q, m);
    Scale(m, 1, base);
  }

  lemma OneField(w: nat, base: nat)
    requires base >= 2 && w < base
    ensures FieldSum(w, base) == w
  {
    DivUnique(w, base, 0, w);
    FieldSumStep(w, base);
    Zero(base);
  }

  /** hc_hweight32() counts the set bits of every 32-bit word. */
  lemma WeightIsPopcount(w: nat)
    requires w < WORD32
    ensures HWeight32(w) == Popcount(w)
  {
    var r1 := AddFields(w, 2);
    var r2 := AddFields(r1, 4);
    var r3 := AddFields(r2, 16);
    var r4 := AddFields(r3, 256);
    AddFieldsSum(w, 2);
    AddFieldsSum(r1, 4);
    AddFieldsSum(r2, 16);
    AddFieldsSum(r3, 256);
    AddFieldsSum(r4, 65536);
    AddFieldsAtMost(w, 2);
    AddFieldsAtMost(r1, 4);
    AddFieldsAtMost(r2, 16);
    AddFieldsAtMost(r3, 256);
    AddFieldsAtMost(r4, 65536);
    PopcountIsFieldSum(w);
    OneField(HWeight32(w), 65536 * 65536);
  }
}
