/** The regions of libocfs2/bitmap.c as values: bit buffers that stand for a set of
    naturals. */
module Regions {
  import opened Bitops
  import opened SetAlgebra

  const INT_MAX: nat := 0x7FFF_FFFF

  // ---------------------------------------------------------------------
  // A region as a value

  /** One region: where it starts, how many bits it covers, how many of them are said
      to be set, and the bits. */
  datatype Area = Area(start: nat, total: nat, setBits: int, buf: seq<Byte>)

  /** ocfs2_align_total() */
  function Bytes(total: nat): nat {
    (total + 7) / 8
  }

  predicate Sized(a: Area) {
    |a.buf| == Bytes(a.total)
  }

  function End(a: Area): nat {
    a.start + a.total
  }

  predicate Covers(a: Area, n: nat) {
    a.start <= n < a.start + a.total
  }

  predicate Has(a: Area, n: nat) {
    Sized(a) && Covers(a, n) && Bit(a.buf, n - a.start)
  }

  /** The numbers a region holds. */
  ghost function Members(a: Area): set<nat> {
    set n | a.start <= n < a.start + a.total && Has(a, n)
  }

  /** A buffer of the right size, zero past its end, with an exact count. */
  ghost predicate Good(a: Area) {
    Sized(a) && a.total <= INT_MAX && ZeroPadded(a.buf, a.total) && a.setBits == |Members(a)|
  }

  /** What is not counted as set is clear. */
  lemma ClearCount(a: Area)
    requires Good(a)
    ensures a.total - a.setBits == |Interval(a.start, End(a)) - Members(a)|
  {
    var all := Interval(a.start, End(a));
    assert Members(a) <= all;
    assert all == Members(a) + (all - Members(a));
    IntervalSize(a.start, End(a));
  }

  /** A good region is determined by its place and its members. */
  lemma AreaUnique(a: Area, b: Area)
    requires Good(a) && Good(b) && a.start == b.start && a.total == b.total && Members(a) == Members(b)
    ensures a == b
  {
    forall n | 0 <= n < 8 * |a.buf|
      ensures Bit(a.buf, n) == Bit(b.buf, n)
    {
      assert Has(a, a.start + n) <==> a.start + n in Members(a);
      assert Has(b, a.start + n) <==> a.start + n in Members(b);
    }
    BufferExtensional(a.buf, b.buf);
  }

  // ---------------------------------------------------------------------
  // Changing bits of a region

  /** set_generic_shared() and clear_generic_shared(): bit `n` becomes `v`. */
  function Flip(a: Area, n: nat, v: bool): (r: Area)
    requires Sized(a) && Covers(a, n)
    ensures Sized(r) && r.start == a.start && r.total == a.total
  {
    if Bit(a.buf, n - a.start) == v then a
    else a.(buf := WithBit(a.buf, n - a.start, v), setBits := if v then a.setBits + 1 else a.setBits - 1)
  }

  lemma FlipMembers(a: Area, n: nat, v: bool)
    requires Sized(a) && Covers(a, n)
    ensures Members(Flip(a, n, v)) == if v then Members(a) + {n} else Members(a) - {n}
  {
    var r := Flip(a, n, v);
    forall m
      ensures m in Members(r) <==> if m == n then v else m in Members(a)
    {
      if Covers(a, m) {
        assert Has(r, m) <==> if m == n then v else Has(a, m);
      }
    }
  }

  lemma FlipPadded(a: Area, n: nat, v: bool)
    requires Sized(a) && Covers(a, n) && ZeroPadded(a.buf, a.total)
    ensures ZeroPadded(Flip(a, n, v).buf, a.total)
  {
  }

  lemma FlipCount(m: set<nat>, n: nat)
    ensures n !in m ==> |m + {n}| == |m| + 1
    ensures n in m ==> |m - {n}| == |m| - 1
  {
  }

  lemma FlipGood(a: Area, n: nat, v: bool)
    requires Good(a) && Covers(a, n)
    ensures Good(Flip(a, n, v))
    ensures Members(Flip(a, n, v)) == if v then Members(a) + {n} else Members(a) - {n}
  {
    FlipMembers(a, n, v);
    if Bit(a.buf, n - a.start) != v {
      FlipPadded(a, n, v);
      FlipCount(Members(a), n);
      assert n in Members(a) <==> Has(a, n);
    }
  }

  /** The bits `lo..hi`, one after another. */
  function Fill(a: Area, lo: nat, hi: nat, v: bool): (r: Area)
    requires Sized(a) && a.start <= lo <= hi <= a.start + a.total
    ensures Sized(r) && r.start == a.start && r.total == a.total
    decreases hi - lo
  {
    if lo == hi then a else Fill(Flip(a, lo, v), lo + 1, hi, v)
  }

  /** Filling up to `hi` and then one bit more. */
  lemma {:induction false} FillLast(a: Area, lo: nat, hi: nat, v: bool)
    requires Sized(a) && a.start <= lo <= hi < a.start + a.total
    ensures Fill(a, lo, hi + 1, v) == Flip(Fill(a, lo, hi, v), hi, v)
    decreases hi - lo
  {
    if lo < hi {
      FillLast(Flip(a, lo, v), lo + 1, hi, v);
    }
  }

  lemma {:induction false} FillHas(a: Area, lo: nat, hi: nat, v: bool, n: nat)
    requires Sized(a) && a.start <= lo <= hi <= a.start + a.total
    ensures Has(Fill(a, lo, hi, v), n) <==> if lo <= n < hi then v else Has(a, n)
    decreases hi - lo
  {
    if lo < hi {
      assert Has(Flip(a, lo, v), n) <==> if n == lo then v else Has(a, n);
      FillHas(Flip(a, lo, v), lo + 1, hi, v, n);
    }
  }

  lemma {:induction false} FillKeeps(a: Area, lo: nat, hi: nat, v: bool)
    requires Good(a) && a.start <= lo <= hi <= a.start + a.total
    ensures Good(Fill(a, lo, hi, v))
    decreases hi - lo
  {
    if lo < hi {
      assert Good(Flip(a, lo, v)) by {
        FlipGood(a, lo, v);
      }
      FillKeeps(Flip(a, lo, v), lo + 1, hi, v);
    }
  }

  lemma FillGood(a: Area, lo: nat, hi: nat, v: bool)
    requires Good(a) && a.start <= lo <= hi <= a.start + a.total
    ensures Good(Fill(a, lo, hi, v))
    ensures Members(Fill(a, lo, hi, v)) == if v then Members(a) + Interval(lo, hi) else Members(a) - Interval(lo, hi)
  {
    FillKeeps(a, lo, hi, v);
    var r := Fill(a, lo, hi, v);
    forall n: nat
      ensures n in Members(r) <==> if lo <= n < hi then v else n in Members(a)
      ensures n in Interval(lo, hi) <==> lo <= n < hi
    {
      FillHas(a, lo, hi, v, n);
      assert lo <= n < hi ==> Between(lo, n, hi);
    }
  }

  /** Clearing a range that was clear before it was set gives the region back. */
  lemma FillUndo(a: Area, lo: nat, hi: nat)
    requires Good(a) && a.start <= lo <= hi <= a.start + a.total && Members(a) !! Interval(lo, hi)
    ensures Fill(Fill(a, lo, hi, true), lo, hi, false) == a
  {
    FillGood(a, lo, hi, true);
    FillGood(Fill(a, lo, hi, true), lo, hi, false);
    AreaUnique(Fill(Fill(a, lo, hi, true), lo, hi, false), a);
  }

  // ---------------------------------------------------------------------
  // Runs of clear bits

  /** `lo..hi` lies in the region, and is clear. */
  ghost predicate ClearRun(a: Area, lo: nat, hi: nat) {
    a.start <= lo <= hi <= a.start + a.total && Members(a) !! Interval(lo, hi)
  }

  /** No run of clear bits is longer than `most`. */
  ghost predicate LongestRun(a: Area, most: nat) {
    forall lo: nat, hi: nat :: ClearRun(a, lo, hi) ==> hi - lo <= most
  }

  /** No run that starts before bit `from` of the region is longer than `most`. */
  ghost predicate RunsBelow(a: Area, from: nat, most: nat) {
    forall lo: nat, hi: nat :: ClearRun(a, lo, hi) && lo < a.start + from ==> hi - lo <= most
  }

  lemma MembersInside(a: Area)
    ensures Members(a) <= Interval(a.start, a.start + a.total)
  {
  }

  /** A region with too few clear bits has no long run of them. */
  lemma CountedRun(a: Area, lo: nat, hi: nat)
    requires Good(a) && ClearRun(a, lo, hi)
    ensures hi - lo <= a.total - a.setBits
  {
    MembersInside(a);
    IntervalInside(lo, hi, a.start, a.start + a.total);
    DisjointSizes(Members(a), Interval(lo, hi), Interval(a.start, a.start + a.total));
    IntervalSize(lo, hi);
    IntervalSize(a.start, a.start + a.total);
  }

  lemma CountedRuns(a: Area, most: nat)
    requires Good(a) && a.total - a.setBits <= most
    ensures LongestRun(a, most)
  {
    forall lo: nat, hi: nat | ClearRun(a, lo, hi)
      ensures hi - lo <= most
    {
      CountedRun(a, lo, hi);
    }
  }

  lemma ShorterRun(a: Area, lo: nat, hi: nat, end: nat)
    requires ClearRun(a, lo, hi) && lo <= end <= hi
    ensures ClearRun(a, lo, end)
  {
    assert Interval(lo, end) <= Interval(lo, hi);
  }

  /** From a clear bit to the next set bit is a run. */
  lemma NextRun(a: Area, from: nat, c: nat, e: nat)
    requires Sized(a) && c == NextBit(a.buf, a.total, from, false) && e == NextBit(a.buf, a.total, c, true)
    ensures c <= e <= a.total && ClearRun(a, a.start + c, a.start + e)
  {
    forall n | n in Interval(a.start + c, a.start + e)
      ensures n !in Members(a)
    {
      assert Bit(a.buf, n - a.start) != true;
    }
  }

  /** A run that starts between two places where the search looked lies between them. */
  lemma RunInside(a: Area, from: nat, c: nat, e: nat, lo: nat, hi: nat)
    requires Sized(a) && c == NextBit(a.buf, a.total, from, false) && e == NextBit(a.buf, a.total, c, true)
    requires ClearRun(a, lo, hi) && a.start + from <= lo < hi && lo <= a.start + e
    ensures a.start + c <= lo && hi <= a.start + e
  {
    assert lo in Interval(lo, hi) && !Has(a, lo);
    assert Has(a, a.start + e) <==> e < a.total;
    var n: nat := a.start + e;
    assert n in Members(a) <==> Has(a, n);
    assert n in Interval(lo, hi) <==> Between(lo, n, hi);
  }

  lemma RunStep(a: Area, from: nat, c: nat, e: nat, most: nat)
    requires Sized(a) && c == NextBit(a.buf, a.total, from, false) && e == NextBit(a.buf, a.total, c, true)
    requires RunsBelow(a, from, most)
    ensures c <= e && RunsBelow(a, e + 1, if e - c > most then e - c else most)
  {
    NextRun(a, from, c, e);
    forall lo: nat, hi: nat | ClearRun(a, lo, hi) && lo < a.start + e + 1 && a.start + from <= lo < hi
      ensures hi - lo <= e - c
    {
      RunInside(a, from, c, e, lo, hi);
    }
  }

  /** What is left when fewer than `min` bits are. */
  lemma LastRuns(a: Area, from: nat, most: nat, min: nat)
    requires RunsBelow(a, from, most) && (a.total < from + min || a.total <= from)
    ensures LongestRun(a, if most < min then min - 1 else most)
  {
  }

  // ---------------------------------------------------------------------
  // Shifting one buffer in behind another

  /** Bit `n` of the buffer that has `next` behind the first `size` bits of `buf`. */
  ghost predicate Wanted(buf: seq<Byte>, size: nat, next: seq<Byte>, n: nat)
    requires size <= 8 * |buf|
  {
    if n < size then Bit(buf, n) else n - size < 8 * |next| && Bit(next, n - size)
  }

  lemma JoinedByte(a: Byte, b: Byte, offset: nat)
    requires 0 < offset < 8
    ensures var m := Or(And(a, Below(offset)), Shl(And(b, Below(8 - offset)), offset));
      forall i :: 0 <= i < 8 ==> m[i] == if i < offset then a[i] else b[i - offset]
    ensures var m := Shr(b, 8 - offset); forall i :: 0 <= i < 8 ==> m[i] == (i < offset && b[i + 8 - offset])
  {
  }

  /** As far as bit `upto` the buffer is as wanted, and zero from there. */
  ghost predicate Shifted(r: seq<Byte>, buf: seq<Byte>, size: nat, next: seq<Byte>, upto: nat)
    requires size <= 8 * |buf|
  {
    && |r| >= |buf|
    && (forall n :: 0 <= n < 8 * |r| && n < upto ==> Bit(r, n) == Wanted(buf, size, next, n))
    && (forall n :: upto <= n < 8 * |r| ==> !Bit(r, n))
  }

  /** Byte `k` of the next buffer, low part. */
  lemma ShiftLow(r: seq<Byte>, r': seq<Byte>, buf: seq<Byte>, offset: nat, next: seq<Byte>, k: nat, p: nat)
    requires 0 < offset < 8 && |buf| > 0 && k < |next|
    requires p == |buf| - 1 + k && p < |r| == |r'|
    requires Shifted(r, buf, 8 * |buf| - 8 + offset, next, 8 * p + offset) && r' == r[p := r'[p]]
    requires forall i :: 0 <= i < 8 ==> r'[p][i] == if i < offset then r[p][i] else next[k][i - offset]
    ensures Shifted(r', buf, 8 * |buf| - 8 + offset, next, 8 * p + 8)
  {
    var size := 8 * |buf| - 8 + offset;
    BitsOfByte(r', p);
    BitsOfByte(r, p);
    BitsOfByte(next, k);
    forall n | 0 <= n < 8 * p + 8
      ensures Bit(r', n) == Wanted(buf, size, next, n)
    {
      if n < 8 * p {
        assert Bit(r', n) == Bit(r, n);
      } else if n < 8 * p + offset {
        assert Bit(r', n) == Bit(r, n);
      } else {
        assert n - size == 8 * k + (n - 8 * p - offset);
        assert Bit(next, n - size) == next[k][n - size - 8 * k];
      }
    }
    forall n | 8 * p + 8 <= n < 8 * |r'|
      ensures !Bit(r', n)
    {
      assert Bit(r', n) == Bit(r, n);
    }
  }

  /** Byte `k` of the next buffer, high part. */
  lemma ShiftHigh(r: seq<Byte>, r': seq<Byte>, buf: seq<Byte>, offset: nat, next: seq<Byte>, k: nat, p: nat)
    requires 0 < offset < 8 && |buf| > 0 && k < |next|
    requires p == |buf| + k && p < |r| == |r'|
    requires Shifted(r, buf, 8 * |buf| - 8 + offset, next, 8 * p) && r' == r[p := r'[p]]
    requires forall i :: 0 <= i < 8 ==> r'[p][i] == (i < offset && next[k][i + 8 - offset])
    ensures Shifted(r', buf, 8 * |buf| - 8 + offset, next, 8 * p + offset)
  {
    var size := 8 * |buf| - 8 + offset;
    BitsOfByte(r', p);
    BitsOfByte(next, k);
    forall n | 0 <= n < 8 * p + offset
      ensures Bit(r', n) == Wanted(buf, size, next, n)
    {
      if n < 8 * p {
        assert Bit(r', n) == Bit(r, n);
      } else {
        assert n - size == 8 * k + (n - 8 * p + 8 - offset);
        assert Bit(next, n - size) == next[k][n - size - 8 * k];
      }
    }
    forall n | 8 * p + offset <= n < 8 * |r'|
      ensures !Bit(r', n)
    {
      if n >= 8 * p + 8 {
        assert Bit(r', n) == Bit(r, n);
      }
    }
  }

  /** Past the last bit of the next buffer there is nothing left to do. */
  lemma ShiftEnd(r: seq<Byte>, buf: seq<Byte>, size: nat, next: seq<Byte>, total: nat, upto: nat)
    requires size <= 8 * |buf| && size + total <= upto && ZeroPadded(next, total)
    requires Shifted(r, buf, size, next, upto)
    ensures Shifted(r, buf, size, next, 8 * |r|)
  {
  }

  /** ocfs2_realloc0(): the buffer, followed by zero bytes. */
  function Grown(buf: seq<Byte>, bytes: nat): (r: seq<Byte>)
    requires |buf| <= bytes
    ensures |r| == bytes
    ensures forall n :: 0 <= n < 8 * bytes ==> Bit(r, n) == (n < 8 * |buf| && Bit(buf, n))
  {
    buf + seq(bytes - |buf|, _ => ZERO)
  }

  /** The low bits of byte `k` of the next buffer become the high bits of byte `p`. */
  method MoveLow(r: seq<Byte>, ghost buf: seq<Byte>, offset: nat, next: seq<Byte>, k: nat, p: nat)
      returns (r': seq<Byte>)
    requires 0 < offset < 8 && |buf| > 0 && k < |next| && p == |buf| - 1 + k && p < |r|
    requires Shifted(r, buf, 8 * |buf| - 8 + offset, next, 8 * p + offset)
    ensures |r'| == |r| && Shifted(r', buf, 8 * |buf| - 8 + offset, next, 8 * p + 8)
  {
    JoinedByte(r[p], next[k], offset);
    r' := r[p := And(r[p], Below(offset))];
    r' := r'[p := Or(r'[p], Shl(And(next[k], Below(8 - offset)), offset))];
    ShiftLow(r, r', buf, offset, next, k, p);
  }

  /** The high bits of byte `k` of the next buffer become byte `p`. */
  method MoveHigh(r: seq<Byte>, ghost buf: seq<Byte>, offset: nat, next: seq<Byte>, k: nat, p: nat)
      returns (r': seq<Byte>)
    requires 0 < offset < 8 && |buf| > 0 && k < |next| && p == |buf| + k && p < |r|
    requires Shifted(r, buf, 8 * |buf| - 8 + offset, next, 8 * p)
    ensures |r'| == |r| && Shifted(r', buf, 8 * |buf| - 8 + offset, next, 8 * p + offset)
  {
    JoinedByte(r[p], next[k], offset);
    r' := r[p := Shr(next[k], 8 - offset)];
    ShiftHigh(r, r', buf, offset, next, k, p);
  }

  /** `k` bytes of the next buffer were moved, so that `left` bits remain, or none. */
  ghost predicate Moving(r: seq<Byte>, buf: seq<Byte>, offset: nat, next: seq<Byte>, total: nat, p: nat, k: nat,
      left: int)
    requires offset < 8 && |buf| > 0
  {
    if left > 0 then
      p == |buf| - 1 + k && left == total - 8 * k && Shifted(r, buf, 8 * |buf| - 8 + offset, next, 8 * p + offset)
    else
      Shifted(r, buf, 8 * |buf| - 8 + offset, next, 8 * |r|)
  }

  /** One turn of the loop. */
  method MoveByte(r: seq<Byte>, buf: seq<Byte>, offset: nat, next: seq<Byte>, total: nat, p: nat, k: nat, left: int)
      returns (r': seq<Byte>, p': nat, k': nat, left': int)
    requires 0 < offset < 8 && |buf| > 0 && |next| == Bytes(total) && ZeroPadded(next, total)
    requires |r| == Bytes(8 * |buf| - 8 + offset + total) && Moving(r, buf, offset, next, total, p, k, left) && left > 0
    ensures |r'| == |r| && Moving(r', buf, offset, next, total, p', k', left') && (left' > 0 ==> k' == k + 1)
  {
    r' := MoveLow(r, buf, offset, next, k, p);
    p', k', left' := p + 1, k, left - (8 - offset);
    if left' > 0 {
      r' := MoveHigh(r', buf, offset, next, k, p');
      k' := k' + 1;
      left' := left' - offset;
      if left' <= 0 {
        ShiftEnd(r', buf, 8 * |buf| - 8 + offset, next, total, 8 * p' + offset);
      }
    } else {
      ShiftEnd(r', buf, 8 * |buf| - 8 + offset, next, total, 8 * p');
    }
  }

  /** The shifting loop of ocfs2_bitmap_merge_region(), which consumes the next region.
      `r` starts as the reallocated buffer, `buf` followed by zero bytes. */
  method ShiftIn(buf: seq<Byte>, offset: nat, next: seq<Byte>, total: nat, bytes: nat) returns (r: seq<Byte>)
    requires 0 < offset < 8 && |buf| > 0 && ZeroPadded(buf, 8 * |buf| - 8 + offset)
    requires |next| == Bytes(total) && ZeroPadded(next, total) && bytes == Bytes(8 * |buf| - 8 + offset + total)
    ensures |r| == bytes
    ensures forall n :: 0 <= n < 8 * bytes ==> Bit(r, n) == Wanted(buf, 8 * |buf| - 8 + offset, next, n)
  {
    r := Grown(buf, bytes);
    var p: nat, k: nat, left: int, count: int := |buf| - 1, 0, total, |next|;
    if total == 0 {
      ShiftEnd(r, buf, 8 * |buf| - 8 + offset, next, total, 8 * |buf| - 8 + offset);
    }
    while count > 0 && left > 0
      invariant |r| == bytes && 0 <= count && (left > 0 ==> k + count == |next|)
      invariant Moving(r, buf, offset, next, total, p, k, left)
      decreases count
    {
      r, p, k, left := MoveByte(r, buf, offset, next, total, p, k, left);
      count := count - 1;
    }
  }

  lemma CopiedIn(buf: seq<Byte>, next: seq<Byte>)
    ensures forall n :: 0 <= n < 8 * |buf + next| ==> Bit(buf + next, n) == Wanted(buf, 8 * |buf|, next, n)
  {
    forall n | 0 <= n < 8 * |buf + next|
      ensures Bit(buf + next, n) == Wanted(buf, 8 * |buf|, next, n)
    {
      if n >= 8 * |buf| {
        assert (n - 8 * |buf|) / 8 == n / 8 - |buf| && (n - 8 * |buf|) % 8 == n % 8;
      }
    }
  }

  /** Copying when the first buffer ends on a byte boundary, shifting otherwise. */
  method Join(buf: seq<Byte>, size: nat, next: seq<Byte>, total: nat) returns (r: seq<Byte>)
    requires |buf| == Bytes(size) && ZeroPadded(buf, size)
    requires |next| == Bytes(total) && ZeroPadded(next, total)
    ensures |r| == Bytes(size + total)
    ensures forall n :: 0 <= n < 8 * |r| ==> Bit(r, n) == Wanted(buf, size, next, n)
  {
    var offset := size % 8;
    if offset == 0 {
      assert size == 8 * |buf|;
      CopiedIn(buf, next);
      r := buf + next;
    } else {
      assert size == 8 * |buf| - 8 + offset;
      r := ShiftIn(buf, offset, next, total, Bytes(size + total));
    }
  }

  /** A buffer that holds the bits of one region behind those of another. */
  lemma JoinedArea(a: Area, b: Area, r: Area)
    requires Good(a) && Good(b) && End(a) == b.start && a.total + b.total <= INT_MAX
    requires Sized(r) && r.start == a.start && r.total == a.total + b.total && r.setBits == a.setBits + b.setBits
    requires forall n :: 0 <= n < 8 * |r.buf| ==> Bit(r.buf, n) == Wanted(a.buf, a.total, b.buf, n)
    ensures Good(r) && Members(r) == Members(a) + Members(b)
  {
    forall n: nat
      ensures n in Members(r) <==> n in Members(a) || n in Members(b)
    {
      if Covers(r, n) {
        assert Bit(r.buf, n - r.start) == Wanted(a.buf, a.total, b.buf, n - r.start);
        assert Has(r, n) <==> Has(a, n) || Has(b, n);
      }
    }
    assert Members(r) == Members(a) + Members(b);
    assert Members(a) !! Members(b);
  }

  // ---------------------------------------------------------------------
  // What the code does with one region

  /** ocfs2_bitmap_alloc_region() */
  method NewRegion(start: nat, total: nat) returns (a: Area)
    requires total <= INT_MAX
    ensures Good(a) && a.start == start && a.total == total && Members(a) == {}
  {
    a := Area(start, total, 0, seq(Bytes(total), _ => ZERO));
    assert Members(a) == {};
  }

  /** set_generic_shared() and clear_generic_shared(), without the notification. */
  method ChangeBit(a: Area, bitno: nat, v: bool) returns (r: Area, was: bool)
    requires Sized(a) && Covers(a, bitno)
    ensures r == Flip(a, bitno, v) && was == Has(a, bitno)
  {
    was := Bit(a.buf, bitno - a.start);
    r := a.(buf := WithBit(a.buf, bitno - a.start, v));
    if was != v {
      r := r.(setBits := if v then a.setBits + 1 else a.setBits - 1);
    } else {
      BufferExtensional(r.buf, a.buf);
    }
  }

  /** The bits `lo..hi`, one after another. */
  method ChangeRange(a: Area, lo: nat, hi: nat, v: bool) returns (r: Area)
    requires Sized(a) && a.start <= lo <= hi <= a.start + a.total
    ensures r == Fill(a, lo, hi, v)
  {
    r := a;
    var n := lo;
    while n < hi
      invariant lo <= n <= hi && Sized(r) && r.start == a.start && r.total == a.total
      invariant Fill(r, n, hi, v) == Fill(a, lo, hi, v)
    {
      var was;
      r, was := ChangeBit(r, n, v);
      n := n + 1;
    }
  }

  function Offset(a: Area, start: nat): nat {
    if start > a.start then start - a.start else 0
  }

  method FindInRegion(a: Area, from: nat, want: bool) returns (ret: nat)
    requires Good(a) && (from <= a.start || Covers(a, from))
    ensures ret == NextBit(a.buf, a.total, Offset(a, from), want)
  {
    var offset := if from > a.start then from - a.start else 0;
    if want {
      ret := FindNextBitSet(a.buf, a.total, offset);
    } else {
      ret := FindNextBitClear(a.buf, a.total, offset);
    }
  }

  /** The two searches in the loop of alloc_range_func(): the next run of clear bits. */
  method NextClearRun(a: Area, from: nat, ghost most: nat) returns (c: nat, e: nat)
    requires Good(a) && from < a.total && RunsBelow(a, from, most)
    ensures from <= c <= e <= a.total && ClearRun(a, a.start + c, a.start + e)
    ensures RunsBelow(a, e + 1, if e - c > most then e - c else most)
  {
    c := FindNextBitClear(a.buf, a.total, from);
    e := a.total;
    if c != a.total {
      e := FindNextBitSet(a.buf, a.total, c);
    }
    NextRun(a, from, c, e);
    RunStep(a, from, c, e, most);
  }

  /** alloc_range_func() as far as the choice of the range: the first run of `len`
      clear bits, or else the longest run if it has at least `min` bits. */
  method SearchRegion(a: Area, min: nat, len: nat) returns (found: bool, lo: nat, hi: nat)
    requires Good(a) && 0 < min <= len
    ensures found ==> ClearRun(a, lo, hi) && min <= hi - lo <= len
    ensures found && hi - lo < len ==> LongestRun(a, hi - lo)
    ensures !found ==> LongestRun(a, min - 1)
  {
    lo, hi := 0, 0;
    if a.total - a.setBits < min {
      CountedRuns(a, min - 1);
      return false, lo, hi;
    }
    var from: nat, best: nat, bestLen: nat := 0, 0, 0;
    while from + min <= a.total
      invariant bestLen < len && (bestLen > 0 ==> ClearRun(a, a.start + best, a.start + best + bestLen))
      invariant RunsBelow(a, from, bestLen)
      decreases a.total - from
    {
      var c, e := NextClearRun(a, from, bestLen);
      if c == a.total {
        from := c;
        break;
      }
      if e - c >= len {
        ShorterRun(a, a.start + c, a.start + e, a.start + c + len);
        return true, a.start + c, a.start + c + len;
      }
      if e - c > bestLen {
        best, bestLen := c, e - c;
      }
      from := e + 1;
    }
    LastRuns(a, from, bestLen, min);
    if bestLen < min {
      return false, lo, hi;
    }
    return true, a.start + best, a.start + best + bestLen;
  }

  /** `x` in the place of two adjacent regions. */
  ghost predicate Takes(a: Area, b: Area, x: Area) {
    Good(x) && End(a) == b.start && x.start == a.start && End(x) == End(b) && Members(x) == Members(a) + Members(b)
  }

  /** The part of ocfs2_bitmap_merge_region() that moves the bits of `next` over. */
  method Absorb(a: Area, next: Area) returns (r: Area)
    requires Good(a) && Good(next) && End(a) == next.start && a.total + next.total <= INT_MAX
    ensures Takes(a, next, r)
  {
    var buf := Join(a.buf, a.total, next.buf, next.total);
    r := Area(a.start, a.total + next.total, a.setBits + next.setBits, buf);
    JoinedArea(a, next, r);
  }
}
