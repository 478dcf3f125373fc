/** Bytes and the bit searches of libocfs2/bitops.c.  A uint8_t is the sequence of
    its eight bits, least significant first, and bit `n` of a buffer is bit
    `n % 8` of byte `n / 8`. */
module Bitops {

  type Byte = b: seq<bool> | |b| == 8 witness seq(8, _ => false)

  const ZERO: Byte := [false, false, false, false, false, false, false, false]
  const ONES: Byte := [true, true, true, true, true, true, true, true]

  function And(a: Byte, b: Byte): Byte {
    seq(8, i requires 0 <= i < 8 => a[i] && b[i])
  }

  function Or(a: Byte, b: Byte): Byte {
    seq(8, i requires 0 <= i < 8 => a[i] || b[i])
  }

  function Not(a: Byte): Byte {
    seq(8, i requires 0 <= i < 8 => !a[i])
  }

  /** `1 << k` */
  function Single(k: nat): Byte {
    seq(8, i => i == k)
  }

  /** `(1 << k) - 1` */
  function Below(k: nat): Byte {
    seq(8, i => i < k)
  }

  /** `(uint8_t)(a << k)` */
  function Shl(a: Byte, k: nat): Byte {
    seq(8, i requires 0 <= i < 8 => i >= k && a[i - k])
  }

  /** `a >> k` */
  function Shr(a: Byte, k: nat): Byte {
    seq(8, i requires 0 <= i < 8 => i + k < 8 && a[i + k])
  }

  predicate Bit(buf: seq<Byte>, n: nat)
    requires n < 8 * |buf|
  {
    buf[n / 8][n % 8]
  }

  /** Every bit at or past `size` is clear. */
  ghost predicate ZeroPadded(buf: seq<Byte>, size: nat) {
    forall n :: size <= n < 8 * |buf| ==> !Bit(buf, n)
  }

  /** Two buffers of one length with the same bits are the same buffer. */
  lemma BufferExtensional(a: seq<Byte>, b: seq<Byte>)
    requires |a| == |b|
    requires forall n :: 0 <= n < 8 * |a| ==> Bit(a, n) == Bit(b, n)
    ensures a == b
  {
    forall i | 0 <= i < |a|
      ensures a[i] == b[i]
    {
      forall k | 0 <= k < 8
        ensures a[i][k] == b[i][k]
      {
        assert Bit(a, 8 * i + k) == Bit(b, 8 * i + k);
      }
    }
  }

  // ---------------------------------------------------------------------
  // Setting and clearing one bit

  /** `buf` with bit `n` made equal to `v`. */
  function WithBit(buf: seq<Byte>, n: nat, v: bool): (r: seq<Byte>)
    requires n < 8 * |buf|
    ensures |r| == |buf|
    ensures forall i :: 0 <= i < 8 * |buf| ==> Bit(r, i) == if i == n then v else Bit(buf, i)
  {
    assert forall i :: 0 <= i < 8 * |buf| && i / 8 == n / 8 ==> (i % 8 == n % 8 <==> i == n);
    buf[n / 8 := buf[n / 8][n % 8 := v]]
  }

  method SetBit(n: nat, buf: array<Byte>) returns (wasSet: bool)
    requires n < 8 * buf.Length
    modifies buf
    ensures wasSet == Bit(old(buf[..]), n)
    ensures buf[..] == WithBit(old(buf[..]), n, true)
  {
    var mask := Single(n % 8);
    wasSet := And(mask, buf[n / 8]) != ZERO;
    buf[n / 8] := Or(buf[n / 8], mask);
    assert wasSet ==> exists i :: 0 <= i < 8 && And(mask, old(buf[..])[n / 8])[i];
    assert And(mask, old(buf[..])[n / 8])[n % 8] == Bit(old(buf[..]), n);
    assert buf[n / 8] == old(buf[..])[n / 8][n % 8 := true];
  }

  method ClearBit(n: nat, buf: array<Byte>) returns (wasSet: bool)
    requires n < 8 * buf.Length
    modifies buf
    ensures wasSet == Bit(old(buf[..]), n)
    ensures buf[..] == WithBit(old(buf[..]), n, false)
  {
    var mask := Single(n % 8);
    wasSet := And(mask, buf[n / 8]) != ZERO;
    buf[n / 8] := And(buf[n / 8], Not(mask));
    assert wasSet ==> exists i :: 0 <= i < 8 && And(mask, old(buf[..])[n / 8])[i];
    assert And(mask, old(buf[..])[n / 8])[n % 8] == Bit(old(buf[..]), n);
    assert buf[n / 8] == old(buf[..])[n / 8][n % 8 := false];
  }

  /** Writing the old value back undoes the change of a bit. */
  lemma WithBitUndo(buf: seq<Byte>, n: nat, v: bool)
    requires n < 8 * |buf|
    ensures WithBit(WithBit(buf, n, v), n, Bit(buf, n)) == buf
  {
    BufferExtensional(WithBit(WithBit(buf, n, v), n, Bit(buf, n)), buf);
  }

  // ---------------------------------------------------------------------
  // Searching for the next set or clear bit

  /** The C library's ffs() on the bits of `b` from `k` up: one more than the
      lowest set bit, or 0. */
  function FfsFrom(b: Byte, k: nat): (r: nat)
    requires k <= 8
    ensures r == 0 ==> forall j :: k <= j < 8 ==> !b[j]
    ensures r > 0 ==> k < r <= 8 && b[r - 1] && forall j :: k <= j < r - 1 ==> !b[j]
    decreases 8 - k
  {
    if k == 8 then 0 else if b[k] then k + 1 else FfsFrom(b, k + 1)
  }

  function Ffs(b: Byte): nat {
    FfsFrom(b, 0)
  }

  /** The least bit of `buf` in `from..size` whose value is `want`, or `size`. */
  function NextBit(buf: seq<Byte>, size: nat, from: nat, want: bool): (r: nat)
    requires size <= 8 * |buf|
    ensures r <= size
    ensures r < size ==> from <= r && Bit(buf, r) == want
    ensures forall i :: from <= i < r ==> Bit(buf, i) != want
    decreases size - from
  {
    if from >= size then size
    else if Bit(buf, from) == want then from
    else NextBit(buf, size, from + 1, want)
  }

  /** Nothing wanted in `from..to` means the search may as well start at `to`. */
  lemma NextBitSkip(buf: seq<Byte>, size: nat, from: nat, to: nat, want: bool)
    requires size <= 8 * |buf| && from <= to
    requires forall i :: from <= i < to && i < size ==> Bit(buf, i) != want
    ensures NextBit(buf, size, from, want) == NextBit(buf, size, to, want)
  {
  }

  /** What a search returns: the least wanted bit below `size` if there is one,
      otherwise some value at or past `size`, and `size` itself when the bits
      past the end are zero and the search starts no later than the end. */
  ghost predicate FoundNext(buf: seq<Byte>, size: nat, offset: nat, want: bool, r: nat)
    requires size <= 8 * |buf|
  {
    var next := NextBit(buf, size, offset, want);
    && (next < size ==> r == next)
    && (next == size ==> r >= size)
    && (ZeroPadded(buf, size) && offset <= size ==> r == next)
  }

  /** The bits of byte `p`, as bits of the buffer. */
  lemma BitsOfByte(buf: seq<Byte>, p: nat)
    requires p < |buf|
    ensures forall i :: 8 * p <= i < 8 * p + 8 ==> Bit(buf, i) == buf[p][i - 8 * p]
  {
  }

  /** The partial byte a search starts in: nothing wanted before bit `found - 1`. */
  method FirstByte(buf: seq<Byte>, p: nat, bit: nat, want: bool) returns (found: nat)
    requires p < |buf| && bit < 8
    ensures found > 0 ==> bit < found <= 8 && Bit(buf, 8 * p + found - 1) == want
    ensures forall i :: 8 * p + bit <= i < 8 * p + (if found > 0 then found - 1 else 8) ==> Bit(buf, i) != want
  {
    var masked := And(if want then buf[p] else Not(buf[p]), Not(Below(bit)));
    found := Ffs(masked);
    BitsOfByte(buf, p);
    assert forall j :: bit <= j < 8 ==> masked[j] == (buf[p][j] == want);
  }

  method FindNextBitSet(buf: seq<Byte>, size: nat, offset: nat) returns (r: nat)
    requires size <= 8 * |buf|
    requires offset % 8 != 0 ==> offset / 8 < |buf|
    ensures FoundNext(buf, size, offset, true, r)
  {
    if size == 0 {
      return 0;
    }
    var bit, p := offset % 8, offset / 8;
    if bit != 0 {
      var found := FirstByte(buf, p, bit, true);
      if found != 0 {
        NextBitSkip(buf, size, offset, 8 * p + found - 1, true);
        return 8 * p + found - 1;
      }
      p := p + 1;
    }
    while size > 8 * p && buf[p] == ZERO
      invariant offset <= 8 * p
      invariant forall i :: offset <= i < 8 * p && i < size ==> !Bit(buf, i)
      decreases size - 8 * p
    {
      BitsOfByte(buf, p);
      p := p + 1;
    }
    NextBitSkip(buf, size, offset, 8 * p, true);
    if 8 * p >= size {
      return size;
    }
    r := LastByteSet(buf, size, p);
  }

  /** The byte the set search stops at, of which the high bits may be cut off by `size`. */
  method LastByteSet(buf: seq<Byte>, size: nat, p: nat) returns (r: nat)
    requires size <= 8 * |buf| && 8 * p < size && buf[p] != ZERO
    ensures FoundNext(buf, size, 8 * p, true, r)
  {
    var mask := if 8 * p + 8 > size then Below(size - 8 * p) else ONES;
    var masked := And(buf[p], mask);
    var d0 := Ffs(masked);
    BitsOfByte(buf, p);
    assert forall i :: 8 * p <= i < size && i < 8 * p + 8 ==> Bit(buf, i) == masked[i - 8 * p];
    var j := Different(buf[p], ZERO);
    assert 8 * p + 8 <= size ==> masked[j];
    if d0 == 0 {
      NextBitSkip(buf, size, 8 * p, size, true);
      return size;
    }
    NextBitSkip(buf, size, 8 * p, 8 * p + d0 - 1, true);
    return 8 * p + d0 - 1;
  }

  lemma Different(a: Byte, b: Byte) returns (j: nat)
    requires a != b
    ensures j < 8 && a[j] != b[j]
  {
    j :| 0 <= j < 8 && a[j] != b[j];
  }

  method FindNextBitClear(buf: seq<Byte>, size: nat, offset: nat) returns (r: nat)
    requires size <= 8 * |buf|
    requires offset % 8 != 0 ==> offset / 8 < |buf|
    ensures FoundNext(buf, size, offset, false, r)
  {
    if size == 0 {
      return 0;
    }
    var bit, p := offset % 8, offset / 8;
    if bit != 0 {
      var found := FirstByte(buf, p, bit, false);
      if found != 0 {
        NextBitSkip(buf, size, offset, 8 * p + found - 1, false);
        assert offset <= size < 8 * p + found - 1 ==> Bit(buf, size);
        return 8 * p + found - 1;
      }
      p := p + 1;
    }
    while size > 8 * p && buf[p] == ONES
      invariant offset <= 8 * p
      invariant forall i :: offset <= i < 8 * p && i < size ==> Bit(buf, i)
      decreases size - 8 * p
    {
      BitsOfByte(buf, p);
      p := p + 1;
    }
    NextBitSkip(buf, size, offset, 8 * p, false);
    if 8 * p >= size {
      return size;
    }
    r := LastByteClear(buf, size, p);
  }

  /** The byte the clear search stops at.  A search that finds no clear bit below
      `size` stops where the mask ends. */
  method LastByteClear(buf: seq<Byte>, size: nat, p: nat) returns (r: nat)
    requires size <= 8 * |buf| && 8 * p < size && buf[p] != ONES
    ensures FoundNext(buf, size, 8 * p, false, r)
  {
    var mask := if 8 * p + 8 > size then Below(size - 8 * p) else ONES;
    var inverse := Not(And(buf[p], mask));
    var d0 := Ffs(inverse);
    BitsOfByte(buf, p);
    assert forall i :: 8 * p <= i < size && i < 8 * p + 8 ==> Bit(buf, i) != inverse[i - 8 * p];
    assert 8 * p + 8 > size ==> inverse[size - 8 * p];
    var j := Different(buf[p], ONES);
    assert inverse[j];
    NextBitSkip(buf, size, 8 * p, 8 * p + d0 - 1, false);
    return 8 * p + d0 - 1;
  }
}
