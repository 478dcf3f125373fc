/** Block checksums and single-error correction of libocfs2/blockcheck.c.  The
    eight-byte check field lies inside the block at byte `off`: a little-endian
    CRC-32, a little-endian sixteen-bit parity word and sixteen reserved bits. */
module BlockCheck {
  import opened Words
  import opened Bitops
  import opened Crc32
  import opened Hamming
  import opened Polynomials

  const SEED: nat := 0xffff_ffff

  const NO_CHECK: seq<Byte> := [ZERO, ZERO, ZERO, ZERO, ZERO, ZERO, ZERO, ZERO]

  // ---------------------------------------------------------------------
  // Little-endian fields

  function ToBytes(v: nat, n: nat): (bytes: seq<Byte>)
    ensures |bytes| == n
  {
    if n == 0 then [] else [ToBits(v % 256, 8)] + ToBytes(v / 256, n - 1)
  }

  lemma {:induction false} ToBytesValue(v: nat, n: nat)
    requires v < Pow2(8 * n)
    ensures WordValue(ToBytes(v, n)) == v
  {
    if n > 0 {
      Pow2Values();
      Pow2Add(8, 8 * (n - 1));
      ToBitsValue(v % 256, 8);
      ToBytesValue(v / 256, n - 1);
      assert ToBytes(v, n)[1..] == ToBytes(v / 256, n - 1);
    }
  }

  /** Reading a field and writing it back gives the same bytes. */
  lemma FieldRoundTrip(bytes: seq<Byte>)
    ensures ToBytes(WordValue(bytes), |bytes|) == bytes
  {
    WordValueBound(bytes, |bytes|);
    ToBytesValue(WordValue(bytes), |bytes|);
    WordValueInjective(ToBytes(WordValue(bytes), |bytes|), bytes);
  }

  // ---------------------------------------------------------------------
  // What compute and validate do

  predicate Block(buf: seq<Byte>, off: nat) {
    off + 8 <= |buf| <= 4096
  }

  function Field(crc: nat, ecc: nat): (f: seq<Byte>)
    ensures |f| == 8
  {
    ToBytes(crc, 4) + ToBytes(ecc, 2) + [ZERO, ZERO]
  }

  function WithField(buf: seq<Byte>, off: nat, field: seq<Byte>): (r: seq<Byte>)
    requires off + 8 <= |buf| && |field| == 8
    ensures |r| == |buf|
  {
    buf[..off] + field + buf[off + 8..]
  }

  function Zeroed(buf: seq<Byte>, off: nat): seq<Byte>
    requires off + 8 <= |buf|
  {
    WithField(buf, off, NO_CHECK)
  }

  function Parity(buf: seq<Byte>): nat {
    Encode(0, buf, 8 * |buf|, 0, 0)
  }

  /** The conversion to uint16_t. */
  function Uint16(v: nat): (r: nat)
    ensures v < 65536 ==> r == v
  {
    v % 65536
  }

  /** The block with its check field filled in. */
  function Computed(buf: seq<Byte>, off: nat): seq<Byte>
    requires Block(buf, off)
  {
    var z := Zeroed(buf, off);
    WithField(z, off, Field(Fold(SEED, z), Uint16(Parity(z))))
  }

  /** The block with the data bit at code position `fix` flipped, if there is one. */
  ghost function Fixed(buf: seq<Byte>, fix: nat): (r: seq<Byte>)
    ensures |r| == |buf|
  {
    if exists i: nat :: Located(8 * |buf|, 0, fix, i) then
      var i: nat :| Located(8 * |buf|, 0, fix, i);
      WithBit(buf, i, !Bit(buf, i))
    else buf
  }

  /** Whether the check of a block with its field zeroed succeeds against the stored
      values, and the block left behind. */
  ghost function Verdict(z: seq<Byte>, off: nat, crc: nat, ecc: nat): (bool, seq<Byte>)
    requires Block(z, off)
  {
    if Fold(SEED, z) == crc then (true, WithField(z, off, Field(crc, ecc)))
    else
      var fixed := Fixed(z, Xor(Parity(z), ecc));
      (Fold(SEED, fixed) == crc, WithField(fixed, off, Field(crc, ecc)))
  }

  ghost function Validated(buf: seq<Byte>, off: nat): (bool, seq<Byte>)
    requires Block(buf, off)
  {
    Verdict(Zeroed(buf, off), off, StoredCrc(buf, off), StoredEcc(buf, off))
  }

  function StoredCrc(buf: seq<Byte>, off: nat): nat
    requires off + 8 <= |buf|
  {
    WordValue(buf[off..off + 4])
  }

  function StoredEcc(buf: seq<Byte>, off: nat): nat
    requires off + 8 <= |buf|
  {
    WordValue(buf[off + 4..off + 6])
  }

  method WriteField(data: array<Byte>, off: nat, field: seq<Byte>)
    requires off + 8 <= data.Length && |field| == 8
    modifies data
    ensures data[..] == WithField(old(data[..]), off, field)
  {
    for i := 0 to 8
      invariant forall k :: 0 <= k < data.Length ==>
        data[k] == if off <= k < off + i then field[k - off] else old(data[k])
    {
      data[off + i] := field[i];
    }
    assert |data[..]| == |WithField(old(data[..]), off, field)|;
    assert forall k :: 0 <= k < data.Length ==> data[..][k] == WithField(old(data[..]), off, field)[k];
  }

  /** ocfs2_block_check_compute(); `address` is where the block lies in memory. */
  method Compute(data: array<Byte>, off: nat, address: nat)
    requires Block(data[..], off)
    modifies data
    ensures data[..] == Computed(old(data[..]), off)
  {
    WriteField(data, off, NO_CHECK);
    var crc := Crc32Le(SEED, data[..], address);
    var ecc := HammingEncode(0, data[..], 8 * data.Length, 0);
    WriteField(data, off, Field(crc, Uint16(ecc)));
  }

  /** The parity word of a block, and the positions of its bits, fit sixteen bits. */
  lemma ParityFits(buf: seq<Byte>)
    requires |buf| <= 4096
    ensures Parity(buf) < 65536 && CodeBit(8 * |buf|) < WORD32
  {
    Pow2Values();
    ParityAtMost(8 * |buf|, 16);
    if |buf| > 0 {
      ParityAtMost(8 * |buf| - 1, 16);
      EncodeFits(0, buf, 8 * |buf|, 0, 16);
    }
  }

  lemma FixFits(parity: nat, bytes: seq<Byte>)
    requires parity < 65536 && |bytes| == 2
    ensures Xor(parity, WordValue(bytes)) < 65536
  {
    Pow2Values();
    WordValueBound(bytes, 2);
    XorBound(parity, WordValue(bytes), 16);
  }

  method FixBlock(data: array<Byte>, fix: nat)
    requires 0 < data.Length <= 4096 && fix < WORD32
    modifies data
    ensures data[..] == Fixed(old(data[..]), fix)
  {
    ParityFits(data[..]);
    HammingFix(data, 8 * data.Length, 0, fix);
  }

  /** ocfs2_block_check_validate() */
  method Validate(data: array<Byte>, off: nat, address: nat) returns (ok: bool)
    requires Block(data[..], off)
    modifies data
    ensures (ok, data[..]) == Validated(old(data[..]), off)
  {
    var crcBytes, eccBytes := data[off..off + 4], data[off + 4..off + 6];
    var crc, ecc := WordValue(crcBytes), WordValue(eccBytes);
    WriteField(data, off, NO_CHECK);
    var found := Crc32Le(SEED, data[..], address);
    ok := found == crc;
    if !ok {
      var parity := HammingEncode(0, data[..], 8 * data.Length, 0);
      ParityFits(data[..]);
      FixFits(parity, eccBytes);
      FixBlock(data, Xor(parity, ecc));
      found := Crc32Le(SEED, data[..], address);
      ok := found == crc;
    }
    WriteField(data, off, Field(crc, ecc));
  }

  // ---------------------------------------------------------------------
  // Every single-bit error

  lemma FixedAt(buf: seq<Byte>, i: nat)
    requires i < 8 * |buf|
    ensures Fixed(buf, CodeBit(i)) == WithBit(buf, i, !Bit(buf, i))
  {
    assert Located(8 * |buf|, 0, CodeBit(i), i);
    LocatedOnce(8 * |buf|, 0, CodeBit(i), i);
  }

  /** A block and the same block with one bit flipped have different checksums, and
      parity words that tell which bit it is. */
  lemma FlipDetected(z: seq<Byte>, n: nat)
    requires n < 8 * |z|
    ensures Fold(SEED, WithBit(z, n, !Bit(z, n))) != Fold(SEED, z)
    ensures Xor(Parity(WithBit(z, n, !Bit(z, n))), Parity(z)) == CodeBit(n)
  {
    var f := WithBit(z, n, !Bit(z, n));
    var k := n / 8;
    assert Bit(f, n) != Bit(z, n);
    assert f == z[..k] + [f[k]] + z[k + 1..];
    assert z == z[..k] + [z[k]] + z[k + 1..];
    BurstDetected(SEED, z[..k], [f[k]], [z[k]], z[k + 1..]);
    EncodeFlip(f, z, 8 * |z|, 0, 0, n);
  }

  lemma {:induction false} OverwrittenParts(c: seq<Byte>, off: nat, field: seq<Byte>)
    requires off + 8 <= |c| && |field| == 8
    ensures var f := WithField(c, off, field);
      && Zeroed(f, off) == Zeroed(c, off)
      && StoredCrc(f, off) == WordValue(field[..4]) && StoredEcc(f, off) == WordValue(field[4..6])
  {
    var f := WithField(c, off, field);
    assert f[off..off + 4] == field[..4] && f[off + 4..off + 6] == field[4..6];
  }

  lemma {:induction false} StoredField(z: seq<Byte>, off: nat, crc: nat, ecc: nat)
    requires off + 8 <= |z| && crc < WORD32 && ecc < 65536
    ensures var c := WithField(z, off, Field(crc, ecc));
      StoredCrc(c, off) == crc && StoredEcc(c, off) == ecc && Zeroed(c, off) == Zeroed(z, off)
  {
    var field := Field(crc, ecc);
    assert field[..4] == ToBytes(crc, 4) && field[4..6] == ToBytes(ecc, 2);
    OverwrittenParts(z, off, field);
    Pow2Values();
    ToBytesValue(crc, 4);
    ToBytesValue(ecc, 2);
  }

  lemma ComputedIs(buf: seq<Byte>, off: nat)
    requires Block(buf, off)
    ensures var z := Zeroed(buf, off);
      && Fold(SEED, z) < WORD32 && Parity(z) < 65536
      && Computed(buf, off) == WithField(z, off, Field(Fold(SEED, z), Parity(z)))
  {
    var z := Zeroed(buf, off);
    assert Fold(SEED, z) < WORD32 by { FoldBound(SEED, z); }
    assert Parity(z) < 65536 by { ParityFits(z); }
  }

  /** What a computed block stores. */
  lemma ComputedFacts(buf: seq<Byte>, off: nat)
    requires Block(buf, off)
    ensures var z, c := Zeroed(buf, off), Computed(buf, off);
      Zeroed(c, off) == z && StoredCrc(c, off) == Fold(SEED, z) && StoredEcc(c, off) == Parity(z)
  {
    var z := Zeroed(buf, off);
    ZeroedTwice(buf, off);
    ComputedIs(buf, off);
    StoredField(z, off, Fold(SEED, z), Parity(z));
  }

  lemma ZeroedTwice(buf: seq<Byte>, off: nat)
    requires off + 8 <= |buf|
    ensures Zeroed(Zeroed(buf, off), off) == Zeroed(buf, off)
  {
  }

  /** With no error at all the check succeeds and changes nothing. */
  lemma NoErrorAccepted(buf: seq<Byte>, off: nat)
    requires Block(buf, off)
    ensures Validated(Computed(buf, off), off) == (true, Computed(buf, off))
  {
    ComputedFacts(buf, off);
    ComputedIs(buf, off);
  }

  /** Data outside the check field: the flipped bit is found and flipped back. */
  lemma DataFlipRepaired(buf: seq<Byte>, off: nat, n: nat)
    requires Block(buf, off)
    requires n < 8 * off || 8 * (off + 8) <= n < 8 * |buf|
    ensures var c := Computed(buf, off);
      Validated(WithBit(c, n, !Bit(c, n)), off) == (true, c)
  {
    var z, c := Zeroed(buf, off), Computed(buf, off);
    var f := WithBit(c, n, !Bit(c, n));
    ComputedFacts(buf, off);
    ComputedIs(buf, off);
    FlipOutside(z, c, off, n);
    FlipDetected(z, n);
    var zf := WithBit(z, n, !Bit(z, n));
    FixedAt(zf, n);
    WithBitUndo(z, n, !Bit(z, n));
    assert Fixed(zf, Xor(Parity(zf), Parity(z))) == z;
  }

  lemma FlipOutside(z: seq<Byte>, c: seq<Byte>, off: nat, n: nat)
    requires off + 8 <= |z| == |c| && Zeroed(c, off) == z
    requires n < 8 * off || 8 * (off + 8) <= n < 8 * |z|
    ensures var f := WithBit(c, n, !Bit(c, n));
      && Zeroed(f, off) == WithBit(z, n, !Bit(z, n))
      && StoredCrc(f, off) == StoredCrc(c, off) && StoredEcc(f, off) == StoredEcc(c, off)
  {
    var f, k := WithBit(c, n, !Bit(c, n)), n / 8;
    assert f[off..off + 4] == c[off..off + 4] && f[off + 4..off + 6] == c[off + 4..off + 6];
    assert k < off || off + 8 <= k;
    assert z[k] == c[k];
    assert f == c[k := f[k]];
    assert Zeroed(f, off) == z[k := f[k]];
  }

  lemma RewrittenField(c: seq<Byte>, off: nat, field: seq<Byte>)
    requires off + 8 <= |c| && |field| == 8
    ensures WithField(Zeroed(c, off), off, Field(WordValue(field[..4]), WordValue(field[4..6])))
         == WithField(c, off, field[..6] + [ZERO, ZERO])
  {
    FieldRoundTrip(field[..4]);
    FieldRoundTrip(field[4..6]);
    assert field[..4] + field[4..6] == field[..6];
  }

  /** A block whose check field, and only that, was overwritten, leaving the checksum
      or the parity word intact.  The block is accepted exactly when the checksum is
      intact, and nothing but the reserved bytes is changed either way. */
  lemma FieldOverwritten(buf: seq<Byte>, off: nat, field: seq<Byte>)
    requires Block(buf, off) && |field| == 8
    requires var c := Computed(buf, off);
      field[..4] == c[off..off + 4] || field[4..6] == c[off + 4..off + 6]
    ensures var c := Computed(buf, off);
      Validated(WithField(c, off, field), off)
      == (field[..4] == c[off..off + 4], WithField(c, off, field[..6] + [ZERO, ZERO]))
  {
    var z, c := Zeroed(buf, off), Computed(buf, off);
    ComputedFacts(buf, off);
    OverwrittenParts(c, off, field);
    RewrittenField(c, off, field);
    if field[..4] != c[off..off + 4] {
      if WordValue(field[..4]) == StoredCrc(c, off) {
        WordValueInjective(field[..4], c[off..off + 4]);
      }
      XorZero(Parity(z));
      NothingAtZero(z);
    }
  }

  lemma NothingAtZero(z: seq<Byte>)
    ensures Fixed(z, 0) == z
  {
    LocatedBounds(8 * |z|, 0, 0);
    CodeBitBounds(0);
  }

  // ---------------------------------------------------------------------
  // What the checksum is

  /** The checksum in the block, as it is sent, is the remainder of the block, with zeros for the
      check field, its first 32 bits inverted, and shifted up 32 places, on division by the
      polynomial of RFC 1952. */
  ghost predicate RightChecksum(buf: seq<Byte>, off: nat)
    requires Block(buf, off)
  {
    var z := buf[..off] + seq(8, _ => ZERO) + buf[off + 8..];
    Remainder(Inverted(BitsOf(z), 32) + Zeros(32), GENERATOR, BitsOf(buf[off..off + 4]))
  }

  /** That is so exactly when the code finds it to be. */
  lemma {:induction false} RightIff(buf: seq<Byte>, off: nat)
    requires Block(buf, off)
    ensures RightChecksum(buf, off) <==> StoredCrc(buf, off) == Fold(SEED, Zeroed(buf, off))
  {
    var z, stored := Zeroed(buf, off), buf[off..off + 4];
    var m := Inverted(BitsOf(z), 32) + Zeros(32);
    assert NO_CHECK == seq(8, _ => ZERO);
    ChecksumIsRemainder(z, SEED);
    GeneratorIs();
    BitsOfWord(stored);
    BitsOfValue(BitsOf(stored), StoredCrc(buf, off));
    FoldBound(SEED, z);
    if RightChecksum(buf, off) {
      RemainderUnique(m, GENERATOR, BitsOf(stored), ToBits(Fold(SEED, z), 32));
      Pow2Values();
      ToBitsValue(Fold(SEED, z), 32);
    }
  }

  /** Computing stores it, behind it the parity word of the block with zeros for the field, and
      changes nothing else. */
  lemma {:induction false} ComputedRight(buf: seq<Byte>, off: nat)
    requires Block(buf, off)
    ensures var c := Computed(buf, off);
      && RightChecksum(c, off) && c[..off] == buf[..off] && c[off + 8..] == buf[off + 8..]
      && WordValue(c[off + 4..off + 6]) == Parity(buf[..off] + seq(8, _ => ZERO) + buf[off + 8..])
      && c[off + 6..off + 8] == [ZERO, ZERO]
  {
    var c, z := Computed(buf, off), Zeroed(buf, off);
    ComputedFacts(buf, off);
    RightIff(c, off);
    assert NO_CHECK == seq(8, _ => ZERO);
    assert c[off..off + 8] == Field(Fold(SEED, z), Uint16(Parity(z)));
    assert c[off + 6..off + 8] == c[off..off + 8][6..8];
  }

  /** A block with the right checksum is accepted. */
  lemma {:induction false} RightAccepted(buf: seq<Byte>, off: nat)
    requires Block(buf, off) && RightChecksum(buf, off)
    ensures Validated(buf, off).0
  {
    RightIff(buf, off);
  }

  lemma {:induction false} NothingEncoded(buf: seq<Byte>)
    requires forall i :: 0 <= i < |buf| ==> buf[i] == ZERO
    ensures Parity(buf) == 0
  {
    EncodeSkip(0, buf, 8 * |buf|, 0, 0, 8 * |buf|);
  }

  lemma {:induction false} NothingFolded(buf: seq<Byte>)
    requires forall i :: 0 <= i < |buf| ==> buf[i] == ZERO
    ensures Fold(0, buf) == 0
    decreases |buf|
  {
    if buf != [] {
      NothingFolded(buf[1..]);
      StepsShift(8, 0);
      XorZero(0);
    }
  }

  lemma {:induction false} NothingStored(bytes: seq<Byte>)
    requires forall i :: 0 <= i < |bytes| ==> bytes[i] == ZERO
    ensures WordValue(bytes) == 0
  {
    if bytes != [] {
      NothingStored(bytes[1..]);
    }
  }

  /** A block of zeros is refused. */
  lemma {:induction false} ZerosRefused(buf: seq<Byte>, off: nat)
    requires Block(buf, off) && forall i :: 0 <= i < |buf| ==> buf[i] == ZERO
    ensures !Validated(buf, off).0
  {
    assert Zeroed(buf, off) == buf;
    NothingStored(buf[off..off + 4]);
    NothingStored(buf[off + 4..off + 6]);
    NothingEncoded(buf);
    XorZero(0);
    NothingAtZero(buf);
    NothingFolded(buf);
    if Fold(SEED, buf) == 0 {
      FoldInjective(SEED, 0, buf);
    }
  }

  /** The bit that validation flips lies in the check field. */
  ghost predicate FixInField(buf: seq<Byte>, off: nat)
    requires Block(buf, off)
  {
    var fix := Xor(Parity(Zeroed(buf, off)), StoredEcc(buf, off));
    exists i: nat :: Located(8 * |buf|, 0, fix, i) && 8 * off <= i < 8 * (off + 8)
  }

  /** A block that is accepted ends up with the right checksum, unless it had not and the bit
      flipped lies in the check field, which is then overwritten. */
  lemma {:induction false} AcceptedRightIff(buf: seq<Byte>, off: nat)
    requires Block(buf, off) && Validated(buf, off).0
    ensures Block(Validated(buf, off).1, off)
    ensures RightChecksum(Validated(buf, off).1, off) <==> RightChecksum(buf, off) || !FixInField(buf, off)
  {
    var z, crc, ecc := Zeroed(buf, off), StoredCrc(buf, off), StoredEcc(buf, off);
    var r := Validated(buf, off).1;
    RightIff(buf, off);
    StoredFits(buf, off);
    ZeroedTwice(buf, off);
    if Fold(SEED, z) == crc {
      StoredField(z, off, crc, ecc);
    } else {
      var fix := Xor(Parity(z), ecc);
      var fixed := Fixed(z, fix);
      StoredField(fixed, off, crc, ecc);
      FixedField(z, off, fix);
    }
    RightIff(r, off);
  }

  lemma {:induction false} StoredFits(buf: seq<Byte>, off: nat)
    requires off + 8 <= |buf|
    ensures StoredCrc(buf, off) < WORD32 && StoredEcc(buf, off) < 65536
  {
    Pow2Values();
    WordValueBound(buf[off..off + 4], 4);
    WordValueBound(buf[off + 4..off + 6], 2);
  }

  lemma {:induction false} FlipZeroed(z: seq<Byte>, off: nat, i: nat)
    requires Block(z, off) && Zeroed(z, off) == z && i < 8 * |z|
    ensures var f := WithBit(z, i, !Bit(z, i));
      Zeroed(f, off) == if 8 * off <= i < 8 * (off + 8) then z else f
  {
    var k, f := i / 8, WithBit(z, i, !Bit(z, i));
    assert f == z[k := f[k]];
    if off <= k < off + 8 {
      assert Zeroed(f, off) == z;
    } else {
      assert Zeroed(f, off) == f;
    }
  }

  /** The flipped bit shows in the checksum of the block with a zero field, unless it lies there. */
  lemma {:induction false} FixedField(z: seq<Byte>, off: nat, fix: nat)
    requires Block(z, off) && Zeroed(z, off) == z && Fold(SEED, Fixed(z, fix)) != Fold(SEED, z)
    ensures Fold(SEED, Zeroed(Fixed(z, fix), off)) == Fold(SEED, Fixed(z, fix)) <==>
      !exists i: nat :: Located(8 * |z|, 0, fix, i) && 8 * off <= i < 8 * (off + 8)
  {
    if i: nat :| Located(8 * |z|, 0, fix, i) {
      FixedAt(z, i);
      LocatedOnce(8 * |z|, 0, fix, i);
      FlipZeroed(z, off, i);
    }
  }

  /** Such blocks exist: the check field of a block in whose zeroed field bit `n` is set.  It is
      accepted without being changed, and its checksum is wrong. */
  lemma {:induction false} FieldFixAccepted(buf: seq<Byte>, off: nat, n: nat)
    requires Block(buf, off) && 8 * off <= n < 8 * (off + 8)
    ensures var z := Zeroed(buf, off);
      var f := WithBit(z, n, true);
      var b := WithField(z, off, Field(Fold(SEED, f), Uint16(Parity(f))));
      Validated(b, off) == (true, b) && !RightChecksum(b, off)
  {
    var z := Zeroed(buf, off);
    var f := WithBit(z, n, true);
    ParityFits(f);
    FoldBound(SEED, f);
    assert !Bit(z, n);
    FlipDetected(z, n);
    XorComm(Parity(z), Parity(f));
    ZeroedTwice(buf, off);
    StoredField(z, off, Fold(SEED, f), Parity(f));
    FixedAt(z, n);
    var b := WithField(z, off, Field(Fold(SEED, f), Parity(f)));
    RightIff(b, off);
    assert f == z[n / 8 := f[n / 8]];
    assert WithField(f, off, Field(Fold(SEED, f), Parity(f))) == b;
  }
}
