/**
 The two wrappers of USB Mass Storage Class Bulk-Only Transport 1.0 as the packed structs
 of usbv1.c and usb.c lay them out: the 31-byte command block wrapper (section 5.1) and
 the 13-byte command status wrapper (section 5.2), little-endian throughout.
 */
module BulkOnlyWire {

  import opened Kernel

  const CBW_SIG: nat := 0x4342_5355
  const CSW_SIG: nat := 0x5342_5355
  const CBW_LEN: nat := 31
  const CSW_LEN: nat := 13

  datatype Cbw = Cbw(signature: nat, tag: nat, dataLength: nat, flags: Byte, lun: Byte, cbLength: Byte, cb: seq<Byte>)

  datatype Csw = Csw(signature: nat, tag: nat, residue: nat, status: Byte)

  predicate CbwInRange(c: Cbw) {
    c.signature < UINT_MODULUS && c.tag < UINT_MODULUS && c.dataLength < UINT_MODULUS && |c.cb| == 16
  }

  predicate CswInRange(c: Csw) {
    c.signature < UINT_MODULUS && c.tag < UINT_MODULUS && c.residue < UINT_MODULUS
  }

  /** cpu_to_le32 followed by a store of the four bytes. */
  function Le32(x: nat): (b: seq<Byte>)
    requires x < UINT_MODULUS
    ensures |b| == 4
  {
    [x % 256, x / 256 % 256, x / 65536 % 256, x / 16777216]
  }

  function FromLe32(b: seq<Byte>): (x: nat)
    requires |b| == 4
    ensures x < UINT_MODULUS
  {
    var b0: nat, b1: nat, b2: nat, b3: nat := b[0], b[1], b[2], b[3];
    b0 + 256 * b1 + 65536 * b2 + 16777216 * b3
  }

  function EncodeCbw(c: Cbw): (b: seq<Byte>)
    requires CbwInRange(c)
    ensures |b| == CBW_LEN
  {
    Le32(c.signature) + Le32(c.tag) + Le32(c.dataLength) + [c.flags, c.lun, c.cbLength] + c.cb
  }

  function DecodeCbw(b: seq<Byte>): (c: Cbw)
    requires |b| == CBW_LEN
    ensures CbwInRange(c)
  {
    Cbw(FromLe32(b[0..4]), FromLe32(b[4..8]), FromLe32(b[8..12]), b[12], b[13], b[14], b[15..31])
  }

  function EncodeCsw(c: Csw): (b: seq<Byte>)
    requires CswInRange(c)
    ensures |b| == CSW_LEN
  {
    Le32(c.signature) + Le32(c.tag) + Le32(c.residue) + [c.status]
  }

  function DecodeCsw(b: seq<Byte>): (c: Csw)
    requires |b| == CSW_LEN
    ensures CswInRange(c)
  {
    Csw(FromLe32(b[0..4]), FromLe32(b[4..8]), FromLe32(b[8..12]), b[12])
  }

  lemma Le32RoundTrip(x: nat)
    requires x < UINT_MODULUS
    ensures FromLe32(Le32(x)) == x
  {
    assert x / 65536 == x / 256 / 256 && x / 16777216 == x / 256 / 256 / 256;
  }

  lemma Le32Onto(b: seq<Byte>)
    requires |b| == 4
    ensures Le32(FromLe32(b)) == b
  {
    var x := FromLe32(b);
    var b0: nat, b1: nat, b2: nat, b3: nat := b[0], b[1], b[2], b[3];
    assert x / 256 == b1 + 256 * b2 + 65536 * b3;
    assert x / 65536 == b2 + 256 * b3;
  }

  lemma CbwRoundTrip(c: Cbw)
    requires CbwInRange(c)
    ensures DecodeCbw(EncodeCbw(c)) == c
  {
    var b := EncodeCbw(c);
    assert b[0..4] == Le32(c.signature) && b[4..8] == Le32(c.tag) && b[8..12] == Le32(c.dataLength);
    assert b[15..31] == c.cb;
    Le32RoundTrip(c.signature);
    Le32RoundTrip(c.tag);
    Le32RoundTrip(c.dataLength);
  }

  lemma CbwOnto(b: seq<Byte>)
    requires |b| == CBW_LEN
    ensures EncodeCbw(DecodeCbw(b)) == b
  {
    Le32Onto(b[0..4]);
    Le32Onto(b[4..8]);
    Le32Onto(b[8..12]);
    assert b == b[0..4] + b[4..8] + b[8..12] + [b[12], b[13], b[14]] + b[15..31];
  }

  lemma CswRoundTrip(c: Csw)
    requires CswInRange(c)
    ensures DecodeCsw(EncodeCsw(c)) == c
  {
    var b := EncodeCsw(c);
    assert b[0..4] == Le32(c.signature) && b[4..8] == Le32(c.tag) && b[8..12] == Le32(c.residue);
    Le32RoundTrip(c.signature);
    Le32RoundTrip(c.tag);
    Le32RoundTrip(c.residue);
  }

  lemma CswOnto(b: seq<Byte>)
    requires |b| == CSW_LEN
    ensures EncodeCsw(DecodeCsw(b)) == b
  {
    Le32Onto(b[0..4]);
    Le32Onto(b[4..8]);
    Le32Onto(b[8..12]);
    assert b == b[0..4] + b[4..8] + b[8..12] + [b[12]];
  }

  /** `b` holds `x` at `at`, least significant byte first. */
  predicate LittleEndianAt(b: seq<Byte>, at: nat, x: nat)
    requires at + 4 <= |b|
  {
    x == b[at] as nat + 0x100 * b[at + 1] as nat + 0x1_0000 * b[at + 2] as nat + 0x100_0000 * b[at + 3] as nat
  }

  /** The byte positions of section 5.1, and the signature as the letters U S B C. */
  lemma CbwLayout(c: Cbw)
    requires CbwInRange(c)
    ensures var b := EncodeCbw(c);
            && LittleEndianAt(b, 0, c.signature) && LittleEndianAt(b, 4, c.tag) && LittleEndianAt(b, 8, c.dataLength)
            && b[12] == c.flags && b[13] == c.lun && b[14] == c.cbLength && b[15..31] == c.cb
            && (c.signature == CBW_SIG <==> b[0..4] == [0x55, 0x53, 0x42, 0x43])
  {
    var b := EncodeCbw(c);
    Le32Positions(c.signature);
    Le32Positions(c.tag);
    Le32Positions(c.dataLength);
    assert b[0..4] == Le32(c.signature) && b[4..8] == Le32(c.tag) && b[8..12] == Le32(c.dataLength) && b[15..31] == c.cb;
    assert forall i | 0 <= i < 4 :: b[i] == b[0..4][i] && b[4 + i] == b[4..8][i] && b[8 + i] == b[8..12][i];
  }

  /** The byte positions of section 5.2, and the signature as the letters U S B S. */
  lemma CswLayout(c: Csw)
    requires CswInRange(c)
    ensures var b := EncodeCsw(c);
            && LittleEndianAt(b, 0, c.signature) && LittleEndianAt(b, 4, c.tag) && LittleEndianAt(b, 8, c.residue) && b[12] == c.status
            && (c.signature == CSW_SIG <==> b[0..4] == [0x55, 0x53, 0x42, 0x53])
  {
    var b := EncodeCsw(c);
    Le32Positions(c.signature);
    Le32Positions(c.tag);
    Le32Positions(c.residue);
    assert b[0..4] == Le32(c.signature) && b[4..8] == Le32(c.tag) && b[8..12] == Le32(c.residue);
    assert forall i | 0 <= i < 4 :: b[i] == b[0..4][i] && b[4 + i] == b[4..8][i] && b[8 + i] == b[8..12][i];
  }

  lemma Le32Positions(x: nat)
    requires x < UINT_MODULUS
    ensures LittleEndianAt(Le32(x), 0, x)
    ensures x == CBW_SIG <==> Le32(x) == [0x55, 0x53, 0x42, 0x43]
    ensures x == CSW_SIG <==> Le32(x) == [0x55, 0x53, 0x42, 0x53]
  {
    assert x / 65536 == x / 256 / 256 && x / 16777216 == x / 256 / 256 / 256;
  }

  /** memcpy(dst, src, |src|). */
  method Memcpy(dst: array<Byte>, src: seq<Byte>)
    requires |src| <= dst.Length
    modifies dst
    ensures dst[..] == src + old(dst[|src|..])
    ensures |src| == dst.Length ==> dst[..] == src
  {
    for i := 0 to |src|
      invariant dst[..i] == src[..i]
      invariant dst[i..] == old(dst[i..])
    {
      dst[i] := src[i];
    }
  }
}
