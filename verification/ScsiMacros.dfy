/** The command macros of usb.c, which fill a command block wrapper byte by byte. */
module ScsiMacros {
  import opened Kernel
  import opened BulkOnlyWire

  datatype Macro =
    | TestUnitReady
    | RequestSense(allocLen: nat)
    | Inquiry(allocLen: nat)
    | ReadCapacity10
    | Read10(lba: nat, numBlocks: nat, blockSize: nat)
    | Write10(lba: nat, numBlocks: nat, blockSize: nat)

  const TAG: nat := 0x1234_5678

  function DataLength(m: Macro): (n: nat)
    ensures n < UINT_MODULUS
  {
    match m
    case TestUnitReady => 0
    case RequestSense(n) => n % UINT_MODULUS
    case Inquiry(n) => n % UINT_MODULUS
    case ReadCapacity10 => 8
    case Read10(_, num, size) => num * size % UINT_MODULUS
    case Write10(_, num, size) => num * size % UINT_MODULUS
  }

  predicate DataIn(m: Macro) {
    !m.TestUnitReady? && !m.Write10?
  }

  /** The byte `(x >> k) & 0xFF`, where `unit` is 2^k. */
  function Shifted(x: nat, unit: nat): Byte
    requires unit > 0
  {
    x / unit % 256
  }

  /** The ten bytes of a READ(10) or WRITE(10) as the macros place them. */
  function Block10(opcode: Byte, lba: nat, num: nat): (b: seq<Byte>)
    ensures |b| == 16
  {
    [opcode, Shifted(lba, 0x100_0000), Shifted(lba, 0x1_0000), Shifted(lba, 0x100), Shifted(lba, 1), Shifted(num, 0x100), Shifted(num, 1),
     0, 0, 0, 0, 0, 0, 0, 0, 0]
  }

  /** The command bytes; a store into a byte keeps the low eight bits. */
  function Bytes(m: Macro): (b: seq<Byte>)
    ensures |b| == 16
  {
    match m
    case TestUnitReady => seq(16, _ => 0)
    case RequestSense(n) => [0x03, 0, 0, 0, n % 256] + seq(11, _ => 0)
    case Inquiry(n) => [0x12, 0, 0, 0, n % 256] + seq(11, _ => 0)
    case ReadCapacity10 => [0x25] + seq(15, _ => 0)
    case Read10(lba, num, _) => Block10(0x28, lba, num)
    case Write10(lba, num, _) => Block10(0x2A, lba, num)
  }

  function Build(m: Macro): (c: Cbw)
    ensures CbwInRange(c)
  {
    Cbw(CBW_SIG, TAG, DataLength(m), if DataIn(m) then 0x80 else 0x00, 0,
        if m.TestUnitReady? || m.RequestSense? || m.Inquiry? then 6 else 10, Bytes(m))
  }

  /** struct command_block_wrapper, filled in place. */
  class CommandBlockWrapper {
    var dCBWSignature: nat
    var dCBWTag: nat
    var dCBWDataTransferLength: nat
    var bmCBWFlags: Byte
    var bCBWLUN: Byte
    var bCBWCBLength: Byte
    const CBWCB: array<Byte>

    ghost predicate Valid()
      reads this
    {
      CBWCB.Length == 16
    }

    ghost function Value(): Cbw
      reads this, CBWCB
    {
      Cbw(dCBWSignature, dCBWTag, dCBWDataTransferLength, bmCBWFlags, bCBWLUN, bCBWCBLength, CBWCB[..])
    }

    constructor ()
      ensures Valid() && fresh(CBWCB)
    {
      dCBWSignature, dCBWTag, dCBWDataTransferLength := 0, 0, 0;
      bmCBWFlags, bCBWLUN, bCBWCBLength := 0, 0, 0;
      CBWCB := new Byte[16](_ => 0);
    }

    /** The lines every macro begins with, from memset to the block length. */
    method Header(dataLength: nat, flags: Byte, cbLength: Byte)
      requires Valid()
      modifies this, CBWCB
      ensures Valid() && Value() == Cbw(CBW_SIG, TAG, dataLength, flags, 0, cbLength, seq(16, _ => 0))
    {
      for i := 0 to CBWCB.Length
        invariant forall k | 0 <= k < i :: CBWCB[k] == 0
      {
        CBWCB[i] := 0;
      }
      dCBWSignature := CBW_SIG;
      dCBWTag := TAG;
      dCBWDataTransferLength := dataLength;
      bmCBWFlags := flags;
      bCBWLUN := 0;
      bCBWCBLength := cbLength;
    }

    method ScsiTestUnitReady()
      requires Valid()
      modifies this, CBWCB
      ensures Valid() && Value() == Build(TestUnitReady)
    {
      Header(0, 0x00, 6);
      CBWCB[0] := 0x00;
    }

    method ScsiRequestSense(allocLen: nat)
      requires Valid()
      modifies this, CBWCB
      ensures Valid() && Value() == Build(RequestSense(allocLen))
    {
      Header(allocLen % UINT_MODULUS, 0x80, 6);
      CBWCB[0] := 0x03;
      CBWCB[4] := allocLen % 256;
    }

    method ScsiInquiry(allocLen: nat)
      requires Valid()
      modifies this, CBWCB
      ensures Valid() && Value() == Build(Inquiry(allocLen))
    {
      Header(allocLen % UINT_MODULUS, 0x80, 6);
      CBWCB[0] := 0x12;
      CBWCB[1] := 0x00;
      CBWCB[2] := 0x00;
      CBWCB[3] := 0x00;
      CBWCB[4] := allocLen % 256;
      CBWCB[5] := 0x00;
    }

    method ScsiReadCapacity10()
      requires Valid()
      modifies this, CBWCB
      ensures Valid() && Value() == Build(ReadCapacity10)
    {
      Header(8, 0x80, 10);
      CBWCB[0] := 0x25;
    }

    method ScsiRead10(lba: nat, numBlocks: nat, blockSize: nat)
      requires Valid()
      modifies this, CBWCB
      ensures Valid() && Value() == Build(Read10(lba, numBlocks, blockSize))
    {
      Header(numBlocks * blockSize % UINT_MODULUS, 0x80, 10);
      PutBlock(0x28, lba, numBlocks);
    }

    method ScsiWrite10(lba: nat, numBlocks: nat, blockSize: nat)
      requires Valid()
      modifies this, CBWCB
      ensures Valid() && Value() == Build(Write10(lba, numBlocks, blockSize))
    {
      Header(numBlocks * blockSize % UINT_MODULUS, 0x00, 10);
      PutBlock(0x2A, lba, numBlocks);
    }

    method PutBlock(opcode: Byte, lba: nat, num: nat)
      requires Valid() && CBWCB[..] == seq(16, _ => 0)
      modifies CBWCB
      ensures CBWCB[..] == Block10(opcode, lba, num)
    {
      PutBytes(opcode, Shifted(lba, 0x100_0000), Shifted(lba, 0x1_0000), Shifted(lba, 0x100), Shifted(lba, 1),
               Shifted(num, 0x100), Shifted(num, 1));
    }

    method PutBytes(b0: Byte, b1: Byte, b2: Byte, b3: Byte, b4: Byte, b5: Byte, b6: Byte)
      requires Valid() && CBWCB[..] == seq(16, _ => 0)
      modifies CBWCB
      ensures CBWCB[..] == [b0, b1, b2, b3, b4, b5, b6, 0, 0, 0, 0, 0, 0, 0, 0, 0]
    {
      assert forall i | 7 <= i < 16 :: CBWCB[i] == CBWCB[..][i] == 0;
      CBWCB[0], CBWCB[1], CBWCB[2], CBWCB[3], CBWCB[4], CBWCB[5], CBWCB[6] := b0, b1, b2, b3, b4, b5, b6;
    }
  }

  /** Reads `n` bytes at `at` as a big-endian number. */
  function BigEndian(b: seq<Byte>, at: nat, n: nat): nat
    requires at + n <= |b|
  {
    if n == 0 then 0 else BigEndian(b, at, n - 1) * 256 + b[at + n - 1] as nat
  }

  /** At the positions the macros use, the block address and the block count come back:
      the address modulo 2^32 and the count modulo 2^16, so exactly when they fit. */
  lemma BlockRecombines(opcode: Byte, lba: nat, num: nat)
    ensures BigEndian(Block10(opcode, lba, num), 1, 4) == lba <==> lba < UINT_MODULUS
    ensures BigEndian(Block10(opcode, lba, num), 5, 2) == num <==> num < 0x1_0000
  {
    var b := Block10(opcode, lba, num);
    var b0: nat, b1: nat, b2: nat, b3: nat := b[1], b[2], b[3], b[4];
    assert BigEndian(b, 1, 1) == b0;
    assert BigEndian(b, 1, 2) == b0 * 256 + b1;
    assert BigEndian(b, 1, 3) == (b0 * 256 + b1) * 256 + b2;
    assert BigEndian(b, 1, 4) == ((b0 * 256 + b1) * 256 + b2) * 256 + b3;
    var h: nat, l: nat := b[5], b[6];
    assert BigEndian(b, 5, 1) == h;
    assert BigEndian(b, 5, 2) == h * 256 + l;
    assert lba / 0x1_0000 == lba / 256 / 256 && lba / 0x100_0000 == lba / 256 / 256 / 256;
  }

  /** The group of an opcode, its top three bits, fixes the length of a SCSI command: 6 bytes in
      group 0, 10 in groups 1 and 2. */
  function GroupLength(opcode: Byte): Byte {
    if opcode < 0x20 then 6 else if opcode < 0x60 then 10 else 16
  }

  function OpcodeOf(m: Macro): Byte {
    match m
    case TestUnitReady => 0x00
    case RequestSense(_) => 0x03
    case Inquiry(_) => 0x12
    case ReadCapacity10 => 0x25
    case Read10(_, _, _) => 0x28
    case Write10(_, _, _) => 0x2A
  }

  /** Every macro makes a valid wrapper for its command: the signature, the length its opcode
      calls for, logical unit 0, and zeros from that length on; data come in exactly for the
      commands that fetch some; and the allocation length of REQUEST SENSE and INQUIRY is in
      byte 4, the announced one exactly below 256. */
  lemma MacroIsWellFormed(m: Macro)
    ensures var c := Build(m);
            && c.signature == CBW_SIG && c.tag == 0x1234_5678 && c.lun == 0 && |c.cb| == 16 && c.cb[0] == OpcodeOf(m)
            && c.cbLength == GroupLength(c.cb[0]) && (forall i | c.cbLength <= i < 16 :: c.cb[i] == 0)
            && (c.flags == 0x80 <==> OpcodeOf(m) in {0x03, 0x12, 0x25, 0x28}) && (c.flags == 0 <==> OpcodeOf(m) in {0x00, 0x2A})
            && (OpcodeOf(m) in {0x03, 0x12} ==>
                  && (forall i | 1 <= i < 16 && i != 4 :: c.cb[i] == 0) && c.cb[4] == c.dataLength % 256
                  && (c.cb[4] == c.dataLength <==> c.dataLength < 256))
            && (OpcodeOf(m) in {0x00, 0x25} ==> c.dataLength == (if m.TestUnitReady? then 0 else 8) && forall i | 1 <= i < 16 :: c.cb[i] == 0)
  {
  }

  /** Of READ(10) and WRITE(10), the announced length is the number of bytes of the blocks, as
      long as that fits 32 bits. */
  lemma BlocksAreAnnounced(lba: nat, num: nat, size: nat)
    ensures Build(Read10(lba, num, size)).dataLength == num * size <==> num * size < UINT_MODULUS
    ensures Build(Write10(lba, num, size)).dataLength == num * size <==> num * size < UINT_MODULUS
    ensures Build(Read10(lba, num, size)).cb[1..] == Build(Write10(lba, num, size)).cb[1..]
    ensures Build(Read10(lba, num, size)).cb == Block10(0x28, lba, num) && Build(Write10(lba, num, size)).cb == Block10(0x2A, lba, num)
  {
  }
}
