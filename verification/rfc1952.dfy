/**
 The reference CRC-32 of section 8 of RFC 1952 (gzip): a 256-entry table built by
 `make_crc_table` with a branching shift/XOR step, and `update_crc`, which consumes
 one byte per table lookup. It serves as the independent definition the bit-by-bit
 checksum of main.go is proved equal to.
 */
module Rfc1952 {
  import opened Crc32

  /** One step of `make_crc_table`, with the branch on the low bit written out. */
  function BranchStep(c: bv32): bv32
  {
    if c & 1 != 0 then Polynomial ^ (c >> 1) else c >> 1
  }

  /** `k` branching steps from `c`. */
  function Reduce(c: bv32, k: nat): bv32
  {
    if k == 0 then c else BranchStep(Reduce(c, k - 1))
  }

  /** Entry `n` of `crc_table`: eight branching steps from `n`. */
  function TableEntry(n: Byte): bv32
  {
    Reduce(n as bv32, 8)
  }

  /** The index `update_crc` looks up for register `c` and byte `b`. */
  function TableIndex(c: bv32, b: Byte): Byte
  {
    ((c & 0xFF) as Byte) ^ b
  }

  /** One iteration of the loop of `update_crc`. */
  function TableStep(c: bv32, b: Byte): bv32
  {
    TableEntry(TableIndex(c, b)) ^ (c >> 8)
  }

  /** The loop of `update_crc` over `buf`, starting from register `c`. */
  function TableRegister(c: bv32, buf: seq<Byte>): bv32
    decreases |buf|
  {
    if |buf| == 0 then c else TableRegister(TableStep(c, buf[0]), buf[1..])
  }

  /** The complement `update_crc` applies on entry and on exit. */
  function Complement(r: bv32): bv32
  {
    r ^ 0xFFFF_FFFF
  }

  /** `update_crc`: a running CRC is complemented into a register, the bytes are
      consumed, and the register is complemented back. */
  function UpdateCrc(crc: bv32, buf: seq<Byte>): bv32
  {
    Complement(TableRegister(Complement(crc), buf))
  }

  /** `crc`: the CRC of `buf`, starting from the running value 0. */
  function Crc(buf: seq<Byte>): bv32
  {
    UpdateCrc(0, buf)
  }

  /** The branch-free step of main.go is the branching step of the table builder. */
  lemma StepIsBranchStep(c: bv32)
    ensures Step(c) == BranchStep(c)
  {
  }

  /** Equal registers take equal branching steps. Stated as a lemma to keep bit-vector
      reasoning out of the chained proofs that call it. */
  lemma BranchStepCongruent(a: bv32, b: bv32)
    requires a == b
    ensures BranchStep(a) == BranchStep(b)
  {
  }

  /** Any number of branching steps agrees with as many branch-free steps. */
  lemma {:induction false} StepsAgree(c: bv32, k: nat)
    ensures Reduce(c, k) == Steps(c, k)
  {
    if k > 0 {
      StepsAgree(c, k - 1);
      BranchStepCongruent(Reduce(c, k - 1), Steps(c, k - 1));
      StepIsBranchStep(Steps(c, k - 1));
    }
  }

  /** A table entry is what eight bit-by-bit steps make of the entry's index. */
  lemma TableEntryIsEightSteps(n: Byte)
    ensures TableEntry(n) == Steps(n as bv32, 8)
  {
    StepsAgree(n as bv32, 8);
  }

  /** The index looked up is the low byte of the register XOR the byte. */
  lemma TableIndexIsLowByte(c: bv32, b: Byte)
    ensures TableIndex(c, b) as bv32 == (c ^ (b as bv32)) & 0xFF
  {
  }

  /** Equal registers reach equal registers after the same number of steps. Stated as a lemma to keep bit-vector
      reasoning out of the chained proofs that call it. */
  lemma StepsCongruent(a: bv32, b: bv32, k: nat)
    requires a == b
    ensures Steps(a, k) == Steps(b, k)
  {
  }

  /** The entry looked up is eight steps of the low byte of the register XOR the byte. */
  lemma TableEntryAt(c: bv32, b: Byte)
    ensures TableEntry(TableIndex(c, b)) == Steps((c ^ (b as bv32)) & 0xFF, 8)
  {
    TableEntryIsEightSteps(TableIndex(c, b));
    TableIndexIsLowByte(c, b);
    StepsCongruent(TableIndex(c, b) as bv32, (c ^ (b as bv32)) & 0xFF, 8);
  }

  /** One table lookup does the work of absorbing one byte bit by bit. */
  lemma TableStepAgrees(c: bv32, b: Byte)
    ensures TableStep(c, b) == UpdateByte(c, b)
  {
    UpdateByteSplit(c, b);
    TableEntryAt(c, b);
  }

  /** The table-driven loop and the bit-by-bit loop leave the same register. */
  lemma {:induction false} TableRegisterAgrees(c: bv32, buf: seq<Byte>)
    ensures TableRegister(c, buf) == Register(c, buf)
    decreases |buf|
  {
    if |buf| > 0 {
      TableStepAgrees(c, buf[0]);
      TableRegisterAgrees(TableStep(c, buf[0]), buf[1..]);
    }
  }

  /** The checksum of main.go is the CRC-32 of RFC 1952 on every input. */
  lemma ChecksumIsRfc1952Crc(buf: seq<Byte>)
    ensures Checksum(buf) == Crc(buf)
  {
    TableRegisterAgrees(InitialRegister, buf);
    assert Complement(0) == InitialRegister;
  }

  /** Complementing twice gives the register back. */
  lemma ComplementTwice(r: bv32)
    ensures Complement(Complement(r)) == r
  {
  }

  /** Equal registers stay equal through the same bytes. Stated as a lemma to keep bit-vector
      reasoning out of the chained proofs that call it. */
  lemma TableRegisterCongruent(a: bv32, b: bv32, buf: seq<Byte>)
    requires a == b
    ensures TableRegister(a, buf) == TableRegister(b, buf)
  {
  }

  /** `update_crc` is meant to be called on consecutive pieces of a stream: continuing
      the CRC of `a` over `b` gives the CRC of `a + b`. */
  lemma UpdateCrcIncremental(crc: bv32, a: seq<Byte>, b: seq<Byte>)
    ensures UpdateCrc(UpdateCrc(crc, a), b) == UpdateCrc(crc, a + b)
  {
    ComplementTwice(TableRegister(Complement(crc), a));
    TableRegisterCongruent(Complement(UpdateCrc(crc, a)), TableRegister(Complement(crc), a), b);
    TableRegisterAgrees(Complement(crc), a);
    TableRegisterAgrees(Complement(crc), a + b);
    TableRegisterAgrees(TableRegister(Complement(crc), a), b);
    RegisterAppend(Complement(crc), a, b);
  }

  /** A checksum computed by main.go can be continued with `update_crc`: continuing
      the checksum of `a` over `b` gives the checksum of `a + b`. */
  lemma ChecksumContinues(a: seq<Byte>, b: seq<Byte>)
    ensures UpdateCrc(Checksum(a), b) == Checksum(a + b)
  {
    ChecksumIsRfc1952Crc(a);
    ChecksumIsRfc1952Crc(a + b);
    UpdateCrcIncremental(0, a, b);
  }

  /** The check value of the reference CRC: "123456789" gives 0xCBF43926. */
  lemma CrcCheckValue()
    ensures Crc([0x31, 0x32, 0x33, 0x34, 0x35, 0x36, 0x37, 0x38, 0x39]) == 0xCBF4_3926
  {
    CheckValue();
    ChecksumIsRfc1952Crc([0x31, 0x32, 0x33, 0x34, 0x35, 0x36, 0x37, 0x38, 0x39]);
  }
}
