/**
 The table-free, bit-by-bit reflected CRC-32 of `crc32` in main.go: polynomial
 0xEDB88320, register preset to all ones, result complemented. The register is a
 `bv32`, so the 32-bit wrap-around of the Go `uint32` arithmetic is exact.
 */
module Crc32 {

  type Byte = bv8

  /** The reflected generator polynomial of ISO 3309 / ITU-T V.42. */
  const Polynomial: bv32 := 0xEDB8_8320

  /** The value the register starts from. */
  const InitialRegister: bv32 := 0xFFFF_FFFF

  /** The value the final register is XORed with. */
  const FinalXor: bv32 := 0xFFFF_FFFF

  /** One shift/XOR step, written branch-free as main.go writes it: `-(crc & 1)` wraps
      to all ones when the low bit is set and is zero otherwise, so the polynomial is
      folded in exactly when a one bit is shifted out. */
  function Step(crc: bv32): (r: bv32)
    ensures crc & 1 == 1 ==> r == (crc >> 1) ^ Polynomial
    ensures crc & 1 == 0 ==> r == crc >> 1
  {
    (crc >> 1) ^ (-(crc & 1) & Polynomial)
  }

  /** The register after `n` steps. */
  function Steps(crc: bv32, n: nat): bv32
  {
    if n == 0 then crc else Step(Steps(crc, n - 1))
  }

  /** Absorb one byte: XOR it into the low bits, then eight steps. */
  function UpdateByte(crc: bv32, b: Byte): bv32
  {
    Steps(crc ^ (b as bv32), 8)
  }

  /** The register after absorbing `data`, in order, starting from `crc`:
      the left fold of `UpdateByte`. */
  function Register(crc: bv32, data: seq<Byte>): bv32
    decreases |data|
  {
    if |data| == 0 then crc else Register(UpdateByte(crc, data[0]), data[1..])
  }

  /** The checksum main.go returns for `buffer`. */
  function Checksum(buffer: seq<Byte>): (r: bv32)
    ensures buffer == [] ==> r == 0
  {
    Register(InitialRegister, buffer) ^ FinalXor
  }

  /** The same computation as the nested loops of main.go, the inner step spelled out
      as the source spells it. */
  method ComputeChecksum(buffer: seq<Byte>) returns (checksum: bv32)
    ensures checksum == Checksum(buffer)
  {
    var crc := InitialRegister;
    for i := 0 to |buffer|
      invariant Register(crc, buffer[i..]) == Register(InitialRegister, buffer)
    {
      crc := crc ^ (buffer[i] as bv32);
      ghost var absorbed := crc;
      for j := 0 to 8
        invariant crc == Steps(absorbed, j)
      {
        crc := (crc >> 1) ^ (-(crc & 1) & Polynomial);
      }
    }
    checksum := crc ^ FinalXor;
  }

  /** Processing `a + b` is processing `a`, then processing `b` from where `a` left
      the register: the checksum is a left fold over the bytes. */
  lemma {:induction false} RegisterAppend(crc: bv32, a: seq<Byte>, b: seq<Byte>)
    ensures Register(crc, a + b) == Register(Register(crc, a), b)
    decreases |a|
  {
    if |a| == 0 {
      assert a + b == b;
    } else {
      assert (a + b)[0] == a[0];
      assert (a + b)[1..] == a[1..] + b;
      RegisterAppend(UpdateByte(crc, a[0]), a[1..], b);
    }
  }

  /** A single byte appended at the end costs exactly one more `UpdateByte`. */
  lemma RegisterSnoc(crc: bv32, data: seq<Byte>, b: Byte)
    ensures Register(crc, data + [b]) == UpdateByte(Register(crc, data), b)
  {
    RegisterAppend(crc, data, [b]);
  }

  // The table-driven identity. The bit-vector operators are wrapped in named functions
  // so that the chaining proofs below see uninterpreted symbols and only the small
  // lemmas at the bottom of the chain reason about bits.

  /** XOR of two registers. */
  function Mix(a: bv32, b: bv32): bv32 { a ^ b }

  /** Shift right by one position. */
  function Halve(e: bv32): bv32 { e >> 1 }

  /** The low eight bits of a register. */
  function Low(x: bv32): bv32 { x & 0xFF }

  /** The register with its low eight bits cleared. */
  function High(x: bv32): bv32 { x & 0xFFFF_FF00 }

  /** The low bit is clear. */
  predicate Even(e: bv32) { e & 1 == 0 }

  /** Equal registers step to equal registers. Like the other congruence lemmas, it
      keeps bit-vector reasoning out of the chained proofs that call it. */
  lemma StepCongruent(a: bv32, b: bv32)
    requires a == b
    ensures Step(a) == Step(b)
  {
  }

  /** XORing in a value whose low bit is clear commutes with a step, the value being
      shifted along with the register. */
  lemma StepXorEven(a: bv32, e: bv32)
    requires e & 1 == 0
    ensures Step(a ^ e) == Step(a) ^ (e >> 1)
  {
    if a & 1 == 1 {
      assert (a ^ e) & 1 == 1 && (a ^ e) >> 1 == (a >> 1) ^ (e >> 1);
    } else {
      assert (a ^ e) & 1 == 0 && (a ^ e) >> 1 == (a >> 1) ^ (e >> 1);
    }
  }

  /** One step keeps a split of the register into a low part and a part with a clear
      low bit, the latter only being shifted. */
  lemma SplitStep(a: bv32, lo: bv32, e: bv32)
    requires a == Mix(lo, e)
    requires Even(e)
    ensures Step(a) == Mix(Step(lo), Halve(e))
  {
    StepCongruent(a, lo ^ e);
    StepXorEven(lo, e);
  }

  /** The masking facts the eight-step split rests on: the register is its low byte
      XOR its high part, whose low bits stay clear through seven halvings, and eight
      halvings of it are a shift by eight. */
  lemma ByteMasks(x: bv32)
    ensures x == Mix(Low(x), High(x))
    ensures Even(High(x))
    ensures Even(Halve(High(x)))
    ensures Even(Halve(Halve(High(x))))
    ensures Even(Halve(Halve(Halve(High(x)))))
    ensures Even(Halve(Halve(Halve(Halve(High(x))))))
    ensures Even(Halve(Halve(Halve(Halve(Halve(High(x)))))))
    ensures Even(Halve(Halve(Halve(Halve(Halve(Halve(High(x))))))))
    ensures Even(Halve(Halve(Halve(Halve(Halve(Halve(Halve(High(x)))))))))
    ensures Halve(Halve(Halve(Halve(Halve(Halve(Halve(Halve(High(x))))))))) == x >> 8
  {
  }

  /** Eight applications of `Step`, spelled out. */
  lemma EightSteps(x: bv32)
    ensures Steps(x, 8) == Step(Step(Step(Step(Step(Step(Step(Step(x))))))))
  {
    assert Steps(x, 1) == Step(x);
    assert Steps(x, 2) == Step(Step(x));
    assert Steps(x, 3) == Step(Step(Step(x)));
    assert Steps(x, 4) == Step(Step(Step(Step(x))));
    assert Steps(x, 5) == Step(Step(Step(Step(Step(x)))));
    assert Steps(x, 6) == Step(Step(Step(Step(Step(Step(x))))));
    assert Steps(x, 7) == Step(Step(Step(Step(Step(Step(Step(x)))))));
  }

  /** Eight steps of a register are eight steps of its low byte, XOR the register
      shifted down by eight. */
  lemma {:induction false} EightStepSplit(x: bv32)
    ensures Steps(x, 8) == Steps(Low(x), 8) ^ (x >> 8)
  {
    EightSteps(x);
    EightSteps(Low(x));
    ByteMasks(x);
    SplitStep(x, Low(x), High(x));
    SplitStep(Step(x), Step(Low(x)), Halve(High(x)));
    SplitStep(Step(Step(x)), Step(Step(Low(x))), Halve(Halve(High(x))));
    SplitStep(Step(Step(Step(x))), Step(Step(Step(Low(x)))), Halve(Halve(Halve(High(x)))));
    SplitStep(Step(Step(Step(Step(x)))), Step(Step(Step(Step(Low(x))))), Halve(Halve(Halve(Halve(High(x))))));
    SplitStep(Step(Step(Step(Step(Step(x))))), Step(Step(Step(Step(Step(Low(x)))))), Halve(Halve(Halve(Halve(Halve(High(x)))))));
    SplitStep(Step(Step(Step(Step(Step(Step(x)))))), Step(Step(Step(Step(Step(Step(Low(x))))))), Halve(Halve(Halve(Halve(Halve(Halve(High(x))))))));
    SplitStep(Step(Step(Step(Step(Step(Step(Step(x))))))), Step(Step(Step(Step(Step(Step(Step(Low(x)))))))), Halve(Halve(Halve(Halve(Halve(Halve(Halve(High(x)))))))));
  }

  /** Absorbing a byte is eight steps of the low byte of the register XOR the byte,
      XOR the rest of the register shifted down by eight: the identity behind every
      table-driven CRC-32. */
  lemma UpdateByteSplit(crc: bv32, b: Byte)
    ensures UpdateByte(crc, b) == Steps((crc ^ (b as bv32)) & 0xFF, 8) ^ (crc >> 8)
  {
    EightStepSplit(crc ^ (b as bv32));
    assert (crc ^ (b as bv32)) >> 8 == crc >> 8;
  }

  /** Absorbing a byte into a known register is eight steps of a known value. */
  lemma UpdateByteAt(crc: bv32, b: Byte, x: bv32)
    requires x == crc ^ (b as bv32)
    ensures UpdateByte(crc, b) == Steps(x, 8)
  {
  }

  /** The register after each of the first five digits of the check input. */
  lemma CheckRegistersLow()
    ensures Steps(0xFFFF_FFCE, 8) == 0x7C23_1048
    ensures Steps(0x7C23_107A, 8) == 0xB0AC_BB32
    ensures Steps(0xB0AC_BB01, 8) == 0x77B7_9C2D
    ensures Steps(0x77B7_9C19, 8) == 0x641C_1F5C
    ensures Steps(0x641C_1F69, 8) == 0x340A_C5E3
  {
  }

  /** The register after each of the last four digits of the check input. */
  lemma CheckRegistersHigh()
    ensures Steps(0x340A_C5D5, 8) == 0xF68D_2C9E
    ensures Steps(0xF68D_2CA9, 8) == 0xAFFC_9660
    ensures Steps(0xAFFC_9658, 8) == 0x651F_2550
    ensures Steps(0x651F_2569, 8) == 0x340B_C6D9
  {
  }

  /** The standard check value: the ASCII digits "123456789" give 0xCBF43926. */
  lemma CheckValue()
    ensures Checksum([0x31, 0x32, 0x33, 0x34, 0x35, 0x36, 0x37, 0x38, 0x39]) == 0xCBF4_3926
  {
    var s: seq<Byte> := [0x31, 0x32, 0x33, 0x34, 0x35, 0x36, 0x37, 0x38, 0x39];
    CheckRegistersLow();
    CheckRegistersHigh();
    UpdateByteAt(0xFFFF_FFFF, 0x31, 0xFFFF_FFCE);
    UpdateByteAt(0x7C23_1048, 0x32, 0x7C23_107A);
    UpdateByteAt(0xB0AC_BB32, 0x33, 0xB0AC_BB01);
    UpdateByteAt(0x77B7_9C2D, 0x34, 0x77B7_9C19);
    UpdateByteAt(0x641C_1F5C, 0x35, 0x641C_1F69);
    UpdateByteAt(0x340A_C5E3, 0x36, 0x340A_C5D5);
    UpdateByteAt(0xF68D_2C9E, 0x37, 0xF68D_2CA9);
    UpdateByteAt(0xAFFC_9660, 0x38, 0xAFFC_9658);
    UpdateByteAt(0x651F_2550, 0x39, 0x651F_2569);
    assert Register(0x340B_C6D9, s[9..]) == 0x340B_C6D9;
    assert Register(0x651F_2550, s[8..]) == 0x340B_C6D9;
    assert Register(0xAFFC_9660, s[7..]) == 0x340B_C6D9;
    assert Register(0xF68D_2C9E, s[6..]) == 0x340B_C6D9;
    assert Register(0x340A_C5E3, s[5..]) == 0x340B_C6D9;
    assert Register(0x641C_1F5C, s[4..]) == 0x340B_C6D9;
    assert Register(0x77B7_9C2D, s[3..]) == 0x340B_C6D9;
    assert Register(0xB0AC_BB32, s[2..]) == 0x340B_C6D9;
    assert Register(0x7C23_1048, s[1..]) == 0x340B_C6D9;
    assert Register(0xFFFF_FFFF, s[0..]) == 0x340B_C6D9;
  }
}
