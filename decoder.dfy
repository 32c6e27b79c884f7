/** Field extraction for a 32-bit instruction word, as `cpu_instruction_op_imm`
    does it with hand-written masks and shifts, next to the field layout of
    section 2.2 of the RISC-V Unprivileged ISA (Base Instruction Formats).
    The word is a `bv32`; each field is returned as the value of the
    `uint32_t` the C code stores it in. */
module Decoder {
  import opened BinaryMask

  type Word = bv32

  /** Immediate of an I-type word: bits [31:20], NOT sign-extended. */
  function Imm(w: Word): (r: nat)
    ensures r < 0x1000
  {
    ((w & 0xFFF0_0000) >> 20) as int
  }

  /** First source register: bits [19:15]. */
  function Rs1(w: Word): (r: nat)
    ensures r < 32
  {
    ((w & 0x000F_8000) >> 15) as int
  }

  /** The source's funct3: it masks bits [14:12] but shifts by 13, so it
      yields bits [14:13] only. */
  function Funct3(w: Word): (r: nat)
    ensures r < 4
  {
    ((w & 0x0000_7000) >> 13) as int
  }

  /** Destination register: bits [11:7]. */
  function Rd(w: Word): (r: nat)
    ensures r < 32
  {
    ((w & 0x0000_0F80) >> 7) as int
  }

  /** Major opcode: bits [6:0]. */
  function Opcode(w: Word): (r: nat)
    ensures r < 128
  {
    (w & 0x0000_007F) as int
  }

  /** The selector `execute_instruction` switches on: opcode bits [6:2]. */
  function OpcodeGroup(w: Word): (r: nat)
    ensures r < 32
    ensures r == Opcode(w) / 4
  {
    ((w & 0x7C) >> 2) as int
  }

  /** Opcode group 00100 (binary) is OP-IMM, major opcode 0010011 (0x13). */
  const OP_IMM_GROUP: nat := 4

  /** funct3 as the ISA defines it: bits [14:12]. */
  function Funct3Isa(w: Word): (r: nat)
    ensures r < 8
  {
    ((w & 0x0000_7000) >> 12) as int
  }

  /** The source's funct3 is the ISA's funct3 with its low bit dropped, so
      funct3 001 (SLLI) reads as 000 (ADDI), and 011 (SLTIU) as 001. */
  lemma Funct3DropsLowBit(w: Word)
    ensures Funct3(w) == Funct3Isa(w) / 2
  {
  }

  /** Assembles an I-type word from its fields: the inverse of the decoder. */
  function EncodeI(imm: bv32, rs1: bv32, funct3: bv32, rd: bv32, opcode: bv32): (w: Word)
    requires imm < 0x1000 && rs1 < 32 && funct3 < 8 && rd < 32 && opcode < 128
    ensures Imm(w) == imm as int && Rs1(w) == rs1 as int && Funct3Isa(w) == funct3 as int
    ensures Rd(w) == rd as int && Opcode(w) == opcode as int
  {
    (imm << 20) | (rs1 << 15) | (funct3 << 12) | (rd << 7) | opcode
  }

  /** `BINARY_MASK_32BIT` reproduces each hand-written mask of the decoder,
      so each field is the word masked by the macro and shifted down; with
      the bit characterisation of `Mask32` this places imm at bits [31:20],
      rs1 at [19:15], rd at [11:7] and opcode at [6:0] (section 2.2 of the
      RISC-V Unprivileged ISA), and shows funct3 masked at [14:12] but
      shifted by 13. */
  lemma HandWrittenMasks(w: Word)
    ensures Mask32(20, 31) == 0xFFF0_0000 && Mask32(15, 19) == 0x000F_8000
    ensures Mask32(12, 14) == 0x0000_7000 && Mask32(7, 11) == 0x0000_0F80
    ensures Mask32(0, 6) == 0x0000_007F
    ensures Imm(w) == ((w & Mask32(20, 31)) >> 20) as int
    ensures Rs1(w) == ((w & Mask32(15, 19)) >> 15) as int
    ensures Funct3(w) == ((w & Mask32(12, 14)) >> 13) as int
    ensures Rd(w) == ((w & Mask32(7, 11)) >> 7) as int
    ensures Opcode(w) == (w & Mask32(0, 6)) as int
  {
  }

  /** Sign extension of a 12-bit immediate (section 2.3 of the RISC-V
      Unprivileged ISA, Immediate Encoding Variants), as a 32-bit value: bit
      11 is replicated into bits 31..12, the low 12 bits are kept. */
  function SignExtend12(imm: nat): (r: nat)
    requires imm < 0x1000
    ensures r < 0x1_0000_0000
    ensures r % 0x1000 == imm
    ensures imm < 0x800 ==> r == imm
    ensures imm >= 0x800 ==> r / 0x1000 == 0xF_FFFF
  {
    if imm < 0x800 then imm else imm + 0xFFFF_F000
  }

  /** Negating the 12-bit field negates the extended value modulo 2^32,
      except for -2048, whose negation does not fit in 12 bits. */
  lemma SignExtendNegate(imm: nat)
    requires imm < 0x1000 && imm != 0x800
    ensures (SignExtend12((0x1000 - imm) % 0x1000) + SignExtend12(imm)) % 0x1_0000_0000 == 0
  {
  }
}
