/** The OP-IMM path and the fetch loop as they are evidently meant to work,
    next to the members of `Cpu` that model the code as written:
    - funct3 taken from bits [14:12] (the code shifts by 13);
    - the 12-bit immediate sign-extended (the code zero-extends it);
    - every fetched word dispatched through `execute_instruction`, stopping
      at the first fault (the loop of `main` calls the OP-IMM handler
      directly).
    Instructions other than ADDI stay the empty stubs the code has. */
module Corrected {
  import opened Decoder
  import opened Cpu

  /** `cpu_instruction_op_imm` as intended: ADDI when the ISA's funct3 is
      000, adding the sign-extended immediate; every other funct3 is a stub. */
  function OpImmIsa(m: Machine, w: Word): (r: Machine)
    ensures r.pc == m.pc && r.regs[0] == m.regs[0]
    ensures forall i :: 0 <= i < 32 && i != Rd(w) ==> r.regs[i] == m.regs[i]
    ensures Funct3Isa(w) != 0 ==> r == m
    ensures Funct3Isa(w) == 0 && Rd(w) != 0
        ==> r.regs[Rd(w)] == (SignExtend12(Imm(w)) + m.regs[Rs1(w)]) % WORD_MODULUS
  {
    if Funct3Isa(w) == 0 then Addi(m, Rd(w), Rs1(w), SignExtend12(Imm(w))) else m
  }

  /** ADDI round trip on decoded fields: `addi rd, rs1, imm` then
      `addi rd2, rd, -imm` puts the original x[rs1] in rd2, for every 12-bit
      imm except -2048 (whose negation is not a 12-bit value), because the
      immediates are sign-extended and the sum wraps modulo 2^32. */
  lemma AddiRoundTrip(m: Machine, rd: U32, rs1: U32, rd2: U32, imm: nat)
    requires 0 < rd < 32 && rs1 < 32 && 0 < rd2 < 32
    requires imm < 0x1000 && imm != 0x800
    ensures Addi(Addi(m, rd, rs1, SignExtend12(imm)), rd2, rd, SignExtend12((0x1000 - imm) % 0x1000)).regs[rd2]
         == m.regs[rs1]
  {
    var a, b := SignExtend12(imm), SignExtend12((0x1000 - imm) % 0x1000);
    SignExtendNegate(imm);
    AddThenSubtract(a, b, m.regs[rs1]);
  }

  /** The same round trip on instruction words run by the corrected
      handler. */
  lemma OpImmIsaRoundTrip(m: Machine, w1: Word, w2: Word)
    requires Funct3Isa(w1) == 0 && Funct3Isa(w2) == 0
    requires Rd(w1) != 0 && Rs1(w2) == Rd(w1) && Rd(w2) != 0
    requires Imm(w1) != 0x800 && Imm(w2) == (0x1000 - Imm(w1)) % 0x1000
    ensures OpImmIsa(OpImmIsa(m, w1), w2).regs[Rd(w2)] == m.regs[Rs1(w1)]
  {
    RoundTripOnFields(m, w1, w2, Rd(w1), Rs1(w1), Rd(w2), Imm(w1));
  }

  /** Helper: the word-level round trip with the decoded fields passed in
      as plain values. */
  lemma RoundTripOnFields(m: Machine, w1: Word, w2: Word, rd1: U32, r1: U32, rd2: U32, imm1: nat)
    requires Funct3Isa(w1) == 0 && Funct3Isa(w2) == 0
    requires rd1 == Rd(w1) && r1 == Rs1(w1) && rd2 == Rd(w2) && imm1 == Imm(w1)
    requires 0 < rd1 && Rs1(w2) == rd1 && 0 < rd2
    requires imm1 != 0x800 && Imm(w2) == (0x1000 - imm1) % 0x1000
    ensures OpImmIsa(OpImmIsa(m, w1), w2).regs[rd2] == m.regs[r1]
  {
    var m1 := Addi(m, rd1, r1, SignExtend12(imm1));
    OpImmIsaIsAddi(m, w1);
    OpImmIsaIsAddi(m1, w2);
    AddiRoundTrip(m, rd1, r1, rd2, imm1);
  }

  /** With ISA funct3 000 the corrected handler is ADDI on the decoded
      fields and the sign-extended immediate. */
  lemma OpImmIsaIsAddi(m: Machine, w: Word)
    requires Funct3Isa(w) == 0
    ensures OpImmIsa(m, w) == Addi(m, Rd(w), Rs1(w), SignExtend12(Imm(w)))
  {
  }

  /** Helper: adding `a` then `b` modulo 2^32 is the identity when `a + b`
      is a multiple of 2^32. */
  lemma AddThenSubtract(a: int, b: int, v: int)
    requires 0 <= a && 0 <= b && 0 <= v < WORD_MODULUS
    requires (b + a) % WORD_MODULUS == 0
    ensures (b + (a + v) % WORD_MODULUS) % WORD_MODULUS == v
  {
  }

  /** `addi x1, x0, 1` (0x00100093) then `addi x2, x1, -1` (0xFFF08113). */
  const ROUND_TRIP_FIRST: Word := 0x0010_0093
  const ROUND_TRIP_SECOND: Word := 0xFFF0_8113

  /** As written the round trip fails: without sign extension -1 is read
      as 4095, and x2 ends at 4096 instead of 0; the corrected handler
      gives 0. */
  lemma RoundTripFailsAsWritten()
    ensures OpImm(OpImm(Zeroed(), ROUND_TRIP_FIRST), ROUND_TRIP_SECOND).regs[2] == 0x1000
    ensures OpImmIsa(OpImmIsa(Zeroed(), ROUND_TRIP_FIRST), ROUND_TRIP_SECOND).regs[2] == 0
  {
    var m1 := OpImm(Zeroed(), ROUND_TRIP_FIRST);
    assert m1.regs[1] == 1;
    var n1 := OpImmIsa(Zeroed(), ROUND_TRIP_FIRST);
    assert n1.regs[1] == 1;
  }

  /** As written, a word whose ISA funct3 is 001 (SLLI) takes the ADDI
      path and adds its immediate; the corrected handler leaves it a stub. */
  lemma SlliRunsAsAddiAsWritten(m: Machine, w: Word)
    requires Funct3Isa(w) == 1 && Rd(w) != 0
    ensures OpImm(m, w).regs[Rd(w)] == (Imm(w) + m.regs[Rs1(w)]) % WORD_MODULUS
    ensures OpImmIsa(m, w) == m
  {
    Funct3DropsLowBit(w);
    AddiWritesSum(m, w);
  }

  /** `execute_instruction` dispatching to the corrected handler. */
  function ExecuteIsa(m: Machine, w: Word): (r: Result<Machine>)
    ensures r.Ok? <==> OpcodeGroup(w) == OP_IMM_GROUP
    ensures r.Ok? ==> r.value == OpImmIsa(m, w)
    ensures r.Err? ==> r.fault == UnimplementedOpcode
  {
    if OpcodeGroup(w) == OP_IMM_GROUP then Ok(OpImmIsa(m, w)) else Err(UnimplementedOpcode)
  }

  /** How a checked run ends: the final state, or the state, word and
      fault of the first instruction that could not be executed. */
  datatype RunOutcome = Finished(final: Machine) | Faulted(at: Machine, word: Word, fault: Fault)

  /** The loop of `main` as intended: every word goes through the opcode
      dispatch, and the run stops at the first fault with the program
      counter still on the offending word. */
  function RunChecked(m: Machine, memory: seq<Word>): (r: RunOutcome)
    requires |memory| < WORD_MODULUS
    ensures r.Finished? && m.pc <= |memory| ==> r.final.pc == |memory|
    ensures r.Finished? ==> r.final.regs[0] == m.regs[0]
    ensures r.Faulted? ==> m.pc <= r.at.pc < |memory| && memory[r.at.pc] == r.word
    ensures r.Faulted? ==> OpcodeGroup(r.word) != OP_IMM_GROUP && r.fault == UnimplementedOpcode
    ensures r.Faulted? ==> forall k :: m.pc <= k < r.at.pc ==> OpcodeGroup(memory[k]) == OP_IMM_GROUP
    ensures r.Faulted? ==> r.at.regs[0] == m.regs[0]
    decreases |memory| - m.pc
  {
    if m.pc < |memory| then
      match ExecuteIsa(m, memory[m.pc])
      case Ok(next) => RunChecked(next.(pc := m.pc + 1), memory)
      case Err(fault) => Faulted(m, memory[m.pc], fault)
    else
      Finished(m)
  }

  /** A checked run finishes exactly when every word from the program
      counter on is an OP-IMM word. */
  lemma {:induction false} RunCheckedFinishes(m: Machine, memory: seq<Word>)
    requires |memory| < WORD_MODULUS
    ensures RunChecked(m, memory).Finished?
        <==> forall k :: m.pc <= k < |memory| ==> OpcodeGroup(memory[k]) == OP_IMM_GROUP
    decreases |memory| - m.pc
  {
    if m.pc < |memory| {
      var w := memory[m.pc];
      if OpcodeGroup(w) == OP_IMM_GROUP {
        RunCheckedFinishes(OpImmIsa(m, w).(pc := m.pc + 1), memory);
      }
    }
  }

  /** `lui x1, 0x308` (0x003080B7): opcode 0110111, not OP-IMM. */
  const LUI_WORD: Word := 0x0030_80B7

  /** As written the loop of `main` runs the LUI word through the OP-IMM
      handler, which reads it as `addi x1, x1, 3`; dispatching first
      reports it as an unimplemented opcode and changes nothing. */
  lemma BypassRunsLuiAsAddi()
    ensures RunFrom(Zeroed(), [LUI_WORD]).regs[1] == 3
    ensures Execute(Zeroed(), LUI_WORD) == Err(UnimplementedOpcode)
    ensures RunChecked(Zeroed(), [LUI_WORD]) == Faulted(Zeroed(), LUI_WORD, UnimplementedOpcode)
  {
    var m1 := Step(Zeroed(), LUI_WORD);
    assert m1.regs[1] == 3 && m1.pc == 1;
  }

  /** On the program of `main` the corrected loop ends in the same state as
      the loop as written. */
  lemma DemoProgramAgrees()
    ensures RunChecked(Zeroed(), DEMO_PROGRAM) == Finished(RunFrom(Zeroed(), DEMO_PROGRAM))
  {
    DemoProgramResult();
    var n1 := OpImmIsa(Zeroed(), DEMO_PROGRAM[0]);
    assert n1 == Zeroed();
    var n2 := OpImmIsa(Machine(Zeroed().regs, 1), DEMO_PROGRAM[1]);
    assert n2 == Machine(Zeroed().regs[1 := 3], 1);
  }
}
