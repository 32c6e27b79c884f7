/** The CPU state of the interpreter and the OP-IMM path: the register file
    with its hardwired-zero register x0 (section 2.1 of the RISC-V
    Unprivileged ISA), the OP-IMM handler, the opcode dispatch and the fetch
    loop of `main`.  Each operation is given as a function on the value of
    the state (`Machine`) and, where the C code updates the state in place,
    as a method of `CpuState` proved against that function. */
module Cpu {
  import opened Decoder

  /** The C program counter is a `uint32_t`: it wraps modulo 2^32. */
  const WORD_MODULUS: int := 0x1_0000_0000

  type U32 = x: int | 0 <= x < 0x1_0000_0000

  datatype Fault = InvalidRegisterIndex | UnimplementedOpcode

  datatype Result<T> = Ok(value: T) | Err(fault: Fault)

  /** Outcome of an operation that only changes state. */
  datatype Status = Done | Failed(fault: Fault)

  /** `uint32_t registers[32]`. */
  type RegisterFile = s: seq<U32> | |s| == 32 witness seq(32, _ => 0)

  /** The value of a `struct CPUState`: 32 registers and a word-indexed
      program counter. */
  datatype Machine = Machine(regs: RegisterFile, pc: U32)

  /** The state after `memset(&state, 0, sizeof(state))`. */
  function Zeroed(): (m: Machine)
    ensures m.pc == 0
    ensures forall i :: 0 <= i < 32 ==> m.regs[i] == 0
  {
    Machine(seq(32, _ => 0), 0)
  }

  /** `read_register`: an index of 32 or more is an error, any other index
      yields the stored value; the state is only read. */
  function ReadRegister(m: Machine, rs: U32): (r: Result<U32>)
    ensures r.Err? <==> rs >= 32
    ensures r.Err? ==> r.fault == InvalidRegisterIndex
    ensures r.Ok? ==> r.value == m.regs[rs]
  {
    if rs >= 32 then Err(InvalidRegisterIndex) else Ok(m.regs[rs])
  }

  /** `write_register`: an index of 32 or more is an error and changes
      nothing; a write to x0 is silently discarded; any other write replaces
      exactly that register. */
  function RegisterWrite(m: Machine, rd: U32, value: U32): (r: Result<Machine>)
    ensures r.Err? <==> rd >= 32
    ensures r.Err? ==> r.fault == InvalidRegisterIndex
    ensures rd == 0 ==> r == Ok(m)
    ensures r.Ok? ==> r.value.pc == m.pc && r.value.regs[0] == m.regs[0]
    ensures r.Ok? && rd != 0 ==> r.value.regs[rd] == value
    ensures r.Ok? ==> forall i :: 0 <= i < 32 && i != rd ==> r.value.regs[i] == m.regs[i]
  {
    if rd >= 32 then Err(InvalidRegisterIndex)
    else if rd == 0 then Ok(m)
    else Ok(m.(regs := m.regs[rd := value]))
  }

  /** Reading back after a write: the written value from the written
      register unless it is x0, the old contents everywhere else. */
  lemma ReadAfterWrite(m: Machine, rd: U32, value: U32, rs: U32)
    requires rd < 32
    ensures RegisterWrite(m, rd, value).Ok?
    ensures ReadRegister(RegisterWrite(m, rd, value).value, rs)
         == if rs == rd && rd != 0 then Ok(value) else ReadRegister(m, rs)
  {
  }

  /** ADDI on decoded fields: x[rd] := imm + x[rs1] through `read_register`
      and `write_register`, the `uint32_t` sum wrapping modulo 2^32. */
  function Addi(m: Machine, rd: U32, rs1: U32, imm: U32): (r: Machine)
    requires rd < 32 && rs1 < 32
    ensures r.pc == m.pc && r.regs[0] == m.regs[0]
    ensures rd != 0 ==> r.regs[rd] == (imm + m.regs[rs1]) % WORD_MODULUS
    ensures forall i :: 0 <= i < 32 && i != rd ==> r.regs[i] == m.regs[i]
  {
    RegisterWrite(m, rd, (imm + ReadRegister(m, rs1).value) % WORD_MODULUS).value
  }

  /** `cpu_instruction_op_imm` as written: it switches on the source's
      funct3 (bits [14:13]); only case 0, ADDI, does anything, with `imm`
      NOT sign-extended; every other case is an empty stub. */
  function OpImm(m: Machine, w: Word): (r: Machine)
    ensures r.pc == m.pc && r.regs[0] == m.regs[0]
    ensures forall i :: 0 <= i < 32 && i != Rd(w) ==> r.regs[i] == m.regs[i]
  {
    if Funct3(w) == 0 then Addi(m, Rd(w), Rs1(w), Imm(w)) else m
  }

  /** ADDI: a word whose (source) funct3 is 0 adds its zero-extended
      immediate to x[rs1] modulo 2^32 and stores the sum in x[rd], unless rd
      is x0. */
  lemma AddiWritesSum(m: Machine, w: Word)
    requires Funct3(w) == 0
    ensures Rd(w) != 0 ==> OpImm(m, w).regs[Rd(w)] == (Imm(w) + m.regs[Rs1(w)]) % WORD_MODULUS
    ensures Rd(w) == 0 ==> OpImm(m, w) == m
  {
  }

  /** SLTI, SLTIU, XORI, ORI, ANDI, SLLI, SRLI and SRAI are empty stubs:
      any word whose (source) funct3 is not 0 leaves the state unchanged. */
  lemma StubsChangeNothing(m: Machine, w: Word)
    requires Funct3(w) != 0
    ensures OpImm(m, w) == m
  {
  }

  /** `execute_instruction`: OP-IMM when opcode bits [6:2] are 00100,
      whatever bits [1:0] hold; any other opcode is an error. */
  function Execute(m: Machine, w: Word): (r: Result<Machine>)
    ensures r.Ok? <==> Opcode(w) in {0x10, 0x11, 0x12, 0x13}
    ensures r.Ok? ==> r.value == OpImm(m, w)
    ensures r.Err? ==> r.fault == UnimplementedOpcode
  {
    if OpcodeGroup(w) == OP_IMM_GROUP then Ok(OpImm(m, w)) else Err(UnimplementedOpcode)
  }

  /** A word whose opcode is 1111111 has no handler. */
  lemma UnimplementedOpcodeFaults(m: Machine, w: Word)
    requires Opcode(w) == 0x7F
    ensures Execute(m, w) == Err(UnimplementedOpcode)
  {
  }

  /** One iteration of the loop in `main`: run the OP-IMM handler on the
      word, then add 1 to the `uint32_t` program counter. */
  function Step(m: Machine, w: Word): (r: Machine)
    ensures r.regs == OpImm(m, w).regs
    ensures m.pc + 1 < WORD_MODULUS ==> r.pc == m.pc + 1
    ensures m.pc + 1 == WORD_MODULUS ==> r.pc == 0
  {
    OpImm(m, w).(pc := (m.pc + 1) % WORD_MODULUS)
  }

  /** The loop of `main`: step while the program counter is below the word
      count.  It stops with the program counter equal to the word count, and
      x0 is never changed. */
  function RunFrom(m: Machine, memory: seq<Word>): (r: Machine)
    requires |memory| < WORD_MODULUS
    ensures m.pc <= |memory| ==> r.pc == |memory|
    ensures m.pc >= |memory| ==> r == m
    ensures r.regs[0] == m.regs[0]
    decreases |memory| - m.pc
  {
    if m.pc < |memory| then RunFrom(Step(m, memory[m.pc]), memory) else m
  }

  /** The program of `main`: `nop` (`addi x0, x0, 0`), then `addi x1, x1, 3`. */
  const DEMO_PROGRAM: seq<Word> := [0x0000_0013, 0x0030_8093]

  /** From the zeroed state the demo program ends with pc 2, x1 = 3 and
      every other register 0. */
  lemma DemoProgramResult()
    ensures RunFrom(Zeroed(), DEMO_PROGRAM) == Machine(Zeroed().regs[1 := 3], 2)
  {
    var m0 := Zeroed();
    var m1 := Step(m0, DEMO_PROGRAM[0]);
    assert m1 == Machine(m0.regs, 1);
    var m2 := Step(m1, DEMO_PROGRAM[1]);
    assert m2 == Machine(m0.regs[1 := 3], 2);
  }

  /** `struct CPUState`, updated in place.  `Valid` includes the
      hardwired-zero rule: x0 holds 0, as the zeroed start establishes and
      every write keeps. */
  class CpuState {
    const registers: array<U32>
    var programCounter: U32

    ghost predicate Valid()
      reads this, registers
    {
      registers.Length == 32 && registers[0] == 0
    }

    /** The current value of the state. */
    function Snapshot(): (m: Machine)
      reads this, registers
      requires Valid()
      ensures m.regs[0] == 0
    {
      Machine(registers[..], programCounter)
    }

    /** A zero-initialised state. */
    constructor ()
      ensures Valid() && fresh(registers)
      ensures Snapshot() == Zeroed()
    {
      registers := new U32[32](_ => 0);
      programCounter := 0;
    }

    /** `write_register`. */
    method WriteRegister(rd: U32, value: U32) returns (status: Status)
      requires Valid()
      modifies registers
      ensures Valid()
      ensures match RegisterWrite(old(Snapshot()), rd, value)
        case Ok(next) => status == Done && Snapshot() == next
        case Err(fault) => status == Failed(fault) && Snapshot() == old(Snapshot())
    {
      if rd >= 32 {
        return Failed(InvalidRegisterIndex);
      }
      if rd == 0 {
        return Done;
      }
      registers[rd] := value;
      status := Done;
    }

    /** `cpu_instruction_op_imm`. */
    method ExecuteOpImm(instruction: Word)
      requires Valid()
      modifies registers
      ensures Valid()
      ensures Snapshot() == OpImm(old(Snapshot()), instruction)
    {
      var imm := Imm(instruction);
      var rs1 := Rs1(instruction);
      var funct3 := Funct3(instruction);
      var rd := Rd(instruction);
      match funct3
      case 0 =>
        // ADDI
        var source := ReadRegister(Snapshot(), rs1);
        var _ := WriteRegister(rd, (imm + source.value) % WORD_MODULUS);
      case 2 =>  // SLTI
      case 3 =>  // SLTIU
      case 4 =>  // XORI
      case 6 =>  // ORI
      case 7 =>  // ANDI
      case _ =>  // SLLI, SRLI/SRAI: `shamt` is computed and never used
    }

    /** `execute_instruction`. */
    method ExecuteInstruction(instruction: Word) returns (status: Status)
      requires Valid()
      modifies registers
      ensures Valid()
      ensures match Execute(old(Snapshot()), instruction)
        case Ok(next) => status == Done && Snapshot() == next
        case Err(fault) => status == Failed(fault) && Snapshot() == old(Snapshot())
    {
      if OpcodeGroup(instruction) == OP_IMM_GROUP {
        ExecuteOpImm(instruction);
        status := Done;
      } else {
        status := Failed(UnimplementedOpcode);
      }
    }

    /** The fetch loop of `main`, over any program shorter than 2^32 words
        (a longer one would make the `uint32_t` counter wrap forever). */
    method Run(memory: seq<Word>)
      requires Valid() && |memory| < WORD_MODULUS
      modifies this, registers
      ensures Valid()
      ensures Snapshot() == RunFrom(old(Snapshot()), memory)
    {
      while programCounter < |memory|
        invariant Valid()
        invariant RunFrom(Snapshot(), memory) == RunFrom(old(Snapshot()), memory)
        decreases |memory| - programCounter
      {
        var instruction := memory[programCounter];
        ExecuteOpImm(instruction);
        programCounter := (programCounter + 1) % WORD_MODULUS;
      }
    }
  }

  /** `main` without its final `dump_state`: run the demo program from a
      zeroed state and return the final state. */
  method Emulate() returns (final: Machine)
    ensures final.pc == 2 && final.regs[1] == 3
    ensures forall i :: 0 <= i < 32 && i != 1 ==> final.regs[i] == 0
  {
    var state := new CpuState();
    state.Run(DEMO_PROGRAM);
    final := state.Snapshot();
    DemoProgramResult();
  }
}
