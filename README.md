# RV32I OP-IMM interpreter core, modelled in Dafny

This project models the start of an RV32I interpreter (chapter 2 of the
RISC-V Unprivileged ISA, RV32I Base Integer Instruction Set):

- `binary_mask.dfy` models the mask macro `BINARY_MASK_32BIT(start, end)`. It is
  a function over `bv32` whose precondition is the range in which both C shift
  counts are defined.
- `decoder.dfy` models field extraction from a 32-bit instruction word. It uses
  the source's own hand-written masks and shifts. It also holds the ISA's
  funct3, 12-bit sign extension and an I-type encoder that inverts the decoder.
- `cpu.dfy` models the CPU state (`struct CPUState`: 32 `uint32_t` registers and
  a word-indexed program counter) and the rest of `main.c`:
  `read_register`, `write_register`, the OP-IMM handler `cpu_instruction_op_imm`,
  the dispatch `execute_instruction` and the fetch loop of `main`.
  - Each operation is a function on the state's value (`Machine`).
  - Where the C code changes the state in place, a method of the class
    `CpuState` does the same. The class holds the registers in an array. Each
    method is proved to produce the state that its function gives.
  - The class invariant includes the hardwired-zero rule for x0 (section 2.1 of the RISC-V
    Unprivileged ISA).
- `corrected.dfy` holds the behaviour the code evidently intends, where the
  code as written differs (see Findings).

The instruction word is a `bv32`. Register contents and the program counter are
integers in 0..2^32-1. The `uint32_t` wrap-around is written out as `% 2^32`:
in the ADDI sum, and in the `program_counter += 1` of the loop. Each field
extractor returns its `uint32_t` value as a `nat`. Every `assert(0)` error path
in the source becomes an error value (`InvalidRegisterIndex`,
`UnimplementedOpcode`) and the state is left unchanged. The process abort
itself is not modelled.

Where the code departs from the RISC-V ISA, the model follows the code:

- SLTI, SLTIU, XORI, ORI, ANDI, SLLI and SRLI/SRAI are empty stubs in the code.
  They are modelled as no-ops. They are not given the semantics the ISA defines.
- The handler extracts the fields from the word directly.
- Reading x0 returns the stored value. The invariant keeps that value at 0.
  There is no special case for index 0 on reads.
- The code's funct3 is bits [14:13], and its immediate is not sign-extended.
  These two defects stay in the model of the code and are listed under
  Findings.

## Model

| member | source | states |
|---|---|---|
| BinaryMask.Mask32 | src/binarymask.h:4-6 | defined only when both shift counts lie in 0..31 (0 <= start, end <= 31); bit i of the mask is set iff start <= i <= end |
| BinaryMask.MaskEmptyWhenReversed | src/binarymask.h:5-6 | for end < start, both in range, the mask is 0: the two operands of the `&` have no bit in common |
| BinaryMask.MaskClosedForm | src/binarymask.h:5-6 | for start <= end the mask equals 2^(end+1) - 2^start (a value below 2^32, so the 32-bit equation pins it); BINARY_MASK_32BIT(0, 31) is 0xFFFFFFFF |
| Decoder.Imm | src/main.c:77 | the immediate field is below 4096: it is zero-extended, not sign-extended |
| Decoder.Rs1 | src/main.c:78 | rs1 is a register index below 32 |
| Decoder.Funct3 | src/main.c:79 | the computed funct3 is below 4, because the shift by 13 keeps only bits [14:13] |
| Decoder.Rd | src/main.c:80 | rd is a register index below 32 |
| Decoder.Opcode | src/main.c:81 | the opcode is below 128 (bits [6:0]) |
| Decoder.OpcodeGroup | src/main.c:142 | the dispatch selector `(w & 0b1111100) >> 2` is the opcode without its bits [1:0] (opcode / 4) |
| Decoder.Funct3DropsLowBit | src/main.c:79 | the computed funct3 is the ISA's funct3 (bits [14:12]) halved, so 001 reads as 000 |
| Decoder.HandWrittenMasks | src/main.c:77-81 | BINARY_MASK_32BIT(20,31), (15,19), (12,14), (7,11) and (0,6) equal the five hand-written masks; each field is the word masked by the macro and shifted down |
| Decoder.EncodeI | src/main.c:77-81 | decoding an I-type word assembled from imm, rs1, funct3, rd and opcode gives back each field |
| Decoder.Funct3Isa | src/main.c:79 | the corrected funct3 (bits [14:12]) is below 8 |
| Decoder.SignExtend12 | src/main.c:77 | the corrected immediate keeps the low 12 bits, is unchanged when bit 11 is clear, and has bits 31..12 all set when bit 11 is set |
| Decoder.SignExtendNegate | src/main.c:77 | negating a 12-bit immediate other than -2048 negates its sign-extended value modulo 2^32 |
| Cpu.Zeroed | src/main.c:160-161 | the memset state has pc 0 and every register 0 |
| Cpu.ReadRegister | src/main.c:41-51 | an index of 32 or more fails with InvalidRegisterIndex; any other index returns the stored value; nothing changes |
| Cpu.RegisterWrite | src/main.c:23-39 | an index of 32 or more fails with InvalidRegisterIndex; a write to x0 leaves the state unchanged and is not an error; a write to 1..31 sets that register; every other register and the pc keep their values |
| Cpu.ReadAfterWrite | src/main.c:23-51 | after an in-range write, reading the written register gives the value (unless it is x0); reading any other index gives what it gave before |
| Cpu.Addi | src/main.c:93-100 | ADDI stores (imm + x[rs1]) mod 2^32 in rd unless rd is x0; no other register changes, and neither does the pc |
| Cpu.OpImm | src/main.c:67-136 | the OP-IMM handler as written leaves the pc and x0 alone and changes no register except rd |
| Cpu.AddiWritesSum | src/main.c:91-100 | with the computed funct3 equal to 0, x[rd] becomes (zero-extended imm + x[rs1]) mod 2^32; with rd = x0 nothing changes |
| Cpu.StubsChangeNothing | src/main.c:102-129 | any other computed funct3 leaves the state unchanged |
| Cpu.Execute | src/main.c:138-151 | runs the OP-IMM handler iff the opcode is 0x10 to 0x13 (bits [6:2] = 00100, bits [1:0] ignored); any other opcode fails with UnimplementedOpcode |
| Cpu.UnimplementedOpcodeFaults | src/main.c:147-149 | a word with opcode 1111111 yields UnimplementedOpcode |
| Cpu.Step | src/main.c:164-166 | one loop iteration applies the OP-IMM handler and adds exactly 1 to the pc (wrapping at 2^32) |
| Cpu.RunFrom | src/main.c:163-167 | the loop stops with the pc equal to the word count when it starts at or below it; x0 keeps its value |
| Cpu.DemoProgramResult | src/main.c:155-167 | [0x00000013, 0x00308093] from the zeroed state ends with pc 2, x1 = 3 and all other registers 0 |
| Cpu.CpuState.Snapshot | src/main.c:7-13 | in every valid state x0 holds 0 |
| Cpu.CpuState.constructor | src/main.c:160-161 | a fresh state is the zeroed state, with x0 = 0 |
| Cpu.CpuState.WriteRegister | src/main.c:23-39 | the in-place write produces the state RegisterWrite gives, or reports its fault with the state unchanged, and keeps x0 = 0 |
| Cpu.CpuState.ExecuteOpImm | src/main.c:67-136 | the in-place handler produces OpImm of the old state |
| Cpu.CpuState.ExecuteInstruction | src/main.c:138-151 | the in-place dispatch produces the state Execute gives, or reports UnimplementedOpcode with the state unchanged |
| Cpu.CpuState.Run | src/main.c:163-167 | the loop leaves the state RunFrom gives from the old state |
| Cpu.Emulate | src/main.c:153-176 | main ends with pc 2, x1 = 3 and every other register 0 |
| Corrected.OpImmIsa | src/main.c:77-100 | the intended handler adds the sign-extended immediate when the ISA funct3 is 000; every other funct3 changes nothing; pc, x0 and registers other than rd are kept |
| Corrected.AddiRoundTrip | src/main.c:93-100 | `addi rd, rs1, imm` then `addi rd2, rd, -imm` with sign-extended immediates restores x[rs1] in rd2, for every imm but -2048 |
| Corrected.OpImmIsaIsAddi | src/main.c:91-100 | with ISA funct3 000 the intended handler is ADDI on the decoded rd, rs1 and sign-extended immediate |
| Corrected.OpImmIsaRoundTrip | src/main.c:77-100 | the same round trip on instruction words under the intended handler |
| Corrected.RoundTripFailsAsWritten | src/main.c:77 | as written, `addi x1, x0, 1` then `addi x2, x1, -1` leaves x2 = 4096; the intended handler leaves 0 |
| Corrected.SlliRunsAsAddiAsWritten | src/main.c:79 | as written, a word with ISA funct3 001 (SLLI) adds its immediate like ADDI; the intended handler leaves the state unchanged |
| Corrected.ExecuteIsa | src/main.c:138-151 | dispatch to the intended handler iff bits [6:2] are 00100, otherwise UnimplementedOpcode |
| Corrected.RunChecked | src/main.c:163-167 | the intended loop either finishes with the pc at the word count or stops at the first non-OP-IMM word (every word before it is OP-IMM), reporting that word, its pc and UnimplementedOpcode; x0 is kept |
| Corrected.RunCheckedFinishes | src/main.c:163-167 | the intended loop finishes iff every word from the starting pc on is an OP-IMM word |
| Corrected.BypassRunsLuiAsAddi | src/main.c:165 | as written, the loop runs `lui x1, 0x308` (0x003080B7) as `addi x1, x1, 3`; the dispatch rejects it as an unimplemented opcode |
| Corrected.DemoProgramAgrees | src/main.c:155-167 | on the program of main the intended loop finishes in the same state as the loop as written |

## Left out

- `dump_state` and the `printf` tracing in `cpu_instruction_op_imm` are not modelled. They are console output and change no state. `Emulate` returns the final state instead of printing it.
- The unused function pointer `CPUInstruction` and the unused macro `DECODE_R_TYPE` are not modelled. They are declarations with no behaviour.
- The `opcode` local of `cpu_instruction_op_imm` is not modelled. It is only printed.
- The `shamt` local of the SLLI/SRLI/SRAI case is not modelled. It is computed and never used.
- The process abort of `assert(0)` is not modelled. Each such path is an error value, and the state stays unchanged.
- The bit layout of each field is stated through the macro's masks (`HandWrittenMasks` together with `Mask32`'s bit characterisation), not bit by bit for each extractor.
- `Cpu.RunFrom` and `CpuState.Run` take any program shorter than 2^32 words, not just the fixed two-word array. A longer program would make the `uint32_t` counter wrap and never stop. `Emulate` runs the fixed array.
- Loading a program image and all instruction families other than OP-IMM are not modelled. They are absent from the code.

## Findings

| source | as written | input that shows it | evidently intended | confidence | as-written member | corrected member |
|---|---|---|---|---|---|---|
| src/main.c:79 | funct3 is masked at bits [14:12] but shifted right by 13, giving bits [14:13] | `slli x1, x1, 1` (0x00109093) takes the ADDI path and adds 1 to x1 | shift by 12, so funct3 is bits [14:12] and SLLI reaches its own (empty) case | high; not executed | Corrected.SlliRunsAsAddiAsWritten | Corrected.OpImmIsa |
| src/main.c:77 | the 12-bit immediate is zero-extended | `addi x1, x0, 1` then `addi x2, x1, -1` (0xFFF08113) leaves x2 = 4096 instead of 0 | sign-extend from bit 11, as section 2.3 of the RISC-V Unprivileged ISA requires | high; not executed | Corrected.RoundTripFailsAsWritten | Corrected.AddiRoundTrip |
| src/main.c:165 | the loop calls `cpu_instruction_op_imm` directly, bypassing `execute_instruction` | `lui x1, 0x308` (0x003080B7) runs as `addi x1, x1, 3` | fetch each word through `execute_instruction`, which rejects opcodes other than OP-IMM | medium; not executed | Corrected.BypassRunsLuiAsAddi | Corrected.RunChecked |

`Cpu` models the code as written, including these three defects. `Corrected` defines the intended behaviour and proves its properties. It also proves that the intended loop agrees with the code as written on the program of `main`.
