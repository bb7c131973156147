# Assassyn core, modelled in Dafny

Assassyn is a Python hardware-description DSL. It compiles a system of modules into two
things: a cycle simulator written in Rust, and SystemVerilog. This project models the parts
of the repository whose behaviour can be read off the code and proves properties of them.

The simulators:

- **Generated simulators.** `processor_system`, `simple_counter` and `counter_system` are
  modelled as pure state-transition functions (`SimRuntime`, `ProcessorSystem`,
  `CounterSimulators`). The state holds credit queues, register arrays with staged writes,
  FIFOs with staged pushes and pops, and triggered flags. `idle_count` is threaded through
  the step loop.
- Each module body is a pure update of that state. The wrappers run a body only on a valid
  credit, and consume the credit only when the body succeeds.
- One tick commits everything staged in the cycle.
- For all three systems, the outcome of the whole 100-cycle run is proved.

The register-file emission and its wrapper:

- **Register-file emission.** The emitter in `codegen/verilog/elaborate.py` is modelled as a
  line generator (`RegisterFile`). This covers the address width, the port list, the
  initializer check, the sized hexadecimal literals, the order of the write guards and the
  read assignments.
- The clock-edge semantics of the emitted write guards are given by section 4.6 of IEEE
  1800-2017: the scheduled nonblocking updates take effect in order.
- **The port declaration** `build_register_file` in `pycde_wrapper.py` is modelled in
  `PycdeWrapper`. It is proved to declare exactly the ports of the emitted module, in the
  same order.

The RV32I pipeline with a branch predictor (`backup/backup_with_new_comments/rv32i_cpu_backup.py`)
is modelled stage by stage over bit-vectors:

- **Decoding** (`Rv32iDecode`): immediates as in section 2.3 of the RISC-V Unprivileged ISA,
  and the control word. The decoder's chain of `select`s is proved equal to a per-class
  reference table.
- **Bundles** (`Rv32iBundles`): packing and unpacking of the inter-stage bundles.
- **Execution** (`Rv32iExecute`): the ALU and the branch unit (sections 2.4–2.5),
  forwarding, and branch resolution.
- **Pipeline** (`Rv32iPipeline`): the 2-bit branch history table and the branch target
  buffer, the fetch, decode and memory stage outputs, and the hazard unit (stall, flush and
  next PC).

The program loader `init_memory` and the instruction-memory image are in `ProgramLoader`,
with Python's `int(s, 16)` and `int(s, 0)` in `PythonInt`.

The client algorithms and utilities:

- `tests/array_increment.py` is in `ArrayIncrement`.
- The Booth-encoded carry-save multiplier of `ci-tests/test_csamul.py` is in
  `BoothEncoder` and `CsaMultiplier`, with bitwise operations on naturals in `Bitwise`.
- The five-valued gates of `assasyn_simulator.py` are in `Gates`.
- The hexadecimal file utilities are in `HexTools`, with digit strings in `Text`.

## Model

| member | source | states |
|---|---|---|
| SimRuntime.CycleStamps | workspace/processor_system/simulator/src/simulator.rs:114-141 | cycle i runs its bodies at 100·i; the values it stages commit at 100·i+50, strictly before the next cycle's 100·(i+1) |
| SimRuntime.EventValidRule | workspace/processor_system/simulator/src/simulator.rs:46-48 | an empty credit queue is never valid; a credit that has arrived stays valid at every later stamp |
| SimRuntime.Consume | workspace/processor_system/simulator/src/simulator.rs:67-98 | what is left is a suffix of the queue, one credit shorter exactly when the queue was valid and the body succeeded; a credit is only used once it has arrived; otherwise the queue is unchanged |
| SimRuntime.Write | workspace/processor_system/simulator/src/modules/Driver.rs:9-15 | reads before the tick still see the committed payload; after the tick the payload is the value written last, whatever was staged before it |
| SimRuntime.TickArrayRule | workspace/processor_system/simulator/src/simulator.rs:56-63 | a tick with nothing staged keeps the payload; otherwise the value written last becomes the payload; reads before the tick see the old payload |
| SimRuntime.Push | workspace/processor_system/simulator/src/modules/Driver.rs:29-45 | the contents and staged pops are unchanged until the tick; after it the pushed value is at the back, behind everything the FIFO would have held without it |
| SimRuntime.Pop | workspace/processor_system/simulator/src/modules/DataProcessorInstance.rs:16-41 | the contents and staged pushes are unchanged until the tick; after it one more element has left the front, as long as there was one to leave |
| SimRuntime.TickFifoRule | workspace/processor_system/simulator/src/simulator.rs:56-63 | first in, first out: one element leaves the front per staged pop, the old elements stay ahead of the pushed ones, and the length changes by pushes minus pops |
| SimRuntime.TickFifoShift | workspace/processor_system/simulator/src/simulator.rs:56-63 | one pop plus one push shifts a one-element FIFO; one push fills an empty one |
| SimRuntime.U32 | workspace/processor_system/simulator/src/modules/CounterInstance.rs:9-18 | `u32` values stay below 2^32 and values that fit are unchanged |
| SimRuntime.IdleStepRule | workspace/processor_system/simulator/src/simulator.rs:126-138 | a triggered cycle resets `idle_count` to 0 and never breaks; an idle cycle counts one more and breaks exactly when the count reaches 100 |
| ProcessorSystem.Credits | workspace/processor_system/simulator/src/simulator.rs:110-112 | the preloaded Driver queue holds one credit per cycle, at stamps 100·first … in order |
| ProcessorSystem.CounterInstance | workspace/processor_system/simulator/src/modules/CounterInstance.rs:8-20 | always succeeds; `cnt` reads as before until the tick and afterwards has gone up by one modulo 2^32; nothing else changes |
| ProcessorSystem.Driver | workspace/processor_system/simulator/src/modules/Driver.rs:8-62 | always succeeds; after the tick `cycle_cnt` has gone up by one and `test_data` is three times the old `cycle_cnt`; each FIFO holds its pushed value (the pre-tick `test_data`, the evenness of `cycle_cnt`) behind its old contents; one processor credit is added at the next cycle boundary, later than now and at most 100 later; nothing else changes |
| ProcessorSystem.DataProcessorInstance | workspace/processor_system/simulator/src/modules/DataProcessorInstance.rs:8-60 | succeeds iff both input FIFOs are non-empty; on failure nothing changes; on success, after the tick `processed_data` is twice the front of `data_in` when the front of `enable` was true and unchanged otherwise, and each FIFO has lost its front; nothing else changes |
| ProcessorSystem.ProcessorCreditRule | workspace/processor_system/simulator/src/simulator.rs:78-87 | the processor body runs only on a valid credit; the credit is consumed and the flag set exactly when the body succeeds; a failed body leaves the state as it was apart from the flag |
| ProcessorSystem.AlwaysSucceedingCreditRule | workspace/processor_system/simulator/src/simulator.rs:67-98 | the Driver and CounterInstance wrappers consume their credit whenever it is valid, and without a valid credit change nothing |
| ProcessorSystem.FlagsAreThisCycle | workspace/processor_system/simulator/src/simulator.rs:50-54 | after a cycle, a set flag means that module ran and succeeded in that cycle |
| ProcessorSystem.ProcessorStage | workspace/processor_system/simulator/src/simulator.rs:103-124 | in cycle k+1, CounterInstance has no credit and the processor consumes what Driver pushed in cycle k |
| ProcessorSystem.DriverStage | workspace/processor_system/simulator/src/modules/Driver.rs:8-62 | Driver of cycle k+1 always has its credit and stages and pushes from the values committed after cycle k |
| ProcessorSystem.Bodies | workspace/processor_system/simulator/src/simulator.rs:103-127 | the bodies of cycle k+1 lead to the explicit post-body state, and some module triggered |
| ProcessorSystem.AfterStep | workspace/processor_system/simulator/src/modules/DataProcessorInstance.rs:42-54 | `test_data` after cycle k+1 is 3·k; `processed_data` changes only in the cycles where `enable` was true |
| ProcessorSystem.TickOfBodies | workspace/processor_system/simulator/src/simulator.rs:140-141 | the tick after cycle k+1 commits every staged write, pop and push into the state after cycle k+1 |
| ProcessorSystem.RunStep | workspace/processor_system/simulator/src/simulator.rs:114-146 | a cycle in which some module triggered resets `idle_count`, ticks and continues with the next cycle |
| ProcessorSystem.Advance | workspace/processor_system/simulator/src/simulator.rs:114-146 | cycle i triggers Driver and ticks into the state after cycle i |
| ProcessorSystem.RunFrom | workspace/processor_system/simulator/src/simulator.rs:114-146 | from any cycle i on, the loop runs to cycle 100 without the idle break, ticking once per cycle |
| ProcessorSystem.SimulateOutcome | workspace/processor_system/simulator/src/simulator.rs:101-147 | `simulate()` makes 100 ticks and never takes the idle break; CounterInstance never runs (`cnt` stays 0); `cycle_cnt` ends at 100, `test_data` at 297, `processed_data` at 582 |
| CounterSimulators.SimpleCounterInstance | workspace/simple_counter/simulator/src/modules/SimpleCounterInstance.rs:8-20 | always succeeds; `cnt` reads as before until the tick and afterwards has gone up by one modulo 2^32; nothing else changes |
| CounterSimulators.SimpleCounterCounts | workspace/simple_counter/simulator/src/modules/SimpleCounterInstance.rs:9-18 | run and ticked, the body increments `cnt` by one, wrapping from 2^32−1 to 0 |
| CounterSimulators.NoCreditNoRun | workspace/simple_counter/simulator/src/simulator.rs:42-51 | with an empty credit queue the body is never called, whatever it is; the cycle only moves the stamp and clears the flag |
| CounterSimulators.IdleStepOn | workspace/simple_counter/simulator/src/simulator.rs:75-86 | an idle cycle before the last counts one more idle cycle and ticks |
| CounterSimulators.IdleRun | workspace/simple_counter/simulator/src/simulator.rs:60-91 | with no credit, `idle_count` is k after cycle k; the loop breaks in cycle 100 before its tick; `cnt` never changes |
| CounterSimulators.SimpleCounterOutcome | workspace/simple_counter/simulator/src/simulator.rs:54-92 | `simple_counter` stops on the idle threshold in cycle 100 after 99 ticks, with `cnt` still 0 and the flag clear |
| CounterSimulators.CounterSystemOutcome | workspace/counter_system/simulator/src/simulator.rs:54-92 | `counter_system` ends the same way whatever its module body does |
| RegisterFile.SvLiteralRoundTrip | assassyn-master/python/assassyn/codegen/verilog/elaborate.py:155-158 | the literal reads back as its width and the value mod 2^width; it has max(1, ⌈width/4⌉) lower-case hex digits |
| RegisterFile.AddrWidth | assassyn-master/python/assassyn/codegen/verilog/elaborate.py:188 | the address width is `index_bits` when positive, and exactly 1 when the array has no index bits |
| RegisterFile.Declarations | assassyn-master/python/assassyn/codegen/verilog/elaborate.py:196-216 | the header declares 2 + 3·writers + (readers if indexed) + readers ports |
| RegisterFile.DeclaredPorts | assassyn-master/python/assassyn/codegen/verilog/elaborate.py:196-216 | a port is declared iff the counts call for it: one write triple per write port, `ridx_port` only with index bits, `rdata_port` per read port |
| RegisterFile.DeclarationOrder | assassyn-master/python/assassyn/codegen/verilog/elaborate.py:196-216 | clock and reset first, then each write triple in port order, then the read indices, then the read outputs last |
| RegisterFile.WriteTriplesMembers | assassyn-master/python/assassyn/codegen/verilog/elaborate.py:199-202 | the write triples are exactly the enable, index and data ports of the ports below n |
| RegisterFile.PortLinesAreSeparated | assassyn-master/python/assassyn/codegen/verilog/elaborate.py:196-216 | one header line per declared port, in order, with a comma on every line but the last |
| RegisterFile.RStripCommas | assassyn-master/python/assassyn/codegen/verilog/elaborate.py:211-214 | the stripped line never ends in a comma |
| RegisterFile.OrdersArePermutations | assassyn-master/python/assassyn/codegen/verilog/elaborate.py:239 | the emitted guard order lists every write port exactly once, strictly descending |
| RegisterFile.Commit | assassyn-master/python/assassyn/codegen/verilog/elaborate.py:238-242 | the clock edge keeps the memory's size |
| RegisterFile.LastWriterWins | assassyn-master/python/assassyn/codegen/verilog/elaborate.py:238-242 | an address receives the data of the last enabled guard, in emission order, that writes it |
| RegisterFile.UnwrittenKept | assassyn-master/python/assassyn/codegen/verilog/elaborate.py:238-242 | an address that no enabled guard writes keeps its value |
| RegisterFile.LowestPortWins | assassyn-master/python/assassyn/codegen/verilog/elaborate.py:239-242 | as emitted, the lowest-numbered enabled port writing an address decides its value |
| RegisterFile.HighestPortWins | assassyn-master/python/unit-tests/codegen/test_register_file_codegen.py:121-127 | with the guards in port order, the highest-numbered enabled port wins, as the test describes |
| RegisterFile.WritePriorityCounterexample | assassyn-master/python/unit-tests/codegen/test_register_file_codegen.py:121-127 | two ports writing address 0 with 10 and 20: the emitted file commits 10, the corrected one 20 |
| RegisterFile.Generate | assassyn-master/python/assassyn/codegen/verilog/elaborate.py:218-251 | a file is rejected iff an initializer's length differs from the depth, with that length, depth and name in the error |
| RegisterFile.GenerateCorrected | assassyn-master/python/assassyn/codegen/verilog/elaborate.py:228-233 | the corrected generator rejects exactly the same arrays |
| RegisterFile.GenerateHeader | assassyn-master/python/assassyn/codegen/verilog/elaborate.py:194-216 | a file opens with the banner, the module line, and one comma-separated line per declared port |
| RegisterFile.GenerateMemory | assassyn-master/python/assassyn/codegen/verilog/elaborate.py:218-222 | the memory declaration and the reset branch follow the header |
| RegisterFile.GenerateReset | assassyn-master/python/assassyn/codegen/verilog/elaborate.py:221-237 | on reset, a loop zeroes every entry, or each entry gets the sized literal of its initializer value in index order |
| RegisterFile.GenerateGuards | assassyn-master/python/assassyn/codegen/verilog/elaborate.py:238-242 | one three-line guard block per write port follows the reset branch, highest port first |
| RegisterFile.GenerateReads | assassyn-master/python/assassyn/codegen/verilog/elaborate.py:246-251 | one read assignment per read port, `mem[ridx_portK]` with index bits and `mem[0]` without, then `endmodule` |
| RegisterFile.Collect | assassyn-master/python/assassyn/codegen/verilog/elaborate.py:172-258 | each file written is the one for the array at its position, named after it, in order; the batch aborts iff some outcome is rejected, with the error of the first rejected array and exactly the files of the arrays before it; otherwise one file per array |
| RegisterFile.KeptMembers | assassyn-master/python/assassyn/codegen/verilog/elaborate.py:172-175 | the arrays a file is generated for are exactly the arrays that are not memory payloads |
| RegisterFile.GenerateFiles | assassyn-master/python/assassyn/codegen/verilog/elaborate.py:162-258 | the batch aborts iff some kept array is rejected, with the error of the first rejected kept array and the files already written for the kept arrays before it; otherwise it has one file per kept array, in array order |
| PycdeWrapper.BitLength | assassyn-master/python/assassyn/pycde_wrapper.py:68 | n < 2^bit_length(n), and 2^(bit_length(n)−1) ≤ n for n > 0 |
| PycdeWrapper.ComputedAddrWidthIsMinimal | assassyn-master/python/assassyn/pycde_wrapper.py:68 | the computed width addresses every entry, and for depth ≥ 2 no narrower width does |
| PycdeWrapper.BuildRegisterFile | assassyn-master/python/assassyn/pycde_wrapper.py:51-101 | rejected iff an initializer's length differs from the depth; the parameters equal the inputs; a caller's width is kept when ≥ 1 and becomes exactly 1 otherwise; a computed width is 1 for depth ≤ 2, and otherwise covers the depth and no narrower width does |
| PycdeWrapper.PortsMatchEmittedHeader | assassyn-master/python/assassyn/pycde_wrapper.py:89-99 | the wrapper declares exactly the ports of the emitted SystemVerilog module, in the same order |
| PycdeWrapper.PortKinds | assassyn-master/python/assassyn/pycde_wrapper.py:89-99 | enables are 1 bit wide, index inputs have the module's address width, and data ports have the element type |
| PycdeWrapper.PortMembership | assassyn-master/python/assassyn/pycde_wrapper.py:94-99 | `ridx_port` exists iff read indices are requested; `rdata_port` exists for every read port regardless |
| Rv32iDecode.ImmIFields | backup/backup_with_new_comments/rv32i_cpu_backup.py:96-102 | I-immediate: inst[30:20] with inst[31] copied into bits 31..11 |
| Rv32iDecode.ImmSFields | backup/backup_with_new_comments/rv32i_cpu_backup.py:105-110 | S-immediate: inst[30:25] and inst[11:7], sign-extended from inst[31] |
| Rv32iDecode.ImmBFields | backup/backup_with_new_comments/rv32i_cpu_backup.py:113-118 | B-immediate: inst[7] at bit 11, inst[30:25], inst[11:8], bit 0 zero, sign-extended |
| Rv32iDecode.ImmUFields | backup/backup_with_new_comments/rv32i_cpu_backup.py:121 | U-immediate: inst[31:12] with the low twelve bits zero |
| Rv32iDecode.ImmJFields | backup/backup_with_new_comments/rv32i_cpu_backup.py:124-129 | J-immediate: inst[19:12], inst[20] at bit 11, inst[30:21], bit 0 zero, sign-extended |
| Rv32iDecode.BranchOffsetsEven | backup/backup_with_new_comments/rv32i_cpu_backup.py:113-129 | B and J immediates are always even |
| Rv32iDecode.AluOpChainIsTable | backup/backup_with_new_comments/rv32i_cpu_backup.py:152-163 | the override chain of `alu_op_tmp` computes the per-funct3 ALU table |
| Rv32iDecode.BranchOpChainIsTable | backup/backup_with_new_comments/rv32i_cpu_backup.py:183-191 | the override chain of `branch_op_tmp` computes the per-funct3 branch table |
| Rv32iDecode.DecodeIsReference | backup/backup_with_new_comments/rv32i_cpu_backup.py:131-228 | the decoder agrees with the per-class reference decoder on every instruction word |
| Rv32iDecode.SubOnlyInRegisterForm | backup/backup_with_new_comments/rv32i_cpu_backup.py:153-155 | funct3 000: OP is SUB iff funct7[5] is set; OP-IMM is always ADD |
| Rv32iDecode.ShiftRightKind | backup/backup_with_new_comments/rv32i_cpu_backup.py:154-163 | funct3 101 is SRA iff bit 30 is set, in both forms |
| Rv32iDecode.RegWriteRule | backup/backup_with_new_comments/rv32i_cpu_backup.py:165-208 | `reg_write` is set iff the class writes rd and rd ≠ 0 |
| Rv32iDecode.BranchOpRule | backup/backup_with_new_comments/rv32i_cpu_backup.py:183-191 | `branch_op` is non-zero iff BRANCH with a defined funct3; 010 and 011 are not branches |
| Rv32iDecode.AccessRule | backup/backup_with_new_comments/rv32i_cpu_backup.py:167-228 | memory reads only for loads, writes only for stores; register operand needs by class |
| Rv32iDecode.UnknownIsBubble | backup/backup_with_new_comments/rv32i_cpu_backup.py:131-141 | an unrecognised opcode decodes to a control word with no effect |
| Rv32iDecode.NopHasNoEffect | backup/backup_with_new_comments/rv32i_cpu_backup.py:691 | 0x00000013, the flush NOP, writes no register or memory and does not branch |
| Rv32iDecode.ControlRoundTrip | backup/backup_with_new_comments/rv32i_cpu_backup.py:210-225 | the slices read back every packed control signal; the reserved bits are zero |
| Rv32iDecode.ControlWordOfFields | backup/backup_with_new_comments/rv32i_cpu_backup.py:366-375 | a word with clear reserved bits is the packing of its slices |
| Rv32iDecode.ZeroWordIsBubble | backup/backup_with_new_comments/rv32i_cpu_backup.py:642 | the all-zero control word reads back as all signals cleared |
| Rv32iBundles.PredictionInfoRoundTrip | backup/backup_with_new_comments/rv32i_cpu_backup.py:56-60 | unpacking `prediction_info` inverts its packing |
| Rv32iBundles.PredictionInfoOfWord | backup/backup_with_new_comments/rv32i_cpu_backup.py:379-381 | every 34-bit word is the packing of what is read from it |
| Rv32iBundles.DecodeSignalsRoundTrip | backup/backup_with_new_comments/rv32i_cpu_backup.py:254-262 | the hazard unit's slices of `decode_signals` give back every packed field |
| Rv32iBundles.DecodeSignalsOfWord | backup/backup_with_new_comments/rv32i_cpu_backup.py:600-606 | every 120-bit word is the packing of its slices |
| Rv32iBundles.PredictionResultRoundTrip | backup/backup_with_new_comments/rv32i_cpu_backup.py:456-467 | the slices of `prediction_result` give back every packed field |
| Rv32iBundles.PredictionResultOfWord | backup/backup_with_new_comments/rv32i_cpu_backup.py:586-595 | every 103-bit word is the packing of its slices |
| Rv32iBundles.ExecuteSignalsRoundTrip | backup/backup_with_new_comments/rv32i_cpu_backup.py:469-474 | the slices of `execute_signals` give back every packed field |
| Rv32iBundles.ExecuteSignalsOfWord | backup/backup_with_new_comments/rv32i_cpu_backup.py:575-581 | every 178-bit word is the packing of its slices |
| Rv32iBundles.ZeroBundles | backup/backup_with_new_comments/rv32i_cpu_backup.py:568-572 | the all-zero default of `optional` reads back as every field cleared |
| Rv32iWord.SignedLessBySign | backup/backup_with_new_comments/rv32i_cpu_backup.py:276-283 | the signed comparison is two's-complement order: negatives are below non-negatives, same signs compare unsigned |
| Rv32iWord.SraKeepsSign | backup/backup_with_new_comments/rv32i_cpu_backup.py:286 | arithmetic right shift keeps the sign and agrees with the logical shift on non-negative words |
| Rv32iExecute.AluShiftAmount | backup/backup_with_new_comments/rv32i_cpu_backup.py:282-286 | the shifts see only `b & 0x1F` |
| Rv32iExecute.AluComparisons | backup/backup_with_new_comments/rv32i_cpu_backup.py:283-287 | SLT and SLTU give 0 or 1, and 1 exactly for signed and unsigned less-than |
| Rv32iExecute.AluUndefinedOps | backup/backup_with_new_comments/rv32i_cpu_backup.py:274-294 | `alu_op` values 10..31 give 0 |
| Rv32iExecute.AluArithmeticShift | backup/backup_with_new_comments/rv32i_cpu_backup.py:285-286 | SRA keeps the sign of its operand and equals SRL on non-negative ones |
| Rv32iExecute.AluDifference | backup/backup_with_new_comments/rv32i_cpu_backup.py:281 | SUB gives a − b mod 2^32, which is 0 exactly for equal operands |
| Rv32iExecute.BranchUndefinedOps | backup/backup_with_new_comments/rv32i_cpu_backup.py:296-311 | `branch_op` 0 and 7 are never taken |
| Rv32iExecute.BranchComplements | backup/backup_with_new_comments/rv32i_cpu_backup.py:301-306 | BNE, BGE and BGEU are the negations of BEQ, BLT and BLTU |
| Rv32iExecute.BranchEqualAgreesWithSub | backup/backup_with_new_comments/rv32i_cpu_backup.py:281-301 | BEQ is taken iff SUB gives 0 |
| Rv32iExecute.BranchLessAgreesWithSlt | backup/backup_with_new_comments/rv32i_cpu_backup.py:283-303 | BLT is taken iff SLT gives 1 |
| Rv32iExecute.BranchLessUnsignedAgreesWithSltu | backup/backup_with_new_comments/rv32i_cpu_backup.py:287-305 | BLTU is taken iff SLTU gives 1 |
| Rv32iExecute.DecodedNoWriteToZero | backup/backup_with_new_comments/rv32i_cpu_backup.py:208 | no decoded control word asks to write x0 |
| Rv32iExecute.ForwardIsProgramOrder | backup/backup_with_new_comments/rv32i_cpu_backup.py:342-359 | the forwarded operand is the value the register file holds once MEM/WB and then EX/MEM have written back in program order |
| Rv32iExecute.ForwardKeepsZeroRegister | backup/backup_with_new_comments/rv32i_cpu_backup.py:346-355 | x0 is never forwarded |
| Rv32iExecute.JalrTargetClearsBitZero | backup/backup_with_new_comments/rv32i_cpu_backup.py:404-405 | the JALR target is rs1+imm with bit 0 cleared and every other bit unchanged |
| Rv32iExecute.MispredictRule | backup/backup_with_new_comments/rv32i_cpu_backup.py:408-418 | `mispredict` only for branches: on a hit when direction or target differs, on a miss when taken |
| Rv32iExecute.FlushRule | backup/backup_with_new_comments/rv32i_cpu_backup.py:425-426 | a flush is requested iff mispredict, JAL or JALR |
| Rv32iExecute.TargetRule | backup/backup_with_new_comments/rv32i_cpu_backup.py:400-422 | `correct_pc` is the taken branch target or pc+4; `target_pc` is the JALR target, pc+imm, or pc+4 by kind |
| Rv32iExecute.ResultRule | backup/backup_with_new_comments/rv32i_cpu_backup.py:420 | a branch has no ALU result; a jump produces pc+4 |
| Rv32iExecute.ExecuteGating | backup/backup_with_new_comments/rv32i_cpu_backup.py:428-474 | without a valid ID/EX the bundle is all zeros and EX/MEM receives zeros; EX/MEM is written only when valid |
| Rv32iPipeline.BtbIndex | backup/backup_with_new_comments/rv32i_cpu_backup.py:39 | `pc[2:7]` indexes the 64-entry predictor tables |
| Rv32iPipeline.NextCounterSaturates | backup/backup_with_new_comments/rv32i_cpu_backup.py:653-656 | the 2-bit counter moves one step toward the outcome, saturating at 3 and 0 |
| Rv32iPipeline.OneOutcomeFlipsOnlyWeakStates | backup/backup_with_new_comments/rv32i_cpu_backup.py:50 | one outcome flips the prediction only from the weak states 1 and 2 |
| Rv32iPipeline.TwoOutcomesTrain | backup/backup_with_new_comments/rv32i_cpu_backup.py:653-656 | two equal outcomes always leave the counter predicting that direction |
| Rv32iPipeline.TrainTouchesOneEntry | backup/backup_with_new_comments/rv32i_cpu_backup.py:658-661 | training changes only the resolved branch's entry, and only for a branch |
| Rv32iPipeline.TrainedLookup | backup/backup_with_new_comments/rv32i_cpu_backup.py:39-53 | after training on a branch, the lookup of the same PC hits, predicts by the new counter, and targets the actual target when taken |
| Rv32iPipeline.UnflaggedBranchWasFetchedCorrectly | backup/backup_with_new_comments/rv32i_cpu_backup.py:53 | a branch whose prediction is not flagged as mispredicted was followed by its true successor |
| Rv32iPipeline.FetchRule | backup/backup_with_new_comments/rv32i_cpu_backup.py:31-70 | an unstalled fetch records the PC and the prediction; a stall inserts a bubble; with IF/ID invalid the held word passes on |
| Rv32iPipeline.DecodeOutputRule | backup/backup_with_new_comments/rv32i_cpu_backup.py:231-262 | decoding is gated by both valid bits, and a valid instruction reaches ID/EX with its PC, needs and prediction |
| Rv32iPipeline.MemoryStageRule | backup/backup_with_new_comments/rv32i_cpu_backup.py:485-521 | a valid load or store addresses word `result >> 2` with all of `data`; an invalid EX/MEM passes zeros; `memory_signals` is the control word |
| Rv32iPipeline.HazardUnit | backup/backup_with_new_comments/rv32i_cpu_backup.py:562-698 | the predictor tables stay 64 entries long |
| Rv32iPipeline.StallRule | backup/backup_with_new_comments/rv32i_cpu_backup.py:623-641 | stall iff ID/EX is valid and a load in EX writes a register the decoded instruction needs, with no flush pending; a stalling load has a non-zero rd; a stall clears both valid bits; EX/MEM and MEM/WB stay valid |
| Rv32iPipeline.NextPcRule | backup/backup_with_new_comments/rv32i_cpu_backup.py:680-685 | next PC: flush target on a flush, the same PC on a stall, else the IF/ID prediction |
| Rv32iPipeline.FlushInsertsBubbles | backup/backup_with_new_comments/rv32i_cpu_backup.py:690-698 | a flush inserts ADDI x0,x0,0 into ID and a zero control word into EX |
| Rv32iPipeline.IdleHazardUnit | backup/backup_with_new_comments/rv32i_cpu_backup.py:568-572 | with no stage output there is no stall and no training, and the PC follows the IF/ID prediction |
| Rv32iPipeline.FlushPcOfResolution | backup/backup_with_new_comments/rv32i_cpu_backup.py:684 | the flush PC of a resolved instruction is its JALR target, pc+imm, or `correct_pc` |
| Rv32iPipeline.FlushGoesToSuccessor | backup/backup_with_new_comments/rv32i_cpu_backup.py:684-685 | after a JAL, a JALR or a mispredicted branch, the next PC is its architectural successor |
| ProgramLoader.LoadLines | rv32i_cpu.py:686-697 | at most one value per line |
| ProgramLoader.LoadAppend | rv32i_cpu.py:686-697 | accepted lines keep file order: loading a concatenation is loading each part |
| ProgramLoader.StopsAtFirstError | rv32i_cpu.py:703-706 | a line `int` rejects ends the load with what was parsed before it (ASCII digits only, see Left out) |
| ProgramLoader.OneValuePerLine | rv32i_cpu.py:688-697 | with every line accepted, one value per line that is neither blank nor a comment |
| ProgramLoader.SkipsCommentsAndBlanks | rv32i_cpu.py:688-691 | blank and `#` lines are skipped |
| ProgramLoader.MissingFileIsEmpty | rv32i_cpu.py:701-702 | a missing file gives the empty program |
| ProgramLoader.LoadProgramText | rv32i_cpu.py:693-694 | a file of `0x`-prefixed eight-digit words loads back as those words |
| ProgramLoader.InitMemoryIgnoresPath | rv32i_cpu.py:735 | as called, the loader reads `test_program.txt` whatever path is passed |
| ProgramLoader.LoadProgramReadsPath | rv32i_cpu.py:680 | the corrected loader reads the requested file and returns its program |
| ProgramLoader.MemoryImageShape | rv32i_cpu.py:736 | the image starts with the program, is zero after it, and has exactly `depth` entries iff the program fits |
| PythonInt.ParseBase16OfFormatHex | rv32i_cpu.py:693-694 | `int(s, 16)` reads a zero-padded hex rendering back, with or without `0x` |
| PythonInt.ParseBase0OfHex | rv32i_cpu.py:696 | `int(s, 0)` reads a `0x` rendering back |
| Text.DigitsRoundTrip | assassyn-master/python/assassyn/codegen/verilog/elaborate.py:157-158 | the digits of a value in any base from 2 to 16 read back as the value |
| Text.FormatHexRoundTrip | utils/update_hex_files.py:19 | a zero-padded hex rendering reads back as its value |
| Text.FormatHexLength | utils/update_hex_files.py:19 | a value below 16^w pads to exactly w digits |
| Text.StripNewline | rv32i_cpu.py:688 | a line read with its newline strips to its unpadded content |
| Text.ZeroPrefixParse | rv32i_cpu.py:693-694 | leading zeros do not change the value `int` reads |
| Text.Strip | rv32i_cpu.py:688 | the stripped line has no whitespace, in the sense of Python's `str.isspace`, at either end |
| Text.StripIsInfix | rv32i_cpu.py:688 | what `strip()` leaves is a piece of the line with only whitespace before and after it, so with no whitespace at its ends it is exactly the line without its surrounding whitespace; it is empty iff the line is all whitespace |
| ArrayIncrement.Step | tests/array_increment.py:29-41 | the `finish` guard fires iff `i` ≥ 100; below 100 the step increments `a[b[i]]` mod 2^32 and `i`, changing no other entry; otherwise `finish` |
| ArrayIncrement.StepHistogram | tests/array_increment.py:29-36 | one step extends the histogram of `b[..n]` by `b[n]` and the total by one |
| ArrayIncrement.Simulate | tests/array_increment.py:29-41 | after the run, `a[k]` is the number of j < 100 with `b[j] = k`, the counters sum to 100, and `finish` is raised in cycle 101 |
| ArrayIncrement.ParseIndexLines | tests/array_increment.py:57-58 | a file of hex lines, with blank lines after them, reads back as the values written |
| ArrayIncrement.PadIndicesContents | tests/array_increment.py:60-62 | `b_init` has 128 entries: the file's first min(n,128) values, then zeros |
| ArrayIncrement.IndexArray | tests/array_increment.py:68 | every entry of `b` is a valid index into the 128-entry `a` |
| ArrayIncrement.IndexArrayKeepsIndices | tests/array_increment.py:60-68 | values already in 0..127 are loaded unchanged |
| ArrayIncrement.RunScript | tests/array_increment.py:53-72 | the script fails iff a stripped non-blank line is not a hexadecimal numeral (ASCII digits only and underscore separators excepted, see Left out); otherwise `a` is the histogram of the first 100 indices |
| CsaMultiplier.Csa | assassyn-master/python/ci-tests/test_csamul.py:55-63 | sum plus carry is congruent to x1+x2+x3 mod 2^64, and the carry is even |
| CsaMultiplier.ReducePass | assassyn-master/python/ci-tests/test_csamul.py:83-101 | one pass maps n operands to 2·(n div 3) + n mod 3 and keeps the sum mod 2^64 |
| CsaMultiplier.Tree | assassyn-master/python/ci-tests/test_csamul.py:83-104 | the reduction ends with two operands whose sum is congruent to the inputs' sum |
| CsaMultiplier.ReductionSchedule | assassyn-master/python/ci-tests/test_csamul.py:83-101 | sixteen operands shrink 16, 11, 8, 6, 4, 3, 2 over six passes |
| CsaMultiplier.CsaTree | assassyn-master/python/ci-tests/test_csamul.py:65-106 | the loop's `final_s + final_carry` is congruent to the sum of the sixteen partial products |
| CsaMultiplier.ReduceGroups | assassyn-master/python/ci-tests/test_csamul.py:87-96 | the group loop combines every complete group of three, in order |
| CsaMultiplier.TreeResult | assassyn-master/python/ci-tests/test_csamul.py:18-19 | `FinalAdder` yields the true value whenever it fits in 64 signed bits |
| BoothEncoder.ProductsSum | assassyn-master/python/ci-tests/test_csamul.py:136-138 | the partial products add up to a times the weighted digits, mod 2^64 |
| BoothEncoder.RecodeValue | assassyn-master/python/ci-tests/test_csamul.py:128-138 | the sixteen radix-4 digits stand for the signed value of b |
| BoothEncoder.LateWindowsEmpty | assassyn-master/python/ci-tests/test_csamul.py:153 | from the third window on, every window as written is 0 |
| BoothEncoder.WindowBitIsLowBit | assassyn-master/python/ci-tests/test_csamul.py:141-192 | every bit the encoder as written reads is that bit of `b mod 2^11` |
| BoothEncoder.SelectAsWrittenIsRecode | assassyn-master/python/ci-tests/test_csamul.py:141-192 | each partial-product selection as written is the radix-4 digit of the multiplier's low eleven bits |
| BoothEncoder.BoothAsWrittenIsTruncated | assassyn-master/python/ci-tests/test_csamul.py:128-192 | the encoder as written is the full encoder applied to `b mod 2^11` |
| BoothEncoder.BoothAsWrittenHighZero | assassyn-master/python/ci-tests/test_csamul.py:153-192 | booth6..booth15 are identically 0 |
| BoothEncoder.MultiplyAsWrittenValue | assassyn-master/python/ci-tests/test_csamul.py:141 | the multiplier as written computes a·(b mod 2^11), which is a·b for 0 ≤ b < 2048 |
| BoothEncoder.MultiplyAsWrittenCounterexample | assassyn-master/python/ci-tests/test_csamul.py:141 | 1·2048: as written it logs 0, corrected it logs 2048 |
| BoothEncoder.MultiplyCorrect | assassyn-master/python/ci-tests/test_csamul.py:235 | with every window read from b itself, the logged product is a·b for all 32-bit a and b |
| BoothEncoder.DriverCall | assassyn-master/python/ci-tests/test_csamul.py:205-214 | every call has a = b = cnt < 95 |
| BoothEncoder.DriverCalls | assassyn-master/python/ci-tests/test_csamul.py:205-214 | calls are issued exactly for k = 0..94 with a = b = cnt = k, and each logs k·k |
| Gates.AndCharacterisation | assasyn_simulator.py:96-109 | AND gives ZERO iff an input is ZERO and ONE iff both are ONE; an edge passes only beside ONE; the table is symmetric |
| Gates.OrCharacterisation | assasyn_simulator.py:144-157 | OR gives ONE iff an input is ONE and ZERO iff both are ZERO; an edge passes only beside ZERO; the table is symmetric |
| Gates.NotInvolution | assasyn_simulator.py:190-199 | NOT is an involution and gives UNKNOWN exactly on UNKNOWN |
| Gates.DeMorgan | assasyn_simulator.py:96-199 | NOT(AND(a,b)) = OR(NOT a, NOT b), and dually, on all 25 pairs |
| Gates.Evaluate | assasyn_simulator.py:224-257 | too few inputs change nothing; the output changes iff the new value differs and the delay has elapsed; a C-element's memory changes only with its output |
| Gates.EvaluateSettles | assasyn_simulator.py:111-123 | with unchanged inputs, a second evaluation after a switch changes nothing |
| HexTools.PadToWord | utils/update_hex_files.py:13-14 | the padded buffer is a multiple of 4, the input followed by fewer than four zero bytes |
| HexTools.WordBytesOfLittleEndian | utils/update_hex_files.py:18 | the little-endian value of four bytes determines them |
| HexTools.Words | utils/update_hex_files.py:17-18 | one word per 4-byte group, each the little-endian value of its bytes, in order |
| HexTools.UnwordsWords | utils/update_hex_files.py:17-18 | the words give back the padded buffer |
| HexTools.DecodeHexWordLine | utils/update_hex_files.py:19 | every written line reads back as its word |
| HexTools.HexWordLineShape | utils/update_hex_files.py:19 | a line is `0x` and exactly eight lower-case hex digits |
| HexTools.GenerateHex | utils/update_hex_files.py:4-20 | a missing input writes nothing; otherwise ⌈n/4⌉ lines, one per little-endian word |
| HexTools.GenerateHexRoundTrip | utils/update_hex_files.py:13-19 | decoding the written lines gives the input bytes followed by fewer than four zero bytes |
| HexTools.MakeHex | test_sum/make_hex.py:4-19 | exit status 0 iff a file argument is given and the file exists; fewer than two arguments or a missing file exit with status 1, no output and one error message; otherwise one `0x` line per little-endian word |
| HexTools.ProcessHex | utils/process_hex.py:8-22 | one output line per input line, each ending in a newline; without that newline, and with `0x` put back exactly when the stripped input began with it, each line is the stripped input; the count equals the number of lines |
| HexTools.ProcessLine | utils/process_hex.py:11-14 | the stripped line is the result, or `0x` followed by the result; the latter exactly when the stripped line begins with lower-case `0x` |
| HexTools.ProcessLineKeepsUpperPrefix | utils/process_hex.py:13-14 | a `0X` prefix is kept |
| HexTools.ProcessLineRemovesOnePrefix | utils/process_hex.py:13-14 | at most one prefix is removed |
| HexTools.ToHexRoundTrip | utils/gen_hex.py:1-2 | `to_hex(v)` parses back to v, has at least 8 digits, and exactly 8 for 0 ≤ v < 2^32 |
| HexTools.GenHexData | utils/gen_hex.py:4-12 | 30 lines: the two inputs, then their element-wise products, each line reading back as its datum |

## Left out

- The simulator runtime crate is not part of this model. Its `tick` is taken as committing every write, pop and push staged since the previous tick, in staging order, pops before pushes. The generated code stamps each of them with the stamp of the tick that follows.
- Logging, `print`, the `request_stamp_map_table` and the panics of `u32` overflow in debug builds are not modelled. Values are reduced modulo 2^32 instead (`SimRuntime.U32`).
- The body of `counter_system`'s module is not part of this model. Its step loop takes the body as a parameter, and the outcome is proved for every body.
- `elaborate()` orchestration, resource copying, the scan of `Top.sv` and the SRAM blackbox templates are file plumbing around the emitter. They are not modelled. Neither is `namify`; file names are taken as given.
- `FIFO` and `TriggerCounter` in `pycde_wrapper.py` declare ports only, with no behaviour to state. They are not modelled.
- The stages and hazard unit of `rv32i_cpu.py` are not modelled. Their meaning depends on rebinding inside `Condition` blocks, and their slice bounds contradict their comments. Only its `init_memory` and instruction-memory image are modelled.
- The whole-cycle behaviour of the RV32I pipeline is not modelled, because several stages write the same registers in one cycle. Each stage function is modelled on its own. The instruction-memory read and the SRAM read data are parameters.
- Rv32iExecute.ExecuteGating: the `control_in[22:31]` slice the execute stage reads as `immediate` is unused, and is not modelled.
- Rv32iPipeline.HazardUnit: `load_use_hazard_wb` is computed but never used, and is not modelled. The module writes `if_id_valid` together with the fetch stage; only the hazard unit's own writes are stated.
- Rv32iPipeline.NextPcRule: `normal_next_pc` reads the prediction held in IF/ID, which may be stale when IF/ID was not rewritten. The rule is stated as the code computes it.
- Rv32iPipeline.MemoryStageRule: the store type (SB/SH/SW) is read but unused in the source, and every store writes the whole word.
- Gates.Evaluate: the floating-point delay check is a boolean input. `step`, `run_until_stable` and the 0.1 time step are not modelled.
- PythonInt.ParseBase0: underscore digit separators and surrounding whitespace inside `int()` are not modelled. The loader strips lines before parsing. Non-ASCII decimal digits (Unicode category Nd), which `int()` maps to ASCII digits (`int("０x1f", 0) == 31`), are rejected.
- ProgramLoader.StopsAtFirstError: a line of non-ASCII decimal digits, such as `٣`, which `int()` reads, ends the model's load, because the model's `int()` reads ASCII digits only (see PythonInt.ParseBase0 and PythonInt.ParseBase16 below).
- ArrayIncrement.RunScript: the script fails in the model on an index line of non-ASCII decimal digits, such as `٣`, or with underscore separators, such as `1_0`, which Python's `int(s, 16)` reads, because the model's `int()` reads ASCII digits only (see PythonInt.ParseBase16 below).
- PythonInt.ParseBase16: Python's `int(s, 16)` also accepts single underscores between digits (`int("1_0", 16) == 16`) and whitespace around the digits, and it maps non-ASCII decimal digits (Unicode category Nd) to ASCII digits (`int("٣", 16) == 3`). The model accepts ASCII digits only and rejects such text, so ArrayIncrement.RunScript fails on an index line such as `1_0` that the script would read.
- The DSL's integer width rules for Booth products and bitcasts are replaced by arithmetic mod 2^64 on the 64-bit ports.
- File and process I/O are parameters or maps: a file system as a map from path to lines, `readFile` for `make_hex.py`, and byte sequences for binary inputs.
- The DSL demo scripts, the broken test files and the engine tests without a visible implementation are not part of the core.

## Findings

| source | as written | input that shows it | evidently intended | confidence | as-written member | corrected member |
|---|---|---|---|---|---|---|
| assassyn-master/python/assassyn/codegen/verilog/elaborate.py:239-242 | write guards are emitted highest port first; the last nonblocking update wins, so the lowest-numbered enabled port decides a collision | ports 0 and 1 both write address 0 with 10 and 20: 10 is committed | the highest port index wins, as test_register_file_codegen.py:121-127 describes | not executed | RegisterFile.WritePriorityCounterexample | RegisterFile.HighestPortWins |
| assassyn-master/python/ci-tests/test_csamul.py:141 | the second window is cut with `& 31`, dropping bit 11, and every later window shifts out of it, so booth6..booth15 are 0 | a = 1, b = 2048: the logged product is 0 | every window is read from `b_unsigned` and the product is a·b | not executed | BoothEncoder.MultiplyAsWrittenCounterexample | BoothEncoder.MultiplyCorrect |
| rv32i_cpu.py:680 | `init_memory(self, program_file=...)` is called as `init_memory(program_file)`, so the path binds to `self` and `test_program.txt` is always read | a program only at `prog.txt`: the loaded program is empty | the requested file is read | not executed | ProgramLoader.InitMemoryIgnoresPath | ProgramLoader.LoadProgramReadsPath |
