/** `ExecuteStage` of the RV32I pipeline: `alu_unit`, `branch_unit`, operand forwarding from
    the EX/MEM and MEM/WB registers, and the resolution of branches and jumps against the
    fetch stage's prediction. Additions wrap modulo 2^32, as `bv32` arithmetic does. */
module Rv32iExecute {
  import opened Wrappers
  import opened Rv32iWord
  import opened Rv32iDecode
  import opened Rv32iBundles

  // ---------------------------------------------------------------------------------------
  // ALU

  /** `alu_unit`: ten `select`s in source order on a result that starts at 0. Shifts use only
      `b & 0x1F`; SLT compares the `Int(32)` views, SLTU the unsigned ones. */
  function Alu(op: bv5, a: bv32, b: bv32): bv32
  {
    var shamt := b & 0x1F;
    var r1: bv32 := if op == AluAdd then a + b else 0;
    var r2 := if op == AluSub then a - b else r1;
    var r3 := if op == AluSll then a << shamt else r2;
    var r4 := if op == AluSlt then FlagWord(SignedLess(a, b)) else r3;
    var r5 := if op == AluXor then a ^ b else r4;
    var r6 := if op == AluSrl then a >> shamt else r5;
    var r7 := if op == AluSra then Sra(a, shamt) else r6;
    var r8 := if op == AluSltu then FlagWord(a < b) else r7;
    var r9 := if op == AluOr then a | b else r8;
    if op == AluAnd then a & b else r9
  }

  /** The shift operations see only the low five bits of the second operand. */
  lemma AluShiftAmount(op: bv5, a: bv32, b: bv32)
    requires op == AluSll || op == AluSrl || op == AluSra
    ensures Alu(op, a, b) == Alu(op, a, b & 0x1F)
  {
  }

  /** SLT and SLTU produce 0 or 1, and 1 exactly when the first operand is below the second in
      two's-complement and in unsigned order respectively. */
  lemma AluComparisons(a: bv32, b: bv32)
    ensures Alu(AluSltu, a, b) == FlagWord(a < b)
    ensures Alu(AluSlt, a, b) ==
      (if (Negative(a) && !Negative(b)) || (Negative(a) == Negative(b) && a < b) then 1 else 0)
  {
    SignedLessBySign(a, b);
  }

  /** The codes 10..31 select no operation and leave the result at 0. */
  lemma AluUndefinedOps(op: bv5, a: bv32, b: bv32)
    requires op > AluAnd
    ensures Alu(op, a, b) == 0
  {
  }

  /** SRA keeps the sign of its first operand and agrees with SRL on non-negative ones. */
  lemma AluArithmeticShift(a: bv32, b: bv32)
    ensures Negative(Alu(AluSra, a, b)) == Negative(a)
    ensures !Negative(a) ==> Alu(AluSra, a, b) == Alu(AluSrl, a, b)
  {
    SraKeepsSign(a, b & 0x1F);
  }

  // ---------------------------------------------------------------------------------------
  // Branch unit

  /** `branch_unit`: six `select`s on a flag that starts at 0. */
  predicate BranchTaken(op: bv3, a: bv32, b: bv32)
  {
    var t1 := if op == BranchEq then a == b else false;
    var t2 := if op == BranchNe then a != b else t1;
    var t3 := if op == BranchLt then SignedLess(a, b) else t2;
    var t4 := if op == BranchGe then !SignedLess(a, b) else t3;
    var t5 := if op == BranchLtu then a < b else t4;
    if op == BranchGeu then a >= b else t5
  }

  /** Codes 0 and 7 are never taken. */
  lemma BranchUndefinedOps(op: bv3, a: bv32, b: bv32)
    requires op == BranchNone || op == 7
    ensures !BranchTaken(op, a, b)
  {
  }

  /** BNE, BGE and BGEU are the negations of BEQ, BLT and BLTU. */
  lemma BranchComplements(a: bv32, b: bv32)
    ensures BranchTaken(BranchNe, a, b) == !BranchTaken(BranchEq, a, b)
    ensures BranchTaken(BranchGe, a, b) == !BranchTaken(BranchLt, a, b)
    ensures BranchTaken(BranchGeu, a, b) == !BranchTaken(BranchLtu, a, b)
  {
  }

  /** BEQ is taken exactly when SUB gives 0. */
  lemma BranchEqualAgreesWithSub(a: bv32, b: bv32)
    ensures BranchTaken(BranchEq, a, b) <==> Alu(AluSub, a, b) == 0
  {
    AluDifference(a, b);
  }

  /** BLT is taken exactly when SLT gives 1. */
  lemma BranchLessAgreesWithSlt(a: bv32, b: bv32)
    ensures BranchTaken(BranchLt, a, b) <==> Alu(AluSlt, a, b) == 1
  {
  }

  /** BLTU is taken exactly when SLTU gives 1. */
  lemma BranchLessUnsignedAgreesWithSltu(a: bv32, b: bv32)
    ensures BranchTaken(BranchLtu, a, b) <==> Alu(AluSltu, a, b) == 1
  {
  }

  /** SUB yields a - b, which is 0 exactly for equal operands. */
  lemma AluDifference(a: bv32, b: bv32)
    ensures Alu(AluSub, a, b) == a - b
    ensures a - b == 0 <==> a == b
  {
    DifferenceZero(a, b);
  }

  lemma DifferenceZero(a: bv32, b: bv32)
    ensures a - b == 0 <==> a == b
  {
  }

  // ---------------------------------------------------------------------------------------
  // Forwarding

  /** `wb_data`: the loaded word for a load, else the ALU result carried to MEM/WB. */
  function WriteBackData(control: bv42, memData: bv32, exResult: bv32): bv32
  {
    if MemToRegOf(control) then memData else exResult
  }

  /** The register write an instruction in a later stage stands for: `reg_file[rd] = data` when
      the stage is valid and its control word sets `reg_write`. */
  function RegisterWrite(valid: bool, control: bv42, data: bv32): Option<(bv5, bv32)>
  {
    if valid && RegWriteOf(control) then Some((RdOf(control), data)) else None
  }

  /** `WriteBackStage.build`: the one register write of the cycle. */
  function WriteBack(valid: bool, control: bv42, memData: bv32, exResult: bv32): Option<(bv5, bv32)>
  {
    RegisterWrite(valid, control, WriteBackData(control, memData, exResult))
  }

  /** `rs1_data` / `rs2_data`: the register file value, overridden by a matching valid MEM/WB
      writer, overridden in turn by a matching valid EX/MEM writer; x0 is never forwarded. */
  function Forward(index: bv5, fromFile: bv32, memValid: bool, memControl: bv42, memResult: bv32,
                   wbValid: bool, wbControl: bv42, wbData: bv32): bv32
  {
    var fromMem := memValid && RegWriteOf(memControl) && index == RdOf(memControl) && RdOf(memControl) != 0;
    var fromWb := wbValid && RegWriteOf(wbControl) && index == RdOf(wbControl) && RdOf(wbControl) != 0;
    var d1 := if fromWb then wbData else fromFile;
    if fromMem then memResult else d1
  }

  /** A control word that never asks to write x0; every word the decoder builds is one. */
  predicate NoWriteToZero(control: bv42)
  {
    RegWriteOf(control) ==> RdOf(control) != 0
  }

  lemma DecodedNoWriteToZero(instr: bv32)
    ensures NoWriteToZero(ControlWord(Decode(instr).control))
  {
    ControlRoundTrip(Decode(instr).control);
    RegWriteRule(instr);
  }

  /** The register file after one optional write. */
  function Commit(regs: seq<bv32>, w: Option<(bv5, bv32)>): (r: seq<bv32>)
    requires |regs| == 32
    ensures |r| == 32
  {
    if w.Some? then regs[w.value.0 as int := w.value.1] else regs
  }

  /** Forwarding reads what the register file will hold once the two older instructions have
      written back in program order: first the one in MEM/WB, then the one in EX/MEM (whose
      value is its ALU result; a load there is the load-use case, which stalls instead). */
  lemma ForwardIsProgramOrder(regs: seq<bv32>, index: bv5, memValid: bool, memControl: bv42,
                              memResult: bv32, wbValid: bool, wbControl: bv42, memData: bv32,
                              wbResult: bv32)
    requires |regs| == 32
    requires NoWriteToZero(memControl) && NoWriteToZero(wbControl)
    ensures var after := Commit(Commit(regs, WriteBack(wbValid, wbControl, memData, wbResult)),
                                RegisterWrite(memValid, memControl, memResult));
      Forward(index, regs[index as int], memValid, memControl, memResult, wbValid, wbControl,
              WriteBackData(wbControl, memData, wbResult)) == after[index as int]
  {
    SameIndex(index, RdOf(wbControl));
    SameIndex(index, RdOf(memControl));
  }

  lemma SameIndex(x: bv5, y: bv5)
    ensures x as int == y as int <==> x == y
  {
  }

  /** Forwarding never replaces the value of x0. */
  lemma ForwardKeepsZeroRegister(fromFile: bv32, memValid: bool, memControl: bv42, memResult: bv32,
                                 wbValid: bool, wbControl: bv42, wbData: bv32)
    ensures Forward(0, fromFile, memValid, memControl, memResult, wbValid, wbControl, wbData) == fromFile
  {
  }

  // ---------------------------------------------------------------------------------------
  // Branch and jump resolution

  /** What the execute stage decides about control flow, and the ALU result it forwards. */
  datatype Resolution = Resolution(
    result: PredictionResult,
    targetPc: bv32,
    needFlush: bool,
    aluResult: bv32)

  /** The JALR target `t ^ (t & 1)` with t = rs1 + imm. */
  function JalrTarget(rs1: bv32, immediate: bv32): bv32
  {
    var t := rs1 + immediate;
    t ^ (t & 1)
  }

  /** The JALR target is rs1 + imm with bit 0 cleared and every other bit unchanged. */
  lemma JalrTargetClearsBitZero(rs1: bv32, immediate: bv32)
    ensures JalrTarget(rs1, immediate) == (rs1 + immediate) & 0xFFFF_FFFE
  {
  }

  /** The body of `ExecuteStage.build` after operand selection, for operands `rs1`, `rs2`. */
  function Resolve(pc: bv32, immediate: bv32, control: bv42, info: PredictionInfo,
                   rs1: bv32, rs2: bv32): Resolution
  {
    var aluSrc := AluSrcOf(control);
    var branchOp := BranchOpOf(control);
    var aluB := if aluSrc == SrcRegister then rs2 else immediate;
    var isBranch := branchOp != BranchNone;
    var isJump := JumpOf(control);
    var isJumpr := JumprOf(control);
    var aluA := if aluSrc == SrcPc then pc else rs1;
    var actualTaken := if isBranch then BranchTaken(branchOp, rs1, rs2) else false;
    var actualTarget := pc + immediate;
    var correctPc := if actualTaken then actualTarget else pc + 4;
    var correctOnHit := info.predictTaken == actualTaken && info.predictedPc == correctPc;
    var correct := if info.btbHit then correctOnHit else !actualTaken;
    var mispredict := isBranch && !correct;
    var aluResult :=
      if isBranch then 0 else if isJump || isJumpr then pc + 4 else Alu(AluOpOf(control), aluA, aluB);
    var t1 := if isBranch || isJump then actualTarget else pc + 4;
    var targetPc := if isJumpr then JalrTarget(rs1, immediate) else t1;
    var result := PredictionResult(mispredict, correctPc, actualTaken, actualTarget, info.btbHit,
                                   info.predictTaken, pc, isBranch, isJump, isJumpr);
    Resolution(result, targetPc, mispredict || isJump || isJumpr, aluResult)
  }

  /** `mispredict` is raised only for branches: on a BTB hit when the predicted direction or
      target differs from the outcome, on a miss when the branch is taken. */
  lemma MispredictRule(pc: bv32, immediate: bv32, control: bv42, info: PredictionInfo, rs1: bv32, rs2: bv32)
    ensures var r := Resolve(pc, immediate, control, info, rs1, rs2).result;
      && (r.mispredict ==> r.isBranch)
      && (r.isBranch && info.btbHit ==>
            (r.mispredict <==> info.predictTaken != r.actualTaken || info.predictedPc != r.correctPc))
      && (r.isBranch && !info.btbHit ==> (r.mispredict <==> r.actualTaken))
  {
  }

  /** A flush is requested exactly for a misprediction, a JAL or a JALR. */
  lemma FlushRule(pc: bv32, immediate: bv32, control: bv42, info: PredictionInfo, rs1: bv32, rs2: bv32)
    ensures var r := Resolve(pc, immediate, control, info, rs1, rs2);
      r.needFlush <==> r.result.mispredict || JumpOf(control) || JumprOf(control)
  {
  }

  /** The successor computed for each kind of instruction: `correct_pc` is the branch target
      when taken and pc + 4 otherwise (a non-branch is never taken); `target_pc` is the JALR
      target for JALR, pc + imm for a branch or JAL, pc + 4 otherwise. */
  lemma TargetRule(pc: bv32, immediate: bv32, control: bv42, info: PredictionInfo, rs1: bv32, rs2: bv32)
    ensures var r := Resolve(pc, immediate, control, info, rs1, rs2);
      && (r.result.actualTaken ==> r.result.isBranch)
      && r.result.actualTarget == pc + immediate
      && r.result.correctPc == (if r.result.actualTaken then pc + immediate else pc + 4)
      && r.targetPc == (if JumprOf(control) then (rs1 + immediate) & 0xFFFF_FFFE
                        else if r.result.isBranch || JumpOf(control) then pc + immediate
                        else pc + 4)
  {
    JalrTargetClearsBitZero(rs1, immediate);
  }

  /** A branch produces no ALU result; a jump produces its link address pc + 4. */
  lemma ResultRule(pc: bv32, immediate: bv32, control: bv42, info: PredictionInfo, rs1: bv32, rs2: bv32)
    ensures var r := Resolve(pc, immediate, control, info, rs1, rs2);
      && (r.result.isBranch ==> r.aluResult == 0)
      && (!r.result.isBranch && (JumpOf(control) || JumprOf(control)) ==> r.aluResult == pc + 4)
  {
  }

  // ---------------------------------------------------------------------------------------
  // The stage

  /** The registers `ExecuteStage.build` reads. */
  datatype ExecuteInput = ExecuteInput(
    idExValid: bool,
    pc: bv32,
    rs1Index: bv5,
    rs2Index: bv5,
    immediate: bv32,
    control: bv42,
    predictionInfo: bv34,
    exMemValid: bool,
    exMemControl: bv42,
    exMemResult: bv32,
    memWbValid: bool,
    memWbControl: bv42,
    memWbResult: bv32,
    memData: bv32,
    registers: seq<bv32>)

  /** The EX/MEM register writes. */
  datatype ExMemWrite = ExMemWrite(pc: bv32, control: bv42, result: bv32, data: bv32)

  datatype ExecuteOutput = ExecuteOutput(
    exMem: Option<ExMemWrite>,
    signals: ExecuteSignals,
    finish: bool)

  /** The two forwarded operands. */
  function Operands(e: ExecuteInput): (bv32, bv32)
    requires |e.registers| == 32
  {
    var wbData := WriteBackData(e.memWbControl, e.memData, e.memWbResult);
    (Forward(e.rs1Index, e.registers[e.rs1Index as int], e.exMemValid, e.exMemControl, e.exMemResult,
             e.memWbValid, e.memWbControl, wbData),
     Forward(e.rs2Index, e.registers[e.rs2Index as int], e.exMemValid, e.exMemControl, e.exMemResult,
             e.memWbValid, e.memWbControl, wbData))
  }

  /** `ExecuteStage.build`: the EX/MEM writes happen under `ex_mem_valid` and carry zeros when
      ID/EX is not valid; every field of `execute_signals` is zero when ID/EX is not valid,
      which gates the whole bundle; `finish()` is called for a JAL with offset 0. */
  function ExecuteStage(e: ExecuteInput): (out: ExecuteOutput)
    requires |e.registers| == 32
  {
    var (rs1, rs2) := Operands(e);
    var r := Resolve(e.pc, e.immediate, e.control, UnpackPredictionInfo(e.predictionInfo), rs1, rs2);
    var signals :=
      if e.idExValid then ExecuteSignals(r.needFlush, r.targetPc, e.control, r.result) else NoExecuteSignals;
    var write :=
      if e.idExValid then ExMemWrite(e.pc, e.control, r.aluResult, rs2) else ExMemWrite(0, 0, 0, 0);
    ExecuteOutput(if e.exMemValid then Some(write) else None, signals,
                  JumpOf(e.control) && e.immediate == 0)
  }

  /** Without a valid instruction in ID/EX the stage sends the all-zero bundle and writes
      zeros to EX/MEM; with one it sends its resolution, and EX/MEM receives the PC, the
      control word, the result and the forwarded second operand. EX/MEM is written only when
      it is valid. */
  lemma ExecuteGating(e: ExecuteInput)
    requires |e.registers| == 32
    ensures var out := ExecuteStage(e);
      var (rs1, rs2) := Operands(e);
      var r := Resolve(e.pc, e.immediate, e.control, UnpackPredictionInfo(e.predictionInfo), rs1, rs2);
      && (out.exMem.Some? <==> e.exMemValid)
      && (!e.idExValid ==> out.signals == NoExecuteSignals && PackExecuteSignals(out.signals) == 0)
      && (!e.idExValid && e.exMemValid ==> out.exMem == Some(ExMemWrite(0, 0, 0, 0)))
      && (e.idExValid ==> out.signals.pcChange == r.needFlush && out.signals.result == r.result
                          && out.signals.targetPc == r.targetPc && out.signals.control == e.control)
      && (e.idExValid && e.exMemValid ==> out.exMem == Some(ExMemWrite(e.pc, e.control, r.aluResult, rs2)))
  {
    ZeroBundles();
  }
}
