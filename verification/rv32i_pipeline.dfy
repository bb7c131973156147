/** The fetch stage, the register writes of the decode stage, the branch predictor and the
    `HazardUnit` downstream of the RV32I pipeline. Each stage is modelled as one cycle: the
    registers it reads are inputs, and the writes it performs (all committed at the end of the
    cycle) are outputs. */
module Rv32iPipeline {
  import opened Wrappers
  import opened Rv32iWord
  import opened Rv32iDecode
  import opened Rv32iBundles
  import opened Rv32iExecute

  /** `x.optional(default)`: the value a downstream sees when the producing stage did not run. */
  function Optional<T>(x: Option<T>, default: T): T
  {
    if x.Some? then x.value else default
  }

  // ---------------------------------------------------------------------------------------
  // Branch predictor: a 64-entry BTB with valid bits and 2-bit saturating counters

  const PredictorEntries := 64

  /** `pc[2:7]`, the index shared by the lookup in fetch and the update in the hazard unit. */
  function BtbIndex(pc: bv32): (i: int)
    ensures 0 <= i < PredictorEntries
  {
    ((pc >> 2) & 0x3F) as int
  }

  datatype Predictor = Predictor(btb: seq<bv32>, bht: seq<bv2>, valid: seq<bool>)
  {
    predicate WellSized()
    {
      |btb| == PredictorEntries && |bht| == PredictorEntries && |valid| == PredictorEntries
    }
  }

  /** `bht` starts at 1 (weakly not taken), `btb` at 0, `btb_valid` at 0. */
  const InitialPredictor := Predictor(seq(64, _ => 0), seq(64, _ => 1), seq(64, _ => false))

  /** `bht_entry >= 2`. */
  predicate PredictsTaken(counter: bv2)
  {
    counter >= 2
  }

  /** `new_bht`: count up on a taken branch and down on a not-taken one, saturating at 3 and 0. */
  function NextCounter(counter: bv2, taken: bool): bv2
  {
    if taken then (if counter == 3 then 3 else counter + 1)
    else (if counter == 0 then 0 else counter - 1)
  }

  /** The counter moves one step toward the outcome and never wraps. */
  lemma NextCounterSaturates(counter: bv2, taken: bool)
    ensures taken ==> NextCounter(counter, taken) as int == if counter as int == 3 then 3 else counter as int + 1
    ensures !taken ==> NextCounter(counter, taken) as int == if counter as int == 0 then 0 else counter as int - 1
  {
  }

  /** Hysteresis: a single outcome flips the predicted direction only from the two weak states,
      1 on a taken branch and 2 on a not-taken one. */
  lemma OneOutcomeFlipsOnlyWeakStates(counter: bv2, taken: bool)
    ensures PredictsTaken(NextCounter(counter, taken)) != PredictsTaken(counter) <==>
      (counter == 1 && taken) || (counter == 2 && !taken)
  {
  }

  /** Two outcomes in the same direction always leave the counter predicting that direction. */
  lemma TwoOutcomesTrain(counter: bv2, taken: bool)
    ensures PredictsTaken(NextCounter(NextCounter(counter, taken), taken)) == taken
  {
  }

  /** The lookup of `FetchStage.build`: a hit when the valid bit is set, taken when the counter
      is at least 2, and the BTB target as predicted PC only for a taken hit. */
  function Predict(p: Predictor, pc: bv32): PredictionInfo
    requires p.WellSized()
  {
    var i := BtbIndex(pc);
    var hit := p.valid[i];
    var taken := PredictsTaken(p.bht[i]);
    PredictionInfo(hit, taken, if hit && taken then p.btb[i] else pc + 4)
  }

  /** The update under `Condition(is_branch_ex)`: the entry of the branch's PC gets the actual
      target, its valid bit, and the counter stepped toward the outcome. Jumps do not train. */
  function Train(p: Predictor, r: PredictionResult): (q: Predictor)
    requires p.WellSized()
    ensures q.WellSized()
  {
    if r.isBranch then
      var i := BtbIndex(r.pc);
      Predictor(p.btb[i := r.actualTarget], p.bht[i := NextCounter(p.bht[i], r.actualTaken)],
                p.valid[i := true])
    else p
  }

  /** Training changes only the entry of the resolved branch, and only for a branch. */
  lemma TrainTouchesOneEntry(p: Predictor, r: PredictionResult, j: int)
    requires p.WellSized() && 0 <= j < PredictorEntries
    requires !r.isBranch || j != BtbIndex(r.pc)
    ensures Train(p, r).btb[j] == p.btb[j]
    ensures Train(p, r).bht[j] == p.bht[j]
    ensures Train(p, r).valid[j] == p.valid[j]
  {
  }

  /** After training on a branch, the next lookup of the same PC hits and predicts the actual
      target exactly when the updated counter predicts taken. */
  lemma TrainedLookup(p: Predictor, r: PredictionResult)
    requires p.WellSized() && r.isBranch
    ensures var q := Train(p, r);
      var info := Predict(q, r.pc);
      && info.btbHit
      && info.predictTaken == PredictsTaken(NextCounter(p.bht[BtbIndex(r.pc)], r.actualTaken))
      && info.predictedPc == if info.predictTaken then r.actualTarget else r.pc + 4
  {
  }

  /** When the fetch stage's own prediction for a branch is not flagged as a misprediction,
      the address it fetched next was the branch's true successor. */
  lemma UnflaggedBranchWasFetchedCorrectly(p: Predictor, pc: bv32, immediate: bv32, control: bv42,
                                           rs1: bv32, rs2: bv32)
    requires p.WellSized()
    ensures var info := Predict(p, pc);
      var r := Resolve(pc, immediate, control, info, rs1, rs2).result;
      r.isBranch && !r.mispredict ==> info.predictedPc == r.correctPc
  {
  }

  // ---------------------------------------------------------------------------------------
  // Fetch

  /** The IF/ID register writes of the fetch stage. */
  datatype IfIdWrite = IfIdWrite(pc: bv32, valid: bool, predictionInfo: bv34)

  datatype FetchOutput = FetchOutput(ifId: Option<IfIdWrite>, signals: bv32)

  /** `FetchStage.build` for the word `fetched` read from `instruction_memory[pc >> 2]`. */
  function FetchStage(pc: bv32, stall: bool, ifIdValid: bool, ifIdInstruction: bv32, fetched: bv32,
                      p: Predictor): FetchOutput
    requires p.WellSized()
  {
    var info := PackPredictionInfo(Predict(p, pc));
    var write := IfIdWrite(if stall then 0 else pc, !stall, if stall then 0 else info);
    FetchOutput(if ifIdValid then Some(write) else None,
                if ifIdValid then (if stall then 0 else fetched) else ifIdInstruction)
  }

  /** An unstalled fetch hands on the fetched word and records the PC and the prediction made
      for it, which the execute stage reads back unchanged; a stalled one inserts a bubble with
      instruction 0 and no prediction; when IF/ID is not valid the held instruction is passed
      on and nothing is written. */
  lemma FetchRule(pc: bv32, stall: bool, ifIdValid: bool, ifIdInstruction: bv32, fetched: bv32,
                  p: Predictor)
    requires p.WellSized()
    ensures var out := FetchStage(pc, stall, ifIdValid, ifIdInstruction, fetched, p);
      && (ifIdValid && !stall ==>
            out.signals == fetched && out.ifId.Some? && out.ifId.value.pc == pc && out.ifId.value.valid
            && UnpackPredictionInfo(out.ifId.value.predictionInfo) == Predict(p, pc))
      && (ifIdValid && stall ==> out.signals == 0 && out.ifId == Some(IfIdWrite(0, false, 0)))
      && (!ifIdValid ==> out.signals == ifIdInstruction && out.ifId.None?)
  {
    PredictionInfoRoundTrip(Predict(p, pc));
  }

  // ---------------------------------------------------------------------------------------
  // Decode: the ID/EX writes and `decode_signals`

  /** The ID/EX registers the decode stage writes itself. */
  datatype IdExDecodeWrite = IdExDecodeWrite(pc: bv32, needRs1: bool, needRs2: bool, predictionInfo: bv34)

  /** The fields the decoder derives from one instruction, with the prediction made for it. */
  function Fresh(instruction: bv32, predictionInfo: bv34): DecodeSignals
  {
    var d := Decode(instruction);
    DecodeSignals(ControlWord(d.control), d.rs1, d.rs2, d.immediate, d.needRs1, d.needRs2, predictionInfo)
  }

  /** The output of `DecodeStage.build`: when ID/EX is valid every field is the decoded one
      (zero when IF/ID is not valid); otherwise every field is the one held in ID/EX. */
  function DecodeOutput(ifIdValid: bool, ifIdPc: bv32, instruction: bv32, predictionInfo: bv34,
                        idExValid: bool, held: DecodeSignals): (Option<IdExDecodeWrite>, DecodeSignals)
  {
    var decoded := Fresh(instruction, predictionInfo);
    var write := if ifIdValid then IdExDecodeWrite(ifIdPc, decoded.needRs1, decoded.needRs2, predictionInfo)
                 else IdExDecodeWrite(0, false, false, 0);
    var signals := if idExValid then (if ifIdValid then decoded else NoDecodeSignals) else held;
    (if idExValid then Some(write) else None, signals)
  }

  /** Decoding is gated twice: without a valid instruction in IF/ID the fields are zero and
      the ID/EX writes are zero, and without a valid ID/EX the held fields are passed on and
      nothing is written. A valid instruction reaches ID/EX with its PC, operand needs and
      prediction, and its control word packs the decoder's signals losslessly. */
  lemma DecodeOutputRule(ifIdValid: bool, ifIdPc: bv32, instruction: bv32, predictionInfo: bv34,
                         idExValid: bool, held: DecodeSignals)
    ensures var (write, signals) := DecodeOutput(ifIdValid, ifIdPc, instruction, predictionInfo, idExValid, held);
      && (!idExValid ==> write.None? && signals == held)
      && (idExValid && !ifIdValid ==>
            write == Some(IdExDecodeWrite(0, false, false, 0)) && PackDecodeSignals(signals) == 0)
      && (idExValid && ifIdValid ==>
            write == Some(IdExDecodeWrite(ifIdPc, Decode(instruction).needRs1, Decode(instruction).needRs2, predictionInfo))
            && ControlOf(signals.control) == Decode(instruction).control
            && signals.predictionInfo == predictionInfo)
  {
    ZeroBundles();
    ControlRoundTrip(Decode(instruction).control);
  }

  // ---------------------------------------------------------------------------------------
  // Memory: the SRAM request and the MEM/WB writes

  /** One access to `data_sram`: write enable, read enable, word address and write data. */
  datatype SramRequest = SramRequest(writeEnable: bool, readEnable: bool, wordAddress: bv32, writeData: bv32)

  /** The MEM/WB registers; `memData` is written only for an instruction that accesses memory. */
  datatype MemWbWrite = MemWbWrite(control: bv42, exResult: bv32, memData: Option<bv32>)

  datatype MemoryOutput = MemoryOutput(request: Option<SramRequest>, memWb: Option<MemWbWrite>, signals: bv42)

  /** `MemoryStage.build`, with `sramOut` the word the SRAM returns for the request. Everything
      happens under `mem_wb_valid`; the request only for a valid load or store. The store type
      in bits 23..22 is read but not used: every store writes the whole word. */
  function MemoryStage(exMemValid: bool, memWbValid: bool, control: bv42, result: bv32, data: bv32,
                       sramOut: bv32): MemoryOutput
  {
    var access := MemReadOf(control) || MemWriteOf(control);
    var request := SramRequest(MemWriteOf(control), MemReadOf(control), result >> 2, data);
    var memData := if access then Some(if exMemValid then sramOut else 0) else None;
    var write := MemWbWrite(if exMemValid then control else 0, if exMemValid then result else 0, memData);
    MemoryOutput(if memWbValid && access && exMemValid then Some(request) else None,
                 if memWbValid then Some(write) else None, control)
  }

  /** A valid load or store addresses the word `result >> 2` and stores all of `data`, whatever
      its store type; an invalid EX/MEM passes a zero control word and result to MEM/WB, and
      the hazard unit's `memory_signals` are the EX/MEM control word unchanged. */
  lemma MemoryStageRule(exMemValid: bool, memWbValid: bool, control: bv42, result: bv32, data: bv32,
                        sramOut: bv32)
    ensures var out := MemoryStage(exMemValid, memWbValid, control, result, data, sramOut);
      && (out.request.Some? <==> memWbValid && exMemValid && (MemReadOf(control) || MemWriteOf(control)))
      && (out.request.Some? ==> out.request.value.wordAddress == result >> 2 && out.request.value.writeData == data
                                && out.request.value.writeEnable == MemWriteOf(control))
      && (out.memWb.Some? <==> memWbValid)
      && (memWbValid && !exMemValid ==> out.memWb.value.control == 0 && out.memWb.value.exResult == 0)
      && out.signals == control
  {
  }

  // ---------------------------------------------------------------------------------------
  // Hazard unit

  /** What `HazardUnit.build` reads: its own registers and the optional stage outputs. */
  datatype HazardInput = HazardInput(
    pc: bv32,
    ifIdValid: bool,
    ifIdPredictionInfo: bv34,
    idExValid: bool,
    exMemValid: bool,
    fetchSignals: Option<bv32>,
    decodeSignals: Option<DecodeSignals>,
    executeSignals: Option<ExecuteSignals>,
    predictor: Predictor)

  /** The ID/EX registers the hazard unit writes. */
  datatype IdExHazardWrite = IdExHazardWrite(control: bv42, immediate: bv32, rs1: bv5, rs2: bv5,
                                             predictionInfo: bv34)

  datatype HazardOutput = HazardOutput(
    pc: bv32,
    stall: bool,
    ifIdValid: bool,
    idExValid: bool,
    exMemValid: bool,
    memWbValid: bool,
    predictor: Predictor,
    ifId: Option<(bv32, bv34)>,
    idEx: Option<IdExHazardWrite>)

  /** `load_use_hazard_mem`: the instruction in EX is a load writing a register other than x0
      that the instruction in ID reads. */
  predicate LoadUse(exControl: bv42, d: DecodeSignals)
  {
    var rd := RdOf(exControl);
    MemReadOf(exControl) && RegWriteOf(exControl) && rd != 0
    && ((d.needRs1 && d.rs1 == rd) || (d.needRs2 && d.rs2 == rd))
  }

  /** `need_flush`. */
  predicate NeedFlush(r: PredictionResult)
  {
    r.mispredict || r.isJump || r.isJumpr
  }

  /** `flush_pc`: the JALR target, the JAL target, or `correct_pc` after a misprediction. */
  function FlushPc(e: ExecuteSignals): bv32
  {
    if e.result.isJumpr then e.targetPc else if e.result.isJump then e.result.actualTarget
    else e.result.correctPc
  }

  /** `normal_next_pc`: the predicted target recorded in IF/ID for a taken hit, else pc + 4. */
  function NormalNextPc(pc: bv32, ifIdPredictionInfo: bv34): bv32
  {
    var info := UnpackPredictionInfo(ifIdPredictionInfo);
    if info.btbHit && info.predictTaken then info.predictedPc else pc + 4
  }

  function HazardUnit(h: HazardInput): (out: HazardOutput)
    requires h.predictor.WellSized()
    ensures out.predictor.WellSized()
  {
    var ex := Optional(h.executeSignals, NoExecuteSignals);
    var d := Optional(h.decodeSignals, NoDecodeSignals);
    var instruction := Optional(h.fetchSignals, 0);
    var exControl := if h.idExValid then ex.control else 0;
    var flush := NeedFlush(ex.result);
    var dataHazard := LoadUse(exControl, d) && !flush;
    var nextPc := if flush then FlushPc(ex) else if dataHazard then h.pc else NormalNextPc(h.pc, h.ifIdPredictionInfo);
    var ifId := if flush then (0x13, 0) else (instruction, d.predictionInfo);
    var idEx := if flush then IdExHazardWrite(0, 0, 0, 0, 0)
                else IdExHazardWrite(d.control, d.immediate, d.rs1, d.rs2, d.predictionInfo);
    HazardOutput(nextPc, dataHazard, !dataHazard, !dataHazard, true, true, Train(h.predictor, ex.result),
                 if h.ifIdValid then Some(ifId) else None, if h.idExValid then Some(idEx) else None)
  }

  /** The pipeline stalls exactly for a load-use hazard without a flush: a valid load in EX
      writing a non-zero register that the instruction in ID reads. A stall clears both valid
      bits for the next cycle; EX/MEM and MEM/WB are always valid. */
  lemma StallRule(h: HazardInput)
    requires h.predictor.WellSized()
    ensures var out := HazardUnit(h);
      var ex := Optional(h.executeSignals, NoExecuteSignals);
      var d := Optional(h.decodeSignals, NoDecodeSignals);
      && (out.stall <==> h.idExValid && LoadUse(ex.control, d) && !NeedFlush(ex.result))
      && (out.stall ==> MemReadOf(ex.control) && RdOf(ex.control) != 0)
      && out.ifIdValid == !out.stall && out.idExValid == !out.stall
      && out.exMemValid && out.memWbValid
  {
  }

  /** The next PC: the flush target on a flush, the same PC on a stall, and otherwise the
      prediction recorded in IF/ID. */
  lemma NextPcRule(h: HazardInput)
    requires h.predictor.WellSized()
    ensures var out := HazardUnit(h);
      var ex := Optional(h.executeSignals, NoExecuteSignals);
      && (NeedFlush(ex.result) ==> out.pc == FlushPc(ex))
      && (!NeedFlush(ex.result) && out.stall ==> out.pc == h.pc)
      && (!NeedFlush(ex.result) && !out.stall ==> out.pc == NormalNextPc(h.pc, h.ifIdPredictionInfo))
  {
  }

  /** A flush replaces the instruction entering ID by ADDI x0, x0, 0 and the one entering EX by
      an all-zero control word; both have no architectural effect. */
  lemma FlushInsertsBubbles(h: HazardInput)
    requires h.predictor.WellSized()
    requires NeedFlush(Optional(h.executeSignals, NoExecuteSignals).result)
    ensures var out := HazardUnit(h);
      && (h.ifIdValid ==> out.ifId == Some((0x13, 0)))
      && (h.idExValid ==> out.idEx == Some(IdExHazardWrite(0, 0, 0, 0, 0)))
      && (var c := Decode(0x13).control;
          !c.regWrite && !c.memRead && !c.memWrite && c.branchOp == 0 && !c.jump && !c.jumpr)
      && ControlOf(0) == Control(0, false, false, false, false, 0, 0, false, false, 0, 0, 0)
  {
    NopHasNoEffect();
    ZeroWordIsBubble();
  }

  /** When no stage produced output the hazard unit sees all zeros: no flush, no stall, no
      training, and the PC advances by the prediction in IF/ID. */
  lemma IdleHazardUnit(h: HazardInput)
    requires h.predictor.WellSized()
    requires h.executeSignals.None? && h.decodeSignals.None?
    ensures var out := HazardUnit(h);
      && !out.stall
      && out.predictor == h.predictor
      && out.pc == NormalNextPc(h.pc, h.ifIdPredictionInfo)
  {
  }

  /** The flush target of the signals a valid execute stage sends. */
  lemma FlushPcOfResolution(pc: bv32, immediate: bv32, control: bv42, info: PredictionInfo,
                            rs1: bv32, rs2: bv32)
    ensures var r := Resolve(pc, immediate, control, info, rs1, rs2);
      && NeedFlush(r.result) == r.needFlush
      && FlushPc(ExecuteSignals(r.needFlush, r.targetPc, control, r.result)) ==
           if JumprOf(control) then (rs1 + immediate) & 0xFFFF_FFFE
           else if JumpOf(control) then pc + immediate
           else r.result.correctPc
  {
    TargetRule(pc, immediate, control, info, rs1, rs2);
    FlushRule(pc, immediate, control, info, rs1, rs2);
  }

  /** Across the execute stage and the hazard unit: when the execute stage has resolved a JAL,
      a JALR or a mispredicted branch (the bundle `ExecuteStage` sends for a valid instruction,
      see `ExecuteGating`), the next PC is that instruction's architectural successor: the JALR
      target with bit 0 cleared, pc + imm for JAL, or the resolved branch successor. */
  lemma FlushGoesToSuccessor(pc: bv32, immediate: bv32, control: bv42, info: PredictionInfo,
                             rs1: bv32, rs2: bv32, h: HazardInput)
    requires h.predictor.WellSized()
    requires var r := Resolve(pc, immediate, control, info, rs1, rs2);
      h.executeSignals == Some(ExecuteSignals(r.needFlush, r.targetPc, control, r.result))
    ensures var r := Resolve(pc, immediate, control, info, rs1, rs2);
      r.needFlush ==>
        HazardUnit(h).pc ==
          if JumprOf(control) then (rs1 + immediate) & 0xFFFF_FFFE
          else if JumpOf(control) then pc + immediate
          else r.result.correctPc
  {
    FlushPcOfResolution(pc, immediate, control, info, rs1, rs2);
    NextPcRule(h);
  }
}
