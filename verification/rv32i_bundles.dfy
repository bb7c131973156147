/** The bit layouts by which the RV32I pipeline passes values between stages: the 34-bit
    prediction info made by the fetch stage, the 120-bit `decode_signals`, the 103-bit
    prediction result and the 178-bit `execute_signals`. Each is a `concat` whose first
    argument lands in the most significant bits; the readers take them apart again with
    inclusive slices `x[lo:hi]`. */
module Rv32iBundles {
  import opened Rv32iWord

  /** `prediction_info`: btb_hit in bit 0, predict_taken in bit 1, predicted_pc in 33..2. */
  datatype PredictionInfo = PredictionInfo(btbHit: bool, predictTaken: bool, predictedPc: bv32)

  function PackPredictionInfo(p: PredictionInfo): bv34
  {
    ((p.predictedPc as bv34) << 2) | ((BitOf(p.predictTaken) as bv34) << 1) | (BitOf(p.btbHit) as bv34)
  }

  /** `prediction_info[0:0]`, `[1:1]` and `[2:33]`, as the execute stage and the hazard unit
      read them. */
  function UnpackPredictionInfo(w: bv34): PredictionInfo
  {
    PredictionInfo(w & 1 == 1, (w >> 1) & 1 == 1, (w >> 2) as bv32)
  }

  lemma PredictionInfoRoundTrip(p: PredictionInfo)
    ensures UnpackPredictionInfo(PackPredictionInfo(p)) == p
  {
  }

  lemma PredictionInfoOfWord(w: bv34)
    ensures PackPredictionInfo(UnpackPredictionInfo(w)) == w
  {
  }

  /** The fields of `decode_signals`, which are also the ID/EX registers holding them. */
  datatype DecodeSignals = DecodeSignals(
    control: bv42,
    rs1: bv5,
    rs2: bv5,
    immediate: bv32,
    needRs1: bool,
    needRs2: bool,
    predictionInfo: bv34)

  const NoDecodeSignals := DecodeSignals(0, 0, 0, 0, false, false, 0)

  /** `concat(prediction_info, need_rs2, need_rs1, immediate, rs2, rs1, control)`: control in
      bits 41..0, rs1 in 46..42, rs2 in 51..47, immediate in 83..52, need_rs1 in 84,
      need_rs2 in 85, prediction info in 119..86. */
  function PackDecodeSignals(d: DecodeSignals): bv120
  {
    ((d.predictionInfo as bv120) << 86) | ((BitOf(d.needRs2) as bv120) << 85)
    | ((BitOf(d.needRs1) as bv120) << 84) | ((d.immediate as bv120) << 52)
    | ((d.rs2 as bv120) << 47) | ((d.rs1 as bv120) << 42) | (d.control as bv120)
  }

  /** The slices of `HazardUnit.build`: `[0:41]`, `[42:46]`, `[47:51]`, `[52:83]`, `[84:84]`,
      `[85:85]`, `[86:119]`. */
  function UnpackDecodeSignals(w: bv120): DecodeSignals
  {
    DecodeSignals(
      (w & 0x3FF_FFFF_FFFF) as bv42,
      ((w >> 42) & 0x1F) as bv5,
      ((w >> 47) & 0x1F) as bv5,
      ((w >> 52) & 0xFFFF_FFFF) as bv32,
      (w >> 84) & 1 == 1,
      (w >> 85) & 1 == 1,
      (w >> 86) as bv34)
  }

  lemma DecodeSignalsRoundTrip(d: DecodeSignals)
    ensures UnpackDecodeSignals(PackDecodeSignals(d)) == d
  {
  }

  lemma DecodeSignalsOfWord(w: bv120)
    ensures PackDecodeSignals(UnpackDecodeSignals(w)) == w
  {
  }

  /** The outcome of a branch or jump in the execute stage, as the hazard unit needs it. */
  datatype PredictionResult = PredictionResult(
    mispredict: bool,
    correctPc: bv32,
    actualTaken: bool,
    actualTarget: bv32,
    btbHit: bool,
    predictTaken: bool,
    pc: bv32,
    isBranch: bool,
    isJump: bool,
    isJumpr: bool)

  const NoPredictionResult := PredictionResult(false, 0, false, 0, false, false, 0, false, false, false)

  /** mispredict in bit 0, correct_pc in 32..1, actual_taken in 33, actual_target_pc in 65..34,
      btb_hit in 66, predict_taken in 67, pc in 99..68, is_branch in 100, is_jump in 101,
      is_jumpr in 102. */
  function PackPredictionResult(r: PredictionResult): bv103
  {
    ((BitOf(r.isJumpr) as bv103) << 102) | ((BitOf(r.isJump) as bv103) << 101)
    | ((BitOf(r.isBranch) as bv103) << 100) | ((r.pc as bv103) << 68)
    | ((BitOf(r.predictTaken) as bv103) << 67) | ((BitOf(r.btbHit) as bv103) << 66)
    | ((r.actualTarget as bv103) << 34) | ((BitOf(r.actualTaken) as bv103) << 33)
    | ((r.correctPc as bv103) << 1) | (BitOf(r.mispredict) as bv103)
  }

  function UnpackPredictionResult(w: bv103): PredictionResult
  {
    PredictionResult(
      w & 1 == 1,
      ((w >> 1) & 0xFFFF_FFFF) as bv32,
      (w >> 33) & 1 == 1,
      ((w >> 34) & 0xFFFF_FFFF) as bv32,
      (w >> 66) & 1 == 1,
      (w >> 67) & 1 == 1,
      ((w >> 68) & 0xFFFF_FFFF) as bv32,
      (w >> 100) & 1 == 1,
      (w >> 101) & 1 == 1,
      (w >> 102) & 1 == 1)
  }

  lemma PredictionResultRoundTrip(r: PredictionResult)
    ensures UnpackPredictionResult(PackPredictionResult(r)) == r
  {
  }

  lemma PredictionResultOfWord(w: bv103)
    ensures PackPredictionResult(UnpackPredictionResult(w)) == w
  {
  }

  /** The fields of `execute_signals`. */
  datatype ExecuteSignals = ExecuteSignals(
    pcChange: bool,
    targetPc: bv32,
    control: bv42,
    result: PredictionResult)

  const NoExecuteSignals := ExecuteSignals(false, 0, 0, NoPredictionResult)

  /** `concat(prediction_result, control, target_pc, pc_change)`: pc_change in bit 0,
      target_pc in 32..1, control in 74..33, prediction result in 177..75. */
  function PackExecuteSignals(e: ExecuteSignals): bv178
  {
    ((PackPredictionResult(e.result) as bv178) << 75) | ((e.control as bv178) << 33)
    | ((e.targetPc as bv178) << 1) | (BitOf(e.pcChange) as bv178)
  }

  /** The slices of `HazardUnit.build`: `[0:0]`, `[1:32]`, `[33:74]` and `[75:177]`. */
  function UnpackExecuteSignals(w: bv178): ExecuteSignals
  {
    ExecuteSignals(
      w & 1 == 1,
      ((w >> 1) & 0xFFFF_FFFF) as bv32,
      ((w >> 33) & 0x3FF_FFFF_FFFF) as bv42,
      UnpackPredictionResult((w >> 75) as bv103))
  }

  lemma ExecuteSignalsRoundTrip(e: ExecuteSignals)
    ensures UnpackExecuteSignals(PackExecuteSignals(e)) == e
  {
    PredictionResultRoundTrip(e.result);
  }

  lemma ExecuteSignalsOfWord(w: bv178)
    ensures PackExecuteSignals(UnpackExecuteSignals(w)) == w
  {
    PredictionResultOfWord((w >> 75) as bv103);
  }

  /** An all-zero bundle, the value `optional(...)` substitutes when its producer did not run,
      reads back as all fields cleared; and clearing every field packs to zero, so gating each
      field with the same `select` gates the whole bundle. */
  lemma ZeroBundles()
    ensures UnpackDecodeSignals(0) == NoDecodeSignals && PackDecodeSignals(NoDecodeSignals) == 0
    ensures UnpackExecuteSignals(0) == NoExecuteSignals && PackExecuteSignals(NoExecuteSignals) == 0
    ensures UnpackPredictionInfo(0) == PredictionInfo(false, false, 0)
  {
  }
}
