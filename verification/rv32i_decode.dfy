/** The combinational logic of `DecodeStage.build` in the five-stage RV32I pipeline with BTB
    prediction: instruction fields, the five immediate formats, and the control signals, which
    the source computes as a chain of `select`s in which a later assignment overrides an
    earlier one. The 42-bit control word that carries the signals down the pipeline and the
    slices by which later stages read it back are here as well. */
module Rv32iDecode {
  import opened Rv32iWord

  // ALU operation codes (`alu_op`, 5 bits).
  const AluAdd: bv5 := 0
  const AluSub: bv5 := 1
  const AluSll: bv5 := 2
  const AluSlt: bv5 := 3
  const AluXor: bv5 := 4
  const AluSrl: bv5 := 5
  const AluSra: bv5 := 6
  const AluSltu: bv5 := 7
  const AluOr: bv5 := 8
  const AluAnd: bv5 := 9

  // Branch comparison codes (`branch_op`, 3 bits); 0 means "not a branch".
  const BranchNone: bv3 := 0
  const BranchEq: bv3 := 1
  const BranchNe: bv3 := 2
  const BranchLt: bv3 := 3
  const BranchGe: bv3 := 4
  const BranchLtu: bv3 := 5
  const BranchGeu: bv3 := 6

  // ALU operand selection (`alu_src`, 2 bits).
  const SrcRegister: bv2 := 0
  const SrcImmediate: bv2 := 1
  const SrcPc: bv2 := 2

  /** `instruction[0:6]` and the other fixed fields of every RV32I encoding. */
  function Opcode(instr: bv32): bv7 { (instr & 0x7F) as bv7 }
  function Rd(instr: bv32): bv5 { ((instr >> 7) & 0x1F) as bv5 }
  function Funct3(instr: bv32): bv3 { ((instr >> 12) & 0x7) as bv3 }
  function Rs1(instr: bv32): bv5 { ((instr >> 15) & 0x1F) as bv5 }
  function Rs2(instr: bv32): bv5 { ((instr >> 20) & 0x1F) as bv5 }
  function Funct7(instr: bv32): bv7 { (instr >> 25) as bv7 }

  /** `funct7[5:5] == 1`, i.e. instruction bit 30. */
  predicate Funct7Bit5(instr: bv32) { Funct7(instr) & 0x20 != 0 }

  /** The nine opcodes the decoder recognises, and everything else. */
  datatype Format = RegReg | RegImm | Load | Store | Branch | Jal | Jalr | Lui | Auipc | Unknown

  function FormatOf(instr: bv32): Format
  {
    var op := Opcode(instr);
    if op == 0x33 then RegReg
    else if op == 0x13 then RegImm
    else if op == 0x03 then Load
    else if op == 0x23 then Store
    else if op == 0x63 then Branch
    else if op == 0x6F then Jal
    else if op == 0x67 then Jalr
    else if op == 0x37 then Lui
    else if op == 0x17 then Auipc
    else Unknown
  }

  // The immediates, built as the source builds them: the raw field (`imm_i_bits` and so on)
  // is concatenated from instruction slices, and a `select` on its top bit puts all ones or
  // all zeros above it.

  function RawI(instr: bv32): bv32 { instr >> 20 }

  function RawS(instr: bv32): bv32 { ((instr >> 25) << 5) | ((instr >> 7) & 0x1F) }

  function RawB(instr: bv32): bv32
  {
    ((instr >> 31) << 12) | (((instr >> 7) & 0x1) << 11)
    | (((instr >> 25) & 0x3F) << 5) | (((instr >> 8) & 0xF) << 1)
  }

  function RawJ(instr: bv32): bv32
  {
    ((instr >> 31) << 20) | (((instr >> 12) & 0xFF) << 12)
    | (((instr >> 20) & 0x1) << 11) | (((instr >> 21) & 0x3FF) << 1)
  }

  /** `(sign_bit == 1).select(concat(ones, bits), concat(zeros, bits))`, where `top` is the
      sign bit of the raw field and `fill` the bits above it. */
  function SignExtend(bits: bv32, top: bv32, fill: bv32): bv32
  {
    if bits & top != 0 then fill | bits else bits
  }

  function ImmI(instr: bv32): bv32 { SignExtend(RawI(instr), 0x800, 0xFFFF_F000) }
  function ImmS(instr: bv32): bv32 { SignExtend(RawS(instr), 0x800, 0xFFFF_F000) }
  function ImmB(instr: bv32): bv32 { SignExtend(RawB(instr), 0x1000, 0xFFFF_E000) }
  function ImmJ(instr: bv32): bv32 { SignExtend(RawJ(instr), 0x10_0000, 0xFFE0_0000) }

  /** `instruction[12:31] << 12`, read as the 32-bit U-immediate. */
  function ImmU(instr: bv32): bv32 { (instr >> 12) << 12 }

  /** The value every copied sign bit takes: all ones under `mask` for a negative instruction
      word, zero otherwise. */
  function SignFill(instr: bv32, mask: bv32): bv32
  {
    if Negative(instr) then mask else 0
  }

  // Where each raw field's bits come from; its top bit is inst[31].

  lemma RawIBits(instr: bv32)
    ensures RawI(instr) & 0x7FF == (instr >> 20) & 0x7FF
    ensures RawI(instr) & 0xFFFF_F800 == (instr >> 31) << 11
  {
  }

  lemma RawSBits(instr: bv32)
    ensures RawS(instr) & 0x7FF == ((instr >> 20) & 0x7E0) | ((instr >> 7) & 0x1F)
    ensures RawS(instr) & 0xFFFF_F800 == (instr >> 31) << 11
  {
  }

  lemma RawBBits(instr: bv32)
    ensures RawB(instr) & 0xFFF == ((instr & 0x80) << 4) | ((instr >> 20) & 0x7E0) | ((instr >> 7) & 0x1E)
    ensures RawB(instr) & 0xFFFF_F000 == (instr >> 31) << 12
  {
  }

  lemma RawJBits(instr: bv32)
    ensures RawJ(instr) & 0xF_FFFF == (instr & 0xF_F000) | ((instr >> 9) & 0x800) | ((instr >> 20) & 0x7FE)
    ensures RawJ(instr) & 0xFFF0_0000 == (instr >> 31) << 20
  {
  }

  // The immediates as section 2.3 of the RISC-V Unprivileged ISA places the instruction bits
  // (its figure of the immediates produced by each format); bits above the field are copies
  // of inst[31].

  /** I: bits 10..0 are inst[30:20]. */
  lemma ImmIFields(instr: bv32)
    ensures ImmI(instr) == SignFill(instr, 0xFFFF_F800) | ((instr >> 20) & 0x7FF)
  {
    RawIBits(instr);
    if Negative(instr) {
    } else {
    }
  }

  /** S: bits 10..5 are inst[30:25], bits 4..0 are inst[11:7]. */
  lemma ImmSFields(instr: bv32)
    ensures ImmS(instr) == SignFill(instr, 0xFFFF_F800) | ((instr >> 20) & 0x7E0) | ((instr >> 7) & 0x1F)
  {
    RawSBits(instr);
    if Negative(instr) {
    } else {
    }
  }

  /** B: bit 11 is inst[7], bits 10..5 are inst[30:25], bits 4..1 are inst[11:8], bit 0 is
      zero. */
  lemma ImmBFields(instr: bv32)
    ensures ImmB(instr) == SignFill(instr, 0xFFFF_F000) | ((instr & 0x80) << 4)
      | ((instr >> 20) & 0x7E0) | ((instr >> 7) & 0x1E)
  {
    RawBBits(instr);
    if Negative(instr) {
    } else {
    }
  }

  /** U: bits 31..12 are inst[31:12], the low twelve bits are zero. */
  lemma ImmUFields(instr: bv32)
    ensures ImmU(instr) == instr & 0xFFFF_F000
  {
  }

  /** J: bits 19..12 are inst[19:12], bit 11 is inst[20], bits 10..1 are inst[30:21], bit 0
      is zero. */
  lemma ImmJFields(instr: bv32)
    ensures ImmJ(instr) == SignFill(instr, 0xFFF0_0000) | (instr & 0xF_F000)
      | ((instr >> 9) & 0x800) | ((instr >> 20) & 0x7FE)
  {
    RawJBits(instr);
    if Negative(instr) {
    } else {
    }
  }

  /** Branch and jump offsets are always even. */
  lemma BranchOffsetsEven(instr: bv32)
    ensures ImmB(instr) & 1 == 0 && ImmJ(instr) & 1 == 0
  {
  }

  /** `immediate[0:11]`. */
  function Low12(x: bv32): bv12 { (x & 0xFFF) as bv12 }

  /** The control signals of one instruction, as the control word lays them out. */
  datatype Control = Control(
    aluOp: bv5,
    memRead: bool,
    memWrite: bool,
    regWrite: bool,
    memToReg: bool,
    aluSrc: bv2,
    branchOp: bv3,
    jump: bool,
    jumpr: bool,
    storeType: bv2,
    rd: bv5,
    imm12: bv12)

  /** Everything the decode stage produces for one instruction. */
  datatype Decoded = Decoded(
    control: Control,
    immediate: bv32,
    rs1: bv5,
    rs2: bv5,
    needRs1: bool,
    needRs2: bool)

  /** `alu_op_tmp`: eleven `select`s in source order; each later one overrides the earlier
      ones where its condition holds. */
  function AluOpChain(isR: bool, f3: bv3, f7b5: bool): bv5
  {
    var t1 := if isR && f7b5 && f3 == 0 then AluSub else AluAdd;
    var t2 := if f7b5 && f3 == 5 then AluSra else t1;
    var t3 := if !(isR && f7b5) && f3 == 0 then AluAdd else t2;
    var t4 := if f3 == 7 then AluAnd else t3;
    var t5 := if f3 == 6 then AluOr else t4;
    var t6 := if f3 == 4 then AluXor else t5;
    var t7 := if f3 == 2 then AluSlt else t6;
    var t8 := if f3 == 3 then AluSltu else t7;
    var t9 := if f3 == 1 then AluSll else t8;
    if !f7b5 && f3 == 5 then AluSrl else t9
  }

  /** `branch_op_tmp`: the comparison selected by funct3; 010 and 011 select none. */
  function BranchOpChain(f3: bv3): bv3
  {
    var b1 := if f3 == 0 then BranchEq else BranchNone;
    var b2 := if f3 == 1 then BranchNe else b1;
    var b3 := if f3 == 4 then BranchLt else b2;
    var b4 := if f3 == 5 then BranchGe else b3;
    var b5 := if f3 == 6 then BranchLtu else b4;
    if f3 == 7 then BranchGeu else b5
  }

  /** `DecodeStage.build` up to the control word: every signal starts at zero and is overridden
      by the `select`s of the instruction classes in source order. */
  function Decode(instr: bv32): Decoded
  {
    var op := Opcode(instr);
    var isR := op == 0x33;
    var isI := op == 0x13;
    var isL := op == 0x03;
    var isS := op == 0x23;
    var isB := op == 0x63;
    var isJ := op == 0x6F;
    var isJr := op == 0x67;
    var isLui := op == 0x37;
    var isAuipc := op == 0x17;
    var f3 := Funct3(instr);
    var rd := Rd(instr);

    var aluOp := if isR || isI then AluOpChain(isR, f3, Funct7Bit5(instr)) else AluAdd;

    var w1 := isR || isI;
    var w2 := isL || w1;
    var w3 := (isLui || isAuipc) || w2;
    var w4 := isJ || w3;
    var w5 := isJr || w4;
    var regWrite := if rd == 0 then false else w5;

    var s1 := if isR then SrcRegister else SrcRegister;
    var s2 := if isI then SrcImmediate else s1;
    var s3 := if isL then SrcImmediate else s2;
    var s4 := if isS then SrcImmediate else s3;
    var s5 := if isLui then SrcImmediate else s4;
    var s6 := if isAuipc then SrcPc else s5;
    var s7 := if isJ then SrcImmediate else s6;
    var aluSrc := if isJr then SrcImmediate else s7;

    var m1: bv32 := if isI then ImmI(instr) else 0;
    var m2 := if isL then ImmI(instr) else m1;
    var m3 := if isS then ImmS(instr) else m2;
    var m4 := if isB then ImmB(instr) else m3;
    var m5 := if isLui || isAuipc then ImmU(instr) else m4;
    var m6 := if isJ then ImmJ(instr) else m5;
    var immediate := if isJr then ImmI(instr) else m6;

    var st1: bv2 := if isS && f3 == 2 then 2 else 0;
    var st2 := if isS && f3 == 0 then 0 else st1;
    var storeType := if isS && f3 == 1 then 1 else st2;

    var branchOp := if isB then BranchOpChain(f3) else BranchNone;

    var control := Control(aluOp, isL, isS, regWrite, isL, aluSrc, branchOp, isJ, isJr,
                           storeType, rd, Low12(immediate));
    Decoded(control, immediate, Rs1(instr), Rs2(instr),
            isI || isR || isS || isB || isL || isJr, isR || isS || isB)
  }

  // A reference decoder written per instruction class, as the RISC-V Unprivileged ISA
  // describes each one, rather than per signal.

  /** The ALU operation of an OP or OP-IMM instruction, by funct3; only the register form
      distinguishes SUB from ADD, while both forms use bit 30 to choose SRA over SRL. */
  function AluOpFor(f: Format, f3: bv3, bit30: bool): bv5
  {
    if f3 == 0 then (if f == RegReg && bit30 then AluSub else AluAdd)
    else if f3 == 1 then AluSll
    else if f3 == 2 then AluSlt
    else if f3 == 3 then AluSltu
    else if f3 == 4 then AluXor
    else if f3 == 5 then (if bit30 then AluSra else AluSrl)
    else if f3 == 6 then AluOr
    else AluAnd
  }

  /** BEQ, BNE, BLT, BGE, BLTU, BGEU; funct3 010 and 011 are not branches. */
  function BranchOpFor(f3: bv3): bv3
  {
    if f3 == 0 then BranchEq
    else if f3 == 1 then BranchNe
    else if f3 == 4 then BranchLt
    else if f3 == 5 then BranchGe
    else if f3 == 6 then BranchLtu
    else if f3 == 7 then BranchGeu
    else BranchNone
  }

  /** The classes whose instructions write `rd`. */
  predicate WritesRd(f: Format)
  {
    f in {RegReg, RegImm, Load, Lui, Auipc, Jal, Jalr}
  }

  function ImmediateFor(f: Format, instr: bv32): bv32
  {
    match f
    case RegImm | Load | Jalr => ImmI(instr)
    case Store => ImmS(instr)
    case Branch => ImmB(instr)
    case Lui | Auipc => ImmU(instr)
    case Jal => ImmJ(instr)
    case _ => 0
  }

  function AluSrcFor(f: Format): bv2
  {
    match f
    case RegImm | Load | Store | Lui | Jal | Jalr => SrcImmediate
    case Auipc => SrcPc
    case _ => SrcRegister
  }

  /** Store width code: SB 00, SH 01, SW 10; anything else 00. */
  function StoreTypeFor(f: Format, f3: bv3): bv2
  {
    if f == Store && f3 == 1 then 1 else if f == Store && f3 == 2 then 2 else 0
  }

  function ReferenceControl(instr: bv32): Control
  {
    var f := FormatOf(instr);
    var imm := ImmediateFor(f, instr);
    Control(
      if f == RegReg || f == RegImm then AluOpFor(f, Funct3(instr), Funct7Bit5(instr)) else AluAdd,
      f == Load,
      f == Store,
      WritesRd(f) && Rd(instr) != 0,
      f == Load,
      AluSrcFor(f),
      if f == Branch then BranchOpFor(Funct3(instr)) else BranchNone,
      f == Jal,
      f == Jalr,
      StoreTypeFor(f, Funct3(instr)),
      Rd(instr),
      Low12(imm))
  }

  function ReferenceDecode(instr: bv32): Decoded
  {
    var f := FormatOf(instr);
    Decoded(ReferenceControl(instr), ImmediateFor(f, instr), Rs1(instr), Rs2(instr),
            f in {RegImm, RegReg, Store, Branch, Load, Jalr}, f in {RegReg, Store, Branch})
  }

  /** The override chains compute the per-class table: no later `select` undoes an earlier one
      that matters. */
  lemma AluOpChainIsTable(f: Format, f3: bv3, bit30: bool)
    requires f == RegReg || f == RegImm
    ensures AluOpChain(f == RegReg, f3, bit30) == AluOpFor(f, f3, bit30)
  {
  }

  lemma BranchOpChainIsTable(f3: bv3)
    ensures BranchOpChain(f3) == BranchOpFor(f3)
  {
  }

  lemma DecodeImmediate(instr: bv32)
    ensures Decode(instr).immediate == ImmediateFor(FormatOf(instr), instr)
  {
  }

  /** The decoder agrees with the per-class reference on every instruction word. */
  lemma DecodeIsReference(instr: bv32)
    ensures Decode(instr) == ReferenceDecode(instr)
  {
    DecodeImmediate(instr);
    match FormatOf(instr)
    case RegReg =>
      AluOpChainIsTable(RegReg, Funct3(instr), Funct7Bit5(instr));
    case RegImm =>
      AluOpChainIsTable(RegImm, Funct3(instr), Funct7Bit5(instr));
    case Branch =>
      BranchOpChainIsTable(Funct3(instr));
    case Load =>
    case Store =>
    case Jal =>
    case Jalr =>
    case Lui =>
    case Auipc =>
    case Unknown =>
  }

  /** funct3 000: an OP instruction is SUB exactly when bit 30 is set, while an OP-IMM
      instruction is always ADDI, whatever its immediate. */
  lemma SubOnlyInRegisterForm(instr: bv32)
    requires Funct3(instr) == 0
    ensures FormatOf(instr) == RegReg ==> (Decode(instr).control.aluOp == AluSub <==> Funct7Bit5(instr))
    ensures FormatOf(instr) == RegImm ==> Decode(instr).control.aluOp == AluAdd
  {
    DecodeIsReference(instr);
  }

  /** funct3 101 picks SRA when bit 30 is set and SRL otherwise, in both forms. */
  lemma ShiftRightKind(instr: bv32)
    requires Funct3(instr) == 5 && FormatOf(instr) in {RegReg, RegImm}
    ensures Decode(instr).control.aluOp == (if Funct7Bit5(instr) then AluSra else AluSrl)
  {
    DecodeIsReference(instr);
  }

  /** `reg_write` is set exactly for the classes that write `rd`, and never for x0. */
  lemma RegWriteRule(instr: bv32)
    ensures Decode(instr).control.regWrite <==> WritesRd(FormatOf(instr)) && Rd(instr) != 0
    ensures Rd(instr) == 0 ==> !Decode(instr).control.regWrite
  {
    DecodeIsReference(instr);
  }

  /** Only a conditional branch with one of the six defined funct3 values gets a non-zero
      `branch_op`; BRANCH with funct3 010 or 011 is decoded as no branch at all. */
  lemma BranchOpRule(instr: bv32)
    ensures Decode(instr).control.branchOp != BranchNone <==>
      FormatOf(instr) == Branch && Funct3(instr) != 2 && Funct3(instr) != 3
  {
    DecodeIsReference(instr);
  }

  /** Memory access and register-operand needs by class. */
  lemma AccessRule(instr: bv32)
    ensures Decode(instr).control.memRead <==> FormatOf(instr) == Load
    ensures Decode(instr).control.memWrite <==> FormatOf(instr) == Store
    ensures Decode(instr).needRs2 <==> FormatOf(instr) in {RegReg, Store, Branch}
    ensures Decode(instr).needRs1 <==> FormatOf(instr) in {RegImm, RegReg, Store, Branch, Load, Jalr}
  {
    DecodeIsReference(instr);
  }

  /** An unrecognised opcode decodes to a bubble: no ALU operation, no memory access, no
      register write, no branch or jump. */
  lemma UnknownIsBubble(instr: bv32)
    requires FormatOf(instr) == Unknown
    ensures var c := Decode(instr).control;
      c.aluOp == 0 && !c.memRead && !c.memWrite && !c.regWrite && c.branchOp == 0
      && !c.jump && !c.jumpr && Decode(instr).immediate == 0
  {
    DecodeIsReference(instr);
  }

  /** The instruction the hazard unit inserts on a flush, 0x00000013 (ADDI x0, x0, 0), has no
      architectural effect. */
  lemma NopHasNoEffect()
    ensures var c := Decode(0x13).control;
      !c.regWrite && !c.memRead && !c.memWrite && c.branchOp == 0 && !c.jump && !c.jumpr
  {
    DecodeIsReference(0x13);
  }

  // ---------------------------------------------------------------------------------------
  // The 42-bit control word.

  /** `control_signals = concat(...)`: imm[11:0] in bits 41..30, rd in 29..25, bit 24 zero,
      store type in 23..22, jumpr in 21, jump in 20, branch_op in 19..17, bits 16..11 zero,
      alu_src in 10..9, mem_to_reg 8, reg_write 7, mem_write 6, mem_read 5, alu_op in 4..0. */
  function ControlWord(c: Control): bv42
  {
    ((c.imm12 as bv42) << 30) | ((c.rd as bv42) << 25) | ((c.storeType as bv42) << 22)
    | ((BitOf(c.jumpr) as bv42) << 21) | ((BitOf(c.jump) as bv42) << 20)
    | ((c.branchOp as bv42) << 17) | ((c.aluSrc as bv42) << 9)
    | ((BitOf(c.memToReg) as bv42) << 8) | ((BitOf(c.regWrite) as bv42) << 7)
    | ((BitOf(c.memWrite) as bv42) << 6) | ((BitOf(c.memRead) as bv42) << 5) | (c.aluOp as bv42)
  }

  // The slices later stages read: `control_in[0:4]` and the rest in `ExecuteStage.build`,
  // `control_in[22:23]` in `MemoryStage.build`, `[7:7]`, `[8:8]`, `[25:29]` in write-back,
  // forwarding and the hazard unit. Bits 41..30 are carried but read by no stage.

  function AluOpOf(w: bv42): bv5 { (w & 0x1F) as bv5 }
  predicate MemReadOf(w: bv42) { (w >> 5) & 1 == 1 }
  predicate MemWriteOf(w: bv42) { (w >> 6) & 1 == 1 }
  predicate RegWriteOf(w: bv42) { (w >> 7) & 1 == 1 }
  predicate MemToRegOf(w: bv42) { (w >> 8) & 1 == 1 }
  function AluSrcOf(w: bv42): bv2 { ((w >> 9) & 0x3) as bv2 }
  function BranchOpOf(w: bv42): bv3 { ((w >> 17) & 0x7) as bv3 }
  predicate JumpOf(w: bv42) { (w >> 20) & 1 == 1 }
  predicate JumprOf(w: bv42) { (w >> 21) & 1 == 1 }
  function StoreTypeOf(w: bv42): bv2 { ((w >> 22) & 0x3) as bv2 }
  function RdOf(w: bv42): bv5 { ((w >> 25) & 0x1F) as bv5 }
  function Imm12Of(w: bv42): bv12 { (w >> 30) as bv12 }

  function ControlOf(w: bv42): Control
  {
    Control(AluOpOf(w), MemReadOf(w), MemWriteOf(w), RegWriteOf(w), MemToRegOf(w), AluSrcOf(w),
            BranchOpOf(w), JumpOf(w), JumprOf(w), StoreTypeOf(w), RdOf(w), Imm12Of(w))
  }

  /** Reading the slices back gives every signal that was packed. */
  lemma ControlRoundTrip(c: Control)
    ensures ControlOf(ControlWord(c)) == c
    ensures ControlWord(c) & 0x101_F800 == 0
  {
  }

  /** Conversely, a word with its reserved bits clear is the packing of what is read from it. */
  lemma ControlWordOfFields(w: bv42)
    requires w & 0x101_F800 == 0
    ensures ControlWord(ControlOf(w)) == w
  {
  }

  /** The all-zero word the hazard unit writes on a flush reads back as a bubble. */
  lemma ZeroWordIsBubble()
    ensures ControlOf(0) == Control(0, false, false, false, false, 0, 0, false, false, 0, 0, 0)
  {
  }
}
