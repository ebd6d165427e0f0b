/** RV32C against its table. `Table` transcribes the instruction listings of section 16.8 of
    the RISC-V Unprivileged ISA bit by bit, without going through a 32-bit encoding; the
    theorem says that expanding and decoding a halfword agrees with it on all 65536 of them. */
module Rvc {
  import opened Rv32
  import opened Decode

  // ---- fields survive encoding ----

  /** The values a signed 12-bit immediate can take. */
  predicate Fits12(imm: Word) { imm < 0x800 || imm >= 0xFFFF_F800 }

  predicate EncodableI(imm: Word, rs1: Word, f3: Word, rd: Word, op: Word) {
    Fits12(imm) && rs1 < 32 && f3 < 8 && rd < 32 && op < 128 && op & 3 == 3
  }

  // One field per lemma: each is a small bit-vector problem, their conjunction is not.
  lemma EncIOpcode(imm: Word, rs1: Word, f3: Word, rd: Word, op: Word)
    requires EncodableI(imm, rs1, f3, rd, op)
    ensures var x := EncI(imm, rs1, f3, rd, op); Opcode(x) == op && x != 0 && x & 3 == 3
  {}
  lemma EncIRd(imm: Word, rs1: Word, f3: Word, rd: Word, op: Word)
    requires EncodableI(imm, rs1, f3, rd, op)
    ensures Rd(EncI(imm, rs1, f3, rd, op)) == rd
  {}
  lemma EncIFunct3(imm: Word, rs1: Word, f3: Word, rd: Word, op: Word)
    requires EncodableI(imm, rs1, f3, rd, op)
    ensures Funct3(EncI(imm, rs1, f3, rd, op)) == f3
  {}
  lemma EncIRs1(imm: Word, rs1: Word, f3: Word, rd: Word, op: Word)
    requires EncodableI(imm, rs1, f3, rd, op)
    ensures Rs1(EncI(imm, rs1, f3, rd, op)) == rs1
  {}
  lemma EncIImm(imm: Word, rs1: Word, f3: Word, rd: Word, op: Word)
    requires EncodableI(imm, rs1, f3, rd, op)
    ensures ImmI(EncI(imm, rs1, f3, rd, op)) == imm
  {}
  lemma EncIShamt(imm: Word, rs1: Word, f3: Word, rd: Word, op: Word)
    requires EncodableI(imm, rs1, f3, rd, op)
    ensures Rs2(EncI(imm, rs1, f3, rd, op)) == imm & 0x1F
  {}
  lemma EncIFunct7(imm: Word, rs1: Word, f3: Word, rd: Word, op: Word)
    requires EncodableI(imm, rs1, f3, rd, op)
    ensures Funct7(EncI(imm, rs1, f3, rd, op)) == (imm >> 5) & 0x7F
  {}

  /** The fields of an I-type encoding come back unchanged, the immediate sign-extended. */
  lemma FieldsOfEncI(imm: Word, rs1: Word, f3: Word, rd: Word, op: Word)
    requires EncodableI(imm, rs1, f3, rd, op)
    ensures var x := EncI(imm, rs1, f3, rd, op);
      && x != 0 && x & 3 == 3 && Opcode(x) == op && Rd(x) == rd && Funct3(x) == f3 && Rs1(x) == rs1
      && ImmI(x) == imm && Rs2(x) == imm & 0x1F && Funct7(x) == (imm >> 5) & 0x7F
  {
    EncIOpcode(imm, rs1, f3, rd, op);
    EncIRd(imm, rs1, f3, rd, op);
    EncIFunct3(imm, rs1, f3, rd, op);
    EncIRs1(imm, rs1, f3, rd, op);
    EncIImm(imm, rs1, f3, rd, op);
    EncIShamt(imm, rs1, f3, rd, op);
    EncIFunct7(imm, rs1, f3, rd, op);
    hide EncI, ImmI, Opcode, Rd, Rs1, Rs2, Funct3, Funct7, EncodableI;
  }

  lemma DecodesImm(imm: Word, rs1: Word, f3: Word, rd: Word)
    requires Fits12(imm) && rs1 < 32 && f3 < 8 && rd < 32
    ensures var x := EncI(imm, rs1, f3, rd, OP_IMM);
      && x != 0 && x & 3 == 3
      && Decode32(x) == Decoded(ImmOp(f3, (imm >> 5) & 0x7F), rd, rs1, 0,
                          if f3 == 1 || f3 == 5 then imm & 0x1F else imm, 0, x, false)
  {
    FieldsOfEncI(imm, rs1, f3, rd, OP_IMM);
    hide EncI, ImmI, Opcode, Rd, Rs1, Rs2, Funct3, Funct7, ImmOp, Fits12;
  }

  lemma DecodesLoadWord(off: Word, rs1: Word, rd: Word)
    requires Fits12(off) && rs1 < 32 && rd < 32
    ensures var x := EncI(off, rs1, 2, rd, OP_LOAD);
      x != 0 && x & 3 == 3 && Decode32(x) == Decoded(LW, rd, rs1, 0, off, 0, x, false)
  {
    FieldsOfEncI(off, rs1, 2, rd, OP_LOAD);
    hide EncI, ImmI, Opcode, Rd, Rs1, Rs2, Funct3, Funct7, Fits12;
  }

  lemma DecodesJalr(rs1: Word, rd: Word)
    requires rs1 < 32 && rd < 32
    ensures var x := EncI(0, rs1, 0, rd, OP_JALR);
      x != 0 && x & 3 == 3 && Decode32(x) == Decoded(JALR, rd, rs1, 0, 0, 0, x, false)
  {
    FieldsOfEncI(0, rs1, 0, rd, OP_JALR);
    hide EncI, ImmI, Opcode, Rd, Rs1, Rs2, Funct3, Funct7, Fits12;
  }

  lemma DecodesStoreWord(off: Word, rs2: Word, rs1: Word)
    requires off < 0x800 && rs1 < 32 && rs2 < 32
    ensures var x := EncS(off, rs2, rs1);
      x != 0 && x & 3 == 3 && Decode32(x) == Decoded(SW, 0, rs1, rs2, off, 0, x, false)
  {
    var x := EncS(off, rs2, rs1);
    assert Opcode(x) == OP_STORE;
    assert Rs2(x) == rs2 && Funct3(x) == 2 && Rs1(x) == rs1;
    assert ImmS(x) == off;
    assert x != 0 && x & 3 == 3;
    hide EncS, ImmS, Opcode, Rs1, Rs2, Funct3;
  }

  lemma DecodesReg(f7: Word, rs2: Word, rs1: Word, f3: Word, rd: Word)
    requires f7 < 128 && rs2 < 32 && rs1 < 32 && f3 < 8 && rd < 32
    ensures var x := EncR(f7, rs2, rs1, f3, rd);
      x != 0 && x & 3 == 3 && Decode32(x) == Decoded(RegOp(f3, f7), rd, rs1, rs2, 0, 0, x, false)
  {
    var x := EncR(f7, rs2, rs1, f3, rd);
    assert Opcode(x) == OP_REG;
    assert Rd(x) == rd && Funct3(x) == f3 && Rs1(x) == rs1 && Rs2(x) == rs2 && Funct7(x) == f7;
    assert x != 0 && x & 3 == 3;
    hide EncR, Opcode, Rd, Rs1, Rs2, Funct3, Funct7, RegOp;
  }

  /** The values a signed, even 21-bit offset can take. */
  predicate FitsJump(off: Word) { off & 1 == 0 && (off < 0x10_0000 || off >= 0xFFF0_0000) }

  lemma EncJFixed(off: Word, rd: Word)
    requires FitsJump(off) && rd < 32
    ensures var x := EncJ(off, rd); x != 0 && x & 3 == 3 && Opcode(x) == OP_JAL && Rd(x) == rd
  {}

  lemma EncJOffset(off: Word, rd: Word)
    requires FitsJump(off) && rd < 32
    ensures ImmJ(EncJ(off, rd)) == off
  {}

  /** A J-type offset survives: even, and sign-extended from bit 20. */
  lemma DecodesJal(off: Word, rd: Word)
    requires FitsJump(off) && rd < 32
    ensures var x := EncJ(off, rd);
      x != 0 && x & 3 == 3 && Decode32(x) == Decoded(JAL, rd, 0, 0, off, 0, x, false)
  {
    EncJFixed(off, rd);
    EncJOffset(off, rd);
    hide EncJ, ImmJ, Opcode, Rd, FitsJump;
  }

  /** The values a signed, even 13-bit offset can take. */
  predicate FitsBranch(off: Word) { off & 1 == 0 && (off < 0x1000 || off >= 0xFFFF_F000) }

  /** A B-type offset survives: even, and sign-extended from bit 12. */
  lemma DecodesBranch(off: Word, rs1: Word, f3: Word)
    requires FitsBranch(off) && rs1 < 32 && f3 < 8
    ensures var x := EncB(off, rs1, f3);
      x != 0 && x & 3 == 3 && Decode32(x) == Decoded(BranchOp(f3), 0, rs1, 0, off, 0, x, false)
  {
    var x := EncB(off, rs1, f3);
    assert Opcode(x) == OP_BRANCH;
    assert Rs1(x) == rs1 && Rs2(x) == 0 && Funct3(x) == f3 && ImmB(x) == off;
    assert x != 0 && x & 3 == 3;
    hide EncB, ImmB, Opcode, Rs1, Rs2, Funct3, BranchOp;
  }

  lemma DecodesLui(imm: Word, rd: Word)
    requires rd < 32
    ensures var x := EncU(imm, rd);
      x != 0 && x & 3 == 3 && Decode32(x) == Decoded(LUI, rd, 0, 0, imm << 12, 0, x, false)
  {
    var x := EncU(imm, rd);
    assert Opcode(x) == OP_LUI;
    assert Rd(x) == rd && ImmU(x) == imm << 12;
    assert x != 0 && x & 3 == 3;
    hide ImmU, Opcode, Rd, EncU;
  }

  // ---- the table ----

  /** What a halfword means: nothing (reserved on RV32C), or one base operation. */
  datatype Meaning = Reserved | Means(op: InstrType, rd: Word, rs1: Word, rs2: Word, imm: Word)

  /** Bits lo+width-1 .. lo of the halfword, where mask = 2^width - 1, moved to bit `to`. */
  function Take(ci: Word, lo: bv5, mask: Word, to: bv5): Word { ((ci >> lo) & mask) << to }

  /** Replicates bit `b` of the halfword over every immediate bit selected by `ext`. */
  function Sign(ci: Word, ext: Word): Word { if ci & 0x1000 != 0 then ext else 0 }

  /** imm[5|4:0] at bits 12|6:2. */
  function TableImm6(ci: Word): Word { Sign(ci, 0xFFFF_FFE0) | Take(ci, 2, 0x1F, 0) }
  /** offset[11|4|9:8|10|6|7|3:1|5] at bits 12:2. */
  function TableJump(ci: Word): Word {
    Sign(ci, 0xFFFF_F800) | Take(ci, 11, 1, 4) | Take(ci, 9, 3, 8) | Take(ci, 8, 1, 10) | Take(ci, 7, 1, 6)
    | Take(ci, 6, 1, 7) | Take(ci, 3, 7, 1) | Take(ci, 2, 1, 5)
  }
  /** offset[8|4:3] at bits 12:10 and offset[7:6|2:1|5] at bits 6:2. */
  function TableBranch(ci: Word): Word {
    Sign(ci, 0xFFFF_FF00) | Take(ci, 10, 3, 3) | Take(ci, 5, 3, 6) | Take(ci, 3, 3, 1) | Take(ci, 2, 1, 5)
  }
  /** nzimm[9] at bit 12 and nzimm[4|6|8:7|5] at bits 6:2. */
  function TableAddi16sp(ci: Word): Word {
    Sign(ci, 0xFFFF_FE00) | Take(ci, 6, 1, 4) | Take(ci, 5, 1, 6) | Take(ci, 3, 3, 7) | Take(ci, 2, 1, 5)
  }
  /** nzuimm[5:4|9:6|2|3] at bits 12:5. */
  function TableAddi4spn(ci: Word): Word {
    Take(ci, 11, 3, 4) | Take(ci, 7, 0xF, 6) | Take(ci, 6, 1, 2) | Take(ci, 5, 1, 3)
  }
  /** uimm[5:3] at bits 12:10 and uimm[2|6] at bits 6:5. */
  function TableLw(ci: Word): Word { Take(ci, 10, 7, 3) | Take(ci, 6, 1, 2) | Take(ci, 5, 1, 6) }
  /** uimm[5] at bit 12 and uimm[4:2|7:6] at bits 6:2. */
  function TableLwsp(ci: Word): Word { Take(ci, 12, 1, 5) | Take(ci, 4, 7, 2) | Take(ci, 2, 3, 6) }
  /** uimm[5:2|7:6] at bits 12:7. */
  function TableSwsp(ci: Word): Word { Take(ci, 9, 0xF, 2) | Take(ci, 7, 3, 6) }

  /** The three-bit register fields name x8 to x15. */
  function RegHi(ci: Word): Word { 8 + ((ci >> 7) & 7) }
  function RegLo(ci: Word): Word { 8 + ((ci >> 2) & 7) }

  function Quadrant0(ci: Word): Meaning {
    var f3 := (ci >> 13) & 7;
    if f3 == 0 then
      if TableAddi4spn(ci) == 0 then Reserved else Means(ADDI, RegLo(ci), 2, 0, TableAddi4spn(ci))
    else if f3 == 2 then Means(LW, RegLo(ci), RegHi(ci), 0, TableLw(ci))
    else if f3 == 6 then Means(SW, 0, RegHi(ci), RegLo(ci), TableLw(ci))
    else Reserved
  }

  function ArithmeticRow(ci: Word): Meaning {
    var r, hi, sub := RegHi(ci), (ci >> 12) & 1 != 0, (ci >> 10) & 3;
    if sub == 0 then (if hi then Reserved else Means(SRLI, r, r, 0, (ci >> 2) & 0x1F))
    else if sub == 1 then (if hi then Reserved else Means(SRAI, r, r, 0, (ci >> 2) & 0x1F))
    else if sub == 2 then Means(ANDI, r, r, 0, TableImm6(ci))
    else if hi then Reserved
    else
      var f := (ci >> 5) & 3;
      Means(if f == 0 then SUB else if f == 1 then XOR else if f == 2 then OR else AND, r, r, RegLo(ci), 0)
  }

  function Quadrant1(ci: Word): Meaning {
    var f3, r := (ci >> 13) & 7, (ci >> 7) & 0x1F;
    if f3 == 0 then Means(ADDI, r, r, 0, TableImm6(ci))
    else if f3 == 1 then Means(JAL, 1, 0, 0, TableJump(ci))
    else if f3 == 2 then Means(ADDI, r, 0, 0, TableImm6(ci))
    else if f3 == 3 then
      if r == 2 then (if TableAddi16sp(ci) == 0 then Reserved else Means(ADDI, 2, 2, 0, TableAddi16sp(ci)))
      else if TableImm6(ci) == 0 then Reserved
      else Means(LUI, r, 0, 0, TableImm6(ci) << 12)
    else if f3 == 4 then ArithmeticRow(ci)
    else if f3 == 5 then Means(JAL, 0, 0, 0, TableJump(ci))
    else Means(if f3 == 6 then BEQ else BNE, 0, RegHi(ci), 0, TableBranch(ci))
  }

  function Quadrant2(ci: Word): Meaning {
    var f3, r, s, hi := (ci >> 13) & 7, (ci >> 7) & 0x1F, (ci >> 2) & 0x1F, (ci >> 12) & 1 != 0;
    if f3 == 0 then (if hi then Reserved else Means(SLLI, r, r, 0, s))
    else if f3 == 2 then (if r == 0 then Reserved else Means(LW, r, 2, 0, TableLwsp(ci)))
    else if f3 == 4 then
      if s != 0 then Means(ADD, r, if hi then r else 0, s, 0)
      else if r != 0 then Means(JALR, if hi then 1 else 0, r, 0, 0)
      else if hi then Means(EBREAK, 0, 0, 0, 0)
      else Reserved
    else if f3 == 6 then Means(SW, 0, 2, s, TableSwsp(ci))
    else Reserved
  }

  function Table(ci: Word): Meaning {
    if ci & 3 == 0 then Quadrant0(ci) else if ci & 3 == 1 then Quadrant1(ci) else Quadrant2(ci)
  }

  /** `x`, a candidate expansion, decodes to the meaning `m`, or is absent or illegal when reserved. */
  predicate Realises(x: Word, m: Meaning) {
    match m
    case Reserved => x == 0 || Decode32(x).op == ILLEGAL
    case Means(op, rd, rs1, rs2, imm) =>
      x != 0 && x & 3 == 3 && Decode32(x) == Decoded(op, rd, rs1, rs2, imm, 0, x, false)
  }

  // ---- immediates: the expander's shifts and masks against the table's bit lists ----

  lemma CImm6Agrees(ci: Word)
    requires ci < 0x1_0000
    ensures CImm6s(ci) == TableImm6(ci)
  {}
  lemma CImm6Range(ci: Word)
    ensures Fits12(TableImm6(ci))
  {}
  lemma JumpAgreesForward(ci: Word)
    requires ci < 0x1_0000 && ci & 0x1000 == 0
    ensures CJumpOffset(ci) == TableJump(ci)
  {}
  lemma JumpAgreesBackward(ci: Word)
    requires ci < 0x1_0000 && ci & 0x1000 != 0
    ensures CJumpOffset(ci) == TableJump(ci)
  {}
  lemma JumpRange(ci: Word)
    ensures FitsJump(TableJump(ci))
  {}
  lemma BranchAgrees(ci: Word)
    requires ci < 0x1_0000
    ensures CBranchOffset(ci) == TableBranch(ci)
  {}
  lemma BranchRange(ci: Word)
    ensures FitsBranch(TableBranch(ci))
  {}
  lemma Addi16spAgrees(ci: Word)
    requires ci < 0x1_0000
    ensures CAddi16sp(ci) == TableAddi16sp(ci)
  {}
  lemma Addi16spRange(ci: Word)
    ensures Fits12(TableAddi16sp(ci))
  {}
  lemma Addi4spnAgrees(ci: Word)
    requires ci < 0x1_0000
    ensures CAddi4spn(ci) == TableAddi4spn(ci)
  {}
  lemma LwAgrees(ci: Word)
    requires ci < 0x1_0000
    ensures CLw(ci) == TableLw(ci)
  {}
  lemma LwspAgrees(ci: Word)
    requires ci < 0x1_0000
    ensures CLwsp(ci) == TableLwsp(ci)
  {}
  lemma SwspAgrees(ci: Word)
    requires ci < 0x1_0000
    ensures CSwsp(ci) == TableSwsp(ci)
  {}
  lemma UnsignedRanges(ci: Word)
    ensures Fits12(TableAddi4spn(ci)) && TableLw(ci) < 0x800 && Fits12(TableLw(ci))
    ensures TableSwsp(ci) < 0x800 && Fits12(TableLwsp(ci))
  {}
  lemma ShortRegs(ci: Word)
    ensures Creg((ci >> 2) & 0x7) == RegLo(ci) < 32 && Creg((ci >> 7) & 0x7) == RegHi(ci) < 32
  {}
  lemma LongRegs(ci: Word)
    ensures (ci >> 7) & 0x1F < 32 && (ci >> 2) & 0x1F < 32
  {}

  // ---- expansion agrees with the table, quadrant by quadrant ----

  lemma Quadrant0Agrees(ci: Word)
    requires ci < 0x1_0000
    ensures Realises(ExpandQ0(ci), Quadrant0(ci))
  {
    hide Decode32, EncI, EncS, TableLw, TableAddi4spn, CLw, CAddi4spn, RegLo, RegHi, Creg;
    Addi4spnAgrees(ci);
    LwAgrees(ci);
    UnsignedRanges(ci);
    ShortRegs(ci);
    if (ci >> 13) & 7 == 0 {
      DecodesImm(TableAddi4spn(ci), 2, 0, RegLo(ci));
    } else if (ci >> 13) & 7 == 2 {
      DecodesLoadWord(TableLw(ci), RegHi(ci), RegLo(ci));
    } else if (ci >> 13) & 7 == 6 {
      DecodesStoreWord(TableLw(ci), RegLo(ci), RegHi(ci));
    }
  }

  lemma ShiftEncodings(imm: Word, r: Word)
    requires imm < 64 && r < 32
    ensures (F7_NORMAL << 25) | EncI(imm, r, 5, r, OP_IMM) == EncI(imm, r, 5, r, OP_IMM)
    ensures (F7_NORMAL << 25) | EncI(imm, r, 1, r, OP_IMM) == EncI(imm, r, 1, r, OP_IMM)
    ensures (F7_ALT << 25) | EncI(imm, r, 5, r, OP_IMM) == EncI(0x400 | imm, r, 5, r, OP_IMM)
    ensures Fits12(imm) && Fits12(0x400 | imm)
  {}
  /** A shift amount of 32 or more lands in funct7 and is refused by the decoder. */
  lemma ShiftFields(imm: Word)
    requires imm < 64
    ensures (imm >> 5) & 0x7F == (if imm < 32 then 0 else 1)
    ensures ((0x400 | imm) >> 5) & 0x7F == (if imm < 32 then 0x20 else 0x21)
    ensures (0x400 | imm) & 0x1F == imm & 0x1F
  {}
  lemma CImm6IsShort(ci: Word)
    ensures CImm6(ci) < 64 && CImm6(ci) & 0x1F == (ci >> 2) & 0x1F
    ensures CImm6(ci) < 32 <==> (ci >> 12) & 1 == 0
  {}

  lemma ShiftRightRow(ci: Word)
    requires ci < 0x1_0000 && (ci >> 10) & 3 == 0
    ensures Realises(ExpandAlu(ci), ArithmeticRow(ci))
  {
    hide Decode32, EncI, EncR, RegLo, RegHi, Creg, CImm6, CImm6s, TableImm6, Fits12;
    ShortRegs(ci);
    CImm6IsShort(ci);
    ShiftEncodings(CImm6(ci), RegHi(ci));
    ShiftFields(CImm6(ci));
    DecodesImm(CImm6(ci), RegHi(ci), 5, RegHi(ci));
  }

  lemma ShiftArithmeticRow(ci: Word)
    requires ci < 0x1_0000 && (ci >> 10) & 3 == 1
    ensures Realises(ExpandAlu(ci), ArithmeticRow(ci))
  {
    hide Decode32, EncI, EncR, RegLo, RegHi, Creg, CImm6, CImm6s, TableImm6, Fits12;
    ShortRegs(ci);
    CImm6IsShort(ci);
    ShiftEncodings(CImm6(ci), RegHi(ci));
    ShiftFields(CImm6(ci));
    DecodesImm(0x400 | CImm6(ci), RegHi(ci), 5, RegHi(ci));
  }

  lemma AndImmediateRow(ci: Word)
    requires ci < 0x1_0000 && (ci >> 10) & 3 == 2
    ensures Realises(ExpandAlu(ci), ArithmeticRow(ci))
  {
    hide Decode32, EncI, EncR, RegLo, RegHi, Creg, CImm6, CImm6s, TableImm6, Fits12;
    ShortRegs(ci);
    CImm6Agrees(ci);
    CImm6Range(ci);
    DecodesImm(TableImm6(ci), RegHi(ci), 7, RegHi(ci));
  }

  lemma RegisterRow(ci: Word)
    requires ci < 0x1_0000 && (ci >> 10) & 3 == 3
    ensures Realises(ExpandAlu(ci), ArithmeticRow(ci))
  {
    hide Decode32, EncI, EncR, RegLo, RegHi, Creg, CImm6, CImm6s, TableImm6, Fits12;
    ShortRegs(ci);
    var r, s := RegHi(ci), RegLo(ci);
    if (ci >> 5) & 3 == 0 {
      DecodesReg(F7_ALT, s, r, 0, r);
    } else if (ci >> 5) & 3 == 1 {
      DecodesReg(F7_NORMAL, s, r, 4, r);
    } else if (ci >> 5) & 3 == 2 {
      DecodesReg(F7_NORMAL, s, r, 6, r);
    } else {
      DecodesReg(F7_NORMAL, s, r, 7, r);
    }
  }

  lemma ArithmeticAgrees(ci: Word)
    requires ci < 0x1_0000
    ensures Realises(ExpandAlu(ci), ArithmeticRow(ci))
  {
    hide ExpandAlu, ArithmeticRow, Realises;
    if (ci >> 10) & 3 == 0 {
      ShiftRightRow(ci);
    } else if (ci >> 10) & 3 == 1 {
      ShiftArithmeticRow(ci);
    } else if (ci >> 10) & 3 == 2 {
      AndImmediateRow(ci);
    } else {
      RegisterRow(ci);
    }
  }

  lemma AddImmediateRows(ci: Word)
    requires ci < 0x1_0000 && ((ci >> 13) & 7 == 0 || (ci >> 13) & 7 == 2)
    ensures Realises(ExpandQ1(ci), Quadrant1(ci))
  {
    hide Decode32, EncI, EncJ, EncB, RegHi, Creg, CImm6, CImm6s, TableImm6, Fits12, ExpandAlu, ArithmeticRow;
    hide TableJump, CJumpOffset, TableBranch, CBranchOffset, CAddi16sp, TableAddi16sp, FitsBranch, FitsJump;
    LongRegs(ci);
    CImm6Agrees(ci);
    CImm6Range(ci);
    var r := (ci >> 7) & 0x1F;
    DecodesImm(TableImm6(ci), if (ci >> 13) & 7 == 0 then r else 0, 0, r);
  }

  lemma StackAdjustRow(ci: Word)
    requires ci < 0x1_0000 && (ci >> 13) & 7 == 3 && (ci >> 7) & 0x1F == 2
    ensures Realises(ExpandQ1(ci), Quadrant1(ci))
  {
    hide Decode32, EncI, EncJ, EncB, RegHi, Creg, CImm6, CImm6s, TableImm6, Fits12, ExpandAlu, ArithmeticRow;
    hide TableJump, CJumpOffset, TableBranch, CBranchOffset, CAddi16sp, TableAddi16sp, FitsBranch, FitsJump;
    Addi16spAgrees(ci);
    Addi16spRange(ci);
    DecodesImm(TableAddi16sp(ci), 2, 0, 2);
  }

  lemma UpperImmediateRow(ci: Word)
    requires ci < 0x1_0000 && (ci >> 13) & 7 == 3 && (ci >> 7) & 0x1F != 2
    ensures Realises(ExpandQ1(ci), Quadrant1(ci))
  {
    hide Decode32, EncI, EncJ, EncB, RegHi, Creg, CImm6, CImm6s, TableImm6, Fits12, ExpandAlu, ArithmeticRow;
    hide TableJump, CJumpOffset, TableBranch, CBranchOffset, CAddi16sp, TableAddi16sp, FitsBranch, FitsJump;
    LongRegs(ci);
    CImm6Agrees(ci);
    hide EncU;
    DecodesLui(TableImm6(ci), (ci >> 7) & 0x1F);
  }

  lemma JumpRows(ci: Word)
    requires ci < 0x1_0000 && ((ci >> 13) & 7 == 1 || (ci >> 13) & 7 == 5)
    ensures Realises(ExpandQ1(ci), Quadrant1(ci))
  {
    hide Decode32, EncI, EncJ, EncB, RegHi, Creg, CImm6, CImm6s, TableImm6, Fits12, ExpandAlu, ArithmeticRow;
    hide TableJump, CJumpOffset, TableBranch, CBranchOffset, CAddi16sp, TableAddi16sp, FitsBranch, FitsJump;
    if ci & 0x1000 == 0 { JumpAgreesForward(ci); } else { JumpAgreesBackward(ci); }
    JumpRange(ci);
    DecodesJal(TableJump(ci), if (ci >> 13) & 7 == 1 then 1 else 0);
  }

  lemma BranchRows(ci: Word)
    requires ci < 0x1_0000 && (ci >> 13) & 7 >= 6
    ensures Realises(ExpandQ1(ci), Quadrant1(ci))
  {
    hide Decode32, EncI, EncJ, EncB, RegHi, Creg, CImm6, CImm6s, TableImm6, Fits12, ExpandAlu, ArithmeticRow;
    hide TableJump, CJumpOffset, TableBranch, CBranchOffset, CAddi16sp, TableAddi16sp, FitsBranch, FitsJump;
    BranchAgrees(ci);
    BranchRange(ci);
    ShortRegs(ci);
    DecodesBranch(TableBranch(ci), RegHi(ci), if (ci >> 13) & 7 == 6 then 0 else 1);
  }

  lemma Quadrant1Agrees(ci: Word)
    requires ci < 0x1_0000
    ensures Realises(ExpandQ1(ci), Quadrant1(ci))
  {
    var f3 := (ci >> 13) & 7;
    if f3 == 4 {
      hide Realises, ExpandAlu, ArithmeticRow;
      ArithmeticAgrees(ci);
    } else {
      hide Realises, ExpandQ1, Quadrant1;
      if f3 == 0 || f3 == 2 {
        AddImmediateRows(ci);
      } else if f3 == 3 {
        if (ci >> 7) & 0x1F == 2 { StackAdjustRow(ci); } else { UpperImmediateRow(ci); }
      } else if f3 == 1 || f3 == 5 {
        JumpRows(ci);
      } else {
        BranchRows(ci);
      }
    }
  }

  lemma ShiftLeftRow(ci: Word)
    requires ci < 0x1_0000 && (ci >> 13) & 7 == 0
    ensures Realises(ExpandQ2(ci), Quadrant2(ci))
  {
    hide Decode32, EncI, EncR, EncS, CImm6, Fits12, CLwsp, TableLwsp, CSwsp, TableSwsp;
    LongRegs(ci);
    CImm6IsShort(ci);
    ShiftEncodings(CImm6(ci), (ci >> 7) & 0x1F);
    ShiftFields(CImm6(ci));
    DecodesImm(CImm6(ci), (ci >> 7) & 0x1F, 1, (ci >> 7) & 0x1F);
  }

  lemma StackRows(ci: Word)
    requires ci < 0x1_0000 && ((ci >> 13) & 7 == 2 || (ci >> 13) & 7 == 6)
    ensures Realises(ExpandQ2(ci), Quadrant2(ci))
  {
    hide Decode32, EncI, EncR, EncS, CImm6, Fits12, CLwsp, TableLwsp, CSwsp, TableSwsp;
    LongRegs(ci);
    UnsignedRanges(ci);
    if (ci >> 13) & 7 == 2 {
      LwspAgrees(ci);
      DecodesLoadWord(TableLwsp(ci), 2, (ci >> 7) & 0x1F);
    } else {
      SwspAgrees(ci);
      DecodesStoreWord(TableSwsp(ci), (ci >> 2) & 0x1F, 2);
    }
  }

  lemma DecodesEbreak()
    ensures var x: Word := (0x1 << 20) | OP_SYSTEM;
      x != 0 && x & 3 == 3 && Decode32(x) == Decoded(EBREAK, 0, 0, 0, 0, 0, x, false)
  {}

  lemma MoveRow(ci: Word)
    requires ci < 0x1_0000 && (ci >> 13) & 7 == 4
    ensures Realises(ExpandQ2(ci), Quadrant2(ci))
  {
    hide Decode32, EncI, EncR, EncS, CImm6, Fits12, CLwsp, TableLwsp, CSwsp, TableSwsp;
    LongRegs(ci);
    var r, s, hi := (ci >> 7) & 0x1F, (ci >> 2) & 0x1F, (ci >> 12) & 1 != 0;
    if s != 0 {
      DecodesReg(F7_NORMAL, s, if hi then r else 0, 0, r);
    } else if r != 0 {
      DecodesJalr(r, if hi then 1 else 0);
    } else {
      DecodesEbreak();
    }
  }

  lemma Quadrant2Agrees(ci: Word)
    requires ci < 0x1_0000
    ensures Realises(ExpandQ2(ci), Quadrant2(ci))
  {
    var f3 := (ci >> 13) & 7;
    if f3 == 0 || f3 == 2 || f3 == 4 || f3 == 6 {
      hide Realises, ExpandQ2, Quadrant2;
      if f3 == 0 {
        ShiftLeftRow(ci);
      } else if f3 == 4 {
        MoveRow(ci);
      } else {
        StackRows(ci);
      }
    }
  }

  // ---- the theorem ----

  /** Every halfword decodes to its table entry, and to ILLEGAL exactly when it is reserved; the
      raw halfword and the two-byte length are kept for the trap value and the next pc. */
  lemma HalfwordsDecodeByTable(i: Word)
    requires i & 3 != 3
    ensures var d, m := DecodeInstr(i), Table(i & 0xFFFF);
      && d.raw == i & 0xFFFF && d.compressed
      && (d.op == ILLEGAL <==> m == Reserved)
      && (m.Means? ==> d == Decoded(m.op, m.rd, m.rs1, m.rs2, m.imm, 0, i & 0xFFFF, true))
  {
    var ci := i & 0xFFFF;
    TableNeverIllegal(ci);
    assert Realises(Expand(ci), Table(ci)) by {
      hide ExpandQ0, ExpandQ1, ExpandQ2, Quadrant0, Quadrant1, Quadrant2, Realises;
      if ci & 3 == 0 {
        Quadrant0Agrees(ci);
      } else if ci & 3 == 1 {
        Quadrant1Agrees(ci);
      } else {
        Quadrant2Agrees(ci);
      }
    }
    hide Decode32, Expand, Table;
  }

  lemma TableNeverIllegal(ci: Word)
    ensures Table(ci).Means? ==> Table(ci).op != ILLEGAL
  {}
}
