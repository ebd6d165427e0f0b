/** The stateless decoder of src/cpu/decode.cpp: 32-bit decoding, expansion of 16-bit
    encodings, and the dispatcher between the two. */
module Decode {
  import opened Rv32

  function BranchOp(f3: Word): InstrType {
    if f3 == 0 then BEQ else if f3 == 1 then BNE else if f3 == 4 then BLT
    else if f3 == 5 then BGE else if f3 == 6 then BLTU else if f3 == 7 then BGEU else ILLEGAL
  }

  function LoadOp(f3: Word): InstrType {
    if f3 == 0 then LB else if f3 == 1 then LH else if f3 == 2 then LW
    else if f3 == 4 then LBU else if f3 == 5 then LHU else ILLEGAL
  }

  function StoreOp(f3: Word): InstrType {
    if f3 == 0 then SB else if f3 == 1 then SH else if f3 == 2 then SW else ILLEGAL
  }

  function ImmOp(f3: Word, f7: Word): InstrType {
    if f3 == 0 then ADDI else if f3 == 2 then SLTI else if f3 == 3 then SLTIU
    else if f3 == 4 then XORI else if f3 == 6 then ORI else if f3 == 7 then ANDI
    else if f3 == 1 then (if f7 == F7_NORMAL then SLLI else ILLEGAL)
    else if f7 == F7_NORMAL then SRLI
    else if f7 == F7_ALT then SRAI
    else ILLEGAL
  }

  function RegOp(f3: Word, f7: Word): InstrType {
    if f7 == F7_MULDIV then
      if f3 == 0 then MUL else if f3 == 1 then MULH else if f3 == 2 then MULHSU else if f3 == 3 then MULHU
      else if f3 == 4 then DIV else if f3 == 5 then DIVU else if f3 == 6 then REM else REMU
    else if f7 == F7_NORMAL then
      if f3 == 0 then ADD else if f3 == 1 then SLL else if f3 == 2 then SLT else if f3 == 3 then SLTU
      else if f3 == 4 then XOR else if f3 == 5 then SRL else if f3 == 6 then OR else AND
    else if f7 == F7_ALT then
      if f3 == 0 then SUB else if f3 == 5 then SRA else ILLEGAL
    else ILLEGAL
  }

  function AmoOp(f5: Word): InstrType {
    if f5 == 0x02 then LR_W else if f5 == 0x03 then SC_W else if f5 == 0x01 then AMOSWAP_W
    else if f5 == 0x00 then AMOADD_W else if f5 == 0x04 then AMOXOR_W else if f5 == 0x0C then AMOAND_W
    else if f5 == 0x08 then AMOOR_W else if f5 == 0x10 then AMOMIN_W else if f5 == 0x14 then AMOMAX_W
    else if f5 == 0x18 then AMOMINU_W else if f5 == 0x1C then AMOMAXU_W else ILLEGAL
  }

  function PrivOp(f12: Word): InstrType {
    if f12 == 0x000 then ECALL else if f12 == 0x001 then EBREAK else if f12 == 0x302 then MRET
    else if f12 == 0x102 then SRET else if f12 == 0x002 then URET else if f12 == 0x105 then WFI else ILLEGAL
  }

  function CsrOp(f3: Word): InstrType {
    if f3 == 1 then CSRRW else if f3 == 2 then CSRRS else if f3 == 3 then CSRRC
    else if f3 == 5 then CSRRWI else if f3 == 6 then CSRRSI else if f3 == 7 then CSRRCI else ILLEGAL
  }

  function Decode32(i: Word): Decoded {
    var op, f3, f7 := Opcode(i), Funct3(i), Funct7(i);
    if op == OP_LUI then Decoded(LUI, Rd(i), 0, 0, ImmU(i), 0, i, false)
    else if op == OP_AUIPC then Decoded(AUIPC, Rd(i), 0, 0, ImmU(i), 0, i, false)
    else if op == OP_JAL then Decoded(JAL, Rd(i), 0, 0, ImmJ(i), 0, i, false)
    else if op == OP_JALR then Decoded(JALR, Rd(i), Rs1(i), 0, ImmI(i), 0, i, false)
    else if op == OP_BRANCH then Decoded(BranchOp(f3), 0, Rs1(i), Rs2(i), ImmB(i), 0, i, false)
    else if op == OP_LOAD then Decoded(LoadOp(f3), Rd(i), Rs1(i), 0, ImmI(i), 0, i, false)
    else if op == OP_STORE then Decoded(StoreOp(f3), 0, Rs1(i), Rs2(i), ImmS(i), 0, i, false)
    else if op == OP_IMM then
      var imm := if f3 == 1 || f3 == 5 then Rs2(i) else ImmI(i);
      Decoded(ImmOp(f3, f7), Rd(i), Rs1(i), 0, imm, 0, i, false)
    else if op == OP_REG then Decoded(RegOp(f3, f7), Rd(i), Rs1(i), Rs2(i), 0, 0, i, false)
    else if op == OP_AMO then
      Decoded(if f3 != 2 then ILLEGAL else AmoOp(Funct5(i)), Rd(i), Rs1(i), Rs2(i), 0, 0, i, false)
    else if op == OP_FENCE then Decoded(if f3 == 1 then FENCEI else FENCE, 0, 0, 0, 0, 0, i, false)
    else if op == OP_SYSTEM then
      if f3 == 0 then
        if f7 == F7_SFENCE_VMA then Decoded(SFENCE_VMA, 0, Rs1(i), Rs2(i), 0, 0, i, false)
        else Decoded(PrivOp(Funct12(i)), 0, 0, 0, 0, 0, i, false)
      else Decoded(CsrOp(f3), Rd(i), Rs1(i), 0, Rs1(i), Funct12(i), i, false)
    else Decoded(ILLEGAL, 0, 0, 0, 0, 0, i, false)
  }

  // ---- RV32C expansion: each helper is one quadrant of expand_compressed ----

  function Creg(bits: Word): Word { bits + 8 }

  function EncI(imm: Word, rs1: Word, f3: Word, rd: Word, op: Word): Word {
    (imm << 20) | (rs1 << 15) | (f3 << 12) | (rd << 7) | op
  }

  function EncU(imm: Word, rd: Word): Word { (imm << 12) | (rd << 7) | OP_LUI }

  function EncR(f7: Word, rs2: Word, rs1: Word, f3: Word, rd: Word): Word {
    (f7 << 25) | (rs2 << 20) | (rs1 << 15) | (f3 << 12) | (rd << 7) | OP_REG
  }

  function EncS(off: Word, rs2: Word, rs1: Word): Word {
    (((off >> 5) & 0x7F) << 25) | (rs2 << 20) | (rs1 << 15) | (0x2 << 12) | ((off & 0x1F) << 7) | OP_STORE
  }

  function EncJ(off: Word, rd: Word): Word {
    (((off >> 20) & 0x1) << 31) | (((off >> 1) & 0x3FF) << 21) | (((off >> 11) & 0x1) << 20)
    | (((off >> 12) & 0xFF) << 12) | (rd << 7) | OP_JAL
  }

  function EncB(off: Word, rs1: Word, f3: Word): Word {
    var hi := (((off >> 12) & 0x1) << 6) | ((off >> 5) & 0x3F);
    var lo := (((off >> 1) & 0xF) << 1) | ((off >> 11) & 0x1);
    (hi << 25) | (rs1 << 15) | (f3 << 12) | (lo << 7) | OP_BRANCH
  }

  /** The six-bit immediate at bits 12 and 6:2, before and after sign extension. */
  function CImm6(ci: Word): Word { ((ci >> 7) & 0x20) | ((ci >> 2) & 0x1F) }
  function CImm6s(ci: Word): Word { SignFill(CImm6(ci), 0x20, 0xFFFF_FFC0) }

  function CJumpOffset(ci: Word): Word {
    SignFill(((ci >> 1) & 0x800) | ((ci >> 7) & 0x10) | ((ci >> 1) & 0x300) | ((ci << 2) & 0x400)
      | ((ci >> 1) & 0x40) | ((ci << 1) & 0x80) | ((ci >> 2) & 0xE) | ((ci << 3) & 0x20), 0x800, 0xFFFF_F000)
  }

  function CBranchOffset(ci: Word): Word {
    SignFill(((ci >> 4) & 0x100) | ((ci >> 7) & 0x18) | ((ci << 1) & 0xC0) | ((ci >> 2) & 0x6)
      | ((ci << 3) & 0x20), 0x100, 0xFFFF_FE00)
  }

  function CAddi16sp(ci: Word): Word {
    SignFill(((ci >> 3) & 0x200) | ((ci >> 2) & 0x10) | ((ci << 1) & 0x40) | ((ci << 4) & 0x180)
      | ((ci << 3) & 0x20), 0x200, 0xFFFF_FC00)
  }

  function CAddi4spn(ci: Word): Word {
    ((ci >> 1) & 0x3C0) | ((ci >> 7) & 0x30) | ((ci >> 2) & 0x8) | ((ci >> 4) & 0x4)
  }

  function CLw(ci: Word): Word { ((ci >> 7) & 0x38) | ((ci >> 4) & 0x4) | ((ci << 1) & 0x40) }
  function CLwsp(ci: Word): Word { ((ci >> 7) & 0x20) | ((ci >> 2) & 0x1C) | ((ci << 4) & 0xC0) }
  function CSwsp(ci: Word): Word { ((ci >> 7) & 0x3C) | ((ci >> 1) & 0xC0) }

  function ExpandQ0(ci: Word): Word {
    var f3 := (ci >> 13) & 0x7;
    if f3 == 0 then
      if CAddi4spn(ci) == 0 then 0 else EncI(CAddi4spn(ci), 2, 0, Creg((ci >> 2) & 0x7), OP_IMM)
    else if f3 == 2 then EncI(CLw(ci), Creg((ci >> 7) & 0x7), 2, Creg((ci >> 2) & 0x7), OP_LOAD)
    else if f3 == 6 then EncS(CLw(ci), Creg((ci >> 2) & 0x7), Creg((ci >> 7) & 0x7))
    else 0
  }

  function ExpandAlu(ci: Word): Word {
    var r := Creg((ci >> 7) & 0x7);
    var sub := (ci >> 10) & 0x3;
    if sub == 0 then (F7_NORMAL << 25) | EncI(CImm6(ci), r, 5, r, OP_IMM)
    else if sub == 1 then (F7_ALT << 25) | EncI(CImm6(ci), r, 5, r, OP_IMM)
    else if sub == 2 then EncI(CImm6s(ci), r, 7, r, OP_IMM)
    else if (ci >> 12) & 0x1 != 0 then 0
    else
      var s := Creg((ci >> 2) & 0x7);
      var sub2 := (ci >> 5) & 0x3;
      if sub2 == 0 then EncR(F7_ALT, s, r, 0, r)
      else if sub2 == 1 then EncR(F7_NORMAL, s, r, 4, r)
      else if sub2 == 2 then EncR(F7_NORMAL, s, r, 6, r)
      else EncR(F7_NORMAL, s, r, 7, r)
  }

  function ExpandQ1(ci: Word): Word {
    var f3 := (ci >> 13) & 0x7;
    var r := (ci >> 7) & 0x1F;
    if f3 == 0 then EncI(CImm6s(ci), r, 0, r, OP_IMM)
    else if f3 == 1 then EncJ(CJumpOffset(ci), 1)
    else if f3 == 2 then EncI(CImm6s(ci), 0, 0, r, OP_IMM)
    else if f3 == 3 then
      if r == 2 then
        if CAddi16sp(ci) == 0 then 0 else EncI(CAddi16sp(ci), 2, 0, 2, OP_IMM)
      else if CImm6s(ci) == 0 then 0
      else EncU(CImm6s(ci), r)
    else if f3 == 4 then ExpandAlu(ci)
    else if f3 == 5 then EncJ(CJumpOffset(ci), 0)
    else if f3 == 6 then EncB(CBranchOffset(ci), Creg((ci >> 7) & 0x7), 0)
    else EncB(CBranchOffset(ci), Creg((ci >> 7) & 0x7), 1)
  }

  function ExpandQ2(ci: Word): Word {
    var f3 := (ci >> 13) & 0x7;
    var r1 := (ci >> 7) & 0x1F;
    var r2 := (ci >> 2) & 0x1F;
    if f3 == 0 then (F7_NORMAL << 25) | EncI(CImm6(ci), r1, 1, r1, OP_IMM)
    else if f3 == 2 then
      if r1 == 0 then 0
      else EncI(CLwsp(ci), 2, 2, r1, OP_LOAD)
    else if f3 == 4 then
      if (ci >> 12) & 0x1 == 0 then
        if r2 == 0 then (if r1 == 0 then 0 else EncI(0, r1, 0, 0, OP_JALR))
        else EncR(F7_NORMAL, r2, 0, 0, r1)
      else if r2 == 0 then
        if r1 == 0 then (0x1 << 20) | OP_SYSTEM else EncI(0, r1, 0, 1, OP_JALR)
      else EncR(F7_NORMAL, r2, r1, 0, r1)
    else if f3 == 6 then EncS(CSwsp(ci), r2, 2)
    else 0
  }

  /** expand_compressed: the 32-bit encoding of a halfword, or 0 when there is none. */
  function Expand(ci: Word): Word {
    var q := ci & 0x3;
    if q == 0 then ExpandQ0(ci) else if q == 1 then ExpandQ1(ci) else if q == 2 then ExpandQ2(ci) else 0
  }

  function DecodeInstr(i: Word): Decoded {
    if i & 0x3 != 0x3 then
      var ci := i & 0xFFFF;
      var x := Expand(ci);
      if x == 0 then Decoded(ILLEGAL, 0, 0, 0, 0, 0, ci, true)
      else Decode32(x).(raw := ci, compressed := true)
    else Decode32(i)
  }

  // ---- jump targets ----

  predicate IsBranch(op: InstrType) { op.BEQ? || op.BNE? || op.BLT? || op.BGE? || op.BLTU? || op.BGEU? }

  /** The operations whose target is pc plus the immediate. */
  predicate IsRelativeJump(op: InstrType) { op.JAL? || IsBranch(op) }

  lemma NoJumpInLoadsAndStores(f3: Word)
    ensures !IsRelativeJump(LoadOp(f3)) && !IsRelativeJump(StoreOp(f3))
  {}
  lemma NoJumpInAlu(f3: Word, f7: Word)
    ensures !IsRelativeJump(ImmOp(f3, f7)) && !IsRelativeJump(RegOp(f3, f7))
  {}
  lemma NoJumpInAmoAndSystem(f: Word)
    ensures !IsRelativeJump(AmoOp(f)) && !IsRelativeJump(PrivOp(f)) && !IsRelativeJump(CsrOp(f))
  {}

  lemma NoJumpInTheRest()
    ensures !IsRelativeJump(LUI) && !IsRelativeJump(AUIPC) && !IsRelativeJump(JALR) && !IsRelativeJump(ILLEGAL)
    ensures !IsRelativeJump(FENCE) && !IsRelativeJump(FENCEI) && !IsRelativeJump(SFENCE_VMA)
  {}

  lemma OnlyJalAndBranchJump(i: Word)
    requires Opcode(i) != OP_JAL && Opcode(i) != OP_BRANCH
    ensures !IsRelativeJump(Decode32(i).op)
  {
    hide LoadOp, StoreOp, ImmOp, RegOp, AmoOp, PrivOp, CsrOp, BranchOp;
    hide ImmJ, ImmB, ImmI, ImmS, ImmU, Rd, Rs1, Rs2, Funct3, Funct5, Funct7, Funct12, Opcode;
    NoJumpInTheRest();
    hide IsRelativeJump;
    NoJumpInLoadsAndStores(Funct3(i));
    NoJumpInAlu(Funct3(i), Funct7(i));
    NoJumpInAmoAndSystem(Funct3(i));
    NoJumpInAmoAndSystem(Funct5(i));
    NoJumpInAmoAndSystem(Funct12(i));
  }

  lemma Decode32OffsetsAreEven(i: Word)
    ensures IsRelativeJump(Decode32(i).op) ==> Decode32(i).imm & 1 == 0
  {
    hide IsRelativeJump, BranchOp;
    if Opcode(i) == OP_JAL {
      assert Decode32(i).imm == ImmJ(i);
    } else if Opcode(i) == OP_BRANCH {
      assert Decode32(i).imm == ImmB(i);
    } else {
      hide Decode32;
      OnlyJalAndBranchJump(i);
    }
  }

  /** Jump and branch offsets are even, whatever the encoding. */
  lemma OffsetsAreEven(i: Word)
    ensures IsRelativeJump(DecodeInstr(i).op) ==> DecodeInstr(i).imm & 1 == 0
  {
    hide Decode32, Expand, IsRelativeJump;
    Decode32OffsetsAreEven(i);
    Decode32OffsetsAreEven(Expand(i & 0xFFFF));
    NoJumpInTheRest();
  }
}
