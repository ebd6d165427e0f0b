/** The 32-bit decoder against the instruction listings: which words are which instruction, as masks and
    values of the raw word, and where its operands lie, bit by bit (src/cpu/decode.cpp:6-227). Where the
    program looks at fewer bits than chapter 24 of the RISC-V Unprivileged ISA fixes, the mask says so:
    funct3 of JALR, the operand fields of ECALL, EBREAK, the returns and WFI, rs2 of LR.W, and funct3 of
    FENCE. */
module Listing {
  import opened Rv32
  import opened Decode
  import opened Rvc

  // ---- the rows ----

  predicate Row(i: Word, mask: Word, value: Word) { i & mask == value }

  predicate IsUpper(op: InstrType) { op.LUI? || op.AUIPC? || op.JAL? || op.JALR? }
  function UpperKey(op: InstrType): Word {
    if op.LUI? then 0x37 else if op.AUIPC? then 0x17 else if op.JAL? then 0x6F else 0x67
  }
  predicate UpperRow(i: Word, op: InstrType) { Row(i, 0x7F, UpperKey(op)) }

  function BranchKey(op: InstrType): Word {
    if op.BEQ? then 0x0063 else if op.BNE? then 0x1063 else if op.BLT? then 0x4063
    else if op.BGE? then 0x5063 else if op.BLTU? then 0x6063 else 0x7063
  }
  predicate BranchRow(i: Word, op: InstrType) { Row(i, 0x707F, BranchKey(op)) }

  predicate IsLoadOp(op: InstrType) { op.LB? || op.LH? || op.LW? || op.LBU? || op.LHU? }
  function LoadKey(op: InstrType): Word {
    if op.LB? then 0x0003 else if op.LH? then 0x1003 else if op.LW? then 0x2003
    else if op.LBU? then 0x4003 else 0x5003
  }
  predicate LoadRow(i: Word, op: InstrType) { Row(i, 0x707F, LoadKey(op)) }

  predicate IsStoreOp(op: InstrType) { op.SB? || op.SH? || op.SW? }
  function StoreKey(op: InstrType): Word {
    if op.SB? then 0x0023 else if op.SH? then 0x1023 else 0x2023
  }
  predicate StoreRow(i: Word, op: InstrType) { Row(i, 0x707F, StoreKey(op)) }

  predicate IsShiftImm(op: InstrType) { op.SLLI? || op.SRLI? || op.SRAI? }
  predicate IsImmOp(op: InstrType) { op.ADDI? || op.SLTI? || op.SLTIU? || op.XORI? || op.ORI? || op.ANDI? }
  function ImmKey(op: InstrType): Word {
    if op.ADDI? then 0x0013 else if op.SLTI? then 0x2013 else if op.SLTIU? then 0x3013
    else if op.XORI? then 0x4013 else if op.ORI? then 0x6013 else 0x7013
  }
  predicate ImmRow(i: Word, op: InstrType) { Row(i, 0x707F, ImmKey(op)) }
  function ShiftImmKey(op: InstrType): Word {
    if op.SLLI? then 0x0000_1013 else if op.SRLI? then 0x0000_5013 else 0x4000_5013
  }
  predicate ShiftImmRow(i: Word, op: InstrType) { Row(i, 0xFE00_707F, ShiftImmKey(op)) }

  predicate IsRegOp(op: InstrType) {
    || op.ADD? || op.SUB? || op.SLL? || op.SLT? || op.SLTU? || op.XOR? || op.SRL? || op.SRA? || op.OR? || op.AND?
  }
  function RegKey(op: InstrType): Word {
    if op.ADD? then 0x0000_0033 else if op.SUB? then 0x4000_0033 else if op.SLL? then 0x0000_1033
    else if op.SLT? then 0x0000_2033 else if op.SLTU? then 0x0000_3033 else if op.XOR? then 0x0000_4033
    else if op.SRL? then 0x0000_5033 else if op.SRA? then 0x4000_5033 else if op.OR? then 0x0000_6033 else 0x0000_7033
  }
  predicate RegRow(i: Word, op: InstrType) { Row(i, 0xFE00_707F, RegKey(op)) }
  predicate IsMulOp(op: InstrType) {
    op.MUL? || op.MULH? || op.MULHSU? || op.MULHU? || op.DIV? || op.DIVU? || op.REM? || op.REMU?
  }
  function MulKey(op: InstrType): Word {
    if op.MUL? then 0x0200_0033 else if op.MULH? then 0x0200_1033 else if op.MULHSU? then 0x0200_2033
    else if op.MULHU? then 0x0200_3033 else if op.DIV? then 0x0200_4033 else if op.DIVU? then 0x0200_5033
    else if op.REM? then 0x0200_6033 else 0x0200_7033
  }
  predicate MulRow(i: Word, op: InstrType) { Row(i, 0xFE00_707F, MulKey(op)) }

  predicate IsAtomic(op: InstrType) {
    || op.LR_W? || op.SC_W? || op.AMOSWAP_W? || op.AMOADD_W? || op.AMOXOR_W? || op.AMOAND_W? || op.AMOOR_W?
    || op.AMOMIN_W? || op.AMOMAX_W? || op.AMOMINU_W? || op.AMOMAXU_W?
  }
  function AtomicKey(op: InstrType): Word {
    if op.AMOADD_W? then 0x0000_202F else if op.AMOSWAP_W? then 0x0800_202F
    else if op.LR_W? then 0x1000_202F else if op.SC_W? then 0x1800_202F else if op.AMOXOR_W? then 0x2000_202F
    else if op.AMOOR_W? then 0x4000_202F else if op.AMOAND_W? then 0x6000_202F else if op.AMOMIN_W? then 0x8000_202F
    else if op.AMOMAX_W? then 0xA000_202F else if op.AMOMINU_W? then 0xC000_202F else 0xE000_202F
  }
  predicate AtomicRow(i: Word, op: InstrType) { Row(i, 0xF800_707F, AtomicKey(op)) }

  predicate IsPriv(op: InstrType) { op.ECALL? || op.EBREAK? || op.URET? || op.SRET? || op.MRET? || op.WFI? }
  function PrivKey(op: InstrType): Word {
    if op.ECALL? then 0x0000_0073 else if op.EBREAK? then 0x0010_0073 else if op.URET? then 0x0020_0073
    else if op.SRET? then 0x1020_0073 else if op.MRET? then 0x3020_0073 else 0x1050_0073
  }
  predicate PrivRow(i: Word, op: InstrType) { Row(i, 0xFFF0_707F, PrivKey(op)) }
  predicate IsCsrOp(op: InstrType) { op.CSRRW? || op.CSRRS? || op.CSRRC? || op.CSRRWI? || op.CSRRSI? || op.CSRRCI? }
  function CsrKey(op: InstrType): Word {
    if op.CSRRW? then 0x1073 else if op.CSRRS? then 0x2073 else if op.CSRRC? then 0x3073
    else if op.CSRRWI? then 0x5073 else if op.CSRRSI? then 0x6073 else 0x7073
  }
  predicate CsrRow(i: Word, op: InstrType) { Row(i, 0x707F, CsrKey(op)) }

  /** The word i is an instruction op. */
  predicate Matches(i: Word, op: InstrType) {
    if IsControlOrMemory(op) then ControlOrMemoryRow(i, op)
    else if IsAlu(op) then AluRow(i, op)
    else SystemRow(i, op)
  }
  predicate IsControlOrMemory(op: InstrType) { IsUpper(op) || IsBranch(op) || IsLoadOp(op) || IsStoreOp(op) || IsAtomic(op) }
  predicate ControlOrMemoryRow(i: Word, op: InstrType) {
    if IsUpper(op) then UpperRow(i, op)
    else if IsBranch(op) then BranchRow(i, op)
    else if IsLoadOp(op) then LoadRow(i, op)
    else if IsStoreOp(op) then StoreRow(i, op)
    else AtomicRow(i, op)
  }
  predicate IsAlu(op: InstrType) { IsImmOp(op) || IsShiftImm(op) || IsRegOp(op) || IsMulOp(op) }
  predicate AluRow(i: Word, op: InstrType) {
    if IsImmOp(op) then ImmRow(i, op)
    else if IsShiftImm(op) then ShiftImmRow(i, op)
    else if IsRegOp(op) then RegRow(i, op)
    else MulRow(i, op)
  }
  predicate SystemRow(i: Word, op: InstrType) {
    if IsPriv(op) then PrivRow(i, op)
    else if IsCsrOp(op) then CsrRow(i, op)
    else if op.SFENCE_VMA? then Row(i, 0xFE00_707F, 0x1200_0073)
    else if op.FENCEI? then Row(i, 0x707F, 0x100F)
    else op.FENCE? && Row(i, 0x7F, 0x0F) && !Row(i, 0x7000, 0x1000)
  }

  // ---- rows by field ----

  lemma RowByOpcode(i: Word, k: Word)
    requires k < 0x80
    ensures Row(i, 0x7F, k) <==> Opcode(i) == k
  {}
  lemma RowByFunct3(i: Word, k: Word, f: Word, v: Word)
    requires k < 0x80 && f < 8 && v == (f << 12) | k
    ensures Row(i, 0x707F, v) <==> Opcode(i) == k && Funct3(i) == f
  {}
  lemma RowByFunct7(i: Word, k: Word, f: Word, g: Word, v: Word)
    requires k < 0x80 && f < 8 && g < 0x80 && v == (g << 25) | (f << 12) | k
    ensures Row(i, 0xFE00_707F, v) <==> Opcode(i) == k && Funct3(i) == f && Funct7(i) == g
  {}
  lemma RowByFunct5(i: Word, k: Word, f: Word, g: Word, v: Word)
    requires k < 0x80 && f < 8 && g < 0x20 && v == (g << 27) | (f << 12) | k
    ensures Row(i, 0xF800_707F, v) <==> Opcode(i) == k && Funct3(i) == f && Funct5(i) == g
  {}
  lemma RowByFunct12(i: Word, k: Word, f: Word, g: Word, v: Word)
    requires k < 0x80 && f < 8 && g < 0x1000 && v == (g << 20) | (f << 12) | k
    ensures Row(i, 0xFFF0_707F, v) <==> Opcode(i) == k && Funct3(i) == f && Funct12(i) == g
  {}

  lemma Funct3IsSmall(i: Word)
    ensures Funct3(i) < 8
  {}

  // ---- one group of rows at a time: the row against the dispatch of the decoder ----

  lemma BranchRows(i: Word, op: InstrType)
    requires IsBranch(op)
    ensures BranchRow(i, op) <==> Opcode(i) == OP_BRANCH && BranchOp(Funct3(i)) == op
  {
    hide Row, Opcode, Funct3, Funct7, Funct5, Funct12;
    if op.BEQ? {
      RowByFunct3(i, 0x63, 0, 0x63);
    } else if op.BNE? {
      RowByFunct3(i, 0x63, 1, 0x1063);
    } else if op.BLT? {
      RowByFunct3(i, 0x63, 4, 0x4063);
    } else if op.BGE? {
      RowByFunct3(i, 0x63, 5, 0x5063);
    } else if op.BLTU? {
      RowByFunct3(i, 0x63, 6, 0x6063);
    } else {
      RowByFunct3(i, 0x63, 7, 0x7063);
    }
  }
  lemma LoadRows(i: Word, op: InstrType)
    requires IsLoadOp(op)
    ensures LoadRow(i, op) <==> Opcode(i) == OP_LOAD && LoadOp(Funct3(i)) == op
  {
    hide Row, Opcode, Funct3, Funct7, Funct5, Funct12;
    if op.LB? {
      RowByFunct3(i, 0x03, 0, 0x3);
    } else if op.LH? {
      RowByFunct3(i, 0x03, 1, 0x1003);
    } else if op.LW? {
      RowByFunct3(i, 0x03, 2, 0x2003);
    } else if op.LBU? {
      RowByFunct3(i, 0x03, 4, 0x4003);
    } else {
      RowByFunct3(i, 0x03, 5, 0x5003);
    }
  }
  lemma StoreRows(i: Word, op: InstrType)
    requires IsStoreOp(op)
    ensures StoreRow(i, op) <==> Opcode(i) == OP_STORE && StoreOp(Funct3(i)) == op
  {
    hide Row, Opcode, Funct3, Funct7, Funct5, Funct12;
    if op.SB? {
      RowByFunct3(i, 0x23, 0, 0x23);
    } else if op.SH? {
      RowByFunct3(i, 0x23, 1, 0x1023);
    } else {
      RowByFunct3(i, 0x23, 2, 0x2023);
    }
  }
  lemma ImmRows(i: Word, op: InstrType)
    requires IsImmOp(op)
    ensures ImmRow(i, op) <==> Opcode(i) == OP_IMM && ImmOp(Funct3(i), Funct7(i)) == op
  {
    hide Row, Opcode, Funct3, Funct7, Funct5, Funct12;
    if op.ADDI? {
      RowByFunct3(i, 0x13, 0, 0x13);
    } else if op.SLTI? {
      RowByFunct3(i, 0x13, 2, 0x2013);
    } else if op.SLTIU? {
      RowByFunct3(i, 0x13, 3, 0x3013);
    } else if op.XORI? {
      RowByFunct3(i, 0x13, 4, 0x4013);
    } else if op.ORI? {
      RowByFunct3(i, 0x13, 6, 0x6013);
    } else {
      RowByFunct3(i, 0x13, 7, 0x7013);
    }
  }
  lemma ShiftImmRows(i: Word, op: InstrType)
    requires IsShiftImm(op)
    ensures ShiftImmRow(i, op) <==> Opcode(i) == OP_IMM && ImmOp(Funct3(i), Funct7(i)) == op
  {
    hide Row, Opcode, Funct3, Funct7, Funct5, Funct12;
    Funct3IsSmall(i);
    if op.SLLI? {
      RowByFunct7(i, 0x13, 1, 0x0, 0x1013);
    } else if op.SRLI? {
      RowByFunct7(i, 0x13, 5, 0x0, 0x5013);
    } else {
      RowByFunct7(i, 0x13, 5, 0x20, 0x40005013);
    }
  }
  lemma RegRows(i: Word, op: InstrType)
    requires IsRegOp(op)
    ensures RegRow(i, op) <==> Opcode(i) == OP_REG && RegOp(Funct3(i), Funct7(i)) == op
  {
    hide Row, Opcode, Funct3, Funct7, Funct5, Funct12;
    Funct3IsSmall(i);
    if op.ADD? {
      RowByFunct7(i, 0x33, 0, 0x0, 0x33);
    } else if op.SUB? {
      RowByFunct7(i, 0x33, 0, 0x20, 0x40000033);
    } else if op.SLL? {
      RowByFunct7(i, 0x33, 1, 0x0, 0x1033);
    } else if op.SLT? {
      RowByFunct7(i, 0x33, 2, 0x0, 0x2033);
    } else if op.SLTU? {
      RowByFunct7(i, 0x33, 3, 0x0, 0x3033);
    } else if op.XOR? {
      RowByFunct7(i, 0x33, 4, 0x0, 0x4033);
    } else if op.SRL? {
      RowByFunct7(i, 0x33, 5, 0x0, 0x5033);
    } else if op.SRA? {
      RowByFunct7(i, 0x33, 5, 0x20, 0x40005033);
    } else if op.OR? {
      RowByFunct7(i, 0x33, 6, 0x0, 0x6033);
    } else {
      RowByFunct7(i, 0x33, 7, 0x0, 0x7033);
    }
  }
  lemma MulRows(i: Word, op: InstrType)
    requires IsMulOp(op)
    ensures MulRow(i, op) <==> Opcode(i) == OP_REG && RegOp(Funct3(i), Funct7(i)) == op
  {
    hide Row, Opcode, Funct3, Funct7, Funct5, Funct12;
    Funct3IsSmall(i);
    if op.MUL? {
      RowByFunct7(i, 0x33, 0, 0x1, 0x2000033);
    } else if op.MULH? {
      RowByFunct7(i, 0x33, 1, 0x1, 0x2001033);
    } else if op.MULHSU? {
      RowByFunct7(i, 0x33, 2, 0x1, 0x2002033);
    } else if op.MULHU? {
      RowByFunct7(i, 0x33, 3, 0x1, 0x2003033);
    } else if op.DIV? {
      RowByFunct7(i, 0x33, 4, 0x1, 0x2004033);
    } else if op.DIVU? {
      RowByFunct7(i, 0x33, 5, 0x1, 0x2005033);
    } else if op.REM? {
      RowByFunct7(i, 0x33, 6, 0x1, 0x2006033);
    } else {
      RowByFunct7(i, 0x33, 7, 0x1, 0x2007033);
    }
  }
  lemma AtomicRows(i: Word, op: InstrType)
    requires IsAtomic(op)
    ensures AtomicRow(i, op) <==> Opcode(i) == OP_AMO && Funct3(i) == 2 && AmoOp(Funct5(i)) == op
  {
    hide Row, Opcode, Funct3, Funct7, Funct5, Funct12;
    if op.AMOADD_W? {
      RowByFunct5(i, 0x2F, 2, 0x0, 0x202F);
    } else if op.AMOSWAP_W? {
      RowByFunct5(i, 0x2F, 2, 0x1, 0x800202F);
    } else if op.LR_W? {
      RowByFunct5(i, 0x2F, 2, 0x2, 0x1000202F);
    } else if op.SC_W? {
      RowByFunct5(i, 0x2F, 2, 0x3, 0x1800202F);
    } else if op.AMOXOR_W? {
      RowByFunct5(i, 0x2F, 2, 0x4, 0x2000202F);
    } else if op.AMOOR_W? {
      RowByFunct5(i, 0x2F, 2, 0x8, 0x4000202F);
    } else if op.AMOAND_W? {
      RowByFunct5(i, 0x2F, 2, 0xC, 0x6000202F);
    } else if op.AMOMIN_W? {
      RowByFunct5(i, 0x2F, 2, 0x10, 0x8000202F);
    } else if op.AMOMAX_W? {
      RowByFunct5(i, 0x2F, 2, 0x14, 0xA000202F);
    } else if op.AMOMINU_W? {
      RowByFunct5(i, 0x2F, 2, 0x18, 0xC000202F);
    } else {
      RowByFunct5(i, 0x2F, 2, 0x1C, 0xE000202F);
    }
  }
  lemma PrivRows(i: Word, op: InstrType)
    requires IsPriv(op)
    ensures PrivRow(i, op) <==> Opcode(i) == OP_SYSTEM && Funct3(i) == 0 && PrivOp(Funct12(i)) == op
  {
    hide Row, Opcode, Funct3, Funct7, Funct5, Funct12;
    if op.ECALL? {
      RowByFunct12(i, 0x73, 0, 0x0, 0x73);
    } else if op.EBREAK? {
      RowByFunct12(i, 0x73, 0, 0x1, 0x100073);
    } else if op.URET? {
      RowByFunct12(i, 0x73, 0, 0x2, 0x200073);
    } else if op.SRET? {
      RowByFunct12(i, 0x73, 0, 0x102, 0x10200073);
    } else if op.MRET? {
      RowByFunct12(i, 0x73, 0, 0x302, 0x30200073);
    } else {
      RowByFunct12(i, 0x73, 0, 0x105, 0x10500073);
    }
  }
  lemma CsrRows(i: Word, op: InstrType)
    requires IsCsrOp(op)
    ensures CsrRow(i, op) <==> Opcode(i) == OP_SYSTEM && CsrOp(Funct3(i)) == op
  {
    hide Row, Opcode, Funct3, Funct7, Funct5, Funct12;
    if op.CSRRW? {
      RowByFunct3(i, 0x73, 1, 0x1073);
    } else if op.CSRRS? {
      RowByFunct3(i, 0x73, 2, 0x2073);
    } else if op.CSRRC? {
      RowByFunct3(i, 0x73, 3, 0x3073);
    } else if op.CSRRWI? {
      RowByFunct3(i, 0x73, 5, 0x5073);
    } else if op.CSRRSI? {
      RowByFunct3(i, 0x73, 6, 0x6073);
    } else {
      RowByFunct3(i, 0x73, 7, 0x7073);
    }
  }

  // ---- the decoder ----

  /** The operation that a word with this major opcode decodes to. */
  function OpOf(k: Word, f3: Word, f7: Word, f5: Word, f12: Word): InstrType {
    if k == OP_LUI then LUI else if k == OP_AUIPC then AUIPC else if k == OP_JAL then JAL else if k == OP_JALR then JALR
    else if k == OP_BRANCH then BranchOp(f3)
    else if k == OP_LOAD then LoadOp(f3)
    else if k == OP_STORE then StoreOp(f3)
    else if k == OP_IMM then ImmOp(f3, f7)
    else if k == OP_REG then RegOp(f3, f7)
    else if k == OP_AMO then if f3 != 2 then ILLEGAL else AmoOp(f5)
    else if k == OP_FENCE then if f3 == 1 then FENCEI else FENCE
    else if k == OP_SYSTEM then if f3 == 0 then if f7 == F7_SFENCE_VMA then SFENCE_VMA else PrivOp(f12) else CsrOp(f3)
    else ILLEGAL
  }
  predicate EarlyOpcode(k: Word) {
    k == OP_LUI || k == OP_AUIPC || k == OP_JAL || k == OP_JALR || k == OP_BRANCH || k == OP_LOAD || k == OP_STORE || k == OP_IMM
  }
  lemma DecodedOpEarly(i: Word)
    requires EarlyOpcode(Opcode(i))
    ensures Decode32(i).op == OpOf(Opcode(i), Funct3(i), Funct7(i), Funct5(i), Funct12(i))
  {
    hide BranchOp, LoadOp, StoreOp, ImmOp, RegOp, AmoOp, PrivOp, CsrOp, ImmI, ImmS, ImmB, ImmU, ImmJ, Opcode, Funct3, Funct7, Funct5, Funct12, Rd, Rs1, Rs2;
  }
  lemma DecodedOpLate(i: Word)
    requires !EarlyOpcode(Opcode(i))
    ensures Decode32(i).op == OpOf(Opcode(i), Funct3(i), Funct7(i), Funct5(i), Funct12(i))
  {
    hide BranchOp, LoadOp, StoreOp, ImmOp, RegOp, AmoOp, PrivOp, CsrOp, ImmI, ImmS, ImmB, ImmU, ImmJ, Opcode, Funct3, Funct7, Funct5, Funct12, Rd, Rs1, Rs2;
  }
  lemma DecodedOp(i: Word)
    ensures Decode32(i).op == OpOf(Opcode(i), Funct3(i), Funct7(i), Funct5(i), Funct12(i))
  {
    hide Decode32, OpOf, EarlyOpcode;
    if EarlyOpcode(Opcode(i)) { DecodedOpEarly(i); } else { DecodedOpLate(i); }
  }

  // What each sub-decoder can yield.
  lemma BranchYields(f3: Word)
    ensures IsBranch(BranchOp(f3)) || BranchOp(f3).ILLEGAL?
  {}
  lemma LoadYields(f3: Word)
    ensures IsLoadOp(LoadOp(f3)) || LoadOp(f3).ILLEGAL?
  {}
  lemma StoreYields(f3: Word)
    ensures IsStoreOp(StoreOp(f3)) || StoreOp(f3).ILLEGAL?
  {}
  lemma ImmYields(f3: Word, f7: Word)
    ensures IsImmOp(ImmOp(f3, f7)) || IsShiftImm(ImmOp(f3, f7)) || ImmOp(f3, f7).ILLEGAL?
  {}
  lemma RegYields(f3: Word, f7: Word)
    ensures IsRegOp(RegOp(f3, f7)) || IsMulOp(RegOp(f3, f7)) || RegOp(f3, f7).ILLEGAL?
  {}
  lemma AmoYields(f5: Word)
    ensures IsAtomic(AmoOp(f5)) || AmoOp(f5).ILLEGAL?
  {}
  lemma PrivYields(f12: Word)
    ensures IsPriv(PrivOp(f12)) || PrivOp(f12).ILLEGAL?
  {}
  lemma CsrYields(f3: Word)
    ensures IsCsrOp(CsrOp(f3)) || CsrOp(f3).ILLEGAL?
  {}

  /** An operation betrays its major opcode. */
  lemma Yields(k: Word, f3: Word, f7: Word, f5: Word, f12: Word)
    ensures var op := OpOf(k, f3, f7, f5, f12);
      || op.ILLEGAL? || (k == OP_LUI && op.LUI?) || (k == OP_AUIPC && op.AUIPC?) || (k == OP_JAL && op.JAL?) || (k == OP_JALR && op.JALR?)
      || (k == OP_BRANCH && IsBranch(op)) || (k == OP_LOAD && IsLoadOp(op)) || (k == OP_STORE && IsStoreOp(op))
      || (k == OP_IMM && (IsImmOp(op) || IsShiftImm(op))) || (k == OP_REG && (IsRegOp(op) || IsMulOp(op)))
      || (k == OP_AMO && IsAtomic(op)) || (k == OP_FENCE && (op.FENCE? || op.FENCEI?))
      || (k == OP_SYSTEM && (op.SFENCE_VMA? || IsPriv(op) || IsCsrOp(op)))
  {
    hide BranchOp, LoadOp, StoreOp, ImmOp, RegOp, AmoOp, PrivOp, CsrOp;
    hide IsBranch, IsLoadOp, IsStoreOp, IsImmOp, IsShiftImm, IsRegOp, IsMulOp, IsAtomic, IsPriv, IsCsrOp;
    if k == OP_BRANCH {
      BranchYields(f3);
    } else if k == OP_LOAD {
      LoadYields(f3);
    } else if k == OP_STORE {
      StoreYields(f3);
    } else if k == OP_IMM {
      ImmYields(f3, f7);
    } else if k == OP_REG {
      RegYields(f3, f7);
    } else if k == OP_AMO {
      AmoYields(f5);
    } else {
      PrivYields(f12);
      CsrYields(f3);
    }
  }
  lemma OnlyBranch(k: Word, f3: Word, f7: Word, f5: Word, f12: Word)
    requires IsBranch(OpOf(k, f3, f7, f5, f12))
    ensures k == OP_BRANCH
  {
    hide BranchOp, LoadOp, StoreOp, ImmOp, RegOp, AmoOp, PrivOp, CsrOp;
    Yields(k, f3, f7, f5, f12);
  }
  lemma OnlyLoad(k: Word, f3: Word, f7: Word, f5: Word, f12: Word)
    requires IsLoadOp(OpOf(k, f3, f7, f5, f12))
    ensures k == OP_LOAD
  {
    hide BranchOp, LoadOp, StoreOp, ImmOp, RegOp, AmoOp, PrivOp, CsrOp;
    Yields(k, f3, f7, f5, f12);
  }
  lemma OnlyStore(k: Word, f3: Word, f7: Word, f5: Word, f12: Word)
    requires IsStoreOp(OpOf(k, f3, f7, f5, f12))
    ensures k == OP_STORE
  {
    hide BranchOp, LoadOp, StoreOp, ImmOp, RegOp, AmoOp, PrivOp, CsrOp;
    Yields(k, f3, f7, f5, f12);
  }
  lemma OnlyImm(k: Word, f3: Word, f7: Word, f5: Word, f12: Word)
    requires IsImmOp(OpOf(k, f3, f7, f5, f12)) || IsShiftImm(OpOf(k, f3, f7, f5, f12))
    ensures k == OP_IMM
  {
    hide BranchOp, LoadOp, StoreOp, ImmOp, RegOp, AmoOp, PrivOp, CsrOp;
    Yields(k, f3, f7, f5, f12);
  }
  lemma OnlyReg(k: Word, f3: Word, f7: Word, f5: Word, f12: Word)
    requires IsRegOp(OpOf(k, f3, f7, f5, f12)) || IsMulOp(OpOf(k, f3, f7, f5, f12))
    ensures k == OP_REG
  {
    hide BranchOp, LoadOp, StoreOp, ImmOp, RegOp, AmoOp, PrivOp, CsrOp;
    Yields(k, f3, f7, f5, f12);
  }
  lemma OnlyAtomic(k: Word, f3: Word, f7: Word, f5: Word, f12: Word)
    requires IsAtomic(OpOf(k, f3, f7, f5, f12))
    ensures k == OP_AMO
  {
    hide BranchOp, LoadOp, StoreOp, ImmOp, RegOp, AmoOp, PrivOp, CsrOp;
    Yields(k, f3, f7, f5, f12);
  }
  lemma OnlySystem(k: Word, f3: Word, f7: Word, f5: Word, f12: Word)
    requires IsPriv(OpOf(k, f3, f7, f5, f12)) || IsCsrOp(OpOf(k, f3, f7, f5, f12))
    ensures k == OP_SYSTEM
  {
    hide BranchOp, LoadOp, StoreOp, ImmOp, RegOp, AmoOp, PrivOp, CsrOp;
    Yields(k, f3, f7, f5, f12);
  }

  // ---- the theorem, group by group ----

  lemma OpOfGroups(k: Word, f3: Word, f7: Word, f5: Word, f12: Word)
    ensures k == OP_BRANCH ==> OpOf(k, f3, f7, f5, f12) == BranchOp(f3)
    ensures k == OP_LOAD ==> OpOf(k, f3, f7, f5, f12) == LoadOp(f3)
    ensures k == OP_STORE ==> OpOf(k, f3, f7, f5, f12) == StoreOp(f3)
    ensures k == OP_IMM ==> OpOf(k, f3, f7, f5, f12) == ImmOp(f3, f7)
    ensures k == OP_REG ==> OpOf(k, f3, f7, f5, f12) == RegOp(f3, f7)
    ensures k == OP_AMO ==> OpOf(k, f3, f7, f5, f12) == if f3 != 2 then ILLEGAL else AmoOp(f5)
  {
    hide BranchOp, LoadOp, StoreOp, ImmOp, RegOp, AmoOp, PrivOp, CsrOp;
  }
  function Opcoded(i: Word): InstrType { OpOf(Opcode(i), Funct3(i), Funct7(i), Funct5(i), Funct12(i)) }

  lemma BranchGroup(i: Word, op: InstrType)
    requires IsBranch(op)
    ensures Opcoded(i) == op <==> BranchRow(i, op)
  {
    hide OpOf, BranchOp, LoadOp, StoreOp, ImmOp, RegOp, AmoOp, PrivOp, CsrOp, BranchRow, Opcode, Funct3, Funct7, Funct5, Funct12;
    var k, f3, f7, f5, f12 := Opcode(i), Funct3(i), Funct7(i), Funct5(i), Funct12(i);
    OpOfGroups(k, f3, f7, f5, f12);
    BranchRows(i, op);
    if Opcoded(i) == op { OnlyBranch(k, f3, f7, f5, f12); }
  }
  lemma LoadGroup(i: Word, op: InstrType)
    requires IsLoadOp(op)
    ensures Opcoded(i) == op <==> LoadRow(i, op)
  {
    hide OpOf, BranchOp, LoadOp, StoreOp, ImmOp, RegOp, AmoOp, PrivOp, CsrOp, LoadRow, Opcode, Funct3, Funct7, Funct5, Funct12;
    var k, f3, f7, f5, f12 := Opcode(i), Funct3(i), Funct7(i), Funct5(i), Funct12(i);
    OpOfGroups(k, f3, f7, f5, f12);
    LoadRows(i, op);
    if Opcoded(i) == op { OnlyLoad(k, f3, f7, f5, f12); }
  }
  lemma StoreGroup(i: Word, op: InstrType)
    requires IsStoreOp(op)
    ensures Opcoded(i) == op <==> StoreRow(i, op)
  {
    hide OpOf, BranchOp, LoadOp, StoreOp, ImmOp, RegOp, AmoOp, PrivOp, CsrOp, StoreRow, Opcode, Funct3, Funct7, Funct5, Funct12;
    var k, f3, f7, f5, f12 := Opcode(i), Funct3(i), Funct7(i), Funct5(i), Funct12(i);
    OpOfGroups(k, f3, f7, f5, f12);
    StoreRows(i, op);
    if Opcoded(i) == op { OnlyStore(k, f3, f7, f5, f12); }
  }
  lemma ImmGroup(i: Word, op: InstrType)
    requires IsImmOp(op)
    ensures Opcoded(i) == op <==> ImmRow(i, op)
  {
    hide OpOf, BranchOp, LoadOp, StoreOp, ImmOp, RegOp, AmoOp, PrivOp, CsrOp, ImmRow, Opcode, Funct3, Funct7, Funct5, Funct12;
    var k, f3, f7, f5, f12 := Opcode(i), Funct3(i), Funct7(i), Funct5(i), Funct12(i);
    OpOfGroups(k, f3, f7, f5, f12);
    ImmRows(i, op);
    if Opcoded(i) == op { OnlyImm(k, f3, f7, f5, f12); }
  }
  lemma ShiftImmGroup(i: Word, op: InstrType)
    requires IsShiftImm(op)
    ensures Opcoded(i) == op <==> ShiftImmRow(i, op)
  {
    hide OpOf, BranchOp, LoadOp, StoreOp, ImmOp, RegOp, AmoOp, PrivOp, CsrOp, ShiftImmRow, Opcode, Funct3, Funct7, Funct5, Funct12;
    var k, f3, f7, f5, f12 := Opcode(i), Funct3(i), Funct7(i), Funct5(i), Funct12(i);
    OpOfGroups(k, f3, f7, f5, f12);
    ShiftImmRows(i, op);
    if Opcoded(i) == op { OnlyImm(k, f3, f7, f5, f12); }
  }
  lemma RegGroup(i: Word, op: InstrType)
    requires IsRegOp(op)
    ensures Opcoded(i) == op <==> RegRow(i, op)
  {
    hide OpOf, BranchOp, LoadOp, StoreOp, ImmOp, RegOp, AmoOp, PrivOp, CsrOp, RegRow, Opcode, Funct3, Funct7, Funct5, Funct12;
    var k, f3, f7, f5, f12 := Opcode(i), Funct3(i), Funct7(i), Funct5(i), Funct12(i);
    OpOfGroups(k, f3, f7, f5, f12);
    RegRows(i, op);
    if Opcoded(i) == op { OnlyReg(k, f3, f7, f5, f12); }
  }
  lemma MulGroup(i: Word, op: InstrType)
    requires IsMulOp(op)
    ensures Opcoded(i) == op <==> MulRow(i, op)
  {
    hide OpOf, BranchOp, LoadOp, StoreOp, ImmOp, RegOp, AmoOp, PrivOp, CsrOp, MulRow, Opcode, Funct3, Funct7, Funct5, Funct12;
    var k, f3, f7, f5, f12 := Opcode(i), Funct3(i), Funct7(i), Funct5(i), Funct12(i);
    OpOfGroups(k, f3, f7, f5, f12);
    MulRows(i, op);
    if Opcoded(i) == op { OnlyReg(k, f3, f7, f5, f12); }
  }
  lemma AtomicGroup(i: Word, op: InstrType)
    requires IsAtomic(op)
    ensures Opcoded(i) == op <==> AtomicRow(i, op)
  {
    hide OpOf, BranchOp, LoadOp, StoreOp, ImmOp, RegOp, AmoOp, PrivOp, CsrOp, AtomicRow, Opcode, Funct3, Funct7, Funct5, Funct12;
    var k, f3, f7, f5, f12 := Opcode(i), Funct3(i), Funct7(i), Funct5(i), Funct12(i);
    OpOfGroups(k, f3, f7, f5, f12);
    AtomicRows(i, op);
    if Opcoded(i) == op { OnlyAtomic(k, f3, f7, f5, f12); }
  }

  // SYSTEM has three sub-groups: SFENCE.VMA by funct7, the others by funct12 or funct3.
  lemma OpOfSystem(k: Word, f3: Word, f7: Word, f5: Word, f12: Word)
    requires k == OP_SYSTEM
    ensures f3 != 0 ==> OpOf(k, f3, f7, f5, f12) == CsrOp(f3)
    ensures f3 == 0 ==> OpOf(k, f3, f7, f5, f12) == if f7 == F7_SFENCE_VMA then SFENCE_VMA else PrivOp(f12)
  {
    hide BranchOp, LoadOp, StoreOp, ImmOp, RegOp, AmoOp, PrivOp, CsrOp;
  }
  lemma CsrOpOfZero()
    ensures CsrOp(0).ILLEGAL?
  {}
  /** No privileged code has the funct7 of SFENCE.VMA. */
  lemma PrivIsNotSfence(i: Word)
    requires Funct7(i) == F7_SFENCE_VMA
    ensures PrivOp(Funct12(i)).ILLEGAL?
  {
    assert Funct12(i) >> 5 == 9;
  }
  lemma PrivInSystem(i: Word, op: InstrType)
    requires IsPriv(op) && Opcode(i) == OP_SYSTEM
    ensures Opcoded(i) == op <==> Funct3(i) == 0 && PrivOp(Funct12(i)) == op
  {
    CsrIsNotPriv(op);
    hide OpOf, PrivOp, CsrOp, IsPriv, IsCsrOp, Opcode, Funct3, Funct7, Funct5, Funct12;
    var k, f3, f7, f5, f12 := Opcode(i), Funct3(i), Funct7(i), Funct5(i), Funct12(i);
    OpOfSystem(k, f3, f7, f5, f12);
    if f3 != 0 {
      CsrYields(f3);
    } else if f7 == F7_SFENCE_VMA {
      PrivIsNotSfence(i);
    }
  }
  lemma CsrIsNotPriv(op: InstrType)
    ensures !(IsPriv(op) && IsCsrOp(op))
    ensures IsPriv(op) || IsCsrOp(op) ==> !op.SFENCE_VMA? && !op.ILLEGAL?
  {}
  lemma CsrInSystem(i: Word, op: InstrType)
    requires IsCsrOp(op) && Opcode(i) == OP_SYSTEM
    ensures Opcoded(i) == op <==> CsrOp(Funct3(i)) == op
  {
    hide OpOf, PrivOp, CsrOp, IsPriv, IsCsrOp, Opcode, Funct3, Funct7, Funct5, Funct12;
    var k, f3, f7, f5, f12 := Opcode(i), Funct3(i), Funct7(i), Funct5(i), Funct12(i);
    OpOfSystem(k, f3, f7, f5, f12);
    CsrIsNotPriv(op);
    if f3 == 0 {
      PrivYields(f12);
      CsrOpOfZero();
    }
  }
  lemma PrivGroup(i: Word, op: InstrType)
    requires IsPriv(op)
    ensures Opcoded(i) == op <==> PrivRow(i, op)
  {
    hide OpOf, PrivOp, IsPriv, PrivRow, Opcode, Funct3, Funct7, Funct5, Funct12;
    PrivRows(i, op);
    if Opcode(i) == OP_SYSTEM {
      PrivInSystem(i, op);
    } else if Opcoded(i) == op {
      OnlySystem(Opcode(i), Funct3(i), Funct7(i), Funct5(i), Funct12(i));
    }
  }
  lemma CsrGroup(i: Word, op: InstrType)
    requires IsCsrOp(op)
    ensures Opcoded(i) == op <==> CsrRow(i, op)
  {
    hide OpOf, CsrOp, IsCsrOp, CsrRow, Opcode, Funct3, Funct7, Funct5, Funct12;
    CsrRows(i, op);
    if Opcode(i) == OP_SYSTEM {
      CsrInSystem(i, op);
    } else if Opcoded(i) == op {
      OnlySystem(Opcode(i), Funct3(i), Funct7(i), Funct5(i), Funct12(i));
    }
  }
  lemma OnlyRest(k: Word, f3: Word, f7: Word, f5: Word, f12: Word)
    ensures var op := OpOf(k, f3, f7, f5, f12);
      && (op.LUI? ==> k == OP_LUI) && (op.AUIPC? ==> k == OP_AUIPC) && (op.JAL? ==> k == OP_JAL) && (op.JALR? ==> k == OP_JALR)
      && (op.FENCE? || op.FENCEI? ==> k == OP_FENCE) && (op.SFENCE_VMA? ==> k == OP_SYSTEM)
  {
    hide BranchOp, LoadOp, StoreOp, ImmOp, RegOp, AmoOp, PrivOp, CsrOp;
    Yields(k, f3, f7, f5, f12);
  }
  lemma UpperGroup(i: Word, op: InstrType)
    requires IsUpper(op)
    ensures Opcoded(i) == op <==> UpperRow(i, op)
  {
    hide Row, Opcode, Funct3, Funct7, Funct5, Funct12;
    hide BranchOp, LoadOp, StoreOp, ImmOp, RegOp, AmoOp, PrivOp, CsrOp;
    OnlyRest(Opcode(i), Funct3(i), Funct7(i), Funct5(i), Funct12(i));
    RowByOpcode(i, 0x37);
    RowByOpcode(i, 0x17);
    RowByOpcode(i, 0x6F);
    RowByOpcode(i, 0x67);
  }
  lemma RowOfFunct3(i: Word)
    ensures Row(i, 0x7000, 0x1000) <==> Funct3(i) == 1
  {}
  lemma OtherGroup(i: Word, op: InstrType)
    requires op.FENCE? || op.FENCEI? || op.SFENCE_VMA?
    ensures Opcoded(i) == op <==>
      if op.SFENCE_VMA? then Row(i, 0xFE00_707F, 0x1200_0073)
      else if op.FENCEI? then Row(i, 0x707F, 0x100F)
      else Row(i, 0x7F, 0x0F) && !Row(i, 0x7000, 0x1000)
  {
    hide Row, Opcode, Funct3, Funct7, Funct5, Funct12;
    hide BranchOp, LoadOp, StoreOp, ImmOp, RegOp, AmoOp, PrivOp, CsrOp;
    var k, f3, f7, f5, f12 := Opcode(i), Funct3(i), Funct7(i), Funct5(i), Funct12(i);
    OnlyRest(k, f3, f7, f5, f12);
    PrivYields(f12);
    CsrYields(f3);
    RowByFunct7(i, 0x73, 0, 9, 0x1200_0073);
    RowByFunct3(i, 0x0F, 1, 0x100F);
    RowByOpcode(i, 0x0F);
    RowOfFunct3(i);
  }

  lemma ControlOrMemory(i: Word, op: InstrType)
    requires IsControlOrMemory(op)
    ensures Opcoded(i) == op <==> ControlOrMemoryRow(i, op)
  {
    hide Opcoded, UpperRow, BranchRow, LoadRow, StoreRow, AtomicRow, IsUpper, IsBranch, IsLoadOp, IsStoreOp, IsAtomic;
    if IsUpper(op) {
      UpperGroup(i, op);
    } else if IsBranch(op) {
      BranchGroup(i, op);
    } else if IsLoadOp(op) {
      LoadGroup(i, op);
    } else if IsStoreOp(op) {
      StoreGroup(i, op);
    } else {
      AtomicGroup(i, op);
    }
  }
  lemma Alu(i: Word, op: InstrType)
    requires IsAlu(op)
    ensures Opcoded(i) == op <==> AluRow(i, op)
  {
    hide Opcoded, ImmRow, ShiftImmRow, RegRow, MulRow, IsImmOp, IsShiftImm, IsRegOp, IsMulOp;
    if IsImmOp(op) {
      ImmGroup(i, op);
    } else if IsShiftImm(op) {
      ShiftImmGroup(i, op);
    } else if IsRegOp(op) {
      RegGroup(i, op);
    } else {
      MulGroup(i, op);
    }
  }
  lemma TheRest(op: InstrType)
    requires !op.ILLEGAL? && !IsControlOrMemory(op) && !IsAlu(op)
    ensures IsPriv(op) || IsCsrOp(op) || op.FENCE? || op.FENCEI? || op.SFENCE_VMA?
  {}
  lemma System(i: Word, op: InstrType)
    requires IsPriv(op) || IsCsrOp(op) || op.FENCE? || op.FENCEI? || op.SFENCE_VMA?
    ensures Opcoded(i) == op <==> SystemRow(i, op)
  {
    hide Opcoded, PrivRow, CsrRow, Row, IsPriv, IsCsrOp;
    if IsPriv(op) {
      PrivGroup(i, op);
    } else if IsCsrOp(op) {
      CsrGroup(i, op);
    } else {
      OtherGroup(i, op);
    }
  }

  lemma OpcodedByListing(i: Word, op: InstrType)
    requires !op.ILLEGAL?
    ensures Opcoded(i) == op <==> Matches(i, op)
  {
    hide Opcoded, ControlOrMemoryRow, AluRow, SystemRow, IsControlOrMemory, IsAlu, IsPriv, IsCsrOp;
    if IsControlOrMemory(op) {
      ControlOrMemory(i, op);
    } else if IsAlu(op) {
      Alu(i, op);
    } else {
      TheRest(op);
      System(i, op);
    }
  }

  /** Every 32-bit word decodes to an operation if and only if it matches that operation's row. */
  lemma DecodesByListing(i: Word, op: InstrType)
    requires !op.ILLEGAL?
    ensures Decode32(i).op == op <==> Matches(i, op)
  {
    hide Decode32, Opcoded, Matches;
    OpcodedIsOp(i);
    OpcodedByListing(i, op);
  }
  lemma OpcodedIsOp(i: Word)
    ensures Decode32(i).op == Opcoded(i)
  {
    hide Decode32, OpOf;
    DecodedOp(i);
  }

  /** A word is illegal exactly when it matches no row, and no word matches two. */
  lemma IllegalIffNoRow(i: Word)
    ensures Decode32(i).op == ILLEGAL <==> forall op: InstrType :: !op.ILLEGAL? ==> !Matches(i, op)
    ensures forall op: InstrType, op': InstrType :: !op.ILLEGAL? && !op'.ILLEGAL? && Matches(i, op) && Matches(i, op') ==> op == op'
  {
    hide Decode32, Matches;
    forall op: InstrType | !op.ILLEGAL? ensures Decode32(i).op == op <==> Matches(i, op) { DecodesByListing(i, op); }
  }

  // ---- operands ----

  // The immediates of section 2.3 of the RISC-V Unprivileged ISA, as lists of bit fields.
  function SignOf(i: Word, ext: Word): Word { if OneBit(i, 31) then ext else 0 }
  function ListI(i: Word): Word { SignOf(i, 0xFFFF_F800) | Take(i, 20, 0x7FF, 0) }
  function ListS(i: Word): Word { SignOf(i, 0xFFFF_F800) | Take(i, 25, 0x3F, 5) | Take(i, 7, 0x1F, 0) }
  function ListB(i: Word): Word { SignOf(i, 0xFFFF_F000) | Take(i, 7, 1, 11) | Take(i, 25, 0x3F, 5) | Take(i, 8, 0xF, 1) }
  function ListU(i: Word): Word { Take(i, 12, 0xF_FFFF, 12) }
  function ListJ(i: Word): Word { SignOf(i, 0xFFF0_0000) | Take(i, 12, 0xFF, 12) | Take(i, 20, 1, 11) | Take(i, 21, 0x3FF, 1) }
  /** Five bits from bit number lo on. */
  function Reg(i: Word, lo: bv5): Word { Take(i, lo, 0x1F, 0) }

  lemma ListsAgreeIForward(i: Word)
    requires !OneBit(i, 31)
    ensures ImmI(i) == ListI(i)
  {
    assert !Negative(i);
  }
  lemma ListsAgreeIBackward(i: Word)
    requires OneBit(i, 31)
    ensures ImmI(i) == ListI(i)
  {
    assert Negative(i);
  }
  lemma ListsAgreeI(i: Word)
    ensures ImmI(i) == ListI(i)
  {
    hide ImmI, ListI, OneBit;
    if OneBit(i, 31) { ListsAgreeIBackward(i); } else { ListsAgreeIForward(i); }
  }
  lemma ListsAgreeSForward(i: Word)
    requires !OneBit(i, 31)
    ensures ImmS(i) == ListS(i)
  {
    assert !Negative(i);
  }
  lemma ListsAgreeSBackward(i: Word)
    requires OneBit(i, 31)
    ensures ImmS(i) == ListS(i)
  {
    assert Negative(i);
  }
  lemma ListsAgreeS(i: Word)
    ensures ImmS(i) == ListS(i)
  {
    hide ImmS, ListS, OneBit;
    if OneBit(i, 31) { ListsAgreeSBackward(i); } else { ListsAgreeSForward(i); }
  }
  lemma ListsAgreeBForward(i: Word)
    requires !OneBit(i, 31)
    ensures ImmB(i) == ListB(i)
  {
    assert !Negative(i);
  }
  lemma ListsAgreeBBackward(i: Word)
    requires OneBit(i, 31)
    ensures ImmB(i) == ListB(i)
  {
    assert Negative(i);
  }
  lemma ListsAgreeB(i: Word)
    ensures ImmB(i) == ListB(i)
  {
    hide ImmB, ListB, OneBit;
    if OneBit(i, 31) { ListsAgreeBBackward(i); } else { ListsAgreeBForward(i); }
  }
  lemma ListsAgreeU(i: Word)
    ensures ImmU(i) == ListU(i)
  {}
  lemma ListsAgreeJForward(i: Word)
    requires !OneBit(i, 31)
    ensures ImmJ(i) == ListJ(i)
  {
    assert !Negative(i);
  }
  lemma ListsAgreeJBackward(i: Word)
    requires OneBit(i, 31)
    ensures ImmJ(i) == ListJ(i)
  {
    assert Negative(i);
  }
  lemma ListsAgreeJ(i: Word)
    ensures ImmJ(i) == ListJ(i)
  {
    hide ImmJ, ListJ, OneBit;
    if OneBit(i, 31) { ListsAgreeJBackward(i); } else { ListsAgreeJForward(i); }
  }
  lemma RegsAgree(i: Word)
    ensures Rd(i) == Reg(i, 7) && Rs1(i) == Reg(i, 15) && Rs2(i) == Reg(i, 20)
  {}
  lemma CsrAgrees(i: Word)
    ensures Funct12(i) == Take(i, 20, 0xFFF, 0)
  {}

  /** Which fields an operation has; the others are 0. */
  datatype Fields = Fields(rd: Word, rs1: Word, rs2: Word, imm: Word, csr: Word)

  /** The formats: R, I, S, B, U, J, and I with a shift amount, a CSR, registers only, or nothing. */
  datatype Format = FR | FI | FS | FB | FU | FJ | FShift | FCsr | FPair | FNone

  function FormatOf(op: InstrType): Format {
    if op.LUI? || op.AUIPC? then FU
    else if op.JAL? then FJ
    else if IsBranch(op) then FB
    else if IsStoreOp(op) then FS
    else if op.JALR? || IsLoadOp(op) || IsImmOp(op) then FI
    else if IsShiftImm(op) then FShift
    else if IsRegOp(op) || IsMulOp(op) || IsAtomic(op) then FR
    else if IsCsrOp(op) then FCsr
    else if op.SFENCE_VMA? then FPair
    else FNone
  }
  function FieldsOf(i: Word, f: Format): Fields {
    match f
    case FR => Fields(Reg(i, 7), Reg(i, 15), Reg(i, 20), 0, 0)
    case FI => Fields(Reg(i, 7), Reg(i, 15), 0, ListI(i), 0)
    case FS => Fields(0, Reg(i, 15), Reg(i, 20), ListS(i), 0)
    case FB => Fields(0, Reg(i, 15), Reg(i, 20), ListB(i), 0)
    case FU => Fields(Reg(i, 7), 0, 0, ListU(i), 0)
    case FJ => Fields(Reg(i, 7), 0, 0, ListJ(i), 0)
    case FShift => Fields(Reg(i, 7), Reg(i, 15), 0, Reg(i, 20), 0)
    case FCsr => Fields(Reg(i, 7), Reg(i, 15), 0, Reg(i, 15), Take(i, 20, 0xFFF, 0))
    case FPair => Fields(0, Reg(i, 15), Reg(i, 20), 0, 0)
    case FNone => Fields(0, 0, 0, 0, 0)
  }

  /** The instruction that the listings make of a word with this operation. */
  function Listed(i: Word, op: InstrType): Decoded {
    var f := FieldsOf(i, FormatOf(op));
    Decoded(op, f.rd, f.rs1, f.rs2, f.imm, f.csr, i, false)
  }

  lemma AllAgree(i: Word)
    ensures ImmI(i) == ListI(i) && ImmS(i) == ListS(i) && ImmB(i) == ListB(i) && ImmU(i) == ListU(i) && ImmJ(i) == ListJ(i)
    ensures Rd(i) == Reg(i, 7) && Rs1(i) == Reg(i, 15) && Rs2(i) == Reg(i, 20) && Funct12(i) == Take(i, 20, 0xFFF, 0)
  {
    hide ImmI, ImmS, ImmB, ImmU, ImmJ, ListI, ListS, ListB, ListU, ListJ, Rd, Rs1, Rs2, Funct12, Reg, Take;
    ListsAgreeI(i);
    ListsAgreeS(i);
    ListsAgreeB(i);
    ListsAgreeU(i);
    ListsAgreeJ(i);
    RegsAgree(i);
    CsrAgrees(i);
  }
  lemma FormatBranch(op: InstrType)
    requires IsBranch(op)
    ensures FormatOf(op) == FB
  {}
  lemma FormatStore(op: InstrType)
    requires IsStoreOp(op)
    ensures FormatOf(op) == FS
  {}
  lemma FormatLoad(op: InstrType)
    requires op.JALR? || IsLoadOp(op) || IsImmOp(op)
    ensures FormatOf(op) == FI
  {}
  lemma FormatShiftImm(op: InstrType)
    requires IsShiftImm(op)
    ensures FormatOf(op) == FShift
  {}
  lemma FormatReg(op: InstrType)
    requires IsRegOp(op) || IsMulOp(op)
    ensures FormatOf(op) == FR
  {}
  lemma FormatAtomic(op: InstrType)
    requires IsAtomic(op)
    ensures FormatOf(op) == FR
  {}
  lemma FormatCsr(op: InstrType)
    requires IsCsrOp(op)
    ensures FormatOf(op) == FCsr
  {}
  lemma FormatBare(op: InstrType)
    requires IsPriv(op)
    ensures FormatOf(op) == FNone
  {}
  lemma FormatFence()
    ensures FormatOf(FENCE) == FNone && FormatOf(FENCEI) == FNone
  {}
  lemma OperandsBranch(i: Word)
    requires Opcode(i) == OP_BRANCH && !Decode32(i).op.ILLEGAL?
    ensures Decode32(i) == Listed(i, Decode32(i).op)
  {
    hide BranchOp, LoadOp, StoreOp, ImmOp, RegOp, AmoOp, PrivOp, CsrOp, ImmI, ImmS, ImmB, ImmU, ImmJ, Opcode, Funct3, Funct7, Funct5, Funct12, Rd, Rs1, Rs2;
    hide ListI, ListS, ListB, ListU, ListJ, Reg, Take, FormatOf, IsBranch, IsLoadOp, IsStoreOp, IsImmOp, IsShiftImm, IsRegOp, IsMulOp, IsAtomic, IsPriv, IsCsrOp;
    AllAgree(i);
    BranchYields(Funct3(i));
    FormatBranch(BranchOp(Funct3(i)));
  }
  lemma OperandsLoad(i: Word)
    requires Opcode(i) == OP_LOAD && !Decode32(i).op.ILLEGAL?
    ensures Decode32(i) == Listed(i, Decode32(i).op)
  {
    hide BranchOp, LoadOp, StoreOp, ImmOp, RegOp, AmoOp, PrivOp, CsrOp, ImmI, ImmS, ImmB, ImmU, ImmJ, Opcode, Funct3, Funct7, Funct5, Funct12, Rd, Rs1, Rs2;
    hide ListI, ListS, ListB, ListU, ListJ, Reg, Take, FormatOf, IsBranch, IsLoadOp, IsStoreOp, IsImmOp, IsShiftImm, IsRegOp, IsMulOp, IsAtomic, IsPriv, IsCsrOp;
    AllAgree(i);
    LoadYields(Funct3(i));
    FormatLoad(LoadOp(Funct3(i)));
  }
  lemma OperandsStore(i: Word)
    requires Opcode(i) == OP_STORE && !Decode32(i).op.ILLEGAL?
    ensures Decode32(i) == Listed(i, Decode32(i).op)
  {
    hide BranchOp, LoadOp, StoreOp, ImmOp, RegOp, AmoOp, PrivOp, CsrOp, ImmI, ImmS, ImmB, ImmU, ImmJ, Opcode, Funct3, Funct7, Funct5, Funct12, Rd, Rs1, Rs2;
    hide ListI, ListS, ListB, ListU, ListJ, Reg, Take, FormatOf, IsBranch, IsLoadOp, IsStoreOp, IsImmOp, IsShiftImm, IsRegOp, IsMulOp, IsAtomic, IsPriv, IsCsrOp;
    AllAgree(i);
    StoreYields(Funct3(i));
    FormatStore(StoreOp(Funct3(i)));
  }
  lemma ShiftsHaveFunct3(f3: Word, f7: Word)
    ensures f3 == 1 || f3 == 5 ==> IsShiftImm(ImmOp(f3, f7)) || ImmOp(f3, f7).ILLEGAL?
    ensures f3 != 1 && f3 != 5 && f3 < 8 ==> IsImmOp(ImmOp(f3, f7)) || ImmOp(f3, f7).ILLEGAL?
  {}
  lemma OperandsImm(i: Word)
    requires Opcode(i) == OP_IMM && !Decode32(i).op.ILLEGAL?
    ensures Decode32(i) == Listed(i, Decode32(i).op)
  {
    hide BranchOp, LoadOp, StoreOp, ImmOp, RegOp, AmoOp, PrivOp, CsrOp, ImmI, ImmS, ImmB, ImmU, ImmJ, Opcode, Funct3, Funct7, Funct5, Funct12, Rd, Rs1, Rs2;
    hide ListI, ListS, ListB, ListU, ListJ, Reg, Take, FormatOf, IsBranch, IsLoadOp, IsStoreOp, IsImmOp, IsShiftImm, IsRegOp, IsMulOp, IsAtomic, IsPriv, IsCsrOp;
    AllAgree(i);
    var op := ImmOp(Funct3(i), Funct7(i));
    Funct3IsSmall(i);
    ShiftsHaveFunct3(Funct3(i), Funct7(i));
    if Funct3(i) == 1 || Funct3(i) == 5 { FormatShiftImm(op); } else { FormatLoad(op); }
  }
  lemma OperandsReg(i: Word)
    requires Opcode(i) == OP_REG && !Decode32(i).op.ILLEGAL?
    ensures Decode32(i) == Listed(i, Decode32(i).op)
  {
    hide BranchOp, LoadOp, StoreOp, ImmOp, RegOp, AmoOp, PrivOp, CsrOp, ImmI, ImmS, ImmB, ImmU, ImmJ, Opcode, Funct3, Funct7, Funct5, Funct12, Rd, Rs1, Rs2;
    hide ListI, ListS, ListB, ListU, ListJ, Reg, Take, FormatOf, IsBranch, IsLoadOp, IsStoreOp, IsImmOp, IsShiftImm, IsRegOp, IsMulOp, IsAtomic, IsPriv, IsCsrOp;
    AllAgree(i);
    RegYields(Funct3(i), Funct7(i));
    FormatReg(RegOp(Funct3(i), Funct7(i)));
  }
  lemma OperandsAtomic(i: Word)
    requires Opcode(i) == OP_AMO && !Decode32(i).op.ILLEGAL?
    ensures Decode32(i) == Listed(i, Decode32(i).op)
  {
    hide BranchOp, LoadOp, StoreOp, ImmOp, RegOp, AmoOp, PrivOp, CsrOp, ImmI, ImmS, ImmB, ImmU, ImmJ, Opcode, Funct3, Funct7, Funct5, Funct12, Rd, Rs1, Rs2;
    hide ListI, ListS, ListB, ListU, ListJ, Reg, Take, FormatOf, IsBranch, IsLoadOp, IsStoreOp, IsImmOp, IsShiftImm, IsRegOp, IsMulOp, IsAtomic, IsPriv, IsCsrOp;
    AllAgree(i);
    AmoYields(Funct5(i));
    FormatAtomic(AmoOp(Funct5(i)));
  }
  lemma FormatUpper()
    ensures FormatOf(LUI) == FU && FormatOf(AUIPC) == FU && FormatOf(JAL) == FJ && FormatOf(SFENCE_VMA) == FPair
  {}
  lemma OperandsUpper(i: Word)
    requires (Opcode(i) == OP_LUI || Opcode(i) == OP_AUIPC || Opcode(i) == OP_JAL || Opcode(i) == OP_JALR) && !Decode32(i).op.ILLEGAL?
    ensures Decode32(i) == Listed(i, Decode32(i).op)
  {
    hide BranchOp, LoadOp, StoreOp, ImmOp, RegOp, AmoOp, PrivOp, CsrOp, ImmI, ImmS, ImmB, ImmU, ImmJ, Opcode, Funct3, Funct7, Funct5, Funct12, Rd, Rs1, Rs2;
    hide ListI, ListS, ListB, ListU, ListJ, Reg, Take, FormatOf, IsBranch, IsLoadOp, IsStoreOp, IsImmOp, IsShiftImm, IsRegOp, IsMulOp, IsAtomic, IsPriv, IsCsrOp;
    AllAgree(i);
    FormatUpper();
    FormatLoad(JALR);
  }
  lemma FenceDecodes(i: Word)
    requires Opcode(i) == OP_FENCE
    ensures Decode32(i) == Decoded(if Funct3(i) == 1 then FENCEI else FENCE, 0, 0, 0, 0, 0, i, false)
  {
    hide Opcode, Funct3, Funct7, Funct5, Funct12, Rd, Rs1, Rs2, ImmI, ImmS, ImmB, ImmU, ImmJ;
  }
  lemma OperandsFence(i: Word)
    requires Opcode(i) == OP_FENCE
    ensures Decode32(i) == Listed(i, Decode32(i).op)
  {
    hide Decode32, Opcode, Funct3, FormatOf, Reg, Take, ListI, ListS, ListB, ListU, ListJ;
    FenceDecodes(i);
    FormatFence();
  }
  lemma OperandsCsr(i: Word)
    requires Opcode(i) == OP_SYSTEM && Funct3(i) != 0 && !Decode32(i).op.ILLEGAL?
    ensures Decode32(i) == Listed(i, Decode32(i).op)
  {
    hide BranchOp, LoadOp, StoreOp, ImmOp, RegOp, AmoOp, PrivOp, CsrOp, ImmI, ImmS, ImmB, ImmU, ImmJ, Opcode, Funct3, Funct7, Funct5, Funct12, Rd, Rs1, Rs2;
    hide ListI, ListS, ListB, ListU, ListJ, Reg, Take, FormatOf, IsBranch, IsLoadOp, IsStoreOp, IsImmOp, IsShiftImm, IsRegOp, IsMulOp, IsAtomic, IsPriv, IsCsrOp;
    AllAgree(i);
    CsrYields(Funct3(i));
    FormatCsr(CsrOp(Funct3(i)));
  }
  lemma OperandsSfence(i: Word)
    requires Opcode(i) == OP_SYSTEM && Funct3(i) == 0 && Funct7(i) == F7_SFENCE_VMA && !Decode32(i).op.ILLEGAL?
    ensures Decode32(i) == Listed(i, Decode32(i).op)
  {
    hide BranchOp, LoadOp, StoreOp, ImmOp, RegOp, AmoOp, PrivOp, CsrOp, ImmI, ImmS, ImmB, ImmU, ImmJ, Opcode, Funct3, Funct7, Funct5, Funct12, Rd, Rs1, Rs2;
    hide ListI, ListS, ListB, ListU, ListJ, Reg, Take, FormatOf, IsBranch, IsLoadOp, IsStoreOp, IsImmOp, IsShiftImm, IsRegOp, IsMulOp, IsAtomic, IsPriv, IsCsrOp;
    AllAgree(i);
    FormatUpper();
  }
  lemma OperandsPriv(i: Word)
    requires Opcode(i) == OP_SYSTEM && Funct3(i) == 0 && Funct7(i) != F7_SFENCE_VMA && !Decode32(i).op.ILLEGAL?
    ensures Decode32(i) == Listed(i, Decode32(i).op)
  {
    hide BranchOp, LoadOp, StoreOp, ImmOp, RegOp, AmoOp, PrivOp, CsrOp, ImmI, ImmS, ImmB, ImmU, ImmJ, Opcode, Funct3, Funct7, Funct5, Funct12, Rd, Rs1, Rs2;
    hide ListI, ListS, ListB, ListU, ListJ, Reg, Take, FormatOf, IsBranch, IsLoadOp, IsStoreOp, IsImmOp, IsShiftImm, IsRegOp, IsMulOp, IsAtomic, IsPriv, IsCsrOp;
    AllAgree(i);
    PrivYields(Funct12(i));
    FormatBare(PrivOp(Funct12(i)));
  }
  lemma OtherOpcodesAreIllegal(i: Word)
    requires !EarlyOpcode(Opcode(i)) && Opcode(i) != OP_REG && Opcode(i) != OP_AMO && Opcode(i) != OP_SYSTEM && Opcode(i) != OP_FENCE
    ensures Decode32(i).op.ILLEGAL?
  {
    hide Opcode, Funct3, Funct7, Funct5, Funct12;
  }

  /** Every word that is not illegal decodes to its operation with its operands where the listings put
      them, the other fields 0, and the word itself kept. */
  lemma OperandsByListing(i: Word)
    requires !Decode32(i).op.ILLEGAL?
    ensures Decode32(i) == Listed(i, Decode32(i).op)
  {
    hide Decode32, Listed, Opcode, Funct3, Funct7;
    var k := Opcode(i);
    if k == OP_BRANCH {
      OperandsBranch(i);
    } else if k == OP_LOAD {
      OperandsLoad(i);
    } else if k == OP_STORE {
      OperandsStore(i);
    } else if k == OP_IMM {
      OperandsImm(i);
    } else if k == OP_REG {
      OperandsReg(i);
    } else if k == OP_AMO {
      OperandsAtomic(i);
    } else if k == OP_FENCE {
      OperandsFence(i);
    } else if k == OP_SYSTEM {
      if Funct3(i) != 0 {
        OperandsCsr(i);
      } else if Funct7(i) == F7_SFENCE_VMA {
        OperandsSfence(i);
      } else {
        OperandsPriv(i);
      }
    } else if EarlyOpcode(k) {
      OperandsUpper(i);
    } else {
      OtherOpcodesAreIllegal(i);
    }
  }

  /** Words whose low bits are 11 go to this decoder as they are; all rows are such words. */
  lemma WordsAreListed(i: Word, op: InstrType)
    requires i & 3 == 3 && !op.ILLEGAL?
    ensures DecodeInstr(i).op == op <==> Matches(i, op)
    ensures DecodeInstr(i).op == op ==> DecodeInstr(i) == Listed(i, op)
  {
    hide Decode32, Matches, Listed, Expand;
    DecodesByListing(i, op);
    if Decode32(i).op == op { OperandsByListing(i); }
  }
}
