/** Machine words, instruction fields, immediates and the privileged-architecture constants
    of src/cpu/rv32_defs.h, with the decoded-instruction record of src/cpu/decode.h. */
module Rv32 {

  /** A 32-bit machine word; every operation on it wraps like uint32_t. */
  type Word = bv32

  /** Some bit of the mask is set. */
  predicate Bit(x: Word, mask: Word) { x & mask != 0 }
  /** Bit number k is set. */
  predicate OneBit(x: Word, k: bv5) { (x >> k) & 1 == 1 }

  // ---- major opcodes ----
  const OP_LUI: Word := 0x37
  const OP_AUIPC: Word := 0x17
  const OP_JAL: Word := 0x6F
  const OP_JALR: Word := 0x67
  const OP_BRANCH: Word := 0x63
  const OP_LOAD: Word := 0x03
  const OP_STORE: Word := 0x23
  const OP_IMM: Word := 0x13
  const OP_REG: Word := 0x33
  const OP_FENCE: Word := 0x0F
  const OP_SYSTEM: Word := 0x73
  const OP_AMO: Word := 0x2F

  // ---- funct7 ----
  const F7_NORMAL: Word := 0x00
  const F7_ALT: Word := 0x20
  const F7_MULDIV: Word := 0x01
  const F7_SFENCE_VMA: Word := 0x09

  // ---- privilege levels ----
  const PRV_U: Word := 0
  const PRV_S: Word := 1
  const PRV_M: Word := 3

  // ---- mstatus ----
  const MSTATUS_SIE: Word := 0x2
  const MSTATUS_MIE: Word := 0x8
  const MSTATUS_SPIE: Word := 0x20
  const MSTATUS_MPIE: Word := 0x80
  const MSTATUS_SPP: Word := 0x100
  const MSTATUS_MPP_MASK: Word := 0x1800
  const MSTATUS_MPRV: Word := 0x2_0000
  const MSTATUS_SUM: Word := 0x4_0000
  const MSTATUS_MXR: Word := 0x8_0000
  const MSTATUS_TVM: Word := 0x10_0000
  const MSTATUS_TSR: Word := 0x40_0000

  /** SIE MIE SPIE MPIE SPP MPP MPRV SUM MXR TVM TW TSR (csr.h:78-82). */
  const MSTATUS_WRITE_MASK: Word := 0x7E_19AA
  /** SIE SPIE SPP SUM MXR (csr.h:85-86). */
  const SSTATUS_MASK: Word := 0xC_0122
  /** SSIP STIP SEIP (csr.h:89-90). */
  const S_INT_MASK: Word := 0x222

  // ---- exception causes ----
  const CAUSE_MISALIGNED_FETCH: Word := 0
  const CAUSE_ILLEGAL_INSTR: Word := 2
  const CAUSE_BREAKPOINT: Word := 3
  const CAUSE_MISALIGNED_LOAD: Word := 4
  const CAUSE_MISALIGNED_STORE: Word := 6
  const CAUSE_ECALL_U: Word := 8
  const CAUSE_ECALL_S: Word := 9
  const CAUSE_ECALL_M: Word := 11
  const CAUSE_FETCH_PAGE_FAULT: Word := 12
  const CAUSE_LOAD_PAGE_FAULT: Word := 13
  const CAUSE_STORE_PAGE_FAULT: Word := 15
  const INT_BIT: Word := 0x8000_0000

  // ---- Sv32 ----
  const SATP_PPN_MASK: Word := 0x003F_FFFF
  const PTE_V: Word := 0x01
  const PTE_R: Word := 0x02
  const PTE_W: Word := 0x04
  const PTE_X: Word := 0x08
  const PTE_U: Word := 0x10
  const PTE_A: Word := 0x40
  const PTE_D: Word := 0x80

  // ---- instruction fields ----
  function Opcode(i: Word): Word { i & 0x7F }
  function Rd(i: Word): Word { (i >> 7) & 0x1F }
  function Funct3(i: Word): Word { (i >> 12) & 0x7 }
  function Rs1(i: Word): Word { (i >> 15) & 0x1F }
  function Rs2(i: Word): Word { (i >> 20) & 0x1F }
  function Funct7(i: Word): Word { (i >> 25) & 0x7F }
  function Funct5(i: Word): Word { (i >> 27) & 0x1F }
  function Funct12(i: Word): Word { (i >> 20) & 0xFFF }

  // ---- signed views of a word ----
  predicate Negative(x: Word) { x & 0x8000_0000 != 0 }

  /** Signed less-than. */
  predicate SLt(a: Word, b: Word) { (a ^ 0x8000_0000) < (b ^ 0x8000_0000) }

  /** Arithmetic right shift by the low five bits of n. */
  function Sra(a: Word, n: Word): Word {
    if Negative(a) then !((!a) >> (n & 0x1F)) else a >> (n & 0x1F)
  }

  /** Sets every bit of `ext` when the sign bit selected by `sign` is set. */
  function SignFill(x: Word, sign: Word, ext: Word): Word {
    if x & sign != 0 then x | ext else x
  }

  /** Address arithmetic modulo 2^32, named so that proofs about control flow can treat it as a whole. */
  function Sum(x: Word, y: Word): Word { x + y }

  // ---- sign-extended immediates ----
  function ImmI(i: Word): Word { (if Negative(i) then 0xFFFF_F000 else 0) | (i >> 20) }
  function ImmS(i: Word): Word {
    (if Negative(i) then 0xFFFF_F000 else 0) | ((i >> 20) & 0xFE0) | ((i >> 7) & 0x1F)
  }
  function ImmB(i: Word): Word {
    (if Negative(i) then 0xFFFF_F000 else 0) | ((i & 0x80) << 4) | ((i >> 20) & 0x7E0) | ((i >> 7) & 0x1E)
  }
  function ImmU(i: Word): Word { i & 0xFFFF_F000 }
  function ImmJ(i: Word): Word {
    (if Negative(i) then 0xFFF0_0000 else 0) | (i & 0xF_F000) | ((i >> 9) & 0x800) | ((i >> 20) & 0x7FE)
  }

  // ---- decoded instructions ----
  datatype InstrType =
    | LUI | AUIPC | JAL | JALR
    | BEQ | BNE | BLT | BGE | BLTU | BGEU
    | LB | LH | LW | LBU | LHU
    | SB | SH | SW
    | ADDI | SLTI | SLTIU | XORI | ORI | ANDI | SLLI | SRLI | SRAI
    | ADD | SUB | SLL | SLT | SLTU | XOR | SRL | SRA | OR | AND
    | MUL | MULH | MULHSU | MULHU | DIV | DIVU | REM | REMU
    | LR_W | SC_W
    | AMOSWAP_W | AMOADD_W | AMOXOR_W | AMOAND_W | AMOOR_W
    | AMOMIN_W | AMOMAX_W | AMOMINU_W | AMOMAXU_W
    | ECALL | EBREAK | MRET | SRET | URET | WFI | SFENCE_VMA
    | CSRRW | CSRRS | CSRRC | CSRRWI | CSRRSI | CSRRCI
    | FENCE | FENCEI
    | ILLEGAL

  datatype Decoded = Decoded(
    op: InstrType, rd: Word, rs1: Word, rs2: Word, imm: Word, csr: Word, raw: Word, compressed: bool)
  {
    function Len(): Word { if compressed then 2 else 4 }
  }
}
