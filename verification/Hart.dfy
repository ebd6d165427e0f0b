/** The instruction-set simulator as a state machine: `execute` (src/cpu/execute.cpp) and one
    iteration of the loop of ISS::run (src/cpu/iss.cpp:101-185), without timing. */
module Hart {
  import opened Rv32
  import opened Decode
  import opened Phys
  import opened Mmu
  import opened Csr
  import opened Trap
  import Numbers
  import MulDiv

  /** A register number. */
  datatype Reg = X(n: Word)
  /** The register file; a register never written holds 0. */
  type Regs = map<Reg, Word>

  function GetReg(r: Regs, i: Word): Word { if i == 0 || X(i) !in r then 0 else r[X(i)] }
  function SetReg(r: Regs, i: Word, v: Word): Regs { if i == 0 then r else r[X(i) := v] }

  /** The LR/SC reservation (src/cpu/rv32a.h:7-14). */
  datatype Reservation = Reservation(addr: Word, valid: bool) {
    function Set(a: Word): Reservation { Reservation(a & 0xFFFF_FFFC, true) }
    function Clear(): Reservation { this.(valid := false) }
    predicate Check(a: Word) { valid && addr == a & 0xFFFF_FFFC }
  }

  /** CPUState with the memory and the translation cache it works on. */
  datatype Hart = Hart(core: Core, regs: Regs, lr: Reservation, ram: Ram, tlb: Tlb)

  /** What the surroundings decide during one step: device answers and evicted TLB entries. */
  datatype Env = Env(io: Io, pick: Picker)

  /** mem_fault_ and its cause and address. */
  datatype Fault = NoFault | Faulted(cause: Word, va: Word)

  // ---- data accesses: the mem.read and mem.write closures (iss.cpp:27-59) ----

  function EffectivePriv(c: Core): Word {
    if c.priv == PRV_M && Bit(c.csr.mstatus, MSTATUS_MPRV) then MppOf(c.csr.mstatus) else c.priv
  }
  predicate DataMmuActive(c: Core) { Sv32On(c.csr.s.satp) && EffectivePriv(c) < 3 }
  predicate FetchMmuActive(c: Core) { Sv32On(c.csr.s.satp) && c.priv < 3 }

  ghost function TranslateData(h: Hart, env: Env, va: Word, acc: Access): Outcome {
    if DataMmuActive(h.core)
    then Translate(h.ram, env.io, h.tlb, env.pick, h.core.csr.s.satp, va, acc, EffectivePriv(h.core), h.core.csr.mstatus)
    else Outcome(Mapped(va), h.ram, h.tlb)
  }

  datatype ReadOutcome = ReadOutcome(h: Hart, value: Word, fault: Fault)

  ghost function ReadData(h: Hart, env: Env, va: Word, sz: Size): ReadOutcome {
    var o := TranslateData(h, env, va, LOAD);
    var h' := h.(ram := o.ram, tlb := o.tlb);
    match o.result
    case PageFault(cause) => ReadOutcome(h', 0, Faulted(cause, va))
    case Mapped(p) => ReadOutcome(h', Load(o.ram, env.io, p, sz), NoFault)
  }

  datatype WriteOutcome = WriteOutcome(h: Hart, fault: Fault)

  ghost function WriteData(h: Hart, env: Env, va: Word, v: Word, sz: Size): WriteOutcome {
    var o := TranslateData(h, env, va, STORE);
    match o.result
    case PageFault(cause) => WriteOutcome(h.(ram := o.ram, tlb := o.tlb), Faulted(cause, va))
    case Mapped(p) => WriteOutcome(h.(ram := Store(o.ram, p, v, sz), tlb := o.tlb), NoFault)
  }

  // ---- operations without memory or control effects ----

  function ToU(x: Word): MulDiv.U32 { Numbers.Uint(x) as MulDiv.U32 }
  function OfU(x: MulDiv.U32): Word { Numbers.OfUint(x as int) }

  // The register cases of the switch, by group.
  predicate IsCompare(op: InstrType) { op.SLTI? || op.SLT? || op.SLTIU? || op.SLTU? }
  predicate IsBitwise(op: InstrType) { op.XORI? || op.XOR? || op.ORI? || op.OR? || op.ANDI? || op.AND? }
  predicate IsShift(op: InstrType) { op.SLLI? || op.SLL? || op.SRLI? || op.SRL? || op.SRAI? || op.SRA? }
  predicate IsProduct(op: InstrType) { op.MUL? || op.MULH? || op.MULHSU? || op.MULHU? }
  predicate IsDivision(op: InstrType) { op.DIV? || op.DIVU? || op.REM? || op.REMU? }

  function SumResult(op: InstrType, imm: Word, pc: Word, a: Word, b: Word): Word {
    if op.LUI? then imm
    else if op.AUIPC? then Sum(pc, imm)
    else if op.ADDI? then Sum(a, imm)
    else if op.ADD? then Sum(a, b)
    else if op.SUB? then Numbers.Difference(a, b)
    else 0
  }
  function Flag(c: bool): Word { if c then 1 else 0 }
  function CompareResult(op: InstrType, imm: Word, a: Word, b: Word): Word {
    if op.SLTI? then Flag(SLt(a, imm))
    else if op.SLT? then Flag(SLt(a, b))
    else if op.SLTIU? then Flag(Numbers.Less(a, imm))
    else Flag(Numbers.Less(a, b))
  }
  function BitwiseResult(op: InstrType, imm: Word, a: Word, b: Word): Word {
    if op.XORI? then Numbers.Xor(a, imm)
    else if op.XOR? then Numbers.Xor(a, b)
    else if op.ORI? then Numbers.Or(a, imm)
    else if op.OR? then Numbers.Or(a, b)
    else if op.ANDI? then Numbers.And(a, imm)
    else Numbers.And(a, b)
  }
  /** Shift amounts are the low five bits. */
  function ShiftResult(op: InstrType, imm: Word, a: Word, b: Word): Word {
    if op.SLLI? then Numbers.Shl(a, Numbers.Low5(imm))
    else if op.SLL? then Numbers.Shl(a, Numbers.Low5(b))
    else if op.SRLI? then Numbers.Shr(a, Numbers.Low5(imm))
    else if op.SRL? then Numbers.Shr(a, Numbers.Low5(b))
    else if op.SRAI? then Sra(a, imm)
    else Sra(a, b)
  }
  function ProductResult(op: InstrType, a: MulDiv.U32, b: MulDiv.U32): MulDiv.U32 {
    if op.MUL? then MulDiv.Mul(a, b)
    else if op.MULH? then MulDiv.Mulh(a, b)
    else if op.MULHSU? then MulDiv.Mulhsu(a, b)
    else MulDiv.Mulhu(a, b)
  }
  function DivisionResult(op: InstrType, a: MulDiv.U32, b: MulDiv.U32): MulDiv.U32 {
    if op.DIV? then MulDiv.Div(a, b)
    else if op.DIVU? then MulDiv.Divu(a, b)
    else if op.REM? then MulDiv.Rem(a, b)
    else MulDiv.Remu(a, b)
  }

  function AluResult(op: InstrType, imm: Word, pc: Word, a: Word, b: Word): Word {
    if IsCompare(op) then CompareResult(op, imm, a, b)
    else if IsBitwise(op) then BitwiseResult(op, imm, a, b)
    else if IsShift(op) then ShiftResult(op, imm, a, b)
    else if IsProduct(op) then OfU(ProductResult(op, ToU(a), ToU(b)))
    else if IsDivision(op) then OfU(DivisionResult(op, ToU(a), ToU(b)))
    else SumResult(op, imm, pc, a, b)
  }

  predicate Taken(op: InstrType, a: Word, b: Word) {
    match op
    case BEQ => a == b
    case BNE => a != b
    case BLT => SLt(a, b)
    case BGE => !SLt(a, b)
    case BLTU => Numbers.Less(a, b)
    case BGEU => !Numbers.Less(a, b)
    case _ => false
  }

  /** The read-modify-write functions of src/cpu/rv32a.h:18-33. */
  function AmoResult(op: InstrType, mem: Word, b: Word): Word {
    match op
    case AMOSWAP_W => b
    case AMOADD_W => Sum(mem, b)
    case AMOXOR_W => Numbers.Xor(mem, b)
    case AMOAND_W => Numbers.And(mem, b)
    case AMOOR_W => Numbers.Or(mem, b)
    case AMOMIN_W => if SLt(b, mem) then b else mem
    case AMOMAX_W => if SLt(mem, b) then b else mem
    case AMOMINU_W => if Numbers.Less(b, mem) then b else mem
    case AMOMAXU_W => if Numbers.Less(mem, b) then b else mem
    case _ => 0
  }

  /** Sign extension of a loaded byte or halfword. */
  function Extend(op: InstrType, v: Word): Word {
    match op
    case LB => SignFill(v & 0xFF, 0x80, 0xFFFF_FF00)
    case LH => SignFill(v & 0xFFFF, 0x8000, 0xFFFF_0000)
    case LBU => v & 0xFF
    case LHU => v & 0xFFFF
    case _ => v
  }

  // ---- execute ----

  /** How `execute` treats an operation. */
  datatype Kind =
    | KAlu | KJal | KJalr | KBranch | KLoad(sz: Size) | KStore(sz: Size) | KLr | KSc | KAmo
    | KCsr | KEcall | KEbreak | KMret | KSret | KSfence | KNop | KIllegal

  function KindOf(op: InstrType): Kind {
    match op
    case JAL => KJal
    case JALR => KJalr
    case BEQ => KBranch case BNE => KBranch case BLT => KBranch
    case BGE => KBranch case BLTU => KBranch case BGEU => KBranch
    case LB => KLoad(Byte) case LBU => KLoad(Byte)
    case LH => KLoad(Half) case LHU => KLoad(Half)
    case LW => KLoad(Whole)
    case SB => KStore(Byte) case SH => KStore(Half) case SW => KStore(Whole)
    case LR_W => KLr
    case SC_W => KSc
    case AMOSWAP_W => KAmo case AMOADD_W => KAmo case AMOXOR_W => KAmo case AMOAND_W => KAmo case AMOOR_W => KAmo
    case AMOMIN_W => KAmo case AMOMAX_W => KAmo case AMOMINU_W => KAmo case AMOMAXU_W => KAmo
    case CSRRW => KCsr case CSRRS => KCsr case CSRRC => KCsr
    case CSRRWI => KCsr case CSRRSI => KCsr case CSRRCI => KCsr
    case ECALL => KEcall
    case EBREAK => KEbreak
    case MRET => KMret
    case SRET => KSret
    case SFENCE_VMA => KSfence
    case FENCE => KNop case FENCEI => KNop case WFI => KNop
    case URET => KIllegal case ILLEGAL => KIllegal
    case _ => KAlu
  }

  datatype Exc = NoExc | Exc(cause: Word, tval: Word)

  /** What `execute` leaves: the new state, the last page fault of its accesses, its own
      exception, and whether the TLB is to be flushed. */
  datatype Exec = Exec(h: Hart, fault: Fault, exc: Exc, sfence: bool)

  function Done(h: Hart): Exec { Exec(h, NoFault, NoExc, false) }
  function Raise(h: Hart, cause: Word, tval: Word): Exec { Exec(h, NoFault, Exc(cause, tval), false) }

  function WithRd(h: Hart, d: Decoded, v: Word): Hart { h.(regs := SetReg(h.regs, d.rd, v)) }
  function WithNext(h: Hart, pc: Word): Hart { h.(core := h.core.(nextPc := pc)) }
  function WithCsr(h: Hart, c: Csrs): Hart { h.(core := h.core.(csr := c)) }

  predicate MisalignedFor(va: Word, sz: Size) {
    match sz case Byte => false case Half => va & 1 != 0 case Whole => va & 3 != 0
  }

  ghost function ExecLoad(h: Hart, d: Decoded, env: Env, va: Word, sz: Size): Exec {
    if MisalignedFor(va, sz) then Raise(h, CAUSE_MISALIGNED_LOAD, va)
    else
      var r := ReadData(h, env, va, sz);
      Exec(WithRd(r.h, d, Extend(d.op, r.value)), r.fault, NoExc, false)
  }

  ghost function ExecStore(h: Hart, d: Decoded, env: Env, va: Word, v: Word, sz: Size): Exec {
    if MisalignedFor(va, sz) then Raise(h, CAUSE_MISALIGNED_STORE, va)
    else
      var w := WriteData(h, env, va, v & Mask(sz), sz);
      Exec(w.h.(lr := w.h.lr.Clear()), w.fault, NoExc, false)
  }

  ghost function ExecLr(h: Hart, d: Decoded, env: Env, va: Word): Exec {
    if MisalignedFor(va, Whole) then Raise(h, CAUSE_MISALIGNED_LOAD, va)
    else
      var r := ReadData(h, env, va, Whole);
      Exec(WithRd(r.h, d, r.value).(lr := r.h.lr.Set(va)), r.fault, NoExc, false)
  }

  ghost function ExecSc(h: Hart, d: Decoded, env: Env, va: Word, v: Word): Exec {
    if MisalignedFor(va, Whole) then Raise(h, CAUSE_MISALIGNED_STORE, va)
    else if h.lr.Check(va) then
      var w := WriteData(h, env, va, v, Whole);
      Exec(WithRd(w.h, d, 0).(lr := w.h.lr.Clear()), w.fault, NoExc, false)
    else
      Exec(WithRd(h, d, 1).(lr := h.lr.Clear()), NoFault, NoExc, false)
  }

  /** The load half runs first, even when it faults; the store half's fault replaces its fault. */
  ghost function ExecAmo(h: Hart, d: Decoded, env: Env, va: Word, v: Word): Exec {
    if MisalignedFor(va, Whole) then Raise(h, CAUSE_MISALIGNED_STORE, va)
    else
      var r := ReadData(h, env, va, Whole);
      var w := WriteData(WithRd(r.h, d, r.value), env, va, AmoResult(d.op, r.value, v), Whole);
      Exec(w.h, if w.fault.NoFault? then r.fault else w.fault, NoExc, false)
  }

  /** The operand of a CSR instruction: a register, or the 5-bit rs1 field itself. */
  function CsrOperand(op: InstrType, rs1: Word, a: Word): Word {
    if op.CSRRWI? || op.CSRRSI? || op.CSRRCI? then rs1 else a
  }
  predicate CsrReads(op: InstrType, rd: Word) { !(op.CSRRW? || op.CSRRWI?) || rd != 0 }
  predicate CsrWrites(op: InstrType, rs1: Word) { op.CSRRW? || op.CSRRWI? || rs1 != 0 }
  function CsrNew(op: InstrType, old_: Word, src: Word): Word {
    if op.CSRRW? || op.CSRRWI? then src
    else if op.CSRRS? || op.CSRRSI? then Numbers.Or(old_, src)
    else Numbers.And(old_, Numbers.Not(src))
  }

  /** Read, rd, then write: a refused write leaves rd already changed. */
  function ExecCsr(h: Hart, d: Decoded, a: Word): Exec {
    var c := h.core.csr;
    var r := CsrRead(c, d.csr, h.core.priv);
    if CsrReads(d.op, d.rd) && r.Refused? then Raise(h, CAUSE_ILLEGAL_INSTR, d.raw)
    else
      var was := if r.Value? then r.v else 0;
      var h1 := if CsrReads(d.op, d.rd) then WithRd(h, d, was) else h;
      if !CsrWrites(d.op, d.rs1) then Done(h1)
      else
        CsrCommit(h1, d, CsrWrite(c, d.csr, h.core.priv, CsrNew(d.op, was, CsrOperand(d.op, d.rs1, a))))
  }

  function CsrCommit(h: Hart, d: Decoded, w: Written): Exec {
    match w
    case NotWritten => Raise(h, CAUSE_ILLEGAL_INSTR, d.raw)
    case Written(c) => Done(WithCsr(h, c).(tlb := if Flushes(d.csr) then map[] else h.tlb))
  }

  predicate SfenceAllowed(c: Core) {
    c.priv >= PRV_S && !(Bit(c.csr.mstatus, MSTATUS_TVM) && c.priv == PRV_S)
  }

  function EcallCause(priv: Word): Word {
    if priv == PRV_U then CAUSE_ECALL_U else if priv == PRV_S then CAUSE_ECALL_S else CAUSE_ECALL_M
  }

  function JalrTarget(a: Word, imm: Word): Word { Numbers.EvenPart(Sum(a, imm)) }

  predicate IsMemory(k: Kind) { k.KLoad? || k.KStore? || k.KLr? || k.KSc? || k.KAmo? }

  /** The cases that access data memory; a and b are the values of rs1 and rs2. */
  ghost function ExecMemory(h: Hart, d: Decoded, env: Env, a: Word, b: Word): Exec
    requires IsMemory(KindOf(d.op))
  {
    match KindOf(d.op)
    case KLoad(sz) => ExecLoad(h, d, env, Sum(a, d.imm), sz)
    case KStore(sz) => ExecStore(h, d, env, Sum(a, d.imm), b, sz)
    case KLr => ExecLr(h, d, env, a)
    case KSc => ExecSc(h, d, env, a, b)
    case KAmo => ExecAmo(h, d, env, a, b)
  }

  function JumpTarget(h: Hart, d: Decoded, a: Word, b: Word): Word {
    match KindOf(d.op)
    case KJal => Sum(h.core.pc, d.imm)
    case KJalr => JalrTarget(a, d.imm)
    case _ => if Taken(d.op, a, b) then Sum(h.core.pc, d.imm) else h.core.nextPc
  }

  /** Jumps link the sequential pc, which next_pc already holds; branches do not link. */
  function ExecJump(h: Hart, d: Decoded, a: Word, b: Word): Exec {
    Done(WithNext(if KindOf(d.op).KBranch? then h else WithRd(h, d, h.core.nextPc), JumpTarget(h, d, a, b)))
  }

  function ExecReturn(h: Hart, d: Decoded): Exec {
    if KindOf(d.op).KMret? then
      if MretAllowed(h.core) then Done(h.(core := Mret(h.core))) else Raise(h, CAUSE_ILLEGAL_INSTR, d.raw)
    else if SretAllowed(h.core) then Done(h.(core := Sret(h.core)))
    else Raise(h, CAUSE_ILLEGAL_INSTR, d.raw)
  }

  /** ECALL, EBREAK, the fences, WFI and illegal instructions. */
  function ExecSystem(h: Hart, d: Decoded): Exec {
    var k := KindOf(d.op);
    if k.KEcall? then Raise(h, EcallCause(h.core.priv), 0)
    else if k.KEbreak? then Raise(h, CAUSE_BREAKPOINT, h.core.pc)
    else if k.KSfence? && SfenceAllowed(h.core) then Exec(h, NoFault, NoExc, true)
    else if k.KNop? then Done(h)
    else Raise(h, CAUSE_ILLEGAL_INSTR, d.raw)
  }

  /** The cases that do not access data memory. */
  function ExecControl(h: Hart, d: Decoded, a: Word, b: Word): Exec {
    var k := KindOf(d.op);
    if k.KAlu? then Done(WithRd(h, d, AluResult(d.op, d.imm, h.core.pc, a, b)))
    else if k.KJal? || k.KJalr? || k.KBranch? then ExecJump(h, d, a, b)
    else if k.KCsr? then ExecCsr(h, d, a)
    else if k.KMret? || k.KSret? then ExecReturn(h, d)
    else ExecSystem(h, d)
  }

  /** s.next_pc is first set to the sequential pc. */
  function Sequential(h: Hart, d: Decoded): Hart { WithNext(h, Sum(h.core.pc, d.Len())) }

  /** `execute`. */
  ghost function Execute(hart: Hart, d: Decoded, env: Env): Exec {
    var h := Sequential(hart, d);
    var a, b := GetReg(h.regs, d.rs1), GetReg(h.regs, d.rs2);
    if IsMemory(KindOf(d.op)) then ExecMemory(h, d, env, a, b) else ExecControl(h, d, a, b)
  }

  // ---- one iteration of the loop ----

  /** Enter a trap handler and go there. */
  function Trapped(h: Hart, cause: Word, tval: Word): Hart { h.(core := Advance(TakeTrap(h.core, cause, tval))) }
  function Advance(c: Core): Core { c.(pc := c.nextPc) }

  /** What follows `execute`: a page fault traps; otherwise the counters tick, an exception traps,
      SFENCE.VMA flushes, and the pc moves on. */
  function Retire(x: Exec): Hart {
    match x.fault
    case Faulted(cause, va) => Trapped(x.h, cause, va)
    case NoFault =>
      var h := WithCsr(x.h, Tick(x.h.core.csr));
      var h1 := h.(tlb := if x.sfence then map[] else h.tlb);
      if x.exc.Exc? then Trapped(h1, x.exc.cause, x.exc.tval) else h1.(core := Advance(h1.core))
  }

  ghost function FetchOutcome(h: Hart, env: Env): Outcome {
    if FetchMmuActive(h.core)
    then Translate(h.ram, env.io, h.tlb, env.pick, h.core.csr.s.satp, h.core.pc, FETCH, h.core.priv, h.core.csr.mstatus)
    else Outcome(Mapped(h.core.pc), h.ram, h.tlb)
  }

  predicate TakesInterrupt(h: Hart) { PendingInterrupt(h.core.priv, h.core.csr) != 0 }

  /** The instruction a step executes, once its fetch is translated. */
  ghost function Fetched(h: Hart, env: Env): Decoded
    requires FetchOutcome(h, env).result.Mapped?
  {
    var o := FetchOutcome(h, env);
    DecodeInstr(Load(o.ram, env.io, o.result.paddr, Whole))
  }

  function WithMemory(h: Hart, o: Outcome): Hart { h.(ram := o.ram, tlb := o.tlb) }

  /** The result of `execute` in a step whose fetch is translated. */
  ghost function Executed(h: Hart, env: Env): Exec
    requires FetchOutcome(h, env).result.Mapped?
  {
    Execute(WithMemory(h, FetchOutcome(h, env)), Fetched(h, env), env)
  }

  /** The step executes this instruction, with no interrupt or fetch fault in its way. */
  ghost predicate Executes(h: Hart, env: Env, op: InstrType) {
    !TakesInterrupt(h) && FetchOutcome(h, env).result.Mapped? && Fetched(h, env).op == op
  }

  /** Fetch, decode and execute one instruction, from a state that takes no interrupt. */
  ghost function Instruction(h: Hart, env: Env): Hart {
    var o := FetchOutcome(h, env);
    match o.result
    case PageFault(cause) => Trapped(WithMemory(h, o), cause, h.core.pc)
    case Mapped(_) => Retire(Executed(h, env))
  }

  ghost function Step(h: Hart, env: Env): Hart {
    if TakesInterrupt(h) then Trapped(h, PendingInterrupt(h.core.priv, h.core.csr), 0)
    else if !Even(h.core.pc) then Trapped(h, CAUSE_MISALIGNED_FETCH, h.core.pc)
    else Instruction(h, env)
  }

  function TrapOfExec(x: Exec): Exc {
    match x.fault case Faulted(cause, va) => Exc(cause, va) case NoFault => x.exc
  }

  /** The trap a step takes, if any: cause and trap value. */
  ghost function TrapOf(h: Hart, env: Env): Exc {
    if TakesInterrupt(h) then Exc(PendingInterrupt(h.core.priv, h.core.csr), 0)
    else if !Even(h.core.pc) then Exc(CAUSE_MISALIGNED_FETCH, h.core.pc)
    else
      match FetchOutcome(h, env).result
      case PageFault(cause) => Exc(cause, h.core.pc)
      case Mapped(_) => TrapOfExec(Executed(h, env))
  }

  // ---- runs: the hart interleaved with devices and other bus masters ----

  datatype Event =
    | Cpu(env: Env)                       // one iteration of ISS::run
    | Device(hw: Word)                    // a device changes the hardware-driven mip bits
    | Master(a: Word, v: Word, sz: Size)  // DMA or the SD controller writes memory

  ghost function After(h: Hart, e: Event): Hart {
    match e
    case Cpu(env) => Step(h, env)
    case Device(hw) => WithCsr(h, h.core.csr.(hwMip := hw))
    case Master(a, v, sz) => h.(ram := Store(h.ram, a, v, sz))
  }

  ghost function Run(h: Hart, es: seq<Event>): Hart
    decreases |es|
  {
    if es == [] then h else Run(After(h, es[0]), es[1..])
  }
}
