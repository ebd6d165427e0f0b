/** The CSRs bit by bit and address by address, and the CSR instructions over them
    (src/cpu/csr.cpp:12-139, src/cpu/csr.h:77-90, src/cpu/execute.cpp:178-246). */
module CsrRules {
  import opened Rv32
  import opened Csr
  import opened Trap
  import opened Hart
  import opened Instructions
  import opened Listing
  import Numbers

  // ---- masks ----

  /** SIE, MIE, SPIE, MPIE, SPP, MPRV, SUM, MXR, TVM, TW, TSR. */
  predicate IsPlainStatusBit(k: bv5) { k == 1 || k == 3 || k == 5 || k == 7 || k == 8 || (17 <= k && k <= 22) }
  /** SIE, SPIE, SPP, SUM, MXR. */
  predicate IsSstatusBit(k: bv5) { k == 1 || k == 5 || k == 8 || k == 18 || k == 19 }
  /** SSIP, STIP, SEIP. */
  predicate IsSupervisorInt(k: bv5) { k == 1 || k == 5 || k == 9 }

  lemma PlainStatusBits(v: Word, k: bv5)
    requires IsPlainStatusBit(k)
    ensures OneBit(LegalStatus(v), k) <==> OneBit(v, k)
  {}
  lemma MppBits(v: Word)
    ensures OneBit(LegalStatus(v), 11) <==> OneBit(v, 11)
    ensures OneBit(LegalStatus(v), 12) <==> OneBit(v, 12) && OneBit(v, 11)
  {}
  lemma FixedStatusBits(v: Word, k: bv5)
    requires !IsPlainStatusBit(k) && k != 11 && k != 12
    ensures !OneBit(LegalStatus(v), k)
  {}
  /** A write to mstatus keeps the writable bits; MPP = 2, bit 12 without bit 11, becomes 0. */
  lemma StatusBits(v: Word, k: bv5)
    ensures OneBit(LegalStatus(v), k) <==>
      (OneBit(v, k) && if k == 12 then OneBit(v, 11) else k == 11 || IsPlainStatusBit(k))
  {
    hide OneBit, LegalStatus;
    if k == 11 || k == 12 {
      MppBits(v);
    } else if IsPlainStatusBit(k) {
      PlainStatusBits(v, k);
    } else {
      FixedStatusBits(v, k);
    }
  }
  lemma ShownStatusBits(s: Word, k: bv5)
    ensures OneBit(ShowStatus(s), k) <==> OneBit(s, k) && IsSstatusBit(k)
  {}
  lemma MergedSstatusBits(s: Word, v: Word, k: bv5)
    requires IsSstatusBit(k)
    ensures OneBit(MergeStatus(s, v), k) <==> OneBit(v, k)
  {}
  lemma MergedOtherBits(s: Word, v: Word, k: bv5)
    requires !IsSstatusBit(k)
    ensures OneBit(MergeStatus(s, v), k) <==> OneBit(s, k)
  {}
  /** A write through sstatus replaces its own bits and no others. */
  lemma MergedStatusBits(s: Word, v: Word, k: bv5)
    ensures OneBit(MergeStatus(s, v), k) <==> if IsSstatusBit(k) then OneBit(v, k) else OneBit(s, k)
  {
    hide OneBit, MergeStatus, IsSstatusBit;
    if IsSstatusBit(k) { MergedSstatusBits(s, v, k); } else { MergedOtherBits(s, v, k); }
  }
  lemma ShownIntBits(x: Word, k: bv5)
    ensures OneBit(ShowInts(x), k) <==> OneBit(x, k) && IsSupervisorInt(k)
  {}
  lemma MergedIntBits(x: Word, v: Word, k: bv5)
    ensures OneBit(MergeIe(x, v), k) <==> if IsSupervisorInt(k) then OneBit(v, k) else OneBit(x, k)
  {}
  lemma SsipBits(v: Word, k: bv5)
    ensures OneBit(Ssip(v), k) <==> OneBit(v, k) && k == 1
  {}
  lemma MipBits(sw: Word, hw: Word, k: bv5)
    ensures OneBit(JoinMip(sw, hw), k) <==> OneBit(sw, k) || OneBit(hw, k)
  {}
  lemma EpcBits(v: Word, k: bv5)
    ensures OneBit(ClearBit0(v), k) <==> OneBit(v, k) && k != 0
  {}

  // ---- who may use an address ----

  /** Bits 9:8 of the address are the lowest privilege. */
  lemma PrivilegeOfAddress(addr: Word, priv: Word)
    requires LegalPriv(priv)
    ensures PrivOk(addr, priv) <==> priv == PRV_M || (!OneBit(addr, 9) && (priv == PRV_S || !OneBit(addr, 8)))
  {}
  lemma ReadOnlyAddress(addr: Word)
    ensures ReadOnly(addr) <==> OneBit(addr, 11) && OneBit(addr, 10)
  {}

  // ---- what is at an address ----

  // The tables give the value and whether there is one.
  /** mstatus, mie and mip with their supervisor views. */
  predicate IsSharedAddr(a: Word) { a == 0x300 || a == 0x100 || a == 0x304 || a == 0x104 || a == 0x344 || a == 0x144 }
  function SharedAt(c: Csrs, a: Word): Word {
    if a == 0x300 then c.mstatus else if a == 0x100 then ShowStatus(c.mstatus)
    else if a == 0x304 then c.mie else if a == 0x104 then ShowInts(c.mie)
    else if a == 0x344 then JoinMip(c.swMip, c.hwMip) else ShowInts(JoinMip(c.swMip, c.hwMip))
  }
  predicate IsMachineAddr(a: Word) {
    a == 0x301 || a == 0x302 || a == 0x303 || a == 0x305 || a == 0x306 || (0x340 <= a && a <= 0x343)
  }
  function MachineAt(m: Machine, a: Word): Word {
    if a == 0x301 then m.misa else if a == 0x302 then m.medeleg else if a == 0x303 then m.mideleg
    else if a == 0x305 then m.mtvec else if a == 0x306 then m.mcounteren else if a == 0x340 then m.mscratch
    else if a == 0x341 then m.mepc else if a == 0x342 then m.mcause else m.mtval
  }
  predicate IsSupervisorAddr(a: Word) { a == 0x105 || a == 0x106 || (0x140 <= a && a <= 0x143) || a == 0x180 }
  function SupervisorAt(s: Supervisor, a: Word): Word {
    if a == 0x105 then s.stvec else if a == 0x106 then s.scounteren else if a == 0x140 then s.sscratch
    else if a == 0x141 then s.sepc else if a == 0x142 then s.scause else if a == 0x143 then s.stval else s.satp
  }
  predicate IsCounterAddr(a: Word) {
    || a == 0xB00 || a == 0xB80 || a == 0xB02 || a == 0xB82
    || a == 0xC00 || a == 0xC80 || a == 0xC01 || a == 0xC81 || a == 0xC02 || a == 0xC82
  }
  function CounterAt(k: Counters, a: Word): Word {
    if a == 0xB00 || a == 0xC00 || a == 0xC01 then k.mcycle
    else if a == 0xB80 || a == 0xC80 || a == 0xC81 then k.mcycleh
    else if a == 0xB02 || a == 0xC02 then k.minstret
    else k.minstreth
  }
  predicate IsConstantAddr(a: Word) { 0xF11 <= a && a <= 0xF14 }

  /** What is at an address. */
  function ValueAt(c: Csrs, a: Word): Value {
    if IsSharedAddr(a) then Value(SharedAt(c, a))
    else if IsMachineAddr(a) then Value(MachineAt(c.m, a))
    else if IsSupervisorAddr(a) then Value(SupervisorAt(c.s, a))
    else if IsCounterAddr(a) then Value(CounterAt(c.n, a))
    else if IsConstantAddr(a) then Value(0)
    else Refused
  }

  lemma SharedMap(c: Csrs, a: Word)
    requires IsSharedAddr(a)
    ensures IsShared(Named(a)) && SharedValue(c, Named(a)) == SharedAt(c, a)
  {
    hide JoinMip, ShowStatus, ShowInts;
  }
  lemma MachineMap(m: Machine, a: Word)
    requires IsMachineAddr(a)
    ensures IsMachineOwn(Named(a)) && MachineValue(m, Named(a)) == MachineAt(m, a)
  {}
  lemma SupervisorMap(s: Supervisor, a: Word)
    requires IsSupervisorAddr(a)
    ensures IsSupervisorOwn(Named(a)) && SupervisorValue(s, Named(a)) == SupervisorAt(s, a)
  {}
  lemma CounterMap(k: Counters, a: Word)
    requires IsCounterAddr(a)
    ensures IsCounter(Named(a)) && CounterValue(k, Named(a)) == CounterAt(k, a)
  {}
  lemma ConstantMap(a: Word)
    requires IsConstantAddr(a)
    ensures IsConstant(Named(a))
  {}
  lemma NothingElse(a: Word)
    requires !IsSharedAddr(a) && !IsMachineAddr(a) && !IsSupervisorAddr(a) && !IsCounterAddr(a) && !IsConstantAddr(a)
    ensures Named(a).NoCsr?
  {}

  // Names lie in one group each.
  lemma GroupsDiffer(n: CsrName)
    ensures IsMachineOwn(n) ==> !IsShared(n)
    ensures IsSupervisorOwn(n) ==> !IsShared(n) && !IsMachineOwn(n)
    ensures IsCounter(n) ==> !IsShared(n) && !IsMachineOwn(n) && !IsSupervisorOwn(n)
    ensures IsConstant(n) ==> !IsShared(n) && !IsMachineOwn(n) && !IsSupervisorOwn(n) && !IsCounter(n)
    ensures n.NoCsr? ==> !IsShared(n) && !IsMachineOwn(n) && !IsSupervisorOwn(n) && !IsCounter(n) && !IsConstant(n)
  {}

  /** A read gives what is at the address, to those with the privilege, and nothing else exists. */
  lemma ReadsByAddress(c: Csrs, addr: Word, priv: Word)
    ensures CsrRead(c, addr, priv) == if PrivOk(addr, priv) then ValueAt(c, addr) else Refused
  {
    hide Named, PrivOk, IsShared, IsMachineOwn, IsSupervisorOwn, IsCounter, IsConstant, SharedValue, MachineValue, SupervisorValue, CounterValue;
    hide IsSharedAddr, IsMachineAddr, IsSupervisorAddr, IsCounterAddr, IsConstantAddr, SharedAt, MachineAt, SupervisorAt, CounterAt;
    GroupsDiffer(Named(addr));
    if IsSharedAddr(addr) {
      SharedMap(c, addr);
    } else if IsMachineAddr(addr) {
      MachineMap(c.m, addr);
    } else if IsSupervisorAddr(addr) {
      SupervisorMap(c.s, addr);
    } else if IsCounterAddr(addr) {
      CounterMap(c.n, addr);
    } else if IsConstantAddr(addr) {
      ConstantMap(addr);
    } else {
      NothingElse(addr);
    }
  }

  // ---- a write reaches its own register only ----

  /** The storage behind a name; views and aliases share it. */
  function Cell(n: CsrName): CsrName {
    if n.Sstatus? then Mstatus else if n.Sie? then Mie else if n.Sip? then Mip
    else if n.Cycle? || n.Time? then Mcycle else if n.Cycleh? || n.Timeh? then Mcycleh
    else if n.Instret? then Minstret else if n.Instreth? then Minstreth
    else n
  }

  lemma StatusStays(s: Word, x: Word, y: Word, n: CsrName, v: Word)
    ensures Cell(n) != Mstatus ==> SetStatus(s, n, v) == s
    ensures Cell(n) != Mie ==> SetIe(x, n, v) == x
    ensures Cell(n) != Mip ==> SetSwMip(y, n, v) == y
  {
    hide LegalStatus, MergeStatus, MergeIe, Ssip;
  }
  lemma SharedUnread(c: Csrs, n: CsrName, n': CsrName, v: Word)
    requires WriteNamed(c, n, v).Written? && Cell(n) != Cell(n') && IsShared(n')
    ensures SharedValue(WriteNamed(c, n, v).c, n') == SharedValue(c, n')
  {
    hide SetStatus, SetIe, SetSwMip, SetMachine, SetSupervisor, SetCounters, JoinMip, ShowStatus, ShowInts, NoWriteCase;
    StatusStays(c.mstatus, c.mie, c.swMip, n, v);
  }
  lemma MachineUnread(m: Machine, n: CsrName, n': CsrName, v: Word)
    requires n != n' && IsMachineOwn(n')
    ensures MachineValue(SetMachine(m, n, v), n') == MachineValue(m, n')
  {
    hide ClearBit0;
  }
  lemma SupervisorUnread(s: Supervisor, n: CsrName, n': CsrName, v: Word)
    requires n != n' && IsSupervisorOwn(n')
    ensures SupervisorValue(SetSupervisor(s, n, v), n') == SupervisorValue(s, n')
  {
    hide ClearBit0;
  }
  lemma CounterUnread(k: Counters, n: CsrName, n': CsrName, v: Word)
    requires Cell(n) != Cell(n') && IsCounter(n')
    ensures CounterValue(SetCounters(k, n, v), n') == CounterValue(k, n')
  {}
  lemma OwnCells(n: CsrName, n': CsrName)
    requires Cell(n) != Cell(n')
    ensures n != n'
  {}
  lemma NamedUnread(c: Csrs, n: CsrName, n': CsrName, v: Word)
    requires WriteNamed(c, n, v).Written? && Cell(n) != Cell(n')
    ensures ReadNamed(WriteNamed(c, n, v).c, n') == ReadNamed(c, n')
  {
    hide Cell, SharedValue, MachineValue, SupervisorValue, CounterValue, SetStatus, SetIe, SetSwMip, SetMachine, SetSupervisor, SetCounters, NoWriteCase;
    hide IsShared, IsMachineOwn, IsSupervisorOwn, IsCounter, IsConstant;
    OwnCells(n, n');
    if IsShared(n') {
      SharedUnread(c, n, n', v);
    } else if IsMachineOwn(n') {
      MachineUnread(c.m, n, n', v);
    } else if IsSupervisorOwn(n') {
      SupervisorUnread(c.s, n, n', v);
    } else if IsCounter(n') {
      CounterUnread(c.n, n, n', v);
    }
  }

  /** Writing one register leaves every other register, at whatever address and privilege, as it reads. */
  lemma WritesStayInTheirCell(c: Csrs, addr: Word, priv: Word, v: Word, addr': Word, priv': Word)
    requires CsrWrite(c, addr, priv, v).Written? && Cell(Named(addr)) != Cell(Named(addr'))
    ensures CsrRead(CsrWrite(c, addr, priv, v).c, addr', priv') == CsrRead(c, addr', priv')
  {
    hide Named, PrivOk, ReadOnly, WriteNamed, ReadNamed, Cell;
    NamedUnread(c, Named(addr), Named(addr'), v);
  }

  // ---- the CSR instructions ----

  predicate IsImmediate(op: InstrType) { op.CSRRWI? || op.CSRRSI? || op.CSRRCI? }
  predicate IsReplace(op: InstrType) { op.CSRRW? || op.CSRRWI? }
  predicate IsSet(op: InstrType) { op.CSRRS? || op.CSRRSI? }

  /** The word offered to the register, bit by bit, from the old value and the operand. */
  ghost predicate OfferRule(op: InstrType, was: Word, src: Word, w: Word) {
    forall k: bv5 :: OneBit(w, k) <==>
      if IsReplace(op) then OneBit(src, k)
      else if IsSet(op) then OneBit(was, k) || OneBit(src, k)
      else OneBit(was, k) && !OneBit(src, k)
  }
  lemma OfferObeys(op: InstrType, was: Word, src: Word)
    requires IsCsrOp(op)
    ensures OfferRule(op, was, src, CsrNew(op, was, src))
  {
    hide OneBit, Numbers.Or, Numbers.And, Numbers.Not;
    forall k: bv5
      ensures OneBit(Numbers.Or(was, src), k) <==> OneBit(was, k) || OneBit(src, k)
      ensures OneBit(Numbers.And(was, Numbers.Not(src)), k) <==> OneBit(was, k) && !OneBit(src, k)
    {
      Numbers.BitOfOr(was, src, k);
      Numbers.BitOfNot(src, k);
      Numbers.BitOfAnd(was, Numbers.Not(src), k);
    }
  }

  /** The operand: the value of rs1, or the rs1 field itself. */
  function Operand(h: Hart, d: Decoded): Word { if IsImmediate(d.op) then d.rs1 else GetReg(h.regs, d.rs1) }
  /** CSRRW and CSRRWI do not read for x0; the others do not write for a zero rs1 field. */
  predicate DoesRead(d: Decoded) { !IsReplace(d.op) || d.rd != 0 }
  predicate DoesWrite(d: Decoded) { IsReplace(d.op) || d.rs1 != 0 }

  lemma SameShape(d: Decoded, a: Word)
    requires IsCsrOp(d.op)
    ensures CsrReads(d.op, d.rd) == DoesRead(d) && CsrWrites(d.op, d.rs1) == DoesWrite(d)
    ensures CsrOperand(d.op, d.rs1, a) == if IsImmediate(d.op) then d.rs1 else a
  {}
  lemma CsrKind(op: InstrType)
    ensures IsCsrOp(op) <==> KindOf(op).KCsr?
  {}
  lemma ExecuteCsr(h: Hart, d: Decoded, env: Env)
    requires IsCsrOp(d.op)
    ensures Execute(h, d, env) == ExecCsr(Sequential(h, d), d, GetReg(h.regs, d.rs1))
  {
    hide IsCsrOp, KindOf, Sum, Decoded.Len, GetReg, ExecCsr, ExecMemory, ExecJump, ExecReturn, ExecSystem, AluResult;
    CsrKind(d.op);
  }

  /** A CSR instruction that does not trap puts the value read before into rd, if it reads, and offers the
      register the operand, or the old value with the operand's bits set or cleared, if it writes; reading
      the register back then shows what its rule makes of that. */
  lemma CsrInstruction(h: Hart, d: Decoded, env: Env)
    requires IsCsrOp(d.op) && TrapOfExec(Execute(h, d, env)).NoExc?
    ensures var x, c, priv := Execute(h, d, env), h.core.csr, h.core.priv;
      var r := CsrRead(c, d.csr, priv);
      && (DoesRead(d) ==> r.Value? && RegsWith(h.regs, d.rd, r.v, x.h.regs))
      && (!DoesRead(d) ==> x.h.regs == h.regs)
      && (!DoesWrite(d) ==> x.h.core.csr == c)
      && (DoesWrite(d) ==> exists w: Word ::
            && OfferRule(d.op, if r.Value? then r.v else 0, Operand(h, d), w)
            && CsrWrite(c, d.csr, priv, w) == Written(x.h.core.csr)
            && CsrRead(x.h.core.csr, d.csr, priv) == Value(ReadBack(c, Named(d.csr), w)))
  {
    hide IsCsrOp, Execute, CsrRead, CsrWrite, CsrReads, CsrWrites, CsrNew, CsrOperand, DoesRead, DoesWrite, OfferRule, ReadBack, Named;
    hide GetReg, SetReg, RegsWith, Sum, Decoded.Len, Flushes, IsImmediate;
    var h1, a := Sequential(h, d), GetReg(h.regs, d.rs1);
    ExecuteCsr(h, d, env);
    SameShape(d, a);
    var c, priv := h.core.csr, h.core.priv;
    var r := CsrRead(c, d.csr, priv);
    var was := if r.Value? then r.v else 0;
    var w := CsrNew(d.op, was, CsrOperand(d.op, d.rs1, a));
    OfferObeys(d.op, was, CsrOperand(d.op, d.rs1, a));
    SetRegIsWith(h.regs, d.rd, was);
    if CsrWrite(c, d.csr, priv, w).Written? { WritesReadBack(c, d.csr, priv, w); }
  }
}
