/** Traps are precise up to rd: when an instruction traps, and what it has already changed by then. */
module Precise {
  import opened Rv32
  import opened Phys
  import opened Mmu
  import opened TlbTransparency
  import opened Paging
  import opened Csr
  import opened Trap
  import opened Hart
  import opened Invariants
  import opened Isolation
  import opened Atomics

  // ---- both questions answered from the state before the instruction ----

  /** The fault of a data access, from its translation. */
  ghost function AccessTrap(h: Hart, env: Env, va: Word, acc: Access): Exc {
    if TranslateData(h, env, va, acc).result.PageFault? then Exc(FaultCause(acc), va) else NoExc
  }
  function IllegalIf(c: bool, d: Decoded): Exc { if c then Exc(CAUSE_ILLEGAL_INSTR, d.raw) else NoExc }

  /** Whether CSRFile::write accepts the address, whatever the value. */
  predicate CsrWritable(addr: Word, priv: Word) { PrivOk(addr, priv) && !ReadOnly(addr) && !NoWriteCase(Named(addr)) }

  predicate CsrRefused(h: Hart, d: Decoded) {
    || (CsrReads(d.op, d.rd) && CsrRead(h.core.csr, d.csr, h.core.priv).Refused?)
    || (CsrWrites(d.op, d.rs1) && !CsrWritable(d.csr, h.core.priv))
  }

  /** The trap of a memory instruction, if any; `a` is the value of rs1. */
  ghost function MemoryForecast(h: Hart, d: Decoded, env: Env, a: Word): Exc
    requires IsMemory(KindOf(d.op))
  {
    match KindOf(d.op)
    case KLoad(sz) =>
      var va := Sum(a, d.imm);
      if MisalignedFor(va, sz) then Exc(CAUSE_MISALIGNED_LOAD, va) else AccessTrap(h, env, va, LOAD)
    case KStore(sz) =>
      var va := Sum(a, d.imm);
      if MisalignedFor(va, sz) then Exc(CAUSE_MISALIGNED_STORE, va) else AccessTrap(h, env, va, STORE)
    case KLr => if MisalignedFor(a, Whole) then Exc(CAUSE_MISALIGNED_LOAD, a) else AccessTrap(h, env, a, LOAD)
    case KSc =>
      if MisalignedFor(a, Whole) then Exc(CAUSE_MISALIGNED_STORE, a)
      else if h.lr.Check(a) then AccessTrap(h, env, a, STORE)
      else NoExc
    case KAmo =>
      if MisalignedFor(a, Whole) then Exc(CAUSE_MISALIGNED_STORE, a)
      else AccessTrap(AfterLoad(h, env, a), env, a, STORE)
  }

  function ControlForecast(h: Hart, d: Decoded): Exc {
    var k := KindOf(d.op);
    if k.KCsr? then IllegalIf(CsrRefused(h, d), d)
    else if k.KEcall? then Exc(EcallCause(h.core.priv), 0)
    else if k.KEbreak? then Exc(CAUSE_BREAKPOINT, h.core.pc)
    else if k.KMret? then IllegalIf(!MretAllowed(h.core), d)
    else if k.KSret? then IllegalIf(!SretAllowed(h.core), d)
    else if k.KSfence? then IllegalIf(!SfenceAllowed(h.core), d)
    else IllegalIf(k.KIllegal?, d)
  }

  /** The trap of an instruction, if any. */
  ghost function Forecast(h: Hart, d: Decoded, env: Env, a: Word): Exc {
    if IsMemory(KindOf(d.op)) then MemoryForecast(h, d, env, a) else ControlForecast(h, d)
  }

  /** What the load half of an AMO puts into rd. */
  ghost function AmoLoaded(h: Hart, env: Env, a: Word): Word {
    var o := TranslateData(h, env, a, LOAD);
    match o.result case PageFault(_) => 0 case Mapped(p) => Load(o.ram, env.io, p, Whole)
  }

  /** The state a trapping memory instruction leaves. A misaligned access changes nothing. A page fault
      zeroes the rd of a load, LR.W or SC.W, and an AMO keeps what its load half did; stores and SC.W
      have let the reservation go, LR.W has taken it. */
  ghost function MemoryLeaves(h: Hart, d: Decoded, env: Env, a: Word): Hart
    requires IsMemory(KindOf(d.op))
  {
    match KindOf(d.op)
    case KLoad(sz) => if MisalignedFor(Sum(a, d.imm), sz) then h else WithRd(h, d, 0)
    case KStore(sz) => if MisalignedFor(Sum(a, d.imm), sz) then h else h.(lr := h.lr.Clear())
    case KLr => if MisalignedFor(a, Whole) then h else WithRd(h, d, 0).(lr := h.lr.Set(a))
    case KSc => if MisalignedFor(a, Whole) then h else WithRd(h, d, 0).(lr := h.lr.Clear())
    case KAmo => if MisalignedFor(a, Whole) then h else WithRd(AfterLoad(h, env, a), d, AmoLoaded(h, env, a))
  }

  /** The state a trapping instruction leaves: a CSR access whose read half was allowed has changed rd;
      the others have changed nothing. */
  ghost function TrapLeaves(h: Hart, d: Decoded, env: Env, a: Word): Hart {
    if IsMemory(KindOf(d.op)) then MemoryLeaves(h, d, env, a)
    else if KindOf(d.op).KCsr? && CsrReads(d.op, d.rd) then
      match CsrRead(h.core.csr, d.csr, h.core.priv) case Refused => h case Value(v) => WithRd(h, d, v)
    else h
  }

  /** x traps as forecast, and if it does, leaves this state. */
  predicate AsForecast(x: Exec, t: Exc, left: Hart) { TrapOfExec(x) == t && (t.Exc? ==> x.h == left) }

  // ---- memory instructions ----

  lemma ExtendZero(op: InstrType)
    ensures Extend(op, 0) == 0
  {}

  lemma LoadTraps(h: Hart, d: Decoded, env: Env, va: Word, sz: Size)
    requires !MisalignedFor(va, sz)
    ensures AsForecast(ExecLoad(h, d, env, va, sz), AccessTrap(h, env, va, LOAD), WithRd(h, d, 0))
  {
    hide TranslateData, MisalignedFor, Extend, SetReg, Load, FaultCause;
    ExtendZero(d.op);
    DataFaultChangesNothing(h, env, va, LOAD);
  }
  lemma StoreTraps(h: Hart, d: Decoded, env: Env, va: Word, v: Word, sz: Size)
    requires !MisalignedFor(va, sz)
    ensures AsForecast(ExecStore(h, d, env, va, v, sz), AccessTrap(h, env, va, STORE), h.(lr := h.lr.Clear()))
  {
    hide TranslateData, MisalignedFor, Store, Mask, FaultCause;
    DataFaultChangesNothing(h, env, va, STORE);
  }
  lemma LrTraps(h: Hart, d: Decoded, env: Env, va: Word)
    requires !MisalignedFor(va, Whole)
    ensures AsForecast(ExecLr(h, d, env, va), AccessTrap(h, env, va, LOAD), WithRd(h, d, 0).(lr := h.lr.Set(va)))
  {
    hide TranslateData, MisalignedFor, SetReg, Load, FaultCause, Reservation.Set;
    DataFaultChangesNothing(h, env, va, LOAD);
  }
  lemma ScTraps(h: Hart, d: Decoded, env: Env, va: Word, v: Word)
    requires !MisalignedFor(va, Whole)
    ensures AsForecast(ExecSc(h, d, env, va, v), if h.lr.Check(va) then AccessTrap(h, env, va, STORE) else NoExc,
                       WithRd(h, d, 0).(lr := h.lr.Clear()))
  {
    hide TranslateData, MisalignedFor, SetReg, Store, FaultCause, Reservation.Check;
    DataFaultChangesNothing(h, env, va, STORE);
  }
  lemma AmoTraps(h: Hart, d: Decoded, env: Env, va: Word, v: Word)
    requires CacheWellFormed(h.tlb) && !MisalignedFor(va, Whole)
    ensures AsForecast(ExecAmo(h, d, env, va, v), AccessTrap(AfterLoad(h, env, va), env, va, STORE),
                       WithRd(AfterLoad(h, env, va), d, AmoLoaded(h, env, va)))
  {
    hide TranslateData, MisalignedFor, SetReg, AmoResult, CacheWellFormed, Load, Store;
    AmoFaultIsStoreFault(h, d, env, va, v);
    AmoRaisesNothing(h, d, env, va, v);
    var r := ReadData(h, env, va, Whole);
    RdDoesNotMatter(r.h, d, r.value, env, va, STORE);
    DataFaultChangesNothing(r.h, env, va, STORE);
  }

  lemma MemoryTraps(h: Hart, d: Decoded, env: Env, a: Word, b: Word)
    requires IsMemory(KindOf(d.op)) && CacheWellFormed(h.tlb)
    ensures AsForecast(ExecMemory(h, d, env, a, b), MemoryForecast(h, d, env, a), MemoryLeaves(h, d, env, a))
  {
    hide KindOf, ReadData, WriteData, MisalignedFor, AccessTrap, AmoLoaded, AfterLoad, Sum, WithRd, CacheWellFormed, Extend, AmoResult, Mask, Reservation.Set, Reservation.Check;
    hide AsForecast;
    var k, va := KindOf(d.op), Sum(a, d.imm);
    if k.KLoad? {
      if MisalignedFor(va, k.sz) { RaiseTraps(h, CAUSE_MISALIGNED_LOAD, va); } else { LoadTraps(h, d, env, va, k.sz); }
    } else if k.KStore? {
      if MisalignedFor(va, k.sz) { RaiseTraps(h, CAUSE_MISALIGNED_STORE, va); } else { StoreTraps(h, d, env, va, b, k.sz); }
    } else if MisalignedFor(a, Whole) {
      RaiseTraps(h, if k.KLr? then CAUSE_MISALIGNED_LOAD else CAUSE_MISALIGNED_STORE, a);
    } else if k.KLr? {
      LrTraps(h, d, env, a);
    } else if k.KSc? {
      ScTraps(h, d, env, a, b);
    } else {
      AmoTraps(h, d, env, a, b);
    }
  }
  lemma RaiseTraps(h: Hart, cause: Word, tval: Word)
    ensures AsForecast(Raise(h, cause, tval), Exc(cause, tval), h)
  {}

  // ---- the other instructions ----

  lemma WritableIsWritten(c: Csrs, addr: Word, priv: Word, v: Word)
    ensures CsrWrite(c, addr, priv, v).Written? <==> CsrWritable(addr, priv)
  {
    hide Named, PrivOk, ReadOnly, NoWriteCase, SetStatus, SetIe, SetMachine, SetSupervisor, SetCounters, SetSwMip;
  }
  lemma CommitTraps(h: Hart, d: Decoded, w: Written)
    ensures AsForecast(CsrCommit(h, d, w), IllegalIf(w.NotWritten?, d), h)
  {
    hide Flushes;
  }
  lemma DoneTraps(h: Hart, left: Hart)
    ensures AsForecast(Done(h), NoExc, left)
  {}

  lemma CsrTraps(h: Hart, d: Decoded, a: Word, env: Env)
    requires KindOf(d.op).KCsr?
    ensures AsForecast(ExecCsr(h, d, a), IllegalIf(CsrRefused(h, d), d), TrapLeaves(h, d, env, a))
  {
    hide KindOf, CsrRead, CsrWrite, CsrReads, CsrWrites, CsrNew, CsrOperand, WithRd, CsrCommit, CsrWritable, AsForecast;
    var c := h.core.csr;
    var r := CsrRead(c, d.csr, h.core.priv);
    var was := if r.Value? then r.v else 0;
    var h1 := if CsrReads(d.op, d.rd) then WithRd(h, d, was) else h;
    var v := CsrNew(d.op, was, CsrOperand(d.op, d.rs1, a));
    WritableIsWritten(c, d.csr, h.core.priv, v);
    RaiseTraps(h, CAUSE_ILLEGAL_INSTR, d.raw);
    DoneTraps(h1, h1);
    CommitTraps(h1, d, CsrWrite(c, d.csr, h.core.priv, v));
  }

  lemma ReturnTraps(h: Hart, d: Decoded)
    requires KindOf(d.op).KMret? || KindOf(d.op).KSret?
    ensures AsForecast(ExecReturn(h, d), ControlForecast(h, d), h)
  {
    hide KindOf, Mret, Sret, MretAllowed, SretAllowed, SfenceAllowed, CsrRefused, EcallCause;
  }
  lemma SystemTraps(h: Hart, d: Decoded)
    requires var k := KindOf(d.op); k.KEcall? || k.KEbreak? || k.KSfence? || k.KNop? || k.KIllegal?
    ensures AsForecast(ExecSystem(h, d), ControlForecast(h, d), h)
  {
    hide KindOf, MretAllowed, SretAllowed, SfenceAllowed, CsrRefused, EcallCause;
  }
  lemma SystemDoesNotFault(h: Hart, d: Decoded)
    ensures ExecSystem(h, d).fault.NoFault?
  {
    hide KindOf, EcallCause, SfenceAllowed;
  }

  lemma ControlTraps(h: Hart, d: Decoded, env: Env, a: Word, b: Word)
    requires !IsMemory(KindOf(d.op))
    ensures AsForecast(ExecControl(h, d, a, b), ControlForecast(h, d), TrapLeaves(h, d, env, a))
  {
    hide KindOf, ExecCsr, ExecReturn, ExecSystem, ExecJump, AluResult, WithRd, CsrReads, CsrRead, CsrRefused, AsForecast;
    hide MretAllowed, SretAllowed, SfenceAllowed, EcallCause;
    var k := KindOf(d.op);
    if k.KCsr? {
      CsrTraps(h, d, a, env);
    } else if k.KMret? || k.KSret? {
      ReturnTraps(h, d);
    } else if k.KAlu? {
      DoneTraps(WithRd(h, d, AluResult(d.op, d.imm, h.core.pc, a, b)), h);
    } else if k.KJal? || k.KJalr? || k.KBranch? {
      JumpDoesNotTrap(h, d, a, b);
    } else {
      SystemTraps(h, d);
    }
  }
  lemma JumpDoesNotTrap(h: Hart, d: Decoded, a: Word, b: Word)
    ensures AsForecast(ExecJump(h, d, a, b), NoExc, h)
  {
    hide KindOf, JumpTarget, SetReg;
  }

  // ---- the theorems ----

  /** Precise traps: whether an instruction traps, with which cause and value, is decided by the state
      before it, and a trapping instruction leaves exactly the state TrapLeaves names. */
  lemma TrapsArePrecise(h: Hart, d: Decoded, env: Env)
    requires CacheWellFormed(h.tlb)
    ensures var h1, a := Sequential(h, d), GetReg(h.regs, d.rs1);
      AsForecast(Execute(h, d, env), Forecast(h1, d, env, a), TrapLeaves(h1, d, env, a))
  {
    hide ExecMemory, ExecControl, MemoryForecast, ControlForecast, MemoryLeaves, KindOf, Sum, Decoded.Len, GetReg, CacheWellFormed, CsrReads, CsrRead, WithRd;
    hide AsForecast;
    var h1 := Sequential(h, d);
    var a, b := GetReg(h1.regs, d.rs1), GetReg(h1.regs, d.rs2);
    if IsMemory(KindOf(d.op)) { MemoryTraps(h1, d, env, a, b); } else { ControlTraps(h1, d, env, a, b); }
  }

  /** In particular a trapping instruction leaves pc, privilege, next_pc and every CSR, and every
      register but rd. */
  lemma TrapsLeaveTheRest(h: Hart, d: Decoded, env: Env, a: Word, r: Word)
    requires r != d.rd
    ensures TrapLeaves(h, d, env, a).core == h.core
    ensures GetReg(TrapLeaves(h, d, env, a).regs, r) == GetReg(h.regs, r)
  {
    hide KindOf, MisalignedFor, TranslateData, Load, Sum, CsrReads, CsrRead, SetReg, GetReg, AmoLoaded, Reservation.Set;
    OtherRegsStay(h.regs, d.rd, 0, r);
    OtherRegsStay(h.regs, d.rd, AmoLoaded(h, env, a), r);
    var v := CsrRead(h.core.csr, d.csr, h.core.priv);
    if v.Value? { OtherRegsStay(h.regs, d.rd, v.v, r); }
  }
  lemma OtherRegsStay(regs: Regs, rd: Word, v: Word, r: Word)
    requires r != rd
    ensures GetReg(SetReg(regs, rd, v), r) == GetReg(regs, r)
  {}

  lemma RetireKeepsLeft(x: Exec)
    ensures Retire(x).regs == x.h.regs && Retire(x).ram == x.h.ram && Retire(x).lr == x.h.lr
  {
    RetireKeepsMemory(x);
    RetireKeepsReservation(x);
  }

  /** The same for whole steps, from any reachable state. */
  lemma TrapStepsArePrecise(h: Hart, env: Env)
    requires HartOk(h) && !TakesInterrupt(h) && FetchOutcome(h, env).result.Mapped?
    ensures var h1, d, a := Ready(h, env), Fetched(h, env), ValueOfRs1(h, env);
      var left := TrapLeaves(h1, d, env, a);
      && TrapOf(h, env) == Forecast(h1, d, env, a)
      && (TrapOf(h, env).Exc? ==>
            Step(h, env).regs == left.regs && Step(h, env).ram == left.ram && Step(h, env).lr == left.lr)
  {
    hide TakesInterrupt, FetchOutcome, Fetched, Execute, Retire, Even, HartOk, Forecast, TrapLeaves, CacheWellFormed, GetReg, TrapOfExec, Sum, Decoded.Len;
    PcIsEven(h);
    ReadyIsWellFormed(h, env);
    var h1, d := WithMemory(h, FetchOutcome(h, env)), Fetched(h, env);
    TrapsArePrecise(h1, d, env);
    RetireKeepsLeft(Execute(h1, d, env));
  }

  // ---- rd is overwritten by instructions that trap ----

  const CSRRW_X5_CYCLE: Decoded := Decoded(CSRRW, 5, 0, 0, 0, 0xC00, 0, false)

  lemma CycleIsReadOnly(priv: Word)
    ensures !CsrWritable(0xC00, priv)
  {}

  lemma CsrrwReadsAndWrites()
    ensures KindOf(CSRRW) == KCsr && CsrReads(CSRRW, 5) && CsrWrites(CSRRW, 0)
    ensures forall c: Csrs :: CounterShown(c, 0xC00) == c.n.mcycle
  {}

  /** CSRRW x5, cycle: the read is allowed, the write is refused, and x5 already holds mcycle. */
  lemma RefusedWriteHasChangedRd(h: Hart, env: Env)
    requires CacheWellFormed(h.tlb)
    ensures var x := Execute(h, CSRRW_X5_CYCLE, env);
      TrapOfExec(x) == Exc(CAUSE_ILLEGAL_INSTR, 0) && GetReg(x.h.regs, 5) == h.core.csr.n.mcycle
  {
    hide Execute, CsrRead, CsrWritable, CacheWellFormed, GetReg, SetReg, Sum, Decoded.Len, KindOf, CsrReads, CsrWrites;
    hide MemoryForecast, MemoryLeaves, MretAllowed, SretAllowed, SfenceAllowed, EcallCause, CounterShown;
    var d := CSRRW_X5_CYCLE;
    TrapsArePrecise(h, d, env);
    CsrrwReadsAndWrites();
    CountersAlwaysRead(h.core.csr, 0xC00, h.core.priv);
    CycleIsReadOnly(h.core.priv);
    RdReadsBack(h.regs, 5, h.core.csr.n.mcycle);
  }

  const LW_X5: Decoded := Decoded(LW, 5, 0, 0, 0, 0, 0, false)
  /** An access to address 0 from S-mode under an empty page table. */
  const UNMAPPED: Csrs := RESET.(s := RESET.s.(satp := 0x8000_0000))

  lemma NothingIsMapped(pick: Picker)
    ensures Translate(map[], _ => 0, map[], pick, 0x8000_0000, 0, LOAD, PRV_S, 0).result.PageFault?
  {
    hide CheckPermissions, Compose;
    EmptyTableHasNoLeaf();
  }
  lemma EmptyTableHasNoLeaf()
    ensures FindLeaf(map[], _ => 0, 0x8000_0000, 0) == NoLeaf && Sv32On(0x8000_0000)
  {
    assert 0 & 0xFFFF_FFFF == 0 as Word;
  }

  /** LW x5, 0(x0) on an unmapped page: it page-faults, and x5, whatever it was, is already 0. */
  lemma FaultingLoadHasClearedRd(h: Hart, pick: Picker)
    requires h.ram == map[] && h.tlb == map[] && h.core.priv == PRV_S && h.core.csr == UNMAPPED
    ensures var x := Execute(h, LW_X5, Env(_ => 0, pick));
      TrapOfExec(x) == Exc(CAUSE_LOAD_PAGE_FAULT, 0) && GetReg(x.h.regs, 5) == 0
  {
    hide Execute, Translate, GetReg, SetReg, Decoded.Len, Sv32On;
    var env := Env(_ => 0, pick);
    EmptyIsWellFormed();
    TrapsArePrecise(h, LW_X5, env);
    NothingIsMapped(pick);
    EmptyTableHasNoLeaf();
    ZeroAddress(h.regs);
    RdReadsBack(h.regs, 5, 0);
  }
  lemma ZeroAddress(regs: Regs)
    ensures GetReg(regs, 0) == 0 && Sum(0, 0) == 0 && !MisalignedFor(0, Whole)
  {}

  // ---- accesses that pass the alignment check ----

  lemma LetThroughIsAligned(va: Word, sz: Size)
    ensures !MisalignedFor(va, sz) <==> NaturallyAligned(va, sz)
  {}

  /** Every data access that execute lets through stays in one page: byte k of it is where va + k
      translates to, under any privilege, MPRV setting and cache state. */
  lemma AccessesStayInOnePage(h: Hart, env: Env, va: Word, k: Word, sz: Size, acc: Access)
    requires !MisalignedFor(va, sz) && IndexIn(k, sz)
    ensures TranslateData(h, env, Offset(va, k), acc).result == Plus(TranslateData(h, env, va, acc).result, k)
  {
    hide Translate, Offset, MisalignedFor, NaturallyAligned, IndexIn, DataMmuActive, EffectivePriv;
    LetThroughIsAligned(va, sz);
    AccessTranslatesBytewise(h.ram, env.io, h.tlb, env.pick, h.core.csr.s.satp, va, k, sz, acc, EffectivePriv(h.core), h.core.csr.mstatus);
  }
}
