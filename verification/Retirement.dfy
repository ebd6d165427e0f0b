/** The two 64-bit counters over whole runs (src/cpu/iss.cpp:138-152, src/cpu/csr.h:17-26): they count
    the instructions that retire, and which those are can be read off the traps. */
module Retirement {
  import opened Rv32
  import Phys
  import opened Mmu
  import opened Paging
  import opened Csr
  import opened Trap
  import opened Hart
  import opened Invariants
  import opened Isolation
  import Numbers

  const TWO64: nat := Numbers.TWO32 * Numbers.TWO32

  /** Two halves as one number. */
  function Pair(hi: Word, lo: Word): (n: nat)
    ensures n < TWO64
  {
    Numbers.Uint(hi) * Numbers.TWO32 + Numbers.Uint(lo)
  }
  function Cycles(k: Counters): nat { Pair(k.mcycleh, k.mcycle) }
  function Instrets(k: Counters): nat { Pair(k.minstreth, k.minstret) }

  /** n more in both counters. */
  predicate Counted(k: Counters, k': Counters, n: nat) {
    Cycles(k') == (Cycles(k) + n) % TWO64 && Instrets(k') == (Instrets(k) + n) % TWO64
  }

  lemma CarryArithmetic(hi: nat, lo: nat)
    requires hi < Numbers.TWO32 && lo < Numbers.TWO32
    ensures (hi * Numbers.TWO32 + lo + 1) % TWO64 ==
      if lo + 1 == Numbers.TWO32 then (if hi + 1 == Numbers.TWO32 then 0 else (hi + 1) * Numbers.TWO32) else hi * Numbers.TWO32 + lo + 1
  {}
  lemma NextIsZero(lo: Word)
    ensures Numbers.Next(lo) == 0 <==> Numbers.Uint(Numbers.Next(lo)) == 0
  {
    hide Numbers.Uint, Numbers.Next;
    Numbers.UintOfEnds();
    if Numbers.Uint(Numbers.Next(lo)) == 0 { Numbers.UintInjective(Numbers.Next(lo), 0); }
  }
  lemma PairCounts(hi: Word, lo: Word)
    ensures Pair(if Numbers.Next(lo) == 0 then Numbers.Next(hi) else hi, Numbers.Next(lo)) == (Pair(hi, lo) + 1) % TWO64
  {
    hide Numbers.Uint, Numbers.Next;
    Numbers.NextWraps(lo);
    Numbers.NextWraps(hi);
    NextIsZero(lo);
    CarryArithmetic(Numbers.Uint(hi), Numbers.Uint(lo));
  }
  lemma TickIsNext(c: Csrs)
    ensures Tick(c) == c.(n := Counters(
      Numbers.Next(c.n.mcycle), if Numbers.Next(c.n.mcycle) == 0 then Numbers.Next(c.n.mcycleh) else c.n.mcycleh,
      Numbers.Next(c.n.minstret), if Numbers.Next(c.n.minstret) == 0 then Numbers.Next(c.n.minstreth) else c.n.minstreth))
  {}
  lemma TickCountsOne(c: Csrs)
    ensures Counted(c.n, Tick(c).n, 1)
  {
    TickIsNext(c);
    hide Tick, Pair, Numbers.Next;
    PairCounts(c.n.mcycleh, c.n.mcycle);
    PairCounts(c.n.minstreth, c.n.minstret);
  }

  // ---- who writes the counters ----

  predicate IsCounterCell(n: CsrName) { n.Mcycle? || n.Mcycleh? || n.Minstret? || n.Minstreth? }
  /** The instruction is one that writes a counter. */
  predicate SetsCounter(d: Decoded) { KindOf(d.op).KCsr? && CsrWrites(d.op, d.rs1) && IsCounterCell(Named(d.csr)) }

  lemma OtherWritesKeepCounters(c: Csrs, addr: Word, priv: Word, v: Word)
    requires !IsCounterCell(Named(addr))
    ensures CsrWrite(c, addr, priv, v).Written? ==> CsrWrite(c, addr, priv, v).c.n == c.n
  {
    hide Named, PrivOk, ReadOnly, NoWriteCase, SetStatus, SetIe, SetMachine, SetSupervisor, SetSwMip;
  }
  lemma CsrInstrKeepsCounters(h: Hart, d: Decoded, a: Word)
    requires CsrWrites(d.op, d.rs1) ==> !IsCounterCell(Named(d.csr))
    ensures ExecCsr(h, d, a).h.core.csr.n == h.core.csr.n
  {
    hide CsrRead, CsrWrite, CsrReads, CsrWrites, CsrNew, CsrOperand, SetReg, Flushes, IsCounterCell, Named;
    if CsrWrites(d.op, d.rs1) {
      var r := CsrRead(h.core.csr, d.csr, h.core.priv);
      OtherWritesKeepCounters(h.core.csr, d.csr, h.core.priv, CsrNew(d.op, if r.Value? then r.v else 0, CsrOperand(d.op, d.rs1, a)));
    }
  }
  lemma CsrKeepsUnlessSet(h: Hart, d: Decoded, a: Word)
    requires !SetsCounter(d) && KindOf(d.op).KCsr?
    ensures ExecCsr(h, d, a).h.core.csr.n == h.core.csr.n
  {
    hide KindOf, CsrWrites, IsCounterCell, Named, ExecCsr;
    CsrInstrKeepsCounters(h, d, a);
  }
  lemma ReturnKeepsCounters(h: Hart, d: Decoded)
    ensures ExecReturn(h, d).h.core.csr.n == h.core.csr.n
  {
    hide KindOf, MretAllowed, SretAllowed, LeaveM, LeaveS, MppOf, SppOf;
  }
  lemma JumpKeepsCounters(h: Hart, d: Decoded, a: Word, b: Word)
    ensures ExecJump(h, d, a, b).h.core.csr.n == h.core.csr.n
  {
    hide KindOf, JumpTarget, SetReg;
  }
  lemma ControlKeepsCounters(h: Hart, d: Decoded, a: Word, b: Word)
    requires !SetsCounter(d)
    ensures ExecControl(h, d, a, b).h.core.csr.n == h.core.csr.n
  {
    hide SetsCounter, KindOf, ExecCsr, ExecReturn, ExecSystem, ExecJump, AluResult, SetReg;
    var k := KindOf(d.op);
    if k.KCsr? {
      CsrKeepsUnlessSet(h, d, a);
    } else if k.KMret? || k.KSret? {
      ReturnKeepsCounters(h, d);
    } else if k.KJal? || k.KJalr? || k.KBranch? {
      JumpKeepsCounters(h, d, a, b);
    } else {
      SystemKeepsHart(h, d);
    }
  }
  lemma ExecuteKeepsCounters(h: Hart, d: Decoded, env: Env)
    requires !SetsCounter(d)
    ensures Execute(h, d, env).h.core.csr.n == h.core.csr.n
  {
    hide SetsCounter, KindOf, IsMemory, ExecMemory, ExecControl, Sum, Decoded.Len, GetReg;
    var h1 := Sequential(h, d);
    var a, b := GetReg(h1.regs, d.rs1), GetReg(h1.regs, d.rs2);
    if IsMemory(KindOf(d.op)) { MemoryKeepsCore(h1, d, env, a, b); } else { ControlKeepsCounters(h1, d, a, b); }
  }

  lemma EntryKeepsCounters(c: Core, cause: Word, tval: Word)
    ensures TrapToS(c, cause, tval).csr.n == c.csr.n && TrapToM(c, cause, tval).csr.n == c.csr.n
  {
    hide EnterS, EnterM, Vector, ClearBit0;
  }
  lemma TrapKeepsCounters(h: Hart, cause: Word, tval: Word)
    ensures Trapped(h, cause, tval).core.csr.n == h.core.csr.n
  {
    hide Delegated, TrapToS, TrapToM;
    EntryKeepsCounters(h.core, cause, tval);
  }
  /** A page fault is not counted, everything else is. */
  lemma RetireCounts(x: Exec)
    ensures Retire(x).core.csr.n == if x.fault.Faulted? then x.h.core.csr.n else Tick(x.h.core.csr).n
  {
    hide Trapped, Tick;
    TickKeepsRest(x.h.core.csr);
    var h := WithCsr(x.h, Tick(x.h.core.csr));
    var h1 := h.(tlb := if x.sfence then map[] else h.tlb);
    if x.fault.Faulted? {
      TrapKeepsCounters(x.h, x.fault.cause, x.fault.va);
    } else if x.exc.Exc? {
      TrapKeepsCounters(h1, x.exc.cause, x.exc.tval);
    }
  }

  // ---- page faults and exceptions have different causes ----

  predicate IsPageFault(cause: Word) { cause == 12 || cause == 13 || cause == 15 }

  /** What `execute` leaves in its two error fields. */
  predicate Sorted(x: Exec) {
    (x.fault.Faulted? ==> IsPageFault(x.fault.cause)) && (x.exc.Exc? ==> !IsPageFault(x.exc.cause))
  }
  lemma DataFaultCause(h: Hart, env: Env, va: Word, acc: Access)
    ensures TranslateData(h, env, va, acc).result.PageFault? ==> IsPageFault(TranslateData(h, env, va, acc).result.cause)
  {
    hide Translate, DataMmuActive, EffectivePriv;
    var c := h.core;
    if TranslateData(h, env, va, acc).result.PageFault? {
      FaultChangesNothing(h.ram, env.io, h.tlb, env.pick, c.csr.s.satp, va, acc, EffectivePriv(c), c.csr.mstatus);
    }
  }
  lemma ReadFaultCause(h: Hart, env: Env, va: Word, sz: Phys.Size)
    ensures var f := ReadData(h, env, va, sz).fault; f.Faulted? ==> IsPageFault(f.cause)
  {
    hide TranslateData, IsPageFault, Phys.Load;
    DataFaultCause(h, env, va, LOAD);
  }
  lemma WriteFaultCause(h: Hart, env: Env, va: Word, v: Word, sz: Phys.Size)
    ensures var f := WriteData(h, env, va, v, sz).fault; f.Faulted? ==> IsPageFault(f.cause)
  {
    hide TranslateData, IsPageFault, Phys.Store;
    DataFaultCause(h, env, va, STORE);
  }
  lemma AmoIsSorted(h: Hart, d: Decoded, env: Env, va: Word, v: Word)
    ensures Sorted(ExecAmo(h, d, env, va, v))
  {
    hide ReadData, WriteData, MisalignedFor, AmoResult, SetReg;
    ReadFaultCause(h, env, va, Phys.Whole);
    var r := ReadData(h, env, va, Phys.Whole);
    WriteFaultCause(WithRd(r.h, d, r.value), env, va, AmoResult(d.op, r.value, v), Phys.Whole);
  }
  lemma MemoryIsSorted(h: Hart, d: Decoded, env: Env, a: Word, b: Word)
    requires IsMemory(KindOf(d.op))
    ensures Sorted(ExecMemory(h, d, env, a, b))
  {
    hide KindOf, ReadData, WriteData, MisalignedFor, Sum, SetReg, Extend, Phys.Mask, ExecAmo, Reservation.Check, Reservation.Set;
    var k := KindOf(d.op);
    if k.KLoad? {
      ReadFaultCause(h, env, Sum(a, d.imm), k.sz);
    } else if k.KStore? {
      WriteFaultCause(h, env, Sum(a, d.imm), b & Phys.Mask(k.sz), k.sz);
    } else if k.KLr? {
      ReadFaultCause(h, env, a, Phys.Whole);
    } else if k.KSc? {
      WriteFaultCause(h, env, a, b, Phys.Whole);
    } else {
      AmoIsSorted(h, d, env, a, b);
    }
  }
  lemma CsrIsSorted(h: Hart, d: Decoded, a: Word)
    ensures Sorted(ExecCsr(h, d, a))
  {
    hide CsrRead, CsrWrite, CsrReads, CsrWrites, CsrNew, CsrOperand, SetReg, Flushes;
  }
  lemma ControlIsSorted(h: Hart, d: Decoded, a: Word, b: Word)
    ensures Sorted(ExecControl(h, d, a, b))
  {
    hide KindOf, ExecCsr, AluResult, JumpTarget, SetReg, MretAllowed, SretAllowed, SfenceAllowed, Mret, Sret;
    CsrIsSorted(h, d, a);
  }
  lemma ExecuteIsSorted(h: Hart, d: Decoded, env: Env)
    ensures Sorted(Execute(h, d, env))
  {
    hide KindOf, IsMemory, ExecMemory, ExecControl, GetReg, Sum, Decoded.Len, Sorted;
    var h1 := Sequential(h, d);
    var a, b := GetReg(h1.regs, d.rs1), GetReg(h1.regs, d.rs2);
    if IsMemory(KindOf(d.op)) { MemoryIsSorted(h1, d, env, a, b); } else { ControlIsSorted(h1, d, a, b); }
  }

  // ---- steps and runs ----

  /** The step retires an instruction: it takes no interrupt and does not page-fault. An instruction that
      raises an exception of its own, an ECALL for one, is among them. */
  ghost predicate Retires(h: Hart, env: Env) {
    !TakesInterrupt(h) && (TrapOf(h, env).Exc? ==> !IsPageFault(TrapOf(h, env).cause))
  }
  /** The step executes an instruction that writes a counter. */
  ghost predicate StepSetsCounter(h: Hart, env: Env) {
    !TakesInterrupt(h) && FetchOutcome(h, env).result.Mapped? && SetsCounter(Fetched(h, env))
  }

  lemma CountedNothing(k: Counters)
    ensures Counted(k, k, 0)
  {
    hide Pair;
  }
  lemma ExecutedCounts(h: Hart, env: Env)
    requires FetchOutcome(h, env).result.Mapped? && !SetsCounter(Fetched(h, env))
    ensures var x := Executed(h, env);
      && Counted(h.core.csr.n, Retire(x).core.csr.n, if x.fault.Faulted? then 0 else 1)
      && (TrapOfExec(x).Exc? ==> (x.fault.Faulted? <==> IsPageFault(TrapOfExec(x).cause)))
      && (x.fault.Faulted? ==> TrapOfExec(x).Exc?)
  {
    hide FetchOutcome, Fetched, Execute, Retire, SetsCounter, Counted, IsPageFault, Tick;
    var h1, d, x := WithMemory(h, FetchOutcome(h, env)), Fetched(h, env), Executed(h, env);
    ExecuteKeepsCounters(h1, d, env);
    ExecuteIsSorted(h1, d, env);
    RetireCounts(x);
    TickCountsOne(x.h.core.csr);
    CountedNothing(x.h.core.csr.n);
  }

  /** One step counts one instruction in both counters if it retires one, and none otherwise. */
  lemma StepCounts(h: Hart, env: Env)
    requires HartOk(h) && !StepSetsCounter(h, env)
    ensures Counted(h.core.csr.n, Step(h, env).core.csr.n, if Retires(h, env) then 1 else 0)
  {
    hide HartOk, TakesInterrupt, PendingInterrupt, FetchOutcome, Fetched, Executed, Retire, Even, SetsCounter, Counted, Trapped, TrapOfExec;
    PcIsEven(h);
    CountedNothing(h.core.csr.n);
    if TakesInterrupt(h) {
      TrapKeepsCounters(h, PendingInterrupt(h.core.priv, h.core.csr), 0);
    } else {
      var o := FetchOutcome(h, env);
      if o.result.PageFault? {
        FetchFaultCause(h, env);
        TrapKeepsCounters(WithMemory(h, o), o.result.cause, h.core.pc);
      } else {
        ExecutedCounts(h, env);
      }
    }
  }
  lemma FetchFaultCause(h: Hart, env: Env)
    requires FetchOutcome(h, env).result.PageFault?
    ensures IsPageFault(FetchOutcome(h, env).result.cause)
  {
    hide Translate, FetchMmuActive;
    FaultChangesNothing(h.ram, env.io, h.tlb, env.pick, h.core.csr.s.satp, h.core.pc, FETCH, h.core.priv, h.core.csr.mstatus);
  }

  /** How many instructions a run retires. */
  ghost function Retired(h: Hart, es: seq<Event>): nat
    decreases |es|
  {
    if es == [] then 0
    else (if es[0].Cpu? && Retires(h, es[0].env) then 1 else 0) + Retired(After(h, es[0]), es[1..])
  }
  /** No step of the run writes a counter. */
  ghost predicate SparesCounters(h: Hart, es: seq<Event>)
    decreases |es|
  {
    es == [] || (!(es[0].Cpu? && StepSetsCounter(h, es[0].env)) && SparesCounters(After(h, es[0]), es[1..]))
  }

  lemma AfterCounts(h: Hart, e: Event)
    requires HartOk(h) && !(e.Cpu? && StepSetsCounter(h, e.env))
    ensures Counted(h.core.csr.n, After(h, e).core.csr.n, if e.Cpu? && Retires(h, e.env) then 1 else 0)
  {
    hide HartOk, StepSetsCounter, Retires, Counted, Step, Phys.Store;
    if e.Cpu? { StepCounts(h, e.env); } else { CountedNothing(h.core.csr.n); }
  }
  lemma CountedAdds(k: Counters, k1: Counters, k2: Counters, m: nat, n: nat)
    requires Counted(k, k1, m) && Counted(k1, k2, n)
    ensures Counted(k, k2, m + n)
  {
    hide Pair;
    SumsWrap(Cycles(k), m, n);
    SumsWrap(Instrets(k), m, n);
  }
  lemma SumsWrap(x: nat, m: nat, n: nat)
    ensures ((x + m) % TWO64 + n) % TWO64 == (x + (m + n)) % TWO64
  {}

  /** Over any run that does not write the counters, with traps, interrupts, page faults, devices and bus
      masters in it, both 64-bit counters move by the number of instructions retired, modulo 2^64. */
  lemma {:induction false} RunCounts(h: Hart, es: seq<Event>)
    requires HartOk(h) && SparesCounters(h, es)
    ensures Counted(h.core.csr.n, Run(h, es).core.csr.n, Retired(h, es))
    decreases |es|
  {
    hide HartOk, After, Counted, StepSetsCounter, Retires;
    if es == [] {
      CountedNothing(h.core.csr.n);
    } else {
      var h1 := After(h, es[0]);
      AfterKeepsOk(h, es[0]);
      AfterCounts(h, es[0]);
      RunCounts(h1, es[1..]);
      CountedAdds(h.core.csr.n, h1.core.csr.n, Run(h, es).core.csr.n, if es[0].Cpu? && Retires(h, es[0].env) then 1 else 0, Retired(h1, es[1..]));
    }
  }

  /** So from reset the two counters never part, and both are the number of instructions retired. */
  lemma CountersFromReset(pc: Word, ram: Phys.Ram, es: seq<Event>)
    requires Even(pc) && SparesCounters(ResetHart(pc, ram), es)
    ensures var h := ResetHart(pc, ram);
      Cycles(Run(h, es).core.csr.n) == Instrets(Run(h, es).core.csr.n) == Retired(h, es) % TWO64
  {
    hide Even, SparesCounters, Run, Retired, Pair, HartOk;
    var h := ResetHart(pc, ram);
    ResetIsOk(pc, ram);
    RunCounts(h, es);
    ZeroPair();
  }
  lemma ZeroPair()
    ensures Pair(0, 0) == 0
  {
    hide Numbers.Uint;
    Numbers.UintOfEnds();
  }
}
