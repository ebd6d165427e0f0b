/** M-level state is out of reach below M-mode, and M-mode has exactly one entrance. */
module Isolation {
  import opened Rv32
  import opened Phys
  import opened Mmu
  import opened Csr
  import opened Trap
  import opened Hart
  import opened Invariants

  // ---- one instruction ----

  lemma EnterSHides(s: Word, priv: Word)
    ensures HiddenStatus(EnterS(s, priv)) == HiddenStatus(s)
  {}
  lemma LeaveSHides(s: Word)
    ensures HiddenStatus(LeaveS(s)) == HiddenStatus(s)
  {}
  lemma SppIsBelowM(s: Word)
    ensures SppOf(s) < PRV_M
  {}

  /** Core c' is still below M-mode and has the M-level state of c. */
  predicate Isolated(c: Core, c': Core) { c'.priv < PRV_M && MView(c'.csr) == MView(c.csr) }

  lemma CsrInstrIsolated(h: Hart, d: Decoded, a: Word)
    requires h.core.priv < PRV_M
    ensures Isolated(h.core, ExecCsr(h, d, a).h.core)
  {
    hide ExecCsr, CsrWrite, MView;
    var v := CsrInstrCore(h, d, a);
    if CsrWrite(h.core.csr, d.csr, h.core.priv, v).Written? {
      WriteBelowMKeepsMView(h.core.csr, d.csr, h.core.priv, v);
    }
  }

  lemma MretRefusedBelowM(c: Core)
    requires c.priv < PRV_M
    ensures !MretAllowed(c)
  {}

  lemma SretIsolated(c: Core)
    ensures Isolated(c, Sret(c))
  {
    hide LeaveS, SppOf, HiddenStatus, HiddenIe;
    LeaveSHides(c.csr.mstatus);
    SppIsBelowM(c.csr.mstatus);
  }

  lemma ReturnIsolated(h: Hart, d: Decoded)
    requires h.core.priv < PRV_M
    ensures Isolated(h.core, ExecReturn(h, d).h.core)
  {
    hide KindOf, Mret, Sret, MretAllowed, SretAllowed, MView;
    MretRefusedBelowM(h.core);
    SretIsolated(h.core);
  }

  lemma JumpIsolated(h: Hart, d: Decoded, a: Word, b: Word)
    requires h.core.priv < PRV_M
    ensures Isolated(h.core, ExecJump(h, d, a, b).h.core)
  {
    hide KindOf, JumpTarget, SetReg, MView;
  }

  lemma SequentialIsolated(h: Hart, d: Decoded)
    requires h.core.priv < PRV_M
    ensures Isolated(h.core, Sequential(h, d).core)
    ensures forall c :: Isolated(Sequential(h, d).core, c) ==> Isolated(h.core, c)
  {
    hide MView;
  }

  lemma ExecuteIsolated(h: Hart, d: Decoded, env: Env)
    requires h.core.priv < PRV_M
    ensures Isolated(h.core, Execute(h, d, env).h.core)
  {
    hide IsMemory, ExecMemory, Sum, Decoded.Len, GetReg, KindOf, ExecCsr, ExecReturn, ExecSystem, ExecJump, AluResult;
    hide SetReg, MView, Isolated;
    SequentialIsolated(h, d);
    var h1 := Sequential(h, d);
    var a, b := GetReg(h1.regs, d.rs1), GetReg(h1.regs, d.rs2);
    var k := KindOf(d.op);
    if IsMemory(k) {
      MemoryKeepsCore(h1, d, env, a, b);
    } else if k.KCsr? {
      CsrInstrIsolated(h1, d, a);
    } else if k.KMret? || k.KSret? {
      ReturnIsolated(h1, d);
    } else if k.KJal? || k.KJalr? || k.KBranch? {
      JumpIsolated(h1, d, a, b);
    } else {
      SystemKeepsHart(h1, d);
    }
  }

  // ---- an instruction that traps has not changed privilege or delegation ----

  lemma CsrInstrThatTraps(h: Hart, d: Decoded, a: Word)
    requires !TrapOfExec(ExecCsr(h, d, a)).NoExc?
    ensures ExecCsr(h, d, a).h.core == h.core
  {
    hide CsrRead, CsrWrite, CsrReads, CsrWrites, CsrNew, CsrOperand, SetReg, Flushes;
  }

  lemma ReturnThatTraps(h: Hart, d: Decoded)
    requires !TrapOfExec(ExecReturn(h, d)).NoExc?
    ensures ExecReturn(h, d).h.core == h.core
  {
    hide KindOf, Mret, Sret, MretAllowed, SretAllowed;
  }

  /** A trapping instruction leaves the core as it was, next_pc aside. */
  lemma ExecuteThatTraps(h: Hart, d: Decoded, env: Env)
    requires !TrapOfExec(Execute(h, d, env)).NoExc?
    ensures Execute(h, d, env).h.core == Sequential(h, d).core
  {
    hide IsMemory, ExecMemory, Sum, Decoded.Len, GetReg, KindOf, ExecCsr, ExecReturn, ExecSystem, JumpTarget, AluResult, SetReg;
    var h1 := Sequential(h, d);
    var a, b := GetReg(h1.regs, d.rs1), GetReg(h1.regs, d.rs2);
    var k := KindOf(d.op);
    if IsMemory(k) {
      MemoryKeepsCore(h1, d, env, a, b);
    } else if k.KCsr? {
      CsrInstrThatTraps(h1, d, a);
    } else if k.KMret? || k.KSret? {
      ReturnThatTraps(h1, d);
    } else {
      SystemKeepsHart(h1, d);
    }
  }

  // ---- where a trap goes ----

  /** State after a trap, in terms of the core the step started from. */
  predicate TrapEntered(c: Core, c': Core, cause: Word, tval: Word) {
    if Delegated(c.priv, c.csr, cause) then
      && c'.priv == PRV_S && c'.pc == Vector(c.csr.s.stvec, cause)
      && c'.csr.s.sepc == c.pc && c'.csr.s.scause == cause && c'.csr.s.stval == tval
      && c'.csr.mstatus == EnterS(c.csr.mstatus, c.priv)
      && MView(c'.csr) == MView(c.csr)
    else
      && c'.priv == PRV_M && c'.pc == Vector(c.csr.m.mtvec, cause)
      && c'.csr.m == c.csr.m.(mepc := c.pc, mcause := cause, mtval := tval)
      && c'.csr.mstatus == EnterM(c.csr.mstatus, c.priv) && c'.csr.s == c.csr.s
  }

  /** The core that take_trap sees: next_pc and the counters may differ from the start of the step. */
  predicate SameForTrap(c: Core, c1: Core) { c1 == c.(nextPc := c1.nextPc, csr := c.csr.(n := c1.csr.n)) }

  lemma TrapFrom(c: Core, h1: Hart, cause: Word, tval: Word)
    requires Even(c.pc) && SameForTrap(c, h1.core)
    ensures TrapEntered(c, Trapped(h1, cause, tval).core, cause, tval)
  {
    hide DelegBit, IsInterrupt, CauseCode, EnterS, EnterM, Vector, ClearBit0, Even, HiddenStatus, HiddenIe;
    ClearBit0OfEven(c.pc);
    EnterSHides(c.csr.mstatus, c.priv);
  }

  lemma RetireTraps(c: Core, x: Exec)
    requires Even(c.pc) && SameForTrap(c, x.h.core) && TrapOfExec(x).Exc?
    ensures TrapEntered(c, Retire(x).core, TrapOfExec(x).cause, TrapOfExec(x).tval)
  {
    hide Trapped, Tick, TrapEntered, Even;
    TickKeepsRest(x.h.core.csr);
    var h := WithCsr(x.h, Tick(x.h.core.csr));
    var h1 := h.(tlb := if x.sfence then map[] else h.tlb);
    if x.fault.Faulted? {
      TrapFrom(c, x.h, x.fault.cause, x.fault.va);
    } else {
      TrapFrom(c, h1, x.exc.cause, x.exc.tval);
    }
  }

  /** Every trap, whatever raised it, saves exactly the pc of the instruction that trapped with its
      cause and value, goes to the delegated handler, and changes nothing else of the other level. */
  lemma TrapSavesItsInstruction(h: Hart, env: Env)
    requires Even(h.core.pc) && TrapOf(h, env).Exc?
    ensures TrapEntered(h.core, Step(h, env).core, TrapOf(h, env).cause, TrapOf(h, env).tval)
  {
    hide Trapped, TakesInterrupt, PendingInterrupt, FetchOutcome, Fetched, Execute, Retire, Even, TrapEntered;
    if TakesInterrupt(h) {
      TrapFrom(h.core, h, PendingInterrupt(h.core.priv, h.core.csr), 0);
    } else {
      var o := FetchOutcome(h, env);
      if o.result.PageFault? {
        TrapFrom(h.core, WithMemory(h, o), o.result.cause, h.core.pc);
      } else {
        ExecuteThatTraps(WithMemory(h, o), Fetched(h, env), env);
        RetireTraps(h.core, Execute(WithMemory(h, o), Fetched(h, env), env));
      }
    }
  }

  // ---- a step that does not trap ----

  lemma RetireQuietly(x: Exec)
    requires TrapOfExec(x).NoExc?
    ensures Retire(x).core.priv == x.h.core.priv && MView(Retire(x).core.csr) == MView(x.h.core.csr)
  {
    hide Tick, HiddenStatus, HiddenIe, Trapped;
    TickKeepsRest(x.h.core.csr);
  }

  lemma QuietStepIsolated(h: Hart, env: Env)
    requires h.core.priv < PRV_M && TrapOf(h, env).NoExc?
    ensures Isolated(h.core, Step(h, env).core)
  {
    hide Trapped, TakesInterrupt, PendingInterrupt, FetchOutcome, Fetched, Execute, Retire, Even, MView;
    var o := FetchOutcome(h, env);
    ExecuteIsolated(WithMemory(h, o), Fetched(h, env), env);
    RetireQuietly(Execute(WithMemory(h, o), Fetched(h, env), env));
  }

  // ---- the theorems ----

  /** From below M-mode, a step ends in M-mode exactly when it takes a trap that is not delegated. */
  lemma OnlyTrapsEnterM(h: Hart, env: Env)
    requires HartOk(h) && h.core.priv < PRV_M
    ensures var t := TrapOf(h, env);
      Step(h, env).core.priv == PRV_M <==> t.Exc? && !Delegated(h.core.priv, h.core.csr, t.cause)
  {
    hide Step, TrapOf, Delegated, MView, Vector, EnterS, EnterM, HartOk;
    assert Even(h.core.pc) by { PcIsEven(h); }
    if TrapOf(h, env).Exc? {
      TrapSavesItsInstruction(h, env);
    } else {
      QuietStepIsolated(h, env);
    }
  }

  lemma PcIsEven(h: Hart)
    requires HartOk(h)
    ensures Even(h.core.pc)
  {}

  /** A step that stays below M-mode leaves the M-level state alone. */
  lemma StepBelowMIsIsolated(h: Hart, env: Env)
    requires HartOk(h) && h.core.priv < PRV_M && Step(h, env).core.priv < PRV_M
    ensures MView(Step(h, env).core.csr) == MView(h.core.csr)
  {
    hide Step, TrapOf, Delegated, MView, Vector, EnterS, EnterM, HartOk;
    assert Even(h.core.pc) by { PcIsEven(h); }
    if TrapOf(h, env).Exc? {
      TrapSavesItsInstruction(h, env);
    } else {
      QuietStepIsolated(h, env);
    }
  }

  /** Every state of the run is below M-mode. */
  ghost predicate BelowM(h: Hart, es: seq<Event>)
    decreases |es|
  {
    h.core.priv < PRV_M && (es == [] || BelowM(After(h, es[0]), es[1..]))
  }

  lemma AfterBelowMIsIsolated(h: Hart, e: Event)
    requires HartOk(h) && h.core.priv < PRV_M && After(h, e).core.priv < PRV_M
    ensures MView(After(h, e).core.csr) == MView(h.core.csr)
  {
    hide Step, HartOk, HiddenStatus, HiddenIe, Store;
    if e.Cpu? { StepBelowMIsIsolated(h, e.env); }
  }

  /** M-state isolation over runs: as long as no trap reaches M-mode, no program, device or bus
      master changes any machine register or any machine-only bit of mstatus and mie. */
  lemma {:induction false} RunBelowMIsIsolated(h: Hart, es: seq<Event>)
    requires HartOk(h) && BelowM(h, es)
    ensures MView(Run(h, es).core.csr) == MView(h.core.csr)
    decreases |es|
  {
    hide HartOk, After, MView;
    if es != [] {
      AfterKeepsOk(h, es[0]);
      AfterBelowMIsIsolated(h, es[0]);
      RunBelowMIsIsolated(After(h, es[0]), es[1..]);
    }
  }
}
