/** Traps and returns nest (src/cpu/trap.cpp:33-79, src/cpu/execute.cpp:258-284): over real runs of
    the hart, with handlers interrupted by further traps to any depth, each MRET or SRET undoes the
    trap it belongs to. */
module Nesting {
  import opened Rv32
  import opened Decode
  import opened Phys
  import opened Mmu
  import opened Csr
  import opened Trap
  import opened Hart
  import opened Invariants
  import opened Isolation

  // ---- the status bits ----

  /** Everything but the saved-state fields MPIE, MPP, SPIE and SPP, which a trap and its return
      overwrite. */
  function Kept(s: Word): Word { s & 0xFFFF_E65F }
  /** The bits hidden from S-mode, again without MPIE and MPP. */
  function Deep(s: Word): Word { s & 0xFFF3_E65D }
  /** The rest of Kept: SIE, SUM and MXR. */
  function Shown(s: Word): Word { s & 0xC_0002 }
  function SView(s: Word): Word { s & SSTATUS_MASK }
  function Join(x: Word, y: Word): Word { x | y }

  lemma DeepIsHidden(s: Word)
    ensures Deep(HiddenStatus(s)) == Deep(s)
  {}
  lemma DeepIsKept(s: Word)
    ensures Deep(Kept(s)) == Deep(s)
  {}
  lemma KeptParts(s: Word)
    ensures Kept(s) == Join(Deep(s), Shown(s))
  {}
  lemma DeepOfHidden(s: Word, t: Word)
    requires HiddenStatus(s) == HiddenStatus(t)
    ensures Deep(s) == Deep(t)
  {
    hide HiddenStatus, Deep;
    DeepIsHidden(s);
    DeepIsHidden(t);
  }
  lemma DeepOfKept(s: Word, t: Word)
    requires Kept(s) == Kept(t)
    ensures Deep(s) == Deep(t)
  {
    hide Deep, Kept;
    DeepIsKept(s);
    DeepIsKept(t);
  }
  lemma TsrOfDeep(s: Word)
    ensures Bit(Deep(s), MSTATUS_TSR) == Bit(s, MSTATUS_TSR)
  {}
  lemma TsrIsDeep(s: Word, t: Word)
    requires Deep(s) == Deep(t)
    ensures Bit(s, MSTATUS_TSR) == Bit(t, MSTATUS_TSR)
  {
    hide Deep, Bit;
    TsrOfDeep(s);
    TsrOfDeep(t);
  }

  /** MRET undoes the entry to M. */
  lemma LeaveEnterM(s: Word, p: Word)
    requires LegalPriv(p)
    ensures Kept(LeaveM(EnterM(s, p))) == Kept(s)
  {}

  lemma ShownOfView(t: Word)
    ensures Shown(LeaveS(t)) == Shown(LeaveS(SView(t)))
  {}
  lemma ShownOfEnterS(s: Word, p: Word)
    ensures Shown(LeaveS(EnterS(s, p))) == Shown(s)
  {}
  /** SRET undoes the entry to S, given the S view of the entry and the deep bits from before it. */
  lemma LeaveEnterS(s: Word, p: Word, t: Word)
    requires SView(t) == SView(EnterS(s, p)) && Deep(t) == Deep(s)
    ensures Kept(LeaveS(t)) == Kept(s)
  {
    hide Kept, Deep, Shown, SView, LeaveS, EnterS, Join, HiddenStatus;
    KeptParts(LeaveS(t));
    KeptParts(s);
    LeaveSHides(t);
    DeepOfHidden(LeaveS(t), t);
    ShownOfView(t);
    ShownOfView(EnterS(s, p));
    ShownOfEnterS(s, p);
  }
  lemma SppOfView(s: Word, t: Word)
    requires SView(s) == SView(t)
    ensures SppOf(s) == SppOf(t)
  {
    assert s & MSTATUS_SPP == SView(s) & MSTATUS_SPP;
    assert t & MSTATUS_SPP == SView(t) & MSTATUS_SPP;
  }
  lemma SppOfEnterS(s: Word, p: Word)
    requires p == PRV_U || p == PRV_S
    ensures SppOf(EnterS(s, p)) == p
  {}

  // ---- well-nested runs ----

  /** A run cut into its trap episodes: an event that does not trap or return, or a trapping step,
      the handler's own run, and the step that executes the handler's return. */
  datatype Script =
    | End
    | Then(e: Event, rest: Script)
    | Episode(trap: Env, handler: Script, ret: Env, rest: Script)

  /** The plain sequence of events. */
  function Flat(s: Script): seq<Event> {
    match s
    case End => []
    case Then(e, rest) => [e] + Flat(rest)
    case Episode(trap, handler, ret, rest) => [Cpu(trap)] + Flat(handler) + [Cpu(ret)] + Flat(rest)
  }

  ghost function Play(h: Hart, s: Script): Hart
    decreases s, 0
  {
    match s
    case End => h
    case Then(e, rest) => Play(After(h, e), rest)
    case Episode(trap, handler, ret, rest) => Play(EpisodeEnd(h, trap, handler, ret), rest)
  }

  ghost function EpisodeEnd(h: Hart, trap: Env, handler: Script, ret: Env): Hart
    decreases handler, 1
  {
    Step(Play(Step(h, trap), handler), ret)
  }

  /** An event that neither traps nor returns from a trap. */
  ghost predicate Ordinary(h: Hart, e: Event) {
    e.Cpu? ==> TrapOf(h, e.env).NoExc? && !Executes(h, e.env, MRET) && !Executes(h, e.env, SRET)
  }

  /** The handler entered in state `at` has put back, in state `end`, the epc and the status it was
      entered with: sepc and sstatus in an S handler, mepc and mstatus in an M handler. */
  predicate PutBack(at: Core, end: Core) {
    if at.priv == PRV_M
    then end.csr.m.mepc == at.csr.m.mepc && end.csr.mstatus == at.csr.mstatus
    else end.csr.s.sepc == at.csr.s.sepc && SView(end.csr.mstatus) == SView(at.csr.mstatus)
  }

  function ReturnOf(priv: Word): InstrType { if priv == PRV_M then MRET else SRET }

  /** Every trap has its handler and its return. A handler in S returns by SRET, which needs TSR clear;
      a handler in M does not care. */
  ghost predicate WellNested(h: Hart, s: Script)
    decreases s
  {
    match s
    case End => true
    case Then(e, rest) => Ordinary(h, e) && WellNested(After(h, e), rest)
    case Episode(trap, handler, ret, rest) =>
      var at := Step(h, trap);
      var end := Play(at, handler);
      && TrapOf(h, trap).Exc? && WellNested(at, handler)
      && PutBack(at.core, end.core) && Executes(end, ret, ReturnOf(at.core.priv))
      && (at.core.priv != PRV_M ==> !Bit(h.core.csr.mstatus, MSTATUS_TSR))
      && WellNested(EpisodeEnd(h, trap, handler, ret), rest)
  }

  lemma RunJoin(h: Hart, es: seq<Event>, fs: seq<Event>)
    ensures Run(h, es + fs) == Run(Run(h, es), fs)
    decreases |es|
  {
    hide After;
    if es == [] {
      assert es + fs == fs;
    } else {
      assert (es + fs)[0] == es[0] && (es + fs)[1..] == es[1..] + fs;
      RunJoin(After(h, es[0]), es[1..], fs);
    }
  }

  lemma RunOne(h: Hart, e: Event)
    ensures Run(h, [e]) == After(h, e)
  {
    hide After;
    assert Run(After(h, e), [e][1..]) == After(h, e);
  }

  /** A script is a run: the theorems below are about Run. */
  lemma {:induction false} PlayIsRun(h: Hart, s: Script)
    ensures Play(h, s) == Run(h, Flat(s))
    decreases s
  {
    hide Step;
    if s.Then? {
      RunJoin(h, [s.e], Flat(s.rest));
      RunOne(h, s.e);
      PlayIsRun(After(h, s.e), s.rest);
    } else if s.Episode? {
      var at := Step(h, s.trap);
      PlayIsRun(at, s.handler);
      PlayIsRun(EpisodeEnd(h, s.trap, s.handler, s.ret), s.rest);
      RunOne(h, Cpu(s.trap));
      RunOne(Play(at, s.handler), Cpu(s.ret));
      RunJoin(h, [Cpu(s.trap)], Flat(s.handler));
      RunJoin(h, [Cpu(s.trap)] + Flat(s.handler), [Cpu(s.ret)]);
      RunJoin(h, [Cpu(s.trap)] + Flat(s.handler) + [Cpu(s.ret)], Flat(s.rest));
    }
  }

  // ---- steps inside a level ----

  lemma KindOfReturns(op: InstrType)
    ensures KindOf(op).KMret? <==> op.MRET?
    ensures KindOf(op).KSret? <==> op.SRET?
  {}

  lemma CsrInstrKeepsPriv(h: Hart, d: Decoded, a: Word)
    ensures ExecCsr(h, d, a).h.core.priv == h.core.priv
  {
    hide ExecCsr, CsrWrite;
    var v := CsrInstrCore(h, d, a);
  }

  lemma ExecuteKeepsPriv(h: Hart, d: Decoded, env: Env)
    requires !d.op.MRET? && !d.op.SRET?
    ensures Execute(h, d, env).h.core.priv == h.core.priv
  {
    hide IsMemory, ExecMemory, Sum, Decoded.Len, GetReg, KindOf, ExecCsr, ExecReturn, ExecSystem, JumpTarget, AluResult, SetReg;
    KindOfReturns(d.op);
    var h1 := Sequential(h, d);
    var a, b := GetReg(h1.regs, d.rs1), GetReg(h1.regs, d.rs2);
    if IsMemory(KindOf(d.op)) {
      MemoryKeepsCore(h1, d, env, a, b);
    } else {
      CsrInstrKeepsPriv(h1, d, a);
      SystemKeepsHart(h1, d);
    }
  }

  lemma OrdinaryStepKeepsPriv(h: Hart, env: Env)
    requires Ordinary(h, Cpu(env))
    ensures Step(h, env).core.priv == h.core.priv
  {
    hide Trapped, TakesInterrupt, PendingInterrupt, FetchOutcome, Fetched, Execute, Retire, Even, MView;
    var o := FetchOutcome(h, env);
    ExecuteKeepsPriv(WithMemory(h, o), Fetched(h, env), env);
    RetireQuietly(Execute(WithMemory(h, o), Fetched(h, env), env));
  }

  lemma MViewHasStatus(c: Csrs, c': Csrs)
    requires MView(c) == MView(c')
    ensures HiddenStatus(c.mstatus) == HiddenStatus(c'.mstatus)
  {
    hide HiddenStatus, HiddenIe;
  }

  /** What a stretch of a level keeps: its privilege and, below M, the deep status bits. */
  predicate SameLevel(c: Core, c': Core) {
    c'.priv == c.priv && (c.priv < PRV_M ==> Deep(c'.csr.mstatus) == Deep(c.csr.mstatus))
  }

  lemma OrdinaryKeepsLevel(h: Hart, e: Event)
    requires HartOk(h) && Ordinary(h, e)
    ensures HartOk(After(h, e)) && SameLevel(h.core, After(h, e).core)
  {
    hide HartOk, Step, TrapOf, Executes, Deep, MView, HiddenStatus, Store;
    AfterKeepsOk(h, e);
    if e.Cpu? {
      OrdinaryStepKeepsPriv(h, e.env);
      if h.core.priv < PRV_M {
        StepBelowMIsIsolated(h, e.env);
        MViewHasStatus(h.core.csr, Step(h, e.env).core.csr);
        DeepOfHidden(h.core.csr.mstatus, Step(h, e.env).core.csr.mstatus);
      }
    }
  }

  // ---- the return step ----

  lemma RetireReturn(x: Exec)
    requires x.fault.NoFault? && x.exc.NoExc?
    ensures Retire(x).core.pc == x.h.core.nextPc && Retire(x).core.priv == x.h.core.priv
    ensures Retire(x).core.csr.mstatus == x.h.core.csr.mstatus
  {
    hide Tick, Trapped;
    TickKeepsRest(x.h.core.csr);
  }

  lemma ExecuteMret(h: Hart, d: Decoded, env: Env)
    requires d.op == MRET && MretAllowed(h.core)
    ensures Execute(h, d, env) == Done(h.(core := Mret(Sequential(h, d).core)))
  {
    hide Mret, Sum, Decoded.Len, GetReg, KindOf, ExecMemory, ExecCsr, ExecSystem, ExecJump, AluResult;
    KindOfReturns(d.op);
  }
  lemma ExecuteSret(h: Hart, d: Decoded, env: Env)
    requires d.op == SRET && SretAllowed(h.core)
    ensures Execute(h, d, env) == Done(h.(core := Sret(Sequential(h, d).core)))
  {
    hide Sret, Bit, Sum, Decoded.Len, GetReg, KindOf, ExecMemory, ExecCsr, ExecSystem, ExecJump, AluResult;
    KindOfReturns(d.op);
  }

  lemma MretStep(h: Hart, env: Env)
    requires Even(h.core.pc) && Executes(h, env, MRET) && h.core.priv == PRV_M
    ensures var c := Step(h, env).core;
      c.pc == h.core.csr.m.mepc && c.priv == MppOf(h.core.csr.mstatus) && c.csr.mstatus == LeaveM(h.core.csr.mstatus)
  {
    hide Trapped, TakesInterrupt, PendingInterrupt, FetchOutcome, Fetched, Execute, Retire, Even, LeaveM, MppOf;
    var o := FetchOutcome(h, env);
    var h1, d := WithMemory(h, o), Fetched(h, env);
    ExecuteMret(h1, d, env);
    RetireReturn(Execute(h1, d, env));
  }

  lemma SretStep(h: Hart, env: Env)
    requires Even(h.core.pc) && Executes(h, env, SRET) && h.core.priv == PRV_S && !Bit(h.core.csr.mstatus, MSTATUS_TSR)
    ensures var c := Step(h, env).core;
      c.pc == h.core.csr.s.sepc && c.priv == SppOf(h.core.csr.mstatus) && c.csr.mstatus == LeaveS(h.core.csr.mstatus)
  {
    hide Trapped, TakesInterrupt, PendingInterrupt, FetchOutcome, Fetched, Execute, Retire, Even, LeaveS, SppOf, Bit;
    var o := FetchOutcome(h, env);
    var h1, d := WithMemory(h, o), Fetched(h, env);
    ExecuteSret(h1, d, env);
    RetireReturn(Execute(h1, d, env));
  }

  /** The condition on TSR is needed: with TSR set, SRET in S-mode traps as illegal. */
  lemma SretWithTsrTraps(h: Hart, env: Env)
    requires Even(h.core.pc) && Executes(h, env, SRET) && h.core.priv == PRV_S && Bit(h.core.csr.mstatus, MSTATUS_TSR)
    ensures TrapOf(h, env) == Exc(CAUSE_ILLEGAL_INSTR, Fetched(h, env).raw)
  {
    hide TakesInterrupt, FetchOutcome, Fetched, Even, Sret, Bit, Sum, Decoded.Len, GetReg, KindOf, ExecMemory, ExecCsr, ExecSystem, ExecJump, AluResult;
    KindOfReturns(SRET);
  }

  // ---- one episode ----

  /** The trap is undone: pc, privilege and every status bit outside the saved-state fields, MIE and
      SIE among them, are those of the interrupted state. */
  predicate Undone(c: Core, c': Core) {
    c'.pc == c.pc && c'.priv == c.priv && Kept(c'.csr.mstatus) == Kept(c.csr.mstatus)
  }

  lemma MEpisode(h: Hart, trap: Env, end: Hart, ret: Env)
    requires HartOk(h) && TrapOf(h, trap).Exc? && HartOk(end)
    requires var at := Step(h, trap); at.core.priv == PRV_M && PutBack(at.core, end.core) && SameLevel(at.core, end.core)
    requires Executes(end, ret, MRET)
    ensures Undone(h.core, Step(end, ret).core)
  {
    hide Step, TrapOf, Executes, TlbOk, CsrsOk, Even, Vector, EnterM, EnterS, LeaveM, Kept, Deep, SView, MView, MppOf, Delegated;
    TrapSavesItsInstruction(h, trap);
    MretStep(end, ret);
    LeaveEnterM(h.core.csr.mstatus, h.core.priv);
    EnterMMpp(h.core.csr.mstatus, h.core.priv);
  }

  lemma DelegatedIsBelowM(priv: Word, c: Csrs, cause: Word)
    requires LegalPriv(priv) && Delegated(priv, c, cause)
    ensures priv == PRV_U || priv == PRV_S
  {}

  lemma SEpisode(h: Hart, trap: Env, end: Hart, ret: Env)
    requires HartOk(h) && TrapOf(h, trap).Exc? && HartOk(end) && !Bit(h.core.csr.mstatus, MSTATUS_TSR)
    requires var at := Step(h, trap); at.core.priv != PRV_M && PutBack(at.core, end.core) && SameLevel(at.core, end.core)
    requires Executes(end, ret, SRET)
    ensures Undone(h.core, Step(end, ret).core)
  {
    hide Step, TrapOf, Executes, TlbOk, CsrsOk, Even, Vector, EnterM, EnterS, LeaveS, Kept, Deep, SView, MView, SppOf, Delegated, Bit;
    var c, at := h.core, Step(h, trap).core;
    TrapSavesItsInstruction(h, trap);
    DelegatedIsBelowM(c.priv, c.csr, TrapOf(h, trap).cause);
    MViewHasStatus(c.csr, at.csr);
    DeepOfHidden(c.csr.mstatus, at.csr.mstatus);
    TsrIsDeep(c.csr.mstatus, end.core.csr.mstatus);
    SretStep(end, ret);
    LeaveEnterS(c.csr.mstatus, c.priv, end.core.csr.mstatus);
    SppOfView(end.core.csr.mstatus, at.csr.mstatus);
    SppOfEnterS(c.csr.mstatus, c.priv);
  }

  lemma UndoneIsSameLevel(c: Core, c': Core)
    requires Undone(c, c')
    ensures SameLevel(c, c')
  {
    hide Kept, Deep;
    DeepOfKept(c.csr.mstatus, c'.csr.mstatus);
  }

  /** A well-nested run keeps the level it runs at, whatever traps it takes on the way. */
  lemma {:induction false} ScriptKeepsLevel(h: Hart, s: Script)
    requires HartOk(h) && WellNested(h, s)
    ensures HartOk(Play(h, s)) && SameLevel(h.core, Play(h, s).core)
    decreases s, 1
  {
    hide HartOk, Step, Ordinary, PutBack, Executes, TrapOf, Undone, Deep;
    if s.Then? {
      OrdinaryKeepsLevel(h, s.e);
      ScriptKeepsLevel(After(h, s.e), s.rest);
    } else if s.Episode? {
      var h1 := EpisodeEnd(h, s.trap, s.handler, s.ret);
      EpisodeIsUndone(h, s);
      UndoneIsSameLevel(h.core, h1.core);
      ScriptKeepsLevel(h1, s.rest);
    }
  }

  /** Each return undoes its trap: from any legal state, through a handler that runs arbitrary
      ordinary instructions and further nested traps and puts back the epc and status it was entered
      with, the MRET or SRET resumes the interrupted pc at the interrupted privilege with MIE, SIE and
      all other status bits outside MPIE, MPP, SPIE, SPP as they were. */
  lemma {:induction false} EpisodeIsUndone(h: Hart, s: Script)
    requires s.Episode? && HartOk(h) && WellNested(h, s)
    ensures var h' := EpisodeEnd(h, s.trap, s.handler, s.ret); HartOk(h') && Undone(h.core, h'.core)
    decreases s, 0
  {
    hide HartOk, Step, Ordinary, PutBack, Executes, TrapOf, Undone, SameLevel;
    var at := Step(h, s.trap);
    var end := Play(at, s.handler);
    StepKeepsOk(h, s.trap);
    ScriptKeepsLevel(at, s.handler);
    StepKeepsOk(end, s.ret);
    if at.core.priv == PRV_M { MEpisode(h, s.trap, end, s.ret); } else { SEpisode(h, s.trap, end, s.ret); }
  }

  /** MIE and SIE in particular. */
  lemma UndoneRestoresEnables(c: Core, c': Core)
    requires Undone(c, c')
    ensures Bit(c'.csr.mstatus, MSTATUS_MIE) == Bit(c.csr.mstatus, MSTATUS_MIE)
    ensures Bit(c'.csr.mstatus, MSTATUS_SIE) == Bit(c.csr.mstatus, MSTATUS_SIE)
  {
    assert Kept(c.csr.mstatus) & 0xA == c.csr.mstatus & 0xA;
    assert Kept(c'.csr.mstatus) & 0xA == c'.csr.mstatus & 0xA;
  }

  // ---- such runs exist ----

  const ECALL_WORD: Word := 0x0000_0073
  const MRET_WORD: Word := 0x3020_0073

  /** Surroundings in which every fetch reads this word. */
  function Reading(w: Word, pick: Picker): Env { Env(_ => w, pick) }

  lemma DecodeOfWords()
    ensures DecodeInstr(ECALL_WORD).op == ECALL && DecodeInstr(MRET_WORD).op == MRET
  {}

  lemma ReadsWord(h: Hart, w: Word, pick: Picker)
    requires h.ram == map[] && !Sv32On(h.core.csr.s.satp)
    ensures FetchOutcome(h, Reading(w, pick)) == Outcome(Mapped(h.core.pc), h.ram, h.tlb)
    ensures Fetched(h, Reading(w, pick)) == DecodeInstr(w)
  {
    hide Sv32On, DecodeInstr;
    WholeMask(w);
  }
  lemma WholeMask(w: Word)
    ensures w & 0xFFFF_FFFF == w
  {}

  lemma NothingPending(h: Hart)
    requires h.core.csr.mie == 0
    ensures !TakesInterrupt(h)
  {
    MasksOfZero(h.core.csr.Mip(), h.core.csr.m.mideleg);
    hide Both, Without, Either, MEnabled, SEnabled, Csrs.Mip;
  }
  lemma MasksOfZero(x: Word, d: Word)
    ensures Both(x, 0) == 0 && Without(0, d) == 0 && Both(0, d) == 0 && Either(0, 0) == 0
  {}

  lemma EcallTraps(h: Hart, d: Decoded, env: Env)
    requires d.op == ECALL
    ensures Execute(h, d, env) == Raise(Sequential(h, d), EcallCause(h.core.priv), 0)
  {
    hide Sum, Decoded.Len, GetReg, EcallCause, KindOf, ExecMemory, ExecCsr, ExecReturn, ExecJump, AluResult;
    KindOfEcall();
  }
  lemma KindOfEcall()
    ensures KindOf(ECALL) == KEcall
  {}

  /** From U-mode after reset, ECALL and MRET make a well-nested episode: the theorems are not empty. */
  lemma EpisodesExist(h: Hart, pick: Picker)
    requires h.ram == map[] && h.core.priv == PRV_U && h.core.csr == RESET && Even(h.core.pc)
    ensures WellNested(h, Episode(Reading(ECALL_WORD, pick), End, Reading(MRET_WORD, pick), End))
  {
    hide Even, TakesInterrupt, DecodeInstr, Execute, Vector, EnterM, EnterS, Delegated, FetchOutcome, Fetched, MView, Sv32On;
    var trap, ret := Reading(ECALL_WORD, pick), Reading(MRET_WORD, pick);
    DecodeOfWords();
    SatpOff();
    NothingPending(h);
    ReadsWord(h, ECALL_WORD, pick);
    EcallTraps(WithMemory(h, FetchOutcome(h, trap)), Fetched(h, trap), trap);
    var at := Step(h, trap);
    NotDelegated(h.core, EcallCause(PRV_U));
    TickKeepsRest(h.core.csr);
    assert at.ram == map[] && at.core.priv == PRV_M && at.core.csr.mie == 0 && at.core.csr.s.satp == 0;
    NothingPending(at);
    ReadsWord(at, MRET_WORD, pick);
  }
  lemma SatpOff()
    ensures !Sv32On(0)
  {}
  lemma NotDelegated(c: Core, cause: Word)
    requires c.csr == RESET
    ensures forall n: Counters :: !Delegated(c.priv, c.csr.(n := n), cause)
  {}
}
