/** Atomics: page faults of AMOs, and the LR/SC reservation over whole runs. */
module Atomics {
  import opened Rv32
  import opened Phys
  import opened Mmu
  import opened TlbTransparency
  import opened Paging
  import opened Csr
  import opened Trap
  import opened Hart
  import opened Invariants

  // ---- an AMO's two halves see one page ----

  /** The load half of an AMO: what the store half finds. */
  ghost function AfterLoad(h: Hart, env: Env, va: Word): Hart { WithMemory(h, TranslateData(h, env, va, LOAD)) }

  lemma LoadOutcomeTlb(m: Ram, io: Io, t: Tlb, pick: Picker, satp: Word, va: Word, priv: Word, mstatus: Word)
    requires Sv32On(satp) && Translate(m, io, t, pick, satp, va, LOAD, priv, mstatus).result.Mapped?
    ensures var o := Translate(m, io, t, pick, satp, va, LOAD, priv, mstatus);
      PageOf(va) in o.tlb && o.result == Mapped(Compose(o.tlb[PageOf(va)].ppn, o.tlb[PageOf(va)].super, va))
  {
    hide FindLeaf, CheckPermissions, Compose, WalkRam, Sv32On, PageOf, SuperAligned, Ppn, Flags, Marked, Victim;
    LeafOfMapped(FindLeaf(m, io, satp, va), va, LOAD, priv, mstatus);
  }

  lemma StoreOnHit(m: Ram, io: Io, t: Tlb, pick: Picker, satp: Word, va: Word, priv: Word, mstatus: Word)
    requires Sv32On(satp) && PageOf(va) in t
    ensures var o := Translate(m, io, t, pick, satp, va, STORE, priv, mstatus);
      o.result.Mapped? ==> o.result == Mapped(Compose(t[PageOf(va)].ppn, t[PageOf(va)].super, va))
  {
    hide FindLeaf, CheckPermissions, Compose, WalkRam, Sv32On, PageOf, Insert;
  }

  /** When neither half faults, both go to the same physical address. */
  lemma HalvesMeet(h: Hart, env: Env, va: Word)
    requires TranslateData(h, env, va, LOAD).result.Mapped?
    requires TranslateData(AfterLoad(h, env, va), env, va, STORE).result.Mapped?
    ensures TranslateData(AfterLoad(h, env, va), env, va, STORE).result == TranslateData(h, env, va, LOAD).result
  {
    hide Translate, EffectivePriv, Compose, PageOf, Sv32On;
    var c := h.core.csr;
    var p := EffectivePriv(h.core);
    if DataMmuActive(h.core) {
      LoadOutcomeTlb(h.ram, env.io, h.tlb, env.pick, c.s.satp, va, p, c.mstatus);
      var h1 := AfterLoad(h, env, va);
      StoreOnHit(h1.ram, env.io, h1.tlb, env.pick, c.s.satp, va, p, c.mstatus);
    }
  }

  lemma DataFaultChangesNothing(h: Hart, env: Env, va: Word, acc: Access)
    ensures var o := TranslateData(h, env, va, acc);
      o.result.PageFault? ==> o == Outcome(PageFault(FaultCause(acc)), h.ram, h.tlb)
  {
    hide Translate, DataMmuActive, EffectivePriv, FaultCause;
    FaultChangesNothing(h.ram, env.io, h.tlb, env.pick, h.core.csr.s.satp, va, acc, EffectivePriv(h.core), h.core.csr.mstatus);
  }

  lemma DataLoadFaultImpliesStoreFault(h: Hart, env: Env, va: Word)
    requires CacheWellFormed(h.tlb) && TranslateData(h, env, va, LOAD).result.PageFault?
    ensures TranslateData(h, env, va, STORE).result.PageFault?
  {
    hide Translate, DataMmuActive, EffectivePriv, CacheWellFormed;
    LoadFaultImpliesStoreFault(h.ram, env.io, h.tlb, env.pick, env.pick, h.core.csr.s.satp, va, EffectivePriv(h.core), h.core.csr.mstatus);
  }

  lemma DataKeepsRam(h: Hart, env: Env, va: Word, acc: Access)
    ensures SameButAD(h.ram, TranslateData(h, env, va, acc).ram)
  {
    hide Translate, DataMmuActive, EffectivePriv, SameButAD;
    SameButADReflexive(h.ram);
    TranslateKeepsRam(h.ram, env.io, h.tlb, env.pick, h.core.csr.s.satp, va, acc, EffectivePriv(h.core), h.core.csr.mstatus);
  }

  lemma TranslateKeepsRam(m: Ram, io: Io, t: Tlb, pick: Picker, satp: Word, va: Word, acc: Access, priv: Word, mstatus: Word)
    ensures SameButAD(m, Translate(m, io, t, pick, satp, va, acc, priv, mstatus).ram)
  {
    hide WalkRam, WalkResult, HitResult, FindLeaf, SameButAD, Sv32On, PageOf, Insert, EntryOf;
    SameButADReflexive(m);
    WalkKeepsRam(m, io, satp, va, acc, priv, mstatus);
  }

  /** The core and cache an access depends on do not change when rd is written. */
  lemma RdDoesNotMatter(h: Hart, d: Decoded, v: Word, env: Env, va: Word, acc: Access)
    ensures TranslateData(WithRd(h, d, v), env, va, acc) == TranslateData(h, env, va, acc)
  {
    hide Translate, DataMmuActive, EffectivePriv, SetReg;
  }

  /** An AMO page-faults exactly when its store half does, and is then reported as a store/AMO page
      fault at its own address, although its first access is a load. Its data word is not written:
      memory and cache are those the load half leaves. */
  lemma AmoFaultIsStoreFault(h: Hart, d: Decoded, env: Env, va: Word, v: Word)
    requires CacheWellFormed(h.tlb) && !MisalignedFor(va, Whole)
    ensures var x, o := ExecAmo(h, d, env, va, v), TranslateData(h, env, va, LOAD);
      if TranslateData(AfterLoad(h, env, va), env, va, STORE).result.PageFault?
      then x.fault == Faulted(CAUSE_STORE_PAGE_FAULT, va) && x.h.ram == o.ram && x.h.tlb == o.tlb
      else x.fault == NoFault
  {
    hide TranslateData, MisalignedFor, AmoResult, Load, Store, SetReg, CacheWellFormed;
    var r := ReadData(h, env, va, Whole);
    DataFaultChangesNothing(h, env, va, LOAD);
    RdDoesNotMatter(r.h, d, r.value, env, va, STORE);
    DataFaultChangesNothing(r.h, env, va, STORE);
    if r.fault.Faulted? { DataLoadFaultImpliesStoreFault(h, env, va); }
  }

  /** The hart as its instruction finds it: fetched, with next_pc at the sequential pc. */
  ghost function Ready(h: Hart, env: Env): Hart
    requires FetchOutcome(h, env).result.Mapped?
  {
    Sequential(WithMemory(h, FetchOutcome(h, env)), Fetched(h, env))
  }
  /** The value of rs1 of the instruction that the step executes. */
  ghost function ValueOfRs1(h: Hart, env: Env): Word
    requires FetchOutcome(h, env).result.Mapped?
  {
    GetReg(h.regs, Fetched(h, env).rs1)
  }
  ghost function ValueOfRs2(h: Hart, env: Env): Word
    requires FetchOutcome(h, env).result.Mapped?
  {
    GetReg(h.regs, Fetched(h, env).rs2)
  }

  /** The step gets to execute an instruction of this kind. */
  ghost predicate Reaches(h: Hart, env: Env, k: Kind) {
    !TakesInterrupt(h) && Even(h.core.pc) && FetchOutcome(h, env).result.Mapped? && KindOf(Fetched(h, env).op) == k
  }

  lemma ExecutedAmo(h: Hart, env: Env)
    requires Reaches(h, env, KAmo)
    ensures Executed(h, env) == ExecAmo(Ready(h, env), Fetched(h, env), env, ValueOfRs1(h, env), ValueOfRs2(h, env))
  {
    hide FetchOutcome, Fetched, ExecAmo, KindOf, Sum, Decoded.Len, GetReg, TakesInterrupt, Even;
  }

  lemma ReadyIsWellFormed(h: Hart, env: Env)
    requires HartOk(h) && FetchOutcome(h, env).result.Mapped?
    ensures CacheWellFormed(Ready(h, env).tlb)
  {
    hide FetchOutcome, Fetched, CacheWellFormed, CoreOk, Even, Sum, Decoded.Len;
    FetchKeepsTlbOk(h, env);
  }

  lemma RetireKeepsMemory(x: Exec)
    ensures Retire(x).ram == x.h.ram && Retire(x).regs == x.h.regs
  {
    hide TakeTrap, Tick;
  }

  /** The same for whole steps: from any reachable state, a step that executes an aligned AMO traps
      exactly when the store half faults, with cause 15 and the address in rs1, and leaves the memory of
      the load half. */
  lemma AmoStepFaultsAsStore(h: Hart, env: Env)
    requires HartOk(h) && Reaches(h, env, KAmo) && !MisalignedFor(ValueOfRs1(h, env), Whole)
    ensures var h1, va := Ready(h, env), ValueOfRs1(h, env);
      if TranslateData(AfterLoad(h1, env, va), env, va, STORE).result.PageFault?
      then TrapOf(h, env) == Exc(CAUSE_STORE_PAGE_FAULT, va) && Step(h, env).ram == TranslateData(h1, env, va, LOAD).ram
      else TrapOf(h, env) == NoExc
  {
    hide FetchOutcome, Fetched, TakesInterrupt, Even, HartOk, CacheWellFormed, MisalignedFor, TranslateData, ExecAmo, Execute, Retire, KindOf, GetReg, Ready;
    ReadyIsWellFormed(h, env);
    ExecutedAmo(h, env);
    AmoFaultIsStoreFault(Ready(h, env), Fetched(h, env), env, ValueOfRs1(h, env), ValueOfRs2(h, env));
    AmoRaisesNothing(Ready(h, env), Fetched(h, env), env, ValueOfRs1(h, env), ValueOfRs2(h, env));
    RetireKeepsMemory(Executed(h, env));
  }
  lemma AmoRaisesNothing(h: Hart, d: Decoded, env: Env, va: Word, v: Word)
    requires !MisalignedFor(va, Whole)
    ensures ExecAmo(h, d, env, va, v).exc.NoExc?
  {
    hide ReadData, WriteData, MisalignedFor, AmoResult, SetReg;
  }

  /** An AMO that does not fault reads and writes one and the same physical word, and rd gets the
      value read. */
  lemma AmoIsReadModifyWrite(h: Hart, d: Decoded, env: Env, va: Word, v: Word)
    requires CacheWellFormed(h.tlb) && !MisalignedFor(va, Whole) && ExecAmo(h, d, env, va, v).fault.NoFault?
    ensures TranslateData(h, env, va, LOAD).result.Mapped?
    ensures var o := TranslateData(h, env, va, LOAD);
      var was := Load(o.ram, env.io, o.result.paddr, Whole);
      var o' := TranslateData(WithMemory(h, o), env, va, STORE);
      var x := ExecAmo(h, d, env, va, v);
      && x.h.ram == Store(o'.ram, o.result.paddr, AmoResult(d.op, was, v), Whole)
      && x.h.regs == SetReg(h.regs, d.rd, was)
  {
    hide TranslateData, MisalignedFor, AmoResult, Load, Store, SetReg, CacheWellFormed;
    var r := ReadData(h, env, va, Whole);
    RdDoesNotMatter(r.h, d, r.value, env, va, STORE);
    if TranslateData(h, env, va, LOAD).result.Mapped? { HalvesMeet(h, env, va); }
  }

  // ---- the reservation over runs ----

  /** What a step does to the reservation: nothing, hold a word, or let go. */
  datatype LrEvent = Quiet | Reserve(word: Word) | Release

  function WordOf(a: Word): Word { a & 0xFFFF_FFFC }

  /** LR.W, SC.W, SB, SH and SW that pass their alignment check; everything else is quiet. */
  function LrEventOfInstr(d: Decoded, a: Word): LrEvent {
    match KindOf(d.op)
    case KLr => if MisalignedFor(a, Whole) then Quiet else Reserve(WordOf(a))
    case KSc => if MisalignedFor(a, Whole) then Quiet else Release
    case KStore(sz) => if MisalignedFor(Sum(a, d.imm), sz) then Quiet else Release
    case _ => Quiet
  }

  ghost function LrEventOf(h: Hart, e: Event): LrEvent {
    if !e.Cpu? || TakesInterrupt(h) || !Even(h.core.pc) || !FetchOutcome(h, e.env).result.Mapped? then Quiet
    else var d := Fetched(h, e.env); LrEventOfInstr(d, GetReg(h.regs, d.rs1))
  }

  /** The most recent event that was not quiet, `last` standing for what came before the run. */
  ghost function LastLrEvent(h: Hart, es: seq<Event>, last: LrEvent): LrEvent
    decreases |es|
  {
    if es == [] then last
    else
      var e := LrEventOf(h, es[0]);
      LastLrEvent(After(h, es[0]), es[1..], if e.Quiet? then last else e)
  }

  /** The reservation is held exactly when the last event was an LR.W, and then for its word. */
  predicate Reflects(r: Reservation, last: LrEvent) {
    r.valid == last.Reserve? && (last.Reserve? ==> r.addr == last.word)
  }

  lemma MemoryReservation(h: Hart, d: Decoded, env: Env, a: Word, b: Word, last: LrEvent)
    requires IsMemory(KindOf(d.op)) && Reflects(h.lr, last)
    ensures var e := LrEventOfInstr(d, a);
      Reflects(ExecMemory(h, d, env, a, b).h.lr, if e.Quiet? then last else e)
  {
    hide KindOf, MisalignedFor, ReadData, WriteData, SetReg, Extend, AmoResult, Sum, Mask, Reservation.Check;
    var k := KindOf(d.op);
    if k.KLoad? {
      ReadKeepsRest(h, env, Sum(a, d.imm), k.sz);
    } else if k.KStore? {
      WriteKeepsRest(h, env, Sum(a, d.imm), b & Mask(k.sz), k.sz);
    } else if k.KLr? {
      ReadKeepsRest(h, env, a, Whole);
    } else if k.KSc? {
      WriteKeepsRest(h, env, a, b, Whole);
    } else {
      ReadKeepsRest(h, env, a, Whole);
      var r := ReadData(h, env, a, Whole);
      WriteKeepsRest(WithRd(r.h, d, r.value), env, a, AmoResult(d.op, r.value, b), Whole);
    }
  }

  lemma ControlKeepsReservation(h: Hart, d: Decoded, a: Word, b: Word)
    ensures ExecControl(h, d, a, b).h.lr == h.lr
  {
    hide KindOf, JumpTarget, ExecSystem, AluResult, SetReg, Mret, Sret, MretAllowed, SretAllowed;
    hide CsrRead, CsrWrite, CsrReads, CsrWrites, CsrNew, CsrOperand, Flushes;
    SystemKeepsHart(h, d);
  }

  lemma ExecuteReservation(h: Hart, d: Decoded, env: Env, last: LrEvent)
    requires Reflects(h.lr, last)
    ensures var e := LrEventOfInstr(d, GetReg(h.regs, d.rs1));
      Reflects(Execute(h, d, env).h.lr, if e.Quiet? then last else e)
  {
    hide KindOf, ExecMemory, ExecControl, Sum, Decoded.Len, GetReg, Reflects, MisalignedFor, WordOf;
    var h1 := Sequential(h, d);
    var a, b := GetReg(h1.regs, d.rs1), GetReg(h1.regs, d.rs2);
    if IsMemory(KindOf(d.op)) {
      MemoryReservation(h1, d, env, a, b, last);
    } else {
      ControlKeepsReservation(h1, d, a, b);
    }
  }

  lemma RetireKeepsReservation(x: Exec)
    ensures Retire(x).lr == x.h.lr
  {
    hide TakeTrap, Tick;
  }

  lemma AfterReservation(h: Hart, e: Event, last: LrEvent)
    requires Reflects(h.lr, last)
    ensures var v := LrEventOf(h, e); Reflects(After(h, e).lr, if v.Quiet? then last else v)
  {
    hide TakeTrap, TakesInterrupt, PendingInterrupt, FetchOutcome, Fetched, Execute, Retire, Even, Reflects, LrEventOfInstr, GetReg, Store;
    if e.Cpu? && !TakesInterrupt(h) && Even(h.core.pc) {
      var o := FetchOutcome(h, e.env);
      if o.result.Mapped? {
        var h1, d := WithMemory(h, o), Fetched(h, e.env);
        ExecuteReservation(h1, d, e.env, last);
        RetireKeepsReservation(Execute(h1, d, e.env));
      }
    }
  }

  /** LR/SC history: at every point of every run, through traps, AMOs, page faults and device
      activity, the reservation is held exactly when the most recent LR.W, SC.W or store that
      passed its alignment check was an LR.W, and it names that LR.W's word. */
  lemma {:induction false} ReservationIsHistory(h: Hart, es: seq<Event>, last: LrEvent)
    requires Reflects(h.lr, last)
    ensures Reflects(Run(h, es).lr, LastLrEvent(h, es, last))
    decreases |es|
  {
    hide Reflects, After, LrEventOf;
    if es != [] {
      AfterReservation(h, es[0], last);
      var e := LrEventOf(h, es[0]);
      ReservationIsHistory(After(h, es[0]), es[1..], if e.Quiet? then last else e);
    }
  }

  lemma ScOutcome(h: Hart, d: Decoded, env: Env, va: Word, v: Word, last: LrEvent)
    requires Reflects(h.lr, last) && !MisalignedFor(va, Whole)
    ensures ExecSc(h, d, env, va, v).exc.NoExc?
    ensures var x, w := ExecSc(h, d, env, va, v), WriteData(h, env, va, v, Whole);
      if last == Reserve(WordOf(va))
      then x.h.regs == SetReg(h.regs, d.rd, 0) && x.h.ram == w.h.ram && x.fault == w.fault
      else x.h.regs == SetReg(h.regs, d.rd, 1) && x.h.ram == h.ram && x.fault.NoFault?
  {
    hide WriteData, SetReg, MisalignedFor;
    WriteKeepsRest(h, env, va, v, Whole);
  }

  lemma ExecutedSc(h: Hart, env: Env)
    requires Reaches(h, env, KSc)
    ensures Executed(h, env) == ExecSc(Ready(h, env), Fetched(h, env), env, ValueOfRs1(h, env), ValueOfRs2(h, env))
  {
    hide FetchOutcome, Fetched, ExecSc, KindOf, Sum, Decoded.Len, GetReg, TakesInterrupt, Even;
  }

  lemma RdReadsBack(r: Regs, rd: Word, v: Word)
    requires rd != 0
    ensures GetReg(SetReg(r, rd, v), rd) == v
  {}

  /** SC.W over whole runs: after any history, an aligned SC.W that the next step executes stores and
      returns 0 exactly when the most recent LR.W, SC.W or store of the run that passed its alignment
      check was an LR.W to the same word. Then its effect on memory is that of the store, page faults
      included; otherwise it returns 1, cannot fault and changes no memory. */
  lemma ScSucceedsByHistory(h0: Hart, es: seq<Event>, last: LrEvent, env: Env)
    requires Reflects(h0.lr, last)
    requires Reaches(Run(h0, es), env, KSc) && !MisalignedFor(ValueOfRs1(Run(h0, es), env), Whole)
    ensures var h := Run(h0, es);
      var h', d, va := Step(h, env), Fetched(h, env), ValueOfRs1(h, env);
      var w := WriteData(Ready(h, env), env, va, ValueOfRs2(h, env), Whole);
      if LastLrEvent(h0, es, last) == Reserve(WordOf(va)) then
        && h'.regs == SetReg(h.regs, d.rd, 0) && h'.ram == w.h.ram
        && TrapOf(h, env) == (if w.fault.NoFault? then NoExc else Exc(w.fault.cause, w.fault.va))
      else
        && h'.regs == SetReg(h.regs, d.rd, 1) && h'.ram == Ready(h, env).ram && TrapOf(h, env) == NoExc
    ensures var h := Run(h0, es);
      var d := Fetched(h, env);
      d.rd != 0 ==>
        (GetReg(Step(h, env).regs, d.rd) == 0 <==> LastLrEvent(h0, es, last) == Reserve(WordOf(ValueOfRs1(h, env))))
  {
    hide Run, LastLrEvent, FetchOutcome, Fetched, TakesInterrupt, Even, MisalignedFor, WriteData, ExecSc, Execute, Retire, KindOf;
    hide GetReg, SetReg, Reflects, WordOf;
    var h := Run(h0, es);
    var d, va := Fetched(h, env), ValueOfRs1(h, env);
    ReservationIsHistory(h0, es, last);
    ExecutedSc(h, env);
    ReadyKeepsRest(h, env);
    ScOutcome(Ready(h, env), d, env, va, ValueOfRs2(h, env), LastLrEvent(h0, es, last));
    RetireKeepsMemory(Executed(h, env));
    if d.rd != 0 {
      RdReadsBack(h.regs, d.rd, 0);
      RdReadsBack(h.regs, d.rd, 1);
    }
  }
  lemma ReadyKeepsRest(h: Hart, env: Env)
    requires FetchOutcome(h, env).result.Mapped?
    ensures Ready(h, env).regs == h.regs && Ready(h, env).lr == h.lr
  {
    hide FetchOutcome, Fetched, Sum, Decoded.Len;
  }
}
