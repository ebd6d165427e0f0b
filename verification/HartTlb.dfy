/** Transparency of the TLB for the hart itself: the translations, satp writes, fences and stores of a
    run of Hart.Run are a run of the MMU, so the hart gets from its cache what a machine without one
    would get. */
module HartTlb {
  import opened Rv32
  import opened Phys
  import opened Mmu
  import opened TlbTransparency
  import opened Csr
  import opened Trap
  import opened Hart
  import opened Invariants
  import opened Atomics

  // ---- logs ----

  /** What a stretch of a run asks of the MMU, and the answers its translations got. */
  datatype Log = Log(ops: seq<Op>, answers: seq<Xlate>)

  const QUIET: Log := Log([], [])
  function Then(x: Log, y: Log): Log { Log(x.ops + y.ops, x.answers + y.answers) }

  /** What the MMU sees of a hart. */
  function SysOf(h: Hart): Sys { Sys(h.ram, h.core.csr.s.satp, h.tlb) }

  /** Replaying the log from s ends in s' and gives its answers. */
  ghost predicate Replays(s: Sys, io: Io, l: Log, s': Sys) {
    StateAfter(s, io, l.ops) == s' && RunCached(s, io, l.ops) == l.answers
  }

  lemma {:induction false} ReplayJoin(s: Sys, io: Io, xs: seq<Op>, ys: seq<Op>)
    ensures StateAfter(s, io, xs + ys) == StateAfter(StateAfter(s, io, xs), io, ys)
    ensures RunCached(s, io, xs + ys) == RunCached(s, io, xs) + RunCached(StateAfter(s, io, xs), io, ys)
    decreases |xs|
  {
    hide StepCached, Translate;
    if xs == [] {
      assert xs + ys == ys;
    } else {
      assert (xs + ys)[0] == xs[0] && (xs + ys)[1..] == xs[1..] + ys;
      ReplayJoin(StepCached(s, io, xs[0]), io, xs[1..], ys);
    }
  }
  lemma ReplaysThen(s: Sys, io: Io, x: Log, s1: Sys, y: Log, s2: Sys)
    requires Replays(s, io, x, s1) && Replays(s1, io, y, s2)
    ensures Replays(s, io, Then(x, y), s2)
  {
    hide StateAfter, RunCached;
    ReplayJoin(s, io, x.ops, y.ops);
  }
  lemma QuietReplays(s: Sys, io: Io)
    ensures Replays(s, io, QUIET, s)
  {}

  // ---- page tables in RAM ----

  /** Every entry that a walk from this root can read lies in RAM, for any virtual address. */
  ghost predicate TablesInRam(m: Ram, satp: Word) {
    forall va: Word ::
      && InRam(m, Pte1Addr(satp, va), Whole)
      && var p1 := Load(m, ZERO, Pte1Addr(satp, va), Whole);
         Malformed(p1) || IsLeafPte(p1) || InRam(m, Pte0Addr(p1, va), Whole)
  }
  /** Device space as the replay sees it; any other function would do. */
  const ZERO: Io := _ => 0

  /** The hart's page tables, if translation is on at all. */
  ghost predicate Tables(h: Hart) { Sv32On(h.core.csr.s.satp) ==> TablesInRam(h.ram, h.core.csr.s.satp) }

  lemma LoadIgnoresIo(m: Ram, io: Io, a: Word)
    requires InRam(m, a, Whole)
    ensures Load(m, io, a, Whole) == Load(m, ZERO, a, Whole)
  {
    hide Join;
  }
  lemma LeafIgnoresIo(m: Ram, io: Io, satp: Word, va: Word)
    requires TablesInRam(m, satp)
    ensures FindLeaf(m, io, satp, va) == FindLeaf(m, ZERO, satp, va)
  {
    hide Load, InRam, Malformed, IsLeafPte, Pte1Addr, Pte0Addr;
    LoadIgnoresIo(m, io, Pte1Addr(satp, va));
    var p1 := Load(m, ZERO, Pte1Addr(satp, va), Whole);
    if !Malformed(p1) && !IsLeafPte(p1) { LoadIgnoresIo(m, io, Pte0Addr(p1, va)); }
  }
  lemma TranslateIgnoresIo(m: Ram, io: Io, t: Tlb, pick: Picker, satp: Word, va: Word, acc: Access, priv: Word, mstatus: Word)
    requires Sv32On(satp) ==> TablesInRam(m, satp)
    ensures Translate(m, io, t, pick, satp, va, acc, priv, mstatus) == Translate(m, ZERO, t, pick, satp, va, acc, priv, mstatus)
  {
    hide TablesInRam, FindLeaf, LeafResult, Sv32On, PageOf, Insert, EntryOf, Lacks, Marked, Store, HitResult;
    if Sv32On(satp) { LeafIgnoresIo(m, io, satp, va); }
    LeafOfMapped(FindLeaf(m, ZERO, satp, va), va, acc, priv, mstatus);
  }

  /** A and D updates do not move the tables. */
  lemma TablesStayInRam(m: Ram, m': Ram, satp: Word)
    requires TablesInRam(m, satp) && SameButAD(m, m')
    ensures TablesInRam(m', satp)
  {
    hide Load, InRam, Malformed, IsLeafPte, Pte1Addr, Pte0Addr, SameButAD, StripAD;
    forall va: Word
      ensures InRam(m', Pte1Addr(satp, va), Whole)
      ensures var p1 := Load(m', ZERO, Pte1Addr(satp, va), Whole);
        Malformed(p1) || IsLeafPte(p1) || InRam(m', Pte0Addr(p1, va), Whole)
    {
      var a1 := Pte1Addr(satp, va);
      var x, y := Load(m, ZERO, a1, Whole), Load(m', ZERO, a1, Whole);
      EntriesAreAligned(satp, x, va);
      SameButADWords(m, m', ZERO, a1);
      ShapeIgnoresAD(x, y);
      PpnIgnoresAD(x, y, va);
      SameInRam(m, m', a1);
      SameInRam(m, m', Pte0Addr(x, va));
    }
  }
  lemma TablesStay(h: Hart, h': Hart)
    requires Tables(h) && SameButAD(h.ram, h'.ram) && h'.core.csr.s.satp == h.core.csr.s.satp
    ensures Tables(h')
  {
    hide TablesInRam, SameButAD, Sv32On;
    if Sv32On(h.core.csr.s.satp) { TablesStayInRam(h.ram, h'.ram, h.core.csr.s.satp); }
  }

  // ---- single operations ----

  /** One translation. */
  ghost function Ask(m: Ram, io: Io, t: Tlb, pick: Picker, satp: Word, va: Word, acc: Access, priv: Word, mstatus: Word): Log {
    Log([Xlat(va, acc, priv, mstatus, pick)], [Translate(m, io, t, pick, satp, va, acc, priv, mstatus).result])
  }
  lemma AskReplays(m: Ram, io: Io, t: Tlb, pick: Picker, satp: Word, va: Word, acc: Access, priv: Word, mstatus: Word)
    requires Sv32On(satp) ==> TablesInRam(m, satp)
    ensures var o := Translate(m, io, t, pick, satp, va, acc, priv, mstatus);
      Replays(Sys(m, satp, t), ZERO, Ask(m, io, t, pick, satp, va, acc, priv, mstatus), Sys(o.ram, satp, o.tlb))
  {
    hide Translate, TablesInRam;
    var s, op := Sys(m, satp, t), Xlat(va, acc, priv, mstatus, pick);
    TranslateIgnoresIo(m, io, t, pick, satp, va, acc, priv, mstatus);
    assert [op][1..] == [];
    var s' := StepCached(s, ZERO, op);
    assert StateAfter(s', ZERO, []) == s' && RunCached(s', ZERO, []) == [];
  }
  lemma OneReplays(s: Sys, io: Io, op: Op)
    requires !op.Xlat?
    ensures Replays(s, io, Log([op], []), StepCached(s, io, op))
  {
    hide StepCached;
    assert [op][1..] == [];
    assert StateAfter(StepCached(s, io, op), io, []) == StepCached(s, io, op) && RunCached(StepCached(s, io, op), io, []) == [];
  }

  // ---- data accesses ----

  ghost function XlatLog(h: Hart, env: Env, va: Word, acc: Access): Log {
    if DataMmuActive(h.core)
    then Ask(h.ram, env.io, h.tlb, env.pick, h.core.csr.s.satp, va, acc, EffectivePriv(h.core), h.core.csr.mstatus)
    else QUIET
  }
  ghost function WriteLog(h: Hart, env: Env, va: Word, v: Word, sz: Size): Log {
    match TranslateData(h, env, va, STORE).result
    case PageFault(_) => XlatLog(h, env, va, STORE)
    case Mapped(p) => Then(XlatLog(h, env, va, STORE), Log([Write(p, v, sz)], []))
  }

  lemma XlatReplays(h: Hart, env: Env, va: Word, acc: Access)
    requires Tables(h)
    ensures Replays(SysOf(h), ZERO, XlatLog(h, env, va, acc), SysOf(WithMemory(h, TranslateData(h, env, va, acc))))
  {
    hide TablesInRam, Translate, DataMmuActive, EffectivePriv, Ask, Replays;
    QuietReplays(SysOf(h), ZERO);
    AskReplays(h.ram, env.io, h.tlb, env.pick, h.core.csr.s.satp, va, acc, EffectivePriv(h.core), h.core.csr.mstatus);
  }
  lemma ReadReplays(h: Hart, env: Env, va: Word, sz: Size)
    requires Tables(h)
    ensures Replays(SysOf(h), ZERO, XlatLog(h, env, va, LOAD), SysOf(ReadData(h, env, va, sz).h))
  {
    hide Tables, TranslateData, Load, XlatLog, Replays;
    XlatReplays(h, env, va, LOAD);
  }
  lemma WriteReplays(h: Hart, env: Env, va: Word, v: Word, sz: Size)
    requires Tables(h)
    ensures Replays(SysOf(h), ZERO, WriteLog(h, env, va, v, sz), SysOf(WriteData(h, env, va, v, sz).h))
  {
    hide Tables, TranslateData, Store, XlatLog, Replays, Then;
    XlatReplays(h, env, va, STORE);
    var o := TranslateData(h, env, va, STORE);
    if o.result.Mapped? {
      var s := SysOf(WithMemory(h, o));
      OneReplays(s, ZERO, Write(o.result.paddr, v, sz));
      ReplaysThen(SysOf(h), ZERO, XlatLog(h, env, va, STORE), s, Log([Write(o.result.paddr, v, sz)], []), SysOf(WriteData(h, env, va, v, sz).h));
    }
  }

  ghost function MemoryLog(h: Hart, d: Decoded, env: Env, a: Word, b: Word): Log
    requires IsMemory(KindOf(d.op))
  {
    match KindOf(d.op)
    case KLoad(sz) => if MisalignedFor(Sum(a, d.imm), sz) then QUIET else XlatLog(h, env, Sum(a, d.imm), LOAD)
    case KStore(sz) =>
      if MisalignedFor(Sum(a, d.imm), sz) then QUIET else WriteLog(h, env, Sum(a, d.imm), b & Mask(sz), sz)
    case KLr => if MisalignedFor(a, Whole) then QUIET else XlatLog(h, env, a, LOAD)
    case KSc => if MisalignedFor(a, Whole) || !h.lr.Check(a) then QUIET else WriteLog(h, env, a, b, Whole)
    case KAmo =>
      if MisalignedFor(a, Whole) then QUIET
      else
        var r := ReadData(h, env, a, Whole);
        Then(XlatLog(h, env, a, LOAD), WriteLog(WithRd(r.h, d, r.value), env, a, AmoResult(d.op, r.value, b), Whole))
  }

  lemma MemoryReplays(h: Hart, d: Decoded, env: Env, a: Word, b: Word)
    requires IsMemory(KindOf(d.op)) && Tables(h)
    ensures Replays(SysOf(h), ZERO, MemoryLog(h, d, env, a, b), SysOf(ExecMemory(h, d, env, a, b).h))
  {
    hide KindOf, MisalignedFor, ReadData, WriteData, SetReg, Extend, AmoResult, Sum, Mask, Reservation.Set, Reservation.Check;
    hide XlatLog, WriteLog, Replays, Then, Tables;
    QuietReplays(SysOf(h), ZERO);
    var k := KindOf(d.op);
    if k.KLoad? {
      ReadReplays(h, env, Sum(a, d.imm), k.sz);
    } else if k.KStore? {
      WriteReplays(h, env, Sum(a, d.imm), b & Mask(k.sz), k.sz);
    } else if k.KLr? {
      ReadReplays(h, env, a, Whole);
    } else if k.KSc? {
      WriteReplays(h, env, a, b, Whole);
    } else {
      var r := ReadData(h, env, a, Whole);
      var h1, v := WithRd(r.h, d, r.value), AmoResult(d.op, r.value, b);
      ReadReplays(h, env, a, Whole);
      ReadKeepsTables(h, env, a, Whole);
      TablesSeeMemoryOnly(r.h, h1);
      WriteReplays(h1, env, a, v, Whole);
      ReplaysThen(SysOf(h), ZERO, XlatLog(h, env, a, LOAD), SysOf(r.h), WriteLog(h1, env, a, v, Whole), SysOf(WriteData(h1, env, a, v, Whole).h));
    }
  }

  lemma ReadKeepsTables(h: Hart, env: Env, va: Word, sz: Size)
    requires Tables(h)
    ensures Tables(ReadData(h, env, va, sz).h)
  {
    hide Tables, TranslateData, Load, SameButAD;
    DataKeepsRam(h, env, va, LOAD);
    TablesStay(h, ReadData(h, env, va, sz).h);
  }
  lemma TablesSeeMemoryOnly(h: Hart, h': Hart)
    requires Tables(h) && SysOf(h') == SysOf(h)
    ensures Tables(h')
  {
    hide TablesInRam, Sv32On;
  }

  // ---- the other instructions ----

  /** A CSR instruction that writes satp sets it and flushes. */
  function CsrLog(h: Hart, d: Decoded, a: Word): Log {
    var x := ExecCsr(h, d, a);
    if x.exc.NoExc? && CsrWrites(d.op, d.rs1) && Flushes(d.csr) then Log([SetSatp(x.h.core.csr.s.satp)], []) else QUIET
  }

  lemma SatpStays(c: Csrs, addr: Word, priv: Word, v: Word)
    requires !Flushes(addr) && CsrWrite(c, addr, priv, v).Written?
    ensures CsrWrite(c, addr, priv, v).c.s.satp == c.s.satp
  {
    hide Named, PrivOk, ReadOnly, NoWriteCase, SetStatus, SetIe, SetMachine, SetCounters, SetSwMip, ClearBit0;
  }

  lemma CommitSys(h: Hart, d: Decoded, w: Written)
    requires w.Written? && !Flushes(d.csr) ==> w.c.s.satp == h.core.csr.s.satp
    ensures var x := CsrCommit(h, d, w);
      if x.exc.NoExc? && Flushes(d.csr) then SysOf(x.h) == Sys(h.ram, x.h.core.csr.s.satp, map[]) else SysOf(x.h) == SysOf(h)
  {
    hide Flushes;
  }
  lemma RdKeepsSys(h: Hart, d: Decoded, v: Word)
    ensures SysOf(WithRd(h, d, v)) == SysOf(h) && WithRd(h, d, v).core == h.core
  {
    hide SetReg;
  }
  lemma CsrInstrSys(h: Hart, d: Decoded, a: Word)
    ensures var x := ExecCsr(h, d, a);
      if x.exc.NoExc? && CsrWrites(d.op, d.rs1) && Flushes(d.csr)
      then SysOf(x.h) == Sys(h.ram, x.h.core.csr.s.satp, map[])
      else SysOf(x.h) == SysOf(h)
  {
    hide CsrRead, CsrWrite, CsrReads, CsrWrites, CsrNew, CsrOperand, WithRd, Flushes, CsrCommit;
    var c := h.core.csr;
    var r := CsrRead(c, d.csr, h.core.priv);
    var was := if r.Value? then r.v else 0;
    var v := CsrNew(d.op, was, CsrOperand(d.op, d.rs1, a));
    var w := CsrWrite(c, d.csr, h.core.priv, v);
    RdKeepsSys(h, d, was);
    if !Flushes(d.csr) && w.Written? { SatpStays(c, d.csr, h.core.priv, v); }
    CommitSys(if CsrReads(d.op, d.rd) then WithRd(h, d, was) else h, d, w);
  }
  lemma CsrReplays(h: Hart, d: Decoded, env: Env, a: Word)
    ensures Replays(SysOf(h), ZERO, CsrLog(h, d, a), SysOf(ExecCsr(h, d, a).h))
  {
    hide ExecCsr, CsrWrites, Flushes, Replays;
    QuietReplays(SysOf(h), ZERO);
    CsrInstrSys(h, d, a);
    OneReplays(SysOf(h), ZERO, SetSatp(ExecCsr(h, d, a).h.core.csr.s.satp));
  }

  ghost function ExecLog(h: Hart, d: Decoded, env: Env): Log {
    var h1 := Sequential(h, d);
    var a, b := GetReg(h1.regs, d.rs1), GetReg(h1.regs, d.rs2);
    if IsMemory(KindOf(d.op)) then MemoryLog(h1, d, env, a, b)
    else if KindOf(d.op).KCsr? then CsrLog(h1, d, a)
    else QUIET
  }

  lemma ReturnKeepsSys(h: Hart, d: Decoded)
    ensures SysOf(ExecReturn(h, d).h) == SysOf(h)
  {
    hide KindOf, MretAllowed, SretAllowed, LeaveM, LeaveS, MppOf, SppOf;
  }
  lemma JumpKeepsSys(h: Hart, d: Decoded, a: Word, b: Word)
    ensures SysOf(ExecJump(h, d, a, b).h) == SysOf(h)
  {
    hide KindOf, JumpTarget, SetReg;
  }

  lemma ExecReplays(h: Hart, d: Decoded, env: Env)
    requires Tables(h)
    ensures Replays(SysOf(h), ZERO, ExecLog(h, d, env), SysOf(Execute(h, d, env).h))
  {
    hide IsMemory, ExecMemory, Sum, Decoded.Len, GetReg, KindOf, ExecCsr, ExecReturn, ExecSystem, ExecJump, AluResult, SetReg;
    hide MemoryLog, CsrLog, Replays, SysOf, WithRd, Tables;
    var h1 := Sequential(h, d);
    var a, b := GetReg(h1.regs, d.rs1), GetReg(h1.regs, d.rs2);
    var k := KindOf(d.op);
    SequentialKeepsSys(h, d);
    TablesSeeMemoryOnly(h, h1);
    if IsMemory(k) {
      MemoryReplays(h1, d, env, a, b);
    } else if k.KCsr? {
      CsrReplays(h1, d, env, a);
    } else {
      QuietReplays(SysOf(h), ZERO);
      if k.KMret? || k.KSret? {
        ReturnKeepsSys(h1, d);
      } else if k.KJal? || k.KJalr? || k.KBranch? {
        JumpKeepsSys(h1, d, a, b);
      } else {
        RdKeepsSys(h1, d, AluResult(d.op, d.imm, h.core.pc, a, b));
        SystemKeepsHart(h1, d);
      }
    }
  }
  lemma SequentialKeepsSys(h: Hart, d: Decoded)
    ensures SysOf(Sequential(h, d)) == SysOf(h) && Sequential(h, d).core.pc == h.core.pc
  {
    hide Sum, Decoded.Len;
  }

  // ---- steps ----

  lemma TrapToSKeepsSatp(c: Core, cause: Word, tval: Word)
    ensures TrapToS(c, cause, tval).csr.s.satp == c.csr.s.satp
  {
    hide EnterS, Vector, ClearBit0;
  }
  lemma TrapToMKeepsSatp(c: Core, cause: Word, tval: Word)
    ensures TrapToM(c, cause, tval).csr.s.satp == c.csr.s.satp
  {
    hide EnterM, Vector, ClearBit0;
  }
  lemma TrappedKeepsSys(h: Hart, cause: Word, tval: Word)
    ensures SysOf(Trapped(h, cause, tval)) == SysOf(h)
  {
    hide Delegated, TrapToS, TrapToM;
    TrapToSKeepsSatp(h.core, cause, tval);
    TrapToMKeepsSatp(h.core, cause, tval);
  }

  function RetireLog(x: Exec): Log { if x.fault.NoFault? && x.sfence then Log([Fence], []) else QUIET }

  lemma RetireReplays(x: Exec)
    ensures Replays(SysOf(x.h), ZERO, RetireLog(x), SysOf(Retire(x)))
  {
    hide Trapped, Tick, Replays;
    TickKeepsRest(x.h.core.csr);
    QuietReplays(SysOf(x.h), ZERO);
    OneReplays(SysOf(x.h), ZERO, Fence);
    var h := WithCsr(x.h, Tick(x.h.core.csr));
    var h1 := h.(tlb := if x.sfence then map[] else h.tlb);
    if x.fault.Faulted? {
      TrappedKeepsSys(x.h, x.fault.cause, x.fault.va);
    } else if x.exc.Exc? {
      TrappedKeepsSys(h1, x.exc.cause, x.exc.tval);
    }
  }

  ghost function FetchLog(h: Hart, env: Env): Log {
    if FetchMmuActive(h.core)
    then Ask(h.ram, env.io, h.tlb, env.pick, h.core.csr.s.satp, h.core.pc, FETCH, h.core.priv, h.core.csr.mstatus)
    else QUIET
  }
  lemma FetchReplays(h: Hart, env: Env)
    requires Tables(h)
    ensures Replays(SysOf(h), ZERO, FetchLog(h, env), SysOf(WithMemory(h, FetchOutcome(h, env))))
  {
    hide Translate, FetchMmuActive, Ask, Replays, TablesInRam;
    QuietReplays(SysOf(h), ZERO);
    AskReplays(h.ram, env.io, h.tlb, env.pick, h.core.csr.s.satp, h.core.pc, FETCH, h.core.priv, h.core.csr.mstatus);
  }

  lemma FetchKeepsTables(h: Hart, env: Env)
    requires Tables(h)
    ensures Tables(WithMemory(h, FetchOutcome(h, env)))
  {
    hide Tables, Translate, FetchMmuActive, SameButAD;
    SameButADReflexive(h.ram);
    TranslateKeepsRam(h.ram, env.io, h.tlb, env.pick, h.core.csr.s.satp, h.core.pc, FETCH, h.core.priv, h.core.csr.mstatus);
    TablesStay(h, WithMemory(h, FetchOutcome(h, env)));
  }

  /** Everything one iteration of the loop asks of the MMU. */
  ghost function StepLog(h: Hart, env: Env): Log {
    if TakesInterrupt(h) || !Even(h.core.pc) then QUIET
    else if FetchOutcome(h, env).result.PageFault? then FetchLog(h, env)
    else Then(FetchLog(h, env), Then(ExecLog(WithMemory(h, FetchOutcome(h, env)), Fetched(h, env), env), RetireLog(Executed(h, env))))
  }

  lemma StepReplays(h: Hart, env: Env)
    requires Tables(h)
    ensures Replays(SysOf(h), ZERO, StepLog(h, env), SysOf(Step(h, env)))
  {
    hide Trapped, TakesInterrupt, PendingInterrupt, FetchOutcome, Fetched, Execute, Retire, Even, FetchLog, ExecLog, RetireLog, Then, Replays, Tables;
    QuietReplays(SysOf(h), ZERO);
    FetchReplays(h, env);
    if TakesInterrupt(h) {
      TrappedKeepsSys(h, PendingInterrupt(h.core.priv, h.core.csr), 0);
    } else if !Even(h.core.pc) {
      TrappedKeepsSys(h, CAUSE_MISALIGNED_FETCH, h.core.pc);
    } else {
      var o := FetchOutcome(h, env);
      var h1 := WithMemory(h, o);
      if o.result.PageFault? {
        TrappedKeepsSys(h1, o.result.cause, h.core.pc);
      } else {
        var d := Fetched(h, env);
        var x := Execute(h1, d, env);
        FetchKeepsTables(h, env);
        ExecReplays(h1, d, env);
        RetireReplays(x);
        ReplaysThen(SysOf(h1), ZERO, ExecLog(h1, d, env), SysOf(x.h), RetireLog(x), SysOf(Retire(x)));
        ReplaysThen(SysOf(h), ZERO, FetchLog(h, env), SysOf(h1), Then(ExecLog(h1, d, env), RetireLog(x)), SysOf(Retire(x)));
      }
    }
  }

  // ---- runs ----

  ghost function EventLog(h: Hart, e: Event): Log {
    match e
    case Cpu(env) => StepLog(h, env)
    case Device(_) => QUIET
    case Master(a, v, sz) => Log([Write(a, v, sz)], [])
  }
  ghost function RunLog(h: Hart, es: seq<Event>): Log
    decreases |es|
  {
    if es == [] then QUIET else Then(EventLog(h, es[0]), RunLog(After(h, es[0]), es[1..]))
  }

  /** Whenever the hart runs with translation on, its page tables lie in RAM. */
  ghost predicate TablesKept(h: Hart, es: seq<Event>)
    decreases |es|
  {
    es == [] || ((es[0].Cpu? ==> Tables(h)) && TablesKept(After(h, es[0]), es[1..]))
  }

  lemma EventReplays(h: Hart, e: Event)
    requires e.Cpu? ==> Tables(h)
    ensures Replays(SysOf(h), ZERO, EventLog(h, e), SysOf(After(h, e)))
  {
    hide Step, StepLog, Store, Replays, Tables;
    if e.Cpu? {
      StepReplays(h, e.env);
    } else if e.Device? {
      QuietReplays(SysOf(h), ZERO);
    } else {
      OneReplays(SysOf(h), ZERO, Write(e.a, e.v, e.sz));
    }
  }

  /** A run of the hart is a run of the MMU: replaying its log ends in its state and gives its answers,
      whatever devices answered to its loads. */
  lemma {:induction false} RunReplays(h: Hart, es: seq<Event>)
    requires TablesKept(h, es)
    ensures Replays(SysOf(h), ZERO, RunLog(h, es), SysOf(Run(h, es)))
    decreases |es|
  {
    hide After, EventLog, Then, Replays, Tables;
    if es == [] {
      QuietReplays(SysOf(h), ZERO);
    } else {
      var h1 := After(h, es[0]);
      EventReplays(h, es[0]);
      RunReplays(h1, es[1..]);
      ReplaysThen(SysOf(h), ZERO, EventLog(h, es[0]), SysOf(h1), RunLog(h1, es[1..]), SysOf(Run(h1, es[1..])));
    }
  }

  /** TLB transparency for the hart: over any run that keeps its page tables in RAM and respects fencing,
      from a current cache, every translation that fetches, loads, stores and atomics get, under every
      privilege, MPRV setting and satp the program chooses, is what the machine without a cache answers. */
  lemma HartTlbIsTransparent(h: Hart, es: seq<Event>)
    requires TablesKept(h, es) && |h.tlb| <= TLB_SIZE && Coherent(h.ram, ZERO, h.core.csr.s.satp, h.tlb)
    requires Fenced(SysOf(h), ZERO, RunLog(h, es).ops, false)
    ensures RunLog(h, es).answers == RunPlain(h.ram, h.core.csr.s.satp, ZERO, RunLog(h, es).ops)
  {
    hide RunLog, RunCached, RunPlain, Fenced, Coherent, StateAfter, TablesKept;
    RunReplays(h, es);
    SameButADReflexive(h.ram);
    TlbIsTransparent(SysOf(h), h.ram, ZERO, RunLog(h, es).ops, false);
  }

  /** From reset, with nothing assumed of the cache. */
  lemma HartTlbIsTransparentFromReset(pc: Word, ram: Ram, es: seq<Event>)
    requires TablesKept(ResetHart(pc, ram), es)
    requires Fenced(SysOf(ResetHart(pc, ram)), ZERO, RunLog(ResetHart(pc, ram), es).ops, false)
    ensures var h := ResetHart(pc, ram); RunLog(h, es).answers == RunPlain(ram, 0, ZERO, RunLog(h, es).ops)
  {
    hide RunLog, RunPlain, Fenced, Coherent, TablesKept;
    EmptyIsCoherent(ram, ZERO, 0);
    HartTlbIsTransparent(ResetHart(pc, ram), es);
  }
}
