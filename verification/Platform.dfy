/** The interrupt wiring of the platform (src/platform/gamingcpu_vp.cpp:70-83): hart, CLINT and PLIC
    together, over every interleaving of their steps. */
module Platform {
  import opened Rv32
  import opened Masks
  import opened Phys
  import opened Csr
  import opened Trap
  import opened Hart
  import opened Invariants
  import Clint
  import Plic

  const MSIP_BIT: Word := 0x8
  const MTIP_BIT: Word := 0x80
  const MEIP_BIT: Word := 0x800

  /** CSRFile::set_hw_bit. */
  function SetHw(x: Word, bit: Word, on: bool): Word { if on then SetBits(x, bit) else ClearBits(x, bit) }

  datatype Platform = Platform(hart: Hart, clint: Clint.State, plic: Plic.State)

  datatype Event =
    | CpuStep(env: Env)
    | MasterWrite(a: Word, v: Word, sz: Size)
    | ClintOp(clintOp: Clint.Op)
    | PlicOp(plicOp: Plic.Op)

  function Drive(h: Hart, bit: Word, on: bool): Hart { WithCsr(h, h.core.csr.(hwMip := SetHw(h.core.csr.hwMip, bit, on))) }

  /** Whether a PLIC operation ends in evaluate_irq, which reports the line. */
  predicate Evaluates(s: Plic.State, op: Plic.Op)
    requires s.Ok()
  {
    match op
    case SetPending(id, _) => 0 < id < Plic.NUM_SOURCES
    case RegWrite(a, _) => a < Plic.NUM_SOURCES * 4 || a in {Plic.PENDING, Plic.ENABLE, Plic.THRESHOLD, Plic.CLAIM}
    case RegRead(a) => a == Plic.CLAIM && s.Best() != 0
  }

  ghost function Next(p: Platform, e: Event): Platform
    requires p.plic.Ok()
  {
    match e
    case CpuStep(env) => p.(hart := Step(p.hart, env))
    case MasterWrite(a, v, sz) => p.(hart := p.hart.(ram := Store(p.hart.ram, a, v, sz)))
    case ClintOp(op) =>
      var c := Clint.Next(p.clint, op);
      var h := if Clint.FiresTimer(op) then Drive(p.hart, MTIP_BIT, c.Expired()) else p.hart;
      Platform(if Clint.FiresSoftware(op) then Drive(h, MSIP_BIT, c.msip) else h, c, p.plic)
    case PlicOp(op) =>
      var s := Plic.Next(p.plic, op);
      Platform(if Evaluates(p.plic, op) then Drive(p.hart, MEIP_BIT, s.Best() != 0) else p.hart, p.clint, s)
  }

  ghost function RunAll(p: Platform, es: seq<Event>): (r: Platform)
    requires p.plic.Ok()
    ensures r.plic.Ok()
    decreases |es|
  {
    if es == [] then p else RunAll(Next(p, es[0]), es[1..])
  }

  // ---- the pending bits through a hart step ----

  /** The device-driven bits are the same, and software still owns SSIP only. */
  predicate MipKept(c: Csrs, c': Csrs) {
    c'.hwMip == c.hwMip && (OnlySsip(c.swMip) ==> OnlySsip(c'.swMip))
  }

  lemma CsrWriteKeepsMip(c: Csrs, addr: Word, priv: Word, v: Word)
    ensures CsrWrite(c, addr, priv, v).Written? ==> MipKept(c, CsrWrite(c, addr, priv, v).c)
  {
    hide Named, PrivOk, ReadOnly, WriteNamed, OnlySsip;
    WriteKeepsHwMip(c, Named(addr), v);
    if OnlySsip(c.swMip) { WriteKeepsOnlySsip(c, Named(addr), v); }
  }

  lemma CsrInstrKeepsMip(h: Hart, d: Decoded, a: Word)
    ensures MipKept(h.core.csr, ExecCsr(h, d, a).h.core.csr)
  {
    hide ExecCsr, CsrWrite, OnlySsip;
    var v := CsrInstrCore(h, d, a);
    CsrWriteKeepsMip(h.core.csr, d.csr, h.core.priv, v);
  }

  lemma ReturnKeepsMip(h: Hart, d: Decoded)
    ensures MipKept(h.core.csr, ExecReturn(h, d).h.core.csr)
  {
    hide KindOf, MretAllowed, SretAllowed, LeaveM, LeaveS, MppOf, SppOf, OnlySsip;
  }
  lemma JumpKeepsMip(h: Hart, d: Decoded, a: Word, b: Word)
    ensures MipKept(h.core.csr, ExecJump(h, d, a, b).h.core.csr)
  {
    hide KindOf, JumpTarget, SetReg, OnlySsip;
  }

  lemma ExecuteKeepsMip(h: Hart, d: Decoded, env: Env)
    ensures MipKept(h.core.csr, Execute(h, d, env).h.core.csr)
  {
    hide IsMemory, ExecMemory, Sum, Decoded.Len, GetReg, KindOf, ExecCsr, ExecReturn, ExecSystem, ExecJump, AluResult, SetReg, OnlySsip;
    var h1 := Sequential(h, d);
    var a, b := GetReg(h1.regs, d.rs1), GetReg(h1.regs, d.rs2);
    var k := KindOf(d.op);
    if IsMemory(k) {
      MemoryKeepsCore(h1, d, env, a, b);
    } else if k.KCsr? {
      CsrInstrKeepsMip(h1, d, a);
    } else if k.KMret? || k.KSret? {
      ReturnKeepsMip(h1, d);
    } else if k.KJal? || k.KJalr? || k.KBranch? {
      JumpKeepsMip(h1, d, a, b);
    } else {
      SystemKeepsHart(h1, d);
    }
  }

  lemma TrapToSKeepsMip(c: Core, cause: Word, tval: Word)
    ensures MipKept(c.csr, TrapToS(c, cause, tval).csr)
  {
    hide EnterS, Vector, ClearBit0, OnlySsip;
  }
  lemma TrapToMKeepsMip(c: Core, cause: Word, tval: Word)
    ensures MipKept(c.csr, TrapToM(c, cause, tval).csr)
  {
    hide EnterM, Vector, ClearBit0, OnlySsip;
  }
  lemma TrapKeepsMip(h: Hart, cause: Word, tval: Word)
    ensures MipKept(h.core.csr, Trapped(h, cause, tval).core.csr)
  {
    hide Delegated, TrapToS, TrapToM, MipKept;
    TrapToSKeepsMip(h.core, cause, tval);
    TrapToMKeepsMip(h.core, cause, tval);
  }

  lemma RetireKeepsMip(x: Exec)
    ensures MipKept(x.h.core.csr, Retire(x).core.csr)
  {
    hide Trapped, Tick, OnlySsip;
    TickKeepsRest(x.h.core.csr);
    var h := WithCsr(x.h, Tick(x.h.core.csr));
    var h1 := h.(tlb := if x.sfence then map[] else h.tlb);
    if x.fault.Faulted? {
      TrapKeepsMip(x.h, x.fault.cause, x.fault.va);
    } else if x.exc.Exc? {
      TrapKeepsMip(h1, x.exc.cause, x.exc.tval);
    }
  }

  lemma StepKeepsMip(h: Hart, env: Env)
    ensures MipKept(h.core.csr, Step(h, env).core.csr)
  {
    hide Trapped, TakesInterrupt, PendingInterrupt, FetchOutcome, Fetched, Execute, Retire, Even, OnlySsip;
    if TakesInterrupt(h) {
      TrapKeepsMip(h, PendingInterrupt(h.core.priv, h.core.csr), 0);
    } else if !Even(h.core.pc) {
      TrapKeepsMip(h, CAUSE_MISALIGNED_FETCH, h.core.pc);
    } else {
      var o := FetchOutcome(h, env);
      if o.result.PageFault? {
        TrapKeepsMip(WithMemory(h, o), o.result.cause, h.core.pc);
      } else {
        ExecuteKeepsMip(WithMemory(h, o), Fetched(h, env), env);
        RetireKeepsMip(Execute(WithMemory(h, o), Fetched(h, env), env));
      }
    }
  }

  // ---- the wiring invariant ----

  predicate Wired(hw: Word, t: Clint.State, s: Plic.State)
    requires s.Ok()
  {
    Bit(hw, MTIP_BIT) == t.Expired() && Bit(hw, MSIP_BIT) == t.msip && Bit(hw, MEIP_BIT) == (s.Best() != 0)
  }

  /** The device-driven part of mip reports the devices, and software owns SSIP only. */
  predicate InStep(p: Platform) {
    p.plic.Ok() && Wired(p.hart.core.csr.hwMip, p.clint, p.plic) && OnlySsip(p.hart.core.csr.swMip)
  }

  predicate Distinct(x: Word, y: Word) { Bit(x, x) && Bit(y, y) && !Bit(x, y) }

  lemma LinesAreDistinct()
    ensures Distinct(MTIP_BIT, MSIP_BIT) && Distinct(MSIP_BIT, MTIP_BIT)
    ensures Distinct(MTIP_BIT, MEIP_BIT) && Distinct(MEIP_BIT, MTIP_BIT)
    ensures Distinct(MEIP_BIT, MSIP_BIT) && Distinct(MSIP_BIT, MEIP_BIT)
  {}

  lemma SetHwHere(x: Word, bit: Word, on: bool)
    requires Bit(bit, bit)
    ensures Bit(SetHw(x, bit, on), bit) == on
  {
    hide Bit, SetBits, ClearBits;
    if on { SetAdds(x, bit, bit); } else { ClearHere(x, bit); }
  }
  lemma SetHwElsewhere(x: Word, bit: Word, on: bool, other: Word)
    requires Distinct(bit, other)
    ensures Bit(SetHw(x, bit, on), other) == Bit(x, other)
  {
    hide Bit, SetBits, ClearBits;
    if on {
      if Bit(x, other) { SetKeeps(x, bit, other); } else { SetAddsNothingElse(x, bit, other); }
    } else {
      if Bit(x, other) {
        ClearKeepsOthers(x, bit, other);
      } else if Bit(ClearBits(x, bit), other) {
        ClearAddsNothing(x, bit, other);
      }
    }
  }

  lemma ClintOpKeepsWired(hw: Word, t: Clint.State, s: Plic.State, op: Clint.Op)
    requires s.Ok() && Wired(hw, t, s)
    ensures var c := Clint.Next(t, op);
      var x := if Clint.FiresTimer(op) then SetHw(hw, MTIP_BIT, c.Expired()) else hw;
      Wired(if Clint.FiresSoftware(op) then SetHw(x, MSIP_BIT, c.msip) else x, c, s)
  {
    hide Bit, SetHw, Clint.Next, Plic.State.Best, Clint.State.Expired;
    LinesAreDistinct();
    Clint.SilentOpsKeepLines(t, op);
    var c := Clint.Next(t, op);
    SetHwHere(hw, MTIP_BIT, c.Expired());
    SetHwElsewhere(hw, MTIP_BIT, c.Expired(), MSIP_BIT);
    SetHwElsewhere(hw, MTIP_BIT, c.Expired(), MEIP_BIT);
    SetHwHere(hw, MSIP_BIT, c.msip);
    SetHwElsewhere(hw, MSIP_BIT, c.msip, MTIP_BIT);
    SetHwElsewhere(hw, MSIP_BIT, c.msip, MEIP_BIT);
  }

  lemma SilentPlicOps(s: Plic.State, op: Plic.Op)
    requires s.Ok() && !Evaluates(s, op)
    ensures Plic.Next(s, op) == s
  {}

  lemma PlicOpKeepsWired(hw: Word, t: Clint.State, s: Plic.State, op: Plic.Op)
    requires s.Ok() && Wired(hw, t, s)
    ensures var s' := Plic.Next(s, op);
      Wired(if Evaluates(s, op) then SetHw(hw, MEIP_BIT, s'.Best() != 0) else hw, t, s')
  {
    hide Bit, SetHw, Plic.Next, Plic.State.Best, Clint.State.Expired, Evaluates;
    LinesAreDistinct();
    var on := Plic.Next(s, op).Best() != 0;
    if Evaluates(s, op) {
      SetHwHere(hw, MEIP_BIT, on);
      SetHwElsewhere(hw, MEIP_BIT, on, MTIP_BIT);
      SetHwElsewhere(hw, MEIP_BIT, on, MSIP_BIT);
    } else {
      SilentPlicOps(s, op);
    }
  }

  lemma NextKeepsInStep(p: Platform, e: Event)
    requires InStep(p)
    ensures InStep(Next(p, e))
  {
    hide Bit, SetHw, OnlySsip, Step, Store, Plic.State.Best, Clint.Next, Plic.Next, Evaluates, Clint.FiresTimer, Clint.FiresSoftware, Wired;
    var hw := p.hart.core.csr.hwMip;
    if e.CpuStep? {
      StepKeepsMip(p.hart, e.env);
    } else if e.ClintOp? {
      ClintOpKeepsWired(hw, p.clint, p.plic, e.clintOp);
    } else if e.PlicOp? {
      PlicOpKeepsWired(hw, p.clint, p.plic, e.plicOp);
    }
  }

  lemma {:induction false} RunKeepsInStep(p: Platform, es: seq<Event>)
    requires InStep(p)
    ensures InStep(RunAll(p, es))
    decreases |es|
  {
    hide Next, Wired, OnlySsip;
    if es != [] {
      NextKeepsInStep(p, es[0]);
      RunKeepsInStep(Next(p, es[0]), es[1..]);
    }
  }

  // ---- mip as software reads it ----

  lemma SoftwareHidesNothing(c: Csrs, bit: Word)
    requires OnlySsip(c.swMip) && (bit == MTIP_BIT || bit == MSIP_BIT || bit == MEIP_BIT)
    ensures Bit(c.Mip(), bit) == Bit(c.hwMip, bit)
  {}

  const PLIC_RESET: Plic.State := Plic.State(seq(Plic.NUM_SOURCES, _ => 0), 0, 0, 0, 0)

  lemma ResetIsInStep(pc: Word, ram: Ram)
    ensures InStep(Platform(ResetHart(pc, ram), Clint.RESET, PLIC_RESET))
  {
    Plic.NothingPending(PLIC_RESET);
  }

  /** In every reachable state of the platform, whatever programs, devices and bus masters did:
      mip.MTIP says mtime >= mtimecmp, mip.MSIP says msip, and mip.MEIP says that the PLIC has a
      source to claim. */
  lemma MipTracksDevices(pc: Word, ram: Ram, es: seq<Event>)
    ensures PLIC_RESET.Ok()
    ensures var p := RunAll(Platform(ResetHart(pc, ram), Clint.RESET, PLIC_RESET), es);
      var mip := p.hart.core.csr.Mip();
      && (Bit(mip, MTIP_BIT) <==> p.clint.mtime >= p.clint.mtimecmp)
      && (Bit(mip, MSIP_BIT) <==> p.clint.msip)
      && (Bit(mip, MEIP_BIT) <==> exists i: nat :: p.plic.Actionable(i))
  {
    hide RunAll, OnlySsip, Bit, Csrs.Mip, Plic.State.Actionable, Plic.State.Best, ResetHart;
    ResetIsInStep(pc, ram);
    var p0 := Platform(ResetHart(pc, ram), Clint.RESET, PLIC_RESET);
    RunKeepsInStep(p0, es);
    var p := RunAll(p0, es);
    var c := p.hart.core.csr;
    SoftwareHidesNothing(c, MTIP_BIT);
    SoftwareHidesNothing(c, MSIP_BIT);
    SoftwareHidesNothing(c, MEIP_BIT);
    ClaimableIsActionable(p.plic);
  }

  lemma ClaimableIsActionable(s: Plic.State)
    requires s.Ok()
    ensures s.Best() != 0 <==> exists i: nat :: s.Actionable(i)
  {
    hide Plic.State.Actionable;
    Plic.ClaimRule(s, s.Best());
  }
}
