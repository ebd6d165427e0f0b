/** The simulator as the program it is: state updated in place, one method per function of the
    source, each proved to do what the state machine of Hart does. */
module Iss {
  import opened Rv32
  import opened Phys
  import opened Mmu
  import opened Csr
  import opened Trap
  import opened Hart
  import opened Decode
  import opened Interrupts
  import opened Nesting
  import opened Invariants
  import opened Precise

  /** unordered_map::begin() of a table that is not empty is one of its entries. */
  ghost predicate Picks(pick: Picker) { forall t: Tlb :: t != map[] ==> pick(t) in t }

  // ---- the walk, one level per turn ----

  function TableAt(ppn: Word): Word { ppn << 12 }
  function RootOf(satp: Word): Word { satp & SATP_PPN_MASK }

  function EntryAt(table: Word, level: nat, va: Word): Word {
    table + (((if level == 1 then va >> 22 else va >> 12) & 0x3FF) << 2)
  }

  function WalkFrom(m: Ram, io: Io, table: Word, level: nat, va: Word): Leaf
    decreases level
  {
    var at := EntryAt(table, level, va);
    var pte := Load(m, io, at, Whole);
    if Malformed(pte) then NoLeaf
    else if IsLeafPte(pte) then Leaf(at, pte, level == 1)
    else if level == 0 then NoLeaf
    else WalkFrom(m, io, TableAt(Ppn(pte)), level - 1, va)
  }

  lemma EntryAddresses(satp: Word, pte: Word, va: Word)
    ensures EntryAt(TableAt(RootOf(satp)), 1, va) == Pte1Addr(satp, va)
    ensures EntryAt(TableAt(Ppn(pte)), 0, va) == Pte0Addr(pte, va)
  {}

  lemma WalkFromRoot(m: Ram, io: Io, satp: Word, va: Word)
    ensures WalkFrom(m, io, TableAt(RootOf(satp)), 1, va) == FindLeaf(m, io, satp, va)
  {
    hide EntryAt, TableAt, RootOf, Pte1Addr, Pte0Addr, Load, Malformed, IsLeafPte, Ppn;
    var p1 := Load(m, io, Pte1Addr(satp, va), Whole);
    EntryAddresses(satp, p1, va);
    WalkFromStep(m, io, TableAt(Ppn(p1)), 0, va);
  }
  lemma WalkFromStep(m: Ram, io: Io, table: Word, level: nat, va: Word)
    ensures var at := EntryAt(table, level, va);
      var pte := Load(m, io, at, Whole);
      WalkFrom(m, io, table, level, va) ==
        if Malformed(pte) then NoLeaf
        else if IsLeafPte(pte) then Leaf(at, pte, level == 1)
        else if level == 0 then NoLeaf
        else WalkFrom(m, io, TableAt(Ppn(pte)), level - 1, va)
  {
    hide EntryAt, TableAt, Load, Malformed, IsLeafPte, Ppn;
  }
  lemma MissIsWalk(m: Ram, io: Io, t: Tlb, pick: Picker, satp: Word, va: Word, acc: Access, priv: Word, mstatus: Word)
    requires Sv32On(satp) && PageOf(va) !in t
    ensures var l := FindLeaf(m, io, satp, va);
      var r := LeafResult(l, va, acc, priv, mstatus);
      Translate(m, io, t, pick, satp, va, acc, priv, mstatus) ==
        if r.Mapped? && l.Leaf?
        then Outcome(r, if Lacks(l.pte, acc) then Store(m, l.addr, Marked(l.pte, acc), Whole) else m,
                     Insert(t, pick, PageOf(va), EntryOf(l, acc)))
        else Outcome(r, m, t)
  {
    hide FindLeaf, Sv32On, PageOf, Lacks, Store, Marked, Insert, EntryOf, CheckPermissions, Ppn, SuperAligned, Compose;
    LeafOfMapped(FindLeaf(m, io, satp, va), va, acc, priv, mstatus);
  }
  lemma NoLeafFaults(va: Word, acc: Access, priv: Word, mstatus: Word)
    ensures LeafResult(NoLeaf, va, acc, priv, mstatus) == PageFault(FaultCause(acc))
  {}

  lemma InsertEvictsPicked(t: Tlb, pick: Picker, p: Page, e: TlbEntry)
    requires Picks(pick)
    ensures Insert(t, pick, p, e) == (if |t| >= TLB_SIZE then t - {pick(t)} else t)[p := e]
  {}

  /** mem_fault_ after an access: a fault replaces what was there. */
  function Latest(was: Fault, now: Fault): Fault { if now.NoFault? then was else now }

  lemma JumpIsDone(h: Hart, d: Decoded, a: Word, b: Word)
    ensures var x := ExecJump(h, d, a, b); x == Done(x.h)
  {
    hide KindOf, JumpTarget, SetReg;
  }

  class Simulator {
    var core: Core
    var regs: Regs
    var lr: Reservation
    var ram: Ram
    var tlb: Tlb
    /** mem_fault_ with its cause and address. */
    var fault: Fault

    ghost function View(): Hart
      reads this
    {
      Hart(core, regs, lr, ram, tlb)
    }

    /** The leaf case of MMU::walk: permissions, alignment, A/D write-back and refill. */
    method UseLeaf(env: Env, va: Word, acc: Access, priv: Word, mstatus: Word, at: Word, pte: Word, super: bool) returns (r: Xlate)
      requires Picks(env.pick)
      modifies this`ram, this`tlb
      ensures var l := Leaf(at, pte, super);
        && r == LeafResult(l, va, acc, priv, mstatus)
        && ram == (if r.Mapped? && Lacks(pte, acc) then Store(old(ram), at, Marked(pte, acc), Whole) else old(ram))
        && tlb == (if r.Mapped? then Insert(old(tlb), env.pick, PageOf(va), EntryOf(l, acc)) else old(tlb))
    {
      hide CheckPermissions, Compose, PageOf, SuperAligned, Ppn, Flags, Marked, Lacks, Store, FaultCause, Insert, Picks;
      if !CheckPermissions(pte, acc, priv, mstatus) { return PageFault(FaultCause(acc)); }
      var ppn := Ppn(pte);
      if super && !SuperAligned(ppn) { return PageFault(FaultCause(acc)); }
      var marked := pte;
      if Lacks(pte, acc) {
        marked := Marked(pte, acc);
        ram := Store(ram, at, marked, Whole);
      } else {
        NothingLacks(pte, acc);
      }
      InsertEvictsPicked(tlb, env.pick, PageOf(va), TlbEntry(ppn, Flags(marked), super));
      if |tlb| >= TLB_SIZE { tlb := tlb - {env.pick(tlb)}; }
      tlb := tlb[PageOf(va) := TlbEntry(ppn, Flags(marked), super)];
      return Mapped(Compose(ppn, super, va));
    }

    /** MMU::walk. */
    method Walk(env: Env, va: Word, acc: Access, priv: Word, satp: Word, mstatus: Word) returns (r: Xlate)
      requires Picks(env.pick) && Sv32On(satp) && PageOf(va) !in tlb
      modifies this`ram, this`tlb
      ensures Outcome(r, ram, tlb) == Translate(old(ram), env.io, old(tlb), env.pick, satp, va, acc, priv, mstatus)
    {
      hide Translate, FindLeaf, LeafResult, Sv32On, PageOf, Ppn, Lacks, Load, Store, Marked, Insert, EntryOf, WalkFrom;
      hide EntryAt, TableAt, RootOf, Malformed, IsLeafPte, FaultCause, Picks;
      WalkFromRoot(ram, env.io, satp, va);
      MissIsWalk(ram, env.io, tlb, env.pick, satp, va, acc, priv, mstatus);
      NoLeafFaults(va, acc, priv, mstatus);
      var table, level := TableAt(RootOf(satp)), 1;
      for depth := 0 to 2
        invariant ram == old(ram) && tlb == old(tlb)
        invariant depth < 2 ==> level == 1 - depth && WalkFrom(ram, env.io, table, level, va) == FindLeaf(ram, env.io, satp, va)
        invariant depth == 2 ==> FindLeaf(ram, env.io, satp, va).NoLeaf?
      {
        WalkFromStep(ram, env.io, table, level, va);
        var at := EntryAt(table, level, va);
        var pte := Load(ram, env.io, at, Whole);
        if Malformed(pte) { return PageFault(FaultCause(acc)); }
        if IsLeafPte(pte) {
          r := UseLeaf(env, va, acc, priv, mstatus, at, pte, level == 1);
          return;
        }
        if level == 0 { return PageFault(FaultCause(acc)); }
        table, level := TableAt(Ppn(pte)), level - 1;
      }
      return PageFault(FaultCause(acc));
    }

    /** MMU::translate. */
    method TranslateVa(env: Env, va: Word, acc: Access, priv: Word, satp: Word, mstatus: Word) returns (r: Xlate)
      requires Picks(env.pick)
      modifies this`ram, this`tlb
      ensures Outcome(r, ram, tlb) == Translate(old(ram), env.io, old(tlb), env.pick, satp, va, acc, priv, mstatus)
    {
      hide FindLeaf, WalkResult, WalkRam, CheckPermissions, Compose, Sv32On, PageOf, Insert, FaultCause;
      if !Sv32On(satp) { return Mapped(va); }
      if PageOf(va) in tlb {
        var e := tlb[PageOf(va)];
        if CheckPermissions(e.flags, acc, priv, mstatus) { return Mapped(Compose(e.ppn, e.super, va)); }
        return PageFault(FaultCause(acc));
      }
      r := Walk(env, va, acc, priv, satp, mstatus);
    }

    /** MMU::flush_tlb. */
    method FlushTlb()
      modifies this`tlb
      ensures View() == old(View()).(tlb := map[])
    {
      tlb := map[];
    }

    /** The mem.read closure: a fault is remembered and reads as 0. */
    method MemRead(env: Env, va: Word, sz: Size) returns (v: Word)
      requires Picks(env.pick)
      modifies this`ram, this`tlb, this`fault
      ensures var o := ReadData(old(View()), env, va, sz);
        View() == o.h && v == o.value && fault == Latest(old(fault), o.fault)
    {
      hide Translate, Load, DataMmuActive, EffectivePriv;
      var p := va;
      if DataMmuActive(core) {
        var r := TranslateVa(env, va, LOAD, EffectivePriv(core), core.csr.s.satp, core.csr.mstatus);
        if r.PageFault? {
          fault := Faulted(r.cause, va);
          return 0;
        }
        p := r.paddr;
      }
      return Load(ram, env.io, p, sz);
    }

    /** The mem.write closure: a faulting write is dropped. */
    method MemWrite(env: Env, va: Word, v: Word, sz: Size)
      requires Picks(env.pick)
      modifies this`ram, this`tlb, this`fault
      ensures var o := WriteData(old(View()), env, va, v, sz); View() == o.h && fault == Latest(old(fault), o.fault)
    {
      hide Translate, Store, DataMmuActive, EffectivePriv;
      var p := va;
      if DataMmuActive(core) {
        var r := TranslateVa(env, va, STORE, EffectivePriv(core), core.csr.s.satp, core.csr.mstatus);
        if r.PageFault? {
          fault := Faulted(r.cause, va);
          return;
        }
        p := r.paddr;
      }
      ram := Store(ram, p, v, sz);
    }

    // ---- traps ----

    /** take_trap. */
    method EnterTrap(cause: Word, tval: Word)
      modifies this`core
      ensures core == TakeTrap(old(core), cause, tval)
    {
      hide IsInterrupt, CauseCode, DelegBit, SaveSie, MaskSie, SaveSpp, SaveMie, MaskMie, SaveMpp, Vector, ClearBit0;
      var isInterrupt, code := IsInterrupt(cause), CauseCode(cause);
      var delegate := false;
      if core.priv <= PRV_S {
        delegate := DelegBit(if isInterrupt then core.csr.m.mideleg else core.csr.m.medeleg, code);
      }
      var c := core.csr;
      if delegate {
        c := c.(s := c.s.(sepc := ClearBit0(core.pc), scause := cause, stval := tval));
        c := c.(mstatus := SaveSie(c.mstatus));
        c := c.(mstatus := MaskSie(c.mstatus));
        c := c.(mstatus := SaveSpp(c.mstatus, core.priv));
        core := Core(core.pc, Vector(c.s.stvec, cause), PRV_S, c);
      } else {
        c := c.(m := c.m.(mepc := ClearBit0(core.pc), mcause := cause, mtval := tval));
        c := c.(mstatus := SaveMie(c.mstatus));
        c := c.(mstatus := MaskMie(c.mstatus));
        c := c.(mstatus := SaveMpp(c.mstatus, core.priv));
        core := Core(core.pc, Vector(c.m.mtvec, cause), PRV_M, c);
      }
    }

    /** Take a trap and go to its handler. */
    method TrapTo(cause: Word, tval: Word)
      modifies this`core
      ensures View() == Trapped(old(View()), cause, tval)
    {
      hide TakeTrap;
      EnterTrap(cause, tval);
      core := core.(pc := core.nextPc);
    }

    // ---- execute, case by case ----

    method SetRd(d: Decoded, v: Word)
      modifies this`regs
      ensures View() == WithRd(old(View()), d, v)
    {
      hide GetReg;
      if d.rd != 0 { regs := regs[X(d.rd) := v]; }
    }

    method DoLoad(d: Decoded, env: Env, va: Word, sz: Size) returns (exc: Exc)
      requires Picks(env.pick) && fault.NoFault?
      modifies this
      ensures Exec(View(), fault, exc, false) == ExecLoad(old(View()), d, env, va, sz)
    {
      hide ReadData, MisalignedFor, Extend, SetReg, Picks;
      if MisalignedFor(va, sz) { return Exc(CAUSE_MISALIGNED_LOAD, va); }
      var v := MemRead(env, va, sz);
      SetRd(d, Extend(d.op, v));
      return NoExc;
    }

    method DoStore(d: Decoded, env: Env, va: Word, v: Word, sz: Size) returns (exc: Exc)
      requires Picks(env.pick) && fault.NoFault?
      modifies this
      ensures Exec(View(), fault, exc, false) == ExecStore(old(View()), d, env, va, v, sz)
    {
      hide WriteData, MisalignedFor, Mask, Picks;
      if MisalignedFor(va, sz) { return Exc(CAUSE_MISALIGNED_STORE, va); }
      MemWrite(env, va, v & Mask(sz), sz);
      lr := lr.Clear();
      return NoExc;
    }

    method DoLr(d: Decoded, env: Env, va: Word) returns (exc: Exc)
      requires Picks(env.pick) && fault.NoFault?
      modifies this
      ensures Exec(View(), fault, exc, false) == ExecLr(old(View()), d, env, va)
    {
      hide ReadData, MisalignedFor, SetReg, Picks, Reservation.Set;
      if MisalignedFor(va, Whole) { return Exc(CAUSE_MISALIGNED_LOAD, va); }
      var v := MemRead(env, va, Whole);
      SetRd(d, v);
      lr := lr.Set(va);
      return NoExc;
    }

    method DoSc(d: Decoded, env: Env, va: Word, v: Word) returns (exc: Exc)
      requires Picks(env.pick) && fault.NoFault?
      modifies this
      ensures Exec(View(), fault, exc, false) == ExecSc(old(View()), d, env, va, v)
    {
      hide WriteData, MisalignedFor, SetReg, Picks, Reservation.Check;
      if MisalignedFor(va, Whole) { return Exc(CAUSE_MISALIGNED_STORE, va); }
      if lr.Check(va) {
        MemWrite(env, va, v, Whole);
        SetRd(d, 0);
      } else {
        SetRd(d, 1);
      }
      lr := lr.Clear();
      return NoExc;
    }

    method DoAmo(d: Decoded, env: Env, va: Word, v: Word) returns (exc: Exc)
      requires Picks(env.pick) && fault.NoFault?
      modifies this
      ensures Exec(View(), fault, exc, false) == ExecAmo(old(View()), d, env, va, v)
    {
      hide ReadData, WriteData, MisalignedFor, SetReg, Picks, AmoResult;
      if MisalignedFor(va, Whole) { return Exc(CAUSE_MISALIGNED_STORE, va); }
      var was := MemRead(env, va, Whole);
      SetRd(d, was);
      MemWrite(env, va, AmoResult(d.op, was, v), Whole);
      return NoExc;
    }

    /** CSR access: read, rd, write, in this order. */
    method DoCsr(d: Decoded, a: Word) returns (exc: Exc)
      requires fault.NoFault?
      modifies this`core, this`regs, this`tlb
      ensures Exec(View(), fault, exc, false) == ExecCsr(old(View()), d, a)
    {
      hide CsrRead, CsrWrite, CsrReads, CsrWrites, CsrNew, CsrOperand, SetReg, Flushes;
      var r := CsrRead(core.csr, d.csr, core.priv);
      if CsrReads(d.op, d.rd) {
        if r.Refused? { return Exc(CAUSE_ILLEGAL_INSTR, d.raw); }
        SetRd(d, r.v);
      }
      if CsrWrites(d.op, d.rs1) {
        var was := if r.Value? then r.v else 0;
        var w := CsrWrite(core.csr, d.csr, core.priv, CsrNew(d.op, was, CsrOperand(d.op, d.rs1, a)));
        if w.NotWritten? { return Exc(CAUSE_ILLEGAL_INSTR, d.raw); }
        core := core.(csr := w.c);
        if Flushes(d.csr) { FlushTlb(); }
      }
      return NoExc;
    }

    /** MRET and SRET: next_pc, then the status field by field, then the privilege that was saved. */
    method DoReturn(d: Decoded) returns (exc: Exc)
      requires fault.NoFault? && (KindOf(d.op).KMret? || KindOf(d.op).KSret?)
      modifies this`core
      ensures Exec(View(), fault, exc, false) == ExecReturn(old(View()), d)
    {
      hide KindOf, MretAllowed, SretAllowed, MppOf, SppOf, RestoreMie, SetMpie, ClearMpp, RestoreSie, SetSpie, ClearSpp;
      if KindOf(d.op).KMret? {
        if !MretAllowed(core) { return Exc(CAUSE_ILLEGAL_INSTR, d.raw); }
        core := core.(nextPc := core.csr.m.mepc);
        var mpp := MppOf(core.csr.mstatus);
        UpdateStatus(RestoreMie(core.csr.mstatus));
        UpdateStatus(SetMpie(core.csr.mstatus));
        UpdateStatus(ClearMpp(core.csr.mstatus));
        core := core.(priv := mpp);
      } else {
        if !SretAllowed(core) { return Exc(CAUSE_ILLEGAL_INSTR, d.raw); }
        core := core.(nextPc := core.csr.s.sepc);
        var spp := SppOf(core.csr.mstatus);
        UpdateStatus(RestoreSie(core.csr.mstatus));
        UpdateStatus(SetSpie(core.csr.mstatus));
        UpdateStatus(ClearSpp(core.csr.mstatus));
        core := core.(priv := spp);
      }
      return NoExc;
    }

    method UpdateStatus(status: Word)
      modifies this`core
      ensures core == old(core).(csr := old(core).csr.(mstatus := status))
    {
      core := core.(csr := core.csr.(mstatus := status));
    }

    method DoJump(d: Decoded, a: Word, b: Word)
      requires KindOf(d.op).KJal? || KindOf(d.op).KJalr? || KindOf(d.op).KBranch?
      modifies this`core, this`regs
      ensures View() == ExecJump(old(View()), d, a, b).h
    {
      hide KindOf, JalrTarget, Taken, Sum, SetReg;
      var k := KindOf(d.op);
      if k.KBranch? {
        if Taken(d.op, a, b) { core := core.(nextPc := Sum(core.pc, d.imm)); }
      } else {
        SetRd(d, core.nextPc);
        core := core.(nextPc := if k.KJal? then Sum(core.pc, d.imm) else JalrTarget(a, d.imm));
      }
    }

    /** `execute`. */
    method ExecuteInstr(d: Decoded, env: Env) returns (exc: Exc, sfence: bool)
      requires Picks(env.pick) && fault.NoFault?
      modifies this
      ensures Exec(View(), fault, exc, sfence) == Execute(old(View()), d, env)
    {
      hide KindOf, GetReg, Sum, Decoded.Len, ExecLoad, ExecStore, ExecLr, ExecSc, ExecAmo, ExecCsr, ExecReturn, ExecJump, ExecSystem, AluResult, SetReg, Picks;
      var a, b := GetReg(regs, d.rs1), GetReg(regs, d.rs2);
      core := core.(nextPc := Sum(core.pc, d.Len()));
      var k := KindOf(d.op);
      exc, sfence := NoExc, false;
      if IsMemory(k) {
        match k
        case KLoad(sz) => exc := DoLoad(d, env, Sum(a, d.imm), sz);
        case KStore(sz) => exc := DoStore(d, env, Sum(a, d.imm), b, sz);
        case KLr => exc := DoLr(d, env, a);
        case KSc => exc := DoSc(d, env, a, b);
        case KAmo => exc := DoAmo(d, env, a, b);
      } else if k.KAlu? {
        SetRd(d, AluResult(d.op, d.imm, core.pc, a, b));
      } else if k.KJal? || k.KJalr? || k.KBranch? {
        JumpIsDone(View(), d, a, b);
        DoJump(d, a, b);
      } else if k.KCsr? {
        exc := DoCsr(d, a);
      } else if k.KMret? || k.KSret? {
        exc := DoReturn(d);
      } else {
        SystemKeepsHart(View(), d);
        SystemDoesNotFault(View(), d);
        var x := ExecSystem(Hart(core, regs, lr, ram, tlb), d);
        exc, sfence := x.exc, x.sfence;
      }
    }

    // ---- the loop ----

    /** One iteration of the loop of ISS::run. */
    method StepOnce(env: Env)
      requires Picks(env.pick) && fault.NoFault?
      modifies this
      ensures View() == Step(old(View()), env) && fault.NoFault?
    {
      hide PendingInterrupt, TakeTrap, Translate, Execute, Even, FetchMmuActive, Load, DecodeInstr, Tick, Picks;
      var irq := CheckPending(core);
      if irq != 0 {
        TrapTo(irq, 0);
        return;
      }
      if !Even(core.pc) {
        TrapTo(CAUSE_MISALIGNED_FETCH, core.pc);
        return;
      }
      var p := core.pc;
      if FetchMmuActive(core) {
        var r := TranslateVa(env, core.pc, FETCH, core.priv, core.csr.s.satp, core.csr.mstatus);
        if r.PageFault? {
          TrapTo(r.cause, core.pc);
          return;
        }
        p := r.paddr;
      }
      var d := DecodeInstr(Load(ram, env.io, p, Whole));
      var exc, sfence := ExecuteInstr(d, env);
      if fault.Faulted? {
        var f := fault;
        fault := NoFault;
        TrapTo(f.cause, f.va);
        return;
      }
      core := core.(csr := Tick(core.csr));
      if exc.Exc? { EnterTrap(exc.cause, exc.tval); }
      if sfence { FlushTlb(); }
      core := core.(pc := core.nextPc);
    }

    /** The loop, with the devices and other bus masters acting between its iterations. */
    method RunEvents(es: seq<Event>)
      requires fault.NoFault? && forall i :: 0 <= i < |es| && es[i].Cpu? ==> Picks(es[i].env.pick)
      modifies this
      ensures View() == Run(old(View()), es)
    {
      hide Step, Store, Picks;
      for i := 0 to |es|
        invariant fault.NoFault? && View() == Run(old(View()), es[..i])
      {
        RunOneMore(old(View()), es, i);
        match es[i]
        case Cpu(env) => StepOnce(env);
        case Device(hw) => core := core.(csr := core.csr.(hwMip := hw));
        case Master(a, v, sz) => ram := Store(ram, a, v, sz);
      }
      assert es[..|es|] == es;
    }
  }

  lemma RunOneMore(h: Hart, es: seq<Event>, i: nat)
    requires i < |es|
    ensures Run(h, es[..i + 1]) == After(Run(h, es[..i]), es[i])
  {
    hide After;
    assert es[..i + 1] == es[..i] + [es[i]];
    RunJoin(h, es[..i], [es[i]]);
    RunOne(Run(h, es[..i]), es[i]);
  }
}
