/** What every step of the platform keeps: privilege and status stay legal, pc stays even, and
    the translation cache stays bounded and well formed. */
module Invariants {
  import opened Rv32
  import opened Decode
  import opened Phys
  import opened Mmu
  import opened TlbTransparency
  import opened Paging
  import opened Csr
  import opened Trap
  import opened Hart

  // ---- data accesses touch memory and cache only ----

  lemma ReadKeepsRest(h: Hart, env: Env, va: Word, sz: Size)
    ensures var r := ReadData(h, env, va, sz); r.h == h.(ram := r.h.ram, tlb := r.h.tlb)
  {
    hide TranslateData, Load;
  }
  lemma WriteKeepsRest(h: Hart, env: Env, va: Word, v: Word, sz: Size)
    ensures var w := WriteData(h, env, va, v, sz); w.h == h.(ram := w.h.ram, tlb := w.h.tlb)
  {
    hide TranslateData, Store;
  }

  ghost predicate TlbOk(t: Tlb) { |t| <= TLB_SIZE && CacheWellFormed(t) }

  lemma TranslateKeepsTlbOk(m: Ram, io: Io, t: Tlb, pick: Picker, satp: Word, va: Word, acc: Access, priv: Word, mstatus: Word)
    requires TlbOk(t)
    ensures TlbOk(Translate(m, io, t, pick, satp, va, acc, priv, mstatus).tlb)
  {
    hide Translate, CacheWellFormed;
    TranslateKeepsSize(m, io, t, pick, satp, va, acc, priv, mstatus);
    TranslateKeepsWellFormed(m, io, t, pick, satp, va, acc, priv, mstatus);
  }
  lemma DataKeepsTlbOk(h: Hart, env: Env, va: Word, acc: Access)
    requires TlbOk(h.tlb)
    ensures TlbOk(TranslateData(h, env, va, acc).tlb)
  {
    hide Translate, TlbOk, DataMmuActive, EffectivePriv;
    TranslateKeepsTlbOk(h.ram, env.io, h.tlb, env.pick, h.core.csr.s.satp, va, acc, EffectivePriv(h.core), h.core.csr.mstatus);
  }
  lemma ReadKeepsTlbOk(h: Hart, env: Env, va: Word, sz: Size)
    requires TlbOk(h.tlb)
    ensures TlbOk(ReadData(h, env, va, sz).h.tlb)
  {
    hide TranslateData, TlbOk, Load;
    DataKeepsTlbOk(h, env, va, LOAD);
  }
  lemma WriteKeepsTlbOk(h: Hart, env: Env, va: Word, v: Word, sz: Size)
    requires TlbOk(h.tlb)
    ensures TlbOk(WriteData(h, env, va, v, sz).h.tlb)
  {
    hide TranslateData, TlbOk, Store;
    DataKeepsTlbOk(h, env, va, STORE);
  }

  // ---- the core through memory instructions ----

  lemma LoadKeepsCore(h: Hart, d: Decoded, env: Env, va: Word, sz: Size)
    ensures ExecLoad(h, d, env, va, sz).h.core == h.core
  {
    hide ReadData, MisalignedFor, Extend, SetReg;
    ReadKeepsRest(h, env, va, sz);
  }
  lemma StoreKeepsCore(h: Hart, d: Decoded, env: Env, va: Word, v: Word, sz: Size)
    ensures ExecStore(h, d, env, va, v, sz).h.core == h.core
  {
    hide WriteData, MisalignedFor, Mask;
    WriteKeepsRest(h, env, va, v & Mask(sz), sz);
  }
  lemma LrKeepsCore(h: Hart, d: Decoded, env: Env, va: Word)
    ensures ExecLr(h, d, env, va).h.core == h.core
  {
    hide ReadData, MisalignedFor, SetReg;
    ReadKeepsRest(h, env, va, Whole);
  }
  lemma ScKeepsCore(h: Hart, d: Decoded, env: Env, va: Word, v: Word)
    ensures ExecSc(h, d, env, va, v).h.core == h.core
  {
    hide WriteData, MisalignedFor, SetReg;
    WriteKeepsRest(h, env, va, v, Whole);
  }
  lemma AmoKeepsCore(h: Hart, d: Decoded, env: Env, va: Word, v: Word)
    ensures ExecAmo(h, d, env, va, v).h.core == h.core
  {
    hide ReadData, WriteData, MisalignedFor, SetReg, AmoResult;
    var r := ReadData(h, env, va, Whole);
    ReadKeepsRest(h, env, va, Whole);
    WriteKeepsRest(WithRd(r.h, d, r.value), env, va, AmoResult(d.op, r.value, v), Whole);
  }

  lemma MemoryKeepsCore(h: Hart, d: Decoded, env: Env, a: Word, b: Word)
    requires IsMemory(KindOf(d.op))
    ensures ExecMemory(h, d, env, a, b).h.core == h.core
  {
    hide KindOf, ExecLoad, ExecStore, ExecLr, ExecSc, ExecAmo, Sum;
    var k := KindOf(d.op);
    if k.KLoad? { LoadKeepsCore(h, d, env, Sum(a, d.imm), k.sz); }
    if k.KStore? { StoreKeepsCore(h, d, env, Sum(a, d.imm), b, k.sz); }
    LrKeepsCore(h, d, env, a);
    ScKeepsCore(h, d, env, a, b);
    AmoKeepsCore(h, d, env, a, b);
  }

  // ---- every instruction keeps the core legal and the next pc even ----

  predicate NextOk(c: Core) { CoreOk(c) && Even(c.nextPc) }

  /** Relative targets are even; the decoder guarantees it (Decode.OffsetsAreEven). */
  predicate EvenOffset(d: Decoded) { IsRelativeJump(d.op) ==> Even(d.imm) }

  lemma SumIsEven(x: Word, y: Word)
    requires Even(x) && Even(y)
    ensures Even(Sum(x, y))
  {}
  lemma LenIsEven(d: Decoded)
    ensures Even(d.Len())
  {}
  lemma JalrTargetIsEven(a: Word, imm: Word)
    ensures Even(JalrTarget(a, imm))
  {}

  /** A CSR instruction changes nothing of the core but the CSRs, and those by at most one write. */
  lemma CsrInstrCore(h: Hart, d: Decoded, a: Word) returns (v: Word)
    ensures var c, w := ExecCsr(h, d, a).h.core, CsrWrite(h.core.csr, d.csr, h.core.priv, v);
      c == h.core || (w.Written? && c == h.core.(csr := w.c))
  {
    hide CsrRead, CsrWrite, CsrReads, CsrWrites, CsrNew, CsrOperand, SetReg, Flushes;
    var r := CsrRead(h.core.csr, d.csr, h.core.priv);
    v := CsrNew(d.op, if r.Value? then r.v else 0, CsrOperand(d.op, d.rs1, a));
  }

  lemma CsrInstrKeepsOk(h: Hart, d: Decoded, a: Word)
    requires NextOk(h.core)
    ensures NextOk(ExecCsr(h, d, a).h.core)
  {
    hide ExecCsr, CsrWrite, CsrsOk, LegalPriv, Even;
    var v := CsrInstrCore(h, d, a);
    WriteKeepsOk(h.core.csr, d.csr, h.core.priv, v);
  }

  lemma JumpsAreRelative(d: Decoded)
    requires EvenOffset(d)
    ensures KindOf(d.op).KJal? || KindOf(d.op).KBranch? ==> Even(d.imm)
  {
    hide Even;
  }

  lemma TargetIsEven(h: Hart, d: Decoded, a: Word, b: Word)
    requires Even(h.core.pc) && Even(h.core.nextPc) && EvenOffset(d)
    requires KindOf(d.op).KJal? || KindOf(d.op).KJalr? || KindOf(d.op).KBranch?
    ensures Even(JumpTarget(h, d, a, b))
  {
    hide KindOf, Taken, IsRelativeJump, Even, EvenOffset, JalrTarget, Sum;
    JumpsAreRelative(d);
    if Even(d.imm) { SumIsEven(h.core.pc, d.imm); }
    JalrTargetIsEven(a, d.imm);
  }

  lemma ReturnKeepsOk(h: Hart, d: Decoded)
    requires NextOk(h.core)
    ensures NextOk(ExecReturn(h, d).h.core)
  {
    hide KindOf, Mret, Sret, CoreOk, Even, MretAllowed, SretAllowed;
    MretKeepsOk(h.core);
    SretKeepsOk(h.core);
  }

  lemma SystemKeepsHart(h: Hart, d: Decoded)
    ensures ExecSystem(h, d).h == h
  {
    hide KindOf, EcallCause, SfenceAllowed;
  }

  lemma ControlKeepsOk(h: Hart, d: Decoded, a: Word, b: Word)
    requires NextOk(h.core) && Even(h.core.pc) && EvenOffset(d)
    ensures NextOk(ExecControl(h, d, a, b).h.core)
  {
    hide KindOf, JumpTarget, ExecCsr, ExecReturn, ExecSystem, CsrsOk, LegalPriv, IsRelativeJump, AluResult, SetReg;
    hide Even, EvenOffset;
    var k := KindOf(d.op);
    if k.KJal? || k.KJalr? || k.KBranch? { TargetIsEven(h, d, a, b); }
    CsrInstrKeepsOk(h, d, a);
    ReturnKeepsOk(h, d);
    SystemKeepsHart(h, d);
  }

  lemma ExecuteKeepsOk(h: Hart, d: Decoded, env: Env)
    requires CoreOk(h.core) && Even(h.core.pc) && EvenOffset(d)
    ensures NextOk(Execute(h, d, env).h.core)
  {
    hide IsMemory, ExecMemory, ExecControl, Sum, Decoded.Len, CsrsOk, LegalPriv, Even, EvenOffset, GetReg, KindOf;
    var h1 := Sequential(h, d);
    var a, b := GetReg(h1.regs, d.rs1), GetReg(h1.regs, d.rs2);
    LenIsEven(d);
    SumIsEven(h.core.pc, d.Len());
    if IsMemory(KindOf(d.op)) { MemoryKeepsCore(h1, d, env, a, b); } else { ControlKeepsOk(h1, d, a, b); }
  }

  // ---- the cache through execute ----

  lemma MemoryKeepsTlbOk(h: Hart, d: Decoded, env: Env, a: Word, b: Word)
    requires IsMemory(KindOf(d.op)) && TlbOk(h.tlb)
    ensures TlbOk(ExecMemory(h, d, env, a, b).h.tlb)
  {
    hide KindOf, MisalignedFor, ReadData, WriteData, SetReg, Extend, AmoResult, TlbOk, Sum, Mask, Reservation.Set, Reservation.Check;
    var k := KindOf(d.op);
    if k.KLoad? {
      ReadKeepsTlbOk(h, env, Sum(a, d.imm), k.sz);
    } else if k.KStore? {
      WriteKeepsTlbOk(h, env, Sum(a, d.imm), b & Mask(k.sz), k.sz);
    } else {
      ReadKeepsTlbOk(h, env, a, Whole);
      WriteKeepsTlbOk(h, env, a, b, Whole);
      var r := ReadData(h, env, a, Whole);
      WriteKeepsTlbOk(WithRd(r.h, d, r.value), env, a, AmoResult(d.op, r.value, b), Whole);
    }
  }

  lemma CsrInstrKeepsTlbOk(h: Hart, d: Decoded, a: Word)
    requires TlbOk(h.tlb)
    ensures TlbOk(ExecCsr(h, d, a).h.tlb)
  {
    hide CsrRead, CsrWrite, CsrReads, CsrWrites, CsrNew, CsrOperand, SetReg, Flushes, CacheWellFormed;
    assert CacheWellFormed(map[]) by { EmptyIsWellFormed(); }
  }

  lemma EmptyIsWellFormed()
    ensures CacheWellFormed(map[])
  {}

  lemma ExecuteKeepsTlbOk(h: Hart, d: Decoded, env: Env)
    requires TlbOk(h.tlb)
    ensures TlbOk(Execute(h, d, env).h.tlb)
  {
    hide IsMemory, ExecMemory, Sum, Decoded.Len, GetReg, KindOf, ExecCsr, ExecSystem, JumpTarget, AluResult, SetReg;
    hide MretAllowed, SretAllowed, Mret, Sret, TlbOk;
    var h1 := Sequential(h, d);
    var a, b := GetReg(h1.regs, d.rs1), GetReg(h1.regs, d.rs2);
    if IsMemory(KindOf(d.op)) {
      MemoryKeepsTlbOk(h1, d, env, a, b);
    } else {
      CsrInstrKeepsTlbOk(h1, d, a);
      SystemKeepsHart(h1, d);
    }
  }

  // ---- steps and runs ----

  ghost predicate HartOk(h: Hart) { CoreOk(h.core) && Even(h.core.pc) && TlbOk(h.tlb) }

  lemma TrappedKeepsOk(h: Hart, cause: Word, tval: Word)
    requires CoreOk(h.core) && TlbOk(h.tlb)
    ensures HartOk(Trapped(h, cause, tval))
  {
    hide TakeTrap, CsrsOk, LegalPriv, Even, TlbOk;
    TakeTrapKeepsOk(h.core, cause, tval);
  }

  lemma RetireKeepsOk(x: Exec)
    requires NextOk(x.h.core) && TlbOk(x.h.tlb)
    ensures HartOk(Retire(x))
  {
    hide Trapped, Tick, StatusOk, Even, LegalPriv, CacheWellFormed;
    EmptyIsWellFormed();
    TickKeepsRest(x.h.core.csr);
    var h := WithCsr(x.h, Tick(x.h.core.csr));
    var h1 := h.(tlb := if x.sfence then map[] else h.tlb);
    if x.fault.Faulted? {
      TrappedKeepsOk(x.h, x.fault.cause, x.fault.va);
    } else if x.exc.Exc? {
      TrappedKeepsOk(h1, x.exc.cause, x.exc.tval);
    }
  }

  lemma TickKeepsRest(c: Csrs)
    ensures Tick(c) == c.(n := Tick(c).n)
  {}

  lemma FetchKeepsTlbOk(h: Hart, env: Env)
    requires TlbOk(h.tlb)
    ensures TlbOk(FetchOutcome(h, env).tlb)
  {
    hide Translate, TlbOk, FetchMmuActive;
    TranslateKeepsTlbOk(h.ram, env.io, h.tlb, env.pick, h.core.csr.s.satp, h.core.pc, FETCH, h.core.priv, h.core.csr.mstatus);
  }

  lemma FetchedOffsetIsEven(h: Hart, env: Env)
    requires FetchOutcome(h, env).result.Mapped?
    ensures EvenOffset(Fetched(h, env))
  {
    hide FetchOutcome, DecodeInstr, IsRelativeJump, Load;
    var o := FetchOutcome(h, env);
    OffsetsAreEven(Load(o.ram, env.io, o.result.paddr, Whole));
  }

  lemma StepKeepsOk(h: Hart, env: Env)
    requires HartOk(h)
    ensures HartOk(Step(h, env))
  {
    hide Trapped, TakesInterrupt, PendingInterrupt, FetchOutcome, Fetched, Execute, Retire, CoreOk, Even, TlbOk, EvenOffset;
    if TakesInterrupt(h) {
      TrappedKeepsOk(h, PendingInterrupt(h.core.priv, h.core.csr), 0);
    } else {
      FetchKeepsTlbOk(h, env);
      var o := FetchOutcome(h, env);
      if o.result.PageFault? {
        TrappedKeepsOk(WithMemory(h, o), o.result.cause, h.core.pc);
      } else {
        FetchedOffsetIsEven(h, env);
        var h1, d := WithMemory(h, o), Fetched(h, env);
        ExecuteKeepsOk(h1, d, env);
        ExecuteKeepsTlbOk(h1, d, env);
        RetireKeepsOk(Execute(h1, d, env));
      }
    }
  }

  lemma AfterKeepsOk(h: Hart, e: Event)
    requires HartOk(h)
    ensures HartOk(After(h, e))
  {
    hide Step, StatusOk, LegalPriv, Even, TlbOk, Store;
    if e.Cpu? { StepKeepsOk(h, e.env); }
  }

  /** In every reachable state of the platform privilege is U, S or M, MPP is never 2, mstatus
      stays inside its write mask, pc and both epc registers are even, and the TLB holds at most 64
      entries, none of them writable but not readable. */
  lemma {:induction false} RunKeepsOk(h: Hart, es: seq<Event>)
    requires HartOk(h)
    ensures HartOk(Run(h, es))
    decreases |es|
  {
    hide HartOk, After;
    if es != [] {
      AfterKeepsOk(h, es[0]);
      RunKeepsOk(After(h, es[0]), es[1..]);
    }
  }

  /** The state ISS::run starts from: M-mode, reset CSRs, an empty TLB. */
  function ResetHart(pc: Word, ram: Ram): Hart {
    Hart(Core(pc, 0, PRV_M, RESET), map[], Reservation(0, false), ram, map[])
  }

  lemma ResetIsOk(pc: Word, ram: Ram)
    requires Even(pc)
    ensures HartOk(ResetHart(pc, ram))
  {}

  lemma LegalBelowThree(p: Word)
    requires LegalPriv(p) && p < 3
    ensures p == PRV_U || p == PRV_S
  {}

  lemma EffectiveIsLegal(c: Core)
    requires LegalPriv(c.priv) && MppLegal(c.csr.mstatus)
    ensures LegalPriv(EffectivePriv(c))
  {
    hide LegalPriv, Bit, MppOf, MppLegal;
    MppIsLegalPriv(c.csr.mstatus);
  }

  lemma FetchIsForUOrS(c: Core)
    requires LegalPriv(c.priv)
    ensures FetchMmuActive(c) ==> c.priv == PRV_U || c.priv == PRV_S
  {
    hide LegalPriv, Sv32On;
    if c.priv < 3 { LegalBelowThree(c.priv); }
  }
  lemma DataIsForUOrS(c: Core)
    requires LegalPriv(c.priv) && MppLegal(c.csr.mstatus)
    ensures DataMmuActive(c) ==> EffectivePriv(c) == PRV_U || EffectivePriv(c) == PRV_S
  {
    hide LegalPriv, EffectivePriv, MppLegal, Sv32On;
    EffectiveIsLegal(c);
    if EffectivePriv(c) < 3 { LegalBelowThree(EffectivePriv(c)); }
  }

  /** Translation is requested with privilege U or S only, for fetches and for data, even under MPRV. */
  lemma TranslationIsForUOrS(c: Core)
    requires CoreOk(c)
    ensures FetchMmuActive(c) ==> c.priv == PRV_U || c.priv == PRV_S
    ensures DataMmuActive(c) ==> EffectivePriv(c) == PRV_U || EffectivePriv(c) == PRV_S
  {
    hide LegalPriv, EffectivePriv, InMask, MppLegal, Even, FetchMmuActive, DataMmuActive;
    FetchIsForUOrS(c);
    DataIsForUOrS(c);
  }

  /** What HartOk says, for every state reachable from reset, in the terms of the program. */
  lemma ReachableStates(pc: Word, ram: Ram, es: seq<Event>)
    requires Even(pc)
    ensures var c := Run(ResetHart(pc, ram), es).core;
      && LegalPriv(c.priv) && StatusOk(c.csr.mstatus) && Even(c.pc)
      && (FetchMmuActive(c) ==> c.priv == PRV_U || c.priv == PRV_S)
      && (DataMmuActive(c) ==> EffectivePriv(c) == PRV_U || EffectivePriv(c) == PRV_S)
    ensures |Run(ResetHart(pc, ram), es).tlb| <= TLB_SIZE
  {
    hide LegalPriv, StatusOk, Even, FetchMmuActive, DataMmuActive, EffectivePriv, CacheWellFormed, ResetHart, Run;
    ResetIsOk(pc, ram);
    RunKeepsOk(ResetHart(pc, ram), es);
    TranslationIsForUOrS(Run(ResetHart(pc, ram), es).core);
  }
}
