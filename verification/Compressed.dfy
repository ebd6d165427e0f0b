/** Compressed instructions mean what their expansions mean: executing `decode(ci)` and executing
    the decoded expansion differ in the sequential pc, the link value and the raw word only. */
module Compressed {
  import opened Rv32
  import opened Decode
  import opened Rvc
  import opened Phys
  import opened Mmu
  import opened Csr
  import opened Trap
  import opened Hart
  import opened Invariants

  /** The two decodings of one operation: same fields, another raw word and another length. */
  predicate Twins(d: Decoded, f: Decoded) {
    f.op == d.op && f.rd == d.rd && f.rs1 == d.rs1 && f.rs2 == d.rs2 && f.imm == d.imm && f.csr == d.csr
  }

  /** The instruction sets next_pc itself. */
  predicate Redirects(h: Hart, d: Decoded) {
    var k := KindOf(d.op);
    || k.KJal? || k.KJalr? || (k.KBranch? && Taken(d.op, GetReg(h.regs, d.rs1), GetReg(h.regs, d.rs2)))
    || (k.KMret? && MretAllowed(h.core)) || (k.KSret? && SretAllowed(h.core))
  }
  predicate Links(d: Decoded) { KindOf(d.op).KJal? || KindOf(d.op).KJalr? }

  /** x and y are the same outcome, up to the three differences that the length and the raw word of
      the encoding account for; `p` and `q` are the sequential pcs. */
  predicate SameEffect(h: Hart, d: Decoded, f: Decoded, p: Word, q: Word, x: Exec, y: Exec) {
    && x.fault == y.fault && x.sfence == y.sfence
    && (if Redirects(h, d) then x.h.core.nextPc == y.h.core.nextPc else x.h.core.nextPc == p && y.h.core.nextPc == q)
    && (if Links(d) then x.h.regs == SetReg(h.regs, d.rd, p) && y.h.regs == SetReg(h.regs, d.rd, q) else x.h.regs == y.h.regs)
    && SameExc(x.exc, y.exc, d, f)
    && x.h == y.h.(core := y.h.core.(nextPc := x.h.core.nextPc), regs := x.h.regs)
  }

  // ---- data accesses do not see next_pc ----

  function Moved(x: Exec, q: Word): Exec { x.(h := WithNext(x.h, q)) }

  lemma ReadIgnoresNext(h: Hart, q: Word, env: Env, va: Word, sz: Size)
    ensures var r := ReadData(h, env, va, sz); ReadData(WithNext(h, q), env, va, sz) == r.(h := WithNext(r.h, q))
  {
    hide Translate, Load, DataMmuActive, EffectivePriv, Sv32On;
    ActiveIgnoresNext(h, q);
  }
  lemma WriteIgnoresNext(h: Hart, q: Word, env: Env, va: Word, v: Word, sz: Size)
    ensures var w := WriteData(h, env, va, v, sz); WriteData(WithNext(h, q), env, va, v, sz) == w.(h := WithNext(w.h, q))
  {
    hide Translate, Store, DataMmuActive, EffectivePriv, Sv32On;
    ActiveIgnoresNext(h, q);
  }
  lemma ActiveIgnoresNext(h: Hart, q: Word)
    ensures EffectivePriv(WithNext(h, q).core) == EffectivePriv(h.core)
    ensures DataMmuActive(WithNext(h, q).core) == DataMmuActive(h.core)
  {
    hide Bit, MppOf, Sv32On;
  }

  lemma RdIgnoresNext(h: Hart, q: Word, d: Decoded, f: Decoded, v: Word)
    requires Twins(d, f)
    ensures WithRd(WithNext(h, q), f, v) == WithNext(WithRd(h, d, v), q)
  {
    hide SetReg;
  }

  lemma LoadIgnoresNext(h: Hart, q: Word, d: Decoded, f: Decoded, env: Env, va: Word, sz: Size)
    requires Twins(d, f)
    ensures ExecLoad(WithNext(h, q), f, env, va, sz) == Moved(ExecLoad(h, d, env, va, sz), q)
  {
    hide ReadData, MisalignedFor, WithRd, Extend, WithNext;
    ReadIgnoresNext(h, q, env, va, sz);
    var r := ReadData(h, env, va, sz);
    RdIgnoresNext(r.h, q, d, f, Extend(d.op, r.value));
  }
  lemma StoreIgnoresNext(h: Hart, q: Word, d: Decoded, f: Decoded, env: Env, va: Word, v: Word, sz: Size)
    ensures ExecStore(WithNext(h, q), f, env, va, v, sz) == Moved(ExecStore(h, d, env, va, v, sz), q)
  {
    hide WriteData, MisalignedFor, Mask;
    WriteIgnoresNext(h, q, env, va, v & Mask(sz), sz);
  }
  lemma LrIgnoresNext(h: Hart, q: Word, d: Decoded, f: Decoded, env: Env, va: Word)
    requires Twins(d, f)
    ensures ExecLr(WithNext(h, q), f, env, va) == Moved(ExecLr(h, d, env, va), q)
  {
    hide ReadData, MisalignedFor, SetReg, Reservation.Set;
    ReadIgnoresNext(h, q, env, va, Whole);
  }
  lemma ScIgnoresNext(h: Hart, q: Word, d: Decoded, f: Decoded, env: Env, va: Word, v: Word)
    requires Twins(d, f)
    ensures ExecSc(WithNext(h, q), f, env, va, v) == Moved(ExecSc(h, d, env, va, v), q)
  {
    hide WriteData, MisalignedFor, SetReg, Reservation.Check;
    WriteIgnoresNext(h, q, env, va, v, Whole);
  }
  lemma AmoIgnoresNext(h: Hart, q: Word, d: Decoded, f: Decoded, env: Env, va: Word, v: Word)
    requires Twins(d, f)
    ensures ExecAmo(WithNext(h, q), f, env, va, v) == Moved(ExecAmo(h, d, env, va, v), q)
  {
    hide ReadData, WriteData, MisalignedFor, WithRd, AmoResult, WithNext;
    ReadIgnoresNext(h, q, env, va, Whole);
    var r := ReadData(h, env, va, Whole);
    RdIgnoresNext(r.h, q, d, f, r.value);
    WriteIgnoresNext(WithRd(r.h, d, r.value), q, env, va, AmoResult(d.op, r.value, v), Whole);
  }

  lemma MemoryIgnoresNext(h: Hart, q: Word, d: Decoded, f: Decoded, env: Env, a: Word, b: Word)
    requires Twins(d, f) && IsMemory(KindOf(d.op))
    ensures ExecMemory(WithNext(h, q), f, env, a, b) == Moved(ExecMemory(h, d, env, a, b), q)
  {
    hide KindOf, ExecLoad, ExecStore, ExecLr, ExecSc, ExecAmo, Sum, WithNext, Moved;
    var k := KindOf(d.op);
    if k.KLoad? {
      LoadIgnoresNext(h, q, d, f, env, Sum(a, d.imm), k.sz);
    } else if k.KStore? {
      StoreIgnoresNext(h, q, d, f, env, Sum(a, d.imm), b, k.sz);
    } else {
      LrIgnoresNext(h, q, d, f, env, a);
      ScIgnoresNext(h, q, d, f, env, a, b);
      AmoIgnoresNext(h, q, d, f, env, a, b);
    }
  }

  // ---- the other instructions ----

  /** Equal, or illegal-instruction exceptions that each carry their own raw word. */
  predicate SameExc(x: Exc, y: Exc, d: Decoded, f: Decoded) {
    x == y || (x == Exc(CAUSE_ILLEGAL_INSTR, d.raw) && y == Exc(CAUSE_ILLEGAL_INSTR, f.raw))
  }

  predicate Alike(x: Exec, y: Exec, q: Word, d: Decoded, f: Decoded) {
    y.h == WithNext(x.h, q) && y.fault == x.fault && y.sfence == x.sfence && SameExc(x.exc, y.exc, d, f)
  }

  lemma CommitIgnoresNext(h: Hart, q: Word, d: Decoded, f: Decoded, w: Written)
    requires Twins(d, f)
    ensures Alike(CsrCommit(h, d, w), CsrCommit(WithNext(h, q), f, w), q, d, f)
  {
    hide Flushes;
  }

  lemma CsrIgnoresNext(h: Hart, q: Word, d: Decoded, f: Decoded, a: Word)
    requires Twins(d, f)
    ensures Alike(ExecCsr(h, d, a), ExecCsr(WithNext(h, q), f, a), q, d, f)
  {
    hide CsrRead, CsrWrite, WithRd, CsrCommit, CsrReads, CsrWrites, CsrNew, CsrOperand;
    var c := h.core.csr;
    var r := CsrRead(c, d.csr, h.core.priv);
    var was := if r.Value? then r.v else 0;
    var h1 := if CsrReads(d.op, d.rd) then WithRd(h, d, was) else h;
    RdIgnoresNext(h, q, d, f, was);
    CommitIgnoresNext(h1, q, d, f, CsrWrite(c, d.csr, h.core.priv, CsrNew(d.op, was, CsrOperand(d.op, d.rs1, a))));
  }
  lemma RdKeepsCore(h: Hart, d: Decoded, v: Word)
    ensures WithRd(h, d, v) == h.(regs := WithRd(h, d, v).regs)
  {}

  lemma CoreIgnoresNext(c: Core, q: Word)
    ensures Mret(c.(nextPc := q)) == Mret(c) && Sret(c.(nextPc := q)) == Sret(c)
    ensures MretAllowed(c.(nextPc := q)) == MretAllowed(c) && SretAllowed(c.(nextPc := q)) == SretAllowed(c)
  {
    hide LeaveM, LeaveS, MppOf, SppOf, Bit;
  }
  lemma SfenceIgnoresNext(c: Core, q: Word)
    ensures SfenceAllowed(c.(nextPc := q)) == SfenceAllowed(c)
  {
    hide Bit;
  }

  lemma ReturnIgnoresNext(h: Hart, q: Word, d: Decoded, f: Decoded)
    requires Twins(d, f) && (KindOf(d.op).KMret? || KindOf(d.op).KSret?)
    ensures SameEffect(h, d, f, h.core.nextPc, q, ExecReturn(h, d), ExecReturn(WithNext(h, q), f))
  {
    hide KindOf, Mret, Sret, MretAllowed, SretAllowed, Taken, GetReg, SetReg;
    CoreIgnoresNext(h.core, q);
  }

  lemma SystemIgnoresNext(h: Hart, q: Word, d: Decoded, f: Decoded)
    requires Twins(d, f)
    ensures Alike(ExecSystem(h, d), ExecSystem(WithNext(h, q), f), q, d, f)
  {
    hide KindOf, EcallCause, SfenceAllowed, WithNext, SameExc;
    SfenceIgnoresNext(h.core, q);
    WithNextOnlyMoves(h, q);
    SameExcHolds(ExecSystem(h, d).exc, d, f);
  }
  lemma WithNextOnlyMoves(h: Hart, q: Word)
    ensures WithNext(h, q).core == h.core.(nextPc := q)
  {}

  lemma JumpIgnoresShape(h: Hart, q: Word, d: Decoded, f: Decoded)
    requires Twins(d, f) && (Links(d) || KindOf(d.op).KBranch?)
    ensures var a, b := GetReg(h.regs, d.rs1), GetReg(h.regs, d.rs2);
      SameEffect(h, d, f, h.core.nextPc, q, ExecJump(h, d, a, b), ExecJump(WithNext(h, q), f, a, b))
  {
    hide KindOf, SetReg, GetReg, Taken, Sum, JalrTarget, MretAllowed, SretAllowed;
  }

  lemma QuietSame(h: Hart, q: Word, d: Decoded, f: Decoded, x: Exec, y: Exec)
    requires !Redirects(h, d) && !Links(d) && x.h.core.nextPc == h.core.nextPc
    requires Alike(x, y, q, d, f)
    ensures SameEffect(h, d, f, h.core.nextPc, q, x, y)
  {
    hide Redirects, Links, SetReg;
  }

  lemma ControlIgnoresShape(h: Hart, q: Word, d: Decoded, f: Decoded)
    requires Twins(d, f) && !IsMemory(KindOf(d.op))
    ensures var a, b := GetReg(h.regs, d.rs1), GetReg(h.regs, d.rs2);
      SameEffect(h, d, f, h.core.nextPc, q, ExecControl(h, d, a, b), ExecControl(WithNext(h, q), f, a, b))
  {
    hide KindOf, ExecCsr, ExecReturn, ExecSystem, ExecJump, AluResult, WithRd, GetReg, Taken, MretAllowed, SretAllowed, SameEffect, SameExc;
    var a, b := GetReg(h.regs, d.rs1), GetReg(h.regs, d.rs2);
    var x, y := ExecControl(h, d, a, b), ExecControl(WithNext(h, q), f, a, b);
    var k := KindOf(d.op);
    if k.KJal? || k.KJalr? || k.KBranch? {
      JumpIgnoresShape(h, q, d, f);
    } else if k.KMret? || k.KSret? {
      ReturnIgnoresNext(h, q, d, f);
    } else {
      if k.KAlu? {
        var v := AluResult(d.op, d.imm, h.core.pc, a, b);
        RdIgnoresNext(h, q, d, f, v);
        RdKeepsCore(h, d, v);
        SameExcHolds(NoExc, d, f);
      } else if k.KCsr? {
        CsrIgnoresNext(h, q, d, f, a);
        CsrKeepsNext(h, d, a);
      } else {
        SystemIgnoresNext(h, q, d, f);
        SystemKeepsHart(h, d);
      }
      QuietSame(h, q, d, f, x, y);
    }
  }
  lemma SameExcHolds(e: Exc, d: Decoded, f: Decoded)
    ensures SameExc(e, e, d, f)
    ensures SameExc(Exc(CAUSE_ILLEGAL_INSTR, d.raw), Exc(CAUSE_ILLEGAL_INSTR, f.raw), d, f)
  {}
  lemma CsrKeepsNext(h: Hart, d: Decoded, a: Word)
    ensures ExecCsr(h, d, a).h.core.nextPc == h.core.nextPc
  {
    hide ExecCsr, CsrWrite;
    var v := CsrInstrCore(h, d, a);
  }

  /** The encoding of an instruction shows in the sequential pc, the link and the trap value only. */
  lemma TwinsExecuteAlike(h: Hart, d: Decoded, f: Decoded, env: Env)
    requires Twins(d, f)
    ensures SameEffect(h, d, f, Sum(h.core.pc, d.Len()), Sum(h.core.pc, f.Len()), Execute(h, d, env), Execute(h, f, env))
  {
    hide ExecMemory, ExecControl, KindOf, Sum, Decoded.Len, GetReg, SetReg, Taken, Bit, MretAllowed, SretAllowed;
    var p, q := Sum(h.core.pc, d.Len()), Sum(h.core.pc, f.Len());
    var h1, h2 := Sequential(h, d), Sequential(h, f);
    assert h2 == WithNext(h1, q);
    var a, b := GetReg(h.regs, d.rs1), GetReg(h.regs, d.rs2);
    if IsMemory(KindOf(d.op)) {
      MemoryKeepsCore(h1, d, env, a, b);
      MemoryIgnoresNext(h1, q, d, f, env, a, b);
      MemoryDoesNotRaiseIllegal(h1, d, env, a, b);
    } else {
      ControlIgnoresShape(h1, q, d, f);
      RedirectsIgnoresNext(h, p, d);
    }
  }

  lemma MemoryDoesNotRaiseIllegal(h: Hart, d: Decoded, env: Env, a: Word, b: Word)
    requires IsMemory(KindOf(d.op))
    ensures !Redirects(h, d) && !Links(d)
  {
    hide KindOf, Taken, GetReg, MretAllowed, SretAllowed;
  }
  lemma RedirectsIgnoresNext(h: Hart, p: Word, d: Decoded)
    ensures Redirects(WithNext(h, p), d) == Redirects(h, d)
  {
    hide KindOf, Taken, GetReg, Bit;
  }

  /** RVC expansion preserves meaning: for every halfword and every state, executing decode(ci) and
      executing the decoded expansion have the same effect; a halfword with no expansion is illegal
      on both sides. */
  lemma CompressedExecutesAsExpanded(h: Hart, i: Word, env: Env)
    requires i & 3 != 3
    ensures var d, f := DecodeInstr(i), Decode32(Expand(i & 0xFFFF));
      && Twins(d, f) && d.raw == i & 0xFFFF && f.raw == Expand(i & 0xFFFF)
      && SameEffect(h, d, f, Sum(h.core.pc, 2), Sum(h.core.pc, 4), Execute(h, d, env), Execute(h, f, env))
  {
    hide Execute, Decode32, Expand, Sum, SameEffect;
    var x := Expand(i & 0xFFFF);
    Decode32Shape(x);
    if x == 0 { ZeroIsIllegal(); }
    TwinsExecuteAlike(h, DecodeInstr(i), Decode32(x), env);
  }

  lemma Decode32Shape(x: Word)
    ensures Decode32(x).raw == x && !Decode32(x).compressed
  {
    hide BranchOp, LoadOp, StoreOp, ImmOp, RegOp, AmoOp, PrivOp, CsrOp, ImmI, ImmS, ImmB, ImmU, ImmJ;
  }
  lemma ZeroIsIllegal()
    ensures Decode32(0) == Decoded(ILLEGAL, 0, 0, 0, 0, 0, 0, false)
  {}
}
