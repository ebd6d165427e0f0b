/** Traps and interrupts by the bits of the registers: when an interrupt is taken, where a trap goes, and
    what happens to the status (src/cpu/trap.cpp:6-79, src/cpu/execute.cpp:248-299). */
module Delegation {
  import opened Rv32
  import opened Mmu
  import opened Csr
  import opened Trap
  import opened Hart
  import opened Invariants
  import opened Isolation
  import opened Interrupts
  import opened Paging
  import opened Atomics
  import opened Precise
  import opened Arithmetic
  import opened Instructions
  import Numbers

  // ---- interrupts ----

  /** An enabled pending line that is delegated is taken in U, and in S with SIE; one that is not is
      taken below M, and in M with MIE. */
  predicate Open(priv: Word, c: Csrs, k: bv5) {
    if OneBit(c.m.mideleg, k) then priv == PRV_U || (priv == PRV_S && OneBit(c.mstatus, 1))
    else priv != PRV_M || OneBit(c.mstatus, 3)
  }
  predicate Interrupting(priv: Word, c: Csrs, k: bv5) { OneBit(c.Mip(), k) && OneBit(c.mie, k) && Open(priv, c, k) }

  lemma EnableRule(priv: Word, s: Word)
    requires LegalPriv(priv)
    ensures MEnabled(priv, s) <==> priv != PRV_M || OneBit(s, 3)
    ensures SEnabled(priv, s) <==> priv == PRV_U || (priv == PRV_S && OneBit(s, 1))
  {
    BitOfMie(s);
    BitOfSie(s);
    hide Bit, OneBit;
  }
  lemma BitOfMie(s: Word)
    ensures Bit(s, MSTATUS_MIE) <==> OneBit(s, 3)
  {}
  lemma BitOfSie(s: Word)
    ensures Bit(s, MSTATUS_SIE) <==> OneBit(s, 1)
  {}

  // Numbers.And and Trap.Both are the same word operation, and so are the other two.
  lemma BitOfBoth(x: Word, y: Word, k: bv5)
    ensures OneBit(Both(x, y), k) <==> OneBit(x, k) && OneBit(y, k)
  {
    BothIsAnd(x, y);
    hide OneBit, Both, Numbers.And;
    Numbers.BitOfAnd(x, y, k);
  }
  lemma BothIsAnd(x: Word, y: Word)
    ensures Both(x, y) == Numbers.And(x, y) && Either(x, y) == Numbers.Or(x, y)
  {}
  lemma BitOfWithout(x: Word, y: Word, k: bv5)
    ensures OneBit(Without(x, y), k) <==> OneBit(x, k) && !OneBit(y, k)
  {
    WithoutIsAnd(x, y);
    hide OneBit, Without, Numbers.And, Numbers.Not;
    Numbers.BitOfAnd(x, Numbers.Not(y), k);
    Numbers.BitOfNot(y, k);
  }
  lemma NotIsNot(y: Word)
    ensures Numbers.Not(y) == !y
  {}
  lemma WithoutIsAnd(x: Word, y: Word)
    ensures Without(x, y) == Numbers.And(x, Numbers.Not(y))
  {
    NotIsNot(y);
    hide Numbers.Not;
  }
  lemma BitOfEither(x: Word, y: Word, k: bv5)
    ensures OneBit(Either(x, y), k) <==> OneBit(x, k) || OneBit(y, k)
  {
    BothIsAnd(x, y);
    hide OneBit, Either, Numbers.Or;
    Numbers.BitOfOr(x, y, k);
  }
  lemma BitOfZero(k: bv5)
    ensures !OneBit(0, k)
  {}

  lemma ActiveRule(priv: Word, c: Csrs, k: bv5)
    requires LegalPriv(priv)
    ensures OneBit(Active(priv, c), k) <==> Interrupting(priv, c, k)
  {
    hide LegalPriv, MEnabled, SEnabled, Both, Without, Either, OneBit, Csrs.Mip;
    EnableRule(priv, c.mstatus);
    var pending := Both(c.Mip(), c.mie);
    var forM, forS := Without(pending, c.m.mideleg), Both(pending, c.m.mideleg);
    BitOfEither(Gate(MEnabled(priv, c.mstatus), forM), Gate(SEnabled(priv, c.mstatus), forS), k);
    BitOfBoth(c.Mip(), c.mie, k);
    BitOfWithout(pending, c.m.mideleg, k);
    BitOfBoth(pending, c.m.mideleg, k);
    BitOfZero(k);
  }

  /** MEI, MSI, MTI, SEI, SSI, STI. */
  const LINES: seq<bv5> := [11, 3, 7, 9, 1, 5]

  /** Line number k of the list is the first that interrupts. */
  predicate IsFirstLine(priv: Word, c: Csrs, k: nat) {
    k < |LINES| && Interrupting(priv, c, LINES[k]) && forall j: nat :: j < k ==> !Interrupting(priv, c, LINES[j])
  }

  lemma LinesAreRaised(x: Word)
    ensures Raised(x, 11) == OneBit(x, 11) && Raised(x, 3) == OneBit(x, 3) && Raised(x, 7) == OneBit(x, 7)
    ensures Raised(x, 9) == OneBit(x, 9) && Raised(x, 1) == OneBit(x, 1) && Raised(x, 5) == OneBit(x, 5)
  {}

  /** The step takes an interrupt exactly when one of the six is interrupting, and then the first of them
      in the order of the list. */
  lemma InterruptRule(priv: Word, c: Csrs)
    requires LegalPriv(priv)
    ensures PendingInterrupt(priv, c) == 0 <==> forall j: nat :: j < |LINES| ==> !Interrupting(priv, c, LINES[j])
    ensures forall k: nat :: IsFirstLine(priv, c, k) ==> PendingInterrupt(priv, c) == INT_BIT | PRIORITY[k]
  {
    hide LegalPriv, Raised, OneBit, FirstActive, Active, Interrupting;
    var x := Active(priv, c);
    LinesAreRaised(x);
    SelectionIsFirstActive(x);
    forall k: nat | k < |LINES| ensures Raised(x, PRIORITY[k]) == Interrupting(priv, c, LINES[k]) { ActiveRule(priv, c, LINES[k]); }
    forall k: nat | IsFirstLine(priv, c, k) ensures PendingInterrupt(priv, c) == INT_BIT | PRIORITY[k] { assert IsFirst(x, k); }
  }

  // ---- where a trap goes ----

  /** A cause: its code, and whether it is an interrupt. */
  function Cause(k: bv5, interrupt: bool): Word { if interrupt then 0x8000_0000 | (k as Word) else k as Word }

  lemma CauseParts(k: bv5, interrupt: bool)
    ensures IsInterrupt(Cause(k, interrupt)) == interrupt && CauseCode(Cause(k, interrupt)) == k as Word
  {}
  lemma DelegBitRule(deleg: Word, k: bv5)
    ensures DelegBit(deleg, k as Word) <==> OneBit(deleg, k)
  {}

  /** From U and S, an exception goes to S if and only if its bit of medeleg is set, and an interrupt if
      and only if its bit of mideleg is; from M nothing does. */
  lemma DelegationRule(priv: Word, c: Csrs, k: bv5, interrupt: bool)
    requires LegalPriv(priv)
    ensures Delegated(priv, c, Cause(k, interrupt)) <==>
      priv != PRV_M && OneBit(if interrupt then c.m.mideleg else c.m.medeleg, k)
  {
    hide DelegBit, IsInterrupt, CauseCode, Cause, OneBit;
    CauseParts(k, interrupt);
    DelegBitRule(c.m.mideleg, k);
    DelegBitRule(c.m.medeleg, k);
  }

  /** The handler address: the base of the vector register, and for interrupts in mode 1 four bytes per
      code further on. */
  ghost predicate IsHandler(tvec: Word, k: bv5, interrupt: bool, pc: Word) {
    exists base: Word :: IsBase(tvec, base)
      && PcAfter(base, if interrupt && OneBit(tvec, 0) && !OneBit(tvec, 1) then 4 * U(k as Word) else 0, pc)
  }
  predicate IsBase(tvec: Word, base: Word) { base & 3 == 0 && base >> 2 == tvec >> 2 }

  lemma BaseRule(tvec: Word)
    ensures IsBase(tvec, VectorBase(tvec))
  {}
  lemma ModeRule(tvec: Word)
    ensures Vectored(tvec) <==> OneBit(tvec, 0) && !OneBit(tvec, 1)
  {}
  lemma FourIsSum(x: Word)
    ensures FourTimes(x) == Sum(Sum(x, x), Sum(x, x))
  {
    FourPlain(x);
    assert Sum(x, x) == x + x;
    assert Sum(x + x, x + x) == (x + x) + (x + x);
  }
  lemma FourPlain(x: Word)
    ensures 4 * x == (x + x) + (x + x)
  {}
  lemma FourValue(k: bv5)
    ensures U(FourTimes(k as Word)) == 4 * U(k as Word)
  {
    hide FourTimes, Sum, U;
    var x := k as Word;
    FourIsSum(x);
    SumValues(x, x);
    SumValues(Sum(x, x), Sum(x, x));
    SmallCode(k);
  }
  lemma HandlerRule(tvec: Word, k: bv5, interrupt: bool)
    ensures IsHandler(tvec, k, interrupt, Vector(tvec, Cause(k, interrupt)))
  {
    hide Vectored, VectorBase, FourTimes, IsInterrupt, CauseCode, Cause, OneBit, Sum, U, IsBase;
    CauseParts(k, interrupt);
    BaseRule(tvec);
    ModeRule(tvec);
    FourValue(k);
    SumValues(VectorBase(tvec), FourTimes(k as Word));
    assert IsBase(tvec, VectorBase(tvec));
  }
  lemma SmallCode(k: bv5)
    ensures U(k as Word) < 32
  {
    CodeIsLess(k);
    hide Numbers.Less;
    OrderValues(k as Word, 32);
    ThirtyTwo();
  }
  lemma CodeIsLess(k: bv5)
    ensures Numbers.Less(k as Word, 32)
  {}
  lemma ThirtyTwo()
    ensures U(32) == 32
  {
    assert Numbers.Num8(32) == 32 && Numbers.Num8(0) == 0;
    hide Numbers.Num8;
  }

  // ---- the status through traps and returns ----

  lemma SaveSieBits(s: Word, k: bv5)
    ensures OneBit(SaveSie(s), k) <==> OneBit(s, if k == 5 then 1 else k)
  {}
  lemma MaskSieBits(s: Word, k: bv5)
    ensures OneBit(MaskSie(s), k) <==> OneBit(s, k) && k != 1
  {}
  lemma SaveSppBits(s: Word, priv: Word, k: bv5)
    ensures OneBit(SaveSpp(s, priv), k) <==> if k == 8 then priv == PRV_S else OneBit(s, k)
  {}
  /** SPIE gets SIE, SIE is cleared, SPP says whether the trap came from S; nothing else changes. */
  lemma EnterSBits(s: Word, priv: Word, k: bv5)
    ensures OneBit(EnterS(s, priv), k) <==>
      if k == 5 then OneBit(s, 1) else if k == 1 then false else if k == 8 then priv == PRV_S else OneBit(s, k)
  {
    hide OneBit, SaveSie, MaskSie, SaveSpp;
    SaveSieBits(s, k);
    MaskSieBits(SaveSie(s), k);
    SaveSppBits(MaskSie(SaveSie(s)), priv, k);
  }
  lemma SaveMieBits(s: Word, k: bv5)
    ensures OneBit(SaveMie(s), k) <==> OneBit(s, if k == 7 then 3 else k)
  {}
  lemma MaskMieBits(s: Word, k: bv5)
    ensures OneBit(MaskMie(s), k) <==> OneBit(s, k) && k != 3
  {}
  lemma SaveMppBits(s: Word, priv: Word, k: bv5)
    requires LegalPriv(priv)
    ensures OneBit(SaveMpp(s, priv), k) <==>
      if k == 11 then priv != PRV_U else if k == 12 then priv == PRV_M else OneBit(s, k)
  {}
  /** MPIE gets MIE, MIE is cleared, MPP gets the privilege. */
  lemma EnterMBits(s: Word, priv: Word, k: bv5)
    requires LegalPriv(priv)
    ensures OneBit(EnterM(s, priv), k) <==>
      if k == 7 then OneBit(s, 3) else if k == 3 then false
      else if k == 11 then priv != PRV_U else if k == 12 then priv == PRV_M else OneBit(s, k)
  {
    hide OneBit, SaveMie, MaskMie, SaveMpp, LegalPriv;
    SaveMieBits(s, k);
    MaskMieBits(SaveMie(s), k);
    SaveMppBits(MaskMie(SaveMie(s)), priv, k);
  }
  /** MIE gets MPIE, MPIE is set, MPP becomes U. */
  lemma LeaveMBits(s: Word, k: bv5)
    ensures OneBit(LeaveM(s), k) <==>
      if k == 3 then OneBit(s, 7) else if k == 7 then true else if k == 11 || k == 12 then false else OneBit(s, k)
  {}
  /** SIE gets SPIE, SPIE is set, SPP becomes U. */
  lemma LeaveSBits(s: Word, k: bv5)
    ensures OneBit(LeaveS(s), k) <==>
      if k == 1 then OneBit(s, 5) else if k == 5 then true else if k == 8 then false else OneBit(s, k)
  {}

  ghost predicate StatusInS(s: Word, priv: Word, s': Word) {
    forall k: bv5 :: OneBit(s', k) <==>
      if k == 5 then OneBit(s, 1) else if k == 1 then false else if k == 8 then priv == PRV_S else OneBit(s, k)
  }
  ghost predicate StatusInM(s: Word, priv: Word, s': Word) {
    forall k: bv5 :: OneBit(s', k) <==>
      if k == 7 then OneBit(s, 3) else if k == 3 then false
      else if k == 11 then priv != PRV_U else if k == 12 then priv == PRV_M else OneBit(s, k)
  }
  lemma StatusOnEntry(s: Word, priv: Word)
    requires LegalPriv(priv)
    ensures StatusInS(s, priv, EnterS(s, priv)) && StatusInM(s, priv, EnterM(s, priv))
  {
    hide OneBit, EnterS, EnterM, LegalPriv;
    forall k: bv5 ensures OneBit(EnterS(s, priv), k) <==>
      if k == 5 then OneBit(s, 1) else if k == 1 then false else if k == 8 then priv == PRV_S else OneBit(s, k) { EnterSBits(s, priv, k); }
    forall k: bv5 ensures OneBit(EnterM(s, priv), k) <==>
      if k == 7 then OneBit(s, 3) else if k == 3 then false
      else if k == 11 then priv != PRV_U else if k == 12 then priv == PRV_M else OneBit(s, k) { EnterMBits(s, priv, k); }
  }

  /** The level a trap goes to, its handler, and what it saves, by the registers before it. */
  ghost predicate TrapRule(c: Core, c': Core, k: bv5, interrupt: bool, tval: Word) {
    if c.priv != PRV_M && OneBit(if interrupt then c.csr.m.mideleg else c.csr.m.medeleg, k) then
      && c'.priv == PRV_S && IsHandler(c.csr.s.stvec, k, interrupt, c'.pc) && StatusInS(c.csr.mstatus, c.priv, c'.csr.mstatus)
      && c'.csr.s.sepc == c.pc && c'.csr.s.scause == Cause(k, interrupt) && c'.csr.s.stval == tval
    else
      && c'.priv == PRV_M && IsHandler(c.csr.m.mtvec, k, interrupt, c'.pc) && StatusInM(c.csr.mstatus, c.priv, c'.csr.mstatus)
      && c'.csr.m.mepc == c.pc && c'.csr.m.mcause == Cause(k, interrupt) && c'.csr.m.mtval == tval
  }
  /** Every trap that a step takes follows that rule. */
  lemma TrapByRegisters(h: Hart, env: Env, k: bv5, interrupt: bool)
    requires HartOk(h) && TrapOf(h, env).Exc? && TrapOf(h, env).cause == Cause(k, interrupt)
    ensures TrapRule(h.core, Step(h, env).core, k, interrupt, TrapOf(h, env).tval)
  {
    hide Step, TrapOf, Delegated, Vector, EnterS, EnterM, IsHandler, Cause, OneBit, MView, TlbOk, CsrsOk, Even, LegalPriv, StatusInS, StatusInM;
    TrapSavesItsInstruction(h, env);
    DelegationRule(h.core.priv, h.core.csr, k, interrupt);
    HandlerRule(h.core.csr.s.stvec, k, interrupt);
    HandlerRule(h.core.csr.m.mtvec, k, interrupt);
    StatusOnEntry(h.core.csr.mstatus, h.core.priv);
  }

  // ---- every cause has a code below 32 ----

  predicate HasCode(cause: Word) { cause & 0x7FFF_FFE0 == 0 }
  function CodeOf(cause: Word): bv5 { (cause & 0x1F) as bv5 }
  lemma CodeIsCause(cause: Word)
    requires HasCode(cause)
    ensures cause == Cause(CodeOf(cause), OneBit(cause, 31))
  {}
  lemma FixedCodes()
    ensures HasCode(CAUSE_MISALIGNED_FETCH) && HasCode(CAUSE_ILLEGAL_INSTR) && HasCode(CAUSE_BREAKPOINT)
    ensures HasCode(CAUSE_MISALIGNED_LOAD) && HasCode(CAUSE_MISALIGNED_STORE)
    ensures HasCode(CAUSE_ECALL_U) && HasCode(CAUSE_ECALL_S) && HasCode(CAUSE_ECALL_M)
    ensures HasCode(CAUSE_FETCH_PAGE_FAULT) && HasCode(CAUSE_LOAD_PAGE_FAULT) && HasCode(CAUSE_STORE_PAGE_FAULT)
  {}
  lemma InterruptCodes(active: Word)
    ensures HasCode(FirstActive(active))
  {
    hide Bit;
  }
  lemma ForecastCodes(h: Hart, d: Decoded, env: Env, a: Word)
    requires Forecast(h, d, env, a).Exc?
    ensures HasCode(Forecast(h, d, env, a).cause)
  {
    hide HasCode, KindOf, TranslateData, MisalignedFor, Sum, CsrRefused, MretAllowed, SretAllowed, SfenceAllowed, Reservation.Check;
    FixedCodes();
  }

  /** Every trap of a step from a reachable state has a code that the rule above covers. */
  lemma TrapsHaveCodes(h: Hart, env: Env)
    requires HartOk(h) && TrapOf(h, env).Exc?
    ensures var cause := TrapOf(h, env).cause; cause == Cause(CodeOf(cause), OneBit(cause, 31))
  {
    hide HartOk, TakesInterrupt, FetchOutcome, Fetched, Execute, Even, HasCode, Forecast, TrapLeaves, Cause, CodeOf, OneBit, Active, FirstActive, Ready, ValueOfRs1;
    FixedCodes();
    if TakesInterrupt(h) {
      InterruptCodes(Active(h.core.priv, h.core.csr));
    } else if FetchOutcome(h, env).result.PageFault? {
      FetchFaultCause(h, env);
    } else {
      TrapStepsArePrecise(h, env);
      ForecastCodes(Ready(h, env), Fetched(h, env), env, ValueOfRs1(h, env));
    }
    assert HasCode(TrapOf(h, env).cause);
    CodeIsCause(TrapOf(h, env).cause);
  }
  lemma FetchFaultCause(h: Hart, env: Env)
    requires FetchOutcome(h, env).result.PageFault?
    ensures FetchOutcome(h, env).result.cause == CAUSE_FETCH_PAGE_FAULT
  {
    hide Translate, FetchMmuActive;
    FaultChangesNothing(h.ram, env.io, h.tlb, env.pick, h.core.csr.s.satp, h.core.pc, FETCH, h.core.priv, h.core.csr.mstatus);
  }

  // ---- who may return, fence and call ----

  lemma ReturnRule(c: Core)
    requires LegalPriv(c.priv)
    ensures MretAllowed(c) <==> c.priv == PRV_M
    ensures SretAllowed(c) <==> c.priv == PRV_M || (c.priv == PRV_S && !OneBit(c.csr.mstatus, 22))
    ensures SfenceAllowed(c) <==> c.priv == PRV_M || (c.priv == PRV_S && !OneBit(c.csr.mstatus, 20))
  {
    BitsOfTraps(c.csr.mstatus);
    hide Bit, OneBit;
  }
  lemma BitsOfTraps(s: Word)
    ensures Bit(s, MSTATUS_TSR) <==> OneBit(s, 22)
    ensures Bit(s, MSTATUS_TVM) <==> OneBit(s, 20)
  {}
  lemma EcallRule(priv: Word)
    requires LegalPriv(priv)
    ensures EcallCause(priv) == if priv == PRV_U then 8 else if priv == PRV_S then 9 else 11
  {}

  lemma SppRule(s: Word)
    ensures SppOf(s) == if OneBit(s, 8) then PRV_S else PRV_U
  {
    BitOfSpp(s);
    hide Bit, OneBit;
  }
  lemma BitOfSpp(s: Word)
    ensures Bit(s, MSTATUS_SPP) <==> OneBit(s, 8)
  {}
  function MppBits(s: Word): Word {
    if OneBit(s, 12) then if OneBit(s, 11) then 3 else 2 else if OneBit(s, 11) then 1 else 0
  }
  lemma MppOfBits(s: Word)
    ensures MppOf(s) == MppBits(s)
  {}
  ghost predicate StatusAfterMret(s: Word, s': Word) {
    forall k: bv5 :: OneBit(s', k) <==>
      if k == 3 then OneBit(s, 7) else if k == 7 then true else if k == 11 || k == 12 then false else OneBit(s, k)
  }
  ghost predicate StatusAfterSret(s: Word, s': Word) {
    forall k: bv5 :: OneBit(s', k) <==>
      if k == 1 then OneBit(s, 5) else if k == 5 then true else if k == 8 then false else OneBit(s, k)
  }
  lemma StatusOnReturn(s: Word)
    ensures StatusAfterMret(s, LeaveM(s)) && StatusAfterSret(s, LeaveS(s))
  {
    hide OneBit, LeaveM, LeaveS;
    forall k: bv5 ensures OneBit(LeaveM(s), k) <==>
      if k == 3 then OneBit(s, 7) else if k == 7 then true else if k == 11 || k == 12 then false else OneBit(s, k) { LeaveMBits(s, k); }
    forall k: bv5 ensures OneBit(LeaveS(s), k) <==>
      if k == 1 then OneBit(s, 5) else if k == 5 then true else if k == 8 then false else OneBit(s, k) { LeaveSBits(s, k); }
  }

  // ---- the system instructions ----

  predicate IsSystem(op: InstrType) {
    || op.ECALL? || op.EBREAK? || op.MRET? || op.SRET? || op.URET? || op.WFI? || op.SFENCE_VMA?
    || op.FENCE? || op.FENCEI? || op.ILLEGAL?
  }
  /** The trap of a system instruction, by privilege and status. */
  function SystemTrap(c: Core, d: Decoded): Exc {
    if d.op.ECALL? then Exc(if c.priv == PRV_U then 8 else if c.priv == PRV_S then 9 else 11, 0)
    else if d.op.EBREAK? then Exc(3, c.pc)
    else if d.op.URET? || d.op.ILLEGAL? then Exc(2, d.raw)
    else if d.op.MRET? && c.priv != PRV_M then Exc(2, d.raw)
    else if d.op.SRET? && !(c.priv == PRV_M || (c.priv == PRV_S && !OneBit(c.csr.mstatus, 22))) then Exc(2, d.raw)
    else if d.op.SFENCE_VMA? && !(c.priv == PRV_M || (c.priv == PRV_S && !OneBit(c.csr.mstatus, 20))) then Exc(2, d.raw)
    else NoExc
  }
  /** The core after a system instruction that does not trap: only the returns change it. */
  ghost predicate SystemCore(c: Core, op: InstrType, c': Core) {
    if op.MRET? then
      && c' == c.(nextPc := c.csr.m.mepc, priv := MppBits(c.csr.mstatus), csr := c.csr.(mstatus := c'.csr.mstatus))
      && StatusAfterMret(c.csr.mstatus, c'.csr.mstatus)
    else if op.SRET? then
      && c' == c.(nextPc := c.csr.s.sepc, priv := if OneBit(c.csr.mstatus, 8) then PRV_S else PRV_U, csr := c.csr.(mstatus := c'.csr.mstatus))
      && StatusAfterSret(c.csr.mstatus, c'.csr.mstatus)
    else c' == c
  }

  lemma CallAndReturnKinds(op: InstrType)
    ensures op.ECALL? <==> KindOf(op).KEcall?
    ensures op.EBREAK? <==> KindOf(op).KEbreak?
    ensures op.MRET? <==> KindOf(op).KMret?
    ensures op.SRET? <==> KindOf(op).KSret?
  {}
  lemma OtherSystemKinds(op: InstrType)
    ensures op.SFENCE_VMA? <==> KindOf(op).KSfence?
    ensures op.WFI? || op.FENCE? || op.FENCEI? <==> KindOf(op).KNop?
    ensures op.URET? || op.ILLEGAL? <==> KindOf(op).KIllegal?
  {}
  lemma SystemKinds(op: InstrType)
    ensures op.ECALL? <==> KindOf(op).KEcall?
    ensures op.EBREAK? <==> KindOf(op).KEbreak?
    ensures op.MRET? <==> KindOf(op).KMret?
    ensures op.SRET? <==> KindOf(op).KSret?
    ensures op.SFENCE_VMA? <==> KindOf(op).KSfence?
    ensures op.WFI? || op.FENCE? || op.FENCEI? <==> KindOf(op).KNop?
    ensures op.URET? || op.ILLEGAL? <==> KindOf(op).KIllegal?
  {
    hide KindOf;
    CallAndReturnKinds(op);
    OtherSystemKinds(op);
  }
  lemma ReturnOutcome(h: Hart, d: Decoded)
    requires LegalPriv(h.core.priv) && (d.op.MRET? || d.op.SRET?)
    ensures var x := ExecReturn(h, d);
      && TrapOfExec(x) == SystemTrap(h.core, d) && !x.sfence
      && (TrapOfExec(x).NoExc? ==> SystemCore(h.core, d.op, x.h.core) && x.h == h.(core := x.h.core))
  {
    hide LegalPriv, KindOf, MretAllowed, SretAllowed, LeaveM, LeaveS, MppOf, SppOf, OneBit, StatusAfterMret, StatusAfterSret, MppBits;
    SystemKinds(d.op);
    ReturnRule(h.core);
    MppOfBits(h.core.csr.mstatus);
    SppRule(h.core.csr.mstatus);
    StatusOnReturn(h.core.csr.mstatus);
  }
  lemma SystemOutcome(h: Hart, d: Decoded)
    requires LegalPriv(h.core.priv) && IsSystem(d.op) && !d.op.MRET? && !d.op.SRET?
    ensures var x := ExecSystem(h, d);
      TrapOfExec(x) == SystemTrap(h.core, d) && x.h == h && x.sfence == (d.op.SFENCE_VMA? && TrapOfExec(x).NoExc?)
  {
    hide LegalPriv, KindOf, SfenceAllowed, EcallCause, OneBit;
    SystemKinds(d.op);
    ReturnRule(h.core);
    EcallRule(h.core.priv);
  }
  lemma ExecuteSystem(h: Hart, d: Decoded, env: Env)
    requires IsSystem(d.op)
    ensures Execute(h, d, env) == if d.op.MRET? || d.op.SRET? then ExecReturn(Sequential(h, d), d) else ExecSystem(Sequential(h, d), d)
  {
    hide KindOf, Sum, Decoded.Len, GetReg, ExecMemory, ExecCsr, ExecJump, ExecReturn, ExecSystem, AluResult;
    SystemKinds(d.op);
  }

  /** The system instructions: which trap and how, what the returns restore, and that only an SFENCE.VMA
      that is allowed asks for a flush. */
  lemma SystemInstruction(h: Hart, d: Decoded, env: Env)
    requires LegalPriv(h.core.priv) && IsSystem(d.op)
    ensures var x, h1 := Execute(h, d, env), Sequential(h, d);
      && TrapOfExec(x) == SystemTrap(h1.core, d)
      && x.sfence == (d.op.SFENCE_VMA? && TrapOfExec(x).NoExc?)
      && (TrapOfExec(x).NoExc? ==> SystemCore(h1.core, d.op, x.h.core) && x.h == h1.(core := x.h.core))
  {
    hide LegalPriv, IsSystem, Execute, ExecReturn, ExecSystem, SystemTrap, SystemCore, Sum, Decoded.Len;
    var h1 := Sequential(h, d);
    ExecuteSystem(h, d, env);
    if d.op.MRET? || d.op.SRET? {
      ReturnOutcome(h1, d);
    } else {
      SystemOutcome(h1, d);
      OthersKeepCore(h1.core, d.op);
    }
  }
  lemma OthersKeepCore(c: Core, op: InstrType)
    requires !op.MRET? && !op.SRET?
    ensures SystemCore(c, op, c)
  {}
}
