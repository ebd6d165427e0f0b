/** Interrupt selection, trap entry and trap return (src/cpu/trap.cpp, and the MRET and SRET
    cases of src/cpu/execute.cpp:258-284). */
module Trap {
  import opened Rv32
  import opened Csr

  /** The part of CPUState that traps read and change. */
  datatype Core = Core(pc: Word, nextPc: Word, priv: Word, csr: Csrs)

  // ---- interrupt selection ----

  predicate MEnabled(priv: Word, mstatus: Word) { priv < PRV_M || (priv == PRV_M && Bit(mstatus, MSTATUS_MIE)) }
  predicate SEnabled(priv: Word, mstatus: Word) {
    priv != PRV_M && (priv < PRV_S || (priv == PRV_S && Bit(mstatus, MSTATUS_SIE)))
  }

  // The three mask operations of check_pending_interrupts, named so that proofs can keep them folded.
  function Both(x: Word, y: Word): Word { x & y }
  function Without(x: Word, y: Word): Word { x & !y }
  function Either(x: Word, y: Word): Word { x | y }
  function Gate(on: bool, x: Word): Word { if on then x else 0 }

  /** The interrupts that may be taken now. */
  function Active(priv: Word, c: Csrs): Word {
    var pending := Both(c.Mip(), c.mie);
    Either(Gate(MEnabled(priv, c.mstatus), Without(pending, c.m.mideleg)),
           Gate(SEnabled(priv, c.mstatus), Both(pending, c.m.mideleg)))
  }

  /** The scan of the priority list 11, 3, 7, 9, 1, 5; 0 when none of the six is active. */
  function FirstActive(active: Word): Word {
    if Bit(active, 0x800) then INT_BIT | 11
    else if Bit(active, 0x8) then INT_BIT | 3
    else if Bit(active, 0x80) then INT_BIT | 7
    else if Bit(active, 0x200) then INT_BIT | 9
    else if Bit(active, 0x2) then INT_BIT | 1
    else if Bit(active, 0x20) then INT_BIT | 5
    else 0
  }

  /** check_pending_interrupts. Its two early returns give 0, as FirstActive does on 0. */
  function PendingInterrupt(priv: Word, c: Csrs): Word { FirstActive(Active(priv, c)) }

  // ---- trap entry ----

  predicate IsInterrupt(cause: Word) { Bit(cause, INT_BIT) }
  function CauseCode(cause: Word): Word { cause & 0x7FFF_FFFF }

  /** (deleg >> code) & 1; a shift by 32 or more is not reachable and reads as not delegated. */
  predicate DelegBit(deleg: Word, code: Word) { code < 32 && Bit(deleg >> (code & 0x1F), 1) }

  predicate Delegated(priv: Word, c: Csrs, cause: Word) {
    priv <= PRV_S && DelegBit(if IsInterrupt(cause) then c.m.mideleg else c.m.medeleg, CauseCode(cause))
  }

  // The status updates of take_trap, one field each.
  function SaveSie(s: Word): Word { (s & !MSTATUS_SPIE) | (if Bit(s, MSTATUS_SIE) then MSTATUS_SPIE else 0) }
  function MaskSie(s: Word): Word { s & !MSTATUS_SIE }
  function SaveSpp(s: Word, priv: Word): Word { (s & !MSTATUS_SPP) | (if priv == PRV_S then MSTATUS_SPP else 0) }
  function SaveMie(s: Word): Word { (s & !MSTATUS_MPIE) | (if Bit(s, MSTATUS_MIE) then MSTATUS_MPIE else 0) }
  function MaskMie(s: Word): Word { s & !MSTATUS_MIE }
  function SaveMpp(s: Word, priv: Word): Word { (s & !MSTATUS_MPP_MASK) | (priv << 11) }

  /** Status after entering S: SPIE := SIE, SIE := 0, SPP := (priv == S). */
  function EnterS(s: Word, priv: Word): Word { SaveSpp(MaskSie(SaveSie(s)), priv) }
  /** Status after entering M: MPIE := MIE, MIE := 0, MPP := priv. */
  function EnterM(s: Word, priv: Word): Word { SaveMpp(MaskMie(SaveMie(s)), priv) }

  function VectorBase(tvec: Word): Word { tvec & 0xFFFF_FFFC }
  predicate Vectored(tvec: Word) { tvec & 3 == 1 }
  function FourTimes(x: Word): Word { 4 * x }

  /** The handler address: vectored for interrupts when the mode field is 1. */
  function Vector(tvec: Word, cause: Word): Word {
    if Vectored(tvec) && IsInterrupt(cause) then Sum(VectorBase(tvec), FourTimes(CauseCode(cause))) else VectorBase(tvec)
  }

  function TrapToS(c: Core, cause: Word, tval: Word): Core {
    var r := c.csr;
    Core(c.pc, Vector(r.s.stvec, cause), PRV_S,
         r.(mstatus := EnterS(r.mstatus, c.priv),
            s := r.s.(sepc := ClearBit0(c.pc), scause := cause, stval := tval)))
  }
  function TrapToM(c: Core, cause: Word, tval: Word): Core {
    var r := c.csr;
    Core(c.pc, Vector(r.m.mtvec, cause), PRV_M,
         r.(mstatus := EnterM(r.mstatus, c.priv),
            m := r.m.(mepc := ClearBit0(c.pc), mcause := cause, mtval := tval)))
  }

  /** take_trap. */
  function TakeTrap(c: Core, cause: Word, tval: Word): Core {
    if Delegated(c.priv, c.csr, cause) then TrapToS(c, cause, tval) else TrapToM(c, cause, tval)
  }

  // ---- trap return ----

  function MppOf(s: Word): Word { (s >> 11) & 3 }
  function SppOf(s: Word): Word { if Bit(s, MSTATUS_SPP) then PRV_S else PRV_U }

  // The status updates of MRET and SRET, one field each.
  function RestoreMie(s: Word): Word { (s & !MSTATUS_MIE) | (if Bit(s, MSTATUS_MPIE) then MSTATUS_MIE else 0) }
  function SetMpie(s: Word): Word { s | MSTATUS_MPIE }
  function ClearMpp(s: Word): Word { s & !MSTATUS_MPP_MASK }
  function RestoreSie(s: Word): Word { (s & !MSTATUS_SIE) | (if Bit(s, MSTATUS_SPIE) then MSTATUS_SIE else 0) }
  function SetSpie(s: Word): Word { s | MSTATUS_SPIE }
  function ClearSpp(s: Word): Word { s & !MSTATUS_SPP }

  /** MIE := MPIE, MPIE := 1, MPP := U. */
  function LeaveM(s: Word): Word { ClearMpp(SetMpie(RestoreMie(s))) }
  /** SIE := SPIE, SPIE := 1, SPP := U. */
  function LeaveS(s: Word): Word { ClearSpp(SetSpie(RestoreSie(s))) }

  predicate MretAllowed(c: Core) { c.priv >= PRV_M }
  predicate SretAllowed(c: Core) {
    c.priv >= PRV_S && !(Bit(c.csr.mstatus, MSTATUS_TSR) && c.priv == PRV_S)
  }

  function Mret(c: Core): Core {
    Core(c.pc, c.csr.m.mepc, MppOf(c.csr.mstatus), c.csr.(mstatus := LeaveM(c.csr.mstatus)))
  }
  function Sret(c: Core): Core {
    Core(c.pc, c.csr.s.sepc, SppOf(c.csr.mstatus), c.csr.(mstatus := LeaveS(c.csr.mstatus)))
  }

  // ---- invariants ----

  predicate LegalPriv(p: Word) { p == PRV_U || p == PRV_S || p == PRV_M }

  /** Privilege is U, S or M, mstatus is legal, and every address a return can jump to is even. */
  predicate CoreOk(c: Core) { LegalPriv(c.priv) && CsrsOk(c.csr) }

  lemma EnterSInMask(s: Word, priv: Word)
    requires InMask(s)
    ensures InMask(EnterS(s, priv))
  {}
  lemma EnterSMpp(s: Word, priv: Word)
    requires MppLegal(s)
    ensures MppLegal(EnterS(s, priv))
  {}
  lemma EnterMInMask(s: Word, priv: Word)
    requires InMask(s) && LegalPriv(priv)
    ensures InMask(EnterM(s, priv))
  {}
  lemma EnterMMpp(s: Word, priv: Word)
    requires LegalPriv(priv)
    ensures MppOf(EnterM(s, priv)) == priv
  {}
  lemma LeaveMInMask(s: Word)
    requires InMask(s)
    ensures InMask(LeaveM(s))
  {}
  lemma LeaveMMpp(s: Word)
    ensures MppLegal(LeaveM(s))
  {}
  lemma LeaveSInMask(s: Word)
    requires InMask(s)
    ensures InMask(LeaveS(s))
  {}
  lemma LeaveSMpp(s: Word)
    requires MppLegal(s)
    ensures MppLegal(LeaveS(s))
  {}
  lemma MppIsLegalPriv(s: Word)
    requires MppLegal(s)
    ensures LegalPriv(MppOf(s))
  {}
  lemma LegalPrivIsLegalMpp(s: Word)
    requires LegalPriv(MppOf(s))
    ensures MppLegal(s)
  {}
  lemma EvenParts(tvec: Word, x: Word)
    ensures Even(VectorBase(tvec)) && Even(FourTimes(x))
  {}
  lemma EvenSum(x: Word, y: Word)
    requires Even(x) && Even(y)
    ensures Even(Sum(x, y))
  {}
  lemma VectorIsEven(tvec: Word, cause: Word)
    ensures Even(Vector(tvec, cause))
  {
    hide Even, Sum, VectorBase, FourTimes, CauseCode;
    EvenParts(tvec, CauseCode(cause));
    EvenSum(VectorBase(tvec), FourTimes(CauseCode(cause)));
  }

  lemma TrapToSKeepsOk(c: Core, cause: Word, tval: Word)
    requires CoreOk(c)
    ensures CoreOk(TrapToS(c, cause, tval)) && Even(TrapToS(c, cause, tval).nextPc)
  {
    hide EnterS, Vector, InMask, MppLegal, ClearBit0, Even;
    EnterSInMask(c.csr.mstatus, c.priv);
    EnterSMpp(c.csr.mstatus, c.priv);
    VectorIsEven(c.csr.s.stvec, cause);
    ClearBit0IsEven(c.pc);
  }

  lemma TrapToMKeepsOk(c: Core, cause: Word, tval: Word)
    requires CoreOk(c)
    ensures CoreOk(TrapToM(c, cause, tval)) && Even(TrapToM(c, cause, tval).nextPc)
  {
    hide EnterM, Vector, InMask, MppLegal, ClearBit0, Even, MppOf;
    EnterMInMask(c.csr.mstatus, c.priv);
    EnterMMpp(c.csr.mstatus, c.priv);
    LegalPrivIsLegalMpp(EnterM(c.csr.mstatus, c.priv));
    VectorIsEven(c.csr.m.mtvec, cause);
    ClearBit0IsEven(c.pc);
  }

  lemma TakeTrapKeepsOk(c: Core, cause: Word, tval: Word)
    requires CoreOk(c)
    ensures CoreOk(TakeTrap(c, cause, tval)) && Even(TakeTrap(c, cause, tval).nextPc)
  {
    hide TrapToS, TrapToM, Delegated, Even, CoreOk;
    TrapToSKeepsOk(c, cause, tval);
    TrapToMKeepsOk(c, cause, tval);
  }

  lemma MretKeepsOk(c: Core)
    requires CoreOk(c)
    ensures CoreOk(Mret(c)) && Even(Mret(c).nextPc)
  {
    hide LeaveM, MppOf, InMask, MppLegal, Even;
    LeaveMInMask(c.csr.mstatus);
    LeaveMMpp(c.csr.mstatus);
    MppIsLegalPriv(c.csr.mstatus);
  }

  lemma SretKeepsOk(c: Core)
    requires CoreOk(c)
    ensures CoreOk(Sret(c)) && Even(Sret(c).nextPc)
  {
    hide LeaveS, InMask, MppLegal, Even, Bit;
    LeaveSInMask(c.csr.mstatus);
    LeaveSMpp(c.csr.mstatus);
  }
}
