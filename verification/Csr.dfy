/** Control and status registers (src/cpu/csr.h, src/cpu/csr.cpp): the register file as a value,
    its WARL write rules and the supervisor views. */
module Csr {
  import opened Rv32

  /** Machine registers with no rule of their own. */
  datatype Machine = Machine(
    misa: Word, medeleg: Word, mideleg: Word, mtvec: Word, mcounteren: Word,
    mscratch: Word, mepc: Word, mcause: Word, mtval: Word)

  /** Supervisor registers that are not views of machine ones. */
  datatype Supervisor = Supervisor(
    stvec: Word, scounteren: Word, sscratch: Word, sepc: Word, scause: Word, stval: Word, satp: Word)

  datatype Counters = Counters(mcycle: Word, mcycleh: Word, minstret: Word, minstreth: Word)

  /** The registers of CSRFile. mip is split as in the source: hwMip is driven by devices, swMip
      by software. */
  datatype Csrs = Csrs(
    mstatus: Word, mie: Word, m: Machine, s: Supervisor, n: Counters, hwMip: Word, swMip: Word)
  {
    function Mip(): Word { JoinMip(swMip, hwMip) }
  }

  /** get_mip. */
  function JoinMip(sw: Word, hw: Word): Word { sw | hw }

  /** MISA_VALUE: RV32, extensions A C I M S U. */
  const MISA_VALUE: Word := 0x4014_1105

  const RESET: Csrs := Csrs(
    0, 0, Machine(MISA_VALUE, 0, 0, 0, 0, 0, 0, 0, 0), Supervisor(0, 0, 0, 0, 0, 0, 0), Counters(0, 0, 0, 0), 0, 0)

  datatype CsrName =
    | Mvendorid | Marchid | Mimpid | Mhartid
    | Mstatus | Misa | Medeleg | Mideleg | Mie | Mtvec | Mcounteren
    | Mscratch | Mepc | Mcause | Mtval | Mip
    | Mcycle | Mcycleh | Minstret | Minstreth
    | Cycle | Cycleh | Instret | Instreth | Time | Timeh
    | Sstatus | Sie | Stvec | Scounteren | Sscratch | Sepc | Scause | Stval | Sip | Satp
    | NoCsr

  /** The register at a CSR address; NoCsr is the default case of both switches. */
  function Named(addr: Word): CsrName {
    if addr == 0xF11 then Mvendorid else if addr == 0xF12 then Marchid
    else if addr == 0xF13 then Mimpid else if addr == 0xF14 then Mhartid
    else if addr == 0x300 then Mstatus else if addr == 0x301 then Misa
    else if addr == 0x302 then Medeleg else if addr == 0x303 then Mideleg
    else if addr == 0x304 then Mie else if addr == 0x305 then Mtvec else if addr == 0x306 then Mcounteren
    else if addr == 0x340 then Mscratch else if addr == 0x341 then Mepc
    else if addr == 0x342 then Mcause else if addr == 0x343 then Mtval else if addr == 0x344 then Mip
    else if addr == 0xB00 then Mcycle else if addr == 0xB80 then Mcycleh
    else if addr == 0xB02 then Minstret else if addr == 0xB82 then Minstreth
    else if addr == 0xC00 then Cycle else if addr == 0xC80 then Cycleh
    else if addr == 0xC02 then Instret else if addr == 0xC82 then Instreth
    else if addr == 0xC01 then Time else if addr == 0xC81 then Timeh
    else if addr == 0x100 then Sstatus else if addr == 0x104 then Sie
    else if addr == 0x105 then Stvec else if addr == 0x106 then Scounteren
    else if addr == 0x140 then Sscratch else if addr == 0x141 then Sepc
    else if addr == 0x142 then Scause else if addr == 0x143 then Stval
    else if addr == 0x144 then Sip else if addr == 0x180 then Satp
    else NoCsr
  }

  /** priv_ok: bits 9:8 of the address are the lowest privilege that may use it. */
  predicate PrivOk(addr: Word, priv: Word) { priv >= (addr >> 8) & 3 }
  /** is_read_only: bits 11:10 all ones. */
  predicate ReadOnly(addr: Word) { (addr >> 10) & 3 == 3 }

  datatype Value = Refused | Value(v: Word)

  // The supervisor views.
  function ShowStatus(s: Word): Word { s & SSTATUS_MASK }
  function ShowInts(x: Word): Word { x & S_INT_MASK }

  // The switch of CSRFile::read, by the storage behind the names.
  predicate IsShared(n: CsrName) { n.Mstatus? || n.Sstatus? || n.Mie? || n.Sie? || n.Mip? || n.Sip? }
  function SharedValue(c: Csrs, n: CsrName): Word {
    if n.Mstatus? then c.mstatus else if n.Sstatus? then ShowStatus(c.mstatus)
    else if n.Mie? then c.mie else if n.Sie? then ShowInts(c.mie)
    else if n.Mip? then c.Mip() else ShowInts(c.Mip())
  }
  predicate IsMachineOwn(n: CsrName) {
    n.Misa? || n.Medeleg? || n.Mideleg? || n.Mtvec? || n.Mcounteren? || n.Mscratch? || n.Mepc? || n.Mcause? || n.Mtval?
  }
  function MachineValue(m: Machine, n: CsrName): Word {
    if n.Misa? then m.misa else if n.Medeleg? then m.medeleg else if n.Mideleg? then m.mideleg
    else if n.Mtvec? then m.mtvec else if n.Mcounteren? then m.mcounteren else if n.Mscratch? then m.mscratch
    else if n.Mepc? then m.mepc else if n.Mcause? then m.mcause else m.mtval
  }
  predicate IsSupervisorOwn(n: CsrName) {
    n.Stvec? || n.Scounteren? || n.Sscratch? || n.Sepc? || n.Scause? || n.Stval? || n.Satp?
  }
  function SupervisorValue(s: Supervisor, n: CsrName): Word {
    if n.Stvec? then s.stvec else if n.Scounteren? then s.scounteren else if n.Sscratch? then s.sscratch
    else if n.Sepc? then s.sepc else if n.Scause? then s.scause else if n.Stval? then s.stval else s.satp
  }
  predicate IsCounter(n: CsrName) {
    || n.Mcycle? || n.Mcycleh? || n.Minstret? || n.Minstreth?
    || n.Cycle? || n.Cycleh? || n.Instret? || n.Instreth? || n.Time? || n.Timeh?
  }
  /** The user counters are shadows, and time is an alias of cycle. */
  function CounterValue(k: Counters, n: CsrName): Word {
    if n.Mcycle? || n.Cycle? || n.Time? then k.mcycle
    else if n.Mcycleh? || n.Cycleh? || n.Timeh? then k.mcycleh
    else if n.Minstret? || n.Instret? then k.minstret
    else k.minstreth
  }
  predicate IsConstant(n: CsrName) { n.Mvendorid? || n.Marchid? || n.Mimpid? || n.Mhartid? }

  function ReadNamed(c: Csrs, n: CsrName): Value {
    if IsShared(n) then Value(SharedValue(c, n))
    else if IsMachineOwn(n) then Value(MachineValue(c.m, n))
    else if IsSupervisorOwn(n) then Value(SupervisorValue(c.s, n))
    else if IsCounter(n) then Value(CounterValue(c.n, n))
    else if IsConstant(n) then Value(0)
    else Refused
  }

  /** CSRFile::read. */
  function CsrRead(c: Csrs, addr: Word, priv: Word): Value {
    if PrivOk(addr, priv) then ReadNamed(c, Named(addr)) else Refused
  }

  /** The value mstatus takes: masked, with the reserved MPP encoding 2 replaced by U. */
  function LegalStatus(v: Word): Word {
    var s := v & MSTATUS_WRITE_MASK;
    if (s >> 11) & 3 == 2 then s & 0xFFFF_E7FF else s
  }
  /** A write through the supervisor view. */
  function MergeStatus(mstatus: Word, v: Word): Word { (mstatus & !SSTATUS_MASK) | (v & SSTATUS_MASK) }
  function MergeIe(mie: Word, v: Word): Word { (mie & !S_INT_MASK) | (v & S_INT_MASK) }
  function ClearBit0(v: Word): Word { v & 0xFFFF_FFFE }
  function Ssip(v: Word): Word { v & 2 }

  datatype Written = NotWritten | Written(c: Csrs)

  // What a write leaves in each register, register by register; the program's switch, which goes
  // name by name, is RegisterFile.WriteCsr.

  function SetMachine(m: Machine, n: CsrName, v: Word): Machine {
    Machine(
      m.misa,
      if n.Medeleg? then v else m.medeleg,
      if n.Mideleg? then v else m.mideleg,
      if n.Mtvec? then v else m.mtvec,
      if n.Mcounteren? then v else m.mcounteren,
      if n.Mscratch? then v else m.mscratch,
      if n.Mepc? then ClearBit0(v) else m.mepc,
      if n.Mcause? then v else m.mcause,
      if n.Mtval? then v else m.mtval)
  }
  function SetSupervisor(s: Supervisor, n: CsrName, v: Word): Supervisor {
    Supervisor(
      if n.Stvec? then v else s.stvec,
      if n.Scounteren? then v else s.scounteren,
      if n.Sscratch? then v else s.sscratch,
      if n.Sepc? then ClearBit0(v) else s.sepc,
      if n.Scause? then v else s.scause,
      if n.Stval? then v else s.stval,
      if n.Satp? then v else s.satp)
  }
  function SetCounters(k: Counters, n: CsrName, v: Word): Counters {
    Counters(
      if n.Mcycle? then v else k.mcycle,
      if n.Mcycleh? then v else k.mcycleh,
      if n.Minstret? then v else k.minstret,
      if n.Minstreth? then v else k.minstreth)
  }
  function SetStatus(s: Word, n: CsrName, v: Word): Word {
    if n.Mstatus? then LegalStatus(v) else if n.Sstatus? then MergeStatus(s, v) else s
  }
  function SetIe(x: Word, n: CsrName, v: Word): Word {
    if n.Mie? then v else if n.Sie? then MergeIe(x, v) else x
  }
  function SetSwMip(x: Word, n: CsrName, v: Word): Word { if n.Mip? || n.Sip? then Ssip(v) else x }

  /** The names that CSRFile::write has no case for. */
  predicate NoWriteCase(n: CsrName) {
    || n.Mvendorid? || n.Marchid? || n.Mimpid? || n.Mhartid? || n.NoCsr?
    || n.Cycle? || n.Cycleh? || n.Instret? || n.Instreth? || n.Time? || n.Timeh?
  }

  function WriteNamed(c: Csrs, n: CsrName, v: Word): Written {
    if NoWriteCase(n) then NotWritten
    else Written(Csrs(
      SetStatus(c.mstatus, n, v), SetIe(c.mie, n, v), SetMachine(c.m, n, v), SetSupervisor(c.s, n, v),
      SetCounters(c.n, n, v), c.hwMip, SetSwMip(c.swMip, n, v)))
  }

  /** CSRFile::write. A write to satp also fires the callback that flushes the TLB. */
  function CsrWrite(c: Csrs, addr: Word, priv: Word, v: Word): Written {
    if !PrivOk(addr, priv) || ReadOnly(addr) then NotWritten else WriteNamed(c, Named(addr), v)
  }

  predicate Flushes(addr: Word) { Named(addr).Satp? }

  /** inc_mcycle then inc_minstret, each with a carry into its high half. */
  function Tick(c: Csrs): Csrs {
    var n := c.n;
    c.(n := Counters(
         n.mcycle + 1, if n.mcycle + 1 == 0 then n.mcycleh + 1 else n.mcycleh,
         n.minstret + 1, if n.minstret + 1 == 0 then n.minstreth + 1 else n.minstreth))
  }

  // ---- what the rules guarantee ----

  predicate InMask(s: Word) { s & !MSTATUS_WRITE_MASK == 0 }
  predicate MppLegal(s: Word) { (s >> 11) & 3 != 2 }
  /** mstatus holds only writable bits and a privilege level in MPP. */
  predicate StatusOk(s: Word) { InMask(s) && MppLegal(s) }
  predicate Even(x: Word) { x & 1 == 0 }

  lemma LegalStatusInMask(v: Word)
    ensures InMask(LegalStatus(v))
  {}
  lemma LegalStatusMpp(v: Word)
    ensures MppLegal(LegalStatus(v))
  {}
  lemma MergeInMask(s: Word, v: Word)
    requires InMask(s)
    ensures InMask(MergeStatus(s, v))
  {}
  lemma MergeMpp(s: Word, v: Word)
    requires MppLegal(s)
    ensures MppLegal(MergeStatus(s, v))
  {}
  lemma ClearBit0IsEven(v: Word)
    ensures Even(ClearBit0(v))
  {}
  lemma ClearBit0OfEven(v: Word)
    requires Even(v)
    ensures ClearBit0(v) == v
  {}
  /** A legal status survives being written back. */
  lemma LegalStatusIdempotent(s: Word)
    requires StatusOk(s)
    ensures LegalStatus(s) == s
  {
    assert s & MSTATUS_WRITE_MASK == s;
  }

  /** The state of the register file that every write keeps. */
  predicate CsrsOk(c: Csrs) {
    StatusOk(c.mstatus) && Even(c.m.mepc) && Even(c.s.sepc)
  }

  lemma StatusStaysOk(s: Word, n: CsrName, v: Word)
    requires StatusOk(s)
    ensures StatusOk(SetStatus(s, n, v))
  {
    hide LegalStatus, MergeStatus, InMask, MppLegal;
    LegalStatusInMask(v);
    LegalStatusMpp(v);
    MergeInMask(s, v);
    MergeMpp(s, v);
  }
  lemma MepcStaysEven(m: Machine, n: CsrName, v: Word)
    requires Even(m.mepc)
    ensures Even(SetMachine(m, n, v).mepc)
  {
    hide ClearBit0, Even;
    ClearBit0IsEven(v);
  }
  lemma SepcStaysEven(s: Supervisor, n: CsrName, v: Word)
    requires Even(s.sepc)
    ensures Even(SetSupervisor(s, n, v).sepc)
  {
    hide ClearBit0, Even;
    ClearBit0IsEven(v);
  }

  lemma WriteKeepsOk(c: Csrs, addr: Word, priv: Word, v: Word)
    requires CsrsOk(c)
    ensures CsrWrite(c, addr, priv, v).Written? ==> CsrsOk(CsrWrite(c, addr, priv, v).c)
  {
    hide Named, PrivOk, ReadOnly, NoWriteCase, StatusOk, Even, SetStatus, SetIe, SetMachine, SetSupervisor, SetCounters, SetSwMip;
    StatusStaysOk(c.mstatus, Named(addr), v);
    MepcStaysEven(c.m, Named(addr), v);
    SepcStaysEven(c.s, Named(addr), v);
  }

  // ---- what a write below M-mode cannot reach ----

  /** The M-level state: every machine register, and the bits of mstatus and mie that the
      supervisor views hide. The counters and the pending bits are not part of it. */
  datatype MState = MState(status: Word, ie: Word, m: Machine)

  function HiddenStatus(s: Word): Word { s & !SSTATUS_MASK }
  function HiddenIe(x: Word): Word { x & !S_INT_MASK }

  function MView(c: Csrs): MState {
    MState(HiddenStatus(c.mstatus), HiddenIe(c.mie), c.m)
  }

  predicate IsMachineName(n: CsrName) { n.Mstatus? || n.Mie? || IsMachineOwn(n) }

  /** Machine registers live at addresses whose privilege field is 3. */
  lemma MachineNamesAreGuarded(addr: Word, priv: Word)
    requires IsMachineName(Named(addr)) && PrivOk(addr, priv)
    ensures priv >= PRV_M
  {
    assert Named(addr).Mstatus? ==> addr == 0x300;
  }

  lemma MergeHidesStatus(s: Word, v: Word)
    ensures HiddenStatus(MergeStatus(s, v)) == HiddenStatus(s)
  {}
  lemma MergeHidesIe(x: Word, v: Word)
    ensures HiddenIe(MergeIe(x, v)) == HiddenIe(x)
  {}

  lemma WriteKeepsHiddenStatus(s: Word, n: CsrName, v: Word)
    requires !IsMachineName(n)
    ensures HiddenStatus(SetStatus(s, n, v)) == HiddenStatus(s)
  {
    hide LegalStatus, MergeStatus, HiddenStatus;
    MergeHidesStatus(s, v);
  }
  lemma WriteKeepsHiddenIe(x: Word, n: CsrName, v: Word)
    requires !IsMachineName(n)
    ensures HiddenIe(SetIe(x, n, v)) == HiddenIe(x)
  {
    hide MergeIe, HiddenIe;
    MergeHidesIe(x, v);
  }
  lemma WriteKeepsMachine(m: Machine, n: CsrName, v: Word)
    requires !IsMachineName(n)
    ensures SetMachine(m, n, v) == m
  {
    hide ClearBit0;
  }
  lemma WriteKeepsHwMip(c: Csrs, n: CsrName, v: Word)
    ensures WriteNamed(c, n, v).Written? ==> WriteNamed(c, n, v).c.hwMip == c.hwMip
  {
    hide SetStatus, SetIe, SetMachine, SetSupervisor, SetCounters, SetSwMip, NoWriteCase;
  }

  /** Software owns SSIP and nothing else of mip. */
  predicate OnlySsip(x: Word) { x & 0xFFFF_FFFD == 0 }

  lemma SsipIsOnlySsip(v: Word)
    ensures OnlySsip(Ssip(v))
  {}
  lemma WriteKeepsOnlySsip(c: Csrs, n: CsrName, v: Word)
    requires OnlySsip(c.swMip)
    ensures WriteNamed(c, n, v).Written? ==> OnlySsip(WriteNamed(c, n, v).c.swMip)
  {
    hide SetStatus, SetIe, SetMachine, SetSupervisor, SetCounters, NoWriteCase, Ssip, OnlySsip;
    SsipIsOnlySsip(v);
  }

  /** Below M-mode no CSR write, through any address, changes the M-level state. */
  lemma WriteBelowMKeepsMView(c: Csrs, addr: Word, priv: Word, v: Word)
    requires priv < PRV_M && CsrWrite(c, addr, priv, v).Written?
    ensures MView(CsrWrite(c, addr, priv, v).c) == MView(c)
  {
    hide Named, PrivOk, ReadOnly, NoWriteCase, HiddenStatus, HiddenIe, IsMachineName, SetStatus, SetIe, SetMachine, SetSupervisor, SetCounters, SetSwMip;
    if IsMachineName(Named(addr)) { MachineNamesAreGuarded(addr, priv); }
    WriteKeepsHiddenStatus(c.mstatus, Named(addr), v);
    WriteKeepsHiddenIe(c.mie, Named(addr), v);
    WriteKeepsMachine(c.m, Named(addr), v);
  }

  // ---- what is read back ----

  /** The value a register shows after v is written to it: the WARL rule of each register. */
  function ReadBack(c: Csrs, n: CsrName, v: Word): Word {
    if n.Mstatus? then LegalStatus(v)
    else if n.Misa? then c.m.misa
    else if n.Mepc? || n.Sepc? then ClearBit0(v)
    else if n.Mip? then JoinMip(Ssip(v), c.hwMip)
    else if n.Sip? then ShowInts(JoinMip(Ssip(v), c.hwMip))
    else if n.Sstatus? then ShowStatus(v)
    else if n.Sie? then ShowInts(v)
    else v
  }

  lemma MergeShowsStatus(s: Word, v: Word)
    ensures ShowStatus(MergeStatus(s, v)) == ShowStatus(v)
  {}
  lemma MergeShowsInts(x: Word, v: Word)
    ensures ShowInts(MergeIe(x, v)) == ShowInts(v)
  {}

  lemma SharedReadsBack(c: Csrs, n: CsrName, v: Word)
    requires IsShared(n)
    ensures SharedValue(WriteNamed(c, n, v).c, n) == ReadBack(c, n, v)
  {
    hide LegalStatus, MergeStatus, MergeIe, Ssip, JoinMip, ShowStatus, ShowInts, SetMachine, SetSupervisor, SetCounters;
    MergeShowsStatus(c.mstatus, v);
    MergeShowsInts(c.mie, v);
  }
  lemma MachineReadsBack(m: Machine, n: CsrName, v: Word)
    requires IsMachineOwn(n)
    ensures MachineValue(SetMachine(m, n, v), n) == if n.Misa? then m.misa else if n.Mepc? then ClearBit0(v) else v
  {
    hide ClearBit0;
  }
  lemma SupervisorReadsBack(s: Supervisor, n: CsrName, v: Word)
    requires IsSupervisorOwn(n)
    ensures SupervisorValue(SetSupervisor(s, n, v), n) == if n.Sepc? then ClearBit0(v) else v
  {
    hide ClearBit0;
  }
  lemma CounterReadsBack(k: Counters, n: CsrName, v: Word)
    requires n.Mcycle? || n.Mcycleh? || n.Minstret? || n.Minstreth?
    ensures CounterValue(SetCounters(k, n, v), n) == v
  {}
  lemma ReadBackOfMachine(c: Csrs, n: CsrName, v: Word)
    requires IsMachineOwn(n)
    ensures ReadBack(c, n, v) == if n.Misa? then c.m.misa else if n.Mepc? then ClearBit0(v) else v
  {
    hide LegalStatus, ClearBit0, Ssip, JoinMip, ShowStatus, ShowInts;
  }
  lemma ReadBackOfSupervisor(c: Csrs, n: CsrName, v: Word)
    requires IsSupervisorOwn(n)
    ensures ReadBack(c, n, v) == if n.Sepc? then ClearBit0(v) else v
  {
    hide LegalStatus, ClearBit0, Ssip, JoinMip, ShowStatus, ShowInts;
  }
  lemma ReadBackOfCounter(c: Csrs, n: CsrName, v: Word)
    requires IsCounter(n)
    ensures ReadBack(c, n, v) == v
  {
    hide LegalStatus, ClearBit0, Ssip, JoinMip, ShowStatus, ShowInts;
  }
  lemma NamedReadsBack(c: Csrs, n: CsrName, v: Word)
    requires !NoWriteCase(n)
    ensures ReadNamed(WriteNamed(c, n, v).c, n) == Value(ReadBack(c, n, v))
  {
    hide SharedValue, MachineValue, SupervisorValue, CounterValue, ReadBack, SetStatus, SetIe, SetSwMip, SetMachine, SetSupervisor, SetCounters, ClearBit0;
    if IsShared(n) {
      SharedReadsBack(c, n, v);
    } else if IsMachineOwn(n) {
      ReadBackOfMachine(c, n, v);
      MachineReadsBack(c.m, n, v);
    } else if IsSupervisorOwn(n) {
      ReadBackOfSupervisor(c, n, v);
      SupervisorReadsBack(c.s, n, v);
    } else {
      ReadBackOfCounter(c, n, v);
      CounterReadsBack(c.n, n, v);
    }
  }

  /** Every accepted write is read back, at the same address and privilege, as its rule says. */
  lemma WritesReadBack(c: Csrs, addr: Word, priv: Word, v: Word)
    requires CsrWrite(c, addr, priv, v).Written?
    ensures CsrRead(CsrWrite(c, addr, priv, v).c, addr, priv) == Value(ReadBack(c, Named(addr), v))
  {
    hide Named, PrivOk, ReadOnly, ReadNamed, ReadBack, SetStatus, SetIe, SetSwMip, SetMachine, SetSupervisor, SetCounters;
    if !NoWriteCase(Named(addr)) { NamedReadsBack(c, Named(addr), v); }
  }

  // ---- the user counters are not gated ----

  predicate IsUserCounter(addr: Word) {
    addr == 0xC00 || addr == 0xC80 || addr == 0xC01 || addr == 0xC81 || addr == 0xC02 || addr == 0xC82
  }
  /** What each of the six shows; time is an alias of cycle. */
  function CounterShown(c: Csrs, addr: Word): Word {
    if addr == 0xC00 || addr == 0xC01 then c.n.mcycle
    else if addr == 0xC80 || addr == 0xC81 then c.n.mcycleh
    else if addr == 0xC02 then c.n.minstret
    else c.n.minstreth
  }
  /** CY, TM or IR: the bit of mcounteren and scounteren that stands for the counter. */
  function EnableBit(addr: Word): Word {
    if addr == 0xC00 || addr == 0xC80 then 1 else if addr == 0xC01 || addr == 0xC81 then 2 else 4
  }

  /** Open for M always, for S by mcounteren, for U by mcounteren and scounteren: sections 3.1.10 and
      4.1.4 of the RISC-V Privileged Architecture. */
  predicate GateOpen(priv: Word, mcounteren: Word, scounteren: Word, bit: Word) {
    (priv < PRV_M ==> Bit(mcounteren, bit)) && (priv < PRV_S ==> Bit(scounteren, bit))
  }
  /** A counter read as the architecture gates it. */
  function GatedRead(c: Csrs, addr: Word, priv: Word): Value
    requires IsUserCounter(addr)
  {
    if GateOpen(priv, c.m.mcounteren, c.s.scounteren, EnableBit(addr)) then Value(CounterShown(c, addr)) else Refused
  }

  lemma CounterNames(addr: Word)
    requires IsUserCounter(addr)
    ensures Named(addr) == (if addr == 0xC00 then Cycle else if addr == 0xC80 then Cycleh
      else if addr == 0xC01 then Time else if addr == 0xC81 then Timeh else if addr == 0xC02 then Instret else Instreth)
  {}
  lemma CountersAreForAll(addr: Word, priv: Word)
    requires IsUserCounter(addr)
    ensures PrivOk(addr, priv)
  {}

  /** All six counters can be read at every privilege, whatever the counteren registers hold. */
  lemma CountersAlwaysRead(c: Csrs, addr: Word, priv: Word)
    requires IsUserCounter(addr)
    ensures CsrRead(c, addr, priv) == Value(CounterShown(c, addr))
  {
    hide Named, PrivOk;
    CounterNames(addr);
    CountersAreForAll(addr, priv);
  }

  /** Reads agree with the gated rule exactly where the gate is open. */
  lemma CountersAgreeWithGate(c: Csrs, addr: Word, priv: Word)
    requires IsUserCounter(addr)
    ensures CsrRead(c, addr, priv) == GatedRead(c, addr, priv)
      <==> GateOpen(priv, c.m.mcounteren, c.s.scounteren, EnableBit(addr))
  {
    hide CsrRead, GateOpen, CounterShown, EnableBit;
    CountersAlwaysRead(c, addr, priv);
  }

  /** After reset both counteren registers are 0, the gate is shut for U-mode, and cycle still reads. */
  lemma CycleIsNotGated()
    ensures RESET.m.mcounteren == 0 && RESET.s.scounteren == 0
    ensures CsrRead(RESET, 0xC00, PRV_U) == Value(0) && GatedRead(RESET, 0xC00, PRV_U) == Refused
  {
    hide CsrRead;
    CountersAlwaysRead(RESET, 0xC00, PRV_U);
  }
}
