/** Interrupt selection and entry (src/cpu/trap.cpp, src/cpu/iss.cpp:109-114): the scan picks the
    first active interrupt, entry agrees with selection, and entries cannot pile up. */
module Interrupts {
  import opened Rv32
  import opened Phys
  import opened Csr
  import opened Trap
  import opened Hart

  // ---- the scan ----

  /** MEI, MSI, MTI, SEI, SSI, STI: the priority list of check_pending_interrupts. */
  const PRIORITY: seq<Word> := [11, 3, 7, 9, 1, 5]

  predicate Raised(active: Word, line: Word) { Bit(active >> (line & 0x1F), 1) }

  /** Interrupt number k of the list is the first raised one. */
  predicate IsFirst(active: Word, k: nat) {
    k < |PRIORITY| && Raised(active, PRIORITY[k]) && forall j: nat :: j < k ==> !Raised(active, PRIORITY[j])
  }

  lemma RaisedIsBit11(x: Word)
    ensures Raised(x, 11) == Bit(x, 0x800)
  {}
  lemma RaisedIsBit3(x: Word)
    ensures Raised(x, 3) == Bit(x, 0x8)
  {}
  lemma RaisedIsBit7(x: Word)
    ensures Raised(x, 7) == Bit(x, 0x80)
  {}
  lemma RaisedIsBit9(x: Word)
    ensures Raised(x, 9) == Bit(x, 0x200)
  {}
  lemma RaisedIsBit1(x: Word)
    ensures Raised(x, 1) == Bit(x, 0x2)
  {}
  lemma RaisedIsBit5(x: Word)
    ensures Raised(x, 5) == Bit(x, 0x20)
  {}
  lemma RaisedIsBit(x: Word)
    ensures Raised(x, 11) == Bit(x, 0x800) && Raised(x, 3) == Bit(x, 0x8) && Raised(x, 7) == Bit(x, 0x80)
    ensures Raised(x, 9) == Bit(x, 0x200) && Raised(x, 1) == Bit(x, 0x2) && Raised(x, 5) == Bit(x, 0x20)
  {
    hide Raised, Bit;
    RaisedIsBit11(x);
    RaisedIsBit3(x);
    RaisedIsBit7(x);
    RaisedIsBit9(x);
    RaisedIsBit1(x);
    RaisedIsBit5(x);
  }

  /** The selection is 0 exactly when none of the six is active, and the first active one of the
      list otherwise. */
  lemma SelectionIsFirstActive(active: Word)
    ensures FirstActive(active) == 0 <==> forall j: nat :: j < |PRIORITY| ==> !Raised(active, PRIORITY[j])
    ensures forall k: nat :: IsFirst(active, k) ==> FirstActive(active) == INT_BIT | PRIORITY[k]
  {
    hide Raised, Bit;
    RaisedIsBit(active);
    if FirstActive(active) == 0 {
      forall j: nat | j < |PRIORITY| ensures !Raised(active, PRIORITY[j]) {}
    }
    if forall j: nat :: j < |PRIORITY| ==> !Raised(active, PRIORITY[j]) {
      var p := PRIORITY;
      assert !Raised(active, p[0]) && !Raised(active, p[1]) && !Raised(active, p[2]);
      assert !Raised(active, p[3]) && !Raised(active, p[4]) && !Raised(active, p[5]);
    }
    forall k: nat | IsFirst(active, k) ensures FirstActive(active) == INT_BIT | PRIORITY[k] {
      var p := PRIORITY;
      assert k > 0 ==> !Raised(active, p[0]);
      assert k > 1 ==> !Raised(active, p[1]);
      assert k > 2 ==> !Raised(active, p[2]);
      assert k > 3 ==> !Raised(active, p[3]);
      assert k > 4 ==> !Raised(active, p[4]);
    }
  }

  /** check_pending_interrupts, with its early returns and its loop. */
  method CheckPending(c: Core) returns (irq: Word)
    ensures irq == PendingInterrupt(c.priv, c.csr)
  {
    hide Raised, FirstActive, MEnabled, SEnabled, Both, Without, Either, Csrs.Mip;
    var pending := Both(c.csr.Mip(), c.csr.mie);
    if pending == 0 {
      NothingPending(c.priv, c.csr);
      return 0;
    }
    var forM, forS := Without(pending, c.csr.m.mideleg), Both(pending, c.csr.m.mideleg);
    var active := Either(Gate(MEnabled(c.priv, c.csr.mstatus), forM), Gate(SEnabled(c.priv, c.csr.mstatus), forS));
    SelectionIsFirstActive(active);
    if active == 0 {
      NothingActive();
      return 0;
    }
    for i := 0 to |PRIORITY|
      invariant forall j: nat :: j < i ==> !Raised(active, PRIORITY[j])
    {
      if Raised(active, PRIORITY[i]) {
        assert IsFirst(active, i);
        return INT_BIT | PRIORITY[i];
      }
    }
    return 0;
  }

  lemma NothingActive()
    ensures FirstActive(0) == 0
  {}
  lemma EitherOfZeros()
    ensures Either(0, 0) == 0
  {}
  lemma NothingPending(priv: Word, c: Csrs)
    requires Both(c.Mip(), c.mie) == 0
    ensures PendingInterrupt(priv, c) == 0
  {
    hide FirstActive, MEnabled, SEnabled, Csrs.Mip;
    NothingActive();
    EitherOfZeros();
  }

  // ---- entry agrees with selection ----

  predicate Pending(c: Csrs, line: Word) { Raised(Both(c.Mip(), c.mie), line) }
  predicate ToS(c: Csrs, line: Word) { Raised(c.m.mideleg, line) }

  /** An interrupt may be taken through exactly one of two doors. */
  predicate ActiveForM(priv: Word, c: Csrs, line: Word) {
    Pending(c, line) && !ToS(c, line) && MEnabled(priv, c.mstatus)
  }
  predicate ActiveForS(priv: Word, c: Csrs, line: Word) {
    Pending(c, line) && ToS(c, line) && SEnabled(priv, c.mstatus)
  }

  lemma RaisedOfBoth(p: Word, d: Word, line: Word)
    ensures Raised(Both(p, d), line) == (Raised(p, line) && Raised(d, line))
  {}
  lemma RaisedOfNot(d: Word, line: Word)
    ensures Raised(!d, line) == !Raised(d, line)
  {}
  lemma RaisedOfWithout(p: Word, d: Word, line: Word)
    ensures Raised(Without(p, d), line) == (Raised(p, line) && !Raised(d, line))
  {
    hide Raised;
    RaisedOfBoth(p, !d, line);
    RaisedOfNot(d, line);
  }
  lemma LoweredInBoth(x: Word, y: Word, line: Word)
    requires !Raised(x, line) && !Raised(y, line)
    ensures !Raised(Either(x, y), line)
  {}
  lemma RaisedInLeft(x: Word, y: Word, line: Word)
    requires Raised(x, line)
    ensures Raised(Either(x, y), line)
  {}
  lemma RaisedInRight(x: Word, y: Word, line: Word)
    requires Raised(y, line)
    ensures Raised(Either(x, y), line)
  {}
  lemma RaisedOfEither(x: Word, y: Word, line: Word)
    ensures Raised(Either(x, y), line) == (Raised(x, line) || Raised(y, line))
  {
    hide Raised, Either;
    if Raised(x, line) {
      RaisedInLeft(x, y, line);
    } else if Raised(y, line) {
      RaisedInRight(x, y, line);
    } else {
      LoweredInBoth(x, y, line);
    }
  }
  lemma RaisedOfZero(line: Word)
    ensures !Raised(0, line)
  {}

  lemma ActiveLines(priv: Word, c: Csrs, line: Word)
    ensures Raised(Active(priv, c), line) == (ActiveForM(priv, c, line) || ActiveForS(priv, c, line))
  {
    hide Raised, Both, Without, Either, MEnabled, SEnabled, Csrs.Mip;
    var pending := Both(c.Mip(), c.mie);
    var forM, forS := Without(pending, c.m.mideleg), Both(pending, c.m.mideleg);
    RaisedOfEither(Gate(MEnabled(priv, c.mstatus), forM), Gate(SEnabled(priv, c.mstatus), forS), line);
    RaisedOfWithout(pending, c.m.mideleg, line);
    RaisedOfBoth(pending, c.m.mideleg, line);
    RaisedOfZero(line);
  }

  lemma CauseOfLine(line: Word)
    requires line in PRIORITY
    ensures IsInterrupt(INT_BIT | line) && CauseCode(INT_BIT | line) == line && line < 32
  {}

  lemma SEnabledIsBelowM(priv: Word, mstatus: Word)
    requires SEnabled(priv, mstatus)
    ensures priv <= PRV_S
  {
    hide Bit;
  }
  lemma LegalIsBelowOrM(priv: Word)
    requires LegalPriv(priv)
    ensures priv <= PRV_S || priv == PRV_M
  {}

  /** The line the selection picks. */
  lemma ChosenLine(active: Word) returns (k: nat)
    requires FirstActive(active) != 0
    ensures IsFirst(active, k) && FirstActive(active) == INT_BIT | PRIORITY[k]
  {
    hide Raised, FirstActive;
    SelectionIsFirstActive(active);
    k := 0;
    while !Raised(active, PRIORITY[k])
      invariant k < |PRIORITY| && forall j: nat :: j < k ==> !Raised(active, PRIORITY[j])
      invariant exists j: nat :: k <= j < |PRIORITY| && Raised(active, PRIORITY[j])
      decreases |PRIORITY| - k
    {
      k := k + 1;
    }
  }

  /** Selection and entry agree: the interrupt that is selected is pending, enabled and unmasked at
      the level take_trap sends it to, and it goes to S exactly when it was active through
      delegation. */
  lemma EntryAgreesWithSelection(priv: Word, c: Csrs) returns (k: nat)
    requires LegalPriv(priv) && PendingInterrupt(priv, c) != 0
    ensures k < |PRIORITY| && PendingInterrupt(priv, c) == INT_BIT | PRIORITY[k]
    ensures Delegated(priv, c, PendingInterrupt(priv, c)) <==> ActiveForS(priv, c, PRIORITY[k])
    ensures !Delegated(priv, c, PendingInterrupt(priv, c)) <==> ActiveForM(priv, c, PRIORITY[k])
    ensures forall j: nat :: j < k ==> !ActiveForS(priv, c, PRIORITY[j]) && !ActiveForM(priv, c, PRIORITY[j])
  {
    hide Raised, FirstActive, Active, IsInterrupt, CauseCode, MEnabled, SEnabled, LegalPriv;
    k := ChosenLine(Active(priv, c));
    var line := PRIORITY[k];
    ActiveLines(priv, c, line);
    assert line in PRIORITY;
    CauseOfLine(line);
    DelegBitIsRaised(c.m.mideleg, line);
    LegalIsBelowOrM(priv);
    if SEnabled(priv, c.mstatus) { SEnabledIsBelowM(priv, c.mstatus); }
    MMasksS(priv, c.mstatus);
    forall j: nat | j < k ensures !ActiveForS(priv, c, PRIORITY[j]) && !ActiveForM(priv, c, PRIORITY[j]) {
      ActiveLines(priv, c, PRIORITY[j]);
    }
  }

  lemma DelegBitIsRaised(deleg: Word, line: Word)
    requires line < 32
    ensures DelegBit(deleg, line) == Raised(deleg, line)
  {}
  lemma MMasksS(priv: Word, mstatus: Word)
    ensures priv == PRV_M ==> !SEnabled(priv, mstatus)
  {}

  // ---- at most two entries in a row ----

  /** How many interrupts can still be entered before an instruction: none in M with MIE clear, one
      in S with SIE clear, two elsewhere. */
  function Room(c: Core): nat {
    if c.priv == PRV_M && !Bit(c.csr.mstatus, MSTATUS_MIE) then 0
    else if c.priv == PRV_S && !Bit(c.csr.mstatus, MSTATUS_SIE) then 1
    else 2
  }

  lemma NoRoomNoInterrupt(priv: Word, c: Csrs)
    requires priv == PRV_M && !Bit(c.mstatus, MSTATUS_MIE)
    ensures PendingInterrupt(priv, c) == 0
  {
    hide Bit, FirstActive, Both, Without, Csrs.Mip;
    NothingActive();
    EitherOfZeros();
  }

  lemma EnterMClearsMie(s: Word, priv: Word)
    ensures !Bit(EnterM(s, priv), MSTATUS_MIE) || !LegalPriv(priv)
  {}
  lemma EnterSClearsSie(s: Word, priv: Word)
    ensures !Bit(EnterS(s, priv), MSTATUS_SIE)
  {}

  lemma SMaskedGoesToM(priv: Word, c: Csrs)
    requires priv == PRV_S && !Bit(c.mstatus, MSTATUS_SIE) && PendingInterrupt(priv, c) != 0
    ensures !Delegated(priv, c, PendingInterrupt(priv, c))
  {
    hide PendingInterrupt, Delegated, Raised, Bit, MEnabled;
    var k := EntryAgreesWithSelection(priv, c);
  }

  lemma EntryTakesRoom(h: Hart, env: Env)
    requires LegalPriv(h.core.priv) && TakesInterrupt(h)
    ensures Room(Step(h, env).core) < Room(h.core) && LegalPriv(Step(h, env).core.priv)
  {
    hide PendingInterrupt, Delegated, Bit, EnterM, EnterS, Vector, ClearBit0;
    var c := h.core;
    if c.priv == PRV_M && !Bit(c.csr.mstatus, MSTATUS_MIE) { NoRoomNoInterrupt(c.priv, c.csr); }
    if c.priv == PRV_S && !Bit(c.csr.mstatus, MSTATUS_SIE) { SMaskedGoesToM(c.priv, c.csr); }
    EnterMClearsMie(c.csr.mstatus, c.priv);
    EnterSClearsSie(c.csr.mstatus, c.priv);
  }

  /** Every iteration of the hart in this run enters an interrupt handler. */
  ghost predicate OnlyEntries(h: Hart, es: seq<Event>)
    decreases |es|
  {
    es == [] || ((es[0].Cpu? ==> TakesInterrupt(h)) && OnlyEntries(After(h, es[0]), es[1..]))
  }

  function CpuEvents(es: seq<Event>): nat
    decreases |es|
  {
    if es == [] then 0 else (if es[0].Cpu? then 1 else 0) + CpuEvents(es[1..])
  }

  lemma OthersKeepRoom(h: Hart, e: Event)
    requires !e.Cpu?
    ensures Room(After(h, e).core) == Room(h.core) && After(h, e).core.priv == h.core.priv
  {
    hide Bit, Store;
  }

  lemma {:induction false} EntriesFitInRoom(h: Hart, es: seq<Event>)
    requires LegalPriv(h.core.priv) && OnlyEntries(h, es)
    ensures CpuEvents(es) <= Room(h.core)
    decreases |es|
  {
    hide LegalPriv, TakesInterrupt, Room, Step;
    if es != [] {
      var h1 := After(h, es[0]);
      if es[0].Cpu? { EntryTakesRoom(h, es[0].env); } else { OthersKeepRoom(h, es[0]); }
      EntriesFitInRoom(h1, es[1..]);
    }
  }

  /** However the devices change mip and memory meanwhile, at most two interrupt entries happen in
      a row before an instruction is attempted. */
  lemma AtMostTwoEntriesInARow(h: Hart, es: seq<Event>)
    requires LegalPriv(h.core.priv) && OnlyEntries(h, es)
    ensures CpuEvents(es) <= 2
  {
    hide LegalPriv, TakesInterrupt, After, OnlyEntries, Bit;
    EntriesFitInRoom(h, es);
  }

  // The bound is reached: an SSIP delegated to S, then a timer interrupt on the way into its handler.
  const TWICE: Csrs := RESET.(mie := 0x82, m := RESET.m.(mideleg := 0x2), swMip := 0x2)

  lemma FirstEntry(c: Core)
    requires c.priv == PRV_U && c.csr == TWICE
    ensures PendingInterrupt(c.priv, c.csr) == INT_BIT | 1 && Delegated(c.priv, c.csr, INT_BIT | 1)
  {}
  lemma SecondEntry(c: Core)
    requires c.priv == PRV_S && c.csr.mie == 0x82 && c.csr.m.mideleg == 0x2 && c.csr.swMip == 0x2 && c.csr.hwMip == 0x80
    requires !Bit(c.csr.mstatus, MSTATUS_SIE)
    ensures PendingInterrupt(c.priv, c.csr) == INT_BIT | 7
  {
    hide Bit, FirstActive;
    assert Active(c.priv, c.csr) == 0x80;
    assert FirstActive(0x80) == INT_BIT | 7 by { OnlyTimer(); }
  }
  lemma OnlyTimer()
    ensures FirstActive(0x80) == INT_BIT | 7
  {}

  lemma TwoEntriesHappen(h: Hart, env: Env)
    requires h.core.priv == PRV_U && h.core.csr == TWICE
    ensures OnlyEntries(h, [Cpu(env), Device(0x80), Cpu(env)])
  {
    hide PendingInterrupt, Delegated, EnterS, Vector, ClearBit0, Bit;
    FirstEntry(h.core);
    EnterSClearsSie(h.core.csr.mstatus, h.core.priv);
    var h1 := After(h, Cpu(env));
    var h2 := After(h1, Device(0x80));
    SecondEntry(h2.core);
    var es := [Cpu(env), Device(0x80), Cpu(env)];
    assert es[1..] == [Device(0x80), Cpu(env)] && es[1..][1..] == [Cpu(env)];
    assert OnlyEntries(h2, [Cpu(env)]);
    assert OnlyEntries(h1, [Device(0x80), Cpu(env)]);
  }
}
