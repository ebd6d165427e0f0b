/** The CSR register file as an object (src/cpu/csr.h, src/cpu/csr.cpp): reads and writes by address,
    the counters, and the bits that devices drive. */
module CsrFile {
  import opened Rv32
  import opened Masks
  import opened Csr

  class RegisterFile {
    var mstatus: Word
    var mie: Word
    var m: Machine
    var s: Supervisor
    var n: Counters
    var hwMip: Word
    var swMip: Word
    /** How often on_satp_write has fired. */
    var flushes: nat

    function View(): Csrs
      reads this
    {
      Csrs(mstatus, mie, m, s, n, hwMip, swMip)
    }

    constructor ()
      ensures View() == RESET && flushes == 0
    {
      mstatus, mie, hwMip, swMip, flushes := 0, 0, 0, 0, 0;
      m, s, n := RESET.m, RESET.s, RESET.n;
    }

    // The cases of the switch in CSRFile::write, one register group per method. Writes to misa are
    // accepted and ignored.

    method WriteMachine(name: CsrName, v: Word)
      modifies this`m
      ensures m == SetMachine(old(m), name, v)
    {
      hide ClearBit0;
      if name.Medeleg? {
        m := m.(medeleg := v);
      } else if name.Mideleg? {
        m := m.(mideleg := v);
      } else if name.Mtvec? {
        m := m.(mtvec := v);
      } else if name.Mcounteren? {
        m := m.(mcounteren := v);
      } else if name.Mscratch? {
        m := m.(mscratch := v);
      } else if name.Mepc? {
        m := m.(mepc := ClearBit0(v));
      } else if name.Mcause? {
        m := m.(mcause := v);
      } else if name.Mtval? {
        m := m.(mtval := v);
      }
    }

    method WriteSupervisor(name: CsrName, v: Word)
      modifies this`s, this`flushes
      ensures s == SetSupervisor(old(s), name, v)
      ensures flushes == old(flushes) + if name.Satp? then 1 else 0
    {
      hide ClearBit0;
      if name.Stvec? {
        s := s.(stvec := v);
      } else if name.Scounteren? {
        s := s.(scounteren := v);
      } else if name.Sscratch? {
        s := s.(sscratch := v);
      } else if name.Sepc? {
        s := s.(sepc := ClearBit0(v));
      } else if name.Scause? {
        s := s.(scause := v);
      } else if name.Stval? {
        s := s.(stval := v);
      } else if name.Satp? {
        s := s.(satp := v);
      }
      if name.Satp? { flushes := flushes + 1; }
    }

    method WriteCounter(name: CsrName, v: Word)
      modifies this`n
      ensures n == SetCounters(old(n), name, v)
    {
      if name.Mcycle? {
        n := n.(mcycle := v);
      } else if name.Mcycleh? {
        n := n.(mcycleh := v);
      } else if name.Minstret? {
        n := n.(minstret := v);
      } else if name.Minstreth? {
        n := n.(minstreth := v);
      }
    }

    /** mstatus, mie and mip, under their own names and through the supervisor views. */
    method WriteShared(name: CsrName, v: Word)
      modifies this`mstatus, this`mie, this`swMip
      ensures mstatus == SetStatus(old(mstatus), name, v)
      ensures mie == SetIe(old(mie), name, v)
      ensures swMip == SetSwMip(old(swMip), name, v)
    {
      hide LegalStatus, MergeStatus, MergeIe, Ssip;
      if name.Mstatus? {
        mstatus := LegalStatus(v);
      } else if name.Sstatus? {
        mstatus := MergeStatus(mstatus, v);
      } else if name.Mie? {
        mie := v;
      } else if name.Sie? {
        mie := MergeIe(mie, v);
      } else if name.Mip? || name.Sip? {
        swMip := Ssip(v);
      }
    }

    /** CSRFile::write: false when privilege, the read-only bits or the address refuse it; then
        nothing changes. A write to satp fires the flush callback. */
    method WriteCsr(addr: Word, priv: Word, v: Word) returns (ok: bool)
      modifies this
      ensures ok == CsrWrite(old(View()), addr, priv, v).Written?
      ensures View() == if ok then CsrWrite(old(View()), addr, priv, v).c else old(View())
      ensures flushes == old(flushes) + if ok && Flushes(addr) then 1 else 0
    {
      hide Named, PrivOk, ReadOnly, SetStatus, SetIe, SetMachine, SetSupervisor, SetCounters, SetSwMip;
      if !PrivOk(addr, priv) { return false; }
      if ReadOnly(addr) { return false; }
      var name := Named(addr);
      if NoWriteCase(name) { return false; }
      WriteShared(name, v);
      WriteMachine(name, v);
      WriteSupervisor(name, v);
      WriteCounter(name, v);
      return true;
    }

    /** inc_mcycle: the two halves count as one. */
    method IncMcycle()
      modifies this`n
      ensures Count(n.mcycleh, n.mcycle) == Count(old(n.mcycleh), old(n.mcycle)) + 1
      ensures n.minstret == old(n.minstret) && n.minstreth == old(n.minstreth)
    {
      hide Count;
      CarryIsExact(n.mcycleh, n.mcycle);
      n := n.(mcycle := n.mcycle + 1);
      if n.mcycle == 0 { n := n.(mcycleh := n.mcycleh + 1); }
    }

    /** inc_minstret. */
    method IncMinstret()
      modifies this`n
      ensures Count(n.minstreth, n.minstret) == Count(old(n.minstreth), old(n.minstret)) + 1
      ensures n.mcycle == old(n.mcycle) && n.mcycleh == old(n.mcycleh)
    {
      hide Count;
      CarryIsExact(n.minstreth, n.minstret);
      n := n.(minstret := n.minstret + 1);
      if n.minstret == 0 { n := n.(minstreth := n.minstreth + 1); }
    }

    /** set_hw_bit: the bit is set as told, and no other bit of hw_mip changes. */
    method SetHwBit(bit: Word, on: bool)
      requires Bit(bit, bit)
      modifies this`hwMip
      ensures Bit(hwMip, bit) == on
      ensures forall other: Word :: !Bit(bit, other) ==> Bit(hwMip, other) == Bit(old(hwMip), other)
    {
      hide Bit, SetBits, ClearBits;
      var was := hwMip;
      if on {
        hwMip := SetBits(was, bit);
        SetAdds(was, bit, bit);
      } else {
        hwMip := ClearBits(was, bit);
        ClearHere(was, bit);
      }
      forall other: Word | !Bit(bit, other) ensures Bit(hwMip, other) == Bit(was, other) {
        if on {
          if Bit(was, other) { SetKeeps(was, bit, other); } else { SetAddsNothingElse(was, bit, other); }
        } else if Bit(was, other) {
          ClearKeepsOthers(was, bit, other);
        } else if Bit(hwMip, other) {
          ClearAddsNothing(was, bit, other);
        }
      }
    }
  }

  /** Two halves as one 64-bit counter, modulo 2^64. */
  function Count(hi: Word, lo: Word): bv64 { ((hi as bv64) << 32) | (lo as bv64) }

  /** Counting in halves with a carry is counting. */
  lemma CarryIsExact(hi: Word, lo: Word)
    ensures Count(if lo + 1 == 0 then hi + 1 else hi, lo + 1) == Count(hi, lo) + 1
  {}

  /** What one retired instruction does to the counters: both 64-bit counts go up by one. */
  lemma TickCounts(c: Csrs)
    ensures Count(Tick(c).n.mcycleh, Tick(c).n.mcycle) == Count(c.n.mcycleh, c.n.mcycle) + 1
    ensures Count(Tick(c).n.minstreth, Tick(c).n.minstret) == Count(c.n.minstreth, c.n.minstret) + 1
  {
    hide Count;
    CarryIsExact(c.n.mcycleh, c.n.mcycle);
    CarryIsExact(c.n.minstreth, c.n.minstret);
  }
}
