/** The core-local interruptor (src/irq/clint.cpp): a 64-bit timer with split 32-bit registers, and
    the software interrupt. */
module Clint {

  const HALF: nat := 0x1_0000_0000
  type U32 = n: nat | n < HALF
  type U64 = n: nat | n < HALF * HALF

  function Hi(x: U64): (r: U32)
    ensures r * HALF <= x < r * HALF + HALF
  {
    x / HALF
  }
  function Lo(x: U64): (r: U32)
    ensures x == Hi(x) * HALF + r
  {
    x % HALF
  }
  function WithLo(x: U64, v: U32): (r: U64)
    ensures Hi(r) == Hi(x) && Lo(r) == v
  {
    Parts(Hi(x), v);
    Hi(x) * HALF + v
  }
  function WithHi(x: U64, v: U32): (r: U64)
    ensures Hi(r) == v && Lo(r) == Lo(x)
  {
    Parts(v, Lo(x));
    v * HALF + Lo(x)
  }
  lemma Parts(hi: U32, lo: U32)
    ensures 0 <= hi * HALF + lo < HALF * HALF && (hi * HALF + lo) / HALF == hi && (hi * HALF + lo) % HALF == lo
  {
    assert hi * HALF <= (HALF - 1) * HALF;
  }

  datatype State = State(mtime: U64, mtimecmp: U64, msip: bool) {
    predicate Expired() { mtime >= mtimecmp }
  }
  const RESET: State := State(0, HALF * HALF - 1, false)

  const MSIP: nat := 0
  const MTIMECMP: nat := 0x4000
  const MTIME: nat := 0xBFF8

  datatype Op = Tick | RegWrite(addr: nat, value: U32)

  function Next(s: State, op: Op): State {
    match op
    case Tick => s.(mtime := if s.mtime == HALF * HALF - 1 then 0 else s.mtime + 1)
    case RegWrite(a, v) =>
      if a == MSIP then s.(msip := v % 2 == 1)
      else if a == MTIMECMP then s.(mtimecmp := WithLo(s.mtimecmp, v))
      else if a == MTIMECMP + 4 then s.(mtimecmp := WithHi(s.mtimecmp, v))
      else if a == MTIME then s.(mtime := WithLo(s.mtime, v))
      else if a == MTIME + 4 then s.(mtime := WithHi(s.mtime, v))
      else s
  }

  /** The callbacks an operation fires. */
  predicate FiresTimer(op: Op) {
    op.Tick? || op.addr in {MTIMECMP, MTIMECMP + 4, MTIME, MTIME + 4}
  }
  predicate FiresSoftware(op: Op) { op.RegWrite? && op.addr == MSIP }

  /** An operation that fires no callback leaves what that callback reports unchanged. */
  lemma SilentOpsKeepLines(s: State, op: Op)
    ensures !FiresTimer(op) ==> Next(s, op).Expired() == s.Expired()
    ensures !FiresSoftware(op) ==> Next(s, op).msip == s.msip
  {}

  /** The two halves of a 64-bit register can be written in either order. */
  lemma SplitWritesCompose(s: State, lo: U32, hi: U32)
    ensures var a := Next(Next(s, RegWrite(MTIMECMP, lo)), RegWrite(MTIMECMP + 4, hi));
      a.mtimecmp == hi * HALF + lo && a == Next(Next(s, RegWrite(MTIMECMP + 4, hi)), RegWrite(MTIMECMP, lo))
    ensures var b := Next(Next(s, RegWrite(MTIME, lo)), RegWrite(MTIME + 4, hi));
      b.mtime == hi * HALF + lo && b == Next(Next(s, RegWrite(MTIME + 4, hi)), RegWrite(MTIME, lo))
  {}

  // ---- registers ----

  predicate IsRegister(addr: nat) { addr in {0, 0x4000, 0x4004, 0xBFF8, 0xBFFC} }
  /** What a read of a register returns. */
  function Shown(s: State, addr: nat): U32
    requires IsRegister(addr)
  {
    if addr == MSIP then if s.msip then 1 else 0
    else if addr == MTIMECMP then Lo(s.mtimecmp)
    else if addr == MTIMECMP + 4 then Hi(s.mtimecmp)
    else if addr == MTIME then Lo(s.mtime)
    else Hi(s.mtime)
  }
  /** What is written is what the next read returns, bit 0 of it for msip, and every other register reads
      as before. */
  lemma WriteThenRead(s: State, addr: nat, v: U32, other: nat)
    requires IsRegister(addr) && IsRegister(other)
    ensures Shown(Next(s, RegWrite(addr, v)), other) ==
      if other != addr then Shown(s, other) else if addr == MSIP then v % 2 else v
  {
    hide Hi, Lo, WithLo, WithHi;
    assert forall x: U64 :: Hi(WithLo(x, v)) == Hi(x) && Lo(WithLo(x, v)) == v;
    assert forall x: U64 :: Hi(WithHi(x, v)) == v && Lo(WithHi(x, v)) == Lo(x);
  }

  function Ticks(s: State, n: nat): State { if n == 0 then s else Next(Ticks(s, n - 1), Tick) }

  /** n ticks move mtime by n modulo 2^64 and touch nothing else. */
  lemma {:induction false} TicksAdd(s: State, n: nat)
    ensures Ticks(s, n) == s.(mtime := (s.mtime + n) % (HALF * HALF))
  {
    if n > 0 {
      TicksAdd(s, n - 1);
      OneMore(s.mtime + (n - 1));
    }
  }
  lemma OneMore(x: nat)
    ensures (x + 1) % (HALF * HALF) == if x % (HALF * HALF) == HALF * HALF - 1 then 0 else x % (HALF * HALF) + 1
  {}

  datatype Response = OkResponse(value: U32) | BurstError | AddressError

  class Interruptor {
    var mtime: U64
    var mtimecmp: U64
    var msip: bool
    /** The values last passed to on_timer_irq and on_sw_irq. */
    var timerLine: bool
    var softwareLine: bool

    function View(): State
      reads this
    {
      State(mtime, mtimecmp, msip)
    }
    /** Both lines report the registers as they are now. */
    predicate Valid()
      reads this
    {
      timerLine == View().Expired() && softwareLine == msip
    }

    constructor ()
      ensures Valid() && View() == RESET
    {
      mtime, mtimecmp, msip, timerLine, softwareLine := 0, HALF * HALF - 1, false, false, false;
    }

    /** update_timer_irq. */
    method UpdateTimer()
      modifies this`timerLine
      ensures timerLine == View().Expired()
    {
      timerLine := mtime >= mtimecmp;
    }

    /** One turn of tick_thread. */
    method Advance()
      requires Valid()
      modifies this
      ensures Valid() && View() == Next(old(View()), Tick)
    {
      mtime := if mtime == HALF * HALF - 1 then 0 else mtime + 1;
      UpdateTimer();
    }

    method WriteRegister(addr: nat, v: U32, len: nat) returns (r: Response)
      requires Valid()
      modifies this
      ensures Valid()
      ensures View() == if len == 4 then Next(old(View()), RegWrite(addr, v)) else old(View())
      ensures r.BurstError? <==> len != 4
      ensures r.AddressError? <==> len == 4 && !IsRegister(addr)
    {
      if len != 4 { return BurstError; }
      if addr == MSIP {
        msip := v % 2 == 1;
        softwareLine := msip;
      } else if addr == MTIMECMP {
        mtimecmp := WithLo(mtimecmp, v);
        UpdateTimer();
      } else if addr == MTIMECMP + 4 {
        mtimecmp := WithHi(mtimecmp, v);
        UpdateTimer();
      } else if addr == MTIME {
        mtime := WithLo(mtime, v);
        UpdateTimer();
      } else if addr == MTIME + 4 {
        mtime := WithHi(mtime, v);
        UpdateTimer();
      } else {
        return AddressError;
      }
      return OkResponse(v);
    }

    /** Reads have no effect; the two halves of a register are its value. */
    method ReadRegister(addr: nat, len: nat) returns (r: Response)
      ensures r.BurstError? <==> len != 4
      ensures r.AddressError? <==> len == 4 && !IsRegister(addr)
      ensures r.OkResponse? ==> r.value == Shown(View(), addr)
    {
      if len != 4 { return BurstError; }
      if addr == MSIP { return OkResponse(if msip then 1 else 0); }
      if addr == MTIMECMP { return OkResponse(Lo(mtimecmp)); }
      if addr == MTIMECMP + 4 { return OkResponse(Hi(mtimecmp)); }
      if addr == MTIME { return OkResponse(Lo(mtime)); }
      if addr == MTIME + 4 { return OkResponse(Hi(mtime)); }
      return AddressError;
    }
  }
}
