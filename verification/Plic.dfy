/** The platform-level interrupt controller (src/irq/plic.cpp): claim and complete, and the line it
    drives to the hart. */
module Plic {

  import opened Rv32
  import opened Masks

  const NUM_SOURCES: nat := 8

  /** Bit number i of a mask register, for a source number i. */
  function SourceBit(i: nat): Word
    requires i < NUM_SOURCES
  {
    if i == 0 then 0x01 else if i == 1 then 0x02 else if i == 2 then 0x04 else if i == 3 then 0x08
    else if i == 4 then 0x10 else if i == 5 then 0x20 else if i == 6 then 0x40 else 0x80
  }

  predicate Has(mask: Word, i: nat)
    requires i < NUM_SOURCES
  {
    Bit(mask, SourceBit(i))
  }
  function With(mask: Word, i: nat): Word
    requires i < NUM_SOURCES
  {
    SetBits(mask, SourceBit(i))
  }
  function Without(mask: Word, i: nat): Word
    requires i < NUM_SOURCES
  {
    ClearBits(mask, SourceBit(i))
  }

  lemma SourceBitsDiffer(i: nat, j: nat)
    requires i < NUM_SOURCES && j < NUM_SOURCES
    ensures Bit(SourceBit(i), SourceBit(j)) == (i == j)
  {}
  lemma HasOfWith(m: Word, i: nat, j: nat)
    requires i < NUM_SOURCES && j < NUM_SOURCES
    ensures Has(With(m, i), j) == (i == j || Has(m, j))
  {
    hide SourceBit, Bit, SetBits;
    SourceBitsDiffer(i, j);
    if i == j {
      SetAdds(m, SourceBit(i), SourceBit(j));
    } else if Has(m, j) {
      SetKeeps(m, SourceBit(i), SourceBit(j));
    } else {
      SetAddsNothingElse(m, SourceBit(i), SourceBit(j));
    }
  }
  lemma HasOfWithout(m: Word, i: nat, j: nat)
    requires i < NUM_SOURCES && j < NUM_SOURCES
    ensures Has(Without(m, i), j) == (i != j && Has(m, j))
  {
    hide SourceBit, Bit, ClearBits;
    SourceBitsDiffer(i, j);
    ClearHere(m, SourceBit(i));
    if Has(Without(m, i), j) { ClearAddsNothing(m, SourceBit(i), SourceBit(j)); }
    if i != j && Has(m, j) { ClearKeepsOthers(m, SourceBit(i), SourceBit(j)); }
  }

  /** A priority or threshold: the low three bits of what is written. */
  type Level = n: nat | n < 8
  function LevelOf(v: Word): Level { (v & 7) as nat }
  function LevelWord(n: Level): Word { n as Word }

  // ---- the register state and the claim rule ----

  datatype State = State(priority: seq<Level>, pending: Word, enabled: Word, threshold: Level, claimed: Word)
  {
    predicate Ok() { |priority| == NUM_SOURCES && priority[0] == 0 }

    /** Pending, enabled, not in service, and above the threshold. Source 0 does not exist. */
    predicate Actionable(i: nat)
      requires Ok()
    {
      1 <= i < NUM_SOURCES && Has(pending, i) && Has(enabled, i) && !Has(claimed, i) && priority[i] > threshold
    }

    /** Source i wins over source j: a higher priority, or the same and a lower number. */
    predicate Beats(i: nat, j: nat)
      requires Ok() && i < NUM_SOURCES && j < NUM_SOURCES
    {
      priority[i] > priority[j] || (priority[i] == priority[j] && i <= j)
    }

    /** What a claim has to return. */
    ghost predicate IsBest(id: nat)
      requires Ok()
    {
      if id == 0 then forall j: nat :: !Actionable(j)
      else Actionable(id) && forall j: nat :: Actionable(j) ==> Beats(id, j)
    }

    /** The claim among the sources below n. */
    function BestBelow(n: nat): (id: nat)
      requires Ok() && n <= NUM_SOURCES
      ensures id < NUM_SOURCES
    {
      if n <= 1 then 0
      else
        var b := BestBelow(n - 1);
        if Actionable(n - 1) && priority[n - 1] > priority[b] then n - 1 else b
    }
    function Best(): (id: nat)
      requires Ok()
      ensures id < NUM_SOURCES
    {
      BestBelow(NUM_SOURCES)
    }
  }

  lemma {:induction false} ScanIsBest(s: State, n: nat)
    requires s.Ok() && 1 <= n <= NUM_SOURCES
    ensures var b := s.BestBelow(n);
      && b < n && (b == 0 ==> forall j: nat :: j < n ==> !s.Actionable(j))
      && (b != 0 ==> s.Actionable(b) && forall j: nat :: j < n && s.Actionable(j) ==> s.Beats(b, j))
  {
    hide Has;
    if n > 1 { ScanIsBest(s, n - 1); }
  }

  /** A claim returns the actionable source of highest priority and, among those, lowest number, and 0
      exactly when there is none; nothing else qualifies. */
  lemma ClaimRule(s: State, id: nat)
    requires s.Ok()
    ensures s.IsBest(id) <==> id == s.Best()
  {
    hide Has;
    ScanIsBest(s, NUM_SOURCES);
    var b := s.Best();
    if id != 0 && b != 0 && s.IsBest(id) { assert s.Beats(id, b) && s.Beats(b, id); }
  }

  // ---- the operations on values ----

  datatype Op =
    | SetPending(source: nat, on: bool)  // a peripheral drives its line
    | RegWrite(addr: nat, value: Word)
    | RegRead(addr: nat)

  const PENDING: nat := 0x1000
  const ENABLE: nat := 0x2000
  const THRESHOLD: nat := 0x20_0000
  const CLAIM: nat := 0x20_0004

  /** A completion of this source: the write that releases it. */
  predicate Completes(op: Op, id: nat)
    requires id < NUM_SOURCES
  {
    op.RegWrite? && op.addr == CLAIM && SourceOf(op.value) == Source(id)
  }

  /** The source a completion value names: values of 8 and above name none. */
  datatype Named = NoSource | Source(id: nat)

  function SourceOf(v: Word): (r: Named)
    ensures r.Source? ==> r.id < NUM_SOURCES
  {
    if v < 8 then Source(v as nat) else NoSource
  }

  function Claimed(s: State, id: nat): State
    requires id < NUM_SOURCES
  {
    if id == 0 then s else s.(claimed := With(s.claimed, id), pending := Without(s.pending, id))
  }

  function Next(s: State, op: Op): (r: State)
    requires s.Ok()
    ensures r.Ok()
  {
    match op
    case SetPending(id, on) =>
      if id == 0 || id >= NUM_SOURCES then s
      else s.(pending := if on then With(s.pending, id) else Without(s.pending, id))
    case RegWrite(a, v) =>
      if a < NUM_SOURCES * 4 then
        if a / 4 == 0 then s else s.(priority := s.priority[a / 4 := LevelOf(v)])
      else if a == PENDING then s.(pending := v)
      else if a == ENABLE then s.(enabled := v)
      else if a == THRESHOLD then s.(threshold := LevelOf(v))
      else if a == CLAIM then
        match SourceOf(v)
        case NoSource => s
        case Source(id) => s.(claimed := Without(s.claimed, id))
      else s
    case RegRead(a) =>
      if a == CLAIM then Claimed(s, s.Best()) else s
  }

  /** The source an operation hands to software, 0 for none. */
  function Handed(s: State, op: Op): (id: nat)
    requires s.Ok()
    ensures id < NUM_SOURCES
  {
    if op == RegRead(CLAIM) then s.Best() else 0
  }

  function After(s: State, ops: seq<Op>, n: nat): (r: State)
    requires s.Ok() && n <= |ops|
    ensures r.Ok()
  {
    if n == 0 then s else Next(After(s, ops, n - 1), ops[n - 1])
  }

  // ---- no source is claimed again before its completion ----

  lemma OnlyCompletionReleases(s: State, op: Op, id: nat)
    requires s.Ok() && id < NUM_SOURCES && Has(s.claimed, id) && !Completes(op, id)
    ensures Has(Next(s, op).claimed, id)
  {
    hide Has, With, Without;
    if op == RegRead(CLAIM) {
      HasOfWith(s.claimed, s.Best(), id);
    } else if op.RegWrite? && op.addr == CLAIM && SourceOf(op.value).Source? {
      HasOfWithout(s.claimed, SourceOf(op.value).id, id);
    }
  }

  lemma HandedIsUnclaimed(s: State, op: Op)
    requires s.Ok() && Handed(s, op) != 0
    ensures !Has(s.claimed, Handed(s, op)) && Has(Next(s, op).claimed, Handed(s, op))
  {
    hide Has, With, Without;
    ScanIsBest(s, NUM_SOURCES);
    HasOfWith(s.claimed, s.Best(), s.Best());
  }

  lemma {:induction false} StaysClaimed(s: State, ops: seq<Op>, i: nat, j: nat, id: nat)
    requires s.Ok() && i <= j <= |ops| && id < NUM_SOURCES && Has(After(s, ops, i).claimed, id)
    requires forall k: nat :: i <= k < j ==> !Completes(ops[k], id)
    ensures Has(After(s, ops, j).claimed, id)
    decreases j - i
  {
    hide Has, Next, Completes;
    if i < j {
      StaysClaimed(s, ops, i, j - 1, id);
      OnlyCompletionReleases(After(s, ops, j - 1), ops[j - 1], id);
    }
  }

  lemma ClaimedIsNotHanded(s: State, op: Op, id: nat)
    requires s.Ok() && 0 < id < NUM_SOURCES && Has(s.claimed, id)
    ensures Handed(s, op) != id
  {
    hide Has, With, Without;
    if Handed(s, op) != 0 { HandedIsUnclaimed(s, op); }
  }

  lemma AfterOneMore(s: State, ops: seq<Op>, i: nat)
    requires s.Ok() && i < |ops|
    ensures After(s, ops, i + 1) == Next(After(s, ops, i), ops[i])
  {
    hide Next;
  }

  lemma StaysUnhanded(s: State, ops: seq<Op>, i: nat, j: nat, id: nat)
    requires s.Ok() && i < j < |ops| && 0 < id < NUM_SOURCES && Handed(After(s, ops, i), ops[i]) == id
    requires forall k: nat :: i < k < j ==> !Completes(ops[k], id)
    ensures Handed(After(s, ops, j), ops[j]) != id
  {
    hide Has, Next, Completes, Handed, After;
    HandedIsUnclaimed(After(s, ops, i), ops[i]);
    AfterOneMore(s, ops, i);
    StaysClaimed(s, ops, i + 1, j, id);
    ClaimedIsNotHanded(After(s, ops, j), ops[j], id);
  }

  /** The claim protocol over any run, with peripherals, register writes and completions in any
      order: between two claims of one source there is a completion of it. */
  lemma NoClaimBeforeCompletion(s: State, ops: seq<Op>, i: nat, j: nat)
    requires s.Ok() && i < j < |ops|
    requires var id := Handed(After(s, ops, i), ops[i]); id != 0 && Handed(After(s, ops, j), ops[j]) == id
    ensures exists k: nat :: i < k < j && Completes(ops[k], Handed(After(s, ops, i), ops[i]))
  {
    hide After, Completes, Handed;
    var id := Handed(After(s, ops, i), ops[i]);
    if forall k: nat :: i < k < j ==> !Completes(ops[k], id) { StaysUnhanded(s, ops, i, j, id); }
  }

  // ---- registers ----

  /** What a read of a register other than the claim register returns. */
  function Shown(s: State, addr: nat): Response
    requires s.Ok()
  {
    if addr < NUM_SOURCES * 4 then OkResponse(LevelWord(s.priority[addr / 4]))
    else if addr == PENDING then OkResponse(s.pending)
    else if addr == ENABLE then OkResponse(s.enabled)
    else if addr == THRESHOLD then OkResponse(LevelWord(s.threshold))
    else AddressError
  }
  predicate IsRegister(addr: nat) { addr < 32 || addr in {0x1000, 0x2000, 0x20_0000} }
  /** The register an address belongs to. */
  function Register(addr: nat): nat { if addr < NUM_SOURCES * 4 then addr / 4 else addr }

  lemma LevelIsLow(v: Word)
    ensures LevelWord(LevelOf(v)) == v & 7 && LevelWord(0) == 0
  {}
  /** Bit i of a register. */
  predicate Raised(x: Word, i: nat)
    requires i < NUM_SOURCES
  {
    OneBit(x, i as bv5)
  }
  lemma HasIsRaised(mask: Word, i: nat)
    requires i < NUM_SOURCES
    ensures Has(mask, i) <==> Raised(mask, i)
  {}
  predicate Above(x: Word, y: Word) { x > y }
  lemma LevelsByWord(x: Level, y: Level)
    ensures Above(LevelWord(x), LevelWord(y)) <==> x > y
  {}
  /** A source can be claimed by what software reads: its bits in PENDING and ENABLE are set, its priority
      register exceeds THRESHOLD, and it is not in service. */
  lemma ActionableByRegisters(s: State, i: nat)
    requires s.Ok() && 1 <= i < NUM_SOURCES
    ensures s.Actionable(i) <==>
      && Raised(Shown(s, PENDING).value, i) && Raised(Shown(s, ENABLE).value, i)
      && Above(Shown(s, 4 * i).value, Shown(s, THRESHOLD).value) && !Raised(s.claimed, i)
  {
    hide Has, Raised, Above, LevelWord;
    HasIsRaised(s.pending, i);
    HasIsRaised(s.enabled, i);
    HasIsRaised(s.claimed, i);
    LevelsByWord(s.priority[i], s.threshold);
  }
  /** A claim takes the source out of PENDING and into service, and changes nothing else. */
  lemma ClaimsAreSingle(s: State, j: nat)
    requires s.Ok() && j < NUM_SOURCES
    ensures var id, t := s.Best(), Next(s, RegRead(CLAIM));
      && t == s.(pending := t.pending, claimed := t.claimed)
      && Has(t.pending, j) == (Has(s.pending, j) && (j != id || id == 0))
      && Has(t.claimed, j) == (Has(s.claimed, j) || (j == id && id != 0))
  {
    hide Has, With, Without, State.Best;
    HasOfWith(s.claimed, s.Best(), j);
    HasOfWithout(s.pending, s.Best(), j);
  }
  /** What is written to a register is what the next read returns: priorities and the threshold keep three
      bits, and the priority of source 0 stays 0. */
  lemma WriteThenRead(s: State, addr: nat, v: Word)
    requires s.Ok() && IsRegister(addr)
    ensures Shown(Next(s, RegWrite(addr, v)), addr) == OkResponse(
      if addr < 4 then 0 else if addr < NUM_SOURCES * 4 || addr == THRESHOLD then v & 7 else v)
  {
    hide LevelOf, LevelWord;
    LevelIsLow(v);
  }
  lemma WriteChangesOne(s: State, addr: nat, v: Word)
    requires s.Ok() && IsRegister(addr)
    ensures var t := Next(s, RegWrite(addr, v));
      if addr < NUM_SOURCES * 4
      then t == s.(priority := t.priority) && forall j: nat :: j < NUM_SOURCES && j != addr / 4 ==> t.priority[j] == s.priority[j]
      else t == if addr == PENDING then s.(pending := v) else if addr == ENABLE then s.(enabled := v) else s.(threshold := LevelOf(v))
  {
    hide LevelOf;
  }
  /** Every other register reads as before. */
  lemma WriteLeavesOthers(s: State, addr: nat, v: Word, other: nat)
    requires s.Ok() && IsRegister(addr) && IsRegister(other) && Register(addr) != Register(other)
    ensures Shown(Next(s, RegWrite(addr, v)), other) == Shown(s, other) && Next(s, RegWrite(addr, v)).claimed == s.claimed
  {
    hide LevelOf, LevelWord, Next;
    WriteChangesOne(s, addr, v);
  }
  /** A peripheral changes its own pending bit, and a completion releases the named source, and nothing
      else. */
  lemma SignalsAreSingle(s: State, id: nat, on: bool, j: nat)
    requires s.Ok() && 0 < id < NUM_SOURCES && j < NUM_SOURCES
    ensures Next(s, SetPending(id, on)) == s.(pending := Next(s, SetPending(id, on)).pending)
    ensures Has(Next(s, SetPending(id, on)).pending, j) == if j == id then on else Has(s.pending, j)
  {
    hide Has, With, Without;
    HasOfWith(s.pending, id, j);
    HasOfWithout(s.pending, id, j);
  }
  lemma CompletionsAreSingle(s: State, v: Word, j: nat)
    requires s.Ok() && j < NUM_SOURCES
    ensures Next(s, RegWrite(CLAIM, v)) == s.(claimed := Next(s, RegWrite(CLAIM, v)).claimed)
    ensures Has(Next(s, RegWrite(CLAIM, v)).claimed, j) == (Has(s.claimed, j) && SourceOf(v) != Source(j))
  {
    hide Has, With, Without;
    if SourceOf(v).Source? { HasOfWithout(s.claimed, SourceOf(v).id, j); }
  }

  // ---- the controller ----

  datatype Response = OkResponse(value: Word) | BurstError | AddressError

  class Controller {
    const priority: array<Level>
    var pending: Word
    var enabled: Word
    var threshold: Level
    var claimed: Word
    /** The value last passed to on_external_irq. */
    var line: bool

    ghost function View(): State
      reads this, priority
    {
      State(priority[..], pending, enabled, threshold, claimed)
    }

    /** The reported line is high exactly when a claim would return nonzero. */
    ghost predicate Valid()
      reads this, priority
    {
      View().Ok() && line == (View().Best() != 0)
    }

    constructor ()
      ensures Valid() && fresh(priority) && !line
      ensures View() == State(seq(NUM_SOURCES, _ => 0), 0, 0, 0, 0)
    {
      priority := new Level[NUM_SOURCES](_ => 0);
      pending, enabled, threshold, claimed, line := 0, 0, 0, 0, false;
      new;
      NothingPending(View());
    }

    /** evaluate_irq. */
    method Evaluate()
      requires View().Ok()
      modifies this`line
      ensures Valid()
    {
      hide Has;
      var best: Level := 0;
      for i := 1 to NUM_SOURCES
        invariant best == priority[View().BestBelow(i)] && (best == 0 <==> View().BestBelow(i) == 0)
      {
        ScanIsBest(View(), i);
        if Has(pending, i) && Has(enabled, i) && !Has(claimed, i) && priority[i] > threshold && priority[i] > best {
          best := priority[i];
        }
      }
      line := best > 0;
    }

    /** set_pending. */
    method Drive(source: nat, on: bool)
      requires Valid()
      modifies this`pending, this`line
      ensures Valid() && View() == Next(old(View()), SetPending(source, on))
    {
      if source == 0 || source >= NUM_SOURCES { return; }
      pending := if on then With(pending, source) else Without(pending, source);
      Evaluate();
    }

    /** claim_best. */
    method ClaimBest() returns (id: nat)
      requires Valid()
      modifies this`pending, this`claimed, this`line
      ensures Valid() && id < NUM_SOURCES && old(View()).IsBest(id)
      ensures View() == Claimed(old(View()), id)
    {
      hide Has, With, Without;
      id := 0;
      var best: Level := 0;
      for i := 1 to NUM_SOURCES
        invariant id == View().BestBelow(i) && best == priority[id]
      {
        if Has(pending, i) && Has(enabled, i) && !Has(claimed, i) && priority[i] > threshold && priority[i] > best {
          best, id := priority[i], i;
        }
      }
      ClaimRule(View(), id);
      if id != 0 {
        claimed := With(claimed, id);
        pending := Without(pending, id);
        Evaluate();
      }
    }

    /** A 4-byte register write; other lengths are refused. */
    method WriteRegister(addr: nat, v: Word, len: nat) returns (r: Response)
      requires Valid()
      modifies this, priority
      ensures Valid()
      ensures len == 4 ==> View() == Next(old(View()), RegWrite(addr, v))
      ensures len != 4 ==> View() == old(View()) && r == BurstError
      ensures r == AddressError <==>
        len == 4 && !(addr < NUM_SOURCES * 4 || addr in {PENDING, ENABLE, THRESHOLD, CLAIM})
    {
      if len != 4 { return BurstError; }
      r := OkResponse(v);
      if addr < NUM_SOURCES * 4 {
        if addr / 4 != 0 { priority[addr / 4] := LevelOf(v); }
      } else if addr == PENDING {
        pending := v;
      } else if addr == ENABLE {
        enabled := v;
      } else if addr == THRESHOLD {
        threshold := LevelOf(v);
      } else if addr == CLAIM {
        var s := SourceOf(v);
        if s.Source? { claimed := Without(claimed, s.id); }
      } else {
        return AddressError;
      }
      Evaluate();
    }

    /** A 4-byte register read. Reading the claim register claims. */
    method ReadRegister(addr: nat, len: nat) returns (r: Response)
      requires Valid()
      modifies this`pending, this`claimed, this`line
      ensures Valid()
      ensures len == 4 ==> View() == Next(old(View()), RegRead(addr))
      ensures len != 4 ==> View() == old(View()) && r == BurstError
      ensures len == 4 && addr == CLAIM ==>
        exists id: nat :: id < NUM_SOURCES && old(View()).IsBest(id) && r == OkResponse(id as Word)
      ensures len == 4 && addr != CLAIM ==> r == Shown(old(View()), addr)
    {
      if len != 4 { return BurstError; }
      if addr < NUM_SOURCES * 4 { return OkResponse(LevelWord(priority[addr / 4])); }
      if addr == PENDING { return OkResponse(pending); }
      if addr == ENABLE { return OkResponse(enabled); }
      if addr == THRESHOLD { return OkResponse(LevelWord(threshold)); }
      if addr == CLAIM {
        var id := ClaimBest();
        ClaimRule(old(View()), id);
        return OkResponse(id as Word);
      }
      return AddressError;
    }
  }

  lemma NothingPending(s: State)
    requires s.Ok() && s.pending == 0
    ensures s.Best() == 0
  {
    ScanIsBest(s, NUM_SOURCES);
  }
}
