/** One iteration of the loop, case by case: an interrupt, a fetch fault, an instruction in memory
    (src/cpu/iss.cpp:101-185). */
module Steps {
  import opened Rv32
  import opened Phys
  import opened Csr
  import opened Trap
  import opened Hart
  import opened Invariants
  import opened Isolation
  import opened Listing
  import opened Encoding
  import opened Delegation
  import Interrupts
  import Decode

  /** With an interrupt open, the step takes the first of the list, by the registers before it and with
      trap value 0. */
  lemma InterruptStep(h: Hart, env: Env, k: nat)
    requires HartOk(h) && IsFirstLine(h.core.priv, h.core.csr, k)
    ensures TrapRule(h.core, Step(h, env).core, LINES[k], true, 0)
  {
    hide CoreOk, TlbOk, Even, Interrupting, Step, TrapRule, PendingInterrupt, Cause;
    LegalOfOk(h);
    InterruptRule(h.core.priv, h.core.csr);
    LineCause(k);
    TrapByRegisters(h, env, LINES[k], true);
  }
  lemma LegalOfOk(h: Hart)
    requires HartOk(h)
    ensures LegalPriv(h.core.priv)
  {
    hide TlbOk, Even;
  }
  lemma LineCause(k: nat)
    requires k < |LINES|
    ensures INT_BIT | Interrupts.PRIORITY[k] == Cause(LINES[k], true) && Cause(LINES[k], true) != 0
  {}

  /** Without one, a fetch whose translation fails traps with code 12 and the pc as trap value. */
  lemma FetchFaultStep(h: Hart, env: Env)
    requires HartOk(h) && FetchOutcome(h, env).result.PageFault?
    requires forall j: nat :: j < |LINES| ==> !Interrupting(h.core.priv, h.core.csr, LINES[j])
    ensures TrapRule(h.core, Step(h, env).core, 12, false, h.core.pc)
  {
    hide CoreOk, TlbOk, Even, Interrupting, Step, TrapRule, PendingInterrupt, Cause, FetchOutcome;
    LegalOfOk(h);
    PcIsEven(h);
    InterruptRule(h.core.priv, h.core.csr);
    FetchFaultCause(h, env);
    assert Cause(12, false) == CAUSE_FETCH_PAGE_FAULT by { FetchCode(); }
    TrapByRegisters(h, env, 12, false);
  }
  lemma FetchCode()
    ensures Cause(12, false) == CAUSE_FETCH_PAGE_FAULT
  {}

  /** Otherwise an assembled instruction at the translated pc is the one that is executed and retired. */
  lemma AssembledStep(h: Hart, env: Env, op: InstrType, x: Fields)
    requires HartOk(h) && !op.ILLEGAL? && Encodable(FormatOf(op), x)
    requires forall j: nat :: j < |LINES| ==> !Interrupting(h.core.priv, h.core.csr, LINES[j])
    requires var o := FetchOutcome(h, env);
      o.result.Mapped? && Load(o.ram, env.io, o.result.paddr, Whole) == Encode(op, x)
    ensures Step(h, env) == Retire(Execute(WithMemory(h, FetchOutcome(h, env)), Assembled(op, x), env))
  {
    hide CoreOk, TlbOk, Even, Interrupting, PendingInterrupt, FetchOutcome, Encodable, FormatOf, Encode, Decode.DecodeInstr, Load, Retire, Execute;
    LegalOfOk(h);
    PcIsEven(h);
    InterruptRule(h.core.priv, h.core.csr);
    EncodeThenDecode(op, x);
  }
}
