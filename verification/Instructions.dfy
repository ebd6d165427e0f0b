/** What executing an instruction does, stated by the rules of Arithmetic: registers, branches, jumps,
    loads, stores and atomics (src/cpu/execute.cpp:12-176). */
module Instructions {
  import opened Rv32
  import opened Phys
  import opened Mmu
  import opened Hart
  import opened Paging
  import opened Atomics
  import opened Arithmetic
  import Decode
  import Numbers

  /** regs' is regs with v in rd; x0 reads 0 whatever is written to it. */
  ghost predicate RegsWith(regs: Regs, rd: Word, v: Word, regs': Regs) {
    forall i: Word :: GetReg(regs', i) == if i != 0 && i == rd then v else GetReg(regs, i)
  }
  lemma SetRegIsWith(regs: Regs, rd: Word, v: Word)
    ensures RegsWith(regs, rd, v, SetReg(regs, rd, v)) && GetReg(regs, 0) == 0
  {
    forall i: Word ensures GetReg(SetReg(regs, rd, v), i) == if i != 0 && i == rd then v else GetReg(regs, i) {}
  }

  /** The pc k bytes further on, modulo 2^32. */
  predicate PcAfter(pc: Word, k: int, pc': Word) { U(pc') == (U(pc) + k) % TWO32 }

  function Length(d: Decoded): int { if d.compressed then 2 else 4 }

  lemma SequentialPc(pc: Word, d: Decoded)
    ensures PcAfter(pc, Length(d), Sum(pc, d.Len()))
  {
    hide U, Sum;
    SumValues(pc, d.Len());
    SmallNumbers();
  }
  lemma SmallNumbers()
    ensures U(0) == 0 && U(1) == 1 && U(2) == 2 && U(3) == 3 && U(4) == 4
  {
    assert Numbers.Num8(0) == 0 && Numbers.Num8(1) == 1 && Numbers.Num8(2) == 2 && Numbers.Num8(3) == 3 && Numbers.Num8(4) == 4;
    hide Numbers.Num8;
  }

  /** x changed nothing but the registers, as told, and next_pc, to a pc as told; it did not trap. */
  ghost predicate OnlyRegs(h: Hart, x: Exec, rd: Word, v: Word) {
    && x == Done(h.(regs := x.h.regs, core := h.core.(nextPc := x.h.core.nextPc)))
    && RegsWith(h.regs, rd, v, x.h.regs)
  }

  // ---- register instructions ----

  lemma SimpleKinds(op: InstrType)
    requires IsSum(op) || IsCompare(op) || IsBitwise(op)
    ensures KindOf(op).KAlu?
  {}
  lemma OtherKinds(op: InstrType)
    requires IsShift(op) || IsProduct(op) || IsDivision(op)
    ensures KindOf(op).KAlu?
  {}
  lemma RegisterKind(op: InstrType)
    requires IsRegisterOp(op)
    ensures KindOf(op).KAlu?
  {
    hide KindOf, IsSum, IsCompare, IsBitwise, IsShift, IsProduct, IsDivision;
    if IsSum(op) || IsCompare(op) || IsBitwise(op) { SimpleKinds(op); } else { OtherKinds(op); }
  }

  /** A register instruction puts into rd what its rule says of rs1, rs2, the immediate and the pc, moves
      to the next instruction, and does nothing else. */
  lemma RegisterInstruction(h: Hart, d: Decoded, env: Env)
    requires IsRegisterOp(d.op)
    ensures var x := Execute(h, d, env);
      && PcAfter(h.core.pc, Length(d), x.h.core.nextPc)
      && exists v: Word :: OnlyRegs(h, x, d.rd, v) && RdRule(d.op, d.imm, h.core.pc, GetReg(h.regs, d.rs1), GetReg(h.regs, d.rs2), v)
  {
    hide KindOf, IsRegisterOp, RdRule, AluResult, PcAfter, Sum, Decoded.Len, GetReg, SetReg, RegsWith;
    hide ExecMemory, ExecJump, ExecCsr, ExecReturn, ExecSystem;
    RegisterKind(d.op);
    SequentialPc(h.core.pc, d);
    var a, b := GetReg(h.regs, d.rs1), GetReg(h.regs, d.rs2);
    var v := AluResult(d.op, d.imm, h.core.pc, a, b);
    AluObeys(d.op, d.imm, h.core.pc, a, b);
    SetRegIsWith(h.regs, d.rd, v);
    assert OnlyRegs(h, Execute(h, d, env), d.rd, v);
  }

  // ---- branches and jumps ----

  predicate BranchRule(op: InstrType, a: Word, b: Word) {
    if op.BEQ? then U(a) == U(b)
    else if op.BNE? then U(a) != U(b)
    else if op.BLT? then S(a) < S(b)
    else if op.BGE? then S(a) >= S(b)
    else if op.BLTU? then U(a) < U(b)
    else U(a) >= U(b)
  }
  lemma TakenByRule(op: InstrType, a: Word, b: Word)
    requires Decode.IsBranch(op)
    ensures Taken(op, a, b) <==> BranchRule(op, a, b)
  {
    hide U, S, SLt, Numbers.Less;
    OrderValues(a, b);
    SameValueSameWord(a, b);
  }
  lemma BranchKind(op: InstrType)
    ensures Decode.IsBranch(op) <==> KindOf(op).KBranch?
    ensures op.JAL? <==> KindOf(op).KJal?
    ensures op.JALR? <==> KindOf(op).KJalr?
  {}

  /** A branch goes to pc + offset if its comparison holds and to the next instruction otherwise. */
  lemma BranchInstruction(h: Hart, d: Decoded, env: Env)
    requires Decode.IsBranch(d.op)
    ensures var x := Execute(h, d, env);
      && x == Done(h.(core := h.core.(nextPc := x.h.core.nextPc)))
      && PcAfter(h.core.pc, if BranchRule(d.op, GetReg(h.regs, d.rs1), GetReg(h.regs, d.rs2)) then U(d.imm) else Length(d), x.h.core.nextPc)
  {
    hide KindOf, Decode.IsBranch, Taken, BranchRule, Sum, Decoded.Len, GetReg, U, ExecMemory, ExecCsr, ExecReturn, ExecSystem, AluResult;
    BranchKind(d.op);
    TakenByRule(d.op, GetReg(h.regs, d.rs1), GetReg(h.regs, d.rs2));
    SequentialPc(h.core.pc, d);
    SumValues(h.core.pc, d.imm);
  }

  lemma EvenPartValue(x: Word)
    ensures U(Numbers.EvenPart(x)) == U(x) - U(x) % 2
  {
    hide Numbers.Uint, Numbers.EvenPart, Numbers.LowBit, Numbers.Halved, Sum, Numbers.Less;
    SmallNumbers();
    Numbers.TwoHalves(x);
    Numbers.EvenAndLow(x);
    Numbers.LowBitIsSmall(x);
    SumValues(Numbers.Halved(x), Numbers.Halved(x));
    SumValues(Numbers.EvenPart(x), Numbers.LowBit(x));
    Numbers.UintOfHalf(x);
  }

  /** JAL and JALR put the address of the next instruction into rd and go to pc + offset, or to
      rs1 + offset made even. */
  lemma JumpInstruction(h: Hart, d: Decoded, env: Env)
    requires d.op.JAL? || d.op.JALR?
    ensures var x := Execute(h, d, env);
      && (exists v: Word :: OnlyRegs(h, x, d.rd, v) && PcAfter(h.core.pc, Length(d), v))
      && if d.op.JAL? then PcAfter(h.core.pc, U(d.imm), x.h.core.nextPc)
         else var t := (U(GetReg(h.regs, d.rs1)) + U(d.imm)) % TWO32; U(x.h.core.nextPc) == t - t % 2
  {
    hide KindOf, Sum, Decoded.Len, GetReg, SetReg, U, Numbers.EvenPart, RegsWith, ExecMemory, ExecCsr, ExecReturn, ExecSystem, AluResult;
    BranchKind(d.op);
    var a, link := GetReg(h.regs, d.rs1), Sum(h.core.pc, d.Len());
    SequentialPc(h.core.pc, d);
    SetRegIsWith(h.regs, d.rd, link);
    SumValues(h.core.pc, d.imm);
    SumValues(a, d.imm);
    EvenPartValue(Sum(a, d.imm));
    assert OnlyRegs(h, Execute(h, d, env), d.rd, link);
  }

  // ---- alignment ----

  function WidthOfSize(sz: Size): int { match sz case Byte => 1 case Half => 2 case Whole => 4 }

  lemma LowBitValue(b: bv8)
    ensures Numbers.Num8(b & 1) == Numbers.Num8(b) % 2
  {}
  lemma LowTwoBitsValue(b: bv8)
    ensures Numbers.Num8(b & 3) == Numbers.Num8(b) % 4
  {}
  lemma LowBitsByByte(va: Word)
    ensures va & 1 == 0 <==> ByteOf(va, 0) & 1 == 0
    ensures va & 3 == 0 <==> ByteOf(va, 0) & 3 == 0
  {}
  lemma ZeroByte(b: bv8)
    ensures b == 0 <==> Numbers.Num8(b) == 0
  {}
  /** The alignment checks: an access of 2 or 4 bytes must be at a multiple of its width. */
  lemma AlignmentRule(va: Word, sz: Size)
    ensures MisalignedFor(va, sz) <==> U(va) % WidthOfSize(sz) != 0
  {
    LowBitsByByte(va);
    hide ByteOf, Numbers.Num8;
    LowBitValue(ByteOf(va, 0));
    LowTwoBitsValue(ByteOf(va, 0));
    ZeroByte(ByteOf(va, 0) & 1);
    ZeroByte(ByteOf(va, 0) & 3);
  }

  // ---- atomics ----

  predicate IsAmo(op: InstrType) {
    || op.AMOSWAP_W? || op.AMOADD_W? || op.AMOXOR_W? || op.AMOAND_W? || op.AMOOR_W?
    || op.AMOMIN_W? || op.AMOMAX_W? || op.AMOMINU_W? || op.AMOMAXU_W?
  }
  /** r is what the operation makes of the word in memory and rs2. */
  ghost predicate AmoRule(op: InstrType, mem: Word, b: Word, r: Word) {
    if op.AMOSWAP_W? then r == b
    else if op.AMOADD_W? then U(r) == (U(mem) + U(b)) % TWO32
    else if op.AMOXOR_W? then forall k: bv5 :: OneBit(r, k) <==> OneBit(mem, k) != OneBit(b, k)
    else if op.AMOAND_W? then forall k: bv5 :: OneBit(r, k) <==> OneBit(mem, k) && OneBit(b, k)
    else if op.AMOOR_W? then forall k: bv5 :: OneBit(r, k) <==> OneBit(mem, k) || OneBit(b, k)
    else if op.AMOMIN_W? then S(r) == if S(mem) <= S(b) then S(mem) else S(b)
    else if op.AMOMAX_W? then S(r) == if S(mem) >= S(b) then S(mem) else S(b)
    else if op.AMOMINU_W? then U(r) == if U(mem) <= U(b) then U(mem) else U(b)
    else U(r) == if U(mem) >= U(b) then U(mem) else U(b)
  }
  lemma AmoBitsObey(op: InstrType, mem: Word, b: Word)
    requires op.AMOXOR_W? || op.AMOAND_W? || op.AMOOR_W?
    ensures AmoRule(op, mem, b, AmoResult(op, mem, b))
  {
    hide OneBit, Numbers.Xor, Numbers.And, Numbers.Or;
    BitsOf(mem, b);
  }
  lemma AmoExtremesObey(op: InstrType, mem: Word, b: Word)
    requires op.AMOMIN_W? || op.AMOMAX_W? || op.AMOMINU_W? || op.AMOMAXU_W?
    ensures AmoRule(op, mem, b, AmoResult(op, mem, b))
  {
    hide U, S, SLt, Numbers.Less;
    OrderValues(mem, b);
    OrderValues(b, mem);
  }
  lemma AmoSumObeys(op: InstrType, mem: Word, b: Word)
    requires op.AMOSWAP_W? || op.AMOADD_W?
    ensures AmoRule(op, mem, b, AmoResult(op, mem, b))
  {
    hide U, Sum;
    SumValues(mem, b);
  }
  lemma AmoObeys(op: InstrType, mem: Word, b: Word)
    requires IsAmo(op)
    ensures AmoRule(op, mem, b, AmoResult(op, mem, b))
  {
    hide AmoRule, AmoResult;
    if op.AMOXOR_W? || op.AMOAND_W? || op.AMOOR_W? {
      AmoBitsObey(op, mem, b);
    } else if op.AMOSWAP_W? || op.AMOADD_W? {
      AmoSumObeys(op, mem, b);
    } else {
      AmoExtremesObey(op, mem, b);
    }
  }
  lemma AmoKind(op: InstrType)
    ensures IsAmo(op) <==> KindOf(op).KAmo?
  {}

  lemma ExecuteAmo(h: Hart, d: Decoded, env: Env)
    requires IsAmo(d.op)
    ensures Execute(h, d, env) == ExecAmo(Sequential(h, d), d, env, GetReg(h.regs, d.rs1), GetReg(h.regs, d.rs2))
  {
    hide IsAmo, KindOf, Sum, Decoded.Len, GetReg, ExecAmo, ExecControl;
    AmoKind(d.op);
  }

  /** An aligned AMO whose store half does not fault reads one physical word, puts it into rd, and stores
      in the same place what its rule makes of that word and rs2. */
  lemma AmoInstruction(h: Hart, d: Decoded, env: Env)
    requires IsAmo(d.op) && CacheWellFormed(h.tlb) && U(GetReg(h.regs, d.rs1)) % 4 == 0
    requires var h1, va := Sequential(h, d), GetReg(h.regs, d.rs1);
      TranslateData(AfterLoad(h1, env, va), env, va, STORE).result.Mapped?
    ensures var h1, va, x := Sequential(h, d), GetReg(h.regs, d.rs1), Execute(h, d, env);
      var o := TranslateData(h1, env, va, LOAD);
      && TrapOfExec(x).NoExc? && o.result.Mapped?
      && var was := Load(o.ram, env.io, o.result.paddr, Whole);
         && RegsWith(h.regs, d.rd, was, x.h.regs)
         && exists w: Word :: AmoRule(d.op, was, GetReg(h.regs, d.rs2), w)
              && x.h.ram == Store(TranslateData(AfterLoad(h1, env, va), env, va, STORE).ram, o.result.paddr, w, Whole)
  {
    hide IsAmo, CacheWellFormed, TranslateData, Load, Store, ExecAmo, AmoResult, AmoRule, GetReg, SetReg, RegsWith, U, Sum, Decoded.Len;
    hide MisalignedFor, Execute;
    var h1, va, v := Sequential(h, d), GetReg(h.regs, d.rs1), GetReg(h.regs, d.rs2);
    ExecuteAmo(h, d, env);
    AlignmentRule(va, Whole);
    AmoFaultIsStoreFault(h1, d, env, va, v);
    AmoRaisesNothing(h1, d, env, va, v);
    AmoIsReadModifyWrite(h1, d, env, va, v);
    var o := TranslateData(h1, env, va, LOAD);
    var was := Load(o.ram, env.io, o.result.paddr, Whole);
    AmoObeys(d.op, was, v);
    SetRegIsWith(h.regs, d.rd, was);
  }

  // ---- loads ----

  predicate IsLoad(op: InstrType) { op.LB? || op.LH? || op.LW? || op.LBU? || op.LHU? }
  function LoadSize(op: InstrType): Size
    requires IsLoad(op)
  {
    if op.LB? || op.LBU? then Byte else if op.LH? || op.LHU? then Half else Whole
  }
  /** n read as a two's-complement number below 2 * m. */
  function Centred(n: int, m: int): int { if n < m then n else n - 2 * m }

  /** r is the value v that was read, sign- or zero-extended as the operation says. */
  predicate LoadRule(op: InstrType, v: Word, r: Word) {
    if op.LB? then S(r) == Centred(U(v) % 0x100, 0x80)
    else if op.LBU? then U(r) == U(v) % 0x100
    else if op.LH? then S(r) == Centred(U(v) % 0x1_0000, 0x8000)
    else if op.LHU? then U(r) == U(v) % 0x1_0000
    else r == v
  }

  function Filled(c: bool): bv8 { if c then 0xFF else 0 }
  lemma ExtendLb(v: Word)
    ensures var f := Filled(ByteOf(v, 0) >= 0x80); Extend(LB, v) == Join(ByteOf(v, 0), f, f, f)
  {}
  lemma ExtendLbu(v: Word)
    ensures Extend(LBU, v) == Join(ByteOf(v, 0), 0, 0, 0)
  {}
  lemma ExtendLhNegative(v: Word)
    requires ByteOf(v, 8) >= 0x80
    ensures Extend(LH, v) == Join(ByteOf(v, 0), ByteOf(v, 8), 0xFF, 0xFF)
  {
    assert v & 0xFFFF & 0x8000 != 0;
  }
  lemma ExtendLhPositive(v: Word)
    requires ByteOf(v, 8) < 0x80
    ensures Extend(LH, v) == Join(ByteOf(v, 0), ByteOf(v, 8), 0, 0)
  {
    assert v & 0xFFFF & 0x8000 == 0;
  }
  lemma ExtendLh(v: Word)
    ensures var f := Filled(ByteOf(v, 8) >= 0x80); Extend(LH, v) == Join(ByteOf(v, 0), ByteOf(v, 8), f, f)
  {
    hide ByteOf, Join, Extend;
    if ByteOf(v, 8) >= 0x80 { ExtendLhNegative(v); } else { ExtendLhPositive(v); }
  }
  lemma ExtendLhu(v: Word)
    ensures Extend(LHU, v) == Join(ByteOf(v, 0), ByteOf(v, 8), 0, 0)
  {}
  lemma HighByte(b: bv8)
    ensures b >= 0x80 <==> Numbers.Num8(b) >= 0x80
  {}
  lemma LowBytes(v: Word)
    ensures U(v) % 0x100 == Numbers.Num8(ByteOf(v, 0))
    ensures U(v) % 0x1_0000 == Numbers.Num8(ByteOf(v, 0)) + Numbers.Num8(ByteOf(v, 8)) * 0x100
  {
    hide ByteOf, Numbers.Num8;
    LowDigits(Numbers.Num8(ByteOf(v, 24)), Numbers.Num8(ByteOf(v, 16)), Numbers.Num8(ByteOf(v, 8)), Numbers.Num8(ByteOf(v, 0)));
  }
  lemma LowDigits(x3: nat, x2: nat, x1: nat, x0: nat)
    requires x1 < 256 && x0 < 256
    ensures (x3 * 0x100_0000 + x2 * 0x1_0000 + x1 * 0x100 + x0) % 0x100 == x0
    ensures (x3 * 0x100_0000 + x2 * 0x1_0000 + x1 * 0x100 + x0) % 0x1_0000 == x1 * 0x100 + x0
  {
    Numbers.FloorIs(x3 * 0x100_0000 + x2 * 0x1_0000 + x1 * 0x100 + x0, 0x100, x3 * 0x1_0000 + x2 * 0x100 + x1, x0);
    Numbers.FloorIs(x3 * 0x100_0000 + x2 * 0x1_0000 + x1 * 0x100 + x0, 0x1_0000, x3 * 0x100 + x2, x1 * 0x100 + x0);
  }
  lemma ExtendByteObeys(op: InstrType, v: Word)
    requires op.LB? || op.LBU?
    ensures LoadRule(op, v, Extend(op, v))
  {
    hide ByteOf, Join, Numbers.Num8, Extend, Numbers.Uint;
    ExtendLb(v);
    ExtendLbu(v);
    LowBytes(v);
    var b := ByteOf(v, 0);
    var f := Filled(b >= 0x80);
    HighByte(b);
    Numbers.Num8Ends();
    Numbers.UintOfJoin(b, f, f, f);
    Numbers.UintOfJoin(b, 0, 0, 0);
  }
  lemma ExtendHalfObeys(op: InstrType, v: Word)
    requires op.LH? || op.LHU?
    ensures LoadRule(op, v, Extend(op, v))
  {
    hide ByteOf, Join, Numbers.Num8, Extend, Numbers.Uint;
    ExtendLh(v);
    ExtendLhu(v);
    LowBytes(v);
    var b, c := ByteOf(v, 0), ByteOf(v, 8);
    var f := Filled(c >= 0x80);
    HighByte(c);
    Numbers.Num8Ends();
    Numbers.UintOfJoin(b, c, f, f);
    Numbers.UintOfJoin(b, c, 0, 0);
  }
  lemma ExtendObeys(op: InstrType, v: Word)
    requires IsLoad(op)
    ensures LoadRule(op, v, Extend(op, v))
  {
    if op.LW? {
      assert Extend(op, v) == v;
    } else {
      hide LoadRule, Extend;
      if op.LB? || op.LBU? { ExtendByteObeys(op, v); } else { ExtendHalfObeys(op, v); }
    }
  }
  lemma LoadKind(op: InstrType)
    requires IsLoad(op)
    ensures KindOf(op) == KLoad(LoadSize(op))
  {}
  lemma ExecuteLoad(h: Hart, d: Decoded, env: Env)
    requires IsLoad(d.op)
    ensures Execute(h, d, env) == ExecLoad(Sequential(h, d), d, env, Sum(GetReg(h.regs, d.rs1), d.imm), LoadSize(d.op))
  {
    hide IsLoad, LoadSize, KindOf, Sum, Decoded.Len, GetReg, ExecLoad, ExecControl;
    LoadKind(d.op);
  }

  /** An aligned load whose translation succeeds puts into rd the bytes at the physical address, as many
      as its width and extended as its rule says, and changes nothing but the translation's own traces. */
  lemma LoadInstruction(h: Hart, d: Decoded, env: Env)
    requires IsLoad(d.op)
    requires var va := Sum(GetReg(h.regs, d.rs1), d.imm);
      U(va) % WidthOfSize(LoadSize(d.op)) == 0 && TranslateData(Sequential(h, d), env, va, LOAD).result.Mapped?
    ensures var va, x := Sum(GetReg(h.regs, d.rs1), d.imm), Execute(h, d, env);
      var o := TranslateData(Sequential(h, d), env, va, LOAD);
      && TrapOfExec(x).NoExc? && x.h.ram == o.ram && x.h.tlb == o.tlb && x.h.lr == h.lr && x.h.core == Sequential(h, d).core
      && exists r: Word :: RegsWith(h.regs, d.rd, r, x.h.regs) && LoadRule(d.op, Load(o.ram, env.io, o.result.paddr, LoadSize(d.op)), r)
  {
    hide IsLoad, LoadSize, LoadRule, TranslateData, Load, Extend, GetReg, SetReg, RegsWith, U, Sum, Decoded.Len, MisalignedFor, Execute, WidthOfSize;
    var h1, va, sz := Sequential(h, d), Sum(GetReg(h.regs, d.rs1), d.imm), LoadSize(d.op);
    ExecuteLoad(h, d, env);
    AlignmentRule(va, sz);
    var o := TranslateData(h1, env, va, LOAD);
    var v := Load(o.ram, env.io, o.result.paddr, sz);
    ExtendObeys(d.op, v);
    SetRegIsWith(h.regs, d.rd, Extend(d.op, v));
  }

  /** What a load from RAM reads: the bytes at the address, lowest first. */
  lemma LoadedBytes(m: Ram, io: Io, a: Word, sz: Size)
    requires InRam(m, a, sz)
    ensures var b := (c: Word) requires At(c) in m => Numbers.Num8(m[At(c)]);
      U(Load(m, io, a, sz)) == match sz
        case Byte => b(a)
        case Half => b(a) + b(a + 1) * 0x100
        case Whole => b(a) + b(a + 1) * 0x100 + b(a + 2) * 0x1_0000 + b(a + 3) * 0x100_0000
  {
    LoadIsJoin(m, io, a, sz);
    Numbers.Num8Ends();
    hide Load, Join, Numbers.Num8;
    if sz.Byte? {
      Numbers.UintOfJoin(m[At(a)], 0, 0, 0);
    } else if sz.Half? {
      Numbers.UintOfJoin(m[At(a)], m[At(a + 1)], 0, 0);
    } else {
      Numbers.UintOfJoin(m[At(a)], m[At(a + 1)], m[At(a + 2)], m[At(a + 3)]);
    }
  }
  lemma LoadIsJoin(m: Ram, io: Io, a: Word, sz: Size)
    requires InRam(m, a, sz)
    ensures Load(m, io, a, sz) == match sz
        case Byte => Join(m[At(a)], 0, 0, 0)
        case Half => Join(m[At(a)], m[At(a + 1)], 0, 0)
        case Whole => Join(m[At(a)], m[At(a + 1)], m[At(a + 2)], m[At(a + 3)])
  {}

  // ---- stores ----

  predicate IsStore(op: InstrType) { op.SB? || op.SH? || op.SW? }
  function StoreSize(op: InstrType): Size
    requires IsStore(op)
  {
    if op.SB? then Byte else if op.SH? then Half else Whole
  }
  /** m' is m with the low bytes of v at a, lowest first, if all of them are in RAM, and m otherwise. */
  ghost predicate StoreRule(m: Ram, a: Word, v: Word, sz: Size, m': Ram) {
    if !InRam(m, a, sz) then m' == m
    else
      && m'.Keys == m.Keys
      && forall c: Word :: At(c) in m ==> m'[At(c)] == Stored(a, v, sz, c, m[At(c)])
  }
  /** The byte at c after the store, `was` before it. */
  function Stored(a: Word, v: Word, sz: Size, c: Word, was: bv8): bv8 {
    if c == a then ByteOf(v, 0)
    else if c == a + 1 && !sz.Byte? then ByteOf(v, 8)
    else if c == a + 2 && sz.Whole? then ByteOf(v, 16)
    else if c == a + 3 && sz.Whole? then ByteOf(v, 24)
    else was
  }
  lemma MaskedBytes(v: Word, sz: Size)
    ensures ByteOf(v & Mask(sz), 0) == ByteOf(v, 0)
    ensures !sz.Byte? ==> ByteOf(v & Mask(sz), 8) == ByteOf(v, 8)
    ensures sz.Whole? ==> v & Mask(sz) == v
  {}
  lemma AddressesDiffer(a: Word)
    ensures a != a + 1 && a != a + 2 && a != a + 3 && a + 1 != a + 2 && a + 1 != a + 3 && a + 2 != a + 3
  {}
  lemma StoreObeys(m: Ram, a: Word, v: Word, sz: Size)
    ensures StoreRule(m, a, v, sz, Store(m, a, v & Mask(sz), sz))
  {
    MaskedBytes(v, sz);
    AddressesDiffer(a);
    hide ByteOf, Mask;
  }
  lemma StoreKind(op: InstrType)
    requires IsStore(op)
    ensures KindOf(op) == KStore(StoreSize(op))
  {}
  lemma ExecuteStore(h: Hart, d: Decoded, env: Env)
    requires IsStore(d.op)
    ensures Execute(h, d, env)
      == ExecStore(Sequential(h, d), d, env, Sum(GetReg(h.regs, d.rs1), d.imm), GetReg(h.regs, d.rs2), StoreSize(d.op))
  {
    hide IsStore, StoreSize, KindOf, Sum, Decoded.Len, GetReg, ExecStore, ExecControl;
    StoreKind(d.op);
  }

  /** An aligned store whose translation succeeds writes the low bytes of rs2, as many as its width, at
      the physical address, and lets the reservation go. */
  lemma StoreInstruction(h: Hart, d: Decoded, env: Env)
    requires IsStore(d.op)
    requires var va := Sum(GetReg(h.regs, d.rs1), d.imm);
      U(va) % WidthOfSize(StoreSize(d.op)) == 0 && TranslateData(Sequential(h, d), env, va, STORE).result.Mapped?
    ensures var va, x := Sum(GetReg(h.regs, d.rs1), d.imm), Execute(h, d, env);
      var o := TranslateData(Sequential(h, d), env, va, STORE);
      && TrapOfExec(x).NoExc? && x.h.tlb == o.tlb && !x.h.lr.valid && x.h.regs == h.regs && x.h.core == Sequential(h, d).core
      && StoreRule(o.ram, o.result.paddr, GetReg(h.regs, d.rs2), StoreSize(d.op), x.h.ram)
  {
    hide IsStore, StoreSize, StoreRule, TranslateData, Store, Mask, GetReg, U, Sum, Decoded.Len, MisalignedFor, Execute, WidthOfSize;
    var h1, va, sz := Sequential(h, d), Sum(GetReg(h.regs, d.rs1), d.imm), StoreSize(d.op);
    ExecuteStore(h, d, env);
    AlignmentRule(va, sz);
    var o := TranslateData(h1, env, va, STORE);
    StoreObeys(o.ram, o.result.paddr, GetReg(h.regs, d.rs2), sz);
  }

  // ---- LR.W ----

  lemma LrScKinds(op: InstrType)
    ensures op.LR_W? <==> KindOf(op).KLr?
    ensures op.SC_W? <==> KindOf(op).KSc?
  {}
  lemma ExecuteLr(h: Hart, d: Decoded, env: Env)
    requires d.op.LR_W?
    ensures Execute(h, d, env) == ExecLr(Sequential(h, d), d, env, GetReg(h.regs, d.rs1))
  {
    hide KindOf, Sum, Decoded.Len, GetReg, ExecLr, ExecControl;
    LrScKinds(d.op);
  }
  lemma WordOfRule(a: Word)
    ensures WordOf(a) & 3 == 0 && WordOf(a) >> 2 == a >> 2
  {}
  /** An aligned LR.W whose translation succeeds puts the word into rd and holds a reservation for it. */
  lemma LrInstruction(h: Hart, d: Decoded, env: Env)
    requires d.op.LR_W? && U(GetReg(h.regs, d.rs1)) % 4 == 0
    requires TranslateData(Sequential(h, d), env, GetReg(h.regs, d.rs1), LOAD).result.Mapped?
    ensures var va, x := GetReg(h.regs, d.rs1), Execute(h, d, env);
      var o := TranslateData(Sequential(h, d), env, va, LOAD);
      && TrapOfExec(x).NoExc? && x.h.ram == o.ram && x.h.tlb == o.tlb && x.h.core == Sequential(h, d).core
      && RegsWith(h.regs, d.rd, Load(o.ram, env.io, o.result.paddr, Whole), x.h.regs)
      && x.h.lr.valid && x.h.lr.addr & 3 == 0 && x.h.lr.addr >> 2 == va >> 2
  {
    hide TranslateData, Load, GetReg, SetReg, RegsWith, U, Sum, Decoded.Len, MisalignedFor, Execute, WordOf;
    var h1, va := Sequential(h, d), GetReg(h.regs, d.rs1);
    ExecuteLr(h, d, env);
    AlignmentRule(va, Whole);
    var o := TranslateData(h1, env, va, LOAD);
    SetRegIsWith(h.regs, d.rd, Load(o.ram, env.io, o.result.paddr, Whole));
    WordOfRule(va);
    SetIsWordOf(h.lr, va);
  }
  lemma SetIsWordOf(r: Reservation, a: Word)
    ensures r.Set(a) == Reservation(WordOf(a), true)
  {}

  // ---- misaligned accesses ----

  lemma ExecuteSc(h: Hart, d: Decoded, env: Env)
    requires d.op.SC_W?
    ensures Execute(h, d, env) == ExecSc(Sequential(h, d), d, env, GetReg(h.regs, d.rs1), GetReg(h.regs, d.rs2))
  {
    hide KindOf, Sum, Decoded.Len, GetReg, ExecSc, ExecControl;
    LrScKinds(d.op);
  }

  predicate IsAccess(op: InstrType) { IsLoad(op) || IsStore(op) || op.LR_W? || op.SC_W? || IsAmo(op) }
  /** The address of an access: rs1, plus the offset for loads and stores. */
  function AddressOf(h: Hart, d: Decoded): Word {
    if IsLoad(d.op) || IsStore(d.op) then Sum(GetReg(h.regs, d.rs1), d.imm) else GetReg(h.regs, d.rs1)
  }
  function AccessSize(op: InstrType): Size
    requires IsAccess(op)
  {
    if IsLoad(op) then LoadSize(op) else if IsStore(op) then StoreSize(op) else Whole
  }
  /** A misaligned access raises code 4 if it reads only and 6 if it writes, with its address, and has done
      nothing yet. */
  lemma MisalignedInstruction(h: Hart, d: Decoded, env: Env)
    requires IsAccess(d.op) && U(AddressOf(h, d)) % WidthOfSize(AccessSize(d.op)) != 0
    ensures Execute(h, d, env) == Raise(Sequential(h, d), if IsLoad(d.op) || d.op.LR_W? then 4 else 6, AddressOf(h, d))
  {
    hide IsLoad, IsStore, IsAmo, LoadSize, StoreSize, Execute, GetReg, SetReg, Sum, Decoded.Len, MisalignedFor, U, WidthOfSize, ReadData, WriteData;
    AlignmentRule(AddressOf(h, d), AccessSize(d.op));
    if IsLoad(d.op) {
      ExecuteLoad(h, d, env);
    } else if IsStore(d.op) {
      StoreIsNoLr(d.op);
      ExecuteStore(h, d, env);
    } else if d.op.LR_W? {
      ExecuteLr(h, d, env);
    } else if d.op.SC_W? {
      ExecuteSc(h, d, env);
    } else {
      ExecuteAmo(h, d, env);
    }
  }
  lemma StoreIsNoLr(op: InstrType)
    requires IsStore(op)
    ensures !op.LR_W?
  {}
}
