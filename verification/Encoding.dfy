/** An assembler for the 32-bit formats of section 2.3 of the RISC-V Unprivileged ISA, and its round trip
    through the decoder (src/cpu/decode.cpp:6-227). */
module Encoding {
  import opened Rv32
  import opened Decode
  import opened Rvc
  import opened Listing

  // ---- where operands go ----

  /** The bits that are operand. */
  function OperandBits(f: Format): Word {
    match f
    case FR => 0x01FF_8F80
    case FI => 0xFFFF_8F80
    case FS => 0xFFFF_8F80
    case FB => 0xFFFF_8F80
    case FU => 0xFFFF_FF80
    case FJ => 0xFFFF_FF80
    case FShift => 0x01FF_8F80
    case FCsr => 0xFFFF_8F80
    case FPair => 0x01FF_8F80
    case FNone => 0
  }
  function PlaceR(rd: Word, rs1: Word, rs2: Word): Word { (rd << 7) | (rs1 << 15) | (rs2 << 20) }
  function PlaceI(rd: Word, rs1: Word, imm: Word): Word { (rd << 7) | (rs1 << 15) | (imm << 20) }
  function PlaceS(rs1: Word, rs2: Word, imm: Word): Word {
    ((imm & 0x1F) << 7) | (rs1 << 15) | (rs2 << 20) | ((imm >> 5) << 25)
  }
  function PlaceB(rs1: Word, rs2: Word, imm: Word): Word {
    (((imm >> 11) & 1) << 7) | (((imm >> 1) & 0xF) << 8) | (rs1 << 15) | (rs2 << 20) | (((imm >> 5) & 0x3F) << 25) | ((imm >> 12) << 31)
  }
  function PlaceU(rd: Word, imm: Word): Word { (rd << 7) | imm }
  function PlaceJ(rd: Word, imm: Word): Word {
    (rd << 7) | (((imm >> 12) & 0xFF) << 12) | (((imm >> 11) & 1) << 20) | (((imm >> 1) & 0x3FF) << 21) | ((imm >> 20) << 31)
  }
  function Place(f: Format, x: Fields): Word {
    match f
    case FR => PlaceR(x.rd, x.rs1, x.rs2)
    case FI => PlaceI(x.rd, x.rs1, x.imm)
    case FS => PlaceS(x.rs1, x.rs2, x.imm)
    case FB => PlaceB(x.rs1, x.rs2, x.imm)
    case FU => PlaceU(x.rd, x.imm)
    case FJ => PlaceJ(x.rd, x.imm)
    case FShift => PlaceR(x.rd, x.rs1, x.imm)
    case FCsr => PlaceI(x.rd, x.rs1, x.csr)
    case FPair => PlaceR(0, x.rs1, x.rs2)
    case FNone => 0
  }

  // ---- what can be encoded ----

  predicate IsReg(r: Word) { r < 32 }
  /** Between -2048 and 2047. */
  predicate Fits12(x: Word) { x < 0x800 || x >= 0xFFFF_F800 }
  /** Even, and between -4096 and 4094. */
  predicate Fits13(x: Word) { x & 1 == 0 && (x < 0x1000 || x >= 0xFFFF_F000) }
  /** Even, and between -2^20 and 2^20 - 2. */
  predicate Fits21(x: Word) { x & 1 == 0 && (x < 0x10_0000 || x >= 0xFFF0_0000) }
  predicate FitsU(x: Word) { x & 0xFFF == 0 }
  predicate FitsCsr(x: Word) { x < 0x1000 }

  /** The fields of the format are in range and the others are 0. */
  predicate Encodable(f: Format, x: Fields) {
    match f
    case FR => IsReg(x.rd) && IsReg(x.rs1) && IsReg(x.rs2) && x.imm == 0 && x.csr == 0
    case FI => IsReg(x.rd) && IsReg(x.rs1) && x.rs2 == 0 && Fits12(x.imm) && x.csr == 0
    case FS => x.rd == 0 && IsReg(x.rs1) && IsReg(x.rs2) && Fits12(x.imm) && x.csr == 0
    case FB => x.rd == 0 && IsReg(x.rs1) && IsReg(x.rs2) && Fits13(x.imm) && x.csr == 0
    case FU => IsReg(x.rd) && x.rs1 == 0 && x.rs2 == 0 && FitsU(x.imm) && x.csr == 0
    case FJ => IsReg(x.rd) && x.rs1 == 0 && x.rs2 == 0 && Fits21(x.imm) && x.csr == 0
    case FShift => IsReg(x.rd) && IsReg(x.rs1) && x.rs2 == 0 && IsReg(x.imm) && x.csr == 0
    case FCsr => IsReg(x.rd) && IsReg(x.rs1) && x.rs2 == 0 && x.imm == x.rs1 && FitsCsr(x.csr)
    case FPair => x.rd == 0 && IsReg(x.rs1) && IsReg(x.rs2) && x.imm == 0 && x.csr == 0
    case FNone => x == Fields(0, 0, 0, 0, 0)
  }

  // ---- the assembler ----

  /** Opcode and function bits. */
  function Key(op: InstrType): Word {
    if IsControlOrMemory(op) then ControlOrMemoryKey(op) else if IsAlu(op) then AluKey(op) else SystemKey(op)
  }
  function ControlOrMemoryKey(op: InstrType): Word {
    if IsUpper(op) then UpperKey(op) else if IsBranch(op) then BranchKey(op) else if IsLoadOp(op) then LoadKey(op)
    else if IsStoreOp(op) then StoreKey(op) else AtomicKey(op)
  }
  function AluKey(op: InstrType): Word {
    if IsImmOp(op) then ImmKey(op) else if IsShiftImm(op) then ShiftImmKey(op) else if IsRegOp(op) then RegKey(op) else MulKey(op)
  }
  function SystemKey(op: InstrType): Word {
    if IsPriv(op) then PrivKey(op) else if IsCsrOp(op) then CsrKey(op)
    else if op.SFENCE_VMA? then 0x1200_0073 else if op.FENCEI? then 0x100F else 0x0F
  }
  function Glue(key: Word, operands: Word): Word { key | operands }
  function Encode(op: InstrType, x: Fields): Word { Glue(Key(op), Place(FormatOf(op), x)) }

  /** The instruction that the word stands for. */
  function Assembled(op: InstrType, x: Fields): Decoded {
    Decoded(op, x.rd, x.rs1, x.rs2, x.imm, x.csr, Encode(op, x), false)
  }

  // ---- operands come back ----

  /** No bit of w is an operand bit of the format. */
  predicate Clear(w: Word, f: Format) { w & OperandBits(f) == 0 }

  lemma BackR(k: Word, rd: Word, rs1: Word, rs2: Word)
    requires k & 0x01FF_8F80 == 0 && IsReg(rd) && IsReg(rs1) && IsReg(rs2)
    ensures var i := Glue(k, PlaceR(rd, rs1, rs2)); Reg(i, 7) == rd && Reg(i, 15) == rs1 && Reg(i, 20) == rs2
  {}
  lemma BackIRegs(k: Word, rd: Word, rs1: Word, imm: Word)
    requires k & 0xFFFF_8F80 == 0 && IsReg(rd) && IsReg(rs1)
    ensures var i := Glue(k, PlaceI(rd, rs1, imm)); Reg(i, 7) == rd && Reg(i, 15) == rs1
  {}
  lemma BackIForward(k: Word, rd: Word, rs1: Word, imm: Word)
    requires k & 0xFFFF_8F80 == 0 && IsReg(rd) && IsReg(rs1) && imm < 0x800
    ensures ListI(Glue(k, PlaceI(rd, rs1, imm))) == imm
  {
    assert !OneBit(Glue(k, PlaceI(rd, rs1, imm)), 31);
  }
  lemma BackIBackward(k: Word, rd: Word, rs1: Word, imm: Word)
    requires k & 0xFFFF_8F80 == 0 && IsReg(rd) && IsReg(rs1) && imm >= 0xFFFF_F800
    ensures ListI(Glue(k, PlaceI(rd, rs1, imm))) == imm
  {
    assert OneBit(Glue(k, PlaceI(rd, rs1, imm)), 31);
  }
  lemma BackI(k: Word, rd: Word, rs1: Word, imm: Word)
    requires k & 0xFFFF_8F80 == 0 && IsReg(rd) && IsReg(rs1) && Fits12(imm)
    ensures ListI(Glue(k, PlaceI(rd, rs1, imm))) == imm
  {
    hide ListI, Glue, PlaceI, IsReg;
    if imm < 0x8000_0000 { BackIForward(k, rd, rs1, imm); } else { BackIBackward(k, rd, rs1, imm); }
  }
  lemma BackCsr(k: Word, rd: Word, rs1: Word, csr: Word)
    requires k & 0xFFFF_8F80 == 0 && IsReg(rd) && IsReg(rs1) && FitsCsr(csr)
    ensures Take(Glue(k, PlaceI(rd, rs1, csr)), 20, 0xFFF, 0) == csr
  {}
  lemma BackSRegs(k: Word, rs1: Word, rs2: Word, imm: Word)
    requires k & 0xFFFF_8F80 == 0 && IsReg(rs1) && IsReg(rs2)
    ensures var i := Glue(k, PlaceS(rs1, rs2, imm)); Reg(i, 15) == rs1 && Reg(i, 20) == rs2
  {}
  lemma BackSForward(k: Word, rs1: Word, rs2: Word, imm: Word)
    requires k & 0xFFFF_8F80 == 0 && IsReg(rs1) && IsReg(rs2) && imm < 0x800
    ensures ListS(Glue(k, PlaceS(rs1, rs2, imm))) == imm
  {
    assert !OneBit(Glue(k, PlaceS(rs1, rs2, imm)), 31);
  }
  lemma BackSBackward(k: Word, rs1: Word, rs2: Word, imm: Word)
    requires k & 0xFFFF_8F80 == 0 && IsReg(rs1) && IsReg(rs2) && imm >= 0xFFFF_F800
    ensures ListS(Glue(k, PlaceS(rs1, rs2, imm))) == imm
  {
    assert OneBit(Glue(k, PlaceS(rs1, rs2, imm)), 31);
  }
  lemma BackS(k: Word, rs1: Word, rs2: Word, imm: Word)
    requires k & 0xFFFF_8F80 == 0 && IsReg(rs1) && IsReg(rs2) && Fits12(imm)
    ensures ListS(Glue(k, PlaceS(rs1, rs2, imm))) == imm
  {
    hide ListS, Glue, PlaceS, IsReg;
    if imm < 0x8000_0000 { BackSForward(k, rs1, rs2, imm); } else { BackSBackward(k, rs1, rs2, imm); }
  }
  lemma BackBRegs(k: Word, rs1: Word, rs2: Word, imm: Word)
    requires k & 0xFFFF_8F80 == 0 && IsReg(rs1) && IsReg(rs2)
    ensures var i := Glue(k, PlaceB(rs1, rs2, imm)); Reg(i, 15) == rs1 && Reg(i, 20) == rs2
  {}
  lemma BackBForward(k: Word, rs1: Word, rs2: Word, imm: Word)
    requires k & 0xFFFF_8F80 == 0 && IsReg(rs1) && IsReg(rs2) && imm & 1 == 0 && imm < 0x1000
    ensures ListB(Glue(k, PlaceB(rs1, rs2, imm))) == imm
  {
    assert !OneBit(Glue(k, PlaceB(rs1, rs2, imm)), 31);
  }
  lemma BackBBackward(k: Word, rs1: Word, rs2: Word, imm: Word)
    requires k & 0xFFFF_8F80 == 0 && IsReg(rs1) && IsReg(rs2) && imm & 1 == 0 && imm >= 0xFFFF_F000
    ensures ListB(Glue(k, PlaceB(rs1, rs2, imm))) == imm
  {
    assert OneBit(Glue(k, PlaceB(rs1, rs2, imm)), 31);
  }
  lemma BackB(k: Word, rs1: Word, rs2: Word, imm: Word)
    requires k & 0xFFFF_8F80 == 0 && IsReg(rs1) && IsReg(rs2) && Fits13(imm)
    ensures ListB(Glue(k, PlaceB(rs1, rs2, imm))) == imm
  {
    hide ListB, Glue, PlaceB, IsReg;
    if imm < 0x8000_0000 { BackBForward(k, rs1, rs2, imm); } else { BackBBackward(k, rs1, rs2, imm); }
  }
  lemma BackU(k: Word, rd: Word, imm: Word)
    requires k & 0xFFFF_FF80 == 0 && IsReg(rd) && FitsU(imm)
    ensures var i := Glue(k, PlaceU(rd, imm)); Reg(i, 7) == rd && ListU(i) == imm
  {}
  lemma BackJReg(k: Word, rd: Word, imm: Word)
    requires k & 0xFFFF_FF80 == 0 && IsReg(rd)
    ensures Reg(Glue(k, PlaceJ(rd, imm)), 7) == rd
  {}
  lemma BackJForward(k: Word, rd: Word, imm: Word)
    requires k & 0xFFFF_FF80 == 0 && IsReg(rd) && imm & 1 == 0 && imm < 0x10_0000
    ensures ListJ(Glue(k, PlaceJ(rd, imm))) == imm
  {
    assert !OneBit(Glue(k, PlaceJ(rd, imm)), 31);
  }
  lemma BackJBackward(k: Word, rd: Word, imm: Word)
    requires k & 0xFFFF_FF80 == 0 && IsReg(rd) && imm & 1 == 0 && imm >= 0xFFF0_0000
    ensures ListJ(Glue(k, PlaceJ(rd, imm))) == imm
  {
    assert OneBit(Glue(k, PlaceJ(rd, imm)), 31);
  }
  lemma BackJ(k: Word, rd: Word, imm: Word)
    requires k & 0xFFFF_FF80 == 0 && IsReg(rd) && Fits21(imm)
    ensures ListJ(Glue(k, PlaceJ(rd, imm))) == imm
  {
    hide ListJ, Glue, PlaceJ, IsReg;
    if imm < 0x8000_0000 { BackJForward(k, rd, imm); } else { BackJBackward(k, rd, imm); }
  }
  lemma ZeroIsReg()
    ensures IsReg(0)
  {}
  lemma FieldsComeBack(k: Word, f: Format, x: Fields)
    requires Clear(k, f) && Encodable(f, x)
    ensures FieldsOf(Glue(k, Place(f, x)), f) == x
  {
    hide Glue, PlaceR, PlaceI, PlaceS, PlaceB, PlaceU, PlaceJ, Reg, Take, ListI, ListS, ListB, ListU, ListJ, IsReg, Fits12, Fits13, Fits21, FitsU, FitsCsr;
    if f.FR? {
      BackR(k, x.rd, x.rs1, x.rs2);
    } else if f.FI? {
      BackIRegs(k, x.rd, x.rs1, x.imm);
      BackI(k, x.rd, x.rs1, x.imm);
    } else if f.FS? {
      BackSRegs(k, x.rs1, x.rs2, x.imm);
      BackS(k, x.rs1, x.rs2, x.imm);
    } else if f.FB? {
      BackBRegs(k, x.rs1, x.rs2, x.imm);
      BackB(k, x.rs1, x.rs2, x.imm);
    } else if f.FU? {
      BackU(k, x.rd, x.imm);
    } else if f.FJ? {
      BackJReg(k, x.rd, x.imm);
      BackJ(k, x.rd, x.imm);
    } else if f.FShift? {
      BackR(k, x.rd, x.rs1, x.imm);
    } else if f.FCsr? {
      BackIRegs(k, x.rd, x.rs1, x.csr);
      BackCsr(k, x.rd, x.rs1, x.csr);
    } else if f.FPair? {
      ZeroIsReg();
      BackR(k, 0, x.rs1, x.rs2);
    }
  }

  // ---- operands leave the key alone ----

  lemma OnlyR(rd: Word, rs1: Word, rs2: Word)
    requires IsReg(rd) && IsReg(rs1) && IsReg(rs2)
    ensures PlaceR(rd, rs1, rs2) & 0xFE00_707F == 0
  {}
  lemma OnlyI(rd: Word, rs1: Word, imm: Word)
    requires IsReg(rd) && IsReg(rs1)
    ensures PlaceI(rd, rs1, imm) & 0x707F == 0
  {}
  lemma OnlyS(rs1: Word, rs2: Word, imm: Word)
    requires IsReg(rs1) && IsReg(rs2)
    ensures PlaceS(rs1, rs2, imm) & 0x707F == 0
  {}
  lemma OnlyB(rs1: Word, rs2: Word, imm: Word)
    requires IsReg(rs1) && IsReg(rs2)
    ensures PlaceB(rs1, rs2, imm) & 0x707F == 0
  {}
  lemma OnlyU(rd: Word, imm: Word)
    requires IsReg(rd) && FitsU(imm)
    ensures PlaceU(rd, imm) & 0x7F == 0
  {}
  lemma OnlyJ(rd: Word, imm: Word)
    requires IsReg(rd)
    ensures PlaceJ(rd, imm) & 0x7F == 0
  {}
  /** The bits that no operand of the format uses. */
  function KeyBits(f: Format): Word {
    match f
    case FR => 0xFE00_707F
    case FI => 0x707F
    case FS => 0x707F
    case FB => 0x707F
    case FU => 0x7F
    case FJ => 0x7F
    case FShift => 0xFE00_707F
    case FCsr => 0x707F
    case FPair => 0xFE00_707F
    case FNone => 0xFFFF_FFFF
  }
  predicate Avoids(p: Word, mask: Word) { p & mask == 0 }
  lemma ZeroAvoids(mask: Word)
    ensures Avoids(0, mask)
  {}
  lemma PlaceAvoids(f: Format, x: Fields)
    requires Encodable(f, x)
    ensures Avoids(Place(f, x), KeyBits(f))
  {
    hide PlaceR, PlaceI, PlaceS, PlaceB, PlaceU, PlaceJ, IsReg, Fits12, Fits13, Fits21, FitsU, FitsCsr;
    if f.FR? {
      OnlyR(x.rd, x.rs1, x.rs2);
    } else if f.FI? {
      OnlyI(x.rd, x.rs1, x.imm);
    } else if f.FS? {
      OnlyS(x.rs1, x.rs2, x.imm);
    } else if f.FB? {
      OnlyB(x.rs1, x.rs2, x.imm);
    } else if f.FU? {
      OnlyU(x.rd, x.imm);
    } else if f.FJ? {
      OnlyJ(x.rd, x.imm);
    } else if f.FShift? {
      OnlyR(x.rd, x.rs1, x.imm);
    } else if f.FCsr? {
      OnlyI(x.rd, x.rs1, x.csr);
    } else if f.FPair? {
      ZeroIsReg();
      OnlyR(0, x.rs1, x.rs2);
    } else {
      ZeroAvoids(KeyBits(f));
    }
  }

  /** A row is met by its key with any operands. */
  lemma GluedRow(k: Word, p: Word, mask: Word, avoided: Word)
    requires Avoids(p, avoided) && mask & avoided == mask && k & mask == k
    ensures Row(Glue(k, p), mask, k)
  {}

  // ---- every row is reached ----

  /** The word decodes to the operation, and the key holds no operand bit. */
  predicate Reaches(key: Word, f: Format, op: InstrType, x: Fields) {
    Opcoded(Glue(key, Place(f, x))) == op && FormatOf(op) == f && Clear(key, f)
  }

  lemma BranchKeys(op: InstrType)
    requires IsBranch(op)
    ensures Clear(BranchKey(op), FB) && BranchKey(op) & 0x707F == BranchKey(op)
  {}
  lemma BranchEncodes(op: InstrType, x: Fields)
    requires IsBranch(op) && Encodable(FormatOf(op), x)
    ensures Reaches(BranchKey(op), FB, op, x)
  {
    hide FormatOf, IsBranch, BranchKey, Glue, Place, Encodable, Row, Clear, Opcoded, Avoids;
    FormatBranch(op);
    BranchKeys(op);
    PlaceAvoids(FB, x);
    var i := Glue(BranchKey(op), Place(FB, x));
    GluedRow(BranchKey(op), Place(FB, x), 0x707F, KeyBits(FB));
    BranchGroup(i, op);
  }
  lemma LoadKeys(op: InstrType)
    requires IsLoadOp(op)
    ensures Clear(LoadKey(op), FI) && LoadKey(op) & 0x707F == LoadKey(op)
  {}
  lemma LoadEncodes(op: InstrType, x: Fields)
    requires IsLoadOp(op) && Encodable(FormatOf(op), x)
    ensures Reaches(LoadKey(op), FI, op, x)
  {
    hide FormatOf, IsLoadOp, LoadKey, Glue, Place, Encodable, Row, Clear, Opcoded, Avoids;
    FormatLoad(op);
    LoadKeys(op);
    PlaceAvoids(FI, x);
    var i := Glue(LoadKey(op), Place(FI, x));
    GluedRow(LoadKey(op), Place(FI, x), 0x707F, KeyBits(FI));
    LoadGroup(i, op);
  }
  lemma StoreKeys(op: InstrType)
    requires IsStoreOp(op)
    ensures Clear(StoreKey(op), FS) && StoreKey(op) & 0x707F == StoreKey(op)
  {}
  lemma StoreEncodes(op: InstrType, x: Fields)
    requires IsStoreOp(op) && Encodable(FormatOf(op), x)
    ensures Reaches(StoreKey(op), FS, op, x)
  {
    hide FormatOf, IsStoreOp, StoreKey, Glue, Place, Encodable, Row, Clear, Opcoded, Avoids;
    FormatStore(op);
    StoreKeys(op);
    PlaceAvoids(FS, x);
    var i := Glue(StoreKey(op), Place(FS, x));
    GluedRow(StoreKey(op), Place(FS, x), 0x707F, KeyBits(FS));
    StoreGroup(i, op);
  }
  lemma ImmKeys(op: InstrType)
    requires IsImmOp(op)
    ensures Clear(ImmKey(op), FI) && ImmKey(op) & 0x707F == ImmKey(op)
  {}
  lemma ImmEncodes(op: InstrType, x: Fields)
    requires IsImmOp(op) && Encodable(FormatOf(op), x)
    ensures Reaches(ImmKey(op), FI, op, x)
  {
    hide FormatOf, IsImmOp, ImmKey, Glue, Place, Encodable, Row, Clear, Opcoded, Avoids;
    FormatLoad(op);
    ImmKeys(op);
    PlaceAvoids(FI, x);
    var i := Glue(ImmKey(op), Place(FI, x));
    GluedRow(ImmKey(op), Place(FI, x), 0x707F, KeyBits(FI));
    ImmGroup(i, op);
  }
  lemma ShiftImmKeys(op: InstrType)
    requires IsShiftImm(op)
    ensures Clear(ShiftImmKey(op), FShift) && ShiftImmKey(op) & 0xFE00_707F == ShiftImmKey(op)
  {}
  lemma ShiftImmEncodes(op: InstrType, x: Fields)
    requires IsShiftImm(op) && Encodable(FormatOf(op), x)
    ensures Reaches(ShiftImmKey(op), FShift, op, x)
  {
    hide FormatOf, IsShiftImm, ShiftImmKey, Glue, Place, Encodable, Row, Clear, Opcoded, Avoids;
    FormatShiftImm(op);
    ShiftImmKeys(op);
    PlaceAvoids(FShift, x);
    var i := Glue(ShiftImmKey(op), Place(FShift, x));
    GluedRow(ShiftImmKey(op), Place(FShift, x), 0xFE00_707F, KeyBits(FShift));
    ShiftImmGroup(i, op);
  }
  lemma RegKeys(op: InstrType)
    requires IsRegOp(op)
    ensures Clear(RegKey(op), FR) && RegKey(op) & 0xFE00_707F == RegKey(op)
  {}
  lemma RegEncodes(op: InstrType, x: Fields)
    requires IsRegOp(op) && Encodable(FormatOf(op), x)
    ensures Reaches(RegKey(op), FR, op, x)
  {
    hide FormatOf, IsRegOp, RegKey, Glue, Place, Encodable, Row, Clear, Opcoded, Avoids;
    FormatReg(op);
    RegKeys(op);
    PlaceAvoids(FR, x);
    var i := Glue(RegKey(op), Place(FR, x));
    GluedRow(RegKey(op), Place(FR, x), 0xFE00_707F, KeyBits(FR));
    RegGroup(i, op);
  }
  lemma MulKeys(op: InstrType)
    requires IsMulOp(op)
    ensures Clear(MulKey(op), FR) && MulKey(op) & 0xFE00_707F == MulKey(op)
  {}
  lemma MulEncodes(op: InstrType, x: Fields)
    requires IsMulOp(op) && Encodable(FormatOf(op), x)
    ensures Reaches(MulKey(op), FR, op, x)
  {
    hide FormatOf, IsMulOp, MulKey, Glue, Place, Encodable, Row, Clear, Opcoded, Avoids;
    FormatReg(op);
    MulKeys(op);
    PlaceAvoids(FR, x);
    var i := Glue(MulKey(op), Place(FR, x));
    GluedRow(MulKey(op), Place(FR, x), 0xFE00_707F, KeyBits(FR));
    MulGroup(i, op);
  }
  lemma AtomicKeys(op: InstrType)
    requires IsAtomic(op)
    ensures Clear(AtomicKey(op), FR) && AtomicKey(op) & 0xF800_707F == AtomicKey(op)
  {}
  lemma AtomicEncodes(op: InstrType, x: Fields)
    requires IsAtomic(op) && Encodable(FormatOf(op), x)
    ensures Reaches(AtomicKey(op), FR, op, x)
  {
    hide FormatOf, IsAtomic, AtomicKey, Glue, Place, Encodable, Row, Clear, Opcoded, Avoids;
    FormatAtomic(op);
    AtomicKeys(op);
    PlaceAvoids(FR, x);
    var i := Glue(AtomicKey(op), Place(FR, x));
    GluedRow(AtomicKey(op), Place(FR, x), 0xF800_707F, KeyBits(FR));
    AtomicGroup(i, op);
  }
  lemma CsrKeys(op: InstrType)
    requires IsCsrOp(op)
    ensures Clear(CsrKey(op), FCsr) && CsrKey(op) & 0x707F == CsrKey(op)
  {}
  lemma CsrEncodes(op: InstrType, x: Fields)
    requires IsCsrOp(op) && Encodable(FormatOf(op), x)
    ensures Reaches(CsrKey(op), FCsr, op, x)
  {
    hide FormatOf, IsCsrOp, CsrKey, Glue, Place, Encodable, Row, Clear, Opcoded, Avoids;
    FormatCsr(op);
    CsrKeys(op);
    PlaceAvoids(FCsr, x);
    var i := Glue(CsrKey(op), Place(FCsr, x));
    GluedRow(CsrKey(op), Place(FCsr, x), 0x707F, KeyBits(FCsr));
    CsrGroup(i, op);
  }
  lemma PrivKeys(op: InstrType)
    requires IsPriv(op)
    ensures Clear(PrivKey(op), FNone) && PrivKey(op) & 0xFFF0_707F == PrivKey(op)
  {}
  lemma PrivEncodes(op: InstrType, x: Fields)
    requires IsPriv(op) && Encodable(FormatOf(op), x)
    ensures Reaches(PrivKey(op), FNone, op, x)
  {
    hide FormatOf, IsPriv, PrivKey, Glue, Place, Encodable, Row, Clear, Opcoded, Avoids;
    FormatBare(op);
    PrivKeys(op);
    PlaceAvoids(FNone, x);
    var i := Glue(PrivKey(op), Place(FNone, x));
    GluedRow(PrivKey(op), Place(FNone, x), 0xFFF0_707F, KeyBits(FNone));
    PrivGroup(i, op);
  }
  lemma UpperKeys(op: InstrType)
    requires IsUpper(op)
    ensures Clear(UpperKey(op), FU) && Clear(UpperKey(op), FJ) && Clear(UpperKey(op), FI)
    ensures UpperKey(op) & 0x7F == UpperKey(op)
  {}
  lemma UpperReaches(op: InstrType, f: Format, x: Fields)
    requires IsUpper(op) && FormatOf(op) == f && (f.FU? || f.FJ? || f.FI?) && Encodable(f, x)
    ensures Reaches(UpperKey(op), f, op, x)
  {
    hide FormatOf, IsUpper, UpperKey, Glue, Place, Encodable, Row, Clear, Opcoded, Avoids;
    UpperKeys(op);
    PlaceAvoids(f, x);
    GluedRow(UpperKey(op), Place(f, x), 0x7F, KeyBits(f));
    UpperGroup(Glue(UpperKey(op), Place(f, x)), op);
  }
  lemma UpperEncodes(op: InstrType, x: Fields)
    requires IsUpper(op) && Encodable(FormatOf(op), x)
    ensures Reaches(UpperKey(op), FormatOf(op), op, x)
  {
    hide FormatOf, Encodable, UpperKey, Reaches;
    FormatUpper();
    FormatLoad(JALR);
    UpperReaches(op, FormatOf(op), x);
  }
  lemma OtherKeys()
    ensures Clear(0x1200_0073, FPair) && Clear(0x100F, FNone) && Clear(0x0F, FNone)
    ensures Row(Glue(0x100F, 0), 0x707F, 0x100F) && Row(Glue(0x0F, 0), 0x7F, 0x0F) && !Row(Glue(0x0F, 0), 0x7000, 0x1000)
  {}
  lemma SfenceEncodes(x: Fields)
    requires Encodable(FPair, x)
    ensures Reaches(0x1200_0073, FPair, SFENCE_VMA, x)
  {
    hide FormatOf, Glue, Place, Encodable, Row, Clear, Opcoded, Avoids;
    FormatUpper();
    OtherKeys();
    PlaceAvoids(FPair, x);
    GluedRow(0x1200_0073, Place(FPair, x), 0xFE00_707F, KeyBits(FPair));
    OtherGroup(Glue(0x1200_0073, Place(FPair, x)), SFENCE_VMA);
  }
  lemma FencesEncode(op: InstrType, x: Fields)
    requires (op.FENCE? || op.FENCEI?) && Encodable(FNone, x)
    ensures Reaches(if op.FENCEI? then 0x100F else 0x0F, FNone, op, x)
  {
    hide FormatOf, Glue, Encodable, Row, Clear, Opcoded;
    FormatFence();
    OtherKeys();
    OtherGroup(Glue(if op.FENCEI? then 0x100F else 0x0F, 0), op);
  }

  lemma ControlEncodes(op: InstrType, x: Fields)
    requires IsControlOrMemory(op) && Encodable(FormatOf(op), x)
    ensures Reaches(ControlOrMemoryKey(op), FormatOf(op), op, x)
  {
    hide IsUpper, IsBranch, IsLoadOp, IsStoreOp, IsAtomic, UpperKey, BranchKey, LoadKey, StoreKey, AtomicKey, FormatOf, Encodable, Opcoded, Glue, Place, Clear;
    if IsUpper(op) {
      UpperEncodes(op, x);
    } else if IsBranch(op) {
      BranchEncodes(op, x);
    } else if IsLoadOp(op) {
      LoadEncodes(op, x);
    } else if IsStoreOp(op) {
      StoreEncodes(op, x);
    } else {
      AtomicEncodes(op, x);
    }
  }
  lemma AluEncodes(op: InstrType, x: Fields)
    requires IsAlu(op) && Encodable(FormatOf(op), x)
    ensures Reaches(AluKey(op), FormatOf(op), op, x)
  {
    hide IsImmOp, IsShiftImm, IsRegOp, IsMulOp, ImmKey, ShiftImmKey, RegKey, MulKey, FormatOf, Encodable, Opcoded, Glue, Place, Clear;
    if IsImmOp(op) {
      ImmEncodes(op, x);
    } else if IsShiftImm(op) {
      ShiftImmEncodes(op, x);
    } else if IsRegOp(op) {
      RegEncodes(op, x);
    } else {
      MulEncodes(op, x);
    }
  }
  lemma SystemEncodes(op: InstrType, x: Fields)
    requires (IsPriv(op) || IsCsrOp(op) || op.SFENCE_VMA? || op.FENCE? || op.FENCEI?) && Encodable(FormatOf(op), x)
    ensures Reaches(SystemKey(op), FormatOf(op), op, x)
  {
    hide IsPriv, IsCsrOp, PrivKey, CsrKey, FormatOf, Encodable, Opcoded, Glue, Place, Clear;
    FormatUpper();
    FormatFence();
    if IsPriv(op) {
      PrivEncodes(op, x);
    } else if IsCsrOp(op) {
      CsrEncodes(op, x);
    } else if op.SFENCE_VMA? {
      SfenceEncodes(x);
    } else {
      FencesEncode(op, x);
    }
  }
  lemma EveryOpHasAGroup(op: InstrType)
    requires !op.ILLEGAL?
    ensures IsControlOrMemory(op) || IsAlu(op) || IsPriv(op) || IsCsrOp(op) || op.SFENCE_VMA? || op.FENCE? || op.FENCEI?
  {}
  lemma Encodes(op: InstrType, x: Fields)
    requires !op.ILLEGAL? && Encodable(FormatOf(op), x)
    ensures Reaches(Key(op), FormatOf(op), op, x)
  {
    hide IsControlOrMemory, IsAlu, IsPriv, IsCsrOp, ControlOrMemoryKey, AluKey, SystemKey, FormatOf, Encodable, Reaches;
    EveryOpHasAGroup(op);
    if IsControlOrMemory(op) {
      ControlEncodes(op, x);
    } else if IsAlu(op) {
      AluEncodes(op, x);
    } else {
      SystemEncodes(op, x);
    }
  }

  // ---- assembled words are not compressed ----

  predicate Full(w: Word) { w & 3 == 3 }
  lemma GluedIsFull(k: Word, p: Word)
    requires Full(k)
    ensures Full(Glue(k, p))
  {}
  lemma UpperIsFull(op: InstrType)
    ensures Full(UpperKey(op))
  {}
  lemma BranchIsFull(op: InstrType)
    ensures Full(BranchKey(op))
  {}
  lemma LoadIsFull(op: InstrType)
    ensures Full(LoadKey(op))
  {}
  lemma StoreIsFull(op: InstrType)
    ensures Full(StoreKey(op))
  {}
  lemma AtomicIsFull(op: InstrType)
    ensures Full(AtomicKey(op))
  {}
  lemma ImmIsFull(op: InstrType)
    ensures Full(ImmKey(op))
  {}
  lemma ShiftImmIsFull(op: InstrType)
    ensures Full(ShiftImmKey(op))
  {}
  lemma RegIsFull(op: InstrType)
    ensures Full(RegKey(op))
  {}
  lemma MulIsFull(op: InstrType)
    ensures Full(MulKey(op))
  {}
  lemma ControlKeyIsFull(op: InstrType)
    ensures Full(ControlOrMemoryKey(op))
  {
    hide Full, IsUpper, IsBranch, IsLoadOp, IsStoreOp, UpperKey, BranchKey, LoadKey, StoreKey, AtomicKey;
    UpperIsFull(op);
    BranchIsFull(op);
    LoadIsFull(op);
    StoreIsFull(op);
    AtomicIsFull(op);
  }
  lemma AluKeyIsFull(op: InstrType)
    ensures Full(AluKey(op))
  {
    hide Full, IsImmOp, IsShiftImm, IsRegOp, ImmKey, ShiftImmKey, RegKey, MulKey;
    ImmIsFull(op);
    ShiftImmIsFull(op);
    RegIsFull(op);
    MulIsFull(op);
  }
  lemma SystemKeyIsFull(op: InstrType)
    ensures Full(SystemKey(op))
  {
    hide IsPriv, IsCsrOp;
  }
  lemma EncodeIsFull(op: InstrType, x: Fields)
    ensures Full(Encode(op, x))
  {
    hide Full, Glue, Place, FormatOf, IsControlOrMemory, IsAlu, ControlOrMemoryKey, AluKey, SystemKey;
    ControlKeyIsFull(op);
    AluKeyIsFull(op);
    SystemKeyIsFull(op);
    GluedIsFull(Key(op), Place(FormatOf(op), x));
  }

  /** Every operation with every operand its format can hold assembles to a word that decodes to it. */
  lemma EncodeThenDecode(op: InstrType, x: Fields)
    requires !op.ILLEGAL? && Encodable(FormatOf(op), x)
    ensures Decode32(Encode(op, x)) == Assembled(op, x) && DecodeInstr(Encode(op, x)) == Assembled(op, x)
  {
    hide Expand, Full, Key, FormatOf, Encodable, Opcoded, Glue, Place, Clear, FieldsOf, Decode32;
    var i := Encode(op, x);
    Encodes(op, x);
    OpcodedIsOp(i);
    OperandsByListing(i);
    FieldsComeBack(Key(op), FormatOf(op), x);
    EncodeIsFull(op, x);
    FullIsWhole(i);
  }
  lemma FullIsWhole(i: Word)
    requires Full(i)
    ensures DecodeInstr(i) == Decode32(i)
  {
    hide Decode32, Expand;
  }
}
