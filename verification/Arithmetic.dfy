/** What the instructions compute, over the integers and bit by bit (src/cpu/execute.cpp:12-176,
    src/cpu/rv32m.cpp, src/cpu/rv32a.h:18-33). The rules of this module name no function of the
    simulator. */
module Arithmetic {
  import opened Rv32
  import opened Hart
  import Numbers
  import MulDiv

  const TWO32: int := 0x1_0000_0000

  function U(a: Word): (n: nat)
    ensures n < TWO32
  {
    Numbers.Uint(a)
  }
  function S(a: Word): (n: int)
    ensures -0x8000_0000 <= n < 0x8000_0000
  {
    Numbers.Sint(a)
  }
  /** Two to the power of a shift amount: the low five bits of a word. */
  function Scale(a: Word): nat { Numbers.Pow2(U(a) % 32) }

  /** q and r are quotient and remainder of a by b, rounding toward zero: the remainder is smaller than
      the divisor and has the sign of the dividend. */
  predicate Divides(a: int, b: int, q: int, r: int) {
    a == q * b + r && MulDiv.Abs(r) < MulDiv.Abs(b) && (r == 0 || (r < 0 <==> a < 0))
  }
  predicate Overflows(a: int, b: int) { a == -0x8000_0000 && b == -1 }

  // ---- register instructions ----

  predicate IsRegisterOp(op: InstrType) {
    IsSum(op) || IsCompare(op) || IsBitwise(op) || IsShift(op) || IsProduct(op) || IsDivision(op)
  }

  predicate SumRule(op: InstrType, imm: Word, pc: Word, a: Word, b: Word, r: Word) {
    if op.LUI? then r == imm
    else if op.AUIPC? then U(r) == (U(pc) + U(imm)) % TWO32
    else if op.ADDI? then U(r) == (U(a) + U(imm)) % TWO32
    else if op.ADD? then U(r) == (U(a) + U(b)) % TWO32
    else op.SUB? && U(r) == (U(a) - U(b)) % TWO32
  }
  predicate CompareRule(op: InstrType, imm: Word, a: Word, b: Word, r: Word) {
    U(r) == if (if op.SLTI? then S(a) < S(imm) else if op.SLT? then S(a) < S(b) else if op.SLTIU? then U(a) < U(imm) else U(a) < U(b))
            then 1 else 0
  }
  /** y is the second operand. */
  ghost predicate BitwiseRule(op: InstrType, a: Word, y: Word, r: Word) {
    forall k: bv5 :: OneBit(r, k) <==>
      if op.XORI? || op.XOR? then OneBit(a, k) != OneBit(y, k)
      else if op.ORI? || op.OR? then OneBit(a, k) || OneBit(y, k)
      else OneBit(a, k) && OneBit(y, k)
  }
  predicate ShiftRule(op: InstrType, a: Word, y: Word, r: Word) {
    && Scale(y) > 0
    && if op.SLLI? || op.SLL? then U(r) == U(a) * Scale(y) % TWO32
       else if op.SRLI? || op.SRL? then U(r) == U(a) / Scale(y)
       else S(r) == S(a) / Scale(y)
  }
  predicate ProductRule(op: InstrType, a: Word, b: Word, r: Word) {
    if op.MUL? then U(r) == S(a) * S(b) % TWO32
    else if op.MULH? then S(r) == S(a) * S(b) / TWO32
    else if op.MULHSU? then S(r) == S(a) * U(b) / TWO32
    else U(r) == U(a) * U(b) / TWO32
  }
  ghost predicate DivisionRule(op: InstrType, a: Word, b: Word, r: Word) {
    if U(b) == 0 then if op.DIV? || op.DIVU? then U(r) == TWO32 - 1 else r == a
    else if op.DIVU? then exists m: int :: Divides(U(a), U(b), U(r), m)
    else if op.REMU? then exists q: int :: Divides(U(a), U(b), q, U(r))
    else if Overflows(S(a), S(b)) then S(r) == if op.DIV? then S(a) else 0
    else if op.DIV? then exists m: int :: Divides(S(a), S(b), S(r), m)
    else exists q: int :: Divides(S(a), S(b), q, S(r))
  }
  predicate UsesImm(op: InstrType) { op.XORI? || op.ORI? || op.ANDI? || op.SLLI? || op.SRLI? || op.SRAI? }

  /** r is what the operation makes of rs1 = a, rs2 = b, the immediate and the pc. */
  ghost predicate RdRule(op: InstrType, imm: Word, pc: Word, a: Word, b: Word, r: Word) {
    if IsCompare(op) then CompareRule(op, imm, a, b, r)
    else if IsBitwise(op) then BitwiseRule(op, a, if UsesImm(op) then imm else b, r)
    else if IsShift(op) then ShiftRule(op, a, if UsesImm(op) then imm else b, r)
    else if IsProduct(op) then ProductRule(op, a, b, r)
    else if IsDivision(op) then DivisionRule(op, a, b, r)
    else SumRule(op, imm, pc, a, b, r)
  }

  // Each group first says which word operation the simulator uses, then what that operation computes.
  predicate IsSum(op: InstrType) { op.LUI? || op.AUIPC? || op.ADDI? || op.ADD? || op.SUB? }

  lemma SumValues(a: Word, b: Word)
    ensures U(Sum(a, b)) == (U(a) + U(b)) % TWO32
    ensures U(Numbers.Difference(a, b)) == (U(a) - U(b)) % TWO32
  {
    hide Numbers.Uint, Sum, Numbers.Difference;
    Numbers.UintOfSum(a, b);
    Numbers.UintOfDifference(a, b);
  }
  lemma SumsObey(op: InstrType, imm: Word, pc: Word, a: Word, b: Word)
    requires IsSum(op)
    ensures SumRule(op, imm, pc, a, b, SumResult(op, imm, pc, a, b))
  {
    hide U, Sum, Numbers.Difference;
    if op.AUIPC? {
      SumValues(pc, imm);
    } else if op.ADDI? {
      SumValues(a, imm);
    } else {
      SumValues(a, b);
    }
  }

  lemma FlagValue(c: bool)
    ensures U(Flag(c)) == if c then 1 else 0
  {
    Numbers.UintOfEnds();
    Numbers.UintOfOne();
  }
  lemma ComparisonsObey(op: InstrType, imm: Word, a: Word, b: Word)
    requires IsCompare(op)
    ensures CompareRule(op, imm, a, b, CompareResult(op, imm, a, b))
  {
    hide U, S, SLt, Numbers.Less, Flag;
    FlagValue(true);
    FlagValue(false);
    OrderValues(a, imm);
    OrderValues(a, b);
  }
  lemma OrderValues(a: Word, b: Word)
    ensures Numbers.Less(a, b) <==> U(a) < U(b)
    ensures SLt(a, b) <==> S(a) < S(b)
  {
    hide Numbers.Uint, Numbers.Sint, SLt, Numbers.Less;
    Numbers.UintOrder(a, b);
    Numbers.SignedOrder(a, b);
  }

  lemma BitsOf(a: Word, y: Word)
    ensures forall k: bv5 :: OneBit(Numbers.Xor(a, y), k) <==> OneBit(a, k) != OneBit(y, k)
    ensures forall k: bv5 :: OneBit(Numbers.Or(a, y), k) <==> OneBit(a, k) || OneBit(y, k)
    ensures forall k: bv5 :: OneBit(Numbers.And(a, y), k) <==> OneBit(a, k) && OneBit(y, k)
  {
    hide OneBit, Numbers.Xor, Numbers.Or, Numbers.And;
    forall k: bv5 ensures OneBit(Numbers.Xor(a, y), k) <==> OneBit(a, k) != OneBit(y, k) { Numbers.BitOfXor(a, y, k); }
    forall k: bv5 ensures OneBit(Numbers.Or(a, y), k) <==> OneBit(a, k) || OneBit(y, k) { Numbers.BitOfOr(a, y, k); }
    forall k: bv5 ensures OneBit(Numbers.And(a, y), k) <==> OneBit(a, k) && OneBit(y, k) { Numbers.BitOfAnd(a, y, k); }
  }
  lemma BitwiseObey(op: InstrType, imm: Word, a: Word, b: Word)
    requires IsBitwise(op)
    ensures BitwiseRule(op, a, if UsesImm(op) then imm else b, BitwiseResult(op, imm, a, b))
  {
    hide OneBit, Numbers.Xor, Numbers.Or, Numbers.And;
    BitsOf(a, imm);
    BitsOf(a, b);
  }

  lemma ShiftValues(a: Word, b: Word)
    ensures Scale(b) > 0
    ensures U(Numbers.Shl(a, Numbers.Low5(b))) == U(a) * Scale(b) % TWO32
    ensures U(Numbers.Shr(a, Numbers.Low5(b))) == U(a) / Scale(b)
    ensures S(Sra(a, b)) == S(a) / Scale(b)
  {
    hide Numbers.Uint, Numbers.Sint, Numbers.Shl, Numbers.Shr, Numbers.Low5, Sra;
    Numbers.UintOfLow5(b);
    Numbers.UintOfShl(a, Numbers.Low5(b));
    Numbers.UintOfShr(a, Numbers.Low5(b));
    Numbers.SintOfSra(a, b);
  }
  lemma ShiftsObey(op: InstrType, imm: Word, a: Word, b: Word)
    requires IsShift(op)
    ensures ShiftRule(op, a, if UsesImm(op) then imm else b, ShiftResult(op, imm, a, b))
  {
    hide U, S, Scale, Sra, Numbers.Shl, Numbers.Shr, Numbers.Low5;
    ShiftValues(a, imm);
    ShiftValues(a, b);
  }

  lemma ToAndFrom(a: Word, n: MulDiv.U32)
    ensures ToU(a) as int == U(a) && MulDiv.Signed(ToU(a)) == S(a)
    ensures U(OfU(n)) == n as int && S(OfU(n)) == MulDiv.Signed(n)
  {
    Numbers.UintOfOfUint(n as int);
  }
  lemma ProductsObey(op: InstrType, a: Word, b: Word)
    requires IsProduct(op)
    ensures ProductRule(op, a, b, OfU(ProductResult(op, ToU(a), ToU(b))))
  {
    hide U, S, ToU, OfU, MulDiv.Mul, MulDiv.Mulh, MulDiv.Mulhsu, MulDiv.Mulhu, MulDiv.Signed;
    var x, y := ToU(a), ToU(b);
    ToAndFrom(a, ProductResult(op, x, y));
    ToAndFrom(b, ProductResult(op, x, y));
    MulDiv.SignedProduct(x, y);
    MulDiv.MixedProduct(x, y);
    MulDiv.UnsignedProduct(x, y);
    PairParts(MulDiv.Mulh(x, y), MulDiv.Mul(x, y), S(a) * S(b));
    PairParts(MulDiv.Mulhsu(x, y), MulDiv.Mul(x, y), S(a) * U(b));
  }
  /** The halves of a 64-bit value are its floor quotient and remainder by 2^32. */
  lemma PairParts(hi: MulDiv.U32, lo: MulDiv.U32, p: int)
    requires MulDiv.Pair(hi, lo) == p
    ensures MulDiv.Signed(hi) == p / TWO32 && lo as int == p % TWO32
  {
    hide MulDiv.Signed;
  }

  lemma SignedDivisionFacts(x: MulDiv.U32, y: MulDiv.U32)
    ensures y == 0 ==> MulDiv.Div(x, y) == 0xFFFF_FFFF && MulDiv.Rem(x, y) == x
    ensures Overflows(MulDiv.Signed(x), MulDiv.Signed(y)) ==> MulDiv.Div(x, y) == x && MulDiv.Rem(x, y) == 0
    ensures y != 0 && !Overflows(MulDiv.Signed(x), MulDiv.Signed(y)) ==>
      Divides(MulDiv.Signed(x), MulDiv.Signed(y), MulDiv.Signed(MulDiv.Div(x, y)), MulDiv.Signed(MulDiv.Rem(x, y)))
  {
    hide MulDiv.Div, MulDiv.Rem, MulDiv.Signed, MulDiv.Low;
    MulDiv.SignedDivision(x, y);
    if y == 0 { AllOnes(MulDiv.Div(x, y)); }
  }
  lemma AllOnes(n: MulDiv.U32)
    ensures MulDiv.Signed(n) == -1 <==> n == 0xFFFF_FFFF
  {}
  lemma QuotientObeys(a: Word, b: Word)
    ensures DivisionRule(DIV, a, b, OfU(MulDiv.Div(ToU(a), ToU(b))))
  {
    hide U, S, ToU, OfU, MulDiv.Div, MulDiv.Rem, MulDiv.Signed, Divides, Overflows;
    var x, y := ToU(a), ToU(b);
    ToAndFrom(a, MulDiv.Div(x, y));
    ToAndFrom(b, MulDiv.Div(x, y));
    SignedDivisionFacts(x, y);
  }
  lemma RemainderObeys(a: Word, b: Word)
    ensures DivisionRule(REM, a, b, OfU(MulDiv.Rem(ToU(a), ToU(b))))
  {
    hide U, S, ToU, OfU, MulDiv.Div, MulDiv.Rem, MulDiv.Signed, Divides, Overflows;
    var x, y := ToU(a), ToU(b);
    ToAndFrom(a, MulDiv.Rem(x, y));
    ToAndFrom(b, MulDiv.Rem(x, y));
    SignedDivisionFacts(x, y);
    SameValueSameWord(a, OfU(MulDiv.Rem(x, y)));
    SignedZero(MulDiv.Rem(x, y));
  }
  lemma UnsignedDivisionsObey(op: InstrType, a: Word, b: Word)
    requires op.DIVU? || op.REMU?
    ensures DivisionRule(op, a, b, OfU(DivisionResult(op, ToU(a), ToU(b))))
  {
    hide U, S, ToU, OfU, MulDiv.Div, MulDiv.Rem, MulDiv.Divu, MulDiv.Remu;
    var x, y := ToU(a), ToU(b);
    ToAndFrom(a, DivisionResult(op, x, y));
    ToAndFrom(b, DivisionResult(op, x, y));
    MulDiv.UnsignedDivision(x, y);
    SameValueSameWord(a, OfU(DivisionResult(op, x, y)));
    if y != 0 { assert Divides(U(a), U(b), MulDiv.Divu(x, y) as int, MulDiv.Remu(x, y) as int); }
  }
  lemma SameValueSameWord(a: Word, b: Word)
    ensures U(a) == U(b) ==> a == b
  {
    hide Numbers.Uint;
    if U(a) == U(b) { Numbers.UintInjective(a, b); }
  }
  lemma SignedZero(n: MulDiv.U32)
    ensures MulDiv.Signed(n) == 0 <==> n == 0
  {}

  lemma DivisionsObey(op: InstrType, a: Word, b: Word)
    requires IsDivision(op)
    ensures DivisionRule(op, a, b, OfU(DivisionResult(op, ToU(a), ToU(b))))
  {
    hide DivisionRule, ToU, OfU, MulDiv.Div, MulDiv.Rem, MulDiv.Divu, MulDiv.Remu;
    if op.DIV? {
      QuotientObeys(a, b);
    } else if op.REM? {
      RemainderObeys(a, b);
    } else {
      UnsignedDivisionsObey(op, a, b);
    }
  }
  // The dispatch, one group at a time.
  lemma CompareBranch(op: InstrType, imm: Word, pc: Word, a: Word, b: Word)
    requires IsCompare(op)
    ensures RdRule(op, imm, pc, a, b, AluResult(op, imm, pc, a, b))
  {
    hide SumRule, CompareRule, BitwiseRule, ShiftRule, ProductRule, DivisionRule, SumResult, CompareResult, BitwiseResult, ShiftResult;
    hide ProductResult, DivisionResult, ToU, OfU;
    ComparisonsObey(op, imm, a, b);
  }
  lemma BitwiseBranch(op: InstrType, imm: Word, pc: Word, a: Word, b: Word)
    requires IsBitwise(op)
    ensures RdRule(op, imm, pc, a, b, AluResult(op, imm, pc, a, b))
  {
    hide SumRule, CompareRule, BitwiseRule, ShiftRule, ProductRule, DivisionRule, SumResult, CompareResult, BitwiseResult, ShiftResult;
    hide ProductResult, DivisionResult, ToU, OfU;
    BitwiseObey(op, imm, a, b);
  }
  lemma ShiftBranch(op: InstrType, imm: Word, pc: Word, a: Word, b: Word)
    requires IsShift(op)
    ensures RdRule(op, imm, pc, a, b, AluResult(op, imm, pc, a, b))
  {
    hide SumRule, CompareRule, BitwiseRule, ShiftRule, ProductRule, DivisionRule, SumResult, CompareResult, BitwiseResult, ShiftResult;
    hide ProductResult, DivisionResult, ToU, OfU;
    ShiftsObey(op, imm, a, b);
  }
  lemma ProductBranch(op: InstrType, imm: Word, pc: Word, a: Word, b: Word)
    requires IsProduct(op)
    ensures RdRule(op, imm, pc, a, b, AluResult(op, imm, pc, a, b))
  {
    hide SumRule, CompareRule, BitwiseRule, ShiftRule, ProductRule, DivisionRule, SumResult, CompareResult, BitwiseResult, ShiftResult;
    hide ProductResult, DivisionResult, ToU, OfU;
    ProductsObey(op, a, b);
  }
  lemma DivisionBranch(op: InstrType, imm: Word, pc: Word, a: Word, b: Word)
    requires IsDivision(op)
    ensures RdRule(op, imm, pc, a, b, AluResult(op, imm, pc, a, b))
  {
    hide SumRule, CompareRule, BitwiseRule, ShiftRule, ProductRule, DivisionRule, SumResult, CompareResult, BitwiseResult, ShiftResult;
    hide ProductResult, DivisionResult, ToU, OfU;
    DivisionsObey(op, a, b);
  }
  lemma SumBranch(op: InstrType, imm: Word, pc: Word, a: Word, b: Word)
    requires IsSum(op)
    ensures RdRule(op, imm, pc, a, b, AluResult(op, imm, pc, a, b))
  {
    hide SumRule, CompareRule, BitwiseRule, ShiftRule, ProductRule, DivisionRule, SumResult, CompareResult, BitwiseResult, ShiftResult;
    hide ProductResult, DivisionResult, ToU, OfU;
    SumsObey(op, imm, pc, a, b);
  }
  lemma AluObeys(op: InstrType, imm: Word, pc: Word, a: Word, b: Word)
    requires IsRegisterOp(op)
    ensures RdRule(op, imm, pc, a, b, AluResult(op, imm, pc, a, b))
  {
    hide RdRule, AluResult, IsCompare, IsBitwise, IsShift, IsProduct, IsDivision, IsSum;
    if IsCompare(op) {
      CompareBranch(op, imm, pc, a, b);
    } else if IsBitwise(op) {
      BitwiseBranch(op, imm, pc, a, b);
    } else if IsShift(op) {
      ShiftBranch(op, imm, pc, a, b);
    } else if IsProduct(op) {
      ProductBranch(op, imm, pc, a, b);
    } else if IsDivision(op) {
      DivisionBranch(op, imm, pc, a, b);
    } else {
      SumBranch(op, imm, pc, a, b);
    }
  }
}
