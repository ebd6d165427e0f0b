/** The M extension (src/cpu/rv32m.cpp), on words seen as integers 0 .. 2^32-1. */
module MulDiv {

  const TWO32: int := 0x1_0000_0000
  const TWO63: int := 0x8000_0000_0000_0000

  /** A uint32_t. */
  newtype U32 = x: int | 0 <= x < 0x1_0000_0000

  /** static_cast<int32_t>. */
  function Signed(x: U32): (s: int)
    ensures -0x8000_0000 <= s < 0x8000_0000 && (s - x as int) % TWO32 == 0
  {
    if x < 0x8000_0000 then x as int else x as int - TWO32
  }

  /** Truncation to 32 bits. */
  function Low(x: int): U32 { (x % TWO32) as U32 }

  /** An arithmetic right shift by 32, then truncation. Dafny's `/` floors for a positive divisor. */
  function High(x: int): U32 { ((x / TWO32) % TWO32) as U32 }

  /** Fits int64_t: the 64-bit product does not overflow. */
  predicate FitsI64(x: int) { -TWO63 <= x < TWO63 }
  /** Fits uint64_t. */
  predicate FitsU64(x: int) { 0 <= x < 2 * TWO63 }

  function Mul(a: U32, b: U32): U32 { Low(Signed(a) * Signed(b)) }
  function Mulh(a: U32, b: U32): U32 { High(Signed(a) * Signed(b)) }
  function Mulhsu(a: U32, b: U32): U32 { High(Signed(a) * b as int) }
  function Mulhu(a: U32, b: U32): U32 { High(a as int * b as int) }

  /** C++ integer division truncates toward zero. */
  function TruncDiv(a: int, b: int): int
    requires b != 0
  {
    var q := Abs(a) / Abs(b);
    if (a < 0) == (b < 0) then q else -q
  }
  function TruncMod(a: int, b: int): int
    requires b != 0
  {
    if a < 0 then -(Abs(a) % Abs(b)) else Abs(a) % Abs(b)
  }
  function Abs(x: int): nat { if x < 0 then -x else x }

  function Div(a: U32, b: U32): U32 {
    if b == 0 then 0xFFFF_FFFF
    else if Signed(a) == -0x8000_0000 && Signed(b) == -1 then 0x8000_0000
    else Low(TruncDiv(Signed(a), Signed(b)))
  }
  function Divu(a: U32, b: U32): U32 { if b == 0 then 0xFFFF_FFFF else a / b }
  function Rem(a: U32, b: U32): U32 {
    if b == 0 then a
    else if Signed(a) == -0x8000_0000 && Signed(b) == -1 then 0
    else Low(TruncMod(Signed(a), Signed(b)))
  }
  function Remu(a: U32, b: U32): U32 { if b == 0 then a else a % b }

  // ---- the two halves of a product ----

  /** The 64-bit two's-complement value with the given halves. */
  function Pair(hi: U32, lo: U32): int { Signed(hi) * TWO32 + lo as int }

  lemma HalvesOfSigned(p: int)
    requires FitsI64(p)
    ensures Pair(High(p), Low(p)) == p
  {
    var h := p / TWO32;
    assert p == h * TWO32 + p % TWO32;
    assert -0x8000_0000 <= h < 0x8000_0000;
    assert Signed(High(p)) == h by {
      if h < 0 { assert h % TWO32 == h + TWO32; } else { assert h % TWO32 == h; }
    }
  }

  lemma ProductBound(a: int, b: int, m: int, n: int)
    requires -m <= a <= m && -n <= b <= n
    ensures -(m * n) <= a * b <= m * n
  {
    ProductBoundAbs(Abs(a), Abs(b), m, n);
    if (a < 0) == (b < 0) { assert a * b == Abs(a) * Abs(b); } else { assert a * b == -(Abs(a) * Abs(b)); }
  }

  lemma ProductBoundAbs(a: nat, b: nat, m: nat, n: nat)
    requires a <= m && b <= n
    ensures 0 <= a * b <= m * n
  {
    assert a * b <= m * b;
    assert m * b <= m * n;
  }

  /** MULH with MUL is the signed product; it never overflows int64_t. */
  lemma SignedProduct(a: U32, b: U32)
    ensures FitsI64(Signed(a) * Signed(b))
    ensures Pair(Mulh(a, b), Mul(a, b)) == Signed(a) * Signed(b)
  {
    ProductBound(Signed(a), Signed(b), 0x8000_0000, 0x8000_0000);
    HalvesOfSigned(Signed(a) * Signed(b));
  }

  lemma LowOfSum(x: int, y: int, k: int)
    requires x == y + k * TWO32
    ensures Low(x) == Low(y)
  {
    assert (y + k * TWO32) % TWO32 == y % TWO32;
  }

  /** MULHSU with MUL is the product of a signed and an unsigned operand. */
  lemma MixedProduct(a: U32, b: U32)
    ensures FitsI64(Signed(a) * b as int)
    ensures Pair(Mulhsu(a, b), Mul(a, b)) == Signed(a) * b as int
  {
    var p := Signed(a) * b as int;
    ProductBound(Signed(a), b as int, 0x8000_0000, 0xFFFF_FFFF);
    HalvesOfSigned(p);
    if Signed(b) != b as int {
      assert p == Signed(a) * Signed(b) + Signed(a) * TWO32;
      LowOfSum(p, Signed(a) * Signed(b), Signed(a));
    }
  }

  lemma Distribute(x: int, y: int, k: int)
    ensures (x + k * TWO32) * y == x * y + (k * y) * TWO32
  {}

  /** Reading the operands as unsigned adds a multiple of 2^32 to the product. */
  lemma UnsignedIsSignedModulo(a: U32, b: U32)
    ensures Low(a as int * b as int) == Low(Signed(a) * Signed(b))
  {
    var x, y := a as int, b as int;
    var sa, sb := Signed(a), Signed(b);
    var i := if a < 0x8000_0000 then 0 else 1;
    var j := if b < 0x8000_0000 then 0 else 1;
    Distribute(sa, y, i);
    LowOfSum(x * y, sa * y, i * y);
    Distribute(sb, sa, j);
    LowOfSum(sa * y, sa * sb, j * sa);
  }

  /** MULHU with MUL is the unsigned product; it never overflows uint64_t. */
  lemma UnsignedProduct(a: U32, b: U32)
    ensures FitsU64(a as int * b as int)
    ensures Mulhu(a, b) as int * TWO32 + Mul(a, b) as int == a as int * b as int
  {
    var p := a as int * b as int;
    ProductBoundAbs(a as int, b as int, 0xFFFF_FFFF, 0xFFFF_FFFF);
    UnsignedIsSignedModulo(a, b);
    assert p == (p / TWO32) * TWO32 + p % TWO32;
    assert 0 <= p / TWO32 < TWO32;
  }

  // ---- quotient and remainder ----

  lemma DivModOf(x: nat, y: nat)
    requires y != 0
    ensures x == (x / y) * y + x % y
  {}

  lemma NegateFactor(q: int, b: int)
    ensures (-q) * b == -(q * b) && q * (-b) == -(q * b) && (-q) * (-b) == q * b
  {}

  /** From the identity on magnitudes to the identity on signed operands. */
  lemma SignedIdentity(a: int, b: int, q: int, r: int)
    requires Abs(a) == q * Abs(b) + r
    ensures a == (if (a < 0) == (b < 0) then q else -q) * b + (if a < 0 then -r else r)
  {
    NegateFactor(q, b);
  }

  lemma TruncIdentity(a: int, b: int)
    requires b != 0
    ensures a == TruncDiv(a, b) * b + TruncMod(a, b)
    ensures Abs(TruncMod(a, b)) < Abs(b)
    ensures TruncMod(a, b) == 0 || (TruncMod(a, b) < 0 <==> a < 0)
  {
    var x, y := Abs(a), Abs(b);
    DivModOf(x, y);
    SignedIdentity(a, b, x / y, x % y);
  }

  lemma QuotientShrinks(x: nat, y: nat)
    requires y != 0
    ensures x / y <= x && (y >= 2 ==> 2 * (x / y) <= x)
  {
    DivModOf(x, y);
    ProductBoundAbs(x / y, 1, x / y, y);
    if y >= 2 { ProductBoundAbs(x / y, 2, x / y, y); }
  }

  lemma QuotientRange(a: int, b: int)
    requires -0x8000_0000 <= a < 0x8000_0000 && -0x8000_0000 <= b < 0x8000_0000 && b != 0
    requires !(a == -0x8000_0000 && b == -1)
    ensures -0x8000_0000 <= TruncDiv(a, b) < 0x8000_0000 && -0x8000_0000 <= TruncMod(a, b) < 0x8000_0000
  {
    QuotientShrinks(Abs(a), Abs(b));
    TruncIdentity(a, b);
    if Abs(b) == 1 { DivModOf(Abs(a), 1); }
  }

  lemma SignedOfLow(x: int)
    requires -0x8000_0000 <= x < 0x8000_0000
    ensures Signed(Low(x)) == x
  {
    if x < 0 { assert x % TWO32 == x + TWO32; } else { assert x % TWO32 == x; }
  }

  /** DIV and REM: the dividend is quotient times divisor plus remainder modulo 2^32, for every
      operand; away from the two special cases the identity is exact, the remainder is smaller than
      the divisor and has the sign of the dividend. */
  lemma SignedDivision(a: U32, b: U32)
    ensures Low(Signed(Div(a, b)) * Signed(b) + Signed(Rem(a, b))) == a
    ensures b == 0 ==> Signed(Div(a, b)) == -1 && Rem(a, b) == a
    ensures Signed(a) == -0x8000_0000 && Signed(b) == -1 ==> Div(a, b) == a && Rem(a, b) == 0
    ensures b != 0 && !(Signed(a) == -0x8000_0000 && Signed(b) == -1) ==>
      var q, r := Signed(Div(a, b)), Signed(Rem(a, b));
      && Signed(a) == q * Signed(b) + r && Abs(r) < Abs(Signed(b)) && (r == 0 || (r < 0 <==> Signed(a) < 0))
  {
    var x, y := Signed(a), Signed(b);
    LowOfSigned(a);
    if b != 0 && !(x == -0x8000_0000 && y == -1) {
      assert y != 0;
      TruncIdentity(x, y);
      QuotientRange(x, y);
      SignedOfLow(TruncDiv(x, y));
      SignedOfLow(TruncMod(x, y));
    }
  }

  lemma LowOfSigned(a: U32)
    ensures Low(Signed(a)) == a
  {
    if a >= 0x8000_0000 { assert (a as int - TWO32) % TWO32 == a as int; }
  }

  /** DIVU and REMU, with division by zero giving all ones and the dividend. */
  lemma UnsignedDivision(a: U32, b: U32)
    ensures Low(Divu(a, b) as int * b as int + Remu(a, b) as int) == a
    ensures b != 0 ==> a as int == Divu(a, b) as int * b as int + Remu(a, b) as int && Remu(a, b) < b
    ensures b == 0 ==> Divu(a, b) == 0xFFFF_FFFF && Remu(a, b) == a
  {
    if b != 0 {
      var x, y := a as int, b as int;
      assert x == (x / y) * y + x % y;
      assert (a / b) as int == x / y && (a % b) as int == x % y;
    }
    assert a as int % TWO32 == a as int;
  }
}
