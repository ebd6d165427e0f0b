/** Words as numbers: what the bit-vector operations of the simulator compute over the integers. */
module Numbers {
  import opened Rv32
  import opened Phys

  const TWO32: int := 0x1_0000_0000

  // ---- the value of a word ----

  /** The value of a byte, and the byte of a value. */
  function Num8(b: bv8): (n: nat)
    ensures n < 256
  {
    b as nat
  }
  function Byte8(n: nat): bv8
    requires n < 256
  {
    if n == 0 then 0 else Byte8(n - 1) + 1
  }

  /** The unsigned value of a word, byte by byte. */
  function Uint(a: Word): (n: nat)
    ensures n < TWO32
  {
    Num8(ByteOf(a, 24)) * 0x100_0000 + Num8(ByteOf(a, 16)) * 0x1_0000 + Num8(ByteOf(a, 8)) * 0x100 + Num8(ByteOf(a, 0))
  }
  /** The two's-complement value. */
  function Sint(a: Word): (n: int)
    ensures -0x8000_0000 <= n < 0x8000_0000
  {
    if Uint(a) < 0x8000_0000 then Uint(a) else Uint(a) - TWO32
  }
  /** The word with a given value. */
  function OfUint(n: nat): Word
    requires n < TWO32
  {
    Join(Byte8(n % 0x100), Byte8(n / 0x100 % 0x100), Byte8(n / 0x1_0000 % 0x100), Byte8(n / 0x100_0000))
  }

  lemma Num8Succ(b: bv8)
    requires b != 0xFF
    ensures Num8(b + 1) == Num8(b) + 1
  {}
  lemma Num8Ends()
    ensures Num8(0) == 0 && Num8(0xFF) == 255
  {}
  lemma Num8Injective(b: bv8, c: bv8)
    requires Num8(b) == Num8(c)
    ensures b == c
  {}
  lemma {:induction false} Num8OfByte8(n: nat)
    requires n < 256
    ensures Num8(Byte8(n)) == n
  {
    hide Num8;
    Num8Ends();
    if n > 0 {
      Num8OfByte8(n - 1);
      if Byte8(n - 1) != 0xFF { Num8Succ(Byte8(n - 1)); }
    }
  }

  lemma BytesOfJoin(x0: bv8, x1: bv8, x2: bv8, x3: bv8)
    ensures ByteOf(Join(x0, x1, x2, x3), 0) == x0 && ByteOf(Join(x0, x1, x2, x3), 8) == x1
    ensures ByteOf(Join(x0, x1, x2, x3), 16) == x2 && ByteOf(Join(x0, x1, x2, x3), 24) == x3
  {}
  /** Little-endian: the value of four joined bytes. */
  lemma UintOfJoin(x0: bv8, x1: bv8, x2: bv8, x3: bv8)
    ensures Uint(Join(x0, x1, x2, x3)) == Num8(x0) + Num8(x1) * 0x100 + Num8(x2) * 0x1_0000 + Num8(x3) * 0x100_0000
  {
    hide ByteOf, Num8, Join;
    BytesOfJoin(x0, x1, x2, x3);
  }
  lemma UintOfOfUint(n: nat)
    requires n < TWO32
    ensures Uint(OfUint(n)) == n
  {
    hide Num8, Byte8, Join, Uint;
    var b0, b1, b2, b3 := n % 0x100, n / 0x100 % 0x100, n / 0x1_0000 % 0x100, n / 0x100_0000;
    Num8OfByte8(b0);
    Num8OfByte8(b1);
    Num8OfByte8(b2);
    Num8OfByte8(b3);
    UintOfJoin(Byte8(b0), Byte8(b1), Byte8(b2), Byte8(b3));
    DigitsOf(n);
  }
  lemma DigitsOf(n: nat)
    ensures n == n % 0x100 + n / 0x100 % 0x100 * 0x100 + n / 0x1_0000 % 0x100 * 0x1_0000 + n / 0x100_0000 * 0x100_0000
  {
    assert n / 0x1_0000 == n / 0x100 / 0x100 && n / 0x100_0000 == n / 0x1_0000 / 0x100;
  }

  // ---- counting ----

  function Next(a: Word): Word { a + 1 }

  lemma BytesNoCarry(a: Word)
    requires ByteOf(a, 0) != 0xFF
    ensures ByteOf(Next(a), 24) == ByteOf(a, 24) && ByteOf(Next(a), 16) == ByteOf(a, 16)
    ensures ByteOf(Next(a), 8) == ByteOf(a, 8) && ByteOf(Next(a), 0) == ByteOf(a, 0) + 1
  {}
  lemma BytesCarry1(a: Word)
    requires ByteOf(a, 0) == 0xFF && ByteOf(a, 8) != 0xFF
    ensures ByteOf(Next(a), 24) == ByteOf(a, 24) && ByteOf(Next(a), 16) == ByteOf(a, 16)
    ensures ByteOf(Next(a), 8) == ByteOf(a, 8) + 1 && ByteOf(Next(a), 0) == 0
  {}
  lemma BytesCarry2(a: Word)
    requires ByteOf(a, 0) == 0xFF && ByteOf(a, 8) == 0xFF && ByteOf(a, 16) != 0xFF
    ensures ByteOf(Next(a), 24) == ByteOf(a, 24) && ByteOf(Next(a), 16) == ByteOf(a, 16) + 1
    ensures ByteOf(Next(a), 8) == 0 && ByteOf(Next(a), 0) == 0
  {}
  lemma BytesCarry3(a: Word)
    requires ByteOf(a, 0) == 0xFF && ByteOf(a, 8) == 0xFF && ByteOf(a, 16) == 0xFF && ByteOf(a, 24) != 0xFF
    ensures ByteOf(Next(a), 24) == ByteOf(a, 24) + 1 && ByteOf(Next(a), 16) == 0
    ensures ByteOf(Next(a), 8) == 0 && ByteOf(Next(a), 0) == 0
  {}
  lemma BytesAllOnes(a: Word)
    requires ByteOf(a, 0) == 0xFF && ByteOf(a, 8) == 0xFF && ByteOf(a, 16) == 0xFF && ByteOf(a, 24) == 0xFF
    ensures a == 0xFFFF_FFFF
  {}

  lemma UintOfNext(a: Word)
    requires a != 0xFFFF_FFFF
    ensures Uint(Next(a)) == Uint(a) + 1
  {
    hide ByteOf, Num8, Next;
    Num8Ends();
    if ByteOf(a, 0) != 0xFF {
      BytesNoCarry(a);
      Num8Succ(ByteOf(a, 0));
    } else if ByteOf(a, 8) != 0xFF {
      BytesCarry1(a);
      Num8Succ(ByteOf(a, 8));
    } else if ByteOf(a, 16) != 0xFF {
      BytesCarry2(a);
      Num8Succ(ByteOf(a, 16));
    } else if ByteOf(a, 24) != 0xFF {
      BytesCarry3(a);
      Num8Succ(ByteOf(a, 24));
    } else {
      BytesAllOnes(a);
    }
  }
  lemma UintOfEnds()
    ensures Uint(0) == 0 && Uint(0xFFFF_FFFF) == TWO32 - 1
  {
    Num8Ends();
    hide Num8;
  }

  lemma SameBytes(a: Word, b: Word)
    requires ByteOf(a, 24) == ByteOf(b, 24) && ByteOf(a, 16) == ByteOf(b, 16) && ByteOf(a, 8) == ByteOf(b, 8) && ByteOf(a, 0) == ByteOf(b, 0)
    ensures a == b
  {}
  lemma UintInjective(a: Word, b: Word)
    requires Uint(a) == Uint(b)
    ensures a == b
  {
    hide ByteOf, Num8;
    Num8Injective(ByteOf(a, 24), ByteOf(b, 24));
    Num8Injective(ByteOf(a, 16), ByteOf(b, 16));
    Num8Injective(ByteOf(a, 8), ByteOf(b, 8));
    Num8Injective(ByteOf(a, 0), ByteOf(b, 0));
    SameBytes(a, b);
  }

  // ---- sums and differences ----

  lemma NextWraps(a: Word)
    ensures Uint(Next(a)) == (Uint(a) + 1) % TWO32
  {
    hide Uint;
    UintOfEnds();
    if a == 0xFFFF_FFFF { assert Next(a) == 0; } else { UintOfNext(a); }
  }

  function Prev(a: Word): Word { a - 1 }
  lemma NextOfPrev(a: Word)
    ensures Next(Prev(a)) == a
  {}
  lemma UintOfPrev(a: Word)
    requires a != 0
    ensures Uint(Prev(a)) == Uint(a) - 1
  {
    hide Uint, Next, Prev;
    NextOfPrev(a);
    PrevIsNotTop(a);
    UintOfNext(Prev(a));
  }
  lemma PrevIsNotTop(a: Word)
    requires a != 0
    ensures Prev(a) != 0xFFFF_FFFF
  {}
  // Facts about nested operations come in three steps: each side unfolded, the identity on plain
  // bit-vector terms, and the two put together with the operations folded.
  lemma SumOfNextLeft(a: Word, b: Word)
    ensures Sum(a, Next(b)) == a + (b + 1)
  {
    assert Next(b) == b + 1;
    assert Sum(a, b + 1) == a + (b + 1);
  }
  lemma SumOfNextRight(a: Word, b: Word)
    ensures Next(Sum(a, b)) == (a + b) + 1
  {
    assert Sum(a, b) == a + b;
    assert Next(a + b) == (a + b) + 1;
  }
  lemma AddAssociates(a: Word, b: Word)
    ensures a + (b + 1) == (a + b) + 1
  {}
  lemma SumOfNext(a: Word, b: Word)
    ensures Sum(a, Next(b)) == Next(Sum(a, b))
  {
    hide Sum, Next;
    SumOfNextLeft(a, b);
    SumOfNextRight(a, b);
    AddAssociates(a, b);
  }
  lemma SumOfZero(a: Word)
    ensures Sum(a, 0) == a
  {}

  /** Word addition is addition modulo 2^32. */
  lemma {:induction false} UintOfSum(a: Word, b: Word)
    ensures Uint(Sum(a, b)) == (Uint(a) + Uint(b)) % TWO32
    decreases Uint(b)
  {
    hide Uint, Sum, Next, Prev;
    UintOfEnds();
    if b == 0 {
      SumOfZero(a);
    } else {
      UintOfPrev(b);
      UintOfSum(a, Prev(b));
      NextOfPrev(b);
      SumOfNext(a, Prev(b));
      NextWraps(Sum(a, Prev(b)));
    }
  }

  function Difference(a: Word, b: Word): Word { a - b }
  lemma SubtractThenAdd(a: Word, b: Word)
    ensures (a - b) + b == a
  {}
  lemma DifferencePlus(a: Word, b: Word)
    ensures Sum(Difference(a, b), b) == a
  {
    SubtractThenAdd(a, b);
    assert Sum(a - b, b) == (a - b) + b;
    assert Difference(a, b) == a - b;
  }
  lemma UintOfDifference(a: Word, b: Word)
    ensures Uint(Difference(a, b)) == (Uint(a) - Uint(b)) % TWO32
  {
    hide Uint, Sum, Difference;
    DifferencePlus(a, b);
    UintOfSum(Difference(a, b), b);
  }

  // ---- order ----

  predicate Less(a: Word, b: Word) { a < b }

  lemma Num8Order(b: bv8, c: bv8)
    ensures b < c <==> Num8(b) < Num8(c)
  {}
  lemma LessByByte3(a: Word, b: Word)
    requires ByteOf(a, 24) < ByteOf(b, 24)
    ensures Less(a, b)
  {}
  lemma LessByByte2(a: Word, b: Word)
    requires ByteOf(a, 24) == ByteOf(b, 24) && ByteOf(a, 16) < ByteOf(b, 16)
    ensures Less(a, b)
  {}
  lemma LessByByte1(a: Word, b: Word)
    requires ByteOf(a, 24) == ByteOf(b, 24) && ByteOf(a, 16) == ByteOf(b, 16) && ByteOf(a, 8) < ByteOf(b, 8)
    ensures Less(a, b)
  {}
  lemma LessByByte0(a: Word, b: Word)
    requires ByteOf(a, 24) == ByteOf(b, 24) && ByteOf(a, 16) == ByteOf(b, 16) && ByteOf(a, 8) == ByteOf(b, 8)
    requires ByteOf(a, 0) < ByteOf(b, 0)
    ensures Less(a, b)
  {}
  lemma SmallerIsLess(a: Word, b: Word)
    requires Uint(a) < Uint(b)
    ensures Less(a, b)
  {
    hide ByteOf, Num8, Less;
    Num8Order(ByteOf(a, 24), ByteOf(b, 24));
    Num8Order(ByteOf(a, 16), ByteOf(b, 16));
    Num8Order(ByteOf(a, 8), ByteOf(b, 8));
    Num8Order(ByteOf(a, 0), ByteOf(b, 0));
    if Num8(ByteOf(a, 24)) < Num8(ByteOf(b, 24)) {
      LessByByte3(a, b);
    } else {
      Num8Injective(ByteOf(a, 24), ByteOf(b, 24));
      if Num8(ByteOf(a, 16)) < Num8(ByteOf(b, 16)) {
        LessByByte2(a, b);
      } else {
        Num8Injective(ByteOf(a, 16), ByteOf(b, 16));
        if Num8(ByteOf(a, 8)) < Num8(ByteOf(b, 8)) {
          LessByByte1(a, b);
        } else {
          Num8Injective(ByteOf(a, 8), ByteOf(b, 8));
          LessByByte0(a, b);
        }
      }
    }
  }
  lemma LessIsStrict(a: Word, b: Word)
    ensures !(Less(a, b) && Less(b, a)) && !Less(a, a)
  {}
  /** Word order is order of values. */
  lemma UintOrder(a: Word, b: Word)
    ensures Less(a, b) <==> Uint(a) < Uint(b)
  {
    hide Uint, Less;
    LessIsStrict(a, b);
    if Uint(a) < Uint(b) {
      SmallerIsLess(a, b);
    } else if Uint(a) == Uint(b) {
      UintInjective(a, b);
    } else {
      SmallerIsLess(b, a);
    }
  }
  lemma UintOfSignBit()
    ensures Uint(0x8000_0000) == 0x8000_0000
  {
    assert Num8(0x80) == 0x80 && Num8(0) == 0;
    hide Num8;
  }
  lemma NegativeIsHigh(a: Word)
    ensures Negative(a) <==> !Less(a, 0x8000_0000)
  {}
  lemma NegativeBySign(a: Word)
    ensures Negative(a) <==> Sint(a) < 0
  {
    hide Uint, Less, Negative;
    NegativeIsHigh(a);
    UintOfSignBit();
    UintOrder(a, 0x8000_0000);
  }

  /** Flipping the sign bit adds 2^31. */
  function Flip(a: Word): Word { a ^ 0x8000_0000 }
  lemma FlipIsSum(a: Word)
    ensures Flip(a) == Sum(a, 0x8000_0000)
  {
    FlipIsAdd(a);
    assert Sum(a, 0x8000_0000) == a + 0x8000_0000;
  }
  lemma FlipIsAdd(a: Word)
    ensures a ^ 0x8000_0000 == a + 0x8000_0000
  {}
  lemma UintOfFlip(a: Word)
    ensures Uint(Flip(a)) == Sint(a) + 0x8000_0000
  {
    hide Uint, Flip, Sum;
    FlipIsSum(a);
    UintOfSum(a, 0x8000_0000);
    UintOfSignBit();
  }
  lemma SLtByFlip(a: Word, b: Word)
    ensures SLt(a, b) == Less(Flip(a), Flip(b))
  {
    assert Flip(a) == a ^ 0x8000_0000 && Flip(b) == b ^ 0x8000_0000;
    assert Less(a ^ 0x8000_0000, b ^ 0x8000_0000) == ((a ^ 0x8000_0000) < (b ^ 0x8000_0000));
  }
  /** Signed comparison is comparison of signed values. */
  lemma SignedOrder(a: Word, b: Word)
    ensures SLt(a, b) <==> Sint(a) < Sint(b)
  {
    hide SLt, Less, Flip, Uint, Sint;
    SLtByFlip(a, b);
    UintOfFlip(a);
    UintOfFlip(b);
    UintOrder(Flip(a), Flip(b));
  }

  // ---- shifts ----

  function Pow2(n: nat): nat { if n == 0 then 1 else 2 * Pow2(n - 1) }

  lemma {:induction false} Pow2Positive(n: nat)
    ensures Pow2(n) > 0
  {
    if n > 0 { Pow2Positive(n - 1); }
  }

  function Shl(a: Word, s: Word): Word
    requires s < 32
  {
    a << s
  }
  function Shr(a: Word, s: Word): Word
    requires s < 32
  {
    a >> s
  }
  function Doubled(a: Word): Word { a << 1 }
  function Halved(a: Word): Word { a >> 1 }

  lemma DoubleIsSum(a: Word)
    ensures Doubled(a) == Sum(a, a)
  {
    DoubleIsAdd(a);
    assert Sum(a, a) == a + a;
  }
  lemma DoubleIsAdd(a: Word)
    ensures a << 1 == a + a
  {}

  function EvenPart(a: Word): Word { a & 0xFFFF_FFFE }
  function LowBit(a: Word): Word { a & 1 }
  lemma TwoHalves(a: Word)
    ensures Sum(Halved(a), Halved(a)) == EvenPart(a)
  {
    TwoHalvesAdd(a);
    assert Halved(a) == a >> 1;
    assert Sum(a >> 1, a >> 1) == (a >> 1) + (a >> 1);
  }
  lemma TwoHalvesAdd(a: Word)
    ensures (a >> 1) + (a >> 1) == a & 0xFFFF_FFFE
  {}
  lemma EvenAndLow(a: Word)
    ensures Sum(EvenPart(a), LowBit(a)) == a
  {
    EvenAndLowAdd(a);
    assert EvenPart(a) == a & 0xFFFF_FFFE && LowBit(a) == a & 1;
    assert Sum(a & 0xFFFF_FFFE, a & 1) == (a & 0xFFFF_FFFE) + (a & 1);
  }
  lemma EvenAndLowAdd(a: Word)
    ensures (a & 0xFFFF_FFFE) + (a & 1) == a
  {}
  lemma LowBitIsSmall(a: Word)
    ensures LowBit(a) == 0 || LowBit(a) == 1
  {}
  lemma HalfIsSmall(a: Word)
    ensures Less(Halved(a), 0x8000_0000)
  {}
  lemma UintOfOne()
    ensures Uint(1) == 1
  {
    assert Num8(1) == 1 && Num8(0) == 0;
    hide Num8;
  }
  lemma UintOfHalf(a: Word)
    ensures Uint(Halved(a)) == Uint(a) / 2
  {
    hide Uint, Halved, Sum, EvenPart, LowBit, Less;
    TwoHalves(a);
    EvenAndLow(a);
    LowBitIsSmall(a);
    HalfIsSmall(a);
    UintOfSignBit();
    UintOfEnds();
    UintOfOne();
    UintOrder(Halved(a), 0x8000_0000);
    UintOfSum(Halved(a), Halved(a));
    UintOfSum(EvenPart(a), LowBit(a));
  }

  lemma ShlOfNextLeft(a: Word, s: Word)
    requires s < 31
    ensures Next(s) < 32 && Shl(a, Next(s)) == a << (s + 1)
  {
    assert Next(s) == s + 1;
    assert Shl(a, s + 1) == a << (s + 1);
  }
  lemma ShlOfNextRight(a: Word, s: Word)
    requires s < 31
    ensures Doubled(Shl(a, s)) == (a << s) << 1
  {
    assert Shl(a, s) == a << s;
    assert Doubled(a << s) == (a << s) << 1;
  }
  lemma ShiftsLeftCompose(a: Word, s: Word)
    requires s < 31
    ensures (a << s) << 1 == a << (s + 1)
  {}
  lemma ShlOfNext(a: Word, s: Word)
    requires s < 31
    ensures Next(s) < 32 && Shl(a, Next(s)) == Doubled(Shl(a, s))
  {
    hide Shl, Next, Doubled;
    ShlOfNextLeft(a, s);
    ShlOfNextRight(a, s);
    ShiftsLeftCompose(a, s);
  }
  lemma ShrOfNextLeft(a: Word, s: Word)
    requires s < 31
    ensures Next(s) < 32 && Shr(a, Next(s)) == a >> (s + 1)
  {
    assert Next(s) == s + 1;
    assert Shr(a, s + 1) == a >> (s + 1);
  }
  lemma ShrOfNextRight(a: Word, s: Word)
    requires s < 31
    ensures Halved(Shr(a, s)) == (a >> s) >> 1
  {
    assert Shr(a, s) == a >> s;
    assert Halved(a >> s) == (a >> s) >> 1;
  }
  lemma ShiftsRightCompose(a: Word, s: Word)
    requires s < 31
    ensures (a >> s) >> 1 == a >> (s + 1)
  {}
  lemma ShrOfNext(a: Word, s: Word)
    requires s < 31
    ensures Next(s) < 32 && Shr(a, Next(s)) == Halved(Shr(a, s))
  {
    hide Shr, Next, Halved;
    ShrOfNextLeft(a, s);
    ShrOfNextRight(a, s);
    ShiftsRightCompose(a, s);
  }
  lemma NoShift(a: Word)
    ensures Shl(a, 0) == a && Shr(a, 0) == a
  {}
  lemma PrevOfShift(s: Word)
    requires 0 < s < 32
    ensures Prev(s) < 31
  {}

  lemma DoubleOfMod(x: int)
    ensures (x % TWO32 + x % TWO32) % TWO32 == (2 * x) % TWO32
  {}
  lemma TimesTwice(x: nat, p: nat)
    ensures 2 * (x * p) == x * (2 * p)
  {}
  lemma HalfOfQuotient(x: nat, p: nat)
    requires p > 0
    ensures x / p / 2 == x / (2 * p)
  {
    DivMod(x, p);
    var q, r := x / p, x % p;
    var h, b := q / 2, q % 2;
    assert q == 2 * h + b;
    assert x == h * (2 * p) + (b * p + r) by {
      assert (2 * h + b) * p == h * (2 * p) + b * p;
    }
    assert 0 <= b * p + r < 2 * p by { if b == 1 { assert b * p == p; } else { assert b * p == 0; } }
    FloorIs(x, 2 * p, h, b * p + r);
  }
  lemma MultipleIsFar(k: int, d: int)
    requires d > 0
    ensures k >= 1 ==> k * d >= d
    ensures k <= -1 ==> k * d <= -d
  {}
  lemma DivMod(x: int, d: nat)
    requires d > 0
    ensures x == x / d * d + x % d && 0 <= x % d < d
  {}
  /** The floor of a quotient is the one number with a remainder in range. */
  lemma FloorIs(x: int, d: nat, h: int, r: nat)
    requires d > 0 && x == h * d + r && r < d
    ensures x / d == h
  {
    DivMod(x, d);
    assert (x / d - h) * d == r - x % d;
    MultipleIsFar(x / d - h, d);
  }
  lemma ProductGrows(q: nat, p: nat)
    requires p > 0
    ensures q <= q * p
  {}

  /** A left shift is multiplication by a power of two, modulo 2^32. */
  lemma {:induction false} UintOfShl(a: Word, s: Word)
    requires s < 32
    ensures Uint(Shl(a, s)) == Uint(a) * Pow2(Uint(s)) % TWO32
    decreases Uint(s)
  {
    hide Uint, Shl, Next, Prev, Doubled, Sum;
    UintOfEnds();
    if s == 0 {
      NoShift(a);
    } else {
      var p := Prev(s);
      PrevOfShift(s);
      UintOfPrev(s);
      NextOfPrev(s);
      UintOfShl(a, p);
      ShlOfNext(a, p);
      DoubleIsSum(Shl(a, p));
      UintOfSum(Shl(a, p), Shl(a, p));
      DoubleOfMod(Uint(a) * Pow2(Uint(p)));
      TimesTwice(Uint(a), Pow2(Uint(p)));
    }
  }
  /** A right shift is the floor of a quotient. */
  lemma {:induction false} UintOfShr(a: Word, s: Word)
    requires s < 32
    ensures Pow2(Uint(s)) > 0 && Uint(Shr(a, s)) == Uint(a) / Pow2(Uint(s))
    decreases Uint(s)
  {
    hide Uint, Shr, Next, Prev, Halved;
    UintOfEnds();
    Pow2Positive(Uint(s));
    if s == 0 {
      NoShift(a);
    } else {
      var p := Prev(s);
      PrevOfShift(s);
      UintOfPrev(s);
      NextOfPrev(s);
      UintOfShr(a, p);
      ShrOfNext(a, p);
      UintOfHalf(Shr(a, p));
      HalfOfQuotient(Uint(a), Pow2(Uint(p)));
    }
  }

  function Not(a: Word): Word { !a }
  lemma SumOfNot(a: Word)
    ensures Sum(a, Not(a)) == 0xFFFF_FFFF
  {
    AddNot(a);
    assert Not(a) == !a;
    assert Sum(a, !a) == a + !a;
  }
  lemma AddNot(a: Word)
    ensures a + !a == 0xFFFF_FFFF
  {}
  lemma UintOfNot(a: Word)
    ensures Uint(Not(a)) == TWO32 - 1 - Uint(a)
  {
    hide Uint, Not, Sum;
    SumOfNot(a);
    UintOfSum(a, Not(a));
    UintOfEnds();
  }

  /** The shift amount: the low five bits. */
  function Low5(b: Word): (r: Word)
    ensures r < 32
  {
    b & 0x1F
  }
  lemma Low5Bytes(b: Word)
    ensures ByteOf(Low5(b), 24) == 0 && ByteOf(Low5(b), 16) == 0 && ByteOf(Low5(b), 8) == 0
    ensures ByteOf(Low5(b), 0) == ByteOf(b, 0) & 0x1F
  {}
  lemma Num8Low5(b: bv8)
    ensures Num8(b & 0x1F) == Num8(b) % 32
  {}
  lemma UintOfLow5(b: Word)
    ensures Uint(Low5(b)) == Uint(b) % 32
  {
    hide ByteOf, Num8, Low5;
    Low5Bytes(b);
    Num8Low5(ByteOf(b, 0));
    Num8Ends();
  }

  lemma SraUnfolds(a: Word, b: Word)
    ensures Low5(b) < 32
    ensures Sra(a, b) == if Negative(a) then Not(Shr(Not(a), Low5(b))) else Shr(a, Low5(b))
  {}
  lemma FloorOfNegative(n: nat, p: nat)
    requires p > 0
    ensures (-1 - n) / p == -1 - n / p
  {
    DivMod(n, p);
    var q: nat, r: nat := n / p, n % p;
    assert -1 - n == (-1 - q) * p + (p - 1 - r) by { assert (-1 - q) * p == -1 * p - q * p; }
    FloorIs(-1 - n, p, -1 - q, p - 1 - r);
  }
  lemma QuotientIsSmaller(n: nat, p: nat)
    requires p > 0
    ensures 0 <= n / p <= n
  {
    DivMod(n, p);
    ProductGrows(n / p, p);
  }
  /** An arithmetic right shift is the floor of the signed quotient. */
  lemma SintOfSra(a: Word, b: Word)
    ensures Pow2(Uint(b) % 32) > 0 && Sint(Sra(a, b)) == Sint(a) / Pow2(Uint(b) % 32)
  {
    hide Uint, Sra, Shr, Not, Low5, Negative;
    SraUnfolds(a, b);
    NegativeBySign(a);
    UintOfLow5(b);
    var p := Pow2(Uint(b) % 32);
    Pow2Positive(Uint(b) % 32);
    if Negative(a) {
      UintOfNot(a);
      UintOfShr(Not(a), Low5(b));
      UintOfNot(Shr(Not(a), Low5(b)));
      FloorOfNegative(Uint(Not(a)), p);
      QuotientIsSmaller(Uint(Not(a)), p);
    } else {
      UintOfShr(a, Low5(b));
      QuotientIsSmaller(Uint(a), p);
    }
  }

  // ---- bits ----

  function Xor(a: Word, b: Word): Word { a ^ b }
  function Or(a: Word, b: Word): Word { a | b }
  function And(a: Word, b: Word): Word { a & b }

  lemma XorOfEqual(a: Word, b: Word, k: bv5)
    requires OneBit(a, k) == OneBit(b, k)
    ensures !OneBit(Xor(a, b), k)
  {}
  lemma XorLeft(a: Word, b: Word, k: bv5)
    requires OneBit(a, k) && !OneBit(b, k)
    ensures OneBit(Xor(a, b), k)
  {}
  lemma XorRight(a: Word, b: Word, k: bv5)
    requires !OneBit(a, k) && OneBit(b, k)
    ensures OneBit(Xor(a, b), k)
  {}
  lemma BitOfXor(a: Word, b: Word, k: bv5)
    ensures OneBit(Xor(a, b), k) <==> OneBit(a, k) != OneBit(b, k)
  {
    hide OneBit, Xor;
    if OneBit(a, k) == OneBit(b, k) {
      XorOfEqual(a, b, k);
    } else if OneBit(a, k) {
      XorLeft(a, b, k);
    } else {
      XorRight(a, b, k);
    }
  }
  lemma BitOfAnd(a: Word, b: Word, k: bv5)
    ensures OneBit(And(a, b), k) <==> OneBit(a, k) && OneBit(b, k)
  {}
  lemma BitOfNot(a: Word, k: bv5)
    ensures OneBit(Not(a), k) <==> !OneBit(a, k)
  {}
  lemma OrLeft(a: Word, b: Word, k: bv5)
    requires OneBit(a, k)
    ensures OneBit(Or(a, b), k)
  {}
  lemma OrRight(a: Word, b: Word, k: bv5)
    requires OneBit(b, k)
    ensures OneBit(Or(a, b), k)
  {}
  lemma OrOfClear(a: Word, b: Word, k: bv5)
    requires !OneBit(a, k) && !OneBit(b, k)
    ensures !OneBit(Or(a, b), k)
  {}
  lemma BitOfOr(a: Word, b: Word, k: bv5)
    ensures OneBit(Or(a, b), k) <==> OneBit(a, k) || OneBit(b, k)
  {
    hide OneBit, Or;
    if OneBit(a, k) {
      OrLeft(a, b, k);
    } else if OneBit(b, k) {
      OrRight(a, b, k);
    } else {
      OrOfClear(a, b, k);
    }
  }
}
