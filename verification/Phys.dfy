/** Physical memory as a bus master sees it: RAM bytes, and a device answer for every other
    address. An access that is not wholly inside RAM never changes RAM
    (src/mem/memory.cpp:19-24, src/bus/tlm_bus.cpp:54-60). */
module Phys {
  import opened Rv32

  /** A byte address. */
  datatype Addr = At(a: Word)

  type Ram = map<Addr, bv8>

  /** What the bus returns for a read outside RAM: a device register, or 0 when nothing is mapped. */
  type Io = Word -> Word

  /** The three access widths: one, two and four bytes. */
  datatype Size = Byte | Half | Whole

  predicate InRam(m: Ram, a: Word, sz: Size) {
    match sz
    case Byte => At(a) in m
    case Half => At(a) in m && At(a + 1) in m
    case Whole => At(a) in m && At(a + 1) in m && At(a + 2) in m && At(a + 3) in m
  }

  /** Four bytes as one word, lowest address first. */
  function Join(x0: bv8, x1: bv8, x2: bv8, x3: bv8): Word {
    (x0 as Word) | ((x1 as Word) << 8) | ((x2 as Word) << 16) | ((x3 as Word) << 24)
  }

  /** A little-endian, zero-extended read. */
  function Load(m: Ram, io: Io, a: Word, sz: Size): Word {
    if InRam(m, a, sz) then
      match sz
      case Byte => m[At(a)] as Word
      case Half => (m[At(a)] as Word) | ((m[At(a + 1)] as Word) << 8)
      case Whole =>
        Join(m[At(a)], m[At(a + 1)], m[At(a + 2)], m[At(a + 3)])
    else
      io(a) & Mask(sz)
  }

  function Mask(sz: Size): Word {
    match sz case Byte => 0xFF case Half => 0xFFFF case Whole => 0xFFFF_FFFF
  }

  function ByteOf(v: Word, k: bv5): bv8 { ((v >> k) & 0xFF) as bv8 }

  function Store(m: Ram, a: Word, v: Word, sz: Size): (m': Ram)
    ensures m'.Keys == m.Keys
  {
    if InRam(m, a, sz) then
      match sz
      case Byte => m[At(a) := ByteOf(v, 0)]
      case Half => m[At(a) := ByteOf(v, 0)][At(a + 1) := ByteOf(v, 8)]
      case Whole =>
        m[At(a) := ByteOf(v, 0)][At(a + 1) := ByteOf(v, 8)][At(a + 2) := ByteOf(v, 16)][At(a + 3) := ByteOf(v, 24)]
    else m
  }

  predicate Aligned4(a: Word) { a & 3 == 0 }

  /** Whether byte `b` is one of the bytes of an access at `a`. */
  predicate Covers(a: Word, sz: Size, b: Word) {
    match sz
    case Byte => b == a
    case Half => b == a || b == a + 1
    case Whole => b == a || b == a + 1 || b == a + 2 || b == a + 3
  }

  /** Whether an access at `a` touches some byte of the word at `w`. */
  predicate Touches(a: Word, sz: Size, w: Word) {
    Covers(a, sz, w) || Covers(a, sz, w + 1) || Covers(a, sz, w + 2) || Covers(a, sz, w + 3)
  }

  lemma BytesOfWord(v: Word)
    ensures Join(ByteOf(v, 0), ByteOf(v, 8), ByteOf(v, 16), ByteOf(v, 24)) == v
  {}

  lemma AlignedWordsAreDisjoint(a: Word, b: Word)
    requires Aligned4(a) && Aligned4(b) && a != b
    ensures !Touches(a, Whole, b)
  {}

  lemma StoreKeepsByte(m: Ram, a: Word, v: Word, sz: Size, b: Word)
    requires At(b) in m && !Covers(a, sz, b)
    ensures Store(m, a, v, sz)[At(b)] == m[At(b)]
  {
    hide ByteOf;
  }

  lemma StoreKeepsInRam(m: Ram, a: Word, v: Word, sz: Size, b: Word, sz': Size)
    ensures InRam(Store(m, a, v, sz), b, sz') == InRam(m, b, sz')
  {
    var n := Store(m, a, v, sz);
    hide Store;
    assert At(b) in n.Keys <==> At(b) in m.Keys;
    assert At(b + 1) in n.Keys <==> At(b + 1) in m.Keys;
    assert At(b + 2) in n.Keys <==> At(b + 2) in m.Keys;
    assert At(b + 3) in n.Keys <==> At(b + 3) in m.Keys;
  }

  /** A store leaves every word it does not touch as it was. */
  lemma StoreElsewhere(m: Ram, io: Io, a: Word, v: Word, sz: Size, w: Word)
    requires !Touches(a, sz, w)
    ensures Load(Store(m, a, v, sz), io, w, Whole) == Load(m, io, w, Whole)
  {
    StoreKeepsInRam(m, a, v, sz, w, Whole);
    if InRam(m, w, Whole) {
      StoreKeepsByte(m, a, v, sz, w);
      StoreKeepsByte(m, a, v, sz, w + 1);
      StoreKeepsByte(m, a, v, sz, w + 2);
      StoreKeepsByte(m, a, v, sz, w + 3);
      hide Store, Covers, Touches, Join;
    }
  }

  lemma StoredBytes(m: Ram, a: Word, v: Word)
    requires InRam(m, a, Whole)
    ensures var n := Store(m, a, v, Whole);
      n[At(a)] == ByteOf(v, 0) && n[At(a + 1)] == ByteOf(v, 8) && n[At(a + 2)] == ByteOf(v, 16) && n[At(a + 3)] == ByteOf(v, 24)
  {
    hide ByteOf;
  }

  /** A word store is read back. */
  lemma StoreThenLoad(m: Ram, io: Io, a: Word, v: Word)
    requires InRam(m, a, Whole)
    ensures Load(Store(m, a, v, Whole), io, a, Whole) == v
  {
    BytesOfWord(v);
    StoredBytes(m, a, v);
    StoreKeepsInRam(m, a, v, Whole, a, Whole);
    hide ByteOf, Store, Join;
  }

  // ---- memories that differ at most in the A and D bits of aligned words ----

  function StripAD(pte: Word): Word { pte & 0xFFFF_FF3F }

  predicate SameByte(a: Word, x: bv8, y: bv8) {
    if Aligned4(a) then x & 0x3F == y & 0x3F else x == y
  }

  /** Equal except that bits 6 and 7 of any aligned word may differ. */
  ghost predicate SameButAD(m1: Ram, m2: Ram) {
    m1.Keys == m2.Keys && forall a | At(a) in m1 :: SameByte(a, m1[At(a)], m2[At(a)])
  }

  lemma SameButADReflexive(m: Ram)
    ensures SameButAD(m, m)
  {}

  lemma SameButADTransitive(m1: Ram, m2: Ram, m3: Ram)
    requires SameButAD(m1, m2) && SameButAD(m2, m3)
    ensures SameButAD(m1, m3)
  {
    forall a | At(a) in m1 ensures SameByte(a, m1[At(a)], m3[At(a)]) {
      assert SameByte(a, m1[At(a)], m2[At(a)]) && SameByte(a, m2[At(a)], m3[At(a)]);
    }
  }

  lemma SameButADSymmetric(m1: Ram, m2: Ram)
    requires SameButAD(m1, m2)
    ensures SameButAD(m2, m1)
  {
    forall a | At(a) in m2 ensures SameByte(a, m2[At(a)], m1[At(a)]) { assert SameByte(a, m1[At(a)], m2[At(a)]); }
  }

  lemma StripOfJoin(x0: bv8, x1: bv8, x2: bv8, x3: bv8)
    ensures StripAD(Join(x0, x1, x2, x3)) == Join(x0 & 0x3F, x1, x2, x3)
  {}

  lemma NextBytesUnaligned(w: Word)
    requires Aligned4(w)
    ensures !Aligned4(w + 1) && !Aligned4(w + 2) && !Aligned4(w + 3)
  {}

  /** Words of such memories agree once A and D are masked. */
  lemma SameButADWords(m1: Ram, m2: Ram, io: Io, w: Word)
    requires SameButAD(m1, m2) && Aligned4(w)
    ensures StripAD(Load(m1, io, w, Whole)) == StripAD(Load(m2, io, w, Whole))
  {
    hide StripAD, Join;
    assert InRam(m1, w, Whole) == InRam(m2, w, Whole);
    if InRam(m1, w, Whole) {
      NextBytesUnaligned(w);
      hide Aligned4;
      assert SameByte(w, m1[At(w)], m2[At(w)]) && SameByte(w + 1, m1[At(w + 1)], m2[At(w + 1)]);
      assert SameByte(w + 2, m1[At(w + 2)], m2[At(w + 2)]) && SameByte(w + 3, m1[At(w + 3)], m2[At(w + 3)]);
      StripOfJoin(m1[At(w)], m1[At(w + 1)], m1[At(w + 2)], m1[At(w + 3)]);
      StripOfJoin(m2[At(w)], m2[At(w + 1)], m2[At(w + 2)], m2[At(w + 3)]);
    }
  }

  lemma SameByteReflexive(a: Word, x: bv8)
    ensures SameByte(a, x, x)
  {}

  /** Storing the same value on both sides keeps the relation. */
  lemma SameButADStore(m1: Ram, m2: Ram, a: Word, v: Word, sz: Size)
    requires SameButAD(m1, m2)
    ensures SameButAD(Store(m1, a, v, sz), Store(m2, a, v, sz))
  {
    var n1, n2 := Store(m1, a, v, sz), Store(m2, a, v, sz);
    hide ByteOf, SameByte;
    assert InRam(m1, a, sz) == InRam(m2, a, sz);
    forall b | At(b) in n1 ensures SameByte(b, n1[At(b)], n2[At(b)]) {
      assert SameByte(b, m1[At(b)], m2[At(b)]);
      SameByteReflexive(b, n1[At(b)]);
    }
  }

  lemma JoinedBytes(x0: bv8, x1: bv8, x2: bv8, x3: bv8)
    ensures var v := Join(x0, x1, x2, x3);
      ByteOf(v, 0) == x0 && ByteOf(v, 8) == x1 && ByteOf(v, 16) == x2 && ByteOf(v, 24) == x3
  {}

  lemma BytesOfLoad(m: Ram, io: Io, w: Word)
    requires InRam(m, w, Whole)
    ensures var v := Load(m, io, w, Whole);
      ByteOf(v, 0) == m[At(w)] && ByteOf(v, 8) == m[At(w + 1)] && ByteOf(v, 16) == m[At(w + 2)] && ByteOf(v, 24) == m[At(w + 3)]
  {
    var v := Load(m, io, w, Whole);
    JoinedBytes(m[At(w)], m[At(w + 1)], m[At(w + 2)], m[At(w + 3)]);
    hide ByteOf, Join;
  }

  // Equal words up to A and D have equal bytes up to bits 6 and 7 of the lowest.
  lemma StrippedByte0(x: Word, y: Word)
    requires StripAD(x) == StripAD(y)
    ensures ByteOf(x, 0) & 0x3F == ByteOf(y, 0) & 0x3F
  {}
  lemma StrippedByte1(x: Word, y: Word)
    requires StripAD(x) == StripAD(y)
    ensures ByteOf(x, 8) == ByteOf(y, 8)
  {}
  lemma StrippedByte2(x: Word, y: Word)
    requires StripAD(x) == StripAD(y)
    ensures ByteOf(x, 16) == ByteOf(y, 16)
  {}
  lemma StrippedByte3(x: Word, y: Word)
    requires StripAD(x) == StripAD(y)
    ensures ByteOf(x, 24) == ByteOf(y, 24)
  {}

  /** Rewriting an aligned word with a value that differs only in A and D keeps the relation. */
  lemma StoreOfADBits(m: Ram, io: Io, w: Word, v: Word)
    requires Aligned4(w) && StripAD(v) == StripAD(Load(m, io, w, Whole))
    ensures SameButAD(m, Store(m, w, v, Whole))
  {
    var n := Store(m, w, v, Whole);
    if InRam(m, w, Whole) {
      var was := Load(m, io, w, Whole);
      StrippedByte0(v, was);
      StrippedByte1(v, was);
      StrippedByte2(v, was);
      StrippedByte3(v, was);
      BytesOfLoad(m, io, w);
      StoredBytes(m, w, v);
      hide ByteOf, StripAD, Load, Store;
      forall b | At(b) in m ensures SameByte(b, m[At(b)], n[At(b)]) {
        if !Covers(w, Whole, b) { StoreKeepsByte(m, w, v, Whole, b); }
      }
    }
  }
}
