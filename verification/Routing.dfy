/** The hart's memory is the bus's memory: on a bus with one RAM, a routed access is Phys.Load and
    Phys.Store on its bytes (src/cpu/iss.cpp:188-236, src/mem/memory.cpp:11-41). */
module Routing {
  import opened Rv32
  import opened Phys
  import opened Numbers
  import opened Bus
  import opened Memory
  import opened Dmi

  // ---- the bytes of an access ----

  /** Address k further on, for the bytes of one access. */
  function Further(a: Word, k: nat): Word
    requires k < 4
  {
    if k == 0 then a else if k == 1 then a + 1 else if k == 2 then a + 2 else a + 3
  }
  lemma FurtherIsNext(a: Word, k: nat)
    requires k < 3
    ensures Further(a, k + 1) == Next(Further(a, k))
  {
    if k == 1 { TwoIsNext(a); }
    if k == 2 { ThreeIsNext(a); }
  }
  lemma TwoIsNext(a: Word)
    ensures a + 2 == Next(a + 1)
  {}
  lemma ThreeIsNext(a: Word)
    ensures a + 3 == Next(a + 2)
  {}
  lemma UintOfFurther(a: Word, k: nat)
    requires k < 4 && Uint(a) + k < TOP
    ensures Uint(Further(a, k)) == Uint(a) + k
  {
    hide Uint, Further, Next;
    assert Further(a, 0) == a by { FurtherNone(a); }
    for j := 0 to k
      invariant Uint(Further(a, j)) == Uint(a) + j
    {
      UintOfEnds();
      FurtherIsNext(a, j);
      UintOfNext(Further(a, j));
    }
  }
  lemma FurtherNone(a: Word)
    ensures Further(a, 0) == a
  {}

  /** Past the top, some byte of the access is the very last address. */
  lemma WrapTouchesTop(a: Word, n: nat)
    requires 1 <= n <= 4 && Uint(a) + n >= TOP
    ensures exists k: nat :: k < n && Uint(Further(a, k)) == TOP - 1
  {
    hide Uint, Further;
    UintOfFurther(a, TOP - 1 - Uint(a));
  }

  // ---- one RAM ----

  /** The byte map of the hart and the byte array of the RAM at `base` have the same contents. */
  ghost predicate Represents(ram: Phys.Ram, base: U32, cells: Bytes) {
    forall a: Word ::
      && (At(a) in ram <==> base <= Uint(a) < base + |cells|)
      && (At(a) in ram ==> ram[At(a)] == cells[Uint(a) - base])
  }

  function WidthOf(sz: Size): Width { match sz case Byte => 1 case Half => 2 case Whole => 4 }

  lemma InRamHasByte(ram: Phys.Ram, a: Word, sz: Size, k: nat)
    requires InRam(ram, a, sz) && k < WidthOf(sz)
    ensures At(Further(a, k)) in ram
  {}
  lemma BytesAreInRam(ram: Phys.Ram, a: Word, sz: Size)
    requires var n := WidthOf(sz);
      At(Further(a, 0)) in ram && (n > 1 ==> At(Further(a, 1)) in ram)
      && (n > 2 ==> At(Further(a, 2)) in ram && At(Further(a, 3)) in ram)
    ensures InRam(ram, a, sz)
  {
    hide Further;
    FurtherTable(a);
  }
  lemma FurtherTable(a: Word)
    ensures Further(a, 0) == a && Further(a, 1) == a + 1 && Further(a, 2) == a + 2 && Further(a, 3) == a + 3
  {}
  lemma InRamIsBytes(ram: Phys.Ram, a: Word, sz: Size)
    ensures InRam(ram, a, sz) <==> forall k: nat :: k < WidthOf(sz) ==> At(Further(a, k)) in ram
  {
    hide Further, InRam;
    if InRam(ram, a, sz) {
      forall k: nat | k < WidthOf(sz) ensures At(Further(a, k)) in ram { InRamHasByte(ram, a, sz, k); }
    }
    if forall k: nat :: k < WidthOf(sz) ==> At(Further(a, k)) in ram { BytesAreInRam(ram, a, sz); }
  }

  /** Inside RAM for the hart means inside the range for the bus. */
  lemma InRamIsInRange(ram: Phys.Ram, base: U32, cells: Bytes, a: Word, sz: Size)
    requires Represents(ram, base, cells) && base + |cells| < TOP
    ensures InRam(ram, a, sz) <==> base <= Uint(a) && Uint(a) + WidthOf(sz) <= base + |cells|
  {
    hide Uint, Further, InRam;
    InRamIsBytes(ram, a, sz);
    var n: nat := WidthOf(sz);
    FurtherNone(a);
    if Uint(a) + n >= TOP {
      WrapTouchesTop(a, n);
    } else {
      forall k: nat | k < n ensures Uint(Further(a, k)) == Uint(a) + k { UintOfFurther(a, k); }
      if InRam(ram, a, sz) {
        assert At(Further(a, 0)) in ram && At(Further(a, n - 1)) in ram;
      }
    }
  }

  /** A word from its bytes, lowest address first, as memcpy leaves it. */
  function Joined(b: WidthBytes): Word {
    if |b| == 1 then b[0] as Word
    else if |b| == 2 then (b[0] as Word) | ((b[1] as Word) << 8)
    else Join(b[0], b[1], b[2], b[3])
  }
  /** The bytes of a word that a store of this width writes. */
  function Split(v: Word, sz: Size): (b: WidthBytes)
    ensures |b| == WidthOf(sz)
  {
    match sz
    case Byte => [ByteOf(v, 0)]
    case Half => [ByteOf(v, 0), ByteOf(v, 8)]
    case Whole => [ByteOf(v, 0), ByteOf(v, 8), ByteOf(v, 16), ByteOf(v, 24)]
  }

  ghost function OneRam(base: U32, cells: Bytes): seq<Range>
    requires |cells| < TOP
  {
    [Range(base, |cells|, 0)]
  }

  lemma OneRamFits(base: U32, cells: Bytes)
    requires |cells| < TOP
    ensures Fits(OneRam(base, cells), [RamTarget(cells)])
  {}

  /** Where an access goes on that bus. */
  lemma OneRamRead(base: U32, cells: Bytes, a: U32, n: Width, dev: Answer)
    requires base + |cells| < TOP
    ensures var rs, ts := OneRam(base, cells), [RamTarget(cells)];
      && Fits(rs, ts)
      && (base <= a && a + n <= base + |cells| ==> RoutedRead(rs, ts, a, n, dev) == Data(cells[a - base..a - base + n]))
      && (!(base <= a && a + n <= base + |cells|) ==> !RoutedRead(rs, ts, a, n, dev).Data?)
  {
    OneRamFits(base, cells);
  }
  lemma OneRamWrite(base: U32, cells: Bytes, a: U32, data: WidthBytes, dev: Answer)
    requires base + |cells| < TOP
    ensures var rs, ts := OneRam(base, cells), [RamTarget(cells)];
      && Fits(rs, ts)
      && RoutedWrite(rs, ts, a, data, dev).ts ==
           if base <= a && a + |data| <= base + |cells| then [RamTarget(Splice(cells, a - base, data))] else ts
  {
    OneRamFits(base, cells);
  }

  /** The bytes of an access inside RAM, as the hart's map holds them. */
  ghost function Held(ram: Phys.Ram, a: Word, n: Width): WidthBytes
    requires forall k: nat :: k < n ==> At(Further(a, k)) in ram
  {
    seq(n, k requires 0 <= k < n => ram[At(Further(a, k))])
  }
  lemma LoadIsHeld(ram: Phys.Ram, a: Word, sz: Size)
    requires InRam(ram, a, sz) && forall k: nat :: k < WidthOf(sz) ==> At(Further(a, k)) in ram
    ensures Load(ram, _ => 0, a, sz) == Joined(Held(ram, a, WidthOf(sz)))
  {
    hide Join;
  }

  lemma LoadJoins(ram: Phys.Ram, base: U32, cells: Bytes, a: Word, sz: Size)
    requires Represents(ram, base, cells) && base + |cells| < TOP && InRam(ram, a, sz)
    ensures base <= Uint(a) && Uint(a) + WidthOf(sz) <= base + |cells|
    ensures Load(ram, _ => 0, a, sz) == Joined(cells[Uint(a) - base..Uint(a) - base + WidthOf(sz)])
  {
    hide Uint, Further, InRam, Load, Joined;
    InRamIsInRange(ram, base, cells, a, sz);
    InRamIsBytes(ram, a, sz);
    var n, at := WidthOf(sz), Uint(a) - base;
    LoadIsHeld(ram, a, sz);
    forall k: nat | k < n ensures Held(ram, a, n)[k] == cells[at..at + n][k] { UintOfFurther(a, k); }
    assert Held(ram, a, n) == cells[at..at + n];
  }

  /** A routed read is the hart's load: the CPU sees the bytes of Load, zeros where nothing is mapped,
      unless the access strays. */
  lemma RoutedReadIsLoad(ram: Phys.Ram, base: U32, cells: Bytes, a: Word, sz: Size, dev: Answer)
    requires Represents(ram, base, cells) && base + |cells| < TOP
    ensures var rs, ts, n := OneRam(base, cells), [RamTarget(cells)], WidthOf(sz);
      && Fits(rs, ts)
      && var r := CpuSees(RoutedRead(rs, ts, Uint(a), n, dev), n);
         r.Stray? || (r.Data? && |r.bytes| == n && Joined(r.bytes) == Load(ram, _ => 0, a, sz))
  {
    hide Uint, RoutedRead, Load, InRam, Joined;
    OneRamRead(base, cells, Uint(a), WidthOf(sz), dev);
    InRamIsInRange(ram, base, cells, a, sz);
    if InRam(ram, a, sz) { LoadJoins(ram, base, cells, a, sz); } else { LoadOutside(ram, a, sz); }
  }
  lemma LoadOutside(ram: Phys.Ram, a: Word, sz: Size)
    requires !InRam(ram, a, sz)
    ensures Load(ram, _ => 0, a, sz) == 0 && Joined(seq(WidthOf(sz), _ => 0)) == 0
  {
    hide InRam;
  }

  lemma FurtherDiffer(a: Word)
    ensures a != a + 1 && a != a + 2 && a != a + 3 && a + 1 != a + 2 && a + 1 != a + 3 && a + 2 != a + 3
  {}
  lemma StoreHere(ram: Phys.Ram, a: Word, v: Word, sz: Size, k: nat)
    requires InRam(ram, a, sz) && k < WidthOf(sz) && At(Further(a, k)) in ram
    ensures Store(ram, a, v, sz)[At(Further(a, k))] == Split(v, sz)[k]
  {
    hide ByteOf;
    FurtherDiffer(a);
  }
  lemma StoreThere(ram: Phys.Ram, a: Word, v: Word, sz: Size, b: Word)
    requires InRam(ram, a, sz) && At(b) in ram && forall k: nat :: k < WidthOf(sz) ==> b != Further(a, k)
    ensures Store(ram, a, v, sz)[At(b)] == ram[At(b)]
  {
    NotCovered(a, sz, b);
    hide Store, Phys.Covers;
    StoreKeepsByte(ram, a, v, sz, b);
  }
  lemma NotCovered(a: Word, sz: Size, b: Word)
    requires forall k: nat :: k < WidthOf(sz) ==> b != Further(a, k)
    ensures !Phys.Covers(a, sz, b)
  {
    hide Further;
    FurtherTable(a);
    assert b != Further(a, 0);
    if sz != Byte { assert b != Further(a, 1); }
    if sz == Whole { assert b != Further(a, 2) && b != Further(a, 3); }
  }

  lemma StoredByte(ram: Phys.Ram, base: U32, cells: Bytes, a: Word, v: Word, sz: Size, b: Word)
    requires Represents(ram, base, cells) && base + |cells| < TOP && InRam(ram, a, sz) && At(b) in ram
    ensures base <= Uint(a) && Uint(a) + WidthOf(sz) <= base + |cells| && base <= Uint(b) < base + |cells|
    ensures Store(ram, a, v, sz)[At(b)] == Splice(cells, Uint(a) - base, Split(v, sz))[Uint(b) - base]
  {
    hide Uint, Further, InRam, Store, Split;
    InRamIsInRange(ram, base, cells, a, sz);
    var n, at: nat := WidthOf(sz), Uint(a) - base;
    if Uint(a) <= Uint(b) < Uint(a) + n {
      var k := Uint(b) - Uint(a);
      UintOfFurther(a, k);
      UintInjective(b, Further(a, k));
      StoreHere(ram, a, v, sz, k);
    } else {
      forall k: nat | k < n ensures b != Further(a, k) { UintOfFurther(a, k); }
      StoreThere(ram, a, v, sz, b);
    }
  }

  /** A routed write is the hart's store: the RAM then holds what Store leaves in the hart's map, and
      neither changes when the access is not wholly inside. */
  lemma RoutedWriteIsStore(ram: Phys.Ram, base: U32, cells: Bytes, a: Word, v: Word, sz: Size, dev: Answer)
    requires Represents(ram, base, cells) && base + |cells| < TOP
    ensures var rs, ts := OneRam(base, cells), [RamTarget(cells)];
      && Fits(rs, ts)
      && var us := RoutedWrite(rs, ts, Uint(a), Split(v, sz), dev).ts;
         |us| == 1 && us[0].RamTarget? && |us[0].cells| == |cells| && Represents(Store(ram, a, v, sz), base, us[0].cells)
  {
    hide Uint, RoutedWrite, InRam, Split, Splice;
    OneRamWrite(base, cells, Uint(a), Split(v, sz), dev);
    InRamIsInRange(ram, base, cells, a, sz);
    var ram' := Store(ram, a, v, sz);
    if InRam(ram, a, sz) {
      var cells' := Splice(cells, Uint(a) - base, Split(v, sz));
      forall b: Word ensures At(b) in ram' <==> base <= Uint(b) < base + |cells'| { assert At(b) in ram' <==> At(b) in ram; }
      forall b: Word | At(b) in ram' ensures ram'[At(b)] == cells'[Uint(b) - base] {
        assert At(b) in ram;
        StoredByte(ram, base, cells, a, v, sz, b);
      }
    } else {
      assert ram' == ram;
    }
  }
}
