/** Consequences of Sv32 translation that execution relies on: accesses stay in one page, a
    writable page is readable, and when the D bit is really set. */
module Paging {
  import opened Rv32
  import opened Phys
  import opened Mmu
  import opened TlbTransparency

  // ---- a naturally aligned access lies in one page ----

  predicate NaturallyAligned(va: Word, sz: Size) {
    match sz case Byte => true case Half => va & 1 == 0 case Whole => va & 3 == 0
  }
  predicate IndexIn(k: Word, sz: Size) {
    match sz case Byte => k == 0 case Half => k < 2 case Whole => k < 4
  }

  /** Byte k from an address. */
  function Offset(a: Word, k: Word): Word { a + k }

  /** The low two bits of the address have room for the byte index. */
  predicate NoCarry(va: Word, k: Word) { k < 4 && (va & 3) + k < 4 }

  lemma AlignedHasNoCarry(va: Word, k: Word, sz: Size)
    requires NaturallyAligned(va, sz) && IndexIn(k, sz)
    ensures NoCarry(va, k)
  {}
  lemma SamePageNumber(va: Word, k: Word)
    requires NoCarry(va, k)
    ensures PageOf(Offset(va, k)) == PageOf(va)
  {}
  lemma SmallPageSum(ppn: Word, va: Word, k: Word)
    requires NoCarry(va, k)
    ensures Compose(ppn, false, va + k) == Compose(ppn, false, va) + k
  {}
  lemma SmallPageOffset(ppn: Word, va: Word, k: Word)
    requires NoCarry(va, k)
    ensures Compose(ppn, false, Offset(va, k)) == Offset(Compose(ppn, false, va), k)
  {
    hide NoCarry, Compose;
    SmallPageSum(ppn, va, k);
  }
  lemma SuperPageSum(ppn: Word, va: Word, k: Word)
    requires NoCarry(va, k)
    ensures Compose(ppn, true, va + k) == Compose(ppn, true, va) + k
  {}
  lemma SuperPageOffset(ppn: Word, va: Word, k: Word)
    requires NoCarry(va, k)
    ensures Compose(ppn, true, Offset(va, k)) == Offset(Compose(ppn, true, va), k)
  {
    hide NoCarry, Compose;
    SuperPageSum(ppn, va, k);
  }

  function Plus(r: Xlate, k: Word): Xlate {
    match r case Mapped(p) => Mapped(Offset(p, k)) case PageFault(c) => PageFault(c)
  }

  lemma HitFollows(e: TlbEntry, va: Word, k: Word, acc: Access, priv: Word, mstatus: Word)
    requires NoCarry(va, k)
    ensures HitResult(e, Offset(va, k), acc, priv, mstatus) == Plus(HitResult(e, va, acc, priv, mstatus), k)
  {
    hide Offset, CheckPermissions, Compose, NoCarry;
    if e.super { SuperPageOffset(e.ppn, va, k); } else { SmallPageOffset(e.ppn, va, k); }
  }

  lemma LeafFollows(l: Leaf, va: Word, k: Word, acc: Access, priv: Word, mstatus: Word)
    requires NoCarry(va, k)
    ensures LeafResult(l, Offset(va, k), acc, priv, mstatus) == Plus(LeafResult(l, va, acc, priv, mstatus), k)
  {
    hide Offset, CheckPermissions, Compose, NoCarry, SuperAligned, Ppn;
    if l.Leaf? {
      if l.super { SuperPageOffset(Ppn(l.pte), va, k); } else { SmallPageOffset(Ppn(l.pte), va, k); }
    }
  }

  lemma SamePageSameLeaf(m: Ram, io: Io, satp: Word, va: Word, vb: Word)
    requires PageOf(vb) == PageOf(va)
    ensures FindLeaf(m, io, satp, vb) == FindLeaf(m, io, satp, va)
  {
    LeafOfPage(m, io, satp, va);
    LeafOfPage(m, io, satp, vb);
    hide FindLeaf, PageOf, BaseOf;
  }

  /** Byte k of a naturally aligned access is at the translation of va + k: same fault, or the
      physical address k further on; for 4 KB and 4 MB pages, on a hit and on a walk. */
  lemma AccessTranslatesBytewise(m: Ram, io: Io, t: Tlb, pick: Picker, satp: Word,
                                 va: Word, k: Word, sz: Size, acc: Access, priv: Word, mstatus: Word)
    requires NaturallyAligned(va, sz) && IndexIn(k, sz)
    ensures Translate(m, io, t, pick, satp, Offset(va, k), acc, priv, mstatus).result
         == Plus(Translate(m, io, t, pick, satp, va, acc, priv, mstatus).result, k)
  {
    hide Offset, NoCarry, NaturallyAligned, IndexIn, PageOf, Sv32On, HitResult, LeafResult, FindLeaf, WalkRam, Insert, EntryOf;
    AlignedHasNoCarry(va, k, sz);
    SamePageNumber(va, k);
    SamePageSameLeaf(m, io, satp, va, Offset(va, k));
    LeafFollows(FindLeaf(m, io, satp, va), va, k, acc, priv, mstatus);
    if PageOf(va) in t { HitFollows(t[PageOf(va)], va, k, acc, priv, mstatus); }
  }

  // ---- a writable page is readable ----

  predicate WritableIsReadable(flags: Word) { flags & PTE_W != 0 ==> flags & PTE_R != 0 }

  /** What `walk` refuses at lines 91-93 is what makes this an invariant of the cache. */
  ghost predicate CacheWellFormed(t: Tlb) {
    forall p | p in t :: WritableIsReadable(t[p].flags)
  }

  lemma AcceptedLeafIsWellFormed(pte: Word, acc: Access)
    requires !Malformed(pte)
    ensures WritableIsReadable(Flags(Marked(pte, acc)))
  {
    if acc.STORE? { AcceptedWithA(pte, 0xC0); } else { AcceptedWithA(pte, 0x40); }
    hide WritableIsReadable, Malformed, Flags;
  }

  lemma AcceptedWithA(pte: Word, bits: Word)
    requires !Malformed(pte) && (bits == 0x40 || bits == 0xC0)
    ensures WritableIsReadable(Flags(pte | bits))
  {
    assert Flags(pte | bits) & PTE_W == pte & PTE_W;
    assert Flags(pte | bits) & PTE_R == pte & PTE_R;
    hide Flags;
  }

  lemma TranslateKeepsWellFormed(m: Ram, io: Io, t: Tlb, pick: Picker, satp: Word,
                                 va: Word, acc: Access, priv: Word, mstatus: Word)
    requires CacheWellFormed(t)
    ensures CacheWellFormed(Translate(m, io, t, pick, satp, va, acc, priv, mstatus).tlb)
  {
    hide WalkResult, WalkRam, FindLeaf, HitResult, PageOf, Sv32On, Victim, WritableIsReadable, Malformed, Marked, Flags;
    if PageOf(va) !in t && WalkResult(m, io, satp, va, acc, priv, mstatus).Mapped? {
      MappedHasLeaf(m, io, satp, va, acc, priv, mstatus);
      LeafIsLoaded(m, io, satp, va);
      AcceptedLeafIsWellFormed(FindLeaf(m, io, satp, va).pte, acc);
    }
  }

  lemma StorableIsLoadable(pte: Word, priv: Word, mstatus: Word)
    requires WritableIsReadable(pte) && CheckPermissions(pte, STORE, priv, mstatus)
    ensures CheckPermissions(pte, LOAD, priv, mstatus)
  {
    assert pte & PTE_R != 0 ==> pte & (PTE_R | PTE_X) != 0;
  }

  lemma AcceptedIsReadable(pte: Word)
    requires !Malformed(pte)
    ensures WritableIsReadable(pte)
  {}

  /** A faulting translation reports the cause of its access type and changes nothing. */
  lemma FaultChangesNothing(m: Ram, io: Io, t: Tlb, pick: Picker, satp: Word,
                            va: Word, acc: Access, priv: Word, mstatus: Word)
    ensures var o := Translate(m, io, t, pick, satp, va, acc, priv, mstatus);
      o.result.PageFault? ==> o == Outcome(PageFault(FaultCause(acc)), m, t)
  {
    hide FindLeaf, CheckPermissions, Compose, Store, Insert, EntryOf, Sv32On, SuperAligned, Ppn, PageOf, Lacks, Marked;
  }

  lemma LoadFaultOnHit(e: TlbEntry, va: Word, priv: Word, mstatus: Word)
    requires WritableIsReadable(e.flags) && HitResult(e, va, LOAD, priv, mstatus).PageFault?
    ensures HitResult(e, va, STORE, priv, mstatus).PageFault?
  {
    hide CheckPermissions, Compose, WritableIsReadable;
    if CheckPermissions(e.flags, STORE, priv, mstatus) { StorableIsLoadable(e.flags, priv, mstatus); }
  }

  lemma LoadFaultOnWalk(m: Ram, io: Io, satp: Word, va: Word, priv: Word, mstatus: Word)
    requires WalkResult(m, io, satp, va, LOAD, priv, mstatus).PageFault?
    ensures WalkResult(m, io, satp, va, STORE, priv, mstatus).PageFault?
  {
    hide CheckPermissions, Compose, WritableIsReadable, FindLeaf, Malformed, IsLeafPte, Load, SuperAligned, Ppn;
    var l := FindLeaf(m, io, satp, va);
    LeafIsLoaded(m, io, satp, va);
    if l.Leaf? && CheckPermissions(l.pte, STORE, priv, mstatus) {
      AcceptedIsReadable(l.pte);
      StorableIsLoadable(l.pte, priv, mstatus);
    }
  }

  /** When the load half of an access faults, so does the store half: same page, same moment. */
  lemma LoadFaultImpliesStoreFault(m: Ram, io: Io, t: Tlb, pick: Picker, pick': Picker, satp: Word,
                                   va: Word, priv: Word, mstatus: Word)
    requires CacheWellFormed(t)
    requires Translate(m, io, t, pick, satp, va, LOAD, priv, mstatus).result.PageFault?
    ensures Translate(m, io, t, pick', satp, va, STORE, priv, mstatus).result.PageFault?
  {
    hide FindLeaf, WalkResult, HitResult, WalkRam, Insert, EntryOf, Sv32On, PageOf, WritableIsReadable;
    if PageOf(va) in t {
      LoadFaultOnHit(t[PageOf(va)], va, priv, mstatus);
    } else {
      LoadFaultOnWalk(m, io, satp, va, priv, mstatus);
    }
  }

  // ---- when a store sets D ----

  /** After a translated store, the leaf is dirty exactly when the page was not cached or was
      dirty already: a hit never writes D back. */
  lemma StoreDirtiesExactlyOnMiss(m: Ram, io: Io, t: Tlb, pick: Picker, satp: Word, va: Word, priv: Word, mstatus: Word)
    requires Sv32On(satp) && Coherent(m, io, satp, t)
    requires Translate(m, io, t, pick, satp, va, STORE, priv, mstatus).result.Mapped?
    ensures var l := FindLeaf(m, io, satp, va);
      && l.Leaf?
      && (InRam(m, l.addr, Whole) ==>
            (Dirty(Load(Translate(m, io, t, pick, satp, va, STORE, priv, mstatus).ram, io, l.addr, Whole))
             <==> PageOf(va) !in t || Dirty(l.pte)))
  {
    hide Coherent, FindLeaf, HitResult, LeafResult, Insert, EntryOf, Sv32On, PageOf, Load, Store, Dirty, Lacks, Marked, InRam, Accessed;
    if PageOf(va) in t { HitIsWalk(m, io, satp, t, va, STORE, priv, mstatus); }
    MappedHasLeaf(m, io, satp, va, STORE, priv, mstatus);
    LeafIsLoaded(m, io, satp, va);
    var l := FindLeaf(m, io, satp, va);
    if PageOf(va) !in t && InRam(m, l.addr, Whole) {
      MarkIsDirty(l.pte);
      LacksForWrite(l.pte);
      StoreThenLoad(m, io, l.addr, Marked(l.pte, STORE));
    }
  }

  // A page table whose root, at 0x1000, maps the first 4 MB by one readable and writable leaf.
  const LEAF: Word := 0x07
  const ROOT: Word := 0x1000
  const TABLE: Ram := map[At(ROOT) := 7 as bv8, At(ROOT + 1) := 0 as bv8, At(ROOT + 2) := 0 as bv8, At(ROOT + 3) := 0 as bv8]
  const TABLE_SATP: Word := 0x8000_0001

  lemma TableIsInRam()
    ensures InRam(TABLE, ROOT, Whole)
  {}
  lemma TableLoads(io: Io)
    ensures Load(TABLE, io, ROOT, Whole) == LEAF
  {
    TableIsInRam();
    assert At(ROOT + 1) != At(ROOT) && At(ROOT + 2) != At(ROOT) && At(ROOT + 3) != At(ROOT);
    assert At(ROOT + 1) != At(ROOT + 2) && At(ROOT + 1) != At(ROOT + 3) && At(ROOT + 2) != At(ROOT + 3);
    assert TABLE[At(ROOT)] == 7 && TABLE[At(ROOT + 1)] == 0 && TABLE[At(ROOT + 2)] == 0 && TABLE[At(ROOT + 3)] == 0;
    assert Join(7, 0, 0, 0) == 7;
  }
  lemma TableLeaf(io: Io)
    ensures FindLeaf(TABLE, io, TABLE_SATP, 0) == Leaf(ROOT, LEAF, true)
  {
    assert Pte1Addr(TABLE_SATP, 0) == ROOT;
    TableLoads(io);
    hide Load, Pte0Addr, Pte1Addr;
  }
  lemma TablePermits()
    ensures CheckPermissions(LEAF, LOAD, PRV_S, 0) && SuperAligned(Ppn(LEAF)) && Lacks(LEAF, LOAD)
    ensures CheckPermissions(Flags(Marked(LEAF, LOAD)), STORE, PRV_S, 0) && !Dirty(Marked(LEAF, LOAD))
    ensures Sv32On(TABLE_SATP)
  {}

  /** "A store sets D" is false: a load followed by a store to the same page leaves D clear. */
  lemma StoreAfterLoadLeavesDClear(io: Io, pick: Picker)
    ensures var o1 := Translate(TABLE, io, map[], pick, TABLE_SATP, 0, LOAD, PRV_S, 0);
      var o2 := Translate(o1.ram, io, o1.tlb, pick, TABLE_SATP, 0, STORE, PRV_S, 0);
      o1.result.Mapped? && o2.result.Mapped? && !Dirty(Load(o2.ram, io, ROOT, Whole))
  {
    hide FindLeaf, Load, Store, CheckPermissions, SuperAligned, Ppn, Lacks, Flags, Marked, Dirty, Compose, Sv32On;
    TableLeaf(io);
    TablePermits();
    TableIsInRam();
    StoreThenLoad(TABLE, io, ROOT, Marked(LEAF, LOAD));
  }
}
