/** Sv32 translation (src/cpu/mmu.cpp): the two-level walk with hardware A/D update, the
    64-entry translation cache, and their specification. */
module Mmu {
  import opened Rv32
  import opened Phys

  datatype Access = FETCH | LOAD | STORE

  /** A translation: a physical address, or a page fault with its cause. */
  datatype Xlate = Mapped(paddr: Word) | PageFault(cause: Word)

  function FaultCause(acc: Access): Word {
    match acc
    case FETCH => CAUSE_FETCH_PAGE_FAULT
    case LOAD => CAUSE_LOAD_PAGE_FAULT
    case STORE => CAUSE_STORE_PAGE_FAULT
  }

  /** MMU::check_permissions. */
  predicate CheckPermissions(pte: Word, acc: Access, priv: Word, mstatus: Word) {
    var userPage := pte & PTE_U != 0;
    if priv == PRV_U && !userPage then false
    else if priv == PRV_S && userPage && mstatus & MSTATUS_SUM == 0 then false
    else match acc
      case FETCH => !(priv == PRV_S && userPage) && pte & PTE_X != 0
      case LOAD => if mstatus & MSTATUS_MXR != 0 then pte & (PTE_R | PTE_X) != 0 else pte & PTE_R != 0
      case STORE => pte & PTE_W != 0
  }

  // ---- the walk as a function of memory ----

  predicate Malformed(pte: Word) { pte & PTE_V == 0 || (pte & PTE_R == 0 && pte & PTE_W != 0) }
  predicate IsLeafPte(pte: Word) { pte & (PTE_R | PTE_W | PTE_X) != 0 }

  /** Address of the level-1 entry. The 22-bit PPN times 4096 is taken modulo 2^32, as in the source. */
  function Pte1Addr(satp: Word, va: Word): Word { ((satp & SATP_PPN_MASK) << 12) + (((va >> 22) & 0x3FF) << 2) }
  function Pte0Addr(pte1: Word, va: Word): Word { ((pte1 >> 10) << 12) + (((va >> 12) & 0x3FF) << 2) }

  /** Where a walk ends: nowhere, or at a leaf entry. */
  datatype Leaf = NoLeaf | Leaf(addr: Word, pte: Word, super: bool)

  function FindLeaf(m: Ram, io: Io, satp: Word, va: Word): Leaf {
    var a1 := Pte1Addr(satp, va);
    var p1 := Load(m, io, a1, Whole);
    if Malformed(p1) then NoLeaf
    else if IsLeafPte(p1) then Leaf(a1, p1, true)
    else
      var a0 := Pte0Addr(p1, va);
      var p0 := Load(m, io, a0, Whole);
      if Malformed(p0) || !IsLeafPte(p0) then NoLeaf else Leaf(a0, p0, false)
  }

  function Ppn(pte: Word): Word { pte >> 10 }
  function Flags(pte: Word): Word { pte & 0xFF }

  /** A 4 MB page must be 4 MB aligned: PPN[0] is zero. */
  predicate SuperAligned(ppn: Word) { ppn & 0x3FF == 0 }

  function Compose(ppn: Word, super: bool, va: Word): Word {
    if super then ((ppn & 0xFFFF_FC00) << 12) | (va & 0x003F_FFFF) else (ppn << 12) | (va & 0xFFF)
  }

  function LeafResult(l: Leaf, va: Word, acc: Access, priv: Word, mstatus: Word): Xlate {
    match l
    case NoLeaf => PageFault(FaultCause(acc))
    case Leaf(_, pte, super) =>
      if !CheckPermissions(pte, acc, priv, mstatus) || (super && !SuperAligned(Ppn(pte)))
      then PageFault(FaultCause(acc))
      else Mapped(Compose(Ppn(pte), super, va))
  }

  /** The outcome of an uncached walk. */
  function WalkResult(m: Ram, io: Io, satp: Word, va: Word, acc: Access, priv: Word, mstatus: Word): Xlate {
    LeafResult(FindLeaf(m, io, satp, va), va, acc, priv, mstatus)
  }

  function Required(acc: Access): Word { if acc.STORE? then PTE_A | PTE_D else PTE_A }
  predicate Lacks(pte: Word, acc: Access) { pte & Required(acc) != Required(acc) }
  function Marked(pte: Word, acc: Access): Word { pte | Required(acc) }
  predicate Accessed(pte: Word) { pte & PTE_A != 0 }
  predicate Dirty(pte: Word) { pte & PTE_D != 0 }

  /** Memory after the walk: the leaf gets A, and D for a store, when it lacks one of them. */
  function WalkRam(m: Ram, io: Io, satp: Word, va: Word, acc: Access, priv: Word, mstatus: Word): Ram {
    var l := FindLeaf(m, io, satp, va);
    if LeafResult(l, va, acc, priv, mstatus).Mapped? && Lacks(l.pte, acc)
    then Store(m, l.addr, Marked(l.pte, acc), Whole)
    else m
  }

  // ---- the cache ----

  const TLB_SIZE: nat := 64

  /** A virtual page number. */
  datatype Page = Page(vpn: Word)
  datatype TlbEntry = TlbEntry(ppn: Word, flags: Word, super: bool)
  type Tlb = map<Page, TlbEntry>

  function PageOf(va: Word): Page { Page(va >> 12) }
  /** The first address of a page. */
  function BaseOf(p: Page): Word { p.vpn << 12 }

  function HitResult(e: TlbEntry, va: Word, acc: Access, priv: Word, mstatus: Word): Xlate {
    if CheckPermissions(e.flags, acc, priv, mstatus) then Mapped(Compose(e.ppn, e.super, va))
    else PageFault(FaultCause(acc))
  }

  function EntryOf(l: Leaf, acc: Access): TlbEntry
    requires l.Leaf?
  {
    TlbEntry(Ppn(l.pte), Flags(Marked(l.pte, acc)), l.super)
  }

  /** Which entry goes when the cache is full: unordered_map::begin(), so any one of them. */
  type Picker = Tlb -> Page

  ghost function Victim(pick: Picker, t: Tlb): (p: Page)
    requires t != map[]
    ensures p in t
  {
    if pick(t) in t then pick(t) else var p :| p in t; p
  }

  ghost function Insert(t: Tlb, pick: Picker, p: Page, e: TlbEntry): Tlb {
    (if |t| >= TLB_SIZE then t - {Victim(pick, t)} else t)[p := e]
  }

  /** What one translation leaves behind: its outcome, the memory and the cache. */
  datatype Outcome = Outcome(result: Xlate, ram: Ram, tlb: Tlb)

  predicate Sv32On(satp: Word) { satp >> 31 != 0 }

  /** MMU::translate. */
  ghost function Translate(m: Ram, io: Io, t: Tlb, pick: Picker, satp: Word,
                           va: Word, acc: Access, priv: Word, mstatus: Word): Outcome {
    if !Sv32On(satp) then Outcome(Mapped(va), m, t)
    else if PageOf(va) in t then Outcome(HitResult(t[PageOf(va)], va, acc, priv, mstatus), m, t)
    else
      var l, r := FindLeaf(m, io, satp, va), WalkResult(m, io, satp, va, acc, priv, mstatus);
      Outcome(r, WalkRam(m, io, satp, va, acc, priv, mstatus),
              if r.Mapped? then Insert(t, pick, PageOf(va), EntryOf(l, acc)) else t)
  }

  // ---- permissions and composition see neither A nor D ----

  /** The low eight PTE bits agree, A and D aside. */
  predicate SameFlags(x: Word, y: Word) { StripAD(x) & 0xFF == StripAD(y) & 0xFF }

  lemma PermissionsIgnoreAD(x: Word, y: Word, acc: Access, priv: Word, mstatus: Word)
    requires SameFlags(x, y)
    ensures CheckPermissions(x, acc, priv, mstatus) == CheckPermissions(y, acc, priv, mstatus)
  {
    assert x & PTE_U == y & PTE_U && x & PTE_X == y & PTE_X && x & PTE_W == y & PTE_W && x & PTE_R == y & PTE_R;
    assert x & (PTE_R | PTE_X) == y & (PTE_R | PTE_X);
    hide StripAD;
  }

  lemma StripKeepsPpn(x: Word)
    ensures Ppn(StripAD(x)) == Ppn(x)
  {}

  lemma StripKeepsShape(x: Word)
    ensures Malformed(StripAD(x)) == Malformed(x) && IsLeafPte(StripAD(x)) == IsLeafPte(x)
  {}

  lemma PpnIgnoresAD(x: Word, y: Word, va: Word)
    requires StripAD(x) == StripAD(y)
    ensures Ppn(x) == Ppn(y) && Pte0Addr(x, va) == Pte0Addr(y, va)
  {
    StripKeepsPpn(x);
    StripKeepsPpn(y);
    hide StripAD;
  }

  lemma ShapeIgnoresAD(x: Word, y: Word)
    requires StripAD(x) == StripAD(y)
    ensures Malformed(x) == Malformed(y) && IsLeafPte(x) == IsLeafPte(y)
  {
    StripKeepsShape(x);
    StripKeepsShape(y);
    hide StripAD, Malformed, IsLeafPte;
  }

  lemma MarkKeepsRest(pte: Word, acc: Access)
    ensures StripAD(Marked(pte, acc)) == StripAD(pte)
  {
    assert (pte | 0xC0) & 0xFFFF_FF3F == pte & 0xFFFF_FF3F;
    assert (pte | 0x40) & 0xFFFF_FF3F == pte & 0xFFFF_FF3F;
  }
  lemma MarkIsAccessed(pte: Word, acc: Access)
    ensures Accessed(Marked(pte, acc))
  {}
  lemma MarkIsDirty(pte: Word)
    ensures Dirty(Marked(pte, STORE))
  {}
  lemma NothingLacks(pte: Word, acc: Access)
    requires !Lacks(pte, acc)
    ensures Marked(pte, acc) == pte
  {}
  /** What a store requires is A and D. */
  lemma LacksWithoutA(pte: Word)
    requires !Accessed(pte)
    ensures Lacks(pte, STORE)
  {}
  lemma LacksWithoutD(pte: Word)
    requires !Dirty(pte)
    ensures Lacks(pte, STORE)
  {}
  lemma LacksNothing(pte: Word)
    requires Accessed(pte) && Dirty(pte)
    ensures !Lacks(pte, STORE)
  {}
  lemma LacksForWrite(pte: Word)
    ensures Lacks(pte, STORE) <==> !(Accessed(pte) && Dirty(pte))
  {
    hide Accessed, Dirty, Lacks;
    if !Accessed(pte) {
      LacksWithoutA(pte);
    } else if !Dirty(pte) {
      LacksWithoutD(pte);
    } else {
      LacksNothing(pte);
    }
  }

  lemma FlagsOfStripped(x: Word, y: Word)
    requires StripAD(x) == StripAD(y)
    ensures SameFlags(x, y)
  {
    hide StripAD;
  }

  lemma CachedFlags(x: Word)
    ensures SameFlags(x, Flags(x))
  {}

  lemma EntriesAreAligned(satp: Word, pte1: Word, va: Word)
    ensures Aligned4(Pte1Addr(satp, va)) && Aligned4(Pte0Addr(pte1, va))
  {}

  /** The same place, up to A and D. */
  ghost predicate LeafLike(l1: Leaf, l2: Leaf) {
    match (l1, l2)
    case (NoLeaf, NoLeaf) => true
    case (Leaf(a, x, s), Leaf(b, y, t)) => a == b && s == t && StripAD(x) == StripAD(y)
    case _ => false
  }

  /** Walks of memories that differ only in A and D bits end in the same place, however the
      tables alias each other. */
  lemma LeavesIgnoreAD(m1: Ram, m2: Ram, io: Io, satp: Word, va: Word)
    requires SameButAD(m1, m2)
    ensures LeafLike(FindLeaf(m1, io, satp, va), FindLeaf(m2, io, satp, va))
  {
    var a1 := Pte1Addr(satp, va);
    var x1, y1 := Load(m1, io, a1, Whole), Load(m2, io, a1, Whole);
    EntriesAreAligned(satp, x1, va);
    SameButADWords(m1, m2, io, a1);
    ShapeIgnoresAD(x1, y1);
    PpnIgnoresAD(x1, y1, va);
    var a0 := Pte0Addr(x1, va);
    SameButADWords(m1, m2, io, a0);
    ShapeIgnoresAD(Load(m1, io, a0, Whole), Load(m2, io, a0, Whole));
    hide Load, StripAD, Malformed, IsLeafPte, Pte1Addr, Pte0Addr, SameButAD;
  }

  lemma ResultsIgnoreAD(l1: Leaf, l2: Leaf, va: Word, acc: Access, priv: Word, mstatus: Word)
    requires LeafLike(l1, l2)
    ensures LeafResult(l1, va, acc, priv, mstatus) == LeafResult(l2, va, acc, priv, mstatus)
  {
    if l1.Leaf? {
      FlagsOfStripped(l1.pte, l2.pte);
      PermissionsIgnoreAD(l1.pte, l2.pte, acc, priv, mstatus);
      PpnIgnoresAD(l1.pte, l2.pte, va);
      hide CheckPermissions, StripAD, Compose, Ppn, SameFlags, SuperAligned;
    }
  }

  lemma WalksIgnoreAD(m1: Ram, m2: Ram, io: Io, satp: Word, va: Word, acc: Access, priv: Word, mstatus: Word)
    requires SameButAD(m1, m2)
    ensures WalkResult(m1, io, satp, va, acc, priv, mstatus) == WalkResult(m2, io, satp, va, acc, priv, mstatus)
  {
    LeavesIgnoreAD(m1, m2, io, satp, va);
    ResultsIgnoreAD(FindLeaf(m1, io, satp, va), FindLeaf(m2, io, satp, va), va, acc, priv, mstatus);
    hide FindLeaf, LeafResult, LeafLike;
  }

  lemma LeafIsLoaded(m: Ram, io: Io, satp: Word, va: Word)
    ensures var l := FindLeaf(m, io, satp, va); l.Leaf? ==>
      && Aligned4(l.addr) && l.pte == Load(m, io, l.addr, Whole)
      && !Malformed(l.pte) && IsLeafPte(l.pte)
  {
    EntriesAreAligned(satp, Load(m, io, Pte1Addr(satp, va), Whole), va);
    hide Load, Malformed, IsLeafPte, Pte1Addr, Pte0Addr, Aligned4;
  }

  lemma WriteBackKeepsRam(m: Ram, io: Io, w: Word, acc: Access)
    requires Aligned4(w)
    ensures SameButAD(m, Store(m, w, Marked(Load(m, io, w, Whole), acc), Whole))
  {
    var pte := Load(m, io, w, Whole);
    MarkKeepsRest(pte, acc);
    hide StripAD, Marked, Lacks, Accessed, Load, Store, SameButAD, Aligned4;
    StoreOfADBits(m, io, w, Marked(pte, acc));
  }

  /** A walk changes memory in A and D bits only. */
  lemma WalkKeepsRam(m: Ram, io: Io, satp: Word, va: Word, acc: Access, priv: Word, mstatus: Word)
    ensures SameButAD(m, WalkRam(m, io, satp, va, acc, priv, mstatus))
  {
    var l := FindLeaf(m, io, satp, va);
    LeafIsLoaded(m, io, satp, va);
    SameButADReflexive(m);
    LeafOfMapped(l, va, acc, priv, mstatus);
    hide FindLeaf, LeafResult, Load, Store, SameButAD, Marked, Lacks, Aligned4, CheckPermissions, Ppn;
    if l.Leaf? { WriteBackKeepsRam(m, io, l.addr, acc); }
  }

  lemma LeafOfMapped(l: Leaf, va: Word, acc: Access, priv: Word, mstatus: Word)
    ensures LeafResult(l, va, acc, priv, mstatus).Mapped? ==>
      l.Leaf? && CheckPermissions(l.pte, acc, priv, mstatus) && (l.super ==> SuperAligned(Ppn(l.pte)))
  {}

  /** The PTE write-back of one walk changes the outcome of no other walk: any address, access
      type, privilege and status, for any page tables, shared or recursive. */
  lemma ADUpdatesAreInvisible(m: Ram, io: Io, satp: Word, va: Word, acc: Access, priv: Word, mstatus: Word,
                              satp': Word, va': Word, acc': Access, priv': Word, mstatus': Word)
    ensures var m' := WalkRam(m, io, satp, va, acc, priv, mstatus);
      WalkResult(m', io, satp', va', acc', priv', mstatus') == WalkResult(m, io, satp', va', acc', priv', mstatus')
  {
    WalkKeepsRam(m, io, satp, va, acc, priv, mstatus);
    WalksIgnoreAD(m, WalkRam(m, io, satp, va, acc, priv, mstatus), io, satp', va', acc', priv', mstatus');
    hide WalkRam, WalkResult;
  }
}
