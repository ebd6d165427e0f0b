/** Translation by the bits of the page-table entry: who may do what, where the walk goes, which
    address comes out, and what is written back (src/cpu/mmu.cpp:11-140, sections 4.3.1 and 4.3.2 of the
    RISC-V Privileged Architecture). */
module Permissions {
  import opened Rv32
  import opened Phys
  import opened Mmu
  import opened TlbTransparency
  import opened Trap
  import opened Hart

  // ---- permissions ----

  // PTE bits: V 0, R 1, W 2, X 3, U 4, A 6, D 7. mstatus: SUM 18, MXR 19.

  /** A U access needs a U page; an S access to a U page needs SUM and is not a fetch; a fetch needs X, a
      load R, or X under MXR, and a store W. */
  predicate Permits(pte: Word, acc: Access, priv: Word, mstatus: Word) {
    && (priv == PRV_U ==> OneBit(pte, 4))
    && (priv == PRV_S && OneBit(pte, 4) ==> OneBit(mstatus, 18) && !acc.FETCH?)
    && (acc.FETCH? ==> OneBit(pte, 3))
    && (acc.LOAD? ==> OneBit(pte, 1) || (OneBit(mstatus, 19) && OneBit(pte, 3)))
    && (acc.STORE? ==> OneBit(pte, 2))
  }

  lemma TestU(x: Word)
    ensures x & PTE_U != 0 <==> OneBit(x, 4)
  {}
  lemma TestX(x: Word)
    ensures x & PTE_X != 0 <==> OneBit(x, 3)
  {}
  lemma TestW(x: Word)
    ensures x & PTE_W != 0 <==> OneBit(x, 2)
  {}
  lemma TestR(x: Word)
    ensures x & PTE_R != 0 <==> OneBit(x, 1)
  {}
  lemma TestV(x: Word)
    ensures x & PTE_V != 0 <==> OneBit(x, 0)
  {}
  lemma TestRX(x: Word)
    ensures x & (PTE_R | PTE_X) != 0 <==> OneBit(x, 1) || OneBit(x, 3)
  {}
  lemma TestRWX(x: Word)
    ensures x & (PTE_R | PTE_W | PTE_X) != 0 <==> OneBit(x, 1) || OneBit(x, 2) || OneBit(x, 3)
  {}
  lemma TestSum(x: Word)
    ensures x & MSTATUS_SUM != 0 <==> OneBit(x, 18)
  {}
  lemma TestMxr(x: Word)
    ensures x & MSTATUS_MXR != 0 <==> OneBit(x, 19)
  {}

  lemma PermissionRule(pte: Word, acc: Access, priv: Word, mstatus: Word)
    ensures CheckPermissions(pte, acc, priv, mstatus) <==> Permits(pte, acc, priv, mstatus)
  {
    hide OneBit;
    TestU(pte);
    TestX(pte);
    TestW(pte);
    TestR(pte);
    TestRX(pte);
    TestSum(mstatus);
    TestMxr(mstatus);
  }

  // ---- the walk ----

  /** The address of entry number idx of the table at page number ppn, modulo 2^32. */
  predicate IsEntry(a: Word, ppn: Word, idx: Word) {
    a >> 12 == ppn & 0xF_FFFF && (a >> 2) & 0x3FF == idx && a & 3 == 0
  }
  lemma EntryIsUnique(a: Word, b: Word, ppn: Word, idx: Word)
    requires IsEntry(a, ppn, idx) && IsEntry(b, ppn, idx)
    ensures a == b
  {}
  function Vpn1(va: Word): Word { va >> 22 }
  function Vpn0(va: Word): Word { (va >> 12) & 0x3FF }
  lemma RootEntry(satp: Word, va: Word)
    ensures IsEntry(Pte1Addr(satp, va), satp, Vpn1(va))
  {}
  lemma SecondEntry(pte: Word, va: Word)
    ensures IsEntry(Pte0Addr(pte, va), Ppn(pte), Vpn0(va))
  {}

  /** V is set, and W does not come without R. */
  predicate IsValid(pte: Word) { OneBit(pte, 0) && (OneBit(pte, 2) ==> OneBit(pte, 1)) }
  predicate HasPermission(pte: Word) { OneBit(pte, 1) || OneBit(pte, 2) || OneBit(pte, 3) }

  lemma ShapeRule(pte: Word)
    ensures Malformed(pte) <==> !IsValid(pte)
    ensures IsLeafPte(pte) <==> HasPermission(pte)
  {
    hide OneBit;
    TestV(pte);
    TestR(pte);
    TestW(pte);
    TestRWX(pte);
  }

  /** The walk of va that reads the entries at a1 and, if that one points on, at a0 ends at l. */
  ghost predicate WalksVia(m: Ram, io: Io, satp: Word, va: Word, a1: Word, a0: Word, l: Leaf) {
    var w1 := Load(m, io, a1, Whole);
    var w0 := Load(m, io, a0, Whole);
    && IsEntry(a1, satp, Vpn1(va)) && IsEntry(a0, Ppn(w1), Vpn0(va))
    && l == if !IsValid(w1) then NoLeaf
            else if HasPermission(w1) then Leaf(a1, w1, true)
            else if IsValid(w0) && HasPermission(w0) then Leaf(a0, w0, false)
            else NoLeaf
  }
  /** Where the walk of va ends. */
  ghost predicate WalksTo(m: Ram, io: Io, satp: Word, va: Word, l: Leaf) {
    exists a1: Word, a0: Word :: WalksVia(m, io, satp, va, a1, a0, l)
  }
  /** The walk reads the root entry of VPN[1] and, if that points on, the entry of VPN[0]; it ends at a
      valid entry with a permission, or nowhere. */
  lemma WalkRule(m: Ram, io: Io, satp: Word, va: Word)
    ensures WalksTo(m, io, satp, va, FindLeaf(m, io, satp, va))
  {
    hide Load, Malformed, IsLeafPte, Pte1Addr, Pte0Addr, IsEntry, IsValid, HasPermission, Ppn, Vpn1, Vpn0;
    var a1 := Pte1Addr(satp, va);
    var w1 := Load(m, io, a1, Whole);
    var a0 := Pte0Addr(w1, va);
    RootEntry(satp, va);
    SecondEntry(w1, va);
    ShapeRule(w1);
    ShapeRule(Load(m, io, a0, Whole));
    assert WalksVia(m, io, satp, va, a1, a0, FindLeaf(m, io, satp, va));
  }
  /** and at one place only. */
  lemma WalkIsUnique(m: Ram, io: Io, satp: Word, va: Word, l: Leaf, k: Leaf)
    requires WalksTo(m, io, satp, va, l) && WalksTo(m, io, satp, va, k)
    ensures l == k
  {
    hide WalksVia;
    var a1: Word, a0: Word :| WalksVia(m, io, satp, va, a1, a0, l);
    var b1: Word, b0: Word :| WalksVia(m, io, satp, va, b1, b0, k);
    ViaIsUnique(m, io, satp, va, a1, a0, l, b1, b0, k);
  }
  lemma ViaIsUnique(m: Ram, io: Io, satp: Word, va: Word, a1: Word, a0: Word, l: Leaf, b1: Word, b0: Word, k: Leaf)
    requires WalksVia(m, io, satp, va, a1, a0, l) && WalksVia(m, io, satp, va, b1, b0, k)
    ensures l == k
  {
    hide Load, IsEntry, IsValid, HasPermission, Ppn, Vpn1, Vpn0;
    EntryIsUnique(a1, b1, satp, Vpn1(va));
    EntryIsUnique(a0, b0, Ppn(Load(m, io, a1, Whole)), Vpn0(va));
  }

  // ---- the answer ----

  /** p is the given offset of va under the given page number. */
  predicate SmallPage(pte: Word, va: Word, p: Word) { p & 0xFFF == va & 0xFFF && p >> 12 == (pte >> 10) & 0xF_FFFF }
  predicate SuperPage(pte: Word, va: Word, p: Word) { p & 0x3F_FFFF == va & 0x3F_FFFF && p >> 22 == (pte >> 20) & 0x3FF }
  lemma SmallAddress(pte: Word, va: Word)
    ensures SmallPage(pte, va, ((pte >> 10) << 12) | (va & 0xFFF))
  {}
  lemma SuperAddress(pte: Word, va: Word)
    ensures SuperPage(pte, va, (((pte >> 10) & 0xFFFF_FC00) << 12) | (va & 0x3F_FFFF))
  {}
  lemma SmallIsUnique(pte: Word, va: Word, p: Word, q: Word)
    requires SmallPage(pte, va, p) && SmallPage(pte, va, q)
    ensures p == q
  {}
  lemma SuperIsUnique(pte: Word, va: Word, p: Word, q: Word)
    requires SuperPage(pte, va, p) && SuperPage(pte, va, q)
    ensures p == q
  {}
  /** The address: the offset of va under the page number of the entry, 12 bits or, in a 4 MB page, 22. */
  predicate IsAddress(pte: Word, super: bool, va: Word, p: Word) {
    if super then SuperPage(pte, va, p) else SmallPage(pte, va, p)
  }
  lemma ComposeSmall(pte: Word, va: Word)
    ensures Compose(Ppn(pte), false, va) == ((pte >> 10) << 12) | (va & 0xFFF)
  {}
  lemma ComposeSuper(pte: Word, va: Word)
    ensures Compose(Ppn(pte), true, va) == (((pte >> 10) & 0xFFFF_FC00) << 12) | (va & 0x3F_FFFF)
  {}
  lemma AddressRule(pte: Word, super: bool, va: Word)
    ensures IsAddress(pte, super, va, Compose(Ppn(pte), super, va))
  {
    hide SmallPage, SuperPage, Compose, Ppn;
    if super {
      SuperAddress(pte, va);
      ComposeSuper(pte, va);
    } else {
      SmallAddress(pte, va);
      ComposeSmall(pte, va);
    }
  }
  /** Bits 19:10 of a 4 MB entry are zero. */
  predicate IsAligned(pte: Word) { (pte >> 10) & 0x3FF == 0 }
  lemma AlignedRule(pte: Word)
    ensures SuperAligned(Ppn(pte)) <==> IsAligned(pte)
  {}

  /** The answer for an access that walks to l. */
  predicate Answers(l: Leaf, va: Word, acc: Access, priv: Word, mstatus: Word, r: Xlate) {
    if l.Leaf? && Permits(l.pte, acc, priv, mstatus) && (l.super ==> IsAligned(l.pte))
    then r.Mapped? && IsAddress(l.pte, l.super, va, r.paddr)
    else r == PageFault(match acc case FETCH => 12 case LOAD => 13 case STORE => 15)
  }

  lemma LeafAnswers(l: Leaf, va: Word, acc: Access, priv: Word, mstatus: Word)
    ensures Answers(l, va, acc, priv, mstatus, LeafResult(l, va, acc, priv, mstatus))
  {
    hide CheckPermissions, Permits, SuperAligned, Ppn, Compose, IsAddress, IsAligned;
    if l.Leaf? {
      PermissionRule(l.pte, acc, priv, mstatus);
      AlignedRule(l.pte);
      AddressRule(l.pte, l.super, va);
    }
  }
  /** An answer is determined by where the walk ends. */
  lemma AnswerIsUnique(l: Leaf, va: Word, acc: Access, priv: Word, mstatus: Word, r: Xlate, s: Xlate)
    requires Answers(l, va, acc, priv, mstatus, r) && Answers(l, va, acc, priv, mstatus, s)
    ensures r == s
  {
    hide Permits, SmallPage, SuperPage, IsAligned;
    if l.Leaf? && r.Mapped? && s.Mapped? {
      if l.super { SuperIsUnique(l.pte, va, r.paddr, s.paddr); } else { SmallIsUnique(l.pte, va, r.paddr, s.paddr); }
    }
  }

  /** Translation, by hit or by walk, is decided by the entry the walk ends at: it succeeds exactly when
      there is one that permits the access and is aligned, with the address of that page, and otherwise
      faults with the cause of the access. */
  lemma TranslationRule(m: Ram, io: Io, t: Tlb, pick: Picker, satp: Word, va: Word, acc: Access, priv: Word, mstatus: Word)
    requires Sv32On(satp) && Coherent(m, io, satp, t)
    ensures var r := Translate(m, io, t, pick, satp, va, acc, priv, mstatus).result;
      exists l: Leaf :: WalksTo(m, io, satp, va, l) && Answers(l, va, acc, priv, mstatus, r)
  {
    hide Sv32On, Coherent, WalksTo, Answers, Translate, FindLeaf, LeafResult;
    WalkRule(m, io, satp, va);
    LeafAnswers(FindLeaf(m, io, satp, va), va, acc, priv, mstatus);
    if PageOf(va) in t { HitIsWalk(m, io, satp, t, va, acc, priv, mstatus); }
    HitOrWalk(m, io, t, pick, satp, va, acc, priv, mstatus);
  }
  lemma HitOrWalk(m: Ram, io: Io, t: Tlb, pick: Picker, satp: Word, va: Word, acc: Access, priv: Word, mstatus: Word)
    requires Sv32On(satp)
    ensures Translate(m, io, t, pick, satp, va, acc, priv, mstatus).result ==
      if PageOf(va) in t then HitResult(t[PageOf(va)], va, acc, priv, mstatus) else WalkResult(m, io, satp, va, acc, priv, mstatus)
  {
    hide Sv32On, PageOf, HitResult, WalkResult, WalkRam, Insert, EntryOf, FindLeaf;
  }

  // ---- the write-back ----

  lemma MarkRule(pte: Word, acc: Access, k: bv5)
    ensures OneBit(Marked(pte, acc), k) <==> OneBit(pte, k) || k == 6 || (k == 7 && acc.STORE?)
  {}

  /** After a walk that succeeds the entry in memory has A, D if the access is a store or it was there,
      and is otherwise as it was. */
  lemma WriteBackRule(m: Ram, io: Io, satp: Word, va: Word, acc: Access, priv: Word, mstatus: Word)
    requires WalkResult(m, io, satp, va, acc, priv, mstatus).Mapped?
    ensures var l := FindLeaf(m, io, satp, va); l.Leaf? && (InRam(m, l.addr, Whole) ==>
      var w := Load(WalkRam(m, io, satp, va, acc, priv, mstatus), io, l.addr, Whole);
      forall k: bv5 :: OneBit(w, k) <==> OneBit(l.pte, k) || k == 6 || (k == 7 && acc.STORE?))
  {
    hide FindLeaf, LeafResult, Load, Store, Marked, Lacks, InRam, OneBit;
    var l := FindLeaf(m, io, satp, va);
    LeafIsLoaded(m, io, satp, va);
    MappedHasLeaf(m, io, satp, va, acc, priv, mstatus);
    if InRam(m, l.addr, Whole) {
      StoreThenLoad(m, io, l.addr, Marked(l.pte, acc));
      if !Lacks(l.pte, acc) { NothingLacks(l.pte, acc); }
      forall k: bv5 ensures OneBit(Marked(l.pte, acc), k) <==> OneBit(l.pte, k) || k == 6 || (k == 7 && acc.STORE?) {
        MarkRule(l.pte, acc, k);
      }
    }
  }

  // ---- the hart ----

  /** Bit 31 of satp turns translation on, below M-mode. */
  lemma SatpRule(satp: Word)
    ensures Sv32On(satp) <==> OneBit(satp, 31)
  {}
  /** Data accesses of M-mode under MPRV have the privilege in MPP, all others their own. */
  function DataPrivilege(c: Core): Word {
    if c.priv == PRV_M && OneBit(c.csr.mstatus, 17)
    then if OneBit(c.csr.mstatus, 12) then if OneBit(c.csr.mstatus, 11) then 3 else 2 else if OneBit(c.csr.mstatus, 11) then 1 else 0
    else c.priv
  }
  lemma MprvRule(s: Word)
    ensures Bit(s, MSTATUS_MPRV) <==> OneBit(s, 17)
  {}
  lemma MppRule(s: Word)
    ensures MppOf(s) == if OneBit(s, 12) then if OneBit(s, 11) then 3 else 2 else if OneBit(s, 11) then 1 else 0
  {}
  lemma DataPrivilegeRule(c: Core)
    ensures EffectivePriv(c) == DataPrivilege(c)
  {
    hide Bit, OneBit, MppOf;
    MprvRule(c.csr.mstatus);
    MppRule(c.csr.mstatus);
  }

  /** The translation of a data access of the hart. */
  lemma DataAccessRule(h: Hart, env: Env, va: Word, acc: Access)
    requires Coherent(h.ram, env.io, h.core.csr.s.satp, h.tlb)
    ensures var c, r := h.core, TranslateData(h, env, va, acc).result;
      if OneBit(c.csr.s.satp, 31) && DataPrivilege(c) < 3
      then exists l: Leaf :: WalksTo(h.ram, env.io, c.csr.s.satp, va, l) && Answers(l, va, acc, DataPrivilege(c), c.csr.mstatus, r)
      else r == Mapped(va)
  {
    hide Coherent, WalksTo, Answers, Translate, OneBit, Sv32On, EffectivePriv, DataPrivilege;
    var c := h.core;
    SatpRule(c.csr.s.satp);
    DataPrivilegeRule(c);
    if DataMmuActive(c) {
      TranslationRule(h.ram, env.io, h.tlb, env.pick, c.csr.s.satp, va, acc, EffectivePriv(c), c.csr.mstatus);
    }
  }
  /** The translation of its fetch. */
  lemma FetchRule(h: Hart, env: Env)
    requires Coherent(h.ram, env.io, h.core.csr.s.satp, h.tlb)
    ensures var c, r := h.core, FetchOutcome(h, env).result;
      if OneBit(c.csr.s.satp, 31) && c.priv < 3
      then exists l: Leaf :: WalksTo(h.ram, env.io, c.csr.s.satp, c.pc, l) && Answers(l, c.pc, FETCH, c.priv, c.csr.mstatus, r)
      else r == Mapped(c.pc)
  {
    hide Coherent, WalksTo, Answers, Translate, OneBit, Sv32On;
    var c := h.core;
    SatpRule(c.csr.s.satp);
    if FetchMmuActive(c) {
      TranslationRule(h.ram, env.io, h.tlb, env.pick, c.csr.s.satp, c.pc, FETCH, c.priv, c.csr.mstatus);
    }
  }
}
