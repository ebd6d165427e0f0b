/** The translation cache is transparent: over any run it answers what an uncached walk would. */
module TlbTransparency {
  import opened Rv32
  import opened Phys
  import opened Mmu

  // ---- one entry against the tables ----

  /** The entry describes the leaf its page walks to now, up to A and D, and that leaf has A set. */
  ghost predicate EntryOk(m: Ram, io: Io, satp: Word, p: Page, e: TlbEntry) {
    var l := FindLeaf(m, io, satp, BaseOf(p));
    && l.Leaf? && l.super == e.super && Ppn(l.pte) == e.ppn && SameFlags(l.pte, e.flags)
    && (e.super ==> SuperAligned(e.ppn))
    && (InRam(m, l.addr, Whole) ==> Accessed(l.pte))
  }

  /** Every live entry is current. */
  ghost predicate Coherent(m: Ram, io: Io, satp: Word, t: Tlb) {
    forall p | p in t :: EntryOk(m, io, satp, p, t[p])
  }

  lemma SamePage(va: Word, v: Word)
    requires v == va >> 12
    ensures (v << 12) >> 22 == va >> 22 && ((v << 12) >> 12) & 0x3FF == (va >> 12) & 0x3FF
  {}

  /** A walk looks at the page number only. */
  lemma LeafOfPage(m: Ram, io: Io, satp: Word, va: Word)
    ensures FindLeaf(m, io, satp, va) == FindLeaf(m, io, satp, BaseOf(PageOf(va)))
  {
    var vb := BaseOf(PageOf(va));
    SamePage(va, va >> 12);
    assert Pte1Addr(satp, va) == Pte1Addr(satp, vb);
    var p1 := Load(m, io, Pte1Addr(satp, va), Whole);
    assert Pte0Addr(p1, va) == Pte0Addr(p1, vb);
    hide Load, Pte1Addr, Pte0Addr, Malformed, IsLeafPte, PageOf, BaseOf;
  }

  /** A hit on a current entry answers what the walk answers. */
  lemma HitIsWalk(m: Ram, io: Io, satp: Word, t: Tlb, va: Word, acc: Access, priv: Word, mstatus: Word)
    requires Coherent(m, io, satp, t) && PageOf(va) in t
    ensures HitResult(t[PageOf(va)], va, acc, priv, mstatus) == WalkResult(m, io, satp, va, acc, priv, mstatus)
  {
    var e := t[PageOf(va)];
    assert EntryOk(m, io, satp, PageOf(va), e);
    LeafOfPage(m, io, satp, va);
    var l := FindLeaf(m, io, satp, va);
    PermissionsIgnoreAD(l.pte, e.flags, acc, priv, mstatus);
    hide FindLeaf, CheckPermissions, Compose, PageOf, BaseOf, Coherent, SameFlags, SuperAligned, Accessed, Ppn, InRam;
  }

  // ---- what keeps entries current ----

  lemma LoadAfterWriteBack(m: Ram, io: Io, satp: Word, va: Word, acc: Access, priv: Word, mstatus: Word, w: Word)
    requires Aligned4(w)
    ensures var m' := WalkRam(m, io, satp, va, acc, priv, mstatus);
      || Load(m', io, w, Whole) == Load(m, io, w, Whole)
      || Load(m', io, w, Whole) == Marked(Load(m, io, w, Whole), acc)
  {
    var l := FindLeaf(m, io, satp, va);
    LeafIsLoaded(m, io, satp, va);
    LeafOfMapped(l, va, acc, priv, mstatus);
    hide FindLeaf, LeafResult, Marked, Lacks, CheckPermissions, Ppn, SuperAligned, Malformed, IsLeafPte;
    if l.Leaf? {
      if l.addr == w {
        if InRam(m, w, Whole) { StoreThenLoad(m, io, w, Marked(l.pte, acc)); }
      } else {
        AlignedWordsAreDisjoint(l.addr, w);
        hide Aligned4, Touches;
        StoreElsewhere(m, io, l.addr, Marked(l.pte, acc), Whole, w);
      }
      hide Load, Store;
    }
  }

  /** A write-back never clears the A bit of any word. */
  lemma AccessedStays(m: Ram, io: Io, satp: Word, va: Word, acc: Access, priv: Word, mstatus: Word, w: Word)
    requires Aligned4(w) && Accessed(Load(m, io, w, Whole))
    ensures Accessed(Load(WalkRam(m, io, satp, va, acc, priv, mstatus), io, w, Whole))
  {
    LoadAfterWriteBack(m, io, satp, va, acc, priv, mstatus, w);
    MarkIsAccessed(Load(m, io, w, Whole), acc);
    hide WalkRam, Load, Marked, Accessed, Lacks;
  }

  lemma SameInRam(m: Ram, m': Ram, a: Word)
    requires SameButAD(m, m')
    ensures InRam(m', a, Whole) == InRam(m, a, Whole)
  {}

  lemma FlagsTransitive(x: Word, y: Word, z: Word)
    requires StripAD(x) == StripAD(y) && SameFlags(x, z)
    ensures SameFlags(y, z)
  {
    hide StripAD;
  }

  lemma WalkKeepsEntry(m: Ram, io: Io, satp: Word, va: Word, acc: Access, priv: Word, mstatus: Word,
                       p: Page, e: TlbEntry)
    requires EntryOk(m, io, satp, p, e)
    ensures EntryOk(WalkRam(m, io, satp, va, acc, priv, mstatus), io, satp, p, e)
  {
    var m' := WalkRam(m, io, satp, va, acc, priv, mstatus);
    var va' := BaseOf(p);
    var l, l' := FindLeaf(m, io, satp, va'), FindLeaf(m', io, satp, va');
    WalkKeepsRam(m, io, satp, va, acc, priv, mstatus);
    LeavesIgnoreAD(m, m', io, satp, va');
    PpnIgnoresAD(l.pte, l'.pte, va');
    FlagsTransitive(l.pte, l'.pte, e.flags);
    LeafIsLoaded(m, io, satp, va');
    LeafIsLoaded(m', io, satp, va');
    SameInRam(m, m', l.addr);
    if InRam(m, l.addr, Whole) { AccessedStays(m, io, satp, va, acc, priv, mstatus, l.addr); }
    hide FindLeaf, WalkRam, StripAD, Load, Ppn, SameButAD, BaseOf, SameFlags, SuperAligned, Accessed, Malformed, IsLeafPte;
  }

  /** The entry made by a walk describes the memory that walk leaves behind. */
  lemma NewEntryOk(m: Ram, io: Io, satp: Word, va: Word, acc: Access, priv: Word, mstatus: Word)
    requires WalkResult(m, io, satp, va, acc, priv, mstatus).Mapped?
    ensures var l := FindLeaf(m, io, satp, va);
      l.Leaf? && EntryOk(WalkRam(m, io, satp, va, acc, priv, mstatus), io, satp, PageOf(va), EntryOf(l, acc))
  {
    hide FindLeaf, WalkRam, StripAD, Load, Ppn, SameButAD, BaseOf, PageOf, SameFlags, SuperAligned, Accessed;
    hide Malformed, IsLeafPte, LeafResult, Marked, CheckPermissions, InRam, Flags, Pte0Addr, Aligned4;
    var l := FindLeaf(m, io, satp, va);
    var m' := WalkRam(m, io, satp, va, acc, priv, mstatus);
    LeafOfMapped(l, va, acc, priv, mstatus);
    WalkKeepsRam(m, io, satp, va, acc, priv, mstatus);
    LeafOfPage(m', io, satp, va);
    LeavesIgnoreAD(m, m', io, satp, va);
    var l' := FindLeaf(m', io, satp, va);
    PpnIgnoresAD(l.pte, l'.pte, va);
    LeafIsLoaded(m, io, satp, va);
    LeafIsLoaded(m', io, satp, va);
    NewFlags(l.pte, l'.pte, acc);
    SameInRam(m, m', l.addr);
    if InRam(m', l.addr, Whole) { NewLeafAccessed(m, io, satp, va, acc, priv, mstatus); }
  }

  lemma NewFlags(x: Word, y: Word, acc: Access)
    requires StripAD(x) == StripAD(y)
    ensures SameFlags(y, Flags(Marked(x, acc)))
  {
    MarkKeepsRest(x, acc);
    CachedFlags(Marked(x, acc));
    FlagsTransitive(Marked(x, acc), y, Flags(Marked(x, acc)));
    hide StripAD, Marked, SameFlags, Flags;
  }

  lemma NewLeafAccessed(m: Ram, io: Io, satp: Word, va: Word, acc: Access, priv: Word, mstatus: Word)
    requires WalkResult(m, io, satp, va, acc, priv, mstatus).Mapped?
    requires InRam(m, FindLeaf(m, io, satp, va).addr, Whole)
    ensures Accessed(Load(WalkRam(m, io, satp, va, acc, priv, mstatus), io, FindLeaf(m, io, satp, va).addr, Whole))
  {
    var l := FindLeaf(m, io, satp, va);
    LeafIsLoaded(m, io, satp, va);
    LeafOfMapped(l, va, acc, priv, mstatus);
    MarkIsAccessed(l.pte, acc);
    StoreThenLoad(m, io, l.addr, Marked(l.pte, acc));
    if !Lacks(l.pte, acc) { NothingLacks(l.pte, acc); }
    hide FindLeaf, LeafResult, Load, Store, Marked, Accessed, Lacks, Malformed, IsLeafPte, CheckPermissions;
  }

  lemma WalkKeepsCoherent(m: Ram, io: Io, satp: Word, t: Tlb, va: Word, acc: Access, priv: Word, mstatus: Word)
    requires Coherent(m, io, satp, t)
    ensures Coherent(WalkRam(m, io, satp, va, acc, priv, mstatus), io, satp, t)
  {
    hide EntryOk, WalkRam;
    forall p | p in t ensures EntryOk(WalkRam(m, io, satp, va, acc, priv, mstatus), io, satp, p, t[p]) {
      WalkKeepsEntry(m, io, satp, va, acc, priv, mstatus, p, t[p]);
    }
  }

  lemma InsertKeepsCoherent(m: Ram, io: Io, satp: Word, t: Tlb, pick: Picker, p: Page, e: TlbEntry)
    requires Coherent(m, io, satp, t) && EntryOk(m, io, satp, p, e)
    ensures Coherent(m, io, satp, Insert(t, pick, p, e))
  {
    hide EntryOk, Victim;
  }

  /** Whoever is evicted, the cache never exceeds its 64 entries. */
  lemma InsertKeepsSize(t: Tlb, pick: Picker, p: Page, e: TlbEntry)
    requires |t| <= TLB_SIZE && p !in t
    ensures |Insert(t, pick, p, e)| <= TLB_SIZE
  {
    if |t| >= TLB_SIZE {
      var v := Victim(pick, t);
      hide Victim;
      var rest := t - {v};
      assert rest.Keys == t.Keys - {v};
      assert |rest| == |rest.Keys| == |t.Keys| - 1;
    }
  }

  // ---- one translation ----

  /** Translation without a cache. */
  function PlainResult(m: Ram, io: Io, satp: Word, va: Word, acc: Access, priv: Word, mstatus: Word): Xlate {
    if Sv32On(satp) then WalkResult(m, io, satp, va, acc, priv, mstatus) else Mapped(va)
  }
  function PlainRam(m: Ram, io: Io, satp: Word, va: Word, acc: Access, priv: Word, mstatus: Word): Ram {
    if Sv32On(satp) then WalkRam(m, io, satp, va, acc, priv, mstatus) else m
  }

  /** A translation through a current cache answers like the plain walk, changes memory in A and D
      bits only, and leaves a current cache of at most 64 entries. */
  lemma TranslateIsPlain(m: Ram, io: Io, t: Tlb, pick: Picker, satp: Word,
                         va: Word, acc: Access, priv: Word, mstatus: Word)
    requires Coherent(m, io, satp, t) && |t| <= TLB_SIZE
    ensures var o := Translate(m, io, t, pick, satp, va, acc, priv, mstatus);
      && o.result == PlainResult(m, io, satp, va, acc, priv, mstatus)
      && SameButAD(m, o.ram) && Coherent(o.ram, io, satp, o.tlb) && |o.tlb| <= TLB_SIZE
  {
    hide Coherent, SameButAD, WalkResult, WalkRam, FindLeaf, EntryOf, Insert, HitResult, Sv32On, PageOf;
    SameButADReflexive(m);
    if Sv32On(satp) {
      if PageOf(va) in t {
        HitIsWalk(m, io, satp, t, va, acc, priv, mstatus);
      } else {
        WalkKeepsRam(m, io, satp, va, acc, priv, mstatus);
        WalkKeepsCoherent(m, io, satp, t, va, acc, priv, mstatus);
        if WalkResult(m, io, satp, va, acc, priv, mstatus).Mapped? {
          var e := EntryOf(FindLeaf(m, io, satp, va), acc) by { NewEntryOk(m, io, satp, va, acc, priv, mstatus); }
          NewEntryOk(m, io, satp, va, acc, priv, mstatus);
          InsertKeepsCoherent(WalkRam(m, io, satp, va, acc, priv, mstatus), io, satp, t, pick, PageOf(va), e);
          InsertKeepsSize(t, pick, PageOf(va), e);
        }
      }
    }
  }

  // ---- data writes ----

  /** A write that touches neither entry on the path of the page. */
  ghost predicate MissesPath(m: Ram, io: Io, satp: Word, p: Page, super: bool, a: Word, sz: Size) {
    var va := BaseOf(p);
    && !Touches(a, sz, Pte1Addr(satp, va))
    && (!super ==> !Touches(a, sz, Pte0Addr(Load(m, io, Pte1Addr(satp, va), Whole), va)))
  }

  /** A write that touches no page-table word through which a live entry was found. */
  ghost predicate MissesTlb(m: Ram, io: Io, satp: Word, t: Tlb, a: Word, sz: Size) {
    forall p | p in t :: MissesPath(m, io, satp, p, t[p].super, a, sz)
  }

  lemma WriteKeepsLeaf(m: Ram, io: Io, satp: Word, p: Page, a: Word, v: Word, sz: Size)
    requires var l := FindLeaf(m, io, satp, BaseOf(p)); l.Leaf? && MissesPath(m, io, satp, p, l.super, a, sz)
    ensures FindLeaf(Store(m, a, v, sz), io, satp, BaseOf(p)) == FindLeaf(m, io, satp, BaseOf(p))
  {
    hide BaseOf, Load, Store, Pte1Addr, Pte0Addr, Malformed, IsLeafPte, Touches;
    var a1 := Pte1Addr(satp, BaseOf(p));
    StoreElsewhere(m, io, a, v, sz, a1);
    if !FindLeaf(m, io, satp, BaseOf(p)).super {
      StoreElsewhere(m, io, a, v, sz, Pte0Addr(Load(m, io, a1, Whole), BaseOf(p)));
    }
  }

  lemma WriteKeepsCoherent(m: Ram, io: Io, satp: Word, t: Tlb, a: Word, v: Word, sz: Size)
    requires Coherent(m, io, satp, t) && MissesTlb(m, io, satp, t, a, sz)
    ensures Coherent(Store(m, a, v, sz), io, satp, t)
  {
    hide FindLeaf, MissesPath, Store, Ppn, SameFlags, SuperAligned, Accessed, BaseOf;
    forall p | p in t ensures EntryOk(Store(m, a, v, sz), io, satp, p, t[p]) {
      assert EntryOk(m, io, satp, p, t[p]) && MissesPath(m, io, satp, p, t[p].super, a, sz);
      WriteKeepsLeaf(m, io, satp, p, a, v, sz);
      StoreKeepsInRam(m, a, v, sz, FindLeaf(m, io, satp, BaseOf(p)).addr, Whole);
    }
  }

  // ---- runs ----

  /** What happens around the MMU between two instants. */
  datatype Op =
    | Xlat(va: Word, acc: Access, priv: Word, mstatus: Word, pick: Picker)
    | SetSatp(value: Word)       // a CSR write to satp, whose callback flushes the cache
    | Fence                      // SFENCE.VMA
    | Write(a: Word, v: Word, sz: Size)  // any bus master

  datatype Sys = Sys(ram: Ram, satp: Word, tlb: Tlb)

  ghost function StepCached(s: Sys, io: Io, op: Op): Sys {
    match op
    case Xlat(va, acc, priv, mstatus, pick) =>
      var o := Translate(s.ram, io, s.tlb, pick, s.satp, va, acc, priv, mstatus);
      Sys(o.ram, s.satp, o.tlb)
    case SetSatp(value) => Sys(s.ram, value, map[])
    case Fence => Sys(s.ram, s.satp, map[])
    case Write(a, v, sz) => Sys(Store(s.ram, a, v, sz), s.satp, s.tlb)
  }

  /** The answers of the translations of a run, in order. */
  ghost function RunCached(s: Sys, io: Io, ops: seq<Op>): seq<Xlate>
    decreases |ops|
  {
    if ops == [] then []
    else
      var rest := RunCached(StepCached(s, io, ops[0]), io, ops[1..]);
      if ops[0].Xlat? then
        [Translate(s.ram, io, s.tlb, ops[0].pick, s.satp, ops[0].va, ops[0].acc, ops[0].priv, ops[0].mstatus).result]
        + rest
      else rest
  }

  function StepPlain(m: Ram, satp: Word, io: Io, op: Op): (Ram, Word) {
    match op
    case Xlat(va, acc, priv, mstatus, _) => (PlainRam(m, io, satp, va, acc, priv, mstatus), satp)
    case SetSatp(value) => (m, value)
    case Fence => (m, satp)
    case Write(a, v, sz) => (Store(m, a, v, sz), satp)
  }

  /** The same run on a machine that has no cache at all. */
  function RunPlain(m: Ram, satp: Word, io: Io, ops: seq<Op>): seq<Xlate>
    decreases |ops|
  {
    if ops == [] then []
    else
      var n := StepPlain(m, satp, io, ops[0]);
      var rest := RunPlain(n.0, n.1, io, ops[1..]);
      if ops[0].Xlat? then
        [PlainResult(m, io, satp, ops[0].va, ops[0].acc, ops[0].priv, ops[0].mstatus)] + rest
      else rest
  }

  /** The fencing discipline of the architecture: after a write to a page-table word used by a live
      entry, the cache is flushed before the next Sv32 translation. */
  ghost predicate Fenced(s: Sys, io: Io, ops: seq<Op>, stale: bool)
    decreases |ops|
  {
    ops == [] ||
    (var rest, next := ops[1..], StepCached(s, io, ops[0]);
     match ops[0]
     case Xlat(_, _, _, _, _) => (!stale || !Sv32On(s.satp)) && Fenced(next, io, rest, stale)
     case SetSatp(_) => Fenced(next, io, rest, false)
     case Fence => Fenced(next, io, rest, false)
     case Write(a, _, sz) => Fenced(next, io, rest, stale || !MissesTlb(s.ram, io, s.satp, s.tlb, a, sz)))
  }

  lemma EmptyIsCoherent(m: Ram, io: Io, satp: Word)
    ensures Coherent(m, io, satp, map[])
  {}

  lemma BareIsIdentity(m: Ram, io: Io, t: Tlb, pick: Picker, satp: Word,
                       va: Word, acc: Access, priv: Word, mstatus: Word)
    requires !Sv32On(satp)
    ensures Translate(m, io, t, pick, satp, va, acc, priv, mstatus) == Outcome(Mapped(va), m, t)
  {}

  /** The state after one step of a fenced run still corresponds to the uncached machine. */
  lemma StepKeepsCorrespondence(s: Sys, m: Ram, io: Io, op: Op, stale: bool, stale': bool)
    requires SameButAD(s.ram, m) && |s.tlb| <= TLB_SIZE && (!stale ==> Coherent(s.ram, io, s.satp, s.tlb))
    requires op.Xlat? ==> stale' == stale && (!stale || !Sv32On(s.satp))
    requires op.Write? ==> stale' == (stale || !MissesTlb(s.ram, io, s.satp, s.tlb, op.a, op.sz))
    ensures var s', n := StepCached(s, io, op), StepPlain(m, s.satp, io, op);
      && SameButAD(s'.ram, n.0) && s'.satp == n.1 && |s'.tlb| <= TLB_SIZE
      && (!stale' ==> Coherent(s'.ram, io, s'.satp, s'.tlb))
    ensures op.Xlat? ==>
      Translate(s.ram, io, s.tlb, op.pick, s.satp, op.va, op.acc, op.priv, op.mstatus).result
      == PlainResult(m, io, s.satp, op.va, op.acc, op.priv, op.mstatus)
  {
    hide Translate, SameButAD, Coherent, MissesTlb, Store, WalkResult, WalkRam, Sv32On;
    match op
    case Xlat(va, acc, priv, mstatus, pick) =>
      if !Sv32On(s.satp) {
        BareIsIdentity(s.ram, io, s.tlb, pick, s.satp, va, acc, priv, mstatus);
        return;
      }
      TranslateIsPlain(s.ram, io, s.tlb, pick, s.satp, va, acc, priv, mstatus);
      var o := Translate(s.ram, io, s.tlb, pick, s.satp, va, acc, priv, mstatus);
      WalksIgnoreAD(s.ram, m, io, s.satp, va, acc, priv, mstatus);
      WalkKeepsRam(m, io, s.satp, va, acc, priv, mstatus);
      SameButADReflexive(m);
      SameButADSymmetric(s.ram, o.ram);
      SameButADTransitive(o.ram, s.ram, m);
      SameButADTransitive(o.ram, m, PlainRam(m, io, s.satp, va, acc, priv, mstatus));
    case SetSatp(value) => EmptyIsCoherent(s.ram, io, value);
    case Fence => EmptyIsCoherent(s.ram, io, s.satp);
    case Write(a, v, sz) =>
      SameButADStore(s.ram, m, a, v, sz);
      if !stale' { WriteKeepsCoherent(s.ram, io, s.satp, s.tlb, a, v, sz); }
  }

  /** TLB transparency: over any fenced run, and whatever is evicted, the machine with the cache
      answers every translation exactly like the machine without one. */
  lemma {:induction false} TlbIsTransparent(s: Sys, m: Ram, io: Io, ops: seq<Op>, stale: bool)
    requires SameButAD(s.ram, m) && |s.tlb| <= TLB_SIZE && (!stale ==> Coherent(s.ram, io, s.satp, s.tlb))
    requires Fenced(s, io, ops, stale)
    ensures RunCached(s, io, ops) == RunPlain(m, s.satp, io, ops)
    decreases |ops|
  {
    if ops != [] {
      var op := ops[0];
      hide Translate, SameButAD, Coherent, MissesTlb, StepCached, StepPlain, PlainResult;
      var stale' := (op.Xlat? && stale)
        || (op.Write? && (stale || !MissesTlb(s.ram, io, s.satp, s.tlb, op.a, op.sz)));
      StepKeepsCorrespondence(s, m, io, op, stale, stale');
      TlbIsTransparent(StepCached(s, io, op), StepPlain(m, s.satp, io, op).0, io, ops[1..], stale');
    }
  }

  /** From reset the cache is empty, so the theorem needs no hypothesis beyond the fencing. */
  lemma TlbIsTransparentFromReset(m: Ram, satp: Word, io: Io, ops: seq<Op>)
    requires Fenced(Sys(m, satp, map[]), io, ops, false)
    ensures RunCached(Sys(m, satp, map[]), io, ops) == RunPlain(m, satp, io, ops)
  {
    SameButADReflexive(m);
    EmptyIsCoherent(m, io, satp);
    TlbIsTransparent(Sys(m, satp, map[]), m, io, ops, false);
  }

  /** The cache of any run, fenced or not, stays within 64 entries. */
  lemma {:induction false} TlbIsBounded(s: Sys, io: Io, ops: seq<Op>, k: nat)
    requires |s.tlb| <= TLB_SIZE && k <= |ops|
    ensures |StateAfter(s, io, ops[..k]).tlb| <= 64
    decreases k
  {
    if k > 0 {
      assert ops[..k][0] == ops[0] && ops[..k][1..] == ops[1..][..k - 1];
      hide Translate;
      if ops[0].Xlat? {
        TranslateKeepsSize(s.ram, io, s.tlb, ops[0].pick, s.satp, ops[0].va, ops[0].acc, ops[0].priv, ops[0].mstatus);
      }
      TlbIsBounded(StepCached(s, io, ops[0]), io, ops[1..], k - 1);
    }
  }

  ghost function StateAfter(s: Sys, io: Io, ops: seq<Op>): Sys
    decreases |ops|
  {
    if ops == [] then s else StateAfter(StepCached(s, io, ops[0]), io, ops[1..])
  }

  lemma TranslateKeepsSize(m: Ram, io: Io, t: Tlb, pick: Picker, satp: Word,
                           va: Word, acc: Access, priv: Word, mstatus: Word)
    requires |t| <= TLB_SIZE
    ensures |Translate(m, io, t, pick, satp, va, acc, priv, mstatus).tlb| <= TLB_SIZE
  {
    hide WalkResult, WalkRam, FindLeaf, HitResult, PageOf, Sv32On, Insert;
    if PageOf(va) !in t && WalkResult(m, io, satp, va, acc, priv, mstatus).Mapped? {
      MappedHasLeaf(m, io, satp, va, acc, priv, mstatus);
      InsertKeepsSize(t, pick, PageOf(va), EntryOf(FindLeaf(m, io, satp, va), acc));
    }
  }

  /** t' holds t and p: nothing of t is lost while there is room, at most one entry otherwise, and nothing
      else is new. */
  ghost predicate Filled(t: Tlb, p: Page, t': Tlb) {
    && p in t'
    && (forall q :: q in t' && q != p ==> q in t && t'[q] == t[q])
    && (p in t || |t| < 64 ==> forall q :: q in t && q != p ==> q in t')
    && (forall q, r :: q in t && q !in t' && r in t && r !in t' ==> q == r)
  }
  lemma InsertFills(t: Tlb, pick: Picker, p: Page, e: TlbEntry)
    requires p !in t
    ensures Filled(t, p, Insert(t, pick, p, e))
  {}
  /** A translation that succeeds leaves its page cached and the rest of the cache as it was, except for
      one victim when all 64 entries are taken. */
  lemma TranslateFillsCache(m: Ram, io: Io, t: Tlb, pick: Picker, satp: Word, va: Word, acc: Access, priv: Word, mstatus: Word)
    requires Sv32On(satp)
    ensures var o := Translate(m, io, t, pick, satp, va, acc, priv, mstatus);
      if o.result.Mapped? then Filled(t, PageOf(va), o.tlb) else o.tlb == t
  {
    hide WalkResult, WalkRam, FindLeaf, HitResult, PageOf, Sv32On, Insert;
    if PageOf(va) !in t && WalkResult(m, io, satp, va, acc, priv, mstatus).Mapped? {
      MappedHasLeaf(m, io, satp, va, acc, priv, mstatus);
      InsertFills(t, pick, PageOf(va), EntryOf(FindLeaf(m, io, satp, va), acc));
    }
  }

  lemma MappedHasLeaf(m: Ram, io: Io, satp: Word, va: Word, acc: Access, priv: Word, mstatus: Word)
    requires WalkResult(m, io, satp, va, acc, priv, mstatus).Mapped?
    ensures FindLeaf(m, io, satp, va).Leaf?
  {
    LeafOfMapped(FindLeaf(m, io, satp, va), va, acc, priv, mstatus);
    hide LeafResult, FindLeaf;
  }
}
