/** Creating, updating, activating and forking contexts, as steps on the system state. */
module Contexts {
  import opened Bits
  import opened Options
  import opened Mmu
  import opened Find
  import opened Mem
  import opened Rights
  import opened Spaces

  const KERNEL_END_SLOT := 1023   // PD_INDEX(PAGE_INDEX(VADDR_KERNEL_END))

  /** pagedir_paddr | VMM_PRESENT | VMM_WRITE. */
  function SelfEntry(paddr: Word): (w: Word)
    ensures FrameOf(w) == paddr / PAGE_SIZE && Present(w)
  {
    OrFlags(paddr, VMM_PRESENT);
    OrHalf(paddr, VMM_PRESENT);
    OrFlags(Or(paddr, VMM_PRESENT), VMM_WRITE);
    OrHalf(Or(paddr, VMM_PRESENT), VMM_WRITE);
    Or(Or(paddr, VMM_PRESENT), VMM_WRITE)
  }

  /** The directory vmm_update_context leaves: slots 768..1022 are the current context's, slot 960 is its own. */
  function Updated(own: Table, current: Table, paddr: Word): Table {
    Spliced(own, current, KERNEL, KERNEL_END_SLOT)[SELF := SelfEntry(paddr)]
  }

  ghost predicate UpdateStep(s: Sys, s': Sys, c: Context) {
    s' == s.(ram := s.ram[c.Pd() := Updated(s.ram[c.Pd()], s.ram[s.cur.Pd()], c.pagedirPaddr)])
  }

  lemma UpdatedSlots(own: Table, current: Table, paddr: Word, i: Index)
    ensures Updated(own, current, paddr)[i] ==
      if i == SELF then SelfEntry(paddr) else if KERNEL <= i < KERNEL_END_SLOT then current[i] else own[i]
  {
  }

  /** The updated context has the current kernel half, its own user half, and maps itself. */
  lemma UpdateWalk(s: Sys, s': Sys, c: Context, q: PageNo)
    requires Coherent(s) && c in s.ctxs && c != s.cur && UpdateStep(s, s', c) && DirOf(q) != SELF
    ensures 768 <= DirOf(q) < 1023 ==> Tr(s', c, q) == Tr(s, s.cur, q)
    ensures DirOf(q) < 768 || DirOf(q) == 1023 ==> Tr(s', c, q) == Tr(s, c, q)
    ensures SelfMapped(s'.ram, c.Pd())
  {
    assert ContextOk(s, c) && ContextOk(s, s.cur);
    UpdatedSlots(s.ram[c.Pd()], s.ram[s.cur.Pd()], c.pagedirPaddr, DirOf(q));
    UpdatedSlots(s.ram[c.Pd()], s.ram[s.cur.Pd()], c.pagedirPaddr, SELF);
  }

  /** The current context is updated from itself: only its self entry is written. */
  lemma UpdateSelf(s: Sys, s': Sys)
    requires Coherent(s) && UpdateStep(s, s', s.cur)
    ensures Coherent(s')
  {
    hide Updated;
    ContextFacts(s, s.cur);
    forall i: Index
      ensures s'.ram[s.cur.Pd()][i] == if i == SELF then SelfEntry(s.cur.pagedirPaddr) else Pde(s, s.cur, i)
    {
      UpdatedSlots(s.ram[s.cur.Pd()], s.ram[s.cur.Pd()], s.cur.pagedirPaddr, i);
    }
    forall d | d in s'.ctxs ensures ContextOk(s', d) {
      ContextFacts(s, d);
    }
  }

  lemma UpdateOther(s: Sys, s': Sys, c: Context, d: Context, q: PageNo)
    requires Coherent(s) && c in s.ctxs && d in s.ctxs && d != c && c != s.cur && UpdateStep(s, s', c)
    requires DirOf(q) != SELF || d == s.cur
    ensures Tr(s', d, q) == Tr(s, d, q)
  {
    assert ContextOk(s, c) && ContextOk(s, d);
  }

  lemma UpdateCoherent(s: Sys, s': Sys, c: Context)
    requires Coherent(s) && c in s.ctxs && c != s.cur && UpdateStep(s, s', c)
    ensures Coherent(s')
  {
    ContextFacts(s, s.cur);
    ContextFacts(s, c);
    forall d | d in s.ctxs ensures ContextOk(s', d) {
      assert ContextOk(s, d);
      UpdateOther(s, s', c, s.cur, d.DirPage());
      if d == c {
        forall i: Index ensures s'.ram[d.Pd()][i] ==
          if i == SELF then SelfEntry(c.pagedirPaddr) else if KERNEL <= i < KERNEL_END_SLOT then s.ram[s.cur.Pd()][i]
            else s.ram[d.Pd()][i]
        {
          UpdatedSlots(s.ram[c.Pd()], s.ram[s.cur.Pd()], c.pagedirPaddr, i);
        }
      } else {
        assert s'.ram[d.Pd()] == s.ram[d.Pd()];
      }
    }
  }

  /** vmm_activate_context: update, then load CR3. */
  lemma ActivateCoherent(s: Sys, s': Sys, c: Context)
    requires Coherent(s) && c in s.ctxs && c != s.cur && UpdateStep(s, s', c)
    ensures Coherent(s'.(cur := c))
  {
    UpdateCoherent(s, s', c);
    var a := s'.(cur := c);
    ContextFacts(s, s.cur);
    UpdateWalk(s, s', c, 0);
    forall d | d in s.ctxs ensures ContextOk(a, d) {
      assert ContextOk(s', d) && ContextOk(s, d);
      UpdateWalk(s, s', c, d.DirPage());
      assert DirectoryOk(a, d.Pd());
    }
  }

  /** A cleared frame, mapped at kernel page v, becomes the directory of a new context. */
  lemma NewContext(s: Sys, c: Context)
    requires Coherent(s) && s.ram[c.Pd()] == ZeroTable() && c.Pd() !in s.roles && c.Pd() !in s.free
    requires c.pagedir % PAGE_SIZE == 0 && c.pagedirPaddr % PAGE_SIZE == 0 && KERNEL <= DirOf(c.DirPage()) < SELF
    requires Tr(s, s.cur, c.DirPage()) == Some(c.Pd())
    ensures c !in s.ctxs && Coherent(s.(ctxs := s.ctxs + {c}, roles := s.roles[c.Pd() := Directory(c.Pd())]))
  {
    var a := s.(ctxs := s.ctxs + {c}, roles := s.roles[c.Pd() := Directory(c.Pd())]);
    forall d | d in s.ctxs ensures ContextOk(a, d) && d.Pd() != c.Pd() {
      assert ContextOk(s, d);
    }
    assert ContextOk(a, c);
  }

  // ----- what a caller of a growing operation keeps -----

  /** The user half of the contexts in ds is as it was, and so is every kernel page that was mapped. */
  ghost predicate Keeps(s: Sys, s': Sys, ds: set<Context>) {
    && s'.cur == s.cur && s.ctxs <= s'.ctxs && s'.free <= s.free
    && (forall d, q: PageNo :: d in ds && DirOf(q) < KERNEL ==> Tr(s', d, q) == Tr(s, d, q))
    && (forall q: PageNo :: KERNEL <= DirOf(q) != SELF && Tr(s, s.cur, q).Some? ==> Tr(s', s.cur, q) == Tr(s, s.cur, q))
  }

  lemma KeepsTrans(s0: Sys, s1: Sys, s2: Sys, ds: set<Context>)
    requires Keeps(s0, s1, ds) && Keeps(s1, s2, ds)
    ensures Keeps(s0, s2, ds)
  {
  }

  /** New tables come from the free frames, and only tables and frames that were free are written. */
  ghost predicate FramesKept(s: Sys, s': Sys) {
    && (forall g: Frame :: g in s.roles ==> g in s'.roles)
    && (forall g: Frame :: g in s'.roles && g !in s.roles ==> g in s.free && g !in s'.free)
    && (forall g: Frame :: g !in s'.roles && g !in s.free ==> s'.ram[g] == s.ram[g])
  }

  lemma FramesTrans(s0: Sys, s1: Sys, s2: Sys)
    requires FramesKept(s0, s1) && FramesKept(s1, s2) && s1.free <= s0.free && s2.free <= s1.free
    ensures FramesKept(s0, s2)
  {
  }

  ghost function KernelPages(s: Sys): set<PageNo> {
    set q: PageNo | 0 <= q < 0x10_0000 && KERNEL <= DirOf(q) < SELF && Tr(s, s.cur, q) == None
  }

  lemma PagesSlot(s: Sys)
    requires KernelPages(s) != {}
    ensures KernelSlot(s) < SELF * 1024 && KernelSlot(s) in KernelPages(s)
  {
    var q :| q in KernelPages(s);
    assert KernelSlot(s) >= SELF * 1024 ==> Walk(s.ram, s.cur.Pd(), q).Some?;
  }

  /** A new kernel page of the current context. */
  lemma AutomapKeeps(s: Sys, s': Sys, e: Word, t: Frame)
    requires Coherent(s) && KernelSlot(s) < SELF * 1024 && MapStep(s, s', s.cur, KernelSlot(s), e, t) && Present(e)
    ensures Coherent(s') && Keeps(s, s', s.ctxs) && Tr(s', s.cur, KernelSlot(s)) == Some(FrameOf(e))
    ensures KernelPages(s') == KernelPages(s) - {KernelSlot(s)} && |s'.free| >= |s.free| - 1
  {
    ContextFacts(s, s.cur);
    MapFacts(s, s', s.cur, KernelSlot(s), e, t);
    forall d, q: PageNo | d in s.ctxs && DirOf(q) < KERNEL ensures Tr(s', d, q) == Tr(s, d, q) {
      AutomapUser(s, s', e, t, d, q);
    }
    forall q: PageNo | KERNEL <= DirOf(q) != SELF
      ensures Tr(s', s.cur, q) == if q == KernelSlot(s) then Some(FrameOf(e)) else Tr(s, s.cur, q)
    {
      MapOwn(s, s', s.cur, KernelSlot(s), e, t, q);
    }
    SlotNoDirectory(s);
    MapCoherent(s, s', s.cur, KernelSlot(s), e, t);
    assert s.free - {t} == s.free || |s.free - {t}| == |s.free| - 1;
  }

  lemma AutomapUser(s: Sys, s': Sys, e: Word, t: Frame, d: Context, q: PageNo)
    requires Coherent(s) && KernelSlot(s) < SELF * 1024 && MapStep(s, s', s.cur, KernelSlot(s), e, t) && Present(e)
    requires d in s.ctxs && DirOf(q) < KERNEL
    ensures Tr(s', d, q) == Tr(s, d, q)
  {
    ContextFacts(s, s.cur);
    if d == s.cur {
      MapOwn(s, s', s.cur, KernelSlot(s), e, t, q);
    } else {
      MapOther(s, s', s.cur, KernelSlot(s), e, t, d, q);
    }
  }

  lemma FlaggedKeeps(s: Sys, s': Sys, c: Context)
    requires Coherent(s) && c in s.ctxs && Flagged(s, s', c)
    ensures Coherent(s') && Keeps(s, s', s.ctxs) && KernelPages(s') == KernelPages(s)
  {
    ContextFacts(s, s.cur);
    FlaggedCoherent(s, s', c);
    forall d, q: PageNo | d in s.ctxs && DirOf(q) != SELF ensures Tr(s', d, q) == Tr(s, d, q) {
      FlaggedWalk(s, s', c, d, q);
    }
  }

  /** The contents of a frame that is no directory and no table. */
  lemma LooseKeeps(s: Sys, f: Frame, x: Table)
    requires Coherent(s) && f !in s.roles
    ensures var s' := s.(ram := s.ram[f := x]);
      Coherent(s') && Keeps(s, s', s.ctxs) && KernelPages(s') == KernelPages(s)
  {
    var s' := s.(ram := s.ram[f := x]);
    ContextFacts(s, s.cur);
    forall d, q: PageNo | d in s.ctxs && DirOf(q) != SELF ensures Tr(s', d, q) == Tr(s, d, q) {
      ContextFacts(s, d);
    }
    forall d | d in s.ctxs ensures ContextOk(s', d) {
      assert ContextOk(s, d);
      assert s'.ram[d.Pd()] == s.ram[d.Pd()];
    }
  }

  lemma AllocKeeps(s: Sys, f: Frame)
    requires Coherent(s) && f in s.free
    ensures Coherent(s.(free := s.free - {f})) && Keeps(s, s.(free := s.free - {f}), s.ctxs)
    ensures f !in s.roles && |s.free - {f}| == |s.free| - 1
    ensures KernelPages(s.(free := s.free - {f})) == KernelPages(s)
  {
    forall d | d in s.ctxs ensures ContextOk(s.(free := s.free - {f}), d) {
      assert ContextOk(s, d);
      assert DirectoryOk(s.(free := s.free - {f}), d.Pd());
    }
  }

  /** A frame without a role can be written through its new page. */
  lemma AutomapAside(s: Sys, s': Sys, e: Word, t: Frame, f: Frame)
    requires Coherent(s) && KernelSlot(s) < SELF * 1024 && MapStep(s, s', s.cur, KernelSlot(s), e, t) && Present(e)
    requires f !in s.roles && f !in s.free
    ensures f !in s'.roles && Aside(s'.ram, s.cur.Pd(), f, KernelSlot(s))
  {
    ContextFacts(s, s.cur);
  }

  /** The user slots of the current directory have the tables they had, with the entries they had. */
  ghost predicate UserSlots(s: Sys, s': Sys) {
    && s'.cur == s.cur && EntriesKept(s, s', s.cur)
    && forall j: Index :: j < KERNEL ==> SameEntry(Pde(s, s.cur, j), Pde(s', s.cur, j))
  }

  lemma UserSlotsTrans(s0: Sys, s1: Sys, s2: Sys)
    requires UserSlots(s0, s1) && UserSlots(s1, s2)
    ensures UserSlots(s0, s2)
  {
    EntriesTrans(s0, s1, s2, s0.cur);
    hide EntriesKept;
    forall j: Index | j < KERNEL ensures SameEntry(Pde(s0, s0.cur, j), Pde(s2, s0.cur, j)) {
      assert SameEntry(Pde(s0, s0.cur, j), Pde(s1, s0.cur, j)) && SameEntry(Pde(s1, s0.cur, j), Pde(s2, s0.cur, j));
    }
  }

  /** A fresh frame at the lowest free kernel page, cleared. */
  lemma FreshFrames(s: Sys, s1: Sys, s2: Sys, e: Word, t: Frame, f: Frame)
    requires Coherent(s1) && f in s.free && s1 == s.(free := s.free - {f}) && f !in s.roles
    requires KernelSlot(s1) < SELF * 1024 && MapStep(s1, s2, s1.cur, KernelSlot(s1), e, t) && Present(e)
    ensures FramesKept(s, s2.(ram := s2.ram[f := ZeroTable()])) && KernelSlot(s1) == KernelSlot(s)
    ensures UserSlots(s, s2.(ram := s2.ram[f := ZeroTable()]))
  {
    FreshEntries(s, s1, s2, e, t, f);
    hide EntriesKept;
    ContextFacts(s1, s1.cur);
    MapFacts(s1, s2, s1.cur, KernelSlot(s1), e, t);
  }

  lemma FreshEntries(s: Sys, s1: Sys, s2: Sys, e: Word, t: Frame, f: Frame)
    requires Coherent(s1) && f in s.free && s1 == s.(free := s.free - {f}) && f !in s.roles
    requires KernelSlot(s1) < SELF * 1024 && MapStep(s1, s2, s1.cur, KernelSlot(s1), e, t) && Present(e)
    ensures EntriesKept(s, s2.(ram := s2.ram[f := ZeroTable()]), s.cur)
  {
    hide Coherent, MapStep, KernelSlot, EntriesKept;
    var y := s2.(ram := s2.ram[f := ZeroTable()]);
    ContextFacts(s1, s1.cur);
    SlotNoDirectory(s1);
    MapCoherent(s1, s2, s1.cur, KernelSlot(s1), e, t);
    MapFacts(s1, s2, s1.cur, KernelSlot(s1), e, t);
    KernelMapEntries(s1, s2, s1.cur, KernelSlot(s1), e, t, s1.cur);
    FreshRole(s1, s2, s1.cur, KernelSlot(s1), e, t, f);
    ContextFacts(s2, s1.cur);
    WriteEntries(s2, y, f, ZeroTable(), s1.cur);
    EntriesTrans(s1, s2, y, s1.cur);
    SameEntries(s, s1, y, s.cur);
  }

  lemma FreshRole(s: Sys, s': Sys, c: Context, p: PageNo, e: Word, t: Frame, f: Frame)
    requires MapStep(s, s', c, p, e, t) && f !in s.roles && f !in s.free
    ensures f !in s'.roles
  {
  }

  lemma SameEntries(s: Sys, s1: Sys, y: Sys, c: Context)
    requires s1.ram == s.ram && EntriesKept(s1, y, c)
    ensures EntriesKept(s, y, c)
  {
  }

  lemma DistinctDirectories(s: Sys, c: Context)
    requires Coherent(s) && c in s.ctxs && c != s.cur
    ensures c.Pd() != s.cur.Pd()
    ensures forall d :: d in s.ctxs ==> Aside(s.ram, s.cur.Pd(), c.Pd(), d.DirPage())
  {
    ContextFacts(s, c);
    ContextFacts(s, s.cur);
    forall d | d in s.ctxs ensures Aside(s.ram, s.cur.Pd(), c.Pd(), d.DirPage()) {
      assert ContextOk(s, d);
    }
  }

  /** The pointers context->pagedir + START, for the context and for the current one. */
  lemma UpdatePointers(s: Sys, c: Context)
    requires Coherent(s) && c in s.ctxs
    ensures c.pagedir % PAGE_SIZE == 0 && c.pagedir + 4 * KERNEL < 0x1_0000_0000
    ensures PageOf(c.pagedir + 4 * KERNEL) == c.DirPage() && OffsetOf(c.pagedir + 4 * KERNEL) == 4 * KERNEL
    ensures Walk(s.ram, s.cur.Pd(), c.DirPage()) == Some(c.Pd())
  {
    ContextFacts(s, c);
    SamePage(c.pagedir, 4 * KERNEL);
  }

  /** The memcpy of vmm_update_context between them, and the mapping of the directory afterwards. */
  lemma UpdateCopyable(s: Sys, c: Context, a: Word, b: Word, n: nat)
    requires Coherent(s) && c in s.ctxs && n == 4 * (KERNEL_END_SLOT - KERNEL)
    requires PageOf(a) == c.DirPage() && PageOf(b) == s.cur.DirPage() && OffsetOf(a) == OffsetOf(b) == 4 * KERNEL
    requires c == s.cur ==> a == b
    requires Walk(s.ram, s.cur.Pd(), c.DirPage()) == Some(c.Pd())
    requires Walk(s.ram, s.cur.Pd(), s.cur.DirPage()) == Some(s.cur.Pd())
    ensures a + n <= 0x1_0000_0000 && b + n <= 0x1_0000_0000 && Reachable(s.ram, s.cur.Pd(), a, b, n)
    ensures Forward(s.ram, s.cur.Pd(), a, b, n) == UpdateCopied(s, c)
    ensures Walk(UpdateCopied(s, c), s.cur.Pd(), c.DirPage()) == Some(c.Pd())
  {
    hide Coherent, ContextOk, DirectoryOk, SelfMapped, Copyable, Copied, PageOf, OffsetOf, Walk, Aside, Forward;
    hide Reachable;
    if c == s.cur {
      SamePageBacked(s.ram, s.cur.Pd(), a, n);
      SelfForward(s.ram, s.cur.Pd(), a, n);
      assert Spliced(s.ram[c.Pd()], s.ram[c.Pd()], KERNEL, KERNEL_END_SLOT) == s.ram[c.Pd()];
    } else {
      ContextFacts(s, s.cur);
      DistinctDirectories(s, c);
      hide Spliced;
      AsideWalk(s.ram, s.cur.Pd(), c.Pd(), Spliced(s.ram[c.Pd()], s.ram[s.cur.Pd()], KERNEL, KERNEL_END_SLOT),
        c.DirPage());
      PageCopyable(s.ram, s.cur.Pd(), a, b, c.Pd(), s.cur.Pd(), n);
      CopyForward(s.ram, s.cur.Pd(), a, b, n);
      CopiedWords(s.ram, s.cur.Pd(), a, b, c.Pd(), s.cur.Pd(), KERNEL, KERNEL_END_SLOT);
    }
  }

  function UpdateCopied(s: Sys, c: Context): Ram {
    s.ram[c.Pd() := Spliced(s.ram[c.Pd()], s.ram[s.cur.Pd()], KERNEL, KERNEL_END_SLOT)]
  }

  /** No user page of c is mapped. */
  ghost predicate Empty(s: Sys, c: Context) {
    forall i: Index :: i < KERNEL ==> Pde(s, c, i) == 0
  }

  /** c translates the kernel half as the current context does. */
  ghost predicate SharesKernel(s: Sys, c: Context) {
    forall q: PageNo :: KERNEL <= DirOf(q) < KERNEL_END_SLOT && DirOf(q) != SELF ==> Tr(s, c, q) == Tr(s, s.cur, q)
  }

  lemma NewContextKeeps(s: Sys, s': Sys, c: Context)
    requires s' == s.(ctxs := s.ctxs + {c}, roles := s.roles[c.Pd() := Directory(c.Pd())])
    ensures Keeps(s, s', s.ctxs) && KernelPages(s') == KernelPages(s)
  {
  }

  /** Making a fresh frame a directory and updating it. */
  lemma DirectoryFrames(s0: Sys, s: Sys, s1: Sys, s2: Sys, c: Context)
    requires FramesKept(s0, s) && s.free <= s0.free && c.Pd() in s0.free && c.Pd() !in s.free && c.Pd() !in s.roles
    requires s1 == s.(ctxs := s.ctxs + {c}, roles := s.roles[c.Pd() := Directory(c.Pd())]) && UpdateStep(s1, s2, c)
    ensures FramesKept(s0, s2)
  {
  }

  /** Only the two lowest free kernel pages of s are taken. */
  ghost predicate TwoTaken(s: Sys, s': Sys) {
    forall a, b, q :: a in KernelPages(s) && b in KernelPages(s) && q in KernelPages(s) && a < b < q ==>
      q in KernelPages(s')
  }

  lemma TwoLowest(s: Sys, s1: Sys, s2: Sys)
    requires |KernelPages(s)| >= 2 && |KernelPages(s1)| >= 1
    requires KernelPages(s1) == KernelPages(s) - {KernelSlot(s)}
    requires KernelPages(s2) == KernelPages(s1) - {KernelSlot(s1)}
    ensures TwoTaken(s, s2)
  {
    hide KernelPages, KernelSlot;
    forall a, b, q | a in KernelPages(s) && b in KernelPages(s) && q in KernelPages(s) && a < b < q
      ensures q in KernelPages(s2)
    {
      SlotLowest(s, a);
      assert b in KernelPages(s1);
      SlotLowest(s1, b);
    }
  }

  lemma SlotLowest(s: Sys, q: PageNo)
    requires q in KernelPages(s)
    ensures KernelSlot(s) <= q
  {
    assert Unmapped(s.ram, s.cur.Pd(), q);
  }

  /** c has the kernel tables of the current context. */
  ghost predicate SameTables(s: Sys, c: Context) {
    forall i: Index :: KERNEL <= i < KERNEL_END_SLOT && i != SELF ==> Pde(s, c, i) == Pde(s, s.cur, i)
  }

  lemma UpdateTables(s: Sys, s': Sys, c: Context)
    requires UpdateStep(s, s', c) && c.Pd() != s.cur.Pd()
    ensures SameTables(s', c)
  {
    forall i: Index | KERNEL <= i < KERNEL_END_SLOT && i != SELF ensures Pde(s', c, i) == Pde(s', s'.cur, i) {
      UpdatedSlots(s.ram[c.Pd()], s.ram[s.cur.Pd()], c.pagedirPaddr, i);
    }
  }

  lemma UpdateKeeps(s: Sys, s': Sys, c: Context)
    requires Coherent(s) && c in s.ctxs && c != s.cur && UpdateStep(s, s', c)
    ensures Keeps(s, s', s.ctxs) && KernelPages(s') == KernelPages(s) && SharesKernel(s', c)
    ensures SelfMapped(s'.ram, c.Pd())
    ensures Empty(s, c) ==> Empty(s', c)
  {
    UpdateWalk(s, s', c, 0);
    forall d, q: PageNo | d in s.ctxs && DirOf(q) < KERNEL ensures Tr(s', d, q) == Tr(s, d, q) {
      if d == c { UpdateWalk(s, s', c, q); } else { UpdateOther(s, s', c, d, q); }
    }
    forall q: PageNo | DirOf(q) != SELF ensures Tr(s', s.cur, q) == Tr(s, s.cur, q) {
      UpdateOther(s, s', c, s.cur, q);
    }
    forall q: PageNo | KERNEL <= DirOf(q) < KERNEL_END_SLOT && DirOf(q) != SELF
      ensures Tr(s', c, q) == Tr(s', s.cur, q)
    {
      UpdateWalk(s, s', c, q);
    }
    forall i: Index | i < KERNEL ensures Pde(s', c, i) == Pde(s, c, i) {
      UpdatedSlots(s.ram[c.Pd()], s.ram[s.cur.Pd()], c.pagedirPaddr, i);
    }
  }

  /** vmm_create_context writes the self entry once more. */
  lemma UpdateAgain(s: Sys, s': Sys, c: Context)
    requires UpdateStep(s, s', c)
    ensures Poke(s'.ram, c.Pd(), SELF, SelfEntry(c.pagedirPaddr)) == s'.ram
  {
    assert s'.ram[c.Pd()][SELF := SelfEntry(c.pagedirPaddr)] == s'.ram[c.Pd()];
  }

  /** The steps of vmm_create_context after the directory's frame was mapped and cleared. */
  lemma Created(s: Sys, s2: Sys, s3: Sys, s4: Sys, c: Context)
    requires Keeps(s, s2, s.ctxs) && FramesKept(s, s2) && TwoTaken(s, s2)
    requires c.Pd() in s.free && c.Pd() !in s2.free && c.Pd() !in s2.roles && s2.ram[c.Pd()] == ZeroTable()
    requires s3 == s2.(ctxs := s2.ctxs + {c}, roles := s2.roles[c.Pd() := Directory(c.Pd())])
    requires Coherent(s3) && c != s3.cur && UpdateStep(s3, s4, c) && UserSlots(s, s2)
    ensures UserSlots(s, s4)
    ensures Keeps(s, s4, s.ctxs) && FramesKept(s, s4) && TwoTaken(s, s4) && KernelPages(s4) == KernelPages(s2)
    ensures SameTables(s4, c) && Empty(s4, c) && SharesKernel(s4, c) && SelfMapped(s4.ram, c.Pd())
    ensures Poke(s4.ram, c.Pd(), SELF, SelfEntry(c.pagedirPaddr)) == s4.ram
  {
    hide Coherent, ContextOk, DirectoryOk, SelfMapped, Walk, Keeps, KernelPages, UpdateStep, Empty, SharesKernel;
    hide FramesKept, SameTables, UserSlots;
    DistinctDirectories(s3, c);
    KeepsFree(s, s2, s.ctxs);
    NewContextKeeps(s2, s3, c);
    KeepsLess(s2, s3, s2.ctxs, s.ctxs);
    UpdateKeeps(s3, s4, c);
    KeepsLess(s3, s4, s3.ctxs, s.ctxs);
    KeepsTrans(s, s2, s3, s.ctxs);
    KeepsTrans(s, s3, s4, s.ctxs);
    DirectoryFrames(s, s2, s3, s4, c);
    UpdateTables(s3, s4, c);
    UpdateAgain(s3, s4, c);
    NewEmpty(s3, c);
    ContextFacts(s3, s3.cur);
    UpdateUserSlots(s, s2, s3, s4, c);
  }

  lemma UpdateUserSlots(s: Sys, s2: Sys, s3: Sys, s4: Sys, c: Context)
    requires UserSlots(s, s2) && s3 == s2.(ctxs := s2.ctxs + {c}, roles := s2.roles[c.Pd() := Directory(c.Pd())])
    requires UpdateStep(s3, s4, c) && c.Pd() != s3.cur.Pd() && Coherent(s3) && s.cur in s3.ctxs
    ensures UserSlots(s, s4)
  {
    ContextFacts(s3, c);
    WriteEntries(s3, s4, c.Pd(), s4.ram[c.Pd()], s.cur);
    SameEntries(s2, s3, s4, s.cur);
    EntriesTrans(s, s2, s4, s.cur);
    hide EntriesKept, Coherent;
    assert s4.ram[s.cur.Pd()] == s2.ram[s.cur.Pd()];
  }

  lemma KeepsLess(s: Sys, s': Sys, ds: set<Context>, es: set<Context>)
    requires Keeps(s, s', ds) && es <= ds
    ensures Keeps(s, s', es)
  {
  }

  lemma NewEmpty(s: Sys, c: Context)
    requires s.ram[c.Pd()] == ZeroTable()
    ensures Empty(s, c)
  {
  }

  lemma KeepsFree(s: Sys, s': Sys, ds: set<Context>)
    requires Keeps(s, s', ds)
    ensures s'.free <= s.free && s'.cur == s.cur && s.ctxs <= s'.ctxs
  {
  }

  /** Two free frames are enough for a page table and, if need be, the table of its window. */
  lemma FreeAfterOne(s: Sys)
    requires |s.free| >= 2 && KernelSlot(s) < SELF * 1024
    ensures forall f :: f in s.free ==> Room(s.(free := s.free - {f}))
  {
    forall f | f in s.free ensures Room(s.(free := s.free - {f})) {
      assert |s.free - {f}| >= 1;
      assert KernelSlot(s.(free := s.free - {f})) == KernelSlot(s);
    }
  }
}
