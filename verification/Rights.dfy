/** What the flags let a program do with a page: the processor asks both the directory entry and the page's own
    (Intel SDM volume 3A, section 4.6). */
module Rights {
  import opened Bits
  import opened Options
  import opened Mmu
  import opened Find
  import opened Spaces

  /** The entry of page q in context c's table. */
  function Pte(s: Sys, c: Context, q: PageNo): Word { s.ram[FrameOf(Pde(s, c, DirOf(q)))][SlotOf(q)] }

  /** The flags are set in the page's directory entry and in its own. */
  ghost predicate Allows(s: Sys, c: Context, q: PageNo, flags: nat) {
    Present(Pde(s, c, DirOf(q))) && FlagsKept(flags, Pde(s, c, DirOf(q))) && FlagsKept(flags, Pte(s, c, q))
  }

  /** The user pages of c that allow the flags still do. */
  ghost predicate RightsKept(s: Sys, s': Sys, c: Context, flags: nat) {
    forall q: PageNo :: DirOf(q) < KERNEL && Allows(s, c, q, flags) ==> Allows(s', c, q, flags)
  }

  lemma RightsTrans(s: Sys, m: Sys, s': Sys, c: Context, flags: nat)
    requires RightsKept(s, m, c, flags) && RightsKept(m, s', c, flags)
    ensures RightsKept(s, s', c, flags)
  {
    hide Allows;
  }

  /** A page that is mapped with flags allows them, and its own entry has no others but VMM_PRESENT. */
  lemma MapAllows(s: Sys, s': Sys, c: Context, p: PageNo, paddr: Word, flags: nat, t: Frame)
    requires flags < 256 && paddr % PAGE_SIZE == 0 && MapStep(s, s', c, p, PageEntry(paddr, flags), t)
    ensures Allows(s', c, p, flags)
    ensures forall k: nat :: k < 12 ==> (Bit(Pte(s', c, p), k) <==> k == 0 || Bit(flags, k))
  {
    PageFlags(paddr, flags);
    hide PageEntry, Bit;
    assert Pte(s', c, p) == PageEntry(paddr, flags);
  }

  /** Adding flags to directory entries takes none away. */
  lemma FlaggedRights(s: Sys, s': Sys, c: Context, d: Context, flags: nat)
    requires Coherent(s) && c in s.ctxs && d in s.ctxs && Flagged(s, s', c)
    ensures RightsKept(s, s', d, flags)
  {
    ContextFacts(s, c);
    ContextFacts(s, d);
    forall q: PageNo | DirOf(q) < KERNEL && Allows(s, d, q, flags) ensures Allows(s', d, q, flags) {
      assert SameEntry(s.ram[c.Pd()][DirOf(q)], s'.ram[c.Pd()][DirOf(q)]);
      assert Pte(s', d, q) == Pte(s, d, q);
    }
  }

  /** Mapping a page takes no flags from the user pages of any context, except from that page itself. */
  lemma MapRights(s: Sys, s': Sys, c: Context, p: PageNo, e: Word, t: Frame, d: Context, flags: nat)
    requires Coherent(s) && c in s.ctxs && d in s.ctxs && MapStep(s, s', c, p, e, t) && DirOf(p) != SELF
    requires d == c && DirOf(p) < KERNEL ==> FlagsKept(flags, e)
    ensures RightsKept(s, s', d, flags)
  {
    ContextFacts(s, c);
    ContextFacts(s, d);
    hide Coherent, ContextOk;
    forall q: PageNo | DirOf(q) < KERNEL && Allows(s, d, q, flags) ensures Allows(s', d, q, flags) {
      if d == c {
        assert DirOf(q) != DirOf(p) ==> SameEntry(s.ram[c.Pd()][DirOf(q)], s'.ram[c.Pd()][DirOf(q)]);
        assert q != p ==> Pte(s', d, q) == Pte(s, d, q);
      } else {
        assert s'.ram[d.Pd()] == s.ram[d.Pd()];
        assert Pte(s', d, q) == Pte(s, d, q);
      }
    }
  }

  /** Unmapping a page takes no flags from other pages. */
  lemma UnmapRights(s: Sys, s': Sys, c: Context, p: PageNo, d: Context, flags: nat)
    requires Coherent(s) && c in s.ctxs && d in s.ctxs && UnmapStep(s, s', c, p) && KERNEL <= DirOf(p) != SELF
    ensures RightsKept(s, s', d, flags)
  {
    ContextFacts(s, c);
    ContextFacts(s, d);
    hide Coherent, ContextOk;
    forall q: PageNo | DirOf(q) < KERNEL && Allows(s, d, q, flags) ensures Allows(s', d, q, flags) {
      assert SameEntry(s.ram[c.Pd()][DirOf(q)], s'.ram[c.Pd()][DirOf(q)]);
      assert d.Pd() != c.Pd() ==> s'.ram[d.Pd()] == s.ram[d.Pd()];
      assert Pte(s', d, q) == Pte(s, d, q);
    }
  }

  /** Writing frames that are no tables changes no flags. */
  lemma WriteRights(s: Sys, s': Sys, d: Context, flags: nat)
    requires Coherent(s) && d in s.ctxs && forall f: Frame :: f in s.roles ==> s'.ram[f] == s.ram[f]
    ensures RightsKept(s, s', d, flags)
  {
    ContextFacts(s, d);
    hide Coherent, ContextOk;
    forall q: PageNo | DirOf(q) < KERNEL && Allows(s, d, q, flags) ensures Allows(s', d, q, flags) {
      assert Pte(s', d, q) == Pte(s, d, q);
    }
  }

  lemma OwnRights(s: Sys, s': Sys, c: Context, p: PageNo, e: Word, t: Frame, q: PageNo, flags: nat)
    requires Coherent(s) && c in s.ctxs && MapStep(s, s', c, p, e, t) && DirOf(p) != SELF
    requires q != p && DirOf(q) != SELF && Allows(s, c, q, flags)
    ensures Allows(s', c, q, flags)
  {
    ContextFacts(s, c);
    hide Coherent, ContextOk;
    assert DirOf(q) != DirOf(p) ==> SameEntry(s.ram[c.Pd()][DirOf(q)], s'.ram[c.Pd()][DirOf(q)]);
    assert Pte(s', c, q) == Pte(s, c, q);
  }

  /** vmm_map_page takes no flags from the other pages of its context. */
  lemma MapPageRights(s: Sys, m: Sys, s': Sys, c: Context, p: PageNo, e: Word, t: Frame, q: PageNo, flags: nat)
    requires Coherent(s) && c in s.ctxs && MapStep(s, m, c, p, e, t) && Present(e) && Mappable(s, c, p)
    requires if c == s.cur then s' == m else UnmapStep(m, s', s.cur, KernelSlot(s)) && DirOf(q) < KERNEL
    requires q != p && DirOf(q) != SELF && Allows(s, c, q, flags)
    ensures Allows(s', c, q, flags)
  {
    hide Coherent, MapStep, UnmapStep, Allows, KernelSlot;
    OwnRights(s, m, c, p, e, t, q, flags);
    if c != s.cur {
      MapCoherent(s, m, c, p, e, t);
      MapFacts(s, m, c, p, e, t);
      UnmapRights(m, s', s.cur, KernelSlot(s), c, flags);
    }
  }

  /** What vmm_map_page leaves at the page itself. */
  lemma MappedAllows(s: Sys, m: Sys, s': Sys, c: Context, p: PageNo, paddr: Word, flags: nat, t: Frame)
    requires flags < 256 && paddr % PAGE_SIZE == 0
    requires Coherent(s) && c in s.ctxs && MapStep(s, m, c, p, PageEntry(paddr, flags), t) && Mappable(s, c, p)
    requires if c == s.cur then s' == m else UnmapStep(m, s', s.cur, KernelSlot(s))
    ensures Allows(s', c, p, flags)
    ensures forall k: nat :: k < 12 ==> (Bit(Pte(s', c, p), k) <==> k == 0 || Bit(flags, k))
  {
    MapAllows(s, m, c, p, paddr, flags, t);
    hide Coherent, MapStep, UnmapStep, Allows, KernelSlot, Bit, PageEntry, Pte;
    if c != s.cur {
      MapCoherent(s, m, c, p, PageEntry(paddr, flags), t);
      MapFacts(s, m, c, p, PageEntry(paddr, flags), t);
      UnmapRights(m, s', s.cur, KernelSlot(s), c, flags);
      UnmapEntry(m, s', s.cur, KernelSlot(s), c, p);
    }
  }

  lemma UnmapEntry(s: Sys, s': Sys, c: Context, p: PageNo, d: Context, q: PageNo)
    requires Coherent(s) && c in s.ctxs && d in s.ctxs && UnmapStep(s, s', c, p) && KERNEL <= DirOf(p) != SELF
    requires DirOf(q) < KERNEL && d != c && Present(Pde(s, d, DirOf(q)))
    ensures Pte(s', d, q) == Pte(s, d, q)
  {
    ContextFacts(s, c);
    ContextFacts(s, d);
    hide Coherent, ContextOk;
    assert s'.ram[d.Pd()] == s.ram[d.Pd()];
  }

  /** Pages p..p+n of c allow the flags. */
  ghost predicate AreaAllows(s: Sys, c: Context, p: nat, n: nat, flags: nat) {
    forall q: PageNo :: p <= q < p + n ==> Allows(s, c, q, flags)
  }

  /** One page more. */
  lemma AreaAllowsNext(s: Sys, m: Sys, s': Sys, c: Context, p: nat, n: nat, e: Word, t: Frame, flags: nat)
    requires p + n < 0x10_0000 && AreaAllows(s, c, p, n, flags) && Allows(s', c, p + n, flags)
    requires Coherent(s) && c in s.ctxs && MapStep(s, m, c, p + n, e, t) && Present(e) && Mappable(s, c, p + n)
    requires if c == s.cur then s' == m else UnmapStep(m, s', s.cur, KernelSlot(s))
    requires forall q: PageNo :: p <= q < p + n ==> DirOf(q) != SELF && (c != s.cur ==> DirOf(q) < KERNEL)
    ensures AreaAllows(s', c, p, n + 1, flags)
  {
    hide Coherent, MapStep, UnmapStep, Allows, KernelSlot;
    forall q: PageNo | p <= q < p + n ensures Allows(s', c, q, flags) {
      MapPageRights(s, m, s', c, p + n, e, t, q, flags);
    }
  }

  lemma AreaAllowsSame(s: Sys, s': Sys, c: Context, p: nat, n: nat, flags: nat)
    requires AreaAllows(s, c, p, n, flags) && s'.ram == s.ram
    ensures AreaAllows(s', c, p, n, flags)
  {
    forall q: PageNo | p <= q < p + n ensures Allows(s', c, q, flags) {
      assert Allows(s, c, q, flags);
    }
  }

  // ----- entries that stay as they are -----

  /** The user tables of c hold the entries they held. */
  ghost predicate EntriesKept(s: Sys, s': Sys, c: Context) {
    forall q: PageNo :: DirOf(q) < KERNEL && Present(Pde(s, c, DirOf(q))) ==>
      Present(Pde(s', c, DirOf(q))) && Pte(s', c, q) == Pte(s, c, q)
  }

  lemma EntriesTrans(s: Sys, m: Sys, s': Sys, c: Context)
    requires EntriesKept(s, m, c) && EntriesKept(m, s', c)
    ensures EntriesKept(s, s', c)
  {
    hide Pte, Pde;
  }

  /** Adding flags to directory entries. */
  lemma FlaggedEntries(s: Sys, s': Sys, c: Context, d: Context)
    requires Coherent(s) && c in s.ctxs && d in s.ctxs && Flagged(s, s', c)
    ensures EntriesKept(s, s', d)
  {
    ContextFacts(s, c);
    ContextFacts(s, d);
    forall q: PageNo | DirOf(q) < KERNEL && Present(Pde(s, d, DirOf(q)))
      ensures Present(Pde(s', d, DirOf(q))) && Pte(s', d, q) == Pte(s, d, q)
    {
      assert SameEntry(s.ram[c.Pd()][DirOf(q)], s'.ram[c.Pd()][DirOf(q)]);
    }
  }

  /** Mapping a kernel page. */
  lemma KernelMapEntries(s: Sys, s': Sys, c: Context, p: PageNo, e: Word, t: Frame, d: Context)
    requires Coherent(s) && c in s.ctxs && d in s.ctxs && MapStep(s, s', c, p, e, t) && KERNEL <= DirOf(p) != SELF
    ensures EntriesKept(s, s', d)
  {
    ContextFacts(s, c);
    ContextFacts(s, d);
    hide Coherent, ContextOk;
    forall q: PageNo | DirOf(q) < KERNEL && Present(Pde(s, d, DirOf(q)))
      ensures Present(Pde(s', d, DirOf(q))) && Pte(s', d, q) == Pte(s, d, q)
    {
      assert d.Pd() == c.Pd() ==> SameEntry(s.ram[c.Pd()][DirOf(q)], s'.ram[c.Pd()][DirOf(q)]);
      assert d.Pd() != c.Pd() ==> s'.ram[d.Pd()] == s.ram[d.Pd()];
    }
  }

  /** A fresh table in slot i of another context. */
  lemma TableEntries(s: Sys, s': Sys, c: Context, i: Index, t: Frame, d: Context)
    requires Coherent(s) && c in s.ctxs && d in s.ctxs && d.Pd() != c.Pd() && TableStep(s, s', c, i, t)
    ensures EntriesKept(s, s', d)
  {
    ContextFacts(s, c);
    ContextFacts(s, d);
    hide Coherent, ContextOk;
    assert s'.ram[d.Pd()] == s.ram[d.Pd()];
  }

  /** Writing frames that are no tables, or tables of other contexts. */
  lemma WriteEntries(s: Sys, s': Sys, f: Frame, x: Table, d: Context)
    requires Coherent(s) && d in s.ctxs && s'.ram == s.ram[f := x]
    requires f in s.roles ==> forall j: Index :: j < KERNEL ==> s.roles[f] != UserTable(d.Pd(), j)
    requires f != d.Pd()
    ensures EntriesKept(s, s', d)
  {
    ContextFacts(s, d);
    hide Coherent, ContextOk;
    assert s'.ram[d.Pd()] == s.ram[d.Pd()];
  }
}
