/** One turn of the loop of vmm_fork: slot i of the new context n gets a fresh copy of the current
    context's table i. The states are s, then m (table added), v (mapped at the kernel slot), x (flags
    set in the current directory), y (table copied). */
module Fork {
  import opened Bits
  import opened Options
  import opened Mmu
  import opened Find
  import opened Mem
  import opened Spaces
  import opened Contexts
  import opened Rights

  lemma TableKeeps(s: Sys, m: Sys, n: Context, i: Index, t: Frame)
    requires Coherent(s) && n in s.ctxs && n != s.cur && TableStep(s, m, n, i, t)
    ensures Coherent(m) && Keeps(s, m, s.ctxs - {n}) && KernelPages(m) == KernelPages(s)
    ensures KernelSlot(m) == KernelSlot(s)
    ensures |m.free| == |s.free| - 1 && t !in s.roles && m.cur == s.cur && m.ctxs == s.ctxs
  {
    ContextFacts(s, s.cur);
    TableCoherent(s, m, n, i, t);
    TableKernelSlot(s, m, n, i, t);
    forall d, q: PageNo | d in s.ctxs && d != n && DirOf(q) != SELF ensures Tr(m, d, q) == Tr(s, d, q) {
      TableOther(s, m, n, i, t, d, q);
    }
  }

  /** No slot of the current directory holds frame t. */
  ghost predicate Unused(s: Sys, t: Frame) {
    t != s.cur.Pd() && forall j: Index :: Present(s.ram[s.cur.Pd()][j]) ==> FrameOf(s.ram[s.cur.Pd()][j]) != t
  }

  lemma UnusedFresh(s: Sys, m: Sys, n: Context, i: Index, t: Frame)
    requires Coherent(s) && n in s.ctxs && n != s.cur && TableStep(s, m, n, i, t)
    ensures Unused(m, t)
  {
    ContextFacts(s, n);
    ContextFacts(s, s.cur);
    DistinctDirectories(s, n);
    assert m.ram[s.cur.Pd()] == s.ram[s.cur.Pd()];
  }

  lemma UnusedMap(m: Sys, v: Sys, w: PageNo, e: Word, tw: Frame, t: Frame)
    requires MapStep(m, v, m.cur, w, e, tw) && Unused(m, t) && t !in m.free
    ensures Unused(v, t)
  {
    forall j: Index | Present(v.ram[m.cur.Pd()][j]) ensures FrameOf(v.ram[m.cur.Pd()][j]) != t {
      assert j != DirOf(w) ==> SameEntry(m.ram[m.cur.Pd()][j], v.ram[m.cur.Pd()][j]);
    }
  }

  lemma UnusedFlagged(v: Sys, x: Sys, t: Frame)
    requires Flagged(v, x, v.cur) && Unused(v, t)
    ensures Unused(x, t)
  {
    forall j: Index ensures SameEntry(v.ram[v.cur.Pd()][j], x.ram[v.cur.Pd()][j]) {}
  }

  /** The contents of a table that only n uses, in slot i. */
  lemma PrivateTable(x: Sys, n: Context, i: Index, t: Frame, c: Table)
    requires Coherent(x) && n in x.ctxs && n != x.cur && Unused(x, t)
    requires t in x.roles && x.roles[t] == Owner(n.Pd(), i) && Present(Pde(x, n, i)) && FrameOf(Pde(x, n, i)) == t
    ensures var y := x.(ram := x.ram[t := c]);
      && Coherent(y) && Keeps(x, y, x.ctxs - {n}) && KernelPages(y) == KernelPages(x)
      && forall q: PageNo :: DirOf(q) < KERNEL ==>
        Tr(y, n, q) == if DirOf(q) != i then Tr(x, n, q) else if Present(c[SlotOf(q)]) then Some(FrameOf(c[SlotOf(q)]))
          else None
  {
    var y := x.(ram := x.ram[t := c]);
    ContextFacts(x, n);
    ContextFacts(x, x.cur);
    forall q: PageNo ensures Tr(y, x.cur, q) == Tr(x, x.cur, q) {}
    forall d | d in x.ctxs ensures ContextOk(y, d) && y.ram[d.Pd()] == x.ram[d.Pd()] {
      assert ContextOk(x, d);
    }
    forall d, q: PageNo | d in x.ctxs && d != n && DirOf(q) < KERNEL ensures Tr(y, d, q) == Tr(x, d, q) {
      assert ContextOk(x, d) && d.Pd() != n.Pd();
    }
  }

  /** Slot i of the child has the entries of the parent's slot and grants what they grant; other tables keep
      their entries. */
  ghost predicate SlotEntries(s: Sys, y: Sys, n: Context, i: Index) {
    && EntriesKept(s, y, s.cur)
    && (i < KERNEL ==> FlagsKept(VMM_USER_FLAGS, Pde(y, n, i)))
    && (forall q: PageNo :: DirOf(q) == i < KERNEL ==> Pte(y, n, q) == Pte(s, s.cur, q))
    && (forall q: PageNo :: DirOf(q) < KERNEL && DirOf(q) != i && Present(Pde(s, n, DirOf(q))) ==>
         Pte(y, n, q) == Pte(s, n, q))
  }

  /** The copy of the parent's table into the child's. */
  lemma CopiedEntries(x: Sys, y: Sys, n: Context, i: Index, t: Frame)
    requires Coherent(x) && n in x.ctxs && n != x.cur && t in x.roles && x.roles[t] == Owner(n.Pd(), i)
    requires Present(Pde(x, n, i)) && FrameOf(Pde(x, n, i)) == t && Present(Pde(x, x.cur, i))
    requires y == x.(ram := x.ram[t := x.ram[FrameOf(Pde(x, x.cur, i))]])
    ensures EntriesKept(x, y, x.cur) && y.ram[n.Pd()] == x.ram[n.Pd()]
    ensures forall q: PageNo :: DirOf(q) == i < KERNEL ==> Pte(y, n, q) == Pte(x, x.cur, q)
    ensures forall q: PageNo :: DirOf(q) < KERNEL && DirOf(q) != i && Present(Pde(x, n, DirOf(q))) ==>
      Pte(y, n, q) == Pte(x, n, q)
  {
    ContextFacts(x, n);
    ContextFacts(x, x.cur);
    DistinctDirectories(x, n);
    hide Coherent, ContextOk;
    WriteEntries(x, y, t, x.ram[FrameOf(Pde(x, x.cur, i))], x.cur);
    hide EntriesKept;
    assert t != n.Pd();
  }

  lemma ForkEntries(s: Sys, m: Sys, v: Sys, x: Sys, y: Sys, n: Context, i: Index, t: Frame, w: PageNo, e: Word,
                    tw: Frame)
    requires Turned(s, m, v, x, n, i, t, w, e, tw) && Present(Pde(s, s.cur, i))
    requires y == x.(ram := x.ram[t := x.ram[FrameOf(Pde(x, x.cur, i))]])
    ensures SlotEntries(s, y, n, i)
  {
    hide Turned, TableStep, MapStep, Flagged, Coherent, Keeps, KernelPages, Unused, EntriesKept, Pte, FlagsKept;
    TurnedTable(s, m, v, x, n, i, t, w, e, tw);
    ForkedDirectory(s, m, v, x, n, i, t, w, e, tw);
    TurnedEntries(s, m, v, x, n, i, t, w, e, tw);
    CopiedEntries(x, y, n, i, t);
    EntriesTrans(s, x, y, s.cur);
    forall q: PageNo | DirOf(q) == i < KERNEL ensures Pte(y, n, q) == Pte(s, s.cur, q) {
      EntryKept(s, x, s.cur, q);
    }
    forall q: PageNo | DirOf(q) < KERNEL && DirOf(q) != i && Present(Pde(s, n, DirOf(q)))
      ensures Pte(y, n, q) == Pte(s, n, q)
    {
      assert SameEntry(s.ram[n.Pd()][DirOf(q)], x.ram[n.Pd()][DirOf(q)]);
    }
  }

  lemma SlotKeeps(s: Sys, y: Sys, n: Context, i: Index)
    requires SlotEntries(s, y, n, i)
    ensures EntriesKept(s, y, s.cur)
  {
  }

  lemma TurnedTable(s: Sys, m: Sys, v: Sys, x: Sys, n: Context, i: Index, t: Frame, w: PageNo, e: Word, tw: Frame)
    requires Turned(s, m, v, x, n, i, t, w, e, tw)
    ensures Coherent(m) && Coherent(x) && n in m.ctxs && n in x.ctxs && n != s.cur && m.cur == v.cur == x.cur == s.cur
    ensures DirOf(w) != SELF && TableStep(s, m, n, i, t) && MapStep(m, v, s.cur, w, e, tw) && Flagged(v, x, s.cur)
    ensures t in x.roles && x.roles[t] == Owner(n.Pd(), i) && Present(Pde(x, s.cur, i))
    ensures FlagsKept(VMM_USER_FLAGS, Pde(m, n, i)) && Present(Pde(x, x.cur, i))
  {
  }

  /** Up to the copy the tables that were there keep their entries. */
  lemma TurnedEntries(s: Sys, m: Sys, v: Sys, x: Sys, n: Context, i: Index, t: Frame, w: PageNo, e: Word, tw: Frame)
    requires Turned(s, m, v, x, n, i, t, w, e, tw)
    ensures EntriesKept(s, x, s.cur)
    ensures forall q: PageNo :: DirOf(q) < KERNEL && DirOf(q) != i && Present(Pde(s, n, DirOf(q))) ==>
      Pte(x, n, q) == Pte(s, n, q)
  {
    TurnedParts(s, m, v, x, n, i, t, w, e, tw);
    hide Turned, TableStep, MapStep, Flagged, Coherent, Keeps, KernelPages, Unused, EntriesKept;
    DistinctDirectories(s, n);
    ContextFacts(s, s.cur);
    TableEntries(s, m, n, i, t, s.cur);
    forall d | d == s.cur || d == n ensures EntriesKept(m, x, d) {
      KernelMapEntries(m, v, s.cur, w, e, tw, d);
      FlaggedEntries(v, x, s.cur, d);
      EntriesTrans(m, v, x, d);
    }
    EntriesTrans(s, m, x, s.cur);
    forall q: PageNo | DirOf(q) < KERNEL && DirOf(q) != i && Present(Pde(s, n, DirOf(q)))
      ensures Pte(x, n, q) == Pte(s, n, q)
    {
      OtherSlot(s, m, n, i, t, q);
      EntryKept(m, x, n, q);
    }
  }

  lemma TurnedParts(s: Sys, m: Sys, v: Sys, x: Sys, n: Context, i: Index, t: Frame, w: PageNo, e: Word, tw: Frame)
    requires Turned(s, m, v, x, n, i, t, w, e, tw)
    ensures Coherent(s) && Coherent(m) && Coherent(v) && n in s.ctxs && n != s.cur && KERNEL <= DirOf(w) != SELF
    ensures TableStep(s, m, n, i, t) && MapStep(m, v, s.cur, w, e, tw) && Flagged(v, x, s.cur)
    ensures m.cur == v.cur == x.cur == s.cur && m.ctxs == v.ctxs == x.ctxs == s.ctxs && s.cur in s.ctxs
  {
  }

  lemma OtherSlot(s: Sys, m: Sys, n: Context, i: Index, t: Frame, q: PageNo)
    requires Coherent(s) && n in s.ctxs && TableStep(s, m, n, i, t) && DirOf(q) < KERNEL && DirOf(q) != i
    requires Present(Pde(s, n, DirOf(q)))
    ensures Present(Pde(m, n, DirOf(q))) && Pte(m, n, q) == Pte(s, n, q)
  {
    ContextFacts(s, n);
    assert SameEntry(s.ram[n.Pd()][DirOf(q)], m.ram[n.Pd()][DirOf(q)]);
  }

  lemma EntryKept(s: Sys, s': Sys, c: Context, q: PageNo)
    requires EntriesKept(s, s', c) && DirOf(q) < KERNEL && Present(Pde(s, c, DirOf(q)))
    ensures Pte(s', c, q) == Pte(s, c, q)
  {
  }

  /** What one turn does to the states of all contexts. */
  ghost predicate SlotForked(s: Sys, y: Sys, n: Context, i: Index) {
    && Keeps(s, y, s.ctxs - {n}) && y.ctxs == s.ctxs
    && |KernelPages(y)| == |KernelPages(s)| - 1 && |y.free| >= |s.free| - 2
    && (forall q: PageNo :: DirOf(q) < KERNEL ==> Tr(y, n, q) == if DirOf(q) == i then Tr(s, s.cur, q) else Tr(s, n, q))
    && (forall j: Index :: j != i ==> SameEntry(Pde(s, n, j), Pde(y, n, j)))
    && Present(Pde(y, n, i)) && FrameOf(Pde(y, n, i)) in s.free && UserSlots(s, y) && SlotEntries(s, y, n, i)
  }

  /** Adding the table and mapping it. */
  lemma ForkMapped(s: Sys, m: Sys, v: Sys, n: Context, i: Index, t: Frame, tw: Frame)
    requires Coherent(s) && n in s.ctxs && n != s.cur && KernelSlot(s) < SELF * 1024
    requires TableStep(s, m, n, i, t)
    requires MapStep(m, v, s.cur, KernelSlot(s), PageEntry(t * PAGE_SIZE, VMM_KERNEL_FLAGS), tw)
    ensures Coherent(m) && Coherent(v) && Unused(v, t) && v.cur == s.cur && v.ctxs == s.ctxs
    ensures Tr(v, s.cur, KernelSlot(s)) == Some(t)
    ensures Keeps(s, m, s.ctxs - {n}) && Keeps(m, v, s.ctxs)
    ensures KernelPages(v) == KernelPages(s) - {KernelSlot(s)} && |v.free| >= |s.free| - 2 && t in s.free
    ensures t in v.roles && v.roles[t] == Owner(n.Pd(), i)
  {
    hide Coherent, Keeps, KernelPages, KernelSlot, TableStep, Unused;
    TableKeeps(s, m, n, i, t);
    UnusedFresh(s, m, n, i, t);
    TableFacts(s, m, n, i, t);
    AutomapKeeps(m, v, PageEntry(t * PAGE_SIZE, VMM_KERNEL_FLAGS), tw);
    MapFacts(m, v, s.cur, KernelSlot(s), PageEntry(t * PAGE_SIZE, VMM_KERNEL_FLAGS), tw);
    UnusedMap(m, v, KernelSlot(s), PageEntry(t * PAGE_SIZE, VMM_KERNEL_FLAGS), tw, t);
    MapRole(m, v, s.cur, KernelSlot(s), PageEntry(t * PAGE_SIZE, VMM_KERNEL_FLAGS), tw, t);
  }

  /** Setting flags in the current directory afterwards. */
  lemma ForkFlagged(v: Sys, x: Sys, w: PageNo, t: Frame)
    requires Coherent(v) && Unused(v, t) && Flagged(v, x, v.cur) && Tr(v, v.cur, w) == Some(t)
    ensures Coherent(x) && Unused(x, t) && Keeps(v, x, v.ctxs) && KernelPages(x) == KernelPages(v)
    ensures Tr(x, v.cur, w) == Some(t) && x == v.(ram := x.ram)
  {
    ContextFacts(v, v.cur);
    UnusedFlagged(v, x, t);
    FlaggedKeeps(v, x, v.cur);
    FlaggedWalk(v, x, v.cur, v.cur, w);
  }

  lemma TableFacts(s: Sys, m: Sys, n: Context, i: Index, t: Frame)
    requires TableStep(s, m, n, i, t)
    ensures t in s.free && t !in m.free && t in m.roles && m.roles[t] == Owner(n.Pd(), i)
  {
  }

  lemma MapRole(m: Sys, v: Sys, c: Context, w: PageNo, e: Word, tw: Frame, t: Frame)
    requires MapStep(m, v, c, w, e, tw) && t in m.roles && t !in m.free
    ensures t in v.roles && v.roles[t] == m.roles[t] && t !in v.free
  {
  }

  /** A slot of the current directory that had a table still has one. */
  lemma ForkSource(s: Sys, m: Sys, v: Sys, n: Context, i: Index, t: Frame, e: Word, tw: Frame)
    requires Coherent(s) && n in s.ctxs && n != s.cur && Present(Pde(s, s.cur, i))
    requires KernelSlot(s) < SELF * 1024 && TableStep(s, m, n, i, t) && MapStep(m, v, s.cur, KernelSlot(s), e, tw)
    ensures Present(Pde(v, s.cur, i))
  {
    DistinctDirectories(s, n);
    ContextFacts(s, s.cur);
    hide Coherent, KernelSlot;
    assert i != DirOf(KernelSlot(s)) ==> SameEntry(m.ram[s.cur.Pd()][i], v.ram[s.cur.Pd()][i]);
  }

  /** Both pages of the memcpy are mapped, to different frames, and the copy disturbs no translation. */
  lemma ForkCopyable(x: Sys, w: PageNo, i: Index, t: Frame)
    requires Coherent(x) && Unused(x, t) && Tr(x, x.cur, w) == Some(t) && Present(Pde(x, x.cur, i))
    ensures Walk(x.ram, x.cur.Pd(), PageAt(SELF, i)) == Some(FrameOf(Pde(x, x.cur, i)))
    ensures FrameOf(Pde(x, x.cur, i)) != t
    ensures Copyable(x.ram, x.cur.Pd(), w * PAGE_SIZE, PageAt(SELF, i) * PAGE_SIZE, PAGE_SIZE)
    ensures Copied(x.ram, x.cur.Pd(), w * PAGE_SIZE, PageAt(SELF, i) * PAGE_SIZE, PAGE_SIZE)
      == x.ram[t := x.ram[FrameOf(Pde(x, x.cur, i))]]
  {
    hide Coherent, ContextOk, DirectoryOk, Copied, Copyable;
    ContextFacts(x, x.cur);
    WindowWalk(x.ram, x.cur.Pd(), i);
    hide Walk;
    PageCopyable(x.ram, x.cur.Pd(), w * PAGE_SIZE, PageAt(SELF, i) * PAGE_SIZE, t, FrameOf(Pde(x, x.cur, i)),
      PAGE_SIZE);
    CopiedPage(x.ram, x.cur.Pd(), w * PAGE_SIZE, PageAt(SELF, i) * PAGE_SIZE, t, FrameOf(Pde(x, x.cur, i)));
  }

  /** The private table of n after the copy: n sees there what the current context sees. */
  lemma ForkCopied(s: Sys, x: Sys, n: Context, i: Index, t: Frame)
    requires Coherent(x) && n in x.ctxs && n != x.cur && Unused(x, t)
    requires t in x.roles && x.roles[t] == Owner(n.Pd(), i) && Present(Pde(x, n, i)) && FrameOf(Pde(x, n, i)) == t
    requires Present(Pde(x, x.cur, i))
    ensures var y := x.(ram := x.ram[t := x.ram[FrameOf(Pde(x, x.cur, i))]]);
      && Coherent(y) && Keeps(x, y, x.ctxs - {n}) && KernelPages(y) == KernelPages(x)
      && (forall q: PageNo :: DirOf(q) < KERNEL ==>
           Tr(y, n, q) == if DirOf(q) == i then Tr(x, x.cur, q) else Tr(x, n, q))
      && forall j: Index :: Pde(y, n, j) == Pde(x, n, j)
  {
    PrivateTable(x, n, i, t, x.ram[FrameOf(Pde(x, x.cur, i))]);
    ContextFacts(x, n);
    hide Coherent, Keeps, KernelPages;
  }

  /** n's directory has the new table in slot i and is otherwise as before. */
  lemma ForkedDirectory(s: Sys, m: Sys, v: Sys, x: Sys, n: Context, i: Index, t: Frame, w: PageNo, e: Word, tw: Frame)
    requires Coherent(m) && n in m.ctxs && n != s.cur && m.cur == s.cur && DirOf(w) != SELF
    requires TableStep(s, m, n, i, t) && MapStep(m, v, s.cur, w, e, tw) && Flagged(v, x, s.cur) && v.cur == s.cur
    ensures x.ram[n.Pd()] == m.ram[n.Pd()]
    ensures Present(Pde(x, n, i)) && FrameOf(Pde(x, n, i)) == t
    ensures forall j: Index :: j != i ==> SameEntry(s.ram[n.Pd()][j], x.ram[n.Pd()][j])
  {
    ContextFacts(m, s.cur);
    MapDirectories(m, v, s.cur, w, e, tw, n);
    DistinctDirectories(m, n);
  }

  lemma ForkedUser(s: Sys, m: Sys, v: Sys, x: Sys, n: Context, i: Index, t: Frame, q: PageNo)
    requires Coherent(s) && n in s.ctxs && n != s.cur && TableStep(s, m, n, i, t) && DirOf(q) < KERNEL
    requires Keeps(s, m, s.ctxs - {n}) && Keeps(m, v, s.ctxs) && Keeps(v, x, s.ctxs)
    ensures Tr(x, s.cur, q) == Tr(s, s.cur, q)
    ensures DirOf(q) != i ==> Tr(x, n, q) == Tr(s, n, q)
  {
    ContextFacts(s, s.cur);
    if DirOf(q) != i {
      TableOther(s, m, n, i, t, n, q);
    }
  }

  /** Everything known about the states of a turn before the copy. */
  ghost predicate Turned(s: Sys, m: Sys, v: Sys, x: Sys, n: Context, i: Index, t: Frame, w: PageNo, e: Word,
                         tw: Frame)
  {
    && Coherent(s) && n in s.ctxs && n != s.cur && DirOf(w) != SELF && w in KernelPages(s)
    && TableStep(s, m, n, i, t) && MapStep(m, v, s.cur, w, e, tw) && Flagged(v, x, s.cur)
    && Coherent(m) && Coherent(x) && m.cur == v.cur == x.cur == s.cur && m.ctxs == v.ctxs == x.ctxs == s.ctxs
    && Present(Pde(x, s.cur, i)) && Unused(x, t)
    && Keeps(s, m, s.ctxs - {n}) && Keeps(m, v, s.ctxs) && Keeps(v, x, s.ctxs)
    && KernelPages(x) == KernelPages(s) - {w} && |x.free| >= |s.free| - 2 && t in s.free
    && t in x.roles && x.roles[t] == Owner(n.Pd(), i)
    && Coherent(v) && FlagsKept(VMM_USER_FLAGS, Pde(m, n, i))
  }

  lemma TurnedDirectory(s: Sys, m: Sys, v: Sys, x: Sys, n: Context, i: Index, t: Frame, w: PageNo, e: Word, tw: Frame)
    requires Turned(s, m, v, x, n, i, t, w, e, tw)
    ensures Present(Pde(x, n, i)) && FrameOf(Pde(x, n, i)) == t
    ensures forall j: Index :: j != i ==> SameEntry(Pde(s, n, j), Pde(x, n, j))
    ensures Coherent(x) && n in x.ctxs && n != x.cur && x.ctxs == s.ctxs && Unused(x, t) && Present(Pde(x, x.cur, i))
    ensures t in x.roles && x.roles[t] == Owner(n.Pd(), i) && t in s.free
    ensures KernelPages(x) == KernelPages(s) - {w} && w in KernelPages(s) && |x.free| >= |s.free| - 2 && x.cur == s.cur
  {
    hide Coherent, KernelPages, Keeps, Unused;
    ForkedDirectory(s, m, v, x, n, i, t, w, e, tw);
  }

  lemma TurnedUser(s: Sys, m: Sys, v: Sys, x: Sys, n: Context, i: Index, t: Frame, w: PageNo, e: Word, tw: Frame,
                   q: PageNo)
    requires Turned(s, m, v, x, n, i, t, w, e, tw) && DirOf(q) < KERNEL
    ensures Tr(x, s.cur, q) == Tr(s, s.cur, q)
    ensures DirOf(q) != i ==> Tr(x, n, q) == Tr(s, n, q)
  {
    hide Coherent, KernelPages, Unused, Keeps, TableStep, MapStep, Flagged;
    ForkedUser(s, m, v, x, n, i, t, q);
  }

  lemma TurnedKeeps(s: Sys, m: Sys, v: Sys, x: Sys, n: Context, i: Index, t: Frame, w: PageNo, e: Word, tw: Frame)
    requires Turned(s, m, v, x, n, i, t, w, e, tw)
    ensures Keeps(s, x, s.ctxs - {n})
  {
    hide Coherent, KernelPages, Unused, Keeps, TableStep, MapStep, Flagged;
    KeepsLess(m, v, s.ctxs, s.ctxs - {n});
    KeepsLess(v, x, s.ctxs, s.ctxs - {n});
    KeepsTrans(s, m, v, s.ctxs - {n});
    KeepsTrans(s, v, x, s.ctxs - {n});
  }

  lemma TurnReady(s: Sys, m: Sys, v: Sys, x: Sys, n: Context, i: Index, t: Frame, tw: Frame)
    requires Coherent(s) && n in s.ctxs && n != s.cur && KernelSlot(s) < SELF * 1024 && KernelSlot(s) in KernelPages(s)
    requires Present(Pde(s, s.cur, i))
    requires TableStep(s, m, n, i, t)
    requires MapStep(m, v, s.cur, KernelSlot(s), PageEntry(t * PAGE_SIZE, VMM_KERNEL_FLAGS), tw)
    requires Flagged(v, x, s.cur) && FlagsKept(VMM_USER_FLAGS, Pde(m, n, i))
    ensures Turned(s, m, v, x, n, i, t, KernelSlot(s), PageEntry(t * PAGE_SIZE, VMM_KERNEL_FLAGS), tw)
    ensures Tr(x, x.cur, KernelSlot(s)) == Some(t)
  {
    hide Coherent, Keeps, KernelPages, KernelSlot, TableStep, MapStep, Flagged, Unused;
    ForkMapped(s, m, v, n, i, t, tw);
    ForkSource(s, m, v, n, i, t, PageEntry(t * PAGE_SIZE, VMM_KERNEL_FLAGS), tw);
    ForkFlagged(v, x, KernelSlot(s), t);
    FlaggedSlot(v, x, s.cur, i);
    TableCurrent(s, m, n, i, t);
  }

  lemma TableCurrent(s: Sys, m: Sys, n: Context, i: Index, t: Frame)
    requires TableStep(s, m, n, i, t)
    ensures m.cur == s.cur && m.ctxs == s.ctxs
  {
  }

  lemma TurnedApart(s: Sys, m: Sys, v: Sys, x: Sys, n: Context, i: Index, t: Frame, w: PageNo, e: Word, tw: Frame)
    requires Turned(s, m, v, x, n, i, t, w, e, tw)
    ensures t != x.cur.Pd() && KERNEL <= DirOf(w)
  {
  }

  /** The current directory gets a table in the kernel half at most. */
  lemma TurnedSlots(s: Sys, m: Sys, v: Sys, x: Sys, y: Sys, n: Context, i: Index, t: Frame, w: PageNo, e: Word,
                    tw: Frame)
    requires Turned(s, m, v, x, n, i, t, w, e, tw)
    requires y == x.(ram := x.ram[t := x.ram[FrameOf(Pde(x, x.cur, i))]]) && EntriesKept(s, y, s.cur)
    ensures UserSlots(s, y)
  {
    hide EntriesKept, Unused, KernelPages, Keeps, Coherent, Walk;
    TurnedParts(s, m, v, x, n, i, t, w, e, tw);
    TurnedTable(s, m, v, x, n, i, t, w, e, tw);
    DistinctDirectories(s, n);
    ContextFacts(s, s.cur);
    TurnedApart(s, m, v, x, n, i, t, w, e, tw);
    hide Turned;
    assert KERNEL <= DirOf(w) && t != s.cur.Pd();
    assert m.ram[s.cur.Pd()] == s.ram[s.cur.Pd()] && y.ram[s.cur.Pd()] == x.ram[s.cur.Pd()];
    forall j: Index | j < KERNEL ensures SameEntry(Pde(s, s.cur, j), Pde(y, s.cur, j)) {
      assert SameEntry(m.ram[s.cur.Pd()][j], v.ram[s.cur.Pd()][j]);
      assert SameEntry(v.ram[s.cur.Pd()][j], x.ram[s.cur.Pd()][j]);
    }
  }

  /** The turn as a whole: from s to y, the state x with the new table copied. */
  lemma ForkTurn(s: Sys, m: Sys, v: Sys, x: Sys, y: Sys, n: Context, i: Index, t: Frame, w: PageNo, e: Word, tw: Frame)
    requires Turned(s, m, v, x, n, i, t, w, e, tw) && Present(Pde(s, s.cur, i))
    requires y == x.(ram := x.ram[t := x.ram[FrameOf(Pde(x, x.cur, i))]])
    ensures Coherent(y) && SlotForked(s, y, n, i)
  {
    hide Turned, Coherent, KernelPages, Unused, Keeps, SlotEntries, EntriesKept, SameEntry, FlagsKept, Walk, Pte;
    ForkEntries(s, m, v, x, y, n, i, t, w, e, tw);
    SlotKeeps(s, y, n, i);
    TurnedDirectory(s, m, v, x, n, i, t, w, e, tw);
    ForkCopied(s, x, n, i, t);
    forall q: PageNo | DirOf(q) < KERNEL
      ensures Tr(y, n, q) == if DirOf(q) == i then Tr(s, s.cur, q) else Tr(s, n, q)
    {
      TurnedUser(s, m, v, x, n, i, t, w, e, tw, q);
    }
    TurnedKeeps(s, m, v, x, n, i, t, w, e, tw);
    KeepsTrans(s, x, y, s.ctxs - {n});
    TurnedSlots(s, m, v, x, y, n, i, t, w, e, tw);
  }

  // ----- the loop -----

  /** The slots from i on that the loop may have to copy: those of the user half that have a table, and all of
      the kernel half, where mapping the new tables can add some while the loop runs. */
  function Slots(t: Table, i: nat): nat
    requires i <= 1024
    decreases 1024 - i
  {
    if i == 1024 then 0 else (if KERNEL <= i || Present(t[i]) then 1 else 0) + Slots(t, i + 1)
  }

  lemma {:induction false} SlotsSame(t: Table, u: Table, i: nat)
    requires i <= 1024 && forall j: Index :: j < KERNEL ==> SameEntry(t[j], u[j])
    ensures Slots(t, i) == Slots(u, i)
    decreases 1024 - i
  {
    if i < 1024 {
      SlotsSame(t, u, i + 1);
      assert i < KERNEL ==> SameEntry(t[i], u[i]);
    }
  }

  lemma SlotsKept(s: Sys, y: Sys, i: nat)
    requires i <= 1024 && UserSlots(s, y)
    ensures Slots(y.ram[y.cur.Pd()], i) == Slots(s.ram[s.cur.Pd()], i)
  {
    forall j: Index | j < KERNEL ensures SameEntry(s.ram[s.cur.Pd()][j], y.ram[s.cur.Pd()][j]) {
      assert SameEntry(Pde(s, s.cur, j), Pde(y, s.cur, j));
    }
    SlotsSame(s.ram[s.cur.Pd()], y.ram[s.cur.Pd()], i);
  }

  /** Below slot i the child's tables hold the parent's entries, and its directory lets them count. */
  ghost predicate ChildEntries(s0: Sys, s: Sys, n: Context, i: nat) {
    forall q: PageNo :: DirOf(q) < KERNEL && DirOf(q) < i && Present(Pde(s0, s0.cur, DirOf(q))) ==>
      && Present(Pde(s, n, DirOf(q))) && FlagsKept(VMM_USER_FLAGS, Pde(s, n, DirOf(q)))
      && Pte(s, n, q) == Pte(s0, s0.cur, q)
  }

  /** Slots below i are done: s0 is the state before vmm_fork. */
  ghost predicate Progress(s0: Sys, s: Sys, n: Context, i: nat) {
    && s.cur == s0.cur && s0.cur in s0.ctxs && n !in s0.ctxs && s.ctxs == s0.ctxs + {n}
    && Keeps(s0, s, s0.ctxs)
    && (forall q: PageNo :: DirOf(q) < KERNEL && DirOf(q) < i ==> Tr(s, n, q) == Tr(s0, s0.cur, q))
    && EntriesKept(s0, s, s0.cur) && ChildEntries(s0, s, n, i)
    && (forall j: Index :: i <= j < KERNEL ==> s.ram[n.Pd()][j] == 0)
    && (forall j: Index :: j < KERNEL && Present(s.ram[n.Pd()][j]) ==> FrameOf(s.ram[n.Pd()][j]) in s0.free)
    && i <= 1024 && |KernelPages(s)| >= Slots(s.ram[s.cur.Pd()], i) && |s.free| >= 2 * Slots(s.ram[s.cur.Pd()], i)
  }

  lemma ProgressSkip(s0: Sys, s: Sys, n: Context, i: Index)
    requires Progress(s0, s, n, i) && Pde(s, s.cur, i) == 0
    ensures Progress(s0, s, n, i + 1)
  {
    SkipEntries(s0, s, n, i);
    hide EntriesKept, ChildEntries;
    forall q: PageNo | DirOf(q) < KERNEL && DirOf(q) == i ensures Tr(s, n, q) == Tr(s0, s0.cur, q) {
      assert Tr(s, s.cur, q) == None;
    }
  }

  lemma SkipEntries(s0: Sys, s: Sys, n: Context, i: Index)
    requires EntriesKept(s0, s, s0.cur) && ChildEntries(s0, s, n, i) && Pde(s, s0.cur, i) == 0
    ensures ChildEntries(s0, s, n, i + 1)
  {
    assert Present(Pde(s0, s0.cur, i)) && i < KERNEL ==> Pte(s, s0.cur, PageAt(i, 0)) == Pte(s0, s0.cur, PageAt(i, 0));
  }

  lemma NextEntries(s0: Sys, s: Sys, y: Sys, n: Context, i: Index)
    requires s.cur == s0.cur && EntriesKept(s0, s, s0.cur) && ChildEntries(s0, s, n, i) && SlotEntries(s, y, n, i)
    requires Present(Pde(y, n, i)) && forall j: Index :: j != i ==> SameEntry(Pde(s, n, j), Pde(y, n, j))
    ensures EntriesKept(s0, y, s0.cur) && ChildEntries(s0, y, n, i + 1)
  {
    EntriesTrans(s0, s, y, s0.cur);
    forall q: PageNo | DirOf(q) < KERNEL && DirOf(q) <= i && Present(Pde(s0, s0.cur, DirOf(q)))
      ensures Present(Pde(y, n, DirOf(q))) && FlagsKept(VMM_USER_FLAGS, Pde(y, n, DirOf(q)))
      ensures Pte(y, n, q) == Pte(s0, s0.cur, q)
    {
      assert DirOf(q) != i ==> SameEntry(Pde(s, n, DirOf(q)), Pde(y, n, DirOf(q)));
    }
  }

  lemma ProgressFork(s0: Sys, s: Sys, y: Sys, n: Context, i: Index)
    requires Progress(s0, s, n, i) && SlotForked(s, y, n, i) && (KERNEL <= i || Present(Pde(s, s.cur, i)))
    ensures Progress(s0, y, n, i + 1)
  {
    NextEntries(s0, s, y, n, i);
    hide EntriesKept, ChildEntries, SlotEntries, FlagsKept;
    SlotsKept(s, y, i + 1);
    KeepsLess(s, y, s.ctxs - {n}, s0.ctxs);
    KeepsTrans(s0, s, y, s0.ctxs);
    assert s.free <= s0.free && y.cur == s.cur && y.ctxs == s.ctxs;
    forall j: Index | j < KERNEL && j != i ensures SameEntry(s.ram[n.Pd()][j], y.ram[n.Pd()][j]) {
      assert SameEntry(Pde(s, n, j), Pde(y, n, j));
    }
    forall q: PageNo | DirOf(q) < KERNEL && DirOf(q) <= i ensures Tr(y, n, q) == Tr(s0, s0.cur, q) {
      assert Tr(s, s.cur, q) == Tr(s0, s0.cur, q);
    }
  }

  lemma ProgressStart(s0: Sys, s: Sys, n: Context)
    requires Coherent(s0) && Keeps(s0, s, s0.ctxs) && n !in s0.ctxs && s.ctxs == s0.ctxs + {n} && Empty(s, n)
    requires UserSlots(s0, s)
    requires |KernelPages(s)| >= Slots(s0.ram[s0.cur.Pd()], 0) && |s.free| >= 2 * Slots(s0.ram[s0.cur.Pd()], 0)
    ensures Progress(s0, s, n, 0)
  {
    hide Keeps, Slots, Walk;
    SlotsKept(s0, s, 0);
    forall j: Index | j < KERNEL ensures s.ram[n.Pd()][j] == 0 {
      assert Pde(s, n, j) == 0;
    }
  }

  /** What vmm_fork promises: the child n sees every user page as the parent did, in tables of its own;
      the parent and every other context see what they saw. */
  ghost predicate Forked(s0: Sys, s: Sys, n: Context) {
    && s.cur == s0.cur && n !in s0.ctxs && s.ctxs == s0.ctxs + {n}
    && (forall q: PageNo :: DirOf(q) < KERNEL ==> Tr(s, n, q) == Tr(s0, s0.cur, q))
    && (forall j: Index :: j < KERNEL && Present(s.ram[n.Pd()][j]) ==> FrameOf(s.ram[n.Pd()][j]) in s0.free)
    && ChildEntries(s0, s, n, KERNEL)
    && Keeps(s0, s, s0.ctxs)
  }

  /** What the parent may do with a user page, the child may do with its own: the entries are the same. */
  lemma ForkedRights(s0: Sys, s: Sys, n: Context, q: PageNo, flags: nat)
    requires Forked(s0, s, n) && DirOf(q) < KERNEL && Allows(s0, s0.cur, q, flags) && FlagsKept(flags, 7)
    ensures Allows(s, n, q, flags) && Pte(s, n, q) == Pte(s0, s0.cur, q)
  {
    hide Keeps, Walk, Bit;
  }

  lemma ProgressEnd(s0: Sys, s: Sys, n: Context)
    requires Progress(s0, s, n, 1024)
    ensures Forked(s0, s, n)
  {
  }

  lemma ProgressFacts(s0: Sys, s: Sys, n: Context, i: Index)
    requires Progress(s0, s, n, i) && Coherent(s)
    ensures s.cur == s0.cur && n in s.ctxs && n != s.cur
    ensures Pde(s, s.cur, i) != 0 ==> Present(Pde(s, s.cur, i)) && |KernelPages(s)| >= 1 && |s.free| >= 2
  {
    ContextFacts(s, s.cur);
  }
}
