/** What every operation on the address spaces keeps, and the steps the operations are made of. Each
    frame used as a directory or table has one role, so that tables of different contexts or of different
    slots are different frames. */
module Spaces {
  import opened Bits
  import opened Options
  import opened Mmu
  import opened Find
  import opened Mem

  /** struct vmm_context. */
  datatype Context = Context(pagedir: Word, pagedirPaddr: Word) {
    function Pd(): Frame { pagedirPaddr / PAGE_SIZE }
    function DirPage(): PageNo { pagedir / PAGE_SIZE }
  }

  datatype Role = Directory(pd: Frame) | UserTable(pd: Frame, i: Index) | KernelTable(i: Index)

  function Owner(pd: Frame, i: Index): Role {
    if i < KERNEL then UserTable(pd, i) else KernelTable(i)
  }

  /** Memory, the current context, the existing contexts, the roles of frames and the free frames. */
  datatype Sys = Sys(ram: Ram, cur: Context, ctxs: set<Context>, roles: map<Frame, Role>, free: set<Frame>)

  /** The translation of page q in context c. */
  function Tr(s: Sys, c: Context, q: PageNo): Option<Frame> { Walk(s.ram, c.Pd(), q) }

  function Pde(s: Sys, c: Context, i: Index): Word { s.ram[c.Pd()][i] }

  /** Directory pd: its entries are 0 or present, and each table it uses is known as slot i's. */
  ghost predicate DirectoryOk(s: Sys, pd: Frame) {
    && pd in s.roles && s.roles[pd] == Directory(pd)
    && forall i: Index :: i != SELF && s.ram[pd][i] != 0 ==>
      && Present(s.ram[pd][i])
      && FrameOf(s.ram[pd][i]) in s.roles
      && s.roles[FrameOf(s.ram[pd][i])] == Owner(pd, i)
  }

  ghost predicate ContextOk(s: Sys, c: Context) {
    && c.pagedir % PAGE_SIZE == 0 && c.pagedirPaddr % PAGE_SIZE == 0
    && KERNEL <= DirOf(c.DirPage()) < SELF
    && Tr(s, s.cur, c.DirPage()) == Some(c.Pd())
    && DirectoryOk(s, c.Pd())
  }

  ghost predicate Coherent(s: Sys) {
    && s.cur in s.ctxs
    && SelfMapped(s.ram, s.cur.Pd())
    && (forall c :: c in s.ctxs ==> ContextOk(s, c))
    && (forall c, d :: c in s.ctxs && d in s.ctxs && c.Pd() == d.Pd() ==> c == d)
    && (forall f :: f in s.roles ==> f !in s.free)
    && 0 !in s.free
  }

  // ----- steps -----

  /** Entries that differ in flag bits only, of which none was taken away. */
  ghost predicate SameEntry(w: Word, x: Word) {
    FrameOf(w) == FrameOf(x) && Present(w) == Present(x) && (w == 0 <==> x == 0) && FlagsKept(w, x)
  }

  /** Every flag of w is a flag of x. */
  ghost predicate FlagsKept(w: nat, x: nat) {
    forall k: nat :: k < 12 && Bit(w, k) ==> Bit(x, k)
  }

  /** `|` adds the flags of both words and no others. */
  lemma FlagsOr(a: nat, b: nat)
    ensures FlagsKept(a, Or(a, b)) && FlagsKept(b, Or(a, b))
    ensures forall k: nat :: Bit(Or(a, b), k) ==> Bit(a, k) || Bit(b, k)
  {
    forall k: nat {
      OrBit(a, b, k);
    }
  }

  ghost predicate SameDirectory(ram: Ram, ram': Ram, pd: Frame) {
    && (forall f: Frame :: f != pd ==> ram'[f] == ram[f])
    && (forall i: Index :: SameEntry(ram[pd][i], ram'[pd][i]))
  }

  /** Flag bits were added to entries of c's directory. */
  ghost predicate Flagged(s: Sys, s': Sys, c: Context) {
    s' == s.(ram := s'.ram) && SameDirectory(s.ram, s'.ram, c.Pd())
  }

  /** Entry e is written for page p under directory pd, in table t: the one already there, or a fresh
      cleared one. */
  ghost predicate Entered(ram: Ram, ram': Ram, free: set<Frame>, pd: Frame, p: PageNo, e: Word, t: Frame) {
    && t != pd
    && (forall f: Frame :: f != pd && f != t ==> ram'[f] == ram[f])
    && (forall j: Index :: j != DirOf(p) ==> SameEntry(ram[pd][j], ram'[pd][j]))
    && Present(ram'[pd][DirOf(p)]) && FrameOf(ram'[pd][DirOf(p)]) == t
    && (Present(ram[pd][DirOf(p)]) ==> FlagsKept(ram[pd][DirOf(p)], ram'[pd][DirOf(p)]))
    && FlagsKept(e, ram'[pd][DirOf(p)])
    && (Present(ram[pd][DirOf(p)]) ==> t == FrameOf(ram[pd][DirOf(p)]) && ram'[t] == ram[t][SlotOf(p) := e])
    && (!Present(ram[pd][DirOf(p)]) ==> t in free && ram'[t] == ZeroTable()[SlotOf(p) := e])
  }

  /** Page p of context c was entered as e in table t. */
  ghost predicate MapStep(s: Sys, s': Sys, c: Context, p: PageNo, e: Word, t: Frame) {
    && s' == (if Present(Pde(s, c, DirOf(p))) then s.(ram := s'.ram)
              else s.(ram := s'.ram, roles := s.roles[t := Owner(c.Pd(), DirOf(p))], free := s.free - {t}))
    && Entered(s.ram, s'.ram, s.free, c.Pd(), p, e, t)
  }

  /** Slot i of c's directory got the fresh table t. */
  ghost predicate TableStep(s: Sys, s': Sys, c: Context, i: Index, t: Frame) {
    && t in s.free && t != c.Pd()
    && s' == s.(ram := s'.ram, roles := s.roles[t := Owner(c.Pd(), i)], free := s.free - {t})
    && (forall f: Frame :: f != c.Pd() && f != t ==> s'.ram[f] == s.ram[f])
    && (forall j: Index :: j != i ==> SameEntry(s.ram[c.Pd()][j], s'.ram[c.Pd()][j]))
    && Present(Pde(s', c, i)) && FrameOf(Pde(s', c, i)) == t
  }

  /** The entry of page p of context c was set to 0. */
  ghost predicate UnmapStep(s: Sys, s': Sys, c: Context, p: PageNo) {
    && s' == s.(ram := s'.ram)
    && Present(Pde(s, c, DirOf(p))) && FrameOf(Pde(s, c, DirOf(p))) != c.Pd()
    && (forall f: Frame :: f != c.Pd() && f != FrameOf(Pde(s, c, DirOf(p))) ==> s'.ram[f] == s.ram[f])
    && (forall i: Index :: SameEntry(s.ram[c.Pd()][i], s'.ram[c.Pd()][i]))
    && s'.ram[FrameOf(Pde(s, c, DirOf(p)))] == s.ram[FrameOf(Pde(s, c, DirOf(p)))][SlotOf(p) := 0]
  }

  // ----- the steps keep coherence, and what they do to translations -----

  lemma ContextFacts(s: Sys, c: Context)
    requires Coherent(s) && (c in s.ctxs || c == s.cur)
    ensures c in s.ctxs && ContextOk(s, c) && DirectoryOk(s, c.Pd()) && s.cur in s.ctxs && SelfMapped(s.ram, s.cur.Pd())
    ensures c.pagedir % PAGE_SIZE == 0 && Tr(s, s.cur, c.DirPage()) == Some(c.Pd())
  {
  }

  lemma FlaggedWalk(s: Sys, s': Sys, c: Context, d: Context, q: PageNo)
    requires Coherent(s) && c in s.ctxs && d in s.ctxs && Flagged(s, s', c)
    requires DirOf(q) != SELF || d == s.cur
    ensures Tr(s', d, q) == Tr(s, d, q)
  {
    assert ContextOk(s, c) && ContextOk(s, d);
    assert SameEntry(s.ram[c.Pd()][DirOf(q)], s'.ram[c.Pd()][DirOf(q)]);
    assert SameEntry(s.ram[c.Pd()][SlotOf(q)], s'.ram[c.Pd()][SlotOf(q)]);
  }

  lemma FlaggedCoherent(s: Sys, s': Sys, c: Context)
    requires Coherent(s) && c in s.ctxs && Flagged(s, s', c)
    ensures Coherent(s')
  {
    assert SameEntry(s.ram[c.Pd()][SELF], s'.ram[c.Pd()][SELF]);
    assert ContextOk(s, c);
    forall d | d in s'.ctxs ensures ContextOk(s', d) {
      assert ContextOk(s, d);
      FlaggedWalk(s, s', c, s.cur, d.DirPage());
      FlaggedDirectory(s, s', c, d);
    }
  }

  lemma FlaggedDirectory(s: Sys, s': Sys, c: Context, d: Context)
    requires Coherent(s) && c in s.ctxs && d in s.ctxs && Flagged(s, s', c)
    ensures DirectoryOk(s', d.Pd())
  {
    assert ContextOk(s, d);
    if c == d {
      forall i: Index ensures SameEntry(s.ram[d.Pd()][i], s'.ram[d.Pd()][i]) {}
    }
  }

  lemma FlaggedRefl(s: Sys, c: Context)
    ensures Flagged(s, s, c)
  {
  }

  lemma FlaggedTrans(s0: Sys, s1: Sys, s2: Sys, c: Context)
    requires Flagged(s0, s1, c) && Flagged(s1, s2, c)
    ensures Flagged(s0, s2, c)
  {
    forall i: Index ensures SameEntry(s0.ram[c.Pd()][i], s2.ram[c.Pd()][i]) {
      assert SameEntry(s0.ram[c.Pd()][i], s1.ram[c.Pd()][i]) && SameEntry(s1.ram[c.Pd()][i], s2.ram[c.Pd()][i]);
    }
  }

  lemma FlaggedSlot(s: Sys, s': Sys, c: Context, i: Index)
    requires Flagged(s, s', c)
    ensures SameEntry(Pde(s, c, i), Pde(s', c, i))
    ensures forall f: Frame :: f != c.Pd() ==> s'.ram[f] == s.ram[f]
    ensures s'.cur == s.cur && s'.ctxs == s.ctxs && s'.roles == s.roles && s'.free == s.free
  {
  }

  /** w | flags. */
  function WithFlags(w: Word, flags: nat): (r: Word)
    requires flags < 256
  {
    OrFlags(w, flags);
    Or(w, flags)
  }

  /** The flags are added to those of the entry, whose frame stays. */
  lemma FlagsAdded(w: Word, flags: nat)
    requires flags < 256 && Present(w)
    ensures SameEntry(w, WithFlags(w, flags)) && FlagsKept(flags, WithFlags(w, flags))
  {
    OrFlags(w, flags);
    OrHalf(w, flags);
    FlagsOr(w, flags);
  }

  lemma FlagsStored(s: Sys, c: Context, i: Index, flags: nat) returns (s': Sys)
    requires flags < 256 && Present(Pde(s, c, i))
    ensures s' == s.(ram := Poke(s.ram, c.Pd(), i, WithFlags(Pde(s, c, i), flags))) && Flagged(s, s', c)
    ensures FlagsKept(flags, Pde(s', c, i))
  {
    FlagsAdded(Pde(s, c, i), flags);
    hide WithFlags, SameEntry, FlagsKept;
    s' := s.(ram := Poke(s.ram, c.Pd(), i, WithFlags(Pde(s, c, i), flags)));
    forall j: Index ensures SameEntry(s.ram[c.Pd()][j], s'.ram[c.Pd()][j]) {
      SameRefl(s.ram[c.Pd()][j]);
    }
  }

  lemma SameRefl(w: Word)
    ensures SameEntry(w, w)
  {
  }

  lemma FlaggedMap(s0: Sys, s1: Sys, s2: Sys, c: Context, p: PageNo, e: Word, t: Frame)
    requires Flagged(s0, s1, c) && MapStep(s1, s2, c, p, e, t)
    ensures MapStep(s0, s2, c, p, e, t)
  {
    forall j: Index ensures SameEntry(s0.ram[c.Pd()][j], s1.ram[c.Pd()][j]) {}
  }

  /** A new entry changes the translation of its own page only. */
  lemma MapOwn(s: Sys, s': Sys, c: Context, p: PageNo, e: Word, t: Frame, q: PageNo)
    requires Coherent(s) && c in s.ctxs && MapStep(s, s', c, p, e, t) && Present(e)
    requires DirOf(p) != SELF && DirOf(q) != SELF
    ensures Tr(s', c, q) == if q == p then Some(FrameOf(e)) else Tr(s, c, q)
  {
    assert ContextOk(s, c);
    if DirOf(q) != DirOf(p) {
      assert SameEntry(s.ram[c.Pd()][DirOf(q)], s'.ram[c.Pd()][DirOf(q)]);
    }
  }

  /** It leaves the user half of every other context, and all of the current one, as they were. */
  lemma MapOther(s: Sys, s': Sys, c: Context, p: PageNo, e: Word, t: Frame, d: Context, q: PageNo)
    requires Coherent(s) && c in s.ctxs && d in s.ctxs && d != c && MapStep(s, s', c, p, e, t)
    requires DirOf(p) != SELF
    requires DirOf(q) < KERNEL || (d == s.cur && DirOf(p) < KERNEL)
    ensures Tr(s', d, q) == Tr(s, d, q)
  {
    ContextFacts(s, c);
    ContextFacts(s, d);
    assert c.Pd() != d.Pd();
    hide Coherent, ContextOk;
    assert s'.ram[d.Pd()] == s.ram[d.Pd()];
  }

  lemma MapCoherent(s: Sys, s': Sys, c: Context, p: PageNo, e: Word, t: Frame)
    requires Coherent(s) && c in s.ctxs && MapStep(s, s', c, p, e, t) && Present(e)
    requires DirOf(p) != SELF && (c != s.cur ==> DirOf(p) < KERNEL)
    requires forall d :: d in s.ctxs ==> d.DirPage() != p
    ensures Coherent(s')
  {
    assert ContextOk(s, c);
    assert ContextOk(s, s.cur);
    forall d | d in s.ctxs ensures ContextOk(s', d) {
      assert ContextOk(s, d);
      if c == s.cur {
        MapOwn(s, s', c, p, e, t, d.DirPage());
      } else {
        MapOther(s, s', c, p, e, t, s.cur, d.DirPage());
      }
      MapDirectory(s, s', c, p, e, t, d);
    }
  }

  lemma MapDirectory(s: Sys, s': Sys, c: Context, p: PageNo, e: Word, t: Frame, d: Context)
    requires Coherent(s) && c in s.ctxs && d in s.ctxs && MapStep(s, s', c, p, e, t)
    requires DirOf(p) != SELF
    ensures DirectoryOk(s', d.Pd())
  {
    assert ContextOk(s, c);
    assert ContextOk(s, d);
    if c == d {
      forall j: Index | j != DirOf(p) ensures SameEntry(s.ram[c.Pd()][j], s'.ram[c.Pd()][j]) {}
    } else {
      assert s'.ram[d.Pd()] == s.ram[d.Pd()];
    }
  }

  lemma TableCoherent(s: Sys, s': Sys, c: Context, i: Index, t: Frame)
    requires Coherent(s) && c in s.ctxs && TableStep(s, s', c, i, t)
    requires c == s.cur ==> i != SELF && Pde(s, c, i) == 0
    ensures Coherent(s')
  {
    ContextFacts(s, c);
    forall d | d in s.ctxs ensures ContextOk(s', d) {
      assert ContextOk(s, d);
      TableOther(s, s', c, i, t, s.cur, d.DirPage());
      TableDirectory(s, s', c, i, t, d);
    }
    assert SameEntry(s.ram[s.cur.Pd()][SELF], s'.ram[s.cur.Pd()][SELF]) by {
      assert c == s.cur ==> SameEntry(s.ram[c.Pd()][SELF], s'.ram[c.Pd()][SELF]);
    }
  }

  lemma TableDirectory(s: Sys, s': Sys, c: Context, i: Index, t: Frame, d: Context)
    requires Coherent(s) && c in s.ctxs && d in s.ctxs && TableStep(s, s', c, i, t)
    ensures DirectoryOk(s', d.Pd())
  {
    assert ContextOk(s, c);
    assert ContextOk(s, d);
    if c == d {
      forall j: Index | j != SELF && s'.ram[d.Pd()][j] != 0
        ensures Present(s'.ram[d.Pd()][j]) && FrameOf(s'.ram[d.Pd()][j]) in s'.roles
        ensures s'.roles[FrameOf(s'.ram[d.Pd()][j])] == Owner(d.Pd(), j)
      {
        assert j != i ==> SameEntry(s.ram[c.Pd()][j], s'.ram[c.Pd()][j]);
      }
    } else {
      assert s'.ram[d.Pd()] == s.ram[d.Pd()];
    }
  }

  /** A fresh table changes no translation of other contexts, and none outside its slot in its own. */
  lemma TableOther(s: Sys, s': Sys, c: Context, i: Index, t: Frame, d: Context, q: PageNo)
    requires Coherent(s) && c in s.ctxs && d in s.ctxs && TableStep(s, s', c, i, t)
    requires DirOf(q) != SELF
    requires d != c || DirOf(q) != i
    ensures Tr(s', d, q) == Tr(s, d, q)
  {
    assert ContextOk(s, c);
    assert ContextOk(s, d);
    if c == d {
      assert SameEntry(s.ram[c.Pd()][DirOf(q)], s'.ram[c.Pd()][DirOf(q)]);
    } else {
      assert s'.ram[d.Pd()] == s.ram[d.Pd()];
    }
  }

  /** Clearing an entry changes that page only, in every context. */
  lemma UnmapWalk(s: Sys, s': Sys, c: Context, p: PageNo, d: Context, q: PageNo)
    requires Coherent(s) && c in s.ctxs && d in s.ctxs && UnmapStep(s, s', c, p)
    requires DirOf(p) != SELF && DirOf(q) != SELF
    ensures q != p ==> Tr(s', d, q) == Tr(s, d, q)
    ensures Tr(s', c, p) == None
  {
    hide Coherent, ContextOk;
    ContextFacts(s, c);
    ContextFacts(s, d);
    assert SameEntry(s.ram[c.Pd()][DirOf(q)], s'.ram[c.Pd()][DirOf(q)]);
    assert SameEntry(s.ram[c.Pd()][DirOf(p)], s'.ram[c.Pd()][DirOf(p)]);
    assert d.Pd() != c.Pd() ==> s'.ram[d.Pd()] == s.ram[d.Pd()];
  }

  /** A user page is unmapped in its own context only. */
  lemma UnmapOther(s: Sys, s': Sys, c: Context, p: PageNo, d: Context)
    requires Coherent(s) && c in s.ctxs && d in s.ctxs && d != c && UnmapStep(s, s', c, p)
    requires DirOf(p) < KERNEL
    ensures Tr(s', d, p) == Tr(s, d, p)
  {
    ContextFacts(s, c);
    ContextFacts(s, d);
    assert s'.ram[d.Pd()] == s.ram[d.Pd()];
  }

  lemma UnmapCoherent(s: Sys, s': Sys, c: Context, p: PageNo)
    requires Coherent(s) && c in s.ctxs && UnmapStep(s, s', c, p) && DirOf(p) != SELF
    requires forall d :: d in s.ctxs ==> d.DirPage() != p
    ensures Coherent(s')
  {
    ContextFacts(s, s.cur);
    assert ContextOk(s, c);
    assert SameEntry(s.ram[c.Pd()][SELF], s'.ram[c.Pd()][SELF]);
    forall d | d in s.ctxs ensures ContextOk(s', d) {
      assert ContextOk(s, d);
      UnmapWalk(s, s', c, p, s.cur, d.DirPage());
      if d == c {
        forall i: Index ensures SameEntry(s.ram[d.Pd()][i], s'.ram[d.Pd()][i]) {}
      } else {
        assert s'.ram[d.Pd()] == s.ram[d.Pd()];
      }
    }
  }

  /** Word j of the window page of slot i is the page table entry the walk uses. */
  lemma WindowSlot(s: Sys, s': Sys, q: PageNo)
    requires Flagged(s, s', s.cur) && SelfMapped(s'.ram, s.cur.Pd()) && Present(Pde(s, s.cur, DirOf(q)))
    ensures Walk(s'.ram, s.cur.Pd(), PageAt(SELF, DirOf(q))) == Some(FrameOf(Pde(s, s.cur, DirOf(q))))
    ensures Present(s'.ram[FrameOf(Pde(s, s.cur, DirOf(q)))][SlotOf(q)]) <==> Tr(s, s.cur, q).Some?
  {
    assert SameEntry(Pde(s, s.cur, DirOf(q)), Pde(s', s.cur, DirOf(q)));
    assert SameEntry(Pde(s, s.cur, SELF), Pde(s', s.cur, SELF));
    assert SameEntry(Pde(s, s.cur, SlotOf(q)), Pde(s', s.cur, SlotOf(q)));
  }

  /** paddr | flags | VMM_PRESENT. */
  function PageEntry(paddr: Word, flags: nat): (w: Word)
    requires flags < 256
    ensures FrameOf(w) == paddr / PAGE_SIZE && Present(w)
  {
    OrFlags(paddr, flags);
    OrFlags(Or(paddr, flags), VMM_PRESENT);
    OrHalf(Or(paddr, flags), VMM_PRESENT);
    Or(Or(paddr, flags), VMM_PRESENT)
  }

  /** The flags of an entry are those asked for and VMM_PRESENT. */
  lemma PageFlags(paddr: Word, flags: nat)
    requires flags < 256 && paddr % PAGE_SIZE == 0
    ensures forall k: nat :: k < 12 ==> (Bit(PageEntry(paddr, flags), k) <==> k == 0 || Bit(flags, k))
  {
    forall k: nat | k < 12 ensures Bit(PageEntry(paddr, flags), k) <==> k == 0 || Bit(flags, k) {
      OrBit(Or(paddr, flags), VMM_PRESENT, k);
      OrBit(paddr, flags, k);
      AlignedBit(paddr, k);
      PresentBit(k);
    }
  }

  /** So they are flags of a present table entry that has all those asked for. */
  lemma PageFlagsKept(paddr: Word, flags: nat, w: Word)
    requires flags < 256 && paddr % PAGE_SIZE == 0 && FlagsKept(flags, w) && Present(w)
    ensures FlagsKept(PageEntry(paddr, flags), w)
  {
    PageFlags(paddr, flags);
    hide PageEntry, Shr;
    forall k: nat | k < 12 && Bit(PageEntry(paddr, flags), k) ensures Bit(w, k) {
      PresentFlag(w);
    }
  }

  lemma PresentFlag(w: Word)
    ensures Present(w) <==> Bit(w, 0)
  {
  }

  lemma PresentBit(k: nat)
    ensures Bit(VMM_PRESENT, k) <==> k == 0
  {
    ShlBit(0, k);
  }

  // ----- the kernel page that temporary mappings use -----

  ghost function LowestUnmapped(ram: Ram, pd: Frame, p: nat): (r: nat)
    ensures p <= r
    ensures r < SELF * 1024 ==> Unmapped(ram, pd, r)
    ensures forall q: PageNo :: p <= q < r && q < SELF * 1024 ==> Walk(ram, pd, q).Some?
    decreases SELF * 1024 - p
  {
    if p >= SELF * 1024 || Unmapped(ram, pd, p) then p else LowestUnmapped(ram, pd, p + 1)
  }

  ghost function KernelSlot(s: Sys): (r: nat)
    ensures r >= KERNEL * 1024
  {
    LowestUnmapped(s.ram, s.cur.Pd(), KERNEL * 1024)
  }

  /** There is an unmapped kernel page below the window, and a frame for its table if it has none. */
  ghost predicate Room(s: Sys) {
    && KernelSlot(s) < SELF * 1024
    && (Present(Pde(s, s.cur, DirOf(KernelSlot(s)))) || s.free != {})
  }

  /** The page is in a table that keeps another nonzero entry, so that unmapping it again returns. */
  ghost predicate WindowReady(s: Sys) {
    && KernelSlot(s) < SELF * 1024
    && Present(Pde(s, s.cur, DirOf(KernelSlot(s))))
    && Pinned(s.ram[FrameOf(Pde(s, s.cur, DirOf(KernelSlot(s))))], SlotOf(KernelSlot(s)))
  }

  predicate Pinned(t: Table, j: Index) {
    exists i: Index :: i != j && t[i] != 0
  }

  /** A page whose directory slot was absent is the only one of its table. */
  lemma LonePage(s: Sys, s': Sys, c: Context, p: PageNo, e: Word, t: Frame)
    requires MapStep(s, s', c, p, e, t) && !Present(Pde(s, c, DirOf(p)))
    ensures Present(Pde(s', c, DirOf(p))) && FrameOf(Pde(s', c, DirOf(p))) == t && !Pinned(s'.ram[t], SlotOf(p))
  {
  }

  lemma SlotSame(s: Sys, s': Sys)
    requires s'.cur == s.cur
    requires forall q: PageNo :: KERNEL <= DirOf(q) < SELF ==> Tr(s', s.cur, q) == Tr(s, s.cur, q)
    ensures KernelSlot(s') == KernelSlot(s)
  {
    LowestSame(s, s', KERNEL * 1024);
  }

  lemma {:induction false} LowestSame(s: Sys, s': Sys, p: nat)
    requires s'.cur == s.cur && p >= KERNEL * 1024
    requires forall q: PageNo :: KERNEL <= DirOf(q) < SELF ==> Tr(s', s.cur, q) == Tr(s, s.cur, q)
    ensures LowestUnmapped(s'.ram, s.cur.Pd(), p) == LowestUnmapped(s.ram, s.cur.Pd(), p)
    decreases SELF * 1024 - p
  {
    if p < SELF * 1024 {
      assert Tr(s', s.cur, p) == Tr(s, s.cur, p);
      LowestSame(s, s', p + 1);
    }
  }

  /** The kernel slot is no context's directory page. */
  lemma SlotNoDirectory(s: Sys)
    requires Coherent(s) && KernelSlot(s) < SELF * 1024
    ensures forall d :: d in s.ctxs ==> d.DirPage() != KernelSlot(s)
  {
    forall d | d in s.ctxs ensures d.DirPage() != KernelSlot(s) {
      assert ContextOk(s, d);
    }
  }

  /** A search for one kernel page finds the kernel slot. */
  lemma FoundSlot(s: Sys, q: nat)
    requires KernelSlot(s) < SELF * 1024
    ensures Found(s.ram, s.cur.Pd(), 1, KERNEL * 1024, 0xf_ffff, q) ==> q == KernelSlot(s)
    ensures !NotFound(s.ram, s.cur.Pd(), 1, KERNEL * 1024, 0xf_ffff)
  {
    var ram, pd, lo: PageNo, hi: PageNo, w := s.ram, s.cur.Pd(), KERNEL * 1024, 0xf_ffff, KernelSlot(s);
    forall k: nat ensures SeenRun(ram, pd, lo, DirOf(hi), 1, k) <==> Unmapped(ram, pd, k) {
      AlignedSeen(ram, pd, lo, hi, k);
    }
    AlignedSeen(ram, pd, lo, hi, w);
  }

  lemma FlaggedKernelSlot(s: Sys, s': Sys, c: Context)
    requires Coherent(s) && c in s.ctxs && Flagged(s, s', c)
    ensures KernelSlot(s') == KernelSlot(s)
    ensures Room(s) ==> Room(s')
  {
    ContextFacts(s, s.cur);
    forall q: PageNo | KERNEL <= DirOf(q) < SELF ensures Tr(s', s.cur, q) == Tr(s, s.cur, q) {
      FlaggedWalk(s, s', c, s.cur, q);
    }
    SlotSame(s, s');
    if KernelSlot(s) < SELF * 1024 {
      assert SameEntry(s.ram[c.Pd()][DirOf(KernelSlot(s))], s'.ram[c.Pd()][DirOf(KernelSlot(s))]);
    }
  }

  // ----- what the operations compose -----

  lemma FrameClear(s: Sys, s': Sys, c: Context, p: PageNo, e: Word, t: Frame, f: Frame, x: Table)
    requires MapStep(s, s', c, p, e, t) && f != c.Pd() && f != t
    ensures MapStep(s.(ram := s.ram[f := x]), s'.(ram := s'.ram[f := x]), c, p, e, t)
  {
  }

  lemma EnterPresent(s: Sys, s': Sys, c: Context, p: PageNo, e: Word)
    requires Coherent(s) && c in s.ctxs && Flagged(s, s', c) && Present(Pde(s, c, DirOf(p))) && DirOf(p) != SELF
    requires FlagsKept(e, Pde(s', c, DirOf(p)))
    ensures var t := FrameOf(Pde(s, c, DirOf(p)));
      MapStep(s, s'.(ram := Poke(s'.ram, t, SlotOf(p), e)), c, p, e, t)
  {
    assert ContextOk(s, c);
    assert SameEntry(s.ram[c.Pd()][DirOf(p)], s'.ram[c.Pd()][DirOf(p)]);
  }

  lemma EnterFresh(s: Sys, s': Sys, c: Context, p: PageNo, e: Word, t: Frame)
    requires TableStep(s, s', c, DirOf(p), t) && s'.ram[t] == ZeroTable() && !Present(Pde(s, c, DirOf(p)))
    requires FlagsKept(e, Pde(s', c, DirOf(p)))
    ensures MapStep(s, s'.(ram := Poke(s'.ram, t, SlotOf(p), e)), c, p, e, t)
  {
  }

  lemma ClearEntry(s: Sys, s': Sys, c: Context, p: PageNo)
    requires Coherent(s) && c in s.ctxs && Flagged(s, s', c) && Present(Pde(s, c, DirOf(p))) && DirOf(p) != SELF
    ensures UnmapStep(s, s'.(ram := Poke(s'.ram, FrameOf(Pde(s, c, DirOf(p))), SlotOf(p), 0)), c, p)
  {
    assert ContextOk(s, c);
  }

  /** Open a window on table f, write an entry there, close the window: only f and the window's own
      entry differ. */
  lemma ThroughWindow(m: Sys, v: Sys, w: PageNo, e: Word, tw: Frame, f: Frame, j: Index, x: Word, v': Sys)
    requires MapStep(m, v, m.cur, w, e, tw) && Present(e) && Present(Pde(m, m.cur, DirOf(w)))
    requires f != m.cur.Pd() && f != tw
    requires UnmapStep(v.(ram := Poke(v.ram, f, j, x)), v', m.cur, w)
    ensures UnmapStep(m.(ram := Poke(m.ram, f, j, x)), v', m.cur, w)
  {
    var u := v.(ram := Poke(v.ram, f, j, x));
    forall i: Index ensures SameEntry(m.ram[m.cur.Pd()][i], v'.ram[m.cur.Pd()][i]) {
      assert SameEntry(u.ram[m.cur.Pd()][i], v'.ram[m.cur.Pd()][i]);
      assert i != DirOf(w) ==> SameEntry(m.ram[m.cur.Pd()][i], v.ram[m.cur.Pd()][i]);
    }
    assert v'.ram[tw] == m.ram[tw][SlotOf(w) := 0];
  }

  /** pagetable | VMM_WRITE | VMM_PRESENT | flags. */
  function TableEntry(pagetable: Word, flags: nat): (w: Word)
    requires flags < 256
    ensures FrameOf(w) == pagetable / PAGE_SIZE && Present(w)
  {
    var w := Or(Or(pagetable, VMM_WRITE), VMM_PRESENT);
    OrFlags(pagetable, VMM_WRITE);
    OrFlags(Or(pagetable, VMM_WRITE), VMM_PRESENT);
    OrHalf(Or(pagetable, VMM_WRITE), VMM_PRESENT);
    OrFlags(w, flags);
    OrHalf(w, flags);
    Or(w, flags)
  }

  /** A new table can be written whatever flags it is made with. */
  lemma TableFlags(pagetable: Word, flags: nat)
    requires flags < 256
    ensures FlagsKept(VMM_KERNEL_FLAGS, TableEntry(pagetable, flags))
  {
    var v := Or(pagetable, VMM_WRITE);
    assert Or(VMM_WRITE, VMM_PRESENT) == VMM_KERNEL_FLAGS;
    forall k: nat | Bit(VMM_KERNEL_FLAGS, k) ensures Bit(TableEntry(pagetable, flags), k) {
      OrBit(VMM_WRITE, VMM_PRESENT, k);
      OrBit(pagetable, VMM_WRITE, k);
      OrBit(v, VMM_PRESENT, k);
      OrBit(Or(v, VMM_PRESENT), flags, k);
    }
  }

  lemma TableKernelSlot(s: Sys, s': Sys, c: Context, i: Index, t: Frame)
    requires Coherent(s) && c in s.ctxs && c != s.cur && TableStep(s, s', c, i, t)
    ensures KernelSlot(s') == KernelSlot(s)
    ensures Room(s.(free := s.free - {t})) ==> Room(s')
  {
    ContextFacts(s, s.cur);
    forall q: PageNo | KERNEL <= DirOf(q) < SELF ensures Tr(s', s.cur, q) == Tr(s, s.cur, q) {
      TableOther(s, s', c, i, t, s.cur, q);
    }
    SlotSame(s, s');
    assert KernelSlot(s.(free := s.free - {t})) == KernelSlot(s);
    assert ContextOk(s, c) && ContextOk(s, s.cur);
    assert s'.ram[s.cur.Pd()] == s.ram[s.cur.Pd()];
  }

  lemma TableStored(s: Sys, c: Context, i: Index, e: Word) returns (s': Sys)
    requires Coherent(s) && c in s.ctxs && Present(e) && FrameOf(e) in s.free
    ensures s' == Sys(Poke(s.ram, c.Pd(), i, e), s.cur, s.ctxs, s.roles[FrameOf(e) := Owner(c.Pd(), i)],
      s.free - {FrameOf(e)})
    ensures TableStep(s, s', c, i, FrameOf(e))
  {
    assert ContextOk(s, c);
    s' := Sys(Poke(s.ram, c.Pd(), i, e), s.cur, s.ctxs, s.roles[FrameOf(e) := Owner(c.Pd(), i)], s.free - {FrameOf(e)});
  }

  lemma TableSlot(s: Sys, s': Sys, c: Context, i: Index, t: Frame)
    requires TableStep(s, s', c, i, t)
    ensures Present(Pde(s', c, i)) && FrameOf(Pde(s', c, i)) == t
  {
  }

  /** Flag bits and the clearing of the table do not disturb a table step. */
  lemma TableFlagged(s: Sys, s1: Sys, s2: Sys, c: Context, i: Index, t: Frame)
    requires TableStep(s, s1, c, i, t) && Flagged(s1, s2, c)
    ensures TableStep(s, s2, c, i, t)
    ensures TableStep(s, s2.(ram := s2.ram[t := ZeroTable()]), c, i, t)
  {
    forall j: Index ensures j != i ==> SameEntry(s.ram[c.Pd()][j], s2.ram[c.Pd()][j]) {
      assert SameEntry(s1.ram[c.Pd()][j], s2.ram[c.Pd()][j]);
    }
    assert SameEntry(s1.ram[c.Pd()][i], s2.ram[c.Pd()][i]);
  }

  /** A fresh table of the current context, seen through its own window page. */
  lemma FreshTable(s: Sys, s2: Sys, c: Context, i: Index, t: Frame)
    requires Coherent(s) && Coherent(s2) && TableStep(s, s2, c, i, t) && c == s.cur && i != SELF && Pde(s, c, i) == 0
    ensures Walk(s2.ram, c.Pd(), PageAt(SELF, i)) == Some(t)
    ensures Aside(s2.ram, c.Pd(), t, PageAt(SELF, i))
    ensures Coherent(s2.(ram := s2.ram[t := ZeroTable()]))
  {
    FlaggedRefl(s2, c);
    TableFlagged(s, s2, s2, c, i, t);
    TableCoherent(s, s2.(ram := s2.ram[t := ZeroTable()]), c, i, t);
  }

  /** A fresh table of another context, seen through the kernel slot. */
  lemma FreshWindow(s: Sys, s1: Sys, s2: Sys, s3: Sys, c: Context, i: Index, t: Frame, tw: Frame)
    requires Coherent(s) && c in s.ctxs && c != s.cur && TableStep(s, s1, c, i, t)
    requires Flagged(s1, s2, c) && Coherent(s2) && KernelSlot(s) < SELF * 1024
    requires MapStep(s2, s3, s.cur, KernelSlot(s), PageEntry(t * PAGE_SIZE, VMM_KERNEL_FLAGS), tw)
    ensures t != tw && t != s.cur.Pd()
    ensures Walk(s3.ram, s.cur.Pd(), KernelSlot(s)) == Some(t)
    ensures Aside(s3.ram, s.cur.Pd(), t, KernelSlot(s))
  {
    ContextFacts(s, c);
    ContextFacts(s, s.cur);
    MapOwn(s2, s3, s.cur, KernelSlot(s), PageEntry(t * PAGE_SIZE, VMM_KERNEL_FLAGS), tw, KernelSlot(s));
    hide Coherent, ContextOk, KernelSlot, LowestUnmapped;
    assert s2.ram[s.cur.Pd()] == s.ram[s.cur.Pd()];
  }

  lemma FreshWindowCleared(s: Sys, s1: Sys, s2: Sys, s3: Sys, c: Context, i: Index, t: Frame, tw: Frame)
    requires Coherent(s) && c in s.ctxs && c != s.cur && TableStep(s, s1, c, i, t)
    requires Flagged(s1, s2, c) && KernelSlot(s) < SELF * 1024
    requires MapStep(s2, s3, s.cur, KernelSlot(s), PageEntry(t * PAGE_SIZE, VMM_KERNEL_FLAGS), tw)
    requires t != tw && t != s.cur.Pd()
    ensures MapStep(s2.(ram := s2.ram[t := ZeroTable()]), s3.(ram := s3.ram[t := ZeroTable()]), s.cur, KernelSlot(s),
                    PageEntry(t * PAGE_SIZE, VMM_KERNEL_FLAGS), tw)
    ensures Coherent(s3.(ram := s3.ram[t := ZeroTable()]))
  {
    var w: PageNo, m, v := KernelSlot(s), s2.(ram := s2.ram[t := ZeroTable()]), s3.(ram := s3.ram[t := ZeroTable()]);
    FrameClear(s2, s3, s.cur, w, PageEntry(t * PAGE_SIZE, VMM_KERNEL_FLAGS), tw, t, ZeroTable());
    TableFlagged(s, s1, s2, c, i, t);
    TableCoherent(s, m, c, i, t);
    SlotNoDirectory(s);
    ContextFacts(m, s.cur);
    assert m.cur == s.cur && m.ctxs == s.ctxs;
    hide TableStep, MapStep, Flagged, Coherent, ContextOk, KernelSlot;
    MapCoherent(m, v, s.cur, w, PageEntry(t * PAGE_SIZE, VMM_KERNEL_FLAGS), tw);
  }

  /** The pointer vmm_get_pagetable returns: the window page of slot i, or the kernel slot. */
  ghost function TablePage(s: Sys, c: Context, i: Index): nat {
    if c == s.cur then PageAt(SELF, i) else KernelSlot(s)
  }

  /** Clearing an entry through that pointer. */
  lemma ZeroStep(s: Sys, c: Context, p: PageNo, t: Frame)
    requires Present(Pde(s, c, DirOf(p))) && FrameOf(Pde(s, c, DirOf(p))) == t != c.Pd()
    ensures UnmapStep(s, s.(ram := Poke(s.ram, t, SlotOf(p), 0)), c, p)
  {
  }

  lemma UnmapThrough(s: Sys, mid: Sys, s1: Sys, c: Context, p: PageNo, tw: Frame)
    requires Coherent(s) && c in s.ctxs && Flagged(s, mid, c) && Coherent(s1)
    requires Present(Pde(s, c, DirOf(p))) && DirOf(p) != SELF && (forall d :: d in s.ctxs ==> d.DirPage() != p)
    requires c == s.cur ==> s1 == mid
    requires c != s.cur ==> KernelSlot(s) < SELF * 1024 && p != KernelSlot(s)
    requires c != s.cur ==> MapStep(mid, s1, s.cur, KernelSlot(s),
      PageEntry(FrameOf(Pde(s, c, DirOf(p))) * PAGE_SIZE, VMM_KERNEL_FLAGS), tw)
    ensures var t := FrameOf(Pde(s, c, DirOf(p)));
      var s2 := s1.(ram := Poke(s1.ram, t, SlotOf(p), 0));
      && Walk(s1.ram, s.cur.Pd(), TablePage(s, c, DirOf(p))) == Some(t)
      && Walk(s2.ram, s.cur.Pd(), TablePage(s, c, DirOf(p))) == Some(t)
      && Coherent(s2) && UnmapStep(s1, s2, c, p)
  {
    hide SelfMapped, ContextOk, SameDirectory, PageEntry;
    hide Coherent, Flagged, MapStep, UnmapStep, KernelSlot, LowestUnmapped, FlagsKept;
    var t, w := FrameOf(Pde(s, c, DirOf(p))), TablePage(s, c, DirOf(p));
    var s2 := s1.(ram := Poke(s1.ram, t, SlotOf(p), 0));
    FlaggedSlot(s, mid, c, DirOf(p));
    FlaggedCoherent(s, mid, c);
    if c != s.cur {
      MapFacts(mid, s1, s.cur, w, PageEntry(t * PAGE_SIZE, VMM_KERNEL_FLAGS), tw);
      MapOwn(mid, s1, s.cur, w, PageEntry(t * PAGE_SIZE, VMM_KERNEL_FLAGS), tw, w);
      MapDirectories(mid, s1, s.cur, w, PageEntry(t * PAGE_SIZE, VMM_KERNEL_FLAGS), tw, c);
    }
    hide SameEntry;
    ContextFacts(s1, s.cur);
    ContextFacts(s1, c);
    assert t != c.Pd() && t != s.cur.Pd();
    ZeroStep(s1, c, p, t);
    UnmapCoherent(s1, s2, c, p);
    if c != s.cur {
      UnmapWalk(s1, s2, c, p, s.cur, w);
    }
  }

  /** Reading an entry through that pointer. */
  lemma ReadThrough(s: Sys, mid: Sys, s1: Sys, c: Context, p: PageNo, tw: Frame)
    requires Coherent(s) && c in s.ctxs && Flagged(s, mid, c) && Coherent(s1)
    requires Present(Pde(s, c, DirOf(p))) && DirOf(p) != SELF
    requires c == s.cur ==> s1 == mid
    requires c != s.cur ==> KernelSlot(s) < SELF * 1024
    requires c != s.cur ==> MapStep(mid, s1, s.cur, KernelSlot(s),
      PageEntry(FrameOf(Pde(s, c, DirOf(p))) * PAGE_SIZE, VMM_KERNEL_FLAGS), tw)
    ensures Walk(s1.ram, s.cur.Pd(), TablePage(s, c, DirOf(p))) == Some(FrameOf(Pde(s, c, DirOf(p))))
    ensures p != KernelSlot(s) || c == s.cur ==>
      s1.ram[FrameOf(Pde(s, c, DirOf(p)))][SlotOf(p)] == s.ram[FrameOf(Pde(s, c, DirOf(p)))][SlotOf(p)]
  {
    hide Coherent, ContextOk, DirectoryOk, Flagged, KernelSlot, LowestUnmapped, MapStep;
    var t, w := FrameOf(Pde(s, c, DirOf(p))), TablePage(s, c, DirOf(p));
    SlotNotDirectory(s, c, DirOf(p));
    FlaggedSlot(s, mid, c, DirOf(p));
    FlaggedCoherent(s, mid, c);
    if c != s.cur {
      MapOwn(mid, s1, s.cur, w, PageEntry(t * PAGE_SIZE, VMM_KERNEL_FLAGS), tw, w);
      if p != w {
        OtherEntry(mid, s1, w, PageEntry(t * PAGE_SIZE, VMM_KERNEL_FLAGS), tw, c, p);
      }
    } else {
      ContextFacts(s1, s.cur);
    }
  }

  /** A new entry of the current context leaves the other entries of a table as they are. */
  lemma OtherEntry(m: Sys, s1: Sys, w: PageNo, e: Word, tw: Frame, c: Context, p: PageNo)
    requires Coherent(m) && c in m.ctxs && c != m.cur && DirOf(p) != SELF && Present(Pde(m, c, DirOf(p)))
    requires DirOf(w) != SELF && MapStep(m, s1, m.cur, w, e, tw) && p != w
    ensures s1.ram[FrameOf(Pde(m, c, DirOf(p)))][SlotOf(p)] == m.ram[FrameOf(Pde(m, c, DirOf(p)))][SlotOf(p)]
  {
    ContextFacts(m, m.cur);
    ContextFacts(m, c);
    hide Coherent, ContextOk;
    var t := FrameOf(Pde(m, c, DirOf(p)));
    assert t != m.cur.Pd();
    if t == tw && Present(Pde(m, m.cur, DirOf(w))) {
      assert DirOf(p) == DirOf(w);
    }
  }

  lemma MapFacts(s: Sys, s': Sys, c: Context, p: PageNo, e: Word, t: Frame)
    requires MapStep(s, s', c, p, e, t)
    ensures s'.cur == s.cur && s'.ctxs == s.ctxs && s'.free <= s.free && t != c.Pd()
    ensures forall f: Frame :: f != c.Pd() && f != t ==> s'.ram[f] == s.ram[f]
  {
  }

  lemma MapDirectories(s: Sys, s': Sys, c: Context, p: PageNo, e: Word, t: Frame, d: Context)
    requires Coherent(s) && c in s.ctxs && d in s.ctxs && d != c && MapStep(s, s', c, p, e, t) && DirOf(p) != SELF
    ensures s'.ram[d.Pd()] == s.ram[d.Pd()]
  {
    assert ContextOk(s, c) && ContextOk(s, d);
  }

  /** What a caller of vmm_map_page has to see to. */
  ghost predicate Mappable(s: Sys, c: Context, p: PageNo) {
    && DirOf(p) != SELF
    && (forall d :: d in s.ctxs ==> d.DirPage() != p)
    && (Present(Pde(s, c, DirOf(p))) || s.free != {})
    && (c != s.cur ==> DirOf(p) < KERNEL && WindowReady(s))
  }

  /** The state m: page p's table is in place, its entry not yet written. */
  ghost predicate TableInPlace(s: Sys, m: Sys, c: Context, p: PageNo, t: Frame) {
    && Coherent(m) && m.cur == s.cur && m.ctxs == s.ctxs
    && Present(Pde(m, c, DirOf(p))) && FrameOf(Pde(m, c, DirOf(p))) == t
    && (forall f: Frame :: f != c.Pd() && f != t ==> m.ram[f] == s.ram[f])
    && (t in s.free || (Present(Pde(s, c, DirOf(p))) && t == FrameOf(Pde(s, c, DirOf(p)))))
  }

  lemma InPlacePresent(s: Sys, m: Sys, c: Context, p: PageNo, e: Word)
    requires Coherent(s) && c in s.ctxs && Flagged(s, m, c) && Present(Pde(s, c, DirOf(p))) && DirOf(p) != SELF
    requires FlagsKept(e, Pde(m, c, DirOf(p)))
    ensures var t := FrameOf(Pde(s, c, DirOf(p)));
      TableInPlace(s, m, c, p, t) && MapStep(s, m.(ram := Poke(m.ram, t, SlotOf(p), e)), c, p, e, t)
  {
    EnterPresent(s, m, c, p, e);
    FlaggedCoherent(s, m, c);
    FlaggedSlot(s, m, c, DirOf(p));
  }

  lemma InPlaceFresh(s: Sys, m: Sys, c: Context, p: PageNo, e: Word, t: Frame)
    requires Coherent(s) && c in s.ctxs && TableStep(s, m, c, DirOf(p), t) && m.ram[t] == ZeroTable()
    requires Pde(s, c, DirOf(p)) == 0 && DirOf(p) != SELF && FlagsKept(e, Pde(m, c, DirOf(p)))
    ensures TableInPlace(s, m, c, p, t) && MapStep(s, m.(ram := Poke(m.ram, t, SlotOf(p), e)), c, p, e, t)
  {
    EnterFresh(s, m, c, p, e, t);
    TableCoherent(s, m, c, DirOf(p), t);
  }

  /** In the current context the table is written through its window page. */
  lemma StoreLocal(s: Sys, m: Sys, p: PageNo, t: Frame, e: Word)
    requires TableInPlace(s, m, s.cur, p, t) && DirOf(p) != SELF
    ensures Walk(m.ram, s.cur.Pd(), PageAt(SELF, DirOf(p))) == Some(t)
  {
    ContextFacts(m, m.cur);
  }

  /** A user table of c, old or fresh, is none of the current context's frames. */
  lemma TableApart(s: Sys, m: Sys, c: Context, p: PageNo, t: Frame, i: Index)
    requires Coherent(s) && c in s.ctxs && c != s.cur && DirOf(p) < KERNEL && TableInPlace(s, m, c, p, t)
    requires i != SELF && Present(Pde(s, s.cur, i))
    ensures t != s.cur.Pd() && m.ram[s.cur.Pd()] == s.ram[s.cur.Pd()]
    ensures FrameOf(Pde(s, s.cur, i)) != t && m.ram[FrameOf(Pde(s, s.cur, i))] == s.ram[FrameOf(Pde(s, s.cur, i))]
  {
    hide TableInPlace;
    InPlaceFacts(s, m, c, p, t);
    assert ContextOk(s, c) && ContextOk(s, s.cur);
  }

  lemma InPlaceFacts(s: Sys, m: Sys, c: Context, p: PageNo, t: Frame)
    requires TableInPlace(s, m, c, p, t)
    ensures Present(Pde(m, c, DirOf(p))) && FrameOf(Pde(m, c, DirOf(p))) == t
    ensures Coherent(m) && m.cur == s.cur && m.ctxs == s.ctxs
    ensures forall f: Frame :: f != c.Pd() && f != t ==> m.ram[f] == s.ram[f]
    ensures t in s.free || (Present(Pde(s, c, DirOf(p))) && t == FrameOf(Pde(s, c, DirOf(p))))
  {
  }

  lemma MapTable(s: Sys, s': Sys, c: Context, p: PageNo, e: Word, t: Frame)
    requires MapStep(s, s', c, p, e, t) && Present(Pde(s, c, DirOf(p)))
    ensures t == FrameOf(Pde(s, c, DirOf(p))) && s'.ram[t] == s.ram[t][SlotOf(p) := e]
    ensures Present(Pde(s', c, DirOf(p))) && FrameOf(Pde(s', c, DirOf(p))) == t
  {
  }

  /** In another context it is written through the kernel slot, and the slot can be given back. */
  lemma StoreRemote(s: Sys, m: Sys, v: Sys, c: Context, p: PageNo, e: Word, t: Frame, tw: Frame) returns (v2: Sys)
    requires Coherent(s) && c in s.ctxs && c != s.cur && Present(e) && Mappable(s, c, p)
    requires TableInPlace(s, m, c, p, t) && Coherent(v) && FlagsKept(e, Pde(m, c, DirOf(p)))
    requires MapStep(m, v, s.cur, KernelSlot(s), PageEntry(t * PAGE_SIZE, VMM_KERNEL_FLAGS), tw)
    ensures v2 == v.(ram := Poke(v.ram, t, SlotOf(p), e))
    ensures Walk(v.ram, s.cur.Pd(), KernelSlot(s)) == Some(t)
    ensures Coherent(v2) && Present(Pde(v2, s.cur, DirOf(KernelSlot(s))))
    ensures FrameOf(Pde(v2, s.cur, DirOf(KernelSlot(s)))) == tw
    ensures Pinned(v2.ram[tw], SlotOf(KernelSlot(s))) && t != tw && t != s.cur.Pd()
    ensures Present(Pde(m, s.cur, DirOf(KernelSlot(s))))
    ensures forall d :: d in s.ctxs ==> d.DirPage() != KernelSlot(s)
  {
    hide Coherent, ContextOk, MapStep, TableInPlace, KernelSlot, LowestUnmapped, Flagged;
    v2 := v.(ram := Poke(v.ram, t, SlotOf(p), e));
    var w: PageNo, e1 := KernelSlot(s), PageEntry(t * PAGE_SIZE, VMM_KERNEL_FLAGS);
    SlotNoDirectory(s);
    InPlaceFacts(s, m, c, p, t);
    TableApart(s, m, c, p, t, DirOf(w));
    MapTable(m, v, s.cur, w, e1, tw);
    ContextFacts(m, s.cur);
    MapOwn(m, v, s.cur, w, e1, tw, w);
    MapFacts(m, v, s.cur, w, e1, tw);
    MapDirectories(m, v, s.cur, w, e1, tw, c);
    FlaggedRefl(v, c);
    EnterPresent(v, v, c, p, e);
    MapCoherent(v, v2, c, p, e, t);
    var j: Index :| j != SlotOf(w) && s.ram[tw][j] != 0;
    assert v2.ram[tw][j] != 0;
  }

  lemma SlotNotDirectory(s: Sys, c: Context, i: Index)
    requires Coherent(s) && c in s.ctxs && i != SELF && Present(Pde(s, c, i))
    ensures FrameOf(Pde(s, c, i)) != c.Pd()
  {
    assert ContextOk(s, c);
  }
}
