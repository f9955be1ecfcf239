/** The page tables as a map from virtual pages to frames: what vmm_map_page and vmm_map_area do to the
    translations of all contexts. */
module Translate {
  import opened Bits
  import opened Options
  import opened Mmu
  import opened Find
  import opened Spaces
  import opened Contexts

  /** Page p of context c now translates to frame f, and nothing else a caller can see has changed:
      the other pages of c, the user half of every other context, the current kernel half, and the
      contents of every frame that is no table. */
  ghost predicate Mapped(s: Sys, s': Sys, c: Context, p: PageNo, f: Frame) {
    && s'.cur == s.cur && s'.ctxs == s.ctxs && s'.free <= s.free
    && (forall q: PageNo :: DirOf(q) != SELF && (c == s.cur || DirOf(q) < KERNEL) ==>
         Tr(s', c, q) == if q == p then Some(f) else Tr(s, c, q))
    && (forall d, q: PageNo :: d in s.ctxs && d != c && DirOf(q) < KERNEL ==> Tr(s', d, q) == Tr(s, d, q))
    && (c != s.cur ==> forall q: PageNo :: DirOf(q) != SELF ==> Tr(s', s.cur, q) == Tr(s, s.cur, q))
    && (forall g: Frame :: g !in s'.roles ==> s'.ram[g] == s.ram[g])
    && (forall g: Frame :: g in s.roles ==> g in s'.roles)
    && (forall g: Frame :: g in s'.roles && g !in s.roles ==> g in s.free && g !in s'.free)
  }

  /** vmm_map_page on the current context. */
  lemma MappedLocal(s: Sys, s': Sys, p: PageNo, e: Word, t: Frame)
    requires Coherent(s) && MapStep(s, s', s.cur, p, e, t) && Present(e) && DirOf(p) != SELF
    ensures Mapped(s, s', s.cur, p, FrameOf(e))
  {
    ContextFacts(s, s.cur);
    forall q: PageNo | DirOf(q) != SELF
      ensures Tr(s', s.cur, q) == if q == p then Some(FrameOf(e)) else Tr(s, s.cur, q)
    {
      MapOwn(s, s', s.cur, p, e, t, q);
    }
    forall d, q: PageNo | d in s.ctxs && d != s.cur && DirOf(q) < KERNEL ensures Tr(s', d, q) == Tr(s, d, q) {
      MapOther(s, s', s.cur, p, e, t, d, q);
    }
  }

  /** vmm_map_page on another context: the mapping in m, then the temporary kernel page given back. */
  lemma MappedRemote(s: Sys, m: Sys, s': Sys, c: Context, p: PageNo, e: Word, t: Frame, w: PageNo)
    requires Coherent(s) && c in s.ctxs && c != s.cur && MapStep(s, m, c, p, e, t) && Present(e) && DirOf(p) < KERNEL
    requires forall d :: d in s.ctxs ==> d.DirPage() != p
    requires KERNEL <= DirOf(w) < SELF && Tr(s, s.cur, w) == None && UnmapStep(m, s', s.cur, w)
    ensures Mapped(s, s', c, p, FrameOf(e))
  {
    hide Coherent, MapStep, UnmapStep;
    MapCoherent(s, m, c, p, e, t);
    MappedFrames(s, m, s', c, p, e, t, w);
    MapFacts(s, m, c, p, e, t);
    forall q: PageNo | DirOf(q) < KERNEL ensures Tr(s', c, q) == if q == p then Some(FrameOf(e)) else Tr(s, c, q) {
      MapOwn(s, m, c, p, e, t, q);
      UnmapWalk(m, s', s.cur, w, c, q);
    }
    forall d, q: PageNo | d in s.ctxs && d != c && DirOf(q) < KERNEL ensures Tr(s', d, q) == Tr(s, d, q) {
      MapOther(s, m, c, p, e, t, d, q);
      UnmapWalk(m, s', s.cur, w, d, q);
    }
    forall q: PageNo | DirOf(q) != SELF ensures Tr(s', s.cur, q) == Tr(s, s.cur, q) {
      MapOther(s, m, c, p, e, t, s.cur, q);
      UnmapWalk(m, s', s.cur, w, s.cur, q);
    }
  }

  /** Only tables are written. */
  lemma MappedFrames(s: Sys, m: Sys, s': Sys, c: Context, p: PageNo, e: Word, t: Frame, w: PageNo)
    requires Coherent(s) && Coherent(m) && c in s.ctxs && c != s.cur && MapStep(s, m, c, p, e, t) && DirOf(p) != SELF
    requires DirOf(w) != SELF && UnmapStep(m, s', s.cur, w)
    ensures s'.cur == s.cur && s'.ctxs == s.ctxs && s'.free <= s.free
    ensures forall g: Frame :: g !in s'.roles ==> s'.ram[g] == s.ram[g]
    ensures forall g: Frame :: g in s.roles ==> g in s'.roles
    ensures forall g: Frame :: g in s'.roles && g !in s.roles ==> g in s.free && g !in s'.free
  {
    ContextFacts(s, c);
    ContextFacts(m, s.cur);
    hide Coherent, ContextOk;
  }

  /** The end of a remote vmm_map_page: the kernel slot is unmapped again. */
  lemma RemoteMapped(s: Sys, m: Sys, mid: Sys, v: Sys, v2: Sys, s1: Sys, y: Sys, c: Context, p: PageNo, e: Word,
                     t: Frame, tw: Frame)
    requires Coherent(s) && c in s.ctxs && c != s.cur && Present(e) && Mappable(s, c, p)
    requires mid == m.(ram := Poke(m.ram, t, SlotOf(p), e)) && MapStep(s, mid, c, p, e, t)
    requires MapStep(m, v, s.cur, KernelSlot(s), PageEntry(t * PAGE_SIZE, VMM_KERNEL_FLAGS), tw) && m.cur == s.cur
    requires v2 == v.(ram := Poke(v.ram, t, SlotOf(p), e)) && Coherent(v2)
    requires Present(Pde(v2, s.cur, DirOf(KernelSlot(s)))) && FrameOf(Pde(v2, s.cur, DirOf(KernelSlot(s)))) == tw
    requires Present(Pde(m, s.cur, DirOf(KernelSlot(s)))) && t != tw && t != s.cur.Pd()
    requires Flagged(v2, s1, s.cur) && y == s1.(ram := Poke(s1.ram, tw, SlotOf(KernelSlot(s)), 0))
    ensures UnmapStep(mid, y, s.cur, KernelSlot(s)) && Mapped(s, y, c, p, FrameOf(e))
  {
    var w: PageNo := KernelSlot(s);
    assert Tr(s, s.cur, w) == None;
    MapFacts(m, v, s.cur, w, PageEntry(t * PAGE_SIZE, VMM_KERNEL_FLAGS), tw);
    hide Coherent, KernelSlot, MapStep, Flagged, Mapped, UnmapStep, WindowReady;
    ClearEntry(v2, s1, s.cur, w);
    ThroughWindow(m, v, w, PageEntry(t * PAGE_SIZE, VMM_KERNEL_FLAGS), tw, t, SlotOf(p), e, y);
    MappedRemote(s, mid, y, c, p, e, t, w);
  }

  // ----- areas -----

  /** Pages p..p+n of c translate to frames f..f+n, and nothing else has changed. */
  ghost predicate AreaMapped(s: Sys, s': Sys, c: Context, p: PageNo, n: nat, f: Frame)
    requires p + n <= 0x10_0000 && f + n <= 0x10_0000
  {
    && s'.cur == s.cur && s'.ctxs == s.ctxs && s'.free <= s.free
    && (forall q: PageNo :: DirOf(q) != SELF && (c == s.cur || DirOf(q) < KERNEL) ==>
         Tr(s', c, q) == if p <= q < p + n then Some(f + (q - p)) else Tr(s, c, q))
    && (forall d, q: PageNo :: d in s.ctxs && d != c && DirOf(q) < KERNEL ==> Tr(s', d, q) == Tr(s, d, q))
    && (c != s.cur ==> forall q: PageNo :: DirOf(q) != SELF ==> Tr(s', s.cur, q) == Tr(s, s.cur, q))
    && (forall g: Frame :: g !in s'.roles ==> s'.ram[g] == s.ram[g])
    && (forall g: Frame :: g in s.roles ==> g in s'.roles)
    && (forall g: Frame :: g in s'.roles && g !in s.roles ==> g in s.free && g !in s'.free)
  }

  lemma AreaNext(s: Sys, m: Sys, s': Sys, c: Context, p: PageNo, n: nat, f: Frame)
    requires p + n < 0x10_0000 && f + n < 0x10_0000
    requires AreaMapped(s, m, c, p, n, f) && Mapped(m, s', c, p + n, f + n)
    ensures AreaMapped(s, s', c, p, n + 1, f)
  {
  }

  /** The number of tables the slots i..last of c still need. */
  ghost function Missing(s: Sys, c: Context, i: nat, last: Index): nat
    decreases last + 1 - i
  {
    if i > last then 0
    else (if Present(Pde(s, c, i)) then 0 else 1) + Missing(s, c, i + 1, last)
  }

  /** What a caller of vmm_map_area has to see to. */
  ghost predicate AreaMappable(s: Sys, c: Context, p: nat, n: nat) {
    && p + n <= 0x10_0000
    && (forall q: PageNo :: p <= q < p + n ==> DirOf(q) != SELF && (c != s.cur ==> DirOf(q) < KERNEL))
    && (forall d :: d in s.ctxs ==> !(p <= d.DirPage() < p + n))
    && (n > 0 ==> Missing(s, c, DirOf(p), DirOf(p + n - 1)) <= |s.free|)
    && (c != s.cur ==> WindowReady(s))
  }

  lemma AreaFirst(s: Sys, c: Context, p: nat, n: nat)
    requires AreaMappable(s, c, p, n) && n > 0
    ensures p < 0x10_0000 && Mappable(s, c, p)
  {
    assert Missing(s, c, DirOf(p), DirOf(p + n - 1)) >= if Present(Pde(s, c, DirOf(p))) then 0 else 1;
  }

  lemma {:induction false} MissingSame(s: Sys, s': Sys, c: Context, i: nat, last: Index)
    requires forall j: Index :: i <= j ==> (Present(Pde(s, c, j)) ==> Present(Pde(s', c, j)))
    ensures Missing(s', c, i, last) <= Missing(s, c, i, last)
    decreases last + 1 - i
  {
    if i <= last {
      MissingSame(s, s', c, i + 1, last);
    }
  }

  lemma MissingStep(s: Sys, s': Sys, c: Context, p: PageNo, n: nat)
    requires n > 1 && p + n <= 0x10_0000
    requires forall j: Index :: Present(Pde(s, c, j)) ==> Present(Pde(s', c, j))
    requires Present(Pde(s', c, DirOf(p)))
    requires |s'.free| >= |s.free| - if Present(Pde(s, c, DirOf(p))) then 0 else 1
    requires Missing(s, c, DirOf(p), DirOf(p + n - 1)) <= |s.free|
    ensures Missing(s', c, DirOf(p + 1), DirOf(p + n - 1)) <= |s'.free|
  {
    var last := DirOf(p + n - 1);
    MissingSame(s, s', c, DirOf(p) + 1, last);
    assert Missing(s, c, DirOf(p), last) ==
      (if Present(Pde(s, c, DirOf(p))) then 0 else 1) + Missing(s, c, DirOf(p) + 1, last);
    assert Missing(s', c, DirOf(p), last) == Missing(s', c, DirOf(p) + 1, last);
  }

  /** The slots of c after vmm_map_page. */
  lemma MapSlots(s: Sys, m: Sys, c: Context, p: PageNo, e: Word, t: Frame)
    requires MapStep(s, m, c, p, e, t)
    ensures forall j: Index :: Present(Pde(s, c, j)) ==> Present(Pde(m, c, j))
    ensures Present(Pde(m, c, DirOf(p)))
    ensures |m.free| >= |s.free| - if Present(Pde(s, c, DirOf(p))) then 0 else 1
  {
    forall j: Index | Present(Pde(s, c, j)) ensures Present(Pde(m, c, j)) {
      assert j != DirOf(p) ==> SameEntry(s.ram[c.Pd()][j], m.ram[c.Pd()][j]);
    }
  }

  /** The kernel slot is ready for the next remote vmm_map_page. */
  lemma RemoteAgain(s: Sys, m: Sys, s': Sys, c: Context, p: PageNo, e: Word, t: Frame)
    requires Coherent(s) && c in s.ctxs && c != s.cur && Mappable(s, c, p) && MapStep(s, m, c, p, e, t) && Present(e)
    requires UnmapStep(m, s', s.cur, KernelSlot(s)) && Mapped(s, s', c, p, FrameOf(e))
    ensures WindowReady(s') && KernelSlot(s') == KernelSlot(s) && s'.ram[c.Pd()] == m.ram[c.Pd()]
  {
    SlotSame(s, s');
    ContextFacts(s, s.cur);
    ContextFacts(s, c);
    hide KernelSlot, LowestUnmapped, Coherent, Mapped;
    var w: PageNo := KernelSlot(s);
    var tw := FrameOf(Pde(s, s.cur, DirOf(w)));
    assert m.ram[s.cur.Pd()] == s.ram[s.cur.Pd()];
    assert m.ram[tw] == s.ram[tw];
    assert SameEntry(m.ram[s.cur.Pd()][DirOf(w)], s'.ram[s.cur.Pd()][DirOf(w)]);
    var j: Index :| j != SlotOf(w) && s.ram[tw][j] != 0;
    assert s'.ram[tw][j] != 0;
  }

  lemma AreaLess(s: Sys, s': Sys, c: Context, p: PageNo, n: nat)
    requires AreaMappable(s, c, p, n) && n > 0 && s'.cur == s.cur && s'.ctxs == s.ctxs
    requires forall j: Index :: Present(Pde(s, c, j)) ==> Present(Pde(s', c, j))
    requires Present(Pde(s', c, DirOf(p)))
    requires |s'.free| >= |s.free| - if Present(Pde(s, c, DirOf(p))) then 0 else 1
    requires c != s.cur ==> WindowReady(s')
    ensures AreaMappable(s', c, p + 1, n - 1)
  {
    hide WindowReady;
    if n > 1 {
      MissingStep(s, s', c, p, n);
    }
  }

  lemma AreaRest(s: Sys, m: Sys, s': Sys, c: Context, p: PageNo, n: nat, e: Word, t: Frame)
    requires Coherent(s) && c in s.ctxs && AreaMappable(s, c, p, n) && n > 0 && Mappable(s, c, p)
    requires MapStep(s, m, c, p, e, t) && Present(e) && Mapped(s, s', c, p, FrameOf(e))
    requires if c == s.cur then s' == m else UnmapStep(m, s', s.cur, KernelSlot(s))
    ensures AreaMappable(s', c, p + 1, n - 1)
  {
    hide Coherent, KernelSlot, WindowReady, MapStep, AreaMappable, Mappable;
    MapSlots(s, m, c, p, e, t);
    if c != s.cur {
      RemoteAgain(s, m, s', c, p, e, t);
    }
    assert s'.cur == s.cur && s'.ctxs == s.ctxs && s'.free == m.free;
    hide Mapped, UnmapStep;
    AreaLess(s, s', c, p, n);
  }

  lemma AreaPages(s: Sys, c: Context, p: nat, n: nat)
    requires AreaMappable(s, c, p, n)
    ensures forall q: PageNo :: p <= q < p + n ==> DirOf(q) != SELF && (c != s.cur ==> DirOf(q) < KERNEL)
  {
  }

  lemma AreaStart(s: Sys, c: Context, p: PageNo, n: nat, f: Frame)
    requires AreaMappable(s, c, p, n)
    ensures AreaMapped(s, s, c, p, 0, f) && p + n <= 0x10_0000
  {
  }

  lemma AreaFacts(s: Sys, s': Sys, c: Context, p: PageNo, n: nat, f: Frame)
    requires p + n <= 0x10_0000 && f + n <= 0x10_0000 && AreaMapped(s, s', c, p, n, f)
    ensures s'.cur == s.cur && s'.ctxs == s.ctxs
  {
  }

  lemma PagesOn(a: Word, k: nat)
    requires a % PAGE_SIZE == 0 && a / PAGE_SIZE + k < 0x10_0000
    ensures a + k * PAGE_SIZE < 0x1_0000_0000 && (a + k * PAGE_SIZE) % PAGE_SIZE == 0
    ensures (a + k * PAGE_SIZE) / PAGE_SIZE == a / PAGE_SIZE + k
  {
  }

  // ----- separation of user halves over whole runs -----

  /** A step that is not a user mapping of d: a user mapping of another context, or an activation. */
  ghost predicate ForeignStep(s: Sys, s': Sys, d: Context) {
    || (exists c, p: PageNo, f: Frame :: c in s.ctxs && c != d && DirOf(p) < KERNEL && Mapped(s, s', c, p, f))
    || (exists c, m :: c in s.ctxs && c != s.cur && Coherent(s) && UpdateStep(s, m, c) && s' == m.(cur := c))
  }

  ghost predicate ForeignRun(states: seq<Sys>, d: Context) {
    |states| > 0 && forall i :: 0 <= i < |states| - 1 ==> ForeignStep(states[i], states[i + 1], d)
  }

  lemma ForeignStepKeeps(s: Sys, s': Sys, d: Context)
    requires d in s.ctxs && ForeignStep(s, s', d)
    ensures s'.ctxs == s.ctxs
    ensures forall q: PageNo :: DirOf(q) < KERNEL ==> Tr(s', d, q) == Tr(s, d, q)
  {
    if c, p: PageNo, f: Frame :| c in s.ctxs && c != d && DirOf(p) < KERNEL && Mapped(s, s', c, p, f) {
    } else {
      var c, m :| c in s.ctxs && c != s.cur && Coherent(s) && UpdateStep(s, m, c) && s' == m.(cur := c);
      forall q: PageNo | DirOf(q) < KERNEL ensures Tr(s', d, q) == Tr(s, d, q) {
        if d == c { UpdateWalk(s, m, c, q); } else { UpdateOther(s, m, c, d, q); }
      }
    }
  }

  /** Whatever other contexts map, and whatever is activated, d's user half stays as it is. */
  lemma {:induction false} ForeignRunKeeps(states: seq<Sys>, d: Context, q: PageNo)
    requires ForeignRun(states, d) && d in states[0].ctxs && DirOf(q) < KERNEL
    ensures d in states[|states| - 1].ctxs && Tr(states[|states| - 1], d, q) == Tr(states[0], d, q)
  {
    if |states| > 1 {
      assert ForeignStep(states[0], states[0 + 1], d);
      ForeignStepKeeps(states[0], states[1], d);
      forall i | 0 <= i < |states[1..]| - 1 ensures ForeignStep(states[1..][i], states[1..][i + 1], d) {
        assert ForeignStep(states[i + 1], states[i + 1 + 1], d);
      }
      ForeignRunKeeps(states[1..], d, q);
    }
  }
}
