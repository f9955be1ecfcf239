/** vmm_unmap_area on the kernel pages a segment was loaded through. They are unmapped in the context being
    loaded, which shares its kernel tables with the current one; each call leaves the table mapped at one
    more kernel page. */
module Unload {
  import opened Bits
  import opened Options
  import opened Mmu
  import opened Find
  import opened Mem
  import opened Spaces
  import opened Contexts
  import opened Translate
  import opened Elf
  import opened Rights

  /** The first i pages are unmapped; y is the state after the segment was loaded. */
  ghost predicate Unloading(pl: Plan, y: Sys, u: Sys, i: nat) {
    && PlanOk(pl) && i <= pl.n && pl.t + pl.n < pl.d * 1024
    && Coherent(pl.s0) && Coherent(u) && u.cur == pl.s0.cur && u.ctxs == pl.s0.ctxs
    && Loads(pl.s0, u, pl.c) && Anchored(pl.s0, pl.c, pl.d, pl.anchors)
    && (forall q: PageNo :: DirOf(q) < KERNEL ==> Tr(u, pl.c, q) == Tr(y, pl.c, q))
    && RightsKept(y, u, pl.c, VMM_USER_FLAGS)
    && u.free == y.free && u.roles == y.roles && (forall g: Frame :: g !in u.roles ==> u.ram[g] == y.ram[g])
    && Tail(u, pl.t + i, pl.d)
    && (forall q: PageNo :: pl.dp <= q < pl.dp + pl.n ==> Tr(pl.s0, pl.s0.cur, q) == None)
    && (forall q: PageNo :: pl.dp + i <= q < pl.dp + pl.n ==> Tr(u, u.cur, q).Some?)
  }

  lemma UnloadFacts(pl: Plan, y: Sys, u: Sys, i: nat)
    requires Unloading(pl, y, u, i)
    ensures PlanOk(pl) && Coherent(pl.s0) && Coherent(u) && u.cur == pl.s0.cur && u.ctxs == pl.s0.ctxs
    ensures Anchored(u, pl.c, pl.d, pl.anchors) && Tail(u, pl.t + i, pl.d) && pl.c in u.ctxs && pl.c != u.cur
    ensures forall q: PageNo :: pl.dp <= q < pl.dp + pl.n ==> Tr(pl.s0, pl.s0.cur, q) == None
    ensures forall q: PageNo :: pl.dp + i <= q < pl.dp + pl.n ==> Tr(u, u.cur, q).Some?
  {
    AnchoredKept(pl.s0, u, pl.c, pl.d, pl.anchors);
  }

  lemma UnloadPage(pl: Plan, y: Sys, u: Sys, i: nat, p: PageNo)
    requires Unloading(pl, y, u, i) && i < pl.n && p == pl.dp + i
    ensures KERNEL <= DirOf(p) < pl.d <= SELF && pl.t + i < pl.d * 1024
    ensures Tr(u, u.cur, p).Some? && Tr(pl.s0, u.cur, p) == None
  {
    hide Coherent, Loads, Anchored, Tail, Walk;
  }

  lemma UnloadReady(pl: Plan, y: Sys, u: Sys, i: nat, p: PageNo)
    requires Unloading(pl, y, u, i) && i < pl.n && p == pl.dp + i
    ensures Coherent(u) && pl.c in u.ctxs && pl.c != u.cur && KERNEL <= DirOf(p) < SELF
    ensures Present(Pde(u, pl.c, DirOf(p))) && Present(Pde(u, u.cur, DirOf(p)))
    ensures FrameOf(Pde(u, pl.c, DirOf(p))) == FrameOf(Pde(u, u.cur, DirOf(p)))
    ensures forall d :: d in u.ctxs ==> d.DirPage() != p
    ensures Room(u) && WindowReady(u) && KernelSlot(u) < SELF * 1024
    ensures KernelSlot(u) <= pl.t + i && KernelSlot(u) != p
  {
    UnloadFacts(pl, y, u, i);
    UnloadPage(pl, y, u, i, p);
    hide Unloading;
    AnchoredAt(u, pl.c, pl.d, pl.anchors, DirOf(p));
    TailSlot(u, pl.c, pl.t + i, pl.d, pl.anchors);
    NotSlot(u, p);
    hide Anchored, Tail, WindowReady, Room, KernelSlot, Walk;
    forall d | d in u.ctxs ensures d.DirPage() != p {
      ContextFacts(pl.s0, d);
    }
  }

  lemma NotSlot(u: Sys, p: PageNo)
    requires Tr(u, u.cur, p).Some?
    ensures WindowReady(u) ==> KernelSlot(u) < SELF * 1024 && KernelSlot(u) != p
  {
  }

  /** The table is mapped at the kernel slot: a step of the loading. */
  lemma WindowLoads(u: Sys, mid: Sys, s1: Sys, c: Context, e: Word, tw: Frame)
    requires Coherent(u) && c in u.ctxs && c != u.cur && WindowReady(u) && Present(e)
    requires Flagged(u, mid, c) && MapStep(mid, s1, u.cur, KernelSlot(u), e, tw)
    ensures Coherent(s1) && Loads(u, s1, c) && s1.free == u.free && s1.roles == u.roles && s1.cur == u.cur
    ensures s1.ctxs == u.ctxs
    ensures forall q: PageNo :: DirOf(q) < KERNEL ==> Tr(s1, c, q) == Tr(u, c, q)
    ensures forall q: PageNo :: DirOf(q) != SELF ==>
      Tr(s1, u.cur, q) == if q == KernelSlot(u) then Some(FrameOf(e)) else Tr(u, u.cur, q)
    ensures forall g: Frame :: g !in u.roles ==> s1.ram[g] == u.ram[g]
  {
    FlaggedLoads(u, mid, c, c);
    FlaggedKernelSlot(u, mid, c);
    MapSame(mid, s1, u.cur, KernelSlot(u), e, tw);
    var w: PageNo := KernelSlot(u);
    assert Tr(mid, mid.cur, w) == None;
    SlotNoDirectory(mid);
    hide WindowReady, KernelSlot, Flagged;
    MapCoherent(mid, s1, mid.cur, w, e, tw);
    MappedLocal(mid, s1, w, e, tw);
    LocalLoads(mid, s1, c, w, e, tw);
    hide Coherent, Mapped;
    LoadsTrans(u, mid, s1, c);
    forall q: PageNo | DirOf(q) != SELF
      ensures Tr(s1, u.cur, q) == if q == w then Some(FrameOf(e)) else Tr(u, u.cur, q)
    {
      MapOwn(mid, s1, u.cur, w, e, tw, q);
    }
  }

  lemma MapSame(s: Sys, s': Sys, c: Context, p: PageNo, e: Word, t: Frame)
    requires MapStep(s, s', c, p, e, t) && Present(Pde(s, c, DirOf(p)))
    ensures s'.free == s.free && s'.roles == s.roles && s'.cur == s.cur && s'.ctxs == s.ctxs
  {
  }

  lemma FlaggedLoads(u: Sys, mid: Sys, f: Context, c: Context)
    requires Coherent(u) && c in u.ctxs && c != u.cur && f in u.ctxs && Flagged(u, mid, f)
    ensures Coherent(mid) && Loads(u, mid, c) && mid == u.(ram := mid.ram)
    ensures forall d, q: PageNo :: d in u.ctxs && DirOf(q) != SELF ==> Tr(mid, d, q) == Tr(u, d, q)
    ensures forall i: Index :: Present(Pde(u, u.cur, i)) ==> Present(Pde(mid, u.cur, i))
    ensures forall g: Frame :: g !in u.roles ==> mid.ram[g] == u.ram[g]
  {
    FlaggedRights(u, mid, f, c, VMM_USER_FLAGS);
    hide RightsKept;
    FlaggedKeeps(u, mid, f);
    ContextFacts(u, f);
    forall i: Index, d | d in {c, u.cur} ensures SameEntry(Pde(u, d, i), Pde(mid, d, i)) {
      ContextFacts(u, d);
      assert d != f ==> mid.ram[d.Pd()] == u.ram[d.Pd()];
    }
    forall d, q: PageNo | d in u.ctxs && DirOf(q) != SELF ensures Tr(mid, d, q) == Tr(u, d, q) {
      FlaggedWalk(u, mid, f, d, q);
    }
  }

  /** The table keeps its anchor, so that vmm_unmap_page returns. */
  lemma UnloadPinned(pl: Plan, y: Sys, u: Sys, i: nat, s1: Sys, p: PageNo)
    requires Unloading(pl, y, u, i) && i < pl.n && p == pl.dp + i && Loads(u, s1, pl.c)
    ensures Pinned(s1.ram[FrameOf(Pde(u, pl.c, DirOf(p)))], SlotOf(p))
  {
    UnloadFacts(pl, y, u, i);
    UnloadPage(pl, y, u, i, p);
    AnchoredAt(pl.s0, pl.c, pl.d, pl.anchors, DirOf(p));
    AnchoredAt(u, pl.c, pl.d, pl.anchors, DirOf(p));
    hide Unloading, Coherent, Anchored, Tail;
    assert PageAt(DirOf(p), pl.anchors[DirOf(p)]) != p;
    AnchorPins(u, s1, pl.c, p, pl.anchors[DirOf(p)]);
  }

  lemma AnchorPins(u: Sys, s1: Sys, c: Context, p: PageNo, j: Index)
    requires Loads(u, s1, c) && KERNEL <= DirOf(p) < SELF && j != SlotOf(p) && Tr(u, u.cur, PageAt(DirOf(p), j)).Some?
    requires Present(Pde(u, u.cur, DirOf(p))) && Present(Pde(u, c, DirOf(p)))
    requires FrameOf(Pde(u, c, DirOf(p))) == FrameOf(Pde(u, u.cur, DirOf(p)))
    ensures Pinned(s1.ram[FrameOf(Pde(u, c, DirOf(p)))], SlotOf(p))
  {
    assert Tr(s1, u.cur, PageAt(DirOf(p), j)).Some?;
    assert FrameOf(Pde(s1, u.cur, DirOf(p))) == FrameOf(Pde(u, c, DirOf(p)));
    assert Present(s1.ram[FrameOf(Pde(u, c, DirOf(p)))][j]);
  }

  lemma RightsTrans2(s0: Sys, s1: Sys, v: Sys, c: Context)
    requires Loads(s0, s1, c) && RightsKept(s1, v, c, VMM_USER_FLAGS)
    ensures RightsKept(s0, v, c, VMM_USER_FLAGS)
  {
    RightsTrans(s0, s1, v, c, VMM_USER_FLAGS);
  }

  /** Unmapping a page that was not mapped at first. */
  lemma UnmapLoads(s0: Sys, s1: Sys, v: Sys, c: Context, p: PageNo)
    requires Coherent(s1) && c in s1.ctxs && c != s1.cur && Loads(s0, s1, c) && UnmapStep(s1, v, c, p)
    requires KERNEL <= DirOf(p) < SELF && Tr(s0, s0.cur, p) == None
    requires Present(Pde(s1, s1.cur, DirOf(p))) && FrameOf(Pde(s1, s1.cur, DirOf(p))) == FrameOf(Pde(s1, c, DirOf(p)))
    ensures Loads(s0, v, c) && v == s1.(ram := v.ram)
    ensures forall q: PageNo :: DirOf(q) < KERNEL ==> Tr(v, c, q) == Tr(s1, c, q)
    ensures forall q: PageNo :: DirOf(q) != SELF ==> Tr(v, s1.cur, q) == if q == p then None else Tr(s1, s1.cur, q)
    ensures forall g: Frame :: g !in s1.roles ==> v.ram[g] == s1.ram[g]
    ensures RightsKept(s1, v, c, VMM_USER_FLAGS)
  {
    UnmapRights(s1, v, c, p, c, VMM_USER_FLAGS);
    RightsTrans2(s0, s1, v, c);
    hide RightsKept;
    ContextFacts(s1, s1.cur);
    ContextFacts(s1, c);
    DistinctDirectories(s1, c);
    forall d, q: PageNo | d in s1.ctxs && DirOf(q) != SELF && q != p ensures Tr(v, d, q) == Tr(s1, d, q) {
      UnmapWalk(s1, v, c, p, d, q);
    }
    forall i: Index, d | d in {c, s1.cur} ensures SameEntry(Pde(s1, d, i), Pde(v, d, i)) {
      UnmapSlot(s1, v, c, p, d, i);
    }
    hide Coherent;
    assert v.ram[s1.cur.Pd()] == s1.ram[s1.cur.Pd()];
    assert Tr(v, s1.cur, p) == None;
  }

  lemma UnloadNext(pl: Plan, y: Sys, u: Sys, i: nat, mid: Sys, s1: Sys, v: Sys, p: PageNo, w: PageNo, t: Frame,
                   tw: Frame)
    requires Unloading(pl, y, u, i) && i < pl.n && Flagged(u, mid, pl.c)
    requires p == pl.dp + i && t == FrameOf(Pde(u, pl.c, DirOf(p))) && w == KernelSlot(u)
    requires MapStep(mid, s1, u.cur, w, PageEntry(t * PAGE_SIZE, VMM_KERNEL_FLAGS), tw)
    requires v == s1.(ram := Poke(s1.ram, t, SlotOf(p), 0))
    ensures Unloading(pl, y, v, i + 1)
  {
    hide Unloading, MapStep, Flagged, PageEntry, Coherent, Loads, WindowReady, Room, KernelSlot, Tail, Anchored;
    UnloadReady(pl, y, u, i, p);
    UnloadFacts(pl, y, u, i);
    WindowLoads(u, mid, s1, pl.c, PageEntry(t * PAGE_SIZE, VMM_KERNEL_FLAGS), tw);
    UnmapThrough(u, mid, s1, pl.c, p, tw);
    UnloadStep(pl, y, u, i, s1, v, p, w);
  }

  lemma UnloadStep(pl: Plan, y: Sys, u: Sys, i: nat, s1: Sys, v: Sys, p: PageNo, w: PageNo)
    requires Unloading(pl, y, u, i) && i < pl.n && p == pl.dp + i && w == KernelSlot(u) && Coherent(s1) && Coherent(v)
    requires Loads(u, s1, pl.c) && s1.free == u.free && s1.roles == u.roles && s1.cur == u.cur && s1.ctxs == u.ctxs
    requires forall q: PageNo :: DirOf(q) < KERNEL ==> Tr(s1, pl.c, q) == Tr(u, pl.c, q)
    requires forall q: PageNo :: DirOf(q) != SELF && q != w ==> Tr(s1, u.cur, q) == Tr(u, u.cur, q)
    requires Tr(s1, u.cur, w).Some?
    requires forall g: Frame :: g !in u.roles ==> s1.ram[g] == u.ram[g]
    requires UnmapStep(s1, v, pl.c, p)
    ensures Unloading(pl, y, v, i + 1)
  {
    hide UnmapStep, KernelSlot, WindowReady, Room, Walk, Coherent, Loads, RightsKept;
    UnloadLoads(pl, y, u, i, s1, v, p);
    UnloadReady(pl, y, u, i, p);
    assert v.free == y.free && v.roles == y.roles;
    UnloadTail(pl, u, s1, v, i, p, w);
    hide Tail, Anchored;
  }

  lemma UnloadLoads(pl: Plan, y: Sys, u: Sys, i: nat, s1: Sys, v: Sys, p: PageNo)
    requires Unloading(pl, y, u, i) && i < pl.n && p == pl.dp + i && Coherent(s1)
    requires Loads(u, s1, pl.c) && s1.cur == u.cur && s1.ctxs == u.ctxs && UnmapStep(s1, v, pl.c, p)
    ensures Loads(pl.s0, v, pl.c) && v == s1.(ram := v.ram)
    ensures forall q: PageNo :: DirOf(q) < KERNEL ==> Tr(v, pl.c, q) == Tr(s1, pl.c, q)
    ensures forall q: PageNo :: DirOf(q) != SELF ==> Tr(v, s1.cur, q) == if q == p then None else Tr(s1, s1.cur, q)
    ensures forall g: Frame :: g !in s1.roles ==> v.ram[g] == s1.ram[g]
    ensures RightsKept(y, v, pl.c, VMM_USER_FLAGS)
  {
    UnloadReady(pl, y, u, i, p);
    UnloadFacts(pl, y, u, i);
    AnchoredKept(u, s1, pl.c, pl.d, pl.anchors);
    LoadsTrans(pl.s0, u, s1, pl.c);
    UnloadRights(pl, y, u, i, s1);
    hide Coherent, Loads, Unloading, RightsKept;
    UnmapLoads(pl.s0, s1, v, pl.c, p);
    RightsTrans(y, s1, v, pl.c, VMM_USER_FLAGS);
  }

  lemma UnloadRights(pl: Plan, y: Sys, u: Sys, i: nat, s1: Sys)
    requires Unloading(pl, y, u, i) && Loads(u, s1, pl.c)
    ensures RightsKept(y, s1, pl.c, VMM_USER_FLAGS)
  {
    RightsTrans(y, u, s1, pl.c, VMM_USER_FLAGS);
  }

  lemma UnloadTail(pl: Plan, u: Sys, s1: Sys, v: Sys, i: nat, p: PageNo, w: PageNo)
    requires PlanOk(pl) && i < pl.n && pl.t + pl.n < pl.d * 1024 && p == pl.dp + i && v.cur == s1.cur == u.cur
    requires Tail(u, pl.t + i, pl.d) && w <= pl.t + i
    requires forall q: PageNo :: DirOf(q) != SELF && q != w ==> Tr(s1, u.cur, q) == Tr(u, u.cur, q)
    requires Tr(s1, u.cur, w).Some?
    requires forall q: PageNo :: DirOf(q) != SELF ==> Tr(v, s1.cur, q) == if q == p then None else Tr(s1, s1.cur, q)
    requires forall q: PageNo :: pl.dp + i <= q < pl.dp + pl.n ==> Tr(u, u.cur, q).Some?
    ensures Tail(v, pl.t + i + 1, pl.d)
    ensures forall q: PageNo :: pl.dp + i + 1 <= q < pl.dp + pl.n ==> Tr(v, v.cur, q).Some?
  {
    hide Walk;
  }

  // ----- a whole segment -----

  /** The search for the destination pages: the run it finds starts at t or below. */
  lemma DestRun(s: Sys, t: nat, d: nat, n: nat, q: nat)
    requires Tail(s, t, d) && n >= 1 && t + n <= d * 1024
    ensures !NotFound(s.ram, s.cur.Pd(), n, KERNEL * 1024, 0xf_ffff)
    ensures Found(s.ram, s.cur.Pd(), n, KERNEL * 1024, 0xf_ffff, q) ==>
      KERNEL * 1024 <= q <= t && FreeRun(s.ram, s.cur.Pd(), n, q)
  {
    ScanFit(s.ram, s.cur.Pd(), n, KERNEL * 1024, 0xf_ffff);
    forall k | t <= k < t + n ensures Unmapped(s.ram, s.cur.Pd(), k) {
      assert Tr(s, s.cur, k) == None;
    }
    assert FreeRun(s.ram, s.cur.Pd(), n, t);
  }

  /** After the search: the plan for the segment can start. */
  lemma PlanReady(s: Sys, pl: Plan, t: nat)
    requires Coherent(s) && Flagged(s, pl.s0, s.cur) && Tail(s, t, pl.d) && Anchored(s, pl.c, pl.d, pl.anchors)
    requires Source(s, pl.image, pl.img) && pl.c in s.ctxs && pl.c != s.cur
    requires KERNEL * 1024 <= pl.dp <= t && FreeRun(s.ram, s.cur.Pd(), pl.n, pl.dp)
    requires pl.vp.Some? ==> pl.vp.value + pl.n <= KERNEL * 1024
    requires pl.off + pl.n * PAGE_SIZE <= |pl.img| && pl.t == t + pl.n < pl.d * 1024
    ensures PlanOk(pl) && Coherent(pl.s0) && Loads(s, pl.s0, pl.c) && Anchored(pl.s0, pl.c, pl.d, pl.anchors)
    ensures forall q: PageNo :: pl.dp <= q < pl.dp + pl.n ==> Tr(pl.s0, pl.s0.cur, q) == None
    ensures forall q: PageNo :: DirOf(q) < KERNEL ==> Tr(pl.s0, pl.c, q) == Tr(s, pl.c, q)
    ensures InProgress(pl, pl.s0, [])
  {
    FlaggedLoads(s, pl.s0, s.cur, pl.c);
    AnchoredKept(s, pl.s0, pl.c, pl.d, pl.anchors);
    SourceKept(s, pl.s0, pl.c, pl.image, pl.img);
    hide Coherent, Loads, Anchored, Source;
    forall q: PageNo | pl.dp <= q < pl.dp + pl.n ensures Tr(pl.s0, pl.s0.cur, q) == None {
      assert Unmapped(s.ram, s.cur.Pd(), q);
    }
    hide Flagged;
    ProgressStart(pl);
  }

  /** All pages are mapped and copied, and the rest is cleared. */
  ghost predicate Filled(pl: Plan, y: Sys, fs: seq<Frame>, file: nat, mem: nat) {
    && |fs| == pl.n && pl.off + |fs| * PAGE_SIZE <= |pl.img| && FinalBytes(y, fs, pl.img, pl.off, file, mem)
    && (forall i :: 0 <= i < |fs| ==> fs[i] !in y.free && fs[i] !in y.roles)
    && (forall q: PageNo :: DirOf(q) < KERNEL ==>
         Tr(y, pl.c, q) == if Placed(pl.vp, |fs|, q) then Some(fs[q - pl.vp.value]) else Tr(pl.s0, pl.c, q))
    && (forall q: PageNo :: DirOf(q) < KERNEL && Placed(pl.vp, |fs|, q) ==> Allows(y, pl.c, q, VMM_USER_FLAGS))
  }

  lemma UnloadStart(pl: Plan, s: Sys, fs: seq<Frame>, y: Sys)
    requires InProgress(pl, s, fs) && |fs| == pl.n && y == s.(ram := y.ram)
    requires forall g: Frame :: g !in fs ==> y.ram[g] == s.ram[g]
    requires Coherent(pl.s0) && Anchored(pl.s0, pl.c, pl.d, pl.anchors) && pl.t + pl.n < pl.d * 1024
    requires forall q: PageNo :: pl.dp <= q < pl.dp + pl.n ==> Tr(pl.s0, pl.s0.cur, q) == None
    ensures Unloading(pl, y, y, 0)
  {
    ClearedLoads(pl, s, fs, y);
    hide Coherent, Loads, Anchored, Tail, Contents, Source;
  }

  lemma FilledStart(pl: Plan, s: Sys, fs: seq<Frame>, y: Sys, file: nat, mem: nat)
    requires InProgress(pl, s, fs) && |fs| == pl.n && y == s.(ram := y.ram)
    requires forall g: Frame :: g !in fs ==> y.ram[g] == s.ram[g]
    requires pl.off + |fs| * PAGE_SIZE <= |pl.img| && FinalBytes(y, fs, pl.img, pl.off, file, mem)
    ensures Filled(pl, y, fs, file, mem)
  {
    hide Coherent, Loads, Anchored, Tail, Contents, Source, FinalBytes;
    ClearedLoads(pl, s, fs, y);
  }

  lemma FillBytes(pl: Plan, s: Sys, fs: seq<Frame>, y: Sys, a: Word, file: nat, mem: nat)
    requires InProgress(pl, s, fs) && |fs| == pl.n && file <= mem <= pl.n * PAGE_SIZE && a == pl.dp * PAGE_SIZE + file
    requires y == s.(ram := Cleared(s.ram, s.cur.Pd(), a, mem - file))
    ensures forall g: Frame :: g !in fs ==> y.ram[g] == s.ram[g]
    ensures pl.off + |fs| * PAGE_SIZE <= |pl.img| && FinalBytes(y, fs, pl.img, pl.off, file, mem)
  {
    hide Coherent, Loads, Anchored, Tail, Source, Contents, FinalBytes, Cleared;
    ClearBytes(s, pl.dp, fs, pl.img, pl.off, file, mem);
  }

  lemma ClearedLoads(pl: Plan, s: Sys, fs: seq<Frame>, y: Sys)
    requires InProgress(pl, s, fs) && y == s.(ram := y.ram)
    requires forall g: Frame :: g !in fs ==> y.ram[g] == s.ram[g]
    ensures Loads(pl.s0, y, pl.c) && Coherent(y) && Tail(y, pl.t, pl.d) && KERNEL <= DirOf(pl.t) < SELF
    ensures forall d, q: PageNo :: d in s.ctxs && DirOf(q) != SELF ==> Tr(y, d, q) == Tr(s, d, q)
    ensures s.cur in s.ctxs && pl.c in s.ctxs && RightsKept(s, y, pl.c, VMM_USER_FLAGS)
  {
    hide Contents, Source, Anchored;
    ContextFacts(s, s.cur);
    WriteMany(pl.s0, s, y, fs, pl.c);
    hide Coherent, Loads, Segment;
  }

  /** Byte x of context c is b, in a frame that is neither free nor a table, and user programs may use it. */
  ghost predicate UserByte(s: Sys, c: Context, x: Word, b: Byte) {
    && DirOf(PageOf(x)) < KERNEL && Backed(s.ram, c.Pd(), x)
    && FrameAt(s.ram, c.Pd(), x) !in s.free && FrameAt(s.ram, c.Pd(), x) !in s.roles
    && LoadByte(s.ram, c.Pd(), x) == b && Allows(s, c, PageOf(x), VMM_USER_FLAGS)
  }

  /** The meaning of a PT_LOAD entry (System V ABI, chapter 5, Program Header): byte k of the segment is the
      image byte for k < file, and 0 for file <= k < mem. */
  ghost predicate SegmentLoaded(s: Sys, c: Context, vaddr: nat, img: seq<Byte>, off: nat, file: nat, mem: nat) {
    && vaddr + mem <= 0x1_0000_0000 && off + file <= |img|
    && forall k: nat :: k < mem ==> SegmentByteAt(s, c, vaddr, img, off, file, k)
  }

  ghost predicate SegmentByteAt(s: Sys, c: Context, vaddr: nat, img: seq<Byte>, off: nat, file: nat, k: nat)
    requires vaddr + k < 0x1_0000_0000 && off + file <= |img|
  {
    UserByte(s, c, vaddr + k, if k < file then img[off + k] else 0)
  }

  lemma SegmentDone(pl: Plan, y: Sys, u: Sys, fs: seq<Frame>, file: nat, mem: nat)
    requires Unloading(pl, y, u, pl.n) && Filled(pl, y, fs, file, mem) && file <= mem <= pl.n * PAGE_SIZE
    ensures pl.vp.Some? ==> SegmentLoaded(u, pl.c, pl.vp.value * PAGE_SIZE, pl.img, pl.off, file, mem)
    ensures forall q: PageNo :: DirOf(q) < KERNEL && !Placed(pl.vp, pl.n, q) ==>
      Tr(u, pl.c, q) == Tr(pl.s0, pl.c, q)
    ensures Loads(pl.s0, u, pl.c) && Tail(u, pl.t + pl.n, pl.d) && u.free == y.free && Coherent(u)
    ensures u.cur == pl.s0.cur && u.ctxs == pl.s0.ctxs
  {
    hide Coherent, Loads, Anchored, Tail;
    forall k: nat | pl.vp.Some? && k < mem
      ensures SegmentByteAt(u, pl.c, pl.vp.value * PAGE_SIZE, pl.img, pl.off, file, k)
    {
      DoneByte(pl, y, u, fs, file, mem, k);
    }
  }

  lemma DoneByte(pl: Plan, y: Sys, u: Sys, fs: seq<Frame>, file: nat, mem: nat, k: nat)
    requires Unloading(pl, y, u, pl.n) && Filled(pl, y, fs, file, mem) && file <= mem <= pl.n * PAGE_SIZE
    requires k < mem && pl.vp.Some?
    ensures pl.vp.value * PAGE_SIZE + k < 0x1_0000_0000
    ensures UserByte(u, pl.c, pl.vp.value * PAGE_SIZE + k, if k < file then pl.img[pl.off + k] else 0)
  {
    hide Coherent, Loads, Anchored, Tail, ByteAt;
    var i: nat, o: Offset := k / PAGE_SIZE, k % PAGE_SIZE;
    var x: Word := pl.vp.value * PAGE_SIZE + k;
    assert PageOf(x) == pl.vp.value + i && OffsetOf(x) == o && k == i * PAGE_SIZE + o;
    assert Tr(u, pl.c, pl.vp.value + i) == Tr(y, pl.c, pl.vp.value + i) == Some(fs[i]);
    assert ByteAt(y.ram[fs[i]], o) == SegmentByte(pl.img, pl.off, file, mem, i * PAGE_SIZE + o);
  }

  /** A loaded segment stays loaded while other pages are loaded. */
  lemma SegmentKept(s: Sys, s': Sys, c: Context, vaddr: nat, img: seq<Byte>, off: nat, file: nat, mem: nat)
    requires SegmentLoaded(s, c, vaddr, img, off, file, mem) && Loads(s, s', c)
    requires forall q: PageNo :: vaddr / PAGE_SIZE <= q && q * PAGE_SIZE < vaddr + mem ==> Tr(s', c, q) == Tr(s, c, q)
    ensures SegmentLoaded(s', c, vaddr, img, off, file, mem)
  {
    forall k: nat | k < mem ensures SegmentByteAt(s', c, vaddr, img, off, file, k) {
      assert SegmentByteAt(s, c, vaddr, img, off, file, k);
      assert Tr(s', c, PageOf(vaddr + k)) == Tr(s, c, PageOf(vaddr + k));
    }
  }
}
