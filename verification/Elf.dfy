/** Loading an ELF image into a context that is not current, through a run of kernel pages. */
module Elf {
  import opened Bits
  import opened Options
  import opened Mmu
  import opened Find
  import opened Mem
  import opened Spaces
  import opened Contexts
  import opened Translate
  import opened Rights

  // ----- what the loader needs of the kernel half -----

  /** Every kernel page from t up to directory slot d is unmapped. */
  ghost predicate Tail(s: Sys, t: nat, d: nat) {
    && KERNEL * 1024 <= t <= d * 1024 && d <= SELF
    && forall q: PageNo :: t <= q < d * 1024 ==> Tr(s, s.cur, q) == None
  }

  /** Up to slot d the kernel tables exist, are shared by c and the current context, and each keeps a mapped
      page at its anchor. */
  ghost predicate Anchored(s: Sys, c: Context, d: nat, anchors: seq<Index>) {
    && |anchors| == 1024 && d <= SELF
    && forall i: Index :: KERNEL <= i < d ==>
      && Present(Pde(s, s.cur, i)) && Present(Pde(s, c, i)) && FrameOf(Pde(s, c, i)) == FrameOf(Pde(s, s.cur, i))
      && Tr(s, s.cur, PageAt(i, anchors[i])).Some?
  }

  /** The same of the current context alone. */
  ghost predicate Anchors(s: Sys, d: nat, anchors: seq<Index>) {
    && |anchors| == 1024 && d <= SELF
    && forall i: Index :: KERNEL <= i < d ==> Tr(s, s.cur, PageAt(i, anchors[i])).Some?
  }

  /** A new context that shares the kernel tables can be loaded. */
  lemma CreatedAnchored(s: Sys, s': Sys, c: Context, d: nat, anchors: seq<Index>)
    requires Anchors(s, d, anchors) && Keeps(s, s', s.ctxs) && SameTables(s', c)
    ensures Anchored(s', c, d, anchors)
  {
    forall i: Index | KERNEL <= i < d
      ensures Present(Pde(s', s'.cur, i)) && Pde(s', c, i) == Pde(s', s'.cur, i)
      ensures Tr(s', s'.cur, PageAt(i, anchors[i])).Some?
    {
      assert Tr(s, s.cur, PageAt(i, anchors[i])).Some?;
      assert DirOf(PageAt(i, anchors[i])) == i;
    }
  }

  lemma CreatedTail(s: Sys, s': Sys, t: nat, d: nat)
    requires Tail(s, t, d) && t + 2 <= d * 1024 && TwoTaken(s, s') && s'.cur == s.cur
    ensures Tail(s', t + 2, d)
  {
    forall q: PageNo | t <= q < d * 1024 ensures q in KernelPages(s) {}
    forall q: PageNo | t + 2 <= q < d * 1024 ensures Tr(s', s'.cur, q) == None {
      assert t in KernelPages(s) && t + 1 in KernelPages(s);
      assert q in KernelPages(s');
    }
  }

  /** There are kernel pages for the context structure and the directory. */
  lemma TailPages(s: Sys, t: nat, d: nat)
    requires Tail(s, t, d) && t + 2 <= d * 1024
    ensures |KernelPages(s)| >= 2
  {
    var two: set<PageNo> := {t, t + 1};
    assert two <= KernelPages(s);
    SmallerSet(two, KernelPages(s));
    assert |two| == 2;
  }

  lemma {:induction false} SmallerSet(a: set<PageNo>, b: set<PageNo>)
    requires a <= b
    ensures |a| <= |b|
  {
    if a != {} {
      var x :| x in a;
      SmallerSet(a - {x}, b - {x});
    }
  }

  lemma AnchoredAt(s: Sys, c: Context, d: nat, anchors: seq<Index>, i: Index)
    requires Anchored(s, c, d, anchors) && KERNEL <= i < d
    ensures Present(Pde(s, s.cur, i)) && Present(Pde(s, c, i)) && FrameOf(Pde(s, c, i)) == FrameOf(Pde(s, s.cur, i))
    ensures |anchors| == 1024 && Tr(s, s.cur, PageAt(i, anchors[i])).Some?
  {
  }

  lemma SlotBelow(s: Sys, t: PageNo)
    requires KERNEL <= DirOf(t) < SELF && Tr(s, s.cur, t) == None
    ensures KernelSlot(s) <= t
  {
    assert Unmapped(s.ram, s.cur.Pd(), t);
  }

  lemma TailSlot(s: Sys, c: Context, t: nat, d: nat, anchors: seq<Index>)
    requires Tail(s, t, d) && t < d * 1024 && Anchored(s, c, d, anchors)
    ensures KernelSlot(s) <= t && WindowReady(s) && Room(s)
  {
    SlotBelow(s, t);
    var w: PageNo := KernelSlot(s);
    var i, j := DirOf(w), anchors[DirOf(w)];
    assert Tr(s, s.cur, PageAt(i, j)).Some?;
    assert j != SlotOf(w) && s.ram[FrameOf(Pde(s, s.cur, i))][j] != 0;
  }

  // ----- what the loader keeps -----

  /** Kernel directory slots of c and of the current context hold the same tables as before. */
  ghost predicate SlotsKept(s: Sys, s': Sys, c: Context) {
    forall i: Index :: KERNEL <= i && i != SELF && Present(Pde(s, s.cur, i)) && Present(Pde(s, c, i)) ==>
      && Present(Pde(s', s.cur, i)) && FrameOf(Pde(s', s.cur, i)) == FrameOf(Pde(s, s.cur, i))
      && Present(Pde(s', c, i)) && FrameOf(Pde(s', c, i)) == FrameOf(Pde(s, c, i))
  }

  ghost predicate Loads(s: Sys, s': Sys, c: Context) {
    && Keeps(s, s', s.ctxs - {c}) && s'.ctxs == s.ctxs && SlotsKept(s, s', c) && FramesKept(s, s')
    && RightsKept(s, s', c, VMM_USER_FLAGS)
  }

  lemma LoadsRefl(s: Sys, c: Context)
    ensures Loads(s, s, c)
  {
  }

  lemma LoadsTrans(s: Sys, m: Sys, s': Sys, c: Context)
    requires Loads(s, m, c) && Loads(m, s', c)
    ensures Loads(s, s', c)
  {
    KeepsTrans(s, m, s', s.ctxs - {c});
    RightsTrans(s, m, s', c, VMM_USER_FLAGS);
  }

  lemma AnchoredKept(s: Sys, s': Sys, c: Context, d: nat, anchors: seq<Index>)
    requires Anchored(s, c, d, anchors) && Loads(s, s', c)
    ensures Anchored(s', c, d, anchors)
  {
    forall i: Index | KERNEL <= i < d ensures Tr(s', s.cur, PageAt(i, anchors[i])).Some? {
      assert Tr(s, s.cur, PageAt(i, anchors[i])).Some?;
    }
  }

  /** The image: kernel pages whose frames are neither free nor tables. */
  ghost predicate Source(s: Sys, a: Word, img: seq<Byte>) {
    && a + |img| <= 0x1_0000_0000
    && forall k: nat :: k < |img| ==> SourceByte(s, a + k, img[k])
  }

  ghost predicate SourceByte(s: Sys, x: Word, b: Byte) {
    && KERNEL <= DirOf(PageOf(x)) != SELF && Backed(s.ram, s.cur.Pd(), x)
    && FrameAt(s.ram, s.cur.Pd(), x) !in s.free && FrameAt(s.ram, s.cur.Pd(), x) !in s.roles
    && LoadByte(s.ram, s.cur.Pd(), x) == b
  }

  lemma SourceKept(s: Sys, s': Sys, c: Context, a: Word, img: seq<Byte>)
    requires Source(s, a, img) && Loads(s, s', c)
    ensures Source(s', a, img)
  {
    KeepsLess(s, s', s.ctxs - {c}, {});
    SourceStays(s, s', a, img);
  }

  lemma SourceStays(s: Sys, s': Sys, a: Word, img: seq<Byte>)
    requires Source(s, a, img) && Keeps(s, s', {}) && FramesKept(s, s')
    ensures Source(s', a, img)
  {
    forall k: nat | k < |img| ensures SourceByte(s', a + k, img[k]) {
      var x: Word := a + k;
      assert SourceByte(s, x, img[k]);
      assert Tr(s', s.cur, PageOf(x)) == Tr(s, s.cur, PageOf(x));
    }
  }

  // ----- the steps of the inner loop -----

  lemma AllocLoads(s: Sys, f: Frame, c: Context)
    requires Coherent(s) && f in s.free
    ensures Loads(s, s.(free := s.free - {f}), c)
  {
  }

  lemma SlotKept(s: Sys, m: Sys, c: Context, p: PageNo, e: Word, t: Frame, d: Context, i: Index)
    requires Coherent(s) && c in s.ctxs && d in s.ctxs && MapStep(s, m, c, p, e, t) && DirOf(p) != SELF
    requires Present(Pde(s, d, i))
    ensures Present(Pde(m, d, i)) && FrameOf(Pde(m, d, i)) == FrameOf(Pde(s, d, i))
  {
    if d != c {
      MapDirectories(s, m, c, p, e, t, d);
    } else {
      assert i != DirOf(p) ==> SameEntry(s.ram[c.Pd()][i], m.ram[c.Pd()][i]);
    }
  }

  /** vmm_map_page into the other context. */
  lemma RemoteLoads(s: Sys, m: Sys, s': Sys, c: Context, p: PageNo, e: Word, t: Frame)
    requires Coherent(s) && c in s.ctxs && c != s.cur && DirOf(p) < KERNEL && Present(e) && KernelSlot(s) < SELF * 1024
    requires MapStep(s, m, c, p, e, t) && UnmapStep(m, s', s.cur, KernelSlot(s)) && Mapped(s, s', c, p, FrameOf(e))
    requires Coherent(m) && FlagsKept(VMM_USER_FLAGS, e)
    ensures Loads(s, s', c)
  {
    hide Walk, ContextOk, DirectoryOk, RightsKept;
    RemoteRights(s, m, s', c, p, e, t);
    hide RightsKept;
    ContextFacts(s, s.cur);
    ContextFacts(s, c);
    MapFacts(s, m, c, p, e, t);
    forall i: Index, d | d in {c, s.cur} && KERNEL <= i && Present(Pde(s, d, i))
      ensures Present(Pde(s', d, i)) && FrameOf(Pde(s', d, i)) == FrameOf(Pde(s, d, i))
    {
      SlotKept(s, m, c, p, e, t, d, i);
      UnmapSlot(m, s', s.cur, KernelSlot(s), d, i);
    }
  }

  lemma RemoteRights(s: Sys, m: Sys, s': Sys, c: Context, p: PageNo, e: Word, t: Frame)
    requires Coherent(s) && c in s.ctxs && c != s.cur && DirOf(p) < KERNEL && KernelSlot(s) < SELF * 1024
    requires MapStep(s, m, c, p, e, t) && UnmapStep(m, s', s.cur, KernelSlot(s)) && Coherent(m)
    requires FlagsKept(VMM_USER_FLAGS, e)
    ensures RightsKept(s, s', c, VMM_USER_FLAGS)
  {
    hide Coherent, MapStep, UnmapStep, RightsKept, FlagsKept;
    MapRights(s, m, c, p, e, t, c, VMM_USER_FLAGS);
    MapFacts(s, m, c, p, e, t);
    ContextFacts(s, s.cur);
    UnmapRights(m, s', s.cur, KernelSlot(s), c, VMM_USER_FLAGS);
    RightsTrans(s, m, s', c, VMM_USER_FLAGS);
  }

  lemma UnmapSlot(s: Sys, s': Sys, c: Context, p: PageNo, d: Context, i: Index)
    requires Coherent(s) && c in s.ctxs && d in s.ctxs && UnmapStep(s, s', c, p) && DirOf(p) != SELF
    ensures SameEntry(Pde(s, d, i), Pde(s', d, i))
  {
    ContextFacts(s, c);
    ContextFacts(s, d);
    assert SameEntry(s.ram[c.Pd()][i], s'.ram[c.Pd()][i]);
    assert d.Pd() != c.Pd() ==> s'.ram[d.Pd()] == s.ram[d.Pd()];
  }

  /** vmm_map_page of a kernel page that was unmapped. */
  lemma LocalLoads(s: Sys, s': Sys, c: Context, p: PageNo, e: Word, t: Frame)
    requires Coherent(s) && c in s.ctxs && c != s.cur && KERNEL <= DirOf(p) < SELF && Present(e)
    requires Tr(s, s.cur, p) == None
    requires MapStep(s, s', s.cur, p, e, t) && Mapped(s, s', s.cur, p, FrameOf(e))
    ensures Loads(s, s', c)
    ensures forall q: PageNo :: DirOf(q) < KERNEL ==> Tr(s', c, q) == Tr(s, c, q)
  {
    ContextFacts(s, s.cur);
    MapRights(s, s', s.cur, p, e, t, c, VMM_USER_FLAGS);
    hide RightsKept;
    forall i: Index, d | d in {c, s.cur} && KERNEL <= i && Present(Pde(s, d, i))
      ensures Present(Pde(s', d, i)) && FrameOf(Pde(s', d, i)) == FrameOf(Pde(s, d, i))
    {
      SlotKept(s, s', s.cur, p, e, t, d, i);
    }
  }

  /** Writing a frame that is neither a table nor, in s, in use. */
  lemma WriteLoads(s: Sys, m: Sys, f: Frame, x: Table, c: Context)
    requires Coherent(m) && c in m.ctxs && Loads(s, m, c) && f in s.free && f !in m.roles
    ensures var y := m.(ram := m.ram[f := x]);
      && Loads(s, y, c) && Coherent(y)
      && (forall d, q: PageNo :: d in m.ctxs && DirOf(q) != SELF ==> Tr(y, d, q) == Tr(m, d, q))
      && RightsKept(m, y, c, VMM_USER_FLAGS)
  {
    hide Walk, RightsKept, Coherent, Loads;
    WriteMany(s, m, m.(ram := m.ram[f := x]), [f], c);
  }

  lemma RemoteStep(s: Sys, m: Sys, s': Sys, c: Context, p: PageNo, e: Word, t: Frame)
    requires Coherent(s) && c in s.ctxs && c != s.cur && Present(e) && Mappable(s, c, p)
    requires MapStep(s, m, c, p, e, t) && UnmapStep(m, s', s.cur, KernelSlot(s)) && Mapped(s, s', c, p, FrameOf(e))
    requires FlagsKept(VMM_USER_FLAGS, e)
    ensures Loads(s, s', c) && |s'.free| >= |s.free| - 1 && s'.cur == s.cur && s'.ctxs == s.ctxs
    ensures forall q: PageNo :: DirOf(q) != SELF ==> Tr(s', s.cur, q) == Tr(s, s.cur, q)
  {
    MapSlots(s, m, c, p, e, t);
    MapCoherent(s, m, c, p, e, t);
    RemoteLoads(s, m, s', c, p, e, t);
  }

  lemma LocalStep(s: Sys, s': Sys, c: Context, p: PageNo, e: Word, t: Frame)
    requires Coherent(s) && c in s.ctxs && c != s.cur && KERNEL <= DirOf(p) < SELF && Present(e)
    requires Tr(s, s.cur, p) == None
    requires MapStep(s, s', s.cur, p, e, t) && Mapped(s, s', s.cur, p, FrameOf(e))
    ensures Loads(s, s', c) && |s'.free| >= |s.free| - 1
  {
    LocalLoads(s, s', c, p, e, t);
    MapSlots(s, s', s.cur, p, e, t);
  }

  /** Page i of a segment that starts at page vp, if it can be mapped at all. */
  function Target(vp: Option<nat>, i: nat): Option<nat> {
    match vp case None => None case Some(v) => Some(v + i)
  }

  /** q is one of the first n pages. */
  predicate Placed(vp: Option<nat>, n: nat, q: nat): (b: bool)
    ensures b ==> vp.Some? && 0 <= q - vp.value < n
  {
    vp.Some? && vp.value <= q < vp.value + n
  }

  /** One frame f mapped at page v of c, unless it has none, and at kernel page p of the current context. */
  ghost predicate PairMapped(s: Sys, e: Sys, c: Context, v: Option<nat>, p: PageNo, f: Frame) {
    && Coherent(e) && Loads(s, e, c) && f in s.free && f !in e.free && f !in e.roles
    && (forall q: PageNo :: DirOf(q) < KERNEL ==> Tr(e, c, q) == if v == Some(q) then Some(f) else Tr(s, c, q))
    && (forall q: PageNo :: KERNEL <= DirOf(q) != SELF ==>
         Tr(e, s.cur, q) == if q == p then Some(f) else Tr(s, s.cur, q))
    && (forall g: Frame :: g !in e.roles ==> e.ram[g] == s.ram[g])
    && (v.Some? && v.value < KERNEL * 1024 ==> Allows(e, c, v.value, VMM_USER_FLAGS))
  }

  lemma PairStep(s: Sys, a: Sys, b: Sys, e: Sys, c: Context, v: Option<nat>, p: PageNo, f: Frame)
    requires Coherent(s) && f in s.free && a == s.(free := s.free - {f}) && c in s.ctxs && c != s.cur
    requires KERNEL <= DirOf(p) != SELF
    requires match v
      case None => b == a
      case Some(q) => q < KERNEL * 1024 && Mapped(a, b, c, q, f) && Allows(b, c, q, VMM_USER_FLAGS)
    requires Mapped(b, e, s.cur, p, f)
    requires Loads(a, b, c) && Loads(b, e, c) && Coherent(e)
    ensures PairMapped(s, e, c, v, p, f)
  {
    hide Loads, Coherent, Allows;
    AllocLoads(s, f, c);
    LoadsTrans(s, a, b, c);
    LoadsTrans(s, b, e, c);
    if v.Some? {
      LoadsRights(b, e, c, v.value);
    }
    forall q: PageNo | DirOf(q) < KERNEL ensures Tr(e, c, q) == if v == Some(q) then Some(f) else Tr(s, c, q) {
      assert Tr(a, c, q) == Tr(s, c, q) && Tr(e, c, q) == Tr(b, c, q);
    }
    forall q: PageNo | KERNEL <= DirOf(q) != SELF
      ensures Tr(e, s.cur, q) == if q == p then Some(f) else Tr(s, s.cur, q)
    {
      assert Tr(a, s.cur, q) == Tr(s, s.cur, q) && Tr(b, s.cur, q) == Tr(a, s.cur, q);
    }
    CoherentApart(s, f);
  }

  lemma LoadsRights(s: Sys, s': Sys, c: Context, q: PageNo)
    requires Loads(s, s', c) && DirOf(q) < KERNEL
    ensures Allows(s, c, q, VMM_USER_FLAGS) ==> Allows(s', c, q, VMM_USER_FLAGS)
  {
  }

  lemma CoherentApart(s: Sys, f: Frame)
    requires Coherent(s) && f in s.free
    ensures f !in s.roles && f != 0
  {
  }

  // ----- a segment being loaded -----

  /** Since s0, pages vp.. of c, unless there are none, and kernel pages dp.. have been mapped to the fresh
      frames fs, which hold the image bytes from off on. */
  ghost predicate Segment(s0: Sys, s: Sys, c: Context, vp: Option<nat>, dp: nat, fs: seq<Frame>) {
    && Coherent(s) && c in s.ctxs && c != s.cur && Loads(s0, s, c)
    && (forall i, j :: 0 <= i < j < |fs| ==> fs[i] != fs[j])
    && (forall i :: 0 <= i < |fs| ==> fs[i] in s0.free && fs[i] !in s.free && fs[i] !in s.roles)
    && (forall q: PageNo :: dp <= q < dp + |fs| ==> Tr(s, s.cur, q) == Some(fs[q - dp]))
    && (forall q: PageNo :: DirOf(q) < KERNEL ==>
         Tr(s, c, q) == if Placed(vp, |fs|, q) then Some(fs[q - vp.value]) else Tr(s0, c, q))
    && (forall q: PageNo :: DirOf(q) < KERNEL && Placed(vp, |fs|, q) ==> Allows(s, c, q, VMM_USER_FLAGS))
  }

  ghost predicate Contents(s: Sys, fs: seq<Frame>, img: seq<Byte>, off: nat)
    requires off + |fs| * PAGE_SIZE <= |img|
  {
    forall i: nat, k: Offset :: i < |fs| ==> ByteAt(s.ram[fs[i]], k) == img[off + i * PAGE_SIZE + k]
  }

  lemma SegmentNext(s0: Sys, s: Sys, e: Sys, c: Context, vp: Option<nat>, dp: nat, fs: seq<Frame>, f: Frame, x: Table)
    requires KERNEL * 1024 <= dp && dp + |fs| < SELF * 1024
    requires Segment(s0, s, c, vp, dp, fs) && PairMapped(s, e, c, Target(vp, |fs|), dp + |fs|, f)
    ensures Segment(s0, e.(ram := e.ram[f := x]), c, vp, dp, fs + [f])
    ensures forall i :: 0 <= i < |fs| ==> e.ram[f := x][fs[i]] == s.ram[fs[i]] && fs[i] != f
  {
    hide Coherent, Loads, Walk, PairMapped, Placed, Target, Segment, Allows;
    SegmentFrames(s0, s, e, c, vp, dp, fs, f, x);
    var y, fs' := e.(ram := e.ram[f := x]), fs + [f];
    forall q: PageNo ensures SegmentPage(s0, y, c, vp, dp, fs', q) {
      SegmentPageNext(s0, s, e, c, vp, dp, fs, f, x, q);
    }
    SegmentJoin(s0, y, c, vp, dp, fs');
  }

  /** What a segment says about one page. */
  ghost predicate SegmentPage(s0: Sys, s: Sys, c: Context, vp: Option<nat>, dp: nat, fs: seq<Frame>, q: PageNo) {
    && (dp <= q < dp + |fs| ==> Tr(s, s.cur, q) == Some(fs[q - dp]))
    && (DirOf(q) < KERNEL ==> Tr(s, c, q) == if Placed(vp, |fs|, q) then Some(fs[q - vp.value]) else Tr(s0, c, q))
    && (DirOf(q) < KERNEL && Placed(vp, |fs|, q) ==> Allows(s, c, q, VMM_USER_FLAGS))
  }

  ghost predicate SegmentState(s0: Sys, s: Sys, c: Context, fs: seq<Frame>) {
    && Coherent(s) && c in s.ctxs && c != s.cur && Loads(s0, s, c)
    && (forall i, j :: 0 <= i < j < |fs| ==> fs[i] != fs[j])
    && (forall i :: 0 <= i < |fs| ==> fs[i] in s0.free && fs[i] !in s.free && fs[i] !in s.roles)
  }

  lemma SegmentJoin(s0: Sys, s: Sys, c: Context, vp: Option<nat>, dp: nat, fs: seq<Frame>)
    requires SegmentState(s0, s, c, fs) && forall q: PageNo :: SegmentPage(s0, s, c, vp, dp, fs, q)
    ensures Segment(s0, s, c, vp, dp, fs)
  {
    hide Coherent, Loads, Walk, Placed, Allows;
    forall q: PageNo
      ensures dp <= q < dp + |fs| ==> Tr(s, s.cur, q) == Some(fs[q - dp])
      ensures DirOf(q) < KERNEL && Placed(vp, |fs|, q) ==>
        Tr(s, c, q) == Some(fs[q - vp.value]) && Allows(s, c, q, VMM_USER_FLAGS)
      ensures DirOf(q) < KERNEL && !Placed(vp, |fs|, q) ==> Tr(s, c, q) == Tr(s0, c, q)
    {
      assert SegmentPage(s0, s, c, vp, dp, fs, q);
    }
  }

  lemma SegmentFrames(s0: Sys, s: Sys, e: Sys, c: Context, vp: Option<nat>, dp: nat, fs: seq<Frame>, f: Frame, x: Table)
    requires KERNEL * 1024 <= dp && dp + |fs| < SELF * 1024
    requires Segment(s0, s, c, vp, dp, fs) && PairMapped(s, e, c, Target(vp, |fs|), dp + |fs|, f)
    ensures SegmentState(s0, e.(ram := e.ram[f := x]), c, fs + [f])
    ensures forall i :: 0 <= i < |fs| ==> e.ram[f := x][fs[i]] == s.ram[fs[i]] && fs[i] != f
  {
    hide Coherent, Loads, Walk, Placed, Target, Allows, RightsKept;
    LoadsFrames(s0, s, c);
    LoadsFrames(s, e, c);
    LoadsTrans(s0, s, e, c);
    WriteLoads(s0, e, f, x, c);
  }

  lemma SegmentPageNext(s0: Sys, s: Sys, e: Sys, c: Context, vp: Option<nat>, dp: nat, fs: seq<Frame>, f: Frame,
                        x: Table, q: PageNo)
    requires KERNEL * 1024 <= dp && dp + |fs| < SELF * 1024
    requires Segment(s0, s, c, vp, dp, fs) && PairMapped(s, e, c, Target(vp, |fs|), dp + |fs|, f)
    ensures SegmentPage(s0, e.(ram := e.ram[f := x]), c, vp, dp, fs + [f], q)
  {
    hide Coherent, Loads, Walk, Placed, Target, Allows, RightsKept;
    LoadsFrames(s0, s, c);
    LoadsFrames(s, e, c);
    LoadsTrans(s0, s, e, c);
    WriteLoads(s0, e, f, x, c);
    WriteCurrent(e, c);
    var y := e.(ram := e.ram[f := x]);
    if DirOf(q) < KERNEL {
      assert Tr(y, c, q) == Tr(e, c, q);
      SegmentRights(s0, s, e, c, vp, dp, fs, f, x, q);
      PlacedNext(vp, fs, f, q, Tr(s0, c, q), Tr(s, c, q), Tr(e, c, q));
    }
    if dp <= q <= dp + |fs| {
      assert Tr(y, y.cur, q) == Tr(e, s.cur, q);
    }
  }

  lemma SegmentRights(s0: Sys, s: Sys, e: Sys, c: Context, vp: Option<nat>, dp: nat, fs: seq<Frame>, f: Frame,
                      x: Table, q: PageNo)
    requires dp + |fs| < SELF * 1024 && DirOf(q) < KERNEL
    requires Segment(s0, s, c, vp, dp, fs) && PairMapped(s, e, c, Target(vp, |fs|), dp + |fs|, f)
    ensures Placed(vp, |fs + [f]|, q) ==> Allows(e.(ram := e.ram[f := x]), c, q, VMM_USER_FLAGS)
  {
    hide Coherent, Loads, Walk, Allows;
    LoadsRights(s, e, c, q);
    LoadsFrames(s, e, c);
    WriteRights(e, e.(ram := e.ram[f := x]), c, VMM_USER_FLAGS);
    assert Placed(vp, |fs + [f]|, q) ==> Placed(vp, |fs|, q) || Target(vp, |fs|) == Some(q);
  }

  lemma WriteCurrent(e: Sys, c: Context)
    requires Coherent(e)
    ensures e.cur in e.ctxs
  {
  }

  lemma LoadsFrames(s: Sys, s': Sys, c: Context)
    requires Loads(s, s', c)
    ensures s'.cur == s.cur && s'.ctxs == s.ctxs && s'.free <= s.free
    ensures forall g: Frame :: g !in s.roles && g !in s.free ==> g !in s'.roles
  {
  }

  /** The translation of one page before the segment, before this page of it, and after. */
  lemma PlacedNext(vp: Option<nat>, fs: seq<Frame>, f: Frame, q: nat,
                   first: Option<Frame>, before: Option<Frame>, now: Option<Frame>)
    requires before == if Placed(vp, |fs|, q) then Some(fs[q - vp.value]) else first
    requires now == if Target(vp, |fs|) == Some(q) then Some(f) else before
    ensures now == if Placed(vp, |fs + [f]|, q) then Some((fs + [f])[q - vp.value]) else first
  {
  }

  lemma ContentsNext(s: Sys, y: Sys, fs: seq<Frame>, f: Frame, img: seq<Byte>, off: nat)
    requires off + (|fs| + 1) * PAGE_SIZE <= |img| && Contents(s, fs, img, off)
    requires forall i :: 0 <= i < |fs| ==> y.ram[fs[i]] == s.ram[fs[i]]
    requires forall k: Offset :: ByteAt(y.ram[f], k) == img[off + |fs| * PAGE_SIZE + k]
    ensures Contents(y, fs + [f], img, off)
  {
    forall i: nat, k: Offset | i < |fs + [f]| ensures ByteAt(y.ram[(fs + [f])[i]], k) == img[off + i * PAGE_SIZE + k] {
      if i < |fs| {
        assert ByteAt(s.ram[fs[i]], k) == img[off + i * PAGE_SIZE + k];
      }
    }
  }

  /** The memcpy of one page: its effect is a frame with the image's bytes. */
  ghost predicate HasBytes(x: Table, img: seq<Byte>, o: nat)
    requires o + PAGE_SIZE <= |img|
  {
    forall k: Offset :: ByteAt(x, k) == img[o + k]
  }

  /** The frame that holds image byte k. */
  function SourceFrame(s: Sys, a: Word, k: nat): Frame
    requires a + k < 0x1_0000_0000
  {
    FrameAt(s.ram, s.cur.Pd(), a + k)
  }

  lemma CopyableSource(e: Sys, dest: Word, f: Frame, a: Word, img: seq<Byte>, o: nat)
    requires Coherent(e) && Source(e, a, img) && o + PAGE_SIZE <= |img|
    requires OffsetOf(dest) == 0 && DirOf(PageOf(dest)) != SELF && Tr(e, e.cur, PageOf(dest)) == Some(f)
    requires f !in e.roles
    requires forall k: nat :: k < |img| ==> SourceFrame(e, a, k) != f
    ensures dest + PAGE_SIZE <= 0x1_0000_0000 && a + o + PAGE_SIZE <= 0x1_0000_0000
    ensures Copyable(e.ram, e.cur.Pd(), dest, a + o, PAGE_SIZE)
  {
    ContextFacts(e, e.cur);
    forall y: Word | dest <= y < dest + PAGE_SIZE ensures PageOf(y) == PageOf(dest) {}
    forall y: Word | a + o <= y < a + o + PAGE_SIZE
      ensures Aside(e.ram, e.cur.Pd(), f, PageOf(y)) && FrameAt(e.ram, e.cur.Pd(), y) != f
      ensures Backed(e.ram, e.cur.Pd(), y)
    {
      assert SourceByte(e, a + (y - a), img[y - a]);
      assert SourceFrame(e, a, y - a) != f;
    }
    assert Aside(e.ram, e.cur.Pd(), f, PageOf(dest));
    hide Coherent, ContextOk, DirectoryOk, Source, SourceByte, SourceFrame, Aside;
  }

  lemma CopySource(e: Sys, dest: Word, f: Frame, a: Word, img: seq<Byte>, o: nat) returns (x: Table)
    requires Source(e, a, img) && o + PAGE_SIZE <= |img|
    requires OffsetOf(dest) == 0 && Tr(e, e.cur, PageOf(dest)) == Some(f)
    ensures dest + PAGE_SIZE <= 0x1_0000_0000 && a + o + PAGE_SIZE <= 0x1_0000_0000
    ensures Copied(e.ram, e.cur.Pd(), dest, a + o, PAGE_SIZE) == e.ram[f := x] && HasBytes(x, img, o)
  {
    hide Copied, ByteAt, LoadByte, Backed, FrameAt, PageOf;
    CopiedAnywhere(e.ram, e.cur.Pd(), dest, a + o, f, PAGE_SIZE);
    x := Copied(e.ram, e.cur.Pd(), dest, a + o, PAGE_SIZE)[f];
    hide Walk, SourceByte, Source;
    forall k: Offset ensures ByteAt(x, k) == img[o + k] {
      SourceLoad(e, a, img, o + k);
    }
  }

  lemma SourceLoad(e: Sys, a: Word, img: seq<Byte>, k: nat)
    requires Source(e, a, img) && k < |img|
    ensures a + k < 0x1_0000_0000 && LoadByte(e.ram, e.cur.Pd(), a + k) == img[k]
  {
    assert SourceByte(e, a + k, img[k]);
  }

  // ----- the loop over the pages of one segment -----

  /** Pages vp.. of c, unless there are none, are loaded through kernel pages dp.. with the image bytes from off
      on; n pages in all. s0 is the state before the loop. */
  datatype Plan = Plan(s0: Sys, c: Context, vp: Option<nat>, dp: nat, n: nat, image: Word, img: seq<Byte>, off: nat,
                       t: nat, d: nat, anchors: seq<Index>)

  ghost predicate PlanOk(pl: Plan) {
    && pl.c in pl.s0.ctxs && pl.c != pl.s0.cur
    && (pl.vp.Some? ==> pl.vp.value + pl.n <= KERNEL * 1024)
    && KERNEL * 1024 <= pl.dp && pl.dp + pl.n <= pl.t < pl.d * 1024 && pl.d <= SELF
    && pl.off + pl.n * PAGE_SIZE <= |pl.img|
  }

  ghost predicate InProgress(pl: Plan, s: Sys, fs: seq<Frame>) {
    && PlanOk(pl) && |fs| <= pl.n
    && Segment(pl.s0, s, pl.c, pl.vp, pl.dp, fs) && Contents(s, fs, pl.img, pl.off)
    && Source(s, pl.image, pl.img) && Tail(s, pl.t, pl.d) && Anchored(s, pl.c, pl.d, pl.anchors)
    && (forall q: PageNo :: pl.dp + |fs| <= q < pl.dp + pl.n ==> Tr(s, s.cur, q) == None)
    && s.cur == pl.s0.cur && s.ctxs == pl.s0.ctxs
  }

  lemma ProgressStart(pl: Plan)
    requires PlanOk(pl) && Coherent(pl.s0) && Source(pl.s0, pl.image, pl.img) && Tail(pl.s0, pl.t, pl.d)
    requires Anchored(pl.s0, pl.c, pl.d, pl.anchors)
    requires forall q: PageNo :: pl.dp <= q < pl.dp + pl.n ==> Tr(pl.s0, pl.s0.cur, q) == None
    ensures InProgress(pl, pl.s0, [])
  {
    LoadsRefl(pl.s0, pl.c);
  }

  /** The next pair of pages can be mapped: remotely at v, then at the unmapped kernel page p. */
  lemma ProgressPages(pl: Plan, s: Sys, fs: seq<Frame>, f: Frame)
    requires InProgress(pl, s, fs) && |fs| < pl.n && f in s.free && |s.free| >= 4
    ensures var a := s.(free := s.free - {f});
      && Coherent(s) && Coherent(a) && pl.c in s.ctxs && s.cur in s.ctxs && pl.c != s.cur && |a.free| >= 3
      && pl.off + |fs| * PAGE_SIZE + PAGE_SIZE <= |pl.img|
      && KERNEL <= DirOf(pl.dp + |fs|) < SELF && KernelSlot(a) < SELF * 1024
      && (pl.vp.Some? ==> pl.vp.value + |fs| < KERNEL * 1024 && Mappable(a, pl.c, pl.vp.value + |fs|))
      && Tr(a, a.cur, pl.dp + |fs|) == None
  {
    hide DirectoryOk, Walk;
    AllocKeeps(s, f);
    AllocLoads(s, f, pl.c);
    var a := s.(free := s.free - {f});
    AnchoredKept(s, a, pl.c, pl.d, pl.anchors);
    hide Segment, Contents, Source, Loads, Anchored;
    TailSlot(a, pl.c, pl.t, pl.d, pl.anchors);
    ContextFacts(s, s.cur);
    forall d | d in s.ctxs ensures pl.vp.Some? ==> d.DirPage() != pl.vp.value + |fs| {
      assert ContextOk(s, d);
    }
  }

  lemma UnmappedMappable(b: Sys, p: PageNo)
    requires Coherent(b) && KERNEL <= DirOf(p) < SELF && Tr(b, b.cur, p) == None && b.free != {}
    ensures Mappable(b, b.cur, p)
  {
    forall d | d in b.ctxs ensures d.DirPage() != p {
      assert ContextOk(b, d);
    }
  }

  /** Mapping the pair leaves everything the copy needs. */
  lemma ProgressSource(pl: Plan, s: Sys, e: Sys, fs: seq<Frame>, f: Frame)
    requires InProgress(pl, s, fs) && |fs| < pl.n && PairMapped(s, e, pl.c, Target(pl.vp, |fs|), pl.dp + |fs|, f)
    ensures Coherent(e) && Source(e, pl.image, pl.img) && Tr(e, e.cur, pl.dp + |fs|) == Some(f) && f !in e.roles
    ensures e.cur == s.cur && e.ctxs == s.ctxs
    ensures forall k: nat :: k < |pl.img| ==> SourceFrame(e, pl.image, k) != f
  {
    hide Segment, Contents, Tail, Anchored;
    SourceKept(s, e, pl.c, pl.image, pl.img);
    forall k: nat | k < |pl.img| ensures SourceFrame(e, pl.image, k) != f {
      SourceApart(s, e, pl.c, pl.image, pl.img, k, f);
    }
  }

  /** An image byte stays in its frame, which was not free. */
  lemma SourceApart(s: Sys, e: Sys, c: Context, a: Word, img: seq<Byte>, k: nat, f: Frame)
    requires Source(s, a, img) && Loads(s, e, c) && k < |img| && f in s.free
    ensures SourceFrame(e, a, k) != f
  {
    assert SourceByte(s, a + k, img[k]);
    assert Tr(e, s.cur, PageOf(a + k)) == Tr(s, s.cur, PageOf(a + k));
  }

  lemma ProgressNext(pl: Plan, s: Sys, e: Sys, fs: seq<Frame>, f: Frame, x: Table)
    requires InProgress(pl, s, fs) && |fs| < pl.n && PairMapped(s, e, pl.c, Target(pl.vp, |fs|), pl.dp + |fs|, f)
    requires pl.off + |fs| * PAGE_SIZE + PAGE_SIZE <= |pl.img| && HasBytes(x, pl.img, pl.off + |fs| * PAGE_SIZE)
    ensures InProgress(pl, e.(ram := e.ram[f := x]), fs + [f])
  {
    hide Segment, Contents, Source, Tail, Anchored, PairMapped, Coherent, Loads;
    var y := e.(ram := e.ram[f := x]);
    SegmentNext(pl.s0, s, e, pl.c, pl.vp, pl.dp, fs, f, x);
    ContentsNext(s, y, fs, f, pl.img, pl.off);
    ProgressKept(pl, s, e, fs, f, x);
  }

  lemma ProgressKept(pl: Plan, s: Sys, e: Sys, fs: seq<Frame>, f: Frame, x: Table)
    requires InProgress(pl, s, fs) && |fs| < pl.n && PairMapped(s, e, pl.c, Target(pl.vp, |fs|), pl.dp + |fs|, f)
    ensures var y := e.(ram := e.ram[f := x]);
      && Source(y, pl.image, pl.img) && Tail(y, pl.t, pl.d) && Anchored(y, pl.c, pl.d, pl.anchors)
      && (forall q: PageNo :: pl.dp + |fs| + 1 <= q < pl.dp + pl.n ==> Tr(y, y.cur, q) == None)
      && y.cur == pl.s0.cur && y.ctxs == pl.s0.ctxs
  {
    hide Coherent, Loads, Source, Anchored, Segment, Contents, Walk, ContextOk, DirectoryOk, SelfMapped;
    var y := e.(ram := e.ram[f := x]);
    LoadsFrames(s, e, pl.c);
    ProgressCoherent(pl, s, fs);
    LoadsRefl(s, pl.c);
    WriteLoads(s, e, f, x, pl.c);
    SourceKept(s, y, pl.c, pl.image, pl.img);
    AnchoredKept(s, y, pl.c, pl.d, pl.anchors);
    ContextFacts(e, e.cur);
    forall q: PageNo | KERNEL <= DirOf(q) < SELF && q != pl.dp + |fs| ensures Tr(y, y.cur, q) == Tr(s, s.cur, q) {
      assert Tr(y, e.cur, q) == Tr(e, e.cur, q);
    }
  }

  lemma ProgressCoherent(pl: Plan, s: Sys, fs: seq<Frame>)
    requires InProgress(pl, s, fs)
    ensures Coherent(s) && PlanOk(pl) && pl.c in s.ctxs && pl.c != s.cur && s.cur == pl.s0.cur && s.ctxs == pl.s0.ctxs
  {
  }

  // ----- after the loop: clear the rest of the memory image -----

  /** The destination pages can be cleared: a byte of the run is mapped to one of fs, which are no tables. */
  lemma ClearWritable(pl: Plan, s: Sys, fs: seq<Frame>, a: Word, m: nat)
    requires InProgress(pl, s, fs) && pl.dp * PAGE_SIZE <= a && a + m <= (pl.dp + |fs|) * PAGE_SIZE
    ensures Writable(s.ram, s.cur.Pd(), a, a, m)
  {
    ContextFacts(s, s.cur);
    forall x: Word | a <= x < a + m
      ensures Backed(s.ram, s.cur.Pd(), x)
      ensures forall y: Word :: a <= y < a + m ==> Aside(s.ram, s.cur.Pd(), FrameAt(s.ram, s.cur.Pd(), x), PageOf(y))
    {
      RunPage(pl, s, fs, a, m, x);
      forall y: Word | a <= y < a + m ensures Aside(s.ram, s.cur.Pd(), FrameAt(s.ram, s.cur.Pd(), x), PageOf(y)) {
        RunPage(pl, s, fs, a, m, y);
      }
    }
  }

  lemma RunPage(pl: Plan, s: Sys, fs: seq<Frame>, a: Word, m: nat, x: Word)
    requires InProgress(pl, s, fs) && pl.dp * PAGE_SIZE <= a && a + m <= (pl.dp + |fs|) * PAGE_SIZE && a <= x < a + m
    ensures Backed(s.ram, s.cur.Pd(), x) && FrameAt(s.ram, s.cur.Pd(), x) !in s.roles
    ensures KERNEL <= DirOf(PageOf(x)) < SELF && Present(Pde(s, s.cur, DirOf(PageOf(x))))
    ensures FrameOf(Pde(s, s.cur, DirOf(PageOf(x)))) in s.roles && s.cur.Pd() in s.roles
  {
    assert pl.dp <= PageOf(x) < pl.dp + |fs|;
    assert Tr(s, s.cur, PageOf(x)) == Some(fs[PageOf(x) - pl.dp]);
    ContextFacts(s, s.cur);
  }

  /** Byte k of page i of the segment, once the tail is cleared. */
  function SegmentByte(img: seq<Byte>, off: nat, file: nat, mem: nat, k: nat): Byte
    requires off + k < |img|
  {
    if file <= k < mem then 0 else img[off + k]
  }

  ghost predicate FinalBytes(s: Sys, fs: seq<Frame>, img: seq<Byte>, off: nat, file: nat, mem: nat)
    requires off + |fs| * PAGE_SIZE <= |img|
  {
    forall i: nat, k: Offset :: i < |fs| ==>
      ByteAt(s.ram[fs[i]], k) == SegmentByte(img, off, file, mem, i * PAGE_SIZE + k)
  }

  lemma ClearBytes(s: Sys, dp: PageNo, fs: seq<Frame>, img: seq<Byte>, off: nat, file: nat, mem: nat)
    requires off + |fs| * PAGE_SIZE <= |img| && Contents(s, fs, img, off) && dp + |fs| <= 0x10_0000
    requires forall q: PageNo :: dp <= q < dp + |fs| ==> Tr(s, s.cur, q) == Some(fs[q - dp])
    requires forall i, j :: 0 <= i < j < |fs| ==> fs[i] != fs[j]
    requires file <= mem <= |fs| * PAGE_SIZE && dp * PAGE_SIZE + file < 0x1_0000_0000
    ensures var r := Cleared(s.ram, s.cur.Pd(), dp * PAGE_SIZE + file, mem - file);
      (forall g: Frame :: g !in fs ==> r[g] == s.ram[g]) && FinalBytes(s.(ram := r), fs, img, off, file, mem)
  {
    hide Cleared, Walk, ByteAt, Contents;
    var a: Word := dp * PAGE_SIZE + file;
    forall i: nat | i < |fs| ensures Walk(s.ram, s.cur.Pd(), dp + i) == Some(fs[i]) {
      assert Tr(s, s.cur, dp + i) == Some(fs[i]);
    }
    ClearedRun(s.ram, s.cur.Pd(), dp, fs, a, mem - file);
    var r := Cleared(s.ram, s.cur.Pd(), a, mem - file);
    forall i: nat, k: Offset | i < |fs|
      ensures ByteAt(r[fs[i]], k) == SegmentByte(img, off, file, mem, i * PAGE_SIZE + k)
    {
      ClearedByte(s, dp, fs, img, off, file, mem, i, k, ByteAt(r[fs[i]], k));
    }
  }

  lemma ClearedByte(s: Sys, dp: PageNo, fs: seq<Frame>, img: seq<Byte>, off: nat, file: nat, mem: nat, i: nat,
                    k: Offset, b: Byte)
    requires off + |fs| * PAGE_SIZE <= |img| && Contents(s, fs, img, off) && i < |fs| && file <= mem
    requires b == if dp * PAGE_SIZE + file <= (dp + i) * PAGE_SIZE + k < dp * PAGE_SIZE + file + (mem - file) then 0
      else ByteAt(s.ram[fs[i]], k)
    ensures b == SegmentByte(img, off, file, mem, i * PAGE_SIZE + k)
  {
    assert ByteAt(s.ram[fs[i]], k) == img[off + i * PAGE_SIZE + k];
  }

  /** Writing frames that are no tables. */
  lemma WriteApart(m: Sys, y: Sys, fs: seq<Frame>)
    requires Coherent(m) && y == m.(ram := y.ram)
    requires forall g: Frame :: g !in fs ==> y.ram[g] == m.ram[g]
    requires forall i :: 0 <= i < |fs| ==> fs[i] !in m.roles
    ensures Coherent(y) && forall d :: d in m.ctxs ==> y.ram[d.Pd()] == m.ram[d.Pd()]
    ensures forall d, q: PageNo :: d in m.ctxs && DirOf(q) != SELF ==> Tr(y, d, q) == Tr(m, d, q)
  {
    ContextFacts(m, m.cur);
    forall d | d in m.ctxs ensures y.ram[d.Pd()] == m.ram[d.Pd()] {
      ContextFacts(m, d);
    }
    forall d, q: PageNo | d in m.ctxs && DirOf(q) != SELF ensures Tr(y, d, q) == Tr(m, d, q) {
      ContextFacts(m, d);
    }
    forall d | d in m.ctxs ensures ContextOk(y, d) {
      assert ContextOk(m, d);
    }
  }

  /** Writing frames that are neither tables nor, in s, in use. */
  lemma WriteMany(s: Sys, m: Sys, y: Sys, fs: seq<Frame>, c: Context)
    requires Coherent(m) && c in m.ctxs && Loads(s, m, c) && y == m.(ram := y.ram)
    requires forall g: Frame :: g !in fs ==> y.ram[g] == m.ram[g]
    requires forall i :: 0 <= i < |fs| ==> fs[i] in s.free && fs[i] !in m.roles
    ensures Loads(s, y, c) && Coherent(y)
    ensures forall d, q: PageNo :: d in m.ctxs && DirOf(q) != SELF ==> Tr(y, d, q) == Tr(m, d, q)
    ensures RightsKept(m, y, c, VMM_USER_FLAGS)
  {
    hide Walk, RightsKept, ContextOk, DirectoryOk, SelfMapped;
    ContextFacts(m, m.cur);
    WriteRights(m, y, c, VMM_USER_FLAGS);
    RightsTrans(s, m, y, c, VMM_USER_FLAGS);
    WriteApart(m, y, fs);
    hide Coherent;
  }
}
