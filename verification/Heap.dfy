/** The two clients that search for a run of pages and back it with fresh frames: the kernel heap and the
    malloc system call. */
module Heap {
  import opened Bits
  import opened Options
  import opened Mmu
  import opened Find
  import opened Spaces
  import opened Contexts
  import opened Translate
  import opened Rights
  import Vmm
  import Pmm

  const HEAP_START: Word := 0xe000_0000
  const HEAP_END: Word := 0xefff_ffff
  const USER_HEAP_START: Word := 0xa000_0000
  const USER_HEAP_END: Word := 0xafff_ffff

  /** Pages p.. of the current context translate to fs, frames that were free and now belong to nobody
      else; nothing else has changed. */
  ghost predicate RunBacked(s: Sys, s': Sys, p: PageNo, fs: seq<Frame>) {
    && s'.cur == s.cur && s'.ctxs == s.ctxs && s'.free <= s.free
    && (forall q: PageNo :: DirOf(q) != SELF ==>
         Tr(s', s.cur, q) == if p <= q < p + |fs| then Some(fs[q - p]) else Tr(s, s.cur, q))
    && (forall d, q: PageNo :: d in s.ctxs && d != s.cur && DirOf(q) < KERNEL ==> Tr(s', d, q) == Tr(s, d, q))
    && (forall i, j :: 0 <= i < j < |fs| ==> fs[i] != fs[j])
    && (forall i :: 0 <= i < |fs| ==> fs[i] in s.free && fs[i] !in s'.free && fs[i] !in s'.roles)
    && (forall g: Frame :: g !in s'.roles ==> s'.ram[g] == s.ram[g])
    && (forall g: Frame :: g in s'.roles && g !in s.roles ==> g in s.free && g !in s'.free)
    && (forall g: Frame :: g in s.roles ==> g in s'.roles)
  }

  lemma RunStart(s: Sys, s': Sys, p: PageNo)
    requires Coherent(s) && Flagged(s, s', s.cur)
    ensures RunBacked(s', s', p, [])
  {
  }

  lemma RunFacts(s: Sys, s': Sys, p: PageNo, fs: seq<Frame>)
    requires RunBacked(s, s', p, fs)
    ensures s'.cur == s.cur && s'.ctxs == s.ctxs
  {
  }

  /** The run lies outside the window and holds no context's directory. */
  ghost predicate Placeable(s: Sys, p: PageNo, n: nat) {
    && p + n <= SELF * 1024
    && (forall d :: d in s.ctxs ==> !(p <= d.DirPage() < p + n))
  }

  lemma PlaceableAt(s: Sys, m: Sys, p: PageNo, n: nat, i: nat)
    requires Placeable(s, p, n) && i < n && m.cur == s.cur && m.ctxs == s.ctxs && m.free != {}
    ensures p + i < SELF * 1024 && Mappable(m, m.cur, p + i)
  {
  }

  lemma PlaceablePages(s: Sys, p: PageNo, n: nat, i: nat)
    requires Placeable(s, p, n) && i <= n
    ensures forall q: PageNo :: p <= q < p + i ==> DirOf(q) != SELF
  {
  }

  lemma RunNext(s: Sys, m: Sys, m1: Sys, s': Sys, p: PageNo, fs: seq<Frame>, f: Frame)
    requires RunBacked(s, m, p, fs) && p + |fs| < 0x10_0000 && DirOf(p + |fs|) != SELF
    requires f in m.free && f !in m.roles && m1 == m.(free := m.free - {f})
    requires Mapped(m1, s', s.cur, p + |fs|, f)
    ensures RunBacked(s, s', p, fs + [f])
  {
    forall q: PageNo | DirOf(q) != SELF
      ensures Tr(s', s.cur, q) == if p <= q < p + |fs + [f]| then Some((fs + [f])[q - p]) else Tr(s, s.cur, q)
    {
      assert Tr(m1, s.cur, q) == Tr(m, s.cur, q);
    }
  }

  // ----- what a sequence of malloc calls keeps -----

  datatype Region = Region(page: nat, count: nat, bytes: nat)

  predicate Inside(q: nat, r: Region) { r.page <= q < r.page + r.count }

  /** Each heap page is mapped to a frame of its own, neither free nor a table. */
  ghost predicate Backing(s: Sys, b: map<PageNo, Frame>) {
    && (forall q :: q in b ==> HEAP_START / PAGE_SIZE <= q <= HEAP_END / PAGE_SIZE)
    && (forall q :: q in b ==> Tr(s, s.cur, q) == Some(b[q]) && b[q] !in s.free && b[q] !in s.roles)
    && (forall q, r :: q in b && r in b && q != r ==> b[q] != b[r])
  }

  /** The regions handed out hold their bytes, are disjoint, and are backed. */
  ghost predicate Regions(rs: seq<Region>, b: map<PageNo, Frame>) {
    && (forall i :: 0 <= i < |rs| ==> rs[i].bytes <= rs[i].count * PAGE_SIZE)
    && (forall i, q: PageNo :: 0 <= i < |rs| && Inside(q, rs[i]) ==> q in b)
    && (forall i, j, q: PageNo :: 0 <= i < j < |rs| ==> !(Inside(q, rs[i]) && Inside(q, rs[j])))
    && (forall i :: 0 <= i < |rs| ==>
         HEAP_START / PAGE_SIZE <= rs[i].page && rs[i].page + rs[i].count <= HEAP_END / PAGE_SIZE + 1)
  }

  ghost function Extended(b: map<PageNo, Frame>, p: PageNo, fs: seq<Frame>): map<PageNo, Frame> {
    map q: PageNo | q in b.Keys + Span(p, |fs|) :: if p <= q < p + |fs| then fs[q - p] else b[q]
  }

  ghost function Span(p: PageNo, n: nat): set<PageNo> {
    set q: PageNo | 0 <= q < 0x10_0000 && Inside(q, Region(p, n, 0))
  }

  /** A free run meets no backed page and no context's directory. */
  lemma FreeRunApart(s: Sys, b: map<PageNo, Frame>, p: PageNo, n: nat)
    requires Coherent(s) && Backing(s, b) && FreeRun(s.ram, s.cur.Pd(), n, p)
    ensures forall q :: q in b ==> !(p <= q < p + n)
    ensures forall d :: d in s.ctxs ==> !(p <= d.DirPage() < p + n)
  {
    forall q | q in b ensures !(p <= q < p + n) {
      assert p <= q < p + n ==> Unmapped(s.ram, s.cur.Pd(), q);
    }
    forall d | d in s.ctxs ensures !(p <= d.DirPage() < p + n) {
      ContextFacts(s, d);
      assert p <= d.DirPage() < p + n ==> Unmapped(s.ram, s.cur.Pd(), d.DirPage());
    }
  }

  lemma BackingExtended(s: Sys, s': Sys, b: map<PageNo, Frame>, p: PageNo, fs: seq<Frame>)
    requires Backing(s, b) && RunBacked(s, s', p, fs)
    requires HEAP_START / PAGE_SIZE <= p && p + |fs| <= HEAP_END / PAGE_SIZE + 1
    requires forall q :: q in b ==> !(p <= q < p + |fs|)
    ensures Backing(s', Extended(b, p, fs))
    ensures forall q :: q in b ==> q in Extended(b, p, fs) && Extended(b, p, fs)[q] == b[q]
  {
    var b' := Extended(b, p, fs);
    forall q | q in b' ensures Tr(s', s.cur, q) == Some(b'[q]) && b'[q] !in s'.free && b'[q] !in s'.roles {
      assert DirOf(q) != SELF;
      assert p <= q < p + |fs| || q in b;
    }
    forall q, r | q in b' && r in b' && q != r ensures b'[q] != b'[r] {
      BackingDistinct(s, s', b, p, fs, q, r);
    }
  }

  lemma BackingDistinct(s: Sys, s': Sys, b: map<PageNo, Frame>, p: PageNo, fs: seq<Frame>, q: PageNo, r: PageNo)
    requires Backing(s, b) && RunBacked(s, s', p, fs)
    requires q in Extended(b, p, fs) && r in Extended(b, p, fs) && q != r
    ensures Extended(b, p, fs)[q] != Extended(b, p, fs)[r]
  {
    if p <= q < p + |fs| && p <= r < p + |fs| {
      assert fs[q - p] != fs[r - p];
    }
  }

  lemma BackingFlagged(s: Sys, s': Sys, b: map<PageNo, Frame>)
    requires Coherent(s) && Backing(s, b) && Flagged(s, s', s.cur)
    ensures Backing(s', b)
  {
    ContextFacts(s, s.cur);
    forall q | q in b ensures Tr(s', s.cur, q) == Tr(s, s.cur, q) {
      FlaggedWalk(s, s', s.cur, s.cur, q);
    }
  }

  /** The run vmm_find returns in an aligned window below the self-map. */
  lemma WindowRun(s: Sys, s': Sys, lo: PageNo, hi: PageNo, num: nat, q: nat)
    requires Coherent(s) && Flagged(s, s', s.cur) && num >= 1 && lo % 1024 == 0 && lo <= hi && SlotOf(hi) == 1023
    ensures Found(s.ram, s.cur.Pd(), num, lo, hi, q) ==>
      LowestRun(s.ram, s.cur.Pd(), num, lo, hi + 1, q) && FreeRun(s'.ram, s.cur.Pd(), num, q)
    ensures NotFound(s.ram, s.cur.Pd(), num, lo, hi) ==> NoRun(s.ram, s.cur.Pd(), num, lo, hi)
  {
    ScanFit(s.ram, s.cur.Pd(), num, lo, hi);
    ContextFacts(s, s.cur);
    hide Coherent, Found, NotFound;
    forall k: nat | Unmapped(s.ram, s.cur.Pd(), k) ensures Unmapped(s'.ram, s.cur.Pd(), k) {
      FlaggedWalk(s, s', s.cur, s.cur, k);
    }
  }

  lemma RegionsExtended(rs: seq<Region>, b: map<PageNo, Frame>, p: PageNo, fs: seq<Frame>, bytes: nat)
    requires Regions(rs, b) && (forall q :: q in b ==> !(p <= q < p + |fs|)) && bytes <= |fs| * PAGE_SIZE
    requires HEAP_START / PAGE_SIZE <= p && p + |fs| <= HEAP_END / PAGE_SIZE + 1
    ensures Regions(rs + [Region(p, |fs|, bytes)], Extended(b, p, fs))
  {
    var rs' := rs + [Region(p, |fs|, bytes)];
    forall i, j, q: PageNo | 0 <= i < j < |rs'| ensures !(Inside(q, rs'[i]) && Inside(q, rs'[j])) {
      if Inside(q, rs'[i]) {
        assert rs'[i] == rs[i] && q in b;
      }
    }
  }

  /** The loop of heap_pages and of syscall_malloc_pages: allocate and map page after page. */
  method BackRun(vmm: Vmm.Vmm, vaddr: Word, pages: nat, flags: nat) returns (ghost fs: seq<Frame>)
    requires vmm.Valid() && flags < 256 && vaddr % PAGE_SIZE == 0
    requires Placeable(vmm.View(), vaddr / PAGE_SIZE, pages) && |vmm.pmm.Free()| >= 2 * pages
    modifies vmm`ram, vmm`roles, vmm.pmm, vmm.pmm.bitmap
    ensures vmm.Valid() && |fs| == pages && RunBacked(old(vmm.View()), vmm.View(), vaddr / PAGE_SIZE, fs)
    ensures AreaAllows(vmm.View(), vmm.current, vaddr / PAGE_SIZE, pages, flags)
  {
    hide Pmm.Pmm.Valid, Pmm.Pmm.View, Pmm.Pmm.Free, Pmm.FreeFrames, Pmm.After, Pmm.Allowed;
    hide Coherent, RunBacked, Mapped, MapStep, UnmapStep, PageEntry, KernelSlot, Placeable, Keeps, KernelPages;
    hide Mappable, WindowReady, Walk, Allows;
    ghost var s, p: PageNo := vmm.View(), vaddr / PAGE_SIZE;
    fs := [];
    FlaggedRefl(s, s.cur);
    RunStart(s, s, p);
    for i := 0 to pages
      invariant vmm.Valid() && |fs| == i && RunBacked(s, vmm.View(), p, fs) && |vmm.pmm.Free()| >= 2 * (pages - i)
      invariant AreaAllows(vmm.View(), vmm.current, p, i, flags)
    {
      ghost var m := vmm.View();
      RunFacts(s, m, p, fs);
      var paddr := vmm.pmm.Alloc();
      ghost var f, m1 := paddr / PAGE_SIZE, vmm.View();
      AllocKeeps(m, f);
      PlaceableAt(s, m1, p, pages, i);
      PagesOn(vaddr, i);
      AreaAllowsSame(m, m1, vmm.current, p, i, flags);
      PlaceablePages(s, p, pages, i);
      var _, mid, t := vmm.MapPage(vmm.current, vaddr + i * PAGE_SIZE, paddr, flags);
      MapSlots(m1, mid, s.cur, p + i, PageEntry(paddr, flags), t);
      AreaAllowsNext(m1, mid, vmm.View(), s.cur, p, i, PageEntry(paddr, flags), t, flags);
      RunNext(s, m, m1, vmm.View(), p, fs, f);
      fs := fs + [f];
    }
  }

  /** The malloc system call: used is current_proc->used_mem_pages. It does not look at a failed search and
      then maps the pages from address 0 on. */
  method SyscallMallocPages(vmm: Vmm.Vmm, pages: nat, used: nat)
      returns (vaddr: Word, used': nat, ghost s1: Sys, ghost fs: seq<Frame>)
    requires vmm.Valid() && |vmm.pmm.Free()| >= 2 * pages
    modifies vmm`ram, vmm`roles, vmm.pmm, vmm.pmm.bitmap
    ensures vmm.Valid() && Flagged(old(vmm.View()), s1, vmm.current) && used' == used + pages
    ensures vaddr % PAGE_SIZE == 0 && |fs| == pages && RunBacked(s1, vmm.View(), vaddr / PAGE_SIZE, fs)
    ensures AreaAllows(vmm.View(), vmm.current, vaddr / PAGE_SIZE, pages, VMM_USER_FLAGS)
    ensures vaddr != 0 ==>
      LowestRun(old(vmm.ram), vmm.current.Pd(), Wanted(pages),
                USER_HEAP_START / PAGE_SIZE, USER_HEAP_END / PAGE_SIZE + 1,
                vaddr / PAGE_SIZE)
    ensures vaddr == 0 ==>
      NoRun(old(vmm.ram), vmm.current.Pd(), Wanted(pages), USER_HEAP_START / PAGE_SIZE, USER_HEAP_END / PAGE_SIZE)
  {
    hide Pmm.Pmm.Valid, Pmm.Pmm.View, Pmm.Pmm.Free, Pmm.FreeFrames;
    hide Coherent, RunBacked, Flagged, Found, NotFound, FreeRun, NoRun, Placeable, AreaAllows;
    ghost var s := vmm.View();
    vaddr := vmm.Find(vmm.current, pages, USER_HEAP_START, USER_HEAP_END);
    s1 := vmm.View();
    WindowRun(s, s1, USER_HEAP_START / PAGE_SIZE, USER_HEAP_END / PAGE_SIZE, Wanted(pages), vaddr / PAGE_SIZE);
    FlaggedSlot(s, s1, vmm.current, 0);
    if vaddr == 0 {
      LowPlaceable(s1, pages);
    } else {
      UserPlaceable(s1, vaddr / PAGE_SIZE, pages);
    }
    fs := BackRun(vmm, vaddr, pages, VMM_USER_FLAGS);
    used' := used + pages;
  }

  lemma UserPlaceable(s: Sys, p: PageNo, pages: nat)
    requires Coherent(s) && FreeRun(s.ram, s.cur.Pd(), Wanted(pages), p)
    requires USER_HEAP_START / PAGE_SIZE <= p && p + Wanted(pages) <= USER_HEAP_END / PAGE_SIZE + 1
    ensures Placeable(s, p, pages)
  {
    FreeRunApart(s, map[], p, Wanted(pages));
  }

  /** There are never so many frames that the pages from address 0 on reach the kernel half. */
  lemma LowPlaceable(s: Sys, pages: nat)
    requires Coherent(s) && |s.free| >= 2 * pages
    ensures Placeable(s, 0, pages)
  {
    FewFrames(s.free, 0x10_0000);
    forall d | d in s.ctxs ensures d.DirPage() >= pages {
      ContextFacts(s, d);
    }
  }

  lemma {:induction false} FewFrames(fs: set<Frame>, n: nat)
    requires forall f :: f in fs ==> f < n
    ensures |fs| <= n
  {
    if n > 0 {
      FewFrames(fs - {n - 1}, n - 1);
    } else {
      assert fs == {};
    }
  }

  ghost function Held(bytes: Word): nat { if bytes <= 0xffff_f000 then bytes else 0 }

  lemma HeldPages(bytes: Word)
    ensures Held(bytes) <= NumPages(bytes) * PAGE_SIZE && (bytes > 0xffff_f000 ==> NumPages(bytes) == 0)
  {
    NumPagesHold(bytes);
  }

  lemma NothingExtended(b: map<PageNo, Frame>, p: PageNo)
    ensures Extended(b, p, []) == b
  {
    assert forall q :: q in Extended(b, p, []) <==> q in b;
  }

  // ----- runs: the heap is used under whichever context is current -----

  datatype HeapState = HeapState(s: Sys, regions: seq<Region>, backing: map<PageNo, Frame>)

  /** A malloc call that returned a run (mid is the state after the search) or NULL, an activation of another
      context, or other work of the kernel that adds mappings and takes frames. */
  datatype Call =
    | Granted(mid: Sys, page: PageNo, fs: seq<Frame>, bytes: Word)
    | Refused
    | Activated(mid: Sys, c: Context)
    | Worked

  ghost predicate HeapInv(h: HeapState) {
    Coherent(h.s) && Backing(h.s, h.backing) && Regions(h.regions, h.backing)
  }

  ghost predicate HeapStep(h: HeapState, e: Call, h': HeapState) {
    && Coherent(h'.s)
    && match e
       case Granted(mid, page, fs, bytes) =>
         && Flagged(h.s, mid, h.s.cur) && RunBacked(mid, h'.s, page, fs) && |fs| == NumPages(bytes)
         && LowestRun(h.s.ram, h.s.cur.Pd(), Wanted(|fs|), HEAP_START / PAGE_SIZE, HEAP_END / PAGE_SIZE + 1, page)
         && h'.regions == h.regions + [Region(page, |fs|, Held(bytes))] && h'.backing == Extended(h.backing, page, fs)
       case Refused => Flagged(h.s, h'.s, h.s.cur) && SameHeap(h, h')
       case Activated(mid, c) =>
         c in h.s.ctxs && c != h.s.cur && UpdateStep(h.s, mid, c) && h'.s == mid.(cur := c) && SameHeap(h, h')
       case Worked => Keeps(h.s, h'.s, {}) && FramesKept(h.s, h'.s) && SameHeap(h, h')
  }

  ghost predicate SameHeap(h: HeapState, h': HeapState) { h'.regions == h.regions && h'.backing == h.backing }

  /** The pages handed out are still handed out, on the same frames. */
  ghost predicate Grows(h: HeapState, h': HeapState) {
    && h.regions <= h'.regions
    && forall q :: q in h.backing ==> q in h'.backing && h'.backing[q] == h.backing[q]
  }

  /** A context that becomes current has the heap of the one it is updated from. */
  lemma BackingActivated(s: Sys, m: Sys, c: Context, b: map<PageNo, Frame>)
    requires Coherent(s) && c in s.ctxs && c != s.cur && UpdateStep(s, m, c) && Backing(s, b)
    ensures Backing(m.(cur := c), b)
  {
    forall q | q in b ensures Tr(m, c, q) == Tr(s, s.cur, q) {
      UpdateWalk(s, m, c, q);
    }
  }

  lemma BackingKept(s: Sys, s': Sys, b: map<PageNo, Frame>)
    requires Backing(s, b) && Keeps(s, s', {}) && FramesKept(s, s')
    ensures Backing(s', b)
  {
    forall q | q in b ensures Tr(s', s'.cur, q) == Some(b[q]) {
      assert Tr(s, s.cur, q).Some?;
    }
  }

  lemma GrantedKept(h: HeapState, e: Call, h': HeapState)
    requires HeapInv(h) && e.Granted? && HeapStep(h, e, h')
    ensures HeapInv(h') && Grows(h, h')
  {
    hide Coherent, Flagged, RunBacked, Backing, Regions, FreeRun, Extended, Unmapped;
    var s1 := e.mid;
    BackingFlagged(h.s, s1, h.backing);
    GrantedApart(h.s, s1, h.backing, e.page, |e.fs|);
    HeldPages(e.bytes);
    BackingExtended(s1, h'.s, h.backing, e.page, e.fs);
    RegionsExtended(h.regions, h.backing, e.page, e.fs, Held(e.bytes));
  }

  lemma GrantedApart(s: Sys, s1: Sys, b: map<PageNo, Frame>, p: PageNo, n: nat)
    requires Coherent(s) && Flagged(s, s1, s.cur) && Backing(s, b)
    requires LowestRun(s.ram, s.cur.Pd(), Wanted(n), HEAP_START / PAGE_SIZE, HEAP_END / PAGE_SIZE + 1, p)
    ensures forall q :: q in b ==> !(p <= q < p + n)
  {
    FreeRunApart(s, b, p, Wanted(n));
  }

  lemma StepKept(h: HeapState, e: Call, h': HeapState)
    requires HeapInv(h) && HeapStep(h, e, h')
    ensures HeapInv(h') && Grows(h, h')
  {
    match e
    case Granted(_, _, _, _) => GrantedKept(h, e, h');
    case Refused => BackingFlagged(h.s, h'.s, h.backing);
    case Activated(mid, c) => BackingActivated(h.s, mid, c, h.backing);
    case Worked => BackingKept(h.s, h'.s, h.backing);
  }

  ghost predicate HeapRun(hs: seq<HeapState>, es: seq<Call>) {
    |hs| == |es| + 1 && forall i :: 0 <= i < |es| ==> HeapStep(hs[i], es[i], hs[i + 1])
  }

  /** Over every run the regions handed out hold their bytes, are disjoint, and are backed by frames of their own
      in the context that is then current; and a page keeps its frame for ever. */
  lemma {:induction false} HeapSafe(hs: seq<HeapState>, es: seq<Call>, i: nat, j: nat)
    requires HeapRun(hs, es) && HeapInv(hs[0]) && i <= j < |hs|
    ensures HeapInv(hs[i]) && HeapInv(hs[j]) && Grows(hs[i], hs[j])
    ensures forall q :: q in hs[i].backing ==> Tr(hs[j].s, hs[j].s.cur, q) == Some(hs[i].backing[q])
    decreases j
  {
    hide Coherent, Regions, HeapStep;
    if i < j {
      HeapSafe(hs, es, i, j - 1);
      StepKept(hs[j - 1], es[j - 1], hs[j]);
    } else if j > 0 {
      HeapSafe(hs, es, j - 1, j - 1);
      StepKept(hs[j - 1], es[j - 1], hs[j]);
    }
  }

  class Heap {
    const vmm: Vmm.Vmm
    ghost var regions: seq<Region>
    ghost var backing: map<PageNo, Frame>

    ghost predicate Valid()
      reads this, vmm, vmm.pmm, vmm.pmm.bitmap
    {
      vmm.Valid() && Backing(vmm.View(), backing) && Regions(regions, backing)
    }

    ghost function Now(): HeapState
      reads this, vmm, vmm.pmm, vmm.pmm.bitmap
      requires vmm.Valid()
    {
      HeapState(vmm.View(), regions, backing)
    }

    constructor (vmm: Vmm.Vmm)
      requires vmm.Valid()
      ensures Valid() && this.vmm == vmm && regions == []
    {
      this.vmm, this.regions, this.backing := vmm, [], map[];
    }

    method HeapPages(pages: nat) returns (r: Word, ghost s1: Sys, ghost fs: seq<Frame>)
      requires Valid() && |vmm.pmm.Free()| >= 2 * pages
      modifies vmm`ram, vmm`roles, vmm.pmm, vmm.pmm.bitmap
      ensures vmm.Valid() && Coherent(s1) && Flagged(old(vmm.View()), s1, vmm.current) && Backing(s1, backing)
      ensures r == 0 ==> vmm.View() == s1
      ensures r == 0 ==> NoRun(old(vmm.ram), vmm.current.Pd(), Wanted(pages), HEAP_START / PAGE_SIZE,
        HEAP_END / PAGE_SIZE)
      ensures r != 0 ==> r % PAGE_SIZE == 0 && |fs| == pages && RunBacked(s1, vmm.View(), r / PAGE_SIZE, fs)
      ensures r != 0 ==> AreaAllows(vmm.View(), vmm.current, r / PAGE_SIZE, pages, VMM_KERNEL_FLAGS)
      ensures r != 0 ==> LowestRun(old(vmm.ram), vmm.current.Pd(), Wanted(pages), HEAP_START / PAGE_SIZE,
        HEAP_END / PAGE_SIZE + 1, r / PAGE_SIZE)
      ensures r != 0 ==> forall q :: q in backing ==> !(r / PAGE_SIZE <= q < r / PAGE_SIZE + pages)
    {
      hide Pmm.Pmm.Valid, Pmm.Pmm.View, Pmm.FreeFrames, Coherent, RunBacked, Flagged, Found, NotFound, Backing, Regions;
      hide FreeRun, AreaAllows;
      ghost var s := vmm.View();
      r := vmm.Find(vmm.current, pages, HEAP_START, HEAP_END);
      s1, fs := vmm.View(), [];
      BackingFlagged(s, s1, backing);
      WindowRun(s, s1, HEAP_START / PAGE_SIZE, HEAP_END / PAGE_SIZE, Wanted(pages), r / PAGE_SIZE);
      FlaggedSlot(s, s1, vmm.current, 0);
      if r != 0 {
        FreeRunApart(s1, backing, r / PAGE_SIZE, Wanted(pages));
        fs := BackRun(vmm, r, pages, VMM_KERNEL_FLAGS);
      }
    }

    /** The region remembers the bytes it holds: none where the page count wraps. */
    method Malloc(bytes: Word) returns (r: Word, ghost e: Call)
      requires Valid() && |vmm.pmm.Free()| >= 2 * NumPages(bytes)
      modifies this, vmm`ram, vmm`roles, vmm.pmm, vmm.pmm.bitmap
      ensures Valid() && HeapStep(old(Now()), e, Now())
      ensures r == 0 ==> regions == old(regions) && backing == old(backing)
      ensures r == 0 ==> NoRun(old(vmm.ram), vmm.current.Pd(), Wanted(NumPages(bytes)), HEAP_START / PAGE_SIZE,
        HEAP_END / PAGE_SIZE)
      ensures r != 0 ==>
        && r % PAGE_SIZE == 0
        && regions == old(regions) + [Region(r / PAGE_SIZE, NumPages(bytes), Held(bytes))]
        && AreaAllows(vmm.View(), vmm.current, r / PAGE_SIZE, NumPages(bytes), VMM_KERNEL_FLAGS)
      ensures r != 0 ==> forall q :: q in old(backing) ==> q in backing && backing[q] == old(backing)[q]
      ensures bytes > 0xffff_f000 ==> NumPages(bytes) == 0 && backing == old(backing)
    {
      hide Coherent, RunBacked, Flagged, Backing, Regions, FreeRun, NoRun, Extended, LowestRun, AreaAllows;
      ghost var h := Now();
      var pages := NumPages(bytes);
      ghost var s1, fs;
      r, s1, fs := HeapPages(pages);
      e := Refused;
      if r != 0 {
        e := Granted(s1, r / PAGE_SIZE, fs, bytes);
        regions := regions + [Region(r / PAGE_SIZE, pages, Held(bytes))];
        backing := Extended(backing, r / PAGE_SIZE, fs);
      }
      StepKept(h, e, Now());
      HeldPages(bytes);
      NothingExtended(h.backing, r / PAGE_SIZE);
      assert pages == 0 && r != 0 ==> fs == [];
    }

    /** vmm_activate_context, as the heap sees it: nothing that was handed out changes. */
    method Activate(context: Context) returns (ghost e: Call)
      requires Valid() && context in vmm.contexts && context != vmm.current
      modifies vmm`ram, vmm`current
      ensures Valid() && vmm.current == context && regions == old(regions) && backing == old(backing)
      ensures HeapStep(old(Now()), e, Now())
    {
      hide Coherent, Backing, Regions, UpdateStep;
      ghost var h := Now();
      vmm.ActivateContext(context);
      ghost var m :| UpdateStep(h.s, m, context) && vmm.View() == m.(cur := context);
      e := Activated(m, context);
      BackingActivated(h.s, m, context, backing);
    }
  }
}
