/** load_elf32 on the virtual memory manager. */
module Loader {
  import opened Bits
  import opened Options
  import opened Mmu
  import opened Find
  import opened Mem
  import opened Spaces
  import opened Contexts
  import opened Translate
  import opened Elf
  import opened Rights
  import opened ElfFormat
  import opened Unload
  import opened Image
  import Vmm
  import Pmm

  /** One turn of the page loop: allocate, map in both contexts, copy. */
  method LoadPage(vmm: Vmm.Vmm, context: Context, vaddr: Word, dest: Word, src: Word, ghost pl: Plan,
                  ghost fs: seq<Frame>)
      returns (ghost f: Frame)
    requires vmm.Valid() && InProgress(pl, vmm.View(), fs) && |fs| < pl.n && context == pl.c
    requires if vaddr % PAGE_SIZE == 0 then Target(pl.vp, |fs|) == Some(PageOf(vaddr)) else pl.vp == None
    requires dest % PAGE_SIZE == 0
    requires PageOf(dest) == pl.dp + |fs|
    requires src == pl.image + pl.off + |fs| * PAGE_SIZE && |vmm.pmm.Free()| >= 4
    modifies vmm`ram, vmm`roles, vmm.pmm, vmm.pmm.bitmap
    ensures vmm.Valid() && InProgress(pl, vmm.View(), fs + [f])
    ensures |vmm.pmm.Free()| >= |old(vmm.pmm.Free())| - 3
  {
    hide Pmm.Pmm.Valid, Pmm.Pmm.View, Pmm.Pmm.Free, Pmm.FreeFrames, Pmm.After, Pmm.Allowed;
    hide Coherent, InProgress, Mapped, MapStep, UnmapStep, PageEntry, KernelSlot, Loads, Mappable, WindowReady, Walk;
    hide PairMapped, Allows, FlagsKept, Pte, Bit;
    hide Copyable, Copied, Reachable, Forward, HasBytes, SourceFrame, Source;
    ghost var s := vmm.View();
    var paddr := vmm.pmm.Alloc();
    f := PageOf(paddr);
    ghost var a := vmm.View();
    ProgressPages(pl, s, fs, f);
    var _, m, t := vmm.MapPage(context, vaddr, paddr, VMM_USER_FLAGS);
    ghost var b := vmm.View();
    UserFlagsIn(paddr);
    if vaddr % PAGE_SIZE == 0 {
      RemoteStep(a, m, b, context, PageOf(vaddr), PageEntry(paddr, VMM_USER_FLAGS), t);
    } else {
      LoadsRefl(a, context);
    }
    UnmappedMappable(b, PageOf(dest));
    var _, e, tl := vmm.MapPage(vmm.current, dest, paddr, VMM_USER_FLAGS);
    LocalStep(b, e, context, PageOf(dest), PageEntry(paddr, VMM_USER_FLAGS), tl);
    PairStep(s, a, b, e, context, Target(pl.vp, |fs|), PageOf(dest), f);
    ProgressSource(pl, s, e, fs, f);
    CopyableSource(e, dest, f, pl.image, pl.img, pl.off + |fs| * PAGE_SIZE);
    ghost var x := CopySource(e, dest, f, pl.image, pl.img, pl.off + |fs| * PAGE_SIZE);
    CopyForward(vmm.ram, vmm.current.Pd(), dest, src, PAGE_SIZE);
    vmm.MemCpy(dest, src, PAGE_SIZE);
    ProgressNext(pl, s, e, fs, f, x);
    ProgressCoherent(pl, vmm.View(), fs + [f]);
  }

  lemma UserFlagsIn(paddr: Word)
    requires paddr % PAGE_SIZE == 0
    ensures FlagsKept(VMM_USER_FLAGS, PageEntry(paddr, VMM_USER_FLAGS))
  {
    PageFlags(paddr, VMM_USER_FLAGS);
    hide PageEntry, Bit;
  }

  /** vmm_unmap_area(context, vaddr, pages), on the destination pages. */
  method UnmapArea(vmm: Vmm.Vmm, context: Context, vaddr: Word, pages: nat, ghost pl: Plan, ghost y: Sys)
    requires vmm.Valid() && Unloading(pl, y, vmm.View(), 0) && context == pl.c && pages == pl.n
    requires vaddr % PAGE_SIZE == 0 && PageOf(vaddr) == pl.dp
    modifies vmm`ram, vmm`roles, vmm.pmm, vmm.pmm.bitmap
    ensures vmm.Valid() && Unloading(pl, y, vmm.View(), pl.n)
  {
    hide Pmm.Pmm.Valid, Pmm.Pmm.View, Pmm.Pmm.Free, Pmm.FreeFrames, Pmm.After, Pmm.Allowed;
    hide Coherent, Unloading, MapStep, Flagged, PageEntry, KernelSlot, Loads, Room, WindowReady, Walk, Pinned;
    for page := 0 to pages
      invariant vmm.Valid() && Unloading(pl, y, vmm.View(), page)
    {
      ghost var u := vmm.View();
      PlanPages(pl, y, u, page);
      PagesOn(vaddr, page);
      ghost var p: PageNo := PageOf(vaddr + page * PAGE_SIZE);
      UnloadReady(pl, y, u, page, p);
      var done, mid, s1, tw := vmm.UnmapPage(context, vaddr + page * PAGE_SIZE);
      ghost var t, w: PageNo := FrameOf(Pde(u, context, DirOf(p))), KernelSlot(u);
      WindowLoads(u, mid, s1, context, PageEntry(t * PAGE_SIZE, VMM_KERNEL_FLAGS), tw);
      UnloadPinned(pl, y, u, page, s1, p);
      UnloadNext(pl, y, u, page, mid, s1, vmm.View(), p, w, t, tw);
    }
  }

  lemma PlanPages(pl: Plan, y: Sys, u: Sys, i: nat)
    requires Unloading(pl, y, u, i)
    ensures i < pl.n ==> pl.dp + i < 0x10_0000
  {
  }

  /** The body of the program header loop for one PT_LOAD entry. */
  method LoadSegment(vmm: Vmm.Vmm, context: Context, image: Word, ph: ProgramHeader, ghost img: seq<Byte>,
                     ghost t: nat, ghost d: nat, ghost anchors: seq<Index>)
    requires vmm.Valid() && context in vmm.contexts && context != vmm.current
    requires Source(vmm.View(), image, img) && Tail(vmm.View(), t, d) && Anchored(vmm.View(), context, d, anchors)
    requires SegmentOk(ph, img) && t + 2 * ph.Pages() < d * 1024 && |vmm.pmm.Free()| >= 3 * ph.Pages() + 1
    modifies vmm`ram, vmm`roles, vmm.pmm, vmm.pmm.bitmap
    ensures vmm.Valid() && Loads(old(vmm.View()), vmm.View(), context) && Tail(vmm.View(), t + 2 * ph.Pages(), d)
    ensures |vmm.pmm.Free()| >= |old(vmm.pmm.Free())| - 3 * ph.Pages()
    ensures HeaderLoaded(vmm.View(), context, img, ph)
    ensures forall q: PageNo :: DirOf(q) < KERNEL && !ph.Covers(q) ==>
      Tr(vmm.View(), context, q) == old(Tr(vmm.View(), context, q))
  {
    hide Pmm.Pmm.Valid, Pmm.Pmm.View, Pmm.FreeFrames, Pmm.After, Pmm.Allowed, Coherent, InProgress, Unloading, Filled;
    hide Flagged, Loads, Source, Tail, Anchored, Cleared, Writable, Walk, Found, NotFound, FreeRun, SegmentLoaded;
    hide FinalBytes;
    ghost var s := vmm.View();
    NumPagesHold(ph.memSize);
    var memPages := NumPages(ph.memSize);
    DestRun(s, t, d, Wanted(memPages), 0);
    var destStart := vmm.Find(vmm.current, memPages, Vmm.VADDR_KERNEL_START, Vmm.VADDR_KERNEL_END);
    DestRun(s, t, d, Wanted(memPages), PageOf(destStart));
    ghost var pl := Plan(vmm.View(), context, ph.Place(), PageOf(destStart), memPages, image, img, ph.offset,
      t + memPages, d, anchors);
    ShorterRun(s, PageOf(destStart), memPages);
    PlanReady(s, pl, t);
    FlaggedSlot(s, pl.s0, vmm.current, 0);
    SourceBound(s, image, img);
    ghost var fs: seq<Frame> := [];
    for j := 0 to memPages
      invariant vmm.Valid() && |fs| == j && InProgress(pl, vmm.View(), fs)
      invariant |vmm.pmm.Free()| >= |old(vmm.pmm.Free())| - 3 * j
    {
      SegmentPage(ph, img, j);
      PagesOn(destStart, j);
      ghost var f := LoadPage(vmm, context, ph.PageAddr(j), destStart + j * PAGE_SIZE,
        image + ph.offset + j * PAGE_SIZE, pl, fs);
      fs := fs + [f];
    }
    ghost var e := vmm.View();
    ClearWritable(pl, e, fs, destStart + ph.fileSize, ph.memSize - ph.fileSize);
    vmm.MemClr(destStart + ph.fileSize, ph.memSize - ph.fileSize);
    ghost var y := vmm.View();
    FillBytes(pl, e, fs, y, destStart + ph.fileSize, ph.fileSize, ph.memSize);
    FilledStart(pl, e, fs, y, ph.fileSize, ph.memSize);
    UnloadStart(pl, e, fs, y);
    UnloadFacts(pl, y, y, 0);
    UnmapArea(vmm, context, destStart, memPages, pl, y);
    SegmentDone(pl, y, vmm.View(), fs, ph.fileSize, ph.memSize);
    LoadsTrans(s, pl.s0, vmm.View(), context);
  }

  /** The address of page j of a segment. */
  lemma SegmentPage(ph: ProgramHeader, img: seq<Byte>, j: nat)
    requires SegmentOk(ph, img) && j < ph.Pages()
    ensures if ph.PageAddr(j) % PAGE_SIZE == 0 then Target(ph.Place(), j) == Some(PageOf(ph.PageAddr(j)))
      else ph.Place() == None
  {
    var q := (ph.virtAddr + j * PAGE_SIZE) / 0x1_0000_0000;
    assert ph.PageAddr(j) == ph.virtAddr + (j - q * 0x10_0000) * PAGE_SIZE;
    OffsetSame(ph.virtAddr, j - q * 0x10_0000);
    if ph.Aligned() {
      assert ph.virtAddr + j * PAGE_SIZE < 0x1_0000_0000;
      PagesOn(ph.virtAddr, j);
    }
  }

  lemma SourceBound(s: Sys, a: Word, img: seq<Byte>)
    requires Source(s, a, img)
    ensures a + |img| <= 0x1_0000_0000
  {
  }

  lemma ShorterRun(s: Sys, q: nat, n: nat)
    requires FreeRun(s.ram, s.cur.Pd(), Wanted(n), q)
    ensures FreeRun(s.ram, s.cur.Pd(), n, q)
  {
  }

  // ----- the whole image -----

  method ReadByte(vmm: Vmm.Vmm, image: Word, o: nat, ghost img: seq<Byte>) returns (b: Byte)
    requires vmm.Valid() && Source(vmm.View(), image, img) && o < |img|
    ensures b == img[o]
  {
    hide Pmm.Pmm.Valid, Pmm.Pmm.View, Pmm.Pmm.Free, Coherent, Source, LoadByte;
    SourceLoad(vmm.View(), image, img, o);
    b := LoadByte(vmm.ram, vmm.current.Pd(), image + o);
  }

  method ReadHalf(vmm: Vmm.Vmm, image: Word, o: nat, ghost img: seq<Byte>) returns (h: nat)
    requires vmm.Valid() && Source(vmm.View(), image, img) && o + 2 <= |img|
    ensures h == HalfAt(img, o)
  {
    hide Pmm.Pmm.Valid, Pmm.Pmm.View, Pmm.Pmm.Free, Coherent, Source;
    var low := ReadByte(vmm, image, o, img);
    var high := ReadByte(vmm, image, o + 1, img);
    h := low as nat + 256 * (high as nat);
  }

  method ReadWord(vmm: Vmm.Vmm, image: Word, o: nat, ghost img: seq<Byte>) returns (w: Word)
    requires vmm.Valid() && Source(vmm.View(), image, img) && o + 4 <= |img|
    ensures w == WordAt(img, o)
  {
    hide Pmm.Pmm.Valid, Pmm.Pmm.View, Pmm.Pmm.Free, Coherent, Source;
    var b0 := ReadByte(vmm, image, o, img);
    var b1 := ReadByte(vmm, image, o + 1, img);
    var b2 := ReadByte(vmm, image, o + 2, img);
    var b3 := ReadByte(vmm, image, o + 3, img);
    w := WordOf(b0, b1, b2, b3);
  }

  method ReadHeader(vmm: Vmm.Vmm, image: Word, o: nat, ghost img: seq<Byte>) returns (ph: ProgramHeader)
    requires vmm.Valid() && Source(vmm.View(), image, img) && o + PROGRAM_HEADER_SIZE <= |img|
    ensures ph == HeaderAt(img, o)
  {
    hide Pmm.Pmm.Valid, Pmm.Pmm.View, Pmm.Pmm.Free, Coherent, Source;
    var kind := ReadWord(vmm, image, o, img);
    var offset := ReadWord(vmm, image, o + 4, img);
    var virtAddr := ReadWord(vmm, image, o + 8, img);
    var fileSize := ReadWord(vmm, image, o + 16, img);
    var memSize := ReadWord(vmm, image, o + 20, img);
    ph := ProgramHeader(kind, offset, virtAddr, fileSize, memSize);
  }

  /** The checks at the start of load_elf32. */
  method CheckHeader(vmm: Vmm.Vmm, image: Word, ghost img: seq<Byte>) returns (ok: bool)
    requires vmm.Valid() && Source(vmm.View(), image, img) && |img| >= HEADER_SIZE
    ensures ok == Loadable(img)
  {
    hide Pmm.Pmm.Valid, Coherent, Source;
    var m0 := ReadByte(vmm, image, 0, img);
    var m1 := ReadByte(vmm, image, 1, img);
    var m2 := ReadByte(vmm, image, 2, img);
    var m3 := ReadByte(vmm, image, 3, img);
    if m0 == 0x7f && m1 == 0x45 && m2 == 0x4c && m3 == 0x46 {
      var elfClass := ReadByte(vmm, image, 4, img);
      if elfClass == 1 {
        var data := ReadByte(vmm, image, 5, img);
        if data == 1 {
          var machine := ReadHalf(vmm, image, 18, img);
          if machine == EM_386 {
            var kind := ReadHalf(vmm, image, 16, img);
            if kind == ET_EXEC {
              var version := ReadWord(vmm, image, 20, img);
              return version == ELF_VERSION_CURRENT;
            }
          }
        }
      }
    }
    return false;
  }

  lemma LoadedSkip(s0: Sys, s: Sys, c: Context, img: seq<Byte>, i: nat)
    requires Loaded(s0, s, c, img, i) && i < HalfAt(img, 44) && Header(img, i).kind != EPT_LOAD
    ensures Loaded(s0, s, c, img, i + 1)
  {
  }

  lemma LoadedNext(s0: Sys, s: Sys, s': Sys, c: Context, img: seq<Byte>, i: nat, ph: ProgramHeader)
    requires Loaded(s0, s, c, img, i) && SegmentsOk(img) && i < HalfAt(img, 44) && ph == Header(img, i)
    requires ph.kind == EPT_LOAD
    requires Loads(s, s', c) && HeaderLoaded(s', c, img, ph)
    requires forall q: PageNo :: DirOf(q) < KERNEL && !ph.Covers(q) ==> Tr(s', c, q) == Tr(s, c, q)
    ensures Loaded(s0, s', c, img, i + 1)
  {
    LoadsTrans(s0, s, s', c);
    forall j: nat | j < i && Header(img, j).kind == EPT_LOAD ensures HeaderLoaded(s', c, img, Header(img, j)) {
      OtherKept(s, s', c, img, i, j);
    }
    hide Loads, HeaderLoaded;
    forall q: PageNo | DirOf(q) < KERNEL && Uncovered(img, i + 1, q)
      ensures Tr(s', c, q) == Tr(s0, c, q)
    {
      assert !Header(img, i).Covers(q) && Uncovered(img, i, q);
    }
  }

  lemma OtherKept(s: Sys, s': Sys, c: Context, img: seq<Byte>, i: nat, j: nat)
    requires SegmentsOk(img) && j < i < HalfAt(img, 44) && Header(img, i).kind == Header(img, j).kind == EPT_LOAD
    requires HeaderLoaded(s, c, img, Header(img, j)) && Loads(s, s', c)
    requires forall q: PageNo :: DirOf(q) < KERNEL && !Header(img, i).Covers(q) ==> Tr(s', c, q) == Tr(s, c, q)
    ensures HeaderLoaded(s', c, img, Header(img, j))
  {
    var ph := Header(img, j);
    if !ph.Aligned() {
      return;
    }
    assert SegmentOk(ph, img);
    NumPagesHold(ph.memSize);
    forall q: PageNo | ph.virtAddr / PAGE_SIZE <= q && q * PAGE_SIZE < ph.virtAddr + ph.memSize
      ensures Tr(s', c, q) == Tr(s, c, q)
    {
      assert ph.Covers(q);
    }
    SegmentKept(s, s', c, ph.virtAddr, img, ph.offset, ph.fileSize, ph.memSize);
  }

  /** load_elf32 into a context that is not current. Returns the entry point. The kernel pages from t to
      directory slot d are free, the kernel tables below d are shared, and there are frames enough. */
  method LoadElf32(vmm: Vmm.Vmm, image: Word, context: Context, ghost img: seq<Byte>, ghost t: nat, ghost d: nat,
                   ghost anchors: seq<Index>)
      returns (entry: Option<Word>)
    requires vmm.Valid() && context in vmm.contexts && context != vmm.current
    requires Source(vmm.View(), image, img) && |img| >= HEADER_SIZE
    requires Loadable(img) ==>
      SegmentsOk(img) && Ready(vmm.View(), context, image, img, t, d, anchors, PagesFrom(img, 0))
    modifies vmm`ram, vmm`roles, vmm.pmm, vmm.pmm.bitmap
    ensures vmm.Valid() && entry.Some? == Loadable(img)
    ensures entry == None ==> vmm.View() == old(vmm.View())
    ensures entry.Some? ==>
      && entry == Some(Number(img, 24))
      && Loaded(old(vmm.View()), vmm.View(), context, img, HalfAt(img, 44))
      && InMemory(vmm.View(), context, img)
    ensures entry.Some? ==> forall q: PageNo :: q < 0xc_0000 && Unasked(img, q) ==>
      Walk(vmm.ram, context.Pd(), q) == old(Walk(vmm.ram, context.Pd(), q))
  {
    hide Walk, InMemory, Unasked, Number;
    hide Pmm.Pmm.Valid, Pmm.Pmm.View, Pmm.FreeFrames, Pmm.After, Pmm.Allowed;
    hide Coherent, Loads, Source, Tail, Anchored, Loaded, HeaderLoaded, SegmentLoaded, Loadable, SegmentsOk, SegmentOk;
    hide Ready, PagesFrom;
    ghost var s0, at: nat := vmm.View(), t;
    var ok := CheckHeader(vmm, image, img);
    if !ok {
      return None;
    }
    LoadedStart(s0, context, img);
    var phOffset := ReadWord(vmm, image, 28, img);
    var count := ReadHalf(vmm, image, 44, img);
    for i := 0 to count
      invariant vmm.Valid() && Loaded(s0, vmm.View(), context, img, i)
      invariant Ready(vmm.View(), context, image, img, at, d, anchors, PagesFrom(img, i))
    {
      ghost var s, n := vmm.View(), PagesFrom(img, i);
      ReadyFacts(s, context, image, img, at, d, anchors, n);
      HeaderFacts(img, i);
      var ph := ReadHeader(vmm, image, phOffset + PROGRAM_HEADER_SIZE * i, img);
      if ph.kind == EPT_LOAD {
        LoadSegment(vmm, context, image, ph, img, at, d, anchors);
        LoadedNext(s0, s, vmm.View(), context, img, i, ph);
        ReadyNext(s, vmm.View(), context, image, img, at, d, anchors, n, ph.Pages());
        at := at + 2 * ph.Pages();
      } else {
        LoadedSkip(s0, s, context, img, i);
      }
    }
    ReadyFacts(vmm.View(), context, image, img, at, d, anchors, 0);
    LoadedBytes(s0, vmm.View(), context, img);
    var e := ReadWord(vmm, image, 24, img);
    NumberWord(img, 24);
    entry := Some(e);
  }

  /** What creating a context and loading n pages into it needs of the current context. */
  ghost predicate Prepared(s: Sys, image: Word, img: seq<Byte>, t: nat, d: nat, anchors: seq<Index>, n: nat) {
    && Source(s, image, img) && Tail(s, t, d) && Anchors(s, d, anchors)
    && t + 2 + 2 * n < d * 1024 && |s.free| >= 3 * n + 5
  }

  lemma PreparedReady(s: Sys, s': Sys, c: Context, image: Word, img: seq<Byte>, t: nat, d: nat, anchors: seq<Index>,
                      n: nat)
    requires Prepared(s, image, img, t, d, anchors, n) && Keeps(s, s', s.ctxs) && FramesKept(s, s')
    requires SameTables(s', c) && TwoTaken(s, s') && c in s'.ctxs && c != s'.cur && |s'.free| >= |s.free| - 4
    ensures Ready(s', c, image, img, t + 2, d, anchors, n)
  {
    hide Source, Tail, Anchored, Anchors, Keeps, FramesKept, SameTables, TwoTaken;
    KeepsFree(s, s', s.ctxs);
    KeepsLess(s, s', s.ctxs, {});
    SourceStays(s, s', image, img);
    CreatedTail(s, s', t, d);
    CreatedAnchored(s, s', c, d, anchors);
  }

  /** An image that is rejected, or whose segments can be loaded. */
  ghost predicate ImageOk(img: seq<Byte>) {
    |img| >= HEADER_SIZE && (Loadable(img) ==> SegmentsOk(img))
  }

  /** The program headers that are looked at, and the pages they take. */
  ghost function HeadersUsed(img: seq<Byte>): nat
    requires ImageOk(img)
  {
    if Loadable(img) then HalfAt(img, 44) else 0
  }

  ghost function PagesUsed(img: seq<Byte>): nat
    requires ImageOk(img)
  {
    if Loadable(img) then PagesFrom(img, 0) else 0
  }

  lemma ImageFacts(img: seq<Byte>)
    requires ImageOk(img)
    ensures |img| >= HEADER_SIZE
    ensures if Loadable(img) then SegmentsOk(img) && TableInside(img) && PagesUsed(img) == PagesFrom(img, 0)
      && HeadersUsed(img) == HalfAt(img, 44)
      else HeadersUsed(img) == 0
  {
  }

  /** The context part of syscall_exec_extern: a new context is created and the image loaded into it. Its user
      half is what the program headers say and nothing else, and the other contexts keep theirs. */
  method LoadNew(vmm: Vmm.Vmm, image: Word, ghost img: seq<Byte>, ghost t: nat, ghost d: nat, ghost anchors: seq<Index>)
      returns (context: Context, entry: Option<Word>)
    requires vmm.Valid() && ImageOk(img) && Prepared(vmm.View(), image, img, t, d, anchors, PagesUsed(img))
    modifies vmm`ram, vmm`roles, vmm`contexts, vmm.pmm, vmm.pmm.bitmap
    ensures vmm.Valid() && context !in old(vmm.contexts) && context in vmm.contexts
    ensures entry == if Loadable(img) then Some(Number(img, 24)) else None
    ensures Keeps(old(vmm.View()), vmm.View(), old(vmm.contexts))
    ensures OnlyLoaded(vmm.View(), context, img, HeadersUsed(img))
    ensures Loadable(img) ==> InMemory(vmm.View(), context, img)
    ensures forall q: PageNo :: q < 0xc_0000 && (Loadable(img) ==> Unasked(img, q)) ==>
      Walk(vmm.ram, context.Pd(), q) == None
  {
    hide Walk, InMemory, Unasked, Number;
    hide Pmm.Pmm.Valid, Pmm.Pmm.View, Pmm.Pmm.Free, Pmm.FreeFrames, Pmm.After, Pmm.Allowed;
    hide Coherent, Keeps, FramesKept, SameTables, TwoTaken, KernelPages, Empty, SharesKernel, SelfMapped;
    hide Loadable, SegmentsOk, PagesFrom, Loaded, Ready, Prepared, OnlyLoaded, Tail, Source, Anchors;
    hide ImageOk, HeadersUsed, PagesUsed, TableInside, HalfAt, WordAt;
    ghost var s, n := vmm.View(), PagesUsed(img);
    ImageFacts(img);
    PreparedRoom(s, image, img, t, d, anchors, n);
    context := vmm.CreateContext();
    ghost var s1 := vmm.View();
    CreatedReady(s, s1, context, image, img, t, d, anchors, n);
    entry := LoadElf32(vmm, image, context, img, t + 2, d, anchors);
    if entry.Some? {
      LoadedAlone(s, s1, vmm.View(), context, img, HalfAt(img, 44));
      OnlyBytes(vmm.View(), context, img);
    } else {
      NothingLoaded(s1, context, img);
    }
  }

  lemma PreparedRoom(s: Sys, image: Word, img: seq<Byte>, t: nat, d: nat, anchors: seq<Index>, n: nat)
    requires Prepared(s, image, img, t, d, anchors, n)
    ensures |KernelPages(s)| >= 2 && |s.free| >= 4
  {
    TailPages(s, t, d);
  }

  lemma CreatedReady(s: Sys, s': Sys, c: Context, image: Word, img: seq<Byte>, t: nat, d: nat, anchors: seq<Index>,
                     n: nat)
    requires Coherent(s) && Prepared(s, image, img, t, d, anchors, n) && Keeps(s, s', s.ctxs) && FramesKept(s, s')
    requires SameTables(s', c) && TwoTaken(s, s') && c !in s.ctxs && s'.ctxs == s.ctxs + {c}
    requires |s'.free| >= |s.free| - 4
    ensures Ready(s', c, image, img, t + 2, d, anchors, n) && c != s'.cur && Source(s', image, img)
  {
    ContextFacts(s, s.cur);
    KeepsFree(s, s', s.ctxs);
    PreparedReady(s, s', c, image, img, t, d, anchors, n);
    ReadyFacts(s', c, image, img, t + 2, d, anchors, n);
  }

  /** A nonempty segment whose first page no other segment takes is loaded exactly when its address is
      page-aligned: otherwise the loader maps nothing for it and reports no error. */
  lemma SegmentExactly(s: Sys, c: Context, img: seq<Byte>, n: nat, j: nat)
    requires OnlyLoaded(s, c, img, n) && j < n && Header(img, j).kind == EPT_LOAD && Header(img, j).memSize > 0
    requires !Header(img, j).Aligned() ==> Uncovered(img, n, PageOf(Header(img, j).virtAddr))
    ensures var ph := Header(img, j);
      SegmentLoaded(s, c, ph.virtAddr, img, ph.offset, ph.fileSize, ph.memSize) <==> ph.virtAddr % PAGE_SIZE == 0
  {
    var ph := Header(img, j);
    if ph.Aligned() {
      assert HeaderLoaded(s, c, img, ph);
    } else {
      NotLoaded(s, c, ph.virtAddr, img, ph.offset, ph.fileSize, ph.memSize);
    }
  }

  lemma NotLoaded(s: Sys, c: Context, vaddr: Word, img: seq<Byte>, off: nat, file: nat, mem: nat)
    requires mem > 0 && (DirOf(PageOf(vaddr)) < KERNEL ==> Tr(s, c, PageOf(vaddr)) == None)
    ensures !SegmentLoaded(s, c, vaddr, img, off, file, mem)
  {
    if vaddr + mem <= 0x1_0000_0000 && off + file <= |img| {
      assert !SegmentByteAt(s, c, vaddr, img, off, file, 0);
    }
  }

  lemma NothingLoaded(s: Sys, c: Context, img: seq<Byte>)
    requires Empty(s, c)
    ensures OnlyLoaded(s, c, img, 0)
    ensures forall q: PageNo :: q < 0xc_0000 ==> Walk(s.ram, c.Pd(), q) == None
  {
    forall q: PageNo | DirOf(q) < KERNEL ensures Tr(s, c, q) == None {
      EmptyPage(s, c, q);
    }
  }

  lemma EmptyPage(s: Sys, c: Context, q: PageNo)
    requires Empty(s, c) && DirOf(q) < KERNEL
    ensures Tr(s, c, q) == None
  {
    assert Pde(s, c, DirOf(q)) == 0;
  }

  lemma LoadedAlone(s: Sys, s1: Sys, s2: Sys, c: Context, img: seq<Byte>, n: nat)
    requires Keeps(s, s1, s.ctxs) && c !in s.ctxs && Empty(s1, c) && Loaded(s1, s2, c, img, n)
    ensures Keeps(s, s2, s.ctxs) && OnlyLoaded(s2, c, img, n)
  {
    hide HeaderLoaded, Walk, Empty;
    LoadedKeeps(s1, s2, c, img, n);
    KeepsFree(s, s1, s.ctxs);
    KeepsLess(s1, s2, s1.ctxs - {c}, s.ctxs);
    KeepsTrans(s, s1, s2, s.ctxs);
    hide Keeps, Loads;
    forall q: PageNo | DirOf(q) < KERNEL && Uncovered(img, n, q)
      ensures Tr(s2, c, q) == None
    {
      EmptyPage(s1, c, q);
    }
  }

  lemma LoadedKeeps(s1: Sys, s2: Sys, c: Context, img: seq<Byte>, n: nat)
    requires Loaded(s1, s2, c, img, n)
    ensures Keeps(s1, s2, s1.ctxs - {c})
  {
  }

  /** What loading n more pages needs. */
  ghost predicate Ready(s: Sys, c: Context, image: Word, img: seq<Byte>, t: nat, d: nat, anchors: seq<Index>, n: nat) {
    && c in s.ctxs && c != s.cur
    && Source(s, image, img) && Tail(s, t, d) && Anchored(s, c, d, anchors)
    && t + 2 * n < d * 1024 && |s.free| >= 3 * n + 1
  }

  lemma ReadyFacts(s: Sys, c: Context, image: Word, img: seq<Byte>, t: nat, d: nat, anchors: seq<Index>, n: nat)
    requires Ready(s, c, image, img, t, d, anchors, n)
    ensures c in s.ctxs && c != s.cur && Source(s, image, img) && Tail(s, t, d) && Anchored(s, c, d, anchors)
    ensures t + 2 * n < d * 1024 && |s.free| >= 3 * n + 1
  {
  }

  lemma ReadyNext(s: Sys, s': Sys, c: Context, image: Word, img: seq<Byte>, t: nat, d: nat, anchors: seq<Index>, n: nat,
                  k: nat)
    requires Ready(s, c, image, img, t, d, anchors, n) && k <= n && Loads(s, s', c)
    requires Tail(s', t + 2 * k, d) && |s'.free| >= |s.free| - 3 * k
    ensures Ready(s', c, image, img, t + 2 * k, d, anchors, n - k)
  {
    SourceKept(s, s', c, image, img);
    AnchoredKept(s, s', c, d, anchors);
  }

  lemma HeaderFacts(img: seq<Byte>, i: nat)
    requires SegmentsOk(img) && i < HalfAt(img, 44)
    ensures WordAt(img, 28) + PROGRAM_HEADER_SIZE * i + PROGRAM_HEADER_SIZE <= |img|
    ensures Header(img, i) == HeaderAt(img, WordAt(img, 28) + PROGRAM_HEADER_SIZE * i)
    ensures Header(img, i).kind == EPT_LOAD ==>
      SegmentOk(Header(img, i), img) && PagesFrom(img, i) == Header(img, i).Pages() + PagesFrom(img, i + 1)
    ensures Header(img, i).kind != EPT_LOAD ==> PagesFrom(img, i) == PagesFrom(img, i + 1)
  {
  }

  lemma LoadedStart(s: Sys, c: Context, img: seq<Byte>)
    requires SegmentsOk(img)
    ensures TableInside(img) && Loaded(s, s, c, img, 0) && PagesFrom(img, HalfAt(img, 44)) == 0
  {
    LoadsRefl(s, c);
  }
}
