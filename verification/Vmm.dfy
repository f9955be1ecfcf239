/** The virtual memory manager. Its table pointers are virtual addresses: every store below goes through
    the page walk of the current context, and the contracts say what that does to physical memory. */
module Vmm {
  import opened Bits
  import opened Options
  import opened Mmu
  import opened Spaces
  import opened Find
  import opened Mem
  import opened Contexts
  import opened Fork
  import opened Translate
  import opened Rights
  import Pmm

  const VADDR_KERNEL_START: Word := 0xc000_0000
  const VADDR_KERNEL_END: Word := 0xffff_ffff
  const VADDR_PT_START: Word := 0xf000_0000

  function PtVaddr(i: Index): Word { VADDR_PT_START + PAGE_SIZE * i }

  class Vmm {
    var ram: Ram
    var current: Context
    const pmm: Pmm.Pmm
    ghost var contexts: set<Context>
    ghost var roles: map<Frame, Role>

    ghost function View(): Sys
      reads this, pmm, pmm.bitmap
      requires pmm.Valid()
    {
      Sys(ram, current, contexts, roles, pmm.Free())
    }

    ghost predicate Valid()
      reads this, pmm, pmm.bitmap
    {
      pmm.Valid() && Coherent(View())
    }

    /** The state init_vmm hands over: paging is on and the kernel context is current. */
    constructor (ram: Ram, kernel: Context, pmm: Pmm.Pmm, ghost roles: map<Frame, Role>)
      requires pmm.Valid() && Coherent(Sys(ram, kernel, {kernel}, roles, pmm.Free()))
      ensures Valid() && this.pmm == pmm && View() == Sys(ram, kernel, {kernel}, roles, pmm.Free())
    {
      this.ram, this.current, this.pmm, this.contexts, this.roles := ram, kernel, pmm, {kernel}, roles;
    }

    /** `table[j] = w`, where table is a page-aligned virtual address. */
    method Store(table: Word, j: Index, w: Word)
      requires table % PAGE_SIZE == 0 && Walk(ram, current.Pd(), table / PAGE_SIZE).Some?
      modifies this`ram
      ensures ram == Poke(old(ram), Walk(old(ram), current.Pd(), table / PAGE_SIZE).value, j, w)
    {
      ram := Poke(ram, Walk(ram, current.Pd(), table / PAGE_SIZE).value, j, w);
    }

    function Load(table: Word, j: Index): Word
      requires table % PAGE_SIZE == 0 && Walk(ram, current.Pd(), table / PAGE_SIZE).Some?
      reads this
    {
      ram[Walk(ram, current.Pd(), table / PAGE_SIZE).value][j]
    }

    method GetPagetable(context: Context, index: Index, flags: nat) returns (pt: Word, ghost mid: Sys, ghost t: Frame)
      requires Valid() && context in contexts && flags < 256
      requires Present(Pde(View(), context, index))
      requires context != current ==> Room(View())
      modifies this`ram, this`roles, pmm, pmm.bitmap
      ensures Valid()
      ensures Flagged(old(View()), mid, context)
      ensures mid.ram == Poke(old(ram), context.Pd(), index, WithFlags(old(Pde(View(), context, index)), flags))
      ensures FlagsKept(flags, Pde(mid, context, index))
      ensures context == current ==> pt == PtVaddr(index) && View() == mid
      ensures context != current ==>
        && pt == KernelSlot(old(View())) * PAGE_SIZE
        && MapStep(mid, View(), current, KernelSlot(old(View())),
             PageEntry(FrameOf(old(Pde(View(), context, index))) * PAGE_SIZE, VMM_KERNEL_FLAGS), t)
      decreases if context == current then 0 else 1, 2
    {
      hide Pmm.Pmm.Valid, Pmm.Pmm.View, Pmm.Pmm.Free, Pmm.FreeFrames, Pmm.After, Pmm.Allowed;
      hide Coherent, Flagged, MapStep, ContextOk, DirectoryOk, SelfMapped, KernelSlot, Room, Walk;
      hide FlagsKept, WithFlags;
      ghost var s := View();
      ContextFacts(s, context);
      var entry := Load(context.pagedir, index);
      mid := FlagsStored(s, context, index, flags);
      Store(context.pagedir, index, WithFlags(entry, flags));
      FlaggedCoherent(s, mid, context);
      FlaggedSlot(s, mid, context, index);
      if context != current {
        ContextFacts(mid, context);
        FlaggedKernelSlot(s, mid, context);
        pt, t := AutomapKernelPage(current, FrameOf(Load(context.pagedir, index)) * PAGE_SIZE);
      } else {
        pt, t := PtVaddr(index), 0;
      }
    }

    method AutomapKernelPage(context: Context, paddr: Word) returns (va: Word, ghost t: Frame)
      requires Valid() && context == current && paddr % PAGE_SIZE == 0
      requires Room(View())
      modifies this`ram, this`roles, pmm, pmm.bitmap
      ensures Valid()
      ensures KernelSlot(old(View())) < SELF * 1024 && va == KernelSlot(old(View())) * PAGE_SIZE
      ensures MapStep(old(View()), View(), current, KernelSlot(old(View())), PageEntry(paddr, VMM_KERNEL_FLAGS), t)
      decreases if context == current then 0 else 1, 5
    {
      hide Pmm.Pmm.Valid, Pmm.Pmm.View, Pmm.Pmm.Free, Pmm.FreeFrames, Pmm.After, Pmm.Allowed;
      hide Coherent, Flagged, MapStep, ContextOk, DirectoryOk, SelfMapped, KernelSlot, Walk, Found, NotFound;
      ghost var s := View();
      FoundSlot(s, KernelSlot(s));
      va := Find(context, 1, VADDR_KERNEL_START, VADDR_KERNEL_END);
      FoundSlot(s, va / PAGE_SIZE);
      ghost var s1 := View();
      ContextFacts(s, context);
      FlaggedKernelSlot(s, s1, context);
      SlotNoDirectory(s1);
      var r;
      ghost var mid;
      r, mid, t := MapPage(context, va, paddr, VMM_KERNEL_FLAGS);
      FlaggedMap(s, s1, View(), context, va / PAGE_SIZE, PageEntry(paddr, VMM_KERNEL_FLAGS), t);
    }

    /** One entry of the pass over a table: PAGES_FOUND(1), or a new start behind a mapped page. */
    method ScanEntry(pt: Word, dir: Index, ptIndex: Index, num: nat, v: nat, n: nat,
                     ghost s0: Sys, ghost lo: PageNo, ghost hi: PageNo, ghost b: nat)
        returns (done: bool, vaddr: nat, found: nat, ghost start: nat)
      requires Valid() && Flagged(s0, View(), current)
      requires pt == PtVaddr(dir) && Present(Pde(s0, current, dir))
      requires dir <= DirOf(hi) && (dir == DirOf(hi) ==> ptIndex < SlotOf(hi))
      requires FirstTable(s0.ram, current.Pd(), lo, DirOf(hi)) <= PageAt(dir, ptIndex)
      requires Scanned(s0.ram, current.Pd(), lo, DirOf(hi), Wanted(num), b, PageAt(dir, ptIndex), n, v)
      ensures done ==> Returned(s0.ram, current.Pd(), Wanted(num), lo, hi, start, vaddr)
      ensures !done ==>
        Scanned(s0.ram, current.Pd(), lo, DirOf(hi), Wanted(num), start, PageAt(dir, ptIndex) + 1, found, vaddr)
    {
      hide SameDirectory, Room, MapStep, Answers;
      hide Pmm.Pmm.Valid, Pmm.Pmm.View, Pmm.Pmm.Free, Pmm.FreeFrames, Pmm.After, Pmm.Allowed;
      hide Coherent, Flagged, Walk, SelfMapped, ContextOk, DirectoryOk;
      hide Scanned, Seen, SeenRun, Unmapped, FirstTable, SeenEnd, Found, Mark, Returned;
      hide PtVaddr;
      ghost var pd, q := current.Pd(), PageAt(dir, ptIndex);
      WindowEntry(s0, View(), current, pt, dir, ptIndex);
      InTable(s0.ram, pd, lo, hi, q);
      vaddr, found, start, done := v, n, b, false;
      if !Present(Load(pt, ptIndex)) {
        PresentCount(s0.ram, pd, q);
        ScanFree(s0.ram, pd, lo, hi, Wanted(num), start, q, 1, found, vaddr);
        if vaddr == 0 {
          vaddr := (dir * 1024 + ptIndex) * PAGE_SIZE;
        }
        assert vaddr == Recorded(v, q);
        hide Recorded;
        found := found + 1;
        done := found >= num;
      } else {
        ScanMapped(s0.ram, pd, lo, DirOf(hi), Wanted(num), start, q, found, vaddr);
        found := 0;
        vaddr := 0;
        start := q + 1;
      }
    }

    /** The pass over one table: slots from..end of directory slot dir, read through the window. */
    method ScanTable(pt: Word, dir: Index, from: Index, end: nat, num: nat, v: nat, n: nat,
                     ghost s0: Sys, ghost lo: PageNo, ghost hi: PageNo, ghost b: nat)
        returns (done: bool, vaddr: nat, found: nat, ghost start: nat)
      requires Valid() && Flagged(s0, View(), current)
      requires pt == PtVaddr(dir) && Present(Pde(s0, current, dir))
      requires end == if dir == DirOf(hi) then SlotOf(hi) else 1024
      requires dir <= DirOf(hi) && FirstTable(s0.ram, current.Pd(), lo, DirOf(hi)) <= PageAt(dir, from)
      requires Scanned(s0.ram, current.Pd(), lo, DirOf(hi), Wanted(num), b, PageAt(dir, from), n, v)
      ensures done ==> Returned(s0.ram, current.Pd(), Wanted(num), lo, hi, start, vaddr)
      ensures !done ==>
        Scanned(s0.ram, current.Pd(), lo, DirOf(hi), Wanted(num), start,
                dir * 1024 + if from < end then end else from, found, vaddr)
    {
      hide SameDirectory, Room, MapStep, Answers;
      hide Pmm.Pmm.Valid, Pmm.Pmm.View, Pmm.Pmm.Free, Pmm.FreeFrames, Pmm.After, Pmm.Allowed;
      hide Coherent, Flagged, Walk, SelfMapped, ContextOk, DirectoryOk;
      hide Scanned, Seen, SeenRun, Unmapped, FirstTable, SeenEnd, Found, Mark, Returned;
      done, vaddr, found, start := false, v, n, b;
      var ptIndex: nat := from;
      while ptIndex < end
        invariant from <= ptIndex <= if from < end then end else from
        invariant Scanned(s0.ram, current.Pd(), lo, DirOf(hi), Wanted(num), start, dir * 1024 + ptIndex, found, vaddr)
      {
        done, vaddr, found, start := ScanEntry(pt, dir, ptIndex, num, vaddr, found, s0, lo, hi, start);
        if done {
          return;
        }
        ptIndex := ptIndex + 1;
      }
      done := false;
    }

    /** The turn of the search for a slot whose table is present. */
    method ScanSlot(pdIndex: Index, ptIndex: Index, pdEnd: Index, ptEnd: Index, num: nat, v: nat, n: nat,
                    ghost s0: Sys, ghost lo: PageNo, ghost hi: PageNo, ghost b: nat)
        returns (done: bool, vaddr: nat, found: nat, ghost start: nat)
      requires Valid() && Flagged(s0, View(), current) && Present(Pde(View(), current, pdIndex))
      requires pdEnd == DirOf(hi) && ptEnd == SlotOf(hi) && pdIndex <= pdEnd
      requires Phase(s0.ram, current.Pd(), lo, pdEnd, PageAt(pdIndex, ptIndex))
      requires Scanned(s0.ram, current.Pd(), lo, pdEnd, Wanted(num), b, PageAt(pdIndex, ptIndex), n, v)
      modifies this`ram, this`roles, pmm, pmm.bitmap
      ensures Valid() && Flagged(s0, View(), current)
      ensures done ==> Returned(s0.ram, current.Pd(), Wanted(num), lo, hi, start, vaddr)
      ensures !done && pdIndex < pdEnd ==>
        && Scanned(s0.ram, current.Pd(), lo, pdEnd, Wanted(num), start, (pdIndex + 1) * 1024, found, vaddr)
        && Phase(s0.ram, current.Pd(), lo, pdEnd, (pdIndex + 1) * 1024)
      ensures !done && pdIndex == pdEnd ==> NotFound(s0.ram, current.Pd(), Wanted(num), lo, hi)
      decreases 0, 3, 0
    {
      hide Pmm.Pmm.Valid, Pmm.Pmm.View, Pmm.Pmm.Free, Pmm.FreeFrames, Pmm.After, Pmm.Allowed, Coherent, Flagged, Walk;
      hide SelfMapped, ContextOk, DirectoryOk, Scanned, Phase, Seen, SeenRun, Unmapped, FirstTable, SeenEnd, Found;
      hide NotFound, MapStep, Room, KernelSlot, PageEntry, Answers, Mark, Returned;
      ghost var pd, s1, pos: PageNo := current.Pd(), View(), PageAt(pdIndex, ptIndex);
      FlaggedSlot(s0, s1, current, pdIndex);
      ContextFacts(s1, current);
      var pt, _, _ := GetPagetable(current, pdIndex, VMM_KERNEL_FLAGS);
      FlaggedTrans(s0, s1, View(), current);
      EnterTable(s0.ram, pd, lo, hi, pos);
      var end := if pdIndex == pdEnd then ptEnd else 1024;
      done, vaddr, found, start := ScanTable(pt, pdIndex, ptIndex, end, num, v, n, s0, lo, hi, b);
      if !done && pdIndex == pdEnd {
        ScanEnd(s0.ram, pd, lo, hi, Wanted(num), start,
                pdIndex * 1024 + if ptIndex < end then end else ptIndex, found, vaddr);
      }
    }

    method Find(context: Context, num: nat, low: Word, high: Word) returns (r: Word)
      requires Valid() && context == current
      modifies this`ram, this`roles, pmm, pmm.bitmap
      ensures Valid() && Flagged(old(View()), View(), current)
      ensures r % PAGE_SIZE == 0
      ensures Answers(old(ram), current.Pd(), Wanted(num), low / PAGE_SIZE, high / PAGE_SIZE, r / PAGE_SIZE)
      ensures low >= PAGE_SIZE && r != 0 ==>
        Found(old(ram), current.Pd(), Wanted(num), low / PAGE_SIZE, high / PAGE_SIZE, r / PAGE_SIZE)
      ensures low >= PAGE_SIZE && r == 0 ==>
        NotFound(old(ram), current.Pd(), Wanted(num), low / PAGE_SIZE, high / PAGE_SIZE)
      decreases if context == current then 0 else 1, 3, 1
    {
      hide Pmm.Pmm.Valid, Pmm.Pmm.View, Pmm.Pmm.Free, Pmm.FreeFrames, Pmm.After, Pmm.Allowed, Coherent, Flagged, Walk;
      hide SelfMapped, ContextOk, DirectoryOk, Scanned, Phase, Seen, SeenRun, Unmapped, FirstTable, SeenEnd, Found;
      hide NotFound, MapStep, Room, KernelSlot, PageEntry, Answers, Mark, Returned;
      ghost var pd, s0, want := current.Pd(), View(), Wanted(num);
      ghost var lo, hi := low / PAGE_SIZE, high / PAGE_SIZE;
      ghost var start: nat := lo;
      var vaddr: nat := 0;
      var found: nat := 0;
      var pdIndex: nat, ptIndex: nat := low / PAGE_SIZE / 1024, low / PAGE_SIZE % 1024;
      var pdEnd, ptEnd := high / PAGE_SIZE / 1024, high / PAGE_SIZE % 1024;
      ScanStart(ram, pd, lo, hi, want);
      FlaggedRefl(s0, context);
      while pdIndex <= pdEnd
        invariant Valid() && Flagged(s0, View(), context)
        invariant pdIndex <= 1024 && ptIndex < 1024
        invariant pdIndex <= pdEnd ==> Scanned(s0.ram, pd, lo, pdEnd, want, start, pdIndex * 1024 + ptIndex, found,
          vaddr)
        invariant pdIndex <= pdEnd ==> Phase(s0.ram, pd, lo, pdEnd, pdIndex * 1024 + ptIndex)
        invariant pdIndex > pdEnd ==> NotFound(s0.ram, pd, want, lo, hi)
      {
        ghost var pos: nat := PageAt(pdIndex, ptIndex);
        ContextFacts(View(), current);
        FlaggedSlot(s0, View(), context, pdIndex);
        if Present(Load(context.pagedir, pdIndex)) {
          var done;
          done, vaddr, found, start := ScanSlot(pdIndex, ptIndex, pdEnd, ptEnd, num, vaddr, found, s0, lo, hi, start);
          if done {
            ReturnedAnswers(s0.ram, pd, want, lo, hi, start, vaddr);
            return vaddr;
          }
          ptIndex := 0;
        } else {
          ScannedBounds(s0.ram, pd, lo, pdEnd, want, start, pos, found, vaddr);
          SkipTable(s0.ram, pd, lo, hi, pos);
          AbsentCount(s0.ram, pd, pos);
          ScanFree(s0.ram, pd, lo, hi, want, start, pos, 1024, found, vaddr);
          ghost var v := vaddr;
          if vaddr == 0 {
            vaddr := (pdIndex * 1024 + ptIndex) * PAGE_SIZE;
          }
          assert vaddr == Recorded(v, pos);
          found := found + 1024;
          if found >= num {
            ReturnedAnswers(s0.ram, pd, want, lo, hi, start, vaddr);
            return vaddr;
          }
          if pdIndex == pdEnd {
            ScanEnd(s0.ram, pd, lo, hi, want, start, pos + 1024, found, vaddr);
          }
        }
        pdIndex := pdIndex + 1;
      }
      NullAnswers(s0.ram, pd, want, lo, hi);
      return 0;
    }

    /** memclr(addr, n). */
    method MemClr(addr: Word, n: nat)
      requires Writable(ram, current.Pd(), addr, addr, n)
      modifies this`ram
      ensures ram == Cleared(old(ram), current.Pd(), addr, n)
    {
      ghost var pd, ram0 := current.Pd(), ram;
      for i := 0 to n
        invariant ram == Cleared(ram0, pd, addr, i)
      {
        ClearedWalk(ram0, pd, addr, addr, n, i, PageOf(addr + i));
        ram := StoreByte(ram, current.Pd(), addr + i, 0);
      }
    }

    method ClearPage(pt: Word)
      requires pt % PAGE_SIZE == 0 && Walk(ram, current.Pd(), PageOf(pt)).Some?
      requires Aside(ram, current.Pd(), Walk(ram, current.Pd(), PageOf(pt)).value, PageOf(pt))
      modifies this`ram
      ensures ram == old(ram)[Walk(old(ram), current.Pd(), PageOf(pt)).value := ZeroTable()]
    {
      ClearedPage(ram, current.Pd(), PageOf(pt), Walk(ram, current.Pd(), PageOf(pt)).value);
      forall x: Word | pt <= x < pt + PAGE_SIZE ensures PageOf(x) == PageOf(pt) {}
      MemClr(pt, PAGE_SIZE);
    }

    method CreatePagetable(context: Context, index: Index, flags: nat)
        returns (pt: Word, ghost mid: Sys, ghost t: Frame, ghost tw: Frame)
      requires Valid() && context in contexts && flags < 256
      requires context == current ==> Pde(View(), context, index) == 0 && index != SELF
      requires pmm.Free() != {}
      requires context != current ==> forall f :: f in pmm.Free() ==> Room(View().(free := View().free - {f}))
      modifies this`ram, this`roles, pmm, pmm.bitmap
      ensures Valid()
      ensures TableStep(old(View()), mid, context, index, t) && mid.ram[t] == ZeroTable()
      ensures FlagsKept(flags, Pde(mid, context, index)) && FlagsKept(VMM_KERNEL_FLAGS, Pde(mid, context, index))
      ensures context == current ==> pt == PtVaddr(index) && View() == mid
      ensures context != current ==>
        && pt == KernelSlot(old(View())) * PAGE_SIZE
        && MapStep(mid, View(), current, KernelSlot(old(View())), PageEntry(t * PAGE_SIZE, VMM_KERNEL_FLAGS), tw)
      decreases if context == current then 0 else 1, 3
    {
      hide Pmm.Pmm.Valid, Pmm.Pmm.View, Pmm.Pmm.Free, Pmm.FreeFrames, Pmm.After, Pmm.Allowed;
      hide Coherent, ContextOk, DirectoryOk, SelfMapped, KernelSlot, Room, Walk, Flagged, TableStep, MapStep;
      hide TableEntry, PageEntry, Aside;
      ghost var s := View();
      ContextFacts(s, context);
      var pagetable := pmm.Alloc();
      t := pagetable / PAGE_SIZE;
      var entry := TableEntry(pagetable, flags);
      Store(context.pagedir, index, entry);
      roles := roles[t := Owner(context.Pd(), index)];
      ghost var s1 := TableStored(s, context, index, entry);
      assert View() == s1;
      TableCoherent(s, s1, context, index, t);
      if context != current {
        TableKernelSlot(s, s1, context, index, t);
      }
      ghost var s2;
      pt, s2, tw := GetPagetable(context, index, flags);
      mid := s2.(ram := s2.ram[t := ZeroTable()]);
      TableFlagged(s, s1, s2, context, index, t);
      TableFlags(pagetable, flags);
      FlaggedSlot(s1, s2, context, index);
      FlaggedCoherent(s1, s2, context);
      if context != current {
        ghost var s3 := View();
        FreshWindow(s, s1, s2, s3, context, index, t, tw);
        FreshWindowCleared(s, s1, s2, s3, context, index, t, tw);
        ClearPage(pt);
        assert View() == s3.(ram := s3.ram[t := ZeroTable()]);
      } else {
        ContextFacts(s2, context);
        FreshTable(s, s2, context, index, t);
        ClearPage(pt);
        assert View() == mid;
      }
    }

    lemma ValidBitmap()
      requires pmm.Valid()
      ensures pmm.bitmap.Length == Pmm.BITMAP_SIZE
    {
    }

    /** Returns false where the C loop never leaves its empty-table branch: the slot is then 0 and the
        table's window page, taken for a physical address, is marked free. */
    method UnmapPage(context: Context, vaddr: Word) returns (done: bool, ghost mid: Sys, ghost s1: Sys, ghost tw: Frame)
      requires Valid() && context in contexts
      requires DirOf(PageOf(vaddr)) != SELF && Present(Pde(View(), context, DirOf(PageOf(vaddr))))
      requires forall d :: d in contexts ==> d.DirPage() != PageOf(vaddr)
      requires context != current ==> Room(View()) && PageOf(vaddr) != KernelSlot(View())
      modifies this`ram, this`roles, pmm, pmm.bitmap
      ensures pmm.Valid()
      ensures Flagged(old(View()), mid, context)
      ensures context == current ==> s1 == mid
      ensures context != current ==>
        MapStep(mid, s1, current, KernelSlot(old(View())),
          PageEntry(old(FrameOf(Pde(View(), context, DirOf(PageOf(vaddr))))) * PAGE_SIZE, VMM_KERNEL_FLAGS), tw)
      ensures done <==> Pinned(s1.ram[old(FrameOf(Pde(View(), context, DirOf(PageOf(vaddr)))))], SlotOf(PageOf(vaddr)))
      ensures done ==> Valid()
      ensures done ==>
        View() == s1.(ram := Poke(s1.ram, old(FrameOf(Pde(View(), context, DirOf(PageOf(vaddr))))),
          SlotOf(PageOf(vaddr)), 0))
      ensures !done ==> Pde(View(), context, DirOf(PageOf(vaddr))) == 0
      decreases if context == current then 0 else 1, 3
    {
      hide Pmm.Pmm.Valid, Pmm.Pmm.View, Pmm.Pmm.Free, Pmm.FreeFrames, Pmm.After, Pmm.Allowed;
      hide Coherent, ContextOk, DirectoryOk, SelfMapped, KernelSlot, Walk, Flagged, UnmapStep, MapStep, PageEntry;
      ghost var s, p: PageNo := View(), PageOf(vaddr);
      ghost var t := FrameOf(Pde(s, context, DirOf(p)));
      var pt;
      pt, mid, tw := GetPagetable(context, DirOf(PageOf(vaddr)), 0);
      s1 := View();
      UnmapThrough(s, mid, s1, context, p, tw);
      Store(pt, SlotOf(PageOf(vaddr)), 0);
      ghost var s2 := View();
      ContextFacts(s2, context);
      var i: nat := 0;
      while i < PT_SIZE
        invariant i < PT_SIZE && View() == s2 && pmm.Valid()
        invariant forall j: Index :: j < i ==> s2.ram[t][j] == 0
      {
        if Load(pt, i) != 0 {
          break;
        } else {
          if i == PT_SIZE - 1 {
            Store(context.pagedir, DirOf(PageOf(vaddr)), 0);
            ValidBitmap();
            pmm.Release(pt);
            assert forall j: Index :: j != SlotOf(p) ==> s1.ram[t][j] == s2.ram[t][j] == 0;
            return false, mid, s1, tw;
          } else {
            i := i + 1;
          }
        }
      }
      done := true;
    }

    /** The first part of vmm_map_page: the table of the page, present or new, and where it can be written. */
    method PlaceTable(context: Context, vaddr: Word, flags: nat, ghost e: Word)
      returns (pagetable: Word, ghost m: Sys, ghost t: Frame, ghost tw: Frame)
      requires Valid() && context in contexts && flags < 256 && Mappable(View(), context, PageOf(vaddr))
      requires forall w: Word :: FlagsKept(flags, w) && Present(w) ==> FlagsKept(e, w)
      modifies this`ram, this`roles, pmm, pmm.bitmap
      ensures FlagsKept(e, Pde(m, context, DirOf(PageOf(vaddr))))
      ensures Valid() && TableInPlace(old(View()), m, context, PageOf(vaddr), t) && m.cur == current
      ensures MapStep(old(View()), m.(ram := Poke(m.ram, t, SlotOf(PageOf(vaddr)), e)), context, PageOf(vaddr), e, t)
      ensures context == current ==> View() == m && pagetable == PtVaddr(DirOf(PageOf(vaddr)))
      ensures context != current ==>
        && pagetable == KernelSlot(old(View())) * PAGE_SIZE
        && MapStep(m, View(), current, KernelSlot(old(View())), PageEntry(t * PAGE_SIZE, VMM_KERNEL_FLAGS), tw)
      decreases if context == current then 0 else 1, 4, 0
    {
      hide Pmm.Pmm.Valid, Pmm.Pmm.View, Pmm.Pmm.Free, Pmm.FreeFrames, Pmm.After, Pmm.Allowed;
      hide Coherent, ContextOk, DirectoryOk, SelfMapped, Walk, Flagged, MapStep, TableStep, PageEntry;
      hide Pinned, TableInPlace, FlagsKept;
      ghost var s, p: PageNo := View(), PageOf(vaddr);
      ContextFacts(s, context);
      if Present(Load(context.pagedir, DirOf(PageOf(vaddr)))) {
        t := FrameOf(Pde(s, context, DirOf(p)));
        pagetable, m, tw := GetPagetable(context, DirOf(PageOf(vaddr)), flags);
        FlaggedSlot(s, m, context, DirOf(p));
        InPlacePresent(s, m, context, p, e);
      } else {
        pagetable, m, t, tw := CreatePagetable(context, DirOf(PageOf(vaddr)), flags);
        TableSlot(s, m, context, DirOf(p), t);
        InPlaceFresh(s, m, context, p, e, t);
      }
    }

    method MapPage(context: Context, vaddr: Word, paddr: Word, flags: nat)
      returns (r: int, ghost mid: Sys, ghost t: Frame)
      requires Valid() && context in contexts && flags < 256
      requires vaddr % PAGE_SIZE == 0 == paddr % PAGE_SIZE ==> Mappable(View(), context, PageOf(vaddr))
      modifies this`ram, this`roles, pmm, pmm.bitmap
      ensures Valid()
      ensures r == if vaddr % PAGE_SIZE == 0 == paddr % PAGE_SIZE then 0 else -1
      ensures r == -1 ==> View() == old(View())
      ensures r == 0 ==> MapStep(old(View()), mid, context, PageOf(vaddr), PageEntry(paddr, flags), t)
      ensures r == 0 && context == current ==> View() == mid
      ensures r == 0 && context != current ==> UnmapStep(mid, View(), current, KernelSlot(old(View())))
      ensures r == 0 ==> Mapped(old(View()), View(), context, PageOf(vaddr), PageOf(paddr))
      ensures r == 0 ==> Allows(View(), context, PageOf(vaddr), flags)
      ensures r == 0 ==> forall k: nat :: k < 12 ==>
        (Bit(Pte(View(), context, PageOf(vaddr)), k) <==> k == 0 || Bit(flags, k))
      decreases if context == current then 0 else 1, 4
    {
      hide Pmm.Pmm.Valid, Pmm.Pmm.View, Pmm.Pmm.Free, Pmm.FreeFrames, Pmm.After, Pmm.Allowed;
      hide Coherent, ContextOk, DirectoryOk, SelfMapped, Walk, Flagged, UnmapStep, MapStep, TableStep, PageEntry;
      hide Pinned, Mapped, TableInPlace, FlagsKept, Allows, Pte, Bit;
      if vaddr % PAGE_SIZE != 0 || paddr % PAGE_SIZE != 0 {
        return -1, View(), 0;
      }
      ghost var s, p: PageNo, e := View(), PageOf(vaddr), PageEntry(paddr, flags);
      ghost var m, tw;
      var pagetable;
      ContextFacts(s, context);
      forall w: Word | FlagsKept(flags, w) && Present(w) ensures FlagsKept(e, w) {
        PageFlagsKept(paddr, flags, w);
      }
      pagetable, m, t, tw := PlaceTable(context, vaddr, flags, e);
      ghost var v := View();
      mid := m.(ram := Poke(m.ram, t, SlotOf(p), e));
      ghost var v2 := v;
      if context != current {
        v2 := StoreRemote(s, m, v, context, p, e, t, tw);
      } else {
        StoreLocal(s, m, p, t, e);
      }
      Store(pagetable, SlotOf(PageOf(vaddr)), PageEntry(paddr, flags));
      if context == current {
        MapCoherent(s, mid, context, p, e, t);
        assert View() == mid;
        MappedLocal(s, mid, p, e, t);
      } else {
        assert View() == v2;
        var done, s1, _, _ := UnmapPage(current, pagetable);
        FlaggedSlot(v2, s1, current, 0);
        SlotNotDirectory(v2, current, DirOf(PageOf(pagetable)));
        RemoteMapped(s, m, mid, v, v2, s1, View(), context, p, e, t, tw);
      }
      MappedAllows(s, mid, View(), context, p, paddr, flags, t);
      r := 0;
    }

    /** Mapping a page whose table is not there and unmapping it again: the second call never returns. */
    method MapThenUnmap(vaddr: Word, paddr: Word, flags: nat) returns (done: bool)
      requires Valid() && flags < 256 && vaddr % PAGE_SIZE == 0 == paddr % PAGE_SIZE
      requires Mappable(View(), current, PageOf(vaddr)) && !Present(Pde(View(), current, DirOf(PageOf(vaddr))))
      modifies this`ram, this`roles, pmm, pmm.bitmap
      ensures !done
    {
      hide Pmm.Pmm.Valid, Pmm.Pmm.View, Pmm.Pmm.Free, Pmm.FreeFrames, Pmm.After, Pmm.Allowed;
      hide Coherent, MapStep, Flagged, PageEntry, Pinned, Mapped;
      ghost var s, p: PageNo := View(), PageOf(vaddr);
      MappableFacts(s, current, p);
      var _, m, t := MapPage(current, vaddr, paddr, flags);
      ghost var s1 := View();
      MapFacts(s, s1, current, p, PageEntry(paddr, flags), t);
      LonePage(s, s1, current, p, PageEntry(paddr, flags), t);
      ghost var mid, s2, tw;
      done, mid, s2, tw := UnmapPage(current, vaddr);
      FlaggedFrame(s1, mid, current, t);
    }

    /** memcpy(dst, src, n). */
    method MemCpy(dst: Word, src: Word, n: nat)
      requires Reachable(ram, current.Pd(), dst, src, n)
      modifies this`ram
      ensures ram == Forward(old(ram), current.Pd(), dst, src, n)
      ensures old(Copyable(ram, current.Pd(), dst, src, n)) ==> ram == Copied(old(ram), current.Pd(), dst, src, n)
    {
      hide StoreByte, LoadByte, Copyable;
      ghost var pd, ram0 := current.Pd(), ram;
      for i := 0 to n
        invariant ram == Forward(ram0, pd, dst, src, i)
      {
        ram := StoreByte(ram, current.Pd(), dst + i, LoadByte(ram, current.Pd(), src + i));
      }
      if Copyable(ram0, pd, dst, src, n) {
        CopyForward(ram0, pd, dst, src, n);
      }
    }

    /** vmm_paddr: the frame of the entry, present or not. On another context the table stays mapped at the
        kernel slot. */
    method PaddrOf(context: Context, vaddr: Word) returns (paddr: Word, ghost mid: Sys, ghost tw: Frame)
      requires Valid() && context in contexts
      requires DirOf(PageOf(vaddr)) != SELF && Present(Pde(View(), context, DirOf(PageOf(vaddr))))
      requires context != current ==> Room(View()) && PageOf(vaddr) != KernelSlot(View())
      modifies this`ram, this`roles, pmm, pmm.bitmap
      ensures Valid()
      ensures paddr == PAGE_SIZE *
        old(FrameOf(ram[FrameOf(Pde(View(), context, DirOf(PageOf(vaddr))))][SlotOf(PageOf(vaddr))]))
      ensures old(Tr(View(), context, PageOf(vaddr))).Some? ==>
        old(Tr(View(), context, PageOf(vaddr))) == Some(PageOf(paddr))
      ensures Flagged(old(View()), mid, context)
      ensures context == current ==> View() == mid
      ensures context != current ==>
        MapStep(mid, View(), current, KernelSlot(old(View())),
          PageEntry(old(FrameOf(Pde(View(), context, DirOf(PageOf(vaddr))))) * PAGE_SIZE, VMM_KERNEL_FLAGS), tw)
    {
      hide Pmm.Pmm.Valid, Pmm.Pmm.View, Pmm.Pmm.Free, Pmm.FreeFrames, Pmm.After, Pmm.Allowed;
      hide Coherent, ContextOk, DirectoryOk, SelfMapped, KernelSlot, Flagged, MapStep, PageEntry, Walk;
      ghost var s := View();
      var pt;
      pt, mid, tw := GetPagetable(context, DirOf(PageOf(vaddr)), 0);
      ReadThrough(s, mid, View(), context, PageOf(vaddr), tw);
      var entry := Load(pt, SlotOf(PageOf(vaddr)));
      EntryFrame(s, context, PageOf(vaddr), entry);
      paddr := entry - entry % PAGE_SIZE;
    }

    method MapArea(context: Context, vaddr: Word, paddr: Word, pages: nat, flags: nat)
      requires Valid() && context in contexts && flags < 256
      requires vaddr % PAGE_SIZE == 0 == paddr % PAGE_SIZE
      requires AreaMappable(View(), context, PageOf(vaddr), pages) && PageOf(paddr) + pages <= 0x10_0000
      modifies this`ram, this`roles, pmm, pmm.bitmap
      ensures Valid() && AreaMapped(old(View()), View(), context, PageOf(vaddr), pages, PageOf(paddr))
      ensures AreaAllows(View(), context, PageOf(vaddr), pages, flags)
    {
      hide Pmm.Pmm.Valid, Pmm.Pmm.View, Pmm.Pmm.Free, Pmm.FreeFrames;
      hide Coherent, MapStep, UnmapStep, Mappable, Mapped, PageEntry, KernelSlot, AreaMapped, AreaMappable;
      hide Allows, Pte, Bit, Walk;
      ghost var s0, p: PageNo, f: Frame := View(), PageOf(vaddr), PageOf(paddr);
      AreaPages(s0, context, p, pages);
      AreaStart(s0, context, p, pages, f);
      for page := 0 to pages
        invariant Valid() && AreaMapped(s0, View(), context, p, page, f)
        invariant AreaAllows(View(), context, p, page, flags)
        invariant AreaMappable(View(), context, p + page, pages - page)
      {
        ghost var s := View();
        AreaFirst(s, context, p + page, pages - page);
        PagesOn(vaddr, page);
        PagesOn(paddr, page);
        var _, m, t := MapPage(context, vaddr + page * PAGE_SIZE, paddr + page * PAGE_SIZE, flags);
        AreaFacts(s0, s, context, p, page, f);
        AreaRest(s, m, View(), context, p + page, pages - page, PageEntry(paddr + page * PAGE_SIZE, flags), t);
        AreaAllowsNext(s, m, View(), context, p, page, PageEntry(paddr + page * PAGE_SIZE, flags), t, flags);
        AreaNext(s0, s, View(), context, p, page, f);
      }
    }

    /** pmm_alloc, map the frame at the first free kernel page, memclr. */
    method FreshKernelPage() returns (paddr: Word, va: Word)
      requires Valid() && KernelPages(View()) != {} && |pmm.Free()| >= 2
      modifies this`ram, this`roles, pmm, pmm.bitmap
      ensures Valid() && Keeps(old(View()), View(), contexts) && FramesKept(old(View()), View())
      ensures PageOf(va) == old(KernelSlot(View())) && UserSlots(old(View()), View())
      ensures paddr % PAGE_SIZE == 0 && paddr / PAGE_SIZE in old(pmm.Free()) && paddr / PAGE_SIZE !in pmm.Free()
      ensures paddr / PAGE_SIZE !in roles && ram[paddr / PAGE_SIZE] == ZeroTable()
      ensures va % PAGE_SIZE == 0 && KERNEL <= DirOf(PageOf(va)) < SELF
      ensures Tr(View(), current, PageOf(va)) == Some(paddr / PAGE_SIZE)
      ensures PageOf(va) in old(KernelPages(View())) && KernelPages(View()) == old(KernelPages(View())) - {PageOf(va)}
      ensures |KernelPages(View())| == |old(KernelPages(View()))| - 1
      ensures |pmm.Free()| >= |old(pmm.Free())| - 2
    {
      hide Pmm.Pmm.Valid, Pmm.Pmm.View, Pmm.Pmm.Free, Pmm.FreeFrames, Pmm.After, Pmm.Allowed;
      hide Coherent, ContextOk, DirectoryOk, SelfMapped, Walk, MapStep, PageEntry, Keeps, KernelPages, KernelSlot;
      hide FramesKept;
      ghost var s := View();
      paddr := pmm.Alloc();
      ghost var f, s1 := paddr / PAGE_SIZE, View();
      AllocKeeps(s, f);
      PagesSlot(s1);
      ghost var t;
      va, t := AutomapKernelPage(current, paddr);
      ghost var s2 := View();
      AutomapKeeps(s1, s2, PageEntry(paddr, VMM_KERNEL_FLAGS), t);
      AutomapAside(s1, s2, PageEntry(paddr, VMM_KERNEL_FLAGS), t, f);
      FreshFrames(s, s1, s2, PageEntry(paddr, VMM_KERNEL_FLAGS), t, f);
      ClearPage(va);
      LooseKeeps(s2, f, ZeroTable());
      assert View() == s2.(ram := s2.ram[f := ZeroTable()]);
      KeepsTrans(s, s1, s2, contexts);
      KeepsTrans(s, s2, View(), contexts);
    }

    method UpdateContext(context: Context)
      requires Valid() && context in contexts
      modifies this`ram
      ensures Valid() && UpdateStep(old(View()), View(), context)
    {
      hide Pmm.Pmm.Valid, Pmm.Pmm.Free, Coherent, ContextOk, DirectoryOk, SelfMapped, Walk, Reachable, Forward, Spliced;
      ghost var s := View();
      ContextFacts(s, current);
      UpdatePointers(s, context);
      UpdatePointers(s, current);
      var upd, kpd, len := context.pagedir + 4 * KERNEL, current.pagedir + 4 * KERNEL, KERNEL_END_SLOT - KERNEL;
      UpdateCopyable(s, context, upd, kpd, len * 4);
      MemCpy(upd, kpd, len * 4);
      Store(context.pagedir, SELF, SelfEntry(context.pagedirPaddr));
      assert UpdateStep(s, View(), context);
      if context == current {
        UpdateSelf(s, View());
      } else {
        UpdateCoherent(s, View(), context);
      }
    }

    method ActivateContext(context: Context)
      requires Valid() && context in contexts
      modifies this`ram, this`current
      ensures Valid() && current == context && contexts == old(contexts)
      ensures context == old(current) ==> View() == old(View())
      ensures context != old(current) ==>
        exists s :: UpdateStep(old(View()), s, context) && View() == s.(cur := context)
    {
      if current != context {
        ghost var s := View();
        UpdateContext(context);
        ActivateCoherent(s, View(), context);
        ghost var s1 := View();
        current := context;
        assert UpdateStep(s, s1, context) && View() == s1.(cur := context);
      }
    }

    method CreateContext() returns (context: Context)
      requires Valid() && |KernelPages(View())| >= 2 && |pmm.Free()| >= 4
      modifies this`ram, this`roles, this`contexts, pmm, pmm.bitmap
      ensures Valid() && Keeps(old(View()), View(), old(contexts)) && FramesKept(old(View()), View())
      ensures context !in old(contexts) && contexts == old(contexts) + {context} && context.Pd() in old(pmm.Free())
      ensures SameTables(View(), context) && TwoTaken(old(View()), View()) && UserSlots(old(View()), View())
      ensures Empty(View(), context) && SharesKernel(View(), context) && SelfMapped(ram, context.Pd())
      ensures |KernelPages(View())| >= |old(KernelPages(View()))| - 2 && |pmm.Free()| >= |old(pmm.Free())| - 4
    {
      hide Pmm.Pmm.Valid, Pmm.Pmm.View, Pmm.Pmm.Free, Pmm.FreeFrames, Pmm.After, Pmm.Allowed;
      hide Coherent, ContextOk, DirectoryOk, SelfMapped, Walk, Keeps, KernelPages, UpdateStep, Empty, SharesKernel;
      hide FramesKept, SameTables, TwoTaken, KernelSlot, UserSlots;
      ghost var s := View();
      var paddr, ctx := FreshKernelPage();
      ghost var s1 := View();
      KeepsFree(s, s1, s.ctxs);
      var pdPaddr, pagedir := FreshKernelPage();
      ghost var s2 := View();
      KeepsLess(s1, s2, s1.ctxs, s.ctxs);
      KeepsTrans(s, s1, s2, s.ctxs);
      KeepsFree(s1, s2, s1.ctxs);
      FramesTrans(s, s1, s2);
      UserSlotsTrans(s, s1, s2);
      TwoLowest(s, s1, s2);
      context := Context(pagedir, pdPaddr);
      ContextFacts(s2, current);
      NewContext(s2, context);
      contexts := contexts + {context};
      roles := roles[context.Pd() := Directory(context.Pd())];
      ghost var s3 := View();
      UpdateContext(context);
      ghost var s4 := View();
      Created(s, s2, s3, s4, context);
      ContextFacts(s4, context);
      Store(context.pagedir, SELF, SelfEntry(pdPaddr));
      assert View() == s4;
    }

    /** One turn of the vmm_fork loop. */
    method ForkSlot(n: Context, i: Index)
      requires Valid() && n in contexts && n != current && Present(Pde(View(), current, i))
      requires |KernelPages(View())| >= 1 && |pmm.Free()| >= 2
      modifies this`ram, this`roles, pmm, pmm.bitmap
      ensures Valid() && SlotForked(old(View()), View(), n, i)
    {
      hide SameEntry, EntriesKept, WithFlags, Room;
      hide Pmm.Pmm.Valid, Pmm.Pmm.View, Pmm.Pmm.Free, Pmm.FreeFrames, Pmm.After, Pmm.Allowed, Coherent, ContextOk;
      hide DirectoryOk, SelfMapped, Walk, Keeps, KernelPages, KernelSlot, SlotForked, TableStep, MapStep, Flagged;
      hide PageEntry, Copyable, Reachable, Forward, Unused, Turned;
      ghost var s := View();
      PagesSlot(s);
      FreeAfterOne(s);
      ContextFacts(s, current);
      var newPt, m, t, tw := CreatePagetable(n, i, VMM_USER_FLAGS);
      ghost var v, w: PageNo, e := View(), KernelSlot(s), PageEntry(t * PAGE_SIZE, VMM_KERNEL_FLAGS);
      ForkSource(s, m, v, n, i, t, e, tw);
      var pt, x, _ := GetPagetable(current, i, VMM_USER_FLAGS);
      TurnReady(s, m, v, x, n, i, t, tw);
      TurnedDirectory(s, m, v, x, n, i, t, w, e, tw);
      ForkCopyable(x, w, i, t);
      CopyForward(ram, current.Pd(), newPt, pt, PAGE_SIZE);
      MemCpy(newPt, pt, PAGE_SIZE);
      ForkTurn(s, m, v, x, View(), n, i, t, w, e, tw);
    }

    /** There are frames and kernel pages for the new directory and for every slot that may have to be copied. */
    method Fork(context: Context) returns (newContext: Context)
      requires Valid() && context == current
      requires |KernelPages(View())| >= 2 + Slots(ram[current.Pd()], 0)
      requires |pmm.Free()| >= 4 + 2 * Slots(ram[current.Pd()], 0)
      modifies this`ram, this`roles, this`contexts, pmm, pmm.bitmap
      ensures Valid() && Forked(old(View()), View(), newContext)
    {
      hide Pmm.Pmm.Valid, Pmm.Pmm.View, Pmm.Pmm.Free, Pmm.FreeFrames, Pmm.After, Pmm.Allowed;
      hide Coherent, ContextOk, DirectoryOk, SelfMapped, Walk, Keeps, KernelPages, KernelSlot, SlotForked, Progress;
      hide Empty, SharesKernel, Forked, UserSlots;
      ghost var s0 := View();
      newContext := CreateContext();
      ContextFacts(s0, context);
      KeepsFree(s0, View(), s0.ctxs);
      ProgressStart(s0, View(), newContext);
      for i := 0 to 1024
        invariant Valid() && Progress(s0, View(), newContext, i)
      {
        ghost var s := View();
        ProgressFacts(s0, s, newContext, i);
        ContextFacts(s, context);
        if Load(context.pagedir, i) != 0 {
          ForkSlot(newContext, i);
          ProgressFork(s0, s, View(), newContext, i);
        } else {
          ProgressSkip(s0, s, newContext, i);
        }
      }
      ProgressEnd(s0, View(), newContext);
    }
  }

  /** Entry j of the current context's table dir, through the window. */
  lemma WindowEntry(s0: Sys, s: Sys, c: Context, pt: Word, dir: Index, j: Index)
    requires Coherent(s) && s.cur == c && Flagged(s0, s, c) && pt == PtVaddr(dir) && Present(Pde(s0, c, dir))
    ensures pt % PAGE_SIZE == 0 && Walk(s.ram, c.Pd(), pt / PAGE_SIZE).Some?
    ensures Present(s.ram[Walk(s.ram, c.Pd(), pt / PAGE_SIZE).value][j]) <==> Tr(s0, c, PageAt(dir, j)).Some?
  {
    hide Coherent, Flagged, Walk, ContextOk, DirectoryOk, SelfMapped;
    FlaggedSlot(s0, s, c, dir);
    ContextFacts(s, c);
    WindowSlot(s0, s, PageAt(dir, j));
    assert pt / PAGE_SIZE == PageAt(SELF, dir);
  }

  lemma EntryFrame(s: Sys, c: Context, p: PageNo, entry: Word)
    requires entry == s.ram[FrameOf(Pde(s, c, DirOf(p)))][SlotOf(p)]
    ensures entry - entry % PAGE_SIZE == PAGE_SIZE * FrameOf(entry)
    ensures PageOf(entry - entry % PAGE_SIZE) == FrameOf(entry)
    ensures Tr(s, c, p).Some? ==> Tr(s, c, p) == Some(FrameOf(entry))
  {
  }

  lemma MappableFacts(s: Sys, c: Context, p: PageNo)
    requires Mappable(s, c, p) && Coherent(s) && s.cur == c
    ensures DirOf(p) != SELF && c in s.ctxs && forall d :: d in s.ctxs ==> d.DirPage() != p
  {
    ContextFacts(s, c);
  }

  lemma FlaggedFrame(s: Sys, s': Sys, c: Context, t: Frame)
    requires Flagged(s, s', c) && t != c.Pd()
    ensures s'.ram[t] == s.ram[t]
  {
  }
}
