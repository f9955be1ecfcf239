/** The physical frame allocator: a bitmap with one bit for each of 2^20 frames, set when the
    frame is free, and a one-entry cache of the last freed address. */
module Pmm {
  import opened Bits
  import opened Options

  const BITMAP_SIZE := 0x8000

  type Bitmap = b: seq<Word> | |b| == 0x8000 witness seq<Word>(0x8000, _ => 0)

  predicate IsFree(b: Bitmap, f: Frame) {
    Bit(b[f / 32], f % 32)
  }

  ghost function FreeFrames(b: Bitmap): set<Frame> {
    set f: Frame | 0 <= f < 0x10_0000 && IsFree(b, f)
  }

  lemma SetBitFrees(b: Bitmap, f: Frame)
    ensures Or(b[f / 32], Shl(1, f % 32)) < 0x1_0000_0000
    ensures FreeFrames(b[f / 32 := Or(b[f / 32], Shl(1, f % 32))]) == FreeFrames(b) + {f}
  {
    ShlWord(f % 32);
    OrWord(b[f / 32], Shl(1, f % 32));
    forall g: Frame | g / 32 == f / 32
      ensures Bit(Or(b[f / 32], Shl(1, f % 32)), g % 32) <==> IsFree(b, g) || g == f
    {
      OrBit(b[f / 32], Shl(1, f % 32), g % 32);
      ShlBit(f % 32, g % 32);
    }
  }

  lemma ClearBitUses(b: Bitmap, f: Frame)
    ensures AndNot(b[f / 32], Shl(1, f % 32)) < 0x1_0000_0000
    ensures FreeFrames(b[f / 32 := AndNot(b[f / 32], Shl(1, f % 32))]) == FreeFrames(b) - {f}
  {
    AndNotLe(b[f / 32], Shl(1, f % 32));
    forall g: Frame | g / 32 == f / 32
      ensures Bit(AndNot(b[f / 32], Shl(1, f % 32)), g % 32) <==> IsFree(b, g) && g != f
    {
      AndNotBit(b[f / 32], Shl(1, f % 32), g % 32);
      ShlBit(f % 32, g % 32);
    }
  }

  lemma {:induction false} ShlWord(j: nat)
    requires j < 32
    ensures Shl(1, j) < 0x1_0000_0000
  {
    ShlMonotone(j, 31);
    assert Shl(1, 31) == 0x8000_0000 by { Shl31(); }
  }

  lemma Shl31()
    ensures Shl(1, 31) == 0x8000_0000 && Shl(1, 32) == 0x1_0000_0000
  {
    assert Shl(1, 8) == 256;
    assert Shl(1, 16) == 65536;
    assert Shl(1, 24) == 0x100_0000;
  }

  lemma {:induction false} ShlMonotone(j: nat, k: nat)
    requires j <= k
    ensures Shl(1, j) <= Shl(1, k)
  {
    if j < k {
      ShlMonotone(j, k - 1);
    }
  }

  /** What a caller can tell about the allocator: the free frames and the cached one. */
  datatype State = State(free: set<Frame>, cache: Option<Frame>)

  /** One call, together with what it returned. */
  datatype Event = Allocated(f: Frame) | Exhausted | Freed(f: Frame)

  ghost predicate Lowest(s: set<Frame>, f: Frame) {
    f in s && forall g :: g in s ==> f <= g
  }

  /** Whether a call can return this in state s. */
  ghost predicate Allowed(s: State, e: Event) {
    match e
    case Allocated(f) => s.cache == Some(f) || (s.cache == None && Lowest(s.free, f))
    case Exhausted => s.cache == None && s.free == {}
    case Freed(f) => f != 0
  }

  ghost function After(s: State, e: Event): State {
    match e
    case Allocated(f) => State(s.free - {f}, None)
    case Exhausted => s
    case Freed(f) => State(s.free + {f}, Some(f))
  }

  // ----- address ranges, walked page by page in 32-bit arithmetic -----

  /** The frames of addr, addr + PAGE_SIZE, .. below end. */
  ghost function Span(addr: nat, end: nat): set<Frame> {
    set f: Frame | 0 <= f < 0x10_0000 && addr / PAGE_SIZE <= f && f * PAGE_SIZE + addr % PAGE_SIZE < end
  }

  /** The walk comes to its end: otherwise addr wraps around below end for ever. */
  predicate Walkable(addr: Word, end: Word) {
    addr < end ==> end <= 0xffff_f000 + addr % PAGE_SIZE
  }

  /** The loop leaves addr, addr + PAGE_SIZE, .., in 32-bit arithmetic, exactly for a walkable range. */
  lemma WalkEnds(addr: Word, end: Word)
    ensures Walkable(addr, end) <==> exists k: nat :: After32(addr, k) >= end
  {
    if Walkable(addr, end) {
      var k: nat := if addr >= end then 0 else (end - addr + PAGE_SIZE - 1) / PAGE_SIZE;
      assert addr + k * PAGE_SIZE < 0x1_0000_0000;
      assert After32(addr, k) >= end;
    } else {
      forall k: nat ensures After32(addr, k) < end {
        StaysBelow(addr, k);
      }
    }
  }

  /** addr after k turns of the loop. */
  function After32(addr: Word, k: nat): Word { (addr + k * PAGE_SIZE) % 0x1_0000_0000 }

  /** The offset in the page never changes. */
  lemma StaysBelow(addr: Word, k: nat)
    ensures After32(addr, k) % PAGE_SIZE == addr % PAGE_SIZE && After32(addr, k) <= 0xffff_f000 + addr % PAGE_SIZE
  {
    var a, q := After32(addr, k), (addr + k * PAGE_SIZE) / 0x1_0000_0000;
    assert a == addr + k * PAGE_SIZE - q * 0x1_0000_0000 == addr + (k - q * 0x10_0000) * PAGE_SIZE;
    OffsetSame(addr, k - q * 0x10_0000);
  }

  /** An aligned free area below 4 GiB on which init_pmm never ends. */
  lemma EndlessArea(a: Area, k: nat)
    requires a == Area(0xfff0_0000, 0xf_ffff, PMM_FREE)
    ensures a.base % PAGE_SIZE == 0 && a.base + a.length < 0x1_0000_0000 && After32(a.Start(), k) < a.End()
  {
    WalkEnds(a.Start(), a.End());
  }

  lemma SpanNext(addr: Word, end: Word, a: Word)
    requires addr <= a < end && a % PAGE_SIZE == addr % PAGE_SIZE && Walkable(addr, end)
    ensures a + PAGE_SIZE < 0x1_0000_0000 && (a + PAGE_SIZE) % PAGE_SIZE == addr % PAGE_SIZE
    ensures Span(addr, a + PAGE_SIZE) == Span(addr, a) + {a / PAGE_SIZE}
  {
  }

  lemma SpanEnd(addr: Word, end: Word, a: Word)
    requires addr <= a && end <= a && a % PAGE_SIZE == addr % PAGE_SIZE && (a == addr || a < end + PAGE_SIZE)
    ensures Span(addr, a) == Span(addr, end)
  {
    forall f: Frame | f * PAGE_SIZE + addr % PAGE_SIZE < a
      ensures addr / PAGE_SIZE <= f ==> f * PAGE_SIZE + addr % PAGE_SIZE < end
    {
      assert a == a / PAGE_SIZE * PAGE_SIZE + addr % PAGE_SIZE;
      assert f < a / PAGE_SIZE;
    }
  }

  // ----- what the boot loader reports -----

  const PMM_FREE := 1
  const MULTIBOOT_INFO_SIZE := 80
  const VADDR_KERNEL_START := 0xc000_0000

  /** An entry of the memory map: base and length have 64 bits. */
  datatype Area = Area(base: nat, length: nat, kind: nat) {
    function Start(): Word { base % 0x1_0000_0000 }
    function End(): Word { (Start() + length) % 0x1_0000_0000 }

    /** The frames the entry releases. */
    ghost function Frames(): set<Frame> {
      if kind == PMM_FREE then Span(Start(), End()) else {}
    }
  }

  /** Below 4 GiB, an aligned free area releases the frames that start inside it, and no others. */
  lemma AreaFrames(a: Area, f: Frame)
    requires a.base % PAGE_SIZE == 0 && a.base + a.length < 0x1_0000_0000 && a.kind == PMM_FREE
    ensures f in a.Frames() <==> a.base <= f * PAGE_SIZE < a.base + a.length
  {
  }

  /** The area releases exactly the frames that start inside it. */
  ghost predicate Faithful(a: Area) {
    forall f: Frame :: f in a.Frames() <==> a.base <= f * PAGE_SIZE < a.base + a.length
  }

  /** A free area whose walk ends releases exactly the frames that start inside it if and only if it lies below
      4 GiB and is aligned or empty, or it starts behind the last frame and its base and end, cut to 32 bits,
      leave nothing between them. */
  lemma AreaExactly(a: Area)
    requires a.kind == PMM_FREE && Walkable(a.Start(), a.End())
    ensures Faithful(a) <==>
      || (a.base + a.length < 0x1_0000_0000 && (a.base % PAGE_SIZE == 0 || a.length == 0))
      || (a.base > 0xffff_f000 && a.Start() >= a.End())
  {
    if a.Start() < a.End() {
      WalkedExactly(a);
    } else {
      EmptyExactly(a);
    }
  }

  lemma WalkedExactly(a: Area)
    requires a.kind == PMM_FREE && Walkable(a.Start(), a.End()) && a.Start() < a.End()
    ensures Faithful(a) <==> a.base + a.length < 0x1_0000_0000 && a.base % PAGE_SIZE == 0
  {
    var first: Frame, last: Frame := a.Start() / PAGE_SIZE, 0xf_ffff;
    assert first in a.Frames();
    if Faithful(a) {
      assert a.base <= first * PAGE_SIZE;
      assert a.base == first * PAGE_SIZE;
      assert last !in a.Frames();
    }
  }

  lemma EmptyExactly(a: Area)
    requires a.kind == PMM_FREE && a.Start() >= a.End()
    ensures Faithful(a) <==> a.length == 0 || a.base > 0xffff_f000
  {
    var last: Frame := 0xf_ffff;
    assert a.Frames() == {};
    if a.length > 0 && a.base <= 0xffff_f000 {
      assert a.base <= last * PAGE_SIZE < a.base + a.length && last !in a.Frames();
    } else {
      forall f: Frame ensures !(a.base <= f * PAGE_SIZE < a.base + a.length) {
        assert f * PAGE_SIZE <= last * PAGE_SIZE;
      }
    }
  }

  /** Two pages from 4 GiB on release the frames 0 and 1, which lie below. */
  lemma HighArea(a: Area)
    requires a == Area(0x1_0000_0000, 0x2000, PMM_FREE)
    ensures Walkable(a.Start(), a.End()) && a.Frames() == {0, 1} && !(a.base <= 1 * PAGE_SIZE)
  {
  }

  datatype Module = Module(start: Word, end: Word)

  ghost function Released(areas: seq<Area>): set<Frame> {
    if areas == [] then {} else Released(areas[..|areas| - 1]) + areas[|areas| - 1].Frames()
  }

  ghost function Loaded(modules: seq<Module>): set<Frame> {
    if modules == [] then {}
    else Loaded(modules[..|modules| - 1]) + Span(modules[|modules| - 1].start, modules[|modules| - 1].end)
  }

  /** The address the code computes for the multiboot structure: a pointer difference, scaled by the size of
      the structure. */
  function MultibootPtr(mbInfo: Word): Word {
    (mbInfo - MULTIBOOT_INFO_SIZE * VADDR_KERNEL_START) % 0x1_0000_0000
  }

  /** The scaling makes the subtraction vanish: it is the frame of the virtual address that is marked, and
      the physical frame of the structure is not. */
  lemma MultibootUnreserved(mbInfo: Word)
    requires mbInfo >= VADDR_KERNEL_START
    ensures MultibootPtr(mbInfo) == mbInfo
    ensures MultibootPtr(mbInfo) / PAGE_SIZE != (mbInfo - VADDR_KERNEL_START) / PAGE_SIZE
  {
    assert MULTIBOOT_INFO_SIZE * VADDR_KERNEL_START == 60 * 0x1_0000_0000;
  }

  /** The frames init_pmm leaves free. */
  ghost function Initial(areas: seq<Area>, kernelStart: Word, kernelEnd: Word, mbInfo: Word, modsAddr: Word,
                         modules: seq<Module>): set<Frame>
  {
    Released(areas) - Span(kernelStart, kernelEnd)
      - {MultibootPtr(mbInfo) / PAGE_SIZE} - {modsAddr / PAGE_SIZE} - Loaded(modules) - {0}
  }

  // ----- the same, address by address -----

  function Turn(addr: nat, k: nat): nat { addr + k * PAGE_SIZE }

  /** One of the addresses addr, addr + PAGE_SIZE, .. below end lies in frame f. */
  ghost predicate Visits(addr: nat, end: nat, f: Frame) {
    exists k: nat :: Turn(addr, k) < end && Turn(addr, k) / PAGE_SIZE == f
  }

  lemma SpanVisits(addr: nat, end: nat, f: Frame)
    ensures f in Span(addr, end) <==> Visits(addr, end, f)
  {
    if f in Span(addr, end) {
      var k: nat := f - addr / PAGE_SIZE;
      assert Turn(addr, k) == f * PAGE_SIZE + addr % PAGE_SIZE;
    }
    if Visits(addr, end, f) {
      var k: nat :| Turn(addr, k) < end && Turn(addr, k) / PAGE_SIZE == f;
      assert f == addr / PAGE_SIZE + k;
    }
  }

  /** From an aligned address on the frames that start in the range are visited. */
  lemma VisitsAligned(addr: nat, end: nat, f: Frame)
    requires addr % PAGE_SIZE == 0
    ensures Visits(addr, end, f) <==> addr <= f * PAGE_SIZE < end
  {
    SpanVisits(addr, end, f);
  }

  /** Every frame that a nonempty range has bytes in is visited if and only if its first byte does not stand
      further behind its page's start than its last byte: else the last frame is left out. */
  lemma VisitsExactly(addr: Word, end: Word)
    requires addr < end
    ensures (forall f: Frame :: Visits(addr, end, f) <==> addr / PAGE_SIZE <= f <= (end - 1) / PAGE_SIZE)
      <==> addr % PAGE_SIZE <= (end - 1) % PAGE_SIZE
  {
    var last: Frame := (end - 1) / PAGE_SIZE;
    forall f: Frame ensures f in Span(addr, end) <==> Visits(addr, end, f) {
      SpanVisits(addr, end, f);
    }
    assert last in Span(addr, end) <==> addr % PAGE_SIZE <= (end - 1) % PAGE_SIZE;
    assert Visits(addr, end, last) <==> addr % PAGE_SIZE <= (end - 1) % PAGE_SIZE;
    forall f: Frame | addr % PAGE_SIZE <= (end - 1) % PAGE_SIZE
      ensures f in Span(addr, end) <==> addr / PAGE_SIZE <= f <= last
    {
    }
  }

  /** A module of 0xc00 bytes over two pages leaves its second frame free. */
  lemma ModuleCut(m: Module)
    requires m == Module(0x20_0800, 0x20_1400)
    ensures Visits(m.start, m.end, 0x200) && !Visits(m.start, m.end, 0x201) && (m.end - 1) / PAGE_SIZE == 0x201
  {
    SpanVisits(m.start, m.end, 0x200);
    SpanVisits(m.start, m.end, 0x201);
  }

  lemma {:induction false} ReleasedIn(areas: seq<Area>, f: Frame)
    ensures f in Released(areas) <==> exists a :: a in areas && f in a.Frames()
  {
    if areas != [] {
      var rest, a := areas[..|areas| - 1], areas[|areas| - 1];
      ReleasedIn(rest, f);
      assert areas == rest + [a];
    }
  }

  lemma {:induction false} LoadedIn(modules: seq<Module>, f: Frame)
    ensures f in Loaded(modules) <==> exists m :: m in modules && f in Span(m.start, m.end)
  {
    if modules != [] {
      var rest, m := modules[..|modules| - 1], modules[|modules| - 1];
      LoadedIn(rest, f);
      assert modules == rest + [m];
    }
  }

  /** The low 32 bits. */
  function Low(n: nat): Word { n % 0x1_0000_0000 }

  /** Some free area of the memory map releases the frame. */
  ghost predicate Offered(areas: seq<Area>, f: Frame) {
    exists a :: a in areas && a.kind == 1 && Visits(Low(a.base), Low(Low(a.base) + a.length), f)
  }

  /** The frame is free after init_pmm: an area releases it, and nothing that is marked afterwards takes it. */
  ghost predicate LeftFree(areas: seq<Area>, kernelStart: Word, kernelEnd: Word, mbInfo: Word, modsAddr: Word,
                           modules: seq<Module>, f: Frame)
  {
    && Offered(areas, f)
    && !Visits(kernelStart, kernelEnd, f) && (forall m :: m in modules ==> !Visits(m.start, m.end, f))
    && f != mbInfo / 0x1000 && f != modsAddr / 0x1000 && f != 0
  }

  lemma InitialIn(areas: seq<Area>, kernelStart: Word, kernelEnd: Word, mbInfo: Word, modsAddr: Word,
                  modules: seq<Module>, f: Frame)
    ensures f in Initial(areas, kernelStart, kernelEnd, mbInfo, modsAddr, modules) <==>
      LeftFree(areas, kernelStart, kernelEnd, mbInfo, modsAddr, modules, f)
  {
    hide Visits, Span;
    ReleasedIn(areas, f);
    LoadedIn(modules, f);
    SpanVisits(kernelStart, kernelEnd, f);
    forall a | a in areas
      ensures f in a.Frames() <==> a.kind == 1 && Visits(Low(a.base), Low(Low(a.base) + a.length), f)
    {
      SpanVisits(a.Start(), a.End(), f);
    }
    forall m | m in modules ensures f in Span(m.start, m.end) <==> Visits(m.start, m.end, f) {
      SpanVisits(m.start, m.end, f);
    }
    assert MultibootPtr(mbInfo) == mbInfo by {
      assert MULTIBOOT_INFO_SIZE * VADDR_KERNEL_START == 60 * 0x1_0000_0000;
    }
  }

  /** The free areas of the memory map are page-aligned and lie below 4 GiB, and kernel and modules start on
      page boundaries. */
  ghost predicate AlignedMap(areas: seq<Area>, kernelStart: Word, modules: seq<Module>) {
    && (forall a :: a in areas && a.kind == 1 ==> a.base % 0x1000 == 0 && a.base + a.length < 0x1_0000_0000)
    && kernelStart % 0x1000 == 0 && forall m :: m in modules ==> m.start % 0x1000 == 0
  }

  lemma OfferedAligned(areas: seq<Area>, kernelStart: Word, modules: seq<Module>, f: Frame)
    requires AlignedMap(areas, kernelStart, modules)
    ensures Offered(areas, f) <==>
      exists a :: a in areas && a.kind == 1 && a.base <= f * 0x1000 < a.base + a.length
  {
    hide Visits;
    forall a | a in areas && a.kind == 1
      ensures Visits(Low(a.base), Low(Low(a.base) + a.length), f) <==> a.base <= f * 0x1000 < a.base + a.length
    {
      VisitsAligned(a.base, a.base + a.length, f);
    }
  }

  /** On an aligned map a frame is free exactly when it starts inside a free area, but not inside the kernel or
      a module, and is neither frame 0 nor one of the two marked ones. */
  lemma FreeAligned(areas: seq<Area>, kernelStart: Word, kernelEnd: Word, mbInfo: Word, modsAddr: Word,
                    modules: seq<Module>, f: Frame)
    requires AlignedMap(areas, kernelStart, modules)
    ensures LeftFree(areas, kernelStart, kernelEnd, mbInfo, modsAddr, modules, f) <==>
      && (exists a :: a in areas && a.kind == 1 && a.base <= f * 0x1000 < a.base + a.length)
      && !(kernelStart <= f * 0x1000 < kernelEnd)
      && (forall m :: m in modules ==> !(m.start <= f * 0x1000 < m.end))
      && f != mbInfo / 0x1000 && f != modsAddr / 0x1000 && f != 0
  {
    hide Visits, Offered;
    OfferedAligned(areas, kernelStart, modules, f);
    VisitsAligned(kernelStart, kernelEnd, f);
    forall m | m in modules ensures Visits(m.start, m.end, f) <==> m.start <= f * 0x1000 < m.end {
      VisitsAligned(m.start, m.end, f);
    }
  }

  class Pmm {
    const bitmap: array<Word>
    var lastFreePtr: Word
    var canDoFastAlloc: bool

    ghost predicate Valid()
      reads this, bitmap
    {
      && bitmap.Length == BITMAP_SIZE
      && 0 !in FreeFrames(bitmap[..])
      && (canDoFastAlloc ==> lastFreePtr % PAGE_SIZE == 0 && lastFreePtr / PAGE_SIZE in FreeFrames(bitmap[..]))
    }

    ghost function View(): State
      reads this, bitmap
      requires Valid()
    {
      State(FreeFrames(bitmap[..]), if canDoFastAlloc then Some(lastFreePtr / PAGE_SIZE) else None)
    }

    ghost function Free(): set<Frame>
      reads this, bitmap
      requires Valid()
    {
      FreeFrames(bitmap[..])
    }

    /** All frames are used. */
    constructor ()
      ensures Valid() && Free() == {} && fresh(bitmap)
    {
      bitmap := new Word[BITMAP_SIZE](_ => 0);
      lastFreePtr := 0;
      canDoFastAlloc := false;
      new;
      NoneFree(bitmap[..]);
    }

    method FreeArea(start: Word, end: Word)
      requires bitmap.Length == BITMAP_SIZE && Walkable(start, end)
      modifies this, bitmap
      ensures FreeFrames(bitmap[..]) == FreeFrames(old(bitmap[..])) + Span(start, end)
    {
      hide FreeFrames;
      var addr := start;
      while addr < end
        invariant start <= addr && addr % PAGE_SIZE == start % PAGE_SIZE && (addr == start || addr < end + PAGE_SIZE)
        invariant FreeFrames(bitmap[..]) == FreeFrames(old(bitmap[..])) + Span(start, addr)
        decreases if addr < end then end - addr else 0
      {
        SpanNext(start, end, addr);
        Release(addr);
        addr := (addr + PAGE_SIZE) % 0x1_0000_0000;
      }
      SpanEnd(start, end, addr);
    }

    method UseArea(start: Word, end: Word)
      requires bitmap.Length == BITMAP_SIZE && Walkable(start, end)
      modifies bitmap
      ensures FreeFrames(bitmap[..]) == FreeFrames(old(bitmap[..])) - Span(start, end)
    {
      hide FreeFrames;
      var addr := start;
      while addr < end
        invariant start <= addr && addr % PAGE_SIZE == start % PAGE_SIZE && (addr == start || addr < end + PAGE_SIZE)
        invariant FreeFrames(bitmap[..]) == FreeFrames(old(bitmap[..])) - Span(start, addr)
        decreases if addr < end then end - addr else 0
      {
        SpanNext(start, end, addr);
        MarkUsed(addr);
        addr := (addr + PAGE_SIZE) % 0x1_0000_0000;
      }
      SpanEnd(start, end, addr);
    }

    /** init_pmm. */
    method Init(areas: seq<Area>, kernelStart: Word, kernelEnd: Word, mbInfo: Word, modsAddr: Word,
                modules: seq<Module>)
      requires bitmap.Length == BITMAP_SIZE
      requires forall a :: a in areas && a.kind == PMM_FREE ==> Walkable(a.Start(), a.End())
      requires Walkable(kernelStart, kernelEnd) && forall m :: m in modules ==> Walkable(m.start, m.end)
      modifies this, bitmap
      ensures Valid() && View() == State(Initial(areas, kernelStart, kernelEnd, mbInfo, modsAddr, modules), None)
      ensures forall f: Frame ::
        f in Free() <==> LeftFree(areas, kernelStart, kernelEnd, mbInfo, modsAddr, modules, f)
    {
      hide LeftFree, FreeFrames, Span, Walkable, MultibootPtr;
      for i := 0 to BITMAP_SIZE
        invariant forall k :: 0 <= k < i ==> bitmap[k] == 0
      {
        bitmap[i] := 0;
      }
      NoneFree(bitmap[..]);
      for i := 0 to |areas|
        invariant FreeFrames(bitmap[..]) == Released(areas[..i])
      {
        assert areas[..i + 1][..i] == areas[..i];
        if areas[i].kind == PMM_FREE {
          FreeArea(areas[i].Start(), areas[i].End());
        }
      }
      assert areas[..|areas|] == areas;
      UseArea(kernelStart, kernelEnd);
      MarkUsed(MultibootPtr(mbInfo));
      MarkUsed(modsAddr);
      ghost var before := FreeFrames(bitmap[..]);
      for i := 0 to |modules|
        invariant FreeFrames(bitmap[..]) == before - Loaded(modules[..i])
      {
        assert modules[..i + 1][..i] == modules[..i];
        UseArea(modules[i].start, modules[i].end);
      }
      assert modules[..|modules|] == modules;
      MarkUsed(0);
      canDoFastAlloc := false;
      forall f: Frame {
        InitialIn(areas, kernelStart, kernelEnd, mbInfo, modsAddr, modules, f);
      }
    }

    method MarkUsed(ptr: Word)
      requires bitmap.Length == BITMAP_SIZE
      modifies bitmap
      ensures FreeFrames(bitmap[..]) == FreeFrames(old(bitmap[..])) - {ptr / PAGE_SIZE}
    {
      var page := ptr / PAGE_SIZE;
      var i, j := page / 32, page % 32;
      ClearBitUses(bitmap[..], page);
      bitmap[i] := AndNot(bitmap[i], Shl(1, j));
      assert bitmap[..] == old(bitmap[..])[i := AndNot(old(bitmap[i]), Shl(1, j))];
    }

    method Release(ptr: Word)
      requires bitmap.Length == BITMAP_SIZE
      modifies this, bitmap
      ensures FreeFrames(bitmap[..]) == old(FreeFrames(bitmap[..])) + {ptr / PAGE_SIZE} && lastFreePtr == ptr
      ensures canDoFastAlloc
      ensures old(Valid()) && ptr % PAGE_SIZE == 0 && ptr != 0 ==>
        && Valid() && View() == After(old(View()), Freed(ptr / PAGE_SIZE))
        && Free() == old(Free()) + {ptr / PAGE_SIZE}
    {
      var page := ptr / PAGE_SIZE;
      var i, j := page / 32, page % 32;
      lastFreePtr := ptr;
      canDoFastAlloc := true;
      SetBitFrees(bitmap[..], page);
      bitmap[i] := Or(bitmap[i], Shl(1, j));
      assert bitmap[..] == old(bitmap[..])[i := Or(old(bitmap[i]), Shl(1, j))];
    }

    method Alloc() returns (r: Word)
      requires Valid()
      modifies this, bitmap
      ensures Valid()
      ensures r % PAGE_SIZE == 0
      ensures r == 0 <==> old(Free()) == {}
      ensures var e := if r == 0 then Exhausted else Allocated(r / PAGE_SIZE);
        Allowed(old(View()), e) && View() == After(old(View()), e)
      ensures old(canDoFastAlloc) ==> r == old(lastFreePtr)
      ensures !old(canDoFastAlloc) && r != 0 ==> forall f :: f in old(Free()) ==> r / PAGE_SIZE <= f
      ensures if r == 0 then Free() == {} == old(Free())
              else r / PAGE_SIZE in old(Free()) && Free() == old(Free()) - {r / PAGE_SIZE}
    {
      if canDoFastAlloc {
        canDoFastAlloc := false;
        MarkUsed(lastFreePtr);
        return lastFreePtr;
      }
      for i := 0 to BITMAP_SIZE
        invariant !canDoFastAlloc && !old(canDoFastAlloc) && bitmap[..] == old(bitmap[..])
        invariant forall f: Frame :: f / 32 < i ==> !IsFree(bitmap[..], f)
      {
        if bitmap[i] != 0 {
          ghost var k := NonzeroHasBit32(bitmap[i]);
          for j := 0 to 32
            invariant !canDoFastAlloc && !old(canDoFastAlloc) && bitmap[..] == old(bitmap[..])
            invariant forall f: Frame :: f / 32 == i && f % 32 < j ==> !IsFree(bitmap[..], f)
            invariant j <= k
          {
            if Bit(bitmap[i], j) {
              ghost var f: Frame := i * 32 + j;
              assert IsFree(bitmap[..], f);
              ClearBitUses(bitmap[..], f);
              assert Lowest(Free(), f);
              bitmap[i] := AndNot(bitmap[i], Shl(1, j));
              assert bitmap[..] == old(bitmap[..])[i := AndNot(old(bitmap[i]), Shl(1, j))];
              return (i * 32 + j) * PAGE_SIZE;
            }
          }
        } else {
          forall f: Frame | f / 32 == i ensures !IsFree(bitmap[..], f) { ZeroBit(f % 32); }
        }
      }
      return 0;
    }
  }

  lemma NonzeroHasBit32(w: Word) returns (k: nat)
    requires w != 0
    ensures k < 32 && Bit(w, k)
  {
    Shl31();
    k := NonzeroHasBit(w, 32);
  }

  lemma NoneFree(b: Bitmap)
    requires forall k :: 0 <= k < |b| ==> b[k] == 0
    ensures FreeFrames(b) == {}
  {
    forall f: Frame ensures !IsFree(b, f) { ZeroBit(f % 32); }
  }

  // ----- whole runs -----

  /** The allocator and the frames handed out and not given back. */
  datatype Ledger = Ledger(state: State, out: set<Frame>)

  /** One call: frames are given back by those who hold them. */
  ghost predicate Step(l: Ledger, e: Event, l': Ledger) {
    && Allowed(l.state, e) && l'.state == After(l.state, e)
    && match e
       case Allocated(f) => l'.out == l.out + {f}
       case Exhausted => l'.out == l.out
       case Freed(f) => f in l.out && l'.out == l.out - {f}
  }

  ghost predicate Run(ls: seq<Ledger>, es: seq<Event>) {
    && |ls| == |es| + 1
    && forall i :: 0 <= i < |es| ==> Step(ls[i], es[i], ls[i + 1])
  }

  /** The cache names a free frame; every frame of all is free or handed out, and not both. */
  ghost predicate Balanced(l: Ledger, all: set<Frame>) {
    && 0 !in all && l.state.free + l.out == all && l.state.free !! l.out
    && (l.state.cache.Some? ==> l.state.cache.value in l.state.free)
  }

  lemma {:induction false} RunBalanced(ls: seq<Ledger>, es: seq<Event>, all: set<Frame>, i: nat)
    requires Run(ls, es) && i < |ls| && Balanced(ls[0], all)
    ensures Balanced(ls[i], all)
  {
    if i > 0 {
      RunBalanced(ls, es, all, i - 1);
      assert Step(ls[i - 1], es[i - 1], ls[i - 1 + 1]);
    }
  }

  /** No frame is handed out while it is outstanding, and NULL is returned only when all are. */
  lemma RunAllocates(ls: seq<Ledger>, es: seq<Event>, all: set<Frame>, i: nat)
    requires Run(ls, es) && i < |es| && Balanced(ls[0], all)
    ensures es[i].Allocated? ==> es[i].f in all && es[i].f !in ls[i].out && es[i].f != 0
    ensures es[i].Exhausted? ==> ls[i].out == all
  {
    RunBalanced(ls, es, all, i);
    assert Step(ls[i], es[i], ls[i + 1]);
  }

  lemma {:induction false} StaysOut(ls: seq<Ledger>, es: seq<Event>, i: nat, j: nat, f: Frame)
    requires Run(ls, es) && i <= j < |ls| && f in ls[i].out
    requires forall k :: i <= k < j ==> es[k] != Freed(f)
    ensures f in ls[j].out
  {
    if i < j {
      StaysOut(ls, es, i, j - 1, f);
      assert Step(ls[j - 1], es[j - 1], ls[j - 1 + 1]);
    }
  }

  /** Between two allocations of the same frame it was freed. */
  lemma FreedBetween(ls: seq<Ledger>, es: seq<Event>, all: set<Frame>, i: nat, j: nat, f: Frame)
    requires Run(ls, es) && Balanced(ls[0], all) && i < j < |es| && es[i] == es[j] == Allocated(f)
    ensures exists k :: i < k < j && es[k] == Freed(f)
  {
    assert Step(ls[i], es[i], ls[i + 1]);
    RunAllocates(ls, es, all, j);
    if forall k :: i < k < j ==> es[k] != Freed(f) {
      StaysOut(ls, es, i + 1, j, f);
    }
  }

  /** init_pmm starts a balanced run. */
  lemma InitBalanced(areas: seq<Area>, kernelStart: Word, kernelEnd: Word, mbInfo: Word, modsAddr: Word,
                     modules: seq<Module>)
    ensures var all := Initial(areas, kernelStart, kernelEnd, mbInfo, modsAddr, modules);
      Balanced(Ledger(State(all, None), {}), all)
  {
  }
}
