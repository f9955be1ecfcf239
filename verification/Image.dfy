/** What a loaded executable looks like: through its program headers, and byte by byte. */
module Image {
  import opened Bits
  import opened Options
  import opened Mmu
  import opened Mem
  import opened Spaces
  import opened Rights
  import opened Elf
  import opened ElfFormat
  import opened Unload

  // ----- by program headers -----

  /** Every PT_LOAD entry below i is loaded, the other user pages of the context are as they were. */
  ghost predicate Loaded(s0: Sys, s: Sys, c: Context, img: seq<Byte>, i: nat) {
    && TableInside(img) && i <= HalfAt(img, 44) && Loads(s0, s, c)
    && (forall j: nat :: j < i && Header(img, j).kind == EPT_LOAD ==> HeaderLoaded(s, c, img, Header(img, j)))
    && (forall q: PageNo :: DirOf(q) < KERNEL && Uncovered(img, i, q) ==> Tr(s, c, q) == Tr(s0, c, q))
  }

  /** No PT_LOAD entry below n has the page. */
  ghost predicate Uncovered(img: seq<Byte>, n: nat, q: PageNo)
    requires n > 0 ==> TableInside(img) && n <= HalfAt(img, 44)
  {
    forall j: nat :: j < n && Header(img, j).kind == EPT_LOAD ==> !Header(img, j).Covers(q)
  }

  /** What a PT_LOAD entry that is aligned means; one that is not aligned is mapped nowhere. */
  ghost predicate HeaderLoaded(s: Sys, c: Context, img: seq<Byte>, ph: ProgramHeader) {
    ph.Aligned() ==> SegmentLoaded(s, c, ph.virtAddr, img, ph.offset, ph.fileSize, ph.memSize)
  }

  /** The first n program headers are loaded, and no other user page is mapped. */
  ghost predicate OnlyLoaded(s: Sys, c: Context, img: seq<Byte>, n: nat) {
    && (n > 0 ==> TableInside(img) && n <= HalfAt(img, 44))
    && (forall j: nat :: j < n && Header(img, j).kind == EPT_LOAD ==> HeaderLoaded(s, c, img, Header(img, j)))
    && (forall q: PageNo :: DirOf(q) < KERNEL && Uncovered(img, n, q) ==> Tr(s, c, q) == None)
  }

  // ----- by bytes -----

  /** The four bytes at o, the lowest first. */
  ghost function Number(img: seq<Byte>, o: nat): nat
    requires o + 4 <= |img|
  {
    img[o] as nat + 0x100 * (img[o + 1] as nat) + 0x1_0000 * (img[o + 2] as nat) + 0x100_0000 * (img[o + 3] as nat)
  }

  ghost function Entries(img: seq<Byte>): nat
    requires |img| >= 52
  {
    img[44] as nat + 0x100 * (img[45] as nat)
  }

  /** The file offset of program header i. */
  ghost function EntryOffset(img: seq<Byte>, i: nat): nat
    requires |img| >= 52
  {
    Number(img, 28) + 32 * i
  }

  ghost predicate IsEntry(img: seq<Byte>, o: nat) {
    |img| >= 52 && o + 32 <= |img| && exists i: nat :: i < Entries(img) && o == EntryOffset(img, i)
  }

  /** The program header at o asks for a segment at a page-aligned address. */
  ghost predicate AsksFor(img: seq<Byte>, o: nat)
    requires o + 32 <= |img|
  {
    img[o] == 1 && img[o + 1] == 0 && img[o + 2] == 0 && img[o + 3] == 0 && Number(img, o + 8) % 0x1000 == 0
  }

  /** Page q has bytes of the segment described at o. */
  ghost predicate HasPage(img: seq<Byte>, o: nat, q: PageNo)
    requires o + 32 <= |img|
  {
    AsksFor(img, o) && Number(img, o + 8) <= q * 0x1000 < Number(img, o + 8) + Number(img, o + 20)
  }

  /** Address a of the context is mapped for user programs to read and write (flags 0, 1 and 2), and byte b stands
      there. */
  ghost predicate Holds(s: Sys, c: Context, a: nat, b: Byte) {
    && a < 0xc000_0000 && Walk(s.ram, c.Pd(), a / 0x1000).Some?
    && ByteAt(s.ram[Walk(s.ram, c.Pd(), a / 0x1000).value], a % 0x1000) == b
    && Allows(s, c, a / 0x1000, 7)
  }

  /** Byte k of the segment described at o stands at its address: a byte of the file below the file size, 0 from
      there up to the memory size. */
  ghost predicate EntryByte(s: Sys, c: Context, img: seq<Byte>, o: nat, k: nat)
    requires o + 32 <= |img| && k < Number(img, o + 20)
  {
    if k < Number(img, o + 16) then
      Number(img, o + 4) + k < |img| && Holds(s, c, Number(img, o + 8) + k, img[Number(img, o + 4) + k])
    else
      Holds(s, c, Number(img, o + 8) + k, 0)
  }

  /** Every segment an aligned entry asks for stands in the context's memory. */
  ghost predicate InMemory(s: Sys, c: Context, img: seq<Byte>) {
    && |img| >= 52
    && (forall i: nat :: i < Entries(img) ==> EntryOffset(img, i) + 32 <= |img|)
    && forall o: nat :: IsEntry(img, o) && AsksFor(img, o) ==>
      forall k: nat :: k < Number(img, o + 20) ==> EntryByte(s, c, img, o, k)
  }

  /** No aligned entry asks for the page. */
  ghost predicate Unasked(img: seq<Byte>, q: PageNo) {
    forall o: nat :: IsEntry(img, o) ==> !HasPage(img, o, q)
  }

  lemma NumberWord(img: seq<Byte>, o: nat)
    requires o + 4 <= |img|
    ensures WordAt(img, o) == Number(img, o)
  {
  }

  /** The header accepted is a fixed run of bytes: the magic number, class 1, encoding 1, type 2, machine 3,
      version 1. */
  lemma LoadableBytes(img: seq<Byte>)
    requires |img| >= 52
    ensures Loadable(img) <==>
      && img[..6] == [0x7f, 0x45, 0x4c, 0x46, 1, 1]
      && img[16..24] == [2, 0, 3, 0, 1, 0, 0, 0]
  {
    forall j: nat | j < 6 ensures img[..6][j] == img[j] {}
    forall j: nat | j < 8 ensures img[16..24][j] == img[16 + j] {}
    NumberWord(img, 20);
  }

  /** The fields of the program header read at o are the words 0, 1, 2, 4 and 5 from there. */
  lemma HeaderBytes(img: seq<Byte>, o: nat)
    requires o + 32 <= |img|
    ensures var ph := HeaderAt(img, o);
      && (ph.kind == EPT_LOAD && ph.Aligned() <==> AsksFor(img, o))
      && ph.offset == Number(img, o + 4) && ph.virtAddr == Number(img, o + 8)
      && ph.fileSize == Number(img, o + 16) && ph.memSize == Number(img, o + 20)
  {
    NumberWord(img, o);
    NumberWord(img, o + 4);
    NumberWord(img, o + 8);
    NumberWord(img, o + 16);
    NumberWord(img, o + 20);
  }

  lemma EntryHeader(img: seq<Byte>, i: nat)
    requires TableInside(img) && i < HalfAt(img, 44)
    ensures HalfAt(img, 44) == Entries(img) && EntryOffset(img, i) + 32 <= |img|
    ensures Header(img, i) == HeaderAt(img, EntryOffset(img, i)) && IsEntry(img, EntryOffset(img, i))
  {
    NumberWord(img, 28);
  }

  lemma EntryIndex(img: seq<Byte>, o: nat) returns (i: nat)
    requires TableInside(img) && IsEntry(img, o)
    ensures i < HalfAt(img, 44) && o == EntryOffset(img, i) && Header(img, i) == HeaderAt(img, o)
  {
    i :| i < Entries(img) && o == EntryOffset(img, i);
    EntryHeader(img, i);
  }

  lemma SegmentBytes(s: Sys, c: Context, img: seq<Byte>, o: nat, k: nat)
    requires o + 32 <= |img| && AsksFor(img, o) && k < Number(img, o + 20)
    requires HeaderLoaded(s, c, img, HeaderAt(img, o))
    ensures EntryByte(s, c, img, o, k)
  {
    HeaderBytes(img, o);
    hide Number, HeaderAt, AsksFor;
    var ph := HeaderAt(img, o);
    assert SegmentByteAt(s, c, ph.virtAddr, img, ph.offset, ph.fileSize, k);
    UserHolds(s, c, ph.virtAddr + k, if k < ph.fileSize then img[ph.offset + k] else 0);
  }

  lemma UserHolds(s: Sys, c: Context, x: Word, b: Byte)
    requires UserByte(s, c, x, b)
    ensures Holds(s, c, x, b)
  {
    hide Walk, ByteAt, Allows;
  }

  /** An entry's pages are those that hold a byte of its segment. */
  lemma CoversBytes(img: seq<Byte>, i: nat, q: PageNo)
    requires SegmentsOk(img) && i < HalfAt(img, 44) && EntryOffset(img, i) + 32 <= |img|
    requires Header(img, i) == HeaderAt(img, EntryOffset(img, i))
    ensures Header(img, i).kind == EPT_LOAD && Header(img, i).Covers(q) <==> HasPage(img, EntryOffset(img, i), q)
  {
    HeaderBytes(img, EntryOffset(img, i));
    var ph := Header(img, i);
    if ph.kind == EPT_LOAD && ph.Aligned() {
      assert SegmentOk(ph, img);
      PagesCover(ph, q);
    }
  }

  lemma PagesCover(ph: ProgramHeader, q: PageNo)
    requires ph.Aligned() && ph.memSize <= 0xffff_f000
    ensures ph.Covers(q) <==> ph.virtAddr <= q * 0x1000 < ph.virtAddr + ph.memSize
  {
    NumPagesHold(ph.memSize);
  }

  /** Headers loaded one by one are segments in memory byte by byte. */
  lemma HeadersBytes(s: Sys, c: Context, img: seq<Byte>)
    requires TableInside(img)
    requires forall j: nat :: j < HalfAt(img, 44) && Header(img, j).kind == EPT_LOAD ==>
      HeaderLoaded(s, c, img, Header(img, j))
    ensures InMemory(s, c, img)
  {
    forall i: nat | i < Entries(img) ensures EntryOffset(img, i) + 32 <= |img| {
      EntryHeader(img, i);
    }
    forall o: nat, k: nat | IsEntry(img, o) && AsksFor(img, o) && k < Number(img, o + 20)
      ensures EntryByte(s, c, img, o, k)
    {
      var i := EntryIndex(img, o);
      HeaderBytes(img, o);
      SegmentBytes(s, c, img, o, k);
    }
  }

  lemma UnaskedUncovered(img: seq<Byte>, q: PageNo)
    requires SegmentsOk(img) && Unasked(img, q)
    ensures Uncovered(img, HalfAt(img, 44), q)
  {
    forall j: nat | j < HalfAt(img, 44) && Header(img, j).kind == EPT_LOAD ensures !Header(img, j).Covers(q) {
      EntryHeader(img, j);
      CoversBytes(img, j, q);
    }
  }

  /** What a context that was loaded holds, and what it held before. */
  lemma LoadedBytes(s0: Sys, s: Sys, c: Context, img: seq<Byte>)
    requires SegmentsOk(img) && Loaded(s0, s, c, img, HalfAt(img, 44))
    ensures InMemory(s, c, img)
    ensures forall q: PageNo :: q < 0xc_0000 && Unasked(img, q) ==> Walk(s.ram, c.Pd(), q) == Walk(s0.ram, c.Pd(), q)
  {
    hide HeaderLoaded, Unasked, SegmentsOk, Loads, Walk, HalfAt, Uncovered;
    HeadersBytes(s, c, img);
    forall q: PageNo | q < 0xc_0000 && Unasked(img, q)
      ensures Tr(s, c, q) == Tr(s0, c, q)
    {
      UnaskedUncovered(img, q);
    }
  }

  /** What a new context holds, and that it holds nothing else. */
  lemma OnlyBytes(s: Sys, c: Context, img: seq<Byte>)
    requires SegmentsOk(img) && OnlyLoaded(s, c, img, HalfAt(img, 44))
    ensures InMemory(s, c, img)
    ensures forall q: PageNo :: q < 0xc_0000 && Unasked(img, q) ==> Walk(s.ram, c.Pd(), q) == None
  {
    hide HeaderLoaded, Unasked, Walk, Uncovered, InMemory, Header;
    HeadersBytes(s, c, img);
    forall q: PageNo | q < 0xc_0000 && Unasked(img, q)
      ensures Tr(s, c, q) == None
    {
      UnaskedUncovered(img, q);
    }
  }
}
