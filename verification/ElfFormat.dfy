/** The parts of the ELF file format the loader reads (System V ABI, chapters 4 and 5). */
module ElfFormat {
  import opened Bits
  import opened Options
  import opened Mmu

  const ET_EXEC := 2
  const EM_386 := 3
  const ELF_VERSION_CURRENT := 1
  const EPT_LOAD: Word := 1
  const HEADER_SIZE := 52
  const PROGRAM_HEADER_SIZE := 32

  function HalfAt(img: seq<Byte>, o: nat): nat
    requires o + 2 <= |img|
  {
    img[o] as nat + 256 * (img[o + 1] as nat)
  }

  function WordAt(img: seq<Byte>, o: nat): Word
    requires o + 4 <= |img|
  {
    WordOf(img[o], img[o + 1], img[o + 2], img[o + 3])
  }

  /** A 32-bit little-endian executable for the Intel 80386. */
  predicate Loadable(img: seq<Byte>)
    requires |img| >= HEADER_SIZE
  {
    && img[0] == 0x7f && img[1] == 0x45 && img[2] == 0x4c && img[3] == 0x46
    && img[4] == 1 && img[5] == 1
    && HalfAt(img, 18) == EM_386 && HalfAt(img, 16) == ET_EXEC && WordAt(img, 20) == ELF_VERSION_CURRENT
  }

  /** Elf32_Phdr, without the fields the loader does not read. */
  datatype ProgramHeader = ProgramHeader(kind: Word, offset: Word, virtAddr: Word, fileSize: Word, memSize: Word) {
    function Pages(): nat { NumPages(memSize) }

    /** vmm_map_page maps nothing at an address that is not page-aligned. */
    predicate Aligned() { virtAddr % PAGE_SIZE == 0 }

    /** The first page, where the segment can be mapped. */
    function Place(): Option<nat> { if Aligned() then Some(virtAddr / PAGE_SIZE) else None }

    /** ph->virt_addr + j*PAGE_SIZE. */
    function PageAddr(j: nat): Word { (virtAddr + j * PAGE_SIZE) % 0x1_0000_0000 }

    /** Page q is mapped for the segment. */
    predicate Covers(q: PageNo) {
      Aligned() && virtAddr / PAGE_SIZE <= q < virtAddr / PAGE_SIZE + Pages()
    }
  }

  function HeaderAt(img: seq<Byte>, o: nat): ProgramHeader
    requires o + PROGRAM_HEADER_SIZE <= |img|
  {
    ProgramHeader(WordAt(img, o), WordAt(img, o + 4), WordAt(img, o + 8), WordAt(img, o + 16), WordAt(img, o + 20))
  }

  /** The program header table. It lies inside the image. */
  predicate TableInside(img: seq<Byte>) {
    |img| >= HEADER_SIZE && WordAt(img, 28) + PROGRAM_HEADER_SIZE * HalfAt(img, 44) <= |img|
  }

  function Header(img: seq<Byte>, i: nat): ProgramHeader
    requires TableInside(img) && i < HalfAt(img, 44)
  {
    HeaderAt(img, WordAt(img, 28) + PROGRAM_HEADER_SIZE * i)
  }

  /** A segment of user pages, or one that is not aligned and is mapped nowhere, with file size <= memory size.
      The copy moves whole pages, so that the image area must be as long as the segment's pages. */
  predicate SegmentOk(ph: ProgramHeader, img: seq<Byte>) {
    && (ph.Aligned() ==> ph.virtAddr / PAGE_SIZE + ph.Pages() <= KERNEL * 1024)
    && ph.fileSize <= ph.memSize <= 0xffff_f000
    && ph.offset + ph.Pages() * PAGE_SIZE <= |img|
  }

  /** What the loader asks of the segments: no page belongs to two of them. */
  ghost predicate SegmentsOk(img: seq<Byte>) {
    && TableInside(img)
    && (forall i: nat :: i < HalfAt(img, 44) && Header(img, i).kind == EPT_LOAD ==> SegmentOk(Header(img, i), img))
    && (forall i: nat, j: nat, q: PageNo ::
         i < j < HalfAt(img, 44) && Header(img, i).kind == Header(img, j).kind == EPT_LOAD ==>
         !(Header(img, i).Covers(q) && Header(img, j).Covers(q)))
  }

  /** The pages of the segments from entry i on. */
  function PagesFrom(img: seq<Byte>, i: nat): nat
    requires TableInside(img)
    decreases HalfAt(img, 44) - i
  {
    if i >= HalfAt(img, 44) then 0
    else (if Header(img, i).kind == EPT_LOAD then Header(img, i).Pages() else 0) + PagesFrom(img, i + 1)
  }
}
