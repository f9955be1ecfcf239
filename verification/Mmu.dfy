/** Physical memory and the two-level page walk of 32-bit paging (Intel SDM volume 3A, section 4.3,
    4-KByte pages). Memory is 2^20 frames of 1024 words; the words also carry the bytes that
    memcpy and memclr move. */
module Mmu {
  import opened Bits
  import opened Options

  const PT_SIZE := 1024
  const SELF := 960        // directory slot of VADDR_PT_START
  const KERNEL := 768      // directory slot of VADDR_KERNEL_START

  const VMM_PRESENT: nat := 1
  const VMM_WRITE: nat := 2
  const VMM_USER: nat := 4
  const VMM_KERNEL_FLAGS: nat := VMM_PRESENT + VMM_WRITE
  const VMM_USER_FLAGS: nat := VMM_PRESENT + VMM_WRITE + VMM_USER

  type Index = i: nat | i < 1024
  type Table = t: seq<Word> | |t| == 1024 witness seq(1024, _ => 0)
  function ZeroTable(): Table { seq(1024, _ => 0) }
  type Ram = m: seq<Table> | |m| == 0x10_0000 witness seq<Table>(0x10_0000, _ => ZeroTable())

  predicate Present(w: Word) { w % 2 == 1 }
  function FrameOf(w: Word): Frame { w / 0x1000 }
  function DirOf(p: PageNo): Index { p / 1024 }
  function SlotOf(p: PageNo): Index { p % 1024 }
  function PageAt(i: Index, j: Index): PageNo { i * 1024 + j }

  function Poke(ram: Ram, f: Frame, j: Index, w: Word): Ram {
    ram[f := ram[f][j := w]]
  }

  /** The hardware translation of a virtual page under page directory pd. */
  function Walk(ram: Ram, pd: Frame, p: PageNo): Option<Frame> {
    var pde := ram[pd][DirOf(p)];
    if !Present(pde) then None
    else
      var pte := ram[FrameOf(pde)][SlotOf(p)];
      if Present(pte) then Some(FrameOf(pte)) else None
  }

  predicate SelfMapped(ram: Ram, pd: Frame) {
    Present(ram[pd][SELF]) && FrameOf(ram[pd][SELF]) == pd
  }

  /** Through the self-map, page i of the window is the table that directory slot i points to. */
  lemma WindowWalk(ram: Ram, pd: Frame, i: Index)
    requires SelfMapped(ram, pd)
    ensures Walk(ram, pd, PageAt(SELF, i)) == if Present(ram[pd][i]) then Some(FrameOf(ram[pd][i])) else None
  {
  }

  // ----- bytes -----

  type Byte = b: nat | b < 256
  type Offset = k: nat | k < 0x1000

  function ByteOf(w: Word, n: nat): Byte
    requires n < 4
  {
    if n == 0 then w % 256
    else if n == 1 then w / 256 % 256
    else if n == 2 then w / 256 / 256 % 256
    else w / 256 / 256 / 256
  }

  function WordOf(b0: Byte, b1: Byte, b2: Byte, b3: Byte): Word {
    b0 + 256 * (b1 + 256 * (b2 + 256 * b3))
  }

  lemma WordBytes(b0: Byte, b1: Byte, b2: Byte, b3: Byte)
    ensures var w := WordOf(b0, b1, b2, b3);
      ByteOf(w, 0) == b0 && ByteOf(w, 1) == b1 && ByteOf(w, 2) == b2 && ByteOf(w, 3) == b3
  {
    var w := WordOf(b0, b1, b2, b3);
    assert w / 256 == b1 + 256 * (b2 + 256 * b3);
    assert w / 256 / 256 == b2 + 256 * b3;
  }

  function WithByte(w: Word, n: nat, b: Byte): (r: Word)
    requires n < 4
    ensures forall m: nat :: m < 4 ==> ByteOf(r, m) == if m == n then b else ByteOf(w, m)
  {
    var b0 := if n == 0 then b else ByteOf(w, 0);
    var b1 := if n == 1 then b else ByteOf(w, 1);
    var b2 := if n == 2 then b else ByteOf(w, 2);
    var b3 := if n == 3 then b else ByteOf(w, 3);
    WordBytes(b0, b1, b2, b3);
    WordOf(b0, b1, b2, b3)
  }

  function ByteAt(t: Table, k: Offset): Byte { ByteOf(t[k / 4], k % 4) }

  function SetByte(t: Table, k: Offset, b: Byte): (r: Table)
    ensures forall m: Offset :: ByteAt(r, m) == if m == k then b else ByteAt(t, m)
  {
    t[k / 4 := WithByte(t[k / 4], k % 4, b)]
  }

  /** A frame is determined by its bytes. */
  lemma SameBytes(t: Table, u: Table)
    requires forall k: Offset :: ByteAt(t, k) == ByteAt(u, k)
    ensures t == u
  {
    hide ByteAt, ByteOf;
    forall j: Index ensures t[j] == u[j] {
      forall n: nat | n < 4 ensures ByteOf(t[j], n) == ByteOf(u[j], n) {
        WordByte(t, j, n);
        WordByte(u, j, n);
        assert ByteAt(t, 4 * j + n) == ByteAt(u, 4 * j + n);
      }
      SameWord(t[j], u[j]);
    }
  }

  lemma WordByte(t: Table, j: Index, n: nat)
    requires n < 4
    ensures 4 * j + n < PAGE_SIZE && ByteAt(t, 4 * j + n) == ByteOf(t[j], n)
  {
    hide ByteOf;
  }

  lemma SameWord(w: Word, x: Word)
    requires forall n: nat :: n < 4 ==> ByteOf(w, n) == ByteOf(x, n)
    ensures w == x
  {
    hide ByteOf, WordOf;
    Digits(w);
    Digits(x);
  }

  lemma Digits(w: Word)
    ensures w == WordOf(ByteOf(w, 0), ByteOf(w, 1), ByteOf(w, 2), ByteOf(w, 3))
  {
  }

  function PokeByte(ram: Ram, f: Frame, k: Offset, b: Byte): Ram {
    ram[f := SetByte(ram[f], k, b)]
  }
}
