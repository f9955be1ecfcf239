/** Archives in the ustar Interchange Format (pax utility, IEEE Std 1003.1): a header block for each entry, then
    its data in blocks, and a block of zeros at the end. */
module Tar {
  import opened Bits
  import opened Mmu
  import opened Strings
  import opened Numbers

  const TAR_SIZE := 512
  const NAME_SIZE := 100
  const SIZE_FIELD := 124     // behind name, mode, uid and gid

  type Memory = seq<Byte>

  function Chars(mem: Memory, o: nat, n: nat): (s: string)
    requires o + n <= |mem|
    ensures |s| == n
  {
    seq(n, i requires 0 <= i < n => mem[o + i] as char)
  }

  /** The size field of the header at o. */
  function SizeAt(mem: Memory, o: nat): int
    requires o + TAR_SIZE <= |mem|
  {
    Wrap(Horner(Chars(mem, o + SIZE_FIELD, 12)[..11], 8))
  }

  /** Division as C does it. */
  function Quotient(a: int, b: nat): int
    requires b > 0
  {
    if a >= 0 then a / b else 0 - (-a / b)
  }

  /** The bytes from one header to the next. */
  function Stride(size: int): int {
    (Quotient(size, TAR_SIZE) + 1) * TAR_SIZE + if size - Quotient(size, TAR_SIZE) * TAR_SIZE != 0 then TAR_SIZE else 0
  }

  /** A header block and the data, rounded up to blocks. */
  lemma StrideRounds(size: nat)
    ensures TAR_SIZE + size <= Stride(size) < TAR_SIZE + size + TAR_SIZE && Stride(size) % TAR_SIZE == 0
  {
  }

  /** Headers lie at the places of offs; the last one is the zero block. */
  ghost predicate Blocks(mem: Memory, offs: seq<nat>) {
    && |offs| >= 1 && offs[0] == 0
    && (forall i :: 0 <= i < |offs| ==> offs[i] + TAR_SIZE <= |mem|)
    && (forall i {:trigger offs[i]} :: 0 <= i < |offs| - 1 ==> Header(mem, offs[i], offs[i + 1]))
    && mem[offs[|offs| - 1]] == 0
  }

  predicate Header(mem: Memory, o: nat, next: nat)
    requires o + TAR_SIZE <= |mem|
  {
    mem[o] != 0 && SizeAt(mem, o) >= 0 && next == o + Stride(SizeAt(mem, o))
  }

  lemma HeaderAt(mem: Memory, offs: seq<nat>, k: nat)
    requires Blocks(mem, offs) && k < |offs|
    ensures offs[k] + TAR_SIZE <= |mem| && (mem[offs[k]] == 0 <==> k == |offs| - 1)
    ensures k < |offs| - 1 ==> SizeAt(mem, offs[k]) >= 0 && offs[k + 1] == offs[k] + Stride(SizeAt(mem, offs[k]))
  {
    assert k < |offs| - 1 ==> Header(mem, offs[k], offs[k + 1]);
  }

  /** Counts the headers before the zero block: the first header is looked at twice, and the count starts
      at -1. An archive without entries therefore counts -1. */
  method TarGetNumEntries(mem: Memory, ghost offs: seq<nat>) returns (i: int)
    requires Blocks(mem, offs)
    ensures i == if |offs| == 1 then -1 else |offs| - 1
  {
    hide SizeAt, Stride;
    i := -1;
    var addr: int, header: nat := 0, 0;
    HeaderAt(mem, offs, 0);
    while mem[header] != 0
      invariant -1 <= i <= |offs| - 1 && (|offs| == 1 ==> i == -1)
      invariant header == offs[if i < 0 then 0 else i] && header + TAR_SIZE <= |mem|
      invariant mem[header] == 0 <==> (if i < 0 then 0 else i) == |offs| - 1
      invariant i < |offs| - 1 ==> addr == offs[i + 1]
      decreases |offs| - i
    {
      header := addr;
      HeaderAt(mem, offs, i + 1);
      var size := TarGetsize(Chars(mem, header + SIZE_FIELD, 12));
      SizeIs(mem, header);
      addr := addr + Stride(size);
      i := i + 1;
    }
  }

  lemma SizeIs(mem: Memory, o: nat)
    requires o + TAR_SIZE <= |mem|
    ensures SizeAt(mem, o) == Wrap(Horner(Chars(mem, o + SIZE_FIELD, 12)[..11], 8))
  {
  }
}
