/** Archives written byte by byte as the ustar Interchange Format lays them out (pax utility, IEEE Std 1003.1):
    what vfs_load_initrd can read. */
module Ustar {
  import opened Bits
  import opened Mmu
  import opened Strings
  import opened Numbers
  import opened Buffers
  import opened Tree
  import opened Tar
  import opened Unpack
  import opened Initrd

  /** Octal digit j of eleven, the highest first. */
  function OctalDigit(v: nat, j: nat): nat
    requires j < 11
  {
    Shr(v, 30 - 3 * j) % 8
  }

  /** The header block at o and the data behind it: the name with its end from byte 0, eleven octal digits of the
      size from byte 124, the data from byte 512. */
  ghost predicate Stored(mem: Memory, o: nat, it: Item) {
    var name := "." + it.Path();
    && |name| < 100 && o + 512 + |it.data| <= |mem|
    && (forall k :: 0 <= k < |name| ==> mem[o + k] as char == name[k]) && mem[o + |name|] == 0
    && (forall j :: 0 <= j < 11 ==> mem[o + 124 + j] as nat == 48 + OctalDigit(|it.data|, j))
    && (forall k :: 0 <= k < |it.data| ==> mem[o + 512 + k] == it.data[k])
  }

  /** The blocks of the items follow each other, and a block that begins with 0 comes last. */
  ghost predicate Packed(mem: Memory, offs: seq<nat>, items: seq<Item>) {
    && |offs| == |items| + 1 && offs[0] == 0 && offs[|items|] + 512 <= |mem| && mem[offs[|items|]] == 0
    && (forall i {:trigger items[i]} :: 0 <= i < |items| ==>
         Stored(mem, offs[i], items[i]) && offs[i + 1] == offs[i] + 512 + (|items[i].data| + 511) / 512 * 512)
  }

  lemma Shr3(v: nat, k: nat)
    ensures Shr(v, k + 3) == Shr(v, k) / 8
  {
    ShrAdd(v, k, 3);
    var w := Shr(v, k);
    assert Shr(w, 3) == Shr(w / 2, 2) == Shr(w / 2 / 2, 1) == w / 2 / 2 / 2;
  }

  /** Reading the first n digits gives the number without its last digits. */
  lemma {:induction false} DigitsRead(s: string, v: nat, n: nat)
    requires v < 0x8000_0000 && n <= |s| == 11
    requires forall j :: 0 <= j < 11 ==> s[j] as nat == 48 + OctalDigit(v, j)
    ensures Horner(s[..n], 8) == Shr(v, 33 - 3 * n)
  {
    if n == 0 {
      Shr32(v);
      ShrAdd(v, 32, 1);
      assert Shr(0, 1) == 0;
    } else {
      DigitsRead(s, v, n - 1);
      assert s[..n][..n - 1] == s[..n - 1];
      Shr3(v, 33 - 3 * n);
      assert Horner(s[..n], 8) == Horner(s[..n - 1], 8) * 8 + OctalDigit(v, n - 1);
    }
  }

  lemma StoredSize(mem: Memory, o: nat, it: Item)
    requires Stored(mem, o, it) && |it.data| < 0x8000_0000
    ensures SizeAt(mem, o) == |it.data|
  {
    var s := Chars(mem, o + 124, 12)[..11];
    DigitsRead(s, |it.data|, 11);
    assert s[..11] == s;
    assert Shr(|it.data|, 0) == |it.data|;
    hide Horner, OctalDigit;
  }

  lemma StoredEntry(mem: Memory, o: nat, it: Item)
    requires Stored(mem, o, it) && |it.data| < 0x8000_0000 && '\0' !in it.Path()
    ensures EntryAt(mem, o, it) && mem[o] != 0
  {
    StoredSize(mem, o, it);
    hide SizeAt, OctalDigit;
    var name, field := "." + it.Path(), Chars(mem, o, NAME_SIZE);
    assert field[|name|] == '\0' && field[..|name|] == name;
    TextIs(field, name);
    assert mem[o] as char == '.';
    assert mem[o + TAR_SIZE..o + TAR_SIZE + |it.data|] == it.data;
  }

  lemma {:induction false} PathZero(names: seq<string>)
    requires forall k :: 0 <= k < |names| ==> GoodName(names[k])
    ensures '\0' !in PathText(names)
  {
    if names != [] {
      PathZero(names[..|names| - 1]);
    }
  }

  lemma ItemZero(items: seq<Item>, i: nat)
    requires WellFormed(items) && i < |items|
    ensures '\0' !in items[i].Path() && |items[i].data| < 0x8000_0000
  {
    if i > 0 {
      assert ItemOk(items, i);
      PathZero(items[i].names);
    }
  }

  lemma StrideBlocks(size: nat)
    ensures Stride(size) == 512 + (size + 511) / 512 * 512
  {
  }

  lemma PackedEntry(mem: Memory, offs: seq<nat>, items: seq<Item>, i: nat)
    requires Packed(mem, offs, items) && WellFormed(items) && i < |items|
    ensures i + 1 < |offs| && offs[i] + 512 <= |mem|
    ensures EntryAt(mem, offs[i], items[i]) && Header(mem, offs[i], offs[i + 1])
  {
    hide Stride, SizeAt, WellFormed, Stored, EntryAt;
    assert Stored(mem, offs[i], items[i]);
    ItemZero(items, i);
    StoredInside(mem, offs[i], items[i]);
    StoredEntry(mem, offs[i], items[i]);
    StoredSize(mem, offs[i], items[i]);
    StrideBlocks(|items[i].data|);
  }

  /** An archive laid out like this is one that vfs_load_initrd unpacks into the items. */
  lemma PackedArchive(mem: Memory, offs: seq<nat>, items: seq<Item>)
    requires Packed(mem, offs, items) && WellFormed(items)
    ensures Archive(mem, offs, items)
  {
    hide EntryAt, Header, Stored, WellFormed, Packed;
    PackedEnd(mem, offs, items);
    forall i: nat | i < |items|
      ensures offs[i] + 512 <= |mem| && EntryAt(mem, offs[i], items[i]) && Header(mem, offs[i], offs[i + 1])
    {
      PackedEntry(mem, offs, items, i);
    }
  }

  lemma PackedEnd(mem: Memory, offs: seq<nat>, items: seq<Item>)
    requires Packed(mem, offs, items)
    ensures |offs| == |items| + 1 && offs[0] == 0 && offs[|offs| - 1] + TAR_SIZE <= |mem| && mem[offs[|offs| - 1]] == 0
  {
  }

  lemma StoredInside(mem: Memory, o: nat, it: Item)
    requires Stored(mem, o, it)
    ensures o + 512 <= |mem|
  {
  }
}
