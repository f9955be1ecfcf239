/** vfs_load_initrd. */
module Initrd {
  import opened Bits
  import opened Options
  import opened Mmu
  import opened Strings
  import opened Numbers
  import opened Buffers
  import opened Tree
  import opened Growth
  import opened Tar
  import opened Unpack
  import opened Vfs

  ghost predicate Archive(mem: Memory, offs: seq<nat>, items: seq<Item>) {
    && Blocks(mem, offs) && |items| == |offs| - 1 && WellFormed(items)
    && forall i :: 0 <= i < |items| ==> EntryAt(mem, offs[i], items[i])
  }

  /** The last nonempty token of a path; None for NULL. */
  method FileName(tokenizer: Tokenizer, path: string) returns (name: Option<string>)
    modifies tokenizer
    ensures name == LastToken(Split(path))
  {
    hide Split;
    name := None;
    ghost var seen: seq<string> := [];
    var str := tokenizer.Strtok(Some(path));
    while str.Some?
      invariant Split(path) == seen + (if str.Some? then [str.value] else []) + tokenizer.Rest()
      invariant str == None ==> tokenizer.Rest() == []
      invariant name == LastToken(seen)
      decreases |Split(path)| - |seen|
    {
      assert (seen + [str.value])[..|seen|] == seen;
      if str.value != "" {
        name := str;
      }
      seen := seen + [str.value];
      str := tokenizer.Strtok(None);
    }
    assert Split(path) == seen;
  }

  /** x was added to the table, and nothing else. */
  twostate predicate OneMore(vfs: Vfs)
    reads vfs
  {
    |vfs.table| == |old(vfs.table)| + 1 && vfs.table[..|old(vfs.table)|] == old(vfs.table)
      && fresh(vfs.table[|old(vfs.table)|])
  }

  /** The inode made for one entry, with its data if it is a file. */
  method AddInode(vfs: Vfs, name: string, data: seq<Byte>, dir: bool, parent: Inode?, area: seq<Byte>, ghost it: Item)
      returns (ghost file: File)
    requires vfs.Valid() && parent != null && vfs.Known(parent) && it.names != [] && it.Last() == name && it.dir == dir
    requires parent.number < |vfs.fs| && |vfs.fs[parent.number].entries| < PAGE_ENTRIES
    requires vfs.fs[parent.number].IsDir() && vfs.fs[parent.number].Writable()
    requires !dir ==> it.data == data && |data| < 0x8000_0000 && |area| == NumPages(|data|) * PAGE_SIZE + 1
    modifies vfs, parent
    ensures vfs.Valid() && vfs.root == old(vfs.root) && OneMore(vfs)
    ensures vfs.fs == Added(old(vfs.fs), parent.number, it, file) && (!dir ==> Sized(file) && Contents(file) == data)
  {
    hide Write, Written, Contents, Sized, Around, Grown, Bit;
    vfs.Facts(parent);
    file := File(0, None);
    ModeBits();
    if dir {
      CreateGrows(vfs.fs, name, DIR_MODE, parent.number, "");
      var _ := vfs.CreateInode(name, DIR_MODE, parent, "");
      AddedPlain(old(vfs.fs), parent.number, it);
    } else {
      CreateGrows(vfs.fs, name, FILE_MODE, parent.number, "");
      var inode := vfs.CreateInode(name, FILE_MODE, parent, "");
      vfs.Facts(inode);
      AddedPlain(old(vfs.fs), parent.number, it);
      FirstWrite(data, area);
      file := Written(File(0, None), 0, data, area, []);
      WriteFile(vfs.fs, inode.number, data, area);
      var _ := vfs.VfsWrite(inode, 0, data, area, []);
    }
  }

  lemma AddedPlain(fs: Fs, p: nat, it: Item)
    requires p < |fs| && it.names != []
    ensures var mode := if it.dir then DIR_MODE else FILE_MODE; var t := Grown(fs, it.Last(), mode, p);
      && Added(fs, p, it, File(0, None)) == t && |t| == |fs| + 1 && t[|fs|].file == File(0, None)
           && t[|fs|].mode == mode
      && forall file :: Added(fs, p, it, file) == t[|fs| := t[|fs|].(file := file)]
  {
  }

  lemma WriteFile(fs: Fs, x: nat, data: seq<Byte>, area: seq<Byte>)
    requires x < |fs| && fs[x].file == File(0, None) && Bit(fs[x].mode, 5)
    requires |data| < 0x8000_0000 && |area| == NumPages(|data|) * PAGE_SIZE + 1
    ensures Sized(File(0, None)) && Around(File(0, None), 0, |data|, area, [])
    ensures Write(fs, x, 0, data, area, []) == fs[x := fs[x].(file := Written(File(0, None), 0, data, area, []))]
  {
  }

  /** The body of the loop for one entry. */
  method LoadEntry(vfs: Vfs, mem: Memory, o: nat, size: nat, cwd: Inode, area: seq<Byte>, ghost items: seq<Item>,
                   ghost i: nat, ghost ids: seq<nat>)
    requires vfs.Valid() && vfs.root != null && vfs.Known(cwd) && o + TAR_SIZE <= |mem| && 1 <= i < |items|
    requires size == SizeAt(mem, o)
    requires WellFormed(items) && EntryAt(mem, o, items[i]) && Unpacked(vfs.fs, vfs.root.number, items, i, ids)
    requires |area| == NumPages(|items[i].data|) * PAGE_SIZE + 1
    modifies vfs, vfs.tokenizer, vfs.table
    ensures vfs.Valid() && vfs.root == old(vfs.root) && OneMore(vfs)
    ensures Unpacked(vfs.fs, vfs.root.number, items, i + 1, ids + [old(|vfs.fs|)])
  {
    hide Terminated, Chars, GoodName, Text;
    hide Unpacked, WellFormed, Added, Inside, TreeOk, SizeAt, Built;
    ghost var it, fs := items[i], vfs.fs;
    ghost var p := ParentBuilt(fs, vfs.root.number, items, i, ids);
    UnpackedTree(fs, vfs.root.number, items, i, ids);
    var name := Text(Chars(mem, o, NAME_SIZE));
    var path := name[1..];
    assert path == it.Path();
    PathShape(it);
    var filename, parentInode := FindParent(vfs, path, cwd, it, p);
    var data := mem[o + TAR_SIZE..o + TAR_SIZE + size];
    ghost var file := AddInode(vfs, filename, data, path[|path| - 1] == '/', parentInode, area, it);
    UnpackStep(fs, vfs.root.number, items, i, ids, p, file);
  }

  /** The name of an entry, and the directory it goes into. */
  method FindParent(vfs: Vfs, path: string, cwd: Inode, ghost it: Item, ghost p: nat)
    returns (filename: string, parentInode: Inode?)
    requires vfs.Valid() && vfs.root != null && vfs.Known(cwd) && path == it.Path()
    requires it.names != [] && forall k :: 0 <= k < |it.names| ==> GoodName(it.names[k])
    requires TreeOk(vfs.fs, vfs.root.number) && Inside(vfs.fs) && p < |vfs.fs|
    requires Names(vfs.fs, vfs.root.number, p) == Some(it.Above())
    modifies vfs.tokenizer
    ensures vfs.Valid() && filename == it.Last() && parentInode != null && vfs.Known(parentInode)
    ensures parentInode.number == p
  {
    hide GoodName, Vfs.Shown;
    hide Lookup, Inside, TreeOk, Split, LastToken, Names;
    vfs.Facts(cwd);
    PathShape(it);
    PathLast(it);
    ParentPath(vfs.fs, vfs.root.number, cwd.number, it, |path| - |it.Last()| - (if it.dir then 1 else 0), p);
    var last := FileName(vfs.tokenizer, path);
    filename := last.value;
    var parentLen := |path| - |filename|;
    if path[|path| - 1] == '/' && parentLen > 1 {
      parentLen := parentLen - 1;
    }
    var wild, left;
    parentInode, wild, left := vfs.PathLookup(path[..parentLen], cwd);
  }

  lemma UnpackedTree(fs: Fs, root: nat, items: seq<Item>, n: nat, ids: seq<nat>)
    requires Unpacked(fs, root, items, n, ids)
    ensures TreeOk(fs, root) && Inside(fs) && root < |fs|
  {
  }

  /** vfs_load_initrd on an empty root directory: areas[i] is what the pages allocated for the data of entry i
      hold, and the byte behind them. */
  method VfsLoadInitrd(vfs: Vfs, mem: Memory, cwd: Inode, areas: seq<seq<Byte>>, ghost offs: seq<nat>,
                       ghost items: seq<Item>)
      returns (ghost ids: seq<nat>)
    requires vfs.Valid() && vfs.root != null && vfs.Known(cwd) && Archive(mem, offs, items)
    requires Unpacked(vfs.fs, vfs.root.number, items, 1, [vfs.root.number])
    requires items != [] && |areas| == |items|
    requires forall i :: 0 <= i < |items| ==> |areas[i]| == NumPages(|items[i].data|) * PAGE_SIZE + 1
    modifies vfs, vfs.tokenizer, vfs.table
    ensures vfs.Valid() && vfs.root == old(vfs.root)
    ensures Unpacked(vfs.fs, vfs.root.number, items, |items|, ids)
  {
    hide Unpack.ItemOk;
    hide Archive, Unpacked, WellFormed, EntryAt, SizeAt, Stride, Blocks, Chars, Vfs.Valid, NumPages;
    ArchiveFacts(mem, offs, items, 0);
    var num := TarGetNumEntries(mem, offs);
    ids := [vfs.root.number];
    var initrd := 0;
    for i := 0 to num
      invariant initrd == offs[i] && vfs.Valid() && vfs.root == old(vfs.root) && vfs.Known(cwd)
      invariant |old(vfs.table)| <= |vfs.table| && vfs.table[..|old(vfs.table)|] == old(vfs.table)
      invariant forall k :: |old(vfs.table)| <= k < |vfs.table| ==> fresh(vfs.table[k])
      invariant Unpacked(vfs.fs, vfs.root.number, items, if i == 0 then 1 else i, ids)
    {
      ArchiveFacts(mem, offs, items, i);
      var size := TarGetsize(Chars(mem, initrd + SIZE_FIELD, 12));
      if i != 0 {
        ghost var x := |vfs.fs|;
        LoadEntry(vfs, mem, initrd, size, cwd, areas[i], items, i, ids);
        ids := ids + [x];
      }
      initrd := initrd + Stride(size);
    }
  }

  lemma ArchiveFacts(mem: Memory, offs: seq<nat>, items: seq<Item>, i: nat)
    requires Archive(mem, offs, items) && i < |items|
    ensures Blocks(mem, offs) && |items| == |offs| - 1 >= 1 && WellFormed(items) && offs[0] == 0
    ensures offs[i] + TAR_SIZE <= |mem| && EntryAt(mem, offs[i], items[i]) && SizeAt(mem, offs[i]) >= 0
    ensures SizeAt(mem, offs[i]) == Wrap(Horner(Chars(mem, offs[i] + SIZE_FIELD, 12)[..11], 8))
    ensures offs[i + 1] == offs[i] + Stride(SizeAt(mem, offs[i]))
  {
    HeaderAt(mem, offs, i);
    SizeIs(mem, offs[i]);
  }
}
