/** Unpacking an archive into the tree: what has been built after the first n entries. */
module Unpack {
  import opened Bits
  import opened Options
  import opened Mmu
  import opened Strings
  import opened Buffers
  import opened Tree
  import opened Growth
  import opened Tar

  const DIR_MODE: Word := 0x1ff1       // S_MODE_DIR | 0x1ff0
  const FILE_MODE: Word := 0x1ff0

  /** An archived directory or file under its names below "./". */
  datatype Item = Item(names: seq<string>, dir: bool, data: seq<Byte>) {
    function Last(): string requires names != [] { names[|names| - 1] }
    function Above(): seq<string> requires names != [] { names[..|names| - 1] }

    /** The name in the header, without the leading '.'. */
    function Path(): string {
      if names == [] then "/" else PathText(names) + if dir then "/" else ""
    }
  }

  predicate EntryAt(mem: Memory, o: nat, it: Item)
    requires o + TAR_SIZE <= |mem|
  {
    && Terminated(Chars(mem, o, NAME_SIZE)) && Text(Chars(mem, o, NAME_SIZE)) == "." + it.Path()
    && SizeAt(mem, o) == |it.data| && o + TAR_SIZE + |it.data| <= |mem|
    && mem[o + TAR_SIZE..o + TAR_SIZE + |it.data|] == it.data
  }

  /** The number of items 1..n directly below the directory named p. */
  function Children(items: seq<Item>, n: nat, p: seq<string>): nat
    requires n <= |items|
  {
    if n <= 1 then 0
    else Children(items, n - 1, p) + if items[n - 1].names != [] && items[n - 1].Above() == p then 1 else 0
  }

  /** "./" comes first, parents come before their children, names are distinct, and a directory has a page of
      dentries at most. */
  ghost predicate WellFormed(items: seq<Item>) {
    && items != [] && items[0] == Item([], true, [])
    && (forall i :: 1 <= i < |items| ==> ItemOk(items, i))
    && (forall i, j :: 0 <= i < j < |items| ==> items[i].names != items[j].names)
  }

  ghost predicate ItemOk(items: seq<Item>, i: nat)
    requires 1 <= i < |items|
  {
    && items[i].names != [] && (forall k :: 0 <= k < |items[i].names| ==> GoodName(items[i].names[k]))
    && (items[i].dir ==> items[i].data == []) && |items[i].data| < 0x8000_0000
    && (exists j :: 0 <= j < i && items[j].dir && items[j].names == items[i].Above())
    && Children(items, i, items[i].Above()) < PAGE_ENTRIES
  }

  /** Inode x is what item it became, with n children so far. */
  ghost predicate Built(fs: Fs, root: nat, x: nat, it: Item, n: nat)
    requires Inside(fs)
  {
    && x < |fs| && Names(fs, root, x) == Some(it.names) && fs[x].IsDir() == it.dir
    && (it.dir ==> fs[x].Writable() && |fs[x].entries| == n)
    && (!it.dir ==> Sized(fs[x].file) && Contents(fs[x].file) == it.data)
  }

  /** The first n items have become the inodes ids, and nothing else is below the root. */
  ghost predicate Unpacked(fs: Fs, root: nat, items: seq<Item>, n: nat, ids: seq<nat>) {
    && TreeOk(fs, root) && 1 <= n <= |items| && |ids| == n && ids[0] == root
    && (forall i :: 0 <= i < n ==> Built(fs, root, ids[i], items[i], Children(items, n, items[i].names)))
    && (forall x :: 0 <= x < |fs| && Names(fs, root, x).Some? ==> x in ids)
  }

  /** The new inode, entered and, if it is a file, written. */
  function Added(fs: Fs, p: nat, it: Item, file: File): Fs
    requires p < |fs| && it.names != []
  {
    var t := Grown(fs, it.Last(), if it.dir then DIR_MODE else FILE_MODE, p);
    t[|fs| := t[|fs|].(file := file)]
  }

  lemma ModeBits()
    ensures Bit(DIR_MODE, 0) && !Bit(FILE_MODE, 0) && Bit(DIR_MODE, 5) && Bit(FILE_MODE, 5)
  {
    assert Shr(0x1ff1, 0) == 0x1ff1 && Shr(0x1ff0, 0) == 0x1ff0;
    assert Shr(0x1ff1, 5) == Shr(0xff8, 4) == Shr(0x7fc, 3) == Shr(0x3fe, 2) == Shr(0x1ff, 1) == 0xff;
    assert Shr(0x1ff0, 5) == Shr(0xff8, 4);
  }

  /** No sibling has the name. */
  lemma NewName(fs: Fs, root: nat, items: seq<Item>, n: nat, ids: seq<nat>, p: nat)
    requires WellFormed(items) && Unpacked(fs, root, items, n, ids) && n < |items|
    requires p < |fs| && items[n].names != [] && Names(fs, root, p) == Some(items[n].Above())
    ensures Match(fs[p].entries, items[n].Last()) == None
  {
    if Match(fs[p].entries, items[n].Last()).Some? {
      SiblingNames(fs, root, items[n].Last(), p);
    }
  }

  lemma {:induction false} NoChildren(items: seq<Item>, n: nat, p: seq<string>)
    requires n <= |items| && forall k :: 1 <= k < n ==> items[k].names != [] && items[k].Above() != p
    ensures Children(items, n, p) == 0
  {
    if n > 1 {
      NoChildren(items, n - 1, p);
    }
  }

  /** The new item has no children yet. */
  lemma NewChildless(items: seq<Item>, n: nat)
    requires WellFormed(items) && 1 <= n < |items|
    ensures Children(items, n + 1, items[n].names) == 0
  {
    forall k | 1 <= k < n + 1 ensures items[k].names != [] && items[k].Above() != items[n].names {
      assert ItemOk(items, k);
    }
    NoChildren(items, n + 1, items[n].names);
  }

  lemma AddedTree(fs: Fs, root: nat, p: nat, it: Item, file: File)
    requires TreeOk(fs, root) && p < |fs| && fs[p].IsDir() && it.names != [] && Names(fs, root, p) == Some(it.Above())
    requires GoodName(it.Last()) && Match(fs[p].entries, it.Last()) == None
    ensures var t, n := Added(fs, p, it, file), |fs|;
      && TreeOk(t, root) && |t| == n + 1 && Names(t, root, n) == Some(it.names)
      && (forall x :: 0 <= x < n ==> Names(t, root, x) == Names(fs, root, x))
      && (forall x :: 0 <= x < n ==> t[x] == if x == p then fs[x].(entries := t[x].entries) else fs[x])
      && |t[p].entries| == |fs[p].entries| + 1
      && t[n] == Node(it.Last(), if it.dir then DIR_MODE else FILE_MODE, Some(p), file, [])
  {
    var mode := if it.dir then DIR_MODE else FILE_MODE;
    var t := Grown(fs, it.Last(), mode, p);
    GrownOk(fs, root, it.Last(), mode, p);
    GrownNames(fs, root, it.Last(), mode, p);
    WriteKeeps(t, root, |fs|, file);
    assert it.Above() + [it.Last()] == it.names;
  }

  /** One more entry is unpacked. */
  lemma UnpackStep(fs: Fs, root: nat, items: seq<Item>, n: nat, ids: seq<nat>, p: nat, file: File)
    requires WellFormed(items) && Unpacked(fs, root, items, n, ids) && n < |items| && p < |fs| && ItemOk(items, n)
    requires Names(fs, root, p) == Some(items[n].Above()) && fs[p].IsDir()
    requires !items[n].dir ==> Sized(file) && Contents(file) == items[n].data
    ensures Unpacked(Added(fs, p, items[n], file), root, items, n + 1, ids + [|fs|])
  {
    hide Added, TreeOk, GoodName, Inside, Match, Children, Built, WellFormed, Contents, Sized;
    var t, x := Added(fs, p, items[n], file), |fs|;
    NewName(fs, root, items, n, ids, p);
    AddedTree(fs, root, p, items[n], file);
    NewBuilt(fs, root, items, n, p, file);
    forall i | 0 <= i < n ensures Built(t, root, ids[i], items[i], Children(items, n + 1, items[i].names)) {
      BuiltKept(fs, root, items, n, p, file, ids[i], items[i]);
    }
  }

  lemma NewBuilt(fs: Fs, root: nat, items: seq<Item>, n: nat, p: nat, file: File)
    requires WellFormed(items) && 1 <= n < |items| && TreeOk(fs, root) && p < |fs| && ItemOk(items, n)
    requires fs[p].IsDir() && Names(fs, root, p) == Some(items[n].Above())
    requires Match(fs[p].entries, items[n].Last()) == None
    requires !items[n].dir ==> Sized(file) && Contents(file) == items[n].data
    ensures var t := Added(fs, p, items[n], file);
      TreeOk(t, root) && Built(t, root, |fs|, items[n], Children(items, n + 1, items[n].names))
  {
    AddedTree(fs, root, p, items[n], file);
    NewChildless(items, n);
    ModeBits();
    hide Added, TreeOk, GoodName, Contents, Sized, Bit, Match, Children;
  }

  lemma BuiltKept(fs: Fs, root: nat, items: seq<Item>, n: nat, p: nat, file: File, x: nat, it: Item)
    requires 1 <= n < |items| && TreeOk(fs, root) && p < |fs| && ItemOk(items, n)
    requires fs[p].IsDir() && Names(fs, root, p) == Some(items[n].Above())
    requires Match(fs[p].entries, items[n].Last()) == None
    requires Built(fs, root, x, it, Children(items, n, it.names))
    ensures var t := Added(fs, p, items[n], file);
      TreeOk(t, root) && Built(t, root, x, it, Children(items, n + 1, it.names))
  {
    AddedTree(fs, root, p, items[n], file);
    ChildCount(items, n, it.names);
    NamesApart(fs, root, x, p, it.names, items[n].Above());
    hide Added, TreeOk, GoodName, Contents, Sized, Bit, Match, Children;
  }

  lemma ChildCount(items: seq<Item>, n: nat, p: seq<string>)
    requires 1 <= n < |items| && items[n].names != []
    ensures Children(items, n + 1, p) == Children(items, n, p) + if items[n].Above() == p then 1 else 0
  {
  }

  /** Inodes have the same names only if they are the same. */
  lemma NamesApart(fs: Fs, root: nat, x: nat, y: nat, a: seq<string>, b: seq<string>)
    requires TreeOk(fs, root) && x < |fs| && y < |fs| && Names(fs, root, x) == Some(a) && Names(fs, root, y) == Some(b)
    ensures x == y <==> a == b
  {
    NamesLead(fs, root, x);
    NamesLead(fs, root, y);
  }

  // ----- the path of an entry -----

  function Tokens(it: Item): (ts: seq<string>)
    ensures |ts| >= 1
  {
    [""] + it.names + if it.dir then [""] else []
  }

  lemma PathShape(it: Item)
    requires it.names != [] && forall k :: 0 <= k < |it.names| ==> GoodName(it.names[k])
    ensures it.Path() == PathText(it.names) + (if it.dir then "/" else "") && it.Path()[0] == '/'
    ensures it.Path()[|it.Path()| - 1] == '/' <==> it.dir
    ensures PathText(it.names) == Join([""] + it.names) && it.Path() == Join(Tokens(it))
  {
    var ts := [""] + it.names;
    PathJoin(it.names);
    JoinEnd(it.names);
    assert ts[1..] == it.names;
    hide PathText, GoodName;
    if it.dir {
      JoinSnoc(ts, "");
    } else {
      assert Tokens(it) == ts;
    }
  }

  /** The tokens of an entry's path: an empty one, the names, and for a directory another empty one. */
  lemma PathTokens(it: Item)
    requires it.names != [] && forall k :: 0 <= k < |it.names| ==> GoodName(it.names[k])
    ensures Split(it.Path()) == Tokens(it)
  {
    PathShape(it);
    SplitJoin(Tokens(it));
  }

  /** What is left of the path when the last name is cut off leads to the parent. */
  lemma ParentPath(fs: Fs, root: nat, cwd: nat, it: Item, n: nat, p: nat)
    requires TreeOk(fs, root) && cwd < |fs| && p < |fs| && it.names != []
    requires forall k :: 0 <= k < |it.names| ==> GoodName(it.names[k])
    requires Names(fs, root, p) == Some(it.Above())
    requires n == |it.Path()| - |it.Last()| - (if it.dir then 1 else 0)
    ensures n <= |it.Path()| && Lookup(fs, root, cwd, it.Path()[..n]) == Found(p)
    ensures |it.Path()| - |it.Last()| > 1 || !it.dir
  {
    hide Names, GoodName, Join;
    PathShape(it);
    var above := it.Above();
    assert PathText(it.names) == PathText(above) + "/" + it.Last();
    assert it.Path()[..n] == PathText(above) + "/";
    assert (above + [""])[..|above|] == above;
    assert PathText(above + [""]) == PathText(above) + "/";
    EmptyName(fs, root, cwd, above);
    LookupPrinted(fs, root, cwd, p);
  }

  /** The last nonempty token so far. */
  function LastToken(ts: seq<string>): Option<string> {
    if ts == [] then None
    else if ts[|ts| - 1] != "" then Some(ts[|ts| - 1])
    else LastToken(ts[..|ts| - 1])
  }

  lemma PathLast(it: Item)
    requires it.names != [] && forall k :: 0 <= k < |it.names| ==> GoodName(it.names[k])
    ensures LastToken(Split(it.Path())) == Some(it.Last())
  {
    PathTokens(it);
    var ts := [""] + it.names;
    assert ts[|ts| - 1] == it.Last();
    if it.dir {
      assert (ts + [""])[..|ts|] == ts;
    } else {
      assert ts + [] == ts;
    }
  }

  // ----- the calls that load one entry -----

  /** The directory an entry belongs to. */
  lemma ParentBuilt(fs: Fs, root: nat, items: seq<Item>, n: nat, ids: seq<nat>) returns (p: nat)
    requires WellFormed(items) && Unpacked(fs, root, items, n, ids) && n < |items|
    ensures ItemOk(items, n) && p < |fs| && Names(fs, root, p) == Some(items[n].Above())
    ensures fs[p].IsDir() && fs[p].Writable() && |fs[p].entries| < PAGE_ENTRIES
  {
    assert ItemOk(items, n);
    var j :| 0 <= j < n && items[j].dir && items[j].names == items[n].Above();
    assert Built(fs, root, ids[j], items[j], Children(items, n, items[j].names));
    p := ids[j];
  }

  /** The first write to a new file stores exactly the data. */
  lemma FirstWrite(data: seq<Byte>, area: seq<Byte>)
    requires |data| < 0x8000_0000 && |area| == NumPages(|data|) * PAGE_SIZE + 1
    ensures Sized(File(0, None)) && Around(File(0, None), 0, |data|, area, [])
    ensures var f := Written(File(0, None), 0, data, area, []); Sized(f) && Contents(f) == data
  {
    WriteExactly(File(0, None), 0, data, area, []);
  }

  // ----- before and after -----

  /** init_vfs on inodes without parents (the standard streams of the first process) makes a tree that is
      ready to be filled. */
  lemma UnpackStart(fs: Fs, items: seq<Item>)
    requires WellFormed(items) && forall x :: 0 <= x < |fs| ==> fs[x].parent == None && fs[x].entries == []
    ensures Unpacked(Create(fs, "root", 0x31, None, "").0, |fs|, items, 1, [|fs|])
  {
    var t, root := Create(fs, "root", 0x31, None, "").0, |fs|;
    assert Bit(0x31, 0) && Bit(0x31, 5) by {
      assert Shr(0x31, 0) == 0x31;
      assert Shr(0x31, 5) == Shr(0x18, 4) == Shr(0xc, 3) == Shr(6, 2) == Shr(3, 1) == 1;
    }
    assert Inside(t) && Names(t, root, root) == Some([]);
    forall x | 0 <= x < |t| ensures NodeOk(t, x) && (Names(t, root, x).Some? ==> x == root) {}
    assert Children(items, 1, []) == 0;
    assert Built(t, root, root, items[0], 0);
  }

  /** Every archived path leads to the inode that holds what was archived. */
  lemma UnpackedFound(fs: Fs, root: nat, cwd: nat, items: seq<Item>, ids: seq<nat>, i: nat)
    requires WellFormed(items) && Unpacked(fs, root, items, |items|, ids) && i < |items| && cwd < |fs|
    ensures Inside(fs) && root < |fs| && Lookup(fs, root, cwd, Printed(items[i].names)) == Found(ids[i])
    ensures ids[i] < |fs| && fs[ids[i]].IsDir() == items[i].dir
    ensures !items[i].dir ==>
      && Sized(fs[ids[i]].file) && fs[ids[i]].file.length == |items[i].data|
      && Contents(fs[ids[i]].file) == items[i].data
  {
    assert Built(fs, root, ids[i], items[i], Children(items, |items|, items[i].names));
    LookupPrinted(fs, root, cwd, ids[i]);
    if !items[i].dir {
      NumPagesHold(fs[ids[i]].file.length);
    }
  }

  /** The tree is the archived one: a path is found exactly when it was archived. */
  lemma UnpackedExactly(fs: Fs, root: nat, cwd: nat, items: seq<Item>, ids: seq<nat>, names: seq<string>)
    requires WellFormed(items) && Unpacked(fs, root, items, |items|, ids) && cwd < |fs|
    requires forall k :: 0 <= k < |names| ==> GoodName(names[k])
    ensures Inside(fs) && root < |fs|
    ensures Lookup(fs, root, cwd, Printed(names)).Found? <==> exists i :: 0 <= i < |items| && items[i].names == names
  {
    if Lookup(fs, root, cwd, Printed(names)).Found? {
      var x := Lookup(fs, root, cwd, Printed(names)).node;
      PrintedFound(fs, root, cwd, names, x);
      assert x in ids;
      var i :| 0 <= i < |ids| && ids[i] == x;
      assert Built(fs, root, ids[i], items[i], Children(items, |items|, items[i].names));
      assert items[i].names == names;
    }
    if i :| 0 <= i < |items| && items[i].names == names {
      UnpackedFound(fs, root, cwd, items, ids, i);
    }
  }
}
