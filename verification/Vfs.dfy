/** The inodes in memory, and the operations of the file system on them. */
module Vfs {
  import opened Bits
  import opened Options
  import opened Mmu
  import opened Strings
  import opened Buffers
  import opened Tree
  import opened Growth
  import opened Printing

  const S_MODE_DIR: Word := 1
  const S_IRUSR: Word := 0x10
  const S_IWUSR: Word := 0x20

  /** An entry of a directory; the inode is a pointer. */
  datatype Dentry = Dentry(name: string, id: nat, inode: Inode)

  class Inode {
    /** The place in the table of all inodes. */
    ghost const number: nat
    const name: string
    var id: nat
    var mode: Word
    var parent: Inode?
    var length: nat
    var base: Option<seq<Byte>>
    var entries: seq<Dentry>

    constructor (name: string, ghost number: nat)
      ensures this.name == name && this.number == number && id == 0 && mode == 0 && parent == null
      ensures length == 0 && base == None && entries == []
    {
      this.name, this.number := name, number;
      id, mode, parent, length, base, entries := 0, 0, null, 0, None, [];
    }

    /** What a node of the tree says about the inode. */
    ghost predicate Shows(n: Node)
      reads this
    {
      && n.name == name && n.mode == mode && n.parent == Number(parent) && n.file == File(length, base)
      && |n.entries| == |entries|
      && forall k {:trigger n.entries[k]} :: 0 <= k < |entries| ==>
           n.entries[k] == Entry(entries[k].name, entries[k].id, entries[k].inode.number)
    }

    predicate IsDir()
      reads this
    {
      Bit(mode, 0)
    }

    predicate Writable()
      reads this
    {
      Bit(mode, 5) || Bit(mode, 8) || Bit(mode, 11)
    }
  }

  ghost function Number(p: Inode?): Option<nat> { if p == null then None else Some(p.number) }

  class Vfs {
    var root: Inode?
    var idCounter: nat
    const tokenizer: Tokenizer
    ghost var table: seq<Inode>
    ghost var fs: Fs

    ghost predicate Known(p: Inode)
      reads this
    {
      p.number < |table| && table[p.number] == p
    }

    ghost predicate Valid()
      reads this, table
    {
      Shown() && idCounter == |table| && forall i :: 0 <= i < |table| ==> table[i].id == i
    }

    /** Every pointer leads to an inode of the table, and fs is what the inodes hold. */
    ghost predicate Shown()
      reads this, table
    {
      && |table| == |fs| && Inside(fs)
      && (forall i :: 0 <= i < |table| ==> table[i].number == i)
      && (forall i {:trigger fs[i]} {:trigger table[i].Shows(fs[i])} :: 0 <= i < |table| ==> table[i].Shows(fs[i]))
      && (forall i {:trigger table[i].parent} :: 0 <= i < |table| && table[i].parent != null ==> Known(table[i].parent))
      && (forall i, k {:trigger table[i].entries[k]} :: 0 <= i < |table| && 0 <= k < |table[i].entries| ==>
           Known(table[i].entries[k].inode))
      && (root != null ==> Known(root))
    }

    constructor ()
      ensures Valid() && fs == [] && root == null && fresh(tokenizer)
    {
      root, idCounter := null, 0;
      table, fs := [], [];
      tokenizer := new Tokenizer();
    }

    lemma Facts(x: Inode)
      requires Shown() && Known(x)
      ensures x.number < |fs| && x.Shows(fs[x.number]) && (x.parent != null ==> Known(x.parent))
      ensures forall k :: 0 <= k < |x.entries| ==> Known(x.entries[k].inode)
      ensures x.IsDir() == fs[x.number].IsDir() && x.Writable() == fs[x.number].Writable()
    {
      assert table[x.number].Shows(fs[x.number]);
      forall k | 0 <= k < |x.entries| ensures Known(x.entries[k].inode) {
        assert Known(table[x.number].entries[k].inode);
      }
    }

    /** The id is the inode's at that time. */
    method CreateDentry(inode: Inode) returns (d: Dentry)
      ensures d == Dentry(inode.name, inode.id, inode)
    {
      d := Dentry(inode.name, inode.id, inode);
    }

    /** A new inode takes its place in the table. */
    method Register(x: Inode)
      requires Shown() && x.number == |table| && x !in table
      requires x.parent == null && x.mode == 0 && x.length == 0 && x.base == None && x.entries == []
      modifies this`table, this`fs
      ensures Shown() && Known(x) && table == old(table) + [x]
      ensures fs == old(fs) + [Node(x.name, 0, None, File(0, None), [])]
    {
      table := table + [x];
      fs := fs + [Node(x.name, 0, None, File(0, None), [])];
      assert forall i :: 0 <= i < |old(table)| ==> table[i] == old(table)[i];
    }

    method SetParent(x: Inode, p: Inode)
      requires Shown() && Known(x) && Known(p) && p.number < x.number
      modifies x`parent, this`fs
      ensures Shown() && fs == old(fs)[x.number := old(fs)[x.number].(parent := Some(p.number))]
    {
      Facts(x);
      x.parent := p;
      fs := fs[x.number := fs[x.number].(parent := Some(p.number))];
    }

    method SetMode(x: Inode, mode: Word)
      requires Shown() && Known(x)
      modifies x`mode, this`fs
      ensures Shown() && fs == old(fs)[x.number := old(fs)[x.number].(mode := mode)]
    {
      hide Inside;
      Facts(x);
      InsideSame(fs, fs[x.number := fs[x.number].(mode := mode)]);
      x.mode := mode;
      fs := fs[x.number := fs[x.number].(mode := mode)];
    }

    /** vfs_write of one dentry at the end of a directory: moved is the text that the name pointer of dentry 0
        leads to if the dentries move. */
    method WriteDentry(dir: Inode, d: Dentry, moved: string)
      requires Shown() && Known(dir) && Known(d.inode) && dir.number < |fs|
      modifies dir`entries, this`fs
      ensures Shown() && dir.number < |old(fs)|
      ensures fs == if dir.Writable() then EntryWritten(old(fs), dir.number, Entry(d.name, d.id, d.inode.number), moved)
        else old(fs)
    {
      hide Inside, Entered, Shown;
      Facts(dir);
      if dir.Writable() {
        ghost var e := Entry(d.name, d.id, d.inode.number);
        EnteredShown(fs[dir.number].entries, e, moved);
        var entries := dir.entries;
        if entries != [] && |entries| % PAGE_ENTRIES == 0 {
          entries := entries[0 := entries[0].(name := moved)];
        }
        SetEntries(dir, entries + [d], Entered(fs[dir.number].entries, e, moved));
      }
    }

    method SetEntries(x: Inode, entries: seq<Dentry>, ghost shown: seq<Entry>)
      requires Shown() && Known(x) && |shown| == |entries| && forall k :: 0 <= k < |entries| ==> Known(entries[k].inode)
      requires forall k :: 0 <= k < |entries| ==>
        shown[k] == Entry(entries[k].name, entries[k].id, entries[k].inode.number)
      modifies x`entries, this`fs
      ensures Shown() && fs == old(fs)[x.number := old(fs)[x.number].(entries := shown)]
    {
      hide Inside;
      Facts(x);
      InsideEntered(fs, x.number, shown);
      x.entries := entries;
      fs := fs[x.number := fs[x.number].(entries := shown)];
    }

    method CreateInode(name: string, mode: Word, parent: Inode?, moved: string) returns (inode: Inode?)
      requires Valid() && (parent != null ==> Known(parent))
      modifies this`idCounter, this`table, this`fs, parent
      ensures Valid() && (fs, Number(inode)) == Create(old(fs), name, mode, Number(parent), moved)
      ensures inode != null ==> fresh(inode) && table == old(table) + [inode]
      ensures inode != null ==> inode.id == old(idCounter) && idCounter == old(idCounter) + 1
      ensures inode == null ==> table == old(table) && idCounter == old(idCounter)
    {
      hide Bit, Sized;
      hide Shown, Entered;
      inode := new Inode(name, |table|);
      Numbers();
      if parent != null {
        Facts(parent);
        if parent.IsDir() {
          Register(inode);
          SetParent(inode, parent);
          var d := CreateDentry(inode);
          Facts(parent);
          WriteDentry(parent, d, moved);
        } else {
          return null;
        }
      } else {
        Register(inode);
      }
      SetMode(inode, mode);
      SetId(inode);
      assert fs == Create(old(fs), name, mode, Number(parent), moved).0;
    }

    method SetId(x: Inode)
      requires Shown() && Known(x) && |table| == idCounter + 1 && x.number == idCounter
      requires forall i :: 0 <= i < idCounter ==> table[i].id == i
      modifies x`id, this`idCounter
      ensures Valid() && x.id == old(idCounter) && idCounter == old(idCounter) + 1
    {
      x.id := idCounter;
      idCounter := idCounter + 1;
    }

    lemma Numbers()
      requires Shown()
      ensures |table| == |fs| && Inside(fs)
      ensures forall x :: x in table ==> x.number < |table|
    {
    }

    method InitVfs()
      requires Valid()
      modifies this`idCounter, this`table, this`fs, this`root
      ensures Valid() && root != null && Known(root) && root.number == |old(fs)|
      ensures fs == Create(old(fs), "root", S_MODE_DIR + S_IRUSR + S_IWUSR, None, "").0
    {
      var r := CreateInode("root", S_MODE_DIR + S_IRUSR + S_IWUSR, null, "");
      root := r;
    }

    /** vfs_write on an inode that is no directory: area is what freshly allocated pages hold and the byte
        behind them, behind is what lies behind the buffer. */
    method VfsWrite(x: Inode, off: nat, data: seq<Byte>, area: seq<Byte>, behind: seq<Byte>) returns (n: nat)
      requires Valid() && Known(x) && Sized(fs[x.number].file) && off + |data| <= 0xffff_f000
      requires Around(fs[x.number].file, off, |data|, area, behind)
      modifies x`length, x`base, this`fs
      ensures Valid() && n == |data| && fs == Write(old(fs), x.number, off, data, area, behind)
    {
      hide NumPages;
      hide Shown, Spliced, Slipped, Slid, Inside;
      Facts(x);
      ghost var f := fs[x.number].file;
      if x.Writable() {
        BufferHolds(f, off, |data|, area, behind);
        var oldLen := x.length;
        if off + |data| > x.length {
          SetFile(x, off + |data|, x.base);
          Facts(x);
        }
        if x.base == None {
          SetFile(x, x.length, Some(area[..|area| - 1]));
        } else {
          var pagesNew, pagesOld := NumPages(x.length), NumPages(oldLen);
          if pagesNew > pagesOld {
            NumPagesHold(x.length);
            var base := Realloc(x.base.value + behind, x.length, area);
            SetFile(x, x.length, Some(base));
          }
        }
        Facts(x);
        var base := Memcpy(x.base.value, off, data, |data|);
        SetFile(x, x.length, Some(base));
        assert data[..|data|] == data;
        assert fs == Write(old(fs), x.number, off, data, area, behind);
      }
      n := |data|;
    }

    method SetFile(x: Inode, length: nat, base: Option<seq<Byte>>)
      requires Shown() && Known(x)
      modifies x`length, x`base, this`fs
      ensures Shown() && x.length == length && x.base == base
      ensures fs == old(fs)[x.number := old(fs)[x.number].(file := File(length, base))]
    {
      hide Sized;
      hide Inside;
      Facts(x);
      InsideSame(fs, fs[x.number := fs[x.number].(file := File(length, base))]);
      x.length := length;
      x.base := base;
      fs := fs[x.number := fs[x.number].(file := File(length, base))];
      forall i, k | 0 <= i < |table| && 0 <= k < |table[i].entries| ensures Known(table[i].entries[k].inode) {
        assert old(Known(table[i].entries[k].inode));
      }
    }

    // ----- paths -----

    /** The scan of one directory, or of a file whose bytes are taken for dentries (wild). */
    method FindEntry(dir: Inode, name: string) returns (found: Inode?, wild: bool)
      requires Valid() && Known(dir)
      ensures wild == (!dir.IsDir() && fs[dir.number].Length() >= DENTRY_SIZE)
      ensures !wild && dir.IsDir() ==>
        Number(found) == Match(fs[dir.number].entries, name) && (found != null ==> Known(found))
      ensures !dir.IsDir() ==> found == null
    {
      Facts(dir);
      found, wild := null, false;
      ghost var entries := fs[dir.number].entries;
      if !dir.IsDir() {
        wild := dir.length >= DENTRY_SIZE;
        return;
      }
      for i := 0 to |dir.entries|
        invariant Number(found) == Match(entries[..i], name) && (found != null ==> Known(found))
      {
        assert entries[..i + 1] == entries[..i] + [entries[i]];
        MatchSnoc(entries[..i], entries[i], name);
        if name == dir.entries[i].name {
          found := dir.entries[i].inode;
        }
      }
      assert entries[..|entries|] == entries;
    }

    /** What the result pointer says about an outcome; Null is found == null without wild. */
    ghost predicate Answers(o: Outcome, found: Inode?, wild: bool)
      reads this
    {
      match o
      case Found(n) => !wild && found != null && found.number == n && Known(found)
      case Null => !wild && found == null
      case Wild => wild
    }

    /** vfs_path_lookup, with the working directory of the current process; left is the string the caller has
        afterwards. */
    method PathLookup(path: string, cwd: Inode) returns (found: Inode?, wild: bool, left: string)
      requires Valid() && root != null && Known(cwd)
      modifies tokenizer
      ensures Valid() && root.number < |fs| && cwd.number < |fs|
      ensures Answers(Lookup(fs, root.number, cwd.number, path), found, wild)
      ensures left == if path == "/" then path else Trimmed(path)
    {
      hide Shown, Descend, Inside;
      Numbers();
      KnownRoot();
      Facts(cwd);
      left := path;
      if path == "." {
        return cwd, false, left;
      }
      if path == ".." {
        return cwd.parent, false, left;
      }
      if path == "/" {
        return root, false, left;
      }
      var parent: Inode, rest := cwd, path;
      if path != "" && path[0] == '/' {
        parent := root;
        rest := path[1..];
      }
      if rest != "" && rest[|rest| - 1] == '/' {
        rest := rest[..|rest| - 1];
        left := path[..|path| - 1];
      }
      found, wild := Follow(parent, rest);
    }

    lemma KnownRoot()
      requires Shown() && root != null
      ensures Known(root)
    {
    }

    /** The loop over the tokens of the path. */
    method Follow(start: Inode, rest: string) returns (found: Inode?, wild: bool)
      requires Valid() && Known(start) && start.number < |fs| && Inside(fs)
      modifies tokenizer
      ensures Valid() && Answers(Descend(fs, start.number, Split(rest)), found, wild)
    {
      hide Shown, Inside, Match;
      var parent: Inode := start;
      ghost var names := Split(rest);
      var str := tokenizer.Strtok(Some(rest));
      while str.Some?
        invariant Valid() && Known(parent) && parent.number < |fs|
        invariant names == (if str.Some? then [str.value] else []) + tokenizer.Rest()
        invariant (str == None ==> tokenizer.Rest() == [])
        invariant Descend(fs, parent.number, names) == Descend(fs, start.number, Split(rest))
        decreases |names|
      {
        Facts(parent);
        var next, bad := FindEntry(parent, str.value);
        assert names[0] == str.value && names[1..] == tokenizer.Rest();
        if bad {
          return null, true;
        }
        if next == null {
          return null, false;
        }
        parent := next;
        Facts(parent);
        names := names[1..];
        str := tokenizer.Strtok(None);
      }
      found, wild := parent, false;
    }

    /** The names up to the root; x is below the root. */
    ghost predicate Below(x: Inode)
      reads this, table
    {
      Shown() && Known(x) && root != null && Known(root) && Names(fs, root.number, x.number).Some?
    }

    ghost function PathOf(x: Inode): string
      requires Below(x)
      reads this, table
    {
      PathText(Names(fs, root.number, x.number).value)
    }

    lemma Upwards(x: Inode)
      requires Below(x) && x != root
      ensures x.parent != null && Below(x.parent) && x.parent.number < x.number
      ensures PathOf(x) == PathOf(x.parent) + "/" + x.name
    {
      Facts(x);
      TextStep(Names(fs, root.number, x.parent.number).value, x.name);
    }

    /** vfs_generate_path: buf is the memory from the buffer on, of which bytes belong to the buffer. */
    method GeneratePath(buf: array<char>, bytes: nat, parent: Inode)
      requires Valid() && Below(parent) && bytes + 2 <= buf.Length
      modifies buf
      ensures buf[..] == PrintedInto(old(buf[..]), bytes, PathOf(parent))
    {
      hide Shown;
      ghost var text := PathOf(parent);
      var len := 0;
      var inode: Inode := parent;
      while inode != root
        invariant Below(inode) && len + |PathOf(inode)| == |text| && buf[..] == old(buf[..])
        decreases inode.number
      {
        Upwards(inode);
        len := len + |inode.name| + 1;
        inode := inode.parent;
      }
      RootText();
      assert len == |text|;
      if len > bytes {
        return;
      }
      Clear(buf, bytes);
      if len > 0 {
        FillBackwards(buf, len, parent);
      } else {
        buf[0], buf[1] := '/', '\0';
      }
      PrintedSteps(old(buf[..]), bytes, text);
    }

    lemma RootText()
      requires Shown() && root != null && Below(root)
      ensures PathOf(root) == ""
    {
    }

    /** memclr(buf, bytes). */
    method Clear(buf: array<char>, bytes: nat)
      requires bytes <= buf.Length
      modifies buf
      ensures buf[..] == Zeros(bytes) + old(buf[bytes..])
    {
      for i := 0 to bytes
        invariant forall k :: 0 <= k < i ==> buf[k] == '\0'
        invariant forall k :: i <= k < buf.Length ==> buf[k] == old(buf[k])
      {
        buf[i] := '\0';
      }
    }

    /** A name and the '/' before it are stored in front of offset pos. */
    method PutName(buf: array<char>, pos: nat, name: string)
      requires |name| + 1 <= pos <= buf.Length
      modifies buf
      ensures forall k :: pos <= k < buf.Length ==> buf[k] == old(buf[k])
      ensures buf[pos - |name| - 1] == '/' && forall k :: 0 <= k < |name| ==> buf[pos - |name| + k] == name[k]
    {
      var start := pos - |name|;
      forall k | 0 <= k < |name| {
        buf[start + k] := name[k];
      }
      buf[start - 1] := '/';
    }

    /** The second loop: from the end of the text to its beginning. */
    method FillBackwards(buf: array<char>, len: nat, parent: Inode)
      requires Valid() && Below(parent) && len == |PathOf(parent)| < buf.Length
      modifies buf
      ensures buf[..] == PathOf(parent) + ['\0'] + old(buf[len + 1..])
    {
      hide PathText, Below;
      hide Shown;
      ghost var text := PathOf(parent);
      var pos := len;
      buf[pos] := '\0';
      var inode: Inode := parent;
      while inode != root
        invariant Below(inode) && pos == |PathOf(inode)| <= len && PathOf(inode) == text[..pos]
        invariant buf[pos..] == text[pos..] + (['\0'] + old(buf[len + 1..]))
        decreases inode.number
      {
        Upwards(inode);
        ghost var was := buf[..];
        PutName(buf, pos, inode.name);
        pos := pos - |inode.name| - 1;
        NameFilled(was, buf[..], text, ['\0'] + old(buf[len + 1..]), pos, inode.name);
        inode := inode.parent;
      }
      RootText();
    }

    // ----- the working directory -----

    /** syscall_getcwd: workDir is the running process's. */
    method SyscallGetcwd(buf: array<char>, len: nat, workDir: Inode)
      requires Valid() && Below(workDir) && len + 2 <= buf.Length
      modifies buf
      ensures buf[..] == PrintedInto(old(buf[..]), len, PathOf(workDir))
    {
      GeneratePath(buf, len, workDir);
    }

    /** syscall_chdir: the process's new working directory, and what ecx holds. */
    method SyscallChdir(path: string, workDir: Inode) returns (dir: Inode, ecx: int, wild: bool)
      requires Valid() && root != null && Known(workDir)
      modifies tokenizer
      ensures Valid() && Known(dir) && root.number < |fs| && workDir.number < |fs|
      ensures var o := Lookup(fs, root.number, workDir.number, path);
        match o
        case Found(n) => !wild && if fs[n].IsDir() then dir.number == n && ecx == 0 else dir == workDir && ecx == -1
        case Null => !wild && dir == workDir && ecx == -2
        case Wild => wild
    {
      hide Shown, Lookup;
      var inode, bad, _ := PathLookup(path, workDir);
      dir, wild := workDir, bad;
      if inode != null && !bad {
        Facts(inode);
        if inode.IsDir() {
          dir, ecx := inode, 0;
        } else {
          ecx := -1;
        }
      } else {
        ecx := -2;
      }
    }

    /** Changing to the path that getcwd printed leads back, from wherever it is done. */
    method GetcwdThenChdir(buf: array<char>, len: nat, workDir: Inode, other: Inode) returns (dir: Inode, ecx: int)
      requires Valid() && Below(workDir) && workDir.IsDir() && Known(other) && len + 2 <= buf.Length
      requires TreeOk(fs, root.number) && |PathOf(workDir)| <= len
      modifies buf, tokenizer
      ensures Valid() && dir == workDir && ecx == 0
    {
      hide Shown, Lookup, TreeOk, Names, PathText, Node.IsDir;
      Numbers();
      Facts(workDir);
      Facts(other);
      KnownRoot();
      Facts(root);
      ghost var was := buf[..];
      SyscallGetcwd(buf, len, workDir);
      LookupPrintedInto(fs, root.number, other.number, workDir.number, was, len);
      var wild;
      dir, ecx, wild := SyscallChdir(Text(buf[..]), other);
    }
  }

  /** One more name in front of what has been filled in. */
  lemma NameFilled(was: seq<char>, now: seq<char>, text: string, tail: string, q: nat, name: string)
    requires q + 1 + |name| <= |text| && text[..q + 1 + |name|] == text[..q] + "/" + name
    requires |was| == |now| >= q + 1 + |name| && was[q + 1 + |name|..] == text[q + 1 + |name|..] + tail
    requires forall k :: q + 1 + |name| <= k < |now| ==> now[k] == was[k]
    requires now[q] == '/' && forall k :: 0 <= k < |name| ==> now[q + 1 + k] == name[k]
    ensures now[q..] == text[q..] + tail
  {
    var p := q + 1 + |name|;
    assert now[p..] == was[p..];
    assert now[q + 1..p] == name;
    assert now[q..] == [now[q]] + now[q + 1..p] + now[p..];
    assert text[q..] == "/" + name + text[p..] by {
      assert text[..p][q..] == "/" + name;
      assert text[q..] == text[..p][q..] + text[p..];
    }
  }

  /** Clearing the buffer, then storing the text. */
  lemma PrintedSteps(was: seq<char>, bytes: nat, text: string)
    requires bytes + 2 <= |was| && |text| <= bytes
    ensures var cleared := Zeros(bytes) + was[bytes..];
      && (text == "" ==> cleared[0 := '/'][1 := '\0'] == PrintedInto(was, bytes, text))
      && (text != "" ==> text + ['\0'] + cleared[|text| + 1..] == PrintedInto(was, bytes, text))
  {
    var cleared, r := Zeros(bytes) + was[bytes..], PrintedInto(was, bytes, text);
    if text == "" {
      var a := cleared[0 := '/'][1 := '\0'];
      forall k | 0 <= k < |was| ensures a[k] == r[k] {}
      assert a == r;
    } else {
      var a := text + ['\0'] + cleared[|text| + 1..];
      assert |a| == |was|;
      forall k | 0 <= k < |was| ensures a[k] == r[k] {}
      assert a == r;
    }
  }

  /** A directory after one more dentry. */
  ghost function EntryWritten(fs: Fs, p: nat, e: Entry, moved: string): Fs
    requires p < |fs|
  {
    fs[p := fs[p].(entries := Entered(fs[p].entries, e, moved))]
  }

  lemma InsideEntered(fs: Fs, p: nat, entries: seq<Entry>)
    requires Inside(fs) && p < |fs| && forall k :: 0 <= k < |entries| ==> entries[k].node < |fs|
    ensures Inside(fs[p := fs[p].(entries := entries)])
  {
  }

  lemma EnteredShown(entries: seq<Entry>, e: Entry, moved: string)
    ensures Entered(entries, e, moved) ==
      (if entries != [] && |entries| % PAGE_ENTRIES == 0
       then entries[0 := entries[0].(name := moved)] else entries) + [e]
  {
  }

  lemma InsideSame(fs: Fs, t: Fs)
    requires Inside(fs) && |t| == |fs|
    requires forall x :: 0 <= x < |fs| ==> t[x].parent == fs[x].parent && t[x].entries == fs[x].entries
    ensures Inside(t)
  {
  }
}
