/** The inode tree: creation of inodes, path lookup and path printing. An inode is named by its id, which
    counts the inodes from 0; a directory's data is the list of its dentries. */
module Tree {
  import opened Bits
  import opened Options
  import opened Mmu
  import opened Strings
  import opened Buffers

  const DENTRY_SIZE := 16
  const PAGE_ENTRIES := 256     // dentries in a page

  datatype Entry = Entry(name: string, id: nat, node: nat)

  datatype Node = Node(name: string, mode: Word, parent: Option<nat>, file: File, entries: seq<Entry>) {
    /** S_MODE_DIR. */
    predicate IsDir() { Bit(mode, 0) }

    /** The write permissions of vfs_write for user 0 and group 0, who own every inode: S_IWUSR, S_IWGRP,
        S_IWOTH. */
    predicate Writable() { Bit(mode, 5) || Bit(mode, 8) || Bit(mode, 11) }

    function Length(): nat { if IsDir() then DENTRY_SIZE * |entries| else file.length }
  }

  type Fs = seq<Node>

  // ----- creation -----

  /** The dentries fill their pages, so that one more moves them into a new buffer. */
  predicate Regrows(entries: seq<Entry>) { entries != [] && |entries| % PAGE_ENTRIES == 0 }

  /** One more dentry. A move loses byte 0 of the buffer, the low byte of the name pointer of dentry 0: moved is
      the text the pointer then leads to. */
  function Entered(entries: seq<Entry>, e: Entry, moved: string): (r: seq<Entry>)
    ensures |r| == |entries| + 1 && r[|entries|] == e
    ensures forall k :: 0 <= k < |entries| ==> r[k].id == entries[k].id && r[k].node == entries[k].node
    ensures forall k :: 0 < k < |entries| ==> r[k] == entries[k]
  {
    (if Regrows(entries) then entries[0 := entries[0].(name := moved)] else entries) + [e]
  }

  /** vfs_create_inode: None when the parent is no directory. A parent without write permission gets no
      entry. The entry is made before the inode has its id. */
  function Create(fs: Fs, name: string, mode: Word, parent: Option<nat>, moved: string): (r: (Fs, Option<nat>))
    requires parent.Some? ==> parent.value < |fs|
  {
    var n, node := |fs|, Node(name, mode, parent, File(0, None), []);
    match parent
    case None => (fs + [node], Some(n))
    case Some(p) =>
      if !fs[p].IsDir() then (fs, None)
      else if !fs[p].Writable() then (fs + [node], Some(n))
      else (fs[p := fs[p].(entries := Entered(fs[p].entries, Entry(name, 0, n), moved))] + [node], Some(n))
  }

  /** The pages of n dentries. */
  lemma DentryPages(n: nat, q: nat, r: nat)
    requires n == PAGE_ENTRIES * q + r && r < PAGE_ENTRIES && DENTRY_SIZE * n <= 0xffff_f000
    ensures NumPages(DENTRY_SIZE * n) == if r == 0 then q else q + 1
  {
    assert DENTRY_SIZE * n + 0xfff == PAGE_SIZE * q + (DENTRY_SIZE * r + 0xfff);
  }

  /** The buffer of the dentries grows exactly when they fill their pages. */
  lemma RegrowsExactly(entries: seq<Entry>, base: Option<seq<Byte>>)
    requires base.Some? <==> entries != []
    requires DENTRY_SIZE * (|entries| + 1) <= 0xffff_f000
    ensures Regrows(entries) <==>
      base.Some? && Grows(File(DENTRY_SIZE * |entries|, base), DENTRY_SIZE * |entries|, DENTRY_SIZE)
  {
    hide NumPages;
    var n, q, r := |entries|, |entries| / PAGE_ENTRIES, |entries| % PAGE_ENTRIES;
    DentryPages(n, q, r);
    if r < PAGE_ENTRIES - 1 {
      DentryPages(n + 1, q, r + 1);
    } else {
      DentryPages(n + 1, q + 1, 0);
    }
  }

  /** vfs_write on an inode that is no directory. */
  function Write(fs: Fs, x: nat, off: nat, data: seq<Byte>, area: seq<Byte>, behind: seq<Byte>): Fs
    requires x < |fs| && Sized(fs[x].file) && off + |data| <= 0xffff_f000
    requires Around(fs[x].file, off, |data|, area, behind)
  {
    if fs[x].Writable() then fs[x := fs[x].(file := Written(fs[x].file, off, data, area, behind))] else fs
  }

  /** S_IWUSR | S_IWGRP | S_IWOTH. */
  lemma WriteMask(k: nat)
    ensures Bit(0x920, k) <==> k == 5 || k == 8 || k == 11
  {
    hide Shr;
    ShrNext(0x920, 0);
    for j := 0 to 12
      invariant Shr(0x920, j) == [0x920, 0x490, 0x248, 0x124, 0x92, 0x49, 0x24, 0x12, 9, 4, 2, 1, 0][j]
      invariant forall i: nat :: i < j ==> (Bit(0x920, i) <==> i == 5 || i == 8 || i == 11)
    {
      ShrNext(0x920, j);
    }
    if k >= 12 {
      ShrAdd(0x920, 12, k - 12);
      ZeroBit(k - 12);
    }
  }

  /** A write takes effect exactly when the mode has one of the three write permissions. */
  lemma WritePermitted(fs: Fs, x: nat, off: nat, data: seq<Byte>, area: seq<Byte>, behind: seq<Byte>)
    requires x < |fs| && Sized(fs[x].file) && off + |data| <= 0xffff_f000
    requires Around(fs[x].file, off, |data|, area, behind)
    ensures AndNot(fs[x].mode, 0x920) == fs[x].mode ==> Write(fs, x, off, data, area, behind) == fs
    ensures AndNot(fs[x].mode, 0x920) != fs[x].mode ==>
      Write(fs, x, off, data, area, behind) == fs[x := fs[x].(file := Written(fs[x].file, off, data, area, behind))]
  {
    AndNotSame(fs[x].mode, 0x920);
    forall k: nat {
      WriteMask(k);
    }
    hide Bit, AndNot, Written, Sized, Around;
  }

  // ----- lookup -----

  /** Null for NULL; Wild where the bytes of a file are taken for dentries. */
  datatype Outcome = Found(node: nat) | Null | Wild

  /** The last dentry with that name. */
  function Match(entries: seq<Entry>, name: string): Option<nat> {
    if entries == [] then None
    else if entries[|entries| - 1].name == name then Some(entries[|entries| - 1].node)
    else Match(entries[..|entries| - 1], name)
  }

  /** All dentries lead to inodes. */
  ghost predicate Inside(fs: Fs) {
    && (forall x :: 0 <= x < |fs| ==> (fs[x].parent.Some? ==> fs[x].parent.value < x))
    && (forall x, k :: 0 <= x < |fs| && 0 <= k < |fs[x].entries| ==> fs[x].entries[k].node < |fs|)
  }

  lemma {:induction false} MatchAt(entries: seq<Entry>, name: string)
    ensures Match(entries, name).Some? ==>
      exists k :: 0 <= k < |entries| && entries[k].name == name && entries[k].node == Match(entries, name).value
    ensures Match(entries, name) == None ==> forall k :: 0 <= k < |entries| ==> entries[k].name != name
  {
    if entries != [] {
      var rest := entries[..|entries| - 1];
      MatchAt(rest, name);
      if entries[|entries| - 1].name == name {
        assert entries[|entries| - 1].node == Match(entries, name).value;
      } else if Match(rest, name).Some? {
        var k :| 0 <= k < |rest| && rest[k].name == name && rest[k].node == Match(rest, name).value;
        assert entries[k] == rest[k];
      }
    }
  }

  /** One name after the other. */
  function Descend(fs: Fs, at: nat, names: seq<string>): (o: Outcome)
    requires at < |fs| && Inside(fs)
    ensures o.Found? ==> o.node < |fs|
    decreases |names|
  {
    if names == [] then Found(at)
    else if !fs[at].IsDir() then (if fs[at].Length() >= DENTRY_SIZE then Wild else Null)
    else
      MatchAt(fs[at].entries, names[0]);
      match Match(fs[at].entries, names[0])
      case None => Null
      case Some(n) => Descend(fs, n, names[1..])
  }

  /** The path without the trailing '/'. */
  function Trimmed(p: string): string {
    if p != "" && p[|p| - 1] == '/' then p[..|p| - 1] else p
  }

  function Lookup(fs: Fs, root: nat, cwd: nat, path: string): (o: Outcome)
    requires root < |fs| && cwd < |fs| && Inside(fs)
    ensures o.Found? ==> o.node < |fs|
  {
    if path == "." then Found(cwd)
    else if path == ".." then (match fs[cwd].parent case Some(p) => Found(p) case None => Null)
    else if path == "/" then Found(root)
    else if path != "" && path[0] == '/' then Descend(fs, root, Split(Trimmed(path[1..])))
    else Descend(fs, cwd, Split(Trimmed(path)))
  }

  // ----- the tree -----

  predicate GoodName(name: string) { name != "" && '/' !in name && '\0' !in name }

  /** Every inode is entered in its parent, once, under its name, which no sibling shares. */
  ghost predicate TreeOk(fs: Fs, root: nat) {
    && Inside(fs) && root < |fs| && fs[root].IsDir() && fs[root].parent == None
    && (forall x :: 0 <= x < |fs| ==> NodeOk(fs, x))
    && (forall x, k :: 0 <= x < |fs| && 0 <= k < |fs[x].entries| ==> EntryOk(fs, x, fs[x].entries[k]))
    && (forall x :: 0 <= x < |fs| ==> Once(fs[x].entries))
  }

  /** No two dentries lead to the same inode. */
  ghost predicate Once(entries: seq<Entry>) {
    forall i, j :: 0 <= i < j < |entries| ==> entries[i].node != entries[j].node
  }

  predicate NodeOk(fs: Fs, x: nat)
    requires x < |fs|
  {
    && (fs[x].IsDir() || fs[x].entries == [])
    && match fs[x].parent
       case None => true
       case Some(q) => q < x && fs[q].IsDir() && GoodName(fs[x].name) && Match(fs[q].entries, fs[x].name) == Some(x)
  }

  predicate EntryOk(fs: Fs, x: nat, e: Entry) {
    e.node < |fs| && fs[e.node].parent == Some(x) && fs[e.node].name == e.name
  }

  /** The names on the way from the root to x; None if x is not below the root. */
  function Names(fs: Fs, root: nat, x: nat): Option<seq<string>>
    requires x < |fs| && Inside(fs)
  {
    if x == root then Some([])
    else match fs[x].parent
      case None => None
      case Some(q) => match Names(fs, root, q) case None => None case Some(ts) => Some(ts + [fs[x].name])
  }

  lemma {:induction false} DescendOn(fs: Fs, at: nat, a: seq<string>, b: seq<string>)
    requires at < |fs| && Inside(fs)
    ensures Descend(fs, at, a + b) ==
      (match Descend(fs, at, a) case Found(n) => Descend(fs, n, b) case Null => Null case Wild => Wild)
    decreases |a|
  {
    if a == [] {
      assert a + b == b;
    } else {
      assert (a + b)[0] == a[0] && (a + b)[1..] == a[1..] + b;
      MatchAt(fs[at].entries, a[0]);
      if fs[at].IsDir() && Match(fs[at].entries, a[0]).Some? {
        DescendOn(fs, Match(fs[at].entries, a[0]).value, a[1..], b);
      }
    }
  }

  /** Walking the names of an inode leads to it. */
  lemma {:induction false} NamesLead(fs: Fs, root: nat, x: nat)
    requires TreeOk(fs, root) && x < |fs| && Names(fs, root, x).Some?
    ensures Descend(fs, root, Names(fs, root, x).value) == Found(x)
    ensures forall i :: 0 <= i < |Names(fs, root, x).value| ==> GoodName(Names(fs, root, x).value[i])
  {
    if x != root {
      var q := fs[x].parent.value;
      assert NodeOk(fs, x);
      NamesLead(fs, root, q);
      DescendOn(fs, root, Names(fs, root, q).value, [fs[x].name]);
      assert Descend(fs, x, []) == Found(x);
      assert [fs[x].name][1..] == [];
    }
  }

  lemma SiblingNames(fs: Fs, root: nat, name: string, p: nat)
    requires TreeOk(fs, root) && p < |fs| && Names(fs, root, p).Some? && Match(fs[p].entries, name).Some?
    ensures var y := Match(fs[p].entries, name).value;
      y < |fs| && Names(fs, root, y) == Some(Names(fs, root, p).value + [name])
  {
    MatchAt(fs[p].entries, name);
    var k :| 0 <= k < |fs[p].entries| && fs[p].entries[k].name == name
      && fs[p].entries[k].node == Match(fs[p].entries, name).value;
    assert EntryOk(fs, p, fs[p].entries[k]);
  }

  lemma TreeInside(fs: Fs, root: nat)
    requires TreeOk(fs, root)
    ensures Inside(fs) && root < |fs|
  {
  }

  /** Names that lead to an inode are its names. */
  lemma {:induction false} LedByNames(fs: Fs, root: nat, at: nat, names: seq<string>)
    requires TreeOk(fs, root) && at < |fs| && Names(fs, root, at).Some? && Descend(fs, at, names).Found?
    ensures Names(fs, root, Descend(fs, at, names).node) == Some(Names(fs, root, at).value + names)
    decreases |names|
  {
    TreeInside(fs, root);
    hide TreeOk, Names, Match;
    if names == [] {
      assert Names(fs, root, at).value + [] == Names(fs, root, at).value;
    } else {
      SiblingNames(fs, root, names[0], at);
      LedByNames(fs, root, Match(fs[at].entries, names[0]).value, names[1..]);
      assert Names(fs, root, at).value + [names[0]] + names[1..] == Names(fs, root, at).value + names;
    }
  }

  // ----- printing -----

  /** The text vfs_generate_path measures and fills in: empty for the root. */
  function PathText(names: seq<string>): string {
    if names == [] then "" else PathText(names[..|names| - 1]) + "/" + names[|names| - 1]
  }

  function Printed(names: seq<string>): string {
    if names == [] then "/" else PathText(names)
  }

  lemma {:induction false} JoinSnoc(names: seq<string>, last: string)
    requires |names| >= 1
    ensures Join(names + [last]) == Join(names) + "/" + last
  {
    assert (names + [last])[0] == names[0];
    if |names| == 1 {
      assert (names + [last])[1..] == [last];
    } else {
      assert (names + [last])[1..] == names[1..] + [last];
      JoinSnoc(names[1..], last);
    }
  }

  lemma {:induction false} PathJoin(names: seq<string>)
    requires names != []
    ensures PathText(names) == "/" + Join(names)
  {
    if |names| == 1 {
      assert names[..0] == [];
    } else {
      var rest := names[..|names| - 1];
      PathJoin(rest);
      JoinSnoc(rest, names[|names| - 1]);
      assert rest + [names[|names| - 1]] == names;
    }
  }

  lemma {:induction false} JoinEnd(names: seq<string>)
    requires |names| >= 1 && forall i :: 0 <= i < |names| ==> GoodName(names[i])
    ensures Join(names) != "" && Join(names)[|Join(names)| - 1] != '/'
  {
    if |names| == 1 {
      assert names[0][|names[0]| - 1] in names[0];
    } else {
      JoinEnd(names[1..]);
    }
  }

  /** A printed path is taken apart into the names it was made of. */
  lemma PrintedLookup(fs: Fs, root: nat, cwd: nat, names: seq<string>)
    requires root < |fs| && cwd < |fs| && Inside(fs) && forall i :: 0 <= i < |names| ==> GoodName(names[i])
    ensures Lookup(fs, root, cwd, Printed(names)) == Descend(fs, root, names)
  {
    hide Descend, Join, Split, PathText, Inside;
    if names == [] {
      assert Descend(fs, root, []) == Found(root) by { DescendNone(fs, root); }
    } else {
      PathJoin(names);
      JoinEnd(names);
      SplitJoin(names);
      hide GoodName;
      AbsoluteLookup(fs, root, cwd, Join(names));
    }
  }

  lemma DescendNone(fs: Fs, at: nat)
    requires at < |fs| && Inside(fs)
    ensures Descend(fs, at, []) == Found(at)
  {
  }

  lemma AbsoluteLookup(fs: Fs, root: nat, cwd: nat, rest: string)
    requires root < |fs| && cwd < |fs| && Inside(fs) && rest != "" && rest[|rest| - 1] != '/'
    ensures Lookup(fs, root, cwd, "/" + rest) == Descend(fs, root, Split(rest))
  {
    hide Descend, Split, Inside;
    var path := "/" + rest;
    assert path[1..] == rest && path[0] == '/' && |path| >= 2;
    assert path[1] == rest[0];
  }

  /** Printing an inode's path and looking it up leads back to the inode, whatever the working directory. */
  lemma LookupPrinted(fs: Fs, root: nat, cwd: nat, x: nat)
    requires TreeOk(fs, root) && cwd < |fs| && x < |fs| && Names(fs, root, x).Some?
    ensures Lookup(fs, root, cwd, Printed(Names(fs, root, x).value)) == Found(x)
  {
    NamesLead(fs, root, x);
    PrintedLookup(fs, root, cwd, Names(fs, root, x).value);
  }

  /** An absolute path of good names is found exactly when it is the printed path of what is found. */
  lemma PrintedFound(fs: Fs, root: nat, cwd: nat, names: seq<string>, x: nat)
    requires TreeOk(fs, root) && cwd < |fs| && x < |fs| && forall i :: 0 <= i < |names| ==> GoodName(names[i])
    ensures Lookup(fs, root, cwd, Printed(names)) == Found(x) <==> Names(fs, root, x) == Some(names)
  {
    PrintedLookup(fs, root, cwd, names);
    if Descend(fs, root, names) == Found(x) {
      LedByNames(fs, root, root, names);
      assert [] + names == names;
    }
    if Names(fs, root, x) == Some(names) {
      NamesLead(fs, root, x);
    }
  }

  // ----- any path, from any working directory -----

  /** Walking names from an inode leads to x exactly when they are what x's names add to the inode's. */
  lemma DescendExactly(fs: Fs, root: nat, at: nat, names: seq<string>, x: nat)
    requires TreeOk(fs, root) && at < |fs| && x < |fs| && Names(fs, root, at).Some?
    ensures Descend(fs, at, names) == Found(x) <==> Names(fs, root, x) == Some(Names(fs, root, at).value + names)
  {
    TreeInside(fs, root);
    hide TreeOk, Names, Descend;
    if Descend(fs, at, names) == Found(x) {
      LedByNames(fs, root, at, names);
    }
    if Names(fs, root, x) == Some(Names(fs, root, at).value + names) {
      NamesLead(fs, root, x);
      NamesLead(fs, root, at);
      DescendOn(fs, root, Names(fs, root, at).value, names);
    }
  }

  ghost predicate GoodNames(names: seq<string>) {
    names != [] && forall i :: 0 <= i < |names| ==> GoodName(names[i])
  }

  /** The names with slashes between them, and perhaps one behind. */
  ghost predicate Spells(path: string, names: seq<string>) {
    GoodNames(names) && (path == Join(names) || path == Join(names) + "/")
  }

  lemma SpelledNames(path: string, names: seq<string>)
    requires Spells(path, names)
    ensures Split(Trimmed(path)) == names && path != "" && path[0] != '/'
  {
    JoinEnd(names);
    SplitJoin(names);
    JoinStart(names);
    hide Join, Split, GoodName;
    assert path == Join(names) + "/" ==> path[..|path| - 1] == Join(names);
  }

  lemma JoinStart(names: seq<string>)
    requires GoodNames(names)
    ensures Join(names) != "" && Join(names)[0] != '/'
  {
    assert GoodName(names[0]) && names[0][0] in names[0];
  }

  lemma RelativeLookup(fs: Fs, root: nat, cwd: nat, path: string, names: seq<string>)
    requires root < |fs| && cwd < |fs| && Inside(fs) && Spells(path, names) && path != "." && path != ".."
    ensures Lookup(fs, root, cwd, path) == Descend(fs, cwd, names)
  {
    SpelledNames(path, names);
    hide Descend, Split, Spells, Inside;
  }

  /** A relative path is found exactly when its names are what the inode's names add to those of the working
      directory, and leads where the printed path of both together leads. */
  lemma RelativeFound(fs: Fs, root: nat, cwd: nat, path: string, names: seq<string>, x: nat)
    requires TreeOk(fs, root) && cwd < |fs| && x < |fs| && Names(fs, root, cwd).Some?
    requires Spells(path, names) && path != "." && path != ".."
    ensures Lookup(fs, root, cwd, path) == Found(x) <==>
      Names(fs, root, x) == Some(Names(fs, root, cwd).value + names)
    ensures forall other: nat :: other < |fs| ==>
      Lookup(fs, root, cwd, path) == Lookup(fs, root, other, Printed(Names(fs, root, cwd).value + names))
  {
    TreeInside(fs, root);
    RelativeLookup(fs, root, cwd, path, names);
    DescendExactly(fs, root, cwd, names, x);
    NamesLead(fs, root, cwd);
    var above := Names(fs, root, cwd).value;
    DescendOn(fs, root, above, names);
    hide TreeOk, Names, Descend, Lookup, Inside, GoodName, Printed;
    forall other: nat | other < |fs|
      ensures Lookup(fs, root, other, Printed(above + names)) == Descend(fs, root, above + names)
    {
      PrintedLookup(fs, root, other, above + names);
    }
  }

  /** "." is the working directory, and ".." the inode whose names are its names without the last; the root has
      none. */
  lemma DotsFound(fs: Fs, root: nat, cwd: nat)
    requires TreeOk(fs, root) && cwd < |fs| && Names(fs, root, cwd).Some?
    ensures Lookup(fs, root, cwd, ".") == Found(cwd) && Lookup(fs, root, cwd, "/") == Found(root)
    ensures var names, up := Names(fs, root, cwd).value, Lookup(fs, root, cwd, "..");
      if cwd == root then names == [] && up == Null
      else names != [] && up.Found? && Names(fs, root, up.node) == Some(names[..|names| - 1])
  {
    hide Match, Descend;
  }

  lemma {:induction false} SplitSpells(path: string, names: seq<string>)
    requires names == Split(Trimmed(path)) && GoodNames(names)
    ensures Spells(path, names)
  {
    JoinSplit(Trimmed(path));
    hide Join, Split, GoodNames;
    assert Trimmed(path) != path ==> path == Trimmed(path) + "/";
  }

  /** Only paths of good names lead to an inode. */
  lemma LookupExactly(fs: Fs, root: nat, cwd: nat, path: string, x: nat)
    requires TreeOk(fs, root) && cwd < |fs| && x < |fs| && Names(fs, root, cwd).Some?
    requires path != "." && path != ".." && path != "/"
    ensures Lookup(fs, root, cwd, path) == Found(x) <==>
      || (exists names :: Spells(path, names) && Names(fs, root, x) == Some(Names(fs, root, cwd).value + names))
      || (path != "" && path[0] == '/' && exists names :: Spells(path[1..], names) && Names(fs, root, x) == Some(names))
  {
    TreeInside(fs, root);
    var absolute := path != "" && path[0] == '/';
    var at, rest := if absolute then root else cwd, if absolute then path[1..] else path;
    var names := Split(Trimmed(rest));
    DescendExactly(fs, root, at, names, x);
    assert Names(fs, root, root) == Some([]);
    assert Lookup(fs, root, cwd, path) == Descend(fs, at, names);
    hide TreeOk, Names, Descend, Lookup, Inside, Split;
    if Lookup(fs, root, cwd, path) == Found(x) {
      NamesLead(fs, root, x);
      SuffixGood(Names(fs, root, at).value, names);
      SplitSpells(rest, names);
    }
    forall other | Spells(rest, other) ensures names == other {
      SpelledNames(rest, other);
    }
    forall other | Spells(path, other) ensures !absolute {
      SpelledNames(path, other);
    }
    assert [] + names == names;
  }

  lemma SuffixGood(a: seq<string>, b: seq<string>)
    requires b != [] && forall i :: 0 <= i < |a + b| ==> GoodName((a + b)[i])
    ensures GoodNames(b)
  {
    forall i | 0 <= i < |b| ensures GoodName(b[i]) {
      assert (a + b)[|a| + i] == b[i];
    }
  }
}
