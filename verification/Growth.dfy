/** What creating and writing inodes does to the tree. */
module Growth {
  import opened Bits
  import opened Options
  import opened Strings
  import opened Buffers
  import opened Tree

  lemma MatchSnoc(entries: seq<Entry>, e: Entry, name: string)
    ensures Match(entries + [e], name) == if e.name == name then Some(e.node) else Match(entries, name)
  {
    assert (entries + [e])[..|entries|] == entries;
  }

  /** The file system after an inode was created in a writable directory. */
  function Grown(fs: Fs, name: string, mode: Word, p: nat): Fs
    requires p < |fs|
  {
    fs[p := fs[p].(entries := fs[p].entries + [Entry(name, 0, |fs|)])] + [Node(name, mode, Some(p), File(0, None), [])]
  }

  lemma GrownInside(fs: Fs, name: string, mode: Word, p: nat)
    requires Inside(fs) && p < |fs|
    ensures Inside(Grown(fs, name, mode, p))
  {
    var t := Grown(fs, name, mode, p);
    forall x, k | 0 <= x < |t| && 0 <= k < |t[x].entries| ensures t[x].entries[k].node < |t| {
      assert x < |fs| && k < |fs[x].entries| ==> t[x].entries[k] == fs[x].entries[k] && fs[x].entries[k].node < |fs|;
    }
  }

  /** Names depend on names and parents only. */
  lemma {:induction false} NamesSame(fs: Fs, t: Fs, root: nat, x: nat)
    requires Inside(fs) && Inside(t) && x < |fs| <= |t|
    requires forall y :: 0 <= y < |fs| ==> t[y].parent == fs[y].parent && t[y].name == fs[y].name
    ensures Names(t, root, x) == Names(fs, root, x)
  {
    if x != root && fs[x].parent.Some? {
      NamesSame(fs, t, root, fs[x].parent.value);
    }
  }

  lemma GrownNames(fs: Fs, root: nat, name: string, mode: Word, p: nat)
    requires Inside(fs) && p < |fs| && root < |fs|
    ensures var t := Grown(fs, name, mode, p);
      && Inside(t)
      && (forall x :: 0 <= x < |fs| ==> Names(t, root, x) == Names(fs, root, x))
      && (Names(fs, root, p).Some? ==> Names(t, root, |fs|) == Some(Names(fs, root, p).value + [name]))
  {
    GrownInside(fs, name, mode, p);
    var t := Grown(fs, name, mode, p);
    forall x | 0 <= x < |fs| ensures Names(t, root, x) == Names(fs, root, x) {
      NamesSame(fs, t, root, x);
    }
  }

  /** A move of the dentries does not change the name of the first one. */
  predicate FirstKept(entries: seq<Entry>, moved: string) {
    Regrows(entries) ==> moved == entries[0].name
  }

  /** vfs_create_inode in a writable directory whose first dentry keeps its name. */
  lemma CreateGrows(fs: Fs, name: string, mode: Word, p: nat, moved: string)
    requires p < |fs| && fs[p].IsDir() && fs[p].Writable() && FirstKept(fs[p].entries, moved)
    ensures Create(fs, name, mode, Some(p), moved) == (Grown(fs, name, mode, p), Some(|fs|))
  {
    assert Regrows(fs[p].entries) ==> fs[p].entries[0 := fs[p].entries[0].(name := moved)] == fs[p].entries;
  }

  lemma CreateInside(fs: Fs, name: string, mode: Word, parent: Option<nat>, moved: string)
    requires Inside(fs) && (parent.Some? ==> parent.value < |fs|)
    ensures Inside(Create(fs, name, mode, parent, moved).0)
  {
    hide Node.IsDir, Node.Writable, Regrows;
    var t := Create(fs, name, mode, parent, moved).0;
    forall x, k | 0 <= x < |t| && 0 <= k < |t[x].entries| ensures t[x].entries[k].node < |t| {
      assert x < |fs| && k < |fs[x].entries| ==> t[x].entries[k].node == fs[x].entries[k].node < |fs|;
    }
  }

  /** Creation changes no names, and the new inode's names are its parent's and its own. */
  lemma CreateNames(fs: Fs, root: nat, name: string, mode: Word, p: nat, moved: string)
    requires Inside(fs) && p < |fs| && root < |fs| && fs[p].IsDir()
    ensures var t := Create(fs, name, mode, Some(p), moved).0;
      && Inside(t) && |t| == |fs| + 1
      && (forall x :: 0 <= x < |fs| ==> Names(t, root, x) == Names(fs, root, x))
      && (Names(fs, root, p).Some? ==> Names(t, root, |fs|) == Some(Names(fs, root, p).value + [name]))
  {
    hide Node.IsDir, Node.Writable, Regrows, Inside;
    CreateInside(fs, name, mode, Some(p), moved);
    var t := Create(fs, name, mode, Some(p), moved).0;
    forall x | 0 <= x < |fs| ensures Names(t, root, x) == Names(fs, root, x) {
      NamesSame(fs, t, root, x);
    }
  }

  lemma GrownOk(fs: Fs, root: nat, name: string, mode: Word, p: nat)
    requires TreeOk(fs, root) && p < |fs| && fs[p].IsDir() && GoodName(name) && Match(fs[p].entries, name) == None
    ensures TreeOk(Grown(fs, name, mode, p), root)
  {
    hide NodeOk, EntryOk, Once, Inside, Match, GoodName, Node.IsDir;
    GrownInside(fs, name, mode, p);
    var t := Grown(fs, name, mode, p);
    forall x | 0 <= x < |t| ensures NodeOk(t, x) && Once(t[x].entries) {
      GrownNode(fs, root, name, mode, p, x);
    }
    forall x, k | 0 <= x < |t| && 0 <= k < |t[x].entries| ensures EntryOk(t, x, t[x].entries[k]) {
      GrownEntry(fs, root, name, mode, p, x, k);
    }
    GrownRoot(fs, root, name, mode, p);
  }

  lemma GrownRoot(fs: Fs, root: nat, name: string, mode: Word, p: nat)
    requires TreeOk(fs, root) && p < |fs|
    ensures var t := Grown(fs, name, mode, p); root < |t| && t[root].IsDir() && t[root].parent == None
  {
  }

  lemma GrownNode(fs: Fs, root: nat, name: string, mode: Word, p: nat, x: nat)
    requires TreeOk(fs, root) && p < |fs| && fs[p].IsDir() && GoodName(name) && Match(fs[p].entries, name) == None
    requires x <= |fs|
    ensures NodeOk(Grown(fs, name, mode, p), x) && Once(Grown(fs, name, mode, p)[x].entries)
  {
    hide GoodName;
    var t, n := Grown(fs, name, mode, p), |fs|;
    if x < n {
      assert NodeOk(fs, x) && Once(fs[x].entries);
      MatchSnoc(fs[p].entries, Entry(name, 0, n), fs[x].name);
    } else {
      MatchSnoc(fs[p].entries, Entry(name, 0, n), name);
    }
  }

  lemma GrownEntry(fs: Fs, root: nat, name: string, mode: Word, p: nat, x: nat, k: nat)
    requires TreeOk(fs, root) && p < |fs| && x <= |fs| && k < |Grown(fs, name, mode, p)[x].entries|
    ensures var t := Grown(fs, name, mode, p); EntryOk(t, x, t[x].entries[k])
  {
    var t := Grown(fs, name, mode, p);
    if x < |fs| && k < |fs[x].entries| {
      assert EntryOk(fs, x, fs[x].entries[k]) && t[x].entries[k] == fs[x].entries[k];
    }
  }

  /** The condition under which creation keeps the tree. */
  predicate Enterable(fs: Fs, name: string, p: nat, moved: string)
    requires p < |fs|
  {
    && fs[p].Writable() && GoodName(name) && Match(fs[p].entries, name) == None
    && FirstKept(fs[p].entries, moved)
  }

  /** Creation keeps the tree exactly when the directory is writable, the name is good and new in it, and no
      move of the dentries changes the name of the first one. */
  lemma CreateOk(fs: Fs, root: nat, name: string, mode: Word, p: nat, moved: string)
    requires TreeOk(fs, root) && p < |fs| && fs[p].IsDir()
    ensures TreeOk(Create(fs, name, mode, Some(p), moved).0, root) <==> Enterable(fs, name, p, moved)
  {
    if Enterable(fs, name, p, moved) {
      CreateGrows(fs, name, mode, p, moved);
      GrownOk(fs, root, name, mode, p);
    } else if TreeOk(Create(fs, name, mode, Some(p), moved).0, root) {
      KeptEnterable(fs, root, name, mode, p, moved);
    }
  }

  lemma KeptEnterable(fs: Fs, root: nat, name: string, mode: Word, p: nat, moved: string)
    requires TreeOk(fs, root) && p < |fs| && fs[p].IsDir() && TreeOk(Create(fs, name, mode, Some(p), moved).0, root)
    ensures Enterable(fs, name, p, moved)
  {
    var t, n := Create(fs, name, mode, Some(p), moved).0, |fs|;
    assert NodeOk(t, n) && t[n].parent == Some(p);
    if !fs[p].Writable() {
      MatchAt(t[p].entries, name);
    }
    assert FirstKept(fs[p].entries, moved) by {
      if Regrows(fs[p].entries) {
        assert EntryOk(fs, p, fs[p].entries[0]) && EntryOk(t, p, t[p].entries[0]);
      }
    }
    CreateGrows(fs, name, mode, p, moved);
    if Match(fs[p].entries, name).Some? {
      SiblingKept(fs, root, name, mode, p);
    }
  }

  /** A name that is there already does not keep the tree. */
  lemma SiblingKept(fs: Fs, root: nat, name: string, mode: Word, p: nat)
    requires TreeOk(fs, root) && p < |fs| && fs[p].IsDir() && Match(fs[p].entries, name).Some?
    ensures !TreeOk(Grown(fs, name, mode, p), root)
  {
    var t, n, y := Grown(fs, name, mode, p), |fs|, Match(fs[p].entries, name).value;
    MatchAt(fs[p].entries, name);
    MatchSnoc(fs[p].entries, Entry(name, 0, n), name);
    var k :| 0 <= k < |fs[p].entries| && fs[p].entries[k].name == name && fs[p].entries[k].node == y;
    assert EntryOk(fs, p, fs[p].entries[k]);
    assert t[y].parent == Some(p) && t[y].name == name && Match(t[p].entries, name) == Some(n);
    assert !NodeOk(t, y);
  }

  /** Dentry k of inode q names inode n. */
  predicate Enters(fs: Fs, q: nat, k: nat, n: nat, name: string) {
    q < |fs| && k < |fs[q].entries| && fs[q].entries[k].node == n && fs[q].entries[k].name == name
  }

  /** A walk ends in an inode that some directory enters under the last name. */
  lemma {:induction false} DescentEnds(fs: Fs, at: nat, names: seq<string>) returns (q: nat, k: nat)
    requires at < |fs| && Inside(fs) && names != [] && Descend(fs, at, names).Found?
    ensures Enters(fs, q, k, Descend(fs, at, names).node, names[|names| - 1])
    decreases |names|
  {
    MatchAt(fs[at].entries, names[0]);
    var i :| 0 <= i < |fs[at].entries| && fs[at].entries[i].name == names[0]
      && fs[at].entries[i].node == Match(fs[at].entries, names[0]).value;
    if |names| == 1 {
      assert names[1..] == [];
      q, k := at, i;
    } else {
      q, k := DescentEnds(fs, fs[at].entries[i].node, names[1..]);
    }
  }

  lemma EmptyName(fs: Fs, root: nat, cwd: nat, names: seq<string>)
    requires root < |fs| && cwd < |fs| && Inside(fs) && forall i :: 0 <= i < |names| ==> GoodName(names[i])
    ensures Lookup(fs, root, cwd, Printed(names + [""])) == Lookup(fs, root, cwd, Printed(names))
  {
    hide Descend, Join, Split, Inside, GoodName;
    assert (names + [""])[..|names|] == names;
    assert PathText(names + [""]) == PathText(names) + "/";
    if names != [] {
      PathJoin(names);
      JoinEnd(names);
      var path := "/" + Join(names);
      hide PathText;
      assert path[1..] == Join(names) && (path + "/")[1..] == Join(names) + "/";
      assert path[1] == Join(names)[0] && |path + "/"| >= 3;
      assert Trimmed(Join(names) + "/") == Join(names);
    }
  }

  /** What an absolute path finds, other than the root, is entered in some directory. */
  lemma AbsoluteEnds(fs: Fs, root: nat, cwd: nat, path: string) returns (q: nat, k: nat, name: string)
    requires root < |fs| && cwd < |fs| && Inside(fs) && path != "" && path[0] == '/'
    requires Lookup(fs, root, cwd, path).Found? && Lookup(fs, root, cwd, path).node != root
    ensures Enters(fs, q, k, Lookup(fs, root, cwd, path).node, name) && '/' !in name
  {
    var tokens := Split(Trimmed(path[1..]));
    JoinSplit(Trimmed(path[1..]));
    name := tokens[|tokens| - 1];
    q, k := DescentEnds(fs, root, tokens);
  }

  lemma PrintedAbsolute(names: seq<string>)
    ensures Printed(names) != "" && Printed(names)[0] == '/'
  {
    if names != [] {
      PathJoin(names);
    }
  }

  /** Every inode of the tree is found under its printed path. */
  ghost predicate Roundtrip(fs: Fs, root: nat, cwd: nat)
    requires root < |fs| && cwd < |fs| && Inside(fs)
  {
    forall x :: 0 <= x < |fs| && Names(fs, root, x).Some? ==>
      Lookup(fs, root, cwd, Printed(Names(fs, root, x).value)) == Found(x)
  }

  /** Creating an inode keeps printing and lookup inverse on the whole tree exactly when the directory is
      writable, the name is nonempty, without '/' and new in the directory, and the dentries are not moved, or
      the page they move to happens to hold the byte that is lost. */
  lemma CreateExactly(fs: Fs, root: nat, cwd: nat, name: string, mode: Word, p: nat, moved: string)
    requires TreeOk(fs, root) && p < |fs| && cwd <= |fs| && fs[p].IsDir() && Names(fs, root, p).Some? && '\0' !in name
    ensures var t := Create(fs, name, mode, Some(p), moved).0; Inside(t) && |t| == |fs| + 1
    ensures Roundtrip(Create(fs, name, mode, Some(p), moved).0, root, cwd) <==>
      && fs[p].Writable() && name != "" && '/' !in name && Match(fs[p].entries, name) == None
      && (fs[p].entries == [] || |fs[p].entries| % PAGE_ENTRIES != 0 || moved == fs[p].entries[0].name)
  {
    CreateNames(fs, root, name, mode, p, moved);
    if Enterable(fs, name, p, moved) {
      CreateOk(fs, root, name, mode, p, moved);
      RoundtripOk(Create(fs, name, mode, Some(p), moved).0, root, cwd);
    } else if !fs[p].Writable() {
      UnwritableLost(fs, root, cwd, name, mode, p, moved);
    } else if !FirstKept(fs[p].entries, moved) {
      FirstLost(fs, root, cwd, name, mode, p, moved);
    } else {
      CreateGrows(fs, name, mode, p, moved);
      BadNameLost(fs, root, cwd, name, mode, p);
    }
  }

  /** An inode of the tree that no dentry enters under its name is not found under its printed path. */
  lemma NotEntered(fs: Fs, root: nat, cwd: nat, x: nat)
    requires root < x < |fs| && cwd < |fs| && Inside(fs) && Names(fs, root, x).Some?
    requires forall q: nat, k: nat, name :: Enters(fs, q, k, x, name) ==> '/' in name
    ensures !Roundtrip(fs, root, cwd)
  {
    var names := Names(fs, root, x).value;
    PrintedAbsolute(names);
    if Lookup(fs, root, cwd, Printed(names)) == Found(x) {
      var q, k, name := AbsoluteEnds(fs, root, cwd, Printed(names));
      assert false;
    }
  }

  /** Without write permission nothing enters the new inode. */
  lemma UnwritableLost(fs: Fs, root: nat, cwd: nat, name: string, mode: Word, p: nat, moved: string)
    requires TreeOk(fs, root) && p < |fs| && cwd <= |fs| && fs[p].IsDir() && Names(fs, root, p).Some?
    requires !fs[p].Writable()
    ensures var t := Create(fs, name, mode, Some(p), moved).0;
      Inside(t) && |t| == |fs| + 1 && !Roundtrip(t, root, cwd)
  {
    CreateNames(fs, root, name, mode, p, moved);
    var t := Create(fs, name, mode, Some(p), moved).0;
    assert t[..|fs|] == fs && t[|fs|].entries == [];
    forall q: nat, k: nat, word ensures !Enters(t, q, k, |fs|, word) {
      if q < |fs| && k < |fs[q].entries| {
        assert t[q] == fs[q] && fs[q].entries[k].node < |fs|;
      }
    }
    hide TreeOk, Node.IsDir, Node.Writable, Enters;
    NotEntered(t, root, cwd, |fs|);
  }

  /** When the first dentry changes its name, its inode is lost. */
  lemma FirstLost(fs: Fs, root: nat, cwd: nat, name: string, mode: Word, p: nat, moved: string)
    requires TreeOk(fs, root) && p < |fs| && cwd <= |fs| && fs[p].IsDir() && Names(fs, root, p).Some?
    requires fs[p].Writable() && !FirstKept(fs[p].entries, moved)
    ensures var t := Create(fs, name, mode, Some(p), moved).0;
      Inside(t) && |t| == |fs| + 1 && !Roundtrip(t, root, cwd)
  {
    CreateNames(fs, root, name, mode, p, moved);
    var t, e := Create(fs, name, mode, Some(p), moved).0, fs[p].entries[0];
    assert EntryOk(fs, p, e);
    forall q: nat, k: nat ensures !Enters(t, q, k, e.node, e.name) {
      FirstAlone(fs, root, name, mode, p, moved, q, k);
    }
    var names := Names(fs, root, p).value;
    assert Names(t, root, e.node) == Some(names + [e.name]);
    NamesLead(fs, root, e.node);
    hide TreeOk, Node.IsDir, Node.Writable, Enters, FirstKept, Inside, Create;
    PrintedLookup(t, root, cwd, names + [e.name]);
    if Descend(t, root, names + [e.name]) == Found(e.node) {
      var q, k := DescentEnds(t, root, names + [e.name]);
    }
  }

  lemma FirstAlone(fs: Fs, root: nat, name: string, mode: Word, p: nat, moved: string, q: nat, k: nat)
    requires TreeOk(fs, root) && p < |fs| && fs[p].IsDir() && fs[p].Writable() && !FirstKept(fs[p].entries, moved)
    ensures var e := fs[p].entries[0];
      !Enters(Create(fs, name, mode, Some(p), moved).0, q, k, e.node, e.name)
  {
    var e := fs[p].entries[0];
    assert EntryOk(fs, p, e) && Once(fs[p].entries);
    if q < |fs| && k < |fs[q].entries| && fs[q].entries[k].node == e.node {
      assert EntryOk(fs, q, fs[q].entries[k]);
    }
  }

  /** A bad or repeated name: the new inode, or its parent, or its sibling is lost. */
  lemma BadNameLost(fs: Fs, root: nat, cwd: nat, name: string, mode: Word, p: nat)
    requires TreeOk(fs, root) && p < |fs| && cwd <= |fs| && fs[p].IsDir() && Names(fs, root, p).Some?
    requires name == "" || '/' in name || Match(fs[p].entries, name).Some?
    ensures Inside(Grown(fs, name, mode, p)) && !Roundtrip(Grown(fs, name, mode, p), root, cwd)
  {
    var t, n := Grown(fs, name, mode, p), |fs|;
    GrownNames(fs, root, name, mode, p);
    NamesLead(fs, root, p);
    var names := Names(fs, root, p).value;
    if name == "" {
      EmptyName(t, root, cwd, names);
      assert Names(t, root, p) == Some(names) && Names(t, root, n) == Some(names + [name]);
    } else if '/' in name {
      NewEntry(fs, name, mode, p);
      NotEntered(t, root, cwd, n);
    } else {
      SiblingNames(fs, root, name, p);
      var y := Match(fs[p].entries, name).value;
      assert Names(t, root, y) == Names(t, root, n) == Some(names + [name]);
    }
  }

  /** Every dentry was made before its inode had an id, so that it holds 0, the id of an inode that no
      directory enters. */
  ghost predicate StaleIds(fs: Fs) {
    forall x, k :: 0 <= x < |fs| && 0 <= k < |fs[x].entries| ==>
      fs[x].entries[k].id == 0 && fs[x].entries[k].id != fs[x].entries[k].node
  }

  lemma CreateStale(fs: Fs, name: string, mode: Word, parent: Option<nat>, moved: string)
    requires StaleIds(fs) && (parent.Some? ==> parent.value < |fs|)
    ensures StaleIds(Create(fs, name, mode, parent, moved).0)
  {
    hide Node.IsDir, Node.Writable, Regrows;
    var t := Create(fs, name, mode, parent, moved).0;
    forall x, k | 0 <= x < |t| && 0 <= k < |t[x].entries| ensures t[x].entries[k].id == 0 < t[x].entries[k].node {
      if x < |fs| && k < |fs[x].entries| {
        assert t[x].entries[k].id == fs[x].entries[k].id && t[x].entries[k].node == fs[x].entries[k].node;
      }
    }
  }

  // ----- where creation breaks the tree -----

  const OPEN_DIR: Word := 0x21       // S_MODE_DIR | S_IWUSR

  lemma WitnessBits()
    ensures Bit(OPEN_DIR, 0) && Bit(OPEN_DIR, 5) && Bit(1, 0) && !Bit(1, 5) && !Bit(1, 8) && !Bit(1, 11)
  {
    assert Shr(OPEN_DIR, 0) == OPEN_DIR;
    assert Shr(OPEN_DIR, 5) == Shr(0x10, 4) == Shr(8, 3) == Shr(4, 2) == Shr(2, 1) == 1;
    assert Shr(1, 0) == 1;
    assert Shr(1, 5) == Shr(0, 4) == Shr(0, 3) == Shr(0, 2) == Shr(0, 1) == 0;
    assert Shr(1, 8) == Shr(0, 7) == Shr(0, 6) == Shr(0, 5) == 0;
    assert Shr(1, 11) == Shr(0, 10) == Shr(0, 9) == Shr(0, 8) == 0;
  }

  /** A good new name in a directory without write permission. */
  lemma UnwritableFails(mode: Word)
    ensures var fs := [Node("root", 1, None, File(0, None), [])];
      && TreeOk(fs, 0) && GoodName("a") && Match(fs[0].entries, "a") == None
      && Inside(Create(fs, "a", mode, Some(0), "").0) && !Roundtrip(Create(fs, "a", mode, Some(0), "").0, 0, 0)
  {
    var fs := [Node("root", 1, None, File(0, None), [])];
    WitnessBits();
    CreateExactly(fs, 0, 0, "a", mode, 0, "");
  }

  function Letters(n: nat): (s: string)
    ensures |s| == n
  {
    seq(n, _ => 'a')
  }

  /** A root directory with n files a, aa, aaa, ... */
  function Filled(n: nat): (fs: Fs)
    ensures |fs| == n + 1
  {
    if n == 0 then [Node("root", OPEN_DIR, None, File(0, None), [])] else Grown(Filled(n - 1), Letters(n), 0, 0)
  }

  /** Creating the files one by one fills the first page of the directory. */
  lemma {:induction false} FilledOk(n: nat)
    requires n <= PAGE_ENTRIES
    ensures TreeOk(Filled(n), 0) && Filled(n)[0].IsDir() && Filled(n)[0].Writable() && |Filled(n)[0].entries| == n
    ensures forall k :: 0 <= k < n ==> Filled(n)[0].entries[k].name == Letters(k + 1)
    ensures n > 0 ==> Filled(n) == Create(Filled(n - 1), Letters(n), 0, Some(0), "").0
  {
    hide TreeOk, Grown, GoodName, Match, Create, Node.IsDir, Node.Writable;
    if n == 0 {
      EmptyOk();
    } else {
      FilledOk(n - 1);
      FilledStep(Filled(n - 1), n);
    }
  }

  lemma EmptyOk()
    ensures TreeOk(Filled(0), 0) && Filled(0)[0].IsDir() && Filled(0)[0].Writable() && Filled(0)[0].entries == []
  {
    WitnessBits();
  }

  lemma FilledStep(fs: Fs, n: nat)
    requires TreeOk(fs, 0) && fs[0].IsDir() && fs[0].Writable() && |fs[0].entries| == n - 1 < PAGE_ENTRIES
    requires forall k :: 0 <= k < n - 1 ==> fs[0].entries[k].name == Letters(k + 1)
    ensures var t := Grown(fs, Letters(n), 0, 0);
      && TreeOk(t, 0) && t[0].IsDir() && t[0].Writable() && |t[0].entries| == n
      && (forall k :: 0 <= k < n ==> t[0].entries[k].name == Letters(k + 1))
      && t == Create(fs, Letters(n), 0, Some(0), "").0
  {
    hide TreeOk, Bit, Match;
    TreeInside(fs, 0);
    MatchAt(fs[0].entries, Letters(n));
    CreateGrows(fs, Letters(n), 0, 0, "");
    GrownOk(fs, 0, Letters(n), 0, 0);
  }

  /** A good new name in a full directory, for every page whose first byte changes the first name. */
  lemma FullFails(moved: string)
    requires moved != "a"
    ensures var fs, name := Filled(PAGE_ENTRIES), Letters(PAGE_ENTRIES + 1);
      && TreeOk(fs, 0) && fs[0].IsDir() && fs[0].Writable() && GoodName(name) && Match(fs[0].entries, name) == None
      && Inside(Create(fs, name, 0, Some(0), moved).0) && !Roundtrip(Create(fs, name, 0, Some(0), moved).0, 0, 0)
  {
    var fs, name := Filled(PAGE_ENTRIES), Letters(PAGE_ENTRIES + 1);
    FilledOk(PAGE_ENTRIES);
    hide Filled;
    MatchAt(fs[0].entries, name);
    CreateExactly(fs, 0, 0, name, 0, 0, moved);
    assert fs[0].entries[0].name == Letters(1) == "a";
  }

  lemma RoundtripOk(fs: Fs, root: nat, cwd: nat)
    requires TreeOk(fs, root) && cwd < |fs|
    ensures Roundtrip(fs, root, cwd)
  {
    forall x | 0 <= x < |fs| && Names(fs, root, x).Some?
      ensures Lookup(fs, root, cwd, Printed(Names(fs, root, x).value)) == Found(x)
    {
      LookupPrinted(fs, root, cwd, x);
    }
  }

  lemma NewEntry(fs: Fs, name: string, mode: Word, p: nat)
    requires Inside(fs) && p < |fs|
    ensures var t := Grown(fs, name, mode, p);
      forall q, k :: 0 <= q < |t| && 0 <= k < |t[q].entries| && t[q].entries[k].node == |fs| ==>
        t[q].entries[k].name == name
  {
    var t := Grown(fs, name, mode, p);
    forall q, k | 0 <= q < |fs| && 0 <= k < |fs[q].entries| ensures t[q].entries[k].node != |fs| {
      assert t[q].entries[k] == fs[q].entries[k];
    }
  }

  /** Writing a file changes neither the tree nor any names. */
  lemma WriteKeeps(fs: Fs, root: nat, x: nat, file: File)
    requires TreeOk(fs, root) && x < |fs|
    ensures var t := fs[x := fs[x].(file := file)];
      TreeOk(t, root) && forall y :: 0 <= y < |fs| ==> Names(t, root, y) == Names(fs, root, y)
  {
    var t := fs[x := fs[x].(file := file)];
    assert Inside(t);
    forall y | 0 <= y < |fs| ensures NodeOk(t, y) && Names(t, root, y) == Names(fs, root, y) {
      assert NodeOk(fs, y);
      NamesSame(fs, t, root, y);
    }
    forall y, k | 0 <= y < |t| && 0 <= k < |t[y].entries| ensures EntryOk(t, y, t[y].entries[k]) {
      assert EntryOk(fs, y, fs[y].entries[k]);
    }
    forall y | 0 <= y < |t| ensures Once(t[y].entries) {
      assert Once(fs[y].entries);
    }
  }
}
