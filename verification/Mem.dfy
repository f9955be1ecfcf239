/** memclr and memcpy on virtual addresses: byte loops whose every access is translated. */
module Mem {
  import opened Bits
  import opened Options
  import opened Mmu

  function PageOf(a: Word): PageNo { a / PAGE_SIZE }
  function OffsetOf(a: Word): Offset { a % PAGE_SIZE }

  predicate Backed(ram: Ram, pd: Frame, a: Word) {
    Walk(ram, pd, PageOf(a)).Some?
  }

  function FrameAt(ram: Ram, pd: Frame, a: Word): Frame {
    match Walk(ram, pd, PageOf(a)) case Some(f) => f case None => 0
  }

  function LoadByte(ram: Ram, pd: Frame, a: Word): Byte {
    ByteAt(ram[FrameAt(ram, pd, a)], OffsetOf(a))
  }

  function StoreByte(ram: Ram, pd: Frame, a: Word, b: Byte): Ram {
    PokeByte(ram, FrameAt(ram, pd, a), OffsetOf(a), b)
  }

  /** Writing frame f leaves the translation of page q alone. */
  predicate Aside(ram: Ram, pd: Frame, f: Frame, q: PageNo) {
    f != pd && f != FrameOf(ram[pd][DirOf(q)])
  }

  /** The n bytes from a on are mapped, and writing them does not touch the tables that map them or the
      n bytes from b on. */
  ghost predicate Writable(ram: Ram, pd: Frame, a: Word, b: Word, n: nat) {
    && a + n <= 0x1_0000_0000 && b + n <= 0x1_0000_0000
    && (forall x: Word :: a <= x < a + n ==> Backed(ram, pd, x))
    && (forall x: Word, y: Word :: a <= x < a + n && a <= y < a + n ==> Aside(ram, pd, FrameAt(ram, pd, x), PageOf(y)))
    && (forall x: Word, y: Word :: a <= x < a + n && b <= y < b + n ==> Aside(ram, pd, FrameAt(ram, pd, x), PageOf(y)))
  }

  lemma AsideWalk(ram: Ram, pd: Frame, f: Frame, t: Table, q: PageNo)
    requires Aside(ram, pd, f, q)
    ensures Walk(ram[f := t], pd, q) == Walk(ram, pd, q)
    ensures ram[f := t][pd] == ram[pd]
  {
  }

  /** What memclr(a, n) leaves behind. */
  function Cleared(ram: Ram, pd: Frame, a: Word, n: nat): Ram
    requires a + n <= 0x1_0000_0000
  {
    if n == 0 then ram
    else PokeByte(Cleared(ram, pd, a, n - 1), FrameAt(ram, pd, a + n - 1), OffsetOf(a + n - 1), 0)
  }

  /** What memcpy(a, b, n) leaves behind when the source is not overwritten. */
  function Copied(ram: Ram, pd: Frame, a: Word, b: Word, n: nat): Ram
    requires a + n <= 0x1_0000_0000 && b + n <= 0x1_0000_0000
  {
    if n == 0 then ram
    else PokeByte(Copied(ram, pd, a, b, n - 1), FrameAt(ram, pd, a + n - 1), OffsetOf(a + n - 1),
      LoadByte(ram, pd, b + n - 1))
  }

  lemma {:induction false} ClearedWalk(ram: Ram, pd: Frame, a: Word, b: Word, n: nat, m: nat, q: PageNo)
    requires Writable(ram, pd, a, b, n) && m <= n
    requires (exists y: Word :: a <= y < a + n && PageOf(y) == q)
      || (exists y: Word :: b <= y < b + n && PageOf(y) == q)
    ensures Walk(Cleared(ram, pd, a, m), pd, q) == Walk(ram, pd, q)
    ensures Cleared(ram, pd, a, m)[pd] == ram[pd]
  {
    if m > 0 {
      ClearedWalk(ram, pd, a, b, n, m - 1, q);
      var r, f := Cleared(ram, pd, a, m - 1), FrameAt(ram, pd, a + m - 1);
      assert Aside(ram, pd, f, q);
      assert Aside(r, pd, f, q);
      AsideWalk(r, pd, f, SetByte(r[f], OffsetOf(a + m - 1), 0), q);
    }
  }

  lemma {:induction false} CopiedWalk(ram: Ram, pd: Frame, a: Word, b: Word, n: nat, m: nat, q: PageNo)
    requires Writable(ram, pd, a, b, n) && m <= n
    requires (exists y: Word :: a <= y < a + n && PageOf(y) == q)
      || (exists y: Word :: b <= y < b + n && PageOf(y) == q)
    ensures Walk(Copied(ram, pd, a, b, m), pd, q) == Walk(ram, pd, q)
    ensures Copied(ram, pd, a, b, m)[pd] == ram[pd]
  {
    hide Walk, ByteAt, SetByte, PageOf, OffsetOf;
    if m > 0 {
      CopiedWalk(ram, pd, a, b, n, m - 1, q);
      var r, f := Copied(ram, pd, a, b, m - 1), FrameAt(ram, pd, a + m - 1);
      assert Aside(ram, pd, f, q);
      AsideWalk(r, pd, f, SetByte(r[f], OffsetOf(a + m - 1), LoadByte(ram, pd, b + m - 1)), q);
    }
  }

  /** Clearing a whole page clears its frame and nothing else. */
  lemma {:induction false} ClearedPage(ram: Ram, pd: Frame, p: PageNo, f: Frame)
    requires Walk(ram, pd, p) == Some(f)
    ensures p * PAGE_SIZE + PAGE_SIZE <= 0x1_0000_0000
    ensures Cleared(ram, pd, p * PAGE_SIZE, PAGE_SIZE) == ram[f := ZeroTable()]
  {
    hide Cleared, Walk, ByteAt;
    ClearedBytes(ram, pd, p, f, PAGE_SIZE);
    var r := Cleared(ram, pd, p * PAGE_SIZE, PAGE_SIZE);
    forall k: Offset ensures ByteAt(r[f], k) == ByteAt(ZeroTable(), k) {
      ZeroByte(k);
    }
    SameBytes(r[f], ZeroTable());
  }

  lemma ZeroByte(k: Offset)
    ensures ByteAt(ZeroTable(), k) == 0
  {
  }

  lemma {:induction false} ClearedBytes(ram: Ram, pd: Frame, p: PageNo, f: Frame, m: nat)
    requires Walk(ram, pd, p) == Some(f) && m <= PAGE_SIZE
    ensures var r := Cleared(ram, pd, p * PAGE_SIZE, m);
      r == ram[f := r[f]] && forall k: Offset :: ByteAt(r[f], k) == if k < m then 0 else ByteAt(ram[f], k)
  {
    hide Walk, ByteAt, SetByte;
    if m > 0 {
      ClearedBytes(ram, pd, p, f, m - 1);
      var a: Word := p * PAGE_SIZE + m - 1;
      assert PageOf(a) == p && OffsetOf(a) == m - 1;
    }
  }

  lemma {:induction false} CopiedBytes(ram: Ram, pd: Frame, a: Word, b: Word, f: Frame, g: Frame, m: nat)
    requires Walk(ram, pd, PageOf(a)) == Some(f) && Walk(ram, pd, PageOf(b)) == Some(g)
    requires OffsetOf(a) == OffsetOf(b) && OffsetOf(a) + m <= PAGE_SIZE
    ensures a + m <= 0x1_0000_0000 && b + m <= 0x1_0000_0000
    ensures var r := Copied(ram, pd, a, b, m);
      && r == ram[f := r[f]]
      && forall k: Offset :: ByteAt(r[f], k) == if OffsetOf(a) <= k < OffsetOf(a) + m then ByteAt(ram[g], k)
           else ByteAt(ram[f], k)
  {
    hide Walk, ByteAt, SetByte, OffsetOf, PageOf;
    if m > 0 {
      CopiedBytes(ram, pd, a, b, f, g, m - 1);
      SamePage(a, m - 1);
      SamePage(b, m - 1);
      var x: Word, y: Word := a + m - 1, b + m - 1;
      var r1 := Copied(ram, pd, a, b, m - 1);
      assert Copied(ram, pd, a, b, m) == PokeByte(r1, f, OffsetOf(x), ByteAt(ram[g], OffsetOf(y)));
    }
  }

  lemma SamePage(a: Word, n: nat)
    requires OffsetOf(a) + n < PAGE_SIZE
    ensures a + n < 0x1_0000_0000 && PageOf(a + n) == PageOf(a) && OffsetOf(a + n) == OffsetOf(a) + n
  {
  }

  /** Copying a whole page makes its frame equal to the source frame. */
  lemma CopiedPage(ram: Ram, pd: Frame, a: Word, b: Word, f: Frame, g: Frame)
    requires Walk(ram, pd, PageOf(a)) == Some(f) && Walk(ram, pd, PageOf(b)) == Some(g)
    requires OffsetOf(a) == OffsetOf(b) == 0
    ensures a + PAGE_SIZE <= 0x1_0000_0000 && b + PAGE_SIZE <= 0x1_0000_0000
    ensures Copied(ram, pd, a, b, PAGE_SIZE) == ram[f := ram[g]]
  {
    CopiedBytes(ram, pd, a, b, f, g, PAGE_SIZE);
    SameBytes(Copied(ram, pd, a, b, PAGE_SIZE)[f], ram[g]);
  }

  function Spliced(t: Table, u: Table, i: nat, j: nat): (r: Table)
    requires i <= j <= 1024
  {
    t[..i] + u[i..j] + t[j..]
  }

  /** Copying words i..j of a page. */
  lemma CopiedWords(ram: Ram, pd: Frame, a: Word, b: Word, f: Frame, g: Frame, i: nat, j: nat)
    requires Walk(ram, pd, PageOf(a)) == Some(f) && Walk(ram, pd, PageOf(b)) == Some(g)
    requires OffsetOf(a) == OffsetOf(b) == 4 * i && i <= j <= 1024
    ensures a + 4 * (j - i) <= 0x1_0000_0000 && b + 4 * (j - i) <= 0x1_0000_0000
    ensures Copied(ram, pd, a, b, 4 * (j - i)) == ram[f := Spliced(ram[f], ram[g], i, j)]
  {
    hide Walk, Copied, ByteOf;
    CopiedBytes(ram, pd, a, b, f, g, 4 * (j - i));
    var r, t := Copied(ram, pd, a, b, 4 * (j - i)), Spliced(ram[f], ram[g], i, j);
    forall k: Offset ensures ByteAt(r[f], k) == ByteAt(t, k) {
      assert t[k / 4] == if i <= k / 4 < j then ram[g][k / 4] else ram[f][k / 4];
    }
    SameBytes(r[f], t);
  }

  /** What the loop of memcpy(a, b, n) leaves behind: every access is translated when it is made. */
  function Forward(ram: Ram, pd: Frame, a: Word, b: Word, n: nat): Ram
    requires a + n <= 0x1_0000_0000 && b + n <= 0x1_0000_0000
  {
    if n == 0 then ram
    else
      var r := Forward(ram, pd, a, b, n - 1);
      StoreByte(r, pd, a + n - 1, LoadByte(r, pd, b + n - 1))
  }

  /** No access of the loop faults. */
  ghost predicate Reachable(ram: Ram, pd: Frame, a: Word, b: Word, n: nat) {
    && a + n <= 0x1_0000_0000 && b + n <= 0x1_0000_0000
    && forall i: nat {:trigger Forward(ram, pd, a, b, i)} :: i < n ==>
      Backed(Forward(ram, pd, a, b, i), pd, a + i) && Backed(Forward(ram, pd, a, b, i), pd, b + i)
  }

  /** Copying bytes onto themselves changes nothing. */
  lemma {:induction false} SelfForward(ram: Ram, pd: Frame, a: Word, n: nat)
    requires a + n <= 0x1_0000_0000 && forall x: Word :: a <= x < a + n ==> Backed(ram, pd, x)
    ensures Forward(ram, pd, a, a, n) == ram && Reachable(ram, pd, a, a, n)
  {
    hide Backed, StoreByte, LoadByte;
    if n > 0 {
      SelfForward(ram, pd, a, n - 1);
      StoreLoaded(ram, pd, a + n - 1);
      var last: nat := n - 1;
      forall i: nat | i < n ensures Backed(Forward(ram, pd, a, a, i), pd, a + i) {
        if i == last {
          assert Backed(ram, pd, a + last);
        }
      }
    }
  }

  lemma StoreLoaded(ram: Ram, pd: Frame, x: Word)
    ensures StoreByte(ram, pd, x, LoadByte(ram, pd, x)) == ram
  {
    hide Walk, ByteAt, SetByte;
    SameByte(ram, FrameAt(ram, pd, x), OffsetOf(x));
  }

  lemma SameByte(ram: Ram, f: Frame, k: Offset)
    ensures PokeByte(ram, f, k, ByteAt(ram[f], k)) == ram
  {
    var t := SetByte(ram[f], k, ByteAt(ram[f], k));
    forall j: Offset ensures ByteAt(t, j) == ByteAt(ram[f], j) {}
    SameBytes(t, ram[f]);
  }

  lemma SamePageBacked(ram: Ram, pd: Frame, a: Word, n: nat)
    requires OffsetOf(a) + n <= PAGE_SIZE && Backed(ram, pd, a)
    ensures a + n <= 0x1_0000_0000 && forall x: Word :: a <= x < a + n ==> Backed(ram, pd, x)
  {
    forall x: Word | a <= x < a + n ensures PageOf(x) == PageOf(a) {}
  }

  /** Writable, and the source is mapped and its frames are not written. */
  ghost predicate Copyable(ram: Ram, pd: Frame, a: Word, b: Word, n: nat) {
    && Writable(ram, pd, a, b, n)
    && (forall y: Word :: b <= y < b + n ==> Backed(ram, pd, y))
    && (forall x: Word, y: Word :: a <= x < a + n && b <= y < b + n ==> FrameAt(ram, pd, x) != FrameAt(ram, pd, y))
  }

  lemma {:induction false} CopiedSource(ram: Ram, pd: Frame, a: Word, b: Word, n: nat, m: nat, i: nat)
    requires Copyable(ram, pd, a, b, n) && m <= n && i < n
    ensures Copied(ram, pd, a, b, m)[FrameAt(ram, pd, b + i)] == ram[FrameAt(ram, pd, b + i)]
  {
    hide Walk, Aside, ByteAt, SetByte, LoadByte, PageOf, OffsetOf;
    if m > 0 {
      CopiedSource(ram, pd, a, b, n, m - 1, i);
      assert FrameAt(ram, pd, a + m - 1) != FrameAt(ram, pd, b + i);
    }
  }

  lemma CopyBounds(ram: Ram, pd: Frame, a: Word, b: Word, n: nat)
    requires Copyable(ram, pd, a, b, n)
    ensures a + n <= 0x1_0000_0000 && b + n <= 0x1_0000_0000 && Copied(ram, pd, a, b, 0) == ram
  {
  }

  /** One turn of the memcpy loop: the translations and the source byte are still the original ones. */
  lemma CopyStep(ram: Ram, pd: Frame, a: Word, b: Word, n: nat, i: nat)
    requires Copyable(ram, pd, a, b, n) && i < n
    ensures var r := Copied(ram, pd, a, b, i);
      Copied(ram, pd, a, b, i + 1) == StoreByte(r, pd, a + i, LoadByte(r, pd, b + i))
  {
    CopiedWalk(ram, pd, a, b, n, i, PageOf(a + i));
    CopiedWalk(ram, pd, a, b, n, i, PageOf(b + i));
    CopiedSource(ram, pd, a, b, n, i, i);
    var r := Copied(ram, pd, a, b, i);
    assert FrameAt(r, pd, a + i) == FrameAt(ram, pd, a + i);
    assert LoadByte(r, pd, b + i) == LoadByte(ram, pd, b + i);
  }

  /** The loop then copies the bytes as they were, by the translations as they were. */
  lemma {:induction false} CopyForward(ram: Ram, pd: Frame, a: Word, b: Word, n: nat)
    requires Copyable(ram, pd, a, b, n)
    ensures Reachable(ram, pd, a, b, n) && Forward(ram, pd, a, b, n) == Copied(ram, pd, a, b, n)
  {
    hide Copyable, Forward, Copied, Walk;
    CopyBounds(ram, pd, a, b, n);
    ForwardSteps(ram, pd, a, b, n, n);
    forall i: nat | i < n
      ensures Backed(Forward(ram, pd, a, b, i), pd, a + i) && Backed(Forward(ram, pd, a, b, i), pd, b + i)
    {
      ForwardSteps(ram, pd, a, b, n, i);
      CopiedBacked(ram, pd, a, b, n, i);
    }
  }

  lemma CopiedBacked(ram: Ram, pd: Frame, a: Word, b: Word, n: nat, i: nat)
    requires Copyable(ram, pd, a, b, n) && i < n
    ensures a + n <= 0x1_0000_0000 && b + n <= 0x1_0000_0000
    ensures Backed(Copied(ram, pd, a, b, i), pd, a + i) && Backed(Copied(ram, pd, a, b, i), pd, b + i)
  {
    hide Copied, Walk, Aside, PageOf;
    CopyBounds(ram, pd, a, b, n);
    var x: Word, y: Word := a + i, b + i;
    CopiedWalk(ram, pd, a, b, n, i, PageOf(x));
    CopiedWalk(ram, pd, a, b, n, i, PageOf(y));
    assert Backed(ram, pd, x) && Backed(ram, pd, y);
  }

  lemma {:induction false} ForwardSteps(ram: Ram, pd: Frame, a: Word, b: Word, n: nat, m: nat)
    requires Copyable(ram, pd, a, b, n) && m <= n
    ensures a + m <= 0x1_0000_0000 && b + m <= 0x1_0000_0000
    ensures Forward(ram, pd, a, b, m) == Copied(ram, pd, a, b, m)
  {
    hide Copyable, StoreByte, LoadByte, Copied;
    CopyBounds(ram, pd, a, b, n);
    if m > 0 {
      ForwardSteps(ram, pd, a, b, n, m - 1);
      CopyStep(ram, pd, a, b, n, m - 1);
    }
  }

  /** n bytes inside one page are copied to inside one page of another frame. */
  lemma PageCopyable(ram: Ram, pd: Frame, a: Word, b: Word, f: Frame, g: Frame, n: nat)
    requires Walk(ram, pd, PageOf(a)) == Some(f) && Walk(ram, pd, PageOf(b)) == Some(g) && f != g
    requires OffsetOf(a) + n <= PAGE_SIZE && OffsetOf(b) + n <= PAGE_SIZE
    requires Aside(ram, pd, f, PageOf(a)) && Aside(ram, pd, f, PageOf(b))
    ensures Copyable(ram, pd, a, b, n)
  {
    forall x: Word | a <= x < a + n ensures PageOf(x) == PageOf(a) && FrameAt(ram, pd, x) == f {}
    forall y: Word | b <= y < b + n ensures PageOf(y) == PageOf(b) && FrameAt(ram, pd, y) == g {}
    hide Walk, Aside;
  }

  /** Bytes copied to the start of a page, from anywhere. */
  lemma {:induction false} CopiedAnywhere(ram: Ram, pd: Frame, a: Word, b: Word, f: Frame, m: nat)
    requires Walk(ram, pd, PageOf(a)) == Some(f) && OffsetOf(a) == 0 && m <= PAGE_SIZE && b + m <= 0x1_0000_0000
    ensures a + m <= 0x1_0000_0000
    ensures var r := Copied(ram, pd, a, b, m);
      && r == ram[f := r[f]]
      && forall k: Offset :: ByteAt(r[f], k) == if k < m then LoadByte(ram, pd, b + k) else ByteAt(ram[f], k)
  {
    hide Walk, ByteAt, SetByte, OffsetOf, PageOf, LoadByte;
    if m > 0 {
      CopiedAnywhere(ram, pd, a, b, f, m - 1);
      SamePage(a, m - 1);
      var x: Word := a + m - 1;
      var r1 := Copied(ram, pd, a, b, m - 1);
      assert Copied(ram, pd, a, b, m) == PokeByte(r1, f, OffsetOf(x), LoadByte(ram, pd, b + m - 1));
    }
  }

  /** Bytes lo..hi of a run of pages are cleared: the run starts at page p, its frames are fs. */
  lemma {:induction false} ClearedRun(ram: Ram, pd: Frame, p: PageNo, fs: seq<Frame>, a: Word, m: nat)
    requires p + |fs| <= 0x10_0000 && p * PAGE_SIZE <= a && a + m <= (p + |fs|) * PAGE_SIZE
    requires forall i: nat :: i < |fs| ==> Walk(ram, pd, p + i) == Some(fs[i])
    requires forall i, j :: 0 <= i < j < |fs| ==> fs[i] != fs[j]
    ensures forall g: Frame :: g !in fs ==> Cleared(ram, pd, a, m)[g] == ram[g]
    ensures forall i: nat, k: Offset :: i < |fs| ==>
      ByteAt(Cleared(ram, pd, a, m)[fs[i]], k) == if a <= (p + i) * PAGE_SIZE + k < a + m then 0
        else ByteAt(ram[fs[i]], k)
  {
    hide Walk, ByteAt, SetByte;
    if m > 0 {
      ClearedRun(ram, pd, p, fs, a, m - 1);
      var x: Word := a + m - 1;
      var c: nat, o: Offset := PageOf(x) - p, OffsetOf(x);
      var r1, r := Cleared(ram, pd, a, m - 1), Cleared(ram, pd, a, m);
      assert x == (p + c) * PAGE_SIZE + o && c < |fs|;
      assert FrameAt(ram, pd, x) == fs[c] by { assert Walk(ram, pd, p + c) == Some(fs[c]); }
      assert r == PokeByte(r1, fs[c], o, 0);
      hide Cleared, FrameAt, PageOf, OffsetOf;
      forall i: nat, k: Offset | i < |fs|
        ensures ByteAt(r[fs[i]], k) == if a <= (p + i) * PAGE_SIZE + k < a + m then 0 else ByteAt(ram[fs[i]], k)
      {
        assert i != c ==> fs[i] != fs[c];
        assert (p + i) * PAGE_SIZE + k == x <==> i == c && k == o;
      }
    }
  }
}
