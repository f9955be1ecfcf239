/** The byte loops of the C library on memory areas, and the growth of a file's buffer by vfs_write. An area
    is a sequence of bytes; a loop returns the area it leaves. */
module Buffers {
  import opened Bits
  import opened Options
  import opened Mmu

  // ----- mem.c -----

  function Spliced(area: seq<Byte>, off: nat, data: seq<Byte>): (r: seq<Byte>)
    requires off + |data| <= |area|
    ensures |r| == |area|
    ensures forall k :: 0 <= k < |r| ==> r[k] == if off <= k < off + |data| then data[k - off] else area[k]
  {
    area[..off] + data + area[off + |data|..]
  }

  /** memcpy(dest + off, src, n). */
  method Memcpy(dest: seq<Byte>, off: nat, src: seq<Byte>, n: nat) returns (r: seq<Byte>)
    requires n <= |src| && off + n <= |dest|
    ensures r == Spliced(dest, off, src[..n])
  {
    r := dest;
    for i := 0 to n
      invariant r == Spliced(dest, off, src[..i])
    {
      assert src[..i + 1] == src[..i] + [src[i]];
      r := r[off + i := src[i]];
    }
  }

  method Memset(dest: seq<Byte>, value: Byte, n: nat) returns (r: seq<Byte>)
    requires n <= |dest|
    ensures r == seq(n, _ => value) + dest[n..]
  {
    r := dest;
    for i := 0 to n
      invariant r == seq(i, _ => value) + dest[i..]
    {
      r := r[i := value];
    }
  }

  /** What the loop of memmove leaves in a memory m for the destination d and the source s: it stores the bytes
      n, n-1, .., 1 in turn, not n-1, .., 0. */
  function Slid(m: seq<Byte>, d: nat, s: nat, n: nat): (r: seq<Byte>)
    requires d + n < |m| && s + n < |m|
    ensures |r| == |m|
    decreases n
  {
    if n == 0 then m else Slid(m[d + n := m[s + n]], d, s, n - 1)
  }

  /** memmove(m + d, m + s, n). */
  method Memmove(m: seq<Byte>, d: nat, s: nat, n: nat) returns (r: seq<Byte>)
    requires d + n < |m| && s + n < |m|
    ensures r == Slid(m, d, s, n)
  {
    r := m;
    var k := n;
    while k > 0
      invariant 0 <= k <= n && |r| == |m|
      invariant Slid(r, d, s, k) == Slid(m, d, s, n)
    {
      r := r[d + k := r[s + k]];
      k := k - 1;
    }
  }

  /** Where the byte that ends at offset k of the destination comes from when the source lies gap bytes above:
      the loop has then overwritten source offsets that it still reads. */
  function Origin(k: nat, gap: nat, n: nat): (o: nat)
    requires 1 <= gap && k <= n
    ensures k <= o <= n < o + gap
    decreases n - k
  {
    if k + gap <= n then Origin(k + gap, gap, n) else k
  }

  lemma {:induction false} OriginLonger(k: nat, gap: nat, n: nat)
    requires 1 <= gap && k < n
    ensures Origin(k, gap, n) == if Origin(k, gap, n - 1) + gap == n then n else Origin(k, gap, n - 1)
    decreases n - k
  {
    if k + gap < n {
      OriginLonger(k + gap, gap, n);
    }
  }

  /** Each byte the loop leaves. */
  lemma {:induction false} SlidAt(m: seq<Byte>, d: nat, s: nat, n: nat, i: nat)
    requires d + n < |m| && s + n < |m| && i < |m|
    ensures Slid(m, d, s, n)[i] == if !(d < i <= d + n) then m[i]
      else if d >= s then m[s + (i - d)] else m[s + Origin(i - d, s - d, n)]
    decreases n
  {
    if n > 0 {
      SlidAt(m[d + n := m[s + n]], d, s, n - 1, i);
      if d < i < d + n && d < s {
        OriginLonger(i - d, s - d, n);
      }
    }
  }

  /** The source repeats itself with the period s - d as far as the loop overwrites it. */
  ghost predicate Repeats(m: seq<Byte>, d: nat, s: nat, n: nat)
    requires d <= s && s + n < |m|
  {
    forall i, j :: s < i <= s + n && s < j <= s + n && j - i == s - d ==> m[i] == m[j]
  }

  lemma {:induction false} RepeatsOrigin(m: seq<Byte>, d: nat, s: nat, n: nat, k: nat)
    requires d < s && s + n < |m| && 1 <= k <= n && Repeats(m, d, s, n)
    ensures m[s + Origin(k, s - d, n)] == m[s + k]
    decreases n - k
  {
    if k + (s - d) <= n {
      assert m[s + k] == m[s + k + (s - d)];
      RepeatsOrigin(m, d, s, n, k + (s - d));
    }
  }

  /** memmove moves the bytes 0..n-1, as it should, exactly when there is none, or the first byte and the byte
      behind the destination already agree with the source, and no byte above the destination that is
      overwritten before it is read mattered. */
  lemma MemmoveExactly(m: seq<Byte>, d: nat, s: nat, n: nat)
    requires d + n < |m| && s + n < |m|
    ensures Slid(m, d, s, n) == Spliced(m, d, m[s..s + n]) <==>
      || n == 0
      || (m[d] == m[s] && m[d + n] == m[s + n] && (d < s ==> Repeats(m, d, s, n)))
  {
    hide Slid, Spliced, Origin;
    var a, b := Slid(m, d, s, n), Spliced(m, d, m[s..s + n]);
    if n == 0 {
      forall i | 0 <= i < |m| ensures a[i] == b[i] {
        SlidAt(m, d, s, n, i);
      }
    } else if a == b {
      SlidAt(m, d, s, n, d);
      SlidAt(m, d, s, n, d + n);
      if d < s {
        MovedRepeats(m, d, s, n);
      }
    } else if m[d] == m[s] && m[d + n] == m[s + n] && (d < s ==> Repeats(m, d, s, n)) {
      forall i | 0 <= i < |m| ensures a[i] == b[i] {
        SlidAt(m, d, s, n, i);
        if d < i <= d + n && d < s {
          RepeatsOrigin(m, d, s, n, i - d);
        }
      }
    }
  }

  /** Both ends agree, and yet a byte is overwritten before it is read. */
  lemma OverlapFails()
    ensures var m: seq<Byte> := [7, 7, 1, 2, 2];
      && m[0] == m[1] && m[3] == m[4]
      && Slid(m, 0, 1, 3) == [7, 2, 2, 2, 2] && Spliced(m, 0, m[1..4]) == [7, 1, 2, 2, 2]
  {
  }

  lemma MovedRepeats(m: seq<Byte>, d: nat, s: nat, n: nat)
    requires d < s && s + n < |m| && Slid(m, d, s, n) == Spliced(m, d, m[s..s + n])
    ensures Repeats(m, d, s, n)
  {
    forall i, j | s < i <= s + n && s < j <= s + n && j - i == s - d ensures m[i] == m[j] {
      MovedAlike(m, d, s, n, i - s);
    }
  }

  lemma MovedAlike(m: seq<Byte>, d: nat, s: nat, n: nat, k: nat)
    requires d < s && s + n < |m| && Slid(m, d, s, n) == Spliced(m, d, m[s..s + n]) && 1 <= k && k + (s - d) <= n
    ensures m[s + k] == m[s + k + (s - d)]
  {
    hide Slid, Spliced;
    var b, j := Spliced(m, d, m[s..s + n]), k + (s - d);
    SlidAt(m, d, s, n, d + k);
    SlidAt(m, d, s, n, d + j);
    assert Origin(k, s - d, n) == Origin(j, s - d, n);
    assert b[d + k] == m[s + k] && (if j < n then b[d + j] == m[s + j] else b[d + j] == m[d + j]);
  }

  /** The loop between areas that do not overlap. */
  function Slipped(dest: seq<Byte>, src: seq<Byte>, n: nat): (r: seq<Byte>)
    requires n < |dest| && n < |src|
    ensures |r| == |dest|
  {
    if n == 0 then dest else dest[..1] + src[1..n + 1] + dest[n + 1..]
  }

  lemma SlippedAt(dest: seq<Byte>, src: seq<Byte>, n: nat, k: nat)
    requires n < |dest| && n < |src| && k < |dest|
    ensures Slipped(dest, src, n)[k] == if 0 < k <= n then src[k] else dest[k]
  {
  }

  /** Area a lies in memory m from offset o on. */
  ghost predicate LiesAt(m: seq<Byte>, o: nat, a: seq<Byte>) {
    o + |a| <= |m| && forall i :: 0 <= i < |a| ==> m[o + i] == a[i]
  }

  /** A move into another area leaves its source alone and the other area slipped, wherever the two lie. */
  lemma SlidApart(m: seq<Byte>, d: nat, s: nat, n: nat, dest: seq<Byte>, src: seq<Byte>)
    requires n < |dest| && n < |src| && (d + |dest| <= s || s + |src| <= d)
    requires LiesAt(m, d, dest) && LiesAt(m, s, src)
    ensures LiesAt(Slid(m, d, s, n), d, Slipped(dest, src, n)) && LiesAt(Slid(m, d, s, n), s, src)
  {
    hide Slid, Slipped;
    var r := Slid(m, d, s, n);
    forall i | 0 <= i < |dest| ensures r[d + i] == Slipped(dest, src, n)[i] {
      SlidAt(m, d, s, n, d + i);
      SlippedAt(dest, src, n, i);
    }
    forall i | 0 <= i < |src| ensures r[s + i] == src[i] {
      SlidAt(m, d, s, n, s + i);
    }
  }

  /** realloc into the pages of n bytes: area is what they hold and the byte behind them, src the old buffer and
      what lies behind it. */
  method Realloc(src: seq<Byte>, n: nat, area: seq<Byte>) returns (r: seq<Byte>)
    requires n < |area| && n < |src|
    ensures r == Slipped(area, src, n)[..|area| - 1]
  {
    hide Slid, Slipped;
    var memory := area + src;
    assert LiesAt(memory, 0, area) && LiesAt(memory, |area|, src);
    SlidApart(memory, 0, |area|, n, area, src);
    memory := Memmove(memory, 0, |area|, n);
    r := memory[..|area| - 1];
    forall i | 0 <= i < |area| - 1 ensures r[i] == Slipped(area, src, n)[i] {
      assert memory[0 + i] == r[i];
    }
  }

  // ----- the buffer of a file -----

  /** base is None for NULL; the buffer is as long as its pages. */
  datatype File = File(length: nat, base: Option<seq<Byte>>)

  /** The buffer has the pages of the length. */
  predicate Sized(f: File) {
    && f.length <= 0xffff_f000
    && match f.base case None => f.length == 0 case Some(b) => |b| == NumPages(f.length) * PAGE_SIZE
  }

  function Contents(f: File): seq<Byte>
    requires Sized(f)
  {
    NumPagesHold(f.length);
    match f.base case None => [] case Some(b) => b[..f.length]
  }

  /** A write grows the buffer by a new allocation. */
  predicate Grows(f: File, off: nat, n: nat)
    requires f.length <= 0xffff_f000 && off + n <= 0xffff_f000
  {
    off + n > f.length && NumPages(off + n) > NumPages(f.length)
  }

  function NewLength(f: File, off: nat, n: nat): nat { if off + n > f.length then off + n else f.length }

  /** What the write needs to know of the memory around: area is what the newly allocated pages hold and one
      byte behind them; behind is what lies behind the old buffer. */
  predicate Around(f: File, off: nat, n: nat, area: seq<Byte>, behind: seq<Byte>)
    requires f.length <= 0xffff_f000 && off + n <= 0xffff_f000
  {
    && |area| == NumPages(NewLength(f, off, n)) * PAGE_SIZE + 1
    && match f.base case None => true case Some(b) => |b| + |behind| > NewLength(f, off, n)
  }

  /** The buffer the bytes are copied into. */
  function Buffer(f: File, off: nat, n: nat, area: seq<Byte>, behind: seq<Byte>): seq<Byte>
    requires Sized(f) && off + n <= 0xffff_f000 && Around(f, off, n, area, behind)
  {
    NumPagesHold(NewLength(f, off, n));
    match f.base
    case None => area[..|area| - 1]
    case Some(b) => if Grows(f, off, n) then Slipped(area, b + behind, NewLength(f, off, n))[..|area| - 1] else b
  }

  function Written(f: File, off: nat, data: seq<Byte>, area: seq<Byte>, behind: seq<Byte>): (r: File)
    requires Sized(f) && off + |data| <= 0xffff_f000 && Around(f, off, |data|, area, behind)
    ensures Sized(r)
  {
    BufferHolds(f, off, |data|, area, behind);
    File(NewLength(f, off, |data|), Some(Spliced(Buffer(f, off, |data|, area, behind), off, data)))
  }

  /** The copy stays inside the buffer, which has the pages of the new length. */
  lemma BufferHolds(f: File, off: nat, n: nat, area: seq<Byte>, behind: seq<Byte>)
    requires Sized(f) && off + n <= 0xffff_f000 && Around(f, off, n, area, behind)
    ensures |Buffer(f, off, n, area, behind)| == NumPages(NewLength(f, off, n)) * PAGE_SIZE
    ensures off + n <= NewLength(f, off, n) <= |Buffer(f, off, n, area, behind)|
  {
    NumPagesHold(NewLength(f, off, n));
    NumPagesHold(f.length);
  }

  /** The intended contents: the slice at off is data, and the rest of the old contents is kept; a gap before
      the slice may hold anything. */
  ghost predicate Replaced(was: seq<Byte>, off: nat, data: seq<Byte>, now: seq<Byte>) {
    && |now| == (if off + |data| > |was| then off + |data| else |was|)
    && (forall k :: 0 <= k < |data| ==> now[off + k] == data[k])
    && (forall k :: 0 <= k < |was| && !(off <= k < off + |data|) ==> now[k] == was[k])
  }

  /** A write leaves the intended contents exactly when the file is empty, the page count stays as it is, the
      first byte is written, or the new page happens to hold it: a growing buffer loses it. */
  lemma WriteExactly(f: File, off: nat, data: seq<Byte>, area: seq<Byte>, behind: seq<Byte>)
    requires Sized(f) && off + |data| <= 0xffff_f000 && Around(f, off, |data|, area, behind)
    ensures |Contents(f)| == f.length
    ensures Replaced(Contents(f), off, data, Contents(Written(f, off, data, area, behind))) <==>
      || f.length == 0 || off == 0 || NumPages(NewLength(f, off, |data|)) <= NumPages(f.length)
      || area[0] == Contents(f)[0]
  {
    var was, now := Contents(f), Contents(Written(f, off, data, area, behind));
    NumPagesHold(f.length);
    WrittenAt(f, off, data, area, behind);
    hide Written, Contents, Sized, NumPages;
    forall k | 0 <= k < |data| ensures now[off + k] == data[k] {}
    forall k | 0 < k < |was| && !(off <= k < off + |data|) ensures now[k] == was[k] {
      BufferKeeps(f, off, |data|, area, behind, k);
    }
    if f.length > 0 {
      BufferFirst(f, off, |data|, area, behind);
    }
  }

  /** Each byte of the contents after a write. */
  lemma WrittenAt(f: File, off: nat, data: seq<Byte>, area: seq<Byte>, behind: seq<Byte>)
    requires Sized(f) && off + |data| <= 0xffff_f000 && Around(f, off, |data|, area, behind)
    ensures var now := Contents(Written(f, off, data, area, behind)); var b := Buffer(f, off, |data|, area, behind);
      && |now| == NewLength(f, off, |data|) <= |b|
      && forall k :: 0 <= k < |now| ==> now[k] == if off <= k < off + |data| then data[k - off] else b[k]
  {
    BufferHolds(f, off, |data|, area, behind);
    hide NumPages;
  }

  lemma BufferKeeps(f: File, off: nat, n: nat, area: seq<Byte>, behind: seq<Byte>, k: nat)
    requires Sized(f) && off + n <= 0xffff_f000 && Around(f, off, n, area, behind) && 0 < k < f.length
    ensures k < |Buffer(f, off, n, area, behind)| && k < |Contents(f)|
    ensures Buffer(f, off, n, area, behind)[k] == Contents(f)[k]
  {
    BufferHolds(f, off, n, area, behind);
    NumPagesHold(f.length);
    var b := f.base.value;
    if Grows(f, off, n) {
      SlippedAt(area, b + behind, NewLength(f, off, n), k);
      assert (b + behind)[k] == b[k];
    }
  }

  lemma BufferFirst(f: File, off: nat, n: nat, area: seq<Byte>, behind: seq<Byte>)
    requires Sized(f) && off + n <= 0xffff_f000 && Around(f, off, n, area, behind) && 0 < f.length
    ensures 0 < |Buffer(f, off, n, area, behind)| && 0 < |Contents(f)|
    ensures Buffer(f, off, n, area, behind)[0] == if Grows(f, off, n) then area[0] else Contents(f)[0]
  {
    BufferHolds(f, off, n, area, behind);
    NumPagesHold(f.length);
  }

  /** While the page count stays as it is, exactly the slice is replaced. */
  lemma WriteInPlace(f: File, off: nat, data: seq<Byte>, area: seq<Byte>, behind: seq<Byte>)
    requires Sized(f) && f.base.Some? && off + |data| <= 0xffff_f000 && Around(f, off, |data|, area, behind)
    requires NumPages(NewLength(f, off, |data|)) == NumPages(f.length)
    ensures var b := Written(f, off, data, area, behind).base;
      && b.Some? && |b.value| == |f.base.value|
      && forall k :: 0 <= k < |b.value| ==>
           b.value[k] == if off <= k < off + |data| then data[k - off] else f.base.value[k]
  {
    BufferHolds(f, off, |data|, area, behind);
    hide NumPages, Spliced;
  }

  /** The move changes the byte behind the new buffer. */
  ghost predicate Overruns(area: seq<Byte>, src: seq<Byte>, n: nat)
    requires n < |area| && n < |src|
  {
    Slipped(area, src, n)[|area| - 1] != area[|area| - 1]
  }

  /** The growth writes one byte behind the new buffer exactly when the length ends a page. */
  lemma GrowthOverruns(f: File, off: nat, n: nat, area: seq<Byte>, behind: seq<Byte>)
    requires Sized(f) && f.base.Some? && off + n <= 0xffff_f000 && Around(f, off, n, area, behind) && Grows(f, off, n)
    ensures (exists m: seq<Byte> :: |m| == |f.base.value + behind| && Overruns(area, m, NewLength(f, off, n)))
      <==> (off + n) % PAGE_SIZE == 0
  {
    var len, last := NewLength(f, off, n), |area| - 1;
    NumPagesHold(len);
    NumPagesHold(f.length);
    if len % PAGE_SIZE == 0 {
      assert len == last;
      var other: Byte := if area[last] == 0 then 1 else 0;
      var m: seq<Byte> := seq(|f.base.value + behind|, _ => other);
      assert Slipped(area, m, len)[last] == other && Overruns(area, m, len);
    } else {
      assert len < last;
    }
  }
}
