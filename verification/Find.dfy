/** What a search for a run of unmapped virtual pages finds. */
module Find {
  import opened Bits
  import opened Options
  import opened Mmu

  ghost predicate Unmapped(ram: Ram, pd: Frame, q: nat) {
    q < 0x10_0000 && Walk(ram, pd, q) == None
  }

  /** The intended search: num consecutive unmapped pages from q on, inside [lo, end). */
  ghost predicate FreeRun(ram: Ram, pd: Frame, num: nat, q: nat) {
    forall k :: q <= k < q + num ==> Unmapped(ram, pd, k)
  }

  ghost predicate LowestRun(ram: Ram, pd: Frame, num: nat, lo: nat, end: nat, q: nat) {
    && lo <= q && q + num <= end && FreeRun(ram, pd, num, q)
    && forall r :: lo <= r < q ==> !FreeRun(ram, pd, num, r)
  }

  ghost predicate NoRun(ram: Ram, pd: Frame, num: nat, lo: nat, end: nat) {
    forall r :: lo <= r && r + num <= end ==> !FreeRun(ram, pd, num, r)
  }

  /** The intended end of the search: the page of limit_high is left out when its directory slot has a
      table. */
  ghost function End(ram: Ram, pd: Frame, hi: PageNo): nat {
    if Present(ram[pd][DirOf(hi)]) then hi else (DirOf(hi) + 1) * 1024
  }

  // ----- the search as the code performs it -----

  /** The count is compared only after a page was counted, so that a request for 0 pages looks for one. */
  function Wanted(num: nat): nat { if num == 0 then 1 else num }

  /** Empty directory slots at the start are stepped over in strides of 1024 pages, without aligning the
      position: this is where the first table is entered. */
  ghost function FirstTable(ram: Ram, pd: Frame, p: nat, last: Index): (r: nat)
    ensures p <= r
    ensures p / 1024 > last ==> r == p
    decreases last + 1 - p / 1024
  {
    if p / 1024 > last || Present(ram[pd][p / 1024]) then p else FirstTable(ram, pd, p + 1024, last)
  }

  ghost predicate Seen(ram: Ram, pd: Frame, lo: nat, last: Index, q: nat) {
    (lo <= q < FirstTable(ram, pd, lo, last)) || Unmapped(ram, pd, q)
  }

  ghost predicate SeenRun(ram: Ram, pd: Frame, lo: nat, last: Index, num: nat, q: nat) {
    forall k :: q <= k < q + num ==> Seen(ram, pd, lo, last, k)
  }

  ghost function SeenEnd(ram: Ram, pd: Frame, lo: nat, hi: PageNo): nat {
    var first := FirstTable(ram, pd, lo, DirOf(hi));
    var end := if Present(ram[pd][DirOf(hi)]) then hi else (DirOf(hi) + 1) * 1024;
    if first / 1024 > DirOf(hi) || end < first then first else end
  }

  ghost predicate Found(ram: Ram, pd: Frame, num: nat, lo: nat, hi: PageNo, q: nat) {
    && lo <= q && q + num <= SeenEnd(ram, pd, lo, hi) && SeenRun(ram, pd, lo, DirOf(hi), num, q)
    && forall r :: lo <= r < q ==> !SeenRun(ram, pd, lo, DirOf(hi), num, r)
  }

  ghost predicate NotFound(ram: Ram, pd: Frame, num: nat, lo: nat, hi: PageNo) {
    forall r :: lo <= r && r + num <= SeenEnd(ram, pd, lo, hi) ==> !SeenRun(ram, pd, lo, DirOf(hi), num, r)
  }

  /** The code takes vaddr == 0 for NULL, "no run yet": a run that starts at page 0 is recorded again where
      the second count is made. The pages of the first count: */
  function FirstCount(ram: Ram, pd: Frame): nat { if Present(ram[pd][0]) then 1 else 1024 }

  /** The page vaddr names after n pages of a run from page s on were counted. */
  function Mark(ram: Ram, pd: Frame, s: nat, n: nat): nat {
    if s > 0 || n <= FirstCount(ram, pd) then s else FirstCount(ram, pd)
  }

  /** The page of the address the code returns; 0 is NULL. */
  ghost predicate Answers(ram: Ram, pd: Frame, num: nat, lo: nat, hi: PageNo, r: nat) {
    || (r == 0 && NotFound(ram, pd, num, lo, hi))
    || exists q :: Found(ram, pd, num, lo, hi, q) && r == Mark(ram, pd, q, num)
  }

  lemma FoundAnswers(ram: Ram, pd: Frame, num: nat, lo: nat, hi: PageNo, q: nat)
    requires Found(ram, pd, num, lo, hi, q)
    ensures Answers(ram, pd, num, lo, hi, Mark(ram, pd, q, num))
  {
  }

  lemma NullAnswers(ram: Ram, pd: Frame, num: nat, lo: nat, hi: PageNo)
    requires NotFound(ram, pd, num, lo, hi)
    ensures Answers(ram, pd, num, lo, hi, 0)
  {
  }

  /** From page 1 on, the scan's result is the answer. */
  lemma AnswersFound(ram: Ram, pd: Frame, num: nat, lo: PageNo, hi: PageNo, r: nat)
    requires Answers(ram, pd, num, lo, hi, r)
    ensures lo >= 1 && r != 0 ==> Found(ram, pd, num, lo, hi, r)
    ensures lo >= 1 && r == 0 ==> NotFound(ram, pd, num, lo, hi)
  {
  }

  lemma AbsentCount(ram: Ram, pd: Frame, pos: PageNo)
    requires !Present(ram[pd][DirOf(pos)])
    ensures pos == 0 ==> FirstCount(ram, pd) == 1024
  {
  }

  lemma PresentCount(ram: Ram, pd: Frame, pos: PageNo)
    requires Present(ram[pd][DirOf(pos)])
    ensures pos == 0 ==> FirstCount(ram, pd) == 1
  {
  }

  /** The state of the scan before position pos: pages s..pos are seen as free, and no run starts before s. */
  ghost predicate Scanned(ram: Ram, pd: Frame, lo: nat, last: Index, num: nat, s: nat, pos: nat, found: nat,
                          vaddr: nat)
  {
    && lo <= s <= pos && found == pos - s < num
    && vaddr == (if found == 0 then 0 else Mark(ram, pd, s, found) * PAGE_SIZE)
    && (s == 0 < found ==> found >= FirstCount(ram, pd))
    && (forall q :: s <= q < pos ==> Seen(ram, pd, lo, last, q))
    && (forall q :: lo <= q < s ==> !SeenRun(ram, pd, lo, last, num, q))
  }

  /** vaddr after the assignment in PAGES_FOUND, at page pos. */
  function Recorded(vaddr: nat, pos: nat): nat { if vaddr == 0 then pos * PAGE_SIZE else vaddr }

  /** The address v is returned for the run that starts at page q. */
  ghost predicate Returned(ram: Ram, pd: Frame, num: nat, lo: nat, hi: PageNo, q: nat, v: nat) {
    && Found(ram, pd, num, lo, hi, q) && v < 0x1_0000_0000 && v % PAGE_SIZE == 0
    && v / PAGE_SIZE == Mark(ram, pd, q, num)
  }

  lemma ReturnedAnswers(ram: Ram, pd: Frame, num: nat, lo: PageNo, hi: PageNo, q: nat, v: nat)
    requires Returned(ram, pd, num, lo, hi, q, v)
    ensures v < 0x1_0000_0000 && v % PAGE_SIZE == 0 && Answers(ram, pd, num, lo, hi, v / PAGE_SIZE)
    ensures lo >= 1 && v != 0 ==> Found(ram, pd, num, lo, hi, v / PAGE_SIZE)
    ensures lo >= 1 && v == 0 ==> NotFound(ram, pd, num, lo, hi)
  {
    FoundAnswers(ram, pd, num, lo, hi, q);
    AnswersFound(ram, pd, num, lo, hi, v / PAGE_SIZE);
  }

  lemma ScannedBounds(ram: Ram, pd: Frame, lo: nat, last: Index, num: nat, s: nat, pos: nat, found: nat, vaddr: nat)
    requires Scanned(ram, pd, lo, last, num, s, pos, found, vaddr)
    ensures lo <= pos
  {
  }

  lemma ScanFree(ram: Ram, pd: Frame, lo: nat, hi: PageNo, num: nat, s: nat, pos: PageNo, n: nat, found: nat,
                 vaddr: nat)
    requires Scanned(ram, pd, lo, DirOf(hi), num, s, pos, found, vaddr)
    requires n > 0 && (pos == 0 ==> n == FirstCount(ram, pd))
    requires forall q :: pos <= q < pos + n ==> Seen(ram, pd, lo, DirOf(hi), q)
    requires pos + n <= SeenEnd(ram, pd, lo, hi)
    ensures found + n < num ==> Scanned(ram, pd, lo, DirOf(hi), num, s, pos + n, found + n, Recorded(vaddr, pos))
    ensures found + n >= num ==> Returned(ram, pd, num, lo, hi, s, Recorded(vaddr, pos))
  {
    hide Seen, SeenRun, SeenEnd;
    ScanMark(ram, pd, s, pos, found, vaddr, n);
    if found + n >= num {
      ScanFound(ram, pd, lo, hi, num, s, pos, found, vaddr, n);
    } else {
      hide Mark;
    }
  }

  lemma ScanFound(ram: Ram, pd: Frame, lo: nat, hi: PageNo, num: nat, s: nat, pos: PageNo, found: nat, vaddr: nat,
                  n: nat)
    requires Scanned(ram, pd, lo, DirOf(hi), num, s, pos, found, vaddr) && found + n >= num
    requires forall q :: pos <= q < pos + n ==> Seen(ram, pd, lo, DirOf(hi), q)
    requires pos + n <= SeenEnd(ram, pd, lo, hi)
    ensures Found(ram, pd, num, lo, hi, s)
  {
    hide Seen, SeenEnd, Mark;
  }

  /** What vaddr is after one more count. */
  lemma ScanMark(ram: Ram, pd: Frame, s: nat, pos: PageNo, found: nat, vaddr: nat, n: nat)
    requires s <= pos && found == pos - s && n > 0 && (pos == 0 ==> n == FirstCount(ram, pd))
    requires vaddr == (if found == 0 then 0 else Mark(ram, pd, s, found) * PAGE_SIZE)
    requires s == 0 < found ==> found >= FirstCount(ram, pd)
    ensures var v := if vaddr == 0 then pos * PAGE_SIZE else vaddr;
      v == Mark(ram, pd, s, found + n) * PAGE_SIZE && v % PAGE_SIZE == 0 && v < 0x1_0000_0000
  {
  }

  lemma ScanMapped(ram: Ram, pd: Frame, lo: nat, last: Index, num: nat, s: nat, pos: nat, found: nat, vaddr: nat)
    requires Scanned(ram, pd, lo, last, num, s, pos, found, vaddr)
    requires !Seen(ram, pd, lo, last, pos)
    ensures Scanned(ram, pd, lo, last, num, pos + 1, pos + 1, 0, 0)
  {
    forall q | s <= q <= pos ensures !SeenRun(ram, pd, lo, last, num, q) {
      assert q <= pos < q + num;
    }
  }

  lemma ScanEnd(ram: Ram, pd: Frame, lo: nat, hi: PageNo, num: nat, s: nat, pos: nat, found: nat, vaddr: nat)
    requires Scanned(ram, pd, lo, DirOf(hi), num, s, pos, found, vaddr)
    requires pos >= SeenEnd(ram, pd, lo, hi)
    ensures NotFound(ram, pd, num, lo, hi)
  {
  }

  /** Before the first table the position is wherever the strides lead; after it, slots are aligned. */
  ghost predicate Phase(ram: Ram, pd: Frame, lo: nat, last: Index, pos: nat) {
    || (pos <= FirstTable(ram, pd, lo, last) && FirstTable(ram, pd, pos, last) == FirstTable(ram, pd, lo, last))
    || (FirstTable(ram, pd, lo, last) <= pos && pos % 1024 == 0)
  }

  lemma EnterTable(ram: Ram, pd: Frame, lo: nat, hi: PageNo, pos: nat)
    requires Phase(ram, pd, lo, DirOf(hi), pos) && pos / 1024 <= DirOf(hi) && Present(ram[pd][pos / 1024])
    ensures FirstTable(ram, pd, lo, DirOf(hi)) <= pos
    ensures pos / 1024 == DirOf(hi) ==> SeenEnd(ram, pd, lo, hi) <= if hi < pos then pos else hi
    ensures Phase(ram, pd, lo, DirOf(hi), (pos / 1024 + 1) * 1024)
  {
  }

  /** Inside a table, a page is seen as free just when it is unmapped. */
  lemma InTable(ram: Ram, pd: Frame, lo: nat, hi: PageNo, q: PageNo)
    requires FirstTable(ram, pd, lo, DirOf(hi)) <= q
    requires DirOf(q) < DirOf(hi) || (DirOf(q) == DirOf(hi) && q < hi)
    ensures Seen(ram, pd, lo, DirOf(hi), q) <==> Walk(ram, pd, q) == None
    ensures q + 1 <= SeenEnd(ram, pd, lo, hi)
  {
  }

  lemma ScanStart(ram: Ram, pd: Frame, lo: PageNo, hi: PageNo, num: nat)
    requires num >= 1
    ensures Scanned(ram, pd, lo, DirOf(hi), num, lo, lo, 0, 0)
    ensures Phase(ram, pd, lo, DirOf(hi), lo)
    ensures DirOf(lo) > DirOf(hi) ==> NotFound(ram, pd, num, lo, hi)
  {
  }

  lemma SkipTable(ram: Ram, pd: Frame, lo: nat, hi: PageNo, pos: nat)
    requires Phase(ram, pd, lo, DirOf(hi), pos) && lo <= pos && pos / 1024 <= DirOf(hi) && !Present(ram[pd][pos / 1024])
    ensures forall q :: pos <= q < pos + 1024 ==> Seen(ram, pd, lo, DirOf(hi), q)
    ensures pos + 1024 <= SeenEnd(ram, pd, lo, hi)
    ensures pos / 1024 == DirOf(hi) ==> pos + 1024 == SeenEnd(ram, pd, lo, hi)
    ensures Phase(ram, pd, lo, DirOf(hi), pos + 1024)
  {
    var first := FirstTable(ram, pd, lo, DirOf(hi));
    if first <= pos && pos % 1024 == 0 {
      forall q | pos <= q < pos + 1024 ensures Unmapped(ram, pd, q) {
        assert q / 1024 == pos / 1024;
      }
    } else {
      assert FirstTable(ram, pd, pos, DirOf(hi)) == FirstTable(ram, pd, pos + 1024, DirOf(hi));
    }
  }

  // ----- the two searches compared -----

  /** With limit_low aligned to a table, or its table present, no page is counted unseen. */
  ghost predicate Aligned(ram: Ram, pd: Frame, lo: PageNo) {
    lo % 1024 == 0 || Present(ram[pd][DirOf(lo)])
  }

  lemma {:induction false} AlignedFirst(ram: Ram, pd: Frame, lo: nat, last: Index)
    requires lo % 1024 == 0 && lo / 1024 <= last
    ensures FirstTable(ram, pd, lo, last) % 1024 == 0 && FirstTable(ram, pd, lo, last) <= (last + 1) * 1024
    ensures Present(ram[pd][last]) ==> FirstTable(ram, pd, lo, last) <= last * 1024
    ensures forall q: PageNo :: lo <= q < FirstTable(ram, pd, lo, last) ==> Unmapped(ram, pd, q)
    decreases last - lo / 1024
  {
    if !Present(ram[pd][lo / 1024]) && lo / 1024 < last {
      AlignedFirst(ram, pd, lo + 1024, last);
      forall q: PageNo | lo <= q < FirstTable(ram, pd, lo, last) ensures Unmapped(ram, pd, q) {
        if q >= lo + 1024 {
          assert FirstTable(ram, pd, lo, last) == FirstTable(ram, pd, lo + 1024, last);
        }
      }
    }
  }

  lemma AlignedSeen(ram: Ram, pd: Frame, lo: PageNo, hi: PageNo, q: nat)
    requires Aligned(ram, pd, lo)
    requires lo <= hi
    ensures Seen(ram, pd, lo, DirOf(hi), q) <==> Unmapped(ram, pd, q)
    ensures SeenEnd(ram, pd, lo, hi) == End(ram, pd, hi)
  {
    if lo % 1024 == 0 {
      AlignedFirst(ram, pd, lo, DirOf(hi));
    }
  }

  lemma AlignedRun(ram: Ram, pd: Frame, num: nat, lo: PageNo, hi: PageNo, q: nat)
    requires Aligned(ram, pd, lo) && lo <= hi
    ensures SeenRun(ram, pd, lo, DirOf(hi), num, q) <==> FreeRun(ram, pd, num, q)
  {
    forall k: nat ensures Seen(ram, pd, lo, DirOf(hi), k) <==> Unmapped(ram, pd, k) {
      AlignedSeen(ram, pd, lo, hi, k);
    }
  }

  /** With limit_low aligned to a table, or its table present, the scan is first fit. */
  lemma ScanFit(ram: Ram, pd: Frame, num: nat, lo: PageNo, hi: PageNo)
    requires Aligned(ram, pd, lo) && lo <= hi
    ensures forall q :: Found(ram, pd, num, lo, hi, q) <==> LowestRun(ram, pd, num, lo, End(ram, pd, hi), q)
    ensures NotFound(ram, pd, num, lo, hi) <==> NoRun(ram, pd, num, lo, End(ram, pd, hi))
  {
    AlignedSeen(ram, pd, lo, hi, 0);
    forall q: nat ensures SeenRun(ram, pd, lo, DirOf(hi), num, q) <==> FreeRun(ram, pd, num, q) {
      AlignedRun(ram, pd, num, lo, hi, q);
    }
  }

  /** Page 0 is not where a run could start: its address is the code's NULL. */
  ghost predicate NullSafe(ram: Ram, pd: Frame, lo: PageNo) {
    lo >= 1 || !Unmapped(ram, pd, 0)
  }

  /** vmm_find is exact first fit when limit_low is aligned or its table is present, and it does not start in an
      unmapped page 0. */
  lemma FirstFit(ram: Ram, pd: Frame, num: nat, lo: PageNo, hi: PageNo, r: nat)
    requires num >= 1 && Aligned(ram, pd, lo) && NullSafe(ram, pd, lo) && lo <= hi
    ensures Answers(ram, pd, num, lo, hi, r) <==>
      if r == 0 then NoRun(ram, pd, num, lo, End(ram, pd, hi)) else LowestRun(ram, pd, num, lo, End(ram, pd, hi), r)
  {
    ScanFit(ram, pd, num, lo, hi);
    hide Found, NotFound, End;
    forall q: nat | LowestRun(ram, pd, num, lo, End(ram, pd, hi), q) ensures Mark(ram, pd, q, num) == q && q != 0 {
      assert q == 0 ==> Unmapped(ram, pd, q);
    }
    if r != 0 && LowestRun(ram, pd, num, lo, End(ram, pd, hi), r) {
      assert Found(ram, pd, num, lo, hi, r) && r == Mark(ram, pd, r, num);
    }
  }

  /** The promise: the lowest run inside the limits, and NULL only when no run avoids the page of
      limit_high. */
  ghost predicate Promised(ram: Ram, pd: Frame, num: nat, lo: PageNo, hi: PageNo) {
    forall r: nat :: Answers(ram, pd, num, lo, hi, r) ==>
      if r == 0 then NoRun(ram, pd, num, lo, hi) else LowestRun(ram, pd, num, lo, hi + 1, r)
  }

  /** The code keeps it for every number of pages and every 4 MiB limit exactly when limit_low is aligned
      or its table is present, and it does not start in an unmapped page 0. */
  lemma PromiseKept(ram: Ram, pd: Frame, lo: PageNo)
    ensures Aligned(ram, pd, lo) && NullSafe(ram, pd, lo) <==>
      forall num: nat, hi: PageNo :: num >= 1 && lo <= hi && SlotOf(hi) == 1023 ==> Promised(ram, pd, num, lo, hi)
  {
    if !Aligned(ram, pd, lo) {
      Overcount(ram, pd, lo);
    } else if !NullSafe(ram, pd, lo) {
      NullPage(ram, pd);
    } else {
      forall num: nat, hi: PageNo | num >= 1 && lo <= hi && SlotOf(hi) == 1023 ensures Promised(ram, pd, num, lo, hi) {
        PromiseHeld(ram, pd, num, lo, hi);
      }
    }
  }

  lemma PromiseHeld(ram: Ram, pd: Frame, num: nat, lo: PageNo, hi: PageNo)
    requires Aligned(ram, pd, lo) && NullSafe(ram, pd, lo) && num >= 1 && lo <= hi && SlotOf(hi) == 1023
    ensures Promised(ram, pd, num, lo, hi)
  {
    hide Answers, Aligned, NullSafe, FreeRun;
    forall r: nat | Answers(ram, pd, num, lo, hi, r)
      ensures if r == 0 then NoRun(ram, pd, num, lo, hi) else LowestRun(ram, pd, num, lo, hi + 1, r)
    {
      FirstFit(ram, pd, num, lo, hi, r);
    }
  }

  /** A whole table's worth of pages is found from the middle of an absent table. */
  lemma Overcount(ram: Ram, pd: Frame, lo: PageNo)
    requires !Aligned(ram, pd, lo)
    ensures lo <= PageAt(DirOf(lo), 1023) && Found(ram, pd, 1024, lo, PageAt(DirOf(lo), 1023), lo)
    ensures Answers(ram, pd, 1024, lo, PageAt(DirOf(lo), 1023), lo)
    ensures !Promised(ram, pd, 1024, lo, PageAt(DirOf(lo), 1023))
  {
    var hi: PageNo, end: nat := PageAt(DirOf(lo), 1023), PageAt(DirOf(lo), 1023) + 1;
    assert FirstTable(ram, pd, lo, DirOf(lo)) == lo + 1024;
    assert Found(ram, pd, 1024, lo, hi, lo);
    assert Mark(ram, pd, lo, 1024) == lo;
    hide Found;
    assert Answers(ram, pd, 1024, lo, hi, lo);
    assert !LowestRun(ram, pd, 1024, lo, end, lo);
  }

  /** A single free page 0 is found, and its address reads as failure. */
  lemma NullPage(ram: Ram, pd: Frame)
    requires Unmapped(ram, pd, 0)
    ensures Found(ram, pd, 1, 0, 1023, 0) && Answers(ram, pd, 1, 0, 1023, 0) && !Promised(ram, pd, 1, 0, 1023)
  {
    ScanFit(ram, pd, 1, 0, 1023);
    assert LowestRun(ram, pd, 1, 0, End(ram, pd, 1023), 0);
    assert FreeRun(ram, pd, 1, 0) && Mark(ram, pd, 0, 1) == 0;
    hide Found;
    assert Answers(ram, pd, 1, 0, 1023, 0);
  }

  /** Two free pages from page 0 on are found, and the address of the second is returned, which starts no
      run. */
  lemma NullPair(ram: Ram, pd: Frame)
    requires Present(ram[pd][0]) && Unmapped(ram, pd, 0) && Unmapped(ram, pd, 1) && !Unmapped(ram, pd, 2)
    ensures Answers(ram, pd, 2, 0, 1023, 1) && !FreeRun(ram, pd, 2, 1)
  {
    ScanFit(ram, pd, 2, 0, 1023);
    assert LowestRun(ram, pd, 2, 0, End(ram, pd, 1023), 0);
    hide Found;
    assert Mark(ram, pd, 0, 2) == 1;
    assert 1 <= 2 < 1 + 2;
  }
}
