/** Unsigned machine words as natural numbers, with the bit operators the kernel applies to them. */
module Bits {

  type Word = w: nat | w < 0x1_0000_0000

  /** A physical frame number, or a virtual page number: an address divided by the page size. */
  type Frame = f: nat | f < 0x10_0000
  type PageNo = Frame

  const PAGE_SIZE := 0x1000

  /** The operators `|` and `& ~` on unsigned words, and the shifts. */
  function Or(a: nat, b: nat): nat
    decreases a + b
  {
    if a == 0 && b == 0 then 0
    else 2 * Or(a / 2, b / 2) + (if a % 2 == 1 || b % 2 == 1 then 1 else 0)
  }

  function AndNot(a: nat, b: nat): nat {
    if a == 0 then 0
    else 2 * AndNot(a / 2, b / 2) + (if a % 2 == 1 && b % 2 == 0 then 1 else 0)
  }

  function Shr(a: nat, k: nat): nat {
    if k == 0 then a else Shr(a / 2, k - 1)
  }

  function Shl(a: nat, k: nat): nat {
    if k == 0 then a else 2 * Shl(a, k - 1)
  }

  predicate Bit(w: nat, k: nat) {
    Shr(w, k) % 2 == 1
  }

  lemma {:induction false} OrHalf(a: nat, b: nat)
    ensures Or(a, b) / 2 == Or(a / 2, b / 2)
    ensures Or(a, b) % 2 == if a % 2 == 1 || b % 2 == 1 then 1 else 0
  {
  }

  lemma {:induction false} OrShr(a: nat, b: nat, k: nat)
    ensures Shr(Or(a, b), k) == Or(Shr(a, k), Shr(b, k))
  {
    if k > 0 {
      OrHalf(a, b);
      OrShr(a / 2, b / 2, k - 1);
    }
  }

  lemma {:induction false} OrBit(a: nat, b: nat, k: nat)
    ensures Bit(Or(a, b), k) <==> Bit(a, k) || Bit(b, k)
  {
    OrShr(a, b, k);
    OrHalf(Shr(a, k), Shr(b, k));
  }

  lemma {:induction false} AndNotBit(a: nat, b: nat, k: nat)
    ensures Bit(AndNot(a, b), k) <==> Bit(a, k) && !Bit(b, k)
  {
    assert AndNot(a, b) / 2 == AndNot(a / 2, b / 2);
    if k > 0 {
      AndNotBit(a / 2, b / 2, k - 1);
    }
  }

  /** `1 << j` has exactly bit j set. */
  lemma {:induction false} ShlBit(j: nat, k: nat)
    ensures Bit(Shl(1, j), k) <==> j == k
  {
    if k == 0 {
    } else if j == 0 {
      ZeroBit(k - 1);
    } else {
      ShlBit(j - 1, k - 1);
    }
  }

  lemma {:induction false} ZeroBit(k: nat)
    ensures Shr(0, k) == 0
  {
    if k > 0 {
      ZeroBit(k - 1);
    }
  }

  lemma {:induction false} OrZero(a: nat)
    ensures Or(a, 0) == a && Or(0, a) == a
  {
    if a > 0 {
      OrZero(a / 2);
    }
  }

  lemma {:induction false} ShrAdd(a: nat, j: nat, k: nat)
    ensures Shr(a, j + k) == Shr(Shr(a, j), k)
  {
    if j > 0 {
      ShrAdd(a / 2, j - 1, k);
      assert j + k - 1 == (j - 1) + k && Shr(a, j + k) == Shr(a / 2, j + k - 1);
    }
  }

  lemma ShrNext(a: nat, k: nat)
    ensures Shr(a, 0) == a && Shr(a, k + 1) == Shr(a, k) / 2
  {
    ShrAdd(a, k, 1);
    assert Shr(Shr(a, k), 1) == Shr(Shr(a, k) / 2, 0);
  }

  lemma {:induction false} Shr4(a: nat)
    ensures Shr(a, 4) == a / 16
  {
    assert Shr(a, 4) == Shr(a / 2, 3) == Shr(a / 2 / 2, 2) == Shr(a / 2 / 2 / 2, 1);
  }

  lemma {:induction false} Shr12(a: nat)
    ensures Shr(a, 12) == a / 0x1000
  {
    ShrAdd(a, 4, 8);
    ShrAdd(Shr(a, 4), 4, 4);
    Shr4(a);
    Shr4(a / 16);
    Shr4(a / 256);
  }

  lemma {:induction false} Shr32(a: nat)
    ensures Shr(a, 32) == a / 0x1_0000_0000
  {
    hide Shr;
    ShrAdd(a, 12, 20);
    Shr12(a);
    ShrAdd(a / 0x1000, 12, 8);
    Shr12(a / 0x1000);
    ShrAdd(a / 0x100_0000, 4, 4);
    Shr4(a / 0x100_0000);
    Shr4(a / 0x1000_0000);
  }

  /** Or-ing flag bits below bit 12 into a word keeps its page number and its width. */
  lemma {:induction false} OrFlags(a: nat, flags: nat)
    requires flags < 0x1000
    ensures Or(a, flags) / 0x1000 == a / 0x1000
    ensures a < 0x1_0000_0000 ==> Or(a, flags) < 0x1_0000_0000
  {
    OrShr(a, flags, 12);
    Shr12(Or(a, flags));
    Shr12(a);
    Shr12(flags);
    OrZero(a / 0x1000);
  }

  lemma {:induction false} ShlLow(a: nat, j: nat, k: nat)
    requires k < j
    ensures !Bit(Shl(a, j), k)
  {
    assert Shl(a, j) / 2 == Shl(a, j - 1);
    if k > 0 {
      ShlLow(a, j - 1, k - 1);
    }
  }

  lemma {:induction false} Shl12(a: nat)
    ensures Shl(a, 12) == a * 0x1000
  {
    assert Shl(a, 4) == 2 * Shl(a, 3) == 4 * Shl(a, 2) == 8 * Shl(a, 1) == 16 * a;
    assert Shl(a, 8) == 2 * Shl(a, 7) == 4 * Shl(a, 6) == 8 * Shl(a, 5) == 16 * Shl(a, 4);
    assert Shl(a, 12) == 2 * Shl(a, 11) == 4 * Shl(a, 10) == 8 * Shl(a, 9) == 16 * Shl(a, 8);
  }

  /** An address of a page has no bit below bit 12. */
  lemma AlignedBit(a: nat, k: nat)
    requires a % 0x1000 == 0 && k < 12
    ensures !Bit(a, k)
  {
    Shl12(a / 0x1000);
    ShlLow(a / 0x1000, 12, k);
  }

  lemma {:induction false} OrWord(a: nat, b: nat)
    requires a < 0x1_0000_0000 && b < 0x1_0000_0000
    ensures Or(a, b) < 0x1_0000_0000
  {
    OrShr(a, b, 32);
    Shr32(Or(a, b));
    Shr32(a);
    Shr32(b);
  }

  /** `& ~` changes a word exactly when both have a common bit. */
  lemma {:induction false} AndNotSame(a: nat, b: nat)
    ensures AndNot(a, b) == a <==> forall k: nat :: Bit(a, k) ==> !Bit(b, k)
  {
    if a == 0 {
      forall k: nat ensures !Bit(a, k) {
        ZeroBit(k);
      }
    } else {
      AndNotSame(a / 2, b / 2);
      assert Bit(a, 0) && Bit(b, 0) <==> a % 2 == 1 && b % 2 == 1;
      forall k: nat | k > 0 ensures Bit(a, k) == Bit(a / 2, k - 1) && Bit(b, k) == Bit(b / 2, k - 1) {}
      forall k: nat ensures Bit(a / 2, k) == Bit(a, k + 1) && Bit(b / 2, k) == Bit(b, k + 1) {}
    }
  }

  lemma {:induction false} AndNotLe(a: nat, b: nat)
    ensures AndNot(a, b) <= a
  {
    if a > 0 {
      AndNotLe(a / 2, b / 2);
    }
  }

  /** A word with no bit set below bit n is 0 when it is smaller than 2^n. */
  lemma {:induction false} NonzeroHasBit(w: nat, n: nat) returns (k: nat)
    requires 0 < w < Shl(1, n)
    ensures k < n && Bit(w, k)
  {
    if w % 2 == 1 {
      k := 0;
    } else {
      k := NonzeroHasBit(w / 2, n - 1);
      k := k + 1;
    }
  }

  /** NUM_PAGES, in 32-bit arithmetic. */
  function NumPages(n: Word): nat {
    (n + 0xfff) % 0x1_0000_0000 / PAGE_SIZE
  }

  lemma OffsetSame(a: nat, m: int)
    requires a + m * PAGE_SIZE >= 0
    ensures (a + m * PAGE_SIZE) % PAGE_SIZE == a % PAGE_SIZE
  {
  }

  /** The macro rounds up just when the addition does not wrap. */
  lemma NumPagesHold(n: Word)
    ensures n <= NumPages(n) * PAGE_SIZE <==> n <= 0xffff_f000
    ensures 1 <= n <= 0xffff_f000 ==> NumPages(n) >= 1 && (NumPages(n) - 1) * PAGE_SIZE < n
  {
  }
}
