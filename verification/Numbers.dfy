/** Printing numbers in a base, and reading them back. */
module Numbers {
  import opened Bits
  import opened Options

  function DigitChar(d: nat): char
    requires d < 16
  {
    if d > 9 then ('A' as int - 10 + d) as char else ('0' as int + d) as char
  }

  function DigitValue(c: char): int {
    if 'A' <= c <= 'F' then c as int - 'A' as int + 10 else c as int - '0' as int
  }

  /** The value a digit string denotes. */
  function ValueOf(s: string, base: nat): int {
    if s == "" then 0 else ValueOf(s[..|s| - 1], base) * base + DigitValue(s[|s| - 1])
  }

  function Quot(v: nat, b: nat): (q: nat)
    requires b > 0
  {
    v / b
  }

  function Rem(v: nat, b: nat): (r: nat)
    requires b > 0
    ensures r < b
  {
    v % b
  }

  lemma Division(v: nat, b: nat)
    requires b >= 2
    ensures v == Quot(v, b) * b + Rem(v, b)
    ensures v > 0 ==> Quot(v, b) < v
    ensures v < b <==> Quot(v, b) == 0
    ensures v < b ==> Rem(v, b) == v
  {
    assert v == v / b * b + v % b;
    if v > 0 && v / b >= v {
      MulMonotone(v, v / b, b);
    }
  }

  lemma MulMonotone(a: nat, b: nat, c: nat)
    requires a <= b
    ensures a * c <= b * c
  {
  }

  lemma QuotMonotone(v: nat, w: nat, b: nat)
    requires b >= 2 && v <= w
    ensures Quot(v, b) <= Quot(w, b)
  {
    hide Quot, Rem;
    Division(v, b);
    Division(w, b);
    if Quot(v, b) >= Quot(w, b) + 1 {
      MulMonotone(Quot(w, b) + 1, Quot(v, b), b);
    }
  }

  /** The shortest digit string of v. */
  function Digits(v: nat, base: nat): (s: string)
    requires 2 <= base <= 16
    ensures s != ""
  {
    Division(v, base);
    if v < base then [DigitChar(v)] else Digits(Quot(v, base), base) + [DigitChar(Rem(v, base))]
  }

  function Formatted(v: nat, base: nat, width: nat): string
    requires 2 <= base <= 16
  {
    Padding(width - |Digits(v, base)|) + Digits(v, base)
  }

  function Padding(n: int): (z: string)
    ensures |z| == if n > 0 then n else 0
  {
    if n > 0 then seq(n, _ => '0') else ""
  }

  lemma {:induction false} DigitsDenote(v: nat, base: nat)
    requires 2 <= base <= 16
    ensures ValueOf(Digits(v, base), base) == v
    ensures forall i :: 0 <= i < |Digits(v, base)| ==> 0 <= DigitValue(Digits(v, base)[i]) < base
    ensures |Digits(v, base)| == 1 || Digits(v, base)[0] != '0'
  {
    hide Quot, Rem;
    var s := Digits(v, base);
    Division(v, base);
    if v < base {
      assert s[..0] == "";
    } else {
      DigitsDenote(Quot(v, base), base);
      assert s[..|s| - 1] == Digits(Quot(v, base), base);
    }
  }

  lemma {:induction false} PaddedValue(n: nat, s: string, base: nat)
    ensures ValueOf(Padding(n) + s, base) == ValueOf(s, base)
  {
    if s == "" {
      ZerosDenote(n, base);
      assert Padding(n) + s == Padding(n);
    } else {
      hide Padding;
      PaddedValue(n, s[..|s| - 1], base);
      var t := Padding(n) + s;
      assert t[..|t| - 1] == Padding(n) + s[..|s| - 1] && t[|t| - 1] == s[|s| - 1];
      hide DigitValue;
    }
  }

  lemma {:induction false} ZerosDenote(n: nat, base: nat)
    ensures ValueOf(Padding(n), base) == 0
  {
    if n > 0 {
      ZerosDenote(n - 1, base);
      assert Padding(n)[..n - 1] == Padding(n - 1);
    }
  }

  /** max(digit count, width) digits that denote the value. */
  lemma FormattedDenotes(v: nat, base: nat, width: nat)
    requires 2 <= base <= 16
    ensures ValueOf(Formatted(v, base, width), base) == v
    ensures |Formatted(v, base, width)| == if |Digits(v, base)| > width then |Digits(v, base)| else width
    ensures forall i :: 0 <= i < |Formatted(v, base, width)| ==> 0 <= DigitValue(Formatted(v, base, width)[i]) < base
  {
    DigitsDenote(v, base);
    if width > |Digits(v, base)| {
      PaddedValue(width - |Digits(v, base)|, Digits(v, base), base);
    } else {
      assert Formatted(v, base, width) == Digits(v, base);
    }
  }

  /** Below base^n, n digits are enough. */
  lemma {:induction false} DigitsFew(v: nat, base: nat, n: nat)
    requires 2 <= base <= 16 && v < Pow(base, n) && n >= 1
    ensures |Digits(v, base)| <= n
  {
    hide Quot, Rem;
    Division(v, base);
    if v >= base {
      PowStep(v, base, n);
      DigitsFew(Quot(v, base), base, n - 1);
    }
  }

  lemma PowStep(v: nat, base: nat, n: nat)
    requires base >= 2 && base <= v < Pow(base, n) && n >= 1
    ensures n >= 2 && Quot(v, base) < Pow(base, n - 1)
  {
    hide Quot, Rem;
    assert Pow(base, 1) == base;
    Division(v, base);
    if Quot(v, base) >= Pow(base, n - 1) {
      MulMonotone(Pow(base, n - 1), Quot(v, base), base);
    }
  }

  function Pow(b: nat, n: nat): nat { if n == 0 then 1 else Pow(b, n - 1) * b }

  lemma {:induction false} PowTwo(base: nat, n: nat)
    requires base >= 2
    ensures Pow(2, n) <= Pow(base, n)
  {
    if n > 0 {
      PowTwo(base, n - 1);
      MulMonotone(Pow(2, n - 1), Pow(base, n - 1), 2);
      MulMonotone(2, base, Pow(base, n - 1));
    }
  }

  lemma WordDigits(v: Word, base: nat)
    requires 2 <= base <= 16
    ensures |Digits(v, base)| <= 32
  {
    PowTwo(base, 32);
    assert Pow(2, 8) == 256;
    assert Pow(2, 16) == 65536;
    assert Pow(2, 24) == 0x100_0000;
    assert Pow(2, 32) == 0x1_0000_0000;
    DigitsFew(v, base, 32);
  }

  /** The signed count of further digits, as the first loop takes it: the value is a signed long there. */
  function Signed(v: Word): int { if v < 0x8000_0000 then v else v - 0x1_0000_0000 }

  /** Division truncates toward zero. */
  function Truncated(a: int, b: nat): (t: int)
    requires b > 0
    ensures Magnitude(t) == Quot(Magnitude(a), b)
  {
    if a >= 0 then Quot(a, b) else 0 - Quot(-a, b) as int
  }

  function Magnitude(a: int): nat { if a < 0 then -a else a }

  /** More digits for larger numbers. */
  lemma {:induction false} DigitsMonotone(v: nat, w: nat, base: nat)
    requires 2 <= base <= 16 && v <= w
    ensures |Digits(v, base)| <= |Digits(w, base)|
    decreases v
  {
    hide Quot, Rem;
    Division(v, base);
    if v >= base {
      QuotMonotone(v, w, base);
      DigitsMonotone(Quot(v, base), Quot(w, base), base);
    }
  }

  /** The first loop counts one less than the digits of the magnitude. */
  method CountFurther(value: Word, base: nat) returns (min: nat)
    requires base >= 2
    ensures base <= 16 ==> min + 1 <= |Digits(Magnitude(Signed(value)), base)|
  {
    hide Quot, Rem;
    min := 0;
    ghost var m := Magnitude(Signed(value));
    ghost var last := m;
    var dummy := Truncated(Signed(value), base);
    while dummy != 0
      invariant Magnitude(dummy) == Quot(last, base)
      invariant base <= 16 ==> min + |Digits(last, base)| <= |Digits(m, base)|
      decreases Magnitude(dummy)
    {
      Division(last, base);
      last := Magnitude(dummy);
      Division(last, base);
      min := min + 1;
      dummy := Truncated(dummy, base);
    }
  }

  /** The digit loop, from the end of t. */
  method FillDigits(t: array<char>, value: Word, base: nat) returns (tmp: nat)
    requires 2 <= base <= 16 && t.Length == 65
    modifies t
    ensures tmp == 64 - |Digits(value, base)| && t[tmp..64] == Digits(value, base)
  {
    hide Quot, Rem;
    WordDigits(value, base);
    tmp := 64;
    var v: nat := value;
    var more := true;
    while more
      invariant tmp <= 64
      invariant more ==> Digits(value, base) == Digits(v, base) + t[tmp..64]
      invariant !more ==> Digits(value, base) == t[tmp..64]
      decreases more, v
    {
      assert |Digits(value, base)| == |Digits(v, base)| + (64 - tmp);
      Division(v, base);
      tmp := tmp - 1;
      t[tmp] := DigitChar(Rem(v, base));
      assert t[tmp..64] == [DigitChar(Rem(v, base))] + t[tmp + 1..64];
      v := Quot(v, base);
      more := v != 0;
    }
  }

  /** general_uintformat; None where it returns without writing. */
  method GeneralUintformat(value: Word, base: nat, numChr: nat) returns (text: Option<string>)
    requires base >= 2 && numChr <= 64
    ensures base > 16 ==> text == None
    ensures base <= 16 ==> text == Some(Formatted(value, base, numChr))
  {
    hide Digits;
    var min := CountFurther(value, base);
    var width := if min > numChr then min else numChr;
    if base > 16 {
      return None;
    }
    DigitsMonotone(Magnitude(Signed(value)), value, base);
    WordDigits(value, base);
    var t := new char[65](_ => '\0');
    var tmp := FillDigits(t, value, base);
    var i := 64 - tmp;
    while i < width
      invariant 0 <= tmp <= 64 && i == 64 - tmp
      invariant t[tmp..64] == Padding(i - |Digits(value, base)|) + Digits(value, base)
      invariant i <= width || i == |Digits(value, base)|
    {
      i := i + 1;
      tmp := tmp - 1;
      t[tmp] := '0';
      assert t[tmp..64] == ['0'] + t[tmp + 1..64];
    }
    text := Some(t[tmp..64]);
  }

  method OctStr(value: Word, numChr: nat) returns (text: string)
    requires numChr <= 64
    ensures text == Formatted(value, 8, if numChr == 1 then 4 else numChr)
  {
    var t := GeneralUintformat(value, 8, if numChr == 1 then 4 else numChr);
    text := t.value;
  }

  method IntDecStr(value: Word, numChr: nat, signd: bool) returns (text: string)
    requires numChr <= 64
    ensures text == if signd && Signed(value) < 0 then "-" + Formatted(Magnitude(Signed(value)), 10, numChr)
      else Formatted(value, 10, numChr)
  {
    if value >= 0x8000_0000 && signd {
      var t := GeneralUintformat(0x1_0000_0000 - value, 10, numChr);
      text := "-" + t.value;
    } else {
      var t := GeneralUintformat(value, 10, numChr);
      text := t.value;
    }
  }

  // ----- reading -----

  /** A 32-bit int that wraps around. */
  function Wrap(x: int): (w: int)
    ensures -0x8000_0000 <= w < 0x8000_0000
  {
    (x + 0x8000_0000) % 0x1_0000_0000 - 0x8000_0000
  }

  lemma WrapOf(x: int) returns (q: int)
    ensures Wrap(x) == x + q * 0x1_0000_0000
  {
    q := -((x + 0x8000_0000) / 0x1_0000_0000);
  }

  lemma WrapSame(x: int, y: int, q: int)
    requires x == y + q * 0x1_0000_0000
    ensures Wrap(x) == Wrap(y)
  {
    assert (x + 0x8000_0000) % 0x1_0000_0000 == (y + 0x8000_0000) % 0x1_0000_0000;
  }

  /** Wrapping inside a sum or a product by a constant makes no difference in the end. */
  lemma WrapInside(x: int, k: int, d: int)
    ensures Wrap(Wrap(x) * k + d) == Wrap(x * k + d)
  {
    var q := WrapOf(x);
    hide Wrap;
    assert (x + q * 0x1_0000_0000) * k == x * k + (q * k) * 0x1_0000_0000;
    WrapSame(Wrap(x) * k + d, x * k + d, q * k);
  }

  function CharDigit(c: char): int { c as int - '0' as int }

  /** Left to right: ten times what was read, plus the next character. */
  function Horner(s: string, base: nat): int {
    if s == "" then 0 else Horner(s[..|s| - 1], base) * base + CharDigit(s[|s| - 1])
  }

  method Atoi(s: string) returns (num: int)
    ensures num == Wrap(Horner(s, 10))
  {
    num := 0;
    for i := 0 to |s|
      invariant num == Wrap(Horner(s[..i], 10))
    {
      assert s[..i + 1][..i] == s[..i];
      WrapInside(Horner(s[..i], 10), 10, 0);
      num := Wrap(num * 10);
      WrapInside(Horner(s[..i], 10) * 10, 1, CharDigit(s[i]));
      num := Wrap(num + CharDigit(s[i]));
    }
    assert s[..|s|] == s;
  }

  lemma {:induction false} HornerFront(c: char, s: string, base: nat)
    ensures Horner([c] + s, base) == CharDigit(c) * Pow(base, |s|) + Horner(s, base)
  {
    if s == "" {
      assert [c] + s == [c] && [c][..0] == "";
    } else {
      var r := s[..|s| - 1];
      HornerFront(c, r, base);
      assert ([c] + s)[..|s|] == [c] + r;
      assert (CharDigit(c) * Pow(base, |r|) + Horner(r, base)) * base ==
        CharDigit(c) * (Pow(base, |r|) * base) + Horner(r, base) * base;
    }
  }

  /** tar_getsize: eleven characters, right to left. */
  method TarGetsize(field: string) returns (size: int)
    requires |field| >= 11
    ensures size == Wrap(Horner(field[..11], 8))
  {
    size := 0;
    var count := 1;
    var i := 11;
    assert field[11..11] == "";
    while i > 0
      invariant 0 <= i <= 11 && size == Wrap(Horner(field[i..11], 8))
      invariant i > 0 ==> count == Pow(8, 11 - i) && count <= 0x4000_0000
    {
      var d := CharDigit(field[i - 1]);
      HornerFront(field[i - 1], field[i..11], 8);
      assert field[i - 1..11] == [field[i - 1]] + field[i..11];
      WrapInside(Horner(field[i..11], 8), 1, d * count);
      size := Wrap(size + d * count);
      PowEight(11 - i);
      count := Wrap(count * 8);
      i := i - 1;
    }
  }

  lemma PowEight(n: nat)
    requires n < 11
    ensures n < 10 ==>
      && Pow(8, n + 1) == Pow(8, n) * 8 && Wrap(Pow(8, n) * 8) == Pow(8, n + 1)
      && Pow(8, n + 1) <= 0x4000_0000
  {
    assert Pow(8, 3) == 512;
    assert Pow(8, 6) == 0x4_0000;
    assert Pow(8, 9) == 0x800_0000;
    assert Pow(8, 10) == 0x4000_0000;
    PowGrows(n + 1, 10);
  }

  lemma {:induction false} PowGrows(m: nat, n: nat)
    ensures m <= n ==> Pow(8, m) <= Pow(8, n)
    decreases n
  {
    if m < n {
      PowGrows(m, n - 1);
    }
  }

  /** Plain digits mean the same to both. */
  lemma {:induction false} HornerValue(s: string, base: nat)
    requires forall i :: 0 <= i < |s| ==> '0' <= s[i] <= '9'
    ensures Horner(s, base) == ValueOf(s, base)
  {
    if s != "" {
      HornerValue(s[..|s| - 1], base);
    }
  }

  lemma {:induction false} PlainDigits(v: nat, base: nat)
    requires 2 <= base <= 10
    ensures forall i :: 0 <= i < |Digits(v, base)| ==> '0' <= Digits(v, base)[i] <= '9'
  {
    hide Quot, Rem;
    Division(v, base);
    if v >= base {
      PlainDigits(Quot(v, base), base);
    }
  }

  /** A printed decimal number below 2^31 is read back. */
  lemma DecimalRoundtrip(v: nat, width: nat)
    requires v < 0x8000_0000
    ensures Wrap(Horner(Formatted(v, 10, width), 10)) == v
  {
    PlainDigits(v, 10);
    FormattedDenotes(v, 10, width);
    hide Digits;
    HornerValue(Formatted(v, 10, width), 10);
  }

  /** A size below 2^31 printed with eleven octal digits fills the field of the header and is read back. */
  lemma OctalRoundtrip(v: nat)
    requires v < 0x8000_0000
    ensures |Formatted(v, 8, 11)| == 11 && Wrap(Horner(Formatted(v, 8, 11), 8)) == v
  {
    PlainDigits(v, 8);
    FormattedDenotes(v, 8, 11);
    assert Pow(8, 3) == 512;
    assert Pow(8, 6) == 0x4_0000;
    assert Pow(8, 9) == 0x800_0000;
    assert Pow(8, 11) == 0x2_0000_0000;
    DigitsFew(v, 8, 11);
    hide Digits;
    HornerValue(Formatted(v, 8, 11), 8);
  }
}
