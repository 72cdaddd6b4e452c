/** Numbers printed into a fixed buffer, two decimal digits at a time. */
module FastFormat {
  import opened Division
  import opened Words

  const UINT32_MAX: int := 0xFFFF_FFFF
  const INT64_MIN: int := -0x8000_0000_0000_0000

  // --- Numerals ---

  function Digit(d: nat): char
    requires d < 16
  {
    if d < 10 then '0' + d as char else 'a' + (d - 10) as char
  }

  /** The numeral of `v` in base 10 or 16. */
  function Numeral(v: nat, base: nat): (s: string)
    requires 2 <= base <= 16
    ensures s != ""
  {
    if v < base then [Digit(v)] else Numeral(v / base, base) + [Digit(v % base)]
  }

  function DigitValue(c: char): nat {
    if '0' <= c <= '9' then (c - '0') as nat else if 'a' <= c <= 'f' then (c - 'a') as nat + 10 else 0
  }

  predicate IsDigit(c: char, base: nat) {
    ('0' <= c <= '9' || 'a' <= c <= 'f') && DigitValue(c) < base
  }

  /** The number a string of digits denotes. */
  function ReadBack(s: string, base: nat): nat {
    if s == "" then 0 else base * ReadBack(s[..|s| - 1], base) + DigitValue(s[|s| - 1])
  }

  ghost predicate Canonical(s: string, base: nat) {
    && s != "" && (|s| > 1 ==> s[0] != '0') && forall i | 0 <= i < |s| :: IsDigit(s[i], base)
  }

  lemma DigitReads(d: nat)
    requires d < 16
    ensures DigitValue(Digit(d)) == d && (Digit(d) == '0' <==> d == 0)
    ensures forall base: nat | d < base :: IsDigit(Digit(d), base)
  {
  }

  lemma NumeralStep(v: nat, base: nat)
    requires 2 <= base <= 16 && v >= base
    ensures 0 < v / base < v && base * (v / base) + v % base == v
    ensures var s := Numeral(v, base); s[..|s| - 1] == Numeral(v / base, base) && s[|s| - 1] == Digit(v % base)
  {
  }

  lemma ReadBackStep(s: string, c: char, base: nat)
    ensures ReadBack(s + [c], base) == base * ReadBack(s, base) + DigitValue(c)
  {
    assert (s + [c])[..|s|] == s;
  }

  lemma TimesZero(base: nat)
    ensures base * ReadBack("", base) == 0
  {
  }

  /** A numeral reads back to its number. */
  lemma {:induction false} NumeralReadsBack(v: nat, base: nat)
    requires 2 <= base <= 16
    ensures ReadBack(Numeral(v, base), base) == v
  {
    DigitReads(v % base);
    if v < base {
      ReadBackStep("", Digit(v), base);
      DigitReads(v);
      assert "" + [Digit(v)] == Numeral(v, base);
      TimesZero(base);
    } else {
      NumeralStep(v, base);
      NumeralReadsBack(v / base, base);
      ReadBackStep(Numeral(v / base, base), Digit(v % base), base);
    }
  }

  /** It consists of digits and has no leading zero. */
  lemma {:induction false} NumeralIsCanonical(v: nat, base: nat)
    requires 2 <= base <= 16
    ensures Canonical(Numeral(v, base), base)
    ensures v > 0 ==> Numeral(v, base)[0] != '0'
  {
    if v < base {
      DigitReads(v);
    } else {
      NumeralStep(v, base);
      NumeralIsCanonical(v / base, base);
      DigitReads(v % base);
    }
  }

  /** And it is the only string that does. */
  lemma {:induction false} NumeralIsUnique(s: string, base: nat)
    requires 2 <= base <= 16 && Canonical(s, base)
    ensures s == Numeral(ReadBack(s, base), base)
    decreases |s|
  {
    var init, c := s[..|s| - 1], s[|s| - 1];
    assert s == init + [c] && IsDigit(c, base);
    CharOf(c);
    ReadBackStep(init, c, base);
    if init == "" {
      TimesZero(base);
    } else {
      assert init[0] == s[0];
      NumeralIsUnique(init, base);
      PositiveWithoutLeadingZero(init, base);
      SplitLast(ReadBack(init, base), DigitValue(c), base);
    }
  }

  lemma CharOf(c: char)
    requires IsDigit(c, 16)
    ensures c == Digit(DigitValue(c))
  {
  }

  lemma SplitLast(q: nat, d: nat, base: nat)
    requires d < base && q > 0
    ensures (base * q + d) / base == q && (base * q + d) % base == d && base * q + d >= base
  {
    UniqueQuotient(base * q + d, base, q, d);
    MonotoneTimes(base, 1, q);
  }

  lemma GrowsTimes(base: nat, q: nat)
    requires base >= 2 && q > 0
    ensures base * q >= q
  {
  }

  lemma OneDigit(c: char, base: nat)
    requires IsDigit(c, base)
    ensures ReadBack([c], base) == DigitValue(c) && (c != '0' ==> DigitValue(c) > 0)
  {
    assert [c] == "" + [c];
    ReadBackStep("", c, base);
    TimesZero(base);
  }

  lemma StaysPositive(s: string, c: char, base: nat)
    requires base >= 2 && ReadBack(s, base) > 0
    ensures ReadBack(s + [c], base) > 0
  {
    ReadBackStep(s, c, base);
    GrowsTimes(base, ReadBack(s, base));
  }

  lemma {:induction false} PositiveWithoutLeadingZero(s: string, base: nat)
    requires 2 <= base <= 16 && s != "" && s[0] != '0' && forall i | 0 <= i < |s| :: IsDigit(s[i], base)
    ensures ReadBack(s, base) > 0
  {
    var init, c := s[..|s| - 1], s[|s| - 1];
    assert s == init + [c] && IsDigit(s[0], base);
    if init == "" {
      OneDigit(c, base);
    } else {
      PositiveWithoutLeadingZero(init, base);
      StaysPositive(init, c, base);
    }
  }

  lemma {:induction false} NumeralLength(v: nat, base: nat, n: nat)
    requires 2 <= base <= 16 && n > 0 && v < Pow(base, n)
    ensures |Numeral(v, base)| <= n
  {
    if v >= base {
      if n == 1 { PowOne(base); }
      NumeralStep(v, base);
      QuotientBound(v, base, Pow(base, n - 1));
      NumeralLength(v / base, base, n - 1);
    }
  }

  lemma PowOne(base: nat)
    ensures Pow(base, 1) == base
  {
    assert Pow(base, 1) == base * Pow(base, 0);
  }

  lemma QuotientBound(v: nat, base: nat, p: nat)
    requires base > 0 && v < base * p
    ensures v / base < p
  {
    if v / base >= p {
      MonotoneTimes(base, p, v / base);
    }
  }

  lemma WordLength(v: nat)
    requires v < WORD64
    ensures |Numeral(v, 10)| <= 20 && |Numeral(v, 16)| <= 16
  {
    assert Pow(10, 5) == 100000 by { assert Pow(10, 3) == 1000; }
    assert Pow(10, 10) == 10000000000 by { assert Pow(10, 8) == 100000000 by { assert Pow(10, 6) == 1000000; } }
    assert Pow(10, 15) == 1000000000000000 by { assert Pow(10, 13) == 10000000000000 by { assert Pow(10, 11) == 100000000000; } }
    assert Pow(10, 20) == 100000000000000000000 by { assert Pow(10, 18) == 1000000000000000000 by { assert Pow(10, 16) == 10000000000000000; } }
    NumeralLength(v, 10, 20);
    assert Pow(16, 4) == 65536 by { assert Pow(16, 2) == 256; }
    assert Pow(16, 8) == 0x1_0000_0000 by { assert Pow(16, 6) == 0x100_0000; }
    assert Pow(16, 12) == 0x1_0000_0000_0000 by { assert Pow(16, 10) == 0x100_0000_0000; }
    assert Pow(16, 16) == WORD64 by { assert Pow(16, 14) == 0x100_0000_0000_0000; }
    NumeralLength(v, 16, 16);
  }

  /** The digits, and a numeral in each base. */
  lemma DigitsSpelled()
    ensures forall d: nat | d < 16 :: Digit(d) == "0123456789abcdef"[d]
    ensures Numeral(0, 10) == "0" && Numeral(1970, 10) == "1970" && Numeral(48879, 16) == "beef"
  {
  }

  // --- Division by multiplication ---

  /** The quotient as the fast path takes it, in 64-bit arithmetic. */
  function Hundredth(v: nat): nat {
    if v <= UINT32_MAX then ((v * 0x51EB851F) % WORD64) / 0x20_0000_0000 else v / 100
  }

  lemma HundredthIsQuotient(v: nat)
    ensures Hundredth(v) == v / 100
    ensures v <= 0xffff_ffff ==> ((v * 0x51EB851F) % 0x1_0000_0000_0000_0000) / 0x20_0000_0000 == v / 100
  {
    if v <= UINT32_MAX {
      var q, r := v / 100, v % 100;
      assert v * 0x51EB851F == q * 0x20_0000_0000 + (28 * q + r * 0x51EB851F);
      assert 28 * q + r * 0x51EB851F < 0x20_0000_0000;
    }
  }

  /** Entry `i` of the table "00010203...99" of two-digit numbers. */
  function Digits2(i: nat): char
    requires i < 200
  {
    if i % 2 == 0 then Digit(i / 20) else Digit((i / 2) % 10)
  }
}
