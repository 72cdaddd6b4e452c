/** The bounded output buffer and its appends. */
module FormatBuffer {
  import opened Division
  import opened FastFormat
  import opened Words

  lemma Hundreds(v: nat)
    ensures v / 10 / 10 == v / 100 && (v / 10) % 10 == (v % 100) / 10 && v % 10 == (v % 100) % 10
  {
    var r := v % 100;
    UniqueQuotient(v / 10, 10, v / 100, r / 10);
  }

  function Pair(r: nat): string
    requires r < 100
  {
    [Digit(r / 10), Digit(r % 10)]
  }

  /** Taking the digits off two at a time gives the numeral. */
  lemma TwoDigits(v: nat)
    requires v >= 10
    ensures Numeral(v, 10) == (if v >= 100 then Numeral(v / 100, 10) else "") + Pair(v % 100)
  {
    Hundreds(v);
    assert Numeral(v, 10) == Numeral(v / 10, 10) + [Digit(v % 10)];
    if v >= 100 {
      assert Numeral(v / 10, 10) == Numeral(v / 100, 10) + [Digit((v / 10) % 10)];
    }
  }

  /** One look into the table. */
  method TableDigits(r: nat) returns (tens: char, ones: char)
    requires r < 100
    ensures [tens, ones] == Pair(r)
  {
    UniqueQuotient(r * 2 + 1, 2, r, 1);
    UniqueQuotient(r * 2, 2, r, 0);
    UniqueQuotient(r * 2, 20, r / 10, r % 10 * 2);
    ones := Digits2(r * 2 + 1);
    tens := Digits2(r * 2);
  }

  function Sign(v: int): string {
    if v < 0 then "-" else ""
  }

  /** The text of a signed number. */
  function Signed(v: int): string {
    Sign(v) + Numeral(if v < 0 then -v else v, 10)
  }

  /** A negative number is a minus sign before the numeral of its size, any other just its numeral. */
  lemma SignedReadsBack(v: int)
    ensures v < 0 ==> Signed(v)[0] == '-' && Canonical(Signed(v)[1..], 10) && ReadBack(Signed(v)[1..], 10) == -v
    ensures v >= 0 ==> Canonical(Signed(v), 10) && ReadBack(Signed(v), 10) == v
  {
    var n := if v < 0 then -v else v;
    NumeralReadsBack(n, 10);
    NumeralIsCanonical(n, 10);
    if v < 0 { assert Signed(v)[1..] == Numeral(n, 10); } else { assert Signed(v) == Numeral(n, 10); }
  }

  lemma NextPair(v: nat, s: string, next: string)
    requires v >= 100 && Numeral(v / 100, 10) == s && s + Pair(v % 100) == next
    ensures Numeral(v, 10) == next
  {
    TwoDigits(v);
  }

  lemma SmallestNumeral()
    ensures Numeral(-INT64_MIN, 10) == "9223372036854775808"
  {
    NextPair(922, "9", "922");
    NextPair(92233, "922", "92233");
    NextPair(9223372, "92233", "9223372");
    NextPair(922337203, "9223372", "922337203");
    NextPair(92233720368, "922337203", "92233720368");
    NextPair(9223372036854, "92233720368", "9223372036854");
    NextPair(922337203685477, "9223372036854", "922337203685477");
    NextPair(92233720368547758, "922337203685477", "92233720368547758");
    NextPair(9223372036854775808, "92233720368547758", "9223372036854775808");
  }

  class Buffer {
    const data: array<char>
    var len: nat
    var truncated: bool
    ghost var full: string     // all that was appended, whether or not it fit

    /** How much text fits before the terminator. */
    ghost function Room(): nat {
      if data.Length > 0 then data.Length - 1 else 0
    }

    /** The buffer holds the longest prefix of the full text that fits, terminated, and `truncated` tells
        whether anything was lost. */
    ghost predicate Valid()
      reads this, data
    {
      && len == (if |full| < Room() then |full| else Room()) && len <= data.Length
      && data[..len] == full[..len]
      && (data.Length > 0 ==> len < data.Length && data[len] == '\0')
      && (truncated <==> |full| > Room())
    }

    /** `cpx_fmt_init`. */
    constructor (storage: array<char>)
      modifies storage
      ensures Valid() && full == "" && data == storage
    {
      data, len, truncated, full := storage, 0, false, "";
      new;
      if storage.Length > 0 { storage[0] := '\0'; }
    }

    /** `cpx_fmt_putc`. */
    method PutChar(c: char)
      requires Valid()
      modifies this, data
      ensures Valid() && full == old(full) + [c]
    {
      if len + 1 < data.Length {
        data[len] := c;
        len := len + 1;
        data[len] := '\0';
      } else {
        truncated := true;
      }
      full := full + [c];
    }

    method CopyIn(s: seq<char>, n: nat)
      requires n <= |s| && len + n <= data.Length
      modifies data
      ensures data[..len] == old(data[..len]) && data[len..len + n] == s[..n]
    {
      for i := 0 to n
        invariant data[..len] == old(data[..len]) && data[len..len + i] == s[..i]
      {
        data[len + i] := s[i];
      }
    }

    /** `cpx_fmt_append_mem`. */
    method AppendMem(s: seq<char>)
      requires Valid()
      modifies this, data
      ensures Valid() && full == old(full) + s
    {
      full := full + s;
      if |s| == 0 { return; }
      var avail := if data.Length > len + 1 then data.Length - len - 1 else 0;
      var n := if |s| < avail then |s| else avail;
      if n > 0 {
        CopyIn(s, n);
        assert data[..len + n] == data[..len] + data[len..len + n];
        len := len + n;
        data[len] := '\0';
        assert full[..len] == data[..len];
      }
      if n != |s| { truncated := true; }
    }

    /** `cpx_fmt_append_u64`: the digits are written backwards into `tmp`. */
    method AppendUnsigned(value: nat)
      requires Valid() && value < WORD64
      modifies this, data
      ensures Valid() && full == old(full) + Numeral(value, 10)
    {
      var tmp, p := Digits(value);
      AppendMem(tmp[p..]);
    }

    /** `cpx_fmt_append_i64`. */
    method AppendSigned(v: int)
      requires Valid() && INT64_MIN <= v < -INT64_MIN
      modifies this, data
      ensures Valid() && full == old(full) + Signed(v)
    {
      ghost var before := full;
      if v < 0 {
        PutChar('-');
        assert (before + "-") + Numeral(-v, 10) == before + Signed(v);
        if v == INT64_MIN {
          SmallestNumeral();
          AppendMem("9223372036854775808");
          return;
        }
        AppendUnsigned(-v);
      } else {
        assert before + Numeral(v, 10) == before + Signed(v);
        AppendUnsigned(v);
      }
    }

    /** `cpx_fmt_append_hex_u64`. */
    method AppendHex(value: nat, withPrefix: bool)
      requires Valid() && value < WORD64
      modifies this, data
      ensures Valid() && full == old(full) + (if withPrefix then "0x" else "") + Numeral(value, 16)
    {
      var tmp, p := HexDigits(value);
      if withPrefix { AppendMem("0x"); }
      AppendMem(tmp[p..]);
    }
  }

  method Digits(value: nat) returns (tmp: array<char>, p: nat)
    requires value < WORD64
    ensures fresh(tmp) && p <= tmp.Length && tmp[p..] == Numeral(value, 10)
  {
    tmp := new char[32];
    p := tmp.Length;
    var v := value;
    WordLength(value);
    while v >= 100
      invariant p <= tmp.Length && Numeral(v, 10) + tmp[p..] == Numeral(value, 10)
    {
      TwoDigits(v);
      HundredthIsQuotient(v);
      var q := Hundredth(v);
      var tens, ones := TableDigits(v - q * 100);
      p := PutPair(tmp, p, tens, ones, Numeral(q, 10));
      v := q;
    }
    if v < 10 {
      p := PutDigit(tmp, p, '0' + v as char);
    } else {
      TwoDigits(v);
      var tens, ones := TableDigits(v);
      p := PutPair(tmp, p, tens, ones, "");
    }
  }

  /** Puts two digits before those at `p` on; `before` is the text still to come. */
  method PutPair(tmp: array<char>, p: nat, tens: char, ones: char, ghost before: string) returns (p': nat)
    requires 2 <= p <= tmp.Length
    modifies tmp
    ensures p' == p - 2 && tmp[p'..] == [tens, ones] + old(tmp[p..])
    ensures before + tmp[p'..] == (before + [tens, ones]) + old(tmp[p..])
  {
    tmp[p - 1] := ones;
    tmp[p - 2] := tens;
    p' := p - 2;
    assert tmp[p'..] == [tens, ones] + tmp[p..];
  }

  /** The digits still to come when `v` is left. */
  function HexAbove(v: nat): string {
    if v == 0 then "" else Numeral(v, 16)
  }

  lemma HexStep(v: nat, rest: string)
    requires v > 0
    ensures HexAbove(v) + rest == HexAbove(v / 16) + ([Digit(v % 16)] + rest)
    ensures HexAbove(v) != ""
  {
    if v >= 16 { NumeralStep(v, 16); }
  }

  lemma HexFirst(v: nat, last: string)
    requires last == [Digit(v % 16)]
    ensures HexAbove(v / 16) + last == Numeral(v, 16)
  {
    if v >= 16 { NumeralStep(v, 16); }
  }

  method PutDigit(tmp: array<char>, p: nat, c: char) returns (p': nat)
    requires 0 < p <= tmp.Length
    modifies tmp
    ensures p' == p - 1 && tmp[p'..] == [c] + old(tmp[p..])
  {
    p' := p - 1;
    tmp[p'] := c;
  }

  method HexDigits(value: nat) returns (tmp: array<char>, p: nat)
    requires value < WORD64
    ensures fresh(tmp) && p <= tmp.Length && tmp[p..] == Numeral(value, 16)
  {
    tmp := new char[16];
    WordLength(value);
    p := PutDigit(tmp, 16, Digit(value % 16));
    HexFirst(value, tmp[p..]);
    var v: nat := value / 16;
    while v != 0
      invariant p <= tmp.Length && HexAbove(v) + tmp[p..] == Numeral(value, 16)
    {
      HexStep(v, tmp[p..]);
      p := PutDigit(tmp, p, Digit(v % 16));
      v := v / 16;
    }
  }
}
