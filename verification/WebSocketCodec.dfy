/** The frame encoder and decoder over buffers. */
module WebSocketCodec {
  import opened Division
  import opened WebSocket
  import opened Words

  /** `s` with `bytes` written over it from `at` on. */
  function Overwritten(s: seq<Byte>, at: nat, bytes: seq<Byte>): (t: seq<Byte>)
    requires at + |bytes| <= |s|
    ensures |t| == |s|
  {
    s[..at] + bytes + s[at + |bytes|..]
  }

  lemma OverwrittenTwice(s: seq<Byte>, a: seq<Byte>, b: seq<Byte>)
    requires |a| + |b| <= |s|
    ensures Overwritten(Overwritten(s, 0, a), |a|, b) == Overwritten(s, 0, a + b)
  {
  }

  lemma QuotientTwice(v: nat, p: nat)
    requires p > 0
    ensures (v / 256) / p == v / (256 * p)
  {
    var q := (v / 256) / p;
    var r := (v / 256) % p;
    assert v / 256 == p * q + r;
    assert v == 256 * (p * q) + (256 * r + v % 256);
    var m := 256 * p;
    assert 256 * (p * q) == m * q;
    assert 0 <= 256 * r + v % 256 < m;
    UniqueQuotient(v, m, q, 256 * r + v % 256);
  }

  /** Byte `j` of a big-endian number, by shifting. */
  lemma {:induction false} BigEndianAt(v: nat, n: nat, j: nat)
    requires j < n
    ensures BigEndian(v, n)[j] == (v / Pow(256, n - 1 - j)) % 256
  {
    if j < n - 1 {
      BigEndianAt(v / 256, n - 1, j);
      QuotientTwice(v, Pow(256, n - 2 - j));
    }
  }

  /** `write_u16_be`. */
  method WriteU16(out: array<Byte>, at: nat, v: nat)
    requires at + 2 <= out.Length && v < 65536
    modifies out
    ensures out[..] == Overwritten(old(out[..]), at, BigEndian(v, 2))
  {
    assert BigEndian(v, 2) == [v / 256, v % 256] by {
      assert BigEndian(v / 256, 1) == [v / 256] by { assert BigEndian(v / 256 / 256, 0) == []; }
    }
    out[at] := v / 256;
    out[at + 1] := v % 256;
  }

  /** `write_u64_be`. */
  method WriteU64(out: array<Byte>, at: nat, v: nat)
    requires at + 8 <= out.Length
    modifies out
    ensures out[..] == Overwritten(old(out[..]), at, BigEndian(v, 8))
  {
    for i := 8 downto 0
      invariant forall k: nat | k < out.Length ::
                  out[k] == if at <= k < at + (8 - i) then BigEndian(v, 8)[k - at] else old(out[k])
    {
      BigEndianAt(v, 8, 7 - i);
      out[at + (7 - i)] := (v / Pow(256, i)) % 256;
    }
  }

  method CopyBytes(out: array<Byte>, at: nat, bytes: seq<Byte>)
    requires at + |bytes| <= out.Length
    modifies out
    ensures out[..] == Overwritten(old(out[..]), at, bytes)
  {
    for i := 0 to |bytes|
      invariant forall k: nat | k < out.Length :: out[k] == if at <= k < at + i then bytes[k - at] else old(out[k])
    {
      out[at + i] := bytes[i];
    }
  }

  method WriteMasked(out: array<Byte>, at: nat, payload: seq<Byte>, key: seq<Byte>)
    requires at + |payload| <= out.Length && |key| == 4
    modifies out
    ensures out[..] == Overwritten(old(out[..]), at, Masked(payload, key))
  {
    for i := 0 to |payload|
      invariant forall k: nat | k < out.Length ::
                  out[k] == if at <= k < at + i then Masked(payload, key)[k - at] else old(out[k])
    {
      out[at + i] := Xor(payload[i], key[i % 4]);
    }
  }

  function Prefix(f: Frame): seq<Byte>
    requires Encodable(f)
  {
    [Flag(f.fin) + f.opcode % 16, Flag(f.masked) + LengthCode(|f.payload|)]
  }

  method WriteLength(f: Frame, out: array<Byte>) returns (pos: nat)
    requires Encodable(f) && 2 + |LengthField(|f.payload|)| <= out.Length
    modifies out
    ensures pos == 2 + |LengthField(|f.payload|)|
    ensures out[..] == Overwritten(old(out[..]), 0, Prefix(f) + LengthField(|f.payload|))
  {
    ghost var before := out[..];
    var len := |f.payload|;
    out[0] := Flag(f.fin) + f.opcode % 16;
    out[1] := Flag(f.masked) + LengthCode(len);
    assert out[..] == Overwritten(before, 0, Prefix(f));
    OverwrittenTwice(before, Prefix(f), LengthField(len));
    pos := 2;
    if len <= 125 {
    } else if len <= 65535 {
      WriteU16(out, pos, len);
      pos := pos + 2;
    } else {
      WriteU64(out, pos, len);
      pos := pos + 8;
    }
  }

  method WriteHeader(f: Frame, out: array<Byte>) returns (pos: nat)
    requires Encodable(f) && |Header(f)| <= out.Length
    modifies out
    ensures pos == |Header(f)| && out[..] == Overwritten(old(out[..]), 0, Header(f))
  {
    pos := WriteLength(f, out);
    if f.masked {
      OverwrittenTwice(old(out[..]), Prefix(f) + LengthField(|f.payload|), f.key);
      CopyBytes(out, pos, f.key);
      pos := pos + 4;
    }
  }

  /** `cpx_ws_encode_frame`: 0 and the frame at the start of the buffer, or -2 and the buffer untouched if
      the frame does not fit. */
  method Encode(f: Frame, out: array?<Byte>) returns (code: int, written: nat)
    requires Encodable(f)
    modifies out
    ensures code == if out == null then -1 else if |Wire(f)| > out.Length then -2 else 0
    ensures code == 0 ==> written == |Wire(f)| && out[..] == Overwritten(old(out[..]), 0, Wire(f))
    ensures code == -2 ==> out[..] == old(out[..])
  {
    if out == null { return -1, 0; }
    var len := |f.payload|;
    var need := 2 + (if len <= 125 then 0 else if len <= 65535 then 2 else 8) + (if f.masked then 4 else 0) + len;
    assert need == |Wire(f)|;
    if need > out.Length { return -2, 0; }
    var pos := WriteHeader(f, out);
    OverwrittenTwice(old(out[..]), Header(f), Body(f));
    if f.masked {
      WriteMasked(out, pos, f.payload, f.key);
    } else if len > 0 {
      CopyBytes(out, pos, f.payload);
    }
    code, written := 0, pos + len;
  }

  method ReadU64(buf: array<Byte>, at: nat) returns (v: nat)
    requires at + 8 <= buf.Length
    ensures v == Value(buf[at..at + 8]) < WORD64
  {
    v := 0;
    PowValues();
    for i := 0 to 8
      invariant v == Value(buf[at..at + i]) < Pow(256, i)
    {
      assert buf[at..at + i + 1][..i] == buf[at..at + i];
      v := v * 256 + buf[at + i];
    }
  }

  lemma ValueOfTwo(s: seq<Byte>)
    requires |s| == 2
    ensures Value(s) == 256 * (s[0] as int) + (s[1] as int)
  {
    assert Value(s[..1]) == 256 * Value(s[..1][..0]) + s[0];
    assert s[..1][..0] == [];
  }

  /** `cpx_ws_decode_frame`. */
  method Decode(buf: array?<Byte>) returns (code: int, p: Parsed)
    ensures buf == null <==> code == -2
    ensures buf != null ==> p == Parse(buf[..]) && code == (if p.Whole? then 0 else -1)
  {
    if buf == null { return -2, Incomplete; }
    if buf.Length < 2 { return -1, Incomplete; }
    var fin, opcode := buf[0] >= 128, buf[0] % 16;
    var masked := buf[1] >= 128;
    var len: nat := buf[1] % 128;
    var pos := 2;
    if len == 126 {
      if buf.Length < pos + 2 { return -1, Incomplete; }
      ValueOfTwo(buf[2..4]);
      var high: nat := buf[pos];
      len := 256 * high + buf[pos + 1];
      pos := pos + 2;
    } else if len == 127 {
      if buf.Length < pos + 8 { return -1, Incomplete; }
      len := ReadU64(buf, pos);
      pos := pos + 8;
    }
    assert buf[..][2..pos] == buf[2..pos];
    var key := NO_KEY;
    if masked {
      if buf.Length < pos + 4 { return -1, Incomplete; }
      key := buf[pos..pos + 4];
      pos := pos + 4;
    }
    if buf.Length < (pos + len) % WORD64 { return -1, Incomplete; }
    code, p := 0, Whole(fin, opcode, masked, key, len, pos, (pos + len) % WORD64);
  }
}
