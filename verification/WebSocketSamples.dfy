/** The bytes of a frame: the example frames of section 5.7 of RFC 6455, and the masking bit by bit. */
module WebSocketSamples {
  import opened WebSocket

  // --- Masking ---

  /** Bit `i` of `a`. */
  function BitAt(a: nat, i: nat): nat {
    if i == 0 then a % 2 else BitAt(a / 2, i - 1)
  }

  lemma {:induction false} XorBitsAt(a: nat, k: nat, n: nat, i: nat)
    requires i < n
    ensures BitAt(XorBits(a, k, n), i) == 1 <==> BitAt(a, i) != BitAt(k, i)
  {
    var high, low := XorBits(a / 2, k / 2, n - 1), BitXor(a, k);
    Halves(high, low);
    if i > 0 {
      XorBitsAt(a / 2, k / 2, n - 1, i - 1);
      BitIsBit(a, i);
      BitIsBit(k, i);
      BitIsBit(2 * high + low, i);
    }
  }

  lemma {:induction false} BitIsBit(a: nat, i: nat)
    ensures 0 <= BitAt(a, i) < 2
    ensures i > 0 ==> BitAt(a, i) == BitAt(a / 2, i - 1)
  {
    if i > 0 { BitIsBit(a / 2, i - 1); }
  }

  /** Byte `j` of a masked payload differs from the payload's in exactly the bits set in byte `j % 4` of the key. */
  lemma MaskIsBitwise(payload: seq<Byte>, key: seq<Byte>, j: nat, i: nat)
    requires |key| == 4 && j < |payload| && i < 8
    ensures BitAt(Masked(payload, key)[j], i) == 1 <==> BitAt(payload[j], i) != BitAt(key[j % 4], i)
  {
    XorBitsAt(payload[j], key[j % 4], 8, i);
  }

  // --- Example frames ---

  /** Five bytes as an unmasked text frame and as a masked one. */
  lemma TextFrames(payload: seq<Byte>, key: seq<Byte>)
    requires |payload| == 5 && |key| == 4
    ensures Wire(Frame(true, 1, false, key, payload)) == [0x81, 0x05] + payload
    ensures Wire(Frame(true, 1, true, key, payload)) == [0x81, 0x85] + key + Masked(payload, key)
  {
    ShortHeader(Frame(true, 1, false, key, payload));
    ShortHeader(Frame(true, 1, true, key, payload));
  }

  /** A ping, and the masked pong that answers it. */
  lemma PingAndPong(payload: seq<Byte>, key: seq<Byte>)
    requires |payload| == 5 && |key| == 4
    ensures Wire(Frame(true, 9, false, key, payload)) == [0x89, 0x05] + payload
    ensures Wire(Frame(true, 10, true, key, payload)) == [0x8a, 0x85] + key + Masked(payload, key)
  {
    ShortHeader(Frame(true, 9, false, key, payload));
    ShortHeader(Frame(true, 10, true, key, payload));
  }

  lemma ShortHeader(f: Frame)
    requires |f.payload| == 5 && |f.key| == 4 && f.fin && f.opcode < 16
    ensures !f.masked ==> Header(f) == [0x80 + f.opcode, 0x05]
    ensures f.masked ==> Header(f) == [0x80 + f.opcode, 0x85] + f.key
  {
  }

  /** A text in two fragments, of three bytes and of two. */
  lemma Fragments(first: seq<Byte>, second: seq<Byte>)
    requires |first| == 3 && |second| == 2
    ensures Wire(Frame(false, 1, false, NO_KEY, first)) == [0x01, 0x03] + first
    ensures Wire(Frame(true, 0, false, NO_KEY, second)) == [0x80, 0x02] + second
  {
  }

  /** The frames modelled are those whose length fits the machine word with the longest header. */
  lemma LongestFits(f: Frame)
    requires |f.key| == 4
    ensures Encodable(f) <==> 14 + |f.payload| < 0x1_0000_0000_0000_0000
    ensures Encodable(f) && f.masked && |f.payload| > 65535 ==> |Wire(f)| == 14 + |f.payload|
  {
  }

  /** A frame without a mask decodes with a key of zeros. */
  lemma UnmaskedKey(s: seq<Byte>)
    requires Parse(s).Whole? && !Parse(s).masked
    ensures Parse(s).key == [0, 0, 0, 0]
  {
  }

  /** The headers of a binary message of 256 bytes, and of one of 64 kilobytes; 125 bytes still fit the short form. */
  lemma LongHeaders(payload: seq<Byte>)
    ensures |payload| == 125 ==> Header(Frame(true, 2, false, NO_KEY, payload)) == [0x82, 0x7d]
    ensures |payload| == 126 ==> Header(Frame(true, 2, false, NO_KEY, payload)) == [0x82, 0x7e, 0, 126]
    ensures |payload| == 256 ==> Header(Frame(true, 2, false, NO_KEY, payload)) == [0x82, 0x7e, 0x01, 0x00]
    ensures |payload| == 65535 ==> Header(Frame(true, 2, false, NO_KEY, payload)) == [0x82, 0x7e, 0xff, 0xff]
    ensures |payload| == 65536 ==>
      Header(Frame(true, 2, false, NO_KEY, payload)) == [0x82, 0x7f, 0, 0, 0, 0, 0, 1, 0, 0]
  {
    TwoBytes(|payload|);
    EightBytes();
  }

  lemma TwoBytes(v: nat)
    ensures BigEndian(v, 2) == [v / 256 % 256, v % 256]
  {
    assert BigEndian(v / 256, 1) == BigEndian(v / 256 / 256, 0) + [v / 256 % 256];
  }

  lemma EightBytes()
    ensures BigEndian(65536, 8) == [0, 0, 0, 0, 0, 1, 0, 0]
  {
    assert BigEndian(0, 1) == [0];
    assert BigEndian(0, 2) == [0, 0];
    assert BigEndian(0, 3) == [0, 0, 0];
    assert BigEndian(0, 4) == [0, 0, 0, 0];
    assert BigEndian(0, 5) == [0, 0, 0, 0, 0];
    assert BigEndian(1, 6) == [0, 0, 0, 0, 0, 1];
    assert BigEndian(256, 7) == [0, 0, 0, 0, 0, 1, 0];
  }
}
