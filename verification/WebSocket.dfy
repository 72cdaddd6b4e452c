/** WebSocket frames (sections 5.2 and 5.3 of RFC 6455): what a frame looks like on the wire, and how it is
    taken apart again. */
module WebSocket {
  import opened Division
  import opened Words

  type Byte = x: int | 0 <= x < 256

  /** A header takes up to 14 bytes, so with payloads below this a frame's length fits the machine word. */
  const PAYLOAD_LIMIT: int := WORD64 - 14

  datatype Frame = Frame(fin: bool, opcode: nat, masked: bool, key: seq<Byte>, payload: seq<Byte>)

  /** `at` is where the payload begins in the input. */
  datatype Parsed = Incomplete | Whole(fin: bool, opcode: nat, masked: bool, key: seq<Byte>, len: nat, at: nat, consumed: nat)

  function TwoTo(n: nat): (p: nat)
    ensures p > 0
  {
    if n == 0 then 1 else 2 * TwoTo(n - 1)
  }

  function BitXor(a: nat, b: nat): (x: nat)
    ensures x < 2
  {
    if a % 2 == b % 2 then 0 else 1
  }

  /** Exclusive or of the lowest `n` bits. */
  function XorBits(a: nat, b: nat, n: nat): (x: nat)
    ensures x < TwoTo(n)
  {
    if n == 0 then 0 else 2 * XorBits(a / 2, b / 2, n - 1) + BitXor(a, b)
  }

  function Xor(a: Byte, b: Byte): Byte {
    assert TwoTo(8) == 256 by { assert TwoTo(4) == 16; }
    XorBits(a, b, 8)
  }

  lemma Halves(q: nat, bit: nat)
    requires bit < 2
    ensures (2 * q + bit) / 2 == q && (2 * q + bit) % 2 == bit
  {
  }

  lemma {:induction false} XorBitsTwice(a: nat, k: nat, n: nat)
    requires a < TwoTo(n)
    ensures XorBits(XorBits(a, k, n), k, n) == a
  {
    if n > 0 {
      var high, low := XorBits(a / 2, k / 2, n - 1), BitXor(a, k);
      Halves(high, low);
      XorBitsTwice(a / 2, k / 2, n - 1);
      assert BitXor(2 * high + low, k) == a % 2;
    }
  }

  lemma XorTwice(a: Byte, k: Byte)
    ensures Xor(Xor(a, k), k) == a
  {
    assert TwoTo(8) == 256 by { assert TwoTo(4) == 16; }
    XorBitsTwice(a, k, 8);
  }

  // --- The wire format ---

  /** `v` in `n` bytes, the most significant first. */
  function BigEndian(v: nat, n: nat): (s: seq<Byte>)
    ensures |s| == n
  {
    if n == 0 then [] else BigEndian(v / 256, n - 1) + [v % 256]
  }

  function Value(s: seq<Byte>): nat {
    if s == [] then 0 else 256 * Value(s[..|s| - 1]) + s[|s| - 1]
  }

  lemma {:induction false} ValueOfBigEndian(v: nat, n: nat)
    requires v < Pow(256, n)
    ensures Value(BigEndian(v, n)) == v
  {
    if n > 0 {
      ValueOfBigEndian(v / 256, n - 1);
      assert BigEndian(v, n)[..n - 1] == BigEndian(v / 256, n - 1);
    }
  }

  function Masked(s: seq<Byte>, key: seq<Byte>): (t: seq<Byte>)
    requires |key| == 4
    ensures |t| == |s|
  {
    seq(|s|, i requires 0 <= i < |s| => Xor(s[i], key[i % 4]))
  }

  lemma MaskedTwice(s: seq<Byte>, key: seq<Byte>)
    requires |key| == 4
    ensures Masked(Masked(s, key), key) == s
  {
    forall i | 0 <= i < |s| ensures Masked(Masked(s, key), key)[i] == s[i] { XorTwice(s[i], key[i % 4]); }
  }

  function LengthField(len: nat): seq<Byte> {
    if len <= 125 then [] else if len <= 65535 then BigEndian(len, 2) else BigEndian(len, 8)
  }

  function LengthCode(len: nat): (c: nat)
    ensures c <= 127
  {
    if len <= 125 then len else if len <= 65535 then 126 else 127
  }

  function Flag(b: bool): nat {
    if b then 128 else 0
  }

  predicate Encodable(f: Frame) {
    |f.key| == 4 && |f.payload| < PAYLOAD_LIMIT
  }

  function Header(f: Frame): seq<Byte>
    requires Encodable(f)
  {
    [Flag(f.fin) + f.opcode % 16, Flag(f.masked) + LengthCode(|f.payload|)] + LengthField(|f.payload|)
    + (if f.masked then f.key else [])
  }

  function Body(f: Frame): seq<Byte>
    requires Encodable(f)
  {
    if f.masked then Masked(f.payload, f.key) else f.payload
  }

  /** A frame on the wire. */
  function Wire(f: Frame): seq<Byte>
    requires Encodable(f)
  {
    Header(f) + Body(f)
  }

  // --- Parsing ---

  /** How many bytes the length takes up after the first two. */
  function LengthBytes(code: nat): nat {
    if code == 126 then 2 else if code == 127 then 8 else 0
  }

  function DeclaredLength(s: seq<Byte>): nat
    requires |s| >= 2 && |s| >= 2 + LengthBytes(s[1] % 128)
  {
    var code := s[1] % 128;
    if code < 126 then code else Value(s[2..2 + LengthBytes(code)])
  }

  const NO_KEY: seq<Byte> := [0, 0, 0, 0]

  /** What `cpx_ws_decode_frame` finds at the start of `s`. */
  function Parse(s: seq<Byte>): Parsed {
    if |s| < 2 then Incomplete
    else
      var afterLength := 2 + LengthBytes(s[1] % 128);
      var masked := s[1] >= 128;
      if |s| < afterLength then Incomplete
      else
        var at := if masked then afterLength + 4 else afterLength;
        if |s| < at then Incomplete
        else
          var len := DeclaredLength(s);
          // the sum is taken in `size_t`
          if |s| < (at + len) % WORD64 then Incomplete
          else Whole(s[0] >= 128, s[0] % 16, masked, if masked then s[afterLength..at] else NO_KEY, len, at, (at + len) % WORD64)
  }

  // --- Round trip ---

  lemma PowValues()
    ensures Pow(256, 2) == 65536 && Pow(256, 8) == WORD64
  {
    assert Pow(256, 4) == 256 * (256 * (256 * 256));
    assert Pow(256, 6) == 256 * (256 * Pow(256, 4));
  }

  lemma DeclaredIsPayload(f: Frame, s: seq<Byte>)
    requires Encodable(f) && |s| >= 2 + |LengthField(|f.payload|)|
    requires s[1] == Flag(f.masked) + LengthCode(|f.payload|)
    requires s[2..2 + |LengthField(|f.payload|)|] == LengthField(|f.payload|)
    ensures s[1] % 128 == LengthCode(|f.payload|) && (s[1] >= 128 <==> f.masked)
    ensures LengthBytes(s[1] % 128) == |LengthField(|f.payload|)| && DeclaredLength(s) == |f.payload|
  {
    PowValues();
    var len := |f.payload|;
    if 125 < len <= 65535 { ValueOfBigEndian(len, 2); }
    if 65535 < len { ValueOfBigEndian(len, 8); }
  }

  /** The parts of anything that starts with a frame's header. */
  lemma HeaderParts(f: Frame, s: seq<Byte>)
    requires Encodable(f) && Header(f) <= s
    ensures |Header(f)| == 2 + |LengthField(|f.payload|)| + (if f.masked then 4 else 0)
    ensures s[0] == Flag(f.fin) + f.opcode % 16 && s[1] == Flag(f.masked) + LengthCode(|f.payload|)
    ensures s[2..2 + |LengthField(|f.payload|)|] == LengthField(|f.payload|)
    ensures f.masked ==> s[2 + |LengthField(|f.payload|)|..|Header(f)|] == f.key
  {
    var h := Header(f);
    var l := LengthField(|f.payload|);
    assert h[2..2 + |l|] == l;
    assert f.masked ==> h[2 + |l|..] == f.key;
    assert s[2..2 + |l|] == h[2..2 + |l|];
    assert f.masked ==> s[2 + |l|..|h|] == h[2 + |l|..];
  }

  /** What decoding a frame should give. */
  function Expected(f: Frame): Parsed
    requires Encodable(f)
  {
    Whole(f.fin, f.opcode % 16, f.masked, if f.masked then f.key else NO_KEY, |f.payload|, |Header(f)|, |Wire(f)|)
  }

  lemma FirstByte(fin: bool, opcode: nat)
    ensures var b := Flag(fin) + opcode % 16; (b >= 128 <==> fin) && b % 16 == opcode % 16
  {
  }

  /** Where the key begins, and where the payload does. */
  function KeyAt(s: seq<Byte>): nat
    requires |s| >= 2
  {
    2 + LengthBytes(s[1] % 128)
  }

  function PayloadAt(s: seq<Byte>): nat
    requires |s| >= 2
  {
    if s[1] >= 128 then KeyAt(s) + 4 else KeyAt(s)
  }

  /** With all of a frame there, and its length fitting the machine word, parsing takes it. */
  lemma ParseComplete(s: seq<Byte>, len: nat)
    requires DeclaredFits(s) && len == DeclaredLength(s) && PayloadAt(s) + len <= |s| && PayloadAt(s) + len < WORD64
    ensures var masked, at := s[1] >= 128, PayloadAt(s);
      Parse(s) == Whole(s[0] >= 128, s[0] % 16, masked, if masked then s[KeyAt(s)..at] else NO_KEY, len, at, at + len)
  {
  }

  /** What the bytes of a header say. */
  lemma HeaderSays(f: Frame, s: seq<Byte>)
    requires Encodable(f) && Header(f) <= s
    ensures DeclaredFits(s) && DeclaredLength(s) == |f.payload| && PayloadAt(s) == |Header(f)|
    ensures (s[0] >= 128 <==> f.fin) && s[0] % 16 == f.opcode % 16 && (s[1] >= 128 <==> f.masked)
    ensures f.masked ==> s[KeyAt(s)..PayloadAt(s)] == f.key
  {
    HeaderParts(f, s);
    DeclaredIsPayload(f, s);
    FirstByte(f.fin, f.opcode);
  }

  /** Decoding an encoded frame, whatever follows it, gives its header back and takes exactly its length. */
  lemma RoundTrip(f: Frame, rest: seq<Byte>)
    requires Encodable(f)
    ensures Parse(Wire(f) + rest) == Expected(f)
  {
    WireStarts(f, rest);
    HeaderSays(f, Wire(f) + rest);
    ParseFrame(f, Wire(f) + rest);
  }

  lemma WireStarts(f: Frame, rest: seq<Byte>)
    requires Encodable(f)
    ensures Header(f) <= Wire(f) + rest && |Wire(f)| >= 2
  {
    assert Wire(f) + rest == Header(f) + (Body(f) + rest);
  }

  lemma ParseFrame(f: Frame, s: seq<Byte>)
    requires Encodable(f) && |s| >= |Wire(f)| >= 2
    requires DeclaredFits(s) && DeclaredLength(s) == |f.payload| && PayloadAt(s) == |Header(f)|
    requires (s[0] >= 128 <==> f.fin) && s[0] % 16 == f.opcode % 16 && (s[1] >= 128 <==> f.masked)
    requires f.masked ==> s[KeyAt(s)..PayloadAt(s)] == f.key
    ensures Parse(s) == Expected(f)
  {
    ParseComplete(s, |f.payload|);
  }

  /** The payload as the reader recovers it, XORed again if it was masked. */
  function Recovered(s: seq<Byte>, p: Parsed): seq<Byte>
    requires p.Whole? && |p.key| == 4 && p.at + p.len <= |s|
  {
    if p.masked then Masked(s[p.at..p.at + p.len], p.key) else s[p.at..p.at + p.len]
  }

  lemma PayloadRoundTrip(f: Frame, rest: seq<Byte>)
    requires Encodable(f)
    ensures Recovered(Wire(f) + rest, Expected(f)) == f.payload
  {
    var s := Wire(f) + rest;
    assert s[|Header(f)|..|Wire(f)|] == Body(f);
    if f.masked { MaskedTwice(f.payload, f.key); }
  }

  /** No strict prefix of an encoded frame is mistaken for a frame. */
  lemma PrefixIsIncomplete(f: Frame, n: nat)
    requires Encodable(f) && n < |Wire(f)|
    ensures Parse(Wire(f)[..n]) == Incomplete
  {
    var w := Wire(f);
    assert w == Header(f) + Body(f);
    HeaderParts(f, w);
    if n < 2 + |LengthField(|f.payload|)| { LengthIncomplete(f, w, n); } else { BodyIncomplete(f, w, n); }
  }

  /** The input ends before or in the length. */
  lemma LengthIncomplete(f: Frame, w: seq<Byte>, n: nat)
    requires Encodable(f) && Header(f) <= w && n < 2 + |LengthField(|f.payload|)| <= |w|
    ensures Parse(w[..n]) == Incomplete
  {
    HeaderParts(f, w);
    DeclaredIsPayload(f, w);
  }

  /** The length is there; the key or the payload is not complete. */
  lemma BodyIncomplete(f: Frame, w: seq<Byte>, n: nat)
    requires Encodable(f) && Header(f) <= w && |w| == |Header(f)| + |f.payload|
    requires 2 + |LengthField(|f.payload|)| <= n < |w|
    ensures Parse(w[..n]) == Incomplete
  {
    HeaderParts(f, w);
    DeclaredIsPayload(f, w);
    PrefixDeclares(f, w, n);
  }

  lemma PrefixDeclares(f: Frame, w: seq<Byte>, n: nat)
    requires Encodable(f) && 2 + |LengthField(|f.payload|)| <= n <= |w| && Header(f) <= w
    ensures DeclaredFits(w[..n]) && DeclaredLength(w[..n]) == |f.payload|
  {
    HeaderParts(f, w);
    var l := |LengthField(|f.payload|)|;
    assert w[..n][2..2 + l] == w[2..2 + l];
    DeclaredIsPayload(f, w[..n]);
  }

  predicate DeclaredFits(s: seq<Byte>) {
    |s| >= 2 && |s| >= 2 + LengthBytes(s[1] % 128)
  }

  /** The consumed count is the header plus the declared payload exactly when that sum fits the machine
      word, which covers every payload that can be encoded; otherwise it falls short even of the header. */
  lemma ConsumedIsHonest(s: seq<Byte>)
    requires Parse(s).Whole?
    ensures var p := Parse(s); p.consumed <= |s| && (p.consumed == p.at + p.len <==> p.at + p.len < WORD64)
    ensures var p := Parse(s); p.consumed < p.at <==> p.at + p.len >= WORD64
    ensures Parse(s).len < PAYLOAD_LIMIT ==> Parse(s).at + Parse(s).len == Parse(s).consumed
  {
    if Parse(s).at + Parse(s).len >= WORD64 { DeclaredIsWord(s); }
  }

  lemma {:induction false} ValueIsBounded(s: seq<Byte>)
    ensures Value(s) < Pow(256, |s|)
  {
    if s != [] { ValueIsBounded(s[..|s| - 1]); }
  }

  lemma DeclaredIsWord(s: seq<Byte>)
    requires DeclaredFits(s)
    ensures DeclaredLength(s) < WORD64
  {
    PowValues();
    var code := s[1] % 128;
    if code >= 126 { ValueIsBounded(s[2..2 + LengthBytes(code)]); }
  }

  function Ones(n: nat): (s: seq<Byte>)
    ensures |s| == n
  {
    seq(n, i => 255)
  }

  lemma {:induction false} ValueOfOnes(n: nat)
    ensures Value(Ones(n)) == Pow(256, n) - 1
  {
    if n > 0 {
      ValueOfOnes(n - 1);
      assert Ones(n)[..n - 1] == Ones(n - 1);
    }
  }

  /** Ten bytes pass for a whole frame of 2^64 - 1 bytes of payload, nine of them consumed. */
  lemma LongestLengthWraps()
    ensures var p := Parse([130, 127] + Ones(8)); p.Whole? && p.at == 10 && p.len == WORD64 - 1 && p.consumed == 9
  {
    var s := [130, 127] + Ones(8);
    PowValues();
    ValueOfOnes(8);
    assert s[2..10] == Ones(8);
    assert s[1] % 128 == 127;
  }

  /** When header and length add up to exactly 2^64 nothing is consumed, and a receiver never gets past the
      frame, whatever arrives after it. */
  lemma ReceiverIsStuck(s: seq<Byte>, more: seq<Byte>)
    requires Parse(s).Whole? && Parse(s).at + Parse(s).len == WORD64
    ensures Parse(s + more) == Parse(s) && Parse(s).consumed == 0
    ensures Frames(s + more) == [] && Left(s + more) == s + more
  {
    WholeStays(s, more);
  }

  /** Such a frame. */
  lemma StuckFrame()
    ensures var s := [130, 127] + Ones(7) + [246]; Parse(s).Whole? && Parse(s).at + Parse(s).len == WORD64
  {
    var field := Ones(7) + [246];
    var s := [130, 127] + Ones(7) + [246];
    PowValues();
    ValueOfOnes(7);
    assert field[..7] == Ones(7);
    assert s[2..10] == field;
    assert s[1] % 128 == 127;
  }

  // --- Streams ---

  /** Parsing again after more has arrived changes nothing about a frame that was whole. */
  lemma WholeStays(s: seq<Byte>, more: seq<Byte>)
    requires Parse(s).Whole?
    ensures Parse(s + more) == Parse(s)
  {
    var t := s + more;
    var afterLength := 2 + LengthBytes(s[1] % 128);
    assert t[2..afterLength] == s[2..afterLength];
    if s[1] >= 128 { assert t[afterLength..afterLength + 4] == s[afterLength..afterLength + 4]; }
  }

  /** A receiver's loop: take frames off the front while they are whole. */
  function Frames(s: seq<Byte>): seq<Parsed>
    decreases |s|
  {
    var p := Parse(s);
    if p.Whole? && 0 < p.consumed <= |s| then [p] + Frames(s[p.consumed..]) else []
  }

  function Left(s: seq<Byte>): seq<Byte>
    decreases |s|
  {
    var p := Parse(s);
    if p.Whole? && 0 < p.consumed <= |s| then Left(s[p.consumed..]) else s
  }

  /** A receiver that gets the stream in chunks, and parses after each. */
  function Received(pending: seq<Byte>, chunks: seq<seq<Byte>>): seq<Parsed>
    decreases |chunks|
  {
    if chunks == [] then []
    else Frames(pending + chunks[0]) + Received(Left(pending + chunks[0]), chunks[1..])
  }

  function Concat(chunks: seq<seq<Byte>>): seq<Byte> {
    if chunks == [] then [] else chunks[0] + Concat(chunks[1..])
  }

  function Wires(frames: seq<Frame>): seq<Byte>
    requires forall f | f in frames :: Encodable(f)
  {
    if frames == [] then [] else Wire(frames[0]) + Wires(frames[1..])
  }

  function AllExpected(frames: seq<Frame>): seq<Parsed>
    requires forall f | f in frames :: Encodable(f)
  {
    if frames == [] then [] else [Expected(frames[0])] + AllExpected(frames[1..])
  }

  lemma {:induction false} FramesOfMore(s: seq<Byte>, more: seq<Byte>)
    ensures Frames(s + more) == Frames(s) + Frames(Left(s) + more)
    decreases |s|
  {
    var p := Parse(s);
    if p.Whole? && 0 < p.consumed <= |s| {
      WholeStays(s, more);
      assert (s + more)[p.consumed..] == s[p.consumed..] + more;
      FramesOfMore(s[p.consumed..], more);
    }
  }

  lemma {:induction false} LeftOfMore(s: seq<Byte>, more: seq<Byte>)
    ensures Left(s + more) == Left(Left(s) + more)
    decreases |s|
  {
    var p := Parse(s);
    if p.Whole? && 0 < p.consumed <= |s| {
      WholeStays(s, more);
      assert (s + more)[p.consumed..] == s[p.consumed..] + more;
      LeftOfMore(s[p.consumed..], more);
    }
  }

  lemma {:induction false} NothingLeftToParse(s: seq<Byte>)
    ensures Frames(Left(s)) == [] && Left(Left(s)) == Left(s)
    decreases |s|
  {
    var p := Parse(s);
    if p.Whole? && 0 < p.consumed <= |s| { NothingLeftToParse(s[p.consumed..]); }
  }

  /** How a stream is cut into chunks makes no difference. */
  lemma {:induction false} ChunkingDoesNotMatter(pending: seq<Byte>, chunks: seq<seq<Byte>>)
    requires Frames(pending) == [] && Left(pending) == pending
    ensures Received(pending, chunks) == Frames(pending + Concat(chunks))
    decreases |chunks|
  {
    if chunks == [] {
      assert pending + Concat(chunks) == pending;
    } else {
      var s, rest := pending + chunks[0], Concat(chunks[1..]);
      assert pending + Concat(chunks) == s + rest;
      calc {
        Received(pending, chunks);
        Frames(s) + Received(Left(s), chunks[1..]);
        { NothingLeftToParse(s); ChunkingDoesNotMatter(Left(s), chunks[1..]); }
        Frames(s) + Frames(Left(s) + rest);
        { FramesOfMore(s, rest); }
        Frames(s + rest);
      }
    }
  }

  lemma {:induction false} FramesOfWires(frames: seq<Frame>)
    requires forall f | f in frames :: Encodable(f)
    ensures Frames(Wires(frames)) == AllExpected(frames)
  {
    if frames != [] {
      var f, rest := frames[0], Wires(frames[1..]);
      RoundTrip(f, rest);
      assert (Wire(f) + rest)[|Wire(f)|..] == rest;
      FramesOfWires(frames[1..]);
    }
  }

  /** Frames sent one after the other arrive as sent, however the stream is cut. */
  lemma StreamsDecodeUniquely(frames: seq<Frame>, chunks: seq<seq<Byte>>)
    requires forall f | f in frames :: Encodable(f)
    requires Concat(chunks) == Wires(frames)
    ensures Received([], chunks) == AllExpected(frames)
  {
    ChunkingDoesNotMatter([], chunks);
    assert [] + Concat(chunks) == Wires(frames);
    FramesOfWires(frames);
  }
}
