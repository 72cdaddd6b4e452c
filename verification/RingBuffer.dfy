/** The byte ring's two calls, each a pair of block copies around the wrap, as one thread makes them while
    the other moves its own index. */
module RingBuffer {
  import opened SpscRing
  import opened Words
  import opened Wrapping

  /** What two block copies of the first `n` bytes of `data` make of slot `k`. */
  function Spread(b: seq<bv8>, data: seq<bv8>, start: nat, n: nat, k: nat): bv8
    requires k < |b| && start < |b| && n <= |data| && n <= |b|
  {
    var first := Min(n, |b| - start);
    if start <= k < start + first then data[k - start] else if k < n - first then data[first + k] else b[k]
  }

  ghost predicate SpreadOver(b: seq<bv8>, b': seq<bv8>, data: seq<bv8>, start: nat, n: nat) {
    && |b| == |b'| && start < |b| && n <= |data| && n <= |b|
    && forall k: nat | k < |b| :: b'[k] == Spread(b, data, start, n, k)
  }

  lemma SpreadFills(r: Ring<bv8>, b': seq<bv8>, data: seq<bv8>, n: nat, j: int)
    requires RingShape(r) && 0 <= j < n <= |data| && n <= |r.buf|
    requires SpreadOver(r.buf, b', data, |r.produced| % |r.buf|, n)
    ensures Filled(r.(buf := b'), data, j)
  {
    var c, w := |r.buf|, |r.produced|;
    CopySlotWraps(c, w, n, j);
    var slot: nat := (w + j) % c;
    assert slot == CopySlot(c, w % c, n, j);
    assert b'[slot] == Spread(r.buf, data, w % c, n, slot);
  }

  lemma SpreadSpares(r: Ring<bv8>, b': seq<bv8>, data: seq<bv8>, n: nat, p: int)
    requires RingShape(r) && n <= |data| && Unread(r, p) && |r.produced| + n <= p + |r.buf|
    requires SpreadOver(r.buf, b', data, |r.produced| % |r.buf|, n)
    ensures Unread(r.(buf := b'), p)
  {
    var c, w := |r.buf|, |r.produced|;
    var slot: nat := p % c;
    forall i | 0 <= i < n ensures CopySlot(c, w % c, n, i) != slot {
      CopySlotWraps(c, w, n, i);
      SlotsDiffer(p, w + i, c);
    }
    assert b'[slot] == Spread(r.buf, data, w % c, n, slot);
    var start, first := w % c, Min(n, c - w % c);
    var i := if start <= slot then slot - start else first + slot;
    assert 0 <= i < n ==> CopySlot(c, start, n, i) != slot;
  }

  /** Publishing a spread block appends it to what has been produced. */
  lemma SpreadOk(r: Ring<bv8>, b': seq<bv8>, data: seq<bv8>, n: nat)
    requires RingOk(r) && n <= |data| && |r.produced| + n <= r.consumed + |r.buf|
    requires SpreadOver(r.buf, b', data, |r.produced| % |r.buf|, n)
    ensures RingOk(r.(buf := b', produced := r.produced + data[..n], writeIdx := (r.writeIdx + n) % r.modulus))
  {
    var filled := r.(buf := b');
    var r' := r.(buf := b', produced := r.produced + data[..n], writeIdx := (r.writeIdx + n) % r.modulus);
    WrappedSum(|r.produced|, n, r.modulus);
    forall p: int | r.consumed <= p < |r.produced| ensures Unread(filled, p) {
      assert Unread(r, p);
      SpreadSpares(r, b', data, n, p);
    }
    forall j: int | 0 <= j < n ensures Filled(filled, data, j) { SpreadFills(r, b', data, n, j); }
    assert RingOk(filled);
    forall p: int | r'.consumed <= p < |r'.produced| ensures Unread(r', p) { PublishedAt(filled, r', data, n, p); }
  }

  class RingBuffer {
    const buf: array<bv8>
    var writeIdx: int
    var readIdx: int
    ghost var produced: seq<bv8>
    ghost var consumed: nat

    ghost function AsRing(): Ring<bv8>
      reads this, buf
    {
      Ring(WORD64, buf[..], writeIdx, readIdx, produced, consumed)
    }

    ghost predicate Valid()
      reads this, buf
    {
      RingOk(AsRing())
    }

    /** `cx_ringbuf_create`; a power of two below the index word divides it. */
    constructor (capacity: nat)
      requires 0 < capacity < WORD64 && WORD64 % capacity == 0
      ensures Valid() && produced == [] && consumed == 0 && fresh(buf) && buf.Length == capacity
    {
      buf := new bv8[capacity](_ => 0);
      writeIdx, readIdx, produced, consumed := 0, 0, [], 0;
    }

    /** `memcpy` into the ring. */
    method CopyIn(data: seq<bv8>, from: nat, at: nat, count: nat)
      requires from + count <= |data| && at + count <= buf.Length
      modifies buf
      ensures forall k: nat | k < buf.Length ::
                buf[k] == if at <= k < at + count then data[from + k - at] else old(buf[k])
    {
      for i := 0 to count
        invariant forall k: nat | k < buf.Length ::
                    buf[k] == if at <= k < at + i then data[from + k - at] else old(buf[k])
      {
        buf[at + i] := data[from + i];
      }
    }

    /** `cx_ringbuf_write`. `r` is what the load of the read index gave: by the time of the copies the
        consumer may have moved on. */
    method Write(data: seq<bv8>, r: int, ghost seen: nat) returns (n: nat)
      requires Valid() && Wraps(r, seen, WORD64) && seen <= consumed && |produced| <= seen + buf.Length
      modifies this, buf
      ensures Valid() && consumed == old(consumed)
      ensures n == Min(|data|, buf.Length - (|old(produced)| - seen))
      ensures produced == old(produced) + data[..n]
    {
      ghost var ring := AsRing();
      var c := buf.Length;
      var used := Sub(writeIdx, r, WORD64);
      WrappedDifference(|produced|, seen, WORD64);
      n := Min(|data|, c - used);
      var first := n;
      var writePos := writeIdx % c;
      WrappedSlot(|produced|, WORD64, c);
      if first > c - writePos { first := c - writePos; }
      CopyIn(data, 0, writePos, first);
      if n > first { CopyIn(data, first, 0, n - first); }
      forall k: nat | k < c ensures buf[..][k] == Spread(ring.buf, data, writePos, n, k) { assert buf[k] == buf[..][k]; }
      SpreadOk(ring, buf[..], data, n);
      writeIdx := (writeIdx + n) % WORD64;
      produced := produced + data[..n];
    }

    /** `memcpy` out of the ring. */
    method CopyOut(out: array<bv8>, to: nat, at: nat, count: nat)
      requires to + count <= out.Length && at + count <= buf.Length && out != buf
      modifies out
      ensures forall k: nat | k < out.Length ::
                out[k] == if to <= k < to + count then buf[at + k - to] else old(out[k])
    {
      for i := 0 to count
        invariant forall k: nat | k < out.Length ::
                    out[k] == if to <= k < to + i then buf[at + k - to] else old(out[k])
      {
        out[to + i] := buf[at + i];
      }
    }

    /** The two copies of a read. */
    method TakeOut(out: array<bv8>, n: nat)
      requires Valid() && consumed + n <= |produced| && n <= buf.Length && n <= out.Length && out != buf
      modifies out
      ensures out[..n] == produced[consumed..consumed + n] && out[n..] == old(out[n..])
    {
      var c := buf.Length;
      var readPos := readIdx % c;
      WrappedSlot(consumed, WORD64, c);
      var first := n;
      if first > c - readPos { first := c - readPos; }
      CopyOut(out, 0, readPos, first);
      if n > first { CopyOut(out, first, 0, n - first); }
      forall i | 0 <= i < n ensures CopiedAt(AsRing(), out[..], n, i) { assert out[i] == out[..][i]; }
      CopiedOut(AsRing(), out[..], n);
    }

    /** `cx_ringbuf_read`. `w` is what the load of the write index gave: the producer may have moved on. */
    method Read(out: array<bv8>, len: nat, w: int, ghost seen: nat) returns (n: nat)
      requires Valid() && Wraps(w, seen, WORD64) && consumed <= seen <= |produced| && len <= out.Length && out != buf
      modifies `readIdx, `consumed, out
      ensures Valid() && produced == old(produced) && consumed == old(consumed) + n <= |produced|
      ensures n == Min(len, seen - old(consumed)) <= out.Length
      ensures out[..n] == produced[old(consumed)..consumed] && out[n..] == old(out[n..])
    {
      if len == 0 { return 0; }
      var used := Sub(w, readIdx, WORD64);
      WrappedDifference(seen, consumed, WORD64);
      if used == 0 { return 0; }
      n := Min(len, used);
      TakeOut(out, n);
      GivenBack(AsRing(), n);
      readIdx := (readIdx + n) % WORD64;
      consumed := consumed + n;
    }
  }

  /** A block copied out around the wrap is the next stretch of what was produced. */
  lemma CopiedOut(r: Ring<bv8>, out: seq<bv8>, n: nat)
    requires RingOk(r) && r.consumed + n <= |r.produced| && n <= |out|
    requires forall i | 0 <= i < n :: CopiedAt(r, out, n, i)
    ensures out[..n] == r.produced[r.consumed..r.consumed + n]
  {
    forall i | 0 <= i < n ensures out[i] == r.produced[r.consumed + i] {
      assert CopiedAt(r, out, n, i) && Unread(r, r.consumed + i);
      CopySlotWraps(|r.buf|, r.consumed, n, i);
    }
  }

  predicate CopiedAt(r: Ring<bv8>, out: seq<bv8>, n: nat, i: int) {
    && RingShape(r) && 0 <= i < |out|
    && var slot := CopySlot(|r.buf|, r.consumed % |r.buf|, n, i); 0 <= slot < |r.buf| && out[i] == r.buf[slot]
  }

  lemma GivenBack(r: Ring<bv8>, n: nat)
    requires RingOk(r) && r.consumed + n <= |r.produced|
    ensures RingOk(r.(consumed := r.consumed + n, readIdx := (r.readIdx + n) % r.modulus))
  {
    var r' := r.(consumed := r.consumed + n, readIdx := (r.readIdx + n) % r.modulus);
    WrappedSum(r.consumed, n, r.modulus);
    forall p: int | r'.consumed <= p < |r'.produced| ensures Unread(r', p) { assert Unread(r, p); }
  }
}
