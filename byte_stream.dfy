/** The growable byte buffer with a cursor: one array and one position,
    grown by EnsureCapacity; integers go through zig-zag and the varint,
    byte arrays and strings are length-prefixed. */
module ByteStreams {
  import opened Wrappers
  import opened Arith
  import opened Varint

  type Int16 = x: int | -0x8000 <= x < 0x8000
  type Int32 = x: int | -0x8000_0000 <= x < 0x8000_0000
  type Int64 = x: int | -0x8000_0000_0000_0000 <= x < 0x8000_0000_0000_0000

  // ------------------------------------------- the buffer as a value

  /** The length EnsureCapacity settles on: the first of n, 2n+1, 2(2n+1)+1, …
      that reaches cap. */
  function GrownLength(n: nat, cap: int): (r: nat)
    ensures r >= n && r >= cap
    ensures n >= cap ==> r == n
    ensures n < cap ==> r < 2 * cap
    decreases if n >= cap then 0 else cap - n
  {
    if n >= cap then n else GrownLength(2 * n + 1, cap)
  }

  function Zeros(n: nat): (z: seq<Byte>)
    ensures |z| == n && forall i :: 0 <= i < n ==> z[i] == 0
  {
    seq(n, _ => 0)
  }

  /** The contents after EnsureCapacity(cap): the old bytes, then zeros up to
      the grown length. */
  function Grown(s: seq<Byte>, cap: int): (g: seq<Byte>)
    ensures |g| >= |s| && |g| >= cap && g[..|s|] == s
    ensures |s| >= cap ==> g == s
  {
    s + Zeros(GrownLength(|s|, cap) - |s|)
  }

  /** The contents after WriteByte(b) with the cursor at pos. */
  function PutByte(s: seq<Byte>, pos: nat, b: Byte): (t: seq<Byte>)
    ensures |t| >= |s| && |t| > pos && t[pos] == b
  {
    Grown(s, pos + 1)[pos := b]
  }

  /** WriteByte keeps every other byte. */
  lemma PutByteKeeps(s: seq<Byte>, pos: nat, b: Byte, i: nat)
    requires i < |s| && i != pos
    ensures PutByte(s, pos, b)[i] == s[i]
  {
    assert Grown(s, pos + 1)[..|s|] == s;
    assert Grown(s, pos + 1)[i] == Grown(s, pos + 1)[..|s|][i];
  }

  /** The contents after writing bs byte by byte from pos. */
  function PutBytes(s: seq<Byte>, pos: nat, bs: seq<Byte>): seq<Byte>
    decreases |bs|
  {
    if bs == [] then s else PutBytes(PutByte(s, pos, bs[0]), pos + 1, bs[1..])
  }

  lemma {:induction false} PutBytesSnoc(s: seq<Byte>, pos: nat, bs: seq<Byte>, b: Byte)
    ensures PutBytes(s, pos, bs + [b]) == PutByte(PutBytes(s, pos, bs), pos + |bs|, b)
    decreases |bs|
  {
    if bs == [] {
      assert PutBytes(s, pos, [b]) == PutBytes(PutByte(s, pos, b), pos + 1, []);
    } else {
      assert (bs + [b])[1..] == bs[1..] + [b];
      PutBytesSnoc(PutByte(s, pos, bs[0]), pos + 1, bs[1..], b);
    }
  }

  /** What WriteByte(b) with the cursor at pos leaves in the array that was
      the buffer before the call, whose contents were s: b at pos when pos
      lies inside it; otherwise the byte went to a grown copy and the array
      is as it was. */
  function FitByte(s: seq<Byte>, pos: nat, b: Byte): (t: seq<Byte>)
    ensures |t| == |s|
    ensures pos < |s| ==> t[pos] == b
    ensures forall i :: 0 <= i < |s| && i != pos ==> t[i] == s[i]
  {
    if pos < |s| then s[pos := b] else s
  }

  /** What writing ws byte by byte from pos leaves in the array that was the
      buffer when the writes began, whose contents were s. */
  function Fitted(s: seq<Byte>, pos: nat, ws: seq<Byte>): (t: seq<Byte>)
    ensures |t| == |s|
    decreases |ws|
  {
    if ws == [] then s else Fitted(FitByte(s, pos, ws[0]), pos + 1, ws[1..])
  }

  lemma {:induction false} FittedSnoc(s: seq<Byte>, pos: nat, ws: seq<Byte>, b: Byte)
    ensures Fitted(s, pos, ws + [b]) == FitByte(Fitted(s, pos, ws), pos + |ws|, b)
    decreases |ws|
  {
    if ws == [] {
      assert Fitted(s, pos, [b]) == Fitted(FitByte(s, pos, b), pos + 1, []);
    } else {
      assert (ws + [b])[1..] == ws[1..] + [b];
      FittedSnoc(FitByte(s, pos, ws[0]), pos + 1, ws[1..], b);
    }
  }

  /** Writes that start at or past the end of an array all go to grown
      copies and leave it as it was. */
  lemma {:induction false} FittedPastEnd(s: seq<Byte>, pos: nat, ws: seq<Byte>)
    requires pos >= |s|
    ensures Fitted(s, pos, ws) == s
    decreases |ws|
  {
    if ws != [] {
      FittedPastEnd(FitByte(s, pos, ws[0]), pos + 1, ws[1..]);
    }
  }

  /** The payload WriteBytes copies when its argument is the stream's own
      array, whose contents were s, with the cursor at pos: byte i is read
      after the header and the first i payload bytes have been written,
      from what those writes left in that array. */
  function SelfPayload(s: seq<Byte>, pos: nat, header: seq<Byte>, n: nat): (p: seq<Byte>)
    requires n <= |s|
    ensures |p| == n
  {
    if n == 0 then []
    else
      var p := SelfPayload(s, pos, header, n - 1);
      p + [Fitted(s, pos, header + p)[n - 1]]
  }

  /** What WriteBytes puts on the wire when its argument is the stream's own
      array, whose contents were s, with the cursor at pos. */
  function SelfPrefixed(s: seq<Byte>, pos: nat): seq<Byte>
  {
    var header := VarintBytes(ZigZagEncode(|s|));
    header + SelfPayload(s, pos, header, |s|)
  }

  /** With the cursor at or past the end of the stream's own array, the
      first write grows the buffer, so WriteBytes of that array copies it
      faithfully. */
  lemma SelfPrefixedPastEnd(s: seq<Byte>, pos: nat)
    requires pos >= |s|
    ensures SelfPrefixed(s, pos) == Prefixed(s)
  {
    var header := VarintBytes(ZigZagEncode(|s|));
    SelfPayloadPastEnd(s, pos, header, |s|);
  }

  lemma {:induction false} SelfPayloadPastEnd(s: seq<Byte>, pos: nat, header: seq<Byte>, n: nat)
    requires pos >= |s| && n <= |s|
    ensures SelfPayload(s, pos, header, n) == s[..n]
  {
    if n > 0 {
      SelfPayloadPastEnd(s, pos, header, n - 1);
      FittedPastEnd(s, pos, header + s[..n - 1]);
      assert s[..n] == s[..n - 1] + [s[n - 1]];
    }
  }

  /** A stream over [5, 6] that writes its own array: the length byte 8
      overwrites the 5, which is then read back as the first payload byte,
      and so on, so [8, 8, 8] goes on the wire instead of [8, 5, 6]. */
  lemma SelfWriteExample()
    ensures Prefixed([5, 6]) == [8, 5, 6]
    ensures SelfPrefixed([5, 6], 0) == [8, 8, 8]
  {
    assert VarintBytes(ZigZagEncode(2)) == [8];
    assert Fitted([5, 6], 0, [8]) == [8, 6] by {
      assert Fitted([5, 6], 0, [8]) == Fitted(FitByte([5, 6], 0, 8), 1, []);
    }
    assert SelfPayload([5, 6], 0, [8], 1) == [8];
    assert Fitted([5, 6], 0, [8, 8]) == [8, 8] by {
      FittedSnoc([5, 6], 0, [8], 8);
      assert [8] + [8] == [8, 8];
    }
    assert SelfPayload([5, 6], 0, [8], 2) == [8, 8];
  }

  lemma {:induction false} PutBytesAppend(s: seq<Byte>, pos: nat, a: seq<Byte>, b: seq<Byte>)
    ensures PutBytes(s, pos, a + b) == PutBytes(PutBytes(s, pos, a), pos + |a|, b)
    decreases |a|
  {
    if a != [] {
      var t, rest := PutByte(s, pos, a[0]), a[1..];
      assert PutBytes(s, pos, a + b) == PutBytes(t, pos + 1, rest + b) by {
        assert (a + b)[0] == a[0] && (a + b)[1..] == rest + b;
      }
      assert PutBytes(s, pos, a) == PutBytes(t, pos + 1, rest);
      PutBytesAppend(t, pos + 1, rest, b);
    } else {
      assert a + b == b;
    }
  }

  /** Writing bs from pos puts bs at [pos, pos + |bs|), keeps every old byte
      outside that range and never shrinks the buffer. */
  lemma PutBytesContents(s: seq<Byte>, pos: nat, bs: seq<Byte>)
    ensures |PutBytes(s, pos, bs)| >= |s|
    ensures bs != [] ==> |PutBytes(s, pos, bs)| >= pos + |bs| && PutBytes(s, pos, bs)[pos .. pos + |bs|] == bs
    ensures forall i :: 0 <= i < |s| && !(pos <= i < pos + |bs|) ==> PutBytes(s, pos, bs)[i] == s[i]
  {
    PutBytesGrows(s, pos, bs);
    forall i | 0 <= i < |s| && !(pos <= i < pos + |bs|)
      ensures PutBytes(s, pos, bs)[i] == s[i]
    {
      PutBytesKeeps(s, pos, bs, i);
    }
    if bs != [] {
      var r := PutBytes(s, pos, bs);
      forall k | 0 <= k < |bs|
        ensures r[pos .. pos + |bs|][k] == bs[k]
      {
        PutBytesPlaces(s, pos, bs, k);
      }
    }
  }

  lemma {:induction false} PutBytesGrows(s: seq<Byte>, pos: nat, bs: seq<Byte>)
    ensures |PutBytes(s, pos, bs)| >= |s|
    ensures bs != [] ==> |PutBytes(s, pos, bs)| >= pos + |bs|
    decreases |bs|
  {
    if bs != [] {
      PutBytesGrows(PutByte(s, pos, bs[0]), pos + 1, bs[1..]);
    }
  }

  lemma {:induction false} PutBytesKeeps(s: seq<Byte>, pos: nat, bs: seq<Byte>, i: nat)
    requires i < |s| && !(pos <= i < pos + |bs|)
    ensures i < |PutBytes(s, pos, bs)| && PutBytes(s, pos, bs)[i] == s[i]
    decreases |bs|
  {
    if bs != [] {
      PutByteKeeps(s, pos, bs[0], i);
      PutBytesKeeps(PutByte(s, pos, bs[0]), pos + 1, bs[1..], i);
    }
  }

  lemma {:induction false} PutBytesPlaces(s: seq<Byte>, pos: nat, bs: seq<Byte>, k: nat)
    requires k < |bs|
    ensures pos + k < |PutBytes(s, pos, bs)| && PutBytes(s, pos, bs)[pos + k] == bs[k]
    decreases |bs|
  {
    var t := PutByte(s, pos, bs[0]);
    if k == 0 {
      PutBytesKeeps(t, pos + 1, bs[1..], pos);
    } else {
      PutBytesPlaces(t, pos + 1, bs[1..], k - 1);
      assert pos + 1 + (k - 1) == pos + k;
    }
  }

  /** What WriteBytes and WriteString put on the wire for a payload: its
      length as a zig-zag varint, then the payload itself. */
  function Prefixed(payload: seq<Byte>): seq<Byte>
  {
    VarintBytes(ZigZagEncode(|payload|)) + payload
  }

  /** What ReadInt16/ReadInt32/ReadInt64 return for the bytes s with the
      cursor at pos, and where the cursor ends: the varint, zig-zag decoded,
      then truncated to m = 2^16, 2^32 or 2^64 as the casts do. */
  function ReadIntAt(s: seq<Byte>, pos: nat, m: nat): (Option<int>, nat)
    requires m >= 2 && m % 2 == 0
  {
    var (u, p) := ReadVarint(s, pos);
    (if u.Some? then Some(Wrap(ZigZagDecode(u.value), m)) else None, p)
  }

  const TwoTo32: nat := 0x1_0000_0000

  /** What ReadString returns: an Int32 length, then that many bytes from the
      cursor when it is positive; the cursor stays before the payload. */
  function ReadStringAt(s: seq<Byte>, pos: nat): (Option<seq<Byte>>, nat)
  {
    var (n, p) := ReadIntAt(s, pos, TwoTo32);
    if n.None? then (None, p)
    else if n.value <= 0 then (Some([]), p)
    else if p + n.value > |s| then (None, p)
    else (Some(s[p .. p + n.value]), p)
  }

  /** What ReadBytes returns: like ReadStringAt, but a non-positive length
      reads as null (Some(None)) and the cursor moves past a payload. */
  function ReadBytesAt(s: seq<Byte>, pos: nat): (Option<Option<seq<Byte>>>, nat)
  {
    var (n, p) := ReadIntAt(s, pos, TwoTo32);
    if n.None? then (None, p)
    else if n.value <= 0 then (Some(None), p)
    else if p + n.value > |s| then (None, p)
    else (Some(Some(s[p .. p + n.value])), p + n.value)
  }

  // ------------------------------------------- the stream

  class ByteStream {
    var position: nat
    var buffer: array<Byte>

    /** ByteStream(int capacity): a zeroed buffer of at least one byte. */
    constructor WithCapacity(capacity: int)
      ensures position == 0 && fresh(buffer)
      ensures buffer.Length == if capacity < 1 then 1 else capacity
      ensures buffer[..] == Zeros(buffer.Length)
    {
      var n := if capacity < 1 then 1 else capacity;
      buffer := new Byte[n](_ => 0);
      position := 0;
    }

    /** ByteStream(byte[] bytes): reads and writes go to the caller's array
        itself, not to a copy. */
    constructor FromBytes(bytes: array<Byte>)
      ensures position == 0 && buffer == bytes
    {
      buffer := bytes;
      position := 0;
    }

    /** available: the bytes left between the cursor and the end, 0 once the
        cursor has run past the end. */
    function Available(): (n: nat)
      reads this
      ensures (n > 0) == Readable()
      ensures Readable() ==> position + n == buffer.Length
    {
      if buffer.Length - position > 0 then buffer.Length - position else 0
    }

    /** readable and Readable(): the cursor is before the end of the buffer. */
    predicate Readable()
      reads this
    {
      position < buffer.Length
    }

    /** EnsureCapacity: if the buffer is shorter than capacity, replace it by
        a longer zeroed one whose length is the first of n, 2n+1, … reaching
        capacity, with the old bytes copied to its front. */
    method EnsureCapacity(capacity: int)
      modifies this
      ensures position == old(position)
      ensures buffer[..] == Grown(old(buffer[..]), capacity)
      ensures buffer.Length == GrownLength(old(buffer.Length), capacity)
      ensures old(buffer.Length) >= capacity ==> buffer == old(buffer)
      ensures buffer == old(buffer) || fresh(buffer)
    {
      var length := buffer.Length;
      if length < capacity {
        var newLength := length;
        while newLength < capacity
          invariant length <= newLength
          invariant GrownLength(newLength, capacity) == GrownLength(length, capacity)
          decreases capacity - newLength
        {
          newLength := 2 * newLength + 1;
        }
        var newBuffer := new Byte[newLength](_ => 0);
        forall i | 0 <= i < length {
          newBuffer[i] := buffer[i];
        }
        assert newBuffer[..] == Grown(buffer[..], capacity);
        buffer := newBuffer;
      }
    }

    /** WriteByte: grow to hold one more byte, store it at the cursor and
        advance the cursor by one. */
    method WriteByte(b: Byte)
      modifies this, buffer
      ensures buffer[..] == PutByte(old(buffer[..]), old(position), b)
      ensures position == old(position) + 1
      ensures buffer == old(buffer) || fresh(buffer)
      ensures old(buffer)[..] == FitByte(old(buffer[..]), old(position), b)
      ensures buffer == old(buffer) || position > old(buffer.Length)
    {
      EnsureCapacity(position + 1);
      buffer[position] := b;
      position := position + 1;
    }

    /** ReadByte: the byte at the cursor; the cursor moves on even when the
        read runs past the end and raises (None). */
    method ReadByte() returns (r: Option<Byte>)
      modifies this
      ensures buffer == old(buffer) && position == old(position) + 1
      ensures r == if old(position) < buffer.Length then Some(buffer[old(position)]) else None
    {
      if position < buffer.Length {
        r := Some(buffer[position]);
      } else {
        r := None;
      }
      position := position + 1;
    }

    method WriteBoolean(value: bool)
      modifies this, buffer
      ensures buffer[..] == PutByte(old(buffer[..]), old(position), if value then 1 else 0)
      ensures position == old(position) + 1
      ensures buffer == old(buffer) || fresh(buffer)
    {
      WriteByte(if value then 1 else 0);
    }

    /** ReadBoolean: true exactly for the byte 1. */
    method ReadBoolean() returns (r: Option<bool>)
      modifies this
      ensures buffer == old(buffer) && position == old(position) + 1
      ensures r == if old(position) < buffer.Length then Some(buffer[old(position)] == 1) else None
    {
      var b := ReadByte();
      r := if b.Some? then Some(b.value == 1) else None;
    }

    /** Write(ulong): emit the varint of u byte by byte. */
    method WriteVarint(u: UInt64)
      modifies this, buffer
      ensures buffer[..] == PutBytes(old(buffer[..]), old(position), VarintBytes(u))
      ensures position == old(position) + |VarintBytes(u)|
      ensures buffer == old(buffer) || fresh(buffer)
      ensures old(buffer)[..] == Fitted(old(buffer[..]), old(position), VarintBytes(u))
      ensures buffer == old(buffer) || position > old(buffer.Length)
    {
      var x: nat := u;
      var more := true;
      ghost var done: seq<Byte> := [];
      ghost var a, s0, p0 := buffer, buffer[..], position;
      while more
        invariant more ==> VarintBytes(u) == done + VarintBytes(x)
        invariant !more ==> VarintBytes(u) == done
        invariant buffer[..] == PutBytes(s0, p0, done)
        invariant position == p0 + |done|
        invariant buffer == old(buffer) || fresh(buffer)
        invariant a.Length == |s0| && a[..] == Fitted(s0, p0, done)
        invariant buffer == a || position > |s0|
        decreases x, more
      {
        x, more, done := WriteChunk(u, a, s0, p0, done, x);
      }
    }

    /** One pass of the Write(ulong) loop: the low seven bits of x shifted
        up by one, with bit 0 set when more chunks follow. */
    method WriteChunk(ghost u: nat, ghost a: array<Byte>, ghost s0: seq<Byte>, ghost p0: nat, ghost done: seq<Byte>, x: nat)
      returns (x': nat, more: bool, ghost done': seq<Byte>)
      requires VarintBytes(u) == done + VarintBytes(x)
      requires buffer[..] == PutBytes(s0, p0, done) && position == p0 + |done|
      requires a.Length == |s0| && a[..] == Fitted(s0, p0, done) && (buffer == a || position > |s0|)
      modifies this, buffer
      ensures x' == x / 128 && more == (x' != 0)
      ensures more ==> VarintBytes(u) == done' + VarintBytes(x')
      ensures !more ==> VarintBytes(u) == done'
      ensures buffer[..] == PutBytes(s0, p0, done') && position == p0 + |done'|
      ensures buffer == old(buffer) || fresh(buffer)
      ensures a[..] == Fitted(s0, p0, done') && (buffer == a || position > |s0|)
    {
      var value: Byte := (x % 128) * 2;
      more := x / 128 != 0;
      if more {
        value := value + 1;
      }
      VarintStep(u, done, x);
      WriteNext(value, a, s0, p0, done);
      x' := x / 128;
      done' := done + [value];
    }

    /** Read(): the loop of ReadVarint, one ReadByte per step. */
    method ReadVarint() returns (r: Option<UInt64>)
      modifies this
      ensures buffer == old(buffer)
      ensures (r, position) == Varint.ReadVarint(buffer[..], old(position))
    {
      var result: UInt64 := 0;
      var i: nat := 0;
      while true
        invariant buffer == old(buffer)
        invariant ReadFrom(buffer[..], position, i, result) == Varint.ReadVarint(buffer[..], old(position))
        decreases if position <= buffer.Length then buffer.Length - position + 1 else 0
      {
        var value := ReadByte();
        if value.None? {
          return None;
        }
        result := Or64(result, (value.value / 2 * Pow2((7 * i) % 64)) % TwoTo64);
        i := i + 1;
        if value.value % 2 == 0 {
          return Some(result);
        }
      }
    }

    method WriteInt16(value: Int16)
      modifies this, buffer
      ensures buffer[..] == PutBytes(old(buffer[..]), old(position), IntBytes(value))
      ensures position == old(position) + |IntBytes(value)|
      ensures buffer == old(buffer) || fresh(buffer)
      ensures old(buffer)[..] == Fitted(old(buffer[..]), old(position), IntBytes(value))
      ensures buffer == old(buffer) || position > old(buffer.Length)
    {
      ZigZagFits(value);
      WriteVarint(ZigZagEncode(value));
    }

    method WriteInt32(value: Int32)
      modifies this, buffer
      ensures buffer[..] == PutBytes(old(buffer[..]), old(position), IntBytes(value))
      ensures position == old(position) + |IntBytes(value)|
      ensures buffer == old(buffer) || fresh(buffer)
      ensures old(buffer)[..] == Fitted(old(buffer[..]), old(position), IntBytes(value))
      ensures buffer == old(buffer) || position > old(buffer.Length)
    {
      ZigZagFits(value);
      WriteVarint(ZigZagEncode(value));
    }

    method WriteInt64(value: Int64)
      modifies this, buffer
      ensures buffer[..] == PutBytes(old(buffer[..]), old(position), IntBytes(value))
      ensures position == old(position) + |IntBytes(value)|
      ensures buffer == old(buffer) || fresh(buffer)
      ensures old(buffer)[..] == Fitted(old(buffer[..]), old(position), IntBytes(value))
      ensures buffer == old(buffer) || position > old(buffer.Length)
    {
      ZigZagFits(value);
      WriteVarint(ZigZagEncode(value));
    }

    /** ReadInt16: (short) zigzag_decode(Read()). */
    method ReadInt16() returns (r: Option<Int16>)
      modifies this
      ensures buffer == old(buffer)
      ensures (if r.Some? then Some(r.value as int) else None, position) == ReadIntAt(buffer[..], old(position), 0x1_0000)
    {
      var u := ReadVarint();
      r := if u.Some? then Some(Wrap(ZigZagDecode(u.value), 0x1_0000) as Int16) else None;
    }

    /** ReadInt32: (int) zigzag_decode(Read()). */
    method ReadInt32() returns (r: Option<Int32>)
      modifies this
      ensures buffer == old(buffer)
      ensures (if r.Some? then Some(r.value as int) else None, position) == ReadIntAt(buffer[..], old(position), TwoTo32)
    {
      var u := ReadVarint();
      r := if u.Some? then Some(Wrap(ZigZagDecode(u.value), TwoTo32) as Int32) else None;
    }

    /** ReadInt64: zigzag_decode(Read()), which always fits in a long. */
    method ReadInt64() returns (r: Option<Int64>)
      modifies this
      ensures buffer == old(buffer)
      ensures (if r.Some? then Some(r.value as int) else None, position) == ReadIntAt(buffer[..], old(position), TwoTo64)
    {
      var u := ReadVarint();
      if u.Some? {
        ZigZagDecodeFits(u.value);
        WrapInRange(ZigZagDecode(u.value), TwoTo64);
        r := Some(ZigZagDecode(u.value) as Int64);
      } else {
        r := None;
      }
    }

    /** WriteBytes: the length (0 for null) as an Int32, then every byte,
        each read from the argument just before it is written. When the
        argument is the stream's own array, the writes can overwrite bytes
        not yet read, and what goes out is SelfPrefixed. */
    method WriteBytes(bytes: array?<Byte>)
      requires bytes == null || bytes.Length < 0x8000_0000
      modifies this, buffer
      ensures bytes == null ==> buffer[..] == PutBytes(old(buffer[..]), old(position), Prefixed([]))
      ensures bytes != null && bytes != old(buffer) ==>
                buffer[..] == PutBytes(old(buffer[..]), old(position), Prefixed(old(bytes[..])))
      ensures bytes == old(buffer) ==>
                buffer[..] == PutBytes(old(buffer[..]), old(position), SelfPrefixed(old(buffer[..]), old(position)))
      ensures position == old(position) + |Prefixed(if bytes == null then [] else old(bytes[..]))|
      ensures buffer == old(buffer) || fresh(buffer)
    {
      var length := if bytes == null then 0 else bytes.Length;
      ghost var a, s0, p0 := buffer, buffer[..], position;
      WriteInt32(length);
      if bytes != null {
        WriteEach(bytes, a, s0, p0, VarintBytes(ZigZagEncode(length)));
      } else {
        assert Prefixed([]) == VarintBytes(ZigZagEncode(0));
      }
    }

    /** The loop of WriteBytes: every byte of bytes, in order, after the
        header already written at p0; a is the array that was the buffer
        before the header, whose contents were s0. */
    method WriteEach(bytes: array<Byte>, ghost a: array<Byte>, ghost s0: seq<Byte>, ghost p0: nat, ghost header: seq<Byte>)
      requires buffer[..] == PutBytes(s0, p0, header) && position == p0 + |header|
      requires a.Length == |s0| && a[..] == Fitted(s0, p0, header) && (buffer == a || position > |s0|)
      requires bytes == a || bytes != buffer
      modifies this, buffer
      ensures bytes != a ==> buffer[..] == PutBytes(s0, p0, header + old(bytes[..]))
      ensures bytes == a ==> buffer[..] == PutBytes(s0, p0, header + SelfPayload(s0, p0, header, |s0|))
      ensures position == p0 + |header| + bytes.Length
      ensures buffer == old(buffer) || fresh(buffer)
    {
      ghost var bs := bytes[..];
      ghost var out: seq<Byte> := [];
      assert header + out == header;
      var i := 0;
      while i < bytes.Length
        invariant 0 <= i <= bytes.Length && |out| == i
        invariant buffer == old(buffer) || fresh(buffer)
        invariant Copying(bytes, a, s0, p0, header, bs, out)
      {
        out := CopyNext(bytes, i, a, s0, p0, header, bs, out);
        i := i + 1;
      }
      assert bytes != a ==> out == bs;
    }

    /** The state of WriteBytes after the header and the payload bytes out,
        with bs the argument's contents at the start of the payload. */
    ghost predicate Copying(bytes: array<Byte>, a: array<Byte>, s0: seq<Byte>, p0: nat, header: seq<Byte>,
                            bs: seq<Byte>, out: seq<Byte>)
      reads this, buffer, a, bytes
    {
      |out| <= bytes.Length && |bs| == bytes.Length &&
      buffer[..] == PutBytes(s0, p0, header + out) && position == p0 + |header| + |out| &&
      a.Length == |s0| && a[..] == Fitted(s0, p0, header + out) && (buffer == a || position > |s0|) &&
      (bytes != a ==> bytes != buffer && bytes[..] == bs && out == bs[..|out|]) &&
      (bytes == a ==> out == SelfPayload(s0, p0, header, |out|))
    }

    /** One step of the WriteBytes loop: the next payload byte is read from
        bytes and written at the cursor. */
    method CopyNext(bytes: array<Byte>, i: nat, ghost a: array<Byte>, ghost s0: seq<Byte>, ghost p0: nat, ghost header: seq<Byte>,
                    ghost bs: seq<Byte>, ghost out: seq<Byte>) returns (ghost out': seq<Byte>)
      requires Copying(bytes, a, s0, p0, header, bs, out) && i == |out| < bytes.Length
      modifies this, buffer
      ensures Copying(bytes, a, s0, p0, header, bs, out') && |out'| == |out| + 1
      ensures buffer == old(buffer) || fresh(buffer)
    {
      var b := bytes[i];
      WriteNext(b, a, s0, p0, header + out);
      assert header + out + [b] == header + (out + [b]);
      out' := out + [b];
      assert bytes != a ==> out' == bs[..|out'|];
    }

    /** One WriteByte(b) after the bytes ws were written from p0: the
        buffer and the array a that was the buffer at p0 both take b in. */
    method WriteNext(b: Byte, ghost a: array<Byte>, ghost s0: seq<Byte>, ghost p0: nat, ghost ws: seq<Byte>)
      requires buffer[..] == PutBytes(s0, p0, ws) && position == p0 + |ws|
      requires a.Length == |s0| && a[..] == Fitted(s0, p0, ws) && (buffer == a || position > |s0|)
      modifies this, buffer
      ensures buffer[..] == PutBytes(s0, p0, ws + [b]) && position == p0 + |ws| + 1
      ensures buffer == old(buffer) || fresh(buffer)
      ensures a[..] == Fitted(s0, p0, ws + [b]) && (buffer == a || position > |s0|)
    {
      PutBytesSnoc(s0, p0, ws, b);
      FittedSnoc(s0, p0, ws, b);
      WriteByte(b);
    }

    /** WriteString: null or "" is the single byte 0; otherwise the string's
        bytes go out through WriteBytes. Strings are modelled by their bytes. */
    method WriteString(str: seq<Byte>)
      requires |str| < 0x8000_0000
      modifies this, buffer
      ensures buffer[..] == PutBytes(old(buffer[..]), old(position), Prefixed(str))
      ensures position == old(position) + |Prefixed(str)|
      ensures buffer == old(buffer) || fresh(buffer)
    {
      if |str| == 0 {
        WriteByte(0);
        assert Prefixed(str) == [0];
        assert PutBytes(old(buffer[..]), old(position), [0]) ==
               PutBytes(PutByte(old(buffer[..]), old(position), 0), old(position) + 1, []);
        return;
      }
      var bytes := new Byte[|str|](i requires 0 <= i < |str| => str[i]);
      assert bytes[..] == str;
      WriteBytes(bytes);
    }

    /** ReadBytes: an Int32 length; a positive one copies that many bytes
        from the cursor into a new array (raising when they run past the end)
        and moves the cursor past them; any other length reads as null. */
    method ReadBytes() returns (r: Option<array?<Byte>>)
      modifies this
      ensures buffer == old(buffer)
      ensures position == ReadBytesAt(buffer[..], old(position)).1
      ensures var e := ReadBytesAt(buffer[..], old(position)).0;
              r.Some? == e.Some? &&
              (r.Some? ==> (r.value == null <==> e.value.None?)) &&
              (r.Some? && r.value != null ==> fresh(r.value) && r.value[..] == e.value.value)
    {
      var length := ReadInt32();
      if length.None? {
        return None;
      }
      if length.value > 0 {
        if position + length.value > buffer.Length {
          return None;
        }
        ghost var s, p := buffer[..], position;
        assert ReadBytesAt(s, old(position)) == (Some(Some(s[p .. p + length.value])), p + length.value);
        var bytes := new Byte[length.value];
        forall k | 0 <= k < length.value {
          bytes[k] := buffer[position + k];
        }
        assert bytes[..] == s[p .. p + length.value];
        position := position + length.value;
        assert buffer[..] == s;
        return Some(bytes);
      }
      return Some(null);
    }

    /** ReadString: an Int32 length; a positive one decodes that many bytes
        from the cursor, which does not move past them; any other length
        gives the empty string. */
    method ReadString() returns (r: Option<seq<Byte>>)
      modifies this
      ensures buffer == old(buffer)
      ensures (r, position) == ReadStringAt(buffer[..], old(position))
    {
      var length := ReadInt32();
      if length.None? {
        return None;
      }
      if length.value > 0 {
        if position + length.value > buffer.Length {
          return None;
        }
        return Some(buffer[position .. position + length.value]);
      }
      return Some([]);
    }

    /** ToBytes: a copy of the bytes before the cursor (raising when the
        cursor has run past the end). */
    method ToBytes() returns (r: Option<array<Byte>>)
      ensures position <= buffer.Length ==> r.Some? && fresh(r.value) && r.value[..] == buffer[..position]
      ensures position > buffer.Length ==> r.None?
    {
      if position > buffer.Length {
        return None;
      }
      var bytes := new Byte[position];
      forall k | 0 <= k < position {
        bytes[k] := buffer[k];
      }
      assert bytes[..] == buffer[..position];
      return Some(bytes);
    }
  }

  /** The zig-zag varint WriteInt16/32/64 put on the wire for v. */
  function IntBytes(v: int): seq<Byte>
  {
    VarintBytes(ZigZagEncode(v))
  }

  /** A fresh writer's ToBytes() after WriteInt16(a), WriteInt32(b) and
      WriteInt64(c): the three encodings back to back. */
  method WriteIntegers(a: Int16, b: Int32, c: Int64) returns (bytes: array<Byte>)
    ensures bytes[..] == IntBytes(a) + IntBytes(b) + IntBytes(c)
  {
    var writer := new ByteStream.WithCapacity(16);
    ghost var z0 := writer.buffer[..];
    writer.WriteInt16(a);
    ghost var s1, p1 := writer.buffer[..], writer.position;
    writer.WriteInt32(b);
    ghost var s2, p2 := writer.buffer[..], writer.position;
    writer.WriteInt64(c);
    ghost var s3, p3 := writer.buffer[..], writer.position;
    ThreeWrites(z0, IntBytes(a), IntBytes(b), IntBytes(c), s1, s2, s3, p1, p2, p3);
    var r := writer.ToBytes();
    assert r.Some? && r.value[..] == s3[..p3];
    bytes := r.value;
  }

  /** A write from the start of a buffer followed by a write at the new
      cursor is one write of both byte strings. */
  lemma WrittenAfter(z0: seq<Byte>, x: seq<Byte>, y: seq<Byte>, s1: seq<Byte>, s2: seq<Byte>, p1: nat)
    requires p1 == |x| && s1 == PutBytes(z0, 0, x) && s2 == PutBytes(s1, p1, y)
    ensures s2 == PutBytes(z0, 0, x + y)
  {
    PutBytesAppend(z0, 0, x, y);
  }

  /** Two writes from the start of a buffer leave the two byte strings as
      its prefix. */
  lemma TwoWrites(z0: seq<Byte>, x: seq<Byte>, y: seq<Byte>, s1: seq<Byte>, s2: seq<Byte>, p1: nat, p2: nat)
    requires y != [] && p1 == |x| && p2 == p1 + |y|
    requires s1 == PutBytes(z0, 0, x) && s2 == PutBytes(s1, p1, y)
    ensures p2 <= |s2| && s2[..p2] == x + y
  {
    WrittenAfter(z0, x, y, s1, s2, p1);
    WrittenPrefix(z0, x + y);
  }

  /** Three writes from the start of a buffer leave the three byte strings
      as its prefix. */
  lemma ThreeWrites(z0: seq<Byte>, x: seq<Byte>, y: seq<Byte>, z: seq<Byte>, s1: seq<Byte>, s2: seq<Byte>, s3: seq<Byte>, p1: nat, p2: nat, p3: nat)
    requires z != [] && p1 == |x| && p2 == p1 + |y| && p3 == p2 + |z|
    requires s1 == PutBytes(z0, 0, x) && s2 == PutBytes(s1, p1, y) && s3 == PutBytes(s2, p2, z)
    ensures p3 <= |s3| && s3[..p3] == x + y + z
  {
    WrittenAfter(z0, x, y, s1, s2, p1);
    WrittenAfter(z0, x + y, z, s2, s3, p2);
    WrittenPrefix(z0, x + y + z);
  }

  /** Three integers written one after another by one stream are read back
      in order by a stream over its ToBytes(). */
  method IntegersRoundTrip(a: Int16, b: Int32, c: Int64) returns (x: Option<Int16>, y: Option<Int32>, z: Option<Int64>)
    ensures x == Some(a) && y == Some(b) && z == Some(c)
  {
    var bytes := WriteIntegers(a, b, c);
    var reader := new ByteStream.FromBytes(bytes);
    ghost var s := bytes[..];
    ghost var p1, p2 := |IntBytes(a)|, |IntBytes(a)| + |IntBytes(b)|;
    ThreeHold(s, IntBytes(a), IntBytes(b), IntBytes(c));
    IntRoundTrip(s, 0, a, 0x1_0000);
    IntRoundTrip(s, p1, b, TwoTo32);
    IntRoundTrip(s, p2, c, TwoTo64);
    x := reader.ReadInt16();
    assert reader.buffer[..] == s && (if x.Some? then Some(x.value as int) else None, reader.position) == (Some(a as int), p1);
    y := reader.ReadInt32();
    assert reader.buffer[..] == s && (if y.Some? then Some(y.value as int) else None, reader.position) == (Some(b as int), p2);
    z := reader.ReadInt64();
    assert (if z.Some? then Some(z.value as int) else None, reader.position) == ReadIntAt(s, p2, TwoTo64);
  }

  /** ToBytes() of a stream over [5, 6] after it writes its own array: the
      length byte overwrites the 5 before the payload is read, so the
      stream holds [8, 8, 8] rather than [8, 5, 6]. */
  method SelfWrite() returns (bytes: array<Byte>)
    ensures bytes[..] == [8, 8, 8]
  {
    var own := new Byte[2];
    own[0], own[1] := 5, 6;
    var stream := new ByteStream.FromBytes(own);
    assert own[..] == [5, 6];
    stream.WriteBytes(own);
    SelfWriteExample();
    assert stream.buffer[..] == PutBytes([5, 6], 0, [8, 8, 8]);
    assert PutBytes([5, 6], 0, [8, 8, 8])[..3] == [8, 8, 8] by {
      WrittenPrefix([5, 6], [8, 8, 8]);
    }
    var r := stream.ToBytes();
    bytes := r.value;
  }

  /** A fresh writer's ToBytes() after WriteBytes(bs) and WriteString(str):
      the two length-prefixed payloads back to back. */
  method WritePayloads(bs: array<Byte>, str: seq<Byte>) returns (bytes: array<Byte>)
    requires bs.Length < 0x8000_0000 && |str| < 0x8000_0000
    ensures bytes[..] == Prefixed(bs[..]) + Prefixed(str)
  {
    var writer := new ByteStream.WithCapacity(16);
    ghost var z0 := writer.buffer[..];
    writer.WriteBytes(bs);
    ghost var s1, p1 := writer.buffer[..], writer.position;
    writer.WriteString(str);
    ghost var s2, p2 := writer.buffer[..], writer.position;
    TwoWrites(z0, Prefixed(bs[..]), Prefixed(str), s1, s2, p1, p2);
    var r := writer.ToBytes();
    assert r.Some? && r.value[..] == s2[..p2];
    bytes := r.value;
  }

  /** A byte array and then a string written by one stream are read back by
      a stream over its ToBytes(); an empty array comes back as null. */
  method PayloadsRoundTrip(bs: array<Byte>, str: seq<Byte>) returns (x: Option<array?<Byte>>, y: Option<seq<Byte>>)
    requires bs.Length < 0x8000_0000 && |str| < 0x8000_0000
    ensures x.Some? && (x.value == null <==> bs.Length == 0)
    ensures x.Some? && x.value != null ==> x.value[..] == bs[..]
    ensures y == Some(str)
  {
    var bytes := WritePayloads(bs, str);
    var reader := new ByteStream.FromBytes(bytes);
    ThreeHold(bytes[..], Prefixed(bs[..]), Prefixed(str), []);
    PrefixedRoundTrip(bytes[..], 0, bs[..]);
    PrefixedRoundTrip(bytes[..], |Prefixed(bs[..])|, str);
    x := reader.ReadBytes();
    y := reader.ReadString();
  }

  lemma ThreeHold(t: seq<Byte>, a: seq<Byte>, b: seq<Byte>, c: seq<Byte>)
    requires t == a + b + c
    ensures Holds(t, 0, a) && Holds(t, |a|, b) && Holds(t, |a| + |b|, c)
  {
    assert t[0 .. |a|] == a;
    assert t[|a| .. |a| + |b|] == b;
    assert t[|a| + |b| .. |a| + |b| + |c|] == c;
  }

  /** bs sits in s at pos. */
  predicate Holds(s: seq<Byte>, pos: nat, bs: seq<Byte>)
  {
    pos + |bs| <= |s| && s[pos .. pos + |bs|] == bs
  }

  /** A write at the start of a buffer makes its bytes the buffer's prefix. */
  lemma WrittenPrefix(s: seq<Byte>, bs: seq<Byte>)
    requires bs != []
    ensures |bs| <= |PutBytes(s, 0, bs)| && PutBytes(s, 0, bs)[..|bs|] == bs
  {
    WrittenHolds(s, 0, bs);
  }

  /** Whatever was in the buffer, a write leaves its bytes at the cursor. */
  lemma WrittenHolds(s: seq<Byte>, pos: nat, bs: seq<Byte>)
    requires bs != []
    ensures Holds(PutBytes(s, pos, bs), pos, bs)
  {
    PutBytesContents(s, pos, bs);
  }

  /** Reading an integer back: the value written by WriteInt16/32/64 of a
      value in range is read back unchanged, and the cursor ends just after
      its varint. */
  lemma IntRoundTrip(s: seq<Byte>, pos: nat, v: int, m: nat)
    requires m >= 2 && m % 2 == 0 && m <= TwoTo64 && -(m / 2) <= v < m / 2
    requires Holds(s, pos, VarintBytes(ZigZagEncode(v)))
    ensures ReadIntAt(s, pos, m) == (Some(v), pos + |VarintBytes(ZigZagEncode(v))|)
  {
    VarintRoundTrip(s, pos, ZigZagEncode(v));
    ZigZagRoundTrip(v);
    WrapInRange(v, m);
  }

  /** Reading a length-prefixed payload back: ReadString returns it and
      leaves the cursor after the length; ReadBytes returns it (null when
      it is empty) and moves the cursor past it. */
  lemma PrefixedRoundTrip(s: seq<Byte>, pos: nat, payload: seq<Byte>)
    requires |payload| < 0x8000_0000
    requires Holds(s, pos, Prefixed(payload))
    ensures ReadStringAt(s, pos) == (Some(payload), pos + |VarintBytes(ZigZagEncode(|payload|))|)
    ensures ReadBytesAt(s, pos) == (if payload == [] then Some(None) else Some(Some(payload)), pos + |Prefixed(payload)|)
  {
    var h := VarintBytes(ZigZagEncode(|payload|));
    HoldsSplit(s, pos, h, payload);
    IntRoundTrip(s, pos, |payload|, TwoTo32);
  }

  /** When h + p sits in s at pos, h sits at pos and p right after it. */
  lemma HoldsSplit(s: seq<Byte>, pos: nat, h: seq<Byte>, p: seq<Byte>)
    requires Holds(s, pos, h + p)
    ensures Holds(s, pos, h) && Holds(s, pos + |h|, p)
  {
    forall i | 0 <= i < |h|
      ensures s[pos .. pos + |h|][i] == h[i]
    {
      assert s[pos .. pos + |h + p|][i] == (h + p)[i];
    }
    forall i | 0 <= i < |p|
      ensures s[pos + |h| .. pos + |h| + |p|][i] == p[i]
    {
      assert s[pos .. pos + |h + p|][|h| + i] == (h + p)[|h| + i];
    }
  }

  /** One step of the Write(ulong) loop: the byte it emits for x is the next
      byte of the encoding of u. */
  lemma VarintStep(u: nat, done: seq<Byte>, x: nat)
    requires VarintBytes(u) == done + VarintBytes(x)
    ensures var b := (x % 128) * 2 + (if x / 128 != 0 then 1 else 0);
            if x / 128 != 0 then VarintBytes(u) == (done + [b]) + VarintBytes(x / 128)
            else VarintBytes(u) == done + [b]
  {
    var b := (x % 128) * 2 + (if x / 128 != 0 then 1 else 0);
    if x / 128 != 0 {
      assert VarintBytes(x) == [b] + VarintBytes(x / 128);
      assert done + ([b] + VarintBytes(x / 128)) == (done + [b]) + VarintBytes(x / 128);
    } else {
      assert VarintBytes(x) == [b];
    }
  }

  lemma ZigZagFits(v: Int64)
    ensures ZigZagEncode(v) < TwoTo64
  {
  }

  lemma ZigZagDecodeFits(u: UInt64)
    ensures -0x8000_0000_0000_0000 <= ZigZagDecode(u) < 0x8000_0000_0000_0000
  {
  }
}
