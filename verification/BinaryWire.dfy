/**
 The frame format of the Realms binary transport: a 33-byte little-endian header followed by the
 fragment's bytes. The engine takes the six low bits of the first byte as the message kind; the
 receiver reads the rest through an LSB-first bit reader.
 */
module BinaryWire {
  import opened Common
  import opened Bits

  const WIRE_VERSION: nat := 1
  const FRAME_SIZE: nat := 1024
  const HEADER_SIZE: nat := 33
  const MAXIMUM_MESSAGE_SIZE: nat := 4 * 1024 * 1024
  const MAXIMUM_CONTROL_SIZE: nat := 96 * 1024
  const HEADER_BITS: nat := 258 // 33 bytes without the six kind bits
  const WORD32: nat := 0x1_0000_0000
  const WORD64: nat := 0x1_0000_0000_0000_0000

  datatype Failure =
    | BadKindOrVersion | BadHeader | Truncated | ReceiveMemory | ReceiveQueueFull
    | BadStartOrCapacity | Inconsistent | ReassemblyTimeout | Disconnected | FrameCapacity
    | DatagramTooLarge | EngineRejected | EndpointUnavailable | EndpointAccounting | CallbackMismatch

  datatype Result<+T> = Ok(value: T) | Err(reason: Failure)

  datatype Frame = Frame(reliable: bool, kind: nat, id: nat, sender: nat, recipient: nat,
                         total: nat, offset: nat, payload: seq<Byte>)
  {
    /** The fields fit their wire widths. */
    predicate Fits() {
      kind < 0x1_0000 && id < WORD32 && sender < WORD64 && recipient < WORD64 &&
      total < WORD32 && offset < WORD32 && |payload| < 0x1_0000
    }

    /** The header test of receive_frame (realms_binary.cpp:164-168), apart from the host's sender check. */
    predicate Acceptable() {
      sender != 0 && id != 0 && total <= MAXIMUM_MESSAGE_SIZE &&
      |payload| <= FRAME_SIZE - HEADER_SIZE && offset + |payload| <= total &&
      (total == 0 || payload != []) &&
      (kind == 0 ==> reliable && total <= MAXIMUM_CONTROL_SIZE) &&
      (!reliable ==> offset == 0 && |payload| == total)
    }
  }

  /** `pack`: the little-endian bytes of an `n`-byte value. */
  function LittleEndian(v: nat, n: nat): (bytes: seq<Byte>)
    ensures |bytes| == n
  {
    if n == 0 then [] else [v % 256] + LittleEndian(v / 256, n - 1)
  }

  /** The packet that send_frame hands to the engine. */
  function Encode(f: Frame): (packet: seq<Byte>)
    ensures |packet| == HEADER_SIZE + |f.payload|
  {
    LittleEndian(WIRE_VERSION * 64 + (if f.reliable then 0 else 1), 1) + (LittleEndian(f.kind, 2) +
    (LittleEndian(f.id, 4) + (LittleEndian(f.sender, 8) + (LittleEndian(f.recipient, 8) +
    (LittleEndian(f.total, 4) + (LittleEndian(f.offset, 4) + (LittleEndian(|f.payload|, 2) + f.payload)))))))
  }

  /** A packet as the engine's reader sees it. */
  function ByteBits(bytes: seq<Byte>): (bits: seq<bool>)
    ensures |bits| == 8 * |bytes|
  {
    if bytes == [] then [] else LowBits(bytes[0], 8) + ByteBits(bytes[1..])
  }

  function FieldAt(bits: seq<bool>, from: nat, width: nat): nat
    requires from + width <= |bits|
  {
    Value(bits[from..from + width])
  }

  function ReadBytes(bits: seq<bool>, from: nat, n: nat): (bytes: seq<Byte>)
    requires from + 8 * n <= |bits|
    ensures |bytes| == n
    decreases n
  {
    if n == 0 then []
    else
      LowBitsOfValue(bits[from..from + 8]);
      Pow2Small();
      [FieldAt(bits, from, 8)] + ReadBytes(bits, from + 8, n - 1)
  }

  /** The frame in the bits that follow the kind, as receive_frame accepts or refuses it. */
  function Parse(kind: int, bits: seq<bool>, isHost: bool, peer: nat): Result<Frame> {
    if (kind != 0 && kind != 1) || |bits| < 2 || FieldAt(bits, 0, 2) != WIRE_VERSION then Err(BadKindOrVersion)
    else if |bits| < HEADER_BITS then Err(BadHeader)
    else
      var size := FieldAt(bits, 242, 16);
      var header := Frame(kind == 0, FieldAt(bits, 2, 16), FieldAt(bits, 18, 32), FieldAt(bits, 50, 64),
                          FieldAt(bits, 114, 64), FieldAt(bits, 178, 32), FieldAt(bits, 210, 32), []);
      if header.sender == 0 || header.id == 0 || header.total > MAXIMUM_MESSAGE_SIZE ||
         size > FRAME_SIZE - HEADER_SIZE || header.offset > header.total || size > header.total - header.offset ||
         (header.total != 0 && size == 0) ||
         (header.kind == 0 && (!header.reliable || header.total > MAXIMUM_CONTROL_SIZE)) ||
         (isHost && header.sender != peer) ||
         (!header.reliable && (header.offset != 0 || size != header.total)) then Err(BadHeader)
      else if |bits| < HEADER_BITS + 8 * size then Err(Truncated)
      else Ok(header.(payload := ReadBytes(bits, HEADER_BITS, size)))
  }

  // ---------------------------------------------------------------- round trip

  lemma {:induction false} LittleEndianBits(v: nat, n: nat)
    ensures ByteBits(LittleEndian(v, n)) == LowBits(v, 8 * n)
  {
    if n > 0 {
      LittleEndianBits(v / 256, n - 1);
      LowBitsByte(v, 8 * (n - 1));
      assert LittleEndian(v, n)[1..] == LittleEndian(v / 256, n - 1);
    }
  }

  lemma {:induction false} ByteBitsAppend(a: seq<Byte>, b: seq<Byte>)
    ensures ByteBits(a + b) == ByteBits(a) + ByteBits(b)
  {
    if a == [] {
      assert a + b == b;
    } else {
      ByteBitsAppend(a[1..], b);
      assert (a + b)[0] == a[0] && (a + b)[1..] == a[1..] + b;
      Associative(LowBits(a[0], 8), ByteBits(a[1..]), ByteBits(b));
    }
  }

  lemma {:induction false} ReadBytesOfByteBits(prefix: seq<bool>, bytes: seq<Byte>)
    ensures ReadBytes(prefix + ByteBits(bytes), |prefix|, |bytes|) == bytes
    decreases |bytes|
  {
    if bytes != [] {
      var bits := prefix + ByteBits(bytes);
      var head := LowBits(bytes[0], 8);
      assert bits == (prefix + head) + ByteBits(bytes[1..]);
      assert bits[|prefix|..] == head + ByteBits(bytes[1..]);
      Peel(bits, |prefix|, bytes[0], 8, ByteBits(bytes[1..]));
      ReadBytesOfByteBits(prefix + head, bytes[1..]);
    }
  }

  /** Reading a field off the front of what remains. */
  lemma Peel(bits: seq<bool>, from: nat, v: nat, width: nat, rest: seq<bool>)
    requires from <= |bits| && bits[from..] == LowBits(v, width) + rest
    requires v < Pow2(width) || (width == 8 && v < 256)
    ensures from + width <= |bits| && FieldAt(bits, from, width) == v && bits[from + width..] == rest
  {
    assert |bits| == from + width + |rest|;
    assert bits[from..from + width] == bits[from..][..width] == LowBits(v, width);
    assert bits[from + width..] == bits[from..][width..] == rest;
    Pow2Small();
    ValueOfLowBits(v, width);
    ModUnique(v, Pow2(width), 0, v);
  }

  /** Splitting a packed word off the front of a packet. */
  lemma WordBits(v: nat, n: nat, rest: seq<Byte>)
    ensures ByteBits(LittleEndian(v, n) + rest) == LowBits(v, 8 * n) + ByteBits(rest)
  {
    ByteBitsAppend(LittleEndian(v, n), rest);
    LittleEndianBits(v, n);
  }

  lemma Pow2Widths()
    ensures Pow2(16) == 0x1_0000 && Pow2(32) == WORD32 && Pow2(64) == WORD64
  {
    Pow2Small();
    Pow2Sum(8, 8);
    assert Pow2(16) == 0x1_0000;
    Pow2Sum(16, 16);
    assert Pow2(32) == WORD32;
    Pow2Sum(32, 32);
  }

  lemma {:induction false} Pow2Sum(a: nat, b: nat)
    ensures Pow2(a + b) == Pow2(a) * Pow2(b)
  {
    if a > 0 { Pow2Sum(a - 1, b); }
  }

  /** The first byte carries the kind in its low six bits and the version in its two high bits. */
  lemma FirstByte(kind: nat)
    requires kind == 0 || kind == 1
    ensures LowBits(WIRE_VERSION * 64 + kind, 8) == LowBits(kind, 6) + LowBits(WIRE_VERSION, 2)
  {
    var v := 64 + kind;
    Pow2Small();
    LowBitsSplit(v, 6, 2);
    ShiftIsDivision(v, 6);
    assert Shift(v, 6) == 1;
    LowBitsMod(v, 6);
    assert v % 64 == kind;
  }

  /** The packet's bits, as the kind the engine takes and the rest the receiver reads. */
  lemma EncodedBits(f: Frame) returns (rest: seq<bool>)
    ensures var bits := ByteBits(Encode(f)); rest == bits[6..] && bits[..6] == LowBits(if f.reliable then 0 else 1, 6)
    ensures rest ==
      LowBits(WIRE_VERSION, 2) + (LowBits(f.kind, 16) + (LowBits(f.id, 32) + (LowBits(f.sender, 64) +
      (LowBits(f.recipient, 64) + (LowBits(f.total, 32) + (LowBits(f.offset, 32) +
      (LowBits(|f.payload|, 16) + ByteBits(f.payload))))))))
  {
    var b7 := LittleEndian(|f.payload|, 2) + f.payload;
    var b6 := LittleEndian(f.offset, 4) + b7;
    var b5 := LittleEndian(f.total, 4) + b6;
    var b4 := LittleEndian(f.recipient, 8) + b5;
    var b3 := LittleEndian(f.sender, 8) + b4;
    var b2 := LittleEndian(f.id, 4) + b3;
    var b1 := LittleEndian(f.kind, 2) + b2;
    WordBits(|f.payload|, 2, f.payload);
    WordBits(f.offset, 4, b7);
    WordBits(f.total, 4, b6);
    WordBits(f.recipient, 8, b5);
    WordBits(f.sender, 8, b4);
    WordBits(f.id, 4, b3);
    WordBits(f.kind, 2, b2);
    var kind := if f.reliable then 0 else 1;
    WordBits(WIRE_VERSION * 64 + kind, 1, b1);
    FirstByte(kind);
    var bits := ByteBits(Encode(f));
    rest := bits[6..];
    assert bits == LowBits(kind, 6) + (LowBits(WIRE_VERSION, 2) + ByteBits(b1));
  }

  function Tail(f: Frame): seq<bool> {
    LowBits(f.recipient, 64) + (LowBits(f.total, 32) + (LowBits(f.offset, 32) +
    (LowBits(|f.payload|, 16) + ByteBits(f.payload))))
  }

  lemma FirstFields(f: Frame, rest: seq<bool>)
    requires f.Fits()
    requires rest == LowBits(WIRE_VERSION, 2) + (LowBits(f.kind, 16) + (LowBits(f.id, 32) + (LowBits(f.sender, 64) + Tail(f))))
    ensures |rest| >= 114 && rest[114..] == Tail(f)
    ensures FieldAt(rest, 0, 2) == WIRE_VERSION && FieldAt(rest, 2, 16) == f.kind && FieldAt(rest, 18, 32) == f.id
    ensures FieldAt(rest, 50, 64) == f.sender
  {
    Pow2Widths();
    Pow2Small();
    var s3 := LowBits(f.sender, 64) + Tail(f);
    var s2 := LowBits(f.id, 32) + s3;
    var s1 := LowBits(f.kind, 16) + s2;
    assert rest[0..] == rest;
    Peel(rest, 0, WIRE_VERSION, 2, s1);
    Peel(rest, 2, f.kind, 16, s2);
    Peel(rest, 18, f.id, 32, s3);
    Peel(rest, 50, f.sender, 64, Tail(f));
  }

  lemma LastFields(f: Frame, rest: seq<bool>)
    requires f.Fits() && |rest| >= 114 && rest[114..] == Tail(f)
    ensures |rest| == HEADER_BITS + 8 * |f.payload| && rest[HEADER_BITS..] == ByteBits(f.payload)
    ensures FieldAt(rest, 114, 64) == f.recipient && FieldAt(rest, 178, 32) == f.total
    ensures FieldAt(rest, 210, 32) == f.offset && FieldAt(rest, 242, 16) == |f.payload|
  {
    Pow2Widths();
    var s8 := ByteBits(f.payload);
    var s7 := LowBits(|f.payload|, 16) + s8;
    var s6 := LowBits(f.offset, 32) + s7;
    var s5 := LowBits(f.total, 32) + s6;
    Peel(rest, 114, f.recipient, 64, s5);
    Peel(rest, 178, f.total, 32, s6);
    Peel(rest, 210, f.offset, 32, s7);
    Peel(rest, 242, |f.payload|, 16, s8);
  }

  /** What the receiver's reader finds at each header position after the six kind bits. */
  lemma EncodedFields(f: Frame)
    requires f.Fits()
    ensures var bits := ByteBits(Encode(f)); FieldAt(bits, 0, 6) == if f.reliable then 0 else 1
    ensures
      var rest := ByteBits(Encode(f))[6..];
      && |rest| == HEADER_BITS + 8 * |f.payload|
      && FieldAt(rest, 0, 2) == WIRE_VERSION && FieldAt(rest, 2, 16) == f.kind && FieldAt(rest, 18, 32) == f.id
      && FieldAt(rest, 50, 64) == f.sender && FieldAt(rest, 114, 64) == f.recipient
      && FieldAt(rest, 178, 32) == f.total && FieldAt(rest, 210, 32) == f.offset
      && FieldAt(rest, 242, 16) == |f.payload| && ReadBytes(rest, HEADER_BITS, |f.payload|) == f.payload
  {
    var rest := EncodedBits(f);
    FirstFields(f, rest);
    LastFields(f, rest);
    assert rest == rest[..HEADER_BITS] + ByteBits(f.payload);
    ReadBytesOfByteBits(rest[..HEADER_BITS], f.payload);
    KindField(f);
  }

  lemma KindField(f: Frame)
    ensures var bits := ByteBits(Encode(f)); FieldAt(bits, 0, 6) == if f.reliable then 0 else 1
  {
    var rest := EncodedBits(f);
    var bits, kind := ByteBits(Encode(f)), if f.reliable then 0 else 1;
    assert bits[0..] == bits == LowBits(kind, 6) + rest;
    Pow2Small();
    Peel(bits, 0, kind, 6, rest);
  }

  /**
   A frame whose fields fit their widths survives the wire: the receiver reads back exactly the frame
   that was packed, or refuses it for its header. It is refused exactly when the header test fails.
   */
  lemma FrameRoundTrip(f: Frame, isHost: bool, peer: nat)
    requires f.Fits()
    ensures
      var bits := ByteBits(Encode(f));
      Parse(FieldAt(bits, 0, 6), bits[6..], isHost, peer) ==
      (if f.Acceptable() && (isHost ==> f.sender == peer) then Ok(f) else Err(BadHeader))
  {
    EncodedFields(f);
  }

  // ---------------------------------------------------------------- the engine's reader

  lemma {:induction false} ReadBytesSplit(bits: seq<bool>, from: nat, n: nat, m: nat)
    requires from + 8 * (n + m) <= |bits|
    ensures ReadBytes(bits, from, n + m) == ReadBytes(bits, from, n) + ReadBytes(bits, from + 8 * n, m)
    decreases n
  {
    if n > 0 { ReadBytesSplit(bits, from + 8, n - 1, m); }
  }

  lemma {:induction false} ReadBytesSuffix(a: seq<bool>, b: seq<bool>, from: nat, n: nat)
    requires from + 8 * n <= |a| && |a| <= |b| && a == b[..|a|]
    ensures ReadBytes(a, from, n) == ReadBytes(b, from, n)
    decreases n
  {
    if n > 0 {
      assert a[from..from + 8] == b[from..from + 8];
      ReadBytesSuffix(a, b, from + 8, n - 1);
    }
  }

  /** One 32-bit read stored through memcpy is four byte reads. */
  lemma WordIsFourBytes(bits: seq<bool>, from: nat)
    requires from + 32 <= |bits|
    ensures LittleEndian(FieldAt(bits, from, 32), 4) == ReadBytes(bits, from, 4)
  {
    var word := FieldAt(bits, from, 32);
    LowBitsOfValue(bits[from..from + 32]);
    LittleEndianBits(word, 4);
    ReadBytesOfByteBits(bits[..from], LittleEndian(word, 4));
    var known := bits[..from] + ByteBits(LittleEndian(word, 4));
    assert bits[..from] + bits[from..from + 32] == bits[..from + 32];
    assert known == bits[..from + 32];
    ReadBytesSuffix(known, bits, from, 4);
  }

  lemma {:induction false} ValueAppend(a: seq<bool>, b: seq<bool>)
    ensures Value(a + b) == Value(a) + Pow2(|a|) * Value(b)
  {
    if a == [] {
      assert a + b == b;
    } else {
      ValueAppend(a[1..], b);
      assert (a + b)[0] == a[0] && (a + b)[1..] == a[1..] + b;
      DoubleProduct(Pow2(|a| - 1), Value(b));
    }
  }

  lemma DoubleProduct(p: nat, v: nat)
    ensures (2 * p) * v == 2 * (p * v)
  {
  }

  lemma PeerOfHalves(bits: seq<bool>, from: nat)
    requires from + 64 <= |bits|
    ensures FieldAt(bits, from, 32) + WORD32 * FieldAt(bits, from + 32, 32) == FieldAt(bits, from, 64)
  {
    Pow2Widths();
    ValueAppend(bits[from..from + 32], bits[from + 32..from + 64]);
    assert bits[from..from + 64] == bits[from..from + 32] + bits[from + 32..from + 64];
  }

  /** LSB-first reader with a sticky error flag; a read past the end yields zero. */
  class BitReader {
    const bits: seq<bool>
    var pos: nat
    var ok: bool

    constructor (bits: seq<bool>)
      ensures this.bits == bits && pos == 0 && ok
    {
      this.bits, pos, ok := bits, 0, true;
    }

    method ReadBits(n: nat) returns (v: nat)
      modifies this
      ensures ok == (old(ok) && old(pos) + n <= |bits|)
      ensures pos == if ok then old(pos) + n else old(pos)
      ensures v == if ok then FieldAt(bits, old(pos), n) else 0
    {
      ok := ok && pos + n <= |bits|;
      if !ok { return 0; }
      v := FieldAt(bits, pos, n);
      pos := pos + n;
    }

    /** realms_binary.cpp:133-136. */
    method ReadPeer() returns (v: nat)
      modifies this
      ensures ok == (old(ok) && old(pos) + 64 <= |bits|)
      ensures ok ==> pos == old(pos) + 64 && v == FieldAt(bits, old(pos), 64)
    {
      var low := ReadBits(32);
      var high := ReadBits(32);
      v := low + WORD32 * high;
      if ok { PeerOfHalves(bits, old(pos)); }
    }

    /** realms_binary.cpp:150-183: header, checks, then the payload a word at a time. */
    method ReadFrame(kind: int, isHost: bool, peer: nat) returns (r: Result<Frame>)
      requires pos == 0
      modifies this
      ensures r == if old(ok) then Parse(kind, bits, isHost, peer) else Err(BadKindOrVersion)
    {
      if (kind != 0 && kind != 1) || !ok { return Err(BadKindOrVersion); }
      var version := ReadBits(2);
      if version != WIRE_VERSION { return Err(BadKindOrVersion); }
      var frameKind := ReadBits(16);
      var id := ReadBits(32);
      var sender := ReadPeer();
      var recipient := ReadPeer();
      var total := ReadBits(32);
      var offset := ReadBits(32);
      var size := ReadBits(16);
      var reliable := kind == 0;
      if !ok || sender == 0 || id == 0 || total > MAXIMUM_MESSAGE_SIZE ||
         size > FRAME_SIZE - HEADER_SIZE || offset > total || size > total - offset ||
         (total != 0 && size == 0) || (frameKind == 0 && (!reliable || total > MAXIMUM_CONTROL_SIZE)) ||
         (isHost && sender != peer) || (!reliable && (offset != 0 || size != total)) {
        return Err(BadHeader);
      }
      var payload := ReadPayload(size);
      if !ok { return Err(Truncated); }
      return Ok(Frame(reliable, frameKind, id, sender, recipient, total, offset, payload));
    }

    /** realms_binary.cpp:172-183: whole words first, then single bytes. */
    method ReadPayload(size: nat) returns (payload: seq<Byte>)
      requires ok && pos <= |bits|
      modifies this
      ensures ok == (old(pos) + 8 * size <= |bits|)
      ensures ok ==> payload == ReadBytes(bits, old(pos), size)
    {
      payload := [];
      var index := 0;
      while size - index >= 4
        invariant index <= size
        invariant ok ==> pos == old(pos) + 8 * index <= |bits| && payload == ReadBytes(bits, old(pos), index)
        invariant !ok ==> |bits| < old(pos) + 8 * size
      {
        var word := ReadBits(32);
        if ok {
          WordIsFourBytes(bits, old(pos) + 8 * index);
          ReadBytesSplit(bits, old(pos), index, 4);
        }
        payload := payload + LittleEndian(word, 4);
        index := index + 4;
      }
      payload := ReadTail(payload, index, size, pos - 8 * index);
    }

    /** The bytes that do not fill a word. */
    method ReadTail(front: seq<Byte>, first: nat, size: nat, ghost start: int) returns (payload: seq<Byte>)
      requires first <= size
      requires ok ==> 0 <= start && pos == start + 8 * first <= |bits| && front == ReadBytes(bits, start, first)
      modifies this
      ensures ok == (old(ok) && start + 8 * size <= |bits|)
      ensures ok ==> payload == ReadBytes(bits, start, size)
    {
      payload := front;
      var index := first;
      while index < size
        invariant first <= index <= size && (ok ==> old(ok))
        invariant ok ==> pos == start + 8 * index <= |bits| && payload == ReadBytes(bits, start, index)
        invariant !ok && old(ok) ==> |bits| < start + 8 * size
      {
        var byte := ReadBits(8);
        if ok {
          ReadBytesSplit(bits, start, index, 1);
        }
        payload := payload + [byte % 256];
        index := index + 1;
      }
    }
  }
}
