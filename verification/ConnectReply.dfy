/** The lobby's connect reply (realms_protocol.cpp:27-76): two bit-packed parts around a fixed-size account id. */
module ConnectReply {
  import opened Common
  import opened Bits

  const WIRE_PROTOCOL: nat := 0x3ee5
  const ACCOUNT_BYTES: nat := 37
  const LOBBY_SYSTEM: nat := 1
  const CONNECT_REPLY: nat := 17

  const HEADER_BYTES: nat := 13
  const SIZE_AT: nat := 50
  const PAYLOAD_AT: nat := 53
  const PAYLOAD_BYTES: nat := 9
  const PACKET_BYTES: nat := 62

  function HeaderFields(peer: nat): seq<Field> {
    [Field(WIRE_PROTOCOL, 16), Field(0, 24), Field(peer, 64)]
  }

  /** The system, its channel, how many bits the payload's size takes, and that size. */
  function SizeFields(): seq<Field> {
    [Field(LOBBY_SYSTEM, 4), Field(0, 8), Field(4, 4), Field(PAYLOAD_BYTES, 4)]
  }

  function PayloadFields(lobby: nat): seq<Field> {
    [Field(1, 1), Field(CONNECT_REPLY, 6), Field(lobby, 64), Field(0, 1)]
  }

  /** Every field of `fields` reads back from bit `offset` on. */
  ghost predicate Holds(bits: seq<bool>, offset: nat, fields: seq<Field>)
    requires offset + TotalWidth(fields) <= |bits|
  {
    forall k :: 0 <= k < |fields| ==> ReadFields(bits, offset, fields)[k] == fields[k].value % Pow2(fields[k].width)
  }

  lemma SliceOfSlice<T>(s: seq<T>, from: nat, to: nat, low: nat, high: nat)
    requires from <= low <= high <= to <= |s|
    ensures s[low..high] == s[from..to][low - from..high - from]
  {
    var x, y := s[low..high], s[from..to][low - from..high - from];
    forall k | 0 <= k < high - low ensures x[k] == y[k] {
      assert s[from..to][low - from + k] == s[low + k];
    }
  }

  lemma SameParts<T>(a: seq<T>, b: seq<T>, offset: nat, at: nat, w: nat, all: nat)
    requires w <= all && offset + all <= |a| && at + all <= |b| && a[offset..offset + all] == b[at..at + all]
    ensures a[offset..offset + w] == b[at..at + w] && a[offset + w..offset + all] == b[at + w..at + all]
  {
    SliceOfSlice(a, offset, offset + all, offset, offset + w);
    SliceOfSlice(b, at, at + all, at, at + w);
    SliceOfSlice(a, offset, offset + all, offset + w, offset + all);
    SliceOfSlice(b, at, at + all, at + w, at + all);
  }

  lemma ReadsFirst(bits: seq<bool>, offset: nat, fields: seq<Field>)
    requires fields != [] && offset + TotalWidth(fields) <= |bits|
    ensures
      var w := fields[0].width;
      ReadFields(bits, offset, fields) == [Value(bits[offset..offset + w])] + ReadFields(bits, offset + w, fields[1..])
  {
  }

  /** Reading depends only on the bits read. */
  lemma {:induction false} ReadsSlice(a: seq<bool>, b: seq<bool>, offset: nat, at: nat, fields: seq<Field>, total: nat)
    requires total == TotalWidth(fields) && offset + total <= |a| && at + total <= |b|
    requires a[offset..offset + total] == b[at..at + total]
    ensures ReadFields(a, offset, fields) == ReadFields(b, at, fields)
    decreases |fields|
  {
    if fields != [] {
      var w := fields[0].width;
      SameParts(a, b, offset, at, w, total);
      ReadsSlice(a, b, offset + w, at + w, fields[1..], total - w);
      ReadsFirst(a, offset, fields);
      ReadsFirst(b, at, fields);
    }
  }

  lemma {:induction false} WidthsAdd(f: Field, rest: seq<Field>)
    ensures TotalWidth([f] + rest) == f.width + TotalWidth(rest)
  {
    assert ([f] + rest)[1..] == rest;
  }

  lemma WidthOfFour(f: Field, g: Field, h: Field, i: Field)
    ensures TotalWidth([f, g, h, i]) == f.width + g.width + h.width + i.width
  {
    WidthsAdd(i, []);
    WidthsAdd(h, [i]);
    WidthsAdd(g, [h, i]);
    WidthsAdd(f, [g, h, i]);
    assert [f] + [g, h, i] == [f, g, h, i] && [g] + [h, i] == [g, h, i] && [h] + [i] == [h, i] && [i] + [] == [i];
  }

  lemma Widths(peer: nat, lobby: nat)
    ensures TotalWidth(HeaderFields(peer)) == 8 * HEADER_BYTES
    ensures TotalWidth(SizeFields()) == 20
    ensures TotalWidth(PayloadFields(lobby)) == 8 * PAYLOAD_BYTES
  {
    WidthOfFour(Field(LOBBY_SYSTEM, 4), Field(0, 8), Field(4, 4), Field(PAYLOAD_BYTES, 4));
    WidthOfFour(Field(1, 1), Field(CONNECT_REPLY, 6), Field(lobby, 64), Field(0, 1));
    var none := Field(0, 0);
    WidthOfFour(none, Field(WIRE_PROTOCOL, 16), Field(0, 24), Field(peer, 64));
    WidthsAdd(none, HeaderFields(peer));
    assert [none] + HeaderFields(peer) == [none, Field(WIRE_PROTOCOL, 16), Field(0, 24), Field(peer, 64)];
  }

  /** Consecutive calls of append_bits. */
  method AppendFields(buffer: array<bv8>, bitOffset: nat, fields: seq<Field>) returns (ok: bool, newOffset: nat)
    requires forall k :: 0 <= k < |fields| ==> fields[k].width <= 64
    modifies buffer
    ensures ok <==> bitOffset + TotalWidth(fields) <= 8 * buffer.Length
    ensures ok ==> newOffset == bitOffset + TotalWidth(fields)
    ensures ok ==> BufferBits(buffer[..]) == OrFields(BufferBits(old(buffer[..])), bitOffset, fields)
    decreases |fields|
  {
    if fields == [] { return bitOffset <= 8 * buffer.Length, bitOffset; }
    ok, newOffset := AppendBits(buffer, bitOffset, fields[0].value, fields[0].width);
    if ok {
      ok, newOffset := AppendFields(buffer, newOffset, fields[1..]);
    }
  }

  /** The bits of bytes that are the same are the same. */
  lemma SameBytes(a: seq<bv8>, b: seq<bv8>, i: nat, at: nat, n: nat)
    requires i + n <= |a| && at + n <= |b| && a[i..i + n] == b[at..at + n]
    ensures BufferBits(a)[8 * i..8 * (i + n)] == BufferBits(b)[8 * at..8 * (at + n)]
  {
    var x, y := BufferBits(a)[8 * i..8 * (i + n)], BufferBits(b)[8 * at..8 * (at + n)];
    forall k | 0 <= k < 8 * n ensures x[k] == y[k] {
      assert a[i..i + n][k / 8] == b[at..at + n][k / 8];
      assert (8 * i + k) / 8 == i + k / 8 && (8 * i + k) % 8 == k % 8;
      assert (8 * at + k) / 8 == at + k / 8 && (8 * at + k) % 8 == k % 8;
    }
  }

  lemma SubSlice(a: seq<bool>, b: seq<bool>, from: nat, to: nat, low: nat, high: nat)
    requires from <= low <= high <= to <= |a| && to <= |b| && a[from..to] == b[from..to]
    ensures a[low..high] == b[low..high]
  {
    SliceOfSlice(a, from, to, low, high);
    SliceOfSlice(b, from, to, low, high);
  }

  lemma ZeroBits(s: seq<bv8>, from: nat)
    requires from <= |s| && forall i :: from <= i < |s| ==> s[i] == 0
    ensures forall i :: 8 * from <= i < 8 * |s| ==> !BufferBits(s)[i]
  {
    forall i | 8 * from <= i < 8 * |s| ensures !BufferBits(s)[i] {
      assert from <= i / 8 < |s|;
    }
  }

  method ZeroedBuffer(n: nat) returns (buffer: array<bv8>)
    ensures fresh(buffer) && buffer.Length == n && forall i :: 0 <= i < n ==> buffer[i] == 0
  {
    buffer := new bv8[n](_ => 0);
  }

  /** The reply's own fields, in a buffer of 16 bytes. */
  method BuildPayload(lobby: nat) returns (payload: array<bv8>)
    ensures fresh(payload) && payload.Length == 16
    ensures TotalWidth(PayloadFields(lobby)) == 72 && Holds(BufferBits(payload[..]), 0, PayloadFields(lobby))
  {
    payload := ZeroedBuffer(16);
    Widths(0, lobby);
    ZeroBits(payload[..], 0);
    ghost var zero := BufferBits(payload[..]);
    var ok, size := AppendFields(payload, 0, PayloadFields(lobby));
    FieldsRoundTrip(zero, 0, PayloadFields(lobby));
  }

  /** What a well-formed reply holds: header, account, the payload's size, and the payload. */
  ghost predicate Reply(packet: seq<bv8>, peer: nat, lobby: nat, account: seq<bv8>)
    requires |packet| >= PACKET_BYTES
  {
    Widths(peer, lobby);
    && Holds(BufferBits(packet), 0, HeaderFields(peer))
    && packet[HEADER_BYTES..SIZE_AT] == account
    && Holds(BufferBits(packet), 8 * SIZE_AT, SizeFields())
    && Holds(BufferBits(packet), 8 * PAYLOAD_AT, PayloadFields(lobby))
  }

  lemma HoldsElsewhere(a: seq<bool>, b: seq<bool>, offset: nat, at: nat, fields: seq<Field>)
    requires offset + TotalWidth(fields) <= |a| && at + TotalWidth(fields) <= |b| && Holds(a, offset, fields)
    requires a[offset..offset + TotalWidth(fields)] == b[at..at + TotalWidth(fields)]
    ensures Holds(b, at, fields)
  {
    ReadsSlice(a, b, offset, at, fields, TotalWidth(fields));
  }

  /** Unsigned subtraction of 64-bit sizes. */
  function SizeMinus(a: nat, b: nat): nat {
    (a - b) % 0x1_0000_0000_0000_0000
  }

  /** The test for room once the header is written. */
  predicate RoomForAccount(length: nat) {
    8 * HEADER_BYTES <= SizeMinus(length * 8, ACCOUNT_BYTES * 8)
  }

  lemma RoomForAccountIs(length: nat)
    requires length < 0x2000_0000_0000_0000
    ensures RoomForAccount(length) <==> length < ACCOUNT_BYTES || length >= HEADER_BYTES + ACCOUNT_BYTES
  {
  }

  /** `PastTheEnd`: the code would copy beyond the packet. */
  datatype Outcome = Built(size: nat) | Refused | PastTheEnd

  /**
   build_connect_reply_packet: it succeeds when the packet has room and there is an account id, and then every
   field reads back. A packet with room for the header but shorter than an account id passes the test for room,
   whose difference wraps around; the code's one caller has 69 bytes.
   */
  method BuildConnectReply(peer: nat, lobby: nat, account: Option<seq<bv8>>, packet: array<bv8>) returns (outcome: Outcome)
    requires account.Some? ==> |account.value| == ACCOUNT_BYTES
    requires packet.Length < 0x2000_0000_0000_0000
    modifies packet
    ensures outcome.Built? <==> packet.Length >= PACKET_BYTES && account.Some?
    ensures outcome.Built? ==> outcome.size == PACKET_BYTES && Reply(packet[..], peer, lobby, account.value)
    ensures outcome.PastTheEnd? <==> HEADER_BYTES <= packet.Length < ACCOUNT_BYTES && account.Some?
  {
    var payload := BuildPayload(lobby);
    RoomForAccountIs(packet.Length);
    var ok := WriteHeader(peer, packet);
    if !ok || account.None? || !RoomForAccount(packet.Length) { return Refused; }
    if packet.Length < ACCOUNT_BYTES { return PastTheEnd; }
    ok := WriteRest(peer, lobby, account.value, payload, packet);
    return if ok then Built(PACKET_BYTES) else Refused;
  }

  /** What follows the header: the account id, the sizes and the payload. */
  method WriteRest(ghost peer: nat, ghost lobby: nat, account: seq<bv8>, payload: array<bv8>, packet: array<bv8>) returns (ok: bool)
    requires |account| == ACCOUNT_BYTES && packet.Length >= HEADER_BYTES + ACCOUNT_BYTES
    requires payload != packet && payload.Length == 16
    requires TotalWidth(HeaderFields(peer)) == 104 && Holds(BufferBits(packet[..]), 0, HeaderFields(peer))
    requires TotalWidth(PayloadFields(lobby)) == 72 && Holds(BufferBits(payload[..]), 0, PayloadFields(lobby))
    requires forall i :: 8 * HEADER_BYTES <= i < 8 * packet.Length ==> !BufferBits(packet[..])[i]
    modifies packet
    ensures ok <==> packet.Length >= PACKET_BYTES
    ensures ok ==> Reply(packet[..], peer, lobby, account)
  {
    ghost var header := packet[..];
    CopyTo(packet, HEADER_BYTES, account);
    ghost var named := packet[..];
    assert named[HEADER_BYTES..SIZE_AT] == account;
    AccountKeepsBits(header, named);
    ok := WriteSizes(packet);
    if !ok || packet.Length < PACKET_BYTES { return false; }
    ghost var sized := packet[..];
    CopyTo(packet, PAYLOAD_AT, payload[..PAYLOAD_BYTES]);
    FinishReply(header, named, sized, packet[..], payload[..], peer, lobby);
    return true;
  }

  /** memcpy into the packet. */
  method CopyTo(packet: array<bv8>, at: nat, source: seq<bv8>)
    requires at + |source| <= packet.Length
    modifies packet
    ensures packet[..at] == old(packet[..at]) && packet[at + |source|..] == old(packet[at + |source|..])
    ensures packet[at..at + |source|] == source
  {
    forall i | 0 <= i < |source| { packet[at + i] := source[i]; }
  }

  method WriteHeader(peer: nat, packet: array<bv8>) returns (ok: bool)
    modifies packet
    ensures ok <==> packet.Length >= HEADER_BYTES
    ensures TotalWidth(HeaderFields(peer)) == 8 * HEADER_BYTES
    ensures ok ==> Holds(BufferBits(packet[..]), 0, HeaderFields(peer))
    ensures ok ==> forall i :: 8 * HEADER_BYTES <= i < 8 * packet.Length ==> !BufferBits(packet[..])[i]
  {
    forall i | 0 <= i < packet.Length { packet[i] := 0; }
    Widths(peer, 0);
    ZeroBits(packet[..], 0);
    ghost var zero := BufferBits(packet[..]);
    var written;
    ok, written := AppendFields(packet, 0, HeaderFields(peer));
    if ok {
      FieldsRoundTrip(zero, 0, HeaderFields(peer));
      OrFieldsRange(zero, 0, HeaderFields(peer));
    }
  }

  /** The three small fields and the payload's size, after the account id. */
  method WriteSizes(packet: array<bv8>) returns (ok: bool)
    requires packet.Length >= SIZE_AT
    requires forall i :: 8 * SIZE_AT <= i < 8 * packet.Length ==> !BufferBits(packet[..])[i]
    modifies packet
    ensures ok <==> packet.Length >= PAYLOAD_AT
    ensures TotalWidth(SizeFields()) == 20
    ensures ok ==> Holds(BufferBits(packet[..]), 8 * SIZE_AT, SizeFields())
    ensures ok ==> BufferBits(packet[..])[..8 * SIZE_AT] == BufferBits(old(packet[..]))[..8 * SIZE_AT]
  {
    Widths(0, 0);
    ghost var before := BufferBits(packet[..]);
    var written;
    ok, written := AppendFields(packet, 8 * SIZE_AT, SizeFields());
    if ok { FieldsRoundTrip(before, 8 * SIZE_AT, SizeFields()); }
  }

  /** The account id leaves the bits before it, and the zeros after it. */
  lemma AccountKeepsBits(before: seq<bv8>, after: seq<bv8>)
    requires |before| == |after| >= SIZE_AT
    requires before[..HEADER_BYTES] == after[..HEADER_BYTES] && before[SIZE_AT..] == after[SIZE_AT..]
    requires forall i :: 8 * HEADER_BYTES <= i < 8 * |before| ==> !BufferBits(before)[i]
    ensures BufferBits(after)[0..8 * HEADER_BYTES] == BufferBits(before)[0..8 * HEADER_BYTES]
    ensures forall i :: 8 * SIZE_AT <= i < 8 * |after| ==> !BufferBits(after)[i]
  {
    var tail := |after| - SIZE_AT;
    assert before[0..0 + HEADER_BYTES] == before[..HEADER_BYTES] && after[0..0 + HEADER_BYTES] == after[..HEADER_BYTES];
    assert before[SIZE_AT..SIZE_AT + tail] == before[SIZE_AT..] && after[SIZE_AT..SIZE_AT + tail] == after[SIZE_AT..];
    SameBytes(before, after, 0, 0, HEADER_BYTES);
    SameBytes(before, after, SIZE_AT, SIZE_AT, tail);
    var x, y := BufferBits(before)[8 * SIZE_AT..8 * |before|], BufferBits(after)[8 * SIZE_AT..8 * |after|];
    forall i | 8 * SIZE_AT <= i < 8 * |after| ensures !BufferBits(after)[i] {
      assert y[i - 8 * SIZE_AT] == x[i - 8 * SIZE_AT];
    }
  }

  /** Equal bits come from equal bytes. */
  lemma BytesOfBits(before: seq<bv8>, after: seq<bv8>, n: nat)
    requires |before| == |after| >= n && BufferBits(after)[..8 * n] == BufferBits(before)[..8 * n]
    ensures after[..n] == before[..n]
  {
    forall i | 0 <= i < n ensures after[i] == before[i] {
      forall k | 0 <= k < 8 ensures TestBit(after[i], k) == TestBit(before[i], k) {
        assert (8 * i + k) / 8 == i && (8 * i + k) % 8 == k;
        assert BufferBits(after)[..8 * n][8 * i + k] == BufferBits(before)[..8 * n][8 * i + k];
      }
      SameBits(after[i], before[i]);
    }
  }

  lemma SameBits(a: bv8, b: bv8)
    requires forall k :: 0 <= k < 8 ==> TestBit(a, k) == TestBit(b, k)
    ensures a == b
  {
    assert TestBit(a, 0) == TestBit(b, 0) && TestBit(a, 1) == TestBit(b, 1) && TestBit(a, 2) == TestBit(b, 2);
    assert TestBit(a, 3) == TestBit(b, 3) && TestBit(a, 4) == TestBit(b, 4) && TestBit(a, 5) == TestBit(b, 5);
    assert TestBit(a, 6) == TestBit(b, 6) && TestBit(a, 7) == TestBit(b, 7);
  }

  /** Later parts leave what earlier ones wrote. */
  lemma FinishReply(header: seq<bv8>, named: seq<bv8>, sized: seq<bv8>, packet: seq<bv8>, payload: seq<bv8>, peer: nat, lobby: nat)
    requires |header| == |named| == |sized| == |packet| >= PACKET_BYTES && |payload| == 16
    requires BufferBits(named)[0..8 * HEADER_BYTES] == BufferBits(header)[0..8 * HEADER_BYTES]
    requires BufferBits(sized)[..8 * SIZE_AT] == BufferBits(named)[..8 * SIZE_AT]
    requires packet[..PAYLOAD_AT] == sized[..PAYLOAD_AT] && packet[PAYLOAD_AT..PACKET_BYTES] == payload[..PAYLOAD_BYTES]
    requires TotalWidth(HeaderFields(peer)) == 104 && TotalWidth(SizeFields()) == 20 && TotalWidth(PayloadFields(lobby)) == 72
    requires Holds(BufferBits(header), 0, HeaderFields(peer)) && Holds(BufferBits(sized), 8 * SIZE_AT, SizeFields())
    requires Holds(BufferBits(payload), 0, PayloadFields(lobby))
    ensures Reply(packet, peer, lobby, named[HEADER_BYTES..SIZE_AT])
  {
    var h, n, s, p := BufferBits(header), BufferBits(named), BufferBits(sized), BufferBits(packet);
    assert packet[0..0 + PAYLOAD_AT] == packet[..PAYLOAD_AT] && sized[0..0 + PAYLOAD_AT] == sized[..PAYLOAD_AT];
    SameBytes(sized, packet, 0, 0, PAYLOAD_AT);
    assert s[0..8 * SIZE_AT] == n[0..8 * SIZE_AT];
    SubSlice(s, n, 0, 8 * SIZE_AT, 0, 104);
    SubSlice(p, s, 0, 8 * PAYLOAD_AT, 0, 104);
    HoldsElsewhere(h, p, 0, 0, HeaderFields(peer));
    SubSlice(p, s, 0, 8 * PAYLOAD_AT, 400, 420);
    HoldsElsewhere(s, p, 400, 400, SizeFields());
    assert payload[0..0 + PAYLOAD_BYTES] == payload[..PAYLOAD_BYTES];
    SameBytes(payload, packet, 0, PAYLOAD_AT, PAYLOAD_BYTES);
    HoldsElsewhere(BufferBits(payload), p, 0, 424, PayloadFields(lobby));
    AccountStays(named, sized, packet);
  }

  lemma AccountStays(named: seq<bv8>, sized: seq<bv8>, packet: seq<bv8>)
    requires |named| == |sized| == |packet| >= PACKET_BYTES && packet[..PAYLOAD_AT] == sized[..PAYLOAD_AT]
    requires BufferBits(sized)[..8 * SIZE_AT] == BufferBits(named)[..8 * SIZE_AT]
    ensures packet[HEADER_BYTES..SIZE_AT] == named[HEADER_BYTES..SIZE_AT]
  {
    BytesOfBits(named, sized, SIZE_AT);
    assert packet[HEADER_BYTES..SIZE_AT] == packet[..PAYLOAD_AT][HEADER_BYTES..SIZE_AT];
    assert sized[HEADER_BYTES..SIZE_AT] == sized[..PAYLOAD_AT][HEADER_BYTES..SIZE_AT] == sized[..SIZE_AT][HEADER_BYTES..];
    assert named[HEADER_BYTES..SIZE_AT] == named[..SIZE_AT][HEADER_BYTES..];
  }
}
