/**
 The capture queue of log_capture_windows.c: a wrapping byte ring of length-prefixed records. `records` is what
 the bytes stand for; `accepted` and `popped` are all the bytes ever queued and taken out.
 */
module LogRing {
  import opened Common

  type byte = b: int | 0 <= b < 256

  const QUEUE_BYTES: int := 524288
  const RECORD_BYTES: int := 65536

  /** A record's length as the four bytes of a little-endian uint32. */
  function Prefix(n: nat): (bytes: seq<byte>)
    ensures |bytes| == 4
  {
    [n % 256, n / 256 % 256, n / 65536 % 256, n / 16777216 % 256]
  }

  function Length(bytes: seq<byte>): nat
    requires |bytes| == 4
  {
    var b0: int, b1: int, b2: int, b3: int := bytes[0], bytes[1], bytes[2], bytes[3];
    b0 + 256 * b1 + 65536 * b2 + 16777216 * b3
  }

  lemma LengthOfPrefix(n: nat)
    requires n < 4294967296
    ensures Length(Prefix(n)) == n
  {
    assert n == n % 256 + 256 * (n / 256);
    assert n / 256 == n / 256 % 256 + 256 * (n / 65536);
    assert n / 65536 == n / 65536 % 256 + 256 * (n / 16777216);
    assert n / 16777216 < 256;
  }

  function Framed(record: seq<byte>): seq<byte> {
    Prefix(|record|) + record
  }

  function Encoding(records: seq<seq<byte>>): seq<byte> {
    if records == [] then [] else Framed(records[0]) + Encoding(records[1..])
  }

  lemma {:induction false} EncodingAppend(a: seq<seq<byte>>, record: seq<byte>)
    ensures Encoding(a + [record]) == Encoding(a) + Framed(record)
  {
    if a == [] {
      assert [record][1..] == [] && [] + [record] == [record];
    } else {
      assert (a + [record])[0] == a[0] && (a + [record])[1..] == a[1..] + [record];
      EncodingAppend(a[1..], record);
      Associative(Framed(a[0]), Encoding(a[1..]), Framed(record));
    }
  }

  ghost predicate WholeRecords(records: seq<seq<byte>>) {
    forall i :: 0 <= i < |records| ==> 1 <= |records[i]| <= RECORD_BYTES
  }

  /** The bytes from `from`, wrapping, `count` of them. */
  ghost function Wrapped(raw: seq<byte>, from: nat, count: nat): (bytes: seq<byte>)
    requires |raw| == QUEUE_BYTES && from < QUEUE_BYTES && count <= QUEUE_BYTES
    ensures |bytes| == count
    ensures forall i :: 0 <= i < count ==> bytes[i] == raw[Place(from, i)]
  {
    seq(count, i requires 0 <= i < count => raw[Place(from, i)])
  }

  /** `i` places after `from`. */
  function Place(from: nat, i: nat): (place: nat)
    requires from < QUEUE_BYTES && i <= QUEUE_BYTES
    ensures place < QUEUE_BYTES && place == (from + i) % QUEUE_BYTES
  {
    if from + i < QUEUE_BYTES then from + i else from + i - QUEUE_BYTES
  }

  lemma PlaceTwice(from: nat, i: nat, j: nat)
    requires from < QUEUE_BYTES && i + j <= QUEUE_BYTES
    ensures Place(Place(from, i), j) == Place(from, i + j)
  {
  }

  class CaptureQueue {
    const raw: array<byte>
    var read: nat
    var write: nat
    var used: nat
    var dropped: nat
    ghost var records: seq<seq<byte>>
    ghost var accepted: seq<byte>
    ghost var popped: seq<byte>

    ghost predicate Placed()
      reads this
    {
      raw.Length == QUEUE_BYTES && read < QUEUE_BYTES && used <= QUEUE_BYTES && write == Place(read, used)
    }

    ghost function Contents(): seq<byte>
      requires Placed()
      reads this, raw
    {
      Wrapped(raw[..], read, used)
    }

    /** The ring holds whole records, and no byte is lost, repeated or out of order. */
    ghost predicate Valid()
      reads this, raw
    {
      && Placed() && WholeRecords(records) && Contents() == Encoding(records)
      && accepted == popped + Flatten(records)
    }

    constructor ()
      ensures Valid() && records == [] && accepted == [] && dropped == 0
    {
      raw := new byte[QUEUE_BYTES](i => 0);
      read, write, used, dropped, records, accepted, popped := 0, 0, 0, 0, [], [], [];
    }

    /** queue_copy_in: up to the end of the array, then from its start. */
    method CopyIn(source: seq<byte>)
      requires Placed() && used + |source| <= QUEUE_BYTES
      modifies this`write, this`used, raw
      ensures Placed() && used == old(used) + |source| && Contents() == old(Contents()) + source
    {
      ghost var before := raw[..];
      var first := if QUEUE_BYTES - write > |source| then |source| else QUEUE_BYTES - write;
      forall i | 0 <= i < first { raw[write + i] := source[i]; }
      forall i | 0 <= i < |source| - first { raw[i] := source[first + i]; }
      assert CopiedIn(before, raw[..], write, source) by {
        forall i | 0 <= i < |source| ensures raw[Place(write, i)] == source[i] {
          if i >= first { assert raw[i - first] == source[first + (i - first)]; }
        }
      }
      CopyInAppends(before, raw[..], read, used, source);
      write := (write + |source|) % QUEUE_BYTES;
      used := used + |source|;
    }

    /** queue_copy_out. */
    method CopyOut(length: nat) returns (destination: seq<byte>)
      requires Placed() && length <= used
      modifies this`read, this`used
      ensures Placed() && used == old(used) - length && |destination| == length
      ensures old(Contents()) == destination + Contents()
    {
      var first := if QUEUE_BYTES - read > length then length else QUEUE_BYTES - read;
      destination := raw[read..read + first] + raw[..length - first];
      assert destination == Wrapped(raw[..], read, length);
      CopyOutSplits(raw[..], read, used, length);
      read := (read + length) % QUEUE_BYTES;
      used := used - length;
    }

    /** capture_bytes: the whole write is queued as records, or all of it counts as dropped. `locked` is the lock's answer. */
    method CaptureBytes(source: seq<byte>, enabled: bool, locked: bool)
      requires Valid()
      modifies this, raw
      ensures Valid() && popped == old(popped)
      ensures
        || (accepted == old(accepted) + source && dropped == old(dropped))
        || (accepted == old(accepted) && records == old(records) && dropped == old(dropped) + if enabled then |source| else 0)
      ensures enabled && locked && source != [] && RequiredSize(|source|) <= QUEUE_BYTES - |old(Contents())| ==>
                accepted == old(accepted) + source
    {
      if source == [] || !enabled {
        assert accepted + [] == accepted;
        return;
      }
      var recordCount := (|source| - 1) / RECORD_BYTES + 1;
      var required := |source| + recordCount * 4;
      if required > QUEUE_BYTES || !locked || required > QUEUE_BYTES - used {
        dropped := dropped + |source|;
        return;
      }
      var cursor, remaining := 0, |source|;
      assert source[..0] == [];
      while remaining > 0
        invariant 0 <= cursor && 0 <= remaining && cursor + remaining == |source| && Valid() && popped == old(popped) && dropped == old(dropped)
        invariant accepted == old(accepted) + source[..cursor]
        invariant used + remaining + RecordCount(remaining) * 4 <= QUEUE_BYTES
      {
        var length := if remaining > RECORD_BYTES then RECORD_BYTES else remaining;
        var record := source[cursor..cursor + length];
        RecordCountLess(remaining);
        AddRecord(record);
        assert source[..cursor + length] == source[..cursor] + record;
        Associative(old(accepted), source[..cursor], record);
        cursor, remaining := cursor + length, remaining - length;
      }
      assert source[..cursor] == source;
    }

    method AddRecord(record: seq<byte>)
      requires Valid() && 1 <= |record| <= RECORD_BYTES && used + 4 + |record| <= QUEUE_BYTES
      modifies this`write, this`used, this`records, this`accepted, raw
      ensures Valid() && used == old(used) + 4 + |record|
      ensures records == old(records) + [record] && accepted == old(accepted) + record
    {
      RecordAdded(records, record, popped);
      CopyIn(Prefix(|record|));
      Associative(Encoding(records), Prefix(|record|), record);
      CopyIn(record);
      records, accepted := records + [record], accepted + record;
    }

    /** LuaExecLogCapture_Pop: -1 only for a record longer than the caller's buffer, so never for 64 KiB. */
    method Pop(bufferSize: nat) returns (result: int, data: seq<byte>, droppedSince: nat)
      requires Valid()
      modifies this
      ensures droppedSince == old(dropped) && dropped == 0
      ensures result == if old(records) == [] then 0 else if |old(records)[0]| > bufferSize then -1 else 1
      ensures result != -1 ==> Valid() && accepted == old(accepted) && popped == old(popped) + data
      ensures result == 1 ==> old(records) == [data] + records
      ensures result == 0 ==> records == old(records) && data == []
      ensures bufferSize >= RECORD_BYTES ==> result != -1
      ensures result == -1 ==> Placed() && data == [] && Contents() == old(Contents())[4..]
    {
      droppedSince, dropped := dropped, 0;
      if used < 4 {
        NoRecord(records);
        assert popped + [] == popped;
        return 0, [], droppedSince;
      }
      ghost var first, rest := records[0], records[1..];
      FirstRecord(records);
      var prefix := CopyOut(4);
      SplitSame(prefix, Contents(), Prefix(|first|), first + Encoding(rest));
      assert (prefix + Contents())[4..] == Contents();
      LengthOfPrefix(|first|);
      var length := Length(prefix);
      if length > bufferSize || length > used { return -1, [], droppedSince; }
      data := CopyOut(length);
      SplitSame(data, Contents(), first, Encoding(rest));
      assert records == [data] + rest;
      Associative(popped, data, Flatten(rest));
      records, popped := rest, popped + data;
      return 1, data, droppedSince;
    }
  }

  // ---------------------------------------------------------------- the ring's arithmetic

  /** The places that writing `count` bytes at `write` touches. */
  ghost predicate InRun(write: nat, count: nat, place: nat) {
    (write <= place < write + count) || place + QUEUE_BYTES < write + count
  }

  ghost predicate CopiedIn(before: seq<byte>, after: seq<byte>, write: nat, source: seq<byte>)
    requires write < QUEUE_BYTES && |source| <= QUEUE_BYTES
  {
    && |before| == |after| == QUEUE_BYTES
    && (forall i :: 0 <= i < |source| ==> after[Place(write, i)] == source[i])
    && (forall p :: 0 <= p < QUEUE_BYTES && !InRun(write, |source|, p) ==> after[p] == before[p])
  }

  lemma CopyInAppends(before: seq<byte>, after: seq<byte>, read: nat, used: nat, source: seq<byte>)
    requires read < QUEUE_BYTES && used + |source| <= QUEUE_BYTES && CopiedIn(before, after, Place(read, used), source)
    ensures Wrapped(after, read, used + |source|) == Wrapped(before, read, used) + source
    ensures (Place(read, used) + |source|) % QUEUE_BYTES == Place(read, used + |source|)
  {
    var all, old_ := Wrapped(after, read, used + |source|), Wrapped(before, read, used);
    forall i | 0 <= i < used + |source| ensures all[i] == (old_ + source)[i] {
      if i < used {
        assert !InRun(Place(read, used), |source|, Place(read, i));
      } else {
        PlaceTwice(read, used, i - used);
        assert after[Place(Place(read, used), i - used)] == source[i - used];
      }
    }
    PlaceTwice(read, used, |source|);
  }

  lemma CopyOutSplits(raw: seq<byte>, read: nat, used: nat, length: nat)
    requires |raw| == QUEUE_BYTES && read < QUEUE_BYTES && length <= used <= QUEUE_BYTES
    ensures Wrapped(raw, read, used) == Wrapped(raw, read, length) + Wrapped(raw, Place(read, length), used - length)
    ensures Place(Place(read, length), used - length) == Place(read, used)
  {
    var all, front, back := Wrapped(raw, read, used), Wrapped(raw, read, length), Wrapped(raw, Place(read, length), used - length);
    forall i | 0 <= i < used ensures all[i] == (front + back)[i] {
      if i >= length { PlaceTwice(read, length, i - length); }
    }
    PlaceTwice(read, length, used - length);
  }

  lemma RecordAdded(records: seq<seq<byte>>, record: seq<byte>, popped: seq<byte>)
    ensures Encoding(records + [record]) == Encoding(records) + (Prefix(|record|) + record)
    ensures popped + Flatten(records + [record]) == popped + Flatten(records) + record
  {
    EncodingAppend(records, record);
    FlattenAppend(records, [record]);
    Associative(popped, Flatten(records), record);
    assert [record][1..] == [] && Flatten([record]) == record + Flatten([]) == record;
  }

  function RecordCount(length: nat): nat {
    if length == 0 then 0 else (length - 1) / RECORD_BYTES + 1
  }

  function RequiredSize(length: nat): nat {
    length + RecordCount(length) * 4
  }

  lemma RecordCountLess(remaining: nat)
    requires remaining > 0
    ensures RecordCount(remaining) == 1 + RecordCount(if remaining > RECORD_BYTES then remaining - RECORD_BYTES else 0)
  {
  }

  lemma FirstRecord(records: seq<seq<byte>>)
    requires records != []
    ensures Encoding(records) == Prefix(|records[0]|) + (records[0] + Encoding(records[1..]))
  {
    Associative(Prefix(|records[0]|), records[0], Encoding(records[1..]));
  }

  lemma NoRecord(records: seq<seq<byte>>)
    requires |Encoding(records)| < 4
    ensures records == []
  {
  }

  lemma SplitSame<T>(a: seq<T>, b: seq<T>, c: seq<T>, d: seq<T>)
    requires a + b == c + d && |a| == |c|
    ensures a == c && b == d
  {
    assert a == (a + b)[..|a|] && c == (c + d)[..|c|];
    assert b == (a + b)[|a|..] && d == (c + d)[|c|..];
  }
}
