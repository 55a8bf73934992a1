/** LSB-first bit packing: `append_bits` of realms_protocol.cpp and the engine's bit reader. */
module Bits {

  type Byte = n: nat | n < 256

  function Pow2(n: nat): (p: nat)
    ensures p > 0
  {
    if n == 0 then 1 else 2 * Pow2(n - 1)
  }

  lemma Pow2Small()
    ensures Pow2(2) == 4 && Pow2(6) == 64 && Pow2(8) == 256
  {
    assert Pow2(1) == 2;
    assert Pow2(2) == 4;
    assert Pow2(4) == 16;
    assert Pow2(6) == 64;
  }

  /** Bit `i` of `v`, counted from the least significant one. */
  predicate BitOf(v: nat, i: nat) {
    if i == 0 then v % 2 == 1 else BitOf(v / 2, i - 1)
  }

  /** The `n` low bits of `v`, least significant first. */
  function LowBits(v: nat, n: nat): (bits: seq<bool>)
    ensures |bits| == n
  {
    if n == 0 then [] else [v % 2 == 1] + LowBits(v / 2, n - 1)
  }

  /** The number a bit sequence denotes, least significant bit first. */
  function Value(bits: seq<bool>): nat {
    if bits == [] then 0 else (if bits[0] then 1 else 0) + 2 * Value(bits[1..])
  }

  lemma {:induction false} LowBitsAt(v: nat, n: nat, i: nat)
    requires i < n
    ensures LowBits(v, n)[i] == BitOf(v, i)
  {
    if i > 0 { LowBitsAt(v / 2, n - 1, i - 1); }
  }

  lemma {:induction false} ModPow2Step(v: nat, n: nat)
    requires n > 0
    ensures v % Pow2(n) == v % 2 + 2 * ((v / 2) % Pow2(n - 1))
  {
    var p := Pow2(n - 1);
    var q, r := (v / 2) / p, (v / 2) % p;
    assert v == 2 * (q * p + r) + v % 2;
    assert v == q * (2 * p) + (2 * r + v % 2);
    ModUnique(v, 2 * p, q, 2 * r + v % 2);
  }

  lemma MulMonotone(a: int, b: int, m: nat)
    requires a <= b
    ensures a * m <= b * m
  {
    assert (b - a) * m >= 0;
  }

  lemma ModUnique(v: nat, m: nat, q: nat, r: nat)
    requires m > 0 && v == q * m + r && r < m
    ensures v % m == r && v / m == q
  {
    var d := v / m;
    assert v == d * m + v % m;
    if q < d { MulMonotone(q + 1, d, m); }
    if d < q { MulMonotone(d + 1, q, m); }
  }

  /** Reading `n` packed bits back gives the value modulo 2^n. */
  lemma {:induction false} ValueOfLowBits(v: nat, n: nat)
    ensures Value(LowBits(v, n)) == v % Pow2(n)
  {
    if n > 0 {
      ValueOfLowBits(v / 2, n - 1);
      ModPow2Step(v, n);
      assert LowBits(v, n)[1..] == LowBits(v / 2, n - 1);
    }
  }

  /** Packing is injective on bit sequences: value then bits is the identity. */
  lemma {:induction false} LowBitsOfValue(bits: seq<bool>)
    ensures LowBits(Value(bits), |bits|) == bits
    ensures Value(bits) < Pow2(|bits|)
  {
    if bits != [] {
      LowBitsOfValue(bits[1..]);
      var v := Value(bits);
      assert v / 2 == Value(bits[1..]);
      assert bits == [bits[0]] + bits[1..];
    }
  }

  /** `v` without its `n` low bits. */
  function Shift(v: nat, n: nat): nat {
    if n == 0 then v else Shift(v / 2, n - 1)
  }

  /** Low bits split at any width: the wide word is the narrow one followed by the rest. */
  lemma {:induction false} LowBitsSplit(v: nat, n: nat, m: nat)
    ensures LowBits(v, n + m) == LowBits(v, n) + LowBits(Shift(v, n), m)
  {
    if n > 0 {
      LowBitsSplit(v / 2, n - 1, m);
      assert LowBits(v, n + m) == [v % 2 == 1] + LowBits(v / 2, n - 1 + m);
    }
  }

  lemma {:induction false} ShiftIsDivision(v: nat, n: nat)
    ensures Shift(v, n) == v / Pow2(n)
  {
    if n == 0 {
      assert v / 1 == v;
    } else {
      ShiftIsDivision(v / 2, n - 1);
      DivPow2(v, n);
    }
  }

  lemma DivPow2(v: nat, n: nat)
    requires n > 0
    ensures v / Pow2(n) == (v / 2) / Pow2(n - 1)
  {
    var p := Pow2(n - 1);
    var q, r := (v / 2) / p, (v / 2) % p;
    assert v == q * (2 * p) + (2 * r + v % 2);
    ModUnique(v, 2 * p, q, 2 * r + v % 2);
  }

  lemma LowBitsMod(v: nat, n: nat)
    ensures LowBits(v, n) == LowBits(v % Pow2(n), n)
  {
    LowBitsOfValue(LowBits(v, n));
    ValueOfLowBits(v, n);
  }

  /** A byte-aligned word is its lowest byte followed by the rest. */
  lemma LowBitsByte(v: nat, m: nat)
    ensures LowBits(v, 8 + m) == LowBits(v % 256, 8) + LowBits(v / 256, m)
  {
    LowBitsSplit(v, 8, m);
    ShiftIsDivision(v, 8);
    LowBitsMod(v, 8);
    Pow2Small();
  }

  // ---------------------------------------------------------------- byte buffers

  predicate TestBit(b: bv8, k: nat)
    requires k < 8
  {
    b & ((1 as bv8) << k) != 0
  }

  /** The bits of a byte buffer, bit 0 of byte 0 first. */
  ghost function BufferBits(s: seq<bv8>): (bits: seq<bool>)
    ensures |bits| == 8 * |s|
  {
    seq(8 * |s|, i requires 0 <= i < 8 * |s| => TestBit(s[i / 8], i % 8))
  }

  function SetBit(b: bv8, k: nat): bv8
    requires k < 8
  {
    b | ((1 as bv8) << k)
  }

  lemma OrSetsOneBit(b: bv8, k: nat, j: nat)
    requires k < 8 && j < 8
    ensures TestBit(SetBit(b, k), j) == (j == k || TestBit(b, j))
  {
  }

  /** `bits` with the low bits of `value` or-ed in from `offset` on. */
  ghost function OrBits(bits: seq<bool>, offset: nat, value: nat, count: nat): (merged: seq<bool>)
    requires offset + count <= |bits|
    ensures |merged| == |bits|
  {
    seq(|bits|, i requires 0 <= i < |bits| =>
      bits[i] || (offset <= i < offset + count && BitOf(value, i - offset)))
  }

  /** realms_protocol.cpp:10-25. A null buffer or offset pointer has no counterpart here. */
  method AppendBits(buffer: array<bv8>, bitOffset: nat, value: nat, bitCount: nat)
    returns (ok: bool, newOffset: nat)
    modifies buffer
    ensures ok <==> bitCount <= 64 && bitOffset + bitCount <= 8 * buffer.Length
    ensures newOffset == if ok then bitOffset + bitCount else bitOffset
    ensures !ok ==> buffer[..] == old(buffer[..])
    ensures ok ==> BufferBits(buffer[..]) == OrBits(BufferBits(old(buffer[..])), bitOffset, value, bitCount)
  {
    if bitCount > 64 || bitOffset > buffer.Length * 8 || bitCount > buffer.Length * 8 - bitOffset {
      return false, bitOffset;
    }
    ghost var before := buffer[..];
    for index := 0 to bitCount
      invariant BufferBits(buffer[..]) == OrBits(BufferBits(before), bitOffset, value, index)
    {
      ghost var previous := buffer[..];
      var destination := bitOffset + index;
      if BitOf(value, index) {
        buffer[destination / 8] := SetBit(buffer[destination / 8], destination % 8);
        SetBitInBuffer(previous, destination);
        assert buffer[..] == previous[destination / 8 := SetBit(previous[destination / 8], destination % 8)];
      }
      OrBitsStep(BufferBits(before), bitOffset, value, index);
    }
    return true, bitOffset + bitCount;
  }

  /** Setting bit d % 8 of byte d / 8 sets bit d of the buffer and no other. */
  lemma SetBitInBuffer(s: seq<bv8>, d: nat)
    requires d < 8 * |s|
    ensures BufferBits(s[d / 8 := SetBit(s[d / 8], d % 8)]) == BufferBits(s)[d := true]
  {
    var after := s[d / 8 := SetBit(s[d / 8], d % 8)];
    forall i | 0 <= i < 8 * |s|
      ensures BufferBits(after)[i] == BufferBits(s)[d := true][i]
    {
      if i / 8 == d / 8 { OrSetsOneBit(s[d / 8], d % 8, i % 8); }
    }
  }

  lemma OrBitsStep(bits: seq<bool>, offset: nat, value: nat, count: nat)
    requires offset + count < |bits|
    ensures OrBits(bits, offset, value, count + 1)
         == if BitOf(value, count) then OrBits(bits, offset, value, count)[offset + count := true]
            else OrBits(bits, offset, value, count)
  {
  }

  // ---------------------------------------------------------------- lists of fields

  datatype Field = Field(value: nat, width: nat)

  function TotalWidth(fields: seq<Field>): nat {
    if fields == [] then 0 else fields[0].width + TotalWidth(fields[1..])
  }

  /** The buffer after appending every field in turn. */
  ghost function OrFields(bits: seq<bool>, offset: nat, fields: seq<Field>): (merged: seq<bool>)
    requires offset + TotalWidth(fields) <= |bits|
    ensures |merged| == |bits|
    decreases |fields|
  {
    if fields == [] then bits
    else OrFields(OrBits(bits, offset, fields[0].value, fields[0].width), offset + fields[0].width, fields[1..])
  }

  /** What an LSB-first reader returns for consecutive fields of the given widths. */
  ghost function ReadFields(bits: seq<bool>, offset: nat, fields: seq<Field>): (values: seq<nat>)
    requires offset + TotalWidth(fields) <= |bits|
    ensures |values| == |fields|
    decreases |fields|
  {
    if fields == [] then []
    else [Value(bits[offset..offset + fields[0].width])] + ReadFields(bits, offset + fields[0].width, fields[1..])
  }

  /** Appending touches only its own range, and in a zeroed range stores exactly the concatenated low bits. */
  lemma {:induction false} OrFieldsRange(bits: seq<bool>, offset: nat, fields: seq<Field>)
    requires offset + TotalWidth(fields) <= |bits|
    requires forall i :: offset <= i < |bits| ==> !bits[i]
    ensures forall i :: 0 <= i < offset ==> OrFields(bits, offset, fields)[i] == bits[i]
    ensures forall i :: offset + TotalWidth(fields) <= i < |bits| ==> !OrFields(bits, offset, fields)[i]
    decreases |fields|
  {
    if fields != [] {
      OrFieldsRange(OrBits(bits, offset, fields[0].value, fields[0].width), offset + fields[0].width, fields[1..]);
    }
  }

  /** Every field appended to a zeroed range reads back modulo 2^width, and earlier bits are untouched. */
  lemma {:induction false} FieldsRoundTrip(bits: seq<bool>, offset: nat, fields: seq<Field>)
    requires offset + TotalWidth(fields) <= |bits|
    requires forall i :: offset <= i < |bits| ==> !bits[i]
    ensures OrFields(bits, offset, fields)[..offset] == bits[..offset]
    ensures forall k :: 0 <= k < |fields| ==>
              ReadFields(OrFields(bits, offset, fields), offset, fields)[k] == fields[k].value % Pow2(fields[k].width)
    decreases |fields|
  {
    OrFieldsRange(bits, offset, fields);
    if fields != [] {
      var f := fields[0];
      var next := offset + f.width;
      var step := OrBits(bits, offset, f.value, f.width);
      FieldsRoundTrip(step, next, fields[1..]);
      var final := OrFields(bits, offset, fields);
      forall i | 0 <= i < f.width
        ensures final[offset + i] == LowBits(f.value, f.width)[i]
      {
        assert final[..next][offset + i] == step[..next][offset + i];
        LowBitsAt(f.value, f.width, i);
      }
      assert final[offset..next] == LowBits(f.value, f.width);
      ValueOfLowBits(f.value, f.width);
    }
  }
}
