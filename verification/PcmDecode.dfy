/**
 The two producers of a cached asset, the background build (pcm_cache.go) and the first play's capture
 (pcm_capture.go, file_playback.go), and the reader of a cached asset (pcm_memory_decoder.go). A decoder is
 abstract: what is left of the stream, and a script of how much each read yields. Unless a build is `calm`,
 the cache may close, and reservations and allocations may fail, at any point.
 */
module PcmDecode {
  import opened Common

  /** One sample per channel. */
  type Frame = seq<int>

  const BUFFER_FRAMES: int := 4096

  /**
   One answer of a decoder: at most `limit` frames, or an error. `eager` announces the end with the last frame;
   otherwise a read that comes short of what it may yield does.
   */
  datatype Answer = Answer(limit: nat, eager: bool, fails: bool)

  class FileDecoder {
    var rest: seq<Frame>
    var script: seq<Answer>

    constructor (stream: seq<Frame>, script: seq<Answer>)
      ensures rest == stream && this.script == script
    {
      rest, this.script := stream, script;
    }

    /** Every read yields as many frames as asked, or the rest and says so: StreamDecode.Decoder without stalls. */
    ghost predicate Reliable()
      reads this
    {
      forall i :: 0 <= i < |script| ==> !script[i].fails && !script[i].eager && script[i].limit >= BUFFER_FRAMES
    }

    /** A read yields the next frames of the stream, and says `finished` only once none is left. */
    method Read(maxFrames: int) returns (ok: bool, frames: seq<Frame>, finished: bool)
      modifies this
      ensures old(rest) == frames + rest && (finished ==> ok && rest == [])
      ensures if ok then maxFrames > 0 && |frames| <= maxFrames else frames == []
      ensures |rest| + |script| < |old(rest)| + |old(script)| || (ok && |frames| == 0 && finished) || !ok
      ensures old(Reliable()) ==> Reliable()
      ensures old(Reliable()) && 0 < maxFrames <= BUFFER_FRAMES ==>
                ok && (finished <==> |frames| < maxFrames) && (finished ==> rest == [])
    {
      if maxFrames <= 0 { return false, [], false; }
      var answer := if script == [] then Answer(maxFrames, false, false) else script[0];
      if script != [] { script := script[1..]; }
      if answer.fails { return false, [], false; }
      var most := if answer.limit < maxFrames then answer.limit else maxFrames;
      var n := if most < |rest| then most else |rest|;
      frames := rest[..n];
      rest := rest[n..];
      finished := rest == [] && (answer.eager || n == 0 || n < most);
      return true, frames, finished;
    }
  }

  // ---------------------------------------------------------------- what an asset must be

  function Skip(stream: seq<Frame>, n: int): seq<Frame> {
    if n <= 0 then stream else if n < |stream| then stream[n..] else []
  }

  function Clip(stream: seq<Frame>, limit: Option<int>): seq<Frame> {
    if limit.None? || |stream| <= limit.value then stream else if limit.value <= 0 then [] else stream[..limit.value]
  }

  function StartFrame(pos: real, rate: nat): int {
    (pos * rate as real).Floor
  }

  function FrameLimit(duration: real, rate: nat): Option<int> {
    if duration < 0.0 then None else Some((duration * rate as real).Floor)
  }

  /** The file's frames from floor(pos * rate), at most floor(duration * rate) of them. */
  function Selection(stream: seq<Frame>, pos: real, duration: real, rate: nat): seq<Frame> {
    Clip(Skip(stream, StartFrame(pos, rate)), FrameLimit(duration, rate))
  }

  /** A range is whole frames: from the last at or before its position, and as many as begin within its duration. */
  lemma RangeIs(pos: real, duration: real, rate: nat)
    ensures var start := StartFrame(pos, rate); start as real <= pos * rate as real < (start + 1) as real
    ensures duration < 0.0 <==> FrameLimit(duration, rate).None?
    ensures duration >= 0.0 ==>
              var limit := FrameLimit(duration, rate).value; limit as real <= duration * rate as real < (limit + 1) as real
  {
  }

  /** The selection, frame by frame. */
  lemma SelectionIs(stream: seq<Frame>, pos: real, duration: real, rate: nat, i: nat)
    ensures
      var first := if StartFrame(pos, rate) > 0 then StartFrame(pos, rate) else 0;
      var chosen := i + first < |stream| && (FrameLimit(duration, rate).Some? ==> i < FrameLimit(duration, rate).value);
      var selection := Selection(stream, pos, duration, rate);
      (i < |selection| <==> chosen) && (chosen ==> selection[i] == stream[first + i])
  {
  }

  datatype Asset = Asset(frames: seq<Frame>, byteCount: nat)

  // ---------------------------------------------------------------- reaching the start

  /** discardPCMFrames, before a build. */
  method DiscardFrames(decoder: FileDecoder, count: int, calm: bool) returns (ok: bool)
    modifies decoder
    ensures ok ==> decoder.rest == Skip(old(decoder.rest), count)
    ensures old(decoder.Reliable()) ==> decoder.Reliable()
    ensures old(decoder.Reliable()) && calm ==> (ok <==> count <= |old(decoder.rest)|)
  {
    var left := count;
    ghost var stream := decoder.rest;
    while left > 0
      invariant left == count || 0 <= left < count
      invariant count - left <= |stream| && decoder.rest == stream[count - left..]
      invariant old(decoder.Reliable()) ==> decoder.Reliable()
      decreases |decoder.rest| + |decoder.script|, left
    {
      if !calm { if * { return false; } }
      var wanted := if left > BUFFER_FRAMES then BUFFER_FRAMES else left;
      var read, frames, finished := decoder.Read(wanted);
      if !read { return false; }
      if |frames| == 0 && !finished { return false; }
      left := left - |frames|;
      if finished { return false; }
    }
    return true;
  }

  /** seekStart, before playing. */
  method SeekStart(decoder: FileDecoder, pos: real, count: int, calm: bool) returns (ok: bool)
    requires pos <= 0.0 ==> count <= 0
    modifies decoder
    ensures ok ==> decoder.rest == Skip(old(decoder.rest), count)
    ensures old(decoder.Reliable()) ==> decoder.Reliable()
    ensures old(decoder.Reliable()) && calm ==> (ok <==> count <= |old(decoder.rest)|)
  {
    if pos <= 0.0 { return true; }
    var left := count;
    ghost var stream := decoder.rest;
    while left > 0
      invariant left == count || 0 <= left < count
      invariant count - left <= |stream| && decoder.rest == stream[count - left..]
      invariant old(decoder.Reliable()) ==> decoder.Reliable()
      decreases |decoder.rest| + |decoder.script|, left
    {
      if !calm { if * { return false; } }
      var wanted := if left > BUFFER_FRAMES then BUFFER_FRAMES else left;
      var read, frames, finished := decoder.Read(wanted);
      if !read { return false; }
      left := left - |frames|;
      if finished && left > 0 { return false; }
    }
    return true;
  }

  // ---------------------------------------------------------------- the background build

  /** pcmBuildBuffer. The reservation always equals the capacity. */
  class BuildBuffer {
    const maxBytes: int
    const frameBytes: int
    const calm: bool
    var capacity: int
    var reservation: int
    var remaining: Option<int>
    var data: seq<Frame>

    ghost predicate Valid()
      reads this
    {
      && frameBytes > 0 && maxBytes > 0
      && 0 < capacity <= maxBytes && reservation == capacity && |data| * frameBytes <= capacity
      && (capacity == maxBytes || BUFFER_FRAMES * frameBytes <= capacity)
    }

    constructor (maxBytes: int, frameBytes: int, capacity: int, limit: Option<int>, calm: bool)
      requires frameBytes > 0 && 0 < capacity <= maxBytes && (capacity == maxBytes || BUFFER_FRAMES * frameBytes <= capacity)
      ensures Valid() && data == [] && remaining == limit
      ensures this.frameBytes == frameBytes && this.maxBytes == maxBytes && this.calm == calm
    {
      this.maxBytes, this.frameBytes, this.calm := maxBytes, frameBytes, calm;
      this.capacity, reservation := capacity, capacity;
      remaining, data := limit, [];
    }

    /** growPCMBuffer: the reservation grows with the capacity, or neither does. */
    method Grow() returns (ok: bool)
      requires Valid()
      modifies this`capacity, this`reservation
      ensures Valid() && (calm ==> ok)
      ensures capacity == if !ok then old(capacity) else if old(capacity) * 2 <= maxBytes then old(capacity) * 2 else maxBytes
    {
      var newCapacity := capacity * 2;
      if newCapacity > maxBytes { newCapacity := maxBytes; }
      if !calm { if * { return false; } }
      capacity, reservation := newCapacity, reservation + (newCapacity - capacity);
      return true;
    }
  }

  /** initialPCMCapacity; `estimate` is the decoder's own guess, used when no duration is asked for. */
  function InitialCapacity(maxBytes: int, frameBytes: int, limit: Option<int>, estimate: nat): (capacity: int)
    requires maxBytes > 0 && frameBytes > 0
    ensures 0 < capacity <= maxBytes && (capacity == maxBytes || BUFFER_FRAMES * frameBytes <= capacity)
  {
    var block := BUFFER_FRAMES * frameBytes;
    var wanted := if limit.Some? then limit.value * frameBytes else estimate * frameBytes;
    var estimated := if wanted > maxBytes then 0 else wanted;
    var sized := if estimated <= block then block
                 else if limit.None? && estimated <= maxBytes - block then estimated + block
                 else estimated;
    if sized > maxBytes then maxBytes else sized
  }

  /** A build first reserves what it expects to need, with a block to spare when that is a guess, but at least a block. */
  lemma InitialCapacityIs(maxBytes: int, frameBytes: int, limit: Option<int>, estimate: nat)
    requires maxBytes > 0 && frameBytes > 0 && (limit.Some? ==> limit.value > 0)
    ensures
      var capacity, block := InitialCapacity(maxBytes, frameBytes, limit, estimate), 4096 * frameBytes;
      var wanted := (if limit.Some? then limit.value else estimate) * frameBytes;
      if wanted > maxBytes || wanted <= block then capacity == (if block <= maxBytes then block else maxBytes)
      else if limit.Some? then capacity == wanted
      else capacity == (if wanted + block <= maxBytes then wanted + block else wanted)
  {
  }

  lemma FrameFits(data: seq<Frame>, frames: seq<Frame>, frameBytes: int, capacity: int)
    requires frameBytes > 0 && |data| * frameBytes <= capacity
    requires |frames| <= (capacity - |data| * frameBytes) / frameBytes
    ensures |data + frames| * frameBytes <= capacity
  {
    var room := (capacity - |data| * frameBytes) / frameBytes;
    assert room * frameBytes <= capacity - |data| * frameBytes;
    assert |frames| * frameBytes <= room * frameBytes;
    assert |data + frames| * frameBytes == |data| * frameBytes + |frames| * frameBytes;
  }

  datatype BuildError = TooLarge | Failed

  datatype Built = Built(asset: Asset, reservation: int) | NotBuilt(error: BuildError)

  /** What is left to read of a limit once `data` has been read. */
  ghost predicate Counts(limit: Option<int>, data: seq<Frame>, remaining: Option<int>) {
    && remaining.Some? == limit.Some?
    && (limit.Some? ==> remaining.value == limit.value - |data| && 0 <= remaining.value)
  }

  lemma ClipIsPrefix(stream: seq<Frame>, limit: Option<int>, data: seq<Frame>, rest: seq<Frame>)
    requires stream == data + rest && (limit.Some? ==> |data| <= limit.value)
    requires rest == [] || (limit.Some? && |data| == limit.value)
    ensures data == Clip(stream, limit)
  {
    assert stream[..|data|] == data;
  }

  // ---------------------------------------------------------------- when a build succeeds

  /**
   When an undisturbed build of the frames `all` yields them. With a budget of whole frames this says that they
   fit; otherwise the last frame that fits may be there only if the asked duration ends with it.
   */
  predicate Fills(all: seq<Frame>, limit: Option<int>, frameBytes: int, maxBytes: int)
    requires frameBytes > 0
  {
    var most := maxBytes / frameBytes;
    all != [] && (|all| < most || (|all| == most && (maxBytes % frameBytes == 0 || limit == Some(most))))
  }

  predicate Overfills(all: seq<Frame>, frameBytes: int, maxBytes: int)
    requires frameBytes > 0
  {
    maxBytes % frameBytes == 0 && |all| > maxBytes / frameBytes
  }

  /** The exact outcome of an undisturbed build. */
  ghost predicate Outcome(result: Built, all: seq<Frame>, limit: Option<int>, frameBytes: int, maxBytes: int)
    requires frameBytes > 0
  {
    && (result.Built? <==> Fills(all, limit, frameBytes, maxBytes))
    && (result == NotBuilt(TooLarge) <==> Overfills(all, frameBytes, maxBytes))
  }

  lemma WholeFrames(n: nat, frameBytes: int, maxBytes: int)
    requires frameBytes > 0 && maxBytes >= 0
    ensures n * frameBytes <= maxBytes <==> n <= maxBytes / frameBytes
    ensures n * frameBytes == maxBytes <==> n == maxBytes / frameBytes && maxBytes % frameBytes == 0
    ensures n * frameBytes <= maxBytes ==> (maxBytes - n * frameBytes) / frameBytes == maxBytes / frameBytes - n
  {
    var most, r := maxBytes / frameBytes, maxBytes % frameBytes;
    assert maxBytes == most * frameBytes + r;
    SameOrder(n, most, frameBytes);
    SameOrder(n, most + 1, frameBytes);
    Distributes(most, n, frameBytes);
    assert (most + 1) * frameBytes == most * frameBytes + frameBytes;
    if n * frameBytes == maxBytes {
      SmallMultiple(n - most, frameBytes, r);
    }
    if n * frameBytes <= maxBytes {
      Quotient(most - n, r, frameBytes, maxBytes - n * frameBytes);
    }
  }

  lemma Quotient(q: int, r: int, frameBytes: int, x: int)
    requires 0 <= r < frameBytes && x == q * frameBytes + r
    ensures x / frameBytes == q
  {
    var p, t := x / frameBytes, x % frameBytes;
    assert x == p * frameBytes + t;
    Distributes(p, q, frameBytes);
    if t <= r { SmallMultiple(p - q, frameBytes, r - t); } else { Distributes(q, p, frameBytes); SmallMultiple(q - p, frameBytes, t - r); }
  }

  /** With a budget of whole frames, an undisturbed build succeeds exactly when there is something and it fits. */
  lemma WholeBudget(all: seq<Frame>, limit: Option<int>, frameBytes: int, maxBytes: int)
    requires frameBytes > 0 && maxBytes >= 0 && maxBytes % frameBytes == 0
    ensures Fills(all, limit, frameBytes, maxBytes) <==> all != [] && |all| * frameBytes <= maxBytes
    ensures Overfills(all, frameBytes, maxBytes) <==> |all| * frameBytes > maxBytes
  {
    WholeFrames(|all|, frameBytes, maxBytes);
  }

  /**
   With any other budget nothing is ever found too large, and one size that fits fails too: that which leaves
   no room for another frame, unless the asked duration ends there.
   */
  lemma UnevenBudget(all: seq<Frame>, limit: Option<int>, frameBytes: int, maxBytes: int)
    requires frameBytes > 0 && maxBytes >= 0 && maxBytes % frameBytes != 0 && all != []
    ensures !Overfills(all, frameBytes, maxBytes)
    ensures Fills(all, limit, frameBytes, maxBytes) <==>
              |all| * frameBytes <= maxBytes && !(|all| == maxBytes / frameBytes && limit != Some(|all|))
  {
    WholeFrames(|all|, frameBytes, maxBytes);
  }

  /** What has been read is part of what is asked for, and all of it only at an end. */
  lemma ClipBeyond(stream: seq<Frame>, limit: Option<int>, data: seq<Frame>, rest: seq<Frame>)
    requires stream == data + rest && (limit.Some? ==> |data| < limit.value)
    ensures |Clip(stream, limit)| >= |data| && (|Clip(stream, limit)| == |data| <==> rest == [])
  {
  }

  /** Where the loop of decodePCMBuffer stands. */
  ghost predicate Reading(decoder: FileDecoder, buffer: BuildBuffer, stream: seq<Frame>, limit: Option<int>)
    reads decoder, buffer
  {
    && buffer.Valid() && stream == buffer.data + decoder.rest && Counts(limit, buffer.data, buffer.remaining)
    && (limit.Some? ==> limit.value > 0)
  }

  ghost predicate Undisturbed(decoder: FileDecoder, buffer: BuildBuffer)
    reads decoder
  {
    buffer.calm && decoder.Reliable()
  }

  /** The loop may end with success: the data is what was asked for, and fits so as to be found complete. */
  ghost predicate Complete(data: seq<Frame>, all: seq<Frame>, limit: Option<int>, frameBytes: int, maxBytes: int)
    requires frameBytes > 0
  {
    data == all && !Overfills(all, frameBytes, maxBytes) && (all != [] ==> Fills(all, limit, frameBytes, maxBytes))
  }

  /** The asked number of frames has been read. */
  lemma CompleteAtLimit(stream: seq<Frame>, limit: Option<int>, data: seq<Frame>, rest: seq<Frame>, frameBytes: int, maxBytes: int)
    requires frameBytes > 0 && stream == data + rest && limit == Some(|data|) && |data| * frameBytes <= maxBytes
    ensures Complete(data, Clip(stream, limit), limit, frameBytes, maxBytes)
  {
    ClipIsPrefix(stream, limit, data, rest);
    WholeFrames(|data|, frameBytes, maxBytes);
  }

  /** The stream has ended, with room for another frame or with the whole budget used. */
  lemma CompleteAtEnd(stream: seq<Frame>, limit: Option<int>, frameBytes: int, maxBytes: int)
    requires frameBytes > 0 && (limit.Some? ==> |stream| <= limit.value)
    requires maxBytes >= |stream| * frameBytes
    requires |stream| < maxBytes / frameBytes || |stream| * frameBytes == maxBytes
    ensures Complete(stream, Clip(stream, limit), limit, frameBytes, maxBytes)
  {
    WholeFrames(|stream|, frameBytes, maxBytes);
  }

  /** No room for a whole frame, though the budget is not used up and more is asked for. */
  lemma NoRoom(stream: seq<Frame>, limit: Option<int>, data: seq<Frame>, rest: seq<Frame>, frameBytes: int, maxBytes: int)
    requires frameBytes > 0 && stream == data + rest && (limit.Some? ==> |data| < limit.value)
    requires |data| * frameBytes < maxBytes && (maxBytes - |data| * frameBytes) / frameBytes <= 0
    ensures Outcome(NotBuilt(Failed), Clip(stream, limit), limit, frameBytes, maxBytes)
  {
    WholeFrames(|data|, frameBytes, maxBytes);
    ClipBeyond(stream, limit, data, rest);
  }

  /**
   decodePCMBuffer. A success holds exactly the stream's frames up to the limit; undisturbed, it succeeds, finds
   the asset too large and fails exactly when Outcome says.
   */
  method DecodeBuffer(decoder: FileDecoder, buffer: BuildBuffer) returns (result: Built)
    requires buffer.Valid() && buffer.data == [] && (buffer.remaining.Some? ==> buffer.remaining.value > 0)
    modifies decoder, buffer
    ensures buffer.Valid()
    ensures result.Built? ==>
              && result.asset.frames == Clip(old(decoder.rest), old(buffer.remaining)) != []
              && result.asset.byteCount == |result.asset.frames| * buffer.frameBytes
              && result.asset.byteCount <= result.reservation <= buffer.maxBytes
    ensures result == NotBuilt(TooLarge) ==>
              |Clip(old(decoder.rest), old(buffer.remaining))| * buffer.frameBytes > buffer.maxBytes
    ensures old(Undisturbed(decoder, buffer)) ==>
              Outcome(result, Clip(old(decoder.rest), old(buffer.remaining)), old(buffer.remaining), buffer.frameBytes, buffer.maxBytes)
  {
    ghost var stream, limit := decoder.rest, buffer.remaining;
    ghost var calm := Undisturbed(decoder, buffer);
    while true
      invariant Reading(decoder, buffer, stream, limit) && (calm ==> Undisturbed(decoder, buffer))
      decreases |decoder.rest| + |decoder.script|
    {
      var stop;
      result, stop := DecodeBlock(decoder, buffer, stream, limit);
      if stop { break; }
    }
    if result.NotBuilt? { return; }
    if buffer.data == [] { return NotBuilt(Failed); }
    if !buffer.calm { if * { return NotBuilt(Failed); } }
    return Built(Asset(buffer.data, |buffer.data| * buffer.frameBytes), buffer.reservation);
  }

  /** One turn of the loop: on, out of it with an error, or out of it with everything read. */
  method DecodeBlock(decoder: FileDecoder, buffer: BuildBuffer, ghost stream: seq<Frame>, ghost limit: Option<int>)
    returns (result: Built, stop: bool)
    requires Reading(decoder, buffer, stream, limit)
    modifies decoder, buffer
    ensures buffer.Valid() && (old(Undisturbed(decoder, buffer)) ==> Undisturbed(decoder, buffer))
    ensures !stop ==> Reading(decoder, buffer, stream, limit)
    ensures !stop ==> |decoder.rest| + |decoder.script| < |old(decoder.rest)| + |old(decoder.script)|
    ensures stop && result.Built? ==> buffer.data == Clip(stream, limit)
    ensures stop && result == NotBuilt(TooLarge) ==> |Clip(stream, limit)| * buffer.frameBytes > buffer.maxBytes
    ensures stop && old(Undisturbed(decoder, buffer)) ==>
              if result.Built? then Complete(buffer.data, Clip(stream, limit), limit, buffer.frameBytes, buffer.maxBytes)
              else Outcome(result, Clip(stream, limit), limit, buffer.frameBytes, buffer.maxBytes)
  {
    if !buffer.calm { if * { return NotBuilt(Failed), true; } }
    if buffer.remaining == Some(0) {
      ClipIsPrefix(stream, limit, buffer.data, decoder.rest);
      CompleteAtLimit(stream, limit, buffer.data, decoder.rest, buffer.frameBytes, buffer.maxBytes);
      return Built(Asset([], 0), 0), true;
    }
    var total := |buffer.data| * buffer.frameBytes;
    if buffer.capacity == total && buffer.capacity == buffer.maxBytes {
      result := Probe(decoder, buffer, stream, limit);
      return result, true;
    }
    if buffer.capacity - total < BUFFER_FRAMES * buffer.frameBytes && buffer.capacity < buffer.maxBytes {
      var grown := buffer.Grow();
      if !grown { return NotBuilt(Failed), true; }
    }
    var ok, done := ReadBlock(decoder, buffer, stream, limit);
    if !ok { return NotBuilt(Failed), true; }
    if done { ClipIsPrefix(stream, limit, buffer.data, decoder.rest); }
    return Built(Asset([], 0), 0), done;
  }

  /** One read into the buffer's free space; a read that makes no progress is an error. */
  method ReadBlock(decoder: FileDecoder, buffer: BuildBuffer, ghost stream: seq<Frame>, ghost limit: Option<int>)
    returns (ok: bool, done: bool)
    requires Reading(decoder, buffer, stream, limit) && buffer.remaining != Some(0)
    requires |buffer.data| * buffer.frameBytes < buffer.maxBytes
    requires buffer.capacity == buffer.maxBytes || buffer.capacity - |buffer.data| * buffer.frameBytes >= BUFFER_FRAMES * buffer.frameBytes
    modifies decoder, buffer
    ensures ok ==> Reading(decoder, buffer, stream, limit)
    ensures buffer.Valid() && (old(Undisturbed(decoder, buffer)) ==> Undisturbed(decoder, buffer))
    ensures done ==> ok && decoder.rest == []
    ensures ok && !done ==> |decoder.rest| + |decoder.script| < |old(decoder.rest)| + |old(decoder.script)|
    ensures !ok && old(Undisturbed(decoder, buffer)) ==>
              Outcome(NotBuilt(Failed), Clip(stream, limit), limit, buffer.frameBytes, buffer.maxBytes)
    ensures done && old(Undisturbed(decoder, buffer)) ==>
              Complete(buffer.data, Clip(stream, limit), limit, buffer.frameBytes, buffer.maxBytes)
  {
    var wanted := (buffer.capacity - |buffer.data| * buffer.frameBytes) / buffer.frameBytes;
    ghost var room := wanted;
    if wanted > BUFFER_FRAMES { wanted := BUFFER_FRAMES; }
    if buffer.remaining.Some? && wanted > buffer.remaining.value { wanted := buffer.remaining.value; }
    ghost var data, rest := buffer.data, decoder.rest;
    var frames;
    ok, frames, done := decoder.Read(wanted);
    if !ok || (|frames| == 0 && !done) {
      if wanted <= 0 {
        BlockHasRoom(buffer.capacity - |data| * buffer.frameBytes, buffer.frameBytes);
        NoRoom(stream, limit, data, rest, buffer.frameBytes, buffer.maxBytes);
      }
      return false, false;
    }
    FrameFits(buffer.data, frames, buffer.frameBytes, buffer.capacity);
    Associative(buffer.data, frames, decoder.rest);
    buffer.data := buffer.data + frames;
    if buffer.remaining.Some? { buffer.remaining := Some(buffer.remaining.value - |frames|); }
    if done && old(Undisturbed(decoder, buffer)) {
      assert buffer.data == stream;
      RoomIsLess(|data|, |frames|, buffer.frameBytes, buffer.capacity, buffer.maxBytes);
      CompleteAtEnd(stream, limit, buffer.frameBytes, buffer.maxBytes);
    }
  }

  /** Room for a block is room for a frame. */
  lemma BlockHasRoom(room: int, frameBytes: int)
    requires frameBytes > 0 && room / frameBytes <= 0
    ensures room < BUFFER_FRAMES * frameBytes
  {
    assert room == room / frameBytes * frameBytes + room % frameBytes;
    if room / frameBytes < 0 { Sign(room / frameBytes, frameBytes); }
  }

  lemma RoomIsLess(n: nat, more: nat, frameBytes: int, capacity: int, maxBytes: int)
    requires frameBytes > 0 && 0 <= n * frameBytes <= capacity <= maxBytes && more < (capacity - n * frameBytes) / frameBytes
    ensures n + more < maxBytes / frameBytes
  {
    WholeFrames(n, frameBytes, capacity);
    WholeFrames(capacity / frameBytes, frameBytes, capacity);
    assert capacity / frameBytes * frameBytes <= capacity;
    WholeFrames(capacity / frameBytes, frameBytes, maxBytes);
  }

  /** probePCMCacheLimit: with the buffer full at the limit, any further frame means the asset is too large. */
  method Probe(decoder: FileDecoder, buffer: BuildBuffer, ghost stream: seq<Frame>, ghost limit: Option<int>) returns (result: Built)
    requires Reading(decoder, buffer, stream, limit) && buffer.remaining != Some(0)
    requires |buffer.data| * buffer.frameBytes == buffer.maxBytes
    modifies decoder
    ensures old(Undisturbed(decoder, buffer)) ==> Undisturbed(decoder, buffer)
    ensures result.Built? ==> buffer.data == Clip(stream, limit)
    ensures result == NotBuilt(TooLarge) ==> |Clip(stream, limit)| * buffer.frameBytes > buffer.maxBytes
    ensures old(Undisturbed(decoder, buffer)) ==>
              if result.Built? then Complete(buffer.data, Clip(stream, limit), limit, buffer.frameBytes, buffer.maxBytes)
              else Outcome(result, Clip(stream, limit), limit, buffer.frameBytes, buffer.maxBytes)
  {
    if !buffer.calm { if * { return NotBuilt(Failed); } }
    ClipBeyond(stream, limit, buffer.data, decoder.rest);
    WholeFrames(|buffer.data|, buffer.frameBytes, buffer.maxBytes);
    var ok, frames, done := decoder.Read(BUFFER_FRAMES);
    if !ok { return NotBuilt(Failed); }
    if |frames| > 0 {
      SameOrder(|buffer.data|, |Clip(stream, limit)|, buffer.frameBytes);
      return NotBuilt(TooLarge);
    }
    if !done { return NotBuilt(Failed); }
    assert buffer.data == stream;
    CompleteAtEnd(stream, limit, buffer.frameBytes, buffer.maxBytes);
    return Built(Asset([], 0), 0);
  }

  /**
   decodePCMAsset: whatever it commits is the selection of the file, and an undisturbed build commits it exactly
   when Fills says.
   */
  method BuildAsset(decoder: FileDecoder, pos: real, duration: real, rate: nat, frameBytes: int, maxBytes: int, estimate: nat,
                    calm: bool)
    returns (result: Built)
    requires frameBytes > 0 && maxBytes > 0
    modifies decoder
    ensures result.Built? ==>
              && rate > 0 && result.asset.frames == Selection(old(decoder.rest), pos, duration, rate) != []
              && result.asset.byteCount == |result.asset.frames| * frameBytes <= result.reservation <= maxBytes
    ensures result == NotBuilt(TooLarge) ==> |Selection(old(decoder.rest), pos, duration, rate)| * frameBytes > maxBytes
    ensures rate > 0 && calm && old(decoder.Reliable()) ==>
              Outcome(result, Selection(old(decoder.rest), pos, duration, rate), FrameLimit(duration, rate), frameBytes, maxBytes)
  {
    if !calm { if * { return NotBuilt(Failed); } }
    if rate == 0 { return NotBuilt(Failed); }
    var limit := FrameLimit(duration, rate);
    NothingOverfills(frameBytes, maxBytes);
    var ok := DiscardFrames(decoder, StartFrame(pos, rate), calm);
    if !ok { return NotBuilt(Failed); }
    if limit.Some? && limit.value <= 0 { return NotBuilt(Failed); }
    var capacity := InitialCapacity(maxBytes, frameBytes, limit, estimate);
    var buffer := new BuildBuffer(maxBytes, frameBytes, capacity, limit, calm);
    result := DecodeBuffer(decoder, buffer);
  }

  lemma NothingOverfills(frameBytes: int, maxBytes: int)
    requires frameBytes > 0 && maxBytes >= 0
    ensures !Overfills([], frameBytes, maxBytes)
  {
    assert 0 * frameBytes == 0;
    WholeFrames(0, frameBytes, maxBytes);
  }

  /** Eight bytes of audio fail to build within a budget of ten, and are built within eight. */
  method UnevenBuild(left: int, right: int) returns (ten: Built, eight: Built)
    ensures ten == NotBuilt(Failed)
    ensures eight.Built? && eight.asset.frames == [[left, right], [left, right]]
  {
    var stream := [[left, right], [left, right]];
    assert StartFrame(0.0, 48000) == 0 && FrameLimit(-1.0, 48000) == None;
    assert Selection(stream, 0.0, -1.0, 48000) == stream;
    assert !Fills(stream, None, 4, 10) && !Overfills(stream, 4, 10) && Fills(stream, None, 4, 8);
    var decoder := new FileDecoder(stream, []);
    ten := BuildAsset(decoder, 0.0, -1.0, 48000, 4, 10, 0, true);
    assert ten == NotBuilt(ten.error) && ten.error != TooLarge;
    decoder := new FileDecoder(stream, []);
    eight := BuildAsset(decoder, 0.0, -1.0, 48000, 4, 8, 0, true);
  }

  // ---------------------------------------------------------------- the first play's capture

  /** pcmCapture. */
  class PcmCapture {
    const maxBytes: int
    const frameBytes: int
    var capacity: int
    var data: seq<Frame>

    ghost predicate Valid()
      reads this
    {
      frameBytes > 0 && 0 <= capacity && |data| * frameBytes <= capacity && |data| * frameBytes <= maxBytes
    }

    constructor (maxBytes: int, frameBytes: int)
      requires frameBytes > 0 && maxBytes > 0
      ensures Valid() && data == [] && this.frameBytes == frameBytes && this.maxBytes == maxBytes
    {
      this.maxBytes, this.frameBytes, capacity, data := maxBytes, frameBytes, 0, [];
    }

    /** append: the capacity doubles until the frames fit; a refused reservation changes nothing. */
    method Append(frames: seq<Frame>, calm: bool) returns (ok: bool)
      requires Valid()
      modifies this`data, this`capacity
      ensures Valid() && data == if ok then old(data) + frames else old(data)
      ensures old((|data| + |frames|) * frameBytes > maxBytes) && frames != [] ==> !ok
      ensures calm && old((|data| + |frames|) * frameBytes <= maxBytes) ==> ok
      ensures capacity == old(capacity) || capacity == 4096 * frameBytes || capacity < 2 * (|data| * frameBytes)
    {
      if frames == [] {
        assert data == data + frames;
        return true;
      }
      var required := (|data| + |frames|) * frameBytes;
      assert required == |data| * frameBytes + |frames| * frameBytes;
      if required > maxBytes { return false; }
      if required > capacity {
        var next := if capacity > 0 then capacity else BUFFER_FRAMES * frameBytes;
        while next < required
          invariant 0 < next && (next == capacity || next == BUFFER_FRAMES * frameBytes || next < 2 * required)
          decreases required - next
        {
          next := next * 2;
          if next > maxBytes { next := maxBytes; }
        }
        if !calm { if * { return false; } }
        capacity := next;
      }
      data := data + frames;
      return true;
    }
  }

  /** pcmMemoryDecoder, with its offset in bytes. */
  class MemoryDecoder {
    const asset: Asset
    const frameBytes: int
    var offsetBytes: int

    ghost predicate Valid()
      reads this
    {
      && frameBytes > 0 && asset.byteCount == |asset.frames| * frameBytes
      && 0 <= offsetBytes <= asset.byteCount && offsetBytes % frameBytes == 0
    }

    ghost function Rest(): seq<Frame>
      requires Valid()
      reads this
    {
      FrameOffset(offsetBytes, |asset.frames|, frameBytes);
      asset.frames[offsetBytes / frameBytes..]
    }

    constructor (asset: Asset, frameBytes: int)
      requires frameBytes > 0 && asset.byteCount == |asset.frames| * frameBytes
      ensures Valid() && Rest() == asset.frames
    {
      this.asset, this.frameBytes, offsetBytes := asset, frameBytes, 0;
    }

    /** The next frames, never an error, and `finished` exactly when none is left. */
    method Read(maxFrames: int) returns (frames: seq<Frame>, finished: bool)
      requires Valid()
      modifies this`offsetBytes
      ensures Valid() && old(Rest()) == frames + Rest()
      ensures maxFrames > 0 ==> |frames| == (if maxFrames < |old(Rest())| then maxFrames else |old(Rest())|)
      ensures maxFrames > 0 ==> (finished <==> Rest() == [])
    {
      if maxFrames <= 0 { return [], true; }
      var remaining := asset.byteCount - offsetBytes;
      var byteCount := maxFrames * frameBytes;
      if byteCount > remaining { byteCount := remaining; }
      ReadFits(offsetBytes, |asset.frames|, asset.byteCount, frameBytes, maxFrames, byteCount);
      ghost var at, n := offsetBytes / frameBytes, byteCount / frameBytes;
      frames := asset.frames[offsetBytes / frameBytes..][..byteCount / frameBytes];
      offsetBytes := offsetBytes + byteCount;
      assert asset.frames[at..] == asset.frames[at..][..n] + asset.frames[at + n..];
      finished := offsetBytes == asset.byteCount;
    }
  }

  // ---------------------------------------------------------------- playing a range

  /** Where a playback reads from: the file, or a cached asset between repetitions. */
  datatype Source = FromFile(file: FileDecoder) | FromCache(memory: MemoryDecoder)

  ghost function Handle(source: Source): object {
    match source
    case FromFile(file) => file
    case FromCache(memory) => memory
  }

  ghost predicate Readable(source: Source)
    reads Handle(source)
  {
    source.FromCache? ==> source.memory.Valid()
  }

  /** What is left to read. */
  ghost function Left(source: Source): seq<Frame>
    requires Readable(source)
    reads Handle(source)
  {
    match source
    case FromFile(file) => file.rest
    case FromCache(memory) => memory.Rest()
  }

  /** A source that never fails a read, nor ends one early. */
  ghost predicate Steady(source: Source)
    reads Handle(source)
  {
    source.FromFile? ==> source.file.Reliable()
  }

  /** How long a source can go on without progress. */
  ghost function Patience(source: Source): nat
    requires Readable(source)
    reads Handle(source)
  {
    match source
    case FromFile(file) => |file.rest| + |file.script|
    case FromCache(memory) => |memory.Rest()|
  }

  method ReadFrom(source: Source, maxFrames: int) returns (ok: bool, frames: seq<Frame>, finished: bool)
    requires Readable(source) && maxFrames > 0
    modifies Handle(source)
    ensures Readable(source) && old(Left(source)) == frames + Left(source) && |frames| <= maxFrames
    ensures finished ==> ok && Left(source) == []
    ensures Patience(source) < old(Patience(source)) || (ok && |frames| == 0 && finished) || !ok
    ensures old(Steady(source)) ==> Steady(source)
    ensures old(Steady(source)) && maxFrames <= BUFFER_FRAMES ==> ok && (finished || frames != [])
  {
    match source
    case FromFile(file) => ok, frames, finished := file.Read(maxFrames);
    case FromCache(memory) =>
      ghost var before := memory.Rest();
      frames, finished := memory.Read(maxFrames);
      assert |before| == |frames| + |memory.Rest()|;
      ok := true;
  }

  /** Where the loop of fillTo stands; `calm` says that nothing has given the capture up but the budget. */
  ghost predicate Playing(source: Source, capture: PcmCapture, stream: seq<Frame>, limit: Option<int>,
                          played: seq<Frame>, remaining: Option<int>, capturing: bool, calm: bool)
    reads Handle(source), capture
  {
    && Readable(source) && capture.Valid() && Counts(limit, played, remaining) && stream == played + Left(source)
    && (capturing ==> capture.data == played)
    && (calm && !capturing ==> |played| * capture.frameBytes > capture.maxBytes)
  }

  /** One read, captured and played. */
  method PlayBlock(source: Source, capture: PcmCapture, ghost stream: seq<Frame>, ghost limit: Option<int>,
                   played: seq<Frame>, remaining: Option<int>, capturing: bool, calm: bool)
    returns (ok: bool, more: seq<Frame>, left: Option<int>, still: bool, finished: bool)
    requires Playing(source, capture, stream, limit, played, remaining, capturing, calm)
    requires remaining != Some(0) && Handle(source) != capture
    modifies Handle(source), capture
    ensures ok ==> Playing(source, capture, stream, limit, more, left, still, calm)
    ensures ok && finished ==> Left(source) == []
    ensures ok && !finished ==> Patience(source) < old(Patience(source))
    ensures old(Steady(source)) ==> Steady(source)
    ensures calm && old(Steady(source)) ==> ok
  {
    more, left, still := played, remaining, capturing;
    if !calm { if * { still := false; } }
    var wanted := if remaining.Some? && remaining.value < BUFFER_FRAMES then remaining.value else BUFFER_FRAMES;
    var frames;
    ok, frames, finished := ReadFrom(source, wanted);
    if !ok || (|frames| == 0 && !finished) { return false, more, left, still, false; }
    Associative(played, frames, Left(source));
    more := played + frames;
    if frames != [] {
      MoreBytes(|played|, |more|, capture.frameBytes);
      if still { still := capture.Append(frames, calm); }
      if !calm { if * { return false, more, left, still, false; } }
    } else {
      assert more == played;
    }
    if remaining.Some? { left := Some(remaining.value - |frames|); }
  }

  /**
     The loop of fillTo over one repetition, with the first play's capture beside it. The capture may be given up
     at any time, and what it commits is what was played. Undisturbed, the repetition ends well, and the capture
     commits exactly what there is if it fits.
   */
  method PlayOnce(source: Source, limit: Option<int>, capture: PcmCapture, calm: bool)
    returns (ok: bool, played: seq<Frame>, captured: Option<Asset>)
    requires Readable(source) && (limit.Some? ==> limit.value > 0)
    requires capture.Valid() && capture.data == [] && Handle(source) != capture
    modifies Handle(source), capture
    ensures ok ==> played == Clip(old(Left(source)), limit)
    ensures captured.Some? ==>
              && ok && captured.value.frames == played != []
              && captured.value.byteCount == |played| * capture.frameBytes <= capture.maxBytes
    ensures calm && old(Steady(source)) ==> ok && (captured.Some? <==> played != [] && |played| * capture.frameBytes <= capture.maxBytes)
  {
    ghost var stream := Left(source);
    var remaining, capturing, finished := limit, true, false;
    played := [];
    while !finished && remaining != Some(0)
      invariant Playing(source, capture, stream, limit, played, remaining, capturing, calm)
      invariant finished ==> Left(source) == []
      invariant old(Steady(source)) ==> Steady(source)
      decreases !finished, Patience(source)
    {
      ok, played, remaining, capturing, finished := PlayBlock(source, capture, stream, limit, played, remaining, capturing, calm);
      if !ok { return false, played, None; }
    }
    ClipIsPrefix(stream, limit, played, Left(source));
    if !capturing || capture.data == [] { return true, played, None; }
    if !calm { if * { return true, played, None; } }
    return true, played, Some(Asset(capture.data, |capture.data| * capture.frameBytes));
  }

  lemma MoreBytes(n: nat, more: nat, frameBytes: int)
    requires n <= more && frameBytes > 0
    ensures n * frameBytes <= more * frameBytes
  {
    SameOrder(n, more, frameBytes);
  }

  lemma ClipAgain(stream: seq<Frame>, limit: Option<int>)
    ensures Clip(Clip(stream, limit), limit) == Clip(stream, limit)
  {
  }

  /** A first play: seek, then play the range. What it plays and what it captures are both the selection. */
  method FirstPlay(decoder: FileDecoder, capture: PcmCapture, pos: real, duration: real, rate: nat, calm: bool)
    returns (ok: bool, played: seq<Frame>, captured: Option<Asset>)
    requires capture.Valid() && capture.data == []
    modifies decoder, capture
    ensures ok ==> played == Selection(old(decoder.rest), pos, duration, rate)
    ensures captured.Some? ==>
              && ok && captured.value.frames == Selection(old(decoder.rest), pos, duration, rate) != []
              && captured.value.byteCount == |played| * capture.frameBytes <= capture.maxBytes
    ensures calm && old(decoder.Reliable()) ==>
              && (ok <==> rate > 0 && StartFrame(pos, rate) <= |old(decoder.rest)| && FrameLimit(duration, rate) != Some(0))
              && (captured.Some? <==> ok && played != [] && |played| * capture.frameBytes <= capture.maxBytes)
  {
    ok, played, captured := false, [], None;
    if rate == 0 { return; }
    var limit := FrameLimit(duration, rate);
    if limit.Some? && limit.value <= 0 { return; }
    StartAtZero(pos, rate);
    var found := SeekStart(decoder, pos, StartFrame(pos, rate), calm);
    if !found { return; }
    ok, played, captured := PlayOnce(FromFile(decoder), limit, capture, calm);
  }

  lemma StartAtZero(pos: real, rate: nat)
    ensures pos <= 0.0 ==> StartFrame(pos, rate) <= 0
  {
    if pos <= 0.0 { assert pos * rate as real <= 0.0; }
  }

  /**
     A repetition from the cache plays exactly what decoding the file again plays, whichever producer
     committed the asset.
   */
  method Repeat(asset: Asset, frameBytes: int, ghost stream: seq<Frame>, ghost pos: real, duration: real, rate: nat, calm: bool)
    returns (ok: bool, played: seq<Frame>)
    requires frameBytes > 0 && rate > 0 && asset.byteCount == |asset.frames| * frameBytes
    requires asset.frames == Selection(stream, pos, duration, rate) != []
    ensures ok ==> played == Selection(stream, pos, duration, rate)
    ensures calm ==> ok
  {
    var memory := new MemoryDecoder(asset, frameBytes);
    var unused := new PcmCapture(1, frameBytes);
    var captured;
    ClipAgain(Skip(stream, StartFrame(pos, rate)), FrameLimit(duration, rate));
    ok, played, captured := PlayOnce(FromCache(memory), FrameLimit(duration, rate), unused, calm);
  }

  // ---------------------------------------------------------------- byte arithmetic

  lemma FrameOffset(offset: int, count: nat, frameBytes: int)
    requires frameBytes > 0 && 0 <= offset <= count * frameBytes && offset % frameBytes == 0
    ensures 0 <= offset / frameBytes <= count && offset == offset / frameBytes * frameBytes
    ensures offset == count * frameBytes <==> offset / frameBytes == count
  {
    SameOrder(count, offset / frameBytes, frameBytes);
    Sign(offset / frameBytes, frameBytes);
  }

  /** A read of whole frames from a whole-frame offset, in bytes and in frames. */
  lemma ReadFits(offset: int, count: nat, total: int, frameBytes: int, maxFrames: int, byteCount: int)
    requires frameBytes > 0 && total == count * frameBytes && 0 <= offset <= total && offset % frameBytes == 0 && maxFrames > 0
    requires byteCount == if maxFrames * frameBytes > total - offset then total - offset else maxFrames * frameBytes
    ensures
      var at, n := offset / frameBytes, byteCount / frameBytes;
      && 0 <= at <= count && n == (if maxFrames < count - at then maxFrames else count - at)
      && 0 <= byteCount && offset + byteCount <= total
      && (offset + byteCount) % frameBytes == 0 && (offset + byteCount) / frameBytes == at + n
      && (offset + byteCount == total <==> at + n == count)
  {
    var at := offset / frameBytes;
    FrameOffset(offset, count, frameBytes);
    Distributes(count, at, frameBytes);
    SameOrder(count - at, maxFrames, frameBytes);
    var n := if maxFrames < count - at then maxFrames else count - at;
    assert byteCount == n * frameBytes;
    Exact(n, frameBytes);
    Sums(at, n, frameBytes);
    Exact(at + n, frameBytes);
    SameOrder(at + n, count, frameBytes);
    Sign(n, frameBytes);
  }

  lemma Exact(n: int, frameBytes: int)
    requires frameBytes > 0
    ensures n * frameBytes / frameBytes == n && n * frameBytes % frameBytes == 0
  {
    var q := n * frameBytes / frameBytes;
    Distributes(n, q, frameBytes);
    SmallMultiple(n - q, frameBytes, n * frameBytes % frameBytes);
  }

  lemma Sums(at: int, n: int, frameBytes: int)
    ensures at * frameBytes + n * frameBytes == (at + n) * frameBytes
  {
  }
}
