/**
 The voice packet queue (realms_voice.cpp:396-454): bounded for audio, compacted when a speaker leaves, and
 the decoding of one batch. A speaker's state is the packets decoded for it since it appeared.
 */
module VoiceQueue {
  import opened Common

  datatype Packet = Packet(speaker: int, remove: bool, created: int, sequence: int)

  const PACKET_CAPACITY: int := 64
  const LIFETIME: int := 100

  // ---------------------------------------------------------------- the queue

  function Without(queue: seq<Packet>, speaker: int): seq<Packet> {
    if queue == [] then []
    else (if queue[0].speaker == speaker then [] else [queue[0]]) + Without(queue[1..], speaker)
  }

  /** The first packet that is not a removal; the length if there is none. */
  function FirstAudio(queue: seq<Packet>): (i: nat)
    ensures i <= |queue| && (i < |queue| ==> !queue[i].remove)
    ensures forall j :: 0 <= j < i ==> queue[j].remove
  {
    if queue == [] || !queue[0].remove then 0 else 1 + FirstAudio(queue[1..])
  }

  function Erase(queue: seq<Packet>, i: nat): seq<Packet>
    requires i < |queue|
  {
    queue[..i] + queue[i + 1..]
  }

  /** enqueue_packet. */
  function Enqueue(queue: seq<Packet>, packet: Packet): seq<Packet> {
    if packet.remove then Without(queue, packet.speaker) + [packet]
    else if |queue| < PACKET_CAPACITY then queue + [packet]
    else if FirstAudio(queue) == |queue| then queue
    else Erase(queue, FirstAudio(queue)) + [packet]
  }

  class PacketQueue {
    var incoming: seq<Packet>
    var dropped: nat

    constructor ()
      ensures incoming == [] && dropped == 0
    {
      incoming, dropped := [], 0;
    }

    method Add(packet: Packet)
      modifies this
      ensures incoming == Enqueue(old(incoming), packet)
      ensures dropped == old(dropped) + if Fits(old(incoming), packet) then 0 else 1
    {
      if packet.remove {
        var kept := [];
        for i := 0 to |incoming|
          invariant incoming == old(incoming) && dropped == old(dropped)
          invariant kept + Without(incoming[i..], packet.speaker) == Without(incoming, packet.speaker)
        {
          ghost var rest := Without(incoming[i + 1..], packet.speaker);
          assert incoming[i..][0] == incoming[i] && incoming[i..][1..] == incoming[i + 1..];
          if incoming[i].speaker != packet.speaker {
            Associative(kept, [incoming[i]], rest);
            kept := kept + [incoming[i]];
          } else {
            assert kept + ([] + rest) == kept + rest;
          }
        }
        assert incoming[|incoming|..] == [] && kept + [] == kept;
        incoming := kept;
      } else if |incoming| >= PACKET_CAPACITY {
        var oldest := 0;
        while oldest < |incoming| && incoming[oldest].remove
          invariant oldest <= |incoming| && forall j :: 0 <= j < oldest ==> incoming[j].remove
        {
          oldest := oldest + 1;
        }
        FirstAudioIs(incoming, oldest);
        dropped := dropped + 1;
        if oldest == |incoming| { return; }
        incoming := Erase(incoming, oldest);
      }
      incoming := incoming + [packet];
    }

    /** What the worker takes in one batch. */
    method Swap() returns (packets: seq<Packet>)
      modifies this
      ensures packets == old(incoming) && incoming == [] && dropped == old(dropped)
    {
      packets, incoming := incoming, [];
    }
  }

  lemma FirstAudioIs(queue: seq<Packet>, i: nat)
    requires i <= |queue| && (i < |queue| ==> !queue[i].remove) && forall j :: 0 <= j < i ==> queue[j].remove
    ensures FirstAudio(queue) == i
  {
  }

  // ---------------------------------------------------------------- bounds

  function AudioCount(queue: seq<Packet>): nat {
    if queue == [] then 0 else (if queue[0].remove then 0 else 1) + AudioCount(queue[1..])
  }

  /** At most one removal per speaker, and nothing of the speaker before it. */
  ghost predicate RemovalsFirst(queue: seq<Packet>) {
    forall i, j :: 0 <= i < j < |queue| && queue[j].remove ==> queue[i].speaker != queue[j].speaker
  }

  ghost predicate Bounded(queue: seq<Packet>) {
    AudioCount(queue) <= PACKET_CAPACITY && RemovalsFirst(queue)
  }

  lemma {:induction false} AudioAppend(a: seq<Packet>, b: seq<Packet>)
    ensures AudioCount(a + b) == AudioCount(a) + AudioCount(b)
  {
    if a == [] {
      assert a + b == b;
    } else {
      assert (a + b)[0] == a[0] && (a + b)[1..] == a[1..] + b;
      AudioAppend(a[1..], b);
    }
  }

  lemma {:induction false} AudioAtMost(queue: seq<Packet>)
    ensures AudioCount(queue) <= |queue|
  {
    if queue != [] { AudioAtMost(queue[1..]); }
  }

  lemma RemovalsTail(queue: seq<Packet>)
    requires queue != [] && RemovalsFirst(queue)
    ensures RemovalsFirst(queue[1..])
    ensures forall p :: p in queue[1..] && p.remove ==> p.speaker != queue[0].speaker
  {
    forall i, j | 0 <= i < j < |queue| - 1 && queue[1..][j].remove ensures queue[1..][i].speaker != queue[1..][j].speaker {
      assert queue[1..][i] == queue[i + 1] && queue[1..][j] == queue[j + 1];
    }
  }

  lemma RemovalsCons(p: Packet, rest: seq<Packet>)
    requires RemovalsFirst(rest) && forall x :: x in rest && x.remove ==> x.speaker != p.speaker
    ensures RemovalsFirst([p] + rest)
  {
    var all := [p] + rest;
    forall i, j | 0 <= i < j < |all| && all[j].remove ensures all[i].speaker != all[j].speaker {
      assert all[j] == rest[j - 1];
      if i > 0 { assert all[i] == rest[i - 1]; }
    }
  }

  /** Erasing a speaker's packets keeps the other packets, in order. */
  lemma {:induction false} WithoutIs(queue: seq<Packet>, speaker: int)
    ensures AudioCount(Without(queue, speaker)) <= AudioCount(queue)
    ensures forall p :: p in Without(queue, speaker) <==> p in queue && p.speaker != speaker
  {
    if queue != [] {
      WithoutIs(queue[1..], speaker);
      AudioAppend([queue[0]], Without(queue[1..], speaker));
      assert [queue[0]][1..] == [] && [] + Without(queue[1..], speaker) == Without(queue[1..], speaker);
    }
  }

  lemma {:induction false} WithoutRemovals(queue: seq<Packet>, speaker: int)
    requires RemovalsFirst(queue)
    ensures RemovalsFirst(Without(queue, speaker))
  {
    if queue != [] {
      RemovalsTail(queue);
      WithoutRemovals(queue[1..], speaker);
      WithoutIs(queue[1..], speaker);
      if queue[0].speaker != speaker { RemovalsCons(queue[0], Without(queue[1..], speaker)); }
    }
  }

  lemma EraseCounts(queue: seq<Packet>, i: nat)
    requires i < |queue| && !queue[i].remove
    ensures AudioCount(Erase(queue, i)) == AudioCount(queue) - 1
  {
    AudioAppend(queue[..i], queue[i..]);
    AudioAppend(queue[..i], queue[i + 1..]);
    assert queue[..i] + queue[i..] == queue && queue[i..][1..] == queue[i + 1..];
  }

  lemma EraseRemovals(queue: seq<Packet>, i: nat)
    requires i < |queue| && RemovalsFirst(queue)
    ensures RemovalsFirst(Erase(queue, i))
  {
    var left := Erase(queue, i);
    forall a, b | 0 <= a < b < |left| && left[b].remove ensures left[a].speaker != left[b].speaker {
      assert left[a] == queue[if a < i then a else a + 1] && left[b] == queue[if b < i then b else b + 1];
    }
  }

  lemma AppendRemovals(queue: seq<Packet>, p: Packet)
    requires RemovalsFirst(queue) && (p.remove ==> forall x :: x in queue ==> x.speaker != p.speaker)
    ensures RemovalsFirst(queue + [p])
    ensures AudioCount(queue + [p]) == AudioCount(queue) + if p.remove then 0 else 1
  {
    AudioAppend(queue, [p]);
    assert [p][1..] == [];
  }

  /** Every enqueue keeps the bounds: at most 64 audio packets and one removal per speaker. */
  lemma EnqueueBounded(queue: seq<Packet>, packet: Packet)
    requires Bounded(queue)
    ensures Bounded(Enqueue(queue, packet))
  {
    if packet.remove {
      WithoutIs(queue, packet.speaker);
      WithoutRemovals(queue, packet.speaker);
      AppendRemovals(Without(queue, packet.speaker), packet);
    } else if |queue| < PACKET_CAPACITY {
      AudioAtMost(queue);
      AppendRemovals(queue, packet);
    } else if FirstAudio(queue) < |queue| {
      EraseCounts(queue, FirstAudio(queue));
      EraseRemovals(queue, FirstAudio(queue));
      AppendRemovals(Erase(queue, FirstAudio(queue)), packet);
    }
  }

  // ---------------------------------------------------------------- what the queue stands for

  ghost predicate RemovedLater(history: seq<Packet>, speaker: int) {
    exists i :: 0 <= i < |history| && history[i].remove && history[i].speaker == speaker
  }

  /** The packets that no later removal of their speaker makes pointless. */
  ghost function Compact(history: seq<Packet>): seq<Packet> {
    if history == [] then []
    else (if RemovedLater(history[1..], history[0].speaker) then [] else [history[0]]) + Compact(history[1..])
  }

  lemma RemovedLaterAppend(history: seq<Packet>, p: Packet, speaker: int)
    ensures RemovedLater(history + [p], speaker) <==> RemovedLater(history, speaker) || (p.remove && p.speaker == speaker)
  {
    var all := history + [p];
    if RemovedLater(history, speaker) {
      var i :| 0 <= i < |history| && history[i].remove && history[i].speaker == speaker;
      assert all[i] == history[i];
    }
    if p.remove && p.speaker == speaker { assert all[|history|] == p; }
  }

  lemma {:induction false} CompactAppend(history: seq<Packet>, p: Packet)
    ensures Compact(history + [p]) == (if p.remove then Without(Compact(history), p.speaker) else Compact(history)) + [p]
  {
    if history == [] {
      assert Compact([p]) == [p] by { assert [p][1..] == []; }
      assert [] + [p] == [p];
    } else {
      CompactAppend(history[1..], p);
      assert (history + [p])[0] == history[0] && (history + [p])[1..] == history[1..] + [p];
      RemovedLaterAppend(history[1..], p, history[0].speaker);
      var head := if RemovedLater(history[1..], history[0].speaker) then [] else [history[0]];
      var rest := Compact(history[1..]);
      if p.remove {
        WithoutAppend(head, rest, p.speaker);
        assert Without(head, p.speaker) == if history[0].speaker == p.speaker then [] else head;
      }
    }
  }

  lemma {:induction false} WithoutAppend(a: seq<Packet>, b: seq<Packet>, speaker: int)
    ensures Without(a + b, speaker) == Without(a, speaker) + Without(b, speaker)
  {
    if a == [] {
      assert a + b == b;
    } else {
      assert (a + b)[0] == a[0] && (a + b)[1..] == a[1..] + b;
      WithoutAppend(a[1..], b, speaker);
    }
  }

  /** Erasing the queue's first audio packet erases one audio packet of the history. */
  lemma {:induction false} DropAudio(history: seq<Packet>, i: nat) returns (k: nat)
    requires i < |Compact(history)| && !Compact(history)[i].remove
    ensures k < |history| && history[k] == Compact(history)[i] && Compact(Erase(history, k)) == Erase(Compact(history), i)
  {
    var later := RemovedLater(history[1..], history[0].speaker);
    var rest := Compact(history[1..]);
    if !later && i == 0 {
      k := 0;
      assert Erase(history, 0) == history[1..] && Erase(Compact(history), 0) == rest;
    } else {
      var head := if later then [] else [history[0]];
      var j := i - |head|;
      var m := DropAudio(history[1..], j);
      k := m + 1;
      CompactErase(history, m);
      EraseAfter(head, rest, j);
      assert history[k] == history[1..][m] && Compact(history) == head + rest;
    }
  }

  lemma EraseAfter(head: seq<Packet>, rest: seq<Packet>, j: nat)
    requires j < |rest|
    ensures Erase(head + rest, |head| + j) == head + Erase(rest, j) && (head + rest)[|head| + j] == rest[j]
  {
  }

  lemma CompactErase(history: seq<Packet>, m: nat)
    requires m + 1 < |history| && !history[m + 1].remove
    ensures Compact(Erase(history, m + 1))
         == (if RemovedLater(history[1..], history[0].speaker) then [] else [history[0]]) + Compact(Erase(history[1..], m))
  {
    var shorter := Erase(history, m + 1);
    assert shorter[0] == history[0] && shorter[1..] == Erase(history[1..], m);
    SameRemovals(history[1..], m, history[0].speaker);
  }

  lemma SameRemovals(history: seq<Packet>, k: nat, speaker: int)
    requires k < |history| && !history[k].remove
    ensures RemovedLater(Erase(history, k), speaker) <==> RemovedLater(history, speaker)
  {
    var shorter := Erase(history, k);
    if RemovedLater(history, speaker) {
      var i :| 0 <= i < |history| && history[i].remove && history[i].speaker == speaker;
      assert shorter[if i < k then i else i - 1] == history[i];
    }
    if RemovedLater(shorter, speaker) {
      var i :| 0 <= i < |shorter| && shorter[i].remove && shorter[i].speaker == speaker;
      assert history[if i < k then i else i + 1] == shorter[i];
    }
  }

  predicate Fits(queue: seq<Packet>, packet: Packet) {
    packet.remove || |queue| < PACKET_CAPACITY
  }

  /** The packet takes the place of an audio packet. */
  ghost predicate Replaces(history: seq<Packet>, packet: Packet, next: seq<Packet>) {
    exists k :: 0 <= k < |history| && !history[k].remove && next == Erase(history, k) + [packet]
  }

  /**
     The queue stands for everything enqueued since the last batch, less audio packets dropped for want of room:
     a removal is gone only because a later removal of the same speaker replaces it.
   */
  lemma EnqueueRecords(history: seq<Packet>, packet: Packet) returns (next: seq<Packet>)
    ensures Compact(next) == Enqueue(Compact(history), packet)
    ensures if Fits(Compact(history), packet) then next == history + [packet] else next == history || Replaces(history, packet, next)
  {
    var queue := Compact(history);
    next := history + [packet];
    CompactAppend(history, packet);
    if !packet.remove && |queue| >= PACKET_CAPACITY {
      var i := FirstAudio(queue);
      if i == |queue| {
        next := history;
      } else {
        var k := DropAudio(history, i);
        CompactAppend(Erase(history, k), packet);
        next := Erase(history, k) + [packet];
      }
    }
  }

  /** The last removal of a speaker is never lost. */
  lemma {:induction false} RemovalSurvives(history: seq<Packet>, speaker: int)
    requires RemovedLater(history, speaker)
    ensures RemovedLater(Compact(history), speaker)
  {
    var rest := Compact(history[1..]);
    RemovedLaterTail(history, speaker);
    if RemovedLater(history[1..], speaker) {
      RemovalSurvives(history[1..], speaker);
      var j :| 0 <= j < |rest| && rest[j].remove && rest[j].speaker == speaker;
      var head := if RemovedLater(history[1..], history[0].speaker) then [] else [history[0]];
      assert (head + rest)[|head| + j] == rest[j];
    } else {
      assert ([history[0]] + rest)[0] == history[0];
    }
  }

  // ---------------------------------------------------------------- decoding a batch

  /** Each speaker's packets since it appeared; `failed` once there were too many speakers. */
  datatype Voice = Voice(speakers: map<int, seq<Packet>>, failed: bool)

  predicate Expired(p: Packet, now: int) {
    now - p.created >= LIFETIME
  }

  /** decode_packet. */
  function Decode(v: Voice, p: Packet, now: int, maximum: nat): Voice {
    if p.remove then v.(speakers := v.speakers - {p.speaker})
    else if Expired(p, now) then v
    else if p.speaker !in v.speakers && |v.speakers| >= maximum then v.(failed := true)
    else
      var heard := if p.speaker in v.speakers then v.speakers[p.speaker] else [];
      v.(speakers := v.speakers[p.speaker := heard + [p]])
  }

  function DecodeAll(v: Voice, batch: seq<Packet>, now: int, maximum: nat): Voice
    decreases |batch|
  {
    if batch == [] then v else DecodeAll(Decode(v, batch[0], now, maximum), batch[1..], now, maximum)
  }

  lemma {:induction false} FailedStays(v: Voice, batch: seq<Packet>, now: int, maximum: nat)
    requires v.failed
    ensures DecodeAll(v, batch, now, maximum).failed
    decreases |batch|
  {
    if batch != [] { FailedStays(Decode(v, batch[0], now, maximum), batch[1..], now, maximum); }
  }

  /** Whether a speaker is removed by a packet of the batch still to come decides whether it matters now. */
  ghost predicate SameHere(v: Voice, w: Voice, later: seq<Packet>, speaker: int) {
    RemovedLater(later, speaker)
    || (if speaker in v.speakers then speaker in w.speakers && w.speakers[speaker] == v.speakers[speaker]
        else speaker !in w.speakers)
  }

  ghost predicate SameUpTo(v: Voice, w: Voice, later: seq<Packet>) {
    forall speaker :: SameHere(v, w, later, speaker)
  }

  lemma RemovedLaterTail(history: seq<Packet>, speaker: int)
    requires history != []
    ensures RemovedLater(history, speaker)
       <==> RemovedLater(history[1..], speaker) || (history[0].remove && history[0].speaker == speaker)
  {
    if RemovedLater(history, speaker) {
      var i :| 0 <= i < |history| && history[i].remove && history[i].speaker == speaker;
      if i > 0 { assert history[1..][i - 1] == history[i]; }
    }
    if RemovedLater(history[1..], speaker) {
      var i :| 0 <= i < |history| - 1 && history[1..][i].remove && history[1..][i].speaker == speaker;
      assert history[i + 1] == history[1..][i];
    }
  }

  /** One packet that compaction keeps. */
  lemma KeptStep(v: Voice, w: Voice, history: seq<Packet>, now: int, maximum: nat)
    requires history != [] && SameUpTo(v, w, history) && !RemovedLater(history[1..], history[0].speaker)
    requires !Decode(v, history[0], now, maximum).failed && !Decode(w, history[0], now, maximum).failed
    ensures SameUpTo(Decode(v, history[0], now, maximum), Decode(w, history[0], now, maximum), history[1..])
  {
    var p := history[0];
    forall speaker
      ensures SameHere(Decode(v, p, now, maximum), Decode(w, p, now, maximum), history[1..], speaker)
    {
      assert SameHere(v, w, history, speaker);
      RemovedLaterTail(history, speaker);
    }
  }

  /** One packet that compaction drops. */
  lemma DroppedStep(v: Voice, w: Voice, history: seq<Packet>, now: int, maximum: nat)
    requires history != [] && SameUpTo(v, w, history) && RemovedLater(history[1..], history[0].speaker)
    requires !Decode(v, history[0], now, maximum).failed
    ensures SameUpTo(Decode(v, history[0], now, maximum), w, history[1..])
  {
    var p := history[0];
    forall speaker ensures SameHere(Decode(v, p, now, maximum), w, history[1..], speaker) {
      assert SameHere(v, w, history, speaker);
      RemovedLaterTail(history, speaker);
    }
  }

  /** Compaction preserves meaning: unless one of the two runs has too many speakers, both end alike. */
  lemma {:induction false} CompactionPreserves(v: Voice, w: Voice, history: seq<Packet>, now: int, maximum: nat)
    requires SameUpTo(v, w, history)
    requires !DecodeAll(v, history, now, maximum).failed && !DecodeAll(w, Compact(history), now, maximum).failed
    ensures SameUpTo(DecodeAll(v, history, now, maximum), DecodeAll(w, Compact(history), now, maximum), [])
    decreases |history|
  {
    if history != [] {
      var p := history[0];
      var v' := Decode(v, p, now, maximum);
      if v'.failed { FailedStays(v', history[1..], now, maximum); }
      if RemovedLater(history[1..], p.speaker) {
        assert [] + Compact(history[1..]) == Compact(history[1..]);
        DroppedStep(v, w, history, now, maximum);
        CompactionPreserves(v', w, history[1..], now, maximum);
      } else {
        var w' := Decode(w, p, now, maximum);
        assert ([p] + Compact(history[1..]))[1..] == Compact(history[1..]);
        if w'.failed { FailedStays(w', Compact(history[1..]), now, maximum); }
        KeptStep(v, w, history, now, maximum);
        CompactionPreserves(v', w', history[1..], now, maximum);
      }
    }
  }

  /** The same speakers with the same state. */
  lemma SameSpeakers(v: Voice, w: Voice)
    requires SameUpTo(v, w, [])
    ensures v.speakers == w.speakers
  {
    forall speaker ensures speaker in v.speakers <==> speaker in w.speakers {
      assert SameHere(v, w, [], speaker);
    }
    forall speaker | speaker in v.speakers ensures v.speakers[speaker] == w.speakers[speaker] {
      assert SameHere(v, w, [], speaker);
    }
  }

  lemma CompactedBatch(v: Voice, history: seq<Packet>, now: int, maximum: nat)
    requires !DecodeAll(v, history, now, maximum).failed && !DecodeAll(v, Compact(history), now, maximum).failed
    ensures DecodeAll(v, Compact(history), now, maximum) == DecodeAll(v, history, now, maximum)
  {
    forall speaker ensures SameHere(v, v, history, speaker) {
    }
    CompactionPreserves(v, v, history, now, maximum);
    SameSpeakers(DecodeAll(v, history, now, maximum), DecodeAll(v, Compact(history), now, maximum));
  }

  // ---------------------------------------------------------------- when a batch has too many speakers

  /** Who is present after a packet, were there no limit. */
  function Present(keys: set<int>, p: Packet, now: int): set<int> {
    if p.remove then keys - {p.speaker} else if Expired(p, now) then keys else keys + {p.speaker}
  }

  predicate Joins(p: Packet, keys: set<int>, now: int) {
    !p.remove && !Expired(p, now) && p.speaker !in keys
  }

  /** Somebody joins when, were there no limit, `maximum` others would be present. */
  predicate Overflows(keys: set<int>, batch: seq<Packet>, now: int, maximum: nat)
    decreases |batch|
  {
    batch != [] &&
    ((Joins(batch[0], keys, now) && |keys| >= maximum) || Overflows(Present(keys, batch[0], now), batch[1..], now, maximum))
  }

  /**
   Who is present when only the packets that compaction keeps are decoded: a speaker still to be removed is
   there if it was at the start, any other if it is there in the full run.
   */
  ghost function Remaining(start: set<int>, keys: set<int>, later: seq<Packet>): set<int> {
    set x | x in start + keys && if RemovedLater(later, x) then x in start else x in keys
  }

  /** The same for the compacted batch: only those join who stay to the end, and only those leave who leave for good. */
  ghost predicate OverflowsCompacted(start: set<int>, keys: set<int>, batch: seq<Packet>, now: int, maximum: nat)
    decreases |batch|
  {
    batch != [] &&
    ((Joins(batch[0], keys, now) && !RemovedLater(batch[1..], batch[0].speaker) && |Remaining(start, keys, batch)| >= maximum)
     || OverflowsCompacted(start, Present(keys, batch[0], now), batch[1..], now, maximum))
  }

  lemma DecodeKeys(v: Voice, p: Packet, now: int, maximum: nat)
    requires !v.failed
    ensures Decode(v, p, now, maximum).failed <==> Joins(p, v.speakers.Keys, now) && |v.speakers.Keys| >= maximum
    ensures !Decode(v, p, now, maximum).failed ==>
              Decode(v, p, now, maximum).speakers.Keys == Present(v.speakers.Keys, p, now)
  {
    assert |v.speakers| == |v.speakers.Keys|;
  }

  /** Exactly when decoding a whole batch fails. */
  lemma {:induction false} FailsWhen(v: Voice, batch: seq<Packet>, now: int, maximum: nat)
    ensures DecodeAll(v, batch, now, maximum).failed <==> v.failed || Overflows(v.speakers.Keys, batch, now, maximum)
    decreases |batch|
  {
    if v.failed {
      FailedStays(v, batch, now, maximum);
    } else if batch != [] {
      DecodeKeys(v, batch[0], now, maximum);
      FailsWhen(Decode(v, batch[0], now, maximum), batch[1..], now, maximum);
    }
  }

  /** A packet that compaction keeps, in the compacted run. */
  lemma RemainingKept(start: set<int>, keys: set<int>, batch: seq<Packet>, now: int)
    requires batch != [] && !RemovedLater(batch[1..], batch[0].speaker)
    ensures Present(Remaining(start, keys, batch), batch[0], now) == Remaining(start, Present(keys, batch[0], now), batch[1..])
    ensures Joins(batch[0], Remaining(start, keys, batch), now) <==> Joins(batch[0], keys, now)
  {
    forall x ensures RemovedLater(batch, x) <==> RemovedLater(batch[1..], x) || (batch[0].remove && batch[0].speaker == x) {
      RemovedLaterTail(batch, x);
    }
  }

  /** A packet that compaction drops. */
  lemma RemainingDropped(start: set<int>, keys: set<int>, batch: seq<Packet>, now: int)
    requires batch != [] && RemovedLater(batch[1..], batch[0].speaker)
    ensures Remaining(start, keys, batch) == Remaining(start, Present(keys, batch[0], now), batch[1..])
  {
    forall x ensures RemovedLater(batch, x) <==> RemovedLater(batch[1..], x) || (batch[0].remove && batch[0].speaker == x) {
      RemovedLaterTail(batch, x);
    }
  }

  lemma {:induction false} CompactedRunFails(start: set<int>, keys: set<int>, w: Voice, batch: seq<Packet>, now: int, maximum: nat)
    requires !w.failed && w.speakers.Keys == Remaining(start, keys, batch)
    ensures DecodeAll(w, Compact(batch), now, maximum).failed <==> OverflowsCompacted(start, keys, batch, now, maximum)
    decreases |batch|
  {
    if batch != [] {
      var p, rest := batch[0], Compact(batch[1..]);
      if RemovedLater(batch[1..], p.speaker) {
        assert [] + rest == rest;
        RemainingDropped(start, keys, batch, now);
        CompactedRunFails(start, Present(keys, p, now), w, batch[1..], now, maximum);
      } else {
        assert ([p] + rest)[0] == p && ([p] + rest)[1..] == rest;
        RemainingKept(start, keys, batch, now);
        DecodeKeys(w, p, now, maximum);
        var next := Decode(w, p, now, maximum);
        if next.failed {
          FailedStays(next, rest, now, maximum);
        } else {
          CompactedRunFails(start, Present(keys, p, now), next, batch[1..], now, maximum);
        }
      }
    }
  }

  /** Exactly when decoding the compacted batch fails, said of the whole batch. */
  lemma CompactedFailsWhen(v: Voice, batch: seq<Packet>, now: int, maximum: nat)
    ensures DecodeAll(v, Compact(batch), now, maximum).failed
       <==> v.failed || OverflowsCompacted(v.speakers.Keys, v.speakers.Keys, batch, now, maximum)
  {
    if v.failed {
      FailedStays(v, Compact(batch), now, maximum);
    } else {
      var keys := v.speakers.Keys;
      assert Remaining(keys, keys, batch) == keys;
      CompactedRunFails(keys, keys, v, batch, now, maximum);
    }
  }

  /** Compaction preserves meaning, failure included, exactly when neither batch overflows or both do. */
  lemma CompactionPreservesWhen(v: Voice, batch: seq<Packet>, now: int, maximum: nat)
    ensures
      var keys := v.speakers.Keys;
      var full, compacted := DecodeAll(v, batch, now, maximum), DecodeAll(v, Compact(batch), now, maximum);
      && (full.failed == compacted.failed
          <==> v.failed || (Overflows(keys, batch, now, maximum) <==> OverflowsCompacted(keys, keys, batch, now, maximum)))
      && (!full.failed && !compacted.failed ==> compacted == full)
  {
    FailsWhen(v, batch, now, maximum);
    CompactedFailsWhen(v, batch, now, maximum);
    if !DecodeAll(v, batch, now, maximum).failed && !DecodeAll(v, Compact(batch), now, maximum).failed {
      CompactedBatch(v, batch, now, maximum);
    }
  }

  lemma Fewer(a: set<int>, b: set<int>)
    requires a <= b
    ensures |a| <= |b|
  {
    assert b == a + (b - a);
  }

  /** When nobody of the start leaves, compaction adds no failure. */
  lemma {:induction false} NewcomersOnly(start: set<int>, keys: set<int>, batch: seq<Packet>, now: int, maximum: nat)
    requires forall x :: x in start ==> !RemovedLater(batch, x)
    ensures OverflowsCompacted(start, keys, batch, now, maximum) ==> Overflows(keys, batch, now, maximum)
    decreases |batch|
  {
    if batch != [] {
      forall x | x in start ensures !RemovedLater(batch[1..], x) { RemovedLaterTail(batch, x); }
      NewcomersOnly(start, Present(keys, batch[0], now), batch[1..], now, maximum);
      Fewer(Remaining(start, keys, batch), keys);
    }
  }

  // ---------------------------------------------------------------- room for everybody

  /** Everybody whose audio a batch brings. */
  function Heard(batch: seq<Packet>): set<int> {
    if batch == [] then {} else (if batch[0].remove then {} else {batch[0].speaker}) + Heard(batch[1..])
  }

  lemma {:induction false} RoomForAll(start: set<int>, keys: set<int>, batch: seq<Packet>, all: set<int>, now: int, maximum: nat)
    requires start <= all && keys <= all && Heard(batch) <= all && |all| <= maximum
    ensures !Overflows(keys, batch, now, maximum) && !OverflowsCompacted(start, keys, batch, now, maximum)
    decreases |batch|
  {
    if batch != [] {
      var p := batch[0];
      RoomForAll(start, Present(keys, p, now), batch[1..], all, now, maximum);
      if Joins(p, keys, now) {
        RoomForOneMore(keys, all, p.speaker);
        if !RemovedLater(batch[1..], p.speaker) {
          RemovedLaterTail(batch, p.speaker);
          RoomForOneMore(Remaining(start, keys, batch), all, p.speaker);
        }
      }
    }
  }

  lemma RoomForOneMore(keys: set<int>, all: set<int>, speaker: int)
    requires keys <= all && speaker in all && speaker !in keys
    ensures |keys| < |all|
  {
    Fewer(keys + {speaker}, all);
  }

  /** With room for everybody who was there or is heard, compaction changes nothing, and nothing fails. */
  lemma RoomyBatch(v: Voice, batch: seq<Packet>, now: int, maximum: nat)
    requires !v.failed && |v.speakers.Keys + Heard(batch)| <= maximum
    ensures DecodeAll(v, Compact(batch), now, maximum) == DecodeAll(v, batch, now, maximum)
    ensures !DecodeAll(v, batch, now, maximum).failed
  {
    RoomForAll(v.speakers.Keys, v.speakers.Keys, batch, v.speakers.Keys + Heard(batch), now, maximum);
    CompactionPreservesWhen(v, batch, now, maximum);
    FailsWhen(v, batch, now, maximum);
  }

  /** In a full room where a speaker leaves twice and another joins in between, only the compacted batch fails. */
  lemma CompactionFails(v: Voice, leave: Packet, join: Packet, now: int, maximum: nat)
    requires !v.failed && |v.speakers| == maximum && leave.speaker in v.speakers && leave.remove
    requires Joins(join, v.speakers.Keys, now)
    ensures !DecodeAll(v, [leave, join, leave], now, maximum).failed
    ensures DecodeAll(v, Compact([leave, join, leave]), now, maximum).failed
  {
    var batch, keys := [leave, join, leave], v.speakers.Keys;
    assert batch[1..] == [join, leave] && batch[1..][1..] == [leave] && [leave][1..] == [];
    assert |keys| == |v.speakers|;
    var fewer := keys - {leave.speaker};
    RoomForOneMore(fewer, keys, leave.speaker);
    FailsWhen(v, batch, now, maximum);
    assert !Overflows(fewer + {join.speaker}, [leave], now, maximum);
    assert batch[1..][0] == join;
    RemovedLaterTail([leave], join.speaker);
    RemovedLaterTail(batch[1..], leave.speaker);
    RemovedLaterTail([leave], leave.speaker);
    assert Remaining(keys, fewer, batch[1..]) == keys by {
      forall x | x in keys && x != leave.speaker ensures !RemovedLater(batch[1..], x) {
        RemovedLaterTail(batch[1..], x);
        RemovedLaterTail([leave], x);
      }
    }
    CompactedFailsWhen(v, batch, now, maximum);
  }

  /** In a full room where somebody else is heard and leaves, only the full batch fails. */
  lemma CompactionSpares(v: Voice, join: Packet, leave: Packet, now: int, maximum: nat)
    requires !v.failed && |v.speakers| == maximum && Joins(join, v.speakers.Keys, now)
    requires leave.remove && leave.speaker == join.speaker
    ensures DecodeAll(v, [join, leave], now, maximum).failed
    ensures !DecodeAll(v, Compact([join, leave]), now, maximum).failed
  {
    var batch, keys := [join, leave], v.speakers.Keys;
    assert batch[1..] == [leave] && [leave][1..] == [] && |keys| == |v.speakers|;
    RemovedLaterTail([leave], leave.speaker);
    assert !OverflowsCompacted(keys, keys + {join.speaker}, [leave], now, maximum);
    FailsWhen(v, batch, now, maximum);
    CompactedFailsWhen(v, batch, now, maximum);
  }

  const MAXIMUM: nat := 24

  /** A room of `n`, each heard once. */
  function Room(n: nat): (v: Voice)
    ensures !v.failed && |v.speakers| == n && forall x :: x in v.speakers <==> 0 <= x < n
  {
    if n == 0 then Voice(map[], false) else Voice(Room(n - 1).speakers[n - 1 := [Packet(n - 1, false, 0, 0)]], false)
  }

  /** Both happen at the runtime's own limit. */
  lemma CompactionMatters()
    ensures
      var v, leave, join := Room(MAXIMUM), Packet(0, true, 0, 0), Packet(24, false, 0, 0);
      && !DecodeAll(v, [leave, join, leave], 0, MAXIMUM).failed
      && DecodeAll(v, Compact([leave, join, leave]), 0, MAXIMUM).failed
    ensures
      var v, join, leave := Room(MAXIMUM), Packet(24, false, 0, 0), Packet(24, true, 0, 0);
      && DecodeAll(v, [join, leave], 0, MAXIMUM).failed
      && !DecodeAll(v, Compact([join, leave]), 0, MAXIMUM).failed
  {
    CompactionFails(Room(MAXIMUM), Packet(0, true, 0, 0), Packet(24, false, 0, 0), 0, MAXIMUM);
    CompactionSpares(Room(MAXIMUM), Packet(24, false, 0, 0), Packet(24, true, 0, 0), 0, MAXIMUM);
  }

  // ---------------------------------------------------------------- everything enqueued for a batch

  function EnqueueAll(queue: seq<Packet>, packets: seq<Packet>): seq<Packet>
    decreases |packets|
  {
    if packets == [] then queue else EnqueueAll(Enqueue(queue, packets[0]), packets[1..])
  }

  /** How many audio packets find the queue full, which is what the drop counter counts. */
  function Drops(queue: seq<Packet>, packets: seq<Packet>): nat
    decreases |packets|
  {
    if packets == [] then 0
    else (if Fits(queue, packets[0]) then 0 else 1) + Drops(Enqueue(queue, packets[0]), packets[1..])
  }

  /** `kept` is `all` without some audio packets. */
  ghost predicate Thinned(all: seq<Packet>, kept: seq<Packet>) {
    if all == [] then kept == []
    else (kept != [] && kept[0] == all[0] && Thinned(all[1..], kept[1..])) || (!all[0].remove && Thinned(all[1..], kept))
  }

  lemma {:induction false} ThinnedAppend(all: seq<Packet>, kept: seq<Packet>, p: Packet)
    requires Thinned(all, kept)
    ensures Thinned(all + [p], kept + [p]) && (!p.remove ==> Thinned(all + [p], kept))
  {
    if all == [] {
      assert [] + [p] == [p] && [p][1..] == [];
      assert Thinned([], []);
    } else {
      assert (all + [p])[0] == all[0] && (all + [p])[1..] == all[1..] + [p];
      if kept != [] && kept[0] == all[0] && Thinned(all[1..], kept[1..]) {
        assert (kept + [p])[0] == kept[0] && (kept + [p])[1..] == kept[1..] + [p];
        ThinnedAppend(all[1..], kept[1..], p);
      } else {
        ThinnedAppend(all[1..], kept, p);
      }
    }
  }

  lemma {:induction false} ThinnedErase(all: seq<Packet>, kept: seq<Packet>, k: nat)
    requires Thinned(all, kept) && k < |kept| && !kept[k].remove
    ensures Thinned(all, Erase(kept, k))
  {
    var shorter := Erase(kept, k);
    if kept[0] == all[0] && Thinned(all[1..], kept[1..]) {
      if k == 0 {
        assert shorter == kept[1..];
      } else {
        assert shorter[0] == kept[0] && shorter[1..] == Erase(kept[1..], k - 1);
        ThinnedErase(all[1..], kept[1..], k - 1);
      }
    } else {
      ThinnedErase(all[1..], kept, k);
    }
  }

  lemma EnqueueOne(done: seq<Packet>, kept: seq<Packet>, p: Packet) returns (next: seq<Packet>)
    requires Thinned(done, kept)
    ensures Thinned(done + [p], next) && Compact(next) == Enqueue(Compact(kept), p)
    ensures |next| + (if Fits(Compact(kept), p) then 0 else 1) == |kept| + 1
  {
    next := EnqueueRecords(kept, p);
    ThinnedAppend(done, kept, p);
    if !Fits(Compact(kept), p) && next != kept {
      var k :| 0 <= k < |kept| && !kept[k].remove && next == Erase(kept, k) + [p];
      ThinnedErase(done, kept, k);
      ThinnedAppend(done, Erase(kept, k), p);
    }
  }

  lemma {:induction false} EnqueueMore(packets: seq<Packet>, i: nat, before: seq<Packet>) returns (kept: seq<Packet>)
    requires i <= |packets| && Thinned(packets[..i], before)
    ensures Thinned(packets, kept) && EnqueueAll(Compact(before), packets[i..]) == Compact(kept)
    ensures |kept| + Drops(Compact(before), packets[i..]) == |before| + |packets| - i
    decreases |packets| - i
  {
    if i == |packets| {
      assert packets[..i] == packets && packets[i..] == [];
      kept := before;
    } else {
      assert packets[..i] + [packets[i]] == packets[..i + 1];
      assert packets[i..][0] == packets[i] && packets[i..][1..] == packets[i + 1..];
      var next := EnqueueOne(packets[..i], before, packets[i]);
      kept := EnqueueMore(packets, i + 1, next);
    }
  }

  /**
   Whatever is enqueued for a batch, the queue is the compaction of those packets less audio packets that the
   drop counter counts; no removal is lost.
   */
  lemma QueueRecords(packets: seq<Packet>) returns (kept: seq<Packet>)
    ensures Thinned(packets, kept) && EnqueueAll([], packets) == Compact(kept)
    ensures |kept| + Drops([], packets) == |packets|
  {
    assert packets[..0] == [] && packets[0..] == packets;
    kept := EnqueueMore(packets, 0, []);
  }

  lemma {:induction false} ThinnedHeard(all: seq<Packet>, kept: seq<Packet>)
    requires Thinned(all, kept)
    ensures Heard(kept) <= Heard(all)
  {
    if all != [] {
      if kept != [] && kept[0] == all[0] && Thinned(all[1..], kept[1..]) {
        ThinnedHeard(all[1..], kept[1..]);
      } else {
        ThinnedHeard(all[1..], kept);
      }
    }
  }

  /** With room for everybody, the worker's batch decodes as if the packets had come one by one, less the drops. */
  lemma BatchDecodes(v: Voice, packets: seq<Packet>, now: int, maximum: nat) returns (kept: seq<Packet>)
    requires !v.failed && |v.speakers.Keys + Heard(packets)| <= maximum
    ensures Thinned(packets, kept) && |kept| + Drops([], packets) == |packets|
    ensures DecodeAll(v, EnqueueAll([], packets), now, maximum) == DecodeAll(v, kept, now, maximum)
  {
    kept := QueueRecords(packets);
    ThinnedHeard(packets, kept);
    Fewer(v.speakers.Keys + Heard(kept), v.speakers.Keys + Heard(packets));
    RoomyBatch(v, kept, now, maximum);
  }

  // ---------------------------------------------------------------- what a packet displaces

  /** The oldest packet that is not a removal. */
  predicate OldestAudio(queue: seq<Packet>, i: nat) {
    i < |queue| && !queue[i].remove && forall j :: 0 <= j < i ==> queue[j].remove
  }

  /**
   A removal takes the place of everything its speaker has queued. Audio joins the end while there is room for 64
   packets; then it displaces the oldest audio, and is dropped itself only if all that is queued are removals.
   */
  lemma EnqueueIs(queue: seq<Packet>, packet: Packet)
    ensures packet.remove ==> Enqueue(queue, packet) == Filter((p: Packet) => p.speaker != packet.speaker, queue) + [packet]
    ensures !packet.remove && |queue| < 64 ==> Enqueue(queue, packet) == queue + [packet]
    ensures !packet.remove && |queue| >= 64 && (forall i :: 0 <= i < |queue| ==> queue[i].remove) ==> Enqueue(queue, packet) == queue
    ensures !packet.remove && |queue| >= 64 ==>
              forall i: nat :: OldestAudio(queue, i) ==> Enqueue(queue, packet) == queue[..i] + queue[i + 1..] + [packet]
  {
    if packet.remove { WithoutIsFilter(queue, packet.speaker); }
    forall i: nat | OldestAudio(queue, i) ensures FirstAudio(queue) == i { FirstAudioIs(queue, i); }
  }

  lemma {:induction false} WithoutIsFilter(queue: seq<Packet>, speaker: int)
    ensures Without(queue, speaker) == Filter((p: Packet) => p.speaker != speaker, queue)
  {
    if queue != [] { WithoutIsFilter(queue[1..], speaker); }
  }

  function Newest(packets: seq<Packet>): seq<Packet> {
    if |packets| <= 64 then packets else packets[|packets| - 64..]
  }

  lemma NewestStep(before: seq<Packet>, p: Packet)
    requires (forall i :: 0 <= i < |before| ==> !before[i].remove) && !p.remove
    ensures Enqueue(Newest(before), p) == Newest(before + [p])
  {
    var queue := Newest(before);
    EnqueueIs(queue, p);
    if |queue| >= 64 {
      assert OldestAudio(queue, 0);
      assert queue[..0] + queue[1..] + [p] == Newest(before + [p]);
    }
  }

  /** Without removals, the queue holds the newest 64 packets. */
  lemma {:induction false} AudioKeepsTheNewest(packets: seq<Packet>, i: nat)
    requires i <= |packets| && forall k :: 0 <= k < |packets| ==> !packets[k].remove
    ensures EnqueueAll(Newest(packets[..i]), packets[i..]) == Newest(packets)
    decreases |packets| - i
  {
    if i == |packets| {
      assert packets[..i] == packets;
    } else {
      assert packets[..i] + [packets[i]] == packets[..i + 1] && packets[i..][0] == packets[i] && packets[i..][1..] == packets[i + 1..];
      NewestStep(packets[..i], packets[i]);
      AudioKeepsTheNewest(packets, i + 1);
    }
  }

  // ---------------------------------------------------------------- what a speaker's state is

  /** The part of a batch after the speaker's last removal. */
  ghost function SinceRemoval(batch: seq<Packet>, speaker: int): seq<Packet> {
    if batch == [] then []
    else if RemovedLater(batch[1..], speaker) || (batch[0].remove && batch[0].speaker == speaker)
    then SinceRemoval(batch[1..], speaker)
    else batch
  }

  function IsHeard(speaker: int, now: int): Packet -> bool {
    (p: Packet) => p.speaker == speaker && !p.remove && now - p.created < 100
  }

  /** A speaker's packets that are in time, in the order they came, since the speaker was last removed. */
  ghost function HeardSince(batch: seq<Packet>, speaker: int, now: int): seq<Packet> {
    Filter(IsHeard(speaker, now), SinceRemoval(batch, speaker))
  }

  lemma {:induction false} SinceRemovalIs(batch: seq<Packet>, speaker: int)
    ensures !RemovedLater(batch, speaker) ==> SinceRemoval(batch, speaker) == batch
  {
    if batch != [] { RemovedLaterTail(batch, speaker); }
  }

  function StateOf(v: Voice, speaker: int): seq<Packet> {
    if speaker in v.speakers then v.speakers[speaker] else []
  }

  /** What one packet does to one speaker. */
  lemma DecodeOne(v: Voice, p: Packet, now: int, maximum: nat, speaker: int)
    requires !Decode(v, p, now, maximum).failed
    ensures
      var u := Decode(v, p, now, maximum);
      if p.remove && p.speaker == speaker then speaker !in u.speakers
      else if IsHeard(speaker, now)(p) then speaker in u.speakers && u.speakers[speaker] == StateOf(v, speaker) + [p]
      else (speaker in u.speakers <==> speaker in v.speakers) && StateOf(u, speaker) == StateOf(v, speaker)
  {
  }

  lemma HeardFirst(batch: seq<Packet>, now: int, speaker: int)
    requires batch != [] && !RemovedLater(batch, speaker)
    ensures HeardSince(batch, speaker, now) == (if IsHeard(speaker, now)(batch[0]) then [batch[0]] else []) + HeardSince(batch[1..], speaker, now)
  {
    RemovedLaterTail(batch, speaker);
    SinceRemovalIs(batch, speaker);
    SinceRemovalIs(batch[1..], speaker);
  }

  /** Decoding leaves each speaker what it had, unless it was removed, and then its packets in order. */
  lemma {:induction false} DecodeIs(v: Voice, batch: seq<Packet>, now: int, maximum: nat, speaker: int)
    requires !DecodeAll(v, batch, now, maximum).failed
    ensures
      var w := DecodeAll(v, batch, now, maximum);
      var had := speaker in v.speakers && !RemovedLater(batch, speaker);
      var heard := HeardSince(batch, speaker, now);
      && (speaker in w.speakers <==> had || heard != [])
      && (speaker in w.speakers ==> w.speakers[speaker] == (if had then v.speakers[speaker] else []) + heard)
    decreases |batch|
  {
    if batch == [] {
      assert speaker in v.speakers ==> v.speakers[speaker] + [] == v.speakers[speaker];
    } else {
      var p, rest := batch[0], batch[1..];
      var u := Decode(v, p, now, maximum);
      if u.failed { FailedStays(u, rest, now, maximum); }
      DecodeIs(u, rest, now, maximum, speaker);
      DecodeOne(v, p, now, maximum, speaker);
      RemovedLaterTail(batch, speaker);
      SinceRemovalIs(rest, speaker);
      if !RemovedLater(batch, speaker) {
        HeardFirst(batch, now, speaker);
        if IsHeard(speaker, now)(p) { Associative(StateOf(v, speaker), [p], HeardSince(rest, speaker, now)); }
      }
    }
  }
}
