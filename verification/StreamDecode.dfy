/**
 Streaming decode and filtering (internal/ffmpeg: decoder.c, filter.c, raw_cache.c). FFmpeg is abstract: a packet
 says which frames the codec makes of it, and a frame says what the filter graph and the resampler make of it.
 Samples of one instant stand for one element. Unless `reliable`, any FFmpeg call may fail; `stalls` lets the
 filter's sink answer EAGAIN although it has output.
 */
module StreamDecode {
  import opened Common

  /** A decoded frame, and what pushing it makes available. */
  datatype AVFrame = AVFrame(samples: seq<int>, filtered: seq<seq<int>>, resampled: seq<int>)

  /** A demuxed packet and the frames that sending it makes available. */
  datatype Packet = Packet(stream: int, decoded: seq<AVFrame>)

  datatype Sink = Got(frame: seq<int>) | Again | Eof

  // ---------------------------------------------------------------- the filter graph

  /** SA_FilterGraph: the sink and the remainder of an output frame that did not fit. */
  class FilterGraph {
    const reliable: bool
    const tail: seq<seq<int>>
    var pending: seq<int>
    var pendingOffset: int
    var finished: bool
    var sentEof: bool
    var ready: seq<seq<int>>
    var stalls: seq<bool>

    ghost predicate Valid()
      reads this
    {
      && 0 <= pendingOffset && (pending == [] ==> pendingOffset == 0) && (pending != [] ==> pendingOffset < |pending|)
      && (finished ==> sentEof && ready == [] && pending == [])
    }

    /** Everything produced and not yet read. */
    ghost function Leftover(): seq<int>
      requires Valid()
      reads this
    {
      pending[pendingOffset..] + Flatten(ready)
    }

    constructor (reliable: bool, tail: seq<seq<int>>, stalls: seq<bool>)
      ensures Valid() && Leftover() == [] && !sentEof && !finished
      ensures this.reliable == reliable && this.tail == tail && this.stalls == stalls
    {
      this.reliable, this.tail, this.stalls := reliable, tail, stalls;
      pending, pendingOffset, finished, sentEof, ready := [], 0, false, false, [];
    }

    /** av_buffersink_get_frame. */
    method GetFrame() returns (answer: Sink)
      modifies this`ready, this`stalls
      ensures answer.Got? ==> old(ready) == [answer.frame] + ready
      ensures !answer.Got? ==> ready == old(ready)
      ensures answer.Eof? ==> ready == [] && sentEof
      ensures old(stalls) == [] ==> stalls == [] && (answer.Again? ==> ready == [] && !sentEof)
      ensures |ready| + |stalls| < |old(ready)| + |old(stalls)| || !answer.Got?
    {
      if stalls != [] {
        var stall := stalls[0];
        stalls := stalls[1..];
        if stall { return Again; }
      }
      if ready == [] { return if sentEof then Eof else Again; }
      answer := Got(ready[0]);
      ready := ready[1..];
    }

    /** av_buffersrc_add_frame_flags. */
    method AddFrame(frame: AVFrame) returns (ok: bool)
      requires Valid() && !sentEof
      modifies this`ready
      ensures Valid() && (reliable ==> ok)
      ensures ok ==> Leftover() == old(Leftover()) + Flatten(frame.filtered)
    {
      if !reliable { if * { return false; } }
      LeftoverGrows(pending[pendingOffset..], ready, frame.filtered);
      ready := ready + frame.filtered;
      return true;
    }

    /** sa_filter_copy_pending. */
    method CopyPending(out: seq<int>, maxFrames: int) returns (more: seq<int>)
      requires Valid() && |out| <= maxFrames
      modifies this`pending, this`pendingOffset
      ensures Valid() && more + Leftover() == old(out + Leftover()) && |more| <= maxFrames
      ensures |more| < maxFrames ==> pending == []
    {
      more := out;
      if pending == [] {
        assert out + Leftover() == more + Leftover();
        return;
      }
      var remaining, capacity := |pending| - pendingOffset, maxFrames - |out|;
      var count := if remaining < capacity then remaining else capacity;
      ghost var piece := pending[pendingOffset..][..count];
      assert pending[pendingOffset..] == piece + pending[pendingOffset + count..];
      Associative(out, piece, pending[pendingOffset + count..] + Flatten(ready));
      Associative(piece, pending[pendingOffset + count..], Flatten(ready));
      if count > 0 {
        more := out + pending[pendingOffset..pendingOffset + count];
        assert pending[pendingOffset..pendingOffset + count] == piece;
        pendingOffset := pendingOffset + count;
      }
      if pendingOffset >= |pending| { pending, pendingOffset := [], 0; }
    }

    /** sa_filter_store_pending: nothing is overwritten, because the previous remainder is always gone. */
    method StorePending(samples: seq<int>) returns (ok: bool)
      requires pending == [] && pendingOffset == 0
      modifies this`pending, this`pendingOffset
      ensures pendingOffset == 0 && (ok ==> pending == samples) && (!ok ==> pending == [])
      ensures reliable ==> ok
    {
      if samples == [] { return true; }
      if !reliable { if * { return false; } }
      pending, pendingOffset := samples, 0;
      return true;
    }

    /** sa_filter_copy_frame. */
    method CopyFrame(frame: seq<int>, out: seq<int>, maxFrames: int) returns (ok: bool, more: seq<int>)
      requires Valid() && pending == [] && !finished && |out| < maxFrames
      modifies this`pending, this`pendingOffset
      ensures Valid() && |more| <= maxFrames && (reliable ==> ok)
      ensures ok ==> more + Leftover() == out + frame + Flatten(ready)
    {
      more := out;
      if frame == [] {
        assert more + Leftover() == out + frame + Flatten(ready);
        return true, more;
      }
      if !reliable { if * { return false, more; } }
      var capacity := maxFrames - |out|;
      var count := if |frame| < capacity then |frame| else capacity;
      more := out + frame[..count];
      assert frame == frame[..count] + frame[count..];
      ok := true;
      if count < |frame| { ok := StorePending(frame[count..]); }
      if ok { assert more + (frame[count..] + Flatten(ready)) == out + frame + Flatten(ready); }
    }

    /** sa_filter_drain: it moves output in order, and stops early only for want of output. */
    method Drain(out: seq<int>, maxFrames: int) returns (ok: bool, more: seq<int>)
      requires Valid() && |out| <= maxFrames
      modifies this
      ensures Valid() && sentEof == old(sentEof) && |more| <= maxFrames && (reliable ==> ok)
      ensures ok ==> more + Leftover() == out + old(Leftover())
      ensures old(finished) ==> finished
      ensures finished && |out| < maxFrames ==> |more| < maxFrames
      ensures old(stalls) == [] ==> stalls == []
      ensures ok && old(stalls) == [] && |more| < maxFrames ==> Leftover() == [] && finished == sentEof
    {
      more := out;
      while |more| < maxFrames
        invariant Valid() && |more| <= maxFrames && sentEof == old(sentEof) && (old(finished) ==> finished)
        invariant more + Leftover() == out + old(Leftover())
        invariant finished && |out| < maxFrames ==> |more| < maxFrames
        invariant old(stalls) == [] ==> stalls == []
        decreases |ready| + |stalls|
      {
        more := CopyPending(more, maxFrames);
        if |more| >= maxFrames || finished { return true, more; }
        var stop;
        ok, more, stop := Pull(more, maxFrames);
        if !ok || stop { return; }
      }
      return true, more;
    }

    /** One frame from the sink, with no remainder before it. */
    method Pull(out: seq<int>, maxFrames: int) returns (ok: bool, more: seq<int>, stop: bool)
      requires Valid() && pending == [] && !finished && |out| < maxFrames
      modifies this
      ensures Valid() && sentEof == old(sentEof) && |more| <= maxFrames && (reliable ==> ok)
      ensures ok ==> more + Leftover() == out + old(Leftover())
      ensures finished ==> ok && stop && |more| < maxFrames
      ensures old(stalls) == [] ==> stalls == []
      ensures ok && stop && old(stalls) == [] ==> Leftover() == [] && finished == sentEof
      ensures ok && !stop ==> |ready| + |stalls| < old(|ready| + |stalls|)
    {
      more := out;
      var answer := GetFrame();
      match answer
      case Again => return true, more, true;
      case Eof =>
        finished := true;
        return true, more, true;
      case Got(frame) =>
        if !reliable { if * { return false, more, false; } }
        FlattenFirst(frame, ready);
        Associative(more, frame, Flatten(ready));
        ok, more := CopyFrame(frame, more, maxFrames);
        stop := false;
    }

    /** sa_filter_flush. */
    method Flush(out: seq<int>, maxFrames: int) returns (ok: bool, more: seq<int>)
      requires Valid() && |out| <= maxFrames
      modifies this
      ensures Valid() && |more| <= maxFrames && (reliable ==> ok)
      ensures ok ==> sentEof && more + Leftover() == out + old(Leftover()) + if old(sentEof) then [] else Flatten(tail)
      ensures finished && |out| < maxFrames ==> |more| < maxFrames
      ensures old(stalls) == [] ==> stalls == []
      ensures ok && old(stalls) == [] && |more| < maxFrames ==> Leftover() == [] && finished
    {
      if !sentEof {
        if !reliable { if * { return false, out; } }
        FlattenAppend(ready, tail);
        Associative(pending[pendingOffset..], Flatten(ready), Flatten(tail));
        ready, sentEof := ready + tail, true;
        assert out + Leftover() == out + old(Leftover()) + Flatten(tail);
      }
      ok, more := Drain(out, maxFrames);
    }
  }

  lemma FlattenFirst(frame: seq<int>, rest: seq<seq<int>>)
    ensures Flatten([frame] + rest) == frame + Flatten(rest)
  {
    assert ([frame] + rest)[1..] == rest;
  }

  // ---------------------------------------------------------------- the resampler

  /** The resampler keeps what did not fit. */
  class Resampler {
    const reliable: bool
    const tail: seq<int>
    var queue: seq<int>
    var flushed: bool

    constructor (reliable: bool, tail: seq<int>)
      ensures queue == [] && !flushed && this.reliable == reliable && this.tail == tail
    {
      this.reliable, this.tail, queue, flushed := reliable, tail, [], false;
    }

    /** swr_convert with a frame's samples, or without input to flush. */
    method Convert(input: Option<AVFrame>, room: int) returns (ok: bool, converted: seq<int>)
      requires room > 0 && (input.Some? ==> !flushed)
      modifies this
      ensures reliable ==> ok
      ensures flushed == (old(flushed) || input.None?)
      ensures ok ==> converted + queue == old(queue) + if input.Some? then input.value.resampled
                                                       else if old(flushed) then [] else tail
      ensures ok ==> |converted| <= room && (|converted| < room ==> queue == [])
    {
      queue := queue + if input.Some? then input.value.resampled else if flushed then [] else tail;
      flushed := flushed || input.None?;
      if !reliable { if * { return false, []; } }
      var count := if |queue| < room then |queue| else room;
      converted := queue[..count];
      queue := queue[count..];
      return true, converted;
    }
  }

  // ---------------------------------------------------------------- what is still to come

  /** The frames that the codec makes of the packets of one stream; other packets are skipped. */
  ghost function Decoded(packets: seq<Packet>, stream: int): seq<AVFrame> {
    if packets == [] then []
    else (if packets[0].stream == stream then packets[0].decoded else []) + Decoded(packets[1..], stream)
  }

  /** Frames ready, then those of a packet read but not sent, then those of later packets, then the codec's tail. */
  ghost function Ahead(ready: seq<AVFrame>, pending: Option<Packet>, later: seq<AVFrame>, tail: seq<AVFrame>): seq<AVFrame> {
    ready + ((if pending.Some? then pending.value.decoded else []) + (later + tail))
  }

  lemma AheadFirst(ready: seq<AVFrame>, pending: Option<Packet>, later: seq<AVFrame>, tail: seq<AVFrame>)
    requires ready != []
    ensures Ahead(ready, pending, later, tail) == [ready[0]] + Ahead(ready[1..], pending, later, tail)
  {
    assert ready == [ready[0]] + ready[1..];
    Associative([ready[0]], ready[1..], (if pending.Some? then pending.value.decoded else []) + (later + tail));
  }

  lemma AheadSent(packet: Packet, later: seq<AVFrame>, tail: seq<AVFrame>)
    ensures Ahead([], Some(packet), later, tail) == Ahead(packet.decoded, None, later, tail)
  {
    assert [] + (packet.decoded + (later + tail)) == packet.decoded + (later + tail);
    assert [] + (later + tail) == later + tail;
  }

  lemma AheadFlushed(tail: seq<AVFrame>)
    ensures Ahead([], None, [], tail) == Ahead(tail, None, [], [])
  {
  }

  lemma AheadRead(packet: Packet, later: seq<AVFrame>, tail: seq<AVFrame>, ready: seq<AVFrame>)
    ensures Ahead(ready, None, packet.decoded + later, tail) == Ahead(ready, Some(packet), later, tail)
  {
    Associative(packet.decoded, later, tail);
    assert [] + (packet.decoded + (later + tail)) == packet.decoded + (later + tail);
  }

  /** What the filter makes of frames; frames without samples are not pushed. */
  ghost function FilterOutput(frames: seq<AVFrame>): seq<int> {
    if frames == [] then []
    else (if frames[0].samples == [] then [] else Flatten(frames[0].filtered)) + FilterOutput(frames[1..])
  }

  ghost function ResampleOutput(frames: seq<AVFrame>): seq<int> {
    if frames == [] then []
    else (if frames[0].samples == [] then [] else frames[0].resampled) + ResampleOutput(frames[1..])
  }

  ghost predicate AnySamples(frames: seq<AVFrame>) {
    exists i :: 0 <= i < |frames| && frames[i].samples != []
  }

  // ---------------------------------------------------------------- the decoder

  /** What avcodec_receive_frame answers: a frame, a wish for more input, the end, or an error. */
  datatype Reply = Given(next: AVFrame) | WantsMore | Ended | ReceiveFailed

  /** What avcodec_send_packet answers. */
  datatype Sending = Taken | Refused | SendFailed

  /** SA_Decoder. */
  class Decoder {
    const reliable: bool
    const stream: int
    const filtered: bool
    const codecTail: seq<AVFrame>
    const filterTail: seq<seq<int>>
    const resampleTail: seq<int>
    const stalls: seq<bool>
    var packets: seq<Packet>
    var ready: seq<AVFrame>
    var packetPending: Option<Packet>
    var inputEof: bool
    var sentFlush: bool
    var codecEnded: bool
    var finished: bool
    var graph: FilterGraph?
    var resampler: Resampler?

    /** The filter graph and the resampler are this decoder's. */
    ghost predicate Sound()
      reads this, graph, resampler
    {
      && (graph != null ==> filtered && graph.Valid() && graph.tail == filterTail)
      && (graph != null ==> (reliable ==> graph.reliable) && (stalls == [] ==> graph.stalls == []))
      && (resampler != null ==> !filtered && resampler.tail == resampleTail && (reliable ==> resampler.reliable))
    }

    ghost predicate Reading()
      reads this
    {
      && (packetPending.Some? ==> !inputEof && packetPending.value.stream == stream)
      && (inputEof ==> packets == []) && (sentFlush ==> inputEof) && codecEnded == sentFlush
    }

    /** Flushing starts only after the last frame, and the end is final. */
    ghost predicate Valid()
      reads this, graph, resampler
    {
      && Sound() && Reading()
      && (graph != null && graph.sentEof ==> Upcoming() == [])
      && (resampler != null && resampler.flushed ==> Upcoming() == [])
      && (finished ==> Upcoming() == [] && Rest() == [])
    }

    /** The decoded frames that sa_decoder_next_frame has not returned. */
    ghost function Upcoming(): seq<AVFrame>
      reads this
    {
      Ahead(ready, packetPending, Decoded(packets, stream), if sentFlush then [] else codecTail)
    }

    /** The samples that reads have not returned. */
    ghost function Rest(): seq<int>
      requires Sound()
      reads this, graph, resampler
    {
      RestOf(Upcoming())
    }

    /** The samples still to come if `frames` were the frames still to come. */
    ghost function RestOf(frames: seq<AVFrame>): seq<int>
      requires Sound()
      reads this, graph, resampler
    {
      if filtered then
        if graph == null then (if AnySamples(frames) then FilterOutput(frames) + Flatten(filterTail) else [])
        else graph.Leftover() + FilterOutput(frames) + (if graph.sentEof then [] else Flatten(filterTail))
      else
        if resampler == null then (if AnySamples(frames) then ResampleOutput(frames) + resampleTail else [])
        else resampler.queue + ResampleOutput(frames) + (if resampler.flushed then [] else resampleTail)
    }

    constructor (reliable: bool, stream: int, filtered: bool, packets: seq<Packet>, codecTail: seq<AVFrame>,
                 filterTail: seq<seq<int>>, resampleTail: seq<int>, stalls: seq<bool>)
      ensures Valid() && Upcoming() == Decoded(packets, stream) + codecTail && graph == null && resampler == null
      ensures this.reliable == reliable && this.stalls == stalls && this.filtered == filtered
      ensures this.filterTail == filterTail && this.resampleTail == resampleTail
    {
      this.reliable, this.stream, this.filtered, this.packets, this.stalls := reliable, stream, filtered, packets, stalls;
      this.codecTail, this.filterTail, this.resampleTail := codecTail, filterTail, resampleTail;
      ready, packetPending, inputEof, sentFlush, codecEnded := [], None, false, false, false;
      finished, graph, resampler := false, null, null;
    }

    /** The next packet of the stream, or the end of input (the inner loop of sa_decoder_next_frame). */
    method ReadPacket() returns (ok: bool)
      requires packetPending.None? && !inputEof && !sentFlush
      modifies this`packets, this`packetPending, this`inputEof
      ensures Upcoming() == old(Upcoming()) && (reliable ==> ok)
      ensures packetPending.Some? ==> !inputEof && packetPending.value.stream == stream
      ensures inputEof ==> packets == []
      ensures ok ==> packetPending.Some? || inputEof
      ensures |packets| <= |old(packets)| && (packetPending.Some? ==> |packets| < |old(packets)|)
    {
      while true
        invariant packetPending.None? && !inputEof && Decoded(packets, stream) == Decoded(old(packets), stream)
        invariant |packets| <= |old(packets)|
        decreases |packets|
      {
        if !reliable { if * { return false; } }
        if packets == [] {
          inputEof := true;
          return true;
        }
        var packet := packets[0];
        packets := packets[1..];
        if packet.stream != stream { continue; }
        packetPending := Some(packet);
        AheadRead(packet, Decoded(packets, stream), if sentFlush then [] else codecTail, ready);
        return true;
      }
    }

    /** The codec's output side. A reliable codec wants more input only when it has nothing left and has not ended. */
    method ReceiveFrame() returns (reply: Reply)
      modifies this`ready
      ensures if reply.Given? then old(ready) == [reply.next] + ready else ready == old(ready)
      ensures reply.Ended? ==> ready == [] && codecEnded
      ensures reliable ==> !reply.ReceiveFailed? && (reply.WantsMore? ==> ready == [] && !codecEnded)
    {
      if !reliable {
        if * { return ReceiveFailed; }
        if * { return WantsMore; }
      }
      if ready == [] { return if codecEnded then Ended else WantsMore; }
      reply := Given(ready[0]);
      ready := ready[1..];
    }

    /** The codec's input side; None is the end of the stream. A reliable codec refuses only while it has output. */
    method SendPacket(packet: Option<Packet>) returns (sending: Sending)
      requires !codecEnded
      modifies this`ready, this`codecEnded
      ensures if sending.Taken?
              then old(ready) == [] && codecEnded == packet.None? && ready == (if packet.Some? then packet.value.decoded else codecTail)
              else ready == old(ready) && codecEnded == old(codecEnded)
      ensures reliable ==> !sending.SendFailed? && (sending.Refused? ==> ready != [])
    {
      if !reliable {
        if * { return SendFailed; }
        if * { return Refused; }
      }
      if ready != [] { return Refused; }
      ready := if packet.Some? then packet.value.decoded else codecTail;
      codecEnded := packet.None?;
      return Taken;
    }

    /** How much of the input the codec has not been given. */
    ghost function Unread(): nat
      reads this
    {
      |packets| * 8 + (if packetPending.Some? then 4 else 0) + (if inputEof then 0 else 2) + if sentFlush then 0 else 1
    }

    /** The codec wants more: it gets the pending packet or the end, or else the next packet is read. */
    method GiveInput() returns (ok: bool)
      requires Reading() && !sentFlush && (reliable ==> ready == [])
      modifies this`packets, this`ready, this`packetPending, this`inputEof, this`sentFlush, this`codecEnded
      ensures Reading() && (reliable ==> ok) && |Upcoming()| <= |old(Upcoming())|
      ensures ok ==> Upcoming() == old(Upcoming()) && Unread() < old(Unread())
    {
      if packetPending.Some? {
        var sending := SendPacket(packetPending);
        if sending.Refused? { return false; }
        AheadSent(packetPending.value, Decoded(packets, stream), codecTail);
        packetPending := None;
        return sending.Taken?;
      }
      if inputEof {
        var sending := SendPacket(None);
        if !sending.Taken? { return false; }
        AheadFlushed(codecTail);
        sentFlush := true;
        return true;
      }
      ok := ReadPacket();
    }

    /**
       sa_decoder_next_frame: every decoded frame once, in order, then the end. Its three no-progress errors need
       a codec that breaks FFmpeg's promises.
     */
    method NextFrame() returns (ok: bool, next: Option<AVFrame>)
      requires Reading()
      modifies this`packets, this`ready, this`packetPending, this`inputEof, this`sentFlush, this`codecEnded
      ensures Reading() && (reliable ==> ok)
      ensures ok ==> if next.Some? then old(Upcoming()) == [next.value] + Upcoming() else old(Upcoming()) == Upcoming() == []
      ensures |Upcoming()| <= |old(Upcoming())|
    {
      while true
        invariant Reading() && Upcoming() == old(Upcoming())
        decreases Unread()
      {
        if !reliable { if * { return false, None; } }
        ghost var before := ready;
        var reply := ReceiveFrame();
        if reply.Given? {
          AheadFirst(before, packetPending, Decoded(packets, stream), if sentFlush then [] else codecTail);
          return true, Some(reply.next);
        }
        if reply.Ended? { return true, None; }
        if reply.ReceiveFailed? || sentFlush { return false, None; }
        ok := GiveInput();
        if !ok { return false, None; }
      }
    }

    /** sa_decoder_filter_frame, for a frame with samples. */
    method PushFiltered(frame: AVFrame, out: seq<int>, maxFrames: int, ghost later: seq<AVFrame>) returns (ok: bool, more: seq<int>)
      requires Sound() && filtered && frame.samples != [] && |out| < maxFrames && (graph != null ==> !graph.sentEof)
      modifies this`graph, graph
      ensures reliable ==> ok
      ensures ok ==> Sound() && graph != null && !graph.sentEof && (graph == old(graph) || fresh(graph))
      ensures ok ==> |more| <= maxFrames && more + RestOf(later) == out + old(RestOf([frame] + later))
      ensures ok && stalls == [] && |more| < maxFrames ==> graph.Leftover() == []
    {
      more := out;
      FilterFirst(frame, later);
      if graph == null {
        if !reliable { if * { return false, more; } }
        OpenGraph([frame] + later);
      }
      ghost var before := graph.Leftover();
      ok := graph.AddFrame(frame);
      if !ok { return; }
      ghost var all := graph.Leftover();
      ok, more := graph.Drain(more, maxFrames);
      if ok { Regroup(out, all, more, graph.Leftover(), before, Flatten(frame.filtered), FilterOutput(later), Flatten(filterTail)); }
    }

    method OpenResampler(ghost frames: seq<AVFrame>)
      requires Sound() && !filtered && resampler == null && AnySamples(frames)
      modifies this`resampler
      ensures Sound() && resampler != null && fresh(resampler) && !resampler.flushed && RestOf(frames) == old(RestOf(frames))
    {
      resampler := new Resampler(reliable, resampleTail);
    }

    method OpenGraph(ghost frames: seq<AVFrame>)
      requires Sound() && filtered && graph == null && AnySamples(frames)
      modifies this`graph
      ensures Sound() && graph != null && fresh(graph) && !graph.sentEof && RestOf(frames) == old(RestOf(frames))
    {
      graph := new FilterGraph(reliable, filterTail, stalls);
    }

    /** sa_decoder_convert_frame without a filter, for a frame with samples. */
    method PushResampled(frame: AVFrame, out: seq<int>, maxFrames: int, ghost later: seq<AVFrame>) returns (ok: bool, more: seq<int>)
      requires Sound() && !filtered && frame.samples != [] && |out| < maxFrames && (resampler != null ==> !resampler.flushed)
      modifies this`resampler, resampler
      ensures reliable ==> ok
      ensures ok ==> Sound() && resampler != null && !resampler.flushed && (resampler == old(resampler) || fresh(resampler))
      ensures ok ==> |more| <= maxFrames && more + RestOf(later) == out + old(RestOf([frame] + later))
    {
      more := out;
      FilterFirst(frame, later);
      if resampler == null {
        if !reliable { if * { return false, more; } }
        OpenResampler([frame] + later);
      }
      ghost var before := resampler.queue;
      var converted;
      ok, converted := resampler.Convert(Some(frame), maxFrames - |out|);
      if !ok { return; }
      more := out + converted;
      Associative(out, converted, resampler.queue);
      Regroup(out, before + frame.resampled, more, resampler.queue, before, frame.resampled, ResampleOutput(later), resampleTail);
    }

    /** sa_decoder_flush_resampler. */
    method FlushResampler(out: seq<int>, maxFrames: int) returns (ok: bool, more: seq<int>, done: bool)
      requires Sound() && !filtered && |out| < maxFrames
      modifies resampler
      ensures Sound() && (reliable ==> ok)
      ensures ok ==> more + RestOf([]) == out + old(RestOf([])) && |more| <= maxFrames
      ensures ok ==> (done <==> |more| < maxFrames) && (done ==> RestOf([]) == [])
    {
      more := out;
      if resampler == null { return true, more, true; }
      while |more| < maxFrames
        invariant Sound() && |more| <= maxFrames && resampler != null
        invariant more + RestOf([]) == out + old(RestOf([]))
        decreases maxFrames - |more|
      {
        var converted;
        ghost var before := RestOf([]);
        ok, converted := resampler.Convert(None, maxFrames - |more|);
        if !ok { return false, more, false; }
        assert RestOf([]) == resampler.queue && converted + RestOf([]) == before;
        if converted == [] { return true, more, true; }
        Associative(more, converted, RestOf([]));
        more := more + converted;
      }
      return true, more, false;
    }

    /** Flushing the filter once no frame is left; without a graph there is nothing to flush. */
    method FlushFilter(out: seq<int>, maxFrames: int) returns (ok: bool, more: seq<int>, done: bool)
      requires Sound() && filtered && |out| < maxFrames
      modifies graph
      ensures reliable ==> ok
      ensures ok ==> Sound() && more + RestOf([]) == out + old(RestOf([])) && |more| <= maxFrames
      ensures ok && done ==> RestOf([]) == []
      ensures ok && stalls == [] ==> (done <==> |more| < maxFrames)
    {
      more := out;
      if graph == null { return true, more, true; }
      ghost var left, tail := graph.Leftover(), if graph.sentEof then [] else Flatten(filterTail);
      assert RestOf([]) == left + tail;
      Associative(out, left, tail);
      ok, more := graph.Flush(out, maxFrames);
      done := ok && graph.finished;
      if ok { assert RestOf([]) == graph.Leftover(); }
    }

    /**
       sa_decoder_read: the next samples, in order, at most `maxFrames` of them. Without stalls it returns all that
       is left when that is less than `maxFrames`, and only then says that it is done.
     */
    method Read(maxFrames: int) returns (ok: bool, out: seq<int>, done: bool)
      requires Valid()
      modifies this, graph, resampler
      ensures ok ==> Valid() && (graph == old(graph) || fresh(graph)) && (resampler == old(resampler) || fresh(resampler))
      ensures ok ==> maxFrames > 0 && |out| <= maxFrames && out + Rest() == old(Rest())
      ensures ok && done ==> Rest() == []
      ensures ok && stalls == [] ==> (done <==> |out| < maxFrames)
      ensures reliable && maxFrames > 0 ==> ok
    {
      ok, out, done := false, [], false;
      if maxFrames <= 0 { return; }
      if finished { return true, [], true; }
      if graph != null && !graph.finished {
        ok, out := DrainGraph(maxFrames);
        if !ok { return; }
        if |out| >= maxFrames { return true, out, false; }
      }
      while |out| < maxFrames
        invariant Valid() && !finished && |out| <= maxFrames && out + Rest() == old(Rest())
        invariant (graph == old(graph) || fresh(graph)) && (resampler == old(resampler) || fresh(resampler))
        decreases |Upcoming()|
      {
        var ended;
        ok, out, ended, done := Turn(out, maxFrames);
        if !ok || ended { return; }
      }
      return true, out, false;
    }

    /** One turn of that loop: a frame is converted, or the input has ended. */
    method Turn(out: seq<int>, maxFrames: int) returns (ok: bool, more: seq<int>, ended: bool, done: bool)
      requires Valid() && !finished && |out| < maxFrames
      modifies this, graph, resampler
      ensures reliable ==> ok
      ensures ok ==> Valid() && (graph == old(graph) || fresh(graph)) && (resampler == old(resampler) || fresh(resampler))
      ensures ok ==> |more| <= maxFrames && more + Rest() == out + old(Rest())
      ensures ok && !ended ==> !finished && !done && |Upcoming()| < |old(Upcoming())|
      ensures ok && done ==> Rest() == []
      ensures ok && ended && stalls == [] ==> (done <==> |more| < maxFrames)
    {
      more, ended, done := out, false, false;
      var frame;
      ok, frame := NextFrame();
      if !ok { return; }
      ended := frame.None?;
      if ended {
        ok, more, done := EndOfInput(out, maxFrames);
      } else {
        ok, more := Convert(frame.value, out, maxFrames);
      }
    }

    /** Output that the filter made of earlier frames comes first. */
    method DrainGraph(maxFrames: int) returns (ok: bool, out: seq<int>)
      requires Valid() && !finished && graph != null && maxFrames > 0
      modifies graph
      ensures reliable ==> ok
      ensures ok ==> Valid() && |out| <= maxFrames && out + Rest() == old(Rest())
    {
      ghost var later, tail := FilterOutput(Upcoming()), if graph.sentEof then [] else Flatten(filterTail);
      ghost var before := graph.Leftover();
      ok, out := graph.Drain([], maxFrames);
      if ok { DrainedRest(graph.Leftover(), out, before, later, tail); }
    }

    lemma NothingFrom(frame: AVFrame, later: seq<AVFrame>)
      requires Sound() && frame.samples == []
      ensures RestOf([frame] + later) == RestOf(later)
    {
      FilterFirst(frame, later);
    }

    /** sa_decoder_convert_frame: frames without samples are dropped. */
    method Convert(frame: AVFrame, out: seq<int>, maxFrames: int) returns (ok: bool, more: seq<int>)
      requires Sound() && Reading() && !finished && |out| < maxFrames
      requires (graph != null ==> !graph.sentEof) && (resampler != null ==> !resampler.flushed)
      modifies this`graph, this`resampler, graph, resampler
      ensures reliable ==> ok
      ensures ok ==> Valid() && (graph == old(graph) || fresh(graph)) && (resampler == old(resampler) || fresh(resampler))
      ensures ok ==> |more| <= maxFrames && more + Rest() == out + old(RestOf([frame] + Upcoming()))
      ensures ok ==> !finished && Upcoming() == old(Upcoming())
    {
      if frame.samples == [] {
        NothingFrom(frame, Upcoming());
        return true, out;
      }
      if filtered {
        ok, more := PushFiltered(frame, out, maxFrames, Upcoming());
      } else {
        ok, more := PushResampled(frame, out, maxFrames, Upcoming());
      }
    }

    method EndOfInput(out: seq<int>, maxFrames: int) returns (ok: bool, more: seq<int>, done: bool)
      requires Sound() && Reading() && Upcoming() == [] && !finished && |out| < maxFrames
      modifies this`finished, graph, resampler
      ensures reliable ==> ok
      ensures ok ==> Valid() && |more| <= maxFrames && more + Rest() == out + old(Rest())
      ensures ok && done ==> Rest() == []
      ensures ok && stalls == [] ==> (done <==> |more| < maxFrames)
    {
      if filtered {
        ok, more, done := FlushFilter(out, maxFrames);
      } else {
        ok, more, done := FlushResampler(out, maxFrames);
      }
      finished := ok && done;
    }
  }

  lemma DrainedRest(left: seq<int>, out: seq<int>, before: seq<int>, later: seq<int>, tail: seq<int>)
    requires out + left == before
    ensures out + (left + later + tail) == before + later + tail
  {
  }

  lemma FilterFirst(frame: AVFrame, later: seq<AVFrame>)
    ensures FilterOutput([frame] + later) == (if frame.samples == [] then [] else Flatten(frame.filtered)) + FilterOutput(later)
    ensures ResampleOutput([frame] + later) == (if frame.samples == [] then [] else frame.resampled) + ResampleOutput(later)
    ensures AnySamples([frame] + later) == (frame.samples != [] || AnySamples(later))
  {
    var all := [frame] + later;
    assert all[0] == frame && all[1..] == later;
    if AnySamples(later) {
      var i :| 0 <= i < |later| && later[i].samples != [];
      assert all[i + 1].samples != [];
    }
    if frame.samples != [] { assert all[0].samples != []; }
    if AnySamples(all) && frame.samples == [] {
      var i :| 0 <= i < |all| && all[i].samples != [];
      assert later[i - 1].samples != [];
    }
  }

  lemma LeftoverGrows(pending: seq<int>, ready: seq<seq<int>>, frames: seq<seq<int>>)
    ensures pending + Flatten(ready + frames) == pending + Flatten(ready) + Flatten(frames)
  {
    FlattenAppend(ready, frames);
    Associative(pending, Flatten(ready), Flatten(frames));
  }

  /** Reading moves the front of what is left into the output. */
  lemma Regroup(out: seq<int>, all: seq<int>, more: seq<int>, left: seq<int>, before: seq<int>, made: seq<int>, later: seq<int>,
                tail: seq<int>)
    requires more + left == out + all && all == before + made
    ensures more + (left + later + tail) == out + (before + (made + later) + tail)
  {
    calc {
      more + (left + later + tail);
      (more + left) + (later + tail);
      (out + (before + made)) + (later + tail);
      out + (before + (made + later) + tail);
    }
  }

  // ---------------------------------------------------------------- filtering a cached recording

  ghost function RawOutput(frames: seq<AVFrame>): seq<int> {
    if frames == [] then [] else Flatten(frames[0].filtered) + RawOutput(frames[1..])
  }

  /** SA_RawFilterDecoder: a filter over frames decoded before. A recording has at least one frame. */
  class RawFilterDecoder {
    const reliable: bool
    const frames: seq<AVFrame>
    const filterTail: seq<seq<int>>
    const stalls: seq<bool>
    var frameIndex: int
    var finished: bool
    var graph: FilterGraph?

    ghost predicate Valid()
      reads this, graph
    {
      && frames != [] && 0 <= frameIndex <= |frames| && (graph == null ==> frameIndex == 0)
      && (graph != null ==> graph.Valid() && graph.tail == filterTail && (graph.sentEof ==> frameIndex == |frames|))
      && (graph != null ==> (reliable ==> graph.reliable) && (stalls == [] ==> graph.stalls == []))
      && (finished ==> Rest() == [])
    }

    ghost function Rest(): seq<int>
      requires 0 <= frameIndex <= |frames| && (graph != null ==> graph.Valid())
      reads this, graph
    {
      (if graph == null then [] else graph.Leftover()) + RawOutput(frames[frameIndex..])
      + (if graph != null && graph.sentEof then [] else Flatten(filterTail))
    }

    constructor (reliable: bool, frames: seq<AVFrame>, filterTail: seq<seq<int>>, stalls: seq<bool>)
      requires frames != []
      ensures Valid() && Rest() == RawOutput(frames) + Flatten(filterTail)
      ensures this.reliable == reliable && this.stalls == stalls
    {
      this.reliable, this.frames, this.filterTail, this.stalls := reliable, frames, filterTail, stalls;
      frameIndex, finished, graph := 0, false, null;
      new;
      assert frames[0..] == frames && [] + RawOutput(frames) == RawOutput(frames);
    }

    /** One frame of the recording through the filter. */
    method Push(out: seq<int>, maxFrames: int) returns (ok: bool, more: seq<int>)
      requires Valid() && !finished && frameIndex < |frames| && |out| < maxFrames
      modifies this`frameIndex, this`graph, graph
      ensures reliable ==> ok
      ensures ok ==> Valid() && graph != null && (graph == old(graph) || fresh(graph)) && frameIndex == old(frameIndex) + 1
      ensures ok ==> |more| <= maxFrames && more + Rest() == out + old(Rest())
    {
      more := out;
      var frame := frames[frameIndex];
      ghost var later := RawOutput(frames[frameIndex + 1..]);
      assert frames[frameIndex..][0] == frame && frames[frameIndex..][1..] == frames[frameIndex + 1..];
      if graph == null {
        if !reliable { if * { return false, more; } }
        graph := new FilterGraph(reliable, filterTail, stalls);
      }
      frameIndex := frameIndex + 1;
      ghost var before := graph.Leftover();
      ok := graph.AddFrame(frame);
      if !ok { return; }
      ghost var all := graph.Leftover();
      ok, more := graph.Drain(more, maxFrames);
      if ok { Regroup(out, all, more, graph.Leftover(), before, Flatten(frame.filtered), later, Flatten(filterTail)); }
    }

    method DrainGraph(maxFrames: int) returns (ok: bool, out: seq<int>)
      requires Valid() && !finished && graph != null && maxFrames > 0
      modifies graph
      ensures reliable ==> ok
      ensures ok ==> Valid() && |out| <= maxFrames && out + Rest() == old(Rest())
    {
      ghost var later, tail := RawOutput(frames[frameIndex..]), if graph.sentEof then [] else Flatten(filterTail);
      ghost var before := graph.Leftover();
      ok, out := graph.Drain([], maxFrames);
      if ok { DrainedRest(graph.Leftover(), out, before, later, tail); }
    }

    method FlushGraph(out: seq<int>, maxFrames: int) returns (ok: bool, more: seq<int>, done: bool)
      requires Valid() && !finished && graph != null && frameIndex == |frames| && |out| < maxFrames
      modifies this`finished, graph
      ensures reliable ==> ok
      ensures ok ==> Valid() && |more| <= maxFrames && more + Rest() == out + old(Rest())
      ensures ok && done ==> Rest() == []
      ensures ok && stalls == [] ==> (done <==> |more| < maxFrames)
    {
      assert frames[frameIndex..] == [];
      ghost var left, sent := graph.Leftover(), graph.sentEof;
      ok, more := graph.Flush(out, maxFrames);
      if ok {
        assert Rest() == graph.Leftover();
        Associative(out, left, if sent then [] else Flatten(filterTail));
        assert left + [] + (if sent then [] else Flatten(filterTail)) == left + if sent then [] else Flatten(filterTail);
      }
      done := ok && graph.finished;
      finished := done;
    }

    /** sa_raw_filter_decoder_read, with the same promise as Decoder.Read. */
    method Read(maxFrames: int) returns (ok: bool, out: seq<int>, done: bool)
      requires Valid()
      modifies this, graph
      ensures ok ==> Valid() && (graph == old(graph) || fresh(graph))
      ensures ok ==> maxFrames > 0 && |out| <= maxFrames && out + Rest() == old(Rest())
      ensures ok && done ==> Rest() == []
      ensures ok && stalls == [] ==> (done <==> |out| < maxFrames)
      ensures reliable && maxFrames > 0 ==> ok
    {
      ok, out, done := false, [], false;
      if maxFrames <= 0 { return; }
      if finished { return true, [], true; }
      if !reliable { if * { return; } }
      if graph != null && !graph.finished {
        ok, out := DrainGraph(maxFrames);
        if !ok { return; }
      }
      while |out| < maxFrames && frameIndex < |frames|
        invariant Valid() && !finished && |out| <= maxFrames && out + Rest() == old(Rest())
        invariant graph == old(graph) || fresh(graph)
        decreases |frames| - frameIndex
      {
        if !reliable { if * { return false, out, false; } }
        ok, out := Push(out, maxFrames);
        if !ok { return; }
      }
      if |out| < maxFrames && frameIndex >= |frames| {
        ok, out, done := FlushGraph(out, maxFrames);
        return;
      }
      return true, out, false;
    }
  }

  // ---------------------------------------------------------------- any read sizes

  function Sum(sizes: seq<int>): int {
    if sizes == [] then 0 else sizes[0] + Sum(sizes[1..])
  }

  ghost function Front(samples: seq<int>, count: int): seq<int> {
    if count < 0 then [] else if count < |samples| then samples[..count] else samples
  }

  /**
     Any sequence of read sizes: the reads together give the stream's front, as much as was asked for in all.
     How it was cut into reads does not matter, and the end is reported only when nothing is left.
   */
  method ReadMany(decoder: Decoder, sizes: seq<int>) returns (ok: bool, all: seq<int>, done: bool)
    requires decoder.Valid() && forall i :: 0 <= i < |sizes| ==> sizes[i] > 0
    modifies decoder, decoder.graph, decoder.resampler
    ensures decoder.reliable ==> ok
    ensures ok ==> decoder.Valid() && all + decoder.Rest() == old(decoder.Rest())
    ensures ok && done ==> all == old(decoder.Rest())
    ensures ok && decoder.stalls == [] ==> all == Front(old(decoder.Rest()), Sum(sizes))
  {
    ok, all, done := ReadAll(decoder, [], sizes, decoder.Rest(), 0);
  }

  method ReadAll(decoder: Decoder, start: seq<int>, sizes: seq<int>, ghost was: seq<int>, ghost sum: int)
    returns (ok: bool, all: seq<int>, done: bool)
    requires Collected(decoder, was, start, sum) && forall i :: 0 <= i < |sizes| ==> sizes[i] > 0
    modifies decoder, decoder.graph, decoder.resampler
    ensures decoder.reliable ==> ok
    ensures ok ==> Collected(decoder, was, all, sum + Sum(sizes)) && (done ==> decoder.Rest() == [])
    decreases |sizes|
  {
    if sizes == [] { return true, start, false; }
    ok, all, done := ReadMore(decoder, start, sizes[0], was, sum);
    if !ok || |sizes| == 1 { return; }
    ok, all, done := ReadAll(decoder, all, sizes[1..], was, sum + sizes[0]);
  }

  /** `all` has been read of `was`, `sum` samples having been asked for. */
  ghost predicate Collected(decoder: Decoder, was: seq<int>, all: seq<int>, sum: int)
    reads decoder, decoder.graph, decoder.resampler
  {
    && decoder.Valid() && 0 <= sum && all + decoder.Rest() == was
    && (decoder.stalls == [] ==> all == Front(was, sum))
  }

  /** One more read after `all`, which `sum` samples were asked for. */
  method ReadMore(decoder: Decoder, all: seq<int>, size: int, ghost was: seq<int>, ghost sum: int)
    returns (ok: bool, more: seq<int>, done: bool)
    requires size > 0 && Collected(decoder, was, all, sum)
    modifies decoder, decoder.graph, decoder.resampler
    ensures decoder.reliable ==> ok
    ensures ok ==> Collected(decoder, was, more, sum + size) && (done ==> decoder.Rest() == [])
    ensures ok ==> decoder.graph == old(decoder.graph) || fresh(decoder.graph)
    ensures ok ==> decoder.resampler == old(decoder.resampler) || fresh(decoder.resampler)
  {
    var out;
    ok, out, done := decoder.Read(size);
    more := all + out;
    if ok {
      Associative(all, out, decoder.Rest());
      if decoder.stalls == [] { FrontGrows(was, all, out, decoder.Rest(), sum, size, done); }
    }
  }

  /** The same for a decoder of cached frames. */
  method ReadManyCached(decoder: RawFilterDecoder, sizes: seq<int>) returns (ok: bool, all: seq<int>, done: bool)
    requires decoder.Valid() && forall i :: 0 <= i < |sizes| ==> sizes[i] > 0
    modifies decoder, decoder.graph
    ensures decoder.reliable ==> ok
    ensures ok ==> decoder.Valid() && all + decoder.Rest() == old(decoder.Rest())
    ensures ok && done ==> all == old(decoder.Rest())
    ensures ok && decoder.stalls == [] ==> all == Front(old(decoder.Rest()), Sum(sizes))
  {
    ok, all, done := ReadAllCached(decoder, [], sizes, decoder.Rest(), 0);
  }

  ghost predicate CollectedCached(decoder: RawFilterDecoder, was: seq<int>, all: seq<int>, sum: int)
    reads decoder, decoder.graph
  {
    && decoder.Valid() && 0 <= sum && all + decoder.Rest() == was
    && (decoder.stalls == [] ==> all == Front(was, sum))
  }

  method ReadAllCached(decoder: RawFilterDecoder, start: seq<int>, sizes: seq<int>, ghost was: seq<int>, ghost sum: int)
    returns (ok: bool, all: seq<int>, done: bool)
    requires CollectedCached(decoder, was, start, sum) && forall i :: 0 <= i < |sizes| ==> sizes[i] > 0
    modifies decoder, decoder.graph
    ensures decoder.reliable ==> ok
    ensures ok ==> CollectedCached(decoder, was, all, sum + Sum(sizes)) && (done ==> decoder.Rest() == [])
    decreases |sizes|
  {
    if sizes == [] { return true, start, false; }
    ok, all, done := ReadMoreCached(decoder, start, sizes[0], was, sum);
    if !ok || |sizes| == 1 { return; }
    ok, all, done := ReadAllCached(decoder, all, sizes[1..], was, sum + sizes[0]);
  }

  method ReadMoreCached(decoder: RawFilterDecoder, all: seq<int>, size: int, ghost was: seq<int>, ghost sum: int)
    returns (ok: bool, more: seq<int>, done: bool)
    requires size > 0 && CollectedCached(decoder, was, all, sum)
    modifies decoder, decoder.graph
    ensures decoder.reliable ==> ok
    ensures ok ==> CollectedCached(decoder, was, more, sum + size) && (done ==> decoder.Rest() == [])
    ensures ok ==> decoder.graph == old(decoder.graph) || fresh(decoder.graph)
  {
    var out;
    ok, out, done := decoder.Read(size);
    more := all + out;
    if ok {
      Associative(all, out, decoder.Rest());
      if decoder.stalls == [] { FrontGrows(was, all, out, decoder.Rest(), sum, size, done); }
    }
  }

  lemma FrontGrows(was: seq<int>, all: seq<int>, out: seq<int>, rest: seq<int>, sum: int, size: int, done: bool)
    requires all + (out + rest) == was && all == Front(was, sum) && 0 <= sum && size > 0 && |out| <= size
    requires (done <==> |out| < size) && (done ==> rest == [])
    ensures all + out == Front(was, sum + size)
  {
    assert was[..|all + out|] == all + out;
  }
}
