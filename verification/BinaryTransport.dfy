/**
 The process-wide object behind realms_binary.cpp: its maps, lanes and counters, updated in place by the
 entry points and by the engine's receive callback. Each method is proved to have the effect that
 `BinaryProcess` gives it, and to keep the accounts.
 */
module BinaryTransport {
  import opened Common
  import opened Bits
  import opened BinaryWire
  import opened BinaryChannel
  import opened BinarySending
  import opened BinaryProcess
  import opened BinaryCalls

  /** The process after a lane's assembly was opened for `f`. */
  function AfterOpen(p: Process, id: nat, f: Frame): Process
    requires id in p.channels
  {
    var c := p.channels[id];
    var a := AssemblyOf(c, f.kind);
    p.(channels := p.channels[id := WithAssembly(c, f.kind, Opened(a, f, id))],
       receiveBytes := p.receiveBytes + (if a.Idle? then f.total else 0))
  }

  /** The process after a fragment met its open assembly with outcome `r`. */
  function AfterAppend(p: Process, id: nat, f: Frame, r: Accepted): Process
    requires id in p.channels
  {
    var d := WithAssembly(p.channels[id], f.kind, r.assembly);
    var e := if r.failure.Some? then d.Fail(r.failure.value)
             else d.(received := d.received + (if r.completed.Some? then 1 else 0));
    var done := if r.completed.Some? then [r.completed.value] else [];
    p.(channels := p.channels[id := e], pendingWork := true,
       control := p.control + (if f.kind == 0 then done else []), bulk := p.bulk + (if f.kind == 0 then [] else done),
       receiveMessages := p.receiveMessages + |done|, pendingReceive := p.pendingReceive || done != [])
  }

  /** Charging a whole message at its first fragment, in two steps, is what `TakeFrame` says in one. */
  lemma FragmentIsTakeFrame(p: Process, id: nat, f: Frame, now: nat)
    requires id in p.channels && p.channels[id].failure.None? && f.reliable && AssemblyOk(AssemblyOf(p.channels[id], f.kind))
    ensures
      var c := p.channels[id];
      var a := AssemblyOf(c, f.kind);
      if a.Idle? && (f.offset != 0 || p.receiveBytes + f.total > ByteLimit(f.kind, true)) then
        TakeFrame(p, id, f, now) == (WithChannel(p, id, c.Fail(BadStartOrCapacity)), false)
      else
        var r := Accept(Opened(a, f, id), id, f, now, true, p.receiveMessages < MessageLimit(f.kind));
        TakeFrame(p, id, f, now) == (AfterAppend(AfterOpen(p, id, f), id, f, r), r.failure.None?)
  {
    var c := p.channels[id];
    var a := AssemblyOf(c, f.kind);
    var r := Accept(Opened(a, f, id), id, f, now, true, p.receiveMessages < MessageLimit(f.kind));
    assert WithAssembly(c, f.kind, a) == c;
    if !(a.Idle? && (f.offset != 0 || p.receiveBytes + f.total > ByteLimit(f.kind, true))) {
      TakeFrameIs(p, id, f, now);
      AcceptHeld(a, f, id, now, p.receiveMessages < MessageLimit(f.kind));
      TwoSteps(p, id, f, r);
    }
  }

  /** A fragment that is not refused at its start, as one charge. */
  lemma TakeFrameIs(p: Process, id: nat, f: Frame, now: nat)
    requires id in p.channels && p.channels[id].failure.None? && f.reliable
    requires
      var a := AssemblyOf(p.channels[id], f.kind);
      !(a.Idle? && (f.offset != 0 || p.receiveBytes + f.total > ByteLimit(f.kind, true)))
    ensures
      var c := p.channels[id];
      var r := Accept(Opened(AssemblyOf(c, f.kind), f, id), id, f, now, true, p.receiveMessages < MessageLimit(f.kind));
      var d := WithAssembly(c, f.kind, r.assembly);
      var e := if r.failure.Some? then d.Fail(r.failure.value)
               else d.(received := d.received + (if r.completed.Some? then 1 else 0));
      TakeFrame(p, id, f, now) == (Charge(p.(pendingWork := true), id, ReceiveResult(e, r.completed)), r.failure.None?)
  {
  }

  /** Opening and appending charge what one `Charge` does. */
  lemma TwoSteps(p: Process, id: nat, f: Frame, r: Accepted)
    requires id in p.channels
    requires
      var a := AssemblyOf(p.channels[id], f.kind);
      && Held(r.assembly) + (if r.completed.Some? then |r.completed.value.payload| else 0)
         == Held(a) + (if a.Idle? then f.total else 0)
      && (r.completed.Some? ==> r.completed.value.kind == f.kind) && (r.failure.Some? ==> r.completed.None?)
    ensures
      var d := WithAssembly(p.channels[id], f.kind, r.assembly);
      var e := if r.failure.Some? then d.Fail(r.failure.value)
               else d.(received := d.received + (if r.completed.Some? then 1 else 0));
      AfterAppend(AfterOpen(p, id, f), id, f, r) == Charge(p.(pendingWork := true), id, ReceiveResult(e, r.completed))
  {
    var c := p.channels[id];
    var opening := AfterOpen(p, id, f);
    assert WithAssembly(opening.channels[id], f.kind, r.assembly) == WithAssembly(c, f.kind, r.assembly);
    assert p.control + [] == p.control && p.bulk + [] == p.bulk;
    var d := WithAssembly(c, f.kind, r.assembly);
    assert HeldOf(d) - Held(r.assembly) == HeldOf(c) - Held(AssemblyOf(c, f.kind));
  }

  /** A fragment that is not refused at its start leaves its message charged once. */
  lemma AcceptHeld(a: Assembly, f: Frame, id: nat, now: nat, roomQueue: bool)
    requires a.Idle? ==> f.offset == 0
    ensures
      var r := Accept(Opened(a, f, id), id, f, now, true, roomQueue);
      && Held(r.assembly) + (if r.completed.Some? then |r.completed.value.payload| else 0)
         == Held(a) + (if a.Idle? then f.total else 0)
      && (r.completed.Some? ==> r.completed.value.kind == f.kind) && (r.failure.Some? ==> r.completed.None?)
  {
  }

  class Transport {
    var channels: map<nat, Channel>
    var control: seq<Message>
    var bulk: seq<Message>
    var receiveMessages: int
    var queuedBytes: int
    var receiveBytes: int
    var nextSerial: nat
    var pendingWork: bool
    var pendingReceive: bool

    ghost function State(): Process
      reads this
    {
      Process(channels, control, bulk, receiveMessages, queuedBytes, receiveBytes, nextSerial, pendingWork, pendingReceive)
    }

    ghost predicate Valid()
      reads this
    {
      Accounts(State())
    }

    constructor ()
      ensures Valid()
      ensures State() == Process(map[], [], [], 0, 0, 0, 1, false, false)
    {
      channels, control, bulk := map[], [], [];
      receiveMessages, queuedBytes, receiveBytes, nextSerial := 0, 0, 0, 1;
      pendingWork, pendingReceive := false, false;
    }

    /** `fail` on an attached channel. */
    method Fail(id: nat, reason: Failure)
      requires id in channels
      modifies this
      ensures State() == WithChannel(old(State()), id, old(channels)[id].Fail(reason))
    {
      channels := channels[id := channels[id].Fail(reason)];
      pendingWork := true;
    }

    // -------------------------------------------------------------- receiving

    /** `complete` (realms_binary.cpp:138-148): hands a message to its receive lane if the queue has a place. */
    method Complete(id: nat, m: Message) returns (ok: bool)
      requires id in channels
      modifies this
      ensures ok == (old(receiveMessages) < MessageLimit(m.kind))
      ensures !ok ==> State() == WithChannel(old(State()), id, old(channels)[id].Fail(ReceiveQueueFull))
      ensures ok ==>
        var c := old(channels)[id];
        && channels == old(channels)[id := c.(received := c.received + 1)]
        && control == old(control) + (if m.kind == 0 then [m] else [])
        && bulk == old(bulk) + (if m.kind == 0 then [] else [m])
        && receiveMessages == old(receiveMessages) + 1 && pendingReceive
        && receiveBytes == old(receiveBytes) && queuedBytes == old(queuedBytes)
        && nextSerial == old(nextSerial) && pendingWork == old(pendingWork)
    {
      if receiveMessages >= MessageLimit(m.kind) {
        Fail(id, ReceiveQueueFull);
        return false;
      }
      if m.kind == 0 { control := control + [m]; } else { bulk := bulk + [m]; }
      receiveMessages := receiveMessages + 1;
      channels := channels[id := channels[id].(received := channels[id].received + 1)];
      pendingReceive := true;
      return true;
    }

    /** The datagram branch of receive_frame (realms_binary.cpp:186-196). */
    method ReceiveDatagram(id: nat, f: Frame, now: nat) returns (ok: bool)
      requires id in channels && channels[id].failure.None? && !f.reliable && f.kind != 0
      modifies this
      ensures (State(), ok) == TakeFrame(old(State()), id, f, now)
    {
      var limit := MAXIMUM_QUEUED_BYTES - CONTROL_RESERVE_BYTES;
      if receiveBytes > limit || |f.payload| > limit - receiveBytes {
        Fail(id, ReceiveMemory);
        return false;
      }
      ghost var before := State();
      ghost var r := BinaryChannel.ReceiveFrame(channels[id], id, f, now, true, receiveMessages < MessageLimit(f.kind));
      ok := Complete(id, Header(f, id).(payload := f.payload));
      if ok { receiveBytes := receiveBytes + |f.payload|; }
      assert channels == before.channels[id := r.channel];
      assert State() == Charge(before, id, r);
    }

    /** The assembly of one lane, in place. */
    method SetAssembly(id: nat, kind: nat, a: Assembly)
      requires id in channels
      modifies this`channels
      ensures channels == old(channels)[id := WithAssembly(old(channels)[id], kind, a)]
    {
      var c := channels[id];
      channels := channels[id := if kind == 0 then c.(controlIn := a) else c.(bulkIn := a)];
    }

    /** Opens the lane's assembly for a first fragment (realms_binary.cpp:198-210). */
    method OpenAssembly(id: nat, f: Frame) returns (ok: bool)
      requires id in channels
      modifies this
      ensures
        var c := old(channels)[id];
        var a := AssemblyOf(c, f.kind);
        var room := old(receiveBytes) + f.total <= ByteLimit(f.kind, true);
        && ok == !(a.Idle? && (f.offset != 0 || !room))
        && (!ok ==> State() == WithChannel(old(State()), id, c.Fail(BadStartOrCapacity)))
        && (ok ==> State() == AfterOpen(old(State()), id, f))
    {
      var c := channels[id];
      var a := AssemblyOf(c, f.kind);
      if a.Active? {
        assert channels == channels[id := WithAssembly(c, f.kind, a)];
        return true;
      }
      var limit := MAXIMUM_QUEUED_BYTES - (if f.kind == 0 then 0 else CONTROL_RESERVE_BYTES);
      if f.offset != 0 || receiveBytes > limit || f.total > limit - receiveBytes {
        Fail(id, BadStartOrCapacity);
        return false;
      }
      SetAssembly(id, f.kind, Active(Header(f, id), f.total));
      receiveBytes := receiveBytes + f.total;
      return true;
    }

    /** Appends a fragment to the open assembly (realms_binary.cpp:211-225). */
    method AppendFragment(id: nat, f: Frame, now: nat) returns (ok: bool)
      requires id in channels && channels[id].failure.None? && AssemblyOf(channels[id], f.kind).Active?
      modifies this
      ensures
        var c := old(channels)[id];
        var room := old(receiveMessages) < MessageLimit(f.kind);
        var r := Accept(AssemblyOf(c, f.kind), id, f, now, true, room);
        && ok == r.failure.None?
        && State() == AfterAppend(old(State()), id, f, r)
    {
      ghost var before := channels;
      var assembly := AssemblyOf(channels[id], f.kind);
      assert WithAssembly(channels[id], f.kind, assembly) == channels[id];
      assert control + [] == control && bulk + [] == bulk;
      if !Continues(assembly, f) {
        Fail(id, Inconsistent);
        return false;
      }
      var m := assembly.message.(payload := assembly.message.payload + f.payload, tick := now);
      SetAssembly(id, f.kind, Active(m, assembly.total));
      if |m.payload| == f.total {
        var completed := Complete(id, m);
        if !completed { return false; }
        SetAssembly(id, f.kind, Idle);
      }
      pendingWork := true;
      return true;
    }

    /** The reassembly branch of receive_frame (realms_binary.cpp:198-225). */
    method ReceiveFragment(id: nat, f: Frame, now: nat) returns (ok: bool)
      requires id in channels && channels[id].failure.None? && f.reliable
      requires AssemblyOk(AssemblyOf(channels[id], f.kind))
      modifies this
      ensures (State(), ok) == TakeFrame(old(State()), id, f, now)
    {
      FragmentIsTakeFrame(State(), id, f, now);
      ok := OpenAssembly(id, f);
      if ok {
        ok := AppendFragment(id, f, now);
      }
    }

    /** receive_callback and receive_frame (realms_binary.cpp:150-250). */
    method ReceiveCallback(serial: nat, id: nat, peer: nat, channelId: nat, kind: int, reader: BitReader, now: nat)
      returns (code: nat)
      requires Valid() && reader.pos == 0 && reader.ok
      modifies this, reader
      ensures Valid()
      ensures
        var c := if id in old(channels) then old(channels)[id] else NewChannel(0, false, 0, 0);
        var parsed := Parse(kind, reader.bits, c.isHost, c.peer);
        && (State(), code) == Callback(old(State()), serial, id, peer, channelId, parsed, now)
        && CallsBack(old(State()), serial, id, peer, channelId, parsed, now, State(), code)
    {
      ghost var known := if id in channels then channels[id] else NewChannel(0, false, 0, 0);
      ParsedIsAcceptable(kind, reader.bits, known.isHost, known.peer);
      CallbackIs(State(), serial, id, peer, channelId, Parse(kind, reader.bits, known.isHost, known.peer), now);
      code := AnswerCallback(serial, id, peer, channelId, kind, reader, now);
    }

    method AnswerCallback(serial: nat, id: nat, peer: nat, channelId: nat, kind: int, reader: BitReader, now: nat)
      returns (code: nat)
      requires Valid() && reader.pos == 0 && reader.ok
      modifies this, reader
      ensures Valid()
      ensures
        var c := if id in old(channels) then old(channels)[id] else NewChannel(0, false, 0, 0);
        (State(), code) == Callback(old(State()), serial, id, peer, channelId, Parse(kind, reader.bits, c.isHost, c.peer), now)
    {
      if id !in channels || channels[id].serial != serial { return 1; }
      var c := channels[id];
      ghost var outcome := Parse(kind, reader.bits, c.isHost, c.peer);
      ParsedIsAcceptable(kind, reader.bits, c.isHost, c.peer);
      CallbackKeeps(State(), serial, id, peer, channelId, outcome, now);
      assert ChannelFine(c, id);
      if c.failure.Some? { return 2; }
      if c.peer != peer || id != channelId {
        Fail(id, CallbackMismatch);
        return 2;
      }
      var parsed := reader.ReadFrame(kind, c.isHost, c.peer);
      if parsed.Err? {
        Fail(id, parsed.reason);
        return 2;
      }
      var accepted: bool;
      if parsed.value.reliable {
        accepted := ReceiveFragment(id, parsed.value, now);
      } else {
        accepted := ReceiveDatagram(id, parsed.value, now);
      }
      return if accepted then 0 else 2;
    }

    // -------------------------------------------------------------- attaching and detaching

    /** AttachBinaryChannel (realms_binary.cpp:420-471) once its arguments are parsed. */
    method AttachBinaryChannel(id: nat, peer: nat, isHost: bool, now: nat, connectionOk: bool, registered: bool)
      returns (ok: bool)
      requires Valid()
      modifies this
      ensures Valid()
      ensures (State(), ok) == Attach(old(State()), id, peer, isHost, now, connectionOk, registered)
      ensures Attaches(old(State()), id, peer, isHost, now, connectionOk, registered, State(), ok)
    {
      AttachIs(State(), id, peer, isHost, now, connectionOk, registered);
      AttachKeeps(State(), id, peer, isHost, now, connectionOk, registered);
      ok := Register(id, peer, isHost, now, connectionOk, registered);
    }

    method Register(id: nat, peer: nat, isHost: bool, now: nat, connectionOk: bool, registered: bool) returns (ok: bool)
      modifies this`channels, this`nextSerial
      ensures (State(), ok) == Attach(old(State()), id, peer, isHost, now, connectionOk, registered)
    {
      if id in channels { return channels[id].peer == peer && channels[id].isHost == isHost; }
      if |channels| >= MAXIMUM_REMOTE_PEERS || nextSerial == 0 || !connectionOk { return false; }
      var serial := nextSerial;
      ghost var before := channels;
      channels := channels[id := NewChannel(peer, isHost, serial, now)];
      nextSerial := (nextSerial + 1) % WORD32;
      if !registered {
        channels := channels - {id};
        assert channels == before;
        return false;
      }
      return true;
    }

    /** One lane's part of discard_channel: erases the channel's unread messages in place. */
    method DiscardLane(queue: seq<Message>, id: nat) returns (left: seq<Message>)
      modifies this`receiveBytes, this`receiveMessages
      ensures left == Without(queue, id)
      ensures receiveBytes == old(receiveBytes) - (PayloadBytes(queue) - PayloadBytes(left))
      ensures receiveMessages == old(receiveMessages) - (|queue| - |left|)
    {
      left := queue;
      var i := 0;
      while i < |left|
        invariant i <= |left| <= |queue|
        invariant left[..i] + Without(left[i..], id) == Without(queue, id)
        invariant receiveBytes == old(receiveBytes) - (PayloadBytes(queue) - PayloadBytes(left))
        invariant receiveMessages == old(receiveMessages) - (|queue| - |left|)
        decreases |left| - i
      {
        var tail := left[i..];
        assert tail[1..] == left[i + 1..];
        if left[i].channel == id {
          RemoveAt(left, i);
          receiveBytes := receiveBytes - |left[i].payload|;
          receiveMessages := receiveMessages - 1;
          var next := left[..i] + left[i + 1..];
          assert next[..i] == left[..i] && next[i..] == left[i + 1..];
          assert [] + Without(tail[1..], id) == Without(tail[1..], id);
          left := next;
        } else {
          assert left[..i + 1] == left[..i] + [left[i]];
          Associative(left[..i], [left[i]], Without(tail[1..], id));
          i := i + 1;
        }
      }
      assert left[..i] == left && left[i..] == [];
      assert left + [] == left;
    }

    /** The counters' shares of a channel's queues and assemblies. */
    method DiscardAssemblies(c: Channel)
      modifies this`queuedBytes, this`receiveBytes
      ensures queuedBytes == old(queuedBytes) - c.queuedBytes
      ensures receiveBytes == old(receiveBytes) - Held(c.controlIn) - Held(c.bulkIn)
    {
      queuedBytes := queuedBytes - c.queuedBytes;
      if c.controlIn.Active? { receiveBytes := receiveBytes - c.controlIn.total; }
      if c.bulkIn.Active? { receiveBytes := receiveBytes - c.bulkIn.total; }
    }

    /** discard_channel (realms_binary.cpp:252-272). */
    method Discard(id: nat)
      requires id in channels
      modifies this
      ensures
        var p, q := old(State()), Detach(old(State()), id);
        State() == q.(channels := p.channels, pendingWork := p.pendingWork)
    {
      DiscardAssemblies(channels[id]);
      control := DiscardLane(control, id);
      bulk := DiscardLane(bulk, id);
      pendingReceive := receiveMessages != 0;
    }

    lemma LastChannel(all: map<nat, Channel>, id: nat)
      requires id in all
      ensures all - {id} == map[] <==> all.Keys == {id}
    {
      assert (all - {id}).Keys == all.Keys - {id};
      assert all.Keys == (all.Keys - {id}) + {id};
    }

    /** DetachBinaryChannel (realms_binary.cpp:473-489). */
    method DetachBinaryChannel(id: nat, connectionOk: bool) returns (ok: bool)
      requires Valid()
      modifies this
      ensures Valid()
      ensures ok == (id !in old(channels) || connectionOk)
      ensures State() == if ok then Detach(old(State()), id) else old(State())
    {
      if id !in channels { return true; }
      if !connectionOk { return false; }
      DetachKeeps(State(), id);
      Remove(id);
      return true;
    }

    method Remove(id: nat)
      requires id in channels
      modifies this
      ensures State() == Detach(old(State()), id)
    {
      LastChannel(channels, id);
      Discard(id);
      channels := channels - {id};
      if channels == map[] { pendingWork := false; }
    }

    // -------------------------------------------------------------- polling

    /** The search of PollBinary for the message the caller may read. */
    method Find(queue: seq<Message>, controlChannel: nat) returns (next: nat)
      ensures next == FirstFor(queue, controlChannel)
    {
      next := 0;
      while next < |queue| && controlChannel != 0 && queue[next].channel != controlChannel
        invariant next <= |queue|
        invariant FirstFor(queue, controlChannel) == next + FirstFor(queue[next..], controlChannel)
      {
        assert queue[next..][1..] == queue[next + 1..];
        next := next + 1;
      }
    }

    /** Erases the message that was just read. */
    method Take(bulkLane: bool, next: nat)
      requires next < |if bulkLane then bulk else control|
      modifies this
      ensures
        var queue := if bulkLane then old(bulk) else old(control);
        var left := queue[..next] + queue[next + 1..];
        var q := old(State()).(receiveBytes := old(receiveBytes) - |queue[next].payload|,
                               receiveMessages := old(receiveMessages) - 1,
                               pendingReceive := old(receiveMessages) - 1 != 0);
        State() == if bulkLane then q.(bulk := left) else q.(control := left)
    {
      var queue := if bulkLane then bulk else control;
      receiveBytes := receiveBytes - |queue[next].payload|;
      if bulkLane {
        bulk := queue[..next] + queue[next + 1..];
      } else {
        control := queue[..next] + queue[next + 1..];
      }
      receiveMessages := receiveMessages - 1;
      pendingReceive := receiveMessages != 0;
    }

    /** What PollBinary reports and does, whatever the accounts. */
    method ReadMessage(controlChannel: nat, messageId: nat, capacity: nat, present: bool)
      returns (code: int, message: Option<Message>)
      modifies this
      ensures
        var r := Poll(old(State()), controlChannel, messageId, capacity, present);
        && code == (if r.NothingToRead? then 0 else if r.PollError? then -1 else if r.TooSmall? then -2 else 1)
        && message == (if r.TooSmall? || r.Read? then Some(r.message) else None)
        && State() == if r.Read? then r.process else old(State())
    {
      if !pendingReceive { return 0, None; }
      if (controlChannel == 0) != (messageId == 0) { return -1, None; }
      var next := Find(if controlChannel == 0 then bulk else control, controlChannel);
      code, message := ReadAt(controlChannel, messageId, capacity, present, next);
    }

    /** Reads the message at `next`, the end of the lane if there is none. */
    method ReadAt(controlChannel: nat, messageId: nat, capacity: nat, present: bool, next: nat)
      returns (code: int, message: Option<Message>)
      requires pendingReceive && (controlChannel == 0) == (messageId == 0)
      requires next == FirstFor(if controlChannel == 0 then bulk else control, controlChannel)
      modifies this
      ensures
        var r := Poll(old(State()), controlChannel, messageId, capacity, present);
        && code == (if r.NothingToRead? then 0 else if r.PollError? then -1 else if r.TooSmall? then -2 else 1)
        && message == (if r.TooSmall? || r.Read? then Some(r.message) else None)
        && State() == if r.Read? then r.process else old(State())
    {
      var queue := if controlChannel == 0 then bulk else control;
      if next == |queue| { return 0, None; }
      var m := queue[next];
      if controlChannel != 0 && m.id != messageId { return -1, None; }
      if capacity < |m.payload| || (!present && m.payload != []) { return -2, Some(m); }
      Take(controlChannel == 0, next);
      return 1, Some(m);
    }

    /** PollBinary (realms_binary.cpp:604-644). The message is what the code copies to the caller's buffers. */
    method PollBinary(controlChannel: nat, messageId: nat, capacity: nat, present: bool)
      returns (code: int, message: Option<Message>)
      requires Valid()
      modifies this
      ensures Valid()
      ensures
        var r := Poll(old(State()), controlChannel, messageId, capacity, present);
        && code == (if r.NothingToRead? then 0 else if r.PollError? then -1 else if r.TooSmall? then -2 else 1)
        && message == (if r.TooSmall? || r.Read? then Some(r.message) else None)
        && State() == if r.Read? then r.process else old(State())
      ensures Polls(old(State()), controlChannel, messageId, capacity, present, Poll(old(State()), controlChannel, messageId, capacity, present))
    {
      PollIs(State(), controlChannel, messageId, capacity, present);
      PollKeeps(State(), controlChannel, messageId, capacity, present);
      code, message := ReadMessage(controlChannel, messageId, capacity, present);
    }

    // -------------------------------------------------------------- sending

    /** The do-while loop of send_control: gives the engine one fragment at a time. */
    method SendFragments(m: Message, capacity: nat, accepts: nat -> bool) returns (frames: seq<Frame>, complete: bool)
      requires capacity > HEADER_SIZE && m.offset == 0
      ensures ControlFrames(frames, complete) == FragmentAll(m, capacity, accepts, 0)
    {
      var current, turn := m, 0;
      frames := [];
      while true
        invariant current.offset <= |current.payload|
        invariant FragmentAll(m, capacity, accepts, 0) == After(frames, FragmentAll(current, capacity, accepts, turn))
        decreases |current.payload| - current.offset
      {
        ghost var before := frames;
        var sent, next := SendNext(current, capacity, accepts, turn);
        if sent.None? {
          assert frames + [] == frames;
          return frames, false;
        }
        frames := frames + [sent.value];
        if next.offset >= |next.payload| { return frames, true; }
        AfterTwice(before, [sent.value], FragmentAll(next, capacity, accepts, turn + 1));
        current, turn := next, turn + 1;
      }
    }

    /** One turn of that loop: the next fragment, unless the engine refuses it. */
    method SendNext(m: Message, capacity: nat, accepts: nat -> bool, turn: nat) returns (sent: Option<Frame>, next: Message)
      requires capacity > HEADER_SIZE && m.offset <= |m.payload|
      ensures sent.None? ==> FragmentAll(m, capacity, accepts, turn) == ControlFrames([], false)
      ensures sent.Some? ==>
        && next.payload == m.payload && m.offset <= next.offset <= |m.payload| && (m.offset < |m.payload| ==> m.offset < next.offset)
        && FragmentAll(m, capacity, accepts, turn)
        == if next.offset >= |m.payload| then ControlFrames([sent.value], true)
           else After([sent.value], FragmentAll(next, capacity, accepts, turn + 1))
    {
      if !accepts(turn) { return None, m; }
      FragmentAllUnfolds(m, capacity, accepts, turn);
      var size := Min(|m.payload| - m.offset, capacity - HEADER_SIZE);
      return Some(Fragment(m, size)), m.(offset := m.offset + size);
    }

    lemma FragmentAllUnfolds(m: Message, capacity: nat, accepts: nat -> bool, turn: nat)
      requires capacity > HEADER_SIZE && m.offset <= |m.payload| && accepts(turn)
      ensures
        var size := Min(|m.payload| - m.offset, capacity - HEADER_SIZE);
        var next := m.(offset := m.offset + size);
        var all := FragmentAll(m, capacity, accepts, turn);
        if next.offset >= |m.payload| then all == ControlFrames([Fragment(m, size)], true)
        else all == After([Fragment(m, size)], FragmentAll(next, capacity, accepts, turn + 1))
    {
    }

    function After(frames: seq<Frame>, rest: ControlFrames): ControlFrames {
      rest.(frames := frames + rest.frames)
    }

    lemma AfterTwice(a: seq<Frame>, b: seq<Frame>, rest: ControlFrames)
      ensures After(a, After(b, rest)) == After(a + b, rest)
    {
      Associative(a, b, rest.frames);
    }

    /** send_control (realms_binary.cpp:296-337) and the bookkeeping that follows it. */
    method SendControlMessage(id: nat, m: Message, engine: ControlNetwork) returns (accepted: bool, frames: seq<Frame>)
      requires id in channels && channels[id].failure.None? && m.offset == 0
      modifies this
      ensures
        var r := SendControl(old(channels)[id], m, engine);
        && accepted == r.accepted && frames == r.frames
        && State() == WithChannel(old(State()), id, if accepted then r.channel.(nextMessage := m.id) else r.channel)
    {
      var c := channels[id];
      if !ControlAdmitted(m, engine) {
        assert channels[id := c] == channels;
        return false, [];
      }
      var complete;
      frames, complete := SendFragments(m, engine.Capacity(), engine.accepts);
      if !complete {
        Fail(id, EngineRejected);
        return false, frames;
      }
      channels := channels[id := c.(sent := c.sent + 1, nextMessage := m.id)];
      return true, frames;
    }

    /** The queueing half of SendBinary (realms_binary.cpp:552-560). */
    method QueueMessage(id: nat, m: Message)
      requires id in channels
      modifies this
      ensures State() == WithChannel(old(State()), id, Enqueue(old(channels)[id], m)).(pendingWork := true)
    {
      var c := channels[id];
      if m.reliable {
        c := c.(bulk := c.bulk + [m]);
      } else {
        c := c.(datagrams := c.datagrams + [m]);
      }
      c := c.(nextMessage := m.id, queuedBytes := c.queuedBytes + |m.payload|, queuedMessages := c.queuedMessages + 1);
      channels := channels[id := c];
      queuedBytes := queuedBytes + |m.payload|;
      pendingWork := true;
    }

    /** SendBinary (realms_binary.cpp:491-565) once its text arguments are parsed. */
    method SendBinary(id: nat, args: SendArguments, now: nat, engine: ControlNetwork)
      returns (messageId: Option<nat>, frames: seq<Frame>)
      requires Valid()
      modifies this
      ensures Valid()
      ensures SendResult(State(), messageId, frames) == Send(old(State()), id, args, now, engine)
      ensures Sends(old(State()), id, args, now, engine, SendResult(State(), messageId, frames))
    {
      SendKeeps(State(), id, args, now, engine);
      SendIs(State(), id, args, now, engine);
      messageId, frames := SendMessage(id, args, now, engine);
    }

    method SendMessage(id: nat, args: SendArguments, now: nat, engine: ControlNetwork)
      returns (messageId: Option<nat>, frames: seq<Frame>)
      modifies this
      ensures SendResult(State(), messageId, frames) == Send(old(State()), id, args, now, engine)
    {
      if !args.Valid() || id !in channels || channels[id].failure.Some? { return None, []; }
      var c := channels[id];
      var m := NewMessage(c, id, args, now);
      if args.kind == 0 {
        var accepted;
        accepted, frames := SendControlMessage(id, m, engine);
        return if accepted then Some(m.id) else None, frames;
      }
      if |args.payload| > MAXIMUM_CHANNEL_BYTES - c.queuedBytes || |args.payload| > MAXIMUM_QUEUED_BYTES - queuedBytes ||
         c.queuedMessages >= MAXIMUM_CHANNEL_MESSAGES {
        return None, [];
      }
      QueueMessage(id, m);
      return Some(m.id), [];
    }

    // -------------------------------------------------------------- flushing

    /** The expiry loop inside flush_channel (realms_binary.cpp:361-368). */
    method ExpireDatagrams(c: Channel, now: nat) returns (d: Channel)
      modifies this`queuedBytes
      ensures d == Expire(c, now) && queuedBytes - d.queuedBytes == old(queuedBytes) - c.queuedBytes
    {
      d := c;
      while d.datagrams != [] && now >= d.datagrams[0].tick
        invariant Expire(d, now) == Expire(c, now)
        invariant queuedBytes - d.queuedBytes == old(queuedBytes) - c.queuedBytes
        decreases |d.datagrams|
      {
        var size := |d.datagrams[0].payload|;
        queuedBytes := queuedBytes - size;
        d := d.(datagrams := d.datagrams[1..], queuedBytes := d.queuedBytes - size,
                queuedMessages := d.queuedMessages - 1, expired := d.expired + 1);
      }
    }

    /** One frame of the flush loop, once its lane is chosen (realms_binary.cpp:375-413). */
    method SendFront(c: Channel, lane: Lane, now: nat, capacity: nat, reply: EngineReply)
      returns (d: Channel, decision: Decision, sent: seq<Sent>)
      requires QueuesOk(c) && capacity > HEADER_SIZE && lane == ChosenLane(c) && LaneQueue(c, lane) != []
      modifies this`queuedBytes
      ensures queuedBytes - d.queuedBytes == old(queuedBytes) - c.queuedBytes
      ensures
        match TurnAfterExpiry(c, now, capacity, reply)
        case Stop(e) => d == e && sent == [] && decision != Go
        case SentOne(e, one) => d == e && sent == [one] && decision == Go
    {
      var queue := LaneQueue(c, lane);
      var m := queue[0];
      assert if lane.Datagrams? then DatagramOk(m) else BulkOk(m);
      var size := Min(|m.payload| - m.offset, capacity - HEADER_SIZE);
      decision := Decide(c, m, size, reply);
      match decision
      case Wait => return c, decision, [];
      case Broken(reason) => return c.Fail(reason), decision, [];
      case Go =>
        sent := [Sent(Fragment(m, size), lane, c.datagrams != [] && c.bulk != [], now, m.tick)];
        m := m.(offset := m.offset + size);
        d := c.(tokens := c.tokens - (HEADER_SIZE + size) as real, preferUnreliable := lane != Datagrams);
        if m.offset == |m.payload| {
          queuedBytes := queuedBytes - |m.payload|;
          d := WithLane(d, lane, queue[1..]).(queuedBytes := d.queuedBytes - |m.payload|,
                                              queuedMessages := d.queuedMessages - 1, sent := d.sent + 1);
        } else {
          d := WithLane(d, lane, [m] + queue[1..]);
        }
    }

    /** The sending loop of flush_channel (realms_binary.cpp:359-414). */
    method FlushFrames(c: Channel, now: nat, capacity: nat, engine: nat -> EngineReply)
      returns (d: Channel, sent: seq<Sent>)
      requires QueuesOk(c) && capacity > HEADER_SIZE
      modifies this`queuedBytes
      ensures FlushResult(d, sent) == FlushLoop(c, now, capacity, engine, 0)
      ensures queuedBytes - d.queuedBytes == old(queuedBytes) - c.queuedBytes
    {
      d, sent := c, [];
      var turn := 0;
      while d.queuedMessages != 0
        invariant QueuesOk(d)
        invariant FlushLoop(c, now, capacity, engine, 0) ==
                  (var rest := FlushLoop(d, now, capacity, engine, turn); rest.(sent := sent + rest.sent))
        invariant queuedBytes - d.queuedBytes == old(queuedBytes) - c.queuedBytes
        decreases d.tokens.Floor
      {
        ghost var at := d;
        ghost var t := TakeTurn(d, now, capacity, engine(turn));
        ExpireKeepsQueues(d, now);
        d := ExpireDatagrams(d, now);
        var lane := ChosenLane(d);
        if LaneQueue(d, lane) == [] {
          assert sent + [] == sent;
          return;
        }
        var decision, one;
        d, decision, one := SendFront(d, lane, now, capacity, engine(turn));
        if decision != Go {
          assert sent + [] == sent;
          return;
        }
        ghost var later := FlushLoop(d, now, capacity, engine, turn + 1).sent;
        Associative(sent, one, later);
        sent := sent + one;
        turn := turn + 1;
      }
      assert sent + [] == sent;
    }

    /** flush_channel (realms_binary.cpp:339-416). */
    method FlushChannel(id: nat, now: nat, network: Network) returns (ok: bool, sent: seq<Sent>)
      requires id in channels && QueuesOk(channels[id]) && channels[id].failure.None?
      modifies this
      ensures
        var r := Flush(old(channels)[id], now, network);
        State() == WithChannel(old(State()), id, r.channel) && sent == r.sent && ok == r.channel.failure.None?
      ensures ChannelOk(old(channels)[id]) && old(channels)[id].lastUpdate <= now ==>
                id in channels && FlushIs(old(channels)[id], FlushResult(channels[id], sent), now, network)
    {
      var c := channels[id];
      if ChannelOk(c) && c.lastUpdate <= now { FlushEnds(c, now, network); }
      ok, sent := FlushHealthy(id, now, network);
    }

    method FlushHealthy(id: nat, now: nat, network: Network) returns (ok: bool, sent: seq<Sent>)
      requires id in channels && QueuesOk(channels[id]) && channels[id].failure.None?
      modifies this
      ensures
        var r := Flush(old(channels)[id], now, network);
        State() == WithChannel(old(State()), id, r.channel) && sent == r.sent && ok == r.channel.failure.None?
    {
      var c := channels[id];
      if TimedOut(c.controlIn, now) || TimedOut(c.bulkIn, now) {
        Fail(id, ReassemblyTimeout);
        return false, [];
      }
      channels := channels[id := Refill(c, now)];
      ok, sent := FlushQueues(id, now, network);
    }

    /** The rest of flush_channel, after the tokens are refilled. */
    method FlushQueues(id: nat, now: nat, network: Network) returns (ok: bool, sent: seq<Sent>)
      requires id in channels && QueuesOk(channels[id]) && channels[id].failure.None?
      modifies this
      ensures
        var r := FlushRefilled(old(channels)[id], now, network);
        State() == WithChannel(old(State()), id, r.channel) && sent == r.sent && ok == r.channel.failure.None?
    {
      var c := channels[id];
      assert channels[id := c] == channels;
      if c.queuedMessages == 0 { return true, []; }
      if !network.connected {
        Fail(id, Disconnected);
        return false, [];
      }
      if network.Capacity() <= HEADER_SIZE {
        Fail(id, FrameCapacity);
        return false, [];
      }
      c, sent := FlushFrames(c, now, network.Capacity(), network.engine);
      channels := channels[id := c];
      pendingWork := pendingWork || c.failure.Some?;
      return c.failure.None?, sent;
    }

    /** The loop of UpdateBinary over the channels in key order (realms_binary.cpp:587-598). */
    method FlushChannels(now: nat, networks: nat -> Network) returns (failed: Option<nat>, work: bool)
      requires QueuesFine(State())
      modifies this
      ensures UpdateResult(State(), failed) == FlushAll(old(State()), Ascending(old(channels).Keys), now, networks)
      ensures failed.None? ==> work == WorkLeft(State())
    {
      var remaining := channels.Keys;
      work := false;
      while remaining != {}
        invariant remaining <= channels.Keys && QueuesFine(State())
        invariant FlushAll(old(State()), Ascending(old(channels).Keys), now, networks)
               == FlushAll(State(), Ascending(remaining), now, networks)
        invariant work == WorkAmong(channels, remaining)
        decreases |remaining|
      {
        LeastExists(remaining);
        var id :| IsLeast(id, remaining);
        LeastIsFirst(remaining, id);
        if channels[id].failure.Some? { return Some(id), work; }
        ghost var before := State();
        var ok := FlushNext(id, now, networks(id));
        if !ok { return Some(id), work; }
        WorkSoFar(before.channels, channels, remaining, id);
        work := work || channels[id].queuedMessages != 0 || channels[id].controlIn.Active? || channels[id].bulkIn.Active?;
        remaining := remaining - {id};
      }
      return None, work;
    }

    method FlushNext(id: nat, now: nat, network: Network) returns (ok: bool)
      requires QueuesFine(State()) && id in channels && channels[id].failure.None?
      modifies this
      ensures QueuesFine(old(State())) && State() == FlushOne(old(State()), id, now, network)
      ensures id in channels && ok == channels[id].failure.None?
    {
      var sent;
      ok, sent := FlushChannel(id, now, network);
    }

    /** Some channel already visited has work left. */
    ghost predicate WorkAmong(all: map<nat, Channel>, remaining: set<nat>) {
      exists id :: id in all && id !in remaining && HasWork(all[id].(failure := None))
    }

    lemma WorkSoFar(before: map<nat, Channel>, after: map<nat, Channel>, remaining: set<nat>, id: nat)
      requires id in before && id in after && id in remaining && after == before[id := after[id]]
      ensures WorkAmong(after, remaining - {id}) <==> WorkAmong(before, remaining) || HasWork(after[id].(failure := None))
    {
      if i :| i in before && i !in remaining && HasWork(before[i].(failure := None)) {
        assert i in after && after[i] == before[i] && i !in remaining - {id};
      }
      if i :| i in after && i !in remaining - {id} && HasWork(after[i].(failure := None)) {
        if i != id { assert i in before && i !in remaining; }
      }
    }

    lemma LeastIsFirst(ids: set<nat>, id: nat)
      requires IsLeast(id, ids)
      ensures Ascending(ids) == [id] + Ascending(ids - {id})
    {
      var least :| IsLeast(least, ids) && Ascending(ids) == [least] + Ascending(ids - {least});
    }

    /** What UpdateBinary does, whatever the accounts. */
    method FlushPending(now: nat, connectionOk: bool, networks: nat -> Network) returns (failed: Option<nat>)
      requires QueuesFine(State())
      modifies this
      ensures UpdateResult(State(), failed) == Update(old(State()), now, connectionOk, networks)
    {
      if !pendingWork { return None; }
      if channels == map[] {
        pendingWork := false;
        return None;
      }
      if !connectionOk {
        LeastExists(channels.Keys);
        var first :| IsLeast(first, channels.Keys);
        LeastIsFirst(channels.Keys, first);
        return Some(first);
      }
      var work;
      failed, work := FlushChannels(now, networks);
      if failed.None? { pendingWork := work; }
    }

    /** UpdateBinary (realms_binary.cpp:567-602) after its null check, under a clock that never runs backwards. */
    method UpdateBinary(now: nat, connectionOk: bool, networks: nat -> Network) returns (failed: Option<nat>)
      requires Valid() && ClockAhead(State(), now)
      modifies this
      ensures Valid() && QueuesFine(old(State()))
      ensures UpdateResult(State(), failed) == Update(old(State()), now, connectionOk, networks)
      ensures Updates(old(State()), now, connectionOk, networks, UpdateResult(State(), failed))
    {
      AccountsMeanQueuesFine(State());
      UpdateKeeps(State(), now, connectionOk, networks);
      UpdateIs(State(), now, connectionOk, networks);
      failed := FlushPending(now, connectionOk, networks);
    }
  }
}
