/**
 What sending does, said of queues, clocks and engine answers rather than of the code's own steps: when a
 frame goes out, why a flush ends, what a flush costs, and when a message is accepted and as what.
 */
module BinarySending {
  import opened Common
  import opened Bits
  import opened BinaryWire
  import opened BinaryChannel

  // ---------------------------------------------------------------- expiry

  /** How many datagrams at the front of a queue are past their deadline. */
  function Late(queue: seq<Message>, now: nat): (n: nat)
    ensures n <= |queue| && (forall i :: 0 <= i < n ==> queue[i].tick <= now) && (n < |queue| ==> now < queue[n].tick)
  {
    if queue == [] || now < queue[0].tick then 0 else 1 + Late(queue[1..], now)
  }

  /** Expiry drops exactly the late datagrams at the front, and counts them. */
  lemma {:induction false} ExpireIs(c: Channel, now: nat)
    ensures
      var n := Late(c.datagrams, now);
      Expire(c, now) == c.(datagrams := c.datagrams[n..], queuedBytes := c.queuedBytes - PayloadBytes(c.datagrams[..n]),
                           queuedMessages := c.queuedMessages - n, expired := c.expired + n)
    decreases |c.datagrams|
  {
    var n := Late(c.datagrams, now);
    if n > 0 {
      var d := c.(datagrams := c.datagrams[1..], queuedBytes := c.queuedBytes - |c.datagrams[0].payload|,
                  queuedMessages := c.queuedMessages - 1, expired := c.expired + 1);
      ExpireIs(d, now);
      assert c.datagrams[1..][n - 1..] == c.datagrams[n..];
      assert c.datagrams[..n][1..] == c.datagrams[1..][..n - 1];
    } else {
      assert c.datagrams[0..] == c.datagrams && c.datagrams[..0] == [];
    }
  }

  // ---------------------------------------------------------------- one frame

  /** The datagrams still in time. */
  function Live(c: Channel, now: nat): seq<Message> {
    c.datagrams[Late(c.datagrams, now)..]
  }

  /** The message whose turn it is: a datagram if bulk went last or nothing else waits. */
  function Front(c: Channel, now: nat): Option<Message> {
    var live := Live(c, now);
    if live != [] && (c.preferUnreliable || c.bulk == []) then Some(live[0])
    else if c.bulk != [] then Some(c.bulk[0])
    else None
  }

  /** The size of the packet that carries the next piece of a message. */
  function PacketSize(m: Message, capacity: nat): int {
    var left := |m.payload| - m.offset;
    if left + 33 <= capacity then left + 33 else capacity
  }

  /** A datagram that does not fit one frame. */
  predicate Oversized(m: Message, capacity: nat) {
    !m.reliable && |m.payload| - m.offset + 33 > capacity
  }

  /** The channel's tokens and the engine's reliable window have room for a packet. */
  predicate Affordable(c: Channel, packet: int, reply: EngineReply) {
    c.tokens >= packet as real && reply.bufferLeft >= 8192 + 2 * packet
  }

  /** The engine's datagram queue can be read and its counts agree. */
  predicate QueueReadable(reply: EngineReply) {
    reply.endpoint.Some? && reply.endpoint.value.used <= reply.endpoint.value.capacity
  }

  /** The engine's datagram queue has room, with a reserve of 8 KiB or half of a smaller queue. */
  predicate QueueHasRoom(packet: int, reply: EngineReply)
    requires QueueReadable(reply)
  {
    var q := reply.endpoint.value;
    q.capacity - q.used >= 2 * packet + if q.capacity / 2 < 8192 then q.capacity / 2 else 8192
  }

  /** The front must wait: for tokens, or for room in the engine. */
  predicate Waits(c: Channel, m: Message, capacity: nat, reply: EngineReply) {
    var packet := PacketSize(m, capacity);
    !Oversized(m, capacity) &&
    (!Affordable(c, packet, reply) || (!m.reliable && QueueReadable(reply) && !QueueHasRoom(packet, reply)))
  }

  /** The front goes out. */
  predicate GoesOut(c: Channel, m: Message, capacity: nat, reply: EngineReply) {
    var packet := PacketSize(m, capacity);
    && Affordable(c, packet, reply) && reply.accepts
    && (!m.reliable ==> !Oversized(m, capacity) && QueueReadable(reply) && QueueHasRoom(packet, reply))
  }

  /** The frame that carries the next piece of a message. */
  function NextPiece(m: Message, capacity: nat): Frame {
    var end := m.offset + PacketSize(m, capacity) - 33;
    Frame(m.reliable, m.kind, m.id, m.sender, m.recipient, |m.payload|, m.offset,
          if m.offset <= end <= |m.payload| then m.payload[m.offset..end] else [])
  }

  /** Whatever is queued, a front exists, unless all of it is late. */
  lemma SomethingQueued(c: Channel, now: nat)
    requires ChannelOk(c)
    ensures Front(c, now).None? <==> Expire(c, now).queuedMessages == 0
  {
    ExpireIs(c, now);
  }

  lemma DecisionIs(c: Channel, m: Message, capacity: nat, reply: EngineReply)
    requires capacity > HEADER_SIZE && m.offset <= |m.payload| && (!m.reliable ==> m.offset == 0)
    ensures
      var decision := Decide(c, m, Min(|m.payload| - m.offset, capacity - HEADER_SIZE), reply);
      && (decision.Go? <==> GoesOut(c, m, capacity, reply)) && (decision.Wait? <==> Waits(c, m, capacity, reply))
  {
  }

  lemma PieceIs(m: Message, capacity: nat)
    requires capacity > HEADER_SIZE && m.offset <= |m.payload|
    ensures Fragment(m, Min(|m.payload| - m.offset, capacity - HEADER_SIZE)) == NextPiece(m, capacity)
  {
  }

  lemma AfterExpiry(c: Channel, now: nat, capacity: nat, reply: EngineReply)
    requires QueuesOk(c) && capacity > HEADER_SIZE && Late(c.datagrams, now) == 0
    ensures TurnIs(c, TurnAfterExpiry(c, now, capacity, reply), now, capacity, reply)
  {
    assert Live(c, now) == c.datagrams;
    if Front(c, now).Some? {
      var m := Front(c, now).value;
      assert if ChosenLane(c).Datagrams? then DatagramOk(m) else BulkOk(m);
      assert m == LaneQueue(c, ChosenLane(c))[0];
      DecisionIs(c, m, capacity, reply);
      PieceIs(m, capacity);
    }
  }

  /** A turn sends the front's next piece exactly when it may go out, and else fails exactly when it need not wait. */
  predicate TurnIs(c: Channel, t: Turn, now: nat, capacity: nat, reply: EngineReply) {
    var front := Front(c, now);
    && (t.SentOne? <==> front.Some? && GoesOut(c, front.value, capacity, reply))
    && (t.SentOne? ==> t.sent.frame == NextPiece(front.value, capacity))
    && (t.Stop? && c.failure.None? ==>
          (t.channel.failure.None? <==> front.None? || Waits(c, front.value, capacity, reply)))
  }

  lemma FrontAfterExpiry(c: Channel, now: nat)
    ensures Late(Expire(c, now).datagrams, now) == 0
    ensures Front(Expire(c, now), now) == Front(c, now) && Live(Expire(c, now), now) == Live(c, now)
  {
    ExpireIs(c, now);
    var live := Live(c, now);
    assert Late(live, now) == 0 && live[0..] == live;
  }

  lemma TurnSendsWhen(c: Channel, now: nat, capacity: nat, reply: EngineReply)
    requires ChannelOk(c) && capacity > HEADER_SIZE
    ensures TurnIs(c, TakeTurn(c, now, capacity, reply), now, capacity, reply)
  {
    FrontAfterExpiry(c, now);
    ExpireIs(c, now);
    ExpireKeepsQueues(c, now);
    AfterExpiry(Expire(c, now), now, capacity, reply);
  }

  lemma StopLeaves(c: Channel, now: nat, capacity: nat, reply: EngineReply)
    requires ChannelOk(c) && capacity > HEADER_SIZE && TakeTurn(c, now, capacity, reply).Stop?
    ensures var d := TakeTurn(c, now, capacity, reply).channel; d == Expire(c, now).(failure := d.failure)
  {
    ExpireIs(c, now);
    if c.queuedMessages == 0 { assert c.datagrams[0..] == c.datagrams && c.datagrams[..0] == []; }
  }

  // ---------------------------------------------------------------- a whole flush

  /** A sending loop ends with nothing queued, or with a front that the engine's last answer does not let out. */
  predicate Ends(d: Channel, now: nat, capacity: nat, reply: EngineReply) {
    if d.queuedMessages == 0 then d.failure.None?
    else
      var front := Front(d, now);
      && front.Some? && !GoesOut(d, front.value, capacity, reply)
      && (d.failure.None? <==> Waits(d, front.value, capacity, reply))
  }

  lemma StopEnds(c: Channel, now: nat, capacity: nat, reply: EngineReply)
    requires ChannelOk(c) && capacity > HEADER_SIZE && c.failure.None? && TakeTurn(c, now, capacity, reply).Stop?
    ensures Ends(TakeTurn(c, now, capacity, reply).channel, now, capacity, reply)
  {
    TurnSendsWhen(c, now, capacity, reply);
    StopLeaves(c, now, capacity, reply);
    FrontAfterExpiry(c, now);
    SomethingQueued(c, now);
    ExpireKeepsQueues(c, now);
    var d := TakeTurn(c, now, capacity, reply).channel;
    SameFront(Expire(c, now), d, now);
  }

  lemma SameFront(c: Channel, d: Channel, now: nat)
    requires d.datagrams == c.datagrams && d.bulk == c.bulk && d.preferUnreliable == c.preferUnreliable
    ensures Front(d, now) == Front(c, now)
  {
  }

  lemma {:induction false} LoopEnds(c: Channel, now: nat, capacity: nat, engine: nat -> EngineReply, turn: nat)
    requires ChannelOk(c) && capacity > HEADER_SIZE && c.failure.None?
    ensures
      var r := FlushLoop(c, now, capacity, engine, turn);
      Ends(r.channel, now, capacity, engine(turn + |r.sent|))
    decreases c.tokens.Floor
  {
    var t := TakeTurn(c, now, capacity, engine(turn));
    TurnKeepsAccounts(c, now, capacity, engine(turn));
    if t.SentOne? {
      LoopEnds(t.channel, now, capacity, engine, turn + 1);
    } else {
      StopEnds(c, now, capacity, engine(turn));
    }
  }

  /** A message has been arriving for more than 30 seconds. */
  predicate Stuck(a: Assembly, now: nat) {
    a.Active? && now - a.message.tick > 30000
  }

  /** Tokens: 65.536 a millisecond, and never more than 4096. */
  function Replenished(c: Channel, now: nat): real {
    var more := c.tokens + (now - c.lastUpdate) as real * 65.536;
    if more < 4096.0 then more else 4096.0
  }

  /** Everything that a flush of a healthy channel does. */
  predicate FlushIs(c: Channel, r: FlushResult, now: nat, network: Network) {
    var capacity := if network.messageSize < 1024 then network.messageSize else 1024;
    if Stuck(c.controlIn, now) || Stuck(c.bulkIn, now) then
      r == FlushResult(c.(failure := Some(ReassemblyTimeout)), [])
    else
      && r.channel.lastUpdate == now
      && FrameBytes(r.sent) as real + r.channel.tokens == Replenished(c, now)
      && if c.queuedMessages == 0 then r.sent == [] && r.channel.failure.None?
         else if !network.connected then r.sent == [] && r.channel.failure == Some(Disconnected)
         else if capacity <= 33 then r.sent == [] && r.channel.failure == Some(FrameCapacity)
         else Ends(r.channel, now, capacity, network.engine(|r.sent|))
  }

  lemma FlushEnds(c: Channel, now: nat, network: Network)
    requires ChannelOk(c) && c.failure.None? && c.lastUpdate <= now
    ensures FlushIs(c, Flush(c, now, network), now, network)
  {
    var d := Refill(c, now);
    assert (now - c.lastUpdate) as real * 65536.0 / 1000.0 == (now - c.lastUpdate) as real * 65.536;
    if !Stuck(c.controlIn, now) && !Stuck(c.bulkIn, now) && c.queuedMessages != 0 && network.connected && network.Capacity() > 33 {
      FlushLoopKeeps(d, now, network.Capacity(), network.engine, 0);
      LoopEnds(d, now, network.Capacity(), network.engine, 0);
    }
  }

  /** An engine with room to spare, whatever is sent. */
  ghost predicate Roomy(engine: nat -> EngineReply) {
    forall turn :: RoomyReply(engine(turn))
  }

  predicate RoomyReply(reply: EngineReply) {
    reply.bufferLeft >= 10240 && reply.accepts && QueueReadable(reply) && QueueHasRoom(1024, reply)
  }

  /** With a roomy engine and datagrams that fit, a flush does not fail, and leaves only what there are no tokens for. */
  lemma OnlyTokensLimit(c: Channel, now: nat, network: Network)
    requires ChannelOk(c) && c.failure.None? && c.lastUpdate <= now && !Stuck(c.controlIn, now) && !Stuck(c.bulkIn, now)
    requires network.connected && network.messageSize >= 1024 && Roomy(network.engine)
    ensures
      var d := Flush(c, now, network).channel;
      && d.failure.None?
      && (d.queuedMessages != 0 ==> Front(d, now).Some? && d.tokens < PacketSize(Front(d, now).value, 1024) as real)
  {
    var r := Flush(c, now, network);
    FlushEnds(c, now, network);
    FlushKeeps(c, now, network);
    assert RoomyReply(network.engine(|r.sent|));
    if c.queuedMessages != 0 && r.channel.queuedMessages != 0 {
      var m := Front(r.channel, now).value;
      assert DatagramOk(m) || BulkOk(m);
    }
  }

  // ---------------------------------------------------------------- control messages

  /** The number of pieces of at most `room` bytes that a message is cut into: one even if it is empty. */
  predicate Pieces(size: nat, room: int, count: int) {
    room > 0 && 1 <= count && size <= count * room && (count > 1 ==> (count - 1) * room < size)
  }

  lemma FrameCountIs(size: nat, capacity: nat, count: int)
    requires capacity > HEADER_SIZE
    ensures Pieces(size, capacity - HEADER_SIZE, count) <==> count == FrameCount(size, capacity)
  {
    RoundedUp(size, capacity - HEADER_SIZE);
    OnePieces(size, capacity - HEADER_SIZE, FrameCount(size, capacity), count);
  }

  lemma RoundedUp(size: nat, room: nat)
    requires room > 0
    ensures Pieces(size, room, Max(1, (size + room - 1) / room))
  {
    if size == 0 {
      ModUnique(room - 1, room, 0, room - 1);
    } else {
      var k, r := (size - 1) / room, (size - 1) % room;
      assert size - 1 == k * room + r;
      assert (k + 1) * room == k * room + room;
      ModUnique(size + room - 1, room, k + 1, r);
    }
  }

  lemma OnePieces(size: nat, room: int, q: int, count: int)
    requires Pieces(size, room, q)
    ensures Pieces(size, room, count) <==> count == q
  {
    if Pieces(size, room, count) {
      if count < q { SameOrder(count, q - 1, room); }
      if q < count { SameOrder(q, count - 1, room); }
      if count < q - 1 { SameOrder(count, q - 1, room); }
    }
  }

  /** The bytes that a run of frames carries. */
  function Carried(frames: seq<Frame>): seq<Byte> {
    if frames == [] then [] else frames[0].payload + Carried(frames[1..])
  }

  /** Frames of one message: its header, and each at the offset where the one before it ended. */
  predicate Continue(frames: seq<Frame>, m: Message, offset: nat)
    decreases |frames|
  {
    frames != [] ==>
      && frames[0] == Frame(m.reliable, m.kind, m.id, m.sender, m.recipient, |m.payload|, offset, frames[0].payload)
      && Continue(frames[1..], m, offset + |frames[0].payload|)
  }

  lemma CountStep(left: nat, capacity: nat)
    requires capacity > HEADER_SIZE
    ensures
      var room := capacity - HEADER_SIZE;
      FrameCount(left, capacity) == if left > room then 1 + FrameCount(left - room, capacity) else 1
  {
    var room := capacity - HEADER_SIZE;
    if left > room {
      DivStep(left, room);
    } else if left > 0 {
      DivOne(left, room);
    } else {
      ModUnique(room - 1, room, 0, room - 1);
    }
  }

  /** A piece before the rest of its message. */
  lemma PieceJoins(m: Message, size: nat, frames: seq<Frame>)
    requires m.offset + size <= |m.payload|
    requires Continue(frames, m, m.offset + size) && Carried(frames) <= m.payload[m.offset + size..]
    ensures
      var all := [Fragment(m, size)] + frames;
      && Continue(all, m, m.offset) && Carried(all) <= m.payload[m.offset..]
      && (Carried(all) == m.payload[m.offset..] <==> Carried(frames) == m.payload[m.offset + size..])
  {
    var f := Fragment(m, size);
    var all := [f] + frames;
    assert all[0] == f && all[1..] == frames;
    assert m.payload[m.offset..] == f.payload + m.payload[m.offset + size..];
    var n := |Carried(frames)|;
    assert m.payload[m.offset..][..size + n] == f.payload + m.payload[m.offset + size..][..n];
    assert Carried(all)[size..] == Carried(frames) && m.payload[m.offset..][size..] == m.payload[m.offset + size..];
  }

  lemma LastPiece(m: Message)
    requires m.offset <= |m.payload|
    ensures
      var f := Fragment(m, |m.payload| - m.offset);
      Continue([f], m, m.offset) && Carried([f]) == m.payload[m.offset..]
  {
    var f := Fragment(m, |m.payload| - m.offset);
    assert [f][1..] == [] && f.payload + [] == f.payload && m.payload[m.offset..|m.payload|] == m.payload[m.offset..];
  }

  /** Every piece goes out exactly when the engine takes each. */
  lemma {:induction false} AllTaken(m: Message, capacity: nat, accepts: nat -> bool, turn: nat)
    requires capacity > HEADER_SIZE && m.offset <= |m.payload|
    ensures FragmentAll(m, capacity, accepts, turn).complete
       <==> forall i :: turn <= i < turn + FrameCount(|m.payload| - m.offset, capacity) ==> accepts(i)
    decreases |m.payload| - m.offset
  {
    var room, left := capacity - HEADER_SIZE, |m.payload| - m.offset;
    CountStep(left, capacity);
    if left > room { AllTaken(m.(offset := m.offset + room), capacity, accepts, turn + 1); }
  }

  /** The fragments of a message are its bytes in order. */
  lemma {:induction false} FragmentsAre(m: Message, capacity: nat, accepts: nat -> bool, turn: nat)
    requires capacity > HEADER_SIZE && m.offset <= |m.payload|
    ensures
      var r := FragmentAll(m, capacity, accepts, turn);
      && Continue(r.frames, m, m.offset) && Carried(r.frames) <= m.payload[m.offset..]
      && (r.complete ==> Carried(r.frames) == m.payload[m.offset..])
    decreases |m.payload| - m.offset
  {
    var room, left := capacity - HEADER_SIZE, |m.payload| - m.offset;
    if left > room {
      var next := m.(offset := m.offset + room);
      FragmentsAre(next, capacity, accepts, turn + 1);
      var rest := FragmentAll(next, capacity, accepts, turn + 1);
      SameMessage(rest.frames, next, m, next.offset);
      PieceJoins(m, room, rest.frames);
    } else {
      LastPiece(m);
    }
  }

  lemma {:induction false} SameMessage(frames: seq<Frame>, next: Message, m: Message, offset: nat)
    requires Continue(frames, next, offset) && next == m.(offset := next.offset)
    ensures Continue(frames, m, offset)
    decreases |frames|
  {
    if frames != [] { SameMessage(frames[1..], next, m, offset + |frames[0].payload|); }
  }

  /** The engine's reliable queue can be read, and has at least `space` bytes free both by count and by position. */
  predicate QueueHas(n: ControlNetwork, space: int) {
    n.queue.Some? &&
    var q := n.queue.value;
    && q.read <= q.capacity && q.write <= q.capacity && q.used <= q.capacity && q.used + space <= q.capacity
    && space <= (if q.write < q.read then 0 else q.capacity) + q.read - q.write
  }

  /** What a control send of a healthy channel does; `count` is the number of frames that it needs. */
  predicate ControlIs(c: Channel, m: Message, n: ControlNetwork, r: ControlResult, count: int) {
    var capacity := if n.messageSize < 1024 then n.messageSize else 1024;
    var admitted := n.connectionValid && n.connected && capacity > 33 && QueueHas(n, |m.payload| + count * 65 + 8192);
    && (!admitted ==> r == ControlResult(c, [], false))
    && (admitted ==> Continue(r.frames, m, 0) && Carried(r.frames) <= m.payload)
    && (r.accepted <==> admitted && forall i :: 0 <= i < count ==> n.accepts(i))
    && (r.accepted ==> r.channel == c.(sent := c.sent + 1) && Carried(r.frames) == m.payload && |r.frames| == count)
    && (admitted && !r.accepted ==> r.channel == c.(failure := Some(EngineRejected)))
  }

  lemma ControlGoesOut(c: Channel, m: Message, n: ControlNetwork, count: int)
    requires m.offset == 0 && c.failure.None?
    requires var capacity := if n.messageSize < 1024 then n.messageSize else 1024;
             capacity > 33 ==> Pieces(|m.payload|, capacity - 33, count)
    ensures ControlIs(c, m, n, SendControl(c, m, n), count)
  {
    var capacity := n.Capacity();
    if capacity > HEADER_SIZE {
      FrameCountIs(|m.payload|, capacity, count);
      FragmentsAre(m, capacity, n.accepts, 0);
      AllTaken(m, capacity, n.accepts, 0);
      FragmentAllCost(m, capacity, n.accepts, 0);
      assert m.payload[0..] == m.payload;
      AdmittedWhen(m, n, count);
    }
  }

  lemma AdmittedWhen(m: Message, n: ControlNetwork, count: int)
    requires n.Capacity() > HEADER_SIZE && count == FrameCount(|m.payload|, n.Capacity())
    ensures ControlAdmitted(m, n) <==> n.connectionValid && n.connected && QueueHas(n, |m.payload| + count * 65 + 8192)
  {
  }
}
