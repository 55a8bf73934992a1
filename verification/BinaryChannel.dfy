/**
 One attached channel of the binary transport: its two outgoing queues, its two reassembly slots, and
 what a flush, a control send and a received frame do to them. Everything here is the specification
 that the methods of `BinaryTransport` are proved against.
 */
module BinaryChannel {
  import opened Common
  import opened Bits
  import opened BinaryWire

  const SEND_BURST: real := 4096.0
  const RELIABLE_RESERVE: nat := 8 * 1024
  const ENGINE_FRAME_OVERHEAD: nat := 32
  const REASSEMBLY_TIMEOUT: nat := 30000

  datatype Message = Message(sender: nat, recipient: nat, channel: nat, kind: nat, id: nat, reliable: bool,
                             payload: seq<Byte>, tick: nat, offset: nat)

  datatype Assembly = Idle | Active(message: Message, total: nat)

  datatype Lane = Datagrams | Bulk

  datatype Channel = Channel(
    peer: nat, isHost: bool, serial: nat, lastUpdate: int, nextMessage: nat, tokens: real,
    queuedBytes: int, queuedMessages: int, preferUnreliable: bool, failure: Option<Failure>,
    datagrams: seq<Message>, bulk: seq<Message>, controlIn: Assembly, bulkIn: Assembly,
    sent: nat, received: nat, expired: nat)
  {
    /** `fail`: the first reason sticks. */
    function Fail(reason: Failure): Channel {
      this.(failure := if failure.None? then Some(reason) else failure)
    }
  }

  function Min(a: int, b: int): int { if a < b then a else b }
  function Max(a: int, b: int): int { if a > b then a else b }

  function PayloadBytes(queue: seq<Message>): (n: nat) {
    if queue == [] then 0 else |queue[0].payload| + PayloadBytes(queue[1..])
  }

  lemma {:induction false} PayloadBytesAppend(a: seq<Message>, b: seq<Message>)
    ensures PayloadBytes(a + b) == PayloadBytes(a) + PayloadBytes(b)
  {
    if a == [] {
      assert a + b == b;
    } else {
      PayloadBytesAppend(a[1..], b);
      assert (a + b)[1..] == a[1..] + b;
    }
  }

  function Held(a: Assembly): nat { if a.Active? then a.total else 0 }

  /** What every operation keeps about one channel. */
  ghost predicate ChannelOk(c: Channel) {
    && c.queuedBytes == PayloadBytes(c.datagrams) + PayloadBytes(c.bulk)
    && c.queuedMessages == |c.datagrams| + |c.bulk|
    && 0.0 <= c.tokens <= SEND_BURST
    && c.nextMessage < WORD32
    && QueuesOk(c)
    && AssemblyOk(c.controlIn) && AssemblyOk(c.bulkIn)
  }

  /** Only the front of the bulk queue may be partly sent, and it is never wholly sent. */
  ghost predicate QueuesOk(c: Channel) {
    && (forall i :: 0 <= i < |c.datagrams| ==> DatagramOk(c.datagrams[i]))
    && (forall i :: 0 <= i < |c.bulk| ==> BulkOk(c.bulk[i]))
    && (forall i :: 1 <= i < |c.bulk| ==> c.bulk[i].offset == 0)
  }

  predicate SendableHeader(m: Message) {
    m.sender != 0 && m.sender < WORD64 && m.recipient < WORD64 && m.kind < 0x1_0000 && 0 < m.id < WORD32
  }

  predicate DatagramOk(m: Message) {
    SendableHeader(m) && !m.reliable && m.kind != 0 && m.offset == 0 && |m.payload| <= FRAME_SIZE - HEADER_SIZE
  }

  predicate BulkOk(m: Message) {
    SendableHeader(m) && m.reliable && m.kind != 0 && |m.payload| <= MAXIMUM_MESSAGE_SIZE &&
    (m.offset == 0 || m.offset < |m.payload|)
  }

  ghost predicate AssemblyOk(a: Assembly) {
    a.Active? ==> |a.message.payload| <= a.total <= MAXIMUM_MESSAGE_SIZE
  }

  // ---------------------------------------------------------------- sending

  /** What the engine answers in one turn of the flush loop. */
  datatype EngineReply = EngineReply(bufferLeft: nat, endpoint: Option<UnreliableQueue>, accepts: bool)
  datatype UnreliableQueue = UnreliableQueue(capacity: nat, used: nat)

  /** The fragment of `m` that starts at its offset; send_frame packs exactly this. */
  function Fragment(m: Message, size: nat): (f: Frame)
    requires m.offset + size <= |m.payload|
  {
    Frame(m.reliable, m.kind, m.id, m.sender, m.recipient, |m.payload|, m.offset, m.payload[m.offset..m.offset + size])
  }

  /** One frame given to the engine, with what the flush loop knew when it chose it. */
  datatype Sent = Sent(frame: Frame, lane: Lane, bothWaiting: bool, now: nat, deadline: nat)

  datatype FlushResult = FlushResult(channel: Channel, sent: seq<Sent>)

  /** Drops the datagrams at the front whose deadline has passed. */
  function Expire(c: Channel, now: nat): Channel
    decreases |c.datagrams|
  {
    if c.datagrams != [] && now >= c.datagrams[0].tick then
      Expire(c.(datagrams := c.datagrams[1..], queuedBytes := c.queuedBytes - |c.datagrams[0].payload|,
                queuedMessages := c.queuedMessages - 1, expired := c.expired + 1), now)
    else c
  }

  function ChosenLane(c: Channel): Lane {
    if c.datagrams != [] && (c.preferUnreliable || c.bulk == []) then Datagrams else Bulk
  }

  function LaneQueue(c: Channel, lane: Lane): seq<Message> {
    if lane.Datagrams? then c.datagrams else c.bulk
  }

  function WithLane(c: Channel, lane: Lane, queue: seq<Message>): Channel {
    if lane.Datagrams? then c.(datagrams := queue) else c.(bulk := queue)
  }

  /** The channel after the engine took `size` bytes of the front of `lane`. */
  function AfterSend(c: Channel, lane: Lane, size: nat): Channel
    requires LaneQueue(c, lane) != []
  {
    var queue := LaneQueue(c, lane);
    var m := queue[0].(offset := queue[0].offset + size);
    var paid := c.(tokens := c.tokens - (HEADER_SIZE + size) as real, preferUnreliable := lane.Bulk?);
    if m.offset == |m.payload| then
      WithLane(paid, lane, queue[1..]).(queuedBytes := c.queuedBytes - |m.payload|,
                                        queuedMessages := c.queuedMessages - 1, sent := c.sent + 1)
    else WithLane(paid, lane, [m] + queue[1..])
  }

  /** Why the loop stops before sending `packet` bytes from the front of the queue, if it does. */
  datatype Decision = Go | Wait | Broken(reason: Failure)

  function Decide(c: Channel, m: Message, size: nat, engine: EngineReply): Decision
    requires m.offset <= |m.payload|
  {
    var packet := HEADER_SIZE + size;
    if !m.reliable && size != |m.payload| - m.offset then Broken(DatagramTooLarge)
    else if c.tokens < packet as real || engine.bufferLeft < RELIABLE_RESERVE + packet * 2 then Wait
    else if !m.reliable && engine.endpoint.None? then Broken(EndpointUnavailable)
    else if !m.reliable && engine.endpoint.value.used > engine.endpoint.value.capacity then Broken(EndpointAccounting)
    else if !m.reliable && engine.endpoint.value.capacity - engine.endpoint.value.used
                           < Min(RELIABLE_RESERVE, engine.endpoint.value.capacity / 2) + packet * 2 then Wait
    else if !engine.accepts then Broken(EngineRejected)
    else Go
  }

  /** One turn of the sending loop: it stops with a channel, or gives one frame to the engine. */
  datatype Turn = Stop(channel: Channel) | SentOne(channel: Channel, sent: Sent)

  function TakeTurn(c: Channel, now: nat, capacity: nat, reply: EngineReply): (turn: Turn)
    requires capacity > HEADER_SIZE && QueuesOk(c)
    ensures QueuesOk(turn.channel)
    ensures turn.SentOne? ==> 0.0 <= turn.channel.tokens <= c.tokens - HEADER_SIZE as real
  {
    if c.queuedMessages == 0 then Stop(c)
    else
      ExpireKeepsQueues(c, now);
      TurnAfterExpiry(Expire(c, now), now, capacity, reply)
  }

  function TurnAfterExpiry(c: Channel, now: nat, capacity: nat, reply: EngineReply): (turn: Turn)
    requires capacity > HEADER_SIZE && QueuesOk(c)
    ensures QueuesOk(turn.channel)
    ensures turn.SentOne? ==> 0.0 <= turn.channel.tokens <= c.tokens - HEADER_SIZE as real
  {
    var lane := ChosenLane(c);
    var queue := LaneQueue(c, lane);
    if queue == [] then Stop(c)
    else
      var m := queue[0];
      assert if lane.Datagrams? then DatagramOk(m) else BulkOk(m);
      var size := Min(|m.payload| - m.offset, capacity - HEADER_SIZE);
      match Decide(c, m, size, reply)
      case Wait => Stop(c)
      case Broken(reason) => Stop(c.Fail(reason))
      case Go =>
        AfterSendKeepsQueues(c, lane, size);
        SentOne(AfterSend(c, lane, size),
                Sent(Fragment(m, size), lane, c.datagrams != [] && c.bulk != [], now, m.tick))
  }

  /** The sending loop of flush_channel. It ends because every frame costs at least a header's tokens. */
  function FlushLoop(c: Channel, now: nat, capacity: nat, engine: nat -> EngineReply, turn: nat): FlushResult
    requires capacity > HEADER_SIZE && QueuesOk(c)
    decreases c.tokens.Floor
  {
    match TakeTurn(c, now, capacity, engine(turn))
    case Stop(c') => FlushResult(c', [])
    case SentOne(c', one) =>
      var rest := FlushLoop(c', now, capacity, engine, turn + 1);
      rest.(sent := [one] + rest.sent)
  }

  /** What the network answers for one flush of one channel. */
  datatype Network = Network(connected: bool, messageSize: nat, engine: nat -> EngineReply)
  {
    /** frame_capacity (realms_binary.cpp:118-121); an absent endpoint has message size zero. */
    function Capacity(): (capacity: nat)
      ensures capacity <= FRAME_SIZE
    {
      Min(FRAME_SIZE, messageSize)
    }
  }

  function TimedOut(a: Assembly, now: nat): bool {
    a.Active? && now - a.message.tick > REASSEMBLY_TIMEOUT
  }

  function Refill(c: Channel, now: nat): Channel {
    var tokens := c.tokens + (now - c.lastUpdate) as real * 65536.0 / 1000.0;
    c.(tokens := if tokens < SEND_BURST then tokens else SEND_BURST, lastUpdate := now)
  }

  /** flush_channel (realms_binary.cpp:339-416). */
  function Flush(c: Channel, now: nat, network: Network): FlushResult
    requires QueuesOk(c)
  {
    if TimedOut(c.controlIn, now) || TimedOut(c.bulkIn, now) then FlushResult(c.Fail(ReassemblyTimeout), [])
    else FlushRefilled(Refill(c, now), now, network)
  }

  /** flush_channel once the tokens are refilled. */
  function FlushRefilled(c: Channel, now: nat, network: Network): FlushResult
    requires QueuesOk(c)
  {
    if c.queuedMessages == 0 then FlushResult(c, [])
    else if !network.connected then FlushResult(c.Fail(Disconnected), [])
    else if network.Capacity() <= HEADER_SIZE then FlushResult(c.Fail(FrameCapacity), [])
    else FlushLoop(c, now, network.Capacity(), network.engine, 0)
  }

  // ---------------------------------------------------------------- flush keeps the channel in order

  lemma {:induction false} ExpireKeepsQueues(c: Channel, now: nat)
    requires QueuesOk(c)
    ensures QueuesOk(Expire(c, now))
    ensures Expire(c, now).tokens == c.tokens && Expire(c, now).bulk == c.bulk
    decreases |c.datagrams|
  {
    if c.datagrams != [] && now >= c.datagrams[0].tick {
      ExpireKeepsQueues(c.(datagrams := c.datagrams[1..], queuedBytes := c.queuedBytes - |c.datagrams[0].payload|,
                           queuedMessages := c.queuedMessages - 1, expired := c.expired + 1), now);
    }
  }

  lemma AfterSendKeepsQueues(c: Channel, lane: Lane, size: nat)
    requires QueuesOk(c) && LaneQueue(c, lane) != []
    requires var m := LaneQueue(c, lane)[0];
             m.offset + size <= |m.payload| && (size > 0 || m.payload == []) && (m.reliable || size == |m.payload|)
    ensures QueuesOk(AfterSend(c, lane, size))
  {
    var m := LaneQueue(c, lane)[0];
    assert if lane.Datagrams? then DatagramOk(m) else BulkOk(m);
  }

  // ---------------------------------------------------------------- accounting, rate, fairness, deadlines

  /** The fields a flush never touches. */
  predicate SameIncoming(c: Channel, d: Channel) {
    d.controlIn == c.controlIn && d.bulkIn == c.bulkIn && d.nextMessage == c.nextMessage &&
    d.peer == c.peer && d.isHost == c.isHost && d.serial == c.serial && d.received == c.received
  }

  lemma {:induction false} ExpireKeepsAccounts(c: Channel, now: nat)
    requires ChannelOk(c)
    ensures ChannelOk(Expire(c, now)) && SameIncoming(c, Expire(c, now))
    ensures var e := Expire(c, now);
            && e.tokens == c.tokens && e.failure == c.failure && e.preferUnreliable == c.preferUnreliable && e.lastUpdate == c.lastUpdate
            && (e.datagrams != [] ==> now < e.datagrams[0].tick)
    decreases |c.datagrams|
  {
    ExpireKeepsQueues(c, now);
    if c.datagrams != [] && now >= c.datagrams[0].tick {
      ExpireKeepsAccounts(c.(datagrams := c.datagrams[1..], queuedBytes := c.queuedBytes - |c.datagrams[0].payload|,
                             queuedMessages := c.queuedMessages - 1, expired := c.expired + 1), now);
    }
  }

  lemma AfterSendKeepsAccounts(c: Channel, lane: Lane, size: nat)
    requires ChannelOk(c) && LaneQueue(c, lane) != []
    requires var m := LaneQueue(c, lane)[0];
             m.offset + size <= |m.payload| && (size > 0 || m.payload == []) && (m.reliable || size == |m.payload|)
    requires c.tokens >= (HEADER_SIZE + size) as real
    ensures
      var d := AfterSend(c, lane, size);
      && ChannelOk(d) && SameIncoming(c, d) && d.lastUpdate == c.lastUpdate && d.failure == c.failure
      && d.tokens == c.tokens - (HEADER_SIZE + size) as real && d.preferUnreliable == lane.Bulk?
  {
    AfterSendKeepsQueues(c, lane, size);
    var queue := LaneQueue(c, lane);
    var m := queue[0].(offset := queue[0].offset + size);
    assert ([m] + queue[1..])[1..] == queue[1..];
    assert PayloadBytes([m] + queue[1..]) == PayloadBytes(queue);
  }

  /** What one frame given to the engine says about the channel before and after it. */
  predicate FairTurn(c: Channel, d: Channel, one: Sent, now: nat, capacity: nat) {
    && d.failure == c.failure
    && d.tokens + (HEADER_SIZE + |one.frame.payload|) as real == c.tokens
    && (one.bothWaiting ==> one.lane == if c.preferUnreliable then Datagrams else Bulk)
    && d.preferUnreliable == one.lane.Bulk?
    && (!one.frame.reliable ==> one.now < one.deadline)
    && one.frame.reliable == one.lane.Bulk?
    && one.now == now
    && HEADER_SIZE + |one.frame.payload| <= capacity
  }

  predicate TurnKeeps(c: Channel, t: Turn, now: nat, capacity: nat) {
    && SameIncoming(c, t.channel) && t.channel.lastUpdate == c.lastUpdate
    && match t
       case SentOne(d, one) => FairTurn(c, d, one, now, capacity)
       case Stop(d) => d.preferUnreliable == c.preferUnreliable && d.tokens == c.tokens
  }

  lemma TurnIsFair(c: Channel, now: nat, capacity: nat, reply: EngineReply)
    requires QueuesOk(c) && capacity > HEADER_SIZE && (c.datagrams != [] ==> now < c.datagrams[0].tick)
    ensures TurnKeeps(c, TurnAfterExpiry(c, now, capacity, reply), now, capacity)
  {
    var queue := LaneQueue(c, ChosenLane(c));
    if queue != [] { assert if ChosenLane(c).Datagrams? then DatagramOk(queue[0]) else BulkOk(queue[0]); }
  }

  lemma TurnAfterExpiryKeeps(c: Channel, now: nat, capacity: nat, reply: EngineReply)
    requires ChannelOk(c) && capacity > HEADER_SIZE && (c.datagrams != [] ==> now < c.datagrams[0].tick)
    ensures ChannelOk(TurnAfterExpiry(c, now, capacity, reply).channel)
    ensures TurnKeeps(c, TurnAfterExpiry(c, now, capacity, reply), now, capacity)
  {
    TurnIsFair(c, now, capacity, reply);
    var lane := ChosenLane(c);
    var queue := LaneQueue(c, lane);
    if queue != [] {
      var m := queue[0];
      assert if lane.Datagrams? then DatagramOk(m) else BulkOk(m);
      var size := Min(|m.payload| - m.offset, capacity - HEADER_SIZE);
      if Decide(c, m, size, reply) == Go {
        AfterSendKeepsAccounts(c, lane, size);
      }
    }
  }

  lemma TurnKeepsAccounts(c: Channel, now: nat, capacity: nat, reply: EngineReply)
    requires ChannelOk(c) && capacity > HEADER_SIZE
    ensures ChannelOk(TakeTurn(c, now, capacity, reply).channel)
    ensures TurnKeeps(c, TakeTurn(c, now, capacity, reply), now, capacity)
  {
    ExpireKeepsAccounts(c, now);
    TurnAfterExpiryKeeps(Expire(c, now), now, capacity, reply);
  }

  function FrameBytes(sent: seq<Sent>): (n: nat) {
    if sent == [] then 0 else HEADER_SIZE + |sent[0].frame.payload| + FrameBytes(sent[1..])
  }

  lemma {:induction false} FrameBytesAppend(a: seq<Sent>, b: seq<Sent>)
    ensures FrameBytes(a + b) == FrameBytes(a) + FrameBytes(b)
  {
    if a == [] {
      assert a + b == b;
    } else {
      FrameBytesAppend(a[1..], b);
      assert (a + b)[1..] == a[1..] + b;
    }
  }

  function PreferenceAfter(prefer: bool, sent: seq<Sent>): bool {
    if sent == [] then prefer else sent[|sent| - 1].lane.Bulk?
  }

  /** Whenever both lanes wait, the frame comes from the lane that did not send last. */
  predicate Alternates(prefer: bool, sent: seq<Sent>) {
    forall i :: 0 <= i < |sent| && sent[i].bothWaiting ==>
      sent[i].lane == if PreferenceAfter(prefer, sent[..i]) then Datagrams else Bulk
  }

  lemma AlternatesJoin(prefer: bool, a: seq<Sent>, b: seq<Sent>)
    requires Alternates(prefer, a) && Alternates(PreferenceAfter(prefer, a), b)
    ensures Alternates(prefer, a + b) && PreferenceAfter(prefer, a + b) == PreferenceAfter(PreferenceAfter(prefer, a), b)
  {
    var s := a + b;
    forall i | 0 <= i < |s| && s[i].bothWaiting
      ensures s[i].lane == if PreferenceAfter(prefer, s[..i]) then Datagrams else Bulk
    {
      if i < |a| {
        assert s[..i] == a[..i] && s[i] == a[i];
      } else {
        assert s[..i] == a + b[..i - |a|] && s[i] == b[i - |a|];
      }
    }
  }

  predicate InTime(sent: seq<Sent>, capacity: nat) {
    forall i :: 0 <= i < |sent| ==>
      && (!sent[i].frame.reliable ==> sent[i].now < sent[i].deadline)
      && HEADER_SIZE + |sent[i].frame.payload| <= capacity
      && sent[i].frame.reliable == sent[i].lane.Bulk?
  }

  lemma {:induction false} FlushLoopKeeps(c: Channel, now: nat, capacity: nat, engine: nat -> EngineReply, turn: nat)
    requires ChannelOk(c) && capacity > HEADER_SIZE
    ensures var r := FlushLoop(c, now, capacity, engine, turn);
            && ChannelOk(r.channel) && SameIncoming(c, r.channel) && r.channel.lastUpdate == c.lastUpdate
            && FrameBytes(r.sent) as real + r.channel.tokens == c.tokens
            && Alternates(c.preferUnreliable, r.sent)
            && r.channel.preferUnreliable == PreferenceAfter(c.preferUnreliable, r.sent)
            && InTime(r.sent, capacity)
    decreases c.tokens.Floor
  {
    TurnKeepsAccounts(c, now, capacity, engine(turn));
    var t := TakeTurn(c, now, capacity, engine(turn));
    if t.SentOne? {
      FlushLoopKeeps(t.channel, now, capacity, engine, turn + 1);
      OneMoreSent(c, t.channel, t.sent, FlushLoop(t.channel, now, capacity, engine, turn + 1), now, capacity);
    }
  }

  /** A turn before the rest of its flush. */
  lemma OneMoreSent(c: Channel, d: Channel, one: Sent, rest: FlushResult, now: nat, capacity: nat)
    requires SameIncoming(c, d) && FairTurn(c, d, one, now, capacity) && SameIncoming(d, rest.channel)
    requires FrameBytes(rest.sent) as real + rest.channel.tokens == d.tokens
    requires Alternates(d.preferUnreliable, rest.sent) && InTime(rest.sent, capacity)
    requires rest.channel.preferUnreliable == PreferenceAfter(d.preferUnreliable, rest.sent)
    ensures
      var sent := [one] + rest.sent;
      && SameIncoming(c, rest.channel) && FrameBytes(sent) as real + rest.channel.tokens == c.tokens
      && Alternates(c.preferUnreliable, sent) && InTime(sent, capacity)
      && rest.channel.preferUnreliable == PreferenceAfter(c.preferUnreliable, sent)
  {
    assert ([one] + rest.sent)[1..] == rest.sent;
    assert [one][1..] == [];
    AlternatesJoin(c.preferUnreliable, [one], rest.sent);
  }

  /** One flush keeps the channel's accounts, spends exactly the tokens it takes, and is fair and in time. */
  lemma FlushKeeps(c: Channel, now: nat, network: Network)
    requires ChannelOk(c) && c.lastUpdate <= now
    ensures var r := Flush(c, now, network);
            && ChannelOk(r.channel) && SameIncoming(c, r.channel) && c.lastUpdate <= r.channel.lastUpdate <= now
            && FrameBytes(r.sent) as real + r.channel.tokens
               <= c.tokens + (r.channel.lastUpdate - c.lastUpdate) as real * 65.536
            && Alternates(c.preferUnreliable, r.sent)
            && r.channel.preferUnreliable == PreferenceAfter(c.preferUnreliable, r.sent)
            && InTime(r.sent, network.Capacity())
  {
    var r := Refill(c, now);
    if !TimedOut(c.controlIn, now) && !TimedOut(c.bulkIn, now) && r.queuedMessages != 0 && network.connected &&
       network.Capacity() > HEADER_SIZE {
      FlushLoopKeeps(r, now, network.Capacity(), network.engine, 0);
    }
  }

  // ---------------------------------------------------------------- control messages

  datatype ReliableQueue = ReliableQueue(capacity: nat, read: nat, write: nat, used: nat)

  /** What the engine answers while one control message is sent. */
  datatype ControlNetwork = ControlNetwork(connectionValid: bool, connected: bool, messageSize: nat,
                                           queue: Option<ReliableQueue>, accepts: nat -> bool)
  {
    function Capacity(): (capacity: nat)
      ensures capacity <= FRAME_SIZE
    {
      Min(FRAME_SIZE, messageSize)
    }
  }

  function QueueSpace(q: ReliableQueue): int {
    Min(q.capacity - q.used, if q.write < q.read then q.read - q.write else q.capacity - q.write + q.read)
  }

  function FrameCount(size: nat, capacity: nat): int
    requires capacity > HEADER_SIZE
  {
    Max(1, (size + capacity - HEADER_SIZE - 1) / (capacity - HEADER_SIZE))
  }

  /** The room a control message needs, with the reserve kept for the RPC that follows it. */
  function RequiredSpace(size: nat, capacity: nat): int
    requires capacity > HEADER_SIZE
  {
    size + FrameCount(size, capacity) * (HEADER_SIZE + ENGINE_FRAME_OVERHEAD) + RELIABLE_RESERVE
  }

  predicate ControlAdmitted(m: Message, n: ControlNetwork) {
    n.connectionValid && n.connected && n.Capacity() > HEADER_SIZE && n.queue.Some? &&
    var q := n.queue.value;
    q.read <= q.capacity && q.write <= q.capacity && q.used <= q.capacity &&
    QueueSpace(q) >= RequiredSpace(|m.payload|, n.Capacity())
  }

  datatype ControlFrames = ControlFrames(frames: seq<Frame>, complete: bool)

  /** The do-while loop of send_control. */
  function FragmentAll(m: Message, capacity: nat, accepts: nat -> bool, turn: nat): ControlFrames
    requires capacity > HEADER_SIZE && m.offset <= |m.payload|
    decreases |m.payload| - m.offset
  {
    var size := Min(|m.payload| - m.offset, capacity - HEADER_SIZE);
    if !accepts(turn) then ControlFrames([], false)
    else
      var next := m.(offset := m.offset + size);
      if next.offset < |m.payload| then
        var rest := FragmentAll(next, capacity, accepts, turn + 1);
        rest.(frames := [Fragment(m, size)] + rest.frames)
      else ControlFrames([Fragment(m, size)], true)
  }

  datatype ControlResult = ControlResult(channel: Channel, frames: seq<Frame>, accepted: bool)

  /** send_control (realms_binary.cpp:296-337). */
  function SendControl(c: Channel, m: Message, n: ControlNetwork): ControlResult
    requires m.offset <= |m.payload|
  {
    if !ControlAdmitted(m, n) then ControlResult(c, [], false)
    else
      var sent := FragmentAll(m, n.Capacity(), n.accepts, 0);
      if sent.complete then ControlResult(c.(sent := c.sent + 1), sent.frames, true)
      else ControlResult(c.Fail(EngineRejected), sent.frames, false)
  }

  /** The engine's cost of a run of reliable frames. */
  function EngineBytes(frames: seq<Frame>): nat {
    if frames == [] then 0 else HEADER_SIZE + |frames[0].payload| + ENGINE_FRAME_OVERHEAD + EngineBytes(frames[1..])
  }

  lemma {:induction false} FragmentAllCost(m: Message, capacity: nat, accepts: nat -> bool, turn: nat)
    requires capacity > HEADER_SIZE && m.offset <= |m.payload|
    ensures var sent := FragmentAll(m, capacity, accepts, turn);
            var left := |m.payload| - m.offset;
            && EngineBytes(sent.frames) <= left + FrameCount(left, capacity) * (HEADER_SIZE + ENGINE_FRAME_OVERHEAD)
            && (sent.complete ==> |sent.frames| == FrameCount(left, capacity))
    decreases |m.payload| - m.offset
  {
    var room := capacity - HEADER_SIZE;
    var left := |m.payload| - m.offset;
    if left > room {
      var next := m.(offset := m.offset + room);
      FragmentAllCost(next, capacity, accepts, turn + 1);
      DivStep(left, room);
      if accepts(turn) {
        var rest := FragmentAll(next, capacity, accepts, turn + 1);
        assert ([Fragment(m, room)] + rest.frames)[1..] == rest.frames;
      }
    } else if left > 0 {
      DivOne(left, room);
    }
  }

  lemma DivStep(left: nat, room: nat)
    requires left > room > 0
    ensures (left + room - 1) / room == (left - room + room - 1) / room + 1
    ensures (left - room + room - 1) / room >= 1
  {
    var q, r := (left - 1) / room, (left - 1) % room;
    assert left - 1 == q * room + r;
    assert left + room - 1 == (q + 1) * room + r;
    ModUnique(left + room - 1, room, q + 1, r);
  }

  lemma DivOne(left: nat, room: nat)
    requires 0 < left <= room
    ensures (left + room - 1) / room == 1
  {
    ModUnique(left + room - 1, room, 1, left - 1);
  }

  /** An admitted control message, overheads included, leaves the RPC reserve free in the engine's queue. */
  lemma ControlLeavesReserve(c: Channel, m: Message, n: ControlNetwork)
    requires m.offset == 0 && ControlAdmitted(m, n)
    ensures EngineBytes(SendControl(c, m, n).frames) + RELIABLE_RESERVE <= QueueSpace(n.queue.value)
    ensures SendControl(c, m, n).accepted ==> |SendControl(c, m, n).frames| == FrameCount(|m.payload|, n.Capacity())
  {
    FragmentAllCost(m, n.Capacity(), n.accepts, 0);
  }

  // ---------------------------------------------------------------- receiving

  /** A received frame's effect; `completed` is the message handed to the receive queue. */
  datatype ReceiveResult = ReceiveResult(channel: Channel, completed: Option<Message>)

  function Header(f: Frame, channel: nat): Message {
    Message(f.sender, f.recipient, channel, f.kind, f.id, f.reliable, [], 0, f.offset)
  }

  function AssemblyOf(c: Channel, kind: nat): Assembly {
    if kind == 0 then c.controlIn else c.bulkIn
  }

  function WithAssembly(c: Channel, kind: nat, a: Assembly): Channel {
    if kind == 0 then c.(controlIn := a) else c.(bulkIn := a)
  }

  /** The message a frame continues or starts. */
  function Opened(a: Assembly, f: Frame, id: nat): Assembly {
    if a.Idle? then Active(Header(f, id), f.total) else a
  }

  predicate Continues(a: Assembly, f: Frame)
    requires a.Active?
  {
    var m := a.message;
    m.id == f.id && m.kind == f.kind && m.sender == f.sender && m.recipient == f.recipient &&
    a.total == f.total && |m.payload| == f.offset
  }

  /** What a reliable frame does to its lane's assembly. */
  datatype Accepted = Accepted(assembly: Assembly, failure: Option<Failure>, completed: Option<Message>)

  function Accept(a: Assembly, id: nat, f: Frame, now: nat, roomBytes: bool, roomQueue: bool): Accepted {
    if a.Idle? && (f.offset != 0 || !roomBytes) then Accepted(a, Some(BadStartOrCapacity), None)
    else
      var current := Opened(a, f, id);
      if !Continues(current, f) then Accepted(current, Some(Inconsistent), None)
      else
        var m := current.message.(payload := current.message.payload + f.payload, tick := now);
        if |m.payload| != f.total then Accepted(Active(m, f.total), None, None)
        else if !roomQueue then Accepted(Active(m, f.total), Some(ReceiveQueueFull), None)
        else Accepted(Idle, None, Some(m))
  }

  /** receive_frame after the header and payload were read (realms_binary.cpp:185-225), given whether the
      byte budget admits the frame's message and the receive queue has a free place. */
  function ReceiveFrame(c: Channel, id: nat, f: Frame, now: nat, roomBytes: bool, roomQueue: bool): ReceiveResult {
    if !f.reliable then
      if !roomBytes then ReceiveResult(c.Fail(ReceiveMemory), None)
      else if !roomQueue then ReceiveResult(c.Fail(ReceiveQueueFull), None)
      else ReceiveResult(c.(received := c.received + 1), Some(Header(f, id).(payload := f.payload)))
    else
      var r := Accept(AssemblyOf(c, f.kind), id, f, now, roomBytes, roomQueue);
      var d := WithAssembly(c, f.kind, r.assembly);
      if r.failure.Some? then ReceiveResult(d.Fail(r.failure.value), None)
      else ReceiveResult(d.(received := d.received + (if r.completed.Some? then 1 else 0)), r.completed)
  }

  lemma AcceptKeeps(a: Assembly, id: nat, f: Frame, now: nat, roomBytes: bool, roomQueue: bool)
    requires AssemblyOk(a) && f.Acceptable()
    ensures AssemblyOk(Accept(a, id, f, now, roomBytes, roomQueue).assembly)
  {
  }

  /** The fields receiving never touches. */
  predicate SameOutgoing(c: Channel, d: Channel) {
    d.datagrams == c.datagrams && d.bulk == c.bulk && d.queuedBytes == c.queuedBytes &&
    d.queuedMessages == c.queuedMessages && d.tokens == c.tokens && d.nextMessage == c.nextMessage &&
    d.peer == c.peer && d.isHost == c.isHost && d.serial == c.serial && d.lastUpdate == c.lastUpdate &&
    d.preferUnreliable == c.preferUnreliable
  }

  lemma ReceiveKeepsOutgoing(c: Channel, id: nat, f: Frame, now: nat, roomBytes: bool, roomQueue: bool)
    requires AssemblyOk(c.controlIn) && AssemblyOk(c.bulkIn) && f.Acceptable()
    ensures
      var r := ReceiveFrame(c, id, f, now, roomBytes, roomQueue);
      && SameOutgoing(c, r.channel) && AssemblyOk(r.channel.controlIn) && AssemblyOk(r.channel.bulkIn)
      && (r.completed.Some? ==> r.channel.failure == c.failure)
  {
    AcceptKeeps(AssemblyOf(c, f.kind), id, f, now, roomBytes, roomQueue);
  }

  lemma ReceiveKeeps(c: Channel, id: nat, f: Frame, now: nat, roomBytes: bool, roomQueue: bool)
    requires ChannelOk(c) && f.Acceptable()
    ensures
      var r := ReceiveFrame(c, id, f, now, roomBytes, roomQueue);
      ChannelOk(r.channel) && (r.completed.Some? ==> r.channel.failure == c.failure)
  {
    ReceiveKeepsOutgoing(c, id, f, now, roomBytes, roomQueue);
    SameOutgoingOk(c, ReceiveFrame(c, id, f, now, roomBytes, roomQueue).channel);
  }

  lemma SameOutgoingOk(c: Channel, d: Channel)
    requires ChannelOk(c) && SameOutgoing(c, d) && AssemblyOk(d.controlIn) && AssemblyOk(d.bulkIn)
    ensures ChannelOk(d)
  {
  }

  // ---------------------------------------------------------------- the ideal receiver

  /** A message's header and payload, without the bookkeeping fields. */
  datatype Body = Body(sender: nat, recipient: nat, kind: nat, id: nat, reliable: bool, payload: seq<Byte>)

  /** An ideal receiver without budgets: what it holds, and what it has completed. */
  datatype Progress = Nothing | Part(body: Body, total: nat)
  datatype Parsed = Parsed(progress: Progress, done: seq<Body>)

  function BodyOf(m: Message): Body {
    Body(m.sender, m.recipient, m.kind, m.id, m.reliable, m.payload)
  }

  function Bodies(queue: seq<Message>): (bodies: seq<Body>)
    ensures |bodies| == |queue|
    ensures forall i :: 0 <= i < |queue| ==> bodies[i] == BodyOf(queue[i])
  {
    seq(|queue|, i requires 0 <= i < |queue| => BodyOf(queue[i]))
  }

  function ParseFrame(p: Progress, f: Frame): Option<Parsed> {
    if p.Nothing? && f.offset != 0 then None
    else
      var body := if p.Nothing? then Body(f.sender, f.recipient, f.kind, f.id, f.reliable, []) else p.body;
      var total := if p.Nothing? then f.total else p.total;
      if body != Body(f.sender, f.recipient, f.kind, f.id, f.reliable, body.payload) || total != f.total ||
         |body.payload| != f.offset then None
      else
        var grown := body.(payload := body.payload + f.payload);
        Some(if |grown.payload| == total then Parsed(Nothing, [grown]) else Parsed(Part(grown, total), []))
  }

  function ParseAll(p: Progress, frames: seq<Frame>): Option<Parsed>
    decreases |frames|
  {
    if frames == [] then Some(Parsed(p, []))
    else
      match ParseFrame(p, frames[0])
      case None => None
      case Some(first) =>
        match ParseAll(first.progress, frames[1..])
        case None => None
        case Some(rest) => Some(Parsed(rest.progress, first.done + rest.done))
  }

  /** A stream parses piece by piece; in particular every prefix of a good stream is good. */
  lemma {:induction false} ParseAppend(p: Progress, a: seq<Frame>, b: seq<Frame>)
    ensures ParseAll(p, a + b) ==
            match ParseAll(p, a)
            case None => None
            case Some(x) =>
              (match ParseAll(x.progress, b)
               case None => None
               case Some(y) => Some(Parsed(y.progress, x.done + y.done)))
    decreases |a|
  {
    if a == [] {
      assert a + b == b;
      assert ParseAll(p, b).Some? ==> [] + ParseAll(p, b).value.done == ParseAll(p, b).value.done;
    } else {
      assert (a + b)[1..] == a[1..] + b;
      match ParseFrame(p, a[0]) {
        case None =>
        case Some(first) =>
          ParseAppend(first.progress, a[1..], b);
          if ParseAll(p, a).Some? && ParseAll(p, a + b).Some? {
            var x := ParseAll(first.progress, a[1..]).value;
            var y := ParseAll(x.progress, b).value;
            assert first.done + (x.done + y.done) == (first.done + x.done) + y.done;
          }
      }
    }
  }

  /** The receiver is the ideal receiver with budgets: same progress and same message, or a capacity failure. */
  function ProgressOfAssembly(a: Assembly): Progress {
    if a.Idle? then Nothing else Part(BodyOf(a.message), a.total)
  }

  ghost predicate AssemblyKind(a: Assembly, control: bool) {
    a.Active? ==> a.message.reliable && (a.message.kind == 0) == control
  }

  lemma ReceiverRefines(c: Channel, id: nat, f: Frame, now: nat, roomBytes: bool, roomQueue: bool)
    requires f.reliable && c.failure.None?
    requires AssemblyKind(AssemblyOf(c, f.kind), f.kind == 0)
    ensures
      var a := AssemblyOf(c, f.kind);
      var r := ReceiveFrame(c, id, f, now, roomBytes, roomQueue);
      var ideal := ParseFrame(ProgressOfAssembly(a), f);
      && (r.channel.failure.None? <==>
            ideal.Some? && (a.Idle? ==> roomBytes) && (ideal.value.done != [] ==> roomQueue))
      && (r.channel.failure.None? ==>
            ideal == Some(Parsed(ProgressOfAssembly(AssemblyOf(r.channel, f.kind)),
                                 if r.completed.Some? then [BodyOf(r.completed.value)] else [])))
      && (r.channel.failure.Some? ==> r.completed.None?)
      && (ideal.Some? ==> r.channel.failure in {None, Some(BadStartOrCapacity), Some(ReceiveQueueFull)})
      && AssemblyKind(AssemblyOf(r.channel, f.kind), f.kind == 0)
  {
  }

  // ---------------------------------------------------------------- the sender emits ideal streams

  /** How far the front of the bulk queue has been sent. */
  function ProgressOfQueue(queue: seq<Message>): Progress {
    if queue == [] || queue[0].offset == 0 || queue[0].offset > |queue[0].payload| then Nothing
    else Part(BodyOf(queue[0]).(payload := queue[0].payload[..queue[0].offset]), |queue[0].payload|)
  }

  function BulkFrames(sent: seq<Sent>): seq<Frame> {
    if sent == [] then []
    else (if sent[0].frame.reliable then [sent[0].frame] else []) + BulkFrames(sent[1..])
  }

  /** Sending a fragment is one step of the ideal receiver. */
  lemma FragmentParses(m: Message, size: nat)
    requires m.offset + size <= |m.payload| && (m.offset == 0 || m.offset < |m.payload|)
    requires size > 0 || m.payload == []
    ensures
      var sent := m.(offset := m.offset + size);
      ParseFrame(ProgressOfQueue([m]), Fragment(m, size)) ==
        Some(if sent.offset == |m.payload| then Parsed(Nothing, [BodyOf(m)]) else Parsed(ProgressOfQueue([sent]), []))
  {
    assert m.payload[..m.offset] + m.payload[m.offset..m.offset + size] == m.payload[..m.offset + size];
    assert m.payload[..0] == [] && m.payload[..|m.payload|] == m.payload;
  }

  /** The bulk queue after `size` bytes of its front were sent. */
  function Advanced(queue: seq<Message>, size: nat): seq<Message>
    requires queue != []
  {
    var m := queue[0].(offset := queue[0].offset + size);
    if m.offset == |m.payload| then queue[1..] else [m] + queue[1..]
  }

  /** Sending `frames` takes the queue from `before` to `after`, completing the messages that left it. */
  ghost predicate ParsesTo(before: seq<Message>, frames: seq<Frame>, after: seq<Message>) {
    match ParseAll(ProgressOfQueue(before), frames)
    case None => false
    case Some(parsed) =>
      parsed.progress == ProgressOfQueue(after) && Bodies(before) == parsed.done + Bodies(after)
  }

  lemma BodiesCons(m: Message, rest: seq<Message>)
    ensures Bodies([m] + rest) == [BodyOf(m)] + Bodies(rest)
  {
  }

  lemma AdvanceParses(queue: seq<Message>, size: nat)
    requires queue != [] && (forall i :: 1 <= i < |queue| ==> queue[i].offset == 0)
    requires var m := queue[0];
             m.offset + size <= |m.payload| && (size > 0 || m.payload == []) && (m.offset == 0 || m.offset < |m.payload|)
    ensures ParsesTo(queue, [Fragment(queue[0], size)], Advanced(queue, size))
  {
    var m, rest := queue[0], queue[1..];
    assert queue == [m] + rest;
    var sent := m.(offset := m.offset + size);
    FragmentParses(m, size);
    SingleParse(ProgressOfQueue(queue), Fragment(m, size));
    assert ProgressOfQueue(queue) == ProgressOfQueue([m]);
    BodiesCons(m, rest);
    if sent.offset == |m.payload| {
      assert ProgressOfQueue(rest) == Nothing;
    } else {
      BodiesCons(sent, rest);
      assert ProgressOfQueue([sent] + rest) == ProgressOfQueue([sent]);
      assert [] + Bodies([sent] + rest) == Bodies([sent] + rest);
    }
  }

  lemma SingleParse(p: Progress, f: Frame)
    ensures ParseAll(p, [f]) == ParseFrame(p, f)
  {
    if ParseFrame(p, f).Some? {
      var x := ParseFrame(p, f).value;
      assert [f][1..] == [] && x.done + [] == x.done;
    }
  }

  lemma ParsesToJoin(q0: seq<Message>, a: seq<Frame>, q1: seq<Message>, b: seq<Frame>, q2: seq<Message>)
    requires ParsesTo(q0, a, q1) && ParsesTo(q1, b, q2)
    ensures ParsesTo(q0, a + b, q2)
  {
    ParseAppend(ProgressOfQueue(q0), a, b);
    var x, y := ParseAll(ProgressOfQueue(q0), a).value.done, ParseAll(ProgressOfQueue(q1), b).value.done;
    assert x + (y + Bodies(q2)) == (x + y) + Bodies(q2);
  }

  /** What a turn means to the ideal receiver: a bulk frame is one step of it, and a datagram is a whole message. */
  ghost predicate TurnMeaning(c: Channel, t: Turn) {
    match t
    case Stop(d) => d.bulk == c.bulk && d.datagrams == c.datagrams
    case SentOne(d, one) =>
      if one.frame.reliable then
        one.frame.kind != 0 && d.datagrams == c.datagrams && ParsesTo(c.bulk, [one.frame], d.bulk)
      else
        d.bulk == c.bulk && c.datagrams != [] && d.datagrams == c.datagrams[1..] &&
        BodyOf(c.datagrams[0]) == FrameBody(one.frame)
  }

  lemma AfterSendMeaning(c: Channel, lane: Lane, size: nat, one: Sent)
    requires QueuesOk(c) && LaneQueue(c, lane) != []
    requires var m := LaneQueue(c, lane)[0];
             m.offset + size <= |m.payload| && (size > 0 || m.payload == []) && (m.reliable || size == |m.payload|) &&
             one.frame == Fragment(m, size)
    ensures TurnMeaning(c, SentOne(AfterSend(c, lane, size), one))
  {
    var m := LaneQueue(c, lane)[0];
    if lane.Bulk? {
      assert BulkOk(m);
      AdvanceParses(c.bulk, size);
    } else {
      assert DatagramOk(m);
      assert m.payload[0..|m.payload|] == m.payload;
    }
  }

  lemma TurnParses(c: Channel, now: nat, capacity: nat, reply: EngineReply)
    requires QueuesOk(c) && capacity > HEADER_SIZE
    ensures TurnMeaning(c, TurnAfterExpiry(c, now, capacity, reply))
  {
    var lane := ChosenLane(c);
    var queue := LaneQueue(c, lane);
    if queue != [] {
      var m := queue[0];
      assert if lane.Datagrams? then DatagramOk(m) else BulkOk(m);
      var size := Min(|m.payload| - m.offset, capacity - HEADER_SIZE);
      if Decide(c, m, size, reply) == Go {
        AfterSendMeaning(c, lane, size,
                         Sent(Fragment(m, size), lane, c.datagrams != [] && c.bulk != [], now, m.tick));
      }
    }
  }

  /** The message a whole-message frame carries. */
  function FrameBody(f: Frame): Body {
    Body(f.sender, f.recipient, f.kind, f.id, f.reliable, f.payload)
  }

  // ---------------------------------------------------------------- new messages

  /** The arguments of SendBinary that a caller may pass; ids and text parsing are done before. */
  datatype SendArguments = SendArguments(sender: nat, recipient: nat, kind: nat, reliable: bool,
                                         payload: seq<Byte>, lifetime: nat)
  {
    /** realms_binary.cpp:496-510. */
    predicate Valid() {
      kind < 0x1_0000 && |payload| <= MAXIMUM_MESSAGE_SIZE && (kind == 0 ==> |payload| <= MAXIMUM_CONTROL_SIZE) &&
      (!reliable ==> |payload| <= FRAME_SIZE - HEADER_SIZE && kind != 0 && lifetime != 0) &&
      (reliable ==> lifetime == 0) && 0 < sender < WORD64 && recipient < WORD64
    }
  }

  /** Message numbers are 32-bit and skip zero when they wrap. */
  function NextId(c: Channel): nat {
    if c.nextMessage + 1 == WORD32 then 1 else c.nextMessage + 1
  }

  function NewMessage(c: Channel, id: nat, args: SendArguments, now: nat): Message {
    Message(args.sender, args.recipient, id, args.kind, NextId(c), args.reliable, args.payload, now + args.lifetime, 0)
  }

  function Enqueue(c: Channel, m: Message): Channel {
    var lane := if m.reliable then Bulk else Datagrams;
    WithLane(c, lane, LaneQueue(c, lane) + [m]).(nextMessage := m.id, queuedBytes := c.queuedBytes + |m.payload|,
                                                 queuedMessages := c.queuedMessages + 1)
  }

  lemma EnqueueKeeps(c: Channel, id: nat, args: SendArguments, now: nat)
    requires ChannelOk(c) && args.Valid() && args.kind != 0
    ensures ChannelOk(Enqueue(c, NewMessage(c, id, args, now)))
  {
    var m := NewMessage(c, id, args, now);
    PayloadBytesAppend(c.bulk, [m]);
    PayloadBytesAppend(c.datagrams, [m]);
  }

  // ---------------------------------------------------------------- rate and fairness over whole runs

  /** What can happen to a channel on the sending side. */
  datatype SenderEvent =
    | Queue(args: SendArguments, at: nat)
    | FlushAt(now: nat, network: Network)

  /** A failed channel is neither sent on nor flushed again. */
  function Apply(c: Channel, event: SenderEvent): FlushResult
    requires QueuesOk(c)
  {
    if c.failure.Some? then FlushResult(c, [])
    else
      match event
      case Queue(args, at) =>
        FlushResult(if args.Valid() && args.kind != 0 then Enqueue(c, NewMessage(c, 0, args, at)) else c, [])
      case FlushAt(now, network) => Flush(c, now, network)
  }

  lemma ApplyKeeps(c: Channel, event: SenderEvent)
    requires ChannelOk(c) && (event.FlushAt? ==> c.lastUpdate <= event.now)
    ensures
      var r := Apply(c, event);
      && ChannelOk(r.channel) && c.lastUpdate <= r.channel.lastUpdate
      && r.channel.lastUpdate <= (if event.FlushAt? then Max(event.now, c.lastUpdate) else c.lastUpdate)
      && FrameBytes(r.sent) as real + r.channel.tokens
         <= c.tokens + (r.channel.lastUpdate - c.lastUpdate) as real * 65.536
      && Alternates(c.preferUnreliable, r.sent)
      && r.channel.preferUnreliable == PreferenceAfter(c.preferUnreliable, r.sent)
      && (forall i :: 0 <= i < |r.sent| && !r.sent[i].frame.reliable ==> r.sent[i].now < r.sent[i].deadline)
  {
    if c.failure.None? {
      match event
      case Queue(args, at) =>
        if args.Valid() && args.kind != 0 { EnqueueKeeps(c, 0, args, at); }
      case FlushAt(now, network) => FlushKeeps(c, now, network);
    }
  }

  /** The clock never runs backwards between `from` and the flushes of a run, nor past `to`. */
  predicate Clocked(events: seq<SenderEvent>, from: int, to: int) {
    if events == [] then from <= to
    else if events[0].FlushAt? then from <= events[0].now <= to && Clocked(events[1..], events[0].now, to)
    else Clocked(events[1..], from, to)
  }

  lemma {:induction false} ClockedWeaken(events: seq<SenderEvent>, from: int, lower: int, to: int)
    requires Clocked(events, from, to) && lower <= from
    ensures Clocked(events, lower, to) && lower <= to
  {
    if events != [] && !events[0].FlushAt? { ClockedWeaken(events[1..], from, lower, to); }
  }

  ghost function Run(c: Channel, events: seq<SenderEvent>): FlushResult
    requires QueuesOk(c)
    decreases |events|
  {
    if events == [] then FlushResult(c, [])
    else
      var first := Apply(c, events[0]);
      if QueuesOk(first.channel) then
        var rest := Run(first.channel, events[1..]);
        rest.(sent := first.sent + rest.sent)
      else first
  }

  /**
   Over any run of sends and flushes: lanes alternate whenever both wait, no datagram leaves at or past
   its deadline, tokens stay within the burst, and bytes sent are paid for by the tokens and elapsed time.
   */
  lemma {:induction false} RunKeeps(c: Channel, events: seq<SenderEvent>, to: int)
    requires ChannelOk(c) && Clocked(events, c.lastUpdate, to)
    ensures
      var r := Run(c, events);
      && ChannelOk(r.channel) && c.lastUpdate <= r.channel.lastUpdate <= to
      && FrameBytes(r.sent) as real + r.channel.tokens
         <= c.tokens + (r.channel.lastUpdate - c.lastUpdate) as real * 65.536
      && Alternates(c.preferUnreliable, r.sent)
      && r.channel.preferUnreliable == PreferenceAfter(c.preferUnreliable, r.sent)
      && (forall i :: 0 <= i < |r.sent| && !r.sent[i].frame.reliable ==> r.sent[i].now < r.sent[i].deadline)
    decreases |events|
  {
    if events != [] {
      ApplyKeeps(c, events[0]);
      var first := Apply(c, events[0]);
      ClockedWeaken(events[1..], if events[0].FlushAt? then events[0].now else c.lastUpdate,
                    first.channel.lastUpdate, to);
      RunKeeps(first.channel, events[1..], to);
      var rest := Run(first.channel, events[1..]);
      AlternatesJoin(c.preferUnreliable, first.sent, rest.sent);
      FrameBytesAppend(first.sent, rest.sent);
    }
  }

  /** The rate limit: from a flush at `t0` up to `t1`, whatever the run, at most the burst plus 64 KiB a second. */
  lemma RateLimit(c: Channel, t0: nat, network: Network, events: seq<SenderEvent>, t1: nat)
    requires ChannelOk(c) && c.failure.None? && c.lastUpdate <= t0 && Clocked(events, t0, t1)
    ensures FrameBytes(Run(c, [FlushAt(t0, network)] + events).sent) as real <= 4096.0 + (t1 - t0) as real * 65.536
  {
    var all := [FlushAt(t0, network)] + events;
    assert all[1..] == events;
    FlushKeeps(c, t0, network);
    FlushFromRefill(c, t0, network);
    var first := Flush(c, t0, network);
    if first.channel.failure.Some? { FailedRunIsSilent(first.channel, events); }
    ClockedWeaken(events, t0, first.channel.lastUpdate, t1);
    RunKeeps(first.channel, events, t1);
    FrameBytesAppend(first.sent, Run(first.channel, events).sent);
  }

  lemma {:induction false} FailedRunIsSilent(c: Channel, events: seq<SenderEvent>)
    requires QueuesOk(c) && c.failure.Some?
    ensures Run(c, events).sent == []
    decreases |events|
  {
    if events != [] { FailedRunIsSilent(c, events[1..]); }
  }

  /** What a flush sends is paid out of the refilled bucket alone. */
  lemma FlushFromRefill(c: Channel, now: nat, network: Network)
    requires ChannelOk(c) && c.lastUpdate <= now
    ensures
      var r := Flush(c, now, network);
      || (r.channel.lastUpdate == now && FrameBytes(r.sent) as real + r.channel.tokens <= 4096.0)
      || (r.sent == [] && r.channel.failure.Some?)
  {
    var r := Refill(c, now);
    if !TimedOut(c.controlIn, now) && !TimedOut(c.bulkIn, now) && r.queuedMessages != 0 && network.connected &&
       network.Capacity() > HEADER_SIZE {
      FlushLoopKeeps(r, now, network.Capacity(), network.engine, 0);
    }
  }
}
