/**
 The whole process state of the binary transport: the attached channels, the two receive lanes, and the
 global counters that the code keeps beside them. The functions give each entry point's effect on that
 state; the lemmas show that the counters always equal the sums they stand for.
 */
module BinaryProcess {
  import opened Common
  import opened Bits
  import opened BinaryWire
  import opened BinaryChannel

  const MAXIMUM_REMOTE_PEERS: nat := 23
  const MAXIMUM_QUEUED_BYTES: nat := 64 * 1024 * 1024
  const MAXIMUM_CHANNEL_BYTES: nat := 8 * 1024 * 1024
  const CONTROL_RESERVE_BYTES: nat := 4 * 1024 * 1024
  const MAXIMUM_QUEUED_MESSAGES: nat := 4096
  const MAXIMUM_CHANNEL_MESSAGES: nat := 1024
  const CONTROL_RESERVE_MESSAGES: nat := 16

  datatype Process = Process(
    channels: map<nat, Channel>, control: seq<Message>, bulk: seq<Message>, receiveMessages: int,
    queuedBytes: int, receiveBytes: int, nextSerial: nat, pendingWork: bool, pendingReceive: bool)

  function QueuedOf(c: Channel): int { c.queuedBytes }
  function HeldOf(c: Channel): int { Held(c.controlIn) + Held(c.bulkIn) }
  function BulkHeldOf(c: Channel): int { Held(c.bulkIn) }
  function ControlHeldOf(c: Channel): int { Held(c.controlIn) }

  /** Receive limits; everything but control leaves the control reserve alone. */
  function ByteLimit(kind: nat, reliable: bool): nat {
    if reliable && kind == 0 then MAXIMUM_QUEUED_BYTES else MAXIMUM_QUEUED_BYTES - CONTROL_RESERVE_BYTES
  }

  function MessageLimit(kind: nat): nat {
    if kind == 0 then MAXIMUM_QUEUED_MESSAGES
    else MAXIMUM_QUEUED_MESSAGES - CONTROL_RESERVE_MESSAGES * MAXIMUM_REMOTE_PEERS
  }

  predicate HasWork(c: Channel) {
    c.queuedMessages != 0 || c.controlIn.Active? || c.bulkIn.Active? || c.failure.Some?
  }

  ghost predicate LaneOk(queue: seq<Message>, control: bool, ids: set<nat>) {
    forall i :: 0 <= i < |queue| ==> (queue[i].kind == 0) == control && queue[i].channel in ids
  }

  predicate AssemblyFor(a: Assembly, id: nat) { a.Active? ==> a.message.channel == id }

  ghost predicate ChannelFine(c: Channel, id: nat) {
    && ChannelOk(c) && c.queuedBytes <= MAXIMUM_CHANNEL_BYTES && c.queuedMessages <= MAXIMUM_CHANNEL_MESSAGES
    && AssemblyFor(c.controlIn, id) && AssemblyFor(c.bulkIn, id)
    && AssemblyKind(c.controlIn, true) && AssemblyKind(c.bulkIn, false)
  }

  ghost predicate ChannelsFine(channels: map<nat, Channel>) {
    forall id :: id in channels ==> ChannelFine(channels[id], id)
  }

  ghost predicate LanesOk(p: Process) {
    LaneOk(p.control, true, p.channels.Keys) && LaneOk(p.bulk, false, p.channels.Keys)
  }

  /** The receive counters, the control reserve and the flag that tells the reader to look. */
  ghost predicate ReceiveAccounts(p: Process) {
    && p.receiveMessages == |p.control| + |p.bulk| <= MAXIMUM_QUEUED_MESSAGES
    && |p.bulk| <= MessageLimit(1)
    && p.receiveBytes == PayloadBytes(p.control) + PayloadBytes(p.bulk) + Total(p.channels, HeldOf)
                      <= MAXIMUM_QUEUED_BYTES
    && PayloadBytes(p.bulk) + Total(p.channels, BulkHeldOf) <= ByteLimit(1, true)
    && p.pendingReceive == (p.receiveMessages != 0)
  }

  /** When the work flag is down, there is nothing to do. */
  ghost predicate WorkFlagSound(p: Process) {
    !p.pendingWork ==> forall id :: id in p.channels ==> !HasWork(p.channels[id])
  }

  /** Every counter equals the sum it stands for, the reserves hold, and the wake-up flags are sound. */
  ghost predicate Accounts(p: Process) {
    && |p.channels| <= MAXIMUM_REMOTE_PEERS
    && ChannelsFine(p.channels)
    && p.queuedBytes == Total(p.channels, QueuedOf) <= MAXIMUM_QUEUED_BYTES
    && LanesOk(p) && ReceiveAccounts(p)
    && WorkFlagSound(p)
  }

  // ---------------------------------------------------------------- receiving

  /** Puts a channel back, keeping the byte total of the send queues. */
  function WithChannel(p: Process, id: nat, c: Channel): Process
    requires id in p.channels
  {
    p.(channels := p.channels[id := c], queuedBytes := p.queuedBytes + c.queuedBytes - p.channels[id].queuedBytes,
       pendingWork := p.pendingWork || c.failure.Some?)
  }

  function Store(p: Process, m: Option<Message>): Process {
    if m.None? then p
    else
      var q := p.(receiveMessages := p.receiveMessages + 1, pendingReceive := true,
                  receiveBytes := p.receiveBytes + |m.value.payload|);
      if m.value.kind == 0 then q.(control := q.control + [m.value]) else q.(bulk := q.bulk + [m.value])
  }

  /** The process after one channel received: the byte budget follows what the channel now holds. */
  function Charge(p: Process, id: nat, r: ReceiveResult): Process
    requires id in p.channels
  {
    var q := WithChannel(p, id, r.channel);
    Store(q.(receiveBytes := q.receiveBytes + HeldOf(r.channel) - HeldOf(p.channels[id])), r.completed)
  }

  /** A frame that passed its header test, on an attached and healthy channel. */
  function TakeFrame(p: Process, id: nat, f: Frame, now: nat): (Process, bool)
    requires id in p.channels
  {
    var c := p.channels[id];
    var size := if f.reliable then f.total else |f.payload|;
    var roomBytes := p.receiveBytes + size <= ByteLimit(f.kind, f.reliable);
    var roomQueue := p.receiveMessages < MessageLimit(f.kind);
    var r := ReceiveFrame(c, id, f, now, roomBytes, roomQueue);
    (Charge(p.(pendingWork := p.pendingWork || f.reliable), id, r), r.channel.failure.None?)
  }

  /** receive_callback (realms_binary.cpp:228-250): the context names a registration, not an object. */
  function Callback(p: Process, serial: nat, id: nat, peer: nat, channelId: nat, parsed: Result<Frame>, now: nat)
    : (Process, nat)
  {
    if id !in p.channels || p.channels[id].serial != serial then (p, 1)
    else
      var c := p.channels[id];
      if c.failure.Some? then (p, 2)
      else if c.peer != peer || id != channelId then (WithChannel(p, id, c.Fail(CallbackMismatch)), 2)
      else
        match parsed
        case Err(reason) => (WithChannel(p, id, c.Fail(reason)), 2)
        case Ok(f) =>
          var (q, ok) := TakeFrame(p, id, f, now);
          (q, if ok then 0 else 2)
  }

  // ---------------------------------------------------------------- attaching and detaching

  function NewChannel(peer: nat, isHost: bool, serial: nat, now: nat): Channel {
    Channel(peer, isHost, serial, now, 0, SEND_BURST, 0, 0, true, None, [], [], Idle, Idle, 0, 0, 0)
  }

  /** AttachBinaryChannel once its arguments are parsed; `registered` is the engine's answer. */
  function Attach(p: Process, id: nat, peer: nat, isHost: bool, now: nat, connectionOk: bool, registered: bool)
    : (Process, bool)
  {
    if id in p.channels then (p, p.channels[id].peer == peer && p.channels[id].isHost == isHost)
    else if |p.channels| >= MAXIMUM_REMOTE_PEERS || p.nextSerial == 0 || !connectionOk then (p, false)
    else
      var next := p.(nextSerial := (p.nextSerial + 1) % WORD32);
      if !registered then (next, false)
      else (next.(channels := next.channels[id := NewChannel(peer, isHost, p.nextSerial, now)]), true)
  }

  function Without(queue: seq<Message>, id: nat): seq<Message> {
    if queue == [] then []
    else (if queue[0].channel == id then [] else [queue[0]]) + Without(queue[1..], id)
  }

  function ForChannel(queue: seq<Message>, id: nat): seq<Message> {
    if queue == [] then []
    else (if queue[0].channel == id then [queue[0]] else []) + ForChannel(queue[1..], id)
  }

  /** DetachBinaryChannel with discard_channel (realms_binary.cpp:252-272, 473-489). */
  function Detach(p: Process, id: nat): Process {
    if id !in p.channels then p
    else
      var c := p.channels[id];
      var control, bulk := Without(p.control, id), Without(p.bulk, id);
      var left := |control| + |bulk|;
      p.(channels := p.channels - {id}, control := control, bulk := bulk,
         queuedBytes := p.queuedBytes - c.queuedBytes,
         receiveBytes := p.receiveBytes - HeldOf(c)
                       - (PayloadBytes(p.control) - PayloadBytes(control))
                       - (PayloadBytes(p.bulk) - PayloadBytes(bulk)),
         receiveMessages := p.receiveMessages - (|p.control| - |control|) - (|p.bulk| - |bulk|),
         pendingReceive := p.receiveMessages - (|p.control| - |control|) - (|p.bulk| - |bulk|) != 0,
         pendingWork := p.pendingWork && p.channels.Keys != {id})
  }

  // ---------------------------------------------------------------- sending

  datatype SendResult = SendResult(process: Process, id: Option<nat>, frames: seq<Frame>)

  /** SendBinary (realms_binary.cpp:491-565) once its arguments are parsed. */
  function Send(p: Process, id: nat, args: SendArguments, now: nat, engine: ControlNetwork): SendResult {
    if !args.Valid() || id !in p.channels || p.channels[id].failure.Some? then SendResult(p, None, [])
    else
      var c := p.channels[id];
      var m := NewMessage(c, id, args, now);
      if args.kind == 0 then
        var r := SendControl(c, m, engine);
        if r.accepted then SendResult(WithChannel(p, id, r.channel.(nextMessage := m.id)), Some(m.id), r.frames)
        else SendResult(WithChannel(p, id, r.channel), None, r.frames)
      else if c.queuedBytes + |args.payload| > MAXIMUM_CHANNEL_BYTES ||
              p.queuedBytes + |args.payload| > MAXIMUM_QUEUED_BYTES || c.queuedMessages >= MAXIMUM_CHANNEL_MESSAGES then
        SendResult(p, None, [])
      else SendResult(WithChannel(p, id, Enqueue(c, m)).(pendingWork := true), Some(m.id), [])
  }

  predicate IsLeast(least: nat, ids: set<nat>) {
    least in ids && forall other :: other in ids ==> least <= other
  }

  /** The channels that UpdateBinary visits, in key order. */
  ghost function Ascending(ids: set<nat>): (order: seq<nat>)
    ensures forall id :: id in ids <==> id in order
    decreases |ids|
  {
    if ids == {} then []
    else
      LeastExists(ids);
      var least :| IsLeast(least, ids);
      [least] + Ascending(ids - {least})
  }

  lemma {:induction false} LeastExists(ids: set<nat>)
    requires ids != {}
    ensures exists least :: IsLeast(least, ids)
    decreases |ids|
  {
    var some :| some in ids;
    var rest := ids - {some};
    if rest == {} {
      assert ids == {some};
      assert IsLeast(some, ids);
    } else {
      LeastExists(rest);
      var least :| IsLeast(least, rest);
      var best := if some < least then some else least;
      assert ids == rest + {some};
      assert IsLeast(best, ids);
    }
  }

  datatype UpdateResult = UpdateResult(process: Process, failed: Option<nat>)

  ghost predicate QueuesFine(p: Process) {
    forall id :: id in p.channels ==> QueuesOk(p.channels[id])
  }

  lemma AccountsMeanQueuesFine(p: Process)
    requires Accounts(p)
    ensures QueuesFine(p)
  {
    forall id | id in p.channels ensures QueuesOk(p.channels[id]) {
      assert ChannelFine(p.channels[id], id);
    }
  }

  /** One channel flushed inside UpdateBinary. */
  ghost function FlushOne(p: Process, id: nat, now: nat, network: Network): (q: Process)
    requires QueuesFine(p) && id in p.channels
    ensures QueuesFine(q) && q.channels == p.channels[id := Flush(p.channels[id], now, network).channel]
    ensures q.channels.Keys == p.channels.Keys
  {
    FlushKeepsQueues(p.channels[id], now, network);
    WithChannel(p, id, Flush(p.channels[id], now, network).channel)
  }

  /** The loop of UpdateBinary over the channels still to visit. */
  ghost function FlushAll(p: Process, order: seq<nat>, now: nat, networks: nat -> Network): UpdateResult
    requires QueuesFine(p) && forall id :: id in order ==> id in p.channels
    decreases |order|
  {
    if order == [] then UpdateResult(p, None)
    else
      var id := order[0];
      if p.channels[id].failure.Some? then UpdateResult(p, Some(id))
      else
        var q := FlushOne(p, id, now, networks(id));
        if q.channels[id].failure.Some? then UpdateResult(q, Some(id)) else FlushAll(q, order[1..], now, networks)
  }

  lemma FlushKeepsQueues(c: Channel, now: nat, network: Network)
    requires QueuesOk(c)
    ensures QueuesOk(Flush(c, now, network).channel)
  {
    var r := Refill(c, now);
    if !TimedOut(c.controlIn, now) && !TimedOut(c.bulkIn, now) && r.queuedMessages != 0 && network.connected &&
       network.Capacity() > HEADER_SIZE {
      FlushLoopKeepsQueues(r, now, network.Capacity(), network.engine, 0);
    }
  }

  lemma {:induction false} FlushLoopKeepsQueues(c: Channel, now: nat, capacity: nat, engine: nat -> EngineReply, turn: nat)
    requires QueuesOk(c) && capacity > HEADER_SIZE
    ensures QueuesOk(FlushLoop(c, now, capacity, engine, turn).channel)
    decreases c.tokens.Floor
  {
    var t := TakeTurn(c, now, capacity, engine(turn));
    if t.SentOne? { FlushLoopKeepsQueues(t.channel, now, capacity, engine, turn + 1); }
  }

  /** UpdateBinary (realms_binary.cpp:567-602) after its null checks. */
  ghost function Update(p: Process, now: nat, connectionOk: bool, networks: nat -> Network): UpdateResult
    requires QueuesFine(p)
  {
    if !p.pendingWork then UpdateResult(p, None)
    else if p.channels == map[] then UpdateResult(p.(pendingWork := false), None)
    else if !connectionOk then UpdateResult(p, Some(Ascending(p.channels.Keys)[0]))
    else
      var r := FlushAll(p, Ascending(p.channels.Keys), now, networks);
      if r.failed.Some? then r
      else r.(process := r.process.(pendingWork := WorkLeft(r.process)))
  }

  // ---------------------------------------------------------------- polling

  datatype PollResult = NothingToRead | PollError | TooSmall(message: Message) | Read(message: Message, process: Process)

  /** The first message of the lane that the caller may read: any for bulk, the channel's own for control. */
  function FirstFor(queue: seq<Message>, controlChannel: nat): (index: nat)
    ensures index <= |queue|
    ensures forall i :: 0 <= i < index ==> controlChannel != 0 && queue[i].channel != controlChannel
    ensures index < |queue| ==> controlChannel == 0 || queue[index].channel == controlChannel
  {
    if queue == [] || controlChannel == 0 || queue[0].channel == controlChannel then 0
    else 1 + FirstFor(queue[1..], controlChannel)
  }

  /** PollBinary (realms_binary.cpp:604-644); `capacity` is the size of the caller's buffer, if it is `present`. */
  function Poll(p: Process, controlChannel: nat, messageId: nat, capacity: nat, present: bool): PollResult {
    if !p.pendingReceive then NothingToRead
    else if (controlChannel == 0) != (messageId == 0) then PollError
    else
      var queue := if controlChannel == 0 then p.bulk else p.control;
      var index := FirstFor(queue, controlChannel);
      if index == |queue| then NothingToRead
      else
        var m := queue[index];
        if controlChannel != 0 && m.id != messageId then PollError
        else if capacity < |m.payload| || (!present && m.payload != []) then TooSmall(m)
        else
          var left := queue[..index] + queue[index + 1..];
          var q := p.(receiveBytes := p.receiveBytes - |m.payload|, receiveMessages := p.receiveMessages - 1,
                      pendingReceive := p.receiveMessages - 1 != 0);
          Read(m, if controlChannel == 0 then q.(bulk := left) else q.(control := left))
  }

  // ---------------------------------------------------------------- the accounts are kept

  /** Replacing one channel moves each total by that channel's difference. */
  lemma WithChannelTotals(p: Process, id: nat, c: Channel)
    requires id in p.channels
    ensures
      var q := WithChannel(p, id, c);
      && Total(q.channels, QueuedOf) == Total(p.channels, QueuedOf) + c.queuedBytes - p.channels[id].queuedBytes
      && Total(q.channels, HeldOf) == Total(p.channels, HeldOf) + HeldOf(c) - HeldOf(p.channels[id])
      && Total(q.channels, BulkHeldOf) == Total(p.channels, BulkHeldOf) + BulkHeldOf(c) - BulkHeldOf(p.channels[id])
      && q.channels.Keys == p.channels.Keys && |q.channels| == |p.channels|
  {
    TotalUpdate(p.channels, QueuedOf, id, c);
    TotalUpdate(p.channels, HeldOf, id, c);
    TotalUpdate(p.channels, BulkHeldOf, id, c);
    var q := WithChannel(p, id, c);
    assert q.channels.Keys == p.channels.Keys;
    assert |q.channels| == |q.channels.Keys| && |p.channels| == |p.channels.Keys|;
  }

  lemma OneChannelFine(p: Process, id: nat, c: Channel)
    requires ChannelsFine(p.channels) && id in p.channels && ChannelFine(c, id)
    ensures ChannelsFine(WithChannel(p, id, c).channels)
  {
  }

  lemma OneChannelFlag(p: Process, id: nat, c: Channel)
    requires WorkFlagSound(p) && id in p.channels
    requires HasWork(c) ==> p.pendingWork || c.failure.Some?
    ensures WorkFlagSound(WithChannel(p, id, c))
  {
  }

  lemma SameHeldReceives(p: Process, id: nat, c: Channel)
    requires ReceiveAccounts(p) && id in p.channels
    requires c.controlIn == p.channels[id].controlIn && c.bulkIn == p.channels[id].bulkIn
    ensures ReceiveAccounts(WithChannel(p, id, c))
  {
    WithChannelTotals(p, id, c);
  }

  lemma SameLanes(p: Process, id: nat, c: Channel)
    requires LanesOk(p) && id in p.channels
    ensures LanesOk(WithChannel(p, id, c))
  {
    assert WithChannel(p, id, c).channels.Keys == p.channels.Keys;
  }

  /** A channel that only sends more or fewer bytes keeps the accounts. */
  lemma SendSideKeeps(p: Process, id: nat, c: Channel)
    requires Accounts(p) && id in p.channels && ChannelFine(c, id)
    requires p.queuedBytes + c.queuedBytes - p.channels[id].queuedBytes <= MAXIMUM_QUEUED_BYTES
    requires c.controlIn == p.channels[id].controlIn && c.bulkIn == p.channels[id].bulkIn
    requires HasWork(c) ==> p.pendingWork || c.failure.Some?
    ensures Accounts(WithChannel(p, id, c))
  {
    WithChannelTotals(p, id, c);
    OneChannelFine(p, id, c);
    OneChannelFlag(p, id, c);
    SameHeldReceives(p, id, c);
    SameLanes(p, id, c);
  }

  /** How many bytes a frame adds to the receive budget: the whole message at its start, nothing later. */
  lemma AcceptCharges(a: Assembly, id: nat, f: Frame, now: nat, roomBytes: bool, roomQueue: bool)
    requires AssemblyOk(a) && AssemblyFor(a, id)
    ensures
      var r := Accept(a, id, f, now, roomBytes, roomQueue);
      var stored := if r.completed.Some? then |r.completed.value.payload| else 0;
      && (Held(r.assembly) + stored == Held(a) || (roomBytes && Held(r.assembly) + stored == Held(a) + f.total))
      && AssemblyFor(r.assembly, id)
      && (r.completed.Some? ==> r.completed.value.kind == f.kind && r.completed.value.channel == id && roomQueue)
  {
  }

  /** The same for a channel: its own lane moves, the other stays. */
  predicate Charges(c: Channel, r: ReceiveResult, id: nat, f: Frame, roomBytes: bool, roomQueue: bool) {
    var stored := if r.completed.Some? then |r.completed.value.payload| else 0;
    var size := if f.reliable then f.total else |f.payload|;
    && (HeldOf(r.channel) + stored == HeldOf(c) || (roomBytes && HeldOf(r.channel) + stored == HeldOf(c) + size))
    && AssemblyFor(r.channel.controlIn, id) && AssemblyFor(r.channel.bulkIn, id)
    && (f.reliable && f.kind == 0 ==> r.channel.bulkIn == c.bulkIn)
    && (!(f.reliable && f.kind == 0) ==> r.channel.controlIn == c.controlIn)
    && (r.completed.Some? ==> r.completed.value.kind == f.kind && r.completed.value.channel == id && roomQueue)
  }

  lemma ReceiveCharges(c: Channel, id: nat, f: Frame, now: nat, roomBytes: bool, roomQueue: bool)
    requires ChannelOk(c) && AssemblyFor(c.controlIn, id) && AssemblyFor(c.bulkIn, id)
    ensures Charges(c, ReceiveFrame(c, id, f, now, roomBytes, roomQueue), id, f, roomBytes, roomQueue)
  {
    if f.reliable {
      LaneCharges(c, id, f, Accept(AssemblyOf(c, f.kind), id, f, now, roomBytes, roomQueue), roomBytes, roomQueue, now);
    }
  }

  lemma LaneCharges(c: Channel, id: nat, f: Frame, a: Accepted, roomBytes: bool, roomQueue: bool, now: nat)
    requires AssemblyOk(AssemblyOf(c, f.kind)) && AssemblyFor(c.controlIn, id) && AssemblyFor(c.bulkIn, id)
    requires f.reliable && a == Accept(AssemblyOf(c, f.kind), id, f, now, roomBytes, roomQueue)
    ensures Charges(c, ReceiveFrame(c, id, f, now, roomBytes, roomQueue), id, f, roomBytes, roomQueue)
  {
    AcceptCharges(AssemblyOf(c, f.kind), id, f, now, roomBytes, roomQueue);
    HeldAfter(c, f.kind, a.assembly);
    LaneReceives(c, id, f, roomBytes, roomQueue, now);
  }

  lemma LaneReceives(c: Channel, id: nat, f: Frame, roomBytes: bool, roomQueue: bool, now: nat)
    requires f.reliable
    ensures
      var a := Accept(AssemblyOf(c, f.kind), id, f, now, roomBytes, roomQueue);
      var r := ReceiveFrame(c, id, f, now, roomBytes, roomQueue);
      && r.channel.controlIn == WithAssembly(c, f.kind, a.assembly).controlIn
      && r.channel.bulkIn == WithAssembly(c, f.kind, a.assembly).bulkIn
      && r.completed == a.completed
  {
  }

  lemma HeldAfter(c: Channel, kind: nat, a: Assembly)
    ensures HeldOf(WithAssembly(c, kind, a)) == HeldOf(c) - Held(AssemblyOf(c, kind)) + Held(a)
  {
  }

  lemma {:induction false} HeldSplit(channels: map<nat, Channel>)
    ensures Total(channels, HeldOf) == Total(channels, BulkHeldOf) + Total(channels, ControlHeldOf)
    ensures Total(channels, ControlHeldOf) >= 0 && Total(channels, BulkHeldOf) >= 0
    decreases |channels|
  {
    if channels != map[] {
      var id :| id in channels;
      TotalSplit(channels, HeldOf, id);
      TotalSplit(channels, BulkHeldOf, id);
      TotalSplit(channels, ControlHeldOf, id);
      HeldSplit(channels - {id});
    }
  }

  lemma StoreKeepsLanes(p: Process, m: Message)
    ensures
      var q := Store(p, Some(m));
      && PayloadBytes(q.control) + PayloadBytes(q.bulk) == PayloadBytes(p.control) + PayloadBytes(p.bulk) + |m.payload|
      && PayloadBytes(q.bulk) == PayloadBytes(p.bulk) + (if m.kind == 0 then 0 else |m.payload|)
  {
    PayloadBytesAppend(p.control, [m]);
    PayloadBytesAppend(p.bulk, [m]);
  }

  /** The bytes a frame brings: none, or its whole message when there is room for it. */
  predicate ChargesFor(p: Process, c: Channel, r: ReceiveResult, size: nat, kind: nat, reliable: bool) {
    var stored := if r.completed.Some? then |r.completed.value.payload| else 0;
    && (HeldOf(r.channel) + stored == HeldOf(c) ||
        (p.receiveBytes + size <= ByteLimit(kind, reliable) && HeldOf(r.channel) + stored == HeldOf(c) + size))
    && (kind == 0 ==> reliable && r.channel.bulkIn == c.bulkIn) && (kind != 0 ==> r.channel.controlIn == c.controlIn)
    && (r.completed.Some? ==> r.completed.value.kind == kind && p.receiveMessages < MessageLimit(kind))
    && r.channel.queuedBytes == c.queuedBytes
  }

  /** Charging a frame's message and storing what it completes keeps the receive accounts. */
  lemma ChargeKeepsReceived(p: Process, id: nat, r: ReceiveResult, size: nat, kind: nat, reliable: bool)
    requires ReceiveAccounts(p) && id in p.channels && ChargesFor(p, p.channels[id], r, size, kind, reliable)
    ensures ReceiveAccounts(Charge(p, id, r))
  {
    WithChannelTotals(p, id, r.channel);
    var q := WithChannel(p, id, r.channel);
    HeldSplit(p.channels);
    HeldSplit(q.channels);
    if r.completed.Some? {
      StoreKeepsLanes(q.(receiveBytes := q.receiveBytes + HeldOf(r.channel) - HeldOf(p.channels[id])), r.completed.value);
    }
  }

  lemma ChargeLanes(p: Process, id: nat, r: ReceiveResult)
    requires LanesOk(p) && id in p.channels && (r.completed.Some? ==> r.completed.value.channel == id)
    ensures LanesOk(Charge(p, id, r))
  {
    SameLanes(p, id, r.channel);
  }

  lemma ChargeKeeps(p: Process, id: nat, r: ReceiveResult, size: nat, kind: nat, reliable: bool)
    requires Accounts(p) && id in p.channels && ChannelFine(r.channel, id)
    requires ChargesFor(p, p.channels[id], r, size, kind, reliable)
    requires r.completed.Some? ==> r.completed.value.channel == id
    requires HasWork(r.channel) ==> p.pendingWork || r.channel.failure.Some?
    ensures Accounts(Charge(p, id, r))
  {
    OneChannelFine(p, id, r.channel);
    ChargeKeepsReceived(p, id, r, size, kind, reliable);
    OneChannelFlag(p, id, r.channel);
    ChargeLanes(p, id, r);
    ChargeOutline(p, id, r);
    ChargeQueued(p, id, r);
  }

  lemma ChargeQueued(p: Process, id: nat, r: ReceiveResult)
    requires id in p.channels && p.queuedBytes == Total(p.channels, QueuedOf)
    ensures Charge(p, id, r).queuedBytes == Total(Charge(p, id, r).channels, QueuedOf) && |Charge(p, id, r).channels| == |p.channels|
  {
    ChargeOutline(p, id, r);
    WithChannelTotals(p, id, r.channel);
  }

  lemma ChargeOutline(p: Process, id: nat, r: ReceiveResult)
    requires id in p.channels
    ensures
      var q := Charge(p, id, r);
      && q.channels == WithChannel(p, id, r.channel).channels
      && q.queuedBytes == WithChannel(p, id, r.channel).queuedBytes
      && q.pendingWork == WithChannel(p, id, r.channel).pendingWork
  {
  }

  lemma SetFlag(p: Process, flag: bool)
    requires Accounts(p) && WorkFlagSound(p.(pendingWork := flag))
    ensures Accounts(p.(pendingWork := flag))
  {
  }

  lemma RaiseFlag(p: Process, raise: bool)
    requires Accounts(p)
    ensures Accounts(p.(pendingWork := p.pendingWork || raise))
  {
    SetFlag(p, p.pendingWork || raise);
  }

  lemma ReceiveFine(c: Channel, id: nat, f: Frame, now: nat, roomBytes: bool, roomQueue: bool)
    requires ChannelFine(c, id) && f.Acceptable()
    ensures ChannelFine(ReceiveFrame(c, id, f, now, roomBytes, roomQueue).channel, id)
  {
    ReceiveKeepsOutgoing(c, id, f, now, roomBytes, roomQueue);
    SameOutgoingOk(c, ReceiveFrame(c, id, f, now, roomBytes, roomQueue).channel);
    ReceiveCharges(c, id, f, now, roomBytes, roomQueue);
    ReceiveKinds(c, id, f, now, roomBytes, roomQueue);
  }

  /** Only reliable frames of its kind enter a lane's assembly. */
  lemma ReceiveKinds(c: Channel, id: nat, f: Frame, now: nat, roomBytes: bool, roomQueue: bool)
    requires AssemblyKind(c.controlIn, true) && AssemblyKind(c.bulkIn, false)
    ensures
      var d := ReceiveFrame(c, id, f, now, roomBytes, roomQueue).channel;
      AssemblyKind(d.controlIn, true) && AssemblyKind(d.bulkIn, false)
  {
  }

  lemma FrameCharges(p: Process, id: nat, f: Frame, now: nat)
    requires id in p.channels && ChannelFine(p.channels[id], id) && f.Acceptable()
    ensures
      var c := p.channels[id];
      var size := if f.reliable then f.total else |f.payload|;
      var r := ReceiveFrame(c, id, f, now, p.receiveBytes + size <= ByteLimit(f.kind, f.reliable),
                            p.receiveMessages < MessageLimit(f.kind));
      && ChannelFine(r.channel, id) && ChargesFor(p, c, r, size, f.kind, f.reliable)
      && (r.completed.Some? ==> r.completed.value.channel == id)
      && (HasWork(r.channel) ==> f.reliable || HasWork(c) || r.channel.failure.Some?)
  {
    var c := p.channels[id];
    var size := if f.reliable then f.total else |f.payload|;
    var roomBytes := p.receiveBytes + size <= ByteLimit(f.kind, f.reliable);
    var roomQueue := p.receiveMessages < MessageLimit(f.kind);
    ReceiveFine(c, id, f, now, roomBytes, roomQueue);
    ReceiveCharges(c, id, f, now, roomBytes, roomQueue);
    ReceiveWork(c, id, f, now, roomBytes, roomQueue);
  }

  lemma TakeFrameKeeps(p: Process, id: nat, f: Frame, now: nat)
    requires Accounts(p) && id in p.channels && p.channels[id].failure.None? && f.Acceptable()
    ensures Accounts(TakeFrame(p, id, f, now).0)
  {
    var c := p.channels[id];
    var size := if f.reliable then f.total else |f.payload|;
    var raised := p.(pendingWork := p.pendingWork || f.reliable);
    RaiseFlag(p, f.reliable);
    FrameCharges(raised, id, f, now);
    var r := ReceiveFrame(c, id, f, now, p.receiveBytes + size <= ByteLimit(f.kind, f.reliable),
                          p.receiveMessages < MessageLimit(f.kind));
    ChargeKeeps(raised, id, r, size, f.kind, f.reliable);
  }

  /** A datagram leaves no work behind but a failure. */
  lemma ReceiveWork(c: Channel, id: nat, f: Frame, now: nat, roomBytes: bool, roomQueue: bool)
    ensures
      var r := ReceiveFrame(c, id, f, now, roomBytes, roomQueue);
      && (!f.reliable && HasWork(r.channel) ==> HasWork(c) || r.channel.failure.Some?)
      && r.channel.queuedBytes == c.queuedBytes
  {
  }

  lemma FailKeeps(p: Process, id: nat, reason: Failure)
    requires Accounts(p) && id in p.channels
    ensures Accounts(WithChannel(p, id, p.channels[id].Fail(reason)))
  {
    var c := p.channels[id];
    var d := c.Fail(reason);
    assert ChannelFine(d, id) by { SameOutgoingOk(c, d); }
    SendSideKeeps(p, id, d);
  }

  lemma ParsedIsAcceptable(kind: int, bits: seq<bool>, isHost: bool, peer: nat)
    ensures Parse(kind, bits, isHost, peer).Ok? ==> Parse(kind, bits, isHost, peer).value.Acceptable()
  {
  }

  lemma CallbackKeeps(p: Process, serial: nat, id: nat, peer: nat, channelId: nat, parsed: Result<Frame>, now: nat)
    requires Accounts(p) && (parsed.Ok? ==> parsed.value.Acceptable())
    ensures Accounts(Callback(p, serial, id, peer, channelId, parsed, now).0)
  {
    if id in p.channels && p.channels[id].serial == serial && p.channels[id].failure.None? {
      if p.channels[id].peer != peer || id != channelId {
        FailKeeps(p, id, CallbackMismatch);
      } else {
        match parsed
        case Err(reason) => FailKeeps(p, id, reason);
        case Ok(f) => TakeFrameKeeps(p, id, f, now);
      }
    }
  }

  lemma SetSerial(p: Process, serial: nat)
    requires Accounts(p)
    ensures Accounts(p.(nextSerial := serial))
  {
  }

  lemma AddChannelKeeps(p: Process, id: nat, c: Channel)
    requires Accounts(p) && id !in p.channels && |p.channels| < MAXIMUM_REMOTE_PEERS && ChannelFine(c, id)
    requires c.queuedBytes == 0 && !HasWork(c)
    ensures Accounts(p.(channels := p.channels[id := c]))
  {
    AttachTotals(p, id, c);
    var q := p.(channels := p.channels[id := c]);
    assert ReceiveAccounts(q);
    assert ChannelsFine(q.channels);
    AttachLanes(p, id, c);
    assert WorkFlagSound(q);
  }

  lemma AttachLanes(p: Process, id: nat, c: Channel)
    requires LanesOk(p)
    ensures LanesOk(p.(channels := p.channels[id := c]))
  {
    assert p.channels[id := c].Keys == p.channels.Keys + {id};
  }

  lemma NewChannelFine(id: nat, peer: nat, isHost: bool, serial: nat, now: nat)
    ensures
      var c := NewChannel(peer, isHost, serial, now);
      ChannelFine(c, id) && c.queuedBytes == 0 && !HasWork(c)
  {
  }

  lemma AttachKeeps(p: Process, id: nat, peer: nat, isHost: bool, now: nat, connectionOk: bool, registered: bool)
    requires Accounts(p)
    ensures Accounts(Attach(p, id, peer, isHost, now, connectionOk, registered).0)
  {
    var q := p.(nextSerial := (p.nextSerial + 1) % WORD32);
    var r := Attach(p, id, peer, isHost, now, connectionOk, registered).0;
    SetSerial(p, (p.nextSerial + 1) % WORD32);
    if r != p && r != q {
      NewChannelFine(id, peer, isHost, p.nextSerial, now);
      AddChannelKeeps(q, id, NewChannel(peer, isHost, p.nextSerial, now));
    }
  }

  lemma AttachTotals(p: Process, id: nat, c: Channel)
    requires id !in p.channels && c.queuedBytes == 0 && c.controlIn.Idle? && c.bulkIn.Idle?
    ensures
      var channels := p.channels[id := c];
      && Total(channels, QueuedOf) == Total(p.channels, QueuedOf) && Total(channels, HeldOf) == Total(p.channels, HeldOf)
      && Total(channels, BulkHeldOf) == Total(p.channels, BulkHeldOf) && |channels| == |p.channels| + 1
  {
    TotalUpdate(p.channels, QueuedOf, id, c);
    TotalUpdate(p.channels, HeldOf, id, c);
    TotalUpdate(p.channels, BulkHeldOf, id, c);
    assert p.channels[id := c].Keys == p.channels.Keys + {id};
    assert |p.channels[id := c].Keys| == |p.channels.Keys| + 1;
  }

  /** Removing a channel's messages removes exactly their bytes. */
  lemma {:induction false} WithoutCounts(queue: seq<Message>, id: nat)
    ensures |Without(queue, id)| + |ForChannel(queue, id)| == |queue|
    ensures PayloadBytes(Without(queue, id)) + PayloadBytes(ForChannel(queue, id)) == PayloadBytes(queue)
    ensures forall i :: 0 <= i < |Without(queue, id)| ==>
              Without(queue, id)[i] in queue && Without(queue, id)[i].channel != id
  {
    if queue != [] {
      WithoutCounts(queue[1..], id);
      var kept := Without(queue[1..], id);
      PayloadBytesAppend([queue[0]], kept);
      PayloadBytesAppend([queue[0]], ForChannel(queue[1..], id));
      assert [queue[0]][1..] == [] && PayloadBytes([queue[0]]) == |queue[0].payload|;
      assert [] + kept == kept && [] + ForChannel(queue[1..], id) == ForChannel(queue[1..], id);
    }
  }

  lemma WithoutLane(queue: seq<Message>, control: bool, ids: set<nat>, id: nat)
    requires LaneOk(queue, control, ids)
    ensures LaneOk(Without(queue, id), control, ids - {id})
  {
    WithoutCounts(queue, id);
  }

  /** Detaching removes the channel's queued, held and unread bytes, and nothing else. */
  lemma DetachKeeps(p: Process, id: nat)
    requires Accounts(p)
    ensures Accounts(Detach(p, id)) && id !in Detach(p, id).channels
  {
    if id in p.channels {
      var q := Detach(p, id);
      assert ChannelFine(p.channels[id], id);
      TotalSplit(p.channels, QueuedOf, id);
      TotalSplit(p.channels, HeldOf, id);
      TotalSplit(p.channels, BulkHeldOf, id);
      WithoutCounts(p.control, id);
      WithoutCounts(p.bulk, id);
      WithoutLane(p.control, true, p.channels.Keys, id);
      WithoutLane(p.bulk, false, p.channels.Keys, id);
      assert q.channels.Keys == p.channels.Keys - {id};
      assert |q.channels.Keys| <= |p.channels.Keys|;
      DetachFlag(p, id);
    }
  }

  lemma DetachFlag(p: Process, id: nat)
    requires WorkFlagSound(p) && id in p.channels
    ensures WorkFlagSound(Detach(p, id))
  {
    var q := Detach(p, id);
    if p.channels.Keys == {id} {
      assert q.channels.Keys == {};
    }
  }

  lemma SendKeeps(p: Process, id: nat, args: SendArguments, now: nat, engine: ControlNetwork)
    requires Accounts(p)
    ensures Accounts(Send(p, id, args, now, engine).process)
  {
    if args.Valid() && id in p.channels && p.channels[id].failure.None? {
      var c := p.channels[id];
      assert ChannelFine(c, id);
      var m := NewMessage(c, id, args, now);
      if args.kind == 0 {
        ControlSendKeeps(p, id, m, engine);
      } else if c.queuedBytes + |args.payload| <= MAXIMUM_CHANNEL_BYTES &&
                p.queuedBytes + |args.payload| <= MAXIMUM_QUEUED_BYTES &&
                c.queuedMessages < MAXIMUM_CHANNEL_MESSAGES {
        EnqueueKeeps(c, id, args, now);
        QueuedSendKeeps(p, id, Enqueue(c, m));
      }
    }
  }

  lemma QueuedSendKeeps(p: Process, id: nat, c: Channel)
    requires Accounts(p) && id in p.channels && ChannelFine(c, id)
    requires p.queuedBytes + c.queuedBytes - p.channels[id].queuedBytes <= MAXIMUM_QUEUED_BYTES
    requires c.controlIn == p.channels[id].controlIn && c.bulkIn == p.channels[id].bulkIn
    ensures Accounts(WithChannel(p, id, c).(pendingWork := true))
  {
    RaiseFlag(p, true);
    SendSideKeeps(p.(pendingWork := true), id, c);
    assert WithChannel(p, id, c).(pendingWork := true) == WithChannel(p.(pendingWork := true), id, c);
  }

  lemma ControlSendKeeps(p: Process, id: nat, m: Message, engine: ControlNetwork)
    requires Accounts(p) && id in p.channels && p.channels[id].failure.None? && m.offset == 0 && m.id < WORD32
    ensures
      var r := SendControl(p.channels[id], m, engine);
      Accounts(WithChannel(p, id, if r.accepted then r.channel.(nextMessage := m.id) else r.channel))
  {
    var c := p.channels[id];
    assert ChannelFine(c, id);
    var r := SendControl(c, m, engine);
    ControlLeavesChannel(c, id, m, engine);
    SendSideKeeps(p, id, if r.accepted then r.channel.(nextMessage := m.id) else r.channel);
  }

  lemma ControlLeavesChannel(c: Channel, id: nat, m: Message, engine: ControlNetwork)
    requires ChannelFine(c, id) && c.failure.None? && m.offset == 0 && m.id < WORD32
    ensures
      var r := SendControl(c, m, engine);
      var d := if r.accepted then r.channel.(nextMessage := m.id) else r.channel;
      && ChannelFine(d, id) && d.queuedBytes == c.queuedBytes && d.controlIn == c.controlIn && d.bulkIn == c.bulkIn
      && (HasWork(d) ==> HasWork(c) || d.failure.Some?)
  {
  }

  /** One channel's flush keeps the process's accounts. */
  lemma FlushOneKeeps(p: Process, id: nat, now: nat, network: Network)
    requires Accounts(p) && QueuesFine(p) && p.pendingWork && id in p.channels && ClockAhead(p, now)
    ensures
      var q := FlushOne(p, id, now, network);
      Accounts(q) && q.pendingWork && ClockAhead(q, now)
  {
    var c := p.channels[id];
    assert ChannelFine(c, id);
    FlushKeeps(c, now, network);
    FlushShrinks(c, now, network);
    SendSideKeeps(p, id, Flush(c, now, network).channel);
  }

  ghost predicate ClockAhead(p: Process, now: nat) {
    forall id :: id in p.channels ==> p.channels[id].lastUpdate <= now
  }

  /** Whatever every single flush keeps, the whole update keeps. */
  lemma {:induction false} FlushAllInduction(inv: Process -> bool, p: Process, order: seq<nat>, now: nat,
                                             networks: nat -> Network)
    requires inv(p) && QueuesFine(p) && forall id :: id in order ==> id in p.channels
    requires forall q: Process, id: nat {:trigger FlushOne(q, id, now, networks(id))} :: inv(q) && QueuesFine(q) && id in q.channels ==>
               inv(FlushOne(q, id, now, networks(id)))
    ensures inv(FlushAll(p, order, now, networks).process)
    decreases |order|
  {
    if order != [] {
      FlushAllInduction(inv, FlushOne(p, order[0], now, networks(order[0])), order[1..], now, networks);
    }
  }

  ghost predicate InUpdate(p: Process, now: nat) {
    Accounts(p) && p.pendingWork && ClockAhead(p, now)
  }

  lemma FlushAllKeeps(p: Process, order: seq<nat>, now: nat, networks: nat -> Network)
    requires InUpdate(p, now) && QueuesFine(p) && forall id :: id in order ==> id in p.channels
    ensures InUpdate(FlushAll(p, order, now, networks).process, now)
  {
    forall q: Process, id: nat | InUpdate(q, now) && QueuesFine(q) && id in q.channels
      ensures InUpdate(FlushOne(q, id, now, networks(id)), now)
    {
      FlushOneKeeps(q, id, now, networks(id));
    }
    FlushAllInduction(q => InUpdate(q, now), p, order, now, networks);
  }

  ghost predicate HealthyExcept(p: Process, order: seq<nat>) {
    forall id :: id in p.channels && id !in order ==> p.channels[id].failure.None?
  }

  /** A flush of every channel that reports no failure leaves no visited channel failed. */
  lemma {:induction false} FlushAllHealthy(p: Process, order: seq<nat>, now: nat, networks: nat -> Network)
    requires QueuesFine(p) && (forall id :: id in order ==> id in p.channels) && HealthyExcept(p, order)
    ensures
      var r := FlushAll(p, order, now, networks);
      r.failed.None? ==> HealthyExcept(r.process, [])
    decreases |order|
  {
    if order != [] {
      var id := order[0];
      var q := FlushOne(p, id, now, networks(id));
      if q.channels[id].failure.None? {
        assert order == [id] + order[1..];
        assert HealthyExcept(q, order[1..]);
        FlushAllHealthy(q, order[1..], now, networks);
      }
    }
  }

  /** A flush never leaves more queued than it found. */
  lemma FlushShrinks(c: Channel, now: nat, network: Network)
    requires ChannelOk(c)
    ensures
      var d := Flush(c, now, network).channel;
      d.queuedBytes <= c.queuedBytes && d.queuedMessages <= c.queuedMessages
  {
    var r := Refill(c, now);
    if !TimedOut(c.controlIn, now) && !TimedOut(c.bulkIn, now) && r.queuedMessages != 0 && network.connected &&
       network.Capacity() > HEADER_SIZE {
      FlushLoopShrinks(r, now, network.Capacity(), network.engine, 0);
    }
  }

  lemma {:induction false} FlushLoopShrinks(c: Channel, now: nat, capacity: nat, engine: nat -> EngineReply, turn: nat)
    requires QueuesOk(c) && capacity > HEADER_SIZE
    ensures
      var d := FlushLoop(c, now, capacity, engine, turn).channel;
      d.queuedBytes <= c.queuedBytes && d.queuedMessages <= c.queuedMessages
    decreases c.tokens.Floor
  {
    ExpireShrinks(c, now);
    var t := TakeTurn(c, now, capacity, engine(turn));
    if t.SentOne? { FlushLoopShrinks(t.channel, now, capacity, engine, turn + 1); }
  }

  lemma {:induction false} ExpireShrinks(c: Channel, now: nat)
    ensures Expire(c, now).queuedBytes <= c.queuedBytes && Expire(c, now).queuedMessages <= c.queuedMessages
    decreases |c.datagrams|
  {
    if c.datagrams != [] && now >= c.datagrams[0].tick {
      ExpireShrinks(c.(datagrams := c.datagrams[1..], queuedBytes := c.queuedBytes - |c.datagrams[0].payload|,
                       queuedMessages := c.queuedMessages - 1, expired := c.expired + 1), now);
    }
  }

  lemma UpdateKeeps(p: Process, now: nat, connectionOk: bool, networks: nat -> Network)
    requires Accounts(p) && QueuesFine(p) && ClockAhead(p, now)
    ensures Accounts(Update(p, now, connectionOk, networks).process)
  {
    if p.pendingWork && p.channels != map[] && connectionOk {
      var order := Ascending(p.channels.Keys);
      FlushAllKeeps(p, order, now, networks);
      FlushAllHealthy(p, order, now, networks);
      var r := FlushAll(p, order, now, networks);
      if r.failed.None? { LowerFlag(r.process); }
    } else if p.pendingWork && p.channels == map[] {
      SetFlag(p, false);
    }
  }

  ghost predicate WorkLeft(p: Process) {
    exists id :: id in p.channels && HasWork(p.channels[id].(failure := None))
  }

  lemma LowerFlag(p: Process)
    requires Accounts(p) && HealthyExcept(p, [])
    ensures Accounts(p.(pendingWork := WorkLeft(p)))
  {
    LowerIsSound(p);
    SetFlag(p, WorkLeft(p));
  }

  lemma LowerIsSound(p: Process)
    requires HealthyExcept(p, [])
    ensures WorkFlagSound(p.(pendingWork := WorkLeft(p)))
  {
    forall id | id in p.channels && HasWork(p.channels[id])
      ensures WorkLeft(p)
    {
      assert id !in [] && p.channels[id].(failure := None) == p.channels[id];
    }
  }

  lemma RemoveAt(queue: seq<Message>, index: nat)
    requires index < |queue|
    ensures PayloadBytes(queue[..index] + queue[index + 1..]) == PayloadBytes(queue) - |queue[index].payload|
  {
    PayloadBytesAppend(queue[..index], queue[index..]);
    PayloadBytesAppend(queue[..index], queue[index + 1..]);
    assert queue == queue[..index] + queue[index..];
    assert queue[index..][1..] == queue[index + 1..];
  }

  lemma PollKeeps(p: Process, controlChannel: nat, messageId: nat, capacity: nat, present: bool)
    requires Accounts(p)
    ensures
      var r := Poll(p, controlChannel, messageId, capacity, present);
      r.Read? ==> Accounts(r.process)
  {
    var r := Poll(p, controlChannel, messageId, capacity, present);
    if r.Read? {
      var queue := if controlChannel == 0 then p.bulk else p.control;
      var index := FirstFor(queue, controlChannel);
      RemoveAt(queue, index);
      PollReceives(p, controlChannel, messageId, capacity, present);
      PollFlag(p, r.process);
    }
  }

  lemma PollReceives(p: Process, controlChannel: nat, messageId: nat, capacity: nat, present: bool)
    requires ReceiveAccounts(p) && LanesOk(p) && Poll(p, controlChannel, messageId, capacity, present).Read?
    ensures
      var q := Poll(p, controlChannel, messageId, capacity, present).process;
      ReceiveAccounts(q) && LanesOk(q) && q.channels == p.channels && q.pendingWork == p.pendingWork
  {
    var queue := if controlChannel == 0 then p.bulk else p.control;
    RemoveAt(queue, FirstFor(queue, controlChannel));
  }

  lemma PollFlag(p: Process, q: Process)
    requires WorkFlagSound(p) && q.channels == p.channels && q.pendingWork == p.pendingWork
    ensures WorkFlagSound(q)
  {
  }

  // ---------------------------------------------------------------- the control reserve

  /** A lane whose channels each hold at most `limit` messages is no longer than all of them together. */
  lemma {:induction false} LaneBound(queue: seq<Message>, ids: set<nat>, limit: nat)
    requires forall i :: 0 <= i < |queue| ==> queue[i].channel in ids
    requires forall id :: id in ids ==> |ForChannel(queue, id)| <= limit
    ensures |queue| <= limit * |ids|
    decreases |ids|
  {
    if ids != {} {
      var id :| id in ids;
      var rest := Without(queue, id);
      WithoutCounts(queue, id);
      forall other | other in ids - {id} ensures |ForChannel(rest, other)| <= limit {
        ForChannelWithout(queue, id, other);
      }
      forall i | 0 <= i < |rest| ensures rest[i].channel in ids - {id} {
        var k :| 0 <= k < |queue| && queue[k] == rest[i];
      }
      LaneBound(rest, ids - {id}, limit);
      assert |ids| == |ids - {id}| + 1;
      OneMoreTime(limit, |ids - {id}|);
    }
  }

  lemma OneMoreTime(limit: nat, n: nat)
    ensures limit * (n + 1) == limit * n + limit
  {
  }

  lemma {:induction false} ForChannelWithout(queue: seq<Message>, id: nat, other: nat)
    ensures ForChannel(Without(queue, id), other) == if other == id then [] else ForChannel(queue, other)
  {
    if queue != [] {
      ForChannelWithout(queue[1..], id, other);
      var kept := Without(queue[1..], id);
      if queue[0].channel != id {
        assert ([queue[0]] + kept)[1..] == kept;
      } else {
        assert [] + kept == kept;
      }
    }
  }

  /**
   The reserve: however much bulk traffic and datagrams fill the process, a control frame is never refused for
   room while control holds at most 4 MiB, with this frame's message, and each attached channel holds at most
   16 unread control messages, with this one.
   */
  lemma ControlReserve(p: Process, id: nat, f: Frame, now: nat)
    requires Accounts(p) && id in p.channels && f.kind == 0 && f.Acceptable()
    requires PayloadBytes(p.control) + Total(p.channels, ControlHeldOf)
             + (if p.channels[id].controlIn.Idle? then f.total else 0) <= CONTROL_RESERVE_BYTES
    requires forall other :: other in p.channels ==> |ForChannel(p.control, other)| <= CONTROL_RESERVE_MESSAGES
    requires |ForChannel(p.control, id)| < CONTROL_RESERVE_MESSAGES
    ensures
      var c := p.channels[id];
      var roomBytes, roomQueue := p.receiveBytes + f.total <= ByteLimit(f.kind, f.reliable), p.receiveMessages < MessageLimit(f.kind);
      ReceiveFrame(c, id, f, now, roomBytes, roomQueue) == ReceiveFrame(c, id, f, now, true, true)
  {
    ReserveBytes(p, id, f);
    ReserveMessages(p, id);
  }

  lemma ReserveBytes(p: Process, id: nat, f: Frame)
    requires Accounts(p) && id in p.channels && f.kind == 0 && f.Acceptable()
    requires PayloadBytes(p.control) + Total(p.channels, ControlHeldOf)
             + (if p.channels[id].controlIn.Idle? then f.total else 0) <= CONTROL_RESERVE_BYTES
    ensures p.channels[id].controlIn.Idle? ==> p.receiveBytes + f.total <= ByteLimit(f.kind, f.reliable)
  {
    HeldSplit(p.channels);
  }

  lemma ReserveMessages(p: Process, id: nat)
    requires Accounts(p) && id in p.channels
    requires forall other :: other in p.channels ==> |ForChannel(p.control, other)| <= CONTROL_RESERVE_MESSAGES
    requires |ForChannel(p.control, id)| < CONTROL_RESERVE_MESSAGES
    ensures p.receiveMessages < MessageLimit(0)
  {
    var others := p.channels.Keys - {id};
    var rest := Without(p.control, id);
    WithoutCounts(p.control, id);
    forall other | other in others ensures |ForChannel(rest, other)| <= CONTROL_RESERVE_MESSAGES {
      ForChannelWithout(p.control, id, other);
    }
    WithoutLane(p.control, true, p.channels.Keys, id);
    LaneBound(rest, others, CONTROL_RESERVE_MESSAGES);
    assert |others| == |p.channels.Keys| - 1 <= MAXIMUM_REMOTE_PEERS - 1;
  }

  // ---------------------------------------------------------------- reading in order

  lemma {:induction false} ForChannelAppend(a: seq<Message>, b: seq<Message>, id: nat)
    ensures ForChannel(a + b, id) == ForChannel(a, id) + ForChannel(b, id)
  {
    if a == [] {
      assert a + b == b;
    } else {
      ForChannelAppend(a[1..], b, id);
      assert (a + b)[0] == a[0] && (a + b)[1..] == a[1..] + b;
      Associative(if a[0].channel == id then [a[0]] else [], ForChannel(a[1..], id), ForChannel(b, id));
    }
  }

  /** Removing the first message of its channel takes the head of that channel's order, and only that. */
  lemma {:induction false} RemoveFirst(queue: seq<Message>, index: nat, id: nat)
    requires index < |queue| && forall i :: 0 <= i < index ==> queue[i].channel != queue[index].channel
    ensures ForChannel(queue, id) == (if queue[index].channel == id then [queue[index]] else [])
                                     + ForChannel(queue[..index] + queue[index + 1..], id)
    decreases index
  {
    var left := queue[..index] + queue[index + 1..];
    if index == 0 {
      assert left == queue[1..];
    } else {
      var rest := queue[1..];
      RemoveFirst(rest, index - 1, id);
      assert left[0] == queue[0] && left[1..] == rest[..index - 1] + rest[index..];
      var own := if queue[0].channel == id then [queue[0]] else [];
      var taken := if queue[index].channel == id then [queue[index]] else [];
      assert own == [] || taken == [];
      Associative(own, taken, ForChannel(left[1..], id));
      Associative(taken, own, ForChannel(left[1..], id));
      assert own + taken == taken + own;
    }
  }

  /** A read takes the oldest unread message of its channel's lane and leaves every other channel's order alone. */
  lemma PollTakesOldest(p: Process, controlChannel: nat, messageId: nat, capacity: nat, present: bool, id: nat)
    ensures
      var r := Poll(p, controlChannel, messageId, capacity, present);
      r.Read? ==>
        var m, q := r.message, r.process;
        var head := if m.channel == id then [m] else [];
        if controlChannel != 0 then
          m.channel == controlChannel && m.id == messageId && q.bulk == p.bulk &&
          ForChannel(p.control, id) == head + ForChannel(q.control, id)
        else
          q.control == p.control && ForChannel(p.bulk, id) == head + ForChannel(q.bulk, id)
  {
    var r := Poll(p, controlChannel, messageId, capacity, present);
    if r.Read? {
      var queue := if controlChannel == 0 then p.bulk else p.control;
      RemoveFirst(queue, FirstFor(queue, controlChannel), id);
    }
  }

  /** Charging a frame appends what it completed to its channel's unread messages, and touches no other channel. */
  lemma ChargeAppends(p: Process, id: nat, r: ReceiveResult, other: nat)
    requires id in p.channels && (r.completed.Some? ==> r.completed.value.channel == id)
    ensures
      var q := Charge(p, id, r);
      var added := if r.completed.Some? && other == id then [r.completed.value] else [];
      var control := r.completed.Some? && r.completed.value.kind == 0;
      && ForChannel(q.control, other) == ForChannel(p.control, other) + (if control then added else [])
      && ForChannel(q.bulk, other) == ForChannel(p.bulk, other) + (if control then [] else added)
      && q.channels == p.channels[id := r.channel]
  {
    if r.completed.Some? {
      ForChannelAppend(p.control, [r.completed.value], other);
      ForChannelAppend(p.bulk, [r.completed.value], other);
      assert [r.completed.value][1..] == [];
    }
  }

  lemma TakeFrameAppends(p: Process, id: nat, f: Frame, now: nat, other: nat)
    requires id in p.channels && ChannelFine(p.channels[id], id) && f.Acceptable()
    ensures
      var size := if f.reliable then f.total else |f.payload|;
      var r := ReceiveFrame(p.channels[id], id, f, now, p.receiveBytes + size <= ByteLimit(f.kind, f.reliable),
                            p.receiveMessages < MessageLimit(f.kind));
      var q := TakeFrame(p, id, f, now).0;
      var added := if r.completed.Some? && other == id then [r.completed.value] else [];
      && ForChannel(q.control, other) == ForChannel(p.control, other) + (if f.kind == 0 then added else [])
      && ForChannel(q.bulk, other) == ForChannel(p.bulk, other) + (if f.kind == 0 then [] else added)
      && q.channels == p.channels[id := r.channel]
  {
    var raised := p.(pendingWork := p.pendingWork || f.reliable);
    FrameCharges(raised, id, f, now);
    var size := if f.reliable then f.total else |f.payload|;
    var r := ReceiveFrame(p.channels[id], id, f, now, p.receiveBytes + size <= ByteLimit(f.kind, f.reliable),
                          p.receiveMessages < MessageLimit(f.kind));
    assert TakeFrame(p, id, f, now).0 == Charge(raised, id, r);
    assert r.completed.Some? ==> r.completed.value.channel == id && r.completed.value.kind == f.kind;
    ChargeAppends(raised, id, r, other);
  }
}
