/**
 Two ends of one binary channel and the network between them, as a state machine. Reliable frames reach
 the receiver in order; datagrams may be lost, repeated and reordered; frame capacities, engine queues,
 budgets and clocks change freely between steps.
 */
module BinaryLink {
  import opened Common
  import opened Bits
  import opened BinaryWire
  import opened BinaryChannel

  datatype Link = Link(
    a: Channel,                       // the sending end
    b: Channel,                       // the receiving end
    pipe: seq<Frame>,                 // every reliable frame the engine took, in order
    taken: nat,                       // how many of them the receiver's callback has accepted
    ether: seq<Frame>,                // every datagram frame the engine took
    acceptedBulk: seq<Body>,          // bulk messages SendBinary accepted
    acceptedControl: seq<Body>,       // control messages SendBinary accepted
    acceptedDatagrams: seq<Body>,     // datagrams SendBinary accepted
    delivered: seq<Message>)          // messages handed to the receiver's queues, in order

  datatype Step =
    | SendQueued(args: SendArguments, now: nat, admitted: bool)
    | SendControlMessage(args: SendArguments, now: nat, engine: ControlNetwork)
    | FlushSender(now: nat, network: Network)
    | FlushReceiver(now: nat, network: Network)
    | DeliverReliable(now: nat, roomBytes: bool, roomQueue: bool)
    | DeliverDatagram(index: nat, now: nat, roomBytes: bool, roomQueue: bool)

  predicate IsBulkFrame(f: Frame) { f.kind != 0 }
  predicate IsControlFrame(f: Frame) { f.kind == 0 }
  predicate IsBulkMessage(m: Message) { m.reliable && m.kind != 0 }
  predicate IsControlMessage(m: Message) { m.reliable && m.kind == 0 }

  function BulkOnly(frames: seq<Frame>): seq<Frame> { Filter(IsBulkFrame, frames) }
  function ControlOnly(frames: seq<Frame>): seq<Frame> { Filter(IsControlFrame, frames) }

  /** The delivered messages of one kind. */
  function DeliveredBulk(messages: seq<Message>): seq<Body> {
    Bodies(Filter(IsBulkMessage, messages))
  }

  function DeliveredControl(messages: seq<Message>): seq<Body> {
    Bodies(Filter(IsControlMessage, messages))
  }

  /** The packet of `f` as the receiver's callback reads it off the wire. */
  function Received(f: Frame, b: Channel): Result<Frame> {
    var bits := ByteBits(Encode(f));
    Parse(FieldAt(bits, 0, 6), bits[6..], b.isHost, b.peer)
  }

  function Receive(b: Channel, f: Frame, now: nat, roomBytes: bool, roomQueue: bool): ReceiveResult {
    match Received(f, b)
    case Err(reason) => ReceiveResult(b.Fail(reason), None)
    case Ok(frame) => ReceiveFrame(b, 0, frame, now, roomBytes, roomQueue)
  }

  function Log(delivered: seq<Message>, m: Option<Message>): seq<Message> {
    if m.Some? then delivered + [m.value] else delivered
  }

  /** What a caller of SendBinary asks to be delivered, under the message number that it is told. */
  function Asked(args: SendArguments, id: nat): Body {
    Body(args.sender, args.recipient, args.kind, id, args.reliable, args.payload)
  }

  ghost function Next(l: Link, step: Step): Link
    requires QueuesOk(l.a) && QueuesOk(l.b)
  {
    match step
    case SendQueued(args, now, admitted) =>
      if l.a.failure.Some? || !args.Valid() || args.kind == 0 || !admitted then l
      else
        var m := NewMessage(l.a, 0, args, now);
        if args.reliable then l.(a := Enqueue(l.a, m), acceptedBulk := l.acceptedBulk + [Asked(args, m.id)])
        else l.(a := Enqueue(l.a, m), acceptedDatagrams := l.acceptedDatagrams + [Asked(args, m.id)])
    case SendControlMessage(args, now, network) =>
      if l.a.failure.Some? || !args.Valid() || args.kind != 0 then l
      else
        var m := NewMessage(l.a, 0, args, now);
        var r := SendControl(l.a, m, network);
        var sent := l.(pipe := l.pipe + r.frames);
        if r.accepted then
          sent.(a := r.channel.(nextMessage := m.id), acceptedControl := l.acceptedControl + [Asked(args, m.id)])
        else sent.(a := r.channel)
    case FlushSender(now, network) =>
      if l.a.failure.Some? then l
      else
        var r := Flush(l.a, now, network);
        l.(a := r.channel, pipe := l.pipe + BulkFrames(r.sent), ether := l.ether + DatagramFrames(r.sent))
    case FlushReceiver(now, network) =>
      if l.b.failure.Some? then l else l.(b := Flush(l.b, now, network).channel)
    case DeliverReliable(now, roomBytes, roomQueue) =>
      if l.b.failure.Some? || l.taken >= |l.pipe| then l
      else
        var r := Receive(l.b, l.pipe[l.taken], now, roomBytes, roomQueue);
        l.(b := r.channel, delivered := Log(l.delivered, r.completed),
           taken := if r.channel.failure.None? then l.taken + 1 else l.taken)
    case DeliverDatagram(index, now, roomBytes, roomQueue) =>
      if l.b.failure.Some? || index >= |l.ether| then l
      else
        var r := Receive(l.b, l.ether[index], now, roomBytes, roomQueue);
        l.(b := r.channel, delivered := Log(l.delivered, r.completed))
  }

  function DatagramFrames(sent: seq<Sent>): seq<Frame> {
    if sent == [] then []
    else (if sent[0].frame.reliable then [] else [sent[0].frame]) + DatagramFrames(sent[1..])
  }

  // ---------------------------------------------------------------- the invariant

  ghost predicate Wellformed(frames: seq<Frame>, reliable: bool) {
    forall i :: 0 <= i < |frames| ==> frames[i].Fits() && frames[i].Acceptable() && frames[i].reliable == reliable
  }

  /** The sent frames account for every accepted message but those queued. */
  ghost predicate Accounts(frames: seq<Frame>, queue: seq<Message>, accepted: seq<Body>) {
    match ParseAll(Nothing, frames)
    case None => false
    case Some(parsed) => parsed.progress == ProgressOfQueue(queue) && accepted == parsed.done + Bodies(queue)
  }

  ghost predicate SenderOk(a: Channel, pipe: seq<Frame>, acceptedBulk: seq<Body>, acceptedControl: seq<Body>) {
    && QueuesOk(a) && a.nextMessage < WORD32
    && Wellformed(pipe, true)
    && Accounts(BulkOnly(pipe), a.bulk, acceptedBulk)
    && ControlAccounts(ControlOnly(pipe), a.failure.None?, acceptedControl)
  }

  /** Control messages are never left half sent by a live sender. */
  ghost predicate ControlAccounts(frames: seq<Frame>, live: bool, accepted: seq<Body>) {
    match ParseAll(Nothing, frames)
    case None => false
    case Some(parsed) => parsed.done == accepted && (live ==> parsed.progress == Nothing)
  }

  /** The frames taken complete exactly the delivered messages, and a live receiver holds the rest. */
  ghost predicate Assembled(frames: seq<Frame>, delivered: seq<Body>, live: bool, held: Assembly) {
    match ParseAll(Nothing, frames)
    case None => false
    case Some(parsed) => parsed.done == delivered && (live ==> parsed.progress == ProgressOfAssembly(held))
  }

  ghost predicate ReceiverOk(b: Channel, got: seq<Frame>, delivered: seq<Message>) {
    && AssemblyKind(b.controlIn, true) && AssemblyKind(b.bulkIn, false)
    && Assembled(BulkOnly(got), DeliveredBulk(delivered), b.failure.None?, b.bulkIn)
    && Assembled(ControlOnly(got), DeliveredControl(delivered), b.failure.None?, b.controlIn)
    && !Impossible(b.failure)
  }

  ghost predicate DatagramsKnown(a: Channel, ether: seq<Frame>, delivered: seq<Message>, accepted: seq<Body>) {
    && Wellformed(ether, false)
    && (forall i :: 0 <= i < |ether| ==> FrameBody(ether[i]) in accepted)
    && (forall i :: 0 <= i < |a.datagrams| ==> BodyOf(a.datagrams[i]) in accepted)
    && (forall i :: 0 <= i < |delivered| && !delivered[i].reliable ==> BodyOf(delivered[i]) in accepted)
  }

  /** Failures a correct peer can never cause. */
  predicate Impossible(failure: Option<Failure>) {
    failure in {Some(Inconsistent), Some(BadKindOrVersion), Some(Truncated)}
  }

  ghost predicate LinkOk(l: Link) {
    && SenderOk(l.a, l.pipe, l.acceptedBulk, l.acceptedControl)
    && QueuesOk(l.b)
    && l.taken <= |l.pipe|
    && ReceiverOk(l.b, l.pipe[..l.taken], l.delivered)
    && DatagramsKnown(l.a, l.ether, l.delivered, l.acceptedDatagrams)
  }

  ghost predicate Fresh(l: Link) {
    && l.a.datagrams == [] && l.a.bulk == [] && l.a.failure.None? && l.a.nextMessage == 0
    && l.b.datagrams == [] && l.b.bulk == [] && l.b.failure.None? && l.b.controlIn.Idle? && l.b.bulkIn.Idle?
    && l.pipe == [] && l.taken == 0 && l.ether == [] && l.delivered == []
    && l.acceptedBulk == [] && l.acceptedControl == [] && l.acceptedDatagrams == []
  }

  lemma FreshIsOk(l: Link)
    requires Fresh(l)
    ensures LinkOk(l)
  {
    assert l.pipe[..l.taken] == [];
    assert SenderOk(l.a, [], [], []) by { assert [] + Bodies(l.a.bulk) == []; }
    assert ReceiverOk(l.b, [], []);
  }

  // ---------------------------------------------------------------- frames the sender makes

  lemma FragmentWellformed(m: Message, size: nat)
    requires SendableHeader(m) && m.offset + size <= |m.payload| && size <= FRAME_SIZE - HEADER_SIZE
    requires size > 0 || m.payload == []
    requires |m.payload| <= MAXIMUM_MESSAGE_SIZE
    requires m.kind == 0 ==> m.reliable && |m.payload| <= MAXIMUM_CONTROL_SIZE
    requires !m.reliable ==> m.offset == 0 && size == |m.payload|
    ensures Fragment(m, size).Fits() && Fragment(m, size).Acceptable()
  {
  }

  /** Every datagram sent or still queued is one of those queued before. */
  ghost predicate DatagramsFrom(before: seq<Message>, frames: seq<Frame>, after: seq<Message>) {
    && (forall i :: 0 <= i < |frames| ==> FrameBody(frames[i]) in Bodies(before))
    && (forall i :: 0 <= i < |after| ==> BodyOf(after[i]) in Bodies(before))
  }

  /** The frames of a flush are acceptable to a receiver, and its reliable ones belong to the bulk lane. */
  ghost predicate FlushFrames(sent: seq<Sent>) {
    && Wellformed(BulkFrames(sent), true) && Wellformed(DatagramFrames(sent), false)
    && BulkOnly(BulkFrames(sent)) == BulkFrames(sent) && ControlOnly(BulkFrames(sent)) == []
  }

  /** What a run of flush turns means: see `TurnMeaning`. */
  ghost predicate FlushMeaning(c: Channel, r: FlushResult) {
    && ParsesTo(c.bulk, BulkFrames(r.sent), r.channel.bulk)
    && DatagramsFrom(c.datagrams, DatagramFrames(r.sent), r.channel.datagrams)
    && FlushFrames(r.sent)
    && SameIncoming(c, r.channel)
  }

  lemma {:induction false} ExpireOnlyDrops(c: Channel, now: nat)
    requires QueuesOk(c)
    ensures var e := Expire(c, now);
            SameIncoming(c, e) && |e.datagrams| <= |c.datagrams| &&
            e.datagrams == c.datagrams[|c.datagrams| - |e.datagrams|..] && e.bulk == c.bulk
    decreases |c.datagrams|
  {
    if c.datagrams != [] && now >= c.datagrams[0].tick {
      ExpireOnlyDrops(c.(datagrams := c.datagrams[1..], queuedBytes := c.queuedBytes - |c.datagrams[0].payload|,
                         queuedMessages := c.queuedMessages - 1, expired := c.expired + 1), now);
    }
  }

  lemma TurnWellformed(c: Channel, now: nat, capacity: nat, reply: EngineReply)
    requires QueuesOk(c) && HEADER_SIZE < capacity <= FRAME_SIZE
    ensures
      var t := TurnAfterExpiry(c, now, capacity, reply);
      SameIncoming(c, t.channel) && (t.SentOne? ==> t.sent.frame.Fits() && t.sent.frame.Acceptable())
  {
    var lane := ChosenLane(c);
    var queue := LaneQueue(c, lane);
    if queue != [] {
      var m := queue[0];
      assert if lane.Datagrams? then DatagramOk(m) else BulkOk(m);
      var size := Min(|m.payload| - m.offset, capacity - HEADER_SIZE);
      if Decide(c, m, size, reply) == Go { FragmentWellformed(m, size); }
    }
  }

  /** `e` is `c` after dropping expired datagrams. */
  ghost predicate Follows(c: Channel, e: Channel) {
    && e.bulk == c.bulk && |e.datagrams| <= |c.datagrams| && e.datagrams == c.datagrams[|c.datagrams| - |e.datagrams|..]
    && SameIncoming(c, e)
  }

  /** A turn means what it should, and the frame it sends is acceptable. */
  ghost predicate GoodTurn(e: Channel, t: Turn) {
    && TurnMeaning(e, t) && SameIncoming(e, t.channel)
    && (t.SentOne? ==> t.sent.frame.Fits() && t.sent.frame.Acceptable() && (t.sent.frame.reliable ==> t.sent.frame.kind != 0))
  }

  lemma ExpireFollows(c: Channel, now: nat)
    requires QueuesOk(c)
    ensures QueuesOk(Expire(c, now)) && Follows(c, Expire(c, now))
  {
    ExpireKeepsQueues(c, now);
    ExpireOnlyDrops(c, now);
  }

  lemma TurnIsGood(e: Channel, now: nat, capacity: nat, reply: EngineReply)
    requires QueuesOk(e) && HEADER_SIZE < capacity <= FRAME_SIZE
    ensures GoodTurn(e, TurnAfterExpiry(e, now, capacity, reply))
  {
    TurnParses(e, now, capacity, reply);
    TurnWellformed(e, now, capacity, reply);
  }

  lemma {:induction false} FlushLoopMeaning(c: Channel, now: nat, capacity: nat, engine: nat -> EngineReply, turn: nat)
    requires QueuesOk(c) && HEADER_SIZE < capacity <= FRAME_SIZE
    ensures FlushMeaning(c, FlushLoop(c, now, capacity, engine, turn))
    decreases c.tokens.Floor
  {
    if c.queuedMessages == 0 {
      QuietMeans(c, c);
    } else {
      var t := TakeTurn(c, now, capacity, engine(turn));
      ExpireFollows(c, now);
      TurnIsGood(Expire(c, now), now, capacity, engine(turn));
      if t.SentOne? {
        FlushLoopMeaning(t.channel, now, capacity, engine, turn + 1);
        JoinTurn(c, Expire(c, now), t, FlushLoop(t.channel, now, capacity, engine, turn + 1));
      } else {
        QuietTurn(c, Expire(c, now), t);
      }
    }
  }

  lemma QuietTurn(c: Channel, e: Channel, t: Turn)
    requires t.Stop? && Follows(c, e) && GoodTurn(e, t)
    ensures FlushMeaning(c, FlushResult(t.channel, []))
  {
    NothingSent(c.bulk);
    forall i | 0 <= i < |e.datagrams| ensures BodyOf(e.datagrams[i]) in Bodies(c.datagrams) {
      assert BodyOf(e.datagrams[i]) == Bodies(c.datagrams)[|c.datagrams| - |e.datagrams| + i];
    }
  }

  lemma JoinTurn(c: Channel, e: Channel, t: Turn, rest: FlushResult)
    requires t.SentOne? && Follows(c, e) && GoodTurn(e, t) && FlushMeaning(t.channel, rest)
    ensures FlushMeaning(c, FlushResult(rest.channel, [t.sent] + rest.sent))
  {
    var all := [t.sent] + rest.sent;
    assert all[1..] == rest.sent;
    var f := t.sent.frame;
    JoinFrames(t.sent, rest.sent);
    if f.reliable {
      ParsesToJoin(c.bulk, [f], t.channel.bulk, BulkFrames(rest.sent), rest.channel.bulk);
      JoinDatagrams(c.datagrams, e.datagrams, [], t.channel.datagrams, DatagramFrames(rest.sent), rest.channel.datagrams);
      assert [] + DatagramFrames(rest.sent) == DatagramFrames(rest.sent);
    } else {
      assert [] + BulkFrames(rest.sent) == BulkFrames(rest.sent);
      JoinDatagrams(c.datagrams, e.datagrams, [f], t.channel.datagrams, DatagramFrames(rest.sent), rest.channel.datagrams);
    }
  }

  lemma JoinFrames(one: Sent, rest: seq<Sent>)
    requires one.frame.Fits() && one.frame.Acceptable() && (one.frame.reliable ==> one.frame.kind != 0)
    requires FlushFrames(rest)
    ensures FlushFrames([one] + rest)
    ensures BulkFrames([one] + rest) == (if one.frame.reliable then [one.frame] else []) + BulkFrames(rest)
    ensures DatagramFrames([one] + rest) == (if one.frame.reliable then [] else [one.frame]) + DatagramFrames(rest)
  {
    var all := [one] + rest;
    assert all[1..] == rest;
    if one.frame.reliable {
      var frames := BulkFrames(all);
      assert frames == [one.frame] + BulkFrames(rest) && frames[1..] == BulkFrames(rest);
      assert BulkOnly(frames) == [one.frame] + BulkOnly(frames[1..]);
      assert ControlOnly(frames) == [] + ControlOnly(frames[1..]);
    } else {
      assert BulkFrames(all) == [] + BulkFrames(rest) == BulkFrames(rest);
    }
  }

  lemma JoinDatagrams(q0: seq<Message>, q1: seq<Message>, a: seq<Frame>, q2: seq<Message>, b: seq<Frame>, q3: seq<Message>)
    requires |q1| <= |q0| && q1 == q0[|q0| - |q1|..]
    requires if a == [] then q2 == q1 else q1 != [] && q2 == q1[1..] && a == [a[0]] && FrameBody(a[0]) == BodyOf(q1[0])
    requires DatagramsFrom(q2, b, q3)
    ensures DatagramsFrom(q0, a + b, q3)
  {
    forall x | x in Bodies(q2) ensures x in Bodies(q0) {
      var i :| 0 <= i < |q2| && Bodies(q2)[i] == x;
      assert q2[i] == q1[i + |q1| - |q2|] == q0[|q0| - |q2| + i];
      assert Bodies(q0)[|q0| - |q2| + i] == x;
    }
    if a != [] { assert FrameBody(a[0]) == BodyOf(q1[0]) == Bodies(q0)[|q0| - |q1|]; }
    forall i | 0 <= i < |a + b| ensures FrameBody((a + b)[i]) in Bodies(q0) {
      if i >= |a| { assert FrameBody(b[i - |a|]) in Bodies(q2); }
    }
  }

  lemma NothingSent(q: seq<Message>)
    ensures ParsesTo(q, [], q)
  {
    assert [] + Bodies(q) == Bodies(q);
  }

  lemma QuietMeans(c: Channel, d: Channel)
    requires d.bulk == c.bulk && d.datagrams == c.datagrams && SameIncoming(c, d)
    ensures FlushMeaning(c, FlushResult(d, []))
  {
    NothingSent(c.bulk);
    assert forall i :: 0 <= i < |c.datagrams| ==> Bodies(c.datagrams)[i] == BodyOf(c.datagrams[i]);
  }

  lemma FlushMeans(c: Channel, now: nat, network: Network)
    requires QueuesOk(c)
    ensures FlushMeaning(c, Flush(c, now, network)) && QueuesOk(Flush(c, now, network).channel)
  {
    var r := Refill(c, now);
    if !TimedOut(c.controlIn, now) && !TimedOut(c.bulkIn, now) && r.queuedMessages != 0 && network.connected &&
       network.Capacity() > HEADER_SIZE {
      FlushLoopMeaning(r, now, network.Capacity(), network.engine, 0);
      FlushLoopQueues(r, now, network.Capacity(), network.engine, 0);
    } else {
      QuietMeans(c, Flush(c, now, network).channel);
    }
  }

  lemma {:induction false} FlushLoopQueues(c: Channel, now: nat, capacity: nat, engine: nat -> EngineReply, turn: nat)
    requires QueuesOk(c) && capacity > HEADER_SIZE
    ensures QueuesOk(FlushLoop(c, now, capacity, engine, turn).channel)
    decreases c.tokens.Floor
  {
    var t := TakeTurn(c, now, capacity, engine(turn));
    if t.SentOne? { FlushLoopQueues(t.channel, now, capacity, engine, turn + 1); }
  }

  /** The frames of one control message parse to it when they were all taken, and complete nothing otherwise. */
  ghost predicate ControlMeaning(m: Message, r: ControlFrames) {
    && Wellformed(r.frames, true) && ControlOnly(r.frames) == r.frames && BulkOnly(r.frames) == []
    && match ParseAll(ProgressOfQueue([m]), r.frames)
       case None => false
       case Some(parsed) => if r.complete then parsed == Parsed(Nothing, [BodyOf(m)]) else parsed.done == []
  }

  lemma {:induction false} FragmentAllMeaning(m: Message, capacity: nat, accepts: nat -> bool, turn: nat)
    requires HEADER_SIZE < capacity <= FRAME_SIZE && SendableHeader(m) && m.reliable && m.kind == 0
    requires m.offset == 0 || m.offset < |m.payload|
    requires |m.payload| <= MAXIMUM_CONTROL_SIZE
    ensures ControlMeaning(m, FragmentAll(m, capacity, accepts, turn))
    decreases |m.payload| - m.offset
  {
    var size := Min(|m.payload| - m.offset, capacity - HEADER_SIZE);
    var next := m.(offset := m.offset + size);
    if accepts(turn) {
      if next.offset == |m.payload| {
        LastFrame(m, size);
      } else {
        FragmentAllMeaning(next, capacity, accepts, turn + 1);
        MoreFrames(m, size, FragmentAll(next, capacity, accepts, turn + 1));
      }
    } else {
      NoControl(m);
    }
  }

  lemma LastFrame(m: Message, size: nat)
    requires SendableHeader(m) && m.reliable && m.kind == 0 && |m.payload| <= MAXIMUM_CONTROL_SIZE
    requires m.offset + size == |m.payload| && size <= FRAME_SIZE - HEADER_SIZE && (m.offset == 0 || m.offset < |m.payload|)
    ensures ControlMeaning(m, ControlFrames([Fragment(m, size)], true))
  {
    OneControlFrame(m, size);
    LastControl(m, Fragment(m, size));
  }

  lemma MoreFrames(m: Message, size: nat, rest: ControlFrames)
    requires SendableHeader(m) && m.reliable && m.kind == 0 && |m.payload| <= MAXIMUM_CONTROL_SIZE
    requires m.offset + size < |m.payload| && 0 < size <= FRAME_SIZE - HEADER_SIZE
    requires ControlMeaning(m.(offset := m.offset + size), rest)
    ensures ControlMeaning(m, ControlFrames([Fragment(m, size)] + rest.frames, rest.complete))
  {
    OneControlFrame(m, size);
    JoinControl(m, Fragment(m, size), m.(offset := m.offset + size), rest);
  }

  lemma NoControl(m: Message)
    ensures ControlMeaning(m, ControlFrames([], false))
  {
  }

  /** One frame of a control message, by itself. */
  lemma OneControlFrame(m: Message, size: nat)
    requires SendableHeader(m) && m.reliable && m.kind == 0 && |m.payload| <= MAXIMUM_CONTROL_SIZE
    requires m.offset + size <= |m.payload| && size <= FRAME_SIZE - HEADER_SIZE
    requires (size > 0 || m.payload == []) && (m.offset == 0 || m.offset < |m.payload|)
    ensures
      var f, next := Fragment(m, size), m.(offset := m.offset + size);
      && Wellformed([f], true) && ControlOnly([f]) == [f] && BulkOnly([f]) == []
      && ParseAll(ProgressOfQueue([m]), [f])
      == Some(if next.offset == |m.payload| then Parsed(Nothing, [BodyOf(m)]) else Parsed(ProgressOfQueue([next]), []))
  {
    var f := Fragment(m, size);
    FragmentWellformed(m, size);
    FragmentParses(m, size);
    SingleParse(ProgressOfQueue([m]), f);
    assert [f][1..] == [] && [f] + [] == [f];
    assert ControlOnly([f]) == [f] + ControlOnly([f][1..]) && BulkOnly([f]) == [] + BulkOnly([f][1..]);
  }

  lemma LastControl(m: Message, f: Frame)
    requires Wellformed([f], true) && ControlOnly([f]) == [f] && BulkOnly([f]) == []
    requires ParseAll(ProgressOfQueue([m]), [f]) == Some(Parsed(Nothing, [BodyOf(m)]))
    ensures ControlMeaning(m, ControlFrames([f], true))
  {
  }

  /** A frame before the rest of its message. */
  lemma JoinControl(m: Message, f: Frame, next: Message, rest: ControlFrames)
    requires Wellformed([f], true) && ControlOnly([f]) == [f] && BulkOnly([f]) == []
    requires ParseAll(ProgressOfQueue([m]), [f]) == Some(Parsed(ProgressOfQueue([next]), []))
    requires ControlMeaning(next, rest) && BodyOf(next) == BodyOf(m)
    ensures ControlMeaning(m, ControlFrames([f] + rest.frames, rest.complete))
  {
    ParseAppend(ProgressOfQueue([m]), [f], rest.frames);
    FilterAppend(IsControlFrame, [f], rest.frames);
    FilterAppend(IsBulkFrame, [f], rest.frames);
    WellformedJoin([f], rest.frames, true);
    assert [] + ParseAll(ProgressOfQueue([next]), rest.frames).value.done == ParseAll(ProgressOfQueue([next]), rest.frames).value.done;
  }

  // ---------------------------------------------------------------- every step keeps the invariant

  lemma EnqueueKeepsSender(a: Channel, pipe: seq<Frame>, bulk: seq<Body>, control: seq<Body>, args: SendArguments, now: nat)
    requires SenderOk(a, pipe, bulk, control) && args.Valid() && args.kind != 0
    ensures
      var m := NewMessage(a, 0, args, now);
      SenderOk(Enqueue(a, m), pipe, if args.reliable then bulk + [Asked(args, m.id)] else bulk, control)
  {
    var m := NewMessage(a, 0, args, now);
    if args.reliable {
      assert BulkOk(m);
      assert Bodies(a.bulk + [m]) == Bodies(a.bulk) + [BodyOf(m)];
      assert ProgressOfQueue(a.bulk + [m]) == ProgressOfQueue(a.bulk);
      var done := ParseAll(Nothing, BulkOnly(pipe)).value.done;
      assert done + (Bodies(a.bulk) + [BodyOf(m)]) == (done + Bodies(a.bulk)) + [BodyOf(m)];
    } else {
      assert DatagramOk(m);
    }
  }

  lemma SendQueuedKeeps(l: Link, args: SendArguments, now: nat, admitted: bool)
    requires LinkOk(l)
    ensures LinkOk(Next(l, SendQueued(args, now, admitted)))
  {
    if l.a.failure.None? && args.Valid() && args.kind != 0 && admitted {
      EnqueueKeepsSender(l.a, l.pipe, l.acceptedBulk, l.acceptedControl, args, now);
    }
  }

  lemma AccountsJoin(base: seq<Frame>, before: seq<Message>, frames: seq<Frame>, after: seq<Message>, accepted: seq<Body>)
    requires Accounts(base, before, accepted) && ParsesTo(before, frames, after)
    ensures Accounts(base + frames, after, accepted)
  {
    ParseAppend(Nothing, base, frames);
    var x := ParseAll(Nothing, base).value.done;
    var y := ParseAll(ProgressOfQueue(before), frames).value.done;
    assert x + (y + Bodies(after)) == (x + y) + Bodies(after);
  }

  lemma WellformedJoin(a: seq<Frame>, b: seq<Frame>, reliable: bool)
    requires Wellformed(a, reliable) && Wellformed(b, reliable)
    ensures Wellformed(a + b, reliable)
  {
  }

  /** The frames of a control message, whole or cut off, after those sent before it. */
  lemma ControlJoins(pipe: seq<Frame>, control: seq<Body>, m: Message, r: ControlFrames)
    requires Wellformed(pipe, true) && ControlAccounts(ControlOnly(pipe), true, control)
    requires ControlMeaning(m, r) && m.offset == 0
    ensures Wellformed(pipe + r.frames, true) && BulkOnly(pipe + r.frames) == BulkOnly(pipe)
    ensures ControlAccounts(ControlOnly(pipe + r.frames), r.complete, if r.complete then control + [BodyOf(m)] else control)
  {
    FilterAppend(IsBulkFrame, pipe, r.frames);
    FilterAppend(IsControlFrame, pipe, r.frames);
    assert BulkOnly(pipe) + [] == BulkOnly(pipe);
    ParseAppend(Nothing, ControlOnly(pipe), r.frames);
    assert control + [] == control;
    WellformedJoin(pipe, r.frames, true);
  }

  /** The fragments that the engine took join the reliable stream. */
  lemma ControlSent(a: Channel, d: Channel, pipe: seq<Frame>, bulk: seq<Body>, control: seq<Body>, m: Message, r: ControlFrames)
    requires SenderOk(a, pipe, bulk, control) && a.failure.None? && ControlMeaning(m, r) && m.offset == 0
    requires QueuesOk(d) && d.bulk == a.bulk && d.nextMessage < WORD32 && (d.failure.None? ==> r.complete)
    ensures SenderOk(d, pipe + r.frames, bulk, if r.complete then control + [BodyOf(m)] else control)
  {
    ControlJoins(pipe, control, m, r);
  }

  lemma ControlKeepsSender(a: Channel, pipe: seq<Frame>, bulk: seq<Body>, control: seq<Body>,
                           args: SendArguments, now: nat, engine: ControlNetwork)
    requires SenderOk(a, pipe, bulk, control) && args.Valid() && args.kind == 0 && a.failure.None?
    ensures
      var m := NewMessage(a, 0, args, now);
      var r := SendControl(a, m, engine);
      if r.accepted then SenderOk(r.channel.(nextMessage := m.id), pipe + r.frames, bulk, control + [Asked(args, m.id)])
      else SenderOk(r.channel, pipe + r.frames, bulk, control)
  {
    var m := NewMessage(a, 0, args, now);
    if ControlAdmitted(m, engine) {
      var r := SendControl(a, m, engine);
      FragmentAllMeaning(m, engine.Capacity(), engine.accepts, 0);
      ControlSent(a, if r.accepted then r.channel.(nextMessage := m.id) else r.channel, pipe, bulk, control, m,
                  FragmentAll(m, engine.Capacity(), engine.accepts, 0));
    } else {
      assert pipe + [] == pipe;
    }
  }

  lemma SendControlKeeps(l: Link, args: SendArguments, now: nat, engine: ControlNetwork)
    requires LinkOk(l)
    ensures LinkOk(Next(l, SendControlMessage(args, now, engine)))
  {
    if l.a.failure.None? && args.Valid() && args.kind == 0 {
      ControlKeepsSender(l.a, l.pipe, l.acceptedBulk, l.acceptedControl, args, now, engine);
      var frames := SendControl(l.a, NewMessage(l.a, 0, args, now), engine).frames;
      assert (l.pipe + frames)[..l.taken] == l.pipe[..l.taken];
    }
  }

  lemma FlushKeepsSender(a: Channel, pipe: seq<Frame>, bulk: seq<Body>, control: seq<Body>, now: nat, network: Network)
    requires SenderOk(a, pipe, bulk, control) && a.failure.None?
    ensures var r := Flush(a, now, network); SenderOk(r.channel, pipe + BulkFrames(r.sent), bulk, control)
  {
    var r := Flush(a, now, network);
    FlushMeans(a, now, network);
    var frames := BulkFrames(r.sent);
    FilterAppend(IsBulkFrame, pipe, frames);
    FilterAppend(IsControlFrame, pipe, frames);
    assert ControlOnly(pipe) + [] == ControlOnly(pipe);
    AccountsJoin(BulkOnly(pipe), a.bulk, frames, r.channel.bulk, bulk);
    WellformedJoin(pipe, frames, true);
  }

  lemma FlushSenderKeeps(l: Link, now: nat, network: Network)
    requires LinkOk(l)
    ensures LinkOk(Next(l, FlushSender(now, network)))
  {
    if l.a.failure.None? { FlushFacts(l, now, network); }
  }

  /** What a flush by the sender keeps. */
  lemma FlushFacts(l: Link, now: nat, network: Network)
    requires LinkOk(l) && l.a.failure.None?
    ensures
      var r := Flush(l.a, now, network);
      && SenderOk(r.channel, l.pipe + BulkFrames(r.sent), l.acceptedBulk, l.acceptedControl)
      && (l.pipe + BulkFrames(r.sent))[..l.taken] == l.pipe[..l.taken]
      && DatagramsKnown(r.channel, l.ether + DatagramFrames(r.sent), l.delivered, l.acceptedDatagrams)
  {
    var r := Flush(l.a, now, network);
    FlushKeepsSender(l.a, l.pipe, l.acceptedBulk, l.acceptedControl, now, network);
    FlushMeans(l.a, now, network);
    WellformedJoin(l.ether, DatagramFrames(r.sent), false);
    FlushDatagramsKnown(l, r);
  }

  lemma FlushDatagramsKnown(l: Link, r: FlushResult)
    requires DatagramsKnown(l.a, l.ether, l.delivered, l.acceptedDatagrams)
    requires DatagramsFrom(l.a.datagrams, DatagramFrames(r.sent), r.channel.datagrams)
    requires Wellformed(l.ether + DatagramFrames(r.sent), false)
    ensures DatagramsKnown(r.channel, l.ether + DatagramFrames(r.sent), l.delivered, l.acceptedDatagrams)
  {
    var bodies := Bodies(l.a.datagrams);
    assert forall i :: 0 <= i < |bodies| ==> bodies[i] == BodyOf(l.a.datagrams[i]);
    assert forall b :: b in bodies ==> b in l.acceptedDatagrams;
  }

  lemma FlushReceiverKeeps(l: Link, now: nat, network: Network)
    requires LinkOk(l)
    ensures LinkOk(Next(l, FlushReceiver(now, network)))
  {
    if l.b.failure.None? {
      FlushMeans(l.b, now, network);
      FlushFailure(l.b, now, network);
    }
  }

  lemma FlushFailure(c: Channel, now: nat, network: Network)
    requires QueuesOk(c) && c.failure.None?
    ensures !Impossible(Flush(c, now, network).channel.failure)
  {
    var r := Refill(c, now);
    if !TimedOut(c.controlIn, now) && !TimedOut(c.bulkIn, now) && r.queuedMessages != 0 && network.connected &&
       network.Capacity() > HEADER_SIZE {
      FlushLoopFailure(r, now, network.Capacity(), network.engine, 0);
    }
  }

  lemma {:induction false} FlushLoopFailure(c: Channel, now: nat, capacity: nat, engine: nat -> EngineReply, turn: nat)
    requires QueuesOk(c) && capacity > HEADER_SIZE && c.failure.None?
    ensures !Impossible(FlushLoop(c, now, capacity, engine, turn).channel.failure)
    decreases c.tokens.Floor
  {
    ExpireFailure(c, now);
    var t := TakeTurn(c, now, capacity, engine(turn));
    if t.SentOne? { FlushLoopFailure(t.channel, now, capacity, engine, turn + 1); }
  }

  lemma {:induction false} ExpireFailure(c: Channel, now: nat)
    ensures Expire(c, now).failure == c.failure
    decreases |c.datagrams|
  {
    if c.datagrams != [] && now >= c.datagrams[0].tick {
      ExpireFailure(c.(datagrams := c.datagrams[1..], queuedBytes := c.queuedBytes - |c.datagrams[0].payload|,
                       queuedMessages := c.queuedMessages - 1, expired := c.expired + 1), now);
    }
  }

  /** A stream that parses as a whole parses at every cut, and the earlier part completes a prefix. */
  lemma PrefixParses(keep: Frame -> bool, pipe: seq<Frame>, n: nat)
    requires n <= |pipe| && ParseAll(Nothing, Filter(keep, pipe)).Some?
    ensures ParseAll(Nothing, Filter(keep, pipe[..n])).Some?
    ensures ParseAll(Nothing, Filter(keep, pipe[..n])).value.done <= ParseAll(Nothing, Filter(keep, pipe)).value.done
  {
    assert pipe == pipe[..n] + pipe[n..];
    FilterAppend(keep, pipe[..n], pipe[n..]);
    ParseAppend(Nothing, Filter(keep, pipe[..n]), Filter(keep, pipe[n..]));
  }

  /** Taking one more frame from the pipe. */
  lemma TakeOne(keep: Frame -> bool, pipe: seq<Frame>, n: nat)
    requires n < |pipe|
    ensures Filter(keep, pipe[..n + 1]) == Filter(keep, pipe[..n]) + (if keep(pipe[n]) then [pipe[n]] else [])
  {
    assert pipe[..n + 1] == pipe[..n] + [pipe[n]];
    FilterAppend(keep, pipe[..n], [pipe[n]]);
    assert [pipe[n]][1..] == [];
  }

  /** The next frame of a lane is a legal step for whatever the receiver holds. */
  lemma NextFrameParses(keep: Frame -> bool, pipe: seq<Frame>, n: nat, delivered: seq<Body>, held: Assembly)
    requires n < |pipe| && keep(pipe[n]) && ParseAll(Nothing, Filter(keep, pipe)).Some?
    requires Assembled(Filter(keep, pipe[..n]), delivered, true, held)
    ensures ParseFrame(ProgressOfAssembly(held), pipe[n]).Some?
  {
    PrefixParses(keep, pipe, n + 1);
    TakeOne(keep, pipe, n);
    ParseAppend(Nothing, Filter(keep, pipe[..n]), [pipe[n]]);
    SingleParse(ProgressOfAssembly(held), pipe[n]);
  }

  lemma AssembleOne(frames: seq<Frame>, delivered: seq<Body>, held: Assembly, f: Frame, next: Assembly, done: seq<Body>)
    requires Assembled(frames, delivered, true, held)
    requires ParseFrame(ProgressOfAssembly(held), f) == Some(Parsed(ProgressOfAssembly(next), done))
    ensures Assembled(frames + [f], delivered + done, true, next)
  {
    ParseAppend(Nothing, frames, [f]);
    SingleParse(ProgressOfAssembly(held), f);
  }

  /** Logging one message adds it to its own class only. */
  lemma LogOne(delivered: seq<Message>, m: Option<Message>)
    ensures DeliveredBulk(Log(delivered, m))
         == DeliveredBulk(delivered) + (if m.Some? && IsBulkMessage(m.value) then [BodyOf(m.value)] else [])
    ensures DeliveredControl(Log(delivered, m))
         == DeliveredControl(delivered) + (if m.Some? && IsControlMessage(m.value) then [BodyOf(m.value)] else [])
  {
    if m.Some? {
      FilterAppend(IsBulkMessage, delivered, [m.value]);
      FilterAppend(IsControlMessage, delivered, [m.value]);
      assert [m.value][1..] == [];
    }
  }

  /** What the callback does with a well-formed frame of this link. */
  lemma ReceivedFrame(b: Channel, f: Frame)
    requires f.Fits() && f.Acceptable()
    ensures Received(f, b) == if b.isHost ==> f.sender == b.peer then Ok(f) else Err(BadHeader)
  {
    FrameRoundTrip(f, b.isHost, b.peer);
  }

  /** What receiving leaves alone: the queues, and the other lane's assembly. */
  lemma ReceiveSides(b: Channel, f: Frame, now: nat, roomBytes: bool, roomQueue: bool)
    requires QueuesOk(b)
    ensures
      var r := ReceiveFrame(b, 0, f, now, roomBytes, roomQueue);
      && QueuesOk(r.channel)
      && (f.reliable && f.kind == 0 ==> r.channel.bulkIn == b.bulkIn)
      && (f.reliable && f.kind != 0 ==> r.channel.controlIn == b.controlIn)
      && (!f.reliable ==> r.channel.bulkIn == b.bulkIn && r.channel.controlIn == b.controlIn)
      && (r.completed.Some? && f.reliable && AssemblyKind(AssemblyOf(b, f.kind), f.kind == 0) ==>
            r.completed.value.reliable && (r.completed.value.kind == 0) == (f.kind == 0))
      && (r.completed.Some? && !f.reliable ==> BodyOf(r.completed.value) == FrameBody(f))
  {
  }

  function Done(m: Option<Message>): seq<Body> {
    if m.Some? then [BodyOf(m.value)] else []
  }

  /** A reliable frame and the message it completes join their own lane, and leave the other as it was. */
  lemma LanesGrow(pipe: seq<Frame>, n: nat, delivered: seq<Message>, m: Option<Message>)
    requires n < |pipe| && pipe[n].reliable
    requires m.Some? ==> m.value.reliable && (m.value.kind == 0) == (pipe[n].kind == 0)
    ensures
      if pipe[n].kind == 0 then
        && ControlOnly(pipe[..n + 1]) == ControlOnly(pipe[..n]) + [pipe[n]] && BulkOnly(pipe[..n + 1]) == BulkOnly(pipe[..n])
        && DeliveredControl(Log(delivered, m)) == DeliveredControl(delivered) + Done(m)
        && DeliveredBulk(Log(delivered, m)) == DeliveredBulk(delivered)
      else
        && BulkOnly(pipe[..n + 1]) == BulkOnly(pipe[..n]) + [pipe[n]] && ControlOnly(pipe[..n + 1]) == ControlOnly(pipe[..n])
        && DeliveredBulk(Log(delivered, m)) == DeliveredBulk(delivered) + Done(m)
        && DeliveredControl(Log(delivered, m)) == DeliveredControl(delivered)
  {
    TakeOne(IsBulkFrame, pipe, n);
    TakeOne(IsControlFrame, pipe, n);
    LogOne(delivered, m);
    assert BulkOnly(pipe[..n]) + [] == BulkOnly(pipe[..n]) && ControlOnly(pipe[..n]) + [] == ControlOnly(pipe[..n]);
    assert DeliveredBulk(delivered) + [] == DeliveredBulk(delivered);
    assert DeliveredControl(delivered) + [] == DeliveredControl(delivered);
  }

  /** A reliable frame that the receiver takes extends what it has assembled; one it refuses changes nothing. */
  lemma TakeKeepsReceiver(b: Channel, pipe: seq<Frame>, n: nat, delivered: seq<Message>,
                          now: nat, roomBytes: bool, roomQueue: bool)
    requires n < |pipe| && pipe[n].reliable && b.failure.None? && ReceiverOk(b, pipe[..n], delivered) && QueuesOk(b)
    requires ParseAll(Nothing, BulkOnly(pipe)).Some? && ParseAll(Nothing, ControlOnly(pipe)).Some?
    ensures
      var r := ReceiveFrame(b, 0, pipe[n], now, roomBytes, roomQueue);
      ReceiverOk(r.channel, pipe[..if r.channel.failure.None? then n + 1 else n], Log(delivered, r.completed))
  {
    var f := pipe[n];
    var r := ReceiveFrame(b, 0, f, now, roomBytes, roomQueue);
    var held := AssemblyOf(b, f.kind);
    ReceiverRefines(b, 0, f, now, roomBytes, roomQueue);
    ReceiveSides(b, f, now, roomBytes, roomQueue);
    if f.kind == 0 {
      NextFrameParses(IsControlFrame, pipe, n, DeliveredControl(delivered), held);
    } else {
      NextFrameParses(IsBulkFrame, pipe, n, DeliveredBulk(delivered), held);
    }
    if r.channel.failure.None? {
      var done := Done(r.completed);
      LanesGrow(pipe, n, delivered, r.completed);
      if f.kind == 0 {
        AssembleOne(ControlOnly(pipe[..n]), DeliveredControl(delivered), held, f, r.channel.controlIn, done);
      } else {
        AssembleOne(BulkOnly(pipe[..n]), DeliveredBulk(delivered), held, f, r.channel.bulkIn, done);
      }
    }
  }

  lemma PipeParses(l: Link)
    requires SenderOk(l.a, l.pipe, l.acceptedBulk, l.acceptedControl)
    ensures ParseAll(Nothing, BulkOnly(l.pipe)).Some? && ParseAll(Nothing, ControlOnly(l.pipe)).Some?
    ensures forall i :: 0 <= i < |l.pipe| ==> l.pipe[i].reliable
  {
  }

  /** What taking the next reliable frame keeps. */
  lemma ReliableFacts(l: Link, now: nat, roomBytes: bool, roomQueue: bool)
    requires LinkOk(l) && l.b.failure.None? && l.taken < |l.pipe|
    ensures
      var r := ReceiveFrame(l.b, 0, l.pipe[l.taken], now, roomBytes, roomQueue);
      var taken := if r.channel.failure.None? then l.taken + 1 else l.taken;
      && QueuesOk(r.channel) && ReceiverOk(r.channel, l.pipe[..taken], Log(l.delivered, r.completed))
      && DatagramsKnown(l.a, l.ether, Log(l.delivered, r.completed), l.acceptedDatagrams)
  {
    var f := l.pipe[l.taken];
    PipeParses(l);
    TakeKeepsReceiver(l.b, l.pipe, l.taken, l.delivered, now, roomBytes, roomQueue);
    ReceiveSides(l.b, f, now, roomBytes, roomQueue);
    LogKnown(l, ReceiveFrame(l.b, 0, f, now, roomBytes, roomQueue).completed);
  }

  /** The receiver alone moves. */
  lemma ReceiverMoves(l: Link, b: Channel, delivered: seq<Message>, taken: nat)
    requires LinkOk(l) && QueuesOk(b) && taken <= |l.pipe| && ReceiverOk(b, l.pipe[..taken], delivered)
    requires DatagramsKnown(l.a, l.ether, delivered, l.acceptedDatagrams)
    ensures LinkOk(l.(b := b, delivered := delivered, taken := taken))
  {
  }

  /** A host refuses the header of a foreign sender. */
  lemma HeaderRefused(l: Link)
    requires LinkOk(l) && l.b.failure.None?
    ensures QueuesOk(l.b.Fail(BadHeader)) && ReceiverOk(l.b.Fail(BadHeader), l.pipe[..l.taken], l.delivered)
  {
  }

  lemma DeliverReliableKeeps(l: Link, now: nat, roomBytes: bool, roomQueue: bool)
    requires LinkOk(l)
    ensures LinkOk(Next(l, DeliverReliable(now, roomBytes, roomQueue)))
  {
    if l.b.failure.None? && l.taken < |l.pipe| {
      var f := l.pipe[l.taken];
      ReceivedFrame(l.b, f);
      if Received(f, l.b).Ok? {
        var r := ReceiveFrame(l.b, 0, f, now, roomBytes, roomQueue);
        ReliableFacts(l, now, roomBytes, roomQueue);
        ReceiverMoves(l, r.channel, Log(l.delivered, r.completed), if r.channel.failure.None? then l.taken + 1 else l.taken);
      } else {
        HeaderRefused(l);
        ReceiverMoves(l, l.b.Fail(BadHeader), l.delivered, l.taken);
      }
    }
  }

  lemma LogKnown(l: Link, m: Option<Message>)
    requires DatagramsKnown(l.a, l.ether, l.delivered, l.acceptedDatagrams)
    requires m.Some? && !m.value.reliable ==> BodyOf(m.value) in l.acceptedDatagrams
    ensures DatagramsKnown(l.a, l.ether, Log(l.delivered, m), l.acceptedDatagrams)
  {
  }

  lemma DatagramKeepsReceiver(b: Channel, got: seq<Frame>, delivered: seq<Message>, f: Frame,
                              now: nat, roomBytes: bool, roomQueue: bool)
    requires !f.reliable && b.failure.None? && ReceiverOk(b, got, delivered) && QueuesOk(b)
    ensures
      var r := ReceiveFrame(b, 0, f, now, roomBytes, roomQueue);
      ReceiverOk(r.channel, got, Log(delivered, r.completed))
  {
    var r := ReceiveFrame(b, 0, f, now, roomBytes, roomQueue);
    ReceiveSides(b, f, now, roomBytes, roomQueue);
    LogOne(delivered, r.completed);
    assert DeliveredBulk(delivered) + [] == DeliveredBulk(delivered);
    assert DeliveredControl(delivered) + [] == DeliveredControl(delivered);
  }

  /** What taking a datagram from the air keeps. */
  lemma DatagramFacts(l: Link, f: Frame, now: nat, roomBytes: bool, roomQueue: bool)
    requires LinkOk(l) && l.b.failure.None? && f in l.ether && !f.reliable
    ensures
      var r := ReceiveFrame(l.b, 0, f, now, roomBytes, roomQueue);
      && QueuesOk(r.channel) && ReceiverOk(r.channel, l.pipe[..l.taken], Log(l.delivered, r.completed))
      && DatagramsKnown(l.a, l.ether, Log(l.delivered, r.completed), l.acceptedDatagrams)
  {
    DatagramKeepsReceiver(l.b, l.pipe[..l.taken], l.delivered, f, now, roomBytes, roomQueue);
    ReceiveSides(l.b, f, now, roomBytes, roomQueue);
    LogKnown(l, ReceiveFrame(l.b, 0, f, now, roomBytes, roomQueue).completed);
  }

  lemma DatagramIn(l: Link, index: nat)
    requires Wellformed(l.ether, false) && index < |l.ether|
    ensures var f := l.ether[index]; f in l.ether && f.Fits() && f.Acceptable() && !f.reliable
  {
  }

  lemma DeliverDatagramKeeps(l: Link, index: nat, now: nat, roomBytes: bool, roomQueue: bool)
    requires LinkOk(l)
    ensures LinkOk(Next(l, DeliverDatagram(index, now, roomBytes, roomQueue)))
  {
    if l.b.failure.None? && index < |l.ether| {
      var f := l.ether[index];
      DatagramIn(l, index);
      ReceivedFrame(l.b, f);
      if Received(f, l.b).Ok? {
        var r := ReceiveFrame(l.b, 0, f, now, roomBytes, roomQueue);
        DatagramFacts(l, f, now, roomBytes, roomQueue);
        ReceiverMoves(l, r.channel, Log(l.delivered, r.completed), l.taken);
      } else {
        HeaderRefused(l);
        ReceiverMoves(l, l.b.Fail(BadHeader), l.delivered, l.taken);
      }
    }
  }

  lemma StepKeeps(l: Link, step: Step)
    requires LinkOk(l)
    ensures LinkOk(Next(l, step))
  {
    match step
    case SendQueued(args, now, admitted) => SendQueuedKeeps(l, args, now, admitted);
    case SendControlMessage(args, now, engine) => SendControlKeeps(l, args, now, engine);
    case FlushSender(now, network) => FlushSenderKeeps(l, now, network);
    case FlushReceiver(now, network) => FlushReceiverKeeps(l, now, network);
    case DeliverReliable(now, roomBytes, roomQueue) => DeliverReliableKeeps(l, now, roomBytes, roomQueue);
    case DeliverDatagram(index, now, roomBytes, roomQueue) => DeliverDatagramKeeps(l, index, now, roomBytes, roomQueue);
  }

  // ---------------------------------------------------------------- whole runs

  /** `last` is where a run of steps from `first` ends. */
  ghost predicate Reaches(first: Link, steps: seq<Step>, last: Link)
    decreases |steps|
  {
    if steps == [] then last == first
    else QueuesOk(first.a) && QueuesOk(first.b) && Reaches(Next(first, steps[0]), steps[1..], last)
  }

  lemma {:induction false} RunKeepsLink(first: Link, steps: seq<Step>, last: Link)
    requires LinkOk(first) && Reaches(first, steps, last)
    ensures LinkOk(last)
    decreases |steps|
  {
    if steps != [] {
      StepKeeps(first, steps[0]);
      RunKeepsLink(Next(first, steps[0]), steps[1..], last);
    }
  }

  /**
   End to end, for every interleaving: what the receiver delivers is a prefix of what the sender accepted,
   lane by lane, headers and payloads included; every delivered datagram was sent; and the receiver
   never finds the fragments inconsistent, mis-versioned or truncated.
   */
  lemma EndToEnd(first: Link, steps: seq<Step>, last: Link)
    requires Fresh(first) && Reaches(first, steps, last)
    ensures DeliveredBulk(last.delivered) <= last.acceptedBulk
    ensures DeliveredControl(last.delivered) <= last.acceptedControl
    ensures forall i :: 0 <= i < |last.delivered| && !last.delivered[i].reliable ==>
              BodyOf(last.delivered[i]) in last.acceptedDatagrams
    ensures !Impossible(last.b.failure)
  {
    FreshIsOk(first);
    RunKeepsLink(first, steps, last);
    PrefixParses(IsBulkFrame, last.pipe, last.taken);
    PrefixParses(IsControlFrame, last.pipe, last.taken);
  }

  /** Once both queues are drained and every frame is taken, nothing accepted is missing. */
  lemma DrainedMeansDelivered(first: Link, steps: seq<Step>, last: Link)
    requires Fresh(first) && Reaches(first, steps, last)
    requires last.a.bulk == [] && last.taken == |last.pipe|
    ensures DeliveredBulk(last.delivered) == last.acceptedBulk
    ensures DeliveredControl(last.delivered) == last.acceptedControl
  {
    FreshIsOk(first);
    RunKeepsLink(first, steps, last);
    assert last.pipe[..last.taken] == last.pipe;
    var done := ParseAll(Nothing, BulkOnly(last.pipe)).value.done;
    assert done + Bodies([]) == done;
  }

  /** In any reachable state the next reliable frame is refused exactly when a budget is exhausted or a host
      sees a foreign sender; no ordering of the steps before it matters. */
  lemma NextFrameAccepted(first: Link, steps: seq<Step>, last: Link, now: nat, roomBytes: bool, roomQueue: bool)
    requires Fresh(first) && Reaches(first, steps, last)
    requires last.b.failure.None? && last.taken < |last.pipe|
    ensures
      var f := last.pipe[last.taken];
      var starts := AssemblyOf(last.b, f.kind).Idle?;
      var completes := f.offset + |f.payload| == f.total;
      Receive(last.b, f, now, roomBytes, roomQueue).channel.failure.None? <==>
        (last.b.isHost ==> f.sender == last.b.peer) && (starts ==> roomBytes) && (completes ==> roomQueue)
  {
    FreshIsOk(first);
    RunKeepsLink(first, steps, last);
    NextFrameContinues(last);
    RefusedWhen(last.b, last.pipe[last.taken], now, roomBytes, roomQueue);
  }

  /** A frame that continues what the receiver holds is refused for lack of room or by the host's sender check. */
  lemma RefusedWhen(b: Channel, f: Frame, now: nat, roomBytes: bool, roomQueue: bool)
    requires b.failure.None? && f.reliable && f.Fits() && f.Acceptable() && AssemblyKind(AssemblyOf(b, f.kind), f.kind == 0)
    requires ParseFrame(ProgressOfAssembly(AssemblyOf(b, f.kind)), f).Some?
    ensures Receive(b, f, now, roomBytes, roomQueue).channel.failure.None? <==>
              (b.isHost ==> f.sender == b.peer) && (AssemblyOf(b, f.kind).Idle? ==> roomBytes) &&
              (f.offset + |f.payload| == f.total ==> roomQueue)
  {
    ReceivedFrame(b, f);
    ReceiverRefines(b, 0, f, now, roomBytes, roomQueue);
  }

  /** What the receiver holds is what the next reliable frame continues. */
  lemma NextFrameContinues(l: Link)
    requires LinkOk(l) && l.b.failure.None? && l.taken < |l.pipe|
    ensures
      var f := l.pipe[l.taken];
      && f.reliable && f.Fits() && f.Acceptable() && AssemblyKind(AssemblyOf(l.b, f.kind), f.kind == 0)
      && ParseFrame(ProgressOfAssembly(AssemblyOf(l.b, f.kind)), f).Some?
  {
    var f := l.pipe[l.taken];
    var held := AssemblyOf(l.b, f.kind);
    if f.kind == 0 {
      NextFrameParses(IsControlFrame, l.pipe, l.taken, DeliveredControl(l.delivered), held);
    } else {
      NextFrameParses(IsBulkFrame, l.pipe, l.taken, DeliveredBulk(l.delivered), held);
    }
  }
}
