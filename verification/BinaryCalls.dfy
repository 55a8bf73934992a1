/**
 What each entry point of the transport answers and does to the whole process, said of messages, queues and
 limits rather than of the code's own steps.
 */
module BinaryCalls {
  import opened Common
  import opened Bits
  import opened BinaryWire
  import opened BinaryChannel
  import opened BinarySending
  import opened BinaryProcess

  // ---------------------------------------------------------------- sending

  /** Arguments that SendBinary takes. */
  predicate Proper(args: SendArguments) {
    && args.kind < 65536 && 0 < args.sender < WORD64 && args.recipient < WORD64
    && |args.payload| <= (if args.kind == 0 then 98304 else 4194304)
    && if args.reliable then args.lifetime == 0
       else args.kind != 0 && args.lifetime != 0 && |args.payload| + 33 <= 1024
  }

  /** The message that the caller asked for, numbered after the channel's last one: 1 to 2^32 - 1, then 1 again. */
  function Wanted(c: Channel, id: nat, args: SendArguments, now: nat): Message {
    Message(args.sender, args.recipient, id, args.kind, c.nextMessage % 0xffff_ffff + 1, args.reliable, args.payload,
            now + args.lifetime, 0)
  }

  /** The channel with one more message at the end of the lane that its reliability picks. */
  function WithQueued(c: Channel, m: Message): Channel {
    c.(bulk := c.bulk + (if m.reliable then [m] else []), datagrams := c.datagrams + (if m.reliable then [] else [m]),
       nextMessage := m.id, queuedBytes := c.queuedBytes + |m.payload|, queuedMessages := c.queuedMessages + 1)
  }

  /** The queues have room for another message: 8 MiB and 1024 messages a channel, 64 MiB in all. */
  predicate Room(p: Process, c: Channel, size: nat) {
    c.queuedBytes + size <= 8388608 && c.queuedMessages < 1024 && p.queuedBytes + size <= 67108864
  }

  /** What a control send of `m` on channel `id` does. */
  predicate ControlSends(p: Process, id: nat, m: Message, engine: ControlNetwork, r: SendResult)
    requires id in p.channels
  {
    var c := p.channels[id];
    var capacity := if engine.messageSize < 1024 then engine.messageSize else 1024;
    id in r.process.channels &&
    var d := r.process.channels[id];
    && ControlIs(c, m, engine, ControlResult(d.(nextMessage := c.nextMessage), r.frames, r.id.Some?),
                 if capacity > 33 then FrameCount(|m.payload|, capacity) else 0)
    && (if r.id.Some? then r.id.value == m.id && d.nextMessage == m.id else d.nextMessage == c.nextMessage)
    && r.process == p.(channels := p.channels[id := d], pendingWork := p.pendingWork || d.failure.Some?)
  }

  /** What SendBinary does. */
  predicate Sends(p: Process, id: nat, args: SendArguments, now: nat, engine: ControlNetwork, r: SendResult) {
    if !Proper(args) || id !in p.channels || p.channels[id].failure.Some? then r == SendResult(p, None, [])
    else
      var c := p.channels[id];
      var m := Wanted(c, id, args, now);
      if args.kind == 0 then ControlSends(p, id, m, engine, r)
      else if !Room(p, c, |args.payload|) then r == SendResult(p, None, [])
      else
        r == SendResult(p.(channels := p.channels[id := WithQueued(c, m)], queuedBytes := p.queuedBytes + |args.payload|,
                           pendingWork := true), Some(m.id), [])
  }

  lemma NumberIs(c: Channel)
    requires c.nextMessage < WORD32
    ensures NextId(c) == c.nextMessage % 0xffff_ffff + 1
  {
  }

  lemma SendIs(p: Process, id: nat, args: SendArguments, now: nat, engine: ControlNetwork)
    requires Accounts(p)
    ensures Sends(p, id, args, now, engine, Send(p, id, args, now, engine))
  {
    ProperIs(args);
    if id in p.channels && Proper(args) && p.channels[id].failure.None? {
      assert ChannelFine(p.channels[id], id);
      if args.kind == 0 {
        ControlSendIs(p, id, args, now, engine);
      } else {
        QueuedSendIs(p, id, args, now, engine);
      }
    }
  }

  lemma ProperIs(args: SendArguments)
    ensures args.Valid() <==> Proper(args)
  {
  }

  lemma QueuedSendIs(p: Process, id: nat, args: SendArguments, now: nat, engine: ControlNetwork)
    requires id in p.channels && args.Valid() && p.channels[id].failure.None? && args.kind != 0
    requires p.channels[id].nextMessage < WORD32
    ensures
      var c, r := p.channels[id], Send(p, id, args, now, engine);
      var m := Wanted(c, id, args, now);
      r == if !Room(p, c, |args.payload|) then SendResult(p, None, [])
           else SendResult(p.(channels := p.channels[id := WithQueued(c, m)], queuedBytes := p.queuedBytes + |args.payload|,
                              pendingWork := true), Some(m.id), [])
  {
    NumberIs(p.channels[id]);
    QueuedIs(p.channels[id], Wanted(p.channels[id], id, args, now));
  }

  lemma QueuedIs(c: Channel, m: Message)
    ensures Enqueue(c, m) == WithQueued(c, m)
  {
    assert c.bulk + [] == c.bulk && c.datagrams + [] == c.datagrams;
  }

  lemma ControlSendIs(p: Process, id: nat, args: SendArguments, now: nat, engine: ControlNetwork)
    requires id in p.channels && args.Valid() && p.channels[id].failure.None? && args.kind == 0
    requires p.channels[id].nextMessage < WORD32
    ensures ControlSends(p, id, Wanted(p.channels[id], id, args, now), engine, Send(p, id, args, now, engine))
  {
    var c := p.channels[id];
    var m := Wanted(c, id, args, now);
    var capacity := if engine.messageSize < 1024 then engine.messageSize else 1024;
    var count := if capacity > 33 then FrameCount(|m.payload|, capacity) else 0;
    if capacity > 33 { FrameCountIs(|m.payload|, capacity, count); }
    ControlGoesOut(c, m, engine, count);
    ControlSendUses(p, id, args, now, engine);
  }

  lemma ControlSendUses(p: Process, id: nat, args: SendArguments, now: nat, engine: ControlNetwork)
    requires id in p.channels && args.Valid() && p.channels[id].failure.None? && args.kind == 0
    requires p.channels[id].nextMessage < WORD32
    ensures
      var c, r := p.channels[id], Send(p, id, args, now, engine);
      var m := Wanted(c, id, args, now);
      var sent := SendControl(c, m, engine);
      var d := if sent.accepted then sent.channel.(nextMessage := m.id) else sent.channel;
      && r.id == (if sent.accepted then Some(m.id) else None) && r.frames == sent.frames
      && d.queuedBytes == c.queuedBytes && sent.channel.nextMessage == c.nextMessage
      && r.process == p.(channels := p.channels[id := d], pendingWork := p.pendingWork || d.failure.Some?)
  {
    NumberIs(p.channels[id]);
  }

  // ---------------------------------------------------------------- receiving

  /** The room that received bytes and unread messages have; only control may use the last 4 MiB and 368 places. */
  function BytesFor(kind: nat): nat {
    if kind == 0 then 67108864 else 62914560
  }

  function PlacesFor(kind: nat): nat {
    if kind == 0 then 4096 else 3728
  }

  /** The lane of `q` has got `done` from channel `id` at its end, and the other lane nothing. */
  predicate Arrived(p: Process, q: Process, id: nat, kind: nat, done: seq<Body>) {
    var before, after := if kind == 0 then p.control else p.bulk, if kind == 0 then q.control else q.bulk;
    && (if kind == 0 then q.bulk == p.bulk else q.control == p.control)
    && |after| == |before| + |done| && after[..|before|] == before && Bodies(after[|before|..]) == done
    && forall i :: |before| <= i < |after| ==> after[i].channel == id
  }

  /** What a reliable frame does: it is a step of the ideal receiver, within the room there is. */
  ghost predicate TakesReliable(p: Process, q: Process, ok: bool, id: nat, f: Frame, now: nat)
    requires id in p.channels && id in q.channels
  {
    var c, d := p.channels[id], q.channels[id];
    var a, b := if f.kind == 0 then c.controlIn else c.bulkIn, if f.kind == 0 then d.controlIn else d.bulkIn;
    var ideal := ParseFrame(ProgressOfAssembly(a), f);
    && (ok <==>
          && ideal.Some? && (a.Idle? ==> p.receiveBytes + f.total <= BytesFor(f.kind))
          && (ideal.value.done != [] ==> p.receiveMessages < PlacesFor(f.kind)))
    && (ok ==>
          && ideal.value.progress == ProgressOfAssembly(b) && Arrived(p, q, id, f.kind, ideal.value.done)
          && (b.Active? ==> b.message.tick == now))
    && (!ok ==> Arrived(p, q, id, f.kind, []))
  }

  /** What a datagram does: it is a message of its own, if there is room. */
  predicate TakesDatagram(p: Process, q: Process, ok: bool, id: nat, f: Frame) {
    && (ok <==> p.receiveBytes + |f.payload| <= BytesFor(f.kind) && p.receiveMessages < PlacesFor(f.kind))
    && Arrived(p, q, id, f.kind, if ok then [Body(f.sender, f.recipient, f.kind, f.id, false, f.payload)] else [])
  }

  /** What an acceptable frame does on a healthy channel. */
  ghost predicate Takes(p: Process, q: Process, ok: bool, id: nat, f: Frame, now: nat)
    requires id in p.channels
  {
    && id in q.channels && q.channels == p.channels[id := q.channels[id]]
    && (ok <==> q.channels[id].failure.None?)
    && if f.reliable then TakesReliable(p, q, ok, id, f, now) else TakesDatagram(p, q, ok, id, f)
  }

  lemma StoredIs(p: Process, id: nat, r: ReceiveResult, kind: nat)
    requires id in p.channels && (r.completed.Some? ==> r.completed.value.channel == id && r.completed.value.kind == kind)
    ensures Arrived(p, Charge(p, id, r), id, kind, if r.completed.Some? then [BodyOf(r.completed.value)] else [])
    ensures Charge(p, id, r).channels == p.channels[id := r.channel]
  {
    var q := Charge(p, id, r);
    var before, after := if kind == 0 then p.control else p.bulk, if kind == 0 then q.control else q.bulk;
    if r.completed.Some? {
      assert after == before + [r.completed.value];
      assert after[|before|..] == [r.completed.value];
    } else {
      assert after[|before|..] == [];
    }
  }

  lemma TakeFrameIs(p: Process, id: nat, f: Frame, now: nat)
    requires id in p.channels && ChannelFine(p.channels[id], id) && p.channels[id].failure.None? && f.Acceptable()
    ensures var t := TakeFrame(p, id, f, now); Takes(p, t.0, t.1, id, f, now)
  {
    var c := p.channels[id];
    var size := if f.reliable then f.total else |f.payload|;
    var roomBytes := p.receiveBytes + size <= ByteLimit(f.kind, f.reliable);
    var roomQueue := p.receiveMessages < MessageLimit(f.kind);
    var r := ReceiveFrame(c, id, f, now, roomBytes, roomQueue);
    ReceiveCharges(c, id, f, now, roomBytes, roomQueue);
    StoredIs(p.(pendingWork := p.pendingWork || f.reliable), id, r, f.kind);
    if f.reliable {
      ReliableIs(p, id, f, now);
    } else {
      DatagramIs(p, id, f, now);
    }
  }

  lemma ReliableIs(p: Process, id: nat, f: Frame, now: nat)
    requires id in p.channels && ChannelFine(p.channels[id], id) && p.channels[id].failure.None? && f.Acceptable() && f.reliable
    ensures
      var t := TakeFrame(p, id, f, now);
      t.0.channels.Keys == p.channels.Keys && TakesReliable(p, t.0, t.1, id, f, now)
  {
    var c := p.channels[id];
    var roomBytes := p.receiveBytes + f.total <= BytesFor(f.kind);
    var roomQueue := p.receiveMessages < PlacesFor(f.kind);
    var r := ReceiveFrame(c, id, f, now, roomBytes, roomQueue);
    ReceiveCharges(c, id, f, now, roomBytes, roomQueue);
    ReceiverRefines(c, id, f, now, roomBytes, roomQueue);
    StoredIs(p.(pendingWork := true), id, r, f.kind);
    Stamped(c, id, f, now, roomBytes, roomQueue);
    ReliableUses(p, id, f, now);
  }

  lemma ReliableUses(p: Process, id: nat, f: Frame, now: nat)
    requires id in p.channels && f.reliable
    ensures
      var r := ReceiveFrame(p.channels[id], id, f, now, p.receiveBytes + f.total <= BytesFor(f.kind), p.receiveMessages < PlacesFor(f.kind));
      TakeFrame(p, id, f, now) == (Charge(p.(pendingWork := true), id, r), r.channel.failure.None?)
  {
  }

  lemma DatagramIs(p: Process, id: nat, f: Frame, now: nat)
    requires id in p.channels && p.channels[id].failure.None? && f.Acceptable() && !f.reliable
    ensures var t := TakeFrame(p, id, f, now); TakesDatagram(p, t.0, t.1, id, f)
  {
    var roomBytes := p.receiveBytes + |f.payload| <= ByteLimit(f.kind, false);
    var roomQueue := p.receiveMessages < MessageLimit(f.kind);
    StoredIs(p, id, ReceiveFrame(p.channels[id], id, f, now, roomBytes, roomQueue), f.kind);
  }

  lemma Stamped(c: Channel, id: nat, f: Frame, now: nat, roomBytes: bool, roomQueue: bool)
    requires f.reliable && c.failure.None?
    ensures
      var d := ReceiveFrame(c, id, f, now, roomBytes, roomQueue).channel;
      d.failure.None? && AssemblyOf(d, f.kind).Active? ==> AssemblyOf(d, f.kind).message.tick == now
  {
  }

  /** What a callback answers and does: 1 if its registration is gone, 2 if the channel has failed or fails now, else 0. */
  ghost predicate CallsBack(p: Process, serial: nat, id: nat, from: nat, channelId: nat, parsed: Result<Frame>, now: nat,
                            q: Process, code: nat)
  {
    if id !in p.channels || p.channels[id].serial != serial then q == p && code == 1
    else if p.channels[id].failure.Some? then q == p && code == 2
    else if p.channels[id].peer != from || id != channelId then q == Failing(p, id, CallbackMismatch) && code == 2
    else if parsed.Err? then q == Failing(p, id, parsed.reason) && code == 2
    else code == (if code == 0 then 0 else 2) && Takes(p, q, code == 0, id, parsed.value, now)
  }

  /** A channel has failed, which is work for the next update to report. */
  function Failing(p: Process, id: nat, reason: Failure): Process
    requires id in p.channels
  {
    p.(channels := p.channels[id := p.channels[id].(failure := Some(reason))], pendingWork := true)
  }

  lemma CallbackIs(p: Process, serial: nat, id: nat, from: nat, channelId: nat, parsed: Result<Frame>, now: nat)
    requires Accounts(p) && (parsed.Ok? ==> parsed.value.Acceptable())
    ensures
      var r := Callback(p, serial, id, from, channelId, parsed, now);
      CallsBack(p, serial, id, from, channelId, parsed, now, r.0, r.1)
  {
    if id in p.channels && p.channels[id].serial == serial && p.channels[id].failure.None? {
      if p.channels[id].peer != from || id != channelId {
        FailingIs(p, id, CallbackMismatch);
      } else if parsed.Err? {
        FailingIs(p, id, parsed.reason);
      } else {
        CallbackTakes(p, id, from, parsed.value, now);
      }
    }
  }

  lemma FailingIs(p: Process, id: nat, reason: Failure)
    requires id in p.channels && p.channels[id].failure.None?
    ensures WithChannel(p, id, p.channels[id].Fail(reason)) == Failing(p, id, reason)
  {
  }

  lemma CallbackTakes(p: Process, id: nat, from: nat, f: Frame, now: nat)
    requires Accounts(p) && id in p.channels && p.channels[id].failure.None? && p.channels[id].peer == from && f.Acceptable()
    ensures
      var r := Callback(p, p.channels[id].serial, id, from, id, Ok(f), now);
      r.1 == (if r.1 == 0 then 0 else 2) && Takes(p, r.0, r.1 == 0, id, f, now)
  {
    assert ChannelFine(p.channels[id], id);
    TakeFrameIs(p, id, f, now);
  }

  // ---------------------------------------------------------------- attaching and detaching

  /** What AttachBinaryChannel does. A serial is spent even if the engine refuses the registration. */
  predicate Attaches(p: Process, id: nat, peer: nat, isHost: bool, now: nat, connectionOk: bool, registered: bool, q: Process, ok: bool) {
    if id in p.channels then q == p && ok == (p.channels[id].peer == peer && p.channels[id].isHost == isHost)
    else if |p.channels| >= 23 || p.nextSerial == 0 || !connectionOk then q == p && !ok
    else
      && ok == registered
      && q == p.(nextSerial := (p.nextSerial + 1) % 0x1_0000_0000, channels := q.channels)
      && q.channels == if !registered then p.channels
                       else p.channels[id := Channel(peer, isHost, p.nextSerial, now, 0, 4096.0, 0, 0, true, None, [], [], Idle, Idle, 0, 0, 0)]
  }

  lemma AttachIs(p: Process, id: nat, peer: nat, isHost: bool, now: nat, connectionOk: bool, registered: bool)
    ensures
      var r := Attach(p, id, peer, isHost, now, connectionOk, registered);
      Attaches(p, id, peer, isHost, now, connectionOk, registered, r.0, r.1)
  {
  }

  /** Detaching removes the channel and its unread messages, and leaves every other channel's in order. */
  lemma DetachIs(p: Process, id: nat, other: nat)
    requires id in p.channels
    ensures
      var q := Detach(p, id);
      && q.channels == p.channels - {id} && q.nextSerial == p.nextSerial
      && ForChannel(q.control, other) == (if other == id then [] else ForChannel(p.control, other))
      && ForChannel(q.bulk, other) == (if other == id then [] else ForChannel(p.bulk, other))
  {
    ForChannelWithout(p.control, id, other);
    ForChannelWithout(p.bulk, id, other);
  }

  // ---------------------------------------------------------------- updating

  predicate Increasing(order: seq<nat>) {
    forall i, j :: 0 <= i < j < |order| ==> order[i] < order[j]
  }

  lemma IncreasingCons(first: nat, rest: seq<nat>)
    requires Increasing(rest) && forall id :: id in rest ==> first < id
    ensures Increasing([first] + rest)
  {
    var order := [first] + rest;
    forall i, j | 0 <= i < j < |order| ensures order[i] < order[j] {
      assert order[j] == rest[j - 1] && rest[j - 1] in rest;
      if i > 0 { assert order[i] == rest[i - 1]; }
    }
  }

  lemma {:induction false} AscendingIncreases(ids: set<nat>)
    ensures Increasing(Ascending(ids)) && (ids != {} ==> Ascending(ids) != [] && IsLeast(Ascending(ids)[0], ids))
    decreases |ids|
  {
    if ids != {} {
      LeastExists(ids);
      var least :| IsLeast(least, ids) && Ascending(ids) == [least] + Ascending(ids - {least});
      AscendingIncreases(ids - {least});
      IncreasingCons(least, Ascending(ids - {least}));
    }
  }

  /** Channel `id` was healthy, and has been flushed and still is. */
  ghost predicate FlushedWell(p: Process, q: Process, id: nat, now: nat, network: Network)
    requires QueuesFine(p)
  {
    && id in p.channels && id in q.channels && p.channels[id].failure.None? && q.channels[id].failure.None?
    && q.channels[id] == Flush(p.channels[id], now, network).channel
  }

  ghost predicate Untouched(p: Process, q: Process, id: nat) {
    id in p.channels ==> id in q.channels && q.channels[id] == p.channels[id]
  }

  /** Channel `id` had failed, or its flush failed. */
  ghost predicate FlushedBadly(p: Process, q: Process, id: nat, now: nat, network: Network)
    requires QueuesFine(p)
  {
    && id in p.channels && id in q.channels && q.channels[id].failure.Some?
    && q.channels[id] == if p.channels[id].failure.Some? then p.channels[id] else Flush(p.channels[id], now, network).channel
  }

  /** Channels are flushed in id order up to the first that has failed or fails. */
  ghost predicate FlushesAll(p: Process, order: seq<nat>, r: UpdateResult, now: nat, networks: nat -> Network)
    requires QueuesFine(p)
  {
    && r.process.channels.Keys == p.channels.Keys
    && (forall id :: id !in order ==> Untouched(p, r.process, id))
    && match r.failed
       case None => forall id :: id in order ==> FlushedWell(p, r.process, id, now, networks(id))
       case Some(k) =>
         && k in order && FlushedBadly(p, r.process, k, now, networks(k))
         && (forall id :: id in order && id < k ==> FlushedWell(p, r.process, id, now, networks(id)))
         && (forall id :: id in order && id > k ==> Untouched(p, r.process, id))
  }

  lemma {:induction false} FlushAllIs(p: Process, order: seq<nat>, now: nat, networks: nat -> Network)
    requires QueuesFine(p) && Increasing(order) && forall id :: id in order ==> id in p.channels
    ensures FlushesAll(p, order, FlushAll(p, order, now, networks), now, networks)
    decreases |order|
  {
    if order != [] && p.channels[order[0]].failure.None? {
      var id := order[0];
      var q := FlushOne(p, id, now, networks(id));
      if q.channels[id].failure.None? {
        FlushAllIs(q, order[1..], now, networks);
        FlushesMore(p, order, q, FlushAll(q, order[1..], now, networks), now, networks);
      }
    }
  }

  lemma FlushesMore(p: Process, order: seq<nat>, q: Process, r: UpdateResult, now: nat, networks: nat -> Network)
    requires QueuesFine(p) && QueuesFine(q) && Increasing(order) && order != [] && order[0] in p.channels
    requires p.channels[order[0]].failure.None? && q.channels == p.channels[order[0] := Flush(p.channels[order[0]], now, networks(order[0])).channel]
    requires q.channels[order[0]].failure.None? && FlushesAll(q, order[1..], r, now, networks)
    ensures FlushesAll(p, order, r, now, networks)
  {
    var first := order[0];
    FirstIsLess(order);
    assert Untouched(q, r.process, first);
    forall id | id != first
      ensures FlushedWell(q, r.process, id, now, networks(id)) ==> FlushedWell(p, r.process, id, now, networks(id))
      ensures FlushedBadly(q, r.process, id, now, networks(id)) ==> FlushedBadly(p, r.process, id, now, networks(id))
      ensures Untouched(q, r.process, id) ==> Untouched(p, r.process, id)
    {
      SameOther(p, q, r.process, id, now, networks(id));
    }
  }

  lemma SameOther(p: Process, q: Process, after: Process, id: nat, now: nat, network: Network)
    requires QueuesFine(p) && QueuesFine(q) && (id in p.channels <==> id in q.channels)
    requires id in p.channels ==> q.channels[id] == p.channels[id]
    ensures FlushedWell(q, after, id, now, network) ==> FlushedWell(p, after, id, now, network)
    ensures FlushedBadly(q, after, id, now, network) ==> FlushedBadly(p, after, id, now, network)
    ensures Untouched(q, after, id) ==> Untouched(p, after, id)
  {
  }

  lemma FirstIsLess(order: seq<nat>)
    requires Increasing(order) && order != []
    ensures forall id :: id in order <==> id == order[0] || id in order[1..]
    ensures forall id :: id in order[1..] ==> order[0] < id
  {
    assert order == [order[0]] + order[1..];
    forall id | id in order[1..] ensures order[0] < id {
      var i :| 0 <= i < |order[1..]| && order[1..][i] == id;
      assert order[i + 1] == id;
    }
  }

  ghost predicate Unfinished(p: Process) {
    exists id :: id in p.channels && (p.channels[id].queuedMessages != 0 || p.channels[id].controlIn.Active? || p.channels[id].bulkIn.Active?)
  }

  /** What UpdateBinary does. */
  ghost predicate Updates(p: Process, now: nat, connectionOk: bool, networks: nat -> Network, r: UpdateResult)
    requires QueuesFine(p)
  {
    if !p.pendingWork then r == UpdateResult(p, None)
    else if p.channels == map[] then r == UpdateResult(p.(pendingWork := false), None)
    else if !connectionOk then r.process == p && r.failed.Some? && IsLeast(r.failed.value, p.channels.Keys)
    else
      && FlushesAll(p, Ascending(p.channels.Keys), r, now, networks)
      && r.process.pendingWork == (r.failed.Some? || Unfinished(r.process))
      && r.process.control == p.control && r.process.bulk == p.bulk
  }

  lemma {:induction false} FlushAllFrame(p: Process, order: seq<nat>, now: nat, networks: nat -> Network)
    requires QueuesFine(p) && forall id :: id in order ==> id in p.channels
    ensures
      var q := FlushAll(p, order, now, networks).process;
      q.control == p.control && q.bulk == p.bulk && (p.pendingWork ==> q.pendingWork)
    decreases |order|
  {
    if order != [] && p.channels[order[0]].failure.None? {
      FlushAllFrame(FlushOne(p, order[0], now, networks(order[0])), order[1..], now, networks);
    }
  }

  lemma UpdateIs(p: Process, now: nat, connectionOk: bool, networks: nat -> Network)
    requires QueuesFine(p)
    ensures Updates(p, now, connectionOk, networks, Update(p, now, connectionOk, networks))
  {
    if p.pendingWork && p.channels != map[] {
      var ids := p.channels.Keys;
      assert ids != {};
      AscendingIncreases(ids);
      if connectionOk {
        FlushAllIs(p, Ascending(ids), now, networks);
        FlushAllFrame(p, Ascending(ids), now, networks);
        WorkIs(FlushAll(p, Ascending(ids), now, networks).process);
      }
    }
  }

  lemma WorkIs(p: Process)
    ensures WorkLeft(p) <==> Unfinished(p)
  {
  }

  // ---------------------------------------------------------------- polling

  /** The messages that a poll may return the first of. */
  function Readable(p: Process, controlChannel: nat): seq<Message> {
    if controlChannel == 0 then p.bulk else ForChannel(p.control, controlChannel)
  }

  /** What PollBinary answers. */
  predicate Polls(p: Process, controlChannel: nat, messageId: nat, capacity: nat, present: bool, r: PollResult) {
    if !p.pendingReceive then r.NothingToRead?
    else if (controlChannel == 0) != (messageId == 0) then r.PollError?
    else if Readable(p, controlChannel) == [] then r.NothingToRead?
    else
      var m := Readable(p, controlChannel)[0];
      if controlChannel != 0 && m.id != messageId then r.PollError?
      else if capacity < |m.payload| || (!present && m.payload != []) then r == TooSmall(m)
      else
        && r.Read? && r.message == m && Readable(p, controlChannel) == [m] + Readable(r.process, controlChannel)
        && r.process == p.(receiveBytes := p.receiveBytes - |m.payload|, receiveMessages := p.receiveMessages - 1,
                           pendingReceive := p.receiveMessages != 1, control := r.process.control, bulk := r.process.bulk)
  }

  lemma {:induction false} FirstForIs(queue: seq<Message>, id: nat)
    requires id != 0
    ensures
      var i := FirstFor(queue, id);
      if i == |queue| then ForChannel(queue, id) == [] else ForChannel(queue, id) != [] && ForChannel(queue, id)[0] == queue[i]
  {
    if queue != [] && queue[0].channel != id { FirstForIs(queue[1..], id); }
  }

  lemma PollIs(p: Process, controlChannel: nat, messageId: nat, capacity: nat, present: bool)
    ensures Polls(p, controlChannel, messageId, capacity, present, Poll(p, controlChannel, messageId, capacity, present))
  {
    if controlChannel != 0 { FirstForIs(p.control, controlChannel); }
    if Poll(p, controlChannel, messageId, capacity, present).Read? { ReadIs(p, controlChannel, messageId, capacity, present); }
  }

  lemma ReadIs(p: Process, controlChannel: nat, messageId: nat, capacity: nat, present: bool)
    requires Poll(p, controlChannel, messageId, capacity, present).Read?
    ensures
      var r := Poll(p, controlChannel, messageId, capacity, present);
      Readable(p, controlChannel) == [r.message] + Readable(r.process, controlChannel)
  {
    PollTakesOldest(p, controlChannel, messageId, capacity, present, controlChannel);
    if controlChannel == 0 { assert p.bulk == [p.bulk[0]] + p.bulk[1..] && p.bulk[..0] + p.bulk[1..] == p.bulk[1..]; }
  }
}
