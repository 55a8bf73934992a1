/**
 Registrations over whole runs of the process: every entry point keeps the accounts, serials are never handed
 out twice, and a callback that the engine still delivers for a detached registration changes nothing.
 */
module BinaryRegistrations {
  import opened Common
  import opened Bits
  import opened BinaryWire
  import opened BinaryChannel
  import opened BinaryProcess

  /** One call of an entry point, with what the engine and the clock answer. */
  datatype Step =
    | Attaching(id: nat, peer: nat, isHost: bool, now: nat, connectionOk: bool, registered: bool)
    | Detaching(id: nat)
    | Sending(id: nat, args: SendArguments, now: nat, control: ControlNetwork)
    | Updating(now: nat, connectionOk: bool, networks: nat -> Network)
    | CallingBack(serial: nat, id: nat, from: nat, channelId: nat, parsed: Result<Frame>, now: nat)
    | Polling(controlChannel: nat, messageId: nat, capacity: nat, present: bool)

  /** The clock does not run backwards, and a parsed frame is one that the parser accepts. */
  ghost predicate Allowed(p: Process, step: Step) {
    match step
    case Updating(now, _, _) => ClockAhead(p, now)
    case CallingBack(_, _, _, _, parsed, _) => parsed.Ok? ==> parsed.value.Acceptable()
    case _ => true
  }

  ghost function Next(p: Process, step: Step): Process
    requires QueuesFine(p)
  {
    match step
    case Attaching(id, peer, isHost, now, connectionOk, registered) => Attach(p, id, peer, isHost, now, connectionOk, registered).0
    case Detaching(id) => Detach(p, id)
    case Sending(id, args, now, control) => Send(p, id, args, now, control).process
    case Updating(now, connectionOk, networks) => Update(p, now, connectionOk, networks).process
    case CallingBack(serial, id, from, channelId, parsed, now) => Callback(p, serial, id, from, channelId, parsed, now).0
    case Polling(controlChannel, messageId, capacity, present) => Polled(p, Poll(p, controlChannel, messageId, capacity, present))
  }

  function Polled(p: Process, r: PollResult): Process {
    if r.Read? then r.process else p
  }

  // ---------------------------------------------------------------- serials

  /** A serial that was handed out, while they have not run out. */
  predicate Issued(p: Process, serial: nat) {
    0 < serial < WORD32 && (p.nextSerial == 0 || serial < p.nextSerial)
  }

  ghost predicate SerialIssued(p: Process, id: nat) {
    id in p.channels ==> Issued(p, p.channels[id].serial)
  }

  ghost predicate SerialsApart(p: Process, x: nat, y: nat) {
    x in p.channels && y in p.channels && p.channels[x].serial == p.channels[y].serial ==> x == y
  }

  /** Attached channels have serials that were handed out, each its own. */
  ghost predicate SerialsOk(p: Process) {
    && p.nextSerial < WORD32
    && (forall id :: SerialIssued(p, id))
    && (forall x, y :: SerialsApart(p, x, y))
  }

  ghost predicate Unused(p: Process, serial: nat, id: nat) {
    id in p.channels ==> p.channels[id].serial != serial
  }

  /** A serial that was handed out to a registration which no longer exists. */
  ghost predicate Retired(p: Process, serial: nat) {
    Issued(p, serial) && forall id :: Unused(p, serial, id)
  }

  ghost predicate KeepsSerial(p: Process, q: Process, id: nat) {
    id in q.channels ==> id in p.channels && q.channels[id].serial == p.channels[id].serial
  }

  /** No new registration, and those that stay keep their serials. */
  ghost predicate KeepsSerials(p: Process, q: Process) {
    q.nextSerial == p.nextSerial && forall id :: KeepsSerial(p, q, id)
  }

  /** At most one new registration, with the next serial. */
  ghost predicate AddsSerial(p: Process, q: Process, id: nat) {
    && p.nextSerial != 0 && q.nextSerial == (p.nextSerial + 1) % WORD32
    && id !in p.channels && (id in q.channels ==> q.channels[id].serial == p.nextSerial)
    && forall other :: other != id ==> KeepsSerial(p, q, other)
  }

  lemma KeptSerials(p: Process, q: Process)
    requires SerialsOk(p) && KeepsSerials(p, q)
    ensures SerialsOk(q) && forall serial :: Retired(p, serial) ==> Retired(q, serial)
  {
    forall id ensures SerialIssued(q, id) {
      assert KeepsSerial(p, q, id) && SerialIssued(p, id);
    }
    forall x, y ensures SerialsApart(q, x, y) {
      assert KeepsSerial(p, q, x) && KeepsSerial(p, q, y) && SerialsApart(p, x, y);
    }
    forall serial | Retired(p, serial) ensures Retired(q, serial) {
      forall id ensures Unused(q, serial, id) { assert KeepsSerial(p, q, id) && Unused(p, serial, id); }
    }
  }

  lemma AddedSerial(p: Process, q: Process, id: nat)
    requires SerialsOk(p) && AddsSerial(p, q, id)
    ensures SerialsOk(q) && forall serial :: Retired(p, serial) ==> Retired(q, serial)
    ensures forall serial :: Issued(p, serial) ==> Issued(q, serial)
  {
    forall other ensures SerialIssued(q, other) {
      if other != id { assert KeepsSerial(p, q, other) && SerialIssued(p, other); }
    }
    forall x, y ensures SerialsApart(q, x, y) {
      assert SerialsApart(p, x, y) && SerialIssued(p, x) && SerialIssued(p, y);
      assert x != id ==> KeepsSerial(p, q, x);
      assert y != id ==> KeepsSerial(p, q, y);
    }
    forall serial | Retired(p, serial) ensures Retired(q, serial) {
      forall other ensures Unused(q, serial, other) {
        if other != id { assert KeepsSerial(p, q, other) && Unused(p, serial, other); }
      }
    }
  }

  /** How a step may change the serials. */
  ghost predicate SerialStep(p: Process, q: Process) {
    KeepsSerials(p, q) || exists id :: AddsSerial(p, q, id)
  }

  lemma SerialStepKeeps(p: Process, q: Process, serial: nat)
    requires SerialsOk(p) && SerialStep(p, q)
    ensures SerialsOk(q) && (Retired(p, serial) ==> Retired(q, serial)) && (Issued(p, serial) ==> Issued(q, serial))
  {
    if KeepsSerials(p, q) {
      KeptSerials(p, q);
    } else {
      var id :| AddsSerial(p, q, id);
      AddedSerial(p, q, id);
    }
  }

  // ---------------------------------------------------------------- each entry point

  lemma SameSerial(p: Process, id: nat, c: Channel)
    requires id in p.channels && c.serial == p.channels[id].serial
    ensures KeepsSerials(p, WithChannel(p, id, c))
  {
    forall other ensures KeepsSerial(p, WithChannel(p, id, c), other) {
    }
  }

  lemma NothingChanges(p: Process, q: Process)
    requires q.channels == p.channels && q.nextSerial == p.nextSerial
    ensures KeepsSerials(p, q)
  {
    forall id ensures KeepsSerial(p, q, id) {
    }
  }

  lemma KeepsSerialsOn(p: Process, q: Process, r: Process)
    requires KeepsSerials(p, q) && KeepsSerials(q, r)
    ensures KeepsSerials(p, r)
  {
    forall id ensures KeepsSerial(p, r, id) {
      assert KeepsSerial(p, q, id) && KeepsSerial(q, r, id);
    }
  }

  lemma AttachSerial(p: Process, id: nat, peer: nat, isHost: bool, now: nat, connectionOk: bool, registered: bool)
    ensures SerialStep(p, Attach(p, id, peer, isHost, now, connectionOk, registered).0)
  {
    var q := Attach(p, id, peer, isHost, now, connectionOk, registered).0;
    if q == p {
      NothingChanges(p, q);
    } else {
      forall other | other != id ensures KeepsSerial(p, q, other) {
      }
      assert AddsSerial(p, q, id);
    }
  }

  lemma DetachSerial(p: Process, id: nat)
    ensures KeepsSerials(p, Detach(p, id))
  {
    forall other ensures KeepsSerial(p, Detach(p, id), other) {
    }
  }

  lemma SendSerial(p: Process, id: nat, args: SendArguments, now: nat, control: ControlNetwork)
    ensures KeepsSerials(p, Send(p, id, args, now, control).process)
  {
    NothingChanges(p, p);
    if args.Valid() && id in p.channels && p.channels[id].failure.None? {
      var c := p.channels[id];
      var m := NewMessage(c, id, args, now);
      var r := SendControl(c, m, control);
      SameSerial(p, id, r.channel);
      SameSerial(p, id, r.channel.(nextMessage := m.id));
      SameSerial(p, id, Enqueue(c, m));
      var queued := WithChannel(p, id, Enqueue(c, m));
      NothingChanges(queued, queued.(pendingWork := true));
      KeepsSerialsOn(p, queued, queued.(pendingWork := true));
    }
  }

  lemma TakeFrameSerial(p: Process, id: nat, f: Frame, now: nat)
    requires id in p.channels
    ensures KeepsSerials(p, TakeFrame(p, id, f, now).0)
  {
    var q := TakeFrame(p, id, f, now).0;
    forall other ensures KeepsSerial(p, q, other) {
    }
  }

  lemma CallbackSerial(p: Process, serial: nat, id: nat, from: nat, channelId: nat, parsed: Result<Frame>, now: nat)
    ensures KeepsSerials(p, Callback(p, serial, id, from, channelId, parsed, now).0)
  {
    NothingChanges(p, p);
    if id in p.channels && p.channels[id].serial == serial && p.channels[id].failure.None? {
      var c := p.channels[id];
      SameSerial(p, id, c.Fail(CallbackMismatch));
      match parsed
      case Err(reason) => SameSerial(p, id, c.Fail(reason));
      case Ok(f) => TakeFrameSerial(p, id, f, now);
    }
  }

  lemma PollSerial(p: Process, controlChannel: nat, messageId: nat, capacity: nat, present: bool)
    ensures KeepsSerials(p, Polled(p, Poll(p, controlChannel, messageId, capacity, present)))
  {
    NothingChanges(p, Polled(p, Poll(p, controlChannel, messageId, capacity, present)));
  }

  ghost predicate Updated(p: Process, q: Process, now: nat) {
    InUpdate(q, now) && KeepsSerials(p, q)
  }

  lemma FlushOneSerial(p: Process, q: Process, id: nat, now: nat, network: Network)
    requires Updated(p, q, now) && QueuesFine(q) && id in q.channels
    ensures Updated(p, FlushOne(q, id, now, network), now)
  {
    FlushOneKeeps(q, id, now, network);
    assert ChannelFine(q.channels[id], id);
    FlushKeeps(q.channels[id], now, network);
    SameSerial(q, id, Flush(q.channels[id], now, network).channel);
    KeepsSerialsOn(p, q, FlushOne(q, id, now, network));
  }

  lemma FlushAllSerial(p: Process, order: seq<nat>, now: nat, networks: nat -> Network)
    requires InUpdate(p, now) && QueuesFine(p) && forall id :: id in order ==> id in p.channels
    ensures KeepsSerials(p, FlushAll(p, order, now, networks).process)
  {
    NothingChanges(p, p);
    forall q: Process, id: nat | Updated(p, q, now) && QueuesFine(q) && id in q.channels
      ensures Updated(p, FlushOne(q, id, now, networks(id)), now)
    {
      FlushOneSerial(p, q, id, now, networks(id));
    }
    FlushAllInduction(q => Updated(p, q, now), p, order, now, networks);
  }

  lemma UpdateSerial(p: Process, now: nat, connectionOk: bool, networks: nat -> Network)
    requires Accounts(p) && QueuesFine(p) && ClockAhead(p, now)
    ensures KeepsSerials(p, Update(p, now, connectionOk, networks).process)
  {
    NothingChanges(p, p);
    NothingChanges(p, p.(pendingWork := false));
    if p.pendingWork && p.channels != map[] && connectionOk {
      var order := Ascending(p.channels.Keys);
      FlushAllSerial(p, order, now, networks);
      var q := FlushAll(p, order, now, networks).process;
      NothingChanges(q, q.(pendingWork := WorkLeft(q)));
      KeepsSerialsOn(p, q, q.(pendingWork := WorkLeft(q)));
    }
  }

  lemma StepSerials(p: Process, step: Step)
    requires Accounts(p) && QueuesFine(p) && Allowed(p, step)
    ensures SerialStep(p, Next(p, step))
  {
    match step
    case Attaching(id, peer, isHost, now, connectionOk, registered) => AttachSerial(p, id, peer, isHost, now, connectionOk, registered);
    case Detaching(id) => DetachSerial(p, id);
    case Sending(id, args, now, control) => SendSerial(p, id, args, now, control);
    case Updating(now, connectionOk, networks) => UpdateSerial(p, now, connectionOk, networks);
    case CallingBack(serial, id, from, channelId, parsed, now) => CallbackSerial(p, serial, id, from, channelId, parsed, now);
    case Polling(controlChannel, messageId, capacity, present) => PollSerial(p, controlChannel, messageId, capacity, present);
  }

  // ---------------------------------------------------------------- runs

  ghost predicate Sound(p: Process) {
    Accounts(p) && QueuesFine(p) && SerialsOk(p)
  }

  lemma StepAccounts(p: Process, step: Step)
    requires Accounts(p) && QueuesFine(p) && Allowed(p, step)
    ensures Accounts(Next(p, step))
  {
    match step
    case Attaching(id, peer, isHost, now, connectionOk, registered) => AttachKeeps(p, id, peer, isHost, now, connectionOk, registered);
    case Detaching(id) => DetachKeeps(p, id);
    case Sending(id, args, now, control) => SendKeeps(p, id, args, now, control);
    case Updating(now, connectionOk, networks) => UpdateKeeps(p, now, connectionOk, networks);
    case CallingBack(serial, id, from, channelId, parsed, now) => CallbackKeeps(p, serial, id, from, channelId, parsed, now);
    case Polling(controlChannel, messageId, capacity, present) => PollKeeps(p, controlChannel, messageId, capacity, present);
  }

  lemma StepKeeps(p: Process, step: Step)
    requires Sound(p) && Allowed(p, step)
    ensures Sound(Next(p, step))
  {
    StepAccounts(p, step);
    AccountsMeanQueuesFine(Next(p, step));
    StepSerials(p, step);
    SerialStepKeeps(p, Next(p, step), 0);
  }

  ghost predicate Runs(p: Process, steps: seq<Step>)
    requires Sound(p)
    decreases |steps|
  {
    if steps == [] then true
    else Allowed(p, steps[0]) && (StepKeeps(p, steps[0]); Runs(Next(p, steps[0]), steps[1..]))
  }

  ghost function After(p: Process, steps: seq<Step>): Process
    requires Sound(p) && Runs(p, steps)
    decreases |steps|
  {
    if steps == [] then p
    else
      StepKeeps(p, steps[0]);
      After(Next(p, steps[0]), steps[1..])
  }

  const START: Process := Process(map[], [], [], 0, 0, 0, 1, false, false)

  lemma StartSound()
    ensures Sound(START)
  {
  }

  /** Every counter, reserve, flag and serial is right after every run of the entry points. */
  lemma {:induction false} RunKeeps(p: Process, steps: seq<Step>, serial: nat)
    requires Sound(p) && Runs(p, steps)
    ensures Sound(After(p, steps))
    ensures Issued(p, serial) ==> Issued(After(p, steps), serial)
    ensures Retired(p, serial) ==> Retired(After(p, steps), serial)
    decreases |steps|
  {
    if steps != [] {
      StepKeeps(p, steps[0]);
      StepSerials(p, steps[0]);
      SerialStepKeeps(p, Next(p, steps[0]), serial);
      RunKeeps(Next(p, steps[0]), steps[1..], serial);
    }
  }

  lemma AfterFirst(p: Process, first: Step, steps: seq<Step>)
    requires Sound(p) && Runs(p, [first] + steps)
    ensures Sound(Next(p, first)) && Runs(Next(p, first), steps)
    ensures After(p, [first] + steps) == After(Next(p, first), steps)
  {
    StepKeeps(p, first);
    assert ([first] + steps)[1..] == steps;
  }

  /** Two registrations of one run never get the same serial. */
  lemma SerialsNeverRepeat(p: Process, first: Step, steps: seq<Step>, second: Step)
    requires Sound(p) && first.Attaching? && first.id !in p.channels && first.id in Next(p, first).channels
    requires second.Attaching? && Runs(p, [first] + steps)
    ensures
      (RunKeeps(p, [first] + steps, 0);
       var q := After(p, [first] + steps);
       second.id !in q.channels && second.id in Next(q, second).channels ==>
         Next(q, second).channels[second.id].serial != Next(p, first).channels[first.id].serial)
  {
    var q := Next(p, first);
    AfterFirst(p, first, steps);
    assert SerialIssued(q, first.id);
    RunKeeps(q, steps, q.channels[first.id].serial);
    if second.id !in After(q, steps).channels { NewSerial(After(q, steps), second, q.channels[first.id].serial); }
  }

  lemma NewSerial(p: Process, step: Step, serial: nat)
    requires QueuesFine(p) && step.Attaching? && step.id !in p.channels && Issued(p, serial)
    ensures step.id in Next(p, step).channels ==> Next(p, step).channels[step.id].serial != serial
  {
  }

  /**
   A callback for a registration that was detached at any earlier point of the run is answered by 1 and
   changes nothing, whatever was attached since.
   */
  lemma StaleCallbackIgnored(p: Process, id: nat, steps: seq<Step>, to: nat, from: nat, channelId: nat,
                             parsed: Result<Frame>, now: nat)
    requires Sound(p) && id in p.channels && Runs(p, [Detaching(id)] + steps)
    ensures
      var q := After(p, [Detaching(id)] + steps);
      Callback(q, p.channels[id].serial, to, from, channelId, parsed, now) == (q, 1)
  {
    var serial := p.channels[id].serial;
    AfterFirst(p, Detaching(id), steps);
    DetachRetires(p, id);
    RunKeeps(Detach(p, id), steps, serial);
    assert Unused(After(Detach(p, id), steps), serial, to);
  }

  lemma DetachRetires(p: Process, id: nat)
    requires SerialsOk(p) && id in p.channels
    ensures Retired(Detach(p, id), p.channels[id].serial)
  {
    assert SerialIssued(p, id);
    forall other ensures Unused(Detach(p, id), p.channels[id].serial, other) {
      assert SerialsApart(p, id, other);
    }
  }
}
