/**
 The relay's peer table (realms_relay.cpp): packets from the public socket find, rebind or create peers;
 commands adopt and release them; a timer reaps those never adopted; socket errors clear them.
 */
module RelayTable {
  import opened Common

  const SLOTS: int := 23
  const UNADOPTED_TIMEOUT: int := 30000

  /** An address as recvfrom reports it; families other than IP never compare equal, and IPv6 flow labels are ignored. */
  datatype Endpoint = V4(address: int, port: int) | V6(host: seq<int>, port: int, scope: int, flow: int) | OtherFamily

  predicate SameEndpoint(a: Endpoint, b: Endpoint) {
    match (a, b)
    case (V4(x, p), V4(y, q)) => x == y && p == q
    case (V6(x, p, s, _), V6(y, q, t, _)) => x == y && p == q && s == t
    case _ => false
  }

  /** peerId 0 marks a free slot; `socket` is None for INVALID_SOCKET. */
  datatype Peer = Peer(peerId: nat, connectionId: nat, socket: Option<nat>, external: Endpoint, createdTick: int, adopted: bool)

  const FREE: Peer := Peer(0, 0, None, OtherFamily, 0, false)

  /** A decoded packet header. A connectionless one always names a peer. */
  datatype Route = Route(connectionId: nat, peerId: nat)

  datatype Table = Table(slots: seq<Peer>, live: set<nat>)

  datatype Command = Adopt(peerId: nat) | Release(peerId: nat)

  datatype Outcome = Ignored | Rejected | Forwarded(slot: nat)

  // ---------------------------------------------------------------- the table's searches

  /** The first slot from `i` that satisfies `wanted`, or the number of slots. */
  function First(slots: seq<Peer>, wanted: Peer -> bool, i: nat): (found: nat)
    requires i <= |slots|
    ensures i <= found <= |slots| && (found < |slots| ==> wanted(slots[found]))
    ensures forall j :: i <= j < found ==> !wanted(slots[j])
    decreases |slots| - i
  {
    if i == |slots| || wanted(slots[i]) then i else First(slots, wanted, i + 1)
  }

  function AtEndpoint(external: Endpoint): Peer -> bool {
    (p: Peer) => p.peerId != 0 && SameEndpoint(p.external, external)
  }

  function OnRoute(route: Route): Peer -> bool {
    (p: Peer) => p.peerId != 0 && if route.connectionId == 0 then p.peerId == route.peerId else p.connectionId == route.connectionId
  }

  function WithId(peerId: nat): Peer -> bool {
    (p: Peer) => p.peerId == peerId
  }

  // ---------------------------------------------------------------- steps

  function Clear(t: Table, i: nat): Table
    requires i < |t.slots|
  {
    Table(t.slots[i := FREE], if t.slots[i].socket.Some? then t.live - {t.slots[i].socket.value} else t.live)
  }

  function Obey(t: Table, command: Command): Table {
    var i := First(t.slots, WithId(command.peerId), 0);
    if i == |t.slots| then t
    else if command.Adopt? then t.(slots := t.slots[i := t.slots[i].(adopted := true)])
    else Clear(t, i)
  }

  predicate Idle(p: Peer, now: int) {
    p.peerId != 0 && !p.adopted && p.createdTick != 0 && now - p.createdTick >= UNADOPTED_TIMEOUT
  }

  /** reap_unadopted_peers from slot `i` on. */
  function Reap(t: Table, now: int, i: nat): (reaped: Table)
    requires i <= |t.slots|
    ensures |reaped.slots| == |t.slots|
    decreases |t.slots| - i
  {
    if i == |t.slots| then t else Reap(if Idle(t.slots[i], now) then Clear(t, i) else t, now, i + 1)
  }

  /** A packet that belongs to slot `i`. */
  function Deliver(t: Table, i: nat, route: Option<Route>): Table
    requires i < |t.slots|
  {
    if route.Some? && route.value.connectionId != 0
    then t.(slots := t.slots[i := t.slots[i].(connectionId := route.value.connectionId)])
    else t
  }

  datatype Received = Received(table: Table, outcome: Outcome)

  /** One packet of receive_public_packets; `socket` is what creating a game socket would give. */
  function Receive(t: Table, external: Endpoint, route: Option<Route>, socket: Option<nat>, now: int): Received {
    var known := First(t.slots, AtEndpoint(external), 0);
    if known < |t.slots| then
      if route.Some? && route.value.connectionId == 0 && t.slots[known].peerId != route.value.peerId then Received(t, Ignored)
      else Received(Deliver(t, known, route), Forwarded(known))
    else if route.None? then Received(t, Ignored)
    else
      var routed := First(t.slots, OnRoute(route.value), 0);
      if routed < |t.slots| then
        var rebound := t.(slots := t.slots[routed := t.slots[routed].(external := external)]);
        Received(Deliver(rebound, routed, route), Forwarded(routed))
      else if route.value.connectionId != 0 then Received(t, Ignored)
      else
        var empty := First(t.slots, WithId(0), 0);
        if empty == |t.slots| then Received(t, Rejected)
        else if socket.None? then Received(t, Ignored)
        else
          var peer := Peer(route.value.peerId, t.slots[empty].connectionId, socket, external, now, t.slots[empty].adopted);
          Received(Table(t.slots[empty := peer], t.live + {socket.value}), Forwarded(empty))
  }

  // ---------------------------------------------------------------- the invariant

  /** A slot is free and blank, or owns a live socket. */
  ghost predicate SlotOk(p: Peer, live: set<nat>) {
    if p.peerId == 0 then p == FREE else p.socket.Some? && p.socket.value in live
  }

  ghost predicate Apart(p: Peer, q: Peer) {
    p.peerId != 0 && q.peerId != 0 ==>
      p.peerId != q.peerId && p.socket != q.socket && !SameEndpoint(p.external, q.external)
  }

  ghost predicate Owned(socket: nat, slots: seq<Peer>) {
    exists i :: 0 <= i < |slots| && slots[i].socket == Some(socket)
  }

  /** Occupied slots differ in peer, socket and endpoint, and the live sockets are exactly theirs. */
  ghost predicate Ok(t: Table) {
    && |t.slots| == SLOTS
    && (forall i :: 0 <= i < |t.slots| ==> SlotOk(t.slots[i], t.live))
    && (forall i, j :: 0 <= i < j < |t.slots| ==> Apart(t.slots[i], t.slots[j]))
    && (forall socket :: socket in t.live ==> Owned(socket, t.slots))
  }

  lemma ClearKeeps(t: Table, i: nat)
    requires Ok(t) && i < |t.slots|
    ensures Ok(Clear(t, i))
  {
    var u, old_ := Clear(t, i), t.slots[i];
    assert SlotOk(old_, t.live);
    forall j | 0 <= j < |u.slots| ensures SlotOk(u.slots[j], u.live) {
      assert SlotOk(t.slots[j], t.live);
      if j < i { assert Apart(t.slots[j], old_); }
      if i < j { assert Apart(old_, t.slots[j]); }
    }
    forall a, b | 0 <= a < b < |u.slots| ensures Apart(u.slots[a], u.slots[b]) {
      assert Apart(t.slots[a], t.slots[b]);
    }
    forall socket | socket in u.live ensures Owned(socket, u.slots) {
      assert Owned(socket, t.slots);
      var k :| 0 <= k < |t.slots| && t.slots[k].socket == Some(socket);
      assert u.slots[k].socket == Some(socket);
    }
  }

  /** A slot changes without becoming free, changing its peer or its socket, or taking another's endpoint. */
  lemma SlotChanges(t: Table, i: nat, p: Peer)
    requires Ok(t) && i < |t.slots| && t.slots[i].peerId != 0
    requires p.peerId == t.slots[i].peerId && p.socket == t.slots[i].socket
    requires p.external == t.slots[i].external || forall j :: 0 <= j < |t.slots| ==> !AtEndpoint(p.external)(t.slots[j])
    ensures Ok(t.(slots := t.slots[i := p]))
  {
    var u := t.(slots := t.slots[i := p]);
    forall j | 0 <= j < |u.slots| ensures SlotOk(u.slots[j], u.live) {
      assert SlotOk(t.slots[j], t.live);
    }
    forall a, b | 0 <= a < b < |u.slots| ensures Apart(u.slots[a], u.slots[b]) {
      assert Apart(t.slots[a], t.slots[b]);
      Symmetric(t.slots[a].external, p.external);
      assert AtEndpoint(p.external)(t.slots[a]) == (t.slots[a].peerId != 0 && SameEndpoint(t.slots[a].external, p.external));
      assert AtEndpoint(p.external)(t.slots[b]) == (t.slots[b].peerId != 0 && SameEndpoint(t.slots[b].external, p.external));
      Symmetric(t.slots[b].external, p.external);
    }
    forall socket | socket in u.live ensures Owned(socket, u.slots) {
      assert Owned(socket, t.slots);
      var k :| 0 <= k < |t.slots| && t.slots[k].socket == Some(socket);
      assert u.slots[k].socket == Some(socket);
    }
  }

  lemma Symmetric(a: Endpoint, b: Endpoint)
    ensures SameEndpoint(a, b) == SameEndpoint(b, a)
  {
  }

  /** A new peer in a free slot. */
  lemma SlotFills(t: Table, i: nat, p: Peer)
    requires Ok(t) && i < |t.slots| && t.slots[i].peerId == 0 && p.peerId != 0 && p.socket.Some? && p.socket.value !in t.live
    requires forall j :: 0 <= j < |t.slots| ==> t.slots[j].peerId != p.peerId && !AtEndpoint(p.external)(t.slots[j])
    ensures Ok(Table(t.slots[i := p], t.live + {p.socket.value}))
  {
    var u := Table(t.slots[i := p], t.live + {p.socket.value});
    forall j | 0 <= j < |u.slots| ensures SlotOk(u.slots[j], u.live) {
      assert SlotOk(t.slots[j], t.live);
    }
    forall a, b | 0 <= a < b < |u.slots| ensures Apart(u.slots[a], u.slots[b]) {
      assert Apart(t.slots[a], t.slots[b]) && SlotOk(t.slots[a], t.live) && SlotOk(t.slots[b], t.live);
      assert AtEndpoint(p.external)(t.slots[a]) == (t.slots[a].peerId != 0 && SameEndpoint(t.slots[a].external, p.external));
      assert AtEndpoint(p.external)(t.slots[b]) == (t.slots[b].peerId != 0 && SameEndpoint(t.slots[b].external, p.external));
      Symmetric(t.slots[b].external, p.external);
    }
    assert SlotOk(t.slots[i], t.live);
    forall socket | socket in u.live ensures Owned(socket, u.slots) {
      if socket in t.live {
        assert Owned(socket, t.slots);
        var k :| 0 <= k < |t.slots| && t.slots[k].socket == Some(socket);
        assert u.slots[k].socket == Some(socket);
      } else {
        assert u.slots[i].socket == Some(socket);
      }
    }
  }

  lemma ObeyKeeps(t: Table, command: Command)
    requires Ok(t) && command.peerId != 0
    ensures Ok(Obey(t, command))
  {
    var i := First(t.slots, WithId(command.peerId), 0);
    if i < |t.slots| {
      if command.Adopt? { SlotChanges(t, i, t.slots[i].(adopted := true)); } else { ClearKeeps(t, i); }
    }
  }

  lemma {:induction false} ReapKeeps(t: Table, now: int, i: nat)
    requires Ok(t) && i <= |t.slots|
    ensures Ok(Reap(t, now, i))
    decreases |t.slots| - i
  {
    if i < |t.slots| {
      if Idle(t.slots[i], now) { ClearKeeps(t, i); }
      ReapKeeps(if Idle(t.slots[i], now) then Clear(t, i) else t, now, i + 1);
    }
  }

  lemma ReceiveKeeps(t: Table, external: Endpoint, route: Option<Route>, socket: Option<nat>, now: int)
    requires Ok(t) && (route.Some? && route.value.connectionId == 0 ==> route.value.peerId != 0)
    requires socket.Some? ==> socket.value !in t.live
    ensures Ok(Receive(t, external, route, socket, now).table)
  {
    var known := First(t.slots, AtEndpoint(external), 0);
    if known < |t.slots| {
      if route.Some? { SlotChanges(t, known, t.slots[known].(connectionId := route.value.connectionId)); }
    } else if route.Some? {
      var routed, empty := First(t.slots, OnRoute(route.value), 0), First(t.slots, WithId(0), 0);
      if routed < |t.slots| {
        var p := t.slots[routed].(external := external);
        SlotChanges(t, routed, p);
        SlotChanges(t, routed, p.(connectionId := route.value.connectionId));
        assert t.slots[routed := p][routed := p.(connectionId := route.value.connectionId)]
            == t.slots[routed := p.(connectionId := route.value.connectionId)];
      } else if route.value.connectionId == 0 && empty < |t.slots| && socket.Some? {
        forall j | 0 <= j < |t.slots| ensures t.slots[j].peerId != route.value.peerId {
          assert !OnRoute(route.value)(t.slots[j]);
        }
        SlotFills(t, empty, Peer(route.value.peerId, t.slots[empty].connectionId, socket, external, now, t.slots[empty].adopted));
      }
    }
  }

  // ---------------------------------------------------------------- runs

  datatype Step =
    | Packet(external: Endpoint, route: Option<Route>, socket: Option<nat>, now: int)
    | Commanded(command: Command)
    | TimerFires(now: int)
    | SocketFails(slot: nat)

  /** Headers name a peer or a connection, commands name a peer, and a new socket is none of those in use. */
  predicate Possible(t: Table, step: Step) {
    match step
    case Packet(_, route, socket, _) =>
      && (route.Some? && route.value.connectionId == 0 ==> route.value.peerId != 0)
      && (socket.Some? ==> socket.value !in t.live)
    case Commanded(command) => command.peerId != 0
    case TimerFires(_) => true
    case SocketFails(slot) => slot < |t.slots|
  }

  function Next(t: Table, step: Step): Table
    requires Possible(t, step)
  {
    match step
    case Packet(external, route, socket, now) => Receive(t, external, route, socket, now).table
    case Commanded(command) => Obey(t, command)
    case TimerFires(now) => Reap(t, now, 0)
    case SocketFails(slot) => Clear(t, slot)
  }

  lemma StepKeeps(t: Table, step: Step)
    requires Ok(t) && Possible(t, step)
    ensures Ok(Next(t, step))
  {
    match step
    case Packet(external, route, socket, now) => ReceiveKeeps(t, external, route, socket, now);
    case Commanded(command) => ObeyKeeps(t, command);
    case TimerFires(now) => ReapKeeps(t, now, 0);
    case SocketFails(slot) => ClearKeeps(t, slot);
  }

  ghost predicate Runs(t: Table, steps: seq<Step>)
    decreases |steps|
  {
    steps == [] || (Possible(t, steps[0]) && Runs(Next(t, steps[0]), steps[1..]))
  }

  ghost function After(t: Table, steps: seq<Step>): Table
    requires Runs(t, steps)
    decreases |steps|
  {
    if steps == [] then t else After(Next(t, steps[0]), steps[1..])
  }

  function Start(): Table {
    Table(seq(SLOTS, _ => FREE), {})
  }

  lemma {:induction false} RunKeeps(t: Table, steps: seq<Step>)
    requires Ok(t) && Runs(t, steps)
    ensures Ok(After(t, steps))
    decreases |steps|
  {
    if steps != [] {
      StepKeeps(t, steps[0]);
      RunKeeps(Next(t, steps[0]), steps[1..]);
    }
  }

  lemma StartOk()
    ensures Ok(Start())
  {
  }

  // ---------------------------------------------------------------- what the steps do

  /** What of an endpoint counts: all of it but an IPv6 flow label. */
  function Plain(e: Endpoint): Endpoint {
    if e.V6? then e.(flow := 0) else e
  }

  /** Slot `i` is an occupied one at this endpoint, which is an IP one. */
  predicate At(t: Table, external: Endpoint, i: nat) {
    i < |t.slots| && t.slots[i].peerId != 0 && !external.OtherFamily? && Plain(t.slots[i].external) == Plain(external)
  }

  /** The header names the peer in slot `i`: by its number while it has no connection, else by the connection. */
  predicate Names(t: Table, route: Route, i: nat) {
    && i < |t.slots| && t.slots[i].peerId != 0
    && if route.connectionId == 0 then t.slots[i].peerId == route.peerId else t.slots[i].connectionId == route.connectionId
  }

  predicate Free(t: Table, i: nat) {
    i < |t.slots| && t.slots[i].peerId == 0
  }

  ghost predicate FirstNamed(t: Table, route: Route, i: nat) {
    Names(t, route, i) && forall j: nat :: j < i ==> !Names(t, route, j)
  }

  ghost predicate FirstFree(t: Table, i: nat) {
    Free(t, i) && forall j: nat :: j < i ==> !Free(t, j)
  }

  /** A peer learns the connection that the header brings. */
  function Connected(p: Peer, route: Option<Route>): Peer {
    if route.Some? && route.value.connectionId != 0 then p.(connectionId := route.value.connectionId) else p
  }

  function ForwardKnown(t: Table, i: nat, route: Option<Route>): Received
    requires i < |t.slots|
  {
    if route.Some? && route.value.connectionId == 0 && route.value.peerId != t.slots[i].peerId then Received(t, Ignored)
    else Received(t.(slots := t.slots[i := Connected(t.slots[i], route)]), Forwarded(i))
  }

  function ForwardNamed(t: Table, i: nat, route: Route, external: Endpoint): Received
    requires i < |t.slots|
  {
    Received(t.(slots := t.slots[i := Connected(t.slots[i].(external := external), Some(route))]), Forwarded(i))
  }

  function ForwardNew(t: Table, i: nat, peerId: nat, external: Endpoint, socket: nat, now: int): Received
    requires i < |t.slots|
  {
    Received(Table(t.slots[i := Peer(peerId, 0, Some(socket), external, now, false)], t.live + {socket}), Forwarded(i))
  }

  /** What a packet from an endpoint that no peer has does. */
  ghost predicate ReceivesUnknown(t: Table, external: Endpoint, route: Route, socket: Option<nat>, now: int, r: Received) {
    if exists i :: Names(t, route, i) then exists i: nat :: FirstNamed(t, route, i) && r == ForwardNamed(t, i, route, external)
    else if route.connectionId != 0 then r == Received(t, Ignored)
    else if !exists i :: Free(t, i) then r == Received(t, Rejected)
    else if socket.None? then r == Received(t, Ignored)
    else exists i: nat :: FirstFree(t, i) && r == ForwardNew(t, i, route.peerId, external, socket.value, now)
  }

  /**
   What a packet does: it goes to the peer at its endpoint unless its header names another; else to the peer that
   its header names, who has moved; else, if it is connectionless and has a socket, to a new peer in a free slot.
   It is turned away exactly when it would need a slot and there is none.
   */
  ghost predicate Receives(t: Table, external: Endpoint, route: Option<Route>, socket: Option<nat>, now: int, r: Received) {
    if exists i :: At(t, external, i) then exists i: nat :: At(t, external, i) && r == ForwardKnown(t, i, route)
    else if route.None? then r == Received(t, Ignored)
    else ReceivesUnknown(t, external, route.value, socket, now, r)
  }

  lemma FindsKnown(t: Table, external: Endpoint)
    ensures var i := First(t.slots, AtEndpoint(external), 0); if i < |t.slots| then At(t, external, i) else !exists j :: At(t, external, j)
  {
    var i := First(t.slots, AtEndpoint(external), 0);
    forall j: nat | i == |t.slots| ensures !At(t, external, j) {
      if j < |t.slots| { assert !AtEndpoint(external)(t.slots[j]); }
    }
  }

  lemma FindsNamed(t: Table, route: Route)
    ensures var i := First(t.slots, OnRoute(route), 0); if i < |t.slots| then FirstNamed(t, route, i) else !exists j :: Names(t, route, j)
  {
    var i := First(t.slots, OnRoute(route), 0);
    forall j: nat | j < i ensures !Names(t, route, j) { assert !OnRoute(route)(t.slots[j]); }
  }

  lemma FindsFree(t: Table)
    ensures var i := First(t.slots, WithId(0), 0); if i < |t.slots| then FirstFree(t, i) else !exists j :: Free(t, j)
  {
    var i := First(t.slots, WithId(0), 0);
    forall j: nat | j < i ensures !Free(t, j) { assert !WithId(0)(t.slots[j]); }
  }

  lemma ReceiveIs(t: Table, external: Endpoint, route: Option<Route>, socket: Option<nat>, now: int)
    requires Ok(t)
    ensures Receives(t, external, route, socket, now, Receive(t, external, route, socket, now))
  {
    FindsKnown(t, external);
    var known := First(t.slots, AtEndpoint(external), 0);
    if known < |t.slots| {
      assert t.slots[known := t.slots[known]] == t.slots;
    } else if route.Some? {
      ReceiveUnknownIs(t, external, route.value, socket, now);
    }
  }

  lemma ReceiveUnknownIs(t: Table, external: Endpoint, route: Route, socket: Option<nat>, now: int)
    requires Ok(t) && First(t.slots, AtEndpoint(external), 0) == |t.slots|
    ensures ReceivesUnknown(t, external, route, socket, now, Receive(t, external, Some(route), socket, now))
  {
    FindsNamed(t, route);
    FindsFree(t);
    var named, empty := First(t.slots, OnRoute(route), 0), First(t.slots, WithId(0), 0);
    if named < |t.slots| {
      var p := t.slots[named].(external := external);
      assert t.slots[named := p][named := Connected(p, Some(route))] == t.slots[named := Connected(p, Some(route))];
      assert Receive(t, external, Some(route), socket, now) == ForwardNamed(t, named, route, external);
    } else if empty < |t.slots| {
      assert SlotOk(t.slots[empty], t.live);
      if route.connectionId == 0 && socket.Some? {
        assert Receive(t, external, Some(route), socket, now) == ForwardNew(t, empty, route.peerId, external, socket.value, now);
      }
    }
  }

  /** The same peer on the same game socket; only its public endpoint and connection may differ. */
  ghost predicate SamePeer(p: Peer, q: Peer) {
    && p.peerId == q.peerId && p.socket == q.socket && p.createdTick == q.createdTick && p.adopted == q.adopted
  }

  /**
     A forwarded packet goes to the peer that it belongs to: the one now at the packet's endpoint, and the one the
     header names. Every other slot stays, and an occupied slot keeps its peer and its game socket.
   */
  lemma ForwardsToTheRightPeer(t: Table, external: Endpoint, route: Option<Route>, socket: Option<nat>, now: int)
    requires Ok(t) && Receive(t, external, route, socket, now).outcome.Forwarded?
    ensures
      var r := Receive(t, external, route, socket, now);
      var i := r.outcome.slot;
      && i < |t.slots| && |r.table.slots| == |t.slots| && r.table.slots == t.slots[i := r.table.slots[i]]
      && (external.OtherFamily? || SameEndpoint(r.table.slots[i].external, external))
      && (route.Some? && route.value.connectionId == 0 ==> r.table.slots[i].peerId == route.value.peerId)
      && (route.Some? && route.value.connectionId != 0 ==> r.table.slots[i].connectionId == route.value.connectionId)
      && (t.slots[i].peerId != 0 ==> SamePeer(t.slots[i], r.table.slots[i]) && r.table.live == t.live)
      && (t.slots[i].peerId == 0 ==> route.Some? && r.table.slots[i] == Peer(route.value.peerId, 0, socket, external, now, false))
  {
    var r := Receive(t, external, route, socket, now);
    assert SlotOk(t.slots[r.outcome.slot], t.live);
  }

  /** A packet that is not forwarded changes nothing. */
  lemma OthersChangeNothing(t: Table, external: Endpoint, route: Option<Route>, socket: Option<nat>, now: int)
    ensures !Receive(t, external, route, socket, now).outcome.Forwarded? ==> Receive(t, external, route, socket, now).table == t
  {
  }

  /** A peer is turned away for want of room only when all slots are taken. */
  lemma RejectedWhenFull(t: Table, external: Endpoint, route: Option<Route>, socket: Option<nat>, now: int)
    requires Receive(t, external, route, socket, now).outcome.Rejected?
    ensures forall i :: 0 <= i < |t.slots| ==> t.slots[i].peerId != 0
  {
    forall i | 0 <= i < |t.slots| ensures t.slots[i].peerId != 0 {
      assert !WithId(0)(t.slots[i]);
    }
  }

  /** The timer clears exactly the idle peers: never an adopted one. */
  lemma {:induction false} ReapIsExact(t: Table, now: int, i: nat, j: nat)
    requires i <= |t.slots| && j < |t.slots|
    ensures
      var p := t.slots[j];
      var idle := p.peerId != 0 && !p.adopted && p.createdTick != 0 && now - p.createdTick >= 30000;
      Reap(t, now, i).slots[j] == if i <= j && idle then Peer(0, 0, None, OtherFamily, 0, false) else p
    decreases |t.slots| - i
  {
    if i < |t.slots| {
      ReapIsExact(if Idle(t.slots[i], now) then Clear(t, i) else t, now, i + 1, j);
    }
  }

  /** A command reaches the peer that it names, if there is one, and no other slot. */
  lemma ObeyIsExact(t: Table, command: Command, j: nat)
    requires Ok(t) && command.peerId != 0 && j < |t.slots|
    ensures Obey(t, command).slots[j]
         == if t.slots[j].peerId != command.peerId then t.slots[j]
            else if command.Adopt? then t.slots[j].(adopted := true)
            else FREE
  {
    var i := First(t.slots, WithId(command.peerId), 0);
    assert j < i ==> !WithId(command.peerId)(t.slots[j]);
    if i < j { assert Apart(t.slots[i], t.slots[j]); }
  }

  // ---------------------------------------------------------------- adopted peers over runs

  /** Slot `j` holds an adopted peer. */
  predicate AdoptedAt(t: Table, j: nat) {
    j < |t.slots| && t.slots[j].peerId != 0 && t.slots[j].adopted
  }

  /** The steps that end the peer in slot `j`: its release, or an error of its game socket. */
  predicate Ends(t: Table, j: nat, step: Step)
    requires j < |t.slots|
  {
    step == Commanded(Release(t.slots[j].peerId)) || step == SocketFails(j)
  }

  /** One step keeps an adopted peer and its game socket, or ends it, exactly when the step is one of those two. */
  lemma AdoptedStep(t: Table, j: nat, step: Step)
    requires Ok(t) && Possible(t, step) && AdoptedAt(t, j)
    ensures j < |Next(t, step).slots|
    ensures if Ends(t, j, step) then Next(t, step).slots[j] == FREE else SamePeer(t.slots[j], Next(t, step).slots[j])
  {
    match step
    case Packet(external, route, socket, now) =>
      if Receive(t, external, route, socket, now).outcome.Forwarded? {
        ForwardsToTheRightPeer(t, external, route, socket, now);
      } else {
        OthersChangeNothing(t, external, route, socket, now);
      }
    case Commanded(command) => ObeyIsExact(t, command, j);
    case TimerFires(now) => ReapIsExact(t, now, 0, j);
    case SocketFails(slot) =>
  }

  /** No step of the run ends the peer in slot `j`. */
  ghost predicate Undisturbed(t: Table, j: nat, steps: seq<Step>)
    requires Runs(t, steps) && j < |t.slots|
    decreases |steps|
  {
    steps == [] ||
    (!Ends(t, j, steps[0]) && j < |Next(t, steps[0]).slots| && Undisturbed(Next(t, steps[0]), j, steps[1..]))
  }

  /** Through any run, an adopted peer keeps its slot and its game socket until its release or a socket error. */
  lemma {:induction false} AdoptedStays(t: Table, j: nat, steps: seq<Step>)
    requires Ok(t) && AdoptedAt(t, j) && Runs(t, steps) && Undisturbed(t, j, steps)
    ensures j < |After(t, steps).slots| && SamePeer(t.slots[j], After(t, steps).slots[j])
    decreases |steps|
  {
    if steps != [] {
      StepKeeps(t, steps[0]);
      AdoptedStep(t, j, steps[0]);
      AdoptedStays(Next(t, steps[0]), j, steps[1..]);
    }
  }

  // ---------------------------------------------------------------- the table as it is kept

  /** The peer array, updated in place, and the sockets that are open. */
  class Relay {
    const peers: array<Peer>
    var live: set<nat>

    ghost function Now(): Table
      reads this, peers
    {
      Table(peers[..], live)
    }

    constructor ()
      ensures Now() == Start() && fresh(peers)
    {
      peers := new Peer[SLOTS](_ => FREE);
      live := {};
      new;
      assert peers[..] == Start().slots;
    }

    method ClearPeer(i: nat)
      requires i < peers.Length
      modifies this`live, peers
      ensures Now() == Clear(old(Now()), i)
    {
      if peers[i].socket.Some? { live := live - {peers[i].socket.value}; }
      peers[i] := FREE;
    }

    /** The loop of the three searches. */
    method Find(wanted: Peer -> bool) returns (i: nat)
      ensures i == First(peers[..], wanted, 0)
    {
      i := 0;
      while i < peers.Length && !wanted(peers[i])
        invariant i <= peers.Length && First(peers[..], wanted, 0) == First(peers[..], wanted, i)
      {
        i := i + 1;
      }
    }

    method ProcessCommand(command: Command)
      modifies this`live, peers
      ensures Now() == Obey(old(Now()), command)
    {
      var i := Find(WithId(command.peerId));
      if i == peers.Length { return; }
      if command.Adopt? {
        peers[i] := peers[i].(adopted := true);
      } else {
        ClearPeer(i);
      }
    }

    method ReapUnadopted(now: int)
      modifies this`live, peers
      ensures Now() == Reap(old(Now()), now, 0)
    {
      for i := 0 to peers.Length
        invariant Reap(old(Now()), now, 0) == Reap(Now(), now, i)
      {
        if Idle(peers[i], now) { ClearPeer(i); }
      }
    }

    method ReceivePacket(external: Endpoint, route: Option<Route>, socket: Option<nat>, now: int) returns (outcome: Outcome)
      modifies this`live, peers
      ensures Received(Now(), outcome) == Receive(old(Now()), external, route, socket, now)
      ensures Ok(old(Now())) ==> Receives(old(Now()), external, route, socket, now, Received(Now(), outcome))
    {
      if Ok(Now()) { ReceiveIs(Now(), external, route, socket, now); }
      outcome := HandlePacket(external, route, socket, now);
    }

    method HandlePacket(external: Endpoint, route: Option<Route>, socket: Option<nat>, now: int) returns (outcome: Outcome)
      modifies this`live, peers
      ensures Received(Now(), outcome) == Receive(old(Now()), external, route, socket, now)
    {
      var i := Find(AtEndpoint(external));
      if i == peers.Length && route.None? { return Ignored; }
      var connectionless := route.Some? && route.value.connectionId == 0;
      if i < peers.Length && connectionless && peers[i].peerId != route.value.peerId { return Ignored; }
      if i == peers.Length {
        i := Find(OnRoute(route.value));
        if i == peers.Length && !connectionless { return Ignored; }
        if i < peers.Length { peers[i] := peers[i].(external := external); }
      }
      if i == peers.Length {
        i := Find(WithId(0));
        if i == peers.Length { return Rejected; }
        if socket.None? { return Ignored; }
        live := live + {socket.value};
        peers[i] := peers[i].(peerId := route.value.peerId, socket := socket, external := external, createdTick := now);
      }
      if route.Some? && !connectionless { peers[i] := peers[i].(connectionId := route.value.connectionId); }
      return Forwarded(i);
    }
  }
}
