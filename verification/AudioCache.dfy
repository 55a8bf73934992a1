/**
 The shared audio cache (internal/player): budgeted entries with leases, two kinds of producer per key,
 and eviction. Every critical section of the mutex is one step. What lives outside the mutex is part of
 the state too: running builds and captures, held leases, and buffers that somebody still has to free.
 */
module AudioCache {
  import opened Common

  datatype Key = Pcm(path: string, channels: nat, pos: real, duration: real) | Raw(path: string)

  /** Times are milliseconds; 0 is the zero time. */
  datatype Usage = Usage(plays: nat, lastPlay: int, retryAfter: int, tooLarge: bool)

  /**
   Who frees a buffer. `Cached` stands for the asset's cached flag, `Freed` for its missing pointer, and
   `Doomed` for a buffer that left the cache in a critical section of the player or of a build worker,
   which frees it next.
   */
  datatype Owner = Producer(job: nat) | Cached(key: Key) | Leased | Victim | Doomed(byPlayer: bool) | Freed

  datatype Buffer = Buffer(bytes: nat, lastUsed: int, refs: int, owner: Owner, frees: nat)

  datatype Kind = Build | Capture

  /** A running background build or first-play capture, and what it has reserved. */
  datatype Job = Job(kind: Kind, key: Key, reservation: int, buffer: Option<nat>)

  datatype Failure = TooLarge | Closing | NoBudget | OtherFailure

  datatype Cache = Cache(
    maxBytes: nat, entries: map<Key, nat>, usage: map<Key, Usage>, building: set<Key>, capturing: set<Key>,
    resident: int, reserved: int, reclaiming: int, closing: bool, closed: bool, lastPrune: int,
    jobs: map<nat, Job>, buffers: map<nat, Buffer>, leases: map<nat, nat>, evicting: Option<nat>)

  const RETENTION: int := 300000

  function Empty(maxBytes: nat, now: int): Cache {
    Cache(maxBytes, map[], map[], {}, {}, 0, 0, 0, false, false, now, map[], map[], map[], None)
  }

  function Used(s: Cache): int {
    s.resident + s.reserved + s.reclaiming
  }

  // ---------------------------------------------------------------- usage and leases

  /** pruneUsageLocked (audio_cache.go:142-165). */
  function Prune(s: Cache, now: int): (t: Cache)
    ensures t.maxBytes == s.maxBytes && t.closing == s.closing && t.entries == s.entries
  {
    if now - s.lastPrune < RETENTION then s
    else
      s.(usage := map key | key in s.usage && !Stale(s, key, now) :: s.usage[key], lastPrune := now)
  }

  predicate Stale(s: Cache, key: Key, now: int)
    requires key in s.usage
  {
    s.usage[key].lastPlay < now - RETENTION && key !in s.entries && key !in s.building && key !in s.capturing
  }

  /** observeCacheUsage. */
  function Played(u: Usage, now: int): Usage {
    u.(plays := (if u.lastPlay != 0 && now - u.lastPlay > RETENTION then 0 else u.plays) + 1, lastPlay := now)
  }

  /** acquirePCMLocked and acquireRawLocked; `lease` names the new lease. */
  function Acquire(s: Cache, key: Key, now: int, lease: nat): (t: Cache)
    ensures t.maxBytes == s.maxBytes && t.closing == s.closing && t.entries == s.entries
  {
    if key !in s.entries || s.entries[key] !in s.buffers then s
    else
      var id := s.entries[key];
      var b := s.buffers[id];
      s.(buffers := s.buffers[id := b.(refs := b.refs + 1, lastUsed := now)], leases := s.leases[lease := id])
  }

  /** acquireOrObserve. */
  function Observe(s: Cache, key: Key, now: int, lease: nat): (t: Cache)
    ensures t.maxBytes == s.maxBytes && t.closing == s.closing && t.entries == s.entries
  {
    var p := Prune(s, now);
    var u := if key in p.usage then p.usage[key] else Usage(0, 0, 0, false);
    Acquire(p.(usage := p.usage[key := Played(u, now)]), key, now, lease)
  }

  /** acquirePCM and acquireRaw, between repetitions. */
  function Reacquire(s: Cache, key: Key, now: int, lease: nat): (t: Cache)
    ensures t.maxBytes == s.maxBytes && t.closing == s.closing && t.entries == s.entries
  {
    var u := if key in s.usage then s.usage[key := s.usage[key].(lastPlay := now)] else s.usage;
    Acquire(s.(usage := u), key, now, lease)
  }

  /** A lease's release: the last one frees a buffer that the cache no longer holds. */
  function Release(s: Cache, lease: nat): (t: Cache)
    requires lease in s.leases && s.leases[lease] in s.buffers
    ensures t.maxBytes == s.maxBytes && t.closing == s.closing && t.entries == s.entries
  {
    var id := s.leases[lease];
    var b := s.buffers[id];
    var last := b.refs == 1 && b.owner.Leased?;
    s.(buffers := s.buffers[id := b.(refs := b.refs - 1, owner := if last then Doomed(true) else b.owner)],
       leases := s.leases - {lease})
  }

  // ---------------------------------------------------------------- starting producers

  /** schedulePCMBuildWithMinimumUsage and its raw twin; `room` says whether the bounded queue took the job. */
  function Schedule(s: Cache, key: Key, minimum: nat, now: int, room: bool, job: nat): (t: Cache)
    ensures t.leases == s.leases && t.buffers == s.buffers
    ensures t.maxBytes == s.maxBytes && t.closing == s.closing && t.entries == s.entries
  {
    if key !in s.usage then s
    else
      var u := s.usage[key];
      var v := if u.plays < minimum then u.(plays := minimum, lastPlay := now) else u;
      var t := s.(usage := s.usage[key := v]);
      if key !in s.entries && key !in s.capturing && key !in s.building && s.maxBytes > 0 && v.plays >= 2 &&
         !v.tooLarge && v.retryAfter <= now && !s.closing && room
      then t.(building := s.building + {key}, jobs := s.jobs[job := Job(Build, key, 0, None)])
      else t
  }

  /** beginPCMCapture. */
  function BeginCapture(s: Cache, key: Key, now: int, job: nat): (t: Cache)
    ensures t.leases == s.leases && t.buffers == s.buffers
    ensures t.maxBytes == s.maxBytes && t.closing == s.closing && t.entries == s.entries
  {
    if s.closing || s.maxBytes == 0 || key !in s.usage || s.usage[key].tooLarge || now < s.usage[key].retryAfter ||
       key in s.entries || key in s.building || key in s.capturing
    then s
    else s.(capturing := s.capturing + {key}, jobs := s.jobs[job := Job(Capture, key, 0, None)])
  }

  // ---------------------------------------------------------------- reserving and evicting

  function Reserve(s: Cache, job: nat, bytes: int): (t: Cache)
    requires job in s.jobs
    ensures t.leases == s.leases && t.buffers == s.buffers
    ensures t.maxBytes == s.maxBytes && t.closing == s.closing && t.entries == s.entries
  {
    var j := s.jobs[job];
    s.(reserved := s.reserved + bytes, jobs := s.jobs[job := j.(reservation := j.reservation + bytes)])
  }

  /** tryReserve, which captures use. */
  function TryReserve(s: Cache, job: nat, bytes: int): (t: Cache)
    requires job in s.jobs
    ensures t.leases == s.leases && t.buffers == s.buffers
    ensures t.maxBytes == s.maxBytes && t.closing == s.closing && t.entries == s.entries
  {
    if bytes > 0 && !s.closing && Used(s) + bytes <= s.maxBytes then Reserve(s, job, bytes) else s
  }

  /** An entry that eviction may take: not referenced, and not played twice with the last play recent. */
  predicate Evictable(s: Cache, key: Key, now: int) {
    && key in s.entries && s.entries[key] in s.buffers && s.buffers[s.entries[key]].refs == 0
    && !(key in s.usage && s.usage[key].plays >= 2 && now - s.usage[key].lastPlay < RETENTION)
  }

  function LastUsed(s: Cache, key: Key): int
    requires key in s.entries && s.entries[key] in s.buffers
  {
    s.buffers[s.entries[key]].lastUsed
  }

  /** The least recently used evictable entry of its kind. */
  ghost predicate OldestOfKind(s: Cache, now: int, key: Key) {
    && Evictable(s, key, now)
    && forall other :: Evictable(s, other, now) && other.Pcm? == key.Pcm? ==> LastUsed(s, key) <= LastUsed(s, other)
  }

  /** detachOneLocked's choice: the older of the two kinds' oldest, and the raw one when they tie. */
  ghost predicate IsVictim(s: Cache, now: int, key: Key) {
    && OldestOfKind(s, now, key)
    && forall other :: Evictable(s, other, now) && other.Pcm? != key.Pcm? ==>
                         if key.Pcm? then LastUsed(s, key) < LastUsed(s, other) else LastUsed(s, key) <= LastUsed(s, other)
  }

  function Detach(s: Cache, key: Key): (t: Cache)
    requires key in s.entries && s.entries[key] in s.buffers
    ensures t.leases == s.leases && t.maxBytes == s.maxBytes && t.closing == s.closing
  {
    var id := s.entries[key];
    var b := s.buffers[id];
    s.(entries := s.entries - {key}, resident := s.resident - b.bytes, reclaiming := s.reclaiming + b.bytes,
       buffers := s.buffers[id := b.(owner := Victim)], evicting := Some(id))
  }

  /** One turn of the loop of reserveWithEviction, which holds the eviction lock: reserve, detach or give up. */
  function ReserveTurn(s: Cache, job: nat, bytes: int, victim: Option<Key>): (t: Cache)
    requires job in s.jobs
    requires victim.Some? ==> victim.value in s.entries && s.entries[victim.value] in s.buffers
    ensures t.leases == s.leases && t.maxBytes == s.maxBytes && t.closing == s.closing
  {
    if bytes <= 0 || s.closing then s
    else if Used(s) + bytes <= s.maxBytes then Reserve(s, job, bytes)
    else if victim.Some? then Detach(s, victim.value)
    else s
  }

  function Free(s: Cache, id: nat): (t: Cache)
    requires id in s.buffers
    ensures t.leases == s.leases && t.maxBytes == s.maxBytes && t.closing == s.closing && t.entries == s.entries
  {
    var b := s.buffers[id];
    s.(buffers := s.buffers[id := b.(owner := Freed, frees := b.frees + 1)])
  }

  function EvictionDone(s: Cache): (t: Cache)
    requires s.evicting.Some? && s.evicting.value in s.buffers
    ensures t.leases == s.leases && t.buffers == s.buffers
    ensures t.maxBytes == s.maxBytes && t.closing == s.closing && t.entries == s.entries
  {
    s.(reclaiming := s.reclaiming - s.buffers[s.evicting.value].bytes, evicting := None)
  }

  // ---------------------------------------------------------------- the producer's own buffer

  /** The job's buffer becomes `bytes` long; `id` names it when it is new. */
  function Allocate(s: Cache, job: nat, bytes: nat, id: nat): (t: Cache)
    requires job in s.jobs
    requires s.jobs[job].buffer.Some? ==> s.jobs[job].buffer.value in s.buffers
    ensures t.leases == s.leases && t.maxBytes == s.maxBytes && t.closing == s.closing && t.entries == s.entries
  {
    match s.jobs[job].buffer
    case Some(own) => s.(buffers := s.buffers[own := s.buffers[own].(bytes := bytes)])
    case None =>
      s.(buffers := s.buffers[id := Buffer(bytes, 0, 0, Producer(job), 0)],
         jobs := s.jobs[job := s.jobs[job].(buffer := Some(id))])
  }

  function FreeOwn(s: Cache, job: nat): (t: Cache)
    requires job in s.jobs && s.jobs[job].buffer.Some? && s.jobs[job].buffer.value in s.buffers
    ensures t.leases == s.leases && t.maxBytes == s.maxBytes && t.closing == s.closing && t.entries == s.entries
  {
    var j := s.jobs[job];
    Free(s, j.buffer.value).(jobs := s.jobs[job := j.(buffer := None)])
  }

  // ---------------------------------------------------------------- ending producers

  /** The job leaves its set and gives its reservation back. */
  function EndJob(s: Cache, job: nat): (t: Cache)
    requires job in s.jobs
    ensures t.leases == s.leases && t.buffers == s.buffers
    ensures t.maxBytes == s.maxBytes && t.closing == s.closing && t.entries == s.entries
  {
    var j := s.jobs[job];
    s.(building := if j.kind.Build? then s.building - {j.key} else s.building,
       capturing := if j.kind.Capture? then s.capturing - {j.key} else s.capturing,
       reserved := s.reserved - j.reservation, jobs := s.jobs - {job})
  }

  function GiveTo(s: Cache, id: nat, owner: Owner): (t: Cache)
    requires id in s.buffers
    ensures t.leases == s.leases && t.maxBytes == s.maxBytes && t.closing == s.closing && t.entries == s.entries
  {
    s.(buffers := s.buffers[id := s.buffers[id].(owner := owner)])
  }

  /** A successful build or capture: commitPCMLocked or commitRawLocked in its critical section. */
  function Commit(s: Cache, job: nat, now: int): (t: Cache)
    requires job in s.jobs && s.jobs[job].buffer.Some? && s.jobs[job].buffer.value in s.buffers
    ensures t.leases == s.leases && t.maxBytes == s.maxBytes && t.closing == s.closing
    ensures s.entries.Keys <= t.entries.Keys
  {
    var j, id, t := s.jobs[job], s.jobs[job].buffer.value, EndJob(s, job);
    if s.closing || j.key in s.entries then GiveTo(t, id, Doomed(j.kind.Capture?))
    else
      t.(entries := s.entries[j.key := id], resident := s.resident + s.buffers[id].bytes,
         buffers := s.buffers[id := s.buffers[id].(owner := Cached(j.key), lastUsed := now)])
  }

  /** A build that failed: the end of buildPCM or finishRawBuild. Its buffer is gone already. */
  function FailBuild(s: Cache, job: nat, failure: Failure, now: int): (t: Cache)
    requires job in s.jobs && s.jobs[job].key in s.usage
    ensures t.leases == s.leases && t.buffers == s.buffers
    ensures t.maxBytes == s.maxBytes && t.closing == s.closing && t.entries == s.entries
  {
    var key, t := s.jobs[job].key, EndJob(s, job);
    var u := s.usage[key].(tooLarge := s.usage[key].tooLarge || failure.TooLarge?);
    var retry := !s.closing && key !in s.entries && !u.tooLarge && !failure.Closing? && !failure.NoBudget?;
    t.(usage := s.usage[key := if retry then u.(retryAfter := now + RETENTION) else u])
  }

  /** What an abort's reason leaves in the key's usage record. */
  function AbortUsage(s: Cache, key: Key, failure: Option<Failure>, now: int): (usage: map<Key, Usage>)
    ensures s.usage.Keys <= usage.Keys
  {
    if failure.None? || key !in s.usage || key in s.entries then s.usage
    else if failure.value.TooLarge? then s.usage[key := s.usage[key].(tooLarge := true)]
    else if key !in s.building && !failure.value.NoBudget?
    then s.usage[key := s.usage[key].(retryAfter := now + RETENTION)]
    else s.usage
  }

  /** pcmCapture.abort: the reservation is returned before the buffer is freed. */
  function AbortCapture(s: Cache, job: nat, failure: Option<Failure>, now: int): (t: Cache)
    requires job in s.jobs && (s.jobs[job].buffer.Some? ==> s.jobs[job].buffer.value in s.buffers)
    ensures t.leases == s.leases && t.maxBytes == s.maxBytes && t.closing == s.closing && t.entries == s.entries
  {
    var j := s.jobs[job];
    var v := EndJob(s.(usage := AbortUsage(s, j.key, failure, now)), job);
    if j.buffer.Some? then GiveTo(v, j.buffer.value, Doomed(true)) else v
  }

  // ---------------------------------------------------------------- closing

  function Uncached(b: Buffer): Buffer {
    if !b.owner.Cached? then b else b.(owner := if b.refs == 0 then Doomed(true) else Leased)
  }

  /** The second half of close, after the build workers have ended. */
  function CloseEntries(s: Cache): (t: Cache)
    ensures t.leases == s.leases && t.maxBytes == s.maxBytes && t.closing == s.closing
  {
    s.(entries := map[], resident := 0, closed := true, buffers := map id | id in s.buffers :: Uncached(s.buffers[id]))
  }

  // ---------------------------------------------------------------- steps

  datatype Step =
    | Observing(key: Key, now: int, lease: nat)
    | Reacquiring(key: Key, now: int, lease: nat)
    | Releasing(lease: nat)
    | Scheduling(key: Key, minimum: nat, now: int, room: bool, job: nat)
    | BeginningCapture(key: Key, now: int, job: nat)
    | TryingReserve(job: nat, wanted: int)
    | ReserveTurning(job: nat, wanted: int, now: int, victim: Option<Key>)
    | FreeingVictim
    | EndingEviction
    | Unreserving(job: nat, wanted: int)
    | Allocating(job: nat, bytes: nat, id: nat)
    | FreeingOwn(job: nat)
    | Committing(job: nat, now: int)
    | FailingBuild(job: nat, failure: Failure, now: int)
    | AbortingCapture(job: nat, reason: Option<Failure>, now: int)
    | FreeingDoomed(id: nat)
    | ClosingDown
    | ClosingEntries

  // ---------------------------------------------------------------- the invariant

  /** The two kinds of running producer and the cached entries never share a key. */
  ghost predicate KeysApart(entries: map<Key, nat>, building: set<Key>, capturing: set<Key>) {
    entries.Keys !! building && entries.Keys !! capturing && building !! capturing
  }

  /** Every cached, building or capturing key has a usage record. */
  ghost predicate UsageKept(usage: map<Key, Usage>, entries: map<Key, nat>, building: set<Key>, capturing: set<Key>) {
    entries.Keys + building + capturing <= usage.Keys
  }

  ghost predicate JobListed(j: Job, building: set<Key>, capturing: set<Key>) {
    if j.kind.Build? then j.key in building else j.key in capturing && j.key.Pcm?
  }

  ghost predicate SameKey(jobs: map<nat, Job>, a: nat, b: nat) {
    a in jobs && b in jobs && jobs[a].key == jobs[b].key
  }

  ghost predicate HasJob(key: Key, jobs: map<nat, Job>) {
    exists j :: j in jobs && jobs[j].key == key
  }

  /** The sets list exactly the running producers, one per key. */
  ghost predicate JobsListed(jobs: map<nat, Job>, building: set<Key>, capturing: set<Key>) {
    && (forall j :: j in jobs ==> JobListed(jobs[j], building, capturing))
    && (forall a, b :: SameKey(jobs, a, b) ==> a == b)
    && (forall key :: key in building + capturing ==> HasJob(key, jobs))
  }

  /** A producer's buffer fits its reservation. */
  ghost predicate JobFits(job: nat, j: Job, buffers: map<nat, Buffer>) {
    && 0 <= j.reservation
    && (j.buffer.Some? ==>
          && j.buffer.value in buffers && buffers[j.buffer.value].owner == Producer(job)
          && buffers[j.buffer.value].bytes <= j.reservation)
  }

  ghost predicate EntryOwned(key: Key, id: nat, buffers: map<nat, Buffer>) {
    id in buffers && buffers[id].owner == Cached(key)
  }

  /** A buffer's owner really has it, only cached and leased buffers are referenced, and freeing happens once. */
  ghost predicate Owned(id: nat, b: Buffer, entries: map<Key, nat>, jobs: map<nat, Job>, evicting: Option<nat>, closed: bool) {
    && (match b.owner
        case Producer(job) => job in jobs && jobs[job].buffer == Some(id) && b.refs == 0
        case Cached(key) => key in entries && entries[key] == id
        case Leased => b.refs > 0 && closed
        case Victim => evicting == Some(id) && b.refs == 0
        case Doomed(_) => b.refs == 0
        case Freed => b.refs == 0)
    && b.frees == (if b.owner.Freed? then 1 else 0)
  }

  ghost predicate Evicting(id: nat, buffers: map<nat, Buffer>) {
    id in buffers && (buffers[id].owner.Victim? || buffers[id].owner.Freed?)
  }

  ghost predicate OwnersOk(entries: map<Key, nat>, jobs: map<nat, Job>, buffers: map<nat, Buffer>, evicting: Option<nat>, closed: bool) {
    && (forall job :: job in jobs ==> JobFits(job, jobs[job], buffers))
    && (forall key :: key in entries ==> EntryOwned(key, entries[key], buffers))
    && (forall id :: id in buffers ==> Owned(id, buffers[id], entries, jobs, evicting, closed))
    && (evicting.Some? ==> Evicting(evicting.value, buffers))
  }

  ghost function PointsTo(id: nat): nat -> int {
    target => if target == id then 1 else 0
  }

  /** `refs` counts the leases. */
  ghost predicate RefsCount(buffers: map<nat, Buffer>, leases: map<nat, nat>) {
    && (forall lease :: lease in leases ==> leases[lease] in buffers)
    && (forall id :: id in buffers ==> buffers[id].refs == Total(leases, PointsTo(id)))
  }

  function CachedBytes(b: Buffer): int {
    if b.owner.Cached? then b.bytes else 0
  }

  function Reservation(j: Job): int {
    j.reservation
  }

  function Reclaimed(evicting: Option<nat>, buffers: map<nat, Buffer>): int {
    if evicting.Some? && evicting.value in buffers then buffers[evicting.value].bytes else 0
  }

  /** The three counters are the sums they stand for, and fit the budget together. */
  ghost predicate Accounts(s: Cache) {
    && s.resident == Total(s.buffers, CachedBytes)
    && s.reserved == Total(s.jobs, Reservation)
    && s.reclaiming == Reclaimed(s.evicting, s.buffers)
    && Used(s) <= s.maxBytes
  }

  ghost predicate Ok(s: Cache) {
    && KeysApart(s.entries, s.building, s.capturing)
    && UsageKept(s.usage, s.entries, s.building, s.capturing)
    && JobsListed(s.jobs, s.building, s.capturing)
    && OwnersOk(s.entries, s.jobs, s.buffers, s.evicting, s.closed)
    && RefsCount(s.buffers, s.leases)
    && Accounts(s)
    && (s.closed ==> s.closing && s.entries == map[])
  }

  // ---------------------------------------------------------------- steps

  /** What a job still holds. */
  function HeldBytes(s: Cache, job: nat): int
    requires job in s.jobs
  {
    var b := s.jobs[job].buffer;
    if b.Some? && b.value in s.buffers then s.buffers[b.value].bytes else 0
  }

  /** The steps of the player goroutine, which makes every lease and runs every capture. */
  predicate OnPlayer(s: Cache, step: Step) {
    match step
    case Unreserving(job, _) => job in s.jobs && s.jobs[job].kind.Capture?
    case Allocating(job, _, _) => job in s.jobs && s.jobs[job].kind.Capture?
    case Committing(job, _) => job in s.jobs && s.jobs[job].kind.Capture?
    case ReserveTurning(_, _, _, _) => false
    case FreeingVictim => false
    case EndingEviction => false
    case FreeingOwn(_) => false
    case FailingBuild(_, _, _) => false
    case FreeingDoomed(_) => false
    case _ => true
  }

  /** The player frees what it took out of the cache before it does anything else. */
  ghost predicate PlayerFree(s: Cache) {
    forall id :: id in s.buffers ==> s.buffers[id].owner != Doomed(true)
  }

  /** When each critical section can happen: what the code outside the mutex ensures. */
  ghost predicate Allowed(s: Cache, step: Step) {
    Possible(s, step) && (OnPlayer(s, step) ==> PlayerFree(s))
  }

  ghost predicate Possible(s: Cache, step: Step) {
    match step
    case Observing(_, _, lease) => lease !in s.leases
    case Reacquiring(_, _, lease) => lease !in s.leases
    case Releasing(lease) => lease in s.leases
    case Scheduling(_, _, _, _, job) => job !in s.jobs
    case BeginningCapture(key, _, job) => job !in s.jobs && key.Pcm?
    case TryingReserve(job, _) => job in s.jobs && s.jobs[job].kind.Capture?
    case ReserveTurning(job, _, now, victim) =>
      && job in s.jobs && s.jobs[job].kind.Build? && s.evicting.None?
      && if victim.Some? then IsVictim(s, now, victim.value) else forall key :: !Evictable(s, key, now)
    case FreeingVictim => s.evicting.Some? && s.evicting.value in s.buffers && s.buffers[s.evicting.value].owner.Victim?
    case EndingEviction => s.evicting.Some? && s.evicting.value in s.buffers && s.buffers[s.evicting.value].owner.Freed?
    case Unreserving(job, wanted) => job in s.jobs && 0 <= wanted && HeldBytes(s, job) <= s.jobs[job].reservation - wanted
    case Allocating(job, bytes, id) => job in s.jobs && bytes <= s.jobs[job].reservation && id !in s.buffers
    case FreeingOwn(job) => job in s.jobs && s.jobs[job].kind.Build? && s.jobs[job].buffer.Some?
    case Committing(job, _) => job in s.jobs && s.jobs[job].buffer.Some?
    case FailingBuild(job, failure, _) =>
      && job in s.jobs && s.jobs[job].kind.Build? && s.jobs[job].buffer.None?
      && (s.jobs[job].key.Pcm? ==> s.jobs[job].reservation == 0)
      && (s.jobs[job].key.Raw? && failure.TooLarge? ==> s.jobs[job].reservation == s.maxBytes)
    case AbortingCapture(job, _, _) => job in s.jobs && s.jobs[job].kind.Capture?
    case FreeingDoomed(id) => id in s.buffers && s.buffers[id].owner.Doomed?
    case ClosingDown => !s.closing
    case ClosingEntries =>
      s.closing && !s.closed && s.evicting.None? && forall job :: job in s.jobs ==> s.jobs[job].kind.Capture?
  }

  ghost function Next(s: Cache, step: Step): Cache
    requires Ok(s) && Allowed(s, step)
  {
    match step
    case Observing(key, now, lease) => Observe(s, key, now, lease)
    case Reacquiring(key, now, lease) => Reacquire(s, key, now, lease)
    case Releasing(lease) => Release(s, lease)
    case Scheduling(key, minimum, now, room, job) => Schedule(s, key, minimum, now, room, job)
    case BeginningCapture(key, now, job) => BeginCapture(s, key, now, job)
    case TryingReserve(job, bytes) => TryReserve(s, job, bytes)
    case ReserveTurning(job, bytes, _, victim) => ReserveTurn(s, job, bytes, victim)
    case FreeingVictim => Free(s, s.evicting.value)
    case EndingEviction => EvictionDone(s)
    case Unreserving(job, wanted) => Reserve(s, job, -wanted)
    case Allocating(job, bytes, id) => Allocate(s, job, bytes, id)
    case FreeingOwn(job) => FreeOwn(s, job)
    case Committing(job, now) => Commit(s, job, now)
    case FailingBuild(job, failure, now) =>
      BuildHasUsage(s, job);
      FailBuild(s, job, failure, now)
    case AbortingCapture(job, failure, now) => AbortCapture(s, job, failure, now)
    case FreeingDoomed(id) => Free(s, id)
    case ClosingDown => s.(closing := true)
    case ClosingEntries => CloseEntries(s)
  }

  /** The unguarded use of the usage record when a build ends is safe. */
  lemma BuildHasUsage(s: Cache, job: nat)
    requires Ok(s) && job in s.jobs
    ensures s.jobs[job].key in s.usage
  {
    assert JobListed(s.jobs[job], s.building, s.capturing);
    assert s.jobs[job].key in s.building + s.capturing;
  }

  // ---------------------------------------------------------------- what every step keeps

  lemma PruneKeeps(s: Cache, now: int)
    requires Ok(s)
    ensures Ok(Prune(s, now)) && Prune(s, now) == s.(usage := Prune(s, now).usage, lastPrune := Prune(s, now).lastPrune)
  {
    assert UsageKept(Prune(s, now).usage, s.entries, s.building, s.capturing);
  }

  lemma PointsToSplit(leases: map<nat, nat>, lease: nat, target: nat, id: nat)
    requires lease !in leases
    ensures Total(leases[lease := target], PointsTo(id)) == Total(leases, PointsTo(id)) + if target == id then 1 else 0
  {
    TotalUpdate(leases, PointsTo(id), lease, target);
  }

  /** A buffer changes in fields that no sum counts. */
  lemma SameBytes(buffers: map<nat, Buffer>, evicting: Option<nat>, id: nat, b: Buffer)
    requires id in buffers && CachedBytes(b) == CachedBytes(buffers[id]) && b.bytes == buffers[id].bytes
    ensures Total(buffers[id := b], CachedBytes) == Total(buffers, CachedBytes)
    ensures Reclaimed(evicting, buffers[id := b]) == Reclaimed(evicting, buffers)
  {
    TotalUpdate(buffers, CachedBytes, id, b);
  }

  lemma RefsAfterAcquire(buffers: map<nat, Buffer>, leases: map<nat, nat>, id: nat, b: Buffer, lease: nat)
    requires RefsCount(buffers, leases) && lease !in leases && id in buffers && b.refs == buffers[id].refs + 1
    ensures RefsCount(buffers[id := b], leases[lease := id])
  {
    forall x | x in buffers ensures buffers[id := b][x].refs == Total(leases[lease := id], PointsTo(x)) {
      PointsToSplit(leases, lease, id, x);
    }
  }

  lemma RefsAfterRelease(buffers: map<nat, Buffer>, leases: map<nat, nat>, b: Buffer, lease: nat)
    requires RefsCount(buffers, leases) && lease in leases && b.refs == buffers[leases[lease]].refs - 1
    ensures RefsCount(buffers[leases[lease] := b], leases - {lease})
    ensures b.refs >= 0
  {
    var id := leases[lease];
    forall x | x in buffers ensures buffers[id := b][x].refs == Total(leases - {lease}, PointsTo(x)) {
      TotalSplit(leases, PointsTo(x), lease);
    }
    TotalNonNegative(leases - {lease}, PointsTo(id));
  }

  lemma RefsSame(buffers: map<nat, Buffer>, leases: map<nat, nat>, id: nat, b: Buffer)
    requires RefsCount(buffers, leases) && id in buffers && b.refs == buffers[id].refs
    ensures RefsCount(buffers[id := b], leases)
  {
  }

  /** Buffer `id` changes, but not whose it is. */
  lemma BufferChanges(entries: map<Key, nat>, jobs: map<nat, Job>, buffers: map<nat, Buffer>, evicting: Option<nat>, closed: bool,
                      id: nat, b: Buffer)
    requires OwnersOk(entries, jobs, buffers, evicting, closed) && id in buffers
    requires b.owner == buffers[id].owner && Owned(id, b, entries, jobs, evicting, closed)
    requires b.owner.Producer? ==> b.bytes <= jobs[b.owner.job].reservation
    ensures OwnersOk(entries, jobs, buffers[id := b], evicting, closed)
  {
    var after := buffers[id := b];
    forall job | job in jobs ensures JobFits(job, jobs[job], after) {
      assert JobFits(job, jobs[job], buffers);
    }
    forall key | key in entries ensures EntryOwned(key, entries[key], after) {
      assert EntryOwned(key, entries[key], buffers);
    }
    forall x | x in after ensures Owned(x, after[x], entries, jobs, evicting, closed) {
      if x != id { assert Owned(x, buffers[x], entries, jobs, evicting, closed); }
    }
  }

  lemma AcquireKeeps(s: Cache, key: Key, now: int, lease: nat)
    requires Ok(s) && lease !in s.leases
    ensures Ok(Acquire(s, key, now, lease))
  {
    if key in s.entries {
      var id, t := s.entries[key], Acquire(s, key, now, lease);
      assert EntryOwned(key, id, s.buffers);
      assert Owned(id, s.buffers[id], s.entries, s.jobs, s.evicting, s.closed);
      SameBytes(s.buffers, s.evicting, id, t.buffers[id]);
      RefsAfterAcquire(s.buffers, s.leases, id, t.buffers[id], lease);
      BufferChanges(s.entries, s.jobs, s.buffers, s.evicting, s.closed, id, t.buffers[id]);
    }
  }

  lemma ObserveKeeps(s: Cache, key: Key, now: int, lease: nat)
    requires Ok(s) && lease !in s.leases
    ensures Ok(Observe(s, key, now, lease))
  {
    PruneKeeps(s, now);
    var p := Prune(s, now);
    var u := if key in p.usage then p.usage[key] else Usage(0, 0, 0, false);
    AcquireKeeps(p.(usage := p.usage[key := Played(u, now)]), key, now, lease);
  }

  lemma ReacquireKeeps(s: Cache, key: Key, now: int, lease: nat)
    requires Ok(s) && lease !in s.leases
    ensures Ok(Reacquire(s, key, now, lease))
  {
    var u := if key in s.usage then s.usage[key := s.usage[key].(lastPlay := now)] else s.usage;
    AcquireKeeps(s.(usage := u), key, now, lease);
  }

  /** The owner of one buffer that nothing else mentions changes to one that needs nothing. */
  lemma Dropped(entries: map<Key, nat>, jobs: map<nat, Job>, buffers: map<nat, Buffer>, evicting: Option<nat>, closed: bool,
                id: nat, b: Buffer)
    requires OwnersOk(entries, jobs, buffers, evicting, closed) && id in buffers
    requires buffers[id].owner.Leased? || buffers[id].owner.Victim? || buffers[id].owner.Doomed?
    requires b.owner.Doomed? || b.owner.Freed?
    requires buffers[id].owner.Victim? ==> b.owner.Freed?
    requires b.refs == 0 && b.frees == if b.owner.Freed? then 1 else 0
    ensures OwnersOk(entries, jobs, buffers[id := b], evicting, closed)
  {
    var after := buffers[id := b];
    forall job | job in jobs ensures JobFits(job, jobs[job], after) {
      assert JobFits(job, jobs[job], buffers);
    }
    forall key | key in entries ensures EntryOwned(key, entries[key], after) {
      assert EntryOwned(key, entries[key], buffers);
    }
    forall x | x in after ensures Owned(x, after[x], entries, jobs, evicting, closed) {
      if x != id { assert Owned(x, buffers[x], entries, jobs, evicting, closed); }
    }
  }

  lemma ReleaseOwners(s: Cache, lease: nat)
    requires Ok(s) && lease in s.leases
    ensures OwnersOk(s.entries, s.jobs, Release(s, lease).buffers, s.evicting, s.closed)
    ensures RefsCount(Release(s, lease).buffers, s.leases - {lease})
    ensures s.buffers[s.leases[lease]].owner.Cached? || s.buffers[s.leases[lease]].owner.Leased?
  {
    var id := s.leases[lease];
    var b := Release(s, lease).buffers[id];
    assert Owned(id, s.buffers[id], s.entries, s.jobs, s.evicting, s.closed);
    RefsAfterRelease(s.buffers, s.leases, b, lease);
    if b.owner == s.buffers[id].owner {
      BufferChanges(s.entries, s.jobs, s.buffers, s.evicting, s.closed, id, b);
    } else {
      Dropped(s.entries, s.jobs, s.buffers, s.evicting, s.closed, id, b);
    }
  }

  lemma ReleaseKeeps(s: Cache, lease: nat)
    requires Ok(s) && lease in s.leases
    ensures Ok(Release(s, lease))
  {
    var id := s.leases[lease];
    ReleaseOwners(s, lease);
    SameBytes(s.buffers, s.evicting, id, Release(s, lease).buffers[id]);
  }

  // ---------------------------------------------------------------- producers

  lemma JobStarts(s: Cache, job: nat, j: Job)
    requires Ok(s) && job !in s.jobs && j.reservation == 0 && j.buffer.None?
    requires j.key in s.usage && j.key !in s.entries && j.key !in s.building && j.key !in s.capturing
    requires j.kind.Capture? ==> j.key.Pcm?
    ensures
      var t := s.(jobs := s.jobs[job := j]);
      Ok(if j.kind.Build? then t.(building := s.building + {j.key}) else t.(capturing := s.capturing + {j.key}))
  {
    var jobs := s.jobs[job := j];
    TotalUpdate(s.jobs, Reservation, job, j);
    OwnersWithJob(s.entries, s.jobs, s.buffers, s.evicting, s.closed, job, j);
    StartListed(s.jobs, s.building, s.capturing, job, j);
  }

  lemma OwnersWithJob(entries: map<Key, nat>, jobs: map<nat, Job>, buffers: map<nat, Buffer>, evicting: Option<nat>, closed: bool,
                      job: nat, j: Job)
    requires OwnersOk(entries, jobs, buffers, evicting, closed)
    requires j.reservation >= 0 && j.buffer == (if job in jobs then jobs[job].buffer else None)
    requires j.buffer.Some? ==> buffers[j.buffer.value].bytes <= j.reservation
    ensures OwnersOk(entries, jobs[job := j], buffers, evicting, closed)
  {
    var after := jobs[job := j];
    forall x | x in after ensures JobFits(x, after[x], buffers) {
      if x in jobs { assert JobFits(x, jobs[x], buffers); }
    }
    forall id | id in buffers ensures Owned(id, buffers[id], entries, after, evicting, closed) {
      assert Owned(id, buffers[id], entries, jobs, evicting, closed);
    }
  }

  lemma StartListed(jobs: map<nat, Job>, building: set<Key>, capturing: set<Key>, job: nat, j: Job)
    requires JobsListed(jobs, building, capturing) && job !in jobs
    requires j.key !in building && j.key !in capturing && (j.kind.Capture? ==> j.key.Pcm?)
    ensures JobsListed(jobs[job := j], if j.kind.Build? then building + {j.key} else building,
                       if j.kind.Capture? then capturing + {j.key} else capturing)
  {
    var after := jobs[job := j];
    var b := if j.kind.Build? then building + {j.key} else building;
    var c := if j.kind.Capture? then capturing + {j.key} else capturing;
    forall x | x in after ensures JobListed(after[x], b, c) {
      if x != job { assert JobListed(jobs[x], building, capturing); }
    }
    forall x, y | SameKey(after, x, y) ensures x == y {
      if x != job && y != job { assert SameKey(jobs, x, y); }
      if x != job { assert JobListed(jobs[x], building, capturing); }
      if y != job { assert JobListed(jobs[y], building, capturing); }
    }
    forall key | key in b + c ensures HasJob(key, after) {
      if key == j.key {
        assert after[job].key == key;
      } else {
        assert HasJob(key, jobs);
        var x :| x in jobs && jobs[x].key == key;
        assert after[x].key == key;
      }
    }
  }

  lemma ScheduleKeeps(s: Cache, key: Key, minimum: nat, now: int, room: bool, job: nat)
    requires Ok(s) && job !in s.jobs
    ensures Ok(Schedule(s, key, minimum, now, room, job))
  {
    if key in s.usage {
      var u := s.usage[key];
      var v := if u.plays < minimum then u.(plays := minimum, lastPlay := now) else u;
      var t := s.(usage := s.usage[key := v]);
      UsageUpdated(s, t.usage);
      if Schedule(s, key, minimum, now, room, job) != t {
        JobStarts(t, job, Job(Build, key, 0, None));
      }
    }
  }

  lemma BeginCaptureKeeps(s: Cache, key: Key, now: int, job: nat)
    requires Ok(s) && job !in s.jobs && key.Pcm?
    ensures Ok(BeginCapture(s, key, now, job))
  {
    if BeginCapture(s, key, now, job) != s {
      JobStarts(s, job, Job(Capture, key, 0, None));
    }
  }

  lemma ReserveKeeps(s: Cache, job: nat, bytes: int)
    requires Ok(s) && job in s.jobs && HeldBytes(s, job) <= s.jobs[job].reservation + bytes && Used(s) + bytes <= s.maxBytes
    ensures Ok(Reserve(s, job, bytes))
  {
    var j := s.jobs[job];
    var k := j.(reservation := j.reservation + bytes);
    ReserveAccounts(s, job, bytes);
    assert JobFits(job, j, s.buffers);
    OwnersWithJob(s.entries, s.jobs, s.buffers, s.evicting, s.closed, job, k);
    JobStaysListed(s.jobs, s.building, s.capturing, job, k);
  }

  lemma ReserveAccounts(s: Cache, job: nat, bytes: int)
    requires Accounts(s) && job in s.jobs && Used(s) + bytes <= s.maxBytes
    ensures Accounts(Reserve(s, job, bytes))
  {
    TotalUpdate(s.jobs, Reservation, job, Reserve(s, job, bytes).jobs[job]);
  }

  lemma JobStaysListed(jobs: map<nat, Job>, building: set<Key>, capturing: set<Key>, job: nat, j: Job)
    requires JobsListed(jobs, building, capturing) && job in jobs && j.kind == jobs[job].kind && j.key == jobs[job].key
    ensures JobsListed(jobs[job := j], building, capturing)
  {
    var after := jobs[job := j];
    forall x | x in after ensures JobListed(after[x], building, capturing) {
      assert JobListed(jobs[x], building, capturing);
    }
    forall x, y | SameKey(after, x, y) ensures x == y { assert SameKey(jobs, x, y); }
    forall key | key in building + capturing ensures HasJob(key, after) {
      assert HasJob(key, jobs);
      var x :| x in jobs && jobs[x].key == key;
      assert after[x].key == key;
    }
  }

  lemma TryReserveKeeps(s: Cache, job: nat, bytes: int)
    requires Ok(s) && job in s.jobs
    ensures Ok(TryReserve(s, job, bytes))
  {
    assert JobFits(job, s.jobs[job], s.buffers);
    if TryReserve(s, job, bytes) != s { ReserveKeeps(s, job, bytes); }
  }

  /** Eviction takes an unreferenced entry; its bytes move from resident to reclaiming. */
  lemma DetachKeeps(s: Cache, key: Key)
    requires Ok(s) && key in s.entries && s.buffers[s.entries[key]].refs == 0 && s.evicting.None?
    ensures Ok(Detach(s, key))
  {
    var id, t := s.entries[key], Detach(s, key);
    assert EntryOwned(key, id, s.buffers);
    DetachAccounts(s, key);
    RefsSame(s.buffers, s.leases, id, t.buffers[id]);
    DetachOwners(s.entries, s.jobs, s.buffers, s.closed, key);
  }

  lemma DetachAccounts(s: Cache, key: Key)
    requires Accounts(s) && s.evicting.None? && key in s.entries && s.entries[key] in s.buffers
    requires s.buffers[s.entries[key]].owner.Cached?
    ensures Accounts(Detach(s, key))
  {
    TotalUpdate(s.buffers, CachedBytes, s.entries[key], Detach(s, key).buffers[s.entries[key]]);
  }

  lemma DetachOwners(entries: map<Key, nat>, jobs: map<nat, Job>, buffers: map<nat, Buffer>, closed: bool, key: Key)
    requires OwnersOk(entries, jobs, buffers, None, closed) && key in entries && buffers[entries[key]].refs == 0
    ensures OwnersOk(entries - {key}, jobs, buffers[entries[key] := buffers[entries[key]].(owner := Victim)],
                     Some(entries[key]), closed)
  {
    var id := entries[key];
    var after, left := buffers[id := buffers[id].(owner := Victim)], entries - {key};
    assert EntryOwned(key, id, buffers);
    forall job | job in jobs ensures JobFits(job, jobs[job], after) {
      assert JobFits(job, jobs[job], buffers);
    }
    forall k | k in left ensures EntryOwned(k, left[k], after) {
      assert EntryOwned(k, entries[k], buffers);
    }
    forall x | x in after ensures Owned(x, after[x], left, jobs, Some(id), closed) {
      assert Owned(x, buffers[x], entries, jobs, None, closed);
    }
  }

  lemma ReserveTurnKeeps(s: Cache, job: nat, bytes: int, victim: Option<Key>)
    requires Ok(s) && job in s.jobs && s.evicting.None?
    requires victim.Some? ==> victim.value in s.entries && s.buffers[s.entries[victim.value]].refs == 0
    ensures Ok(ReserveTurn(s, job, bytes, victim))
  {
    assert JobFits(job, s.jobs[job], s.buffers);
    if bytes <= 0 || s.closing {
    } else if Used(s) + bytes <= s.maxBytes {
      ReserveKeeps(s, job, bytes);
    } else if victim.Some? {
      DetachKeeps(s, victim.value);
    }
  }

  /** Freeing by whoever owns the buffer; a producer's job must forget it first. */
  lemma FreeKeeps(s: Cache, id: nat)
    requires Ok(s) && id in s.buffers && (s.buffers[id].owner.Victim? || s.buffers[id].owner.Doomed?)
    ensures Ok(Free(s, id))
  {
    var b := Free(s, id).buffers[id];
    assert Owned(id, s.buffers[id], s.entries, s.jobs, s.evicting, s.closed);
    SameBytes(s.buffers, s.evicting, id, b);
    RefsSame(s.buffers, s.leases, id, b);
    Dropped(s.entries, s.jobs, s.buffers, s.evicting, s.closed, id, b);
  }

  lemma EvictionDoneKeeps(s: Cache)
    requires Ok(s) && s.evicting.Some? && s.buffers[s.evicting.value].owner.Freed?
    ensures Ok(EvictionDone(s))
  {
    forall x | x in s.buffers ensures Owned(x, s.buffers[x], s.entries, s.jobs, None, s.closed) {
      assert Owned(x, s.buffers[x], s.entries, s.jobs, s.evicting, s.closed);
    }
  }

  lemma ResizeKeeps(s: Cache, job: nat, bytes: nat)
    requires Ok(s) && job in s.jobs && bytes <= s.jobs[job].reservation && s.jobs[job].buffer.Some?
    ensures
      var own := s.jobs[job].buffer.value;
      own in s.buffers && Ok(s.(buffers := s.buffers[own := s.buffers[own].(bytes := bytes)]))
  {
    var j := s.jobs[job];
    assert JobFits(job, j, s.buffers);
    var own := j.buffer.value;
    var b := s.buffers[own].(bytes := bytes);
    assert Owned(own, s.buffers[own], s.entries, s.jobs, s.evicting, s.closed);
    assert s.evicting != Some(own);
    TotalUpdate(s.buffers, CachedBytes, own, b);
    RefsSame(s.buffers, s.leases, own, b);
    BufferChanges(s.entries, s.jobs, s.buffers, s.evicting, s.closed, own, b);
    OtherReclaimed(s.evicting, s.buffers, own, b);
  }

  lemma OtherReclaimed(evicting: Option<nat>, buffers: map<nat, Buffer>, id: nat, b: Buffer)
    requires evicting != Some(id)
    ensures Reclaimed(evicting, buffers[id := b]) == Reclaimed(evicting, buffers)
  {
  }

  lemma AllocateKeeps(s: Cache, job: nat, bytes: nat, id: nat)
    requires Ok(s) && job in s.jobs && bytes <= s.jobs[job].reservation && id !in s.buffers
    ensures Ok(Allocate(s, job, bytes, id))
  {
    var j := s.jobs[job];
    assert JobFits(job, j, s.buffers);
    if j.buffer.Some? {
      ResizeKeeps(s, job, bytes);
    } else {
      var b, k := Buffer(bytes, 0, 0, Producer(job), 0), j.(buffer := Some(id));
      TotalUpdate(s.buffers, CachedBytes, id, b);
      TotalUpdate(s.jobs, Reservation, job, k);
      JobStaysListed(s.jobs, s.building, s.capturing, job, k);
      NewBuffer(s.entries, s.jobs, s.buffers, s.evicting, s.closed, job, id, b);
      NewRefs(s.buffers, s.leases, id, b);
      OtherReclaimed(s.evicting, s.buffers, id, b);
    }
  }

  lemma NewBuffer(entries: map<Key, nat>, jobs: map<nat, Job>, buffers: map<nat, Buffer>, evicting: Option<nat>, closed: bool,
                  job: nat, id: nat, b: Buffer)
    requires OwnersOk(entries, jobs, buffers, evicting, closed) && job in jobs && jobs[job].buffer.None? && id !in buffers
    requires b.owner == Producer(job) && b.refs == 0 && b.frees == 0 && b.bytes <= jobs[job].reservation
    ensures OwnersOk(entries, jobs[job := jobs[job].(buffer := Some(id))], buffers[id := b], evicting, closed)
  {
    var after, more := jobs[job := jobs[job].(buffer := Some(id))], buffers[id := b];
    forall x | x in after ensures JobFits(x, after[x], more) {
      assert JobFits(x, jobs[x], buffers);
    }
    forall k | k in entries ensures EntryOwned(k, entries[k], more) {
      assert EntryOwned(k, entries[k], buffers);
    }
    forall x | x in more ensures Owned(x, more[x], entries, after, evicting, closed) {
      if x != id { assert Owned(x, buffers[x], entries, jobs, evicting, closed); }
    }
  }

  lemma {:induction false} NoPointer(leases: map<nat, nat>, id: nat)
    requires forall lease :: lease in leases ==> leases[lease] != id
    ensures Total(leases, PointsTo(id)) == 0
    decreases |leases|
  {
    if leases != map[] {
      var k :| k in leases && Total(leases, PointsTo(id)) == PointsTo(id)(leases[k]) + Total(leases - {k}, PointsTo(id));
      NoPointer(leases - {k}, id);
    }
  }

  lemma NewRefs(buffers: map<nat, Buffer>, leases: map<nat, nat>, id: nat, b: Buffer)
    requires RefsCount(buffers, leases) && id !in buffers && b.refs == 0
    ensures RefsCount(buffers[id := b], leases)
  {
    NoPointer(leases, id);
  }

  // ---------------------------------------------------------------- ending producers

  /** A job gives its buffer to another owner, or frees it. */
  lemma HandOver(entries: map<Key, nat>, jobs: map<nat, Job>, buffers: map<nat, Buffer>, evicting: Option<nat>, closed: bool,
                 job: nat, id: nat, b: Buffer)
    requires OwnersOk(entries, jobs, buffers, evicting, closed) && job in jobs && jobs[job].buffer == Some(id)
    requires (b.owner.Doomed? || b.owner.Freed?) && b.refs == 0 && b.frees == if b.owner.Freed? then 1 else 0
    ensures OwnersOk(entries, jobs[job := jobs[job].(buffer := None)], buffers[id := b], evicting, closed)
    ensures OwnersOk(entries, jobs - {job}, buffers[id := b], evicting, closed)
  {
    var after := buffers[id := b];
    var kept, gone := jobs[job := jobs[job].(buffer := None)], jobs - {job};
    assert JobFits(job, jobs[job], buffers);
    forall x | x in jobs ensures JobFits(x, kept[x], after) && (x in gone ==> JobFits(x, gone[x], after)) {
      assert JobFits(x, jobs[x], buffers);
    }
    forall k | k in entries ensures EntryOwned(k, entries[k], after) {
      assert EntryOwned(k, entries[k], buffers);
    }
    forall x | x in after
      ensures Owned(x, after[x], entries, kept, evicting, closed) && Owned(x, after[x], entries, gone, evicting, closed)
    {
      assert Owned(x, buffers[x], entries, jobs, evicting, closed);
    }
  }

  lemma FreeOwnKeeps(s: Cache, job: nat)
    requires Ok(s) && job in s.jobs && s.jobs[job].buffer.Some?
    ensures Ok(FreeOwn(s, job))
  {
    var j, id := s.jobs[job], s.jobs[job].buffer.value;
    assert JobFits(job, j, s.buffers) && Owned(id, s.buffers[id], s.entries, s.jobs, s.evicting, s.closed);
    var b := Free(s, id).buffers[id];
    RefsSame(s.buffers, s.leases, id, b);
    FreeOwnAccounts(s, job);
    JobStaysListed(s.jobs, s.building, s.capturing, job, j.(buffer := None));
    HandOver(s.entries, s.jobs, s.buffers, s.evicting, s.closed, job, id, b);
  }

  lemma FreeOwnAccounts(s: Cache, job: nat)
    requires Accounts(s) && job in s.jobs && s.jobs[job].buffer.Some? && s.jobs[job].buffer.value in s.buffers
    requires !s.buffers[s.jobs[job].buffer.value].owner.Cached?
    ensures Accounts(FreeOwn(s, job))
  {
    var j, id := s.jobs[job], s.jobs[job].buffer.value;
    SameBytes(s.buffers, s.evicting, id, Free(s, id).buffers[id]);
    TotalUpdate(s.jobs, Reservation, job, j.(buffer := None));
  }

  lemma EndListed(jobs: map<nat, Job>, building: set<Key>, capturing: set<Key>, job: nat)
    requires JobsListed(jobs, building, capturing) && job in jobs && building !! capturing
    ensures JobsListed(jobs - {job}, if jobs[job].kind.Build? then building - {jobs[job].key} else building,
                       if jobs[job].kind.Capture? then capturing - {jobs[job].key} else capturing)
  {
    var j := jobs[job];
    var after := jobs - {job};
    var b := if j.kind.Build? then building - {j.key} else building;
    var c := if j.kind.Capture? then capturing - {j.key} else capturing;
    forall x | x in after ensures JobListed(after[x], b, c) {
      assert JobListed(jobs[x], building, capturing);
      assert SameKey(jobs, x, job) <==> jobs[x].key == j.key;
    }
    forall x, y | SameKey(after, x, y) ensures x == y { assert SameKey(jobs, x, y); }
    assert JobListed(j, building, capturing);
    forall key | key in b + c ensures HasJob(key, after) {
      assert HasJob(key, jobs);
      var x :| x in jobs && jobs[x].key == key;
      assert key != j.key;
      assert after[x].key == key;
    }
  }

  lemma EndSums(s: Cache, job: nat)
    requires Ok(s) && job in s.jobs
    ensures EndJob(s, job).reserved == Total(s.jobs - {job}, Reservation) && Used(EndJob(s, job)) <= s.maxBytes
  {
    TotalSplit(s.jobs, Reservation, job);
    assert JobFits(job, s.jobs[job], s.buffers);
  }

  /** A job without a buffer ends. */
  lemma EndsEmpty(s: Cache, job: nat)
    requires Ok(s) && job in s.jobs && s.jobs[job].buffer.None?
    ensures Ok(EndJob(s, job))
  {
    EndSums(s, job);
    EndListed(s.jobs, s.building, s.capturing, job);
    var gone := s.jobs - {job};
    forall x | x in gone ensures JobFits(x, gone[x], s.buffers) {
      assert JobFits(x, s.jobs[x], s.buffers);
    }
    forall x | x in s.buffers ensures Owned(x, s.buffers[x], s.entries, gone, s.evicting, s.closed) {
      assert Owned(x, s.buffers[x], s.entries, s.jobs, s.evicting, s.closed);
    }
  }

  /** A job whose buffer nobody takes ends. */
  lemma EndsDoomed(s: Cache, job: nat, byPlayer: bool)
    requires Ok(s) && job in s.jobs && s.jobs[job].buffer.Some?
    ensures s.jobs[job].buffer.value in s.buffers && Ok(GiveTo(EndJob(s, job), s.jobs[job].buffer.value, Doomed(byPlayer)))
  {
    var j, id := s.jobs[job], s.jobs[job].buffer.value;
    assert JobFits(job, j, s.buffers) && Owned(id, s.buffers[id], s.entries, s.jobs, s.evicting, s.closed);
    var b := s.buffers[id].(owner := Doomed(byPlayer));
    EndSums(s, job);
    EndListed(s.jobs, s.building, s.capturing, job);
    SameBytes(s.buffers, s.evicting, id, b);
    RefsSame(s.buffers, s.leases, id, b);
    HandOver(s.entries, s.jobs, s.buffers, s.evicting, s.closed, job, id, b);
  }

  lemma CommitOwners(entries: map<Key, nat>, jobs: map<nat, Job>, buffers: map<nat, Buffer>, evicting: Option<nat>, closed: bool,
                     job: nat, id: nat, now: int)
    requires OwnersOk(entries, jobs, buffers, evicting, closed) && job in jobs && jobs[job].buffer == Some(id)
    requires jobs[job].key !in entries && id in buffers
    ensures OwnersOk(entries[jobs[job].key := id], jobs - {job},
                     buffers[id := buffers[id].(owner := Cached(jobs[job].key), lastUsed := now)], evicting, closed)
  {
    var key := jobs[job].key;
    var more, gone := entries[key := id], jobs - {job};
    var after := buffers[id := buffers[id].(owner := Cached(key), lastUsed := now)];
    assert JobFits(job, jobs[job], buffers);
    forall x | x in gone ensures JobFits(x, gone[x], after) {
      assert JobFits(x, jobs[x], buffers);
    }
    forall k | k in more ensures EntryOwned(k, more[k], after) {
      if k != key { assert EntryOwned(k, entries[k], buffers); }
    }
    forall x | x in after ensures Owned(x, after[x], more, gone, evicting, closed) {
      assert Owned(x, buffers[x], entries, jobs, evicting, closed);
    }
  }

  /** A commit moves exactly the buffer's bytes from reserved to resident, or leaves the buffer to be freed. */
  lemma CommitKeeps(s: Cache, job: nat, now: int)
    requires Ok(s) && job in s.jobs && s.jobs[job].buffer.Some?
    ensures s.jobs[job].buffer.value in s.buffers && Ok(Commit(s, job, now))
  {
    if s.closing || s.jobs[job].key in s.entries { EndsDoomed(s, job, s.jobs[job].kind.Capture?); } else { AdmitKeeps(s, job, now); }
  }

  lemma AdmitKeeps(s: Cache, job: nat, now: int)
    requires Ok(s) && job in s.jobs && s.jobs[job].buffer.Some? && !s.closing && s.jobs[job].key !in s.entries
    ensures s.jobs[job].buffer.value in s.buffers && Ok(Commit(s, job, now))
  {
    var id := s.jobs[job].buffer.value;
    assert JobFits(job, s.jobs[job], s.buffers);
    CommitOwners(s.entries, s.jobs, s.buffers, s.evicting, s.closed, job, id, now);
    RefsSame(s.buffers, s.leases, id, Commit(s, job, now).buffers[id]);
    EndListed(s.jobs, s.building, s.capturing, job);
    CommitKeys(s, job, id);
    CommitAccounts(s, job, now);
  }

  lemma CommitAccounts(s: Cache, job: nat, now: int)
    requires Ok(s) && job in s.jobs && s.jobs[job].buffer.Some? && s.jobs[job].buffer.value in s.buffers
    requires !s.closing && s.jobs[job].key !in s.entries
    ensures Accounts(Commit(s, job, now))
  {
    CommitSums(s, job, Commit(s, job, now).buffers[s.jobs[job].buffer.value]);
  }

  /** The key moves from its producer's set to the entries. */
  lemma CommitKeys(s: Cache, job: nat, id: nat)
    requires Ok(s) && job in s.jobs && s.jobs[job].key !in s.entries
    ensures
      var t, entries := EndJob(s, job), s.entries[s.jobs[job].key := id];
      KeysApart(entries, t.building, t.capturing) && UsageKept(s.usage, entries, t.building, t.capturing)
  {
    BuildHasUsage(s, job);
    assert JobListed(s.jobs[job], s.building, s.capturing);
  }

  lemma CommitSums(s: Cache, job: nat, b: Buffer)
    requires Ok(s) && job in s.jobs && s.jobs[job].buffer.Some? && s.jobs[job].buffer.value in s.buffers
    requires b.owner.Cached? && b.bytes == s.buffers[s.jobs[job].buffer.value].bytes
    ensures
      var id := s.jobs[job].buffer.value;
      && s.resident + b.bytes == Total(s.buffers[id := b], CachedBytes)
      && s.reserved - s.jobs[job].reservation == Total(s.jobs - {job}, Reservation)
      && Reclaimed(s.evicting, s.buffers[id := b]) == s.reclaiming
      && Used(s) + b.bytes - s.jobs[job].reservation <= s.maxBytes
  {
    var id := s.jobs[job].buffer.value;
    assert JobFits(job, s.jobs[job], s.buffers) && Owned(id, s.buffers[id], s.entries, s.jobs, s.evicting, s.closed);
    TotalUpdate(s.buffers, CachedBytes, id, b);
    TotalSplit(s.jobs, Reservation, job);
  }

  lemma UsageUpdated(s: Cache, usage: map<Key, Usage>)
    requires Ok(s) && s.usage.Keys <= usage.Keys
    ensures Ok(s.(usage := usage))
  {
  }

  lemma FailBuildKeeps(s: Cache, job: nat, failure: Failure, now: int)
    requires Ok(s) && job in s.jobs && s.jobs[job].buffer.None? && s.jobs[job].key in s.usage
    ensures Ok(FailBuild(s, job, failure, now))
  {
    EndsEmpty(s, job);
  }

  lemma AbortCaptureKeeps(s: Cache, job: nat, failure: Option<Failure>, now: int)
    requires Ok(s) && job in s.jobs
    requires s.jobs[job].buffer.Some? ==> s.jobs[job].buffer.value in s.buffers
    ensures Ok(AbortCapture(s, job, failure, now))
  {
    var usage := AbortUsage(s, s.jobs[job].key, failure, now);
    UsageUpdated(s, usage);
    EndsAborted(s.(usage := usage), job);
  }

  lemma EndsAborted(s: Cache, job: nat)
    requires Ok(s) && job in s.jobs
    requires s.jobs[job].buffer.Some? ==> s.jobs[job].buffer.value in s.buffers
    ensures Ok(if s.jobs[job].buffer.Some? then GiveTo(EndJob(s, job), s.jobs[job].buffer.value, Doomed(true)) else EndJob(s, job))
  {
    if s.jobs[job].buffer.Some? { EndsDoomed(s, job, true); } else { EndsEmpty(s, job); }
  }

  // ---------------------------------------------------------------- closing

  lemma {:induction false} NothingCached(buffers: map<nat, Buffer>)
    requires forall id :: id in buffers ==> !buffers[id].owner.Cached?
    ensures Total(buffers, CachedBytes) == 0
    decreases |buffers|
  {
    if buffers != map[] {
      var k :| k in buffers;
      TotalSplit(buffers, CachedBytes, k);
      NothingCached(buffers - {k});
    }
  }

  lemma CloseOwners(entries: map<Key, nat>, jobs: map<nat, Job>, buffers: map<nat, Buffer>, evicting: Option<nat>, closed: bool,
                    after: map<nat, Buffer>)
    requires OwnersOk(entries, jobs, buffers, evicting, closed)
    requires after.Keys == buffers.Keys && forall id :: id in buffers ==> after[id] == Uncached(buffers[id])
    requires forall id :: id in buffers ==> buffers[id].refs >= 0
    ensures OwnersOk(map[], jobs, after, evicting, true)
  {
    forall x | x in jobs ensures JobFits(x, jobs[x], after) {
      assert JobFits(x, jobs[x], buffers);
    }
    forall x | x in after ensures Owned(x, after[x], map[], jobs, evicting, true) {
      assert Owned(x, buffers[x], entries, jobs, evicting, closed);
    }
  }

  lemma CloseKeeps(s: Cache)
    requires Ok(s) && s.closing && s.evicting.None?
    ensures Ok(CloseEntries(s))
  {
    var t := CloseEntries(s);
    RefsPositive(s.buffers, s.leases);
    CloseOwners(s.entries, s.jobs, s.buffers, s.evicting, s.closed, t.buffers);
    CloseRefs(s.buffers, s.leases, t.buffers);
    CloseAccounts(s);
    assert KeysApart(t.entries, t.building, t.capturing) && UsageKept(t.usage, t.entries, t.building, t.capturing);
  }

  lemma CloseAccounts(s: Cache)
    requires Accounts(s) && s.evicting.None?
    ensures Accounts(CloseEntries(s))
  {
    NothingCached(CloseEntries(s).buffers);
    TotalNonNegative(s.buffers, CachedBytes);
  }

  lemma RefsPositive(buffers: map<nat, Buffer>, leases: map<nat, nat>)
    requires RefsCount(buffers, leases)
    ensures forall id :: id in buffers ==> buffers[id].refs >= 0
  {
    forall id | id in buffers ensures buffers[id].refs >= 0 {
      TotalNonNegative(leases, PointsTo(id));
    }
  }

  lemma CloseRefs(buffers: map<nat, Buffer>, leases: map<nat, nat>, after: map<nat, Buffer>)
    requires RefsCount(buffers, leases)
    requires after.Keys == buffers.Keys && forall id :: id in buffers ==> after[id] == Uncached(buffers[id])
    ensures RefsCount(after, leases)
  {
  }

  // ---------------------------------------------------------------- every run

  lemma StepKeeps(s: Cache, step: Step)
    requires Ok(s) && Allowed(s, step)
    ensures Ok(Next(s, step))
  {
    match step
    case TryingReserve(_, _) => ReserveStepKeeps(s, step);
    case ReserveTurning(_, _, _, _) => ReserveStepKeeps(s, step);
    case Unreserving(_, _) => ReserveStepKeeps(s, step);
    case FreeingVictim => FreeingStepKeeps(s, step);
    case EndingEviction => FreeingStepKeeps(s, step);
    case FreeingDoomed(_) => FreeingStepKeeps(s, step);
    case ClosingDown => FreeingStepKeeps(s, step);
    case ClosingEntries => FreeingStepKeeps(s, step);
    case Allocating(_, _, _) => ProducerStepKeeps(s, step);
    case FreeingOwn(_) => ProducerStepKeeps(s, step);
    case Committing(_, _) => ProducerStepKeeps(s, step);
    case FailingBuild(_, _, _) => ProducerStepKeeps(s, step);
    case AbortingCapture(_, _, _) => ProducerStepKeeps(s, step);
    case _ => PlayStepKeeps(s, step);
  }

  /** The steps that plays make: observing, leasing, and starting producers. */
  lemma PlayStepKeeps(s: Cache, step: Step)
    requires Ok(s) && Allowed(s, step)
    requires step.Observing? || step.Reacquiring? || step.Releasing? || step.Scheduling? || step.BeginningCapture?
    ensures Ok(Next(s, step))
  {
    match step
    case Observing(key, now, lease) => ObserveKeeps(s, key, now, lease);
    case Reacquiring(key, now, lease) => ReacquireKeeps(s, key, now, lease);
    case Releasing(lease) => ReleaseKeeps(s, lease);
    case Scheduling(key, minimum, now, room, job) => ScheduleKeeps(s, key, minimum, now, room, job);
    case BeginningCapture(key, now, job) => BeginCaptureKeeps(s, key, now, job);
  }

  lemma ReserveStepKeeps(s: Cache, step: Step)
    requires Ok(s) && Allowed(s, step) && (step.TryingReserve? || step.ReserveTurning? || step.Unreserving?)
    ensures Ok(Next(s, step))
  {
    match step
    case TryingReserve(job, wanted) => TryReserveKeeps(s, job, wanted);
    case ReserveTurning(job, wanted, _, victim) => ReserveTurnKeeps(s, job, wanted, victim);
    case Unreserving(job, wanted) => ReserveKeeps(s, job, -wanted);
  }

  /** The steps that free, and those of closing. */
  lemma FreeingStepKeeps(s: Cache, step: Step)
    requires Ok(s) && Allowed(s, step)
    requires step.FreeingVictim? || step.EndingEviction? || step.FreeingDoomed? || step.ClosingDown? || step.ClosingEntries?
    ensures Ok(Next(s, step))
  {
    match step
    case FreeingVictim => FreeKeeps(s, s.evicting.value);
    case EndingEviction => EvictionDoneKeeps(s);
    case FreeingDoomed(id) => FreeKeeps(s, id);
    case ClosingDown =>
    case ClosingEntries => CloseKeeps(s);
  }

  /** The steps of a producer outside reservation. */
  lemma ProducerStepKeeps(s: Cache, step: Step)
    requires Ok(s) && Allowed(s, step)
    requires step.Allocating? || step.FreeingOwn? || step.Committing? || step.FailingBuild? || step.AbortingCapture?
    ensures Ok(Next(s, step))
  {
    match step
    case Allocating(job, bytes, id) => AllocateKeeps(s, job, bytes, id);
    case FreeingOwn(job) => FreeOwnKeeps(s, job);
    case Committing(job, now) => CommitKeeps(s, job, now);
    case FailingBuild(job, failure, now) =>
      BuildHasUsage(s, job);
      FailBuildKeeps(s, job, failure, now);
    case AbortingCapture(job, reason, now) =>
      assert JobFits(job, s.jobs[job], s.buffers);
      AbortCaptureKeeps(s, job, reason, now);
  }

  /** Every step of the run is allowed where it happens. */
  ghost predicate Runs(s: Cache, steps: seq<Step>)
    requires Ok(s)
    decreases |steps|
  {
    if steps == [] then true
    else
      Allowed(s, steps[0]) && (StepKeeps(s, steps[0]); Runs(Next(s, steps[0]), steps[1..]))
  }

  ghost function After(s: Cache, steps: seq<Step>): Cache
    requires Ok(s) && Runs(s, steps)
    decreases |steps|
  {
    if steps == [] then s
    else
      StepKeeps(s, steps[0]);
      After(Next(s, steps[0]), steps[1..])
  }

  lemma EmptyOk(maxBytes: nat, now: int)
    ensures Ok(Empty(maxBytes, now))
  {
  }

  /** Budget, accounts, ownership, leases and one producer per key hold in every reachable state. */
  lemma {:induction false} RunKeeps(s: Cache, steps: seq<Step>)
    requires Ok(s) && Runs(s, steps)
    ensures Ok(After(s, steps))
    decreases |steps|
  {
    if steps != [] {
      StepKeeps(s, steps[0]);
      RunKeeps(Next(s, steps[0]), steps[1..]);
    }
  }

  ghost predicate Reachable(s: Cache, maxBytes: nat, now: int) {
    EmptyOk(maxBytes, now);
    exists steps :: Runs(Empty(maxBytes, now), steps) && After(Empty(maxBytes, now), steps) == s
  }

  lemma {:induction false} OneMoreStep(s: Cache, steps: seq<Step>, step: Step)
    requires Ok(s) && Runs(s, steps)
    requires Ok(After(s, steps)) && Allowed(After(s, steps), step)
    ensures Runs(s, steps + [step]) && After(s, steps + [step]) == Next(After(s, steps), step)
    decreases |steps|
  {
    if steps == [] {
      assert [] + [step] == [step] && [step][1..] == [];
    } else {
      StepKeeps(s, steps[0]);
      OneMoreStep(Next(s, steps[0]), steps[1..], step);
      assert (steps + [step])[0] == steps[0] && (steps + [step])[1..] == steps[1..] + [step];
    }
  }

  lemma ReachesNext(s: Cache, step: Step, maxBytes: nat, now: int)
    requires Ok(s) && Reachable(s, maxBytes, now) && Allowed(s, step)
    ensures Ok(Next(s, step)) && Reachable(Next(s, step), maxBytes, now)
  {
    EmptyOk(maxBytes, now);
    var steps :| Runs(Empty(maxBytes, now), steps) && After(Empty(maxBytes, now), steps) == s;
    OneMoreStep(Empty(maxBytes, now), steps, step);
    StepKeeps(s, step);
  }
}
