/**
 What the cache's critical sections mean for its users: who gets a lease, when a producer starts, what it
 leaves behind, and that eviction goes by the time of last use, read off the run itself.
 */
module AudioCacheUse {
  import opened Common
  import opened AudioCache
  import opened AudioCacheSafety

  // ---------------------------------------------------------------- plays and leases

  /** A cached key's buffer gets one more reference and is used now; an uncached key changes nothing. */
  predicate Leases(s: Cache, t: Cache, key: Key, now: int, lease: nat) {
    && t.entries == s.entries
    && if key !in s.entries then t.buffers == s.buffers && t.leases == s.leases
       else
         var id := s.entries[key];
         && id in s.buffers && t.leases == s.leases[lease := id]
         && t.buffers == s.buffers[id := s.buffers[id].(refs := s.buffers[id].refs + 1, lastUsed := now)]
  }

  /** Records go, every five minutes, that are as old and belong to nothing cached, building or capturing. */
  predicate Expires(s: Cache, key: Key, now: int)
    requires key in s.usage
  {
    && now - s.lastPrune >= 300000 && now - s.usage[key].lastPlay > 300000
    && key !in s.entries && key !in s.building && key !in s.capturing
  }

  /** The plays that count: those before, unless the last is more than five minutes ago, and this one. */
  function PlaysNow(s: Cache, key: Key, now: int): nat {
    if key in s.usage && !Expires(s, key, now) && (s.usage[key].lastPlay == 0 || now - s.usage[key].lastPlay <= 300000)
    then s.usage[key].plays + 1 else 1
  }

  ghost predicate ObservedUsage(s: Cache, t: Cache, key: Key, now: int, other: Key) {
    if other == key then
      && key in t.usage && t.usage[key].plays == PlaysNow(s, key, now) && t.usage[key].lastPlay == now
      && (key in s.usage && !Expires(s, key, now) ==>
            t.usage[key].tooLarge == s.usage[key].tooLarge && t.usage[key].retryAfter == s.usage[key].retryAfter)
      && (key !in s.usage || Expires(s, key, now) ==> !t.usage[key].tooLarge && t.usage[key].retryAfter == 0)
    else if other in s.usage && !Expires(s, other, now) then other in t.usage && t.usage[other] == s.usage[other]
    else other !in t.usage
  }

  lemma AcquireLeases(s: Cache, u: Cache, key: Key, now: int, lease: nat)
    requires key in s.entries ==> s.entries[key] in s.buffers
    requires u.entries == s.entries && u.buffers == s.buffers && u.leases == s.leases
    ensures Leases(s, Acquire(u, key, now, lease), key, now, lease)
  {
  }

  lemma ObserveLeases(s: Cache, key: Key, now: int, lease: nat)
    requires key in s.entries ==> s.entries[key] in s.buffers
    ensures Leases(s, Observe(s, key, now, lease), key, now, lease)
  {
    var p := Prune(s, now);
    var u := if key in p.usage then p.usage[key] else Usage(0, 0, 0, false);
    AcquireLeases(s, p.(usage := p.usage[key := Played(u, now)]), key, now, lease);
  }

  lemma ObserveCounts(s: Cache, key: Key, now: int, lease: nat, other: Key)
    ensures ObservedUsage(s, Observe(s, key, now, lease), key, now, other)
  {
    var p := Prune(s, now);
    forall k | k in s.usage ensures k in p.usage <==> !Expires(s, k, now) {
      assert Expires(s, k, now) <==> now - s.lastPrune >= RETENTION && Stale(s, k, now);
    }
  }

  /** Nothing changes but usage, leases, buffers, and the time of pruning when it is due. */
  predicate OnlyObserves(s: Cache, t: Cache, now: int) {
    t == s.(usage := t.usage, leases := t.leases, buffers := t.buffers,
            lastPrune := if now - s.lastPrune >= 300000 then now else s.lastPrune)
  }

  lemma AcquireFrame(s: Cache, key: Key, now: int, lease: nat)
    ensures var t := Acquire(s, key, now, lease); t == s.(buffers := t.buffers, leases := t.leases)
  {
  }

  lemma ObserveFrame(s: Cache, key: Key, now: int, lease: nat)
    ensures OnlyObserves(s, Observe(s, key, now, lease), now)
  {
    var p := Prune(s, now);
    var u := if key in p.usage then p.usage[key] else Usage(0, 0, 0, false);
    AcquireFrame(p.(usage := p.usage[key := Played(u, now)]), key, now, lease);
  }

  /** A play counts for its own key, and leases it if it is cached. */
  lemma ObserveIs(s: Cache, key: Key, now: int, lease: nat)
    requires Ok(s)
    ensures Leases(s, Observe(s, key, now, lease), key, now, lease) && OnlyObserves(s, Observe(s, key, now, lease), now)
    ensures forall other :: ObservedUsage(s, Observe(s, key, now, lease), key, now, other)
  {
    if key in s.entries { assert EntryOwned(key, s.entries[key], s.buffers); }
    ObserveLeases(s, key, now, lease);
    ObserveFrame(s, key, now, lease);
    forall other ensures ObservedUsage(s, Observe(s, key, now, lease), key, now, other) {
      ObserveCounts(s, key, now, lease, other);
    }
  }

  /** A repetition leases its key if it is cached, and counts as the key's last play but not as another. */
  lemma ReacquireIs(s: Cache, key: Key, now: int, lease: nat)
    requires Ok(s)
    ensures Leases(s, Reacquire(s, key, now, lease), key, now, lease)
    ensures Reacquire(s, key, now, lease).usage == if key in s.usage then s.usage[key := s.usage[key].(lastPlay := now)] else s.usage
  {
    if key in s.entries { assert EntryOwned(key, s.entries[key], s.buffers); }
    var usage := if key in s.usage then s.usage[key := s.usage[key].(lastPlay := now)] else s.usage;
    AcquireLeases(s, s.(usage := usage), key, now, lease);
  }

  // ---------------------------------------------------------------- producers

  /** A key that nobody caches, builds or captures, and that is not put off, in an open cache with a budget. */
  predicate Vacant(s: Cache, key: Key, now: int) {
    && !s.closing && s.maxBytes > 0 && key in s.usage && !s.usage[key].tooLarge && s.usage[key].retryAfter <= now
    && key !in s.entries && key !in s.building && key !in s.capturing
  }

  /** A build starts exactly for a vacant key with two plays, real or granted, while the queue has room. */
  lemma ScheduleIs(s: Cache, key: Key, minimum: nat, now: int, room: bool, job: nat)
    requires job !in s.jobs
    ensures
      var t := Schedule(s, key, minimum, now, room, job);
      && (job in t.jobs <==> Vacant(s, key, now) && room && (s.usage[key].plays >= 2 || minimum >= 2))
      && t.jobs == (if job in t.jobs then s.jobs[job := Job(Build, key, 0, None)] else s.jobs)
      && t.building == (if job in t.jobs then s.building + {key} else s.building) && t.capturing == s.capturing
      && (key in s.usage && s.usage[key].plays < minimum ==> t.usage == s.usage[key := s.usage[key].(plays := minimum, lastPlay := now)])
      && (key !in s.usage || s.usage[key].plays >= minimum ==> t.usage == s.usage)
  {
    if key in s.usage { assert s.usage[key := s.usage[key]] == s.usage; }
  }

  /** A capture starts exactly for a vacant key. */
  lemma BeginCaptureIs(s: Cache, key: Key, now: int, job: nat)
    requires job !in s.jobs
    ensures
      var t := BeginCapture(s, key, now, job);
      && (job in t.jobs <==> Vacant(s, key, now))
      && t.jobs == (if job in t.jobs then s.jobs[job := Job(Capture, key, 0, None)] else s.jobs)
      && t.capturing == (if job in t.jobs then s.capturing + {key} else s.capturing) && t.building == s.building
  {
  }

  /** A second play within five minutes starts a build of a vacant key. */
  lemma SecondPlayBuilds(s: Cache, key: Key, first: int, second: int, a: nat, b: nat, job: nat)
    requires Ok(s) && Vacant(s, key, second) && job !in s.jobs && a !in s.leases && b !in s.leases
    requires 0 < first <= second <= first + 300000 && s.lastPrune <= second
    ensures
      var t := Observe(s, key, first, a);
      var u := Observe(t, key, second, b);
      job in Schedule(u, key, 0, second, true, job).jobs
  {
    ObserveIs(s, key, first, a);
    ObserveKeeps(s, key, first, a);
    var t := Observe(s, key, first, a);
    assert ObservedUsage(s, t, key, first, key);
    ObserveIs(t, key, second, b);
    var u := Observe(t, key, second, b);
    assert ObservedUsage(t, u, key, second, key);
    ScheduleIs(u, key, 0, second, true, job);
  }

  /** A reservation changes what its job holds by exactly as much, and nothing else. */
  lemma ReserveIs(s: Cache, job: nat, bytes: int)
    requires job in s.jobs
    ensures
      var t := Reserve(s, job, bytes);
      && t == s.(reserved := t.reserved, jobs := t.jobs) && t.reserved == s.reserved + bytes && t.jobs.Keys == s.jobs.Keys
      && t.jobs[job].reservation == s.jobs[job].reservation + bytes
      && forall other :: other in s.jobs && other != job ==> t.jobs[other] == s.jobs[other]
  {
  }

  /** Growing, shrinking and making a buffer leave the job one of exactly that size, and every other as it was. */
  lemma AllocateIs(s: Cache, job: nat, bytes: nat, id: nat)
    requires Ok(s) && job in s.jobs && id !in s.buffers
    ensures s.jobs[job].buffer.Some? ==> s.jobs[job].buffer.value in s.buffers
    ensures
      var t := Allocate(s, job, bytes, id);
      var own := if s.jobs[job].buffer.Some? then s.jobs[job].buffer.value else id;
      && job in t.jobs && t.jobs[job].buffer == Some(own) && own in t.buffers
      && t.buffers[own].bytes == bytes && t.buffers[own].owner == Producer(job) && t.jobs[job].reservation == s.jobs[job].reservation
      && forall other :: other in s.buffers && other != own ==> other in t.buffers && t.buffers[other] == s.buffers[other]
  {
    assert JobFits(job, s.jobs[job], s.buffers);
  }

  /** The job is over and its reservation is back. */
  predicate JobOver(s: Cache, t: Cache, job: nat)
    requires job in s.jobs
  {
    var j := s.jobs[job];
    && t.jobs == s.jobs - {job} && t.reserved == s.reserved - j.reservation
    && t.building == (if j.kind.Build? then s.building - {j.key} else s.building)
    && t.capturing == (if j.kind.Capture? then s.capturing - {j.key} else s.capturing)
  }

  /** An asset is admitted exactly while the cache is open and lacks its key; it is then the key's entry, used now. */
  lemma CommitIs(s: Cache, job: nat, now: int)
    requires job in s.jobs && s.jobs[job].buffer.Some? && s.jobs[job].buffer.value in s.buffers
    ensures
      var j, t := s.jobs[job], Commit(s, job, now);
      var id := j.buffer.value;
      var admitted := !s.closing && j.key !in s.entries;
      && JobOver(s, t, job) && t.usage == s.usage
      && t.entries == (if admitted then s.entries[j.key := id] else s.entries)
      && t.resident == s.resident + (if admitted then s.buffers[id].bytes else 0)
      && t.buffers == s.buffers[id := if admitted then s.buffers[id].(owner := Cached(j.key), lastUsed := now)
                                      else s.buffers[id].(owner := Doomed(j.kind.Capture?))]
  {
  }

  /**
   A failed build marks its key: too large for good, or put off for five minutes, unless the cache closes or there
   was no budget.
   */
  lemma FailBuildIs(s: Cache, job: nat, failure: Failure, now: int)
    requires job in s.jobs && s.jobs[job].key in s.usage && s.jobs[job].key !in s.entries
    ensures
      var key, t := s.jobs[job].key, FailBuild(s, job, failure, now);
      var u := s.usage[key];
      var large := u.tooLarge || failure == TooLarge;
      && JobOver(s, t, job) && t.entries == s.entries && t.buffers == s.buffers
      && t.usage == s.usage[key := Usage(u.plays, u.lastPlay,
                                         if !s.closing && !large && failure == OtherFailure then now + 300000 else u.retryAfter, large)]
  {
  }

  /** An aborted capture does the same, and gives up its buffer; giving up for another's sake marks nothing. */
  lemma AbortIs(s: Cache, job: nat, reason: Option<Failure>, now: int)
    requires Ok(s) && job in s.jobs && s.jobs[job].kind.Capture?
    ensures
      var j := s.jobs[job];
      && j.key in s.usage && (j.buffer.Some? ==> j.buffer.value in s.buffers)
      && var u, t := s.usage[j.key], AbortCapture(s, job, reason, now);
         && JobOver(s, t, job) && t.entries == s.entries
         && t.buffers == (if j.buffer.None? then s.buffers
                          else s.buffers[j.buffer.value := s.buffers[j.buffer.value].(owner := Doomed(true))])
         && t.usage == s.usage[j.key := Usage(u.plays, u.lastPlay,
                                              if reason == Some(OtherFailure) || reason == Some(Closing) then now + 300000 else u.retryAfter,
                                              u.tooLarge || reason == Some(TooLarge))]
  {
    assert JobFits(job, s.jobs[job], s.buffers) && JobListed(s.jobs[job], s.building, s.capturing);
    BuildHasUsage(s, job);
    AbortMarks(s, s.jobs[job].key, reason, now);
    AbortUses(s, job, reason, now);
  }

  lemma AbortUses(s: Cache, job: nat, reason: Option<Failure>, now: int)
    requires job in s.jobs && (s.jobs[job].buffer.Some? ==> s.jobs[job].buffer.value in s.buffers)
    ensures
      var j, t := s.jobs[job], AbortCapture(s, job, reason, now);
      && JobOver(s, t, job) && t.entries == s.entries && t.usage == AbortUsage(s, j.key, reason, now)
      && t.buffers == (if j.buffer.None? then s.buffers
                       else s.buffers[j.buffer.value := s.buffers[j.buffer.value].(owner := Doomed(true))])
  {
  }

  lemma AbortMarks(s: Cache, key: Key, reason: Option<Failure>, now: int)
    requires key in s.usage && key !in s.entries && key !in s.building
    ensures
      var u := s.usage[key];
      AbortUsage(s, key, reason, now)
      == s.usage[key := Usage(u.plays, u.lastPlay,
                              if reason == Some(OtherFailure) || reason == Some(Closing) then now + 300000 else u.retryAfter,
                              u.tooLarge || reason == Some(TooLarge))]
  {
    assert s.usage[key := s.usage[key]] == s.usage;
  }

  // ---------------------------------------------------------------- the time of last use, over runs

  /** When each key was last leased or committed, read off a step and the state it starts from. */
  function Touch(s: Cache, step: Step, times: map<Key, int>): map<Key, int> {
    match step
    case Observing(key, now, _) => if key in s.entries then times[key := now] else times
    case Reacquiring(key, now, _) => if key in s.entries then times[key := now] else times
    case Committing(job, now) =>
      if job in s.jobs && !s.closing && s.jobs[job].key !in s.entries then times[s.jobs[job].key := now] else times
    case _ => times
  }

  ghost function Times(s: Cache, steps: seq<Step>, times: map<Key, int>): map<Key, int>
    requires Ok(s) && Runs(s, steps)
    decreases |steps|
  {
    if steps == [] then times
    else
      StepKeeps(s, steps[0]);
      Times(Next(s, steps[0]), steps[1..], Touch(s, steps[0], times))
  }

  predicate TimedEntry(s: Cache, times: map<Key, int>, key: Key) {
    key in s.entries ==>
      key in times && s.entries[key] in s.buffers && s.buffers[s.entries[key]].lastUsed == times[key]
  }

  /** Every entry's stamp is the time of its last lease or commit. */
  ghost predicate Timed(s: Cache, times: map<Key, int>) {
    forall key :: TimedEntry(s, times, key)
  }

  predicate SameStamp(buffers: map<nat, Buffer>, after: map<nat, Buffer>, id: nat) {
    id in buffers ==> id in after && after[id].lastUsed == buffers[id].lastUsed
  }

  /** No buffer is used, and no entry is new. */
  ghost predicate Unused(s: Cache, t: Cache) {
    && (forall id :: SameStamp(s.buffers, t.buffers, id))
    && (forall key :: key in t.entries ==> key in s.entries && t.entries[key] == s.entries[key])
  }

  lemma UnusedTimed(s: Cache, t: Cache, times: map<Key, int>)
    requires Timed(s, times) && Unused(s, t)
    ensures Timed(t, times)
  {
    forall key ensures TimedEntry(t, times, key) {
      if key in t.entries { assert TimedEntry(s, times, key) && SameStamp(s.buffers, t.buffers, s.entries[key]); }
    }
  }

  lemma SameBuffers(s: Cache, t: Cache)
    requires t.entries == s.entries && t.buffers == s.buffers
    ensures Unused(s, t)
  {
    forall id ensures SameStamp(s.buffers, t.buffers, id) {
    }
  }

  lemma OneBuffer(s: Cache, t: Cache, id: nat)
    requires id in t.buffers && t.buffers == s.buffers[id := t.buffers[id]]
    requires id in s.buffers ==> t.buffers[id].lastUsed == s.buffers[id].lastUsed
    requires forall key :: key in t.entries ==> key in s.entries && t.entries[key] == s.entries[key]
    ensures Unused(s, t)
  {
    forall x ensures SameStamp(s.buffers, t.buffers, x) {
    }
  }

  lemma LeaseTimed(s: Cache, t: Cache, key: Key, now: int, lease: nat, times: map<Key, int>)
    requires Ok(s) && Timed(s, times) && Leases(s, t, key, now, lease)
    ensures Timed(t, if key in s.entries then times[key := now] else times)
  {
    var after := if key in s.entries then times[key := now] else times;
    forall other ensures TimedEntry(t, after, other) {
      assert TimedEntry(s, times, other);
      if other in s.entries && key in s.entries {
        assert EntryOwned(other, s.entries[other], s.buffers) && EntryOwned(key, s.entries[key], s.buffers);
      }
    }
  }

  lemma CommitTimed(s: Cache, job: nat, now: int, times: map<Key, int>)
    requires Ok(s) && Timed(s, times) && job in s.jobs && s.jobs[job].buffer.Some?
    ensures s.jobs[job].buffer.value in s.buffers && Timed(Commit(s, job, now), Touch(s, Committing(job, now), times))
  {
    var j := s.jobs[job];
    assert JobFits(job, j, s.buffers);
    CommitIs(s, job, now);
    var t, after := Commit(s, job, now), Touch(s, Committing(job, now), times);
    forall other ensures TimedEntry(t, after, other) {
      assert TimedEntry(s, times, other);
      if other in s.entries { assert EntryOwned(other, s.entries[other], s.buffers); }
    }
  }

  lemma ReleaseUnused(s: Cache, lease: nat)
    requires lease in s.leases && s.leases[lease] in s.buffers
    ensures Unused(s, Release(s, lease))
  {
    OneBuffer(s, Release(s, lease), s.leases[lease]);
  }

  lemma FreeUnused(s: Cache, id: nat)
    requires id in s.buffers
    ensures Unused(s, Free(s, id))
  {
    OneBuffer(s, Free(s, id), id);
  }

  lemma TurnUnused(s: Cache, job: nat, bytes: int, victim: Option<Key>)
    requires job in s.jobs
    requires victim.Some? ==> victim.value in s.entries && s.entries[victim.value] in s.buffers
    ensures Unused(s, ReserveTurn(s, job, bytes, victim))
  {
    var t := ReserveTurn(s, job, bytes, victim);
    if t.buffers == s.buffers { SameBuffers(s, t.(entries := s.entries)); } else { OneBuffer(s, t, s.entries[victim.value]); }
  }

  lemma AllocateUnused(s: Cache, job: nat, bytes: nat, id: nat)
    requires job in s.jobs && JobFits(job, s.jobs[job], s.buffers) && id !in s.buffers
    ensures Unused(s, Allocate(s, job, bytes, id))
  {
    OneBuffer(s, Allocate(s, job, bytes, id), if s.jobs[job].buffer.Some? then s.jobs[job].buffer.value else id);
  }

  lemma AbortUnused(s: Cache, job: nat, reason: Option<Failure>, now: int)
    requires job in s.jobs && JobFits(job, s.jobs[job], s.buffers)
    ensures Unused(s, AbortCapture(s, job, reason, now))
  {
    var t := AbortCapture(s, job, reason, now);
    if s.jobs[job].buffer.Some? { OneBuffer(s, t, s.jobs[job].buffer.value); } else { SameBuffers(s, t); }
  }

  lemma ObserveTimed(s: Cache, key: Key, now: int, lease: nat, times: map<Key, int>)
    requires Ok(s) && Timed(s, times)
    ensures Timed(Observe(s, key, now, lease), if key in s.entries then times[key := now] else times)
  {
    ObserveIs(s, key, now, lease);
    LeaseTimed(s, Observe(s, key, now, lease), key, now, lease, times);
  }

  lemma ReacquireTimed(s: Cache, key: Key, now: int, lease: nat, times: map<Key, int>)
    requires Ok(s) && Timed(s, times)
    ensures Timed(Reacquire(s, key, now, lease), if key in s.entries then times[key := now] else times)
  {
    ReacquireIs(s, key, now, lease);
    LeaseTimed(s, Reacquire(s, key, now, lease), key, now, lease, times);
  }

  lemma StepTimed(s: Cache, step: Step, times: map<Key, int>)
    requires Ok(s) && Allowed(s, step) && Timed(s, times)
    ensures Timed(Next(s, step), Touch(s, step, times))
  {
    match step
    case Observing(key, now, lease) => ObserveTimed(s, key, now, lease, times);
    case Reacquiring(key, now, lease) => ReacquireTimed(s, key, now, lease, times);
    case Committing(job, now) => CommitTimed(s, job, now, times);
    case _ => OtherStepTimed(s, step, times);
  }

  lemma OtherStepTimed(s: Cache, step: Step, times: map<Key, int>)
    requires Ok(s) && Allowed(s, step) && Timed(s, times) && !step.Observing? && !step.Reacquiring? && !step.Committing?
    ensures Timed(Next(s, step), times)
  {
    OtherStepUnused(s, step);
    UnusedTimed(s, Next(s, step), times);
  }

  lemma OtherStepUnused(s: Cache, step: Step)
    requires Ok(s) && Allowed(s, step) && !step.Observing? && !step.Reacquiring? && !step.Committing?
    ensures Unused(s, Next(s, step))
  {
    match step
    case Releasing(_) => EntryStepUnused(s, step);
    case ReserveTurning(_, _, _, _) => EntryStepUnused(s, step);
    case FreeingVictim => FreeUnused(s, s.evicting.value);
    case FreeingDoomed(id) => FreeUnused(s, id);
    case Allocating(_, _, _) => ProducerStepUnused(s, step);
    case FreeingOwn(_) => ProducerStepUnused(s, step);
    case AbortingCapture(_, _, _) => ProducerStepUnused(s, step);
    case ClosingEntries => EntryStepUnused(s, step);
    case Scheduling(_, _, _, _, _) => QuietStepUnused(s, step);
    case BeginningCapture(_, _, _) => QuietStepUnused(s, step);
    case TryingReserve(_, _) => QuietStepUnused(s, step);
    case EndingEviction => QuietStepUnused(s, step);
    case Unreserving(_, _) => QuietStepUnused(s, step);
    case FailingBuild(_, _, _) => QuietStepUnused(s, step);
    case ClosingDown => SameBuffers(s, Next(s, step));
  }

  lemma EntryStepUnused(s: Cache, step: Step)
    requires Ok(s) && Allowed(s, step) && (step.Releasing? || step.ReserveTurning? || step.ClosingEntries?)
    ensures Unused(s, Next(s, step))
  {
    match step
    case Releasing(lease) => ReleaseUnused(s, lease);
    case ReserveTurning(job, wanted, _, victim) => TurnUnused(s, job, wanted, victim);
    case ClosingEntries => CloseUnused(s);
  }

  lemma CloseUnused(s: Cache)
    ensures Unused(s, CloseEntries(s))
  {
    forall id ensures SameStamp(s.buffers, CloseEntries(s).buffers, id) {
    }
  }

  lemma QuietStepUnused(s: Cache, step: Step)
    requires Ok(s) && Allowed(s, step)
    requires step.Scheduling? || step.BeginningCapture? || step.TryingReserve? || step.EndingEviction? || step.Unreserving? || step.FailingBuild?
    ensures Unused(s, Next(s, step))
  {
    SameBuffers(s, Next(s, step));
  }

  lemma ProducerStepUnused(s: Cache, step: Step)
    requires Ok(s) && Allowed(s, step) && (step.Allocating? || step.FreeingOwn? || step.AbortingCapture?)
    ensures Unused(s, Next(s, step))
  {
    assert JobFits(step.job, s.jobs[step.job], s.buffers);
    match step
    case Allocating(job, bytes, id) => AllocateUnused(s, job, bytes, id);
    case FreeingOwn(job) => FreeUnused(s, s.jobs[job].buffer.value);
    case AbortingCapture(job, reason, now) => AbortUnused(s, job, reason, now);
  }

  lemma {:induction false} RunTimed(s: Cache, steps: seq<Step>, times: map<Key, int>)
    requires Ok(s) && Runs(s, steps) && Timed(s, times)
    ensures Ok(After(s, steps)) && Timed(After(s, steps), Times(s, steps, times))
    decreases |steps|
  {
    if steps != [] {
      StepKeeps(s, steps[0]);
      StepTimed(s, steps[0], times);
      RunTimed(Next(s, steps[0]), steps[1..], Touch(s, steps[0], times));
    }
  }

  /**
   After any run, what a step evicts was last leased or committed no later than any other entry that could be
   evicted: unreferenced, and not played twice with the last play in the last five minutes.
   */
  lemma EvictsLeastRecentlyUsed(maxBytes: nat, start: int, steps: seq<Step>, step: Step, key: Key, other: Key)
    requires Ok(Empty(maxBytes, start)) && Runs(Empty(maxBytes, start), steps)
    requires
      var s := After(Empty(maxBytes, start), steps);
      Ok(s) && Allowed(s, step) && !step.ClosingEntries? && key in s.entries && key !in Next(s, step).entries
    ensures
      var s, times := After(Empty(maxBytes, start), steps), Times(Empty(maxBytes, start), steps, map[]);
      && step.ReserveTurning? && Idle(s, key, step.now) && key in times
      && (Idle(s, other, step.now) ==> other in times && times[key] <= times[other])
  {
    var s, times := After(Empty(maxBytes, start), steps), Times(Empty(maxBytes, start), steps, map[]);
    RunTimed(Empty(maxBytes, start), steps, map[]);
    EvictionIsLeastRecent(s, step, key);
    IdleIs(s, key, step.now);
    IdleIs(s, other, step.now);
    assert TimedEntry(s, times, key) && TimedEntry(s, times, other);
  }

  /** A cached key that no lease holds, and that was not played twice with the last play in the last five minutes. */
  ghost predicate Idle(s: Cache, key: Key, now: int) {
    && key in s.entries && (forall lease :: lease in s.leases ==> s.leases[lease] != s.entries[key])
    && !(key in s.usage && s.usage[key].plays >= 2 && now - s.usage[key].lastPlay < 300000)
  }

  lemma IdleIs(s: Cache, key: Key, now: int)
    requires Ok(s)
    ensures Evictable(s, key, now) <==> Idle(s, key, now)
  {
    if key in s.entries {
      var id := s.entries[key];
      assert EntryOwned(key, id, s.buffers);
      if forall lease :: lease in s.leases ==> s.leases[lease] != id {
        NoPointer(s.leases, id);
      } else {
        var lease :| lease in s.leases && s.leases[lease] == id;
        Referenced(s.buffers, s.leases, lease);
      }
    }
  }
}
