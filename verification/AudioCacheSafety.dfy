/** What the cache invariant means: memory bounds, lease safety, freeing exactly once, and eviction order. */
module AudioCacheSafety {
  import opened Common
  import opened AudioCache

  // ---------------------------------------------------------------- memory

  function LiveBytes(b: Buffer): int {
    if b.owner.Freed? then 0 else b.bytes
  }

  function ProducerBytes(b: Buffer): int {
    if b.owner.Producer? then b.bytes else 0
  }

  function VictimBytes(b: Buffer): int {
    if b.owner.Victim? then b.bytes else 0
  }

  /** The bytes of a buffer that is to be freed or that a lease alone keeps. */
  function LooseBytes(b: Buffer): int {
    if b.owner.Doomed? || b.owner.Leased? then b.bytes else 0
  }

  /** The memory really allocated. */
  ghost function Allocated(s: Cache): int {
    Total(s.buffers, LiveBytes)
  }

  lemma {:induction false} ByOwner(buffers: map<nat, Buffer>)
    ensures Total(buffers, LiveBytes)
         == Total(buffers, CachedBytes) + Total(buffers, ProducerBytes) + Total(buffers, VictimBytes) +
            Total(buffers, LooseBytes)
    decreases |buffers|
  {
    if buffers != map[] {
      var k :| k in buffers;
      TotalSplit(buffers, LiveBytes, k);
      TotalSplit(buffers, CachedBytes, k);
      TotalSplit(buffers, ProducerBytes, k);
      TotalSplit(buffers, VictimBytes, k);
      TotalSplit(buffers, LooseBytes, k);
      ByOwner(buffers - {k});
    }
  }

  lemma {:induction false} AllZero(buffers: map<nat, Buffer>, weight: Buffer -> int)
    requires forall id :: id in buffers ==> weight(buffers[id]) == 0
    ensures Total(buffers, weight) == 0
    decreases |buffers|
  {
    if buffers != map[] {
      var k :| k in buffers;
      TotalSplit(buffers, weight, k);
      AllZero(buffers - {k}, weight);
    }
  }

  lemma {:induction false} SameTotals<K, V>(m: map<K, V>, f: V -> int, g: V -> int)
    requires forall k :: k in m ==> f(m[k]) == g(m[k])
    ensures Total(m, f) == Total(m, g)
    decreases |m|
  {
    if m != map[] {
      var k :| k in m;
      TotalSplit(m, f, k);
      TotalSplit(m, g, k);
      SameTotals(m - {k}, f, g);
    }
  }

  ghost predicate ProducerFits(id: nat, b: Buffer, jobs: map<nat, Job>) {
    b.owner.Producer? ==> b.owner.job in jobs && jobs[b.owner.job].buffer == Some(id)
  }

  /** The part of its reservation that a producer's buffer does not use. */
  function Unused(buffers: map<nat, Buffer>): Job -> int {
    (j: Job) => j.reservation - if j.buffer.Some? && j.buffer.value in buffers then buffers[j.buffer.value].bytes else 0
  }

  /** Each producer's buffer is charged to its own job. */
  lemma {:induction false} ProducersFit(jobs: map<nat, Job>, buffers: map<nat, Buffer>)
    requires forall id :: id in buffers ==> ProducerFits(id, buffers[id], jobs)
    requires forall j :: j in jobs ==> JobFits(j, jobs[j], buffers)
    ensures Total(buffers, ProducerBytes) == Total(jobs, Reservation) - Total(jobs, Unused(buffers))
    decreases |jobs|
  {
    if jobs == map[] {
      AllZero(buffers, ProducerBytes);
    } else {
      var j :| j in jobs;
      TotalSplit(jobs, Reservation, j);
      TotalSplit(jobs, Unused(buffers), j);
      assert JobFits(j, jobs[j], buffers);
      var rest := if jobs[j].buffer.Some? then buffers - {jobs[j].buffer.value} else buffers;
      if jobs[j].buffer.Some? { TotalSplit(buffers, ProducerBytes, jobs[j].buffer.value); }
      forall id | id in rest ensures ProducerFits(id, rest[id], jobs - {j}) {
        assert ProducerFits(id, buffers[id], jobs);
      }
      forall k | k in jobs - {j} ensures JobFits(k, jobs[k], rest) && Unused(rest)(jobs[k]) == Unused(buffers)(jobs[k]) {
        assert JobFits(k, jobs[k], buffers);
      }
      SameTotals(jobs - {j}, Unused(rest), Unused(buffers));
      ProducersFit(jobs - {j}, rest);
    }
  }

  /** The victim's bytes stay charged to reclaiming for a while after it is freed. */
  function FreedVictim(evicting: Option<nat>, buffers: map<nat, Buffer>): int {
    if evicting.Some? && evicting.value in buffers && buffers[evicting.value].owner.Freed? then buffers[evicting.value].bytes else 0
  }

  lemma VictimsReclaimed(s: Cache)
    requires Ok(s)
    ensures Total(s.buffers, VictimBytes) == s.reclaiming - FreedVictim(s.evicting, s.buffers)
  {
    forall id | id in s.buffers && s.buffers[id].owner.Victim? ensures s.evicting == Some(id) {
      assert Owned(id, s.buffers[id], s.entries, s.jobs, s.evicting, s.closed);
    }
    if s.evicting.Some? {
      var v := s.evicting.value;
      TotalSplit(s.buffers, VictimBytes, v);
      AllZero(s.buffers - {v}, VictimBytes);
    } else {
      AllZero(s.buffers, VictimBytes);
    }
  }

  /** What the counters charge and nothing occupies. */
  ghost function Slack(s: Cache): int {
    Total(s.jobs, Unused(s.buffers)) + FreedVictim(s.evicting, s.buffers)
  }

  /** What is allocated and no counter charges: buffers on their way to being freed, and those leased after close. */
  ghost function Uncharged(s: Cache): int {
    Total(s.buffers, LooseBytes)
  }

  /** Allocated memory is what the counters charge, less their slack, and the uncharged buffers. */
  lemma MemoryIs(s: Cache)
    requires Ok(s)
    ensures Allocated(s) == Used(s) - Slack(s) + Uncharged(s)
    ensures Slack(s) >= 0 && Uncharged(s) >= 0
  {
    ByOwner(s.buffers);
    VictimsReclaimed(s);
    forall id | id in s.buffers ensures ProducerFits(id, s.buffers[id], s.jobs) {
      assert Owned(id, s.buffers[id], s.entries, s.jobs, s.evicting, s.closed);
    }
    ProducersFit(s.jobs, s.buffers);
    forall j | j in s.jobs ensures Unused(s.buffers)(s.jobs[j]) >= 0 {
      assert JobFits(j, s.jobs[j], s.buffers);
    }
    TotalNonNegative(s.jobs, Unused(s.buffers));
    TotalNonNegative(s.buffers, LooseBytes);
  }

  /** The counters cover allocated memory exactly when their slack makes up for the uncharged buffers. */
  lemma MemoryCovered(s: Cache)
    requires Ok(s)
    ensures Allocated(s) <= Used(s) <==> Uncharged(s) <= Slack(s)
    ensures Allocated(s) <= s.maxBytes <==> Uncharged(s) <= Slack(s) + (s.maxBytes - Used(s))
  {
    MemoryIs(s);
  }

  /** Before close, allocated memory fits the budget whenever no given-up buffer is waiting to be freed. */
  lemma MemoryBounded(s: Cache)
    requires Ok(s) && !s.closed
    requires forall id :: id in s.buffers ==> !s.buffers[id].owner.Doomed?
    ensures Allocated(s) <= Used(s) <= s.maxBytes
  {
    MemoryIs(s);
    forall id | id in s.buffers ensures LooseBytes(s.buffers[id]) == 0 {
      assert Owned(id, s.buffers[id], s.entries, s.jobs, s.evicting, s.closed);
    }
    AllZero(s.buffers, LooseBytes);
  }

  // ---------------------------------------------------------------- twice the budget

  /** What the counters charge and what they do not: no step of a closing cache makes it larger. */
  ghost function Charge(s: Cache): int {
    Used(s) + Uncharged(s)
  }

  /** A given-up buffer fitted a reservation, so it is no larger than the budget. */
  ghost predicate DoomedFits(b: Buffer, maxBytes: nat) {
    b.owner.Doomed? ==> b.owner.byPlayer && b.bytes <= maxBytes
  }

  ghost predicate SameDoomed(buffers: map<nat, Buffer>, x: nat, y: nat) {
    x in buffers && y in buffers && buffers[x].owner.Doomed? && buffers[y].owner.Doomed? ==> x == y
  }

  /** Before closing, at most one buffer waits to be freed, and the player frees it. */
  ghost predicate OneDoomed(s: Cache) {
    && (forall id :: id in s.buffers ==> DoomedFits(s.buffers[id], s.maxBytes))
    && (forall x, y :: SameDoomed(s.buffers, x, y))
  }

  ghost predicate Bounded(s: Cache) {
    if s.closing then Charge(s) <= 2 * s.maxBytes else OneDoomed(s)
  }

  lemma OneDoomedCharge(s: Cache)
    requires Ok(s) && !s.closing && OneDoomed(s)
    ensures Charge(s) <= 2 * s.maxBytes
  {
    forall id | id in s.buffers ensures !s.buffers[id].owner.Leased? {
      assert Owned(id, s.buffers[id], s.entries, s.jobs, s.evicting, s.closed);
    }
    if id :| id in s.buffers && s.buffers[id].owner.Doomed? {
      TotalSplit(s.buffers, LooseBytes, id);
      var rest := s.buffers - {id};
      forall x | x in rest ensures LooseBytes(rest[x]) == 0 { assert SameDoomed(s.buffers, id, x); }
      AllZero(rest, LooseBytes);
      assert DoomedFits(s.buffers[id], s.maxBytes);
    } else {
      AllZero(s.buffers, LooseBytes);
    }
  }

  ghost predicate NoMoreDoomed(buffers: map<nat, Buffer>, after: map<nat, Buffer>) {
    forall id :: id in after && after[id].owner.Doomed? ==>
                   id in buffers && buffers[id].owner == after[id].owner && buffers[id].bytes == after[id].bytes
  }

  lemma DoomedCarries(s: Cache, t: Cache)
    requires OneDoomed(s) && NoMoreDoomed(s.buffers, t.buffers) && t.maxBytes == s.maxBytes
    ensures OneDoomed(t)
  {
    forall id | id in t.buffers ensures DoomedFits(t.buffers[id], t.maxBytes) {
      if t.buffers[id].owner.Doomed? { assert DoomedFits(s.buffers[id], s.maxBytes); }
    }
    forall x, y ensures SameDoomed(t.buffers, x, y) {
      assert SameDoomed(s.buffers, x, y);
    }
  }

  lemma AcquireNoMoreDoomed(s: Cache, key: Key, now: int, lease: nat)
    ensures NoMoreDoomed(s.buffers, Acquire(s, key, now, lease).buffers)
  {
  }

  lemma ObserveNoMoreDoomed(s: Cache, key: Key, now: int, lease: nat)
    ensures NoMoreDoomed(s.buffers, Observe(s, key, now, lease).buffers)
  {
    var p := Prune(s, now);
    var u := if key in p.usage then p.usage[key] else Usage(0, 0, 0, false);
    AcquireNoMoreDoomed(p.(usage := p.usage[key := Played(u, now)]), key, now, lease);
  }

  lemma ReacquireNoMoreDoomed(s: Cache, key: Key, now: int, lease: nat)
    ensures NoMoreDoomed(s.buffers, Reacquire(s, key, now, lease).buffers)
  {
    var u := if key in s.usage then s.usage[key := s.usage[key].(lastPlay := now)] else s.usage;
    AcquireNoMoreDoomed(s.(usage := u), key, now, lease);
  }

  /** Before closing, a lease's end frees nothing. */
  lemma ReleaseNoMoreDoomed(s: Cache, lease: nat)
    requires Ok(s) && !s.closing && lease in s.leases
    ensures NoMoreDoomed(s.buffers, Release(s, lease).buffers)
  {
    var id := s.leases[lease];
    assert Owned(id, s.buffers[id], s.entries, s.jobs, s.evicting, s.closed);
  }

  /** Before closing, every commit is admitted. */
  lemma CommitNoMoreDoomed(s: Cache, job: nat, now: int)
    requires Ok(s) && !s.closing && job in s.jobs && s.jobs[job].buffer.Some?
    ensures s.jobs[job].buffer.value in s.buffers && NoMoreDoomed(s.buffers, Commit(s, job, now).buffers)
  {
    assert JobFits(job, s.jobs[job], s.buffers) && JobListed(s.jobs[job], s.building, s.capturing);
    assert s.jobs[job].key !in s.entries;
  }

  lemma AllocateNoMoreDoomed(s: Cache, job: nat, bytes: nat, id: nat)
    requires job in s.jobs && JobFits(job, s.jobs[job], s.buffers)
    ensures NoMoreDoomed(s.buffers, Allocate(s, job, bytes, id).buffers)
  {
  }

  lemma FreeNoMoreDoomed(s: Cache, id: nat)
    requires id in s.buffers
    ensures NoMoreDoomed(s.buffers, Free(s, id).buffers)
  {
  }

  lemma ReserveTurnNoMoreDoomed(s: Cache, job: nat, bytes: int, victim: Option<Key>)
    requires job in s.jobs
    requires victim.Some? ==> victim.value in s.entries && s.entries[victim.value] in s.buffers
    ensures NoMoreDoomed(s.buffers, ReserveTurn(s, job, bytes, victim).buffers)
  {
  }

  lemma AbortOneDoomed(s: Cache, job: nat, reason: Option<Failure>, now: int)
    requires Ok(s) && !s.closing && OneDoomed(s) && PlayerFree(s) && job in s.jobs
    ensures s.jobs[job].buffer.Some? ==> s.jobs[job].buffer.value in s.buffers
    ensures OneDoomed(AbortCapture(s, job, reason, now))
  {
    var j, t := s.jobs[job], AbortCapture(s, job, reason, now);
    assert JobFits(job, j, s.buffers);
    ReservationFits(s, job);
    forall id | id in s.buffers ensures !s.buffers[id].owner.Doomed? {
      assert DoomedFits(s.buffers[id], s.maxBytes);
    }
    forall id | id in t.buffers ensures DoomedFits(t.buffers[id], t.maxBytes) {
    }
  }

  lemma ReservationFits(s: Cache, job: nat)
    requires Ok(s) && job in s.jobs
    ensures s.jobs[job].reservation <= s.maxBytes
  {
    TotalSplit(s.jobs, Reservation, job);
    forall j | j in s.jobs ensures s.jobs[j].reservation >= 0 { assert JobFits(j, s.jobs[j], s.buffers); }
    TotalNonNegative(s.jobs - {job}, Reservation);
    TotalNonNegative(s.buffers, CachedBytes);
  }

  lemma StepNoMoreDoomed(s: Cache, step: Step)
    requires Ok(s) && Allowed(s, step) && !s.closing && !step.AbortingCapture?
    ensures NoMoreDoomed(s.buffers, Next(s, step).buffers)
  {
    match step
    case Observing(key, now, lease) => ObserveNoMoreDoomed(s, key, now, lease);
    case Reacquiring(key, now, lease) => ReacquireNoMoreDoomed(s, key, now, lease);
    case Releasing(lease) => ReleaseNoMoreDoomed(s, lease);
    case ReserveTurning(job, wanted, _, victim) => ReserveTurnNoMoreDoomed(s, job, wanted, victim);
    case Allocating(_, _, _) => ProducerNoMoreDoomed(s, step);
    case FreeingOwn(_) => ProducerNoMoreDoomed(s, step);
    case Committing(_, _) => ProducerNoMoreDoomed(s, step);
    case FreeingVictim => FreeNoMoreDoomed(s, s.evicting.value);
    case FreeingDoomed(id) => FreeNoMoreDoomed(s, id);
    case _ =>
  }

  lemma ProducerNoMoreDoomed(s: Cache, step: Step)
    requires Ok(s) && Allowed(s, step) && !s.closing && (step.Allocating? || step.FreeingOwn? || step.Committing?)
    ensures NoMoreDoomed(s.buffers, Next(s, step).buffers)
  {
    match step
    case Committing(job, now) => CommitNoMoreDoomed(s, job, now);
    case Allocating(job, bytes, id) =>
      assert JobFits(job, s.jobs[job], s.buffers);
      AllocateNoMoreDoomed(s, job, bytes, id);
    case FreeingOwn(job) => FreeNoMoreDoomed(s, s.jobs[job].buffer.value);
  }

  lemma SameBudget(s: Cache, step: Step)
    requires Ok(s) && Allowed(s, step)
    ensures Next(s, step).maxBytes == s.maxBytes
  {
  }

  /** A step before closing leaves at most one buffer on its way to being freed. */
  lemma OneDoomedKeeps(s: Cache, step: Step)
    requires Ok(s) && Allowed(s, step) && !s.closing && OneDoomed(s)
    ensures OneDoomed(Next(s, step))
  {
    if step.AbortingCapture? {
      AbortOneDoomed(s, step.job, step.reason, step.now);
    } else {
      StepNoMoreDoomed(s, step);
      SameBudget(s, step);
      DoomedCarries(s, Next(s, step));
    }
  }

  /** One buffer changes hands. */
  lemma LooseChanges(s: Cache, t: Cache, id: nat)
    requires id in s.buffers && id in t.buffers && t.buffers == s.buffers[id := t.buffers[id]]
    ensures Uncharged(t) == Uncharged(s) + LooseBytes(t.buffers[id]) - LooseBytes(s.buffers[id])
  {
    TotalUpdate(s.buffers, LooseBytes, id, t.buffers[id]);
  }

  lemma AcquireCharge(s: Cache, key: Key, now: int, lease: nat)
    ensures Charge(Acquire(s, key, now, lease)) == Charge(s)
  {
    if key in s.entries && s.entries[key] in s.buffers { LooseChanges(s, Acquire(s, key, now, lease), s.entries[key]); }
  }

  lemma ObserveCharge(s: Cache, key: Key, now: int, lease: nat)
    ensures Charge(Observe(s, key, now, lease)) == Charge(s)
  {
    var p := Prune(s, now);
    var u := if key in p.usage then p.usage[key] else Usage(0, 0, 0, false);
    AcquireCharge(p.(usage := p.usage[key := Played(u, now)]), key, now, lease);
  }

  lemma ReacquireCharge(s: Cache, key: Key, now: int, lease: nat)
    ensures Charge(Reacquire(s, key, now, lease)) == Charge(s)
  {
    var u := if key in s.usage then s.usage[key := s.usage[key].(lastPlay := now)] else s.usage;
    AcquireCharge(s.(usage := u), key, now, lease);
  }

  lemma ReleaseCharge(s: Cache, lease: nat)
    requires lease in s.leases && s.leases[lease] in s.buffers
    ensures Charge(Release(s, lease)) == Charge(s)
  {
    LooseChanges(s, Release(s, lease), s.leases[lease]);
  }

  lemma FreeCharge(s: Cache, id: nat)
    requires id in s.buffers
    ensures Charge(Free(s, id)) <= Charge(s)
  {
    LooseChanges(s, Free(s, id), id);
  }

  lemma AllocateCharge(s: Cache, job: nat, bytes: nat, id: nat)
    requires job in s.jobs && JobFits(job, s.jobs[job], s.buffers) && id !in s.buffers
    ensures Charge(Allocate(s, job, bytes, id)) == Charge(s)
  {
    var t := Allocate(s, job, bytes, id);
    if s.jobs[job].buffer.Some? {
      LooseChanges(s, t, s.jobs[job].buffer.value);
    } else {
      TotalUpdate(s.buffers, LooseBytes, id, t.buffers[id]);
    }
  }

  /** A producer that ends without an entry trades its reservation for a buffer no larger. */
  lemma EndCharge(s: Cache, t: Cache, job: nat, byPlayer: bool)
    requires job in s.jobs && JobFits(job, s.jobs[job], s.buffers)
    requires Used(t) == Used(s) - s.jobs[job].reservation
    requires
      var b := s.jobs[job].buffer;
      t.buffers == if b.None? then s.buffers else s.buffers[b.value := s.buffers[b.value].(owner := Doomed(byPlayer))]
    ensures Charge(t) <= Charge(s)
  {
    if s.jobs[job].buffer.Some? { LooseChanges(s, t, s.jobs[job].buffer.value); }
  }

  lemma {:induction false} CloseLoose(buffers: map<nat, Buffer>, after: map<nat, Buffer>)
    requires after.Keys == buffers.Keys && forall id :: id in buffers ==> after[id] == Uncached(buffers[id])
    ensures Total(after, LooseBytes) == Total(buffers, LooseBytes) + Total(buffers, CachedBytes)
    decreases |buffers|
  {
    if buffers == map[] {
      assert after == map[];
    } else {
      var k :| k in buffers;
      TotalSplit(after, LooseBytes, k);
      TotalSplit(buffers, LooseBytes, k);
      TotalSplit(buffers, CachedBytes, k);
      CloseLoose(buffers - {k}, after - {k});
    }
  }

  lemma CloseCharge(s: Cache)
    requires Accounts(s)
    ensures Charge(CloseEntries(s)) == Charge(s)
  {
    CloseLoose(s.buffers, CloseEntries(s).buffers);
  }

  lemma CommitCharge(s: Cache, job: nat, now: int)
    requires s.closing && job in s.jobs && JobFits(job, s.jobs[job], s.buffers) && s.jobs[job].buffer.Some?
    ensures Charge(Commit(s, job, now)) <= Charge(s)
  {
    EndCharge(s, Commit(s, job, now), job, s.jobs[job].kind.Capture?);
  }

  lemma AbortCharge(s: Cache, job: nat, reason: Option<Failure>, now: int)
    requires job in s.jobs && JobFits(job, s.jobs[job], s.buffers)
    ensures Charge(AbortCapture(s, job, reason, now)) <= Charge(s)
  {
    EndCharge(s, AbortCapture(s, job, reason, now), job, true);
  }

  lemma ProducerCharge(s: Cache, step: Step)
    requires Ok(s) && Allowed(s, step) && s.closing
    requires step.Committing? || step.AbortingCapture? || step.FailingBuild? || step.Allocating?
    ensures Charge(Next(s, step)) <= Charge(s)
  {
    assert JobFits(step.job, s.jobs[step.job], s.buffers);
    match step
    case Committing(job, now) => CommitCharge(s, job, now);
    case AbortingCapture(job, reason, now) => AbortCharge(s, job, reason, now);
    case Allocating(job, bytes, id) => AllocateCharge(s, job, bytes, id);
    case _ =>
  }

  /** While the cache closes, the charge never grows: nothing is reserved and nothing is admitted. */
  lemma ClosingCharge(s: Cache, step: Step)
    requires Ok(s) && Allowed(s, step) && s.closing
    ensures Charge(Next(s, step)) <= Charge(s)
  {
    match step
    case Observing(key, now, lease) => ObserveCharge(s, key, now, lease);
    case Reacquiring(key, now, lease) => ReacquireCharge(s, key, now, lease);
    case Releasing(lease) => ReleaseCharge(s, lease);
    case Committing(_, _) => ProducerCharge(s, step);
    case AbortingCapture(_, _, _) => ProducerCharge(s, step);
    case FailingBuild(_, _, _) => ProducerCharge(s, step);
    case Allocating(_, _, _) => ProducerCharge(s, step);
    case FreeingVictim => FreeCharge(s, s.evicting.value);
    case FreeingOwn(job) => FreeCharge(s, s.jobs[job].buffer.value);
    case FreeingDoomed(id) => FreeCharge(s, id);
    case ClosingEntries => CloseCharge(s);
    case _ =>
  }

  lemma ClosingStays(s: Cache, step: Step)
    requires Ok(s) && Allowed(s, step)
    ensures Next(s, step).closing == (s.closing || step.ClosingDown?)
  {
  }

  lemma BoundedKeeps(s: Cache, step: Step)
    requires Ok(s) && Allowed(s, step) && Bounded(s)
    ensures Bounded(Next(s, step))
  {
    SameBudget(s, step);
    ClosingStays(s, step);
    if s.closing {
      ClosingCharge(s, step);
    } else if step.ClosingDown? {
      OneDoomedCharge(s);
    } else {
      OneDoomedKeeps(s, step);
    }
  }

  lemma {:induction false} BoundedRun(s: Cache, steps: seq<Step>)
    requires Ok(s) && Runs(s, steps) && Bounded(s)
    ensures Ok(After(s, steps)) && Bounded(After(s, steps)) && After(s, steps).maxBytes == s.maxBytes
    decreases |steps|
  {
    if steps != [] {
      StepKeeps(s, steps[0]);
      SameBudget(s, steps[0]);
      BoundedKeeps(s, steps[0]);
      BoundedRun(Next(s, steps[0]), steps[1..]);
    }
  }

  /** In every reachable state, closing or not, allocated memory is at most twice the budget. */
  lemma TwiceTheBudget(s: Cache, maxBytes: nat, now: int)
    requires Reachable(s, maxBytes, now)
    ensures Ok(s) && Allocated(s) <= 2 * maxBytes
  {
    EmptyOk(maxBytes, now);
    var steps :| Runs(Empty(maxBytes, now), steps) && After(Empty(maxBytes, now), steps) == s;
    BoundedRun(Empty(maxBytes, now), steps);
    if !s.closing { OneDoomedCharge(s); }
    MemoryIs(s);
  }

  const FIRST: Key := Pcm("a", 2, 0.0, -1.0)
  const SECOND: Key := Pcm("b", 2, 0.0, -1.0)

  /** One clip is played once, another is looped and so gets a build. */
  function Played2(maxBytes: nat): Cache {
    Empty(maxBytes, 0).(
      usage := map[SECOND := Usage(2, 1, 0, false), FIRST := Usage(1, 1, 0, false)],
      building := {SECOND}, jobs := map[1 := Job(Build, SECOND, 0, None)])
  }

  /** The first clip's capture has taken the whole budget. */
  function CapturedAll(maxBytes: nat): Cache {
    Played2(maxBytes).(
      capturing := {FIRST}, reserved := maxBytes,
      jobs := map[1 := Job(Build, SECOND, 0, None), 0 := Job(Capture, FIRST, maxBytes, Some(0))],
      buffers := map[0 := Buffer(maxBytes, 0, 0, Producer(0), 0)])
  }

  /** It is aborted; before the player frees its buffer, the build worker takes the whole budget too. */
  function BuiltAll(maxBytes: nat): Cache {
    Played2(maxBytes).(
      reserved := maxBytes, jobs := map[1 := Job(Build, SECOND, maxBytes, Some(1))],
      buffers := map[0 := Buffer(maxBytes, 0, 0, Doomed(true), 0), 1 := Buffer(maxBytes, 0, 0, Producer(1), 0)])
  }

  lemma EmptyReachable(maxBytes: nat)
    ensures Ok(Empty(maxBytes, 0)) && Reachable(Empty(maxBytes, 0), maxBytes, 0)
  {
    EmptyOk(maxBytes, 0);
    assert Runs(Empty(maxBytes, 0), []) && After(Empty(maxBytes, 0), []) == Empty(maxBytes, 0);
  }

  lemma Reaches(s: Cache, step: Step, t: Cache, maxBytes: nat)
    requires Ok(s) && Reachable(s, maxBytes, 0) && Allowed(s, step) && Next(s, step) == t
    ensures Ok(t) && Reachable(t, maxBytes, 0)
  {
    ReachesNext(s, step, maxBytes, 0);
  }

  function Looped(maxBytes: nat): Cache {
    Empty(maxBytes, 0).(usage := map[SECOND := Usage(1, 1, 0, false)])
  }

  function Building2(maxBytes: nat): Cache {
    Empty(maxBytes, 0).(
      usage := map[SECOND := Usage(2, 1, 0, false)], building := {SECOND}, jobs := map[1 := Job(Build, SECOND, 0, None)])
  }

  lemma PlayedReachable(maxBytes: nat)
    requires maxBytes > 0
    ensures Ok(Played2(maxBytes)) && Reachable(Played2(maxBytes), maxBytes, 0)
  {
    EmptyReachable(maxBytes);
    Reaches(Empty(maxBytes, 0), Observing(SECOND, 1, 0), Looped(maxBytes), maxBytes);
    Reaches(Looped(maxBytes), Scheduling(SECOND, 2, 1, true, 1), Building2(maxBytes), maxBytes);
    Reaches(Building2(maxBytes), Observing(FIRST, 1, 0), Played2(maxBytes), maxBytes);
  }

  function Begun(maxBytes: nat, reservation: int): Cache {
    Played2(maxBytes).(
      capturing := {FIRST}, reserved := reservation,
      jobs := map[1 := Job(Build, SECOND, 0, None), 0 := Job(Capture, FIRST, reservation, None)])
  }

  lemma BegunReachable(maxBytes: nat)
    requires maxBytes > 0
    ensures Ok(Begun(maxBytes, 0)) && Reachable(Begun(maxBytes, 0), maxBytes, 0)
  {
    PlayedReachable(maxBytes);
    assert BeginCapture(Played2(maxBytes), FIRST, 1, 0) == Begun(maxBytes, 0);
    Reaches(Played2(maxBytes), BeginningCapture(FIRST, 1, 0), Begun(maxBytes, 0), maxBytes);
  }

  lemma CaptureReserves(maxBytes: nat)
    requires maxBytes > 0
    ensures TryReserve(Begun(maxBytes, 0), 0, maxBytes) == Begun(maxBytes, maxBytes)
    ensures Allocate(Begun(maxBytes, maxBytes), 0, maxBytes, 0) == CapturedAll(maxBytes)
  {
    assert Allocate(Begun(maxBytes, maxBytes), 0, maxBytes, 0).jobs == CapturedAll(maxBytes).jobs;
  }

  lemma CapturedReachable(maxBytes: nat)
    requires maxBytes > 0
    ensures Ok(CapturedAll(maxBytes)) && Reachable(CapturedAll(maxBytes), maxBytes, 0)
  {
    BegunReachable(maxBytes);
    CaptureReserves(maxBytes);
    Reaches(Begun(maxBytes, 0), TryingReserve(0, maxBytes), Begun(maxBytes, maxBytes), maxBytes);
    Reaches(Begun(maxBytes, maxBytes), Allocating(0, maxBytes, 0), CapturedAll(maxBytes), maxBytes);
  }

  function Aborted(maxBytes: nat, reservation: int): Cache {
    Played2(maxBytes).(
      reserved := reservation, jobs := map[1 := Job(Build, SECOND, reservation, None)],
      buffers := map[0 := Buffer(maxBytes, 0, 0, Doomed(true), 0)])
  }

  lemma CaptureAborts(maxBytes: nat)
    ensures AbortCapture(CapturedAll(maxBytes), 0, None, 1) == Aborted(maxBytes, 0)
  {
    var t := AbortCapture(CapturedAll(maxBytes), 0, None, 1);
    assert t.jobs == Aborted(maxBytes, 0).jobs && t.buffers == Aborted(maxBytes, 0).buffers && t.capturing == {};
  }

  lemma BuildReserves(maxBytes: nat)
    requires maxBytes > 0
    ensures ReserveTurn(Aborted(maxBytes, 0), 1, maxBytes, None) == Aborted(maxBytes, maxBytes)
    ensures Allocate(Aborted(maxBytes, maxBytes), 1, maxBytes, 1) == BuiltAll(maxBytes)
  {
    assert Allocate(Aborted(maxBytes, maxBytes), 1, maxBytes, 1).jobs == BuiltAll(maxBytes).jobs;
  }

  lemma AbortedReachable(maxBytes: nat)
    requires maxBytes > 0
    ensures Ok(Aborted(maxBytes, 0)) && Reachable(Aborted(maxBytes, 0), maxBytes, 0)
  {
    CapturedReachable(maxBytes);
    CaptureAborts(maxBytes);
    Reaches(CapturedAll(maxBytes), AbortingCapture(0, None, 1), Aborted(maxBytes, 0), maxBytes);
  }

  lemma ReservedReachable(maxBytes: nat)
    requires maxBytes > 0
    ensures Ok(Aborted(maxBytes, maxBytes)) && Reachable(Aborted(maxBytes, maxBytes), maxBytes, 0)
  {
    AbortedReachable(maxBytes);
    BuildReserves(maxBytes);
    assert Aborted(maxBytes, 0).entries == map[];
    Reaches(Aborted(maxBytes, 0), ReserveTurning(1, maxBytes, 1, None), Aborted(maxBytes, maxBytes), maxBytes);
  }

  lemma BuildMayAllocate(maxBytes: nat)
    ensures Allowed(Aborted(maxBytes, maxBytes), Allocating(1, maxBytes, 1))
  {
  }

  lemma BuiltReachable(maxBytes: nat)
    requires maxBytes > 0
    ensures Ok(BuiltAll(maxBytes)) && Reachable(BuiltAll(maxBytes), maxBytes, 0)
  {
    ReservedReachable(maxBytes);
    BuildReserves(maxBytes);
    BuildMayAllocate(maxBytes);
    Reaches(Aborted(maxBytes, maxBytes), Allocating(1, maxBytes, 1), BuiltAll(maxBytes), maxBytes);
  }

  /** The bound is reached: a build may take the whole budget between a capture's abort and the freeing of its buffer. */
  lemma OverBudget(maxBytes: nat)
    requires maxBytes > 0
    ensures Reachable(BuiltAll(maxBytes), maxBytes, 0) && !BuiltAll(maxBytes).closing
    ensures Allocated(BuiltAll(maxBytes)) == 2 * maxBytes
  {
    BuiltReachable(maxBytes);
    var buffers := BuiltAll(maxBytes).buffers;
    TotalSplit(buffers, LiveBytes, 0);
    TotalSplit(buffers - {0}, LiveBytes, 1);
    assert buffers - {0} - {1} == map[];
  }

  // ---------------------------------------------------------------- leases and freeing

  lemma Referenced(buffers: map<nat, Buffer>, leases: map<nat, nat>, lease: nat)
    requires RefsCount(buffers, leases) && lease in leases
    ensures buffers[leases[lease]].refs >= 1
  {
    var points := PointsTo(leases[lease]);
    TotalSplit(leases, points, lease);
    TotalNonNegative(leases - {lease}, points);
  }

  /** A leased buffer is not freed, and nobody is about to free it. */
  lemma LeaseSafe(s: Cache, lease: nat)
    requires Ok(s) && lease in s.leases
    ensures
      var b := s.buffers[s.leases[lease]];
      b.frees == 0 && b.refs >= 1 && (b.owner.Cached? || b.owner.Leased?)
  {
    var id := s.leases[lease];
    Referenced(s.buffers, s.leases, lease);
    assert Owned(id, s.buffers[id], s.entries, s.jobs, s.evicting, s.closed);
  }

  ghost predicate BufferEvolves(b: Buffer, after: Buffer) {
    b.frees <= after.frees && (after.bytes == b.bytes || b.owner.Producer?)
  }

  /** Buffers stay known, are not unfreed, and only a producer's own buffer changes its size. */
  ghost predicate Evolves(buffers: map<nat, Buffer>, after: map<nat, Buffer>) {
    forall id :: id in buffers ==> id in after && BufferEvolves(buffers[id], after[id])
  }

  lemma ReserveTurnEvolves(s: Cache, job: nat, bytes: int, victim: Option<Key>)
    requires job in s.jobs
    requires victim.Some? ==> victim.value in s.entries && s.entries[victim.value] in s.buffers
    ensures Evolves(s.buffers, ReserveTurn(s, job, bytes, victim).buffers)
  {
  }

  lemma CommitEvolves(s: Cache, job: nat, now: int)
    requires job in s.jobs && s.jobs[job].buffer.Some? && s.jobs[job].buffer.value in s.buffers
    ensures Evolves(s.buffers, Commit(s, job, now).buffers)
  {
  }

  lemma AbortEvolves(s: Cache, job: nat, reason: Option<Failure>, now: int)
    requires job in s.jobs && (s.jobs[job].buffer.Some? ==> s.jobs[job].buffer.value in s.buffers)
    ensures Evolves(s.buffers, AbortCapture(s, job, reason, now).buffers)
  {
  }

  lemma AllocateEvolves(s: Cache, job: nat, bytes: nat, id: nat)
    requires job in s.jobs && id !in s.buffers
    requires s.jobs[job].buffer.Some? ==>
               s.jobs[job].buffer.value in s.buffers && s.buffers[s.jobs[job].buffer.value].owner.Producer?
    ensures Evolves(s.buffers, Allocate(s, job, bytes, id).buffers)
  {
  }

  lemma ReleaseEvolves(s: Cache, lease: nat)
    requires lease in s.leases && s.leases[lease] in s.buffers
    ensures Evolves(s.buffers, Release(s, lease).buffers)
  {
  }

  lemma AcquireEvolves(s: Cache, key: Key, now: int, lease: nat)
    ensures Evolves(s.buffers, Acquire(s, key, now, lease).buffers)
  {
  }

  lemma ObserveEvolves(s: Cache, key: Key, now: int, lease: nat)
    ensures Evolves(s.buffers, Observe(s, key, now, lease).buffers)
  {
    var p := Prune(s, now);
    var u := if key in p.usage then p.usage[key] else Usage(0, 0, 0, false);
    AcquireEvolves(p.(usage := p.usage[key := Played(u, now)]), key, now, lease);
  }

  lemma ReacquireEvolves(s: Cache, key: Key, now: int, lease: nat)
    ensures Evolves(s.buffers, Reacquire(s, key, now, lease).buffers)
  {
    var u := if key in s.usage then s.usage[key := s.usage[key].(lastPlay := now)] else s.usage;
    AcquireEvolves(s.(usage := u), key, now, lease);
  }

  lemma FreeEvolves(s: Cache, id: nat)
    requires id in s.buffers
    ensures Evolves(s.buffers, Free(s, id).buffers)
  {
  }

  lemma CloseEvolves(s: Cache)
    ensures Evolves(s.buffers, CloseEntries(s).buffers)
  {
  }

  lemma StepEvolves(s: Cache, step: Step)
    requires Ok(s) && Allowed(s, step)
    ensures Evolves(s.buffers, Next(s, step).buffers)
  {
    match step
    case Observing(key, now, lease) => ObserveEvolves(s, key, now, lease);
    case Reacquiring(key, now, lease) => ReacquireEvolves(s, key, now, lease);
    case Releasing(lease) => ReleaseEvolves(s, lease);
    case ReserveTurning(job, wanted, _, victim) => ReserveTurnEvolves(s, job, wanted, victim);
    case Allocating(job, bytes, id) =>
      assert JobFits(job, s.jobs[job], s.buffers);
      AllocateEvolves(s, job, bytes, id);
    case Committing(job, now) => CommitEvolves(s, job, now);
    case AbortingCapture(job, reason, now) => AbortEvolves(s, job, reason, now);
    case FreeingVictim => FreeEvolves(s, s.evicting.value);
    case FreeingOwn(job) => FreeEvolves(s, s.jobs[job].buffer.value);
    case FreeingDoomed(id) => FreeEvolves(s, id);
    case ClosingEntries => CloseEvolves(s);
    case _ => assert Next(s, step).buffers == s.buffers;
  }

  /** No step frees a buffer twice or forgets that it was freed. */
  lemma FreedOnce(s: Cache, step: Step, id: nat)
    requires Ok(s) && Allowed(s, step) && id in s.buffers
    ensures id in Next(s, step).buffers && s.buffers[id].frees <= Next(s, step).buffers[id].frees <= 1
  {
    StepKeeps(s, step);
    StepEvolves(s, step);
    AtMostOnce(Next(s, step), id);
  }

  lemma AtMostOnce(s: Cache, id: nat)
    requires Ok(s) && id in s.buffers
    ensures s.buffers[id].frees <= 1
  {
    assert Owned(id, s.buffers[id], s.entries, s.jobs, s.evicting, s.closed);
  }

  /** When everything is over, every buffer that ever existed has been freed exactly once. */
  lemma NothingLeaks(s: Cache)
    requires Ok(s) && s.closed && s.jobs == map[] && s.leases == map[] && s.evicting.None?
    requires forall id :: id in s.buffers ==> !s.buffers[id].owner.Doomed?
    ensures forall id :: id in s.buffers ==> s.buffers[id].frees == 1
  {
    forall id | id in s.buffers ensures s.buffers[id].frees == 1 {
      assert Owned(id, s.buffers[id], s.entries, s.jobs, s.evicting, s.closed);
    }
  }

  // ---------------------------------------------------------------- eviction

  /**
   Before close, an entry leaves the cache only to make room for a reservation that does not fit. It is then
   unreferenced, not hot, and the least recently used such entry of both kinds.
   */
  lemma EvictionIsLeastRecent(s: Cache, step: Step, key: Key)
    requires Ok(s) && Allowed(s, step) && !step.ClosingEntries? && key in s.entries && key !in Next(s, step).entries
    ensures step.ReserveTurning? && Used(s) + step.wanted > s.maxBytes
    ensures Evictable(s, key, step.now)
    ensures forall other :: Evictable(s, other, step.now) ==> LastUsed(s, key) <= LastUsed(s, other)
  {
    if !step.ReserveTurning? { EntriesStay(s, step); }
  }

  /** Acquiring, starting and ending producers, and freeing take no entry. */
  lemma EntriesStay(s: Cache, step: Step)
    requires Ok(s) && Allowed(s, step) && !step.ClosingEntries? && !step.ReserveTurning?
    ensures s.entries.Keys <= Next(s, step).entries.Keys
  {
    match step
    case Allocating(_, _, _) => ProducerEntriesStay(s, step);
    case FreeingOwn(_) => ProducerEntriesStay(s, step);
    case Committing(_, _) => ProducerEntriesStay(s, step);
    case FailingBuild(_, _, _) => ProducerEntriesStay(s, step);
    case AbortingCapture(_, _, _) => ProducerEntriesStay(s, step);
    case _ =>
  }

  lemma ProducerEntriesStay(s: Cache, step: Step)
    requires Ok(s) && Allowed(s, step)
    requires step.Allocating? || step.FreeingOwn? || step.Committing? || step.FailingBuild? || step.AbortingCapture?
    ensures s.entries.Keys <= Next(s, step).entries.Keys
  {
  }

  /** Nothing but its release ends a lease, and its buffer stays allocated at the same size. */
  lemma LeasedStays(s: Cache, step: Step, lease: nat)
    requires Ok(s) && Allowed(s, step) && lease in s.leases && !step.Releasing?
    ensures
      var t := Next(s, step);
      && lease in t.leases && t.leases[lease] == s.leases[lease] && t.leases[lease] in t.buffers
      && t.buffers[t.leases[lease]].frees == 0 && t.buffers[t.leases[lease]].bytes == s.buffers[s.leases[lease]].bytes
  {
    LeaseSafe(s, lease);
    StepKeeps(s, step);
    StepEvolves(s, step);
    LeaseRemains(s, step, lease);
    LeaseSafe(Next(s, step), lease);
  }

  lemma LeaseRemains(s: Cache, step: Step, lease: nat)
    requires Ok(s) && Allowed(s, step) && lease in s.leases && !step.Releasing?
    ensures lease in Next(s, step).leases && Next(s, step).leases[lease] == s.leases[lease]
  {
    match step
    case Observing(key, now, other) => AcquireLeases(s, key, now, other, lease);
    case Reacquiring(key, now, other) => AcquireLeases(s, key, now, other, lease);
    case _ => OtherLeases(s, step);
  }

  lemma AcquireLeases(s: Cache, key: Key, now: int, lease: nat, other: nat)
    requires other in s.leases && lease != other
    ensures other in Observe(s, key, now, lease).leases && Observe(s, key, now, lease).leases[other] == s.leases[other]
    ensures other in Reacquire(s, key, now, lease).leases && Reacquire(s, key, now, lease).leases[other] == s.leases[other]
  {
    var p := Prune(s, now);
    var u := if key in p.usage then p.usage[key] else Usage(0, 0, 0, false);
    AcquireKeepsLease(p.(usage := p.usage[key := Played(u, now)]), key, now, lease, other);
    var v := if key in s.usage then s.usage[key := s.usage[key].(lastPlay := now)] else s.usage;
    AcquireKeepsLease(s.(usage := v), key, now, lease, other);
  }

  lemma AcquireKeepsLease(s: Cache, key: Key, now: int, lease: nat, other: nat)
    requires other in s.leases && lease != other
    ensures other in Acquire(s, key, now, lease).leases && Acquire(s, key, now, lease).leases[other] == s.leases[other]
  {
  }

  lemma OtherLeases(s: Cache, step: Step)
    requires Ok(s) && Allowed(s, step) && !step.Releasing? && !step.Observing? && !step.Reacquiring?
    ensures Next(s, step).leases == s.leases
  {
    match step
    case Allocating(_, _, _) => ProducerLeases(s, step);
    case FreeingOwn(_) => ProducerLeases(s, step);
    case Committing(_, _) => ProducerLeases(s, step);
    case FailingBuild(_, _, _) => ProducerLeases(s, step);
    case AbortingCapture(_, _, _) => ProducerLeases(s, step);
    case _ =>
  }

  lemma ProducerLeases(s: Cache, step: Step)
    requires Ok(s) && Allowed(s, step)
    requires step.Allocating? || step.FreeingOwn? || step.Committing? || step.FailingBuild? || step.AbortingCapture?
    ensures Next(s, step).leases == s.leases
  {
  }
}
