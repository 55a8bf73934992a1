/** audioCache as the object it is: fields that each critical section updates, against the steps of AudioCache. */
module AudioCacheObject {
  import opened Common
  import opened AudioCache
  import opened AudioCacheUse

  class SharedCache {
    const maxBytes: nat
    var entries: map<Key, nat>
    var usage: map<Key, Usage>
    var building: set<Key>
    var capturing: set<Key>
    var resident: int
    var reserved: int
    var reclaiming: int
    var closing: bool
    var lastPrune: int
    var buffers: map<nat, Buffer>
    ghost var closed: bool
    ghost var jobs: map<nat, Job>
    ghost var leases: map<nat, nat>
    ghost var evicting: Option<nat>

    ghost function Now(): Cache
      reads this
    {
      Cache(maxBytes, entries, usage, building, capturing, resident, reserved, reclaiming, closing, closed, lastPrune,
            jobs, buffers, leases, evicting)
    }

    constructor (maxBytes: nat, now: int)
      ensures Now() == Empty(maxBytes, now)
    {
      this.maxBytes := maxBytes;
      entries, usage, building, capturing := map[], map[], {}, {};
      resident, reserved, reclaiming, closing, lastPrune := 0, 0, 0, false, now;
      buffers, closed, jobs, leases, evicting := map[], false, map[], map[], None;
    }

    method PruneUsage(now: int)
      modifies this`usage, this`lastPrune
      ensures Now() == Prune(old(Now()), now)
    {
      if now - lastPrune < RETENTION { return; }
      var left := usage.Keys;
      while left != {}
        invariant left <= old(usage).Keys
        invariant usage == map key | key in old(usage) && (key in left || !Stale(old(Now()), key, now)) :: old(usage)[key]
        decreases |left|
      {
        var key :| key in left;
        if usage[key].lastPlay < now - RETENTION && key !in entries && key !in building && key !in capturing {
          usage := usage - {key};
        }
        left := left - {key};
      }
      lastPrune := now;
    }

    /** acquirePCMLocked; the ghost `lease` names the lease that a hit hands out. */
    method AcquireEntry(key: Key, now: int, ghost lease: nat) returns (asset: Option<nat>)
      requires key in entries ==> entries[key] in buffers
      modifies this`buffers, this`leases
      ensures Now() == Acquire(old(Now()), key, now, lease)
      ensures asset == if key in entries then Some(entries[key]) else None
    {
      if key !in entries { return None; }
      var id := entries[key];
      buffers := buffers[id := buffers[id].(refs := buffers[id].refs + 1, lastUsed := now)];
      leases := leases[lease := id];
      return Some(id);
    }

    method AcquireOrObserve(key: Key, now: int, ghost lease: nat) returns (asset: Option<nat>)
      requires key in entries ==> entries[key] in buffers
      modifies this`usage, this`lastPrune, this`buffers, this`leases
      ensures Now() == Observe(old(Now()), key, now, lease)
      ensures asset == if key in entries then Some(entries[key]) else None
      ensures Leases(old(Now()), Now(), key, now, lease)
    {
      ObserveLeases(Now(), key, now, lease);
      PruneUsage(now);
      var u := if key in usage then usage[key] else Usage(0, 0, 0, false);
      usage := usage[key := Played(u, now)];
      asset := AcquireEntry(key, now, lease);
    }

    method AcquireAgain(key: Key, now: int, ghost lease: nat) returns (asset: Option<nat>)
      requires key in entries ==> entries[key] in buffers
      modifies this`usage, this`buffers, this`leases
      ensures Now() == Reacquire(old(Now()), key, now, lease)
    {
      if key in usage { usage := usage[key := usage[key].(lastPlay := now)]; }
      asset := AcquireEntry(key, now, lease);
    }

    method ReleaseLease(id: nat, ghost lease: nat) returns (free: bool)
      requires lease in leases && leases[lease] == id && id in buffers
      modifies this`buffers, this`leases
      ensures Now() == Release(old(Now()), lease)
      ensures free <==> buffers[id].owner.Doomed? && !old(buffers)[id].owner.Doomed?
    {
      var b := buffers[id];
      free := b.refs == 1 && b.owner.Leased?;
      buffers := buffers[id := b.(refs := b.refs - 1, owner := if free then Doomed(true) else b.owner)];
      leases := leases - {lease};
    }

    method ScheduleBuild(key: Key, minimum: nat, now: int, room: bool, ghost job: nat)
      modifies this`usage, this`building, this`jobs
      ensures Now() == Schedule(old(Now()), key, minimum, now, room, job)
    {
      if key !in usage { return; }
      if usage[key].plays < minimum { usage := usage[key := usage[key].(plays := minimum, lastPlay := now)]; }
      var u := usage[key];
      if key !in entries && key !in capturing && key !in building && maxBytes > 0 && u.plays >= 2 && !u.tooLarge &&
         u.retryAfter <= now && !closing
      {
        building := building + {key};
        if room {
          jobs := jobs[job := Job(Build, key, 0, None)];
        } else {
          building := building - {key};
        }
      }
    }

    method StartCapture(key: Key, now: int, ghost job: nat) returns (started: bool)
      modifies this`capturing, this`jobs
      ensures Now() == BeginCapture(old(Now()), key, now, job)
      ensures started <==> key in capturing && key !in old(capturing)
    {
      if closing || maxBytes == 0 || key !in usage || usage[key].tooLarge || now < usage[key].retryAfter ||
         key in entries || key in building || key in capturing
      {
        return false;
      }
      capturing := capturing + {key};
      jobs := jobs[job := Job(Capture, key, 0, None)];
      return true;
    }

    /** tryReserve: no eviction, and nothing to do for no bytes. */
    method TryToReserve(bytes: int, ghost job: nat) returns (ok: bool)
      requires job in jobs
      modifies this`reserved, this`jobs
      ensures Now() == TryReserve(old(Now()), job, bytes)
      ensures ok <==> bytes <= 0 || (!closing && old(Used(Now())) + bytes <= maxBytes)
    {
      if bytes <= 0 { return true; }
      ok := !closing && resident + reserved + reclaiming + bytes <= maxBytes;
      if ok {
        reserved := reserved + bytes;
        jobs := jobs[job := jobs[job].(reservation := jobs[job].reservation + bytes)];
      }
    }

    /** One loop of findLRUCandidateLocked. */
    method FindOldest(pcm: bool, now: int) returns (oldest: Option<Key>)
      requires forall key :: key in entries ==> entries[key] in buffers
      ensures oldest.Some? ==> oldest.value.Pcm? == pcm && OldestOfKind(Now(), now, oldest.value)
      ensures oldest.None? ==> forall key :: Evictable(Now(), key, now) ==> key.Pcm? != pcm
    {
      oldest := None;
      var left := entries.Keys;
      while left != {}
        invariant left <= entries.Keys
        invariant oldest.Some? ==> oldest.value.Pcm? == pcm && Evictable(Now(), oldest.value, now)
        invariant forall key :: Evictable(Now(), key, now) && key.Pcm? == pcm && key !in left ==>
                                  oldest.Some? && LastUsed(Now(), oldest.value) <= LastUsed(Now(), key)
        decreases |left|
      {
        var key :| key in left;
        left := left - {key};
        if key.Pcm? == pcm {
          var candidate := buffers[entries[key]];
          var hot := key in usage && usage[key].plays >= 2 && now - usage[key].lastPlay < RETENTION;
          if candidate.refs == 0 && !hot {
            if oldest.None? || candidate.lastUsed < buffers[entries[oldest.value]].lastUsed { oldest := Some(key); }
          }
        }
      }
    }

    method FindVictim(now: int) returns (victim: Option<Key>)
      requires forall key :: key in entries ==> entries[key] in buffers
      ensures victim.Some? ==> IsVictim(Now(), now, victim.value)
      ensures victim.None? ==> forall key :: !Evictable(Now(), key, now)
    {
      var pcm := FindOldest(true, now);
      var raw := FindOldest(false, now);
      if raw.None? || (pcm.Some? && buffers[entries[pcm.value]].lastUsed < buffers[entries[raw.value]].lastUsed) {
        return pcm;
      }
      return raw;
    }

    method DetachOne(key: Key) returns (id: nat)
      requires key in entries && entries[key] in buffers
      modifies this`entries, this`resident, this`reclaiming, this`buffers, this`evicting
      ensures Now() == Detach(old(Now()), key) && id == old(entries[key])
    {
      id := entries[key];
      entries := entries - {key};
      resident := resident - buffers[id].bytes;
      reclaiming := reclaiming + buffers[id].bytes;
      buffers := buffers[id := buffers[id].(owner := Victim)];
      evicting := Some(id);
    }

    method FreeBuffer(id: nat)
      requires id in buffers
      modifies this`buffers
      ensures Now() == Free(old(Now()), id)
    {
      buffers := buffers[id := buffers[id].(owner := Freed, frees := buffers[id].frees + 1)];
    }

    method FinishEviction(id: nat)
      requires evicting == Some(id) && id in buffers
      modifies this`reclaiming, this`evicting
      ensures Now() == EvictionDone(old(Now()))
    {
      reclaiming := reclaiming - buffers[id].bytes;
      evicting := None;
    }

    /**
     reserveWithEviction, run by itself: it reserves, or stops because the cache closes or because nothing may be
     evicted. Apart from the reservation it only removes evictable entries, and frees each one it removes.
     */
    method ReserveWithEviction(bytes: int, now: int, ghost job: nat) returns (ok: bool, ghost evicted: Cache)
      requires Ok(Now()) && evicting.None? && job in jobs && jobs[job].kind.Build?
      modifies this
      ensures EvictedFrom(old(Now()), evicted, now) && job in evicted.jobs
      ensures Now() == (if ok && bytes > 0 then Reserve(evicted, job, bytes) else evicted) && Ok(Now())
      ensures !ok ==> closing || (Used(Now()) + bytes > maxBytes && forall key :: !Evictable(Now(), key, now))
    {
      if bytes <= 0 {
        EvictedNothing(Now(), now);
        return true, Now();
      }
      EvictedNothing(Now(), now);
      while true
        invariant EvictedFrom(old(Now()), Now(), now)
        decreases |entries|
      {
        if closing { return false, Now(); }
        if resident + reserved + reclaiming + bytes <= maxBytes {
          evicted := Now();
          ReserveNow(bytes, job);
          return true, evicted;
        }
        EntriesHaveBuffers(Now());
        var victim := FindVictim(now);
        if victim.None? { return false, Now(); }
        ghost var before := Now();
        Evict(victim.value, now);
        EvictedAgain(old(Now()), before, Now(), now);
      }
    }

    method ReserveNow(bytes: int, ghost job: nat)
      requires Ok(Now()) && job in jobs && bytes > 0 && Used(Now()) + bytes <= maxBytes
      modifies this`reserved, this`jobs
      ensures Now() == Reserve(old(Now()), job, bytes) && Ok(Now())
    {
      BuildReserves(Now(), job, bytes);
      reserved := reserved + bytes;
      jobs := jobs[job := jobs[job].(reservation := jobs[job].reservation + bytes)];
    }

    /** One eviction: detach, free, and account for it. */
    method Evict(key: Key, now: int)
      requires Ok(Now()) && evicting.None? && Evictable(Now(), key, now)
      modifies this
      ensures EvictedFrom(old(Now()), Now(), now) && |entries| < old(|entries|)
    {
      EvictedCleanly(Now(), key, now);
      FewerEntries(entries, key);
      var id := DetachOne(key);
      FreeBuffer(id);
      FinishEviction(id);
    }

    method ReleaseReservation(bytes: nat, ghost job: nat)
      requires job in jobs
      modifies this`reserved, this`jobs
      ensures Now() == Reserve(old(Now()), job, 0 - bytes)
    {
      reserved := reserved - bytes;
      jobs := jobs[job := jobs[job].(reservation := jobs[job].reservation - bytes)];
    }

    /** The critical section that ends a successful build or capture. */
    method CommitAsset(kind: Kind, key: Key, id: nat, reservation: int, now: int, ghost job: nat)
      returns (admitted: bool)
      requires job in jobs && jobs[job].buffer == Some(id) && id in buffers
      requires jobs[job].kind == kind && jobs[job].key == key && jobs[job].reservation == reservation
      modifies this
      ensures Now() == Commit(old(Now()), job, now)
      ensures admitted <==> !old(closing) && key !in old(entries)
    {
      EndProducer(kind, key, reservation, job);
      if closing || key in entries {
        buffers := buffers[id := buffers[id].(owner := Doomed(kind.Capture?))];
        return false;
      }
      buffers := buffers[id := buffers[id].(owner := Cached(key), lastUsed := now)];
      entries := entries[key := id];
      resident := resident + buffers[id].bytes;
      return true;
    }

    method EndProducer(kind: Kind, key: Key, reservation: int, ghost job: nat)
      requires job in jobs && jobs[job].kind == kind && jobs[job].key == key && jobs[job].reservation == reservation
      modifies this`building, this`capturing, this`reserved, this`jobs
      ensures Now() == EndJob(old(Now()), job)
    {
      if kind.Build? { building := building - {key}; } else { capturing := capturing - {key}; }
      reserved := reserved - reservation;
      jobs := jobs - {job};
    }

    /** The critical section that ends a failed build. */
    method FinishFailedBuild(key: Key, reservation: int, failure: Failure, now: int, ghost job: nat)
      requires job in jobs && jobs[job].kind.Build? && jobs[job].key == key && jobs[job].reservation == reservation
      requires key in usage
      modifies this`building, this`capturing, this`reserved, this`jobs, this`usage
      ensures Now() == FailBuild(old(Now()), job, failure, now)
    {
      EndProducer(Build, key, reservation, job);
      if failure.TooLarge? { usage := usage[key := usage[key].(tooLarge := true)]; }
      if !closing && key !in entries && !usage[key].tooLarge && !failure.Closing? && !failure.NoBudget? {
        usage := usage[key := usage[key].(retryAfter := now + RETENTION)];
      }
    }

    method Abort(key: Key, id: Option<nat>, reservation: int, failure: Option<Failure>, now: int, ghost job: nat)
      requires job in jobs && jobs[job].kind.Capture? && jobs[job].key == key
      requires jobs[job].reservation == reservation && jobs[job].buffer == id
      requires id.Some? ==> id.value in buffers
      modifies this
      ensures Now() == AbortCapture(old(Now()), job, failure, now)
    {
      var alsoBuilding := key in building;
      EndProducer(Capture, key, reservation, job);
      if failure.Some? && key in usage && key !in entries {
        if failure.value.TooLarge? {
          usage := usage[key := usage[key].(tooLarge := true)];
        } else if !alsoBuilding && !failure.value.NoBudget? {
          usage := usage[key := usage[key].(retryAfter := now + RETENTION)];
        }
      }
      if id.Some? { buffers := buffers[id.value := buffers[id.value].(owner := Doomed(true))]; }
    }

    /** The second half of close: every entry leaves, and those without a lease are freed by the caller. */
    method DropEntries() returns (victims: set<nat>)
      requires EntriesMatch(Now())
      modifies this`entries, this`buffers, this`resident, this`closed
      ensures Now() == CloseEntries(old(Now()))
      ensures forall id :: id in victims <==> id in old(buffers) && old(buffers)[id].owner.Cached? && old(buffers)[id].refs == 0
    {
      ghost var was := Now();
      DropsNothing(was);
      closed := true;
      victims := DropAll(was);
      DroppedAll(was, buffers, victims);
      resident := 0;
    }

    /** The loop over the entries. */
    method DropAll(ghost was: Cache) returns (victims: set<nat>)
      requires EntriesMatch(was) && Dropping(was, entries, buffers, {})
      modifies this`entries, this`buffers
      ensures entries == map[] && Dropping(was, entries, buffers, victims)
    {
      victims := {};
      while entries != map[]
        invariant Dropping(was, entries, buffers, victims)
        decreases |entries|
      {
        var key :| key in entries;
        victims := DropOne(key, victims, was);
      }
    }

    /** One entry leaves. */
    method DropOne(key: Key, victims: set<nat>, ghost was: Cache) returns (more: set<nat>)
      requires EntriesMatch(was) && Dropping(was, entries, buffers, victims) && key in entries
      modifies this`entries, this`buffers
      ensures Dropping(was, entries, buffers, more) && |entries| < |old(entries)|
    {
      DropsAnother(was, entries, buffers, victims, key);
      FewerEntries(entries, key);
      var id := entries[key];
      more := if buffers[id].refs == 0 then victims + {id} else victims;
      entries := entries - {key};
      buffers := buffers[id := Uncached(buffers[id])];
    }
  }

  predicate StillListed(b: Buffer, entries: map<Key, nat>) {
    b.owner.Cached? && b.owner.key in entries
  }

  /** Part-way through close: the entries still listed are as they were, and the others have lost their flag. */
  ghost predicate Dropping(s: Cache, entries: map<Key, nat>, buffers: map<nat, Buffer>, victims: set<nat>) {
    && buffers.Keys == s.buffers.Keys
    && (forall key :: key in entries ==> key in s.entries && entries[key] == s.entries[key])
    && (forall id :: id in s.buffers ==> Dropped(s.buffers[id], entries, buffers[id]))
    && (forall id :: id in victims <==> id in s.buffers && IsLoose(s.buffers[id], entries))
  }

  ghost predicate Dropped(b: Buffer, entries: map<Key, nat>, after: Buffer) {
    after == if StillListed(b, entries) then b else Uncached(b)
  }

  ghost predicate IsLoose(b: Buffer, entries: map<Key, nat>) {
    b.owner.Cached? && b.refs == 0 && !StillListed(b, entries)
  }

  lemma DroppedAll(s: Cache, buffers: map<nat, Buffer>, victims: set<nat>)
    requires Dropping(s, map[], buffers, victims)
    ensures buffers == CloseEntries(s).buffers
    ensures forall id :: id in victims <==> id in s.buffers && s.buffers[id].owner.Cached? && s.buffers[id].refs == 0
  {
    forall id | id in s.buffers ensures buffers[id] == Uncached(s.buffers[id]) {
      assert Dropped(s.buffers[id], map[], buffers[id]);
    }
    forall id ensures id in victims <==> id in s.buffers && s.buffers[id].owner.Cached? && s.buffers[id].refs == 0 {
      if id in s.buffers { assert IsLoose(s.buffers[id], map[]) == (s.buffers[id].owner.Cached? && s.buffers[id].refs == 0); }
    }
  }

  /** Entries and cached buffers correspond. */
  ghost predicate EntriesMatch(s: Cache) {
    && (forall key :: key in s.entries ==> EntryOwned(key, s.entries[key], s.buffers))
    && (forall id :: id in s.buffers && s.buffers[id].owner.Cached? ==> InEntries(id, s.buffers[id].owner.key, s.entries))
  }

  ghost predicate InEntries(id: nat, key: Key, entries: map<Key, nat>) {
    key in entries && entries[key] == id
  }

  lemma OkMatches(s: Cache)
    requires Ok(s)
    ensures EntriesMatch(s)
  {
    forall id | id in s.buffers && s.buffers[id].owner.Cached? ensures InEntries(id, s.buffers[id].owner.key, s.entries) {
      assert Owned(id, s.buffers[id], s.entries, s.jobs, s.evicting, s.closed);
    }
  }

  lemma DropsNothing(s: Cache)
    requires EntriesMatch(s)
    ensures Dropping(s, s.entries, s.buffers, {})
  {
    forall id | id in s.buffers ensures Dropped(s.buffers[id], s.entries, s.buffers[id]) && !IsLoose(s.buffers[id], s.entries) {
      if s.buffers[id].owner.Cached? { assert InEntries(id, s.buffers[id].owner.key, s.entries); }
    }
  }

  lemma DropsAnother(s: Cache, entries: map<Key, nat>, buffers: map<nat, Buffer>, victims: set<nat>, key: Key)
    requires EntriesMatch(s) && Dropping(s, entries, buffers, victims) && key in entries
    ensures entries[key] in buffers
    ensures
      var id := entries[key];
      Dropping(s, entries - {key}, buffers[id := Uncached(buffers[id])],
               if buffers[id].refs == 0 then victims + {id} else victims)
  {
    var id := entries[key];
    assert EntryOwned(key, id, s.buffers) && Dropped(s.buffers[id], entries, buffers[id]);
    var after := buffers[id := Uncached(buffers[id])];
    var more := if buffers[id].refs == 0 then victims + {id} else victims;
    forall x | x in s.buffers && x != id ensures StillListed(s.buffers[x], entries - {key}) == StillListed(s.buffers[x], entries) {
      if s.buffers[x].owner.Cached? { assert InEntries(x, s.buffers[x].owner.key, s.entries); }
    }
    forall x | x in s.buffers ensures Dropped(s.buffers[x], entries - {key}, after[x]) {
      assert Dropped(s.buffers[x], entries, buffers[x]);
    }
  }

  ghost predicate SameEntry(s: Cache, t: Cache, key: Key) {
    && key in s.entries && key in t.entries && t.entries[key] == s.entries[key]
    && s.entries[key] in s.buffers && s.entries[key] in t.buffers && t.buffers[s.entries[key]] == s.buffers[s.entries[key]]
  }

  lemma FewerEntries(entries: map<Key, nat>, key: Key)
    requires key in entries
    ensures |entries - {key}| < |entries|
  {
    assert (entries - {key}).Keys + {key} == entries.Keys;
    assert |entries.Keys| == |entries| && |(entries - {key}).Keys| == |entries - {key}|;
  }

  lemma EntriesHaveBuffers(s: Cache)
    requires Ok(s)
    ensures forall key :: key in s.entries ==> s.entries[key] in s.buffers
    ensures forall id :: id in s.buffers && s.buffers[id].owner.Cached? ==> s.buffers[id].owner.key in s.entries
  {
    forall key | key in s.entries ensures s.entries[key] in s.buffers {
      assert EntryOwned(key, s.entries[key], s.buffers);
    }
    forall id | id in s.buffers && s.buffers[id].owner.Cached? ensures s.buffers[id].owner.key in s.entries {
      assert Owned(id, s.buffers[id], s.entries, s.jobs, s.evicting, s.closed);
    }
  }

  lemma BuildReserves(s: Cache, job: nat, bytes: int)
    requires Ok(s) && job in s.jobs && bytes > 0 && Used(s) + bytes <= s.maxBytes
    ensures Ok(Reserve(s, job, bytes))
  {
    assert JobFits(job, s.jobs[job], s.buffers);
    ReserveKeeps(s, job, bytes);
  }

  /** `t` is `s` without some entries, each of which could be evicted. */
  ghost predicate Trimmed(s: Cache, t: Cache, now: int) {
    && t == s.(entries := t.entries, resident := t.resident, reclaiming := t.reclaiming, buffers := t.buffers)
    && (forall key :: key in t.entries ==> SameEntry(s, t, key))
    && (forall key :: key in s.entries && key !in t.entries ==> Evictable(s, key, now))
  }

  ghost predicate EvictedFrom(s: Cache, t: Cache, now: int) {
    Ok(t) && t.evicting.None? && Trimmed(s, t, now)
  }

  lemma EvictedNothing(s: Cache, now: int)
    requires Ok(s) && s.evicting.None?
    ensures EvictedFrom(s, s, now)
  {
    EntriesHaveBuffers(s);
  }

  lemma TrimmedAgain(s: Cache, t: Cache, u: Cache, now: int)
    requires Trimmed(s, t, now) && Trimmed(t, u, now)
    ensures Trimmed(s, u, now)
  {
    forall key | key in u.entries ensures SameEntry(s, u, key) {
      assert SameEntry(t, u, key) && SameEntry(s, t, key);
    }
    forall key | key in s.entries && key !in u.entries ensures Evictable(s, key, now) {
      if key in t.entries { assert SameEntry(s, t, key) && Evictable(t, key, now); }
    }
  }

  lemma EvictedAgain(s: Cache, t: Cache, u: Cache, now: int)
    requires EvictedFrom(s, t, now) && EvictedFrom(t, u, now)
    ensures EvictedFrom(s, u, now)
  {
    TrimmedAgain(s, t, u, now);
  }

  /** One eviction, from detaching to the end: only the victim changes, and the invariant holds again. */
  lemma EvictedCleanly(s: Cache, key: Key, now: int)
    requires Ok(s) && s.evicting.None? && Evictable(s, key, now)
    ensures EvictedFrom(s, EvictionDone(Free(Detach(s, key), s.entries[key])), now)
  {
    EvictionTrims(s, key, now);
    DetachKeeps(s, key);
    var t := Detach(s, key);
    FreeKeeps(t, s.entries[key]);
    EvictionDoneKeeps(Free(t, s.entries[key]));
  }

  lemma EvictionTrims(s: Cache, key: Key, now: int)
    requires Ok(s) && s.evicting.None? && Evictable(s, key, now)
    ensures Trimmed(s, EvictionDone(Free(Detach(s, key), s.entries[key])), now)
  {
    var u := EvictionDone(Free(Detach(s, key), s.entries[key]));
    assert u.buffers[s.entries[key] := s.buffers[s.entries[key]]] == s.buffers;
    forall other | other in u.entries ensures SameEntry(s, u, other) {
      OtherBuffer(s, key, other);
    }
  }

  lemma OtherBuffer(s: Cache, key: Key, other: Key)
    requires Ok(s) && key in s.entries && other in s.entries && key != other
    ensures s.entries[key] in s.buffers && s.entries[other] in s.buffers && s.entries[key] != s.entries[other]
  {
    assert EntryOwned(key, s.entries[key], s.buffers) && EntryOwned(other, s.entries[other], s.buffers);
  }
}
