/**
 Whom the registry gives up, told by what happened in the run: leases, factory results and the
 times of acquisition and release.
 */
module RegistryRoom {
  import opened Basics
  import opened Registry
  import opened RegistryLeases

  /** The tenant's cached entry is provisioned and none of its leases is outstanding. */
  ghost predicate Unused<E>(s: Registry<E>, tenant: string) {
    && tenant in s.cache && s.cache[tenant] in s.entries
    && s.entries[s.cache[tenant]].provision.Ready? && Outstanding(s.leases, s.cache[tenant]) == {}
  }

  /** When the run last acquired or released the tenant's cached entry. */
  ghost function LastUse<E>(capacity: nat, idleTtl: int, steps: seq<Step<E>>, tenant: string): Option<int>
    requires Legal(Fresh(capacity, idleTtl), steps) && tenant in After(Fresh<E>(capacity, idleTtl), steps).cache
  {
    LastTouch(Fresh<E>(capacity, idleTtl), steps, After(Fresh<E>(capacity, idleTtl), steps).cache[tenant])
  }

  /** Unused, and last used at least the registry's limit ago. */
  ghost predicate IdleFor<E>(capacity: nat, idleTtl: int, steps: seq<Step<E>>, tenant: string, now: int)
    requires Legal(Fresh(capacity, idleTtl), steps)
  {
    && Unused(After(Fresh<E>(capacity, idleTtl), steps), tenant)
    && LastUse(capacity, idleTtl, steps, tenant).Some?
    && now >= LastUse(capacity, idleTtl, steps, tenant).value + idleTtl
  }

  lemma EvictableIsUnused<E>(capacity: nat, idleTtl: int, steps: seq<Step<E>>, tenant: string)
    requires Legal(Fresh(capacity, idleTtl), steps)
    ensures Evictable(After(Fresh<E>(capacity, idleTtl), steps), tenant) <==> Unused(After(Fresh<E>(capacity, idleTtl), steps), tenant)
  {
    RefsAreOutstandingLeases(capacity, idleTtl, steps);
  }

  lemma LastUseKnown<E>(capacity: nat, idleTtl: int, steps: seq<Step<E>>, tenant: string)
    requires Legal(Fresh(capacity, idleTtl), steps) && tenant in After(Fresh<E>(capacity, idleTtl), steps).cache
    ensures var s := After(Fresh<E>(capacity, idleTtl), steps);
      && s.cache[tenant] in s.entries
      && LastUse(capacity, idleTtl, steps, tenant) == Some(s.entries[s.cache[tenant]].lastUsed)
  {
    var s := After(Fresh<E>(capacity, idleTtl), steps);
    RefsAreOutstandingLeases(capacity, idleTtl, steps);
    LastUsedIsLastTouch(Fresh<E>(capacity, idleTtl), steps, s.cache[tenant]);
  }

  ghost function IdleAt<E>(capacity: nat, idleTtl: int, steps: seq<Step<E>>, now: int): set<string>
    requires Legal(Fresh(capacity, idleTtl), steps)
  {
    set tenant | tenant in After(Fresh<E>(capacity, idleTtl), steps).cache && IdleFor(capacity, idleTtl, steps, tenant, now)
  }

  lemma IdleAreIdle<E>(capacity: nat, idleTtl: int, steps: seq<Step<E>>, now: int)
    requires Legal(Fresh(capacity, idleTtl), steps)
    ensures IdleTenants(After(Fresh<E>(capacity, idleTtl), steps), now) == IdleAt(capacity, idleTtl, steps, now)
  {
    var s := After(Fresh<E>(capacity, idleTtl), steps);
    RunLeavesSettings(Fresh<E>(capacity, idleTtl), steps);
    forall tenant | tenant in s.cache ensures Idle(s, tenant, now) <==> IdleFor(capacity, idleTtl, steps, tenant, now) {
      EvictableIsUnused(capacity, idleTtl, steps, tenant);
      LastUseKnown(capacity, idleTtl, steps, tenant);
    }
  }

  /** Evicting some cached tenants: they are gone and retired, and the others keep their entries. */
  ghost predicate Gives<E>(s: Registry<E>, t: Registry<E>, gone: set<string>) {
    && (forall tenant :: tenant in s.cache ==> (tenant !in t.cache <==> tenant in gone))
    && (forall tenant :: tenant in t.cache ==> tenant in s.cache && t.cache[tenant] == s.cache[tenant])
    && |t.cache| == |s.cache| - |gone|
    && (forall tenant :: tenant in gone && tenant in s.cache && s.cache[tenant] in t.entries ==> t.entries[s.cache[tenant]].retired)
  }

  lemma EvictingGives<E>(s: Registry<E>, tenants: set<string>)
    requires tenants <= s.cache.Keys
    ensures Gives(s, Evicted(s, tenants), tenants)
  {
    assert (s.cache - tenants).Keys == s.cache.Keys - tenants;
    CardOfDifference(s.cache.Keys, tenants);
    forall t | t in tenants && t in s.cache ensures s.cache[t] in Members(s, tenants) {
    }
  }

  /**
   Pruning, in every run: exactly the cached tenants go whose entries are provisioned, unleased
   and were last used at least the limit ago.
   */
  lemma PruningTakesTheIdle<E>(capacity: nat, idleTtl: int, steps: seq<Step<E>>, now: int)
    requires Legal(Fresh(capacity, idleTtl), steps) && idleTtl > 0 && !After(Fresh<E>(capacity, idleTtl), steps).closed
    ensures var s := After(Fresh<E>(capacity, idleTtl), steps);
      Enabled(s, PruneIdle(now)) && Gives(s, Do(s, PruneIdle(now)), IdleAt(capacity, idleTtl, steps, now))
  {
    var s := After(Fresh<E>(capacity, idleTtl), steps);
    RunLeavesSettings(Fresh<E>(capacity, idleTtl), steps);
    IdleAreIdle(capacity, idleTtl, steps, now);
    EvictingGives(s, IdleTenants(s, now));
  }

  /** No step changes the registry's settings. */
  lemma {:induction false} RunLeavesSettings<E>(s: Registry<E>, steps: seq<Step<E>>)
    requires Legal(s, steps)
    ensures After(s, steps).capacity == s.capacity && After(s, steps).idleTtl == s.idleTtl
    decreases |steps|
  {
    if steps != [] {
      StepLeavesSettings(s, steps[0]);
      RunLeavesSettings(Do(s, steps[0]), steps[1..]);
    }
  }

  lemma StepLeavesSettings<E>(s: Registry<E>, step: Step<E>)
    requires Enabled(s, step)
    ensures Do(s, step).capacity == s.capacity && Do(s, step).idleTtl == s.idleTtl
  {
  }

  /** Of two cached tenants, the one was used no later than the other. */
  ghost predicate NoLater<E>(capacity: nat, idleTtl: int, steps: seq<Step<E>>, one: string, other: string)
    requires Legal(Fresh(capacity, idleTtl), steps)
    requires one in After(Fresh<E>(capacity, idleTtl), steps).cache && other in After(Fresh<E>(capacity, idleTtl), steps).cache
  {
    var a, b := LastUse(capacity, idleTtl, steps, one), LastUse(capacity, idleTtl, steps, other);
    a.Some? && b.Some? && a.value <= b.value
  }

  /** The tenant can be given up, and no other that can was used earlier. */
  ghost predicate LeastRecentlyUsed<E>(capacity: nat, idleTtl: int, steps: seq<Step<E>>, tenant: string)
    requires Legal(Fresh(capacity, idleTtl), steps)
  {
    var s := After(Fresh<E>(capacity, idleTtl), steps);
    Unused(s, tenant) && forall other :: Unused(s, other) ==> NoLater(capacity, idleTtl, steps, tenant, other)
  }

  lemma OldestIsLeastRecent<E>(capacity: nat, idleTtl: int, steps: seq<Step<E>>, tenant: string)
    requires Legal(Fresh(capacity, idleTtl), steps) && Oldest(After(Fresh<E>(capacity, idleTtl), steps), tenant)
    ensures LeastRecentlyUsed(capacity, idleTtl, steps, tenant)
  {
    var s := After(Fresh<E>(capacity, idleTtl), steps);
    EvictableIsUnused(capacity, idleTtl, steps, tenant);
    LastUseKnown(capacity, idleTtl, steps, tenant);
    forall other | Unused(s, other) ensures NoLater(capacity, idleTtl, steps, tenant, other) {
      EvictableIsUnused(capacity, idleTtl, steps, other);
      LastUseKnown(capacity, idleTtl, steps, other);
    }
  }

  /**
   Making room, in every run: a tenant without an entry gets a new one; if the cache holds as many
   entries as it may, one that is provisioned and unleased goes, and none such was used earlier.
   */
  lemma AcquiringMakesRoom<E>(capacity: nat, idleTtl: int, steps: seq<Step<E>>, tenant: string, entry: E, victim: Option<string>,
                              lease: nat, now: int)
    requires Legal(Fresh(capacity, idleTtl), steps)
    requires Enabled(After(Fresh<E>(capacity, idleTtl), steps), Acquire(lease, tenant, entry, victim, now))
    ensures var s := After(Fresh<E>(capacity, idleTtl), steps);
      var cache := Do(s, Acquire(lease, tenant, entry, victim, now)).cache;
      if tenant in s.cache then cache == s.cache
      else if capacity == 0 || |s.cache| < capacity then cache == s.cache[tenant := entry]
      else
        && victim.Some? && LeastRecentlyUsed(capacity, idleTtl, steps, victim.value)
        && cache == (s.cache - {victim.value})[tenant := entry]
  {
    var s := After(Fresh<E>(capacity, idleTtl), steps);
    RunLeavesSettings(Fresh<E>(capacity, idleTtl), steps);
    if tenant !in s.cache && capacity != 0 && |s.cache| >= capacity {
      OldestIsLeastRecent(capacity, idleTtl, steps, victim.value);
    }
  }

  /** No victim can be named exactly if every cached entry is leased or still being provisioned. */
  lemma NoRoomMeansAllInUse<E>(capacity: nat, idleTtl: int, steps: seq<Step<E>>)
    requires Legal(Fresh(capacity, idleTtl), steps)
    ensures var s := After(Fresh<E>(capacity, idleTtl), steps);
      && (NothingEvictable(s) <==> forall tenant :: tenant in s.cache ==> !Unused(s, tenant))
      && (Full(s) <==> capacity > 0 && |s.cache| == capacity)
  {
    var s := After(Fresh<E>(capacity, idleTtl), steps);
    RunLeavesSettings(Fresh<E>(capacity, idleTtl), steps);
    RefsAreOutstandingLeases(capacity, idleTtl, steps);
    forall tenant ensures Evictable(s, tenant) <==> Unused(s, tenant) {
      EvictableIsUnused(capacity, idleTtl, steps, tenant);
    }
  }

  // ---- The administrative steps ----

  /** Evicting a tenant takes just its entry out of the cache and retires it. */
  lemma EvictionTakesOneOut<E>(s: Registry<E>, tenant: string)
    ensures tenant in s.cache ==> Gives(s, Do(s, Evict(tenant)), {tenant})
    ensures tenant !in s.cache ==> Gives(s, Do(s, Evict(tenant)), {})
  {
    if tenant in s.cache {
      EvictingGives(s, {tenant});
    } else {
      EvictingGives(s, {});
      NobodyEvicted(s, tenant);
    }
  }

  lemma NobodyEvicted<E>(s: Registry<E>, tenant: string)
    requires tenant !in s.cache
    ensures Evicted(s, {tenant}) == Evicted(s, {})
  {
    assert Members(s, {tenant}) == {} == Members(s, {});
    assert s.cache - {tenant} == s.cache == s.cache - {};
  }

  /** Clearing with closing takes every entry out and retires it. */
  lemma ClearAndCloseTakesAllOut<E>(s: Registry<E>)
    ensures Gives(s, Do(s, ClearAndClose), s.cache.Keys) && Do(s, ClearAndClose).cache == map[]
  {
    EvictingGives(s, s.cache.Keys);
  }

  /** Clearing alone takes every entry out and leaves it unretired and untracked. */
  lemma ClearForgetsAll<E>(s: Registry<E>)
    ensures var t := Do(s, Clear);
      && t.cache == map[] && t.entries == s.entries && t.closed == s.closed
      && forall tenant :: tenant in s.cache ==> s.cache[tenant] !in t.all
  {
    forall tenant | tenant in s.cache ensures s.cache[tenant] in Members(s, s.cache.Keys) {
    }
  }

  /** Shutting down closes the registry for good, cancels every factory and retires what is tracked. */
  lemma ShutdownClosesAll<E>(s: Registry<E>)
    ensures var t := Do(s, Shutdown);
      && t.closed && t.cache == map[] && t.entries.Keys == s.entries.Keys && (t.stopped <==> s.stopped || s.all == {})
      && (forall e :: e in s.entries ==> t.entries[e].cancelled)
      && (forall e :: e in s.all && e in s.entries ==> t.entries[e].retired)
  {
  }

  /** Releasing ends the lease, and releasing again changes nothing. */
  lemma ReleaseEndsTheLease<E>(s: Registry<E>, l: nat, now: int, later: int)
    requires Enabled(s, Release(l, now))
    ensures var t := Do(s, Release(l, now));
      t.leases[l].phase.Released? && Enabled(t, Release(l, later)) && Do(t, Release(l, later)) == t
  {
  }

  // ---- Retired means cancelled ----

  ghost predicate RetiredCancelled<E>(entries: map<E, Entry>) {
    forall e :: e in entries && entries[e].retired ==> entries[e].cancelled
  }

  lemma StepKeepsCancelled<E>(s: Registry<E>, step: Step<E>)
    requires Enabled(s, step) && RetiredCancelled(s.entries)
    ensures RetiredCancelled(Do(s, step).entries)
  {
    if step.Acquire? {
      AcquireKeepsCancelled(s, step);
    } else if EvictStep(step) {
      EvictKeepsCancelled(s, step);
    } else if OneEntryStep(step) {
      AdvanceKeepsCancelled(s, step);
    } else {
      OthersKeepCancelled(s, step);
    }
  }

  lemma AcquireKeepsCancelled<E>(s: Registry<E>, step: Step<E>)
    requires Enabled(s, step) && RetiredCancelled(s.entries) && step.Acquire?
    ensures RetiredCancelled(Do(s, step).entries)
  {
    assert RetiredCancelled(RoomFor(s, step.tenant, step.entry, step.victim).entries);
  }

  lemma EvictKeepsCancelled<E>(s: Registry<E>, step: Step<E>)
    requires Enabled(s, step) && RetiredCancelled(s.entries) && EvictStep(step)
    ensures RetiredCancelled(Do(s, step).entries)
  {
  }

  lemma AdvanceKeepsCancelled<E>(s: Registry<E>, step: Step<E>)
    requires Enabled(s, step) && RetiredCancelled(s.entries) && OneEntryStep(step)
    ensures RetiredCancelled(Do(s, step).entries)
  {
  }

  lemma OthersKeepCancelled<E>(s: Registry<E>, step: Step<E>)
    requires Enabled(s, step) && RetiredCancelled(s.entries) && !step.Acquire? && !EvictStep(step) && !OneEntryStep(step)
    ensures RetiredCancelled(Do(s, step).entries)
  {
  }

  /** In every run the factory call of a retired entry has been cancelled. */
  lemma {:induction false} RetiredMeansCancelled<E>(s: Registry<E>, steps: seq<Step<E>>)
    requires RetiredCancelled(s.entries) && Legal(s, steps)
    ensures RetiredCancelled(After(s, steps).entries)
    decreases |steps|
  {
    if steps != [] {
      StepKeepsCancelled(s, steps[0]);
      RetiredMeansCancelled(Do(s, steps[0]), steps[1..]);
    }
  }
}
