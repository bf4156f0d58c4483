/**
 What callers of the tenant registry can rely on: leases keep Enforcers up, retired entries are
 never acquired again, and eviction goes by last use.
 */
module RegistryLeases {
  import opened Basics
  import opened Registry

  /**
   A held Enforcer is of the requested tenant and its entry's cleanup has not started. It is
   down exactly if the same Enforcer was also returned for another entry and shut down for that one.
   */
  lemma LeasesAreSafe<E>(capacity: nat, idleTtl: int, steps: seq<Step<E>>, l: nat)
    requires Legal(Fresh(capacity, idleTtl), steps)
    requires var s := After(Fresh<E>(capacity, idleTtl), steps); l in s.leases && s.leases[l].phase.Held?
    ensures var s := After(Fresh<E>(capacity, idleTtl), steps);
      var held := s.leases[l];
      && held.entry in s.entries
      && held.phase.enforcer.tenant == held.tenant
      && s.entries[held.entry].cleanup.Open?
      && (held.phase.enforcer.id in s.down <==>
            exists e :: e in s.entries && e != held.entry && held.phase.enforcer.id in Gone(s.entries[e]))
  {
    FreshInv<E>(capacity, idleTtl);
    RunKeepsInv(Fresh<E>(capacity, idleTtl), steps);
    HeldIsSafe(After(Fresh<E>(capacity, idleTtl), steps), l);
  }

  lemma HeldIsSafe<E>(s: Registry<E>, l: nat)
    requires Inv(s) && l in s.leases && s.leases[l].phase.Held?
    ensures var held := s.leases[l];
      && held.entry in s.entries
      && held.phase.enforcer.tenant == held.tenant
      && s.entries[held.entry].cleanup.Open?
      && (held.phase.enforcer.id in s.down <==>
            exists e :: e in s.entries && e != held.entry && held.phase.enforcer.id in Gone(s.entries[e]))
  {
    LeasedHaveRefs(s.leases, s.entries, l);
    assert EntryOk(s.entries[s.leases[l].entry]);
  }

  /** No two entries got the same Enforcer from the factory. */
  ghost predicate DistinctResults<E>(s: Registry<E>) {
    forall e, f :: e in s.entries && f in s.entries && e != f && !s.entries[e].provision.Running? && !s.entries[f].provision.Running?
      && s.entries[e].provision.enforcer.Some? && s.entries[f].provision.enforcer.Some?
      ==> s.entries[e].provision.enforcer.value.id != s.entries[f].provision.enforcer.value.id
  }

  /** A factory that makes a new Enforcer for every call keeps every held Enforcer up. */
  lemma DistinctResultsKeepLeasesUp<E>(capacity: nat, idleTtl: int, steps: seq<Step<E>>, l: nat)
    requires Legal(Fresh(capacity, idleTtl), steps)
    requires var s := After(Fresh<E>(capacity, idleTtl), steps);
      l in s.leases && s.leases[l].phase.Held? && DistinctResults(s)
    ensures var s := After(Fresh<E>(capacity, idleTtl), steps); s.leases[l].phase.enforcer.id !in s.down
  {
    FreshInv<E>(capacity, idleTtl);
    RunKeepsInv(Fresh<E>(capacity, idleTtl), steps);
    LeasesAreSafe(capacity, idleTtl, steps, l);
  }

  /** References are outstanding leases, and the cache keeps within its capacity, in every run. */
  lemma RefsAreOutstandingLeases<E>(capacity: nat, idleTtl: int, steps: seq<Step<E>>)
    requires Legal(Fresh(capacity, idleTtl), steps)
    ensures var s := After(Fresh<E>(capacity, idleTtl), steps);
      && (forall e :: e in s.entries ==> s.entries[e].refs == |Outstanding(s.leases, e)|)
      && (capacity > 0 ==> |s.cache| <= capacity)
      && (forall t :: t in s.cache ==> s.cache[t] in s.entries && !s.entries[s.cache[t]].retired)
  {
    FreshInv<E>(capacity, idleTtl);
    RunKeepsInv(Fresh<E>(capacity, idleTtl), steps);
    RunKeepsCapacity(Fresh<E>(capacity, idleTtl), steps);
  }

  lemma {:induction false} RunKeepsCapacity<E>(s: Registry<E>, steps: seq<Step<E>>)
    requires Legal(s, steps)
    ensures After(s, steps).capacity == s.capacity
    decreases |steps|
  {
    if steps != [] { RunKeepsCapacity(Do(s, steps[0]), steps[1..]); }
  }

  lemma AcquireSparesRetired<E>(s: Registry<E>, step: Step<E>, e: E)
    requires CacheInv(s) && PlaceInv(s) && step.Acquire? && Enabled(s, step) && e in s.entries && s.entries[e].retired
    ensures OnlyDrains(s, Do(s, step), e)
  {
    var room := RoomFor(s, step.tenant, step.entry, step.victim);
    RoomSparesRetired(s, step.tenant, step.entry, step.victim, e);
    ReferenceSpares(room, step.lease, step.tenant, step.now, e);
  }

  lemma RoomSparesRetired<E>(s: Registry<E>, tenant: string, entry: E, victim: Option<string>, e: E)
    requires CacheInv(s) && PlaceInv(s) && e in s.entries && s.entries[e].retired && (tenant !in s.cache ==> entry !in s.entries)
    ensures var room := RoomFor(s, tenant, entry, victim);
      room.leases == s.leases && e in room.entries && room.entries[e].retired && tenant in room.cache && room.cache[tenant] != e
  {
    assert tenant in s.cache ==> !s.entries[s.cache[tenant]].retired by {
      if tenant in s.cache { assert Cached(s, s.cache[tenant]) && Placed(s, s.cache[tenant]); }
    }
  }

  lemma ReferenceSpares<E>(s: Registry<E>, l: nat, tenant: string, now: int, e: E)
    requires tenant in s.cache && s.cache[tenant] in s.entries && s.cache[tenant] != e
    requires e in s.entries && s.entries[e].retired
    ensures OnlyDrains(s, Referenced(s, l, tenant, now), e)
  {
  }

  /** The entry stays retired and gets no new lease. */
  ghost predicate OnlyDrains<E>(s: Registry<E>, t: Registry<E>, e: E) {
    e in t.entries && t.entries[e].retired && Outstanding(t.leases, e) <= Outstanding(s.leases, e)
  }

  lemma EvictionOnRetired<E>(s: Registry<E>, tenants: set<string>, e: E)
    requires e in s.entries && s.entries[e].retired
    ensures OnlyDrains(s, Evicted(s, tenants), e)
  {
  }

  lemma UnrefOnRetired<E>(s: Registry<E>, l: nat, now: int, e: E)
    requires e in s.entries && s.entries[e].retired && l in s.leases && s.leases[l].entry in s.entries
    ensures OnlyDrains(s, Unref(s, l, now), e)
  {
  }

  lemma AdvanceOnRetired<E>(s: Registry<E>, step: Step<E>, e: E)
    requires Enabled(s, step) && OneEntryStep(step) && e in s.entries && s.entries[e].retired
    ensures OnlyDrains(s, Do(s, step), e)
  {
    var x := Advance(s.entries[step.entry], step);
    assert OnlyDrains(s, Advanced(s, step.entry, x), e);
  }

  lemma OtherStepsOnRetired<E>(s: Registry<E>, step: Step<E>, e: E)
    requires step.FinishEntry? || step.Clear? || step.Shutdown?
    requires Enabled(s, step) && e in s.entries && s.entries[e].retired
    ensures OnlyDrains(s, Do(s, step), e)
  {
  }

  lemma StepOnRetired<E>(s: Registry<E>, step: Step<E>, e: E)
    requires Inv(s) && Enabled(s, step) && e in s.entries && s.entries[e].retired
    ensures OnlyDrains(s, Do(s, step), e)
  {
    if step.Acquire? {
      AcquireSparesRetired(s, step, e);
    } else if LeaseStep(step) {
      LeaseStepOnRetired(s, step, e);
    } else if EvictStep(step) {
      EvictStepOnRetired(s, step, e);
    } else if OneEntryStep(step) {
      AdvanceOnRetired(s, step, e);
    } else {
      OtherStepsOnRetired(s, step, e);
    }
  }

  lemma LeaseStepOnRetired<E>(s: Registry<E>, step: Step<E>, e: E)
    requires LeaseStep(step) && !step.Acquire? && Enabled(s, step) && e in s.entries && s.entries[e].retired
    ensures OnlyDrains(s, Do(s, step), e)
  {
    if !step.HandOut? { UnrefOnRetired(s, step.lease, step.now, e); }
  }

  lemma EvictStepOnRetired<E>(s: Registry<E>, step: Step<E>, e: E)
    requires EvictStep(step) && Enabled(s, step) && e in s.entries && s.entries[e].retired
    ensures OnlyDrains(s, Do(s, step), e)
  {
    match step
    case Evict(tenant) => EvictionOnRetired(s, {tenant}, e);
    case ClearAndClose => EvictionOnRetired(s, s.cache.Keys, e);
    case PruneIdle(now) => EvictionOnRetired(s, IdleTenants(s, now), e);
  }

  /** A retired entry is never acquired again: whatever runs, its leases only go down. */
  lemma {:induction false} RetiredOnlyDrains<E>(s: Registry<E>, steps: seq<Step<E>>, e: E)
    requires Inv(s) && Legal(s, steps) && e in s.entries && s.entries[e].retired
    ensures var t := After(s, steps);
      && e in t.entries && t.entries[e].retired && !Cached(t, e)
      && Outstanding(t.leases, e) <= Outstanding(s.leases, e)
    decreases |steps|
  {
    if steps == [] {
      assert Placed(s, e);
    } else {
      StepKeepsInv(s, steps[0]);
      StepOnRetired(s, steps[0], e);
      RetiredOnlyDrains(Do(s, steps[0]), steps[1..], e);
    }
  }

  /** The factory call was cancelled before its context was looked at, or its result refused. */
  predicate Doomed(e: Entry) {
    match e.provision
    case Running => e.cancelled
    case Returned(_, _) => e.cancelled
    case _ => e.provision.err
  }

  /** The entry is still doomed. */
  ghost predicate StaysDoomed<E>(t: Registry<E>, e: E) {
    e in t.entries && Doomed(t.entries[e])
  }

  lemma EvictionKeepsDoomed<E>(s: Registry<E>, tenants: set<string>, e: E)
    requires StaysDoomed(s, e)
    ensures StaysDoomed(Evicted(s, tenants), e)
  {
  }

  lemma UnrefKeepsDoomed<E>(s: Registry<E>, l: nat, now: int, e: E)
    requires StaysDoomed(s, e) && l in s.leases && s.leases[l].entry in s.entries
    ensures StaysDoomed(Unref(s, l, now), e)
  {
  }

  lemma AdvanceKeepsDoomed<E>(s: Registry<E>, step: Step<E>, e: E)
    requires Enabled(s, step) && OneEntryStep(step) && StaysDoomed(s, e)
    ensures StaysDoomed(Do(s, step), e)
  {
    assert StaysDoomed(Advanced(s, step.entry, Advance(s.entries[step.entry], step)), e);
  }

  lemma AcquireKeepsDoomed<E>(s: Registry<E>, step: Step<E>, e: E)
    requires step.Acquire? && Enabled(s, step) && StaysDoomed(s, e)
    ensures StaysDoomed(Do(s, step), e)
  {
    var room := RoomFor(s, step.tenant, step.entry, step.victim);
    assert StaysDoomed(room, e);
  }

  lemma StepKeepsDoomed<E>(s: Registry<E>, step: Step<E>, e: E)
    requires Enabled(s, step) && StaysDoomed(s, e)
    ensures StaysDoomed(Do(s, step), e)
  {
    if step.Acquire? {
      AcquireKeepsDoomed(s, step, e);
    } else if LeaseStep(step) {
      LeaseStepKeepsDoomed(s, step, e);
    } else if EvictStep(step) {
      EvictStepKeepsDoomed(s, step, e);
    } else if OneEntryStep(step) {
      AdvanceKeepsDoomed(s, step, e);
    } else {
      OtherStepsKeepDoomed(s, step, e);
    }
  }

  lemma LeaseStepKeepsDoomed<E>(s: Registry<E>, step: Step<E>, e: E)
    requires LeaseStep(step) && !step.Acquire? && Enabled(s, step) && StaysDoomed(s, e)
    ensures StaysDoomed(Do(s, step), e)
  {
    if !step.HandOut? { UnrefKeepsDoomed(s, step.lease, step.now, e); }
  }

  lemma EvictStepKeepsDoomed<E>(s: Registry<E>, step: Step<E>, e: E)
    requires EvictStep(step) && Enabled(s, step) && StaysDoomed(s, e)
    ensures StaysDoomed(Do(s, step), e)
  {
    match step
    case Evict(tenant) => EvictionKeepsDoomed(s, {tenant}, e);
    case ClearAndClose => EvictionKeepsDoomed(s, s.cache.Keys, e);
    case PruneIdle(now) => EvictionKeepsDoomed(s, IdleTenants(s, now), e);
  }

  lemma OtherStepsKeepDoomed<E>(s: Registry<E>, step: Step<E>, e: E)
    requires (step.FinishEntry? || step.Clear? || step.Shutdown?) && Enabled(s, step) && StaysDoomed(s, e)
    ensures StaysDoomed(Do(s, step), e)
  {
  }

  lemma DoomedIsNotHeld<E>(s: Registry<E>, e: E)
    requires Inv(s) && e in s.entries && Doomed(s.entries[e])
    ensures forall l :: l in s.leases && s.leases[l].entry == e ==> !s.leases[l].phase.Held?
  {
  }

  lemma {:induction false} RunKeepsDoomed<E>(s: Registry<E>, steps: seq<Step<E>>, e: E)
    requires Legal(s, steps) && StaysDoomed(s, e)
    ensures StaysDoomed(After(s, steps), e)
    decreases |steps|
  {
    if steps != [] {
      StepKeepsDoomed(s, steps[0], e);
      RunKeepsDoomed(Do(s, steps[0]), steps[1..], e);
    }
  }

  /** Retiring an entry whose factory still runs means nobody is ever handed its Enforcer. */
  lemma RetiredEarlyNeverHandedOut<E>(s: Registry<E>, steps: seq<Step<E>>, e: E)
    requires Inv(s) && Legal(s, steps) && e in s.entries && Doomed(s.entries[e])
    ensures var t := After(s, steps);
      forall l :: l in t.leases && t.leases[l].entry == e ==> !t.leases[l].phase.Held?
  {
    RunKeepsInv(s, steps);
    RunKeepsDoomed(s, steps, e);
    DoomedIsNotHeld(After(s, steps), e);
  }

  // ---- Eviction is by last use ----

  /** The step acquires the entry or gives a reference to it back. */
  ghost predicate Touches<E>(s: Registry<E>, step: Step<E>, e: E)
    requires Enabled(s, step)
  {
    match step
    case Acquire(_, tenant, entry, _, _) => e == if tenant in s.cache then s.cache[tenant] else entry
    case GiveUp(l, _) => s.leases[l].entry == e
    case Release(l, _) => s.leases[l].entry == e && !s.leases[l].phase.Released?
    case _ => false
  }

  /** When a run last touched the entry. */
  ghost function LastTouch<E>(s: Registry<E>, steps: seq<Step<E>>, e: E): Option<int>
    requires Legal(s, steps)
    decreases |steps|
  {
    if steps == [] then None
    else
      var later := LastTouch(Do(s, steps[0]), steps[1..], e);
      if later.Some? then later else if Touches(s, steps[0], e) then Some(steps[0].now) else None
  }

  /** The entry's time of last use after a step that took place at `now`, if it touched the entry. */
  ghost predicate UsedAt<E>(s: Registry<E>, t: Registry<E>, e: E, touched: bool, now: int) {
    e in t.entries ==>
      if touched then t.entries[e].lastUsed == now else e in s.entries && t.entries[e].lastUsed == s.entries[e].lastUsed
  }

  lemma AcquireTouches<E>(s: Registry<E>, step: Step<E>, e: E)
    requires step.Acquire? && Enabled(s, step)
    ensures UsedAt(s, Do(s, step), e, Touches(s, step, e), step.now)
  {
    var room := RoomFor(s, step.tenant, step.entry, step.victim);
    assert e in room.entries && !Touches(s, step, e) ==> e in s.entries && room.entries[e].lastUsed == s.entries[e].lastUsed;
  }

  lemma AdvanceTouchesNot<E>(s: Registry<E>, step: Step<E>, e: E)
    requires OneEntryStep(step) && Enabled(s, step)
    ensures UsedAt(s, Do(s, step), e, false, 0)
  {
    assert UsedAt(s, Advanced(s, step.entry, Advance(s.entries[step.entry], step)), e, false, 0);
  }

  lemma EvictionTouchesNot<E>(s: Registry<E>, tenants: set<string>, e: E)
    ensures UsedAt(s, Evicted(s, tenants), e, false, 0)
  {
  }

  lemma UnrefTouches<E>(s: Registry<E>, l: nat, now: int, e: E)
    requires l in s.leases && s.leases[l].entry in s.entries
    ensures UsedAt(s, Unref(s, l, now), e, s.leases[l].entry == e, now)
  {
  }

  lemma StepTouches<E>(s: Registry<E>, step: Step<E>, e: E)
    requires Enabled(s, step)
    ensures Touches(s, step, e) ==> UsedAt(s, Do(s, step), e, true, step.now)
    ensures !Touches(s, step, e) ==> UsedAt(s, Do(s, step), e, false, 0)
  {
    if step.Acquire? {
      AcquireTouches(s, step, e);
    } else if LeaseStep(step) {
      LeaseStepTouches(s, step, e);
    } else if EvictStep(step) {
      EvictStepTouchesNot(s, step, e);
    } else if OneEntryStep(step) {
      AdvanceTouchesNot(s, step, e);
    } else {
      OtherStepsTouchNot(s, step, e);
    }
  }

  lemma LeaseStepTouches<E>(s: Registry<E>, step: Step<E>, e: E)
    requires LeaseStep(step) && !step.Acquire? && Enabled(s, step)
    ensures Touches(s, step, e) ==> UsedAt(s, Do(s, step), e, true, step.now)
    ensures !Touches(s, step, e) ==> UsedAt(s, Do(s, step), e, false, 0)
  {
    if !step.HandOut? { UnrefTouches(s, step.lease, step.now, e); }
  }

  lemma EvictStepTouchesNot<E>(s: Registry<E>, step: Step<E>, e: E)
    requires EvictStep(step) && Enabled(s, step)
    ensures UsedAt(s, Do(s, step), e, false, 0)
  {
    match step
    case Evict(tenant) => EvictionTouchesNot(s, {tenant}, e);
    case ClearAndClose => EvictionTouchesNot(s, s.cache.Keys, e);
    case PruneIdle(now) => EvictionTouchesNot(s, IdleTenants(s, now), e);
  }

  lemma OtherStepsTouchNot<E>(s: Registry<E>, step: Step<E>, e: E)
    requires (step.FinishEntry? || step.Clear? || step.Shutdown?) && Enabled(s, step)
    ensures UsedAt(s, Do(s, step), e, false, 0)
  {
  }

  lemma {:induction false} LastUsedIsLastTouch<E>(s: Registry<E>, steps: seq<Step<E>>, e: E)
    requires Legal(s, steps) && e in After(s, steps).entries
    ensures var touch := LastTouch(s, steps, e);
      if touch.Some? then After(s, steps).entries[e].lastUsed == touch.value
      else e in s.entries && After(s, steps).entries[e].lastUsed == s.entries[e].lastUsed
    decreases |steps|
  {
    if steps != [] {
      StepTouches(s, steps[0], e);
      LastUsedIsLastTouch(Do(s, steps[0]), steps[1..], e);
    }
  }

  /**
   Whoever makes room for a new entry, the oldest that can be evicted, was acquired or released
   no later than any other that could be.
   */
  lemma OldestIsLeastRecentlyUsed<E>(capacity: nat, idleTtl: int, steps: seq<Step<E>>, oldest: string, tenant: string)
    requires Legal(Fresh(capacity, idleTtl), steps)
    requires var s := After(Fresh<E>(capacity, idleTtl), steps); Oldest(s, oldest) && Evictable(s, tenant)
    ensures var s := After(Fresh<E>(capacity, idleTtl), steps);
      var least, other := LastTouch(Fresh<E>(capacity, idleTtl), steps, s.cache[oldest]),
                          LastTouch(Fresh<E>(capacity, idleTtl), steps, s.cache[tenant]);
      least.Some? && other.Some? && least.value <= other.value
  {
    var s := After(Fresh<E>(capacity, idleTtl), steps);
    LastUsedIsLastTouch(Fresh<E>(capacity, idleTtl), steps, s.cache[oldest]);
    LastUsedIsLastTouch(Fresh<E>(capacity, idleTtl), steps, s.cache[tenant]);
  }
}
