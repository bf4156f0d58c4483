/**
 The registry as the object it is: a map and a set of entry objects whose fields the critical
 sections update in place. Each method is proved against the steps of `Registry`.
 */
module TenantRegistry {
  import opened Basics
  import opened R = Registry

  lemma MembersMore<E>(s: Registry<E>, tenants: set<string>, tenant: string)
    requires tenant in s.cache
    ensures Members(s, tenants + {tenant}) == Members(s, tenants) + {s.cache[tenant]}
  {
    forall e | e in Members(s, tenants) + {s.cache[tenant]} ensures e in Members(s, tenants + {tenant}) {
      if e == s.cache[tenant] {
        assert tenant in tenants + {tenant};
      } else {
        var t :| t in tenants && t in s.cache && s.cache[t] == e;
        assert t in tenants + {tenant};
      }
    }
  }

  lemma EvictedInTurn<E>(s: Registry<E>, tenants: set<string>, tenant: string)
    requires tenant !in tenants && tenant in s.cache
    ensures Evicted(Evicted(s, tenants), {tenant}) == Evicted(s, tenants + {tenant})
  {
    var first := Evicted(s, tenants);
    assert s.cache - tenants - {tenant} == s.cache - (tenants + {tenant});
    assert Members(first, {tenant}) == {s.cache[tenant]};
    MembersMore(s, tenants, tenant);
    RetiredInTurn(s.entries, Members(s, tenants), {s.cache[tenant]});
  }

  lemma RetiredInTurn<E>(entries: map<E, Entry>, first: set<E>, second: set<E>)
    ensures RetireAll(RetireAll(entries, first), second) == RetireAll(entries, first + second)
  {
  }

  /** The cache maps each tenant to an entry of its own. */
  ghost predicate Wired<E>(s: Registry<E>) {
    forall t :: t in s.cache ==> s.cache[t] in s.entries && s.entries[s.cache[t]].tenant == t
  }

  lemma IdleStays<E>(s: Registry<E>, tenants: set<string>, tenant: string, now: int)
    requires Wired(s) && tenant in s.cache && tenant !in tenants
    ensures Idle(Evicted(s, tenants), tenant, now) <==> Idle(s, tenant, now)
  {
    assert s.cache[tenant] !in Members(s, tenants);
  }

  /** The stages of a factory call up to the verdict on its result. */
  function Vetting<E>(e: E, enforcer: Option<Enforcer>, err: bool, alive: bool): seq<Step<E>> {
    [FactoryReturns(e, enforcer, err), CheckContext(e), Vet(e, alive)]
  }

  function Provisioning<E>(e: E, enforcer: Option<Enforcer>, err: bool, alive: bool): seq<Step<E>> {
    Vetting(e, enforcer, err, alive) + [Step.Record(e)]
  }

  lemma RecordAdvances<E>(s: Registry<E>, e: E)
    requires e in s.entries && s.entries[e].provision.Vetted?
    ensures Enabled(s, Step.Record(e)) && Do(s, Step.Record(e)) == Advanced(s, e, Advance(s.entries[e], Step.Record(e)))
  {
  }

  lemma AdvancedInTurn<E>(s: Registry<E>, e: E, x: Entry, y: Entry)
    requires e in s.entries && Gone(x) == {}
    ensures Advanced(Advanced(s, e, x), e, y) == Advanced(s, e, y)
  {
    assert s.entries[e := x][e := y] == s.entries[e := y];
  }

  /** Uninterrupted, these stages keep a live Enforcer of the tenant unless something failed or was cancelled. */
  lemma ProvisioningVets<E>(s: Registry<E>, e: E, enforcer: Option<Enforcer>, err: bool, alive: bool)
    requires e in s.entries && s.entries[e].provision.Running?
    requires alive && enforcer.Some? ==> enforcer.value.id !in s.down
    ensures Legal(s, Vetting(e, enforcer, err, alive))
    ensures var x := s.entries[e];
      var kept := !err && !x.cancelled && alive && enforcer.Some? && enforcer.value.tenant == x.tenant;
      After(s, Vetting(e, enforcer, err, alive)) == Advanced(s, e, x.(provision := Vetted(enforcer, !kept)))
  {
    var steps := Vetting(e, enforcer, err, alive);
    var x1 := Advance(s.entries[e], steps[0]);
    var x2 := Advance(x1, steps[1]);
    OneMore(s, [], steps[0]);
    assert After(s, [] + [steps[0]]) == Advanced(s, e, x1);
    VettingGoesOn(s, e, [] + [steps[0]], x1, steps[1]);
    VettingGoesOn(s, e, [] + [steps[0]] + [steps[1]], x2, steps[2]);
    assert steps == [] + [steps[0]] + [steps[1]] + [steps[2]];
  }

  /** One stage more of an uninterrupted factory call. */
  lemma VettingGoesOn<E>(s: Registry<E>, e: E, before: seq<Step<E>>, x: Entry, step: Step<E>)
    requires e in s.entries && Gone(x) == {} && Legal(s, before) && After(s, before) == Advanced(s, e, x)
    requires (step.CheckContext? || step.Vet?) && step.entry == e && Enabled(Advanced(s, e, x), step)
    ensures Legal(s, before + [step]) && After(s, before + [step]) == Advanced(s, e, Advance(x, step))
  {
    OneMore(s, before, step);
    AdvancedInTurn(s, e, x, Advance(x, step));
  }

  /** The registry with an entry's cleanup finished and the entry no longer tracked. */
  function Untracked<E(==)>(s: Registry<E>, e: E): Registry<E>
    requires e in s.entries
  {
    s.(entries := s.entries[e := s.entries[e].(cleanup := Finished)], all := s.all - {e})
  }

  lemma FinishIs<E>(s: Registry<E>, e: E)
    requires e in s.entries && s.entries[e].cleanup.Down?
    ensures Enabled(s, FinishEntry(e)) && Do(s, FinishEntry(e)) == R.SignalStopped(Untracked(s, e))
  {
  }

  function ClosedAndRetired<E(==)>(s: Registry<E>): Registry<E> {
    s.(closed := true, cache := map[], entries := RetireAll(CancelAll(s.entries), s.all))
  }

  /** The idle tenants met so far, when `todo` are still to come. */
  ghost function Picked<E>(s: Registry<E>, now: int, todo: set<string>): set<string> {
    IdleTenants(s, now) - todo
  }

  lemma PickedNone<E>(s: Registry<E>, now: int)
    ensures Picked(s, now, s.cache.Keys) == {} && Evicted(s, {}) == s
  {
    assert Members(s, {}) == {};
  }

  lemma PickedMore<E>(s: Registry<E>, now: int, todo: set<string>, tenant: string)
    requires tenant in todo
    ensures tenant !in Picked(s, now, todo)
    ensures Picked(s, now, todo - {tenant}) == if Idle(s, tenant, now) then Picked(s, now, todo) + {tenant} else Picked(s, now, todo)
    ensures |Picked(s, now, todo - {tenant})| == |Picked(s, now, todo)| + if Idle(s, tenant, now) then 1 else 0
  {
  }

  /** What comes next is picked as if nothing had been evicted before it. */
  lemma PickedNext<E>(s: Registry<E>, now: int, todo: set<string>, tenant: string)
    requires Wired(s) && tenant in todo && tenant in s.cache
    ensures var before, after := Evicted(s, Picked(s, now, todo)), Evicted(s, Picked(s, now, todo - {tenant}));
      && tenant in before.cache
      && after == (if Idle(before, tenant, now) then Evicted(before, {tenant}) else before)
      && |Picked(s, now, todo - {tenant})| == |Picked(s, now, todo)| + if Idle(before, tenant, now) then 1 else 0
  {
    PickedMore(s, now, todo, tenant);
    IdleStays(s, Picked(s, now, todo), tenant, now);
    EvictedInTurn(s, Picked(s, now, todo), tenant);
  }

  lemma PickedAll<E>(s: Registry<E>, now: int)
    ensures Picked(s, now, {}) == IdleTenants(s, now)
    ensures |s.cache - IdleTenants(s, now)| == |s.cache| - |IdleTenants(s, now)|
  {
    CardOfDifference(s.cache.Keys, IdleTenants(s, now));
    assert (s.cache - IdleTenants(s, now)).Keys == s.cache.Keys - IdleTenants(s, now);
  }

  class RegistryEntry {
    const tenant: string
    var provision: Provision
    var refs: int
    var lastUsed: int
    var retired: bool
    var cancelled: bool
    var cleanup: Cleanup

    /** The entry as a value; closing the registry cancels the context all entries derive from. */
    function Value(closed: bool): Entry
      reads this
    {
      Entry(tenant, provision, refs, lastUsed, retired, cancelled || closed, cleanup)
    }

    constructor (tenant: string)
      ensures Value(false) == Entry(tenant, Running, 0, 0, false, false, Open)
    {
      this.tenant, provision, refs, lastUsed := tenant, Running, 0, 0;
      retired, cancelled, cleanup := false, false, Open;
    }

    method FinishLocked()
      modifies this
      ensures forall c :: Value(c) == R.FinishLocked(old(Value(c)))
    {
      if !retired || refs != 0 || !provision.Ready? || !cleanup.Open? { return; }
      cleanup := Closing;
    }

    /** One reference more. */
    method Take(now: int)
      modifies this
      ensures forall c :: Value(c) == old(Value(c)).(refs := old(refs) + 1, lastUsed := now)
    {
      refs := refs + 1;
      lastUsed := now;
    }

    /** One reference less. */
    method GiveBack(now: int)
      modifies this
      ensures forall c :: Value(c) == LessOne(old(Value(c)), now)
    {
      refs := refs - 1;
      lastUsed := now;
      FinishLocked();
    }

    /** The verdict on the factory's result becomes the result. */
    method Settle()
      requires provision.Vetted?
      modifies this
      ensures forall c :: Value(c) == R.FinishLocked(
                old(Value(c)).(provision := Ready(old(provision).enforcer, old(provision).err), cancelled := true))
    {
      provision := Ready(provision.enforcer, provision.err);
      cancelled := true;
      FinishLocked();
    }

    method RetireLocked()
      modifies this
      ensures forall c :: Value(c) == R.RetireLocked(old(Value(c)))
    {
      retired := true;
      cancelled := true;
      FinishLocked();
    }
  }

  class TenantRegistry {
    const capacity: nat
    const idleTtl: int
    var cache: map<string, RegistryEntry>
    var all: set<RegistryEntry>
    var leases: map<nat, Lease<RegistryEntry>>
    var closed: bool
    var stopped: bool
    ghost var known: set<RegistryEntry>
    ghost var down: set<nat>
    ghost var forgotten: set<RegistryEntry>

    ghost function Entries(): map<RegistryEntry, Entry>
      reads this`known, this`closed, known
    {
      map e | e in known :: e.Value(closed)
    }

    /** Changing one entry changes the map of entries there. */
    twostate lemma OnlyChanged(e: RegistryEntry)
      requires e in known && known == old(known) && closed == old(closed)
      requires forall f :: f in known && f != e ==> unchanged(f)
      ensures Entries() == old(Entries())[e := e.Value(closed)]
    {
    }

    /** A new entry joins the others. */
    twostate lemma OnlyAdded(new e: RegistryEntry)
      requires known == old(known) + {e} && e !in old(known) && closed == old(closed)
      requires forall f :: f in old(known) ==> unchanged(f)
      ensures Entries() == old(Entries())[e := e.Value(closed)]
    {
    }

    ghost function View(): Registry<RegistryEntry>
      reads this, known
    {
      Registry(capacity, idleTtl, cache, all, Entries(), leases, closed, stopped, down, forgotten)
    }

    /** Everything the registry holds on to is one of its entries. */
    ghost predicate Valid()
      reads this
    {
      && (forall t :: t in cache ==> cache[t] in known && cache[t].tenant == t)
      && all <= known
      && (forall l :: l in leases ==> leases[l].entry in known)
    }

    constructor (capacity: nat, idleTtl: int)
      ensures Valid() && View() == Fresh(capacity, idleTtl)
    {
      this.capacity, this.idleTtl := capacity, idleTtl;
      cache, all, leases, closed, stopped := map[], {}, map[], false, false;
      known, down, forgotten := {}, {}, {};
    }

    /** The least recently used entry that is provisioned and unleased, if there is one. */
    method SelectOldest() returns (victim: Option<string>)
      requires Valid()
      ensures victim.Some? ==> Oldest(View(), victim.value)
      ensures victim.None? ==> NothingEvictable(View())
    {
      victim := None;
      var todo := cache.Keys;
      while todo != {}
        invariant todo <= cache.Keys
        invariant victim.None? ==> forall t :: t in cache && t !in todo ==> !Evictable(View(), t)
        invariant victim.Some? ==> Evictable(View(), victim.value) && forall t :: t in cache && t !in todo && Evictable(View(), t) ==>
          cache[victim.value].lastUsed <= cache[t].lastUsed
      {
        var n :| n in todo;
        var candidate := cache[n];
        if candidate.refs == 0 && candidate.provision.Ready? {
          if victim.None? || candidate.lastUsed < cache[victim.value].lastUsed {
            victim := Some(n);
          }
        }
        todo := todo - {n};
      }
    }

    /** Retires each of the given entries, in an arbitrary order. */
    method RetireEach(targets: set<RegistryEntry>)
      requires targets <= known
      modifies targets
      ensures Entries() == RetireAll(old(Entries()), targets)
    {
      var todo := targets;
      while todo != {}
        invariant todo <= targets
        invariant forall e :: e in known ==>
          e.Value(closed) == if e in targets - todo then R.RetireLocked(old(e.Value(closed))) else old(e.Value(closed))
      {
        var e :| e in todo;
        e.RetireLocked();
        todo := todo - {e};
      }
    }

    /** Takes the given tenants out of the cache and retires their entries. */
    method Remove(tenants: set<string>)
      requires Valid() && tenants <= cache.Keys
      modifies this`cache, known
      ensures Valid() && View() == Evicted(old(View()), tenants)
    {
      var entries := set t | t in tenants :: cache[t];
      assert entries == Members(View(), tenants);
      cache := cache - tenants;
      RetireEach(entries);
    }

    /** Evicts the least recently used entry of a full cache; not possible if all are in use. */
    method MakeRoom() returns (ok: bool, victim: Option<string>)
      requires Valid()
      modifies this`cache, known
      ensures Valid() && (!ok <==> Full(old(View())) && NothingEvictable(old(View())))
      ensures if ok && Full(old(View())) then victim.Some? && Oldest(old(View()), victim.value) else victim.None?
      ensures View() == R.MakeRoom(old(View()), victim)
    {
      if capacity == 0 || |cache| < capacity { return true, None; }
      victim := SelectOldest();
      ok := victim.Some?;
      if ok { Remove({victim.value}); }
    }

    method CreateEntry(tenant: string) returns (e: RegistryEntry)
      requires Valid() && !closed && tenant !in cache
      modifies this`cache, this`all, this`known
      ensures Valid() && fresh(e) && known == old(known) + {e}
      ensures View() == Created(old(View()), tenant, e)
    {
      e := new RegistryEntry(tenant);
      cache := cache[tenant := e];
      all := all + {e};
      known := known + {e};
      OnlyAdded(e);
    }

    /** Takes a reference on the tenant's entry. */
    method Reference(lease: nat, tenant: string, now: int)
      requires Valid() && tenant in cache && lease !in leases
      modifies this`leases, known
      ensures Valid() && View() == Referenced(old(View()), lease, tenant, now)
    {
      var e := cache[tenant];
      ghost var s, x := View(), e.Value(closed).(refs := e.refs + 1, lastUsed := now);
      leases := leases[lease := Lease(e, tenant, Waiting)];
      e.Take(now);
      OnlyChanged(e);
    }

    /**
     The critical section of `Acquire`: refused when the registry is closed, or full of entries
     that cannot be evicted; otherwise a reference, with the eviction and the entry it took.
     */
    method Acquire(lease: nat, tenant: string, now: int) returns (ok: bool, ghost step: Step<RegistryEntry>)
      requires Valid() && lease !in leases
      modifies this, known
      ensures Valid()
      ensures ok ==> step.Acquire? && step.lease == lease && step.tenant == tenant && step.now == now
      ensures ok ==> Enabled(old(View()), step) && View() == Do(old(View()), step)
      ensures !ok ==> View() == old(View())
      ensures !ok <==> old(closed) || (tenant !in old(cache) && Full(old(View())) && NothingEvictable(old(View())))
    {
      step := Step.Shutdown;
      if closed { return false, step; }
      if tenant in cache {
        step := Step.Acquire(lease, tenant, cache[tenant], None, now);
        Reference(lease, tenant, now);
        return true, step;
      }
      var victim;
      ok, victim := MakeRoom();
      if !ok { return; }
      var e := CreateEntry(tenant);
      step := Step.Acquire(lease, tenant, e, victim, now);
      Reference(lease, tenant, now);
      return true, step;
    }

    /** Gives a reference back. */
    method Unreference(lease: nat, now: int)
      requires Valid() && lease in leases && !leases[lease].phase.Released?
      modifies this`leases, known
      ensures Valid() && View() == Unref(old(View()), lease, now)
    {
      var e := leases[lease].entry;
      leases := leases[lease := leases[lease].(phase := Released)];
      e.GiveBack(now);
      OnlyChanged(e);
    }

    /** What a caller gets once its entry is ready or cancelled, or the caller itself is done waiting. */
    method Answer(lease: nat, callerDone: bool, now: int) returns (r: Option<Enforcer>)
      requires Valid() && lease in leases && leases[lease].phase.Waiting?
      modifies this`leases, known
      ensures Valid() && (r.Some? <==> !callerDone && Delivers(old(View().entries[leases[lease].entry])))
      ensures Enabled(old(View()), if r.Some? then HandOut(lease) else GiveUp(lease, now))
      ensures View() == Do(old(View()), if r.Some? then HandOut(lease) else GiveUp(lease, now))
      ensures r.Some? ==> leases[lease].phase == Held(r.value)
    {
      var e := leases[lease].entry;
      if callerDone || !e.provision.Ready? || e.provision.err || e.provision.enforcer.None? {
        Unreference(lease, now);
        return None;
      }
      r := e.provision.enforcer;
      leases := leases[lease := leases[lease].(phase := Held(r.value))];
    }

    /** The release function of a lease, which works once. */
    method Release(lease: nat, now: int)
      requires Valid() && lease in leases && !leases[lease].phase.Waiting?
      modifies this`leases, known
      ensures Valid() && Enabled(old(View()), Step.Release(lease, now))
      ensures View() == Do(old(View()), Step.Release(lease, now))
    {
      if !leases[lease].phase.Released? { Unreference(lease, now); }
    }

    /** The critical section that records what the factory gave. */
    method Record(e: RegistryEntry)
      requires Valid() && e in known && e.provision.Vetted?
      modifies this`down, e
      ensures Valid() && Enabled(old(View()), Step.Record(e)) && View() == Do(old(View()), Step.Record(e))
    {
      ghost var s, x := View(), Advance(e.Value(closed), Step.Record(e));
      RecordAdvances(s, e);
      e.Settle();
      down := down + Gone(e.Value(closed));
      OnlyChanged(e);
    }

    /** The verdict on what the factory returned; a refused Enforcer is shut down. */
    method Judge(e: RegistryEntry, enforcer: Option<Enforcer>, err: bool, alive: bool)
      requires Valid() && e in known && e.provision.Running?
      requires alive && enforcer.Some? ==> enforcer.value.id !in down
      modifies this`down, e
      ensures Valid() && e.provision.Vetted? && e.cleanup == old(e.cleanup)
      ensures var x := old(View()).entries[e];
        var kept := !err && !x.cancelled && alive && enforcer.Some? && enforcer.value.tenant == x.tenant;
        View() == Advanced(old(View()), e, x.(provision := Vetted(enforcer, !kept)))
    {
      ghost var s := View();
      var failed := err;
      if !failed { failed := e.cancelled || closed; }
      if !failed && (enforcer.None? || enforcer.value.tenant != e.tenant || !alive) { failed := true; }
      e.provision := Vetted(enforcer, failed);
      down := down + Gone(e.Value(closed));
      OnlyChanged(e);
    }

    /** The goroutine that runs the factory, when nothing else happens in between. */
    method Provision(e: RegistryEntry, enforcer: Option<Enforcer>, err: bool, alive: bool)
      requires Valid() && e in known && e.provision.Running?
      requires alive && enforcer.Some? ==> enforcer.value.id !in down
      modifies this`down, e
      ensures Valid() && Legal(old(View()), Provisioning(e, enforcer, err, alive))
      ensures View() == After(old(View()), Provisioning(e, enforcer, err, alive))
    {
      ProvisioningVets(View(), e, enforcer, err, alive);
      ghost var s := View();
      Judge(e, enforcer, err, alive);
      ghost var t := View();
      assert t == After(s, Vetting(e, enforcer, err, alive));
      Record(e);
      OneMore(s, Vetting(e, enforcer, err, alive), Step.Record(e));
    }

    method SignalStopped()
      modifies this`stopped
      ensures View() == R.SignalStopped(old(View()))
    {
      if closed && all == {} { stopped := true; }
    }

    /** The critical section at the end of the closing goroutine. */
    method Finish(e: RegistryEntry)
      requires Valid() && e in known && e.cleanup.Down?
      modifies this`all, this`stopped, e
      ensures Valid() && Enabled(old(View()), FinishEntry(e)) && View() == Do(old(View()), FinishEntry(e))
    {
      FinishIs(View(), e);
      ghost var s := View();
      all := all - {e};
      e.cleanup := Finished;
      OnlyChanged(e);
      assert View() == Untracked(s, e);
      SignalStopped();
    }

    method Evict(tenant: string) returns (ok: bool)
      requires Valid()
      modifies this`cache, known
      ensures Valid() && View() == Do(old(View()), Step.Evict(tenant)) && (ok <==> tenant in old(cache))
    {
      ok := tenant in cache;
      if ok { Remove({tenant}); }
    }

    method ClearAndClose()
      requires Valid()
      modifies this`cache, known
      ensures Valid() && View() == Do(old(View()), Step.ClearAndClose) && cache == map[]
    {
      Remove(cache.Keys);
      assert cache == map[];
    }

    /** Forgets the cached entries without closing them. */
    method Clear()
      requires Valid()
      modifies this`cache, this`all, this`forgotten
      ensures Valid() && View() == Do(old(View()), Step.Clear)
    {
      ghost var members := Members(View(), cache.Keys);
      Untrack();
      forgotten := forgotten + members;
      cache := map[];
    }

    /** Takes every cached entry out of the tracked ones. */
    method Untrack()
      modifies this`all
      ensures all == old(all) - Members(old(View()), cache.Keys)
    {
      ghost var start := View();
      var todo := cache.Keys;
      assert cache.Keys - todo == {};
      while todo != {}
        invariant todo <= cache.Keys && all == start.all - Members(start, cache.Keys - todo)
      {
        var t :| t in todo;
        MembersMore(start, cache.Keys - todo, t);
        assert cache.Keys - (todo - {t}) == cache.Keys - todo + {t};
        all := all - {cache[t]};
        todo := todo - {t};
      }
      assert cache.Keys - todo == cache.Keys;
    }

    method Shutdown()
      requires Valid()
      modifies this, known
      ensures Valid() && View() == Do(old(View()), Step.Shutdown)
    {
      ghost var s := View();
      Close();
      assert View() == ClosedAndRetired(s);
      SignalStopped();
    }

    /** Nothing can be acquired any more, and every tracked entry is retired. */
    method Close()
      requires Valid()
      modifies this`closed, this`cache, known
      ensures Valid() && View() == ClosedAndRetired(old(View()))
    {
      closed := true;
      cache := map[];
      assert Entries() == CancelAll(old(Entries()));
      RetireEach(all);
    }

    /** Evicts the tenant's entry if it has been idle for long enough. */
    method PruneOne(tenant: string, now: int) returns (removed: bool)
      requires Valid() && tenant in cache
      modifies this`cache, known
      ensures Valid() && (removed <==> Idle(old(View()), tenant, now))
      ensures View() == if removed then Evicted(old(View()), {tenant}) else old(View())
    {
      var e := cache[tenant];
      removed := e.refs == 0 && e.provision.Ready? && now - e.lastUsed >= idleTtl;
      if removed { Remove({tenant}); }
    }

    /** Evicts what has been idle for long enough; a registry without a limit, or a closed one, keeps all. */
    method PruneIdle(now: int) returns (removed: nat)
      requires Valid()
      modifies this`cache, known
      ensures Valid()
      ensures View() == if idleTtl > 0 && !old(closed) then Evicted(old(View()), IdleTenants(old(View()), now)) else old(View())
      ensures removed == |old(cache)| - |cache|
    {
      if idleTtl <= 0 || closed { return 0; }
      removed := PruneEach(now);
      PickedAll(old(View()), now);
    }

    /** Looks at every cached entry in an arbitrary order and evicts each idle one as it is met. */
    method PruneEach(now: int) returns (removed: nat)
      requires Valid()
      modifies this`cache, known
      ensures Valid() && View() == Evicted(old(View()), Picked(old(View()), now, {}))
      ensures removed == |Picked(old(View()), now, {})|
    {
      removed := 0;
      ghost var start := View();
      assert Wired(start);
      PickedNone(start, now);
      var todo := cache.Keys;
      while todo != {}
        invariant Valid() && View() == Evicted(start, Picked(start, now, todo))
        invariant todo <= start.cache.Keys && removed == |Picked(start, now, todo)|
      {
        var t :| t in todo;
        PickedNext(start, now, todo, t);
        var idle := PruneOne(t, now);
        if idle { removed := removed + 1; }
        todo := todo - {t};
      }
    }
  }

  /** Every state a run of the registry can reach meets what the methods require. */
  lemma ReachedIsValid(r: TenantRegistry, steps: seq<Step<RegistryEntry>>)
    requires Legal(Fresh(r.capacity, r.idleTtl), steps) && r.View() == After(Fresh(r.capacity, r.idleTtl), steps)
    ensures r.Valid()
  {
    FreshInv<RegistryEntry>(r.capacity, r.idleTtl);
    RunKeepsInv(Fresh<RegistryEntry>(r.capacity, r.idleTtl), steps);
    forall t | t in r.cache ensures r.cache[t] in r.known && r.cache[t].tenant == t {
      assert Cached(r.View(), r.View().cache[t]);
    }
  }
}
