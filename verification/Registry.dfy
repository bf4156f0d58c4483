/**
 The tenant registry as a state machine. Every critical section under the registry's mutex is
 one step, and so are the stages of a factory call, the shutdown of an Enforcer by its closing
 goroutine, and the answer a waiting caller gets. `E` identifies an entry.
 */
module Registry {
  import opened Basics

  /** An Enforcer, by identity and the tenant it reports. */
  datatype Enforcer = Enforcer(id: nat, tenant: string)

  /** How far the factory call of an entry has come, and what the factory returned. */
  datatype Provision =
    | Running
    | Returned(enforcer: Option<Enforcer>, err: bool)   // the factory returned
    | Checked(enforcer: Option<Enforcer>, err: bool)    // ... and its context was looked at
    | Vetted(enforcer: Option<Enforcer>, err: bool)     // ... and the result accepted or shut down
    | Ready(enforcer: Option<Enforcer>, err: bool)      // ... and recorded: `ready` is closed

  /** How far the cleanup of an entry has come. */
  datatype Cleanup = Open | Closing | Down | Finished

  datatype Entry = Entry(
    tenant: string,
    provision: Provision,
    refs: int,
    lastUsed: int,
    retired: bool,
    cancelled: bool,
    cleanup: Cleanup)

  datatype Phase = Waiting | Held(enforcer: Enforcer) | Released

  datatype Lease<E> = Lease(entry: E, tenant: string, phase: Phase)

  /**
   `entries` holds every entry ever created, `all` those still tracked and `cache` those that
   can be acquired. `down` records the Enforcers the registry has shut down, and `forgotten`
   the entries given up by `Clear`.
   */
  datatype Registry<E(==)> = Registry(
    capacity: nat,
    idleTtl: int,
    cache: map<string, E>,
    all: set<E>,
    entries: map<E, Entry>,
    leases: map<nat, Lease<E>>,
    closed: bool,
    stopped: bool,
    down: set<nat>,
    forgotten: set<E>)

  function Fresh<E(==)>(capacity: nat, idleTtl: int): Registry<E> {
    Registry(capacity, idleTtl, map[], {}, map[], map[], false, false, {}, {})
  }

  // ---- Critical sections on one entry ----

  /** Cleanup starts once the entry is retired, unleased and provisioned, and only once. */
  function FinishLocked(e: Entry): Entry {
    if e.retired && e.refs == 0 && e.provision.Ready? && e.cleanup.Open? then e.(cleanup := Closing) else e
  }

  function RetireLocked(e: Entry): Entry {
    FinishLocked(e.(retired := true, cancelled := true))
  }

  function RetireAll<E(==)>(entries: map<E, Entry>, gone: set<E>): map<E, Entry> {
    map e | e in entries :: if e in gone then RetireLocked(entries[e]) else entries[e]
  }

  function CancelAll<E(==)>(entries: map<E, Entry>): map<E, Entry> {
    map e | e in entries :: entries[e].(cancelled := true)
  }

  function SignalStopped<E(==)>(s: Registry<E>): Registry<E> {
    if s.closed && s.all == {} then s.(stopped := true) else s
  }

  /** What is evicted to make room or for being idle: provisioned and unleased. */
  predicate Evictable<E(==)>(s: Registry<E>, tenant: string) {
    && tenant in s.cache && s.cache[tenant] in s.entries
    && s.entries[s.cache[tenant]].refs == 0 && s.entries[s.cache[tenant]].provision.Ready?
  }

  ghost predicate NothingEvictable<E>(s: Registry<E>) {
    forall t :: t in s.cache ==> !Evictable(s, t)
  }

  predicate Oldest<E(==)>(s: Registry<E>, tenant: string) {
    && Evictable(s, tenant)
    && forall t :: t in s.cache && Evictable(s, t) ==>
         s.entries[s.cache[tenant]].lastUsed <= s.entries[s.cache[t]].lastUsed
  }

  predicate Idle<E(==)>(s: Registry<E>, tenant: string, now: int) {
    Evictable(s, tenant) && now - s.entries[s.cache[tenant]].lastUsed >= s.idleTtl
  }

  predicate Full<E(==)>(s: Registry<E>) {
    s.capacity > 0 && |s.cache| >= s.capacity
  }

  function IdleTenants<E(==)>(s: Registry<E>, now: int): set<string> {
    set t | t in s.cache && Idle(s, t, now)
  }

  function Members<E(==)>(s: Registry<E>, tenants: set<string>): set<E> {
    set t | t in tenants && t in s.cache :: s.cache[t]
  }

  function Evicted<E(==)>(s: Registry<E>, tenants: set<string>): Registry<E> {
    s.(cache := s.cache - tenants, entries := RetireAll(s.entries, Members(s, tenants)))
  }

  // ---- Steps ----

  datatype Step<E> =
    | Acquire(lease: nat, tenant: string, entry: E, victim: Option<string>, now: int)
    | HandOut(lease: nat)
    | GiveUp(lease: nat, now: int)
    | Release(lease: nat, now: int)
    | FactoryReturns(entry: E, enforcer: Option<Enforcer>, err: bool)
    | Expire(entry: E)
    | CheckContext(entry: E)
    | Vet(entry: E, alive: bool)
    | Record(entry: E)
    | ShutEnforcer(entry: E)
    | FinishEntry(entry: E)
    | Evict(tenant: string)
    | ClearAndClose
    | Clear
    | Shutdown
    | PruneIdle(now: int)

  /** The result of a factory is kept only if nothing failed and it is a live Enforcer of the tenant. */
  predicate Accepted(e: Entry, alive: bool) {
    && e.provision.Checked? && !e.provision.err && alive
    && e.provision.enforcer.Some? && e.provision.enforcer.value.tenant == e.tenant
  }

  ghost predicate Enabled<E>(s: Registry<E>, step: Step<E>) {
    match step
    case Acquire(lease, tenant, entry, victim, _) =>
      && !s.closed && lease !in s.leases
      && (if tenant in s.cache then s.cache[tenant] in s.entries
          else && entry !in s.entries
               && (if Full(s) then victim.Some? && Oldest(s, victim.value) else victim.None?))
    case HandOut(lease) =>
      && lease in s.leases && s.leases[lease].phase.Waiting? && s.leases[lease].entry in s.entries
      && Delivers(s.entries[s.leases[lease].entry])
    case GiveUp(lease, _) => lease in s.leases && s.leases[lease].phase.Waiting? && s.leases[lease].entry in s.entries
    case Release(lease, _) => lease in s.leases && !s.leases[lease].phase.Waiting? && s.leases[lease].entry in s.entries
    case FactoryReturns(e, _, _) => e in s.entries && s.entries[e].provision.Running?
    case Expire(e) => e in s.entries
    case CheckContext(e) => e in s.entries && s.entries[e].provision.Returned?
    case Vet(e, alive) =>
      && e in s.entries && s.entries[e].provision.Checked?
      && (alive && s.entries[e].provision.enforcer.Some? ==> s.entries[e].provision.enforcer.value.id !in s.down)
    case Record(e) => e in s.entries && s.entries[e].provision.Vetted?
    case ShutEnforcer(e) => e in s.entries && s.entries[e].cleanup.Closing?
    case FinishEntry(e) => e in s.entries && s.entries[e].cleanup.Down?
    case PruneIdle(_) => s.idleTtl > 0 && !s.closed
    case _ => true
  }

  /** The entry has an Enforcer to hand out. */
  predicate Delivers(e: Entry) {
    e.provision.Ready? && !e.provision.err && e.provision.enforcer.Some?
  }

  function Referenced<E(==)>(s: Registry<E>, lease: nat, tenant: string, now: int): Registry<E>
    requires tenant in s.cache && s.cache[tenant] in s.entries
  {
    var e := s.cache[tenant];
    s.(entries := s.entries[e := s.entries[e].(refs := s.entries[e].refs + 1, lastUsed := now)],
       leases := s.leases[lease := Lease(e, tenant, Waiting)])
  }

  function Created<E(==)>(s: Registry<E>, tenant: string, entry: E): Registry<E> {
    s.(cache := s.cache[tenant := entry], all := s.all + {entry},
       entries := s.entries[entry := Entry(tenant, Running, 0, 0, false, false, Open)])
  }

  /** The release function: one reference less. */
  function Unref<E(==)>(s: Registry<E>, lease: nat, now: int): Registry<E>
    requires lease in s.leases && s.leases[lease].entry in s.entries
  {
    var e := s.leases[lease].entry;
    s.(leases := s.leases[lease := s.leases[lease].(phase := Released)],
       entries := s.entries[e := FinishLocked(s.entries[e].(refs := s.entries[e].refs - 1, lastUsed := now))])
  }

  function MakeRoom<E(==)>(s: Registry<E>, victim: Option<string>): Registry<E> {
    if victim.Some? then Evicted(s, {victim.value}) else s
  }

  /** The registry as it is when the reference is taken: with the tenant's entry in the cache. */
  function RoomFor<E(==)>(s: Registry<E>, tenant: string, entry: E, victim: Option<string>): Registry<E> {
    if tenant in s.cache then s else Created(MakeRoom(s, victim), tenant, entry)
  }

  /** What a step makes of the one entry it concerns. */
  function Advance<E>(e: Entry, step: Step<E>): Entry
    requires step.CheckContext? ==> e.provision.Returned?
    requires step.Vet? ==> e.provision.Checked?
    requires step.Record? ==> e.provision.Vetted?
  {
    match step
    case FactoryReturns(_, enforcer, err) => e.(provision := Returned(enforcer, err))
    case Expire(_) => e.(cancelled := true)
    case CheckContext(_) => e.(provision := Checked(e.provision.enforcer, e.provision.err || e.cancelled))
    case Vet(_, alive) => e.(provision := Vetted(e.provision.enforcer, !Accepted(e, alive)))
    case Record(_) => FinishLocked(e.(provision := Ready(e.provision.enforcer, e.provision.err), cancelled := true))
    case ShutEnforcer(_) => e.(cleanup := Down)
    case _ => e
  }

  /** The Enforcer an entry has shut down: a refused result at once, an accepted one in its cleanup. */
  function Gone(e: Entry): set<nat> {
    if (e.provision.Vetted? || e.provision.Ready?) && e.provision.enforcer.Some?
       && (e.provision.err || e.cleanup.Down? || e.cleanup.Finished?)
    then {e.provision.enforcer.value.id} else {}
  }

  function Advanced<E(==)>(s: Registry<E>, e: E, x: Entry): Registry<E> {
    s.(entries := s.entries[e := x], down := s.down + Gone(x))
  }

  function Do<E(==)>(s: Registry<E>, step: Step<E>): Registry<E>
    requires Enabled(s, step)
  {
    match step
    case Acquire(lease, tenant, entry, victim, now) => Referenced(RoomFor(s, tenant, entry, victim), lease, tenant, now)
    case HandOut(lease) =>
      s.(leases := s.leases[lease := s.leases[lease].(
           phase := Held(s.entries[s.leases[lease].entry].provision.enforcer.value))])
    case GiveUp(lease, now) => Unref(s, lease, now)
    case Release(lease, now) => if s.leases[lease].phase.Released? then s else Unref(s, lease, now)
    case FinishEntry(e) =>
      SignalStopped(s.(entries := s.entries[e := s.entries[e].(cleanup := Finished)], all := s.all - {e}))
    case Evict(tenant) => Evicted(s, {tenant})
    case ClearAndClose => Evicted(s, s.cache.Keys)
    case Clear =>
      s.(cache := map[], all := s.all - Members(s, s.cache.Keys), forgotten := s.forgotten + Members(s, s.cache.Keys))
    case Shutdown =>
      SignalStopped(s.(closed := true, cache := map[], entries := RetireAll(CancelAll(s.entries), s.all)))
    case PruneIdle(now) => Evicted(s, IdleTenants(s, now))
    case _ => Advanced(s, step.entry, Advance(s.entries[step.entry], step))
  }

  // ---- Invariants ----

  predicate Cached<E(==)>(s: Registry<E>, e: E) {
    e in s.entries && s.entries[e].tenant in s.cache && s.cache[s.entries[e].tenant] == e
  }

  /** What is in the cache can be acquired: its own tenant's, tracked, not retired, within the capacity. */
  ghost predicate CacheInv<E>(s: Registry<E>) {
    && (forall t :: t in s.cache ==> Cached(s, s.cache[t]) && s.entries[s.cache[t]].tenant == t)
    && (s.capacity > 0 ==> |s.cache| <= s.capacity)
    && (s.closed ==> s.cache == map[])
  }

  /** Where an entry stands: acquirable, retired or forgotten; tracked until its cleanup finished. */
  ghost predicate Placed<E>(s: Registry<E>, e: E)
    requires e in s.entries
  {
    && (e in s.all <==> e !in s.forgotten && !s.entries[e].cleanup.Finished?)
    && (Cached(s, e) <==> !s.entries[e].retired && e !in s.forgotten)
    && (e in s.forgotten ==> !s.entries[e].retired)
  }

  ghost predicate PlaceInv<E>(s: Registry<E>) {
    && s.all <= s.entries.Keys && s.forgotten <= s.entries.Keys
    && forall e :: e in s.entries ==> Placed(s, e)
  }

  /** Cleanup has started exactly if the entry is retired, unleased and provisioned. */
  predicate EntryOk(e: Entry) {
    && (e.retired && e.refs == 0 && e.provision.Ready? <==> !e.cleanup.Open?)
    && ((e.provision.Vetted? || e.provision.Ready?) && !e.provision.err ==>
          e.provision.enforcer.Some? && e.provision.enforcer.value.tenant == e.tenant)
  }

  ghost predicate EntriesOk<E>(entries: map<E, Entry>) {
    forall e :: e in entries ==> EntryOk(entries[e])
  }

  ghost function AllGone<E>(entries: map<E, Entry>): set<nat> {
    set e, id | e in entries && id in Gone(entries[e]) :: id
  }

  ghost predicate LeaseInv<E>(leases: map<nat, Lease<E>>, entries: map<E, Entry>) {
    forall l :: l in leases ==>
      && leases[l].entry in entries && entries[leases[l].entry].tenant == leases[l].tenant
      && (leases[l].phase.Held? ==>
            && Delivers(entries[leases[l].entry])
            && entries[leases[l].entry].provision.enforcer.value == leases[l].phase.enforcer)
  }

  /** The outstanding leases of an entry. */
  ghost function Outstanding<E>(leases: map<nat, Lease<E>>, e: E): set<nat> {
    set l | l in leases && leases[l].entry == e && !leases[l].phase.Released?
  }

  ghost predicate RefInv<E>(leases: map<nat, Lease<E>>, entries: map<E, Entry>) {
    forall e :: e in entries ==> entries[e].refs == |Outstanding(leases, e)|
  }

  ghost predicate StopInv<E>(s: Registry<E>) {
    && (s.stopped <==> s.closed && s.all == {})
    && (s.closed ==> forall e :: e in s.entries ==> s.entries[e].cancelled)
  }

  /** What holds of the entries and their leases, wherever the entries stand. */
  ghost predicate BodyInv<E>(leases: map<nat, Lease<E>>, entries: map<E, Entry>, down: set<nat>) {
    && EntriesOk(entries) && down == AllGone(entries)
    && LeaseInv(leases, entries) && RefInv(leases, entries)
  }

  ghost predicate Inv<E>(s: Registry<E>) {
    CacheInv(s) && PlaceInv(s) && StopInv(s) && BodyInv(s.leases, s.entries, s.down)
  }

  lemma FreshInv<E>(capacity: nat, idleTtl: int)
    ensures Inv<E>(Fresh(capacity, idleTtl))
  {
  }

  // ---- The entries and their leases under each step ----

  /** One entry replaced by another of the same tenant that keeps its results. */
  ghost predicate Follows(e: Entry, x: Entry) {
    && x.tenant == e.tenant && Gone(e) <= Gone(x) && EntryOk(x)
    && (e.provision.Ready? ==> x.provision == e.provision)
  }

  lemma GoneAfterUpdate<E>(entries: map<E, Entry>, e: E, x: Entry)
    requires e in entries ==> Gone(entries[e]) <= Gone(x)
    ensures AllGone(entries[e := x]) == AllGone(entries) + Gone(x)
  {
    var after := entries[e := x];
    forall id | id in AllGone(entries) + Gone(x) ensures id in AllGone(after) {
      if id in Gone(x) {
        assert id in Gone(after[e]);
      } else {
        var f :| f in entries && id in Gone(entries[f]);
        assert id in Gone(after[f]);
      }
    }
    forall id | id in AllGone(after) ensures id in AllGone(entries) + Gone(x) {
      var f :| f in after && id in Gone(after[f]);
      assert f != e ==> id in Gone(entries[f]);
    }
  }

  lemma BodyAfterAdvance<E>(leases: map<nat, Lease<E>>, entries: map<E, Entry>, down: set<nat>, e: E, x: Entry)
    requires BodyInv(leases, entries, down) && e in entries
    requires Follows(entries[e], x) && x.refs == entries[e].refs
    ensures BodyInv(leases, entries[e := x], down + Gone(x))
  {
    GoneAfterUpdate(entries, e, x);
  }

  lemma LeasedHaveRefs<E>(leases: map<nat, Lease<E>>, entries: map<E, Entry>, l: nat)
    requires RefInv(leases, entries)
    requires l in leases && leases[l].entry in entries && !leases[l].phase.Released?
    ensures entries[leases[l].entry].refs > 0
  {
    assert l in Outstanding(leases, leases[l].entry);
  }

  lemma BodyAfterHandOut<E>(leases: map<nat, Lease<E>>, entries: map<E, Entry>, down: set<nat>, l: nat)
    requires BodyInv(leases, entries, down)
    requires l in leases && leases[l].phase.Waiting? && Delivers(entries[leases[l].entry])
    ensures BodyInv(leases[l := leases[l].(phase := Held(entries[leases[l].entry].provision.enforcer.value))], entries, down)
  {
    var after := leases[l := leases[l].(phase := Held(entries[leases[l].entry].provision.enforcer.value))];
    forall e | e in entries ensures entries[e].refs == |Outstanding(after, e)| {
      assert Outstanding(after, e) == Outstanding(leases, e);
    }
  }

  lemma GoneUnchanged<E>(entries: map<E, Entry>, e: E, x: Entry)
    requires e in entries && Gone(entries[e]) == Gone(x)
    ensures AllGone(entries[e := x]) == AllGone(entries)
  {
    GoneAfterUpdate(entries, e, x);
    assert forall id :: id in Gone(entries[e]) ==> id in AllGone(entries);
  }

  lemma RefsAfterRelease<E>(leases: map<nat, Lease<E>>, entries: map<E, Entry>, l: nat, x: Entry)
    requires RefInv(leases, entries)
    requires l in leases && !leases[l].phase.Released? && leases[l].entry in entries
    requires x.refs == entries[leases[l].entry].refs - 1
    ensures RefInv(leases[l := leases[l].(phase := Released)], entries[leases[l].entry := x])
  {
    var after := leases[l := leases[l].(phase := Released)];
    forall f | f in entries
      ensures entries[leases[l].entry := x][f].refs == |Outstanding(after, f)|
    {
      assert Outstanding(after, f) == Outstanding(leases, f) - if f == leases[l].entry then {l} else {};
      assert f == leases[l].entry ==> l in Outstanding(leases, f);
    }
  }

  lemma RefsAfterLease<E>(leases: map<nat, Lease<E>>, entries: map<E, Entry>, l: nat, e: E, x: Entry)
    requires RefInv(leases, entries)
    requires l !in leases && e in entries && x.refs == entries[e].refs + 1
    ensures RefInv(leases[l := Lease(e, x.tenant, Waiting)], entries[e := x])
  {
    forall f | f in entries
      ensures entries[e := x][f].refs == |Outstanding(leases[l := Lease(e, x.tenant, Waiting)], f)|
    {
      OutstandingAfterLease(leases, l, Lease(e, x.tenant, Waiting), f);
    }
  }

  lemma OutstandingAfterLease<E>(leases: map<nat, Lease<E>>, l: nat, lease: Lease<E>, f: E)
    requires l !in leases && lease.phase.Waiting?
    ensures |Outstanding(leases[l := lease], f)| == |Outstanding(leases, f)| + if f == lease.entry then 1 else 0
  {
    assert Outstanding(leases[l := lease], f) == Outstanding(leases, f) + if f == lease.entry then {l} else {};
  }

  lemma LeasesAfterUpdate<E>(leases: map<nat, Lease<E>>, entries: map<E, Entry>, e: E, x: Entry)
    requires LeaseInv(leases, entries) && e in entries && Follows(entries[e], x)
    ensures LeaseInv(leases, entries[e := x])
  {
  }

  lemma BodyAfterRelease<E>(leases: map<nat, Lease<E>>, entries: map<E, Entry>, down: set<nat>, l: nat, x: Entry)
    requires BodyInv(leases, entries, down)
    requires l in leases && !leases[l].phase.Released?
    requires Follows(entries[leases[l].entry], x) && x.refs == entries[leases[l].entry].refs - 1
    requires Gone(entries[leases[l].entry]) == Gone(x)
    ensures BodyInv(leases[l := leases[l].(phase := Released)], entries[leases[l].entry := x], down)
  {
    GoneUnchanged(entries, leases[l].entry, x);
    RefsAfterRelease(leases, entries, l, x);
    LeasesAfterUpdate(leases, entries, leases[l].entry, x);
  }

  lemma BodyAfterLease<E>(leases: map<nat, Lease<E>>, entries: map<E, Entry>, down: set<nat>, l: nat, e: E, x: Entry)
    requires BodyInv(leases, entries, down)
    requires l !in leases && e in entries
    requires Follows(entries[e], x) && x.refs == entries[e].refs + 1 && Gone(entries[e]) == Gone(x)
    ensures BodyInv(leases[l := Lease(e, x.tenant, Waiting)], entries[e := x], down)
  {
    GoneUnchanged(entries, e, x);
    RefsAfterLease(leases, entries, l, e, x);
    LeasesAfterUpdate(leases, entries, e, x);
  }

  lemma BodyAfterCreate<E>(leases: map<nat, Lease<E>>, entries: map<E, Entry>, down: set<nat>, e: E, x: Entry)
    requires BodyInv(leases, entries, down) && e !in entries && EntryOk(x) && x.refs == 0
    ensures BodyInv(leases, entries[e := x], down + Gone(x))
  {
    GoneAfterUpdate(entries, e, x);
    assert Outstanding(leases, e) == {};
  }

  lemma BodyAfterAll<E>(leases: map<nat, Lease<E>>, entries: map<E, Entry>, down: set<nat>, after: map<E, Entry>)
    requires BodyInv(leases, entries, down) && after.Keys == entries.Keys
    requires forall e :: e in entries ==>
               Follows(entries[e], after[e]) && after[e].refs == entries[e].refs && Gone(after[e]) == Gone(entries[e])
    ensures BodyInv(leases, after, down)
  {
    assert AllGone(after) == AllGone(entries);
  }

  /** Retiring starts the cleanups that are due and changes nothing else of an entry. */
  lemma RetireFollows(e: Entry)
    requires EntryOk(e)
    ensures var x := RetireLocked(e); Follows(e, x) && Gone(x) == Gone(e) && x.refs == e.refs
    ensures var x := RetireLocked(e); x.retired && x.cancelled && (x.cleanup.Finished? <==> e.cleanup.Finished?)
  {
  }

  // ---- Where the entries stand ----

  /** The same entries standing at the same places. */
  ghost predicate SamePlaces<E>(entries: map<E, Entry>, after: map<E, Entry>) {
    && after.Keys == entries.Keys
    && forall e :: e in entries ==> SamePlace(entries[e], after[e])
  }

  predicate SamePlace(e: Entry, x: Entry) {
    && x.tenant == e.tenant && x.retired == e.retired
    && (x.cleanup.Finished? <==> e.cleanup.Finished?) && (e.cancelled ==> x.cancelled)
  }

  lemma PlacesKept<E>(s: Registry<E>, t: Registry<E>)
    requires CacheInv(s) && PlaceInv(s) && StopInv(s)
    requires SamePlaces(s.entries, t.entries)
    requires t.cache == s.cache && t.all == s.all && t.closed == s.closed && t.stopped == s.stopped
    requires t.forgotten == s.forgotten && t.capacity == s.capacity
    ensures CacheInv(t) && PlaceInv(t) && StopInv(t)
  {
    forall e | e in t.entries ensures Placed(t, e) {
      assert Placed(s, e);
    }
  }

  lemma AdvancedKeepsInv<E>(s: Registry<E>, e: E, x: Entry)
    requires Inv(s) && e in s.entries && Follows(s.entries[e], x) && SamePlace(s.entries[e], x)
    requires x.refs == s.entries[e].refs
    ensures Inv(Advanced(s, e, x))
  {
    BodyAfterAdvance(s.leases, s.entries, s.down, e, x);
    PlacesKept(s, Advanced(s, e, x));
  }

  ghost predicate OneEntryStep<E>(step: Step<E>) {
    step.FactoryReturns? || step.Expire? || step.CheckContext? || step.Vet? || step.Record? || step.ShutEnforcer?
  }

  lemma AdvanceFollows<E>(s: Registry<E>, step: Step<E>)
    requires Inv(s) && Enabled(s, step) && OneEntryStep(step)
    ensures var x := Advance(s.entries[step.entry], step);
      Follows(s.entries[step.entry], x) && SamePlace(s.entries[step.entry], x) && x.refs == s.entries[step.entry].refs
  {
    assert EntryOk(s.entries[step.entry]);
  }

  lemma HandOutKeepsInv<E>(s: Registry<E>, l: nat)
    requires Inv(s) && Enabled(s, HandOut(l))
    ensures Inv(Do(s, HandOut(l)))
  {
    BodyAfterHandOut(s.leases, s.entries, s.down, l);
    PlacesKept(s, Do(s, HandOut(l)));
  }

  lemma UnrefKeepsInv<E>(s: Registry<E>, l: nat, now: int)
    requires Inv(s) && l in s.leases && !s.leases[l].phase.Released?
    ensures Inv(Unref(s, l, now))
  {
    var e := s.leases[l].entry;
    LeasedHaveRefs(s.leases, s.entries, l);
    assert EntryOk(s.entries[e]);
    OneRefLess(s.entries[e], now);
    BodyAfterRelease(s.leases, s.entries, s.down, l, LessOne(s.entries[e], now));
    UnrefKeepsPlaces(s, l, now);
  }

  function LessOne(e: Entry, now: int): Entry {
    FinishLocked(e.(refs := e.refs - 1, lastUsed := now))
  }

  lemma OneRefLess(e: Entry, now: int)
    requires EntryOk(e) && e.refs > 0
    ensures var x := LessOne(e, now);
      Follows(e, x) && Gone(e) == Gone(x) && x.refs == e.refs - 1
  {
  }

  lemma UnrefKeepsPlaces<E>(s: Registry<E>, l: nat, now: int)
    requires CacheInv(s) && PlaceInv(s) && StopInv(s) && l in s.leases && s.leases[l].entry in s.entries
    ensures var t := Unref(s, l, now); CacheInv(t) && PlaceInv(t) && StopInv(t)
  {
    assert SamePlace(s.entries[s.leases[l].entry], LessOne(s.entries[s.leases[l].entry], now));
    PlacesKept(s, Unref(s, l, now));
  }

  lemma ReferencedKeepsInv<E>(s: Registry<E>, l: nat, tenant: string, now: int)
    requires Inv(s) && tenant in s.cache && l !in s.leases
    ensures Inv(Referenced(s, l, tenant, now))
  {
    var e := s.cache[tenant];
    assert Cached(s, e) && EntryOk(s.entries[e]) && Placed(s, e);
    var t := Referenced(s, l, tenant, now);
    BodyAfterLease(s.leases, s.entries, s.down, l, e, t.entries[e]);
    PlacesKept(s, t);
  }

  lemma CreatedPlaces<E>(s: Registry<E>, tenant: string, entry: E)
    requires CacheInv(s) && PlaceInv(s) && StopInv(s) && !s.closed && tenant !in s.cache && entry !in s.entries
    ensures PlaceInv(Created(s, tenant, entry)) && StopInv(Created(s, tenant, entry))
  {
    var t := Created(s, tenant, entry);
    forall e | e in t.entries ensures Placed(t, e) {
      assert e != entry ==> Placed(s, e);
    }
  }

  lemma CreatedCache<E>(s: Registry<E>, tenant: string, entry: E)
    requires CacheInv(s) && !s.closed && tenant !in s.cache && entry !in s.entries && !Full(s)
    ensures CacheInv(Created(s, tenant, entry))
  {
    var t := Created(s, tenant, entry);
    forall u | u in t.cache ensures Cached(t, t.cache[u]) && t.entries[t.cache[u]].tenant == u {
      if u != tenant { assert Cached(s, s.cache[u]); }
    }
    OneMoreKey(s.cache, tenant, entry);
  }

  lemma OneMoreKey<T>(m: map<string, T>, key: string, x: T)
    requires key !in m
    ensures |m[key := x]| == |m| + 1
  {
    assert m[key := x].Keys == m.Keys + {key};
  }

  lemma CreatedKeepsInv<E>(s: Registry<E>, tenant: string, entry: E)
    requires Inv(s) && !s.closed && tenant !in s.cache && entry !in s.entries && !Full(s)
    ensures Inv(Created(s, tenant, entry))
  {
    BodyAfterCreate(s.leases, s.entries, s.down, entry, Entry(tenant, Running, 0, 0, false, false, Open));
    CreatedPlaces(s, tenant, entry);
    CreatedCache(s, tenant, entry);
  }

  lemma MembersAreCached<E>(s: Registry<E>, tenants: set<string>)
    requires CacheInv(s)
    ensures forall e :: e in Members(s, tenants) <==> Cached(s, e) && s.entries[e].tenant in tenants
  {
    forall e | e in Members(s, tenants) ensures Cached(s, e) && s.entries[e].tenant in tenants {
      var t :| t in tenants && t in s.cache && s.cache[t] == e;
      assert Cached(s, s.cache[t]);
    }
  }

  lemma RetireAllKeepsBody<E>(leases: map<nat, Lease<E>>, entries: map<E, Entry>, down: set<nat>, gone: set<E>)
    requires BodyInv(leases, entries, down)
    ensures BodyInv(leases, RetireAll(entries, gone), down)
    ensures forall e :: e in entries ==> Retires(entries[e], RetireAll(entries, gone)[e], e in gone)
  {
    RetireAllFollows(entries, gone);
    BodyAfterAll(leases, entries, down, RetireAll(entries, gone));
  }

  lemma RetireAllFollows<E>(entries: map<E, Entry>, gone: set<E>)
    requires EntriesOk(entries)
    ensures forall e :: e in entries ==>
              var x := RetireAll(entries, gone)[e];
              && Follows(entries[e], x) && x.refs == entries[e].refs && Gone(x) == Gone(entries[e])
              && Retires(entries[e], x, e in gone)
  {
    forall e | e in entries
      ensures var x := RetireAll(entries, gone)[e];
        && Follows(entries[e], x) && x.refs == entries[e].refs && Gone(x) == Gone(entries[e])
        && Retires(entries[e], x, e in gone)
    {
      assert EntryOk(entries[e]);
      RetireFollows(entries[e]);
    }
  }

  predicate Retires(e: Entry, x: Entry, retiring: bool) {
    && x.tenant == e.tenant && x.retired == (e.retired || retiring)
    && (x.cleanup.Finished? <==> e.cleanup.Finished?) && (e.cancelled ==> x.cancelled)
  }

  lemma EvictedKeepsInv<E>(s: Registry<E>, tenants: set<string>)
    requires Inv(s)
    ensures Inv(Evicted(s, tenants)) && Evicted(s, tenants).cache.Keys == s.cache.Keys - tenants
  {
    var t := Evicted(s, tenants);
    MembersAreCached(s, tenants);
    RetireAllKeepsBody(s.leases, s.entries, s.down, Members(s, tenants));
    forall e | e in t.entries ensures Placed(t, e) {
      assert Placed(s, e) && Retires(s.entries[e], t.entries[e], e in Members(s, tenants));
    }
    EvictedCache(s, tenants);
  }

  lemma EvictedCache<E>(s: Registry<E>, tenants: set<string>)
    requires Inv(s)
    ensures CacheInv(Evicted(s, tenants)) && Evicted(s, tenants).cache.Keys == s.cache.Keys - tenants
  {
    var t := Evicted(s, tenants);
    RetireAllKeepsBody(s.leases, s.entries, s.down, Members(s, tenants));
    forall u | u in t.cache ensures Cached(t, t.cache[u]) && t.entries[t.cache[u]].tenant == u {
      assert Cached(s, s.cache[u]);
      assert Retires(s.entries[s.cache[u]], t.entries[s.cache[u]], s.cache[u] in Members(s, tenants));
    }
    assert t.cache.Keys == s.cache.Keys - tenants;
  }

  lemma EvictionMakesRoom<E>(s: Registry<E>, tenant: string)
    requires CacheInv(s) && tenant in s.cache
    requires Evicted(s, {tenant}).cache.Keys == s.cache.Keys - {tenant}
    ensures !Full(Evicted(s, {tenant}))
  {
    var rest := Evicted(s, {tenant}).cache;
    assert s.cache.Keys == rest.Keys + {tenant};
    assert |rest| == |rest.Keys| && |s.cache| == |s.cache.Keys|;
  }

  lemma RoomKeepsInv<E>(s: Registry<E>, victim: Option<string>)
    requires Inv(s) && (if Full(s) then victim.Some? && victim.value in s.cache else victim.None?)
    ensures var t := MakeRoom(s, victim);
      && Inv(t) && !Full(t) && t.closed == s.closed && t.leases == s.leases
      && t.entries.Keys == s.entries.Keys && t.cache.Keys <= s.cache.Keys
  {
    if victim.Some? {
      EvictedKeepsInv(s, {victim.value});
      EvictionMakesRoom(s, victim.value);
    }
  }

  lemma AcquireKeepsInv<E>(s: Registry<E>, step: Step<E>)
    requires Inv(s) && step.Acquire? && Enabled(s, step)
    ensures Inv(Do(s, step))
  {
    if step.tenant in s.cache {
      ReferencedKeepsInv(s, step.lease, step.tenant, step.now);
    } else {
      var room := MakeRoom(s, step.victim);
      RoomKeepsInv(s, step.victim);
      CreatedKeepsInv(room, step.tenant, step.entry);
      ReferencedKeepsInv(Created(room, step.tenant, step.entry), step.lease, step.tenant, step.now);
    }
  }

  lemma FinishKeepsBody<E>(s: Registry<E>, e: E)
    requires Inv(s) && Enabled(s, FinishEntry(e))
    ensures var t := Do(s, FinishEntry(e)); BodyInv(t.leases, t.entries, t.down)
  {
    var x := s.entries[e].(cleanup := Finished);
    assert EntryOk(s.entries[e]);
    BodyAfterAdvance(s.leases, s.entries, s.down, e, x);
    GoneUnchanged(s.entries, e, x);
  }

  lemma FinishKeepsCache<E>(s: Registry<E>, e: E)
    requires Inv(s) && Enabled(s, FinishEntry(e))
    ensures CacheInv(Do(s, FinishEntry(e)))
  {
    var t := Do(s, FinishEntry(e));
    assert EntryOk(s.entries[e]);
    forall u | u in t.cache ensures Cached(t, t.cache[u]) && t.entries[t.cache[u]].tenant == u {
      assert Cached(s, s.cache[u]);
    }
  }

  lemma FinishKeepsPlaces<E>(s: Registry<E>, e: E)
    requires Inv(s) && Enabled(s, FinishEntry(e))
    ensures PlaceInv(Do(s, FinishEntry(e)))
  {
    var t := Do(s, FinishEntry(e));
    forall f | f in t.entries ensures Placed(t, f) {
      assert Placed(s, f) && EntryOk(s.entries[f]);
    }
  }

  lemma FinishKeepsInv<E>(s: Registry<E>, e: E)
    requires Inv(s) && Enabled(s, FinishEntry(e))
    ensures Inv(Do(s, FinishEntry(e)))
  {
    assert Placed(s, e);
    FinishKeepsBody(s, e);
    FinishKeepsCache(s, e);
    FinishKeepsPlaces(s, e);
  }

  lemma ClearKeepsInv<E>(s: Registry<E>)
    requires Inv(s)
    ensures Inv(Do(s, Clear))
  {
    var t := Do(s, Clear);
    MembersAreCached(s, s.cache.Keys);
    forall e | e in t.entries ensures Placed(t, e) {
      assert Placed(s, e);
    }
    if t.closed { assert Members(s, s.cache.Keys) == {}; }
  }

  lemma ShutdownKeepsBody<E>(s: Registry<E>)
    requires Inv(s)
    ensures BodyInv(s.leases, RetireAll(CancelAll(s.entries), s.all), s.down)
    ensures forall e :: e in s.entries ==>
              && RetireAll(CancelAll(s.entries), s.all)[e].cancelled
              && Retires(s.entries[e], RetireAll(CancelAll(s.entries), s.all)[e], e in s.all)
  {
    BodyAfterAll(s.leases, s.entries, s.down, CancelAll(s.entries));
    RetireAllKeepsBody(s.leases, CancelAll(s.entries), s.down, s.all);
    forall e | e in s.entries ensures Retires(s.entries[e], RetireAll(CancelAll(s.entries), s.all)[e], e in s.all) {
      assert Retires(CancelAll(s.entries)[e], RetireAll(CancelAll(s.entries), s.all)[e], e in s.all);
    }
  }

  lemma ShutdownKeepsInv<E>(s: Registry<E>)
    requires Inv(s)
    ensures Inv(Do(s, Shutdown))
  {
    ShutdownKeepsBody(s);
    ClosedPlaces(s, SignalStopped(s.(closed := true, cache := map[], entries := RetireAll(CancelAll(s.entries), s.all))));
  }

  lemma ClosedPlaces<E>(s: Registry<E>, t: Registry<E>)
    requires CacheInv(s) && PlaceInv(s) && EntriesOk(s.entries) && t.entries.Keys == s.entries.Keys
    requires t.closed && t.cache == map[] && t.all == s.all && t.forgotten == s.forgotten
    requires (t.stopped <==> t.all == {})
    requires forall e :: e in s.entries ==> t.entries[e].cancelled && Retires(s.entries[e], t.entries[e], e in s.all)
    ensures CacheInv(t) && PlaceInv(t) && StopInv(t)
  {
    forall e | e in t.entries ensures Placed(t, e) {
      assert Placed(s, e) && EntryOk(s.entries[e]) && Retires(s.entries[e], t.entries[e], e in s.all);
    }
  }

  ghost predicate LeaseStep<E>(step: Step<E>) {
    step.Acquire? || step.HandOut? || step.GiveUp? || step.Release?
  }

  ghost predicate EvictStep<E>(step: Step<E>) {
    step.Evict? || step.ClearAndClose? || step.PruneIdle?
  }

  lemma LeaseStepKeepsInv<E>(s: Registry<E>, step: Step<E>)
    requires Inv(s) && LeaseStep(step) && Enabled(s, step)
    ensures Inv(Do(s, step))
  {
    match step
    case Acquire(_, _, _, _, _) => AcquireKeepsInv(s, step);
    case HandOut(l) => HandOutKeepsInv(s, l);
    case GiveUp(l, now) => UnrefKeepsInv(s, l, now);
    case Release(l, now) => if !s.leases[l].phase.Released? { UnrefKeepsInv(s, l, now); }
  }

  lemma EvictStepKeepsInv<E>(s: Registry<E>, step: Step<E>)
    requires Inv(s) && EvictStep(step) && Enabled(s, step)
    ensures Inv(Do(s, step))
  {
    match step
    case Evict(tenant) => EvictedKeepsInv(s, {tenant});
    case ClearAndClose => EvictedKeepsInv(s, s.cache.Keys);
    case PruneIdle(now) => EvictedKeepsInv(s, IdleTenants(s, now));
  }

  lemma AdvanceKeepsInv<E>(s: Registry<E>, step: Step<E>)
    requires Inv(s) && OneEntryStep(step) && Enabled(s, step)
    ensures Inv(Do(s, step))
  {
    AdvanceFollows(s, step);
    AdvancedKeepsInv(s, step.entry, Advance(s.entries[step.entry], step));
  }

  lemma StepKeepsInv<E>(s: Registry<E>, step: Step<E>)
    requires Inv(s) && Enabled(s, step)
    ensures Inv(Do(s, step))
  {
    if LeaseStep(step) {
      LeaseStepKeepsInv(s, step);
    } else if EvictStep(step) {
      EvictStepKeepsInv(s, step);
    } else if OneEntryStep(step) {
      AdvanceKeepsInv(s, step);
    } else {
      match step
      case FinishEntry(e) => FinishKeepsInv(s, e);
      case Clear => ClearKeepsInv(s);
      case Shutdown => ShutdownKeepsInv(s);
    }
  }

  // ---- Runs ----

  ghost predicate Legal<E>(s: Registry<E>, steps: seq<Step<E>>)
    decreases |steps|
  {
    steps == [] || (Enabled(s, steps[0]) && Legal(Do(s, steps[0]), steps[1..]))
  }

  ghost function After<E>(s: Registry<E>, steps: seq<Step<E>>): Registry<E>
    requires Legal(s, steps)
    decreases |steps|
  {
    if steps == [] then s else After(Do(s, steps[0]), steps[1..])
  }

  lemma {:induction false} RunKeepsInv<E>(s: Registry<E>, steps: seq<Step<E>>)
    requires Inv(s) && Legal(s, steps)
    ensures Inv(After(s, steps))
    decreases |steps|
  {
    if steps != [] {
      StepKeepsInv(s, steps[0]);
      RunKeepsInv(Do(s, steps[0]), steps[1..]);
    }
  }

  lemma {:induction false} OneMore<E>(s: Registry<E>, steps: seq<Step<E>>, step: Step<E>)
    requires Legal(s, steps) && Enabled(After(s, steps), step)
    ensures Legal(s, steps + [step]) && After(s, steps + [step]) == Do(After(s, steps), step)
    decreases |steps|
  {
    if steps == [] {
      assert [step][1..] == [];
    } else {
      OneMore(Do(s, steps[0]), steps[1..], step);
      assert (steps + [step])[1..] == steps[1..] + [step];
    }
  }
}
