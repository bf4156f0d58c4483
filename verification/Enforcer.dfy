/**
 An Enforcer over the in-memory store and cache, as the object it is. Its methods run one at a
 time here; what happens when their steps interleave is the subject of `LookupCache`.
 */
module Enforcer {
  import opened Basics
  import opened Rules
  import opened Policy
  import opened RoleClosure
  import opened Tenant
  import opened C = MemoryContents
  import opened LruCache
  import opened MemoryStore
  import opened Invalidation
  import opened Decision

  type Perms = set<Permission>

  type Entries = seq<L.Entry<string, Perms>>

  /** Every cached set of the tenant's users is the effective set of the store. */
  ghost predicate Coherent(p: Policy, tenant: string, entries: Entries) {
    forall e, user :: e in entries && e.key == CacheKey(tenant, user) ==> e.value == Effective(p, Key(tenant, user))
  }

  lemma {:induction false} KeptAreOld(entries: Entries, keys: set<string>)
    ensures forall e :: e in L.Keep(entries, keys) ==> e in entries && e.key in keys
  {
    if entries != [] {
      KeptAreOld(entries[1..], keys);
    }
  }

  lemma GetKeepsCoherent(p: Policy, tenant: string, c: L.Cache<string, Perms>, key: string, now: int)
    requires Coherent(p, tenant, c.entries)
    ensures Coherent(p, tenant, L.Get(c, key, now).1.entries)
    ensures L.Get(c, key, now).0.Some? ==> exists e :: e in c.entries && e.key == key && e.value == L.Get(c, key, now).0.value
  {
    KeptAreOld(c.entries, L.Keys(c.entries) - {key});
    if L.Find(c.entries, key).Some? {
      assert L.Find(c.entries, key).value in c.entries;
    }
  }

  lemma PutKeepsCoherent(p: Policy, tenant: string, c: L.Cache<string, Perms>, user: string, now: int)
    requires Coherent(p, tenant, c.entries)
    ensures Coherent(p, tenant, L.Put(c, CacheKey(tenant, user), Effective(p, Key(tenant, user)), now).entries)
  {
    var key := CacheKey(tenant, user);
    KeptAreOld(c.entries, L.Keys(c.entries) - {key});
    forall other | CacheKey(tenant, other) == key ensures other == user {
      OneUserPerKey(tenant, other, user);
    }
  }

  lemma OneUserPerKey(tenant: string, a: string, b: string)
    requires CacheKey(tenant, a) == CacheKey(tenant, b)
    ensures a == b
  {
    SameKey(tenant, "user:" + a, "user:" + b);
    assert a == ("user:" + a)[5..] && b == ("user:" + b)[5..];
  }

  /** The event a mutation publishes to the other instances, if any. */
  function EventOf(tenant: string, op: Op): Option<Event> {
    match ScopeOf(op)
    case Nobody => None
    case Everyone => Some(Event.Flush)
    case Only(user) => Some(Drop(CacheKey(tenant, user)))
  }

  /** The events, operation by operation: a user's key for the user's own roles, a flush for everybody's. */
  lemma EventsByOperation(tenant: string, op: Op)
    ensures op.AddRole? || op.UpdateRole? || op.DeleteRole? || op.SetRules? ==> EventOf(tenant, op) == Some(Event.Flush)
    ensures op.AssignRole? || op.UnassignRole? ==> EventOf(tenant, op) == Some(Drop(tenant + "::user:" + op.user))
    ensures op.SetMetadata? ==> EventOf(tenant, op) == None
  {
    if op.AssignRole? || op.UnassignRole? {
      assert tenant + "::" + ("user:" + op.user) == tenant + "::user:" + op.user;
    }
  }

  /** What applying the event leaves of a cache. */
  ghost function Applied(entries: Entries, ev: Option<Event>): Entries {
    match ev
    case None => entries
    case Some(Flush) => []
    case Some(Drop(key)) => if key == "" then entries else L.Without(entries, key)
  }

  /**
   What a mutation's event leaves in a cache is right for the changed store: in the cache of
   the tenant's own Enforcers and in that of any tenant whose keys are apart from its keys.
   */
  lemma MutationKeepsCoherent(p: Policy, op: Op, tenant: string, other: string, entries: Entries)
    requires Coherent(p, other, entries) && Apply(p, ScopeOp(tenant, op)).Ok?
    requires other == tenant || Apart({tenant, other})
    ensures Coherent(Apply(p, ScopeOp(tenant, op)).value, other, Applied(entries, EventOf(tenant, op)))
  {
    var scoped, left := ScopeOp(tenant, op), Applied(entries, EventOf(tenant, op));
    if ScopeOf(op).Only? { KeptAreOld(entries, L.Keys(entries) - {CacheKey(tenant, ScopeOf(op).user)}); }
    forall e, user | e in left && e.key == CacheKey(other, user)
      ensures e.value == Effective(Apply(p, scoped).value, Key(other, user))
    {
      if ScopeOf(op).Only? { SameUserSameCacheKey(tenant, ScopeOf(op).user, other, user); }
      ScopeIsWideEnough(p, scoped, Key(other, user));
    }
  }

  lemma SameUserSameCacheKey(tenant: string, user: string, other: string, another: string)
    requires other == tenant || Apart({tenant, other})
    ensures Key(tenant, user) == Key(other, another) ==> CacheKey(tenant, user) == CacheKey(other, another)
  {
    if Key(tenant, user) == Key(other, another) {
      if other != tenant {
        ApartKeys({tenant, other}, tenant, other, Key(tenant, user));
      }
      SameKey(tenant, user, another);
    }
  }

  class Enforcer {
    const tenant: string
    const store: MemoryStore
    const cache: MemoryLru<string, Perms>
    const wildcards: bool
    const rulesEnabled: bool
    const management: Permission
    var cacheGeneration: nat

    ghost function Policy(): Policy
      reads store
    {
      C.View(store.Holding())
    }

    ghost predicate Valid()
      reads this, store, cache, cache.order
    {
      cache.Valid() && C.Sound(store.Holding()) && Coherent(Policy(), tenant, cache.View().entries)
    }

    constructor (tenant: string, store: MemoryStore, capacity: nat, ttl: int,
                 wildcards: bool, rulesEnabled: bool, management: Permission)
      requires capacity > 0 && C.Sound(store.Holding())
      ensures Valid() && this.tenant == tenant && this.store == store && cacheGeneration == 0
      ensures this.wildcards == wildcards && this.rulesEnabled == rulesEnabled && this.management == management
      ensures fresh(cache) && cache.View() == L.Cache(capacity, ttl, [], 0)
    {
      this.tenant, this.store, cacheGeneration := tenant, store, 0;
      this.wildcards, this.rulesEnabled, this.management := wildcards, rulesEnabled, management;
      cache := new MemoryLru(capacity, ttl);
    }

    method FlushCache()
      requires cache.Valid()
      modifies this, cache
      ensures cacheGeneration == old(cacheGeneration) + 1
      ensures cache.Valid() && cache.View() == L.Flush(old(cache.View()))
    {
      cacheGeneration := cacheGeneration + 1;
      cache.Flush();
    }

    method DropCacheKey(key: string)
      requires cache.Valid()
      modifies this, cache
      ensures cacheGeneration == old(cacheGeneration) + 1
      ensures cache.Valid() && cache.View() == L.Delete(old(cache.View()), key)
    {
      cacheGeneration := cacheGeneration + 1;
      cache.Delete(key);
    }

    /** An event from another instance. */
    method ApplyInvalidation(ev: Event)
      requires cache.Valid()
      modifies this, cache
      ensures cache.Valid() && cache.View().entries == Applied(old(cache.View().entries), Some(ev))
      ensures cache.View().generation == old(cache.View().generation) + if ev == Drop("") then 0 else 1
      ensures cacheGeneration == old(cacheGeneration) + if ev == Drop("") then 0 else 1
    {
      match ev {
        case Flush => FlushCache();
        case Drop(key) =>
          if key != "" {
            DropCacheKey(key);
          }
      }
    }

    /**
     The effective set of a user, from the cache or computed and filled in. Used one call at a
     time it is always that of the store.
     */
    method PermissionsFor(user: string, now: int) returns (r: Result<Perms>)
      requires Valid()
      modifies cache, cache.order
      ensures Valid() && r == Ok(Effective(Policy(), Key(tenant, user)))
      ensures forall x :: x in cache.order ==> x in old(cache.order) || fresh(x)
      ensures var (hit, got) := L.Get(old(cache.View()), CacheKey(tenant, user), now);
        cache.View() == if hit.Some? then got else L.Put(got, CacheKey(tenant, user), r.value, now)
    {
      var generation := cacheGeneration;
      var hit := Cached(user, now);
      r := Answered(user, hit, generation, now);
    }

    /** A hit is the answer; a miss is computed and filled in under the tokens taken before reading. */
    method Answered(user: string, hit: Option<Perms>, generation: nat, now: int) returns (r: Result<Perms>)
      requires Valid() && generation == cacheGeneration
      requires hit.Some? ==> hit.value == Effective(Policy(), Key(tenant, user))
      modifies cache, cache.order
      ensures Valid() && r == Ok(Effective(Policy(), Key(tenant, user)))
      ensures forall x :: x in cache.order ==> x in old(cache.order) || fresh(x)
      ensures cache.View() ==
        if hit.Some? then old(cache.View()) else L.Put(old(cache.View()), CacheKey(tenant, user), r.value, now)
    {
      if hit.Some? {
        r := Ok(hit.value);
      } else {
        var token := cache.Generation();
        r := Missed(user, generation, token, now);
      }
    }

    /** After a miss: computed from the store and filled in. */
    method Missed(user: string, generation: nat, token: nat, now: int) returns (r: Result<Perms>)
      requires Valid()
      modifies cache, cache.order
      ensures Valid() && r == Ok(Effective(Policy(), Key(tenant, user)))
      ensures forall x :: x in cache.order ==> x in old(cache.order) || fresh(x)
      ensures cache.View() == if generation == cacheGeneration
        then L.PutIfGeneration(old(cache.View()), CacheKey(tenant, user), r.value, token, now) else old(cache.View())
    {
      var failed, perm := Computed(user);
      if failed {
        return Err(CycleDetected);
      }
      Fill(user, perm, generation, token, now);
      r := Ok(perm);
    }

    /** The cached set, which is the effective set of the store. */
    method Cached(user: string, now: int) returns (hit: Option<Perms>)
      requires Valid()
      modifies cache`order, cache`items
      ensures Valid() && (hit.Some? ==> hit.value == Effective(Policy(), Key(tenant, user)))
      ensures forall x :: x in cache.order ==> x in old(cache.order)
      ensures (hit, cache.View()) == L.Get(old(cache.View()), CacheKey(tenant, user), now)
    {
      GetKeepsCoherent(Policy(), tenant, cache.View(), CacheKey(tenant, user), now);
      hit := cache.Get(CacheKey(tenant, user), now);
    }

    /** The effective set computed from the store. */
    method Computed(user: string) returns (failed: bool, perm: Perms)
      requires C.Sound(store.Holding())
      ensures !failed && perm == Effective(Policy(), Key(tenant, user))
    {
      var direct := if Key(tenant, user) in store.users then store.users[Key(tenant, user)] else [];
      failed, perm := ComputeEffective(store.roles, direct, Policy(), Key(tenant, user));
    }

    /** Fills in a computed set if no invalidation came in between. */
    method Fill(user: string, perm: Perms, generation: nat, token: nat, now: int)
      requires Valid() && perm == Effective(Policy(), Key(tenant, user))
      modifies cache, cache.order
      ensures Valid()
      ensures forall x :: x in cache.order ==> x in old(cache.order) || fresh(x)
      ensures cache.View() == if generation == cacheGeneration
        then L.PutIfGeneration(old(cache.View()), CacheKey(tenant, user), perm, token, now) else old(cache.View())
    {
      if generation == cacheGeneration {
        PutKeepsCoherent(Policy(), tenant, cache.View(), user, now);
        cache.SetIfGeneration(CacheKey(tenant, user), perm, token, now);
      }
    }

    /** What the policy says about a request of one of the tenant's users. */
    ghost predicate Grants(user: string, q: Rules.Request, attrs: Attributes)
      reads this, store
    {
      Allowed(Policy(), Key(tenant, user), rulesEnabled, q, Facts(attrs, user, tenant))
    }

    /** The decision through the cache: what the policy says, and never a failure. */
    method Enforce(user: string, resource: string, action: string, attrs: Attributes, now: int) returns (allowed: bool)
      requires Valid()
      modifies cache, cache.order
      ensures Valid() && allowed == Grants(user, Rules.Request(wildcards, resource, action), attrs)
      ensures forall x :: x in cache.order ==> x in old(cache.order) || fresh(x)
    {
      var perms := PermissionsFor(user, now);
      allowed := Judged(user, perms.value, Rules.Request(wildcards, resource, action), attrs);
    }

    /** The base grant, and where rules are enabled what the rules of the user's roles make of it. */
    method Judged(user: string, perms: Perms, q: Rules.Request, attrs: Attributes) returns (allowed: bool)
      requires C.Sound(store.Holding()) && perms == Effective(Policy(), Key(tenant, user))
      ensures allowed == Grants(user, q, attrs)
    {
      allowed := MatchPermission(perms, q.wildcards, q.resource, q.action);
      if rulesEnabled {
        var direct := if Key(tenant, user) in store.users then store.users[Key(tenant, user)] else [];
        var d := EvaluateHeld(store.roles, direct, store.rules, allowed, q, Facts(attrs, user, tenant), Policy(), Key(tenant, user));
        allowed := d.allowed;
      }
    }

    /**
     A mutation on behalf of a caller, who must be allowed to manage roles; rules can be changed
     only where they are enabled.
     */
    method MutateAs(actor: string, op: Op, attrs: Attributes, now: int) returns (r: Result<()>, published: Option<Event>)
      requires Valid()
      modifies this, store, cache, cache.order
      ensures Valid()
      ensures
        var capability := Rules.Request(wildcards, management.resource, management.action);
        match Tenant.Answer(old(Policy()), Call(tenant, As(actor, rulesEnabled, capability, attrs), false, [op]))
        case Ok(p) => r == Ok(()) && Policy() == p
        case Err(e) => r == Err(e) && Policy() == old(Policy())
      ensures published == if r.Ok? then EventOf(tenant, op) else None
      ensures !old(Grants(actor, Rules.Request(wildcards, management.resource, management.action), attrs)) ==>
        r.Err? && Policy() == old(Policy()) && published == None
      ensures r == Err(PermissionDenied) ==>
        !old(Grants(actor, Rules.Request(wildcards, management.resource, management.action), attrs))
    {
      ghost var capability := Rules.Request(wildcards, management.resource, management.action);
      AnswerNeedsCapability(Policy(), Call(tenant, As(actor, rulesEnabled, capability, attrs), false, [op]));
      assert Key(tenant, actor) == tenant + "::" + actor;
      if op.SetRules? && !rulesEnabled {
        return Err(RulesDisabled), None;
      }
      var allowed := Enforce(actor, management.resource, management.action, attrs, now);
      if !allowed {
        return Err(PermissionDenied), None;
      }
      r, published := Mutate(op);
    }

    /** A mutation: refused, or the store first and what it makes stale afterwards. */
    method Mutate(op: Op) returns (r: Result<()>, published: Option<Event>)
      requires Valid()
      modifies this, store, cache
      ensures Valid()
      ensures match Tenant.Request(old(Policy()), tenant, [op])
        case Ok(q) => r == Ok(()) && Policy() == q
        case Err(e) => r == Err(e) && Policy() == old(Policy())
      ensures published == if r.Ok? then EventOf(tenant, op) else None
    {
      published := None;
      if Refuses(op) {
        return Err(InvalidRole), None;
      }
      ghost var p, before := Policy(), cache.View().entries;
      MemoryRefines(store.Holding(), ScopeOp(tenant, op));
      RequestOfOne(p, tenant, op);
      r := store.Do(ScopeOp(tenant, op));
      if r.Err? {
        return;
      }
      MutationKeepsCoherent(p, op, tenant, tenant, before);
      published := EventOf(tenant, op);
      Invalidate(op);
    }

    /** Flushes or drops what the mutation makes stale here. */
    method Invalidate(op: Op)
      requires cache.Valid()
      modifies this, cache
      ensures cache.Valid() && cache.View().entries == Applied(old(cache.View().entries), EventOf(tenant, op))
    {
      match ScopeOf(op) {
        case Everyone => FlushCache();
        case Only(user) => DropCacheKey(CacheKey(tenant, user));
        case Nobody =>
      }
    }
  }

  /** An Enforcer asks about its tenant's user, whom the facts name, with the attributes supplied. */
  lemma GrantsIsAllowed(e: Enforcer, user: string, q: Rules.Request, attrs: Attributes)
    ensures e.Grants(user, q, attrs) <==> Allowed(e.Policy(), e.tenant + "::" + user, e.rulesEnabled, q,
      attrs["subject.id" := Other("\"" + user + "\"")]["tenant.id" := Other("\"" + e.tenant + "\"")])
  {
  }
}
