/**
 Tenants on one shared store. An Enforcer prefixes every role and user name with its tenant;
 for tenants that are apart, each finds the store as if nobody else used it.
 */
module Tenant {
  import opened Basics
  import opened ParentGraph
  import opened Policy
  import opened Rules
  import D = Decision

  // ---- Keys ----

  const SEPARATOR := "::"

  predicate HasSeparator(t: string) {
    exists i {:trigger t[i]} :: 0 <= i < |t| - 1 && t[i] == ':' && t[i + 1] == ':'
  }

  function Key(tenant: string, name: string): string {
    tenant + SEPARATOR + name
  }

  /** The cache and event key of a user. */
  function CacheKey(tenant: string, user: string): string {
    Key(tenant, "user:" + user)
  }

  predicate InTenant(key: string, tenant: string) {
    tenant + SEPARATOR <= key
  }

  /** One of the two is the other with a colon appended. */
  predicate Siblings(a: string, b: string) {
    a == b + ":" || b == a + ":"
  }

  function Strip(key: string, tenant: string): string
    requires InTenant(key, tenant)
  {
    key[|tenant| + 2..]
  }

  lemma KeyOfStrip(key: string, tenant: string)
    ensures InTenant(key, tenant) ==> Key(tenant, Strip(key, tenant)) == key
    ensures forall name :: InTenant(Key(tenant, name), tenant) && Strip(Key(tenant, name), tenant) == name
  {
  }

  lemma LongerHasSeparator(a: string, b: string, key: string)
    requires |a| + 1 < |b| && InTenant(key, a) && InTenant(key, b)
    ensures HasSeparator(b)
  {
    assert key[|a|] == (a + SEPARATOR)[|a|] && key[|a| + 1] == (a + SEPARATOR)[|a| + 1];
    assert b[|a|] == (b + SEPARATOR)[|a|] && b[|a| + 1] == (b + SEPARATOR)[|a| + 1];
  }

  lemma SharedKeyShorter(a: string, b: string, key: string)
    requires !HasSeparator(b) && |a| < |b| && InTenant(key, a) && InTenant(key, b)
    ensures b == a + ":"
  {
    assert key[|a|] == (a + SEPARATOR)[|a|];
    assert forall i :: 0 <= i < |b| ==> b[i] == (b + SEPARATOR)[i] == key[i];
    assert forall i :: 0 <= i < |a| ==> a[i] == (a + SEPARATOR)[i] == key[i];
    if |a| + 1 < |b| {
      LongerHasSeparator(a, b, key);
    }
  }

  /** Two tenants share a key exactly if they are equal or siblings. */
  lemma KeysMeetIffSiblings(a: string, b: string)
    requires !HasSeparator(a) && !HasSeparator(b)
    ensures (exists key :: InTenant(key, a) && InTenant(key, b)) <==> a == b || Siblings(a, b)
  {
    if key :| InTenant(key, a) && InTenant(key, b) {
      if |a| < |b| {
        SharedKeyShorter(a, b, key);
      } else if |b| < |a| {
        SharedKeyShorter(b, a, key);
      } else {
        assert a == key[..|a|] == b;
      }
    }
    if a == b {
      assert InTenant(Key(a, ""), a);
    }
    if a == b + ":" {
      assert InTenant(a + SEPARATOR, a) && a + SEPARATOR == b + SEPARATOR + ":" && InTenant(b + SEPARATOR + ":", b);
    }
    if b == a + ":" {
      assert InTenant(b + SEPARATOR, b) && b + SEPARATOR == a + SEPARATOR + ":" && InTenant(a + SEPARATOR + ":", a);
    }
  }

  /** The trimmed tenant names an Enforcer can be made for. */
  predicate Accepted(t: string) {
    !Blank(t) && !IsSpace(t[0]) && !IsSpace(t[|t| - 1]) && !HasSeparator(t)
  }

  /** A tenant that ends in a colon is accepted, and its role `x` is another tenant's role `:x`. */
  lemma TrailingColonCollides()
    ensures Accepted("a:") && Accepted("a") && Key("a:", "x") == Key("a", ":x")
  {
    assert "a:"[0] == 'a' && !IsSpace("a:"[0]) && !IsSpace("a"[0]);
  }

  /** Tenants whose keys never meet: none holds the separator and no two are siblings. */
  ghost predicate Apart(tenants: set<string>) {
    && (forall t :: t in tenants ==> !HasSeparator(t))
    && (forall a, b :: a in tenants && b in tenants ==> !Siblings(a, b))
  }

  lemma ApartKeys(tenants: set<string>, a: string, b: string, key: string)
    requires Apart(tenants) && a in tenants && b in tenants
    requires InTenant(key, a) && InTenant(key, b)
    ensures a == b
  {
    KeysMeetIffSiblings(a, b);
  }

  /** Tenants that do not end in a colon are always apart. */
  lemma NoTrailingColonApart(tenants: set<string>)
    requires forall t :: t in tenants ==> !HasSeparator(t) && (t == "" || t[|t| - 1] != ':')
    ensures Apart(tenants)
  {
  }

  /** The cache key, which invalidation events carry, names one user of one tenant. */
  lemma CacheKeysDistinct(tenants: set<string>, a: string, user: string, b: string, other: string)
    requires Apart(tenants) && a in tenants && b in tenants && CacheKey(a, user) == CacheKey(b, other)
    ensures a == b && user == other
  {
    KeyOfStrip("", a);
    KeyOfStrip("", b);
    ApartKeys(tenants, a, b, CacheKey(a, user));
    assert user == ("user:" + user)[5..] && other == ("user:" + other)[5..];
  }

  // ---- Scoped operations ----

  function ScopeNames(tenant: string, names: seq<string>): seq<string> {
    seq(|names|, i requires 0 <= i < |names| => Key(tenant, names[i]))
  }

  function ScopeRole(tenant: string, role: Role): Role {
    Role(Key(tenant, role.name), role.permissions, ScopeNames(tenant, role.parents))
  }

  function ScopeOp(tenant: string, op: Op): Op {
    match op
    case AddRole(role) => AddRole(ScopeRole(tenant, role))
    case UpdateRole(role) => UpdateRole(ScopeRole(tenant, role))
    case DeleteRole(n) => DeleteRole(Key(tenant, n))
    case AssignRole(u, n) => AssignRole(Key(tenant, u), Key(tenant, n))
    case UnassignRole(u, n) => UnassignRole(Key(tenant, u), Key(tenant, n))
    case SetRules(n, rules) => SetRules(Key(tenant, n), rules)
    case SetMetadata(n, metadata) => SetMetadata(Key(tenant, n), metadata)
  }

  function ScopeAll(tenant: string, ops: seq<Op>): seq<Op> {
    seq(|ops|, i requires 0 <= i < |ops| => ScopeOp(tenant, ops[i]))
  }

  /** The roles an Enforcer refuses before it scopes them. */
  predicate Refuses(op: Op) {
    (op.AddRole? || op.UpdateRole?) && !ValidRole(op.role)
  }

  /** The rules an Enforcer refuses before any operation is carried out. */
  predicate Malformed(op: Op) {
    op.SetRules? && !ValidRules(op.rules)
  }

  /** What an Enforcer of the tenant does with operations it does not refuse to take. */
  ghost function Request(p: Policy, tenant: string, ops: seq<Op>): Result<Policy> {
    if exists op :: op in ops && Refuses(op) then Err(InvalidRole)
    else if exists op :: op in ops && Malformed(op) then Err(InvalidPolicy)
    else RunAll(p, ScopeAll(tenant, ops))
  }

  /** On whose behalf a call is made; only trusted provisioning goes unchecked. */
  datatype Caller = Trusted | As(actor: string, rulesEnabled: bool, management: Rules.Request, attrs: Attributes)

  /** What one tenant asks of the store at once: a batch, or an operation on its own. */
  datatype Call = Call(tenant: string, caller: Caller, batch: bool, ops: seq<Op>)

  /** The caller is trusted, or holds the capability to manage roles. */
  ghost predicate MayManage(p: Policy, tenant: string, caller: Caller) {
    match caller
    case Trusted => true
    case As(actor, rulesEnabled, management, attrs) =>
      D.Allowed(p, Key(tenant, actor), rulesEnabled, management, Facts(attrs, actor, tenant))
  }

  /** The call changes rules through an Enforcer on which they are not enabled. */
  predicate NeedsRules(call: Call) {
    call.caller.As? && !call.caller.rulesEnabled && exists op :: op in call.ops && op.SetRules?
  }

  predicate Flawless(ops: seq<Op>) {
    forall op :: op in ops ==> !Refuses(op) && !Malformed(op)
  }

  /** The outcome of a call: refused for lack of rules or of the capability, or else the request. */
  ghost function Answer(p: Policy, call: Call): Result<Policy> {
    if NeedsRules(call) && !call.batch then Err(RulesDisabled)
    else if !MayManage(p, call.tenant, call.caller) then Err(PermissionDenied)
    else if NeedsRules(call) && Flawless(call.ops) then Err(RulesDisabled)
    else Request(p, call.tenant, call.ops)
  }

  /** Nothing is done for a caller without the capability, and only such a caller is denied. */
  lemma AnswerNeedsCapability(p: Policy, call: Call)
    requires call.caller.As?
    ensures var caller := call.caller;
      var capable := D.Allowed(p, call.tenant + "::" + caller.actor, caller.rulesEnabled, caller.management,
        Facts(caller.attrs, caller.actor, call.tenant));
      && (Answer(p, call).Ok? ==> capable)
      && (Answer(p, call) == Err(PermissionDenied) ==> !capable)
  {
    NeverDenied(p, ScopeAll(call.tenant, call.ops));
  }

  lemma {:induction false} NeverDenied(p: Policy, ops: seq<Op>)
    ensures RunAll(p, ops) != Err(PermissionDenied) && RunAll(p, ops) != Err(RulesDisabled)
    decreases |ops|
  {
    if ops != [] && Apply(p, ops[0]).Ok? {
      NeverDenied(Apply(p, ops[0]).value, ops[1..]);
    }
  }

  /** The caller is checked and lacks the capability in this store. */
  ghost predicate Incapable(p: Policy, call: Call) {
    call.caller.As? && !D.Allowed(p, call.tenant + "::" + call.caller.actor, call.caller.rulesEnabled, call.caller.management,
      Facts(call.caller.attrs, call.caller.actor, call.tenant))
  }

  /** However many calls callers without the capability make, the store stays as it is. */
  lemma {:induction false} IncapableCallersChangeNothing(p: Policy, calls: seq<Call>)
    requires forall c :: c in calls ==> Incapable(p, c)
    ensures ServeAll(p, calls) == p
    decreases |calls|
  {
    if calls != [] {
      assert calls[0] in calls && forall c :: c in calls[1..] ==> c in calls;
      AnswerNeedsCapability(p, calls[0]);
      IncapableCallersChangeNothing(p, calls[1..]);
    }
  }

  lemma RequestOfOne(p: Policy, tenant: string, op: Op)
    requires !Refuses(op)
    ensures Request(p, tenant, [op]) == Apply(p, ScopeOp(tenant, op))
  {
    var ops := [op];
    assert forall o :: o in ops ==> o == op;
    assert ScopeAll(tenant, ops) == [ScopeOp(tenant, op)];
    assert ScopeAll(tenant, ops)[1..] == [];
    if Apply(p, ScopeOp(tenant, op)).Ok? {
      assert RunAll(Apply(p, ScopeOp(tenant, op)).value, []) == Apply(p, ScopeOp(tenant, op));
    }
  }

  // ---- What a tenant has in the store ----

  function Within<T>(m: map<string, T>, tenant: string): map<string, T> {
    map k | k in m && InTenant(k, tenant) :: m[k]
  }

  function Share(p: Policy, tenant: string): Policy {
    Policy(Within(p.roles, tenant), (set a | a in p.assignments && InTenant(a.0, tenant)),
           Within(p.rules, tenant), Within(p.metadata, tenant))
  }

  /** Links and assignments stay inside each tenant. */
  ghost predicate Separate(p: Policy, tenants: set<string>) {
    forall t :: t in tenants ==> Closed(p, t)
  }

  ghost predicate Closed(p: Policy, t: string) {
    && (forall n, m :: n in p.roles && InTenant(n, t) && m in p.roles[n].parents ==> InTenant(m, t))
    && (forall a :: a in p.assignments ==> (InTenant(a.0, t) <==> InTenant(a.1, t)))
  }

  lemma EmptySeparate(tenants: set<string>)
    ensures Separate(EMPTY, tenants)
  {
  }

  // ---- Walks inside a tenant ----

  lemma {:induction false} WalkWithin(p: Policy, t: string, w: seq<string>)
    requires Closed(p, t) && Walk(Parents(p), w) && InTenant(w[0], t)
    ensures InTenant(w[|w| - 1], t) && Reaches(Parents(Share(p, t)), w[0], w[|w| - 1])
    decreases |w|
  {
    if |w| == 1 {
      ReachesSelf(Parents(Share(p, t)), w[0]);
    } else {
      WalkTail(Parents(p), w);
      assert w[1] in p.roles[w[0]].parents;
      WalkWithin(p, t, w[1..]);
      assert Edge(Parents(Share(p, t)), w[0], w[1]);
      ReachesByEdge(Parents(Share(p, t)), w[0], w[1], w[|w| - 1]);
    }
  }

  /** From a tenant's role, the same roles are reached in the whole store and in the tenant's share. */
  lemma ReachesWithin(p: Policy, t: string, a: string, b: string)
    requires Closed(p, t) && InTenant(a, t)
    ensures Reaches(Parents(p), a, b) <==> Reaches(Parents(Share(p, t)), a, b)
    ensures Reaches(Parents(p), a, b) ==> InTenant(b, t)
  {
    if Reaches(Parents(p), a, b) {
      var w :| WalkBetween(Parents(p), w, a, b);
      WalkWithin(p, t, w);
    }
    if Reaches(Parents(Share(p, t)), a, b) {
      SubgraphReaches(Parents(Share(p, t)), Parents(p), a, b);
    }
  }

  lemma CyclesWithin(p: Policy, t: string, n: string)
    requires Closed(p, t) && InTenant(n, t)
    ensures OnCycle(Parents(p), n) <==> OnCycle(Parents(Share(p, t)), n)
  {
    forall b | Edge(Parents(p), n, b) ensures Reaches(Parents(p), b, n) <==> Reaches(Parents(Share(p, t)), b, n) {
      assert b in p.roles[n].parents;
      ReachesWithin(p, t, b, n);
    }
    assert forall b :: Edge(Parents(p), n, b) <==> Edge(Parents(Share(p, t)), n, b);
  }

  /** A tenant's users hold the same roles and permissions in the whole store and in the tenant's share. */
  lemma EffectiveWithin(p: Policy, t: string, user: string)
    requires Closed(p, t)
    ensures SameFor(p, Share(p, t), Key(t, user))
  {
    var u, q := Key(t, user), Share(p, t);
    assert InTenant(u, t);
    forall a | (u, a) in p.assignments ensures InTenant(a, t) {
      assert (u, a).0 == u;
    }
    forall a, n | (u, a) in p.assignments
      ensures (Reaches(Parents(p), a, n) <==> Reaches(Parents(q), a, n)) && (Reaches(Parents(p), a, n) ==> InTenant(n, t))
    {
      ReachesWithin(p, t, a, n);
    }
    assert forall a :: (u, a) in p.assignments <==> (u, a) in q.assignments;
    assert HeldRoles(p, u) == HeldRoles(q, u);
  }

  // ---- One operation ----

  /** The operation ends the same way for the tenant alone, and nobody else's share moves. */
  ghost predicate Commutes(p: Policy, tenants: set<string>, t: string, end: Result<Policy>, alone: Result<Policy>) {
    match end
    case Err(e) => alone == Err(e)
    case Ok(q) =>
      && alone == Ok(Share(q, t)) && Valid(q) && Separate(q, tenants)
      && forall u :: u in tenants && u != t ==> Share(q, u) == Share(p, u)
  }

  /** A store that changed only under one key of the tenant looks the same to the others. */
  lemma ElsewhereUnchanged(p: Policy, q: Policy, tenants: set<string>, t: string, key: string, u: string)
    requires Apart(tenants) && t in tenants && u in tenants && u != t && InTenant(key, t)
    requires forall n :: n != key ==> (n in p.roles <==> n in q.roles) && (n in p.roles ==> p.roles[n] == q.roles[n])
    requires forall n :: n != key ==> (n in p.rules <==> n in q.rules) && (n in p.rules ==> p.rules[n] == q.rules[n])
    requires forall n :: n != key ==> (n in p.metadata <==> n in q.metadata) && (n in p.metadata ==> p.metadata[n] == q.metadata[n])
    requires forall a: (string, string) :: !InTenant(a.0, t) ==> (a in p.assignments <==> a in q.assignments)
    ensures Share(q, u) == Share(p, u)
  {
    if InTenant(key, u) {
      ApartKeys(tenants, t, u, key);
    }
    forall a: (string, string) | InTenant(a.0, u) ensures a in p.assignments <==> a in q.assignments {
      if InTenant(a.0, t) {
        ApartKeys(tenants, t, u, a.0);
      }
    }
  }

  lemma ScopedParents(tenant: string, names: seq<string>)
    ensures forall m :: m in ScopeNames(tenant, names) ==> InTenant(m, tenant)
  {
  }

  lemma StoredStaysSeparate(p: Policy, tenants: set<string>, t: string, role: Role)
    requires Separate(p, tenants) && Apart(tenants) && t in tenants
    ensures Separate(WithRole(p, ScopeRole(t, role)), tenants)
  {
    var r := ScopeRole(t, role);
    ScopedParents(t, role.parents);
    forall u | u in tenants ensures Closed(WithRole(p, r), u) {
      assert Closed(p, u);
      if u != t && InTenant(r.name, u) {
        ApartKeys(tenants, t, u, r.name);
      }
    }
  }

  lemma WithRoleWithin(p: Policy, t: string, r: Role)
    requires InTenant(r.name, t)
    ensures Share(WithRole(p, r), t) == WithRole(Share(p, t), r)
  {
    WithinUpdated(p.roles, t, r.name, DataOf(r));
  }

  /** The cycle check gives the same verdict on the whole store and on the tenant's share. */
  lemma CycleVerdictWithin(p: Policy, t: string, r: Role)
    requires Valid(p) && InTenant(r.name, t) && Closed(WithRole(p, r), t)
    ensures Share(WithRole(p, r), t) == WithRole(Share(p, t), r)
    ensures Acyclic(Parents(WithRole(p, r))) <==> Acyclic(Parents(WithRole(Share(p, t), r)))
  {
    var q := Share(p, t);
    WithRoleWithin(p, t, r);
    CyclesWithin(WithRole(p, r), t, r.name);
    assert Subgraph(Parents(q), Parents(p));
    SubgraphAcyclic(Parents(q), Parents(p));
    CycleChecksAgree(Parents(p), Parents(WithRole(p, r)), r.name);
    CycleChecksAgree(Parents(q), Parents(WithRole(q, r)), r.name);
  }

  lemma StoreCommutes(p: Policy, tenants: set<string>, t: string, role: Role)
    requires Valid(p) && Separate(p, tenants) && Apart(tenants) && t in tenants
    ensures Commutes(p, tenants, t, StoreRole(p, ScopeRole(t, role)), StoreRole(Share(p, t), ScopeRole(t, role)))
  {
    var r := ScopeRole(t, role);
    StoredStaysSeparate(p, tenants, t, role);
    CycleVerdictWithin(p, t, r);
    ScopedParents(t, role.parents);
    if StoreRole(p, r).Ok? {
      StoreRoleKeepsValid(p, r);
      forall u | u in tenants && u != t ensures Share(WithRole(p, r), u) == Share(p, u) {
        ElsewhereUnchanged(p, WithRole(p, r), tenants, t, r.name, u);
      }
    }
  }

  /** Nobody outside the tenant links to its roles. */
  lemma ForeignLinks(p: Policy, tenants: set<string>, t: string, u: string, key: string)
    requires Separate(p, tenants) && Apart(tenants) && t in tenants && u in tenants && u != t && InTenant(key, t)
    ensures !InTenant(key, u)
    ensures forall n :: n in p.roles && InTenant(n, u) ==> key !in p.roles[n].parents
  {
    assert Closed(p, u);
    if InTenant(key, u) {
      ApartKeys(tenants, t, u, key);
    }
  }

  lemma DeletedElsewhere(p: Policy, tenants: set<string>, t: string, key: string, u: string)
    requires Separate(p, tenants) && Apart(tenants) && t in tenants && u in tenants && u != t && InTenant(key, t)
    ensures Share(WithoutRole(p, key), u) == Share(p, u)
  {
    ForeignLinks(p, tenants, t, u, key);
    var q := WithoutRole(p, key);
    forall n | n in Within(p.roles, u) ensures n in q.roles && q.roles[n] == p.roles[n] {
      assert p.roles[n].parents - {key} == p.roles[n].parents;
    }
    assert Within(q.roles, u) == Within(p.roles, u) && Within(q.rules, u) == Within(p.rules, u);
  }

  lemma DeletedShares(p: Policy, tenants: set<string>, t: string, key: string)
    requires Separate(p, tenants) && Apart(tenants) && t in tenants && InTenant(key, t)
    ensures Share(WithoutRole(p, key), t) == WithoutRole(Share(p, t), key)
    ensures forall u :: u in tenants && u != t ==> Share(WithoutRole(p, key), u) == Share(p, u)
  {
    forall u | u in tenants && u != t ensures Share(WithoutRole(p, key), u) == Share(p, u) {
      DeletedElsewhere(p, tenants, t, key, u);
    }
    var shared, alone := Share(WithoutRole(p, key), t), WithoutRole(Share(p, t), key);
    assert shared.roles == alone.roles;
    assert shared.rules == alone.rules && shared.metadata == alone.metadata;
  }

  lemma DeleteCommutes(p: Policy, tenants: set<string>, t: string, name: string)
    requires Valid(p) && Separate(p, tenants) && Apart(tenants) && t in tenants
    ensures var op := DeleteRole(Key(t, name)); Commutes(p, tenants, t, Apply(p, op), Apply(Share(p, t), op))
  {
    var key := Key(t, name);
    assert InTenant(key, t) && Closed(p, t);
    assert InUse(p, key) == InUse(Share(p, t), key) by {
      assert forall a :: a in p.assignments && a.1 == key ==> a in Share(p, t).assignments;
    }
    DeletedShares(p, tenants, t, key);
    if Apply(p, DeleteRole(key)).Ok? {
      ApplyKeepsValid(p, DeleteRole(key));
      forall u | u in tenants ensures Closed(WithoutRole(p, key), u) {
        assert Closed(p, u);
      }
    }
  }

  lemma AssignmentCommutes(p: Policy, tenants: set<string>, t: string, op: Op)
    requires Valid(p) && Separate(p, tenants) && Apart(tenants) && t in tenants && (op.AssignRole? || op.UnassignRole?)
    ensures Commutes(p, tenants, t, Apply(p, ScopeOp(t, op)), Apply(Share(p, t), ScopeOp(t, op)))
  {
    var s := ScopeOp(t, op);
    assert InTenant(s.user, t) && InTenant(s.name, t);
    if Apply(p, s).Ok? {
      var q := Apply(p, s).value;
      ApplyKeepsValid(p, s);
      forall u | u in tenants ensures Closed(q, u) && (u != t ==> Share(q, u) == Share(p, u)) {
        assert Closed(p, u);
        AssignmentStaysClosed(p, q, tenants, t, u, s.user, s.name);
        if u != t {
          AssignmentElsewhere(p, q, tenants, t, u, s.user, s.name);
        }
      }
      assert Share(q, t).assignments == Apply(Share(p, t), s).value.assignments;
    }
  }

  lemma AssignmentElsewhere(p: Policy, q: Policy, tenants: set<string>, t: string, u: string, user: string, name: string)
    requires Apart(tenants) && t in tenants && u in tenants && u != t && InTenant(user, t)
    requires q == p.(assignments := q.assignments)
    requires q.assignments == p.assignments + {(user, name)} || q.assignments == p.assignments - {(user, name)}
    ensures Share(q, u) == Share(p, u)
  {
    if InTenant(user, u) {
      ApartKeys(tenants, t, u, user);
    }
  }

  lemma AssignmentStaysClosed(p: Policy, q: Policy, tenants: set<string>, t: string, u: string, user: string, name: string)
    requires Apart(tenants) && t in tenants && u in tenants && InTenant(user, t) && InTenant(name, t)
    requires Closed(p, u) && q.roles == p.roles && q.assignments <= p.assignments + {(user, name)}
    ensures Closed(q, u)
  {
    if u != t && (InTenant(user, u) || InTenant(name, u)) {
      ApartKeys(tenants, t, u, if InTenant(user, u) then user else name);
    }
  }

  lemma DetailCommutes(p: Policy, tenants: set<string>, t: string, op: Op)
    requires Valid(p) && Separate(p, tenants) && Apart(tenants) && t in tenants && (op.SetRules? || op.SetMetadata?)
    ensures Commutes(p, tenants, t, Apply(p, ScopeOp(t, op)), Apply(Share(p, t), ScopeOp(t, op)))
  {
    var s := ScopeOp(t, op);
    assert InTenant(s.name, t);
    if Apply(p, s).Ok? {
      var q := Apply(p, s).value;
      ApplyKeepsValid(p, s);
      forall u | u in tenants ensures Closed(q, u) && (u != t ==> Share(q, u) == Share(p, u)) {
        assert Closed(p, u);
        if u != t {
          ElsewhereUnchanged(p, q, tenants, t, s.name, u);
        }
      }
      if s.SetRules? {
        WithinUpdated(p.rules, t, s.name, s.rules);
      } else {
        WithinUpdated(p.metadata, t, s.name, s.metadata);
      }
    }
  }

  lemma WithinUpdated<T>(m: map<string, T>, t: string, key: string, x: T)
    requires InTenant(key, t)
    ensures Within(m[key := x], t) == Within(m, t)[key := x]
  {
  }

  /** One scoped operation on the shared store is that operation on the tenant's share. */
  lemma OpCommutes(p: Policy, tenants: set<string>, t: string, op: Op)
    requires Valid(p) && Separate(p, tenants) && Apart(tenants) && t in tenants
    ensures Commutes(p, tenants, t, Apply(p, ScopeOp(t, op)), Apply(Share(p, t), ScopeOp(t, op)))
  {
    match op
    case AddRole(role) =>
      assert InTenant(Key(t, role.name), t);
      StoreCommutes(p, tenants, t, role);
    case UpdateRole(role) =>
      assert InTenant(Key(t, role.name), t);
      StoreCommutes(p, tenants, t, role);
    case DeleteRole(n) => DeleteCommutes(p, tenants, t, n);
    case AssignRole(_, _) => AssignmentCommutes(p, tenants, t, op);
    case UnassignRole(_, _) => AssignmentCommutes(p, tenants, t, op);
    case SetRules(_, _) => DetailCommutes(p, tenants, t, op);
    case SetMetadata(_, _) => DetailCommutes(p, tenants, t, op);
  }

  // ---- Requests and runs ----

  lemma {:induction false} RunCommutes(p: Policy, tenants: set<string>, t: string, ops: seq<Op>)
    requires Valid(p) && Separate(p, tenants) && Apart(tenants) && t in tenants
    ensures Commutes(p, tenants, t, RunAll(p, ScopeAll(t, ops)), RunAll(Share(p, t), ScopeAll(t, ops)))
    decreases |ops|
  {
    if ops != [] {
      OpCommutes(p, tenants, t, ops[0]);
      assert ScopeAll(t, ops)[0] == ScopeOp(t, ops[0]) && ScopeAll(t, ops)[1..] == ScopeAll(t, ops[1..]);
      if Apply(p, ScopeOp(t, ops[0])).Ok? {
        RunCommutes(Apply(p, ScopeOp(t, ops[0])).value, tenants, t, ops[1..]);
      }
    }
  }

  ghost function Served(p: Policy, call: Call): Policy {
    if Answer(p, call).Ok? then Answer(p, call).value else p
  }

  ghost function ServeAll(p: Policy, calls: seq<Call>): Policy
    decreases |calls|
  {
    if calls == [] then p else ServeAll(Served(p, calls[0]), calls[1..])
  }

  /** The replies one tenant gets, in order. */
  ghost function Replies(p: Policy, calls: seq<Call>, t: string): seq<Option<Error>>
    decreases |calls|
  {
    if calls == [] then []
    else
      var reply := Answer(p, calls[0]);
      (if calls[0].tenant != t then [] else if reply.Ok? then [None] else [Some(reply.error)])
      + Replies(Served(p, calls[0]), calls[1..], t)
  }

  /** The calls of one tenant. */
  function Own(calls: seq<Call>, t: string): seq<Call> {
    if calls == [] then []
    else (if calls[0].tenant == t then [calls[0]] else []) + Own(calls[1..], t)
  }

  lemma OneCall(p: Policy, tenants: set<string>, t: string, call: Call)
    requires Valid(p) && Separate(p, tenants) && Apart(tenants) && t in tenants && call.tenant in tenants
    ensures Valid(Served(p, call)) && Separate(Served(p, call), tenants)
    ensures Share(Served(p, call), t) == if call.tenant == t then Served(Share(p, t), call) else Share(p, t)
    ensures call.tenant == t ==>
              var shared, alone := Answer(p, call), Answer(Share(p, t), call);
              shared.Ok? == alone.Ok? && (shared.Err? ==> shared.error == alone.error)
  {
    MayManageWithin(p, call.tenant, call.caller);
    RunCommutes(p, tenants, call.tenant, call.ops);
  }

  /** The capability check gives the same verdict on the whole store and on the tenant's share. */
  lemma MayManageWithin(p: Policy, t: string, caller: Caller)
    requires Closed(p, t)
    ensures MayManage(p, t, caller) <==> MayManage(Share(p, t), t, caller)
  {
    if caller.As? {
      EffectiveWithin(p, t, caller.actor);
      RulesWithin(p, t, caller.actor);
      D.SameDecision(p, Share(p, t), Key(t, caller.actor), caller.rulesEnabled, caller.management,
        Facts(caller.attrs, caller.actor, t));
    }
  }

  /**
   Each tenant uses the shared store as if it were alone: after any interleaving of calls its
   share of the store, and every reply it got, are those of its own calls on its own share.
   */
  lemma {:induction false} SharedStoreIsPrivate(p: Policy, tenants: set<string>, calls: seq<Call>, t: string)
    requires Valid(p) && Separate(p, tenants) && Apart(tenants) && t in tenants
    requires forall c :: c in calls ==> c.tenant in tenants
    ensures Valid(ServeAll(p, calls)) && Separate(ServeAll(p, calls), tenants)
    ensures Share(ServeAll(p, calls), t) == ServeAll(Share(p, t), Own(calls, t))
    ensures Replies(p, calls, t) == Replies(Share(p, t), Own(calls, t), t)
    decreases |calls|
  {
    if calls != [] {
      var call, rest := calls[0], calls[1..];
      assert call in calls && forall c :: c in rest ==> c in calls;
      OneCall(p, tenants, t, call);
      SharedStoreIsPrivate(Served(p, call), tenants, rest, t);
      if call.tenant == t {
        assert Own(calls, t)[0] == call && Own(calls, t)[1..] == Own(rest, t);
      } else {
        assert Own(calls, t) == Own(rest, t);
      }
    }
  }

  /**
   Whatever other tenants do meanwhile, the calls of callers without the capability leave their
   tenant's share of the store as it is.
   */
  lemma IncapableCallersChangeNoShare(p: Policy, tenants: set<string>, calls: seq<Call>, t: string)
    requires Valid(p) && Separate(p, tenants) && Apart(tenants) && t in tenants
    requires forall c :: c in calls ==> c.tenant in tenants && (c.tenant == t ==> Incapable(p, c))
    ensures Share(ServeAll(p, calls), t) == Share(p, t)
  {
    SharedStoreIsPrivate(p, tenants, calls, t);
    OwnAreOwn(calls, t);
    forall c | c in Own(calls, t) ensures Incapable(Share(p, t), c) {
      MayManageWithin(p, t, c.caller);
    }
    IncapableCallersChangeNothing(Share(p, t), Own(calls, t));
  }

  lemma {:induction false} OwnAreOwn(calls: seq<Call>, t: string)
    ensures forall c :: c in Own(calls, t) ==> c in calls && c.tenant == t
  {
    if calls != [] {
      OwnAreOwn(calls[1..], t);
    }
  }

  // ---- What a tenant is shown ----

  /** The listing of a tenant: its roles under the names its callers use. */
  function Listing(p: Policy, t: string): map<string, RoleData> {
    map n | n in ListedNames(p, t) :: Shown(p.roles[Key(t, n)], t)
  }

  function ListedNames(p: Policy, t: string): (names: set<string>)
    ensures forall n :: n in names <==> Key(t, n) in p.roles
  {
    KeyOfStrip("", t);
    assert forall k :: k in p.roles && InTenant(k, t) ==> Key(t, Strip(k, t)) == k;
    var names := set k | k in p.roles && InTenant(k, t) :: Strip(k, t);
    assert forall n :: Key(t, n) in p.roles ==> Strip(Key(t, n), t) in names;
    names
  }

  function Shown(d: RoleData, t: string): RoleData {
    RoleData(d.permissions, set m | m in d.parents :: Unscoped(m, t))
  }

  /** The prefix is cut off if it is there. */
  function Unscoped(key: string, t: string): string {
    if InTenant(key, t) then Strip(key, t) else key
  }

  /** What one tenant's calls do, another tenant's users and listings do not show. */
  lemma TenantsDoNotInterfere(p: Policy, tenants: set<string>, calls: seq<Call>, t: string, user: string)
    requires Valid(p) && Separate(p, tenants) && Apart(tenants) && t in tenants
    requires forall c :: c in calls ==> c.tenant in tenants && c.tenant != t
    ensures SameFor(p, ServeAll(p, calls), Key(t, user))
    ensures Listing(ServeAll(p, calls), t) == Listing(p, t)
  {
    var q := ServeAll(p, calls);
    SharedStoreIsPrivate(p, tenants, calls, t);
    NoneOwn(calls, t);
    assert Share(q, t) == Share(p, t);
    EffectiveWithin(p, t, user);
    EffectiveWithin(q, t, user);
    ListingOfShare(p, q, t);
  }

  /** No calls of other tenants change what a tenant's users may do. */
  lemma TenantsDecideAlone(p: Policy, tenants: set<string>, calls: seq<Call>, t: string, user: string,
                           rulesEnabled: bool, q: Rules.Request, facts: Attributes)
    requires Valid(p) && Separate(p, tenants) && Apart(tenants) && t in tenants
    requires forall c :: c in calls ==> c.tenant in tenants && c.tenant != t
    ensures D.Allowed(ServeAll(p, calls), Key(t, user), rulesEnabled, q, facts) <==> D.Allowed(p, Key(t, user), rulesEnabled, q, facts)
  {
    var after := ServeAll(p, calls);
    TenantsDoNotInterfere(p, tenants, calls, t, user);
    SharedStoreIsPrivate(p, tenants, calls, t);
    NoneOwn(calls, t);
    RulesWithin(p, t, user);
    RulesWithin(after, t, user);
    D.SameDecision(p, after, Key(t, user), rulesEnabled, q, facts);
  }

  /** The rules of a user's roles are in the tenant's share. */
  lemma RulesWithin(p: Policy, t: string, user: string)
    requires Closed(p, t)
    ensures forall n :: n in HeldRoles(p, Key(t, user)) ==> n in Share(p, t).roles && D.RulesOf(p)[n] == D.RulesOf(Share(p, t))[n]
  {
    EffectiveWithin(p, t, user);
    forall n | n in HeldRoles(p, Key(t, user)) ensures n in Share(p, t).roles && D.RulesOf(p)[n] == D.RulesOf(Share(p, t))[n] {
      assert n in HeldRoles(Share(p, t), Key(t, user));
    }
  }

  lemma ListingOfShare(p: Policy, q: Policy, t: string)
    requires Share(p, t).roles == Share(q, t).roles
    ensures Listing(p, t) == Listing(q, t)
  {
    forall n ensures Key(t, n) in p.roles <==> Key(t, n) in q.roles
      ensures Key(t, n) in p.roles ==> p.roles[Key(t, n)] == q.roles[Key(t, n)]
    {
      assert InTenant(Key(t, n), t);
      assert Key(t, n) in Share(p, t).roles <==> Key(t, n) in p.roles;
      assert Key(t, n) in Share(q, t).roles <==> Key(t, n) in q.roles;
    }
    assert ListedNames(p, t) == ListedNames(q, t);
  }

  lemma {:induction false} NoneOwn(calls: seq<Call>, t: string)
    requires forall c :: c in calls ==> c.tenant != t
    ensures Own(calls, t) == []
  {
    if calls != [] {
      assert calls[0] in calls && forall c :: c in calls[1..] ==> c in calls;
      NoneOwn(calls[1..], t);
    }
  }

  lemma ShownAsGiven(t: string, role: Role)
    ensures Shown(DataOf(ScopeRole(t, role)), t) == DataOf(role)
  {
    var d := DataOf(ScopeRole(t, role));
    KeyOfStrip("", t);
    forall m | m in role.parents ensures m in Shown(d, t).parents {
      var i :| 0 <= i < |role.parents| && role.parents[i] == m;
      assert ScopeNames(t, role.parents)[i] == Key(t, m);
      assert Key(t, m) in d.parents && Unscoped(Key(t, m), t) == m;
    }
    forall m | m in Shown(d, t).parents ensures m in role.parents {
      var k :| k in d.parents && Unscoped(k, t) == m;
      var i :| 0 <= i < |role.parents| && ScopeNames(t, role.parents)[i] == k;
      assert Unscoped(Key(t, role.parents[i]), t) == role.parents[i];
    }
  }

  /** A role is listed just as it was registered or updated. */
  lemma ListedAsStored(p: Policy, t: string, role: Role)
    ensures Listing(WithRole(p, ScopeRole(t, role)), t) == Listing(p, t)[role.name := DataOf(role)]
  {
    var q := WithRole(p, ScopeRole(t, role));
    ShownAsGiven(t, role);
    forall n ensures Key(t, n) == Key(t, role.name) <==> n == role.name {
      SameKey(t, n, role.name);
    }
    assert ListedNames(q, t) == ListedNames(p, t) + {role.name};
  }

  lemma SameKey(t: string, a: string, b: string)
    ensures Key(t, a) == Key(t, b) <==> a == b
  {
    assert Strip(Key(t, a), t) == a && Strip(Key(t, b), t) == b;
  }

  /**
   Any tenants with names that hold no separator and end in no colon can share a store from its
   creation: each finds it as if it were alone.
   */
  lemma NewStoreIsPrivate(tenants: set<string>, calls: seq<Call>, t: string)
    requires forall u :: u in tenants ==> !HasSeparator(u) && (u == "" || u[|u| - 1] != ':')
    requires t in tenants && forall c :: c in calls ==> c.tenant in tenants
    ensures Share(ServeAll(EMPTY, calls), t) == ServeAll(EMPTY, Own(calls, t))
    ensures Replies(EMPTY, calls, t) == Replies(EMPTY, Own(calls, t), t)
  {
    NoTrailingColonApart(tenants);
    EmptySeparate(tenants);
    EmptyValid();
    assert Share(EMPTY, t) == EMPTY;
    SharedStoreIsPrivate(EMPTY, tenants, calls, t);
  }

  /** Being apart is needed: whatever the tenant, its sibling's first role shows up in its listing. */
  lemma SiblingsInterfere(t: string)
    ensures Listing(Served(EMPTY, Call(t + ":", Trusted, false, [AddRole(Role("x", [], []))])), t) != Listing(EMPTY, t)
  {
    var r := ScopeRole(t + ":", Role("x", [], []));
    FirstRoleStored(t + ":");
    assert r.name == Key(t, ":x");
    assert ":x" in Listing(WithRole(EMPTY, r), t) && ":x" !in Listing(EMPTY, t);
  }

  lemma FirstRoleStored(t: string)
    ensures var role := Role("x", [], []);
      Served(EMPTY, Call(t, Trusted, false, [AddRole(role)])) == WithRole(EMPTY, ScopeRole(t, role))
  {
    var role := Role("x", [], []);
    assert ValidRole(role) by { assert !IsSpace("x"[0]); }
    RequestOfOne(EMPTY, t, AddRole(role));
    FirstRoleAdded(ScopeRole(t, role));
  }

  lemma FirstRoleAdded(r: Role)
    requires r.name != "" && r.name[|r.name| - 1] == 'x' && ValidRole(r.(name := "x")) && r.parents == []
    ensures Apply(EMPTY, AddRole(r)) == Ok(WithRole(EMPTY, r))
  {
    assert !Blank(r.name) by { assert !IsSpace(r.name[|r.name| - 1]); }
    EmptyValid();
    AddRoleNeverCycles(EMPTY, r);
  }
}
