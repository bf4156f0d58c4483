/**
 The abstract policy that every store implements: roles with permissions and parents, role
 assignments, rules and metadata. Operations either fail with one error and no change or
 produce the next policy.
 */
module Policy {
  import opened Basics
  import opened ParentGraph
  import opened Rules

  /** A role as callers pass it. */
  datatype Role = Role(name: string, permissions: seq<Permission>, parents: seq<string>)

  /** What a store remembers about a role, up to order and repetition. */
  datatype RoleData = RoleData(permissions: set<Permission>, parents: set<string>)

  datatype Policy = Policy(
    roles: map<string, RoleData>,
    assignments: set<(string, string)>,
    rules: map<string, seq<PolicyRule>>,
    metadata: map<string, map<string, string>>)

  const EMPTY := Policy(map[], {}, map[], map[])

  datatype Op =
    | AddRole(role: Role)
    | UpdateRole(role: Role)
    | DeleteRole(name: string)
    | AssignRole(user: string, name: string)
    | UnassignRole(user: string, name: string)
    | SetRules(name: string, rules: seq<PolicyRule>)
    | SetMetadata(name: string, metadata: map<string, string>)

  predicate ValidRole(role: Role) {
    && !Blank(role.name)
    && forall p :: p in role.permissions ==> !Blank(p.resource) && !Blank(p.action)
  }

  function DataOf(role: Role): RoleData {
    RoleData(Elements(role.permissions), Elements(role.parents))
  }

  function Links(roles: map<string, RoleData>): Graph {
    map n | n in roles :: roles[n].parents
  }

  function Parents(p: Policy): Graph {
    Links(p.roles)
  }

  function InUse(p: Policy, name: string): bool {
    exists a :: a in p.assignments && a.1 == name
  }

  function WithRole(p: Policy, role: Role): Policy {
    p.(roles := p.roles[role.name := DataOf(role)])
  }

  /** Removing a role takes its rules, its metadata and every link to it along. */
  function WithoutRole(p: Policy, name: string): Policy {
    p.(roles := map n | n in p.roles && n != name :: RoleData(p.roles[n].permissions, p.roles[n].parents - {name}),
       rules := p.rules - {name},
       metadata := p.metadata - {name})
  }

  /** The role's links, if stored, would be sound and free of cycles. */
  ghost function StoreRole(p: Policy, role: Role): Result<Policy> {
    if exists n :: n in role.parents && n !in p.roles then Err(ParentNotFound)
    else if !Acyclic(Parents(WithRole(p, role))) then Err(CycleDetected)
    else Ok(WithRole(p, role))
  }

  ghost function Apply(p: Policy, op: Op): Result<Policy> {
    match op
    case AddRole(role) =>
      if !ValidRole(role) then Err(InvalidRole)
      else if role.name in p.roles then Err(RoleExists)
      else StoreRole(p, role)
    case UpdateRole(role) =>
      if !ValidRole(role) then Err(InvalidRole)
      else if role.name !in p.roles then Err(RoleNotFound)
      else StoreRole(p, role)
    case DeleteRole(name) =>
      if name !in p.roles then Err(RoleNotFound)
      else if InUse(p, name) then Err(RoleInUse)
      else Ok(WithoutRole(p, name))
    case AssignRole(user, name) =>
      if name !in p.roles then Err(RoleNotFound)
      else Ok(p.(assignments := p.assignments + {(user, name)}))
    case UnassignRole(user, name) =>
      if name !in p.roles then Err(RoleNotFound)
      else Ok(p.(assignments := p.assignments - {(user, name)}))
    case SetRules(name, rules) =>
      if !ValidRules(rules) then Err(InvalidPolicy)
      else if name !in p.roles then Err(RoleNotFound)
      else Ok(p.(rules := p.rules[name := rules]))
    case SetMetadata(name, metadata) =>
      if name !in p.roles then Err(RoleNotFound)
      else Ok(p.(metadata := p.metadata[name := metadata]))
  }

  ghost predicate Valid(p: Policy) {
    && (forall n, m :: n in p.roles && m in p.roles[n].parents ==> m in p.roles)
    && Acyclic(Parents(p))
    && (forall a :: a in p.assignments ==> a.1 in p.roles)
    && p.rules.Keys <= p.roles.Keys
    && p.metadata.Keys <= p.roles.Keys
    && (forall n :: n in p.rules ==> ValidRules(p.rules[n]))
  }

  lemma EmptyValid()
    ensures Valid(EMPTY)
  {
  }

  lemma StoreRoleKeepsValid(p: Policy, role: Role)
    requires Valid(p) && StoreRole(p, role).Ok?
    ensures Valid(StoreRole(p, role).value)
  {
  }

  /** Every successful operation keeps the policy valid. */
  lemma ApplyKeepsValid(p: Policy, op: Op)
    requires Valid(p) && Apply(p, op).Ok?
    ensures Valid(Apply(p, op).value)
  {
    match op
    case DeleteRole(n) => DeleteKeepsValid(p, n);
    case AddRole(role) => StoreRoleKeepsValid(p, role);
    case UpdateRole(role) => StoreRoleKeepsValid(p, role);
    case _ => assert Parents(Apply(p, op).value) == Parents(p);
  }

  lemma DeleteKeepsValid(p: Policy, name: string)
    requires Valid(p) && Apply(p, DeleteRole(name)).Ok?
    ensures Valid(WithoutRole(p, name))
  {
    var q := WithoutRole(p, name);
    assert Subgraph(Parents(q), Parents(p));
    SubgraphAcyclic(Parents(q), Parents(p));
  }

  /** Registration alone can never close a cycle; a role naming itself is a missing parent. */
  lemma AddRoleNeverCycles(p: Policy, role: Role)
    requires Valid(p) && role.name !in p.roles && forall n :: n in role.parents ==> n in p.roles
    ensures Acyclic(Parents(WithRole(p, role)))
  {
    var g, h := Parents(p), Parents(WithRole(p, role));
    assert DiffersOnlyAt(g, h, role.name);
    CycleChecksAgree(g, h, role.name);
    if OnCycle(h, role.name) {
      var b :| Edge(h, role.name, b) && Reaches(h, b, role.name);
      ClosedContainsReach(h, p.roles.Keys, b, role.name);
    }
  }

  // ---- Runs ----

  /** A run against the store: operations that fail leave it as it was. */
  ghost function Perform(p: Policy, op: Op): Policy {
    if Apply(p, op).Ok? then Apply(p, op).value else p
  }

  ghost function PerformAll(p: Policy, ops: seq<Op>): Policy
    decreases |ops|
  {
    if ops == [] then p else PerformAll(Perform(p, ops[0]), ops[1..])
  }

  /** A batch: the first failing operation fails the whole list. */
  ghost function RunAll(p: Policy, ops: seq<Op>): Result<Policy>
    decreases |ops|
  {
    if ops == [] then Ok(p)
    else match Apply(p, ops[0])
      case Ok(q) => RunAll(q, ops[1..])
      case Err(e) => Err(e)
  }

  lemma {:induction false} RunsKeepValid(p: Policy, ops: seq<Op>)
    requires Valid(p)
    ensures Valid(PerformAll(p, ops))
    decreases |ops|
  {
    if ops != [] {
      if Apply(p, ops[0]).Ok? {
        ApplyKeepsValid(p, ops[0]);
      }
      RunsKeepValid(Perform(p, ops[0]), ops[1..]);
    }
  }

  lemma {:induction false} RunAllKeepsValid(p: Policy, ops: seq<Op>)
    requires Valid(p) && RunAll(p, ops).Ok?
    ensures Valid(RunAll(p, ops).value)
    decreases |ops|
  {
    if ops != [] {
      ApplyKeepsValid(p, ops[0]);
      RunAllKeepsValid(Apply(p, ops[0]).value, ops[1..]);
    }
  }

  // ---- Effective permissions ----

  ghost predicate UserReaches(p: Policy, user: string, name: string) {
    exists a :: (user, a) in p.assignments && Reaches(Parents(p), a, name)
  }

  /** The existing roles a user holds, directly or by inheritance. */
  ghost function HeldRoles(p: Policy, user: string): set<string> {
    set n | n in p.roles && UserReaches(p, user, n)
  }

  /** The permissions of a set of roles. */
  function PermissionsOf(roles: map<string, RoleData>, names: set<string>): set<Permission> {
    set n, q | n in names && n in roles && q in roles[n].permissions :: q
  }

  ghost function Effective(p: Policy, user: string): set<Permission> {
    PermissionsOf(p.roles, HeldRoles(p, user))
  }

  // ---- How far a change is felt ----

  /** Two policies give the user the same held roles with the same permissions. */
  ghost predicate SameFor(p: Policy, q: Policy, user: string) {
    HeldRoles(p, user) == HeldRoles(q, user) && Effective(p, user) == Effective(q, user)
  }

  /** Registering a role changes nobody's effective set. */
  lemma AddRoleChangesNobody(p: Policy, role: Role, user: string)
    requires Valid(p) && Apply(p, AddRole(role)).Ok?
    ensures SameFor(p, Apply(p, AddRole(role)).value, user)
  {
    var q := Apply(p, AddRole(role)).value;
    var g, h, n := Parents(p), Parents(q), role.name;
    assert DiffersOnlyAt(g, h, n) && Subgraph(g, h);
    forall a, r | (user, a) in p.assignments && Reaches(h, a, r) ensures Reaches(g, a, r) && r in p.roles {
      ClosedContainsReach(h, p.roles.Keys, a, r);
      ReachesAvoiding(g, h, n, a, r);
      if Reaches(h, a, n) {
        ClosedContainsReach(h, p.roles.Keys, a, n);
      }
    }
    forall a, r | (user, a) in p.assignments && Reaches(g, a, r) ensures Reaches(h, a, r) {
      SubgraphReaches(g, h, a, r);
    }
    assert HeldRoles(p, user) == HeldRoles(q, user);
  }

  /** Updating a role changes only users who reach it. */
  lemma UpdateRoleChangesOnlyHolders(p: Policy, role: Role, user: string)
    requires Valid(p) && Apply(p, UpdateRole(role)).Ok? && !UserReaches(p, user, role.name)
    ensures SameFor(p, Apply(p, UpdateRole(role)).value, user)
  {
    var q := Apply(p, UpdateRole(role)).value;
    var g, h, n := Parents(p), Parents(q), role.name;
    assert DiffersOnlyAt(g, h, n) && DiffersOnlyAt(h, g, n);
    forall a, r | (user, a) in p.assignments ensures Reaches(h, a, r) <==> Reaches(g, a, r) {
      if Reaches(h, a, r) {
        ReachesAvoiding(g, h, n, a, r);
      }
      if Reaches(g, a, r) {
        ReachesAvoiding(h, g, n, a, r);
      }
    }
    assert HeldRoles(p, user) == HeldRoles(q, user);
  }

  /** Assigning or unassigning changes only the named user. */
  lemma AssignmentChangesOnlyUser(p: Policy, op: Op, user: string)
    requires Apply(p, op).Ok? && (op.AssignRole? || op.UnassignRole?) && op.user != user
    ensures SameFor(p, Apply(p, op).value, user)
  {
    var q := Apply(p, op).value;
    assert Parents(p) == Parents(q);
    assert forall a :: (user, a) in p.assignments <==> (user, a) in q.assignments;
    assert HeldRoles(p, user) == HeldRoles(q, user);
  }

  /** Deleting a role or unassigning one never enlarges anyone's effective set. */
  lemma RemovalNeverEnlarges(p: Policy, op: Op, user: string)
    requires Apply(p, op).Ok? && (op.DeleteRole? || op.UnassignRole?)
    ensures HeldRoles(Apply(p, op).value, user) <= HeldRoles(p, user)
    ensures Effective(Apply(p, op).value, user) <= Effective(p, user)
  {
    var q := Apply(p, op).value;
    assert Subgraph(Parents(q), Parents(p));
    forall n | UserReaches(q, user, n) ensures UserReaches(p, user, n) {
      var a :| (user, a) in q.assignments && Reaches(Parents(q), a, n);
      SubgraphReaches(Parents(q), Parents(p), a, n);
    }
  }

  /** Rules and metadata leave every effective set alone. */
  lemma DetailsChangeNobody(p: Policy, op: Op, user: string)
    requires Apply(p, op).Ok? && (op.SetRules? || op.SetMetadata?)
    ensures SameFor(p, Apply(p, op).value, user)
  {
    assert Parents(p) == Parents(Apply(p, op).value);
    assert HeldRoles(p, user) == HeldRoles(Apply(p, op).value, user);
  }

  /** Whose cached sets a successful mutation discards. */
  datatype Scope = Nobody | Only(user: string) | Everyone

  function ScopeOf(op: Op): Scope {
    match op
    case AddRole(_) | UpdateRole(_) | DeleteRole(_) | SetRules(_, _) => Everyone
    case AssignRole(user, _) => Only(user)
    case UnassignRole(user, _) => Only(user)
    case SetMetadata(_, _) => Nobody
  }

  predicate Covers(scope: Scope, user: string) {
    scope.Everyone? || scope == Only(user)
  }

  /**
   The invalidation is wide enough: a user outside the scope keeps the same assignments, the
   same roles and the same effective set.
   */
  lemma ScopeIsWideEnough(p: Policy, op: Op, user: string)
    requires Apply(p, op).Ok? && !Covers(ScopeOf(op), user)
    ensures SameFor(p, Apply(p, op).value, user)
    ensures Apply(p, op).value.roles == p.roles
    ensures forall a :: (user, a) in Apply(p, op).value.assignments <==> (user, a) in p.assignments
  {
    if op.SetMetadata? {
      DetailsChangeNobody(p, op, user);
    } else {
      AssignmentChangesOnlyUser(p, op, user);
    }
  }
}
