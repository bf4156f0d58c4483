/**
 What callers see of each operation: exactly when it is refused and with which error, what it
 leaves stored, and what that means for the users. Names and texts are told by their characters,
 inheritance by chains of stored parents.
 */
module Effects {
  import opened Basics
  import opened ParentGraph
  import opened Rules
  import opened Policy

  // ---- Blank names ----

  /** The white space characters, one by one. */
  const SPACES := {
    ' ', '\t', '\n', '\U{B}', '\U{C}', '\r', '\U{85}', '\U{A0}', '\U{1680}',
    '\U{2000}', '\U{2001}', '\U{2002}', '\U{2003}', '\U{2004}', '\U{2005}', '\U{2006}', '\U{2007}', '\U{2008}',
    '\U{2009}', '\U{200A}', '\U{2028}', '\U{2029}', '\U{202F}', '\U{205F}', '\U{3000}'}

  lemma SpacesAreSpaces(c: char)
    ensures IsSpace(c) <==> c in SPACES
  {
  }

  /** Some character is not white space. */
  predicate HasContent(s: string) {
    exists i :: 0 <= i < |s| && s[i] !in SPACES
  }

  lemma BlankHasNoContent(s: string)
    ensures Blank(s) <==> !HasContent(s)
  {
    forall i | 0 <= i < |s| ensures IsSpace(s[i]) <==> s[i] in SPACES {
      SpacesAreSpaces(s[i]);
    }
  }

  predicate FullPermission(q: Permission) {
    HasContent(q.resource) && HasContent(q.action)
  }

  /** The role's name, and every permission's resource and action, have content. */
  predicate FullRole(role: Role) {
    HasContent(role.name) && forall q :: q in role.permissions ==> FullPermission(q)
  }

  lemma ValidIffFull(role: Role)
    ensures ValidRole(role) <==> FullRole(role)
  {
    BlankHasNoContent(role.name);
    forall q | q in role.permissions ensures (!Blank(q.resource) && !Blank(q.action)) <==> FullPermission(q) {
      BlankHasNoContent(q.resource);
      BlankHasNoContent(q.action);
    }
  }

  // ---- When operations are refused ----

  /** Some parent of the role leads, by the links stored now, to the role itself. */
  ghost predicate WouldCycle(p: Policy, role: Role) {
    exists m :: m in role.parents && Reaches(Parents(p), m, role.name)
  }

  lemma CyclesIffLedBack(p: Policy, role: Role)
    requires Valid(p)
    ensures Acyclic(Parents(WithRole(p, role))) <==> !WouldCycle(p, role)
  {
    var g, h, n := Parents(p), Parents(WithRole(p, role)), role.name;
    assert DiffersOnlyAt(g, h, n) && DiffersOnlyAt(h, g, n);
    CycleChecksAgree(g, h, n);
    forall m | m in role.parents ensures Reaches(g, m, n) <==> Reaches(h, m, n) {
      if Reaches(h, m, n) { ReachesAvoiding(g, h, n, m, n); }
      if Reaches(g, m, n) { ReachesAvoiding(h, g, n, m, n); }
    }
    assert forall m :: Edge(h, n, m) <==> m in role.parents;
  }

  ghost predicate MissesParent(p: Policy, role: Role) {
    exists n :: n in role.parents && n !in p.roles
  }

  /** Registering a role: each error with its exact cause, in the order of precedence. */
  lemma AddRoleRefusals(p: Policy, role: Role)
    requires Valid(p)
    ensures var r := Apply(p, AddRole(role));
      && (r == Err(InvalidRole) <==> !FullRole(role))
      && (r == Err(RoleExists) <==> FullRole(role) && role.name in p.roles)
      && (r == Err(ParentNotFound) <==> FullRole(role) && role.name !in p.roles && MissesParent(p, role))
      && (r.Ok? <==> FullRole(role) && role.name !in p.roles && !MissesParent(p, role))
  {
    ValidIffFull(role);
    if role.name !in p.roles && !MissesParent(p, role) {
      AddRoleNeverCycles(p, role);
    }
  }

  lemma UpdateRoleRefusals(p: Policy, role: Role)
    requires Valid(p)
    ensures var r := Apply(p, UpdateRole(role));
      && (r == Err(InvalidRole) <==> !FullRole(role))
      && (r == Err(RoleNotFound) <==> FullRole(role) && role.name !in p.roles)
      && (r == Err(ParentNotFound) <==> FullRole(role) && role.name in p.roles && MissesParent(p, role))
      && (r == Err(CycleDetected) <==> FullRole(role) && role.name in p.roles && !MissesParent(p, role) && WouldCycle(p, role))
      && (r.Ok? <==> FullRole(role) && role.name in p.roles && !MissesParent(p, role) && !WouldCycle(p, role))
  {
    ValidIffFull(role);
    CyclesIffLedBack(p, role);
  }

  lemma DeleteRoleRefusals(p: Policy, name: string)
    ensures var r := Apply(p, DeleteRole(name));
      && (r == Err(RoleNotFound) <==> name !in p.roles)
      && (r == Err(RoleInUse) <==> name in p.roles && exists user :: (user, name) in p.assignments)
      && (r.Ok? <==> name in p.roles && forall user :: (user, name) !in p.assignments)
  {
    if InUse(p, name) {
      var a :| a in p.assignments && a.1 == name;
      assert (a.0, name) in p.assignments;
    }
  }

  /** Assignments and metadata need the role, and nothing else. */
  lemma OthersNeedTheRole(p: Policy, op: Op)
    requires op.AssignRole? || op.UnassignRole? || op.SetMetadata?
    ensures if op.name in p.roles then Apply(p, op).Ok? else Apply(p, op) == Err(RoleNotFound)
  {
  }

  /** A condition no store takes. */
  predicate BadCondition(c: Condition) {
    || !HasContent(c.attribute)
    || (c.otherAttribute != "" && c.value.Some?)
    || c.operator.UnknownOperator?
    || ((c.operator.In? || c.operator.NotIn?) && c.otherAttribute == "" && !(c.value.Some? && c.value.value.List?))
    || ((c.operator.Exists? || c.operator.NotExists?) && (c.value.Some? || c.otherAttribute != ""))
    || (c.value.Some? && !Marshals(c.value.value))
  }

  /** A rule no store takes. */
  predicate BadRule(rule: PolicyRule) {
    || rule.effect.UnknownEffect? || !HasContent(rule.resource) || !HasContent(rule.action)
    || exists c :: c in rule.conditions && BadCondition(c)
  }

  lemma ValidIffNotBad(rule: PolicyRule)
    ensures ValidRule(rule) <==> !BadRule(rule)
  {
    BlankHasNoContent(rule.resource);
    BlankHasNoContent(rule.action);
    forall c: Condition ensures ValidCondition(c) <==> !BadCondition(c) {
      BlankHasNoContent(c.attribute);
    }
    forall i | 0 <= i < |rule.conditions| ensures rule.conditions[i] in rule.conditions {
    }
  }

  lemma SetRulesRefusals(p: Policy, name: string, rules: seq<PolicyRule>)
    ensures var r := Apply(p, SetRules(name, rules));
      && (r == Err(InvalidPolicy) <==> exists rule :: rule in rules && BadRule(rule))
      && (r == Err(RoleNotFound) <==> (forall rule :: rule in rules ==> !BadRule(rule)) && name !in p.roles)
      && (r.Ok? <==> (forall rule :: rule in rules ==> !BadRule(rule)) && name in p.roles)
  {
    ValidRulesIffNoneBad(rules);
  }

  lemma ValidRulesIffNoneBad(rules: seq<PolicyRule>)
    ensures ValidRules(rules) <==> forall rule :: rule in rules ==> !BadRule(rule)
  {
    forall i | 0 <= i < |rules| ensures rules[i] in rules && (ValidRule(rules[i]) <==> !BadRule(rules[i])) {
      ValidIffNotBad(rules[i]);
    }
  }

  // ---- What is never stored ----

  /** Nothing stored is blank, and every stored rule is one a store takes. */
  ghost predicate Meaningful(p: Policy) {
    && (forall n, q :: n in p.roles && q in p.roles[n].permissions ==> FullPermission(q))
    && (forall n :: n in p.roles ==> HasContent(n))
    && (forall n, rule :: n in p.rules && rule in p.rules[n] ==> !BadRule(rule))
  }

  lemma StepKeepsMeaningful(p: Policy, op: Op)
    requires Meaningful(p) && Apply(p, op).Ok?
    ensures Meaningful(Apply(p, op).value)
  {
    match op
    case AddRole(role) => ValidIffFull(role);
    case UpdateRole(role) => ValidIffFull(role);
    case SetRules(_, rules) => ValidRulesIffNoneBad(rules);
    case _ =>
  }

  lemma {:induction false} RunsKeepMeaningful(p: Policy, ops: seq<Op>)
    requires Meaningful(p)
    ensures Meaningful(PerformAll(p, ops))
    decreases |ops|
  {
    if ops != [] {
      if Apply(p, ops[0]).Ok? { StepKeepsMeaningful(p, ops[0]); }
      RunsKeepMeaningful(Perform(p, ops[0]), ops[1..]);
    }
  }

  /**
   Over all runs from an empty store: no stored role confers, and no user holds, a permission with
   a blank resource or action, and no rule with an unknown effect or operator is stored.
   */
  lemma NothingBlankIsEverHeld(ops: seq<Op>, user: string)
    ensures var p := PerformAll(EMPTY, ops);
      && Meaningful(p)
      && forall q :: q in Effective(p, user) ==> HasContent(q.resource) && HasContent(q.action)
  {
    RunsKeepMeaningful(EMPTY, ops);
    var p := PerformAll(EMPTY, ops);
    forall q | q in Effective(p, user) ensures HasContent(q.resource) && HasContent(q.action) {
      var n :| n in HeldRoles(p, user) && n in p.roles && q in p.roles[n].permissions;
      assert FullPermission(q);
    }
  }

  // ---- What an operation leaves stored ----

  /** Everything but the role of that name is as before. */
  ghost predicate OnlyRole(p: Policy, q: Policy, name: string) {
    && (forall n :: n != name ==> (n in q.roles <==> n in p.roles) && (n in p.roles ==> q.roles[n] == p.roles[n]))
    && q.assignments == p.assignments && q.rules == p.rules && q.metadata == p.metadata
  }

  /** A registered or updated role is stored with just the permissions and parents given. */
  lemma RoleIsStoredAsGiven(p: Policy, op: Op)
    requires (op.AddRole? || op.UpdateRole?) && Apply(p, op).Ok?
    ensures var q, role := Apply(p, op).value, op.role;
      && role.name in q.roles && OnlyRole(p, q, role.name)
      && (forall x :: x in q.roles[role.name].permissions <==> x in role.permissions)
      && (forall x :: x in q.roles[role.name].parents <==> x in role.parents)
  {
  }

  /** A deleted role is gone, as a role and as a parent, with its rules and metadata; nothing else is. */
  lemma RoleIsGone(p: Policy, name: string)
    requires Apply(p, DeleteRole(name)).Ok?
    ensures var q := Apply(p, DeleteRole(name)).value;
      && (forall n :: n in q.roles <==> n in p.roles && n != name)
      && (forall n :: n in q.roles ==> q.roles[n].permissions == p.roles[n].permissions)
      && (forall n, m :: n in q.roles ==> (m in q.roles[n].parents <==> m in p.roles[n].parents && m != name))
      && (forall n :: n in q.rules <==> n in p.rules && n != name) && (forall n :: n in q.rules ==> q.rules[n] == p.rules[n])
      && (forall n :: n in q.metadata <==> n in p.metadata && n != name)
      && (forall n :: n in q.metadata ==> q.metadata[n] == p.metadata[n])
      && q.assignments == p.assignments
  {
  }

  lemma DetailsAreStored(p: Policy, op: Op)
    requires (op.SetRules? || op.SetMetadata?) && Apply(p, op).Ok?
    ensures var q := Apply(p, op).value;
      && q.roles == p.roles && q.assignments == p.assignments
      && (op.SetRules? ==> SetAt(p.rules, q.rules, op.name, op.rules) && q.metadata == p.metadata)
      && (op.SetMetadata? ==> SetAt(p.metadata, q.metadata, op.name, op.metadata) && q.rules == p.rules)
  {
  }

  /** The map holds the value at the key and is otherwise as before. */
  ghost predicate SetAt<T>(before: map<string, T>, after: map<string, T>, key: string, x: T) {
    && key in after && after[key] == x
    && forall n :: n != key ==> (n in after <==> n in before) && (n in before ==> after[n] == before[n])
  }

  // ---- What an assignment means for the user ----

  /** A chain of stored parents, from a role the user is assigned to a role that exists. */
  ghost predicate Chain(p: Policy, user: string, chain: seq<string>) {
    && chain != [] && (user, chain[0]) in p.assignments && chain[|chain| - 1] in p.roles
    && forall i :: 0 <= i < |chain| - 1 ==> chain[i] in p.roles && chain[i + 1] in p.roles[chain[i]].parents
  }

  /** A permission is effective exactly if a chain ends in a role that has it. */
  lemma EffectiveByChains(p: Policy, user: string, q: Permission)
    ensures q in Effective(p, user) <==>
      exists chain :: Chain(p, user, chain) && q in p.roles[chain[|chain| - 1]].permissions
  {
    if chain :| Chain(p, user, chain) && q in p.roles[chain[|chain| - 1]].permissions {
      ChainIsHeld(p, user, chain);
    }
    if q in Effective(p, user) {
      var n :| n in HeldRoles(p, user) && n in p.roles && q in p.roles[n].permissions;
      var chain := HeldByChain(p, user, n);
    }
  }

  /** A role is held exactly if a chain ends in it. */
  lemma HeldByChains(p: Policy, user: string, name: string)
    ensures name in HeldRoles(p, user) <==> exists chain :: Chain(p, user, chain) && chain[|chain| - 1] == name
  {
    if chain :| Chain(p, user, chain) && chain[|chain| - 1] == name {
      ChainIsHeld(p, user, chain);
    }
    if name in HeldRoles(p, user) {
      var chain := HeldByChain(p, user, name);
    }
  }

  lemma ChainIsHeld(p: Policy, user: string, chain: seq<string>)
    requires Chain(p, user, chain)
    ensures chain[|chain| - 1] in HeldRoles(p, user)
  {
    assert WalkBetween(Parents(p), chain, chain[0], chain[|chain| - 1]);
  }

  lemma HeldByChain(p: Policy, user: string, name: string) returns (chain: seq<string>)
    requires name in HeldRoles(p, user)
    ensures Chain(p, user, chain) && chain[|chain| - 1] == name
  {
    var a :| (user, a) in p.assignments && Reaches(Parents(p), a, name);
    chain :| WalkBetween(Parents(p), chain, a, name);
    forall i | 0 <= i < |chain| - 1 ensures chain[i] in p.roles && chain[i + 1] in p.roles[chain[i]].parents {
      assert Edge(Parents(p), chain[i], chain[i + 1]);
    }
  }

  /** Assigning a role gives the user just that role and what is above it in addition. */
  lemma AssigningGivesTheRole(p: Policy, user: string, name: string)
    requires Apply(p, AssignRole(user, name)).Ok?
    ensures var q := Apply(p, AssignRole(user, name)).value;
      && HeldRoles(q, user) == HeldRoles(p, user) + (set n | n in p.roles && Reaches(Parents(p), name, n))
      && name in HeldRoles(q, user)
  {
    ReachesSelf(Parents(p), name);
    var q := Apply(p, AssignRole(user, name)).value;
    assert Parents(q) == Parents(p);
    forall a ensures (user, a) in q.assignments <==> (user, a) in p.assignments || a == name {
    }
  }

  /** Unassigning leaves the user just what the other assigned roles reach. */
  lemma UnassigningLeavesTheOthers(p: Policy, user: string, name: string)
    requires Apply(p, UnassignRole(user, name)).Ok?
    ensures var q := Apply(p, UnassignRole(user, name)).value;
      HeldRoles(q, user) == set n | n in p.roles && exists a :: (user, a) in p.assignments && a != name && Reaches(Parents(p), a, n)
  {
    var q := Apply(p, UnassignRole(user, name)).value;
    assert Parents(q) == Parents(p);
    forall a ensures (user, a) in q.assignments <==> (user, a) in p.assignments && a != name {
    }
  }
}
