/**
 What a tenant's callers get for their operations, under the names they use; and which names a
 tenant can have.
 */
module TenantEffects {
  import opened Basics
  import opened Policy
  import opened Effects
  import opened T = Tenant

  /** A role as a tenant's caller gives it is stored under the tenant's names. */
  ghost predicate StoredFor(q: Policy, t: string, role: Role) {
    var key := t + "::" + role.name;
    && key in q.roles
    && (forall x :: x in q.roles[key].permissions <==> x in role.permissions)
    && (forall x :: x in q.roles[key].parents <==> exists m :: m in role.parents && x == t + "::" + m)
  }

  lemma ScopedParentsByName(t: string, names: seq<string>, x: string)
    ensures x in ScopeNames(t, names) <==> exists m :: m in names && x == t + "::" + m
  {
    if m :| m in names && x == t + "::" + m {
      var i :| 0 <= i < |names| && names[i] == m;
      assert ScopeNames(t, names)[i] == Key(t, m) == x;
    }
    if x in ScopeNames(t, names) {
      var i :| 0 <= i < |names| && ScopeNames(t, names)[i] == x;
      assert names[i] in names && x == t + "::" + names[i];
    }
  }

  /** The effect of a successful operation, under the caller's names. */
  ghost predicate TookEffect(q: Policy, t: string, op: Op) {
    match op
    case AddRole(role) => StoredFor(q, t, role)
    case UpdateRole(role) => StoredFor(q, t, role)
    case DeleteRole(n) => t + "::" + n !in q.roles && forall m :: m in q.roles ==> t + "::" + n !in q.roles[m].parents
    case AssignRole(u, n) => t + "::" + n in HeldRoles(q, t + "::" + u)
    case UnassignRole(u, n) => (t + "::" + u, t + "::" + n) !in q.assignments
    case SetRules(n, rules) => t + "::" + n in q.rules && q.rules[t + "::" + n] == rules
    case SetMetadata(n, metadata) => t + "::" + n in q.metadata && q.metadata[t + "::" + n] == metadata
  }

  /** What a tenant asks for happens, to the roles and users it names. */
  lemma RequestTakesEffect(p: Policy, t: string, op: Op)
    requires T.Request(p, t, [op]).Ok?
    ensures TookEffect(T.Request(p, t, [op]).value, t, op)
  {
    assert op in [op];
    RequestOfOne(p, t, op);
    var q := T.Request(p, t, [op]).value;
    match op
    case AddRole(role) => RoleTookEffect(p, q, t, op, role);
    case UpdateRole(role) => RoleTookEffect(p, q, t, op, role);
    case DeleteRole(n) => RoleIsGone(p, Key(t, n));
    case AssignRole(u, n) => AssigningGivesTheRole(p, Key(t, u), Key(t, n));
    case UnassignRole(_, _) =>
    case SetRules(_, _) => DetailsAreStored(p, ScopeOp(t, op));
    case SetMetadata(_, _) => DetailsAreStored(p, ScopeOp(t, op));
  }

  lemma RoleTookEffect(p: Policy, q: Policy, t: string, op: Op, role: Role)
    requires op == AddRole(role) || op == UpdateRole(role)
    requires Apply(p, ScopeOp(t, op)) == Ok(q)
    ensures StoredFor(q, t, role)
  {
    RoleIsStoredAsGiven(p, ScopeOp(t, op));
    forall x ensures x in q.roles[Key(t, role.name)].parents <==> exists m :: m in role.parents && x == t + "::" + m {
      ScopedParentsByName(t, role.parents, x);
    }
  }

  /** A role is refused as invalid exactly for its own blank name or a blank permission. */
  lemma RefusedIffNotFull(p: Policy, t: string, op: Op)
    requires op.AddRole? || op.UpdateRole?
    ensures T.Request(p, t, [op]) == Err(InvalidRole) <==> !FullRole(op.role)
  {
    assert op in [op] && forall o :: o in [op] ==> o == op;
    ValidIffFull(op.role);
    if FullRole(op.role) {
      RequestOfOne(p, t, op);
      ScopedStaysFull(t, op.role);
      ValidIffFull(ScopeRole(t, op.role));
    }
  }

  lemma ScopedStaysFull(t: string, role: Role)
    requires FullRole(role)
    ensures FullRole(ScopeRole(t, role))
  {
    var key := Key(t, role.name);
    assert key[|t|] == ':';
  }

  /**
   Where rules are not enabled, a call that changes them is refused for that: a single operation
   before anything else, a batch after the capability and the content of its roles and rules.
   */
  lemma RulesRefusedIffDisabled(p: Policy, call: Call)
    ensures T.Answer(p, call) == Err(RulesDisabled) <==>
      && call.caller.As? && !call.caller.rulesEnabled && (exists op :: op in call.ops && op.SetRules?)
      && (call.batch ==> MayManage(p, call.tenant, call.caller) && NothingBad(call.ops))
  {
    forall op | op in call.ops ensures (!Refuses(op) && !Malformed(op)) <==> !BadOp(op) {
      if op.AddRole? || op.UpdateRole? { ValidIffFull(op.role); }
      if op.SetRules? { ValidRulesIffNoneBad(op.rules); }
    }
    NeverDenied(p, ScopeAll(call.tenant, call.ops));
  }

  ghost predicate BadOp(op: Op) {
    || ((op.AddRole? || op.UpdateRole?) && !FullRole(op.role))
    || (op.SetRules? && exists rule :: rule in op.rules && BadRule(rule))
  }

  ghost predicate NothingBad(ops: seq<Op>) {
    forall op :: op in ops ==> !BadOp(op)
  }

  // ---- Tenant names ----

  /** The name without white space around it. */
  function Trimmed(s: string): string {
    if s != "" && IsSpace(s[0]) then Trimmed(s[1..])
    else if s != "" && IsSpace(s[|s| - 1]) then Trimmed(s[..|s| - 1])
    else s
  }

  /** The tenant an Enforcer is made for, if the name can be one. */
  function TenantFor(name: string): Option<string> {
    if Trimmed(name) == "" || HasSeparator(Trimmed(name)) then None else Some(Trimmed(name))
  }

  /** Two colons in a row. */
  ghost predicate TwoColons(s: string) {
    exists i :: ColonsAt(s, i)
  }

  predicate ColonsAt(s: string, i: int) {
    0 <= i < |s| - 1 && s[i..i + 2] == "::"
  }

  lemma SeparatorIsTwoColons(s: string)
    ensures HasSeparator(s) <==> TwoColons(s)
  {
    if i :| 0 <= i < |s| - 1 && s[i] == ':' && s[i + 1] == ':' {
      assert ColonsAt(s, i);
    }
    if i :| ColonsAt(s, i) {
      assert s[i..i + 2][0] == ':' && s[i..i + 2][1] == ':';
      assert s[i] == ':' && s[i + 1] == ':';
    }
  }

  lemma {:induction false} TrimmedKeepsContent(s: string)
    ensures HasContent(s) <==> Trimmed(s) != ""
    ensures HasSeparator(s) <==> HasSeparator(Trimmed(s))
    ensures Trimmed(s) != "" ==> Trimmed(s)[0] !in SPACES && Trimmed(s)[|Trimmed(s)| - 1] !in SPACES
    decreases |s|
  {
    if s != "" {
      SpacesAreSpaces(s[0]);
      SpacesAreSpaces(s[|s| - 1]);
      if IsSpace(s[0]) {
        TrimmedKeepsContent(s[1..]);
        assert s == [s[0]] + s[1..];
        WithoutFirst(s);
      } else if IsSpace(s[|s| - 1]) {
        TrimmedKeepsContent(s[..|s| - 1]);
        WithoutLast(s);
      }
    }
  }

  lemma WithoutFirst(s: string)
    requires s != "" && IsSpace(s[0])
    ensures HasContent(s) <==> HasContent(s[1..])
    ensures HasSeparator(s) <==> HasSeparator(s[1..])
  {
    SpacesAreSpaces(s[0]);
    if i :| 0 <= i < |s| && s[i] !in SPACES {
      assert s[1..][i - 1] !in SPACES;
    }
    if i :| 0 <= i < |s[1..]| && s[1..][i] !in SPACES {
      assert s[i + 1] !in SPACES;
    }
    if i :| 0 <= i < |s| - 1 && s[i] == ':' && s[i + 1] == ':' {
      assert s[1..][i - 1] == ':' && s[1..][i - 1 + 1] == ':';
    }
    if i :| 0 <= i < |s[1..]| - 1 && s[1..][i] == ':' && s[1..][i + 1] == ':' {
      assert s[i + 1] == ':' && s[i + 1 + 1] == ':';
    }
  }

  lemma WithoutLast(s: string)
    requires s != "" && IsSpace(s[|s| - 1])
    ensures HasContent(s) <==> HasContent(s[..|s| - 1])
    ensures HasSeparator(s) <==> HasSeparator(s[..|s| - 1])
  {
    SpacesAreSpaces(s[|s| - 1]);
    var t := s[..|s| - 1];
    if i :| 0 <= i < |s| && s[i] !in SPACES {
      assert t[i] !in SPACES;
    }
    if i :| 0 <= i < |s| - 1 && s[i] == ':' && s[i + 1] == ':' {
      assert t[i] == ':' && t[i + 1] == ':';
    }
    if i :| 0 <= i < |t| - 1 && t[i] == ':' && t[i + 1] == ':' {
      assert s[i] == ':' && s[i + 1] == ':';
    }
  }

  /** A name is refused exactly if it is blank or holds two colons in a row. */
  lemma TenantForRefusals(name: string)
    ensures TenantFor(name) == None <==> !HasContent(name) || TwoColons(name)
    ensures TenantFor(name).Some? ==> Accepted(TenantFor(name).value)
  {
    TrimmedKeepsContent(name);
    SeparatorIsTwoColons(name);
    if TenantFor(name).Some? {
      var t := TenantFor(name).value;
      SpacesAreSpaces(t[0]);
      SpacesAreSpaces(t[|t| - 1]);
    }
  }

  /** The accepted names are those an Enforcer takes as they are. */
  lemma AcceptedAsIs(t: string)
    ensures Accepted(t) <==> TenantFor(t) == Some(t)
  {
    TrimmedKeepsContent(t);
    if TenantFor(t) == Some(t) {
      TenantForRefusals(t);
    }
  }
}
