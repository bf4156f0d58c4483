/**
 The in-memory store as an object whose maps the methods update step by step. Each method is
 proved against `MemApply`; that those steps are the abstract policy and keep the store sound
 is `MemoryRefines`. The storage behind the lists is the subject of `SliceTables`.
 */
module MemoryStore {
  import opened Basics
  import opened Rules
  import opened Policy
  import opened RoleClosure
  import opened MemoryContents
  import opened PolicyBatch

  /** The result and the new contents are those of the specified operation. */
  ghost predicate Outcome(r: Result<()>, before: Contents, after: Contents, spec: Result<Contents>) {
    match spec
    case Ok(c) => r == Ok(()) && after == c
    case Err(e) => r == Err(e) && after == before
  }

  /** Which check of the context, if any, first finds it cancelled. */
  datatype Cancel = Never | AtStart | AtRule(name: string) | AtMetadata(name: string) | AtEnd

  /** How the two map stages of a batch end. */
  ghost predicate DetailsEnded(r: Result<()>, before: Contents, after: Contents, b: Batch, cancel: Cancel) {
    && (r.Ok? ==> SetAllDetails(before, b) == Ok(after))
    && (r.Err? && r.error != Cancelled ==> SetAllDetails(before, b) == Err(r.error))
    && (cancel == Never ==> r != Err(Cancelled))
    && (cancel.AtRule? && cancel.name in b.rules ==> r.Err?)
    && (cancel.AtMetadata? && cancel.name in b.metadata ==> r.Err?)
  }

  /** Filters one list, telling whether anything was dropped. */
  method Filter(s: seq<string>, drop: string) returns (kept: seq<string>, removed: bool)
    ensures kept == Without(s, drop) && (removed <==> drop in s)
  {
    kept, removed := [], false;
    for i := 0 to |s|
      invariant kept == Without(s[..i], drop) && (removed <==> drop in s[..i])
    {
      assert s[..i + 1][..i] == s[..i] && s[..i + 1] == s[..i] + [s[i]];
      if s[i] == drop {
        removed := true;
      } else {
        kept := kept + [s[i]];
      }
    }
    assert s[..|s|] == s;
  }

  /** The role is what the catalog holds under its name. */
  predicate IsStored(roles: Catalog, role: Role) {
    role.name in roles && role == Role(role.name, roles[role.name].permissions, roles[role.name].parents)
  }

  class MemoryStore {
    var roles: Catalog
    var users: map<string, seq<string>>
    var roleUsers: map<string, set<string>>
    var rules: map<string, seq<PolicyRule>>
    var metadata: map<string, map<string, string>>

    function Holding(): Contents
      reads this
    {
      Contents(roles, users, roleUsers, rules, metadata)
    }

    constructor ()
      ensures Holding() == NOTHING
    {
      roles, users, roleUsers, rules, metadata := map[], map[], map[], map[], map[];
    }

    /** Sees whether all parents exist, in order. */
    method ParentsExist(names: seq<string>) returns (ok: bool)
      ensures ok <==> !exists i :: 0 <= i < |names| && names[i] !in roles
    {
      for i := 0 to |names|
        invariant forall j :: 0 <= j < i ==> names[j] in roles
      {
        if names[i] !in roles {
          return false;
        }
      }
      return true;
    }

    method AddRole(role: Role) returns (r: Result<()>)
      modifies this
      ensures Outcome(r, old(Holding()), Holding(), MemApply(old(Holding()), Op.AddRole(role)))
    {
      if !ValidRole(role) {
        return Err(InvalidRole);
      }
      if role.name in roles {
        return Err(RoleExists);
      }
      var ok := ParentsExist(role.parents);
      if !ok {
        return Err(ParentNotFound);
      }
      roles := roles[role.name := role];
      var cyclic, _ := DetectCycle(roles, role.name, {});
      if cyclic {
        roles := roles - {role.name};
        return Err(CycleDetected);
      }
      return Ok(());
    }

    method UpdateRole(role: Role) returns (r: Result<()>)
      modifies this
      ensures Outcome(r, old(Holding()), Holding(), MemApply(old(Holding()), Op.UpdateRole(role)))
    {
      if !ValidRole(role) {
        return Err(InvalidRole);
      }
      if role.name !in roles {
        return Err(RoleNotFound);
      }
      var ok := ParentsExist(role.parents);
      if !ok {
        return Err(ParentNotFound);
      }
      var previous := roles[role.name];
      roles := roles[role.name := role];
      var cyclic, _ := DetectCycle(roles, role.name, {});
      if cyclic {
        roles := roles[role.name := previous];
        return Err(CycleDetected);
      }
      return Ok(());
    }

    method AssignRole(user: string, name: string) returns (r: Result<()>)
      modifies this
      ensures Outcome(r, old(Holding()), Holding(), MemApply(old(Holding()), Op.AssignRole(user, name)))
    {
      if name !in roles {
        return Err(RoleNotFound);
      }
      var assignedUsers := if name in roleUsers then roleUsers[name] else {};
      if user in assignedUsers {
        return Ok(());
      }
      roleUsers := roleUsers[name := assignedUsers + {user}];
      users := users[user := (if user in users then users[user] else []) + [name]];
      return Ok(());
    }

    method UnassignRole(user: string, name: string) returns (r: Result<()>)
      modifies this
      ensures Outcome(r, old(Holding()), Holding(), MemApply(old(Holding()), Op.UnassignRole(user, name)))
    {
      if name !in roles {
        return Err(RoleNotFound);
      }
      var filtered, removed := Filter(if user in users then users[user] else [], name);
      if removed {
        DropFromIndex(name, user);
      }
      if |filtered| == 0 {
        users := users - {user};
        return Ok(());
      }
      users := users[user := filtered];
      return Ok(());
    }

    /** The role's user goes from the index, and with the last user the entry. */
    method DropFromIndex(name: string, user: string)
      modifies this`roleUsers
      ensures roleUsers == DropUser(old(roleUsers), name, user)
    {
      if name in roleUsers {
        roleUsers := roleUsers[name := roleUsers[name] - {user}];
        if roleUsers[name] == {} {
          roleUsers := roleUsers - {name};
        }
      }
    }

    method DeleteRole(name: string) returns (r: Result<()>)
      modifies this
      ensures Outcome(r, old(Holding()), Holding(), MemApply(old(Holding()), Op.DeleteRole(name)))
    {
      if name !in roles {
        return Err(RoleNotFound);
      }
      if name in roleUsers && roleUsers[name] != {} {
        return Err(RoleInUse);
      }
      roles, rules, metadata, roleUsers := roles - {name}, rules - {name}, metadata - {name}, roleUsers - {name};
      RemoveLinks(name);
      assert roles == Cascade(old(roles), name);
      return Ok(());
    }

    /** Every parent list loses the deleted role, in an arbitrary order. */
    method RemoveLinks(name: string)
      modifies this`roles
      ensures roles == map n | n in old(roles) :: Role(n, old(roles)[n].permissions, Without(old(roles)[n].parents, name))
    {
      var todo := roles.Keys;
      while todo != {}
        invariant todo <= roles.Keys == old(roles).Keys
        invariant forall n :: n in todo ==> roles[n] == old(roles)[n]
        invariant forall n :: n in roles && n !in todo ==>
          roles[n] == Role(n, old(roles)[n].permissions, Without(old(roles)[n].parents, name))
      {
        var n :| n in todo;
        var filtered, _ := Filter(roles[n].parents, name);
        roles := roles[n := Role(n, roles[n].permissions, filtered)];
        todo := todo - {n};
      }
    }

    method SetRoleRules(cancelled: bool, name: string, list: seq<PolicyRule>) returns (r: Result<()>)
      modifies this`rules
      ensures cancelled ==> r == Err(Cancelled) && Holding() == old(Holding())
      ensures !cancelled ==> Outcome(r, old(Holding()), Holding(), MemApply(old(Holding()), SetRules(name, list)))
    {
      if cancelled {
        return Err(Cancelled);
      }
      if !ValidRules(list) {
        return Err(InvalidPolicy);
      }
      if name !in roles {
        return Err(RoleNotFound);
      }
      rules := rules[name := list];
      return Ok(());
    }

    method SetRoleMetadata(cancelled: bool, name: string, data: map<string, string>) returns (r: Result<()>)
      modifies this`metadata
      ensures cancelled ==> r == Err(Cancelled) && Holding() == old(Holding())
      ensures !cancelled ==> Outcome(r, old(Holding()), Holding(), MemApply(old(Holding()), SetMetadata(name, data)))
    {
      if cancelled {
        return Err(Cancelled);
      }
      if name !in roles {
        return Err(RoleNotFound);
      }
      metadata := metadata[name := data];
      return Ok(());
    }

    /** The roles whose names begin with `prefix`, each once, in an arbitrary order. */
    method ListRolesByPrefix(prefix: string) returns (out: seq<Role>)
      ensures forall role :: role in out <==> prefix <= role.name && IsStored(roles, role)
      ensures forall i, j :: 0 <= i < j < |out| ==> out[i].name != out[j].name
    {
      out := [];
      var todo := roles.Keys;
      while todo != {}
        invariant todo <= roles.Keys
        invariant forall role :: role in out <==> role.name !in todo && prefix <= role.name && IsStored(roles, role)
        invariant forall i, j :: 0 <= i < j < |out| ==> out[i].name != out[j].name
      {
        var n :| n in todo;
        assert forall i :: 0 <= i < |out| ==> out[i] in out && out[i].name != n;
        todo := todo - {n};
        if prefix <= n {
          out := out + [Role(n, roles[n].permissions, roles[n].parents)];
        }
      }
    }

    method CopyFrom(live: MemoryStore)
      requires live != this
      modifies this
      ensures Holding() == live.Holding()
    {
      roles, users, roleUsers, rules, metadata := live.roles, live.users, live.roleUsers, live.rules, live.metadata;
    }

    /** One operation, dispatched to its method. */
    method Do(op: Op) returns (r: Result<()>)
      modifies this
      ensures Outcome(r, old(Holding()), Holding(), MemApply(old(Holding()), op))
    {
      match op
      case AddRole(role) => r := AddRole(role);
      case UpdateRole(role) => r := UpdateRole(role);
      case DeleteRole(name) => r := DeleteRole(name);
      case AssignRole(user, name) => r := AssignRole(user, name);
      case UnassignRole(user, name) => r := UnassignRole(user, name);
      case SetRules(name, list) => r := SetRoleRules(false, name, list);
      case SetMetadata(name, data) => r := SetRoleMetadata(false, name, data);
    }

    /** The rule updates, in an arbitrary order of the map. */
    method RunRules(m: map<string, seq<PolicyRule>>, cancel: Cancel) returns (r: Result<()>)
      requires forall n :: n in m ==> ValidRules(m[n])
      modifies this`rules
      ensures r.Ok? ==> SetAllRules(old(Holding()), m) == Ok(Holding())
      ensures r.Err? && r.error != Cancelled ==> SetAllRules(old(Holding()), m) == Err(r.error)
      ensures cancel == Never ==> r != Err(Cancelled)
      ensures cancel.AtRule? && cancel.name in m ==> r.Err?
    {
      r := Ok(());
      ghost var before, done := Holding(), {};
      var todo := m.Keys;
      assert rules + Picked(m, done) == rules;
      while todo != {}
        invariant r == Ok(()) && todo + done == m.Keys
        invariant SetAllRules(before, Picked(m, done)) == Ok(Holding())
        invariant forall n :: n in done ==> cancel != AtRule(n)
      {
        var n :| n in todo;
        r := RunRule(m, n, cancel, before, done);
        if r.Err? {
          return;
        }
        todo, done := todo - {n}, done + {n};
      }
      assert done == m.Keys && Picked(m, done) == m;
    }

    /** One entry of the rule map. */
    method RunRule(m: map<string, seq<PolicyRule>>, n: string, cancel: Cancel, ghost before: Contents, ghost done: set<string>)
      returns (r: Result<()>)
      requires n in m && ValidRules(m[n]) && SetAllRules(before, Picked(m, done)) == Ok(Holding())
      modifies this`rules
      ensures r.Ok? ==> r == Ok(()) && SetAllRules(before, Picked(m, done + {n})) == Ok(Holding()) && cancel != AtRule(n)
      ensures r.Err? ==> if r.error == Cancelled then cancel == AtRule(n) else SetAllRules(before, m) == Err(r.error)
    {
      RuleStageGrows(before, m, done, n, Holding());
      NeverCancelled(Holding(), SetRules(n, m[n]));
      r := SetRoleRules(cancel == AtRule(n), n, m[n]);
    }

    /** The metadata updates, in an arbitrary order of the map. */
    method RunMetadata(m: map<string, map<string, string>>, cancel: Cancel) returns (r: Result<()>)
      modifies this`metadata
      ensures r.Ok? ==> SetAllMetadata(old(Holding()), m) == Ok(Holding())
      ensures r.Err? && r.error != Cancelled ==> SetAllMetadata(old(Holding()), m) == Err(r.error)
      ensures cancel == Never ==> r != Err(Cancelled)
      ensures cancel.AtMetadata? && cancel.name in m ==> r.Err?
    {
      r := Ok(());
      ghost var before, done := Holding(), {};
      var todo := m.Keys;
      assert metadata + Picked(m, done) == metadata;
      while todo != {}
        invariant r == Ok(()) && todo + done == m.Keys
        invariant SetAllMetadata(before, Picked(m, done)) == Ok(Holding())
        invariant forall n :: n in done ==> cancel != AtMetadata(n)
      {
        var n :| n in todo;
        r := RunOneMetadata(m, n, cancel, before, done);
        if r.Err? {
          return;
        }
        todo, done := todo - {n}, done + {n};
      }
      assert done == m.Keys && Picked(m, done) == m;
    }

    /** The rule updates, then the metadata updates. */
    method RunDetails(b: Batch, cancel: Cancel) returns (r: Result<()>)
      requires forall n :: n in b.rules ==> ValidRules(b.rules[n])
      modifies this`rules, this`metadata
      ensures DetailsEnded(r, old(Holding()), Holding(), b, cancel)
    {
      r := RunRules(b.rules, cancel);
      if r.Ok? {
        r := RunMetadata(b.metadata, cancel);
      }
    }

    /** One entry of the metadata map. */
    method RunOneMetadata(m: map<string, map<string, string>>, n: string, cancel: Cancel,
                          ghost before: Contents, ghost done: set<string>)
      returns (r: Result<()>)
      requires n in m && SetAllMetadata(before, Picked(m, done)) == Ok(Holding())
      modifies this`metadata
      ensures r.Ok? ==>
        r == Ok(()) && SetAllMetadata(before, Picked(m, done + {n})) == Ok(Holding()) && cancel != AtMetadata(n)
      ensures r.Err? ==> if r.error == Cancelled then cancel == AtMetadata(n) else SetAllMetadata(before, m) == Err(r.error)
    {
      MetadataStageGrows(before, m, done, n, Holding());
      NeverCancelled(Holding(), SetMetadata(n, m[n]));
      r := SetRoleMetadata(cancel == AtMetadata(n), n, m[n]);
    }
  }
}
