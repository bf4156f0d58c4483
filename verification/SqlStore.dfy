/**
 The SQL store's operations as transactions: a private view is changed statement by statement
 and replaces the committed tables only at the end. An early return is a rollback.
 */
module SqlStore {
  import opened Basics
  import opened Rules
  import opened Policy
  import opened SqlTables

  /** A failed transaction leaves the committed tables; a successful one installs the specified ones. */
  ghost predicate Settled(r: Result<()>, before: Tables, after: Tables, spec: Result<Tables>) {
    match spec
    case Ok(t) => r == Ok(()) && after == t
    case Err(e) => r == Err(e) && after == before
  }

  class SqlStore {
    var committed: Tables

    constructor ()
      ensures committed == NO_ROWS
    {
      committed := NO_ROWS;
    }

    /** Inserts a role's permission and parent rows and checks for cycles. */
    method InsertRows(t: Tables, role: Role) returns (r: Result<Tables>)
      ensures r == StoreRows(t, role)
    {
      var work := t;
      for i := 0 to |role.permissions|
        invariant work == t.(permissions := t.permissions + PermissionRows(role.name, role.permissions[..i]))
      {
        assert role.permissions[..i + 1] == role.permissions[..i] + [role.permissions[i]];
        assert PermissionRows(role.name, role.permissions[..i + 1])
            == PermissionRows(role.name, role.permissions[..i]) + {(role.name, role.permissions[i])};
        work := work.(permissions := work.permissions + {(role.name, role.permissions[i])});
      }
      assert role.permissions[..|role.permissions|] == role.permissions;
      ghost var mid := work;
      for i := 0 to |role.parents|
        invariant Elements(role.parents[..i]) <= t.roles
        invariant work == mid.(parents := t.parents + ParentRows(role.name, role.parents[..i]))
      {
        if role.parents[i] !in work.roles {
          assert role.parents[i] in Elements(role.parents);
          return Err(ParentNotFound);
        }
        assert role.parents[..i + 1] == role.parents[..i] + [role.parents[i]];
        assert ParentRows(role.name, role.parents[..i + 1])
            == ParentRows(role.name, role.parents[..i]) + {(role.name, role.parents[i])};
        work := work.(parents := work.parents + {(role.name, role.parents[i])});
      }
      assert role.parents[..|role.parents|] == role.parents;
      var reachable := EvaluateQuery(work.parents, role.name);
      if role.name in reachable {
        return Err(CycleDetected);
      }
      return Ok(work);
    }

    method AddRole(role: Role) returns (r: Result<()>)
      modifies this
      ensures Settled(r, old(committed), committed, SqlApply(old(committed), Op.AddRole(role)))
    {
      SqlApplyIsEffect(committed, Op.AddRole(role));
      if !ValidRole(role) {
        return Err(InvalidRole);
      }
      var work := committed;
      if role.name in work.roles {
        return Err(RoleExists);
      }
      work := work.(roles := work.roles + {role.name});
      var stored := InsertRows(work, role);
      if stored.Err? {
        return Err(stored.error);
      }
      committed := stored.value;
      return Ok(());
    }

    method UpdateRole(role: Role) returns (r: Result<()>)
      modifies this
      ensures Settled(r, old(committed), committed, SqlApply(old(committed), Op.UpdateRole(role)))
    {
      SqlApplyIsEffect(committed, Op.UpdateRole(role));
      if !ValidRole(role) {
        return Err(InvalidRole);
      }
      var work := committed;
      if role.name !in work.roles {
        return Err(RoleNotFound);
      }
      work := work.(permissions := (set q | q in work.permissions && q.0 != role.name));
      work := work.(parents := (set q | q in work.parents && q.0 != role.name));
      var stored := InsertRows(work, role);
      if stored.Err? {
        return Err(stored.error);
      }
      committed := stored.value;
      return Ok(());
    }

    method DeleteRole(name: string) returns (r: Result<()>)
      modifies this
      ensures Settled(r, old(committed), committed, SqlApply(old(committed), Op.DeleteRole(name)))
    {
      SqlApplyIsEffect(committed, Op.DeleteRole(name));
      var work := committed;
      if name !in work.roles {
        return Err(RoleNotFound);
      }
      if exists a :: a in work.assignments && a.1 == name {
        return Err(RoleInUse);
      }
      work := work.(rules := work.rules - {name});
      work := work.(metadata := work.metadata - {name});
      // Links to the role first, so that no child keeps a dangling parent.
      work := work.(parents := (set q | q in work.parents && q.1 != name));
      work := work.(parents := (set q | q in work.parents && q.0 != name));
      work := work.(permissions := (set q | q in work.permissions && q.0 != name));
      work := work.(roles := work.roles - {name});
      assert work.parents == WithoutRows(committed, name).parents;
      committed := work;
      return Ok(());
    }

    method AssignRole(user: string, name: string) returns (r: Result<()>)
      modifies this
      ensures Settled(r, old(committed), committed, SqlApply(old(committed), Op.AssignRole(user, name)))
    {
      SqlApplyIsEffect(committed, Op.AssignRole(user, name));
      if name !in committed.roles {
        return Err(RoleNotFound);
      }
      committed := committed.(assignments := committed.assignments + {(user, name)});
      return Ok(());
    }

    method UnassignRole(user: string, name: string) returns (r: Result<()>)
      modifies this
      ensures Settled(r, old(committed), committed, SqlApply(old(committed), Op.UnassignRole(user, name)))
    {
      SqlApplyIsEffect(committed, Op.UnassignRole(user, name));
      if name !in committed.roles {
        return Err(RoleNotFound);
      }
      committed := committed.(assignments := committed.assignments - {(user, name)});
      return Ok(());
    }

    method SetRoleRules(name: string, list: seq<PolicyRule>) returns (r: Result<()>)
      modifies this
      ensures Settled(r, old(committed), committed, SqlApply(old(committed), SetRules(name, list)))
    {
      SqlApplyIsEffect(committed, SetRules(name, list));
      if !ValidRules(list) {
        return Err(InvalidPolicy);
      }
      if name !in committed.roles {
        return Err(RoleNotFound);
      }
      committed := committed.(rules := committed.rules[name := list]);
      return Ok(());
    }

    method SetRoleMetadata(name: string, data: map<string, string>) returns (r: Result<()>)
      modifies this
      ensures Settled(r, old(committed), committed, SqlApply(old(committed), SetMetadata(name, data)))
    {
      SqlApplyIsEffect(committed, SetMetadata(name, data));
      if name !in committed.roles {
        return Err(RoleNotFound);
      }
      committed := committed.(metadata := committed.metadata[name := data]);
      return Ok(());
    }
  }
}
