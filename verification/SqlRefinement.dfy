/**
 The SQL tables implement the abstract policy, and therefore the memory store and the SQL
 store stay alike under every run, down to one error kind.
 */
module SqlRefinement {
  import opened Basics
  import opened ParentGraph
  import opened Rules
  import opened Policy
  import opened SqlTables
  import Mem = MemoryContents

  function PermissionsIn(rows: set<(string, Permission)>, name: string): set<Permission> {
    set r | r in rows && r.0 == name :: r.1
  }

  function RoleTable(t: Tables): map<string, RoleData> {
    map n | n in t.roles :: RoleData(PermissionsIn(t.permissions, n), ParentsIn(t.parents, n))
  }

  /** The policy the rows stand for. */
  function View(t: Tables): Policy {
    Policy(RoleTable(t), t.assignments, t.rules, t.metadata)
  }

  /** Permission and link rows belong to existing roles. */
  ghost predicate RowsOwned(t: Tables) {
    && (forall r :: r in t.permissions ==> r.0 in t.roles)
    && (forall r :: r in t.parents ==> r.0 in t.roles)
  }

  ghost predicate Sound(t: Tables) {
    RowsOwned(t) && Valid(View(t))
  }

  lemma SameEdges(t: Tables, a: string, b: string)
    requires RowsOwned(t)
    ensures Edge(RowsGraph(t.parents), a, b) <==> Edge(Parents(View(t)), a, b)
  {
    RowsGraphEdges(t.parents, a, b);
    if (a, b) in t.parents {
      assert (a, b).0 in t.roles && (a, b).1 in ParentsIn(t.parents, a);
    }
  }

  lemma SameCycles(t: Tables, n: string)
    requires RowsOwned(t)
    ensures ProperAncestor(t.parents, n, n) <==> OnCycle(Parents(View(t)), n)
  {
    SelfAncestorIsCycle(t.parents, n);
    var g, h := RowsGraph(t.parents), Parents(View(t));
    forall a, b ensures Edge(g, a, b) <==> Edge(h, a, b) {
      SameEdges(t, a, b);
    }
    if OnCycle(g, n) {
      var b :| Edge(g, n, b) && Reaches(g, b, n);
      SubgraphReaches(g, h, b, n);
      assert OnCycle(h, n);
    }
    if OnCycle(h, n) {
      var b :| Edge(h, n, b) && Reaches(h, b, n);
      SubgraphReaches(h, g, b, n);
      assert OnCycle(g, n);
    }
  }

  /** The tables with the role's rows in place and none of its old ones. */
  ghost function Stored(t: Tables, role: Role): Tables {
    var n := role.name;
    var own := WithoutOwnRows(t, n);
    own.(roles := t.roles + {n},
         permissions := own.permissions + PermissionRows(n, role.permissions),
         parents := own.parents + ParentRows(n, role.parents))
  }

  lemma StoredView(t: Tables, role: Role)
    requires RowsOwned(t)
    ensures View(Stored(t, role)) == WithRole(View(t), role) && RowsOwned(Stored(t, role))
  {
    var n, s := role.name, Stored(t, role);
    forall m | m in s.roles ensures RoleTable(s)[m] == WithRole(View(t), role).roles[m] {
      if m == n {
        forall q ensures q in PermissionsIn(s.permissions, n) <==> q in Elements(role.permissions) {
          assert q in PermissionsIn(s.permissions, n) <==> (n, q) in s.permissions;
        }
        forall q ensures q in ParentsIn(s.parents, n) <==> q in Elements(role.parents) {
          assert q in ParentsIn(s.parents, n) <==> (n, q) in s.parents;
        }
      } else {
        forall q ensures q in PermissionsIn(s.permissions, m) <==> q in PermissionsIn(t.permissions, m) {
          assert (m, q) in s.permissions <==> (m, q) in t.permissions;
        }
        forall q ensures q in ParentsIn(s.parents, m) <==> q in ParentsIn(t.parents, m) {
          assert (m, q) in s.parents <==> (m, q) in t.parents;
        }
      }
    }
    assert RoleTable(s) == WithRole(View(t), role).roles;
  }

  /** A role whose name is new is stored without touching other rows. */
  lemma NewRoleHasNoRows(t: Tables, role: Role)
    requires RowsOwned(t) && role.name !in t.roles
    ensures WithoutOwnRows(t, role.name) == t
  {
    assert WithoutOwnRows(t, role.name).permissions == t.permissions;
    assert WithoutOwnRows(t, role.name).parents == t.parents;
  }

  /** Registered with itself among its parents and all the others present: the one disputed error. */
  predicate SelfParentOnly(t: Tables, op: Op) {
    && op.AddRole? && ValidRole(op.role) && op.role.name !in t.roles
    && op.role.name in op.role.parents && Elements(op.role.parents) <= t.roles + {op.role.name}
  }

  /** Both succeed with the same policy or both fail. */
  ghost predicate SameEnd(sql: Result<Tables>, spec: Result<Policy>) {
    && (sql.Ok? <==> spec.Ok?)
    && (sql.Ok? ==> View(sql.value) == spec.value && Sound(sql.value))
  }

  /** Storing rows and running the self-reachability query decides what the abstract policy asks. */
  lemma StoreRefines(t: Tables, role: Role)
    requires Sound(t) && Elements(role.parents) <= t.roles
    ensures ProperAncestor(Stored(t, role).parents, role.name, role.name) <==> !Acyclic(Parents(WithRole(View(t), role)))
    ensures StoreRole(View(t), role).Ok? ==> View(Stored(t, role)) == StoreRole(View(t), role).value && Sound(Stored(t, role))
    ensures StoreRole(View(t), role) != Err(ParentNotFound)
  {
    var p := View(t);
    StoredView(t, role);
    SameCycles(Stored(t, role), role.name);
    var g, h := Parents(p), Parents(WithRole(p, role));
    assert DiffersOnlyAt(g, h, role.name);
    CycleChecksAgree(g, h, role.name);
    forall n | n in role.parents ensures n in p.roles {
      assert n in Elements(role.parents);
    }
    if StoreRole(p, role).Ok? {
      StoreRoleKeepsValid(p, role);
    }
  }

  lemma AddRefines(t: Tables, role: Role)
    requires Sound(t) && ValidRole(role) && role.name !in t.roles && !SelfParentOnly(t, AddRole(role))
    ensures SameEnd(WholeEffect(t, AddRole(role)), Apply(View(t), AddRole(role)))
    ensures WholeEffect(t, AddRole(role)).Err? ==> Apply(View(t), AddRole(role)) == Err(WholeEffect(t, AddRole(role)).error)
  {
    NewRoleHasNoRows(t, role);
    var base := t.(roles := t.roles + {role.name});
    if Elements(role.parents) <= t.roles {
      StoreRefines(t, role);
      assert StoreRows(base, role).Ok? ==> StoreRows(base, role).value == Stored(t, role);
    } else {
      var m :| m in Elements(role.parents) && m !in t.roles;
      assert m in role.parents && m !in View(t).roles;
    }
  }

  lemma UpdateRefines(t: Tables, role: Role)
    requires Sound(t) && ValidRole(role) && role.name in t.roles
    ensures SameEnd(WholeEffect(t, UpdateRole(role)), Apply(View(t), UpdateRole(role)))
    ensures WholeEffect(t, UpdateRole(role)).Err? ==> Apply(View(t), UpdateRole(role)) == Err(WholeEffect(t, UpdateRole(role)).error)
  {
    var base := WithoutOwnRows(t, role.name);
    if Elements(role.parents) <= t.roles {
      StoreRefines(t, role);
      assert t.roles + {role.name} == t.roles;
      assert StoreRows(base, role).Ok? ==> StoreRows(base, role).value == Stored(t, role);
    } else {
      var m :| m in Elements(role.parents) && m !in t.roles;
      assert m in role.parents && m !in View(t).roles;
    }
  }

  /** Registering a role under itself is a cycle for the one store and a missing parent for the other. */
  lemma SelfParentDispute(t: Tables, op: Op)
    requires Sound(t) && SelfParentOnly(t, op)
    ensures SqlApply(t, op) == Err(CycleDetected) && Apply(View(t), op) == Err(ParentNotFound)
  {
    var role := op.role;
    SqlApplyIsEffect(t, op);
    var rows := t.parents + ParentRows(role.name, role.parents);
    assert (role.name, role.name) in rows;
    ReachesSelf(RowsGraph(rows), role.name);
    assert ProperAncestor(rows, role.name, role.name);
    assert role.name !in View(t).roles;
  }

  lemma DeletedView(t: Tables, name: string)
    requires RowsOwned(t)
    ensures View(WithoutRows(t, name)) == WithoutRole(View(t), name) && RowsOwned(WithoutRows(t, name))
  {
    var s := WithoutRows(t, name);
    forall m | m in s.roles ensures RoleTable(s)[m] == WithoutRole(View(t), name).roles[m] {
      forall q ensures q in PermissionsIn(s.permissions, m) <==> q in PermissionsIn(t.permissions, m) {
        assert (m, q) in s.permissions <==> (m, q) in t.permissions;
      }
      forall q ensures q in ParentsIn(s.parents, m) <==> q in ParentsIn(t.parents, m) - {name} {
        assert q in ParentsIn(s.parents, m) <==> (m, q) in s.parents;
        assert q in ParentsIn(t.parents, m) <==> (m, q) in t.parents;
      }
    }
    assert RoleTable(s) == WithoutRole(View(t), name).roles;
  }

  lemma OthersRefine(t: Tables, op: Op)
    requires Sound(t) && !op.AddRole? && !op.UpdateRole?
    ensures SameEnd(WholeEffect(t, op), Apply(View(t), op))
    ensures WholeEffect(t, op).Err? ==> Apply(View(t), op) == Err(WholeEffect(t, op).error)
  {
    match op
    case DeleteRole(n) => DeleteRefines(t, n);
    case AssignRole(_, _) => AssignmentRefines(t, op);
    case UnassignRole(_, _) => AssignmentRefines(t, op);
    case SetRules(_, _) => DetailRefines(t, op);
    case SetMetadata(_, _) => DetailRefines(t, op);
  }

  lemma DeleteRefines(t: Tables, n: string)
    requires Sound(t)
    ensures SameEnd(WholeEffect(t, DeleteRole(n)), Apply(View(t), DeleteRole(n)))
    ensures WholeEffect(t, DeleteRole(n)).Err? ==> Apply(View(t), DeleteRole(n)) == Err(WholeEffect(t, DeleteRole(n)).error)
  {
    if Apply(View(t), DeleteRole(n)).Ok? {
      ApplyKeepsValid(View(t), DeleteRole(n));
    }
    DeletedView(t, n);
  }

  /** Tables with the same rows for the roles show the same roles. */
  lemma SameRowsSameRoles(t: Tables, u: Tables)
    requires u.roles == t.roles && u.permissions == t.permissions && u.parents == t.parents
    ensures View(u) == Policy(View(t).roles, u.assignments, u.rules, u.metadata) && (RowsOwned(t) ==> RowsOwned(u))
  {
  }

  lemma AssignmentRefines(t: Tables, op: Op)
    requires Sound(t) && (op.AssignRole? || op.UnassignRole?)
    ensures SameEnd(WholeEffect(t, op), Apply(View(t), op))
    ensures WholeEffect(t, op).Err? ==> Apply(View(t), op) == Err(WholeEffect(t, op).error)
  {
    if op.name in t.roles {
      SameRowsSameRoles(t, WholeEffect(t, op).value);
      ApplyKeepsValid(View(t), op);
    }
  }

  lemma DetailRefines(t: Tables, op: Op)
    requires Sound(t) && (op.SetRules? || op.SetMetadata?)
    ensures SameEnd(WholeEffect(t, op), Apply(View(t), op))
    ensures WholeEffect(t, op).Err? ==> Apply(View(t), op) == Err(WholeEffect(t, op).error)
  {
    if WholeEffect(t, op).Ok? {
      SameRowsSameRoles(t, WholeEffect(t, op).value);
      ApplyKeepsValid(View(t), op);
    }
  }

  /**
   The SQL store refines the abstract policy: same success, same next policy, and the same
   error except when a new role names itself among parents that otherwise exist.
   */
  lemma SqlRefines(t: Tables, op: Op)
    requires Sound(t)
    ensures SameEnd(SqlApply(t, op), Apply(View(t), op))
    ensures SqlApply(t, op).Err? ==> (Apply(View(t), op) == Err(SqlApply(t, op).error) <==> !SelfParentOnly(t, op))
  {
    SqlApplyIsEffect(t, op);
    if SelfParentOnly(t, op) {
      SelfParentDispute(t, op);
    } else {
      match op
      case AddRole(role) =>
        if ValidRole(role) && role.name !in t.roles { AddRefines(t, role); }
      case UpdateRole(role) =>
        if ValidRole(role) && role.name in t.roles { UpdateRefines(t, role); }
      case _ => OthersRefine(t, op);
    }
  }

  // ---- Memory and SQL side by side ----

  /** On stores that show the same policy an operation succeeds in both or neither and keeps them alike. */
  lemma StoresStayAlike(c: Mem.Contents, t: Tables, op: Op)
    requires Mem.Sound(c) && Sound(t) && Mem.View(c) == View(t)
    ensures Mem.MemApply(c, op).Ok? <==> SqlApply(t, op).Ok?
    ensures Mem.MemApply(c, op).Ok? ==> Mem.View(Mem.MemApply(c, op).value) == View(SqlApply(t, op).value)
    ensures Mem.MemApply(c, op).Err? ==>
              (Mem.MemApply(c, op).error == SqlApply(t, op).error <==> !SelfParentOnly(t, op))
  {
    Mem.MemoryRefines(c, op);
    SqlRefines(t, op);
  }

  ghost function SqlPerformAll(t: Tables, ops: seq<Op>): Tables
    decreases |ops|
  {
    if ops == [] then t
    else SqlPerformAll(if SqlApply(t, ops[0]).Ok? then SqlApply(t, ops[0]).value else t, ops[1..])
  }

  lemma {:induction false} SqlRunsRefine(t: Tables, ops: seq<Op>)
    requires Sound(t)
    ensures Sound(SqlPerformAll(t, ops))
    ensures View(SqlPerformAll(t, ops)) == PerformAll(View(t), ops)
    decreases |ops|
  {
    if ops != [] {
      SqlRefines(t, ops[0]);
      SqlRunsRefine(if SqlApply(t, ops[0]).Ok? then SqlApply(t, ops[0]).value else t, ops[1..]);
    }
  }

  lemma NoRowsSound()
    ensures Sound(NO_ROWS) && View(NO_ROWS) == EMPTY
  {
  }

  /** From empty stores, every run of operations leaves both with the same policy, and that policy valid. */
  lemma MemoryAndSqlAgree(ops: seq<Op>)
    ensures Mem.View(Mem.MemPerformAll(Mem.NOTHING, ops)) == View(SqlPerformAll(NO_ROWS, ops)) == PerformAll(EMPTY, ops)
    ensures Valid(PerformAll(EMPTY, ops))
  {
    Mem.NothingSound();
    NoRowsSound();
    Mem.MemoryRunsRefine(Mem.NOTHING, ops);
    SqlRunsRefine(NO_ROWS, ops);
  }
}
