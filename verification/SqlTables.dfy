/**
 The SQL store as relations: each table is a set of rows, each statement a change of or a
 question to the tables, each operation a list of statements in one transaction. The
 recursive query of the cycle check is a least fixpoint.
 */
module SqlTables {
  import opened Basics
  import opened ParentGraph
  import opened Rules
  import opened Policy

  datatype Tables = Tables(
    roles: set<string>,
    permissions: set<(string, Permission)>,
    parents: set<(string, string)>,
    assignments: set<(string, string)>,
    rules: map<string, seq<PolicyRule>>,
    metadata: map<string, map<string, string>>)

  const NO_ROWS := Tables({}, {}, {}, {}, map[], map[])

  function Children(rows: set<(string, string)>): set<string> {
    set r | r in rows :: r.0
  }

  function ParentsIn(rows: set<(string, string)>, child: string): set<string> {
    set r | r in rows && r.0 == child :: r.1
  }

  /** The rows `(child, parent)` as a graph. */
  function RowsGraph(rows: set<(string, string)>): Graph {
    map a | a in Children(rows) :: ParentsIn(rows, a)
  }

  lemma RowsGraphEdges(rows: set<(string, string)>, a: string, b: string)
    ensures Edge(RowsGraph(rows), a, b) <==> (a, b) in rows
  {
    if (a, b) in rows {
      assert (a, b).0 in Children(rows) && (a, b).1 in ParentsIn(rows, a);
    }
  }

  // ---- The recursive query ----

  /** One round of the recursive query: the parents of `start` and of everything found so far. */
  function QueryRound(rows: set<(string, string)>, start: string, found: set<string>): set<string> {
    set r | r in rows && (r.0 == start || r.0 in found) :: r.1
  }

  /** The least set that a round of the query does not enlarge. */
  ghost predicate LeastFixpoint(rows: set<(string, string)>, start: string, found: set<string>) {
    && QueryRound(rows, start, found) == found
    && forall s: set<string> :: QueryRound(rows, start, s) <= s ==> found <= s
  }

  /** `name` is a proper ancestor of `start`. */
  ghost predicate ProperAncestor(rows: set<(string, string)>, start: string, name: string) {
    exists m :: (start, m) in rows && Reaches(RowsGraph(rows), m, name)
  }

  /** Evaluation with a working table: each round joins only the rows that are new. */
  method EvaluateQuery(rows: set<(string, string)>, start: string) returns (found: set<string>)
    ensures LeastFixpoint(rows, start, found)
    ensures forall n :: n in found <==> ProperAncestor(rows, start, n)
  {
    var working := ParentsIn(rows, start);
    found := working;
    ghost var universe := set r | r in rows :: r.1;
    while working != {}
      invariant working <= found <= universe
      invariant forall r :: r in rows && (r.0 == start || r.0 in found - working) ==> r.1 in found
      invariant forall s: set<string> :: QueryRound(rows, start, s) <= s ==> found <= s
      decreases universe - found, working
    {
      var next := (set r | r in rows && r.0 in working :: r.1) - found;
      ghost var before := found;
      forall s: set<string> | QueryRound(rows, start, s) <= s ensures next <= s {
        forall n | n in next ensures n in s {
          var r :| r in rows && r.0 in working && r.1 == n;
          assert r.1 in QueryRound(rows, start, s);
        }
      }
      found, working := found + next, next;
      if next == {} {
        assert universe - found == universe - before;
      } else {
        var n :| n in next;
        assert n in universe - before && n !in universe - found;
      }
    }
    forall n | n in found ensures n in QueryRound(rows, start, found) {
      LeastHoldsOnlyDerived(rows, start, found, n);
    }
    FixpointIsAncestors(rows, start, found);
  }

  /** Nothing underived survives in a least closed set. */
  lemma LeastHoldsOnlyDerived(rows: set<(string, string)>, start: string, found: set<string>, n: string)
    requires n in found && QueryRound(rows, start, found) <= found
    requires forall s: set<string> :: QueryRound(rows, start, s) <= s ==> found <= s
    ensures n in QueryRound(rows, start, found)
  {
    var derived := found * QueryRound(rows, start, found);
    assert QueryRound(rows, start, derived) <= derived;
  }

  lemma FixpointIsAncestors(rows: set<(string, string)>, start: string, found: set<string>)
    requires LeastFixpoint(rows, start, found)
    ensures forall n :: n in found <==> ProperAncestor(rows, start, n)
  {
    var g := RowsGraph(rows);
    forall n | ProperAncestor(rows, start, n) ensures n in found {
      var m :| (start, m) in rows && Reaches(g, m, n);
      assert (start, m).1 in QueryRound(rows, start, found);
      forall x, y | x in found && Edge(g, x, y) ensures y in found {
        RowsGraphEdges(rows, x, y);
        assert (x, y).1 in QueryRound(rows, start, found);
      }
      ClosedContainsReach(g, found, m, n);
    }
    var ancestors := set n | n in found && ProperAncestor(rows, start, n);
    forall n | n in QueryRound(rows, start, ancestors) ensures n in ancestors {
      var r :| r in rows && (r.0 == start || r.0 in ancestors) && r.1 == n;
      RowsGraphEdges(rows, r.0, n);
      ReachesSelf(g, n);
      if r.0 == start {
        assert (start, n) in rows;
      } else {
        var m :| (start, m) in rows && Reaches(g, m, r.0);
        ReachesByEdge(g, r.0, n, n);
        ReachesTrans(g, m, r.0, n);
      }
      assert n in QueryRound(rows, start, found);
    }
    assert found <= ancestors;
  }

  /** The count in the cycle check is positive exactly when `name` lies on a cycle. */
  lemma SelfAncestorIsCycle(rows: set<(string, string)>, name: string)
    ensures ProperAncestor(rows, name, name) <==> OnCycle(RowsGraph(rows), name)
  {
    var g := RowsGraph(rows);
    if ProperAncestor(rows, name, name) {
      var m :| (name, m) in rows && Reaches(g, m, name);
      RowsGraphEdges(rows, name, m);
    }
    if OnCycle(g, name) {
      var b :| Edge(g, name, b) && Reaches(g, b, name);
      RowsGraphEdges(rows, name, b);
    }
  }

  // ---- Statements ----

  datatype Stmt =
    | RequireRole(name: string, otherwise: Error)
    | RequireNoRole(name: string)
    | RequireUnused(name: string)
    | RequireNoCycle(name: string)
    | InsertRole(name: string)
    | InsertPermission(name: string, permission: Permission)
    | InsertParent(name: string, parent: string)
    | InsertAssignment(user: string, name: string)
    | UpsertRules(name: string, rules: seq<PolicyRule>)
    | UpsertMetadata(name: string, metadata: map<string, string>)
    | DropRules(name: string)
    | DropMetadata(name: string)
    | DropLinksTo(name: string)
    | DropLinksOf(name: string)
    | DropPermissions(name: string)
    | DropRole(name: string)
    | DropAssignment(user: string, name: string)

  /** The rows that belong to other roles. */
  function NotOf<T(==)>(rows: set<(string, T)>, name: string): set<(string, T)> {
    set r | r in rows && r.0 != name
  }

  /** One statement inside a transaction: the next tables, or the error that rolls it back. */
  ghost function Exec(t: Tables, s: Stmt): Result<Tables> {
    match s
    case RequireRole(n, e) => if n in t.roles then Ok(t) else Err(e)
    case RequireNoRole(n) => if n in t.roles then Err(RoleExists) else Ok(t)
    case RequireUnused(n) => if exists a :: a in t.assignments && a.1 == n then Err(RoleInUse) else Ok(t)
    case RequireNoCycle(n) => if ProperAncestor(t.parents, n, n) then Err(CycleDetected) else Ok(t)
    case InsertRole(n) => Ok(t.(roles := t.roles + {n}))
    case InsertPermission(n, q) => Ok(t.(permissions := t.permissions + {(n, q)}))
    case InsertParent(n, m) => Ok(t.(parents := t.parents + {(n, m)}))
    case InsertAssignment(u, n) => Ok(t.(assignments := t.assignments + {(u, n)}))
    case UpsertRules(n, rules) => Ok(t.(rules := t.rules[n := rules]))
    case UpsertMetadata(n, metadata) => Ok(t.(metadata := t.metadata[n := metadata]))
    case DropRules(n) => Ok(t.(rules := t.rules - {n}))
    case DropMetadata(n) => Ok(t.(metadata := t.metadata - {n}))
    case DropLinksTo(n) => Ok(t.(parents := set r | r in t.parents && r.1 != n))
    case DropLinksOf(n) => Ok(t.(parents := NotOf(t.parents, n)))
    case DropPermissions(n) => Ok(t.(permissions := NotOf(t.permissions, n)))
    case DropRole(n) => Ok(t.(roles := t.roles - {n}))
    case DropAssignment(u, n) => Ok(t.(assignments := t.assignments - {(u, n)}))
  }

  ghost function Run(t: Tables, stmts: seq<Stmt>): Result<Tables>
    decreases |stmts|
  {
    if stmts == [] then Ok(t)
    else match Exec(t, stmts[0])
      case Ok(u) => Run(u, stmts[1..])
      case Err(e) => Err(e)
  }

  lemma {:induction false} RunAppend(t: Tables, a: seq<Stmt>, b: seq<Stmt>)
    ensures Run(t, a + b) == if Run(t, a).Ok? then Run(Run(t, a).value, b) else Run(t, a)
    decreases |a|
  {
    if a == [] {
      assert a + b == b;
    } else {
      assert (a + b)[0] == a[0] && (a + b)[1..] == a[1..] + b;
      if Exec(t, a[0]).Ok? {
        RunAppend(Exec(t, a[0]).value, a[1..], b);
      }
    }
  }

  lemma RunSingle(t: Tables, s: Stmt)
    ensures Run(t, [s]) == Exec(t, s)
  {
    assert [s][1..] == [];
  }

  function InsertPermissions(name: string, permissions: seq<Permission>): seq<Stmt> {
    seq(|permissions|, i requires 0 <= i < |permissions| => InsertPermission(name, permissions[i]))
  }

  function InsertParents(name: string, parents: seq<string>): seq<Stmt>
    decreases |parents|
  {
    if parents == [] then []
    else [RequireRole(parents[0], ParentNotFound), InsertParent(name, parents[0])] + InsertParents(name, parents[1..])
  }

  /** The statements that store a role's rows and check for cycles. */
  function StoreStmts(role: Role): seq<Stmt> {
    InsertPermissions(role.name, role.permissions) + InsertParents(role.name, role.parents) + [RequireNoCycle(role.name)]
  }

  /** The statements of each operation, in order. */
  function Compile(op: Op): seq<Stmt> {
    match op
    case AddRole(role) => [RequireNoRole(role.name), InsertRole(role.name)] + StoreStmts(role)
    case UpdateRole(role) =>
      [RequireRole(role.name, RoleNotFound), DropPermissions(role.name), DropLinksOf(role.name)] + StoreStmts(role)
    case DeleteRole(n) =>
      [RequireRole(n, RoleNotFound), RequireUnused(n), DropRules(n), DropMetadata(n),
       DropLinksTo(n), DropLinksOf(n), DropPermissions(n), DropRole(n)]
    case AssignRole(u, n) => [RequireRole(n, RoleNotFound), InsertAssignment(u, n)]
    case UnassignRole(u, n) => [RequireRole(n, RoleNotFound), DropAssignment(u, n)]
    case SetRules(n, rules) => [RequireRole(n, RoleNotFound), UpsertRules(n, rules)]
    case SetMetadata(n, metadata) => [RequireRole(n, RoleNotFound), UpsertMetadata(n, metadata)]
  }

  /** What is refused before a transaction begins. */
  function Precheck(op: Op): Option<Error> {
    match op
    case AddRole(role) => if ValidRole(role) then None else Some(InvalidRole)
    case UpdateRole(role) => if ValidRole(role) then None else Some(InvalidRole)
    case SetRules(_, rules) => if ValidRules(rules) then None else Some(InvalidPolicy)
    case _ => None
  }

  /** One operation in a transaction of its own. */
  ghost function SqlApply(t: Tables, op: Op): Result<Tables> {
    if Precheck(op).Some? then Err(Precheck(op).value) else Run(t, Compile(op))
  }

  // ---- Closed forms ----

  function PermissionRows(name: string, permissions: seq<Permission>): set<(string, Permission)> {
    set q | q in permissions :: (name, q)
  }

  function ParentRows(name: string, parents: seq<string>): set<(string, string)> {
    set m | m in parents :: (name, m)
  }

  lemma {:induction false} RunInsertPermissions(t: Tables, name: string, permissions: seq<Permission>)
    ensures Run(t, InsertPermissions(name, permissions)) == Ok(t.(permissions := t.permissions + PermissionRows(name, permissions)))
    decreases |permissions|
  {
    if permissions == [] {
      assert t.permissions + PermissionRows(name, permissions) == t.permissions;
    } else {
      var u := t.(permissions := t.permissions + {(name, permissions[0])});
      assert InsertPermissions(name, permissions)[1..] == InsertPermissions(name, permissions[1..]);
      RunInsertPermissions(u, name, permissions[1..]);
      assert permissions == [permissions[0]] + permissions[1..];
      assert PermissionRows(name, permissions) == {(name, permissions[0])} + PermissionRows(name, permissions[1..]);
      assert u.permissions + PermissionRows(name, permissions[1..]) == t.permissions + PermissionRows(name, permissions);
    }
  }

  lemma {:induction false} RunInsertParents(t: Tables, name: string, parents: seq<string>)
    ensures Run(t, InsertParents(name, parents)) ==
            if Elements(parents) <= t.roles then Ok(t.(parents := t.parents + ParentRows(name, parents)))
            else Err(ParentNotFound)
    decreases |parents|
  {
    if parents == [] {
      assert t.parents + ParentRows(name, parents) == t.parents;
    } else {
      var m, rest, stmts := parents[0], parents[1..], InsertParents(name, parents);
      assert parents == [m] + rest;
      ElementsOfConcat([m], rest);
      assert Elements([m]) == {m};
      assert stmts[1..] == [InsertParent(name, m)] + InsertParents(name, rest);
      assert stmts[1..][1..] == InsertParents(name, rest);
      if m in t.roles {
        var u := t.(parents := t.parents + {(name, m)});
        RunInsertParents(u, name, rest);
        assert ParentRows(name, parents) == {(name, m)} + ParentRows(name, rest);
        assert u.parents + ParentRows(name, rest) == t.parents + ParentRows(name, parents);
      }
    }
  }

  /** Storing a role's rows in one step. */
  ghost function StoreRows(t: Tables, role: Role): Result<Tables> {
    if !(Elements(role.parents) <= t.roles) then Err(ParentNotFound)
    else
      var u := t.(permissions := t.permissions + PermissionRows(role.name, role.permissions),
                  parents := t.parents + ParentRows(role.name, role.parents));
      if ProperAncestor(u.parents, role.name, role.name) then Err(CycleDetected) else Ok(u)
  }

  lemma RunStoreStmts(t: Tables, role: Role)
    ensures Run(t, StoreStmts(role)) == StoreRows(t, role)
  {
    var a, b := InsertPermissions(role.name, role.permissions), InsertParents(role.name, role.parents);
    RunAppend(t, a + b, [RequireNoCycle(role.name)]);
    RunAppend(t, a, b);
    RunInsertPermissions(t, role.name, role.permissions);
    var u := t.(permissions := t.permissions + PermissionRows(role.name, role.permissions));
    RunInsertParents(u, role.name, role.parents);
    if Run(u, b).Ok? {
      RunSingle(Run(u, b).value, RequireNoCycle(role.name));
    }
  }

  function WithoutOwnRows(t: Tables, name: string): Tables {
    t.(permissions := NotOf(t.permissions, name),
       parents := NotOf(t.parents, name))
  }

  function WithoutRows(t: Tables, name: string): Tables {
    t.(roles := t.roles - {name},
       permissions := NotOf(t.permissions, name),
       parents := (set r | r in t.parents && r.0 != name && r.1 != name),
       rules := t.rules - {name}, metadata := t.metadata - {name})
  }

  /** What each transaction does to the tables as a whole. */
  ghost function WholeEffect(t: Tables, op: Op): Result<Tables> {
    if Precheck(op).Some? then Err(Precheck(op).value)
    else match op
      case AddRole(role) =>
        if role.name in t.roles then Err(RoleExists) else StoreRows(t.(roles := t.roles + {role.name}), role)
      case UpdateRole(role) =>
        if role.name !in t.roles then Err(RoleNotFound) else StoreRows(WithoutOwnRows(t, role.name), role)
      case DeleteRole(n) =>
        if n !in t.roles then Err(RoleNotFound)
        else if exists a :: a in t.assignments && a.1 == n then Err(RoleInUse)
        else Ok(WithoutRows(t, n))
      case AssignRole(u, n) => if n !in t.roles then Err(RoleNotFound) else Exec(t, InsertAssignment(u, n))
      case UnassignRole(u, n) => if n !in t.roles then Err(RoleNotFound) else Exec(t, DropAssignment(u, n))
      case SetRules(n, rules) => if n !in t.roles then Err(RoleNotFound) else Exec(t, UpsertRules(n, rules))
      case SetMetadata(n, m) => if n !in t.roles then Err(RoleNotFound) else Exec(t, UpsertMetadata(n, m))
  }

  lemma RunPair(t: Tables, a: Stmt, b: Stmt)
    ensures Run(t, [a, b]) == if Exec(t, a).Ok? then Exec(Exec(t, a).value, b) else Exec(t, a)
  {
    assert [a, b] == [a] + [b];
    RunAppend(t, [a], [b]);
    RunSingle(t, a);
    if Exec(t, a).Ok? {
      RunSingle(Exec(t, a).value, b);
    }
  }

  lemma DeleteStatements(t: Tables, n: string)
    requires n in t.roles && !exists a :: a in t.assignments && a.1 == n
    ensures Run(t, Compile(DeleteRole(n))) == Ok(WithoutRows(t, n))
  {
    var checks, details := [RequireRole(n, RoleNotFound), RequireUnused(n)], [DropRules(n), DropMetadata(n)];
    var rows := [DropLinksTo(n), DropLinksOf(n)] + [DropPermissions(n), DropRole(n)];
    assert Compile(DeleteRole(n)) == checks + (details + rows);
    DeleteChecks(t, n);
    var u := t.(rules := t.rules - {n}, metadata := t.metadata - {n});
    DeleteRoleRows(u, n);
    assert WithoutRows(u, n) == WithoutRows(t, n);
    RunInTurn(t, checks, t, details, u, rows, WithoutRows(t, n));
  }

  lemma RunInTurn(t: Tables, a: seq<Stmt>, u: Tables, b: seq<Stmt>, v: Tables, c: seq<Stmt>, w: Tables)
    requires Run(t, a) == Ok(u) && Run(u, b) == Ok(v) && Run(v, c) == Ok(w)
    ensures Run(t, a + (b + c)) == Ok(w)
  {
    RunAppend(t, a, b + c);
    RunAppend(u, b, c);
  }

  lemma DeleteChecks(t: Tables, n: string)
    requires n in t.roles && !exists a :: a in t.assignments && a.1 == n
    ensures Run(t, [RequireRole(n, RoleNotFound), RequireUnused(n)]) == Ok(t)
    ensures Run(t, [DropRules(n), DropMetadata(n)]) == Ok(t.(rules := t.rules - {n}, metadata := t.metadata - {n}))
  {
    assert Exec(t, RequireRole(n, RoleNotFound)) == Ok(t) && Exec(t, RequireUnused(n)) == Ok(t);
    RunPair(t, RequireRole(n, RoleNotFound), RequireUnused(n));
    var u := t.(rules := t.rules - {n});
    assert Exec(t, DropRules(n)) == Ok(u) && Exec(u, DropMetadata(n)) == Ok(u.(metadata := u.metadata - {n}));
    RunPair(t, DropRules(n), DropMetadata(n));
  }

  lemma DeleteRoleRows(t: Tables, n: string)
    requires n !in t.rules && n !in t.metadata
    ensures Run(t, [DropLinksTo(n), DropLinksOf(n)] + [DropPermissions(n), DropRole(n)]) == Ok(WithoutRows(t, n))
  {
    RunAppend(t, [DropLinksTo(n), DropLinksOf(n)], [DropPermissions(n), DropRole(n)]);
    RunPair(t, DropLinksTo(n), DropLinksOf(n));
    DropLinksTwice(t, n);
    DropRoleRows(t.(parents := WithoutRows(t, n).parents), n);
    assert t.rules - {n} == t.rules && t.metadata - {n} == t.metadata;
  }

  lemma DropRoleRows(t: Tables, n: string)
    ensures Run(t, [DropPermissions(n), DropRole(n)])
         == Ok(t.(roles := t.roles - {n}, permissions := NotOf(t.permissions, n)))
  {
    var u := t.(permissions := NotOf(t.permissions, n));
    assert Exec(t, DropPermissions(n)) == Ok(u);
    assert Exec(u, DropRole(n)) == Ok(u.(roles := u.roles - {n}));
    RunPair(t, DropPermissions(n), DropRole(n));
  }

  lemma DropLinksTwice(t: Tables, n: string)
    ensures Exec(Exec(t, DropLinksTo(n)).value, DropLinksOf(n)) == Ok(t.(parents := WithoutRows(t, n).parents))
  {
    assert Exec(Exec(t, DropLinksTo(n)).value, DropLinksOf(n)).value.parents == WithoutRows(t, n).parents;
  }

  lemma AddStatements(t: Tables, role: Role)
    requires ValidRole(role)
    ensures SqlApply(t, AddRole(role)) == WholeEffect(t, AddRole(role))
  {
    var head := [RequireNoRole(role.name), InsertRole(role.name)];
    RunAppend(t, head, StoreStmts(role));
    RunPair(t, head[0], head[1]);
    RunStoreStmts(t.(roles := t.roles + {role.name}), role);
  }

  lemma UpdateStatements(t: Tables, role: Role)
    requires ValidRole(role)
    ensures SqlApply(t, UpdateRole(role)) == WholeEffect(t, UpdateRole(role))
  {
    var check, head := RequireRole(role.name, RoleNotFound), [DropPermissions(role.name), DropLinksOf(role.name)];
    assert Compile(UpdateRole(role)) == [check] + (head + StoreStmts(role));
    RunAppend(t, [check], head + StoreStmts(role));
    RunSingle(t, check);
    ReplaceRows(t, role);
  }

  /** The old rows out and the new ones in. */
  lemma ReplaceRows(t: Tables, role: Role)
    ensures Run(t, [DropPermissions(role.name), DropLinksOf(role.name)] + StoreStmts(role))
         == StoreRows(WithoutOwnRows(t, role.name), role)
  {
    var head := [DropPermissions(role.name), DropLinksOf(role.name)];
    RunAppend(t, head, StoreStmts(role));
    DropOwnRows(t, role.name);
    RunStoreStmts(WithoutOwnRows(t, role.name), role);
  }

  lemma DropOwnRows(t: Tables, n: string)
    ensures Run(t, [DropPermissions(n), DropLinksOf(n)]) == Ok(WithoutOwnRows(t, n))
  {
    var u := t.(permissions := NotOf(t.permissions, n));
    assert Exec(t, DropPermissions(n)) == Ok(u) && Exec(u, DropLinksOf(n)) == Ok(WithoutOwnRows(t, n));
    RunPair(t, DropPermissions(n), DropLinksOf(n));
  }

  lemma RefusedDelete(t: Tables, n: string)
    requires n !in t.roles || exists a :: a in t.assignments && a.1 == n
    ensures SqlApply(t, DeleteRole(n)) == WholeEffect(t, DeleteRole(n))
  {
    var checks := [RequireRole(n, RoleNotFound), RequireUnused(n)];
    RunPair(t, checks[0], checks[1]);
    assert Compile(DeleteRole(n)) == checks + Compile(DeleteRole(n))[2..];
    RunAppend(t, checks, Compile(DeleteRole(n))[2..]);
  }

  /** The statement list of every operation has the effect stated for the whole transaction. */
  lemma SqlApplyIsEffect(t: Tables, op: Op)
    ensures SqlApply(t, op) == WholeEffect(t, op)
  {
    match op
    case AddRole(role) =>
      if ValidRole(role) { AddStatements(t, role); }
    case UpdateRole(role) =>
      if ValidRole(role) { UpdateStatements(t, role); }
    case DeleteRole(n) =>
      if n in t.roles && !exists a :: a in t.assignments && a.1 == n {
        DeleteStatements(t, n);
      } else {
        RefusedDelete(t, n);
      }
    case AssignRole(u, n) => RunPair(t, RequireRole(n, RoleNotFound), InsertAssignment(u, n));
    case UnassignRole(u, n) => RunPair(t, RequireRole(n, RoleNotFound), DropAssignment(u, n));
    case SetRules(n, rules) => RunPair(t, RequireRole(n, RoleNotFound), UpsertRules(n, rules));
    case SetMetadata(n, m) => RunPair(t, RequireRole(n, RoleNotFound), UpsertMetadata(n, m));
  }
}
