/**
 What the in-memory store holds, as a value: the role catalog, the user/role double index,
 rules and metadata; what each operation does to it; and the proof that this is the abstract
 policy, whatever the order of the operations.
 */
module MemoryContents {
  import opened Basics
  import opened ParentGraph
  import opened Rules
  import opened Policy
  import opened RoleClosure

  datatype Contents = Contents(
    roles: Catalog,
    users: map<string, seq<string>>,
    roleUsers: map<string, set<string>>,
    rules: map<string, seq<PolicyRule>>,
    metadata: map<string, map<string, string>>)

  const NOTHING := Contents(map[], map[], map[], map[], map[])

  /** The assignments recorded in the user index. */
  function Pairs(users: map<string, seq<string>>): set<(string, string)> {
    set u, r | u in users && r in users[u] :: (u, r)
  }

  ghost function View(c: Contents): Policy {
    Policy(Abstract(c.roles), Pairs(c.users), c.rules, c.metadata)
  }

  predicate NoRepeats<T(==)>(s: seq<T>) {
    forall i, j :: 0 <= i < j < |s| ==> s[i] != s[j]
  }

  /** The user index lists the role for the user. */
  predicate Holds(users: map<string, seq<string>>, user: string, role: string) {
    user in users && role in users[user]
  }

  /** The role index lists the user for the role. */
  predicate Indexed(roleUsers: map<string, set<string>>, user: string, role: string) {
    role in roleUsers && user in roleUsers[role]
  }

  /** The two assignment indexes are exact inverses, without repeats or dead entries. */
  ghost predicate IndexesAgree(users: map<string, seq<string>>, roleUsers: map<string, set<string>>) {
    && (forall u, r :: Holds(users, u, r) <==> Indexed(roleUsers, u, r))
    && (forall u :: u in users ==> NoRepeats(users[u]) && users[u] != [])
    && (forall r :: r in roleUsers ==> roleUsers[r] != {})
  }

  /** The store invariant. */
  ghost predicate Sound(c: Contents) {
    && IndexesAgree(c.users, c.roleUsers)
    && (forall n :: n in c.roles ==> c.roles[n].name == n)
    && Valid(View(c))
  }

  /** `s` with every occurrence of `x` removed, order kept. */
  function Without(s: seq<string>, x: string): (t: seq<string>)
    ensures |t| <= |s|
  {
    if s == [] then []
    else Without(s[..|s| - 1], x) + (if s[|s| - 1] == x then [] else [s[|s| - 1]])
  }

  lemma {:induction false} WithoutElements(s: seq<string>, x: string)
    ensures Elements(Without(s, x)) == Elements(s) - {x}
    ensures NoRepeats(s) ==> NoRepeats(Without(s, x))
  {
    if s != [] {
      var front, last := s[..|s| - 1], s[|s| - 1];
      assert s == front + [last];
      WithoutElements(front, x);
      ElementsOfConcat(front, [last]);
      ElementsOfConcat(Without(front, x), if last == x then [] else [last]);
      if NoRepeats(s) {
        assert NoRepeats(front);
        assert last !in front;
        assert last !in Elements(Without(front, x));
      }
    }
  }

  function Assigned(c: Contents, user: string): seq<string> {
    if user in c.users then c.users[user] else []
  }

  function AssignedTo(c: Contents, role: string): set<string> {
    if role in c.roleUsers then c.roleUsers[role] else {}
  }

  function DropUser(index: map<string, set<string>>, role: string, user: string): map<string, set<string>> {
    if role !in index then index
    else if index[role] - {user} == {} then index - {role}
    else index[role := index[role] - {user}]
  }

  function Placed(c: Contents, role: Role): Contents {
    c.(roles := c.roles[role.name := role])
  }

  /** Putting a role in place and searching for a cycle from it; undone when one is found. */
  ghost function PlaceRole(c: Contents, role: Role): Result<Contents> {
    if exists i :: 0 <= i < |role.parents| && role.parents[i] !in c.roles then Err(ParentNotFound)
    else
      if CycleAbove(GraphOf(Placed(c, role).roles), role.name) then Err(CycleDetected) else Ok(Placed(c, role))
  }

  /** The role gone, and gone from every child's parent list. */
  function Cascade(roles: Catalog, name: string): Catalog {
    map n | n in roles && n != name :: Role(n, roles[n].permissions, Without(roles[n].parents, name))
  }

  /** What one operation does to the contents. */
  ghost function MemApply(c: Contents, op: Op): Result<Contents> {
    match op
    case AddRole(role) =>
      if !ValidRole(role) then Err(InvalidRole)
      else if role.name in c.roles then Err(RoleExists)
      else PlaceRole(c, role)
    case UpdateRole(role) =>
      if !ValidRole(role) then Err(InvalidRole)
      else if role.name !in c.roles then Err(RoleNotFound)
      else PlaceRole(c, role)
    case DeleteRole(name) =>
      if name !in c.roles then Err(RoleNotFound)
      else if AssignedTo(c, name) != {} then Err(RoleInUse)
      else Ok(c.(roles := Cascade(c.roles, name),
                 roleUsers := c.roleUsers - {name}, rules := c.rules - {name}, metadata := c.metadata - {name}))
    case AssignRole(user, name) =>
      if name !in c.roles then Err(RoleNotFound)
      else if user in AssignedTo(c, name) then Ok(c)
      else Ok(c.(roleUsers := c.roleUsers[name := AssignedTo(c, name) + {user}],
                 users := c.users[user := Assigned(c, user) + [name]]))
    case UnassignRole(user, name) =>
      if name !in c.roles then Err(RoleNotFound)
      else
        var filtered := Without(Assigned(c, user), name);
        Ok(c.(roleUsers := if name in Assigned(c, user) then DropUser(c.roleUsers, name, user) else c.roleUsers,
              users := if filtered == [] then c.users - {user} else c.users[user := filtered]))
    case SetRules(name, rules) =>
      if !ValidRules(rules) then Err(InvalidPolicy)
      else if name !in c.roles then Err(RoleNotFound)
      else Ok(c.(rules := c.rules[name := rules]))
    case SetMetadata(name, metadata) =>
      if name !in c.roles then Err(RoleNotFound)
      else Ok(c.(metadata := c.metadata[name := metadata]))
  }

  lemma NeverCancelled(c: Contents, op: Op)
    ensures MemApply(c, op) != Err(Cancelled)
  {
  }

  /** The memory operation and the abstract one end the same way: same error or same policy. */
  ghost predicate Agrees(mem: Result<Contents>, spec: Result<Policy>) {
    match mem
    case Err(e) => spec == Err(e)
    case Ok(c) => spec == Ok(View(c)) && Sound(c)
  }

  lemma MissingParent(c: Contents, role: Role)
    ensures (exists i :: 0 <= i < |role.parents| && role.parents[i] !in c.roles)
       <==> (exists n :: n in role.parents && n !in View(c).roles)
  {
    if n :| n in role.parents && n !in c.roles {
      var i :| 0 <= i < |role.parents| && role.parents[i] == n;
    }
    if i :| 0 <= i < |role.parents| && role.parents[i] !in c.roles {
      assert role.parents[i] in role.parents;
    }
  }

  lemma PlacedView(c: Contents, role: Role)
    ensures View(Placed(c, role)) == WithRole(View(c), role)
  {
    assert Abstract(Placed(c, role).roles) == WithRole(View(c), role).roles;
  }

  /** The path-based search after the edit decides whether the whole new graph is acyclic. */
  lemma PlacedCycle(c: Contents, role: Role)
    requires Acyclic(Parents(View(c)))
    ensures CycleAbove(GraphOf(Placed(c, role).roles), role.name) <==> !Acyclic(Parents(WithRole(View(c), role)))
  {
    PlacedView(c, role);
    var g, h := Parents(View(c)), Parents(WithRole(View(c), role));
    assert h == GraphOf(Placed(c, role).roles);
    assert DiffersOnlyAt(g, h, role.name);
    CycleChecksAgree(g, h, role.name);
  }

  lemma PlaceRoleRefines(c: Contents, role: Role)
    requires Sound(c)
    ensures Agrees(PlaceRole(c, role), StoreRole(View(c), role))
  {
    MissingParent(c, role);
    PlacedView(c, role);
    PlacedCycle(c, role);
    if StoreRole(View(c), role).Ok? {
      StoreRoleKeepsValid(View(c), role);
    }
  }

  /** Filtering every parent list is removing the role and its links. */
  lemma CascadeView(c: Contents, name: string)
    ensures Abstract(Cascade(c.roles, name)) == WithoutRole(View(c), name).roles
  {
    forall n | n in c.roles && n != name
      ensures DataOf(Cascade(c.roles, name)[n]) == WithoutRole(View(c), name).roles[n]
    {
      WithoutElements(c.roles[n].parents, name);
    }
  }

  lemma DeleteRefines(c: Contents, name: string)
    requires Sound(c)
    ensures Agrees(MemApply(c, DeleteRole(name)), Apply(View(c), DeleteRole(name)))
  {
    var p := View(c);
    InUseByIndex(c, name);
    if name in c.roles && !InUse(p, name) {
      var d := MemApply(c, DeleteRole(name)).value;
      CascadeView(c, name);
      assert name !in c.roleUsers;
      assert d.roleUsers == c.roleUsers;
      ApplyKeepsValid(p, DeleteRole(name));
    }
  }

  lemma InUseByIndex(c: Contents, name: string)
    requires Sound(c)
    ensures InUse(View(c), name) <==> AssignedTo(c, name) != {}
  {
    var p := View(c);
    if u :| u in AssignedTo(c, name) {
      assert Holds(c.users, u, name);
      assert (u, name) in p.assignments;
    }
    if a :| a in p.assignments && a.1 == name {
      assert Holds(c.users, a.0, name);
    }
  }

  lemma AssignIndexes(c: Contents, user: string, name: string)
    requires IndexesAgree(c.users, c.roleUsers) && user !in AssignedTo(c, name)
    ensures IndexesAgree(c.users[user := Assigned(c, user) + [name]], c.roleUsers[name := AssignedTo(c, name) + {user}])
    ensures Pairs(c.users[user := Assigned(c, user) + [name]]) == Pairs(c.users) + {(user, name)}
  {
    var users, roleUsers := c.users[user := Assigned(c, user) + [name]], c.roleUsers[name := AssignedTo(c, name) + {user}];
    assert !Indexed(c.roleUsers, user, name) && !Holds(c.users, user, name);
    forall u, r ensures Holds(users, u, r) <==> Holds(c.users, u, r) || (u, r) == (user, name) {
    }
    forall u, r ensures Indexed(roleUsers, u, r) <==> Indexed(c.roleUsers, u, r) || (u, r) == (user, name) {
    }
    forall u, r ensures (u, r) in Pairs(users) <==> (u, r) in Pairs(c.users) + {(user, name)} {
      assert (u, r) in Pairs(users) <==> Holds(users, u, r);
      assert (u, r) in Pairs(c.users) <==> Holds(c.users, u, r);
    }
  }

  lemma AssignRefines(c: Contents, user: string, name: string)
    requires Sound(c)
    ensures Agrees(MemApply(c, AssignRole(user, name)), Apply(View(c), AssignRole(user, name)))
  {
    var op := AssignRole(user, name);
    if name in c.roles {
      ApplyKeepsValid(View(c), op);
      if user in AssignedTo(c, name) {
        assert Holds(c.users, user, name);
        assert (user, name) in Pairs(c.users);
        assert Pairs(c.users) + {(user, name)} == Pairs(c.users);
      } else {
        AssignIndexes(c, user, name);
      }
    }
  }

  lemma DropUserIndex(index: map<string, set<string>>, role: string, user: string, u: string, r: string)
    ensures Indexed(DropUser(index, role, user), u, r) <==> Indexed(index, u, r) && (u, r) != (user, role)
  {
    if role in index && index[role] - {user} == {} && Indexed(index, u, role) {
      assert u in index[role] - {user} || u == user;
    }
  }

  lemma UnassignIndexes(c: Contents, user: string, name: string, d: Contents)
    requires IndexesAgree(c.users, c.roleUsers) && name in c.roles && MemApply(c, UnassignRole(user, name)) == Ok(d)
    ensures IndexesAgree(d.users, d.roleUsers)
    ensures Pairs(d.users) == Pairs(c.users) - {(user, name)}
  {
    WithoutElements(Assigned(c, user), name);
    assert name in Assigned(c, user) <==> Holds(c.users, user, name);
    forall r ensures r in Without(Assigned(c, user), name) <==> r in Assigned(c, user) && r != name {
      assert r in Without(Assigned(c, user), name) <==> r in Elements(Assigned(c, user)) - {name};
    }
    forall u, r ensures Holds(d.users, u, r) <==> Holds(c.users, u, r) && (u, r) != (user, name) {
    }
    forall u, r ensures Indexed(d.roleUsers, u, r) <==> Indexed(c.roleUsers, u, r) && (u, r) != (user, name) {
      assert Holds(c.users, user, name) <==> Indexed(c.roleUsers, user, name);
      DropUserIndex(c.roleUsers, name, user, u, r);
    }
    forall u, r ensures (u, r) in Pairs(d.users) <==> (u, r) in Pairs(c.users) - {(user, name)} {
      assert (u, r) in Pairs(d.users) <==> Holds(d.users, u, r);
      assert (u, r) in Pairs(c.users) <==> Holds(c.users, u, r);
    }
  }

  lemma UnassignRefines(c: Contents, user: string, name: string)
    requires Sound(c)
    ensures Agrees(MemApply(c, UnassignRole(user, name)), Apply(View(c), UnassignRole(user, name)))
  {
    var op := UnassignRole(user, name);
    if name in c.roles {
      ApplyKeepsValid(View(c), op);
      UnassignIndexes(c, user, name, MemApply(c, op).value);
    }
  }

  lemma DetailsRefine(c: Contents, op: Op)
    requires Sound(c) && (op.SetRules? || op.SetMetadata?)
    ensures Agrees(MemApply(c, op), Apply(View(c), op))
  {
    if Apply(View(c), op).Ok? {
      ApplyKeepsValid(View(c), op);
    }
  }

  /** The memory store refines the abstract policy, operation by operation, and stays sound. */
  lemma MemoryRefines(c: Contents, op: Op)
    requires Sound(c)
    ensures Agrees(MemApply(c, op), Apply(View(c), op))
  {
    match op
    case AddRole(role) =>
      if ValidRole(role) { PlaceRoleRefines(c, role); }
    case UpdateRole(role) =>
      if ValidRole(role) { PlaceRoleRefines(c, role); }
    case DeleteRole(name) => DeleteRefines(c, name);
    case AssignRole(user, name) => AssignRefines(c, user, name);
    case UnassignRole(user, name) => UnassignRefines(c, user, name);
    case SetRules(_, _) => DetailsRefine(c, op);
    case SetMetadata(_, _) => DetailsRefine(c, op);
  }

  /** A run of operations against the memory store; a failed one changes nothing. */
  ghost function MemPerformAll(c: Contents, ops: seq<Op>): Contents
    decreases |ops|
  {
    if ops == [] then c
    else MemPerformAll(if MemApply(c, ops[0]).Ok? then MemApply(c, ops[0]).value else c, ops[1..])
  }

  /** The store invariant and the refinement hold over all runs. */
  lemma {:induction false} MemoryRunsRefine(c: Contents, ops: seq<Op>)
    requires Sound(c)
    ensures Sound(MemPerformAll(c, ops))
    ensures View(MemPerformAll(c, ops)) == PerformAll(View(c), ops)
    decreases |ops|
  {
    if ops != [] {
      MemoryRefines(c, ops[0]);
      MemoryRunsRefine(if MemApply(c, ops[0]).Ok? then MemApply(c, ops[0]).value else c, ops[1..]);
    }
  }

  lemma NothingSound()
    ensures Sound(NOTHING) && View(NOTHING) == EMPTY
  {
  }
}
