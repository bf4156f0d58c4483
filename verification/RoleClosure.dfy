/**
 The engine's recursive walks over the parent relation, and the iterative form they must
 agree with. All of them work on the role catalog as the store returns it, with parents and
 permissions in lists, on any graph: cyclic, dangling or with shared ancestors.
 */
module RoleClosure {
  import opened Basics
  import opened ParentGraph
  import opened Rules
  import opened Policy

  type Catalog = map<string, Role>

  /** The catalog up to order and repetition. */
  function Abstract(c: Catalog): map<string, RoleData> {
    map n | n in c :: DataOf(c[n])
  }

  function GraphOf(c: Catalog): Graph {
    Links(Abstract(c))
  }

  /** A walk up from `name` enters a cycle or meets a role that is already on the path. */
  ghost predicate Loops(g: Graph, name: string, visiting: set<string>) {
    CycleAbove(g, name) || exists v :: v in visiting && Reaches(g, name, v)
  }

  lemma LoopsThroughParent(g: Graph, name: string, parent: string, visiting: set<string>)
    requires Edge(g, name, parent) && Loops(g, parent, visiting + {name})
    ensures Loops(g, name, visiting)
  {
    if Reaches(g, parent, name) {
      ReachesSelf(g, name);
      assert OnCycle(g, name);
    } else if CycleAbove(g, parent) {
      var c :| Reaches(g, parent, c) && OnCycle(g, c);
      ReachesByEdge(g, name, parent, c);
    } else {
      var v :| v in visiting + {name} && Reaches(g, parent, v);
      ReachesByEdge(g, name, parent, v);
    }
  }

  lemma LoopsEntersParent(g: Graph, name: string, visiting: set<string>) returns (b: string)
    requires name !in visiting && Loops(g, name, visiting)
    ensures Edge(g, name, b) && Loops(g, b, visiting + {name})
  {
    if OnCycle(g, name) {
      b :| Edge(g, name, b) && Reaches(g, b, name);
      assert name in visiting + {name};
    } else if CycleAbove(g, name) {
      var c :| Reaches(g, name, c) && OnCycle(g, c);
      b := FirstEdge(g, name, c);
    } else {
      var v :| v in visiting && Reaches(g, name, v);
      b := FirstEdge(g, name, v);
      assert v in visiting + {name};
    }
  }

  lemma NoLoopIfParentsClean(g: Graph, name: string, visiting: set<string>)
    requires name !in visiting
    requires forall b :: Edge(g, name, b) ==> !Loops(g, b, visiting + {name})
    ensures !Loops(g, name, visiting)
  {
    if Loops(g, name, visiting) {
      var b := LoopsEntersParent(g, name, visiting);
      assert false;
    }
  }

  /**
   The store's depth-first search. `visiting` is the path; the recursion is bounded by the
   roles not on it. On success the path is restored. Called with an empty path it reports a
   cycle exactly when one can be reached from `name`.
   */
  method DetectCycle(c: Catalog, name: string, visiting: set<string>) returns (cyclic: bool, after: set<string>)
    ensures cyclic <==> Loops(GraphOf(c), name, visiting)
    ensures !cyclic ==> after == visiting
    ensures visiting == {} ==> (cyclic <==> CycleAbove(GraphOf(c), name))
    decreases c.Keys - visiting
  {
    ghost var g := GraphOf(c);
    if name in visiting {
      ReachesSelf(g, name);
      return true, visiting;
    }
    if name !in c {
      NoLoopIfParentsClean(g, name, visiting);
      return false, visiting;
    }
    after := visiting + {name};
    var parents := c[name].parents;
    for i := 0 to |parents|
      invariant after == visiting + {name}
      invariant forall j :: 0 <= j < i ==> !Loops(g, parents[j], visiting + {name})
    {
      cyclic, after := DetectCycle(c, parents[i], after);
      if cyclic {
        LoopsThroughParent(g, name, parents[i], visiting);
        return true, after;
      }
    }
    NoLoopIfParentsClean(g, name, visiting);
    return false, after - {name};
  }

  // ---- Effective permissions ----

  /** The existing roles reached from `name`. */
  ghost function ReachedRoles(roles: map<string, RoleData>, name: string): set<string> {
    set n | n in roles && Reaches(Links(roles), name, n)
  }

  /** Everything `name` confers: its own permissions and those of its ancestors. */
  ghost function Confers(roles: map<string, RoleData>, name: string): set<Permission> {
    PermissionsOf(roles, ReachedRoles(roles, name))
  }

  /** What several names confer together. */
  ghost function ConfersSet(roles: map<string, RoleData>, names: set<string>): set<Permission> {
    PermissionsOf(roles, set n, m | n in names && m in ReachedRoles(roles, n) :: m)
  }

  ghost function ConfersAll(roles: map<string, RoleData>, names: seq<string>): set<Permission> {
    ConfersSet(roles, Elements(names))
  }

  lemma ConfersAllMember(roles: map<string, RoleData>, names: seq<string>, q: Permission)
    ensures q in ConfersAll(roles, names) <==> exists n :: n in names && q in Confers(roles, n)
  {
    if q in ConfersAll(roles, names) {
      var m :| m in (set n, m | n in Elements(names) && m in ReachedRoles(roles, n) :: m) && m in roles && q in roles[m].permissions;
      var n :| n in Elements(names) && m in ReachedRoles(roles, n);
      assert q in Confers(roles, n);
    }
  }

  lemma ConfersAllAppend(roles: map<string, RoleData>, a: seq<string>, b: seq<string>)
    ensures ConfersAll(roles, a + b) == ConfersAll(roles, a) + ConfersAll(roles, b)
  {
    forall q ensures q in ConfersAll(roles, a + b) <==> q in ConfersAll(roles, a) + ConfersAll(roles, b) {
      ConfersAllMember(roles, a + b, q);
      ConfersAllMember(roles, a, q);
      ConfersAllMember(roles, b, q);
    }
  }

  lemma ConfersAllSingle(roles: map<string, RoleData>, name: string)
    ensures ConfersAll(roles, [name]) == Confers(roles, name)
  {
    forall q ensures q in ConfersAll(roles, [name]) <==> q in Confers(roles, name) {
      ConfersAllMember(roles, [name], q);
      assert name in [name];
    }
  }

  /** A role confers its own permissions and whatever its parents confer. */
  lemma ConfersUnfold(roles: map<string, RoleData>, name: string, parents: seq<string>)
    requires name in roles && Elements(parents) == roles[name].parents
    ensures Confers(roles, name) == roles[name].permissions + ConfersAll(roles, parents)
  {
    var g := Links(roles);
    ReachesSelf(g, name);
    assert name in ReachedRoles(roles, name);
    forall q ensures q in Confers(roles, name) <==> q in roles[name].permissions + ConfersAll(roles, parents) {
      ConfersAllMember(roles, parents, q);
      if q in Confers(roles, name) {
        var m :| m in ReachedRoles(roles, name) && q in roles[m].permissions;
        if m != name {
          var b := FirstEdge(g, name, m);
          assert b in Elements(parents) && m in ReachedRoles(roles, b);
          assert q in Confers(roles, b);
        }
      }
      if q in ConfersAll(roles, parents) {
        var b :| b in parents && q in Confers(roles, b);
        var m :| m in ReachedRoles(roles, b) && q in roles[m].permissions;
        assert b in Elements(parents);
        ReachesByEdge(g, name, b, m);
        assert m in ReachedRoles(roles, name);
      }
    }
  }

  lemma ConfersNothing(roles: map<string, RoleData>, name: string)
    requires name !in roles
    ensures Confers(roles, name) == {}
  {
    if q :| q in Confers(roles, name) {
      var m :| m in ReachedRoles(roles, name) && q in roles[m].permissions;
      var b := FirstEdge(Links(roles), name, m);
      assert false;
    }
  }

  /**
   The recursive union of permissions into `perm`. It fails exactly when a cycle is met; on
   success it has added precisely what the role confers. The path is restored either way.
   */
  method CollectEffective(c: Catalog, name: string, perm: set<Permission>, visiting: set<string>)
    returns (failed: bool, out: set<Permission>)
    ensures failed <==> Loops(GraphOf(c), name, visiting)
    ensures !failed ==> out == perm + Confers(Abstract(c), name)
    decreases c.Keys - visiting
  {
    ghost var g, roles := GraphOf(c), Abstract(c);
    if name in visiting {
      ReachesSelf(g, name);
      return true, perm;
    }
    if name !in c {
      ConfersNothing(roles, name);
      NoLoopIfParentsClean(g, name, visiting);
      return false, perm;
    }
    var parents := c[name].parents;
    out := perm + Elements(c[name].permissions);
    for i := 0 to |parents|
      invariant forall j :: 0 <= j < i ==> !Loops(g, parents[j], visiting + {name})
      invariant out == perm + roles[name].permissions + ConfersAll(roles, parents[..i])
    {
      failed, out := CollectEffective(c, parents[i], out, visiting + {name});
      if failed {
        LoopsThroughParent(g, name, parents[i], visiting);
        return true, out;
      }
      assert parents[..i + 1] == parents[..i] + [parents[i]];
      ConfersAllAppend(roles, parents[..i], [parents[i]]);
      ConfersAllSingle(roles, parents[i]);
    }
    assert parents[..|parents|] == parents;
    ConfersUnfold(roles, name, parents);
    NoLoopIfParentsClean(g, name, visiting);
    return false, out;
  }

  /** What the assigned roles confer together is the user's effective set. */
  lemma EffectiveIsConferred(p: Policy, user: string, names: seq<string>)
    requires forall n :: n in names <==> (user, n) in p.assignments
    ensures ConfersAll(p.roles, names) == Effective(p, user)
  {
    forall m ensures (exists n :: n in Elements(names) && m in ReachedRoles(p.roles, n)) <==> m in HeldRoles(p, user) {
      if m in HeldRoles(p, user) {
        var a :| (user, a) in p.assignments && Reaches(Parents(p), a, m);
        assert a in Elements(names) && m in ReachedRoles(p.roles, a);
      }
    }
  }

  /**
   The uncached lookup. It succeeds exactly when no assigned role has a cycle above it, and
   then returns the effective set, so on a valid policy it never fails.
   */
  method ComputeEffective(c: Catalog, direct: seq<string>, ghost p: Policy, ghost user: string)
    returns (failed: bool, perm: set<Permission>)
    requires p.roles == Abstract(c) && forall n :: n in direct <==> (user, n) in p.assignments
    ensures failed <==> exists n :: n in direct && CycleAbove(Parents(p), n)
    ensures !failed ==> perm == Effective(p, user)
    ensures Valid(p) ==> !failed
  {
    perm := {};
    for i := 0 to |direct|
      invariant forall j :: 0 <= j < i ==> !CycleAbove(Parents(p), direct[j])
      invariant perm == ConfersAll(p.roles, direct[..i])
    {
      failed, perm := CollectEffective(c, direct[i], perm, {});
      if failed {
        assert direct[i] in direct && CycleAbove(Parents(p), direct[i]);
        return;
      }
      assert direct[..i + 1] == direct[..i] + [direct[i]];
      ConfersAllAppend(p.roles, direct[..i], [direct[i]]);
      ConfersAllSingle(p.roles, direct[i]);
    }
    assert direct[..|direct|] == direct;
    EffectiveIsConferred(p, user, direct);
    return false, perm;
  }

  // ---- Inherited role names ----

  /** Every existing parent of a newly seen role is seen. */
  ghost predicate ClosedBeyond(c: Catalog, before: set<string>, seen: set<string>) {
    forall n, m :: n in seen - before && n in c && m in c[n].parents && m in c ==> m in seen
  }

  /**
   The recursive collection of inherited names. It terminates on any graph; new names are
   existing roles reached from `name`, and nothing above them is missing.
   */
  method CollectRoleNames(c: Catalog, name: string, seen: set<string>) returns (out: set<string>)
    requires seen <= c.Keys
    ensures seen <= out <= c.Keys
    ensures name in c ==> name in out
    ensures forall n :: n in out - seen ==> Reaches(GraphOf(c), name, n)
    ensures ClosedBeyond(c, seen, out)
    decreases c.Keys - seen
  {
    if name in seen || name !in c {
      return seen;
    }
    out := seen + {name};
    var parents := c[name].parents;
    ReachesSelf(GraphOf(c), name);
    for i := 0 to |parents|
      invariant seen + {name} <= out <= c.Keys
      invariant forall n :: n in out - seen ==> Reaches(GraphOf(c), name, n)
      invariant ClosedBeyond(c, seen + {name}, out)
      invariant forall j :: 0 <= j < i && parents[j] in c ==> parents[j] in out
    {
      var before := out;
      out := CollectRoleNames(c, parents[i], before);
      forall n | n in out - before ensures Reaches(GraphOf(c), name, n) {
        assert Edge(GraphOf(c), name, parents[i]);
        ReachesByEdge(GraphOf(c), name, parents[i], n);
      }
    }
  }

  /** A set of existing roles closed under existing parents contains all that its members reach. */
  lemma ClosedHoldsReached(c: Catalog, seen: set<string>, a: string, n: string)
    requires a in seen && seen <= c.Keys && ClosedBeyond(c, {}, seen) && Reaches(GraphOf(c), a, n) && n in c
    ensures n in seen
  {
    var g := GraphOf(c);
    var dangling := set x, m | x in c && m in c[x].parents && m !in c :: m;
    var closed := seen + dangling;
    forall x, y | x in closed && Edge(g, x, y) ensures y in closed {
      assert x in seen;
    }
    ClosedContainsReach(g, closed, a, n);
  }

  lemma StaysClosed(c: Catalog, before: set<string>, seen: set<string>)
    requires ClosedBeyond(c, {}, before) && ClosedBeyond(c, before, seen) && before <= seen
    ensures ClosedBeyond(c, {}, seen)
  {
    forall n, m | n in seen && n in c && m in c[n].parents && m in c ensures m in seen {
      assert n in before - {} || n in seen - before;
    }
  }

  ghost predicate FromRoots(c: Catalog, roots: seq<string>, n: string) {
    exists a :: a in roots && Reaches(GraphOf(c), a, n)
  }

  /** All inherited names of a user: exactly the existing roles reachable from the assigned ones. */
  method CollectAllRoleNames(c: Catalog, direct: seq<string>) returns (seen: set<string>)
    ensures forall n :: n in seen <==> n in c && exists a :: a in direct && Reaches(GraphOf(c), a, n)
  {
    seen := {};
    for i := 0 to |direct|
      invariant seen <= c.Keys && ClosedBeyond(c, {}, seen)
      invariant forall n :: n in seen ==> FromRoots(c, direct, n)
      invariant forall j :: 0 <= j < i && direct[j] in c ==> direct[j] in seen
    {
      var before := seen;
      seen := CollectRoleNames(c, direct[i], before);
      forall n | n in seen - before ensures FromRoots(c, direct, n) {
        assert direct[i] in direct;
      }
      StaysClosed(c, before, seen);
    }
    forall n, a | n in c && a in direct && Reaches(GraphOf(c), a, n) ensures n in seen {
      if a != n {
        var b := FirstEdge(GraphOf(c), a, n);
        ClosedHoldsReached(c, seen, a, n);
      }
    }
  }

  /** Whether a user holds a role, directly or by inheritance. */
  method HasRole(c: Catalog, direct: seq<string>, name: string, ghost p: Policy, ghost user: string) returns (held: bool)
    requires p.roles == Abstract(c) && forall n :: n in direct <==> (user, n) in p.assignments
    ensures held <==> name in HeldRoles(p, user)
  {
    var seen := CollectAllRoleNames(c, direct);
    held := name in seen;
    assert Parents(p) == GraphOf(c);
    if name in HeldRoles(p, user) {
      var a :| (user, a) in p.assignments && Reaches(Parents(p), a, name);
      assert a in direct;
    }
  }

  // ---- The iterative form ----

  /** Seen and stacked names are exactly the roots and what is known so far to lie above them. */
  ghost predicate WorklistInvariant(c: Catalog, roots: seq<string>, seen: set<string>, stack: set<string>) {
    Known(c, roots, seen, seen + stack)
  }

  ghost predicate Known(c: Catalog, roots: seq<string>, seen: set<string>, known: set<string>) {
    && (forall n :: n in roots ==> n in known)
    && (forall n, m :: n in seen && Edge(GraphOf(c), n, m) ==> m in known)
    && (forall n :: n in known ==> FromRoots(c, roots, n))
  }

  lemma FromRootsByEdge(c: Catalog, roots: seq<string>, n: string, m: string)
    requires FromRoots(c, roots, n) && Edge(GraphOf(c), n, m)
    ensures FromRoots(c, roots, m)
  {
    var a :| a in roots && Reaches(GraphOf(c), a, n);
    ReachesSelf(GraphOf(c), m);
    ReachesByEdge(GraphOf(c), n, m, m);
    ReachesTrans(GraphOf(c), a, n, m);
  }

  /** Marking one name and stacking its parents keeps the invariant. */
  lemma WorklistStep(c: Catalog, roots: seq<string>, seen: set<string>, stack: set<string>, name: string, rest: set<string>)
    requires WorklistInvariant(c, roots, seen, stack) && stack == rest + {name}
    ensures WorklistInvariant(c, roots, seen + {name}, rest + (if name in c then Elements(c[name].parents) else {}))
  {
    var up := if name in c then Elements(c[name].parents) else {};
    OneMoreSeen(c, roots, seen, seen + stack, name, up);
    assert seen + {name} + (rest + up) == seen + stack + up;
  }

  lemma OneMoreSeen(c: Catalog, roots: seq<string>, seen: set<string>, known: set<string>, name: string, up: set<string>)
    requires Known(c, roots, seen, known) && name in known
    requires up == if name in c then Elements(c[name].parents) else {}
    ensures Known(c, roots, seen + {name}, known + up)
  {
    forall m | m in up ensures FromRoots(c, roots, m) {
      assert Edge(GraphOf(c), name, m);
      FromRootsByEdge(c, roots, name, m);
    }
  }

  lemma PermissionsOfOneMore(c: Catalog, seen: set<string>, name: string)
    ensures PermissionsOf(Abstract(c), seen + {name})
         == PermissionsOf(Abstract(c), seen) + (if name in c then Elements(c[name].permissions) else {})
  {
    var roles := Abstract(c);
    var own := if name in c then Elements(c[name].permissions) else {};
    forall q ensures q in PermissionsOf(roles, seen + {name}) <==> q in PermissionsOf(roles, seen) + own {
      if q in PermissionsOf(roles, seen + {name}) {
        var n :| n in seen + {name} && n in roles && q in roles[n].permissions;
        assert n in seen || n == name;
      }
      if q in PermissionsOf(roles, seen) {
        var n :| n in seen && n in roles && q in roles[n].permissions;
        assert n in seen + {name};
      }
      if q in own {
        assert name in seen + {name} && name in roles && q in roles[name].permissions;
      }
    }
  }

  lemma SplitLast<T>(s: seq<T>)
    requires s != []
    ensures s == s[..|s| - 1] + [s[|s| - 1]]
  {
  }

  lemma PopSeen(c: Catalog, roots: seq<string>, seen: set<string>, rest: seq<string>, name: string)
    requires name in seen && WorklistInvariant(c, roots, seen, Elements(rest + [name]))
    ensures WorklistInvariant(c, roots, seen, Elements(rest))
  {
    assert seen + Elements(rest + [name]) == seen + Elements(rest);
  }

  lemma PopNew(c: Catalog, roots: seq<string>, seen: set<string>, rest: seq<string>, name: string, up: seq<string>)
    requires up == if name in c then c[name].parents else []
    requires WorklistInvariant(c, roots, seen, Elements(rest + [name]))
    ensures WorklistInvariant(c, roots, seen + {name}, Elements(rest + up))
  {
    ElementsOfConcat(rest, [name]);
    ElementsOfConcat(rest, up);
    assert Elements([name]) == {name};
    WorklistStep(c, roots, seen, Elements(rest + [name]), name, Elements(rest));
  }

  lemma OneFewerUnseen(c: Catalog, seen: set<string>, name: string)
    requires name !in seen
    ensures var unseen := c.Keys - (seen + {name});
      if name in c then unseen < c.Keys - seen else unseen == c.Keys - seen
  {
    if name in c {
      assert name in c.Keys - seen;
    } else {
      assert c.Keys - (seen + {name}) == c.Keys - seen;
    }
  }

  /** The stack-based traversal over the same graph; it agrees with the recursive form. */
  method EffectiveByWorklist(c: Catalog, roots: seq<string>) returns (out: set<Permission>)
    ensures out == ConfersAll(Abstract(c), roots)
  {
    out := {};
    var seen: set<string> := {};
    var stack := roots;
    forall n | n in roots ensures FromRoots(c, roots, n) {
      ReachesSelf(GraphOf(c), n);
    }
    while |stack| > 0
      invariant WorklistInvariant(c, roots, seen, Elements(stack))
      invariant out == PermissionsOf(Abstract(c), seen)
      decreases c.Keys - seen, |stack|
    {
      var rest, name := stack[..|stack| - 1], stack[|stack| - 1];
      SplitLast(stack);
      if name in seen {
        PopSeen(c, roots, seen, rest, name);
        stack := rest;
      } else {
        var parents := if name in c then c[name].parents else [];
        PopNew(c, roots, seen, rest, name, parents);
        PermissionsOfOneMore(c, seen, name);
        OneFewerUnseen(c, seen, name);
        out := out + (if name in c then Elements(c[name].permissions) else {});
        seen := seen + {name};
        stack := rest + parents;
      }
    }
    WorklistComplete(c, roots, seen);
  }

  lemma WorklistComplete(c: Catalog, roots: seq<string>, seen: set<string>)
    requires WorklistInvariant(c, roots, seen, {})
    ensures PermissionsOf(Abstract(c), seen) == ConfersAll(Abstract(c), roots)
  {
    var reached := set n, m | n in Elements(roots) && m in ReachedRoles(Abstract(c), n) :: m;
    forall m | m in reached ensures m in seen {
      var a :| a in Elements(roots) && m in ReachedRoles(Abstract(c), a);
      ClosedContainsReach(GraphOf(c), seen, a, m);
    }
    forall m | m in c && m in seen ensures m in reached {
      assert FromRoots(c, roots, m);
      var a :| a in roots && Reaches(GraphOf(c), a, m);
      assert m in ReachedRoles(Abstract(c), a);
    }
  }
}
