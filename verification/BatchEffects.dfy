/**
 What a successful batch leaves, told by its parts: registrations and updates, rules and metadata,
 then unassignments, assignments and deletions.
 */
module BatchEffects {
  import opened Basics
  import opened Rules
  import opened Policy
  import opened MemoryContents
  import opened PolicyBatch
  import opened Effects

  lemma {:induction false} RunAllAppend(p: Policy, a: seq<Op>, b: seq<Op>)
    ensures RunAll(p, a + b) == if RunAll(p, a).Ok? then RunAll(RunAll(p, a).value, b) else RunAll(p, a)
    decreases |a|
  {
    if a == [] {
      assert a + b == b;
    } else {
      assert (a + b)[0] == a[0] && (a + b)[1..] == a[1..] + b;
      if Apply(p, a[0]).Ok? {
        RunAllAppend(Apply(p, a[0]).value, a[1..], b);
      }
    }
  }

  /** The same roles, with the same permissions and parents, rules and metadata. */
  ghost predicate OnlyAssignments(p: Policy, q: Policy) {
    q == p.(assignments := q.assignments)
  }

  lemma {:induction false} AssignStage(p: Policy, ops: seq<Op>)
    requires (forall op :: op in ops ==> op.AssignRole?) && RunAll(p, ops).Ok?
    ensures var q := RunAll(p, ops).value;
      OnlyAssignments(p, q) && forall u, n :: (u, n) in q.assignments <==> (u, n) in p.assignments || AssignRole(u, n) in ops
    decreases |ops|
  {
    if ops != [] {
      assert ops == [ops[0]] + ops[1..] && ops[0] in ops && forall op :: op in ops[1..] ==> op in ops;
      AssignStage(Apply(p, ops[0]).value, ops[1..]);
      forall u, n ensures AssignRole(u, n) in ops <==> AssignRole(u, n) == ops[0] || AssignRole(u, n) in ops[1..] {
      }
    }
  }

  lemma {:induction false} UnassignStage(p: Policy, ops: seq<Op>)
    requires (forall op :: op in ops ==> op.UnassignRole?) && RunAll(p, ops).Ok?
    ensures var q := RunAll(p, ops).value;
      OnlyAssignments(p, q) && forall u, n :: (u, n) in q.assignments <==> (u, n) in p.assignments && UnassignRole(u, n) !in ops
    decreases |ops|
  {
    if ops != [] {
      assert ops == [ops[0]] + ops[1..] && ops[0] in ops && forall op :: op in ops[1..] ==> op in ops;
      UnassignStage(Apply(p, ops[0]).value, ops[1..]);
      forall u, n ensures UnassignRole(u, n) in ops <==> UnassignRole(u, n) == ops[0] || UnassignRole(u, n) in ops[1..] {
      }
    }
  }

  /** Roles of the given names are gone; the others keep permissions, rules and metadata. */
  ghost predicate Without(p: Policy, q: Policy, gone: set<string>) {
    && q.assignments == p.assignments
    && (forall n :: n in q.roles <==> n in p.roles && n !in gone)
    && (forall n :: n in q.roles ==> q.roles[n].permissions == p.roles[n].permissions && q.roles[n].parents == p.roles[n].parents - gone)
    && (forall n :: n in q.rules <==> n in p.rules && n !in gone) && (forall n :: n in q.rules ==> q.rules[n] == p.rules[n])
    && (forall n :: n in q.metadata <==> n in p.metadata && n !in gone)
    && (forall n :: n in q.metadata ==> q.metadata[n] == p.metadata[n])
  }

  function Deleted(ops: seq<Op>): set<string> {
    set op | op in ops && op.DeleteRole? :: op.name
  }

  lemma {:induction false} DeleteStage(p: Policy, ops: seq<Op>)
    requires (forall op :: op in ops ==> op.DeleteRole?) && RunAll(p, ops).Ok?
    ensures Without(p, RunAll(p, ops).value, Deleted(ops))
    decreases |ops|
  {
    if ops == [] {
      assert Deleted(ops) == {};
    } else {
      assert ops == [ops[0]] + ops[1..] && ops[0] in ops && forall op :: op in ops[1..] ==> op in ops;
      var q := Apply(p, ops[0]).value;
      DeleteStage(q, ops[1..]);
      assert Deleted(ops) == {ops[0].name} + Deleted(ops[1..]);
      OneMoreGone(p, q, RunAll(q, ops[1..]).value, ops[0].name, Deleted(ops[1..]));
    }
  }

  lemma OneMoreGone(p: Policy, q: Policy, r: Policy, name: string, gone: set<string>)
    requires q == WithoutRole(p, name) && Without(q, r, gone)
    ensures Without(p, r, {name} + gone)
  {
    forall n | n in r.roles ensures r.roles[n].parents == p.roles[n].parents - ({name} + gone) {
      assert p.roles[n].parents - {name} - gone == p.roles[n].parents - ({name} + gone);
    }
  }

  /** The last of the operations that stores a role of this name. */
  function LastStored(ops: seq<Op>, name: string): Option<Role>
    decreases |ops|
  {
    if ops == [] then None
    else
      var later := LastStored(ops[1..], name);
      if later.Some? then later
      else if (ops[0].AddRole? || ops[0].UpdateRole?) && ops[0].role.name == name then Some(ops[0].role) else None
  }

  /** The roles named are stored as last given, and nothing else has changed. */
  ghost predicate Stores(p: Policy, q: Policy, ops: seq<Op>) {
    && q == p.(roles := q.roles)
    && forall n :: match LastStored(ops, n)
         case Some(role) => n in q.roles && q.roles[n] == DataOf(role)
         case None => (n in q.roles <==> n in p.roles) && (n in p.roles ==> q.roles[n] == p.roles[n])
  }

  lemma OneMoreStored(p: Policy, q: Policy, r: Policy, ops: seq<Op>)
    requires ops != [] && (ops[0].AddRole? || ops[0].UpdateRole?) && q == WithRole(p, ops[0].role) && Stores(q, r, ops[1..])
    ensures Stores(p, r, ops)
  {
  }

  lemma {:induction false} StoreStage(p: Policy, ops: seq<Op>)
    requires (forall op :: op in ops ==> op.AddRole? || op.UpdateRole?) && RunAll(p, ops).Ok?
    ensures Stores(p, RunAll(p, ops).value, ops)
    decreases |ops|
  {
    if ops != [] {
      assert ops[0] in ops && forall op :: op in ops[1..] ==> op in ops;
      StoreStage(Apply(p, ops[0]).value, ops[1..]);
      OneMoreStored(p, Apply(p, ops[0]).value, RunAll(p, ops).value, ops);
    }
  }

  lemma {:induction false} RulesStage(p: Policy, m: map<string, seq<PolicyRule>>, order: seq<string>)
    requires Elements(order) <= m.Keys && RunAll(p, RuleOps(m, order)).Ok?
    ensures RunAll(p, RuleOps(m, order)).value == p.(rules := p.rules + Picked(m, Elements(order)))
    decreases |order|
  {
    if order == [] {
      assert p.rules + Picked(m, Elements(order)) == p.rules;
    } else {
      var n, rest := order[0], order[1..];
      PickedCons(p.rules, m, order);
      assert RuleOps(m, order)[1..] == RuleOps(m, rest);
      assert RuleOps(m, order)[0] == SetRules(n, m[n]);
      RulesStage(p.(rules := p.rules[n := m[n]]), m, rest);
    }
  }

  lemma {:induction false} MetadataStageSets(p: Policy, m: map<string, map<string, string>>, order: seq<string>)
    requires Elements(order) <= m.Keys && RunAll(p, MetadataOps(m, order)).Ok?
    ensures RunAll(p, MetadataOps(m, order)).value == p.(metadata := p.metadata + Picked(m, Elements(order)))
    decreases |order|
  {
    if order == [] {
      assert p.metadata + Picked(m, Elements(order)) == p.metadata;
    } else {
      var n, rest := order[0], order[1..];
      PickedCons(p.metadata, m, order);
      assert MetadataOps(m, order)[1..] == MetadataOps(m, rest);
      assert MetadataOps(m, order)[0] == SetMetadata(n, m[n]);
      MetadataStageSets(p.(metadata := p.metadata[n := m[n]]), m, rest);
    }
  }

  /** A batch is refused for a role without content before anything else, and then for a bad rule. */
  lemma BatchRefusals(b: Batch)
    ensures BatchFault(b) == Some(InvalidRole) <==> exists role :: role in b.register + b.update && !FullRole(role)
    ensures BatchFault(b) == Some(InvalidPolicy) <==>
      && (forall role :: role in b.register + b.update ==> FullRole(role))
      && exists n :: n in b.rules && exists rule :: rule in b.rules[n] && BadRule(rule)
    ensures BatchFault(b) == None <==>
      && (forall role :: role in b.register + b.update ==> FullRole(role))
      && forall n :: n in b.rules ==> forall rule :: rule in b.rules[n] ==> !BadRule(rule)
  {
    forall role: Role ensures ValidRole(role) <==> FullRole(role) {
      ValidIffFull(role);
    }
    forall n | n in b.rules ensures ValidRules(b.rules[n]) <==> forall rule :: rule in b.rules[n] ==> !BadRule(rule) {
      ValidRulesIffNoneBad(b.rules[n]);
    }
  }

  // ---- The whole batch ----

  /** The batch's roles: updates win over registrations, and later ones over earlier ones. */
  ghost predicate GivenLast(b: Batch, role: Role) {
    || (exists i :: 0 <= i < |b.update| && b.update[i] == role && forall k :: i < k < |b.update| ==> b.update[k].name != role.name)
    || ((forall k :: 0 <= k < |b.update| ==> b.update[k].name != role.name)
        && exists i :: 0 <= i < |b.register| && b.register[i] == role
             && forall k :: i < k < |b.register| ==> b.register[k].name != role.name)
  }

  /** What a batch leaves stored. */
  ghost predicate BatchLeaves(p: Policy, q: Policy, b: Batch) {
    var gone := Elements(b.delete);
    && (forall u, n :: (u, n) in q.assignments <==> (u, n) in b.assign || ((u, n) in p.assignments && (u, n) !in b.unassign))
    && (forall n :: n in gone ==> n !in q.roles && n !in q.rules && n !in q.metadata)
    && (forall role :: GivenLast(b, role) && role.name !in gone ==>
          role.name in q.roles && q.roles[role.name] == RoleData(Elements(role.permissions), Elements(role.parents) - gone))
    && (forall n :: n !in gone && (forall role :: role in b.register + b.update ==> role.name != n) ==>
          (n in q.roles <==> n in p.roles)
          && (n in p.roles ==> q.roles[n] == RoleData(p.roles[n].permissions, p.roles[n].parents - gone)))
    && SetAll(p.rules, q.rules, b.rules, gone) && SetAll(p.metadata, q.metadata, b.metadata, gone)
  }

  /** The given entries are set and the others kept, but for what is gone. */
  ghost predicate SetAll<T>(before: map<string, T>, after: map<string, T>, given: map<string, T>, gone: set<string>) {
    forall n :: n !in gone ==>
      if n in given then n in after && after[n] == given[n]
      else (n in after <==> n in before) && (n in before ==> after[n] == before[n])
  }

  lemma {:induction false} LastOfAppend(a: seq<Op>, b: seq<Op>, name: string)
    ensures LastStored(a + b, name) == if LastStored(b, name).Some? then LastStored(b, name) else LastStored(a, name)
    decreases |a|
  {
    if a == [] {
      assert a + b == b;
    } else {
      assert (a + b)[0] == a[0] && (a + b)[1..] == a[1..] + b;
      LastOfAppend(a[1..], b, name);
    }
  }

  lemma {:induction false} LastIsLast(ops: seq<Op>, i: nat, name: string)
    requires i < |ops| && (ops[i].AddRole? || ops[i].UpdateRole?) && ops[i].role.name == name
    requires forall k :: i < k < |ops| && (ops[k].AddRole? || ops[k].UpdateRole?) ==> ops[k].role.name != name
    ensures LastStored(ops, name) == Some(ops[i].role)
    decreases |ops|
  {
    if i == 0 {
      LastOfNone(ops[1..], name);
    } else {
      LastIsLast(ops[1..], i - 1, name);
    }
  }

  lemma {:induction false} LastOfNone(ops: seq<Op>, name: string)
    requires forall k :: 0 <= k < |ops| && (ops[k].AddRole? || ops[k].UpdateRole?) ==> ops[k].role.name != name
    ensures LastStored(ops, name) == None
    decreases |ops|
  {
    if ops != [] { LastOfNone(ops[1..], name); }
  }

  lemma GivenLastIsLastStored(b: Batch, role: Role)
    requires GivenLast(b, role)
    ensures LastStored(Registrations(b) + Updates(b), role.name) == Some(role)
  {
    LastOfAppend(Registrations(b), Updates(b), role.name);
    if i :| 0 <= i < |b.update| && b.update[i] == role && forall k :: i < k < |b.update| ==> b.update[k].name != role.name {
      LastIsLast(Updates(b), i, role.name);
    } else {
      LastOfNone(Updates(b), role.name);
      var i :| 0 <= i < |b.register| && b.register[i] == role && forall k :: i < k < |b.register| ==> b.register[k].name != role.name;
      LastIsLast(Registrations(b), i, role.name);
    }
  }

  lemma NotGivenIsNotStored(b: Batch, name: string)
    requires forall role :: role in b.register + b.update ==> role.name != name
    ensures LastStored(Registrations(b) + Updates(b), name) == None
  {
    forall k | 0 <= k < |b.register| ensures b.register[k].name != name {
      assert b.register[k] in b.register + b.update;
    }
    forall k | 0 <= k < |b.update| ensures b.update[k].name != name {
      assert b.update[k] in b.register + b.update;
    }
    LastOfAppend(Registrations(b), Updates(b), name);
    LastOfNone(Registrations(b), name);
    LastOfNone(Updates(b), name);
  }

  /** The policies between the stages. */
  lemma Stages(p: Policy, b: Batch, ruleOrder: seq<string>, metadataOrder: seq<string>)
    returns (stored: Policy, detailed: Policy, unassigned: Policy, granted: Policy)
    requires Enumerates(ruleOrder, b.rules.Keys) && Enumerates(metadataOrder, b.metadata.Keys)
    requires RunAll(p, BatchOps(b, ruleOrder, metadataOrder)).Ok?
    ensures RunAll(p, Registrations(b) + Updates(b)) == Ok(stored)
    ensures detailed == stored.(rules := stored.rules + b.rules, metadata := stored.metadata + b.metadata)
    ensures RunAll(detailed, Unassignments(b)) == Ok(unassigned) && RunAll(unassigned, Assignments(b)) == Ok(granted)
    ensures RunAll(p, BatchOps(b, ruleOrder, metadataOrder)) == RunAll(granted, Deletions(b))
  {
    var first, r, m := Registrations(b) + Updates(b), RuleOps(b.rules, ruleOrder), MetadataOps(b.metadata, metadataOrder);
    var last := Unassignments(b) + Assignments(b) + Deletions(b);
    RunAllAppend(p, first, r + (m + last));
    stored := RunAll(p, first).value;
    RunAllAppend(stored, r, m + last);
    RulesStage(stored, b.rules, ruleOrder);
    assert Picked(b.rules, Elements(ruleOrder)) == b.rules;
    var ruled := RunAll(stored, r).value;
    RunAllAppend(ruled, m, last);
    MetadataStageSets(ruled, b.metadata, metadataOrder);
    assert Picked(b.metadata, Elements(metadataOrder)) == b.metadata;
    detailed := RunAll(ruled, m).value;
    RunAllAppend(detailed, Unassignments(b) + Assignments(b), Deletions(b));
    RunAllAppend(detailed, Unassignments(b), Assignments(b));
    unassigned := RunAll(detailed, Unassignments(b)).value;
    granted := RunAll(unassigned, Assignments(b)).value;
  }

  lemma StagesLeave(p: Policy, stored: Policy, granted: Policy, q: Policy, b: Batch)
    requires Stores(p, stored, Registrations(b) + Updates(b)) && Without(granted, q, Elements(b.delete))
    requires granted.roles == stored.roles
    requires granted.rules == stored.rules + b.rules && granted.metadata == stored.metadata + b.metadata
    requires forall u, n :: (u, n) in granted.assignments <==>
      (u, n) in b.assign || ((u, n) in p.assignments && (u, n) !in b.unassign)
    ensures BatchLeaves(p, q, b)
  {
    forall role | GivenLast(b, role) ensures role.name in stored.roles && stored.roles[role.name] == DataOf(role) {
      GivenLastIsLastStored(b, role);
    }
    forall n | forall role :: role in b.register + b.update ==> role.name != n
      ensures (n in stored.roles <==> n in p.roles) && (n in p.roles ==> stored.roles[n] == p.roles[n])
    {
      NotGivenIsNotStored(b, n);
    }
  }

  /**
   A batch that succeeds leaves its roles as last given, its rules and metadata set, its
   unassignments undone only by its own assignments, and what it deletes gone.
   */
  lemma BatchLeavesItsParts(p: Policy, b: Batch, ruleOrder: seq<string>, metadataOrder: seq<string>)
    requires Enumerates(ruleOrder, b.rules.Keys) && Enumerates(metadataOrder, b.metadata.Keys)
    requires RunAll(p, BatchOps(b, ruleOrder, metadataOrder)).Ok?
    ensures BatchLeaves(p, RunAll(p, BatchOps(b, ruleOrder, metadataOrder)).value, b)
  {
    var stored, detailed, unassigned, granted := Stages(p, b, ruleOrder, metadataOrder);
    StoreStage(p, Registrations(b) + Updates(b));
    UnassignStage(detailed, Unassignments(b));
    AssignStage(unassigned, Assignments(b));
    DeleteStage(granted, Deletions(b));
    DeletedAreNamed(b);
    PairsAreNamed(b);
    StagesLeave(p, stored, granted, RunAll(granted, Deletions(b)).value, b);
  }

  lemma DeletedAreNamed(b: Batch)
    ensures Deleted(Deletions(b)) == Elements(b.delete)
  {
    forall n | n in b.delete ensures n in Deleted(Deletions(b)) {
      var i :| 0 <= i < |b.delete| && b.delete[i] == n;
      assert Deletions(b)[i] in Deletions(b) && Deletions(b)[i] == DeleteRole(n);
    }
  }

  lemma PairsAreNamed(b: Batch)
    ensures forall u, n :: AssignRole(u, n) in Assignments(b) <==> (u, n) in b.assign
    ensures forall u, n :: UnassignRole(u, n) in Unassignments(b) <==> (u, n) in b.unassign
  {
    forall u, n | (u, n) in b.assign ensures AssignRole(u, n) in Assignments(b) {
      var i :| 0 <= i < |b.assign| && b.assign[i] == (u, n);
      assert Assignments(b)[i] == AssignRole(u, n);
    }
    forall u, n | (u, n) in b.unassign ensures UnassignRole(u, n) in Unassignments(b) {
      var i :| 0 <= i < |b.unassign| && b.unassign[i] == (u, n);
      assert Unassignments(b)[i] == UnassignRole(u, n);
    }
  }

  /** The same of a batch on the store's contents, whatever order its maps are walked in. */
  lemma SuccessfulBatchLeavesItsParts(c: Contents, b: Batch, ruleOrder: seq<string>, metadataOrder: seq<string>)
    requires Sound(c) && BatchOutcome(c, b).Ok?
    requires Enumerates(ruleOrder, b.rules.Keys) && Enumerates(metadataOrder, b.metadata.Keys)
    ensures BatchLeaves(View(c), View(BatchOutcome(c, b).value), b)
  {
    BatchRefines(c, b, ruleOrder, metadataOrder);
    BatchLeavesItsParts(View(c), b, ruleOrder, metadataOrder);
  }
}
