/**
 Policy batches: the documented order of their operations, their outcome on the memory
 contents, and its independence from the iteration order of the rule and metadata maps.
 */
module PolicyBatch {
  import opened Basics
  import opened Rules
  import opened Policy
  import opened MemoryContents

  datatype Batch = Batch(
    register: seq<Role>,
    update: seq<Role>,
    rules: map<string, seq<PolicyRule>>,
    metadata: map<string, map<string, string>>,
    unassign: seq<(string, string)>,
    assign: seq<(string, string)>,
    delete: seq<string>)

  function Registrations(b: Batch): seq<Op> {
    seq(|b.register|, i requires 0 <= i < |b.register| => AddRole(b.register[i]))
  }

  function Updates(b: Batch): seq<Op> {
    seq(|b.update|, i requires 0 <= i < |b.update| => UpdateRole(b.update[i]))
  }

  function RuleOps(m: map<string, seq<PolicyRule>>, order: seq<string>): seq<Op>
    requires Elements(order) <= m.Keys
  {
    seq(|order|, i requires 0 <= i < |order| => assert order[i] in Elements(order); SetRules(order[i], m[order[i]]))
  }

  function MetadataOps(m: map<string, map<string, string>>, order: seq<string>): seq<Op>
    requires Elements(order) <= m.Keys
  {
    seq(|order|, i requires 0 <= i < |order| => assert order[i] in Elements(order); SetMetadata(order[i], m[order[i]]))
  }

  function Unassignments(b: Batch): seq<Op> {
    seq(|b.unassign|, i requires 0 <= i < |b.unassign| => UnassignRole(b.unassign[i].0, b.unassign[i].1))
  }

  function Assignments(b: Batch): seq<Op> {
    seq(|b.assign|, i requires 0 <= i < |b.assign| => AssignRole(b.assign[i].0, b.assign[i].1))
  }

  function Deletions(b: Batch): seq<Op> {
    seq(|b.delete|, i requires 0 <= i < |b.delete| => DeleteRole(b.delete[i]))
  }

  ghost predicate Enumerates(order: seq<string>, keys: set<string>) {
    NoRepeats(order) && Elements(order) == keys
  }

  /** The operations in the documented order, the two maps being walked in the given orders. */
  function BatchOps(b: Batch, ruleOrder: seq<string>, metadataOrder: seq<string>): seq<Op>
    requires Elements(ruleOrder) <= b.rules.Keys && Elements(metadataOrder) <= b.metadata.Keys
  {
    (Registrations(b) + Updates(b)) + (RuleOps(b.rules, ruleOrder) +
    (MetadataOps(b.metadata, metadataOrder) + (Unassignments(b) + Assignments(b) + Deletions(b))))
  }

  /** The check made before anything is changed. */
  function BatchFault(b: Batch): Option<Error> {
    if (exists r :: r in b.register + b.update && !ValidRole(r)) then Some(InvalidRole)
    else if exists n :: n in b.rules && !ValidRules(b.rules[n]) then Some(InvalidPolicy)
    else None
  }

  ghost function MemRunAll(c: Contents, ops: seq<Op>): Result<Contents>
    decreases |ops|
  {
    if ops == [] then Ok(c)
    else match MemApply(c, ops[0])
      case Ok(d) => MemRunAll(d, ops[1..])
      case Err(e) => Err(e)
  }

  lemma {:induction false} MemRunAllAppend(c: Contents, a: seq<Op>, b: seq<Op>)
    ensures MemRunAll(c, a + b) == if MemRunAll(c, a).Ok? then MemRunAll(MemRunAll(c, a).value, b) else MemRunAll(c, a)
    decreases |a|
  {
    if a == [] {
      assert a + b == b;
    } else {
      assert (a + b)[0] == a[0] && (a + b)[1..] == a[1..] + b;
      if MemApply(c, a[0]).Ok? {
        MemRunAllAppend(MemApply(c, a[0]).value, a[1..], b);
      }
    }
  }

  /** One more operation at the end of a run that succeeded so far. */
  lemma MemRunAllSnoc(c: Contents, ops: seq<Op>, k: nat)
    requires k < |ops| && MemRunAll(c, ops[..k]).Ok?
    ensures MemRunAll(c, ops[..k + 1]) == MemApply(MemRunAll(c, ops[..k]).value, ops[k])
    ensures MemApply(MemRunAll(c, ops[..k]).value, ops[k]).Err? ==>
              MemRunAll(c, ops) == MemApply(MemRunAll(c, ops[..k]).value, ops[k])
  {
    var d := MemRunAll(c, ops[..k]).value;
    assert ops[..k + 1] == ops[..k] + [ops[k]];
    MemRunAllAppend(c, ops[..k], [ops[k]]);
    assert [ops[k]][1..] == [];
    assert MemRunAll(d, [ops[k]]) == MemApply(d, ops[k]);
    assert ops == ops[..k + 1] + ops[k + 1..];
    MemRunAllAppend(c, ops[..k + 1], ops[k + 1..]);
  }

  /** A batch of operations on the memory contents refines the abstract batch. */
  lemma {:induction false} MemRunAllRefines(c: Contents, ops: seq<Op>)
    requires Sound(c)
    ensures Agrees(MemRunAll(c, ops), RunAll(View(c), ops))
    decreases |ops|
  {
    if ops != [] {
      MemoryRefines(c, ops[0]);
      if MemApply(c, ops[0]).Ok? {
        MemRunAllRefines(MemApply(c, ops[0]).value, ops[1..]);
      }
    }
  }

  // ---- The two map stages ----

  function Picked<T>(m: map<string, T>, keys: set<string>): map<string, T> {
    map n | n in m && n in keys :: m[n]
  }

  ghost function SetAllRules(c: Contents, m: map<string, seq<PolicyRule>>): Result<Contents> {
    if m.Keys <= c.roles.Keys then Ok(c.(rules := c.rules + m)) else Err(RoleNotFound)
  }

  ghost function SetAllMetadata(c: Contents, m: map<string, map<string, string>>): Result<Contents> {
    if m.Keys <= c.roles.Keys then Ok(c.(metadata := c.metadata + m)) else Err(RoleNotFound)
  }

  lemma PickedCons<T>(base: map<string, T>, m: map<string, T>, order: seq<string>)
    requires order != [] && Elements(order) <= m.Keys
    ensures Elements(order) == {order[0]} + Elements(order[1..])
    ensures Picked(m, Elements(order)).Keys == {order[0]} + Picked(m, Elements(order[1..])).Keys
    ensures order[0] in m && base[order[0] := m[order[0]]] + Picked(m, Elements(order[1..])) == base + Picked(m, Elements(order))
  {
    var n, rest := order[0], order[1..];
    assert order == [n] + rest;
    ElementsOfConcat([n], rest);
    assert Elements([n]) == {n};
    assert n in Elements(order);
    PickedGrows(map[], m, Elements(rest), n);
    AddsFirst(base, m, Elements(rest), n);
  }

  /** Picking one more entry. */
  lemma PickedGrows<T>(base: map<string, T>, m: map<string, T>, keys: set<string>, n: string)
    requires n in m
    ensures Picked(m, keys + {n}) == Picked(m, keys)[n := m[n]] == Picked(m, {n} + keys)
    ensures base + Picked(m, keys + {n}) == (base + Picked(m, keys))[n := m[n]]
  {
  }

  lemma AddsFirst<T>(base: map<string, T>, m: map<string, T>, keys: set<string>, n: string)
    requires n in m
    ensures base[n := m[n]] + Picked(m, keys) == base + Picked(m, {n} + keys)
  {
  }

  lemma {:induction false} RuleStage(c: Contents, m: map<string, seq<PolicyRule>>, order: seq<string>)
    requires Elements(order) <= m.Keys && forall n :: n in m ==> ValidRules(m[n])
    ensures MemRunAll(c, RuleOps(m, order)) == SetAllRules(c, Picked(m, Elements(order)))
    decreases |order|
  {
    if order == [] {
      assert c.rules + Picked(m, Elements(order)) == c.rules;
    } else {
      var n, rest := order[0], order[1..];
      PickedCons(c.rules, m, order);
      assert RuleOps(m, order)[1..] == RuleOps(m, rest);
      assert RuleOps(m, order)[0] == SetRules(n, m[n]);
      if n in c.roles {
        RuleStage(c.(rules := c.rules[n := m[n]]), m, rest);
      }
    }
  }

  lemma {:induction false} MetadataStage(c: Contents, m: map<string, map<string, string>>, order: seq<string>)
    requires Elements(order) <= m.Keys
    ensures MemRunAll(c, MetadataOps(m, order)) == SetAllMetadata(c, Picked(m, Elements(order)))
    decreases |order|
  {
    if order == [] {
      assert c.metadata + Picked(m, Elements(order)) == c.metadata;
    } else {
      var n, rest := order[0], order[1..];
      PickedCons(c.metadata, m, order);
      assert MetadataOps(m, order)[1..] == MetadataOps(m, rest);
      assert MetadataOps(m, order)[0] == SetMetadata(n, m[n]);
      if n in c.roles {
        MetadataStage(c.(metadata := c.metadata[n := m[n]]), m, rest);
      }
    }
  }

  /** One more entry of the rule map: the operation and the map stage agree. */
  lemma RuleStageGrows(c: Contents, m: map<string, seq<PolicyRule>>, done: set<string>, n: string, now: Contents)
    requires n in m && ValidRules(m[n]) && SetAllRules(c, Picked(m, done)) == Ok(now)
    ensures MemApply(now, SetRules(n, m[n])) == SetAllRules(c, Picked(m, done + {n}))
    ensures n !in c.roles ==> SetAllRules(c, m) == Err(RoleNotFound)
  {
    PickedGrows(c.rules, m, done, n);
  }

  lemma MetadataStageGrows(c: Contents, m: map<string, map<string, string>>, done: set<string>, n: string, now: Contents)
    requires n in m && SetAllMetadata(c, Picked(m, done)) == Ok(now)
    ensures MemApply(now, SetMetadata(n, m[n])) == SetAllMetadata(c, Picked(m, done + {n}))
    ensures n !in c.roles ==> SetAllMetadata(c, m) == Err(RoleNotFound)
  {
    PickedGrows(c.metadata, m, done, n);
  }

  /** The two map stages together. */
  ghost function SetAllDetails(c: Contents, b: Batch): Result<Contents> {
    match SetAllRules(c, b.rules)
    case Err(e) => Err(e)
    case Ok(d) => SetAllMetadata(d, b.metadata)
  }

  /** The outcome of a batch, with no order of the maps in sight. */
  ghost function BatchOutcome(c: Contents, b: Batch): Result<Contents> {
    if BatchFault(b).Some? then Err(BatchFault(b).value)
    else match MemRunAll(c, Registrations(b) + Updates(b))
      case Err(e) => Err(e)
      case Ok(c1) =>
        match SetAllDetails(c1, b)
        case Err(e) => Err(e)
        case Ok(c2) => MemRunAll(c2, Unassignments(b) + Assignments(b) + Deletions(b))
  }

  /**
   A well-formed batch is its operations run in the documented order, whatever order the two
   maps are walked in, down to the error reported.
   */
  lemma BatchIsItsOperations(c: Contents, b: Batch, ruleOrder: seq<string>, metadataOrder: seq<string>)
    requires BatchFault(b).None? && Enumerates(ruleOrder, b.rules.Keys) && Enumerates(metadataOrder, b.metadata.Keys)
    ensures BatchOutcome(c, b) == MemRunAll(c, BatchOps(b, ruleOrder, metadataOrder))
  {
    var first := Registrations(b) + Updates(b);
    var r, m := RuleOps(b.rules, ruleOrder), MetadataOps(b.metadata, metadataOrder);
    var last := Unassignments(b) + Assignments(b) + Deletions(b);
    MemRunAllAppend(c, first, r + (m + last));
    if MemRunAll(c, first).Ok? {
      var c1 := MemRunAll(c, first).value;
      RuleStage(c1, b.rules, ruleOrder);
      assert Picked(b.rules, Elements(ruleOrder)) == b.rules;
      MemRunAllAppend(c1, r, m + last);
      if SetAllRules(c1, b.rules).Ok? {
        var c2 := SetAllRules(c1, b.rules).value;
        MetadataStage(c2, b.metadata, metadataOrder);
        assert Picked(b.metadata, Elements(metadataOrder)) == b.metadata;
        MemRunAllAppend(c2, m, last);
      }
    }
  }

  /** A batch leaves a sound store and does to the abstract policy what its operations do. */
  lemma BatchRefines(c: Contents, b: Batch, ruleOrder: seq<string>, metadataOrder: seq<string>)
    requires Sound(c) && BatchFault(b).None?
    requires Enumerates(ruleOrder, b.rules.Keys) && Enumerates(metadataOrder, b.metadata.Keys)
    ensures Agrees(BatchOutcome(c, b), RunAll(View(c), BatchOps(b, ruleOrder, metadataOrder)))
  {
    BatchIsItsOperations(c, b, ruleOrder, metadataOrder);
    MemRunAllRefines(c, BatchOps(b, ruleOrder, metadataOrder));
  }
}
