/**
 Any number of concurrent write transactions against the same tables. A transaction runs one
 statement at a time; each statement sees the committed tables with the transaction's own
 writes on top. Writers take the lock row before their first read.
 */
module SqlWriters {
  import opened Basics
  import opened ParentGraph
  import opened Policy
  import opened SqlTables
  import R = SqlRefinement

  /** The statements of a transaction that performs the operations in turn. */
  function Program(ops: seq<Op>): seq<Stmt>
    decreases |ops|
  {
    if ops == [] then [] else Compile(ops[0]) + Program(ops[1..])
  }

  /** The tables with the writes among the statements carried out on them. */
  ghost function View(committed: Tables, done: seq<Stmt>): Tables
    decreases |done|
  {
    if done == [] then committed
    else
      var t := View(committed, done[..|done| - 1]);
      match Exec(t, done[|done| - 1]) case Ok(u) => u case Err(_) => t
  }

  datatype Phase = Begun | Locked(executed: nat) | Ended

  datatype Txn = Txn(ops: seq<Op>, phase: Phase)

  /** `history` lists the operations of the committed transactions in commit order. */
  datatype Db = Db(committed: Tables, lock: Option<nat>, txns: map<nat, Txn>, history: seq<seq<Op>>)

  datatype Step =
    | Begin(id: nat, ops: seq<Op>)
    | TakeLock(id: nat)
    | Statement(id: nat)
    | Commit(id: nat)
    | Abort(id: nat)

  ghost predicate Next(s: Db, step: Step, s': Db) {
    match step
    case Begin(id, ops) =>
      && id !in s.txns && (forall op :: op in ops ==> Precheck(op).None?)
      && s' == s.(txns := s.txns[id := Txn(ops, Begun)])
    case TakeLock(id) =>
      && id in s.txns && s.txns[id].phase == Begun && s.lock == None
      && s' == s.(lock := Some(id), txns := s.txns[id := s.txns[id].(phase := Locked(0))])
    case Statement(id) =>
      && id in s.txns && s.txns[id].phase.Locked?
      && var txn, k, program := s.txns[id], s.txns[id].phase.executed, Program(s.txns[id].ops);
      && k < |program|
      && (match Exec(View(s.committed, program[..k]), program[k])
          case Ok(_) => s' == s.(txns := s.txns[id := txn.(phase := Locked(k + 1))])
          case Err(_) => s' == s.(lock := None, txns := s.txns[id := txn.(phase := Ended)]))
    case Commit(id) =>
      && id in s.txns && s.txns[id].phase == Locked(|Program(s.txns[id].ops)|)
      && s' == Db(View(s.committed, Program(s.txns[id].ops)), None,
                  s.txns[id := s.txns[id].(phase := Ended)], s.history + [s.txns[id].ops])
    case Abort(id) =>
      && id in s.txns && !s.txns[id].phase.Ended?
      && s' == s.(lock := if s.txns[id].phase.Locked? then None else s.lock,
                  txns := s.txns[id := s.txns[id].(phase := Ended)])
  }

  /** The transactions of `history` performed one after the other. */
  ghost function Serial(t: Tables, history: seq<seq<Op>>): Result<Tables>
    decreases |history|
  {
    if history == [] then Ok(t)
    else
      match Serial(t, history[..|history| - 1])
      case Ok(u) => Run(u, Program(history[|history| - 1]))
      case Err(e) => Err(e)
  }

  ghost predicate Inv(s: Db, start: Tables) {
    && Serial(start, s.history) == Ok(s.committed)
    && (forall h :: h in s.history ==> forall op :: op in h ==> Precheck(op).None?)
    && (forall id :: id in s.txns ==> forall op :: op in s.txns[id].ops ==> Precheck(op).None?)
    && (forall id :: id in s.txns && s.txns[id].phase.Locked? ==>
          && s.lock == Some(id) && s.txns[id].phase.executed <= |Program(s.txns[id].ops)|
          && Run(s.committed, Program(s.txns[id].ops)[..s.txns[id].phase.executed]).Ok?)
  }

  /** While every check so far has passed, the transaction's view is the plain run of its statements. */
  lemma {:induction false} ViewIsRun(t: Tables, stmts: seq<Stmt>)
    requires Run(t, stmts).Ok?
    ensures Run(t, stmts) == Ok(View(t, stmts))
    decreases |stmts|
  {
    if stmts != [] {
      var front, last := stmts[..|stmts| - 1], stmts[|stmts| - 1];
      assert stmts == front + [last];
      RunAppend(t, front, [last]);
      ViewIsRun(t, front);
      RunSingle(View(t, front), last);
    }
  }

  lemma StatementExtends(t: Tables, program: seq<Stmt>, k: nat)
    requires k < |program| && Run(t, program[..k]).Ok?
    ensures Exec(View(t, program[..k]), program[k]).Ok? ==> Run(t, program[..k + 1]).Ok?
  {
    ViewIsRun(t, program[..k]);
    assert program[..k + 1] == program[..k] + [program[k]];
    RunAppend(t, program[..k], [program[k]]);
    RunSingle(View(t, program[..k]), program[k]);
  }

  /** Every step keeps the committed tables equal to a serial execution. */
  lemma StepKeepsInv(s: Db, step: Step, s': Db, start: Tables)
    requires Inv(s, start) && Next(s, step, s')
    ensures Inv(s', start)
  {
    match step
    case Statement(id) => StatementKeepsInv(s, id, s', start);
    case Commit(id) => CommitKeepsInv(s, id, s', start);
    case Begin(_, _) =>
    case TakeLock(_) =>
    case Abort(_) =>
  }

  lemma StatementKeepsInv(s: Db, id: nat, s': Db, start: Tables)
    requires Inv(s, start) && Next(s, Statement(id), s')
    ensures Inv(s', start)
  {
    StatementExtends(s.committed, Program(s.txns[id].ops), s.txns[id].phase.executed);
  }

  lemma CommitKeepsInv(s: Db, id: nat, s': Db, start: Tables)
    requires Inv(s, start) && Next(s, Commit(id), s')
    ensures Inv(s', start)
  {
    var program := Program(s.txns[id].ops);
    assert program[..|program|] == program;
    ViewIsRun(s.committed, program);
    assert s'.history[..|s'.history| - 1] == s.history;
  }

  // ---- What a committed transaction does ----

  /** A transaction's statements perform its operations one after the other, all or nothing. */
  lemma {:induction false} ProgramRefines(t: Tables, ops: seq<Op>)
    requires R.Sound(t) && forall op :: op in ops ==> Precheck(op).None?
    ensures R.SameEnd(Run(t, Program(ops)), RunAll(R.View(t), ops))
    decreases |ops|
  {
    if ops != [] {
      var op, rest := ops[0], ops[1..];
      assert op in ops;
      assert forall o :: o in rest ==> o in ops;
      RunAppend(t, Compile(op), Program(rest));
      R.SqlRefines(t, op);
      if SqlApply(t, op).Ok? {
        ProgramRefines(SqlApply(t, op).value, rest);
      }
    }
  }

  /** The abstract policy after a serial history. */
  ghost function SerialPolicy(p: Policy, history: seq<seq<Op>>): Result<Policy>
    decreases |history|
  {
    if history == [] then Ok(p)
    else
      match SerialPolicy(p, history[..|history| - 1])
      case Ok(q) => RunAll(q, history[|history| - 1])
      case Err(e) => Err(e)
  }

  lemma {:induction false} SerialRefines(t: Tables, history: seq<seq<Op>>)
    requires R.Sound(t) && Serial(t, history).Ok?
    requires forall h :: h in history ==> forall op :: op in h ==> Precheck(op).None?
    ensures R.SameEnd(Serial(t, history), SerialPolicy(R.View(t), history))
    decreases |history|
  {
    if history != [] {
      var front, last := history[..|history| - 1], history[|history| - 1];
      assert last in history;
      assert forall h :: h in front ==> h in history;
      SerialRefines(t, front);
      ProgramRefines(Serial(t, front).value, last);
    }
  }

  // ---- All runs ----

  ghost predicate Initial(s: Db) {
    s.lock == None && s.txns == map[] && s.history == []
  }

  ghost predicate Behaviour(states: seq<Db>, steps: seq<Step>) {
    && |states| == |steps| + 1 && Initial(states[0])
    && forall i :: 0 <= i < |steps| ==> Next(states[i], steps[i], states[i + 1])
  }

  lemma {:induction false} BehaviourKeepsInv(states: seq<Db>, steps: seq<Step>, i: nat)
    requires Behaviour(states, steps) && i < |states|
    ensures Inv(states[i], states[0].committed)
  {
    if i > 0 {
      BehaviourKeepsInv(states, steps, i - 1);
      assert Next(states[i - 1], steps[i - 1], states[i - 1 + 1]);
      StepKeepsInv(states[i - 1], steps[i - 1], states[i], states[0].committed);
    }
  }

  /**
   In every interleaving the committed tables are those of a serial run of the committed
   transactions. They are acyclic and closed under parents, and no assignment, rule or
   metadata row outlives its role.
   */
  lemma WritersStaySound(states: seq<Db>, steps: seq<Step>, i: nat)
    requires Behaviour(states, steps) && i < |states| && R.Sound(states[0].committed)
    ensures R.Sound(states[i].committed)
    ensures SerialPolicy(R.View(states[0].committed), states[i].history) == Ok(R.View(states[i].committed))
    ensures forall r :: r in states[i].committed.parents ==> r.0 in states[i].committed.roles && r.1 in states[i].committed.roles
    ensures forall n :: !OnCycle(RowsGraph(states[i].committed.parents), n)
    ensures forall a :: a in states[i].committed.assignments ==> a.1 in states[i].committed.roles
    ensures states[i].committed.rules.Keys + states[i].committed.metadata.Keys <= states[i].committed.roles
  {
    BehaviourKeepsInv(states, steps, i);
    var t := states[i].committed;
    SerialRefines(states[0].committed, states[i].history);
    SoundRows(t);
  }

  lemma SoundRows(t: Tables)
    requires R.Sound(t)
    ensures forall r :: r in t.parents ==> r.0 in t.roles && r.1 in t.roles
    ensures forall n :: !OnCycle(RowsGraph(t.parents), n)
    ensures forall a :: a in t.assignments ==> a.1 in t.roles
    ensures t.rules.Keys + t.metadata.Keys <= t.roles
  {
    var p := R.View(t);
    assert p.roles.Keys == t.roles;
    forall r | r in t.parents ensures r.0 in t.roles && r.1 in t.roles {
      assert (r.0, r.1) in t.parents && r.1 in ParentsIn(t.parents, r.0);
      assert r.1 in p.roles[r.0].parents;
    }
    forall n ensures !OnCycle(RowsGraph(t.parents), n) {
      R.SameCycles(t, n);
    }
  }

  // ---- Without the lock ----

  /** A transaction that reads the tables as they were when it began. */
  datatype Reading = Reading(ops: seq<Op>, snapshot: Tables, executed: nat)

  datatype OpenDb = OpenDb(committed: Tables, txns: map<nat, Reading>)

  /** The same steps with no lock to take; every statement so far has passed on the snapshot. */
  ghost predicate Passes(s: OpenDb, step: Step) {
    match step
    case Begin(id, ops) => id !in s.txns && forall op :: op in ops ==> Precheck(op).None?
    case Statement(id) =>
      && id in s.txns
      && var k, program := s.txns[id].executed, Program(s.txns[id].ops);
      k < |program| && Exec(View(s.txns[id].snapshot, program[..k]), program[k]).Ok?
    case Commit(id) => id in s.txns && s.txns[id].executed == |Program(s.txns[id].ops)|
    case _ => false
  }

  /** A commit carries the transaction's writes out on whatever is committed by then. */
  ghost function Moved(s: OpenDb, step: Step): OpenDb
    requires Passes(s, step)
  {
    match step
    case Begin(id, ops) => s.(txns := s.txns[id := Reading(ops, s.committed, 0)])
    case Statement(id) => s.(txns := s.txns[id := s.txns[id].(executed := s.txns[id].executed + 1)])
    case Commit(id) => OpenDb(View(s.committed, Program(s.txns[id].ops)), s.txns - {id})
  }

  ghost predicate OpenRun(s: OpenDb, steps: seq<Step>)
    decreases |steps|
  {
    steps == [] || (Passes(s, steps[0]) && OpenRun(Moved(s, steps[0]), steps[1..]))
  }

  ghost function OpenAfter(s: OpenDb, steps: seq<Step>): OpenDb
    requires OpenRun(s, steps)
    decreases |steps|
  {
    if steps == [] then s else OpenAfter(Moved(s, steps[0]), steps[1..])
  }

  lemma {:induction false} OneMore(s: OpenDb, steps: seq<Step>, step: Step)
    requires OpenRun(s, steps) && Passes(OpenAfter(s, steps), step)
    ensures OpenRun(s, steps + [step]) && OpenAfter(s, steps + [step]) == Moved(OpenAfter(s, steps), step)
    decreases |steps|
  {
    if steps == [] {
      assert [step][1..] == [];
    } else {
      OneMore(Moved(s, steps[0]), steps[1..], step);
      assert (steps + [step])[1..] == steps[1..] + [step];
    }
  }

  /** A program that runs through passes at each of its statements. */
  lemma EachPasses(t: Tables, program: seq<Stmt>, k: nat)
    requires Run(t, program).Ok? && k < |program|
    ensures Exec(View(t, program[..k]), program[k]).Ok?
  {
    assert program == program[..k] + ([program[k]] + program[k + 1..]);
    RunAppend(t, program[..k], [program[k]] + program[k + 1..]);
    ViewIsRun(t, program[..k]);
    RunAppend(View(t, program[..k]), [program[k]], program[k + 1..]);
    RunSingle(View(t, program[..k]), program[k]);
  }

  /** A transaction that began executes all its statements, each on its own snapshot. */
  lemma ExecutesAll(s: OpenDb, before: seq<Step>, id: nat) returns (steps: seq<Step>)
    requires OpenRun(s, before) && id in OpenAfter(s, before).txns
    requires var txn := OpenAfter(s, before).txns[id]; txn.executed == 0 && Run(txn.snapshot, Program(txn.ops)).Ok?
    ensures OpenRun(s, steps)
    ensures var u := OpenAfter(s, before);
      OpenAfter(s, steps) == u.(txns := u.txns[id := u.txns[id].(executed := |Program(u.txns[id].ops)|)])
  {
    var u := OpenAfter(s, before);
    var txn := u.txns[id];
    steps := before;
    assert u.txns[id := txn] == u.txns;
    for k := 0 to |Program(txn.ops)|
      invariant OpenRun(s, steps) && OpenAfter(s, steps) == u.(txns := u.txns[id := txn.(executed := k)])
    {
      EachPasses(txn.snapshot, Program(txn.ops), k);
      OneMore(s, steps, Statement(id));
      steps := steps + [Statement(id)];
    }
  }

  /** Two transactions that each run through on the same snapshot both commit. */
  lemma BothCommit(t: Tables, a: seq<Op>, b: seq<Op>) returns (steps: seq<Step>)
    requires forall op :: op in a + b ==> Precheck(op).None?
    requires Run(t, Program(a)).Ok? && Run(t, Program(b)).Ok?
    ensures OpenRun(OpenDb(t, map[]), steps)
    ensures OpenAfter(OpenDb(t, map[]), steps).committed == View(View(t, Program(a)), Program(b))
  {
    var s := OpenDb(t, map[]);
    assert forall op :: op in a ==> op in a + b;
    assert forall op :: op in b ==> op in a + b;
    OneMore(s, [], Begin(0, a));
    OneMore(s, [] + [Begin(0, a)], Begin(1, b));
    steps := ExecutesAll(s, [] + [Begin(0, a)] + [Begin(1, b)], 0);
    steps := ExecutesAll(s, steps, 1);
    OneMore(s, steps, Commit(0));
    steps := steps + [Commit(0)];
    OneMore(s, steps, Commit(1));
    steps := steps + [Commit(1)];
  }

  /**
   Without the lock the checks do not suffice: for any two roles there is a run of two updates,
   each of which passes every check on its own snapshot, that commits a cycle.
   */
  lemma UnlockedWritersCloseCycles(n: string, m: string) returns (steps: seq<Step>)
    requires n != m && !Blank(n) && !Blank(m)
    ensures var s := OpenDb(NO_ROWS.(roles := {n, m}), map[]);
      R.Sound(s.committed) && OpenRun(s, steps) && !R.Sound(OpenAfter(s, steps).committed)
  {
    var t := NO_ROWS.(roles := {n, m});
    var a, b := UpdateRole(Role(n, [], [m])), UpdateRole(Role(m, [], [n]));
    UnlinkedRolesSound(t);
    LoneUpdatePasses(t, n, m);
    assert t == NO_ROWS.(roles := {m, n});
    LoneUpdatePasses(t, m, n);
    ProgramOfOne(a);
    ProgramOfOne(b);
    steps := BothCommit(t, [a], [b]);
    ViewIsRun(t, Compile(a));
    CommitOver(t.(parents := {(n, m)}), m, n);
    MutualLinksUnsound(View(t.(parents := {(n, m)}), Compile(b)), n, m);
  }

  lemma ProgramOfOne(op: Op)
    ensures Program([op]) == Compile(op)
  {
    assert [op][1..] == [];
    assert Compile(op) + [] == Compile(op);
  }

  lemma UnlinkedRolesSound(t: Tables)
    requires t == NO_ROWS.(roles := t.roles)
    ensures R.Sound(t)
  {
    assert forall n, m :: n in R.View(t).roles ==> m !in R.View(t).roles[n].parents;
    forall n ensures !OnCycle(Parents(R.View(t)), n) {
    }
  }

  lemma MutualLinksUnsound(t: Tables, n: string, m: string)
    requires (n, m) in t.parents && (m, n) in t.parents
    ensures !R.Sound(t)
  {
    var g := RowsGraph(t.parents);
    RowsGraphEdges(t.parents, n, m);
    RowsGraphEdges(t.parents, m, n);
    ReachesSelf(g, n);
    ReachesByEdge(g, m, n, n);
    assert OnCycle(g, n);
    if R.RowsOwned(t) {
      R.SameCycles(t, n);
      SelfAncestorIsCycle(t.parents, n);
    }
  }

  lemma LoneUpdatePasses(t: Tables, n: string, m: string)
    requires t == NO_ROWS.(roles := {n, m}) && n != m && !Blank(n)
    ensures SqlApply(t, UpdateRole(Role(n, [], [m]))) == Ok(t.(parents := {(n, m)}))
  {
    var role := Role(n, [], [m]);
    SqlApplyIsEffect(t, UpdateRole(role));
    var base := WithoutOwnRows(t, n);
    assert base == t;
    assert Elements([m]) == {m};
    assert PermissionRows(n, []) == {} && ParentRows(n, [m]) == {(n, m)};
    var rows := t.parents + ParentRows(n, [m]);
    assert rows == {(n, m)};
    if ProperAncestor(rows, n, n) {
      var k :| (n, k) in rows && Reaches(RowsGraph(rows), k, n);
      forall x, y | x in {m} && Edge(RowsGraph(rows), x, y) ensures y in {m} {
        RowsGraphEdges(rows, x, y);
      }
      ClosedContainsReach(RowsGraph(rows), {m}, m, n);
    }
    assert base.permissions + PermissionRows(n, []) == t.permissions;
    assert StoreRows(base, role) == Ok(t.(parents := rows));
  }

  /** Statements among which none adds a link or drops one that is there. */
  ghost predicate KeepLinks(links: set<(string, string)>, stmts: seq<Stmt>) {
    forall s :: s in stmts ==>
      s.RequireRole? || s.RequireNoCycle? || s.DropPermissions? || (s.DropLinksOf? && NotOf(links, s.name) == links)
  }

  lemma {:induction false} LinksKept(u: Tables, stmts: seq<Stmt>)
    requires KeepLinks(u.parents, stmts)
    ensures View(u, stmts).parents == u.parents
    decreases |stmts|
  {
    if stmts != [] {
      LinksKept(u, stmts[..|stmts| - 1]);
    }
  }

  /** Carrying the update's writes out on tables that already link the other way keeps both links. */
  lemma CommitOver(u: Tables, n: string, m: string)
    requires u.parents == {(m, n)} && n != m
    ensures {(m, n), (n, m)} <= View(u, Compile(UpdateRole(Role(n, [], [m])))).parents
  {
    var front := [RequireRole(n, RoleNotFound), DropPermissions(n), DropLinksOf(n), RequireRole(m, ParentNotFound)];
    var linked := front + [InsertParent(n, m)];
    var stmts := linked + [RequireNoCycle(n)];
    assert InsertParents(n, [m]) == [RequireRole(m, ParentNotFound), InsertParent(n, m)] + InsertParents(n, [m][1..]);
    assert Compile(UpdateRole(Role(n, [], [m]))) == stmts;
    LinksKept(u, front);
    assert linked[..4] == front && stmts[..5] == linked;
    assert View(u, linked).parents == u.parents + {(n, m)};
  }
}
