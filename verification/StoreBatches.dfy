/**
 Operations and batches against both stores: each succeeds in both or neither, with the same
 error but for the one dispute, and every run leaves both with the same policy.
 */
module StoreBatches {
  import opened Basics
  import opened Policy
  import opened MemoryContents
  import opened PolicyBatch
  import opened SqlTables
  import R = SqlRefinement
  import W = SqlWriters

  /**
   What is asked of a store at once. The orders are those in which the SQL store happens to walk
   the batch's rules and metadata; the outcome in memory depends on none.
   */
  datatype Job = One(op: Op) | Many(batch: Batch, ruleOrder: seq<string>, metadataOrder: seq<string>)

  ghost predicate WellFormed(job: Job) {
    job.Many? ==> Enumerates(job.ruleOrder, job.batch.rules.Keys) && Enumerates(job.metadataOrder, job.batch.metadata.Keys)
  }

  function Ops(job: Job): seq<Op>
    requires job.Many? ==>
      Elements(job.ruleOrder) <= job.batch.rules.Keys && Elements(job.metadataOrder) <= job.batch.metadata.Keys
  {
    match job
    case One(op) => [op]
    case Many(b, ruleOrder, metadataOrder) => BatchOps(b, ruleOrder, metadataOrder)
  }

  ghost function InMemory(c: Contents, job: Job): Result<Contents> {
    match job
    case One(op) => MemApply(c, op)
    case Many(b, _, _) => BatchOutcome(c, b)
  }

  /** A batch is one transaction over the statements of all its operations. */
  ghost function InSql(t: Tables, job: Job): Result<Tables>
    requires WellFormed(job)
  {
    match job
    case One(op) => SqlApply(t, op)
    case Many(b, _, _) => if BatchFault(b).Some? then Err(BatchFault(b).value) else Run(t, W.Program(Ops(job)))
  }

  ghost function Asked(p: Policy, job: Job): Result<Policy>
    requires WellFormed(job)
  {
    match job
    case One(op) => Apply(p, op)
    case Many(b, _, _) => if BatchFault(b).Some? then Err(BatchFault(b).value) else RunAll(p, Ops(job))
  }

  /** The first operation that fails is the registration of a role under itself. */
  ghost predicate Disputed(t: Tables, ops: seq<Op>)
    decreases |ops|
  {
    ops != [] && (R.SelfParentOnly(t, ops[0]) || (SqlApply(t, ops[0]).Ok? && Disputed(SqlApply(t, ops[0]).value, ops[1..])))
  }

  // ---- One batch ----

  lemma NothingToCheck(job: Job)
    requires WellFormed(job) && job.Many? && BatchFault(job.batch).None?
    ensures forall op :: op in Ops(job) ==> Precheck(op).None?
  {
    var b := job.batch;
    forall op | op in Registrations(b) + Updates(b) ensures Precheck(op).None? {
      if i :| 0 <= i < |b.register| && Registrations(b)[i] == op {
        assert b.register[i] in b.register + b.update;
      } else {
        var k :| 0 <= k < |b.update| && Updates(b)[k] == op;
        assert b.update[k] in b.register + b.update;
      }
    }
    forall op | op in RuleOps(b.rules, job.ruleOrder) ensures Precheck(op).None? {
      var i :| 0 <= i < |job.ruleOrder| && RuleOps(b.rules, job.ruleOrder)[i] == op;
      assert job.ruleOrder[i] in Elements(job.ruleOrder);
    }
  }

  /** What both stores do with the same operations in turn, all or nothing. */
  lemma {:induction false} OpsStayAlike(c: Contents, t: Tables, ops: seq<Op>)
    requires Sound(c) && R.Sound(t) && View(c) == R.View(t)
    requires forall op :: op in ops ==> Precheck(op).None?
    ensures MemRunAll(c, ops).Ok? <==> Run(t, W.Program(ops)).Ok?
    ensures MemRunAll(c, ops).Ok? ==> View(MemRunAll(c, ops).value) == R.View(Run(t, W.Program(ops)).value)
    ensures MemRunAll(c, ops).Err? ==> (MemRunAll(c, ops).error == Run(t, W.Program(ops)).error <==> !Disputed(t, ops))
    decreases |ops|
  {
    if ops != [] {
      var op, rest := ops[0], ops[1..];
      assert op in ops && forall o :: o in rest ==> o in ops;
      RunAppend(t, Compile(op), W.Program(rest));
      R.StoresStayAlike(c, t, op);
      MemoryRefines(c, op);
      R.SqlRefines(t, op);
      if MemApply(c, op).Ok? {
        NotDisputedThere(t, op);
        OpsStayAlike(MemApply(c, op).value, SqlApply(t, op).value, rest);
      }
    }
  }

  lemma NotDisputedThere(t: Tables, op: Op)
    requires R.Sound(t) && SqlApply(t, op).Ok?
    ensures !R.SelfParentOnly(t, op)
  {
    if R.SelfParentOnly(t, op) { R.SelfParentDispute(t, op); }
  }

  /**
   On stores that show the same policy a job succeeds in both or neither, keeps them alike, and
   fails with the same error exactly if that is not the one dispute.
   */
  lemma JobsStayAlike(c: Contents, t: Tables, job: Job)
    requires WellFormed(job) && Sound(c) && R.Sound(t) && View(c) == R.View(t)
    ensures InMemory(c, job).Ok? <==> InSql(t, job).Ok?
    ensures InMemory(c, job).Ok? ==> View(InMemory(c, job).value) == R.View(InSql(t, job).value)
    ensures InMemory(c, job).Err? ==> (InMemory(c, job).error == InSql(t, job).error <==>
      !Disputed(t, if job.Many? && BatchFault(job.batch).Some? then [] else Ops(job)))
  {
    match job
    case One(op) =>
      R.StoresStayAlike(c, t, op);
      R.SqlRefines(t, op);
      assert [op][1..] == [];
    case Many(b, ruleOrder, metadataOrder) =>
      if BatchFault(b).None? {
        NothingToCheck(job);
        BatchIsItsOperations(c, b, ruleOrder, metadataOrder);
        OpsStayAlike(c, t, Ops(job));
      }
  }

  lemma JobRefinesInMemory(c: Contents, job: Job)
    requires WellFormed(job) && Sound(c)
    ensures Agrees(InMemory(c, job), Asked(View(c), job))
  {
    match job
    case One(op) => MemoryRefines(c, op);
    case Many(b, ruleOrder, metadataOrder) =>
      if BatchFault(b).None? { BatchRefines(c, b, ruleOrder, metadataOrder); }
  }

  lemma JobRefinesInSql(t: Tables, job: Job)
    requires WellFormed(job) && R.Sound(t)
    ensures R.SameEnd(InSql(t, job), Asked(R.View(t), job))
  {
    match job
    case One(op) => R.SqlRefines(t, op);
    case Many(b, _, _) =>
      if BatchFault(b).None? {
        NothingToCheck(job);
        W.ProgramRefines(t, Ops(job));
      }
  }

  // ---- Runs ----

  ghost predicate AllWellFormed(jobs: seq<Job>) {
    forall job :: job in jobs ==> WellFormed(job)
  }

  ghost function MemoryAfter(c: Contents, jobs: seq<Job>): Contents
    decreases |jobs|
  {
    if jobs == [] then c else MemoryAfter(if InMemory(c, jobs[0]).Ok? then InMemory(c, jobs[0]).value else c, jobs[1..])
  }

  ghost function SqlAfter(t: Tables, jobs: seq<Job>): Tables
    requires AllWellFormed(jobs)
    decreases |jobs|
  {
    if jobs == [] then t
    else
      assert jobs[0] in jobs && forall job :: job in jobs[1..] ==> job in jobs;
      SqlAfter(if InSql(t, jobs[0]).Ok? then InSql(t, jobs[0]).value else t, jobs[1..])
  }

  ghost function PolicyAfter(p: Policy, jobs: seq<Job>): Policy
    requires AllWellFormed(jobs)
    decreases |jobs|
  {
    if jobs == [] then p
    else
      assert jobs[0] in jobs && forall job :: job in jobs[1..] ==> job in jobs;
      PolicyAfter(if Asked(p, jobs[0]).Ok? then Asked(p, jobs[0]).value else p, jobs[1..])
  }

  lemma {:induction false} MemoryJobsRefine(c: Contents, jobs: seq<Job>)
    requires AllWellFormed(jobs) && Sound(c)
    ensures Sound(MemoryAfter(c, jobs)) && View(MemoryAfter(c, jobs)) == PolicyAfter(View(c), jobs)
    decreases |jobs|
  {
    if jobs != [] {
      assert jobs[0] in jobs && forall job :: job in jobs[1..] ==> job in jobs;
      JobRefinesInMemory(c, jobs[0]);
      MemoryJobsRefine(if InMemory(c, jobs[0]).Ok? then InMemory(c, jobs[0]).value else c, jobs[1..]);
    }
  }

  lemma {:induction false} SqlJobsRefine(t: Tables, jobs: seq<Job>)
    requires AllWellFormed(jobs) && R.Sound(t)
    ensures R.Sound(SqlAfter(t, jobs)) && R.View(SqlAfter(t, jobs)) == PolicyAfter(R.View(t), jobs)
    decreases |jobs|
  {
    if jobs != [] {
      assert jobs[0] in jobs && forall job :: job in jobs[1..] ==> job in jobs;
      JobRefinesInSql(t, jobs[0]);
      SqlJobsRefine(if InSql(t, jobs[0]).Ok? then InSql(t, jobs[0]).value else t, jobs[1..]);
    }
  }

  /** From empty stores, every run of operations and batches leaves both with the same, valid policy. */
  lemma StoresAgreeOnEveryRun(jobs: seq<Job>)
    requires AllWellFormed(jobs)
    ensures View(MemoryAfter(NOTHING, jobs)) == R.View(SqlAfter(NO_ROWS, jobs)) == PolicyAfter(EMPTY, jobs)
    ensures Valid(PolicyAfter(EMPTY, jobs))
  {
    NothingSound();
    R.NoRowsSound();
    MemoryJobsRefine(NOTHING, jobs);
    SqlJobsRefine(NO_ROWS, jobs);
  }
}
