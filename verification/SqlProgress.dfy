/**
 Write transactions do not block each other for good: whoever holds the lock, a waiting writer can
 still run to its end, commits exactly if its checks pass, and leaves the lock free.
 */
module SqlProgress {
  import opened Basics
  import opened Policy
  import opened SqlTables
  import opened SqlWriters

  /** States linked by steps. */
  ghost predicate Path(states: seq<Db>, steps: seq<Step>, from: Db, to: Db) {
    && |states| == |steps| + 1 && states[0] == from && states[|steps|] == to
    && forall i :: 0 <= i < |steps| ==> Next(states[i], steps[i], states[i + 1])
  }

  ghost predicate Leads(from: Db, to: Db) {
    exists states, steps :: Path(states, steps, from, to)
  }

  lemma LeadsNowhere(s: Db)
    ensures Leads(s, s)
  {
    assert Path([s], [], s, s);
  }

  lemma LeadsOn(s: Db, step: Step, t: Db, u: Db)
    requires Next(s, step, t) && Leads(t, u)
    ensures Leads(s, u)
  {
    var states, steps :| Path(states, steps, t, u);
    var longer, more := [s] + states, [step] + steps;
    forall i | 0 <= i < |more| ensures Next(longer[i], more[i], longer[i + 1]) {
      if i > 0 {
        assert Next(states[i - 1], steps[i - 1], states[i - 1 + 1]);
      }
    }
    assert Path(longer, more, s, u);
  }

  /** How a transaction that ran alone from here on leaves the tables. */
  ghost predicate EndedAlone(s: Db, u: Db, id: nat)
    requires id in s.txns
  {
    && id in u.txns && u.txns[id].phase.Ended? && u.lock == None
    && var outcome := Run(s.committed, Program(s.txns[id].ops));
       if outcome.Ok? then u.committed == outcome.value && u.history == s.history + [s.txns[id].ops]
       else u.committed == s.committed && u.history == s.history
  }

  /** A writer that holds the lock, its first `k` checks having passed, can run to its end. */
  lemma {:induction false} HolderCanEnd(s: Db, start: Tables, id: nat) returns (u: Db)
    requires Inv(s, start) && id in s.txns && s.txns[id].phase.Locked?
    ensures Leads(s, u) && EndedAlone(s, u, id)
    decreases |Program(s.txns[id].ops)| - s.txns[id].phase.executed
  {
    var program, k := Program(s.txns[id].ops), s.txns[id].phase.executed;
    if k == |program| {
      assert program[..k] == program;
      ViewIsRun(s.committed, program);
      u := Db(View(s.committed, program), None, s.txns[id := s.txns[id].(phase := Ended)], s.history + [s.txns[id].ops]);
      LeadsNowhere(u);
      LeadsOn(s, Commit(id), u, u);
    } else if Exec(View(s.committed, program[..k]), program[k]).Ok? {
      var t := s.(txns := s.txns[id := s.txns[id].(phase := Locked(k + 1))]);
      StepKeepsInv(s, Statement(id), t, start);
      u := HolderCanEnd(t, start, id);
      LeadsOn(s, Statement(id), t, u);
    } else {
      FailingStatement(s.committed, program, k);
      u := s.(lock := None, txns := s.txns[id := s.txns[id].(phase := Ended)]);
      LeadsNowhere(u);
      LeadsOn(s, Statement(id), u, u);
    }
  }

  /** The first statement that fails fails the whole. */
  lemma FailingStatement(t: Tables, program: seq<Stmt>, k: nat)
    requires k < |program| && Run(t, program[..k]).Ok? && Exec(View(t, program[..k]), program[k]).Err?
    ensures Run(t, program).Err?
  {
    if Run(t, program).Ok? {
      EachPasses(t, program, k);
    }
  }

  /**
   From every reachable state a writer that has begun can run to its end, at the cost of at most
   one other, and it commits exactly if all its checks pass on what is committed.
   */
  lemma EveryWriterCanEnd(states: seq<Db>, steps: seq<Step>, i: nat, id: nat) returns (u: Db)
    requires Behaviour(states, steps) && i < |states| && id in states[i].txns && !states[i].txns[id].phase.Ended?
    ensures Leads(states[i], u) && EndedAlone(states[i], u, id)
  {
    BehaviourKeepsInv(states, steps, i);
    var s, start := states[i], states[0].committed;
    if s.txns[id].phase.Locked? {
      u := HolderCanEnd(s, start, id);
    } else if s.lock == None {
      u := WaiterCanEnd(s, start, id);
    } else {
      LockIsHeld(states, steps, i);
      var holder := s.lock.value;
      var t := s.(lock := None, txns := s.txns[holder := s.txns[holder].(phase := Ended)]);
      StepKeepsInv(s, Abort(holder), t, start);
      u := WaiterCanEnd(t, start, id);
      LeadsOn(s, Abort(holder), t, u);
    }
  }

  lemma WaiterCanEnd(s: Db, start: Tables, id: nat) returns (u: Db)
    requires Inv(s, start) && s.lock == None && id in s.txns && s.txns[id].phase.Begun?
    ensures Leads(s, u) && EndedAlone(s, u, id)
  {
    var t := s.(lock := Some(id), txns := s.txns[id := s.txns[id].(phase := Locked(0))]);
    StepKeepsInv(s, TakeLock(id), t, start);
    u := HolderCanEnd(t, start, id);
    LeadsOn(s, TakeLock(id), t, u);
  }

  /** A lock that is taken is taken by a transaction that has not ended. */
  lemma {:induction false} LockIsHeld(states: seq<Db>, steps: seq<Step>, i: nat)
    requires Behaviour(states, steps) && i < |states|
    ensures states[i].lock.Some? ==> states[i].lock.value in states[i].txns && states[i].txns[states[i].lock.value].phase.Locked?
  {
    if i > 0 {
      LockIsHeld(states, steps, i - 1);
      BehaviourKeepsInv(states, steps, i - 1);
      assert Next(states[i - 1], steps[i - 1], states[i - 1 + 1]);
    }
  }
}
