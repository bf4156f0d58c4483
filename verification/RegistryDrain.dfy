/**
 The tenant registry drains: cleanup starts when it is due, nothing an entry needs is forgotten,
 and after shutdown the work left counts down to the stop.
 */
module RegistryDrain {
  import opened Basics
  import opened Registry

  /** In every run, cleanup has started exactly for the retired, unleased, provisioned entries. */
  lemma CleanupStartsWhenDue<E>(capacity: nat, idleTtl: int, steps: seq<Step<E>>, e: E)
    requires Legal(Fresh(capacity, idleTtl), steps)
    requires e in After(Fresh<E>(capacity, idleTtl), steps).entries
    ensures var s := After(Fresh<E>(capacity, idleTtl), steps);
      !s.entries[e].cleanup.Open? <==>
        s.entries[e].retired && Outstanding(s.leases, e) == {} && s.entries[e].provision.Ready?
  {
    FreshInv<E>(capacity, idleTtl);
    RunKeepsInv(Fresh<E>(capacity, idleTtl), steps);
    var s := After(Fresh<E>(capacity, idleTtl), steps);
    assert EntryOk(s.entries[e]) && s.entries[e].refs == |Outstanding(s.leases, e)|;
  }

  /** When the registry has stopped, every Enforcer any factory returned is down, bar the entries `Clear` forgot. */
  lemma StoppedMeansDown<E>(capacity: nat, idleTtl: int, steps: seq<Step<E>>)
    requires Legal(Fresh(capacity, idleTtl), steps)
    ensures var s := After(Fresh<E>(capacity, idleTtl), steps);
      && (s.stopped <==> s.closed && s.all == {})
      && (s.stopped ==> forall e :: e in s.entries && e !in s.forgotten ==>
            && s.entries[e].provision.Ready? && Outstanding(s.leases, e) == {}
            && (s.entries[e].provision.enforcer.Some? ==> s.entries[e].provision.enforcer.value.id in s.down))
  {
    FreshInv<E>(capacity, idleTtl);
    RunKeepsInv(Fresh<E>(capacity, idleTtl), steps);
    var s := After(Fresh<E>(capacity, idleTtl), steps);
    if s.stopped {
      forall e | e in s.entries && e !in s.forgotten
        ensures && s.entries[e].provision.Ready? && Outstanding(s.leases, e) == {}
                && (s.entries[e].provision.enforcer.Some? ==> s.entries[e].provision.enforcer.value.id in s.down)
      {
        assert Placed(s, e) && EntryOk(s.entries[e]) && s.entries[e].refs == |Outstanding(s.leases, e)|;
        if s.entries[e].provision.enforcer.Some? {
          assert s.entries[e].provision.enforcer.value.id in Gone(s.entries[e]);
        }
      }
    }
  }

  /** What is left to do: an outstanding lease, or a stage of an entry's factory call and cleanup. */
  datatype Work<E> = LeaseOut(lease: nat) | Stage(entry: E, number: nat)

  function StagesLeft(e: Entry): nat {
    var provisioning := match e.provision
      case Running => 4
      case Returned(_, _) => 3
      case Checked(_, _) => 2
      case Vetted(_, _) => 1
      case Ready(_, _) => 0;
    var closing := match e.cleanup
      case Open => 2
      case Closing => 2
      case Down => 1
      case Finished => 0;
    provisioning + closing
  }

  ghost function LeasesOut<E>(s: Registry<E>): set<Work<E>> {
    set l | l in s.leases && !s.leases[l].phase.Released? && s.leases[l].entry in s.all :: LeaseOut(l)
  }

  ghost function StagesOf<E>(s: Registry<E>): set<Work<E>> {
    set e, k: nat | e in s.all && e in s.entries && k < StagesLeft(s.entries[e]) :: Stage(e, k)
  }

  ghost function WorkLeft<E>(s: Registry<E>): set<Work<E>> {
    LeasesOut(s) + StagesOf(s)
  }

  /** The natural number that falls to 0. */
  ghost function Remaining<E>(s: Registry<E>): nat {
    |WorkLeft(s)|
  }

  /** The piece of work a step does, if any. */
  ghost function Done<E>(s: Registry<E>, step: Step<E>): set<Work<E>>
    requires Enabled(s, step)
  {
    match step
    case GiveUp(l, _) => LeasesOut(s) * {LeaseOut(l)}
    case Release(l, _) => LeasesOut(s) * {LeaseOut(l)}
    case FactoryReturns(e, _, _) => LastStage(s, e)
    case CheckContext(e) => LastStage(s, e)
    case Vet(e, _) => LastStage(s, e)
    case Record(e) => LastStage(s, e)
    case ShutEnforcer(e) => LastStage(s, e)
    case FinishEntry(e) => LastStage(s, e)
    case _ => {}
  }

  ghost function LastStage<E>(s: Registry<E>, e: E): set<Work<E>>
    requires e in s.entries
  {
    if e in s.all && StagesLeft(s.entries[e]) > 0 then {Stage(e, StagesLeft(s.entries[e]) - 1)} else {}
  }

  lemma StagesSame<E>(s: Registry<E>, t: Registry<E>)
    requires t.all == s.all <= s.entries.Keys && t.entries.Keys == s.entries.Keys
    requires forall e :: e in s.all ==> StagesLeft(t.entries[e]) == StagesLeft(s.entries[e])
    ensures StagesOf(t) == StagesOf(s)
  {
    forall w | w in StagesOf(s) ensures w in StagesOf(t) {
      assert w.Stage? && w.entry in t.all && w.number < StagesLeft(t.entries[w.entry]);
    }
    forall w | w in StagesOf(t) ensures w in StagesOf(s) {
      assert w.Stage? && w.entry in s.all && w.number < StagesLeft(s.entries[w.entry]);
    }
  }

  lemma StagesAfterOne<E>(s: Registry<E>, t: Registry<E>, e: E)
    requires s.all <= s.entries.Keys && t.entries.Keys == s.entries.Keys && e in s.entries
    requires forall f :: f in s.entries && f != e ==> t.entries[f] == s.entries[f]
    requires StagesLeft(t.entries[e]) == StagesLeft(s.entries[e]) - 1
    requires t.all == if StagesLeft(s.entries[e]) == 1 then s.all - {e} else s.all
    ensures StagesOf(t) == StagesOf(s) - LastStage(s, e)
    ensures LastStage(s, e) <= StagesOf(s)
  {
    forall w | w in StagesOf(s) - LastStage(s, e) ensures w in StagesOf(t) {
      assert w.Stage? && w.entry in t.all && w.number < StagesLeft(t.entries[w.entry]);
    }
    forall w | w in StagesOf(t) ensures w in StagesOf(s) && w !in LastStage(s, e) {
      assert w.Stage? && w.entry in s.all && w.number < StagesLeft(s.entries[w.entry]);
    }
  }

  lemma LeasesSame<E>(s: Registry<E>, t: Registry<E>)
    requires t.all <= s.all && t.leases.Keys == s.leases.Keys
    requires forall l :: l in s.leases ==>
               && t.leases[l].entry == s.leases[l].entry
               && (t.leases[l].phase.Released? <==> s.leases[l].phase.Released?)
               && (s.leases[l].entry in s.all && s.leases[l].entry !in t.all ==> s.leases[l].phase.Released?)
    ensures LeasesOut(t) == LeasesOut(s)
  {
    forall w | w in LeasesOut(s) ensures w in LeasesOut(t) {
      assert w.LeaseOut? && w.lease in t.leases && t.leases[w.lease].entry in t.all;
    }
    forall w | w in LeasesOut(t) ensures w in LeasesOut(s) {
      assert w.LeaseOut? && w.lease in s.leases && s.leases[w.lease].entry in s.all;
    }
  }

  lemma UnrefDoes<E>(s: Registry<E>, l: nat, now: int)
    requires Inv(s) && l in s.leases && !s.leases[l].phase.Released?
    ensures WorkLeft(Unref(s, l, now)) == WorkLeft(s) - (LeasesOut(s) * {LeaseOut(l)})
  {
    OneLeaseLess(s, Unref(s, l, now), l);
    assert EntryOk(s.entries[s.leases[l].entry]);
    StagesSame(s, Unref(s, l, now));
  }

  lemma OneLeaseLess<E>(s: Registry<E>, t: Registry<E>, l: nat)
    requires l in s.leases && t.all == s.all && t.leases == s.leases[l := s.leases[l].(phase := Released)]
    ensures LeasesOut(t) == LeasesOut(s) - {LeaseOut(l)}
  {
    forall w | w in LeasesOut(s) - {LeaseOut(l)} ensures w in LeasesOut(t) {
      assert w.LeaseOut? && w.lease in t.leases && t.leases[w.lease].entry in t.all;
    }
    forall w | w in LeasesOut(t) ensures w in LeasesOut(s) && w != LeaseOut(l) {
      assert w.LeaseOut? && w.lease in s.leases && s.leases[w.lease].entry in s.all;
    }
  }

  lemma AdvanceLowersStages<E>(s: Registry<E>, step: Step<E>)
    requires EntriesOk(s.entries) && Enabled(s, step) && OneEntryStep(step)
    ensures StagesLeft(Advance(s.entries[step.entry], step)) == StagesLeft(s.entries[step.entry]) - (if step.Expire? then 0 else 1)
    ensures !step.Expire? ==> StagesLeft(s.entries[step.entry]) > 1
  {
    assert EntryOk(s.entries[step.entry]);
  }

  lemma AdvancedDoes<E>(s: Registry<E>, e: E, x: Entry)
    requires PlaceInv(s) && e in s.entries
    requires StagesLeft(x) == StagesLeft(s.entries[e]) - 1 && StagesLeft(s.entries[e]) > 1
    ensures WorkLeft(Advanced(s, e, x)) == WorkLeft(s) - LastStage(s, e)
  {
    LeasesSame(s, Advanced(s, e, x));
    StagesAfterOne(s, Advanced(s, e, x), e);
  }

  lemma ExpiredDoes<E>(s: Registry<E>, e: E, x: Entry)
    requires PlaceInv(s) && e in s.entries && StagesLeft(x) == StagesLeft(s.entries[e])
    ensures WorkLeft(Advanced(s, e, x)) == WorkLeft(s)
  {
    StagesSame(s, Advanced(s, e, x));
    LeasesSame(s, Advanced(s, e, x));
  }

  lemma AdvanceDoes<E>(s: Registry<E>, step: Step<E>)
    requires PlaceInv(s) && EntriesOk(s.entries) && Enabled(s, step) && OneEntryStep(step)
    ensures WorkLeft(Do(s, step)) == WorkLeft(s) - Done(s, step)
  {
    var x := Advance(s.entries[step.entry], step);
    AdvanceLowersStages(s, step);
    if step.Expire? {
      ExpiredDoes(s, step.entry, x);
    } else {
      AdvancedDoes(s, step.entry, x);
    }
  }

  lemma FinishDoes<E>(s: Registry<E>, e: E)
    requires Inv(s) && Enabled(s, FinishEntry(e))
    ensures WorkLeft(Do(s, FinishEntry(e))) == WorkLeft(s) - LastStage(s, e)
  {
    assert EntryOk(s.entries[e]) && Placed(s, e);
    NoLeaseOut(s, e);
    var x := s.entries[e].(cleanup := Finished);
    FinishedDoes(s, SignalStopped(s.(entries := s.entries[e := x], all := s.all - {e})), e);
  }

  lemma NoLeaseOut<E>(s: Registry<E>, e: E)
    requires LeaseInv(s.leases, s.entries) && RefInv(s.leases, s.entries) && e in s.entries && s.entries[e].refs == 0
    ensures forall l :: l in s.leases && s.leases[l].entry == e ==> s.leases[l].phase.Released?
  {
    forall l | l in s.leases && s.leases[l].entry == e ensures s.leases[l].phase.Released? {
      if !s.leases[l].phase.Released? { LeasedHaveRefs(s.leases, s.entries, l); }
    }
  }

  lemma FinishedDoes<E>(s: Registry<E>, t: Registry<E>, e: E)
    requires s.all <= s.entries.Keys && e in s.entries && t.all == s.all - {e} && t.leases == s.leases
    requires StagesLeft(s.entries[e]) == 1
    requires t.entries == s.entries[e := s.entries[e].(cleanup := Finished)] && StagesLeft(t.entries[e]) == 0
    requires forall l :: l in s.leases && s.leases[l].entry == e ==> s.leases[l].phase.Released?
    ensures WorkLeft(t) == WorkLeft(s) - LastStage(s, e)
  {
    LeasesSame(s, t);
    StagesAfterOne(s, t, e);
  }

  lemma NothingCachedDoes<E>(s: Registry<E>, tenants: set<string>)
    requires CacheInv(s) && PlaceInv(s) && s.closed
    ensures WorkLeft(Evicted(s, tenants)) == WorkLeft(s)
  {
    assert Members(s, tenants) == {};
    LeasesSame(s, Evicted(s, tenants));
    StagesSame(s, Evicted(s, tenants));
  }

  lemma ShutdownAgainDoes<E>(s: Registry<E>)
    requires PlaceInv(s) && s.closed
    ensures WorkLeft(Do(s, Shutdown)) == WorkLeft(s)
  {
    LeasesSame(s, Do(s, Shutdown));
    StagesSame(s, Do(s, Shutdown));
  }

  lemma ClearDoesNothing<E>(s: Registry<E>)
    requires CacheInv(s) && PlaceInv(s) && s.closed
    ensures WorkLeft(Do(s, Clear)) == WorkLeft(s)
  {
    assert Members(s, s.cache.Keys) == {};
    LeasesSame(s, Do(s, Clear));
    StagesSame(s, Do(s, Clear));
  }

  lemma HandOutDoesNothing<E>(s: Registry<E>, l: nat)
    requires PlaceInv(s) && Enabled(s, HandOut(l))
    ensures WorkLeft(Do(s, HandOut(l))) == WorkLeft(s)
  {
    LeasesSame(s, Do(s, HandOut(l)));
    StagesSame(s, Do(s, HandOut(l)));
  }

  /** After shutdown, each step removes exactly the piece of work it does and adds none. */
  lemma StepDoesItsWork<E>(s: Registry<E>, step: Step<E>)
    requires Inv(s) && s.closed && Enabled(s, step)
    ensures WorkLeft(Do(s, step)) == WorkLeft(s) - Done(s, step)
  {
    if LeaseStep(step) {
      LeaseStepDoes(s, step);
    } else if EvictStep(step) {
      EvictStepDoes(s, step);
    } else if OneEntryStep(step) {
      AdvanceDoes(s, step);
    } else {
      CloseStepDoes(s, step);
    }
  }

  lemma CloseStepDoes<E>(s: Registry<E>, step: Step<E>)
    requires Inv(s) && s.closed && (step.FinishEntry? || step.Clear? || step.Shutdown?) && Enabled(s, step)
    ensures WorkLeft(Do(s, step)) == WorkLeft(s) - Done(s, step)
  {
    match step
    case FinishEntry(e) => FinishDoes(s, e);
    case Clear => ClearDoesNothing(s);
    case Shutdown => ShutdownAgainDoes(s);
  }

  lemma ClosedStays<E>(s: Registry<E>, step: Step<E>)
    requires s.closed && Enabled(s, step)
    ensures Do(s, step).closed
  {
  }

  lemma LeaseStepDoes<E>(s: Registry<E>, step: Step<E>)
    requires Inv(s) && s.closed && LeaseStep(step) && Enabled(s, step)
    ensures WorkLeft(Do(s, step)) == WorkLeft(s) - Done(s, step)
  {
    match step
    case HandOut(l) => HandOutDoesNothing(s, l);
    case GiveUp(l, now) => UnrefDoes(s, l, now);
    case Release(l, now) => if !s.leases[l].phase.Released? { UnrefDoes(s, l, now); }
  }

  lemma EvictStepDoes<E>(s: Registry<E>, step: Step<E>)
    requires CacheInv(s) && PlaceInv(s) && s.closed && EvictStep(step) && Enabled(s, step)
    ensures WorkLeft(Do(s, step)) == WorkLeft(s) - Done(s, step)
  {
    match step
    case Evict(tenant) => NothingCachedDoes(s, {tenant});
    case ClearAndClose => NothingCachedDoes(s, s.cache.Keys);
    case PruneIdle(now) => NothingCachedDoes(s, IdleTenants(s, now));
  }

  /** A release of an outstanding lease, or a stage of the factory call or cleanup, of a tracked entry. */
  ghost predicate Works<E>(s: Registry<E>, step: Step<E>)
    requires Enabled(s, step)
  {
    match step
    case GiveUp(l, _) => s.leases[l].entry in s.all
    case Release(l, _) => s.leases[l].entry in s.all && !s.leases[l].phase.Released?
    case FactoryReturns(e, _, _) => e in s.all
    case CheckContext(e) => e in s.all
    case Vet(e, _) => e in s.all
    case Record(e) => e in s.all
    case ShutEnforcer(e) => e in s.all
    case FinishEntry(e) => e in s.all
    case _ => false
  }

  lemma StagesAreLeft<E>(s: Registry<E>, step: Step<E>)
    requires EntriesOk(s.entries) && Enabled(s, step) && (OneEntryStep(step) || step.FinishEntry?) && !step.Expire?
    ensures StagesLeft(s.entries[step.entry]) > 0
  {
    assert EntryOk(s.entries[step.entry]);
  }

  lemma WorkersDoOne<E>(s: Registry<E>, step: Step<E>)
    requires EntriesOk(s.entries) && Enabled(s, step)
    ensures |Done(s, step)| == if Works(s, step) then 1 else 0
  {
    if step.GiveUp? || step.Release? {
      assert LeaseOut(step.lease) in LeasesOut(s) <==> Works(s, step);
      assert Done(s, step) == if Works(s, step) then {LeaseOut(step.lease)} else {};
    } else if (OneEntryStep(step) || step.FinishEntry?) && !step.Expire? {
      StagesAreLeft(s, step);
    }
  }

  /**
   The number falls by exactly one with each release, stage of a factory call and step of a
   cleanup of a tracked entry, and stays the same with every other step.
   */
  lemma StepLowersRemaining<E>(s: Registry<E>, step: Step<E>)
    requires Inv(s) && s.closed && Enabled(s, step)
    ensures Remaining(Do(s, step)) == Remaining(s) - |Done(s, step)|
    ensures |Done(s, step)| == if Works(s, step) then 1 else 0
  {
    StepDoesItsWork(s, step);
    DoneIsLeft(s, step);
    WorkersDoOne(s, step);
    CardOfDifference(WorkLeft(s), Done(s, step));
  }

  /** It is 0 exactly when the registry has stopped. */
  lemma RemainingIsZeroWhenStopped<E>(s: Registry<E>)
    requires Inv(s) && s.closed
    ensures Remaining(s) == 0 <==> s.stopped
  {
    if s.all == {} {
      assert WorkLeft(s) == {};
    } else {
      var e :| e in s.all;
      assert Placed(s, e);
      assert Stage(e, 0) in StagesOf(s);
    }
  }

  /** Nothing blocks: while something is tracked, some step does a piece of its work. */
  lemma SomeWorkIsEnabled<E>(s: Registry<E>) returns (step: Step<E>)
    requires Inv(s) && s.closed && !s.stopped
    ensures Enabled(s, step) && |Done(s, step)| == 1
  {
    var e :| e in s.all;
    assert Placed(s, e);
    step := NextOf(s, e);
  }

  /** The next piece of a tracked, retired entry's work. */
  lemma NextOf<E>(s: Registry<E>, e: E) returns (step: Step<E>)
    requires Inv(s) && e in s.all && s.entries[e].retired
    ensures Enabled(s, step) && |Done(s, step)| == 1
    ensures step.GiveUp? || step.Release? || step.FinishEntry? || (OneEntryStep(step) && !step.Expire?)
    ensures step.GiveUp? || step.Release? ==> s.leases[step.lease].entry == e && !s.leases[step.lease].phase.Released? && step.now == 0
    ensures step.FinishEntry? || OneEntryStep(step) ==> step.entry == e && (step.FinishEntry? ==> s.entries[e].provision.Ready?)
  {
    assert Placed(s, e) && EntryOk(s.entries[e]);
    if s.entries[e].provision.Ready? && s.entries[e].cleanup.Open? {
      step := NextRelease(s, e);
    } else {
      step := NextStage(s, e);
    }
  }

  /** The next stage of the entry's factory call or cleanup. */
  lemma NextStage<E>(s: Registry<E>, e: E) returns (step: Step<E>)
    requires e in s.all && e in s.entries && !s.entries[e].cleanup.Finished?
    requires s.entries[e].provision.Ready? ==> !s.entries[e].cleanup.Open?
    requires !s.entries[e].provision.Ready? ==> s.entries[e].cleanup.Open?
    ensures Enabled(s, step) && |Done(s, step)| == 1
    ensures step.FinishEntry? || (OneEntryStep(step) && !step.Expire?)
    ensures step.entry == e && (step.FinishEntry? ==> s.entries[e].provision.Ready?)
  {
    match s.entries[e].provision
    case Running => step := FactoryReturns(e, None, true);
    case Returned(_, _) => step := CheckContext(e);
    case Checked(_, _) => step := Vet(e, false);
    case Vetted(_, _) => step := Record(e);
    case Ready(_, _) => step := if s.entries[e].cleanup.Closing? then ShutEnforcer(e) else FinishEntry(e);
  }

  /** An entry that waits for its leases has one that can be released or given up. */
  lemma NextRelease<E>(s: Registry<E>, e: E) returns (step: Step<E>)
    requires Inv(s) && e in s.all && s.entries[e].refs != 0
    ensures (step.GiveUp? || step.Release?) && Enabled(s, step) && |Done(s, step)| == 1
    ensures s.leases[step.lease].entry == e && !s.leases[step.lease].phase.Released? && step.now == 0
  {
    assert s.entries[e].refs == |Outstanding(s.leases, e)|;
    var l :| l in Outstanding(s.leases, e);
    step := if s.leases[l].phase.Waiting? then GiveUp(l, 0) else Release(l, 0);
    assert LeaseOut(l) in LeasesOut(s);
    assert Done(s, step) == {LeaseOut(l)};
  }

  lemma DoesOnePiece<E>(s: Registry<E>, step: Step<E>)
    requires Inv(s) && s.closed && Enabled(s, step) && |Done(s, step)| == 1
    ensures Inv(Do(s, step)) && Do(s, step).closed && Remaining(Do(s, step)) == Remaining(s) - 1
  {
    StepKeepsInv(s, step);
    ClosedStays(s, step);
    StepLowersRemaining(s, step);
  }

  /** From every reachable state after `Shutdown`, exactly `Remaining` pieces of work lead to the stop. */
  lemma {:induction false} Drains<E>(s: Registry<E>) returns (steps: seq<Step<E>>)
    requires Inv(s) && s.closed
    ensures |steps| == Remaining(s) && Legal(s, steps) && After(s, steps).stopped
    decreases Remaining(s)
  {
    RemainingIsZeroWhenStopped(s);
    if s.stopped {
      steps := [];
    } else {
      var step := SomeWorkIsEnabled(s);
      DoesOnePiece(s, step);
      var rest := Drains(Do(s, step));
      steps := [step] + rest;
    }
  }

  /** The pieces of work done in a run. */
  ghost function WorkDone<E>(s: Registry<E>, steps: seq<Step<E>>): nat
    requires Legal(s, steps)
    decreases |steps|
  {
    if steps == [] then 0 else |Done(s, steps[0])| + WorkDone(Do(s, steps[0]), steps[1..])
  }

  /** After `Shutdown` the work done in a run and the work left always add up to what was left. */
  lemma {:induction false} RunCountsDown<E>(s: Registry<E>, steps: seq<Step<E>>)
    requires Inv(s) && s.closed && Legal(s, steps)
    ensures WorkDone(s, steps) + Remaining(After(s, steps)) == Remaining(s)
    ensures After(s, steps).closed
    decreases |steps|
  {
    if steps != [] {
      var t := Do(s, steps[0]);
      StepKeepsInv(s, steps[0]);
      ClosedStays(s, steps[0]);
      StepLowersRemaining(s, steps[0]);
      RunCountsDown(t, steps[1..]);
      assert WorkDone(s, steps) == |Done(s, steps[0])| + WorkDone(t, steps[1..]);
    }
  }

  /** The registry has stopped exactly when all of that work is done. */
  lemma StopsWhenAllIsDone<E>(s: Registry<E>, steps: seq<Step<E>>)
    requires Inv(s) && s.closed && Legal(s, steps)
    ensures WorkDone(s, steps) <= Remaining(s)
    ensures After(s, steps).stopped <==> WorkDone(s, steps) == Remaining(s)
  {
    RunCountsDown(s, steps);
    RunKeepsInv(s, steps);
    RemainingIsZeroWhenStopped(After(s, steps));
  }

  lemma DoneIsLeft<E>(s: Registry<E>, step: Step<E>)
    requires Inv(s) && Enabled(s, step)
    ensures Done(s, step) <= WorkLeft(s) && |Done(s, step)| <= 1
  {
    match step
    case GiveUp(l, _) => LeaseIsLeft(s, l);
    case Release(l, _) => LeaseIsLeft(s, l);
    case FactoryReturns(e, _, _) => LastStageIsLeft(s, e);
    case CheckContext(e) => LastStageIsLeft(s, e);
    case Vet(e, _) => LastStageIsLeft(s, e);
    case Record(e) => LastStageIsLeft(s, e);
    case ShutEnforcer(e) => LastStageIsLeft(s, e);
    case FinishEntry(e) => LastStageIsLeft(s, e);
    case _ =>
  }

  lemma LeaseIsLeft<E>(s: Registry<E>, l: nat)
    ensures LeasesOut(s) * {LeaseOut(l)} <= WorkLeft(s) && |LeasesOut(s) * {LeaseOut(l)}| <= 1
  {
    CardOfPart(LeasesOut(s), LeaseOut(l));
  }

  lemma LastStageIsLeft<E>(s: Registry<E>, e: E)
    requires e in s.entries
    ensures LastStage(s, e) <= WorkLeft(s) && |LastStage(s, e)| <= 1
  {
    if LastStage(s, e) != {} {
      assert Stage(e, StagesLeft(s.entries[e]) - 1) in StagesOf(s);
    }
  }

  lemma CardOfPart<T>(a: set<T>, x: T)
    ensures |a * {x}| <= 1
  {
    assert a * {x} == if x in a then {x} else {};
  }
}
