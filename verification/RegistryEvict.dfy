/**
 Waiting for an eviction: what holds once the wait is over, and that it can always be brought
 to an end, in an open registry as in a closed one.
 */
module RegistryEvict {
  import opened Registry
  import opened RegistryDrain

  /** The channel an eviction waits on has been closed. */
  ghost predicate Over<E>(s: Registry<E>, e: E) {
    e in s.entries && s.entries[e].cleanup.Finished?
  }

  /**
   When the wait is over, in every run, the entry is provisioned and unleased, no caller can get
   it any more, and the Enforcer its factory returned is down.
   */
  lemma OverMeansDown<E>(capacity: nat, idleTtl: int, steps: seq<Step<E>>, e: E)
    requires Legal(Fresh(capacity, idleTtl), steps) && Over(After(Fresh<E>(capacity, idleTtl), steps), e)
    ensures var s := After(Fresh<E>(capacity, idleTtl), steps);
      && s.entries[e].retired && !Cached(s, e) && Outstanding(s.leases, e) == {} && s.entries[e].provision.Ready?
      && (s.entries[e].provision.enforcer.Some? ==> s.entries[e].provision.enforcer.value.id in s.down)
  {
    FreshInv<E>(capacity, idleTtl);
    RunKeepsInv(Fresh<E>(capacity, idleTtl), steps);
    var s := After(Fresh<E>(capacity, idleTtl), steps);
    assert Placed(s, e) && EntryOk(s.entries[e]) && s.entries[e].refs == |Outstanding(s.leases, e)|;
    if s.entries[e].provision.enforcer.Some? {
      assert s.entries[e].provision.enforcer.value.id in Gone(s.entries[e]);
    }
  }

  /** The releases and stages the entry still needs. */
  ghost function WorkOf<E>(s: Registry<E>, e: E): nat
    requires e in s.entries
  {
    |Outstanding(s.leases, e)| + StagesLeft(s.entries[e])
  }

  lemma StageLowersWork<E>(s: Registry<E>, step: Step<E>)
    requires Inv(s) && Enabled(s, step) && OneEntryStep(step) && !step.Expire? && s.entries[step.entry].retired
    ensures var t := Do(s, step);
      step.entry in t.entries && t.entries[step.entry].retired && WorkOf(t, step.entry) == WorkOf(s, step.entry) - 1
  {
    AdvanceLowersStages(s, step);
  }

  lemma FinishLowersWork<E>(s: Registry<E>, e: E)
    requires Enabled(s, FinishEntry(e)) && s.entries[e].provision.Ready? && s.entries[e].retired
    ensures var t := Do(s, FinishEntry(e)); e in t.entries && t.entries[e].retired && WorkOf(t, e) == WorkOf(s, e) - 1
  {
  }

  lemma UnrefLowersWork<E>(s: Registry<E>, l: nat, now: int)
    requires Inv(s) && l in s.leases && !s.leases[l].phase.Released? && s.entries[s.leases[l].entry].retired
    ensures var t, e := Unref(s, l, now), s.leases[l].entry;
      e in t.entries && t.entries[e].retired && WorkOf(t, e) == WorkOf(s, e) - 1
  {
    var t, e := Unref(s, l, now), s.leases[l].entry;
    assert EntryOk(s.entries[e]);
    assert Outstanding(t.leases, e) == Outstanding(s.leases, e) - {l};
    assert l in Outstanding(s.leases, e);
  }

  /** Some release, factory stage or cleanup step of the entry is always possible. */
  lemma EntryMovesOn<E>(s: Registry<E>, e: E) returns (step: Step<E>)
    requires Inv(s) && e in s.entries && s.entries[e].retired && !Over(s, e)
    ensures Enabled(s, step)
    ensures var t := Do(s, step); e in t.entries && t.entries[e].retired && WorkOf(t, e) == WorkOf(s, e) - 1
  {
    assert Placed(s, e);
    step := NextOf(s, e);
    if step.GiveUp? || step.Release? {
      UnrefLowersWork(s, step.lease, 0);
    } else if step.FinishEntry? {
      FinishLowersWork(s, e);
    } else {
      StageLowersWork(s, step);
    }
  }

  /** An eviction's wait can always end: from every reachable state exactly the entry's own work leads there. */
  lemma {:induction false} EvictionFinishes<E>(s: Registry<E>, e: E) returns (steps: seq<Step<E>>)
    requires Inv(s) && e in s.entries && s.entries[e].retired
    ensures |steps| == WorkOf(s, e) && Legal(s, steps) && Over(After(s, steps), e)
    decreases WorkOf(s, e)
  {
    assert EntryOk(s.entries[e]) && s.entries[e].refs == |Outstanding(s.leases, e)|;
    if Over(s, e) {
      steps := [];
    } else {
      var step := EntryMovesOn(s, e);
      StepKeepsInv(s, step);
      var rest := EvictionFinishes(Do(s, step), e);
      steps := [step] + rest;
    }
  }
}
