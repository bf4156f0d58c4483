/**
 Where the results of factory calls come from: an Enforcer that is handed out was returned for the
 entry without an error, in time, and found alive and of the tenant.
 */
module RegistryResults {
  import opened Basics
  import opened Registry

  /** The same entries, each with the same result, and perhaps new ones still to be provisioned. */
  ghost predicate SameResults<E>(entries: map<E, Entry>, after: map<E, Entry>) {
    forall e :: e in after ==>
      if e in entries then after[e].provision == entries[e].provision else after[e].provision.Running?
  }

  lemma AcquireSameResults<E>(s: Registry<E>, step: Step<E>)
    requires step.Acquire? && Enabled(s, step)
    ensures SameResults(s.entries, Do(s, step).entries)
  {
    var room := RoomFor(s, step.tenant, step.entry, step.victim);
    assert SameResults(s.entries, room.entries);
    ReferenceSameResults(room, step.lease, step.tenant, step.now);
  }

  lemma ReferenceSameResults<E>(s: Registry<E>, l: nat, tenant: string, now: int)
    requires tenant in s.cache && s.cache[tenant] in s.entries
    ensures var t := Referenced(s, l, tenant, now);
      t.entries.Keys == s.entries.Keys && forall e :: e in s.entries ==> t.entries[e].provision == s.entries[e].provision
  {
  }

  lemma LeaseStepSameResults<E>(s: Registry<E>, step: Step<E>)
    requires LeaseStep(step) && !step.Acquire? && Enabled(s, step)
    ensures SameResults(s.entries, Do(s, step).entries)
  {
  }

  lemma EvictStepSameResults<E>(s: Registry<E>, step: Step<E>)
    requires EvictStep(step) && Enabled(s, step)
    ensures SameResults(s.entries, Do(s, step).entries)
  {
  }

  lemma LastStepsSameResults<E>(s: Registry<E>, step: Step<E>)
    requires (step.FinishEntry? || step.Clear? || step.Shutdown?) && Enabled(s, step)
    ensures SameResults(s.entries, Do(s, step).entries)
  {
  }

  /** Only the stages of its own factory call change an entry's result. */
  lemma OtherStepsSameResults<E>(s: Registry<E>, step: Step<E>)
    requires Enabled(s, step) && !OneEntryStep(step)
    ensures SameResults(s.entries, Do(s, step).entries)
  {
    if step.Acquire? {
      AcquireSameResults(s, step);
    } else if LeaseStep(step) {
      LeaseStepSameResults(s, step);
    } else if EvictStep(step) {
      EvictStepSameResults(s, step);
    } else {
      LastStepsSameResults(s, step);
    }
  }

  // ---- The stages behind a result ----

  /** The factory returned this for the entry, and without an error if `clean`. */
  ghost predicate WasReturned<E>(past: set<Step<E>>, e: E, enforcer: Option<Enforcer>, clean: bool) {
    exists err :: FactoryReturns(e, enforcer, err) in past && (clean ==> !err)
  }

  /** What an entry's result tells about the steps so far. */
  ghost predicate Told<E>(past: set<Step<E>>, e: E, entry: Entry) {
    match entry.provision
    case Running => true
    case Returned(x, err) => WasReturned(past, e, x, !err)
    case Checked(x, err) => WasReturned(past, e, x, !err)
    case Vetted(x, err) => WasReturned(past, e, x, !err) && (!err ==> Vet(e, true) in past)
    case Ready(x, err) => WasReturned(past, e, x, !err) && (!err ==> Vet(e, true) in past)
  }

  ghost predicate AllTold<E>(past: set<Step<E>>, entries: map<E, Entry>) {
    forall e :: e in entries ==> Told(past, e, entries[e])
  }

  lemma MoreTells<E>(past: set<Step<E>>, step: Step<E>, e: E, entry: Entry)
    requires Told(past, e, entry)
    ensures Told(past + {step}, e, entry)
  {
  }

  lemma AdvanceTells<E>(past: set<Step<E>>, step: Step<E>, e: E, entry: Entry)
    requires OneEntryStep(step) && step.entry == e && Told(past, e, entry)
    requires step.CheckContext? ==> entry.provision.Returned?
    requires step.Vet? ==> entry.provision.Checked?
    requires step.Record? ==> entry.provision.Vetted?
    ensures Told(past + {step}, e, Advance(entry, step))
  {
    MoreTells(past, step, e, entry);
    if step.FactoryReturns? {
      assert FactoryReturns(e, step.enforcer, step.err) in past + {step};
    }
  }

  lemma StepTells<E>(s: Registry<E>, past: set<Step<E>>, step: Step<E>)
    requires Enabled(s, step) && AllTold(past, s.entries)
    ensures AllTold(past + {step}, Do(s, step).entries)
  {
    var t := Do(s, step);
    if !OneEntryStep(step) { OtherStepsSameResults(s, step); }
    forall e | e in t.entries ensures Told(past + {step}, e, t.entries[e]) {
      if OneEntryStep(step) && e == step.entry {
        AdvanceTells(past, step, e, s.entries[e]);
      } else if e in s.entries {
        MoreTells(past, step, e, s.entries[e]);
      }
    }
  }

  lemma {:induction false} RunTells<E>(s: Registry<E>, past: set<Step<E>>, steps: seq<Step<E>>)
    requires Legal(s, steps) && AllTold(past, s.entries)
    ensures AllTold(past + Elements(steps), After(s, steps).entries)
    decreases |steps|
  {
    if steps == [] {
      assert past + Elements(steps) == past;
    } else {
      StepTells(s, past, steps[0]);
      RunTells(Do(s, steps[0]), past + {steps[0]}, steps[1..]);
      assert steps == [steps[0]] + steps[1..];
      ElementsOfConcat([steps[0]], steps[1..]);
      assert past + Elements(steps) == past + {steps[0]} + Elements(steps[1..]);
    }
  }

  /**
   In every run, the Enforcer a caller holds is one that the factory returned for the entry without
   an error and that was found alive when the result was judged.
   */
  lemma HeldWasVetted<E>(capacity: nat, idleTtl: int, steps: seq<Step<E>>, l: nat)
    requires Legal(Fresh(capacity, idleTtl), steps)
    requires var s := After(Fresh<E>(capacity, idleTtl), steps); l in s.leases && s.leases[l].phase.Held?
    ensures var held := After(Fresh<E>(capacity, idleTtl), steps).leases[l];
      FactoryReturns(held.entry, Some(held.phase.enforcer), false) in steps && Vet(held.entry, true) in steps
  {
    FreshInv<E>(capacity, idleTtl);
    RunKeepsInv(Fresh<E>(capacity, idleTtl), steps);
    RunTells(Fresh<E>(capacity, idleTtl), {}, steps);
    var s := After(Fresh<E>(capacity, idleTtl), steps);
    HeldIsReady(s, l);
    ReadyWasVetted({} + Elements(steps), s.leases[l].entry, s.entries[s.leases[l].entry], s.leases[l].phase.enforcer);
  }

  lemma HeldIsReady<E>(s: Registry<E>, l: nat)
    requires Inv(s) && l in s.leases && s.leases[l].phase.Held?
    ensures s.leases[l].entry in s.entries
    ensures s.entries[s.leases[l].entry].provision == Ready(Some(s.leases[l].phase.enforcer), false)
  {
  }

  lemma ReadyWasVetted<E>(past: set<Step<E>>, e: E, entry: Entry, x: Enforcer)
    requires Told(past, e, entry) && entry.provision == Ready(Some(x), false)
    ensures FactoryReturns(e, Some(x), false) in past && Vet(e, true) in past
  {
  }
}
