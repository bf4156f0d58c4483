/**
 What the registry needs of its factory: every run keeps every held Enforcer up exactly if the
 factory gives no Enforcer to two entries.
 */
module RegistryFactory {
  import opened Basics
  import opened Registry
  import opened RegistryLeases
  import opened RegistryResults

  /** What the factory returns for each entry, in the order the entries are numbered. */
  type Factory = nat -> Option<Enforcer>

  /** The factory calls of the run return what the factory returns, with or without an error. */
  ghost predicate From(factory: Factory, steps: seq<Step<nat>>) {
    forall step :: step in steps && step.FactoryReturns? ==> step.enforcer == factory(step.entry)
  }

  ghost predicate NoneTwice(factory: Factory) {
    forall e, f :: e != f && factory(e).Some? && factory(f).Some? ==> factory(e).value.id != factory(f).value.id
  }

  /** Every Enforcer a caller holds is up. */
  ghost predicate HeldUp(s: Registry<nat>) {
    forall l :: l in s.leases && s.leases[l].phase.Held? ==> s.leases[l].phase.enforcer.id !in s.down
  }

  // ---- Entries keep what the factory gave them ----

  ghost predicate ResultsFrom(entries: map<nat, Entry>, factory: Factory) {
    forall e :: e in entries && !entries[e].provision.Running? ==> entries[e].provision.enforcer == factory(e)
  }

  lemma AdvanceResults(s: Registry<nat>, step: Step<nat>, factory: Factory)
    requires OneEntryStep(step) && Enabled(s, step) && ResultsFrom(s.entries, factory) && From(factory, [step])
    ensures ResultsFrom(Do(s, step).entries, factory)
  {
    assert step in [step];
    assert ResultsFrom(Advanced(s, step.entry, Advance(s.entries[step.entry], step)).entries, factory);
  }

  lemma StepResults(s: Registry<nat>, step: Step<nat>, factory: Factory)
    requires Enabled(s, step) && ResultsFrom(s.entries, factory) && From(factory, [step])
    ensures ResultsFrom(Do(s, step).entries, factory)
  {
    if OneEntryStep(step) {
      AdvanceResults(s, step, factory);
    } else {
      OtherStepsSameResults(s, step);
    }
  }

  lemma {:induction false} RunResults(s: Registry<nat>, steps: seq<Step<nat>>, factory: Factory)
    requires Legal(s, steps) && From(factory, steps) && ResultsFrom(s.entries, factory)
    ensures ResultsFrom(After(s, steps).entries, factory)
    decreases |steps|
  {
    if steps != [] {
      var step := steps[0];
      assert step in steps && forall later :: later in steps[1..] ==> later in steps;
      StepResults(s, step, factory);
      RunResults(Do(s, step), steps[1..], factory);
    }
  }

  lemma NoneTwiceKeepsUp(capacity: nat, idleTtl: int, factory: Factory, steps: seq<Step<nat>>)
    requires NoneTwice(factory) && Legal(Fresh(capacity, idleTtl), steps) && From(factory, steps)
    ensures HeldUp(After(Fresh(capacity, idleTtl), steps))
  {
    var s := After(Fresh<nat>(capacity, idleTtl), steps);
    RunResults(Fresh<nat>(capacity, idleTtl), steps, factory);
    assert DistinctResults(s);
    forall l | l in s.leases && s.leases[l].phase.Held? ensures s.leases[l].phase.enforcer.id !in s.down {
      DistinctResultsKeepLeasesUp(capacity, idleTtl, steps, l);
    }
  }

  // ---- A shared Enforcer is shut down under a lease in some run ----

  /** The registry `t` with the entry and lease `n` for the tenant of `x`, as far as they have come. */
  function Entered(t: Registry<nat>, n: nat, x: Enforcer, p: Provision, cancelled: bool, phase: Phase): Registry<nat> {
    t.(cache := t.cache[x.tenant := n], all := t.all + {n},
       entries := t.entries[n := Entry(x.tenant, p, 1, 0, false, cancelled, Open)],
       leases := t.leases[n := Lease(n, x.tenant, phase)])
  }

  function Serving(t: Registry<nat>, n: nat, x: Enforcer): Registry<nat> {
    Entered(t, n, x, Ready(Some(x), false), true, Held(x))
  }

  predicate Unserved(t: Registry<nat>, n: nat, x: Enforcer) {
    !t.closed && !Full(t) && x.tenant !in t.cache && n !in t.entries && n !in t.leases && x.id !in t.down
  }

  lemma Enters(t: Registry<nat>, n: nat, x: Enforcer)
    requires Unserved(t, n, x)
    ensures var step := Acquire(n, x.tenant, n, None, 0);
      Enabled(t, step) && Do(t, step) == Entered(t, n, x, Running, false, Waiting)
  {
  }

  /** One stage of the factory call. */
  lemma Proceeds(t: Registry<nat>, n: nat, x: Enforcer, p: Provision, step: Step<nat>, q: Provision, cancelled: bool)
    requires OneEntryStep(step) && step.entry == n && Enabled(Entered(t, n, x, p, false, Waiting), step)
    requires Advance(Entry(x.tenant, p, 1, 0, false, false, Open), step) == Entry(x.tenant, q, 1, 0, false, cancelled, Open)
    requires Gone(Entry(x.tenant, q, 1, 0, false, cancelled, Open)) == {}
    ensures Do(Entered(t, n, x, p, false, Waiting), step) == Entered(t, n, x, q, cancelled, Waiting)
  {
    var s, e := Entered(t, n, x, p, false, Waiting), Entry(x.tenant, q, 1, 0, false, cancelled, Open);
    assert Do(s, step) == Advanced(s, n, e);
    assert s.entries[n := e] == t.entries[n := e];
  }

  lemma HandsOut(t: Registry<nat>, n: nat, x: Enforcer)
    ensures var s := Entered(t, n, x, Ready(Some(x), false), true, Waiting);
      Enabled(s, HandOut(n)) && Do(s, HandOut(n)) == Serving(t, n, x)
  {
    var s := Entered(t, n, x, Ready(Some(x), false), true, Waiting);
    assert Do(s, HandOut(n)).leases == Serving(t, n, x).leases;
  }

  lemma ServeHalf(s: Registry<nat>, before: seq<Step<nat>>, n: nat, x: Enforcer, factory: Factory) returns (steps: seq<Step<nat>>)
    requires Legal(s, before) && Unserved(After(s, before), n, x)
    requires From(factory, before) && factory(n) == Some(x)
    ensures Legal(s, steps) && From(factory, steps)
    ensures After(s, steps) == Entered(After(s, before), n, x, Checked(Some(x), false), false, Waiting)
  {
    var t := After(s, before);
    Enters(t, n, x);
    steps := Extend(s, before, Acquire(n, x.tenant, n, None, 0), factory);
    Proceeds(t, n, x, Running, FactoryReturns(n, Some(x), false), Returned(Some(x), false), false);
    steps := Extend(s, steps, FactoryReturns(n, Some(x), false), factory);
    Proceeds(t, n, x, Returned(Some(x), false), CheckContext(n), Checked(Some(x), false), false);
    steps := Extend(s, steps, CheckContext(n), factory);
  }

  /** From acquiring a tenant's first lease to holding the Enforcer the factory gave for its entry. */
  lemma Serve(s: Registry<nat>, before: seq<Step<nat>>, n: nat, x: Enforcer, factory: Factory) returns (steps: seq<Step<nat>>)
    requires Legal(s, before) && Unserved(After(s, before), n, x)
    requires From(factory, before) && factory(n) == Some(x)
    ensures Legal(s, steps) && After(s, steps) == Serving(After(s, before), n, x) && From(factory, steps)
  {
    var t := After(s, before);
    steps := ServeHalf(s, before, n, x, factory);
    Proceeds(t, n, x, Checked(Some(x), false), Vet(n, true), Vetted(Some(x), false), false);
    steps := Extend(s, steps, Vet(n, true), factory);
    Proceeds(t, n, x, Vetted(Some(x), false), Record(n), Ready(Some(x), false), true);
    steps := Extend(s, steps, Record(n), factory);
    HandsOut(t, n, x);
    steps := Extend(s, steps, HandOut(n), factory);
  }

  lemma Extend(s: Registry<nat>, before: seq<Step<nat>>, step: Step<nat>, factory: Factory) returns (steps: seq<Step<nat>>)
    requires Legal(s, before) && Enabled(After(s, before), step) && From(factory, before)
    requires step.FactoryReturns? ==> step.enforcer == factory(step.entry)
    ensures Legal(s, steps) && After(s, steps) == Do(After(s, before), step) && From(factory, steps)
  {
    OneMore(s, before, step);
    steps := before + [step];
  }

  /** Releasing and evicting the only entry starts its cleanup and leaves the cache empty. */
  lemma ReleasedAndEvicted(capacity: nat, idleTtl: int, n: nat, x: Enforcer)
    ensures var s := Serving(Fresh(capacity, idleTtl), n, x);
      && Enabled(s, Release(n, 0)) && Enabled(Do(s, Release(n, 0)), Evict(x.tenant))
      && var t := Do(Do(s, Release(n, 0)), Evict(x.tenant));
         && !t.closed && t.cache == map[] && t.entries.Keys == t.leases.Keys == {n} && t.down == {}
         && t.entries[n].cleanup.Closing? && t.entries[n].provision == Ready(Some(x), false)
  {
    var s := Serving(Fresh(capacity, idleTtl), n, x);
    var t := Unref(s, n, 0);
    assert Do(s, Release(n, 0)) == t;
    assert t.cache[x.tenant] in Members(t, {x.tenant});
  }

  lemma ShutWhileServing(s: Registry<nat>, first: nat, x: Enforcer, second: nat, y: Enforcer)
    requires first != second && first in s.entries
    requires s.entries[first].cleanup.Closing? && s.entries[first].provision == Ready(Some(x), false)
    ensures var t := Serving(s, second, y);
      && Enabled(t, ShutEnforcer(first)) && Do(t, ShutEnforcer(first)).leases == t.leases
      && t.leases[second].phase == Held(y) && x.id in Do(t, ShutEnforcer(first)).down
  {
    var t := Serving(s, second, y);
    assert Do(t, ShutEnforcer(first)) == Advanced(t, first, t.entries[first].(cleanup := Down));
  }

  /**
   Whatever Enforcer a factory gives to two entries, there is a run in which it is shut down for
   the one while a caller holds it from the other.
   */
  lemma SharedEnforcerIsShutUnderALease(capacity: nat, idleTtl: int, factory: Factory, first: nat, second: nat)
    returns (steps: seq<Step<nat>>)
    requires first != second && factory(first).Some? && factory(second).Some?
    requires factory(first).value.id == factory(second).value.id
    ensures Legal(Fresh(capacity, idleTtl), steps) && From(factory, steps)
    ensures var s := After(Fresh<nat>(capacity, idleTtl), steps);
      second in s.leases && s.leases[second].phase == Held(factory(second).value) && factory(second).value.id in s.down
  {
    var s0, x, y := Fresh<nat>(capacity, idleTtl), factory(first).value, factory(second).value;
    steps := Serve(s0, [], first, x, factory);
    ReleasedAndEvicted(capacity, idleTtl, first, x);
    steps := Extend(s0, steps, Release(first, 0), factory);
    steps := Extend(s0, steps, Evict(x.tenant), factory);
    var s := After(s0, steps);
    steps := Serve(s0, steps, second, y, factory);
    ShutWhileServing(s, first, x, second, y);
    steps := Extend(s0, steps, ShutEnforcer(first), factory);
  }

  /** Every run over a factory keeps every held Enforcer up exactly if the factory gives none to two entries. */
  lemma LeasesStayUpIffNoneTwice(capacity: nat, idleTtl: int, factory: Factory)
    ensures (forall steps :: Legal(Fresh<nat>(capacity, idleTtl), steps) && From(factory, steps) ==>
                HeldUp(After(Fresh<nat>(capacity, idleTtl), steps)))
       <==> NoneTwice(factory)
  {
    if NoneTwice(factory) {
      forall steps | Legal(Fresh<nat>(capacity, idleTtl), steps) && From(factory, steps)
        ensures HeldUp(After(Fresh<nat>(capacity, idleTtl), steps))
      {
        NoneTwiceKeepsUp(capacity, idleTtl, factory, steps);
      }
    } else {
      var e, f :| e != f && factory(e).Some? && factory(f).Some? && factory(e).value.id == factory(f).value.id;
      var steps := SharedEnforcerIsShutUnderALease(capacity, idleTtl, factory, e, f);
      assert !HeldUp(After(Fresh<nat>(capacity, idleTtl), steps));
    }
  }
}
