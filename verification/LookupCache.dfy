/**
 The lookup-cache protocol: any number of readers, mutators and Enforcers, one step at a time,
 over one store and one cache. A lookup reads its Enforcer's generation, asks the cache, takes
 a token, reads the assignments, reads each role in three separate queries and fills the cache
 conditionally. A mutation commits to the store first and invalidates later; over Redis the
 flush is a scan that deletes key by key.
 */
module LookupCache {
  import opened Basics
  import opened ParentGraph
  import opened Rules
  import opened Policy
  import opened RoleClosure

  type Perms = set<Permission>

  // ---- Cache backends ----

  datatype Slot = Slot(token: nat, value: Option<Perms>)

  /**
   A backend without tokens; the in-memory cache, whose token is one counter for all keys; and
   Redis, where every key has its own token and tokens below `unused` have been issued.
   */
  datatype Backend =
    | Plain(entries: map<string, Perms>)
    | InMemory(generation: nat, entries: map<string, Perms>)
    | Redis(slots: map<string, Slot>, unused: nat)

  function Cached(b: Backend, key: string): Option<Perms> {
    if b.Redis? then (if key in b.slots then b.slots[key].value else None)
    else if key in b.entries then Some(b.entries[key]) else None
  }

  /** A conditional fill with this token would be accepted. */
  predicate Accepts(b: Backend, key: string, token: nat) {
    match b
    case Plain(_) => false
    case InMemory(generation, _) => token == generation
    case Redis(slots, _) => key in slots && slots[key].token == token
  }

  /** The token of a key; Redis issues a new one when the key has none. */
  function TakeToken(b: Backend, key: string): (Option<nat>, Backend) {
    match b
    case Plain(_) => (None, b)
    case InMemory(generation, _) => (Some(generation), b)
    case Redis(slots, unused) =>
      if key in slots then (Some(slots[key].token), b)
      else (Some(unused), Redis(slots[key := Slot(unused, None)], unused + 1))
  }

  function Fill(b: Backend, key: string, value: Perms, token: Option<nat>): Backend {
    match b
    case Plain(entries) => Plain(entries[key := value])
    case InMemory(generation, entries) =>
      if token == Some(generation) then b.(entries := entries[key := value]) else b
    case Redis(slots, _) =>
      if key in slots && token == Some(slots[key].token)
      then b.(slots := slots[key := Slot(slots[key].token, Some(value))]) else b
  }

  function Drop(b: Backend, key: string): Backend {
    match b
    case Plain(entries) => Plain(entries - {key})
    case InMemory(generation, entries) => InMemory(generation + 1, entries - {key})
    case Redis(slots, unused) => Redis(slots - {key}, unused)
  }

  /** The flush of a backend that flushes in one step. */
  function FlushAll(b: Backend): Backend {
    match b
    case Plain(_) => Plain(map[])
    case InMemory(generation, _) => InMemory(generation + 1, map[])
    case Redis(_, _) => b
  }

  /** Eviction or expiry of a key, at any moment. */
  function Lose(b: Backend, key: string): Backend {
    if b.Redis? then b.(slots := b.slots - {key}) else b.(entries := b.entries - {key})
  }

  // ---- Readers and mutations ----

  /** What a lookup still has to read. */
  datatype Item = Visit(name: string) | AskPermissions(name: string) | AskParents(name: string) | Leave(name: string)

  datatype Phase =
    | Began
    | Missed
    | Tokened(token: Option<nat>)
    | Walking(token: Option<nat>, agenda: seq<Item>, visiting: set<string>, found: Perms)
    | Returned(value: Perms)
    | MetCycle

  /**
   `raced` records, for the statement of what a lookup returns, whether a mutation covering the
   user was uninvalidated when the lookup began or committed since.
   */
  datatype Reader = Reader(enforcer: nat, user: string, generation: nat, phase: Phase, raced: bool)

  /** The keys a committed mutation has yet to remove. */
  datatype Owed = All | These(keys: set<string>)

  datatype Mutation = Mutation(enforcer: nat, owed: Owed)

  /** `lone` is the one Enforcer that may use a backend without tokens. */
  datatype System = System(
    store: Policy,
    backend: Backend,
    generations: map<nat, nat>,
    readers: map<nat, Reader>,
    pending: map<nat, Mutation>,
    lone: nat)

  function Generation(s: System, enforcer: nat): nat {
    if enforcer in s.generations then s.generations[enforcer] else 0
  }

  function Bumped(s: System, enforcer: nat): map<nat, nat> {
    s.generations[enforcer := Generation(s, enforcer) + 1]
  }

  predicate Within(owed: Owed, user: string) {
    owed.All? || user in owed.keys
  }

  /** Some committed mutation has not yet invalidated the user's entry. */
  ghost predicate Owes(pending: map<nat, Mutation>, user: string) {
    exists m :: m in pending && Within(pending[m].owed, user)
  }

  function OwedBy(scope: Scope): Owed {
    match scope
    case Nobody => These({})
    case Only(user) => These({user})
    case Everyone => All
  }

  // ---- Steps ----

  datatype Step =
    | Begin(id: nat, enforcer: nat, user: string)
    | AskCache(id: nat)
    | AskToken(id: nat)
    | ReadAssignments(id: nat, direct: seq<string>)
    | ReadNext(id: nat, parents: seq<string>)
    | Finish(id: nat)
    | Commit(m: nat, author: nat, op: Op)
    | CommitBatch(m: nat, author: nat, ops: seq<Op>)
    | DropOne(m: nat, key: string)
    | FlushNow(m: nat)
    | StartScan(m: nat)
    | DeleteScanned(m: nat, key: string)
    | SkipVanished(m: nat, key: string)
    | EndScan(m: nat)
    | RemoteFlush(at: nat)
    | RemoteDrop(at: nat, key: string)
    | LoseKey(key: string)

  /** The names listed are the ones stored. */
  predicate Lists(names: seq<string>, stored: set<string>) {
    Elements(names) == stored
  }

  function DirectRoles(p: Policy, user: string): set<string> {
    set a | a in p.assignments && a.0 == user :: a.1
  }

  function ParentsOf(p: Policy, name: string): set<string> {
    if name in p.roles then p.roles[name].parents else {}
  }

  function PermissionsOfRole(p: Policy, name: string): Perms {
    if name in p.roles then p.roles[name].permissions else {}
  }

  function Visits(names: seq<string>): seq<Item> {
    seq(|names|, i requires 0 <= i < |names| => Visit(names[i]))
  }

  ghost predicate Enabled(s: System, step: Step) {
    match step
    case Begin(id, _, _) => id !in s.readers
    case AskCache(id) => id in s.readers && s.readers[id].phase.Began?
    case AskToken(id) => id in s.readers && s.readers[id].phase.Missed?
    case ReadAssignments(id, roles) =>
      id in s.readers && s.readers[id].phase.Tokened? && Lists(roles, DirectRoles(s.store, s.readers[id].user))
    case ReadNext(id, parents) =>
      id in s.readers && s.readers[id].phase.Walking? && s.readers[id].phase.agenda != []
      && var item := s.readers[id].phase.agenda[0]; item.AskParents? ==> Lists(parents, ParentsOf(s.store, item.name))
    case Finish(id) => id in s.readers && s.readers[id].phase.Walking? && s.readers[id].phase.agenda == []
    case Commit(m, _, op) => m !in s.pending && Apply(s.store, op).Ok?
    case CommitBatch(m, _, ops) => m !in s.pending && RunAll(s.store, ops).Ok?
    case DropOne(m, key) => m in s.pending && s.pending[m].owed == These({key})
    case FlushNow(m) => m in s.pending && s.pending[m].owed.All? && !s.backend.Redis?
    case StartScan(m) => m in s.pending && s.pending[m].owed.All? && s.backend.Redis?
    case DeleteScanned(m, key) => m in s.pending && s.pending[m].owed.These? && s.backend.Redis?
    case SkipVanished(m, key) =>
      m in s.pending && s.pending[m].owed.These? && s.backend.Redis? && key !in s.backend.slots
    case EndScan(m) => m in s.pending && s.pending[m].owed == These({})
    case RemoteFlush(_) => true
    case RemoteDrop(_, _) => true
    case LoseKey(_) => true
  }

  /** One unit of reading: what the head of the agenda turns into. */
  function Read(p: Policy, phase: Phase, parents: seq<string>): Phase
    requires phase.Walking? && phase.agenda != []
  {
    var item, rest := phase.agenda[0], phase.agenda[1..];
    match item
    case Visit(n) =>
      if n in phase.visiting then MetCycle
      else if n !in p.roles then phase.(agenda := rest)
      else phase.(agenda := [AskPermissions(n), AskParents(n)] + rest, visiting := phase.visiting + {n})
    case AskPermissions(n) => phase.(agenda := rest, found := phase.found + PermissionsOfRole(p, n))
    case AskParents(n) => phase.(agenda := Visits(parents) + [Leave(n)] + rest)
    case Leave(n) => phase.(agenda := rest, visiting := phase.visiting - {n})
  }

  function WithPhase(s: System, id: nat, phase: Phase): map<nat, Reader>
    requires id in s.readers
  {
    s.readers[id := s.readers[id].(phase := phase)]
  }

  /** A commit races with every lookup whose user it covers. */
  ghost function Raced(readers: map<nat, Reader>, scope: Scope): map<nat, Reader> {
    map id | id in readers :: readers[id].(raced := readers[id].raced || Covers(scope, readers[id].user))
  }

  function Settle(pending: map<nat, Mutation>, m: nat, key: string): map<nat, Mutation>
    requires m in pending && pending[m].owed.These?
  {
    pending[m := pending[m].(owed := These(pending[m].owed.keys - {key}))]
  }

  ghost function Do(s: System, step: Step): System
    requires Enabled(s, step)
  {
    match step
    case Begin(id, e, u) =>
      s.(readers := s.readers[id := Reader(e, u, Generation(s, e), Began, Owes(s.pending, u))])
    case AskCache(id) =>
      var found := Cached(s.backend, s.readers[id].user);
      s.(readers := WithPhase(s, id, if found.Some? then Returned(found.value) else Missed))
    case AskToken(id) =>
      var (token, b) := TakeToken(s.backend, s.readers[id].user);
      s.(backend := b, readers := WithPhase(s, id, Tokened(token)))
    case ReadAssignments(id, roles) =>
      s.(readers := WithPhase(s, id, Walking(s.readers[id].phase.token, Visits(roles), {}, {})))
    case ReadNext(id, parents) =>
      s.(readers := WithPhase(s, id, Read(s.store, s.readers[id].phase, parents)))
    case Finish(id) =>
      var r := s.readers[id];
      s.(backend := if r.generation == Generation(s, r.enforcer)
                    then Fill(s.backend, r.user, r.phase.found, r.phase.token) else s.backend,
         readers := WithPhase(s, id, Returned(r.phase.found)))
    case Commit(m, author, op) =>
      s.(store := Apply(s.store, op).value,
         pending := s.pending[m := Mutation(author, OwedBy(ScopeOf(op)))],
         readers := Raced(s.readers, ScopeOf(op)))
    case CommitBatch(m, author, ops) =>
      s.(store := RunAll(s.store, ops).value,
         pending := s.pending[m := Mutation(author, All)],
         readers := Raced(s.readers, Everyone))
    case DropOne(m, key) =>
      s.(backend := Drop(s.backend, key), generations := Bumped(s, s.pending[m].enforcer), pending := s.pending - {m})
    case FlushNow(m) =>
      s.(backend := FlushAll(s.backend), generations := Bumped(s, s.pending[m].enforcer), pending := s.pending - {m})
    case StartScan(m) =>
      s.(generations := Bumped(s, s.pending[m].enforcer),
         pending := s.pending[m := s.pending[m].(owed := These(s.backend.slots.Keys))])
    case DeleteScanned(m, key) => s.(backend := Drop(s.backend, key), pending := Settle(s.pending, m, key))
    case SkipVanished(m, key) => s.(pending := Settle(s.pending, m, key))
    case EndScan(m) => s.(pending := s.pending - {m})
    case RemoteFlush(at) => s.(backend := FlushAll(s.backend), generations := Bumped(s, at))
    case RemoteDrop(at, key) => s.(backend := Drop(s.backend, key), generations := Bumped(s, at))
    case LoseKey(key) => s.(backend := Lose(s.backend, key))
  }

  /** Over a backend without tokens only one Enforcer takes part. */
  predicate Permitted(s: System, step: Step) {
    s.backend.Plain? ==>
      match step
      case Begin(_, e, _) => e == s.lone
      case Commit(_, author, _) => author == s.lone
      case CommitBatch(_, author, _) => author == s.lone
      case _ => true
  }

  // ---- The invariant ----

  /** What the reads still to come would contribute if the store did not change. */
  ghost function ItemConfers(roles: map<string, RoleData>, item: Item): Perms {
    match item
    case Visit(n) => Confers(roles, n)
    case AskPermissions(n) => if n in roles then roles[n].permissions else {}
    case AskParents(n) => if n in roles then ConfersSet(roles, roles[n].parents) else {}
    case Leave(_) => {}
  }

  ghost function AgendaConfers(roles: map<string, RoleData>, agenda: seq<Item>): Perms {
    if agenda == [] then {} else ItemConfers(roles, agenda[0]) + AgendaConfers(roles, agenda[1..])
  }

  /** Finishing the walk on the present store would yield exactly the user's effective set. */
  ghost predicate OnCourse(p: Policy, user: string, phase: Phase) {
    phase.Walking? ==> phase.found + AgendaConfers(p.roles, phase.agenda) == Effective(p, user)
  }

  predicate HoldsToken(phase: Phase) {
    (phase.Tokened? || phase.Walking?) && phase.token.Some?
  }

  predicate Issued(b: Backend, token: nat) {
    match b
    case Plain(_) => true
    case InMemory(generation, _) => token <= generation
    case Redis(_, unused) => token < unused
  }

  /** The reader's fill would be accepted now. */
  predicate MayFill(s: System, r: Reader) {
    if s.backend.Plain? then r.generation == Generation(s, r.enforcer)
    else HoldsToken(r.phase) && Accepts(s.backend, r.user, r.phase.token.value)
  }

  /** Tokens in readers' hands have been issued, and generations read are past ones. */
  ghost predicate TokensIssued(s: System) {
    && (forall id :: id in s.readers ==> s.readers[id].generation <= Generation(s, s.readers[id].enforcer))
    && (forall id :: id in s.readers && HoldsToken(s.readers[id].phase) ==>
          Issued(s.backend, s.readers[id].phase.token.value))
    && (s.backend.Redis? ==> forall k :: k in s.backend.slots ==> s.backend.slots[k].token < s.backend.unused)
    && (s.backend.Plain? ==>
          && (forall id :: id in s.readers ==> s.readers[id].enforcer == s.lone)
          && (forall m :: m in s.pending ==> s.pending[m].enforcer == s.lone))
  }

  /** A reader that may still fill, for a user nothing is owed to, has seen only the present store. */
  ghost predicate ReadersOnCourse(s: System) {
    forall id :: id in s.readers && MayFill(s, s.readers[id]) && !Owes(s.pending, s.readers[id].user) ==>
      OnCourse(s.store, s.readers[id].user, s.readers[id].phase)
  }

  /** Cache coherence: an entry nothing is owed to is the effective set of its user. */
  ghost predicate Coherent(s: System) {
    forall u :: Cached(s.backend, u).Some? && !Owes(s.pending, u) ==> Cached(s.backend, u).value == Effective(s.store, u)
  }

  /** A lookup no mutation raced with is on course, and returns the effective set when it returns. */
  ghost predicate UnracedExact(s: System) {
    forall id :: id in s.readers && !s.readers[id].raced ==>
      && !Owes(s.pending, s.readers[id].user)
      && OnCourse(s.store, s.readers[id].user, s.readers[id].phase)
      && (s.readers[id].phase.Returned? ==> s.readers[id].phase.value == Effective(s.store, s.readers[id].user))
  }

  ghost predicate Inv(s: System) {
    Valid(s.store) && TokensIssued(s) && ReadersOnCourse(s) && Coherent(s) && UnracedExact(s)
  }

  // ---- Reading keeps a reader on course ----

  lemma {:induction false} AgendaAppend(roles: map<string, RoleData>, a: seq<Item>, b: seq<Item>)
    ensures AgendaConfers(roles, a + b) == AgendaConfers(roles, a) + AgendaConfers(roles, b)
  {
    if a == [] {
      assert a + b == b;
    } else {
      assert (a + b)[0] == a[0] && (a + b)[1..] == a[1..] + b;
      AgendaAppend(roles, a[1..], b);
    }
  }

  lemma {:induction false} VisitsConfer(roles: map<string, RoleData>, names: seq<string>)
    ensures AgendaConfers(roles, Visits(names)) == ConfersAll(roles, names)
  {
    if names == [] {
      assert ConfersAll(roles, names) == {};
    } else {
      assert names == [names[0]] + names[1..];
      assert Visits(names)[1..] == Visits(names[1..]);
      VisitsConfer(roles, names[1..]);
      ConfersAllAppend(roles, [names[0]], names[1..]);
      ConfersAllSingle(roles, names[0]);
    }
  }

  lemma VisitUnfolds(roles: map<string, RoleData>, n: string)
    requires n in roles
    ensures AgendaConfers(roles, [AskPermissions(n), AskParents(n)]) == Confers(roles, n)
  {
    var more := [AskPermissions(n), AskParents(n)];
    assert more[1..] == [AskParents(n)] && [AskParents(n)][1..] == [];
    assert AgendaConfers(roles, [AskParents(n)]) == ConfersSet(roles, roles[n].parents);
    ParentsAsList(roles[n].parents);
    var parents :| Elements(parents) == roles[n].parents;
    ConfersUnfold(roles, n, parents);
  }

  lemma {:induction false} ParentsAsList(names: set<string>)
    ensures exists s: seq<string> :: Elements(s) == names
  {
    if names == {} {
      assert Elements<string>([]) == names;
    } else {
      var n :| n in names;
      ParentsAsList(names - {n});
      var s: seq<string> :| Elements(s) == names - {n};
      ElementsOfConcat([n], s);
      assert Elements([n] + s) == names;
    }
  }

  lemma ParentsUnfold(roles: map<string, RoleData>, n: string, parents: seq<string>)
    requires n in roles && Elements(parents) == roles[n].parents
    ensures AgendaConfers(roles, Visits(parents) + [Leave(n)]) == ConfersSet(roles, roles[n].parents)
  {
    AgendaAppend(roles, Visits(parents), [Leave(n)]);
    VisitsConfer(roles, parents);
    assert [Leave(n)][1..] == [];
  }

  lemma NoParentsUnfold(roles: map<string, RoleData>, n: string)
    ensures AgendaConfers(roles, Visits([]) + [Leave(n)]) == {}
  {
    assert Visits([]) + [Leave(n)] == [Leave(n)];
    assert [Leave(n)][1..] == [];
  }

  lemma ElementsOfNone<T>(s: seq<T>)
    ensures s != [] ==> Elements(s) != {}
  {
    if s != [] { assert s[0] in Elements(s); }
  }

  /** One unit of reading on an unchanged store leads on towards the effective set. */
  lemma ReadStaysOnCourse(p: Policy, user: string, phase: Phase, parents: seq<string>)
    requires phase.Walking? && phase.agenda != [] && OnCourse(p, user, phase)
    requires phase.agenda[0].AskParents? ==> Lists(parents, ParentsOf(p, phase.agenda[0].name))
    ensures OnCourse(p, user, Read(p, phase, parents))
  {
    var item, rest := phase.agenda[0], phase.agenda[1..];
    match item
    case Visit(n) =>
      if n in p.roles {
        VisitUnfolds(p.roles, n);
        AgendaAppend(p.roles, [AskPermissions(n), AskParents(n)], rest);
      } else {
        ConfersNothing(p.roles, n);
      }
    case AskParents(n) =>
      AgendaAppend(p.roles, Visits(parents) + [Leave(n)], rest);
      if n in p.roles {
        ParentsUnfold(p.roles, n, parents);
      } else {
        ElementsOfNone(parents);
        NoParentsUnfold(p.roles, n);
      }
    case _ =>
  }

  // ---- Every step keeps the invariant ----

  lemma CommitOwes(s: System, m: nat, author: nat, scope: Scope, user: string)
    requires m !in s.pending
    ensures Owes(s.pending[m := Mutation(author, OwedBy(scope))], user) <==> Owes(s.pending, user) || Covers(scope, user)
  {
    var after := s.pending[m := Mutation(author, OwedBy(scope))];
    if k :| k in s.pending && Within(s.pending[k].owed, user) {
      assert after[k] == s.pending[k];
    }
    if Covers(scope, user) {
      assert Within(after[m].owed, user);
    }
    if k :| k in after && Within(after[k].owed, user) {
      if k != m {
        assert k in s.pending;
      }
    }
  }

  lemma CommitKeepsInv(s: System, m: nat, author: nat, op: Op)
    requires Inv(s) && Enabled(s, Commit(m, author, op)) && Permitted(s, Commit(m, author, op))
    ensures Inv(Do(s, Commit(m, author, op)))
  {
    var t, scope := Do(s, Commit(m, author, op)), ScopeOf(op);
    ApplyKeepsValid(s.store, op);
    forall u ensures Owes(t.pending, u) <==> Owes(s.pending, u) || Covers(scope, u) {
      CommitOwes(s, m, author, scope, u);
    }
    OutOfScopeUnmoved(s.store, op);
    CommittedKeepsInv(s, t, scope);
  }

  /** Users outside the scope of an operation see the same store, and their lookups stay on course. */
  lemma OutOfScopeUnmoved(p: Policy, op: Op)
    requires Apply(p, op).Ok?
    ensures forall u :: !Covers(ScopeOf(op), u) ==> Effective(Apply(p, op).value, u) == Effective(p, u)
    ensures forall u, phase :: !Covers(ScopeOf(op), u) && OnCourse(p, u, phase) ==> OnCourse(Apply(p, op).value, u, phase)
  {
    forall u | !Covers(ScopeOf(op), u) ensures SameFor(p, Apply(p, op).value, u) && Apply(p, op).value.roles == p.roles {
      ScopeIsWideEnough(p, op, u);
    }
  }

  /** A commit that owes what it covers keeps the invariant. */
  lemma CommittedKeepsInv(s: System, t: System, scope: Scope)
    requires Inv(s) && Valid(t.store) && TokensIssued(t)
    requires t.backend == s.backend && t.generations == s.generations && t.readers == Raced(s.readers, scope)
    requires forall u :: Owes(t.pending, u) <==> Owes(s.pending, u) || Covers(scope, u)
    requires forall u :: !Covers(scope, u) ==> Effective(t.store, u) == Effective(s.store, u)
    requires forall u, phase :: !Covers(scope, u) && OnCourse(s.store, u, phase) ==> OnCourse(t.store, u, phase)
    ensures Inv(t)
  {
    CommittedUnraced(s, t, scope);
    forall id | id in t.readers && MayFill(t, t.readers[id]) && !Owes(t.pending, t.readers[id].user)
      ensures OnCourse(t.store, t.readers[id].user, t.readers[id].phase)
    {
      assert MayFill(s, s.readers[id]) && !Covers(scope, s.readers[id].user);
    }
  }

  lemma CommittedUnraced(s: System, t: System, scope: Scope)
    requires UnracedExact(s) && t.readers == Raced(s.readers, scope)
    requires forall u :: Owes(t.pending, u) <==> Owes(s.pending, u) || Covers(scope, u)
    requires forall u :: !Covers(scope, u) ==> Effective(t.store, u) == Effective(s.store, u)
    requires forall u, phase :: !Covers(scope, u) && OnCourse(s.store, u, phase) ==> OnCourse(t.store, u, phase)
    ensures UnracedExact(t)
  {
  }

  lemma CommitBatchKeepsInv(s: System, m: nat, author: nat, ops: seq<Op>)
    requires Inv(s) && Enabled(s, CommitBatch(m, author, ops)) && Permitted(s, CommitBatch(m, author, ops))
    ensures Inv(Do(s, CommitBatch(m, author, ops)))
  {
    var t := Do(s, CommitBatch(m, author, ops));
    RunAllKeepsValid(s.store, ops);
    forall u ensures Owes(t.pending, u) {
      CommitOwes(s, m, author, Everyone, u);
    }
  }

  /** Changing one reader only: it suffices that the reader is still in order. */
  lemma OneReaderKeepsInv(s: System, t: System, id: nat)
    requires Inv(s) && id in t.readers
    requires t == s.(readers := s.readers[id := t.readers[id]])
    requires t.readers[id].generation <= Generation(s, t.readers[id].enforcer) && (s.backend.Plain? ==> t.readers[id].enforcer == s.lone)
    requires HoldsToken(t.readers[id].phase) ==> Issued(s.backend, t.readers[id].phase.token.value)
    requires MayFill(t, t.readers[id]) && !Owes(s.pending, t.readers[id].user) ==>
      OnCourse(s.store, t.readers[id].user, t.readers[id].phase)
    requires !t.readers[id].raced ==>
      && !Owes(s.pending, t.readers[id].user)
      && OnCourse(s.store, t.readers[id].user, t.readers[id].phase)
      && (t.readers[id].phase.Returned? ==> t.readers[id].phase.value == Effective(s.store, t.readers[id].user))
    ensures Inv(t)
  {
    OneReaderIssued(s, t, id);
    OneReaderExact(s, t, id);
  }

  lemma OneReaderIssued(s: System, t: System, id: nat)
    requires TokensIssued(s) && id in t.readers
    requires t == s.(readers := s.readers[id := t.readers[id]])
    requires t.readers[id].generation <= Generation(s, t.readers[id].enforcer) && (s.backend.Plain? ==> t.readers[id].enforcer == s.lone)
    requires HoldsToken(t.readers[id].phase) ==> Issued(s.backend, t.readers[id].phase.token.value)
    ensures TokensIssued(t)
  {
  }

  lemma OneReaderExact(s: System, t: System, id: nat)
    requires UnracedExact(s) && id in t.readers
    requires t == s.(readers := s.readers[id := t.readers[id]])
    requires !t.readers[id].raced ==>
      && !Owes(s.pending, t.readers[id].user)
      && OnCourse(s.store, t.readers[id].user, t.readers[id].phase)
      && (t.readers[id].phase.Returned? ==> t.readers[id].phase.value == Effective(s.store, t.readers[id].user))
    ensures UnracedExact(t)
  {
  }

  lemma ReadAssignmentsKeepsInv(s: System, id: nat, direct: seq<string>)
    requires Inv(s) && Enabled(s, ReadAssignments(id, direct))
    ensures Inv(Do(s, ReadAssignments(id, direct)))
  {
    var t, user := Do(s, ReadAssignments(id, direct)), s.readers[id].user;
    VisitsConfer(s.store.roles, direct);
    forall n ensures n in direct <==> (user, n) in s.store.assignments {
      assert n in direct <==> n in Elements(direct);
      assert n in DirectRoles(s.store, user) <==> (user, n) in s.store.assignments;
    }
    EffectiveIsConferred(s.store, user, direct);
    OneReaderKeepsInv(s, t, id);
  }

  lemma ReadNextKeepsInv(s: System, id: nat, parents: seq<string>)
    requires Inv(s) && Enabled(s, ReadNext(id, parents))
    ensures Inv(Do(s, ReadNext(id, parents)))
  {
    var r := s.readers[id];
    if OnCourse(s.store, r.user, r.phase) {
      ReadStaysOnCourse(s.store, r.user, r.phase, parents);
    }
    ReadKeepsToken(s.store, r.phase, parents);
    ReaderMovesOn(s, id, Read(s.store, r.phase, parents));
  }

  lemma ReadKeepsToken(p: Policy, phase: Phase, parents: seq<string>)
    requires phase.Walking? && phase.agenda != []
    ensures var q := Read(p, phase, parents); q.MetCycle? || (q.Walking? && q.token == phase.token)
  {
  }

  /** A reader that goes on reading with the same token, as much on course as before, or that gives up. */
  lemma ReaderMovesOn(s: System, id: nat, q: Phase)
    requires Inv(s) && id in s.readers && s.readers[id].phase.Walking?
    requires q.MetCycle? || (q.Walking? && q.token == s.readers[id].phase.token)
    requires OnCourse(s.store, s.readers[id].user, s.readers[id].phase) ==> OnCourse(s.store, s.readers[id].user, q)
    ensures Inv(s.(readers := WithPhase(s, id, q)))
  {
    OneReaderKeepsInv(s, s.(readers := WithPhase(s, id, q)), id);
  }

  lemma BeginKeepsInv(s: System, step: Step)
    requires Inv(s) && Enabled(s, step) && Permitted(s, step) && (step.Begin? || step.AskCache?)
    ensures Inv(Do(s, step))
  {
    OneReaderKeepsInv(s, Do(s, step), step.id);
  }

  lemma AskTokenKeepsInv(s: System, id: nat)
    requires Inv(s) && Enabled(s, AskToken(id))
    ensures Inv(Do(s, AskToken(id)))
  {
    var r := s.readers[id];
    var u := s.(backend := TakeToken(s.backend, r.user).1);
    IssuingKeepsInv(s, r.user);
    assert !HoldsToken(r.phase);
    NewTokenOnCourse(s, r.user);
    OneReaderKeepsInv(u, Do(s, AskToken(id)), id);
  }

  /** Issuing a token caches nothing, and no reader holds it yet. */
  lemma IssuingKeepsInv(s: System, key: string)
    requires Inv(s)
    ensures Inv(s.(backend := TakeToken(s.backend, key).1))
  {
    var b := TakeToken(s.backend, key).1;
    forall u ensures Cached(b, u) == Cached(s.backend, u) {
    }
    forall k, token: nat | Accepts(b, k, token) && !Accepts(s.backend, k, token)
      ensures s.backend.Redis? && token == s.backend.unused
    {
    }
  }

  /** A reader that has read nothing yet is on course, and its token is an issued one. */
  lemma NewTokenOnCourse(s: System, key: string)
    ensures forall p, u :: OnCourse(p, u, Tokened(TakeToken(s.backend, key).0))
    ensures TokensIssued(s) ==>
      var (token, b) := TakeToken(s.backend, key); token.Some? ==> Issued(b, token.value)
  {
  }

  lemma FinishKeepsInv(s: System, id: nat)
    requires Inv(s) && Enabled(s, Finish(id))
    ensures Inv(Do(s, Finish(id)))
  {
    var t, r := Do(s, Finish(id)), s.readers[id];
    assert AgendaConfers(s.store.roles, []) == {};
    assert MayFill(s, r) && !Owes(s.pending, r.user) ==> r.phase.found == Effective(s.store, r.user);
    var u := s.(readers := WithPhase(s, id, Returned(r.phase.found)));
    OneReaderKeepsInv(s, u, id);
    if t.backend != s.backend { FillKeepsInv(u, r.user, r.phase.found, r.phase.token); }
  }

  /** A fill puts in the one value, if it is accepted, and changes no token. */
  lemma FillIsOneEntry(b: Backend, key: string, value: Perms, token: Option<nat>)
    ensures forall k, n: nat :: Accepts(Fill(b, key, value, token), k, n) <==> Accepts(b, k, n)
    ensures forall u :: Cached(Fill(b, key, value, token), u) == Cached(b, u) ||
              (u == key && Cached(Fill(b, key, value, token), u) == Some(value)
               && (b.Plain? || (token.Some? && Accepts(b, key, token.value))))
  {
  }

  lemma FillKeepsInv(s: System, key: string, value: Perms, token: Option<nat>)
    requires Inv(s)
    requires (s.backend.Plain? || (token.Some? && Accepts(s.backend, key, token.value))) && !Owes(s.pending, key) ==>
      value == Effective(s.store, key)
    ensures Inv(s.(backend := Fill(s.backend, key, value, token)))
  {
    FillIsOneEntry(s.backend, key, value, token);
  }

  /** Removing keys, and making tokens stale, never hurts. */
  lemma RemovalKeepsInv(s: System, t: System)
    requires Inv(s) && t.store == s.store && t.readers == s.readers && TokensIssued(t)
    requires t.backend.Plain? == s.backend.Plain?
    requires forall u :: Cached(t.backend, u).Some? ==> Cached(t.backend, u) == Cached(s.backend, u)
    requires forall id :: id in s.readers && MayFill(t, s.readers[id]) ==> MayFill(s, s.readers[id])
    requires forall u :: Owes(t.pending, u) ==> Owes(s.pending, u)
    requires forall u :: Owes(s.pending, u) && !Owes(t.pending, u) ==>
      && Cached(t.backend, u).None?
      && forall id :: id in s.readers && s.readers[id].user == u ==> !MayFill(t, s.readers[id])
    ensures Inv(t)
  {
    forall id | id in t.readers && MayFill(t, t.readers[id]) && !Owes(t.pending, t.readers[id].user)
      ensures OnCourse(t.store, t.readers[id].user, t.readers[id].phase)
    {
      assert !Owes(s.pending, s.readers[id].user);
    }
  }

  lemma OwesLess(before: map<nat, Mutation>, after: map<nat, Mutation>, m: nat, user: string)
    requires m in before && (forall k :: k in after ==> k in before) && (forall k :: k in before && k != m ==> k in after && after[k] == before[k])
    requires m in after ==> (Within(after[m].owed, user) ==> Within(before[m].owed, user))
    ensures Owes(after, user) ==> Owes(before, user)
    ensures Owes(before, user) && !Owes(after, user) ==> Within(before[m].owed, user) && (m in after ==> !Within(after[m].owed, user))
  {
    if k :| k in before && Within(before[k].owed, user) {
      if k != m {
        assert Within(after[k].owed, user);
      }
    }
    if k :| k in after && Within(after[k].owed, user) {
      assert Within(before[k].owed, user);
    }
  }

  /** What a step of an invalidation settles, it settles by removing it. */
  lemma SettlingKeepsInv(s: System, t: System, m: nat)
    requires Inv(s) && t.store == s.store && t.readers == s.readers && TokensIssued(t)
    requires t.backend.Plain? == s.backend.Plain? && m in s.pending && t.pending.Keys <= s.pending.Keys
    requires forall k :: k in s.pending && k != m ==> k in t.pending && t.pending[k] == s.pending[k]
    requires forall u :: m in t.pending && Within(t.pending[m].owed, u) ==> Within(s.pending[m].owed, u)
    requires forall u :: Cached(t.backend, u).Some? ==> Cached(t.backend, u) == Cached(s.backend, u)
    requires forall id :: id in s.readers && MayFill(t, s.readers[id]) ==> MayFill(s, s.readers[id])
    requires forall u :: Within(s.pending[m].owed, u) && (m in t.pending ==> !Within(t.pending[m].owed, u)) ==>
      && Cached(t.backend, u).None?
      && forall id :: id in s.readers && s.readers[id].user == u ==> !MayFill(t, s.readers[id])
    ensures Inv(t)
  {
    forall u
      ensures Owes(t.pending, u) ==> Owes(s.pending, u)
      ensures Owes(s.pending, u) && !Owes(t.pending, u) ==>
        Within(s.pending[m].owed, u) && (m in t.pending ==> !Within(t.pending[m].owed, u))
    {
      OwesLess(s.pending, t.pending, m, u);
    }
    RemovalKeepsInv(s, t);
  }

  lemma DropOneKeepsInv(s: System, m: nat, key: string)
    requires Inv(s) && Enabled(s, DropOne(m, key))
    ensures Inv(Do(s, DropOne(m, key)))
  {
    SettlingKeepsInv(s, Do(s, DropOne(m, key)), m);
  }

  lemma FlushNowKeepsInv(s: System, m: nat)
    requires Inv(s) && Enabled(s, FlushNow(m))
    ensures Inv(Do(s, FlushNow(m)))
  {
    SettlingKeepsInv(s, Do(s, FlushNow(m)), m);
  }

  lemma ScanKeepsInv(s: System, step: Step)
    requires Inv(s) && Enabled(s, step) && (step.StartScan? || step.EndScan?)
    ensures Inv(Do(s, step))
  {
    SettlingKeepsInv(s, Do(s, step), step.m);
  }

  lemma DeleteScannedKeepsInv(s: System, m: nat, key: string)
    requires Inv(s) && Enabled(s, DeleteScanned(m, key))
    ensures Inv(Do(s, DeleteScanned(m, key)))
  {
    SettlingKeepsInv(s, Do(s, DeleteScanned(m, key)), m);
  }

  lemma SkipVanishedKeepsInv(s: System, m: nat, key: string)
    requires Inv(s) && Enabled(s, SkipVanished(m, key))
    ensures Inv(Do(s, SkipVanished(m, key)))
  {
    SettlingKeepsInv(s, Do(s, SkipVanished(m, key)), m);
  }

  lemma RemoteFlushKeepsInv(s: System, at: nat)
    requires Inv(s)
    ensures Inv(Do(s, RemoteFlush(at)))
  {
    RemovalKeepsInv(s, Do(s, RemoteFlush(at)));
  }

  lemma RemoteDropKeepsInv(s: System, at: nat, key: string)
    requires Inv(s)
    ensures Inv(Do(s, RemoteDrop(at, key)))
  {
    RemovalKeepsInv(s, Do(s, RemoteDrop(at, key)));
  }

  lemma LoseKeepsInv(s: System, key: string)
    requires Inv(s)
    ensures Inv(Do(s, LoseKey(key)))
  {
    RemovalKeepsInv(s, Do(s, LoseKey(key)));
  }

  ghost predicate Reads(step: Step) {
    step.Begin? || step.AskCache? || step.AskToken? || step.ReadAssignments? || step.ReadNext? || step.Finish?
  }

  lemma ReaderStepKeepsInv(s: System, step: Step)
    requires Inv(s) && Reads(step) && Enabled(s, step) && Permitted(s, step)
    ensures Inv(Do(s, step))
  {
    match step
    case AskToken(id) => AskTokenKeepsInv(s, id);
    case Finish(id) => FinishKeepsInv(s, id);
    case Begin(_, _, _) => BeginKeepsInv(s, step);
    case AskCache(_) => BeginKeepsInv(s, step);
    case ReadAssignments(id, direct) => ReadAssignmentsKeepsInv(s, id, direct);
    case ReadNext(id, parents) => ReadNextKeepsInv(s, id, parents);
  }

  /** Dropping a key, flushing, each step of a scan, and what other instances or the backend remove. */
  lemma InvalidateKeepsInv(s: System, step: Step)
    requires Inv(s) && !Reads(step) && !step.Commit? && !step.CommitBatch? && Enabled(s, step)
    ensures Inv(Do(s, step))
  {
    match step
    case DropOne(m, key) => DropOneKeepsInv(s, m, key);
    case FlushNow(m) => FlushNowKeepsInv(s, m);
    case StartScan(_) => ScanKeepsInv(s, step);
    case EndScan(_) => ScanKeepsInv(s, step);
    case DeleteScanned(m, key) => DeleteScannedKeepsInv(s, m, key);
    case SkipVanished(m, key) => SkipVanishedKeepsInv(s, m, key);
    case RemoteFlush(at) => RemoteFlushKeepsInv(s, at);
    case RemoteDrop(at, key) => RemoteDropKeepsInv(s, at, key);
    case LoseKey(key) => LoseKeepsInv(s, key);
  }

  /** Every step of every participant keeps the invariant. */
  lemma StepKeepsInv(s: System, step: Step)
    requires Inv(s) && Enabled(s, step) && Permitted(s, step)
    ensures Inv(Do(s, step))
  {
    if Reads(step) {
      ReaderStepKeepsInv(s, step);
    } else if step.Commit? {
      CommitKeepsInv(s, step.m, step.author, step.op);
    } else if step.CommitBatch? {
      CommitBatchKeepsInv(s, step.m, step.author, step.ops);
    } else {
      InvalidateKeepsInv(s, step);
    }
  }

  // ---- All runs ----

  ghost predicate Start(s: System) {
    && Valid(s.store) && s.readers == map[] && s.pending == map[]
    && (forall u :: Cached(s.backend, u).None?)
    && (s.backend.Redis? ==> s.backend.slots == map[])
  }

  /** A run of permitted steps, whatever their interleaving. */
  ghost predicate Behaviour(states: seq<System>, steps: seq<Step>) {
    && |states| == |steps| + 1 && Start(states[0])
    && forall i :: 0 <= i < |steps| ==>
         Enabled(states[i], steps[i]) && Permitted(states[i], steps[i]) && states[i + 1] == Do(states[i], steps[i])
  }

  lemma {:induction false} BehaviourKeepsInv(states: seq<System>, steps: seq<Step>, i: nat)
    requires Behaviour(states, steps) && i < |states|
    ensures Inv(states[i])
  {
    if i > 0 {
      BehaviourKeepsInv(states, steps, i - 1);
      assert Enabled(states[i - 1], steps[i - 1]) && states[i - 1 + 1] == Do(states[i - 1], steps[i - 1]);
      StepKeepsInv(states[i - 1], steps[i - 1]);
    }
  }

  /**
   Cache coherence over all runs. An entry of a user to whom no committed mutation owes an
   invalidation is exactly the user's effective permission set in the present store, torn
   reads and concurrent scans included; and a lookup no covering mutation raced with returns
   exactly that set, from the cache or from the store.
   */
  lemma CacheIsCoherent(states: seq<System>, steps: seq<Step>, i: nat, user: string, reader: nat)
    requires Behaviour(states, steps) && i < |states|
    ensures Cached(states[i].backend, user).Some? && !Owes(states[i].pending, user) ==>
              Cached(states[i].backend, user) == Some(Effective(states[i].store, user))
    ensures reader in states[i].readers && states[i].readers[reader].phase.Returned? && !states[i].readers[reader].raced ==>
              states[i].readers[reader].phase.value == Effective(states[i].store, states[i].readers[reader].user)
  {
    BehaviourKeepsInv(states, steps, i);
  }

  /**
   Filling: a lookup that ends while its Enforcer's generation and its token are still current
   leaves what it found, and the next lookup of the user gets it without reading.
   */
  lemma FinishedLookupIsHit(s: System, id: nat, later: nat, enforcer: nat)
    requires Enabled(s, Finish(id)) && later !in s.readers
    requires var r := s.readers[id];
      && r.generation == Generation(s, r.enforcer)
      && (s.backend.Plain? || (r.phase.token.Some? && Accepts(s.backend, r.user, r.phase.token.value)))
    ensures var t := Do(s, Finish(id));
      && Cached(t.backend, s.readers[id].user) == Some(s.readers[id].phase.found)
      && Enabled(t, Begin(later, enforcer, s.readers[id].user))
      && var u := Do(t, Begin(later, enforcer, s.readers[id].user));
         Enabled(u, AskCache(later)) && Do(u, AskCache(later)).readers[later].phase == Returned(s.readers[id].phase.found)
  {
    FinishFills(s, id);
  }

  lemma FinishFills(s: System, id: nat)
    requires Enabled(s, Finish(id))
    requires var r := s.readers[id];
      && r.generation == Generation(s, r.enforcer)
      && (s.backend.Plain? || (r.phase.token.Some? && Accepts(s.backend, r.user, r.phase.token.value)))
    ensures Cached(Do(s, Finish(id)).backend, s.readers[id].user) == Some(s.readers[id].phase.found)
  {
  }

  /** A token just taken is current. */
  lemma NewTokenIsCurrent(b: Backend, key: string)
    requires !b.Plain?
    ensures var (token, after) := TakeToken(b, key); token.Some? && Accepts(after, key, token.value)
  {
  }

  // ---- Who may share a backend without tokens ----

  ghost function DoAll(s: System, steps: seq<Step>): Option<System>
    decreases |steps|
  {
    if steps == [] then Some(s)
    else if Enabled(s, steps[0]) then DoAll(Do(s, steps[0]), steps[1..]) else None
  }

  /** The lookup or mutation, if the step is one's beginning, is by an Enforcer of the team. */
  predicate By(team: iset<nat>, step: Step) {
    match step
    case Begin(_, e, _) => e in team
    case Commit(_, author, _) => author in team
    case CommitBatch(_, author, _) => author in team
    case _ => true
  }

  /** Every run over a backend without tokens on which only the team looks up and mutates ends coherent. */
  ghost predicate AlwaysCoherent(team: iset<nat>) {
    forall s, steps ::
      Start(s) && s.backend.Plain? && DoAll(s, steps).Some? && (forall step :: step in steps ==> By(team, step)) ==>
        Coherent(DoAll(s, steps).value)
  }

  /** A backend without tokens stays coherent exactly for a team of at most one Enforcer. */
  lemma PlainBackendServesOne(team: iset<nat>)
    ensures AlwaysCoherent(team) <==> forall a, b :: a in team && b in team ==> a == b
  {
    if forall a, b :: a in team && b in team ==> a == b {
      forall s, steps | Start(s) && s.backend.Plain? && DoAll(s, steps).Some? && (forall step :: step in steps ==> By(team, step))
        ensures Coherent(DoAll(s, steps).value)
      {
        var lone := 0;
        if a :| a in team { lone := a; }
        StartIsInv(s.(lone := lone));
        LoneIsFree(s, steps, lone);
        LoneRunKeepsInv(s.(lone := lone), steps, team);
      }
    } else {
      var a, b :| a in team && b in team && a != b;
      var s, steps := PlainBackendSharedIsStale(a, b);
      assert !Coherent(DoAll(s, steps).value);
    }
  }

  lemma StartIsInv(s: System)
    requires Start(s)
    ensures Inv(s)
  {
  }

  lemma {:induction false} LoneRunKeepsInv(s: System, steps: seq<Step>, team: iset<nat>)
    requires Inv(s) && DoAll(s, steps).Some? && forall a :: a in team ==> a == s.lone
    requires forall step :: step in steps ==> By(team, step)
    ensures Inv(DoAll(s, steps).value)
    decreases |steps|
  {
    if steps != [] {
      assert steps[0] in steps && forall step :: step in steps[1..] ==> step in steps;
      StepKeepsInv(s, steps[0]);
      LoneRunKeepsInv(Do(s, steps[0]), steps[1..], team);
    }
  }

  /** What a run does does not depend on whom the backend is meant for. */
  lemma {:induction false} LoneIsFree(s: System, steps: seq<Step>, lone: nat)
    requires DoAll(s, steps).Some?
    ensures DoAll(s.(lone := lone), steps) == Some(DoAll(s, steps).value.(lone := lone))
    decreases |steps|
  {
    if steps != [] {
      StepIgnoresLone(s, steps[0], lone);
      LoneIsFree(Do(s, steps[0]), steps[1..], lone);
    }
  }

  lemma StepIgnoresLone(s: System, step: Step, lone: nat)
    requires Enabled(s, step)
    ensures Enabled(s.(lone := lone), step) && Do(s.(lone := lone), step) == Do(s, step).(lone := lone)
  {
    if Reads(step) { ReadIgnoresLone(s, step, lone); }
  }

  lemma ReadIgnoresLone(s: System, step: Step, lone: nat)
    requires Enabled(s, step) && Reads(step)
    ensures Enabled(s.(lone := lone), step) && Do(s.(lone := lone), step) == Do(s, step).(lone := lone)
  {
  }

  lemma {:induction false} DoAllAppend(s: System, a: seq<Step>, b: seq<Step>)
    requires DoAll(s, a).Some?
    ensures DoAll(s, a + b) == DoAll(DoAll(s, a).value, b)
    decreases |a|
  {
    if a == [] {
      assert a + b == b;
    } else {
      assert (a + b)[0] == a[0] && (a + b)[1..] == a[1..] + b;
      DoAllAppend(Do(s, a[0]), a[1..], b);
    }
  }

  function Lookup(reader: nat): seq<Step> {
    [Begin(1, reader, "u"), AskCache(1), AskToken(1), ReadAssignments(1, ["r"])]
  }

  const WALK := [ReadNext(1, []), ReadNext(1, []), ReadNext(1, []), ReadNext(1, [])]

  function RevokeThenFill(author: nat): seq<Step> {
    [Commit(1, author, UnassignRole("u", "r")), DropOne(1, "u"), Finish(1)]
  }

  lemma LookupBegins(s0: System, reader: nat)
    requires s0.backend == Plain(map[]) && s0.generations == map[] && s0.readers == map[] && s0.pending == map[]
    requires s0.store.assignments == {("u", "r")}
    ensures DoAll(s0, Lookup(reader)) == Some(s0.(readers := map[1 := Reader(reader, "u", 0, Walking(None, [Visit("r")], {}, {}), false)]))
  {
    var s1, s2, s3 := ReadingAt(s0, reader, Began), ReadingAt(s0, reader, Missed), ReadingAt(s0, reader, Tokened(None));
    var s4 := ReadingAt(s0, reader, Walking(None, [Visit("r")], {}, {}));
    LookupAsks(s0, reader);
    LookupReads(s3, reader);
    DoTail(s3, Lookup(reader), 3, s4);
    DoTail(s2, Lookup(reader), 2, s4);
    DoTail(s1, Lookup(reader), 1, s4);
    DoTail(s0, Lookup(reader), 0, s4);
    assert Lookup(reader)[0..] == Lookup(reader);
  }

  /** The lone reader in a phase of its lookup. */
  function ReadingAt(s: System, reader: nat, phase: Phase): System {
    s.(readers := map[1 := Reader(reader, "u", 0, phase, false)])
  }

  lemma LookupAsks(s: System, reader: nat)
    requires s.backend == Plain(map[]) && s.generations == map[] && s.readers == map[] && s.pending == map[]
    ensures Enabled(s, Lookup(reader)[0]) && Do(s, Lookup(reader)[0]) == ReadingAt(s, reader, Began)
    ensures Enabled(ReadingAt(s, reader, Began), Lookup(reader)[1]) && Do(ReadingAt(s, reader, Began), Lookup(reader)[1]) == ReadingAt(s, reader, Missed)
    ensures Enabled(ReadingAt(s, reader, Missed), Lookup(reader)[2]) && Do(ReadingAt(s, reader, Missed), Lookup(reader)[2]) == ReadingAt(s, reader, Tokened(None))
  {
    assert WithPhase(ReadingAt(s, reader, Began), 1, Missed) == ReadingAt(s, reader, Missed).readers;
    assert WithPhase(ReadingAt(s, reader, Missed), 1, Tokened(None)) == ReadingAt(s, reader, Tokened(None)).readers;
  }

  lemma LookupReads(s: System, reader: nat)
    requires s == ReadingAt(s, reader, Tokened(None)) && s.store.assignments == {("u", "r")}
    ensures Enabled(s, Lookup(reader)[3]) && Do(s, Lookup(reader)[3]) == ReadingAt(s, reader, Walking(None, [Visit("r")], {}, {}))
  {
    assert DirectRoles(s.store, "u") == Elements(["r"]) by { assert ("u", "r").1 in DirectRoles(s.store, "u"); }
    assert Visits(["r"]) == [Visit("r")];
    assert WithPhase(s, 1, Walking(None, [Visit("r")], {}, {})) == ReadingAt(s, reader, Walking(None, [Visit("r")], {}, {})).readers;
  }

  /** The lone reader after `i` of the four reads of its role. */
  function WalkingAt(s: System, reader: nat, q: Permission, i: nat): System {
    var phase := match i
      case 0 => Walking(None, [Visit("r")], {}, {})
      case 1 => Walking(None, [AskPermissions("r"), AskParents("r")], {"r"}, {})
      case 2 => Walking(None, [AskParents("r")], {"r"}, {q})
      case 3 => Walking(None, [Leave("r")], {"r"}, {q})
      case _ => Walking(None, [], {}, {q});
    ReadingAt(s, reader, phase)
  }

  lemma WalkGoesOn(s: System, reader: nat, q: Permission, i: nat)
    requires i < 4 && s.store.roles == map["r" := RoleData({q}, {})]
    ensures Enabled(WalkingAt(s, reader, q, i), WALK[i]) && Do(WalkingAt(s, reader, q, i), WALK[i]) == WalkingAt(s, reader, q, i + 1)
  {
    var s0, s1 := WalkingAt(s, reader, q, i), WalkingAt(s, reader, q, i + 1);
    ReadGoesOn(s, reader, q, i);
    assert WithPhase(s0, 1, s1.readers[1].phase) == s1.readers;
  }

  lemma ReadGoesOn(s: System, reader: nat, q: Permission, i: nat)
    requires i < 4 && s.store.roles == map["r" := RoleData({q}, {})]
    ensures Read(s.store, WalkingAt(s, reader, q, i).readers[1].phase, []) == WalkingAt(s, reader, q, i + 1).readers[1].phase
  {
    assert Visits([]) + [Leave("r")] + [] == [Leave("r")];
  }

  lemma LookupWalks(s0: System, reader: nat, q: Permission)
    requires s0.readers == map[1 := Reader(reader, "u", 0, Walking(None, [Visit("r")], {}, {}), false)]
    requires s0.store.roles == map["r" := RoleData({q}, {})]
    ensures DoAll(s0, WALK) == Some(s0.(readers := map[1 := Reader(reader, "u", 0, Walking(None, [], {}, {q}), false)]))
  {
    WalksOn(s0, reader, q, 0);
    assert WALK[0..] == WALK && WalkingAt(s0, reader, q, 0) == s0;
  }

  lemma {:induction false} WalksOn(s: System, reader: nat, q: Permission, i: nat)
    requires i < 4 && s.store.roles == map["r" := RoleData({q}, {})]
    ensures DoAll(WalkingAt(s, reader, q, i), WALK[i..]) == Some(WalkingAt(s, reader, q, 4))
    decreases 4 - i
  {
    WalkGoesOn(s, reader, q, i);
    if i < 3 {
      WalksOn(s, reader, q, i + 1);
    }
    DoTail(WalkingAt(s, reader, q, i), WALK, i, WalkingAt(s, reader, q, 4));
  }

  lemma FillAfterRevocation(s0: System, reader: nat, author: nat, q: Permission)
    requires reader != author && s0.backend == Plain(map[]) && s0.generations == map[] && s0.pending == map[]
    requires s0.readers == map[1 := Reader(reader, "u", 0, Walking(None, [], {}, {q}), false)]
    requires "r" in s0.store.roles && s0.store.assignments == {("u", "r")}
    ensures DoAll(s0, RevokeThenFill(author)).Some? && !Coherent(DoAll(s0, RevokeThenFill(author)).value)
  {
    var s1 := Do(s0, RevokeThenFill(author)[0]);
    var s2 := Do(s1, RevokeThenFill(author)[1]);
    var s3 := Do(s2, RevokeThenFill(author)[2]);
    StaleEntry(s3, q);
    DoTail(s2, RevokeThenFill(author), 2, s3);
    DoTail(s1, RevokeThenFill(author), 1, s3);
    DoTail(s0, RevokeThenFill(author), 0, s3);
    assert RevokeThenFill(author)[0..] == RevokeThenFill(author);
  }

  /**
   Why the tokens are needed: with any two Enforcers over a plain backend, a reader of the one
   fills in what it read before the other's unassignment, after that was invalidated. The entry
   is stale and nothing is owed any more.
   */
  lemma PlainBackendSharedIsStale(reader: nat, author: nat) returns (s: System, steps: seq<Step>)
    requires reader != author
    ensures Start(s) && s.backend.Plain? && DoAll(s, steps).Some? && !Coherent(DoAll(s, steps).value)
    ensures forall team, step :: reader in team && author in team && step in steps ==> By(team, step)
  {
    var q := Permission("x", "y");
    var p := Policy(map["r" := RoleData({q}, {})], {("u", "r")}, map[], map[]);
    s := System(p, Plain(map[]), map[], map[], map[], reader);
    steps := Lookup(reader) + WALK + RevokeThenFill(author);
    LoneRoleValid(p);
    LookupSeesRevoked(s, reader, author, q);
    OnlyTheTwo(reader, author);
  }

  lemma OnlyTheTwo(reader: nat, author: nat)
    ensures forall team, step :: reader in team && author in team && step in Lookup(reader) + WALK + RevokeThenFill(author) ==>
      By(team, step)
  {
    forall step | step in Lookup(reader) + WALK + RevokeThenFill(author)
      ensures step in Lookup(reader) || step in WALK || step in RevokeThenFill(author)
    {
    }
  }

  lemma LookupSeesRevoked(s: System, reader: nat, author: nat, q: Permission)
    requires reader != author && s.backend == Plain(map[]) && s.generations == map[] && s.readers == map[] && s.pending == map[]
    requires s.store.roles == map["r" := RoleData({q}, {})] && s.store.assignments == {("u", "r")}
    ensures DoAll(s, Lookup(reader) + WALK + RevokeThenFill(author)).Some?
    ensures !Coherent(DoAll(s, Lookup(reader) + WALK + RevokeThenFill(author)).value)
  {
    LookupBegins(s, reader);
    LookupWalks(DoAll(s, Lookup(reader)).value, reader, q);
    DoAllAppend(s, Lookup(reader), WALK);
    FillAfterRevocation(DoAll(s, Lookup(reader) + WALK).value, reader, author, q);
    DoAllAppend(s, Lookup(reader) + WALK, RevokeThenFill(author));
  }

  lemma DoTail(s: System, steps: seq<Step>, i: nat, last: System)
    requires i < |steps| && Enabled(s, steps[i])
    requires i + 1 == |steps| ==> Do(s, steps[i]) == last
    requires i + 1 < |steps| ==> DoAll(Do(s, steps[i]), steps[i + 1..]) == Some(last)
    ensures DoAll(s, steps[i..]) == Some(last)
  {
    assert steps[i..][1..] == steps[i + 1..];
  }

  lemma LoneRoleValid(p: Policy)
    requires |p.roles| == 1 && p.rules == map[] && p.metadata == map[]
    requires forall n :: n in p.roles ==> p.roles[n].parents == {}
    requires forall a :: a in p.assignments ==> a.1 in p.roles
    ensures Valid(p)
  {
    forall c ensures !OnCycle(Parents(p), c) {
    }
  }

  lemma StaleEntry(s: System, q: Permission)
    requires s.store.assignments == {} && s.pending == map[] && Cached(s.backend, "u") == Some({q})
    ensures !Coherent(s)
  {
    assert !Owes(s.pending, "u");
    assert HeldRoles(s.store, "u") == {};
    assert Effective(s.store, "u") == {};
    assert q in {q};
  }
}
