/**
 Several instances, each an Enforcer with a cache of its own, over one store. A mutation commits,
 invalidates at its author, and is published; every instance receives what is published over its
 own subscription, through a bounded queue, while lookups run everywhere.
 */
module Instances {
  import opened Basics
  import opened Policy
  import opened Invalidation
  import L = LookupCache

  /**
   An instance. `owed` holds the users that commits have covered since their entries were last
   removed here, and `missed` those whose events were discarded, or lost with the connection,
   since then: both are history for the statement of what is promised.
   */
  datatype Node = Node(
    backend: L.Backend,
    generation: nat,
    readers: map<nat, L.Reader>,
    connected: bool,
    wire: seq<Received>,
    queue: seq<Event>,
    hand: Option<Event>,
    owed: L.Owed,
    missed: L.Owed)

  /** A committed mutation that is still to be published; `settled` once its author has invalidated. */
  datatype Change = Change(author: nat, event: Event, settled: bool)

  datatype Cluster = Cluster(store: Policy, nodes: map<nat, Node>, changes: map<nat, Change>)

  const NOBODY := L.These({})

  datatype Step =
    | Attach(at: nat, backend: L.Backend)
    | Look(at: nat, step: L.Step)
    | Commit(m: nat, author: nat, op: Op)
    | CommitBatch(m: nat, author: nat, ops: seq<Op>)
    | InvalidateOwn(m: nat)
    | Publish(m: nat)
    | PublishFails(m: nat)
    | Connect(at: nat)
    | Disconnect(at: nat)
    | Deliver(at: nat)
    | Take(at: nat)
    | ApplyTaken(at: nat)
    | LoseKey(at: nat, key: string)

  // ---- What is owed ----

  /** The event of a mutation that is felt so far. The key of a user is never empty. */
  function EventOf(scope: Scope): Option<Event> {
    match scope
    case Nobody => None
    case Only(user) => Some(Drop(user))
    case Everyone => Some(Flush)
  }

  function Also(owed: L.Owed, ev: Event): L.Owed {
    if owed.All? || ev.Flush? then L.All else L.These(owed.keys + {ev.key})
  }

  function Less(owed: L.Owed, ev: Event): L.Owed {
    if ev.Flush? then NOBODY else if owed.All? then owed else L.These(owed.keys - {ev.key})
  }

  /** Everything on a connection is missed when it is lost. */
  function AlsoAll(owed: L.Owed, wire: seq<Received>): L.Owed
    decreases |wire|
  {
    if wire == [] then owed
    else AlsoAll(if wire[0].Published? then Also(owed, wire[0].event) else owed, wire[1..])
  }

  // ---- Steps ----

  /** One instance as the lookup-cache protocol sees it: what it is owed is one mutation's to settle. */
  function Local(p: Policy, n: Node): L.System {
    L.System(p, n.backend, map[0 := n.generation], n.readers, map[0 := L.Mutation(0, n.owed)], 0)
  }

  function Empty(b: L.Backend): bool {
    b == L.Plain(map[]) || b == L.InMemory(0, map[])
  }

  ghost predicate Enabled(s: Cluster, step: Step) {
    match step
    case Attach(i, b) => i !in s.nodes && Empty(b)
    case Look(i, l) => i in s.nodes && L.Reads(l) && L.Enabled(Local(s.store, s.nodes[i]), l) && (l.Begin? ==> l.enforcer == 0)
    case Commit(m, a, op) => a in s.nodes && m !in s.changes && Apply(s.store, op).Ok?
    case CommitBatch(m, a, ops) => a in s.nodes && m !in s.changes && RunAll(s.store, ops).Ok?
    case InvalidateOwn(m) => m in s.changes && s.changes[m].author in s.nodes && !s.changes[m].settled
    case Publish(m) => m in s.changes && s.changes[m].settled
    case PublishFails(m) => m in s.changes && s.changes[m].settled
    case _ => step.at in s.nodes && Ready(s.nodes[step.at], step)
  }

  /** The instance can take this step of its subscription or its cache. */
  predicate Ready(n: Node, step: Step) {
    match step
    case Connect(_) => !n.connected
    case Disconnect(_) => n.connected
    case Deliver(_) => n.wire != []
    case Take(_) => n.hand.None? && n.queue != []
    case ApplyTaken(_) => n.hand.Some?
    case LoseKey(_, _) => true
    case _ => false
  }

  /** A commit races with the lookups it covers, and from then on every instance owes what it covers. */
  ghost function Felt(n: Node, scope: Scope): Node {
    n.(readers := L.Raced(n.readers, scope),
       owed := match EventOf(scope) case None => n.owed case Some(ev) => Also(n.owed, ev))
  }

  function Recorded(changes: map<nat, Change>, m: nat, author: nat, scope: Scope): map<nat, Change> {
    match EventOf(scope)
    case None => changes
    case Some(ev) => changes[m := Change(author, ev, false)]
  }

  ghost function Committed(s: Cluster, m: nat, author: nat, store: Policy, scope: Scope): Cluster {
    Cluster(store, map i | i in s.nodes :: Felt(s.nodes[i], scope),
            Recorded(s.changes, m, author, scope))
  }

  /** An event takes effect: the entries go, lookups in progress can no longer fill, the debt is paid. */
  function Removed(n: Node, ev: Event): Node {
    n.(backend := if ev.Flush? then L.FlushAll(n.backend) else L.Drop(n.backend, ev.key),
       generation := n.generation + 1, owed := Less(n.owed, ev), missed := Less(n.missed, ev))
  }

  function Missing(n: Node, ev: Event): Node {
    n.(missed := Also(n.missed, ev))
  }

  /** The broadcast of an event into the instance's queue. */
  function Broadcasted(n: Node, ev: Event): Node {
    var t := n.(queue := Offered(n.queue, ev));
    if |n.queue| < CAPACITY || ev.Flush? then t else Missing(t, ev)
  }

  function Delivered(n: Node): Node
    requires n.wire != []
  {
    var t := n.(wire := n.wire[1..]);
    match n.wire[0]
    case Lost => t
    case Confirmed => Broadcasted(t, Flush)
    case Published(ev) => Broadcasted(t, ev)
  }

  /** What a published event does at an instance. */
  function Heard(n: Node, ev: Event): Node {
    if n.connected then n.(wire := n.wire + [Published(ev)]) else Missing(n, ev)
  }

  function NodeDoes(n: Node, step: Step): Node
    requires Ready(n, step)
  {
    match step
    case Connect(_) => n.(connected := true, wire := [Confirmed])
    case Disconnect(_) => n.(connected := false, wire := [], missed := AlsoAll(n.missed, n.wire))
    case Deliver(_) => Delivered(n)
    case Take(_) => n.(queue := n.queue[1..], hand := Some(n.queue[0]))
    case ApplyTaken(_) => Removed(n, n.hand.value).(hand := None)
    case LoseKey(_, key) => n.(backend := L.Lose(n.backend, key))
  }

  ghost function Looked(p: Policy, n: Node, l: L.Step): Node
    requires L.Enabled(Local(p, n), l)
  {
    var t := L.Do(Local(p, n), l);
    n.(backend := t.backend, readers := t.readers)
  }

  predicate OfOneNode(step: Step) {
    step.Connect? || step.Disconnect? || step.Deliver? || step.Take? || step.ApplyTaken? || step.LoseKey?
  }

  ghost function Do(s: Cluster, step: Step): Cluster
    requires Enabled(s, step)
  {
    match step
    case Attach(i, b) =>
      s.(nodes := s.nodes[i := Node(b, 0, map[], false, [], [], None, NOBODY, NOBODY)])
    case Look(i, l) =>
      s.(nodes := s.nodes[i := Looked(s.store, s.nodes[i], l)])
    case Commit(m, a, op) => Committed(s, m, a, Apply(s.store, op).value, ScopeOf(op))
    case CommitBatch(m, a, ops) => Committed(s, m, a, RunAll(s.store, ops).value, Everyone)
    case InvalidateOwn(m) =>
      var c := s.changes[m];
      s.(nodes := s.nodes[c.author := Removed(s.nodes[c.author], c.event)], changes := s.changes[m := c.(settled := true)])
    case Publish(m) =>
      s.(nodes := map i | i in s.nodes :: Heard(s.nodes[i], s.changes[m].event), changes := s.changes - {m})
    case PublishFails(m) =>
      s.(nodes := map i | i in s.nodes :: if i == s.changes[m].author then s.nodes[i] else Missing(s.nodes[i], s.changes[m].event),
         changes := s.changes - {m})
    case _ => s.(nodes := s.nodes[step.at := NodeDoes(s.nodes[step.at], step)])
  }

  // ---- The invariant ----

  /** Instance `i` has yet to apply the event of a change. */
  predicate Unsettled(c: Change, i: nat, ev: Event) {
    c.event == ev && !(c.author == i && c.settled)
  }

  predicate Includes(owed: L.Owed, ev: Event) {
    if ev.Flush? then owed.All? else owed.These? && ev.key in owed.keys
  }

  /** The event is still on its way to the instance, or the instance has missed it. */
  ghost predicate Due(changes: map<nat, Change>, i: nat, n: Node, ev: Event) {
    || (exists m :: m in changes && Unsettled(changes[m], i, ev))
    || Published(ev) in n.wire || ev in n.queue || n.hand == Some(ev)
    || Includes(n.missed, ev)
  }

  /** An event that is due will remove the user's entry. */
  ghost predicate DueFor(changes: map<nat, Change>, i: nat, n: Node, user: string) {
    Due(changes, i, n, Flush) || Due(changes, i, n, Drop(user))
  }

  /** Whatever is owed will be paid by an event that is due. */
  ghost predicate DebtsAreDue(changes: map<nat, Change>, i: nat, n: Node) {
    match n.owed
    case All => Due(changes, i, n, Flush)
    case These(keys) => forall u :: u in keys ==> DueFor(changes, i, n, u)
  }

  ghost predicate NodeInv(p: Policy, n: Node) {
    L.Inv(Local(p, n)) && !n.backend.Redis?
  }

  ghost predicate Healthy(p: Policy, changes: map<nat, Change>, i: nat, n: Node) {
    NodeInv(p, n) && DebtsAreDue(changes, i, n) && (n.connected || n.wire == [])
  }

  ghost predicate Inv(s: Cluster) {
    Valid(s.store) && forall i :: i in s.nodes ==> Healthy(s.store, s.changes, i, s.nodes[i])
  }

  // ---- Each instance keeps the lookup-cache invariant ----

  lemma LocalOwes(p: Policy, n: Node, user: string)
    ensures L.Owes(Local(p, n).pending, user) <==> L.Within(n.owed, user)
  {
    var pending := Local(p, n).pending;
    assert L.Within(n.owed, user) ==> 0 in pending && L.Within(pending[0].owed, user);
  }

  lemma LookKeepsNode(p: Policy, n: Node, l: L.Step)
    requires NodeInv(p, n) && L.Reads(l) && L.Enabled(Local(p, n), l) && (l.Begin? ==> l.enforcer == 0)
    ensures NodeInv(p, Looked(p, n, l))
  {
    L.StepKeepsInv(Local(p, n), l);
    LooksLocally(p, n, l);
  }

  lemma LooksLocally(p: Policy, n: Node, l: L.Step)
    requires L.Reads(l) && L.Enabled(Local(p, n), l)
    ensures Local(p, Looked(p, n, l)) == L.Do(Local(p, n), l)
    ensures !n.backend.Redis? ==> !Looked(p, n, l).backend.Redis?
  {
  }

  lemma FeltKeepsNode(p: Policy, q: Policy, n: Node, scope: Scope)
    requires NodeInv(p, n) && Valid(q)
    requires forall u :: !Covers(scope, u) ==> Effective(q, u) == Effective(p, u)
    requires forall u, phase :: !Covers(scope, u) && L.OnCourse(p, u, phase) ==> L.OnCourse(q, u, phase)
    ensures NodeInv(q, Felt(n, scope))
  {
    FeltOwes(p, q, n, scope);
    FeltTokens(p, q, n, scope);
    L.CommittedKeepsInv(Local(p, n), Local(q, Felt(n, scope)), scope);
  }

  lemma FeltTokens(p: Policy, q: Policy, n: Node, scope: Scope)
    requires L.TokensIssued(Local(p, n))
    ensures L.TokensIssued(Local(q, Felt(n, scope)))
  {
  }

  lemma FeltOwes(p: Policy, q: Policy, n: Node, scope: Scope)
    ensures forall u :: L.Owes(Local(q, Felt(n, scope)).pending, u) <==> L.Owes(Local(p, n).pending, u) || Covers(scope, u)
  {
    forall u ensures L.Owes(Local(q, Felt(n, scope)).pending, u) <==> L.Owes(Local(p, n).pending, u) || Covers(scope, u) {
      LocalOwes(p, n, u);
      LocalOwes(q, Felt(n, scope), u);
    }
  }

  lemma RemovedKeepsNode(p: Policy, n: Node, ev: Event)
    requires NodeInv(p, n)
    ensures NodeInv(p, Removed(n, ev))
  {
    RemovedOwes(p, n, ev);
    RemovedFillsLess(p, n, ev);
    L.RemovalKeepsInv(Local(p, n), Local(p, Removed(n, ev)));
  }

  /** No lookup in progress can fill any more. */
  lemma RemovedFillsLess(p: Policy, n: Node, ev: Event)
    requires L.TokensIssued(Local(p, n)) && !n.backend.Redis?
    ensures var t := Local(p, Removed(n, ev));
      && L.TokensIssued(t)
      && forall id :: id in n.readers ==> !L.MayFill(t, n.readers[id])
  {
  }

  lemma RemovedOwes(p: Policy, n: Node, ev: Event)
    ensures var before, after := Local(p, n).pending, Local(p, Removed(n, ev)).pending;
      && (forall u :: L.Owes(after, u) ==> L.Owes(before, u))
      && (forall u :: L.Owes(before, u) && !L.Owes(after, u) ==> ev.Flush? || ev == Drop(u))
  {
    var before, after := Local(p, n).pending, Local(p, Removed(n, ev)).pending;
    forall u
      ensures L.Owes(after, u) ==> L.Owes(before, u)
      ensures L.Owes(before, u) && !L.Owes(after, u) ==> ev.Flush? || ev == Drop(u)
    {
      LocalOwes(p, n, u);
      LocalOwes(p, Removed(n, ev), u);
    }
  }

  lemma LoseKeepsNode(p: Policy, n: Node, key: string)
    requires NodeInv(p, n)
    ensures NodeInv(p, n.(backend := L.Lose(n.backend, key)))
  {
    L.LoseKeepsInv(Local(p, n), key);
    assert L.Do(Local(p, n), L.LoseKey(key)) == Local(p, n.(backend := L.Lose(n.backend, key)));
  }

  /** Delivering, queueing and losing events is not felt by the cache. */
  lemma SameCacheKeepsNode(p: Policy, n: Node, t: Node)
    requires NodeInv(p, n)
    requires t.backend == n.backend && t.generation == n.generation && t.readers == n.readers && t.owed == n.owed
    ensures NodeInv(p, t)
  {
    assert Local(p, t) == Local(p, n);
  }

  lemma EmptyIsNode(p: Policy, b: L.Backend)
    requires Valid(p) && Empty(b)
    ensures NodeInv(p, Node(b, 0, map[], false, [], [], None, NOBODY, NOBODY))
  {
  }

  // ---- What is owed stays due ----

  /** Each event that was due is due, or a flush is. */
  ghost predicate StillDue(before: map<nat, Change>, after: map<nat, Change>, i: nat, n: Node, t: Node) {
    forall ev :: Due(before, i, n, ev) ==> Due(after, i, t, ev) || Due(after, i, t, Flush)
  }

  lemma DebtsStayDue(before: map<nat, Change>, after: map<nat, Change>, i: nat, n: Node, t: Node)
    requires DebtsAreDue(before, i, n) && StillDue(before, after, i, n, t) && t.owed == n.owed
    ensures DebtsAreDue(after, i, t)
  {
  }

  lemma MissingStillDue(changes: map<nat, Change>, i: nat, n: Node, ev: Event)
    ensures StillDue(changes, changes, i, n, Missing(n, ev))
    ensures Due(changes, i, Missing(n, ev), ev) || Due(changes, i, Missing(n, ev), Flush)
  {
  }

  lemma {:induction false} AlsoAllIncludes(owed: L.Owed, wire: seq<Received>)
    ensures forall ev :: Includes(owed, ev) || Published(ev) in wire ==> AlsoAll(owed, wire).All? || Includes(AlsoAll(owed, wire), ev)
    decreases |wire|
  {
    if wire != [] {
      assert wire == [wire[0]] + wire[1..];
      var next := if wire[0].Published? then Also(owed, wire[0].event) else owed;
      AlsoAllIncludes(next, wire[1..]);
      assert next.All? <==> Includes(next, Flush);
      forall ev | Includes(owed, ev) || Published(ev) == wire[0] ensures next.All? || Includes(next, ev) {
      }
    }
  }

  lemma DisconnectStillDue(changes: map<nat, Change>, i: nat, n: Node)
    requires n.connected
    ensures StillDue(changes, changes, i, n, NodeDoes(n, Disconnect(i)))
  {
    AlsoAllIncludes(n.missed, n.wire);
  }

  /** Offering an event leaves it due, and what it drives out of a full queue due as a flush. */
  lemma BroadcastStillDue(changes: map<nat, Change>, i: nat, n: Node, ev: Event)
    ensures StillDue(changes, changes, i, n, Broadcasted(n, ev))
    ensures Due(changes, i, Broadcasted(n, ev), ev) || Due(changes, i, Broadcasted(n, ev), Flush)
  {
    var t := n.(queue := Offered(n.queue, ev));
    OfferedKeeps(n.queue, ev);
    if |n.queue| >= CAPACITY && !ev.Flush? {
      MissingStillDue(changes, i, t, ev);
    }
  }

  lemma OfferedKeeps(queue: seq<Event>, ev: Event)
    ensures forall x :: x in queue ==> x in Offered(queue, ev) || Flush in Offered(queue, ev)
    ensures |queue| < CAPACITY || ev.Flush? ==> ev in Offered(queue, ev)
  {
    if |queue| < CAPACITY {
      assert Offered(queue, ev) == queue + [ev];
      assert (queue + [ev])[|queue|] == ev;
    } else if ev.Flush? {
      OfferedFlush(queue);
    }
  }

  lemma DeliverStillDue(changes: map<nat, Change>, i: nat, n: Node)
    requires n.wire != []
    ensures StillDue(changes, changes, i, n, Delivered(n))
  {
    var t := n.(wire := n.wire[1..]);
    assert n.wire == [n.wire[0]] + n.wire[1..];
    match n.wire[0]
    case Lost =>
    case Confirmed => BroadcastStillDue(changes, i, t, Flush);
    case Published(ev) => BroadcastStillDue(changes, i, t, ev);
  }

  lemma TakeStillDue(changes: map<nat, Change>, i: nat, n: Node)
    requires n.hand.None? && n.queue != []
    ensures StillDue(changes, changes, i, n, NodeDoes(n, Take(i)))
  {
    assert n.queue == [n.queue[0]] + n.queue[1..];
  }

  /** Applying an event pays what it covers and leaves the rest due. */
  lemma RemovedStaysDue(before: map<nat, Change>, after: map<nat, Change>, i: nat, n: Node, t: Node, ev: Event)
    requires DebtsAreDue(before, i, n)
    requires t.wire == n.wire && t.queue == n.queue && (t.hand == n.hand || n.hand == Some(ev))
    requires t.owed == Less(n.owed, ev) && t.missed == Less(n.missed, ev)
    requires forall m, x :: m in before && Unsettled(before[m], i, x) && x != ev ==> m in after && Unsettled(after[m], i, x)
    ensures DebtsAreDue(after, i, t)
  {
    if !ev.Flush? {
      forall x | Due(before, i, n, x) && x != ev ensures Due(after, i, t, x) {
        if m :| m in before && Unsettled(before[m], i, x) {
          assert m in after && Unsettled(after[m], i, x);
        }
      }
    }
  }

  lemma FeltIsDue(before: map<nat, Change>, i: nat, n: Node, m: nat, author: nat, scope: Scope)
    requires DebtsAreDue(before, i, n) && m !in before && EventOf(scope).Some?
    ensures DebtsAreDue(Recorded(before, m, author, scope), i, Felt(n, scope))
  {
    var ev := EventOf(scope).value;
    var after := before[m := Change(author, ev, false)];
    assert Unsettled(after[m], i, ev);
    forall x | Due(before, i, n, x) ensures Due(after, i, Felt(n, scope), x) {
      if k :| k in before && Unsettled(before[k], i, x) {
        assert Unsettled(after[k], i, x);
      }
    }
  }

  /** A published event is on the wire of a connected instance, and missed by one that is not. */
  lemma PublishedStillDue(changes: map<nat, Change>, m: nat, i: nat, n: Node, t: Node)
    requires m in changes && changes[m].settled
    requires t == Heard(n, changes[m].event) || t == Missing(n, changes[m].event) || (t == n && changes[m].author == i)
    ensures StillDue(changes, changes - {m}, i, n, t)
  {
    var ev, after := changes[m].event, changes - {m};
    forall x | Due(changes, i, n, x) ensures Due(after, i, t, x) || Due(after, i, t, Flush) {
      if k :| k in changes && Unsettled(changes[k], i, x) {
        if k != m {
          assert k in after && Unsettled(after[k], i, x);
        }
      }
    }
  }

  // ---- Every step keeps the invariant ----

  lemma SameDueStillDue(changes: map<nat, Change>, i: nat, n: Node, t: Node)
    requires t.queue == n.queue && t.hand == n.hand && t.missed == n.missed
    requires forall x :: x in n.wire ==> x in t.wire
    ensures StillDue(changes, changes, i, n, t)
  {
  }

  /** Changing one healthy instance into another. */
  lemma OneNodeChanges(s: Cluster, i: nat, n: Node)
    requires Inv(s) && Healthy(s.store, s.changes, i, n)
    ensures Inv(s.(nodes := s.nodes[i := n]))
  {
    var t := s.(nodes := s.nodes[i := n]);
    forall j | j in t.nodes ensures Healthy(t.store, t.changes, j, t.nodes[j]) {
      if j != i {
        assert Healthy(s.store, s.changes, j, s.nodes[j]);
      }
    }
  }

  lemma OneNodeKeepsInv(s: Cluster, step: Step)
    requires Inv(s) && Enabled(s, step) && OfOneNode(step)
    ensures Inv(Do(s, step))
  {
    var i := step.at;
    OneNodeMoves(s, step, i);
    NodeDoesKeepsNode(s.store, s.changes, i, s.nodes[i], step);
    OneNodeChanges(s, i, NodeDoes(s.nodes[i], step));
  }

  lemma OneNodeMoves(s: Cluster, step: Step, i: nat)
    requires Enabled(s, step) && OfOneNode(step) && i == step.at
    ensures i in s.nodes && Ready(s.nodes[i], step)
    ensures Do(s, step) == s.(nodes := s.nodes[i := NodeDoes(s.nodes[i], step)])
  {
  }

  lemma NodeDoesKeepsNode(p: Policy, changes: map<nat, Change>, i: nat, n: Node, step: Step)
    requires Healthy(p, changes, i, n) && Ready(n, step)
    ensures Healthy(p, changes, i, NodeDoes(n, step))
  {
    var t := NodeDoes(n, step);
    match step
    case ApplyTaken(_) =>
      RemovedKeepsNode(p, n, n.hand.value);
      SameCacheKeepsNode(p, Removed(n, n.hand.value), t);
      RemovedStaysDue(changes, changes, i, n, t, n.hand.value);
    case LoseKey(_, key) =>
      LoseKeepsNode(p, n, key);
      SameDueStillDue(changes, i, n, t);
      DebtsStayDue(changes, changes, i, n, t);
    case _ =>
      SameCacheKeepsNode(p, n, t);
      MovingStillDue(changes, i, n, step);
      DebtsStayDue(changes, changes, i, n, t);
  }

  lemma MovingStillDue(changes: map<nat, Change>, i: nat, n: Node, step: Step)
    requires Ready(n, step) && !step.ApplyTaken? && !step.LoseKey? && (n.connected || n.wire == [])
    ensures StillDue(changes, changes, i, n, NodeDoes(n, step))
  {
    match step
    case Connect(_) => SameDueStillDue(changes, i, n, NodeDoes(n, step));
    case Disconnect(_) => DisconnectStillDue(changes, i, n);
    case Deliver(_) => DeliverStillDue(changes, i, n);
    case Take(_) => TakeStillDue(changes, i, n);
  }

  lemma LookKeepsInv(s: Cluster, i: nat, l: L.Step)
    requires Inv(s) && Enabled(s, Look(i, l))
    ensures Inv(Do(s, Look(i, l)))
  {
    assert Healthy(s.store, s.changes, i, s.nodes[i]);
    LookedIsHealthy(s.store, s.changes, i, s.nodes[i], l);
    OneNodeChanges(s, i, Looked(s.store, s.nodes[i], l));
  }

  lemma LookedIsHealthy(p: Policy, changes: map<nat, Change>, i: nat, n: Node, l: L.Step)
    requires Healthy(p, changes, i, n) && L.Reads(l) && L.Enabled(Local(p, n), l) && (l.Begin? ==> l.enforcer == 0)
    ensures Healthy(p, changes, i, Looked(p, n, l))
  {
    LookKeepsNode(p, n, l);
    SameDueStillDue(changes, i, n, Looked(p, n, l));
    DebtsStayDue(changes, changes, i, n, Looked(p, n, l));
  }

  lemma AttachKeepsInv(s: Cluster, i: nat, b: L.Backend)
    requires Inv(s) && Enabled(s, Attach(i, b))
    ensures Inv(Do(s, Attach(i, b)))
  {
    var n := Node(b, 0, map[], false, [], [], None, NOBODY, NOBODY);
    EmptyIsNode(s.store, b);
    assert Healthy(s.store, s.changes, i, n);
    OneNodeChanges(s, i, n);
  }

  lemma CommittedKeepsInv(s: Cluster, m: nat, author: nat, store: Policy, scope: Scope)
    requires Inv(s) && m !in s.changes && Valid(store)
    requires forall u :: !Covers(scope, u) ==> Effective(store, u) == Effective(s.store, u)
    requires forall u, phase :: !Covers(scope, u) && L.OnCourse(s.store, u, phase) ==> L.OnCourse(store, u, phase)
    ensures Inv(Committed(s, m, author, store, scope))
  {
    var t := Committed(s, m, author, store, scope);
    forall i | i in t.nodes
      ensures Healthy(t.store, t.changes, i, t.nodes[i])
    {
      assert Healthy(s.store, s.changes, i, s.nodes[i]);
      FeltIsHealthy(s.store, store, s.changes, m, author, i, s.nodes[i], scope);
    }
  }

  lemma FeltIsHealthy(p: Policy, q: Policy, changes: map<nat, Change>, m: nat, author: nat, i: nat, n: Node, scope: Scope)
    requires Healthy(p, changes, i, n) && m !in changes && Valid(q)
    requires forall u :: !Covers(scope, u) ==> Effective(q, u) == Effective(p, u)
    requires forall u, phase :: !Covers(scope, u) && L.OnCourse(p, u, phase) ==> L.OnCourse(q, u, phase)
    ensures Healthy(q, Recorded(changes, m, author, scope), i, Felt(n, scope))
  {
    FeltKeepsNode(p, q, n, scope);
    if EventOf(scope).Some? {
      FeltIsDue(changes, i, n, m, author, scope);
    } else {
      SameDueStillDue(changes, i, n, Felt(n, scope));
      DebtsStayDue(changes, changes, i, n, Felt(n, scope));
    }
  }

  lemma CommitKeepsInv(s: Cluster, m: nat, a: nat, op: Op)
    requires Inv(s) && Enabled(s, Commit(m, a, op))
    ensures Inv(Do(s, Commit(m, a, op)))
  {
    ApplyKeepsValid(s.store, op);
    L.OutOfScopeUnmoved(s.store, op);
    CommittedKeepsInv(s, m, a, Apply(s.store, op).value, ScopeOf(op));
  }

  lemma CommitBatchKeepsInv(s: Cluster, m: nat, a: nat, ops: seq<Op>)
    requires Inv(s) && Enabled(s, CommitBatch(m, a, ops))
    ensures Inv(Do(s, CommitBatch(m, a, ops)))
  {
    RunAllKeepsValid(s.store, ops);
    CommittedKeepsInv(s, m, a, RunAll(s.store, ops).value, Everyone);
  }

  lemma InvalidateOwnKeepsInv(s: Cluster, m: nat)
    requires Inv(s) && Enabled(s, InvalidateOwn(m))
    ensures Inv(Do(s, InvalidateOwn(m)))
  {
    var c, t := s.changes[m], Do(s, InvalidateOwn(m));
    forall i | i in t.nodes ensures Healthy(t.store, t.changes, i, t.nodes[i]) {
      assert Healthy(s.store, s.changes, i, s.nodes[i]);
      if i == c.author {
        OwnIsHealthy(s.store, s.changes, m, s.nodes[i]);
      } else {
        OthersAreHealthy(s.store, s.changes, m, i, s.nodes[i]);
      }
    }
  }

  lemma OwnIsHealthy(p: Policy, changes: map<nat, Change>, m: nat, n: Node)
    requires m in changes && Healthy(p, changes, changes[m].author, n)
    ensures Healthy(p, changes[m := changes[m].(settled := true)], changes[m].author, Removed(n, changes[m].event))
  {
    var c := changes[m];
    RemovedKeepsNode(p, n, c.event);
    RemovedStaysDue(changes, changes[m := c.(settled := true)], c.author, n, Removed(n, c.event), c.event);
  }

  lemma OthersAreHealthy(p: Policy, changes: map<nat, Change>, m: nat, i: nat, n: Node)
    requires m in changes && changes[m].author != i && Healthy(p, changes, i, n)
    ensures Healthy(p, changes[m := changes[m].(settled := true)], i, n)
  {
    OthersStillDue(changes, m, i, n);
    DebtsStayDue(changes, changes[m := changes[m].(settled := true)], i, n, n);
  }

  /** The author's own invalidation leaves the change unsettled elsewhere. */
  lemma OthersStillDue(changes: map<nat, Change>, m: nat, i: nat, n: Node)
    requires m in changes && changes[m].author != i
    ensures StillDue(changes, changes[m := changes[m].(settled := true)], i, n, n)
  {
    var after := changes[m := changes[m].(settled := true)];
    forall x | Due(changes, i, n, x) ensures Due(after, i, n, x) {
      if k :| k in changes && Unsettled(changes[k], i, x) {
        assert Unsettled(after[k], i, x);
      }
    }
  }

  lemma PublishKeepsInv(s: Cluster, m: nat, step: Step)
    requires Inv(s) && Enabled(s, step) && (step == Publish(m) || step == PublishFails(m))
    ensures Inv(Do(s, step))
  {
    var t := Do(s, step);
    forall i | i in t.nodes
      ensures Healthy(t.store, t.changes, i, t.nodes[i])
    {
      assert Healthy(s.store, s.changes, i, s.nodes[i]);
      PublishedIsHealthy(s.store, s.changes, m, i, s.nodes[i], t.nodes[i]);
    }
  }

  lemma PublishedIsHealthy(p: Policy, changes: map<nat, Change>, m: nat, i: nat, n: Node, t: Node)
    requires m in changes && changes[m].settled && Healthy(p, changes, i, n)
    requires t == Heard(n, changes[m].event) || t == Missing(n, changes[m].event) || (t == n && changes[m].author == i)
    ensures Healthy(p, changes - {m}, i, t)
  {
    SameCacheKeepsNode(p, n, t);
    PublishedStillDue(changes, m, i, n, t);
    DebtsStayDue(changes, changes - {m}, i, n, t);
  }

  /** Every step of every instance keeps the invariant. */
  lemma StepKeepsInv(s: Cluster, step: Step)
    requires Inv(s) && Enabled(s, step)
    ensures Inv(Do(s, step))
  {
    if OfOneNode(step) {
      OneNodeKeepsInv(s, step);
    } else if OfChange(step) {
      ChangeKeepsInv(s, step);
    } else {
      match step
      case Attach(i, b) => AttachKeepsInv(s, i, b);
      case Look(i, l) => LookKeepsInv(s, i, l);
      case Commit(m, a, op) => CommitKeepsInv(s, m, a, op);
      case CommitBatch(m, a, ops) => CommitBatchKeepsInv(s, m, a, ops);
    }
  }

  predicate OfChange(step: Step) {
    step.InvalidateOwn? || step.Publish? || step.PublishFails?
  }

  lemma ChangeKeepsInv(s: Cluster, step: Step)
    requires Inv(s) && Enabled(s, step) && OfChange(step)
    ensures Inv(Do(s, step))
  {
    match step
    case InvalidateOwn(m) => InvalidateOwnKeepsInv(s, m);
    case Publish(m) => PublishKeepsInv(s, m, step);
    case PublishFails(m) => PublishKeepsInv(s, m, step);
  }

  // ---- All runs ----

  /** A store that nobody has attached to yet. */
  ghost predicate Start(s: Cluster) {
    Valid(s.store) && s.nodes == map[] && s.changes == map[]
  }

  ghost predicate Legal(s: Cluster, steps: seq<Step>)
    decreases |steps|
  {
    steps == [] || (Enabled(s, steps[0]) && Legal(Do(s, steps[0]), steps[1..]))
  }

  ghost function After(s: Cluster, steps: seq<Step>): Cluster
    requires Legal(s, steps)
    decreases |steps|
  {
    if steps == [] then s else After(Do(s, steps[0]), steps[1..])
  }

  lemma {:induction false} RunKeepsInv(s: Cluster, steps: seq<Step>)
    requires Inv(s) && Legal(s, steps)
    ensures Inv(After(s, steps))
    decreases |steps|
  {
    if steps != [] {
      StepKeepsInv(s, steps[0]);
      RunKeepsInv(Do(s, steps[0]), steps[1..]);
    }
  }

  /**
   Coherence across instances. In every interleaving, an entry of a user for whom no event is on
   its way to the instance, and none was missed since the entry's key was last removed there, is
   the user's effective set in the present store. A lookup that no covering commit raced with
   returned that set.
   */
  lemma InstancesAreCoherent(s: Cluster, steps: seq<Step>, i: nat, user: string, reader: nat)
    requires Start(s) && Legal(s, steps) && i in After(s, steps).nodes
    ensures var t := After(s, steps); var n := t.nodes[i];
      && (L.Cached(n.backend, user).Some? && !DueFor(t.changes, i, n, user) ==>
            L.Cached(n.backend, user) == Some(Effective(t.store, user)))
      && (reader in n.readers && n.readers[reader].phase.Returned? && !n.readers[reader].raced ==>
            n.readers[reader].phase.value == Effective(t.store, n.readers[reader].user))
  {
    StartIsInv(s);
    RunKeepsInv(s, steps);
    var t := After(s, steps);
    assert Healthy(t.store, t.changes, i, t.nodes[i]);
    HealthyIsCoherent(t.store, t.changes, i, t.nodes[i], user, reader);
  }

  lemma StartIsInv(s: Cluster)
    requires Start(s)
    ensures Inv(s)
  {
  }

  lemma HealthyIsCoherent(p: Policy, changes: map<nat, Change>, i: nat, n: Node, user: string, reader: nat)
    requires Healthy(p, changes, i, n)
    ensures L.Cached(n.backend, user).Some? && !DueFor(changes, i, n, user) ==>
      L.Cached(n.backend, user) == Some(Effective(p, user))
    ensures reader in n.readers && n.readers[reader].phase.Returned? && !n.readers[reader].raced ==>
      n.readers[reader].phase.value == Effective(p, n.readers[reader].user)
  {
    LocalOwes(p, n, user);
  }

  // ---- Recovery ----

  /** Steps of one instance's subscription, lookups and mutations standing still. */
  predicate Subscribing(steps: seq<Step>, i: nat) {
    forall step :: step in steps ==>
      step == Connect(i) || step == Disconnect(i) || step == Deliver(i) || step == Take(i) || step == ApplyTaken(i)
  }

  /** A flush is the last event the instance has to apply. */
  predicate FlushLast(n: Node) {
    if n.queue != [] then n.queue[|n.queue| - 1] == Flush else n.hand == Some(Flush)
  }

  /** Taking that step next leads where the rest of the steps lead. */
  lemma Prepend(s: Cluster, step: Step, rest: seq<Step>, i: nat)
    requires Enabled(s, step) && Legal(Do(s, step), rest) && Subscribing([step], i) && Subscribing(rest, i)
    ensures Legal(s, [step] + rest) && After(s, [step] + rest) == After(Do(s, step), rest) && Subscribing([step] + rest, i)
  {
    assert ([step] + rest)[1..] == rest;
    assert step in [step];
  }

  lemma {:induction false} Drains(s: Cluster, i: nat) returns (steps: seq<Step>)
    requires i in s.nodes && FlushLast(s.nodes[i])
    ensures Legal(s, steps) && Subscribing(steps, i)
    ensures var t := After(s, steps);
      t.store == s.store && t.changes == s.changes && i in t.nodes && t.nodes[i].owed == NOBODY
    decreases 2 * |s.nodes[i].queue| + (if s.nodes[i].hand.Some? then 1 else 0)
  {
    var n := s.nodes[i];
    if n.hand.Some? && n.queue == [] {
      steps := [];
      Prepend(s, ApplyTaken(i), steps, i);
      steps := [ApplyTaken(i)] + steps;
    } else {
      var step := if n.hand.Some? then ApplyTaken(i) else Take(i);
      steps := Drains(Do(s, step), i);
      Prepend(s, step, steps, i);
      steps := [step] + steps;
    }
  }

  /** Once the subscription is confirmed anew a flush is the last event to apply. */
  lemma Confirms(s: Cluster, i: nat)
    requires i in s.nodes && !s.nodes[i].connected && s.nodes[i].wire == []
    ensures Enabled(s, Connect(i)) && Enabled(Do(s, Connect(i)), Deliver(i))
    ensures var t := Do(Do(s, Connect(i)), Deliver(i));
      t.store == s.store && t.changes == s.changes && i in t.nodes && FlushLast(t.nodes[i])
  {
  }

  /** Connecting, delivering the confirmation and draining the queue pays every debt. */
  lemma Reconnects(s: Cluster, i: nat) returns (steps: seq<Step>)
    requires i in s.nodes && !s.nodes[i].connected && s.nodes[i].wire == []
    ensures Legal(s, steps) && Subscribing(steps, i)
    ensures var t := After(s, steps);
      t.store == s.store && t.changes == s.changes && i in t.nodes && t.nodes[i].owed == NOBODY
  {
    Confirms(s, i);
    var t := Do(s, Connect(i));
    steps := Drains(Do(t, Deliver(i)), i);
    Prepend(t, Deliver(i), steps, i);
    steps := [Deliver(i)] + steps;
    Prepend(s, Connect(i), steps, i);
    steps := [Connect(i)] + steps;
  }

  /**
   Whatever was discarded, lost or is still to be published: from every reachable state an
   instance that subscribes anew and applies what it then finds holds only effective sets.
   */
  lemma SubscribingAnewRestores(s: Cluster, i: nat) returns (steps: seq<Step>)
    requires Inv(s) && i in s.nodes
    ensures Legal(s, steps) && Subscribing(steps, i)
    ensures var t := After(s, steps);
      t.store == s.store && t.changes == s.changes && i in t.nodes
      && forall u :: L.Cached(t.nodes[i].backend, u).Some? ==> L.Cached(t.nodes[i].backend, u) == Some(Effective(s.store, u))
  {
    assert Healthy(s.store, s.changes, i, s.nodes[i]);
    if s.nodes[i].connected {
      steps := Reconnects(Do(s, Disconnect(i)), i);
      Prepend(s, Disconnect(i), steps, i);
      steps := [Disconnect(i)] + steps;
    } else {
      steps := Reconnects(s, i);
    }
    RunKeepsInv(s, steps);
    var t := After(s, steps);
    assert Healthy(t.store, t.changes, i, t.nodes[i]);
    NothingOwedIsExact(t.store, t.nodes[i]);
  }

  lemma NothingOwedIsExact(p: Policy, n: Node)
    requires NodeInv(p, n) && n.owed == NOBODY
    ensures forall u :: L.Cached(n.backend, u).Some? ==> L.Cached(n.backend, u) == Some(Effective(p, u))
  {
    forall u | L.Cached(n.backend, u).Some? ensures L.Cached(n.backend, u) == Some(Effective(p, u)) {
      LocalOwes(p, n, u);
    }
  }
}
