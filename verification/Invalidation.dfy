/**
 Cross-instance invalidation: bounded subscriber queues on which a flush replaces what does
 not fit, first as the objects the broadcaster updates, then as a protocol in which receivers
 run alongside a broadcast and lookups alongside both.
 */
module Invalidation {
  import opened Basics

  datatype Event = Flush | Drop(key: string)

  const CAPACITY := 64

  /** What a broadcast leaves in a queue that nobody receives from meanwhile. */
  function Offered(queue: seq<Event>, ev: Event): seq<Event> {
    if |queue| < CAPACITY then queue + [ev] else if ev.Flush? then [ev] else queue
  }

  /** What the broadcaster receives. */
  datatype Received = Lost | Confirmed | Published(event: Event)

  /** The subscription counts as confirmed from its confirmation until the connection is lost. */
  function ReadyAfter(ready: bool, received: seq<Received>): bool
    decreases |received|
  {
    if received == [] then ready
    else match received[|received| - 1]
      case Lost => false
      case Confirmed => true
      case Published(_) => ReadyAfter(ready, received[..|received| - 1])
  }

  /** What receiving leaves in a queue: published events, and a flush for every confirmation. */
  function AllOffered(queue: seq<Event>, received: seq<Received>): seq<Event>
    decreases |received|
  {
    if received == [] then queue
    else
      var before := AllOffered(queue, received[..|received| - 1]);
      match received[|received| - 1]
      case Lost => before
      case Confirmed => Offered(before, Flush)
      case Published(ev) => Offered(before, ev)
  }

  /** As long as the subscription counts as confirmed, a queue that nobody receives from holds a flush. */
  lemma {:induction false} ConfirmedMeansFlushed(queue: seq<Event>, received: seq<Received>)
    requires ReadyAfter(false, received) && |queue| <= CAPACITY
    ensures Flush in AllOffered(queue, received)
    decreases |received|
  {
    var before, last := received[..|received| - 1], received[|received| - 1];
    match last
    case Confirmed => OfferedFlush(AllOffered(queue, before));
    case Published(ev) =>
      ConfirmedMeansFlushed(queue, before);
      var q := AllOffered(queue, before);
      if ev.Flush? {
        OfferedFlush(q);
      } else if |q| < CAPACITY {
        assert forall x :: x in q ==> x in q + [ev];
      }
  }

  lemma OfferedFlush(queue: seq<Event>)
    ensures Flush in Offered(queue, Flush)
  {
    var after := Offered(queue, Flush);
    assert after[|after| - 1] == Flush;
  }

  function PublishedAll(events: seq<Event>): seq<Received> {
    seq(|events|, i requires 0 <= i < |events| => Published(events[i]))
  }

  /** A subscriber that receives nothing keeps the first 64 events, in order. */
  lemma {:induction false} SixtyFourAreKept(events: seq<Event>)
    requires |events| <= 64
    ensures AllOffered([], PublishedAll(events)) == events
    decreases |events|
  {
    if events != [] {
      var before := events[..|events| - 1];
      SixtyFourAreKept(before);
      var all := PublishedAll(events);
      assert all[..|all| - 1] == PublishedAll(before);
    }
  }

  /** The 65th event is discarded if it is a drop, and takes the place of all if it is a flush. */
  lemma SixtyFifthDoesNotFit(events: seq<Event>, ev: Event)
    requires |events| == 64
    ensures AllOffered([], PublishedAll(events) + [Published(ev)]) == if ev == Flush then [Flush] else events
  {
    var all := PublishedAll(events) + [Published(ev)];
    SixtyFourAreKept(events);
    assert all[..|all| - 1] == PublishedAll(events);
  }

  class Channel {
    var queue: seq<Event>
    var closed: bool

    constructor ()
      ensures queue == [] && !closed
    {
      queue, closed := [], false;
    }
  }

  class Invalidator {
    var subs: set<Channel>
    var ready: bool
    var closed: bool

    /** Subscribers' channels are open and within their capacity; none is left after closing. */
    ghost predicate Valid()
      reads this, subs
    {
      && (forall c :: c in subs ==> !c.closed && |c.queue| <= CAPACITY)
      && (closed ==> subs == {})
    }

    constructor ()
      ensures Valid() && subs == {} && !ready && !closed
    {
      subs, ready, closed := {}, false, false;
    }

    /** Offers the event to one channel; a flush that does not fit drains the channel first. */
    method Offer(c: Channel, ev: Event)
      requires |c.queue| <= CAPACITY
      modifies c`queue
      ensures c.queue == Offered(old(c.queue), ev) && |c.queue| <= CAPACITY
    {
      if |c.queue| < CAPACITY {
        c.queue := c.queue + [ev];
      } else if ev.Flush? {
        var draining := true;
        while draining
          invariant !draining ==> c.queue == []
          decreases draining, |c.queue|
        {
          if c.queue != [] { c.queue := c.queue[1..]; } else { draining := false; }
        }
        c.queue := c.queue + [ev];
      }
    }

    method Broadcast(ev: Event)
      requires Valid()
      modifies subs`queue
      ensures Valid() && forall c :: c in subs ==> c.queue == Offered(old(c.queue), ev)
    {
      var todo := subs;
      while todo != {}
        invariant todo <= subs && Valid()
        invariant forall c :: c in subs ==> c.queue == if c in todo then old(c.queue) else Offered(old(c.queue), ev)
      {
        var c :| c in todo;
        Offer(c, ev);
        todo := todo - {c};
      }
    }

    /** The subscription is confirmed: whoever may have missed events flushes. */
    method Confirm()
      requires Valid()
      modifies this`ready, subs`queue
      ensures Valid() && ready && forall c :: c in subs ==> c.queue == Offered(old(c.queue), Flush) && Flush in c.queue
    {
      ready := true;
      Broadcast(Flush);
      forall c | c in subs ensures Flush in c.queue {
        OfferedFlush(old(c.queue));
      }
    }

    method Disconnect()
      requires Valid()
      modifies this`ready
      ensures Valid() && !ready
    {
      ready := false;
    }

    /** The receiving loop: a lost connection, a confirmed subscription or a published event at a time. */
    method Run(received: seq<Received>)
      requires Valid()
      modifies this`ready, subs`queue
      ensures Valid() && ready == ReadyAfter(old(ready), received)
      ensures forall c :: c in subs ==> c.queue == AllOffered(old(c.queue), received)
    {
      assert received[..0] == [];
      for i := 0 to |received|
        invariant Valid() && ready == ReadyAfter(old(ready), received[..i])
        invariant forall c :: c in subs ==> c.queue == AllOffered(old(c.queue), received[..i])
      {
        assert received[..i + 1][..i] == received[..i];
        match received[i] {
          case Lost => Disconnect();
          case Confirmed => Confirm();
          case Published(ev) => Broadcast(ev);
        }
      }
      assert received[..|received|] == received;
    }

    /** A new subscriber flushes at once if the subscription is already confirmed. */
    method Messages() returns (c: Channel)
      requires Valid()
      modifies this`subs
      ensures Valid() && fresh(c) && c.closed == closed
      ensures subs == old(subs) + if closed then {} else {c}
      ensures c.queue == if ready && !closed then [Flush] else []
    {
      c := new Channel();
      if closed {
        c.closed := true;
      } else {
        subs := subs + {c};
        if ready { c.queue := c.queue + [Flush]; }
      }
    }

    method Unsubscribe(c: Channel)
      requires Valid()
      modifies this`subs, c`closed
      ensures Valid() && subs == old(subs) - {c}
      ensures c.closed == (old(c.closed) || c in old(subs))
    {
      if c in subs {
        subs := subs - {c};
        c.closed := true;
      }
    }

    method CloseSubscribers()
      requires Valid()
      modifies this`subs, this`closed, subs`closed
      ensures Valid() && closed && subs == {} && forall c :: c in old(subs) ==> c.closed
    {
      closed := true;
      var todo := subs;
      while todo != {}
        invariant closed && todo <= old(subs)
        invariant forall c :: c in old(subs) && c !in todo ==> c.closed
      {
        var c :| c in todo;
        c.closed := true;
        todo := todo - {c};
      }
      subs := {};
    }
  }

  // ---- One subscriber, step by step ----

  /** An event with the moment its broadcast began. */
  datatype Sent = Sent(event: Event, at: nat)

  /** The broadcaster, which is alone in broadcasting, between its channel operations. */
  datatype Sender = Idle | Trying(sent: Sent) | Draining(sent: Sent) | Sending(sent: Sent)

  /** A lookup in progress: the generation it read when it began. */
  datatype Reader = Reader(key: string, generation: nat, began: nat)

  /**
   A subscriber's queue and Enforcer, with a clock that every step advances. `entries` holds
   for each cached key when the lookup that filled it began. `flushed` is when the last
   broadcast flush to be completed began, if any was.
   */
  datatype Line = Line(
    clock: nat,
    queue: seq<Sent>,
    sender: Sender,
    hand: Option<Sent>,
    generation: nat,
    entries: map<string, nat>,
    readers: map<nat, Reader>,
    flushed: Option<nat>)

  datatype Step =
    | Start(event: Event)
    | Try
    | DrainOne
    | Send
    | Receive
    | ApplyEvent
    | OwnFlush
    | OwnDrop(key: string)
    | Begin(reader: nat, key: string)
    | Fill(reader: nat)

  predicate Enabled(s: Line, step: Step) {
    match step
    case Start(_) => s.sender.Idle?
    case Try => s.sender.Trying?
    case DrainOne => s.sender.Draining?
    case Send => s.sender.Sending? && |s.queue| < CAPACITY
    case Receive => s.hand.None? && s.queue != []
    case ApplyEvent => s.hand.Some?
    case Begin(r, _) => r !in s.readers
    case Fill(r) => r in s.readers
    case _ => true
  }

  function Completed(s: Line, sent: Sent): Option<nat> {
    if sent.event.Flush? then Some(sent.at) else s.flushed
  }

  function Flushed(s: Line): Line {
    s.(generation := s.generation + 1, entries := map[])
  }

  function Dropped(s: Line, key: string): Line {
    s.(generation := s.generation + 1, entries := s.entries - {key})
  }

  function Effect(s: Line, step: Step): Line
    requires Enabled(s, step)
  {
    match step
    case Start(ev) => s.(sender := Trying(Sent(ev, s.clock)))
    case Try =>
      var sent := s.sender.sent;
      if |s.queue| < CAPACITY then s.(queue := s.queue + [sent], sender := Idle, flushed := Completed(s, sent))
      else if sent.event.Flush? then s.(sender := Draining(sent))
      else s.(sender := Idle)
    case DrainOne => if s.queue == [] then s.(sender := Sending(s.sender.sent)) else s.(queue := s.queue[1..])
    case Send => s.(queue := s.queue + [s.sender.sent], sender := Idle, flushed := Completed(s, s.sender.sent))
    case Receive => s.(queue := s.queue[1..], hand := Some(s.queue[0]))
    case ApplyEvent =>
      var t := s.(hand := None);
      match s.hand.value.event {
        case Flush => Flushed(t)
        case Drop(key) => if key == "" then t else Dropped(t, key)
      }
    case OwnFlush => Flushed(s)
    case OwnDrop(key) => Dropped(s, key)
    case Begin(r, key) => s.(readers := s.readers[r := Reader(key, s.generation, s.clock)])
    case Fill(r) =>
      var reader := s.readers[r];
      s.(readers := s.readers - {r},
         entries := if reader.generation == s.generation then s.entries[reader.key := reader.began] else s.entries)
  }

  function Do(s: Line, step: Step): Line
    requires Enabled(s, step)
  {
    Effect(s, step).(clock := s.clock + 1)
  }

  /** A subscriber as it attaches, before or after the subscription was confirmed. */
  function Attached(ready: bool): Line {
    Line(1, if ready then [Sent(Flush, 0)] else [], Idle, None, 0, map[], map[], None)
  }

  // ---- Invariants ----

  /** A flush whose broadcast began no earlier than `t` will still be applied. */
  ghost predicate Pending(s: Line, t: nat) {
    || (exists i :: 0 <= i < |s.queue| && IsFlush(s.queue[i], t))
    || (s.hand.Some? && IsFlush(s.hand.value, t))
    || (!s.sender.Idle? && !s.sender.Trying? && s.sender.sent.at >= t)
  }

  predicate IsFlush(sent: Sent, t: nat) {
    sent.event.Flush? && sent.at >= t
  }

  /** Nothing cached, and no fill that would be accepted, stems from a lookup that began before `t`. */
  ghost predicate Renewed(s: Line, t: nat) {
    && (forall k :: k in s.entries ==> s.entries[k] >= t)
    && (forall r :: r in s.readers && s.readers[r].generation == s.generation ==> s.readers[r].began >= t)
  }

  ghost predicate Inv(s: Line) {
    && InOrder(s)
    && (s.flushed.Some? ==> Pending(s, s.flushed.value) || Renewed(s, s.flushed.value))
  }

  /** Nothing is dated in the future, and the queue and the sender's state fit each other. */
  ghost predicate InOrder(s: Line) {
    && |s.queue| <= CAPACITY
    && (!s.sender.Idle? ==> s.sender.sent.at < s.clock)
    && (s.sender.Draining? || s.sender.Sending? ==> s.sender.sent.event.Flush?)
    && (s.sender.Sending? ==> s.queue == [])
    && (forall sent :: sent in s.queue ==> sent.at < s.clock)
    && (s.hand.Some? ==> s.hand.value.at < s.clock)
    && (s.flushed.Some? ==> s.flushed.value < s.clock && (!s.sender.Idle? ==> s.flushed.value <= s.sender.sent.at))
    && (forall r :: r in s.readers ==> s.readers[r].generation <= s.generation)
  }

  lemma StepKeepsOrder(s: Line, step: Step)
    requires InOrder(s) && Enabled(s, step)
    ensures InOrder(Do(s, step))
  {
    match step
    case Start(_) | Try | DrainOne | Send => SenderKeepsOrder(s, step);
    case Receive | ApplyEvent => ReceiverKeepsOrder(s, step);
    case _ =>
  }

  lemma SenderKeepsOrder(s: Line, step: Step)
    requires InOrder(s) && Enabled(s, step) && (Sends(step) || step.Start?)
    ensures InOrder(Do(s, step))
  {
  }

  lemma ReceiverKeepsOrder(s: Line, step: Step)
    requires InOrder(s) && Enabled(s, step) && (step.Receive? || step.ApplyEvent?)
    ensures InOrder(Do(s, step))
  {
  }

  lemma AttachedInv(ready: bool)
    ensures Inv(Attached(ready))
  {
  }

  /** Only a flush being received leaves the queue, and it does so into the receiver's hand. */
  lemma PendingAfterReceive(s: Line, t: nat)
    requires Enabled(s, Receive) && Pending(s, t)
    ensures Pending(Do(s, Receive), t)
  {
    if i :| 0 <= i < |s.queue| && IsFlush(s.queue[i], t) {
      if i > 0 { assert IsFlush(Do(s, Receive).queue[i - 1], t); }
    }
  }

  lemma PendingAfterAppend(s: Line, u: Line, sent: Sent, t: nat)
    requires u.queue == s.queue + [sent] && u.hand == s.hand
    requires IsFlush(sent, t) || (Pending(s, t) && s.sender.Trying?)
    ensures Pending(u, t)
  {
    if IsFlush(sent, t) {
      assert IsFlush(u.queue[|s.queue|], t);
    } else if i :| 0 <= i < |s.queue| && IsFlush(s.queue[i], t) {
      assert IsFlush(u.queue[i], t);
    }
  }

  /** Whatever applies or bumps, nothing older than before becomes cached or acceptable. */
  lemma RenewedStays(s: Line, step: Step, t: nat)
    requires Inv(s) && Enabled(s, step) && Renewed(s, t) && t < s.clock
    ensures Renewed(Do(s, step), t)
  {
    if step.Fill? { FillKeepsRenewed(s, step.reader, t); }
  }

  lemma FillKeepsRenewed(s: Line, r: nat, t: nat)
    requires r in s.readers && Renewed(s, t)
    ensures Renewed(Do(s, Fill(r)), t)
  {
  }

  /** Applying a flush renews the cache up to the present. */
  lemma ApplyingRenews(s: Line, t: nat)
    requires Inv(s) && s.hand.Some? && s.hand.value.event.Flush? && t <= s.clock
    ensures Renewed(Do(s, ApplyEvent), t)
  {
  }

  /** Until it is applied, a pending flush stays pending, or a later one takes its place. */
  lemma PendingStays(s: Line, step: Step, t: nat)
    requires Inv(s) && Enabled(s, step) && Pending(s, t) && t < s.clock
    requires !s.sender.Idle? ==> t <= s.sender.sent.at
    ensures Pending(Do(s, step), t) || Renewed(Do(s, step), t)
  {
    var u := Do(s, step);
    match step
    case Try =>
      if |s.queue| < CAPACITY {
        PendingAfterAppend(s, u, s.sender.sent, t);
      }
    case Send => PendingAfterAppend(s, u, s.sender.sent, t);
    case Receive => PendingAfterReceive(s, t);
    case ApplyEvent =>
      if s.hand.value.event.Flush? { ApplyingRenews(s, t); }
    case _ =>
  }

  lemma CompletedIsPending(s: Line, step: Step)
    requires Inv(s) && Enabled(s, step) && Do(s, step).flushed != s.flushed
    ensures Do(s, step).flushed.Some? && Pending(Do(s, step), Do(s, step).flushed.value)
  {
    PendingAfterAppend(s, Do(s, step), s.sender.sent, s.sender.sent.at);
  }

  lemma StepKeepsInv(s: Line, step: Step)
    requires Inv(s) && Enabled(s, step)
    ensures Inv(Do(s, step))
  {
    var u := Do(s, step);
    StepKeepsOrder(s, step);
    if u.flushed != s.flushed {
      CompletedIsPending(s, step);
    } else if s.flushed.Some? {
      if Pending(s, s.flushed.value) {
        PendingStays(s, step, s.flushed.value);
      } else {
        RenewedStays(s, step, s.flushed.value);
      }
    }
  }

  // ---- Runs ----

  ghost predicate Legal(s: Line, steps: seq<Step>)
    decreases |steps|
  {
    steps == [] || (Enabled(s, steps[0]) && Legal(Do(s, steps[0]), steps[1..]))
  }

  ghost function After(s: Line, steps: seq<Step>): Line
    requires Legal(s, steps)
    decreases |steps|
  {
    if steps == [] then s else After(Do(s, steps[0]), steps[1..])
  }

  lemma {:induction false} RunKeepsInv(s: Line, steps: seq<Step>)
    requires Inv(s) && Legal(s, steps)
    ensures Inv(After(s, steps))
    decreases |steps|
  {
    if steps != [] {
      StepKeepsInv(s, steps[0]);
      RunKeepsInv(Do(s, steps[0]), steps[1..]);
    }
  }

  lemma FlushedStays(s: Line, step: Step, t: nat)
    requires InOrder(s) && Enabled(s, step) && s.flushed.Some? && t <= s.flushed.value
    ensures Do(s, step).flushed.Some? && t <= Do(s, step).flushed.value
  {
  }

  /**
   A flush is never lost: once its broadcast is complete, every later state still has it or a
   later flush to apply, or holds nothing cached or acceptable from before the broadcast.
   */
  lemma {:induction false} FlushNeverLost(s: Line, steps: seq<Step>, t: nat)
    requires Inv(s) && s.flushed.Some? && t <= s.flushed.value && Legal(s, steps)
    ensures Pending(After(s, steps), t) || Renewed(After(s, steps), t)
    decreases |steps|
  {
    if steps != [] {
      StepKeepsInv(s, steps[0]);
      FlushedStays(s, steps[0], t);
      FlushNeverLost(Do(s, steps[0]), steps[1..], t);
    }
  }

  /** With nothing on its way, the cache holds only what lookups begun after the last flush found. */
  lemma QuietMeansRenewed(ready: bool, steps: seq<Step>)
    requires Legal(Attached(ready), steps)
    ensures var s := After(Attached(ready), steps);
      s.flushed.Some? && s.queue == [] && s.hand.None? && s.sender.Idle? ==> Renewed(s, s.flushed.value)
  {
    AttachedInv(ready);
    RunKeepsInv(Attached(ready), steps);
  }

  /** The steps a broadcast still takes at most. */
  function SendsLeft(s: Line): nat {
    match s.sender
    case Idle => 0
    case Trying(_) => CAPACITY + 3
    case Draining(_) => |s.queue| + 2
    case Sending(_) => 1
  }

  predicate Sends(step: Step) {
    step.Try? || step.DrainOne? || step.Send?
  }

  /**
   A broadcast never blocks: its next step is always possible, each of its steps brings it
   closer to the end, and nobody else's step takes it further away.
   */
  lemma BroadcastNeverBlocks(s: Line, step: Step)
    requires Inv(s)
    ensures !s.sender.Idle? ==> exists next :: Sends(next) && Enabled(s, next)
    ensures Enabled(s, step) && Sends(step) ==> SendsLeft(Do(s, step)) < SendsLeft(s)
    ensures Enabled(s, step) && !Sends(step) && !step.Start? ==> SendsLeft(Do(s, step)) <= SendsLeft(s)
  {
    match s.sender
    case Trying(_) => assert Sends(Try) && Enabled(s, Try);
    case Draining(_) => assert Sends(DrainOne) && Enabled(s, DrainOne);
    case Sending(_) => assert Sends(Send) && Enabled(s, Send);
    case Idle =>
  }

  lemma ReceivingGoesOn(s: Line, step: Step)
    requires Enabled(s, step) && (step.Receive? || step.ApplyEvent?)
    ensures var u := Do(s, step);
      && u.sender == s.sender && u.flushed == s.flushed
      && 2 * |s.queue| + (if s.hand.Some? then 1 else 0) == 2 * |u.queue| + (if u.hand.Some? then 1 else 0) + 1
  {
  }

  /** The subscriber's loop empties an undisturbed queue, and the cache is renewed. */
  lemma {:induction false} ReceivingRenews(s: Line) returns (steps: seq<Step>)
    requires Inv(s) && s.sender.Idle? && s.flushed.Some?
    ensures Legal(s, steps) && |steps| == 2 * |s.queue| + (if s.hand.Some? then 1 else 0)
    ensures var u := After(s, steps); u.queue == [] && u.hand.None? && Renewed(u, s.flushed.value)
    decreases 2 * |s.queue| + (if s.hand.Some? then 1 else 0)
  {
    if s.hand.None? && s.queue == [] {
      steps := [];
    } else {
      var step := if s.hand.Some? then ApplyEvent else Receive;
      StepKeepsInv(s, step);
      ReceivingGoesOn(s, step);
      var rest := ReceivingRenews(Do(s, step));
      steps := [step] + rest;
      assert steps[0] == step && steps[1..] == rest;
    }
  }

  // ---- The object's broadcast is the uninterrupted protocol ----

  function Events(queue: seq<Sent>): seq<Event> {
    seq(|queue|, i requires 0 <= i < |queue| => queue[i].event)
  }

  lemma {:induction false} OneMore(s: Line, steps: seq<Step>, step: Step)
    requires Legal(s, steps) && Enabled(After(s, steps), step)
    ensures Legal(s, steps + [step]) && After(s, steps + [step]) == Do(After(s, steps), step)
    decreases |steps|
  {
    if steps == [] {
      assert [step][1..] == [];
    } else {
      OneMore(Do(s, steps[0]), steps[1..], step);
      assert (steps + [step])[1..] == steps[1..] + [step];
    }
  }

  /** Steps of the broadcaster alone leave in the queue what `Offered` says. */
  lemma UninterruptedIsOffered(s: Line, ev: Event) returns (steps: seq<Step>)
    requires Inv(s) && s.sender.Idle?
    ensures Legal(s, steps) && forall step :: step in steps ==> step == Start(ev) || Sends(step)
    ensures After(s, steps).sender.Idle? && Events(After(s, steps).queue) == Offered(Events(s.queue), ev)
    ensures ev.Flush? ==> After(s, steps).flushed == Some(s.clock)
  {
    OneMore(s, [], Start(ev));
    assert [] + [Start(ev)] == [Start(ev)];
    OneMore(s, [Start(ev)], Try);
    steps := [Start(ev)] + [Try];
    if |s.queue| == CAPACITY && ev.Flush? {
      var drained := DrainAll(s, steps);
      OneMore(s, steps + drained, Send);
      steps := steps + drained + [Send];
    }
  }

  lemma DrainAll(s: Line, before: seq<Step>) returns (steps: seq<Step>)
    requires Legal(s, before) && After(s, before).sender.Draining?
    ensures Legal(s, before + steps) && forall step :: step in steps ==> step.DrainOne?
    ensures var u, v := After(s, before), After(s, before + steps);
      v.queue == [] && v.sender == Sending(u.sender.sent) && v.flushed == u.flushed
  {
    var u := After(s, before);
    steps := [];
    assert before + steps == before;
    for i := 0 to |u.queue|
      invariant Legal(s, before + steps) && forall step :: step in steps ==> step.DrainOne?
      invariant After(s, before + steps) == u.(queue := u.queue[i..], clock := u.clock + i)
    {
      OneMore(s, before + steps, DrainOne);
      assert before + steps + [DrainOne] == before + (steps + [DrainOne]);
      steps := steps + [DrainOne];
    }
    OneMore(s, before + steps, DrainOne);
    assert before + steps + [DrainOne] == before + (steps + [DrainOne]);
    steps := steps + [DrainOne];
  }

  // ---- Drops ----

  /** A drop of the key, or a flush, whose broadcast began no earlier than `t`. */
  predicate Removes(sent: Sent, key: string, t: nat) {
    sent.at >= t && (sent.event.Flush? || sent.event == Drop(key))
  }

  /** Such an event will still be applied. */
  ghost predicate DropPending(s: Line, key: string, t: nat) {
    || (exists i :: 0 <= i < |s.queue| && Removes(s.queue[i], key, t))
    || (s.hand.Some? && Removes(s.hand.value, key, t))
    || (!s.sender.Idle? && !s.sender.Trying? && s.sender.sent.at >= t)
  }

  /** The key's entry, and every fill of it that would be accepted, stem from lookups begun at `t` or later. */
  ghost predicate KeyRenewed(s: Line, key: string, t: nat) {
    && (key in s.entries ==> s.entries[key] >= t)
    && (forall r :: r in s.readers && s.readers[r].key == key && s.readers[r].generation == s.generation ==>
          s.readers[r].began >= t)
  }

  /** What is being broadcast now began no earlier than `t`. */
  predicate Since(s: Line, t: nat) {
    t < s.clock && (!s.sender.Idle? ==> t <= s.sender.sent.at)
  }

  lemma DropPendingAfterReceive(s: Line, key: string, t: nat)
    requires Enabled(s, Receive) && DropPending(s, key, t)
    ensures DropPending(Do(s, Receive), key, t)
  {
    if i :| 0 <= i < |s.queue| && Removes(s.queue[i], key, t) {
      if i > 0 { assert Removes(Do(s, Receive).queue[i - 1], key, t); }
    }
  }

  lemma DropPendingAfterAppend(s: Line, u: Line, sent: Sent, key: string, t: nat)
    requires u.queue == s.queue + [sent] && u.hand == s.hand
    requires Removes(sent, key, t) || (DropPending(s, key, t) && s.sender.Trying?)
    ensures DropPending(u, key, t)
  {
    if Removes(sent, key, t) {
      assert Removes(u.queue[|s.queue|], key, t);
    } else if i :| 0 <= i < |s.queue| && Removes(s.queue[i], key, t) {
      assert Removes(u.queue[i], key, t);
    }
  }

  /** Until it is applied a queued drop stays queued, or a flush takes its place. */
  lemma DropPendingStays(s: Line, step: Step, key: string, t: nat)
    requires Inv(s) && Enabled(s, step) && Since(s, t) && key != "" && DropPending(s, key, t)
    ensures DropPending(Do(s, step), key, t) || KeyRenewed(Do(s, step), key, t)
  {
    var u := Do(s, step);
    match step
    case Try =>
      if |s.queue| < CAPACITY {
        DropPendingAfterAppend(s, u, s.sender.sent, key, t);
      }
    case Send => DropPendingAfterAppend(s, u, s.sender.sent, key, t);
    case Receive => DropPendingAfterReceive(s, key, t);
    case ApplyEvent => AppliedDrop(s, key, t);
    case _ =>
  }

  lemma AppliedDrop(s: Line, key: string, t: nat)
    requires Inv(s) && s.hand.Some? && Since(s, t) && key != "" && DropPending(s, key, t)
    ensures DropPending(Do(s, ApplyEvent), key, t) || KeyRenewed(Do(s, ApplyEvent), key, t)
  {
    var u := Do(s, ApplyEvent);
    if Removes(s.hand.value, key, t) {
      assert KeyRenewed(u, key, t);
    } else if i :| 0 <= i < |s.queue| && Removes(s.queue[i], key, t) {
      assert Removes(u.queue[i], key, t);
    }
  }

  lemma SinceStays(s: Line, step: Step, t: nat)
    requires Inv(s) && Enabled(s, step) && Since(s, t)
    ensures Since(Do(s, step), t)
  {
  }

  lemma KeyRenewedStays(s: Line, step: Step, key: string, t: nat)
    requires Inv(s) && Enabled(s, step) && Since(s, t) && KeyRenewed(s, key, t)
    ensures KeyRenewed(Do(s, step), key, t)
  {
  }

  lemma {:induction false} DropStaysOnItsWay(s: Line, steps: seq<Step>, key: string, t: nat)
    requires Inv(s) && Since(s, t) && key != "" && Legal(s, steps)
    requires DropPending(s, key, t) || KeyRenewed(s, key, t)
    ensures DropPending(After(s, steps), key, t) || KeyRenewed(After(s, steps), key, t)
    decreases |steps|
  {
    if steps != [] {
      StepKeepsInv(s, steps[0]);
      SinceStays(s, steps[0], t);
      if DropPending(s, key, t) {
        DropPendingStays(s, steps[0], key, t);
      } else {
        KeyRenewedStays(s, steps[0], key, t);
      }
      DropStaysOnItsWay(Do(s, steps[0]), steps[1..], key, t);
    }
  }

  /** The broadcaster is about to offer the drop of a key. */
  predicate Offering(s: Line, key: string) {
    s.sender.Trying? && s.sender.sent.event == Drop(key) && key != ""
  }

  /**
   A drop that fits is never lost: every later state still has it, or a flush in its place, to
   apply, or holds nothing cached or acceptable for the key from before its broadcast.
   */
  lemma DropThatFitsNeverLost(s: Line, key: string, steps: seq<Step>)
    requires Inv(s) && Offering(s, key) && |s.queue| < CAPACITY && Legal(Do(s, Try), steps)
    ensures var u, t := After(Do(s, Try), steps), s.sender.sent.at;
      DropPending(u, key, t) || KeyRenewed(u, key, t)
  {
    StepKeepsInv(s, Try);
    DropPendingAfterAppend(s, Do(s, Try), s.sender.sent, key, s.sender.sent.at);
    DropStaysOnItsWay(Do(s, Try), steps, key, s.sender.sent.at);
  }

  /** Nothing on its way would remove the key's entry. */
  ghost predicate Unnamed(s: Line, key: string) {
    && (forall sent :: sent in s.queue ==> !sent.event.Flush? && sent.event != Drop(key))
    && (s.hand.Some? ==> !s.hand.value.event.Flush? && s.hand.value.event != Drop(key))
  }

  /** Only the subscriber's loop runs. */
  ghost predicate OnlyReceives(steps: seq<Step>) {
    forall step :: step in steps ==> step.Receive? || step.ApplyEvent?
  }

  /** The subscriber's loop adds no entry, and keeps one that nothing on its way names. */
  lemma {:induction false} ReceivingKeeps(s: Line, steps: seq<Step>, key: string)
    requires Legal(s, steps) && OnlyReceives(steps)
    ensures var u := After(s, steps);
      && (key in u.entries ==> key in s.entries && u.entries[key] == s.entries[key])
      && (Unnamed(s, key) && key in s.entries ==> key in u.entries)
    decreases |steps|
  {
    if steps != [] {
      assert steps[0] in steps && forall step :: step in steps[1..] ==> step in steps;
      StepReceives(s, steps[0], key);
      ReceivingKeeps(Do(s, steps[0]), steps[1..], key);
    }
  }

  lemma StepReceives(s: Line, step: Step, key: string)
    requires Enabled(s, step) && (step.Receive? || step.ApplyEvent?)
    ensures var u := Do(s, step);
      && (key in u.entries ==> key in s.entries && u.entries[key] == s.entries[key])
      && (Unnamed(s, key) ==> Unnamed(u, key) && (key in s.entries ==> key in u.entries))
  {
  }

  /**
   When a broadcast drop takes effect: with an older entry for the key and nothing else on its
   way that would remove it, the entry is gone once the subscriber has received and applied
   everything exactly if the queue had room for the drop.
   */
  lemma DropTakesEffectIffItFits(s: Line, key: string, steps: seq<Step>)
    requires Inv(s) && Offering(s, key) && Unnamed(s, key)
    requires key in s.entries && s.entries[key] < s.sender.sent.at
    requires Legal(Do(s, Try), steps) && OnlyReceives(steps)
    requires var u := After(Do(s, Try), steps); u.queue == [] && u.hand.None? && u.sender.Idle?
    ensures key !in After(Do(s, Try), steps).entries <==> |s.queue| < CAPACITY
  {
    ReceivingKeeps(Do(s, Try), steps, key);
    if |s.queue| < CAPACITY {
      DropThatFitsNeverLost(s, key, steps);
    }
  }

  // ---- Such states are reached ----

  /** A subscriber with a cached entry for `key`, and `n` drops of another key in its queue. */
  ghost predicate Backlog(s: Line, n: nat, key: string, other: string) {
    && s.sender.Idle? && s.hand.None? && |s.queue| == n && key in s.entries
    && forall sent :: sent in s.queue ==> sent.event == Drop(other)
  }

  lemma Caching(key: string) returns (steps: seq<Step>)
    ensures Legal(Attached(false), steps) && forall other :: Backlog(After(Attached(false), steps), 0, key, other)
  {
    var s := Attached(false);
    OneMore(s, [], Begin(0, key));
    OneMore(s, [] + [Begin(0, key)], Fill(0));
    steps := [] + [Begin(0, key)] + [Fill(0)];
  }

  lemma FillingUp(before: seq<Step>, key: string, other: string) returns (steps: seq<Step>)
    requires Legal(Attached(false), before) && Backlog(After(Attached(false), before), 0, key, other)
    ensures Legal(Attached(false), steps) && Backlog(After(Attached(false), steps), CAPACITY, key, other)
  {
    var s := Attached(false);
    steps := before;
    for i := 0 to CAPACITY
      invariant Legal(s, steps) && Backlog(After(s, steps), i, key, other)
    {
      OneMore(s, steps, Start(Drop(other)));
      steps := steps + [Start(Drop(other))];
      OneMore(s, steps, Try);
      steps := steps + [Try];
    }
  }

  lemma Emptying(before: seq<Step>, key: string, other: string) returns (steps: seq<Step>)
    requires key != other
    requires Legal(Attached(false), before) && Backlog(After(Attached(false), before), CAPACITY, key, other)
    ensures OnlyReceives(steps) && Legal(Attached(false), before + steps)
    ensures Backlog(After(Attached(false), before + steps), 0, key, other)
  {
    var s := Attached(false);
    steps := [];
    assert before + steps == before;
    var i := CAPACITY;
    while i > 0
      invariant 0 <= i <= CAPACITY && OnlyReceives(steps)
      invariant Legal(s, before + steps) && Backlog(After(s, before + steps), i, key, other)
    {
      OneMore(s, before + steps, Receive);
      OneMore(s, before + steps + [Receive], ApplyEvent);
      assert before + steps + [Receive] + [ApplyEvent] == before + (steps + [Receive] + [ApplyEvent]);
      steps := steps + [Receive] + [ApplyEvent];
      i := i - 1;
    }
  }

  /** For every key there is a run in which its drop is discarded and the old entry outlives everything else. */
  lemma FullQueueLosesDrops(key: string, other: string) returns (before: seq<Step>, after: seq<Step>)
    requires key != other
    ensures Legal(Attached(false), before + [Start(Drop(key))] + ([Try] + after)) && OnlyReceives(after)
    ensures var s := After(Attached(false), before + [Start(Drop(key))] + ([Try] + after));
      s.queue == [] && s.hand.None? && s.sender.Idle? && key in s.entries
  {
    var s := Attached(false);
    var cached := Caching(key);
    before := FillingUp(cached, key, other);
    var started := before + [Start(Drop(key))];
    OneMore(s, before, Start(Drop(key)));
    OneMore(s, started, Try);
    after := Emptying(started + [Try], key, other);
    assert started + ([Try] + after) == started + [Try] + after;
  }
}
