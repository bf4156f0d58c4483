/**
 Which entries a full cache keeps: told over traces, by when each key was last written or hit.
 */
module LruRecency {
  import opened Basics
  import opened Lru
  import opened LruTrace

  /** What was just put in can be read back for its whole lifetime. */
  lemma PutThenGet<K, V>(c: Cache<K, V>, k: K, v: V, now: int, later: int)
    requires c.capacity > 0 && later <= now + c.ttl
    ensures Get(Put(c, k, v, now), k, later).0 == Some(v)
  {
    var e := Entry(k, v, now + c.ttl);
    var es := Put(c, k, v, now).entries;
    assert es[0] == e;
  }

  // ---- Use over a trace ----

  /** The key that an operation after the trace writes or hits. */
  ghost function UsedBy<K, V>(c: Cache<K, V>, ops: seq<CacheOp<K, V>>, op: CacheOp<K, V>): Option<K> {
    match op
    case PutOp(k, _, _) => Some(k)
    case PutIfOp(k, _, token, _) => if token == c.generation + Bumps(ops) then Some(k) else None
    case GetOp(k, now) => if Get(AfterAll(c, ops), k, now).0.Some? then Some(k) else None
    case _ => None
  }

  /** When the trace last wrote or hit the key: the position of that operation, or -1. */
  ghost function LastUse<K, V>(c: Cache<K, V>, ops: seq<CacheOp<K, V>>, k: K): int
    decreases |ops|
  {
    if ops == [] then -1
    else if UsedBy(c, ops[..|ops| - 1], ops[|ops| - 1]) == Some(k) then |ops| - 1
    else LastUse(c, ops[..|ops| - 1], k)
  }

  /** The other keys written or hit since the key last was. */
  ghost function UsedSince<K, V>(c: Cache<K, V>, ops: seq<CacheOp<K, V>>, k: K): set<K> {
    set op | op in ops && !op.FlushOp? && LastUse(c, ops, op.key) > LastUse(c, ops, k) :: op.key
  }

  lemma LastUseSnoc<K, V>(c: Cache<K, V>, ops: seq<CacheOp<K, V>>, op: CacheOp<K, V>, k: K)
    ensures LastUse(c, ops + [op], k) == if UsedBy(c, ops, op) == Some(k) then |ops| else LastUse(c, ops, k)
    ensures AfterAll(c, ops + [op]) == After(AfterAll(c, ops), op)
  {
    var all := ops + [op];
    assert all[..|all| - 1] == ops && all[|all| - 1] == op;
    AfterAllSnoc(c, all);
  }

  lemma {:induction false} LastUseIsPast<K, V>(c: Cache<K, V>, ops: seq<CacheOp<K, V>>, k: K)
    ensures -1 <= LastUse(c, ops, k) < |ops|
    ensures LastUse(c, ops, k) >= 0 ==> exists op :: op in ops && !op.FlushOp? && op.key == k
    decreases |ops|
  {
    if ops != [] {
      LastUseIsPast(c, ops[..|ops| - 1], k);
      if UsedBy(c, ops[..|ops| - 1], ops[|ops| - 1]) == Some(k) {
        assert ops[|ops| - 1] in ops;
      }
    }
  }

  // ---- The list is in the order of use ----

  /** The entries come in falling order of their keys' last use. */
  ghost predicate InOrder<K, V>(c: Cache<K, V>, ops: seq<CacheOp<K, V>>, es: seq<Entry<K, V>>) {
    && (forall i :: 0 <= i < |es| ==> LastUse(c, ops, es[i].key) >= 0)
    && (forall i, j :: 0 <= i < j < |es| ==> LastUse(c, ops, es[i].key) > LastUse(c, ops, es[j].key))
  }

  lemma KeptAt<K, V>(es: seq<Entry<K, V>>, ks: set<K>, i: nat)
    requires i < |Keep(es, ks)|
    ensures Keep(es, ks)[i] in es && Keep(es, ks)[i].key in ks
  {
    var e := Keep(es, ks)[i];
    KeepMembers(es, ks, e);
  }

  /** Everything in the list was used before the key. */
  ghost predicate Above<K, V>(c: Cache<K, V>, ops: seq<CacheOp<K, V>>, k: K, es: seq<Entry<K, V>>) {
    forall e :: e in es ==> LastUse(c, ops, k) > LastUse(c, ops, e.key)
  }

  lemma TailInOrder<K, V>(c: Cache<K, V>, ops: seq<CacheOp<K, V>>, es: seq<Entry<K, V>>)
    requires es != [] && InOrder(c, ops, es)
    ensures InOrder(c, ops, es[1..]) && Above(c, ops, es[0].key, es[1..]) && LastUse(c, ops, es[0].key) >= 0
  {
    forall e | e in es[1..] ensures LastUse(c, ops, es[0].key) > LastUse(c, ops, e.key) {
      var j :| 0 <= j < |es[1..]| && es[1..][j] == e;
      assert es[j + 1] == e;
    }
  }

  lemma ConsInOrder<K, V>(c: Cache<K, V>, ops: seq<CacheOp<K, V>>, e: Entry<K, V>, es: seq<Entry<K, V>>)
    requires InOrder(c, ops, es) && Above(c, ops, e.key, es) && LastUse(c, ops, e.key) >= 0
    ensures InOrder(c, ops, [e] + es)
  {
    forall j | 0 <= j < |es| ensures LastUse(c, ops, e.key) > LastUse(c, ops, es[j].key) {
      assert es[j] in es;
    }
  }

  lemma {:induction false} KeepInOrder<K, V>(c: Cache<K, V>, ops: seq<CacheOp<K, V>>, es: seq<Entry<K, V>>, ks: set<K>)
    requires InOrder(c, ops, es)
    ensures InOrder(c, ops, Keep(es, ks))
  {
    if es != [] {
      TailInOrder(c, ops, es);
      KeepInOrder(c, ops, es[1..], ks);
      forall e | e in Keep(es[1..], ks) ensures LastUse(c, ops, es[0].key) > LastUse(c, ops, e.key) {
        KeepMembers(es[1..], ks, e);
      }
      if es[0].key in ks {
        ConsInOrder(c, ops, es[0], Keep(es[1..], ks));
      } else {
        assert [] + Keep(es[1..], ks) == Keep(es[1..], ks);
      }
    }
  }

  /** An operation that uses none of the entries' keys leaves their order. */
  lemma UnusedStayInOrder<K, V>(c: Cache<K, V>, ops: seq<CacheOp<K, V>>, op: CacheOp<K, V>, es: seq<Entry<K, V>>)
    requires InOrder(c, ops, es) && forall i :: 0 <= i < |es| ==> UsedBy(c, ops, op) != Some(es[i].key)
    ensures InOrder(c, ops + [op], es)
  {
    forall i | 0 <= i < |es| ensures LastUse(c, ops + [op], es[i].key) == LastUse(c, ops, es[i].key) {
      LastUseSnoc(c, ops, op, es[i].key);
    }
  }

  lemma PushedInOrder<K, V>(c: Cache<K, V>, ops: seq<CacheOp<K, V>>, op: CacheOp<K, V>, es: seq<Entry<K, V>>, e: Entry<K, V>)
    requires InOrder(c, ops, es) && UsedBy(c, ops, op) == Some(e.key)
    ensures InOrder(c, ops + [op], [e] + Without(es, e.key))
  {
    var rest := Without(es, e.key);
    KeepInOrder(c, ops, es, Keys(es) - {e.key});
    forall i | 0 <= i < |rest| ensures rest[i].key != e.key {
      KeptAt(es, Keys(es) - {e.key}, i);
    }
    UnusedStayInOrder(c, ops, op, rest);
    LastUseSnoc(c, ops, op, e.key);
    forall i | 0 <= i < |rest| ensures LastUse(c, ops + [op], rest[i].key) < |ops| {
      LastUseSnoc(c, ops, op, rest[i].key);
      LastUseIsPast(c, ops, rest[i].key);
    }
  }

  lemma WithoutStaysInOrder<K, V>(c: Cache<K, V>, ops: seq<CacheOp<K, V>>, op: CacheOp<K, V>, es: seq<Entry<K, V>>, k: K)
    requires InOrder(c, ops, es) && UsedBy(c, ops, op) == None
    ensures InOrder(c, ops + [op], Without(es, k))
  {
    KeepInOrder(c, ops, es, Keys(es) - {k});
    UnusedStayInOrder(c, ops, op, Without(es, k));
  }

  lemma WriteInOrder<K, V>(c: Cache<K, V>, ops: seq<CacheOp<K, V>>, op: CacheOp<K, V>, d: Cache<K, V>)
    requires InOrder(c, ops, d.entries) && (op.PutOp? || op.PutIfOp?) && UsedBy(c, ops, op) == Some(op.key)
    ensures InOrder(c, ops + [op], Put(d, op.key, op.value, op.now).entries)
  {
    PushedInOrder(c, ops, op, d.entries, Entry(op.key, op.value, op.now + d.ttl));
  }

  lemma GetInOrder<K, V>(c: Cache<K, V>, ops: seq<CacheOp<K, V>>, k: K, now: int)
    requires InOrder(c, ops, AfterAll(c, ops).entries)
    ensures InOrder(c, ops + [GetOp(k, now)], Get(AfterAll(c, ops), k, now).1.entries)
  {
    var d, op := AfterAll(c, ops), GetOp(k, now);
    match Find(d.entries, k)
    case None => UnusedStayInOrder(c, ops, op, d.entries);
    case Some(e) =>
      if now > e.expires {
        WithoutStaysInOrder(c, ops, op, d.entries, k);
      } else {
        PushedInOrder(c, ops, op, d.entries, e);
      }
  }

  lemma StepInOrder<K, V>(c: Cache<K, V>, ops: seq<CacheOp<K, V>>, op: CacheOp<K, V>)
    requires InOrder(c, ops, AfterAll(c, ops).entries) && AfterAll(c, ops).generation == c.generation + Bumps(ops)
    ensures InOrder(c, ops + [op], After(AfterAll(c, ops), op).entries)
  {
    var d := AfterAll(c, ops);
    match op
    case GetOp(k, now) => GetInOrder(c, ops, k, now);
    case PutOp(_, _, _) => WriteInOrder(c, ops, op, d);
    case PutIfOp(k, _, token, _) =>
      if token == d.generation {
        WriteInOrder(c, ops, op, d);
      } else {
        UnusedStayInOrder(c, ops, op, d.entries);
      }
    case DeleteOp(k) => WithoutStaysInOrder(c, ops, op, d.entries, k);
    case FlushOp =>
  }

  lemma {:induction false} TraceInOrder<K, V>(c: Cache<K, V>, ops: seq<CacheOp<K, V>>)
    requires c.entries == []
    ensures InOrder(c, ops, AfterAll(c, ops).entries)
    decreases |ops|
  {
    if ops != [] {
      var before, op := ops[..|ops| - 1], ops[|ops| - 1];
      assert ops == before + [op];
      TraceInOrder(c, before);
      TraceTells(c, before);
      StepInOrder(c, before, op);
      AfterAllSnoc(c, ops);
    }
  }

  lemma {:induction false} TraceKeepsSettings<K, V>(c: Cache<K, V>, ops: seq<CacheOp<K, V>>)
    ensures AfterAll(c, ops).capacity == c.capacity && AfterAll(c, ops).ttl == c.ttl
    decreases |ops|
  {
    if ops != [] {
      TraceKeepsSettings(After(c, ops[0]), ops[1..]);
    }
  }

  /** The entries of a trace are in the order of use, within the capacity, and tell the last writes. */
  lemma TraceKeeps<K, V>(c: Cache<K, V>, ops: seq<CacheOp<K, V>>)
    requires c.entries == []
    ensures var d := AfterAll(c, ops);
      d.capacity == c.capacity && d.ttl == c.ttl && Bounded(d) && Tells(d, ops, c.generation) && InOrder(c, ops, d.entries)
  {
    TraceKeepsSettings(c, ops);
    TraceIncluded(c, c, ops);
    TraceTells(c, ops);
    TraceInOrder(c, ops);
  }

  // ---- Who is pushed out ----

  /** The operation itself asks for the key's entry to go. */
  predicate AsksToGo<K(==), V>(op: CacheOp<K, V>, k: K) {
    op == DeleteOp(k) || op.FlushOp? || (op.GetOp? && op.key == k)
  }

  /** An entry that goes unasked goes from a full cache, for a write, and was the last in the list. */
  lemma GoneUnasked<K, V>(d: Cache<K, V>, op: CacheOp<K, V>, x: K)
    requires d.capacity > 0 && x in Keys(d.entries) && x !in Keys(After(d, op).entries) && !AsksToGo(op, x)
    ensures op.PutOp? || (op.PutIfOp? && op.token == d.generation)
    ensures var pushed := [Entry(op.key, op.value, op.now + d.ttl)] + Without(d.entries, op.key);
      && |pushed| > d.capacity && pushed[|pushed| - 1].key == x && op.key != x
      && After(d, op).entries == pushed[..|pushed| - 1]
  {
    var e :| e in d.entries && e.key == x;
    WithoutMembers(d.entries, op.key);
    if op.PutOp? || (op.PutIfOp? && op.token == d.generation) {
      WritesStay(d, op);
      PushedOut(d, Without(d.entries, op.key), Entry(op.key, op.value, op.now + d.ttl), e);
    } else if op.GetOp? {
      match Find(d.entries, op.key) {
        case None =>
        case Some(f) => KeysAppend([f], Without(d.entries, op.key));
      }
    }
  }

  lemma PushedOut<K, V>(d: Cache<K, V>, kept: seq<Entry<K, V>>, f: Entry<K, V>, e: Entry<K, V>)
    requires e in kept
    ensures var pushed := [f] + kept;
      e.key in Keys(Trim(pushed, d.capacity)) || (|pushed| > d.capacity && pushed[|pushed| - 1] == e)
  {
    var pushed := [f] + kept;
    var i :| 0 <= i < |kept| && kept[i] == e;
    assert pushed[i + 1] == e;
    if |pushed| <= d.capacity || i + 1 < |pushed| - 1 {
      assert Trim(pushed, d.capacity)[i + 1] == e;
    }
  }

  lemma WritesStay<K, V>(d: Cache<K, V>, op: CacheOp<K, V>)
    requires d.capacity > 0
    requires op.PutOp? || (op.PutIfOp? && op.token == d.generation)
    ensures op.key in Keys(After(d, op).entries)
  {
    var pushed := [Entry(op.key, op.value, op.now + d.ttl)] + Without(d.entries, op.key);
    assert Trim(pushed, d.capacity)[0] == pushed[0];
  }

  /**
   Eviction, on every trace: an entry that goes without being asked to goes from a full cache, and
   was written or hit before every entry that stays.
   */
  lemma EvictsLeastRecentlyUsed<K, V>(c: Cache<K, V>, ops: seq<CacheOp<K, V>>, op: CacheOp<K, V>, x: K, y: K)
    requires c.entries == [] && c.capacity > 0 && !AsksToGo(op, x)
    requires x in Keys(AfterAll(c, ops).entries) && x !in Keys(AfterAll(c, ops + [op]).entries)
    requires y in Keys(AfterAll(c, ops + [op]).entries)
    ensures LastUse(c, ops + [op], x) < LastUse(c, ops + [op], y)
    ensures |AfterAll(c, ops).entries| == c.capacity
  {
    var d := AfterAll(c, ops);
    LastUseSnoc(c, ops, op, x);
    TraceKeeps(c, ops);
    GoneUnasked(d, op, x);
    var pushed := [Entry(op.key, op.value, op.now + d.ttl)] + Without(d.entries, op.key);
    PushedInOrder(c, ops, op, d.entries, pushed[0]);
    WithoutLength(d.entries, op.key);
    LastIsLeast(c, ops + [op], pushed, y);
  }

  lemma LastIsLeast<K, V>(c: Cache<K, V>, ops: seq<CacheOp<K, V>>, es: seq<Entry<K, V>>, y: K)
    requires InOrder(c, ops, es) && es != [] && y in Keys(es[..|es| - 1])
    ensures LastUse(c, ops, es[|es| - 1].key) < LastUse(c, ops, y)
  {
    var e :| e in es[..|es| - 1] && e.key == y;
    var i :| 0 <= i < |es| - 1 && es[i] == e;
  }

  // ---- What was used lately stays ----

  /** With fewer than `capacity` other keys in front of it, the last entry is not pushed out. */
  lemma FewInFront<K, V>(c: Cache<K, V>, ops: seq<CacheOp<K, V>>, es: seq<Entry<K, V>>, k: K)
    requires InOrder(c, ops, es) && es != [] && es[|es| - 1].key == k
    ensures |es| - 1 <= |UsedSince(c, ops, k)|
  {
    var front := es[..|es| - 1];
    assert InOrder(c, ops, front);
    DistinctCount(front);
    forall j | j in Keys(front) ensures j in UsedSince(c, ops, k) {
      var e :| e in front && e.key == j;
      var i :| 0 <= i < |front| && front[i] == e;
      LastUseIsPast(c, ops, j);
      assert es[i] == e;
    }
    Fits(Keys(front), UsedSince(c, ops, k));
  }

  lemma UsedSinceGrows<K, V>(c: Cache<K, V>, ops: seq<CacheOp<K, V>>, op: CacheOp<K, V>, k: K)
    requires UsedBy(c, ops, op) != Some(k)
    ensures UsedSince(c, ops, k) <= UsedSince(c, ops + [op], k)
  {
    forall j | j in UsedSince(c, ops, k) ensures j in UsedSince(c, ops + [op], k) {
      var o :| o in ops && !o.FlushOp? && o.key == j;
      assert o in ops + [op];
      LastUseSnoc(c, ops, op, j);
      LastUseSnoc(c, ops, op, k);
      LastUseIsPast(c, ops, j);
    }
  }

  /** A key that was there stays for one more operation. */
  lemma StaysOnce<K, V>(c: Cache<K, V>, ops: seq<CacheOp<K, V>>, op: CacheOp<K, V>, k: K, now: int)
    requires c.entries == [] && c.capacity > 0 && NotAfter(ops + [op], now)
    requires k in Keys(AfterAll(c, ops).entries) && Alive(ops + [op], k, c.generation, c.ttl, now)
    requires UsedBy(c, ops, op) == Some(k) || |UsedSince(c, ops + [op], k)| < c.capacity
    ensures k in Keys(AfterAll(c, ops + [op]).entries)
  {
    var d := AfterAll(c, ops);
    LastUseSnoc(c, ops, op, k);
    LastWriteSnoc(ops, op, k, c.generation);
    TraceKeeps(c, ops);
    if k !in Keys(After(d, op).entries) {
      if AsksToGo(op, k) {
        assert op in ops + [op];
        LookedUpStays(d, ops, op, k, c.generation, now);
      } else {
        GoneUnasked(d, op, k);
        var e := Entry(op.key, op.value, op.now + d.ttl);
        PushedInOrder(c, ops, op, d.entries, e);
        FewInFront(c, ops + [op], [e] + Without(d.entries, op.key), k);
      }
    }
  }

  lemma HitIsPresent<K, V>(d: Cache<K, V>, k: K, now: int)
    ensures Get(d, k, now).0.Some? ==> k in Keys(d.entries)
  {
  }

  /** A lookup of a key within its lifetime does not remove it. */
  lemma LookedUpStays<K, V>(d: Cache<K, V>, ops: seq<CacheOp<K, V>>, op: CacheOp<K, V>, k: K, start: nat, now: int)
    requires Tells(d, ops, start) && op.GetOp? && op.key == k && op.now <= now && k in Keys(d.entries)
    requires Alive(ops, k, start, d.ttl, now)
    ensures k in Keys(After(d, op).entries)
  {
    var f := Find(d.entries, k).value;
    assert f in d.entries;
    KeysAppend([f], Without(d.entries, k));
    assert f in [f];
  }

  /** A key whose last write stands and is alive is there if fewer than `capacity` other keys were used since. */
  lemma {:induction false} RecentIsPresent<K, V>(c: Cache<K, V>, ops: seq<CacheOp<K, V>>, k: K, now: int)
    requires c.entries == [] && NotAfter(ops, now) && Alive(ops, k, c.generation, c.ttl, now)
    requires |UsedSince(c, ops, k)| < c.capacity
    ensures k in Keys(AfterAll(c, ops).entries)
    decreases |ops|
  {
    var before, op := ops[..|ops| - 1], ops[|ops| - 1];
    assert ops == before + [op];
    AfterAllSnoc(c, ops);
    LastWriteSnoc(before, op, k, c.generation);
    TraceKeeps(c, before);
    if Writes(op, k, c.generation + Bumps(before)) {
      WritesStay(AfterAll(c, before), op);
    } else if UsedBy(c, before, op) == Some(k) {
      HitIsPresent(AfterAll(c, before), k, op.now);
      StaysOnce(c, before, op, k, now);
    } else {
      assert forall o :: o in before ==> o in ops;
      UsedSinceGrows(c, before, op, k);
      Fits(UsedSince(c, before, k), UsedSince(c, ops, k));
      RecentIsPresent(c, before, k, now);
      StaysOnce(c, before, op, k, now);
    }
  }

  /**
   Recency, on every trace: a key whose last write stands and is within its lifetime hits, with
   that write, if fewer than `capacity` other keys were written or hit since it last was.
   */
  lemma RecentlyUsedHits<K, V>(c: Cache<K, V>, ops: seq<CacheOp<K, V>>, k: K, now: int)
    requires c.entries == [] && NotAfter(ops, now) && Alive(ops, k, c.generation, c.ttl, now)
    requires |UsedSince(c, ops, k)| < c.capacity
    ensures Get(AfterAll(c, ops), k, now).0 == Some(LastWrite(ops, k, c.generation).value.0)
  {
    RecentIsPresent(c, ops, k, now);
    TraceKeeps(c, ops);
    var d := AfterAll(c, ops);
    assert Find(d.entries, k).value in d.entries;
  }
}
