/**
 What the bounded cache means as a cache: on every trace a hit returns the last value written
 and still wanted, within its lifetime; and apart from the capacity it never forgets one.
 */
module LruTrace {
  import opened Basics
  import opened Lru

  /** The deletions and flushes of a trace, each of which starts a new generation. */
  ghost function Bumps<K, V>(ops: seq<CacheOp<K, V>>): nat
    decreases |ops|
  {
    if ops == [] then 0
    else Bumps(ops[..|ops| - 1]) + (if ops[|ops| - 1].DeleteOp? || ops[|ops| - 1].FlushOp? then 1 else 0)
  }

  /** The operation writes this key, the generation being the given one. */
  ghost predicate Writes<K, V>(op: CacheOp<K, V>, k: K, generation: nat) {
    match op
    case PutOp(key, _, _) => key == k
    case PutIfOp(key, _, token, _) => key == k && token == generation
    case _ => false
  }

  /** The last write of a key that no deletion or flush undid: its value and its time. */
  ghost function LastWrite<K, V>(ops: seq<CacheOp<K, V>>, k: K, start: nat): Option<(V, int)>
    decreases |ops|
  {
    if ops == [] then None
    else
      var before, op := ops[..|ops| - 1], ops[|ops| - 1];
      if Writes(op, k, start + Bumps(before)) then Some((op.value, op.now))
      else if op.FlushOp? || op == DeleteOp(k) then None
      else LastWrite(before, k, start)
  }

  /** What a key's last write is after one more operation. */
  lemma LastWriteSnoc<K, V>(ops: seq<CacheOp<K, V>>, op: CacheOp<K, V>, k: K, start: nat)
    ensures LastWrite(ops + [op], k, start) ==
      if Writes(op, k, start + Bumps(ops)) then Some((op.value, op.now))
      else if op.FlushOp? || op == DeleteOp(k) then None
      else LastWrite(ops, k, start)
  {
    var all := ops + [op];
    assert all[..|all| - 1] == ops && all[|all| - 1] == op;
  }

  lemma {:induction false} AfterAllSnoc<K, V>(c: Cache<K, V>, ops: seq<CacheOp<K, V>>)
    requires ops != []
    ensures AfterAll(c, ops) == After(AfterAll(c, ops[..|ops| - 1]), ops[|ops| - 1])
    decreases |ops|
  {
    if |ops| == 1 {
      assert ops[1..] == [] && ops[..0] == [];
    } else {
      AfterAllSnoc(After(c, ops[0]), ops[1..]);
      assert ops[1..][..|ops[1..]| - 1] == ops[..|ops| - 1][1..];
    }
  }

  lemma {:induction false} KeptMembers<K, V>(es: seq<Entry<K, V>>, ks: set<K>)
    ensures forall e :: e in Keep(es, ks) <==> e in es && e.key in ks
  {
    if es != [] {
      KeptMembers(es[1..], ks);
      assert es == [es[0]] + es[1..];
    }
  }

  lemma WithoutMembers<K, V>(es: seq<Entry<K, V>>, k: K)
    ensures forall e :: e in Without(es, k) <==> e in es && e.key != k
  {
    KeptMembers(es, Keys(es) - {k});
  }

  // ---- Hits are right ----

  /** Every entry is the last write of its key, with the expiry that write gave it. */
  ghost predicate Tells<K, V>(c: Cache<K, V>, ops: seq<CacheOp<K, V>>, start: nat) {
    && c.generation == start + Bumps(ops)
    && forall e :: e in c.entries ==> LastWrite(ops, e.key, start) == Some((e.value, e.expires - c.ttl))
  }

  lemma StepTells<K, V>(c: Cache<K, V>, ops: seq<CacheOp<K, V>>, op: CacheOp<K, V>, start: nat)
    requires Tells(c, ops, start)
    ensures Tells(After(c, op), ops + [op], start)
  {
    BumpsSnoc(c, ops, op);
    forall e | e in After(c, op).entries ensures LastWrite(ops + [op], e.key, start) == Some((e.value, e.expires - c.ttl)) {
      EntryTells(c, ops, op, start, e);
    }
  }

  lemma BumpsSnoc<K, V>(c: Cache<K, V>, ops: seq<CacheOp<K, V>>, op: CacheOp<K, V>)
    ensures Bumps(ops + [op]) - Bumps(ops) == After(c, op).generation - c.generation && After(c, op).ttl == c.ttl
  {
    var all := ops + [op];
    assert all[..|all| - 1] == ops && all[|all| - 1] == op;
  }

  lemma EntryTells<K, V>(c: Cache<K, V>, ops: seq<CacheOp<K, V>>, op: CacheOp<K, V>, start: nat, e: Entry<K, V>)
    requires Tells(c, ops, start) && e in After(c, op).entries
    ensures LastWrite(ops + [op], e.key, start) == Some((e.value, e.expires - c.ttl))
  {
    LastWriteSnoc(ops, op, e.key, start);
    assert !op.FlushOp?;
    if Writes(op, e.key, c.generation) {
      WrittenEntry(c, op, e);
    } else {
      OldEntry(c, op, e);
    }
  }

  lemma WrittenEntry<K, V>(c: Cache<K, V>, op: CacheOp<K, V>, e: Entry<K, V>)
    requires Writes(op, e.key, c.generation) && e in After(c, op).entries
    ensures e == Entry(op.key, op.value, op.now + c.ttl)
  {
    WithoutMembers(c.entries, op.key);
  }

  lemma OldEntry<K, V>(c: Cache<K, V>, op: CacheOp<K, V>, e: Entry<K, V>)
    requires !op.FlushOp? && !Writes(op, e.key, c.generation) && e in After(c, op).entries
    ensures e in c.entries && op != DeleteOp(e.key)
  {
    WithoutMembers(c.entries, op.key);
  }

  lemma {:induction false} TraceTells<K, V>(c: Cache<K, V>, ops: seq<CacheOp<K, V>>)
    requires c.entries == []
    ensures Tells(AfterAll(c, ops), ops, c.generation) && AfterAll(c, ops).ttl == c.ttl
    decreases |ops|
  {
    if ops != [] {
      TraceTells(c, ops[..|ops| - 1]);
      AfterAllSnoc(c, ops);
      StepTells(AfterAll(c, ops[..|ops| - 1]), ops[..|ops| - 1], ops[|ops| - 1], c.generation);
      assert ops[..|ops| - 1] + [ops[|ops| - 1]] == ops;
    }
  }

  /** A hit is the last write that nothing undid, and it is not older than the lifetime. */
  lemma HitIsLastWrite<K, V>(c: Cache<K, V>, ops: seq<CacheOp<K, V>>, k: K, now: int)
    requires c.entries == []
    ensures var hit := Get(AfterAll(c, ops), k, now).0;
      hit.Some? ==>
        var w := LastWrite(ops, k, c.generation);
        w.Some? && w.value.0 == hit.value && now <= w.value.1 + c.ttl
  {
    TraceTells(c, ops);
    var d := AfterAll(c, ops);
    if Find(d.entries, k).Some? {
      assert Find(d.entries, k).value in d.entries;
    }
  }

  // ---- Nothing but the capacity loses a live entry ----

  /** The keys a trace ever tries to write. */
  ghost function Written<K, V>(ops: seq<CacheOp<K, V>>): set<K> {
    set op | op in ops && (op.PutOp? || op.PutIfOp?) :: op.key
  }

  /** No operation of the trace happened after `now`. */
  ghost predicate NotAfter<K, V>(ops: seq<CacheOp<K, V>>, now: int) {
    forall op :: op in ops && op.GetOp? ==> op.now <= now
  }

  /** The key's last write stands and is within its lifetime at `now`. */
  ghost predicate Alive<K, V>(ops: seq<CacheOp<K, V>>, k: K, start: nat, ttl: int, now: int) {
    LastWrite(ops, k, start).Some? && now <= LastWrite(ops, k, start).value.1 + ttl
  }

  /** Every key whose last write is alive at `now` is present, and only written keys are. */
  ghost predicate Remembers<K, V>(c: Cache<K, V>, ops: seq<CacheOp<K, V>>, start: nat, now: int) {
    && Distinct(c.entries) && Keys(c.entries) <= Written(ops)
    && forall k :: k in Written(ops) && Alive(ops, k, start, c.ttl, now) ==> k in Keys(c.entries)
  }

  lemma {:induction false} DistinctCount<K, V>(es: seq<Entry<K, V>>)
    requires Distinct(es)
    ensures |Keys(es)| == |es|
  {
    if es == [] {
      assert Keys(es) == {};
    } else {
      assert es == [es[0]] + es[1..];
      KeysAppend([es[0]], es[1..]);
      assert es[0].key !in Keys(es[1..]);
      DistinctCount(es[1..]);
      assert Keys(es) == {es[0].key} + Keys(es[1..]);
    }
  }

  lemma WrittenSnoc<K, V>(ops: seq<CacheOp<K, V>>, op: CacheOp<K, V>)
    ensures Written(ops + [op]) == Written(ops) + (if op.PutOp? || op.PutIfOp? then {op.key} else {})
  {
    forall o | o in ops ensures o in ops + [op] { }
  }

  /** Putting a key into a cache with room for all written keys evicts nothing. */
  lemma PutKeepsAll<K, V>(c: Cache<K, V>, k: K, v: V, now: int, room: set<K>)
    requires Distinct(c.entries) && Keys(c.entries) + {k} <= room && |room| <= c.capacity
    ensures Distinct(Put(c, k, v, now).entries) && Keys(Put(c, k, v, now).entries) == Keys(c.entries) + {k}
  {
    var pushed := [Entry(k, v, now + c.ttl)] + Without(c.entries, k);
    PushedKeys(c.entries, Entry(k, v, now + c.ttl));
    DistinctCount(pushed);
    Fits(Keys(pushed), room);
    assert Put(c, k, v, now).entries == pushed;
  }

  lemma PushedKeys<K, V>(es: seq<Entry<K, V>>, e: Entry<K, V>)
    requires Distinct(es)
    ensures Distinct([e] + Without(es, e.key)) && Keys([e] + Without(es, e.key)) == Keys(es) + {e.key}
  {
    var rest := Without(es, e.key);
    WithoutLength(es, e.key);
    KeysAppend([e], rest);
    assert forall i :: 0 <= i < |rest| ==> rest[i].key in Keys(rest);
    assert Keys([e]) == {e.key};
  }

  lemma Fits<T>(a: set<T>, b: set<T>)
    requires a <= b
    ensures |a| <= |b|
  {
    assert b == a + (b - a);
  }

  lemma {:induction false} LastWriteIsWritten<K, V>(ops: seq<CacheOp<K, V>>, k: K, start: nat)
    ensures LastWrite(ops, k, start).Some? ==> k in Written(ops)
    decreases |ops|
  {
    if ops != [] {
      LastWriteIsWritten(ops[..|ops| - 1], k, start);
      assert ops[|ops| - 1] in ops;
    }
  }

  lemma GetRemembers<K, V>(c: Cache<K, V>, ops: seq<CacheOp<K, V>>, op: CacheOp<K, V>, start: nat, now: int, k: K)
    requires op.GetOp? && op.now <= now && Tells(c, ops, start) && Remembers(c, ops, start, now)
    requires k in Written(ops) && Alive(ops, k, start, c.ttl, now)
    ensures k in Keys(After(c, op).entries)
  {
    var kept := Without(c.entries, op.key);
    WithoutMembers(c.entries, op.key);
    var e :| e in c.entries && e.key == k;
    if k != op.key {
      assert e in kept;
      match Find(c.entries, op.key) {
        case None =>
        case Some(f) => KeysAppend([f], kept);
      }
    } else {
      var f := Find(c.entries, k).value;
      assert f in c.entries && op.now <= f.expires;
      KeysAppend([f], kept);
      assert f in [f];
    }
  }

  /** Which keys an operation can leave behind when nothing is evicted. */
  lemma StepKeys<K, V>(c: Cache<K, V>, op: CacheOp<K, V>, room: set<K>)
    requires Distinct(c.entries) && |room| <= c.capacity
    requires Keys(c.entries) + (if op.PutOp? || op.PutIfOp? then {op.key} else {}) <= room
    ensures Distinct(After(c, op).entries) && Keys(After(c, op).entries) <= room
    ensures op.PutOp? || op.PutIfOp? ==> Keys(c.entries) <= Keys(After(c, op).entries)
    ensures forall k :: Writes(op, k, c.generation) ==> k in Keys(After(c, op).entries)
    ensures op.DeleteOp? ==> Keys(After(c, op).entries) == Keys(c.entries) - {op.key}
  {
    match op
    case GetOp(key, _) => RestKeeps(c, key);
    case PutOp(key, v, t) => PutKeepsAll(c, key, v, t, room);
    case PutIfOp(key, v, _, t) => PutKeepsAll(c, key, v, t, room);
    case DeleteOp(key) => RestKeeps(c, key);
    case FlushOp =>
  }

  lemma KeyRemembered<K, V>(c: Cache<K, V>, ops: seq<CacheOp<K, V>>, op: CacheOp<K, V>, start: nat, now: int, k: K)
    requires Tells(c, ops, start) && Remembers(c, ops, start, now)
    requires |Written(ops + [op])| <= c.capacity && (op.GetOp? ==> op.now <= now)
    requires Alive(ops + [op], k, start, c.ttl, now)
    ensures k in Keys(After(c, op).entries)
  {
    WrittenSnoc(ops, op);
    StepKeys(c, op, Written(ops + [op]));
    LastWriteSnoc(ops, op, k, start);
    LastWriteIsWritten(ops, k, start);
    if op.GetOp? { GetRemembers(c, ops, op, start, now, k); }
  }

  lemma StepRemembers<K, V>(c: Cache<K, V>, ops: seq<CacheOp<K, V>>, op: CacheOp<K, V>, start: nat, now: int)
    requires Tells(c, ops, start) && Remembers(c, ops, start, now)
    requires |Written(ops + [op])| <= c.capacity && (op.GetOp? ==> op.now <= now)
    ensures Remembers(After(c, op), ops + [op], start, now)
  {
    WrittenSnoc(ops, op);
    BumpsSnoc(c, ops, op);
    StepKeys(c, op, Written(ops + [op]));
    forall k | k in Written(ops + [op]) && Alive(ops + [op], k, start, c.ttl, now)
      ensures k in Keys(After(c, op).entries)
    {
      KeyRemembered(c, ops, op, start, now, k);
    }
  }

  lemma RestKeeps<K, V>(c: Cache<K, V>, k: K)
    requires Distinct(c.entries)
    ensures Distinct(Without(c.entries, k)) && Keys(Without(c.entries, k)) == Keys(c.entries) - {k}
    ensures forall e :: e in c.entries && e.key == k ==>
      Distinct([e] + Without(c.entries, k)) && Keys([e] + Without(c.entries, k)) == Keys(c.entries)
  {
    WithoutLength(c.entries, k);
    var rest := Without(c.entries, k);
    assert forall i :: 0 <= i < |rest| ==> rest[i].key in Keys(rest);
    forall e | e in c.entries && e.key == k
      ensures Distinct([e] + rest) && Keys([e] + rest) == Keys(c.entries)
    {
      KeysAppend([e], rest);
      assert Keys([e]) == {k};
    }
  }

  lemma FrontOfTrace<K, V>(ops: seq<CacheOp<K, V>>, op: CacheOp<K, V>, now: int)
    requires NotAfter(ops + [op], now)
    ensures NotAfter(ops, now) && (op.GetOp? ==> op.now <= now) && |Written(ops)| <= |Written(ops + [op])|
  {
    assert forall o :: o in ops + [op] <==> o in ops || o == op;
    WrittenSnoc(ops, op);
    Fits(Written(ops), Written(ops + [op]));
  }

  lemma {:induction false} TraceRemembers<K, V>(c: Cache<K, V>, ops: seq<CacheOp<K, V>>, now: int)
    requires c.entries == [] && |Written(ops)| <= c.capacity && NotAfter(ops, now)
    ensures Remembers(AfterAll(c, ops), ops, c.generation, now)
    ensures AfterAll(c, ops).capacity == c.capacity && AfterAll(c, ops).ttl == c.ttl
    decreases |ops|
  {
    if ops != [] {
      var before, op := ops[..|ops| - 1], ops[|ops| - 1];
      assert before + [op] == ops;
      FrontOfTrace(before, op, now);
      TraceRemembers(c, before, now);
      TraceTells(c, before);
      AfterAllSnoc(c, ops);
      StepRemembers(AfterAll(c, before), before, op, c.generation, now);
    }
  }

  /**
   With room for all keys ever written, and asked no earlier than ever before, the cache hits
   exactly when the key's last write stands and is within its lifetime, and returns that write.
   */
  lemma RoomyCacheIsExact<K, V>(c: Cache<K, V>, ops: seq<CacheOp<K, V>>, k: K, now: int)
    requires c.entries == [] && |Written(ops)| <= c.capacity && NotAfter(ops, now)
    ensures Get(AfterAll(c, ops), k, now).0 ==
      match LastWrite(ops, k, c.generation)
      case None => None
      case Some(w) => if now <= w.1 + c.ttl then Some(w.0) else None
  {
    HitIsLastWrite(c, ops, k, now);
    TraceRemembers(c, ops, now);
    TraceTells(c, ops);
    LastWriteIsWritten(ops, k, c.generation);
    var d := AfterAll(c, ops);
    if Find(d.entries, k).Some? {
      assert Find(d.entries, k).value in d.entries;
    }
  }
}
