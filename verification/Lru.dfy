/**
 The capacity- and time-bounded cache as a list of entries, most recent first, and the
 inclusion property: on the same trace a larger cache always holds what a smaller one holds.
 */
module Lru {
  import opened Basics

  datatype Entry<K, V> = Entry(key: K, value: V, expires: int)

  datatype Cache<K, V> = Cache(capacity: nat, ttl: int, entries: seq<Entry<K, V>>, generation: nat)

  ghost function Keys<K, V>(es: seq<Entry<K, V>>): set<K> {
    set e | e in es :: e.key
  }

  ghost predicate Distinct<K, V>(es: seq<Entry<K, V>>) {
    forall i, j :: 0 <= i < j < |es| ==> es[i].key != es[j].key
  }

  /** The entries whose keys are in `ks`, in order. */
  ghost function Keep<K, V>(es: seq<Entry<K, V>>, ks: set<K>): seq<Entry<K, V>> {
    if es == [] then []
    else (if es[0].key in ks then [es[0]] else []) + Keep(es[1..], ks)
  }

  ghost function Without<K, V>(es: seq<Entry<K, V>>, k: K): seq<Entry<K, V>> {
    Keep(es, Keys(es) - {k})
  }

  ghost function Find<K, V>(es: seq<Entry<K, V>>, k: K): (r: Option<Entry<K, V>>)
    ensures r.Some? <==> k in Keys(es)
    ensures r.Some? ==> r.value in es && r.value.key == k
  {
    if es == [] then None
    else
      assert es == [es[0]] + es[1..];
      if es[0].key == k then Some(es[0]) else Find(es[1..], k)
  }

  // ---- Operations ----

  /** A hit moves the entry to the front; an expired entry is dropped and misses. */
  ghost function Get<K, V>(c: Cache<K, V>, k: K, now: int): (Option<V>, Cache<K, V>) {
    match Find(c.entries, k)
    case None => (None, c)
    case Some(e) =>
      if now > e.expires then (None, c.(entries := Without(c.entries, k)))
      else (Some(e.value), c.(entries := [e] + Without(c.entries, k)))
  }

  ghost function Trim<K, V>(es: seq<Entry<K, V>>, capacity: nat): seq<Entry<K, V>> {
    if |es| > capacity then es[..|es| - 1] else es
  }

  /** A refreshed or new entry goes to the front; one too many pushes the last one out. */
  ghost function Put<K, V>(c: Cache<K, V>, k: K, v: V, now: int): Cache<K, V> {
    c.(entries := Trim([Entry(k, v, now + c.ttl)] + Without(c.entries, k), c.capacity))
  }

  ghost function Delete<K, V>(c: Cache<K, V>, k: K): Cache<K, V> {
    c.(entries := Without(c.entries, k), generation := c.generation + 1)
  }

  ghost function Flush<K, V>(c: Cache<K, V>): Cache<K, V> {
    c.(entries := [], generation := c.generation + 1)
  }

  ghost function PutIfGeneration<K, V>(c: Cache<K, V>, k: K, v: V, token: nat, now: int): Cache<K, V> {
    if token == c.generation then Put(c, k, v, now) else c
  }

  /** Keys are distinct and the capacity is respected. */
  ghost predicate Bounded<K, V>(c: Cache<K, V>) {
    Distinct(c.entries) && |c.entries| <= c.capacity
  }

  // ---- Properties of Keep ----

  lemma {:induction false} KeepKeys<K, V>(es: seq<Entry<K, V>>, ks: set<K>)
    ensures Keys(Keep(es, ks)) == Keys(es) * ks
    ensures |Keep(es, ks)| <= |es|
  {
    if es != [] {
      KeepKeys(es[1..], ks);
      var head := if es[0].key in ks then [es[0]] else [];
      assert es == [es[0]] + es[1..];
      KeysAppend([es[0]], es[1..]);
      KeysAppend(head, Keep(es[1..], ks));
    }
  }

  lemma KeysAppend<K, V>(a: seq<Entry<K, V>>, b: seq<Entry<K, V>>)
    ensures Keys(a + b) == Keys(a) + Keys(b)
  {
    forall e | e in a ensures e.key in Keys(a + b) { assert e in a + b; }
    forall e | e in b ensures e.key in Keys(a + b) { assert e in a + b; }
  }

  lemma {:induction false} KeepDistinct<K, V>(es: seq<Entry<K, V>>, ks: set<K>)
    requires Distinct(es)
    ensures Distinct(Keep(es, ks))
  {
    if es != [] {
      KeepDistinct(es[1..], ks);
      KeepKeys(es[1..], ks);
      assert es[0].key !in Keys(es[1..]);
      forall i | 0 <= i < |Keep(es[1..], ks)| ensures Keep(es[1..], ks)[i].key != es[0].key {
        assert Keep(es[1..], ks)[i].key in Keys(Keep(es[1..], ks));
      }
    }
  }

  lemma {:induction false} KeepAll<K, V>(es: seq<Entry<K, V>>, ks: set<K>)
    requires Keys(es) <= ks
    ensures Keep(es, ks) == es
  {
    if es != [] {
      assert es == [es[0]] + es[1..];
      KeysAppend([es[0]], es[1..]);
      assert es[0] in es && es[0].key in Keys(es);
      KeepAll(es[1..], ks);
    }
  }

  lemma {:induction false} KeepTwice<K, V>(es: seq<Entry<K, V>>, ks: set<K>, ls: set<K>)
    ensures Keep(Keep(es, ks), ls) == Keep(es, ks * ls)
  {
    if es != [] {
      KeepTwice(es[1..], ks, ls);
      var head := if es[0].key in ks then [es[0]] else [];
      KeepAppend(head, Keep(es[1..], ks), ls);
      if head != [] {
        assert [es[0]][1..] == [];
      }
    }
  }

  lemma AppendAssociates<T>(a: seq<T>, b: seq<T>, c: seq<T>)
    ensures a + b + c == a + (b + c)
  {
  }

  lemma {:induction false} KeepAppend<K, V>(a: seq<Entry<K, V>>, b: seq<Entry<K, V>>, ks: set<K>)
    ensures Keep(a + b, ks) == Keep(a, ks) + Keep(b, ks)
  {
    if a == [] {
      assert a + b == b;
    } else {
      assert (a + b)[0] == a[0] && (a + b)[1..] == a[1..] + b;
      KeepAppend(a[1..], b, ks);
      var head := if a[0].key in ks then [a[0]] else [];
      AppendAssociates(head, Keep(a[1..], ks), Keep(b, ks));
    }
  }

  /** Only the part of the key set that occurs matters. */
  lemma {:induction false} KeepSame<K, V>(es: seq<Entry<K, V>>, ks: set<K>, ls: set<K>)
    requires Keys(es) * ks == Keys(es) * ls
    ensures Keep(es, ks) == Keep(es, ls)
  {
    if es != [] {
      assert es == [es[0]] + es[1..];
      KeysAppend([es[0]], es[1..]);
      assert es[0] in es && es[0].key in Keys(es);
      assert es[0].key in ks <==> es[0].key in ls by {
        assert es[0].key in Keys(es) * ks <==> es[0].key in Keys(es) * ls;
      }
      forall k ensures k in Keys(es[1..]) * ks <==> k in Keys(es[1..]) * ls {
        assert k in Keys(es) * ks <==> k in Keys(es) * ls;
      }
      KeepSame(es[1..], ks, ls);
    }
  }

  lemma KeepSingle<K, V>(e: Entry<K, V>, ks: set<K>)
    ensures Keep([e], ks) == if e.key in ks then [e] else []
  {
    assert [e][1..] == [];
  }

  lemma {:induction false} WithoutLength<K, V>(es: seq<Entry<K, V>>, k: K)
    requires Distinct(es)
    ensures |Without(es, k)| == |es| - (if k in Keys(es) then 1 else 0)
    ensures Keys(Without(es, k)) == Keys(es) - {k} && Distinct(Without(es, k))
  {
    KeepKeys(es, Keys(es) - {k});
    KeepDistinct(es, Keys(es) - {k});
    if k !in Keys(es) {
      KeepAll(es, Keys(es) - {k});
    } else if es[0].key == k {
      assert es == [es[0]] + es[1..];
      KeysAppend([es[0]], es[1..]);
      assert k !in Keys(es[1..]);
      KeepAll(es[1..], Keys(es) - {k});
    } else {
      assert es == [es[0]] + es[1..];
      KeysAppend([es[0]], es[1..]);
      assert es[0] in es && es[0].key in Keys(es);
      KeepSame(es[1..], Keys(es) - {k}, Keys(es[1..]) - {k});
      WithoutLength(es[1..], k);
    }
  }

  // ---- Inclusion ----

  /** The smaller list is an order-preserving part of the larger, entry for entry. */
  ghost predicate PartOf<K, V>(small: seq<Entry<K, V>>, large: seq<Entry<K, V>>) {
    small == Keep(large, Keys(small))
  }

  /**
   What ties two caches of different capacities together. The bound on the difference of
   their sizes is what makes eviction from the larger harmless to the smaller.
   */
  ghost predicate Included<K, V>(small: Cache<K, V>, large: Cache<K, V>) {
    && Bounded(small) && Bounded(large)
    && small.capacity <= large.capacity && small.ttl == large.ttl && small.generation == large.generation
    && PartOf(small.entries, large.entries)
    && |large.entries| - |small.entries| <= large.capacity - small.capacity
  }

  lemma PartOfKeys<K, V>(small: seq<Entry<K, V>>, large: seq<Entry<K, V>>)
    requires PartOf(small, large)
    ensures Keys(small) <= Keys(large)
  {
    KeepKeys(large, Keys(small));
  }

  lemma PartOfWithout<K, V>(small: seq<Entry<K, V>>, large: seq<Entry<K, V>>, k: K)
    requires PartOf(small, large)
    ensures PartOf(Without(small, k), Without(large, k))
  {
    var ks := Keys(small) - {k};
    PartOfKeys(small, large);
    KeepKeys(small, ks);
    assert Keys(small) * ks == ks;
    KeepTwice(large, Keys(small), ks);
    KeepTwice(large, Keys(large) - {k}, ks);
    assert (Keys(large) - {k}) * ks == ks;
  }

  lemma PartOfPush<K, V>(small: seq<Entry<K, V>>, large: seq<Entry<K, V>>, e: Entry<K, V>)
    requires PartOf(small, large) && e.key !in Keys(large)
    ensures PartOf([e] + small, [e] + large)
  {
    PartOfKeys(small, large);
    KeysAppend([e], small);
    var ks := Keys([e] + small);
    assert e in [e] && e.key in Keys([e]);
    KeepAppend([e], large, ks);
    KeepSingle(e, ks);
    forall k ensures k in Keys(large) * ks <==> k in Keys(large) * Keys(small) {
    }
    KeepSame(large, ks, Keys(small));
  }

  /** Dropping the last entry of the smaller list. */
  lemma PartOfTrimSmall<K, V>(small: seq<Entry<K, V>>, large: seq<Entry<K, V>>)
    requires PartOf(small, large) && small != [] && Distinct(small)
    ensures PartOf(small[..|small| - 1], large)
  {
    var front, last := small[..|small| - 1], small[|small| - 1];
    assert small == front + [last];
    KeysAppend(front, [last]);
    assert last.key !in Keys(front);
    KeepTwice(large, Keys(small), Keys(front));
    assert Keys(small) * Keys(front) == Keys(front);
    KeepAppend(front, [last], Keys(front));
    KeepAll(front, Keys(front));
    KeepSingle(last, Keys(front));
  }

  /** Dropping the last entry of both: the larger's last entry, if shared, is the smaller's last. */
  lemma PartOfTrimBoth<K, V>(small: seq<Entry<K, V>>, large: seq<Entry<K, V>>)
    requires PartOf(small, large) && small != [] && large != [] && Distinct(small) && Distinct(large)
    ensures PartOf(small[..|small| - 1], large[..|large| - 1])
  {
    PartOfTrimSmall(small, large);
    var s, l, z := small[..|small| - 1], large[..|large| - 1], large[|large| - 1];
    assert large == l + [z];
    KeepAppend(l, [z], Keys(small));
    KeepSingle(z, Keys(small));
    if z.key in Keys(small) {
      assert small[|small| - 1] == z;
      assert z.key !in Keys(s);
    }
    assert small == s + [small[|small| - 1]];
    KeysAppend(s, [small[|small| - 1]]);
    KeepAppend(l, [z], Keys(s));
    KeepSingle(z, Keys(s));
  }

  lemma {:induction false} FindUnique<K, V>(es: seq<Entry<K, V>>, e: Entry<K, V>)
    requires Distinct(es) && e in es
    ensures Find(es, e.key) == Some(e)
  {
    assert es == [es[0]] + es[1..];
    if es[0].key != e.key {
      FindUnique(es[1..], e);
    } else {
      var i :| 0 <= i < |es| && es[i] == e;
    }
  }

  /** What the smaller cache finds, the larger finds with the same value and expiry. */
  lemma FindIncluded<K, V>(small: seq<Entry<K, V>>, large: seq<Entry<K, V>>, k: K)
    requires PartOf(small, large) && Distinct(large) && k in Keys(small)
    ensures Find(large, k) == Find(small, k)
  {
    var e := Find(small, k).value;
    KeepMembers(large, Keys(small), e);
    FindUnique(large, e);
  }

  lemma {:induction false} KeepMembers<K, V>(es: seq<Entry<K, V>>, ks: set<K>, e: Entry<K, V>)
    ensures e in Keep(es, ks) <==> e in es && e.key in ks
  {
    if es != [] {
      KeepMembers(es[1..], ks, e);
      assert es == [es[0]] + es[1..];
    }
  }

  lemma GetIncluded<K, V>(small: Cache<K, V>, large: Cache<K, V>, k: K, now: int)
    requires Included(small, large)
    ensures Included(Get(small, k, now).1, Get(large, k, now).1)
    ensures Get(small, k, now).0.Some? ==> Get(large, k, now).0 == Get(small, k, now).0
  {
    PartOfKeys(small.entries, large.entries);
    if k in Keys(small.entries) {
      FindIncluded(small.entries, large.entries, k);
      FoundInBoth(small, large, Find(small.entries, k).value, now);
    } else if k in Keys(large.entries) {
      FoundInLarge(small, large, Find(large.entries, k).value, now);
    }
  }

  /** What a lookup leaves of a cache that holds the entry. */
  ghost function Touched<K, V>(c: Cache<K, V>, e: Entry<K, V>, now: int): Cache<K, V> {
    c.(entries := (if now > e.expires then [] else [e]) + Without(c.entries, e.key))
  }

  lemma GetTouches<K, V>(c: Cache<K, V>, e: Entry<K, V>, now: int)
    requires Find(c.entries, e.key) == Some(e)
    ensures Get(c, e.key, now).1 == Touched(c, e, now)
  {
    assert [] + Without(c.entries, e.key) == Without(c.entries, e.key);
  }

  /** Dropping one key from both caches. */
  lemma WithoutIncluded<K, V>(small: Cache<K, V>, large: Cache<K, V>, k: K)
    requires Included(small, large)
    ensures Included(small.(entries := Without(small.entries, k)), large.(entries := Without(large.entries, k)))
  {
    PartOfKeys(small.entries, large.entries);
    WithoutLength(small.entries, k);
    WithoutLength(large.entries, k);
    PartOfWithout(small.entries, large.entries, k);
  }

  /** A lookup of an entry that both hold. */
  lemma FoundInBoth<K, V>(small: Cache<K, V>, large: Cache<K, V>, e: Entry<K, V>, now: int)
    requires Included(small, large) && Find(small.entries, e.key) == Find(large.entries, e.key) == Some(e)
    ensures Included(Get(small, e.key, now).1, Get(large, e.key, now).1)
  {
    GetTouches(small, e, now);
    GetTouches(large, e, now);
    TouchedInBoth(small, large, e, now);
  }

  lemma TouchedInBoth<K, V>(small: Cache<K, V>, large: Cache<K, V>, e: Entry<K, V>, now: int)
    requires Included(small, large) && e.key in Keys(small.entries)
    ensures Included(Touched(small, e, now), Touched(large, e, now))
  {
    PartOfKeys(small.entries, large.entries);
    WithoutIncluded(small, large, e.key);
    PutUntrimmed(small, large, e);
    WithoutLength(small.entries, e.key);
    WithoutLength(large.entries, e.key);
    if now > e.expires {
      assert [] + Without(small.entries, e.key) == Without(small.entries, e.key);
      assert [] + Without(large.entries, e.key) == Without(large.entries, e.key);
    }
  }

  /** A lookup of an entry that only the larger holds. */
  lemma FoundInLarge<K, V>(small: Cache<K, V>, large: Cache<K, V>, e: Entry<K, V>, now: int)
    requires Included(small, large) && Find(large.entries, e.key) == Some(e) && e.key !in Keys(small.entries)
    ensures Included(Get(small, e.key, now).1, Get(large, e.key, now).1)
  {
    GetTouches(large, e, now);
    TouchedInLarge(small, large, e, now);
    assert Get(small, e.key, now).1 == small;
  }

  lemma TouchedInLarge<K, V>(small: Cache<K, V>, large: Cache<K, V>, e: Entry<K, V>, now: int)
    requires Included(small, large) && e.key in Keys(large.entries) && e.key !in Keys(small.entries)
    ensures Included(small, Touched(large, e, now))
  {
    var k, ks := e.key, Keys(small.entries);
    var rest, head := Without(large.entries, k), if now > e.expires then [] else [e];
    WithoutLength(large.entries, k);
    PartOfWithout(small.entries, large.entries, k);
    KeepAll(small.entries, ks - {k});
    if now > e.expires {
      assert head + rest == rest;
    } else {
      PushFront(rest, e);
      KeepAppend([e], rest, ks);
      KeepSingle(e, ks);
    }
  }

  lemma PushFront<K, V>(es: seq<Entry<K, V>>, e: Entry<K, V>)
    requires Distinct(es) && e.key !in Keys(es)
    ensures Distinct([e] + es)
  {
    forall i | 0 <= i < |es| ensures es[i].key != e.key {
      assert es[i] in es;
    }
  }

  /** Putting one entry in front of both lists, before anything is pushed out. */
  lemma PutUntrimmed<K, V>(small: Cache<K, V>, large: Cache<K, V>, e: Entry<K, V>)
    requires Included(small, large)
    ensures var s, l := [e] + Without(small.entries, e.key), [e] + Without(large.entries, e.key);
      && PartOf(s, l) && Distinct(s) && Distinct(l)
      && |s| <= small.capacity + 1 && |l| <= large.capacity + 1
      && |l| - |s| <= large.capacity - small.capacity
  {
    var k := e.key;
    PartOfKeys(small.entries, large.entries);
    WithoutLength(small.entries, k);
    WithoutLength(large.entries, k);
    PartOfWithout(small.entries, large.entries, k);
    PushFront(Without(small.entries, k), e);
    PushFront(Without(large.entries, k), e);
    PartOfPush(Without(small.entries, k), Without(large.entries, k), e);
  }

  lemma TrimIncluded<K, V>(s: seq<Entry<K, V>>, l: seq<Entry<K, V>>, small: nat, large: nat)
    requires PartOf(s, l) && Distinct(s) && Distinct(l) && small <= large
    requires |s| <= small + 1 && |l| <= large + 1 && |l| - |s| <= large - small
    ensures PartOf(Trim(s, small), Trim(l, large)) && Distinct(Trim(s, small)) && Distinct(Trim(l, large))
    ensures |Trim(s, small)| <= small && |Trim(l, large)| <= large && |Trim(l, large)| - |Trim(s, small)| <= large - small
  {
    if |s| > small {
      PartOfTrimSmall(s, l);
      if |l| > large {
        PartOfTrimBoth(s, l);
      }
    }
  }

  lemma PutIncluded<K, V>(small: Cache<K, V>, large: Cache<K, V>, k: K, v: V, now: int)
    requires Included(small, large)
    ensures Included(Put(small, k, v, now), Put(large, k, v, now))
  {
    var e := Entry(k, v, now + small.ttl);
    var s, l := [e] + Without(small.entries, k), [e] + Without(large.entries, k);
    PutUntrimmed(small, large, e);
    TrimIncluded(s, l, small.capacity, large.capacity);
    assert Put(small, k, v, now).entries == Trim(s, small.capacity);
    assert Put(large, k, v, now).entries == Trim(l, large.capacity);
  }

  datatype CacheOp<K, V> =
    | GetOp(key: K, now: int)
    | PutOp(key: K, value: V, now: int)
    | DeleteOp(key: K)
    | FlushOp
    | PutIfOp(key: K, value: V, token: nat, now: int)

  ghost function After<K, V>(c: Cache<K, V>, op: CacheOp<K, V>): Cache<K, V> {
    match op
    case GetOp(k, now) => Get(c, k, now).1
    case PutOp(k, v, now) => Put(c, k, v, now)
    case DeleteOp(k) => Delete(c, k)
    case FlushOp => Flush(c)
    case PutIfOp(k, v, token, now) => PutIfGeneration(c, k, v, token, now)
  }

  ghost function AfterAll<K, V>(c: Cache<K, V>, ops: seq<CacheOp<K, V>>): Cache<K, V>
    decreases |ops|
  {
    if ops == [] then c else AfterAll(After(c, ops[0]), ops[1..])
  }

  lemma StepIncluded<K, V>(small: Cache<K, V>, large: Cache<K, V>, op: CacheOp<K, V>)
    requires Included(small, large)
    ensures Included(After(small, op), After(large, op))
  {
    match op
    case GetOp(k, now) => GetIncluded(small, large, k, now);
    case PutOp(k, v, now) => PutIncluded(small, large, k, v, now);
    case PutIfOp(k, v, token, now) =>
      if token == small.generation { PutIncluded(small, large, k, v, now); }
    case DeleteOp(k) => WithoutIncluded(small, large, k);
    case FlushOp =>
  }

  /**
   On every trace the smaller cache's contents are an order-preserving part of the larger's,
   with the same values and expiries, so the larger hits whenever the smaller does, with the
   same value. Neither ever exceeds its capacity.
   */
  lemma {:induction false} LargerNeverMisses<K, V>(small: Cache<K, V>, large: Cache<K, V>, ops: seq<CacheOp<K, V>>, k: K, now: int)
    requires small.entries == large.entries == [] && small.generation == large.generation
    requires small.capacity <= large.capacity && small.ttl == large.ttl
    ensures PartOf(AfterAll(small, ops).entries, AfterAll(large, ops).entries)
    ensures Bounded(AfterAll(small, ops)) && Bounded(AfterAll(large, ops))
    ensures Get(AfterAll(small, ops), k, now).0.Some? ==>
              Get(AfterAll(large, ops), k, now).0 == Get(AfterAll(small, ops), k, now).0
  {
    TraceIncluded(small, large, ops);
    GetIncluded(AfterAll(small, ops), AfterAll(large, ops), k, now);
  }

  lemma {:induction false} TraceIncluded<K, V>(small: Cache<K, V>, large: Cache<K, V>, ops: seq<CacheOp<K, V>>)
    requires Included(small, large)
    ensures Included(AfterAll(small, ops), AfterAll(large, ops))
    decreases |ops|
  {
    if ops != [] {
      StepIncluded(small, large, ops[0]);
      TraceIncluded(After(small, ops[0]), After(large, ops[0]), ops[1..]);
    }
  }
}
