/**
 The cache as the object it is: a list of elements, most recent first, and a map from keys to
 the same elements, kept in bijection. Each method is proved against the list functions of `Lru`.
 */
module LruCache {
  import opened Basics
  import L = Lru

  class Element<K, V> {
    const key: K
    var value: V
    var expires: int

    constructor (key: K, value: V, expires: int)
      ensures this.key == key && this.value == value && this.expires == expires
    {
      this.key, this.value, this.expires := key, value, expires;
    }
  }

  /** The list contents as values. */
  ghost function Values<K, V>(order: seq<Element<K, V>>): (es: seq<L.Entry<K, V>>)
    reads order
    ensures |es| == |order|
  {
    seq(|order|, i requires 0 <= i < |order| reads order => L.Entry(order[i].key, order[i].value, order[i].expires))
  }

  /** Cutting out one position is dropping that position's key. */
  lemma CutIsWithout<K, V>(es: seq<L.Entry<K, V>>, i: nat)
    requires i < |es| && L.Distinct(es)
    ensures es[..i] + es[i + 1..] == L.Without(es, es[i].key)
  {
    var front, e, back := es[..i], es[i], es[i + 1..];
    var ks := L.Keys(es) - {e.key};
    OthersAroundCut(es, i);
    KeepOthers(es, e.key, front);
    KeepOthers(es, e.key, back);
    KeepAround(front, e, back, ks);
    CutOpen(es, i);
  }

  lemma CutOpen<T>(s: seq<T>, i: nat)
    requires i < |s|
    ensures s == s[..i] + ([s[i]] + s[i + 1..])
  {
  }

  lemma KeepAround<K, V>(front: seq<L.Entry<K, V>>, e: L.Entry<K, V>, back: seq<L.Entry<K, V>>, ks: set<K>)
    requires e.key !in ks
    ensures L.Keep(front + ([e] + back), ks) == L.Keep(front, ks) + L.Keep(back, ks)
  {
    L.KeepAppend(front, [e] + back, ks);
    L.KeepAppend([e], back, ks);
    L.KeepSingle(e, ks);
  }

  lemma OthersAroundCut<K, V>(es: seq<L.Entry<K, V>>, i: nat)
    requires i < |es| && L.Distinct(es)
    ensures forall x :: x in es[..i] ==> x in es && x.key != es[i].key
    ensures forall x :: x in es[i + 1..] ==> x in es && x.key != es[i].key
  {
  }

  lemma KeepOthers<K, V>(es: seq<L.Entry<K, V>>, k: K, part: seq<L.Entry<K, V>>)
    requires forall x :: x in part ==> x in es && x.key != k
    ensures L.Keep(part, L.Keys(es) - {k}) == part
  {
    assert L.Keys(part) <= L.Keys(es) - {k};
    L.KeepAll(part, L.Keys(es) - {k});
  }

  /** After the cut, the remaining elements are the others, each still at one place. */
  lemma CutKeepsBijection<K, V>(order: seq<Element<K, V>>, i: nat)
    requires i < |order| && forall a, b :: 0 <= a < b < |order| ==> order[a].key != order[b].key
    ensures var cut := order[..i] + order[i + 1..];
      && (forall a, b :: 0 <= a < b < |cut| ==> cut[a].key != cut[b].key)
      && (forall x :: x in cut <==> x in order && x != order[i])
      && (forall x :: x in cut ==> x.key != order[i].key)
  {
    var cut := order[..i] + order[i + 1..];
    forall x | x in order && x != order[i] ensures x in cut {
      var j :| 0 <= j < |order| && order[j] == x;
      assert cut[if j < i then j else j - 1] == x;
    }
    forall x | x in cut ensures x in order && x.key != order[i].key {
      var j :| 0 <= j < |cut| && cut[j] == x;
      assert x == order[if j < i then j else j + 1];
    }
  }

  /** The same cut, seen on the list of elements. */
  lemma CutValues<K, V>(order: seq<Element<K, V>>, i: nat)
    requires i < |order| && forall a, b :: 0 <= a < b < |order| ==> order[a].key != order[b].key
    ensures Values(order[..i] + order[i + 1..]) == L.Without(Values(order), order[i].key)
  {
    var es := Values(order);
    assert Values(order[..i] + order[i + 1..]) == es[..i] + es[i + 1..];
    CutIsWithout(es, i);
  }

  /** Changing an entry's value and expiry leaves the other entries. */
  lemma RefreshedWithout<K, V>(c: L.Cache<K, V>, i: nat, e: L.Entry<K, V>)
    requires L.Bounded(c) && i < |c.entries| && c.entries[i].key == e.key
    ensures L.Without(c.entries[i := e], e.key) == L.Without(c.entries, e.key)
    ensures L.Trim([e] + L.Without(c.entries, e.key), c.capacity) == [e] + L.Without(c.entries, e.key)
  {
    CutIsWithout(c.entries, i);
    CutIsWithout(c.entries[i := e], i);
  }

  lemma GetAt<K, V>(c: L.Cache<K, V>, i: nat, now: int)
    requires i < |c.entries| && L.Distinct(c.entries)
    ensures var e := c.entries[i]; var rest := L.Without(c.entries, e.key);
      L.Get(c, e.key, now) == if now > e.expires then (None, c.(entries := rest)) else (Some(e.value), c.(entries := [e] + rest))
  {
    L.FindUnique(c.entries, c.entries[i]);
  }

  lemma FindNone<K, V>(es: seq<L.Entry<K, V>>, k: K)
    requires forall i :: 0 <= i < |es| ==> es[i].key != k
    ensures L.Find(es, k) == None && L.Without(es, k) == es
  {
    assert k !in L.Keys(es);
    L.KeepAll(es, L.Keys(es) - {k});
  }

  class MemoryLru<K(==), V> {
    const capacity: nat
    const ttl: int
    var generation: nat
    var order: seq<Element<K, V>>
    var items: map<K, Element<K, V>>

    /** List and map hold the same elements, one per key. */
    ghost predicate Linked()
      reads this, order
    {
      && (forall x :: x in order ==> x.key in items && items[x.key] == x)
      && (forall i, j :: 0 <= i < j < |order| ==> order[i].key != order[j].key)
      && (forall k :: k in items ==> items[k] in order && items[k].key == k)
    }

    ghost predicate Valid()
      reads this, order
    {
      Linked() && |order| <= capacity
    }

    ghost function View(): L.Cache<K, V>
      reads this, order
    {
      L.Cache(capacity, ttl, Values(order), generation)
    }

    constructor (capacity: nat, ttl: int)
      requires capacity > 0
      ensures Valid() && View() == L.Cache(capacity, ttl, [], 0) && fresh(order)
    {
      this.capacity, this.ttl := capacity, ttl;
      generation, order, items := 0, [], map[];
    }

    /** Takes an element out of the list and the map. */
    method RemoveElement(el: Element<K, V>)
      requires Linked() && el in order
      modifies this`order, this`items
      ensures Linked() && View() == old(View()).(entries := L.Without(old(View()).entries, el.key))
      ensures el !in order && el.key !in items && (forall x :: x in order ==> x in old(order))
      ensures |order| == old(|order|) - 1
    {
      var i :| 0 <= i < |order| && order[i] == el;
      CutValues(order, i);
      CutKeepsBijection(order, i);
      var rest := order[..i] + order[i + 1..];
      order := rest;
      items := items - {el.key};
    }

    /** Puts an element that is in neither in front. */
    method PushFront(el: Element<K, V>)
      requires Linked() && el.key !in items
      modifies this`order, this`items
      ensures Linked() && order == [el] + old(order)
      ensures View() == old(View()).(entries := [L.Entry(el.key, el.value, el.expires)] + old(View()).entries)
    {
      assert Values([el] + order) == [L.Entry(el.key, el.value, el.expires)] + Values(order);
      order := [el] + order;
      items := items[el.key := el];
    }

    method MoveToFront(el: Element<K, V>)
      requires Valid() && el in order
      modifies this`order, this`items
      ensures Valid() && order[..] != [] && (forall x :: x in order ==> x in old(order))
      ensures View() == old(View()).(entries :=
        [L.Entry(el.key, el.value, el.expires)] + L.Without(old(View()).entries, el.key))
    {
      RemoveElement(el);
      PushFront(el);
    }

    method Get(k: K, now: int) returns (r: Option<V>)
      requires Valid()
      modifies this`order, this`items
      ensures Valid() && (r, View()) == L.Get(old(View()), k, now)
      ensures forall x :: x in order ==> x in old(order)
    {
      if k in items {
        r := GetExisting(items[k], now);
      } else {
        FindNone(Values(order), k);
        r := None;
      }
    }

    /** A live entry moves to the front; one past its lifetime goes. */
    method GetExisting(el: Element<K, V>, now: int) returns (r: Option<V>)
      requires Valid() && el in order
      modifies this`order, this`items
      ensures Valid() && (r, View()) == L.Get(old(View()), el.key, now)
      ensures forall x :: x in order ==> x in old(order)
    {
      ghost var i :| 0 <= i < |order| && order[i] == el;
      GetAt(View(), i, now);
      if now > el.expires {
        RemoveElement(el);
        r := None;
      } else {
        MoveToFront(el);
        r := Some(el.value);
      }
    }

    method Set(k: K, v: V, now: int)
      requires Valid()
      modifies this, order
      ensures Valid() && View() == L.Put(old(View()), k, v, now)
      ensures forall x :: x in order ==> x in old(order) || fresh(x)
    {
      if k in items {
        SetExisting(k, v, now);
      } else {
        SetNew(k, v, now);
      }
    }

    /** Refreshes an entry in place and moves it to the front. */
    method SetExisting(k: K, v: V, now: int)
      requires Valid() && k in items
      modifies this`order, this`items, items[k]
      ensures Valid() && View() == L.Put(old(View()), k, v, now)
      ensures forall x :: x in order ==> x in old(order)
    {
      var el := items[k];
      ghost var i :| 0 <= i < |order| && order[i] == el;
      RefreshedWithout(View(), i, L.Entry(k, v, now + ttl));
      ghost var es := Values(order);
      el.value := v;
      el.expires := now + ttl;
      assert Values(order) == es[i := L.Entry(k, v, now + ttl)];
      MoveToFront(el);
    }

    /** Adds an entry and pushes the last one out when there is one too many. */
    method SetNew(k: K, v: V, now: int)
      requires Valid() && k !in items
      modifies this`order, this`items
      ensures Valid() && View() == L.Put(old(View()), k, v, now)
      ensures forall x :: x in order ==> x in old(order) || fresh(x)
    {
      ghost var before := View();
      var el := NewElement(k, v, now + ttl);
      assert Valid() && View() == before;
      Insert(el);
      assert L.Put(before, k, v, now).entries == L.Trim([L.Entry(k, v, now + ttl)] + L.Without(before.entries, k), capacity);
    }

    static method NewElement(k: K, v: V, expires: int) returns (el: Element<K, V>)
      ensures fresh(el) && el.key == k && el.value == v && el.expires == expires
    {
      el := new Element(k, v, expires);
    }

    /** Puts a fresh element in front and evicts when there is one too many. */
    method Insert(el: Element<K, V>)
      requires Valid() && el.key !in items
      modifies this`order, this`items
      ensures Valid() && forall x :: x in order ==> x == el || x in old(order)
      ensures View() == old(View()).(entries := L.Trim(
        [L.Entry(el.key, el.value, el.expires)] + L.Without(old(View()).entries, el.key), capacity))
    {
      FindNone(View().entries, el.key);
      PushFront(el);
      TrimToCapacity();
    }

    /** Evicts the last element when there is one too many. */
    method TrimToCapacity()
      requires Linked() && |order| <= capacity + 1
      modifies this`order, this`items
      ensures Valid() && View() == old(View()).(entries := L.Trim(old(View()).entries, capacity))
      ensures forall x :: x in order ==> x in old(order)
    {
      if |order| > capacity {
        DropLast();
      }
    }

    /** Evicts the element at the back. */
    method DropLast()
      requires Linked() && order != []
      modifies this`order, this`items
      ensures Linked() && order == old(order)[..|old(order)| - 1]
      ensures View() == old(View()).(entries := old(View()).entries[..|old(order)| - 1])
    {
      var last := order[|order| - 1];
      CutKeepsBijection(order, |order| - 1);
      assert order[|order|..] == [] && order[..|order| - 1] + [] == order[..|order| - 1];
      order := order[..|order| - 1];
      items := items - {last.key};
      assert Values(order) == old(Values(order))[..|old(order)| - 1];
    }

    method Delete(k: K)
      requires Valid()
      modifies this`order, this`items, this`generation
      ensures Valid() && View() == L.Delete(old(View()), k)
      ensures forall x :: x in order ==> x in old(order)
    {
      generation := generation + 1;
      if k in items {
        RemoveElement(items[k]);
      } else {
        FindNone(Values(order), k);
      }
    }

    method Flush()
      requires Valid()
      modifies this`order, this`items, this`generation
      ensures Valid() && View() == L.Flush(old(View()))
    {
      generation, order, items := generation + 1, [], map[];
    }

    method Generation() returns (token: nat)
      ensures token == View().generation
    {
      token := generation;
    }

    method SetIfGeneration(k: K, v: V, token: nat, now: int)
      requires Valid()
      modifies this, order
      ensures Valid() && View() == L.PutIfGeneration(old(View()), k, v, token, now)
      ensures forall x :: x in order ==> x in old(order) || fresh(x)
    {
      if token == generation {
        Set(k, v, now);
      }
    }
  }
}
