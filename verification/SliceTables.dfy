/**
 Go maps of string slices: slice headers over shared backing arrays, appended to and compacted
 in place, with the proof that no two entries ever share storage.
 */
module SliceTables {
  import opened MemoryContents

  /** A slice header: the first `len` cells of a backing array. */
  datatype Slice = Slice(data: array<string>, len: nat)

  ghost predicate Fits(s: Slice) {
    s.len <= s.data.Length
  }

  function Elems(s: Slice): seq<string>
    requires Fits(s)
    reads s.data
  {
    s.data[..s.len]
  }

  /** A copy on fresh storage, as appending to a nil slice makes. */
  method CopyOf(s: seq<string>) returns (t: Slice)
    ensures fresh(t.data) && Fits(t) && Elems(t) == s
  {
    var a := new string[|s|](i requires 0 <= i < |s| => s[i]);
    t := Slice(a, |s|);
  }

  /** Appending writes behind the end when there is room and moves to fresh storage otherwise. */
  method Append(s: Slice, x: string) returns (t: Slice)
    requires Fits(s)
    modifies s.data
    ensures Fits(t) && (t.data == s.data || fresh(t.data))
    ensures Elems(t) == old(Elems(s)) + [x]
  {
    if s.len < s.data.Length {
      s.data[s.len] := x;
      t := Slice(s.data, s.len + 1);
    } else {
      var front, n := s.data[..s.len], 2 * s.len + 1;
      var a := new string[n](i requires 0 <= i < n => if i < |front| then front[i] else x);
      t := Slice(a, s.len + 1);
      assert a[..s.len] == front;
    }
  }

  lemma WithoutOneMore(s: seq<string>, i: nat, drop: string)
    requires i < |s|
    ensures Without(s[..i + 1], drop) == Without(s[..i], drop) + if s[i] == drop then [] else [s[i]]
    ensures drop in s[..i + 1] <==> drop in s[..i] || s[i] == drop
  {
    assert s[..i + 1][..i] == s[..i] && s[..i + 1] == s[..i] + [s[i]];
  }

  /** In-place compaction: the kept elements are written over the front of the same array. */
  method Compact(s: Slice, drop: string) returns (t: Slice, removed: bool)
    requires Fits(s)
    modifies s.data
    ensures t.data == s.data && Fits(t)
    ensures Elems(t) == Without(old(Elems(s)), drop)
    ensures removed <==> drop in old(Elems(s))
  {
    ghost var was := Elems(s);
    var kept := 0;
    removed := false;
    for i := 0 to s.len
      invariant kept <= i
      invariant s.data[..kept] == Without(was[..i], drop)
      invariant forall k :: i <= k < s.len ==> s.data[k] == was[k]
      invariant removed <==> drop in was[..i]
    {
      var x := s.data[i];
      WithoutOneMore(was, i, drop);
      if x == drop {
        removed := true;
      } else {
        s.data[kept] := x;
        kept := kept + 1;
      }
    }
    assert was[..s.len] == was;
    t := Slice(s.data, kept);
  }

  /** The slice lies on storage of `owner` alone and lists `elements`. */
  ghost predicate Lists<K(!new)>(s: Slice, owners: map<array<string>, K>, owner: K, elements: seq<string>)
    reads s.data
  {
    Fits(s) && s.data in owners && owners[s.data] == owner && Elems(s) == elements
  }

  /** The lists when those of `todo` are still to be compacted. */
  ghost function Partly<K>(lists: map<K, seq<string>>, todo: set<K>, x: string): map<K, seq<string>> {
    map k | k in lists :: if k in todo then lists[k] else Without(lists[k], x)
  }

  lemma PartlyNone<K>(lists: map<K, seq<string>>, x: string)
    ensures Partly(lists, lists.Keys, x) == lists
  {
  }

  lemma PartlyMore<K>(lists: map<K, seq<string>>, todo: set<K>, x: string, k: K)
    requires k in todo && k in lists
    ensures Partly(lists, todo - {k}, x) == Partly(lists, todo, x)[k := Without(lists[k], x)]
  {
  }

  lemma OneMoreCopied<K>(lists: map<K, seq<string>>, todo: set<K>, k: K)
    requires k in todo && k in lists
    ensures lists - (todo - {k}) == (lists - todo)[k := lists[k]]
  {
  }

  lemma PutRemoved<K>(lists: map<K, seq<string>>, k: K, list: seq<string>)
    requires k !in lists
    ensures lists[k := list] - {k} == lists
  {
  }

  /** A map from keys to slices. `lists` is what it holds and `owners` says whose each array is. */
  class SliceTable<K(==, !new)> {
    var slices: map<K, Slice>
    ghost var lists: map<K, seq<string>>
    ghost var owners: map<array<string>, K>

    ghost predicate Valid()
      reads this, owners.Keys
    {
      && slices.Keys == lists.Keys
      && forall k :: k in slices ==> slices[k].data in owners && Lists(slices[k], owners, k, lists[k])
    }

    constructor ()
      ensures Valid() && lists == map[] && owners == map[]
    {
      slices, lists, owners := map[], map[], map[];
    }

    /** What the slices hold. */
    function Values(): (values: map<K, seq<string>>)
      requires Valid()
      reads this, owners.Keys
      ensures values == lists
    {
      assert forall k :: k in slices ==> slices[k].data in owners && Lists(slices[k], owners, k, lists[k]);
      map k | k in slices :: Elems(slices[k])
    }

    /** Stores a copy of `s`; no existing array is written. */
    method Put(k: K, s: seq<string>)
      requires Valid()
      modifies this
      ensures Valid() && lists == old(lists)[k := s]
      ensures old(owners.Keys) <= owners.Keys && fresh(owners.Keys - old(owners.Keys))
      ensures forall a :: a in old(owners) ==> owners[a] == old(owners[a])
    {
      var t := CopyOf(s);
      Install(k, t, s);
    }

    /** Puts in a header on storage that is new or the key's own. */
    method Install(k: K, t: Slice, ghost list: seq<string>)
      requires Fits(t) && Elems(t) == list && (t.data in owners ==> owners[t.data] == k)
      requires slices.Keys == lists.Keys && forall j :: j in slices && j != k ==>
        slices[j].data in owners && Lists(slices[j], owners, j, lists[j])
      modifies this
      ensures Valid() && lists == old(lists)[k := list] && owners == old(owners)[t.data := k]
    {
      owners := owners[t.data := k];
      slices := slices[k := t];
      lists := lists[k := list];
    }

    /** Puts an earlier header of the same key back. */
    method Restore(k: K, s: Slice, ghost list: seq<string>)
      requires Valid() && Lists(s, owners, k, list)
      modifies this`slices, this`lists
      ensures Valid() && lists == old(lists)[k := list]
    {
      slices := slices[k := s];
      lists := lists[k := list];
    }

    method Remove(k: K)
      requires Valid()
      modifies this`slices, this`lists
      ensures Valid() && lists == old(lists) - {k}
    {
      slices := slices - {k};
      lists := lists - {k};
    }

    method AppendTo(k: K, x: string)
      requires Valid()
      modifies this, owners.Keys
      ensures Valid() && lists == old(lists)[k := (if k in old(lists) then old(lists)[k] else []) + [x]]
      ensures old(owners.Keys) <= owners.Keys && fresh(owners.Keys - old(owners.Keys))
    {
      if k in slices {
        ghost var list := lists[k];
        assert Lists(slices[k], owners, k, list);
        var t := Append(slices[k], x);
        Install(k, t, list + [x]);
      } else {
        assert [] + [x] == [x];
        Put(k, [x]);
      }
    }

    /** Compacts one entry in place. */
    method CompactAt(k: K, x: string) returns (removed: bool)
      requires Valid() && k in slices
      modifies this`slices, this`lists, owners.Keys
      ensures Valid() && lists == old(lists)[k := Without(old(lists[k]), x)]
      ensures removed <==> x in old(lists[k])
    {
      assert Lists(slices[k], owners, k, lists[k]);
      var t;
      t, removed := Compact(slices[k], x);
      slices := slices[k := t];
      lists := lists[k := Without(lists[k], x)];
    }

    /** Compacts every entry in place, in an arbitrary order. */
    method CompactAll(x: string)
      requires Valid()
      modifies this`slices, this`lists, owners.Keys
      ensures Valid() && lists == map k | k in old(lists) :: Without(old(lists)[k], x)
    {
      var todo := slices.Keys;
      ghost var before := lists;
      PartlyNone(before, x);
      while todo != {}
        invariant Valid() && todo <= before.Keys && lists == Partly(before, todo, x)
      {
        var k :| k in todo;
        PartlyMore(before, todo, x, k);
        var _ := CompactAt(k, x);
        todo := todo - {k};
      }
    }

    /** Adds a copy of every list of `entries`, in an arbitrary order. */
    method PutAll(entries: map<K, seq<string>>)
      requires Valid() && lists == map[]
      modifies this
      ensures Valid() && lists == entries
      ensures old(owners.Keys) <= owners.Keys && fresh(owners.Keys - old(owners.Keys))
    {
      var todo := entries.Keys;
      while todo != {}
        invariant Valid() && todo <= entries.Keys && lists == entries - todo
        invariant old(owners.Keys) <= owners.Keys && fresh(owners.Keys - old(owners.Keys))
      {
        var k :| k in todo;
        OneMoreCopied(entries, todo, k);
        Put(k, entries[k]);
        todo := todo - {k};
      }
    }

    /** A deep copy, on storage of its own. */
    method Clone() returns (t: SliceTable<K>)
      requires Valid()
      ensures fresh(t) && t.Valid() && t.lists == lists && fresh(t.owners.Keys)
    {
      t := new SliceTable<K>();
      t.PutAll(Values());
    }

    /**
     Any number of edits on a deep copy. The empty frame is the point: appending to and
     compacting the copy writes no array of this table, so the copy can be dropped or swapped in.
     */
    method EditCopy(edits: seq<Edit<K>>) returns (work: SliceTable<K>)
      requires Valid()
      ensures Valid() && fresh(work) && work.Valid() && fresh(work.owners.Keys)
      ensures work.lists == AfterEdits(lists, edits)
    {
      work := Clone();
      work.EditAll(edits);
    }

    method EditAll(edits: seq<Edit<K>>)
      requires Valid()
      modifies this, owners.Keys
      ensures Valid() && lists == AfterEdits(old(lists), edits)
      ensures old(owners.Keys) <= owners.Keys && fresh(owners.Keys - old(owners.Keys))
    {
      ghost var start := lists;
      assert edits[..0] == [];
      for i := 0 to |edits|
        invariant Valid() && lists == AfterEdits(start, edits[..i])
        invariant old(owners.Keys) <= owners.Keys && fresh(owners.Keys - old(owners.Keys))
      {
        AfterEditsSnoc(start, edits, i);
        Edit(edits[i]);
      }
      assert edits[..|edits|] == edits;
    }

    method Edit(e: Edit<K>)
      requires Valid()
      modifies this, owners.Keys
      ensures Valid() && lists == AfterEdit(old(lists), e)
      ensures old(owners.Keys) <= owners.Keys && fresh(owners.Keys - old(owners.Keys))
    {
      match e
      case PutEntry(k, s) => Put(k, s);
      case RemoveEntry(k) => Remove(k);
      case AppendEntry(k, x) => AppendTo(k, x);
      case CompactEntry(k, x) =>
        if k in slices {
          var _ := CompactAt(k, x);
        }
      case CompactEntries(x) => CompactAll(x);
      case TryEntry(k, s) => PutAndRestore(k, s);
    }

    /** Puts a copy of `s` over the key's list, and the earlier header back. */
    method PutOver(k: K, s: seq<string>)
      requires Valid() && k in slices
      modifies this
      ensures Valid() && lists == old(lists)
      ensures old(owners.Keys) <= owners.Keys && fresh(owners.Keys - old(owners.Keys))
    {
      ghost var list := lists[k];
      var previous := slices[k];
      assert Lists(previous, owners, k, list);
      Put(k, s);
      Restore(k, previous, list);
    }

    /** Puts a copy of `s` in and takes it out again: the earlier header, if any, comes back. */
    method PutAndRestore(k: K, s: seq<string>)
      requires Valid()
      modifies this
      ensures Valid() && lists == old(lists)
      ensures old(owners.Keys) <= owners.Keys && fresh(owners.Keys - old(owners.Keys))
    {
      if k in slices {
        PutOver(k, s);
      } else {
        PutAndRemove(k, s);
      }
    }

    method PutAndRemove(k: K, s: seq<string>)
      requires Valid() && k !in slices
      modifies this
      ensures Valid() && lists == old(lists)
      ensures old(owners.Keys) <= owners.Keys && fresh(owners.Keys - old(owners.Keys))
    {
      PutRemoved(lists, k, s);
      Put(k, s);
      Remove(k);
    }
  }

  /** The ways the store edits its lists. */
  datatype Edit<K> =
    | PutEntry(k: K, s: seq<string>)
    | RemoveEntry(k: K)
    | AppendEntry(k: K, x: string)
    | CompactEntry(k: K, x: string)
    | CompactEntries(x: string)
    | TryEntry(k: K, s: seq<string>)

  ghost function AfterEdit<K>(lists: map<K, seq<string>>, e: Edit<K>): map<K, seq<string>> {
    match e
    case PutEntry(k, s) => lists[k := s]
    case RemoveEntry(k) => lists - {k}
    case AppendEntry(k, x) => lists[k := (if k in lists then lists[k] else []) + [x]]
    case CompactEntry(k, x) => if k in lists then lists[k := Without(lists[k], x)] else lists
    case CompactEntries(x) => map k | k in lists :: Without(lists[k], x)
    case TryEntry(_, _) => lists
  }

  ghost function AfterEdits<K>(lists: map<K, seq<string>>, edits: seq<Edit<K>>): map<K, seq<string>>
    decreases |edits|
  {
    if edits == [] then lists else AfterEdit(AfterEdits(lists, edits[..|edits| - 1]), edits[|edits| - 1])
  }

  lemma AfterEditsSnoc<K>(lists: map<K, seq<string>>, edits: seq<Edit<K>>, i: nat)
    requires i < |edits|
    ensures AfterEdits(lists, edits[..i + 1]) == AfterEdit(AfterEdits(lists, edits[..i]), edits[i])
  {
    assert edits[..i + 1][..i] == edits[..i];
  }
}
