/**
 The in-memory store's operations as edits of its tables of lists, and the store over such tables:
 an atomic batch runs on deep copies that share no array with what is live.
 */
module StoreLists {
  import opened Basics
  import opened Rules
  import opened Policy
  import opened MemoryContents
  import opened PolicyBatch
  import opened SliceTables
  import opened MemoryStore

  type Edits = seq<Edit<string>>

  function ParentLists(c: Contents): map<string, seq<string>> {
    map n | n in c.roles :: c.roles[n].parents
  }

  /** Storing a role puts a copy of its parents in; a cycle takes it out again. */
  ghost function StoreEdits(c: Contents, role: Role): Edits {
    match PlaceRole(c, role)
    case Ok(_) => [PutEntry(role.name, role.parents)]
    case Err(CycleDetected) => [TryEntry(role.name, role.parents)]
    case Err(_) => []
  }

  /** The edits of the parent lists that an operation makes, whether it succeeds or fails. */
  ghost function ParentEdits(c: Contents, op: Op): Edits {
    match op
    case AddRole(role) => if ValidRole(role) && role.name !in c.roles then StoreEdits(c, role) else []
    case UpdateRole(role) => if ValidRole(role) && role.name in c.roles then StoreEdits(c, role) else []
    case DeleteRole(n) => if MemApply(c, op).Ok? then [RemoveEntry(n), CompactEntries(n)] else []
    case _ => []
  }

  /** The edits of the users' role lists: appending, or compacting and dropping a list that became empty. */
  function UserEdits(c: Contents, op: Op): Edits {
    match op
    case AssignRole(u, n) => if n in c.roles && u !in AssignedTo(c, n) then [AppendEntry(u, n)] else []
    case UnassignRole(u, n) =>
      if n !in c.roles then []
      else [CompactEntry(u, n)] + if Without(Assigned(c, u), n) == [] then [RemoveEntry(u)] else []
    case _ => []
  }

  ghost function Next(c: Contents, op: Op): Contents {
    if MemApply(c, op).Ok? then MemApply(c, op).value else c
  }

  lemma AfterOneEdit(lists: map<string, seq<string>>, e: Edit<string>)
    ensures AfterEdits(lists, [e]) == AfterEdit(lists, e)
  {
    assert [e][..0] == [];
  }

  lemma AfterTwoEdits(lists: map<string, seq<string>>, e: Edit<string>, f: Edit<string>)
    ensures AfterEdits(lists, [e, f]) == AfterEdit(AfterEdit(lists, e), f)
  {
    assert [e, f][..1] == [e];
    AfterOneEdit(lists, e);
  }

  /** Each operation edits the parent lists as said. */
  lemma OpEditsParents(c: Contents, op: Op)
    ensures AfterEdits(ParentLists(c), ParentEdits(c, op)) == ParentLists(Next(c, op))
  {
    match op
    case AddRole(role) => StoreEditsParents(c, op, role);
    case UpdateRole(role) => StoreEditsParents(c, op, role);
    case DeleteRole(n) => if MemApply(c, op).Ok? { DeleteEditsParents(c, n); }
    case _ => SameRoles(c, op);
  }

  lemma SameRoles(c: Contents, op: Op)
    requires !op.AddRole? && !op.UpdateRole? && !op.DeleteRole?
    ensures Next(c, op).roles == c.roles
  {
  }

  lemma DeleteEditsParents(c: Contents, n: string)
    requires MemApply(c, DeleteRole(n)).Ok?
    ensures AfterEdits(ParentLists(c), [RemoveEntry(n), CompactEntries(n)]) == ParentLists(Next(c, DeleteRole(n)))
  {
    AfterTwoEdits(ParentLists(c), RemoveEntry(n), CompactEntries(n));
    assert Next(c, DeleteRole(n)).roles == Cascade(c.roles, n);
  }

  lemma StoreEditsParents(c: Contents, op: Op, role: Role)
    requires op == AddRole(role) || op == UpdateRole(role)
    ensures AfterEdits(ParentLists(c), ParentEdits(c, op)) == ParentLists(Next(c, op))
  {
    AfterOneEdit(ParentLists(c), PutEntry(role.name, role.parents));
    AfterOneEdit(ParentLists(c), TryEntry(role.name, role.parents));
    PlacedParents(c, role);
  }

  lemma PlacedParents(c: Contents, role: Role)
    ensures ParentLists(Placed(c, role)) == ParentLists(c)[role.name := role.parents]
  {
  }

  /** Each operation edits the users' role lists as said. */
  lemma OpEditsUsers(c: Contents, op: Op)
    requires forall u :: u in c.users ==> c.users[u] != []
    ensures AfterEdits(c.users, UserEdits(c, op)) == Next(c, op).users
  {
    match op
    case AssignRole(u, n) => AfterOneEdit(c.users, AppendEntry(u, n));
    case UnassignRole(u, n) => if n in c.roles { UnassignEditsUsers(c, u, n); }
    case _ =>
  }

  lemma UnassignEditsUsers(c: Contents, u: string, n: string)
    requires n in c.roles && forall v :: v in c.users ==> c.users[v] != []
    ensures AfterEdits(c.users, UserEdits(c, UnassignRole(u, n))) == Next(c, UnassignRole(u, n)).users
  {
    AfterOneEdit(c.users, CompactEntry(u, n));
    AfterTwoEdits(c.users, CompactEntry(u, n), RemoveEntry(u));
    assert [CompactEntry(u, n)] + [RemoveEntry(u)] == [CompactEntry(u, n), RemoveEntry(u)];
    assert [CompactEntry(u, n)] + [] == [CompactEntry(u, n)];
  }

  // ---- The store over its tables ----

  /** The same edits, as the operation's result tells them. */
  function ParentEditsAfter(op: Op, r: Result<()>): Edits {
    match op
    case AddRole(role) => StoreEditsAfter(role, r)
    case UpdateRole(role) => StoreEditsAfter(role, r)
    case DeleteRole(n) => if r.Ok? then [RemoveEntry(n), CompactEntries(n)] else []
    case _ => []
  }

  function StoreEditsAfter(role: Role, r: Result<()>): Edits {
    if r.Ok? then [PutEntry(role.name, role.parents)]
    else if r.error == CycleDetected then [TryEntry(role.name, role.parents)]
    else []
  }

  lemma ResultTellsEdits(c: Contents, op: Op, r: Result<()>, after: Contents)
    requires Outcome(r, c, after, MemApply(c, op))
    ensures ParentEditsAfter(op, r) == ParentEdits(c, op) && after == Next(c, op)
  {
  }

  /** No user keeps an empty list. */
  ghost predicate Tidy(c: Contents) {
    forall u :: u in c.users ==> c.users[u] != []
  }

  lemma TidyStays(c: Contents, op: Op)
    requires Tidy(c)
    ensures Tidy(Next(c, op))
  {
  }

  ghost predicate Mirrors(c: Contents, parents: map<string, seq<string>>, users: map<string, seq<string>>) {
    Tidy(c) && parents == ParentLists(c) && users == c.users
  }

  /** Editing as the result tells keeps the tables what the contents say. */
  lemma EditsMirror(c: Contents, op: Op, r: Result<()>, after: Contents,
                    parents: map<string, seq<string>>, users: map<string, seq<string>>)
    requires Outcome(r, c, after, MemApply(c, op)) && Mirrors(c, parents, users)
    ensures Mirrors(after, AfterEdits(parents, ParentEditsAfter(op, r)), AfterEdits(users, UserEdits(c, op)))
  {
    ResultTellsEdits(c, op, r, after);
    OpEditsParents(c, op);
    OpEditsUsers(c, op);
    TidyStays(c, op);
  }

  /** One operation on the contents, and the edits its tables of lists still need. */
  method DoTellingEdits(store: MemoryStore, op: Op, ghost parents: map<string, seq<string>>, ghost users: map<string, seq<string>>)
    returns (r: Result<()>, parentEdits: Edits, userEdits: Edits)
    requires Mirrors(store.Holding(), parents, users)
    modifies store
    ensures Outcome(r, old(store.Holding()), store.Holding(), MemApply(old(store.Holding()), op))
    ensures Mirrors(store.Holding(), AfterEdits(parents, parentEdits), AfterEdits(users, userEdits))
  {
    ghost var c := store.Holding();
    userEdits := UserEdits(store.Holding(), op);
    r := store.Do(op);
    parentEdits := ParentEditsAfter(op, r);
    EditsMirror(c, op, r, store.Holding(), parents, users);
  }

  /** Two tables on storage that they do not share. */
  ghost predicate Apart(a: SliceTable<string>, b: SliceTable<string>)
    reads a, a.owners.Keys, b, b.owners.Keys
  {
    a != b && a.owners.Keys !! b.owners.Keys && a.Valid() && b.Valid()
  }

  /** Edits of two tables apart, which they stay. */
  method EditBoth(a: SliceTable<string>, aEdits: Edits, b: SliceTable<string>, bEdits: Edits)
    requires Apart(a, b)
    modifies a, a.owners.Keys, b, b.owners.Keys
    ensures Apart(a, b)
    ensures a.lists == AfterEdits(old(a.lists), aEdits) && b.lists == AfterEdits(old(b.lists), bEdits)
    ensures fresh(a.owners.Keys - old(a.owners.Keys)) && fresh(b.owners.Keys - old(b.owners.Keys))
  {
    a.EditAll(aEdits);
    b.EditAll(bEdits);
  }

  /**
   How a batch ends: with its outcome on the contents, with the outcome's error, or with a
   cancellation that was seen at some check; then the contents do not matter.
   */
  ghost predicate Ended(r: Result<()>, before: Contents, after: Contents, b: Batch, cancel: Cancel) {
    StagesEnded(r, before, after, b, cancel) && (cancel == AtStart || cancel == AtEnd ==> r.Err?)
  }

  ghost predicate StagesEnded(r: Result<()>, before: Contents, after: Contents, b: Batch, cancel: Cancel) {
    && (r.Ok? ==> BatchOutcome(before, b) == Ok(after))
    && (r.Err? && r.error != Cancelled ==> BatchOutcome(before, b) == Err(r.error))
    && (cancel == Never ==> r != Err(Cancelled))
    && (cancel.AtRule? && cancel.name in b.rules ==> r.Err?)
    && (cancel.AtMetadata? && cancel.name in b.metadata ==> r.Err?)
  }

  /**
   The in-memory store with its lists where the source has them, in slices over arrays: `parents`
   holds the roles' parent lists and `users` the users' role lists.
   */
  class ListedStore {
    var store: MemoryStore
    var parents: SliceTable<string>
    var users: SliceTable<string>

    ghost predicate Valid()
      reads this, store, parents, parents.owners.Keys, users, users.owners.Keys
    {
      Apart(parents, users) && Mirrors(store.Holding(), parents.lists, users.lists)
    }

    constructor (store: MemoryStore, parents: SliceTable<string>, users: SliceTable<string>)
      requires Apart(parents, users) && Mirrors(store.Holding(), parents.lists, users.lists)
      ensures Valid() && this.store == store && this.parents == parents && this.users == users
    {
      this.store, this.parents, this.users := store, parents, users;
    }

    /** One operation on the contents, with its edits of the two tables. */
    method Do(op: Op) returns (r: Result<()>)
      requires Valid()
      modifies store, parents, parents.owners.Keys, users, users.owners.Keys
      ensures Valid() && Outcome(r, old(store.Holding()), store.Holding(), MemApply(old(store.Holding()), op))
      ensures fresh(parents.owners.Keys - old(parents.owners.Keys)) && fresh(users.owners.Keys - old(users.owners.Keys))
    {
      var parentEdits, userEdits;
      r, parentEdits, userEdits := DoTellingEdits(store, op, parents.lists, users.lists);
      EditBoth(parents, parentEdits, users, userEdits);
    }

    /** Operations in turn, up to the first that fails. */
    method RunOps(ops: seq<Op>) returns (r: Result<()>)
      requires Valid()
      modifies store, parents, parents.owners.Keys, users, users.owners.Keys
      ensures Valid()
      ensures match MemRunAll(old(store.Holding()), ops)
              case Ok(c) => r == Ok(()) && store.Holding() == c
              case Err(e) => r == Err(e) && e != Cancelled
      ensures fresh(parents.owners.Keys - old(parents.owners.Keys)) && fresh(users.owners.Keys - old(users.owners.Keys))
    {
      r := Ok(());
      assert ops[..0] == [];
      for i := 0 to |ops|
        invariant Valid() && r == Ok(()) && MemRunAll(old(store.Holding()), ops[..i]) == Ok(store.Holding())
        invariant fresh(parents.owners.Keys - old(parents.owners.Keys)) && fresh(users.owners.Keys - old(users.owners.Keys))
      {
        r := RunOne(ops, i, old(store.Holding()));
        if r.Err? {
          return;
        }
      }
      assert ops[..|ops|] == ops;
    }

    /** The next operation of a run that succeeded so far. */
    method RunOne(ops: seq<Op>, i: nat, ghost start: Contents) returns (r: Result<()>)
      requires Valid() && i < |ops| && MemRunAll(start, ops[..i]) == Ok(store.Holding())
      modifies store, parents, parents.owners.Keys, users, users.owners.Keys
      ensures Valid()
      ensures r.Ok? ==> r == Ok(()) && MemRunAll(start, ops[..i + 1]) == Ok(store.Holding())
      ensures r.Err? ==> MemRunAll(start, ops) == Err(r.error) && r.error != Cancelled
      ensures fresh(parents.owners.Keys - old(parents.owners.Keys)) && fresh(users.owners.Keys - old(users.owners.Keys))
    {
      MemRunAllSnoc(start, ops, i);
      NeverCancelled(store.Holding(), ops[i]);
      r := Do(ops[i]);
    }

    /** The rules and the metadata, which leave the lists alone. */
    method RunDetails(b: Batch, cancel: Cancel) returns (r: Result<()>)
      requires Valid() && forall n :: n in b.rules ==> ValidRules(b.rules[n])
      modifies store`rules, store`metadata
      ensures Valid() && DetailsEnded(r, old(store.Holding()), store.Holding(), b, cancel)
    {
      r := store.RunDetails(b, cancel);
    }

    /** The three stages, whatever the context says before and after them. */
    method RunStages(b: Batch, cancel: Cancel) returns (r: Result<()>)
      requires Valid() && BatchFault(b).None?
      modifies store, parents, parents.owners.Keys, users, users.owners.Keys
      ensures Valid()
      ensures fresh(parents.owners.Keys - old(parents.owners.Keys)) && fresh(users.owners.Keys - old(users.owners.Keys))
      ensures StagesEnded(r, old(store.Holding()), store.Holding(), b, cancel)
    {
      r := RunOps(Registrations(b) + Updates(b));
      if r.Ok? {
        r := RunDetails(b, cancel);
      }
      if r.Ok? {
        r := RunOps(Unassignments(b) + Assignments(b) + Deletions(b));
      }
    }

    /** The stages of a batch on the working copy, stopping at the first error. */
    method RunBatch(b: Batch, cancel: Cancel) returns (r: Result<()>)
      requires Valid() && BatchFault(b).None?
      modifies store, parents, parents.owners.Keys, users, users.owners.Keys
      ensures Valid()
      ensures fresh(parents.owners.Keys - old(parents.owners.Keys)) && fresh(users.owners.Keys - old(users.owners.Keys))
      ensures Ended(r, old(store.Holding()), store.Holding(), b, cancel)
    {
      if cancel == AtStart {
        return Err(Cancelled);
      }
      r := RunStages(b, cancel);
      if r.Err? {
        return;
      }
      if cancel == AtEnd {
        return Err(Cancelled);
      }
    }

    /** A deep copy: an object of its own, on tables and arrays of its own. */
    method Copy() returns (work: ListedStore)
      requires Valid()
      ensures work.Valid() && work.store.Holding() == store.Holding()
      ensures fresh(work) && fresh(work.store) && fresh(work.parents) && fresh(work.users)
      ensures fresh(work.parents.owners.Keys) && fresh(work.users.owners.Keys)
    {
      var contents := new MemoryStore();
      contents.CopyFrom(store);
      var p := parents.Clone();
      var u := users.Clone();
      work := new ListedStore(contents, p, u);
    }

    /**
     The atomic batch: checked, applied to a deep copy, and swapped in only when everything
     succeeded. No array of the live tables is in the frame: they are left as they were. `cancel`
     is the context check that first finds the context cancelled. Copying re-checks the stored
     rules, which are valid in every sound store.
     */
    method ApplyPolicyBatch(b: Batch, cancel: Cancel) returns (r: Result<()>)
      requires Valid() && forall n :: n in store.rules ==> ValidRules(store.rules[n])
      modifies this`parents, this`users, store
      ensures Valid()
      ensures r.Err? ==> store.Holding() == old(store.Holding()) && parents == old(parents) && users == old(users)
      ensures r.Ok? ==> fresh(parents) && fresh(users)
      ensures Ended(r, old(store.Holding()), store.Holding(), b, cancel)
    {
      var fault := BatchFault(b);
      if fault.Some? {
        return Err(fault.value);
      }
      var work;
      r, work := BatchOnCopy(b, cancel);
      if r.Ok? {
        SwapIn(work.store, work.parents, work.users);
      }
    }

    /** The batch on a copy. The frame is empty: nothing of the live store is written. */
    method BatchOnCopy(b: Batch, cancel: Cancel) returns (r: Result<()>, work: ListedStore)
      requires Valid() && BatchFault(b).None?
      ensures Ended(r, store.Holding(), work.store.Holding(), b, cancel)
      ensures fresh(work) && fresh(work.store) && fresh(work.parents) && fresh(work.users)
      ensures work.Valid() && fresh(work.parents.owners.Keys) && fresh(work.users.owners.Keys)
    {
      work := Copy();
      r := work.RunBatch(b, cancel);
    }

    /** The copy's contents and tables become the store's. */
    method SwapIn(contents: MemoryStore, p: SliceTable<string>, u: SliceTable<string>)
      requires contents != store && Apart(p, u) && Mirrors(contents.Holding(), p.lists, u.lists)
      modifies this`parents, this`users, store
      ensures Valid() && store.Holding() == contents.Holding() && parents == p && users == u
    {
      parents, users := p, u;
      store.CopyFrom(contents);
    }
  }
}
