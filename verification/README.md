# Verified model of the rbacgo engine

The project models the in-process RBAC engine `rbacgo`: its role graph and the two stores that keep it,
the lookup cache with cross-instance invalidation, conditional rules, tenants on a shared store, and the
registry that owns one Enforcer per tenant. Roles, users, tenants, readers, writers and steps are unbounded
throughout. `dafny verify dfyconfig.toml` checks everything.

## Layout

| file | what it holds |
|---|---|
| `Basics.dfy` | options, results, the sentinel errors, blank strings |
| `ParentGraph.dfy` | the parent relation: walks, reachability, cycles, where the two cycle checks agree |
| `Rules.dfy` | three-valued conditions, their conjunction, the deny-overrides decision |
| `Conditions.dfy` | what a decision comes to, by the numbers, texts and permissions themselves |
| `Policy.dfy` | the abstract policy every store implements, and how far each operation is felt |
| `Effects.dfy`, `BatchEffects.dfy` | exactly when operations and batches are refused, and what they leave stored |
| `RoleClosure.dfy` | the recursive walks (cycle search, permissions, role names) and the worklist form |
| `Decision.dfy` | the whole decision for a user: effective permissions, held roles and their rules |
| `MemoryContents.dfy`, `PolicyBatch.dfy`, `MemoryStore.dfy` | the in-memory store: its contents and batches as values with the refinement proof, and the object whose methods update them |
| `SliceTables.dfy`, `StoreLists.dfy` | tables of lists on shared backing arrays: appending, compacting in place, deep copies; the in-memory store over such tables, with its atomic batch |
| `SqlTables.dfy`, `SqlRefinement.dfy`, `SqlStore.dfy` | the SQL tables, statements and recursive query; the refinement proof; the store as an object |
| `SqlWriters.dfy`, `SqlProgress.dfy` | any number of concurrent transactions around the mutation lock, and that each can run to its end |
| `StoreBatches.dfy` | operations and batches against the in-memory and the SQL store side by side |
| `Lru.dfy`, `LruTrace.dfy`, `LruRecency.dfy`, `LruCache.dfy` | the bounded cache as a list with the inclusion property; what hits return and who is evicted, on whole traces; the list-and-map object |
| `LookupCache.dfy` | the lookup-cache protocol: interleaved lookups, mutations and invalidations |
| `Instances.dfy` | instances with caches of their own over one store, with mutations, published events, lost connections and lookups interleaved |
| `Invalidation.dfy` | the invalidator as an object, and one subscriber's queue and cache step by step |
| `Enforcer.dfy` | an Enforcer as an object over the store and cache objects, one call at a time |
| `Tenant.dfy`, `TenantEffects.dfy` | keys, scoped operations and what tenants on one store see of each other; what a tenant's callers get, and which names a tenant can have |
| `Registry.dfy`, `RegistryLeases.dfy`, `RegistryFactory.dfy`, `RegistryResults.dfy`, `RegistryRoom.dfy`, `RegistryDrain.dfy`, `RegistryEvict.dfy`, `TenantRegistry.dfy` | the tenant registry as a state machine with its invariant, the promises to callers, what they need of the factory, where results come from, who is given up, draining, waiting for an eviction; and as an object |
| `Escape.dfy` | literal prefixes inside LIKE patterns and globs |

The source's objects are classes whose methods are proved against specification functions; what the source
promises of them is proved about those functions and about all their runs. Pure code is functions and
lemmas. Concurrent protocols are state machines whose steps are the source's critical sections and
individual backend operations.

## Where the code and its promises part

- A new role that names itself among parents which otherwise exist is `ErrParentNotFound` in memory and
  `ErrCycleDetected` in SQL. That is the only difference between the stores (`SqlRefinement.SqlRefines`).
- The tenant option accepts names that end in `:`. Two accepted tenants share keys exactly if one is the other
  with a colon appended (`Tenant.KeysMeetIffSiblings`); isolation is proved for tenants that are apart, and
  `Tenant.SiblingsInterfere` shows it fail for every other pair.
- Held leases keep their Enforcers up in every run exactly if the factory gives no Enforcer to two entries
  (`RegistryFactory.LeasesStayUpIffNoneTwice`). For a factory that does, some run shuts one down under a lease
  (`RegistryFactory.SharedEnforcerIsShutUnderALease`); other runs may get away with it.
- A broadcast drop takes effect exactly if the subscriber's queue has room for it: one that fits is never lost
  (`Invalidation.DropThatFitsNeverLost`), one that finds the queue full is discarded and nothing else removes the
  entry (`Invalidation.DropTakesEffectIffItFits`, `Invalidation.FullQueueLosesDrops`). Flushes are never lost.
- An absence condition in an allow rule, or a presence condition in a deny rule, lets a new fact revoke an
  allowed decision (`Rules.NewFactRevokes`); without those two, more facts never do.
- Over a cache backend without generation tokens, every run stays coherent exactly for a team of at most one
  Enforcer (`LookupCache.PlainBackendServesOne`); for any two Enforcers some run ends stale
  (`LookupCache.PlainBackendSharedIsStale`).
- A published event can be missed: discarded from a full queue, or lost with the connection. What was not missed is
  coherent in every interleaving (`Instances.InstancesAreCoherent`), and subscribing anew makes up for the rest
  (`Instances.SubscribingAnewRestores`).

## Model

| member | source | states |
|---|---|---|
| ParentGraph.CycleChecksAgree | sqlstore.go:246-252 | after an edit of one role's links on an acyclic graph, "a cycle is reachable from the role", "the role reaches itself" and "the graph has a cycle" are the same |
| ParentGraph.CycleChecksDiffer | memory_store.go:226-242 | without that hypothesis the path-based search and the self-reachability query differ |
| ParentGraph.NewCycleThrough | sqlstore.go:682-701 | every cycle that such an edit creates runs through the edited role |
| RoleClosure.DetectCycle | memory_store.go:226-242 | terminates on every graph, restores its path on success, and reports an error exactly when a cycle is reachable from the start role |
| RoleClosure.CollectEffective | enforcer.go:684-709 | fails exactly when a cycle is met; on success adds precisely what the reflexive-transitive parents confer |
| RoleClosure.ComputeEffective | enforcer.go:543-552 | the uncached lookup returns the user's effective set, and on a valid policy never fails |
| RoleClosure.EffectiveIsConferred | enforcer.go:684-709 | the effective set is the union over the directly assigned roles of what each confers |
| RoleClosure.CollectRoleNames | enforcer.go:712-730 | terminates on every graph and adds only existing roles reachable from the name, closed under existing parents |
| RoleClosure.CollectAllRoleNames | policy.go:267-276 | over all assigned roles the result is exactly the existing reachable roles |
| RoleClosure.HasRole | enforcer.go:498-513 | true exactly if the user holds the role directly or by inheritance |
| RoleClosure.EffectiveByWorklist | fuzz_test.go:73-97 | the independent iterative traversal computes the same permission set as the recursion |
| Decision.EvaluateHeld | policy.go:254-299 | on a valid policy the rules of exactly the roles the user holds decide, without failing and whatever the order of roles; on any store "allowed" is reported exactly when the policy permits it |
| Decision.Decide | enforcer.go:402-410 | the uncached decision is what the policy says of the user's effective permissions and held roles' rules; it never fails on a valid policy, and fails if a cycle is met |
| Decision.AllowedSurvivesMoreFacts | policy.go:254-299 | with no absence test in applicable allows and no presence test in applicable denies of the user's roles, what the policy allows a user it still allows when facts are added |
| Conditions.AllowedByPermission | policy.go:84-89 | without rules, allowed exactly if some effective permission's resource and action each are the request's, or the wildcard where wildcards are enabled |
| Conditions.AllowedByRules | policy.go:254-299 | with rules, allowed exactly if no rule of a held role that is about the request is a deny that no condition rules out, and a held permission stands for the request or such an allow has all its conditions hold |
| Conditions.DenyOnNumbers | policy.go:221-239 | for all numbers, a lone deny on one comparison lets pass exactly the requests whose numbers the comparison excludes, for each of the six operators |
| Conditions.AllowOnNumbers | policy.go:221-239 | for all numbers, a lone allow on one comparison grants exactly what the comparison includes |
| Conditions.ComparisonsOfTexts | policy.go:154-162 | texts are equal or not; ordering them holds a deny and never grants |
| Conditions.NumberIsNoText | policy.go:154-162 | a number equals no text |
| Conditions.NeNegatesEq | policy.go:195-198 | `ne` holds exactly where `eq` certainly fails, and the other way round |
| Conditions.NotInNegatesIn | policy.go:199-220 | the same of `not_in` and `in` |
| Conditions.InIsEqWithSome | policy.go:199-220 | `in` holds exactly if `eq` holds with some item of the list, and fails otherwise |
| Conditions.InNeedsAList | policy.go:199-203 | looked for in anything but a list, nothing is known |
| Conditions.AbsentAttribute | policy.go:174-182 | of an absent attribute only the presence operators tell anything: every other deny holds and every other allow does not |
| Conditions.PresentAttribute | policy.go:174-179 | the presence operators on an attribute that is there |
| Conditions.UnusableValue | policy.go:169-193 | a value without an encoding, or nothing to compare with, lets nothing pass |
| Conditions.ListWithUnusableItem | policy.go:169-193 | a list with an item that has no encoding has none either |
| Conditions.FactsNameSubjectAndTenant | policy.go:262-266 | `subject.id` carries the user and `tenant.id` the tenant, whatever the caller supplies under these names |
| Conditions.OtherFactsAsSupplied | policy.go:262-265 | every other fact is the caller's |
| Effects.ValidIffFull | memory_store.go:244-254 | a role is valid exactly if its name and each permission's resource and action hold a character that is not white space, the characters listed one by one |
| Effects.AddRoleRefusals | memory_store.go:35-57 | each error of a registration with its exact cause, and success exactly otherwise |
| Effects.UpdateRoleRefusals | memory_store.go:133-159 | the same of an update; a cycle is reported exactly if a given parent leads, by the links stored before, back to the role |
| Effects.DeleteRoleRefusals | memory_store.go:161-186 | in use exactly if some user is assigned the role |
| Effects.OthersNeedTheRole | memory_store.go:72-89 | assignments and metadata succeed exactly if the role exists |
| Effects.SetRulesRefusals | policy.go:96-130 | refused exactly for a rule with an unknown effect, a blank resource or action, or a condition no operator takes, before the role is looked up |
| Effects.NothingBlankIsEverHeld | memory_store.go:35-222 | over all runs from an empty store no user holds, and no role confers, a permission with a blank resource or action, and no rule with an unknown effect or operator is stored |
| Effects.RoleIsStoredAsGiven | memory_store.go:35-57 | a registered or updated role has just the permissions and parents given, and nothing else changes |
| Effects.RoleIsGone | memory_store.go:161-186 | a deleted role is gone as a role and as a parent, with its rules and metadata, and nothing else is |
| Effects.DetailsAreStored | memory_extensions.go:13-59 | rules and metadata are stored under the role, and nothing else changes |
| Effects.EffectiveByChains | enforcer.go:684-709 | a permission is effective exactly if a chain of stored parents leads from an assigned role to an existing role that has it |
| Effects.HeldByChains | enforcer.go:712-730 | a role is held exactly if such a chain ends in it |
| Effects.AssigningGivesTheRole | memory_store.go:72-89 | after an assignment the user holds what was held before, the role, and what is above it |
| Effects.UnassigningLeavesTheOthers | memory_store.go:188-222 | after an unassignment the user holds just what the other assigned roles reach |
| BatchEffects.BatchRefusals | batch.go:28-42 | the check up front reports a role without content before a bad rule, each exactly when there is one |
| BatchEffects.SuccessfulBatchLeavesItsParts | batch.go:44-117 | after a successful batch every assignment it lists holds, no unassignment it lists does unless it assigns again, its roles are as last given, its rules and metadata are set, what it deletes is gone, and the rest is as before |
| Policy.ApplyKeepsValid | memory_store.go:35-57 | every successful operation keeps the graph acyclic and parent-closed, and assignments, rules and metadata on existing roles |
| Policy.RunsKeepValid | memory_store.go:133-222 | the same over every run, failing operations included |
| Policy.AddRoleNeverCycles | memory_store.go:35-57 | registering a role whose parents exist cannot close a cycle |
| Policy.AddRoleChangesNobody | enforcer.go:165-179 | registration changes nobody's held roles or effective set |
| Policy.UpdateRoleChangesOnlyHolders | enforcer.go:260-278 | an update changes only users who reach the role |
| Policy.AssignmentChangesOnlyUser | enforcer.go:199-210 | assigning and unassigning change only the named user |
| Policy.RemovalNeverEnlarges | enforcer.go:217-253 | deleting and unassigning never enlarge anyone's held roles or effective set |
| Policy.DetailsChangeNobody | policy.go:315-362 | rules and metadata leave every effective set alone |
| Policy.ScopeIsWideEnough | enforcer.go:587-628 | outside what a mutation drops or flushes, assignments, roles and effective sets are the same before and after |
| MemoryContents.MemoryRefines | memory_store.go:35-222 | each memory operation succeeds, fails with the same error and changes the abstract policy as specified, and keeps the user and role indexes exact inverses without repeats |
| MemoryContents.MemoryRunsRefine | memory_store.go:35-222 | the same over every run |
| MemoryContents.WithoutElements | memory_store.go:188-222 | filtering a list drops exactly the element and keeps it free of repeats |
| MemoryStore.MemoryStore.AddRole | memory_store.go:35-57 | place, search for a cycle, undo: exactly the specified outcome, unchanged contents on every error |
| MemoryStore.MemoryStore.UpdateRole | memory_store.go:133-159 | replace, search for a cycle, roll back: exactly the specified outcome, unchanged contents on every error |
| MemoryStore.MemoryStore.DeleteRole | memory_store.go:161-186 | refuses a role in use; otherwise the role, its rules, metadata and every link to it are gone |
| MemoryStore.MemoryStore.AssignRole | memory_store.go:72-89 | both indexes gain the pair once; repeating it changes nothing |
| MemoryStore.MemoryStore.UnassignRole | memory_store.go:188-222 | both indexes lose the pair, and entries that become empty are removed |
| MemoryStore.MemoryStore.SetRoleRules | memory_extensions.go:13-31 | cancelled, invalid and missing-role errors in that order; otherwise the rules are stored |
| MemoryStore.MemoryStore.SetRoleMetadata | memory_extensions.go:45-59 | cancelled and missing-role errors; otherwise the metadata is stored |
| MemoryStore.MemoryStore.ListRolesByPrefix | memory_store.go:116-130 | returns exactly the stored roles whose names start with the prefix, each once |
| StoreLists.ListedStore.ApplyPolicyBatch | memory_extensions.go:73-110 | all or nothing: no array of the live lists is written; on any error contents and tables are the old ones, on success the copies, which hold the batch's outcome, are swapped in; a cancellation seen at any check is an error |
| StoreLists.ListedStore.RunBatch | batch.go:44-117 | the stages on the working copy, each operation with its edits of the lists, end as the batch's outcome, whatever order the maps are walked in |
| StoreLists.ListedStore.Do | memory_store.go:35-222 | one operation ends as specified, and the lists on their arrays are again what the contents say |
| PolicyBatch.BatchIsItsOperations | batch.go:14-22 | a well-formed batch is its operations in the documented order, independent of the iteration order of the rule and metadata maps, down to the error |
| PolicyBatch.BatchRefines | memory_extensions.go:73-110 | a batch does to the abstract policy what its operations do, and leaves a sound store |
| SliceTables.Compact | memory_store.go:174-186 | compacting through the list's own backing array leaves the filtered list |
| SliceTables.SliceTable.EditCopy | memory_extensions.go:77-99 | any edits of a deep copy write no array of the live table |
| StoreLists.OpEditsParents | memory_store.go:35-186 | each operation, failing ones included, changes the parent lists by the stated edits: put, put and restore, remove and compact everywhere |
| StoreLists.OpEditsUsers | memory_store.go:72-222 | each operation changes the users' role lists by the stated edits: append, or compact and remove what became empty |
| SliceTables.SliceTable.CompactAll | memory_store.go:161-186 | compacting every entry in any order filters each list and touches no other |
| SliceTables.SliceTable.Clone | memory_extensions.go:77-92 | the deep copy holds equal lists on storage of its own |
| SqlTables.EvaluateQuery | sqlstore.go:246-252 | the recursive query computes the least fixpoint of its rounds: exactly the proper ancestors, cyclic graphs included |
| SqlTables.SelfAncestorIsCycle | sqlstore.go:682-701 | a role is its own proper ancestor exactly if it lies on a cycle of the parent rows |
| SqlTables.SqlApplyIsEffect | sqlstore.go:262-306 | running an operation's statements in order is one whole effect on the tables or one error |
| SqlTables.RunInsertParents | sqlstore.go:288-299 | inserting parent rows one by one stops at the first missing parent and otherwise adds exactly those rows |
| SqlTables.UpdateStatements | sqlstore.go:487-533 | delete-and-reinsert leaves exactly the role's new rows, unless a parent is missing or a cycle is found |
| SqlTables.DeleteStatements | sqlstore.go:574-608 | the delete statements in order leave no row of the role or link to it |
| SqlRefinement.SqlRefines | sqlstore.go:262-629 | each SQL operation succeeds exactly when the abstract one does, with the same policy, and with the same error unless a new role names itself among otherwise existing parents |
| SqlRefinement.SelfParentDispute | sqlstore.go:262-306 | in that case SQL reports a cycle where the abstract policy and the memory store report a missing parent |
| SqlRefinement.StoresStayAlike | memory_store.go:35-222 | on stores that show the same policy an operation succeeds in both or neither and keeps them alike |
| SqlRefinement.SqlRunsRefine | sqlstore.go:262-629 | every run leaves sound tables that show the abstract policy of that run |
| SqlRefinement.MemoryAndSqlAgree | memory_store.go:11-57 | from empty stores every run leaves both with the same, valid policy |
| StoreBatches.JobsStayAlike | batch.go:14-117 | on stores that show the same policy an operation or batch succeeds in both or neither and keeps them alike, with the same error exactly unless the first failing operation registers a role under itself |
| StoreBatches.StoresAgreeOnEveryRun | sql_extensions.go:90-105 | from empty stores every run of operations and batches leaves both with the same, valid policy |
| SqlStore.SqlStore.AddRole | sqlstore.go:262-306 | the transaction commits the specified tables or rolls back with the specified error |
| SqlStore.SqlStore.UpdateRole | sqlstore.go:487-533 | the transaction commits the specified tables or rolls back with the specified error |
| SqlStore.SqlStore.DeleteRole | sqlstore.go:574-608 | the transaction commits the specified tables or rolls back with the specified error |
| SqlStore.SqlStore.AssignRole | sqlstore.go:535-552 | the assignment row is added once, for an existing role |
| SqlStore.SqlStore.UnassignRole | sqlstore.go:612-629 | the assignment row is removed, for an existing role |
| SqlStore.SqlStore.SetRoleRules | sql_extensions.go:107-136 | the rules row is upserted, for valid rules of an existing role |
| SqlStore.SqlStore.SetRoleMetadata | sql_extensions.go:175-177 | the metadata row is upserted, for an existing role |
| SqlWriters.StepKeepsInv | sql_extensions.go:46-88 | begin, lock, statement, commit and rollback of any transactions keep the committed tables those of a serial history |
| SqlWriters.WritersStaySound | sql_extensions.go:46-105 | in every interleaving the committed state is the serial one, acyclic and parent-closed, and no assignment, rule or metadata row outlives its role |
| SqlWriters.SerialRefines | sql_extensions.go:90-105 | the committed transactions perform their operations on the abstract policy one after the other |
| SqlWriters.BothCommit | sql_extensions.go:46-77 | without the lock, two transactions whose statements all pass on the same snapshot both commit, the second over the first |
| SqlProgress.EveryWriterCanEnd | sql_extensions.go:46-88 | from every reachable state a waiting writer can run to its end at the cost of at most one other; it commits exactly if all its checks pass on what is committed, and the lock is free afterwards |
| SqlWriters.UnlockedWritersCloseCycles | sql_extensions.go:46-77 | for any two roles a run of two lock-free updates, each passing every check on its own snapshot, commits a cycle |
| Rules.ConditionsMatch | policy.go:242-252 | the early-exit loop is strong Kleene conjunction |
| Rules.ConjunctionOrderIndependent | policy.go:242-252 | reordering or repeating conditions never changes the outcome |
| Rules.EvaluateRules | policy.go:277-299 | over any given roles, rules and base grant: allowed without error exactly when every role's rules are readable and valid, no applicable deny matches or is unknown, and the base grant or an applicable allow holds, whatever the visiting order |
| Rules.EvaluateRole | policy.go:285-296 | the loop over one role's rules leaves at the first veto and otherwise reports whether an allow matched |
| Rules.TruthSurvivesIff | policy.go:164-240 | a true condition stays true under every extension of the facts exactly if it does not demand absence |
| Rules.FalsehoodSurvivesIff | policy.go:164-240 | a false condition stays false under every extension of the facts exactly if it does not demand presence |
| Rules.AllowSurvivesMoreFacts | policy.go:254-299 | with no absence test in applicable allows and no presence test in applicable denies, an allowed decision stays allowed under every extension of the attributes |
| Rules.NewFactRevokes | policy.go:177-182 | each of those two operators alone can make a new fact revoke an allowed decision |
| Lru.StepIncluded | cache.go:69-143 | any operation keeps a smaller cache an order-preserving part of a larger one, with the same values and expiries |
| Lru.TraceIncluded | cache.go:69-143 | the same over every trace |
| Lru.LargerNeverMisses | cache.go:69-83 | after any trace, whatever the smaller cache returns the larger one returns too |
| LruTrace.HitIsLastWrite | cache.go:69-97 | on every trace a hit is the last accepted write of the key that no deletion or flush undid, and no older than the lifetime |
| LruTrace.RoomyCacheIsExact | cache.go:69-143 | with room for all keys written, and time not running back, the cache hits exactly when that write is within its lifetime: nothing but the capacity loses an entry |
| LruRecency.PutThenGet | cache.go:99-118 | whatever the cache held, what was just put in is read back for its whole lifetime |
| LruRecency.RecentlyUsedHits | cache.go:69-118 | on every trace, a key whose last write stands and is alive hits with that write if fewer than `capacity` other keys were written or hit since it last was |
| LruRecency.EvictsLeastRecentlyUsed | cache.go:113-117 | on every trace, an entry that goes unasked goes from a full cache and was written or hit before every entry that stays |
| LruCache.MemoryLru.Get | cache.go:69-83 | a hit moves to the front, an expired entry is removed and misses; list and map stay in bijection within capacity |
| LruCache.MemoryLru.Set | cache.go:99-118 | refreshes or adds in front and evicts the last entry when there is one too many |
| LruCache.MemoryLru.Delete | cache.go:120-127 | removes the key and starts a new generation |
| LruCache.MemoryLru.Flush | cache.go:129-135 | empties the cache and starts a new generation |
| LruCache.MemoryLru.SetIfGeneration | cache.go:91-97 | fills exactly if no delete or flush came since the token was taken |
| LruCache.MemoryLru.RemoveElement | cache.go:137-143 | cutting an element out of list and map removes exactly its key |
| LookupCache.StepKeepsInv | enforcer.go:517-598 | every step of every reader, mutator and invalidation, over plain, in-memory and Redis backends, keeps the protocol's invariant |
| LookupCache.CacheIsCoherent | enforcer.go:517-598 | in every interleaving, an entry no committed mutation still owes an invalidation to is the user's effective set in the present store; a lookup no mutation raced with returns that set |
| LookupCache.ReadStaysOnCourse | enforcer.go:684-709 | reading a role in three separate queries leads on towards the effective set as long as the store stands still |
| LookupCache.InvalidateKeepsInv | redis_cache.go:113-166 | dropping a key, flushing, and the key-by-key scan of a Redis flush keep the invariant |
| LookupCache.FinishedLookupIsHit | enforcer.go:553-566 | a lookup that ends while its generation and token are current leaves what it found, and the next lookup returns it without reading |
| LookupCache.NewTokenIsCurrent | cache.go:85-97 | a fill with a token just taken is accepted |
| LookupCache.PlainBackendServesOne | enforcer.go:553-566 | a backend without tokens stays coherent in every run exactly if at most one Enforcer looks up and mutates over it |
| LookupCache.PlainBackendSharedIsStale | enforcer.go:553-566 | for any two Enforcers over one backend without tokens a run ends with a stale entry that nothing will remove |
| Instances.InstancesAreCoherent | enforcer.go:517-658 | in every interleaving of instances with caches of their own, an entry for whose user no event is unpublished, on its way or missed is the user's effective set in the present store; a lookup no covering commit raced with returned that set |
| Instances.StepKeepsInv | invalidation.go:100-172 | every lookup step, commit, own invalidation, publication, connection loss, delivery and application keeps what is owed at each instance covered by an event that is due there |
| Instances.SubscribingAnewRestores | invalidation.go:95-139 | from every reachable state an instance that subscribes anew and applies what it then finds holds only effective sets, whatever it missed |
| Invalidation.Invalidator.Offer | invalidation.go:149-167 | an event that fits is queued; a flush that does not replaces the whole queue; a drop that does not is discarded |
| Invalidation.Invalidator.Broadcast | invalidation.go:141-167 | every subscriber's queue is offered the event and stays within its capacity |
| Invalidation.Invalidator.Confirm | invalidation.go:125-131 | once the subscription is confirmed every subscriber has a flush queued |
| Invalidation.Invalidator.Messages | invalidation.go:175-188 | a new subscriber starts with a flush if already confirmed, and gets a closed channel after closing |
| Invalidation.Invalidator.Unsubscribe | invalidation.go:190-197 | the channel is closed and no longer offered to, once |
| Invalidation.Invalidator.CloseSubscribers | invalidation.go:199-207 | every channel is closed and no subscriber is left |
| Invalidation.SixtyFourAreKept | invalidation.go:175-188 | a subscriber that receives nothing keeps the first 64 events in order |
| Invalidation.SixtyFifthDoesNotFit | invalidation.go:149-164 | the next drop is discarded, the next flush takes the place of all |
| Invalidation.FlushNeverLost | invalidation.go:141-167 | once a flush is broadcast, every later state of every interleaving still has it or a later flush to apply, or has nothing cached or fillable from before the broadcast |
| Invalidation.QuietMeansRenewed | enforcer.go:647-658 | with queue, receiver and broadcaster at rest, everything cached or fillable stems from lookups begun after the last flush |
| Invalidation.BroadcastNeverBlocks | invalidation.go:147-167 | a broadcast's next step is always possible, and it ends in a bounded number of its own steps whatever receivers do |
| Invalidation.ReceivingRenews | enforcer.go:633-645 | receiving and applying what is queued renews the cache in exactly that many steps |
| Invalidation.UninterruptedIsOffered | invalidation.go:149-167 | the step-by-step broadcast, undisturbed, leaves the queue the object's method leaves |
| Invalidation.Invalidator.Run | invalidation.go:100-139 | any sequence of lost connections, confirmations and published events leaves every queue as the events in turn leave it |
| Invalidation.ConfirmedMeansFlushed | invalidation.go:125-131 | whenever the subscription counts as confirmed, a queue nobody received from holds a flush, whatever was published since |
| Invalidation.DropThatFitsNeverLost | invalidation.go:151-153 | a drop offered to a queue with room: every later state of every interleaving still has it or a flush to apply, or has nothing cached or fillable for the key from before its broadcast |
| Invalidation.ReceivingKeeps | enforcer.go:647-658 | receiving and applying adds no entry and keeps one that nothing queued names |
| Invalidation.DropTakesEffectIffItFits | invalidation.go:149-167 | with an older entry and nothing else on its way for it, the entry is gone after everything was applied exactly if the queue had room for the drop |
| Invalidation.FullQueueLosesDrops | invalidation.go:153-164 | for every key a run from a new subscriber reaches a full queue, discards the key's drop and ends at rest with the old entry |
| Enforcer.Enforcer.PermissionsFor | enforcer.go:517-567 | used one call at a time, returns the effective set of the present store, and leaves the cache as after a hit or a fill |
| Enforcer.Enforcer.Fill | enforcer.go:553-565 | fills only if neither the Enforcer's nor the cache's generation moved |
| Enforcer.Enforcer.FlushCache | enforcer.go:569-585 | the Enforcer's generation moves and the cache is flushed |
| Enforcer.Enforcer.DropCacheKey | enforcer.go:591-598 | the Enforcer's generation moves and the key is deleted |
| Enforcer.Enforcer.ApplyInvalidation | enforcer.go:647-658 | a flush empties the cache, a drop removes its key, an empty key is ignored |
| Enforcer.Enforcer.Enforce | enforcer.go:402-410 | the decision through the cache is what the policy says, and never a failure |
| Enforcer.Enforcer.Mutate | enforcer.go:165-278 | store first, then drop or flush, then the event: the tenant's operation or its error, every cached set stays right, and the event says what was dropped |
| Enforcer.GrantsIsAllowed | enforcer.go:402-410 | an Enforcer decides for its tenant's user under the tenant's key, with the attributes supplied and the user and tenant as facts |
| Enforcer.Enforcer.MutateAs | enforcer.go:217-278 | a caller the policy does not let manage roles gets an error, changes nothing and publishes nothing, and only such a caller is denied; rules are refused where they are not enabled; otherwise the mutation |
| Enforcer.EventsByOperation | enforcer.go:602-628 | a user's own cache key is dropped for assignments, everything is flushed for roles and rules, nothing is published for metadata |
| Enforcer.MutationKeepsCoherent | enforcer.go:587-628 | applying a mutation's event to a coherent cache leaves it right for the changed store, on every instance of the tenant and of tenants apart from it |
| Tenant.KeysMeetIffSiblings | enforcer.go:127-139 | two tenants without the separator share a key exactly if they are equal or one is the other with a colon appended |
| Tenant.TrailingColonCollides | options.go:94-106 | an accepted tenant whose role key is another accepted tenant's |
| Tenant.CacheKeysDistinct | enforcer.go:134-139 | for tenants that are apart a cache key names one user of one tenant |
| Tenant.OpCommutes | enforcer.go:141-278 | one scoped operation on the shared store ends as on the tenant's share alone, keeps links inside tenants and changes no other share |
| Tenant.SharedStoreIsPrivate | batch.go:121-164 | over every interleaving of operations and batches, with their capability checks and refusals, each tenant's share and replies are those of its own calls on its own share |
| Tenant.AnswerNeedsCapability | enforcer.go:331-341 | no operation or batch of a checked caller succeeds unless the policy lets the caller manage roles, and only then is one not denied |
| Tenant.IncapableCallersChangeNothing | enforcer.go:217-278 | however many calls callers without the capability make, the store stays as it is |
| Tenant.IncapableCallersChangeNoShare | batch.go:121-164 | the same of a tenant's share, whatever other tenants do meanwhile |
| TenantEffects.RequestTakesEffect | enforcer.go:141-278 | a successful operation takes effect on the roles and users the caller names, under the tenant's keys |
| TenantEffects.RefusedIffNotFull | enforcer.go:165-171 | a role is refused as invalid exactly for its own blank name or a blank permission |
| TenantEffects.RulesRefusedIffDisabled | batch.go:121-134 | where rules are not enabled, a single change of rules is refused first, a batch with rules after the capability and the content of its parts |
| TenantEffects.TenantForRefusals | options.go:94-106 | a tenant name is refused exactly if it is blank or holds two colons in a row |
| TenantEffects.AcceptedAsIs | options.go:94-106 | the accepted names are those taken as they are |
| Tenant.NewStoreIsPrivate | options.go:94-106 | tenants whose names hold no separator and end in no colon share a store from its creation as if each were alone |
| Tenant.TenantsDoNotInterfere | enforcer.go:286-329 | no run of other tenants' calls changes a tenant's inherited roles, effective sets or role listing |
| Tenant.TenantsDecideAlone | enforcer.go:402-410 | no run of other tenants' calls changes any decision for a tenant's users, rules included |
| Tenant.EffectiveWithin | enforcer.go:543-552 | a tenant's users hold the same roles and permissions in the whole store as in the tenant's share |
| Tenant.ListedAsStored | enforcer.go:318-328 | scoping and listing round-trip: a stored role is listed under the names its caller used |
| Tenant.SiblingsInterfere | options.go:94-106 | for every tenant, a call of its sibling changes its listing |
| Registry.StepKeepsInv | registry.go:137-392 | every critical section, factory stage, cleanup step and answer keeps the registry's invariant |
| RegistryLeases.LeasesAreSafe | registry.go:137-219 | in every run a held Enforcer is of the requested tenant and the cleanup of its entry has not started; if it is down, it was closed for another entry |
| RegistryLeases.DistinctResultsKeepLeasesUp | registry.go:230-280 | a factory that returns a different Enforcer for every entry keeps every held Enforcer up |
| RegistryFactory.LeasesStayUpIffNoneTwice | registry.go:230-280 | every run over a factory keeps every held Enforcer up exactly if the factory gives no Enforcer to two entries |
| RegistryFactory.SharedEnforcerIsShutUnderALease | registry.go:230-280 | for every factory that gives one Enforcer to two entries, a run shuts it down for the one while it is held from the other |
| RegistryResults.HeldWasVetted | registry.go:230-257 | in every run a held Enforcer was returned by the factory for that entry without an error and found alive when it was judged |
| RegistryRoom.AcquiringMakesRoom | registry.go:141-177 | in every run a new entry takes the place, in a full cache, of one that is provisioned and unleased and was used no later than any other such, and of none otherwise |
| RegistryRoom.NoRoomMeansAllInUse | registry.go:147-165 | in every run nothing can be evicted exactly if every cached entry is leased or unprovisioned, and the cache is full exactly at its capacity |
| RegistryRoom.PruningTakesTheIdle | registry.go:377-392 | in every run pruning takes exactly the cached tenants whose entries are provisioned, unleased and were last acquired or released at least the limit ago, and counts them |
| RegistryRoom.EvictionTakesOneOut | registry.go:312-322 | eviction takes just the tenant's entry out and retires it |
| RegistryRoom.ClearAndCloseTakesAllOut | registry.go:335-343 | every entry is taken out and retired |
| RegistryRoom.ClearForgetsAll | registry.go:290-297 | every entry is taken out, untracked and left unretired |
| RegistryRoom.ShutdownClosesAll | registry.go:356-365 | the registry is closed, its cache empty, every factory call cancelled and every tracked entry retired |
| RegistryRoom.ReleaseEndsTheLease | registry.go:178-187 | a release ends the lease, and a second one changes nothing |
| RegistryRoom.RetiredMeansCancelled | registry.go:259-263 | in every run the factory call of a retired entry has been cancelled |
| RegistryLeases.RefsAreOutstandingLeases | registry.go:147-187 | in every run reference counts are the outstanding leases, the cache is within capacity and holds no retired entry |
| RegistryLeases.LastUsedIsLastTouch | registry.go:175-187 | in every run an entry's time of last use is that of its last acquisition or release |
| RegistryLeases.OldestIsLeastRecentlyUsed | registry.go:147-165 | in every run whoever makes room was acquired or released no later than any other entry that could be evicted |
| RegistryLeases.RetiredOnlyDrains | registry.go:259-280 | a retired entry is never acquired again: its leases only go down |
| RegistryLeases.RetiredEarlyNeverHandedOut | registry.go:230-263 | nobody is ever handed the Enforcer of an entry cancelled before its factory's result was checked |
| RegistryDrain.CleanupStartsWhenDue | registry.go:265-280 | in every run cleanup has started exactly for the retired, unleased, provisioned entries |
| RegistryDrain.StoppedMeansDown | registry.go:282-297 | stopped exactly when closed and nothing is tracked; then every Enforcer a factory returned is down, except for forgotten entries |
| RegistryDrain.StepLowersRemaining | registry.go:356-372 | after shutdown each release of an outstanding lease, factory stage and cleanup step of a tracked entry lowers a natural number by exactly one, and every other step leaves it |
| RegistryDrain.RemainingIsZeroWhenStopped | registry.go:282-286 | that number is 0 exactly when the registry has stopped |
| RegistryDrain.SomeWorkIsEnabled | registry.go:265-280 | until then some step that lowers it is possible |
| RegistryDrain.Drains | registry.go:356-372 | from every reachable closed state a run of exactly that many steps stops the registry |
| RegistryDrain.RunCountsDown | registry.go:356-372 | in every run after shutdown, work done and work left add up to what was left |
| RegistryDrain.StopsWhenAllIsDone | registry.go:282-286 | the registry has stopped exactly when a run has done all of it |
| TenantRegistry.TenantRegistry.SelectOldest | registry.go:149-162 | finds a least recently used provisioned and unleased entry, if there is one |
| TenantRegistry.TenantRegistry.Acquire | registry.go:141-177 | refused exactly when closed, or full with nothing to evict; otherwise the state machine's step |
| TenantRegistry.TenantRegistry.Answer | registry.go:188-218 | the Enforcer if the entry has one and the caller still waits; otherwise the reference goes back |
| TenantRegistry.TenantRegistry.Release | registry.go:178-187 | works once per lease |
| TenantRegistry.TenantRegistry.Provision | registry.go:230-257 | the factory goroutine, undisturbed, is the state machine's four stages |
| TenantRegistry.TenantRegistry.Judge | registry.go:240-248 | keeps a live Enforcer of the tenant unless something failed or was cancelled; shuts down every other |
| TenantRegistry.TenantRegistry.Record | registry.go:250-256 | the recorded result is the state machine's step |
| TenantRegistry.TenantRegistry.Finish | registry.go:274-278 | the entry is untracked, and the registry stops with the last one |
| TenantRegistry.RegistryEntry.FinishLocked | registry.go:265-280 | starts the cleanup once, if it is due |
| TenantRegistry.RegistryEntry.RetireLocked | registry.go:259-263 | retires, cancels, and starts a cleanup that is due |
| TenantRegistry.TenantRegistry.Evict | registry.go:312-322 | the critical section: the cached entry of the tenant, if any, is taken out and retired |
| RegistryEvict.OverMeansDown | registry.go:323-328 | when the wait ends without the deadline, in every run, the entry is provisioned, unleased and out of reach, and the Enforcer its factory returned is down |
| RegistryEvict.EvictionFinishes | registry.go:310-329 | from every reachable state exactly the entry's releases, factory stages and cleanup steps end the wait, in an open registry too |
| TenantRegistry.TenantRegistry.ClearAndClose | registry.go:335-343 | every cached entry is retired, in any order |
| TenantRegistry.TenantRegistry.Clear | registry.go:290-297 | every cached entry is forgotten, without being closed |
| TenantRegistry.TenantRegistry.Shutdown | registry.go:356-365 | closes, cancels every factory and retires every tracked entry |
| TenantRegistry.TenantRegistry.PruneIdle | registry.go:377-392 | evicting each idle entry as it is met, in any order, evicts exactly the entries that are provisioned, unleased and idle for long enough, and counts them |
| TenantRegistry.EvictedInTurn | registry.go:384-390 | evicting entries one after the other is evicting them together |
| TenantRegistry.ReachedIsValid | registry.go:137-392 | every state a run of the registry reaches meets what its methods require |
| Escape.InTurnIsOnePass | sqlstore.go:479-484 | the three replacements in turn equal one pass that escapes each special character once |
| Escape.EscapeLikeIsExact | sqlstore.go:361-373 | for all strings, the escaped prefix with a wildcard matches exactly the names that start with the prefix |
| Escape.EscapeLikeMySqlIsExact | sqlstore.go:366-371 | the same for the MySQL escaping with `=` |
| Escape.EscapeGlob | redis_cache.go:119-129 | the loop escapes each glob character once |
| Escape.EscapeGlobIsExact | redis_cache.go:143-146 | for all strings, the escaped prefix with a star matches exactly the keys that start with the prefix, whatever bracket expressions mean |
| Escape.FlushNode | redis_cache.go:143-166 | given what a scan guarantees, deleting its pages removes exactly the keys under the prefix |
| Escape.UnescapedIsExactIffPlain | sqlstore.go:361-373 | without escaping, the pattern matches exactly the extensions of the prefix if and only if the prefix holds no backslash, percent sign or underscore |
| Escape.UnescapedListsForeign | sqlstore.go:361-373 | a prefix that holds one of them, unescaped, matches a name that does not start with it |

## Left out

- HTTP, fiber, echo and gin adapters and the examples: thin wrappers over `Enforce` and `Acquire`.
- Drivers, network, query text, migrations, dialect detection, connection pools, reconnect delays and timers.
- Environment, options (beyond the tenant check), logging, metrics counters, the audit sink, policy versions.
- The refusal of calls on an Enforcer that was shut down, owned-scope suffixes and the permission view.
- Several Enforcer objects over one cache object; Enforcers that share a cache are the subject of `LookupCache`, those that do not of `Instances`.
- JSON and rational arithmetic: an attribute value is its encoding, whether it has one, and whether that is a number or a list; numbers are reals.
- Wall-clock time is a parameter; generations and tokens do not wrap around.
- Strings are sequences of characters; invalid UTF-8 in a cache prefix is not modelled.
- Redis entries in the older string format, and failures of cache operations other than lost keys.
- Context cancellation inside SQL operations; in the memory store it is modelled at each check of a batch.
- MemoryStore.MemoryStore.ListRolesByPrefix: does not state the alphabetical order of the listing.
- StoreLists.ListedStore.ApplyPolicyBatch: permission lists are values; the parent lists and the users' role lists, which the operations append to and compact, are on arrays.
- Instances.InstancesAreCoherent: an event enters a subscriber's queue in one step, and users are their own cache keys; the broadcast step by step is `Invalidation`, the keys are `Tenant`. Every instance subscribes on a connection of its own.
- LookupCache.CacheIsCoherent: over Redis a flush is a scan that returns every key present throughout it, and tokens are never issued twice.
- Invalidation.FlushNeverLost: starts at the broadcast; messages Redis loses before that are covered by the flush sent when the subscription is confirmed again.
- Enforcer.Enforcer.Mutate: one method for the mutators, which differ only in the store operation and in dropping or flushing; the version number and the audit record are not part of it, and the event is handed to the caller.
- Tenant.TenantsDoNotInterfere: listings are maps from names to roles, without order.
- RegistryLeases.LeasesAreSafe: `Get` returns an Enforcer without a lease and is not covered; panics of a factory are errors; an Enforcer shut down by its owner counts as not alive when the result is judged.
- RegistryDrain.Drains: says that draining is possible and how many steps it takes; that callers release and factories return is theirs to do.
- TenantRegistry.TenantRegistry.Evict: the wait behind the critical section is `RegistryEvict`; a caller whose deadline passes first leaves the eviction going on.
- Escape.EscapeGlobIsExact: Redis's bracket expressions are a parameter, because no escaped prefix contains one.
