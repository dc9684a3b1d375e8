# Verified core of Reqogniloom

A Dafny model of six parts of the repository, and proofs about them. `dafny verify dfyconfig.toml`
checks all of it.

| part | modules |
|---|---|
| architecture decomposition: draft, commit, audit | `FlattenTree`, `FlattenFacts`, `FlattenJson`, `Draft`, `Workspace`, `DraftCommit`, `DraftGraft`, `CommitFacts`, `CommitRows`, `DraftAudit`, `DraftFlow` |
| layered rate limits over a TTL cache | `RateLimits`, `RateLimitCache` |
| get-or-create under a unique index | `Actors` |
| ADR versions and revisions | `AdrVersioning` |
| allocation view | `AllocationView`, `AllocationRows` |
| version bump and its checker | `JsonPointer`, `VersionBump`, `BumpFacts`, `VersionCheck` |
| traceability corpus | `NaturalKey`, `IdLists`, `TraceParse`, `TraceCorpus`, `ChildrenIndex`, `Coverage` |

`Text` and `PyJson` hold what they share: optional values, decimal numerals, `strip`/`lower`, positions of a selection, JSON values.

## How the parts are modelled

- **Decomposition.** A provider answer is a JSON tree; `FlattenTree.Walk` is the appending recursion with its
  `kept` counter. The database is a value; `DraftCommit.Store` holds it in a field, writes it row by row and
  puts a snapshot back when the transaction is left through an exception. `faults` says which of the five service
  calls of each node raise. The rule engine is `DraftAudit.Reports`, read off the three rules' own code.
- **Rate limits.** `RateLimitCache` is a state machine of one layer: readers load and fill, writers edit,
  invalidate, read back, commit or roll back, the clock ticks, entries are evicted, every access may fail.
  `delay` bounds the time between a load and its fill.
- **Actors.** Transactions under READ COMMITTED: an insert waits for an uncommitted row with the same key, and
  conflicts only with a visible one. Rows are kept by primary key, so uniqueness per name or user is a theorem. A
  name carries its two lower-casings, the database's and Python's; on ASCII names they agree.
- **ADR.** An update reads the row (under its lock when a version is expected) and later writes the whole row
  back, version column included, then adds one and a revision if something changed. Write and commit are one step:
  the row is locked between them, and what is written depends on nothing read in between.
- **Matrix script.** Documents are taken after tokenising: comma segments with the ids in them, table rows, marked
  fields.

## Where the code does not do what is said about it

- *"Passes the auditor by construction"* (`backend/application/architecture_decompose_service.py:42-43`): the
  commit never checks that the anchor is allocated to the root element. `DraftAudit.AuditPasses` gives the exact
  condition, `DraftFlow.UnallocatedRolledBack` an accepted pair of endpoints with the report that rolls it back.
  Generating skips neither outdated anchors nor anchors of another workspace; `DraftFlow.GeneratedCommits` says
  exactly when an unmodified generated draft commits.
- *A cached layer is a map the database held.* `backend/admin_ops/services/rate_limit_service.py:157-159`
  invalidates and reads back inside the transaction, so an edit that is rolled back can stay cached
  (`RateLimitCache.RolledBackStaysCached`). `RateLimitCache.SettledExactly` says from which states on every read
  returns a map the database held, `SettledThroughoutExactly` which runs of the service, read-backs included, stay in
  such states; `HeldExactly` shows that without read-backs every run does. Invalidating
  before the commit also lets a reader between the two cache the old map
  (`RateLimitCache.EarlyInvalidationStale`); `FreshExactly` and `UnstraddledWriteFresh` say when reads are current.
- *`effective_rates` and `resolve_rate` agree.* Not with a JSON null in the global layer
  (`RateLimits.NullDisagrees`); `RateLimits.EffectiveRates` states exactly where they do.
- *A conflict on insert always finds its row, and all callers get the same one.* The index holds the database's
  lower-casing, the lookup compares it with Python's (`backend/application/actor_service.py:153-156`).
  `Actors.ReRaiseExactly`: the re-raise can be reached exactly when the two differ on a name that is asked for.
  `Actors.CallersAgreeExactly`: committed callers of one actor get the same row in every run exactly when no name is
  looked up under what a different one is stored under.
- *Version counts revisions, and an update that changes nothing changes nothing.* `adr.save()` writes the row it
  read, version included. `AdrVersioning.WriteConservesExactly` and `ConservedThroughoutExactly` give the exact
  condition for the count, per write and for whole runs; `NothingChangedExactly` gives the one for no-change updates.
  `StaleWriteRun` and `NoOpReverts` are the inputs where they fail, `ConservedExactly` shows that supplying the
  expected version is enough, `LegacyFrozen` the fate of records without a backing artifact.
- *The checker finds every version problem.* A carrier whose whole document is `null` is skipped silently
  (`VersionCheck.NullCarrierSkipped`); `VersionCheck.CheckerAgreesWithBump` has the exact statement.
- *A bump that cannot address a version says so.* The loop translates missing keys and wrong types, but not the index
  error of a list that is too short (`VersionCheck.EmptyPluginsEscape`); `BumpFacts.EscapesExactly` says when that
  error escapes. A failing bump is not undone: `BumpFacts.FailedBump` says exactly what it leaves behind.
- *"An ID listed both ways is primary"* (`scripts/generate_traceability_matrix.py:179`): so within one field, but not
  once a table or a restated heading adds the id as a primary parent. `TraceCorpus.ListedBothWaysExactly` says when an
  id is in both lists, `RestatedBothWays` gives two blocks that put it there.

## Model

| member | source | states |
|---|---|---|
| `FlattenTree.Clamp` | backend/application/architecture_decompose_service.py:1058-1059 | the clamped cap lies between 1 and the ceiling and is the requested one whenever that does |
| `FlattenTree.Walk` | backend/application/architecture_decompose_service.py:1062-1088 | the appending walk with its `kept` counter and early exit leaves exactly the pre-order rendering of the pruned level behind what was there, or raises when that does |
| `FlattenTree.Visit` | backend/application/architecture_decompose_service.py:1072-1088 | one kept item appends its node followed by its pruned children, children only above the last level |
| `FlattenTree.Flatten` | backend/application/architecture_decompose_service.py:1036-1091 | for every tree and caps the result is the pre-order of the tree pruned to the clamped caps, and raises when that cannot be read; what that list is of the JSON say `FlattenedFromJson` and `FlattenRaisesExactly` |
| `FlattenFacts.LevelKeeps` | backend/application/architecture_decompose_service.py:1062-1071 | every level of the pruned tree is the first `max_breadth` named items of that level, in order |
| `FlattenFacts.PrunedBound` | backend/application/architecture_decompose_service.py:1036-1091 | at most 10+100+1000+10000 nodes whatever caps are asked for |
| `FlattenFacts.EmitRenders` | backend/application/architecture_decompose_service.py:1062-1088 | the list is the layout of the forest, entry by entry, behind what was there |
| `FlattenFacts.EmitRaises` | backend/application/architecture_decompose_service.py:1072-1084 | the walk raises exactly when some kept item's requirement cannot be read |
| `FlattenFacts.LayoutAtPath` | backend/application/architecture_decompose_service.py:1062-1088 | the node at a tree path stands at its pre-order position with the path as its id and its parent path as its parent |
| `FlattenFacts.PositionsFollowPreOrder` | backend/application/architecture_decompose_service.py:1062-1088 | positions in the list are ordered as the paths are in pre-order |
| `FlattenFacts.LayoutDistinct` | backend/application/architecture_decompose_service.py:1062-1084 | flattened ids are pairwise distinct |
| `FlattenFacts.LayoutParentsFirst` | backend/application/architecture_decompose_service.py:1062-1088 | every non-null parent id occurs earlier in the list |
| `FlattenFacts.FlattenedReplayable` | backend/application/architecture_decompose_service.py:1062-1091 | distinct ids and parents first hold of every list the walk returns |
| `FlattenFacts.FlattenedCanonical` | backend/application/architecture_decompose_service.py:1062-1091 | every generated node is in the normal form the dictionary round trip preserves |
| `FlattenJson.FlattenedFromJson` | backend/application/architecture_decompose_service.py:1036-1091 | one node for every path of named JSON objects within the caps 1..10 and 1..4 and no other, in pre-order; its ids spell the path, and title, description, element type and requirement are those of the object at that path |
| `FlattenJson.FlattenRaisesExactly` | backend/application/architecture_decompose_service.py:1072-1084 | the walk raises iff some object at such a path has a requirement that is neither falsy nor a dictionary |
| `FlattenJson.EncodeAllRoundTrip` | backend/application/architecture_decompose_service.py:1062-1088 | reading the JSON that items are written as gives the same items in the same order, children and all fields included |
| `Draft.DraftRoundTrip` | backend/application/architecture_decompose_service.py:300-340 | `from_dict(to_dict(d)) == d` exactly for drafts in normal form |
| `Draft.AcceptedCanonical` | backend/application/architecture_decompose_service.py:281-340 | whatever payload is accepted, the draft is in normal form |
| `Draft.NormalFormStable` | backend/application/architecture_decompose_service.py:230-340 | re-encoding an accepted payload and reading it again changes nothing |
| `Draft.NodeReadExactly` | backend/application/architecture_decompose_service.py:246-297 | which error refuses a draft node, and from which field every part of an accepted one is read |
| `Draft.PayloadRefused` | backend/application/architecture_decompose_service.py:321-332 | missing endpoints are refused first, then a missing or empty node list |
| `Draft.PayloadRead` | backend/application/architecture_decompose_service.py:321-340 | which field of an accepted payload says what; the first refused node refuses the payload |
| `DraftCommit.Store.CommitDraft` | backend/application/architecture_decompose_service.py:508-632 | the loop over nodes with its bookkeeping gives the outcome that `CommitOutcome`, `CommitFailure` and the rows below describe; on success the store is the replayed database, on any failure it is the one before the call |
| `DraftCommit.Store.PersistNode` | backend/application/architecture_decompose_service.py:571-623 | one iteration's five service calls, any of which may raise half way |
| `DraftGraft.InsertAndLink` | backend/application/architecture_decompose_service.py:576-623 | creating element, requirement and links adds exactly one node's rows under the parents' artifacts, and `allocate` deletes nothing |
| `DraftGraft.ParentsFound` | backend/application/architecture_decompose_service.py:696-716 | the parents found in the `created` map are those of the last earlier node with that id, and the lookup fails exactly when there is none |
| `DraftGraft.GraftStep` | backend/application/architecture_decompose_service.py:571-623 | one node's rows extend the graft by exactly that node and keep every earlier row |
| `DraftGraft.ReplayGrafts` | backend/application/architecture_decompose_service.py:570-623 | the whole loop succeeds exactly when every parent is known and no call raises, and then leaves the graft and its bookkeeping |
| `CommitFacts.CommitOutcome` | backend/application/architecture_decompose_service.py:570-632 | `commit_draft` returns normally iff every node can be replayed and no blocker of the three rules names a new id; then the database is the old one plus exactly the graft |
| `CommitFacts.ReplayableOnlyRejected` | backend/application/architecture_decompose_service.py:696-716 | a draft whose parents stand first never raises the unknown-or-out-of-order-parent error, only what a service call raises |
| `CommitFacts.GraftCounts` | backend/application/architecture_decompose_service.py:570-623 | n nodes add n elements, n requirements and 3n links |
| `CommitFacts.ReportedCounts` | backend/application/architecture_decompose_service.py:604-605 | the result reports n, n and 3n ids |
| `CommitFacts.LinkIs` | backend/application/architecture_decompose_service.py:638-688 | every link afterwards is an old one, unchanged and between old artifacts, or one node's allocation, decomposition or derivation |
| `CommitFacts.DerivesIsConverse` | backend/application/architecture_decompose_service.py:668-688 | new `derives-from` edges are exactly the converse of new `decomposes` edges |
| `CommitFacts.ReachesAnchor` | backend/application/architecture_decompose_service.py:638-688 | from every new requirement a repetition-free chain of `derives-from` links leads to the anchor |
| `CommitFacts.NoCycleThroughNew` | backend/application/architecture_decompose_service.py:638-688 | no chain of `derives-from` links, old and new, returns to a new requirement |
| `CommitFacts.TreesIsomorphic` | backend/application/architecture_decompose_service.py:570-603 | element tree, element-artifact tree and requirement-artifact tree have exactly the draft's edges |
| `CommitFacts.DerivationIsomorphic` | backend/application/architecture_decompose_service.py:682-688 | so has the derivation between the new requirements |
| `CommitFacts.RootLevelAttached` | backend/application/architecture_decompose_service.py:709-710 | exactly the draft's root level hangs below the root element and the anchor, in all four |
| `CommitRows.CommittedTexts` | backend/application/architecture_decompose_service.py:576-603 | node by node the stored texts: element title, description and type; requirement title with the node's as fallback; rationale on both artifacts iff there is one; workspace |
| `CommitRows.ReportedRows` | backend/application/architecture_decompose_service.py:604-632 | the reported ids are, node by node, its element, its requirement and its allocation, decomposition and derivation |
| `CommitRows.NewIdsExactly` | backend/application/architecture_decompose_service.py:606-614 | the ids findings are matched against are those of the added elements, requirements and artifacts, all and only those |
| `CommitRows.AllocateReplaces` | backend/application/architecture_decompose_service.py:638-660 | allocating leaves the requirement with the one new allocation and every other link as it was |
| `CommitRows.PreflightExactly` | backend/application/architecture_decompose_service.py:532-556 | which check before the transaction refuses, in their order, and which endpoints pass |
| `CommitRows.CommitFailure` | backend/application/architecture_decompose_service.py:570-752 | a failing commit raises what the first node that does not get through raises, its unknown parent or its first failing call; if all do, the offending findings |
| `CommitRows.OffendingExactly` | backend/application/architecture_decompose_service.py:737-743 | the findings that roll back are the blockers of ARCH-003, TRACE-P4 and TRACE-P5 that name a new id |
| `CommitRows.OffendingInOrder` | backend/application/architecture_decompose_service.py:737-743 | they are raised in the order and as often as they were reported |
| `DraftAudit.GroundedSpared` | backend/traceability/audit/rules/decomposition_consistency.py:228-415 | below an allocated, active anchor none of TRACE-P4, TRACE-P5, ARCH-003 names a new id |
| `DraftAudit.UngroundedReported` | backend/traceability/audit/rules/decomposition_consistency.py:228-415 | otherwise the first node is reported by TRACE-P4 or ARCH-003 |
| `DraftAudit.NewOrphan` | backend/traceability/audit/rules/decomposition_consistency.py:228-254 | a new element is an orphan exactly on the root level below an outdated root |
| `DraftAudit.UnansweredOld` | backend/traceability/audit/rules/decomposition_consistency.py:303-323 | TRACE-P5 findings after a commit are between old requirements only |
| `DraftAudit.NewUnderived` | backend/traceability/audit/rules/decomposition_consistency.py:371-415 | ARCH-003 lists a requirement for a new element exactly when it is that element's own, on the root level, below an anchor that is not grounded |
| `DraftAudit.AuditPasses` | backend/application/architecture_decompose_service.py:722-752 | a draft passes the audit iff it is empty or root and anchor are active and the anchor is allocated to the root |
| `DraftFlow.CommitSucceeds` | backend/application/architecture_decompose_service.py:508-632 | with the three rules as they are, the commit succeeds iff every node can be replayed and the draft is empty or its anchor grounded |
| `DraftFlow.OldBlockersIgnored` | backend/application/architecture_decompose_service.py:737-743 | blockers naming only old ids never cause a rollback |
| `DraftAudit.ReportExists` | backend/traceability/audit/rules/decomposition_consistency.py:228-415 | on any rows the three rules have a finite report |
| `DraftFlow.UnallocatedRolledBack` | backend/application/architecture_decompose_service.py:508-632 | an accepted root and anchor without allocation, replayed without a fault, with the report on which the audit rolls them back |
| `DraftFlow.GeneratedRoundTrip` | backend/application/architecture_decompose_service.py:414-502 | a generated draft survives the client round trip and is replayable |
| `DraftFlow.GeneratedCommits` | backend/application/architecture_decompose_service.py:414-632 | the client's copy names the same element and anchor; committing it succeeds iff not minimal, anchor in the element's workspace, no call raises and neither is outdated, and every failure is the one that condition names |
| `RateLimits.EffectiveRates` | backend/admin_ops/rate_limits.py:205-244 | one row per scope; its value is `resolve_rate`'s exactly where no null stands in the way, its source is the layer that holds the scope |
| `RateLimits.ResolveExactly` | backend/admin_ops/rate_limits.py:173-202 | the first of tenant override, global override and settings that has a value decides; an empty string means no limit |
| `RateLimits.StringsAgree` | backend/admin_ops/rate_limits.py:173-244 | with string values the two computations agree on every scope |
| `RateLimits.NullDisagrees` | backend/admin_ops/rate_limits.py:197-233 | a null in the global layer makes them differ |
| `RateLimits.TenantDecides` | backend/admin_ops/rate_limits.py:193-202 | the scope is in the tenant layer iff no change of the lower layers changes the result |
| `RateLimits.OverrideDecides` | backend/admin_ops/rate_limits.py:193-202 | the scope is overridden iff no change of the settings changes the result |
| `RateLimits.UnlimitedExactly` | backend/admin_ops/rate_limits.py:193-202 | a scope is unlimited iff the first layer that has it holds an empty string, or none has it and the settings are silent or empty |
| `RateLimitCache.StepKeeps` | backend/admin_ops/rate_limits.py:86-170 | every step keeps: what is cached or on its way was known no earlier than its expiry allows |
| `RateLimitCache.EditedExactly` | backend/admin_ops/services/rate_limit_service.py:116-159 | a written row reads back, a deleted one is gone, all others stay |
| `RateLimitCache.ReadsRecent` | backend/admin_ops/rate_limits.py:78-170 | in every interleaving a non-failed read returns a map held, or seen by an uncommitted writer: a hit less than 30 seconds plus delay ago, a fresh load less than delay ago |
| `RateLimitCache.SettledExactly` | backend/admin_ops/rate_limits.py:115-170 | from a state on, with no further read-back, every read returns a map the database held iff everything live in the cache or loaded and on its way is one |
| `RateLimitCache.SettledThroughoutExactly` | backend/admin_ops/services/rate_limit_service.py:116-159 | a run of the service, read-backs included, stays in such states iff what every read-back sees the database has held before |
| `RateLimitCache.HeldExactly` | backend/admin_ops/services/rate_limit_service.py:157-159 | without read-backs every read of every run returns a map held later than now - TTL - delay; with them some read does not |
| `RateLimitCache.RolledBackStaysCached` | backend/admin_ops/services/rate_limit_service.py:157-159 | a run in which a rolled-back edit is served from the cache |
| `RateLimitCache.FreshExactly` | backend/admin_ops/rate_limits.py:115-170 | until the next write all reads of all continuations are current iff everything live in the cache and every load under way is |
| `RateLimitCache.UnstraddledWriteFresh` | backend/admin_ops/services/rate_limit_service.py:116-159 | a write whose invalidation and commit no reader's load straddles, other writers neither filling nor committing in between, leaves every later read current |
| `RateLimitCache.EarlyInvalidationStale` | backend/admin_ops/services/rate_limit_service.py:157-159 | a reader wholly between invalidation and commit leaves the old map cached |
| `RateLimitCache.OverrideLayer.Overrides` | backend/admin_ops/rate_limits.py:115-170 | the loader with its three swallowed failures is the corresponding steps of the machine; a failed load yields the empty map and is never cached |
| `RateLimitCache.OverrideLayer.Invalidate` | backend/admin_ops/rate_limits.py:247-257 | the call is the writer's invalidating step of the machine; afterwards nothing stale is served unless the delete failed and something stale was there |
| `RateLimitCache.Rate` | backend/admin_ops/rate_limits.py:173-202 | whatever fails and whatever the caches hold, the call is the resolution on what the two loaders yield; quiet caches stay quiet and give the resolution on the tables |
| `Actors.StepKeeps` | backend/application/actor_service.py:100-191 | every step keeps: no two rows share a key, answers are backed by visible rows, a conflict has a visible culprit |
| `Actors.OneActorPerKey` | backend/application/actor_service.py:100-191 | in every interleaving at most one committed actor per external name as the index lower-cases it and per user |
| `Actors.CommittedCallersAgree` | backend/application/actor_service.py:100-191 | in every interleaving without crossing names all committed callers of one actor got the same row, and it is there |
| `Actors.CallersAgreeExactly` | backend/application/actor_service.py:141-157 | that holds of all runs iff no name asked for is looked up under what a different one is stored under |
| `Actors.ReRaiseUnreachable` | backend/application/actor_service.py:134-139 | when the two lower-casings agree on all names asked for, the lookup after a conflict never comes back empty |
| `Actors.ReRaiseExactly` | backend/application/actor_service.py:134-157 | the re-raise can be reached iff the two lower-casings differ on some name that is asked for |
| `Actors.CommittedForGood` | backend/application/actor_service.py:100-191 | a committed row stays as it is in every continuation |
| `Actors.ActorTable.GetOrCreate` | backend/application/actor_service.py:112-191 | one call with others running in between answers with a visible row of its key or reports the unknown user; a row it creates is the wanted one, rows that were there stay; a conflict escapes only when the lower-casings differ |
| `Actors.ActorTable.GetOrCreateExternal` | backend/application/actor_service.py:101-139 | blank names are refused without effect; every other name answers with its actor, created under the stripped name as it was given if there was none, unless its two lower-casings differ and the insert conflicts |
| `Actors.ActorTable.GetOrCreateForUser` | backend/application/actor_service.py:160-191 | the user's one actor, created with the user's name if there was none, or the user is not there; no conflict escapes |
| `AdrVersioning.Create` | backend/application/adr_service.py:183-232 | created exactly for valid titles and descriptions, with the given content, custom fields and status, at version 1 with that content as its one revision |
| `AdrVersioning.FinishWrites` | backend/application/adr_service.py:305-357 | what a write leaves, field by field: what was given, else what was read; one more version and a revision holding exactly that content iff something changed |
| `AdrVersioning.FinishPossibleExactly` | backend/application/adr_service.py:297-352 | when an update can be written: lengths, column width, backing artifact, row lock |
| `AdrVersioning.OtherSteps` | backend/application/adr_service.py:297-330 | reading takes the row as it is and the lock iff a version is expected; no other step but a write touches row or revisions |
| `AdrVersioning.WriteConservesExactly` | backend/application/adr_service.py:342-357 | a write moves version and revisions together iff the version it read is still there |
| `AdrVersioning.ConservedThroughoutExactly` | backend/application/adr_service.py:214-357 | for every run, revisions minus one equals version minus initial in all its states iff every write finds the version its caller read |
| `AdrVersioning.NothingChangedExactly` | backend/application/adr_service.py:305-357 | a step leaves content, custom fields, version and revisions alone iff it is no write, or a write that changes nothing its caller read and whose caller read what is still there |
| `AdrVersioning.NoEditLost` | backend/application/adr_service.py:297-340 | when every update is guarded, accepted ones carry consecutive expected versions and each ran on exactly what the one before left |
| `AdrVersioning.AllEditsPresent` | backend/application/adr_service.py:297-340 | the record is its start with every accepted patch applied in order |
| `AdrVersioning.GuardedNeverOverwrites` | backend/application/optimistic_lock.py:47-90 | in every run, mixed or not, a guarded update overwrites nothing it has not read |
| `AdrVersioning.StaleWriteRun` | backend/application/adr_service.py:342-347 | two overlapping unguarded updates: both revisions, one version step, the first edit written is gone |
| `AdrVersioning.ConservedExactly` | backend/application/adr_service.py:284-303 | supplying the expected version makes every run conserve the count; without it some run does not |
| `AdrVersioning.NoOpReverts` | backend/application/adr_service.py:342-347 | a stale unguarded update that changes nothing reverts an accepted edit |
| `AdrVersioning.LegacyFrozen` | backend/application/adr_service.py:326-357 | no run changes a record without backing artifact |
| `AdrVersioning.AdrStore.UpdateAdr` | backend/application/adr_service.py:259-357 | on success every field and the custom fields are what was given, else as before; version and revisions grow by one exactly for a real change, which is read, load and write of the machine; which refusal when, and every refusal leaves the record as it was |
| `AdrVersioning.Assigned` | backend/application/adr_service.py:310-324 | field by field with validation: every given field is assigned to its own place, the first invalid one refuses |
| `AllocationView.BuildChildren` | backend/application/allocation_view_service.py:63-67 | under every id exactly the ids of the elements that name it as parent, in order |
| `AllocationView.Subtree` | backend/application/allocation_view_service.py:69-78 | the worklist stops on any index, cyclic or not, with exactly the reachable ids |
| `AllocationView.DownIsUp` | backend/application/allocation_view_service.py:63-78 | reachable through the index iff following parent pointers up reaches the root |
| `AllocationRows.FiltersIntersect` | backend/application/allocation_view_service.py:178-212 | a combination of filters selects exactly what every one of them selects alone |
| `AllocationRows.OnlySubtree` | backend/application/allocation_view_service.py:117-203 | with only the subtree filter a requirement passes iff the parent pointers from its allocated element lead up to the root |
| `AllocationRows.OnlySubtreeElement` | backend/application/allocation_view_service.py:191-203 | an element passes the subtree filter iff its own parent pointers lead up to the root |
| `AllocationRows.OtherFilters` | backend/application/allocation_view_service.py:178-212 | what each of the other eight filters selects alone |
| `AllocationRows.RequirementShown` | backend/application/allocation_view_service.py:114-146 | a requirement's row field by field; its element is the last one on the artifact it is allocated to |
| `AllocationRows.ElementShown` | backend/application/allocation_view_service.py:148-173 | an element's row field by field |
| `AllocationRows.AllRowsAt` | backend/application/allocation_view_service.py:175-176 | requirements' rows in order, then elements' |
| `AllocationRows.SelectedExactly` | backend/application/allocation_view_service.py:214 | the selected rows are those at exactly the positions that pass, in order |
| `AllocationRows.SliceExactly` | backend/application/allocation_view_service.py:216 | a page holds what stands from the offset on, as much as there is and at most its size |
| `AllocationRows.CountersCount` | backend/application/allocation_view_service.py:219-224 | the counters are the numbers of selected requirements allocated nowhere and of selected locked rows |
| `AllocationRows.MatchesIsPasses` | backend/application/allocation_view_service.py:178-212 | filtering by the worklist's set is filtering by parent pointers |
| `AllocationRows.List` | backend/application/allocation_view_service.py:28-229 | refuses exactly bad page sizes and offsets; otherwise the page is that slice of the rows selected by parent pointers and filters, with counters over all selected rows |
| `AllocationRows.PagesCover` | backend/application/allocation_view_service.py:214-216 | successive pages of any size put together are the selected rows, no gap and no repeat |
| `AllocationRows.CountersAreTotals` | backend/application/allocation_view_service.py:217-226 | the counters on every page are what the pages add up to |
| `JsonPointer.DigDown` | scripts/check_plugin_packages.py:170-181 | the walking variable ends at the value the pointer addresses, or nowhere |
| `JsonPointer.DigExactly` | scripts/check_plugin_packages.py:170-181 | a pointer addresses a value iff descending from document to part under its keys reaches it |
| `JsonPointer.SetReadsBack` | scripts/bump_version.py:118-126 | setting fails iff nothing is addressed, changes nothing iff the value stands there, and otherwise the pointer reads the value back |
| `JsonPointer.OtherLeavesKept` | scripts/bump_version.py:118-126 | everything neither on the way to nor below the set value stays |
| `JsonPointer.ShapeKept` | scripts/bump_version.py:118-126 | containers on the way keep their keys or length |
| `JsonPointer.IndexErrorExactly` | scripts/bump_version.py:118-126 | setting raises an index error iff the pointer comes to a list or string that is too short |
| `JsonPointer.OneCharacterQuirk` | scripts/bump_version.py:118-126 | Python's string indexing makes a one-character value behave differently |
| `VersionBump.Group` | scripts/bump_version.py:138-140 | the grouping holds every file once, in order of first occurrence, with its pointers in order |
| `VersionBump.PathsExactly` | scripts/bump_version.py:138-142 | the files are the paths at exactly the first locations of each, in the table's order |
| `VersionBump.PointersExactly` | scripts/bump_version.py:138-142 | a file's pointers are those of exactly its locations, in the table's order |
| `VersionBump.StaleCounts` | scripts/bump_version.py:150-154 | the count of needed edits is the number of pointers that do not read the version |
| `VersionBump.EditFile` | scripts/bump_version.py:150-160 | the inner loop is the specified sequence of edits |
| `VersionBump.SetAllExact` | scripts/bump_version.py:150-160 | edits of one file go through iff every pointer addresses something; all read back; the count is how many did not before |
| `VersionBump.Checkout.BumpJsonCarriers` | scripts/bump_version.py:129-168 | the loop over files with its writes gives the specified files and report |
| `BumpFacts.BumpExact` | scripts/bump_version.py:129-168 | succeeds iff every carrier is usable; then all are up to date, the report lists exactly the needed edits, and a second run reports none |
| `BumpFacts.ReportExactly` | scripts/bump_version.py:160-168 | the report names, in the files' order, exactly those with pointers that do not read the version, with how many |
| `BumpFacts.FailedBump` | scripts/bump_version.py:142-167 | a failing bump stops at the first unusable carrier with that carrier's error; the carriers before it are exactly as edited, every other file is as it was |
| `BumpFacts.EscapesExactly` | scripts/bump_version.py:151-160 | an index error escapes iff the first unusable carrier parses and its first unaddressed pointer comes to a list or string that is too short |
| `BumpFacts.DryRunSame` | scripts/bump_version.py:161-167 | a dry run reports the same and writes nothing |
| `BumpFacts.EditKeepsTheRest` | scripts/bump_version.py:118-160 | in an edited carrier every leaf not on the way to a version stays, containers on the way keep their keys or length |
| `BumpFacts.BumpedFiles` | scripts/bump_version.py:142-168 | after a successful bump every carrier holds exactly its edited document and every other file is as it was |
| `VersionCheck.VersionProblems` | scripts/check_plugin_packages.py:214-241 | the loop with its parse cache collects the specified problems |
| `VersionCheck.ProblemsExactly` | scripts/check_plugin_packages.py:214-241 | which problem a location gives: missing file, unparsable file at its first location only, unaddressed pointer, or another value with the value found |
| `VersionCheck.FlatExactly` | scripts/check_plugin_packages.py:214-241 | the problems are listed location by location in the table's order |
| `VersionCheck.NoProblems` | scripts/check_plugin_packages.py:214-241 | nothing is reported iff every location reads the version or its document is `null` |
| `VersionCheck.BumpSatisfiesChecker` | scripts/check_plugin_packages.py:214-241 | after a successful bump no version-coupled problem is reported |
| `VersionCheck.CheckerAgreesWithBump` | scripts/check_plugin_packages.py:214-241 | a bump has nothing to do iff the checker is content and no carrier is `null` |
| `VersionCheck.NullCarrierSkipped` | scripts/check_plugin_packages.py:222-230 | with every manifest of the real table `null` the checker reports nothing and the bump stops at the first |
| `VersionCheck.EmptyPluginsEscape` | scripts/bump_version.py:151-160 | over the real table, manifests with versions but an empty plugin list make an index error escape at the marketplace |
| `VersionCheck.CoupledIndependent` | scripts/check_plugin_packages.py:64-133 | within each file of the real table no pointer leads to or through another |
| `NaturalKey.NaturalTotal` | scripts/generate_traceability_matrix.py:136-142 | the order is total, with its strict part, and ties are equal keys |
| `NaturalKey.NaturalTransitive` | scripts/generate_traceability_matrix.py:136-142 | the order is transitive |
| `NaturalKey.KeyReadsOff` | scripts/generate_traceability_matrix.py:136-142 | the key splits the id into maximal digit runs, taken by value, and the text between them, taken as it is |
| `NaturalKey.FirstDifferenceDecides` | scripts/generate_traceability_matrix.py:136-142 | the first differing part decides: text before numbers, numbers by value, text by its first differing character, shorter first |
| `NaturalKey.TiesExactly` | scripts/generate_traceability_matrix.py:136-142 | ids tie iff equal up to leading zeros in their digit runs |
| `NaturalKey.ExpandExactly` | scripts/generate_traceability_matrix.py:149-160 | a range a..b expands iff a <= b <= a+200, to b-a+1 ids strictly increasing in natural order |
| `NaturalKey.ExpandedIdExactly` | scripts/generate_traceability_matrix.py:149-160 | the i-th id is the prefix and the number i after the start, padded to the start's width |
| `NaturalKey.ExpansionReadsBack` | scripts/generate_traceability_matrix.py:149-178 | the text a range a..b is rewritten to, split at commas and read back, gives exactly b-a+1 distinct ids, strictly increasing in natural order |
| `IdLists.Append` | scripts/generate_traceability_matrix.py:176-178 | the guarded append adds exactly the new ids and keeps the list free of repeats |
| `IdLists.SortKeeps` | scripts/generate_traceability_matrix.py:302-303 | sorting keeps the ids, their number and freedom from repeats |
| `IdLists.SortAscends` | scripts/generate_traceability_matrix.py:302-303 | sorted lists ascend in natural order |
| `TraceParse.ParseTraceability` | scripts/generate_traceability_matrix.py:163-181 | primary are exactly the ids of plain segments, contributing those of the others that are not primary, both without repeats |
| `TraceParse.ParseLinkTables` | scripts/generate_traceability_matrix.py:220-265 | for every id exactly the parents one numeric level up that its counting rows name, by kind, without repeats |
| `TraceParse.TableParentsExactly` | scripts/generate_traceability_matrix.py:245-264 | an id on level n has a parent of a kind iff a counting row of the id mentions it that way and it starts with REQ-L, n - 1 and a hyphen |
| `TraceParse.ParseBlock` | scripts/generate_traceability_matrix.py:268-305 | last value of each field; primary is the union of inline and table primaries, contributing what is contributed inline and the table's that are not primary by then; sorted, no repeats |
| `TraceParse.LastWins` | scripts/generate_traceability_matrix.py:284-294 | of the fields of one kind the last counts, and an empty marker clears what came before |
| `TraceCorpus.CorpusStore.Register` | scripts/generate_traceability_matrix.py:402-426 | the loop registers the blocks one after the other into the corpus as it is |
| `TraceCorpus.RegisterContinues` | scripts/generate_traceability_matrix.py:402-426 | registering list after list is registering all blocks in order |
| `TraceCorpus.MergeInto` | scripts/generate_traceability_matrix.py:409-426 | the duplicate branch, list by list, is the specified merge |
| `TraceCorpus.ParentsAreUnions` | scripts/generate_traceability_matrix.py:416-424 | per id primary parents are the union of all primaries, all parents the union of all parents |
| `TraceCorpus.ContributingExactly` | scripts/generate_traceability_matrix.py:416-424 | contributing parents are those some block brought in before they were primary, whatever comes later |
| `TraceCorpus.ListedBothWaysExactly` | scripts/generate_traceability_matrix.py:416-424 | when an id ends up in both parent lists |
| `TraceCorpus.RestatedBothWays` | scripts/generate_traceability_matrix.py:416-424 | two blocks after which one is |
| `TraceCorpus.FirstBlockNames` | scripts/generate_traceability_matrix.py:402-407 | level and source stay those of the id's first block |
| `TraceCorpus.OrderIrrelevant` | scripts/generate_traceability_matrix.py:402-426 | the same blocks in another order register the same ids, each with the same primary parents and the same parents |
| `TraceCorpus.ImplIsLast` | scripts/generate_traceability_matrix.py:414 | the implementation state is that of the last block of the id that has one; none if no block has one |
| `TraceCorpus.TestIsLast` | scripts/generate_traceability_matrix.py:415 | the test status likewise |
| `TraceCorpus.BlocksAccountedFor` | scripts/generate_traceability_matrix.py:402-413 | blocks equal distinct ids plus recorded duplicates |
| `TraceCorpus.DuplicateCount` | scripts/generate_traceability_matrix.py:412-413 | an id's duplicate counter is one less than its blocks |
| `TraceCorpus.DuplicatesListed` | scripts/generate_traceability_matrix.py:412-413 | every further block of an id is recorded, in order, with its source and the number of its occurrence |
| `TraceCorpus.ParentsStayTidy` | scripts/generate_traceability_matrix.py:416-424 | parent lists stay free of repeats through every merge |
| `ChildrenIndex.BuildChildrenIndex` | scripts/generate_traceability_matrix.py:581-594 | the loops build the specified index |
| `ChildrenIndex.IndexIsConverse` | scripts/generate_traceability_matrix.py:581-594 | a child stands under a parent's kind iff the parent is in its list of that kind, then once, and in natural order |
| `ChildrenIndex.EdgesConserved` | scripts/generate_traceability_matrix.py:581-594 | the index holds as many children as there are parent links, of either kind |
| `Coverage.LevelCoverage` | scripts/generate_traceability_matrix.py:736-782 | on levels 0 and 1 section 4's count and section 5's list add up to the level |
| `Coverage.ListUndecomposed` | scripts/generate_traceability_matrix.py:872-883 | section 5's loop lists the specified ids |
| `Coverage.ViewsAddUp` | scripts/generate_traceability_matrix.py:736-883 | decomposed plus undecomposed is the total, whatever the index |
| `Coverage.OpenExactly` | scripts/generate_traceability_matrix.py:872-883 | the open list holds, in order, the ids at exactly the positions without a child |
| `Coverage.HasChildMeans` | scripts/generate_traceability_matrix.py:737-742 | having a child in the index is being named as parent by a requirement of that level |
| `Coverage.CorpusFitsIndex` | scripts/generate_traceability_matrix.py:402-426 | what a corpus of tidy blocks holds has distinct ids and repeat-free parents |
| `Coverage.ParentCoverage` | scripts/generate_traceability_matrix.py:890-899 | linked plus unlinked is the level, and the requirements without such a parent are listed, exactly those and in order |
| `Coverage.HasParentMeans` | scripts/generate_traceability_matrix.py:890-899 | having a parent on a level is naming an id of it in either list |
| `Coverage.ImplementationRow` | scripts/generate_traceability_matrix.py:799-815 | every requirement is in a listed bucket, the columns are their tallies and add up to the level |
| `Coverage.TestRow` | scripts/generate_traceability_matrix.py:823-840 | likewise for the test status |
| `Coverage.ImplBucket` | scripts/generate_traceability_matrix.py:105-109 | a known state is its own bucket, no marker is the unset bucket and nothing else is, everything else is free text |
| `Coverage.TestBucket` | scripts/generate_traceability_matrix.py:111-120 | always a listed bucket; the unset one iff there is no marker |
| `Coverage.TestBucketExactly` | scripts/generate_traceability_matrix.py:111-120 | a known test state is the bucket iff the status is that state or leads with it, commas and semicolons after it, up to the first space |
| `Coverage.TallyCounts` | scripts/generate_traceability_matrix.py:799-815 | a column is the number of requirements in its bucket |

## Left out

- Provider calls, prompts, token budgets, audit logging, permissions and tenant scoping: they decide whether an operation runs, not what it does.
- `generate_draft`'s resolution of the caps from configuration: the caps are parameters.
- Which service call raises and why: `faults` is an arbitrary set of call numbers.
- Database keys are numbers handed out in increasing order, written in a draft as decimal numerals instead of UUIDs.
- Floating-point numbers in a provider answer, a draft payload or a manifest: JSON numbers are integers.
- The text `str()` gives for a list or a dictionary: all lists have one text and all dictionaries another, so two draft ids given as different lists are taken for the same id.
- Letters beyond ASCII in the `lower()` of the allocation view's text search, and digits beyond ASCII in ids.
- The sort key, tier name, level and link columns an allocation row copies without using them in a filter or counter.
- In-place mutation of one parsed JSON document: `JsonPointer.SetPointer` works on values. Nothing else holds the document while it is edited.
- JSON text: files are the documents they parse to, and writing is assumed to parse back to the same document.
- The text carriers of the version bump, the required-sources and independent-version checks.
- The regular expressions and Markdown rendering of the matrix script; component assignments and the architecture documents.
- The row lock on the artifact that `record` takes, and revision numbers: revisions are a sequence.
- Workflow transitions beyond the fact that they leave content, version and revisions alone.
