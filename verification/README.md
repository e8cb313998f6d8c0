# Verified model of the pos-cafe catalog and staff rules

pos-cafe is a point-of-sale backend in Go over PostgreSQL. This project models the parts of it
whose correctness depends on several operations at once, and proves what they promise:

- the modifier links of the catalog (a category provides a group, an item has a group of its own, an
  item excludes an inherited group), the commands that rewrite them, and any number of those
  commands running at the same time;
- availability batches and the order in which all catalog commands take row locks;
- exactly-once execution of a request, and the rule that an enabled Manager always remains;
- the sign-in rate limiter, the session lifecycle, and content-addressed images.

Imperative handlers are classes whose methods are proved against functions on values
(`LinkStore.Store`, `AvailabilityStore.Store`, `Sellable.GroupStore`, `Pricing.ItemCatalog`,
`Staff.Directory`, `Idempotency.Database`, `RateLimit.RateLimiter`, `Sessions.Middleware`,
`Media.MediaStore`). Concurrency is modelled by event-driven state machines (`Transactions`,
`AvailabilityRuns`, `Idempotency`, `StaffRuns`, `Sessions`, `Media`): a schedule is any sequence of events, each event is
one statement of one transaction, and every result is proved for every schedule.

`dafny verify dfyconfig.toml` checks the project.

## How the files fit together

| files | content |
|---|---|
| `Prelude`, `Ordering`, `Uuids`, `IdSets` | results, lexicographic order and canonical sorting, ids and their text form, id lists |
| `Links`, `LinkStore`, `LinkTheorems`, `Refusals`, `AuditUndo`, `RetiredLinks`, `ColumnRefinement` | the link tables, the serial commands, their theorems, which error each command is refused with (staff and availability included), taking commands back from their audit events, new links and retired rows, and the column-wise command against the row-wise ones |
| `Locks`, `Availability`, `AvailabilityStore`, `AvailabilityRuns`, `Sellable`, `Pricing` | the lock orders, the batch planner, batches at the same time, what can be sold, the one-pricing-form rule |
| `Transactions`, `LinkSafety`, `LinkRuns`, `ItemRaces`, `OwnerRaces`, `ExactWrites`, `Grants`, `SerialEffects`, `LostExclusions`, `ConcurrentRoles`, `LockOrder`, `Deadlocks`, `Progress`, `Schedules` | concurrent catalog transactions: safety, progress, what each commit stores, equivalence with the serial commands and their audit trail, lost exclusions, deadlocks |
| `Idempotency`, `Staff`, `StaffRuns` | exactly-once requests, the last-Manager rule |
| `RateLimit`, `Sessions`, `SessionRules`, `Media` | the limiter, sessions, images |

## Assumptions

- Each named query is the set operation its SQL text states, and each mutation is one transaction at
  READ COMMITTED: a statement sees what is committed when it runs, explicit row locks and advisory
  locks are held to the end, writes become visible together at commit, and an error rolls back.
- Hashing is injective (image names; request fingerprints are compared before hashing), and stored
  responses are read back as they were written.
- A lock id may collide: nothing proved about exactly-once requests depends on it.
- Beside availability batches (`AvailabilityRuns`) another command is anything that inserts rows and
  rewrites rows it has locked; a child row keeps its parent, and no row is deleted.
- Clock readings, generated ids, and where a run is cut short are parameters or events.

## Findings

- ADR-059 says direct and excluded never mean both at once. The replace commands keep that; the plain
  attach and exclude commands never compare the two tables
  (`LinkTheorems.CommandKeepsDisjointRoles`, `LinkTheorems.AttachThenExcludeMixesRoles`). Under any
  interleaving these two are the only ones that mix the roles (`ConcurrentRoles.RolesMixExactly`).
- `lockGroupsForSet` says it rejects retired groups a command would add. The item replacement hands it
  the union of the direct and the excluded set on both sides, so a retired group that an item excludes
  can be made direct, or the reverse (`RetiredLinks.CommandAddsOnlyActive`,
  `RetiredLinks.RetiredGroupCanBecomeDirect`).
- `ReplaceItemModifierGroups` reads the current exclusions before it locks their groups. If a group is
  dropped from the category and attached again in between, the command reports an exclusion that is
  not stored (`ItemRaces.ExclusionCanBeLost`). `LostExclusions.ExclusionLostExactly` says by events
  exactly when, `LostExclusions.ItemCommitIsSerialExactly` when the tables are still those of the serial
  command, and `LostExclusions.ItemAuditIsSerialExactly` when its audit event is.
- `ReplaceGroupAssignments` locks the group before the items and categories, the reverse of the commands
  that lock an item or category and then a group, and can deadlock with each of those six kinds: the two
  attaches, the exclusion, the two row-wise replacements and availability batches
  (`Deadlocks.ReplaceAssignmentsCanDeadlock`). It cannot deadlock with itself or with any other kind:
  commands of some kinds can reach a cycle of waits if and only if `ReplaceGroupAssignments` and one of
  the six are among them (`Deadlocks.DeadlockExactly`).
- The column-wise command touches retired owners when it removes their links, and reaches lists longer
  than the row-wise commands accept; `ColumnRefinement.ColumnRefinesRows` gives the exact condition
  under which the row-wise run succeeds.
- A sign-in that read the old PIN may insert its session after the revoke statement of a PIN reset and
  before its commit; that session survives (`Sessions.SessionCanSurviveReset`). A survivor exists
  exactly when a sign-in inserts in that span and nothing revokes its session
  (`Sessions.RevocationEndsExactly`).

## Model

| member | source | states |
|---|---|---|
| Uuids.TextOrderIsByteOrder | internal/catalog/domain_display.go:155-168 | Sorting ids by their text, as the Go code does, and by their bytes, as the queries do, is one order (canonical text form of section 4 of RFC 9562). |
| Uuids.TextInjective | internal/catalog/domain_display.go:155-168 | Different ids have different texts, so a sort by text is total. |
| Ordering.AscendingUnique | internal/catalog/domain_display.go:114-134 | A set of keyed values has one ascending list: any two strictly ascending lists of the same elements are equal. |
| IdSets.NormalizeIDSet | internal/catalog/domain_display.go:116-134 | A usable list comes back as the one ascending list of its ids; otherwise the error is for the list being over 500 ids or for the first id that is empty or repeated. |
| IdSets.NormalizedCanonical | internal/catalog/domain_display.go:114-134 | Permutations of one list normalise to the identical list, or are both refused, so they fingerprint alike. |
| IdSets.RefusedByPermutation | internal/catalog/domain_display.go:116-134 | Permutations are too long together; without an empty id both are refused for a repetition, and with no other repetition both for the empty id. |
| IdSets.DiffIDSets | internal/catalog/domain_display.go:137-152 | The added and removed lists are the ascending lists of the two set differences. |
| IdSets.UnionIDs | internal/catalog/domain_display.go:155-168 | The ascending duplicate-free list of the union, whatever the order or repeats of the inputs. |
| IdSets.ContainsID | internal/catalog/domain_display.go:171-178 | The scan finds an id exactly when it is in the list. |
| IdSets.EffectiveGroupIDs | internal/catalog/domain.go:172-205 | The unique ascending list of (inherited minus excluded) union direct, whatever the input order or repeats. |
| LinkStore.Store.LockGroupsForSet | internal/catalog/assignment_sets.go:13-34 | Refuses exactly a set with a missing group, or with a retired group that is being added. |
| LinkStore.Store.DeleteCategoryGroupExclusions | internal/catalog/assignment_sets.go:45-56 | Deletes and names exactly the exclusions of one group by items of one category. |
| LinkStore.Store.ReplaceItemModifierGroups | internal/catalog/assignment_sets.go:81-154 | Answer, tables and audit event of the item replacement on every input, each refusal included, as the set-level command `Links.ReplaceItem`. |
| LinkStore.Store.ApplyItemGroupChanges | internal/catalog/assignment_sets.go:170-192 | The delete and insert loops leave each relation less the removed and plus the added links of that item. |
| LinkStore.Store.ReplaceCategoryModifierGroups | internal/catalog/assignment_sets.go:205-264 | Answer, tables and audit of the category replacement, with the dropped exclusions in (group, item) order. |
| LinkStore.Store.RemoveCategoryGroups | internal/catalog/assignment_sets.go:235-244 | Each removed group leaves the category together with exactly its exclusions there, none listed twice. |
| LinkStore.RefKeyOrder | internal/catalog/assignment_sets.go:36-43 | The reference order compares groups first and items when groups are equal. |
| LinkStore.Store.LockOwners | internal/catalog/assignment_sets.go:289-308 | Refuses exactly a missing owner, or a retired owner that is being added. |
| LinkStore.Store.CheckAssignments | internal/catalog/assignment_sets.go:337-363 | The refusals of the column-wise command between its reads and its first write, in order. |
| LinkStore.Store.ReplaceGroupAssignments | internal/catalog/assignment_sets.go:311-386 | Answer, tables and audit of the column-wise replacement on every input. |
| LinkStore.Store.ApplyGroupAssignmentChanges | internal/catalog/assignment_sets.go:412-444 | Category removals with their exclusions, then category additions, item removals and item additions; the dropped exclusions come back sorted. |
| LinkStore.Store.AttachItemModifierGroup | internal/catalog/assignments.go:34-83 | Answer, tables and audit event of the plain attach to an item, each refusal included. |
| LinkStore.Store.AttachCategoryModifierGroup | internal/catalog/assignments.go:106-155 | The same for the plain attach to a category. |
| LinkStore.Store.ExcludeInheritedModifierGroup | internal/catalog/assignments.go:178-239 | The same for the plain exclude. |
| LinkTheorems.AttachItemOffers | internal/catalog/assignments.go:34-83 | A plain attach succeeds exactly for an active item, an active group and a new link; the item then offers that group besides what it offered, no other item is affected, and a second attach is a conflict. |
| LinkTheorems.AttachCategoryOffers | internal/catalog/assignments.go:106-155 | Attaching to a category succeeds exactly for active rows and a new link; every item of the category then offers the group, no other item is affected, and a second attach is a conflict. |
| LinkTheorems.ExcludeHides | internal/catalog/assignments.go:178-239 | Excluding succeeds exactly for active rows, a group the category provides and a new exclusion; the item then no longer offers the group unless it has it directly, nothing else changes, and a second exclude is a conflict. |
| LinkStore.Store.MoveItemCategory | internal/catalog/structure.go:36-87 | Moving an item deletes exactly the exclusions its new category gives no reason for. |
| LinkTheorems.CommandKeepsConsistent | internal/catalog/assignment_sets.go:229-244 | Every command keeps foreign keys and keeps every exclusion's group provided by the item's category. |
| LinkTheorems.RunKeepsConsistent | internal/catalog/assignment_sets.go:229-244 | So does every run of commands. |
| LinkTheorems.CommandAudited | internal/catalog/assignment_sets.go:134-152 | One command's audit event carries its whole effect on the tables; a command without an event changed nothing. |
| LinkTheorems.AuditRebuilds | internal/catalog/assignment_sets.go:233-262 | Folding the audit events of any run from empty tables rebuilds exactly the tables. |
| AuditUndo.CommandUndone | internal/catalog/structure.go:50-86 | From the tables after a command and its audit event alone the tables before it come back. |
| AuditUndo.RunUndone | internal/catalog/assignment_sets.go:134-152 | Taking back the audit events of any run, last first, leads from its end to its start. |
| Refusals.ListReasons | internal/catalog/domain_display.go:116-134 | A list is refused for more than 500 ids, or else for the first id that is empty or was there before. |
| Refusals.ListRefusals | internal/catalog/assignment_sets.go:81-89 | A replacement is refused for its lists exactly when one of them has more than 500 ids, an empty id or a repeated one. |
| Refusals.ReplaceItemRefusals | internal/catalog/assignment_sets.go:81-132 | Which error the item replacement is refused with: a group in both lists, then a missing or retired item, a group without a row, a retired group that it would add, an excluded group that is not inherited; and that it is accepted otherwise. |
| Refusals.ReplaceCategoryRefusals | internal/catalog/assignment_sets.go:205-232 | The same for the category replacement. |
| Refusals.ReplaceAssignmentsRefusals | internal/catalog/assignment_sets.go:311-363 | The same for the column-wise replacement: group, items, categories, and last an item it would add that excludes the group. |
| Refusals.AttachRefusals | internal/catalog/assignments.go:34-155 | Each error of the two plain attaches, exactly: a missing row, a retired row, a link that is there. |
| Refusals.ExcludeRefusals | internal/catalog/assignments.go:178-239 | Each error of the plain exclude, exactly. |
| Refusals.MoveRefusals | internal/catalog/structure.go:44-65 | Each error of moving an item, exactly; moving it to where it is is accepted. |
| Refusals.EntryRefusals | internal/catalog/availability_batch.go:148-190 | An availability entry is refused as missing exactly when its row or its parent is, and as retired exactly when either is. |
| Refusals.StaffRefusals | internal/auth/staff_set_enabled.go:28-76 | Each error of the staff commands, exactly and in order. |
| LinkTheorems.ReplaceItemExact | internal/catalog/assignment_sets.go:134-143 | The stored sets become exactly the desired ones, no other owner's links change, and a second identical run changes nothing and emits nothing. |
| LinkTheorems.ReplaceCategoryExact | internal/catalog/assignment_sets.go:233-262 | The same for a category, together with which exclusions go. |
| LinkTheorems.ReplaceAssignmentsExact | internal/catalog/assignment_sets.go:355-384 | The same for one group's items and categories; the group's exclusions go exactly for the items of the categories that lose it. |
| LinkTheorems.CommandKeepsDisjointRoles | internal/catalog/assignments.go:62-72 | A command keeps direct and excluded disjoint if and only if it is not an attach of an excluded group or an exclude of a direct one. |
| LinkTheorems.AttachThenExcludeMixesRoles | internal/catalog/assignments.go:206-228 | Six commands from empty tables make one group direct and excluded for one item. |
| ConcurrentRoles.EveryCommitKeepsApart | internal/catalog/assignments.go:62-72 | Under any interleaving, from disjoint roles, a commit keeps them disjoint if and only if it is not a plain attach of an excluded group or a plain exclude of a direct one. |
| ConcurrentRoles.ScheduleKeepsApartExactly | internal/catalog/assignments.go:206-228 | Every state of a schedule from disjoint roles has disjoint roles if and only if no commit of it is one of those. |
| ConcurrentRoles.RolesMixExactly | internal/catalog/assignments.go:206-228 | Commands of some kinds can lead from disjoint roles to mixed ones if and only if the plain attach to an item or the plain exclude is among them. |
| LinkTheorems.BackForEveryItem | internal/catalog/assignment_sets.go:235-249 | In any run, a group the category does not provide is effective for an item exactly when direct there, and whatever command provides it again makes it effective for every item of the category: dropped exclusions never return. |
| RetiredLinks.CommandAddsOnlyActive | internal/catalog/assignment_sets.go:13-34 | A command adds links between active rows only, if and only if it does not move a retired group to the other side of an item. |
| RetiredLinks.RetiredGroupCanBecomeDirect | internal/catalog/assignment_sets.go:120-122 | A reachable state in which replacing an item's groups gives a retired group a new direct link. |
| ColumnRefinement.ColumnRefinesRows | internal/catalog/assignment_sets.go:327-371 | The column-wise command ends where the row-wise commands end, over the affected owners in any order; the row-wise run succeeds if and only if every affected row is ready. |
| LinkSafety.CommitKeepsExclusions | internal/catalog/assignment_sets.go:120-132 | What a finished transaction installs keeps every exclusion provided. |
| LinkSafety.CommitKeepsOther | internal/catalog/assignment_sets.go:229-244 | A commit leaves what every other transaction has checked intact, because their row locks are disjoint. |
| LinkRuns.StepKeepsSafe | internal/catalog/assignments.go:198-221 | Every statement of every command keeps the locking facts the invariant rests on. |
| LinkRuns.EveryScheduleKeepsExclusionsProvided | internal/catalog/assignment_sets.go:415-426 | Any number of interleaved attach, exclude, replace, move, create, retire, availability and single-row commands, cut short anywhere, keep every exclusion's group provided. |
| Progress.EveryScheduleKeepsConsistent | internal/catalog/assignment_sets.go:415-426 | And every schedule keeps the foreign keys. |
| Progress.EveryRefusalIsSerial | internal/catalog/assignment_sets.go:13-34 | In every schedule a command that ends without effect is one the serial command refuses at that moment. |
| Progress.StepLeadsOn | internal/catalog/availability_batch.go:105-146 | A step of a transaction that is not done and waits for no lock ends it or brings it further, by phase and statements left. |
| Progress.RunsAlone | internal/catalog/assignment_sets.go:81-154 | A command that runs alone in the concurrent machine ends with the tables of the serial command if that is accepted, and with the tables as they were if it is refused. |
| ItemRaces.ReplacementStores | internal/catalog/assignment_sets.go:112-143 | Under any interleaving a committed item replacement stores exactly the direct set asked for, and the exclusions asked for less those it had read as stored that are gone by now; nobody else's links change. |
| LostExclusions.ExclusionLostExactly | internal/catalog/assignment_sets.go:112-122 | A requested exclusion that was stored when read is missing after the commit if and only if some commit deleted it between that read and the taking of its group's lock; the stored exclusions are exactly the requested ones if and only if that happened to none. |
| LostExclusions.UndisturbedStoresAll | internal/catalog/assignment_sets.go:112-122 | Nothing is lost while no replacement that takes a requested group from the item's category commits before that group is locked. |
| LostExclusions.ItemCommitIsSerialExactly | internal/catalog/assignment_sets.go:112-143 | A committing item replacement is the serial command, accepted and with the same tables, if and only if between its read and the group's lock nobody deleted an exclusion it asked for, or one that let it make a group direct that is retired by now. |
| LostExclusions.ItemAuditIsSerialExactly | internal/catalog/assignment_sets.go:134-152 | Its audit event, and so the whole outcome, is that of the serial command if and only if no exclusion of the item was lost, asked for or not. |
| LostExclusions.ItemAddsOnlyActiveExactly | internal/catalog/assignment_sets.go:120-122 | Its new links are between active rows if and only if it moves no retired group to the other side, told by the tables at the commit and the exclusions lost before it. |
| ItemRaces.ExclusionCanBeLost | internal/catalog/assignment_sets.go:112-120 | A schedule in which the replacement asks for an exclusion, passes every check, and leaves the item without it. |
| OwnerRaces.CategoryReplacementStores | internal/catalog/assignment_sets.go:217-249 | Under any interleaving a committed category replacement stores exactly the groups asked for, with no exclusion of another group left in the category. |
| OwnerRaces.AssignmentReplacementStores | internal/catalog/assignment_sets.go:337-371 | Under any interleaving a committed column-wise replacement stores exactly the owners asked for, and makes no newly attached item excluded. |
| SerialEffects.AloneIsApply | internal/catalog/assignment_sets.go:81-154 | The serial outcome a concurrent commit is compared with is that of the command, refusals and audit event included. |
| SerialEffects.EveryCommitIsSerial | internal/catalog/assignment_sets.go:217-262 | In every schedule every commit but an item replacement's is the serial command at that moment: accepted there, with the same tables and the same audit event. |
| SerialEffects.EveryScheduleIsSerial | internal/catalog/assignment_sets.go:112-143 | A schedule whose item replacements lose nothing is a serial run of its commands in commit order, each of them accepted. |
| SerialEffects.ConcurrentAuditRebuilds | internal/catalog/assignment_sets.go:233-262 | Under any interleaving, lost exclusions included, folding the audit events in commit order rebuilds the tables. |
| SerialEffects.EveryCommitAddsOnlyActive | internal/catalog/assignment_sets.go:13-34 | In every schedule a commit adds links between active rows only, if and only if it is not an item replacement that moves a retired group to the other side. |
| Grants.CommitKeepsGranted | internal/catalog/assignments.go:198-221 | What a command was let through by (active rows, provided links, links that are new) still holds after any other transaction commits. |
| ExactWrites.HoldsWhatItChanges | internal/catalog/structure.go:50-70 | Whoever deletes an exclusion holds two of its item, its group and the item's category, and whoever moves an item holds its old category too. |
| Locks.RowOrder | internal/catalog/assignment_sets.go:13-34 | Rows of one table taken in id order are taken in the global lock order. |
| Locks.ChildOrder | internal/catalog/locking.go:10-57 | A parent row comes before its children, and children in id order. |
| LockOrder.NextInOrder | internal/catalog/assignment_sets.go:103-120 | Whatever a command locks next is held already or above everything it holds, in the global order; for the column-wise command it is above everything held in the order with groups first. |
| LockOrder.WaitCycleNeedsReplaceAssignments | internal/catalog/availability_batch.go:105-146 | In every reachable state, every cycle of waits goes through a column-wise replacement. |
| LockOrder.WaitCycleNeedsMixed | internal/catalog/assignment_sets.go:120-122 | And every cycle goes through a transaction that is not column-wise and asks for a group or option while it holds an item, size or category. |
| LockOrder.SomethingCanGoOn | internal/catalog/availability_batch.go:105-146 | While anything runs, and either no column-wise replacement does or nothing asks for a group on top of a row of another table, some transaction is not waiting. |
| Deadlocks.ReplaceAssignmentsCanDeadlock | internal/catalog/assignment_sets.go:327-353 | For each of the six kinds of command that lock an item or category and then a group, a schedule of one of it and one column-wise replacement in which each waits for the other. |
| Deadlocks.DeadlockExactly | internal/catalog/assignment_sets.go:327-353 | Commands of some kinds can reach a cycle of waits if and only if the column-wise replacement is among them and so is one of those six; the same for a state in which everything waits. |
| Availability.ChangeKeyOrder | internal/catalog/domain.go:278-284 | The sort key of a batch compares kinds, then id texts. |
| AvailabilityStore.SortedReportsInOrder | internal/catalog/domain.go:236-284 | In the answer to a batch every item comes before every option and every option before every size, and ids ascend within a kind, in the results and in the audit list. |
| AvailabilityStore.NormalizeAvailabilityChanges | internal/catalog/domain.go:252-286 | A usable batch comes back in (kind, id) order; otherwise the error is the one of the first bad entry. |
| AvailabilityStore.BatchCanonical | internal/catalog/domain.go:252-286 | Permutations of one batch get the same answer when it is a normalised batch or a size error, and are both refused otherwise. |
| AvailabilityStore.Store.PlanAvailabilityLocks | internal/catalog/availability_batch.go:105-146 | The plan has one step for each entry, in the global lock order; a missing child ends the batch. |
| AvailabilityStore.PlanUnique | internal/catalog/availability_batch.go:105-146 | A batch has one plan, whatever order its entries came in. |
| Availability.PlanOrdered | internal/catalog/availability_batch.go:105-146 | A plan asks for each row held already or above every row held: parents before children, trees by id. |
| AvailabilityStore.PrefixOrdered | internal/catalog/availability_batch.go:40-91 | The locks a batch asks for, up to wherever it stops, are in the global order. |
| AvailabilityStore.Store.LockSizeWithParentCheck | internal/catalog/locking.go:10-33 | Locks the item and then the size, and refuses a missing or retired one. |
| AvailabilityStore.Store.LockModifierOptionWithParentCheck | internal/catalog/locking.go:35-57 | Locks the group and then the option, and refuses a missing or retired one. |
| AvailabilityStore.Store.ApplyAvailabilityChange | internal/catalog/availability_batch.go:148-190 | One entry of a batch does what the single command does, and reports the old flag. |
| AvailabilityStore.Store.SetAvailability | internal/catalog/availability.go:72-113 | The single commands: the flag is set, nothing else changes, and an event is due exactly when it changed. |
| AvailabilityStore.Store.SetAvailabilityBatch | internal/catalog/availability_batch.go:40-91 | All or nothing: on success every named flag is set and nothing else; results and audit list are exact and in order, items before options before sizes and by id within a kind; on any error the menu is as before. |
| Availability.OneByOneIsUpdate | internal/catalog/availability.go:72-113 | Single commands over distinct targets succeed exactly when each would alone, and end in the batch's menu. |
| AvailabilityStore.AuditedExactly | internal/catalog/availability_batch.go:66-80 | The audit list has an entry for a row exactly when the batch gives the row another flag than is stored, with both flags. |
| AvailabilityStore.BatchSetsRows | internal/catalog/availability_batch.go:148-190 | A batch gives each row it names the flag asked for and changes nothing else of any row. |
| AvailabilityStore.BatchIsOneByOne | internal/catalog/availability_batch.go:53-90 | A batch equals its entries one by one with the single commands, in any order, successes and refusals alike. |
| AvailabilityRuns.EveryBatchIsSerial | internal/catalog/availability_batch.go:53-90 | Among any number of batches and other commands on the same rows, a committing batch is the serial batch on the menu it commits to: nothing is refused there, exactly the named flags are set, and its answer and audit list are exact. |
| AvailabilityRuns.EveryFailureIsSerial | internal/catalog/availability_batch.go:148-190 | A batch that fails gets the error the serial batch gets on the menu it fails on. |
| AvailabilityRuns.WaitsForOthers | internal/catalog/locking.go:10-57 | A batch waits only when it is finished or somebody else holds a row of the entry it is at. |
| Sellable.SoldExactly | internal/catalog/domain.go:207-233 | An item is sold if and only if it is on and not retired, has a price or an orderable size but not both, and each of its unretired groups has as many orderable options as must be chosen. |
| Sellable.OffIsNotSold | internal/catalog/domain.go:212-214 | A batch that turns an item off unsells it. |
| Sellable.TurningOffUnsells | internal/catalog/domain.go:207-233 | Turning sizes and options off unsells a sold item exactly when it has no price and no orderable size is left, or one of its groups is left with too few orderable options. |
| Sellable.TurningOnSellable | internal/catalog/domain.go:207-233 | Turning entities on keeps an item sellable if and only if it does not give a priced item an orderable size. |
| Sellable.TurningOnKeepsSold | internal/catalog/domain.go:207-233 | With one pricing form per item, turning entities on never makes a sellable item unsellable. |
| Sellable.GroupStore.ValidateGroupDefaults | internal/catalog/assignments.go:320-361 | Accepts exactly defaults that fit the bounds, do not repeat, and are active available options of the group. |
| Sellable.GroupStore.SetModifierGroupDefaults | internal/catalog/assignments.go:278-303 | Replaces the defaults wholesale exactly when the group is active and they are good; otherwise nothing changes. |
| Sellable.GoodDefaultsSatisfyMinimum | internal/catalog/assignments.go:323-361 | With good defaults the group has at least its minimum of orderable options, so it is not why an item is unsellable. |
| Pricing.ItemCatalog.ValidateNewItem | internal/catalog/item_create.go:124-157 | Accepts exactly items with one pricing form, a name, valid prices and distinct size names. |
| Pricing.ItemCatalog.CreateItem | internal/catalog/item_create.go:50-100 | A good item is stored with all its sizes; a bad one leaves the menu alone. |
| Pricing.ItemCatalog.AddSize | internal/catalog/structure.go:123-142 | A size is added only to an active item that has no price of its own. |
| Pricing.CreatedIsSold | internal/catalog/item_create.go:50-100 | A new item can be sold at once, exactly unless one of its groups asks for more options than can be ordered. |
| Pricing.RunKeepsOneForm | internal/catalog/item_create.go:124-131 | In every reachable menu an item has a price exactly when it has no size. |
| Pricing.TurningOnNeverUnsells | internal/catalog/availability_batch.go:148-190 | So in every reachable menu turning entities on never makes a sellable item unsellable. |
| Idempotency.FingerprintInjective | internal/auth/idempotency.go:23-28 | Different actions or payloads never have the same bytes to hash. |
| Idempotency.AloneIsAttempt | internal/auth/idempotency.go:36-100 | The serial procedure, which `Execute` is proved against, is a client of the concurrent machine that nothing interrupts: same reply, key table and effects, on replay, conflict, failure and success; and it changes the database exactly when it adds an effect, to what the operation makes of it. |
| Idempotency.Database.Execute | internal/auth/idempotency.go:36-106 | Answers as `Attempt`; a stored key or a refused operation leaves everything as it was, and otherwise the operation has run once on the database and its key is stored. |
| Idempotency.ServedOnce | internal/auth/idempotency.go:61-100 | After any calls and retries, one after the other, the database is as if the one operation that took effect for each key had run once, in the order they first succeeded, and the key table has exactly their results. |
| Idempotency.OncePerKey | internal/auth/idempotency.go:61-82 | In such a run each key takes effect at most once. |
| Idempotency.RepliesTellEffects | internal/auth/idempotency.go:61-100 | Each reply is the result of the call if it takes effect, otherwise the result of the call of that key that did, a conflict if that was another request, or a failure if there is none. |
| Idempotency.ExactlyOnce | internal/auth/idempotency.go:49-106 | For any clients, interleaving, crashes and lock-id function, a key has at most one committed effect, and is stored exactly when it has one, with that effect's result. |
| Idempotency.RepliesAgree | internal/auth/idempotency.go:61-80 | All answers ever given for one key are one answer to one request, and a conflict means another request. |
| Idempotency.StoredOnceForAll | internal/auth/idempotency.go:61-100 | Once stored, a key never gets another effect, and every later answer is the stored one. |
| Idempotency.StoredKeyIsNotRun | internal/auth/idempotency.go:61-82 | No client of a stored key can run, insert or commit the operation. |
| Idempotency.UncommittedLeavesNothing | internal/auth/idempotency.go:82-100 | Cut short before its commit, be it running, finished or with its key row inserted, an attempt leaves neither key nor effect, and a call of the same key that follows at once gets to run the operation. |
| Staff.AcceptedExactly | internal/auth/staff_set_enabled.go:45-84 | Enabling, disabling and changing roles are accepted exactly when the member is there and as expected and an active Manager, if there is one, remains; a bootstrap exactly when nobody is a Manager, after which its member is the only one and every further bootstrap is refused. |
| Staff.Directory.ReplaceRoles | internal/auth/staff_replace_roles.go:59-70 | Clearing and re-adding in a loop leaves exactly the requested set, repeats ignored. |
| Staff.Directory.SetRoles | internal/auth/staff_update.go:46-90 | Role replacement, alone or with a profile update, with its refusals. |
| Staff.Directory.Create | internal/auth/staff_create.go:43-67 | A new member with exactly the requested roles. |
| Staff.RefusedExactlyForTheLastManager | internal/auth/manager_invariant.go:15-27 | The last-Manager refusal is given if and only if the change would take the only active Manager. |
| Staff.CommandKeepsManager | internal/auth/staff_set_enabled.go:62-72 | No command run alone takes the last active Manager. |
| StaffRuns.EveryCommitIsSerial | internal/auth/staff_replace_roles.go:38-71 | Under any interleaving, every committed disable, role change, creation and bootstrap is the command run alone on the state it commits to. |
| StaffRuns.BootstrapIsAlone | internal/auth/bootstrap_manager.go:38-53 | While a bootstrap is past its count, nobody is a Manager, no staff request is past its role check and no other bootstrap has its lock, although creations and role changes do not take that lock. |
| StaffRuns.AdmittedUnderManager | internal/auth/middleware.go:74-129 | Whatever staff there was at the start, a staff request past its role check, which reads the session and the roles separately, runs while there is an active Manager, to its end. |
| StaffRuns.LockedOutExactly | internal/auth/routes.go:96-105 | If all Managers are disabled at the start, no schedule changes the staff: the bootstrap counts them and nobody passes the role check; from any other staff no schedule leads there. |
| StaffRuns.EveryRefusalIsSerial | internal/auth/staff_set_enabled.go:46-76 | In every schedule a staff command that ends without a commit is one that is refused when run alone at that moment, or its actor fails the role check. |
| StaffRuns.StepsUnlessWaiting | internal/auth/staff_set_enabled.go:46-48 | A request stands still only when it is done or another one holds its advisory lock. |
| StaffRuns.OneCounterAtATime | internal/auth/staff_set_enabled.go:46-48 | Two transactions never both have their Manager counts behind them. |
| StaffRuns.ManagerForEver | internal/auth/manager_invariant.go:12-27 | Once a committed state has an active Manager, every later one has, across crashes. |
| StaffRuns.BootstrapOnce | internal/auth/bootstrap_manager.go:39-53 | At most one bootstrap succeeds in any run. |
| RateLimit.Compact | internal/auth/ratelimit.go:31-37 | The in-place compaction over the list's own array keeps exactly the attempts after the cutoff, in order. |
| RateLimit.RateLimiter.Allow | internal/auth/ratelimit.go:25-46 | The answer and the stored lists of one attempt. |
| RateLimit.RateLimiter.Reset | internal/auth/ratelimit.go:48-52 | Forgets one key and nothing else. |
| RateLimit.RateLimiter.EvictStale | internal/auth/ratelimit.go:72-91 | The sweep prunes every list and drops exactly the keys with nothing left. |
| RateLimit.LimiterIsUnprunedHistory | internal/auth/ratelimit.go:25-52 | With clock readings that never go back, the limiter answers exactly as a history that is never pruned. |
| RateLimit.SweepChangesNoAnswer | internal/auth/ratelimit.go:72-91 | A background sweep at any moment changes no answer. |
| RateLimit.AdmittedExactly | internal/auth/ratelimit.go:25-46 | With clock readings that never go back, an attempt is let through if and only if fewer than the maximum of those let through for its key since its last reset are less than a window old. |
| RateLimit.NoSpanOverMax | internal/auth/ratelimit.go:39-45 | In any run with clock readings that never go back, the times at which the limiter admitted a key since its last reset number at most the maximum in any window-long span. |
| RateLimit.ListsStayShort | internal/auth/ratelimit.go:39-45 | No stored list is ever longer than the maximum. |
| Sessions.Middleware.RequireAuth | internal/auth/middleware.go:74-97 | Accepts exactly a known, unrevoked, unexpired, active session of an enabled member that is not idle, and locks an idle one. |
| SessionRules.AcceptedExactly | internal/auth/middleware.go:74-97 | A session is accepted if and only if it is known, unrevoked, unexpired, of an enabled member, active, and used less than 15 minutes ago in the preparation space or less than 5 anywhere else; an active one that is idle is locked by the call, and nothing else changes. |
| SessionRules.IdleIsLockedOut | internal/auth/domain.go:138-143 | A session without activity, workspace or unlock for that long is not accepted, and once a request touched it, it stays out until an unlock commits. |
| SessionRules.SignInBegins | internal/auth/sign_in.go:48-85 | A sign-in begins exactly with the PIN of an enabled member. |
| SessionRules.SignInStarts | internal/auth/sign_in.go:48-85 | A sign-in starts an active session without workspace that expires after twelve hours and is accepted for the next five minutes while its member is enabled. |
| SessionRules.SignedOutOrLocked | internal/auth/middleware.go:74-97 | A session that signed out is never accepted again, and a locked one not before an unlock commits. |
| Sessions.NeverAcceptedAfterExpiry | internal/auth/middleware.go:74-76 | No session is accepted after the expiry it was given, whatever happens. |
| Sessions.CutNeverAccepted | internal/auth/staff_reset_pin.go:52-61 | A session that existed when the revoke statement of a committed reset or disable began is never accepted again. |
| SessionRules.StatementEffects | internal/auth/record_activity.go:31-46 | Activity, a workspace and an enable change what they name in one row, and nothing else. |
| SessionRules.UnlockAlone | internal/auth/unlock_session.go:34-75 | An unlock that nothing interrupts goes through with the right PIN of a session in force, and does nothing with another. |
| SessionRules.RevocationBegins | internal/auth/staff_reset_pin.go:44-61 | A reset begins for any member, a disable for an enabled one. |
| SessionRules.RevocationAlone | internal/auth/staff_reset_pin.go:44-61 | A reset or disable that nothing interrupts changes the member's PIN or flag and revokes all of the member's sessions and no other. |
| Sessions.RevocationEndsExactly | internal/auth/staff_set_enabled.go:86-91 | At the commit of a reset or a disable all of the member's sessions are revoked if and only if each one a sign-in of the member inserted between the start of the revoke statement and the commit is revoked already. |
| Sessions.NoSignInNoSurvivor | internal/auth/staff_reset_pin.go:52-61 | If no sign-in of the member inserts a session in that span, none of the member's sessions is ever accepted again. |
| Sessions.SessionCanSurviveReset | internal/auth/sign_in.go:48-85 | A sign-in with the old PIN can leave a session that is accepted after the reset commits. |
| Sessions.OnlyUnlockActivates | internal/auth/unlock_session.go:43-75 | A locked session becomes active only at the commit of an unlock that had found it usable and matched its owner's PIN. |
| SessionRules.CommittedUnlockActivates | internal/auth/unlock_session.go:51-75 | Under any interleaving an unlock that commits leaves its session unrevoked and active with the time of the unlock, and nothing else changed. |
| SessionRules.DisableHolds | internal/auth/staff_set_enabled.go:78-91 | After a committed disable and until an enable, no sign-in or unlock of the member begins and none of the sessions is accepted. |
| Media.MediaStore.Save | internal/catalog/media.go:56-98 | The refusals of a save; a failed save leaves no file, a good one adds exactly the final file. |
| Media.UploadAlone | internal/catalog/media.go:56-98 | An upload that nothing interrupts stores a good image under its key and shows it for the item, only shows one that is stored, and changes nothing for a bad one. |
| Media.ReferencesHoldWholeImages | internal/catalog/image.go:38-55 | Across crashes and concurrent uploads every final file is a whole image with its name's hash, and every committed reference shows the bytes uploaded for the item. |

## Left out

- Sales, refunds, checks, preparation and shifts: no rule of theirs is used here.
- Authority reload, denial audit and approval in `internal/platform/command/mutation.go`: a mutation is one transaction that begins with its request's advisory lock.
- Renaming, repricing and description commands: only their row lock (`OneRow`) is modelled. Retiring and creating categories, groups and items are modelled in full as to existence, the retired flag and the links.
- The wait of an insert for an uncommitted insert of the same id: the loser fails at its commit instead. Ids are generated, so no two creations share one in practice.
- Implicit foreign-key share locks and approver row locks: the lock order is about the explicit row and advisory locks.
- Deadlock detection by the database: a victim is an abort event.
- Staff names, login codes, PIN hashes and the PIN check before an administration command; a login code already in use is an abort event.
- Names, badges, icons, descriptions and display orders: each is settled by reading one branch.
- Selection-rule changes: `SetSelectionRule` is not modelled, so the default-options result is about the moment after the defaults were set.
- HTTP binding, cookies, error mapping and the SPA: plumbing.
- Revocation, expiry and locking of the session a staff request comes with: `StaffRuns` keeps the enabled flag and the role check, and any other refusal is an abort event; `Sessions` has the rest.
- Durability of files beyond a process crash: `Save` does not sync.
- Growth of a slice's backing array in the rate limiter: a key's list is copied into an array of its own length before it is compacted.
- Access to a session after it was accepted: a request that is already past the check may still act after a revocation.
- Pricing.ItemCatalog.CreateItem: does not model the category row lock and its retirement check, which are in `Transactions`, nor the unique index on a category's item names; a clash is one more refusal that leaves the menu alone.
- Pricing.ItemCatalog.AddSize: does not model the unique index on an item's size names; a clash is one more refusal that leaves the menu alone.
- IdSets.RefusedByPermutation: which error a permutation gets when a list has both an empty id and a repeated one depends on the order, because the scan stops at the first.
