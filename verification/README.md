# Verification of the omnicore domain kernel

A Dafny model of the kernel of omnicore, a Go framework for domain-driven services, and proofs of
what it promises. The core is what happens to an entity between load and write: an aggregate root
tracks what was done to its child collections, rules written by the application validate it, and a
`Get*` call either seals it for one kind of write or returns notifications. Smaller parts
of the framework, each with a theorem of its own, stand beside it.

| part | files |
|---|---|
| change tracker of child collections | `AggregateStatus`, `Tracker`, `TrackerIdentity`, `TrackerReplace`, `TrackerReplay`, `TrackerRows`, `AggregateItems`, `AggregateRoot`, `AggregateLaws`, `RootReplay` |
| the slices behind the tracker, and snapshots of them | `Snapshots`, `RootRuns` |
| rules, validation pass, sealing | `Rules`, `RuleTexts`, `Validation`, `Barrier`, `Losses`, `Entity`, `EntityLaws`, `VerdictLaws`, `NestedPasses`, `EntityChildren`, `BaseEntity` |
| field references | `FieldAtlas`, `FieldLaws` |
| notifications and wire names | `Notifications`, `ChildIndex`, `WireNames`, `Decimals`, `Strings` |
| token cache under concurrency | `TokenCache` |
| client address behind proxies | `ClientIP` |
| view order and boot rebuild | `ViewOrder`, `BootRebuild`, `BootLaws` |
| masking of connection strings | `Redact` |
| the two audit label renderers | `AuditRender` |

The tracker, the entity, the notification contexts, the field atlas and the slices behind a
snapshot are classes whose methods update their fields as the Go code does. Each method is proved
equal to a function on values, and the laws are proved about the functions: over every run, every
history, every interleaving. A rule body is a term of the datatype `Rule`, so statements about "every
rule program" quantify over all of them; StopIfInvalid, the mode gates, CompleteAsArchive, mutation
of the entity, calls on its tracker, validations of the same entity from inside the body and panics
are among its constructors. A panic is a result, not an excluded case. Two bodies have the same text
when they differ only in what they test and say; a condition on texts is exact when each text that
fails it has a body that shows why.

## Findings

Where code and documentation differ, the model follows the code. Each of these is proved, with the
exact condition under which the documented behaviour holds.

- The comments say that adding over an active entry is refused. When the first entry of the identity
  was left CHANGED, or is a removed one in front of the active one, it is overwritten instead,
  without a notification (`AddRefusedIff`).
- "At most one active child per identity" can be broken: remove a row, rename another onto it, add
  the first again (`RenameOntoRemovedThenReAddBreaksContract`; exact condition in
  `RunAlwaysUniqueIff` and `RunAlwaysUniqueEntriesIff`).
- A request made by CompleteAsArchive outlives a failed pass and an IsValid call and is folded into
  the next update (`StaleRequestArchives`; exact condition in `PendingIff`).
- StopIfInvalid can change the verdict: a body that clears its own context behind the barrier is
  rejected with the stop and accepted without it (`ClearingBehindTheBarrierFlips`; exact condition
  in `VerdictFlipsIff`).
- The report of a stopped pass is not always the full one with messages left out. It fails in two
  ways: rules behind the barrier move the id or the modes (`MovingTheIdBreaksSubsequence`; exact
  condition in `StoppedReportIff`), or rules or a child clear the context behind a stop
  (`ClearingRulesLoseTheReport`, `ClearingChildLosesTheReport`; which texts can, exactly, in
  `LossIff`).
- A message keeps every later Get* from sealing until the context is emptied
  (`MessageStaysUntilCleared`), and rules of the application can empty it (`ClearingRulesSeal`).
- An accepted update, delete, archive or unarchive can have no id: the gates report before the
  children run, and a child that clears its scope empties the whole context, so the seal
  dereferences nil (`ClearingChildMeetsNoId`; exact condition in `NoIdIff`).
- A pass nested in a body closes the rules window of the body around it; asking for the archive
  behind it panics (`InnerCheckShutsTheWindow`; exact condition for a run in `AskIsHeardIff`, for a
  text in `AskIsReadIff`).
- The persister addresses child rows by the id their item carries. A change whose replacement
  carries another id than its target is accepted by the tracker, and the write then fails or leaves
  other rows than the tracker shows (`ChangeUnderAnotherIdIsLost`; exact condition in `StoresCurrentIff`).
- Views with no dependency between them do not keep their order (`UnrelatedViewsSwap`; exact
  condition, pair by pair, in `StableIff`), and a cycle does not come back as declared
  (`CycleTurnsRound`; exact condition in `UnchangedIff`).
- With fail mode open the token cache stores swallowed transport errors, although the comment says
  they are never stored (`FailOpenRemembersErrors`).
- `itoa` renders the smallest 64-bit value as "-" (`RenderedDenotesIff`).
- The index of an inline child check is the one the boundary pass will use exactly when nothing
  active stands at or behind the child's place (`InlineIndexMatchesIff`).
- A URI with '/', '?' or '#' in its password does not come out as its masked form (`UriMaskedIff`).
  Nor does a driver string when a "://" follows its credentials or its password opens with "//"
  (`DriverMaskedIff`, `DriverHiddenIff`), nor without a database part when its password holds a '/'
  (`DriverWithoutDatabase`).
- The two audit renderers differ on labels that translate to the empty string (`EventCommutesIff`).

## Model

| member | source | states |
|---|---|---|
| `AggregateRoots.AggregateRoot.constructor` | domain/aggregate_root.go:11-23 | a new root tracks nothing and has said nothing |
| `AggregateRoots.AggregateRoot.AggregateConstructor` | domain/aggregate_root.go:30-43 | the loading loop files each present child, in order, under its type as loaded and skips nil ones |
| `AggregateRoots.AggregateRoot.AddAggregateItem` | domain/aggregate_root.go:48-96 | the scan and its four status cases, on the buffers: exactly the effect of `Tracker.Add` on the list of the child's type, every other list left alone, EntityAlreadyAdded said exactly when refused |
| `AggregateRoots.AggregateRoot.ChangeAggregateItem` | domain/aggregate_root.go:115-155 | exactly the effect of `Tracker.Change`, in place, with DoesNotExist before AlreadyAdded when both apply |
| `AggregateRoots.AggregateRoot.FindTarget` | domain/aggregate_root.go:122-138 | the one-pass search finds the first entry of the original and whether an active one beside it holds the replacement's identity |
| `AggregateRoots.AggregateRoot.RemoveAggregateItem` | domain/aggregate_root.go:158-181 | the scan marks the first active match, and says DoesNotExist for nil or when there is none |
| `AggregateRoots.AggregateRoot.ClearAggregateItemsOfType` | domain/aggregate_root.go:183-192 | every entry of that one type ends removed |
| `AggregateRoots.AggregateRoot.AddAggregateChild` | domain/aggregate_root.go:428-488 | the guarded add: nil and undeclared children are turned down, declared ones reach the tracker |
| `AggregateRoots.AggregateRoot.Reject` | domain/aggregate_root.go:454-466 | a nil or undeclared child leaves one message, naming the type when there is one, and no other trace |
| `AggregateRoots.AggregateRoot.ChangeAggregateChild` | domain/aggregate_root.go:490-504 | either side undeclared turns the change down; the original is checked first |
| `AggregateRoots.AggregateRoot.RemoveAggregateChild` | domain/aggregate_root.go:506-513 | the guarded remove |
| `AggregateRoots.AggregateRoot.ReplaceAggregateChildrenOf` | domain/aggregate_root.go:526-533 | clear, then guarded adds in order, equals `ReplaceChildren` |
| `TrackerIdentity.AddKeepsUniqueActiveIff` | domain/aggregate_root.go:48-96 | an add keeps "one active child per identity" exactly when its first match is not a removed entry in front of a later active one |
| `TrackerIdentity.ChangeKeepsUniqueActive` | domain/aggregate_root.go:115-155 | a change always keeps it |
| `TrackerIdentity.RemoveKeepsUniqueActive` | domain/aggregate_root.go:158-181 | a remove always keeps it |
| `TrackerIdentity.ReplaceMakesUniqueActive` | domain/aggregate_root.go:515-533 | a replacement establishes it from any list, loaded duplicates included |
| `TrackerIdentity.ApplyKeepsUniqueActiveIff` | domain/aggregate_root.go:48-192 | the same over all five calls in one statement |
| `TrackerIdentity.RunAlwaysUniqueIff` | domain/aggregate_vo.go:87-93 | over every run from a unique state the contract holds throughout if and only if no add of the run wakes a duplicate |
| `TrackerIdentity.ChangeKeepsUniqueEntriesIff` | domain/aggregate_root.go:115-155 | a change keeps one entry per identity exactly when it does not take the identity of a removed entry |
| `TrackerIdentity.ApplyKeepsUniqueEntriesIff` | domain/aggregate_root.go:48-192 | no other call can break that |
| `TrackerIdentity.RunAlwaysUniqueEntriesIff` | domain/aggregate_root.go:48-192 | over every run it stays so if and only if no change takes the identity of a removed entry |
| `TrackerIdentity.RunKeepsUniqueEntries` | domain/aggregate_vo.go:87-93 | under that condition the contract holds in every state of the run |
| `TrackerIdentity.RenameOntoRemovedThenReAddBreaksContract` | domain/aggregate_root.go:60-88 | a three-call run after which two active children share an identity: remove a, rename b onto a, add a |
| `TrackerIdentity.AddRefusedIff` | domain/aggregate_root.go:60-88 | on any list, loaded duplicates included: with an active entry of its identity an add is accepted if and only if the first entry of the identity is CHANGED, or is REMOVED in front of a later active one, and then it overwrites that first entry; with none active nothing is refused |
| `TrackerIdentity.ChangeThenAdd` | domain/aggregate_root.go:60-88 | the identity an accepted change took can be added over once: the next add of it is accepted, the one behind that refused |
| `TrackerReplace.ReplaceIsResult` | domain/aggregate_root.go:48-96 | clear followed by adds equals an independent description of the result: tracked first matches rewritten in place, everything else removed, new identities appended once each in first-sent order |
| `TrackerReplace.ReplaceKeepsExactlyTheSent` | domain/aggregate_root.go:515-533 | from any list: an identity has an active entry exactly when it was sent, and never two |
| `TrackerReplace.ReplaceFirstSentWins` | domain/aggregate_root.go:78-86 | that entry is the first-sent value of the identity, under the tracked row id when there is one to keep |
| `TrackerReplace.ReplaceTwice` | domain/aggregate_root.go:515-533 | replacing twice equals replacing once |
| `TrackerReplace.ReplaceOnFreshLoad` | domain/aggregate_status.go:43-68 | on a duplicate-free load the derived operations are exactly update = sent again, delete = not sent, insert = new |
| `TrackerReplay.RunTracks` | domain/aggregate_root.go:48-192 | over every run from a load: loaded entries stay at their positions with original CONSTRUCTOR, later ones are ADDED, and an untouched entry still holds its row |
| `TrackerReplay.RunKeepsOrigins` | domain/aggregate_root.go:48-192 | entries are never reordered or dropped and original statuses never change, from any list |
| `TrackerReplay.ReplayYieldsCurrent` | domain/aggregate_status.go:53-68 | for every run: the derived operations, each applied at the place its entry is tracked, turn the loaded rows into exactly the current children (by row id: `TrackerRows.StoresCurrentIff`) |
| `TrackerReplay.CurrentIsLoadedPlusInsertsMinusDeletes` | domain/aggregate_root.go:342-378 | for every run: current = loaded + inserts - deletes |
| `TrackerReplay.AddThenRemoveIsNoop` | domain/aggregate_status.go:53-68 | a new child added and then removed changes neither the current children nor any derived operation |
| `TrackerRows.WriteAllPasses` | infra/db/command/write/aggregate_write.go:295-364 | whatever the ids: after a pass that succeeds a row is there exactly when it was and no delete carried its id, and no update or delete went out without an id |
| `TrackerRows.PassSucceedsIff` | infra/db/command/write/aggregate_write.go:295-437 | from any table and for any entries the pass succeeds if and only if every update and delete carries an id and every update that of a row not deleted before it, or of any row where deleting archives; and then each row is where, and as, the entries left it |
| `TrackerRows.StoresCurrentIff` | infra/db/command/write/aggregate_write.go:295-437 | after any run from a load with distinct ids, rows addressed by the id each item carries: the pass succeeds and leaves every active child as tracked, every removed row deleted or, if its schema archives, archived as it was loaded, and every new child inserted, if and only if every update carries its row's id and the deletes carry the ids of exactly the removed rows |
| `TrackerRows.ChangeKeepsIdsIff` | domain/aggregate_root.go:115-155 | a change keeps every tracked id if and only if it is refused or its replacement carries the id of its target |
| `TrackerRows.AddKeepsIdsIff` | domain/aggregate_root.go:48-96 | an add keeps every tracked id if and only if it is refused, tracks a new entry, carries the id of the entry it overwrites, or has that id, not empty, put on it |
| `TrackerRows.RunStoresCurrent` | infra/db/command/write/aggregate_write.go:295-437 | over every run of calls that keep ids the pass stores exactly the current children |
| `TrackerRows.ChangeUnderAnotherIdIsLost` | infra/db/command/write/aggregate_write.go:396-421 | after one accepted change the pass stores the current children if and only if the change kept its target's id |
| `AggregateItems.GetCurrentItems` | domain/aggregate_item.go:27-39 | the filter loop returns the non-removed items in order |
| `AggregateItems.FilterByOp` | domain/aggregate_item.go:41-61 | the filter loop returns the items of one operation in order |
| `AggregateItems.ReadsPick` | domain/aggregate_item.go:27-61 | the current children are exactly the items of the entries not removed, and the children under an operation those of the entries it is due for, both in entry order |
| `AggregateItems.AddSeen` | domain/aggregate_root.go:48-96 | what a reader sees after an add: the sent values under the kept id, in place of what the first match showed; nothing if refused |
| `AggregateItems.ChangeSeen` | domain/aggregate_root.go:115-155 | what a reader sees after a change: the replacement in place of what its target showed |
| `AggregateItems.RemoveSeen` | domain/aggregate_root.go:158-181 | one child of that identity less; refused exactly when none is seen |
| `AggregateItems.ClearSeen` | domain/aggregate_root.go:183-192 | nothing is seen |
| `AggregateLaws.RunRootProjects` | domain/aggregate_root.go:473-533 | for every run of guarded calls and every type: the collection ends where the calls addressed to it, alone, would take it |
| `AggregateLaws.ReplaceOfDeclaredType` | domain/aggregate_root.go:526-533 | replacing a declared type on the root is `Tracker.Replace` on its list |
| `AggregateLaws.RefusalSpeaks` | domain/aggregate_root.go:454-513 | a refused call leaves exactly one message and no other trace; an accepted one leaves no message |
| `AggregateLaws.RefusalTells` | domain/aggregate_root.go:48-181 | which message a refusal leaves: not a child of this root, naming the type there is, for a missing or undeclared one; else, naming the collection, a duplicate for an add and for a change whose original some entry has, and nothing there for a remove and for a change whose original none has |
| `AggregateLaws.NilTells` | domain/aggregate_root.go:48-165 | the unguarded calls turn nil down with DoesNotExist about nothing |
| `AggregateLaws.ClearsLeaveFresh` | domain/aggregate_root.go:183-192 | clearing creates nothing: a root nothing was written to stays as it was made |
| `AggregateLaws.CallSpeaksIff` | domain/aggregate_root.go:454-533 | any call, replacement included, leaves a message if and only if it turns a child down |
| `AggregateLaws.RunRootKeepsMessages` | domain/aggregate_root.go:454-533 | no later tracker call drops an earlier message |
| `AggregateLaws.RunRootKeepsUnique` | domain/aggregate_vo.go:87-93 | the uniqueness contract for whole roots under whole runs |
| `Snapshots.Lists.constructor` | domain/aggregate_root.go:11-23 | an empty map of slices |
| `Snapshots.Lists.DoOverwrite` | domain/aggregate_root.go:84-86 | writing list[i] changes that list at that index and no other list |
| `Snapshots.Lists.DoAppend` | domain/aggregate_root.go:91-95 | append, into spare capacity or into a grown copy, extends that list and no other |
| `Snapshots.Lists.CopyAggregateMap` | domain/clone.go:88-102 | the copy has the same contents over buffers that did not exist before |
| `RootRuns.RunCalls` | domain/aggregate_root.go:428-533 | any guarded calls, made one after the other on the buffers, take the root where `RunRoot` says |
| `RootRuns.SnapshotThenRun` | domain/clone.go:88-102 | take the snapshot, then make any guarded calls: the root is where the calls take it, and the snapshot, over buffers of its own, is as taken |
| `RootReplay.LoadFiles` | domain/aggregate_root.go:30-43 | loading appends to each type's list exactly the present rows of that type, in order, as they came from the database |
| `RootReplay.LoadSpeaks` | domain/aggregate_root.go:30-43 | and says DoesNotExist once for each nil row, and nothing else |
| `RootReplay.LoadedIsNoop` | domain/aggregate_status.go:53-68 | a root just loaded shows exactly its rows and is due no operation |
| `RootReplay.RootReplayYieldsCurrent` | domain/aggregate_status.go:53-68 | load a fresh root, make any guarded calls: for each type the derived operations turn the loaded rows of that type into exactly its current children |
| `RootReplay.RootStoresCurrent` | infra/db/command/write/aggregate_write.go:295-437 | and where the calls on a type keep ids, writing that type by id stores exactly its current children |
| `EntityChildren.ExecTracks` | domain/rules.go:145-192 | whatever a body does and however it ends, its children are where the tracker calls it met take them |
| `EntityChildren.HistoryTracks` | domain/entity_base.go:313-412 | the same over every history of calls on an entity, Get* and IsValid with their passes included |
| `EntityChildren.EntityReplayYieldsCurrent` | domain/aggregate_status.go:53-68 | for every entity loaded from rows, every rule program and every history of calls: the derived operations of each type turn its loaded rows into exactly its current children |
| `Rules.ExecCoherent` | domain/entity_base.go:218-250 | whatever a body does and however it ends, inner validations and panics included: window, pending request and refused children are what the trace of opens, closes, asks, takes, refusals and clears says |
| `Rules.ExecWindow` | domain/entity_base.go:706-715 | the window a body was entered with is open behind it if and only if no inner pass closed it |
| `Rules.AskIsHeardIff` | domain/entity_base.go:218-223 | behind any piece of a body an archive can be asked for if and only if the piece completed, was entered in an open window no inner pass closed, and left the entity in update mode |
| `Rules.InnerCheckShutsTheWindow` | domain/entity_base.go:711-715 | an IsValid of the same entity from inside an update's rules: the ask behind it panics, although the ask in front of it does not |
| `RuleTexts.AskIsReadIff` | domain/entity_base.go:218-223 | read off the text of a body: an ask behind it is heard by some body of that text if and only if a completed reading leaves the window open in update mode, and panics behind some if and only if one does not |
| `Rules.ExecKeeps` | domain/rules.go:249-257 | no body replaces a snapshot, and only a barrier that is on stops it, and only over messages |
| `Rules.ExecKeepsMessages` | domain/rules.go:145-192 | whatever the body and however it ends: no message is dropped unless the context is emptied on the way |
| `Rules.ExecKeepsContexts` | domain/rules.go:145-192 | no body that does not validate the entity again drops a context handed to it |
| `VerdictLaws.AttachedReachesVerdict` | domain/entity_base.go:931-951 | a context with a message in it, attached at any point of the rules a run comes to, is there at the verdict and keeps the pass from accepting, unless the rules behind it validate the entity again |
| `VerdictLaws.AttachedIsRejected` | domain/entity_base.go:134-136 | so no Get* seals, and a rejection carries that context |
| `VerdictLaws.EmptyContextIsNothing` | domain/entity_base.go:945-949 | an attached context without a message leaves every verdict what it is without the line |
| `VerdictLaws.ExecMarks` | domain/rules.go:145-192 | a body marks exactly the value objects of the marking lines it meets, in order; inner passes keep theirs to themselves |
| `VerdictLaws.MarksReachValueObjects` | domain/entity_base.go:786-792 | the value objects of the entity are checked against exactly what its rules marked |
| `VerdictLaws.ChildMarksReachValueObjects` | domain/entity_base.go:893-929 | so are those of a child, as it was before its own rules, against what these marked, under its scope and behind what they said |
| `VerdictLaws.ExecMutates` | domain/rules.go:145-192 | however it ends, a body leaves the entity as the mutations it met make it, one upon the other, inner passes included |
| `VerdictLaws.CaptureSticks` | domain/entity_base.go:298-311 | what the entity and its children were at the first capture is the snapshot, whatever the body does to either behind it |
| `VerdictLaws.CaptureCallSticks` | domain/entity_base.go:298-304 | a capture asked for from outside is the snapshot in every later state of the entity |
| `VerdictLaws.MutationNeverStops` | domain/entity_base.go:429-469 | a mutation runs to its end or panics, whatever is on the context |
| `VerdictLaws.ValidIff` | domain/entity_base.go:386-412 | IsValid says valid if and only if the service is there, everything runs clean from an emptied context, the mode is declared and the id fits |
| `VerdictLaws.CheckPanicsIff` | domain/entity_base.go:386-412 | it panics if and only if the entity's rules do or, these completed, a child's |
| `VerdictLaws.CheckAnswers` | domain/entity_base.go:386-412 | otherwise it says valid or not, and valid when asked about no write |
| `VerdictLaws.CheckAgreesWithGet` | domain/entity_base.go:386-538 | with the snapshot taken, IsValid finds fault if and only if the Get* of that mode, from an emptied context, is rejected; what is sealed is valid, and what is valid is sealed unless the seal panics |
| `VerdictLaws.BareReport` | domain/entity_base.go:540-692 | for each verb: an entity that declares nothing and has no id is told which mode it does not declare, then, except on insert, that it has no id |
| `VerdictLaws.WrongIdReport` | domain/entity_base.go:551-596 | an id on insert, and one that is no UUID elsewhere, are told apart |
| `VerdictLaws.NoticesStayApart` | domain/aggregate_root.go:48-181 | what the tracker says reaches the entity with its kind and the child type it is about |
| `VerdictLaws.RejectedCarries` | domain/entity_base.go:931-951 | a rejection carries everything on the entity's context and every context handed to it, something among them, and what was held before the call unless it was emptied |
| `VerdictLaws.SealedIsAddressed` | domain/entity_base.go:414-538 | what is sealed is addressed by the id the entity has at the end, some id except on insert, and is partial exactly when asked |
| `VerdictLaws.UnservedIsRejected` | domain/entity_base.go:694-704 | without its service a write is rejected for that, over what was held before |
| `NestedPasses.NestedIsOutside` | domain/entity_base.go:386-538 | for every entity, state and call: an IsValid or Get* from inside a body, with the entity's own rules and some framework's half, ends as the call from outside does and in the same state |
| `Rules.ExecIgnoresRequest` | domain/entity_base.go:218-250 | a pending archive request changes nothing a body does or leaves but the request itself |
| `RuleTexts.StopsIffFires` | domain/rules.go:249-257 | a body is stopped if and only if, run with stops ignored, it meets one over messages; otherwise the two runs are one |
| `RuleTexts.RunIsRead` | domain/rules.go:221-257 | every run is among what its text allows: messages held, stop fired, window, mode |
| `RuleTexts.ReadingIsRun` | domain/rules.go:221-257 | everything a text allows is done by a body of that text |
| `Validation.ValidateKeeps` | domain/entity_base.go:540-715 | a pass that reached its rules leaves the window closed, never replaces a snapshot and stops only over messages |
| `Validation.ValidateKeepsMessages` | domain/entity_base.go:540-692 | no pass, stopped, panicked or completed, drops a message unless the context is emptied on the way |
| `Validation.ValidateKeepsContexts` | domain/entity_base.go:540-692 | nor a context, unless its rules validate the entity again |
| `Validation.ChildReportsInScope` | domain/entity_base.go:744-759 | everything a child reports is under its own scope, and nothing a child's rules do to their copy reaches the entity |
| `Barrier.StopsOnlyCut` | domain/entity_base.go:780-792 | for every rule program: the pass is stopped if and only if a stop fires in root or children, then over messages, and otherwise is the pass without stops |
| `Barrier.StopNeverChangesVerdict` | domain/rules.go:221-257 | for every entity whose texts cannot flip: accepted with stops if and only if accepted with every stop ignored |
| `Barrier.VerdictFlipsIff` | domain/rules.go:221-257 | the condition is exact: the texts of root and children can flip if and only if some entity of the same texts is rejected with its stops and accepted without |
| `Barrier.ClearingBehindTheBarrierFlips` | domain/notification.go:332-335 | a body that clears its own context behind the barrier can flip |
| `Barrier.ClearingBeforeTheBarrierIsHarmless` | domain/notification.go:332-335 | one that clears in front of its report and stop cannot |
| `Barrier.StoppedReport` | domain/entity_base.go:780-792 | a stopped root reports what the barrier saw, non-empty, then the structural gates, and nothing else |
| `Barrier.StoppedReportIff` | domain/rules.go:234-248 | where nothing is emptied behind the barrier, a pass stopped in the root reports a subsequence of the unstopped report if and only if its gates are a subsequence of what that reports behind the barrier; panics behind the barrier included |
| `Barrier.UnstoppedRootReport` | domain/rules.go:234-248 | where nothing is emptied behind the barrier, a pass not stopped in the root, stopped in a child or panicking included, reports a beginning of the unstopped report |
| `Barrier.GatesPassedReport` | domain/rules.go:234-248 | and one whose gates pass where it is stopped reports a subsequence |
| `Barrier.MovingTheIdBreaksSubsequence` | domain/entity_base.go:551-566 | a rule behind the barrier that moves the id is the exception |
| `Barrier.ClearingRulesLoseTheReport` | domain/notification.go:332-335 | rules that report, stop and clear: every gate passed, the stopped report holds a message the unstopped one does not |
| `Barrier.ClearingChildLosesTheReport` | domain/notification.go:332-335 | the same for a child under rules that never stop |
| `Losses.LosesIff` | domain/rules.go:221-257 | nothing is emptied behind the barrier if and only if neither the root's rules nor a child's, run with stops ignored, clear when a stop fired already |
| `Losses.NothingLostByText` | domain/rules.go:221-257 | for every entity whose texts cannot lose, whatever its rules test and say, nothing is emptied behind the barrier |
| `Losses.LossIff` | domain/rules.go:221-257 | the condition is exact: the texts of root and children can lose if and only if some entity of the same texts does |
| `Losses.ReportShortensByText` | domain/rules.go:234-248 | so a stopped pass of such an entity that passes its gates reports a subsequence of the unstopped report |
| `Entity.WindowAlwaysClosed` | domain/entity_base.go:706-715 | in every state any history reaches, with passes nested in bodies and panics at any point, the window every pass opens is closed again |
| `Entity.SealedArchiveIff` | domain/entity_base.go:446-463 | a sealed update is an Archive if and only if at the end of its pass one was asked for and not taken since; then the mode is declared, and the seal takes the request |
| `Entity.PendingIff` | domain/entity_base.go:218-250 | over every history of a fresh entity: a request is pending if and only if one was asked for and no seal took it since |
| `Entity.ArchiveNeedsAnAsk` | domain/entity_base.go:195-250 | with nothing pending an update is sealed as an Archive only if it asked |
| `Entity.RefusalKeepsFromSealing` | domain/aggregate_root.go:454-533 | over every history, whatever the rules: behind a refused child, refused by a handler, in a mutation or in a body, no Get* seals until the context is emptied |
| `Entity.TrackerRefusalIsMarked` | domain/aggregate_root.go:454-533 | a call on the tracker marks a refusal if and only if it turns a child down |
| `EntityLaws.StaleRequestArchives` | domain/entity_base.go:386-412 | a request made during IsValid survives it and turns a later update, whose rules ask for nothing, into an archive |
| `EntityLaws.AcceptsIff` | domain/entity_base.go:540-704 | where no child can drop what was held before it, a pass accepts if and only if service, rules, value objects, children, mode and id are all in order; no condition on the entity's own rules |
| `EntityLaws.SealedIff` | domain/entity_base.go:414-538 | each Get* seals if and only if the mutation succeeded, no message was or came up, the service is there, the mode is declared, the id fits the verb and a requested archive is declared |
| `EntityLaws.SealedCarries` | domain/entity.go:40-82 | a sealed value has no id for insert and a UUID otherwise, the id of the entity it leaves, its verb's mode and the PATCH flag |
| `EntityLaws.EarlierContextsForgotten` | domain/entity_base.go:255-267 | contexts attached before a Get* have no part in its result, whatever the mutation, nor in the state it leaves once it reached its pass |
| `EntityLaws.EarlierMessagesForgotten` | domain/entity_base.go:386-412 | IsValid forgets earlier messages and contexts both |
| `EntityLaws.SealPanicsOnlyOnUndeclaredArchive` | domain/entity_base.go:446-469 | where no child can drop what was held before it, the id is there after an accepted pass: the seal panics if and only if the archive it is to be is undeclared |
| `EntityLaws.NoIdIff` | domain/entity_base.go:581-597 | the condition is exact: children of these texts can drop what was held if and only if some entity with such children, every gate failed, accepts its pass and panics at the nil id |
| `EntityLaws.ClearingChildMeetsNoId` | domain/rules.go:96-98 | one child that clears its context does it |
| `EntityLaws.MessageStaysUntilCleared` | domain/entity_base.go:255-267 | for every entity, every rule program and every history: a message once said is still there, and no Get* seals, until the context is emptied |
| `EntityLaws.ClearingRulesSeal` | domain/notification.go:332-335 | rules that clear empty it of earlier messages too: the insert seals |
| `EntityLaws.RefusedChildReachesVerdict` | domain/aggregate_root.go:454-533 | so behind a refused child, over every mixed history of calls on entity and tracker, no Get* seals until then |
| `EntityLaws.FirstCaptureWins` | domain/clone.go:81-86 | over every history the first snapshot is the one kept |
| `EntityLaws.RulesSeeLoadedState` | application/persistence/scoped_reader.go:49-87 | whatever happened to entity and children since the load, the rules of every verb see both as loaded |
| `EntityLaws.UnsnapshottedLoadIsCapturedFirst` | application/handlers/partial_update.go:40-45 | without a snapshot at load, Get* captures before the mutation; insert never captures |
| `BaseEntities.BaseEntity.constructor` | domain/entity_base.go:184-193 | a fresh entity |
| `BaseEntities.BaseEntity.CaptureOldIfAbsent` | domain/clone.go:45-86 | the snapshot is taken once |
| `BaseEntities.BaseEntity.ResetEntity` | domain/entity_base.go:255-267 | what a reset drops, and that it keeps messages, snapshot and request |
| `BaseEntities.BaseEntity.CallTracker` | domain/aggregate_root.go:454-466 | a call on the tracker, with what it notifies on the entity's own context |
| `BaseEntities.BaseEntity.Run` | domain/entity_base.go:766-778 | running a body statement by statement on the entity's fields, with its early exits, is `Rules.Exec` |
| `BaseEntities.BaseEntity.RunInner` | domain/entity_base.go:386-463 | a validation of the same entity from inside a body: reset, window, body, window, verdict |
| `BaseEntities.BaseEntity.BuildRulesInWindow` | domain/entity_base.go:711-715 | the window is open for the body and closed after it, however it ended |
| `BaseEntities.BaseEntity.ValidateChild` | domain/entity_base.go:744-759 | one child's rules on a copy under its scope, then its own value objects, is `Validation.RunChild` |
| `BaseEntities.BaseEntity.RunAggregateValidations` | domain/entity_base.go:877-929 | the loop over children with its early exits is `Validation.RunChildren` |
| `BaseEntities.BaseEntity.CheckGates` | domain/entity_base.go:581-596 | the mode gate and the id gate, in this order, for all five modes |
| `BaseEntities.BaseEntity.ValidateFor` | domain/entity_base.go:540-692 | the five validateFor functions, as one pass per mode |
| `BaseEntities.BaseEntity.GetInsertable` | domain/entity_base.go:414-427 | the insert path field by field |
| `BaseEntities.BaseEntity.GetUpdatable` | domain/entity_base.go:429-469 | the update path: capture, mutation, reset, pass, request taken and folded in |
| `BaseEntities.BaseEntity.GetTransition` | domain/entity_base.go:471-538 | delete, archive and unarchive |
| `BaseEntities.BaseEntity.CheckValid` | domain/entity_base.go:386-412 | IsValid drops earlier messages and keeps a pending request |
| `BaseEntities.BaseEntity.CompleteArchive` | domain/entity_base.go:218-223 | refused by panic outside the window or outside update mode, whoever calls |
| `FieldAtlas.Builder.constructor` | domain/field_ref.go:48-60 | an empty atlas |
| `FieldAtlas.Builder.DoRegister` | domain/field_ref.go:84-94 | the first node of a key stays and later ones mark it ambiguous |
| `FieldAtlas.Builder.DoWalk` | domain/field_ref.go:62-82 | the walk over fields and nested structs fills the maps as registering `Walk` in order does |
| `FieldAtlas.Builder.DoWalkField` | domain/field_ref.go:62-82 | one field: unexported skipped, embedded without a segment, struct fields entered |
| `FieldAtlas.RegisterAllMeans` | domain/field_ref.go:84-105 | a key is known exactly when registered, with a node registered under it, and ambiguous exactly when registered twice |
| `FieldAtlas.LocateIff` | domain/field_ref.go:96-105 | a lookup finds a node if and only if one entry and no other has the key |
| `FieldLaws.WalkHasRoute` | domain/field_ref.go:62-82 | every route to an exported named field is registered under its own offset, type and names |
| `FieldLaws.RouteAt` | domain/field_ref.go:62-82 | everything registered is such a route |
| `FieldLaws.PositionInjective` | domain/field_ref.go:62-82 | each route is registered once |
| `FieldLaws.KeysDistinct` | domain/field_ref.go:62-105 | on a layout of disjoint non-empty fields no two routes share offset and type |
| `FieldLaws.ResolvesIffUnshared` | domain/field_ref.go:160-189 | on any layout a reference in range resolves to its field if and only if no other field shares its offset and type |
| `FieldLaws.FieldResolvesToItself` | domain/field_ref.go:160-189 | on a disjoint non-empty layout every field's reference resolves to that field and its path |
| `FieldLaws.ResolvedIsTheOnlyField` | domain/field_ref.go:160-189 | on any layout, zero-size fields included, a successful lookup names the one field at the reference |
| `FieldLaws.OtherReferencesAreRefused` | domain/field_ref.go:160-189 | on a disjoint non-empty layout a reference resolves if and only if it is to such a field, and none is ambiguous |
| `FieldLaws.RefusedIff` | domain/field_ref.go:160-189 | no binding, no pointer and an address outside the bound block, its end included, are refused each for its own reason, and only they |
| `WireNames.ToLowerCamel` | domain/wire_names.go:33-67 | the rune loops compute `LowerCamel` |
| `WireNames.LowerCamelLaws` | domain/wire_names.go:33-67 | length-preserving and idempotent |
| `WireNames.LowerCamelPointwise` | domain/wire_names.go:33-67 | exactly the leading acronym, less its last letter when a lower-case one follows, is lowered and nothing else changes |
| `WireNames.LowersAlphabet` | domain/wire_names.go:93-98 | a capital becomes the small letter at its place in the alphabet |
| `WireNames.WireFieldPath` | domain/wire_names.go:80-89 | split, lower each segment, join |
| `WireNames.WirePathLength` | domain/wire_names.go:80-89 | a dotted path keeps its length |
| `WireNames.WirePathIdempotent` | domain/wire_names.go:80-89 | a wire path is its own wire path |
| `WireNames.WirePathOfJoin` | domain/wire_names.go:80-89 | on dot-free names it is the dotted join of their lower camel forms |
| `Strings.SplitJoin` | domain/wire_names.go:80-89 | splitting a join of separator-free parts gives the parts back |
| `Strings.JoinSplit` | domain/wire_names.go:80-89 | joining a split gives the string back |
| `Decimals.Itoa` | domain/notification.go:155-175 | the loop stays inside its 20 bytes for every 64-bit value |
| `Decimals.RenderedDenotesIff` | domain/notification.go:155-175 | the text denotes its input, in canonical form, if and only if it is not the smallest value, which renders as "-" |
| `Notifications.RenderPath` | domain/notification.go:125-153 | the loop over segments computes `Render` |
| `Notifications.RenderMatchesWirePath` | domain/notification.go:125-153 | a path of non-empty dot-free names renders as `WireFieldPath` of their dotted join |
| `Notifications.RenderTokens` | domain/notification.go:125-153 | a path of names, with wire names or without, renders as its tokens joined by dots |
| `Notifications.RenderNext` | domain/notification.go:125-153 | one segment more: an index in brackets at once, a name behind a dot unless nothing was said before it |
| `Notifications.RenderSkipsSilent` | domain/notification.go:139-141 | a segment with nothing to say leaves no trace, wherever it stands |
| `Notifications.ScopeNamesFields` | domain/notification.go:102-109 | a scope shows in front of the fields it scopes, not on a literal name and not on a message that names no field |
| `Notifications.RenderScopedField` | domain/entity_base.go:870-876 | a child's field renders as collection[index].field |
| `Notifications.PrefixedTwice` | domain/notification.go:225-240 | prefixing in two steps is prefixing by the concatenation |
| `Notifications.AliasKeepsPrefix` | domain/notification.go:354-376 | an alias renames the leaf and keeps what leads to it, and never a literal override |
| `Notifications.AliasChangesIff` | domain/notification.go:354-376 | an alias changes a message if and only if the leaf of its path has that name and another wire name, and then nothing but that wire name |
| `Notifications.NotificationContext.AddNotificationMessage` | domain/notification.go:225-240 | through any scope the message is stored once, at the root, under the scope's prefix |
| `Notifications.NotificationContext.Scoped` | domain/notification.go:378-391 | a scope of a scope hangs off the same root under both prefixes; no segments, no new scope |
| `Notifications.NotificationContext.Clear` | domain/notification.go:332-335 | clearing any view empties the root |
| `Notifications.NotificationContext.ApplyGoFieldAlias` | domain/notification.go:354-376 | the in-place rewrite of every stored message |
| `Notifications.NestScopes` | domain/notification.go:378-391 | any nesting of scopes equals one scope over the concatenated segments |
| `ChildIndex.InlineIndex` | domain/aggregate_root.go:572-578 | the inline check counts the current children |
| `ChildIndex.BoundaryIndexIsPosition` | domain/entity_base.go:893-911 | the index given to a child is its position among the current children |
| `ChildIndex.InlineIndexMatchesIff` | domain/aggregate_root.go:554-585 | inline and boundary index of an added child agree if and only if nothing active stands at or behind its place; a new identity always qualifies |
| `ChildIndex.ChildScopes` | domain/entity_base.go:893-911 | the boundary loop numbers the current children from zero in order |
| `TokenCache.NextKeepsInv` | web/external_validator.go:109-144 | every instruction of every thread, under any interleaving, keeps the invariant |
| `TokenCache.EverySkipIsWithinTtl` | web/external_validator.go:119-138 | in every interleaving a skipped call falls within the ttl of a recording of its key |
| `TokenCache.NoFreshEviction` | web/external_validator.go:126-137 | in every interleaving a delete never removes an entry still fresh |
| `TokenCache.FailClosedSkipsArePositive` | web/external_validator.go:225-284 | failing closed, every skipped call is backed by a positive answer for that token no older than the ttl |
| `TokenCache.FailOpenRemembersErrors` | web/external_validator.go:225-284 | failing open, for every token some run skips a call on the strength of a swallowed error alone |
| `TokenCache.LockIsReleased` | web/external_validator.go:126-144 | in every reachable state the lock is free after at most three more instructions of its holder |
| `TokenCache.FreshEntryIsHit` | web/external_validator.go:119-125 | a lookup of a fresh entry skips the call |
| `TokenCache.MissingEntryCalls` | web/external_validator.go:119-125 | a lookup without an entry calls the provider |
| `TokenCache.StaleEntryIsEvicted` | web/external_validator.go:126-138 | a lookup of a stale entry deletes it under the lock, releases the lock and calls the provider |
| `TokenCache.AnswerIsRemembered` | web/external_validator.go:140-144 | an answer that may be stored is stored for the ttl from now, and the lock is released |
| `TokenCache.OtherAnswerIsForgotten` | web/external_validator.go:225-284 | any other answer ends the call and leaves nothing behind |
| `TokenCache.HeldLockBlocks` | web/external_validator.go:119-144 | while a thread holds the lock, one about to read or to take it waits |
| `ClientIP.ResolveClientIP` | bootstrap/trust_proxy.go:294-311 | the right-to-left loop computes the decision of the split chain |
| `ClientIP.EntryIgnoresSpace` | bootstrap/trust_proxy.go:271-284 | space around an entry never changes how it reads |
| `ClientIP.PortIsIgnored` | bootstrap/trust_proxy.go:279-283 | an entry with a port reads as its host does |
| `ClientIP.ReadsIff` | bootstrap/trust_proxy.go:271-284 | an entry has an address if and only if it, or the host in it, is one |
| `ClientIP.ResolveComposes` | bootstrap/trust_proxy.go:294-311 | resolving P,S is resolving P when all of S is trusted and resolving S otherwise, for all strings |
| `ClientIP.ForgedPrefixIsIgnored` | bootstrap/trust_proxy.go:280-311 | nothing left of an untrusted or unreadable entry matters |
| `ClientIP.AnswerIff` | bootstrap/trust_proxy.go:294-311 | a non-empty answer is given if and only if it is an entry that reads, is untrusted and has only trusted entries to its right |
| `ViewOrder.OrderViews` | infra/db/query/view.go:951-986 | a permutation in which of every two views the one the list says stands first, cycles or not; in dependency order if and only if there is no cycle; unchanged if and only if every source is declared before its embedder |
| `ViewOrder.WalkOrder` | infra/db/query/view.go:964-986 | of two views the walk puts first the one `Precedes` reads off the list: the one an earlier view reaches; if one view reaches both first, the other one if it is one of them, and otherwise by the same rule among its sources |
| `ViewOrder.EarlierReachedPrecedes` | infra/db/query/view.go:981-985 | of two views, the one some first k reach and not the other comes first |
| `ViewOrder.SettledAmongSources` | infra/db/query/view.go:971-977 | two views that one view reaches first are in the order that view and its sources settle |
| `ViewOrder.StableIff` | infra/db/query/view.go:946-947 | views with nothing between them keep their declaration order if and only if of each two the earlier one goes first by that rule |
| `ViewOrder.SourcesFirstIff` | infra/db/query/view.go:933-945 | every source stands before its embedder if and only if there is no cycle |
| `ViewOrder.UnchangedIff` | infra/db/query/view.go:946-950 | the list comes back untouched if and only if every source is declared before its embedder or is the embedder itself |
| `ViewOrder.ReachedStandsFirst` | infra/db/query/view.go:951-986 | what the first k views reach stands in front of everything they do not, for every k |
| `ViewOrder.RootStandsLast` | infra/db/query/view.go:964-981 | a view none before it reaches stands behind everything it reaches, cycles or not |
| `ViewOrder.UnrelatedViewsSwap` | infra/db/query/view.go:946-947 | a embeds c, then b, then c: c is put in front of b, although nothing relates them |
| `ViewOrder.CycleTurnsRound` | infra/db/query/view.go:948-950 | a and b embedding each other come back as b, a |
| `ViewOrder.Visit` | infra/db/query/view.go:964-981 | the coloured visit is `Walk`: a view emitted or on the stack is passed over, any other goes out behind its sources, visited in order |
| `ViewOrder.OrderPlans` | bootstrap/schema_evolution.go:270-288 | the same plans, none lost or doubled, in the order of their views |
| `BootRebuild.BlockedEmbedSource` | bootstrap/schema_evolution.go:142-155 | the first source not rebuilt, or none exactly when there is none |
| `BootRebuild.RunBoot` | bootstrap/bootstrap.go:397-486 | for every plan list and every outcome: sources rebuilt before each attempt, plans in order and once, each attempt answered as its outcome demands, deferrals only over left-out sources, consumers and readiness only after every plan was dealt with and exactly in runs without failure, started in order and as configured |
| `BootRebuild.AttemptAfterWholeChain` | bootstrap/bootstrap.go:397-470 | an attempt comes after every view it embeds through any chain of planned views was rebuilt |
| `BootRebuild.ReadyMeansRebuilt` | bootstrap/bootstrap.go:1358-1387 | whenever the probe says ready nothing failed and every plan was dealt with |
| `BootRebuild.CheckSays` | bootstrap/bootstrap.go:1358-1387 | the probe is draining, initializing, without its stores or ready, each if and only if, in this precedence |
| `BootLaws.EndsIff` | bootstrap/bootstrap.go:397-470 | a plan is rebuilt, left to another instance, reported or aborted if and only if it was attempted and its rebuild ended that way |
| `BootLaws.ChainSucceeded` | bootstrap/bootstrap.go:397-470 | every view an attempted plan embeds, through any chain, was rebuilt with success |
| `BootLaws.DeferredIff` | bootstrap/bootstrap.go:397-470 | in a run that opens readiness a plan is deferred if and only if it embeds, through some chain, a view another instance is rebuilding; every other plan is attempted |
| `BootLaws.ReadyIff` | bootstrap/bootstrap.go:397-486 | a run opens readiness if and only if every plan whose rebuild would fail or be cut short embeds, through some chain, a view held elsewhere |
| `BootLaws.ProbeNamesPlan` | bootstrap/bootstrap.go:1358-1372 | until a run is ready its probe names a plan it came to, with its place among the plans |
| `BootLaws.ProbeStaysReady` | bootstrap/bootstrap.go:1358-1372 | once ready a run stays ready |
| `Redact.RedactEach` | bootstrap/redact.go:66-75 | every endpoint redacted, in place and order |
| `Redact.KeyValueUntouched` | bootstrap/redact.go:49-61 | a string that opens with key= and holds no "://" is left to the key pass whatever follows |
| `Redact.KeyValueLeftToKeys` | bootstrap/redact.go:30-61 | and the log line shows what the key pass makes of the string itself |
| `Redact.KeyValueHeadIff` | bootstrap/redact.go:36-40 | the test for the keyword dialects finds exactly the strings of blanks, a key and '=' |
| `Redact.MaskCredentials` | bootstrap/redact.go:102-112 | from the first ':' to the last '@' of the region everything is hidden, whatever the password |
| `Redact.UriMaskedIff` | bootstrap/redact.go:49-89 | a URI comes out as its masked form, the whole password hidden, if and only if the password is free of '/', '?' and '#' (the authority of section 3.2 of RFC 3986) |
| `Redact.DriverPasswordMasked` | bootstrap/redact.go:91-112 | a driver DSN with a database part hides any password that does not make it look like a URI, unless its user opens with a key and '=' |
| `Redact.PlainUserMasked` | bootstrap/redact.go:91-112 | in particular for every user without '=' in it |
| `Redact.DriverWithoutDatabase` | bootstrap/redact.go:91-100 | without a '/' behind the credentials it is masked to the end of the string if and only if the password has no '/' either |
| `Redact.DriverHiddenIff` | bootstrap/redact.go:49-61 | with no "://" behind the credentials a driver password, behind a user that does not open with a key and '=', is hidden if and only if it holds no "://" and does not open with "//" |
| `Redact.DriverMaskedIff` | bootstrap/redact.go:49-61 | all such passwords mask alike if and only if the remainder holds no "://" |
| `Redact.SepInCredentials` | bootstrap/redact.go:49-61 | where a "://" in a driver DSN can come from |
| `Redact.SlashesExpose` | bootstrap/redact.go:49-61 | an otherwise plain password opening with "//" comes back as it is |
| `Redact.RedactedHidesPassword` | bootstrap/redact.go:30-61 | two connection strings differing only in such a password are logged alike |
| `AuditRender.RenderChangesInPlace` | application/audit/render.go:49-58 | the in-place loop computes `RenderChanges` |
| `AuditRender.ChangeCommutesIff` | application/audit/render.go:105-122 | one change renders alike in both forms if and only if its label, if it has one, translates to something |
| `AuditRender.EventCommutesIff` | application/audit/render.go:35-122 | for every event and translator: rendering then encoding equals encoding then rendering if and only if every label translates to non-empty text |
| `AuditRender.RenderEventTwice` | application/audit/render.go:35-58 | rendering an event twice is rendering it once |
| `AuditRender.RenderDocTwice` | application/audit/render.go:75-122 | the same on any JSON document |
| `AuditRender.RendersByName` | application/audit/render.go:75-122 | by the names on the wire: the label key goes and the label takes its place, in the changes of the event and of its children, and nothing else moves |
| `AuditRender.EventIsEncoded` | application/audit/event.go:37-121 | two events with the same encoding are the same event: members left out when empty lose nothing |

## Left out

- Business identity is equality of a type name and an abstract key; the application's own `IsSameBusinessIdentity` is any relation that amounts to that, and it ignores the row id.
- The UNKNOWN status, which no tracker call writes.
- `AssignAggregateItemID` and `ApplyToAggregateItem`: write-backs after the write, which change items and no status.
- The type assertion in the typed getters: lists are per type name and the model does not mix Go types under one name.
- A change whose replacement has another type name keeps the entry under the original's name, as in the code; readers by the new name are not modelled.
- The rule run of `ValidateAggregateChild`: only the index it reports under.
- The order in which Go iterates the map of child types: `Spec.children` is one list, in any order.
- Which value objects were ignored and which forced: both are marks handed to an abstract check.
- Field aliases at the end of a pass, domain events, aggregate metadata and action names: they do not take part in the verdict.
- BaseEntities.BaseEntity.RunInner: in a pass nested in a body the framework's half, its gates, value objects and children, is any function of the state to messages or a panic; the body, the window, the snapshot and the request are run in full. The half of every real pass is among these functions (`NestedPasses.NestedIsOutside`). `Nested` holds what BuildRules does when entered again, so a chain of nested passes is as deep as its term.
- TrackerReplay.ReplayYieldsCurrent: the operations are applied where their entries are tracked, whatever ids they carry; addressed by id they are in `TrackerRows.StoresCurrentIff`.
- An aggregate child holds no reference to its root: its rules neither call the tracker nor validate the root.
- What a child carries, its key and its other fields, are two types nothing is known about.
- Foreign keys of child rows, siblings of a child, stamps and the ids the database mints.
- Nil entities, nil translators and nil contexts; invalid UTF-8.
- Cloning an entity, UUID and IP parsing, translation, SHA-256 and the key=value pass of `redact` (any function of the masked string) are parameters; for the claim about positive answers the hash is assumed free of collisions.
- Struct layouts are given, not computed: alignment, padding and Go's rules for embedded pointers are not part of the model.
- The token cache with a ttl of zero, where nothing is looked up or stored; the provider call is its answer; readers' locks are atomic reads.
- `ExecuteRebuild` is its outcome; a view name is never empty, and two plans never name one view.
- Shutdown of what the boot goroutine started, and the progress texts of the probe.
- AuditRender.RenderDoc: the JSON tree is rebuilt as a value; the code rewrites it in place.
- Errors of the loaders in `scoped_reader.go`, which return before anything is captured.
- Configuration, the HTTP, gRPC and GraphQL layers, the rest of persistence, drift detection and catalogs: nothing here depends on them, and they depend on the kernel only through the sealed values and notifications above.
