# What this project verifies

This is a model, in Dafny, of the parts of the data-collection platform whose correctness
depends on more than one function at a time, together with proofs about the model:

* **The form-document editor** of the console's builder (`web/src/builder/ir.ts`): a tree of
  questions, groups and repeats that is edited by making a new tree. `FormTree`, `FormNesting`
  and `FormMove` model it on values: walking, finding, removing, inserting, the refusal of a
  drop, and the move itself. `FormMapTree` models the recursion all edits share, with its
  depth, and so says when an edit ends. `FormObjects` models the same recursion on heap objects,
  where "the same object" can be said. `UniqueId` models the fresh identifier.
* **The builder's store and its two loops**: the store's transitions (`DraftStore`), the compile
  hook (`CompileLoop`) and the autosave hook together with the server's `save_draft`
  (`SaveLoop`). Each loop is a state machine whose runs are arbitrary interleavings of edits,
  renders, late effects, timers and replies; each hook is also written as a class whose
  methods are proved to take exactly those steps.
* **The submission log fold** (`OpLog`, `OpLogFold`): operations sorted by counter and device
  and folded into answers, as the recovery script and the console both do it.
* **Row-level visibility** (`RowSecurity`, `Principals`): the policies of 47 tables, each
  running under the policies of the tables it looks into.
* **Principals over a connection pool** (`PrincipalPool`): what a transaction declares, what a
  connection returned to the pool may carry, and what a transaction therefore sees.
* **Smaller programs**: the SQL statement splitter (`SqlSplitter`), the closure of named
  schemas, the text of TypeScript types and the values they admit (`SchemaClosure`, `TypeText`,
  `TypeChars`, `SchemaValues`, `TypeValues`), the generator of an
  exact-size questionnaire (`SplitMix`, `ScalePlan`, `ScaleBuild`, `ScaleForm`), and ULIDs (`Ulid`).

`Options` and `Selections` hold what several modules share. `dafny verify dfyconfig.toml` checks everything.

Inputs the model takes instead of computing: decrypting and unwrapping (partial functions), the
order of device ids (any total preorder, so that both code-point order and a locale's collation
are instances), lower-casing, the whitespace set of trimming, JSON dumping, what schema keywords other than those
read ask of a value, and the random bits
and the millisecond of a ULID.

## Where the code and its own words differ

The model follows the code in each case.

* `backend/app/modules/forms/service.py:770-774` says a caller without a current revision is
  refused rather than merged. The code accepts a save that carries no revision over a draft
  that exists by then (line 791). `SaveLoop.OverwritesExactly` says that this is exactly when an
  update is lost, and `SaveLoop.FirstSaveOverwrites` gives a run.
* `web/src/pages/BuilderPage.tsx:230-232` says an edit made while a save is in flight is
  scheduled when the answer lands. When the effect for the landed answer runs before the
  request's `finally`, nothing is scheduled: `SaveLoop.EditLeftUnsaved` gives the run. Nor is
  anything after a failed save of test cases alone, which line 244 takes for saved
  (`SaveLoop.FailedCasesForgotten`). `SaveLoop.NoSaveToComeExactly` says exactly when no save is
  to come, and `SaveLoop.LeftUnsavedExactly` what that is for an edit, a failed save and test cases.
* `web/src/pages/BuilderPage.tsx:219-223` tells the author in conflict that someone else saved the
  draft. When a save was handled and its reply lost, the conflict can be with the page's own save
  (`SaveLoop.OwnConflict`); `SaveLoop.SomeoneElseExactly` says exactly when it is not.
* `web/src/pages/BuilderPage.tsx:242-243` lets "clean" stand for the whole draft.
  `SaveLoop.CasesLeftBehind` gives a run where the test cases on screen are not the saved ones,
  and `SaveLoop.CleanCoversCasesExactly` says exactly when they are.
* The two folds call their order total. On operations tied on counter and device the stable sorts
  keep arrival order (`OpLog.ArrivalShows`); `OpLog.ArrivalExactly` says exactly when that matters.
  The table's uniqueness of device and counter (`backend/migrations/schema/001_initial.sql:364`)
  rules such ties out for an order that tells distinct devices apart, as code points do; a
  collation need not (`OpLog.UniqueCountersArriveFreely`).

One thing the code assumes and does not check: `scripts/generate_sindh_scale_form.py:522-524` takes for
granted that a single selection is left for the second external list. `ScaleForm.Build` fails exactly
when the pool its seed decides has none; the model does not say of which seeds that is true.

## Model

| member | source | states |
|---|---|---|
| `FormTree.FindIsLocate` | web/src/builder/ir.ts:190-211 | Keeping the first visit of the walk is top-down search: the same node, parent, index and ancestors. |
| `FormTree.LocateIff` | web/src/builder/ir.ts:205-211 | A node is found exactly when its id is in the document, and the node found has that id. |
| `FormTree.WithoutInto` | web/src/builder/ir.ts:342-376 | Removing a node just inserted gives back the document it was inserted into. |
| `FormTree.Restore` | web/src/builder/ir.ts:342-376 | Inserting a removed node where it was found gives back the document it was removed from. |
| `FormTree.WithoutIds` | web/src/builder/ir.ts:342-347 | Removal takes out exactly the ids of the subtree found. |
| `FormTree.WithoutDistinct` | web/src/builder/ir.ts:342-347 | Removal keeps ids distinct. |
| `FormTree.IntoIds` | web/src/builder/ir.ts:360-376 | Inserting a subtree of new ids into a container adds exactly those ids and keeps ids distinct. |
| `FormTree.LocateInserted` | web/src/builder/ir.ts:355-376 | The inserted node is found under its container at the clamped index, and the container holds the old children with it between. |
| `FormTree.AncestorIff` | web/src/builder/ir.ts:404-406 | One node is among another's ancestors exactly when the other stands in its subtree. |
| `FormNesting.ClosedNesting` | web/src/builder/ir.ts:378-382 | Nothing inside a repeat or field-list is badly nested exactly when no subtree there has a repeat. |
| `FormNesting.NestingInto` | web/src/builder/ir.ts:407-415 | A subtree inserted into a container of a well-nested document leaves it well nested exactly when the subtree may stand under some repeat or field-list, if there is one on the container's chain. |
| `FormNesting.ChainAfterRemoval` | web/src/builder/ir.ts:407-415 | Removing the moved subtree changes no verdict about the chain of a container outside it. |
| `FormMove.DropRefusalExact` | web/src/builder/ir.ts:391-417 | In a well-formed document a drop is allowed exactly when the node exists, the target is the root or a container outside the moved subtree, and the result is well formed. |
| `FormMove.RefusalReasons` | web/src/builder/ir.ts:391-417 | In any document with distinct ids, each of the seven refusals is given exactly in its own case, said only by what stands in what: for a repeat inside a repeat, that the moved subtree holds one and some repeat is or holds the target; for a field-list group, that no such repeat exists and some such group is or holds it. |
| `FormMove.NestingExactly` | web/src/builder/ir.ts:384-390 | A document is well nested exactly when nothing inside a repeat or a field-list group is or holds a repeat. |
| `FormMove.AcceptedMove` | web/src/builder/ir.ts:421-435 | A move that is not refused takes the node out and puts it at the corrected slot. |
| `FormMove.MoveKeeps` | web/src/builder/ir.ts:421-435 | A move keeps the set of ids and their distinctness, the moved subtree unchanged, everything else as removal leaves it, and ends under the parent asked for. |
| `FormMove.MoveLands` | web/src/builder/ir.ts:427-434 | The node ends immediately before whatever stood at the slot's index in the old list, clamped, the index correction included. |
| `FormMove.MoveBack` | web/src/builder/ir.ts:421-435 | Every accepted move is undone by one accepted move that gives the same document back. |
| `FormMove.OrderBlock` | web/src/builder/ir.ts:190-203 | A subtree is one contiguous block of document order, and removal cuts out just that block. |
| `FormMove.MoveOrder` | web/src/builder/ir.ts:421-435 | A move lifts one block of ids out of document order and sets it down elsewhere; all other ids keep their order. |
| `FormMapTree.DropRuns` | web/src/builder/ir.ts:284-305 | Run with the removing callback, the shared recursion ends by the document's height and removes the node. |
| `FormMapTree.PatchRuns` | web/src/builder/ir.ts:311-320 | Run with the patching callback it ends and patches exactly the nodes of that id. |
| `FormMapTree.PutRuns` | web/src/builder/ir.ts:360-376 | Run with the inserting callback, which walks into the node it has just put in, it ends with the insertion if the node holds no container of the target's id. |
| `FormMapTree.PutNeverEnds` | web/src/builder/ir.ts:284-305 | With such a container on both sides no depth is ever enough. |
| `FormMapTree.InsertEndsExactly` | web/src/builder/ir.ts:360-376 | Insertion ends exactly when the target names no container of the document or none of the inserted subtree. |
| `FormMapTree.MoveRuns` | web/src/builder/ir.ts:421-435 | Both recursions of an accepted move end, with the result the move promises. |
| `FormMapTree.DeeperSame` | web/src/builder/ir.ts:284-305 | Once the recursion ends, more depth changes nothing. |
| `FormMapTree.LocatePatched` | web/src/builder/ir.ts:311-320 | A patch that keeps kinds and ids moves no node and changes no other node. |
| `FormMapTree.SetPropertyFrame` | web/src/builder/ir.ts:324-340 | Setting or removing a property changes that property of that node and nothing else, of any node. |
| `FormObjects.Call` | web/src/builder/ir.ts:311-376 | The edits' callbacks on objects: which object they answer with, and what it shares. |
| `FormObjects.MapList` | web/src/builder/ir.ts:284-305 | The loop returns the very same list exactly when the callback left every reached node identical, and otherwise a new one of the right value that holds every untouched subtree as the same object. |
| `FormObjects.MapItem` | web/src/builder/ir.ts:290-302 | One turn: the same node exactly when nothing in it was touched; null exactly when it is dropped. |
| `FormObjects.PutStays` | web/src/builder/ir.ts:360-376 | The walk into the node just put in leaves it the same object. |
| `UniqueId.CleanedIsId` | web/src/builder/ir.ts:221-226 | Any text is cleaned into an identifier, and is left alone exactly when it is one with no underscore at its end. |
| `UniqueId.CleanedExactly` | web/src/builder/ir.ts:221-226 | The text kept is its letters, digits and underscores in order, with one underscore at the place of each run of anything else, from the first letter on and without the underscores at the end; a q if that is nothing. |
| `UniqueId.DecimalReadsBack` | web/src/builder/ir.ts:229-232 | A candidate's number is spelled in decimal, with no leading zero. |
| `UniqueId.DecimalsDiffer` | web/src/builder/ir.ts:229-232 | Different numbers make different candidates. |
| `UniqueId.TakenAreMany` | web/src/builder/ir.ts:227-232 | A text and its candidates up to some number, all taken, are that many ids: the search ends. |
| `UniqueId.Unique` | web/src/builder/ir.ts:213-233 | For every document and typed text the search ends with an identifier not in the document: the cleaned text, or its lowest free number from two. |
| `DraftStore.BuilderStore.Edit` | web/src/builder/store.ts:131-288 | An edit dirties the draft unless it is in conflict, and makes an answer stale; no edit, no change. The class's other methods are the other transitions in the same way, and the two loops below are proved over them. |
| `CompileLoop.StepKeepsInv` | web/src/builder/compile.ts:33-86 | Every step of the hook, the store and the network keeps the loop's invariant. |
| `CompileLoop.RunKeepsInv` | web/src/builder/compile.ts:33-86 | So does every run. |
| `CompileLoop.CompileRuns` | web/src/builder/compile.ts:45-85 | In every run at most one compile is in flight, no timer is pending beside it, the status never speaks of another document than the one on screen, and when nothing is outstanding the last document asked for is that one and its answer is shown. |
| `CompileLoop.ShownIsHeard` | web/src/builder/compile.ts:56-76 | In every run the plan, the reasons and the failure shown are the last heard since the draft was opened; and when nothing is outstanding the last reply heard is about the document on screen and its own kind is the status. |
| `CompileLoop.DelayExactly` | web/src/builder/compile.ts:78-84 | The effect's timer fires at once exactly when nothing has been asked or heard since the draft was opened, and otherwise after the debounce. |
| `CompileLoop.AutoCompile.RunEffect` | web/src/builder/compile.ts:45-85 | The effect is the model's step: the old timer cleared, a new one set unless a request is out. |
| `CompileLoop.AutoCompile.Run` | web/src/builder/compile.ts:50-56 | Asking takes the document as it is in the store, not as the effect saw it. |
| `CompileLoop.AutoCompile.FireTimer` | web/src/builder/compile.ts:81-83 | The timer's step. |
| `CompileLoop.AutoCompile.Land` | web/src/builder/compile.ts:56-76 | The reply's step: shown if mounted, and a document that changed meanwhile is asked for at once. |
| `CompileLoop.AutoCompile.Clean` | web/src/builder/compile.ts:38-43 | Unmounting clears the timer. |
| `SaveLoop.ReachableInv` | web/src/pages/BuilderPage.tsx:241-285 | In every reachable session the revision on the page is one the server gave for what the page believes saved. |
| `SaveLoop.OneSaveAtATime` | web/src/pages/BuilderPage.tsx:239-285 | At most one save is out, no timer beside it, and clean implies that the document on screen is the one saved. |
| `SaveLoop.OverwritesExactly` | backend/app/modules/forms/service.py:776-799 | Handling a save overwrites a version the page never had acknowledged exactly when the save carries no revision and the server holds a draft. |
| `SaveLoop.ConflictAbsorbs` | web/src/pages/BuilderPage.tsx:244-246 | A conflict stays and no save is sent at a step exactly when the step is not a timer firing while the document on screen is not the one saved. |
| `SaveLoop.TimerAheadOfEffect` | web/src/pages/BuilderPage.tsx:241-285 | A timer can fire in a conflict only ahead of a render or an effect that is owed. |
| `SaveLoop.ConflictForever` | web/src/pages/BuilderPage.tsx:244-246 | Over every run from a conflict: it stays throughout with no save sent exactly when no timer of the run fires on an unsaved document. |
| `SaveLoop.ConflictOvertaken` | web/src/pages/BuilderPage.tsx:241-285 | A reachable session in conflict where such a timer sends one more save. |
| `SaveLoop.FirstSaveOverwrites` | backend/app/modules/forms/service.py:776-799 | A reachable session whose first save overwrites another author's. |
| `SaveLoop.EditLeftUnsaved` | web/src/pages/BuilderPage.tsx:241-285 | A reachable session with an unsaved edit and nothing scheduled. |
| `SaveLoop.NoSaveToComeExactly` | web/src/pages/BuilderPage.tsx:241-285 | With every render and effect done, no save in flight and no conflict, no save is to come exactly when the document is the one saved and the status is not dirty, or the last effect was turned away by a save in flight, or a save failed and the timer the last effect set has fired already. |
| `SaveLoop.LeftUnsavedExactly` | web/src/pages/BuilderPage.tsx:241-285 | So for an unsaved document or unsaved test cases: a dirty draft is left exactly when the effect was turned away; a failed save exactly then, or when that timer has fired, or when only test cases were in it; and test cases unsaved in a clean draft always. |
| `SaveLoop.FailedCasesForgotten` | web/src/pages/BuilderPage.tsx:244 | A reachable session where a save of test cases alone has failed and nothing is scheduled. |
| `SaveLoop.ReachableOrigins` | web/src/pages/BuilderPage.tsx:267-282 | In every reachable session each version past the page's revision that is its own is in the reply on its way or was in a lost one, and a refusal speaks of a later version. |
| `SaveLoop.SomeoneElseExactly` | web/src/pages/BuilderPage.tsx:219-224 | In every reachable conflict there is a version past the page's revision; one of somebody else's exactly when they are not all saves of this page whose replies were lost. |
| `SaveLoop.OwnConflict` | web/src/pages/BuilderPage.tsx:271-276 | A reachable conflict where the server's last version is what is on screen, saved by the page itself, and nobody else has saved. |
| `SaveLoop.ReachableTiming` | web/src/pages/BuilderPage.tsx:241-285 | In every reachable session the timer, the marks and the snapshots the effect compares stand in the relation that decides it. |
| `SaveLoop.FailureLeftUnsaved` | web/src/pages/BuilderPage.tsx:271-282 | A reachable session where a second failure looks to the effect like the first, and nothing is scheduled. |
| `SaveLoop.CasesLeftBehind` | web/src/builder/store.ts:232-240 | A reachable session that is clean while the test cases on screen are not the saved ones. |
| `SaveLoop.CleanCoversCasesExactly` | web/src/builder/store.ts:232-240 | In every reachable clean session the version of the page's revision holds the document on screen, and the test cases on screen exactly when none was edited since that save was sent. |
| `SaveLoop.DraftRow.Save` | backend/app/modules/forms/service.py:776-803 | A save is refused exactly when it carries a revision that is not the current one, and then changes nothing; an accepted one adds one version with its author and document, and the test cases it brings, or else those of the version before, or none on a first save. |
| `SaveLoop.CasesAreLatest` | backend/app/modules/forms/service.py:794-798 | Over every run, every version's test cases are those of the latest save up to it that brought any, whoever saved. |
| `SaveLoop.UndisturbedSave` | web/src/pages/BuilderPage.tsx:247-270 | From every reachable session whose timer fires on unsaved work, with nobody else having saved: once answered, the server's newest version is what is on screen, test cases included, and the page is clean at its revision. |
| `SaveLoop.EditedSave` | web/src/pages/BuilderPage.tsx:247-270 | With an edit in between, the version saved is the document from before it, and the page is dirty. |
| `SaveLoop.AutoSave.RunEffect` | web/src/pages/BuilderPage.tsx:241-285 | The effect is the model's step, its three early returns included. |
| `SaveLoop.AutoSave.FireTimer` | web/src/pages/BuilderPage.tsx:247-267 | The timer sends the store's own document, cases and revision. |
| `SaveLoop.AutoSave.Land` | web/src/pages/BuilderPage.tsx:267-275 | An acknowledgement or a conflict reaches the store. |
| `SaveLoop.AutoSave.LandLost` | web/src/pages/BuilderPage.tsx:276-278 | Any other failure leaves the draft marked as failed. |
| `SaveLoop.AutoSave.Finish` | web/src/pages/BuilderPage.tsx:280-282 | The in-flight mark is dropped after the reply is shown. |
| `OpLog.FoldExact` | scripts/decrypt_submission.py:274-320 | For every log in every arrival order, on the fields of operations: a path has a value exactly when the operation with the last word on it is a set that carries the value, in the clear as it stands or encrypted as the key in hand opens it; an operation has a word on a path if it is in the clear or opens, and names the path or, deleting, a prefix the path continues at a dot or a bracket. |
| `OpLog.ArrivalExactly` | scripts/decrypt_submission.py:274 | The answers are independent of arrival order exactly when the operations tied at the top of each path say the same. |
| `OpLog.DistinctKeysArriveFreely` | scripts/decrypt_submission.py:274 | With no two operations tied on counter and device they always are. |
| `OpLog.UniqueCountersArriveFreely` | backend/migrations/schema/001_initial.sql:362-364 | With the table's uniqueness, and an order that tells the log's devices apart, arrival order never shows. |
| `OpLog.CodePointsArriveFreely` | backend/migrations/schema/001_initial.sql:362-364 | Code points are such an order for all devices, so with them the table's uniqueness is enough. |
| `OpLog.ArrivalShows` | scripts/decrypt_submission.py:274 | Two sets of one path tied on counter and device: the one that arrives last is the answer. |
| `OpLog.MoreKeys` | scripts/decrypt_submission.py:278-308 | Opening more keys changes the answer only at paths a newly readable operation touches. |
| `OpLog.OrdersAgreeAnswersAgree` | web/src/lib/decryptSubmission.ts:334-336 | Two device orders that agree on the log's devices give the same answers. |
| `OpLog.DeviceOrderExactly` | web/src/lib/decryptSubmission.ts:334-336 | For every log: all device orders give the same answers exactly when, on each path, the devices that share the greatest counter there say the same in the end; and so do, exactly then, all orders that tell every two devices apart. |
| `OpLog.OverlapExactly` | web/src/lib/decryptSubmission.ts:367-380 | Two operations touch a common path exactly when one names, or deletes a prefix of, what the other names. |
| `OpLog.TieBreakNeedsOverlap` | web/src/lib/decryptSubmission.ts:334-336 | Where operations tied on counter never overlap, no device order changes any answer. |
| `OpLog.TieBreakDecides` | web/src/lib/decryptSubmission.ts:334-336 | In particular two tied operations of different devices that touch one path and say different things are told apart by nothing but that order. |
| `OpLog.SortedSorts` | scripts/decrypt_submission.py:274 | The sort orders the log by counter and device. |
| `OpLog.SortedMembers` | scripts/decrypt_submission.py:274 | It loses and invents nothing. |
| `OpLogFold.DecryptOps` | scripts/decrypt_submission.py:260-322 | The script's loop computes the fold; for each operation a row with the value its key opens, or the stored one, and the state that is true of it; and it reports exactly those it could not read, in order. |
| `OpLogFold.DecryptSubmission` | web/src/lib/decryptSubmission.ts:326-381 | The console's loop computes the same fold, reports exactly those whose bytes the key in hand does not open, counts what was encrypted and what of it opened, and shows each operation's own value and state. |
| `OpLogFold.Apply` | scripts/decrypt_submission.py:309-320 | One readable operation's effect on the answers, the bounded prefixes of a repeat deletion included. |
| `OpLogFold.UnwrapContentKeys` | scripts/decrypt_submission.py:211-249 | For each content key the first wrap that opens is kept; exactly the entries none of whose wraps opens are reported, in order. |
| `OpLogFold.OpenedExactly` | scripts/decrypt_submission.py:211-249 | A content key is opened exactly when some wrap of it opens. |
| `OpLogFold.OpenedByFirst` | scripts/decrypt_submission.py:211-249 | The bytes kept for a key are those of the first wrap that opens, in the last entry of its id that has one. |
| `OpLogFold.SameOpened` | web/src/lib/decryptSubmission.ts:286-324 | The console, which skips wraps of unlisted project keys, opens the same keys if every wrap that opens is addressed to a listed one. |
| `Principals.IdsReadBack` | backend/app/infrastructure/database.py:116-126 | Ids joined with commas are read back by the policy as those ids, if none is empty or holds a comma. |
| `Principals.SettingsReadBack` | backend/app/infrastructure/database.py:116-126 | Each field of a principal is read back from its own setting, lists of plain ids included. |
| `RowSecurity.VisibleIsOwned` | backend/migrations/versions/0008_identity.py:462-511 | Every visible row's chain ends in the principal's organisation, in every table. |
| `RowSecurity.SeenExactly` | backend/migrations/versions/0008_identity.py:462-511 | Exactly what is visible in every table, on cells and the principal's fields: a row whose chain leads to a row of the principal's own - one of its organisation, its organisation by id or slug, a session of somebody active in it, or a submission of its projects made by somebody it may see or, with organisation scope, by anybody. |
| `RowSecurity.OwnedAreSeen` | backend/migrations/versions/0008_identity.py:462-511 | The converse of the bound: every row an organisation owns is seen by its principals in every table not under a submission, and in every table with organisation scope. |
| `RowSecurity.SeesItsOrganization` | backend/migrations/versions/0008_identity.py:462-511 | So there what a principal sees and what its organisation owns are the same. |
| `RowSecurity.SlugOwnExactly` | backend/migrations/versions/0008_identity.py:491-494 | In the organisation table itself, exactly when no other organisation has the slug named. |
| `RowSecurity.Noninterference` | backend/migrations/versions/0008_identity.py:462-511 | If two databases agree on what one organisation owns, its principal sees the same rows in every table. |
| `RowSecurity.OneOwner` | backend/migrations/versions/0008_identity.py:53-103 | With unique keys no row's chain ends in two organisations. |
| `RowSecurity.Disjoint` | backend/migrations/versions/0008_identity.py:462-511 | Principals of different organisations see no common row. |
| `RowSecurity.WritesStayInside` | backend/migrations/versions/0008_identity.py:467-480 | Nothing one organisation's principal may write, under the same policy as a check, changes what another's sees. |
| `RowSecurity.WriteKeepsOthers` | backend/migrations/versions/0008_identity.py:467-480 | Any change to one organisation's own rows, in any number of tables, leaves what another owns as it is, in every table. |
| `RowSecurity.RunsStayInside` | backend/migrations/versions/0008_identity.py:467-480 | So does every run of such changes by any number of organisations: what another sees is the same at its end. |
| `RowSecurity.CascadeIsWithin` | backend/migrations/versions/0008_identity.py:484-511 | Deleting any owned row with every row whose chain leads to it, in all tables, is a change within its organisation; it keeps keys unique and cuts no remaining row off its parent. |
| `RowSecurity.CascadesStayInside` | backend/migrations/versions/0008_identity.py:484-511 | So another organisation's principals see the same rows after it. |
| `RowSecurity.VisibleWithItsRoot` | backend/migrations/versions/0008_identity.py:53-93 | A row whose chain leads to a row of another table, such as its submission, is visible exactly when that row is. |
| `RowSecurity.VisibleWithParent` | backend/migrations/versions/0008_identity.py:484-488 | A chained row is visible exactly when its parent is. |
| `RowSecurity.NobodySeesNothing` | backend/app/infrastructure/database.py:129-131 | Where no root row names the empty organisation and no organisation has an empty id or slug, the principal that is nobody sees nothing in any table. |
| `PrincipalPool.IdleNeverCarries` | backend/app/infrastructure/database.py:251-274 | Over every run of checkouts, transactions, settings at either level and check-ins, no idle connection tells anything about a principal. |
| `PrincipalPool.RunTells` | backend/app/infrastructure/database.py:251-274 | In every run a connection holds at session level the last value its holder set there outside a transaction or in a committed one, and nothing from before its checkout. |
| `PrincipalPool.DiscardedExactly` | backend/app/infrastructure/database.py:251-274 | A connection returned is discarded exactly when the run has committed on it a session-level value that is not empty; otherwise the pool gains one blank connection. |
| `PrincipalPool.LocalLosesNone` | backend/app/infrastructure/database.py:161-171 | A holder that sets for its transactions only never costs the pool a connection. |
| `PrincipalPool.BeginDeclares` | backend/app/infrastructure/database.py:161-171 | A transaction begins with exactly its session's principal, or nobody, in all eight settings. |
| `PrincipalPool.BeginDescribes` | backend/app/infrastructure/database.py:161-171 | After it begins, the transaction's settings describe that principal, field by field. |
| `PrincipalPool.TransactionSees` | backend/app/infrastructure/database.py:161-171 | Whatever became of the pool before, and whatever the other connections do meanwhile, a transaction sees exactly the rows whose chain leads to one of its session's principal's own, by cells and fields. |
| `PrincipalPool.DeclaredReads` | backend/app/infrastructure/database.py:145-154 | Declaring sets the settings named and no other. |
| `PrincipalPool.SettingReads` | backend/app/infrastructure/database.py:145-154 | A setting reads as it was last set, at whichever level, and no other changes. |
| `PrincipalPool.EndingReads` | backend/app/infrastructure/database.py:161-171 | A transaction's own settings end with it, and what it set for the session stays exactly if it commits. |
| `PrincipalPool.Connection.SetConfig` | backend/app/infrastructure/database.py:145-154 | A setting at transaction level, at session level inside a transaction, or outside one. |
| `PrincipalPool.Connection.DeclarePrincipal` | backend/app/infrastructure/database.py:161-171 | The eight calls make the declaration. |
| `PrincipalPool.Connection.RefuseALeakedPrincipal` | backend/app/infrastructure/database.py:251-274 | After the rollback a connection is kept exactly when it carries nothing. |
| `PrincipalPool.SessionInfo.Rescope` | backend/app/infrastructure/database.py:349-385 | An open transaction is given up; a slug resolves to the one organisation that has it; otherwise the session is left on the slug alone, with the exception strictness asks for, or, with several organisations, the transaction left open by the lookup's own exception. |
| `PrincipalPool.SessionInfo.LookUp` | backend/app/infrastructure/database.py:369-374 | The lookup's transaction, which declares a principal that names only the slug, sees every organisation of that slug. |
| `SqlSplitter.Statements` | backend/migrations/versions/0010_people.py:29-61 | The cursor loop ends with exactly the runs between cuts that hold more than whitespace, in order, each without the whitespace at its ends. |
| `SqlSplitter.StatementsAreStatements` | backend/migrations/versions/0010_people.py:30-32 | No statement is empty, starts or ends with whitespace, or holds a comment or a semicolon outside quotes and bodies. |
| `SqlSplitter.LiteralLexes` | backend/migrations/versions/0010_people.py:47-57 | Everything up to the closing apostrophe is the literal's own, semicolons, dashes and dollars included, also if it never closes. |
| `SqlSplitter.BodyLexes` | backend/migrations/versions/0010_people.py:42-46 | So is everything between two body marks, apostrophes included. |
| `SqlSplitter.OpenBodyLexes` | backend/migrations/versions/0010_people.py:42-46 | And everything after a body mark that is never closed. |
| `SqlSplitter.CommentLexes` | backend/migrations/versions/0010_people.py:37-41 | A comment leaves nothing, to the end of its line, apostrophes and all. |
| `SqlSplitter.PlainLexes` | backend/migrations/versions/0010_people.py:47-57 | Outside all of these a semicolon cuts and any other character is kept. |
| `SqlSplitter.RunsRejoin` | backend/migrations/versions/0010_people.py:36-57 | Joined with semicolons the untrimmed pieces are the input without its comments. |
| `SqlSplitter.JoinedSplits` | backend/migrations/versions/0010_people.py:29-61 | Any list of such statements, joined, splits into that list. |
| `SqlSplitter.SplitRoundTrip` | backend/migrations/versions/0010_people.py:29-61 | Splitting what was split and joined gives the same list back, for every input. |
| `SchemaClosure.SchemaRefs` | scripts/generate_api_contract.py:250-259 | Every reference under a node is added, or the error is raised if one is foreign. |
| `SchemaClosure.RefsExactly` | scripts/generate_api_contract.py:250-259 | The names found under a node are those of the references anywhere inside it; it raises exactly for a reference to something else. |
| `SchemaClosure.Close` | scripts/generate_api_contract.py:279-286 | The worklist ends on cyclic graphs, in whatever order it pops, with exactly the names reachable from the start, and fails exactly when a reachable one is missing or refers outside. |
| `SchemaClosure.CollectRoots` | scripts/generate_api_contract.py:276-278 | The references of the reachable routes. |
| `SchemaClosure.RootsExactly` | scripts/generate_api_contract.py:276-278 | The names to start from are those inside the operations of routes that are not excluded. |
| `SchemaClosure.ConsoleSchemas` | scripts/generate_api_contract.py:262-286 | The set is exactly what the reachable routes reach; each error is raised exactly in its case. |
| `SchemaClosure.TypeMentionsRefs` | scripts/generate_api_contract.py:86-150 | A type mentions only names its schema references. |
| `SchemaClosure.SpelledOutRefs` | scripts/generate_api_contract.py:289-320 | The types an emitted schema spells out - each property's, or its own for an alias - reference only what the schema references. |
| `SchemaClosure.MentionedIsEmitted` | scripts/generate_api_contract.py:289-320 | Where the closure succeeds, every name in the type of an interface's field, or of an alias, of a schema it gives is a schema it gives. |
| `SchemaValues.TypeIsSound` | scripts/generate_api_contract.py:86-150 | Every value a schema admits, by every keyword it has, is of the type written for it. |
| `SchemaValues.TypeIsExact` | scripts/generate_api_contract.py:86-150 | Of a schema that says no more than a type can - no other keywords, no integers - the type admits no other value. |
| `TypeValues.TextAdmits` | scripts/generate_api_contract.py:86-150 | End to end: what a reader makes of the characters of the type takes every value the schema admits, and only those of such a schema. |
| `TypeValues.MeaningAdmits` | scripts/generate_api_contract.py:101-148 | What a type means, read as values, is what the type admits, repeated members and nested unions included. |
| `TypeText.PrintReadsBack` | scripts/generate_api_contract.py:86-150 | In tokens: what is printed for a type is read back as what the type means, down to the last token, exactly when no union in it is empty. |
| `TypeText.PrintUnreadable` | scripts/generate_api_contract.py:101-106 | A type with an empty union in it prints as something no reader of types accepts, whatever follows. |
| `TypeText.PrintIsWritten` | scripts/generate_api_contract.py:101-148 | With no empty union, the printer, which drops repeated texts and brackets by looking for a bar, writes the type's meaning. |
| `TypeText.WrittenDiffers` | scripts/generate_api_contract.py:103 | Two meanings have one text only if they are one meaning, so dropping repeated texts drops nothing else. |
| `TypeText.BareBracketsMisread` | scripts/generate_api_contract.py:134-135 | Without the parentheses an array of a union reads as a union with an array. |
| `TypeChars.TextIsSpelled` | scripts/generate_api_contract.py:86-150 | The text the generator concatenates, repeats dropped and brackets decided on characters, is the spelling of the printed tokens. |
| `TypeChars.SpellingCut` | scripts/generate_api_contract.py:86-150 | Cutting a spelling into tokens gives the tokens back, quoted texts with bars and escapes included. |
| `TypeChars.TextReadsBack` | scripts/generate_api_contract.py:86-150 | Character by character: the text of a type is read back as what the type means exactly when no union in it is empty. |
| `SplitMix.MixIsBijection` | scripts/generate_sindh_scale_form.py:95-100 | The output function of the generator has an inverse on 64-bit words. |
| `SplitMix.StateSum` | scripts/generate_sindh_scale_form.py:96 | The state after any number of steps is the seed plus that many increments, modulo 2^64. |
| `SplitMix.StatesDiffer` | scripts/generate_sindh_scale_form.py:96 | No state repeats within 2^64 steps. |
| `SplitMix.DrawsDiffer` | scripts/generate_sindh_scale_form.py:95-100 | No output repeats within 2^64 draws. |
| `SplitMix.Rng.Next` | scripts/generate_sindh_scale_form.py:95-100 | Each call gives the next output of the seed's sequence. |
| `SplitMix.Rng.Below` | scripts/generate_sindh_scale_form.py:102-103 | A number below the bound. |
| `ScalePlan.SettleUp` | scripts/generate_sindh_scale_form.py:247-249 | The incrementing loop ends at the total exactly, lowering nothing, giving no entry two more than another, and one more exactly to those that had their turn. |
| `ScalePlan.SettleDown` | scripts/generate_sindh_scale_form.py:250-253 | The decrementing loop, which skips entries at the floor, ends at the total exactly with none below it, and every entry lowered by as many rounds as there were, with its turn in the last, down to the floor. |
| `ScalePlan.SectionSizes` | scripts/generate_sindh_scale_form.py:233-255 | For any weights and total that leave room: as many sizes as weights, summing to the total, none below the floor; each is its weighted share or one more when no share is below the floor, and in general the share lifted to the floor, filled up or cut back evenly. |
| `ScalePlan.OptionCounts` | scripts/generate_sindh_scale_form.py:258-286 | For any seed, number of lists and total that leaves two each: sizes summing to the total, none below two, which are the sizes the draws decide, cut back or filled up evenly. |
| `ScalePlan.BandsExactly` | scripts/generate_sindh_scale_form.py:266-277 | A drawn size is in its roll's band, and every size of the band can be drawn. |
| `ScalePlan.Shuffle` | scripts/generate_sindh_scale_form.py:303-306 | The in-place loop leaves the arrangement that the seed and the draws before it decide. |
| `ScalePlan.ShuffledRearranges` | scripts/generate_sindh_scale_form.py:303-306 | Whatever the seed, that arrangement holds the same entries. |
| `ScalePlan.EveryArrangement` | scripts/generate_sindh_scale_form.py:303-306 | Every arrangement of the entries comes out for some draws. |
| `ScalePlan.TypePool` | scripts/generate_sindh_scale_form.py:289-307 | The pool is the census, shuffled: each type as often as the census has it. |
| `ScaleBuild.Builder.NewList` | scripts/generate_sindh_scale_form.py:349-358 | One question's options: as many as planned, numbered from one, after those of the earlier lists. |
| `ScaleBuild.Builder.Question` | scripts/generate_sindh_scale_form.py:368-446 | One question row is added that a reader accepts: numbered in order, its condition reading earlier answers of its own section or roster, or its own number; without a gate it has no condition. |
| `ScaleBuild.Builder.Relevance` | scripts/generate_sindh_scale_form.py:490-511 | A condition reads the gate, another select of the scope, or the gate with a number or another select; with no other select, the gate alone. |
| `ScaleBuild.Builder.RosterRows` | scripts/generate_sindh_scale_form.py:467-488 | A roster asks its types in order, closes what it opens, and uses one list per select. |
| `ScaleBuild.Builder.QuestionInSection` | scripts/generate_sindh_scale_form.py:602-614 | A question goes into the open block or a new one, which is closed when it is full. |
| `ScaleBuild.Builder.SectionRows` | scripts/generate_sindh_scale_form.py:541-618 | A section asks its types exactly once and in order and leaves nothing open; it has one roster if one is carved out of it, outside any block. |
| `ScaleBuild.ReadToTheEnd` | scripts/generate_sindh_scale_form.py:514-620 | In a survey read to its end no roster stands in a roster or a block, and every question is numbered in order and reads only questions asked before it in its own section or roster, or its own number. |
| `ScaleForm.PutExternal` | scripts/generate_sindh_scale_form.py:522-524 | The first single selection from a position on is replaced, or none is found. |
| `ScaleForm.ExternalExactly` | scripts/generate_sindh_scale_form.py:522-524 | The first single selection from a position on is replaced and nothing else; there is none to replace exactly when none stands there. |
| `ScaleForm.ExternalsExactly` | scripts/generate_sindh_scale_form.py:522-524 | The second slot is missing exactly when no single selection but the first slot's stands at 1904 or later. |
| `ScaleForm.SchoolFits` | scripts/generate_sindh_scale_form.py:522-524 | The first slot is always found. |
| `ScaleForm.GateFirst` | scripts/generate_sindh_scale_form.py:559-562 | A section that has a single selection starts with its first one, whose place takes what stood in front; everything else stays; without one nothing changes. |
| `ScaleForm.SectionFrom` | scripts/generate_sindh_scale_form.py:552-576 | One section asks the next share of the pool, its gate first, and takes no list beyond its selects. |
| `ScaleForm.Build` | scripts/generate_sindh_scale_form.py:514-620 | For every seed, draws before it and block size: it fails exactly when the pool those decide has no slot for the second external list; otherwise every entry of that pool is asked exactly once, section by section in its order with each section's gate first, in 95 sections with two rosters, the choices number exactly the option total, and a reader accepts every row. |
| `ScaleForm.BuildFailsExactly` | scripts/generate_sindh_scale_form.py:522-524 | That pool has no slot exactly when no single selection but the first slot's stands at 1904 or later; when it has one, what is asked is the census with two single selections turned external. |
| `ScaleForm.LaidOutMembers` | scripts/generate_sindh_scale_form.py:538-562 | A laid-out survey asks every entry of the pool exactly once. |
| `ScaleForm.WriteOut` | scripts/generate_sindh_scale_form.py:538-618 | The section loop uses up the pool and the option lists together. |
| `Ulid.EncodingIsExact` | backend/app/core/ulid.py:16 | Below 2^130 no two values share a text, and text order is number order. |
| `Ulid.EarlierSortsFirst` | backend/app/core/ulid.py:14-16 | An earlier millisecond sorts first whatever the random bits. |
| `Ulid.SameOnlyIfDrawnSame` | backend/app/core/ulid.py:14-16 | Two identifiers are equal only if their milliseconds and random bits are. |
| `Ulid.TooWide` | backend/app/core/ulid.py:16 | From 2^130 on the leading bits are lost. |

## Left out

- Form documents: properties other than the ones that decide nesting are opaque values; setting `type`, `id` or `children` through the property editor is not modelled.
- Finding and moving are stated on tree values; on heap objects the model has the shared recursion and the three callbacks of the edits, not selection state.
- UniqueId.Unique: takes the lower-casing as a parameter, because which characters of which scripts become Latin letters is Unicode's business.
- DraftStore: the form id, the selected node and the message beside a save status, which no transition reads.
- CompileLoop: a remount here runs the effects again in the same instance, with its refs; a new instance of the hook, with refs of its own, is a new loop beside whatever the old one still has out.
- CompileLoop: every opened or edited document is taken to be a new object, as the store's callers make it; the texts of refusals are opaque.
- SaveLoop, CompileLoop: an effect may run arbitrarily late, also where a change of the store makes a render, and what that render owes, synchronous; `SaveLoop.ConflictOvertaken` and `SaveLoop.FailureLeftUnsaved` depend on a timer or a reply coming first.
- SaveLoop: a request lost before the server has handled it is never handled later.
- SaveLoop.ConflictAbsorbs: says nothing of reopening, because the model is one editing session of one form; replies are not tied to a form id in the code either.
- SaveLoop: unmounting the page and any promise that an edit is eventually saved are not modelled; the latter is false (`SaveLoop.EditLeftUnsaved`).
- OpLogFold: cryptography and canonical JSON are one partial function from an operation and a key to a value; answers are a map, so property names with a meaning to JavaScript objects are not modelled; the lines of report text are the operations they are about.
- OpLog: the sort is the stable insertion both library sorts refine, not their own algorithm.
- RowSecurity.RunsStayInside: takes each change as one organisation's own rows.
- RowSecurity.CascadeIsWithin: takes cascades along the keys the policies follow, and all of those as cascading; other foreign keys, and the refusals of restricting ones, are not modelled.
- RowSecurity: the policies of the later SQL files (010 to 016) and PostgreSQL itself; a policy's subquery runs under the policy of the table it reads.
- PrincipalPool: savepoints and the network; a transaction-level setting ends with its transaction, as PostgreSQL documents for `SET LOCAL`.
- SqlSplitter.Statements: takes the whitespace set as a parameter; its results about trimming ask that it holds no quote, semicolon, dollar or dash.
- SchemaValues.TypeIsExact: a reference's siblings are not looked at, as the generator does not; numbers are opaque, so that being whole is one of the other keywords' demands.
- RowSecurity.SeenExactly: asks that ids of people are not empty and hold no comma, as ULIDs are; the list of policies, table by table, is transcribed and not derived.
- TypeChars.TextReadsBack: asks that names and dumped values are each one plain word or one quoted text, as JSON strings, numbers and schema names are; comments, interface frames and enum arrays of the generated file are not modelled.
- ScaleBuild: label words, hints, constraint and required cells are only counted as draws, because nothing else depends on them.
- Routes, screens, exports, the form engine, the handset and the provisioning scripts.
