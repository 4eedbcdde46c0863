# CDNProCLI (JavaScript) — a Dafny model of the batch updater and its request helpers

This project models the core of the JavaScript command-line tools for the
CDN Pro API:

- **The four-stage batch property updater** (`tools/batchUpdateProperties.js`):
  - *Find* pages through the customer's production properties and merges them by id into a JSON store of records.
  - *Check* fetches each record's production version, evaluates the task's `condition` and derives the new version with `createVersion`. It is modelled twice. `CheckStage.Check` takes the lookups one at a time, which is what the stage is meant to do. `CheckStage.CheckAsWritten` follows the code, which keeps two lookups in flight and counts each one only when its reply arrives (see "## Findings").
  - *New* asks the operator, creates the new version, starts its validation and polls it.
  - *Deploy* selects a batch of validated records of one customer, creates one deployment task (or resumes the one they carry) and polls it.
  - The stages share a small counting semaphore.
- **The example task** of `tools/batchTask.template.js`: switch `quantil.com` origins to `directConnection: 'auto'`.
- **The directive-list editors**: `tools/updateSystemConfigs.js` (the base list, and the advanced list with its experimental section behind a divider entry) and `tools/updateServiceQuotas.js` (one customer's allowed advanced directives).
- **The request helpers**:
  - `buildAuth`, `reqTimeRange`, `buildQueryParams` and `getDiffTxt` in `cdnpro-helper.js`;
  - `encodeQuery`, `withQuery`, `_buildAuth`, `request` and the status decision of `_callServer` in `client/ApiCore.js`;
  - `Report.post`.
- **The integration-test command line** (`test/integration-test-client.js`): argument parsing, credential lookup, exit code.

Everything is pure. Everything the outside world supplies is a parameter:

- the operator's answers;
- the HTTP replies, with their status codes and `Location` headers;
- the successive poll replies;
- the clock and the signed credential;
- date parsing, percent-encoding and JSON.

A stage is a function from the loaded store to a `StageRun`, which holds:

- the store file (`disk`, the last `saveDB`);
- the in-memory records;
- how the process ended: `Finished`, `Exited(code)`, `Crashed` (an uncaught exception or an unhandled rejection) or `Hung` (a poll that never settles).

The promise-mode `callServer` of the helper rejects on a transport failure and on any status other than 200 and 201, and nothing in the stages catches that. The model therefore turns such a reply into `Crashed`. The `ctx.err`/`ctx.error` branches that test those cases in the stages can never run.

Where the code and its own comments disagree, the model follows the code:

- The header comment of `batchUpdateProperties.js` (lines 9-10) says the deploy step makes sure the deployed version has not changed. `deployProperties` never looks at the production version.
- Find throws on more than 300 listed properties before it saves anything, so the records it found are not kept.

Modules, one file each: `Wrappers`, `Strings`, `JsValues`, `Sorting`, `BatchTask`, `Store`, `FindStage`, `CheckStage`, `NewStage`, `DeployStage`, `Semaphore`, `Directives`, `SystemConfigs`, `ServiceQuotas`, `TimeRange`, `Query`, `Auth`, `ReportPath`, `DiffText`, `CliArgs`.

## Model

| member | source | states |
|---|---|---|
| BatchTask.AnyNeedsChange | cdn/js/tools/batchTask.template.js:17-22 | the early-return loop is true exactly when some origin uses a quantil.com server and is not already `'auto'` |
| BatchTask.Condition | cdn/js/tools/batchTask.template.js:14-23 | a version without origins never matches; otherwise it matches exactly when some origin needs the change |
| BatchTask.SetAuto | cdn/js/tools/batchTask.template.js:27-31 | origin by origin, a quantil.com origin gets `'auto'` and every other origin is kept as it was |
| BatchTask.CreateVersion | cdn/js/tools/batchTask.template.js:25-33 | the new version has the same origins in the same order with the same servers; only `directConnection` of quantil.com origins changes, and every other field is kept |
| BatchTask.ConditionGuaranteesOrigins | cdn/js/tools/batchTask.template.js:16 | a version that satisfies `condition` has origins, so `createVersion` can iterate over them |
| BatchTask.CreateVersionClearsCondition | cdn/js/tools/batchTask.template.js:14-33 | the new version never satisfies `condition`, whatever description is stamped on it |
| BatchTask.CreateVersionIsIdempotent | cdn/js/tools/batchTask.template.js:25-33 | applying the transform twice gives the same version as applying it once |
| Store.BatchSize | cdn/js/tools/batchUpdateProperties.js:28 | a missing or zero `batchLimit` means 9999; any other value is used as given |
| Store.IdAfter | cdn/js/tools/batchUpdateProperties.js:297-302 | an id is found exactly when the marker occurs and something follows its first occurrence; the id is that non-empty remainder |
| Store.CreatedVersion | cdn/js/tools/batchUpdateProperties.js:295-304 | a version number is obtained exactly when the reply is a 201 whose Location has, after the first '/versions/', a digit suffix that is not zero; the number is that suffix's value |
| Store.CreatedValidation | cdn/js/tools/batchUpdateProperties.js:336-344 | a validation id is obtained exactly when the reply is a 201 whose Location has a non-empty suffix after the first '/validations/' that does not read as zero; the id is that suffix |
| Store.CreatedDeploymentTask | cdn/js/tools/batchUpdateProperties.js:459-466 | a task id is obtained exactly when a 201 reply's Location has a non-empty suffix after '/deploymentTasks/' |
| FindStage.FindIndex | cdn/js/tools/batchUpdateProperties.js:137 | returns -1 exactly when no record has the id; otherwise returns the first record with it |
| FindStage.Classify | cdn/js/tools/batchUpdateProperties.js:147-155 | Unchanged exactly when the production version is the stored one; DeployedByMe exactly when it moved to this pipeline's new version |
| FindStage.MergeEntry | cdn/js/tools/batchUpdateProperties.js:136-163 | a new id appends a freshly discovered record with the listing's owner or the task's customer; a known id leaves the store as it is |
| FindStage.MergeAll | cdn/js/tools/batchUpdateProperties.js:136-164 | merging only appends (the old store is a prefix), the count is the number appended, and the ids become the old ids plus the listed ones |
| FindStage.MergeAllKeepsIdsUnique | cdn/js/tools/batchUpdateProperties.js:137-145 | ids stay unique, and every appended record is a fresh discovery whose id was not stored before |
| FindStage.MergeKnownIsNoOp | cdn/js/tools/batchUpdateProperties.js:146-162 | a listing whose ids are all stored changes nothing and counts no new property |
| FindStage.MergeAllAppend | cdn/js/tools/batchUpdateProperties.js:133-166 | merging a concatenation of pages is merging the pages one after another, and the counts add up |
| FindStage.FindLoopMergesWholeListing | cdn/js/tools/batchUpdateProperties.js:133-166 | paging by 200 until the offset reaches the count merges every listed property exactly once, in order, and counts all of them |
| FindStage.Find | cdn/js/tools/batchUpdateProperties.js:120-180 | more than 300 listed properties throws with the file untouched; otherwise the file is rewritten exactly when a property was added, and then holds the merged store |
| FindStage.FindIsIdempotent | cdn/js/tools/batchUpdateProperties.js:177-179 | after a Find over a listing of at most 300 properties, a second Find over the same listing writes nothing and changes nothing |
| FindStage.FindPreservesStore | cdn/js/tools/batchUpdateProperties.js:136-163 | the stored records survive in place, ids stay unique, and every listed id ends up in the store |
| CheckStage.CheckRecord | cdn/js/tools/batchUpdateProperties.js:201-239 | a failed lookup, or one that returns a different or non-production version, aborts; otherwise the identity is kept, the production configuration is stored and `condition` records the verdict; a match stores the described candidate and clears newVer/validId/newVerValidated; a throwing task call records its message as the error and never matches; a candidate that still matches is reported |
| CheckStage.CheckLoopFacts | cdn/js/tools/batchUpdateProperties.js:192-240 | one lookup at a time: the loop keeps every identity field and leaves records before the start and non-pending records alone; every record a finished loop changed carries a verdict; a loop that finishes below the batch limit has looked up every pending record, each holding its lookup's result |
| CheckStage.CheckLoopCounts | cdn/js/tools/batchUpdateProperties.js:192-199 | one lookup at a time: matches never exceed the batch limit, and a loop stopped by the limit has reached it exactly; a loop that made no lookup changed nothing; the loop ends by finishing, by a crash or by `exit(1)` |
| CheckStage.CheckLoopLooksUpAll | cdn/js/tools/batchUpdateProperties.js:192-240 | one lookup at a time: when the pending records fit in the limit and every lookup succeeds, each pending record is looked up and counted, each holds its result, and the others are untouched |
| CheckStage.CheckSavesEveryLookup | cdn/js/tools/batchUpdateProperties.js:241-245 | the intended outcome: under the same conditions, the file ends up holding every pending record with its verdict and every other record unchanged |
| CheckStage.CheckLoopKeepsSafe | cdn/js/tools/batchUpdateProperties.js:211-223 | unless the run exits on a still-matching candidate, every matched record has a candidate that the predicate rejects |
| CheckStage.Check | cdn/js/tools/batchUpdateProperties.js:186-253 | one lookup at a time: the file is either untouched or, after a normal end with at least one lookup, exactly the records in memory; the store keeps its length |
| CheckStage.CheckKeepsStoreSafe | cdn/js/tools/batchUpdateProperties.js:241-245 | the saved store never gains a matched record whose new version still matches |
| CheckStage.CheckTouchesOnlyPending | cdn/js/tools/batchUpdateProperties.js:192-198 | one lookup at a time: already-checked records are untouched unless forced, identities never change, and matches stay within the batch limit |
| CheckStage.Land | cdn/js/tools/batchUpdateProperties.js:201-236 | a reply that arrives counts one lookup; the run goes on exactly when the lookup gave a verdict, which then replaces the record and counts a match when it matched |
| CheckStage.Drain | cdn/js/tools/batchUpdateProperties.js:201-245 | waiting for the lookups in flight keeps the store's length and only adds to the counters. When the last lookup's reply fails the sanity check, its `release()` ends the wait and the run ends normally with that record unchanged; a failed request as the last lookup crashes |
| CheckStage.CheckAsWrittenSavesPastLastMismatch | cdn/js/tools/batchUpdateProperties.js:199-245 | as written: three pending records whose last reply has the wrong version end normally, and are saved with the first two verdicts and the third record unchanged |
| CheckStage.CheckLoopAsWritten | cdn/js/tools/batchUpdateProperties.js:192-240 | as written, with two lookups in flight: the loop keeps the store's length, and the lookups it leaves in flight are positions of the store |
| CheckStage.CheckAsWritten | cdn/js/tools/batchUpdateProperties.js:186-253 | as written, with the ending `Drain` gives: the file is either untouched or, after a normal end, exactly the records in memory; the store keeps its length |
| CheckStage.FewPendingNeverLand | cdn/js/tools/batchUpdateProperties.js:193-199 | as written: when the pending records fit in the free slots, every lookup starts without waiting, and the loop ends with no reply counted and the records unchanged |
| CheckStage.CheckAsWrittenFewPending | cdn/js/tools/batchUpdateProperties.js:241 | as written: a store with at most two pending records ends the run unchanged and unsaved, whatever the lookups would have answered |
| CheckStage.CheckAsWrittenMatchesPastLimit | cdn/js/tools/batchUpdateProperties.js:193 | as written: with a batch limit of 1 and three pending records that all match, all three are saved as matched |
| CheckStage.CheckStopsAtLimit | cdn/js/tools/batchUpdateProperties.js:193 | one lookup at a time, the same three records end normally with the second and third left unchanged, so only the first is matched |
| CheckStage.TemplateNeverStillMatches | cdn/js/tools/batchUpdateProperties.js:217-222 | with the template task, a lookup never ends at the still-matches exit |
| CheckStage.TemplateCheckNeverExits | cdn/js/tools/batchUpdateProperties.js:217-222 | a Check run with the template task never exits with code 1 |
| NewStage.PollValidates | cdn/js/tools/batchUpdateProperties.js:388-394 | polling validates exactly when some reply is 'succeeded' and every earlier reply is 'waiting' or 'in progress' |
| NewStage.PollStillValidating | cdn/js/tools/batchUpdateProperties.js:388-390 | polling never settles exactly when every reply is 'waiting' or 'in progress' |
| NewStage.AfterPoll | cdn/js/tools/batchUpdateProperties.js:377-403 | only a successful poll sets `newVerValidated` true; the run exits with 1 exactly when the validation failed, and then the record is saved with `newVerValidated` false and an error; a failed poll request crashes with the record as it was; a poll that never settles changes and saves nothing |
| NewStage.Validate | cdn/js/tools/batchUpdateProperties.js:318-360 | New's untouched fields stay put; a validated record has a validation id and a succeeded poll. When a validation must be started: a rejected request crashes with nothing saved; a reply without a usable id records an error and exits with 1, with nothing saved; a usable id is kept and saved before polling. An existing id is polled without a POST. Whenever the poll is reached, the record is validated exactly when the poll succeeds, and the run exits with 1 exactly when it fails, after saving the record with `newVerValidated` false and an error |
| NewStage.NewRecord | cdn/js/tools/batchUpdateProperties.js:264-363 | a skipped record is untouched; a record without a candidate gets an error; a declined creation changes nothing. After a yes: a rejected request crashes with the record unchanged; a reply without a usable version number records an error and exits with 1, with nothing saved; a created number is kept and saved. Only a succeeded poll validates, and every exit with 1 leaves an error on the record. For a record that reaches the poll (an existing version whose validation is polled, or a created version and validation), the record is validated exactly when the poll succeeds, and the run exits with 1 exactly when it fails, after saving the failure |
| NewStage.NewLoop | cdn/js/tools/batchUpdateProperties.js:264-363 | the loop keeps the number of records in memory and in the file |
| NewStage.NewLoopShape | cdn/js/tools/batchUpdateProperties.js:319-321 | the loop changes no identity, condition or configuration field, and records before the current one are not revisited |
| NewStage.NewLoopLeavesSkipped | cdn/js/tools/batchUpdateProperties.js:266-269 | skipped records are untouched in memory and in the file |
| NewStage.NewLoopValidatesOnlySucceeded | cdn/js/tools/batchUpdateProperties.js:391-394 | across the loop, a record becomes validated only when its poll said 'succeeded' |
| NewStage.NewLoopCount | cdn/js/tools/batchUpdateProperties.js:361-362 | the counted records never exceed the batch limit plus one |
| NewStage.NewLoopKeepsPrefix | cdn/js/tools/batchUpdateProperties.js:264 | records before the loop position stay as they are, in memory and in any later save |
| NewStage.NewLoopOvershoots | cdn/js/tools/batchUpdateProperties.js:361-362 | when every remaining record validates, the loop finishes after exactly limit + 1 of them, and only those are validated |
| NewStage.New | cdn/js/tools/batchUpdateProperties.js:258-375 | the store keeps its length; only New's fields change; skipped records are untouched on disk and in memory; a record is validated only after a succeeded poll; a normal end after at least one handled record saves exactly the records in memory |
| NewStage.HandledWithinLimit | cdn/js/tools/batchUpdateProperties.js:361-362 | a New run processes at most one record more than the batch limit |
| NewStage.AwaitingRecordValidates | cdn/js/tools/batchUpdateProperties.js:357-359 | a record whose validation was already started is validated by its poll alone, with no question, no POST and no save |
| NewStage.FreshRecordValidates | cdn/js/tools/batchUpdateProperties.js:264-360 | a record that has a candidate but no version, whose creation is agreed to and whose version, validation and poll succeed, ends validated with the created number and id, both saved before polling |
| NewStage.NewCreatesAndValidates | cdn/js/tools/batchUpdateProperties.js:258-367 | with batch limit n and more than n such fresh records, exactly the first n + 1 are created and validated, each with its created number and id, and the saved file holds them |
| NewStage.NewHandlesOneMoreThanBatchLimit | cdn/js/tools/batchUpdateProperties.js:361-362 | with batch limit n and more than n waiting records whose validations succeed, exactly the first n + 1 are validated, and the saved file holds them |
| NewStage.InterruptedValidationResumes | cdn/js/tools/batchUpdateProperties.js:324-359 | after a run stopped while polling a fresh validation, the file holds its id, and the next run resumes polling with no question and no POST |
| DeployStage.FirstEligible | cdn/js/tools/batchUpdateProperties.js:416-420 | finds the first validated, undeployed, error-free record, or reports there is none |
| DeployStage.EligibleOfFacts | cdn/js/tools/batchUpdateProperties.js:418-419 | the reference list holds exactly the eligible positions of one customer, in increasing order |
| DeployStage.Limit | cdn/js/tools/batchUpdateProperties.js:424 | the batch is a prefix of the list, no longer than a positive limit, and is cut only at that limit |
| DeployStage.SelectIsBatch | cdn/js/tools/batchUpdateProperties.js:416-426 | the selection loop computes the reference batch: every eligible record of the first eligible record's customer, cut at the limit |
| DeployStage.BatchFacts | cdn/js/tools/batchUpdateProperties.js:416-426 | the batch is eligible records of one customer, in store order and within the limit; it is empty only when nothing is eligible, and below the limit it takes all of that customer's eligible records |
| DeployStage.Plan | cdn/js/tools/batchUpdateProperties.js:431-441 | a new task is created exactly when no batch record has a task id; a conflict exactly when some has one and the ids differ; otherwise the common non-empty id is resumed |
| DeployStage.PollDeploys | cdn/js/tools/batchUpdateProperties.js:499-506 | polling deploys exactly when some reply is 'succeeded' and every earlier reply is 'waiting' or 'inprogress' |
| DeployStage.PollStillDeploying | cdn/js/tools/batchUpdateProperties.js:499-501 | polling never settles exactly when every reply is 'waiting' or 'inprogress' |
| DeployStage.ProgressSpellingsDiffer | cdn/js/tools/batchUpdateProperties.js:499 | each poll treats the other poll's "in progress" spelling as a failure |
| DeployStage.Stamp | cdn/js/tools/batchUpdateProperties.js:476-479 | exactly the batch records get the task id; nothing else changes |
| DeployStage.MarkDeployed | cdn/js/tools/batchUpdateProperties.js:504 | exactly the batch records are marked deployed; nothing else changes |
| DeployStage.Deploy | cdn/js/tools/batchUpdateProperties.js:409-487 | the store keeps its length, and every exit is code 1 with the file untouched |
| DeployStage.DeployTouchesOnlyBatch | cdn/js/tools/batchUpdateProperties.js:409-513 | only batch records change, and only in `deploymentTaskId` and `newVerDeployed`; no error is ever recorded, even when the task fails |
| DeployStage.DeploymentOutcome | cdn/js/tools/batchUpdateProperties.js:476-506 | once the batch has a task id, the file holds it on every batch record; the whole batch is saved as deployed exactly when the poll says 'succeeded' |
| DeployStage.PollOutcome | cdn/js/tools/batchUpdateProperties.js:499-506 | the poll keeps the batch's task id and marks the whole batch deployed exactly on 'succeeded' |
| DeployStage.SelectFromIgnoresTaskIds | cdn/js/tools/batchUpdateProperties.js:418-419 | selection does not depend on task ids, so stamping them keeps the same batch |
| DeployStage.InterruptedDeploymentResumes | cdn/js/tools/batchUpdateProperties.js:431-440 | a run that got a task but did not see it succeed leaves a file from which the next run selects the same batch and resumes that task instead of creating another |
| DeployStage.StampedBatchResumes | cdn/js/tools/batchUpdateProperties.js:432-438 | a batch stamped with one id is resumed with that id |
| Semaphore.Config | cdn/js/tools/batchUpdateProperties.js:39-43 | reconfiguring is refused exactly while a slot is held or a caller waits; otherwise the new maximum is set |
| Semaphore.Acquire | cdn/js/tools/batchUpdateProperties.js:44-50 | a slot is granted exactly when one is free; otherwise the caller parks, displacing any earlier parked caller; the bound is kept |
| Semaphore.Release | cdn/js/tools/batchUpdateProperties.js:51-64 | it throws exactly when nothing is held and nobody waits; a parked caller takes over the slot, else the count drops and a pending `allDone` fires at zero |
| Semaphore.AllDone | cdn/js/tools/batchUpdateProperties.js:65-68 | returns at once exactly when nothing is held; otherwise it registers the drain waiter |
| Semaphore.RunKeepsBound | cdn/js/tools/batchUpdateProperties.js:35-69 | along any run the count stays within the maximum and equals the slots handed out and not given back |
| Semaphore.SecondParkedAcquireIsLost | cdn/js/tools/batchUpdateProperties.js:44-54 | two acquires on a full semaphore then one release leave nobody parked: the first waiter is never resumed |
| Directives.FirstRefusal | cdn/js/tools/updateSystemConfigs.js:78-90 | no guard refuses exactly when every guard allows the item; otherwise it returns a guard that refuses |
| Directives.AddEach | cdn/js/tools/updateSystemConfigs.js:78-92 | the add loop succeeds exactly when every item is new to the list, unrepeated and allowed by every guard; it then appends the items in order |
| Directives.Find | cdn/js/tools/updateSystemConfigs.js:98 | `indexOf` gives -1 exactly for an absent item, else its first position |
| Directives.RemoveFirst | cdn/js/tools/updateSystemConfigs.js:104 | `splice` at the first occurrence removes exactly one copy |
| Directives.DeleteEach | cdn/js/tools/updateSystemConfigs.js:97-105 | the delete loop succeeds exactly when the list holds the items with their multiplicities and no quota uses any; it removes exactly those copies |
| Directives.RemoveAll | cdn/js/tools/updateServiceQuotas.js:76 | `filter` removes every copy of the item and keeps every other entry with its multiplicity |
| Directives.DeleteEvery | cdn/js/tools/updateServiceQuotas.js:69-76 | the delete loop succeeds exactly when every item is present and unrepeated; it removes every copy of each item and nothing else |
| SystemConfigs.TargetField | cdn/js/tools/updateSystemConfigs.js:28 | the base field is chosen exactly when the action contains "Base" |
| SystemConfigs.ActionFields | cdn/js/tools/updateSystemConfigs.js:28 | the two base actions write `baseDirectives`, and the four others write `advancedDirectives` |
| SystemConfigs.DividerAt | cdn/js/tools/updateSystemConfigs.js:59 | -1 exactly when there is no divider, else the first divider's position |
| SystemConfigs.AdvancedPart | cdn/js/tools/updateSystemConfigs.js:59-61 | the advanced section never contains the divider |
| SystemConfigs.PartsRejoin | cdn/js/tools/updateSystemConfigs.js:59-63 | a list with a divider is its advanced section, the divider, and its experimental section |
| SystemConfigs.Normalise | cdn/js/tools/updateSystemConfigs.js:161-169 | the base list becomes a sorted permutation; the advanced list gets a divider with each section sorted |
| SystemConfigs.MissingDividerDuplicates | cdn/js/tools/updateSystemConfigs.js:59-63 | without a divider, every entry but the last lands in both sections, so normalising duplicates them |
| SystemConfigs.AddBase | cdn/js/tools/updateSystemConfigs.js:31-45 | refused exactly for an item already in the base list, repeated, or in the advanced list; otherwise the old list plus the items, sorted |
| SystemConfigs.DeleteBase | cdn/js/tools/updateSystemConfigs.js:46-57 | refused exactly when the items are not all in the base list with their multiplicities; otherwise the remaining entries, sorted |
| SystemConfigs.AddAdvanced | cdn/js/tools/updateSystemConfigs.js:76-94 | refused exactly for an item already advanced, repeated, base or experimental; otherwise the sorted advanced section with the items, the divider, and the experimental section unchanged |
| SystemConfigs.DeleteAdvanced | cdn/js/tools/updateSystemConfigs.js:95-107 | refused exactly for a missing item or one a quota uses; otherwise the remaining advanced entries sorted, then the divider and the experimental section unchanged |
| SystemConfigs.AddExperimental | cdn/js/tools/updateSystemConfigs.js:108-126 | the mirror image of the advanced addition, with the advanced section unchanged |
| SystemConfigs.DeleteExperimental | cdn/js/tools/updateSystemConfigs.js:127-139 | the mirror image of the advanced deletion, with the advanced section unchanged |
| SystemConfigs.AddableToSection | cdn/js/tools/updateSystemConfigs.js:78-90 | the two guards over sorted sections accept exactly the items new to all three lists |
| SystemConfigs.Run | cdn/js/tools/updateSystemConfigs.js:14-178 | a patch is sent only after a confirmed, valid edit; the run is refused exactly when the edit is invalid; verification passes exactly when the re-fetched field normalises to the patch |
| SystemConfigs.Rejoin | cdn/js/tools/updateSystemConfigs.js:165-168 | two divider-free sections joined by one divider split back into the same sections |
| SystemConfigs.NormalShape | cdn/js/tools/updateSystemConfigs.js:165-168 | two sorted sections around one divider are left unchanged by normalisation |
| SystemConfigs.DeleteBaseUndoesAddBase | cdn/js/tools/updateSystemConfigs.js:31-57 | deleting the base items just added gives back the original list, sorted |
| SystemConfigs.AddAdvancedIsNormal | cdn/js/tools/updateSystemConfigs.js:93-94 | an advanced addition that does not list the divider is already normal |
| SystemConfigs.DeleteAdvancedIsNormal | cdn/js/tools/updateSystemConfigs.js:106-107 | an advanced deletion is already normal |
| SystemConfigs.AddExperimentalIsNormal | cdn/js/tools/updateSystemConfigs.js:125-126 | an experimental addition is already normal |
| SystemConfigs.DeleteExperimentalIsNormal | cdn/js/tools/updateSystemConfigs.js:138-139 | an experimental deletion is already normal |
| SystemConfigs.PatchIsNormal | cdn/js/tools/updateSystemConfigs.js:157-172 | every patch already has the shape the check normalises to, so a server that stores it exactly passes; the one exception is an advanced addition that lists the divider |
| SystemConfigs.NormaliseBaseIffPermutation | cdn/js/tools/updateSystemConfigs.js:162-163 | a sorted base patch is verified exactly by re-fetched lists with the same entries in any order |
| SystemConfigs.NormaliseAdvancedIffSectionPermutation | cdn/js/tools/updateSystemConfigs.js:164-169 | a sectioned advanced patch is verified exactly when each re-fetched section holds the same entries, in any order |
| SystemConfigs.VerifiedMeans | cdn/js/tools/updateSystemConfigs.js:157-176 | "verified to be exactly as expected" means the server holds the patch's entries (section by section for the advanced list), in any order |
| ServiceQuotas.Grant | cdn/js/tools/updateServiceQuotas.js:50-67 | refused exactly for an item already allowed, repeated, base, or missing from the advanced list; otherwise a sorted list of the old entries plus the items |
| ServiceQuotas.Revoke | cdn/js/tools/updateServiceQuotas.js:69-82 | refused exactly for an item not present or repeated; otherwise a sorted list with every copy of the items gone and the rest kept |
| ServiceQuotas.Run | cdn/js/tools/updateServiceQuotas.js:12-116 | a patch is sent only after both confirmations and a valid edit; the run is refused exactly for an invalid edit after the first confirmation; verification compares the read-back list with the patch |
| ServiceQuotas.UnknownActionSendsEmptyPatch | cdn/js/tools/updateServiceQuotas.js:91-100 | an unknown action is not refused: an empty patch is sent and reported verified |
| ServiceQuotas.ExperimentalGrantable | cdn/js/tools/updateServiceQuotas.js:62-65 | any advanced-list entry, including an experimental directive or the divider, can be granted |
| ServiceQuotas.RevokeUndoesGrant | cdn/js/tools/updateServiceQuotas.js:50-82 | revoking the items just granted gives back the original list, sorted |
| ServiceQuotas.PatchMembers | cdn/js/tools/updateServiceQuotas.js:50-82 | after adding, the members are the old ones plus the items; after deleting, the old ones minus the items |
| Sorting.Sort | cdn/js/tools/updateSystemConfigs.js:44 | the default sort yields a sorted permutation of its input |
| Sorting.SortedUnique | cdn/js/tools/updateSystemConfigs.js:44 | two sorted lists with the same entries are equal, so the sort result depends only on the entries |
| Strings.Split | cdn/js/tools/updateSystemConfigs.js:20 | `split(',')` gives at least one piece, none containing a comma, and joining them gives back the text |
| Strings.SplitJoin | cdn/js/tools/updateSystemConfigs.js:20 | splitting comma-joined comma-free items gives back the items |
| Strings.TrimLeadingSlashes | cdn/js/client/Report.js:12 | every leading slash is removed, and nothing else |
| Strings.ParseIntOfNat | cdn/js/cdnpro-helper.js:332 | `parseInt` reads back a decimal number followed by any non-digit text |
| TimeRange.SpanMillis | cdn/js/cdnpro-helper.js:326-353 | a missing span is refused; an accepted span is a string with a leading integer and a known unit letter, worth that integer times the unit |
| TimeRange.SpanWholeSeconds | cdn/js/cdnpro-helper.js:338-353 | every accepted span is a whole number of seconds |
| TimeRange.SpanOfCount | cdn/js/cdnpro-helper.js:332-353 | "<n><unit>" reads back as n units |
| TimeRange.UnknownUnitRefused | cdn/js/cdnpro-helper.js:351-352 | any other final letter is refused |
| TimeRange.ReqTimeRange | cdn/js/cdnpro-helper.js:311-373 | an accepted window starts before it ends, and its end is no later than now; it is refused exactly when the clamped end is not after the start |
| TimeRange.BothEndsIgnoreSpan | cdn/js/cdnpro-helper.js:325 | with both ends given, the span does not matter |
| TimeRange.FromStart | cdn/js/cdnpro-helper.js:354-355 | from a start, the window runs one span forward and is cut at now |
| TimeRange.FromEnd | cdn/js/cdnpro-helper.js:356-357 | from an end, the start is one span before the end as given, before the end is clamped |
| TimeRange.Centred | cdn/js/cdnpro-helper.js:358-361 | around a centre that is far enough in the past, the window is symmetric and exactly one span long |
| TimeRange.EvenSpan | cdn/js/cdnpro-helper.js:360-361 | halving a span loses nothing |
| TimeRange.SpanRequired | cdn/js/cdnpro-helper.js:325-328 | without both ends, a missing span is refused |
| Query.EncodeQuery | cdn/js/client/ApiCore.js:10-23 | empty exactly when no entry survives; otherwise '?' followed by the surviving parts joined by '&' |
| Query.WithQuery | cdn/js/client/ApiCore.js:25-31 | the path is always a prefix; it is unchanged exactly when the query encodes to nothing; otherwise the query follows '?' or '&' |
| Query.EncodedListClean | cdn/js/client/ApiCore.js:15-17 | an encoded list never contains '&' or '=' |
| Query.PartsShape | cdn/js/client/ApiCore.js:13-21 | each part is one encoded key, '=' and the encoded value, with no '&' |
| Query.ParseEncodeQuery | cdn/js/client/ApiCore.js:10-23 | reading the query string back gives every surviving entry, in order, as its encoded key and value |
| Query.ParamPartsMembers | cdn/js/cdnpro-helper.js:471-480 | a part is produced exactly for each truthy considered field |
| Query.LimitAlwaysConsidered | cdn/js/cdnpro-helper.js:471 | `limit` is sent whatever the endpoint's parameter list |
| Query.BuildQueryParams | cdn/js/cdnpro-helper.js:468-490 | falsy options give ''; a bad range throws its message; otherwise the result is empty exactly when no parameter is truthy and no range is asked for, and is otherwise '?' followed by the truthy considered fields' parts, then the range part when a range field is set, joined by '&' |
| Query.BuildQueryParamsSplits | cdn/js/cdnpro-helper.js:468-487 | splitting a built query string at '&' gives back each truthy parameter's `name=value` part in order, then `startDate` and `endDate` of the window when a range was asked for |
| Query.ZeroKeptOnlyByEncodeQuery | cdn/js/client/ApiCore.js:14 | a 0 value is sent by `encodeQuery` but dropped by `buildQueryParams` |
| Auth.RangeHeaders | cdn/js/client/ApiCore.js:108-110 | `noCache` sets Cache-Control; a truthy `reportRange` wins over `includeChildren` for Report-Range; other headers are kept |
| Auth.IdentityHeaders | cdn/js/client/ApiCore.js:111-112 | On-Behalf-Of is set by the builder's test on the value (stringified for the client); a non-nullish `debug` sets x-debug |
| Auth.OptionHeaders | cdn/js/client/ApiCore.js:107-115 | option headers never disturb any other header, and each is set exactly under its option's test |
| Auth.KeepsBase | cdn/js/client/ApiCore.js:92-98 | no option touches the five base headers |
| Auth.BuildAuth | cdn/js/cdnpro-helper.js:21-76 | fails without server info, with a non-string key, or on an unknown report range; otherwise has the base headers and the host, and takes abortOnError and verbose from the options only when they are set, else true and 0 |
| Auth.HelperRefusesUnknownRange | cdn/js/cdnpro-helper.js:54-61 | the helper throws on an unknown report range, naming it |
| Auth.BuildAuthAsWritten | cdn/js/client/ApiCore.js:89-115 | as written, `abortOnError` is whatever the caller passed, undefined included |
| Auth.BuildAuthCore | cdn/js/client/ApiCore.js:76-118 | fails exactly on incomplete info or a non-string key; a nullish abortOnError or verbose falls back to true or 0; the base headers are kept; On-Behalf-Of is sent for any non-nullish value, as a string |
| Auth.AbortFlagsAgreeWhenSet | cdn/js/client/ApiCore.js:100-113 | the written and corrected builders agree on abortOnError exactly when the caller sets it |
| Auth.ClientSendsUnknownRange | cdn/js/client/ApiCore.js:110 | the client forwards any truthy report range unchecked |
| Auth.ZeroBehalfOnlyClientSends | cdn/js/cdnpro-helper.js:62-64 | `onBehalfOf: 0` is dropped by the helper but sent as "0" by the client |
| Auth.Settle | cdn/js/client/ApiCore.js:192-200 | the call rejects exactly on a status other than 200/201/204 with abortOnError true; the decoded body is kept either way |
| Auth.Decode | cdn/js/client/ApiCore.js:182-190 | non-JSON replies are text; empty JSON is null; unparsable JSON falls back to the text |
| Auth.MergeGet | cdn/js/client/ApiCore.js:277 | after merging, each field is the request's when it sets the field, else the default's |
| Auth.WithHeaders | cdn/js/client/ApiCore.js:297-299 | a caller's header wins; built headers the caller does not name are kept; nothing else appears |
| Auth.ContentTyped | cdn/js/client/ApiCore.js:301-304 | a truthy Content-Type is kept as it is, otherwise the JSON type is set; other headers are untouched |
| Auth.QueryEntries | cdn/js/client/ApiCore.js:13 | `Object.entries` of the query: none for a falsy query, an object's own entries, a string's characters and an array's elements under their indices, nothing for a number or `true` |
| Auth.StringQueryEncodes | cdn/js/client/ApiCore.js:10-23 | `encodeQuery('ab')` is '?0=a&1=b': one index-keyed part per character |
| Auth.StringQueryByIndex | cdn/js/client/ApiCore.js:25-31 | a string query 'ab' is sent as '?0=a&1=b' |
| Auth.Prepare | cdn/js/client/ApiCore.js:276-312 | with the corrected `_buildAuth`: the path carries the query; abortOnError defaults to true; a body is sent exactly when it is not nullish, serialised and with a content type |
| Auth.Request | cdn/js/client/ApiCore.js:276-316 | with the corrected `_buildAuth`: fails exactly on a non-OK status with abortOnError true; otherwise returns the decoded body, with its context exactly when `raw` is truthy |
| Auth.ErrorStatusRejects | cdn/js/client/ApiCore.js:284-292 | with the corrected `_buildAuth`: a request fails on an error status exactly when the effective abortOnError is unset or true (as written, unset resolves; see Auth.SpreadKeepsUndefinedAbort) |
| Auth.SpreadKeepsUndefinedAbort | cdn/js/client/ApiCore.js:89-113 | as written, a request that never sets abortOnError resolves on an error status |
| Auth.DefaultRequestRejects | cdn/js/client/ApiCore.js:100 | with the corrected builder, the same request rejects |
| Auth.CallerHeaderWins | cdn/js/client/ApiCore.js:297-299 | a caller's Authorization header replaces the signed one |
| Auth.LowerCaseTypeKeepsDefault | cdn/js/client/ApiCore.js:301-304 | a lower-case `content-type` from the caller does not stop the JSON type being added |
| ReportPath.Normalise | cdn/js/client/Report.js:12 | the result is always under '/cdn/report/'; a path already there is kept, else its leading slashes are dropped and the prefix added |
| ReportPath.NormaliseIdempotent | cdn/js/client/Report.js:12 | normalising twice equals normalising once |
| ReportPath.SlashesIgnored | cdn/js/client/Report.js:12 | any number of leading slashes before a name gives the same path |
| ReportPath.OneSlashMatters | cdn/js/client/Report.js:12 | 'cdn/report/vol' is doubled while '/cdn/report/vol' is kept |
| ReportPath.PrefixWithoutSlashDoubles | cdn/js/client/Report.js:12 | '/cdn/report' without the trailing slash is doubled |
| ReportPath.Post | cdn/js/client/Report.js:10-14 | a falsy endpoint throws; the result succeeds exactly for a truthy string; the path is under the prefix; query and body, `{}` when left out or undefined, override the caller's options, whose other fields are kept |
| ReportPath.ReportAlwaysSendsBody | cdn/js/client/Report.js:10-13 | a report request that leaves out the body, or passes it as undefined, sends the default `{}` with a content type |
| DiffText.Shorten | cdn/js/cdnpro-helper.js:401-408 | lines of at most 102 characters are unchanged; longer lines keep their first and last 40 around a marker counting the rest |
| DiffText.ShortenCanLengthen | cdn/js/cdnpro-helper.js:402-404 | a 103-character line gets longer |
| DiffText.CutContext | cdn/js/cdnpro-helper.js:421-439 | shown plus skipped lines are all the lines; lines are elided exactly above 4 at an end or 7 in the middle, and then three lines of context stay on each inner side |
| DiffText.GetDiffTxt | cdn/js/cdnpro-helper.js:395-443 | the text is empty exactly for no change (a single unchanged part, or no parts) |
| DiffText.MarkEveryLine | cdn/js/cdnpro-helper.js:417-420 | the marker joins mark every line of an added or removed part |
| CliArgs.Parse | cdn/js/test/integration-test-client.js:6-24 | positionals are collected in order and never look like flags; a bound value is a non-empty non-flag token |
| CliArgs.ParseArgs | cdn/js/test/integration-test-client.js:6-24 | the parse is well formed and skips the first two entries |
| CliArgs.ParseArgsRoundTrip | cdn/js/test/integration-test-client.js:8-22 | positionals followed by `--key value` pairs read back as those positionals and pairs, a later key winning |
| CliArgs.FlagWithoutValue | cdn/js/test/integration-test-client.js:16-21 | a flag with no usable value is `true`, and the next token is read on its own |
| CliArgs.Either | cdn/js/test/integration-test-client.js:39-41 | a truthy flag wins; otherwise the environment variable, if set |
| CliArgs.LoadServerInfo | cdn/js/test/integration-test-client.js:26-47 | a bare `--cred` throws; a complete file is used as is; without `--cred`, the load succeeds exactly when host, user and key are truthy, else it fails with the missing-credentials message; success always gives complete info |
| CliArgs.FlagBeforeEnvironment | cdn/js/test/integration-test-client.js:39-42 | a `--host` flag wins over the environment |
| CliArgs.BareSecretKeyFlag | cdn/js/test/integration-test-client.js:16-21 | `--secretKey` with no value loads the key `true`, which signing then refuses |
| CliArgs.ExitCode | cdn/js/test/integration-test-client.js:171-172 | the code is 2 exactly when some probe failed, else 0 |
| CliArgs.Run | cdn/js/test/integration-test-client.js:49-75 | help exits 0; the code is 1 exactly when credentials cannot be loaded; once they are loaded, the code is 2 exactly when some probe failed and 0 exactly when every probe was ok |
| CliArgs.ProbesSeeErrorStatus | cdn/js/test/integration-test-client.js:78-84 | with `abortOnError: false`, an error status resolves, so the probe sees the status instead of an exception |

## Left out

- File I/O (`fs.readFileSync`, `saveDB`), console output and `process.exit`: each stage returns the saved store, the memory and how it ended; messages are reduced to their kinds.
- Signing and the clock: the HMAC-SHA1 digest, base64 and `toUTCString()` are inputs (`Signature`).
- The transport: keep-alive agents, `_resetAgents` and `newConnection`, socket timing, gzip/brotli decompression, the 10- and 30-second timeouts, the `family` option. A timeout or a transport failure is a `TransportFailure` reply.
- The helper's `callServer` in callback (`proc`) mode, its XML decoding, and its `JSON.parse` throwing on a malformed body.
- Concurrency in New: New does not await `sema.acquire()` (line 318) or the validation polls it starts. The model runs New one record at a time; the semaphore is modelled on its own.
- CheckStage.CheckAsWritten: replies are taken to arrive oldest first, and only while the loop waits for a slot or after it has ended. Replies that overtake one another are not modelled. A reply that fails (a failed request, or the sanity check) crashes the run, except a reply that fails the sanity check as the last lookup in flight: its `release()` ends the wait, and the save and `process.exit(0)` run before the error is reported. That ordering is read from Node's promise semantics.
- CheckLoopFacts, CheckLoopCounts, CheckTouchesOnlyPending: these describe the stage run one lookup at a time. As written, two lookups are in flight at once. Matches can then exceed the batch limit by two, and a store with at most two pending records is never checked (see "## Findings").
- The 5-second waits between polls; a poll sequence that ends without a terminal status stands for polling forever (`Hung`).
- Store.CreatedVersion: only an all-digit suffix is read as a version number, and every other suffix counts as a failed creation. `Number()` also reads other numeric text. ' 12' gives 12, '0x1F' gives 31, '1e3' gives 1000, and '-5' and '1.5' give those numbers. The source would store any of them as the version. Text that is no numeric literal gives NaN, which also passes the `newVNum == 0` test and would be stored as NaN.
- Store.CreatedValidation: only an all-digit suffix is compared with zero. `newVNum == 0` converts the string with `Number()`, so '0.0', '-0', '0x0', '0e1' and ' 0' also count as zero in the source and are refused there. So does a suffix of white space only, which `Number()` reads as 0. The model accepts all of these as ids.
- TimeRange.ReqTimeRange: date parsing, invalid dates (NaN) and the ISO formatting are parameters; `parseInt` is modelled without leading white space or a `0x` prefix.
- Query.BuildQueryParamsSplits: holds for parameter names without '&' (the helper's callers pass fixed names) and an encoder that escapes '&' as `encodeURIComponent` does.
- Query.BuildQueryParams: `buildQueryParams` appends 'limit' and 'offset' to the caller's array; every caller passes a fresh literal, so that mutation is not modelled.
- Auth.WithHeaders: a truthy caller `headers` value that is not an object (a string would spread its characters) adds nothing here.
- Auth.QueryEntries: a string query is split into characters, not into UTF-16 code units, so the indices differ for characters outside the Basic Multilingual Plane.
- Numbers: `Num` holds integers only. Fractions, NaN, infinities and negative zero are not modelled.
- Objects: an `Obj` is a list of entries and may repeat a key, which no JavaScript object does. Lookups read the last entry with a key, while `encodeQuery` would send every repeated entry. The model does not rule such values out; the objects the scripts build have distinct keys.
- The percent-encoding, `JSON.stringify` and `JSON.parse` functions are parameters.
- The diff library (`Diff.diffJson`, `Diff.diffLines`) is an input: `getDiffTxt` receives the parts.
- Sorting.Sort: JavaScript compares UTF-16 code units, the model compares characters; the orders differ only for characters outside the Basic Multilingual Plane.
- The `reset` and `test` steps of `main()` (delete the file; `testConfig` refers to an undefined `testPV`), the `usage()` texts and the argument-count checks of the tool scripts.
- `checkAdvDirUsers` only contributes the number of quotas using a directive; listing the customers for the message is left out.
- Find assumes the remote listing does not change while it is paged through, and takes its `count` as the length of that listing.
- ReportPath.Post: the model takes `query` and `body` as they are destructured. A `null` second argument makes that destructuring throw a TypeError in the source, and is not modelled.
- ReportPath.Post: a `reqOptions` that is not an object is not modelled. Spreading a string would copy its characters under index keys, and spreading a number or boolean copies nothing. The model reads its fields as those of an object.
- The other API wrappers of the helper and of the client classes (customers, properties, certificates, purges and so on), and every `Report` method other than `post`.

## Findings

| source | as written | input that shows it | evidently intended | confidence | as-written member | corrected member |
|---|---|---|---|---|---|---|
| cdn/js/client/ApiCore.js:284-292 | `request` always passes the key `abortOnError: merged.abortOnError`. `_buildAuth` spreads it over the default `abortOnError: true` (lines 100-102), and the `!= null` test at line 113 does not restore the default, so `abortOnError` stays undefined | a client with no defaults calls `request('GET', '/cdn/properties')` and gets status 500: `_callServer` resolves with the error body (line 192) instead of rejecting | a request that does not set `abortOnError` rejects on a status other than 200/201/204. The default `true` at line 100 and the explicit opt-out `abortOnError: false` in test/integration-test-client.js:82 both point that way | high; not executed | Auth.SpreadKeepsUndefinedAbort | Auth.DefaultRequestRejects |
| cdn/js/tools/batchUpdateProperties.js:241 | `cnt` grows only when a lookup's reply arrives (line 203). `await sema.acquire()` returns at once while fewer than two lookups are in flight, so with at most two pending records the loop ends with `cnt == 0`. The stage then skips `allDone` and the save, and `process.exit(0)` at line 102 drops the lookups still in flight | a store with one record that has no `condition` yet and a batch limit of 50: `check` exits 0 without saving any verdict, and every rerun does the same | every pending record is looked up and its verdict saved, as the save after `allDone` at lines 243-245 does for larger stores | high; not executed | CheckStage.CheckAsWrittenFewPending | CheckStage.CheckSavesEveryLookup |
| cdn/js/tools/batchUpdateProperties.js:193 | the limit test reads `matched`, which counts only lookups whose replies have arrived, while two more may be in flight | batch limit 1 and three pending records that all match: all three are saved as matched | at most `batchLimit` records are matched in one run | medium; not executed | CheckStage.CheckAsWrittenMatchesPastLimit | CheckStage.CheckLoopCounts |
