# Call analysis backend: a verified model

A backend takes uploaded sales calls, transcribes and analyses them in worker processes, scores
them against a rubric and shows them to the members of a workspace. This project models the parts
whose guarantees span many steps, and proves those guarantees.

- **Processing a call.** `CallStatus` is the lifecycle and its transition table. `LockRegistry` is the
  per-process lock registry as a state machine over its four critical sections, and as the classes
  with their counters. `Pipeline` is one operation of a worker on one row as a total function, with
  its invariant, its rank and the fault-free run. `Workers` runs any number of workers with stale local
  status, crashes, failures and writes that commit but report an error; `Freezing` says when a completed
  call can still change there. `SingleProcessor` puts the registry in front of them. `Processor` is the
  real loop with its early returns, proved to do exactly what the step function does in every world.
- **What a call is worth.** `Scoring`, `Playbooks` and `Analysis`, on the 64-bit integers of `Machine`:
  the calculator's loops, playbook validation, the answer's round trip, the score table with its CHECKs
  and what reads back from it.
- **Who belongs to a workspace.** `Memberships` has the two row triggers, the foreign key and the
  store; `Invitations` adds the upserts, the invitation and account transactions and all runs of them.
- **Which calls a member sees.** `Placeholders` is the string loop that renumbers placeholders and
  exactly when it is a shift; `Reading` is how the database reads a clause; `Scope` is the three builders,
  the rule they all express, and the proof that their texts, read back, say it.
- **Sessions and tokens.** `Sessions` is the refresh-token lineage over interleaved requests;
  `ActionTokens` is the one-time tokens and the password reset that uses them.
- **Whole-run transactions.** `Migrations` is the migration runner; `UploadSaga` is the upload with its
  compensations; `PlaybookDefaults` is the default flag; `Paging` is the arithmetic of the listings.

Stores are maps with atomic operations. A store operation may fail, and most may also take effect and
then report an error. Calls out of the program (providers, clocks, fresh identifiers) are parameters.
Hashes are injective and fresh identifiers are unused.

Where the code does not keep a promise, the model keeps the code and states when it does:

- A slow second process may replace the transcript or the result of a completed call
  (`Freezing.SlowProcessOverwrites`). `Freezing.FrozenExactly` says for which workers that can still
  happen; with all deliveries through one process it cannot (`SingleProcessor.StoredOnceAndForAll`).
- `Update` accepts a request that makes a membership its own supervisor
  (`Memberships.SelfSupervisionIsAccepted`); nothing else breaks the supervisor links
  (`Memberships.StoreUpdateKeepsSupervisorsExactly`).
- `Validate` bounds no maximum, so it accepts playbooks some of whose accepted scores the score table
  refuses (`Analysis.StorableExactly`), and playbooks whose maxima overflow, for which the calculator's
  last check refuses complete scores in range (`Playbooks.GuardDeadForPlaybookExactly`).
- The detected language of an analysis has no column and does not read back
  (`Analysis.ValidatedReadsBackButLanguage`).
- Renaming a playbook writes back the default flag it had when the request read it, and so may move the
  default; `PlaybookDefaults.RenameKeepsDefaultsExactly` says when.
- The placeholder loop is right for `$1` to `$8` only (`Placeholders.RenumberingIsShiftExactly`). The
  builders send at most four arguments, so no query they build is affected.
- The comment on `RunMigrations` promises lexical *version* order; the code sorts file *names*
  (`Migrations.FileOrderIsVersionOrderExactly`). The repository's numbered files agree on both.
- The comment on `RollbackCreate` says a durable row is not stranded. A row can lose its audio when the
  insert commits but reports an error, and a failed row delete leaves both
  (`UploadSaga.MissingAudioExactly`, `UploadSaga.FailedRequestLeavesNothingExactly`).
- The workspace call listing orders by creation time alone, so its pages fit together only if no tie
  crosses a page boundary (`Paging.CallPagesFitExactly`).

## Model

| member | source | states |
|---|---|---|
| `LockRegistry.StepKeepsInv` | internal/jobs/processor.go:79-103 | each of the four critical sections keeps: threads of a call share the map's object, different calls have different objects, the count is the number of threads waiting, holding or released but not gone, and a held mutex has the one holder that believes it |
| `LockRegistry.RunKeepsInv` | internal/jobs/processor.go:66-103 | the same over every interleaving from the empty registry |
| `LockRegistry.MutualExclusion` | internal/jobs/processor.go:79-103 | two threads past `Lock` for one call are the same thread |
| `LockRegistry.NoLeak` | internal/jobs/processor.go:94-102 | the map holds exactly the calls some live thread is counted on, and is empty when all are idle |
| `LockRegistry.DropDeletesOnlyTheIdleLock` | internal/jobs/processor.go:94-102 | the delete removes that call's own lock, and only when nobody else is counted on it |
| `LockRegistry.LaterCallerJoins` | internal/jobs/processor.go:80-91 | a later caller gets the very lock the waiting threads are queued on |
| `LockRegistry.EveryStepIsWork` | internal/jobs/processor.go:79-103 | every step of a live thread lowers the steps the live threads still have to take |
| `LockRegistry.SomeThreadCanStep` | internal/jobs/processor.go:79-103 | no deadlock: while a thread is live, some live thread can take its next step |
| `LockRegistry.Drains` | internal/jobs/processor.go:79-103 | from every state the live threads can all finish, leaving the map empty |
| `LockRegistry.CallLockRegistry.Enter` | internal/jobs/processor.go:80-91 | on the real fields: the new state is the Enter step of the old one |
| `LockRegistry.CallLockRegistry.Acquire` | internal/jobs/processor.go:92-92 | taking the free mutex is the Acquire step |
| `LockRegistry.CallLockRegistry.Unlock` | internal/jobs/processor.go:93-95 | the unlock is the Unlock step |
| `LockRegistry.CallLockRegistry.Drop` | internal/jobs/processor.go:96-102 | decrementing and deleting at zero is the Drop step |
| `Pipeline.OperationIsSound` | internal/jobs/processor.go:160-333 | one operation, whatever it is answered, keeps the row's invariant and what the worker relies on, and moves the row only along allowed changes |
| `Pipeline.RankFalls` | internal/jobs/processor.go:160-288 | every operation takes a worker to a strictly lower rank, so every delivery ends |
| `Pipeline.AttemptsAreAllowed` | internal/modules/calls/model.go:65-104 | every status write a worker attempts, each `fail` included, is in the table |
| `CallStatus.TransitionsExactly` | internal/modules/calls/model.go:65-95 | the table: statuses at work may fail, new and failed calls may be queued, and otherwise a call moves one stage on |
| `Pipeline.MissingTranscriptMeansDeleted` | internal/jobs/processor.go:206-210 | without a store error, the missing-transcript branch is taken if and only if the call was deleted |
| `Pipeline.ScoringNeverFailsAfterValidation` | internal/jobs/processor.go:255-268 | once the answer validates, the score-calculation failure branch is unreachable |
| `Pipeline.LuckyRunCompletes` | internal/jobs/processor.go:160-288 | a fault-free solo run completes the call in exactly the status writes its status has left, at most five, reusing stored checkpoints |
| `Pipeline.UnluckyRunFails` | internal/jobs/processor.go:255-275 | conversely, an answer refused by validation or by the score table ends with the call marked failed |
| `Pipeline.ScoredWithItsPlaybook` | internal/jobs/processor.go:212-275 | a fault-free run of a call without a result, whose playbook has criteria, completes if and only if the answer validates against those criteria and the score can be stored; then the stored result is the validated answer with exactly their keys and their sum, and otherwise the call is failed without a result |
| `Pipeline.ScoredWithTheDefault` | internal/jobs/processor.go:212-275 | the same with the default rubric when there is no playbook or it has no criteria |
| `Pipeline.FailuresSayWhatFailed` | internal/jobs/processor.go:174-275 | which of the three messages a failure carries, and which status it is recorded under, is decided by the operation that failed |
| `Pipeline.ErrorsEndTheDelivery` | internal/jobs/processor.go:160-333 | every reported error, also of a write that took effect, ends the delivery or sends it to fail |
| `Pipeline.SwapsExactly` | internal/modules/calls/processing_store.go:49-80 | a status write changes status and error, and nothing else, exactly when it is in the table, in the workspace, and finds the status it expects |
| `Pipeline.FakeProviderIsLucky` | internal/integrations/ai/fake.go:16-26 | the fake provider's answer lets every call complete whose rubric fits the score table |
| `Workers.StepKeepsInv` | internal/jobs/processor.go:120-333 | creating, queueing, deleting, delivering, acting and crashing all keep the system's invariant |
| `Workers.EveryReachableStateIsSafe` | internal/jobs/processor.go:160-333 | over every run of any number of processes: a transcript exists from transcribed on, completed has analysis and storable score, and a call has one of the three messages exactly while it is failed |
| `Workers.CompletedIsAbsorbing` | internal/modules/calls/model.go:65-90 | nothing but deletion takes a call out of completed |
| `Workers.FinishedStaysCompleted` | internal/jobs/processor.go:160-283 | after a delivery returned nil its call is completed for good, unless deleted |
| `Workers.ReachableAttemptsAreAllowed` | internal/jobs/processor.go:301-333 | the table never refuses any reachable worker, however stale its local status |
| `Workers.ReachableCallsCanComplete` | internal/jobs/processor.go:120-289 | from every reachable state a fresh fault-free delivery is a run that completes the call |
| `Workers.NoWorkerTouchesAnotherWorkspace` | internal/jobs/processor.go:120-289 | over every run of any number of processes a worker delivered for a workspace changes no row of another one, although checkpoints are written by call ID alone |
| `Freezing.StepChangesCompletedExactly` | internal/jobs/processor.go:192-275 | one event of anybody changes a completed call if and only if it is an upsert, taking effect, of something other than what is stored |
| `Freezing.FrozenExactly` | internal/jobs/processor.go:160-288 | a completed call never changes again, over every future run of any number of processes, if and only if no worker on it still needs a transcript or an analysis or holds one that differs from what is stored |
| `Freezing.SlowProcessOverwrites` | internal/jobs/processor.go:192-195 | a run from the empty system in which a completed call's transcript is replaced, and its result then matches no stored transcript |
| `Freezing.SlowProcessReplacesTheResult` | internal/jobs/processor.go:205-275 | a run from the empty system in which a completed call's result is replaced |
| `SingleProcessor.StepKeepsInv` | internal/jobs/processor.go:130-131 | registry and pipeline composed keep both invariants, and the lock's holder sees its checkpoints move only by its own hand |
| `SingleProcessor.StoredOnceAndForAll` | internal/jobs/processor.go:174-283 | through one processor a stored transcript or result is never replaced and a completed call never changes |
| `SingleProcessor.ResultMatchesTranscript` | internal/jobs/processor.go:206-272 | in every reachable state the stored result was computed from the stored transcript |
| `SingleProcessor.OneDeliveryAtATime` | internal/jobs/processor.go:130-131 | at most one delivery of a call runs the pipeline at a time |
| `Processor.Delivery.Transition` | internal/jobs/processor.go:301-323 | refuses a change outside the table unsent, otherwise compares and sets; the local status changes only on success |
| `Processor.Delivery.Fail` | internal/jobs/processor.go:325-333 | marks the call failed with the fixed message, unless that write fails |
| `Processor.Delivery.MakeTranscript` | internal/jobs/processor.go:174-196 | reuses a stored transcript, otherwise transcribes and upserts, failing with the right message at each step |
| `Processor.Delivery.MakeResult` | internal/jobs/processor.go:212-268 | the worker reaches the point the step function reaches, with the same result; which rubric that is, `Pipeline.ScoredWithItsPlaybook` says |
| `Processor.Delivery.NewAnalysis` | internal/jobs/processor.go:205-275 | loads the transcript, makes the result and stores analysis and score together |
| `Processor.Delivery.MakeAnalysis` | internal/jobs/processor.go:199-279 | reuses a stored analysis or makes a new one |
| `Processor.Delivery.Process` | internal/jobs/processor.go:120-289 | terminates in every world, and leaves exactly the row and outcome that iterating the step function reaches |
| `Processor.LawfulPlayIsSound` | internal/jobs/processor.go:120-289 | under any lawful interference the loop leaves a sound row; nil means completed or deleted |
| `Processor.ProcessQuietly` | internal/jobs/processor.go:120-289 | undisturbed and fault-free, the loop completes every sound call its delivery may see |
| `Processor.ProcessScores` | internal/jobs/processor.go:120-289 | undisturbed and fault-free, the loop returns nil exactly when the answer validates against the criteria of the call's playbook, or the default ones without any, and the score can be stored; and what it then stores |
| `Scoring.CalculateWithCriteria` | internal/modules/scoring/calculator.go:24-61 | succeeds exactly when every score is known and in range, none is missing and the guard on the 64-bit sums is silent; the result is the given scores and their wrapped sum, in whatever order the maps are read |
| `Scoring.TotalGuardIsDead` | internal/modules/scoring/calculator.go:49-58 | with distinct keys, scores past the checks have exactly the rubric's keys and an exact total between 0 and the sum of maxima; while that sum does not overflow the guard never fires and nothing has wrapped |
| `Scoring.GuardDeadExactly` | internal/modules/scoring/calculator.go:24-58 | for distinct keys and no negative maximum the guard is dead if and only if the wrapped sum of the maxima is the smaller of the sum and the largest integer |
| `Scoring.EveryTotalIsReached` | internal/modules/scoring/calculator.go:34-55 | with distinct keys every total up to the sum of the maxima is the total of scores that pass the checks |
| `Scoring.GuardAliveExactly` | internal/modules/scoring/calculator.go:24-58 | for every rubric, repeated keys included: the guard fires on some scores only if no listed maximum is negative and full marks reach more than the wrapped sum; and then always, unless repeated keys overflow |
| `Scoring.DuplicateKeyReachesGuard` | internal/modules/scoring/calculator.go:56-58 | a rubric listing a key twice that reaches it |
| `Scoring.MapSumIsListSum` | internal/modules/scoring/model.go:48-64 | summing a map over its own keys is summing it over the criteria list |
| `Scoring.CalculateTotal` | internal/modules/scoring/model.go:48-64 | accepts exactly the in-range maps, complete or partial, with their map sum; the check against 100 never refuses |
| `Scoring.TotalsAgree` | internal/modules/scoring/calculator.go:19-61 | whenever `Calculate` succeeds, `CalculateTotal` succeeds with the same total |
| `Scoring.NoCriteriaMeanTheDefault` | internal/modules/scoring/calculator.go:25-27 | an empty criteria list accepts and scores as the default one |
| `Playbooks.Validate` | internal/modules/playbooks/model.go:36-66 | accepts exactly the valid playbooks: name and criteria present, trimmed keys distinct and not blank, titles, positive maxima, and a 64-bit sum other than zero; the last refusal is the zero-total error and no other |
| `Playbooks.ValidRubric` | internal/modules/playbooks/model.go:36-66 | although keys are compared trimmed and kept untrimmed, the rubric of a valid playbook has distinct keys and positive maxima |
| `Playbooks.GuardDeadForPlaybookExactly` | internal/modules/playbooks/model.go:36-66 | for a valid playbook the calculator's guard is dead if and only if the wrapped sum of its maxima is not below what full marks reach; so always while the sum does not overflow |
| `Playbooks.OverflowingPlaybook` | internal/modules/playbooks/model.go:36-66 | a valid playbook with a live guard: of all complete scores in range only full marks are accepted |
| `Playbooks.ZeroTotalIsReached` | internal/modules/playbooks/model.go:62-64 | positive maxima whose 64-bit sum is zero, so that the zero-total check is alive |
| `Playbooks.BlankMeansAllSpace` | internal/modules/playbooks/model.go:40-52 | a text is blank after trimming if and only if it is all white space |
| `Playbooks.TrimsExactly` | internal/modules/playbooks/model.go:36-52 | trimming cuts all white space at both ends and nothing else |
| `Playbooks.DefaultCriteriaAreTheDefaultRubric` | internal/modules/playbooks/model.go:69-80 | the seeded criteria are the built-in rubric, and under any name that is not blank they are a valid playbook |
| `Analysis.ParseInvertsEncode` | internal/modules/analysis/parser.go:47-109 | encoding then parsing returns the analysis if and only if it is complete for the rubric, unchanged but for nil violation and coaching lists |
| `Analysis.ParsedIsComplete` | internal/modules/analysis/parser.go:47-109 | whatever parses is complete for the rubric, and parsing it again changes nothing |
| `Analysis.ParsesExactly` | internal/modules/analysis/parser.go:47-139 | which decoded payloads parse, field by field, absent and null told apart, and what each field becomes |
| `Analysis.ScoringAfterValidationNeverFails` | internal/jobs/processor.go:367-377 | a validated answer is accepted by the calculator for the same rubric |
| `Analysis.FakeAnalyze` | internal/integrations/ai/fake.go:16-26 | the loop gives every criterion of the rubric, and no other, half its maximum, truncated |
| `Analysis.HalfTruncates` | internal/integrations/ai/fake.go:20-25 | half a maximum is truncated toward zero |
| `Analysis.FakeAnswerValidates` | internal/integrations/ai/fake.go:16-26 | that answer validates for a rubric with distinct keys and positive maxima if and only if the halves wrap to no more than the maxima do; so always without overflow, with the sum of the halves as total |
| `Analysis.StorableExactly` | migrations/000001_initial_schema.up.sql:82-96 | every score a rubric accepts can be stored if and only if its maxima sum, exactly, to at most 100 and no default key exceeds its column |
| `Analysis.AValidPlaybookThatDoesNotFit` | internal/modules/playbooks/model.go:36-66 | a valid playbook whose full marks the calculator accepts and the table refuses |
| `Analysis.ColumnsHoldTheirCriteria` | internal/modules/analysis/store.go:263-291 | each column is written with the criterion of its name, zero when the rubric lacks it |
| `Analysis.ValidatedReadsBackButLanguage` | internal/modules/analysis/store.go:50-158 | what is written of a validated analysis reads back unchanged but for the detected language, which has no column |
| `Analysis.ReadsBackTotalAndColumns` | internal/modules/analysis/store.go:133-155 | for every rubric the stored total and each of the eight columns read back |
| `Analysis.DefaultRubricReadsBackExactly` | internal/modules/analysis/store.go:133-155 | under the default rubric all criteria read back with their numbers, and the columns sum to the total |
| `Analysis.ResultTables.UpsertWithScore` | internal/modules/analysis/store.go:160-298 | replaces both rows or neither, refusing unknown calls and scores outside the CHECKs |
| `Analysis.ResultTables.Get` | internal/modules/analysis/store.go:50-158 | the stored analysis with the score rebuilt from its columns, or an empty score when it has no score row |
| `Memberships.UpdateKeepsSupervisorsExactly` | migrations/000003_multi_tenant_workspaces.up.sql:149-177 | an accepted row update keeps supervisor links well formed if and only if the row does not name itself |
| `Memberships.UpdateKeepsOwners` | migrations/000003_multi_tenant_workspaces.up.sql:179-198 | an accepted row update leaves every workspace that had an active owner with one |
| `Memberships.DeleteKeepsSupervisors` | migrations/000003_multi_tenant_workspaces.up.sql:21-31 | a row delete with its SET NULL keeps the links well formed |
| `Memberships.DeleteKeepsOwners` | migrations/000003_multi_tenant_workspaces.up.sql:179-198 | an accepted delete leaves an active owner |
| `Memberships.StoreUpdateKeepsSupervisorsExactly` | internal/modules/memberships/store.go:91-141 | the store's update breaks the links if and only if it demotes an active supervisor to manager while naming that row as supervisor |
| `Memberships.UpdateWritesExactly` | internal/modules/memberships/store.go:91-141 | a successful update writes role, status and supervisor as asked and keeps what was not asked for; a supervisor survives only on a manager, unless cleared or replaced; workspace and user stay, and other rows change at most by losing their link to this one |
| `Memberships.UpdateRefusedExactly` | internal/modules/memberships/store.go:91-141 | an update is refused if and only if the row is not in the workspace, the supervisor named is none, the last active owner would go, or the row keeps itself as supervisor |
| `Memberships.OtherRowsLoseLinksOnly` | migrations/000003_multi_tenant_workspaces.up.sql:149-172 | another row loses its link exactly when it names the changed row, in its workspace, and that row stops being an active supervisor |
| `Memberships.DeleteWritesExactly` | internal/modules/memberships/store.go:143-152 | a delete is refused exactly for an absent row or the last active owner; otherwise the row goes and links to it are cleared |
| `Memberships.SelfSupervisionIsAccepted` | internal/modules/memberships/store.go:91-141 | a two-row table on which that request succeeds |
| `Memberships.StoreOperationsKeepOwners` | internal/modules/memberships/store.go:91-152 | neither store operation takes a workspace's last active owner |
| `Memberships.StoreOperationsKeepLinks` | internal/modules/memberships/store.go:91-152 | whatever is requested, only managers have supervisors, and each is an active supervisor of the same workspace or the manager itself |
| `Memberships.LeavingSupervisorFreesTheTeam` | migrations/000003_multi_tenant_workspaces.up.sql:149-172 | on every table that can arise, a supervisor who steps down or leaves takes every link of the team along |
| `Memberships.OnlyOwnersChangeLeaders` | internal/modules/memberships/service.go:50-96 | on every table that can arise, through the service an actor who is not an active owner of a company changes, adds and removes no owner or admin |
| `Memberships.ServiceUpdatesExactly` | internal/modules/memberships/service.go:50-65 | the service passes an update on if and only if the actor is an active owner or admin of the company the row belongs to, owners and admins are changed or made by owners only, and no owner deactivates itself |
| `Memberships.ServiceDeletesExactly` | internal/modules/memberships/service.go:67-79 | the same for deletions; no owner deletes itself |
| `Memberships.MembershipTable.LastOwnerGuard` | migrations/000003_multi_tenant_workspaces.up.sql:179-194 | refuses exactly when no other active owner of the workspace remains |
| `Memberships.MembershipTable.ClearTeam` | migrations/000003_multi_tenant_workspaces.up.sql:149-172 | the nested update clears exactly the team's links |
| `Memberships.MembershipTable.UpdateRow` | migrations/000003_multi_tenant_workspaces.up.sql:149-198 | both triggers in firing order, with the nested update visible and the new row not; a refusal changes nothing |
| `Memberships.MembershipTable.DeleteRow` | migrations/000003_multi_tenant_workspaces.up.sql:21-31 | owner guard, then removal with every link to the row cleared |
| `Memberships.MembershipTable.Update` | internal/modules/memberships/store.go:91-141 | load, edit, check and write back, all or nothing |
| `Memberships.MembershipTable.Delete` | internal/modules/memberships/store.go:143-152 | removes the row of that workspace or reports that there is none |
| `Invitations.UpsertGivesOneMembership` | internal/modules/invitations/store.go:179-188 | exactly one membership for the pair afterwards, active with the given role |
| `Invitations.UpsertRefusedExactly` | internal/modules/invitations/store.go:179-188 | on every table that can arise, refused if and only if it would demote the only active owner, promote a manager who has a supervisor, or meets a manager who is its own supervisor |
| `Invitations.OperationKeepsInv` | internal/modules/invitations/store.go:32-276 | every operation keeps one membership per pair, unique emails and an active owner per workspace |
| `Invitations.OperationKeepsSupervisors` | internal/modules/invitations/store.go:152-276 | an operation breaks supervisor links if and only if it is the self-supervising update |
| `Invitations.EveryWorkspaceKeepsAnOwner` | migrations/000003_multi_tenant_workspaces.up.sql:179-198 | over every run every workspace ever created keeps an active owner |
| `Invitations.SupervisorsStayOk` | migrations/000003_multi_tenant_workspaces.up.sql:149-177 | over every run without that request the links stay well formed |
| `Invitations.LinksStayOk` | migrations/000003_multi_tenant_workspaces.up.sql:149-177 | over every run, that request included, each link leads to an active supervisor of the same workspace or to the row itself |
| `Invitations.AcceptanceIsAllOrNothing` | internal/modules/invitations/store.go:152-276 | an error has changed nothing; a success has marked this invitation only and left one active membership with the invited role |
| `Invitations.AcceptanceAnswersExactly` | internal/modules/invitations/store.go:152-276 | absent, accepted and expired invitations are refused, each exactly on its own condition, by both kinds of acceptance; success means pending and not past the expiry |
| `Invitations.AcceptanceSucceedsExactly` | internal/modules/invitations/store.go:152-276 | with a pending, unexpired invitation, success if and only if the user is known and the triggers accept the membership |
| `Invitations.RegistrationWritesExactly` | internal/modules/invitations/store.go:206-276 | a registration sets password, activity and verification of the invited address's account and changes no other |
| `Invitations.AcceptingKeepsAccounts` | internal/modules/invitations/store.go:152-204 | accepting as an existing user changes no account |
| `Invitations.NeverRedeemedLate` | internal/modules/invitations/store.go:152-276 | over any run no token is redeemed after the expiry its invitation was issued with |
| `Invitations.RevokeRemovesExactly` | internal/modules/invitations/store.go:138-150 | a revocation removes the workspace's own pending invitation of that ID and nothing else |
| `Invitations.InviteWritesExactly` | internal/modules/invitations/store.go:32-78 | inviting is refused exactly for an active member of that address; otherwise the invitation is stored as given |
| `Invitations.OnePendingInvitation` | internal/modules/invitations/store.go:50-54 | once the older ones are cleared the new invitation is the only pending one of its address in the workspace |
| `Invitations.AddedMemberExactly` | internal/modules/memberships/store.go:69-89 | a member added by address is an active row with the role asked for, of an active account of that address |
| `Invitations.FounderOwnsTheWorkspace` | internal/modules/auth/store.go:50-82 | a new workspace starts with its maker as active owner and changes no other row |
| `Invitations.RedeemedAtMostOnce` | internal/modules/invitations/store.go:152-276 | over any run a token is redeemed at most once |
| `Invitations.InvitationStore.AcceptForUser` | internal/modules/invitations/store.go:152-204 | the new database and the answer are those of the accept operation |
| `Invitations.InvitationStore.RegisterAndAccept` | internal/modules/invitations/store.go:206-276 | the same with the account upserted first and rolled back with the rest |
| `Invitations.InvitationStore.UpsertMember` | internal/modules/invitations/store.go:179-188 | insert, or on conflict update of the row that is there, behind the triggers |
| `Placeholders.ReplaceIsBump` | internal/modules/calls/store.go:212-214 | one `ReplaceAll` over the text rewrites exactly the placeholders whose digits start with the number replaced |
| `Placeholders.RenumberIsBump` | internal/modules/calls/store.go:212-214 | the whole string loop acts on each placeholder separately and on nothing else |
| `Placeholders.PlaceholderShiftsExactly` | internal/modules/calls/store.go:212-214 | in a loop from any n at least k, $k ends as $(k+1) if and only if k is at most 8 |
| `Placeholders.NineBecomesTwenty` | internal/modules/calls/store.go:212-214 | the first failing text |
| `Placeholders.RenumberingIsShiftExactly` | internal/modules/calls/store.go:207-216 | the loop is the simultaneous shift of a clause if and only if no placeholder in it is above 8 |
| `Placeholders.RenderIsInjective` | internal/modules/calls/store.go:207-216 | equal texts of clauses with the same literal parts have the same placeholders |
| `Placeholders.Renumber` | internal/modules/calls/store.go:212-214 | the descending loop computes the specified renumbering |
| `Scope.ShiftedMeansTheSame` | internal/modules/calls/store.go:166-177 | a shifted clause on the call ID followed by the arguments means what the clause meant on the arguments |
| `Scope.WrittenShifts` | internal/modules/calls/store.go:179-216 | shifting the text of a clause is writing the shifted clause |
| `Scope.RenumberedIsShifted` | internal/modules/calls/store.go:207-216 | up to eight arguments, renumbering the written text is writing the shifted clause |
| `Scope.DetailQuery` | internal/modules/calls/store.go:166-177 | the string built, read back column by column and sent with its arguments, selects a call if and only if it is the one asked for and the viewer may see it, for every viewer and database |
| `Scope.ListTextsSelect` | internal/modules/calls/store.go:179-205 | the texts of the list, with and without filter, and of the dashboard, read back, select exactly the calls the viewer may see, narrowed by the filter |
| `Scope.TextSelectsExactly` | internal/modules/calls/store.go:179-216 | the text of a clause, read back, selects exactly the calls the clause holds for |
| `Reading.ReadsTeam` | internal/modules/calls/store.go:192-203 | the text of the subquery is read as: the owner is an active manager of the workspace with that supervisor |
| `Scope.ThreeScopesAgree` | internal/modules/dashboard/store.go:72-89 | for every viewer and database the unfiltered list, the dashboard and the detail scope select the same calls and refuse the same viewers |
| `Scope.DetailSelectsOneVisibleCall` | internal/modules/calls/store.go:166-177 | the detail query selects a call if and only if it is the one asked for and visible |
| `Scope.FilterNarrows` | internal/modules/calls/store.go:179-205 | a filtered list is the visible calls of the requested owner, and for a manager the visible calls |
| `Sessions.StepKeepsInv` | internal/modules/auth/store.go:90-158 | every step keeps one unrevoked token per login, also when steps land between find and rotate |
| `Sessions.OneLiveTokenPerLogin` | internal/modules/auth/service.go:64-76 | over every interleaving a login's lineage has at most one unrevoked token |
| `Sessions.RevocationIsPermanent` | internal/modules/auth/store.go:140-158 | a revoked token stays revoked over every run |
| `Sessions.RotationConserves` | internal/modules/auth/store.go:111-138 | a successful rotation moves liveness from one token to its replacement; their number never changes |
| `Sessions.UsableExactly` | internal/modules/auth/store.go:97-138 | a token is found, and rotates, exactly while it is stored, unrevoked and unexpired, the replacement being unused |
| `Sessions.ExpiredTokensAreUseless` | internal/modules/auth/store.go:97-138 | over every run, from its stored expiry on, no lookup records a token and no rotation that had found it changes anything |
| `Sessions.RotationWritesExactly` | internal/modules/auth/store.go:111-138 | a rotation changes the table exactly then: the old row revoked, the new one live, of the same user, with its expiry, all others kept |
| `Sessions.FindRecordsExactly` | internal/modules/auth/store.go:97-108 | a lookup records the token and its user exactly when it is usable |
| `Sessions.LoginStoresExactly` | internal/modules/auth/store.go:90-95 | a login stores its token, live, for its user, until the expiry given |
| `Sessions.RevocationsWriteExactly` | internal/modules/auth/store.go:140-158 | a logout revokes its own token only, a reset the user's only |
| `Sessions.RefreshedAtMostOnce` | internal/modules/auth/service.go:203-225 | over any run a refresh token yields at most one successful refresh |
| `Sessions.LogoutEndsTheLogin` | internal/modules/auth/service.go:228-236 | after a logout no later event revives the lineage, not even a refresh that had found the token active |
| `Sessions.ResetEndsEveryLogin` | internal/modules/auth/service.go:178-200 | after a reset's revocation only tokens descending from a session stored later are ever live |
| `Sessions.RefreshStore.Store` | internal/modules/auth/store.go:90-95 | adds the login's row unless its hash is taken |
| `Sessions.RefreshStore.FindActive` | internal/modules/auth/store.go:97-108 | answers the user if and only if the row is there, unrevoked and unexpired |
| `Sessions.RefreshStore.Rotate` | internal/modules/auth/store.go:111-138 | succeeds exactly for an unrevoked, unexpired token and an unused replacement; revokes and replaces in one transaction, or changes nothing |
| `Sessions.RefreshStore.Revoke` | internal/modules/auth/store.go:140-151 | revokes that token and reports whether it was live |
| `Sessions.RefreshStore.RevokeAllForUser` | internal/modules/auth/store.go:153-158 | revokes exactly the user's tokens |
| `Sessions.RefreshStore.Refresh` | internal/modules/auth/service.go:203-225 | an undisturbed refresh succeeds exactly for an active token of the claimed user who is not suspended |
| `ActionTokens.AtMostOneUnused` | internal/modules/auth/store.go:182-197 | over any run at most one unused token per user and purpose |
| `ActionTokens.ConsumedAtMostOnce` | internal/modules/auth/store.go:199-223 | over any run no token is consumed twice |
| `ActionTokens.ConsumesExactly` | internal/modules/auth/store.go:199-223 | a token is consumed exactly by its own purpose, unused and before its expiry, and only its mark changes |
| `ActionTokens.ExpiredIsNeverConsumed` | internal/modules/auth/store.go:199-223 | over any run a token is never consumed from its expiry on, nor for another purpose |
| `ActionTokens.CreatesExactly` | internal/modules/auth/store.go:182-197 | a created token is unused, for its user and purpose; only older unused ones of the pair go |
| `ActionTokens.UsedIsForever` | internal/modules/auth/store.go:182-223 | a used token stays, so its hash is neither consumed nor issued again |
| `ActionTokens.SupersededTokensAreDead` | internal/modules/auth/store.go:182-197 | once a newer link is created the older one is never consumed |
| `ActionTokens.ActionTokenStore.CreateActionToken` | internal/modules/auth/store.go:182-197 | deletes the unused ones and inserts, or changes nothing |
| `ActionTokens.ActionTokenStore.ConsumeActionToken` | internal/modules/auth/store.go:199-223 | the token's user exactly when it is unused, unexpired and of that purpose |
| `ActionTokens.Accounts.ResetPassword` | internal/modules/auth/service.go:178-200 | spends the token first, then sets the password, then revokes every session; what each failure leaves behind |
| `Migrations.EveryStateIsAPrefix` | internal/platform/database/migrate.go:45-81 | over any number of overlapping, failing and stopping runners, one prefix of the files and no other has been applied, once each, and recorded |
| `Migrations.FileStep` | internal/platform/database/migrate.go:45-81 | one transaction keeps or extends that prefix by one, and never lets a runner pass it |
| `Migrations.RunsOneFileExactly` | internal/platform/database/migrate.go:45-81 | when one file's transaction reports success, and what it writes when its commit goes through, heard of or not |
| `Migrations.FaultlessRunSucceedsExactly` | internal/platform/database/migrate.go:20-43 | from any prefix a run without faults succeeds if and only if every script applies in its turn |
| `Migrations.HistoryDoesNotMatter` | internal/platform/database/migrate.go:20-81 | any history followed by a successful run leaves the database of a single run on an empty one |
| `Migrations.FileOrderIsVersionOrderExactly` | internal/platform/database/migrate.go:20-38 | the files of a directory run in version order if and only if no version in it extends another by something that sorts before the suffix, spelled out character by character |
| `Migrations.PairOrderExactly` | internal/platform/database/migrate.go:20-34 | the same for one pair of versions |
| `Migrations.SortsEarlyExactly` | internal/platform/database/migrate.go:34-34 | which extensions of a version put its file before the file of the version |
| `Migrations.ADashOvertakes` | internal/platform/database/migrate.go:20-34 | a pair of versions on which the two orders differ |
| `Migrations.NumberedVersionsKeepOrder` | internal/platform/database/migrate.go:20-34 | versions starting with different numbers of one width keep their order |
| `Migrations.SortedIsUnique` | internal/platform/database/migrate.go:34-34 | the order does not depend on how the directory lists its files |
| `Migrations.SortKeepsDistinct` | internal/platform/database/migrate.go:34-34 | sorting keeps every file listed once |
| `Migrations.Database.RunMigration` | internal/platform/database/migrate.go:45-81 | one transaction: check, apply and record, or no change |
| `Migrations.Database.RunMigrations` | internal/platform/database/migrate.go:21-43 | the loop is the specified run over the sorted files, stopping at the first error |
| `UploadSaga.MissingAudioExactly` | internal/modules/calls/service.go:137-147 | stopped anywhere, a request leaves a row without audio if and only if its insert committed but reported an error and the cleanup removed the audio |
| `UploadSaga.MissingAudioEverywhere` | internal/modules/calls/service.go:137-147 | the same for every request in every interleaving with other requests and workers |
| `UploadSaga.EachRequestRunsAlone` | internal/transport/http/call_handlers.go:59-112 | in every interleaving each request sees exactly the run of its own steps |
| `UploadSaga.SuccessKeepsEverything` | internal/transport/http/call_handlers.go:90-112 | a request that reported success keeps its row, its audio and its task |
| `UploadSaga.FailedRequestLeavesNothingExactly` | internal/modules/calls/service.go:208-225 | a failed request, whatever a worker did meanwhile, leaves neither row nor audio if and only if nothing took effect behind an error and the compensations worked |
| `UploadSaga.FailedRequestsEverywhere` | internal/modules/calls/service.go:208-225 | the same for every request in every interleaving with other requests and workers |
| `UploadSaga.AStrandedRun` | internal/modules/calls/service.go:137-147 | three steps after which a row has no audio |
| `UploadSaga.SucceedsExactly` | internal/transport/http/call_handlers.go:59-112 | a request succeeds if and only if the queue is configured and all four steps work, and then the row is queued |
| `UploadSaga.DriveIsARun` | internal/transport/http/call_handlers.go:59-112 | every request ends, in a state the run theorems speak about |
| `UploadSaga.UploadService.Create` | internal/modules/calls/service.go:102-148 | audio first, then the row; a failed insert removes the audio |
| `UploadSaga.UploadService.Queue` | internal/modules/calls/service.go:153-187 | compares and sets the status to queued, and leaves a queued call alone |
| `UploadSaga.UploadService.RollbackCreate` | internal/modules/calls/service.go:208-225 | the row first, confined to its workspace; the audio only once the row is gone |
| `UploadSaga.UndoStaysInItsWorkspace` | internal/modules/calls/store.go:128-136 | an undo deletes its own row at most, and none of another workspace |
| `UploadSaga.UploadService.CreateCall` | internal/transport/http/call_handlers.go:59-112 | the handler ends in exactly the specified state and touches no other call's row, audio or task |
| `PlaybookDefaults.EveryRunKeepsOneDefault` | internal/modules/playbooks/store.go:124-220 | at most one live default per workspace over every interleaving of creates, deletes and read-then-write updates |
| `PlaybookDefaults.UpdatedDefaults` | internal/modules/playbooks/store.go:164-205 | whose the default is after an update, in every workspace |
| `PlaybookDefaults.CreatedDefaults` | internal/modules/playbooks/store.go:124-161 | whose the default is after a create |
| `PlaybookDefaults.CreateWritesExactly` | internal/modules/playbooks/store.go:124-161 | a create writes its row as given; others change at most by losing the flag |
| `PlaybookDefaults.UpdateWritesExactly` | internal/modules/playbooks/store.go:164-205 | an update writes body and flag of a live playbook of the workspace and keeps the rest |
| `PlaybookDefaults.EditWritesExactly` | internal/modules/playbooks/service.go:87-116 | an edit writes what the request names and otherwise what it had read |
| `PlaybookDefaults.DeleteWritesExactly` | internal/modules/playbooks/store.go:208-220 | a delete marks the row and drops its flag, and nothing else |
| `PlaybookDefaults.DefaultIsTaken` | internal/modules/playbooks/store.go:98-121 | the playbook taken is the default if there is one, and else an earliest live one |
| `PlaybookDefaults.PlaybookStore.GetDefault` | internal/modules/playbooks/store.go:98-121 | the first live playbook by flag and age, or none |
| `PlaybookDefaults.PlaybookStore.LookUp` | internal/jobs/processor.go:220-227 | the call's own playbook if it is live in the workspace, else, when it names none, the workspace's default; nothing without a workspace |
| `PlaybookDefaults.RenameKeepsDefaultsExactly` | internal/modules/playbooks/service.go:87-116 | an update that does not name the flag moves no default, in any workspace, if and only if its playbook is gone or still has the flag it had when it was read |
| `PlaybookDefaults.StaleRenameTakesTheDefaultBack` | internal/modules/playbooks/service.go:87-116 | a run in which such an update takes the flag back from its successor |
| `PlaybookDefaults.PlaybookStore.Create` | internal/modules/playbooks/store.go:124-161 | moves the flag and inserts, or changes nothing |
| `PlaybookDefaults.PlaybookStore.Update` | internal/modules/playbooks/store.go:164-205 | moves the flag and updates, or changes nothing; an absent row does not leave the defaults cleared |
| `PlaybookDefaults.PlaybookStore.Delete` | internal/modules/playbooks/store.go:208-220 | marks the row deleted and drops its flag |
| `Paging.CountedPagesAreTheListing` | internal/modules/platform/store.go:170-208 | the first n pages concatenate to the whole listing if and only if n reaches the counted pages |
| `Paging.PlatformPagesAreTheListing` | internal/modules/platform/store.go:197-208 | whatever limit a client asks for, the announced pages concatenate to the listing, and a page among them is empty if and only if the listing is |
| `Paging.PageNumberIsItsPlace` | internal/modules/platform/store.go:197-208 | the page at offset k times the limit reports number k+1 and has rows if and only if it is counted |
| `Paging.PlatformPagesFit` | internal/modules/platform/store.go:170-173 | the platform order is total: every query lists the same rows in the same order |
| `Paging.CallPagesFitExactly` | internal/modules/calls/store.go:146-164 | for every listing and page size, the pages show each call once, whatever order each query sees, if and only if the creation time drops at every page boundary |
| `Paging.CallPagesFitWithoutTies` | internal/modules/calls/store.go:146-164 | in particular whenever no two calls share a creation time |
| `Paging.ATieCanHideACall` | internal/modules/calls/store.go:146-164 | the smallest failure: two tied calls, one to a page, and one of them never shown |
| `Paging.NormalizePage` | internal/modules/calls/service.go:251-262 | refuses exactly negative numbers and sizes and sizes over 100; zero becomes page 1 and size 20, and anything else stays |
| `Paging.OffsetIsRightExactly` | internal/modules/calls/store.go:146-164 | the 64-bit offset of an accepted page is the right one if and only if its product does not overflow |

## Left out

- Workers.EveryReachableStateIsSafe: does not say that results are frozen across processes, because they are not; `Freezing.FrozenExactly` says when they are.
- Scoring.GuardAliveExactly: for a rubric that repeats keys and whose best scores overflow, the condition is only necessary; no validated playbook and no built-in rubric repeats a key.
- Workers.ReachableCallsCanComplete: needs an answer that validates and whose score the table stores; without one `Pipeline.UnluckyRunFails` shows what happens.
- Processor.Delivery.MakeResult: the playbook lookup (`PlaybookDefaults.PlaybookStore.LookUp`) and the analyzer call are one operation, answered by the world, so the playbook cannot change between them; the object download and the transcription are one operation too.
- Pipeline.OperationIsSound: a store write takes effect at its own step or not at all; one that commits after the worker has moved on is not modelled.
- Sessions.ResetEndsEveryLogin: speaks of the moment the sessions are revoked; a login that checked the old password earlier and stores its session afterwards counts as a later login.
- Sessions.RefreshStore.Refresh: the tokens issued while registering from an invitation are never stored by the service and are not part of the lineage.
- Invitations.EveryWorkspaceKeepsAnOwner: transactions are taken one after another; write skew between concurrent PostgreSQL transactions is not modelled.
- ActionTokens.AtMostOneUnused: token creations are taken one after another, for the same reason.
- PlaybookDefaults.EveryRunKeepsOneDefault: statements are taken one after another; two transactions racing for the flag are decided by the unique index of the database.
- Migrations.EveryStateIsAPrefix: a file's transaction is atomic; a race for the same version ends with one of the two rolled back by the primary key, as a failed step.
- Analysis.ParseInvertsEncode: starts from decoded values; JSON text, unknown fields and the folding of key case are not modelled, and speech analytics, violations and role mapping are opaque contents.
- Paging.CountedPagesAreTheListing: the row count and the rows are read from the same listing; inserts between the two queries are not modelled.
- Scope.ThreeScopesAgree: workspace roles are the four defined ones; any other role string, which all three builders refuse, is not modelled.
- Machine integers: scores, maxima, their sums and page offsets are 64-bit; counters, identifiers and row counts are unbounded, and 32-bit columns are modelled only through their CHECKs.
- Error messages and which of several map entries is reported first; the model decides success and failure.
- Email normalisation: emails are taken as already normalised.
- Passwords, bcrypt, JWT and hash formats, mail sending, Redis and Asynq internals, MinIO, Gemini and its retries, pgx.
- HTTP routing, request limits, CORS, logging and configuration: one-branch facts.
- Golden standards, workspace rename, audit events, user and workspace suspension, listings without arithmetic: no invariant beyond single statements.
- The backfill statements of the migrations.
- The order in which PostgreSQL visits rows of one statement; results do not depend on it.
