# Nightshift: a verified model of its correctness-critical core

Nightshift hands tasks to workers, lands what they produce on a repository's
`main`, and keeps per-task state while several actors race. This project models
the logic that makes that safe and proves what it promises.

| file | what it models |
|---|---|
| `Git.dfy`, `Replay.dfy`, `RevList.dfy`, `RefLog.dfy`, `SyncLaws.dfy`, `Checkout.dfy` | commits as a DAG, trees as maps from path to content with a path-level three-way merge, the plumbing cherry-pick and the divergence rescue, which commits are unpushed, the history of ref moves and what becomes of every commit in it, the operator's checkout |
| `Landing.dfy`, `Producers.dfy` | the repository as an object, the origin sync and the integrate-and-push loop under an adversary that may move either ref between any two steps; the producers and the idempotence of a land |
| `Lifecycle.dfy`, `Transitions.dfy` | the lifecycle vocabulary, the backoff, and the whole transition table |
| `TransitionLaws.dfy`, `OutcomeLaws.dfy`, `EffectLaws.dfy`, `QuarantineBound.dfy`, `QueueWatch.dfy` | what the table guarantees for every report, over whole traces of a task, and over the history of a queue |
| `Store.dfy`, `Interleavings.dfy`, `RunTraces.dfy`, `LegacyFold.dfy` | the transaction that applies a transition, every interleaving of the actors and the traces of each task in it, the schema migration on reachable rows |
| `Workflows.dfy`, `Visits.dfy`, `EngineLane.dfy`, `WorkflowRun.dfy` | the workflow validator, the visit counters' text form, the cursor and the counters in the task's file, and a workflow run over that file |
| `PyText.dfy`, `ApplyEdits.dfy`, `Frontmatter.dfy`, `Idempotence.dfy`, `FrontmatterLens.dfy` | Python's string operations, the SEARCH/REPLACE engine, the frontmatter editor, applied twice and against its reader |
| `DocPins.dfy`, `ImportCopy.dfy`, `Executor.dfy`, `RepoLock.dfy`, `AgentLoop.dfy` | document pinning, the inbox import, the per-repository executor and lock, the agent's tool loop |

Code that updates state step by step is imperative here too: the repository,
the store, the queue, the executor and the lock registry are classes, and every
loop of the source that computes something is a method with a loop, proved
against a specification. The interleaving results are about sequences of atomic
steps of all actors, in any order.

## What is assumed

- Git: `update-ref` with an old value is a compare-and-swap; a push that is not
  forced only fast-forwards; `read-tree -m -u` refuses atomically when a path it
  must change carries work; merging is by path; commits written by us carry a
  stamp no earlier commit has, as a fresh hash would. A `rev-list` that succeeds
  lists exactly the commits the head has and the target lacks, each once, and
  each but the head before one of its children; such a listing always exists
  (`RevList.UnpushedCanBeListed`).
- The store applies one transition in one transaction, and its unique index
  holds. An attempt reference names the task its row names.
- Between any two steps of a land, anybody may move `main` and origin anywhere,
  except to a commit that exists only in our object store. HEAD, the index and
  the files are not touched by others between the moment the checkout is
  captured and its advance; `main` may be.
- The window of the trailer scan holds every commit of `main` that carries the
  attempt's trailer, and others neither write one nor put one back, through
  origin or otherwise.
- Writing an order into a `config.json` and reading it gives that order.
- A task's file has a fence whose lines hold no `---`, which names its workflow
  and carries each engine key on at most one line. The JSON text of a pin is one
  line.
- The manager forgets the watch of a queue at a start, and otherwise only as
  listed in `QueueWatch.dfy`.
- The clock, the transport, the tools, the controller and what git prints are
  arbitrary values.

## Where a promise does not hold

Each of these is proved, with the exact condition under which the promise does
hold.

- A failed `rev-list` is read as nothing to rescue. So a sync loses a commit of
  `main` without a word exactly when the listing failed and some unpushed commit
  held content that origin does not (`SyncLaws.SilentLossExactly`,
  `SyncLaws.FailedListingLosesACommit`).
- A clean path can become dirty when the advance is refused and HEAD cannot be
  detached, and it can, and a dirty path can be rewritten, when others moved
  `main` so that the captured commit is not the one the swap starts from. The
  plainest case is a land that adds nothing over an operator commit made since
  the base was read: the checkout is taken back to the base, and the land still
  reports success (`Checkout.CarriedExactly`,
  `Checkout.RedundantLandRewindsTheCheckout`). When `main` was at the captured
  commit only the first remains (`Checkout.AdvanceNeverHarmsOperatorWork`).
- The documented delay `base * 2^(n-1)` differs from the real one past 64
  attempts when 63 doublings of the base stay below the cap
  (`Lifecycle.DelayIsAlwaysTheFormulaExactly`).
- A task quarantined for failing again on retry is not reported as quarantined
  to the worker (`QuarantineBound.CountedExactly`).
- The row-lifecycle invariant of the task table breaks when a document step
  succeeds on a task whose row holds only a counter
  (`Store.RowsAreKeptExactly`, `Store.OnlyDocumentsLeaveEmptyRows`).
- A late phase report on a landing attempt makes the schema migration turn it
  into a running one (`LegacyFold.LatePhaseReportsAreLossy`).
- Two failures in a row do not pause a queue when the second was decided before
  the first was applied, and `stop`, unlike `play`, does not forget the first
  (`QueueWatch.PausedForTwoInARowExactly`, `QueueWatch.ArmedExactly`).
- Workflow budgets are not enforced for step ids with a comma, a colon, three
  dashes, a line break or blanks around them, nor for ids that read as another
  scalar, such as `0`, `007` or `false` (`WorkflowRun.SafeIdsExactly`,
  `EngineLane.CursorReadsBackExactly`, `WorkflowRun.FalsyStepsRestart`,
  `WorkflowRun.UncleanIdsAreUnbounded`).
- `set_frontmatter_text` is idempotent on every text exactly when there is
  something to change, nothing is removed and no value holds a line break, but
  for a carriage return at its end (`Idempotence.EditingIsIdempotentExactly`);
  so what `disable_inbox_sources` does is. On one text a removal is when no key
  to be removed is carried by two lines and the edit does not empty the fence
  above another one (`Frontmatter.SetFrontmatterIsIdempotent`,
  `Frontmatter.EmptiedFenceExactly`).
- Removing the last key of a brief leaves one with keys again when its prose
  opens a fence of its own (`FrontmatterLens.RemovingTheLastKey`).
- The git-free document path differs from the resolver when an emitted path
  document is named like another blob's attachment key, or when the run found
  nothing to write and a size in the file's pin was wrong
  (`DocPins.PinRebuildsTheOrderExactly`, `DocPins.ClashLosesADocument`,
  `DocPins.WrongSizeIsServed`, `DocPins.CleanMeansUnchangedExactly`).
- Resolving again, with everything pinned still reachable, is not a fixpoint when
  a path document, emitted or not, is named like the attachment key of another
  blob: then the pin is rewritten by every run
  (`DocPins.ResolvingAgainIsAFixpointExactly`, `DocPins.ClashIsDirtyForever`).
- A pin with a document path that holds `---` does not survive the task's file
  (`EngineLane.PinReadsBackExactly`).
- An import drops the text of a duplicate all of whose queued copies are updated
  by other entries (`ImportCopy.TextsSurviveExactly`,
  `ImportCopy.DrainedTextsSurvive`, `ImportCopy.OverwrittenDuplicatesAreLost`).
- A second call of the executor's `shutdown` returns before the queue is
  exhausted unless the worker has exited already
  (`Executor.SecondShutdownIsEnoughExactly`).
- Cache markers pile up: from the second turn with results on, a request carries
  more than the two that the design allows (`AgentLoop.TwoMarkersExactly`).

## Model

| member | source | states |
|---|---|---|
| Git.AncestryIsAcyclic | src/nightshift/git/refs.py:28-30 | no commit is an ancestor of one of its own ancestors |
| Git.MergeByPath | src/nightshift/git/landing.py:161-184 | the merge succeeds exactly when no path clashes, and then picks each path's side |
| Git.MergeIsSymmetric | src/nightshift/git/landing.py:161-184 | both sides of a merge play the same role |
| Git.MergeIsIdempotent | src/nightshift/git/landing.py:220-228 | merging the other side once more into the merge changes nothing |
| Git.MergeBasesAreBest | src/nightshift/git/landing.py:206-218 | a merge base is a shared ancestor that lies below no other one, and every shared ancestor lies below some merge base |
| Git.MergeBasesOfChild | src/nightshift/git/landing.py:187-241 | a new child of the base that the branch does not contain leaves the merge bases unchanged |
| Replay.ReplayIsThePatch | src/nightshift/git/refs.py:65-103 | a successful replay carries exactly the commit's own edits, message and trailers onto the base, as its child, or is the base when they are all there already |
| Replay.ReplayFailsExactly | src/nightshift/git/refs.py:85-103 | it fails exactly without a parent, on a path changed differently since, when the merge itself fails or when git cannot write the commit; a conflict is reported exactly in the second and third case |
| Replay.RescuePreservesContent | src/nightshift/git/sync.py:229-264 | every path of the rebuilt tip holds what the last surviving unpushed commit touching it says, otherwise origin's content |
| Replay.RescueDescendsFromOrigin | src/nightshift/git/sync.py:235-247 | the new tip descends from origin's tip, through exactly the replayed commits in order |
| Replay.RescueAccountsForEveryCommit | src/nightshift/git/sync.py:239-247 | every commit of the list, in order, was replayed, redundant or dropped, each for its own reason; dropped exactly without a parent, on an overtaken path or when git failed at a point its replay gets to |
| Replay.RescueKeepsBothSides | src/nightshift/git/sync.py:229-264 | with no drops, every path a local commit touched holds the local head's content, origin's edit of it or not, and every other path origin's |
| Replay.DisjointEditsDropNothing | src/nightshift/git/sync.py:229-264 | edits disjoint from origin's are never dropped, and the tip is exactly the three-way merge of both sides |
| Replay.NothingDropped | src/nightshift/git/sync.py:241-247 | then no fate is a drop, at any point of the chain |
| RevList.UnpushedCanBeListed | src/nightshift/git/sync.py:193-202 | the unpushed commits of any head can be listed as `rev-list` lists them |
| RevList.UnpushedIsAChain | src/nightshift/git/sync.py:193-202 | without merges among them, the listing is a chain from a commit both sides have up to the local head |
| RefLog.LawfulMoveKeepsMain | src/nightshift/git/sync.py:229-250 | a land or a fast-forward keeps every commit of main reachable |
| SyncLaws.SyncAccountsForMain | src/nightshift/git/sync.py:193-264 | every commit that was on `main` before a sync is on it after, or was rescued with a fate true of it: replayed and now on `main` above origin's tip, held already by the tip it met, or dropped for a reason and reported; if the listing succeeded |
| SyncLaws.SilentLossExactly | src/nightshift/git/sync.py:193-202 | a sync leaves some commit unaccounted for exactly when the listing failed and an unpushed commit held content origin does not |
| SyncLaws.FailedListingLosesACommit | src/nightshift/git/sync.py:193-202 | a reachable history in which that happens |
| SyncLaws.LinearSyncKeepsBothSides | src/nightshift/git/sync.py:229-264 | over unpushed work without merges and drops, a path local work changed has the old `main`'s content and every other path origin's |
| SyncLaws.DisjointSyncIsTheMerge | src/nightshift/git/sync.py:229-264 | when origin changed none of these paths, nothing is dropped and the new `main` is the three-way merge |
| SyncLaws.ReplayedIsNotGivenUp | src/nightshift/git/sync.py:239-247 | a commit of a sync has one fate: what was replayed was neither redundant nor dropped |
| SyncLaws.CommitsAreFollowed | src/nightshift/git/sync.py:205-264 | over whole histories of lands and syncs, a commit that was on `main` has a version on it after every move, itself or a replay of the one before, up to the end or to a sync that met its version of the time and recorded it as redundant or dropped |
| Checkout.ReadTreeAt | src/nightshift/git/refs.py:133-138 | the two-tree merge refuses exactly when it must change a path whose index entry is not the new one and whose entry and file are not both the old one; otherwise exactly the changing paths that are still as in the old tree take the new content |
| Checkout.UnstagedWorkIsNeverTouched | src/nightshift/git/refs.py:128-158 | unstaged and untracked work survives every outcome, whatever HEAD and the refs have become |
| Checkout.AdvanceNeverHarmsOperatorWork | src/nightshift/git/refs.py:128-158 | when `main` was at the captured commit, dirty content is unchanged in every outcome, and exactly when a clean path becomes dirty |
| Checkout.CarriedExactly | src/nightshift/git/landing.py:394-412 | for a checkout captured at any time before the swap: when the advance succeeds, which dirty paths change and which clean ones become dirty, told by what was known before the call |
| Checkout.RedundantLandRewindsTheCheckout | src/nightshift/git/landing.py:405-408 | a land that adds nothing, over an operator commit made since the base was read, reports success and takes the checkout back |
| Checkout.AdvanceSucceedsExactly | src/nightshift/git/refs.py:140-158 | when an advance succeeds, and that a refusal changes no file |
| Checkout.OtherHeadsStay | src/nightshift/git/refs.py:120-125 | an operator on another branch, or detached, sees that commit's tree wherever `main` is |
| Landing.RescueReachesOnlyFresh | src/nightshift/git/sync.py:239-247 | the rebuilt tip reaches nothing but origin's history and the commits the rescue wrote |
| Landing.ReplayUnpushed | src/nightshift/git/sync.py:239-247 | the replay loop computes the rescue's tip and exactly its casualties |
| Landing.Repo.UpdateMainCas | src/nightshift/git/refs.py:46-50 | main moves exactly when it was where the caller last saw it, and nothing else does |
| Landing.Repo.AdvanceCheckout | src/nightshift/git/refs.py:128-158 | the checkout, HEAD and work tree after an advance, with unstaged work kept |
| Landing.Repo.SyncMain | src/nightshift/git/sync.py:205-264 | how every sync ends, against the refs it saw, which are refs the repository had during the call, and the listing `rev-list` gives for them; casualties are reported exactly when the swap of main succeeded, and the checkout is carried as told |
| Landing.Repo.BuildTip | src/nightshift/git/sync.py:235-247 | the tip a sync offers is origin's, or the rescue onto it of exactly what `rev-list` listed |
| Landing.Repo.SyncFrom | src/nightshift/git/sync.py:226-257 | current, left alone, swapped or raced: each exactly in its case, for the commits compared |
| Landing.Repo.SwapAndAdvance | src/nightshift/git/sync.py:249-257 | the swap won or lost its race, and only a won one reports casualties |
| Landing.Repo.PushMain | src/nightshift/git/landing.py:375-381 | origin fast-forwards to the pushed commit exactly when it can and the push is not lost on the way; otherwise it stays, and the caller is told why |
| Landing.Repo.CasAndAdvance | src/nightshift/git/landing.py:394-412 | no kind exactly when the swap lost; otherwise at most one swap from the base to its child, landed exactly when the advance succeeds, and each path of the checkout carried as told |
| Landing.Repo.Produce | src/nightshift/git/landing.py:483-491 | a produced commit is a fresh child of the base no ref reaches |
| Landing.Repo.PushThenCas | src/nightshift/git/landing.py:495-530 | success means origin fast-forwarded to the produced commit, even when the local swap lost |
| Landing.Repo.LandOnce | src/nightshift/git/landing.py:493-552 | one pass publishes by the mode's rule, or moves nothing |
| Landing.Repo.OnePass | src/nightshift/git/landing.py:476-552 | a pass reads the tip main had at a moment between its start and its end, and ends done with its trace on that tip, with nothing to land exactly where there was no tip or the producer refused it, or as a lost race: main or origin had left the tip |
| Landing.Repo.OneTurn | src/nightshift/git/landing.py:460-552 | one turn of the loop: it goes on only after a lost race, when it moved no ref and has tries left, and otherwise ends as the whole land is told to |
| Landing.Repo.MaybeSync | src/nightshift/git/landing.py:461-474 | a sync runs exactly with a remote, on a retry or when due, against refs the repository had during the call, rescues exactly when asked, and reports its own casualties |
| Landing.Repo.IntegrateAndPush | src/nightshift/git/landing.py:446-555 | over the whole loop under any interference: what moved, why it ended against the tip main had at the pass that ended it, at most maxRetries+1 passes, a sync before every retry, exactly the casualties of the syncs reported, no commit of a retried pass reachable from any ref, and the checkout carried as the kind says |
| Landing.MainStaysThere | src/nightshift/git/landing.py:476-491 | while nobody takes main away, the repository has one |
| Landing.ConflictsHaveAReason | src/nightshift/git/landing.py:476-491 | in a repository with main a land ends as a conflict only because somebody took main away in its course or because the producer refused the tip main had at its end |
| Producers.ProducersAreLawful | src/nightshift/git/landing.py:129-140 | every producer returns a fresh child of the base, the base itself, or a refusal |
| Producers.SquashHoldsBothSides | src/nightshift/git/landing.py:199-237 | a squash commit is one child of the base that holds, path by path, what the branch changed since the merge base and main's content everywhere else, and carries exactly the given attempt |
| Producers.SquashIsRefusedExactly | src/nightshift/git/landing.py:199-234 | a squash is refused exactly without the branch, without a common history, on a path both sides changed differently, or when main holds every change of the branch; which paths it names |
| Producers.CherryIsThePatch | src/nightshift/git/landing.py:256-282 | a cherry-pick is the base, when it adds nothing, or one child of it with the commit's own changes, message and trailers, and the attempt's |
| Producers.CherryIsRefusedExactly | src/nightshift/git/landing.py:256-270 | it is refused exactly without the commit, without a parent of it, or where main changed one of its paths differently |
| Producers.DeletionIsExact | src/nightshift/git/landing.py:313-370 | a removal is the base, when it has none of the paths and nothing to edit, or one child of it with the paths gone, the edits made and the rest as it was |
| Producers.RemovalIsExact | src/nightshift/repo_tasks.py:465-502 | of the drained briefs nothing is left, the refused ones are held in place, every other brief is as it was |
| Producers.OrdersArePruned | src/nightshift/repo_tasks.py:404-462 | a drained inbox's order keeps, in its own order, exactly the names that still have a brief there |
| Producers.CherryAfterRescueIsRedundant | src/nightshift/git/landing.py:244-284 | cherry-picking a commit the rescue has just replayed collapses to the tip |
| Producers.RemovingAgainCollapses | src/nightshift/repo_tasks.py:404-518 | the import's removal, with its pruning of inbox orders and its holds, run on the commit it just made, makes no commit |
| Producers.RelandingIsRefused | src/nightshift/git/landing.py:187-241 | squashing a branch onto the commit its squash just produced is refused as empty |
| Producers.RelandingStaysRefused | src/nightshift/git/landing.py:220-228 | and stays refused after later commits that leave the branch's paths alone |
| Producers.ScanFindsExactly | src/nightshift/git/landing.py:68-89 | the trailer scan finds a carrier exactly when one is within the window |
| Producers.SyncAddsNoCarrier | src/nightshift/git/sync.py:235-247 | a sync that replays a carrier under another identity leaves no more carriers on main than before |
| Producers.LandsFindNoCarrier | src/nightshift/manager/reconciler.py:281-315 | where a land may run, the first or one after an empty scan, main carries no trailer of the attempt |
| Producers.AttemptLandsAtMostOnce | src/nightshift/manager/reconciler.py:273-325 | with a scan somewhere between two lands, syncs and others moving main at any point, main never carries an attempt's trailer twice, whatever the crash point |
| Lifecycle.RefusedLandsAreConflicts | src/nightshift/lifecycle.py:589-606 | exactly the refused lands have a failure kind, and all are stored as conflicts |
| Lifecycle.FailuresAreSplit | src/nightshift/lifecycle.py:376-405 | which failures send a task elsewhere, hold it for a resolve, retry it or quarantine it |
| Lifecycle.DelayIsMonotoneAndCapped | src/nightshift/lifecycle.py:348-361 | the backoff never shrinks and never exceeds the cap |
| Lifecycle.DelaysAreExact | src/nightshift/lifecycle.py:356-361 | the first delay is the base, below the cap every further attempt doubles it up to the cap, and from the 64th on it no longer moves |
| Lifecycle.DelayIsAPower | src/nightshift/lifecycle.py:348-361 | up to the 64th attempt it is the base times that power of 2, or the cap |
| Lifecycle.DelayIsTheFormulaExactly | src/nightshift/lifecycle.py:356-361 | for which counters the clamped delay is the documented one |
| Lifecycle.DelayIsAlwaysTheFormulaExactly | src/nightshift/lifecycle.py:348-361 | for which backoffs it is, for every counter |
| TransitionLaws.SubmitsAreDecidedExactly | src/nightshift/transitions.py:348-371 | which submits need git work, and which kind |
| TransitionLaws.EventsTellTheEffects | src/nightshift/transitions.py:48-317 | the appended events tell the quarantine, the hold and the pause of every transition exactly |
| TransitionLaws.OnlyAnEnqueueStaysLive | src/nightshift/transitions.py:647-671 | every transition but an enqueued land ends the attempt; only a deadline expires it |
| TransitionLaws.LandedExactly | src/nightshift/transitions.py:457-499 | an attempt is stored as landed exactly for a successful or recovered land, with that land's commit |
| TransitionLaws.ErrorsAreSplitByKind | src/nightshift/lifecycle.py:158-172 | every error transition is a conflict exactly when it stores a merge kind |
| TransitionLaws.LandsAreRecordedTruthfully | src/nightshift/transitions.py:557-572 | a land that moved no ref is stored as a held conflict, one stored as landed published its commit |
| TransitionLaws.CursorMovesExactly | src/nightshift/transitions.py:788-941 | the cursor moves exactly when a step's work was accepted and its destination has budget; what happens at the end and past the budget |
| OutcomeLaws.StatesAreExact | src/nightshift/transitions.py:175-371 | every state is stored for exactly its reports: blocked for a block, failed for an error of no merge kind or a missing document, conflicted for one of a merge kind, a refused land or an interrupted one, and so on, with no change only for the rest |
| OutcomeLaws.KindsAreExact | src/nightshift/transitions.py:175-232 | which failure kind every report writes, and which reports leave the column alone |
| OutcomeLaws.KindOfIsExact | src/nightshift/transitions.py:266-266 | only an error without a kind is taken for the worker's |
| OutcomeLaws.TasksAreToldExactly | src/nightshift/transitions.py:116-1006 | for every report exactly when the task is flagged failed or completed, its counter starts over, its workflow is reset, the worker is told it landed and the log shows a result or a change of the queue |
| OutcomeLaws.AttemptsFollowReports | src/nightshift/manager/store.py:650-712 | what every report leaves in the attempt's own row |
| OutcomeLaws.RowsFollowReports | src/nightshift/manager/store.py:110-144 | what every report leaves in the task's row: the counter, the hold, and the time from now before which the task is not handed out |
| EffectLaws.EffectsAreDue | src/nightshift/transitions.py:116-172 | for every report, exactly which holds, watch changes, pauses, drops, resolves, cooldowns and artifacts are due |
| EffectLaws.EffectsAreCoherent | src/nightshift/transitions.py:116-172 | in no branch is a held task released, consumed or moved; a resolve starts only for a held task; a backoff means the outcome counted and left no hold |
| QueueWatch.ArmedExactly | src/nightshift/manager/api_operator.py:916-957 | in every history of a queue the watch is armed exactly when some task failed and since then nothing has landed through the submit path and no play, retry, release or restart has come |
| QueueWatch.PausedExactly | src/nightshift/manager/api_operator.py:916-935 | the queue is paused exactly when a pause was written, or it was at the start, and no play or stop has ended it since |
| QueueWatch.PausedForTwoInARowExactly | src/nightshift/manager/failure_policy.py:5-12 | a report asks to pause the queue for two failures in a row exactly when, where its submit read, the queue was running and another task had failed with nothing landed or forgotten since |
| QueueWatch.TwoInARowAlwaysPause | src/nightshift/manager/api_worker.py:855-915 | when the second of two failures reads the watch after the first has set it, with no land, play, retry, release or restart in between, the queue was paused then or is asked to be |
| QueueWatch.PausesHold | src/nightshift/manager/api_worker.py:912-915 | a written pause holds until an operator ends it, whatever else happens, restarts included |
| QueueWatch.ForgettingForgives | src/nightshift/manager/api_operator.py:916-957 | after a play, retry, release or restart one failure alone never pauses for two in a row |
| QuarantineBound.CountedExactly | src/nightshift/transitions.py:116-172 | which reports count, quarantine, tell the worker and back off |
| QuarantineBound.CounterCountsSinceReset | src/nightshift/lifecycle.py:487-495 | the counter is the number of counted reports since the last reset |
| QuarantineBound.UnquarantinedTasksAreBounded | src/nightshift/transitions.py:150-161 | an unquarantined task has fewer than q no-progress outcomes since its last reset, whatever interleaves |
| QuarantineBound.HeldErrorsNeverQuarantine | src/nightshift/transitions.py:278-287 | held errors count without ever quarantining |
| Store.NightshiftStore.constructor | src/nightshift/manager/store.py:188-192 | a new store is empty |
| Store.NightshiftStore.CreateAttempt | src/nightshift/manager/store.py:510-559 | an attempt is created exactly when no live attempt of its task exists |
| Store.CreatesExactly | src/nightshift/manager/store.py:510-559 | the insert adds exactly the new row, unless that would be the second live one of its task |
| Store.NightshiftStore.ApplyTransition | src/nightshift/manager/store.py:650-712 | all of a transition or none of it, by the compare-and-swap on the attempt |
| Store.NightshiftStore.ApplyTaskEffects | src/nightshift/manager/store.py:671-696 | the statements on the task's row amount to the row's documented life |
| Store.NightshiftStore.ClearTaskState | src/nightshift/manager/store.py:767-782 | a release keeps only a nonzero counter |
| Store.RowsAreKeptExactly | src/nightshift/manager/store.py:128-144 | when a transition keeps the row-lifecycle invariant |
| Store.OnlyDocumentsLeaveEmptyRows | src/nightshift/transitions.py:724-785 | only document steps that are routed to the end or have budget break it, and when |
| Interleavings.EveryReachableStoreIsSound | src/nightshift/lifecycle.py:112-118 | in every reachable state: one live attempt per task, finished exactly when terminal, errors split by kind |
| Interleavings.OtherStepsAreExact | src/nightshift/manager/store.py:94-160 | a phase report writes the phase alone, an operator's hold the hold alone, and a release leaves a counter that is not reset and nothing else |
| Interleavings.LiveAttemptsCanEnd | src/nightshift/transitions.py:575-671 | no live attempt is stuck: an operator can stop it, and what is landing can end by its land, by recovery or as interrupted |
| Interleavings.AttemptsRunLandAndEnd | src/nightshift/lifecycle.py:103-118 | every attempt runs, perhaps lands, and ends once; landing never expires, ended never lands |
| Interleavings.EffectsApplyAtMostOnce | src/nightshift/transitions.py:644-671 | an attempt's task effects are applied at most once in every interleaving |
| Interleavings.SubmitsDecideOnTheCurrentCounter | src/nightshift/lifecycle.py:441-453 | a submit that wins its swap decided on the current counter |
| Interleavings.CounterMovesOnlyAtAnEnd | src/nightshift/lifecycle.py:487-496 | the counter moves only when a live attempt of the task ends, or an operator resets it |
| RunTraces.RunsAreTraces | src/nightshift/manager/store.py:650-712 | the reports applied to a task in any interleaving are a trace, each decided on the counter the ones before it left |
| RunTraces.RunsAreBounded | src/nightshift/transitions.py:150-161 | so in every interleaving an unquarantined task has fewer than q no-progress reports since its last reset |
| LegacyFold.FoldInvertsSplitExactly | src/nightshift/lifecycle_compat.py:84-123 | splitting and folding restores a state, and exactly when |
| LegacyFold.SplitInvertsFoldExactly | src/nightshift/lifecycle_compat.py:31-81 | folding and splitting restores a legacy pair, and exactly which pairs |
| LegacyFold.FoldIsCanonical | src/nightshift/lifecycle_compat.py:31-123 | every legacy row, the ones cut short included, becomes a storable state that the round trip leaves alone |
| LegacyFold.CutShortExactly | src/nightshift/lifecycle_compat.py:45-79 | what becomes of cancelled, expired and orphaned legacy rows |
| LegacyFold.MigrationIsLosslessExactly | src/nightshift/lifecycle_compat.py:31-123 | on reachable rows the migration round-trips exactly when the phase still tells running from landing |
| LegacyFold.MigrationIsLossless | src/nightshift/lifecycle_compat.py:31-123 | in every run without a phase report in mid-land it round-trips on every row |
| LegacyFold.LatePhaseReportsAreLossy | src/nightshift/manager/api_worker.py:767-768 | a late phase report makes it turn a landing attempt into a running one |
| Workflows.ParseWorkflow | src/nightshift/workflows.py:128-208 | a definition is accepted exactly when it has steps and is valid as parsed; parsed, each step keeps its fields, an omitted next leads to the following step or to the end, and omitted visits are one, not declared |
| Workflows.ParseSteps | src/nightshift/workflows.py:128-206 | the two passes parse every definition, field by field, in one way |
| Workflows.OmittedNextsFollowTheList | src/nightshift/workflows.py:129-134 | a workflow without any next or signal walks its steps in the order they are listed and then ends |
| Workflows.RouteExactly | src/nightshift/workflows.py:500-505 | the route of a signal is the target of its first declaration, and of any other signal or none the step's next |
| Workflows.Validate | src/nightshift/workflows.py:216-268 | accepts exactly the valid workflows, and reports a real violation |
| Workflows.CheckDefaultPath | src/nightshift/workflows.py:271-284 | the walk with its seen set decides whether the default path ever reaches work |
| Workflows.ReachableFrom | src/nightshift/workflows.py:292-301 | the stack search finds exactly the steps reachable over at least one edge |
| Workflows.CheckCycles | src/nightshift/workflows.py:287-308 | accepts exactly when every step on a cycle declares its visits |
| Workflows.CheckInputs | src/nightshift/workflows.py:251-261 | accepts exactly when every input is the brief or an earlier output |
| Workflows.CheckSteps | src/nightshift/workflows.py:217-249 | accepts exactly unique ids, shaped and routed steps, final splits |
| Workflows.Route | src/nightshift/workflows.py:500-505 | the route is always one of the step's destinations |
| Visits.ParseVisits | src/nightshift/workflows.py:508-525 | the parse loop computes the fold over the chunks |
| Visits.IntsAreExact | src/nightshift/workflows.py:508-530 | which texts read as which counts: digits with one sign or none |
| Visits.VisitsRoundTripExactly | src/nightshift/workflows.py:508-530 | the counters survive their text form exactly when every id is clean |
| EngineLane.CursorReadsBackExactly | src/nightshift/spawn_daily.py:168-175 | which step ids survive being written into a task's file and read back |
| EngineLane.EntryReadsBack | src/nightshift/task_files.py:408-429 | writing cursor and counters through the editor and reading the file back: both as their scalars do, every other key and the prose as they were |
| EngineLane.FilesEnter | src/nightshift/task_files.py:408-429 | a storable step and the counters of an entry, written into a task's file, read back as themselves, and nothing else changes |
| EngineLane.PinReadsBackExactly | src/nightshift/docs_resolve.py:200-224 | a pin written into a task's file reads back exactly when its text holds no three dashes, and then nothing else changes |
| EngineLane.ResetReadsBack | src/nightshift/manager/api_worker.py:301-318 | a reset takes the three engine keys out and leaves the rest |
| EngineLane.CountsReadBack | src/nightshift/manager/api_worker.py:194 | the counters of clean ids survive their scalar |
| EngineLane.ReadCountsAreCountable | src/nightshift/manager/api_worker.py:194 | whatever a file holds, the counters read from it can be written and read again unchanged |
| EngineLane.FilesAreALane | src/nightshift/task_files.py:408-429 | the files, their editor and their reader are a lane a workflow can run over |
| WorkflowRun.TurnWrites | src/nightshift/transitions.py:679-687 | what one turn writes into the engine's lines of the file |
| WorkflowRun.TurnStaysOnTrack | src/nightshift/manager/api_worker.py:167-221 | one turn keeps the cursor on the graph, the counts within budget, and quarantines only at a declared step |
| WorkflowRun.WorkflowsAreBounded | src/nightshift/workflows.py:216-308 | for every accepted definition with safe ids, every task file and every sequence of signals, the cursor read from the file names a step and moves at most as often as the budgets add up to |
| WorkflowRun.ResetsStartOver | src/nightshift/transitions.py:679-687 | a reset leaves the file as a new one, so every run is made of bounded passes |
| WorkflowRun.RunsLeaveTheBrief | src/nightshift/task_files.py:408-429 | over a whole run every other key and the prose read as the operator wrote them |
| WorkflowRun.OnlyDeclaredBudgetsQuarantine | src/nightshift/workflows.py:287-308 | no run is quarantined at a step that declared no budget |
| WorkflowRun.UncleanStepsAreNeverCounted | src/nightshift/workflows.py:508-530 | a step with an unclean id is never counted |
| WorkflowRun.FalsyStepsRestart | src/nightshift/manager/api_worker.py:380-396 | an id that reads as false or zero, once written into the file, restarts the workflow |
| WorkflowRun.UncleanIdsAreUnbounded | src/nightshift/workflows.py:508-530 | a step with an unclean id that is sent back to itself advances any number of times, whatever the budgets add up to |
| WorkflowRun.SafeIdsExactly | src/nightshift/workflows.py:216-308 | which ids keep every accepted definition within its budgets on every task file: exactly those both engine lines can carry |
| PyText.StripFixpoint | src/nightshift/agent/apply.py:86 | stripping changes exactly the texts with blanks at an end |
| PyText.StripExactly | src/nightshift/agent/apply.py:86 | stripped is exactly what lies between the blanks around it |
| PyText.SplitLinesUnlines | src/nightshift/agent/apply.py:80 | splitting written lines gives the lines |
| PyText.SplitJoin | src/nightshift/workflows.py:513 | splitting a join gives the parts |
| PyText.Find | src/nightshift/agent/apply.py:159-166 | the first occurrence from a start, overlaps included, or none |
| ApplyEdits.ReadingIsUnique | src/nightshift/agent/apply.py:72-135 | a reply has at most one reading |
| ApplyEdits.MarkersAreExact | src/nightshift/agent/apply.py:86-118 | a marker is exactly a line that shows one of the three texts and blanks around it |
| ApplyEdits.ParseBlocks | src/nightshift/agent/apply.py:72-135 | succeeds exactly when a reading exists, and returns it |
| ApplyEdits.AcceptedExactly | src/nightshift/agent/apply.py:72-135 | a reading exists exactly when every SEARCH marker is followed by a divider and a REPLACE marker in order |
| ApplyEdits.OutOfOrderIsRejected | src/nightshift/agent/apply.py:94-118 | a marker out of order in one fence leaves the whole text without a reading |
| ApplyEdits.UnterminatedIsRejected | src/nightshift/agent/apply.py:103-126 | a SEARCH marker that no REPLACE marker follows leaves no reading |
| ApplyEdits.ParseInvertsPrint | src/nightshift/agent/apply.py:72-135 | printed fences with any marker-free narration read back as the same blocks |
| ApplyEdits.RunIsUnique | src/nightshift/agent/apply.py:138-174 | a batch applies in at most one way |
| ApplyEdits.AppliesOrBlame | src/nightshift/agent/apply.py:147-173 | a block applies exactly when no blame of any kind fits |
| ApplyEdits.ApplyEdits | src/nightshift/agent/apply.py:138-174 | succeeds exactly when the whole batch applies, and otherwise names the first block that does not |
| ApplyEdits.ApplyBlock | src/nightshift/agent/apply.py:147-173 | one block: exactly one occurrence, counting overlaps, or empty content |
| ApplyEdits.BlameIsFinal | src/nightshift/agent/apply.py:141-143 | a blamed batch has no run at all |
| ApplyEdits.InverseRestoresTheOriginal | src/nightshift/agent/apply.py:138-174 | the swapped batch in reverse order, when it applies, restores the original, empty halves included |
| Frontmatter.ApplyFenceChanges | src/nightshift/task_files.py:840-864 | the loop lands each change on the first line of its key and appends the rest |
| Frontmatter.LineKeyExactly | src/nightshift/spawn_daily.py:162-175 | a line carries what lies before its first colon, without blanks, unless it is a comment |
| Frontmatter.WrittenBrief | src/nightshift/task_files.py:867-870 | what the written text splits into again |
| Frontmatter.ApplyTwiceExactly | src/nightshift/task_files.py:840-864 | when rewriting a fence twice is rewriting it once |
| Frontmatter.SetFrontmatterIsIdempotent | src/nightshift/task_files.py:873-886 | when editing a text twice is editing it once, if a fence is left |
| Frontmatter.EmptiedFenceExactly | src/nightshift/task_files.py:867-886 | the same if the edit takes the last line of the fence: exactly when the prose opens no fence, or one in written form that lacks every removed key |
| Frontmatter.RemovingTwiceCanDiffer | src/nightshift/task_files.py:825-886 | a text on which editing twice differs |
| Idempotence.EditingIsIdempotentExactly | src/nightshift/task_files.py:840-886 | for which changes editing twice is editing once on every text: exactly those that set something, remove nothing and keep each value on its line |
| Idempotence.FittingIsIdempotent | src/nightshift/task_files.py:840-886 | setting such values is idempotent on every text |
| Idempotence.BreakingGrows | src/nightshift/task_files.py:808-815 | a value with a line break in it makes the brief grow with every edit |
| Idempotence.RemovingShows | src/nightshift/task_files.py:840-864 | a removal takes one more line of its key with every edit, whatever else is set |
| Frontmatter.DisablingIsIdempotent | src/nightshift/repo_tasks.py:485-500 | holding a refused source is idempotent on every text |
| FrontmatterLens.ReadMeta | src/nightshift/spawn_daily.py:162-175 | the reader's loop computes the dict, later entries winning |
| FrontmatterLens.BooleansAreExact | src/nightshift/spawn_daily.py:169-171 | which scalars read as booleans |
| FrontmatterLens.ReadsFenceAndTail | src/nightshift/spawn_daily.py:156-176 | the reader finds the fence and the body of a well-formed brief |
| FrontmatterLens.EditorSplits | src/nightshift/task_files.py:825-837 | the editor finds the same fence |
| FrontmatterLens.PaddingDoesNotShow | src/nightshift/task_files.py:825-837 | blanks after the dashes change neither what is read nor what an edit writes |
| FrontmatterLens.EditReadsBack | src/nightshift/task_files.py:840-864 | what every key reads as after an edit, duplicates included |
| FrontmatterLens.ScalarRoundTripsExactly | src/nightshift/task_files.py:808-815 | which scalars read back as themselves |
| FrontmatterLens.BodySurvives | src/nightshift/task_files.py:818-822 | the prose is unchanged up to blank lines at its ends |
| FrontmatterLens.BodyIsBelowTheBreaks | src/nightshift/spawn_daily.py:156-176 | the body is what lies behind the closing dashes, from its first character that is no line break |
| FrontmatterLens.FrontmatterIsALens | src/nightshift/task_files.py:873-886 | set and read back, on any brief, blanks after its dashes included: the set keys, every other key and the prose; or, where no line of the fence is left, the bare prose |
| FrontmatterLens.HeldBriefsReadDisabled | src/nightshift/repo_tasks.py:485-500 | a refused brief reads as disabled, with every other key and the prose as they were |
| FrontmatterLens.RemovingTheLastKey | src/nightshift/task_files.py:867-870 | an edit that takes the last line leaves the prose alone; when it then reads without keys, exactly |
| DocPins.ResolveTaskDocs | src/nightshift/docs_resolve.py:575-910 | the loops compute the resolution: the first unusable document blocks, otherwise entries, pin and dirtiness |
| DocPins.EntriesFromPin | src/nightshift/docs_resolve.py:482-572 | the git-free loops rebuild the entries the pin records |
| DocPins.OrderHoldsExactly | src/nightshift/docs_resolve.py:421-429 | the order holds, in order, exactly the documents that list the step or list none, or all without a step, each as it was found |
| DocPins.PinnedOrderHoldsExactly | src/nightshift/docs_resolve.py:482-572 | the git-free order holds exactly those of them the pin records, as it records them |
| DocPins.BlockedExactly | src/nightshift/docs_resolve.py:679-872 | why a document blocks the task, each reason exactly in its case and in this order, and what is found otherwise |
| DocPins.FoundAtTheRef | src/nightshift/docs_resolve.py:679-784 | a document that passed is found where its ref or its pin says |
| DocPins.KeysExactly | src/nightshift/docs_resolve.py:691-797 | a document is pinned under its own path, an attachment under its name |
| DocPins.AllowedExactly | src/nightshift/docs_resolve.py:282-298 | which media may be handed over |
| DocPins.TextExactly | src/nightshift/docs_resolve.py:282-298 | which media count as text |
| DocPins.FoundIsItsOwn | src/nightshift/docs_resolve.py:679-784 | what a document that passed guarantees: cap, media, range, reachability |
| DocPins.RebuiltExactly | src/nightshift/docs_resolve.py:482-572 | rebuilding gives the resolver's entries exactly when the pin holds what it found |
| DocPins.PinRebuildsTheOrderExactly | src/nightshift/docs_resolve.py:482-910 | from the pin left in the task's file the git-free path rebuilds the run's entries, exactly when no emitted document shares its key with another blob's attachment or, where nothing was written, the file's sizes were right |
| DocPins.OwnPinRebuildsExactly | src/nightshift/docs_resolve.py:482-572 | on the pin a run computes, exactly when no two findings under one key differ |
| DocPins.ClashLosesADocument | src/nightshift/docs_resolve.py:691-797 | a document and an attachment under one key, of which the rebuilt order serves one twice |
| DocPins.WrongSizeIsServed | src/nightshift/docs_resolve.py:697-739 | a wrong size in the file, called clean and served again |
| DocPins.ApartKeysNeverClash | src/nightshift/docs_resolve.py:691-797 | a check on the names alone that rules every clash out |
| DocPins.ResolvingAgainIsAFixpointExactly | src/nightshift/docs_resolve.py:697-739 | from the pin left in the task's file, with the pinned blobs reachable and the refs anywhere, every later run finds every document again as it was, with the same entries and pin and not dirty, exactly when no path document shares its key with another blob's attachment |
| DocPins.ClashIsDirtyForever | src/nightshift/docs_resolve.py:691-815 | an input on which, with nothing changed, every run is dirty and leaves the same pin |
| DocPins.ClashesNeverSettle | src/nightshift/docs_resolve.py:691-745 | where the clashing document is emitted, no later run ever gives the same result without being dirty |
| DocPins.PinIsTheSameForEveryStep | src/nightshift/docs_resolve.py:767-771 | the pin and its dirtiness do not depend on the workflow step |
| DocPins.CleanMeansUnchangedExactly | src/nightshift/docs_resolve.py:697-739 | a run called clean returns the old pin exactly when the size it held was right for the last document of each key |
| ImportCopy.ScanInboxes | src/nightshift/repo_tasks.py:246-277 | the scan classifies every importable brief, in order |
| ImportCopy.ScanHoldsExactly | src/nightshift/repo_tasks.py:181-277 | the scan holds, in published order, exactly the briefs that are no template, hidden file or recurring source, each with the one thing the queue says about it |
| ImportCopy.FreeName | src/nightshift/repo_tasks.py:388-392 | the first free suffix, found in finitely many rounds |
| ImportCopy.Queue.CopyRepoTasks | src/nightshift/repo_tasks.py:348-401 | names distinct and chosen as documented, each file its own entry's text, everything else unchanged, the order extended by the fresh names |
| ImportCopy.SelectionHoldsExactly | src/nightshift/repo_tasks.py:376-378 | the copy writes, in scan order, exactly the entries that are neither duplicates nor too late |
| ImportCopy.OnlyUpdatesChangeBriefs | src/nightshift/repo_tasks.py:353-361 | a queued brief changes only through an entry of its name that updates it |
| ImportCopy.QueuedIsWrittenExactly | src/nightshift/repo_tasks.py:353-396 | a queued brief is written exactly when an entry of the batch updates it, whatever names the others got |
| ImportCopy.FreshNamesAreNew | src/nightshift/repo_tasks.py:383-396 | a written brief takes an existing name exactly when it replaces |
| ImportCopy.TextsSurviveExactly | src/nightshift/repo_tasks.py:348-401 | which texts are in the queue afterwards, told by the batch and the queue before |
| ImportCopy.OrderGainsTheFreshNames | src/nightshift/repo_tasks.py:393-400 | the order gains exactly the fresh names, in the order they were written |
| ImportCopy.BegunBriefsAreNeverRewritten | src/nightshift/repo_tasks.py:107-111 | a task that has begun keeps its brief, even if the queue changed since the scan |
| ImportCopy.DrainedTextsSurvive | src/nightshift/repo_tasks.py:353-369 | a drained text is in the queue exactly unless it was a duplicate and updates overwrite every copy of it |
| ImportCopy.OverwrittenDuplicatesAreLost | src/nightshift/repo_tasks.py:263-275 | a batch on which such a text is lost |
| Executor.RepoExecutor.constructor | src/nightshift/git/executor.py:40-48 | a new executor has no thread and no jobs |
| Executor.RepoExecutor.SubmitJob | src/nightshift/git/executor.py:50-59 | a job is enqueued unless the executor is stopped |
| Executor.RepoExecutor.BeginShutdown | src/nightshift/git/executor.py:65-75 | the critical section of a shutdown, and which call joins |
| Executor.RepoExecutor.TakeItem | src/nightshift/git/executor.py:88-97 | dequeue, skip a cancelled job, or claim it |
| Executor.RepoExecutor.FinishJob | src/nightshift/git/executor.py:98-106 | the future is resolved and the queue's count goes down |
| Executor.JobsAreTakenInOrder | src/nightshift/git/executor.py:50-106 | accepted jobs are taken in order, each once, in every interleaving |
| Executor.NothingIsAcceptedAfterShutdown | src/nightshift/git/executor.py:53-59 | nothing is accepted after a shutdown |
| Executor.ShutdownsStop | src/nightshift/git/executor.py:65-75 | in every interleaving a shutdown stops the executor for good, and one before the first job leaves no thread and nothing queued |
| Executor.ShutdownJoinsExactly | src/nightshift/git/executor.py:65-75 | the one call that joins the thread is the one that tells it to stop |
| Executor.CancelledJobsNeverRun | src/nightshift/git/executor.py:88-106 | in every interleaving a cancel takes a job exactly if it has not begun, and it never runs then |
| Executor.WaitingIsEnough | src/nightshift/git/executor.py:61-75 | a drained queue and an exited worker mean every accepted job is over |
| Executor.SecondShutdownIsEnoughExactly | src/nightshift/git/executor.py:65-69 | when a repeated shutdown returns with the queue exhausted |
| Executor.SecondShutdownReturnsEarly | src/nightshift/git/executor.py:65-69 | an interleaving in which it does not |
| Executor.StoppedWorkersExit | src/nightshift/git/executor.py:65-106 | after a shutdown the worker always has a step and always less to do |
| RepoLock.Registry.RepoLockOf | src/nightshift/git/locks.py:98-107 | one lock object per repository, for ever, never shared by two |
| RepoLock.AtMostOneHolder | src/nightshift/git/locks.py:52-82 | at most one thread of all processes is inside, even when processes die |
| RepoLock.OwnersAreInside | src/nightshift/git/locks.py:49-82 | the owner field names a thread exactly between its acquire and its release |
| RepoLock.TheFileLockIsNeverLost | src/nightshift/git/locks.py:60-82 | the file lock is free exactly when nobody is past it |
| RepoLock.FreeLocksCanBeTaken | src/nightshift/git/locks.py:52-82 | a lock nobody holds can be taken by any thread, is refused to its owner, and can be given back |
| RepoLock.DeathsUnlock | src/nightshift/git/locks.py:1-48 | a process that dies leaves nothing locked and nobody else without what they hold |
| AgentLoop.SumUsage | src/nightshift/agent/loop.py:101-112 | the loop adds one turn's usage key by key |
| AgentLoop.TotalsAreSums | src/nightshift/agent/loop.py:101-112 | every usage total is the sum over the turns that report the key, and there is one exactly where some turn does |
| AgentLoop.Dispatch | src/nightshift/agent/loop.py:258-288 | the results are what the tools answered, call by call, under the calls' ids |
| AgentLoop.RunLoop | src/nightshift/agent/loop.py:144-301 | for every behaviour around it: which turns go on and why there are no more, records, messages, requests, transcript sizes, usage and text |
| AgentLoop.AccountTells | src/nightshift/agent/loop.py:223-238 | the text of a finished run is the last one that is not empty, and its usage the total, over all that the model said |
| AgentLoop.RunsAreDetermined | src/nightshift/agent/loop.py:187-301 | with the same behaviour around it a run has the same turns and ends for the same reason with the same last word |
| AgentLoop.ContentIsWhatWasSaid | src/nightshift/agent/loop.py:243-256 | what the model said goes into the conversation whole: its text, if any, and then its calls in order |
| AgentLoop.MarkersPileUp | src/nightshift/agent/loop.py:115-141 | how many cache markers a request carries |
| AgentLoop.TwoMarkersExactly | docs/topics/agentic-harness.md:125-128 | when they are the two the design allows |

## Left out

- SetFrontmatterIsIdempotent: is about values of one line on one text; which changes are idempotent on every text, whatever their values, is `Idempotence.EditingIsIdempotentExactly`.
- Line-level merging, renames, file modes and index formats: trees are maps and merging is by path.
- The squash's display hash, result lines, reasons, event payloads, telemetry columns and the price table.
- `lock_changed_between` and the venv marker, the sync throttle's clock, `open_pr` beyond its success, `adopt_or_nothing_locked`.
- Commits written twice within one second with equal content, which git would give one hash.
- Runs on a repository whose HEAD is a branch other than `main` are modelled; switching branches during a land is not.
- Resolve results reported out of process (`resolve_runner.py`), which write attempt rows directly.
- The re-enqueue at recovery reads a fresh policy; the model lets every land report carry any policy, which covers it.
- Parsing of JSON and of the documents' block lists, `normpath` and media sniffing: parameters of the document model.
- Non-ASCII decimal digits and underscores in `int` and `isdigit`; case folding beyond ASCII.
- `split_notes`, `join_notes`, `split_original` and `join_original`, `join_frontmatter`: section splitting with little to say beyond each body.
- Roles, models and prompts of a workflow step, and the type checks of its JSON.
- Timings of the agent loop, the `honoured` record, log lines, and the time-to-live of cache markers.
- `RepoLock.acquire` and `release` are steps of threads rather than methods of a class, since they block; a failing unlock is not modelled.
- The executor pool, which only routes to one executor per repository.
- HTTP endpoints, scheduling, heartbeats and queue ordering: plumbing around these cores.
