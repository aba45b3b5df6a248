# Sleigh: verified model of its core algorithms and protocols

Sleigh is a sandbox server: it runs commands in containers for client sessions, snapshots
workspaces, keeps a pool of warm sandboxes and delivers webhooks. This project models the parts of
it where correctness is not obvious from one function, and proves what they promise over every
input, every run and every interleaving.

## What is modelled

**Workspace snapshots** (`Order`, `FileTree`, `Mirror`, `MirrorProofs`, `MirrorOutcome`, `LinkTargets`,
`SnapshotHistory`, `SnapshotProofs`, `SnapshotForecast`, `SnapshotService`). A disk is a set of directory trees over one
heap of inodes. System calls are functions on a tree, with an environment that says which calls fail and
what stat reports through destination links.
`cloneSnapshotBase` and `syncTree` are functions on disks (`Mirror.Pass`,
`Mirror.Prune`, `Mirror.Sync`, `Mirror.CloneBase`); the class `SnapshotService.Service` has the walks
and the removal loop in the form of the source, each proved against its function.
The main results: a snapshot taken over a base equals a full copy, with the exact condition under
which it does; how a mirror run ends, told from the trees before it; no snapshot changes during a run of
creations, edits, rollbacks and expiries; a rollback restores the workspace, with the exact condition.

What stat reports through a destination link at a callback is `env.followed` there. It is not free: the
link may lead to what the run has changed by then. `LinkTargets` resolves links in the destination
tree (relative targets, `..`, chains up to 40 links, the limit of Linux) and computes the answers of a whole run from the trees
before it (`Forecast`); only for links that lead out of the tree is the answer a parameter, `outside`. An environment that
answers as the tree does at each callback is called honest. `LinkTargets.HonestExactly` says that these are the ones
that agree with the forecast, and `LinkTargets.SyncForeseen` and the lemmas of `SnapshotForecast` restate
the exact conditions with it, so that they can be told before the run.

A callback that would go on beyond a destination link ends its run with the outcome `LeftTree`. The
source goes on there, in whatever tree the link leads to. So the runs of `SnapshotHistory.Next` are those
in which no operation leaves its trees and no ignored unlink fails. `MirrorOutcome.LeavesExactly`,
`SnapshotProofs.RollbackLeaves` and `SnapshotProofs.CreateLeaves` say exactly which operations leave,
`SnapshotProofs.LinkFreeRuns` gives a condition under which none does, and
`SnapshotProofs.BeyondLinkWrites` says what one callback does beyond a link.

**Exec tasks and webhooks** (`ExecProtocol`, `ExecProofs`, `ExecRuns`, `ExecService`). A step of the
transition system is one stretch of code under the service mutex up to a store call, or one store
call. The closing section of a task is split further, into the assignments of the outcome, the status and
the error, because readers copy the task without the mutex. Runners, memory pollers, cancellers,
subscribers, delivery workers and cleaners interleave freely. The class `ExecService.Service` holds the
task map and the tables and refines the steps.

**Warm pool** (`WarmPool`, `WarmPoolService`). Creators, the refiller, clients and the idle cleaner
interleave at every store call.

**Exec history** (`Cursor`, `Paging`, `ExecHistory`). Signed cursors over an abstract codec with a
left inverse, keyset paging in any strict total order, and the two together: a client that follows
the tokens reads exactly the sorted history.

**Smaller cores**: shell quoting against a reader of the POSIX token rules (`ShellQuote`), the context
edit (`ContextEdit`), memory growth (`MemoryGrowth`), the workflow loop (`Workflow`), and the order of
time stamps (`Timestamps`). `Text` has the trimming that several of them use.

## Where the code does less than one might expect

Each of these is a theorem with a concrete input or an exact condition.

- `syncTree` compares size and modification time only, through `os.Stat`, which follows links, and
  `os.MkdirAll` accepts a link to a directory. So a rewrite that keeps both, or a destination link
  that looks the same, survives a successful run (`SnapshotProofs.SameStampIsMissed`,
  `SnapshotProofs.LinkIsFollowed`). `MirrorProofs.SyncExact` has the condition.
- A link into the destination shows what the run has made of its target by then. A link that looks harmless before a
  rollback can survive it (`SnapshotForecast.LinkIsOvertaken`), and a second run after a successful one need not be
  idle (`SnapshotForecast.SecondRunChanges`). `LinkTargets` has the conditions.
- A creation whose row cannot be stored leaves its directory behind, and nothing lists it
  (`stored` in `SnapshotHistory.Attempt`).
- The same links let a run act on other trees. With a workspace directory replaced by a link to another
  snapshot's directory, a rollback rewrites that snapshot (`SnapshotProofs.RollbackReachesOtherSnapshot`).
- The error of `os.RemoveAll` is ignored before a file is opened with truncation. When the unlink
  fails and the open succeeds, the write goes into an inode that a snapshot may share
  (`SnapshotProofs.VisitSparesOthers` says exactly when, for a callback that stays in its tree, and
  `SnapshotProofs.CallbackLeaves` when one does not). The run theorems assume that no unlink fails in this
  way (`stuck == {}`).
- `docs/api_reference.md` says that a subscribed webhook is called when the task ends. A subscriber
  that reads the task before its end and inserts its row after the finisher has listed the rows is
  never served (`ExecRuns.SubscriptionLost`), unless a later subscriber that reads the end lists it, too.
  `ExecRuns.ServedWhenQuiet` says that these are exactly the ones.
- `GetExec` copies the task after it has released the mutex. A copy made between the assignments of a failed
  status and of its error is terminal and not final, and a subscriber posts it
  (`ExecRuns.FailureReadEarly`). `ExecRuns.TerminalAnswerIsFinal` says that nothing else can go wrong.
- When the row of a new task cannot be inserted, the map keeps a task that runs forever as far as it
  says; nothing but the caller's lost id refers to it (runner state `Abandoned`).
- `CancelExec` writes no recovery note, so the column is empty until the task ends
  (`ExecRuns.SourcesAgree` excludes the note for tasks that have not ended).
- A refill that fails between the sandbox row and the pool entry leaves a sandbox that has no owner
  and no pool entry. Idle clean-up lists owned sandboxes only.
- A task with a blank start time or id gives a blank cursor, and the client starts over
  (`Cursor.BlankKeyRestarts`); the exactness results ask for stamped keys.
- A cursor in the old form, a start time and an id around a bar, carries no signature and opens for every session
  (`Cursor.LegacyOpens`). The page that it opens has tasks of the asking session only (`ExecHistory.ListExecHistory`).
- A context edit cannot choose the first of several matches (`ContextEdit.EditSucceeds`), so its inverse
  is refused there (`ContextEdit.InverseEdit`).
- The step cap of memory growth is an int64 sum. Where it wraps around below the ceiling, growth may get
  stuck there (`MemoryGrowth.ReachesExactly`).
- A workflow exec that is waited for is reported with the result from before the wait, because the
  inner variable shadows the outer one (`Workflow.DoneExecReportsInitial`).

## Model

| member | source | states |
|---|---|---|
| Mirror.StalesExact | server/internal/sandbox/workspace_snapshot.go:114-133 | the stale list is exactly the unseen paths other than the meta file, in walk order |
| Mirror.PassProgress | server/internal/sandbox/workspace_snapshot.go:68-107 | after any number of callbacks, every visited source path is settled and no later one has been disturbed |
| Mirror.PruneExact | server/internal/sandbox/workspace_snapshot.go:137-147 | removal in reverse pre-order never meets a non-empty directory: it fails only where a call itself fails, and removes exactly the listed paths |
| Mirror.PrunePassExact | server/internal/sandbox/workspace_snapshot.go:109-148 | the clean-up removes exactly the destination paths absent from the source, the root meta file aside |
| Mirror.SyncFrame | server/internal/sandbox/workspace_snapshot.go:66-149 | whatever its outcome, a run changes only the destination tree, and no inode that existed before |
| Mirror.CloneBaseFrame | server/internal/sandbox/workspace_snapshot.go:22-64 | linking a base writes no inode and touches no tree but the target |
| MirrorProofs.SyncExact | server/internal/sandbox/workspace_snapshot.go:66-149 | after a successful run the trees agree in paths, kinds, contents, times and link targets if and only if no path is blind, given the answers the run got about links |
| MirrorProofs.MirroredIsIdle | server/internal/sandbox/workspace_snapshot.go:96-100 | over trees that mirror each other already, however they came about, a run without I/O errors changes nothing, not even inodes |
| MirrorOutcome.SyncIdempotent | server/internal/sandbox/workspace_snapshot.go:66-149 | a run after a successful one succeeds and changes nothing, not even inodes, if and only if no source path is faulty and, through every link left in the place of a source directory or file, stat then reports the like of it |
| MirrorOutcome.CopyPassOutcome | server/internal/sandbox/workspace_snapshot.go:68-107 | given the answers about links, a walk ends as the first trouble in the trees before it says, whatever it changes on the way |
| MirrorOutcome.SyncOutcome | server/internal/sandbox/workspace_snapshot.go:66-149 | given the answers about links, exactly when a run succeeds, fails or leaves its tree: the first trouble of the walk, then a leftover path that cannot be removed |
| MirrorOutcome.LeavesExactly | server/internal/sandbox/workspace_snapshot.go:81-92 | a run leaves its tree if and only if a source path that is not special is below a destination link and, given the answers about links, nothing fails before it; never where no source directory meets a link |
| MirrorOutcome.LeavesThroughDirectory | server/internal/sandbox/workspace_snapshot.go:82-84 | the link at which a run leaves leads to a directory, unless it stands in for the meta file |
| LinkTargets.PassSight | server/internal/sandbox/workspace_snapshot.go:68-107 | after any number of callbacks the destination, as stat and readlink see it, is the one computed from the trees before the run |
| LinkTargets.PlainPathResolves | server/internal/sandbox/workspace_snapshot.go:96-99 | along directories a path of plain names resolves to its own entry |
| LinkTargets.DotsGoUp | server/internal/sandbox/workspace_snapshot.go:96-99 | empty names and dots stay, two dots undo a name, and lead out of the tree from its root |
| LinkTargets.LinkReplaces | server/internal/sandbox/workspace_snapshot.go:96-99 | a relative link puts its target in its place at the cost of one link, an absolute one leads out of the tree |
| LinkTargets.LoopEnds | server/internal/sandbox/workspace_snapshot.go:96-99 | a link to itself shows no file |
| LinkTargets.HonestExactly | server/internal/sandbox/workspace_snapshot.go:96-99 | the answers about links are those of the tree at each callback if and only if they are the ones computed from the trees before the run; such answers exist |
| LinkTargets.WalkForeseen | server/internal/sandbox/workspace_snapshot.go:68-107 | with honest answers: how a walk ends, and exactly when it leaves its tree, told from the trees before it |
| LinkTargets.SyncForeseen | server/internal/sandbox/workspace_snapshot.go:66-149 | with honest answers: how a run ends, and exactly when a successful one has made a mirror, told from the trees before it |
| LinkTargets.BesideForeseen | server/internal/sandbox/workspace_snapshot.go:96-99 | a destination link to a file beside it shows the source's file if that comes earlier in the walk, and the destination's own otherwise |
| LinkTargets.OvertakenLinkStays | server/internal/sandbox/workspace_snapshot.go:96-100 | so a link to an earlier file survives a successful run, which is then no mirror, wherever the source has two files of the same size and time |
| LinkTargets.IdempotentAsSeen | server/internal/sandbox/workspace_snapshot.go:66-149 | an honest second run changes nothing if and only if, in the trees that the first has left, no source path is faulty and every link in the place of a source directory or file leads to the like of it |
| LinkTargets.SecondRunTurns | server/internal/sandbox/workspace_snapshot.go:96-104 | a second run is not idle where the first keeps a link for the file it shows and then replaces that file |
| MirrorProofs.CloneExact | server/internal/sandbox/workspace_snapshot.go:22-64 | a clone has the very inodes of its base at the same paths, special files and the meta file aside |
| MirrorProofs.IncrementalEqualsFull | server/internal/sandbox/service.go:1697-1717 | a snapshot over any base, or none, or a missing one, holds exactly the workspace if and only if no path is blind against the base, given the answers about links |
| SnapshotHistory.WorkspaceStep | server/internal/sandbox/workspace_snapshot.go:151-175 | edits of a workspace and rollbacks into it leave every snapshot as it is |
| SnapshotHistory.SnapshotStep | server/internal/sandbox/service.go:1704-1717 | a new snapshot, even one abandoned half-way, leaves every other snapshot and the inode separation as they are |
| SnapshotHistory.StepKeeps | server/internal/sandbox/service.go:1685-1743 | every operation keeps snapshots and workspaces apart, and every earlier snapshot; no directory goes but that of the snapshot that expires |
| SnapshotHistory.StepKeepsStamps | server/internal/sandbox/workspace_snapshot.go:168-174 | copies carry the source time, so size and time go on determining content across all inodes |
| SnapshotHistory.CreateEnds | server/internal/sandbox/service.go:1704-1717 | a creation ends as its clone and copy do, or fails at a directory in the place of the meta file; when it ends well, the meta file is there with its content, beside the rest |
| SnapshotHistory.CreateIsStep | server/internal/sandbox/service.go:425-453 | every creation that stays in its directory is a step of the runs, whatever its outcome and that of storing its row |
| SnapshotHistory.RollbackIsStep | server/internal/sandbox/service.go:1720-1743 | so is every rollback that stays in its workspace |
| SnapshotHistory.ExpireIsStep | server/internal/sandbox/service.go:1928-1945 | so is every expiry: exactly one directory goes, and the row if it can be deleted |
| SnapshotHistory.EditIsStep | server/internal/sandbox/workspace_snapshot.go:151-175 | any number of edits of one workspace is a step of the runs, too |
| SnapshotProofs.SnapshotsNeverChange | server/internal/sandbox/service.go:1928-1931 | over every run that stays in its trees, a snapshot directory that still exists holds what it held when its creation ended, also after its base has been deleted |
| SnapshotProofs.LivesUntilExpired | server/internal/sandbox/service.go:1928-1945 | over every run that stays in its trees, a snapshot directory is gone if and only if its own snapshot has expired since, and its row does not go before |
| SnapshotProofs.RollbackRestores | server/internal/sandbox/service.go:1720-1743 | snapshot, anything that stays in its trees, rollback: the workspace is as it was, if and only if no link was in the way when the walk came to it |
| SnapshotProofs.RollbackLeaves | server/internal/sandbox/service.go:1720-1743 | exactly when a rollback leaves the workspace, from the trees before it and the answers about links |
| SnapshotProofs.CreateLeaves | server/internal/sandbox/service.go:1697-1717 | exactly when a creation leaves the new directory, from the clone of the base, the workspace and the answers about links |
| SnapshotProofs.LinkFreeRuns | server/internal/sandbox/service.go:1685-1743 | as long as no edit brings in a link, every sequence of operations is a run to which the guarantees apply |
| SnapshotProofs.CallbackLeaves | server/internal/sandbox/workspace_snapshot.go:81-104 | exactly when one callback leaves its tree: below a link, or by opening a link that it could not unlink |
| SnapshotProofs.BeyondLinkWrites | server/internal/sandbox/workspace_snapshot.go:81-104 | beyond a link a callback changes the far tree exactly where it differs from the source, and no other tree |
| SnapshotProofs.RollbackReachesOtherSnapshot | server/internal/sandbox/workspace_snapshot.go:81-104 | a concrete rollback that leaves the workspace, and whose callback rewrites a file of another snapshot |
| SnapshotProofs.VisitSparesOthers | server/internal/sandbox/workspace_snapshot.go:161-166 | a callback that stays in its tree leaves every other tree as it is if and only if it does not write through a failed unlink into a shared inode |
| SnapshotProofs.StuckPath | server/internal/sandbox/workspace_snapshot.go:85-103 | what each kind of callback does at a path that cannot be unlinked |
| SnapshotProofs.SameStampIsMissed | server/internal/sandbox/workspace_snapshot.go:96-100 | a concrete rewrite with the same size and time that a successful run does not undo |
| SnapshotProofs.LinkIsFollowed | server/internal/sandbox/workspace_snapshot.go:96-100 | a concrete link that a successful run leaves where the source has a file |
| SnapshotForecast.CloneForeseen | server/internal/sandbox/workspace_snapshot.go:22-64 | how a clone into an empty directory ends and its whole tree, from the base alone; no answer about links is used |
| SnapshotForecast.CaptureForeseen | server/internal/sandbox/service.go:1697-1713 | a creation up to its meta file, told from the workspace and the base before it: how it ends, and exactly when it holds the workspace |
| SnapshotForecast.CreateLeavesForeseen | server/internal/sandbox/service.go:1697-1717 | exactly when a creation leaves the new directory, from the workspace and the base before it |
| SnapshotForecast.RollbackForeseen | server/internal/sandbox/service.go:1720-1743 | a rollback, told from the snapshot and the workspace before it: how it ends, and exactly when it has made a mirror |
| SnapshotForecast.RollbackRestoresForeseen | server/internal/sandbox/service.go:1720-1743 | snapshot, anything that stays in its trees, rollback: the workspace is as it was, if and only if no link is in the way, told from the trees before the creation and before the rollback |
| SnapshotForecast.LinkIsOvertaken | server/internal/sandbox/workspace_snapshot.go:96-100 | a concrete workspace in which no link is in the way before the run, and the link stays because the run restores what it leads to |
| SnapshotForecast.SecondRunChanges | server/internal/sandbox/workspace_snapshot.go:96-104 | a concrete workspace on which two runs in a row succeed and the second changes what the first has left |
| SnapshotService.CollectStales | server/internal/sandbox/workspace_snapshot.go:113-135 | the second walk computes the stale list |
| SnapshotService.RemoveStales | server/internal/sandbox/workspace_snapshot.go:137-148 | the backward index loop computes the removal, and stops at the first error |
| SnapshotService.Service.CopyRegularFile | server/internal/sandbox/workspace_snapshot.go:151-175 | a new inode with the source's data and time, or a write into what an unlink failure left |
| SnapshotService.Service.VisitEntry | server/internal/sandbox/workspace_snapshot.go:79-104 | one callback in place equals the specified change of the disk |
| SnapshotService.Service.CloneSnapshotBase | server/internal/sandbox/workspace_snapshot.go:22-64 | the linking walk in place, up to the first error |
| SnapshotService.Service.CopyWalk | server/internal/sandbox/workspace_snapshot.go:67-107 | the copying walk in place; on success `seen` is the source's paths |
| SnapshotService.Service.SyncTree | server/internal/sandbox/workspace_snapshot.go:66-149 | both passes in place |
| SnapshotService.Service.CreateWorkspaceSnapshot | server/internal/sandbox/service.go:425-453 | the whole new state and the error cases, a row that cannot be stored included; a successful creation mirrors the workspace and holds its meta file |
| SnapshotService.Service.RollbackWorkspaceSnapshot | server/internal/sandbox/service.go:1720-1743 | the whole new state and the error cases; a successful rollback mirrors the snapshot |
| SnapshotService.Service.CleanupOneExpiredSnapshot | server/internal/sandbox/service.go:1910-1943 | the refusals; then exactly the one directory goes and the row, either may fail; the content of every remaining tree stays |
| ExecProofs.FinishedTellsOutcome | server/internal/sandbox/service.go:1260-1286 | what each final status says about the command's outcome, with its output, exit code and error |
| ExecProofs.StepKeeps | server/internal/sandbox/service.go:1095-1307 | every step of every participant keeps the invariant of tasks, rows, subscriptions and workers |
| ExecProofs.TerminalNeverChanges | server/internal/sandbox/service.go:1107-1109 | no step changes the result of an exec that has ended, and none its task once the closing section is over |
| ExecProofs.WaitingSubscription | server/internal/sandbox/service.go:1288-1306 | a pending row stays queued or awaited under every step that does not list or serve it |
| ExecRuns.StatusMachine | server/internal/sandbox/service.go:1252-1286 | in every reachable state a task has been running, perhaps cancelling, then ended at most once, never failed after cancelling; outside its own closing section, completion time if and only if ended, and succeeded means an exit code and no error |
| ExecRuns.StatusMovesForward | server/internal/sandbox/service.go:1095-1127 | along a run the status only moves forward and an ended task keeps its whole result |
| ExecRuns.SourcesAgree | server/internal/sandbox/service.go:1063-1093 | while the mutex is free, row and map agree on everything but the recovery note, and wholly once either has ended; GetExec answers accordingly |
| ExecRuns.TerminalAnswerIsFinal | server/internal/sandbox/service.go:1063-1093 | a terminal GetExec answer is the answer of both sources once the closing section is over, if and only if it is not a failure copied before its error was assigned |
| ExecRuns.AnswerTellsItIsFinal | server/internal/sandbox/service.go:1063-1093 | a terminal answer that is not a failure, or has an error text, is final |
| ExecRuns.FailureReadEarly | server/internal/sandbox/service.go:1272-1285 | a run on which such an answer is given, and posted |
| ExecRuns.CleanupSparesTheLiving | server/internal/store/sqlite/store.go:1087-1101 | history clean-up deletes exactly the rows completed before the cutoff, and no row of a task that has not ended |
| ExecRuns.WebhookCoverage | server/internal/sandbox/service.go:1174-1214 | a pending subscription on an ended exec is queued at a worker, awaited by someone who will list, or was missed by the race |
| ExecRuns.ServedWhenQuiet | server/internal/sandbox/service.go:1361-1382 | once nothing is under way, a subscription to an ended exec is unserved if and only if it was inserted after the finisher had listed, by a subscriber that had read a status that was not terminal, and nobody has listed the exec since |
| ExecRuns.PostsAreFinal | server/internal/sandbox/service.go:1306 | whatever is posted is a copy of the final result, at most without the error of a failure; one row for each exec and URL |
| ExecRuns.SubscriberHasRow | server/internal/store/sqlite/store.go:853-884 | after every insert of a run there is exactly one row with the subscriber's exec and URL, a new pending one if and only if there was none, and all others are as before |
| ExecRuns.SubscriberEnds | server/internal/sandbox/service.go:1174-1214 | a subscriber is done exactly when its insert fails, when it has inserted after a status that was not terminal, or when it has left a worker |
| ExecRuns.SubscriptionLost | server/internal/sandbox/service.go:1174-1200 | a run from the initial state in which a subscription is never served |
| ExecService.Conclude | server/internal/sandbox/service.go:1260-1286 | the branches that set the final record compute the specified one |
| ExecService.Service.Execute | server/internal/sandbox/service.go:538-589 | the checks, the map entry, the row, and the state left when the insert fails |
| ExecService.Service.CreateExecTask | server/internal/store/sqlite/store.go:700-730 | the insert, or the abandoned task |
| ExecService.Service.PreExec | server/internal/sandbox/service.go:1234-1242 | the recovery note of the expansion before the run |
| ExecService.Service.PollOnce | server/internal/sandbox/service.go:748-756 | a poller adds its note while the task is running, and does nothing otherwise |
| ExecService.Service.UpdateExecTask | server/internal/store/sqlite/store.go:732-767 | the update changes the one row, not its fixed columns, and nothing when there is none |
| ExecService.Service.FinishExec | server/internal/sandbox/service.go:1252-1306 | the closing section refines the five steps of the protocol |
| ExecService.Service.CancelExec | server/internal/sandbox/service.go:1095-1127 | the section under the mutex, its errors, and no effect on a task that is not running |
| ExecService.Service.GetExec | server/internal/sandbox/service.go:1063-1093 | the map first, then the row, else not found |
| ExecService.Service.CreateSubscription | server/internal/store/sqlite/store.go:853-884 | a row is made if and only if no row has this exec and this URL; its fields, and no change to any other row |
| ExecService.Service.ListPending | server/internal/store/sqlite/store.go:886-925 | exactly the pending rows of the exec |
| ExecService.Service.DeliverNotifications | server/internal/sandbox/service.go:1361-1382 | the loop serves every listed row once and no other |
| ExecService.HalfwayEnds | server/internal/sandbox/service.go:1371-1381 | after the loop nothing of the exec is pending, every listed row was served once and its URL posted to, other rows are as before |
| ExecService.Service.CleanupHistory | server/internal/sandbox/service.go:841-858 | the delete with its cascade, and the number reported |
| WarmPool.OwnershipStep | server/internal/sandbox/service.go:1556-1663 | every step keeps pooled sandboxes unowned and out of reach of creators and deleters |
| WarmPool.PoolIsOutOfReach | server/internal/sandbox/service.go:360-378 | a pooled sandbox exists, has no owner, is authorised for no session, is not idle for clean-up, and nobody holds or is about to delete it |
| WarmPool.AcquiredIsKept | server/internal/sandbox/service.go:1593-1595 | between its acquisition and its assignment a sandbox cannot be deleted |
| WarmPool.HandedToOne | server/internal/store/sqlite/store.go:416-453 | a pooled sandbox is handed to one creator at most |
| WarmPool.OwnerIsWrittenOnce | server/internal/store/sqlite/store.go:232-259 | a non-empty owner never changes, and its sandbox is never pooled again |
| WarmPool.SessionNamed | server/internal/sandbox/service.go:1456-1467 | the session of a request is the first of its two labels that is not blank, trimmed |
| WarmPool.ServedOwns | server/internal/sandbox/service.go:1556-1604 | over every run, whoever named a session and was served from the pool owns the sandbox for as long as it exists |
| WarmPool.CreatedOwns | server/internal/sandbox/service.go:197-252 | so does whoever got a new sandbox, whether the pool was empty or did not fit |
| WarmPool.AssignWrites | server/internal/store/sqlite/store.go:232-259 | the assignment writes the session into the one row, if there is one, and nothing else |
| WarmPool.HitAlone | server/internal/sandbox/service.go:1569-1603 | a creation from the pool by itself: an oldest entry of the configured image and memory goes, its sandbox is owned, one hit is counted |
| WarmPool.MissAlone | server/internal/sandbox/service.go:1573-1578 | a creation without a fitting entry by itself: a new owned row, one miss is counted |
| WarmPool.SkipAlone | server/internal/sandbox/service.go:1562-1567 | a creation that the pool does not fit by itself: a new owned row, no miss is counted |
| WarmPool.FailsAlone | server/internal/sandbox/service.go:1581-1598 | a creation that fails after its acquisition changes no row and no counter more |
| WarmPool.RefillAlone | server/internal/sandbox/service.go:1624-1659 | one turn of the refill by itself: a sandbox without owner, its entry, one refill is counted |
| WarmPool.RefillStartsAndEnds | server/internal/sandbox/service.go:1612-1621 | a refill starts from the number of fitting entries, and another may start when it has ended, well or badly |
| WarmPool.DeleteAlone | server/internal/sandbox/service.go:360-399 | an authorised deletion takes away the one row and nothing else |
| WarmPool.TouchAlone | server/internal/sandbox/service.go:360-378 | a use of a sandbox is written down for its owner only, and changes nothing else |
| WarmPool.IdleAlone | server/internal/sandbox/service.go:1759-1785 | idle clean-up may delete exactly the owned sandboxes last used before the cutoff, each once |
| WarmPool.PoolStaysWithinTarget | server/internal/sandbox/service.go:1612-1661 | with acquisitions between any two store calls of a refill the pool never exceeds the target, or its initial size |
| WarmPool.RefillsAreConserved | server/internal/sandbox/service.go:1569-1603 | initial entries and refills are the pool, the hits and the acquisitions under way or failed, at every moment |
| WarmPoolService.Service.AcquireWarmPoolEntry | server/internal/store/sqlite/store.go:416-453 | takes an oldest entry of the configured image and memory and nothing else; none if and only if there is none |
| WarmPoolService.Service.Allocate | server/internal/sandbox/service.go:1556-1604 | hit, miss, disabled and error cases with their counters; the owner written is the session that the labels name |
| WarmPoolService.Service.EnsureWarmPool | server/internal/sandbox/service.go:1606-1663 | the loop fills the pool exactly to the target, or stops at an error; everything there before stays |
| WarmPoolService.Service.CleanupIdleSandboxes | server/internal/sandbox/service.go:1759-1785 | deletes exactly the idle owned sandboxes that the backend lets go, and leaves the pool alone |
| Cursor.TokenOpens | server/internal/sandbox/cursor.go:62-132 | the exact answer to a token under any session, limit, TTL and time; it never reads as a legacy cursor |
| Cursor.CursorRoundTrip | server/internal/sandbox/cursor.go:25-103 | a token opens if and only if it is within its life; the "too old" check never fires before expiry |
| Cursor.BlankKeyRestarts | server/internal/sandbox/cursor.go:33-35 | a blank key, and only that, gives a blank cursor, which means the first page |
| Cursor.OpensOnlySigned | server/internal/sandbox/cursor.go:62-132 | a cursor that is neither blank nor old opens at a position if and only if it is two parts around one dot, a body and its signature under the secret, and the body says that position for this session, limit and time |
| Cursor.LegacyOpens | server/internal/sandbox/cursor.go:73-80 | an old cursor opens at what is before and after its first bar if and only if neither is blank |
| Text.SplitTwoExactly | server/internal/sandbox/cursor.go:106-109 | splitting gives two parts if and only if they are what is around the one dot |
| Paging.PagingMissesNothing | server/internal/store/sqlite/store.go:1012-1017 | with changes between the pages: sorted, no row twice, every row that stays is read |
| Paging.PagingIsExact | server/internal/store/sqlite/store.go:1012-1022 | on a fixed table the pages are the sorted table, for every page size |
| Paging.PageShrinksRest | server/internal/store/sqlite/store.go:1012-1017 | every page that is not empty leaves strictly fewer rows below the cursor |
| ExecHistory.PageIsKeyset | server/internal/store/sqlite/store.go:991-1050 | the query with its clamp and its WHERE clause is keyset paging, for a key that is not blank |
| ExecHistory.SelectedExactly | server/internal/store/sqlite/store.go:1012-1022 | the rows after a whole cursor are selected, and every row without one |
| ExecHistory.HistoryIsOwned | server/internal/store/sqlite/store.go:1005-1010 | the history of a session is exactly the tasks of the sandboxes that it owns, newest first |
| ExecHistory.PageSize | server/internal/store/sqlite/store.go:998-1003 | a page has 20 rows without a limit, 200 at most, the limit otherwise, or all that are left |
| ExecHistory.HistoryMissesNothing | server/internal/store/sqlite/store.go:1012-1022 | the same for the history of a session, newest first, with tasks coming and going |
| ExecHistory.ListRows | server/internal/store/sqlite/store.go:991-1085 | the page is computed by selection, sorting and the limit |
| ExecHistory.ListExecHistory | server/internal/sandbox/service.go:781-839 | one answer: bad requests, the items, the next cursor, or the error in building it; every item is a task of the session, newest first |
| ExecHistory.FetchFrom | server/internal/sandbox/service.go:816-838 | a client that follows the tokens and meets no error reads exactly the tasks of the session after the cursor, newest first; it meets none if it is prompt and there is a secret |
| ExecHistory.FetchAll | server/internal/http/router.go:1611-1621 | from no cursor: every task whose sandbox the session owns and no other, newest first, each once, for every limit |
| Text.TrimExact | server/internal/http/router.go:2091-2092 | trimming takes the white space off both ends, all of it and nothing else |
| Text.SpaceExactly | server/internal/http/router.go:2091-2092 | white space is the 25 characters with that Unicode property |
| ShellQuote.QuotedReadsBack | server/internal/http/router.go:2097-2099 | a quoted value reads as one wholly quoted word, equal to the value |
| ShellQuote.BareReadsBack | server/internal/http/router.go:2097-2099 | what the quotes are for: without them a value reads back as one word if and only if it has no blank, quote, expansion or operator character and starts no comment |
| ShellQuote.ExtendsExactly | server/internal/http/router.go:2092 | the longer operators of the reader are the ten of the standard |
| ShellQuote.OperatorSplits | server/internal/http/router.go:2092 | the reader takes an unquoted operator character between two words for an operator, as the `&&` after the directory needs |
| ShellQuote.BuildReadCommandLine | server/internal/http/router.go:2084-2095 | by the POSIX token rules the line is exactly the command and its arguments, each one quoted word, after `cd` to the trimmed directory and `&&`, if that is not blank |
| ContextEdit.MatchesExact | server/internal/http/router.go:2239-2254 | the match list is precisely all occurrences, overlapping ones included, in increasing order |
| ContextEdit.FindAllIndexes | server/internal/http/router.go:2239-2254 | the offset loop computes the match list |
| ContextEdit.Workspace.ApplyContextEdit | server/internal/http/router.go:2179-2225 | the new file, or the error with all files unchanged; only a write error may spoil the file, and no other |
| ContextEdit.EditSucceeds | server/internal/http/router.go:2206-2217 | an edit succeeds if and only if there is one match and no higher number, or the number of a later match; each error exactly where it belongs; contexts count unless both are blank |
| ContextEdit.EditIsExact | server/internal/http/router.go:2194-2220 | only the old text inside the chosen occurrence is replaced |
| ContextEdit.InverseEdit | server/internal/http/router.go:2194-2220 | the inverse edit at the corresponding occurrence restores the file exactly when it is not ambiguous |
| MemoryGrowth.StepStaysInBounds | server/internal/sandbox/service.go:653-682 | a step grows strictly and stays within ceiling, step cap and floor, whatever wraps |
| MemoryGrowth.StepIsClamp | server/internal/sandbox/service.go:653-682 | for every limit, double and policy: the grown limit, cut to the step cap, raised to the floor, cut to the ceiling, or a no-op |
| MemoryGrowth.NoOpExactly | server/internal/sandbox/service.go:653-682 | when a step is a no-op |
| MemoryGrowth.Container.ExpandMemory | server/internal/sandbox/docker/backend.go:366-399 | the clamp, the no-op and the error cases |
| MemoryGrowth.Container.AutoExpandMemory | server/internal/sandbox/service.go:621-649 | one automatic expansion of the container's limit |
| MemoryGrowth.CeilingIsReached | server/internal/sandbox/service.go:653-682 | repeated growth lands exactly on the lower ceiling within log2(step) + ceiling / step expansions, both rounded up, and stays |
| MemoryGrowth.ReachesExactly | server/internal/sandbox/service.go:653-682 | growth ever reaches its ceiling if and only if it is there, or there is no step cap, or no double of the launch falls between the last limit from which the cap does not wrap and the ceiling |
| MemoryGrowth.WrappedStepIsStuck | server/internal/sandbox/service.go:663-666 | from a limit where the step cap wraps around, at or above the floor, growth never moves |
| Workflow.RunWorkflow | server/internal/http/router.go:703-888 | fail-fast: indices, all but the last done, early stop if and only if the last is not; each result is that of its step with the implied sandbox |
| Workflow.RunStep | server/internal/http/router.go:721-881 | one step: its result, and the sandbox that later steps mean |
| Workflow.CreateDoneExactly | server/internal/http/router.go:725-742 | a creation is done if and only if the service created the sandbox, and names it |
| Workflow.ExecDoneExactly | server/internal/http/router.go:744-810 | an exec step is done, or timed out, exactly when it has a sandbox, is authorised, has a command that is not blank, has run, has subscribed if asked and has been waited for if asked, without error; with the sandbox and the result it reports |
| Workflow.SnapshotDoneExactly | server/internal/http/router.go:812-832 | a snapshot step is done if and only if it has a sandbox, is authorised and the snapshot was taken |
| Workflow.RollbackDoneExactly | server/internal/http/router.go:834-854 | a rollback step is done if and only if it has a sandbox and a snapshot, is authorised and was rolled back |
| Workflow.DeleteDoneExactly | server/internal/http/router.go:856-877 | a deletion is done if and only if it has a sandbox, is authorised and was deleted |
| Workflow.OthersFail | server/internal/http/router.go:879-880 | an action by any other name fails, and a failed step reports no sandbox, snapshot or result |
| Workflow.CreateNames | server/internal/http/router.go:897-911 | the three names of the create action, in any letter case and with white space around them, and no other |
| Workflow.ExecNames | server/internal/http/router.go:897-911 | the three names of the exec action, in any letter case and with white space around them, and no other |
| Workflow.SnapshotNames | server/internal/http/router.go:897-911 | the three names of the snapshot action, in any letter case and with white space around them, and no other |
| Workflow.RollbackNames | server/internal/http/router.go:897-911 | the three names of the rollback action, in any letter case and with white space around them, and no other |
| Workflow.DeleteNames | server/internal/http/router.go:897-911 | the three names of the delete action, in any letter case and with white space around them, and no other |
| Workflow.ImplicitMoves | server/internal/http/router.go:744-872 | the variable that the loop carries is the last sandbox created and not deleted since, told from the results alone |
| Workflow.DoneExecReportsInitial | server/internal/http/router.go:779-808 | in the results of a workflow, an exec step that is done is reported terminal if and only if it was before the wait |
| Workflow.WaitIsForgotten | server/internal/http/router.go:779-808 | a concrete step whose wait sees the command succeed and whose result says that it is running |
| Workflow.DoneNamesItsSandbox | server/internal/http/router.go:752-761 | no step succeeds or times out without a sandbox, its own or the implied one |
| Timestamps.StampsCompareAsTimes | server/internal/sandbox/service.go:846-849 | for second-precision UTC stamps of the years 0000 to 9999, string order is time order, as section 5.1 of RFC 3339 says |
| Timestamps.CleanupIsByTime | server/internal/store/sqlite/store.go:1087-1091 | history clean-up deletes exactly the rows of tasks completed before the cutoff time |
| Timestamps.ExpiryIsByTime | server/internal/store/sqlite/store.go:596-602 | snapshot expiry lists exactly the snapshots created before the cutoff time |
| Timestamps.IdleIsByTime | server/internal/store/sqlite/store.go:488-494 | idle clean-up lists exactly the owned sandboxes last used before the cutoff time |

## Left out

- Mirror.SyncFrame: speaks of a run that stops at a destination link; what the source changes beyond the link is modelled for one callback only (SnapshotProofs.BeyondLinkWrites).
- MirrorProofs.SyncExact: takes the answers about links as given (LinkTargets.SyncForeseen computes them) and speaks of runs that stay in their tree; one that goes through a destination link leaves that link where the source has a directory, so it is not faithful anyway.
- MirrorProofs.IncrementalEqualsFull: the same, for a creation whose base has a link where the workspace has a directory.
- SnapshotHistory.WorkspaceStep: takes a rollback that stays in the workspace.
- SnapshotHistory.SnapshotStep: takes a creation that stays in its directory.
- SnapshotHistory.StepKeeps: speaks of the operations that stay in their trees.
- SnapshotProofs.SnapshotsNeverChange: speaks of runs whose operations stay in their trees, and does not hold of others, as SnapshotProofs.RollbackReachesOtherSnapshot shows.
- SnapshotProofs.RollbackRestores: likewise; takes the answers about links as given, which SnapshotForecast.RollbackRestoresForeseen does not.
- MirrorOutcome.CopyPassOutcome: takes the answers about links as given; LinkTargets.WalkForeseen computes them.
- MirrorOutcome.LeavesExactly: the same.
- MirrorOutcome.SyncOutcome: the same, see LinkTargets.SyncForeseen.
- MirrorOutcome.SyncIdempotent: the same, see LinkTargets.IdempotentAsSeen.
- SnapshotProofs.RollbackLeaves: the same, see SnapshotForecast.RollbackForeseen.
- SnapshotProofs.CreateLeaves: the same, see SnapshotForecast.CreateLeavesForeseen.
- LinkTargets.SyncForeseen: what stat reports through a link that leads out of the destination tree, by an absolute path or above the root, is a parameter; if the path comes back into the tree, the parameter is the answer at the callback.
- SnapshotService.Service.VisitEntry: answers LeftTree where the source goes on beyond a destination link, and so do the walks and operations that use it.
- SnapshotService.Service.CopyWalk: see VisitEntry.
- SnapshotService.Service.SyncTree: see VisitEntry.
- SnapshotService.Service.CreateWorkspaceSnapshot: see VisitEntry.
- SnapshotService.Service.RollbackWorkspaceSnapshot: see VisitEntry.
- ExecService.Service.Execute: answers the task as it was inserted; the source copies its answer after starting the runner, so it may already be further along, as ExecRuns.StatusMovesForward allows.
- ExecRuns.TerminalAnswerIsFinal: a copy of the task is taken to be made in one step; a copy torn by an assignment within the same section is not modelled.
- ExecService.Service.GetExec: one call by itself; ExecRuns.GetExec is its answer in any state of the protocol, the middle of a closing section included.
- Cursor.TokenOpens: says nothing about a token under another secret, since no hash property beyond being a function is assumed; forgery is out of scope.
- ExecHistory.FetchAll: asks for stamped keys; that no error is met is promised to a client whose clock readings are at most half the cursor's life apart, with a secret and a codec that encodes every payload.
- ExecService.Service.DeliverNotifications: leaves out the order by creation time, the post's status and error columns; delivered means attempted, as in the source.
- ShellQuote.BuildReadCommandLine: the reader has no expansions, here-documents, IO numbers or aliases; a quoted word gives occasion to none of them. NUL cannot occur in an argument.
- MemoryGrowth.CeilingIsReached: the float64 double is a parameter that is exact up to 2^53; beyond that nothing is claimed about reaching the ceiling. A bound on the number of expansions is given where the step cap does not wrap around below the ceiling.
- Workflow.RunWorkflow: the service's answers are parameters; error texts, durations and output clamping are not modelled.
- ContextEdit.Workspace.ApplyContextEdit: target path resolution and UTF-8 are left out; a text is a sequence of characters.
- Snapshots: file modes, owners and hard links inside a tree are not compared; a failed call is taken to have no effect at its path, so partial writes of a failed run are not modelled; inode numbers are never reused.
- Snapshots: each workspace has its own directory, none lies inside another or inside a snapshot, and the walked roots are not links.
- Snapshots: an operation runs without edits or other operations between its calls. The source excludes only tasks of the same sandbox that are running or cancelling when it checks, not those that start later, nor a second operation.
- Snapshots: edits are given times never seen before; the separate lemma says what happens when they are not.
- Exec protocol: store calls other than the insert of a task row are taken to succeed, and the listing of a worker too; the process does not restart; the table is empty at the start.
- Timestamps: creation times that the container runtime supplies carry fractions of a second and are outside these lemmas.
- Exec protocol: the recovery notes that the runner writes without the mutex are single steps; what out-of-memory recovery does is a note of any content.
- Exec protocol: an id reaches callers only once its row exists, so nobody cancels or subscribes to a task that is still being created.
- Webhook transport, signatures and retries, session events, OpenTelemetry and notifications.
- Warm pool: the backend calls are outcomes; ids are fresh; direct deletion without authorisation (an internal call) is not a step.
- Docker, git, build and cgroup calls, configuration, path confinement and output truncation: library semantics or outcomes.
- Container snapshots and rollback, image clean-up, the Python SDK and the MCP wrappers: they add easy members only.
