# DBR² crash-recovery protocols in Dafny

DBR² backs up and restores container applications. Its agent does this with a handful of
small protocols, each of them a journal on disk plus an outside world that may fail or
lose power between any two calls: the staged swap of a restore, the lease that lets a
quiesced application come back on its own, and the command journal that makes command
execution idempotent. The gateway on the other side hands commands out and their results
back. This project models those protocols and the components around them
and proves what they promise, over every run and every crash point.

| file | models | main results |
|---|---|---|
| `RestoreModel.dfy`, `RestoreAgent.dfy` | staged restore, finalization, write-ahead of created objects | `RollbackUndoesAnyRun`, `FinalizeRestore` |
| `NestedSwap.dfy`, `NestedReplay.dfy` | swap records whose targets lie inside one another, rollbacks cut short | `RollbackLeaves`, `RollbackInverts`, `CrashSafeIff` |
| `Leases.dfy` | quiesce leases and the dead-man switch | `AnyRun`, `FollowRun`, `RoundTrip` |
| `CommandJournal.dfy` | the append-only command journal and its compaction | `ReplayAppend`, `ReplayTorn`, `InStepIff`, `Write` |
| `CommandProtocol.dfy` | duplicate deliveries, acks, session drops, restarts | `AtMostOneExecution`, `ResultSticks`, `SecondExecution`, `SticksIff` |
| `GatewaySessions.dfy` | agent sessions and command dispatch on the gateway | `NoLostWakeup`, `AnswersAreOwn`, `RetryTakesOver` |
| `EndToEnd.dfy` | agents and gateway together, over a network that loses, repeats and reorders | `DispatchReturnsResult` |
| `Metadata.dfy` | hardlinks, xattrs and directory times: apply, then verify | `ApplyThenVerify` |
| `Bundle.dfy` | the recovery bundle's writer and reader | `RoundTrip`, `VerifyContents` |
| `RepoCache.dfy` | reference-counted repository sessions | `ClosedOnceAndUnused`, `NothingLeaks` |
| `JobLimiter.dfy` | the resizable job semaphore | `NoLostWakeup`, `NeverAbove` |
| `RateLimiter.dfy` | the fixed-window login limiter | `TwiceTheLimit`, `Allow` |
| `Snapshot.dfy` | snapshot sequencing, status, manifest validation | `SnapshotManifest`, `Validate` |
| `ChunkSender.dfy` | message cutting | `SendAll` |
| `Paths.dfy`, `UnprotectedPaths.dfy` | path cleaning, the report on unprotected paths | `CleanTwice`, `FindUnprotected` |

`dafny verify dfyconfig.toml` checks the whole project.

## How the model is built

Code that updates fields is a class whose methods state the new state. A call on the
outside world (a rename, a delete, a journal save, a container engine call) picks its
outcome freely among `Ok`, `Err` and `Crash`; a crash may come before or after the effect,
and a delete may leave half a tree. After a crash every caller returns at once, so the
exits of a method are exactly its crash points, and a postcondition without a condition on
the outcome holds at every one of them. Whole runs are methods over a script of commands
or events (`AnyRun`, `RollbackUndoesAnyRun`, `FollowRun`). Concurrent code (the command
protocol, the gateway, the session cache, the limiter) is a state machine with one step for
each locked section or channel operation; a class refines it, each method one step.

Eight promises turned out to hold only under a condition. The code is modelled as it is, the
failure is shown by a lemma, and the condition is proved exact:

- A rollback after a commit attempt that was cut short need not bring the previous content
  back, because commit deletes it before it saves (`CommitThenUndoLosesContent`). Over any
  run, with any number of commit attempts, a rollback restores a target exactly when no
  attempt touched its kept content or, if there was none, got its commit into the file,
  unless the restored content is the same. A target that was given up gets what the last
  such attempt left of it (`RollbackUndoesAnyRun`).
- A rollback can leave a directory that is no parent of any target, if a target lies in
  content that an earlier swap put aside (`DirectoryComesBack`). Which directories it leaves
  is computed exactly (`RollbackLeaves`).
- Repeating a rollback over nested targets can delete restored content
  (`RepeatedRollbackLosesContent`). After a crash between two undos or inside one, the
  repetition is safe exactly when each target without previous content that exists in the
  tree is cleared by an older record anyway (`CrashSafeIff`).
- A line appended to a journal with a torn last line is lost although the write succeeded;
  it is read back exactly when the file ended in a line end (`ReplayAppend`).
- A write that fails leaves its record in memory only, and a later successful write does not
  bring it to the file (`FailedWriteLeavesGap`). After a successful write the file reads back
  as memory exactly when the write compacts the log, or file and memory agreed on all other
  commands (`InStepIff`, `Write`).
- A delivery that checked the journal before the result was written starts the command a
  second time: a run from an empty journal shows it (`SecondExecution`). A result sticks
  exactly when no delivery of the same command is between its check and its claim
  (`SticksIff`).
- Relinking deletes a recorded file that has the temporary name of another
  (`TempNameLosesFile`); verification finds nothing exactly when no path is cleared for good
  and no two records of one file disagree (`ApplyThenVerify`).
- A snapshot for which a partial recovery point is due can still be refused as a manifest
  (`LostMetadata`); it is accepted exactly when the specs can be expressed and no metadata
  failed on its own (`SnapshotManifest`).

## Assumptions

- A journal, lease or manifest save is atomic: temporary file, then rename.
- In `RestoreAgent` the targets of different records do not overlap; `NestedSwap` treats the
  overlapping case. Nobody else touches the targets, their siblings, or the names of the
  volumes, networks and containers a restore creates; a failed create created nothing, while
  a crash may come after the create.
- A path that exists can be looked at: the source takes every error of its existence check
  for absence (internal/agent/restorejournal.go:163-166), and a wrong answer when a swap is
  journaled would make the undo discard original content.
- In `Leases` containers change from outside only between two calls of the agent, not between
  its look at a container and the call that follows.
- A container that the engine reports as stopped holds no file open.
- Clocks do not go back.
- Encryption, compression and the tar format are lossless. `Bundle.RoundTrip` and
  `Bundle.WriteAndOpen` take the manifest's JSON as decodable to what was encoded.
- In `CommandJournal` the JSON text of a record contains no line end and no proper prefix
  of it is a record.

## Model

| member | source | states |
|---|---|---|
| RestoreModel.UndoGivesBack | internal/agent/restorejournal.go:171-202 | undoing a live record whose promise holds gives the content that is due and removes both siblings |
| RestoreModel.UndoIdempotent | internal/agent/restorejournal.go:168-202 | undoing twice is undoing once, so a rollback whose save was lost can be repeated |
| RestoreModel.CommitThenUndoLosesContent | internal/agent/finalize.go:58-77 | an undo after the delete of a commit, complete or half-done, leaves restored or partial content |
| RestoreModel.UndoAfterCommit | internal/agent/finalize.go:62-69 | after any outcome of the commit's delete, an undo gives the previous content back if and only if it is still there and whole |
| RestoreModel.SafeGivenUp | internal/agent/finalize.go:62-69 | the delete of a swap that kept content leaves the journal good for giving back what is left; a swap that kept none is not touched |
| RestoreModel.CommitBooks | internal/agent/finalize.go:58-77 | deletes and save of a commit together: a target is given up if and only if its kept content was touched or, having none, its commit reached the file; what is left is a part or the restored content |
| RestoreModel.SafeSettled | internal/agent/finalize.go:70-77 | once commits are in the file, the journal is good for what they left in place |
| RestoreModel.SafeElsewhere | internal/agent/restorejournal.go:34-38 | changes of one target's paths keep the promises of every other target's record |
| RestoreModel.SafeUpdate | internal/agent/restore.go:259-278 | a live record may take any new state whose promise holds; all other targets keep their newest record |
| RestoreModel.SafeAppend | internal/agent/restore.go:236-254 | a new record may be journaled once no record of its target is live |
| RestoreModel.AllDone | internal/agent/finalize.go:129-143 | when no record is live any more, every target has what is due, and no sibling of any target is left but staging that was there before |
| RestoreModel.ListForget | internal/agent/finalize.go:144-156 | a created-container entry that denotes no container may be added or dropped without changing what the journal lists |
| RestoreModel.ListCreated | internal/agent/recreate.go:235-239 | a journal that names a container before its create lists it after the create |
| RestoreModel.ListId | internal/agent/recreate.go:247 | the last entry may get the engine's ID without changing what the journal lists |
| RestoreModel.ContainerMade | internal/agent/recreate.go:235-248 | creating a journaled container keeps the journal complete and the objects of others unchanged |
| RestoreModel.ContainerRemoved | internal/agent/finalize.go:144-156 | removing a container the restore made keeps the journal exact and the objects of others unchanged |
| RestoreAgent.Host.DiscardTarget | internal/agent/restorejournal.go:204-217 | a discard touches only the target and its aside name, and on success the target is gone |
| RestoreAgent.Host.PutBack | internal/agent/restorejournal.go:182-192 | the kept content is never lost: it is still kept or is the target again |
| RestoreAgent.Host.UndoMoves | internal/agent/restorejournal.go:171-202 | wherever the moves stop, the record's promise survives; when they finish, the paths are those of the specification `UndoFs` |
| RestoreAgent.Host.UndoSwap | internal/agent/restorejournal.go:168-202 | at every exit journal file and memory are good enough to roll back; success leaves the record not live |
| RestoreAgent.Host.UndoFrom | internal/agent/restore.go:185-197 | undoing this command's swaps newest first, going on after errors, keeps older records and saves; success leaves none of them live |
| RestoreAgent.Host.EnsureVolume | internal/agent/restore.go:358-386 | at every exit the file lists each volume the restore created; nothing of others changes |
| RestoreAgent.Host.Begin | internal/agent/restore.go:234-254 | the record is on disk before anything is written; a target already swapped by this restore is refused |
| RestoreAgent.Host.MoveIn | internal/agent/restore.go:268-276 | at every point of the two renames the old content is recoverable from the journaled record |
| RestoreAgent.Host.Swap | internal/agent/restore.go:256-278 | success: the target has the staged content, the old content is kept, the record says swapped; an expired lease refuses before anything moves |
| RestoreAgent.Host.UndoInterrupted | internal/agent/restore.go:130-142 | half-done swaps of an earlier attempt are undone before a new one begins |
| RestoreAgent.Host.RestoreComponents | internal/agent/restore.go:107-183 | success restores every path; a finalized restore is refused untouched; at every exit the file can be rolled back from |
| RestoreAgent.Host.EnsureNetworks | internal/agent/recreate.go:260-290 | each missing network is journaled before it is created; success leaves every wanted one in place |
| RestoreAgent.Host.RecreateOne | internal/agent/recreate.go:224-250 | at every exit the file lists the container by name or ID if the restore created it |
| RestoreAgent.Host.RecreateContainers | internal/agent/recreate.go:164-258 | success: all named containers exist; at every exit the write-ahead list is complete and exact |
| RestoreAgent.Host.CleanUp | internal/agent/restorejournal.go:219-248 | start-up cleanup deletes only staging content, never a target or kept content; only expired finalized journals go |
| RestoreAgent.Host.CommitRestore | internal/agent/finalize.go:49-82 | a half-done swap refuses the commit untouched; success leaves no kept content; at every exit it is known exactly which targets were given up and what is due for each |
| RestoreAgent.Host.StopAll | internal/agent/finalize.go:99-128 | success means every container of the stop list is stopped or gone |
| RestoreAgent.Host.RemoveCreated | internal/agent/finalize.go:144-177 | removes what the restore made and nothing else; what failed stays on the journaled list |
| RestoreAgent.Host.RollbackRestore | internal/agent/finalize.go:84-201 | no path is touched unless every container of the stop list is halted, and the swaps are undone under that engine; success undoes the whole restore and starts what ran before; until then the journal stays active |
| RestoreAgent.Host.FinalizeRestore | internal/agent/finalize.go:19-47 | one-way: active goes only to the wanted state, a finalized restore keeps its answer and content; commit keeps nothing and gives up exactly what it touched; rollback touches nothing before the stop list is halted and undoes everything |
| RestoreAgent.DueIsLeft | internal/agent/finalize.go:49-82 | over any history, what a rollback owes a target is what the last commit attempt that gave it up left of it, or its first content; the targets given up are exactly those such an attempt touched |
| RestoreAgent.LeftIff | internal/agent/finalize.go:49-82 | unless the restored content is the same, a target has its first content left if and only if no commit attempt gave it up |
| RestoreAgent.Host.Execute | internal/agent/restorejournal.go:34-38 | one command, complete or cut short: the file can be rolled back from; a commit attempt is accounted for target by target, any other command changes nothing that is owed; objects of others stay until a commit is in the file |
| RestoreAgent.Host.AnyRun | internal/agent/restorejournal.go:34-38 | any script of commands, failures and crashes is a history of such steps, and the journal file can be rolled back from at its end |
| RestoreAgent.RollbackUndoesAnyRun | internal/agent/finalize.go:84-201 | after any run, commits among it, a rollback that reports success leaves no kept and no new staged content, and gives each target what the last commit attempt that gave it up left, or its content from before the restore: it restores exactly those not given up; as long as no file said committed, every volume, network and container is as before |
| NestedSwap.SwapAt | internal/agent/restore.go:256-278 | what a swap leaves at each path of a tree: new content, moved old content, nothing at the staging name, all else the same |
| NestedSwap.UndoInvertsSwap | internal/agent/restorejournal.go:168-202 | undo after swap is the tree before, plus the parent directories the swap made |
| NestedSwap.UndoLeaves | internal/agent/restorejournal.go:168-202 | undo on a tree with left-over directories gives the tree before the swap plus exactly those directories, moved along with the content they lie in |
| NestedSwap.RollbackLeaves | internal/agent/finalize.go:129-143 | for any sequence of swaps, nested in any way, the exact tree after a newest-first rollback: the original one plus the directories that are left |
| NestedSwap.RollbackLoop | internal/agent/finalize.go:129-143 | the newest-first loop computes the recursive rollback |
| NestedSwap.RollbackInverts | internal/agent/finalize.go:129-143 | the rollback gives the original tree up to directories; all of them are parents of targets if and only if those left are, and always if no target lies in content put aside |
| NestedSwap.LeftIsParent | internal/agent/finalize.go:129-143 | if no target lies in content put aside, a directory that is left is a parent of a target |
| NestedSwap.DirectoryComesBack | internal/agent/restorejournal.go:182-192 | a target inside content put aside: its parent comes back with that content, where no target is below it |
| NestedSwap.RollbackAgain | internal/agent/finalize.go:129-143 | a repeated rollback on a rolled-back tree deletes exactly the targets of records without previous content |
| NestedSwap.RepeatedTree | internal/agent/restorejournal.go:168-202 | a rollback that undid some records, crashed and was repeated differs from the uninterrupted one at most below uncleared targets without previous content |
| NestedSwap.ReplaySafeIff | internal/agent/restorejournal.go:168-202 | a rollback cut short after any number of undos may be repeated if and only if each target without previous content that exists in the tree is cleared by an older record's undo |
| NestedReplay.OrdinaryRuns | internal/agent/restore.go:225-254 | a restore whose reserved names nobody else uses and that restores no target twice finds all its siblings free |
| NestedReplay.OrdinaryRollback | internal/agent/finalize.go:129-143 | its rollback leaves the tree as it was, but for parents of targets |
| NestedReplay.UndoSteps | internal/agent/restorejournal.go:168-217 | an undo that stops between two calls or inside a delete has finished, or left the target in place or gone and touched nothing but the two siblings it clears |
| NestedReplay.RollbackSteps | internal/agent/finalize.go:129-143 | the newest-first loop with a stop anywhere: some records undone, and at most one undo cut short |
| NestedReplay.CrashInsideUndo | internal/agent/restorejournal.go:168-217 | repeating after a crash inside an undo gives what repeating from right before that undo gives |
| NestedReplay.CrashSafeIff | internal/agent/restorejournal.go:168-217 | wherever the rollback of such a restore stopped, it may be repeated in full if and only if each target without previous content that exists in the tree before that undo is cleared by an older record's undo |
| NestedSwap.RepeatedRollbackLosesContent | internal/agent/restorejournal.go:193-197 | an inner target that was new in the restored outer tree but is in the original one is lost by a repeated rollback |
| Leases.Release | internal/agent/quiesce.go:189-213 | ending a lease whose containers are up leaves every container still down covered by another active lease |
| Leases.AddLease | internal/agent/quiesce.go:269-312 | a new lease of an application without one keeps one active lease per application |
| Leases.ResumeMore | internal/agent/quiesce.go:217-250 | two resuming steps are one: pre-states stay, ended leases have all their containers up, containers only ever come up |
| Leases.Manager.Save | internal/agent/quiesce.go:101-112 | the lease file holds the old or the new table, and covers every container that is down in both cases |
| Leases.Manager.Disarm | internal/agent/quiesce.go:141-146 | disarming one lease leaves every other active lease armed |
| Leases.Manager.Arm | internal/agent/quiesce.go:148-159 | the lease has a pending expiry timer afterwards, the others keep theirs |
| Leases.Manager.Warn | internal/agent/quiesce.go:161-175 | a warning changes no container and keeps the lease covered and armed |
| Leases.Manager.Expire | internal/agent/quiesce.go:177-185 | an expiry that succeeds ends the lease; one that fails leaves it armed again |
| Leases.Manager.AutoResume | internal/agent/quiesce.go:187-213 | every path ends with the lease resumed, or armed for a retry, or the agent going down |
| Leases.Manager.Restore | internal/agent/quiesce.go:215-250 | only containers that ran before change, and only to running; success leaves all of them up |
| Leases.Manager.Withdraw | internal/agent/quiesce.go:314-332 | a quiesce that failed half-way brings everything back, or leaves the lease active and armed |
| Leases.Manager.JournalLease | internal/agent/quiesce.go:299-304 | the lease is in the file before a container is touched; a failed save leaves no trace of it |
| Leases.Manager.Quiesce | internal/agent/quiesce.go:252-338 | success: exactly the containers that ran are held, all are down, and the file says so; repeats and refusals change nothing |
| Leases.Manager.ResumeLease | internal/agent/quiesce.go:340-371 | success has every held container up and forgets the lease; failure leaves it active and armed |
| Leases.Manager.Start | internal/agent/quiesce.go:114-139 | at start-up expired leases are resumed and every other active one is armed |
| Leases.Manager.Restart | internal/agent/quiesce.go:76-98 | a restart reads the file: what is down is still covered |
| Leases.Manager.AnyRun | internal/agent/quiesce.go:252-371 | over any run of commands, timers, crashes and outside changes: coverage in the file, one active lease per application, and every active lease armed while the agent is up |
| Leases.TracksOn | internal/agent/quiesce.go:187-250 | a resuming step keeps track of a lease among others: pre-states stay, an ended lease has all its containers up, none of them goes down |
| Leases.Manager.FollowRun | internal/agent/quiesce.go:187-371 | from any state, over any resumes, expiries, crashes, restarts, quiesces and changes of other containers: the held containers that are down never become more, and containers that no lease holds, no running quiesce takes and nobody outside changes stay as they are |
| Leases.Manager.RoundTrip | internal/agent/quiesce.go:187-371 | a quiesce in any state followed by such a run: once its lease is over in memory or in the file, everything that ran is up again; a requested container that was not running, that no lease held and that did not change from outside, is unchanged, and so is every container nobody asked for |
| CommandJournal.ReplayAppend | internal/agent/journal.go:43-71 | an appended line is read back if and only if the file ended in a line end; otherwise line and torn tail leave no trace |
| CommandJournal.ReplayTorn | internal/agent/journal.go:102-120 | whatever part of a line reached the file, reading gives the map before or after the write, nothing else |
| CommandJournal.ReplayIsRecovered | internal/agent/journal.go:43-71 | reading a file gives its terminated lines plus a complete last record that lacks only its line end |
| CommandJournal.AppendEffect | internal/agent/journal.go:102-120 | what any partial append to any file does to the records that survive |
| CommandJournal.RefinesAppend | internal/agent/journal.go:102-120 | log and map stay in step under an append, with one line more |
| CommandJournal.InStepIff | internal/agent/journal.go:102-120 | after a complete write to any file, reading gives exactly memory if and only if the durable records and memory agreed on all other commands, and on this one if the file had a torn tail |
| CommandJournal.FailedWriteLeavesGap | internal/agent/journal.go:102-120 | a write that failed before a byte reached the file is in memory; after a later successful write the file ends in a line end and still lacks it |
| CommandJournal.Journal.Rewrite | internal/agent/journal.go:73-92 | the compacted file replays to exactly the records, one line each |
| CommandJournal.Journal.Compact | internal/agent/journal.go:73-100 | the file is the old one or one that replays to exactly the map |
| CommandJournal.Journal.Write | internal/agent/journal.go:102-120 | success leaves at most max(1000, 4 per record) lines and reads back as memory if and only if it compacted or file and memory agreed elsewhere; without a compaction exactly its record is added, or nothing after a torn tail; a failed write reads back as before or after |
| CommandJournal.Journal.Open | internal/agent/journal.go:43-71 | opening keeps all records but those acknowledged over 24 hours ago and leaves file and map in step |
| CommandJournal.Journal.Accept | internal/agent/journal.go:133-138 | an accepted command is journaled without a result |
| CommandJournal.Journal.Finish | internal/agent/journal.go:140-153 | a terminal result is journaled under its command |
| CommandJournal.Journal.Ack | internal/agent/journal.go:155-166 | an ack of a terminal record keeps its result; any other ack changes nothing |
| CommandJournal.Journal.Unacked | internal/agent/journal.go:183-198 | exactly the terminal results that are not acknowledged |
| CommandProtocol.StepInv | internal/agent/agent.go:396-438 | every step keeps the records keyed by command and the running set equal to the commands with a job |
| CommandProtocol.AtMostOneExecution | internal/agent/agent.go:401-420 | in every run at most one execution per command is in flight |
| CommandProtocol.ResultSticks | internal/agent/agent.go:396-438 | once settled, over any deliveries, acks, drops and restarts within the retention, the command never starts again and every terminal update sent for it is that result |
| CommandProtocol.CompletionSettles | internal/agent/agent.go:429-435 | a completed execution whose result reached the file is settled |
| CommandProtocol.RaceReachable | internal/agent/agent.go:397-435 | from an empty journal, a run reaches a settled result with a second delivery between its check and its claim |
| CommandProtocol.StaleCheckRestarts | internal/agent/agent.go:397-408 | from every such state the delivery leads to a second execution |
| CommandProtocol.SecondExecution | internal/agent/agent.go:397-435 | so from an empty journal on, a command settled at one step starts again at a later one |
| CommandProtocol.SticksIff | internal/agent/agent.go:397-408 | a settled result sticks in every run if and only if no delivery of the command is between its check and its claim |
| CommandProtocol.Agent.CheckJournal | internal/agent/agent.go:397-400 | the journal check as one step: a stored result is sent, otherwise the delivery goes on |
| CommandProtocol.Agent.ClaimCommand | internal/agent/agent.go:401-415 | claim and accept as one step; it starts a job exactly when none is running |
| CommandProtocol.Agent.FinishJob | internal/agent/agent.go:429-435 | the result is journaled before it is sent |
| CommandProtocol.Agent.EndJob | internal/agent/agent.go:415-437 | the result goes out and the command is no longer running |
| CommandProtocol.Agent.AbandonJob | internal/agent/agent.go:430-432 | a shutdown ends a job without a result in the journal |
| CommandProtocol.Agent.ReceiveAck | internal/agent/agent.go:330-333 | an ack is one journal step |
| CommandProtocol.Agent.ResendResults | internal/agent/agent.go:307-310 | a new session sends exactly the unacknowledged results, as a run of resend steps |
| CommandProtocol.Agent.Reopen | internal/agent/journal.go:43-71 | a restart keeps what the file holds and nothing that was running |
| GatewaySessions.StepInv | internal/gateway/gateway.go:241-406 | every step keeps sessions, waiters and inboxes consistent |
| GatewaySessions.NoLostWakeup | internal/gateway/gateway.go:241-349 | in every run a call parked with a session available can go on and finds it; a call stuck after sending is on the current session or on one about to be closed |
| GatewaySessions.SupersededKeepsNewer | internal/gateway/gateway.go:255-268 | an unregister removes the session if and only if it is the current one, and never another |
| GatewaySessions.AnswersAreOwn | internal/gateway/gateway.go:295-349 | in every run a Dispatch returns only a terminal update that its own agent sent for its own command |
| GatewaySessions.StepCarries | internal/gateway/gateway.go:295-406 | the gateway makes no update up: only route brings one in |
| GatewaySessions.RetryTakesOver | internal/gateway/gateway.go:310-320 | over every run after a dispatch, until a newer one or its own end, the command's waiter is that call until it got its answer, whatever stale calls do |
| GatewaySessions.RoutedToWaiter | internal/gateway/gateway.go:387-406 | an update of the waiter's agent is routed to it and, if accepted, is next in its inbox |
| GatewaySessions.Gateway.Add | internal/gateway/gateway.go:241-253 | register refines its step: the new session is current, waiters wake, the old one is to be closed |
| GatewaySessions.Gateway.Remove | internal/gateway/gateway.go:255-268 | unregister refines its step |
| GatewaySessions.Gateway.LookUp | internal/gateway/gateway.go:271-286 | the locked section of waitSession refines its step |
| GatewaySessions.Gateway.FindWaiter | internal/gateway/gateway.go:387-393 | route's locked lookup refines its step: only the command's waiter of the same agent is chosen |
| GatewaySessions.Gateway.Deliver | internal/gateway/gateway.go:394-406 | the later channel send refines its step: it is taken or dropped, and the call may be gone by then |
| GatewaySessions.Gateway.Send | internal/gateway/gateway.go:295-349 | Dispatch among other threads: it leaves no waiter behind and returns only an own terminal update |
| EndToEnd.StepInv | internal/gateway/gateway.go:361-406 | every joint step keeps: whatever terminal update the gateway carries is one its agent sent, or the failure in place of a success it could not store |
| EndToEnd.UnfinishedStep | internal/agent/agent.go:396-438 | until the first completion of a command, no step records or sends a result for it |
| EndToEnd.FirstResult | internal/agent/agent.go:429-435 | the first result, once in the file, is settled and all that was ever sent |
| EndToEnd.FixedStep | internal/agent/agent.go:396-438 | a settled result that nobody races with stays all that is sent |
| EndToEnd.AnswersAreReports | internal/gateway/gateway.go:295-406 | in every joint run a Dispatch returns only what its agent sent for its command, or the failure put in its place |
| EndToEnd.DispatchReturnsResult | internal/gateway/gateway.go:295-406 | in every joint run, once the first result of a command is in its agent's file, every Dispatch of it that returns within the retention, first or retried, returns that result or the failure put in place of its success, and none returned before |
| Metadata.LinkedNodes | internal/fsmeta/apply.go:60-142 | after n records every recorded path names exactly the file due to it, although relinking moves paths and clears temporary names |
| Metadata.LinkedXattrs | internal/fsmeta/apply.go:97-103 | the xattrs of every applied record are on its file, whatever later records of the file add |
| Metadata.TimedAt | internal/fsmeta/apply.go:108-116 | a file all of whose recorded times agree has that time in the end |
| Metadata.InDeepestFirst | internal/fsmeta/apply.go:104-110 | sorting deepest first drops and adds no directory time |
| Metadata.SomethingLost | internal/fsmeta/apply.go:121-142 | if some relink clears a recorded path for good, a recorded path is missing after Apply |
| Metadata.ApplyThenVerify | internal/fsmeta/apply.go:60-217 | for distinct existing paths, an error-free Apply is one Verify accepts if and only if no relink clears a recorded path for good and no two records of one file disagree |
| Metadata.TempNameLosesFile | internal/fsmeta/apply.go:131-141 | distinct paths and agreeing xattrs are not enough: a file with a temporary name is deleted without an error |
| Metadata.Disk.Relink | internal/fsmeta/apply.go:121-142 | a relink without an error leaves exactly the specified names and touches the directory |
| Metadata.Disk.SetXattrs | internal/fsmeta/apply.go:97-103 | without an error exactly the recorded xattrs were added |
| Metadata.Disk.Apply | internal/fsmeta/apply.go:53-118 | no error counted means every path was local and the tree is the specified one |
| Metadata.Disk.Verify | internal/fsmeta/apply.go:167-217 | no mismatch counted if and only if every record finds its link, xattrs and time |
| Metadata.Restore | internal/fsmeta/apply.go:60-217 | Apply and then Verify on a disk whose calls may fail: the exact condition for no mismatch |
| Bundle.CleanKeeps | internal/platform/bundle.go:225-230 | the name test by parts is the source's: not empty, no leading slash, unchanged by path.Clean, no ".." |
| Bundle.VerifyContents | internal/platform/bundle.go:313-353 | accepts if and only if the manifest lists exactly the archive's names with their digests and everything it refers to is present, though only counts and one inclusion are compared |
| Bundle.SameDigests | internal/platform/bundle.go:318-334 | equal numbers plus inclusion decide equality of the two name sets and of all digests |
| Bundle.CheckReferences | internal/platform/bundle.go:335-352 | tables, present repositories and the secret key have their entries |
| Bundle.ReadItems | internal/platform/bundle.go:267-296 | reads an archive if and only if its entries are regular, validly named, small enough and all different |
| Bundle.Open | internal/platform/bundle.go:248-311 | returns what the archive holds if it is in order, and an error for every other archive |
| Bundle.OpensOneWay | internal/platform/bundle.go:251-311 | an archive can be read in one way only |
| Bundle.Writer.Add | internal/platform/bundle.go:172-193 | each refusal has its one reason and changes neither archive nor manifest; an accepted entry is in both with its digest; a failed write may leave the stream usable |
| Bundle.Writer.Close | internal/platform/bundle.go:195-223 | the sealed archive is the accepted entries followed by the manifest; a second close fails |
| Bundle.RoundTrip | internal/platform/bundle.go:173-353 | a closed bundle opens to exactly its entries and manifest if and only if the caller's manifest was consistent and no entry is too large; it opens to nothing else |
| Bundle.WriteAndOpen | internal/platform/bundle.go:154-353 | adding any entries, closing and opening gives back exactly the accepted ones |
| RepoCache.StepInv | internal/agent/repository.go:111-188 | every step keeps references equal to handles, one entry per repository, and each session closed exactly as often as is due |
| RepoCache.ReadySuffices | internal/agent/repository.go:111-188 | no step of a caller that releases each handle once finds an entry missing |
| RepoCache.ClosedOnceAndUnused | internal/agent/repository.go:91-93 | in every run a session is closed at most once and never while a handle on it is out |
| RepoCache.LastReleaseCloses | internal/agent/repository.go:111-120 | a release makes a close due if and only if it returns the last handle of an entry that was dropped |
| RepoCache.NothingLeaks | internal/agent/repository.go:111-188 | when nothing is in use, every session not closed is the one the cache would hand out |
| RepoCache.Cache.Lookup | internal/agent/repository.go:161-169 | the first locked section of openRepo is its step |
| RepoCache.Cache.Enter | internal/agent/repository.go:178-187 | the second locked section: become the entry, or take the winner and have the own session closed |
| RepoCache.Cache.ReleaseHandle | internal/agent/repository.go:111-120 | release is its step, and reports exactly the due close |
| RepoCache.Cache.InvalidateId | internal/agent/repository.go:132-145 | invalidate is its step, and reports exactly the due close |
| RepoCache.Cache.CloseAll | internal/agent/repository.go:147-157 | without others at work, nothing stays cached |
| JobLimiter.StepInv | internal/agent/limiter.go:23-73 | every step keeps: a thread on the current channel means no free slot |
| JobLimiter.NoLostWakeup | internal/agent/limiter.go:49-73 | in every run a waiter that cannot go on means no free slot, and with a free slot any waiter can go on and gets it |
| JobLimiter.GrantsBelowLimit | internal/agent/limiter.go:38-66 | a step grants at most one slot and only below the limit; only a resize can leave more taken than the limit |
| JobLimiter.NeverAbove | internal/agent/limiter.go:14-20 | slots taken never exceed the largest limit there was |
| JobLimiter.Limiter.Take | internal/agent/limiter.go:49-66 | acquire among other threads: it ends with a slot or with its context's end, and leaves no waiter behind |
| JobLimiter.Limiter.TryTake | internal/agent/limiter.go:38-47 | tryAcquire is its step and tells whether it got the slot |
| JobLimiter.Limiter.GiveBack | internal/agent/limiter.go:68-73 | release is its step and wakes the waiters |
| JobLimiter.Limiter.SetSize | internal/agent/limiter.go:23-31 | a resize is its step, at least one slot, and wakes the waiters |
| RateLimiter.AlwaysAccounts | internal/auth/lockout.go:51-72 | the counter of a key counts exactly the admitted attempts of its window, and the window before it admitted at most one limit |
| RateLimiter.TwiceTheLimit | internal/auth/lockout.go:51-72 | any interval of one window's length admits at most 2 × max(1, limit) attempts of a key, for every window but an empty one |
| RateLimiter.TwiceIsReached | internal/auth/lockout.go:51-72 | for every limit some run admits exactly twice the limit |
| RateLimiter.ZeroWindow | internal/auth/lockout.go:51-72 | an empty window admits everything |
| RateLimiter.ForgetsNext | internal/auth/lockout.go:55-61 | forgetting expired windows changes neither this decision nor the relation to the limiter that never forgets |
| RateLimiter.WaitIsExact | internal/auth/lockout.go:67-69 | a rejected key is admitted again from the told wait on, and not before |
| RateLimiter.Limiter.Allow | internal/auth/lockout.go:49-72 | every decision and wait is that of a limiter that never evicts |
| Snapshot.TakeSnapshot | internal/agent/snapshot.go:78-127 | results come in the order of the plan, as many as announced, each skipped exactly when a required one failed before, its parent did not succeed, or it is an image |
| Snapshot.Attempt | internal/agent/snapshot.go:193-244 | one capture: unnamed and unsupported components fail, images are skipped, success is identified |
| Snapshot.StatusFor | internal/manifest/manifest.go:378-392 | a recovery point is allowed if and only if every required component succeeded, and is complete if and only if all did |
| Snapshot.CheckHeader | internal/manifest/manifest.go:294-317 | no error is counted if and only if version, ID, mode, identifiers and times are in order |
| Snapshot.Validate | internal/manifest/manifest.go:288-363 | accepts if and only if the header is in order, names are unique, every component is well-formed, metadata has its parent, and the status matches |
| Snapshot.ValidStatus | internal/manifest/manifest.go:291-392 | every accepted manifest has the status StatusFor computes |
| Snapshot.SnapshotManifest | internal/manifest/manifest.go:291-392 | a snapshot's manifest with the due status and a header in order is accepted if and only if the specs can be expressed and no metadata failed while its parent succeeded |
| Snapshot.LostMetadata | internal/manifest/manifest.go:342-351 | an optional volume whose metadata failed: partial is due, the manifest is refused |
| ChunkSender.Sender.Write | internal/protection/platform_backup_rpc.go:121-134 | messages sent plus buffer are the input; only full messages go out; after an error they are a prefix |
| ChunkSender.SendAll | internal/protection/platform_backup_rpc.go:116-143 | for every split into writes the messages concatenate to the input, all but the last exactly 1 MiB |
| Paths.CleanTwice | internal/inventory/analyze.go:448 | cleaning a path is once and for all and keeps it absolute or relative |
| Paths.CleanIff | internal/platform/bundle.go:226 | cleaning leaves a relative path alone if and only if no part is empty or "." and ".." is only at the front |
| UnprotectedPaths.DropParents | internal/inventory/analyze.go:455-462 | every path has a kept leaf at or below it |
| UnprotectedPaths.GroupHolds | internal/inventory/analyze.go:494-510 | a file is reported under a directory it is in if and only if its path is absolute |
| UnprotectedPaths.Group | internal/inventory/analyze.go:463-476 | every leaf is counted in exactly one group: the group counts add up to the leaves |
| UnprotectedPaths.FindUnprotected | internal/inventory/analyze.go:430-492 | every changed path that is not ignored is covered by a leaf in a reported group, which every absolute leaf lies in; a leaf that matters makes its group's severity high |

## Left out

- REST operations, the web console, the CLI, the PostgreSQL store and Temporal workflows: no local invariant to prove.
- Cryptography, TLS, age, zstd, tar, Kopia and the container engine's own behaviour: taken as lossless or as calls that may fail.
- `remapper`, `fileModeBits`, `repoOf`, `normalizeRepo`, `ClassifyVolume`, `LockDuration`, version comparison: small pure functions that would only add easy members.
- Contents of restored components: a target's tree is an abstract whole or partial content in `RestoreAgent`; ownership, modes and the config component's single files are not distinguished from directories.
- A volume's directory appears and disappears with the engine's volume; the file model does not follow that, so a restored volume's target is treated like any other path.
- The 80 % warning time of a lease, real durations and timeouts: timers fire at any moment.
- The gateway's database writes, inventory ingestion and progress events around `route`: what is kept of them is that a success may be replaced by a failure.
- Cache entries are rows of a table in `RepoCache`, not separate heap objects; aliasing between handles is the row's number.
- The order in which `UnprotectedPaths` reports its groups, and that its leaf list is minimal: only the next sorted path is looked at, so it is not.
- CommandProtocol.Agent.FinishJob: the journal write is modelled with any outcome, because the source only logs its error; a result that never reached the file is not settled and may be executed again after a restart.
- CommandProtocol.ResultSticks: holds within the retention of 24 hours after the ack, after which the source forgets the command.
- CommandJournal.ReplayAppend: the JSON text of a record is symbolic, so a torn tail glued to a line is unreadable by construction.
- Leases.Manager.AnyRun: "armed" includes an expiry callback that fired and waits for the lock.
- NestedSwap.ReplaySafeIff: takes the siblings of the undone records as free and their targets as outside content put aside; `CrashSafeIff` derives both from the names in use.
- NestedReplay.CrashSafeIff: one crash followed by a complete repetition, for a restore that restores no target twice.
- EndToEnd.DispatchReturnsResult: a result whose journal write failed is sent all the same and may be followed by another one; the retention is that of `ResultSticks`.
