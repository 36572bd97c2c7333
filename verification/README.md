# itzo: a model of the agent's own logic, and proofs about it

itzo runs the containers ("units") of a pod on one virtual machine. The operating system does the
real work; the logic that is itzo's own sits around it. This project models six pieces of that
logic and proves what they are for.

| files | subject |
|---|---|
| `PodSpecs`, `PodSync`, `PodController`, `PodSystem`, `PodStatus` | the pod controller: how an update is compared with the status, the runtime calls it leads to, and the concurrent system of callers, update loop and starting goroutine |
| `UnitStatus`, `UnitLoop`, `UnitRunner`, `ProbeWorker`, `WatchSystem` | the unit supervisor: restart loop, back-off, status file, probe workers and their lossy channels |
| `ProcessTree`, `TreeKiller` | the recursion that kills a process tree |
| `LogBuffer`, `LogTailer` | the ring buffer of log entries and the tailer that polls it |
| `TailFile` | reading the last lines of a file, backwards in chunks |
| `EnvList` | merging environment lists |
| `Basics` | options, order-preserving sub-sequences |

How it is built. Code that changes state is a class with the source's fields, or a method with the
source's loops; its `ensures` ties the result to a function of the old state. The properties are
then lemmas about that function, over all inputs and all runs. Where goroutines meet
(`PodSystem`, `WatchSystem`, `LogTailer`) the model is a step system: a run is an arbitrary sequence
of events, and a property is an invariant of every reachable state. `PodSystem.StepsDoTheUpdate`
and `WatchSystem.SystemRefinesWatch` connect those systems to the sequential code.

What the environment does is a parameter: `ok` and `fails` say which runtime calls and kills fail,
`listing` is the process table, `attempts` and `events` are what the restart loop and its watch go
through, `Outcome` is what a runtime answers to the starting goroutine.

## What the proofs found

Each point is an exact condition, proved for all inputs or runs, and an instance.

- **A starting goroutine can vanish without reporting back.** It does exactly when waiting for an
  init unit is cancelled by the next update, or the init unit fails under the policy Never: the
  goroutine then returns without `waitGroup.Done()` (`PodSystem.StuckExactlyWhen`; an instance is
  `PodSystem.InitFailureIsFatal`). From then on no container is ever started and the next update that
  reaches the wait stays there (`PodSystem.StuckForever`).
- **A failed update is not retried by sending it again**: its spec has become the status, and an
  update makes no call exactly when it repeats the units applied last, whether or not their calls
  succeeded (`PodSystem.ResendDoesNothing`; `PodSystem.FailedUpdateIsNotRetried`).
- **A unit killed by a probe is not restarted under OnFailure.** Such a run has no command error, so
  it counts as a success for the policy and the back-off (`UnitLoops.PolicyOverWholeRuns`;
  `UnitLoops.ProbeKillIsNotRestarted`).
- **A unit can be written as ready and waiting at once**, exactly when its loop begins on a ready
  status and fails to set the capabilities of the first attempt (`UnitLoops.EveryWriteIsCoherent`;
  `UnitLoops.FirstWriteIsIncoherent`).
- **The restart count of a unit can go down**, when a loop begins on a status file with a higher
  count (`UnitLoops.WhenRestartCountsGrow`; `UnitLoops.CountsStartOver`).
- **`AddToEnvList` says it keeps the last of several entries.** It also reverses the list, so in the
  chain of `EnsureDefaultEnviron` TERM and PATH keep their first entry and HOME its last
  (`EnvLists.DefaultEnvironment`; `EnvLists.TermKeepsFirst`).
- **A tail of `n` lines may be cut in the middle of a line**, when the newline count reaches `n`
  exactly at the edge of a chunk, or when the size limit stops the reading
  (`TailFiles.TailOfWholeFile`; `TailFiles.LongLineIsCut`).
- **The error list of a killed process tree can repeat entries**, because the list handed down is
  extended in place and then appended to itself. On a tree it repeats nothing exactly when after
  every failed kill only ancestors of that process are left to kill
  (`TreeKiller.RepeatsNothingExactlyWhen`; `TreeKiller.OneFailureListedTwice`). As a set it is always
  right (`TreeKiller.FailuresAreReported`).
- **A tree is not always killed once per process**: with unique pids it is exactly when the root is
  not its own descendant (`ProcessTree.ExactlyOnce`; `ProcessTree.OwnParentIsKilledTwice`); coverage
  holds on every table.

## Model

| member | source | states |
|---|---|---|
| PodSpecs.UnitsSlicesEqual | pkg/server/pod_controller.go:195-215 | two unit lists are taken as equal exactly when they agree in length, names and images, position by position |
| PodSpecs.DiffUnits | pkg/server/pod_controller.go:217-245 | the two branches of the code, one for each list being the longer, both compute the same symmetric specification: what each list holds that the other does not hold at that place |
| PodSpecs.DiffLeadsToSpec | pkg/server/pod_controller.go:217-245 | as multisets of (name, image), status minus the deletions plus the additions is the spec, and every deletion is in the status |
| PodSpecs.DiffEmptyExactlyWhenSame | pkg/server/pod_controller.go:202-245 | the difference is empty if and only if the two lists are equal for the controller |
| PodSpecs.DiffTouchesOnlyDisagreements | pkg/server/pod_controller.go:217-245 | additions and deletions hold one unit for each place at which the lists disagree and for no other, in the order of the lists: units that stay are left alone |
| PodSpecs.DetectChangeType | pkg/server/pod_controller.go:247-261 | the method returns the change type that the lemmas below are about |
| PodSpecs.WhatChangeTypesMean | pkg/server/pod_controller.go:247-261 | all four kinds exactly: a restart if and only if the init units differ; a creation if and only if all lists but the new units are empty; otherwise a change of units or none, as the units differ or not |
| PodSync.ScriptReconciles | pkg/server/pod_controller.go:263-299 | with distinct names, the runtime calls of an update, whatever its change type, turn a container table that matches the status into one that matches the spec, name for name and image for image |
| PodSync.UnitsScriptReconciles | pkg/server/pod_controller.go:473-495 | removing all changed units before creating any new one reconciles, even when units have moved or swapped places |
| PodSync.RestartScriptReconciles | pkg/server/pod_controller.go:422-452 | a pod restart empties the table and leaves exactly the new units |
| PodSync.RestartLeavesNothing | pkg/runtime/itzo_linux.go:79-112 | a restart removes every unit and init unit, stops the sandbox and deletes the volumes before the new volumes are mounted and the new units created |
| PodSync.JobHandsOver | pkg/server/pod_controller.go:270-306 | the units handed to the starting goroutine are exactly the units created, in that order, after the init units if the pod was created or restarted; init units that fail are waited for again unless the policy is Never |
| PodSync.PhaseTells | pkg/server/pod_controller.go:263-342 | the phase after an update: running when all calls succeeded, otherwise how far it got |
| PodSync.CompleteRun | pkg/server/pod_controller.go:422-495 | a run in which every call succeeds makes all of its calls in order and records no error |
| PodSync.StopsAtFailure | pkg/server/pod_controller.go:422-495 | after the first call that fails no further one is made; what the calls before it did stays, and a failed creation is remembered |
| PodSync.ExecJoin | pkg/server/pod_controller.go:422-495 | stopping at the first failure composes: the second part of a script runs if and only if the first part completes |
| PodControllers.PodController.RestartPod | pkg/server/pod_controller.go:422-452 | the calls made, their effect and the remembered error are those of the restart script run up to its first failure; the restart count grows only on success |
| PodControllers.PodController.CreatePod | pkg/server/pod_controller.go:454-470 | the same for creating a pod |
| PodControllers.PodController.RestartUnits | pkg/server/pod_controller.go:473-495 | the same for changed units; the units to start are the additions, and none if some call failed |
| PodControllers.PodController.RemovePodSandbox | pkg/runtime/itzo_linux.go:96-112 | init units and units are removed in order up to the first failure, then the volumes |
| PodControllers.PodController.SyncPodUnits | pkg/server/pod_controller.go:263-342 | the pod after all runtime calls up to the first that fails, its phase and restart count, and the job handed to the starting goroutine: one exactly when something changed and no call failed, and it starts exactly the units just created |
| PodControllers.PodController.DoUpdate | pkg/server/pod_controller.go:129-138 | the spec becomes the status whether or not its calls succeeded |
| PodControllers.PodController.ApplyUpdates | pkg/server/pod_controller.go:129-138 | after any sequence of updates with distinct names and a runtime that does not fail, the containers are exactly the units of the latest spec |
| PodSystem.UpdatesAreConflated | pkg/server/pod_controller.go:115-164 | in every interleaving of callers, update loop and starting goroutine: at most 100 updates wait, the applied ones are a subsequence of the accepted ones, and the last accepted one is waiting last, in hand, or the last applied |
| PodSystem.SkipsToNewest | pkg/server/pod_controller.go:115-127 | an idle loop with several updates waiting drops all but the newest and takes that one up |
| PodSystem.AcceptedExactlyWhenNotFull | pkg/server/pod_controller.go:155-164 | an update is accepted if and only if fewer than 100 are waiting |
| PodSystem.PodIsReconciled | pkg/server/pod_controller.go:115-138 | in every interleaving in which no call of the update loop fails, between updates the containers are those of the last applied spec, and of the last accepted one once the channel is empty |
| PodSystem.StartsAreOrdered | pkg/server/pod_controller.go:300-372 | the starts of different updates never interleave; those of one update are a prefix of its init units and then its units; no regular unit is started before every init unit was seen to exit with 0, in order |
| PodSystem.GoroutineGoesThrough | pkg/server/pod_controller.go:307-339 | in every run a goroutine that has reported back has made every start of its job, unless the last start it made has failed since its launch |
| PodSystem.GoodJobCompletes | pkg/server/pod_controller.go:307-339 | from its launch, a job whose starts succeed and whose init units exit with 0 makes all of its starts and reports back |
| PodSystem.WaitEndsExactlyWhen | pkg/server/pod_controller.go:344-372 | the wait for an init unit ends if and only if the unit exits with 0 or the wait is given up |
| PodSystem.CancelledExactlyWhenSuperseded | pkg/server/pod_controller.go:300-306 | in every run the newest job is cancelled exactly while a later update that has made its calls waits to start its units |
| PodSystem.JobsBelongToUpdates | pkg/server/pod_controller.go:263-342 | each batch of starts belongs to one accepted update, later batches to later updates, and consists of exactly the units that update created, given the spec applied before it |
| PodSystem.StuckExactlyWhen | pkg/server/pod_controller.go:324-326 | over every run: the goroutine has ended without reporting back if and only if at some step the wait for an init unit saw its cancellation, or a non-zero exit under the policy Never |
| PodSystem.InitFailureIsFatal | pkg/server/pod_controller.go:344-372 | a whole run, for any init unit, that gets there: it exits with 1 under the policy Never |
| PodSystem.StuckForever | pkg/server/pod_controller.go:300-326 | after that, over any further events, no container is started, and an update that waits for the goroutine waits forever |
| PodSystem.ErrorsAreRemembered | pkg/server/pod_controller.go:316-337 | in every reachable state a name has a recorded error if and only if some creation or start of it failed and no regular unit of that name has started since |
| PodSystem.ResendDoesNothing | pkg/server/pod_controller.go:129-138 | in every run an update makes no call if and only if it repeats the units of the update applied before it, failed or not, and is not empty |
| PodSystem.FailedUpdateIsNotRetried | pkg/server/pod_controller.go:129-138 | a whole run, for any spec with a unit: the first call of its update fails, the update is sent again, no further call is made, and the containers do not match the spec |
| PodSystem.RunKeepsStatus | pkg/server/pod_controller.go:129-138 | in every run the status is the spec applied last, but for its phase, whether its calls succeeded or not |
| PodSystem.StepsRunTheScript | pkg/server/pod_controller.go:422-495 | the update loop's steps make the calls of an update up to the first that fails and leave the same pod as the sequential code, ending the update there if one failed |
| PodSystem.StepsDoTheUpdate | pkg/server/pod_controller.go:129-138 | with no goroutine at work, the update loop's steps leave exactly what the sequential code of doUpdate leaves: pod, errors, phase, status and launched job |
| PodStatuses.GetStatus | pkg/server/pod_controller.go:374-419 | one status per unit in spec order: a recorded error first, then "being created" for a restarting unit the runtime has an error for, then the runtime's answer; init units that exited with 0 are ready |
| PodStatuses.StatusShowsFailures | pkg/server/pod_controller.go:374-419 | in every reachable state a unit or init unit is shown as a start failure when a creation or start of it failed and no regular unit of its name has started since; otherwise the runtime's answer is shown, except for units being restarted and init units that exited with 0 |
| UnitRunners.Unit.UpdateStatusAttr | pkg/unit/unit.go:469-482 | the write keeps everything but the given attributes; a missing file counts as "still creating" |
| UnitRunners.Unit.SetState | pkg/unit/unit.go:498-516 | the write keeps readiness and, unless a count of at least 0 is given, the restart count; a Terminated state is also remembered |
| UnitRunners.Unit.MaybeBackOff | pkg/unit/unit.go:518-530 | the new delay, and that exactly this delay is slept |
| UnitRunners.Unit.WatchRunningCmd | pkg/unit/unit.go:601-654 | the two receive loops end and write exactly as the fold over the received events says |
| UnitLoops.ExitsExactlyWhen | pkg/unit/unit.go:611-641 | over all event lists: the watch returns the result c of the command if and only if the command reported c while it was still being watched |
| UnitRunners.Unit.HandleCmdCleanup | pkg/unit/unit.go:666-718 | the final writes, and that the loop goes on unless the policy gives up after such an end |
| UnitRunners.Unit.RunUnitLoop | pkg/unit/unit.go:532-599 | file, writes and delays of the loop equal those of the step function the lemmas below are about, and it returns what the command of its last run ended with |
| UnitLoops.EveryWriteIsCoherent | pkg/unit/unit.go:469-728 | from a status this code may have left, every written status has exactly one of Waiting, Running and Terminated set and is ready only when started and running, if and only if the unit began not ready or its first attempt does not fail at the capabilities |
| UnitLoops.FirstWriteIsIncoherent | pkg/unit/unit.go:547-552 | otherwise the very first write is waiting and ready at once |
| UnitLoops.TerminationIsRemembered | pkg/unit/unit.go:498-516 | at every write the last termination state is the latest Terminated state written so far |
| UnitLoops.PolicyDecides | pkg/unit/unit.go:586-597 | the loop has returned if and only if its last completed run makes the policy give up; no earlier run did |
| UnitLoops.PolicyOverWholeRuns | pkg/unit/unit.go:532-718 | Never: at most one successful start. OnFailure: every completed run but the last had a command error, and the loop returns exactly when the last had none. Always: it never returns |
| UnitLoops.ResultDecides | pkg/unit/unit.go:586-718 | over whole runs: after each attempt the file tells what became of it, with the exit code and reason the command really had, and under OnFailure the loop goes on if and only if the command itself ended with an error |
| UnitLoops.ProbeKillIsNotRestarted | pkg/unit/unit.go:666-718 | an instance under OnFailure: a unit killed by its liveness probe is not run again |
| UnitLoops.StartFailuresAreRetried | pkg/unit/unit.go:547-576 | over every run and under every policy: while the loop has not ended, each attempt was followed by one delay and the next attempt; what ended it is an attempt that started the command |
| UnitLoops.OnlyStartFailures | pkg/unit/unit.go:547-576 | a unit whose n attempts all failed before the command ran has been delayed n times and is still being retried |
| UnitLoops.BackoffClosedForm | pkg/unit/unit.go:518-597 | every delay is min(2^k, 300) seconds, k being the current streak of failing attempts; all delays are within 1 second and 5 minutes and do not shrink within a streak |
| UnitLoops.WhenRestartCountsGrow | pkg/unit/unit.go:509-580 | the written restart counts never decrease if and only if no attempt has reached the start of the command, or the count found at the outset is at most the number of attempts before the first that did |
| UnitLoops.CountsStartOver | pkg/unit/unit.go:534-576 | an instance: a unit that has been restarted begins again at 0 with the next loop |
| ProbeWorkers.RunProbeWithRetries | pkg/prober/prober.go:106-117 | the outcome is that of the first attempt without an error, or of the last attempt |
| ProbeWorkers.Probe | pkg/prober/prober.go:81-102 | an error if and only if all three attempts errored; otherwise the first that did not decides: success if and only if it gave a success, if need be with a warning |
| ProbeWorkers.ProbeWorker.Do | pkg/prober/worker.go:166-191 | the fields and the returned result after a tick, and when a tick is discarded or falls into the initial delay |
| ProbeWorkers.CounterIsTrailingRun | pkg/prober/worker.go:166-191 | over any ticks, the counter is the length of the maximal trailing run of equal counted outcomes; discarded probes and initial-delay ticks neither extend nor break it |
| ProbeWorkers.ReportsExactlyAtThreshold | pkg/prober/worker.go:166-191 | past the initial delay a failure is reported if and only if the counted outcomes end with the failure threshold of failures, a success likewise with the success threshold; in the delay the initial value of the probe is reported |
| WatchSystem.SystemRefinesWatch | pkg/unit/unit.go:601-654 | every interleaving of workers and watcher ends and writes as the watch of the restart loop does on the events received |
| WatchSystem.ResultsArriveInOrder | pkg/prober/worker.go:193-201 | the results received from each worker are an in-order, duplicate-free part of those reported; at most two wait; nothing else is missing if and only if no report found the channel full |
| WatchSystem.ProbesDecideEndToEnd | pkg/unit/unit.go:601-654 | in every run: killed by a probe if and only if the last result heard from it is a failure backed by its failure threshold; started under a startup probe, and ready under a readiness probe, if and only if the last result heard is a success backed by its success threshold |
| WatchSystem.ExitsEndToEnd | pkg/unit/unit.go:601-654 | in every run the watch is over with a result of the command if and only if the command ended with it while being watched |
| WatchSystem.ReceivesOldest | pkg/unit/unit.go:615-651 | a receive takes the oldest result waiting, and a failure of the startup or liveness probe ends the watch there and then |
| ProcessTree.CopyExcept | pkg/util/kill/kill.go:81-89 | the copy lacks exactly the entry at the given index |
| ProcessTree.SimpleWalk | pkg/util/kill/kill.go:91-98 | every chain of parent links can be shortened to one using no entry twice, which is why dropping an entry per level loses nothing |
| ProcessTree.Coverage | pkg/util/kill/kill.go:91-107 | on any table, cycles and repeated pids included, the pids attempted are exactly the root and all that is reachable from it |
| ProcessTree.ExactlyOnce | pkg/util/kill/kill.go:91-107 | with unique pids no pid is attempted twice if and only if the root is not its own descendant |
| ProcessTree.OwnParentIsKilledTwice | pkg/util/kill/kill.go:91-107 | an instance of the other case: a process that is its own parent |
| ProcessTree.AttemptsChildrenFirst | pkg/util/kill/kill.go:91-107 | on such a tree every pid is attempted after all of its descendants |
| TreeKiller.ProcessTreeKiller.KillProcessTree | pkg/util/kill/kill.go:73-79 | nil if and only if the listing and every kill succeeded; the error otherwise names exactly the pids some kill failed on; with no listing nothing is killed |
| TreeKiller.ProcessTreeKiller.Kill | pkg/util/kill/kill.go:91-107 | the kills made, in order, and the error list as it is extended in place through the recursion |
| TreeKiller.FailuresAreReported | pkg/util/kill/kill.go:91-107 | a pid is in the error list if and only if some attempt on it failed or it was there before |
| TreeKiller.NilExactlyWhenAllKilled | pkg/util/kill/kill.go:91-107 | no error comes back if and only if every attempt succeeded |
| TreeKiller.RepeatsNothingExactlyWhen | pkg/util/kill/kill.go:91-107 | on a tree with unique pids, the error list repeats nothing if and only if after every failed kill only ancestors of that process are still killed |
| TreeKiller.OneFailureListedTwice | pkg/util/kill/kill.go:98-101 | a table on which one failed kill is listed twice |
| LogBuffers.LogBuffer.constructor | pkg/logbuf/logbuf.go:70-76 | an empty history and a buffer of the given capacity |
| LogBuffers.LogBuffer.Write | pkg/logbuf/logbuf.go:82-95 | appends to the history, while overwriting the oldest slot in place |
| LogBuffers.LogBuffer.Length | pkg/logbuf/logbuf.go:97-99 | the number of entries still retained |
| LogBuffers.LogBuffer.Read | pkg/logbuf/logbuf.go:101-122 | the last n entries of the history, or all retained ones for n = 0 or too large an n, in write order; none for a negative n |
| LogBuffers.LogBuffer.ReadSince | pkg/logbuf/logbuf.go:127-153 | all retained entries of the history from a position on, in write order, and the next position |
| LogBuffers.SlotsDiffer | pkg/logbuf/logbuf.go:92-93 | fewer than a capacity of consecutive entries never share a slot |
| LogTailer.RunLogTailer | pkg/server/server.go:286-333 | over any interleaving of writes, polls and closing, the loop sends and stops as the step function the lemmas below are about |
| LogTailer.TailerConserves | pkg/server/server.go:286-333 | every position the cursor passed was delivered, overwritten or read for a failed send, exactly one of these; what was delivered is an in-order, duplicate-free part of what was written |
| LogTailer.PollsTellTheState | pkg/server/server.go:286-333 | counted from the events alone: how far the tailer gets, how it ends, and that exactly the entries written between polls beyond the capacity are lost |
| LogTailer.LosslessExactlyWhenPolledInTime | pkg/server/server.go:286-333 | nothing is lost if and only if at most a capacity of entries is written between any two polls, counted from the events alone |
| LogTailer.PolledInTimeDeliversAll | pkg/server/server.go:286-333 | with at most a capacity of writes between polls and no failed send, every entry from the start to the cursor has been delivered, and only those written since the last poll are outstanding |
| LogTailer.NotRunningExitIsDrained | pkg/server/server.go:304-318 | leaving because the unit is not running happens only with everything written until then fetched, and delivered if polled in time |
| TailFiles.JoinDropsLines | pkg/util/file.go:83-88 | splitting, dropping parts and joining cuts exactly behind that many newlines |
| TailFiles.ReadsJustEnough | pkg/util/file.go:66-68 | reading stops at the first number of chunks that hold enough newlines, or the whole file, or as much as the limit allows, and at no smaller number |
| TailFiles.TailLines | pkg/util/file.go:60-99 | the result is the longest suffix with at most the given number of newlines of the chunks read |
| TailFiles.TailIsBounded | pkg/util/file.go:60-99 | the window is whole chunks or the entire file, the tail ends the file, and with a positive limit it is shorter than the limit plus one chunk |
| TailFiles.TailOfWholeFile | pkg/util/file.go:60-99 | the result is the true tail of the whole file if and only if the window is the file, or holds more newlines than asked for, or just as many and begins at a line start |
| TailFiles.TailMissedExactlyWhen | pkg/util/file.go:60-99 | for the chunks really read, with a limit of at least the file size: the true tail is missed if and only if exactly as many newlines as asked for were read and a chunk edge lies in mid-line |
| TailFiles.LongLineIsCut | pkg/util/file.go:60-99 | an instance: of a line one byte longer than a chunk, the first byte is missing |
| TailFiles.TailBytes | pkg/util/file.go:101-114 | the last bytes of the file, all of it if it is short; an error exactly when the read fails |
| TailFiles.TailFile | pkg/util/file.go:14-35 | which tail is returned under the clamped limit; an error exactly when the file cannot be examined, or the read fails and no line count is given |
| EnvLists.SplitEntry | pkg/util/envlist.go:34-35 | splitting a composed entry gives its name and value back when the name has no equals sign |
| EnvLists.RejoinEntry | pkg/unit/unit_manager.go:198-199 | composing what splitting gave restores the entry |
| EnvLists.AddToEnvList | pkg/util/envlist.go:29-54 | the downward loop computes the function the lemmas below are about |
| EnvLists.AddOnce | pkg/util/envlist.go:29-54 | one call reverses the entries under other names and leaves exactly one under the key: the new one if overwriting or missing, else the last old one |
| EnvLists.MergeEnv | pkg/unit/unit_manager.go:194-202 | the loop over the spec's variables is the fold the lemmas below are about |
| EnvLists.MergeKeepsOthers | pkg/unit/unit_manager.go:194-202 | all image entries under other names survive with their multiplicity, in original order after an even number of variables and reversed after an odd one |
| EnvLists.MergeSetsEachNameOnce | pkg/unit/unit_manager.go:194-202 | each name set has exactly one entry, the last one given for it |
| EnvLists.SpecVariableWins | pkg/runtime/itzo_linux.go:266-272 | a spec variable whose name has no equals sign appears once, with the last value the spec gives it |
| EnvLists.HostnameIsShortName | pkg/helper/helper.go:23-29 | the host name is the pod name, or what is behind its first underscore, up to 63 characters |
| EnvLists.DefaultEnvironment | pkg/helper/helper.go:10-21 | HOSTNAME is set; TERM, HOME and PATH appear once, with the first, last and first old entry or the default; all other entries stay as they were, order included |
| EnvLists.TermKeepsFirst | pkg/helper/helper.go:16-17 | an instance: of two TERM entries the chain keeps the first, where a single call keeps the last |

## Left out

- PodControllers.PodController.RemovePodSandbox: deleting all volumes is one call, as is mounting them; updates of units alone do not touch them.
- PodControllers.PodController.SyncPodUnits: cancelling, waiting and the goroutine itself are in `PodSystem`, not in this method; `PodSystem.StepsDoTheUpdate` connects the two.
- A runtime call that fails is taken to leave the container table unchanged.
- Liveness of the controller: only safety is proved, and `PodSystem.StuckForever` shows that progress fails.
- MergeSecretsIntoSpec: specs are taken with their secrets already merged.
- Unit configuration other than name and image: carried along in one field, never inspected, as in the source.
- PodControllers.PodController.RestartUnits: currentlyRestartingUnits is not updated here; it is an arbitrary set in `PodStatuses`.
- "Running if and only if the process is alive" in the unit manager is not modelled.
- PodSystem: each event is atomic; races on Go maps and slices are outside the model.
- UnitRunners.Unit.RunUnitLoop: the environment is a finite list of attempts; the loop stops when it is used up, and the lemmas hold for every prefix.
- Status file: read and write failures and the JSON form are left out; a missing file is modelled.
- Integer widths: the int64 log offset, the int32 restart count and exit code are unbounded here.
- Times: StartedAt and FinishedAt are left out; running times enter as seconds.
- UnitRunners.Unit.HandleCmdCleanup: the killing of the process tree is in `TreeKiller` and is not linked to the cleanup.
- ProbeWorkers: what a probe does (HTTP, TCP, exec) is an arbitrary outcome; panics swallowed by recover and the random first sleep are left out; a nil probe never runs.
- WatchSystem: a worker that ticks on after its watch is over is modelled for the startup worker only.
- LogBuffers.LogBuffer.ReadSince: a negative position before the buffer is full indexes out of range and is excluded; so is writing to a buffer of capacity 0.
- LogTailer: formatting of entries, the text of messages and a log buffer replaced by a restarted unit.
- TailFiles.TailLines: a file that shrinks between the size query and the read, and short reads or read errors while reading lines, which the code ignores.
- TailFiles.TailFile: a negative byte limit without a line count, which panics, is excluded.
- EnvLists.MergeEnv: an entry without an equals sign, which panics, is excluded; makeAppEnv never makes one.
- Handlers, streaming, exec, attach, port forwarding, TLS, images, mounts, cgroups, network, and the podman and anka runtimes.
- Small helpers (sets, maps, naming, capabilities, user lookup): their properties can be read off their bodies.
