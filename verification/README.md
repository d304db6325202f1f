# DeskCue: verified models of its protocols

DeskCue keeps a daemon alive under a small host, updates itself in place, watches coding-agent transcripts and
rewrites their Markdown. This project models the parts of it in which state, order and failure interact, and proves
what they are for: over every run, every input and every point at which a step fails or the process dies.

`dafny verify dfyconfig.toml` checks the whole project.

## How the code is modelled

JavaScript runs to completion: an event handler, or what follows an `await`, is one atomic step, and between two steps
anything else may happen. Each stateful component is a class whose fields are those of the source, with methods that
change them in place. A method is proved against a function on the value of those fields (`View`), and the theorems
about runs are lemmas about that function. Time is a parameter. A step of the outside world (a rename, a command, a
health poll, a write) may succeed or fail, and a crash may follow any write: a component that must survive crashes
records every state of the disk in a trace, and its theorem is about the whole trace.

SHA-256 and `JSON.stringify`/`JSON.parse` are parameters: any function to a digest, any codec that reads back what it
prints. Strings are sequences of code points.

| files | component |
|---|---|
| `Payload`, `LinuxApply` | verifying an unpacked release, and swapping it in with rollback |
| `Versions`, `UpdateManager` | version precedence, and the persisted update state machine |
| `Supervisor`, `SupervisorRuns`, `SupervisorRestarts`, `SupervisorEffects`, `DaemonSupervisor` | one child process, its waiters and timers; its runs; when it is restarted; what its events do; its class |
| `HostRuntime` | the queue of host operations, and the update transaction across all of the above |
| `MarkdownScan`, `MarkdownTargets`, `MarkdownPlain`, `MarkdownCode`, `MarkdownSpans`, `MarkdownRewrite`, `MarkdownLines`, `MarkdownLosses` | rewriting Windows link targets |
| `TurnState`, `Projector`, `TurnDelivery` | turns of a transcript, the events about them, and runs of polls |
| `ReadScheduler`, `RuntimeScheduler`, `ConcurrentMap` | bounded queues and workers |
| `SnapshotIndex`, `SnapshotGenerations` | the byte-bounded snapshot cache and its generations |
| `Utf8`, `Framing`, `GitStatus`, `Replay` | streaming UTF-8, framed control messages, porcelain status, event replay |
| `Wrappers`, `Text`, `Sequences`, `Order` | shared types, strings, sequences, stable sorting |

## Where the code does less than its surroundings suggest

Each is stated with the exact condition under which the property holds, and where the condition alone does not show one,
a lemma names an input.

- Comparing the file maps does not decide whether a payload is accepted: a file name with a backslash, or an empty
  manifest, is refused (`Payload.BackslashNameRefused`, `Payload.Verify`).
- When the version boots that an older one had found or staged, and its reconciliation cannot write, the service goes on
  (apps/host/src/updateService.ts:164-183, 322-332). A cancelled check, a download and an apply then each persist a
  target that is not newer (`UpdateManager.TargetBooted`). Each keeps the promise of the disk exactly while the target
  is newer (`UpdateManager.CancelledCheckKeepsPromise`, `UpdateManager.DownloadKeepsPromise`,
  `UpdateManager.ApplyKeepsPromise`), which a reconciliation that succeeds sees to (`UpdateManager.AfterReconciliation`).
- Numeric prerelease identifiers from 2^53 on can each be reported as the newer one
  (`Versions.LargeNumbersCollide`, `Versions.AntisymmetricUnlessCollide`).
- A start that waits for a stop spawns after a later stop (`SupervisorRuns.WaitingStartOutlivesStop`,
  `SupervisorRuns.StopIsFinalExactly`), and a crash right before the update's stop request leaves an automatic restart
  pending that can bring up a child while the installer is launched (`HostRuntime.CrashBeforeStop`,
  `HostRuntime.AppearsExactly`).
- The mask prefix and a digit, written out right before a code span, lose the span
  (`MarkdownLosses.WrittenTokenLosesSpan`, `MarkdownRewrite.ReadsBackExactly`), and a title inside the angle brackets of
  a destination goes with whatever it holds (`MarkdownLosses.AngleTitleLost`, `MarkdownLines.KeepsLinesExactly`).
- When a window still shows more than 64 turns of the recorded one, the oldest are told again
  (`TurnDelivery.ToldOnceExactly`); after a restart so is a turn whose entry id is empty
  (`TurnDelivery.RestartSkipsNothing`).
- An LM Studio operation can be invoked after `close` when its microtask was pending
  (`RuntimeScheduler.InvokedAfterClose`, `RuntimeScheduler.InvokedAfterCloseExactly`).
- Text behind a complete request is dropped or refused depending on the chunk it comes in
  (`Framing.TrailingInChunk`, `Framing.TrailingLater`).
- A byte limit under 29 lets an empty index file exceed it (`SnapshotIndex.FileFitsExactly`); the estimate of 32 per
  envelope is never too small.

## Model

| member | source | states |
|---|---|---|
| Payload.Verify | packages/update/src/linuxApplyWorker.ts:242-286 | a payload is accepted exactly when its manifest matches the target and every regular file is declared once with its size and digest, nothing else being present |
| Payload.ListingIsExact | packages/update/src/linuxApplyWorker.ts:154-167 | the recursive listing fails exactly on a special file and otherwise is the tree's regular files, each once |
| Payload.ListingSound | packages/update/src/linuxApplyWorker.ts:154-167 | every listed path is a regular file of the tree |
| Payload.ListingComplete | packages/update/src/linuxApplyWorker.ts:154-167 | every regular file of the tree is listed |
| Payload.ListingNoRepeats | packages/update/src/linuxApplyWorker.ts:154-167 | no path is listed twice |
| Payload.ListingDecides | packages/update/src/linuxApplyWorker.ts:257-285 | once every entry has passed its own checks, the comparison of the sorted path lists decides |
| Payload.MapsAgree | packages/update/src/linuxApplyWorker.ts:257-285 | equal file maps of the tree and the manifest give agreeing lists |
| Payload.ListsAgree | packages/update/src/linuxApplyWorker.ts:257-285 | agreeing lists, every entry having passed its own checks, give equal file maps |
| Payload.BackslashNameRefused | packages/update/src/linuxApplyWorker.ts:118-124 | a described file whose name holds a backslash is refused although the two maps are equal |
| LinuxApply.WaitForHealthy | packages/update/src/linuxApplyWorker.ts:311-345 | healthy means three consecutive healthy polls before the deadline |
| LinuxApply.UpdateWorker.ReplaceUnit | packages/update/src/linuxApplyWorker.ts:347-362 | the unit becomes the one of the payload in the install root, or stays as it was |
| LinuxApply.UpdateWorker.RestoreBackup | packages/update/src/linuxApplyWorker.ts:372-395 | without a failing step the old payload, its unit and a service that runs it are back, and it fails only after a failing step or when the old payload brings no unit; at every point the old payload sits intact in one of two places, and the new one is moved out only when the service has stopped or could not be |
| LinuxApply.UpdateWorker.Revive | packages/update/src/linuxApplyWorker.ts:384-394 | from the old payload in its place on: its unit, its service and a healthy answer, or a failing step or no unit; at every point with the old payload intact |
| LinuxApply.UpdateWorker.Extract | packages/update/src/linuxApplyWorker.ts:364-370 | what is unpacked is used only when it is an accepted payload |
| LinuxApply.UpdateWorker.Prepare | packages/update/src/linuxApplyWorker.ts:427-431 | nothing of the installation is touched before the artifact is verified, extracted and the host has gone |
| LinuxApply.UpdateWorker.Activate | packages/update/src/linuxApplyWorker.ts:442-476 | the new payload is accepted or the old one is restored, with the old payload intact at every point before acceptance; whichever payload the service ends with has confirmed its health; a rollback fails only for a reason |
| LinuxApply.UpdateWorker.Replace | packages/update/src/linuxApplyWorker.ts:427-481 | the swap with its rollback: every crash point is safe, and the ends are those of `Apply`, the old service running again |
| LinuxApply.UpdateWorker.CleanUp | packages/update/src/linuxApplyWorker.ts:482-485 | the working directory and the temporary unit go, unless removing them fails; nothing else does |
| LinuxApply.UpdateWorker.Apply | packages/update/src/linuxApplyWorker.ts:397-486 | for every pattern of failing steps: at every crash point before acceptance the old payload sits intact at exactly one of install and backup root; an update ends with the accepted payload, its unit and a service that runs it; a failed one without a failed rollback with the untouched old payload and unit; that service running again unless a restart failed; the accepted payload has confirmed its health, after the host was gone; nothing temporary is left unless removing it failed; an update is refused, fails, or fails to roll back only for a reason |
| Versions.ComparePrerelease | packages/update/src/manifest.ts:88-113 | the loop over the identifiers computes the order of the two lists |
| Versions.OrderIsSection11 | packages/update/src/manifest.ts:62-126 | the comparison of parsed versions is the precedence of section 11 of Semantic Versioning 2.0.0, and zero exactly for equal core triples and identifier lists (numeric identifiers below 2^53) |
| Versions.ListOrderIsSection11 | packages/update/src/manifest.ts:88-113 | the same for prerelease lists |
| Versions.PrecedesTransitive | packages/update/src/manifest.ts:88-126 | precedence is transitive |
| Versions.CompareIsTotalPreorder | packages/update/src/manifest.ts:115-126 | on version strings the comparison is antisymmetric, transitive and total, with ties exactly between strings that parse alike |
| Versions.BuildIgnored | packages/update/src/manifest.ts:62-86 | build metadata changes nothing |
| Versions.AntisymmetricUnlessCollide | packages/update/src/manifest.ts:88-113 | for any identifiers, swapping the arguments negates the answer exactly when no pair of large numbers rounds to the same double |
| Versions.LargeNumbersCollide | packages/update/src/manifest.ts:96-107 | 2^53 and 2^53 + 1: each is reported as newer than the other |
| Versions.CheckTargets | packages/update/src/manifest.ts:196-207 | the artifacts of a manifest are accepted exactly when no two are for the same target |
| Versions.SelectUnique | packages/update/src/manifest.ts:218-235 | in an accepted manifest the selected artifact does not depend on the order |
| UpdateManager.UpdateManager.Write | packages/update/src/stateStore.ts:201-216 | a write replaces the whole state or nothing |
| UpdateManager.UpdateManager.Cleanup | packages/update/src/apply.ts:184-224 | only removable files that are not preserved go, and all of them unless one is locked; a file the state claims stays when it is preserved |
| UpdateManager.UpdateManager.VerifyStaged | packages/update/src/apply.ts:106-131 | a staged file passes only when it is there with the artifact's size and digest, is missing or changed only when it is not, and reading it may fail |
| UpdateManager.UpdateManager.ReuseExisting | packages/update/src/manager.ts:106-121 | an existing file is reused exactly when it matches, and is removed otherwise |
| UpdateManager.UpdateManager.Download | packages/update/src/download.ts:144-245 | the destination appears only with the declared size and digest, and without a fault it does when that is what is sent, within the limit; one that fails or is cancelled leaves nothing else, and not even its partial file unless a step failed or the size is refused at once |
| UpdateManager.UpdateManager.Receiving | packages/update/src/download.ts:190-221 | the chunks go to the partial file, of which never more than the declared size is written |
| UpdateManager.UpdateManager.CheckForUpdate | packages/update/src/manager.ts:286-376 | without a fault a newer acceptable manifest is offered, an equal version resets the state, and any other is refused with the code of its reason; an offered update is the selected artifact within the limits; a cancelled check ends in the state it began with |
| UpdateManager.UpdateManager.Receive | packages/update/src/manager.ts:305-375 | the same from the server's answer on: the answer follows from the manifest unless a write fails, and the state and every crash point keep the promise |
| UpdateManager.UpdateManager.DownloadAvailableUpdate | packages/update/src/manager.ts:378-468 | without a fault an available update that is there or is sent ends staged, and any other end is written down; the first state written says downloading; staged means the file with the artifact's size and digest, for the artifact and target that were available; nothing but stage files is touched |
| UpdateManager.UpdateManager.StageArtifact | packages/update/src/manager.ts:396-449 | from the downloading state, just written, on: staged with a matching file, or not staged, and that only for a reason |
| UpdateManager.UpdateManager.PrepareApply | packages/update/src/manager.ts:477-505 | the installer handed over is the verified file of a staged state, which now says applying, and without a fault every intact staged update is handed over; the disk keeps its promise while the claimed update is still newer |
| UpdateManager.UpdateManager.RecordApplyLaunchFailure | packages/update/src/manager.ts:507-526 | an applying state becomes staged with the error, any other stays; a write that fails changes nothing |
| UpdateManager.UpdateManager.RecoverApply | packages/update/src/manager.ts:168-196 | without a fault an interrupted apply becomes staged exactly when the file is intact, and failed otherwise |
| UpdateManager.UpdateManager.RecoverDownload | packages/update/src/manager.ts:218-269 | without a fault an interrupted download is recovered exactly when its metadata is consistent: staged if its file is complete, available if not; and failed otherwise |
| UpdateManager.UpdateManager.ReconcileInstalledVersion | packages/update/src/manager.ts:132-284 | from any state reconciliation ends in idle, available, staged or failed for the running build; the target having booted gives a fresh state, the old version with the file intact a staged one; what becomes of every state is stated case by case, and only a fault adds a failure; a second run changes nothing |
| UpdateManager.ReconcileTwice | packages/update/src/manager.ts:132-284 | two runs in a row give the same state, and, nothing being locked in the first, the same files |
| UpdateManager.AnyRun | packages/update/src/manager.ts:123-583 | over every run of starts, whose reconciliation may fail, checks, downloads, cancellations, applies, launch failures and crashes, every persisted state keeps its promise: available to applying carry a matching artifact and a strictly newer target, staged and applying also a file with its size and digest, and no cleanup removes a claimed file; a cancelled check, a download and an apply are done while the claimed update is newer than the running build |
| UpdateManager.CancelledCheckKeepsPromise | packages/update/src/manager.ts:363-367 | writing a previous state back under the running version keeps its promise exactly when its update is for this architecture and still newer |
| UpdateManager.DownloadKeepsPromise | packages/update/src/manager.ts:378-394 | beginning the download of an available update keeps the promise exactly then |
| UpdateManager.ApplyKeepsPromise | packages/update/src/manager.ts:477-505 | so does preparing to apply a staged one |
| UpdateManager.TargetBooted | packages/update/src/manager.ts:363-394 | version 1.0.0 found, or staged, version 2.0.0, which then boots, each state one that the state file accepts: a cancelled check, a download and an apply each persist a target that is not newer |
| UpdateManager.AfterReconciliation | packages/update/src/manager.ts:132-284 | once a reconciliation has succeeded, whatever the build does keeps the promise, without any condition |
| Versions.NeverNewerThanItself | packages/update/src/manifest.ts:115-126 | no version is newer than itself, whatever its identifiers |
| Supervisor.StepValid | apps/host/src/daemonSupervisor.ts:136-552 | every call, message, exit, error and timer keeps the invariant and undoes nothing that has happened |
| Supervisor.RunSafe | apps/host/src/daemonSupervisor.ts:136-475 | in every interleaving: at most one live child; a live child rules out a restart timer; a restart timer means the daemon is wanted; every waiter belongs to the live child; running means a live child nobody stops; restarts within the maximum |
| Supervisor.StopEndsWellExactly | apps/host/src/daemonSupervisor.ts:477-522 | a stop request settles at most once, and well exactly when the child acknowledged it, was never killed and exited with code 0 and no signal |
| Supervisor.EveryPromiseKept | apps/host/src/daemonSupervisor.ts:136-305 | every promise handed out waits in exactly one place or is settled |
| SupervisorRuns.SpawnsAreBounded | apps/host/src/daemonSupervisor.ts:446-475 | the children spawned in a run are at most the maximum of restarts, and one and that maximum for every start call, restart call and stable run |
| SupervisorRuns.CrashLoopEnds | apps/host/src/daemonSupervisor.ts:446-475 | with m restarts allowed, k renewals leave room for at most m + k (m + 1) children ever |
| SupervisorRuns.StopIsFinalExactly | apps/host/src/daemonSupervisor.ts:136-146 | after a stop a child can be spawned without a further start exactly when a call parked on the stop promise has hope |
| SupervisorRuns.WaitingStartOutlivesStop | apps/host/src/daemonSupervisor.ts:136-146 | start, stop, start, stop is a run after which the second start waits for the first stop, and spawns a child after the second |
| SupervisorRuns.QuietRun | apps/host/src/daemonSupervisor.ts:210-217 | without such a call no run without a start spawns anything |
| SupervisorRestarts.CrashRestarts | apps/host/src/daemonSupervisor.ts:386-475 | the end of a wanted child that nobody stops makes a restart due, one attempt further, unless the attempts are used up |
| SupervisorRestarts.MarkedRestarts | apps/host/src/daemonSupervisor.ts:416-443 | so does the end of a child marked for a restart |
| SupervisorRestarts.LateStartRestarts | apps/host/src/daemonSupervisor.ts:196-208 | a start that took too long is made up for: over any run until its child ends, that end makes a restart due, if the daemon is still wanted and no call waits |
| SupervisorRestarts.StoppedStaysDown | apps/host/src/daemonSupervisor.ts:416-443 | the end of a child whose stop is awaited, and that is not marked, makes none due |
| SupervisorRestarts.UnwantedStaysDown | apps/host/src/daemonSupervisor.ts:416-443 | nor does the end of a child of a daemon that is not wanted |
| SupervisorRestarts.OutlivedRestarts | apps/host/src/daemonSupervisor.ts:246-258 | a child that outlived the deadlines of its stop counts as crashed when it exits |
| SupervisorRestarts.WantedComesBack | apps/host/src/daemonSupervisor.ts:140-146 | whatever calls wait: a wanted child that is marked, or that nobody stops, is followed by a restart or another child, unless the attempts are used up or spawning throws |
| SupervisorRestarts.ExitStops | apps/host/src/daemonSupervisor.ts:477-522 | an exit shows the supervisor stopped exactly when it ends a stop request well |
| SupervisorEffects.StartEffect | apps/host/src/daemonSupervisor.ts:136-208 | a start is answered at once, waits for the stop or for the other start, is refused, or starts a child; attempts count from zero only when asked and a child is started |
| SupervisorEffects.StopEffect | apps/host/src/daemonSupervisor.ts:210-286 | a stop finds nothing to do, joins the open request, or makes one with its deadline, killing a child that cannot be told; it marks no child |
| SupervisorEffects.StopForUpdateEffect | apps/host/src/daemonSupervisor.ts:215-286 | so does a stop for an update, the wish for a daemon and a pending restart staying |
| SupervisorEffects.RestartEffect | apps/host/src/daemonSupervisor.ts:288-292 | a restart waits for the stop of the child, or starts one with its attempts counted from zero |
| SupervisorEffects.ReadyEffect | apps/host/src/daemonSupervisor.ts:352-366 | a ready child runs, and its stable run begins |
| SupervisorEffects.StableRunEffect | apps/host/src/daemonSupervisor.ts:552-562 | once it has run long enough, restarts count from zero, and nothing else changes |
| SupervisorEffects.LiveErrorEffect | apps/host/src/daemonSupervisor.ts:386-414 | an error of a live child ends its stable run, not the child nor the wish for it |
| SupervisorEffects.ForceTimeoutEffect | apps/host/src/daemonSupervisor.ts:246-258 | nothing is given up before the last deadline; at it the request is, and the child left to end |
| SupervisorEffects.ResumeOneEffect | apps/host/src/daemonSupervisor.ts:140-146 | a call that waited for a stop fails if that failed, a start only while the child lives, and otherwise starts the daemon |
| SupervisorEffects.FirstStartSpawns | apps/host/src/daemonSupervisor.ts:140-146 | when the child is gone the first start that waited gets the new one, whatever restarts waited before it |
| Daemon.DaemonSupervisor.OnStartCall | apps/host/src/daemonSupervisor.ts:136-208 | `start`: the daemon is wanted; a running one answers at once, without a child one is spawned unless spawning throws, and there is never a second; the invariant stays and nothing is undone, here as in all that follow |
| Daemon.DaemonSupervisor.StartAfterStop | apps/host/src/daemonSupervisor.ts:148-207 | `start` from the settled stop promise on: the invariant stays, nothing is undone, and there is never a second child |
| Daemon.DaemonSupervisor.ResumeParked | apps/host/src/daemonSupervisor.ts:140-146 | the calls parked on a stop promise go on, each start before the restarts, which await two further functions; none is left, the invariant stays and nothing is undone |
| Daemon.DaemonSupervisor.OnStopCall | apps/host/src/daemonSupervisor.ts:210-213 | `stop`: no daemon is wanted and no restart is due; the promise is settled well without a child, and otherwise that of an open request to stop the child |
| Daemon.DaemonSupervisor.OnStopForUpdateCall | apps/host/src/daemonSupervisor.ts:215-217 | `stopForUpdate`: the same, the wish for a daemon and a pending restart staying |
| Daemon.DaemonSupervisor.StopTheChild | apps/host/src/daemonSupervisor.ts:219-286 | `stopChild`: nothing to stop, a stop joined, or a request with its deadline; the invariant stays and nothing is undone |
| Daemon.DaemonSupervisor.OnRestartCall | apps/host/src/daemonSupervisor.ts:288-292 | `restart`: with a child it waits for its stop, without one it starts |
| Daemon.DaemonSupervisor.OnUpdateCall | apps/host/src/daemonSupervisor.ts:524-543 | a readiness request waits for the live child exactly when a connected one is running, and is refused otherwise |
| Daemon.DaemonSupervisor.OnReady | apps/host/src/daemonSupervisor.ts:352-366 | the start that waits for the live child ends well and the daemon runs, unless that child is being stopped |
| Daemon.DaemonSupervisor.OnStartupFailed | apps/host/src/daemonSupervisor.ts:367-381 | the start fails; a failure not worth a retry ends the wish for a daemon, so that no restart follows |
| Daemon.DaemonSupervisor.OnStopAcknowledged | apps/host/src/daemonSupervisor.ts:347-350 | exactly the open stop request of the live child counts as acknowledged; nothing is settled |
| Daemon.DaemonSupervisor.OnUpdateAnswered | apps/host/src/daemonSupervisor.ts:332-345 | the answer of the live child settles its readiness request well, and no other |
| Daemon.DaemonSupervisor.OnChildError | apps/host/src/daemonSupervisor.ts:386-414 | an error fails the start and the readiness requests of the live child, which then does not run; one that could not be spawned is gone, its stop request fails, and a restart is due as after an exit |
| Daemon.DaemonSupervisor.OnChildExit | apps/host/src/daemonSupervisor.ts:416-444 | the exit is recorded and the child gone; the start and the readiness requests fail, and the stop request ends as the exit deserves; a restart is due exactly when the child was marked or nobody stopped it, the daemon being wanted |
| Daemon.DaemonSupervisor.JudgeStop | apps/host/src/daemonSupervisor.ts:477-511 | a stop ends well exactly when the child acknowledged it, was never killed and exited with code 0 and no signal |
| Daemon.DaemonSupervisor.OnStartTimer | apps/host/src/daemonSupervisor.ts:196-203 | a start that takes too long fails, and its child is being stopped, to be started again after its exit |
| Daemon.DaemonSupervisor.OnStopTimer | apps/host/src/daemonSupervisor.ts:236-260 | the child of the stop is killed, so that the request can no longer end well, and its last deadline runs |
| Daemon.DaemonSupervisor.OnForceTimer | apps/host/src/daemonSupervisor.ts:246-258 | the request to stop a killed child that does not exit fails |
| Daemon.DaemonSupervisor.OnRestartTimer | apps/host/src/daemonSupervisor.ts:467-473 | the automatic restart spawns a child unless spawning throws, and leaves the count of attempts |
| Daemon.DaemonSupervisor.OnStableRunTimer | apps/host/src/daemonSupervisor.ts:554-562 | the attempts of a live child count from zero, nothing else happens |
| Daemon.DaemonSupervisor.OnUpdateTimer | apps/host/src/daemonSupervisor.ts:534-537 | an unanswered readiness request fails, and no other |
| Daemon.DaemonSupervisor.OnPollTimer | apps/host/src/daemonSupervisor.ts:148-162 | a start that waits for another ends well once the daemon runs, fails once that start is over, and else goes on waiting |
| Daemon.DaemonSupervisor.Deliver | apps/host/src/daemonSupervisor.ts:325-444 | any event of the outside world does the step of the model and keeps the invariant |
| HostRuntime.StopEmpties | apps/host/src/daemonSupervisor.ts:416-444 | the event that settles a stop request well leaves no child |
| HostRuntime.AppearsExactly | apps/host/src/daemonSupervisor.ts:441-473 | with no child and no call, a child can appear exactly when an automatic restart is pending |
| HostRuntime.CrashBeforeStop | apps/host/src/daemonSupervisor.ts:219-226 | a stop of a crashed child ends well at once, and its pending restart brings up a child |
| HostRuntime.StopCallOpens | apps/host/src/daemonSupervisor.ts:219-286 | a stop call finds no child and settles, or opens a request |
| HostRuntime.HostRuntime.Await | apps/host/src/hostRuntime.ts:267-290 | what may happen until a promise of the supervisor settles: the caller goes on in the event that settles it |
| HostRuntime.HostRuntime.StageAvailable | apps/host/src/updateService.ts:205-233 | in the end something is staged, or the operation fails; without a fault an update of the channel at hand that is staged, or can be had, is staged |
| HostRuntime.HostRuntime.PrepareApply | apps/host/src/updateService.ts:235-240 | the handoff of the manager, or nothing; what the service shows is the stored state, or the applying phase when that cannot be read again |
| HostRuntime.HostRuntime.LaunchApply | apps/host/src/updateService.ts:242-252 | the installer is launched, or its failure recorded and what is stored shown |
| HostRuntime.HostRuntime.AbortApply | apps/host/src/updateService.ts:254-261 | a written abort leaves no applying state, and shows what is stored; a failed one changes nothing |
| HostRuntime.HostRuntime.SelectManager | apps/host/src/updateService.ts:283-332 | another channel gets a manager of its own over the same state |
| HostRuntime.HostRuntime.RestartDaemon | apps/host/src/hostRuntime.ts:301-304 | the daemon is stopped unless it is, and that awaited, and started again without renewing its attempts |
| HostRuntime.HostRuntime.Recover | apps/host/src/hostRuntime.ts:299-307 | the abort is written when the transition began, and the daemon comes back when it must, but not once the host shuts down |
| HostRuntime.HostRuntime.StopAndLaunch | apps/host/src/hostRuntime.ts:290-308 | from the readiness answer on, as in `ApplyUpdate` |
| HostRuntime.HostRuntime.Transit | apps/host/src/hostRuntime.ts:291-308 | from the stop that ended well on: launched, or the transition undone and the daemon brought back |
| HostRuntime.HostRuntime.Launch | apps/host/src/hostRuntime.ts:292-298 | a launched installer is the verified file of an applying state, and the host shuts down; nothing is launched once it does |
| HostRuntime.HostRuntime.ApplyUpdate | apps/host/src/hostRuntime.ts:258-308 | the daemon is asked once an update is staged, and its answer heeded: a blocked update leaves it as it is, one that is not ready brings it back, a ready one is stopped for the update; the installer is launched only after that stop ended well and with the verified file of a state that says applying, and then unless the host is to shut down, the manager fails or the installer cannot be launched; no child is there then unless a restart was pending; a failing run leaves the phase other than applying when the abort is written, and brings back the daemon it stopped |
| HostRuntime.HostRuntime.AskDaemon | apps/host/src/hostRuntime.ts:264-308 | from the staged update on: the daemon is asked, and what follows from its answer |
| HostRuntime.HostRuntime.Execute | apps/host/src/hostRuntime.ts:209-256 | a refused request changes nothing; while the host neither shuts down nor shows an apply every request is done: an update run as in `ApplyUpdate`, a check as in `CheckUpdate`, a call of the supervisor as in `CallDaemon`; an installer is launched only by an apply that says so, and every request after it is refused; the disk keeps its promise, and the claimed update stays newer, so the next request finds both |
| HostRuntime.HostRuntime.Serve | apps/host/src/hostRuntime.ts:209-256 | over any queue of requests the disk keeps its promise, and at most one installer is launched |
| HostRuntime.HostRuntime.CheckUpdate | apps/host/src/updateService.ts:185-203 | a check through the service keeps the disk's promise and the claimed update newer; without a fault it shows the update offered, that there is none, or the failure, as the manifest says |
| HostRuntime.HostRuntime.CallDaemon | apps/host/src/hostRuntime.ts:221-232 | the supervisor's step is done: start wants a daemon, stop wants none, restart wants one at once or when the child has ended; until the promise settles nothing undoes a stop: no child is spawned and no restart is due |
| MarkdownScan.ScanValid | packages/protocol/src/markdown.ts:327-570 | at every character the stacks, pairs and suspended contexts of the scanner are well formed: pairs unescaped, on one line, non-crossing |
| MarkdownScan.TitleIsTop | packages/protocol/src/markdown.ts:327-570 | at most one of the angle, quote and title contexts is active, and the opening of an active title is the top of the stack |
| MarkdownScan.NestedLinkRestores | packages/protocol/src/markdown.ts:376-566 | the context a nested link interrupts is read again right after the link has closed, whatever lies between |
| MarkdownScan.CloseRestores | packages/protocol/src/markdown.ts:547-566 | closing a link brings back exactly the context it suspended |
| MarkdownScan.ParenthesisPass.Run | packages/protocol/src/markdown.ts:327-570 | one pass over the text computes the scanner's state |
| MarkdownScan.ParenthesisPass.Read | packages/protocol/src/markdown.ts:406-566 | one character of the pass |
| MarkdownScan.CollectClosures | packages/protocol/src/markdown.ts:610-617 | the two passes give pairs that are unescaped, on one line and pairwise disjoint or nested |
| MarkdownTargets.SplitRaw | packages/protocol/src/markdown.ts:596-602 | where a destination ends and its title begins: what `SplitExactly` says |
| MarkdownTargets.SplitExactly | packages/protocol/src/markdown.ts:596-602 | a title splits off exactly where the first one on the first line begins, behind a target that is not empty |
| MarkdownTargets.CollectClosingBrackets | packages/protocol/src/markdown.ts:295-325 | the brackets that close a link text |
| MarkdownPlain.LabelsExactly | packages/protocol/src/markdown.ts:295-325 | a bracket closes a label exactly when it is unescaped and an unescaped one before it is left open |
| MarkdownPlain.PlainPairs | packages/protocol/src/markdown.ts:327-570 | on a line without titles and angle brackets the scanner pairs exactly the parentheses between which all is balanced |
| MarkdownPlain.PlainRewritable | packages/protocol/src/markdown.ts:629-686 | on such a line exactly the links to a drive with balanced brackets and parentheses can be rewritten |
| MarkdownPlain.TitledPaired | packages/protocol/src/markdown.ts:407-566 | a quoted title that ends a link, all plain before it: the scanner pairs the link's parenthesis behind it and calls its context valid |
| MarkdownPlain.TitledRewritable | packages/protocol/src/markdown.ts:650-677 | such a link can be rewritten exactly when its label closes and it goes to a drive |
| MarkdownTargets.IsEscaped | packages/protocol/src/markdown.ts:285-293 | a character is escaped exactly after an odd run of backslashes |
| MarkdownTargets.FindAngleEnd | packages/protocol/src/markdown.ts:572-594 | the end of an angle destination is the first unescaped `>` before any `<` |
| MarkdownTargets.AllEditsFit | packages/protocol/src/markdown.ts:619-686 | the edits rewrite link destinations, each on one line and none overlapping |
| MarkdownTargets.AllEditsExactly | packages/protocol/src/markdown.ts:629-686 | a link is rewritten exactly when its bracket closes a label, the scanner pairs its parenthesis, a drive follows, nothing in it looks like a title or one splits off in a valid context, or its angle brackets close before a title, and no other such destination encloses it |
| MarkdownTargets.ComesOut | packages/protocol/src/markdown.ts:674-681 | a link that is rewritten comes out as `</`, its target up to the first title with slashes, `>`, and its title |
| MarkdownTargets.NormalizeInText | packages/protocol/src/markdown.ts:619-686 | the loop applies exactly the edits of `AllEdits` |
| MarkdownCode.MaskCode | packages/protocol/src/markdown.ts:688-718 | the masking loop replaces every inline code span by its token |
| MarkdownSpans.SpansExactly | packages/protocol/src/markdown.ts:688-718 | the spans are unescaped runs of backticks up to the next of the same length; every unescaped run lies in one, unless the search has ended before, at a run that has no end |
| MarkdownCode.MaskedReads | packages/protocol/src/markdown.ts:688-728 | a text is masked and read back as it is, every span by its own token, exactly when everything outside its spans is plain: read from the left, a token written out in it has a number no span has, and none is left unfinished right before a span |
| MarkdownCode.PiecesSplit | packages/protocol/src/markdown.ts:722-727 | what unmasking reads before and behind a character no token holds does not interfere |
| MarkdownRewrite.NormalizeProse | packages/protocol/src/markdown.ts:688-728 | masking, rewriting and unmasking in sequence |
| MarkdownRewrite.ProseIsEdited | packages/protocol/src/markdown.ts:688-728 | a legible text is changed only by disjoint destination edits; every code span survives in order unless an edit drops it; the line breaks are all kept exactly when no destination that is rewritten ends, inside its angle brackets, in a title with a code span of several lines |
| MarkdownRewrite.ReadsBackExactly | packages/protocol/src/markdown.ts:688-728 | unmasking a masked text gives the text, and its pieces, exactly when the text is legible: plain outside its code spans |
| MarkdownRewrite.NulFreeLegible | packages/protocol/src/markdown.ts:14-19 | a text without a NUL is legible |
| MarkdownCode.TokenFreePlain | packages/protocol/src/markdown.ts:14-19 | so is text in which no token with the number of a span begins, nor an unfinished one before a span |
| MarkdownRewrite.TitlesKeepLines | packages/protocol/src/markdown.ts:660-684 | so it does if no angle destination in it, rewritten or not, ends in such a title |
| MarkdownRewrite.EditsLose | packages/protocol/src/markdown.ts:660-684 | all edits together lose exactly the line breaks they drop |
| MarkdownLosses.WrittenTokenLosesSpan | packages/protocol/src/markdown.ts:688-728 | the prefix and a digit right before a code span: its token is shown in its place |
| MarkdownLosses.AngleTitleLost | packages/protocol/src/markdown.ts:660-684 | a link whose angle brackets hold a title with a code span of two lines comes out without the title, the span and the line |
| MarkdownLines.NormalizeTargets | packages/protocol/src/markdown.ts:742-790 | the loop over the lines gives the copied and rewritten lines |
| MarkdownLines.FenceLineIs | packages/protocol/src/markdown.ts:279-283 | up to three blanks and at least three backticks or tildes: such a line opens a fence unless the rest holds a backtick, or behind tildes a line end, and closes one exactly when only spaces follow |
| MarkdownLines.OnlyFenceLines | packages/protocol/src/markdown.ts:279-283 | no other line opens or closes a fence |
| MarkdownLines.OpenSinceExactly | packages/protocol/src/markdown.ts:749-784 | a fence is open before a line exactly when an earlier line opened it, outside fences and block code, and none between closes it |
| MarkdownLines.LinesKept | packages/protocol/src/markdown.ts:742-790 | when the prose blocks keep their lines, so does the text: every fenced or block-code line stands unchanged at its index, and every prose block rewritten at its indices |
| MarkdownLines.NormalizedLines | packages/protocol/src/markdown.ts:742-790 | the prose blocks being legible, that is so exactly when none of them has a destination that is rewritten and ends, inside its angle brackets, in a title with a code span of several lines |
| MarkdownLines.KeepsLinesExactly | packages/protocol/src/markdown.ts:660-684 | a legible text keeps its lines exactly when no destination that is rewritten ends, inside its angle brackets, in a title with a code span of several lines |
| TurnState.FindMatchingTurnStart | apps/daemon/src/agents/sourceAgentTurnState.ts:103-119 | the backward search finds the start of the turn an entry ends |
| TurnState.FindLatestUnansweredUserTurn | apps/daemon/src/agents/sourceAgentTurnState.ts:76-101 | the loop finds the user entry that nothing has answered and the latest activity |
| TurnState.FindTerminalTurns | apps/daemon/src/agents/sourceAgentTurnState.ts:121-149 | the loop lists the finished turns |
| TurnState.TerminalTurnsAreDisjoint | apps/daemon/src/agents/sourceAgentTurnState.ts:121-149 | all finished turns in transcript order, with pairwise disjoint intervals from start to end |
| TurnState.DeriveTurnState | apps/daemon/src/agents/sourceAgentTurnState.ts:170-260 | the scan decides the state of the current turn, as the following rows say |
| TurnState.StartLabelDecides | apps/daemon/src/agents/sourceAgentTurnState.ts:222-238 | with a latest label "Turn started" the turn is active since that entry, unless the latest time is stale |
| TurnState.UserBehindEndDecides | apps/daemon/src/agents/sourceAgentTurnState.ts:151-168 | with an unanswered user entry behind the latest end of a turn it is that user's, the evidence being strong exactly when nothing followed, the entry is later than the end, and it is not stale |
| TurnState.EndLabelDecides | apps/daemon/src/agents/sourceAgentTurnState.ts:187-220 | without one it is the turn that ended |
| TurnState.UnlabelledUserDecides | apps/daemon/src/agents/sourceAgentTurnState.ts:241-243 | without labels an unanswered user entry is an active turn |
| TurnState.RecentEntryDecides | apps/daemon/src/agents/sourceAgentTurnState.ts:245-260 | and without either the latest entry is, unless it is a final answer or stale |
| TurnState.SomethingDecides | apps/daemon/src/agents/sourceAgentTurnState.ts:170-260 | one of these cases applies to every transcript that is not empty |
| TurnState.TurnBegins | apps/daemon/src/agents/sourceAgentTurnState.ts:103-149 | a turn that ended began with the nearest user entry or start label, if no other ended in between |
| TurnState.TurnBeginsNowhere | apps/daemon/src/agents/sourceAgentTurnState.ts:103-149 | otherwise nothing is known of its start |
| TurnState.DerivedTerminalIsLast | apps/daemon/src/agents/sourceAgentTurnState.ts:170-260 | the current turn is over exactly when the latest label ends one and no user entry behind it waits; then it is the last finished turn field for field |
| TurnState.StartedStaysOpen | apps/daemon/src/agents/sourceAgentTurnState.ts:170-260 | a started turn is over only once a label says so |
| TurnState.FindOwnedActiveTurn | apps/daemon/src/agents/managedSourceTurnOwnership.ts:26-65 | a target is found exactly when a user entry says the prompt in its time with no turn boundary before the active entry, and names such an entry |
| TurnState.IsAlreadyInterrupted | apps/daemon/src/agents/managedSourceTurnOwnership.ts:67-98 | exactly when the confirmed interrupt is that of the active turn with no boundary in between |
| Projector.TurnEventProjector.Update | apps/daemon/src/realtime/agentSessionTurnEventProjector.ts:199-281 | the record is replaced by what was observed, the events of the new turns are published when the gates allow, and then the file is written, unless that fails |
| Projector.TurnEventProjector.Set | apps/daemon/src/realtime/agentSessionTurnStateRepository.ts:268-278 | the previous record is returned and the new one kept; dirty when the content differs |
| Projector.TurnEventProjector.Load | apps/daemon/src/realtime/agentSessionTurnStateRepository.ts:290-316 | loading adds unexpired records that memory does not have |
| Projector.TurnEventProjector.Persist | apps/daemon/src/realtime/agentSessionTurnStateRepository.ts:322-340 | the file is replaced as a whole or not at all |
| Projector.PersistedKeepsNewest | apps/daemon/src/realtime/agentSessionTurnStateRepository.ts:208-247 | only unexpired records are written, and one left out is the oldest among more than 200 |
| Projector.LoadedFinds | apps/daemon/src/realtime/agentSessionTurnStateRepository.ts:290-305 | memory wins over the file, and otherwise the file's first unexpired record is found |
| Projector.NormalizedKeeps | apps/daemon/src/realtime/agentSessionTurnStateRepository.ts:38-46 | up to 64 distinct fingerprints are read back as written |
| Projector.RestartFinds | apps/daemon/src/realtime/agentSessionTurnStateRepository.ts:208-316 | a record that was written and has not expired is there after a restart |
| Projector.ExternalPublishes | apps/daemon/src/realtime/agentSessionTurnEventProjector.ts:17-54 | no gate holds back an event of an external session with a record |
| Projector.TellsExactly | apps/daemon/src/realtime/agentSessionTurnEventProjector.ts:17-54 | an event passes the gates exactly while a linked session runs, when the turn was external before and is now, or when a linked session is read only and the turn was active or is external |
| Projector.LinkedExactly | apps/daemon/src/realtime/agentSessionTurnEventProjector.ts:56-67 | an event names a managed session exactly when it is the only linked one |
| Projector.AfterExactly | apps/daemon/src/realtime/agentSessionTurnEventProjector.ts:87-94 | against a record without fingerprints the turns completed behind its time are new |
| TurnDelivery.FoundExactly | apps/daemon/src/realtime/agentSessionTurnEventProjector.ts:69-101 | a later window finds the turns that ended since the recorded one, after as many of the still visible old ones as exceed 64 |
| TurnDelivery.UpdateTells | apps/daemon/src/realtime/agentSessionTurnEventProjector.ts:199-281 | the events of an update are exactly the turns found new |
| TurnDelivery.RunTells | apps/daemon/src/realtime/agentSessionTurnEventProjector.ts:199-281 | over a run the events exceed what is due by exactly the repeats |
| TurnDelivery.ToldOnceExactly | apps/daemon/src/realtime/agentSessionTurnEventProjector.ts:97-101 | each turn shown after the baseline is told once and in transcript order exactly when no window still shows more than 64 turns of the one before |
| TurnDelivery.DueExactly | apps/daemon/src/realtime/agentSessionTurnEventProjector.ts:69-79 | what is due: every finished turn beyond the first window that a later window shows, each once |
| TurnDelivery.SinceBaseline | apps/daemon/src/realtime/agentSessionTurnEventProjector.ts:69-79 | windows without gaps make every turn since the baseline due |
| TurnDelivery.Follow | apps/daemon/src/realtime/agentSessionTurnEventProjector.ts:199-281 | a projector that polls a session publishes the run's events |
| TurnDelivery.RestartSkipsNothing | apps/daemon/src/realtime/agentSessionTurnEventProjector.ts:268-273 | after a restart from the record of any earlier poll, a poll tells every turn it shows that ended since, in order, after exactly those it repeats: as many of the old ones as exceed 64, and one with an empty fingerprint |
| ReadScheduler.NextValid | apps/daemon/src/application/sourceAgentSessionService.ts:414-484 | every request, settled read, completion and close keeps: active = running reads within the concurrency, the queue within the capacity, no idle slot while a read waits, in-flight keys = queued and running keys, admission order, one settlement each |
| ReadScheduler.RunValid | apps/daemon/src/application/sourceAgentSessionService.ts:86-130 | so in every state of every run |
| ReadScheduler.NextGrows | apps/daemon/src/application/sourceAgentSessionService.ts:117-130 | what was started or settled stays so, and once closed nothing starts and nothing is admitted |
| ReadScheduler.RequestAnswers | apps/daemon/src/application/sourceAgentSessionService.ts:423-442 | a request joins exactly the queued or running read of its key, and is refused for room exactly when every slot and queue place is taken |
| ReadScheduler.KeysOnce | apps/daemon/src/application/sourceAgentSessionService.ts:444-471 | no key is queued or running twice |
| ReadScheduler.DrainTakesPrefix | apps/daemon/src/application/sourceAgentSessionService.ts:476-484 | a prefix of the queue starts, in its order |
| ReadScheduler.DrainTwice | apps/daemon/src/application/sourceAgentSessionService.ts:453-466 | starting the queue from within a read that throws is the same as starting it once |
| ReadScheduler.DrainRejectsThrowing | apps/daemon/src/application/sourceAgentSessionService.ts:444-484 | of the reads that start, those that throw are rejected at once, in their order, and nothing else is settled |
| ReadScheduler.EveryReadSettlesOnce | apps/daemon/src/application/sourceAgentSessionService.ts:444-471 | an admitted read settles at most once, and exactly once unless it waits or runs |
| ReadScheduler.CloseWaitsForAll | apps/daemon/src/application/sourceAgentSessionService.ts:117-130 | once the reads that ran at close are settled, every read is |
| ReadScheduler.SourceAgentReads.DedupeRead | apps/daemon/src/application/sourceAgentSessionService.ts:423-474 | the method does the request of the model, answers as it does and keeps the invariant |
| ReadScheduler.SourceAgentReads.StartQueuedReads | apps/daemon/src/application/sourceAgentSessionService.ts:476-484 | the loop with its nested starts drains the queue |
| ReadScheduler.SourceAgentReads.Start | apps/daemon/src/application/sourceAgentSessionService.ts:453-466 | a started read runs, or throws and completes at once |
| ReadScheduler.SourceAgentReads.Complete | apps/daemon/src/application/sourceAgentSessionService.ts:414-421 | a completion frees the slot and the key and starts what waits; the invariant stays |
| ReadScheduler.SourceAgentReads.Shut | apps/daemon/src/application/sourceAgentSessionService.ts:117-130 | close rejects what is queued, in order; the invariant stays |
| RuntimeScheduler.NextValid | apps/daemon/src/runtimeDiagnostics/lmStudioRuntimeCoordinator.ts:198-246 | every call, invocation, settled operation, freed slot, landed flight and close keeps both bounds, work conservation, order, one settlement each, and one call under way a flight |
| RuntimeScheduler.RunValid | apps/daemon/src/runtimeDiagnostics/lmStudioRuntimeCoordinator.ts:66-121 | so in every state of every run |
| RuntimeScheduler.RefusedExactly | apps/daemon/src/runtimeDiagnostics/lmStudioRuntimeCoordinator.ts:198-214 | a call is refused for room exactly when every slot and queue place is taken, and gets a slot exactly when one is free |
| RuntimeScheduler.OneFlightAtOnce | apps/daemon/src/runtimeDiagnostics/lmStudioRuntimeCoordinator.ts:127-173 | two calls that share a flight are not under way at once |
| RuntimeScheduler.FlightsLand | apps/daemon/src/runtimeDiagnostics/lmStudioRuntimeCoordinator.ts:127-173 | a call joins the flight under way, and when that has landed the next sets out anew |
| RuntimeScheduler.ClearedRefuses | apps/daemon/src/runtimeDiagnostics/lmStudioRuntimeCoordinator.ts:103-121 | once `close` is over every call is refused |
| RuntimeScheduler.DrainTakesPrefix | apps/daemon/src/runtimeDiagnostics/lmStudioRuntimeCoordinator.ts:238-246 | a prefix of the queue gets slots, in its order |
| RuntimeScheduler.EveryCallSettlesOnce | apps/daemon/src/runtimeDiagnostics/lmStudioRuntimeCoordinator.ts:38-56 | every call settles at most once, and has when no operation holds a slot |
| RuntimeScheduler.NothingStartsAfterClose | apps/daemon/src/runtimeDiagnostics/lmStudioRuntimeCoordinator.ts:103-121 | after close no call gets a slot, and an operation invoked then had one before |
| RuntimeScheduler.InvokedAfterCloseExactly | apps/daemon/src/runtimeDiagnostics/lmStudioRuntimeCoordinator.ts:49-55 | once closed, an operation is still invoked in some continuation exactly when one that got its slot before has not been invoked, and in none otherwise |
| RuntimeScheduler.InvokedAfterClose | apps/daemon/src/runtimeDiagnostics/lmStudioRuntimeCoordinator.ts:49-55 | a run in which an operation is invoked after close |
| RuntimeScheduler.RuntimeCoordinator.Ask | apps/daemon/src/runtimeDiagnostics/lmStudioRuntimeCoordinator.ts:123-173 | a public call joins its flight or sets out on one: refused for room exactly when every slot and queue place is taken, given a slot exactly when one is free; the invariant stays |
| RuntimeScheduler.RuntimeCoordinator.DrainQueue | apps/daemon/src/runtimeDiagnostics/lmStudioRuntimeCoordinator.ts:238-246 | the loop drains the queue |
| RuntimeScheduler.RuntimeCoordinator.FinishQueuedOperation | apps/daemon/src/runtimeDiagnostics/lmStudioRuntimeCoordinator.ts:232-236 | a finished operation frees its slot and the queue is drained: no call waits while a slot is free |
| RuntimeScheduler.RuntimeCoordinator.Shut | apps/daemon/src/runtimeDiagnostics/lmStudioRuntimeCoordinator.ts:103-121 | close rejects what waits, in order, and nothing else |
| ConcurrentMap.ReadsAll | apps/daemon/src/infrastructure/git.ts:245-261 | however the reads interleave: never more at once than the concurrency, no worker idle while an index is left, and at the end every index was read to its value |
| ConcurrentMap.NextValid | apps/daemon/src/agents/sourceAgentSessionIndexIo.ts:16-29 | each index is taken by one worker, and is being read, read or lost to a rejection |
| Utf8.DecodedEncoded | packages/host-control/src/framing.ts:8-19 | a character's bytes (section 3 of RFC 3629) decode to it |
| Utf8.EncodedDecoded | packages/host-control/src/framing.ts:8-19 | well-formed bytes are the encoding of what they decode to |
| Utf8.FeedConcat | packages/host-control/src/framing.ts:19-20 | for any bytes, it does not matter where a chunk ends |
| Utf8.FeedPrefix | packages/host-control/src/framing.ts:19-20 | a prefix of a text's bytes gives a prefix of it, the whole only with the last byte |
| Utf8.StringDecoder.Write | packages/host-control/src/framing.ts:11-20 | the streaming decoder reads a chunk and keeps the start of a character |
| Utf8.FitIsLongest | apps/daemon/src/infrastructure/git.ts:233-243 | the kept prefix is the longest of whole characters within the bound |
| Utf8.Truncate | apps/daemon/src/infrastructure/git.ts:233-243 | stepping back over tail bytes gives that prefix |
| Framing.RequestRoundTrip | packages/host-control/src/framing.ts:7-59 | a request the encoder accepts comes out exactly once over any chunks, also split inside a character, and the connection ends in order |
| Framing.RequestCutShort | packages/host-control/src/framing.ts:53-58 | a request cut short anywhere: nothing comes out, and its end is refused |
| Framing.ResponseArrives | packages/host-control/src/framing.ts:61-114 | a response within the limit, whatever white space follows, comes out exactly once over any chunks |
| Framing.ResponseRoundTrip | packages/host-control/src/framing.ts:116-124 | so does what the response encoder prints |
| Framing.ResponseWithoutBreak | packages/host-control/src/framing.ts:99-113 | a response without a line break comes out at the end of the connection, over any chunks |
| Framing.BlankResponse | packages/host-control/src/framing.ts:99-113 | a connection that brings nothing but white space ends in order, with nothing |
| Framing.TooLargeExactly | packages/host-control/src/framing.ts:15-18 | a decoder refuses for size exactly when the bytes exceed the limit in all |
| Framing.EncoderMatchesLimit | packages/host-control/src/framing.ts:126-134 | the request encoder refuses exactly the frames the decoder would refuse for size |
| Framing.TrailingInChunk | packages/host-control/src/framing.ts:41-47 | however a frame is cut into chunks, text behind it in its last chunk is dropped unless it holds the marker again |
| Framing.TrailingLater | packages/host-control/src/framing.ts:21-25 | in a later chunk, wherever the frame and the chunk are cut, it is refused as a second request once it brings a character, or as too large |
| Framing.RequestDecoder.Push | packages/host-control/src/framing.ts:14-51 | the method receives as the model does |
| Framing.RequestDecoder.ReadLines | packages/host-control/src/framing.ts:27-50 | the loop over complete lines |
| Framing.RequestDecoder.Finish | packages/host-control/src/framing.ts:53-58 | the end of a request connection |
| Framing.NdjsonDecoder.Push | packages/host-control/src/framing.ts:67-97 | the method receives as the model does |
| Framing.NdjsonDecoder.Finish | packages/host-control/src/framing.ts:99-113 | the end of a response connection, with or without a line break |
| SnapshotIndex.PruneKeepsNewest | apps/daemon/src/agents/sourceAgentSessionIndex.ts:410-436 | what is kept is within both limits or empty, and is the unexpired snapshots without the shortest prefix of the oldest that the limits force out |
| SnapshotIndex.PruneDropsOldest | apps/daemon/src/agents/sourceAgentSessionIndex.ts:419-434 | an unexpired snapshot that is dropped is no newer than any that is kept |
| SnapshotIndex.PruneKeepsAll | apps/daemon/src/agents/sourceAgentSessionIndex.ts:410-436 | within the limits nothing unexpired goes |
| SnapshotIndex.FileSize | apps/daemon/src/agents/sourceAgentSessionIndex.ts:391-402 | the written file is 29 bytes, a comma between snapshots and their measured sizes |
| SnapshotIndex.FileFitsExactly | apps/daemon/src/agents/sourceAgentSessionIndexIo.ts:31-33 | after pruning the file is within the limit that loading checks exactly when it is not empty or the limit is at least 29 |
| SnapshotIndex.LoadsBack | apps/daemon/src/agents/sourceAgentSessionIndex.ts:218-271 | what was written is loaded again but for what has expired |
| SnapshotGenerations.NextValid | apps/daemon/src/agents/sourceAgentSessionIndex.ts:159-271 | every call, load, refresh, save, reset and close keeps the cache measured and within its limits, brought by operations of the current generation and file, and every written file loadable |
| SnapshotGenerations.RunValid | apps/daemon/src/agents/sourceAgentSessionIndex.ts:67-80 | so in every state of every run |
| SnapshotGenerations.OnlyCurrentEnters | apps/daemon/src/agents/sourceAgentSessionIndex.ts:331-366 | what enters the map was begun in this generation for this file, and nothing enters after close |
| SnapshotGenerations.StaleForever | apps/daemon/src/agents/sourceAgentSessionIndex.ts:331-398 | what began before another path, a reset or a close fails its guard in every later state |
| SnapshotGenerations.AnotherPath | apps/daemon/src/agents/sourceAgentSessionIndex.ts:192-204 | for another path the index starts anew |
| SnapshotGenerations.ResetOpens | apps/daemon/src/agents/sourceAgentSessionIndex.ts:159-169 | a reset does so too, opens a closed index, and the next load begins |
| SnapshotGenerations.LoadsOnce | apps/daemon/src/agents/sourceAgentSessionIndex.ts:206-216 | a load begins exactly when the path is another, or it is neither loaded nor being loaded |
| SnapshotGenerations.LoadedStays | apps/daemon/src/agents/sourceAgentSessionIndex.ts:206-271 | a load that is done in time, whatever it read, is not begun again for its path |
| SnapshotGenerations.LoadEnters | apps/daemon/src/agents/sourceAgentSessionIndex.ts:218-271 | a file within the limit that is loaded in time brings the last snapshot of every key, unless it is too large, has expired, or is pruned |
| SnapshotGenerations.LoadRefused | apps/daemon/src/agents/sourceAgentSessionIndex.ts:218-271 | one above the limit, or unreadable, brings none |
| SnapshotGenerations.RefreshEnters | apps/daemon/src/agents/sourceAgentSessionIndex.ts:340-365 | a snapshot refreshed in time is in the map, unless it is too large, has expired, or is pruned |
| SnapshotGenerations.TooLargeStays | apps/daemon/src/agents/sourceAgentSessionIndex.ts:345-358 | one that is too large does not take the place of what is there, which is pruned only |
| SnapshotGenerations.RefreshOnce | apps/daemon/src/agents/sourceAgentSessionIndex.ts:340-365 | a refresh under way is joined, and when it is over the next begins anew |
| SnapshotGenerations.PersistWrites | apps/daemon/src/agents/sourceAgentSessionIndex.ts:388-398 | a save in time writes what is cached, and one that is over nothing |
| SnapshotGenerations.SourceAgentSessionIndex.Prune | apps/daemon/src/agents/sourceAgentSessionIndex.ts:410-436 | the two loops prune as specified |
| SnapshotGenerations.SourceAgentSessionIndex.SelectFilePath | apps/daemon/src/agents/sourceAgentSessionIndex.ts:192-204 | after another path nothing is cached and whatever was begun is over: its guard fails; the same path changes nothing |
| SnapshotGenerations.SourceAgentSessionIndex.ResetAll | apps/daemon/src/agents/sourceAgentSessionIndex.ts:159-169 | after a reset nothing is cached and whatever was begun is over |
| SnapshotGenerations.SourceAgentSessionIndex.Shut | apps/daemon/src/agents/sourceAgentSessionIndex.ts:171-185 | after a close whatever was begun is over and nothing may begin |
| SnapshotGenerations.SourceAgentSessionIndex.EnsureLoaded | apps/daemon/src/agents/sourceAgentSessionIndex.ts:206-216 | one load a generation, which is current |
| SnapshotGenerations.SourceAgentSessionIndex.LoadDone | apps/daemon/src/agents/sourceAgentSessionIndex.ts:256-270 | the loaded snapshots are put and pruned unless the guard fails |
| SnapshotGenerations.SourceAgentSessionIndex.Refresh | apps/daemon/src/agents/sourceAgentSessionIndex.ts:340-365 | one refresh a key |
| SnapshotGenerations.SourceAgentSessionIndex.RefreshDone | apps/daemon/src/agents/sourceAgentSessionIndex.ts:345-358 | the refreshed snapshot is put and pruned unless the guard fails |
| SnapshotGenerations.SourceAgentSessionIndex.PersistNow | apps/daemon/src/agents/sourceAgentSessionIndex.ts:388-398 | what is written is the pruned map unless the guard fails |
| GitStatus.ParseBoundedGitStatus | apps/daemon/src/infrastructure/git.ts:194-231 | the loop reads the records |
| GitStatus.ReadsPrinted | apps/daemon/src/infrastructure/git.ts:194-231 | reading the print of any changes gives its first 2000 paths, with the status and previous path of each path's last record among them, the untracked ones, and whether there was any, staying aligned through renames and copies |
| GitStatus.MapPorcelainStatus | apps/daemon/src/infrastructure/git.ts:177-192 | collecting the letters and searching the priorities gives the status |
| GitStatus.QuoteSyntheticGitPath | apps/daemon/src/infrastructure/git.ts:286-310 | the loop quotes the path |
| GitStatus.UnquoteQuoted | apps/daemon/src/infrastructure/git.ts:286-310 | C-style unquoting undoes the quoting of any path |
| GitStatus.QuotedPlain | apps/daemon/src/infrastructure/git.ts:286-310 | no quoted path holds a control character |
| Replay.AssignValid | apps/daemon/src/realtime/serverEventReplay.ts:25-53 | every event keeps the byte count, both limits and the increasing cursors |
| Replay.RunValid | apps/daemon/src/realtime/serverEventReplay.ts:20-53 | so in every state of every run, the history being all the events sent |
| Replay.ReadsMissedExactly | apps/daemon/src/realtime/serverEventReplay.ts:55-69 | a client is sent exactly what it missed, in order, just when no event after its cursor was dropped or evicted |
| Replay.EvictKeepsLast | apps/daemon/src/realtime/serverEventReplay.ts:41-47 | eviction never takes the event just added |
| Replay.ServerEventReplayBuffer.AssignCursor | apps/daemon/src/realtime/serverEventReplay.ts:25-53 | the method assigns, holds and evicts as the model does, and keeps the invariant |
| Replay.ServerEventReplayBuffer.Read | apps/daemon/src/realtime/serverEventReplay.ts:55-69 | the events after a cursor |
| Replay.ServerEventReplayBuffer.Clear | apps/daemon/src/realtime/serverEventReplay.ts:71-76 | a client is sent nothing, whatever its cursor, and the next event is the first |

## Left out

- Sockets, HTTP and redirects, spawning, `systemctl`, archives and registry calls are steps that succeed, fail or emit an event.
- The Markdown parser behind `collectMarkdownBlockCodeLines` is an arbitrary set of line numbers; the wrappers around it and the asset sources are left out.
- Error texts, log lines, status callbacks, configuration, argument parsing and field validators.
- `runSingleFlight` of the update manager: two calls that join share one operation, and the host's queue issues one at a time.
- `startInitialDaemon` and the update service's `initialize` run outside the queue of `HostRuntime`; their calls are among those the supervisor's theorems allow at any time.
- Installer snapshots of `packages/update/src/apply.ts`, the Windows launch, and the apply worker's argument checks.
- Supervisor events during an `await` on the update manager are gathered in front of the next step: the two share no state.
- A `kill` that emits the exit of the child synchronously, and a crash of the host between two supervisor events.
- The answer text, start time and duration in a turn event; transcript change events and the source tracker.
- The managed polling path, whose entry ids are relative to the tail, and update admission, interrupt and delivery stores, which are not part of this model.
- `localeCompare` on times is a key the comparator reads; `Date.parse` is a parameter.
- UTF-16 code units: a string index is a code point, so a split inside a surrogate pair is not modelled; malformed UTF-8 is replaced as the Encoding Standard does, which the round trips do not use.
- Cursors are unbounded numbers, so the safe-integer tests of `readAfter` concern only the cursor a client sends.
- `prepareModel`'s shared server start inside an operation, and admission in front of the runtime coordinator.
- Orphaned temporary files, the retried rename and the order of saves of the snapshot index: a write lands or not.
- A snapshot with fields beyond the stored three, which only a foreign writer leaves; its measured size would exceed what is written of it.
- UpdateManager.UpdateManager.Receive: when the write of the new state fails, whether the error that is then written lands is open; so it is for every write that follows a failed step.
- MarkdownLines.NormalizedLines: asks that each prose block is legible; `MarkdownRewrite.ReadsBackExactly` has the exact condition.
- SnapshotIndex.LoadsBack: the byte limit of the snapshot index, the host's setting, is the same for a save and the load after it.
- ReadScheduler.NextValid: a read that calls `dedupeRead` again while it is being started is not modelled, because the reads of the source await first.
- ReadScheduler.SourceAgentReads.Return: settles whatever id it is given; that it runs and is not settled yet is the condition of the event.
