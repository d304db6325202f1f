/** The host's update run (apps/host/src/hostRuntime.ts with apps/host/src/updateService.ts): the supervisor
    and the update manager together, with everything the outside world may do between two steps.

    Each `await` is a point where children answer, fail or exit and timers fire, where a shutdown may be
    requested, and where the host may die or wait forever (`Interrupted`). */
module HostRuntime {
  import opened Wrappers
  import opened Supervisor
  import opened SupervisorRuns
  import Daemon
  import UpdateManager
  import Versions

  // ---- the supervisor while nobody calls it

  /** Every call waiting for a stop is the one with promise `t`. */
  predicate OnlyWaits(h: Host, t: Ticket) {
    forall call <- h.parked :: call.ticket == t
  }

  /** No child, none to come by itself, and nobody waits. */
  predicate Idle(h: Host) {
    h.child.None? && !h.restartTimer && h.parked == []
  }

  lemma ExitNobody(h: Host, c: Child, exit: Exit, env: Env)
    requires h.parked == []
    ensures OnExit(h, c, exit, env).child.None?
  {
    var wasStopping, waited := c in h.stoppingChildren, c in h.stoppingChildren && WaitsFor(h, c);
    var how := if waited then StopVerdict(h, h.stopWaiter.value, exit) else Rejected;
    var gone, stop := Exited(h, c, exit), if waited then Some(how) else None;
    AbandonedCalm(gone, stop);
    assert gone.(parked := []) == gone;
  }

  lemma SpawnErrorNobody(h: Host, c: Child, env: Env)
    requires h.parked == []
    ensures OnSpawnError(h, c, env).facts.exits == h.facts.exits
  {
    var gone, stop := Unspawned(h, c), if WaitsFor(h, c) then Some(Rejected) else None;
    AbandonedCalm(gone, stop);
  }

  lemma RestartTimerExits(h: Host, env: Env)
    ensures OnRestartTimer(h, env).facts.exits == h.facts.exits
  {
  }

  lemma ForceTimeoutNobody(h: Host, env: Env)
    requires h.parked == []
    ensures OnForceTimeout(h, env).facts.exits == h.facts.exits
  {
  }

  /** While nobody waits, only the child's own exit ends it, and leaves no child. */
  lemma OnlyExitEnds(h: Host, e: Event, env: Env)
    requires h.parked == [] && External(e)
    ensures Step(h, e, env).facts.exits != h.facts.exits ==> Step(h, e, env).child.None?
  {
    if CalmEvent(e) {
      CalmStep(h, e, env);
    } else {
      match e
      case ChildExit(c, exit) => if h.child == Some(c) { ExitNobody(h, c, exit, env); }
      case ChildError(c, _) => if h.child == Some(c) { SpawnErrorNobody(h, c, env); }
      case ForceTimeout => ForceTimeoutNobody(h, env);
      case RestartTimer => RestartTimerExits(h, env);
      case StableRunTimer =>
    }
  }

  lemma IdleStep(h: Host, e: Event, env: Env)
    requires Lean(h) && Idle(h) && External(e)
    ensures Idle(Step(h, e, env))
  {
    if CalmEvent(e) {
      CalmStep(h, e, env);
    }
  }

  /** One event of the outside world. */
  lemma Elapses(h: Host, e: Event, env: Env)
    requires Valid(h) && External(e)
    ensures var n := Step(h, e, env);
            Valid(n) && Grows(h.facts, n.facts) && (n.parked == [] || n.parked == h.parked) && (Idle(h) ==> Idle(n))
  {
    StepValid(h, e, env);
    ValidLean(h);
    if e.StableRunTimer? {
    } else {
      ExternalSpends(h, e, env);
      if Idle(h) {
        IdleStep(h, e, env);
      }
    }
  }

  /** The event that settles a stop request well leaves no child. */
  lemma StopEmpties(h: Host, e: Event, env: Env, t: Ticket)
    requires Valid(h) && h.parked == [] && External(e) && t in h.facts.stopRequests && t !in h.facts.settled
    ensures var n := Step(h, e, env);
            t in n.facts.settled && n.facts.settled[t] == Resolved ==> n.child.None? && StopWasClean(n.facts, t)
  {
    StepValid(h, e, env);
    OnlyExitEnds(h, e, env);
    var n := Step(h, e, env);
    if t in n.facts.settled && n.facts.settled[t] == Resolved {
      SettledNeedsExit(h, n, t);
    }
  }

  lemma AwaitElapses(h: Host, e: Event, env: Env, t: Ticket)
    requires Valid(h) && External(e)
    ensures var n := Step(h, e, env);
            && Valid(n) && Grows(h.facts, n.facts) && (n.parked == [] || n.parked == h.parked)
            && (h.parked == [] && t in h.facts.stopRequests && t !in h.facts.settled && t in n.facts.settled ==>
                  n.facts.settled[t] == Resolved ==> n.child.None? && StopWasClean(n.facts, t))
  {
    Elapses(h, e, env);
    if h.parked == [] && t in h.facts.stopRequests && t !in h.facts.settled {
      StopEmpties(h, e, env, t);
    }
  }

  /** With no daemon wanted and nobody waiting with hope, the outside world brings up no child. */
  lemma QuietElapses(h: Host, e: Event, env: Env)
    requires Valid(h) && External(e)
    ensures Quiet(h) ==> Quiet(Step(h, e, env)) && Step(h, e, env).facts.nextChild == h.facts.nextChild
  {
    if Quiet(h) {
      ValidLean(h);
      QuietStep(h, e, env);
    }
  }

  /** What an `await` on promise `t` may rely on, from `h` to `n`. */
  ghost predicate Elapsed(h: Host, n: Host, t: Ticket) {
    && Grows(h.facts, n.facts) && (n.parked == [] || n.parked == h.parked)
    && (t in h.facts.settled ==> n == h)
    && (Quiet(h) ==> Quiet(n) && n.facts.nextChild == h.facts.nextChild)
    && (h.parked == [] && t in h.facts.stopRequests && t !in h.facts.settled && t in n.facts.settled ==>
          n.facts.settled[t] == Resolved ==> n.child.None? && StopWasClean(n.facts, t))
  }

  lemma ElapsedStep(h: Host, e: Event, env: Env, t: Ticket)
    requires Valid(h) && External(e) && t !in h.facts.settled
    ensures Valid(Step(h, e, env)) && Elapsed(h, Step(h, e, env), t)
  {
    AwaitElapses(h, e, env, t);
    QuietElapses(h, e, env);
  }

  lemma ElapsedTwice(h: Host, m: Host, n: Host, t: Ticket)
    requires Elapsed(h, m, t) && t !in m.facts.settled && Elapsed(m, n, t)
    ensures Elapsed(h, n, t)
  {
  }

  lemma SettledNeedsExit(h: Host, n: Host, t: Ticket)
    requires Valid(h) && Valid(n) && Grows(h.facts, n.facts)
    requires t in h.facts.stopRequests && t !in h.facts.settled && t in n.facts.settled && n.facts.settled[t] == Resolved
    ensures StopWasClean(n.facts, t) && n.facts.exits != h.facts.exits
  {
    assert StopValid(h, t);
    assert StopValid(n, t);
    assert h.facts.stopRequests[t] !in h.facts.exits;
  }

  lemma WaitingCounts(calls: seq<Parked>, t: Ticket)
    requires forall call <- calls :: call.ticket == t
    ensures calls != [] ==> Tickets(calls)[t] > 0
  {
    if calls != [] {
      assert calls[0] in calls;
    }
  }

  /** A settled call no longer waits. */
  lemma SettledIsNotParked(h: Host, t: Ticket)
    requires Valid(h) && OnlyWaits(h, t) && t in h.facts.settled
    ensures h.parked == []
  {
    WaitingCounts(h.parked, t);
    assert Owners(h, t) + multiset{}[t] == if t < h.facts.nextTicket then 1 else 0;
  }

  /** With no child and nobody waiting, a child can appear without a call exactly when an automatic restart is
      pending. */
  lemma AppearsExactly(h: Host)
    requires Valid(h) && h.child.None?
    ensures (exists run: seq<Happening> :: (forall i :: 0 <= i < |run| ==> External(run[i].event)) && Run(h, run).child.Some?)
            <==> h.restartTimer
  {
    if h.restartTimer {
      var run := [Happening(RestartTimer, Env(true, false))];
      assert run[1..] == [];
      assert Run(h, run) == Run(OnRestartTimer(h, Env(true, false)), []);
    } else {
      forall run: seq<Happening> | forall i :: 0 <= i < |run| ==> External(run[i].event) ensures Run(h, run).child.None? {
        IdleRun(h, run);
      }
    }
  }

  lemma {:induction false} IdleRun(h: Host, run: seq<Happening>)
    requires Valid(h) && Idle(h) && forall i :: 0 <= i < |run| ==> External(run[i].event)
    ensures Idle(Run(h, run))
    decreases |run|
  {
    if run != [] {
      Elapses(h, run[0].event, run[0].env);
      IdleRun(Step(h, run[0].event, run[0].env), run[1..]);
    }
  }

  /** A stop call while nobody waits: no child and settled at once, or a request that is open. */
  lemma StopCallOpens(h: Host, env: Env)
    requires Valid(h) && h.parked == []
    ensures var (n, t) := StopChild(h, false, env);
            && Valid(n) && Grows(h.facts, n.facts) && n.parked == []
            && (if h.child.None? then n.child.None? && t in n.facts.settled && n.facts.settled[t] == Resolved
                else t in n.facts.stopRequests && t !in n.facts.settled)
  {
    StopChildInner(h, false, env);
    if h.child.Some? {
      OpenRequest(StopChild(h, false, env).0, StopChild(h, false, env).1);
    }
  }

  /** A start call while nobody waits: the daemon is wanted, and there is a child unless spawning failed. */
  lemma StartCallWants(h: Host, env: Env)
    requires Valid(h) && h.parked == []
    ensures var t, n := h.facts.nextTicket, Step(h, CallStart(false), env);
            && Valid(n) && Grows(h.facts, n.facts) && OnlyWaits(n, t) && n.desiredRunning
            && (n.child.Some? || (env.spawnThrows && t in n.facts.settled && n.facts.settled[t] == Rejected))
  {
    CallStartValid(h, false, env);
  }

  lemma UpdateCallWaits(h: Host, env: Env)
    requires Valid(h) && h.parked == []
    ensures var n := OnCallUpdate(h, env); Valid(n) && Grows(h.facts, n.facts) && n.parked == []
  {
    UpdateValid(h, env);
    UpdateCalm(h, env);
  }

  lemma StartWaits(h: Host, env: Env)
    requires Valid(h) && h.parked == []
    ensures var n := Step(h, CallStart(true), env); Valid(n) && OnlyWaits(n, h.facts.nextTicket)
  {
    CallStartValid(h, true, env);
  }

  lemma StopWaits(h: Host, env: Env)
    requires Valid(h) && h.parked == []
    ensures var n := Step(h, CallStop, env); Valid(n) && n.parked == []
  {
    CallStopValid(h, env);
    StopChildCalm(SetDesired(h, false), false, env);
  }

  lemma RestartWaits(h: Host, env: Env)
    requires Valid(h) && h.parked == []
    ensures var t := StopChild(SetDesired(h, false), false, env).0.facts.nextTicket;
            Valid(OnCallRestart(h, env)) && OnlyWaits(OnCallRestart(h, env), t)
  {
    CallRestartValid(h, env);
    StopChildCalm(SetDesired(h, false), false, env);
  }

  const CALM := Env(true, false)

  /** A child that is started, runs and crashes. */
  function Crashed(): Host {
    Step(Step(Step(Initial(3), CallStart(true), CALM), Ready(0), CALM), ChildExit(0, Exit(Some(1), None)), CALM)
  }

  lemma CrashedIsValid()
    ensures Valid(Crashed())
  {
    InitialValid(3);
    StepValid(Initial(3), CallStart(true), CALM);
    StepValid(Step(Initial(3), CallStart(true), CALM), Ready(0), CALM);
    StepValid(Step(Step(Initial(3), CallStart(true), CALM), Ready(0), CALM), ChildExit(0, Exit(Some(1), None)), CALM);
  }

  lemma CrashedWaitsToRestart()
    ensures var h := Crashed(); h.child.None? && h.restartTimer && h.parked == [] && h.facts.nextChild == 1 && h.startWaiter.None?
  {
    var started := Step(Initial(3), CallStart(true), CALM);
    assert started.child == Some(0) && started.startWaiter == Some(0) && started.restartAttempt == 0;
    var running := OnReady(started, 0);
    assert running.child == Some(0) && running.stopWaiter.None? && running.desiredRunning && running.restartAttempt == 0;
  }

  /** A crash between the readiness answer and the stop request: the stop ends well at once, with an automatic
      restart pending that brings up a child while the update is applied. */
  lemma CrashBeforeStop()
    ensures var (stopped, t) := StopChild(Crashed(), false, CALM);
            EndedWell(stopped, t) && stopped.restartTimer && OnRestartTimer(stopped, CALM).child == Some(1)
  {
    CrashedIsValid();
    CrashedWaitsToRestart();
    CrashStops(Crashed());
  }

  lemma CrashStops(h: Host)
    requires Valid(h) && h.child.None? && h.restartTimer && h.parked == [] && h.facts.nextChild == 1
    ensures var (stopped, t) := StopChild(h, false, CALM);
            EndedWell(stopped, t) && stopped.restartTimer && OnRestartTimer(stopped, CALM).child == Some(1)
  {
    StopCallOpens(h, CALM);
  }

  // ---- the update run

  datatype Outcome =
    | Launched       // the installer was handed the update
    | Answered       // the request is answered; an update run, with an error
    | Interrupted    // the host died, or waits forever

  /** The queued requests that touch the daemon or the update. */
  datatype Request =
    | DaemonStart
    | DaemonStop
    | DaemonRestart
    | UpdateCheck(channel: string, response: UpdateManager.Response)
    | UpdateApply(version: Option<string>, channel: string, sent: UpdateManager.Transmission)

  /** What became of a request: refused, or the account of its update run, a check, or the supervisor right after its
      call, unless the wish could not be persisted. */
  datatype Done = Refused | Applied(account: Account) | Checked | Called(after: Option<Host>)

  datatype Readiness = Prepared | Blocked | NotPrepared

  /** How the daemon was brought back: the promise of the stop before, with the supervisor before and after its call,
      unless it was stopped already, and the promise of the start, with the supervisor before and after it. */
  datatype Recovery = Recovery(stop: Option<(Ticket, Host, Host)>, start: Ticket, before: Host, after: Host)

  /** How a run went: whether an update was staged, the daemon's answer and the supervisor then, the stop request and
      the supervisor right after it, how it ended and the supervisor then, what the manager handed over, whether the
      installer could not be launched, the supervisor and the handoff at the launch, whether an abort was attempted and
      written, and how the daemon was brought back. */
  datatype Account = Account(
    staged: bool, answer: Option<(Readiness, Host)>, asked: Option<(Ticket, Host)>, stop: Option<(Settlement, Host)>,
    handoff: Option<UpdateManager.Handoff>, refused: bool, launch: Option<(Host, UpdateManager.Handoff)>,
    abort: Option<bool>, recovery: Option<Recovery>)

  const NOTHING := Account(false, None, None, None, None, false, None, None, None)

  /** The installers launched in a run. */
  function Launches(account: Account): seq<UpdateManager.Handoff> {
    if account.launch.Some? then [account.launch.value.1] else []
  }

  /** The supervisor after one of its calls. */
  ghost predicate Calls(before: Host, call: Event, after: Host) {
    exists env: Env :: after == Step(before, call, env)
  }

  lemma Calling(before: Host, call: Event, env: Env, after: Host)
    requires after == Step(before, call, env)
    ensures Calls(before, call, after)
  {
  }

  /** The daemon was neither stopped nor started, and the update not touched. */
  predicate Untouched(account: Account) {
    account.asked.None? && account.stop.None? && account.handoff.None? && account.launch.None? && account.abort.None? && account.recovery.None?
  }

  /** What a run does for the daemon's answer.  A blocked update leaves it running; one that is not ready brings it
      back, and so does a ready one that is stopped and not launched. */
  ghost predicate Heeds(account: Account, outcome: Outcome, shutdown: bool) {
    && (account.answer.None? || account.answer.value.0 == Blocked ==> Untouched(account) && outcome != Launched)
    && (account.answer.Some? && account.answer.value.0 == Blocked ==> outcome == Answered)
    && (account.answer.Some? && account.answer.value.0 == NotPrepared ==>
          account.asked.None? && account.abort.None? && account.launch.None?)
    && (account.answer.Some? && account.answer.value.0 == Prepared ==>
          account.asked.Some? && Calls(account.answer.value.1, CallStopForUpdate, account.asked.value.1))
    && (outcome == Answered && account.answer.Some? && account.answer.value.0 != Blocked ==> account.recovery.Some? || shutdown)
    && (account.recovery.Some? ==> Recovered(account.recovery.value, account.stop.Some? && account.stop.value.0 == Resolved))
  }

  /** What a run does once it has asked the daemon to stop: only a stop that ended well begins the apply, which is
      launched unless the host is to shut down, nothing is handed over, or the installer cannot be launched. */
  ghost predicate Transits(account: Account, outcome: Outcome, shutdown: bool) {
    && (account.asked.None? ==> account.stop.None?)
    && (account.stop.None? ==> account.handoff.None? && account.launch.None? && account.abort.None?)
    && (account.stop.Some? && account.stop.value.0 == Rejected ==>
          account.handoff.None? && account.launch.None? && account.abort.None?)
    && (account.stop.Some? && account.stop.value.0 == Resolved ==> EndedWell(account.stop.value.1, account.asked.value.0))
    && (account.stop.Some? && account.stop.value.0 == Resolved && outcome == Answered ==> account.abort.Some? || shutdown)
    && (account.abort.Some? ==> account.handoff.None? || account.refused || shutdown)
    && (account.launch.Some? ==> account.handoff == Some(account.launch.value.1) && account.abort.None?)
    && (outcome == Launched <==> account.launch.Some?)
  }

  /** The daemon was stopped, unless it was already, and that ended; then it was started again: it is wanted, and lives
      unless it could not be spawned.  The attempts count on. */
  ghost predicate Recovered(recovery: Recovery, stopped: bool) {
    && (recovery.stop.None? <==> stopped)
    && (recovery.stop.Some? ==>
          && Calls(recovery.stop.value.1, CallStopForUpdate, recovery.stop.value.2)
          && recovery.stop.value.0 in recovery.before.facts.settled)
    && Calls(recovery.before, CallStart(false), recovery.after) && Restarted(recovery.after, recovery.start)
  }

  predicate Written(account: Account) {
    account.abort.Some? && account.abort.value
  }

  predicate Unwritten(account: Account) {
    account.abort.Some? && !account.abort.value
  }

  class HostRuntime {
    const supported: bool
    const daemon: Daemon.DaemonSupervisor
    var manager: UpdateManager.UpdateManager
    /** the state the update service shows (`HostUpdateService.state`) */
    var shown: Option<UpdateManager.State>
    var shutdownRequested: bool
    /** the installer could not be launched, or a wish not be persisted */
    ghost var faulted: bool
    /** every installer that was launched */
    ghost var launched: seq<UpdateManager.Handoff>

    constructor (supported: bool, daemon: Daemon.DaemonSupervisor, manager: UpdateManager.UpdateManager)
      ensures this.supported == supported && this.daemon == daemon && this.manager == manager
      ensures shown.None? && !shutdownRequested && !faulted && launched == []
    {
      this.supported, this.daemon, this.manager, shown, shutdownRequested := supported, daemon, manager, None, false;
      faulted, launched := false, [];
    }

    /** Between two queued requests: the supervisor is consistent and nobody waits for a stop. */
    ghost predicate Quiescent()
      reads this, daemon
    {
      Valid(daemon.View()) && daemon.parked == []
    }

    /** What happens during an `await` on anything but the supervisor. */
    method Elapse()
      requires Quiescent()
      modifies this`shutdownRequested, daemon
      ensures Quiescent() && Grows(old(daemon.facts), daemon.facts)
      ensures old(shutdownRequested) ==> shutdownRequested
      ensures old(Idle(daemon.View())) ==> Idle(daemon.View())
    {
      var run: seq<Happening>, shutdown: bool := *, *;
      for i := 0 to |run|
        invariant Quiescent() && Grows(old(daemon.facts), daemon.facts) && shutdownRequested == old(shutdownRequested)
        invariant old(Idle(daemon.View())) ==> Idle(daemon.View())
      {
        if External(run[i].event) {
          Elapses(daemon.View(), run[i].event, run[i].env);
          daemon.Deliver(run[i].event, run[i].env);
        }
      }
      shutdownRequested := shutdownRequested || shutdown;
    }

    /** One event while promise `t` is awaited. */
    method AwaitEvent(ghost since: Host, happening: Happening, t: Ticket)
      requires Valid(daemon.View()) && Elapsed(since, daemon.View(), t) && t !in daemon.facts.settled
      modifies daemon
      ensures Valid(daemon.View()) && Elapsed(since, daemon.View(), t)
    {
      if External(happening.event) {
        ElapsedStep(daemon.View(), happening.event, happening.env, t);
        daemon.Deliver(happening.event, happening.env);
        ElapsedTwice(since, old(daemon.View()), daemon.View(), t);
      }
    }

    /** `await` on a promise of the supervisor: the caller goes on in the very event that settles it. */
    method Await(t: Ticket) returns (settled: bool)
      requires Valid(daemon.View()) && OnlyWaits(daemon.View(), t)
      modifies this`shutdownRequested, daemon
      ensures Valid(daemon.View()) && Grows(old(daemon.facts), daemon.facts)
      ensures old(shutdownRequested) ==> shutdownRequested
      ensures settled ==> t in daemon.facts.settled && daemon.parked == []
      ensures settled && t in old(daemon.facts.settled) ==> daemon.View() == old(daemon.View())
      ensures old(Quiet(daemon.View())) ==> Quiet(daemon.View()) && daemon.facts.nextChild == old(daemon.facts.nextChild)
      ensures settled && old(daemon.parked) == [] && t in old(daemon.facts.stopRequests) && t !in old(daemon.facts.settled) ==>
                daemon.facts.settled[t] == Resolved ==> daemon.child.None? && StopWasClean(daemon.facts, t)
    {
      var run: seq<Happening>, shutdown: bool := *, *;
      var i := 0;
      while t !in daemon.facts.settled && i < |run|
        invariant Valid(daemon.View()) && Elapsed(old(daemon.View()), daemon.View(), t) && shutdownRequested == old(shutdownRequested)
        decreases |run| - i
      {
        AwaitEvent(old(daemon.View()), run[i], t);
        i := i + 1;
      }
      shutdownRequested := shutdownRequested || shutdown;
      settled := t in daemon.facts.settled;
      if settled {
        SettledIsNotParked(daemon.View(), t);
      }
    }

    /** `stopForUpdate` and its await; `None` when it never settles. */
    method StopForUpdate() returns (result: Option<Settlement>, t: Ticket, asked: Host)
      requires Quiescent()
      modifies this`shutdownRequested, daemon
      ensures Valid(daemon.View()) && Grows(old(daemon.facts), daemon.facts)
      ensures old(shutdownRequested) ==> shutdownRequested
      ensures Calls(old(daemon.View()), CallStopForUpdate, asked)
      ensures result.Some? ==> Quiescent() && t in daemon.facts.settled && daemon.facts.settled[t] == result.value
      ensures result == Some(Resolved) ==>
                daemon.child.None? && (old(daemon.child).None? || (t in daemon.facts.stopRequests && StopWasClean(daemon.facts, t)))
    {
      var env: Env := *;
      StopCallOpens(daemon.View(), env);
      t := daemon.OnStopForUpdateCall(env);
      asked := daemon.View();
      Calling(old(daemon.View()), CallStopForUpdate, env, asked);
      var settled := Await(t);
      result := if settled then Some(daemon.facts.settled[t]) else None;
    }

    /** `prepareUpdate` and its await; `None` when it never settles.  Only a request that ended well is answered as ready
        or blocked. */
    method PrepareUpdate() returns (answer: Option<Readiness>, t: Ticket)
      requires Quiescent()
      modifies this`shutdownRequested, daemon
      ensures Valid(daemon.View()) && Grows(old(daemon.facts), daemon.facts)
      ensures old(shutdownRequested) ==> shutdownRequested
      ensures answer.Some? ==> Quiescent() && t == old(daemon.facts).nextTicket && t in daemon.facts.settled
      ensures answer.Some? && answer.value != NotPrepared ==> daemon.facts.settled[t] == Resolved
    {
      var env: Env := *;
      UpdateCallWaits(daemon.View(), env);
      t := daemon.OnUpdateCall(env);
      var settled := Await(t);
      if !settled {
        return None, t;
      }
      var told: Readiness := *;
      answer := Some(if daemon.facts.settled[t] == Resolved then told else NotPrepared);
    }

    // -- the update service

    method Refresh() returns (ok: bool)
      modifies this`shown, manager`faulted
      ensures manager.faulted == (old(manager.faulted) || !ok)
      ensures if ok then ShowsStored() else shown == old(shown)
    {
      var read := manager.Read();
      ok := read.Some?;
      if ok {
        shown := read;
      }
    }

    /** `setTransientPhase`: what is shown until the next refresh. */
    method SetTransientPhase(phase: UpdateManager.Phase)
      modifies this`shown
      ensures shown == if old(shown).Some? then Some(old(shown).value.(error := None, phase := phase)) else None
    {
      if shown.Some? {
        shown := Some(shown.value.(error := None, phase := phase));
      }
    }

    /** `selectManager`: another channel gets a manager of its own over the same state file. */
    method SelectManager(channel: string) returns (ok: bool)
      modifies this`manager, this`shown
      ensures !ok ==> manager.faulted
      ensures manager.build == old(manager).build.(channel := channel)
      ensures manager == old(manager) || fresh(manager)
      ensures manager.SaysApplying() ==> old(manager.SaysApplying())
      ensures old(manager.AllConsistent() && manager.OffersNewer()) ==> manager.AllConsistent() && manager.OffersNewer()
      ensures old(manager).build.channel == channel ==> manager == old(manager) && ok && shown == old(shown)
      ensures ok && manager != old(manager) ==> ShowsStored()
      ensures !ok ==> shown == old(shown)
    {
      if manager.build.channel == channel {
        return true;
      }
      manager := new UpdateManager.UpdateManager(manager.build.(channel := channel), manager.stored, manager.files);
      var state, complete := manager.ReconcileInstalledVersion();
      ok := state.Some?;
      if ok {
        shown := state;
      }
    }

    /** The first half of `stageAvailable`: the manager of the channel and its state. */
    method ReadUpdate(version: Option<string>, channel: string) returns (ok: bool)
      modifies this`manager, this`shown, manager`faulted
      ensures manager.build == old(manager).build.(channel := channel)
      ensures old(manager).build.channel == channel ==>
                && manager == old(manager) && (old(manager.faulted) ==> manager.faulted)
                && manager.stored == old(manager.stored) && manager.files == old(manager.files)
      ensures !ok ==> manager.faulted || (ShowsStored() && version.Some? && version != shown.value.targetVersion)
      ensures manager == old(manager) || fresh(manager)
      ensures manager.SaysApplying() ==> old(manager.SaysApplying())
      ensures old(manager.AllConsistent() && manager.OffersNewer()) ==> manager.AllConsistent() && manager.OffersNewer()
      ensures ok ==> ShowsStored() && (version.None? || version == shown.value.targetVersion)
    {
      ok := SelectManager(channel);
      if ok {
        ok := Refresh();
      }
      if ok {
        ok := version.None? || version == shown.value.targetVersion;
      }
    }

    /** The second half: download what is available; in the end something must be staged. */
    method StageUpdate(sent: UpdateManager.Transmission) returns (ok: bool)
      requires ShowsStored()
      modifies this`shown, manager
      ensures old(manager.faulted) ==> manager.faulted
      ensures old(manager.stored.Some? && Stageable(manager, sent)) ==> ok || manager.faulted
      ensures manager.SaysApplying() ==> old(manager.SaysApplying())
      ensures old(manager.AllConsistent() && manager.OffersNewer()) ==> manager.AllConsistent() && manager.OffersNewer()
      ensures ok ==> manager.stored.Some? && manager.stored.value.phase == UpdateManager.Staged
    {
      if shown.value.phase == UpdateManager.Available {
        ok := DownloadUpdate(sent);
        if !ok {
          return;
        }
      }
      ok := shown.value.phase == UpdateManager.Staged;
    }

    /** The download of the manager, and what is shown then; false when either fails. */
    method DownloadUpdate(sent: UpdateManager.Transmission) returns (ok: bool)
      modifies this`shown, manager
      ensures old(manager.faulted) ==> manager.faulted
      ensures ok ==> ShowsStored()
      ensures ShowsStored() || (old(shown).None? && shown.None?) || (shown.Some? && shown.value.phase == UpdateManager.Downloading)
      ensures old(manager.stored.Some? && manager.Downloadable(manager.stored.value)
                  && manager.Obtainable(manager.stored.value, manager.files, sent)) ==>
                manager.faulted || (ok && manager.stored.Some? && manager.stored.value.phase == UpdateManager.Staged)
      ensures manager.SaysApplying() ==> old(manager.SaysApplying())
      ensures old(manager.AllConsistent() && manager.OffersNewer()) ==> manager.AllConsistent() && manager.OffersNewer()
    {
      SetTransientPhase(UpdateManager.Downloading);
      var downloaded := manager.DownloadAvailableUpdate(sent);
      ok := Refresh();
      ok := ok && downloaded != UpdateManager.DownloadError;
    }

    /** `stageAvailable`.  Without a fault an update of the channel at hand that is staged, or can be, is staged. */
    method StageAvailable(version: Option<string>, channel: string, sent: UpdateManager.Transmission) returns (ok: bool)
      requires Quiescent()
      modifies this, daemon, manager
      ensures manager == old(manager) || fresh(manager)
      ensures Quiescent() && Grows(old(daemon.facts), daemon.facts) && launched == old(launched)
      ensures old(shutdownRequested) ==> shutdownRequested
      ensures manager.SaysApplying() ==> old(manager.SaysApplying())
      ensures old(manager.AllConsistent() && manager.OffersNewer()) ==> manager.AllConsistent() && manager.OffersNewer()
      ensures ok ==> manager.stored.Some? && manager.stored.value.phase == UpdateManager.Staged
      ensures supported && old(manager).build.channel == channel && old(manager.stored.Some? && Stageable(manager, sent))
              && (version.Some? ==> version == old(manager.stored).value.targetVersion) ==>
                ok || manager.faulted
    {
      ok := false;
      if supported {
        ok := ReadUpdate(version, channel);
        if ok {
          ok := StageUpdate(sent);
        }
      }
      Elapse();
    }

    /** What is shown is the stored state. */
    predicate ShowsStored()
      reads this, manager
    {
      shown.Some? && if manager.stored.Some? then shown == manager.stored else shown.value.phase == UpdateManager.Idle
    }

    /** The update is staged, or is available and can be had. */
    predicate Stageable(manager: UpdateManager.UpdateManager, sent: UpdateManager.Transmission)
      requires manager.stored.Some?
      reads manager
    {
      var state := manager.stored.value;
      || state.phase == UpdateManager.Staged
      || (manager.Downloadable(state) && manager.Obtainable(state, manager.files, sent))
    }

    /** `prepareApply` of the service: `None` when it throws, also for a failed refresh after the write.  A failed
        refresh leaves the host showing an apply, also when none was written. */
    method PrepareApply() returns (handoff: Option<UpdateManager.Handoff>)
      modifies this`shown, manager
      ensures handoff.None? ==> manager.faulted || old(manager.stored).None? || !manager.Applicable(old(manager.stored).value, manager.files)
      ensures manager.files == old(manager.files)
      ensures old(manager.faulted) ==> manager.faulted
      ensures handoff.Some? ==> ShowsStored()
      ensures ShowsStored() || (old(shown).None? && shown.None?) || (shown.Some? && shown.value.phase == UpdateManager.Applying)
      ensures old(manager.AllConsistent() && manager.OffersNewer()) ==> manager.AllConsistent() && manager.OffersNewer()
      ensures handoff.Some? ==>
                && manager.SaysApplying()
                && manager.stored.value.artifact == Some(handoff.value.artifact)
                && manager.stored.value.stagedPath == Some(handoff.value.installerPath)
                && manager.stored.value.targetVersion == Some(handoff.value.targetVersion)
                && UpdateManager.FileMatches(manager.files, handoff.value.installerPath, handoff.value.artifact, manager.build.machine.hash)
    {
      SetTransientPhase(UpdateManager.Applying);
      handoff := manager.PrepareApply();
      var ok := Refresh();
      if !ok {
        handoff := None;
      }
    }

    /** `launchApply`: a launch that fails is recorded. */
    method LaunchApply(handoff: UpdateManager.Handoff) returns (ok: bool)
      requires !shutdownRequested
      modifies this`shown, this`faulted, this`launched, manager
      ensures faulted == (old(faulted) || !ok)
      ensures launched == if ok then old(launched) + [handoff] else old(launched)
      ensures if ok then shown == old(shown) else ShowsStored() || manager.faulted
      ensures old(manager.AllConsistent() && manager.OffersNewer()) ==> manager.AllConsistent() && manager.OffersNewer()
      ensures ok ==> manager.stored == old(manager.stored) && manager.files == old(manager.files)
      ensures old(manager.faulted) ==> manager.faulted
    {
      ok := *;
      faulted := faulted || !ok;
      if ok {
        launched := launched + [handoff];
      } else {
        var code: string := *;
        var recorded := manager.RecordApplyLaunchFailure(code);
        if recorded {
          var refreshed := Refresh();
        }
      }
    }

    // -- applyUpdate

    /** `abortApply`; false when the write fails. */
    method AbortApply() returns (written: bool)
      modifies this`shown, manager
      ensures old(manager.AllConsistent() && manager.OffersNewer()) ==> manager.AllConsistent() && manager.OffersNewer()
      ensures if written then !manager.SaysApplying() else manager.stored == old(manager.stored)
      ensures if written then ShowsStored() || manager.faulted else manager.faulted && shown == old(shown)
      ensures old(manager.faulted) ==> manager.faulted
    {
      var code: string := *;
      written := manager.RecordApplyLaunchFailure(code);
      if written {
        var refreshed := Refresh();
      }
    }

    /** Stop the daemon unless it is stopped, and start it again. */
    method RestartDaemon(daemonStopped: bool) returns (alive: bool, recovery: Option<Recovery>)
      requires Quiescent() && !shutdownRequested
      modifies this`shutdownRequested, daemon
      ensures alive ==> Quiescent() && recovery.Some?
      ensures old(shutdownRequested) ==> shutdownRequested
      ensures recovery.Some? ==> Recovered(recovery.value, daemonStopped)
    {
      var stop: Option<(Ticket, Host, Host)> := None;
      if !daemonStopped {
        var before := daemon.View();
        var result, t, asked := StopForUpdate();
        if result.None? {
          return false, None;
        }
        stop := Some((t, before, asked));
      }
      var env: Env, stopped := *, daemon.View();
      StartCallWants(stopped, env);
      var start := daemon.OnStartCall(false, env);
      Calling(stopped, CallStart(false), env, daemon.View());
      recovery := Some(Recovery(stop, start, stopped, daemon.View()));
      alive := Await(start);
    }

    /** The `catch` block: undo the apply transition, and bring the daemon back. */
    method Recover(transition: bool, recoveryRequired: bool, daemonStopped: bool, account: Account)
      returns (outcome: Outcome, end: Account)
      requires Quiescent() && account.abort.None? && account.recovery.None?
      modifies this`shown, this`shutdownRequested, daemon, manager
      ensures outcome in {Answered, Interrupted} && (outcome == Answered ==> Quiescent())
      ensures old(shutdownRequested) ==> shutdownRequested
      ensures old(manager.faulted) ==> manager.faulted
      ensures old(manager.AllConsistent() && manager.OffersNewer()) ==> manager.AllConsistent() && manager.OffersNewer()
      ensures end == account.(abort := end.abort, recovery := end.recovery) && (end.abort.Some? <==> transition)
      ensures if Written(end) then !manager.SaysApplying() else manager.stored == old(manager.stored)
      ensures Unwritten(end) ==> manager.faulted
      ensures outcome == Answered && recoveryRequired ==> end.recovery.Some? || shutdownRequested
      ensures end.recovery.Some? ==> recoveryRequired && !old(shutdownRequested) && Recovered(end.recovery.value, daemonStopped)
    {
      end := account;
      if transition {
        var written := AbortApply();
        end := end.(abort := Some(written));
      }
      outcome, end := BringBack(recoveryRequired, daemonStopped, end);
    }

    /** The daemon is brought back when it must, unless the host is to shut down. */
    method BringBack(recoveryRequired: bool, daemonStopped: bool, account: Account) returns (outcome: Outcome, end: Account)
      requires Quiescent() && account.recovery.None?
      modifies this`shutdownRequested, daemon
      ensures outcome in {Answered, Interrupted} && (outcome == Answered ==> Quiescent())
      ensures old(shutdownRequested) ==> shutdownRequested
      ensures end == account.(recovery := end.recovery)
      ensures outcome == Answered && recoveryRequired ==> end.recovery.Some? || shutdownRequested
      ensures end.recovery.Some? ==> recoveryRequired && !old(shutdownRequested) && Recovered(end.recovery.value, daemonStopped)
    {
      end := account;
      Elapse();
      outcome := Answered;
      if recoveryRequired && !shutdownRequested {
        var alive, recovery := RestartDaemon(daemonStopped);
        end := end.(recovery := recovery);
        outcome := if alive then Answered else Interrupted;
      }
    }

    /** `applyUpdate`. */
    method ApplyUpdate(version: Option<string>, channel: string, sent: UpdateManager.Transmission)
      returns (outcome: Outcome, account: Account)
      requires Quiescent()
      modifies this, daemon, manager
      ensures manager == old(manager) || fresh(manager)
      ensures outcome != Interrupted ==> Quiescent()
      ensures old(manager.AllConsistent() && manager.OffersNewer()) ==> manager.AllConsistent() && manager.OffersNewer()
      // an update of the channel at hand that is staged, or can be had, is staged without a fault
      ensures supported && old(manager).build.channel == channel && old(manager.stored.Some? && Stageable(manager, sent))
              && (version.Some? ==> version == old(manager.stored).value.targetVersion) ==>
                account.staged || manager.faulted
      ensures account.refused ==> faulted
      // the daemon is asked when an update is staged, and its answer heeded
      ensures account.answer.None? && outcome == Answered ==> !account.staged || shutdownRequested
      ensures account.answer.Some? && account.answer.value.0 == Blocked ==> daemon.View() == account.answer.value.1
      ensures Heeds(account, outcome, shutdownRequested) && Transits(account, outcome, shutdownRequested)
      ensures launched == old(launched) + Launches(account)
      // the installer gets the verified file of the state, which says so, after the daemon ended well
      ensures account.launch.Some? ==>
                && shutdownRequested && manager.SaysApplying() && account.stop.Some?
                && HandsOver(account.launch.value.1, manager)
                && (!account.stop.value.1.restartTimer ==> Idle(account.launch.value.0))
      // nothing but a fault keeps a stopped daemon's update from being handed over
      ensures old(manager.AllConsistent() && manager.OffersNewer()) && account.abort.Some? && account.handoff.None? ==> manager.faulted
      // a run that fails leaves no apply behind, unless the abort could not be written
      ensures outcome == Answered && !Unwritten(account) ==> (manager.SaysApplying() ==> old(manager.SaysApplying()))
      ensures outcome == Answered && Written(account) ==> !manager.SaysApplying()
      ensures Unwritten(account) ==> manager.faulted
    {
      account := NOTHING;
      outcome := Answered;
      var staged := StageAvailable(version, channel, sent);
      account := account.(staged := staged);
      if !staged || shutdownRequested {
        return;
      }
      outcome, account := AskDaemon(account);
    }

    /** The rest of `applyUpdate` once an update is staged. */
    method AskDaemon(staged: Account) returns (outcome: Outcome, account: Account)
      requires Quiescent() && manager.stored.Some? && manager.stored.value.phase == UpdateManager.Staged && !shutdownRequested
      requires staged == NOTHING.(staged := true)
      modifies this`shown, this`shutdownRequested, this`faulted, this`launched, daemon, manager
      ensures account.staged && (old(manager.faulted) ==> manager.faulted)
      ensures outcome != Interrupted ==> Quiescent()
      ensures old(manager.AllConsistent() && manager.OffersNewer()) ==> manager.AllConsistent() && manager.OffersNewer()
      ensures account.refused ==> faulted
      ensures account.answer.None? ==> outcome == Interrupted
      ensures account.answer.Some? && account.answer.value.0 == Blocked ==> daemon.View() == account.answer.value.1
      ensures Heeds(account, outcome, shutdownRequested) && Transits(account, outcome, shutdownRequested)
      ensures launched == old(launched) + Launches(account)
      ensures account.launch.Some? ==>
                && shutdownRequested && manager.SaysApplying() && account.stop.Some?
                && HandsOver(account.launch.value.1, manager)
                && (!account.stop.value.1.restartTimer ==> Idle(account.launch.value.0))
      ensures old(manager.AllConsistent()) && account.abort.Some? && account.handoff.None? ==> manager.faulted
      ensures outcome == Answered && !Unwritten(account) ==> (manager.SaysApplying() ==> old(manager.SaysApplying()))
      ensures outcome == Answered && Written(account) ==> !manager.SaysApplying()
      ensures Unwritten(account) ==> manager.faulted
    {
      account := staged;
      var readiness, t := PrepareUpdate();
      if readiness.None? {
        return Interrupted, account;
      }
      account := account.(answer := Some((readiness.value, daemon.View())));
      match readiness.value {
        case Blocked => outcome := Answered;
        case NotPrepared => outcome, account := Recover(false, true, false, account);
        case Prepared => outcome, account := StopAndLaunch(account);
      }
    }

    /** The rest of `applyUpdate` once the daemon says it is ready. */
    method StopAndLaunch(ready: Account) returns (outcome: Outcome, account: Account)
      requires Quiescent() && manager.stored.Some? && manager.stored.value.phase == UpdateManager.Staged
      requires Untouched(ready) && !ready.refused && ready.answer == Some((Prepared, daemon.View()))
      modifies this`shown, this`shutdownRequested, this`faulted, this`launched, daemon, manager
      ensures old(manager.faulted) ==> manager.faulted
      ensures account.refused ==> faulted
      ensures outcome != Interrupted ==> Quiescent()
      ensures old(manager.AllConsistent() && manager.OffersNewer()) ==> manager.AllConsistent() && manager.OffersNewer()
      ensures account.answer == ready.answer && account.staged == ready.staged
      ensures Heeds(account, outcome, shutdownRequested) && Transits(account, outcome, shutdownRequested)
      ensures launched == old(launched) + Launches(account)
      ensures account.launch.Some? ==>
                && shutdownRequested && manager.SaysApplying() && account.stop.Some?
                && HandsOver(account.launch.value.1, manager)
                && (!account.stop.value.1.restartTimer ==> Idle(account.launch.value.0))
      ensures old(manager.AllConsistent()) && account.abort.Some? && account.handoff.None? ==> manager.faulted
      ensures outcome == Answered && !Unwritten(account) ==> (manager.SaysApplying() ==> old(manager.SaysApplying()))
      ensures outcome == Answered && Written(account) ==> !manager.SaysApplying()
      ensures Unwritten(account) ==> manager.faulted
    {
      account := ready;
      var result, t, asked := StopForUpdate();
      account := account.(asked := Some((t, asked)));
      if result.None? {
        return Interrupted, account;
      }
      account := account.(stop := Some((result.value, daemon.View())));
      if result == Some(Rejected) {
        outcome, account := Recover(false, true, false, account);
      } else {
        outcome, account := Transit(account);
      }
    }

    /** The rest of `applyUpdate` once the daemon has stopped. */
    method Transit(stopped: Account) returns (outcome: Outcome, account: Account)
      requires Quiescent() && manager.stored.Some? && manager.stored.value.phase == UpdateManager.Staged
      requires stopped.asked.Some? && stopped.stop == Some((Resolved, daemon.View()))
      requires EndedWell(daemon.View(), stopped.asked.value.0)
      requires stopped.handoff.None? && stopped.launch.None? && stopped.abort.None? && stopped.recovery.None?
      modifies this`shown, this`shutdownRequested, this`faulted, this`launched, daemon, manager
      ensures old(manager.faulted) ==> manager.faulted
      ensures account.refused && !stopped.refused ==> faulted
      ensures outcome != Interrupted ==> Quiescent()
      ensures old(manager.AllConsistent() && manager.OffersNewer()) ==> manager.AllConsistent() && manager.OffersNewer()
      ensures account == stopped.(handoff := account.handoff, refused := account.refused, launch := account.launch,
                                  abort := account.abort, recovery := account.recovery)
      ensures Transits(account, outcome, shutdownRequested)
      ensures old(shutdownRequested) ==> account.handoff.None? && account.launch.None? && account.recovery.None?
      ensures launched == old(launched) + Launches(account)
      ensures outcome == Answered ==> account.recovery.Some? || shutdownRequested
      ensures account.recovery.Some? ==> Recovered(account.recovery.value, true)
      ensures account.launch.Some? ==>
                && shutdownRequested && manager.SaysApplying() && HandsOver(account.launch.value.1, manager)
                && (!stopped.stop.value.1.restartTimer ==> Idle(account.launch.value.0))
      ensures old(manager.AllConsistent()) && account.abort.Some? && account.handoff.None? ==> manager.faulted
      ensures outcome == Answered && !Unwritten(account) ==> (manager.SaysApplying() ==> old(manager.SaysApplying()))
      ensures outcome == Answered && Written(account) ==> !manager.SaysApplying()
      ensures Unwritten(account) ==> manager.faulted
    {
      account := stopped;
      if shutdownRequested {
        outcome, account := Recover(false, true, true, account);
        return;
      }
      var handoff, refused, launch := Launch();
      account := account.(handoff := handoff, refused := refused, launch := launch);
      if launch.Some? {
        return Launched, account;
      }
      outcome, account := Recover(true, true, true, account);
    }

    /** `prepareApply` and `launchApply`: what was handed over, whether the installer could not be launched, and the
        supervisor at the launch. */
    method Launch() returns (handoff: Option<UpdateManager.Handoff>, refused: bool, launch: Option<(Host, UpdateManager.Handoff)>)
      requires Quiescent()
      modifies this`shown, this`shutdownRequested, this`faulted, this`launched, daemon, manager
      ensures Quiescent()
      ensures old(manager.faulted) ==> manager.faulted
      ensures old(manager.AllConsistent() && manager.OffersNewer()) ==> manager.AllConsistent() && manager.OffersNewer()
      ensures handoff.None? ==>
                || manager.faulted || old(manager.stored).None?
                || !manager.Applicable(old(manager.stored).value, old(manager.files))
      ensures launch.Some? ==> shutdownRequested && handoff == Some(launch.value.1) && HandsOver(launch.value.1, manager)
      ensures launch.None? ==> handoff.None? || refused || shutdownRequested
      ensures launched == old(launched) + if launch.Some? then [launch.value.1] else []
      ensures old(faulted) || refused ==> faulted
      ensures launch.Some? && old(Idle(daemon.View())) ==> Idle(launch.value.0)
    {
      handoff := PrepareApply();
      Elapse();
      refused, launch := false, None;
      if handoff.Some? && !shutdownRequested {
        var h := daemon.View();
        var ok := LaunchApply(handoff.value);
        refused := !ok;
        if ok {
          shutdownRequested := true;
          launch := Some((h, handoff.value));
        }
      }
    }

    /** `execute` refuses everything during a shutdown, and the daemon's requests while an update applies. */
    predicate Refuses(request: Request)
      reads this
    {
      shutdownRequested ||
      (shown.Some? && shown.value.phase == UpdateManager.Applying && (request.DaemonStart? || request.DaemonStop? || request.DaemonRestart?))
    }

    /** One request of the queue: the next one begins only when it has returned. */
    method Execute(request: Request) returns (outcome: Outcome, done: Done)
      requires Quiescent()
      modifies this, daemon, manager
      ensures manager == old(manager) || fresh(manager)
      ensures outcome != Interrupted ==> Quiescent()
      ensures old(Refuses(request)) ==>
                && outcome == Answered && done == Refused && daemon.View() == old(daemon.View())
                && manager == old(manager) && manager.stored == old(manager.stored) && manager.files == old(manager.files)
      ensures outcome == Launched ==> forall later: Request :: Refuses(later)
      // an installer is launched only by an apply that says so
      ensures launched == old(launched) + if done.Applied? then Launches(done.account) else []
      ensures launched != old(launched) ==> outcome == Launched && shutdownRequested && !old(shutdownRequested)
      ensures old(shutdownRequested) ==> shutdownRequested
      ensures old(manager.AllConsistent() && manager.OffersNewer()) ==> manager.AllConsistent() && manager.OffersNewer()
      // while the host neither shuts down nor shows an apply, a request is done
      ensures !old(shutdownRequested) && !(old(shown).Some? && old(shown).value.phase == UpdateManager.Applying) ==> done != Refused
      ensures done != Refused ==> match request
                case UpdateApply(version, channel, sent) =>
                  && done.Applied? && Heeds(done.account, outcome, shutdownRequested) && Transits(done.account, outcome, shutdownRequested)
                  && (supported && old(manager).build.channel == channel && old(manager.stored.Some? && Stageable(manager, sent))
                      && (version.Some? ==> version == old(manager.stored).value.targetVersion) ==>
                        done.account.staged || manager.faulted)
                case UpdateCheck(channel, response) =>
                  done == Checked && (supported && response.Received? ==> manager.faulted || ShowsChecked(response.manifest))
                case _ =>
                  && done.Called? && (done.after.None? ==> faulted)
                  && (done.after.Some? ==>
                        Calls(old(daemon.View()), CallOf(request), done.after.value) && LeavesWish(request, done.after.value))
    {
      if Refuses(request) {
        return Answered, Refused;
      }
      match request {
        case UpdateApply(version, channel, sent) =>
          var account: Account;
          outcome, account := ApplyUpdate(version, channel, sent);
          done := Applied(account);
        case UpdateCheck(channel, response) =>
          outcome := CheckUpdate(channel, response);
          done := Checked;
        case _ =>
          var called: Option<Host>;
          outcome, called := CallDaemon(request);
          done := Called(called);
      }
    }

    /** The queue: any requests, one after the other, until the host dies or waits forever. */
    method Serve(requests: seq<Request>)
      requires Quiescent() && manager.AllConsistent() && manager.OffersNewer()
      modifies this, daemon, manager
      ensures manager == old(manager) || fresh(manager)
      ensures manager.AllConsistent() && manager.OffersNewer()
      // over the whole queue at most one installer is launched
      ensures |launched| <= |old(launched)| + 1
    {
      for i := 0 to |requests|
        invariant Quiescent() && manager.AllConsistent() && manager.OffersNewer()
        invariant manager == old(manager) || fresh(manager)
        invariant |launched| <= |old(launched)| + if shutdownRequested then 1 else 0
      {
        var outcome, done := Execute(requests[i]);
        if outcome == Interrupted {
          return;
        }
      }
    }

    /** `check`. */
    method CheckUpdate(channel: string, response: UpdateManager.Response) returns (outcome: Outcome)
      requires Quiescent()
      modifies this, daemon, manager
      ensures manager == old(manager) || fresh(manager)
      ensures Quiescent() && outcome == Answered && launched == old(launched) && (old(shutdownRequested) ==> shutdownRequested)
      ensures old(manager.AllConsistent() && manager.OffersNewer()) ==> manager.AllConsistent() && manager.OffersNewer()
      ensures manager.build == old(manager).build.(channel := if supported then channel else manager.build.channel)
      ensures supported && response.Received? ==> manager.faulted || ShowsChecked(response.manifest)
    {
      outcome := Answered;
      if supported {
        var ok := ReadUpdate(None, channel);
        if ok {
          CheckManager(response);
        }
      }
      Elapse();
    }

    /** What is shown after a check without a fault: the update offered, that there is none, or the failure. */
    predicate ShowsChecked(manifest: UpdateManager.Manifest)
      reads this, manager
    {
      && shown.Some? && shown == manager.stored
      && shown.value.phase == if !manager.Acceptable(manifest) then UpdateManager.Failed
                              else if UpdateManager.Newer(manifest.version, manager.build.currentVersion) then UpdateManager.Available
                              else if Versions.Compare(manifest.version, manager.build.currentVersion) == Some(0) then UpdateManager.Idle
                              else UpdateManager.Failed
    }

    /** `checkForUpdate` of the manager, and what is shown then. */
    method CheckManager(response: UpdateManager.Response)
      modifies this`shown, manager
      ensures old(manager.AllConsistent() && manager.OffersNewer()) ==> manager.AllConsistent() && manager.OffersNewer()
      ensures ShowsStored() || (old(shown).None? && shown.None?) || (shown.Some? && shown.value.phase == UpdateManager.Checking)
      ensures response.Received? ==> manager.faulted || ShowsChecked(response.manifest)
    {
      SetTransientPhase(UpdateManager.Checking);
      var result := manager.CheckForUpdate(response);
      var refreshed := Refresh();
    }

    method MakeCall(request: Request, env: Env) returns (t: Ticket)
      requires Quiescent() && (request.DaemonStart? || request.DaemonStop? || request.DaemonRestart?)
      modifies daemon
      ensures daemon.View() == Step(old(daemon.View()), CallOf(request), env)
      ensures Valid(daemon.View()) && OnlyWaits(daemon.View(), t)
    {
      match request {
        case DaemonStart =>
          StartWaits(daemon.View(), env);
          t := daemon.OnStartCall(true, env);
        case DaemonStop =>
          StopWaits(daemon.View(), env);
          t := daemon.OnStopCall(env);
        case DaemonRestart =>
          RestartWaits(daemon.View(), env);
          t := daemon.OnRestartCall(env);
      }
    }

    /** `daemon.start`, `daemon.stop` and `daemon.restart`: `called` is the supervisor right after its call, `None`
        when the wish could not be persisted and nothing was done. */
    method CallDaemon(request: Request) returns (outcome: Outcome, called: Option<Host>)
      requires Quiescent() && (request.DaemonStart? || request.DaemonStop? || request.DaemonRestart?)
      modifies this`shutdownRequested, this`faulted, daemon
      ensures outcome in {Answered, Interrupted} && (outcome == Answered ==> Quiescent())
      ensures called.None? ==> outcome == Answered && daemon.View() == old(daemon.View()) && faulted
      ensures called.Some? ==>
                && Calls(old(daemon.View()), CallOf(request), called.value) && LeavesWish(request, called.value)
                && Grows(called.value.facts, daemon.facts)
      // a stop is final: until the next request no daemon is wanted and none is spawned
      ensures called.Some? && request.DaemonStop? ==>
                !daemon.desiredRunning && !daemon.restartTimer && daemon.facts.nextChild == old(daemon.facts.nextChild)
    {
      var env: Env, written: bool := *, *;
      faulted := faulted || !written;
      if !written {
        return Answered, None;
      }
      CallWishes(daemon.View(), request, env);
      var t := MakeCall(request, env);
      called := Some(daemon.View());
      assert Calls(old(daemon.View()), CallOf(request), called.value);
      var settled := Await(t);
      outcome := if settled then Answered else Interrupted;
    }
  }

  function CallOf(request: Request): Event
    requires request.DaemonStart? || request.DaemonStop? || request.DaemonRestart?
  {
    match request
    case DaemonStart => CallStart(true)
    case DaemonStop => CallStop
    case DaemonRestart => CallRestart
  }

  /** The wish for a daemon that a request leaves: start wants one and stop none; restart wants one at once without a
      child, and otherwise waits for the end of the child to want it again. */
  predicate LeavesWish(request: Request, after: Host) {
    match request
    case DaemonStart => after.desiredRunning
    case DaemonStop => !after.desiredRunning && !after.restartTimer && after.parked == []
    case DaemonRestart => after.desiredRunning || (after.child.Some? && exists call <- after.parked :: call.ParkedRestart?)
    case _ => true
  }

  lemma CallWishes(h: Host, request: Request, env: Env)
    requires Valid(h) && h.parked == [] && (request.DaemonStart? || request.DaemonStop? || request.DaemonRestart?)
    ensures var n := Step(h, CallOf(request), env);
            LeavesWish(request, n) && (request.DaemonStop? ==> Quiet(n) && n.facts.nextChild == h.facts.nextChild)
  {
    match request
    case DaemonStart =>
    case DaemonStop =>
      StopChildCalm(SetDesired(h, false), false, env);
    case DaemonRestart =>
      var stopped := StopChild(SetDesired(h, false), false, env).0;
      StopChildCalm(SetDesired(h, false), false, env);
      if stopped.stopPromise.Some? {
        assert ParkedRestart(stopped.facts.nextTicket) in OnCallRestart(h, env).parked;
      }
  }

  /** What the installer is handed is what the persisted state names, with the file as it was checked. */
  ghost predicate HandsOver(handoff: UpdateManager.Handoff, manager: UpdateManager.UpdateManager)
    reads manager
  {
    && manager.SaysApplying()
    && manager.stored.value.artifact == Some(handoff.artifact)
    && manager.stored.value.stagedPath == Some(handoff.installerPath)
    && manager.stored.value.targetVersion == Some(handoff.targetVersion)
    && UpdateManager.FileMatches(manager.files, handoff.installerPath, handoff.artifact, manager.build.machine.hash)
  }

  /** The stop request `t` ended well and there is no child: none was there to stop, or the one that was has
      acknowledged the stop, was never killed and exited cleanly. */
  ghost predicate EndedWell(h: Host, t: Ticket) {
    && Valid(h) && h.child.None?
    && t in h.facts.settled && h.facts.settled[t] == Resolved
    && (t in h.facts.stopRequests ==> StopWasClean(h.facts, t))
  }

  /** The supervisor after a recovering start: the daemon is wanted, and lives unless it could not be spawned. */
  ghost predicate Restarted(h: Host, t: Ticket) {
    Valid(h) && h.desiredRunning && (h.child.Some? || (t in h.facts.settled && h.facts.settled[t] == Rejected))
  }
}
