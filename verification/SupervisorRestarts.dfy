/** When a daemon that has ended comes back (apps/host/src/daemonSupervisor.ts:196-208, 386-475): what an exit, a start
    that took too long and a stop leave behind, over any run in between. */
module SupervisorRestarts {
  import opened Wrappers
  import opened Supervisor
  import opened SupervisorRuns

  /** The child is gone and an automatic restart is due, one attempt further, unless the attempts are used up. */
  predicate RestartDue(h: Host, n: Host) {
    && n.child.None? && n.desiredRunning == h.desiredRunning
    && if h.restartAttempt < h.maximumRestarts then n.restartTimer && n.restartAttempt == h.restartAttempt + 1
       else !n.restartTimer && n.restartAttempt == h.restartAttempt
  }

  /** The child is gone, and it stays so until someone starts another. */
  predicate StaysDown(h: Host, n: Host) {
    n.child.None? && !n.restartTimer && n.restartAttempt == h.restartAttempt
  }

  /** The end of a child, by its exit or because it could not be spawned. */
  predicate EndsChild(e: Event, c: Child) {
    e == ChildError(c, true) || (e.ChildExit? && e.child == c)
  }

  lemma AbandonedRestarts(h: Host, stop: Option<Settlement>)
    ensures var n := Abandoned(h, stop);
            && n.child == h.child && n.desiredRunning == h.desiredRunning && n.restartTimer == h.restartTimer
            && n.restartAttempt == h.restartAttempt && n.maximumRestarts == h.maximumRestarts && n.parked == h.parked
  {
  }

  /** A child nobody stops, of a daemon that is wanted: its end makes a restart due. */
  lemma CrashRestarts(h: Host, c: Child, e: Event, env: Env)
    requires Valid(h) && h.child == Some(c) && EndsChild(e, c) && c !in h.stoppingChildren && h.desiredRunning
    ensures RestartDue(h, Step(h, e, env)) && Step(h, e, env).state == Degraded
  {
    AbandonedRestarts(if e.ChildExit? then Exited(h, c, e.exit) else Unspawned(h, c), None);
  }

  /** No child of a daemon that is not wanted is followed by another, while no call waits for its end. */
  lemma UnwantedStaysDown(h: Host, c: Child, e: Event, env: Env)
    requires Valid(h) && h.child == Some(c) && EndsChild(e, c) && !h.desiredRunning && h.parked == []
    ensures StaysDown(h, Step(h, e, env))
  {
    var stop := if h.stopWaiter.None? then None
                else Some(if e.ChildExit? then StopVerdict(h, h.stopWaiter.value, e.exit) else Rejected);
    AbandonedRestarts(if e.ChildExit? then Exited(h, c, e.exit) else Unspawned(h, c), stop);
  }

  /** A child whose stop is awaited and was not marked for a restart: its end makes none due, wanted or not. */
  lemma StoppedStaysDown(h: Host, c: Child, e: Event, env: Env)
    requires Valid(h) && h.child == Some(c) && EndsChild(e, c) && h.parked == []
    requires h.stopWaiter.Some? && c !in h.restartAfterExitChildren
    ensures StaysDown(h, Step(h, e, env))
  {
    assert WaitsFor(h, c) && c in h.stoppingChildren;
    var stop := Some(if e.ChildExit? then StopVerdict(h, h.stopWaiter.value, e.exit) else Rejected);
    AbandonedRestarts(if e.ChildExit? then Exited(h, c, e.exit) else Unspawned(h, c), stop);
  }

  /** A child marked for a restart: its end makes one due. */
  lemma MarkedRestarts(h: Host, c: Child, e: Event, env: Env)
    requires Valid(h) && h.child == Some(c) && EndsChild(e, c) && h.parked == []
    requires c in h.restartAfterExitChildren && h.desiredRunning
    ensures RestartDue(h, Step(h, e, env))
  {
    var stop := if h.stopWaiter.None? then None
                else Some(if e.ChildExit? then StopVerdict(h, h.stopWaiter.value, e.exit) else Rejected);
    AbandonedRestarts(if e.ChildExit? then Exited(h, c, e.exit) else Unspawned(h, c), stop);
  }

  /** A child that outlived the deadlines of its stop counts as crashed when it exits after all. */
  lemma OutlivedRestarts(h: Host, c: Child, exit: Exit, env: Env)
    requires Valid(h) && h.child == Some(c) && h.parked == [] && h.stopWaiter.None? && h.desiredRunning
    ensures RestartDue(h, Step(h, ChildExit(c, exit), env))
  {
    AbandonedRestarts(Exited(h, c, exit), None);
  }

  ghost predicate EndsStopWell(h: Host, n: Host) {
    h.stopPromise.Some? && h.stopPromise.value in n.facts.settled && n.facts.settled[h.stopPromise.value] == Resolved
  }

  /** The supervisor is stopped by an exit exactly when that ends a stop request well. */
  lemma ExitStops(h: Host, c: Child, exit: Exit, env: Env)
    requires Valid(h) && h.child == Some(c) && h.parked == []
    ensures var n := Step(h, ChildExit(c, exit), env); n.state == if EndsStopWell(h, n) then Stopped else Degraded
  {
    ExitSettles(h, c, exit, env);
    ExitState(h, c, exit, env);
  }

  lemma ExitState(h: Host, c: Child, exit: Exit, env: Env)
    requires Valid(h) && h.child == Some(c) && h.parked == []
    ensures OnExit(h, c, exit, env).state ==
            if h.stopWaiter.Some? && StopVerdict(h, h.stopWaiter.value, exit) == Resolved then Stopped else Degraded
  {
    AbandonedRestarts(Exited(h, c, exit), if h.stopWaiter.None? then None else Some(StopVerdict(h, h.stopWaiter.value, exit)));
  }

  /** What the end of child `c` means for the daemon when no call waits for it. */
  predicate RestartTold(h: Host, c: Child, n: Host) {
    h.parked == [] ==>
      && (h.desiredRunning && (c in h.restartAfterExitChildren || c !in h.stoppingChildren) ==> RestartDue(h, n))
      && (!h.desiredRunning || (h.stopWaiter.Some? && c !in h.restartAfterExitChildren) ==> StaysDown(h, n))
  }

  lemma EndTells(h: Host, c: Child, e: Event, env: Env)
    requires Valid(h) && h.child == Some(c) && EndsChild(e, c)
    ensures RestartTold(h, c, Step(h, e, env))
  {
    if h.parked == [] {
      if !h.desiredRunning {
        UnwantedStaysDown(h, c, e, env);
      } else if c in h.restartAfterExitChildren {
        MarkedRestarts(h, c, e, env);
      } else if c !in h.stoppingChildren {
        CrashRestarts(h, c, e, env);
      } else if h.stopWaiter.Some? {
        StoppedStaysDown(h, c, e, env);
      }
    }
  }

  /** What the exit of the live child leaves: it is recorded, the child gone, its waiters know, and so does the daemon. */
  ghost predicate ExitTold(h: Host, c: Child, exit: Exit, n: Host) {
    && n.child != Some(c) && c in n.facts.exits && n.facts.exits[c] == exit
    && WaitersSettled(h, if h.stopWaiter.Some? then Some(StopVerdict(h, h.stopWaiter.value, exit)) else None, n.facts.settled)
    && RestartTold(h, c, n)
  }

  lemma ExitIsStep(h: Host, c: Child, exit: Exit, env: Env)
    requires h.child == Some(c)
    ensures Step(h, ChildExit(c, exit), env) == OnExit(h, c, exit, env)
  {
  }

  lemma ExitTells(h: Host, c: Child, exit: Exit, env: Env)
    requires Valid(h) && h.child == Some(c)
    ensures ExitTold(h, c, exit, OnExit(h, c, exit, env))
  {
    ExitSettles(h, c, exit, env);
    ExitIsStep(h, c, exit, env);
    EndTells(h, c, ChildExit(c, exit), env);
  }

  /** And a child that could not be spawned. */
  ghost predicate SpawnErrorTold(h: Host, c: Child, n: Host) {
    && n.child != Some(c) && c in n.facts.neverSpawned
    && WaitersSettled(h, if h.stopWaiter.Some? then Some(Rejected) else None, n.facts.settled)
    && RestartTold(h, c, n)
  }

  lemma SpawnErrorIsStep(h: Host, c: Child, env: Env)
    requires h.child == Some(c)
    ensures Step(h, ChildError(c, true), env) == OnSpawnError(h, c, env)
  {
  }

  lemma SpawnErrorTells(h: Host, c: Child, env: Env)
    requires Valid(h) && h.child == Some(c)
    ensures SpawnErrorTold(h, c, OnSpawnError(h, c, env))
  {
    SpawnErrorSettles(h, c, env);
    SpawnErrorIsStep(h, c, env);
    EndTells(h, c, ChildError(c, true), env);
  }

  // ---- with calls that wait for the end

  /** The daemon lives, or will be started again. */
  predicate Comes(h: Host) {
    h.child.Some? || h.restartTimer
  }

  lemma ResumeOneComes(h: Host, call: Parked, how: Settlement, env: Env)
    requires Comes(h) && !env.spawnThrows
    ensures Comes(ResumeOne(h, call, how, env))
  {
  }

  lemma {:induction false} ResumeComes(h: Host, calls: seq<Parked>, how: Settlement, env: Env)
    requires Comes(h) && !env.spawnThrows
    ensures Comes(Resume(h, calls, how, env))
    decreases |calls|
  {
    if calls != [] {
      ResumeOneComes(h, calls[0], how, env);
      ResumeComes(ResumeOne(h, calls[0], how, env), calls[1..], how, env);
    }
  }

  /** Whatever calls wait for it: a wanted child that is marked, or that nobody stops, does not end without a restart
      or another child, unless the attempts are used up or spawning throws. */
  lemma WantedComesBack(h: Host, c: Child, e: Event, env: Env)
    requires Valid(h) && h.child == Some(c) && EndsChild(e, c) && h.desiredRunning && !env.spawnThrows
    requires (c in h.restartAfterExitChildren || c !in h.stoppingChildren) && h.restartAttempt < h.maximumRestarts
    ensures Comes(Step(h, e, env))
  {
    if e.ChildExit? {
      ExitComes(h, c, e.exit, env);
      ExitIsStep(h, c, e.exit, env);
    } else {
      SpawnErrorComes(h, c, env);
      SpawnErrorIsStep(h, c, env);
    }
  }

  lemma ExitComes(h: Host, c: Child, exit: Exit, env: Env)
    requires Valid(h) && h.child == Some(c) && h.desiredRunning && !env.spawnThrows
    requires (c in h.restartAfterExitChildren || c !in h.stoppingChildren) && h.restartAttempt < h.maximumRestarts
    ensures Comes(OnExit(h, c, exit, env))
  {
    var stop := if h.stopWaiter.None? then None else Some(StopVerdict(h, h.stopWaiter.value, exit));
    EndedComes(Exited(h, c, exit), stop, if stop == Some(Resolved) then Stopped else Degraded, env);
  }

  lemma SpawnErrorComes(h: Host, c: Child, env: Env)
    requires Valid(h) && h.child == Some(c) && h.desiredRunning && !env.spawnThrows
    requires (c in h.restartAfterExitChildren || c !in h.stoppingChildren) && h.restartAttempt < h.maximumRestarts
    ensures Comes(OnSpawnError(h, c, env))
  {
    EndedComes(Unspawned(h, c), if h.stopWaiter.None? then None else Some(Rejected), Degraded, env);
  }

  lemma EndedComes(gone: Host, stop: Option<Settlement>, state: DaemonState, env: Env)
    requires !env.spawnThrows && gone.restartAttempt < gone.maximumRestarts
    ensures var n := Ended(Abandoned(gone, stop), state, true);
            Comes(n) && (stop.Some? ==> Comes(Release(n, stop.value, env)))
  {
    AbandonedRestarts(gone, stop);
    if stop.Some? {
      var n := Ended(Abandoned(gone, stop), state, true);
      ResumeComes(n.(parked := []), InOrder(n.parked), stop.value, env);
    }
  }

  // ---- over runs

  /** What no event takes back: the marks for a restart, and the maximum. */
  ghost predicate Marks(h: Host, n: Host) {
    h.restartAfterExitChildren <= n.restartAfterExitChildren && n.maximumRestarts == h.maximumRestarts
  }

  lemma ResumeOneMarks(h: Host, call: Parked, how: Settlement, env: Env)
    ensures Marks(h, ResumeOne(h, call, how, env))
  {
  }

  lemma {:induction false} ResumeMarks(h: Host, calls: seq<Parked>, how: Settlement, env: Env)
    ensures Marks(h, Resume(h, calls, how, env))
    decreases |calls|
  {
    if calls != [] {
      ResumeOneMarks(h, calls[0], how, env);
      ResumeMarks(ResumeOne(h, calls[0], how, env), calls[1..], how, env);
    }
  }

  lemma ReleaseMarks(h: Host, how: Settlement, env: Env)
    ensures Marks(h, Release(h, how, env))
  {
    ResumeMarks(h.(parked := []), InOrder(h.parked), how, env);
  }

  lemma EndMarks(h: Host, c: Child, e: Event, env: Env)
    requires EndsChild(e, c) && h.child == Some(c)
    ensures Marks(h, Step(h, e, env))
  {
    if e.ChildExit? {
      var waited := c in h.stoppingChildren && WaitsFor(h, c);
      var how := if waited then StopVerdict(h, h.stopWaiter.value, e.exit) else Rejected;
      DepartedMarks(h, Exited(h, c, e.exit), if waited then Some(how) else None, env);
    } else {
      DepartedMarks(h, Unspawned(h, c), if WaitsFor(h, c) then Some(Rejected) else None, env);
    }
  }

  lemma DepartedMarks(h: Host, n: Host, stop: Option<Settlement>, env: Env)
    requires Marks(h, n)
    ensures forall state: DaemonState, restart: bool {:trigger Ended(Abandoned(n, stop), state, restart)} ::
              var m := Ended(Abandoned(n, stop), state, restart);
              Marks(h, if stop.Some? then Release(m, stop.value, env) else m)
  {
    forall state: DaemonState, restart: bool {:trigger Ended(Abandoned(n, stop), state, restart)}
      ensures var m := Ended(Abandoned(n, stop), state, restart);
              Marks(h, if stop.Some? then Release(m, stop.value, env) else m)
    {
      var m := Ended(Abandoned(n, stop), state, restart);
      assert Marks(h, m);
      if stop.Some? {
        ReleaseMarks(m, stop.value, env);
      }
    }
  }

  lemma StopChildMarks(h: Host, restartAfterExit: bool, env: Env)
    ensures Marks(h, StopChild(h, restartAfterExit, env).0)
  {
  }

  lemma StartMarks(h: Host, t: Ticket, resetAttempts: bool, env: Env)
    ensures Marks(h, Start(h, t, resetAttempts, env))
  {
  }

  lemma RestartMarks(h: Host, env: Env)
    ensures Marks(h, OnCallRestart(h, env))
  {
    var stopped := StopChild(SetDesired(h, false), false, env).0;
    StopChildMarks(SetDesired(h, false), false, env);
    StartMarks(Issue(stopped).(restartAttempt := 0), stopped.facts.nextTicket, true, env);
  }

  lemma CallMarks(h: Host, e: Event, env: Env)
    requires !External(e)
    ensures Marks(h, Step(h, e, env))
  {
    match e
    case CallStart(resetAttempts) => StartMarks(Issue(h), h.facts.nextTicket, resetAttempts, env);
    case CallStop => StopChildMarks(SetDesired(h, false), false, env);
    case CallStopForUpdate => StopChildMarks(h, false, env);
    case CallRestart => RestartMarks(h, env);
    case CallUpdate =>
  }

  lemma ChildMarks(h: Host, e: Event, env: Env)
    requires FromChild(e)
    ensures Marks(h, Step(h, e, env))
  {
    if e.ChildError? || e.ChildExit? {
      if h.child == Some(e.child) && EndsChild(e, e.child) {
        EndMarks(h, e.child, e, env);
      }
    }
  }

  lemma TimerMarks(h: Host, e: Event, env: Env)
    requires External(e) && !FromChild(e)
    ensures Marks(h, Step(h, e, env))
  {
    match e
    case ForceTimeout =>
      if h.stopWaiter.Some? && h.stopWaiter.value.forceTimer {
        ReleaseMarks(SettleStop(h, Rejected).(state := Degraded), Rejected, env);
      }
    case RestartTimer => StartMarks(Issue(h).(restartTimer := false), h.facts.nextTicket, false, env);
    case StartTimeout => StopChildMarks(FinishStart(h, Rejected).(state := Degraded), true, env);
    case _ =>
  }

  lemma StepMarks(h: Host, e: Event, env: Env)
    ensures Marks(h, Step(h, e, env))
  {
    if !External(e) {
      CallMarks(h, e, env);
    } else if FromChild(e) {
      ChildMarks(h, e, env);
    } else {
      TimerMarks(h, e, env);
    }
  }

  lemma {:induction false} RunMarks(h: Host, run: seq<Happening>)
    ensures Marks(h, Run(h, run))
    decreases |run|
  {
    if run != [] {
      StepMarks(h, run[0].event, run[0].env);
      RunMarks(Step(h, run[0].event, run[0].env), run[1..]);
    }
  }

  /** The child of a start that took too long is marked. */
  lemma LateIsMarked(h: Host, env: Env)
    requires Valid(h) && h.startWaiter.Some?
    ensures var late := Step(h, StartTimeout, env);
            Valid(late) && late.child == h.child && h.child.Some? && h.child.value in late.restartAfterExitChildren
  {
    StepValid(h, StartTimeout, env);
    StartTimeoutTells(h, env);
  }

  /** A child that is marked for a restart and stays: whatever happens until it ends, its end makes a restart due, if
      the daemon is still wanted and no call waits for it. */
  lemma MarkedRunRestarts(h: Host, run: seq<Happening>, c: Child, e: Event, env: Env)
    requires Valid(h) && c in h.restartAfterExitChildren
    requires var n := Run(h, run); n.child == Some(c) && EndsChild(e, c) && n.desiredRunning && n.parked == []
    ensures RestartDue(Run(h, run), Step(Run(h, run), e, env))
  {
    RunSafe(h, run);
    RunMarks(h, run);
    MarkedRestarts(Run(h, run), c, e, env);
  }

  /** So a start that took too long is made up for once its child has ended. */
  lemma LateStartRestarts(h: Host, env: Env, run: seq<Happening>, e: Event, last: Env)
    requires Valid(h) && h.startWaiter.Some?
    requires var n := Run(Step(h, StartTimeout, env), run);
             n.child == h.child && h.child.Some? && EndsChild(e, h.child.value) && n.desiredRunning && n.parked == []
    ensures var n := Run(Step(h, StartTimeout, env), run); RestartDue(n, Step(n, e, last))
  {
    LateIsMarked(h, env);
    MarkedRunRestarts(Step(h, StartTimeout, env), run, h.child.value, e, last);
  }
}
