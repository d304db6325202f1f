/** What the supervisor's invariant means for whole runs: a crash loop ends, and what a stop leaves possible. */
module SupervisorRuns {
  import opened Wrappers
  import opened Supervisor

  /** The part of the invariant that these results rest on. */
  ghost predicate Lean(h: Host) {
    && h.restartAttempt <= h.maximumRestarts
    && (h.stopPromise.Some? <==> h.stopWaiter.Some?)
    && (h.stopWaiter.Some? ==> h.child == Some(h.stopWaiter.value.child) && h.stopWaiter.value.child in h.stoppingChildren)
    && (h.restartTimer ==> h.child.None? && h.desiredRunning)
    && (h.parked != [] ==> h.stopPromise.Some?)
  }

  lemma ValidLean(h: Host)
    requires Valid(h)
    ensures Lean(h)
  {
  }

  // ---- most events neither spawn nor end a child

  ghost predicate Calm(h: Host, n: Host) {
    && n.child == h.child && n.parked == h.parked && n.facts.nextChild == h.facts.nextChild && n.facts.exits == h.facts.exits
    && n.maximumRestarts == h.maximumRestarts && n.restartAttempt == h.restartAttempt
    && (n.desiredRunning ==> h.desiredRunning) && (n.restartTimer ==> h.restartTimer)
    && h.forcedChildren <= n.forcedChildren
  }

  predicate CalmEvent(e: Event) {
    || e.CallStop? || e.CallStopForUpdate? || e.CallUpdate? || e.Ready? || e.StartupFailed? || e.StopAcknowledged?
    || e.UpdateAnswered? || (e.ChildError? && !e.spawnFailed) || e.StartTimeout? || e.StopTimeout? || e.UpdateTimeout? || e.Poll?
  }

  lemma RequestedCalm(h: Host, c: Child, restartAfterExit: bool)
    ensures Calm(h, MarkRestart(Requested(h, c), c, restartAfterExit))
  {
  }

  lemma StopChildCalm(h: Host, restartAfterExit: bool, env: Env)
    ensures Calm(h, StopChild(h, restartAfterExit, env).0)
  {
    if h.child.Some? {
      var n := MarkRestart(Requested(h, h.child.value), h.child.value, restartAfterExit);
      RequestedCalm(h, h.child.value, restartAfterExit);
      assert Calm(n, Force(n));
    }
  }

  lemma ReadyCalm(h: Host, c: Child)
    ensures Calm(h, OnReady(h, c))
  {
  }

  lemma FinishStartCalm(h: Host, how: Settlement)
    ensures Calm(h, FinishStart(h, how)) && FinishStart(h, how).startWaiter.None?
  {
  }

  lemma StartupFailedCalm(h: Host, c: Child, retryable: bool)
    ensures Calm(h, OnStartupFailed(h, c, retryable))
  {
    FinishStartCalm(h, Rejected);
  }

  lemma AnswerCalm(h: Host, u: Ticket, how: Settlement)
    ensures Calm(h, AnswerUpdate(h, u, how))
  {
  }

  lemma PollCalm(h: Host, t: Ticket)
    ensures Calm(h, OnPoll(h, t))
  {
  }

  lemma AcknowledgedCalm(h: Host, c: Child)
    ensures Calm(h, OnStopAcknowledged(h, c))
  {
  }

  lemma StopTimeoutCalm(h: Host)
    ensures Calm(h, OnStopTimeout(h))
  {
  }

  lemma UpdateCalm(h: Host, env: Env)
    ensures Calm(h, OnCallUpdate(h, env))
  {
  }

  lemma LiveErrorCalm(h: Host, c: Child)
    ensures Calm(h, OnLiveError(h, c))
  {
  }

  lemma StartTimeoutCalm(h: Host, env: Env)
    ensures Calm(h, OnStartTimeout(h, env))
  {
    if h.startWaiter.Some? {
      StopChildCalm(FinishStart(h, Rejected).(state := Degraded), true, env);
    }
  }

  lemma CalmStep(h: Host, e: Event, env: Env)
    requires CalmEvent(e)
    ensures Calm(h, Step(h, e, env))
  {
    match e
    case CallStop => StopChildCalm(SetDesired(h, false), false, env);
    case CallStopForUpdate => StopChildCalm(h, false, env);
    case CallUpdate => UpdateCalm(h, env);
    case Ready(c) => ReadyCalm(h, c);
    case StartupFailed(c, retryable) => StartupFailedCalm(h, c, retryable);
    case StartTimeout => StartTimeoutCalm(h, env);
    case StopTimeout => StopTimeoutCalm(h);
    case ChildError(c, _) => LiveErrorCalm(h, c);
    case StopAcknowledged(c) => AcknowledgedCalm(h, c);
    case UpdateAnswered(_, u) => AnswerCalm(h, u, Resolved);
    case UpdateTimeout(u) => AnswerCalm(h, u, Rejected);
    case Poll(t) => PollCalm(h, t);
  }

  /** What becomes of the waiters of a gone child changes nothing else. */
  lemma AbandonedCalm(h: Host, stop: Option<Settlement>)
    ensures Calm(h, Abandoned(h, stop)) && Abandoned(h, stop).stopPromise == if stop.Some? && h.stopWaiter.Some? then None else h.stopPromise
    ensures Abandoned(h, stop).startWaiter.None? && Abandoned(h, stop).state == h.state
    ensures Abandoned(h, stop).desiredRunning == h.desiredRunning && Abandoned(h, stop).restartTimer == h.restartTimer
  {
    var failed := FailUpdateWaiters(h);
    var stopped := if stop.Some? && failed.stopWaiter.Some? then SettleStop(failed, stop.value) else failed;
    assert Calm(h, stopped);
    FinishStartCalm(stopped, Rejected);
    assert FinishStart(stopped, Rejected).state == stopped.state;
  }

  // ---- a crash loop ends

  /** Events after which the automatic restarts count from zero again. */
  predicate Renews(e: Event) {
    e.CallStart? || e.CallRestart? || e.StableRunTimer?
  }

  function Renewals(run: seq<Happening>): nat {
    if run == [] then 0 else (if Renews(run[0].event) then 1 else 0) + Renewals(run[1..])
  }

  /** The children `calls` renewals allow: each one, and `m` automatic restarts. */
  function Share(calls: nat, m: nat): nat {
    if calls == 0 then 0 else m + 1 + Share(calls - 1, m)
  }

  lemma {:induction false} ShareIsProduct(calls: nat, m: nat)
    ensures Share(calls, m) == calls * (m + 1)
  {
    if calls > 0 {
      ShareIsProduct(calls - 1, m);
    }
  }

  /** The children spawned so far and those that may still be without a renewal. */
  function Budget(h: Host): int {
    h.facts.nextChild + h.maximumRestarts - h.restartAttempt + (if h.restartTimer then 1 else 0)
    + Share(|h.parked|, h.maximumRestarts)
  }

  /** `n` has at most `more` further children to spawn than `h` had. */
  ghost predicate Spends(h: Host, n: Host, more: int) {
    n.maximumRestarts == h.maximumRestarts && n.restartAttempt <= n.maximumRestarts && Budget(n) <= Budget(h) + more
  }

  lemma CalmSpends(h: Host, n: Host)
    requires Calm(h, n) && h.restartAttempt <= h.maximumRestarts
    ensures Spends(h, n, 0)
  {
  }

  lemma StartSpends(h: Host, t: Ticket, resetAttempts: bool, env: Env)
    requires h.restartAttempt <= h.maximumRestarts
    ensures Spends(h, Start(h, t, resetAttempts, env),
                   if resetAttempts || h.stopPromise.Some? then h.maximumRestarts + 1 else 1)
  {
  }

  lemma StartNowSpends(h: Host, t: Ticket, resetAttempts: bool, env: Env)
    requires h.restartAttempt <= h.maximumRestarts
    ensures var n := StartNow(h, t, resetAttempts, env);
            Spends(h, n, h.maximumRestarts + 1) && n.stopPromise == h.stopPromise && n.parked == h.parked
  {
  }

  lemma RestartNowSpends(h: Host, t: Ticket, env: Env)
    requires h.restartAttempt <= h.maximumRestarts && h.stopPromise.None?
    ensures var n := Start(h.(restartAttempt := 0), t, true, env);
            Spends(h, n, h.maximumRestarts + 1) && n.stopPromise == h.stopPromise && n.parked == h.parked
  {
  }

  lemma SettleSpends(h: Host, t: Ticket, how: Settlement)
    requires h.restartAttempt <= h.maximumRestarts
    ensures Spends(h, Settle(h, t, how), h.maximumRestarts + 1)
  {
  }

  lemma ResumeOneSpends(h: Host, call: Parked, how: Settlement, env: Env)
    requires h.restartAttempt <= h.maximumRestarts && h.stopPromise.None? && h.parked == []
    ensures var n := ResumeOne(h, call, how, env);
            Spends(h, n, h.maximumRestarts + 1) && n.stopPromise.None? && n.parked == []
  {
    SettleSpends(h, call.ticket, Rejected);
    match call
    case ParkedStart(t, resetAttempts) => StartNowSpends(h, t, resetAttempts, env);
    case ParkedRestart(t) => RestartNowSpends(h, t, env);
  }

  lemma SpendsTwice(h: Host, n: Host, m: Host, more: int, all: int)
    requires Spends(h, n, all - more) && Spends(n, m, more)
    ensures Spends(h, m, all)
  {
  }

  lemma {:induction false} ResumeSpends(h: Host, calls: seq<Parked>, how: Settlement, env: Env)
    requires h.restartAttempt <= h.maximumRestarts && h.stopPromise.None? && h.parked == []
    ensures Spends(h, Resume(h, calls, how, env), Share(|calls|, h.maximumRestarts))
    ensures Resume(h, calls, how, env).parked == []
    decreases |calls|
  {
    if calls != [] {
      var n := ResumeOne(h, calls[0], how, env);
      ResumeOneSpends(h, calls[0], how, env);
      ResumeSpends(n, calls[1..], how, env);
      SpendsTwice(h, n, Resume(h, calls, how, env), Share(|calls| - 1, h.maximumRestarts), Share(|calls|, h.maximumRestarts));
    }
  }

  lemma ReleaseSpends(h: Host, how: Settlement, env: Env)
    requires h.restartAttempt <= h.maximumRestarts && h.stopPromise.None?
    ensures Spends(h, Release(h, how, env), 0) && Release(h, how, env).parked == []
  {
    InOrderMembers(h.parked);
    ResumeSpends(h.(parked := []), InOrder(h.parked), how, env);
  }

  lemma DepartedSpends(h: Host, stop: Option<Settlement>, state: DaemonState, restart: bool, env: Env)
    requires h.restartAttempt <= h.maximumRestarts && !h.restartTimer
    requires h.stopWaiter.Some? == h.stopPromise.Some? == stop.Some?
    ensures var n := Ended(Abandoned(h, stop), state, restart);
            var m := if stop.Some? then Release(n, stop.value, env) else n;
            Spends(h, m, 0) && (m.parked == [] || m.parked == h.parked)
  {
    var n := Ended(Abandoned(h, stop), state, restart);
    AbandonedCalm(h, stop);
    assert Spends(h, n, 0);
    if stop.Some? {
      ReleaseSpends(n, stop.value, env);
      SpendsTwice(h, n, Release(n, stop.value, env), 0, 0);
    }
  }

  lemma RestartSpends(h: Host, env: Env)
    requires h.restartAttempt <= h.maximumRestarts
    ensures Spends(h, OnCallRestart(h, env), h.maximumRestarts + 1)
  {
    var stopped := StopChild(SetDesired(h, false), false, env).0;
    StopChildCalm(SetDesired(h, false), false, env);
    CalmSpends(h, stopped);
    if stopped.stopPromise.None? {
      var reset := Issue(stopped).(restartAttempt := 0);
      assert Spends(stopped, Start(reset, stopped.facts.nextTicket, true, env), h.maximumRestarts + 1);
    }
  }

  lemma ExitSpends(h: Host, c: Child, exit: Exit, env: Env)
    requires Lean(h) && h.child == Some(c)
    ensures Spends(h, OnExit(h, c, exit, env), 0)
    ensures OnExit(h, c, exit, env).parked == [] || OnExit(h, c, exit, env).parked == h.parked
  {
    var wasStopping, waited := c in h.stoppingChildren, c in h.stoppingChildren && WaitsFor(h, c);
    var how := if waited then StopVerdict(h, h.stopWaiter.value, exit) else Rejected;
    DepartedSpends(Exited(h, c, exit), if waited then Some(how) else None,
                   if wasStopping && how == Resolved then Stopped else Degraded,
                   h.desiredRunning && (!wasStopping || !waited || c in h.restartAfterExitChildren), env);
  }

  lemma SpawnErrorSpends(h: Host, c: Child, env: Env)
    requires Lean(h) && h.child == Some(c)
    ensures Spends(h, OnSpawnError(h, c, env), 0)
    ensures OnSpawnError(h, c, env).parked == [] || OnSpawnError(h, c, env).parked == h.parked
  {
    DepartedSpends(Unspawned(h, c), if WaitsFor(h, c) then Some(Rejected) else None, Degraded,
                   h.desiredRunning && (c !in h.stoppingChildren || c in h.restartAfterExitChildren), env);
  }

  lemma ForceTimeoutSpends(h: Host, env: Env)
    requires Lean(h)
    ensures Spends(h, OnForceTimeout(h, env), 0)
    ensures OnForceTimeout(h, env).parked == [] || OnForceTimeout(h, env).parked == h.parked
  {
    if h.stopWaiter.Some? && h.stopWaiter.value.forceTimer {
      var n := SettleStop(h, Rejected).(state := Degraded);
      assert Calm(h, n);
      ReleaseSpends(n, Rejected, env);
      SpendsTwice(h, n, Release(n, Rejected, env), 0, 0);
    }
  }

  lemma RestartTimerSpends(h: Host, env: Env)
    requires Lean(h)
    ensures Spends(h, OnRestartTimer(h, env), 0) && OnRestartTimer(h, env).parked == h.parked
  {
    if h.restartTimer {
      var n := Issue(h).(restartTimer := false);
      StartSpends(n, h.facts.nextTicket, false, env);
    }
  }

  lemma StepSpends(h: Host, e: Event, env: Env)
    requires Lean(h)
    ensures Spends(h, Step(h, e, env), if Renews(e) then h.maximumRestarts + 1 else 0)
  {
    match e
    case CallStart(resetAttempts) => StartSpends(Issue(h), h.facts.nextTicket, resetAttempts, env);
    case CallRestart => RestartSpends(h, env);
    case StableRunTimer =>
    case _ => ExternalSpends(h, e, env);
  }

  /** Events that are no calls, and stop calls, spawn no more than was due; and no call begins to wait. */
  lemma ExternalSpends(h: Host, e: Event, env: Env)
    requires Lean(h) && !Renews(e)
    ensures Spends(h, Step(h, e, env), 0)
    ensures Step(h, e, env).parked == [] || Step(h, e, env).parked == h.parked
  {
    if CalmEvent(e) {
      CalmStep(h, e, env);
      CalmSpends(h, Step(h, e, env));
    } else {
      match e
      case RestartTimer => RestartTimerSpends(h, env);
      case ChildExit(c, exit) => if h.child == Some(c) { ExitSpends(h, c, exit, env); }
      case ChildError(c, _) => if h.child == Some(c) { SpawnErrorSpends(h, c, env); }
      case ForceTimeout => ForceTimeoutSpends(h, env);
    }
  }

  lemma StepBounded(h: Host, e: Event, env: Env)
    requires Valid(h)
    ensures Valid(Step(h, e, env)) && Spends(h, Step(h, e, env), if Renews(e) then h.maximumRestarts + 1 else 0)
  {
    ValidLean(h);
    StepSpends(h, e, env);
    StepValid(h, e, env);
  }

  /** A crash loop ends: over any run the children spawned are at most `maximumRestarts`, and one and
      `maximumRestarts` more for every start call, restart call and stable run. */
  lemma {:induction false} SpawnsAreBounded(h: Host, run: seq<Happening>)
    requires Valid(h)
    ensures Spends(h, Run(h, run), Share(Renewals(run), h.maximumRestarts))
    decreases |run|
  {
    if run == [] {
      ValidLean(h);
    } else {
      var n := Step(h, run[0].event, run[0].env);
      StepBounded(h, run[0].event, run[0].env);
      SpawnsAreBounded(n, run[1..]);
      SpendsTwice(h, n, Run(h, run), Share(Renewals(run[1..]), h.maximumRestarts), Share(Renewals(run), h.maximumRestarts));
    }
  }

  /** From the start: with `m` automatic restarts allowed, `k` renewals leave room for at most `m + k * (m + 1)`
      children ever. */
  lemma CrashLoopEnds(restartDelays: nat, run: seq<Happening>)
    ensures var m := Initial(restartDelays).maximumRestarts;
            Run(Initial(restartDelays), run).facts.nextChild <= m + Renewals(run) * (m + 1)
  {
    var first := Initial(restartDelays);
    InitialValid(restartDelays);
    assert Spends(first, Run(first, run), Share(Renewals(run), first.maximumRestarts)) by {
      SpawnsAreBounded(first, run);
    }
    ShareIsProduct(Renewals(run), first.maximumRestarts);
  }

  // ---- what `stop` leaves possible

  predicate Starts(e: Event) {
    e.CallStart? || e.CallRestart?
  }

  predicate NoStarts(run: seq<Happening>) {
    forall i :: 0 <= i < |run| ==> !Starts(run[i].event)
  }

  /** A waiting call that can still spawn: a start goes on even after a failed stop, a restart only if the stop
      can still end well. */
  predicate Promising(h: Host, call: Parked) {
    call.ParkedStart? || (h.child.Some? && h.child.value !in h.forcedChildren)
  }

  predicate Quiet(h: Host) {
    !h.desiredRunning && forall call <- h.parked :: !Promising(h, call)
  }

  lemma {:induction false} ResumeQuiet(h: Host, calls: seq<Parked>, env: Env)
    requires !h.desiredRunning && h.parked == [] && forall call <- calls :: call.ParkedRestart?
    ensures var n := Resume(h, calls, Rejected, env);
            !n.desiredRunning && n.parked == [] && n.facts.nextChild == h.facts.nextChild
    decreases |calls|
  {
    if calls != [] {
      assert calls[0] in calls && calls[0].ParkedRestart?;
      ResumeQuiet(ResumeOne(h, calls[0], Rejected, env), calls[1..], env);
    }
  }

  /** A settled stop whose waiting calls have nothing to hope for. */
  lemma ReleaseQuiet(h: Host, how: Settlement, env: Env)
    requires !h.desiredRunning && forall call <- h.parked :: call.ParkedRestart? && how == Rejected
    ensures Quiet(Release(h, how, env)) && Release(h, how, env).facts.nextChild == h.facts.nextChild
  {
    if h.parked == [] {
      assert Resume(h, [], how, env) == h;
      assert h.(parked := []) == h;
    } else {
      assert h.parked[0] in h.parked;
      InOrderMembers(h.parked);
      ResumeQuiet(h.(parked := []), InOrder(h.parked), env);
    }
  }

  lemma CalmQuiet(h: Host, n: Host)
    requires Quiet(h) && Calm(h, n)
    ensures Quiet(n)
  {
    forall call | call in n.parked ensures !Promising(n, call) {
      assert !Promising(h, call);
    }
  }

  /** A waiting restart has nothing to hope for when the child of the stop was killed. */
  lemma QuietWaits(h: Host)
    requires Lean(h) && Quiet(h)
    ensures forall call <- h.parked :: call.ParkedRestart? && h.stopWaiter.Some? && h.stopWaiter.value.child in h.forcedChildren
  {
    forall call | call in h.parked
      ensures call.ParkedRestart? && h.stopWaiter.Some? && h.stopWaiter.value.child in h.forcedChildren
    {
      assert !Promising(h, call);
    }
  }

  lemma QuietExit(h: Host, c: Child, exit: Exit, env: Env)
    requires Lean(h) && Quiet(h) && h.child == Some(c)
    ensures Quiet(OnExit(h, c, exit, env)) && OnExit(h, c, exit, env).facts.nextChild == h.facts.nextChild
  {
    var wasStopping, waited := c in h.stoppingChildren, c in h.stoppingChildren && WaitsFor(h, c);
    var how := if waited then StopVerdict(h, h.stopWaiter.value, exit) else Rejected;
    var gone, stop := Exited(h, c, exit), if waited then Some(how) else None;
    QuietWaits(h);
    AbandonedCalm(gone, stop);
    ReleaseQuiet(Ended(Abandoned(gone, stop), if wasStopping && how == Resolved then Stopped else Degraded, false), how, env);
  }

  lemma QuietSpawnError(h: Host, c: Child, env: Env)
    requires Lean(h) && Quiet(h) && h.child == Some(c)
    ensures Quiet(OnSpawnError(h, c, env)) && OnSpawnError(h, c, env).facts.nextChild == h.facts.nextChild
  {
    var gone, stop := Unspawned(h, c), if WaitsFor(h, c) then Some(Rejected) else None;
    QuietWaits(h);
    AbandonedCalm(gone, stop);
    ReleaseQuiet(Ended(Abandoned(gone, stop), Degraded, false), Rejected, env);
  }

  lemma QuietStep(h: Host, e: Event, env: Env)
    requires Lean(h) && Quiet(h) && !Starts(e)
    ensures Quiet(Step(h, e, env)) && Step(h, e, env).facts.nextChild == h.facts.nextChild
  {
    if CalmEvent(e) {
      CalmStep(h, e, env);
      CalmQuiet(h, Step(h, e, env));
    } else {
      match e
      case RestartTimer =>
      case StableRunTimer =>
        forall call | call in h.parked ensures !Promising(Step(h, e, env), call) {
          assert !Promising(h, call);
        }
      case ChildExit(c, exit) => if h.child == Some(c) { QuietExit(h, c, exit, env); }
      case ChildError(c, _) => if h.child == Some(c) { QuietSpawnError(h, c, env); }
      case ForceTimeout => QuietForceTimeout(h, env);
    }
  }

  lemma QuietForceTimeout(h: Host, env: Env)
    requires Quiet(h)
    ensures var n := OnForceTimeout(h, env); Quiet(n) && n.facts.nextChild == h.facts.nextChild
  {
    if h.stopWaiter.Some? && h.stopWaiter.value.forceTimer {
      forall call | call in h.parked ensures call.ParkedRestart? {
        assert !Promising(h, call);
      }
      ReleaseQuiet(SettleStop(h, Rejected).(state := Degraded), Rejected, env);
    }
  }

  lemma {:induction false} QuietRun(h: Host, run: seq<Happening>)
    requires Valid(h) && Quiet(h) && NoStarts(run)
    ensures Run(h, run).facts.nextChild == h.facts.nextChild
    decreases |run|
  {
    if run != [] {
      ValidLean(h);
      QuietStep(h, run[0].event, run[0].env);
      StepValid(h, run[0].event, run[0].env);
      QuietRun(Step(h, run[0].event, run[0].env), run[1..]);
    }
  }

  lemma StartNowMore(h: Host, t: Ticket, resetAttempts: bool, env: Env)
    ensures StartNow(h, t, resetAttempts, env).facts.nextChild >= h.facts.nextChild
  {
  }

  lemma StartMore(h: Host, t: Ticket, resetAttempts: bool, env: Env)
    ensures Start(h, t, resetAttempts, env).facts.nextChild >= h.facts.nextChild
  {
    StartNowMore(SetDesired(h, true), t, resetAttempts, env);
  }

  lemma ResumeOneMore(h: Host, call: Parked, how: Settlement, env: Env)
    ensures ResumeOne(h, call, how, env).facts.nextChild >= h.facts.nextChild
  {
    match call
    case ParkedStart(t, resetAttempts) => StartNowMore(h, t, resetAttempts, env);
    case ParkedRestart(t) => StartMore(h.(restartAttempt := 0), t, true, env);
  }

  lemma {:induction false} ResumeMore(h: Host, calls: seq<Parked>, how: Settlement, env: Env)
    ensures Resume(h, calls, how, env).facts.nextChild >= h.facts.nextChild
    decreases |calls|
  {
    if calls != [] {
      ResumeOneMore(h, calls[0], how, env);
      ResumeMore(ResumeOne(h, calls[0], how, env), calls[1..], how, env);
    }
  }

  lemma {:induction false} ResumeSpawns(h: Host, calls: seq<Parked>, i: nat, how: Settlement, env: Env)
    requires h.child.None? && h.startWaiter.None? && h.stopPromise.None? && h.state != Running && !env.spawnThrows
    requires i < |calls| && (calls[i].ParkedStart? || how == Resolved)
    ensures Resume(h, calls, how, env).facts.nextChild > h.facts.nextChild
    decreases |calls|
  {
    if calls[0].ParkedStart? || how == Resolved {
      ResumeMore(ResumeOne(h, calls[0], how, env), calls[1..], how, env);
    } else {
      ResumeSpawns(ResumeOne(h, calls[0], how, env), calls[1..], i - 1, how, env);
    }
  }

  /** A waiting call with hope spawns as soon as the child acknowledges and exits cleanly. */
  function CleanEnd(c: Child): seq<Happening> {
    [Happening(StopAcknowledged(c), Env(true, false)), Happening(ChildExit(c, Exit(Some(0), None)), Env(true, false))]
  }

  /** The acknowledged, clean exit of a child somebody waits to see gone. */
  lemma PromisingExit(h: Host, i: nat)
    requires Lean(h) && h.stopPromise.Some? && i < |h.parked| && Promising(h, h.parked[i]) && !h.desiredRunning
    requires h.stopWaiter.value.acknowledged && (h.stopWaiter.value.forced ==> h.stopWaiter.value.child in h.forcedChildren)
    ensures OnExit(h, h.child.value, Exit(Some(0), None), Env(true, false)).facts.nextChild > h.facts.nextChild
  {
    var c, exit := h.child.value, Exit(Some(0), None);
    var how := StopVerdict(h, h.stopWaiter.value, exit);
    var n := Ended(Abandoned(Exited(h, c, exit), Some(how)), if how == Resolved then Stopped else Degraded, false);
    InOrderMembers(n.parked);
    assert n.parked[i] in InOrder(n.parked);
    var j: nat :| j < |InOrder(n.parked)| && InOrder(n.parked)[j] == n.parked[i];
    ResumeSpawns(n.(parked := []), InOrder(n.parked), j, how, Env(true, false));
  }

  /** The acknowledgement before it. */
  lemma PromisingAck(h: Host, i: nat, told: Host)
    requires Lean(h) && h.stopPromise.Some? && i < |h.parked| && Promising(h, h.parked[i]) && !h.desiredRunning
    requires h.stopWaiter.value.forced ==> h.stopWaiter.value.child in h.forcedChildren
    requires told == OnStopAcknowledged(h, h.child.value)
    ensures Lean(told) && told.child == h.child && told.facts.nextChild == h.facts.nextChild
    ensures OnExit(told, h.child.value, Exit(Some(0), None), Env(true, false)).facts.nextChild > h.facts.nextChild
  {
    PromisingExit(told, i);
  }

  lemma PromisingSpawns(h: Host, i: nat)
    requires Lean(h) && h.stopPromise.Some? && i < |h.parked| && Promising(h, h.parked[i]) && !h.desiredRunning
    requires h.stopWaiter.value.forced ==> h.stopWaiter.value.child in h.forcedChildren
    ensures Run(h, CleanEnd(h.child.value)).facts.nextChild > h.facts.nextChild
  {
    PromisingAck(h, i, OnStopAcknowledged(h, h.child.value));
    RunCleanEnd(h, h.child.value);
  }

  lemma RunCleanEnd(h: Host, c: Child)
    requires h.child == Some(c) == OnStopAcknowledged(h, c).child
    ensures Run(h, CleanEnd(c)) == OnExit(OnStopAcknowledged(h, c), c, Exit(Some(0), None), Env(true, false))
  {
    var told, run := OnStopAcknowledged(h, c), CleanEnd(c);
    assert run[1..] == [run[1]] && run[1..][1..] == [];
    assert Run(h, run) == Run(told, [run[1]]);
    assert Run(told, [run[1]]) == Run(Step(told, run[1].event, run[1].env), []);
  }

  /** After `stop`, no further start or restart call spawns a child again exactly when no call waiting for the
      stop has hope: a parked start always goes on, even after a later stop. */
  lemma StopIsFinalExactly(h: Host)
    requires Valid(h) && !h.desiredRunning
    ensures (exists run :: NoStarts(run) && Run(h, run).facts.nextChild > h.facts.nextChild)
            <==> (exists call :: call in h.parked && Promising(h, call))
  {
    if call :| call in h.parked && Promising(h, call) {
      var i: nat :| i < |h.parked| && h.parked[i] == call;
      ValidLean(h);
      PromisingSpawns(h, i);
      assert NoStarts(CleanEnd(h.child.value));
    } else {
      assert Quiet(h);
      forall run | NoStarts(run) ensures Run(h, run).facts.nextChild == h.facts.nextChild {
        QuietRun(h, run);
      }
    }
  }

  const CONNECTED := Env(true, false)

  /** A start, a stop, a start that waits for the stop, and a stop after it. */
  function Overtaken(restartDelays: nat): Host {
    var asked := Step(Step(Initial(restartDelays), CallStart(true), CONNECTED), CallStop, CONNECTED);
    Step(Step(asked, CallStart(true), CONNECTED), CallStop, CONNECTED)
  }

  lemma OvertakenReached(restartDelays: nat)
    ensures exists run :: Run(Initial(restartDelays), run) == Overtaken(restartDelays)
  {
    var h := Initial(restartDelays);
    var run := [Happening(CallStart(true), CONNECTED), Happening(CallStop, CONNECTED),
                Happening(CallStart(true), CONNECTED), Happening(CallStop, CONNECTED)];
    assert run[1..][1..][1..][1..] == [];
    var one := Step(h, CallStart(true), CONNECTED);
    var two := Step(one, CallStop, CONNECTED);
    var three := Step(two, CallStart(true), CONNECTED);
    RunOne(three, run[3..]);
    RunOne(two, run[2..]);
    RunOne(one, run[1..]);
    RunOne(h, run);
  }

  lemma RunOne(h: Host, run: seq<Happening>)
    requires run != []
    ensures Run(h, run) == Run(Step(h, run[0].event, run[0].env), run[1..])
  {
  }

  /** The first start spawns a child, and the first stop asks it to end. */
  lemma StoppedFirst(restartDelays: nat)
    ensures var two := Step(Step(Initial(restartDelays), CallStart(true), CONNECTED), CallStop, CONNECTED);
            && two.child == Some(0) && two.stopPromise == Some(1) && two.state == Stopping && two.parked == []
            && two.facts.nextTicket == 2 && two.facts.nextChild == 1
  {
    var one := Step(Initial(restartDelays), CallStart(true), CONNECTED);
    assert one.child == Some(0) && one.state == Starting && one.stopPromise.None? && one.facts.nextTicket == 1 && one.parked == [];
  }

  /** A start and a stop while the child is being stopped. */
  lemma StartThenStop(two: Host)
    requires two.child.Some? && two.stopPromise.Some? && two.state == Stopping && two.parked == []
    ensures var h := Step(Step(two, CallStart(true), CONNECTED), CallStop, CONNECTED);
            && !h.desiredRunning && h.parked == [ParkedStart(two.facts.nextTicket, true)] && h.facts.nextChild == two.facts.nextChild
            && h.child == two.child && h.stopPromise == two.stopPromise
  {
  }

  lemma OvertakenValid(restartDelays: nat)
    ensures Valid(Overtaken(restartDelays))
  {
    var h := Initial(restartDelays);
    InitialValid(restartDelays);
    StepValid(h, CallStart(true), CONNECTED);
    StepValid(Step(h, CallStart(true), CONNECTED), CallStop, CONNECTED);
    StepValid(Step(Step(h, CallStart(true), CONNECTED), CallStop, CONNECTED), CallStart(true), CONNECTED);
    StepValid(Step(Step(Step(h, CallStart(true), CONNECTED), CallStop, CONNECTED), CallStart(true), CONNECTED), CallStop, CONNECTED);
  }

  /** The last call of that run is a stop, which nothing overrules; yet once the child has ended cleanly the
      waiting start spawns another. */
  lemma WaitingStartOutlivesStop(restartDelays: nat)
    ensures exists run :: Run(Initial(restartDelays), run) == Overtaken(restartDelays)
    ensures var h := Overtaken(restartDelays);
            && Valid(h) && !h.desiredRunning && h.parked == [ParkedStart(2, true)] && h.facts.nextChild == 1
            && NoStarts(CleanEnd(0)) && Run(h, CleanEnd(0)).facts.nextChild > 1
  {
    OvertakenReached(restartDelays);
    OvertakenValid(restartDelays);
    StoppedFirst(restartDelays);
    StartThenStop(Step(Step(Initial(restartDelays), CallStart(true), CONNECTED), CallStop, CONNECTED));
    ValidLean(Overtaken(restartDelays));
    PromisingSpawns(Overtaken(restartDelays), 0);
  }
}
