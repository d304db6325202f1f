/** What the calls, messages and timers of the supervisor do, case by case (apps/host/src/daemonSupervisor.ts:136-305,
    352-414): who waits, what is settled, which attempts count, and what the supervisor shows. */
module SupervisorEffects {
  import opened Wrappers
  import opened Supervisor

  predicate SettledAs(h: Host, t: Ticket, how: Settlement) {
    t in h.facts.settled && h.facts.settled[t] == how
  }

  /** Neither the child nor the count of restarts changes. */
  predicate ChildStays(h: Host, n: Host) {
    n.child == h.child && n.facts.nextChild == h.facts.nextChild && n.restartAttempt == h.restartAttempt
  }

  /** A new child is starting for the promise `t`, unless it could not be spawned. */
  predicate Starts(h: Host, n: Host, t: Ticket, attempts: nat, env: Env) {
    && n.state == Starting && n.restartAttempt == attempts && !n.restartTimer
    && if env.spawnThrows then n.child.None? && SettledAs(n, t, Rejected)
       else n.child == Some(h.facts.nextChild) && n.startWaiter == Some(t) && n.facts.nextChild == h.facts.nextChild + 1
  }

  /** What a start leads to: an answer at once, a wait for the stop, a wait for the other start, a refusal, or a child.
      Attempts count from zero only when asked, and when a child is started. */
  predicate StartLeads(h: Host, n: Host, t: Ticket, resetAttempts: bool, env: Env) {
    if h.state == Running then SettledAs(n, t, Resolved) && ChildStays(h, n) && n.parked == h.parked
    else if h.stopPromise.Some? then n.parked == h.parked + [ParkedStart(t, resetAttempts)] && ChildStays(h, n)
    else if h.startWaiter.Some? then n.pollers == h.pollers + {t} && ChildStays(h, n)
    else if h.child.Some? then SettledAs(n, t, Rejected) && ChildStays(h, n)
    else Starts(h, n, t, if resetAttempts then 0 else h.restartAttempt, env)
  }

  lemma StartNowEffect(h: Host, t: Ticket, resetAttempts: bool, env: Env)
    ensures var n := StartNow(h, t, resetAttempts, env);
            if h.startWaiter.Some? then n.pollers == h.pollers + {t} && ChildStays(h, n)
            else if h.child.Some? then SettledAs(n, t, Rejected) && ChildStays(h, n)
            else Starts(h, n, t, if resetAttempts then 0 else h.restartAttempt, env)
  {
  }

  lemma StartEffect(h: Host, resetAttempts: bool, env: Env)
    ensures var n := Step(h, CallStart(resetAttempts), env);
            n.desiredRunning && StartLeads(h, n, h.facts.nextTicket, resetAttempts, env)
  {
    StartNowEffect(SetDesired(Issue(h), true), h.facts.nextTicket, resetAttempts, env);
  }

  /** What a request to stop the child leads to: nothing to do, the open request, or a new one with its deadline, whose
      child is killed at once when it cannot be told.  No child is marked for a restart by it. */
  predicate StopLeads(h: Host, n: Host, env: Env) {
    && ChildStays(h, n) && n.restartAfterExitChildren == h.restartAfterExitChildren
    && if h.child.None? then n.state == Stopped && n.stopWaiter == h.stopWaiter && SettledAs(n, h.facts.nextTicket, Resolved)
       else if h.stopPromise.Some? then n.stopWaiter == h.stopWaiter && n.state == h.state && n.facts == h.facts
       else
         && n.state == Stopping && n.stoppingChildren == h.stoppingChildren + {h.child.value}
         && n.stopPromise == Some(h.facts.nextTicket)
         && n.stopWaiter == Some(StopWaiter(h.facts.nextTicket, h.child.value, false, !env.connected, true, false))
         && n.facts.killed == h.facts.killed + if env.connected then {} else {h.child.value}
  }

  lemma StopChildLeads(h: Host, env: Env)
    ensures var n := StopChild(h, false, env).0;
            n.desiredRunning == h.desiredRunning && n.restartTimer == h.restartTimer && StopLeads(h, n, env)
  {
  }

  lemma StopEffect(h: Host, env: Env)
    ensures var n := Step(h, CallStop, env); !n.desiredRunning && !n.restartTimer && StopLeads(h, n, env)
  {
  }

  lemma StopForUpdateEffect(h: Host, env: Env)
    ensures var n := Step(h, CallStopForUpdate, env);
            n.desiredRunning == h.desiredRunning && n.restartTimer == h.restartTimer && StopLeads(h, n, env)
  {
    StopChildLeads(h, env);
  }

  /** A restart stops the child and waits for that; without one it starts at once.  Either way attempts count from zero
      once a child is started. */
  lemma RestartEffect(h: Host, env: Env)
    requires Valid(h)
    ensures var n := Step(h, CallRestart, env);
            if h.child.Some? then
              && !n.desiredRunning && n.stopPromise.Some? && ChildStays(h, n)
              && n.parked == h.parked + [ParkedRestart(n.facts.nextTicket - 1)]
            else n.desiredRunning && Starts(h, n, n.facts.nextTicket - 1, 0, env)
  {
    var stopped := StopChild(SetDesired(h, false), false, env).0;
    if h.child.None? {
      assert stopped.startWaiter.None? && stopped.stopPromise.None? && stopped.state == Stopped;
    }
  }

  /** A child that is ready runs, and once it has run long enough the attempts count from zero. */
  lemma ReadyEffect(h: Host, c: Child, env: Env)
    requires h.child == Some(c) && c !in h.stoppingChildren
    ensures var n := Step(h, Ready(c), env); n.state == Running && n.stableRunTimer && ChildStays(h, n)
  {
  }

  lemma StableRunEffect(h: Host, env: Env)
    requires h.stableRunTimer
    ensures var n := Step(h, StableRunTimer, env); n == h.(stableRunTimer := false, restartAttempt := 0)
  {
  }

  /** An error of a live child ends neither the child nor the wish for it, but its stable run. */
  lemma LiveErrorEffect(h: Host, c: Child, env: Env)
    requires h.child == Some(c)
    ensures var n := Step(h, ChildError(c, false), env);
            && !n.stableRunTimer && n.state == (if c in h.stoppingChildren then Stopping else Degraded)
            && ChildStays(h, n) && n.desiredRunning == h.desiredRunning && n.restartTimer == h.restartTimer
  {
  }

  /** Before the last deadline nothing is given up; at it the request is, the child being left to end as it may. */
  lemma ForceTimeoutEffect(h: Host, env: Env)
    requires h.parked == []
    ensures var n := Step(h, ForceTimeout, env);
            if h.stopWaiter.Some? && h.stopWaiter.value.forceTimer then
              && n.state == Degraded && n.stopWaiter.None? && n.stopPromise.None? && ChildStays(h, n)
              && SettledAs(n, h.stopWaiter.value.ticket, Rejected) && n.desiredRunning == h.desiredRunning
            else n == h
  {
  }

  // ---- calls that waited for a stop

  /** How a call goes on: a restart whose stop failed fails, and so does a start while the child still lives; any other
      starts the daemon, a restart counting its attempts from zero. */
  lemma ResumeOneEffect(h: Host, call: Parked, how: Settlement, env: Env)
    requires h.stopPromise.None?
    ensures var n := ResumeOne(h, call, how, env);
            if how == Rejected && (call.ParkedRestart? || h.child.Some?) then SettledAs(n, call.ticket, Rejected) && ChildStays(h, n)
            else if call.ParkedRestart? then n.desiredRunning && StartLeads(h.(restartAttempt := 0), n, call.ticket, true, env)
            else StartLeads(h.(state := Stopped), n, call.ticket, call.resetAttempts, env)
  {
    if call.ParkedRestart? {
      StartNowEffect(SetDesired(h.(restartAttempt := 0), true), call.ticket, true, env);
    } else {
      StartNowEffect(h, call.ticket, call.resetAttempts, env);
    }
  }

  lemma {:induction false} ResumeKeepsStarter(h: Host, calls: seq<Parked>, how: Settlement, env: Env)
    requires h.startWaiter.Some? && h.child.Some? && h.state != Running && h.stopPromise.None?
    ensures var n := Resume(h, calls, how, env); n.startWaiter == h.startWaiter && n.child == h.child
    decreases |calls|
  {
    if calls != [] {
      ResumeKeepsStarter(ResumeOne(h, calls[0], how, env), calls[1..], how, env);
    }
  }

  lemma {:induction false} WaitingStarts(calls: seq<Parked>, i: nat)
    requires i < |calls| && calls[i].ParkedStart? && forall j :: 0 <= j < i ==> calls[j].ParkedRestart?
    ensures Waiting(calls, true) != [] && Waiting(calls, true)[0] == calls[i]
  {
    if i > 0 {
      WaitingStarts(calls[1..], i - 1);
    }
  }

  /** When the child is gone, the first start that waited gets the new one, whatever restarts waited before it. */
  lemma FirstStartSpawns(h: Host, how: Settlement, env: Env, i: nat)
    requires i < |h.parked| && h.parked[i].ParkedStart? && forall j :: 0 <= j < i ==> h.parked[j].ParkedRestart?
    requires h.child.None? && h.startWaiter.None? && h.stopPromise.None? && !env.spawnThrows
    ensures var n := Release(h, how, env); n.child == Some(h.facts.nextChild) && n.startWaiter == Some(h.parked[i].ticket)
  {
    var calls := InOrder(h.parked);
    WaitingStarts(h.parked, i);
    assert calls[0] == h.parked[i];
    var first := ResumeOne(h.(parked := []), calls[0], how, env);
    ResumeKeepsStarter(first, calls[1..], how, env);
  }
}
