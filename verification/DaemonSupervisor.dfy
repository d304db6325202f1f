/** The supervisor object (apps/host/src/daemonSupervisor.ts:84-570).  Every method performs the step that module
    Supervisor gives for its event, keeps the invariant and undoes nothing that has happened; what a caller can
    rely on besides is in its contract. */
module Daemon {
  import opened Wrappers
  import opened Supervisor
  import opened SupervisorRestarts

  class DaemonSupervisor {
    const maximumRestarts: nat
    var child: Option<Child>
    var state: DaemonState
    var restartAttempt: nat
    var desiredRunning: bool
    var restartTimer: bool
    var stableRunTimer: bool
    var startWaiter: Option<Ticket>
    var stopWaiter: Option<StopWaiter>
    var stopPromise: Option<Ticket>
    var updateWaiters: map<Ticket, Child>
    var forcedChildren: set<Child>
    var restartAfterExitChildren: set<Child>
    var stoppingChildren: set<Child>
    var parked: seq<Parked>
    var pollers: set<Ticket>
    var facts: Facts

    function View(): Host
      reads this
    {
      Host(maximumRestarts, child, state, restartAttempt, desiredRunning, restartTimer, stableRunTimer, startWaiter,
           stopWaiter, stopPromise, updateWaiters, forcedChildren, restartAfterExitChildren, stoppingChildren, parked,
           pollers, facts)
    }

    constructor (restartDelays: nat)
      ensures View() == Initial(restartDelays) && Valid(View())
    {
      maximumRestarts := if restartDelays == 0 then 3 else restartDelays;
      child, state, restartAttempt, desiredRunning := None, Stopped, 0, true;
      restartTimer, stableRunTimer := false, false;
      startWaiter, stopWaiter, stopPromise, updateWaiters := None, None, None, map[];
      forcedChildren, restartAfterExitChildren, stoppingChildren := {}, {}, {};
      parked, pollers := [], {};
      facts := Facts(0, 0, map[], map[], {}, {}, map[], {});
      new;
      InitialValid(restartDelays);
    }

    /** What every event keeps: the invariant, and what has happened. */
    ghost predicate After(before: Host)
      reads this
    {
      Valid(View()) && Grows(before.facts, facts)
    }

    /** The promise of a stop: settled when there is no child, and that of an open request otherwise. */
    ghost predicate StopAsked(t: Ticket)
      reads this
    {
      if child.None? then t in facts.settled && facts.settled[t] == Resolved
      else t in facts.stopRequests && facts.stopRequests[t] == child.value && t !in facts.settled && child.value in stoppingChildren
    }

    method NewPromise() returns (t: Ticket)
      modifies this`facts
      ensures t == old(facts).nextTicket && View() == Issue(old(View()))
    {
      t := facts.nextTicket;
      facts := facts.(nextTicket := t + 1);
    }

    method SettlePromise(t: Ticket, how: Settlement)
      modifies this`facts
      ensures View() == Settle(old(View()), t, how)
    {
      facts := facts.(settled := facts.settled[t := how]);
    }

    method SetDesiredRunning(desired: bool)
      modifies this`desiredRunning, this`restartTimer
      ensures View() == SetDesired(old(View()), desired)
    {
      desiredRunning := desired;
      if !desired && restartTimer {
        restartTimer := false;
      }
    }

    method FinishTheStart(how: Settlement)
      modifies this`startWaiter, this`facts
      ensures View() == FinishStart(old(View()), how)
    {
      if startWaiter.Some? {
        var waiter := startWaiter.value;
        startWaiter := None;
        SettlePromise(waiter, how);
      }
    }

    /** Settle each of the promises, in any order. */
    method SettleAll(ts: set<Ticket>, how: Settlement)
      modifies this`facts
      ensures facts == old(facts).(settled := old(facts.settled) + map t | t in ts :: how)
    {
      var left := ts;
      while left != {}
        invariant left <= ts
        invariant facts == old(facts).(settled := facts.settled)
        invariant facts.settled.Keys == old(facts.settled).Keys + (ts - left)
        invariant forall t: Ticket :: t in facts.settled ==>
                    facts.settled[t] == if t in ts - left then how else old(facts.settled)[t]
        decreases |left|
      {
        var t: Ticket :| t in left;
        facts := facts.(settled := facts.settled[t := how]);
        left := left - {t};
      }
      assert facts.settled == old(facts.settled) + map t | t in ts :: how;
    }

    method FailAllUpdateWaiters()
      modifies this`updateWaiters, this`facts
      ensures View() == FailUpdateWaiters(old(View()))
    {
      ghost var waiting := updateWaiters;
      SettleAll(updateWaiters.Keys, Rejected);
      updateWaiters := map[];
      assert (map t | t in waiting.Keys :: Rejected) == (map t | t in waiting :: Rejected);
    }

    /** `start`: the promise it returns is `t`. */
    method StartCall(t: Ticket, resetAttempts: bool, env: Env)
      modifies this
      ensures View() == Start(old(View()), t, resetAttempts, env)
    {
      SetDesiredRunning(true);
      if state == Running {
        SettlePromise(t, Resolved);
      } else if stopPromise.Some? {
        parked := parked + [ParkedStart(t, resetAttempts)];
      } else {
        StartAfterStop(t, resetAttempts, env);
      }
    }

    method PrepareStart(resetAttempts: bool)
      modifies this`restartAttempt, this`restartTimer, this`state
      ensures View() == Prepared(old(View()), resetAttempts)
    {
      if resetAttempts {
        restartAttempt := 0;
      }
      restartTimer := false;
      state := Starting;
    }

    method SpawnChild(t: Ticket)
      modifies this`child, this`facts, this`startWaiter
      ensures View() == Spawned(old(View()), t)
    {
      child := Some(facts.nextChild);
      facts := facts.(nextChild := facts.nextChild + 1);
      startWaiter := Some(t);
    }

    /** The rest of `start`, once no stop is in progress: its promise, in hand until then, finds exactly one place. */
    method StartAfterStop(t: Ticket, resetAttempts: bool, env: Env)
      modifies this
      ensures View() == StartNow(old(View()), t, resetAttempts, env)
      ensures forall held :: old(Inner(View(), held)) && held[t] > 0 ==>
                Inner(View(), held - multiset{t}) && Grows(old(facts), facts)
    {
      forall held | Inner(View(), held) && held[t] > 0
        ensures Inner(StartNow(View(), t, resetAttempts, env), held - multiset{t})
        ensures Grows(facts, StartNow(View(), t, resetAttempts, env).facts)
      {
        StartNowInner(View(), t, resetAttempts, env, held);
      }
      if startWaiter.Some? {
        pollers := pollers + {t};
      } else if child.Some? {
        SettlePromise(t, Rejected);
      } else {
        PrepareStart(resetAttempts);
        if env.spawnThrows {
          SettlePromise(t, Rejected);
        } else {
          SpawnChild(t);
        }
      }
    }

    method KillChild(c: Child)
      modifies this`forcedChildren, this`facts
      ensures View() == Kill(old(View()), c)
    {
      forcedChildren := forcedChildren + {c};
      facts := facts.(killed := facts.killed + {c});
    }

    method RequestStop(c: Child) returns (t: Ticket)
      modifies this`stoppingChildren, this`state, this`stopPromise, this`stopWaiter, this`facts
      ensures View() == Requested(old(View()), c) && t == old(facts).nextTicket
    {
      stoppingChildren, state := stoppingChildren + {c}, Stopping;
      t := NewPromise();
      AwaitStop(t, c);
    }

    method AwaitStop(t: Ticket, c: Child)
      modifies this`stopPromise, this`stopWaiter, this`facts
      ensures View() == Awaited(old(View()), t, c)
    {
      facts := facts.(stopRequests := facts.stopRequests[t := c]);
      stopPromise := Some(t);
      stopWaiter := Some(StopWaiter(t, c, false, false, true, false));
    }

    method ForceTheStop()
      requires stopWaiter.Some?
      modifies this`stopWaiter, this`forcedChildren, this`facts
      ensures View() == Force(old(View()))
    {
      stopWaiter := Some(stopWaiter.value.(forced := true));
      KillChild(stopWaiter.value.child);
    }

    /** `stopChild` with a child. */
    method StopLiveChild(c: Child, restartAfterExit: bool, env: Env) returns (t: Ticket)
      requires child == Some(c)
      modifies this
      ensures (View(), t) == StopChild(old(View()), restartAfterExit, env)
    {
      if restartAfterExit {
        restartAfterExitChildren := restartAfterExitChildren + {c};
      }
      if stopPromise.Some? {
        t := stopPromise.value;
      } else {
        t := RequestStop(c);
        assert View() == MarkRestart(Requested(old(View()), c), c, restartAfterExit);
        if !env.connected {
          ForceTheStop();
        }
      }
    }

    /** `stopChild`. */
    method StopTheChild(restartAfterExit: bool, env: Env) returns (t: Ticket)
      modifies this
      ensures (View(), t) == StopChild(old(View()), restartAfterExit, env)
      ensures old(Valid(View())) ==> After(old(View())) && child == old(child) && StopAsked(t)
    {
      if Valid(View()) {
        StopChildInner(View(), restartAfterExit, env);
        StopChildAsks(View(), restartAfterExit, env);
      }
      if child.Some? {
        t := StopLiveChild(child.value, restartAfterExit, env);
      } else {
        state := Stopped;
        t := NewPromise();
        SettlePromise(t, Resolved);
      }
    }

    /** The continuations of `stopPromise`. */
    method ResumeParked(how: Settlement, env: Env)
      modifies this
      ensures View() == Release(old(View()), how, env)
      ensures old(Inner(View(), multiset{}) && stopPromise.None?) ==> After(old(View())) && parked == []
    {
      if Inner(View(), multiset{}) && stopPromise.None? {
        ReleaseValid(View(), how, env);
        ReleaseEmpties(View(), how, env);
      }
      var calls := InOrder(parked);
      parked := [];
      var i := 0;
      while i < |calls|
        invariant 0 <= i <= |calls|
        invariant Resume(View(), calls[i..], how, env) == Release(old(View()), how, env)
      {
        assert calls[i..][1..] == calls[i + 1..];
        ResumeCall(calls[i], how, env);
        i := i + 1;
      }
    }

    method ResumeCall(call: Parked, how: Settlement, env: Env)
      modifies this
      ensures View() == ResumeOne(old(View()), call, how, env)
    {
      match call {
        case ParkedStart(t, resetAttempts) =>
          if how == Rejected && child.Some? {
            SettlePromise(t, Rejected);
          } else {
            StartAfterStop(t, resetAttempts, env);
          }
        case ParkedRestart(t) =>
          if how == Rejected {
            SettlePromise(t, Rejected);
          } else {
            restartAttempt := 0;
            StartCall(t, true, env);
          }
      }
    }

    method ScheduleTheRestart()
      modifies this`restartAttempt, this`restartTimer
      ensures View() == ScheduleRestart(old(View()))
    {
      if restartAttempt >= maximumRestarts {
        return;
      }
      restartAttempt := restartAttempt + 1;
      restartTimer := true;
    }

    method SettleTheStop(how: Settlement)
      requires stopWaiter.Some?
      modifies this`stopWaiter, this`stopPromise, this`facts
      ensures View() == SettleStop(old(View()), how)
    {
      var waiter := stopWaiter.value;
      stopWaiter := None;
      SettlePromise(waiter.ticket, how);
      stopPromise := None;
    }

    method AbandonWaiters(stop: Option<Settlement>)
      modifies this`updateWaiters, this`stopWaiter, this`stopPromise, this`startWaiter, this`facts
      ensures View() == Abandoned(old(View()), stop)
    {
      FailAllUpdateWaiters();
      if stop.Some? && stopWaiter.Some? {
        SettleTheStop(stop.value);
      }
      FinishTheStart(Rejected);
    }

    method EndChild(end: DaemonState, restart: bool)
      modifies this`state, this`restartAttempt, this`restartTimer
      ensures View() == Ended(old(View()), end, restart)
    {
      state := end;
      if restart {
        ScheduleTheRestart();
      }
    }

    // -- the events

    /** `start`: the daemon is wanted.  A running one answers at once, and a new child is spawned when there is
        none; whatever happens, no second one. */
    method OnStartCall(resetAttempts: bool, env: Env) returns (t: Ticket)
      requires Valid(View())
      modifies this
      ensures View() == Supervisor.OnCallStart(old(View()), resetAttempts, env) && t == old(facts).nextTicket
      ensures After(old(View())) && desiredRunning
      ensures old(state) == Running ==> t in facts.settled && facts.settled[t] == Resolved
      ensures old(child).Some? ==> child == old(child)
      ensures old(child).None? && !env.spawnThrows ==> child == Some(old(facts).nextChild) && startWaiter == Some(t)
      ensures old(child).None? && env.spawnThrows ==> child.None? && t in facts.settled && facts.settled[t] == Rejected
    {
      CallStartValid(View(), resetAttempts, env);
      t := NewPromise();
      StartCall(t, resetAttempts, env);
    }

    /** `stop`: no daemon is wanted and no automatic restart is due. */
    method OnStopCall(env: Env) returns (t: Ticket)
      requires Valid(View())
      modifies this
      ensures View() == Supervisor.OnCallStop(old(View()), env)
      ensures t == StopChild(SetDesired(old(View()), false), false, env).1
      ensures After(old(View())) && !desiredRunning && !restartTimer && child == old(child) && StopAsked(t)
    {
      DesiredInner(View(), false);
      SetDesiredRunning(false);
      t := StopTheChild(false, env);
    }

    /** `stopForUpdate`: the wish for a daemon and a pending restart stay. */
    method OnStopForUpdateCall(env: Env) returns (t: Ticket)
      requires Valid(View())
      modifies this
      ensures View() == StopChild(old(View()), false, env).0
      ensures t == StopChild(old(View()), false, env).1
      ensures After(old(View())) && desiredRunning == old(desiredRunning) && restartTimer == old(restartTimer)
      ensures child == old(child) && StopAsked(t)
    {
      t := StopTheChild(false, env);
    }

    /** `restart`: with a child it waits for the stop, without one it starts. */
    method OnRestartCall(env: Env) returns (t: Ticket)
      requires Valid(View())
      modifies this
      ensures View() == Supervisor.OnCallRestart(old(View()), env)
      ensures t == StopChild(SetDesired(old(View()), false), false, env).0.facts.nextTicket
      ensures After(old(View()))
      ensures old(child).Some? ==> child == old(child) && !desiredRunning && ParkedRestart(t) in parked && stopPromise.Some?
      ensures old(child).None? ==> desiredRunning && (child.Some? <==> !env.spawnThrows)
    {
      CallRestartValid(View(), env);
      t := RestartCall(env);
    }

    method RestartCall(env: Env) returns (t: Ticket)
      modifies this
      ensures View() == OnCallRestart(old(View()), env)
      ensures t == StopChild(SetDesired(old(View()), false), false, env).0.facts.nextTicket
    {
      SetDesiredRunning(false);
      var stop := StopTheChild(false, env);
      t := NewPromise();
      if stopPromise.Some? {
        parked := parked + [ParkedRestart(t)];
      } else {
        restartAttempt := 0;
        StartCall(t, true, env);
      }
    }

    /** `prepareUpdate` and `cancelUpdate`: refused exactly when no connected child is running. */
    method OnUpdateCall(env: Env) returns (t: Ticket)
      requires Valid(View())
      modifies this
      ensures View() == Supervisor.OnCallUpdate(old(View()), env)
      ensures After(old(View())) && t == old(facts).nextTicket
      ensures if state == Running && env.connected then t in updateWaiters && child == Some(updateWaiters[t])
              else t in facts.settled && facts.settled[t] == Rejected
    {
      UpdateValid(View(), env);
      t := NewPromise();
      if child.None? || !env.connected || state != Running {
        SettlePromise(t, Rejected);
      } else {
        updateWaiters := updateWaiters[t := child.value];
      }
    }

    /** The live child is ready: the start that waits for it ends well, unless the child is being stopped. */
    method OnReady(c: Child, env: Env)
      requires Valid(View())
      modifies this
      ensures View() == Supervisor.OnReady(old(View()), c)
      ensures After(old(View())) && child == old(child)
      ensures child == Some(c) && c !in stoppingChildren ==> state == Running && StartTold(old(View()), Resolved, View())
      ensures child != Some(c) || c in stoppingChildren ==> View() == old(View())
    {
      ReadyValid(View(), c);
      if child == Some(c) && c !in stoppingChildren {
        ReadyTells(View(), c);
        state := Running;
        stableRunTimer := true;
        FinishTheStart(Resolved);
      }
    }

    /** The live child cannot start: the start fails, and a failure not worth a retry ends the wish for a daemon,
        so that its exit schedules no restart. */
    method OnStartupFailed(c: Child, retryable: bool, env: Env)
      requires Valid(View())
      modifies this
      ensures View() == Supervisor.OnStartupFailed(old(View()), c, retryable)
      ensures After(old(View())) && child == old(child)
      ensures child == Some(c) ==> StartTold(old(View()), Rejected, View())
      ensures child == Some(c) && c !in stoppingChildren ==> state == Degraded && (desiredRunning <==> old(desiredRunning) && retryable)
      ensures child != Some(c) ==> View() == old(View())
    {
      StartupFailedValid(View(), c, retryable);
      if child == Some(c) {
        StartupFailedTells(View(), c, retryable);
        FinishTheStart(Rejected);
        if c !in stoppingChildren {
          desiredRunning := retryable && desiredRunning;
          state := Degraded;
        }
      }
    }

    /** The live child acknowledges its stop: without it the open request cannot end well. */
    method OnStopAcknowledged(c: Child, env: Env)
      requires Valid(View())
      modifies this
      ensures View() == Supervisor.OnStopAcknowledged(old(View()), c)
      ensures After(old(View())) && stopPromise == old(stopPromise) && facts.settled == old(facts.settled)
      ensures facts.acknowledgements == old(facts.acknowledgements) +
                if child == Some(c) && stopPromise.Some? then {stopPromise.value} else {}
    {
      AcknowledgedValid(View(), c);
      if child == Some(c) && stopWaiter.Some? {
        stopWaiter := Some(stopWaiter.value.(acknowledged := true));
        facts := facts.(acknowledgements := facts.acknowledgements + {stopWaiter.value.ticket});
      }
    }

    /** An answer settles the request it answers, once, and no other. */
    method OnUpdateAnswered(c: Child, u: Ticket, env: Env)
      requires Valid(View())
      modifies this
      ensures View() == Supervisor.OnUpdateAnswered(old(View()), c, u)
      ensures After(old(View())) && Answered(old(View()), if child == Some(c) then {u} else {}, Resolved, View())
    {
      AnswerValid(View(), u, Resolved);
      AnswerSettles(View(), u, Resolved);
      if child == Some(c) && u in updateWaiters {
        updateWaiters := updateWaiters - {u};
        SettlePromise(u, Resolved);
      }
    }

    /** An error of the live child fails what waits for it; one that could not be spawned is gone. */
    method OnChildError(c: Child, spawnFailed: bool, env: Env)
      requires Valid(View())
      modifies this
      ensures View() == Supervisor.OnChildError(old(View()), c, spawnFailed, env)
      ensures After(old(View()))
      ensures old(child) == Some(c) && !spawnFailed ==>
                child == Some(c) && state != Running && WaitersSettled(old(View()), None, facts.settled)
      ensures old(child) == Some(c) && spawnFailed ==> SpawnErrorTold(old(View()), c, View())
      ensures old(child) != Some(c) ==> View() == old(View())
    {
      ChildErrorValid(View(), c, spawnFailed, env);
      if child == Some(c) {
        if spawnFailed {
          SpawnErrorTells(View(), c, env);
          OnSpawnFailed(c, env);
        } else {
          LiveErrorSettles(View(), c);
          OnRunningFailed(c);
        }
      }
    }

    method OnRunningFailed(c: Child)
      modifies this
      ensures View() == OnLiveError(old(View()), c)
    {
      FailTheLiveChild(c);
      FinishTheStart(Rejected);
    }

    method FailTheLiveChild(c: Child)
      modifies this`stableRunTimer, this`updateWaiters, this`facts, this`state
      ensures View() == Troubled(old(View()), c)
    {
      stableRunTimer := false;
      FailAllUpdateWaiters();
      state := if c in stoppingChildren then Stopping else Degraded;
    }

    method MarkUnspawned(c: Child)
      modifies this`child, this`stableRunTimer, this`facts
      ensures View() == Unspawned(old(View()), c)
    {
      stableRunTimer := false;
      child := None;
      facts := facts.(neverSpawned := facts.neverSpawned + {c});
    }

    method MarkExited(c: Child, exit: Exit)
      modifies this`child, this`stableRunTimer, this`facts
      ensures View() == Exited(old(View()), c, exit)
    {
      child := None;
      facts := facts.(exits := facts.exits[c := exit]);
      stableRunTimer := false;
    }

    /** `finishStopWaiter`'s verdict: a stop ends well exactly when the child acknowledged it, was never killed,
        and exited with code 0 and no signal. */
    method JudgeStop(c: Child, exit: Exit) returns (how: Settlement)
      requires Valid(View()) && stopWaiter.Some? && stopWaiter.value.child == c
      ensures how == StopVerdict(View(), stopWaiter.value, exit)
      ensures how == Resolved <==>
                && stopWaiter.value.ticket in facts.acknowledgements && c !in facts.killed
                && exit.code == Some(0) && exit.signal == None
    {
      var forced := stopWaiter.value.forced || c in forcedChildren;
      if stopWaiter.value.acknowledged && !forced && exit.code == Some(0) && exit.signal == None {
        how := Resolved;
      } else {
        how := Rejected;
      }
    }

    /** What follows the loss of the child, common to its exit and to a failed spawn. */
    method Depart(stop: Option<Settlement>, end: DaemonState, restart: bool, env: Env)
      modifies this
      ensures var n := Ended(Abandoned(old(View()), stop), end, restart);
              View() == if stop.Some? then Release(n, stop.value, env) else n
    {
      AbandonWaiters(stop);
      EndChild(end, restart);
      if stop.Some? {
        ResumeParked(stop.value, env);
      }
    }

    method OnSpawnFailed(c: Child, env: Env)
      modifies this
      ensures View() == OnSpawnError(old(View()), c, env)
    {
      var waited := stopWaiter.Some? && stopWaiter.value.child == c;
      var restart := desiredRunning && (c !in stoppingChildren || c in restartAfterExitChildren);
      MarkUnspawned(c);
      Depart(if waited then Some(Rejected) else None, Degraded, restart, env);
    }

    /** The exit of the live child: it is recorded, whoever waited for the child knows, and a stop request ends
        as the exit deserves. */
    method OnChildExit(c: Child, exit: Exit, env: Env)
      requires Valid(View())
      modifies this
      ensures View() == Supervisor.OnChildExit(old(View()), c, exit, env)
      ensures After(old(View()))
      ensures old(child) == Some(c) ==> ExitTold(old(View()), c, exit, View())
      ensures old(child) != Some(c) ==> View() == old(View())
    {
      ChildExitValid(View(), c, exit, env);
      if child == Some(c) {
        ExitTells(View(), c, exit, env);
        LoseChild(c, exit, env);
      }
    }

    method LoseChild(c: Child, exit: Exit, env: Env)
      requires Valid(View())
      modifies this
      ensures View() == OnExit(old(View()), c, exit, env)
    {
      var wasStopping := c in stoppingChildren;
      var stop := JudgeExit(c, exit);
      var restart := desiredRunning && (!wasStopping || stop.None? || c in restartAfterExitChildren);
      MarkExited(c, exit);
      Depart(stop, if wasStopping && stop == Some(Resolved) then Stopped else Degraded, restart, env);
    }

    /** How the exit of the child settles the stop request, if it has one. */
    method JudgeExit(c: Child, exit: Exit) returns (stop: Option<Settlement>)
      requires Valid(View())
      ensures stop == if c in stoppingChildren && WaitsFor(View(), c) then Some(StopVerdict(View(), stopWaiter.value, exit)) else None
    {
      stop := None;
      if c in stoppingChildren && stopWaiter.Some? && stopWaiter.value.child == c {
        var how := JudgeStop(c, exit);
        stop := Some(how);
      }
    }

    /** A start that takes too long fails, and its child is stopped, to be started again after its exit. */
    method OnStartTimer(env: Env)
      requires Valid(View())
      modifies this
      ensures View() == Supervisor.OnStartTimeout(old(View()), env)
      ensures After(old(View())) && child == old(child)
      ensures old(startWaiter).Some? ==>
                && StartTold(old(View()), Rejected, View()) && stopPromise.Some?
                && child.Some? && child.value in stoppingChildren && child.value in restartAfterExitChildren
      ensures old(startWaiter).None? ==> View() == old(View())
    {
      StartTimeoutValid(View(), env);
      StartTimeoutTells(View(), env);
      GiveUpStart(env);
    }

    method GiveUpStart(env: Env)
      modifies this
      ensures View() == OnStartTimeout(old(View()), env)
    {
      if startWaiter.Some? {
        FinishTheStart(Rejected);
        state := Degraded;
        var stop := StopTheChild(true, env);
      }
    }

    /** The deadline of a stop: its child is killed, so the request can no longer end well. */
    method OnStopTimer(env: Env)
      requires Valid(View())
      modifies this
      ensures View() == Supervisor.OnStopTimeout(old(View()))
      ensures After(old(View())) && child == old(child) && stopPromise == old(stopPromise)
      ensures old(stopWaiter).Some? && old(stopWaiter).value.stopTimer ==>
                && child.Some? && child.value in facts.killed && !StopWasClean(facts, old(stopWaiter).value.ticket)
                && stopWaiter.Some? && stopWaiter.value.forceTimer && !stopWaiter.value.stopTimer
      ensures old(stopWaiter).None? || !old(stopWaiter).value.stopTimer ==> View() == old(View())
    {
      StopTimeoutValid(View());
      if stopWaiter.Some? && stopWaiter.value.stopTimer {
        stopWaiter := Some(stopWaiter.value.(forced := true, stopTimer := false));
        KillChild(stopWaiter.value.child);
        stopWaiter := Some(stopWaiter.value.(forceTimer := true));
      }
    }

    /** A killed child that does not exit: the request fails, and nobody waits for it any longer. */
    method OnForceTimer(env: Env)
      requires Valid(View())
      modifies this
      ensures View() == Supervisor.OnForceTimeout(old(View()), env)
      ensures After(old(View()))
      ensures old(stopWaiter).Some? && old(stopWaiter).value.forceTimer ==>
                && old(stopWaiter).value.ticket in facts.settled && facts.settled[old(stopWaiter).value.ticket] == Rejected
                && old(stopWaiter).value.child in facts.killed
    {
      ForceTimeoutValid(View(), env);
      ForceTimeoutSettles(View(), env);
      GiveUpStop(env);
    }

    method GiveUpStop(env: Env)
      modifies this
      ensures View() == OnForceTimeout(old(View()), env)
    {
      if stopWaiter.Some? && stopWaiter.value.forceTimer {
        SettleTheStop(Rejected);
        state := Degraded;
        ResumeParked(Rejected, env);
      }
    }

    /** The automatic restart: a new child, unless spawning throws, and the attempts count on. */
    method OnRestartTimer(env: Env)
      requires Valid(View())
      modifies this
      ensures View() == Supervisor.OnRestartTimer(old(View()), env)
      ensures After(old(View())) && restartAttempt == old(restartAttempt) && !restartTimer
      ensures old(restartTimer) ==> desiredRunning && (child.Some? <==> !env.spawnThrows)
      ensures !old(restartTimer) ==> View() == old(View())
    {
      RestartTimerValid(View(), env);
      if restartTimer {
        restartTimer := false;
        var t := NewPromise();
        assert View() == Issue(old(View())).(restartTimer := false);
        StartCall(t, false, env);
      }
    }

    /** A child that has run long enough renews the restarts. */
    method OnStableRunTimer(env: Env)
      requires Valid(View())
      modifies this
      ensures View() == Supervisor.OnStableRun(old(View()))
      ensures After(old(View())) && child == old(child) && facts == old(facts)
      ensures old(stableRunTimer) ==> child.Some? && restartAttempt == 0
      ensures !old(stableRunTimer) ==> restartAttempt == old(restartAttempt)
    {
      StableRunValid(View());
      if stableRunTimer {
        stableRunTimer := false;
        restartAttempt := 0;
      }
    }

    /** A readiness request that is not answered in time fails, and no other. */
    method OnUpdateTimer(u: Ticket, env: Env)
      requires Valid(View())
      modifies this
      ensures View() == AnswerUpdate(old(View()), u, Rejected)
      ensures After(old(View())) && Answered(old(View()), {u}, Rejected, View())
    {
      AnswerValid(View(), u, Rejected);
      AnswerSettles(View(), u, Rejected);
      if u in updateWaiters {
        updateWaiters := updateWaiters - {u};
        SettlePromise(u, Rejected);
      }
    }

    /** The 25 millisecond poll of a start that waits for another start: it ends as that one does. */
    method OnPollTimer(t: Ticket, env: Env)
      requires Valid(View())
      modifies this
      ensures View() == Supervisor.OnPoll(old(View()), t)
      ensures After(old(View()))
      ensures t in old(pollers) && state == Running ==> t in facts.settled && facts.settled[t] == Resolved
      ensures t in old(pollers) && state != Running && startWaiter.None? ==> t in facts.settled && facts.settled[t] == Rejected
      ensures t in old(pollers) && state != Running && startWaiter.Some? ==> t in pollers
    {
      PollValid(View(), t);
      if t in pollers {
        if state == Running {
          SettlePromise(t, Resolved);
          pollers := pollers - {t};
        } else if startWaiter.None? {
          SettlePromise(t, Rejected);
          pollers := pollers - {t};
        }
      }
    }

    /** An event the outside world delivers: no call, so no promise is handed out. */
    method Deliver(e: Event, env: Env)
      requires Valid(View()) && External(e)
      modifies this
      ensures View() == Step(old(View()), e, env)
      ensures After(old(View()))
    {
      if e.ChildError? || e.ChildExit? {
        DeliverEnd(e, env);
      } else if FromChild(e) {
        DeliverMessage(e, env);
      } else {
        DeliverTimer(e, env);
      }
    }

    /** What the child says: the listeners `start` puts on it. */
    method DeliverMessage(e: Event, env: Env)
      requires Valid(View()) && FromChild(e) && !e.ChildError? && !e.ChildExit?
      modifies this
      ensures View() == Step(old(View()), e, env)
      ensures After(old(View()))
    {
      match e {
        case Ready(c) => OnReady(c, env);
        case StartupFailed(c, retryable) => OnStartupFailed(c, retryable, env);
        case StopAcknowledged(c) => OnStopAcknowledged(c, env);
        case UpdateAnswered(c, u) => OnUpdateAnswered(c, u, env);
      }
    }

    /** Its error, or its exit. */
    method DeliverEnd(e: Event, env: Env)
      requires Valid(View()) && (e.ChildError? || e.ChildExit?)
      modifies this
      ensures View() == Step(old(View()), e, env)
      ensures After(old(View()))
    {
      match e {
        case ChildError(c, spawnFailed) => OnChildError(c, spawnFailed, env);
        case ChildExit(c, exit) => OnChildExit(c, exit, env);
      }
    }

    method DeliverTimer(e: Event, env: Env)
      requires Valid(View()) && External(e) && !FromChild(e)
      modifies this
      ensures View() == Step(old(View()), e, env)
      ensures After(old(View()))
    {
      match e {
        case StartTimeout => OnStartTimer(env);
        case StopTimeout => OnStopTimer(env);
        case ForceTimeout => OnForceTimer(env);
        case RestartTimer => OnRestartTimer(env);
        case StableRunTimer => OnStableRunTimer(env);
        case UpdateTimeout(u) => OnUpdateTimer(u, env);
        case Poll(t) => OnPollTimer(t, env);
      }
    }
  }
}
