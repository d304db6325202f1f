/** The daemon supervisor (apps/host/src/daemonSupervisor.ts): one child process, the promises given to
    its callers, and its timers, as a state machine.

    One `Event` is a call, a message or signal from the child, or a timer; its handler runs to completion
    together with the promise continuations it releases, as in a JavaScript event loop.  A `Ticket` stands
    for a promise handed out and `settled` records how it was settled.  Every event is proved to keep the
    invariant `Valid`.  The class `DaemonSupervisor` of module Daemon performs these steps on its fields. */
module Supervisor {
  import opened Wrappers

  type Ticket = nat
  type Child = nat

  datatype DaemonState = Stopped | Starting | Running | Stopping | Degraded
  datatype Settlement = Resolved | Rejected
  datatype Exit = Exit(code: Option<int>, signal: Option<string>)

  datatype StopWaiter = StopWaiter(
    ticket: Ticket, child: Child, acknowledged: bool, forced: bool, stopTimer: bool, forceTimer: bool)

  /** A call that waits for `stopPromise`: `start`, or `restart` between its two halves. */
  datatype Parked = ParkedStart(ticket: Ticket, resetAttempts: bool) | ParkedRestart(ticket: Ticket)

  datatype Host = Host(
    maximumRestarts: nat,
    child: Option<Child>,
    state: DaemonState,
    restartAttempt: nat,
    desiredRunning: bool,
    restartTimer: bool,
    stableRunTimer: bool,
    startWaiter: Option<Ticket>,
    stopWaiter: Option<StopWaiter>,
    stopPromise: Option<Ticket>,
    updateWaiters: map<Ticket, Child>,
    forcedChildren: set<Child>,
    restartAfterExitChildren: set<Child>,
    stoppingChildren: set<Child>,
    parked: seq<Parked>,
    pollers: set<Ticket>,
    facts: Facts)

  /** What has happened: children and promises handed out, and how they ended. */
  datatype Facts = Facts(
    nextChild: Child,
    nextTicket: Ticket,
    settled: map<Ticket, Settlement>,
    exits: map<Child, Exit>,
    neverSpawned: set<Child>,
    killed: set<Child>,
    stopRequests: map<Ticket, Child>,
    acknowledgements: set<Ticket>)

  datatype Event =
    | CallStart(resetAttempts: bool)
    | CallStop
    | CallStopForUpdate
    | CallRestart
    | CallUpdate
    | Ready(child: Child)
    | StartupFailed(child: Child, retryable: bool)
    | StopAcknowledged(child: Child)
    | UpdateAnswered(child: Child, ticket: Ticket)
    | ChildError(child: Child, spawnFailed: bool)
    | ChildExit(child: Child, exit: Exit)
    | StartTimeout
    | StopTimeout
    | ForceTimeout
    | RestartTimer
    | StableRunTimer
    | UpdateTimeout(ticket: Ticket)
    | Poll(ticket: Ticket)

  /** What the operating system answers: whether the child's channel is connected, whether spawn throws. */
  datatype Env = Env(connected: bool, spawnThrows: bool)

  /** Not a call: a message, an error or an exit of the child, or a timer. */
  predicate External(e: Event) {
    !e.CallStart? && !e.CallStop? && !e.CallStopForUpdate? && !e.CallRestart? && !e.CallUpdate?
  }

  /** A message, an error or an exit of a child. */
  predicate FromChild(e: Event) {
    e.Ready? || e.StartupFailed? || e.StopAcknowledged? || e.UpdateAnswered? || e.ChildError? || e.ChildExit?
  }

  predicate Clean(exit: Exit) {
    exit.code == Some(0) && exit.signal == None
  }

  function Initial(restartDelays: nat): Host {
    Host(if restartDelays == 0 then 3 else restartDelays, None, Stopped, 0, true, false, false, None, None, None,
         map[], {}, {}, {}, [], {}, Facts(0, 0, map[], map[], {}, {}, map[], {}))
  }

  // ---- steps

  function Settle(h: Host, t: Ticket, how: Settlement): Host {
    h.(facts := h.facts.(settled := h.facts.settled[t := how]))
  }

  /** A new promise, in the hands of the running event until it is stored or settled. */
  function Issue(h: Host): Host {
    h.(facts := h.facts.(nextTicket := h.facts.nextTicket + 1))
  }

  function SetDesired(h: Host, desired: bool): Host {
    h.(desiredRunning := desired, restartTimer := h.restartTimer && desired)
  }

  function Prepared(h: Host, resetAttempts: bool): Host {
    h.(restartAttempt := if resetAttempts then 0 else h.restartAttempt, restartTimer := false, state := Starting)
  }

  function Spawned(h: Host, t: Ticket): Host {
    h.(child := Some(h.facts.nextChild), startWaiter := Some(t), facts := h.facts.(nextChild := h.facts.nextChild + 1))
  }

  /** `start` after its wait for `stopPromise`. */
  function StartNow(h: Host, t: Ticket, resetAttempts: bool, env: Env): Host {
    if h.startWaiter.Some? then h.(pollers := h.pollers + {t})
    else if h.child.Some? then Settle(h, t, Rejected)
    else
      var h := Prepared(h, resetAttempts);
      if env.spawnThrows then Settle(h, t, Rejected) else Spawned(h, t)
  }

  function Start(h: Host, t: Ticket, resetAttempts: bool, env: Env): Host {
    var h := SetDesired(h, true);
    if h.state == Running then Settle(h, t, Resolved)
    else if h.stopPromise.Some? then h.(parked := h.parked + [ParkedStart(t, resetAttempts)])
    else StartNow(h, t, resetAttempts, env)
  }

  function MarkRestart(h: Host, c: Child, restartAfterExit: bool): Host {
    if restartAfterExit then h.(restartAfterExitChildren := h.restartAfterExitChildren + {c}) else h
  }

  /** A new stop request on the live child, before the child hears of it. */
  function Requested(h: Host, c: Child): Host {
    Awaited(Issue(h.(stoppingChildren := h.stoppingChildren + {c}, state := Stopping)), h.facts.nextTicket, c)
  }

  /** The promise `t` of a stop request on the child, with its deadline. */
  function Awaited(h: Host, t: Ticket, c: Child): Host {
    h.(stopPromise := Some(t), stopWaiter := Some(StopWaiter(t, c, false, false, true, false)),
       facts := h.facts.(stopRequests := h.facts.stopRequests[t := c]))
  }

  /** `stopChild`; the promise it returns is the second component. */
  function StopChild(h: Host, restartAfterExit: bool, env: Env): (Host, Ticket) {
    var t := h.facts.nextTicket;
    if h.child.None? then (Settle(Issue(h), t, Resolved).(state := Stopped), t)
    else
      var c := h.child.value;
      if h.stopPromise.Some? then (MarkRestart(h, c, restartAfterExit), h.stopPromise.value)
      else
        var n := MarkRestart(Requested(h, c), c, restartAfterExit);
        (if env.connected then n else Force(n), t)
  }

  /** `SIGKILL` for the child of the stop waiter. */
  function Force(h: Host): Host
  {
    if h.stopWaiter.None? then h
    else Kill(h, h.stopWaiter.value.child).(stopWaiter := Some(h.stopWaiter.value.(forced := true)))
  }

  function Kill(h: Host, c: Child): Host {
    h.(forcedChildren := h.forcedChildren + {c}, facts := h.facts.(killed := h.facts.killed + {c}))
  }

  function ResumeOne(h: Host, call: Parked, how: Settlement, env: Env): Host {
    match call
    case ParkedStart(t, resetAttempts) =>
      if how == Rejected && h.child.Some? then Settle(h, t, Rejected) else StartNow(h, t, resetAttempts, env)
    case ParkedRestart(t) =>
      if how == Rejected then Settle(h, t, Rejected) else Start(h.(restartAttempt := 0), t, true, env)
  }

  function Resume(h: Host, calls: seq<Parked>, how: Settlement, env: Env): Host
    decreases |calls|
  {
    if calls == [] then h else Resume(ResumeOne(h, calls[0], how, env), calls[1..], how, env)
  }

  function Waiting(calls: seq<Parked>, starts: bool): seq<Parked> {
    if calls == [] then []
    else (if calls[0].ParkedStart? == starts then [calls[0]] else []) + Waiting(calls[1..], starts)
  }

  /** The order in which waiting calls go on: a `start` awaits `stopPromise` itself, a `restart` two further
      async functions that return it, so that every waiting start comes first. */
  function InOrder(calls: seq<Parked>): seq<Parked> {
    Waiting(calls, true) + Waiting(calls, false)
  }

  /** The continuations of the settled `stopPromise`: the calls waiting on it go on. */
  function Release(h: Host, how: Settlement, env: Env): Host {
    Resume(h.(parked := []), InOrder(h.parked), how, env)
  }

  /** Settle the stop request.  The source forgets `stopPromise` in a continuation, but nothing looks at it
      in between. */
  function SettleStop(h: Host, how: Settlement): Host
    requires h.stopWaiter.Some?
  {
    Settle(h, h.stopWaiter.value.ticket, how).(stopWaiter := None, stopPromise := None)
  }

  function FinishStart(h: Host, how: Settlement): Host {
    if h.startWaiter.None? then h else Settle(h, h.startWaiter.value, how).(startWaiter := None)
  }

  function FailUpdateWaiters(h: Host): Host {
    h.(updateWaiters := map[],
       facts := h.facts.(settled := h.facts.settled + (map t | t in h.updateWaiters :: Rejected)))
  }

  function ScheduleRestart(h: Host): Host {
    if h.restartAttempt >= h.maximumRestarts then h
    else h.(restartAttempt := h.restartAttempt + 1, restartTimer := true)
  }

  predicate WaitsFor(h: Host, c: Child) {
    h.stopWaiter.Some? && h.stopWaiter.value.child == c
  }

  function Exited(h: Host, c: Child, exit: Exit): Host {
    h.(child := None, stableRunTimer := false, facts := h.facts.(exits := h.facts.exits[c := exit]))
  }

  function Unspawned(h: Host, c: Child): Host {
    h.(child := None, stableRunTimer := false, facts := h.facts.(neverSpawned := h.facts.neverSpawned + {c}))
  }

  function Ended(h: Host, state: DaemonState, restart: bool): Host {
    var n := h.(state := state);
    if restart then ScheduleRestart(n) else n
  }

  /** What a gone child leaves behind: its update waiters fail, its stop request is settled as given, a
      pending start fails. */
  function Abandoned(h: Host, stop: Option<Settlement>): Host {
    var failed := FailUpdateWaiters(h);
    FinishStart(if stop.Some? && failed.stopWaiter.Some? then SettleStop(failed, stop.value) else failed, Rejected)
  }

  /** `handleChildError` for a child that could not be spawned. */
  function OnSpawnError(h: Host, c: Child, env: Env): Host {
    var wasStopping, waited := c in h.stoppingChildren, WaitsFor(h, c);
    var restart := h.desiredRunning && (!wasStopping || c in h.restartAfterExitChildren);
    var n := Ended(Abandoned(Unspawned(h, c), if waited then Some(Rejected) else None), Degraded, restart);
    if waited then Release(n, Rejected, env) else n
  }

  /** `handleChildError` for any other error: the child lives on. */
  function OnLiveError(h: Host, c: Child): Host {
    FinishStart(Troubled(h, c), Rejected)
  }

  function Troubled(h: Host, c: Child): Host {
    FailUpdateWaiters(h.(stableRunTimer := false)).(state := if c in h.stoppingChildren then Stopping else Degraded)
  }

  /** How `finishStopWaiter` settles the request. */
  function StopVerdict(h: Host, waiter: StopWaiter, exit: Exit): Settlement {
    if waiter.acknowledged && !waiter.forced && waiter.child !in h.forcedChildren && Clean(exit) then Resolved else Rejected
  }

  /** `handleChildExit`. */
  function OnExit(h: Host, c: Child, exit: Exit, env: Env): Host {
    var wasStopping, waited := c in h.stoppingChildren, c in h.stoppingChildren && WaitsFor(h, c);
    var how := if waited then StopVerdict(h, h.stopWaiter.value, exit) else Rejected;
    var restart := h.desiredRunning && (!wasStopping || !waited || c in h.restartAfterExitChildren);
    var n := Ended(Abandoned(Exited(h, c, exit), if waited then Some(how) else None),
                   if wasStopping && how == Resolved then Stopped else Degraded, restart);
    if waited then Release(n, how, env) else n
  }

  /** The start timer: give up on the child, stop it and restart after its exit. */
  function OnStartTimeout(h: Host, env: Env): Host {
    if h.startWaiter.None? then h
    else StopChild(FinishStart(h, Rejected).(state := Degraded), true, env).0
  }

  function OnForceTimeout(h: Host, env: Env): Host {
    if h.stopWaiter.None? || !h.stopWaiter.value.forceTimer then h
    else Release(SettleStop(h, Rejected).(state := Degraded), Rejected, env)
  }

  /** The 25 millisecond poll of a start that waits for another start. */
  function OnPoll(h: Host, t: Ticket): Host {
    if t !in h.pollers then h
    else if h.state == Running then SettlePoller(h, t, Resolved)
    else if h.startWaiter.None? then SettlePoller(h, t, Rejected)
    else h
  }

  function SettlePoller(h: Host, t: Ticket, how: Settlement): Host {
    Settle(h, t, how).(pollers := h.pollers - {t})
  }

  function OnCallRestart(h: Host, env: Env): Host {
    var h := StopChild(SetDesired(h, false), false, env).0;
    var t := h.facts.nextTicket;
    if h.stopPromise.Some? then Issue(h).(parked := h.parked + [ParkedRestart(t)])
    else Start(Issue(h).(restartAttempt := 0), t, true, env)
  }

  function OnCallUpdate(h: Host, env: Env): Host {
    var t := h.facts.nextTicket;
    if h.child.None? || !env.connected || h.state != Running then Settle(Issue(h), t, Rejected)
    else Issue(h).(updateWaiters := h.updateWaiters[t := h.child.value])
  }

  function OnReady(h: Host, c: Child): Host {
    if h.child != Some(c) || c in h.stoppingChildren then h
    else FinishStart(h, Resolved).(state := Running, stableRunTimer := true)
  }

  function OnStartupFailed(h: Host, c: Child, retryable: bool): Host {
    if h.child != Some(c) then h
    else
      var h := FinishStart(h, Rejected);
      if c in h.stoppingChildren then h
      else h.(desiredRunning := retryable && h.desiredRunning, state := Degraded)
  }

  function OnStopAcknowledged(h: Host, c: Child): Host {
    if h.child != Some(c) || h.stopWaiter.None? then h
    else h.(stopWaiter := Some(h.stopWaiter.value.(acknowledged := true)),
            facts := h.facts.(acknowledgements := h.facts.acknowledgements + {h.stopWaiter.value.ticket}))
  }

  function OnUpdateAnswered(h: Host, c: Child, u: Ticket): Host {
    if h.child != Some(c) then h else AnswerUpdate(h, u, Resolved)
  }

  function AnswerUpdate(h: Host, u: Ticket, how: Settlement): Host {
    if u !in h.updateWaiters then h else Settle(h, u, how).(updateWaiters := h.updateWaiters - {u})
  }

  function OnStopTimeout(h: Host): Host {
    if h.stopWaiter.None? || !h.stopWaiter.value.stopTimer then h
    else
      var n := Force(h);
      n.(stopWaiter := Some(n.stopWaiter.value.(stopTimer := false, forceTimer := true)))
  }

  function OnRestartTimer(h: Host, env: Env): Host {
    if !h.restartTimer then h else Start(Issue(h).(restartTimer := false), h.facts.nextTicket, false, env)
  }

  function OnStableRun(h: Host): Host {
    if !h.stableRunTimer then h else h.(stableRunTimer := false, restartAttempt := 0)
  }

  function OnCallStart(h: Host, resetAttempts: bool, env: Env): Host {
    Start(Issue(h), h.facts.nextTicket, resetAttempts, env)
  }

  function OnCallStop(h: Host, env: Env): Host {
    StopChild(SetDesired(h, false), false, env).0
  }

  function OnChildError(h: Host, c: Child, spawnFailed: bool, env: Env): Host {
    if h.child != Some(c) then h else if spawnFailed then OnSpawnError(h, c, env) else OnLiveError(h, c)
  }

  function OnChildExit(h: Host, c: Child, exit: Exit, env: Env): Host {
    if h.child != Some(c) then h else OnExit(h, c, exit, env)
  }

  function Step(h: Host, e: Event, env: Env): Host {
    match e
    case CallStart(resetAttempts) => OnCallStart(h, resetAttempts, env)
    case CallStop => OnCallStop(h, env)
    case CallStopForUpdate => StopChild(h, false, env).0
    case CallRestart => OnCallRestart(h, env)
    case CallUpdate => OnCallUpdate(h, env)
    case Ready(c) => OnReady(h, c)
    case StartupFailed(c, retryable) => OnStartupFailed(h, c, retryable)
    case StopAcknowledged(c) => OnStopAcknowledged(h, c)
    case UpdateAnswered(c, u) => OnUpdateAnswered(h, c, u)
    case ChildError(c, spawnFailed) => OnChildError(h, c, spawnFailed, env)
    case ChildExit(c, exit) => OnChildExit(h, c, exit, env)
    case StartTimeout => OnStartTimeout(h, env)
    case StopTimeout => OnStopTimeout(h)
    case ForceTimeout => OnForceTimeout(h, env)
    case RestartTimer => OnRestartTimer(h, env)
    case StableRunTimer => OnStableRun(h)
    case UpdateTimeout(u) => AnswerUpdate(h, u, Rejected)
    case Poll(t) => OnPoll(h, t)
  }

  // ---- the invariant

  /** How many places hold a promise. */
  function Owners(h: Host, t: Ticket): nat {
    (if h.startWaiter == Some(t) then 1 else 0) +
    (if h.stopPromise == Some(t) then 1 else 0) +
    (if t in h.updateWaiters then 1 else 0) +
    (if t in h.pollers then 1 else 0) +
    (if t in h.facts.settled then 1 else 0) +
    Tickets(h.parked)[t]
  }

  function Tickets(calls: seq<Parked>): multiset<Ticket> {
    if calls == [] then multiset{} else multiset{calls[0].ticket} + Tickets(calls[1..])
  }

  /** Every promise handed out is in exactly one place: waiting in one role, or settled.  `held` are the
      promises the running event has in its hands. */
  ghost predicate TicketsValid(h: Host, held: multiset<Ticket>) {
    forall t: Ticket :: Owners(h, t) + held[t] == if t < h.facts.nextTicket then 1 else 0
  }

  /** The children: exactly those that neither exited nor failed to spawn are live, and there is at most
      one.  Only a killed child counts as forced. */
  ghost predicate Core(h: Host) {
    && (forall c: Child :: c < h.facts.nextChild ==>
          (c !in h.facts.exits && c !in h.facts.neverSpawned <==> h.child == Some(c)))
    && (forall c: Child :: c in h.facts.exits || c in h.facts.neverSpawned ==> c < h.facts.nextChild)
    && (forall c: Child :: c in h.stoppingChildren || c in h.forcedChildren ==> c < h.facts.nextChild)
    && (h.child.Some? ==> h.child.value < h.facts.nextChild)
    && h.restartAfterExitChildren <= h.stoppingChildren
    && h.facts.killed == h.forcedChildren
    && h.restartAttempt <= h.maximumRestarts
    && (h.restartTimer ==> h.desiredRunning)
  }

  /** Timers and waiters belong to the live child, and `running` means running. */
  ghost predicate Belong(h: Host) {
    && (h.child.Some? ==> !h.restartTimer)
    && (h.stableRunTimer ==> h.child.Some?)
    && (h.startWaiter.Some? ==> h.child.Some?)
    && (forall t: Ticket :: t in h.updateWaiters ==> h.child == Some(h.updateWaiters[t]))
    && (h.stopWaiter.Some? ==> h.child == Some(h.stopWaiter.value.child) && h.stopWaiter.value.child in h.stoppingChildren)
    && (h.state == Running ==> h.child.Some? && h.child.value !in h.stoppingChildren && h.startWaiter == None)
  }

  /** A settled stop request ended well exactly when it was acknowledged and its child, never killed, exited
      cleanly; and one settled before its child was gone is one whose child was killed. */
  ghost predicate StopsValid(h: Host) {
    && (forall t: Ticket :: t in h.facts.stopRequests ==> StopValid(h, t))
    && (forall t: Ticket :: t in h.facts.acknowledgements ==> t < h.facts.nextTicket)
  }

  ghost predicate StopValid(h: Host, t: Ticket)
    requires t in h.facts.stopRequests
  {
    && t < h.facts.nextTicket && h.facts.stopRequests[t] < h.facts.nextChild
    && (t in h.facts.settled || h.stopPromise == Some(t))
    && (t in h.facts.settled ==>
          && (h.facts.settled[t] == Resolved <==> StopWasClean(h.facts, t))
          && StopIsOver(h.facts, t))
  }

  ghost predicate StopIsOver(facts: Facts, t: Ticket)
    requires t in facts.stopRequests
  {
    var c := facts.stopRequests[t];
    c in facts.exits || c in facts.neverSpawned || c in facts.killed
  }

  ghost predicate StopWasClean(facts: Facts, t: Ticket) {
    && t in facts.stopRequests && t in facts.acknowledgements
    && facts.stopRequests[t] !in facts.killed
    && facts.stopRequests[t] in facts.exits && Clean(facts.exits[facts.stopRequests[t]])
  }

  /** The stop promise is the one of the stop waiter, whose flags tell the truth. */
  ghost predicate PromiseValid(h: Host) {
    && h.stopPromise == (if h.stopWaiter.Some? then Some(h.stopWaiter.value.ticket) else None)
    && (h.stopWaiter.Some? ==>
          var waiter := h.stopWaiter.value;
          && waiter.ticket in h.facts.stopRequests && h.facts.stopRequests[waiter.ticket] == waiter.child
          && (waiter.acknowledged <==> waiter.ticket in h.facts.acknowledgements)
          && (waiter.forced ==> waiter.child in h.forcedChildren)
          && (waiter.forceTimer ==> waiter.forced))
  }

  /** What holds inside an event, with the promises `held` in hand. */
  ghost predicate Inner(h: Host, held: multiset<Ticket>) {
    Core(h) && Belong(h) && StopsValid(h) && PromiseValid(h) && TicketsValid(h, held)
  }

  /** What holds between events: also, only a stop in progress has calls waiting on it. */
  ghost predicate Valid(h: Host) {
    Inner(h, multiset{}) && (h.parked != [] ==> h.stopPromise.Some?)
  }

  /** What has happened stays: above all, a promise is settled once. */
  ghost predicate Grows(f: Facts, g: Facts) {
    && (forall t: Ticket :: t in f.settled ==> t in g.settled && g.settled[t] == f.settled[t])
    && (forall c: Child :: c in f.exits ==> c in g.exits && g.exits[c] == f.exits[c])
    && (forall t: Ticket :: t in f.stopRequests ==> t in g.stopRequests && g.stopRequests[t] == f.stopRequests[t])
    && f.killed <= g.killed && f.neverSpawned <= g.neverSpawned && f.acknowledgements <= g.acknowledgements
    && f.nextChild <= g.nextChild && f.nextTicket <= g.nextTicket
  }

  lemma InitialValid(restartDelays: nat)
    ensures Valid(Initial(restartDelays))
  {
  }

  // ---- every promise stays in exactly one place

  lemma SameTickets(h: Host, n: Host, held: multiset<Ticket>)
    requires TicketsValid(h, held)
    requires n.startWaiter == h.startWaiter && n.stopPromise == h.stopPromise && n.updateWaiters.Keys == h.updateWaiters.Keys
    requires n.pollers == h.pollers && n.parked == h.parked
    requires n.facts.settled.Keys == h.facts.settled.Keys && n.facts.nextTicket == h.facts.nextTicket
    ensures TicketsValid(n, held)
  {
    forall u: Ticket ensures Owners(n, u) + held[u] == if u < n.facts.nextTicket then 1 else 0 {
      assert Owners(h, u) + held[u] == if u < h.facts.nextTicket then 1 else 0;
    }
  }

  /** A step that moves promises between owners without creating or losing any. */
  lemma MovedTickets(h: Host, held: multiset<Ticket>, n: Host, still: multiset<Ticket>)
    requires TicketsValid(h, held) && n.facts.nextTicket == h.facts.nextTicket
    requires forall u: Ticket :: Owners(n, u) + still[u] == Owners(h, u) + held[u]
    ensures TicketsValid(n, still)
  {
    forall u: Ticket ensures Owners(n, u) + still[u] == if u < n.facts.nextTicket then 1 else 0 {
      assert Owners(h, u) + held[u] == if u < h.facts.nextTicket then 1 else 0;
    }
  }

  lemma IssueTickets(h: Host)
    requires TicketsValid(h, multiset{})
    ensures TicketsValid(Issue(h), multiset{h.facts.nextTicket})
  {
    var n := Issue(h);
    forall u: Ticket ensures Owners(n, u) + multiset{h.facts.nextTicket}[u] == if u < n.facts.nextTicket then 1 else 0 {
      assert Owners(h, u) + multiset{}[u] == if u < h.facts.nextTicket then 1 else 0;
      assert Owners(n, u) == Owners(h, u);
    }
  }

  lemma HeldAlone(h: Host, t: Ticket, held: multiset<Ticket>)
    requires TicketsValid(h, held) && held[t] > 0
    ensures Owners(h, t) == 0 && held[t] == 1
  {
    assert Owners(h, t) + held[t] == if t < h.facts.nextTicket then 1 else 0;
  }

  lemma SettleTickets(h: Host, t: Ticket, how: Settlement, held: multiset<Ticket>)
    requires TicketsValid(h, held) && held[t] > 0
    ensures TicketsValid(Settle(h, t, how), held - multiset{t})
  {
    HeldAlone(h, t, held);
    MovedTickets(h, held, Settle(h, t, how), held - multiset{t});
  }

  lemma FinishStartTickets(h: Host, how: Settlement, held: multiset<Ticket>)
    requires TicketsValid(h, held)
    ensures TicketsValid(FinishStart(h, how), held)
  {
    if h.startWaiter.Some? {
      var t := h.startWaiter.value;
      assert Owners(h, t) + held[t] == if t < h.facts.nextTicket then 1 else 0;
      forall u: Ticket ensures Owners(FinishStart(h, how), u) == Owners(h, u) {
        FinishStartOwners(h, how, u);
      }
      MovedTickets(h, held, FinishStart(h, how), held);
    }
  }

  lemma FinishStartOwners(h: Host, how: Settlement, u: Ticket)
    requires h.startWaiter.Some? && h.startWaiter.value !in h.facts.settled
    ensures Owners(FinishStart(h, how), u) == Owners(h, u)
  {
  }

  lemma SettleStopTickets(h: Host, how: Settlement, held: multiset<Ticket>)
    requires TicketsValid(h, held) && h.stopWaiter.Some? && h.stopPromise == Some(h.stopWaiter.value.ticket)
    ensures TicketsValid(SettleStop(h, how), held)
  {
    var t := h.stopPromise.value;
    assert Owners(h, t) + held[t] == if t < h.facts.nextTicket then 1 else 0;
    MovedTickets(h, held, SettleStop(h, how), held);
  }

  lemma FailUpdateTickets(h: Host, held: multiset<Ticket>)
    requires TicketsValid(h, held)
    ensures TicketsValid(FailUpdateWaiters(h), held)
  {
    var n := FailUpdateWaiters(h);
    forall u: Ticket ensures Owners(n, u) + held[u] == Owners(h, u) + held[u] {
      assert Owners(h, u) + held[u] == if u < h.facts.nextTicket then 1 else 0;
      assert u in n.facts.settled <==> u in h.facts.settled || u in h.updateWaiters;
    }
    MovedTickets(h, held, n, held);
  }

  /** Settling the promises of one role, none of them settled before. */
  lemma SettledGrows(h: Host, n: Host, held: multiset<Ticket>)
    requires TicketsValid(h, held)
    requires n.facts == h.facts.(settled := n.facts.settled)
    requires h.facts.settled.Keys <= n.facts.settled.Keys
    requires forall t: Ticket :: t in h.facts.settled && n.facts.settled[t] != h.facts.settled[t] ==>
               h.startWaiter == Some(t) || t in h.updateWaiters || t in h.pollers
    ensures Grows(h.facts, n.facts)
  {
    forall t: Ticket | t in h.facts.settled ensures n.facts.settled[t] == h.facts.settled[t] {
      assert Owners(h, t) + held[t] == if t < h.facts.nextTicket then 1 else 0;
    }
  }

  lemma AnswerTickets(h: Host, u: Ticket, how: Settlement, held: multiset<Ticket>)
    requires TicketsValid(h, held) && u in h.updateWaiters
    ensures TicketsValid(Settle(h, u, how).(updateWaiters := h.updateWaiters - {u}), held)
  {
    assert Owners(h, u) + held[u] == if u < h.facts.nextTicket then 1 else 0;
    MovedTickets(h, held, Settle(h, u, how).(updateWaiters := h.updateWaiters - {u}), held);
  }

  lemma PollerTickets(h: Host, t: Ticket, how: Settlement, held: multiset<Ticket>)
    requires TicketsValid(h, held) && t in h.pollers
    ensures TicketsValid(SettlePoller(h, t, how), held)
  {
    assert Owners(h, t) + held[t] == if t < h.facts.nextTicket then 1 else 0;
    MovedTickets(h, held, SettlePoller(h, t, how), held);
  }

  lemma {:induction false} TicketsSnoc(calls: seq<Parked>, call: Parked)
    ensures Tickets(calls + [call]) == Tickets(calls) + multiset{call.ticket}
  {
    if calls == [] {
      assert calls + [call] == [call];
      assert [call][1..] == [];
    } else {
      assert (calls + [call])[1..] == calls[1..] + [call];
      TicketsSnoc(calls[1..], call);
    }
  }

  lemma ParkTickets(h: Host, call: Parked, held: multiset<Ticket>)
    requires TicketsValid(h, held) && held[call.ticket] > 0
    ensures TicketsValid(h.(parked := h.parked + [call]), held - multiset{call.ticket})
  {
    TicketsSnoc(h.parked, call);
    HeldAlone(h, call.ticket, held);
    MovedTickets(h, held, h.(parked := h.parked + [call]), held - multiset{call.ticket});
  }

  lemma {:induction false} TicketsConcat(calls: seq<Parked>, more: seq<Parked>)
    ensures Tickets(calls + more) == Tickets(calls) + Tickets(more)
  {
    if calls == [] {
      assert calls + more == more;
    } else {
      assert (calls + more)[1..] == calls[1..] + more;
      TicketsConcat(calls[1..], more);
    }
  }

  lemma {:induction false} WaitingTickets(calls: seq<Parked>)
    ensures Tickets(Waiting(calls, true)) + Tickets(Waiting(calls, false)) == Tickets(calls)
  {
    if calls != [] {
      WaitingTickets(calls[1..]);
      WaitingFirst(calls, true);
      WaitingFirst(calls, false);
    }
  }

  lemma WaitingFirst(calls: seq<Parked>, starts: bool)
    requires calls != []
    ensures Tickets(Waiting(calls, starts))
            == (if calls[0].ParkedStart? == starts then multiset{calls[0].ticket} else multiset{}) + Tickets(Waiting(calls[1..], starts))
  {
    TicketsSingle(calls[0]);
    TicketsConcat([calls[0]], Waiting(calls[1..], starts));
    assert [] + Waiting(calls[1..], starts) == Waiting(calls[1..], starts);
  }

  lemma TicketsSingle(call: Parked)
    ensures Tickets([call]) == multiset{call.ticket}
  {
    assert [call][1..] == [];
  }

  /** Nobody who waits is forgotten. */
  lemma InOrderTickets(calls: seq<Parked>)
    ensures Tickets(InOrder(calls)) == Tickets(calls)
  {
    WaitingTickets(calls);
    TicketsConcat(Waiting(calls, true), Waiting(calls, false));
  }

  lemma {:induction false} WaitingMembers(calls: seq<Parked>, starts: bool)
    ensures forall call :: call in Waiting(calls, starts) <==> call in calls && call.ParkedStart? == starts
    ensures |Waiting(calls, starts)| + |Waiting(calls, !starts)| == |calls|
  {
    if calls != [] {
      WaitingMembers(calls[1..], starts);
      assert calls == [calls[0]] + calls[1..];
    }
  }

  lemma InOrderMembers(calls: seq<Parked>)
    ensures forall call :: call in InOrder(calls) <==> call in calls
    ensures |InOrder(calls)| == |calls|
  {
    WaitingMembers(calls, true);
    WaitingMembers(calls, false);
  }

  lemma UnparkTickets(h: Host)
    requires TicketsValid(h, multiset{})
    ensures TicketsValid(h.(parked := []), Tickets(h.parked))
  {
    MovedTickets(h, multiset{}, h.(parked := []), Tickets(h.parked));
  }

  // ---- stops

  /** Settling anything but a stop request says nothing about stops. */
  lemma SettleStops(h: Host, t: Ticket, how: Settlement)
    requires StopsValid(h) && t !in h.facts.stopRequests
    ensures StopsValid(Settle(h, t, how))
  {
    var n := Settle(h, t, how);
    forall u: Ticket | u in n.facts.stopRequests
      ensures StopValid(n, u)
    {
      assert u in h.facts.stopRequests ==> StopValid(h, u);
    }
  }

  lemma HeldIsNoStop(h: Host, t: Ticket, held: multiset<Ticket>)
    requires StopsValid(h) && TicketsValid(h, held) && held[t] > 0
    ensures t !in h.facts.stopRequests
  {
    HeldAlone(h, t, held);
  }

  lemma SettleStopStops(h: Host, how: Settlement)
    requires StopsValid(h) && PromiseValid(h) && h.stopWaiter.Some?
    requires PromiseValid(h) && StopIsOver(h.facts, h.stopWaiter.value.ticket)
    requires how == Resolved <==> StopWasClean(h.facts, h.stopWaiter.value.ticket)
    ensures StopsValid(SettleStop(h, how)) && PromiseValid(SettleStop(h, how))
  {
    var n := SettleStop(h, how);
    forall u: Ticket | u in n.facts.stopRequests
      ensures StopValid(n, u)
    {
      assert u in h.facts.stopRequests ==> StopValid(h, u);
    }
  }

  lemma FailUpdateStops(h: Host, held: multiset<Ticket>)
    requires StopsValid(h) && TicketsValid(h, held)
    ensures StopsValid(FailUpdateWaiters(h))
  {
    var n := FailUpdateWaiters(h);
    forall u: Ticket | u in n.facts.stopRequests
      ensures StopValid(n, u)
    {
      assert Owners(h, u) + held[u] == if u < h.facts.nextTicket then 1 else 0;
      assert StopValid(h, u);
    }
  }

  lemma FinishStartStops(h: Host, how: Settlement, held: multiset<Ticket>)
    requires StopsValid(h) && TicketsValid(h, held)
    ensures StopsValid(FinishStart(h, how))
  {
    if h.startWaiter.Some? {
      var t := h.startWaiter.value;
      assert Owners(h, t) + held[t] == if t < h.facts.nextTicket then 1 else 0;
      SettleStops(h, t, how);
    }
  }

  // ---- the pieces of an event keep the invariant

  lemma SettleInner(h: Host, t: Ticket, how: Settlement, held: multiset<Ticket>)
    requires Inner(h, held) && held[t] > 0
    ensures Inner(Settle(h, t, how), held - multiset{t})
    ensures Grows(h.facts, Settle(h, t, how).facts)
  {
    HeldIsNoStop(h, t, held);
    SettleStops(h, t, how);
    SettleTickets(h, t, how, held);
  }

  lemma IssueInner(h: Host)
    requires Inner(h, multiset{})
    ensures Inner(Issue(h), multiset{h.facts.nextTicket})
  {
    IssueTickets(h);
    KeepStops(h, Issue(h));
  }

  /** A step that leaves the facts about stops alone. */
  lemma KeepStops(h: Host, n: Host)
    requires StopsValid(h)
    requires n.stopPromise == h.stopPromise && n.facts.settled == h.facts.settled && n.facts.stopRequests == h.facts.stopRequests
    requires n.facts.acknowledgements == h.facts.acknowledgements && n.facts.exits == h.facts.exits
    requires n.facts.killed == h.facts.killed && n.facts.neverSpawned == h.facts.neverSpawned
    requires n.facts.nextTicket >= h.facts.nextTicket && n.facts.nextChild >= h.facts.nextChild
    ensures StopsValid(n)
  {
    forall u: Ticket | u in n.facts.stopRequests
      ensures StopValid(n, u)
    {
      assert u in h.facts.stopRequests ==> StopValid(h, u);
    }
  }

  lemma FinishStartInner(h: Host, how: Settlement, held: multiset<Ticket>)
    requires Inner(h, held)
    ensures Inner(FinishStart(h, how), held)
    ensures Grows(h.facts, FinishStart(h, how).facts)
  {
    SettledGrows(h, FinishStart(h, how), held);
    FinishStartStops(h, how, held);
    FinishStartTickets(h, how, held);
  }

  lemma SpawnInner(h: Host, t: Ticket, held: multiset<Ticket>)
    requires Inner(h, held) && held[t] > 0 && h.child.None? && !h.restartTimer && h.state != Running
    ensures Inner(Spawned(h, t), held - multiset{t})
  {
    HeldAlone(h, t, held);
    MovedTickets(h, held, Spawned(h, t), held - multiset{t});
    KeepStops(h, Spawned(h, t));
  }

  lemma PreparedInner(h: Host, resetAttempts: bool, held: multiset<Ticket>)
    requires Inner(h, held) && h.child.None?
    ensures Inner(Prepared(h, resetAttempts), held)
  {
    SameTickets(h, Prepared(h, resetAttempts), held);
    KeepStops(h, Prepared(h, resetAttempts));
  }

  lemma PollInner(h: Host, t: Ticket, held: multiset<Ticket>)
    requires Inner(h, held) && held[t] > 0
    ensures Inner(h.(pollers := h.pollers + {t}), held - multiset{t})
  {
    HeldAlone(h, t, held);
    MovedTickets(h, held, h.(pollers := h.pollers + {t}), held - multiset{t});
    KeepStops(h, h.(pollers := h.pollers + {t}));
  }

  lemma StartNowInner(h: Host, t: Ticket, resetAttempts: bool, env: Env, held: multiset<Ticket>)
    requires Inner(h, held) && held[t] > 0
    ensures Inner(StartNow(h, t, resetAttempts, env), held - multiset{t})
    ensures Grows(h.facts, StartNow(h, t, resetAttempts, env).facts)
  {
    if h.startWaiter.Some? {
      PollInner(h, t, held);
    } else if h.child.Some? {
      SettleInner(h, t, Rejected, held);
    } else {
      PreparedInner(h, resetAttempts, held);
      if env.spawnThrows {
        SettleInner(Prepared(h, resetAttempts), t, Rejected, held);
      } else {
        SpawnInner(Prepared(h, resetAttempts), t, held);
      }
    }
  }

  lemma StartInner(h: Host, t: Ticket, resetAttempts: bool, env: Env, held: multiset<Ticket>)
    requires Inner(h, held) && held[t] > 0
    ensures Inner(Start(h, t, resetAttempts, env), held - multiset{t})
    ensures Grows(h.facts, Start(h, t, resetAttempts, env).facts)
  {
    var wanted := SetDesired(h, true);
    SameTickets(h, wanted, held);
    KeepStops(h, wanted);
    if wanted.state == Running {
      SettleInner(wanted, t, Resolved, held);
    } else if wanted.stopPromise.Some? {
      ParkTickets(wanted, ParkedStart(t, resetAttempts), held);
      KeepStops(wanted, wanted.(parked := wanted.parked + [ParkedStart(t, resetAttempts)]));
    } else {
      StartNowInner(wanted, t, resetAttempts, env, held);
    }
  }

  lemma ResumeOneInner(h: Host, call: Parked, how: Settlement, env: Env, held: multiset<Ticket>)
    requires Inner(h, held) && held[call.ticket] > 0 && h.stopPromise.None? && h.parked == []
    ensures var n := ResumeOne(h, call, how, env);
            Inner(n, held - multiset{call.ticket}) && n.stopPromise.None? && n.parked == []
    ensures Grows(h.facts, ResumeOne(h, call, how, env).facts)
  {
    match call
    case ParkedStart(t, resetAttempts) =>
      if how == Rejected && h.child.Some? {
        SettleInner(h, t, Rejected, held);
      } else {
        StartNowInner(h, t, resetAttempts, env, held);
      }
    case ParkedRestart(t) =>
      if how == Rejected {
        SettleInner(h, t, Rejected, held);
      } else {
        var reset := h.(restartAttempt := 0);
        SameTickets(h, reset, held);
        KeepStops(h, reset);
        StartInner(reset, t, true, env, held);
      }
  }

  lemma {:induction false} ResumeInner(h: Host, calls: seq<Parked>, how: Settlement, env: Env)
    requires Inner(h, Tickets(calls)) && h.stopPromise.None? && h.parked == []
    ensures Valid(Resume(h, calls, how, env))
    ensures Grows(h.facts, Resume(h, calls, how, env).facts)
    decreases |calls|
  {
    if calls != [] {
      ResumeOneInner(h, calls[0], how, env, Tickets(calls));
      assert Tickets(calls) - multiset{calls[0].ticket} == Tickets(calls[1..]);
      ResumeInner(ResumeOne(h, calls[0], how, env), calls[1..], how, env);
    }
  }

  lemma ReleaseValid(h: Host, how: Settlement, env: Env)
    requires Inner(h, multiset{}) && h.stopPromise.None?
    ensures Valid(Release(h, how, env))
    ensures Grows(h.facts, Release(h, how, env).facts)
  {
    UnparkTickets(h);
    KeepStops(h, h.(parked := []));
    InOrderTickets(h.parked);
    ResumeInner(h.(parked := []), InOrder(h.parked), how, env);
  }

  lemma DesiredInner(h: Host, desired: bool)
    requires Inner(h, multiset{})
    ensures Inner(SetDesired(h, desired), multiset{})
  {
    SameTickets(h, SetDesired(h, desired), multiset{});
    KeepStops(h, SetDesired(h, desired));
  }

  lemma KillInner(h: Host, c: Child)
    requires Inner(h, multiset{}) && h.child == Some(c)
    ensures Inner(Kill(h, c), multiset{})
  {
    var n := Kill(h, c);
    SameTickets(h, n, multiset{});
    forall u: Ticket | u in n.facts.stopRequests
      ensures StopValid(n, u)
    {
      assert u in h.facts.stopRequests ==> StopValid(h, u);
    }
  }

  lemma RequestInner(h: Host, c: Child)
    requires Inner(h, multiset{}) && h.child == Some(c) && h.stopPromise.None?
    ensures Inner(Requested(h, c), multiset{})
    ensures Grows(h.facts, Requested(h, c).facts)
  {
    var n, t := Requested(h, c), h.facts.nextTicket;
    IssueTickets(h);
    MovedTickets(Issue(h), multiset{t}, n, multiset{});
    assert Owners(h, t) + multiset{}[t] == 0;
    forall u: Ticket | u in n.facts.stopRequests
      ensures StopValid(n, u)
    {
      assert u in h.facts.stopRequests ==> StopValid(h, u);
    }
  }

  lemma MarkInner(h: Host, c: Child, restartAfterExit: bool)
    requires Inner(h, multiset{}) && c in h.stoppingChildren
    ensures Inner(MarkRestart(h, c, restartAfterExit), multiset{})
  {
    SameTickets(h, MarkRestart(h, c, restartAfterExit), multiset{});
    KeepStops(h, MarkRestart(h, c, restartAfterExit));
  }

  lemma ForceInner(h: Host)
    requires Inner(h, multiset{}) && h.stopWaiter.Some?
    ensures Inner(Force(h), multiset{})
  {
    KillInner(h, h.stopWaiter.value.child);
    SameTickets(h, Force(h), multiset{});
    KeepStops(Kill(h, h.stopWaiter.value.child), Force(h));
  }

  lemma StopNothingInner(h: Host)
    requires Inner(h, multiset{}) && h.child.None?
    ensures Inner(Settle(Issue(h), h.facts.nextTicket, Resolved).(state := Stopped), multiset{})
    ensures Grows(h.facts, Settle(Issue(h), h.facts.nextTicket, Resolved).facts)
  {
    IssueInner(h);
    SettleInner(Issue(h), h.facts.nextTicket, Resolved, multiset{h.facts.nextTicket});
    var settled := Settle(Issue(h), h.facts.nextTicket, Resolved);
    SameTickets(settled, settled.(state := Stopped), multiset{});
    KeepStops(settled, settled.(state := Stopped));
  }

  lemma StopChildInner(h: Host, restartAfterExit: bool, env: Env)
    requires Inner(h, multiset{})
    ensures var n := StopChild(h, restartAfterExit, env).0;
            Inner(n, multiset{}) && n.parked == h.parked && (h.stopPromise.Some? ==> n.stopPromise == h.stopPromise)
    ensures Grows(h.facts, StopChild(h, restartAfterExit, env).0.facts)
  {
    if h.child.None? {
      StopNothingInner(h);
    } else {
      var c := h.child.value;
      if h.stopPromise.Some? {
        MarkInner(h, c, restartAfterExit);
      } else {
        RequestInner(h, c);
        MarkInner(Requested(h, c), c, restartAfterExit);
        if !env.connected {
          ForceInner(MarkRestart(Requested(h, c), c, restartAfterExit));
        }
      }
    }
  }

  // ---- the end of a child

  /** The child is gone; its waiters are not dealt with yet. */
  ghost predicate Gone(h: Host) {
    && Core(h) && StopsValid(h) && PromiseValid(h) && TicketsValid(h, multiset{})
    && h.child.None? && !h.stableRunTimer && !h.restartTimer
  }

  lemma ExitedGone(h: Host, c: Child, exit: Exit)
    requires Inner(h, multiset{}) && h.child == Some(c)
    ensures Gone(Exited(h, c, exit))
    ensures Grows(h.facts, Exited(h, c, exit).facts)
  {
    var n := Exited(h, c, exit);
    SameTickets(h, n, multiset{});
    assert Core(n);
    forall u: Ticket | u in n.facts.stopRequests
      ensures StopValid(n, u)
    {
      assert u in h.facts.stopRequests ==> StopValid(h, u);
    }
  }

  lemma UnspawnedGone(h: Host, c: Child)
    requires Inner(h, multiset{}) && h.child == Some(c)
    ensures Gone(Unspawned(h, c))
  {
    var n := Unspawned(h, c);
    SameTickets(h, n, multiset{});
    assert Core(n);
    forall u: Ticket | u in n.facts.stopRequests
      ensures StopValid(n, u)
    {
      assert StopValid(h, u);
    }
  }

  lemma FailUpdateGone(h: Host)
    requires Gone(h)
    ensures Gone(FailUpdateWaiters(h))
    ensures Grows(h.facts, FailUpdateWaiters(h).facts)
  {
    SettledGrows(h, FailUpdateWaiters(h), multiset{});
    FailUpdateTickets(h, multiset{});
    FailUpdateStops(h, multiset{});
  }

  lemma SettleStopGone(h: Host, how: Settlement)
    requires Gone(h) && h.stopWaiter.Some?
    requires PromiseValid(h) && StopIsOver(h.facts, h.stopWaiter.value.ticket)
    requires how == Resolved <==> StopWasClean(h.facts, h.stopWaiter.value.ticket)
    ensures Gone(SettleStop(h, how))
    ensures Grows(h.facts, SettleStop(h, how).facts)
  {
    SettleStopTickets(h, how, multiset{});
    SettleStopStops(h, how);
  }

  lemma AbandonedGone(h: Host, stop: Option<Settlement>)
    requires Gone(h)
    requires stop.Some? && h.stopWaiter.Some? ==> StopIsOver(h.facts, h.stopWaiter.value.ticket)
    requires stop.Some? && h.stopWaiter.Some? ==> (stop == Some(Resolved) <==> StopWasClean(h.facts, h.stopWaiter.value.ticket))
    ensures var n := Abandoned(h, stop);
            Gone(n) && n.startWaiter.None? && n.updateWaiters == map[] && n.desiredRunning == h.desiredRunning
            && (stop.Some? || h.stopWaiter.None? ==> n.stopWaiter.None?)
    ensures Grows(h.facts, Abandoned(h, stop).facts)
  {
    var failed := FailUpdateWaiters(h);
    FailUpdateGone(h);
    var stopped := if stop.Some? && failed.stopWaiter.Some? then SettleStop(failed, stop.value) else failed;
    if stop.Some? && failed.stopWaiter.Some? {
      SettleStopGone(failed, stop.value);
    }
    FinishStartGone(stopped);
  }

  lemma FinishStartGone(h: Host)
    requires Gone(h)
    ensures Gone(FinishStart(h, Rejected)) && FinishStart(h, Rejected).startWaiter.None?
    ensures Grows(h.facts, FinishStart(h, Rejected).facts)
  {
    SettledGrows(h, FinishStart(h, Rejected), multiset{});
    FinishStartStops(h, Rejected, multiset{});
    FinishStartTickets(h, Rejected, multiset{});
  }

  lemma EndedInner(h: Host, state: DaemonState, restart: bool)
    requires Gone(h) && h.startWaiter.None? && h.stopWaiter.None? && h.updateWaiters == map[]
    requires state in {Stopped, Degraded} && (restart ==> h.desiredRunning)
    ensures Inner(Ended(h, state, restart), multiset{}) && Ended(h, state, restart).stopPromise.None?
  {
    SameTickets(h, Ended(h, state, restart), multiset{});
    KeepStops(h, Ended(h, state, restart));
  }

  /** The rest of an exit or spawn error, once the child is gone. */
  lemma DepartedValid(h: Host, stop: Option<Settlement>, state: DaemonState, restart: bool, env: Env)
    requires Gone(h) && state in {Stopped, Degraded} && (restart ==> h.desiredRunning)
    requires if stop.None? then h.stopWaiter.None? && h.parked == [] else
               && h.stopWaiter.Some? && StopIsOver(h.facts, h.stopWaiter.value.ticket)
               && (stop == Some(Resolved) <==> StopWasClean(h.facts, h.stopWaiter.value.ticket))
    ensures var n := Ended(Abandoned(h, stop), state, restart);
            var m := if stop.Some? then Release(n, stop.value, env) else n;
            Valid(m) && Grows(h.facts, m.facts) && Grows(Abandoned(h, stop).facts, m.facts)
  {
    AbandonedGone(h, stop);
    EndedInner(Abandoned(h, stop), state, restart);
    var n := Ended(Abandoned(h, stop), state, restart);
    assert n.facts == Abandoned(h, stop).facts && n.parked == h.parked;
    if stop.Some? {
      ReleaseValid(n, stop.value, env);
    }
  }

  lemma OnExitValid(h: Host, c: Child, exit: Exit, env: Env)
    requires Valid(h) && h.child == Some(c)
    ensures Valid(OnExit(h, c, exit, env))
    ensures Grows(h.facts, OnExit(h, c, exit, env).facts)
  {
    var wasStopping, waited := c in h.stoppingChildren, c in h.stoppingChildren && WaitsFor(h, c);
    var how := if waited then StopVerdict(h, h.stopWaiter.value, exit) else Rejected;
    ExitedGone(h, c, exit);
    DepartedValid(Exited(h, c, exit), if waited then Some(how) else None,
                  if wasStopping && how == Resolved then Stopped else Degraded,
                  h.desiredRunning && (!wasStopping || !waited || c in h.restartAfterExitChildren), env);
  }

  lemma SpawnErrorValid(h: Host, c: Child, env: Env)
    requires Valid(h) && h.child == Some(c)
    ensures Valid(OnSpawnError(h, c, env))
    ensures Grows(h.facts, OnSpawnError(h, c, env).facts)
  {
    UnspawnedGone(h, c);
    DepartedValid(Unspawned(h, c), if WaitsFor(h, c) then Some(Rejected) else None, Degraded,
                  h.desiredRunning && (c !in h.stoppingChildren || c in h.restartAfterExitChildren), env);
  }

  lemma TroubledInner(h: Host, c: Child)
    requires Inner(h, multiset{}) && h.child == Some(c)
    ensures Inner(Troubled(h, c), multiset{}) && Grows(h.facts, Troubled(h, c).facts)
  {
    var calm := h.(stableRunTimer := false);
    SameTickets(h, calm, multiset{});
    KeepStops(h, calm);
    var failed := FailUpdateWaiters(calm);
    SettledGrows(calm, failed, multiset{});
    FailUpdateTickets(calm, multiset{});
    FailUpdateStops(calm, multiset{});
    SameTickets(failed, Troubled(h, c), multiset{});
    KeepStops(failed, Troubled(h, c));
  }

  lemma LiveErrorValid(h: Host, c: Child)
    requires Valid(h) && h.child == Some(c)
    ensures Valid(OnLiveError(h, c))
    ensures Grows(h.facts, OnLiveError(h, c).facts)
  {
    TroubledInner(h, c);
    FinishStartInner(Troubled(h, c), Rejected, multiset{});
  }

  lemma StartTimeoutValid(h: Host, env: Env)
    requires Valid(h)
    ensures Valid(OnStartTimeout(h, env)) && Grows(h.facts, OnStartTimeout(h, env).facts)
  {
    if h.startWaiter.Some? {
      var given := FinishStart(h, Rejected).(state := Degraded);
      FinishStartInner(h, Rejected, multiset{});
      SameTickets(FinishStart(h, Rejected), given, multiset{});
      KeepStops(FinishStart(h, Rejected), given);
      StopChildInner(given, true, env);
    }
  }

  /** A killed child has not exited: the request fails. */
  lemma GivenUpInner(h: Host)
    requires Inner(h, multiset{}) && h.stopWaiter.Some? && h.stopWaiter.value.forceTimer
    ensures var n := SettleStop(h, Rejected).(state := Degraded);
            Inner(n, multiset{}) && n.stopPromise.None? && Grows(h.facts, n.facts)
  {
    SettleStopTickets(h, Rejected, multiset{});
    SettleStopStops(h, Rejected);
    var given := SettleStop(h, Rejected).(state := Degraded);
    SameTickets(SettleStop(h, Rejected), given, multiset{});
    KeepStops(SettleStop(h, Rejected), given);
  }

  lemma ForceTimeoutValid(h: Host, env: Env)
    requires Valid(h)
    ensures Valid(OnForceTimeout(h, env)) && Grows(h.facts, OnForceTimeout(h, env).facts)
  {
    if h.stopWaiter.Some? && h.stopWaiter.value.forceTimer {
      GivenUpInner(h);
      ReleaseValid(SettleStop(h, Rejected).(state := Degraded), Rejected, env);
    }
  }

  /** The promises of a gone child: requests for readiness and a pending start fail, and the stop request is
      settled as given. */
  ghost predicate WaitersSettled(h: Host, stop: Option<Settlement>, settled: map<Ticket, Settlement>) {
    && (forall u: Ticket :: u in h.updateWaiters ==> u in settled && settled[u] == Rejected)
    && (h.startWaiter.Some? ==> h.startWaiter.value in settled && settled[h.startWaiter.value] == Rejected)
    && (stop.Some? && h.stopWaiter.Some? ==>
          h.stopWaiter.value.ticket in settled && settled[h.stopWaiter.value.ticket] == stop.value)
  }

  lemma AbandonedSettles(h: Host, stop: Option<Settlement>)
    requires TicketsValid(h, multiset{}) && PromiseValid(h)
    ensures WaitersSettled(h, stop, Abandoned(h, stop).facts.settled)
  {
    var failed := FailUpdateWaiters(h);
    FailedWaiters(h);
    if stop.Some? && h.stopWaiter.Some? {
      var t, stopped := h.stopWaiter.value.ticket, SettleStop(failed, stop.value);
      OneOwner(h, t);
      assert WaitersSettled(h.(startWaiter := None), stop, stopped.facts.settled);
      FinishStartKeeps(h.(startWaiter := None), stop, stopped);
    } else {
      FinishStartKeeps(h.(startWaiter := None), stop, failed);
    }
  }

  lemma OneOwner(h: Host, t: Ticket)
    requires TicketsValid(h, multiset{}) && h.stopPromise == Some(t)
    ensures t !in h.updateWaiters && h.startWaiter != Some(t) && t !in h.facts.settled
  {
    assert Owners(h, t) + multiset{}[t] == if t < h.facts.nextTicket then 1 else 0;
  }

  lemma FinishStartKeeps(h: Host, stop: Option<Settlement>, n: Host)
    requires WaitersSettled(h, stop, n.facts.settled)
    requires stop.Some? && h.stopWaiter.Some? ==> n.startWaiter != Some(h.stopWaiter.value.ticket)
    ensures WaitersSettled(h, stop, FinishStart(n, Rejected).facts.settled)
  {
  }

  lemma FailedWaiters(h: Host)
    ensures WaitersSettled(h.(startWaiter := None), None, FailUpdateWaiters(h).facts.settled)
  {
  }

  lemma LiveErrorSettles(h: Host, c: Child)
    ensures var n := OnLiveError(h, c); n.child == h.child && n.state != Running && WaitersSettled(h, None, n.facts.settled)
  {
    var calm := h.(stableRunTimer := false);
    var failed := FailUpdateWaiters(calm);
    FailedWaiters(calm);
    FinishStartKeeps(calm.(startWaiter := None), None, failed.(state := if c in h.stoppingChildren then Stopping else Degraded));
  }

  /** A start that waits is told so. */
  ghost predicate StartTold(h: Host, how: Settlement, n: Host) {
    n.startWaiter.None? && (h.startWaiter.Some? ==> h.startWaiter.value in n.facts.settled && n.facts.settled[h.startWaiter.value] == how)
  }

  lemma StartupFailedTells(h: Host, c: Child, retryable: bool)
    requires h.child == Some(c)
    ensures StartTold(h, Rejected, OnStartupFailed(h, c, retryable))
  {
  }

  lemma ReadyTells(h: Host, c: Child)
    requires h.child == Some(c) && c !in h.stoppingChildren
    ensures StartTold(h, Resolved, OnReady(h, c))
  {
  }

  /** Nothing that is settled is settled again. */
  ghost predicate SettledKept(f: Facts, g: Facts) {
    forall u: Ticket :: u in f.settled ==> u in g.settled && g.settled[u] == f.settled[u]
  }

  lemma RequestTells(h: Host, c: Child, env: Env)
    ensures var asked := MarkRestart(Requested(h, c), c, true);
            var n := if env.connected then asked else Force(asked);
            && n.child == h.child && n.stopPromise.Some? && n.startWaiter == h.startWaiter
            && c in n.restartAfterExitChildren && n.facts.settled == h.facts.settled
  {
  }

  lemma StopChildTells(h: Host, env: Env)
    requires h.child.Some?
    ensures var n := StopChild(h, true, env).0;
            && n.child == h.child && n.stopPromise.Some? && n.startWaiter == h.startWaiter
            && h.child.value in n.restartAfterExitChildren && SettledKept(h.facts, n.facts)
  {
    if h.stopPromise.None? {
      RequestTells(h, h.child.value, env);
    }
  }

  lemma StartTimeoutTells(h: Host, env: Env)
    requires Belong(h)
    ensures h.startWaiter.Some? ==>
              var n := OnStartTimeout(h, env);
              && StartTold(h, Rejected, n) && n.child == h.child && n.child.Some? && n.stopPromise.Some?
              && n.child.value in n.restartAfterExitChildren
  {
    if h.startWaiter.Some? {
      StopChildTells(FinishStart(h, Rejected).(state := Degraded), env);
    }
  }

  /** Of the readiness requests of `h` only those in `us` are settled in `n`, as given, and no longer wait. */
  ghost predicate Answered(h: Host, us: set<Ticket>, how: Settlement, n: Host) {
    && n.updateWaiters == h.updateWaiters - us
    && (forall u :: u in h.updateWaiters && u in us ==> u in n.facts.settled && n.facts.settled[u] == how)
    && (forall u: Ticket :: u !in h.updateWaiters || u !in us ==> (u in n.facts.settled <==> u in h.facts.settled))
  }

  lemma AnswerSettles(h: Host, u: Ticket, how: Settlement)
    ensures Answered(h, {u}, how, AnswerUpdate(h, u, how)) && Answered(h, {}, how, h)
  {
    assert h.updateWaiters - {} == h.updateWaiters;
    if u !in h.updateWaiters {
      assert h.updateWaiters - {u} == h.updateWaiters;
    }
  }

  lemma SettledStay(h: Host, stop: Option<Settlement>, f: Facts, g: Facts)
    requires WaitersSettled(h, stop, f.settled) && Grows(f, g)
    ensures WaitersSettled(h, stop, g.settled)
  {
  }

  /** How the exit of a child ends: it is recorded, the child is no more, and whoever waited for it knows. */
  lemma ExitSettles(h: Host, c: Child, exit: Exit, env: Env)
    requires Valid(h) && h.child == Some(c)
    ensures var n := OnExit(h, c, exit, env);
            && n.child != Some(c) && c in n.facts.exits && n.facts.exits[c] == exit
            && WaitersSettled(h, if h.stopWaiter.Some? then Some(StopVerdict(h, h.stopWaiter.value, exit)) else None, n.facts.settled)
  {
    var waited := c in h.stoppingChildren && WaitsFor(h, c);
    var how := if waited then StopVerdict(h, h.stopWaiter.value, exit) else Rejected;
    var stop, gone := if waited then Some(how) else None, Exited(h, c, exit);
    var end := if c in h.stoppingChildren && how == Resolved then Stopped else Degraded;
    ExitedGone(h, c, exit);
    DepartedValid(gone, stop, end,
                  h.desiredRunning && (c !in h.stoppingChildren || !waited || c in h.restartAfterExitChildren), env);
    AbandonedSettles(gone, stop);
    SettledStay(gone, stop, Abandoned(gone, stop).facts, OnExit(h, c, exit, env).facts);
    OnExitValid(h, c, exit, env);
  }

  lemma SpawnErrorSettles(h: Host, c: Child, env: Env)
    requires Valid(h) && h.child == Some(c)
    ensures var n := OnSpawnError(h, c, env);
            && n.child != Some(c) && c in n.facts.neverSpawned
            && WaitersSettled(h, if h.stopWaiter.Some? then Some(Rejected) else None, n.facts.settled)
  {
    var stop, gone := if WaitsFor(h, c) then Some(Rejected) else None, Unspawned(h, c);
    UnspawnedGone(h, c);
    DepartedValid(gone, stop, Degraded, h.desiredRunning && (c !in h.stoppingChildren || c in h.restartAfterExitChildren), env);
    AbandonedSettles(gone, stop);
    SettledStay(gone, stop, Abandoned(gone, stop).facts, OnSpawnError(h, c, env).facts);
    SpawnErrorValid(h, c, env);
  }

  lemma ForceTimeoutSettles(h: Host, env: Env)
    requires Valid(h)
    ensures h.stopWaiter.Some? && h.stopWaiter.value.forceTimer ==>
              var t, n := h.stopWaiter.value.ticket, OnForceTimeout(h, env);
              t in n.facts.settled && n.facts.settled[t] == Rejected && h.stopWaiter.value.child in n.facts.killed
  {
    if h.stopWaiter.Some? && h.stopWaiter.value.forceTimer {
      GivenUpInner(h);
      ReleaseValid(SettleStop(h, Rejected).(state := Degraded), Rejected, env);
    }
  }

  /** A stop promise is that of an open request. */
  lemma OpenRequest(h: Host, t: Ticket)
    requires Valid(h) && h.stopPromise == Some(t)
    ensures t in h.facts.stopRequests && t !in h.facts.settled && h.child == Some(h.facts.stopRequests[t])
  {
    assert Owners(h, t) + multiset{}[t] == if t < h.facts.nextTicket then 1 else 0;
  }

  /** What a call of `stopChild` leaves its promise at. */
  lemma StopChildAsks(h: Host, restartAfterExit: bool, env: Env)
    requires Valid(h)
    ensures var (n, t) := StopChild(h, restartAfterExit, env);
            && n.child == h.child
            && if h.child.None? then t in n.facts.settled && n.facts.settled[t] == Resolved
               else && t in n.facts.stopRequests && n.facts.stopRequests[t] == h.child.value && t !in n.facts.settled
                    && h.child.value in n.stoppingChildren
  {
    if h.child.Some? {
      StopChildInner(h, restartAfterExit, env);
      OpenRequest(StopChild(h, restartAfterExit, env).0, StopChild(h, restartAfterExit, env).1);
    }
  }

  lemma {:induction false} ResumeEmpties(h: Host, calls: seq<Parked>, how: Settlement, env: Env)
    requires h.stopPromise.None? && h.parked == []
    ensures var n := Resume(h, calls, how, env); n.stopPromise.None? && n.parked == []
    decreases |calls|
  {
    if calls != [] {
      ResumeEmpties(ResumeOne(h, calls[0], how, env), calls[1..], how, env);
    }
  }

  lemma ReleaseEmpties(h: Host, how: Settlement, env: Env)
    requires h.stopPromise.None?
    ensures Release(h, how, env).parked == []
  {
    ResumeEmpties(h.(parked := []), InOrder(h.parked), how, env);
  }

  // ---- every event keeps the invariant

  lemma AnswerValid(h: Host, u: Ticket, how: Settlement)
    requires Valid(h)
    ensures Valid(AnswerUpdate(h, u, how)) && Grows(h.facts, AnswerUpdate(h, u, how).facts)
  {
    if u in h.updateWaiters {
      AnswerTickets(h, u, how, multiset{});
      assert Owners(h, u) + multiset{}[u] == if u < h.facts.nextTicket then 1 else 0;
      SettleStops(h, u, how);
      KeepStops(Settle(h, u, how), AnswerUpdate(h, u, how));
    }
  }

  lemma PollerValid(h: Host, t: Ticket, how: Settlement)
    requires Valid(h) && t in h.pollers
    ensures Valid(SettlePoller(h, t, how)) && Grows(h.facts, SettlePoller(h, t, how).facts)
  {
    PollerTickets(h, t, how, multiset{});
    assert Owners(h, t) + multiset{}[t] == if t < h.facts.nextTicket then 1 else 0;
    SettleStops(h, t, how);
    KeepStops(Settle(h, t, how), SettlePoller(h, t, how));
  }

  lemma PollValid(h: Host, t: Ticket)
    requires Valid(h)
    ensures Valid(OnPoll(h, t)) && Grows(h.facts, OnPoll(h, t).facts)
  {
    if t in h.pollers && (h.state == Running || h.startWaiter.None?) {
      PollerValid(h, t, if h.state == Running then Resolved else Rejected);
    }
  }

  lemma ReadyValid(h: Host, c: Child)
    requires Valid(h)
    ensures Valid(OnReady(h, c)) && Grows(h.facts, OnReady(h, c).facts)
  {
    if h.child == Some(c) && c !in h.stoppingChildren {
      FinishStartInner(h, Resolved, multiset{});
      var given := FinishStart(h, Resolved);
      SameTickets(given, OnReady(h, c), multiset{});
      KeepStops(given, OnReady(h, c));
    }
  }

  lemma StartupFailedValid(h: Host, c: Child, retryable: bool)
    requires Valid(h)
    ensures Valid(OnStartupFailed(h, c, retryable)) && Grows(h.facts, OnStartupFailed(h, c, retryable).facts)
  {
    if h.child == Some(c) {
      FinishStartInner(h, Rejected, multiset{});
      var given := FinishStart(h, Rejected);
      SameTickets(given, OnStartupFailed(h, c, retryable), multiset{});
      KeepStops(given, OnStartupFailed(h, c, retryable));
    }
  }

  lemma AcknowledgedValid(h: Host, c: Child)
    requires Valid(h)
    ensures Valid(OnStopAcknowledged(h, c)) && Grows(h.facts, OnStopAcknowledged(h, c).facts)
  {
    if h.child == Some(c) && h.stopWaiter.Some? {
      var n := OnStopAcknowledged(h, c);
      SameTickets(h, n, multiset{});
      forall u: Ticket | u in n.facts.stopRequests
        ensures StopValid(n, u)
      {
        assert u in h.facts.stopRequests ==> StopValid(h, u);
      }
    }
  }

  lemma AskTickets(h: Host, t: Ticket, c: Child)
    requires TicketsValid(h, multiset{t})
    ensures TicketsValid(h.(updateWaiters := h.updateWaiters[t := c]), multiset{})
  {
    HeldAlone(h, t, multiset{t});
    MovedTickets(h, multiset{t}, h.(updateWaiters := h.updateWaiters[t := c]), multiset{});
  }

  lemma AskValid(h: Host, t: Ticket, c: Child)
    requires Inner(h, multiset{t}) && h.child == Some(c) && (h.parked != [] ==> h.stopPromise.Some?)
    ensures Valid(h.(updateWaiters := h.updateWaiters[t := c]))
  {
    AskTickets(h, t, c);
    KeepStops(h, h.(updateWaiters := h.updateWaiters[t := c]));
  }

  lemma UpdateValid(h: Host, env: Env)
    requires Valid(h)
    ensures Valid(OnCallUpdate(h, env)) && Grows(h.facts, OnCallUpdate(h, env).facts)
  {
    var t, asked := h.facts.nextTicket, Issue(h);
    IssueInner(h);
    if h.child.None? || !env.connected || h.state != Running {
      SettleInner(asked, t, Rejected, multiset{t});
      assert multiset{t} - multiset{t} == multiset{};
    } else {
      AskValid(asked, t, h.child.value);
    }
  }

  lemma CallStopValid(h: Host, env: Env)
    requires Valid(h)
    ensures Valid(OnCallStop(h, env)) && Grows(h.facts, OnCallStop(h, env).facts)
  {
    DesiredInner(h, false);
    StopChildInner(SetDesired(h, false), false, env);
  }

  /** `start` adds to the parked calls only behind a stop in progress. */
  lemma StartParks(h: Host, t: Ticket, resetAttempts: bool, env: Env)
    ensures var n := Start(h, t, resetAttempts, env);
            n.stopPromise == h.stopPromise && (n.parked == h.parked || n.stopPromise.Some?)
  {
  }

  /** A call that starts: `drop` clears the restart timer, `reset` the count of attempts. */
  lemma StartValid(h: Host, drop: bool, reset: bool, resetAttempts: bool, env: Env)
    requires Valid(h)
    ensures var n := Start(Issue(h).(restartTimer := h.restartTimer && !drop, restartAttempt := if reset then 0 else h.restartAttempt),
                           h.facts.nextTicket, resetAttempts, env);
            Valid(n) && Grows(h.facts, n.facts)
  {
    var t := h.facts.nextTicket;
    IssueInner(h);
    var n := Issue(h).(restartTimer := h.restartTimer && !drop, restartAttempt := if reset then 0 else h.restartAttempt);
    SameTickets(Issue(h), n, multiset{t});
    KeepStops(Issue(h), n);
    StartInner(n, t, resetAttempts, env, multiset{t});
    StartParks(n, t, resetAttempts, env);
    assert multiset{t} - multiset{t} == multiset{};
  }

  lemma ParkRestartValid(h: Host)
    requires Valid(h) && h.stopPromise.Some?
    ensures Valid(Issue(h).(parked := h.parked + [ParkedRestart(h.facts.nextTicket)]))
  {
    var t := h.facts.nextTicket;
    IssueInner(h);
    ParkTickets(Issue(h), ParkedRestart(t), multiset{t});
    assert multiset{t} - multiset{t} == multiset{};
    KeepStops(Issue(h), Issue(h).(parked := h.parked + [ParkedRestart(t)]));
  }

  lemma CallRestartValid(h: Host, env: Env)
    requires Valid(h)
    ensures Valid(OnCallRestart(h, env)) && Grows(h.facts, OnCallRestart(h, env).facts)
  {
    CallStopValid(h, env);
    var stopped := StopChild(SetDesired(h, false), false, env).0;
    if stopped.stopPromise.Some? {
      ParkRestartValid(stopped);
    } else {
      StartValid(stopped, false, true, true, env);
      assert Issue(stopped).(restartTimer := stopped.restartTimer && !false, restartAttempt := 0) == Issue(stopped).(restartAttempt := 0);
    }
  }

  lemma StopTimeoutValid(h: Host)
    requires Valid(h)
    ensures Valid(OnStopTimeout(h)) && Grows(h.facts, OnStopTimeout(h).facts)
  {
    if h.stopWaiter.Some? && h.stopWaiter.value.stopTimer {
      ForceInner(h);
      SameTickets(Force(h), OnStopTimeout(h), multiset{});
      KeepStops(Force(h), OnStopTimeout(h));
    }
  }

  lemma StableRunValid(h: Host)
    requires Valid(h)
    ensures Valid(OnStableRun(h))
  {
    SameTickets(h, OnStableRun(h), multiset{});
    KeepStops(h, OnStableRun(h));
  }

  lemma CallStartValid(h: Host, resetAttempts: bool, env: Env)
    requires Valid(h)
    ensures Valid(OnCallStart(h, resetAttempts, env)) && Grows(h.facts, OnCallStart(h, resetAttempts, env).facts)
  {
    StartValid(h, false, false, resetAttempts, env);
    assert Issue(h).(restartTimer := h.restartTimer && !false, restartAttempt := h.restartAttempt) == Issue(h);
  }

  lemma CallValid(h: Host, e: Event, env: Env)
    requires Valid(h) && !External(e)
    ensures Valid(Step(h, e, env)) && Grows(h.facts, Step(h, e, env).facts)
  {
    match e
    case CallStart(resetAttempts) => CallStartValid(h, resetAttempts, env);
    case CallStop => CallStopValid(h, env);
    case CallStopForUpdate => StopChildInner(h, false, env);
    case CallRestart => CallRestartValid(h, env);
    case CallUpdate => UpdateValid(h, env);
  }

  lemma RestartTimerValid(h: Host, env: Env)
    requires Valid(h)
    ensures Valid(OnRestartTimer(h, env)) && Grows(h.facts, OnRestartTimer(h, env).facts)
  {
    if h.restartTimer {
      StartValid(h, true, false, false, env);
      assert Issue(h).(restartTimer := h.restartTimer && !true, restartAttempt := h.restartAttempt) == Issue(h).(restartTimer := false);
    }
  }

  lemma DeadlineValid(h: Host, e: Event, env: Env)
    requires Valid(h) && (e.StartTimeout? || e.StopTimeout? || e.ForceTimeout?)
    ensures Valid(Step(h, e, env)) && Grows(h.facts, Step(h, e, env).facts)
  {
    match e
    case StartTimeout => StartTimeoutValid(h, env);
    case StopTimeout => StopTimeoutValid(h);
    case ForceTimeout => ForceTimeoutValid(h, env);
  }

  lemma TimerValid(h: Host, e: Event, env: Env)
    requires Valid(h) && (e.RestartTimer? || e.StableRunTimer? || e.UpdateTimeout? || e.Poll?)
    ensures Valid(Step(h, e, env)) && Grows(h.facts, Step(h, e, env).facts)
  {
    match e
    case RestartTimer => RestartTimerValid(h, env);
    case StableRunTimer => StableRunValid(h);
    case UpdateTimeout(u) => AnswerValid(h, u, Rejected);
    case Poll(t) => PollValid(h, t);
  }

  lemma ChildErrorValid(h: Host, c: Child, spawnFailed: bool, env: Env)
    requires Valid(h)
    ensures Valid(OnChildError(h, c, spawnFailed, env)) && Grows(h.facts, OnChildError(h, c, spawnFailed, env).facts)
  {
    if h.child == Some(c) {
      if spawnFailed { SpawnErrorValid(h, c, env); } else { LiveErrorValid(h, c); }
    }
  }

  lemma ChildExitValid(h: Host, c: Child, exit: Exit, env: Env)
    requires Valid(h)
    ensures Valid(OnChildExit(h, c, exit, env)) && Grows(h.facts, OnChildExit(h, c, exit, env).facts)
  {
    if h.child == Some(c) {
      OnExitValid(h, c, exit, env);
    }
  }

  lemma MessageValid(h: Host, e: Event, env: Env)
    requires Valid(h) && (e.Ready? || e.StartupFailed? || e.StopAcknowledged? || e.UpdateAnswered?)
    ensures Valid(Step(h, e, env)) && Grows(h.facts, Step(h, e, env).facts)
  {
    match e
    case Ready(c) => ReadyValid(h, c);
    case StartupFailed(c, retryable) => StartupFailedValid(h, c, retryable);
    case StopAcknowledged(c) => AcknowledgedValid(h, c);
    case UpdateAnswered(c, u) => AnswerValid(h, u, Resolved);
  }

  lemma ChildValid(h: Host, e: Event, env: Env)
    requires Valid(h) && FromChild(e)
    ensures Valid(Step(h, e, env)) && Grows(h.facts, Step(h, e, env).facts)
  {
    match e
    case ChildError(c, spawnFailed) => ChildErrorValid(h, c, spawnFailed, env);
    case ChildExit(c, exit) => ChildExitValid(h, c, exit, env);
    case _ => MessageValid(h, e, env);
  }

  /** Every event keeps the invariant and undoes nothing that has happened. */
  lemma StepValid(h: Host, e: Event, env: Env)
    requires Valid(h)
    ensures Valid(Step(h, e, env)) && Grows(h.facts, Step(h, e, env).facts)
  {
    if !External(e) {
      CallValid(h, e, env);
    } else if FromChild(e) {
      ChildValid(h, e, env);
    } else if e.StartTimeout? || e.StopTimeout? || e.ForceTimeout? {
      DeadlineValid(h, e, env);
    } else {
      TimerValid(h, e, env);
    }
  }

  // ---- whole runs

  datatype Happening = Happening(event: Event, env: Env)

  function Run(h: Host, run: seq<Happening>): Host
    decreases |run|
  {
    if run == [] then h else Run(Step(h, run[0].event, run[0].env), run[1..])
  }

  /** Whatever happens, in whatever order: at most one child is live and it is the supervisor's; a live child
      rules out a restart timer and a restart timer means the daemon is wanted; every waiter belongs to the
      live child; `running` means a live child nobody is stopping; automatic restarts stay within the limit. */
  lemma {:induction false} RunSafe(h: Host, run: seq<Happening>)
    requires Valid(h)
    ensures Valid(Run(h, run)) && Grows(h.facts, Run(h, run).facts)
    ensures var n := Run(h, run);
            && (forall c: Child :: c < n.facts.nextChild && c !in n.facts.exits && c !in n.facts.neverSpawned ==> n.child == Some(c))
            && (n.child.Some? ==> !n.restartTimer) && (n.restartTimer ==> n.desiredRunning)
            && (n.child.None? ==> n.startWaiter.None? && n.stopWaiter.None? && n.stopPromise.None? && n.updateWaiters == map[]
                                  && n.parked == [] && !n.stableRunTimer)
            && (n.stopWaiter.Some? ==> n.child == Some(n.stopWaiter.value.child))
            && (n.state == Running ==> n.child.Some? && n.child.value !in n.stoppingChildren)
            && n.restartAttempt <= n.maximumRestarts
    decreases |run|
  {
    if run != [] {
      StepValid(h, run[0].event, run[0].env);
      RunSafe(Step(h, run[0].event, run[0].env), run[1..]);
    }
  }

  /** In every run from the start, a stop request on a live child is settled at most once, and ends well
      exactly when the child acknowledged it, was never killed and exited with code 0 and no signal. */
  lemma {:induction false} StopEndsWellExactly(restartDelays: nat, run: seq<Happening>, more: seq<Happening>, t: Ticket)
    requires var f := Run(Initial(restartDelays), run).facts; t in f.stopRequests && t in f.settled
    ensures var f := Run(Initial(restartDelays), run).facts; f.settled[t] == Resolved <==> StopWasClean(f, t)
    ensures var f := Run(Initial(restartDelays), run).facts;
            var g := Run(Run(Initial(restartDelays), run), more).facts;
            t in g.settled && g.settled[t] == f.settled[t]
  {
    InitialValid(restartDelays);
    RunSafe(Initial(restartDelays), run);
    RunSafe(Run(Initial(restartDelays), run), more);
    assert StopValid(Run(Initial(restartDelays), run), t);
  }

  /** A promise is lost by no event: in every run each one handed out waits in exactly one place or is settled. */
  lemma EveryPromiseKept(restartDelays: nat, run: seq<Happening>, t: Ticket)
    ensures var h := Run(Initial(restartDelays), run); Owners(h, t) == if t < h.facts.nextTicket then 1 else 0
  {
    InitialValid(restartDelays);
    RunSafe(Initial(restartDelays), run);
    var h := Run(Initial(restartDelays), run);
    assert Owners(h, t) + multiset{}[t] == if t < h.facts.nextTicket then 1 else 0;
  }
}
