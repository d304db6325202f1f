/** Bounded LM Studio operations (apps/daemon/src/runtimeDiagnostics/lmStudioRuntimeCoordinator.ts).

    A caller's promise is its number, given out in the order of the calls.  An operation that gets a slot is invoked
    by a microtask of its own; when it settles, the caller's promise settles with it and a further microtask frees
    the slot. */
module RuntimeScheduler {
  import opened Wrappers
  import opened Sequences

  /** The calls that share one flight. */
  datatype Flight = ListModels | Prepare(model: string) | StartServer

  datatype Outcome = Resolved | Rejected | Closing | Full

  /** The coordinator's fields, and what was called, given a slot, invoked and settled so far, in order. */
  datatype State = State(
    concurrency: nat, capacity: nat, aborted: bool, activeCount: nat, active: set<nat>, queue: seq<nat>, flights: map<Flight, nat>,
    calls: seq<Option<Flight>>, started: seq<nat>, invoked: seq<nat>, settled: seq<nat>, outcomes: map<nat, Outcome>)

  // ---- single changes

  function Settle(s: State, id: nat, outcome: Outcome): State {
    s.(settled := s.settled + [id], outcomes := s.outcomes[id := outcome])
  }

  /** `startQueuedOperation`, before `close`. */
  function Slot(s: State, id: nat): State {
    s.(activeCount := s.activeCount + 1, active := s.active + {id}, started := s.started + [id])
  }

  function Free(s: State, id: nat): State {
    s.(activeCount := if s.activeCount > 0 then s.activeCount - 1 else 0, active := s.active - {id})
  }

  /** `drainQueue`. */
  function Drain(s: State): State
    decreases |s.queue|
  {
    if !s.aborted && s.activeCount < s.concurrency && s.queue != [] then Drain(Slot(s.(queue := s.queue[1..]), s.queue[0])) else s
  }

  function RejectAll(s: State, waiting: seq<nat>): State
    decreases |waiting|
  {
    if waiting == [] then s else RejectAll(Settle(s, waiting[0], Closing), waiting[1..])
  }

  // ---- what the coordinator does

  /** `runBoundedAdmitted` for the promise `id`. */
  function Admit(s: State, id: nat): State {
    if s.aborted then Settle(s, id, Closing)
    else if s.activeCount >= s.concurrency && |s.queue| >= s.capacity then Settle(s, id, Full)
    else if s.activeCount < s.concurrency then Slot(s, id)
    else s.(queue := s.queue + [id])
  }

  /** A call of a public method: it joins the flight it shares, or sets out on one. */
  function Call(s: State, flight: Option<Flight>): (State, nat) {
    if flight.Some? && flight.value in s.flights then (s, s.flights[flight.value])
    else
      var id := |s.calls|;
      var admitted := Admit(s.(calls := s.calls + [flight]), id);
      (if flight.Some? then admitted.(flights := admitted.flights[flight.value := id]) else admitted, id)
  }

  function Invoke(s: State): State
    requires |s.invoked| < |s.started|
  {
    s.(invoked := s.invoked + [s.started[|s.invoked|]])
  }

  function Finish(s: State, id: nat): State {
    Drain(Free(s, id))
  }

  /** The `finally` of a flight. */
  function Land(s: State, flight: Flight, id: nat): State {
    if flight in s.flights && s.flights[flight] == id then s.(flights := s.flights - {flight}) else s
  }

  function Close(s: State): State {
    if s.aborted then s else RejectAll(s.(aborted := true, queue := []), s.queue)
  }

  /** The end of `close`. */
  function Clear(s: State): State {
    s.(flights := map[])
  }

  // ---- the invariant

  predicate Counted(s: State) {
    0 < s.concurrency && 0 < s.capacity && s.activeCount == |s.active| <= s.concurrency && |s.queue| <= s.capacity
  }

  predicate WorkConserving(s: State) {
    s.queue != [] ==> !s.aborted && s.activeCount == s.concurrency
  }

  /** Slots are given, and operations invoked, in the order of the calls. */
  predicate InOrder(s: State) {
    Increasing(s.started + s.queue) && (forall id <- s.started + s.queue :: id < |s.calls|) && s.invoked <= s.started
  }

  /** Every call waits, runs or is settled; it is settled at most once, not while it waits, and not before its
      operation is invoked if it has a slot. */
  predicate Settled(s: State) {
    && NoRepeat(s.settled)
    && (forall id: nat :: id < |s.calls| ==> id in s.queue || id in s.active || id in s.settled)
    && (forall id <- s.settled :: id < |s.calls| && id !in s.queue && (id in s.started ==> id in s.invoked))
    && (forall id <- s.active :: id in s.started)
    && (forall id <- s.started :: id in s.active || id in s.settled)
  }

  /** The call that is under way for a flight is the one that is found. */
  predicate Shared(s: State) {
    forall id: nat :: id < |s.calls| && s.calls[id].Some? && id !in s.settled ==>
      s.calls[id].value in s.flights && s.flights[s.calls[id].value] == id
  }

  predicate Ready(s: State) {
    Counted(s) && InOrder(s) && Settled(s)
  }

  predicate Valid(s: State) {
    Ready(s) && WorkConserving(s) && Shared(s)
  }

  lemma IncreasingHead(before: seq<nat>, id: nat, after: seq<nat>)
    requires Increasing(before + ([id] + after))
    ensures id !in before && id !in after
  {
    var ids, n := before + ([id] + after), |before|;
    assert ids[n] == id;
    forall i | 0 <= i < n ensures before[i] != id {
      assert ids[i] == before[i];
    }
    forall i | 0 <= i < |after| ensures after[i] != id {
      assert ids[n + 1 + i] == after[i];
    }
  }

  /** The head of the queue gets a slot. */
  lemma SlotSafe(s: State)
    requires Ready(s) && s.queue != [] && s.activeCount < s.concurrency
    ensures Ready(Slot(s.(queue := s.queue[1..]), s.queue[0]))
  {
    var id, rest := s.queue[0], s.queue[1..];
    assert s.queue == [id] + rest;
    IncreasingHead(s.started, id, rest);
    Associative(s.started, [id], rest);
  }

  lemma {:induction false} DrainSafe(s: State)
    requires Ready(s) && (s.aborted ==> s.queue == [])
    ensures Ready(Drain(s)) && WorkConserving(Drain(s))
    decreases |s.queue|
  {
    if !s.aborted && s.activeCount < s.concurrency && s.queue != [] {
      SlotSafe(s);
      DrainSafe(Slot(s.(queue := s.queue[1..]), s.queue[0]));
    }
  }

  /** First in, first out: a prefix of the queue gets slots, and only slots change. */
  lemma {:induction false} DrainTakesPrefix(s: State) returns (k: nat)
    ensures k <= |s.queue| && Drain(s).queue == s.queue[k..] && Drain(s).started == s.started + s.queue[..k]
    ensures var t := Drain(s);
            t == s.(queue := t.queue, started := t.started, active := t.active, activeCount := t.activeCount)
    ensures k == 0 ==> s.aborted || s.activeCount >= s.concurrency || s.queue == []
    decreases |s.queue|
  {
    if !s.aborted && s.activeCount < s.concurrency && s.queue != [] {
      k := DrainTakesPrefix(Slot(s.(queue := s.queue[1..]), s.queue[0]));
      OneMore(s.started, s.queue, k);
      k := k + 1;
    } else {
      k := 0;
    }
  }

  // ---- runs

  datatype Event =
    | Called(flight: Option<Flight>)
    | Invoked
    | Returned(id: nat, outcome: Outcome)
    | Finished(id: nat)
    | Landed(landed: Flight, id: nat)
    | Closed
    | Cleared

  /** An operation settles after it was invoked, once; what follows from it follows then. */
  predicate Possible(s: State, e: Event) {
    match e
    case Invoked => |s.invoked| < |s.started|
    case Returned(id, outcome) => (outcome.Resolved? || outcome.Rejected?) && id in s.active && id in s.invoked && id !in s.settled
    case Finished(id) => id in s.active && id in s.settled
    case Landed(_, id) => id in s.settled
    case Cleared => s.aborted && s.active == {}
    case _ => true
  }

  function Next(s: State, e: Event): State
    requires Possible(s, e)
  {
    match e
    case Called(flight) => Call(s, flight).0
    case Invoked => Invoke(s)
    case Returned(id, outcome) => Settle(s, id, outcome)
    case Finished(id) => Finish(s, id)
    case Landed(flight, id) => Land(s, flight, id)
    case Closed => Close(s)
    case Cleared => Clear(s)
  }

  lemma AdmitSafe(s: State, flight: Option<Flight>)
    requires Ready(s) && WorkConserving(s)
    ensures var t := Admit(s.(calls := s.calls + [flight]), |s.calls|); Ready(t) && WorkConserving(t)
  {
    var id := |s.calls|;
    var ids := s.started + s.queue;
    assert id !in ids && id !in s.settled;
    assert id !in s.active;
    if s.aborted || (s.activeCount >= s.concurrency && |s.queue| >= s.capacity) {
      NoRepeatSnoc(s.settled, id);
    } else if s.activeCount < s.concurrency {
      IncreasingSnoc(ids, id);
      assert s.queue == [] && (s.started + [id]) + s.queue == ids + [id];
    } else {
      IncreasingSnoc(ids, id);
      assert s.started + (s.queue + [id]) == ids + [id];
    }
  }

  lemma AdmitKeeps(s: State, id: nat)
    ensures var t := Admit(s, id); t.calls == s.calls && t.flights == s.flights && s.settled <= t.settled
    ensures var t := Admit(s, id); t.settled == s.settled || t.settled == s.settled + [id]
  {
  }

  lemma CallShared(s: State, flight: Option<Flight>)
    requires Shared(s) && !(flight.Some? && flight.value in s.flights)
    ensures Shared(Call(s, flight).0)
  {
    AdmitKeeps(s.(calls := s.calls + [flight]), |s.calls|);
  }

  lemma CallValid(s: State, flight: Option<Flight>)
    requires Valid(s)
    ensures Valid(Call(s, flight).0)
  {
    if !(flight.Some? && flight.value in s.flights) {
      AdmitSafe(s, flight);
      CallShared(s, flight);
      var t := Admit(s.(calls := s.calls + [flight]), |s.calls|);
    }
  }

  lemma InvokeValid(s: State)
    requires Valid(s) && |s.invoked| < |s.started|
    ensures Valid(Invoke(s))
  {
  }

  lemma NotQueued(s: State, id: nat)
    requires InOrder(s) && id in s.started
    ensures id !in s.queue && id < |s.calls|
  {
    var i :| 0 <= i < |s.started| && s.started[i] == id;
    assert (s.started + s.queue)[i] in s.started + s.queue;
    forall j | 0 <= j < |s.queue| ensures s.queue[j] != id {
      assert (s.started + s.queue)[i] == id && (s.started + s.queue)[|s.started| + j] == s.queue[j];
    }
  }

  lemma ReturnValid(s: State, id: nat, outcome: Outcome)
    requires Valid(s) && id in s.active && id in s.invoked && id !in s.settled
    ensures Valid(Settle(s, id, outcome))
  {
    NoRepeatSnoc(s.settled, id);
    NotQueued(s, id);
  }

  lemma FinishValid(s: State, id: nat)
    requires Valid(s) && id in s.active && id in s.settled
    ensures Valid(Finish(s, id))
  {
    assert |s.active - {id}| == |s.active| - 1;
    DrainSafe(Free(s, id));
    var k := DrainTakesPrefix(Free(s, id));
  }

  lemma {:induction false} RejectAllSafe(s: State)
    requires Ready(s) && Shared(s)
    ensures var t := RejectAll(s.(queue := []), s.queue); Ready(t) && Shared(t)
    decreases |s.queue|
  {
    if s.queue != [] {
      var id, rest := s.queue[0], s.queue[1..];
      assert s.queue == [id] + rest;
      IncreasingHead(s.started, id, rest);
      NoRepeatSnoc(s.settled, id);
      RejectOrder(s);
      assert id in s.started + s.queue;
      RejectAllSafe(Settle(s.(queue := rest), id, Closing));
    }
  }

  lemma RejectOrder(s: State)
    requires InOrder(s) && s.queue != []
    ensures InOrder(s.(queue := s.queue[1..]))
  {
    IncreasingWithout(s.started + s.queue, |s.started|, s.started + s.queue[1..]);
  }

  lemma {:induction false} RejectAllChanges(s: State, waiting: seq<nat>)
    ensures var t := RejectAll(s, waiting);
            && t == s.(settled := t.settled, outcomes := t.outcomes) && t.settled == s.settled + waiting
            && forall id: nat :: if id in waiting then id in t.outcomes && t.outcomes[id] == Closing
                                 else (id in t.outcomes <==> id in s.outcomes) && (id in s.outcomes ==> t.outcomes[id] == s.outcomes[id])
    decreases |waiting|
  {
    if waiting != [] {
      RejectAllChanges(Settle(s, waiting[0], Closing), waiting[1..]);
      Associative(s.settled, [waiting[0]], waiting[1..]);
      assert waiting == [waiting[0]] + waiting[1..];
    }
  }

  lemma CloseValid(s: State)
    requires Valid(s)
    ensures Valid(Close(s))
  {
    if !s.aborted {
      RejectAllSafe(s.(aborted := true));
      RejectAllChanges(s.(aborted := true, queue := []), s.queue);
    }
  }

  /** Once closed and with no operation left, every call is settled, so no flight is lost. */
  lemma ClearValid(s: State)
    requires Valid(s) && s.aborted && s.active == {}
    ensures Valid(Clear(s)) && forall id: nat :: id < |s.calls| ==> id in s.settled
  {
    assert s.queue == [];
  }

  /** Whatever happens, the invariant stays. */
  lemma NextValid(s: State, e: Event)
    requires Valid(s) && Possible(s, e)
    ensures Valid(Next(s, e))
  {
    match e
    case Called(flight) => CallValid(s, flight);
    case Invoked => InvokeValid(s);
    case Returned(id, outcome) => ReturnValid(s, id, outcome);
    case Finished(id) => FinishValid(s, id);
    case Landed(flight, id) =>
    case Closed => CloseValid(s);
    case Cleared => ClearValid(s);
  }

  /** What happened stays; once closed no call gets a slot and no call waits. */
  lemma NextGrows(s: State, e: Event)
    requires Valid(s) && Possible(s, e)
    ensures var t := Next(s, e);
            && s.started <= t.started && s.invoked <= t.invoked && s.settled <= t.settled && |s.calls| <= |t.calls|
            && (s.aborted ==> t.aborted && t.queue == [])
            && (s.aborted || e.Closed? ==> t.started == s.started)
  {
    match e
    case Finished(id) => var k := DrainTakesPrefix(Free(s, id));
    case Closed =>
      if !s.aborted {
        RejectAllChanges(s.(aborted := true, queue := []), s.queue);
      }
    case Called(flight) =>
    case Invoked =>
    case Returned(id, outcome) =>
    case Landed(flight, id) =>
    case Cleared =>
  }

  function Initial(concurrency: nat, capacity: nat): State {
    State(concurrency, capacity, false, 0, {}, [], map[], [], [], [], [], map[])
  }

  predicate Follows(s: State, e: Event, t: State) {
    Possible(s, e) && t == Next(s, e)
  }

  /** The states of a run. */
  predicate Run(states: seq<State>, events: seq<Event>) {
    && |states| == |events| + 1
    && states[0].concurrency > 0 && states[0].capacity > 0 && states[0] == Initial(states[0].concurrency, states[0].capacity)
    && forall k :: 0 <= k < |events| ==> Follows(states[k], events[k], states[k + 1])
  }

  lemma {:induction false} RunValid(states: seq<State>, events: seq<Event>, k: nat)
    requires Run(states, events) && k < |states|
    ensures Valid(states[k])
  {
    if k > 0 {
      RunValid(states, events, k - 1);
      assert Follows(states[k - 1], events[k - 1], states[k - 1 + 1]);
      NextValid(states[k - 1], events[k - 1]);
    }
  }

  lemma PrefixTransitive<T>(a: seq<T>, b: seq<T>, c: seq<T>)
    requires a <= b <= c
    ensures a <= c
  {
  }

  /** What was started, settled or invoked stays so, and once closed nothing starts. */
  predicate Grown(s: State, t: State) {
    && s.started <= t.started && s.settled <= t.settled && s.invoked <= t.invoked
    && (s.aborted ==> t.aborted && t.started == s.started)
  }

  lemma GrownTwice(s: State, t: State, u: State)
    requires Grown(s, t) && Grown(t, u)
    ensures Grown(s, u)
  {
    PrefixTransitive(s.started, t.started, u.started);
    PrefixTransitive(s.settled, t.settled, u.settled);
    PrefixTransitive(s.invoked, t.invoked, u.invoked);
  }

  lemma RunStepGrows(states: seq<State>, events: seq<Event>, k: nat)
    requires Run(states, events) && k < |events|
    ensures Grown(states[k], states[k + 1])
  {
    RunValid(states, events, k);
    assert Follows(states[k], events[k], states[k + 1]);
    NextGrows(states[k], events[k]);
  }

  lemma {:induction false} RunGrows(states: seq<State>, events: seq<Event>, j: nat, k: nat)
    requires Run(states, events) && j <= k < |states|
    ensures Grown(states[j], states[k])
    decreases k
  {
    if j < k {
      RunGrows(states, events, j, k - 1);
      RunStepGrows(states, events, k - 1);
      GrownTwice(states[j], states[k - 1], states[k]);
    }
  }

  // ---- what callers rely on

  /** A call is refused for want of room exactly when every slot and every place of the queue is taken. */
  lemma RefusedExactly(s: State, flight: Option<Flight>)
    requires Valid(s) && !(flight.Some? && flight.value in s.flights)
    ensures var (t, id) := Call(s, flight);
            && id == |s.calls|
            && (id in t.settled && t.outcomes[id] == Full <==> !s.aborted && s.activeCount == s.concurrency && |s.queue| == s.capacity)
            && (id in t.settled && t.outcomes[id] == Closing <==> s.aborted)
            && (id in t.active <==> !s.aborted && s.activeCount < s.concurrency)
  {
    assert |s.calls| !in s.settled;
    assert |s.calls| !in s.started + s.queue;
    assert |s.calls| !in s.active;
  }

  /** A call that shares a flight under way is answered by it; when the flight has landed, the next call sets out anew. */
  lemma FlightsLand(s: State, flight: Flight)
    requires flight in s.flights
    ensures Call(s, Some(flight)) == (s, s.flights[flight])
    ensures var landed := Land(s, flight, s.flights[flight]);
            && flight !in landed.flights && Call(landed, Some(flight)).1 == |s.calls|
            && forall other :: other in s.flights && other != flight ==> other in landed.flights && landed.flights[other] == s.flights[other]
  {
  }

  /** Once `close` is over, every call is refused, whatever flights were under way before. */
  lemma ClearedRefuses(s: State, flight: Option<Flight>)
    requires Valid(s) && Possible(s, Cleared)
    ensures var (t, id) := Call(Clear(s), flight); id == |s.calls| && id in t.outcomes && t.outcomes[id] == Closing
  {
  }

  /** Two calls that share a flight are not under way at once. */
  lemma OneFlightAtOnce(s: State, a: nat, b: nat)
    requires Valid(s) && a < |s.calls| && b < |s.calls| && a !in s.settled && b !in s.settled
    requires s.calls[a].Some? && s.calls[a] == s.calls[b]
    ensures a == b
  {
  }

  /** When no operation has a slot, no call waits and every call is settled, once. */
  lemma EveryCallSettlesOnce(s: State, id: nat)
    requires Valid(s) && id < |s.calls|
    ensures multiset(s.settled)[id] <= 1
    ensures multiset(s.settled)[id] == 0 ==> id in s.queue || id in s.active
    ensures s.active == {} ==> s.queue == [] && multiset(s.settled)[id] == 1
  {
    CountedOnce(s.settled, id);
  }

  lemma {:induction false} CountedOnce(ids: seq<nat>, id: nat)
    requires NoRepeat(ids)
    ensures multiset(ids)[id] == if id in ids then 1 else 0
  {
    if ids != [] {
      var init, last := ids[..|ids| - 1], ids[|ids| - 1];
      CountedOnce(init, id);
      assert ids == init + [last];
    }
  }

  /** After `close` no call gets a slot; an operation invoked after it had one before. */
  lemma NothingStartsAfterClose(states: seq<State>, events: seq<Event>, j: nat, k: nat)
    requires Run(states, events) && j <= k < |states| && states[j].aborted
    ensures states[k].started == states[j].started && states[k].invoked <= states[j].started
  {
    RunGrows(states, events, j, k);
    RunValid(states, events, k);
  }

  /** A continuation of `s`. */
  predicate Path(s: State, states: seq<State>, events: seq<Event>) {
    && |states| == |events| + 1 && states[0] == s
    && forall k :: 0 <= k < |events| ==> Follows(states[k], events[k], states[k + 1])
  }

  lemma {:induction false} PathClosed(s: State, states: seq<State>, events: seq<Event>, k: nat)
    requires Valid(s) && s.aborted && Path(s, states, events) && k < |states|
    ensures Valid(states[k]) && states[k].aborted && states[k].started == s.started && s.invoked <= states[k].invoked
  {
    if k > 0 {
      PathClosed(s, states, events, k - 1);
      assert Follows(states[k - 1], events[k - 1], states[k - 1 + 1]);
      NextValid(states[k - 1], events[k - 1]);
      NextGrows(states[k - 1], events[k - 1]);
    }
  }

  /** Some continuation of `s` invokes a further operation. */
  ghost predicate StillInvokes(s: State) {
    exists states: seq<State>, events: seq<Event> :: Path(s, states, events) && s.invoked < states[|events|].invoked
  }

  /** Once closed, an operation is still invoked in some continuation exactly when one that got its slot before
      has not been invoked yet. */
  lemma InvokedAfterCloseExactly(s: State)
    requires Valid(s) && s.aborted
    ensures StillInvokes(s) <==> |s.invoked| < |s.started|
  {
    if |s.invoked| < |s.started| {
      assert Path(s, [s, Invoke(s)], [Invoked]);
    } else {
      forall states: seq<State>, events: seq<Event> | Path(s, states, events) ensures states[|events|].invoked == s.invoked {
        PathClosed(s, states, events, |events|);
      }
    }
  }

  /** An operation can be invoked after `close`: its microtask was pending. */
  lemma InvokedAfterClose() returns (states: seq<State>, events: seq<Event>)
    ensures Run(states, events) && |states| == 4 && states[2].aborted && states[2].invoked == [] && states[3].invoked == [0]
  {
    var s0 := Initial(2, 16);
    var s1 := Call(s0, None).0;
    var s2 := Close(s1);
    var s3 := Invoke(s2);
    states, events := [s0, s1, s2, s3], [Called(None), Closed, Invoked];
  }

  /** `LmStudioRuntimeCoordinator`. */
  class RuntimeCoordinator {
    const concurrency: nat
    const capacity: nat
    var aborted: bool
    var activeCount: nat
    var activeOperations: set<nat>
    var queue: seq<nat>
    var flights: map<Flight, nat>
    /** what was called, given a slot, invoked and settled */
    var calls: seq<Option<Flight>>
    var started: seq<nat>
    var invoked: seq<nat>
    var settled: seq<nat>
    var outcomes: map<nat, Outcome>

    function View(): State
      reads this
    {
      State(concurrency, capacity, aborted, activeCount, activeOperations, queue, flights, calls, started, invoked, settled, outcomes)
    }

    constructor (concurrency: nat, capacity: nat)
      requires concurrency > 0 && capacity > 0
      ensures View() == Initial(concurrency, capacity)
    {
      this.concurrency, this.capacity, aborted, activeCount, activeOperations := concurrency, capacity, false, 0, {};
      queue, flights, calls, started, invoked, settled, outcomes := [], map[], [], [], [], [], map[];
    }

    method Reject(id: nat, outcome: Outcome)
      modifies this`settled, this`outcomes
      ensures View() == Settle(old(View()), id, outcome)
    {
      settled, outcomes := settled + [id], outcomes[id := outcome];
    }

    method StartQueuedOperation(id: nat)
      modifies this
      ensures View() == if old(aborted) then Settle(old(View()), id, Closing) else Slot(old(View()), id)
    {
      if aborted {
        Reject(id, Closing);
        return;
      }
      activeCount := activeCount + 1;
      activeOperations := activeOperations + {id};
      started := started + [id];
    }

    method RunBoundedAdmitted(id: nat)
      modifies this
      ensures View() == Admit(old(View()), id)
    {
      if aborted {
        Reject(id, Closing);
        return;
      }
      if activeCount >= concurrency && |queue| >= capacity {
        Reject(id, Full);
        return;
      }
      if activeCount < concurrency {
        StartQueuedOperation(id);
      } else {
        queue := queue + [id];
      }
    }

    /** `getModelReadiness` without a flight; `listModels`, `prepareModel` and `startServer` with theirs. */
    method Ask(flight: Option<Flight>) returns (id: nat)
      modifies this
      ensures (View(), id) == Call(old(View()), flight)
      ensures old(Valid(View())) ==> Valid(View())
      ensures flight.Some? && flight.value in old(flights) ==> id == old(flights)[flight.value] && View() == old(View())
      ensures old(Valid(View())) && !(flight.Some? && flight.value in old(flights)) ==>
                && id == |old(calls)|
                && (id in settled && outcomes[id] == Full <==> !aborted && old(activeCount) == concurrency && |old(queue)| == capacity)
                && (id in settled && outcomes[id] == Closing <==> aborted)
                && (id in activeOperations <==> !aborted && old(activeCount) < concurrency)
    {
      if Valid(View()) {
        CallValid(View(), flight);
        if !(flight.Some? && flight.value in flights) {
          RefusedExactly(View(), flight);
        }
      }
      if flight.Some? && flight.value in flights {
        return flights[flight.value];
      }
      id := |calls|;
      calls := calls + [flight];
      RunBoundedAdmitted(id);
      if flight.Some? {
        flights := flights[flight.value := id];
      }
    }

    method DrainQueue()
      modifies this
      ensures View() == Drain(old(View()))
    {
      while !aborted && activeCount < concurrency && queue != []
        invariant Drain(View()) == Drain(old(View()))
        decreases |queue|
      {
        var head := queue[0];
        queue := queue[1..];
        StartQueuedOperation(head);
      }
    }

    method FinishQueuedOperation(id: nat)
      modifies this
      ensures View() == Finish(old(View()), id)
      ensures old(Valid(View())) && id in old(activeOperations) && id in old(settled) ==>
                Valid(View()) && (queue != [] ==> activeCount == concurrency)
    {
      if Valid(View()) && id in activeOperations && id in settled {
        FinishValid(View(), id);
      }
      activeOperations := activeOperations - {id};
      activeCount := if activeCount > 0 then activeCount - 1 else 0;
      DrainQueue();
    }

    /** `close`, up to its first `await`. */
    method Shut()
      modifies this
      ensures View() == Close(old(View()))
      ensures old(Valid(View())) ==> Valid(View()) && queue == []
      ensures aborted && activeOperations == old(activeOperations) && started == old(started)
      ensures settled == old(settled) + if old(aborted) then [] else old(queue)
      ensures !old(aborted) ==> forall id <- old(queue) :: id in outcomes && outcomes[id] == Closing
    {
      if Valid(View()) {
        CloseValid(View());
      }
      if aborted {
        return;
      }
      RejectAllChanges(View().(aborted := true, queue := []), queue);
      aborted := true;
      var rejected := queue;
      queue := [];
      ghost var after := Close(old(View()));
      for i := 0 to |rejected|
        invariant RejectAll(View(), rejected[i..]) == after
      {
        assert rejected[i..][1..] == rejected[i + 1..];
        Reject(rejected[i], Closing);
      }
    }
  }
}
