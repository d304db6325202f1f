/** Bounded, deduplicated transcript reads (apps/daemon/src/application/sourceAgentSessionService.ts).

    A promise is its number: numbers are given out in the order of admission.  A read throws at once, or settles
    later; its completion runs as a continuation of its own. */
module ReadScheduler {
  import opened Sequences

  /** A queued read: `throws` when calling it throws before it returns a promise. */
  datatype Read = Read(id: nat, key: string, throws: bool)

  datatype Outcome = Resolved | Rejected | ShutDown
  datatype Settlement = Settlement(id: nat, outcome: Outcome)

  /** What a caller gets. */
  datatype Answer = Joined(id: nat) | Admitted(id: nat) | Closing | Full

  /** The service's fields, and what was started and settled so far, in order. */
  datatype State = State(
    concurrency: nat, capacity: nat, closed: bool, active: int, running: map<nat, string>, inFlight: map<string, nat>,
    queued: seq<Read>, next: nat, started: seq<nat>, settled: seq<Settlement>)

  // ---- single changes

  function Enqueue(s: State, key: string, throws: bool): State {
    s.(inFlight := s.inFlight[key := s.next], queued := s.queued + [Read(s.next, key, throws)], next := s.next + 1)
  }

  /** The head of the queue runs. */
  function Launch(s: State): State
    requires s.queued != []
  {
    s.(queued := s.queued[1..], active := s.active + 1, running := s.running[s.queued[0].id := s.queued[0].key],
       started := s.started + [s.queued[0].id])
  }

  function Settle(s: State, id: nat, outcome: Outcome): State {
    s.(settled := s.settled + [Settlement(id, outcome)])
  }

  /** `if (inFlightReads.get(key) === promise) inFlightReads.delete(key)`. */
  function Forget(inFlight: map<string, nat>, key: string, id: nat): map<string, nat> {
    if key in inFlight && inFlight[key] == id then inFlight - {key} else inFlight
  }

  /** The completion up to `startQueuedReads`. */
  function Released(s: State, id: nat): State
    requires id in s.running
  {
    s.(active := s.active - 1, running := s.running - {id}, inFlight := Forget(s.inFlight, s.running[id], id))
  }

  /** `start` of the head: one that throws is rejected and completed at once. */
  function Begin(s: State): State
    requires s.queued != []
  {
    var launched := Launch(s);
    if s.queued[0].throws then Released(Settle(launched, s.queued[0].id, Rejected), s.queued[0].id) else launched
  }

  /** `startQueuedReads`. */
  function Drain(s: State): State
    decreases |s.queued|
  {
    if !s.closed && s.active < s.concurrency && s.queued != [] then Drain(Begin(s)) else s
  }

  /** Rejecting what was queued, in order. */
  function RejectAll(s: State, waiting: seq<Read>): State
    decreases |waiting|
  {
    if waiting == [] then s
    else RejectAll(Settle(s.(inFlight := s.inFlight - {waiting[0].key}), waiting[0].id, ShutDown), waiting[1..])
  }

  // ---- what the service does

  function Request(s: State, key: string, throws: bool): (State, Answer) {
    if key in s.inFlight then (s, Joined(s.inFlight[key]))
    else if s.closed then (s, Closing)
    else if |s.queued| >= s.capacity then (s, Full)
    else (Drain(Enqueue(s, key, throws)), Admitted(s.next))
  }

  function Finished(s: State, id: nat): State
    requires id in s.running
  {
    Drain(Released(s, id))
  }

  function Close(s: State): State {
    if s.closed then s else RejectAll(s.(closed := true, queued := []), s.queued)
  }

  // ---- the invariant

  predicate Counted(s: State) {
    0 < s.concurrency && 0 < s.capacity && s.active == |s.running| <= s.concurrency && |s.queued| <= s.capacity
  }

  /** No slot idles while a read waits; nothing waits once closed. */
  predicate WorkConserving(s: State) {
    s.queued != [] ==> !s.closed && s.active == s.concurrency
  }

  predicate IsQueued(s: State, key: string, id: nat) {
    exists i :: 0 <= i < |s.queued| && s.queued[i].id == id && s.queued[i].key == key
  }

  predicate IsRunning(s: State, key: string, id: nat) {
    id in s.running && s.running[id] == key
  }

  /** The keys in flight are those of the queued and the running reads, each once. */
  ghost predicate Keyed(s: State) {
    forall key, id {:trigger IsQueued(s, key, id)} {:trigger IsRunning(s, key, id)} ::
      (key in s.inFlight && s.inFlight[key] == id) <==> (IsQueued(s, key, id) || IsRunning(s, key, id))
  }

  function Ids(waiting: seq<Read>): (ids: seq<nat>)
    ensures |ids| == |waiting| && forall i :: 0 <= i < |waiting| ==> ids[i] == waiting[i].id
  {
    if waiting == [] then [] else [waiting[0].id] + Ids(waiting[1..])
  }

  /** Reads start in the order of admission. */
  predicate InOrder(s: State) {
    Increasing(s.started + Ids(s.queued)) && forall id <- s.started + Ids(s.queued) :: id < s.next
  }

  predicate IsSettled(s: State, id: nat) {
    exists i :: 0 <= i < |s.settled| && s.settled[i].id == id
  }

  predicate Waits(s: State, id: nat) {
    exists i :: 0 <= i < |s.queued| && s.queued[i].id == id
  }

  /** Every admitted read is queued, running or settled; it is settled at most once, and not while it waits. */
  ghost predicate Settled(s: State) {
    && (forall i, j :: 0 <= i < j < |s.settled| ==> s.settled[i].id != s.settled[j].id)
    && (forall id: nat :: id < s.next ==> Waits(s, id) || id in s.running || IsSettled(s, id))
    && (forall i :: 0 <= i < |s.settled| ==> s.settled[i].id < s.next && !Waits(s, s.settled[i].id))
    && (forall id :: id in s.running ==> id < s.next && id in s.started && !Waits(s, id))
  }

  /** The invariant while the queue is being started. */
  ghost predicate Ready(s: State) {
    Counted(s) && Keyed(s) && InOrder(s) && Settled(s)
  }

  ghost predicate Valid(s: State) {
    Ready(s) && WorkConserving(s)
  }

  // ---- single changes keep it

  lemma IdsSnoc(waiting: seq<Read>, r: Read)
    ensures Ids(waiting + [r]) == Ids(waiting) + [r.id]
  {
  }

  lemma EnqueueOrder(s: State, key: string, throws: bool)
    requires InOrder(s)
    ensures InOrder(Enqueue(s, key, throws))
  {
    var ids := s.started + Ids(s.queued);
    IdsSnoc(s.queued, Read(s.next, key, throws));
    IncreasingSnoc(ids, s.next);
    assert s.started + (Ids(s.queued) + [s.next]) == ids + [s.next];
  }

  lemma EnqueueQueued(s: State, key: string, throws: bool, k: string, id: nat)
    ensures IsQueued(Enqueue(s, key, throws), k, id) <==> IsQueued(s, k, id) || (k == key && id == s.next)
    ensures Waits(Enqueue(s, key, throws), id) <==> Waits(s, id) || id == s.next
  {
    var t := Enqueue(s, key, throws);
    var n := |s.queued|;
    assert t.queued[n] == Read(s.next, key, throws);
    if IsQueued(s, k, id) {
      var i :| 0 <= i < n && s.queued[i].id == id && s.queued[i].key == k;
      assert t.queued[i] == s.queued[i];
    }
    if Waits(s, id) {
      var i :| 0 <= i < n && s.queued[i].id == id;
      assert t.queued[i] == s.queued[i];
    }
  }

  lemma EnqueueKeyed(s: State, key: string, throws: bool)
    requires Keyed(s) && key !in s.inFlight
    ensures Keyed(Enqueue(s, key, throws))
  {
    var t := Enqueue(s, key, throws);
    forall k, id
      ensures (k in t.inFlight && t.inFlight[k] == id) <==> (IsQueued(t, k, id) || IsRunning(t, k, id))
    {
      EnqueueQueued(s, key, throws, k, id);
      assert IsRunning(t, k, id) == IsRunning(s, k, id);
    }
  }

  lemma EnqueueSettled(s: State, key: string, throws: bool)
    requires Settled(s)
    ensures Settled(Enqueue(s, key, throws))
  {
    var t := Enqueue(s, key, throws);
    forall id: nat ensures Waits(t, id) <==> Waits(s, id) || id == s.next {
      EnqueueQueued(s, key, throws, key, id);
    }
    forall id: nat | id < t.next ensures Waits(t, id) || id in t.running || IsSettled(t, id) {
      assert IsSettled(s, id) ==> IsSettled(t, id);
    }
  }

  /** The queue without its head. */
  lemma TailQueued(s: State, t: State, k: string, id: nat)
    requires s.queued != [] && t.queued == s.queued[1..]
    ensures IsQueued(s, k, id) <==> IsQueued(t, k, id) || (s.queued[0].id == id && s.queued[0].key == k)
    ensures Waits(s, id) <==> Waits(t, id) || s.queued[0].id == id
  {
    if IsQueued(s, k, id) {
      var i :| 0 <= i < |s.queued| && s.queued[i].id == id && s.queued[i].key == k;
      assert i > 0 ==> t.queued[i - 1] == s.queued[i];
    }
    if Waits(s, id) {
      var i :| 0 <= i < |s.queued| && s.queued[i].id == id;
      assert i > 0 ==> t.queued[i - 1] == s.queued[i];
    }
    if IsQueued(t, k, id) {
      var i :| 0 <= i < |t.queued| && t.queued[i].id == id && t.queued[i].key == k;
      assert s.queued[i + 1] == t.queued[i];
    }
    if Waits(t, id) {
      var i :| 0 <= i < |t.queued| && t.queued[i].id == id;
      assert s.queued[i + 1] == t.queued[i];
    }
  }

  /** The head waits nowhere else, and has not started. */
  lemma HeadIsFirst(s: State)
    requires InOrder(s) && s.queued != []
    ensures forall i :: 1 <= i < |s.queued| ==> s.queued[i].id > s.queued[0].id
    ensures s.queued[0].id !in s.started && s.queued[0].id < s.next
  {
    var ids, n := s.started + Ids(s.queued), |s.started|;
    assert ids[n] == s.queued[0].id;
    forall i | 1 <= i < |s.queued| ensures s.queued[i].id > s.queued[0].id {
      assert ids[n + i] == s.queued[i].id;
    }
    forall k | 0 <= k < n ensures s.started[k] != s.queued[0].id {
      assert ids[k] == s.started[k];
    }
    assert ids[n] in ids;
  }

  lemma LaunchOrder(s: State)
    requires InOrder(s) && s.queued != []
    ensures InOrder(Launch(s))
  {
    Associative(s.started, [s.queued[0].id], Ids(s.queued[1..]));
  }

  lemma LaunchKeyed(s: State)
    requires Keyed(s) && InOrder(s) && Settled(s) && s.queued != []
    ensures Keyed(Launch(s))
  {
    var t, head := Launch(s), s.queued[0];
    HeadIsFirst(s);
    assert head.id !in s.running;
    forall k, id
      ensures (k in t.inFlight && t.inFlight[k] == id) <==> (IsQueued(t, k, id) || IsRunning(t, k, id))
    {
      TailQueued(s, t, k, id);
      assert IsRunning(t, k, id) <==> IsRunning(s, k, id) || (id == head.id && k == head.key);
      assert (k in s.inFlight && s.inFlight[k] == id) <==> (IsQueued(s, k, id) || IsRunning(s, k, id));
    }
  }

  lemma LaunchSettled(s: State)
    requires InOrder(s) && Settled(s) && s.queued != []
    ensures Settled(Launch(s))
  {
    var t, head := Launch(s), s.queued[0];
    HeadIsFirst(s);
    forall id: nat ensures Waits(s, id) <==> Waits(t, id) || id == head.id {
      TailQueued(s, t, head.key, id);
    }
    assert !Waits(t, head.id);
    forall id: nat | id < t.next ensures Waits(t, id) || id in t.running || IsSettled(t, id) {
      assert IsSettled(s, id) ==> IsSettled(t, id);
    }
  }

  lemma LaunchSafe(s: State)
    requires Ready(s) && s.queued != [] && s.active < s.concurrency
    ensures Ready(Launch(s)) && !IsSettled(Launch(s), s.queued[0].id)
  {
    HeadIsFirst(s);
    LaunchOrder(s);
    LaunchKeyed(s);
    LaunchSettled(s);
    assert Waits(s, s.queued[0].id);
    assert s.queued[0].id !in s.running;
  }

  lemma SettleSettled(s: State, id: nat, outcome: Outcome)
    requires Settled(s) && id in s.running && !IsSettled(s, id)
    ensures Settled(Settle(s, id, outcome)) && IsSettled(Settle(s, id, outcome), id)
  {
    var t := Settle(s, id, outcome);
    assert t.settled[|s.settled|].id == id;
    forall x: nat ensures Waits(t, x) == Waits(s, x) {
    }
    forall x: nat | x < t.next ensures Waits(t, x) || x in t.running || IsSettled(t, x) {
      if IsSettled(s, x) {
        var i :| 0 <= i < |s.settled| && s.settled[i].id == x;
        assert t.settled[i].id == x;
      }
    }
  }

  lemma SettleKeyed(s: State, id: nat, outcome: Outcome)
    requires Keyed(s)
    ensures Keyed(Settle(s, id, outcome))
  {
    var t := Settle(s, id, outcome);
    forall k, x ensures (k in t.inFlight && t.inFlight[k] == x) <==> (IsQueued(t, k, x) || IsRunning(t, k, x)) {
      assert IsQueued(t, k, x) == IsQueued(s, k, x) && IsRunning(t, k, x) == IsRunning(s, k, x);
    }
  }

  lemma SettleSafe(s: State, id: nat, outcome: Outcome)
    requires Ready(s) && id in s.running && !IsSettled(s, id)
    ensures Ready(Settle(s, id, outcome)) && IsSettled(Settle(s, id, outcome), id)
  {
    SettleSettled(s, id, outcome);
    SettleKeyed(s, id, outcome);
  }

  lemma ReleaseKeyed(s: State, id: nat)
    requires Keyed(s) && Settled(s) && id in s.running
    ensures Keyed(Released(s, id))
  {
    var t, key := Released(s, id), s.running[id];
    assert IsRunning(s, key, id);
    forall k, x ensures (k in t.inFlight && t.inFlight[k] == x) <==> (IsQueued(t, k, x) || IsRunning(t, k, x)) {
      assert IsQueued(t, k, x) == IsQueued(s, k, x);
      assert (k in s.inFlight && s.inFlight[k] == x) <==> (IsQueued(s, k, x) || IsRunning(s, k, x));
      assert IsRunning(t, k, x) <==> IsRunning(s, k, x) && x != id;
      assert IsQueued(s, k, x) ==> Waits(s, x);
    }
  }

  lemma ReleaseSettled(s: State, id: nat)
    requires Settled(s) && id in s.running && IsSettled(s, id)
    ensures Settled(Released(s, id))
  {
    var t := Released(s, id);
    forall x: nat ensures Waits(t, x) == Waits(s, x) && IsSettled(t, x) == IsSettled(s, x) {
    }
  }

  lemma ReleaseSafe(s: State, id: nat)
    requires Ready(s) && id in s.running && IsSettled(s, id)
    ensures Ready(Released(s, id))
  {
    ReleaseKeyed(s, id);
    ReleaseSettled(s, id);
    assert |s.running - {id}| == |s.running| - 1;
  }

  lemma BeginSafe(s: State)
    requires Ready(s) && s.queued != [] && s.active < s.concurrency
    ensures Ready(Begin(s))
  {
    LaunchSafe(s);
    if s.queued[0].throws {
      SettleSafe(Launch(s), s.queued[0].id, Rejected);
      ReleaseSafe(Settle(Launch(s), s.queued[0].id, Rejected), s.queued[0].id);
    }
  }

  // ---- starting what is queued

  lemma {:induction false} DrainSafe(s: State)
    requires Ready(s) && (s.closed ==> s.queued == [])
    ensures Valid(Drain(s))
    decreases |s.queued|
  {
    if !s.closed && s.active < s.concurrency && s.queued != [] {
      BeginSafe(s);
      DrainSafe(Begin(s));
    }
  }

  lemma {:induction false} DrainTwice(s: State)
    ensures Drain(Drain(s)) == Drain(s) && |Drain(s).queued| <= |s.queued|
    decreases |s.queued|
  {
    if !s.closed && s.active < s.concurrency && s.queued != [] {
      DrainTwice(Begin(s));
    }
  }

  lemma BeginTakesHead(s: State)
    requires s.queued != []
    ensures Begin(s).queued == s.queued[1..] && Begin(s).started == s.started + [s.queued[0].id]
  {
  }

  lemma OneMore(waiting: seq<Read>, started: seq<nat>, k: nat)
    requires k < |waiting|
    ensures waiting[1..][k..] == waiting[k + 1..]
    ensures (started + [waiting[0].id]) + Ids(waiting[1..])[..k] == started + Ids(waiting)[..k + 1]
  {
    Sequences.OneMore(started, Ids(waiting), k);
    assert Ids(waiting) == [waiting[0].id] + Ids(waiting[1..]);
    assert waiting[1..][k..] == waiting[k + 1..];
  }

  /** First in, first out: a prefix of the queue starts, in its order, and the rest waits on. */
  lemma {:induction false} DrainTakesPrefix(s: State) returns (k: nat)
    ensures k <= |s.queued| && Drain(s).queued == s.queued[k..] && Drain(s).started == s.started + Ids(s.queued)[..k]
    ensures k == 0 ==> s.closed || s.active >= s.concurrency || s.queued == []
    decreases |s.queued|
  {
    if !s.closed && s.active < s.concurrency && s.queued != [] {
      BeginTakesHead(s);
      k := DrainTakesPrefix(Begin(s));
      OneMore(s.queued, s.started, k);
      k := k + 1;
    } else {
      k := 0;
    }
  }

  /** The reads among these that throw. */
  function Throwing(waiting: seq<Read>): seq<Read> {
    if waiting == [] then [] else (if waiting[0].throws then [waiting[0]] else []) + Throwing(waiting[1..])
  }

  lemma BeginRejects(s: State)
    requires s.queued != []
    ensures Begin(s).settled == s.settled + AllSettled(if s.queued[0].throws then [s.queued[0]] else [], Rejected)
  {
    assert s.settled + [] == s.settled;
  }

  lemma ThrowingStep(settled: seq<Settlement>, waiting: seq<Read>, k: nat)
    requires k < |waiting|
    ensures (settled + AllSettled(if waiting[0].throws then [waiting[0]] else [], Rejected)) + AllSettled(Throwing(waiting[1..][..k]), Rejected)
            == settled + AllSettled(Throwing(waiting[..k + 1]), Rejected)
  {
    assert waiting[..k + 1][0] == waiting[0] && waiting[..k + 1][1..] == waiting[1..][..k];
    var rest := Throwing(waiting[1..][..k]);
    if waiting[0].throws {
      SettledCons(settled, waiting[0], rest);
    } else {
      assert [] + rest == rest && settled + [] == settled;
    }
  }

  lemma SettledCons(settled: seq<Settlement>, read: Read, rest: seq<Read>)
    ensures (settled + AllSettled([read], Rejected)) + AllSettled(rest, Rejected) == settled + AllSettled([read] + rest, Rejected)
  {
    assert AllSettled([read] + rest, Rejected) == AllSettled([read], Rejected) + AllSettled(rest, Rejected);
  }

  lemma {:induction false} DrainShrinks(s: State)
    ensures |Drain(s).queued| <= |s.queued|
    decreases |s.queued|
  {
    if !s.closed && s.active < s.concurrency && s.queued != [] {
      BeginTakesHead(s);
      DrainShrinks(Begin(s));
    }
  }

  /** Of the reads that start, those that throw are rejected at once, in their order, and nothing else is settled. */
  lemma {:induction false} DrainRejectsThrowing(s: State)
    ensures |Drain(s).queued| <= |s.queued|
    ensures Drain(s).settled == s.settled + AllSettled(Throwing(s.queued[..|s.queued| - |Drain(s).queued|]), Rejected)
    decreases |s.queued|
  {
    DrainShrinks(s);
    if !s.closed && s.active < s.concurrency && s.queued != [] {
      BeginTakesHead(s);
      BeginRejects(s);
      DrainRejectsThrowing(Begin(s));
      ThrowingStep(s.settled, s.queued, |s.queued| - 1 - |Drain(s).queued|);
    }
  }

  // ---- closing

  /** The head of the queue is rejected. */
  function RejectHead(s: State): State
    requires s.queued != []
  {
    Settle(s.(queued := s.queued[1..], inFlight := s.inFlight - {s.queued[0].key}), s.queued[0].id, ShutDown)
  }

  lemma RejectOrder(s: State)
    requires InOrder(s) && s.queued != []
    ensures InOrder(RejectHead(s))
  {
    IncreasingWithout(s.started + Ids(s.queued), |s.started|, s.started + Ids(s.queued[1..]));
  }

  lemma RejectKeyed(s: State)
    requires Keyed(s) && InOrder(s) && Settled(s) && s.queued != []
    ensures Keyed(RejectHead(s))
  {
    var t, head := RejectHead(s), s.queued[0];
    HeadIsFirst(s);
    assert IsQueued(s, head.key, head.id);
    forall k, x ensures (k in t.inFlight && t.inFlight[k] == x) <==> (IsQueued(t, k, x) || IsRunning(t, k, x)) {
      TailQueued(s, t, k, x);
      assert (k in s.inFlight && s.inFlight[k] == x) <==> (IsQueued(s, k, x) || IsRunning(s, k, x));
      assert IsRunning(t, k, x) == IsRunning(s, k, x);
    }
  }

  lemma RejectSettled(s: State)
    requires InOrder(s) && Settled(s) && s.queued != []
    ensures Settled(RejectHead(s))
  {
    var t, head := RejectHead(s), s.queued[0];
    HeadIsFirst(s);
    assert Waits(s, head.id);
    forall x: nat ensures Waits(s, x) <==> Waits(t, x) || x == head.id {
      TailQueued(s, t, head.key, x);
    }
    assert !Waits(t, head.id);
    assert t.settled[|s.settled|].id == head.id;
    forall x: nat | x < t.next ensures Waits(t, x) || x in t.running || IsSettled(t, x) {
      if IsSettled(s, x) {
        var i :| 0 <= i < |s.settled| && s.settled[i].id == x;
        assert t.settled[i].id == x;
      }
    }
  }

  lemma {:induction false} RejectAllSafe(s: State)
    requires Ready(s)
    ensures Ready(RejectAll(s.(queued := []), s.queued)) && RejectAll(s.(queued := []), s.queued).queued == []
    decreases |s.queued|
  {
    if s.queued != [] {
      RejectOrder(s);
      RejectKeyed(s);
      RejectSettled(s);
      RejectAllSafe(RejectHead(s));
    }
  }

  /** The reads, each settled as given. */
  function AllSettled(batch: seq<Read>, outcome: Outcome): (settled: seq<Settlement>)
    ensures |settled| == |batch| && forall i :: 0 <= i < |batch| ==> settled[i] == Settlement(batch[i].id, outcome)
  {
    if batch == [] then [] else [Settlement(batch[0].id, outcome)] + AllSettled(batch[1..], outcome)
  }

  lemma {:induction false} RejectAllChanges(s: State, waiting: seq<Read>)
    ensures var t := RejectAll(s, waiting);
            && t.started == s.started && t.running == s.running && t.closed == s.closed && t.next == s.next
            && t.queued == s.queued && t.settled == s.settled + AllSettled(waiting, ShutDown)
    decreases |waiting|
  {
    if waiting != [] {
      Associative(s.settled, [Settlement(waiting[0].id, ShutDown)], AllSettled(waiting[1..], ShutDown));
      RejectAllChanges(Settle(s.(inFlight := s.inFlight - {waiting[0].key}), waiting[0].id, ShutDown), waiting[1..]);
    }
  }

  // ---- runs

  datatype Event = Asked(key: string, throws: bool) | Returned(id: nat, outcome: Outcome) | Completed(id: nat) | Closed

  /** A read settles once and while it runs; its completion follows. */
  predicate Possible(s: State, e: Event) {
    match e
    case Returned(id, outcome) => !outcome.ShutDown? && id in s.running && !IsSettled(s, id)
    case Completed(id) => id in s.running && IsSettled(s, id)
    case _ => true
  }

  function Next(s: State, e: Event): State
    requires Possible(s, e)
  {
    match e
    case Asked(key, throws) => Request(s, key, throws).0
    case Returned(id, outcome) => Settle(s, id, outcome)
    case Completed(id) => Finished(s, id)
    case Closed => Close(s)
  }

  lemma EnqueueSafe(s: State, key: string, throws: bool)
    requires Ready(s) && key !in s.inFlight && |s.queued| < s.capacity
    ensures Ready(Enqueue(s, key, throws))
  {
    EnqueueOrder(s, key, throws);
    EnqueueKeyed(s, key, throws);
    EnqueueSettled(s, key, throws);
  }

  lemma RequestValid(s: State, key: string, throws: bool)
    requires Valid(s)
    ensures Valid(Request(s, key, throws).0)
  {
    if key !in s.inFlight && !s.closed && |s.queued| < s.capacity {
      EnqueueSafe(s, key, throws);
      DrainSafe(Enqueue(s, key, throws));
    }
  }

  lemma FinishedValid(s: State, id: nat)
    requires Valid(s) && id in s.running && IsSettled(s, id)
    ensures Valid(Finished(s, id))
  {
    ReleaseSafe(s, id);
    DrainSafe(Released(s, id));
  }

  lemma {:induction false} DrainKeepsGone(s: State, id: nat)
    requires id !in s.running && id !in Ids(s.queued)
    ensures id !in Drain(s).running
    decreases |s.queued|
  {
    if !s.closed && s.active < s.concurrency && s.queued != [] {
      assert Ids(s.queued)[0] == s.queued[0].id && Ids(s.queued[1..]) == Ids(s.queued)[1..];
      DrainKeepsGone(Begin(s), id);
    }
  }

  lemma QueuedWaits(s: State, id: nat)
    ensures id in Ids(s.queued) ==> Waits(s, id)
  {
    if id in Ids(s.queued) {
      var i: nat :| i < |s.queued| && Ids(s.queued)[i] == id;
      assert s.queued[i].id == id;
    }
  }

  /** A read that is over runs no more. */
  lemma FinishedGone(s: State, id: nat)
    requires Valid(s) && id in s.running
    ensures id !in Finished(s, id).running
  {
    QueuedWaits(s, id);
    DrainKeepsGone(Released(s, id), id);
  }

  lemma CloseValid(s: State)
    requires Valid(s)
    ensures Valid(Close(s))
  {
    if !s.closed {
      ClosedReady(s);
      RejectAllSafe(s.(closed := true));
    }
  }

  lemma ClosedReady(s: State)
    requires Ready(s)
    ensures Ready(s.(closed := true))
  {
    var t := s.(closed := true);
    forall k, x ensures (k in t.inFlight && t.inFlight[k] == x) <==> (IsQueued(t, k, x) || IsRunning(t, k, x)) {
      assert IsQueued(t, k, x) == IsQueued(s, k, x) && IsRunning(t, k, x) == IsRunning(s, k, x);
    }
    forall x: nat ensures Waits(t, x) == Waits(s, x) && IsSettled(t, x) == IsSettled(s, x) {
    }
  }

  /** Whatever happens, the invariant stays. */
  lemma NextValid(s: State, e: Event)
    requires Valid(s) && Possible(s, e)
    ensures Valid(Next(s, e))
  {
    match e
    case Asked(key, throws) =>
      RequestValid(s, key, throws);
    case Returned(id, outcome) =>
      SettleSafe(s, id, outcome);
    case Completed(id) =>
      FinishedValid(s, id);
    case Closed =>
      CloseValid(s);
  }

  lemma {:induction false} DrainGrows(s: State)
    ensures var t := Drain(s); s.settled <= t.settled && t.next == s.next && t.closed == s.closed
    decreases |s.queued|
  {
    if !s.closed && s.active < s.concurrency && s.queued != [] {
      DrainGrows(Begin(s));
    }
  }

  /** What was started or settled stays so; once closed nothing starts, and nothing is admitted. */
  lemma NextGrows(s: State, e: Event)
    requires Valid(s) && Possible(s, e)
    ensures var t := Next(s, e);
            && s.started <= t.started && s.settled <= t.settled && s.next <= t.next && (s.closed ==> t.closed)
            && (s.closed || e.Closed? ==> t.started == s.started && t.next == s.next)
  {
    match e
    case Asked(key, throws) =>
      if key !in s.inFlight && !s.closed && |s.queued| < s.capacity {
        var k := DrainTakesPrefix(Enqueue(s, key, throws));
        DrainGrows(Enqueue(s, key, throws));
      }
    case Returned(id, outcome) =>
    case Completed(id) =>
      var k := DrainTakesPrefix(Released(s, id));
      DrainGrows(Released(s, id));
    case Closed =>
      if !s.closed {
        RejectAllChanges(s.(closed := true, queued := []), s.queued);
      }
  }

  function Initial(concurrency: nat, capacity: nat): State {
    State(concurrency, capacity, false, 0, map[], map[], [], 0, [], [])
  }

  /** The states of a run. */
  ghost predicate Run(states: seq<State>, events: seq<Event>) {
    && |states| == |events| + 1
    && states[0].concurrency > 0 && states[0].capacity > 0 && states[0] == Initial(states[0].concurrency, states[0].capacity)
    && forall k :: 0 <= k < |events| ==> Follows(states, events, k)
  }

  ghost predicate Follows(states: seq<State>, events: seq<Event>, k: nat)
    requires k < |events| && k + 1 < |states|
  {
    Possible(states[k], events[k]) && states[k + 1] == Next(states[k], events[k])
  }

  lemma {:induction false} RunValid(states: seq<State>, events: seq<Event>, k: nat)
    requires Run(states, events) && k < |states|
    ensures Valid(states[k])
  {
    if k == 0 {
      InitialValid(states[0].concurrency, states[0].capacity);
    } else {
      RunValid(states, events, k - 1);
      assert Follows(states, events, k - 1);
      NextValid(states[k - 1], events[k - 1]);
    }
  }

  lemma InitialValid(concurrency: nat, capacity: nat)
    requires concurrency > 0 && capacity > 0
    ensures Valid(Initial(concurrency, capacity))
  {
    var s := Initial(concurrency, capacity);
    forall k, id ensures (k in s.inFlight && s.inFlight[k] == id) <==> (IsQueued(s, k, id) || IsRunning(s, k, id)) {
    }
  }

  lemma {:induction false} RunGrows(states: seq<State>, events: seq<Event>, j: nat, k: nat)
    requires Run(states, events) && j <= k < |states|
    ensures states[j].started <= states[k].started && states[j].settled <= states[k].settled
    ensures states[j].closed ==> states[k].started == states[j].started && states[k].next == states[j].next
    ensures states[j].closed ==> states[k].closed
    decreases k
  {
    if j < k {
      RunGrows(states, events, j, k - 1);
      RunValid(states, events, k - 1);
      assert Follows(states, events, k - 1);
      NextGrows(states[k - 1], events[k - 1]);
    }
  }

  // ---- what callers rely on

  ghost predicate Answers(s: State, key: string, answer: Answer) {
    && (forall id :: answer == Joined(id) <==> IsQueued(s, key, id) || IsRunning(s, key, id))
    && (answer == Full <==> !answer.Joined? && !s.closed && s.active == s.concurrency && |s.queued| == s.capacity)
    && (answer == Closing <==> !answer.Joined? && s.closed)
  }

  /** A request joins exactly when a read of its key is queued or running, and then that read; it is refused for
      want of room exactly when every slot and every place of the queue is taken. */
  lemma RequestAnswers(s: State, key: string, throws: bool)
    requires Valid(s)
    ensures Answers(s, key, Request(s, key, throws).1)
  {
    var answer := Request(s, key, throws).1;
    forall id ensures answer == Joined(id) <==> IsQueued(s, key, id) || IsRunning(s, key, id) {
      assert (key in s.inFlight && s.inFlight[key] == id) <==> (IsQueued(s, key, id) || IsRunning(s, key, id));
    }
  }

  /** No key is queued twice, and none is both queued and running, or running twice. */
  lemma KeysOnce(s: State)
    requires Valid(s)
    ensures forall i, j :: 0 <= i < j < |s.queued| ==> s.queued[i].key != s.queued[j].key
    ensures forall i, id :: 0 <= i < |s.queued| && id in s.running ==> s.queued[i].key != s.running[id]
    ensures forall a, b :: a in s.running && b in s.running && a != b ==> s.running[a] != s.running[b]
  {
    forall i | 0 <= i < |s.queued| ensures s.queued[i].key in s.inFlight && s.inFlight[s.queued[i].key] == s.queued[i].id {
      assert IsQueued(s, s.queued[i].key, s.queued[i].id);
    }
    forall id | id in s.running ensures s.running[id] in s.inFlight && s.inFlight[s.running[id]] == id && !Waits(s, id) {
      assert IsRunning(s, s.running[id], id);
    }
    QueueDistinct(s);
  }

  lemma QueueDistinct(s: State)
    requires InOrder(s)
    ensures forall i, j :: 0 <= i < j < |s.queued| ==> s.queued[i].id < s.queued[j].id
  {
    var ids, n := s.started + Ids(s.queued), |s.started|;
    forall i, j | 0 <= i < j < |s.queued| ensures s.queued[i].id < s.queued[j].id {
      assert ids[n + i] == s.queued[i].id && ids[n + j] == s.queued[j].id;
    }
  }

  /** How often a promise was settled. */
  function Settlements(settled: seq<Settlement>, id: nat): nat {
    if settled == [] then 0 else (if settled[0].id == id then 1 else 0) + Settlements(settled[1..], id)
  }

  lemma {:induction false} SettledAtMostOnce(settled: seq<Settlement>, id: nat)
    requires forall i, j :: 0 <= i < j < |settled| ==> settled[i].id != settled[j].id
    ensures Settlements(settled, id) == if exists i :: 0 <= i < |settled| && settled[i].id == id then 1 else 0
  {
    if settled != [] {
      var rest := settled[1..];
      assert forall i :: 0 <= i < |rest| ==> rest[i] == settled[i + 1];
      SettledAtMostOnce(rest, id);
      if settled[0].id == id {
        assert !exists i :: 0 <= i < |rest| && rest[i].id == id;
      } else if exists i :: 0 <= i < |settled| && settled[i].id == id {
        var i :| 0 <= i < |settled| && settled[i].id == id;
        assert rest[i - 1].id == id;
      }
    }
  }

  /** Every admitted read is settled at most once; exactly once unless it waits or runs; and when nothing runs,
      nothing waits. */
  lemma EveryReadSettlesOnce(s: State, id: nat)
    requires Valid(s) && id < s.next
    ensures Settlements(s.settled, id) <= 1
    ensures Settlements(s.settled, id) == 0 ==> Waits(s, id) || id in s.running
    ensures s.running == map[] ==> s.queued == [] && Settlements(s.settled, id) == 1
  {
    SettledAtMostOnce(s.settled, id);
    if s.running == map[] {
      assert s.active == 0;
      assert !Waits(s, id);
    }
  }

  /** What `close` waits for: once the reads that ran when it was called are settled, every read is. */
  lemma CloseWaitsForAll(states: seq<State>, events: seq<Event>, j: nat, k: nat, id: nat)
    requires Run(states, events) && j <= k < |states| && states[j].closed
    requires forall r :: r in states[j].running ==> IsSettled(states[k], r)
    requires id < states[k].next
    ensures Settlements(states[k].settled, id) == 1
  {
    RunValid(states, events, j);
    RunValid(states, events, k);
    RunGrows(states, events, j, k);
    var s, t := states[j], states[k];
    SettledAtMostOnce(t.settled, id);
    if id !in s.running {
      assert !Waits(s, id);
      assert IsSettled(s, id);
      var i :| 0 <= i < |s.settled| && s.settled[i].id == id;
      assert t.settled[i].id == id;
    }
  }

  /** `SourceAgentSessionService`, its reads. */
  class SourceAgentReads {
    const concurrency: nat
    const capacity: nat
    var closed: bool
    var activeReadCount: int
    var activeReads: map<nat, string>
    var inFlightReads: map<string, nat>
    var queuedReads: seq<Read>
    /** the next promise, and what was started and settled */
    var next: nat
    var started: seq<nat>
    var settled: seq<Settlement>

    function View(): State
      reads this
    {
      State(concurrency, capacity, closed, activeReadCount, activeReads, inFlightReads, queuedReads, next, started, settled)
    }

    constructor (concurrency: nat, capacity: nat)
      requires concurrency > 0 && capacity > 0
      ensures View() == Initial(concurrency, capacity)
    {
      this.concurrency, this.capacity, closed, activeReadCount, activeReads := concurrency, capacity, false, 0, map[];
      inFlightReads, queuedReads, next, started, settled := map[], [], 0, [], [];
    }

    method Release(id: nat)
      requires id in activeReads
      modifies this`activeReadCount, this`activeReads, this`inFlightReads
      ensures View() == Released(old(View()), id)
    {
      var key := activeReads[id];
      activeReadCount := activeReadCount - 1;
      activeReads := activeReads - {id};
      if key in inFlightReads && inFlightReads[key] == id {
        inFlightReads := inFlightReads - {key};
      }
    }

    /** The completion of `createReadCompletion`. */
    method Complete(id: nat)
      requires id in activeReads
      modifies this
      ensures View() == Finished(old(View()), id)
      ensures old(Valid(View()) && IsSettled(View(), id)) ==> Valid(View()) && id !in activeReads
      decreases |queuedReads|, 1
    {
      if Valid(View()) && IsSettled(View(), id) {
        FinishedValid(View(), id);
        FinishedGone(View(), id);
      }
      Release(id);
      StartQueuedReads();
    }

    /** `start`, of a read that was taken off the queue; what it leaves is the queue from before with its head begun. */
    method Start(r: Read, ghost before: State)
      requires before.queued != [] && r == before.queued[0] && View() == before.(queued := before.queued[1..])
      modifies this
      ensures View() == if r.throws then Drain(Begin(before)) else Begin(before)
      ensures Ready(before) && before.active < concurrency && !closed ==> Ready(View())
      decreases |queuedReads|, 2
    {
      if Ready(before) && before.active < concurrency && !closed {
        BeginSafe(before);
        if r.throws {
          DrainSafe(Begin(before));
        }
      }
      activeReadCount := activeReadCount + 1;
      activeReads := activeReads[r.id := r.key];
      started := started + [r.id];
      if r.throws {
        settled := settled + [Settlement(r.id, Rejected)];
        Complete(r.id);
      }
    }

    method StartQueuedReads()
      modifies this
      ensures View() == Drain(old(View()))
      ensures old(Ready(View()) && (closed ==> queuedReads == [])) ==> Valid(View())
      decreases |queuedReads|, 0
    {
      if Ready(View()) && (closed ==> queuedReads == []) {
        DrainSafe(View());
      }
      while !closed && activeReadCount < concurrency && queuedReads != []
        invariant Drain(View()) == Drain(old(View())) && |queuedReads| <= old(|queuedReads|)
        decreases |queuedReads|
      {
        ghost var before := View();
        var r := queuedReads[0];
        queuedReads := queuedReads[1..];
        DrainTwice(Begin(before));
        Start(r, before);
      }
    }

    /** `dedupeRead`. */
    method DedupeRead(key: string, throws: bool) returns (answer: Answer)
      modifies this
      ensures (View(), answer) == Request(old(View()), key, throws)
      ensures old(Valid(View())) ==> Valid(View()) && Answers(old(View()), key, answer)
    {
      if Valid(View()) {
        RequestValid(View(), key, throws);
        RequestAnswers(View(), key, throws);
      }
      if key in inFlightReads {
        return Joined(inFlightReads[key]);
      }
      if closed {
        return Closing;
      }
      if |queuedReads| >= capacity {
        return Full;
      }
      answer := Admitted(next);
      Admit(key, throws);
    }

    method Admit(key: string, throws: bool)
      modifies this
      ensures View() == Drain(Enqueue(old(View()), key, throws))
    {
      inFlightReads := inFlightReads[key := next];
      queuedReads := queuedReads + [Read(next, key, throws)];
      next := next + 1;
      StartQueuedReads();
    }

    /** The read of a running promise settles. */
    method Return(id: nat, outcome: Outcome)
      modifies this`settled
      ensures View() == Settle(old(View()), id, outcome)
      ensures old(Valid(View()) && id in activeReads && !IsSettled(View(), id)) ==> Valid(View())
    {
      if Valid(View()) && id in activeReads && !IsSettled(View(), id) {
        SettleSafe(View(), id, outcome);
      }
      settled := settled + [Settlement(id, outcome)];
    }

    /** `close`. */
    method Shut()
      modifies this
      ensures View() == Close(old(View()))
      ensures old(Valid(View())) ==> Valid(View()) && queuedReads == []
      ensures closed && activeReads == old(activeReads) && started == old(started)
      ensures settled == old(settled) + if old(closed) then [] else AllSettled(old(queuedReads), ShutDown)
    {
      if Valid(View()) {
        CloseValid(View());
      }
      if !closed {
        RejectAllChanges(View().(closed := true, queued := []), queuedReads);
      }
      if closed {
        return;
      }
      closed := true;
      var rejected := queuedReads;
      queuedReads := [];
      ghost var after := Close(old(View()));
      for i := 0 to |rejected|
        invariant RejectAll(View(), rejected[i..]) == after
      {
        assert rejected[i..][1..] == rejected[i + 1..];
        inFlightReads := inFlightReads - {rejected[i].key};
        settled := settled + [Settlement(rejected[i].id, ShutDown)];
      }
    }
  }
}
