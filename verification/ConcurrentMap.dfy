/** `mapWithConcurrency` (apps/daemon/src/infrastructure/git.ts and
    apps/daemon/src/agents/sourceAgentSessionIndexIo.ts): workers that share the next index.

    A worker runs until it awaits a value; what the workers await may settle in any order.  A rejection ends its
    worker, and the whole call rejects; the other workers go on. */
module ConcurrentMap {

  /** The indices being read and those lost to a rejection, each by a worker of its own; how many workers ended. */
  datatype State<T> = State(count: nat, nextIndex: nat, reading: set<nat>, failed: set<nat>, ended: nat, results: map<nat, T>)

  /** A worker takes the next index, or ends. */
  function Take<T>(s: State<T>): State<T> {
    if s.nextIndex < s.count then s.(reading := s.reading + {s.nextIndex}, nextIndex := s.nextIndex + 1)
    else s.(ended := s.ended + 1)
  }

  /** The workers are called one after the other, each up to its first `await`. */
  function Launch<T>(s: State<T>, workers: nat): State<T>
    decreases workers
  {
    if workers == 0 then s else Launch(Take(s), workers - 1)
  }

  function Workers(concurrency: nat, count: nat): nat {
    if concurrency < count then concurrency else count
  }

  function Begin<T>(count: nat, concurrency: nat): State<T> {
    Launch(State(count, 0, {}, {}, 0, map[]), Workers(concurrency, count))
  }

  datatype Event<T> = Read(index: nat, value: T) | Rejected(index: nat)

  predicate Possible<T>(s: State<T>, e: Event<T>) {
    e.index in s.reading
  }

  function Next<T>(s: State<T>, e: Event<T>): State<T>
    requires Possible(s, e)
  {
    match e
    case Read(i, value) => Take(s.(reading := s.reading - {i}, results := s.results[i := value]))
    case Rejected(i) => s.(reading := s.reading - {i}, failed := s.failed + {i})
  }

  // ---- the invariant

  /** Every index below the next was taken by one worker: it is being read, was read or was lost. */
  ghost predicate Taken<T>(s: State<T>) {
    && s.nextIndex <= s.count
    && (forall i: nat :: i < s.nextIndex <==> i in s.reading || i in s.failed || i in s.results)
    && s.reading !! s.failed !! s.results.Keys
  }

  /** Each worker reads, has ended or has failed, and none ends while there is something to take. */
  predicate Employed<T>(s: State<T>, workers: nat) {
    |s.reading| + s.ended + |s.failed| == workers && (s.ended > 0 ==> s.nextIndex == s.count)
  }

  ghost predicate Valid<T>(s: State<T>, concurrency: nat) {
    Taken(s) && Employed(s, Workers(concurrency, s.count))
  }

  lemma TakeTaken<T>(s: State<T>, workers: nat)
    requires Taken(s) && Employed(s, workers)
    ensures Taken(Take(s)) && Employed(Take(s), workers + 1)
  {
    if s.nextIndex < s.count {
      assert s.nextIndex !in s.reading;
    }
  }

  lemma {:induction false} LaunchTaken<T>(s: State<T>, employed: nat, workers: nat, all: nat)
    requires Taken(s) && Employed(s, employed) && all == employed + workers
    ensures Taken(Launch(s, workers)) && Employed(Launch(s, workers), all) && Launch(s, workers).count == s.count
    decreases workers
  {
    if workers > 0 {
      TakeTaken(s, employed);
      var next := Take(s);
      assert Launch(s, workers) == Launch(next, workers - 1) && next.count == s.count;
      LaunchTaken(next, employed + 1, workers - 1, all);
    }
  }

  lemma BeginValid<T>(count: nat, concurrency: nat)
    ensures Valid(Begin<T>(count, concurrency), concurrency) && Begin<T>(count, concurrency).count == count
  {
    LaunchTaken<T>(State(count, 0, {}, {}, 0, map[]), 0, Workers(concurrency, count), Workers(concurrency, count));
  }

  lemma NextValid<T>(s: State<T>, e: Event<T>, concurrency: nat)
    requires Valid(s, concurrency) && Possible(s, e)
    ensures Valid(Next(s, e), concurrency) && Next(s, e).count == s.count
  {
    var workers := Workers(concurrency, s.count);
    match e
    case Read(i, value) =>
      WorkerReturns(s, i, value, workers);
      TakeTaken(s.(reading := s.reading - {i}, results := s.results[i := value]), workers - 1);
    case Rejected(i) =>
      assert |s.reading - {i}| == |s.reading| - 1;
  }

  lemma WorkerReturns<T>(s: State<T>, i: nat, value: T, workers: nat)
    requires Taken(s) && Employed(s, workers) && i in s.reading
    ensures workers > 0
    ensures var t := s.(reading := s.reading - {i}, results := s.results[i := value]); Taken(t) && Employed(t, workers - 1)
  {
    assert |s.reading - {i}| == |s.reading| - 1;
  }

  /** The results so far are what `read` gives. */
  ghost predicate Faithful<T>(s: State<T>, read: nat -> T) {
    forall i :: i in s.results ==> s.results[i] == read(i)
  }

  ghost predicate Follows<T>(s: State<T>, e: Event<T>, t: State<T>, read: nat -> T) {
    Possible(s, e) && t == Next(s, e) && (e.Read? ==> e.value == read(e.index))
  }

  /** The states of a call. */
  ghost predicate Run<T>(states: seq<State<T>>, events: seq<Event<T>>, count: nat, concurrency: nat, read: nat -> T) {
    && |states| == |events| + 1 && states[0] == Begin<T>(count, concurrency)
    && forall k :: 0 <= k < |events| ==> Follows(states[k], events[k], states[k + 1], read)
  }

  lemma {:induction false} LaunchReadsNothing<T>(s: State<T>, workers: nat)
    ensures Launch(s, workers).results == s.results
    decreases workers
  {
    if workers > 0 {
      LaunchReadsNothing(Take(s), workers - 1);
    }
  }

  lemma {:induction false} RunValid<T>(states: seq<State<T>>, events: seq<Event<T>>, count: nat, concurrency: nat, read: nat -> T, k: nat)
    requires Run(states, events, count, concurrency, read) && k < |states|
    ensures Valid(states[k], concurrency) && states[k].count == count && Faithful(states[k], read)
  {
    if k == 0 {
      BeginValid<T>(count, concurrency);
      LaunchReadsNothing<T>(State(count, 0, {}, {}, 0, map[]), Workers(concurrency, count));
    } else {
      RunValid(states, events, count, concurrency, read, k - 1);
      assert Follows(states[k - 1], events[k - 1], states[k - 1 + 1], read);
      NextValid(states[k - 1], events[k - 1], concurrency);
    }
  }

  /** However the reads interleave: never more of them at once than the concurrency, no slot left while there is
      something to read; and when none is left and none was rejected, every index was read, each to its value. */
  lemma ReadsAll<T>(states: seq<State<T>>, events: seq<Event<T>>, count: nat, concurrency: nat, read: nat -> T, k: nat)
    requires Run(states, events, count, concurrency, read) && k < |states| && concurrency > 0
    ensures |states[k].reading| <= concurrency
    ensures states[k].failed == {} && states[k].nextIndex < count ==> |states[k].reading| == Workers(concurrency, count)
    ensures states[k].failed == {} && states[k].reading == {} ==>
              forall i: nat :: i < count ==> i in states[k].results && states[k].results[i] == read(i)
  {
    RunValid(states, events, count, concurrency, read, k);
  }
}
