/** `SourceAgentSessionIndex` over a run: what reaches its map, and what it writes
    (apps/daemon/src/agents/sourceAgentSessionIndex.ts).

    An operation loads the file or refreshes a key; it remembers the generation in which it began and its file. */
module SnapshotGenerations {
  import opened Wrappers
  import opened SnapshotIndex
  import Utf8
  import Sequences

  datatype Operation = Operation(generation: nat, path: string)

  /** The index's fields, every operation begun so far, and every file content written so far. */
  datatype State = State(
    path: Option<string>, generation: nat, closed: bool, loaded: bool, loading: bool, entries: seq<Entry>, refreshing: map<string, nat>,
    operations: seq<Operation>, written: seq<seq<Stored>>)

  // ---- what the index does

  function SelectPath(s: State, path: string): State {
    if s.path == Some(path) then s
    else s.(path := Some(path), generation := s.generation + 1, entries := [], refreshing := map[], loaded := false, loading := false)
  }

  function Reset(s: State): State {
    s.(path := None, generation := s.generation + 1, entries := [], refreshing := map[], loaded := false, loading := false, closed := false)
  }

  function Close(s: State): State {
    if s.closed then s else s.(closed := true, generation := s.generation + 1)
  }

  /** The end of `close`, whatever happened since. */
  function CloseEnds(s: State): State {
    s.(refreshing := map[], entries := [])
  }

  /** `ensureLoaded`, up to its `await`. */
  function BeginLoad(s: State, path: string): State {
    var selected := SelectPath(s, path);
    if selected.loaded || selected.loading then selected
    else selected.(loading := true, operations := selected.operations + [Operation(selected.generation, path)])
  }

  /** `refreshSnapshot`, up to its `await`: its path was selected before the load was awaited. */
  function BeginRefresh(s: State, key: string, path: string): State {
    if key in s.refreshing then s
    else s.(refreshing := s.refreshing[key := |s.operations|], operations := s.operations + [Operation(s.generation, path)])
  }

  /** The guard of every operation. */
  predicate Current(s: State, id: nat) {
    id < |s.operations| && s.operations[id].generation == s.generation && s.path == Some(s.operations[id].path)
  }

  /** `loadFromDisk`, after it read the file. */
  function FinishLoad(host: Host, s: State, id: nat, size: nat, read: Option<seq<Stored>>, readAt: int, now: int): State {
    if !Current(s, id) then s
    else s.(entries := Pruned(host, PutAll(s.entries, Loaded(host, size, read, readAt, id)), now), loaded := true)
  }

  function Refreshed(host: Host, entries: seq<Entry>, stored: Stored, id: nat): seq<Entry> {
    if host.Measure(stored) <= host.byteLimit then Put(entries, Entry(stored, host.Measure(stored), Memory, id)) else entries
  }

  /** The refresh, after the sessions were read. */
  function FinishRefresh(host: Host, s: State, id: nat, stored: Stored, now: int): State {
    if !Current(s, id) then s else s.(entries := Pruned(host, Refreshed(host, s.entries, stored, id), now))
  }

  /** The `finally` of a refresh. */
  function Forget(s: State, key: string, id: nat): State {
    if key in s.refreshing && s.refreshing[key] == id then s.(refreshing := s.refreshing - {key}) else s
  }

  /** `persistNow`, up to its first `await`, for the operation that asked for it. */
  function Persist(host: Host, s: State, id: nat, now: int): State {
    if !Current(s, id) then s
    else
      var kept := Pruned(host, s.entries, now);
      s.(entries := kept, written := s.written + [Contents(kept)])
  }

  // ---- the invariant

  ghost predicate Cached(host: Host, entries: seq<Entry>) {
    Keyed(entries) && Measured(host, entries) && (entries == [] || Fits(entries, host.byteLimit))
  }

  /** Only operations of the current generation and file brought what is cached; once closed there are none. */
  predicate Brought(s: State) {
    && (forall i :: 0 <= i < |s.operations| ==> s.operations[i].generation <= s.generation)
    && (s.closed ==> forall i :: 0 <= i < |s.operations| ==> s.operations[i].generation < s.generation)
    && (forall e <- s.entries :: e.operation < |s.operations| && s.path == Some(s.operations[e.operation].path))
    && (!s.closed ==> forall e <- s.entries :: s.operations[e.operation].generation == s.generation)
  }

  /** Every file written can be loaded again, but for an empty one under a limit smaller than the bare envelope. */
  ghost predicate Loadable(host: Host, written: seq<seq<Stored>>) {
    forall k :: 0 <= k < |written| && (written[k] != [] || host.byteLimit >= 29) ==>
      |Utf8.Bytes(FileText(host, written[k]))| <= host.byteLimit
  }

  ghost predicate Valid(host: Host, s: State) {
    Cached(host, s.entries) && Brought(s) && Loadable(host, s.written)
  }

  // ---- single changes keep it

  lemma {:induction false} PutKeyed(entries: seq<Entry>, e: Entry)
    requires Keyed(entries)
    ensures Keyed(Put(entries, e)) && forall x <- Put(entries, e) :: x == e || x in entries
  {
    if entries != [] && entries[0].stored.cacheKey != e.stored.cacheKey {
      PutKeyed(entries[1..], e);
      var rest := Put(entries[1..], e);
      forall i | 0 <= i < |rest| ensures rest[i].stored.cacheKey != entries[0].stored.cacheKey {
        assert rest[i] in rest;
        if rest[i] != e {
          var k :| 0 <= k < |entries[1..]| && entries[1..][k] == rest[i];
          assert entries[k + 1] == rest[i];
        }
      }
    }
  }

  lemma {:induction false} PutAllKeyed(entries: seq<Entry>, more: seq<Entry>)
    requires Keyed(entries)
    ensures Keyed(PutAll(entries, more)) && forall x <- PutAll(entries, more) :: x in more || x in entries
    decreases |more|
  {
    if more != [] {
      PutKeyed(entries, more[0]);
      PutAllKeyed(Put(entries, more[0]), more[1..]);
      assert more == [more[0]] + more[1..];
    }
  }

  lemma {:induction false} TakenBrought(host: Host, stored: seq<Stored>, now: int, operation: nat)
    ensures forall x <- Taken(host, stored, now, operation) :: x.operation == operation && x.sizeBytes == host.Measure(x.stored)
  {
    if stored != [] {
      TakenBrought(host, stored[1..], now, operation);
    }
  }

  lemma PrunedIn(host: Host, entries: seq<Entry>, now: int, e: Entry)
    requires Keyed(entries) && e in Pruned(host, entries, now)
    ensures e in entries && !host.Expired(e.stored.cachedAt, now)
  {
    var live := host.Unexpired(entries, now);
    var d := PruneKeepsNewest(host, entries, now);
    OldestKeeps(host, live);
    assert e in multiset(host.Oldest(live)[d..]);
    assert e in host.Oldest(live);
    assert e in multiset(live);
    UnexpiredExactly(host, entries, now, e);
  }

  /** Pruning what is measured leaves a cache. */
  lemma PrunedCached(host: Host, entries: seq<Entry>, now: int)
    requires Keyed(entries) && forall e <- entries :: e.sizeBytes == host.Measure(e.stored)
    ensures Cached(host, Pruned(host, entries, now)) && forall e <- Pruned(host, entries, now) :: e in entries
  {
    var kept := Pruned(host, entries, now);
    var d := PruneKeepsNewest(host, entries, now);
    forall e | e in kept ensures e in entries {
      PrunedIn(host, entries, now, e);
    }
    forall i | 0 <= i < |kept| ensures kept[i].sizeBytes == host.Measure(kept[i].stored) {
      assert kept[i] in kept;
    }
  }

  lemma MeasuredIn(host: Host, entries: seq<Entry>)
    requires Measured(host, entries)
    ensures forall e <- entries :: e.sizeBytes == host.Measure(e.stored)
  {
  }

  lemma FinishLoadValid(host: Host, s: State, id: nat, size: nat, read: Option<seq<Stored>>, readAt: int, now: int)
    requires Valid(host, s)
    ensures Valid(host, FinishLoad(host, s, id, size, read, readAt, now))
  {
    if Current(s, id) {
      var loaded := Loaded(host, size, read, readAt, id);
      if read.Some? {
        TakenBrought(host, read.value, readAt, id);
      }
      MeasuredIn(host, s.entries);
      PutAllKeyed(s.entries, loaded);
      PrunedCached(host, PutAll(s.entries, loaded), now);
    }
  }

  lemma FinishRefreshValid(host: Host, s: State, id: nat, stored: Stored, now: int)
    requires Valid(host, s)
    ensures Valid(host, FinishRefresh(host, s, id, stored, now))
  {
    if Current(s, id) {
      MeasuredIn(host, s.entries);
      PutKeyed(s.entries, Entry(stored, host.Measure(stored), Memory, id));
      PrunedCached(host, Refreshed(host, s.entries, stored, id), now);
    }
  }

  lemma PersistValid(host: Host, s: State, id: nat, now: int)
    requires Valid(host, s)
    ensures Valid(host, Persist(host, s, id, now))
  {
    if Current(s, id) {
      MeasuredIn(host, s.entries);
      PrunedCached(host, s.entries, now);
      var kept := Pruned(host, s.entries, now);
      FileFitsExactly(host, kept);
      FileSize(host, kept);
    }
  }

  // ---- runs

  datatype Event =
    | Selected(path: string)
    | WasReset
    | Closed
    | CloseEnded
    | LoadBegun(path: string)
    | LoadDone(id: nat, size: nat, read: Option<seq<Stored>>, readAt: int, now: int)
    | RefreshBegun(key: string, path: string)
    | RefreshDone(id: nat, stored: Stored, now: int)
    | RefreshForgotten(key: string, id: nat)
    | Persisting(id: nat, now: int)

  /** `readSnapshot` throws once the index is closed. */
  predicate Possible(s: State, e: Event) {
    e.LoadBegun? || e.RefreshBegun? ==> !s.closed
  }

  function Next(host: Host, s: State, e: Event): State {
    match e
    case Selected(path) => SelectPath(s, path)
    case WasReset => Reset(s)
    case Closed => Close(s)
    case CloseEnded => CloseEnds(s)
    case LoadBegun(path) => BeginLoad(s, path)
    case LoadDone(id, size, read, readAt, now) => FinishLoad(host, s, id, size, read, readAt, now)
    case RefreshBegun(key, path) => BeginRefresh(s, key, path)
    case RefreshDone(id, stored, now) => FinishRefresh(host, s, id, stored, now)
    case RefreshForgotten(key, id) => Forget(s, key, id)
    case Persisting(id, now) => Persist(host, s, id, now)
  }

  /** Whatever happens, the cache is within its limits, holds only what operations of the current generation brought,
      and every file written can be loaded. */
  lemma NextValid(host: Host, s: State, e: Event)
    requires Valid(host, s) && Possible(s, e)
    ensures Valid(host, Next(host, s, e))
  {
    match e
    case LoadDone(id, size, read, readAt, now) => FinishLoadValid(host, s, id, size, read, readAt, now);
    case RefreshDone(id, stored, now) => FinishRefreshValid(host, s, id, stored, now);
    case Persisting(id, now) => PersistValid(host, s, id, now);
    case Selected(path) =>
    case WasReset =>
    case Closed =>
    case CloseEnded =>
    case LoadBegun(path) =>
    case RefreshBegun(key, path) =>
    case RefreshForgotten(key, id) =>
  }

  function Initial(): State {
    State(None, 0, false, false, false, [], map[], [], [])
  }

  predicate Follows(host: Host, s: State, e: Event, t: State) {
    Possible(s, e) && t == Next(host, s, e)
  }

  /** The states of a run. */
  predicate Run(host: Host, states: seq<State>, events: seq<Event>) {
    |states| == |events| + 1 && states[0] == Initial() && forall k :: 0 <= k < |events| ==> Follows(host, states[k], events[k], states[k + 1])
  }

  lemma {:induction false} RunValid(host: Host, states: seq<State>, events: seq<Event>, k: nat)
    requires Run(host, states, events) && k < |states|
    ensures Valid(host, states[k])
  {
    if k > 0 {
      RunValid(host, states, events, k - 1);
      assert Follows(host, states[k - 1], events[k - 1], states[k - 1 + 1]);
      NextValid(host, states[k - 1], events[k - 1]);
    }
  }

  /** What enters the map is brought by an operation that began in this generation, for this file; a refresh that
      began in an older one changes nothing, and after `close` nothing enters. */
  lemma OnlyCurrentEnters(host: Host, s: State, e: Event, entry: Entry)
    requires Valid(host, s) && Possible(s, e) && entry in Next(host, s, e).entries && entry !in s.entries
    ensures (e.LoadDone? || e.RefreshDone?) && entry.operation == e.id && Current(s, e.id) && !s.closed
  {
    match e
    case LoadDone(id, size, read, readAt, now) =>
      var loaded := Loaded(host, size, read, readAt, id);
      if read.Some? {
        TakenBrought(host, read.value, readAt, id);
      }
      PutAllKeyed(s.entries, loaded);
      PrunedIn(host, PutAll(s.entries, loaded), now, entry);
    case RefreshDone(id, stored, now) =>
      PutKeyed(s.entries, Entry(stored, host.Measure(stored), Memory, id));
      PrunedIn(host, Refreshed(host, s.entries, stored, id), now, entry);
    case Persisting(id, now) =>
      if Current(s, id) {
        PrunedIn(host, s.entries, now, entry);
      }
    case Selected(path) =>
    case WasReset =>
    case Closed =>
    case CloseEnded =>
    case LoadBegun(path) =>
    case RefreshBegun(key, path) =>
    case RefreshForgotten(key, id) =>
  }

  /** Begun in an earlier generation. */
  predicate Stale(s: State, id: nat) {
    id < |s.operations| && s.operations[id].generation < s.generation
  }

  lemma NextKeepsStale(host: Host, s: State, e: Event, id: nat)
    requires Stale(s, id)
    ensures Stale(Next(host, s, e), id)
  {
  }

  /** What was begun before another path was selected, a reset or a close is over for good: its guard fails in
      every later state. */
  lemma {:induction false} StaleForever(host: Host, states: seq<State>, events: seq<Event>, j: nat, k: nat, id: nat)
    requires Run(host, states, events) && j <= k < |states| && Stale(states[j], id)
    ensures Stale(states[k], id) && !Current(states[k], id)
    decreases k
  {
    if j < k {
      StaleForever(host, states, events, j, k - 1, id);
      assert Follows(host, states[k - 1], events[k - 1], states[k - 1 + 1]);
      NextKeepsStale(host, states[k - 1], events[k - 1], id);
    }
  }

  // ---- what is loaded, refreshed and written

  /** For another path the index starts anew; it is open or closed as before. */
  lemma AnotherPath(s: State, path: string)
    requires s.path != Some(path)
    ensures var n := SelectPath(s, path);
            && n.path == Some(path) && n.generation > s.generation && n.entries == [] && n.refreshing == map[]
            && !n.loaded && !n.loading && n.closed == s.closed && n.operations == s.operations && n.written == s.written
  {
  }

  /** A reset starts anew as well, and opens a closed index. */
  lemma ResetOpens(s: State, path: string)
    ensures var n := Reset(s);
            && !n.closed && n.generation > s.generation && n.entries == [] && n.refreshing == map[]
            && BeginLoad(n, path).operations == s.operations + [Operation(BeginLoad(n, path).generation, path)]
  {
  }

  /** A file is loaded once: a load begins exactly when the path is another, or it is neither loaded nor being loaded. */
  lemma LoadsOnce(s: State, path: string)
    ensures var n := BeginLoad(s, path);
            && n.path == Some(path) && BeginLoad(n, path) == n
            && if s.path == Some(path) && (s.loaded || s.loading) then n == s
               else n.loading && n.operations == s.operations + [Operation(n.generation, path)] && Current(n, |s.operations|)
  {
  }

  /** A load that is done in time is not begun again. */
  lemma LoadedStays(host: Host, s: State, id: nat, size: nat, read: Option<seq<Stored>>, readAt: int, now: int)
    requires Current(s, id)
    ensures var n := FinishLoad(host, s, id, size, read, readAt, now);
            n.loaded && BeginLoad(n, s.operations[id].path) == n
  {
  }

  lemma {:induction false} PutHas(entries: seq<Entry>, e: Entry)
    ensures e in Put(entries, e) && forall x <- entries :: x.stored.cacheKey != e.stored.cacheKey ==> x in Put(entries, e)
  {
    if entries != [] && entries[0].stored.cacheKey != e.stored.cacheKey {
      PutHas(entries[1..], e);
      assert entries == [entries[0]] + entries[1..];
    }
  }

  lemma {:induction false} PutAllHas(entries: seq<Entry>, more: seq<Entry>, e: Entry)
    requires e in entries && forall x <- more :: x.stored.cacheKey != e.stored.cacheKey
    ensures e in PutAll(entries, more)
    decreases |more|
  {
    if more != [] {
      assert more[0] in more && forall x <- more[1..] :: x in more;
      PutHas(entries, more[0]);
      PutAllHas(Put(entries, more[0]), more[1..], e);
    }
  }

  lemma KeptWhenFits(host: Host, entries: seq<Entry>, now: int, e: Entry)
    requires e in entries && !host.Expired(e.stored.cachedAt, now) && Fits(host.Unexpired(entries, now), host.byteLimit)
    ensures e in Pruned(host, entries, now)
  {
    PruneKeepsAll(host, entries, now);
    UnexpiredExactly(host, entries, now, e);
  }

  /** A snapshot that was refreshed in time is in the map, unless it is too large, has expired, or is pruned. */
  lemma RefreshEnters(host: Host, s: State, id: nat, stored: Stored, now: int)
    requires Current(s, id) && host.Measure(stored) <= host.byteLimit && !host.Expired(stored.cachedAt, now)
    requires Fits(host.Unexpired(Refreshed(host, s.entries, stored, id), now), host.byteLimit)
    ensures Entry(stored, host.Measure(stored), Memory, id) in FinishRefresh(host, s, id, stored, now).entries
  {
    var e := Entry(stored, host.Measure(stored), Memory, id);
    PutHas(s.entries, e);
    KeptWhenFits(host, Refreshed(host, s.entries, stored, id), now, e);
  }

  /** One that is too large does not take the place of what is there. */
  lemma TooLargeStays(host: Host, s: State, id: nat, stored: Stored, now: int)
    requires Current(s, id) && host.Measure(stored) > host.byteLimit
    ensures FinishRefresh(host, s, id, stored, now).entries == Pruned(host, s.entries, now)
  {
  }

  lemma {:induction false} TakenKeys(host: Host, stored: seq<Stored>, now: int, operation: nat, key: string)
    requires forall x <- stored :: x.cacheKey != key
    ensures forall e <- Taken(host, stored, now, operation) :: e.stored.cacheKey != key
  {
    if stored != [] {
      assert stored[0] in stored && forall x <- stored[1..] :: x in stored;
      TakenKeys(host, stored[1..], now, operation, key);
    }
  }

  lemma TakenPutHead(host: Host, stored: seq<Stored>, now: int, operation: nat, entries: seq<Entry>)
    requires stored != [] && !host.Expired(stored[0].cachedAt, now) && host.Measure(stored[0]) <= host.byteLimit
    requires forall j :: 0 < j < |stored| ==> stored[j].cacheKey != stored[0].cacheKey
    ensures Entry(stored[0], host.Measure(stored[0]), Disk, operation) in PutAll(entries, Taken(host, stored, now, operation))
  {
    var e, rest := Entry(stored[0], host.Measure(stored[0]), Disk, operation), Taken(host, stored[1..], now, operation);
    assert Taken(host, stored, now, operation) == [e] + rest && ([e] + rest)[1..] == rest;
    assert forall x <- stored[1..] :: x.cacheKey != stored[0].cacheKey;
    TakenKeys(host, stored[1..], now, operation, stored[0].cacheKey);
    PutHas(entries, e);
    PutAllHas(Put(entries, e), rest, e);
  }

  lemma {:induction false} TakenPut(host: Host, stored: seq<Stored>, now: int, operation: nat, i: nat, entries: seq<Entry>)
    requires i < |stored| && !host.Expired(stored[i].cachedAt, now) && host.Measure(stored[i]) <= host.byteLimit
    requires forall j :: i < j < |stored| ==> stored[j].cacheKey != stored[i].cacheKey
    ensures Entry(stored[i], host.Measure(stored[i]), Disk, operation) in PutAll(entries, Taken(host, stored, now, operation))
    decreases |stored|
  {
    if i == 0 {
      TakenPutHead(host, stored, now, operation, entries);
    } else {
      var rest := Taken(host, stored[1..], now, operation);
      if host.Expired(stored[0].cachedAt, now) || host.Measure(stored[0]) > host.byteLimit {
        assert Taken(host, stored, now, operation) == [] + rest == rest;
        TakenPut(host, stored[1..], now, operation, i - 1, entries);
      } else {
        var head := Entry(stored[0], host.Measure(stored[0]), Disk, operation);
        assert Taken(host, stored, now, operation) == [head] + rest && ([head] + rest)[1..] == rest;
        TakenPut(host, stored[1..], now, operation, i - 1, Put(entries, head));
      }
    }
  }

  /** A file within the limit that is loaded in time brings the last snapshot of every key, unless it is too large, has
      expired, or is pruned; one above the limit, or unreadable, brings none. */
  lemma LoadEnters(host: Host, s: State, id: nat, size: nat, read: seq<Stored>, readAt: int, now: int, i: nat)
    requires Current(s, id) && size <= host.byteLimit && i < |read|
    requires forall j :: i < j < |read| ==> read[j].cacheKey != read[i].cacheKey
    requires !host.Expired(read[i].cachedAt, readAt) && !host.Expired(read[i].cachedAt, now) && host.Measure(read[i]) <= host.byteLimit
    requires Fits(host.Unexpired(PutAll(s.entries, Taken(host, read, readAt, id)), now), host.byteLimit)
    ensures Entry(read[i], host.Measure(read[i]), Disk, id) in FinishLoad(host, s, id, size, Some(read), readAt, now).entries
  {
    TakenPut(host, read, readAt, id, i, s.entries);
    KeptWhenFits(host, PutAll(s.entries, Taken(host, read, readAt, id)), now, Entry(read[i], host.Measure(read[i]), Disk, id));
  }

  lemma LoadRefused(host: Host, s: State, id: nat, size: nat, read: Option<seq<Stored>>, readAt: int, now: int)
    requires Current(s, id) && (size > host.byteLimit || read.None?)
    ensures FinishLoad(host, s, id, size, read, readAt, now) == s.(entries := Pruned(host, s.entries, now), loaded := true)
  {
  }

  /** A save in time writes what is cached; one that is over writes nothing. */
  lemma PersistWrites(host: Host, s: State, id: nat, now: int)
    ensures var n := Persist(host, s, id, now);
            n.written == s.written + if Current(s, id) then [Contents(n.entries)] else []
  {
  }

  /** A refresh under way is joined, and when it is over the next begins anew. */
  lemma RefreshOnce(s: State, key: string, path: string)
    ensures var n := BeginRefresh(s, key, path);
            && key in n.refreshing && BeginRefresh(n, key, path) == n
            && (key !in s.refreshing ==> n.operations == s.operations + [Operation(s.generation, path)])
            && key !in Forget(n, key, n.refreshing[key]).refreshing
  {
  }

  // ---- the index

  lemma {:induction false} WithoutBehind(before: seq<Entry>, e: Entry, rest: seq<Entry>)
    requires forall i :: 0 <= i < |before| ==> before[i].stored.cacheKey != e.stored.cacheKey
    ensures Without(before + ([e] + rest), e.stored.cacheKey) == before + rest
  {
    var all := before + ([e] + rest);
    if before != [] {
      WithoutBehind(before[1..], e, rest);
      assert all[1..] == before[1..] + ([e] + rest);
      assert before + rest == [before[0]] + (before[1..] + rest);
    } else {
      assert all == [e] + rest && [] + rest == rest;
    }
  }

  /** The first loop of `pruneSnapshots`: every expired snapshot is deleted. */
  function Swept(host: Host, entries: seq<Entry>, visit: seq<Entry>, now: int): seq<Entry>
    decreases |visit|
  {
    if visit == [] then entries
    else if host.Expired(visit[0].stored.cachedAt, now) then Swept(host, Without(entries, visit[0].stored.cacheKey), visit[1..], now)
    else Swept(host, entries, visit[1..], now)
  }

  lemma KeyedBehind(before: seq<Entry>, e: Entry, rest: seq<Entry>)
    requires Keyed(before + ([e] + rest))
    ensures forall i :: 0 <= i < |before| ==> before[i].stored.cacheKey != e.stored.cacheKey
    ensures Keyed(before + rest)
  {
    var all, n := before + ([e] + rest), |before|;
    assert all[n] == e;
    forall i | 0 <= i < n ensures before[i].stored.cacheKey != e.stored.cacheKey {
      assert all[i] == before[i];
    }
    var step := (k: int) => if k < n then k else k + 1;
    assert forall k :: 0 <= k < |before + rest| ==> (before + rest)[k] == all[step(k)];
    forall i, j | 0 <= i < j < |before + rest| ensures (before + rest)[i].stored.cacheKey != (before + rest)[j].stored.cacheKey {
      assert all[step(i)].stored.cacheKey != all[step(j)].stored.cacheKey;
    }
  }

  lemma {:induction false} SweptIsUnexpired(host: Host, before: seq<Entry>, rest: seq<Entry>, now: int)
    requires Keyed(before + rest)
    ensures Swept(host, before + rest, rest, now) == before + host.Unexpired(rest, now)
    decreases |rest|
  {
    if rest == [] {
    } else {
      var e, tail := rest[0], rest[1..];
      assert rest == [e] + tail;
      KeyedBehind(before, e, tail);
      UnexpiredHead(host, rest, now);
      if host.Expired(e.stored.cachedAt, now) {
        WithoutBehind(before, e, tail);
        SweptIsUnexpired(host, before, tail, now);
      } else {
        Sequences.Associative(before, [e], tail);
        Sequences.Associative(before, [e], host.Unexpired(tail, now));
        SweptIsUnexpired(host, before + [e], tail, now);
      }
    }
  }

  class SourceAgentSessionIndex {
    const host: Host
    var activeFilePath: Option<string>
    var generation: nat
    var closed: bool
    var loaded: bool
    var loading: bool
    var snapshots: seq<Entry>
    var refreshPromises: map<string, nat>
    /** every operation begun, and every file content written */
    var operations: seq<Operation>
    var written: seq<seq<Stored>>

    function View(): State
      reads this
    {
      State(activeFilePath, generation, closed, loaded, loading, snapshots, refreshPromises, operations, written)
    }

    constructor (host: Host)
      ensures this.host == host && View() == Initial()
    {
      this.host, activeFilePath, generation, closed, loaded, loading := host, None, 0, false, false, false;
      snapshots, refreshPromises, operations, written := [], map[], [], [];
    }

    method DropExpired(now: int)
      requires Keyed(snapshots)
      modifies this`snapshots
      ensures snapshots == host.Unexpired(old(snapshots), now)
    {
      var all := snapshots;
      assert [] + all == all;
      SweptIsUnexpired(host, [], all, now);
      for i := 0 to |all|
        invariant Swept(host, snapshots, all[i..], now) == host.Unexpired(all, now)
      {
        assert all[i..][1..] == all[i + 1..];
        if host.Expired(all[i].stored.cachedAt, now) {
          snapshots := Without(snapshots, all[i].stored.cacheKey);
        }
      }
    }

    /** `pruneSnapshots`. */
    method Prune(now: int)
      requires Keyed(snapshots)
      modifies this`snapshots
      ensures snapshots == Pruned(host, old(snapshots), now)
    {
      DropExpired(now);
      var oldest := host.Oldest(snapshots);
      var totalBytes: int := Total(snapshots);
      ghost var pruned := Pruned(host, old(snapshots), now);
      for i := 0 to |oldest|
        invariant DropOldest(snapshots, oldest[i..], totalBytes, host.byteLimit) == pruned
      {
        assert oldest[i..][1..] == oldest[i + 1..];
        if |snapshots| <= SNAPSHOT_LIMIT && totalBytes + Envelope(|snapshots|) <= host.byteLimit {
          break;
        }
        snapshots := Without(snapshots, oldest[i].stored.cacheKey);
        totalBytes := totalBytes - oldest[i].sizeBytes;
      }
    }

    /** What `n` operations began is over: none of them may put, prune or write any more. */
    ghost predicate Over(n: nat)
      reads this
    {
      n <= |operations| && forall id :: 0 <= id < n ==> Stale(View(), id) && !Current(View(), id)
    }

    /** Another path: nothing is cached, and whatever was begun for the old one is over. */
    method SelectFilePath(path: string)
      modifies this
      ensures View() == SelectPath(old(View()), path)
      ensures old(Valid(host, View())) ==> Valid(host, View())
      ensures old(Valid(host, View())) && old(activeFilePath) != Some(path) ==> snapshots == [] && Over(|old(operations)|)
      ensures old(activeFilePath) == Some(path) ==> View() == old(View())
    {
      if activeFilePath == Some(path) {
        return;
      }
      generation := generation + 1;
      snapshots, refreshPromises, activeFilePath, loaded, loading := [], map[], Some(path), false, false;
    }

    /** Nothing is cached, whatever was begun is over, and a closed index opens again. */
    method ResetAll()
      modifies this
      ensures View() == Reset(old(View()))
      ensures old(Valid(host, View())) ==> Valid(host, View()) && snapshots == [] && Over(|old(operations)|)
    {
      generation := generation + 1;
      snapshots, refreshPromises, activeFilePath, loaded, closed, loading := [], map[], None, false, false, false;
    }

    /** `close`, up to its first `await`: whatever was begun is over, and nothing begins. */
    method Shut()
      modifies this
      ensures View() == Close(old(View()))
      ensures old(Valid(host, View())) ==> Valid(host, View()) && Over(|operations|)
      ensures forall e: Event :: e.LoadBegun? || e.RefreshBegun? ==> !Possible(View(), e)
    {
      if !closed {
        closed, generation := true, generation + 1;
      }
    }

    /** `ensureLoaded`; `id` is the load that was begun, if one was. */
    method EnsureLoaded(path: string) returns (id: Option<nat>)
      modifies this
      ensures View() == BeginLoad(old(View()), path)
      ensures old(Valid(host, View())) && !old(closed) ==> Valid(host, View())
      ensures id.Some? ==> Current(View(), id.value)
      ensures id.Some? ==> id.value == |old(operations)| < |operations|
    {
      SelectFilePath(path);
      if loaded || loading {
        return None;
      }
      id := Some(|operations|);
      operations := operations + [Operation(generation, path)];
      loading := true;
    }

    method Put(e: Entry)
      modifies this`snapshots
      ensures snapshots == SnapshotIndex.Put(old(snapshots), e)
    {
      snapshots := SnapshotIndex.Put(snapshots, e);
    }

    /** The `finally` of `loadFromDisk`. */
    method LoadDone(id: nat, size: nat, read: Option<seq<Stored>>, readAt: int, now: int)
      requires Keyed(snapshots)
      modifies this
      ensures View() == FinishLoad(host, old(View()), id, size, read, readAt, now)
      ensures old(Valid(host, View())) ==> Valid(host, View())
    {
      if Valid(host, View()) {
        FinishLoadValid(host, View(), id, size, read, readAt, now);
      }
      if !Current(View(), id) {
        return;
      }
      var more := Loaded(host, size, read, readAt, id);
      PutAllKeyed(snapshots, more);
      for i := 0 to |more|
        invariant PutAll(snapshots, more[i..]) == PutAll(old(snapshots), more)
        invariant View() == old(View()).(entries := snapshots)
      {
        assert more[i..][1..] == more[i + 1..];
        Put(more[i]);
      }
      Prune(now);
      loaded := true;
    }

    /** `refreshSnapshot`. */
    method Refresh(key: string, path: string) returns (id: nat)
      modifies this
      ensures View() == BeginRefresh(old(View()), key, path)
      ensures old(Valid(host, View())) && !old(closed) ==> Valid(host, View())
      ensures key in refreshPromises && id == refreshPromises[key]
    {
      if key in refreshPromises {
        return refreshPromises[key];
      }
      id := |operations|;
      operations := operations + [Operation(generation, path)];
      refreshPromises := refreshPromises[key := id];
    }

    /** The continuation of a refresh. */
    method RefreshDone(id: nat, stored: Stored, now: int)
      requires Keyed(snapshots)
      modifies this
      ensures View() == FinishRefresh(host, old(View()), id, stored, now)
      ensures old(Valid(host, View())) ==> Valid(host, View())
    {
      if Valid(host, View()) {
        FinishRefreshValid(host, View(), id, stored, now);
      }
      if !Current(View(), id) {
        return;
      }
      PutKeyed(snapshots, Entry(stored, host.Measure(stored), Memory, id));
      if host.Measure(stored) <= host.byteLimit {
        Put(Entry(stored, host.Measure(stored), Memory, id));
      }
      Prune(now);
    }

    /** `persistNow`, up to the content that it then writes. */
    method PersistNow(id: nat, now: int)
      requires Keyed(snapshots)
      modifies this
      ensures View() == Persist(host, old(View()), id, now)
      ensures old(Valid(host, View())) ==> Valid(host, View())
    {
      if Valid(host, View()) {
        PersistValid(host, View(), id, now);
      }
      if !Current(View(), id) {
        return;
      }
      Prune(now);
      written := written + [Contents(snapshots)];
    }
  }
}
