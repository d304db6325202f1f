/** Finished turns become events (apps/daemon/src/realtime/agentSessionTurnEventProjector.ts) against the record
    of the turns already seen (apps/daemon/src/realtime/agentSessionTurnStateRepository.ts).
    `TurnDelivery` follows it over a run. */
module Projector {
  import opened Wrappers
  import opened TurnState
  import Order

  datatype Owner = External | Managed

  datatype Tracked = Tracked(observedAt: string, fingerprints: Option<seq<string>>, owner: Owner, state: TurnState)

  datatype ManagedSession = ManagedSession(id: string, status: string, adapterId: string, sourceSessionId: string)

  datatype Session = Session(id: string, agentId: string, sourceSessionId: string, transcript: seq<Entry>)

  /** `agent.session.turn.finished`, as far as it depends on the turn. */
  datatype Event = Event(sessionId: string, turn: TerminalTurn, managedSessionId: Option<string>)

  const MAX_FINGERPRINTS: nat := 64

  // ---- which turns are new

  function Fingerprints(turns: seq<TerminalTurn>): (ids: seq<string>)
    ensures |ids| == |turns| && forall i :: 0 <= i < |turns| ==> ids[i] == turns[i].fingerprint
  {
    if turns == [] then [] else [turns[0].fingerprint] + Fingerprints(turns[1..])
  }

  /** `slice(-count)`. */
  function Newest<T>(xs: seq<T>, count: nat): seq<T> {
    if |xs| <= count then xs else xs[|xs| - count..]
  }

  /** `retainTerminalFingerprints`. */
  function Retained(turns: seq<TerminalTurn>): seq<string> {
    Newest(Fingerprints(turns), MAX_FINGERPRINTS)
  }

  function Unseen(turns: seq<TerminalTurn>, observed: seq<string>): seq<TerminalTurn> {
    if turns == [] then []
    else (if turns[0].fingerprint in observed then [] else [turns[0]]) + Unseen(turns[1..], observed)
  }

  function After(turns: seq<TerminalTurn>, time: int, parse: string -> Option<int>): seq<TerminalTurn> {
    if turns == [] then []
    else
      var at := parse(turns[0].completedAt);
      (if at.Some? && at.value > time then [turns[0]] else []) + After(turns[1..], time, parse)
  }

  /** `findNewTerminalTurns`: nothing on the first observation; a record without fingerprints is compared by time. */
  function NewTurns(turns: seq<TerminalTurn>, previous: Option<Tracked>, parse: string -> Option<int>): seq<TerminalTurn> {
    if previous.None? then []
    else if previous.value.fingerprints.Some? then Unseen(turns, previous.value.fingerprints.value)
    else
      var time := parse(previous.value.observedAt);
      if time.None? then [] else After(turns, time.value, parse)
  }

  // ---- the gates

  predicate Linked(m: ManagedSession, session: Session) {
    m.adapterId == session.agentId && m.sourceSessionId == session.sourceSessionId
  }

  /** `shouldSuppressManagedAttachedTurn`. */
  predicate Suppresses(managed: seq<ManagedSession>, session: Session, before: Owner, owner: Owner) {
    (before == Managed || owner == Managed)
    && !exists i :: 0 <= i < |managed| && (managed[i].status == "running" || managed[i].status == "read_only") && Linked(managed[i], session)
  }

  /** `shouldPublishTurnFinishedEvent`. */
  predicate Publishes(managed: seq<ManagedSession>, session: Session, previous: Option<Tracked>, owner: Owner) {
    previous.Some? &&
    (previous.value.state.Active? || owner == External
     || exists i :: 0 <= i < |managed| && managed[i].status == "running" && Linked(managed[i], session))
  }

  function LinkedIds(managed: seq<ManagedSession>, session: Session): seq<string> {
    if managed == [] then [] else (if Linked(managed[0], session) then [managed[0].id] else []) + LinkedIds(managed[1..], session)
  }

  /** `findLinkedManagedSessionId`: the one linked session, if there is exactly one. */
  function LinkedId(managed: seq<ManagedSession>, session: Session): Option<string> {
    var ids := LinkedIds(managed, session);
    if |ids| == 1 then Some(ids[0]) else None
  }

  function Events(session: Session, managed: seq<ManagedSession>, turns: seq<TerminalTurn>): (events: seq<Event>)
    ensures |events| == |turns|
    ensures forall i :: 0 <= i < |turns| ==> events[i] == Event(session.id, turns[i], LinkedId(managed, session))
  {
    if turns == [] then [] else [Event(session.id, turns[0], LinkedId(managed, session))] + Events(session, managed, turns[1..])
  }

  /** Whether an update tells of the turns that it finds new. */
  predicate Tells(session: Session, previous: Option<Tracked>, owner: Owner, managed: seq<ManagedSession>) {
    previous.Some? && Publishes(managed, session, previous, owner) && !Suppresses(managed, session, previous.value.owner, owner)
  }

  /** What an update publishes. */
  function Published(session: Session, previous: Option<Tracked>, owner: Owner, managed: seq<ManagedSession>,
                     parse: string -> Option<int>): seq<Event> {
    if !Tells(session, previous, owner, managed) then []
    else Events(session, managed, NewTurns(TerminalTurns(session.transcript), previous, parse))
  }

  /** What an update records. */
  function Observed(session: Session, owner: Owner, clock: Clock, now: string): Tracked {
    Tracked(now, Some(Retained(TerminalTurns(session.transcript))), owner, Derived(session.transcript, clock))
  }

  // ---- the records

  /** An entry of the repository's map, in the map's order. */
  datatype Record = Record(id: string, tracked: Tracked)

  function Find(records: seq<Record>, id: string): Option<Tracked> {
    if records == [] then None else if records[0].id == id then Some(records[0].tracked) else Find(records[1..], id)
  }

  /** `Map.set`: in place, or at the end. */
  function Put(records: seq<Record>, id: string, tracked: Tracked): seq<Record> {
    if records == [] then [Record(id, tracked)]
    else if records[0].id == id then [Record(id, tracked)] + records[1..]
    else [records[0]] + Put(records[1..], id, tracked)
  }

  lemma {:induction false} PutFinds(records: seq<Record>, id: string, tracked: Tracked, other: string)
    ensures Find(Put(records, id, tracked), other) == if other == id then Some(tracked) else Find(records, other)
  {
    if records != [] && records[0].id != id {
      PutFinds(records[1..], id, tracked, other);
    }
  }

  /** What `set` compares to decide whether the file must be written: all but the time. */
  predicate SameContent(a: Tracked, b: Tracked) {
    (if a.fingerprints.Some? then a.fingerprints.value else []) == (if b.fingerprints.Some? then b.fingerprints.value else [])
    && a.owner == b.owner && a.state == b.state
  }

  const MAX_RECORDS: nat := 200
  const RECORD_TTL_MS := 24 * 60 * 60 * 1000

  predicate Expired(observedAt: string, clock: Clock) {
    var time := clock.parse(observedAt);
    time.None? || clock.now - time.value > RECORD_TTL_MS
  }

  function Unexpired(records: seq<Record>, clock: Clock): seq<Record> {
    if records == [] then []
    else (if Expired(records[0].tracked.observedAt, clock) then [] else [records[0]]) + Unexpired(records[1..], clock)
  }

  /** What is written: the newest 200 unexpired records.  `age` stands for the comparison of the times, the
      newest smallest. */
  function Persisted(records: seq<Record>, clock: Clock, age: string -> int): seq<Record> {
    var sorted := Order.Sort(Unexpired(records, clock), (r: Record) => age(r.tracked.observedAt));
    if |sorted| <= MAX_RECORDS then sorted else sorted[..MAX_RECORDS]
  }

  /** The ids that are not empty, each where it comes first. */
  function Distinct(ids: seq<string>, before: set<string>): seq<string> {
    if ids == [] then []
    else if ids[0] == "" || ids[0] in before then Distinct(ids[1..], before)
    else [ids[0]] + Distinct(ids[1..], before + {ids[0]})
  }

  /** `normalizeObservedTerminalFingerprints`. */
  function Normalized(ids: seq<string>): seq<string> {
    Newest(Distinct(ids, {}), MAX_FINGERPRINTS)
  }

  function Restored(tracked: Tracked): Tracked {
    tracked.(fingerprints := if tracked.fingerprints.Some? then Some(Normalized(tracked.fingerprints.value)) else None)
  }

  /** `loadIfNeeded`: records already in memory stay. */
  function Loaded(records: seq<Record>, stored: seq<Record>, clock: Clock): seq<Record>
    decreases |stored|
  {
    if stored == [] then records
    else if Expired(stored[0].tracked.observedAt, clock) || Find(records, stored[0].id).Some? then Loaded(records, stored[1..], clock)
    else Loaded(Put(records, stored[0].id, Restored(stored[0].tracked)), stored[1..], clock)
  }

  class TurnEventProjector {
    /** the repository: its records, whether they differ from the file, and the file */
    var records: seq<Record>
    var dirty: bool
    var stored: seq<Record>
    /** what was published, in order */
    var events: seq<Event>
    /** a write of the file has failed */
    ghost var faulted: bool

    /** A start of the daemon: nothing in memory, the file of the run before. */
    constructor (stored: seq<Record>)
      ensures records == [] && !dirty && this.stored == stored && events == [] && !faulted
    {
      records, dirty, this.stored, events, faulted := [], false, stored, [], false;
    }

    /** `loadIfNeeded`. */
    method Load(clock: Clock)
      modifies this`records
      ensures records == Loaded(old(records), stored, clock)
    {
      for i := 0 to |stored|
        invariant Loaded(records, stored[i..], clock) == Loaded(old(records), stored, clock)
      {
        assert stored[i..][1..] == stored[i + 1..];
        var found := Find(records, stored[i].id);
        if !Expired(stored[i].tracked.observedAt, clock) && found.None? {
          records := Put(records, stored[i].id, Restored(stored[i].tracked));
        }
      }
    }

    /** `set`. */
    method Set(id: string, tracked: Tracked) returns (previous: Option<Tracked>)
      modifies this`records, this`dirty
      ensures previous == Find(old(records), id) && records == Put(old(records), id, tracked)
      ensures dirty == (old(dirty) || previous.None? || !SameContent(previous.value, tracked))
    {
      previous := Find(records, id);
      records := Put(records, id, tracked);
      if previous.None? || !SameContent(previous.value, tracked) {
        dirty := true;
      }
    }

    /** `persist`: the file is replaced as a whole, or not at all. */
    method Persist(clock: Clock, age: string -> int) returns (written: bool)
      modifies this`stored, this`dirty, this`faulted
      ensures faulted == (old(faulted) || !written)
      ensures stored == if written then Persisted(records, clock, age) else old(stored)
      ensures dirty == (old(dirty) && !written)
    {
      var fault: bool := *;
      written, faulted := !fault, faulted || fault;
      if written {
        stored := Persisted(records, clock, age);
        dirty := false;
      }
    }

    method PublishAll(session: Session, managed: seq<ManagedSession>, turns: seq<TerminalTurn>)
      modifies this`events
      ensures events == old(events) + Events(session, managed, turns)
    {
      ghost var all := Events(session, managed, turns);
      for i := 0 to |turns|
        invariant |events| == |old(events)| + i
        invariant events == old(events) + all[..i]
      {
        events := events + [Event(session.id, turns[i], LinkedId(managed, session))];
        assert all[..i + 1] == all[..i] + [all[i]];
      }
    }

    /** The end of `update`: the events go out before the record that keeps them from going out again is written. */
    method Tell(session: Session, managed: seq<ManagedSession>, turns: seq<TerminalTurn>, clock: Clock, age: string -> int)
      requires turns != []
      modifies this`events, this`stored, this`dirty, this`faulted
      ensures events == old(events) + Events(session, managed, turns)
      ensures stored == Persisted(records, clock, age) || (faulted && stored == old(stored))
    {
      PublishAll(session, managed, turns);
      var written := Persist(clock, age);
    }

    /** `update`. */
    method Update(session: Session, owner: Owner, managed: seq<ManagedSession>, clock: Clock, now: string, age: string -> int)
      returns (published: nat)
      modifies this
      ensures records == Put(old(records), session.id, Observed(session, owner, clock, now))
      ensures events == old(events) + Published(session, Find(old(records), session.id), owner, managed, clock.parse)
      ensures published == |events| - |old(events)|
      // the file follows the events, unless it cannot be written
      ensures published == 0 ==> stored == old(stored)
      ensures published > 0 ==> stored == Persisted(records, clock, age) || (faulted && stored == old(stored))
    {
      var next := DeriveTurnState(session.transcript, clock);
      var turns := FindTerminalTurns(session.transcript);
      var previous := Set(session.id, Tracked(now, Some(Retained(turns)), owner, next));
      var newTurns := NewTurns(turns, previous, clock.parse);
      if newTurns == [] || !Tells(session, previous, owner, managed) {
        assert events + [] == events;
        return 0;
      }
      Tell(session, managed, newTurns, clock, age);
      published := |newTurns|;
    }
  }

  /** Both owners external and a record: nothing holds an event back. */
  lemma ExternalPublishes(session: Session, previous: Tracked, managed: seq<ManagedSession>, parse: string -> Option<int>)
    requires previous.owner == External
    ensures Published(session, Some(previous), External, managed, parse)
            == Events(session, managed, NewTurns(TerminalTurns(session.transcript), Some(previous), parse))
  {
  }

  // ---- what is told of sessions that are attached

  /** A managed session with this status is linked to the session. */
  ghost predicate IsLinked(managed: seq<ManagedSession>, session: Session, status: string) {
    exists i :: 0 <= i < |managed| && managed[i].status == status && Linked(managed[i], session)
  }

  /** Who is told of a finished turn, once a record exists: everyone while a linked session runs, and of a turn that
      was external before and after; of any other only the reader of a linked session that is read only, if the turn
      was active or the session is external now. */
  lemma TellsExactly(session: Session, previous: Option<Tracked>, owner: Owner, managed: seq<ManagedSession>)
    ensures Tells(session, previous, owner, managed) <==>
            && previous.Some?
            && (IsLinked(managed, session, "running")
                || (previous.value.owner == External && owner == External)
                || (IsLinked(managed, session, "read_only") && (previous.value.state.Active? || owner == External)))
  {
  }

  /** The only linked session. */
  predicate OnlyLinked(managed: seq<ManagedSession>, session: Session, i: nat) {
    i < |managed| && Linked(managed[i], session) && forall j :: 0 <= j < |managed| && j != i ==> !Linked(managed[j], session)
  }

  lemma {:induction false} NoneLinked(managed: seq<ManagedSession>, session: Session)
    ensures LinkedIds(managed, session) == [] <==> forall j :: 0 <= j < |managed| ==> !Linked(managed[j], session)
  {
    if managed != [] {
      NoneLinked(managed[1..], session);
      assert forall j :: 0 < j < |managed| ==> managed[j] == managed[1..][j - 1];
    }
  }

  lemma {:induction false} OneLinked(managed: seq<ManagedSession>, session: Session) returns (i: nat)
    requires |LinkedIds(managed, session)| == 1
    ensures OnlyLinked(managed, session, i) && LinkedIds(managed, session) == [managed[i].id]
  {
    assert forall j :: 0 < j < |managed| ==> managed[j] == managed[1..][j - 1];
    if Linked(managed[0], session) {
      NoneLinked(managed[1..], session);
      i := 0;
    } else {
      i := OneLinked(managed[1..], session);
      i := i + 1;
    }
  }

  lemma {:induction false} OnlyLinkedIds(managed: seq<ManagedSession>, session: Session, i: nat)
    requires OnlyLinked(managed, session, i)
    ensures LinkedIds(managed, session) == [managed[i].id]
  {
    assert forall j :: 0 < j < |managed| ==> managed[j] == managed[1..][j - 1];
    if i == 0 {
      NoneLinked(managed[1..], session);
    } else {
      OnlyLinkedIds(managed[1..], session, i - 1);
    }
  }

  /** An event names a managed session exactly when it is the only linked one. */
  lemma LinkedExactly(managed: seq<ManagedSession>, session: Session)
    ensures LinkedId(managed, session).Some? <==> exists i: nat :: OnlyLinked(managed, session, i)
    ensures forall i: nat :: OnlyLinked(managed, session, i) ==> LinkedId(managed, session) == Some(managed[i].id)
  {
    forall i: nat | OnlyLinked(managed, session, i) ensures LinkedIds(managed, session) == [managed[i].id] {
      OnlyLinkedIds(managed, session, i);
    }
    if LinkedId(managed, session).Some? {
      var i := OneLinked(managed, session);
    }
  }

  /** Against a record without fingerprints, the turns completed behind its time are new. */
  lemma {:induction false} AfterExactly(turns: seq<TerminalTurn>, time: int, parse: string -> Option<int>, turn: TerminalTurn)
    ensures turn in After(turns, time, parse) <==> turn in turns && parse(turn.completedAt).Some? && parse(turn.completedAt).value > time
  {
    if turns != [] {
      AfterExactly(turns[1..], time, parse, turn);
      assert turn in turns <==> turn == turns[0] || turn in turns[1..];
    }
  }

  // ---- records over a restart

  /** What a map guarantees: one record an id. */
  ghost predicate Keyed(records: seq<Record>) {
    forall r, s :: r in records && s in records && r.id == s.id ==> r == s
  }

  lemma {:induction false} FindsExactly(records: seq<Record>, id: string, tracked: Tracked)
    requires Keyed(records)
    ensures Find(records, id) == Some(tracked) <==> Record(id, tracked) in records
  {
    if records != [] {
      assert records == [records[0]] + records[1..];
      FindsExactly(records[1..], id, tracked);
    }
  }

  lemma {:induction false} UnexpiredExactly(records: seq<Record>, clock: Clock, r: Record)
    ensures r in Unexpired(records, clock) <==> r in records && !Expired(r.tracked.observedAt, clock)
  {
    if records != [] {
      assert records == [records[0]] + records[1..];
      UnexpiredExactly(records[1..], clock, r);
    }
  }

  function Sorted(records: seq<Record>, clock: Clock, age: string -> int): seq<Record> {
    Order.Sort(Unexpired(records, clock), (r: Record) => age(r.tracked.observedAt))
  }

  lemma SortedExactly(records: seq<Record>, clock: Clock, age: string -> int, r: Record)
    ensures r in Sorted(records, clock, age) <==> r in records && !Expired(r.tracked.observedAt, clock)
  {
    UnexpiredExactly(records, clock, r);
    Order.SortKeeps(Unexpired(records, clock), (r: Record) => age(r.tracked.observedAt));
    assert r in multiset(Sorted(records, clock, age)) <==> r in multiset(Unexpired(records, clock));
  }

  /** Only unexpired records are written; one that is left out is the oldest among more than 200. */
  lemma PersistedKeepsNewest(records: seq<Record>, clock: Clock, age: string -> int, r: Record)
    ensures var kept := Persisted(records, clock, age);
            && (r in kept ==> r in records && !Expired(r.tracked.observedAt, clock))
            && (r in records && !Expired(r.tracked.observedAt, clock) && r !in kept ==>
                  |kept| == MAX_RECORDS && forall s <- kept :: age(s.tracked.observedAt) <= age(r.tracked.observedAt))
  {
    SortedExactly(records, clock, age, r);
    Order.SortKeeps(Unexpired(records, clock), (r: Record) => age(r.tracked.observedAt));
  }

  lemma PersistedKeyed(records: seq<Record>, clock: Clock, age: string -> int)
    requires Keyed(records)
    ensures Keyed(Persisted(records, clock, age))
  {
    forall r | r in Persisted(records, clock, age) ensures r in records {
      PersistedKeepsNewest(records, clock, age, r);
    }
  }

  lemma UnexpiredHead(records: seq<Record>, clock: Clock)
    requires records != []
    ensures Expired(records[0].tracked.observedAt, clock) ==> Unexpired(records, clock) == Unexpired(records[1..], clock)
    ensures !Expired(records[0].tracked.observedAt, clock) ==> Unexpired(records, clock) == [records[0]] + Unexpired(records[1..], clock)
  {
  }

  /** Loading never replaces what is in memory. */
  lemma {:induction false} LoadedFinds(records: seq<Record>, stored: seq<Record>, clock: Clock, id: string)
    ensures Find(Loaded(records, stored, clock), id)
            == if Find(records, id).Some? then Find(records, id)
               else match Find(Unexpired(stored, clock), id)
                    case Some(tracked) => Some(Restored(tracked))
                    case None => None
    decreases |stored|
  {
    if stored != [] {
      var head := stored[0];
      UnexpiredHead(stored, clock);
      if Expired(head.tracked.observedAt, clock) {
        LoadedFinds(records, stored[1..], clock, id);
      } else if Find(records, head.id).Some? {
        LoadedFinds(records, stored[1..], clock, id);
      } else {
        LoadedFinds(Put(records, head.id, Restored(head.tracked)), stored[1..], clock, id);
        PutFinds(records, head.id, Restored(head.tracked), id);
      }
    }
  }

  lemma {:induction false} DistinctKeeps(ids: seq<string>, before: set<string>)
    requires forall i :: 0 <= i < |ids| ==> ids[i] != "" && ids[i] !in before
    requires forall i, j :: 0 <= i < j < |ids| ==> ids[i] != ids[j]
    ensures Distinct(ids, before) == ids
  {
    if ids != [] {
      forall i | 0 <= i < |ids[1..]| ensures ids[1..][i] != "" && ids[1..][i] !in before + {ids[0]} {
        assert ids[1..][i] == ids[i + 1];
      }
      DistinctKeeps(ids[1..], before + {ids[0]});
      assert ids == [ids[0]] + ids[1..];
    }
  }

  /** Up to 64 distinct ids are read back as they were written. */
  lemma NormalizedKeeps(ids: seq<string>)
    requires |ids| <= MAX_FINGERPRINTS && forall i :: 0 <= i < |ids| ==> ids[i] != ""
    requires forall i, j :: 0 <= i < j < |ids| ==> ids[i] != ids[j]
    ensures Normalized(ids) == ids
  {
    DistinctKeeps(ids, {});
  }

  lemma {:induction false} DistinctHolds(ids: seq<string>, before: set<string>)
    ensures |Distinct(ids, before)| <= |ids|
    ensures forall id :: id in Distinct(ids, before) <==> id in ids && id != "" && id !in before
  {
    if ids != [] {
      DistinctHolds(ids[1..], before);
      DistinctHolds(ids[1..], before + {ids[0]});
      assert forall id :: id in ids <==> id == ids[0] || id in ids[1..];
    }
  }

  /** Of up to 64 fingerprints, those that are not empty are read back. */
  lemma NormalizedHolds(ids: seq<string>)
    requires |ids| <= MAX_FINGERPRINTS
    ensures forall id :: id in Normalized(ids) <==> id in ids && id != ""
  {
    DistinctHolds(ids, {});
  }

  /** A record that was written and has not expired when the daemon starts again is there again. */
  lemma RestartFinds(records: seq<Record>, id: string, tracked: Tracked, written: Clock, age: string -> int, read: Clock)
    requires Keyed(records) && Record(id, tracked) in Persisted(records, written, age)
    requires !Expired(tracked.observedAt, read)
    ensures Find(Loaded([], Persisted(records, written, age), read), id) == Some(Restored(tracked))
  {
    var stored := Persisted(records, written, age);
    PersistedKeyed(records, written, age);
    forall r | r in Unexpired(stored, read) ensures r in stored {
      UnexpiredExactly(stored, read, r);
    }
    UnexpiredExactly(stored, read, Record(id, tracked));
    FindsExactly(Unexpired(stored, read), id, tracked);
    LoadedFinds([], stored, read, id);
  }
}
