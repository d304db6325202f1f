/** What a client that reconnects is sent (apps/daemon/src/realtime/serverEventReplay.ts).

    Cursors are the numbers that the source prints as strings. */
module Replay {
  import opened Wrappers

  const REPLAY_LIMIT: nat := 512
  const BYTE_LIMIT: nat := 1024 * 1024
  const EVENT_BYTE_LIMIT: nat := 128 * 1024

  /** `content` stands for the event's fields. */
  datatype Event = Event(kind: string, content: nat)
  datatype Sent = Sent(event: Event, cursor: nat)
  datatype Buffered = Buffered(bytes: nat, sent: Sent)

  predicate ShouldBuffer(sent: Sent) {
    sent.event.kind != "session.log"
  }

  /** The buffer's fields, the events since it was cleared, the cursor up to which it evicted, and the last cursor
      that it lost: of an event that was evicted or too large to hold.  `measure` is the size of an event as JSON. */
  datatype State = State(
    measure: Sent -> nat, events: seq<Buffered>, bytes: nat, latestCursor: nat, history: seq<Sent>, evicted: nat, lost: nat)

  // ---- what the buffer does

  /** The loop that evicts. */
  function Evict(s: State): State
    decreases |s.events|
  {
    if |s.events| > REPLAY_LIMIT || s.bytes > BYTE_LIMIT then
      if s.events == [] then s
      else
        var head := s.events[0];
        Evict(s.(events := s.events[1..], bytes := if s.bytes >= head.bytes then s.bytes - head.bytes else 0,
                 evicted := head.sent.cursor, lost := Later(s.lost, head.sent.cursor)))
    else s
  }

  function Later(a: nat, b: nat): nat {
    if a < b then b else a
  }

  function Append(s: State, event: Event): State {
    var sent := Sent(event, s.latestCursor + 1);
    var next := s.(latestCursor := sent.cursor, history := s.history + [sent]);
    if !ShouldBuffer(sent) then next
    else if s.measure(sent) <= EVENT_BYTE_LIMIT then
      next.(events := s.events + [Buffered(s.measure(sent), sent)], bytes := s.bytes + s.measure(sent))
    else next.(lost := sent.cursor)
  }

  function Assign(s: State, event: Event): State {
    if ShouldBuffer(Sent(event, s.latestCursor + 1)) then Evict(Append(s, event)) else Append(s, event)
  }

  function Cleared(s: State): State {
    State(s.measure, [], 0, 0, [], 0, 0)
  }

  function Sents(buffered: seq<Buffered>): (events: seq<Sent>)
    ensures |events| == |buffered| && forall i :: 0 <= i < |buffered| ==> events[i] == buffered[i].sent
  {
    if buffered == [] then [] else [buffered[0].sent] + Sents(buffered[1..])
  }

  function After(events: seq<Sent>, cursor: nat): seq<Sent> {
    if events == [] then []
    else After(events[..|events| - 1], cursor) + if events[|events| - 1].cursor > cursor then [events[|events| - 1]] else []
  }

  /** `readAfter`; `None` is a cursor that is no safe integer. */
  function ReadAfter(s: State, cursor: Option<int>): seq<Sent> {
    if cursor.None? || cursor.value < 0 then [] else After(Sents(s.events), cursor.value)
  }

  // ---- what it holds

  /** The events of a history that a client which saw those up to `cursor` has yet to see. */
  function Missed(history: seq<Sent>, cursor: nat): seq<Sent> {
    if history == [] then []
    else
      var last := history[|history| - 1];
      Missed(history[..|history| - 1], cursor) + if ShouldBuffer(last) && last.cursor > cursor then [last] else []
  }

  /** Those of them that are small enough to hold. */
  function Held(measure: Sent -> nat, history: seq<Sent>, cursor: nat): seq<Sent> {
    if history == [] then []
    else
      var last := history[|history| - 1];
      Held(measure, history[..|history| - 1], cursor)
      + if ShouldBuffer(last) && measure(last) <= EVENT_BYTE_LIMIT && last.cursor > cursor then [last] else []
  }

  function Sum(events: seq<Buffered>): nat {
    if events == [] then 0 else events[0].bytes + Sum(events[1..])
  }

  predicate Numbered(s: State) {
    |s.history| == s.latestCursor && forall i :: 0 <= i < |s.history| ==> s.history[i].cursor == i + 1
  }

  predicate WithinLimits(s: State) {
    |s.events| <= REPLAY_LIMIT && s.bytes <= BYTE_LIMIT
  }

  /** A bufferable event that is not held. */
  predicate IsLost(s: State, sent: Sent) {
    ShouldBuffer(sent) && (s.measure(sent) > EVENT_BYTE_LIMIT || sent.cursor <= s.evicted)
  }

  /** `lost` is the last cursor of a lost event. */
  predicate LastLost(s: State) {
    && (s.evicted <= s.lost <= s.latestCursor)
    && (forall e <- s.history :: IsLost(s, e) ==> e.cursor <= s.lost)
    && (s.lost > 0 ==> s.lost <= |s.history| && IsLost(s, s.history[s.lost - 1]))
  }

  predicate Sized(s: State) {
    forall i :: 0 <= i < |s.events| ==> s.events[i].bytes == s.measure(s.events[i].sent) <= EVENT_BYTE_LIMIT
  }

  /** The invariant while evicting. */
  predicate Ready(s: State) {
    && Numbered(s) && Sized(s) && LastLost(s)
    && s.bytes == Sum(s.events) && Sents(s.events) == Held(s.measure, s.history, s.evicted)
  }

  predicate Valid(s: State) {
    Ready(s) && WithinLimits(s)
  }

  // ---- keeping it

  lemma HeldSnoc(measure: Sent -> nat, history: seq<Sent>, e: Sent, cursor: nat)
    ensures Held(measure, history + [e], cursor)
            == Held(measure, history, cursor) + if ShouldBuffer(e) && measure(e) <= EVENT_BYTE_LIMIT && e.cursor > cursor then [e] else []
  {
    assert (history + [e])[..|history|] == history;
  }

  lemma {:induction false} SumSnoc(events: seq<Buffered>, b: Buffered)
    ensures Sum(events + [b]) == Sum(events) + b.bytes
  {
    if events == [] {
      assert [b][1..] == [];
    } else {
      assert (events + [b])[1..] == events[1..] + [b];
      SumSnoc(events[1..], b);
    }
  }

  lemma SentsSnoc(events: seq<Buffered>, b: Buffered)
    ensures Sents(events + [b]) == Sents(events) + [b.sent]
  {
  }

  lemma AppendSized(s: State, event: Event)
    requires Ready(s)
    ensures var t := Append(s, event); t.bytes == Sum(t.events) && Sized(t)
  {
    var sent := Sent(event, s.latestCursor + 1);
    SumSnoc(s.events, Buffered(s.measure(sent), sent));
  }

  lemma AppendHolds(s: State, event: Event)
    requires Ready(s)
    ensures var t := Append(s, event); Sents(t.events) == Held(t.measure, t.history, t.evicted)
  {
    var sent := Sent(event, s.latestCursor + 1);
    HeldSnoc(s.measure, s.history, sent, s.evicted);
    SentsSnoc(s.events, Buffered(s.measure(sent), sent));
  }

  lemma AppendLost(s: State, event: Event)
    requires Ready(s)
    ensures Numbered(Append(s, event)) && LastLost(Append(s, event))
  {
    var t := Append(s, event);
    forall e | e in t.history && IsLost(t, e) ensures e.cursor <= t.lost {
      if e in s.history {
        assert IsLost(s, e);
      }
    }
  }

  lemma AppendReady(s: State, event: Event)
    requires Ready(s)
    ensures Ready(Append(s, event))
  {
    AppendSized(s, event);
    AppendHolds(s, event);
    AppendLost(s, event);
  }

  lemma {:induction false} HeldCursors(measure: Sent -> nat, history: seq<Sent>, cursor: nat)
    requires forall i :: 0 <= i < |history| ==> history[i].cursor == i + 1
    ensures var held := Held(measure, history, cursor);
            && (forall i, j :: 0 <= i < j < |held| ==> held[i].cursor < held[j].cursor)
            && (forall e <- held :: e in history && cursor < e.cursor <= |history| && ShouldBuffer(e) && measure(e) <= EVENT_BYTE_LIMIT)
  {
    if history != [] {
      HeldCursors(measure, history[..|history| - 1], cursor);
    }
  }

  lemma {:induction false} AfterFirst(events: seq<Sent>)
    requires events != [] && forall i, j :: 0 <= i < j < |events| ==> events[i].cursor < events[j].cursor
    ensures After(events, events[0].cursor) == events[1..]
  {
    var init, last := events[..|events| - 1], events[|events| - 1];
    if init == [] {
      assert After(init, last.cursor) == [];
    } else {
      AfterFirst(init);
      assert events[1..] == init[1..] + [last];
    }
  }

  lemma {:induction false} AfterHeld(measure: Sent -> nat, history: seq<Sent>, evicted: nat, cursor: nat)
    ensures After(Held(measure, history, evicted), cursor) == Held(measure, history, Later(evicted, cursor))
  {
    if history != [] {
      var init, last := history[..|history| - 1], history[|history| - 1];
      AfterHeld(measure, init, evicted, cursor);
      var held := Held(measure, init, evicted);
      assert (held + [last])[..|held|] == held;
      assert held + [] == held;
    }
  }

  /** Letting go of the oldest leaves what lies behind it. */
  lemma HeldTail(measure: Sent -> nat, history: seq<Sent>, cursor: nat)
    requires forall i :: 0 <= i < |history| ==> history[i].cursor == i + 1
    requires Held(measure, history, cursor) != []
    ensures var held := Held(measure, history, cursor); Held(measure, history, held[0].cursor) == held[1..]
  {
    var held := Held(measure, history, cursor);
    HeldCursors(measure, history, cursor);
    assert held[0] in held;
    AfterHeld(measure, history, cursor, held[0].cursor);
    AfterFirst(held);
  }

  function EvictOne(s: State): State
    requires s.events != []
  {
    var head := s.events[0];
    s.(events := s.events[1..], bytes := if s.bytes >= head.bytes then s.bytes - head.bytes else 0,
       evicted := head.sent.cursor, lost := Later(s.lost, head.sent.cursor))
  }

  lemma HeadHeld(s: State)
    requires Ready(s) && s.events != []
    ensures var head := s.events[0].sent;
            && head in s.history && ShouldBuffer(head) && s.evicted < head.cursor <= |s.history| && s.history[head.cursor - 1] == head
  {
    HeldCursors(s.measure, s.history, s.evicted);
    var head := s.events[0].sent;
    assert Sents(s.events)[0] == head && head in Sents(s.events);
    var i :| 0 <= i < |s.history| && s.history[i] == head;
  }

  lemma EvictHolds(s: State)
    requires Ready(s) && s.events != []
    ensures var t := EvictOne(s); Sents(t.events) == Held(t.measure, t.history, t.evicted) && t.bytes == Sum(t.events) && Sized(t)
  {
    HeldTail(s.measure, s.history, s.evicted);
    assert Sents(s.events)[0] == s.events[0].sent && Sents(s.events)[1..] == Sents(s.events[1..]);
  }

  lemma EvictLost(s: State)
    requires Ready(s) && s.events != []
    ensures LastLost(EvictOne(s))
  {
    var t := EvictOne(s);
    HeadHeld(s);
    forall e | e in t.history && IsLost(t, e) ensures e.cursor <= t.lost {
      if e.cursor > t.evicted {
        assert IsLost(s, e);
      }
    }
    if t.lost != t.evicted {
      assert IsLost(s, s.history[s.lost - 1]);
    }
  }

  lemma EvictOneReady(s: State)
    requires Ready(s) && s.events != []
    ensures Ready(EvictOne(s))
  {
    EvictHolds(s);
    EvictLost(s);
  }

  lemma {:induction false} EvictReady(s: State)
    requires Ready(s)
    ensures Valid(Evict(s)) && Evict(s).history == s.history && Evict(s).latestCursor == s.latestCursor
    decreases |s.events|
  {
    if |s.events| > REPLAY_LIMIT || s.bytes > BYTE_LIMIT {
      if s.events != [] {
        EvictOneReady(s);
        EvictReady(EvictOne(s));
      }
    }
  }

  /** Every event that is sent keeps both limits, the byte count and the increasing cursors. */
  lemma AssignValid(s: State, event: Event)
    requires Valid(s)
    ensures var t := Assign(s, event);
            Valid(t) && t.latestCursor == s.latestCursor + 1 && t.history == s.history + [Sent(event, t.latestCursor)]
  {
    AppendReady(s, event);
    AppendShape(s, event);
    if ShouldBuffer(Sent(event, s.latestCursor + 1)) {
      EvictReady(Append(s, event));
    }
  }

  lemma AppendShape(s: State, event: Event)
    ensures var t := Append(s, event);
            && t.latestCursor == s.latestCursor + 1 && t.history == s.history + [Sent(event, t.latestCursor)]
            && (!ShouldBuffer(Sent(event, t.latestCursor)) ==> t.events == s.events && t.bytes == s.bytes)
  {
  }

  function Events(history: seq<Sent>): (events: seq<Event>)
    ensures |events| == |history| && forall i :: 0 <= i < |history| ==> events[i] == history[i].event
  {
    if history == [] then [] else [history[0].event] + Events(history[1..])
  }

  lemma EventsSnoc(history: seq<Sent>, e: Sent)
    ensures Events(history + [e]) == Events(history) + [e.event]
  {
  }

  lemma OneMoreValid(s: State, before: seq<Event>, event: Event, t: State)
    requires Valid(s) && Events(s.history) == before && Follows(s, event, t)
    ensures Valid(t) && t.measure == s.measure && Events(t.history) == before + [event]
  {
    AssignValid(s, event);
    AssignMeasure(s, event);
    EventsSnoc(s.history, Sent(event, t.latestCursor));
  }

  lemma AssignMeasure(s: State, event: Event)
    ensures Assign(s, event).measure == s.measure
  {
    EvictMeasure(Append(s, event));
  }

  lemma {:induction false} EvictMeasure(s: State)
    ensures Evict(s).measure == s.measure
    decreases |s.events|
  {
    if |s.events| > REPLAY_LIMIT || s.bytes > BYTE_LIMIT {
      if s.events != [] {
        EvictMeasure(EvictOne(s));
      }
    }
  }

  ghost predicate Follows(s: State, event: Event, t: State) {
    t == Assign(s, event)
  }

  /** The states of a run since the buffer was cleared. */
  ghost predicate Run(states: seq<State>, events: seq<Event>) {
    && |states| == |events| + 1 && states[0] == Cleared(states[0])
    && forall k :: 0 <= k < |events| ==> Follows(states[k], events[k], states[k + 1])
  }

  lemma RunBegins(states: seq<State>, events: seq<Event>)
    requires Run(states, events)
    ensures Valid(states[0]) && Events(states[0].history) == []
  {
    ClearedValid(states[0]);
  }

  lemma RunStep(states: seq<State>, events: seq<Event>, k: nat)
    requires Run(states, events) && k < |events| && Valid(states[k]) && Events(states[k].history) == events[..k]
    ensures Valid(states[k + 1]) && Events(states[k + 1].history) == events[..k + 1]
  {
    assert Follows(states[k], events[k], states[k + 1]);
    OneMoreValid(states[k], events[..k], events[k], states[k + 1]);
    assert events[..k + 1] == events[..k] + [events[k]];
  }

  /** In every state of every run: the invariant, and a history that is all the events sent so far. */
  lemma {:induction false} RunValid(states: seq<State>, events: seq<Event>, k: nat)
    requires Run(states, events) && k < |states|
    ensures Valid(states[k]) && Events(states[k].history) == events[..k]
  {
    if k == 0 {
      RunBegins(states, events);
    } else {
      RunValid(states, events, k - 1);
      RunStep(states, events, k - 1);
    }
  }

  lemma ClearedValid(s: State)
    ensures Valid(Cleared(s))
  {
  }

  lemma ClearedBegins(s: State)
    ensures var t := Cleared(s);
            && Valid(t) && (forall cursor :: ReadAfter(t, cursor) == [])
            && (forall event :: Assign(t, event).history == [Sent(event, 1)])
  {
    var t := Cleared(s);
    assert Sents(t.events) == [];
    forall event ensures Assign(t, event).history == [Sent(event, 1)] {
      AssignValid(t, event);
    }
  }

  // ---- what a client gets

  /** What is held is what is missed when no event in between was lost. */
  lemma {:induction false} HeldIsMissed(s: State, n: nat, cursor: nat)
    requires Numbered(s) && n <= |s.history| && s.evicted <= cursor
    requires forall e <- s.history[..n] :: IsLost(s, e) ==> e.cursor <= cursor
    ensures Held(s.measure, s.history[..n], cursor) == Missed(s.history[..n], cursor)
  {
    if n > 0 {
      assert s.history[..n][..n - 1] == s.history[..n - 1];
      forall e | e in s.history[..n - 1] ensures e in s.history[..n] {
        var i :| 0 <= i < n - 1 && s.history[..n - 1][i] == e;
        assert s.history[..n][i] == e;
      }
      HeldIsMissed(s, n - 1, cursor);
      assert s.history[..n][n - 1] in s.history[..n];
    }
  }

  lemma {:induction false} MissedHolds(history: seq<Sent>, cursor: nat, i: nat)
    requires i < |history| && ShouldBuffer(history[i]) && history[i].cursor > cursor
    ensures history[i] in Missed(history, cursor)
  {
    if i < |history| - 1 {
      MissedHolds(history[..|history| - 1], cursor, i);
    }
  }

  /** A client that saw the events up to a cursor is sent exactly what it missed, in order, just when no event
      after that cursor was lost. */
  lemma ReadsMissedExactly(s: State, cursor: nat)
    requires Valid(s)
    ensures ReadAfter(s, Some(cursor)) == Missed(s.history, cursor) <==> s.lost <= cursor
  {
    AfterHeld(s.measure, s.history, s.evicted, cursor);
    if s.lost <= cursor {
      NothingLost(s, cursor);
    } else {
      SomethingLost(s, cursor);
    }
  }

  lemma NothingLost(s: State, cursor: nat)
    requires Ready(s) && s.lost <= cursor
    ensures Held(s.measure, s.history, Later(s.evicted, cursor)) == Missed(s.history, cursor)
  {
    assert s.history[..|s.history|] == s.history;
    HeldIsMissed(s, |s.history|, cursor);
  }

  lemma SomethingLost(s: State, cursor: nat)
    requires Ready(s) && s.lost > cursor
    ensures Held(s.measure, s.history, Later(s.evicted, cursor)) != Missed(s.history, cursor)
  {
    var lost := s.history[s.lost - 1];
    MissedHolds(s.history, cursor, s.lost - 1);
    HeldCursors(s.measure, s.history, Later(s.evicted, cursor));
    assert lost !in Held(s.measure, s.history, Later(s.evicted, cursor));
  }

  lemma OneFits(s: State)
    requires Ready(s) && s.events != []
    ensures |s.events| == 1 ==> WithinLimits(s)
  {
    if |s.events| == 1 {
      assert s.events[1..] == [] && Sum(s.events[1..]) == 0;
      assert s.bytes == s.events[0].bytes;
    }
  }

  /** The event just sent is there for the next client, unless it is a log line or too large. */
  lemma {:induction false} EvictKeepsLast(s: State)
    requires Ready(s) && s.events != []
    ensures Evict(s).events != [] && Evict(s).events[|Evict(s).events| - 1] == s.events[|s.events| - 1]
    decreases |s.events|
  {
    if |s.events| > REPLAY_LIMIT || s.bytes > BYTE_LIMIT {
      OneFits(s);
      EvictOneReady(s);
      EvictKeepsLast(EvictOne(s));
    }
  }

  class ServerEventReplayBuffer {
    const measure: Sent -> nat
    var replayEvents: seq<Buffered>
    var replayBytes: nat
    var latestCursor: nat
    /** the events since the last `clear`, and what was lost of them */
    var history: seq<Sent>
    var evicted: nat
    var lost: nat

    function View(): State
      reads this
    {
      State(measure, replayEvents, replayBytes, latestCursor, history, evicted, lost)
    }

    constructor (measure: Sent -> nat)
      ensures this.measure == measure && View() == State(measure, [], 0, 0, [], 0, 0)
    {
      this.measure, replayEvents, replayBytes, latestCursor, history, evicted, lost := measure, [], 0, 0, [], 0, 0;
    }

    method AssignCursor(event: Event) returns (sent: Sent)
      modifies this
      ensures View() == Assign(old(View()), event) && sent == Sent(event, old(latestCursor) + 1)
      ensures old(Valid(View())) ==> Valid(View()) && history == old(history) + [sent]
    {
      if Valid(View()) {
        AssignValid(View(), event);
      }
      latestCursor := latestCursor + 1;
      sent := Sent(event, latestCursor);
      history := history + [sent];
      if !ShouldBuffer(sent) {
        return;
      }
      var bytes := measure(sent);
      if bytes <= EVENT_BYTE_LIMIT {
        replayEvents, replayBytes := replayEvents + [Buffered(bytes, sent)], replayBytes + bytes;
      } else {
        lost := sent.cursor;
      }
      EvictExcess();
    }

    /** The loop of `assignCursor`. */
    method EvictExcess()
      modifies this
      ensures View() == Evict(old(View()))
    {
      while replayEvents != [] && (|replayEvents| > REPLAY_LIMIT || replayBytes > BYTE_LIMIT)
        invariant Evict(View()) == Evict(old(View()))
        decreases |replayEvents|
      {
        var removed := replayEvents[0];
        replayEvents := replayEvents[1..];
        replayBytes := if replayBytes >= removed.bytes then replayBytes - removed.bytes else 0;
        evicted, lost := removed.sent.cursor, Later(lost, removed.sent.cursor);
      }
    }

    method Read(cursor: Option<int>) returns (events: seq<Sent>)
      ensures events == ReadAfter(View(), cursor)
    {
      events := [];
      if cursor.None? || cursor.value < 0 {
        return;
      }
      var all := Sents(replayEvents);
      for i := 0 to |all|
        invariant events == After(all[..i], cursor.value)
      {
        assert all[..i + 1][..i] == all[..i];
        if all[i].cursor > cursor.value {
          events := events + [all[i]];
        }
      }
      assert all[..|all|] == all;
    }

    /** After it a client is sent nothing, whatever its cursor, and the next event is the first. */
    method Clear()
      modifies this
      ensures View() == Cleared(old(View()))
      ensures Valid(View()) && forall cursor :: ReadAfter(View(), cursor) == []
      ensures forall event :: Assign(View(), event).history == [Sent(event, 1)]
    {
      ClearedBegins(View());
      replayEvents, replayBytes, latestCursor, history, evicted, lost := [], 0, 0, [], 0, 0;
    }
  }
}
