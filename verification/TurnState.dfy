/** What a transcript says about the current turn (apps/daemon/src/agents/sourceAgentTurnState.ts) and which
    user entry a managed prompt owns (apps/daemon/src/agents/managedSourceTurnOwnership.ts). */
module TurnState {
  import opened Wrappers
  import Text

  datatype Role = User | Assistant | Commentary | Tool | System

  /** A transcript entry: `status` is the label of its first status part. */
  datatype Entry = Entry(id: string, timestamp: string, role: Role, text: string, phase: Option<string>, status: Option<string>)

  datatype TerminalPhase = TurnCompleted | TurnFailed | TurnInterrupted
  datatype Label = Started | Ended(phase: TerminalPhase)
  datatype Evidence = RecentNonFinalActivity | TurnLifecycle | UnansweredUserTurn | UserAfterTerminal

  datatype TerminalTurn = TerminalTurn(
    completedAt: string, fingerprint: string, phase: TerminalPhase, startedAt: Option<string>, turnStartFingerprint: Option<string>)

  datatype TurnState =
    | Idle
    | Active(activityAt: string, evidence: Evidence, fingerprint: string, startedAt: string)
    | Terminal(turn: TerminalTurn)

  /** `Date.parse`, the current time and the configured age of a stale turn. */
  datatype Clock = Clock(parse: string -> Option<int>, now: int, staleMs: int)

  // ---- single entries

  function LabelOf(e: Entry): Option<Label> {
    var name := if e.status.Some? then e.status.value else e.text;
    if e.role != System then None
    else if name == "Turn started" then Some(Started)
    else if name == "Turn completed" then Some(Ended(TurnCompleted))
    else if name == "Turn failed" then Some(Ended(TurnFailed))
    else if name == "Turn interrupted" then Some(Ended(TurnInterrupted))
    else None
  }

  predicate IsTerminal(e: Entry) {
    LabelOf(e).Some? && LabelOf(e).value.Ended?
  }

  predicate StartsTurn(e: Entry) {
    LabelOf(e) == Some(Started) || e.role == User
  }

  predicate IsFinalAnswer(e: Entry) {
    e.role == Assistant && e.phase != Some("non_final")
  }

  /** What ends the search for an unanswered user turn. */
  predicate Answers(e: Entry) {
    LabelOf(e).Some? || IsFinalAnswer(e)
  }

  predicate IsStale(clock: Clock, reference: string) {
    var time := clock.parse(reference);
    time.Some? && clock.now - time.value > clock.staleMs
  }

  // ---- the nearest entry before a position

  /** The last index below `n` whose entry `p` holds of. */
  function LastIndex(entries: seq<Entry>, n: nat, p: Entry -> bool): (r: Option<nat>)
    requires n <= |entries|
    ensures r.Some? ==> r.value < n && p(entries[r.value]) && forall k :: r.value < k < n ==> !p(entries[k])
    ensures r.None? ==> forall k :: 0 <= k < n ==> !p(entries[k])
  {
    if n == 0 then None else if p(entries[n - 1]) then Some(n - 1) else LastIndex(entries, n - 1, p)
  }

  /** Where the turn ended by entry `t` began: the nearest user entry or start label, unless another turn ended in
      between. */
  function StartOf(entries: seq<Entry>, t: nat): (r: Option<nat>)
    requires t <= |entries|
    ensures r.Some? ==> r.value < t && StartsTurn(entries[r.value]) && forall k :: r.value < k < t ==> !StartsTurn(entries[k]) && !IsTerminal(entries[k])
    ensures r.None? ==> forall s :: 0 <= s < t && StartsTurn(entries[s]) ==> exists k :: s < k < t && IsTerminal(entries[k])
  {
    var r := LastIndex(entries, t, e => StartsTurn(e) || IsTerminal(e));
    if r.Some? && StartsTurn(entries[r.value]) then r else None
  }

  /** `findMatchingTurnStart`. */
  method FindMatchingTurnStart(entries: seq<Entry>, terminal: nat) returns (start: Option<nat>)
    requires terminal <= |entries|
    ensures start == StartOf(entries, terminal)
  {
    var index := terminal;
    while index > 0
      invariant 0 <= index <= terminal
      invariant StartOf(entries, terminal) == StartOf(entries, index)
    {
      index := index - 1;
      if StartsTurn(entries[index]) {
        return Some(index);
      }
      if IsTerminal(entries[index]) {
        return None;
      }
    }
    start := None;
  }

  /** The user entry behind `after` that nothing has answered yet. */
  function UnansweredUser(entries: seq<Entry>, from: nat): (r: Option<nat>)
    requires from <= |entries|
    ensures r.Some? ==> from <= r.value < |entries| && entries[r.value].role == User
                        && forall k :: r.value < k < |entries| ==> !Answers(entries[k]) && entries[k].role != User
    ensures r.None? ==> forall u :: from <= u < |entries| && entries[u].role == User ==>
                          exists k :: u < k < |entries| && Answers(entries[k])
  {
    var r := LastIndex(entries, |entries|, e => Answers(e) || e.role == User);
    if r.Some? && r.value >= from && entries[r.value].role == User then r else None
  }

  /** `findLatestUnansweredUserTurn`: the user entry and when anything last happened. */
  method FindLatestUnansweredUserTurn(entries: seq<Entry>, from: nat) returns (turn: Option<(string, nat)>)
    requires from <= |entries|
    ensures turn.Some? <==> UnansweredUser(entries, from).Some?
    ensures turn.Some? ==> turn.value == (entries[|entries| - 1].timestamp, UnansweredUser(entries, from).value)
  {
    var latest: Option<Entry> := None;
    var index := |entries|;
    while index > from
      invariant from <= index <= |entries|
      invariant latest == if index < |entries| then Some(entries[|entries| - 1]) else None
      invariant LastIndex(entries, |entries|, e => Answers(e) || e.role == User) == LastIndex(entries, index, e => Answers(e) || e.role == User)
    {
      index := index - 1;
      var entry := entries[index];
      if latest.None? {
        latest := Some(entry);
      }
      if Answers(entry) {
        return None;
      }
      if entry.role == User {
        return Some((latest.value.timestamp, index));
      }
    }
    turn := None;
  }

  // ---- the turns that ended

  function TurnAt(entries: seq<Entry>, t: nat): TerminalTurn
    requires t < |entries| && IsTerminal(entries[t])
  {
    var start := StartOf(entries, t);
    TerminalTurn(entries[t].timestamp, entries[t].id, LabelOf(entries[t]).value.phase,
                 if start.Some? then Some(entries[start.value].timestamp) else None,
                 if start.Some? then Some(entries[start.value].id) else None)
  }

  method ReadTurn(entries: seq<Entry>, t: nat) returns (turn: TerminalTurn)
    requires t < |entries| && IsTerminal(entries[t])
    ensures turn == TurnAt(entries, t)
  {
    var start := FindMatchingTurnStart(entries, t);
    turn := TerminalTurn(entries[t].timestamp, entries[t].id, LabelOf(entries[t]).value.phase,
                         if start.Some? then Some(entries[start.value].timestamp) else None,
                         if start.Some? then Some(entries[start.value].id) else None);
  }

  /** The indices of the entries that end a turn. */
  function Ends(entries: seq<Entry>, n: nat): (ends: seq<nat>)
    requires n <= |entries|
    ensures forall i :: 0 <= i < |ends| ==> ends[i] < n && IsTerminal(entries[ends[i]])
  {
    if n == 0 then [] else Ends(entries, n - 1) + if IsTerminal(entries[n - 1]) then [n - 1] else []
  }

  function TurnsAt(entries: seq<Entry>, ends: seq<nat>): (turns: seq<TerminalTurn>)
    requires forall i :: 0 <= i < |ends| ==> ends[i] < |entries| && IsTerminal(entries[ends[i]])
    ensures |turns| == |ends| && forall i :: 0 <= i < |ends| ==> turns[i] == TurnAt(entries, ends[i])
  {
    if ends == [] then [] else TurnsAt(entries, ends[..|ends| - 1]) + [TurnAt(entries, ends[|ends| - 1])]
  }

  function TerminalTurns(entries: seq<Entry>): seq<TerminalTurn> {
    TurnsBefore(entries, |entries|)
  }

  lemma TurnsSnoc(entries: seq<Entry>, ends: seq<nat>, t: nat)
    requires t < |entries| && IsTerminal(entries[t])
    requires forall i :: 0 <= i < |ends| ==> ends[i] < |entries| && IsTerminal(entries[ends[i]])
    ensures TurnsAt(entries, ends + [t]) == TurnsAt(entries, ends) + [TurnAt(entries, t)]
  {
    assert (ends + [t])[..|ends|] == ends;
  }

  /** The turns that ended before entry `n`. */
  function TurnsBefore(entries: seq<Entry>, n: nat): seq<TerminalTurn>
    requires n <= |entries|
  {
    TurnsAt(entries, Ends(entries, n))
  }

  lemma TurnsBeforeNext(entries: seq<Entry>, n: nat)
    requires n < |entries|
    ensures TurnsBefore(entries, n + 1)
            == if IsTerminal(entries[n]) then TurnsBefore(entries, n) + [TurnAt(entries, n)] else TurnsBefore(entries, n)
  {
    if IsTerminal(entries[n]) {
      TurnsSnoc(entries, Ends(entries, n), n);
    } else {
      assert Ends(entries, n) + [] == Ends(entries, n);
    }
  }

  /** `findSourceAgentTerminalTurns`. */
  method FindTerminalTurns(transcript: seq<Entry>) returns (turns: seq<TerminalTurn>)
    ensures turns == TerminalTurns(transcript)
  {
    turns := [];
    for index := 0 to |transcript|
      invariant turns == TurnsBefore(transcript, index)
    {
      TurnsBeforeNext(transcript, index);
      if IsTerminal(transcript[index]) {
        var turn := ReadTurn(transcript, index);
        turns := turns + [turn];
      }
    }
  }

  lemma {:induction false} EndsAreAll(entries: seq<Entry>, n: nat)
    requires n <= |entries|
    ensures var ends := Ends(entries, n);
            && (forall i, j :: 0 <= i < j < |ends| ==> ends[i] < ends[j])
            && (forall t: nat :: t < n && IsTerminal(entries[t]) ==> t in ends)
  {
    if n > 0 {
      EndsAreAll(entries, n - 1);
    }
  }

  lemma StartsAfter(entries: seq<Entry>, earlier: nat, later: nat)
    requires earlier < later < |entries| && IsTerminal(entries[earlier])
    ensures StartOf(entries, later).Some? ==> earlier < StartOf(entries, later).value < later
  {
    assert !StartsTurn(entries[earlier]);
  }

  /** The terminal turns come in transcript order, none is missing, and their intervals from start to end are
      pairwise disjoint. */
  lemma TerminalTurnsAreDisjoint(entries: seq<Entry>)
    ensures var ends, turns := Ends(entries, |entries|), TerminalTurns(entries);
            && |ends| == |turns|
            && (forall t: nat :: t < |entries| && IsTerminal(entries[t]) ==> t in ends)
            && (forall i :: 0 <= i < |turns| ==> turns[i] == TurnAt(entries, ends[i]))
            && (forall i, j :: 0 <= i < j < |turns| ==> ends[i] < ends[j])
            && (forall i, j :: 0 <= i < j < |turns| ==>
                  StartOf(entries, ends[j]).Some? ==> ends[i] < StartOf(entries, ends[j]).value < ends[j])
  {
    var ends := Ends(entries, |entries|);
    EndsAreAll(entries, |entries|);
    forall i, j | 0 <= i < j < |ends|
      ensures StartOf(entries, ends[j]).Some? ==> ends[i] < StartOf(entries, ends[j]).value < ends[j]
    {
      StartsAfter(entries, ends[i], ends[j]);
    }
  }

  // ---- the current turn

  /** Scanning back to `i`: the latest entry with a time, and that time. */
  function LatestActivity(entries: seq<Entry>, i: nat): (string, Option<Entry>)
    requires i <= |entries|
    decreases |entries| - i
  {
    if i == |entries| then ("", None)
    else
      var later := LatestActivity(entries, i + 1);
      if later.0 == "" then (entries[i].timestamp, Some(entries[i])) else later
  }

  /** `toUnansweredUserTurnState`. */
  function UserTurn(clock: Clock, activityAt: string, user: Entry, terminal: Option<Entry>): TurnState {
    var isFresh := terminal.Some? && activityAt == user.timestamp && Text.Less(terminal.value.timestamp, user.timestamp)
      && !IsStale(clock, activityAt);
    Active(activityAt, if isFresh then UserAfterTerminal else UnansweredUserTurn, user.id, user.timestamp)
  }

  predicate IsLabelled(e: Entry) {
    LabelOf(e).Some?
  }

  /** What the latest label decides, an unanswered user behind it first. */
  function Derived(entries: seq<Entry>, clock: Clock): TurnState {
    var last := LastIndex(entries, |entries|, IsLabelled);
    var user := UnansweredUser(entries, if last.Some? then last.value + 1 else 0);
    if last.Some? && LabelOf(entries[last.value]) == Some(Started) then
      var activity := LatestActivity(entries, last.value).0;
      if IsStale(clock, activity) then Idle
      else Active(activity, TurnLifecycle, entries[last.value].id, entries[last.value].timestamp)
    else if user.Some? then
      UserTurn(clock, entries[|entries| - 1].timestamp, entries[user.value], if last.Some? then Some(entries[last.value]) else None)
    else if last.Some? then Terminal(TurnAt(entries, last.value))
    else
      var latest := LatestActivity(entries, 0).1;
      if latest.Some? && !IsFinalAnswer(latest.value) && !IsStale(clock, latest.value.timestamp) then
        Active(latest.value.timestamp, RecentNonFinalActivity, latest.value.id, latest.value.timestamp)
      else Idle
  }

  /** What the latest label, at `index`, decides. */
  method Decide(transcript: seq<Entry>, index: nat, activity: string, clock: Clock) returns (state: TurnState)
    requires index < |transcript| && LastIndex(transcript, |transcript|, IsLabelled) == Some(index)
    requires activity == LatestActivity(transcript, index).0
    ensures state == Derived(transcript, clock)
  {
    var entry := transcript[index];
    if LabelOf(entry) == Some(Started) {
      return if IsStale(clock, activity) then Idle else Active(activity, TurnLifecycle, entry.id, entry.timestamp);
    }
    var user := FindLatestUnansweredUserTurn(transcript, index + 1);
    if user.Some? {
      return UserTurn(clock, user.value.0, transcript[user.value.1], Some(entry));
    }
    var turn := ReadTurn(transcript, index);
    state := Terminal(turn);
  }

  /** `deriveSourceAgentTurnState`. */
  method DeriveTurnState(transcript: seq<Entry>, clock: Clock) returns (state: TurnState)
    ensures state == Derived(transcript, clock)
  {
    var activity: string, latest: Option<Entry> := "", None;
    var index := |transcript|;
    while index > 0
      invariant 0 <= index <= |transcript|
      invariant (activity, latest) == LatestActivity(transcript, index)
      invariant LastIndex(transcript, |transcript|, IsLabelled) == LastIndex(transcript, index, IsLabelled)
    {
      index := index - 1;
      var entry := transcript[index];
      if activity == "" {
        activity, latest := entry.timestamp, Some(entry);
      }
      if IsLabelled(entry) {
        state := Decide(transcript, index, activity, clock);
        return;
      }
    }
    var user := FindLatestUnansweredUserTurn(transcript, 0);
    if user.Some? {
      return UserTurn(clock, user.value.0, transcript[user.value.1], None);
    }
    if latest.Some? && !IsFinalAnswer(latest.value) && !IsStale(clock, latest.value.timestamp) {
      return Active(latest.value.timestamp, RecentNonFinalActivity, latest.value.id, latest.value.timestamp);
    }
    state := Idle;
  }

  lemma {:induction false} EndsLast(entries: seq<Entry>, n: nat, t: nat)
    requires t < n <= |entries| && IsTerminal(entries[t]) && forall k :: t < k < n ==> !IsTerminal(entries[k])
    ensures Ends(entries, n) != [] && Ends(entries, n)[|Ends(entries, n)| - 1] == t
    decreases n
  {
    if n - 1 > t {
      EndsLast(entries, n - 1, t);
    }
  }

  /** The current turn is over exactly when the latest label ends a turn and no user turn behind it waits for an
      answer; then it is, field for field, the last of the terminal turns. */
  lemma DerivedTerminalIsLast(entries: seq<Entry>, clock: Clock)
    ensures var last := LastIndex(entries, |entries|, IsLabelled);
            Derived(entries, clock).Terminal? <==>
              last.Some? && IsTerminal(entries[last.value]) && UnansweredUser(entries, last.value + 1).None?
    ensures Derived(entries, clock).Terminal? ==>
              && TerminalTurns(entries) != []
              && Derived(entries, clock).turn == TerminalTurns(entries)[|TerminalTurns(entries)| - 1]
  {
    var last := LastIndex(entries, |entries|, IsLabelled);
    if last.Some? && IsTerminal(entries[last.value]) {
      EndsLast(entries, |entries|, last.value);
    }
  }

  /** A started turn is over only once a label says so: with a start label and no terminal label behind it, the turn
      is active or stale, whatever else follows. */
  lemma StartedStaysOpen(entries: seq<Entry>, clock: Clock, s: nat)
    requires s < |entries| && LabelOf(entries[s]) == Some(Started) && forall k :: s < k < |entries| ==> !IsTerminal(entries[k])
    ensures !Derived(entries, clock).Terminal?
  {
    var last := LastIndex(entries, |entries|, IsLabelled);
    assert last.Some? && last.value >= s by {
      assert IsLabelled(entries[s]);
    }
  }

  // ---- what decides the current turn

  /** The latest entry that says anything about a turn. */
  predicate IsLatestLabel(entries: seq<Entry>, s: nat) {
    s < |entries| && IsLabelled(entries[s]) && forall k :: s < k < |entries| ==> !IsLabelled(entries[k])
  }

  predicate Unlabelled(entries: seq<Entry>) {
    forall k :: 0 <= k < |entries| ==> !IsLabelled(entries[k])
  }

  /** The user entry nothing has answered, and behind which no other user speaks. */
  predicate Waits(entries: seq<Entry>, u: nat) {
    u < |entries| && entries[u].role == User && forall k :: u < k < |entries| ==> !Answers(entries[k]) && entries[k].role != User
  }

  /** The nearest entry from the end with a time, not before `from`; the entry at `from` if none has one. */
  predicate LatestTimed(entries: seq<Entry>, from: nat, a: nat) {
    && from <= a < |entries| && (a == from || entries[a].timestamp != "")
    && forall k :: a < k < |entries| ==> entries[k].timestamp == ""
  }

  lemma {:induction false} TimedIsActivity(entries: seq<Entry>, from: nat, a: nat)
    requires LatestTimed(entries, from, a)
    ensures LatestActivity(entries, from) == (entries[a].timestamp, Some(entries[a]))
    decreases |entries| - from
  {
    if from < a {
      TimedIsActivity(entries, from + 1, a);
    } else {
      NothingTimed(entries, from + 1);
    }
  }

  lemma {:induction false} NothingTimed(entries: seq<Entry>, from: nat)
    requires from <= |entries| && forall k :: from <= k < |entries| ==> entries[k].timestamp == ""
    ensures LatestActivity(entries, from).0 == ""
    decreases |entries| - from
  {
    if from < |entries| {
      NothingTimed(entries, from + 1);
    }
  }

  lemma LatestLabelIs(entries: seq<Entry>, s: nat)
    requires IsLatestLabel(entries, s)
    ensures LastIndex(entries, |entries|, IsLabelled) == Some(s)
  {
  }

  lemma WaitsIs(entries: seq<Entry>, from: nat, u: nat)
    requires from <= u && Waits(entries, u)
    ensures UnansweredUser(entries, from) == Some(u)
  {
  }

  /** A start label with no label behind it: the turn is active, since that entry, unless the latest time is stale. */
  lemma StartLabelDecides(entries: seq<Entry>, clock: Clock, s: nat, a: nat)
    requires IsLatestLabel(entries, s) && LabelOf(entries[s]) == Some(Started) && LatestTimed(entries, s, a)
    ensures Derived(entries, clock) ==
            if IsStale(clock, entries[a].timestamp) then Idle
            else Active(entries[a].timestamp, TurnLifecycle, entries[s].id, entries[s].timestamp)
  {
    LatestLabelIs(entries, s);
    TimedIsActivity(entries, s, a);
  }

  /** A user entry nothing has answered, behind the end of a turn: the turn is that of the user.  The evidence is
      strong when nothing followed it, its time is behind that of the end, and it is not stale. */
  lemma UserBehindEndDecides(entries: seq<Entry>, clock: Clock, t: nat, u: nat)
    requires IsLatestLabel(entries, t) && IsTerminal(entries[t]) && t < u && Waits(entries, u)
    ensures var activityAt := entries[|entries| - 1].timestamp;
            var isFresh := activityAt == entries[u].timestamp && Text.Less(entries[t].timestamp, entries[u].timestamp)
              && !IsStale(clock, activityAt);
            Derived(entries, clock)
            == Active(activityAt, if isFresh then UserAfterTerminal else UnansweredUserTurn, entries[u].id, entries[u].timestamp)
  {
    LatestLabelIs(entries, t);
    WaitsIs(entries, t + 1, u);
  }

  /** The end of a turn with no such user entry behind it is that turn. */
  lemma EndLabelDecides(entries: seq<Entry>, clock: Clock, t: nat)
    requires IsLatestLabel(entries, t) && IsTerminal(entries[t]) && forall u: nat :: t < u ==> !Waits(entries, u)
    ensures Derived(entries, clock) == Terminal(TurnAt(entries, t))
  {
    LatestLabelIs(entries, t);
    var user := UnansweredUser(entries, t + 1);
    assert user.Some? ==> Waits(entries, user.value);
  }

  /** Without labels an unanswered user entry is an active turn. */
  lemma UnlabelledUserDecides(entries: seq<Entry>, clock: Clock, u: nat)
    requires Unlabelled(entries) && Waits(entries, u)
    ensures Derived(entries, clock)
            == Active(entries[|entries| - 1].timestamp, UnansweredUserTurn, entries[u].id, entries[u].timestamp)
  {
    WaitsIs(entries, 0, u);
  }

  /** And without either the latest entry is, unless it is a final answer or stale. */
  lemma RecentEntryDecides(entries: seq<Entry>, clock: Clock, a: nat)
    requires Unlabelled(entries) && (forall u: nat :: !Waits(entries, u)) && LatestTimed(entries, 0, a)
    ensures Derived(entries, clock) ==
            if IsFinalAnswer(entries[a]) || IsStale(clock, entries[a].timestamp) then Idle
            else Active(entries[a].timestamp, RecentNonFinalActivity, entries[a].id, entries[a].timestamp)
  {
    var user := UnansweredUser(entries, 0);
    assert user.Some? ==> Waits(entries, user.value);
    TimedIsActivity(entries, 0, a);
  }

  /** One of these cases applies to every transcript that is not empty. */
  lemma SomethingDecides(entries: seq<Entry>, clock: Clock)
    ensures entries == [] ==> Derived(entries, clock) == Idle
    ensures entries != [] ==>
              || (exists s: nat :: IsLatestLabel(entries, s) && LabelOf(entries[s]) == Some(Started))
              || (exists t: nat :: IsLatestLabel(entries, t) && IsTerminal(entries[t]))
              || (Unlabelled(entries) && exists a: nat :: LatestTimed(entries, 0, a))
  {
    var last := LastIndex(entries, |entries|, IsLabelled);
    if entries != [] && last.Some? {
      assert IsLatestLabel(entries, last.value);
    } else if entries != [] {
      var a := LatestTime(entries, 0);
    }
  }

  lemma {:induction false} LatestTime(entries: seq<Entry>, from: nat) returns (a: nat)
    requires from < |entries|
    ensures LatestTimed(entries, from, a)
    decreases |entries| - from
  {
    a := from;
    if from + 1 < |entries| {
      var later := LatestTime(entries, from + 1);
      if entries[later].timestamp != "" {
        a := later;
      }
    }
  }

  /** A turn that ended: it began with the nearest user entry or start label, if no other turn ended in between. */
  lemma TurnBegins(entries: seq<Entry>, s: nat, t: nat)
    requires s < t < |entries| && IsTerminal(entries[t]) && StartsTurn(entries[s])
    requires forall k :: s < k < t ==> !StartsTurn(entries[k]) && !IsTerminal(entries[k])
    ensures TurnAt(entries, t) == TerminalTurn(entries[t].timestamp, entries[t].id, LabelOf(entries[t]).value.phase,
                                               Some(entries[s].timestamp), Some(entries[s].id))
  {
  }

  /** Otherwise nothing is known of its start. */
  lemma TurnBeginsNowhere(entries: seq<Entry>, t: nat)
    requires t < |entries| && IsTerminal(entries[t])
    requires forall s :: 0 <= s < t && StartsTurn(entries[s]) ==> exists k :: s < k < t && IsTerminal(entries[k])
    ensures TurnAt(entries, t) == TerminalTurn(entries[t].timestamp, entries[t].id, LabelOf(entries[t]).value.phase, None, None)
  {
  }

  // ---- ownership

  /** The first entry with this id (`findIndex`). */
  function IndexOf(entries: seq<Entry>, id: string): (r: Option<nat>)
    ensures r.Some? ==> r.value < |entries| && entries[r.value].id == id && forall k :: 0 <= k < r.value ==> entries[k].id != id
    ensures r.None? ==> forall k :: 0 <= k < |entries| ==> entries[k].id != id
  {
    if entries == [] then None
    else if entries[0].id == id then Some(0)
    else
      var rest := IndexOf(entries[1..], id);
      assert forall k :: 0 < k < |entries| ==> entries[k] == entries[1..][k - 1];
      if rest.Some? then Some(rest.value + 1) else None
  }

  datatype Prompt = Prompt(promptText: string, requestedAtMs: int, acceptedUntilMs: Option<int>)
  datatype Target = Target(fingerprint: string, startedAt: string, userEntryId: string)

  /** A user entry that says what the prompt said. */
  predicate Says(e: Entry, prompt: Prompt) {
    e.role == User && Text.Trim(e.text) == prompt.promptText
  }

  predicate InWindow(e: Entry, prompt: Prompt, parse: string -> Option<int>) {
    var time := parse(e.timestamp);
    time.Some? && time.value >= prompt.requestedAtMs && (prompt.acceptedUntilMs.Some? ==> time.value <= prompt.acceptedUntilMs.value)
  }

  /** The entry that owns the active turn `a`: the nearest one at or before it that says the prompt, in its time
      window, with no turn boundary from it to the active entry. */
  ghost predicate Owns(entries: seq<Entry>, a: nat, u: nat, prompt: Prompt, parse: string -> Option<int>)
    requires a < |entries|
  {
    && u <= a && Says(entries[u], prompt) && InWindow(entries[u], prompt, parse)
    && (forall k :: u < k <= a ==> !Says(entries[k], prompt))
    && forall k :: u <= k < a ==> !IsLabelled(entries[k])
  }

  /** `findOwnedActiveSourceTurn`. */
  method FindOwnedActiveTurn(state: TurnState, entries: seq<Entry>, prompt: Prompt, parse: string -> Option<int>)
    returns (target: Option<Target>)
    ensures target.Some? <==>
              && state.Active? && state.fingerprint != "" && state.startedAt != ""
              && IndexOf(entries, state.fingerprint).Some?
              && exists u: nat :: u < |entries| && Owns(entries, IndexOf(entries, state.fingerprint).value, u, prompt, parse)
    ensures target.Some? ==>
              && target.value.fingerprint == state.fingerprint && target.value.startedAt == state.startedAt
              && exists u: nat :: u < |entries| && Owns(entries, IndexOf(entries, state.fingerprint).value, u, prompt, parse)
                                  && target.value.userEntryId == entries[u].id
  {
    if !state.Active? || state.fingerprint == "" || state.startedAt == "" {
      return None;
    }
    var active := IndexOf(entries, state.fingerprint);
    if active.None? {
      return None;
    }
    var a := active.value;
    var index := a + 1;
    while index > 0
      invariant 0 <= index <= a + 1
      invariant forall k :: index <= k <= a ==> !Says(entries[k], prompt)
      invariant forall k :: index <= k < a ==> !IsLabelled(entries[k])
    {
      index := index - 1;
      var entry := entries[index];
      if index < a && IsLabelled(entry) {
        return None;
      }
      if Says(entry, prompt) {
        if !InWindow(entry, prompt, parse) {
          return None;
        }
        assert Owns(entries, a, index, prompt, parse);
        return Some(Target(state.fingerprint, state.startedAt, entry.id));
      }
    }
    target := None;
  }

  /** What is known of a requested interrupt, when it is confirmed by a verified process. */
  datatype Interrupt = Interrupt(confirmedByProcess: bool, interrupted: bool, turnFingerprint: string)

  /** `isActiveSourceTurnAlreadyInterrupted`: the interrupted turn is the active one, with no boundary between its
      marker and the active entry. */
  method IsAlreadyInterrupted(interrupt: Option<Interrupt>, state: TurnState, entries: seq<Entry>) returns (already: bool)
    ensures already <==>
              && interrupt.Some? && interrupt.value.confirmedByProcess && interrupt.value.interrupted
              && interrupt.value.turnFingerprint != "" && state.Active? && state.fingerprint != ""
              && (interrupt.value.turnFingerprint == state.fingerprint ||
                  var marker, active := IndexOf(entries, interrupt.value.turnFingerprint), IndexOf(entries, state.fingerprint);
                  marker.Some? && active.Some? && marker.value <= active.value
                  && forall k :: marker.value < k < active.value ==> !IsLabelled(entries[k]))
  {
    if interrupt.None? || !interrupt.value.confirmedByProcess || !interrupt.value.interrupted
       || interrupt.value.turnFingerprint == "" || !state.Active? || state.fingerprint == "" {
      return false;
    }
    if interrupt.value.turnFingerprint == state.fingerprint {
      return true;
    }
    var marker, active := IndexOf(entries, interrupt.value.turnFingerprint), IndexOf(entries, state.fingerprint);
    if marker.None? || active.None? || marker.value > active.value {
      return false;
    }
    for index := marker.value + 1 to active.value
      invariant forall k :: marker.value < k < index ==> !IsLabelled(entries[k])
    {
      if IsLabelled(entries[index]) {
        return false;
      }
    }
    already := true;
  }
}
