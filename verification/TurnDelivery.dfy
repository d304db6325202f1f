/** Every finished turn is told once: runs of `Projector` over the polls of one transcript.

    A transcript grows at its end; a poll reads a window of it.  `TerminalIds` are the ids of the entries that
    end a turn. */
module TurnDelivery {
  import opened Wrappers
  import opened Sequences
  import opened TurnState
  import opened Projector

  // ---- windows of a growing transcript

  predicate DistinctIds(history: seq<Entry>) {
    forall i, j :: 0 <= i < j < |history| ==> history[i].id != history[j].id
  }

  /** The ids of the entries from `a` to `b` that end a turn. */
  function TerminalIds(history: seq<Entry>, a: nat, b: nat): (ids: seq<string>)
    requires b <= |history|
  {
    if a >= b then [] else TerminalIds(history, a, b - 1) + if IsTerminal(history[b - 1]) then [history[b - 1].id] else []
  }

  lemma {:induction false} FingerprintsConcat(a: seq<TerminalTurn>, b: seq<TerminalTurn>)
    ensures Fingerprints(a + b) == Fingerprints(a) + Fingerprints(b)
  {
    if a == [] {
      assert a + b == b;
    } else {
      assert (a + b)[0] == a[0] && (a + b)[1..] == a[1..] + b;
      FingerprintsConcat(a[1..], b);
    }
  }

  lemma FingerprintsSnoc(turns: seq<TerminalTurn>, turn: TerminalTurn)
    ensures Fingerprints(turns + [turn]) == Fingerprints(turns) + [turn.fingerprint]
  {
    FingerprintsConcat(turns, [turn]);
  }

  lemma WindowStep(history: seq<Entry>, window: seq<Entry>, a: nat, n: nat)
    requires n < |window| && a + n < |history| && window[n] == history[a + n]
    requires Fingerprints(TurnsBefore(window, n)) == TerminalIds(history, a, a + n)
    ensures Fingerprints(TurnsBefore(window, n + 1)) == TerminalIds(history, a, a + n + 1)
  {
    TurnsBeforeNext(window, n);
    if IsTerminal(window[n]) {
      FingerprintsSnoc(TurnsBefore(window, n), TurnAt(window, n));
    }
  }

  predicate SameAt(history: seq<Entry>, window: seq<Entry>, a: nat, i: nat) {
    i < |window| && a + i < |history| && window[i] == history[a + i]
  }

  ghost predicate IsWindow(history: seq<Entry>, window: seq<Entry>, a: nat) {
    a + |window| <= |history| && forall i :: 0 <= i < |window| ==> SameAt(history, window, a, i)
  }

  /** What a window shows of the turns that ended are the ids in its range. */
  lemma {:induction false} WindowIds(history: seq<Entry>, window: seq<Entry>, a: nat, n: nat)
    requires IsWindow(history, window, a) && n <= |window|
    ensures Fingerprints(TurnsBefore(window, n)) == TerminalIds(history, a, a + n)
  {
    if n == 0 {
      NoTurns(window);
    } else {
      WindowIds(history, window, a, n - 1);
      assert SameAt(history, window, a, n - 1);
      WindowStep(history, window, a, n - 1);
    }
  }

  lemma NoTurns(window: seq<Entry>)
    ensures TurnsBefore(window, 0) == []
  {
  }

  lemma AllWindowIds(history: seq<Entry>, window: seq<Entry>, a: nat, b: nat)
    requires IsWindow(history, window, a) && b == a + |window|
    ensures Fingerprints(TerminalTurns(window)) == TerminalIds(history, a, b)
  {
    WindowIds(history, window, a, |window|);
  }

  lemma {:induction false} IdsSplit(history: seq<Entry>, a: nat, m: nat, b: nat)
    requires a <= m <= b <= |history|
    ensures TerminalIds(history, a, b) == TerminalIds(history, a, m) + TerminalIds(history, m, b)
    decreases b
  {
    if m < b {
      IdsSplit(history, a, m, b - 1);
      Associative(TerminalIds(history, a, m), TerminalIds(history, m, b - 1), if IsTerminal(history[b - 1]) then [history[b - 1].id] else []);
    } else {
      assert TerminalIds(history, a, b) + [] == TerminalIds(history, a, b);
    }
  }

  lemma {:induction false} IdsCome(history: seq<Entry>, a: nat, b: nat, id: string) returns (p: nat)
    requires b <= |history| && id in TerminalIds(history, a, b)
    ensures a <= p < b && IsTerminal(history[p]) && history[p].id == id
    decreases b
  {
    if id in TerminalIds(history, a, b - 1) {
      p := IdsCome(history, a, b - 1, id);
    } else {
      p := b - 1;
    }
  }

  lemma NotBefore(history: seq<Entry>, a: nat, b: nat)
    requires b < |history| && DistinctIds(history)
    ensures history[b].id !in TerminalIds(history, a, b)
  {
    if history[b].id in TerminalIds(history, a, b) {
      var p := IdsCome(history, a, b, history[b].id);
    }
  }

  lemma {:induction false} IdsDistinct(history: seq<Entry>, a: nat, b: nat)
    requires b <= |history| && DistinctIds(history)
    ensures NoRepeat(TerminalIds(history, a, b))
    decreases b
  {
    if a < b {
      IdsDistinct(history, a, b - 1);
      NotBefore(history, a, b - 1);
      NoRepeatSnoc(TerminalIds(history, a, b - 1), history[b - 1].id);
    }
  }

  function Without(ids: seq<string>, observed: seq<string>): seq<string> {
    if ids == [] then [] else (if ids[0] in observed then [] else [ids[0]]) + Without(ids[1..], observed)
  }

  lemma {:induction false} UnseenIds(turns: seq<TerminalTurn>, observed: seq<string>)
    ensures Fingerprints(Unseen(turns, observed)) == Without(Fingerprints(turns), observed)
  {
    if turns != [] {
      UnseenIds(turns[1..], observed);
    }
  }

  lemma {:induction false} WithoutConcat(a: seq<string>, b: seq<string>, observed: seq<string>)
    ensures Without(a + b, observed) == Without(a, observed) + Without(b, observed)
  {
    if a == [] {
      assert a + b == b;
    } else {
      assert (a + b)[0] == a[0] && (a + b)[1..] == a[1..] + b;
      WithoutConcat(a[1..], b, observed);
    }
  }

  lemma {:induction false} WithoutAll(ids: seq<string>, observed: seq<string>)
    ensures (forall id <- ids :: id in observed) ==> Without(ids, observed) == []
    ensures (forall id <- ids :: id !in observed) ==> Without(ids, observed) == ids
  {
    if ids != [] {
      WithoutAll(ids[1..], observed);
      assert forall id <- ids[1..] :: id in ids;
      assert ids[0] in ids;
    }
  }

  /** The overlap of a later window with an earlier one. */
  function Overlap(history: seq<Entry>, a: nat, seen: nat): seq<string>
    requires seen <= |history|
  {
    TerminalIds(history, a, seen)
  }

  function Max(a: nat, b: nat): nat {
    if a < b then b else a
  }

  /** Against the record of an earlier window, a later one finds new: the turns that ended since, after as many
      of the old ones it still shows as exceed the 64 the record keeps. */
  lemma FoundAgainst(history: seq<Entry>, a0: nat, b0: nat, a: nat, b: nat)
    requires DistinctIds(history) && a0 <= b0 <= b <= |history| && a0 <= a <= b
    ensures var observed := Newest(TerminalIds(history, a0, b0), MAX_FINGERPRINTS);
            var overlap := Overlap(history, a, b0);
            Without(TerminalIds(history, a, b), observed)
            == overlap[..|overlap| - |Newest(overlap, MAX_FINGERPRINTS)|] + TerminalIds(history, Max(a, b0), b)
  {
    var ids, overlap, since := TerminalIds(history, a0, b0), Overlap(history, a, b0), TerminalIds(history, Max(a, b0), b);
    var observed := Newest(ids, MAX_FINGERPRINTS);
    if a <= b0 {
      IdsSplit(history, a, b0, b);
      IdsSplit(history, a0, a, b0);
    } else {
      assert overlap == [] && ids + [] == ids;
    }
    SinceIsUnseen(history, a0, b0, Max(a, b0), b, observed);
    WithoutConcat(overlap, since, observed);
    WithoutAll(since, observed);
    IdsDistinct(history, a0, b0);
    if a <= b0 {
      OverlapUnseen(TerminalIds(history, a0, a), overlap);
    }
  }

  lemma NewestIn(ids: seq<string>, id: string)
    ensures id in Newest(ids, MAX_FINGERPRINTS) ==> id in ids
  {
  }

  /** Of distinct ids, one before the newest is not among them. */
  lemma BeforeNewest(ids: seq<string>, p: nat)
    requires p + |Newest(ids, MAX_FINGERPRINTS)| < |ids| && NoRepeat(ids)
    ensures ids[p] !in Newest(ids, MAX_FINGERPRINTS)
  {
    var newest := Newest(ids, MAX_FINGERPRINTS);
    forall m | 0 <= m < |newest| ensures newest[m] != ids[p] {
      assert newest[m] == ids[|ids| - |newest| + m];
    }
  }

  lemma SinceIsUnseen(history: seq<Entry>, a0: nat, b0: nat, m: nat, b: nat, observed: seq<string>)
    requires DistinctIds(history) && b0 <= m && b <= |history| && b0 <= |history|
    requires observed == Newest(TerminalIds(history, a0, b0), MAX_FINGERPRINTS)
    ensures forall id <- TerminalIds(history, m, b) :: id !in observed
  {
    forall id | id in TerminalIds(history, m, b) ensures id !in observed {
      NewestIn(TerminalIds(history, a0, b0), id);
      if id in observed {
        var p := IdsCome(history, m, b, id);
        var q := IdsCome(history, a0, b0, id);
      }
    }
  }

  lemma NewestHolds(before: seq<string>, overlap: seq<string>, k: nat)
    requires k < |Newest(overlap, MAX_FINGERPRINTS)|
    ensures Newest(overlap, MAX_FINGERPRINTS)[k] in Newest(before + overlap, MAX_FINGERPRINTS)
  {
    var all := before + overlap;
    var observed, known := Newest(all, MAX_FINGERPRINTS), Newest(overlap, MAX_FINGERPRINTS);
    assert observed[|observed| - |known| + k] == all[|all| - |known| + k] == known[k];
  }

  lemma OverlapUnseen(before: seq<string>, overlap: seq<string>)
    requires NoRepeat(before + overlap)
    ensures var kept := |Newest(overlap, MAX_FINGERPRINTS)|;
            Without(overlap, Newest(before + overlap, MAX_FINGERPRINTS)) == overlap[..|overlap| - kept]
  {
    var observed, known := Newest(before + overlap, MAX_FINGERPRINTS), Newest(overlap, MAX_FINGERPRINTS);
    var earlier := overlap[..|overlap| - |known|];
    assert overlap == earlier + known;
    WithoutConcat(earlier, known, observed);
    forall k | 0 <= k < |known| ensures known[k] in observed {
      NewestHolds(before, overlap, k);
    }
    forall k | 0 <= k < |earlier| ensures earlier[k] !in observed {
      assert (before + overlap)[|before| + k] == earlier[k];
      BeforeNewest(before + overlap, |before| + k);
    }
    WithoutAll(known, observed);
    WithoutAll(earlier, observed);
    assert earlier + [] == earlier;
  }

  // ---- polls of one transcript

  datatype Window = Window(from: nat, to: nat)

  predicate Later(w: Window, v: Window) {
    w.from <= v.from <= v.to && w.from <= w.to <= v.to
  }

  function WindowOf(history: seq<Entry>, w: Window): seq<Entry>
    requires w.from <= w.to <= |history|
  {
    history[w.from..w.to]
  }

  /** The ids of the turns that an update on window `v` finds new against the record of window `w`. */
  function FoundIds(history: seq<Entry>, w: Window, v: Window): seq<string>
    requires w.to <= |history| && v.to <= |history|
  {
    Without(TerminalIds(history, v.from, v.to), Newest(TerminalIds(history, w.from, w.to), MAX_FINGERPRINTS))
  }

  /** The ids of the turns that ended since window `w` and that window `v` shows. */
  function SinceIds(history: seq<Entry>, w: Window, v: Window): seq<string>
    requires v.to <= |history|
  {
    TerminalIds(history, Max(v.from, w.to), v.to)
  }

  // ---- what an update tells

  function TurnsOf(events: seq<Event>): seq<TerminalTurn> {
    if events == [] then [] else [events[0].turn] + TurnsOf(events[1..])
  }

  lemma {:induction false} TurnsOfEvents(session: Session, managed: seq<ManagedSession>, turns: seq<TerminalTurn>)
    ensures TurnsOf(Events(session, managed, turns)) == turns
  {
    if turns != [] {
      TurnsOfEvents(session, managed, turns[1..]);
    }
  }

  lemma {:induction false} TurnsOfConcat(a: seq<Event>, b: seq<Event>)
    ensures TurnsOf(a + b) == TurnsOf(a) + TurnsOf(b)
  {
    if a == [] {
      assert a + b == b;
    } else {
      assert (a + b)[0] == a[0] && (a + b)[1..] == a[1..] + b;
      TurnsOfConcat(a[1..], b);
    }
  }

  /** The fingerprints of the turns that events tell of. */
  function Told(events: seq<Event>): seq<string> {
    Fingerprints(TurnsOf(events))
  }

  lemma ToldConcat(a: seq<Event>, b: seq<Event>)
    ensures Told(a + b) == Told(a) + Told(b)
  {
    TurnsOfConcat(a, b);
    FingerprintsConcat(TurnsOf(a), TurnsOf(b));
  }

  lemma WindowIsWindow(history: seq<Entry>, w: Window)
    requires w.from <= w.to <= |history|
    ensures |WindowOf(history, w)| == w.to - w.from && IsWindow(history, WindowOf(history, w), w.from)
  {
  }

  lemma WindowTurns(history: seq<Entry>, w: Window)
    requires w.from <= w.to <= |history|
    ensures Fingerprints(TerminalTurns(WindowOf(history, w))) == TerminalIds(history, w.from, w.to)
  {
    WindowIsWindow(history, w);
    AllWindowIds(history, WindowOf(history, w), w.from, w.to);
  }

  lemma UpdateFinds(history: seq<Entry>, v: Window, session: Session, previous: Tracked, observed: seq<string>,
                    managed: seq<ManagedSession>, parse: string -> Option<int>)
    requires v.from <= v.to <= |history| && session.transcript == WindowOf(history, v)
    requires previous.owner == External && previous.fingerprints == Some(observed)
    ensures Told(Published(session, Some(previous), External, managed, parse)) == Without(TerminalIds(history, v.from, v.to), observed)
  {
    var turns := TerminalTurns(session.transcript);
    WindowTurns(history, v);
    ExternalPublishes(session, previous, managed, parse);
    UnseenIds(turns, observed);
    TurnsOfEvents(session, managed, Unseen(turns, observed));
  }

  /** The events of an external session's update are the turns found new. */
  lemma UpdateTells(history: seq<Entry>, w: Window, v: Window, session: Session, previous: Tracked,
                    managed: seq<ManagedSession>, parse: string -> Option<int>)
    requires w.from <= w.to <= |history| && v.from <= v.to <= |history| && session.transcript == WindowOf(history, v)
    requires previous.owner == External && previous.fingerprints == Some(Retained(TerminalTurns(WindowOf(history, w))))
    ensures Told(Published(session, Some(previous), External, managed, parse)) == FoundIds(history, w, v)
  {
    WindowTurns(history, w);
    UpdateFinds(history, v, session, previous, Retained(TerminalTurns(WindowOf(history, w))), managed, parse);
  }

  /** How many of the recorded turns that a window still shows are told again. */
  function Excess(history: seq<Entry>, w: Window, v: Window): nat
    requires w.to <= |history|
  {
    var shown := |TerminalIds(history, v.from, w.to)|;
    if shown <= MAX_FINGERPRINTS then 0 else shown - MAX_FINGERPRINTS
  }

  /** An update finds the turns that ended since the recorded window, after the oldest of those it still shows
      when more than 64 of them were recorded. */
  lemma FoundExactly(history: seq<Entry>, w: Window, v: Window)
    requires DistinctIds(history) && v.to <= |history| && Later(w, v)
    ensures Excess(history, w, v) <= |TerminalIds(history, v.from, w.to)|
    ensures FoundIds(history, w, v) == TerminalIds(history, v.from, w.to)[..Excess(history, w, v)] + SinceIds(history, w, v)
  {
    FoundAgainst(history, w.from, w.to, v.from, v.to);
  }

  // ---- a run of polls

  datatype Poll = Poll(window: Window, managed: seq<ManagedSession>, clock: Clock, now: string)

  /** The transcript as the polls see it, and the session it belongs to. */
  datatype Chat = Chat(session: Session, history: seq<Entry>) {
    function Seen(w: Window): Session
      requires w.from <= w.to <= |history|
    {
      session.(transcript := WindowOf(history, w))
    }
  }

  predicate InRange(history: seq<Entry>, polls: seq<Poll>) {
    forall k :: 0 <= k < |polls| ==> polls[k].window.from <= polls[k].window.to <= |history|
  }

  /** Windows that only move forward. */
  ghost predicate Monotone(history: seq<Entry>, polls: seq<Poll>) {
    && InRange(history, polls)
    && (forall j, k :: 0 <= j < k < |polls| ==> Later(polls[j].window, polls[k].window))
  }

  /** The record after a poll. */
  function RecordOf(chat: Chat, poll: Poll): Tracked
    requires poll.window.from <= poll.window.to <= |chat.history|
  {
    Observed(chat.Seen(poll.window), External, poll.clock, poll.now)
  }

  /** What a poll publishes after the one before it. */
  function PollEvents(chat: Chat, before: Poll, poll: Poll): seq<Event>
    requires before.window.from <= before.window.to <= |chat.history| && poll.window.from <= poll.window.to <= |chat.history|
  {
    Published(chat.Seen(poll.window), Some(RecordOf(chat, before)), External, poll.managed, poll.clock.parse)
  }

  lemma PollTells(chat: Chat, before: Poll, poll: Poll)
    requires before.window.from <= before.window.to <= |chat.history| && poll.window.from <= poll.window.to <= |chat.history|
    ensures Told(PollEvents(chat, before, poll)) == FoundIds(chat.history, before.window, poll.window)
  {
    UpdateTells(chat.history, before.window, poll.window, chat.Seen(poll.window), RecordOf(chat, before), poll.managed, poll.clock.parse);
  }

  /** What `TurnEventProjector.Update` publishes over the polls: the first sets the baseline, each later one is
      compared with the record of the one before it. */
  ghost function RunEvents(chat: Chat, polls: seq<Poll>): seq<Event>
    requires InRange(chat.history, polls)
  {
    if |polls| == 0 then []
    else if |polls| == 1 then Published(chat.Seen(polls[0].window), None, External, polls[0].managed, polls[0].clock.parse)
    else RunEvents(chat, polls[..|polls| - 1]) + PollEvents(chat, polls[|polls| - 2], polls[|polls| - 1])
  }

  /** A poll after the first shows entry `p`. */
  ghost predicate Shown(polls: seq<Poll>, p: nat) {
    exists k :: 1 <= k < |polls| && Shows(polls[k], p)
  }

  predicate Shows(poll: Poll, p: nat) {
    poll.window.from <= p < poll.window.to
  }

  /** The ids of the entries from `a` to `b` that end a turn and are shown after the baseline, in their order. */
  ghost function ShownIds(history: seq<Entry>, polls: seq<Poll>, a: nat, b: nat): (ids: seq<string>)
    requires b <= |history|
  {
    if a >= b then []
    else ShownIds(history, polls, a, b - 1) + if IsTerminal(history[b - 1]) && Shown(polls, b - 1) then [history[b - 1].id] else []
  }

  lemma {:induction false} ShownSplit(history: seq<Entry>, polls: seq<Poll>, a: nat, m: nat, b: nat)
    requires a <= m <= b <= |history|
    ensures ShownIds(history, polls, a, b) == ShownIds(history, polls, a, m) + ShownIds(history, polls, m, b)
    decreases b
  {
    if m < b {
      ShownSplit(history, polls, a, m, b - 1);
      Associative(ShownIds(history, polls, a, m), ShownIds(history, polls, m, b - 1),
                  if IsTerminal(history[b - 1]) && Shown(polls, b - 1) then [history[b - 1].id] else []);
    } else {
      assert ShownIds(history, polls, a, b) + [] == ShownIds(history, polls, a, b);
    }
  }

  /** One more poll shows nothing more of what lies before the end of the last. */
  lemma ShownBefore(history: seq<Entry>, polls: seq<Poll>, p: nat)
    requires Monotone(history, polls) && |polls| >= 2 && polls[0].window.to <= p < polls[|polls| - 2].window.to
    ensures Shown(polls, p) <==> Shown(polls[..|polls| - 1], p)
  {
    var n := |polls| - 1;
    if Shown(polls, p) {
      var k :| 1 <= k < |polls| && Shows(polls[k], p);
      if k == n {
        assert n > 1 && Later(polls[n - 1].window, polls[n].window);
        assert Shows(polls[..n][n - 1], p);
      } else {
        assert Shows(polls[..n][k], p);
      }
    }
    if Shown(polls[..n], p) {
      var k :| 1 <= k < n && Shows(polls[..n][k], p);
      assert Shows(polls[k], p);
    }
  }

  lemma {:induction false} ShownIdsBefore(history: seq<Entry>, polls: seq<Poll>, a: nat, b: nat)
    requires Monotone(history, polls) && |polls| >= 2 && polls[0].window.to <= a && b <= polls[|polls| - 2].window.to
    ensures ShownIds(history, polls, a, b) == ShownIds(history, polls[..|polls| - 1], a, b)
    decreases b
  {
    if a < b {
      ShownIdsBefore(history, polls, a, b - 1);
      ShownBefore(history, polls, b - 1);
    }
  }

  /** Beyond the end of the one before, the last poll alone decides. */
  lemma ShownLast(history: seq<Entry>, polls: seq<Poll>, p: nat)
    requires Monotone(history, polls) && |polls| >= 2 && polls[|polls| - 2].window.to <= p
    ensures Shown(polls, p) <==> Shows(polls[|polls| - 1], p)
  {
    var n := |polls| - 1;
    forall k | 1 <= k < n ensures !Shows(polls[k], p) {
      assert k < n - 1 ==> Later(polls[k].window, polls[n - 1].window);
    }
  }

  lemma {:induction false} ShownIdsLast(history: seq<Entry>, polls: seq<Poll>, b: nat)
    requires Monotone(history, polls) && |polls| >= 2
    requires var w, v := polls[|polls| - 2].window, polls[|polls| - 1].window; w.to <= b <= v.to
    ensures var w, v := polls[|polls| - 2].window, polls[|polls| - 1].window;
            ShownIds(history, polls, w.to, b) == TerminalIds(history, Max(v.from, w.to), b)
    decreases b
  {
    var w, v := polls[|polls| - 2].window, polls[|polls| - 1].window;
    if w.to < b {
      ShownIdsLast(history, polls, b - 1);
      ShownLast(history, polls, b - 1);
    }
  }

  /** How many turns a run tells again. */
  ghost function Repeats(history: seq<Entry>, polls: seq<Poll>): nat
    requires InRange(history, polls)
  {
    if |polls| < 2 then 0
    else Repeats(history, polls[..|polls| - 1]) + Excess(history, polls[|polls| - 2].window, polls[|polls| - 1].window)
  }

  /** The ids shown after the baseline. */
  ghost function Due(history: seq<Entry>, polls: seq<Poll>): seq<string>
    requires InRange(history, polls) && polls != []
  {
    ShownIds(history, polls, polls[0].window.to, polls[|polls| - 1].window.to)
  }

  lemma DueStep(history: seq<Entry>, polls: seq<Poll>)
    requires Monotone(history, polls) && |polls| >= 2
    ensures Due(history, polls)
            == Due(history, polls[..|polls| - 1]) + SinceIds(history, polls[|polls| - 2].window, polls[|polls| - 1].window)
  {
    var n := |polls| - 1;
    var w, v := polls[n - 1].window, polls[n].window;
    assert Later(w, v);
    assert n > 1 ==> Later(polls[0].window, w);
    ShownSplit(history, polls, polls[0].window.to, w.to, v.to);
    ShownIdsBefore(history, polls, polls[0].window.to, w.to);
    ShownIdsLast(history, polls, v.to);
  }

  lemma ToldNext(all: seq<Event>, events: seq<Event>, chat: Chat, before: Poll, poll: Poll)
    requires before.window.from <= before.window.to <= |chat.history| && poll.window.from <= poll.window.to <= |chat.history|
    requires all == events + PollEvents(chat, before, poll)
    ensures Told(all) == Told(events) + FoundIds(chat.history, before.window, poll.window)
  {
    PollTells(chat, before, poll);
    ToldConcat(events, PollEvents(chat, before, poll));
  }

  lemma RunNext(chat: Chat, polls: seq<Poll>)
    requires InRange(chat.history, polls) && |polls| >= 2
    ensures RunEvents(chat, polls) == RunEvents(chat, polls[..|polls| - 1]) + PollEvents(chat, polls[|polls| - 2], polls[|polls| - 1])
  {
  }

  lemma RunStep(chat: Chat, polls: seq<Poll>)
    requires InRange(chat.history, polls) && |polls| >= 2
    ensures Told(RunEvents(chat, polls))
            == Told(RunEvents(chat, polls[..|polls| - 1])) + FoundIds(chat.history, polls[|polls| - 2].window, polls[|polls| - 1].window)
  {
    var n := |polls| - 1;
    RunNext(chat, polls);
    ToldNext(RunEvents(chat, polls), RunEvents(chat, polls[..n]), chat, polls[n - 1], polls[n]);
  }

  lemma ToldLength(told: seq<string>, due: seq<string>, again: seq<string>, since: seq<string>)
    requires |told| >= |due|
    ensures |told + (again + since)| == |told| + |again| + |since|
    ensures told + (again + since) == due + since <==> told == due && again == []
  {
    if told + (again + since) == due + since {
      assert |told| == |due| && |again| == 0;
      assert told == (told + (again + since))[..|told|];
      assert due == (due + since)[..|told|];
    }
  }

  lemma {:induction false} RunTells(chat: Chat, polls: seq<Poll>)
    requires DistinctIds(chat.history) && Monotone(chat.history, polls) && polls != []
    ensures |Told(RunEvents(chat, polls))| == |Due(chat.history, polls)| + Repeats(chat.history, polls)
    ensures Told(RunEvents(chat, polls)) == Due(chat.history, polls) <==> Repeats(chat.history, polls) == 0
    decreases |polls|
  {
    if |polls| == 1 {
      assert RunEvents(chat, polls) == [];
    } else {
      var n := |polls| - 1;
      var w, v := polls[n - 1].window, polls[n].window;
      assert Later(w, v);
      RunTells(chat, polls[..n]);
      RunStep(chat, polls);
      DueStep(chat.history, polls);
      FoundExactly(chat.history, w, v);
      ToldLength(Told(RunEvents(chat, polls[..n])), Due(chat.history, polls[..n]),
                 TerminalIds(chat.history, v.from, w.to)[..Excess(chat.history, w, v)], SinceIds(chat.history, w, v));
    }
  }

  lemma {:induction false} RepeatsExactly(history: seq<Entry>, polls: seq<Poll>)
    requires InRange(history, polls)
    ensures Repeats(history, polls) == 0 <==>
            forall k :: 1 <= k < |polls| ==> Excess(history, polls[k - 1].window, polls[k].window) == 0
    decreases |polls|
  {
    if |polls| >= 2 {
      RepeatsExactly(history, polls[..|polls| - 1]);
    }
  }

  /** A run tells each turn shown after the baseline exactly once and in the order of the transcript, just when
      no window still shows more than 64 of the turns that the window before it showed. */
  lemma ToldOnceExactly(chat: Chat, polls: seq<Poll>)
    requires DistinctIds(chat.history) && Monotone(chat.history, polls) && polls != []
    ensures Told(RunEvents(chat, polls)) == Due(chat.history, polls) <==>
            forall k :: 1 <= k < |polls| ==> |TerminalIds(chat.history, polls[k].window.from, polls[k - 1].window.to)| <= MAX_FINGERPRINTS
  {
    RunTells(chat, polls);
    RepeatsExactly(chat.history, polls);
    forall k | 1 <= k < |polls|
      ensures Excess(chat.history, polls[k - 1].window, polls[k].window) == 0
              <==> |TerminalIds(chat.history, polls[k].window.from, polls[k - 1].window.to)| <= MAX_FINGERPRINTS
    {
    }
  }

  /** Entry `p`, with this id, ends a turn and is shown after the baseline. */
  ghost predicate DueAt(history: seq<Entry>, polls: seq<Poll>, p: nat, id: string) {
    p < |history| && IsTerminal(history[p]) && Shown(polls, p) && history[p].id == id
  }

  lemma {:induction false} ShownIdsHold(history: seq<Entry>, polls: seq<Poll>, a: nat, b: nat, p: nat, id: string)
    requires a <= p < b <= |history| && DueAt(history, polls, p, id)
    ensures id in ShownIds(history, polls, a, b)
    decreases b
  {
    if p < b - 1 {
      ShownIdsHold(history, polls, a, b - 1, p, id);
    }
  }

  lemma {:induction false} ShownIdsCome(history: seq<Entry>, polls: seq<Poll>, a: nat, b: nat, id: string) returns (p: nat)
    requires b <= |history| && id in ShownIds(history, polls, a, b)
    ensures a <= p < b && DueAt(history, polls, p, id)
    decreases b
  {
    if id in ShownIds(history, polls, a, b - 1) {
      p := ShownIdsCome(history, polls, a, b - 1, id);
    } else {
      p := b - 1;
    }
  }

  lemma NotShownBefore(history: seq<Entry>, polls: seq<Poll>, a: nat, b: nat)
    requires b < |history| && DistinctIds(history)
    ensures history[b].id !in ShownIds(history, polls, a, b)
  {
    if history[b].id in ShownIds(history, polls, a, b) {
      var p := ShownIdsCome(history, polls, a, b, history[b].id);
    }
  }

  lemma {:induction false} ShownIdsDistinct(history: seq<Entry>, polls: seq<Poll>, a: nat, b: nat)
    requires b <= |history| && DistinctIds(history)
    ensures NoRepeat(ShownIds(history, polls, a, b))
    decreases b
  {
    if a < b {
      ShownIdsDistinct(history, polls, a, b - 1);
      NotShownBefore(history, polls, a, b - 1);
      NoRepeatSnoc(ShownIds(history, polls, a, b - 1), history[b - 1].id);
    }
  }

  /** What is due: the id of every entry that ends a turn, that a poll after the first shows and that lies beyond the
      first window; each once. */
  lemma DueExactly(history: seq<Entry>, polls: seq<Poll>, p: nat)
    requires DistinctIds(history) && Monotone(history, polls) && polls != [] && p < |history|
    ensures history[p].id in Due(history, polls) <==> polls[0].window.to <= p && DueAt(history, polls, p, history[p].id)
    ensures NoRepeat(Due(history, polls))
  {
    var a, b := polls[0].window.to, polls[|polls| - 1].window.to;
    ShownIdsDistinct(history, polls, a, b);
    if history[p].id in Due(history, polls) {
      var q := ShownIdsCome(history, polls, a, b, history[p].id);
    }
    if Shown(polls, p) {
      var k :| 1 <= k < |polls| && Shows(polls[k], p);
      assert k < |polls| - 1 ==> Later(polls[k].window, polls[|polls| - 1].window);
    }
    if a <= p && DueAt(history, polls, p, history[p].id) {
      ShownIdsHold(history, polls, a, b, p, history[p].id);
    }
  }

  lemma {:induction false} SinceBaseline(history: seq<Entry>, polls: seq<Poll>)
    requires DistinctIds(history) && Monotone(history, polls) && polls != []
    requires forall k :: 1 <= k < |polls| ==> polls[k].window.from <= polls[k - 1].window.to
    ensures Due(history, polls) == TerminalIds(history, polls[0].window.to, polls[|polls| - 1].window.to)
    decreases |polls|
  {
    if |polls| > 1 {
      var n := |polls| - 1;
      SinceBaseline(history, polls[..n]);
      DueStep(history, polls);
      assert Later(polls[n - 1].window, polls[n].window);
      assert n > 1 ==> Later(polls[0].window, polls[n - 1].window);
      IdsSplit(history, polls[0].window.to, polls[n - 1].window.to, polls[n].window.to);
    }
  }

  // ---- the projector and a restart

  /** What poll `k` publishes. */
  function StepEvents(chat: Chat, polls: seq<Poll>, k: nat): seq<Event>
    requires InRange(chat.history, polls) && k < |polls|
  {
    Published(chat.Seen(polls[k].window), RecordBefore(chat, polls, k), External, polls[k].managed, polls[k].clock.parse)
  }

  function RecordBefore(chat: Chat, polls: seq<Poll>, k: nat): Option<Tracked>
    requires InRange(chat.history, polls) && k <= |polls|
  {
    if k == 0 then None else Some(RecordOf(chat, polls[k - 1]))
  }

  method FollowOne(projector: TurnEventProjector, chat: Chat, polls: seq<Poll>, k: nat, age: string -> int)
    requires InRange(chat.history, polls) && k < |polls| && Find(projector.records, chat.session.id) == RecordBefore(chat, polls, k)
    modifies projector
    ensures projector.events == old(projector.events) + StepEvents(chat, polls, k)
    ensures Find(projector.records, chat.session.id) == Some(RecordOf(chat, polls[k]))
  {
    ghost var before := projector.records;
    var published := projector.Update(chat.Seen(polls[k].window), External, polls[k].managed, polls[k].clock, polls[k].now, age);
    PutFinds(before, chat.session.id, RecordOf(chat, polls[k]), chat.session.id);
  }

  lemma FollowNext(chat: Chat, polls: seq<Poll>, k: nat)
    requires InRange(chat.history, polls) && k < |polls|
    ensures RunEvents(chat, polls[..k + 1]) == RunEvents(chat, polls[..k]) + StepEvents(chat, polls, k)
  {
    assert polls[..k + 1][..k] == polls[..k];
  }

  /** The polls of one external session by a projector that has no record of it. */
  method Follow(projector: TurnEventProjector, chat: Chat, polls: seq<Poll>, age: string -> int)
    requires InRange(chat.history, polls) && Find(projector.records, chat.session.id) == None
    modifies projector
    ensures projector.events == old(projector.events) + RunEvents(chat, polls)
    ensures Find(projector.records, chat.session.id) == RecordBefore(chat, polls, |polls|)
  {
    ghost var told := [];
    for k := 0 to |polls|
      invariant told == RunEvents(chat, polls[..k])
      invariant projector.events == old(projector.events) + told
      invariant Find(projector.records, chat.session.id) == RecordBefore(chat, polls, k)
    {
      FollowOne(projector, chat, polls, k, age);
      FollowNext(chat, polls, k);
      Associative(old(projector.events), told, StepEvents(chat, polls, k));
      told := told + StepEvents(chat, polls, k);
    }
    assert polls[..|polls|] == polls;
  }

  // ---- a restart

  lemma {:induction false} WithoutUnseen(ids: seq<string>, observed: seq<string>)
    ensures forall id <- Without(ids, observed) :: id !in observed
  {
    if ids != [] {
      WithoutUnseen(ids[1..], observed);
    }
  }

  /** The empty fingerprint, which is not read back. */
  function Unread(ids: seq<string>): seq<string> {
    if "" in ids then [""] else []
  }

  lemma {:induction false} WithoutNonEmpty(ids: seq<string>, observed: seq<string>)
    requires NoRepeat(ids) && forall id <- ids :: id in observed <==> id != ""
    ensures Without(ids, observed) == Unread(ids)
  {
    if ids != [] {
      assert forall id <- ids[1..] :: id in ids;
      assert ids[0] in ids && ids[0] !in ids[1..];
      WithoutNonEmpty(ids[1..], observed);
    }
  }

  /** What is kept of the record is what a window still shows of the newest turns recorded. */
  lemma KnownIsObserved(history: seq<Entry>, w: Window, v: Window)
    requires DistinctIds(history) && v.to <= |history| && Later(w, v)
    ensures var known := TerminalIds(history, v.from, w.to)[Excess(history, w, v)..];
            NoRepeat(known) && forall id <- known :: id in Newest(TerminalIds(history, w.from, w.to), MAX_FINGERPRINTS)
  {
    var overlap := TerminalIds(history, v.from, w.to);
    var known := Newest(overlap, MAX_FINGERPRINTS);
    assert known == overlap[Excess(history, w, v)..];
    IdsDistinct(history, v.from, w.to);
    if v.from <= w.to {
      IdsSplit(history, w.from, v.from, w.to);
      forall k | 0 <= k < |known| ensures known[k] in Newest(TerminalIds(history, w.from, w.to), MAX_FINGERPRINTS) {
        NewestHolds(TerminalIds(history, w.from, v.from), overlap, k);
      }
    }
  }

  lemma OverlapAndSince(history: seq<Entry>, w: Window, v: Window)
    requires v.to <= |history| && Later(w, v)
    ensures TerminalIds(history, v.from, v.to) == TerminalIds(history, v.from, w.to) + SinceIds(history, w, v)
  {
    if v.from <= w.to {
      IdsSplit(history, v.from, w.to, v.to);
    }
  }

  lemma NewStaysUnread(history: seq<Entry>, w: Window, v: Window, restored: seq<string>)
    requires DistinctIds(history) && v.to <= |history| && Later(w, v)
    requires forall id <- restored :: id in Newest(TerminalIds(history, w.from, w.to), MAX_FINGERPRINTS)
    ensures var told := TerminalIds(history, v.from, w.to)[..Excess(history, w, v)];
            Without(told, restored) == told && Without(SinceIds(history, w, v), restored) == SinceIds(history, w, v)
  {
    var observed := Newest(TerminalIds(history, w.from, w.to), MAX_FINGERPRINTS);
    var told, since := TerminalIds(history, v.from, w.to)[..Excess(history, w, v)], SinceIds(history, w, v);
    FoundExactly(history, w, v);
    WithoutUnseen(TerminalIds(history, v.from, v.to), observed);
    assert forall id :: id in told || id in since ==> id in told + since;
    WithoutAll(told, restored);
    WithoutAll(since, restored);
  }

  lemma WithoutParts(overlap: seq<string>, excess: nat, since: seq<string>, observed: seq<string>)
    requires excess <= |overlap| && Without(overlap[..excess], observed) == overlap[..excess] && Without(since, observed) == since
    requires Without(overlap[excess..], observed) == Unread(overlap[excess..])
    ensures Without(overlap + since, observed) == overlap[..excess] + Unread(overlap[excess..]) + since
  {
    assert overlap == overlap[..excess] + overlap[excess..];
    WithoutConcat(overlap, since, observed);
    WithoutConcat(overlap[..excess], overlap[excess..], observed);
  }

  /** What is read back of the record of a window. */
  function ReadBack(history: seq<Entry>, w: Window): seq<string>
    requires w.to <= |history|
  {
    Normalized(Newest(TerminalIds(history, w.from, w.to), MAX_FINGERPRINTS))
  }

  lemma ReadBackHolds(history: seq<Entry>, w: Window)
    requires w.to <= |history|
    ensures forall id :: id in ReadBack(history, w) <==> id in Newest(TerminalIds(history, w.from, w.to), MAX_FINGERPRINTS) && id != ""
  {
    NormalizedHolds(Newest(TerminalIds(history, w.from, w.to), MAX_FINGERPRINTS));
  }

  lemma ReadBackIsOld(history: seq<Entry>, w: Window)
    requires w.to <= |history|
    ensures forall id <- ReadBack(history, w) :: id in Newest(TerminalIds(history, w.from, w.to), MAX_FINGERPRINTS)
  {
    ReadBackHolds(history, w);
  }

  lemma KnownReadBack(history: seq<Entry>, w: Window, v: Window)
    requires DistinctIds(history) && v.to <= |history| && Later(w, v)
    ensures var known := TerminalIds(history, v.from, w.to)[Excess(history, w, v)..];
            Without(known, ReadBack(history, w)) == Unread(known)
  {
    KnownIsObserved(history, w, v);
    ReadBackHolds(history, w);
    WithoutNonEmpty(TerminalIds(history, v.from, w.to)[Excess(history, w, v)..], ReadBack(history, w));
  }

  /** Against a record that was read back, the turns that ended since are found, after those that are told again in
      any case and the turn with the empty fingerprint. */
  lemma RestoredFinds(history: seq<Entry>, w: Window, v: Window)
    requires DistinctIds(history) && v.to <= |history| && Later(w, v)
    ensures var overlap, excess := TerminalIds(history, v.from, w.to), Excess(history, w, v);
            Without(TerminalIds(history, v.from, v.to), ReadBack(history, w))
            == overlap[..excess] + Unread(overlap[excess..]) + SinceIds(history, w, v)
  {
    KnownReadBack(history, w, v);
    ReadBackIsOld(history, w);
    NewStaysUnread(history, w, v, ReadBack(history, w));
    OverlapAndSince(history, w, v);
    WithoutParts(TerminalIds(history, v.from, w.to), Excess(history, w, v), SinceIds(history, w, v), ReadBack(history, w));
  }

  /** After a restart from the record of an earlier poll, however old, a poll tells every turn it shows that ended
      since; what it repeats it showed then: the turns told again in any case, and one whose fingerprint is empty. */
  lemma RestartSkipsNothing(chat: Chat, before: Poll, poll: Poll, records: seq<Record>, written: Clock, age: string -> int, read: Clock)
    requires DistinctIds(chat.history) && poll.window.to <= |chat.history| && Later(before.window, poll.window)
    requires before.window.from <= before.window.to
    requires Keyed(records) && Record(chat.session.id, RecordOf(chat, before)) in Persisted(records, written, age)
    requires !Expired(before.now, read)
    ensures var previous := Find(Loaded([], Persisted(records, written, age), read), chat.session.id);
            var overlap, excess := TerminalIds(chat.history, poll.window.from, before.window.to), Excess(chat.history, before.window, poll.window);
            Told(Published(chat.Seen(poll.window), previous, External, poll.managed, poll.clock.parse))
            == overlap[..excess] + Unread(overlap[excess..]) + SinceIds(chat.history, before.window, poll.window)
  {
    RestartFinds(records, chat.session.id, RecordOf(chat, before), written, age, read);
    WindowTurns(chat.history, before.window);
    UpdateFinds(chat.history, poll.window, chat.Seen(poll.window), Restored(RecordOf(chat, before)),
                ReadBack(chat.history, before.window), poll.managed, poll.clock.parse);
    RestoredFinds(chat.history, before.window, poll.window);
  }
}
