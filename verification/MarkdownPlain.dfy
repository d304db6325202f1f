/** Links on plain lines (packages/protocol/src/markdown.ts:295-325, 327-570): without titles and angle brackets the
    scanner pairs exactly the balanced parentheses, and the bracket pass finds exactly the balanced brackets. */
module MarkdownPlain {
  import opened Wrappers
  import Text
  import opened MarkdownScan
  import opened MarkdownTargets

  // ---- balance

  /** What a character adds to the balance of unescaped `open` and `close`. */
  function Weight(text: string, i: nat, open: char, close: char): int
    requires i < |text|
  {
    if Escaped(text, i) then 0 else if text[i] == open then 1 else if text[i] == close then -1 else 0
  }

  /** How many more unescaped `open` than `close` there are from `j` to `i`. */
  function Net(text: string, j: nat, i: nat, open: char, close: char): int
    requires i <= |text|
    decreases i
  {
    if j >= i then 0 else Net(text, j, i - 1, open, close) + Weight(text, i - 1, open, close)
  }

  // ---- link labels

  /** The brackets open before `i` are the most that any stretch up to `i` leaves open. */
  lemma {:induction false} OpenIsMost(text: string, i: nat)
    requires i <= |text|
    ensures forall j: nat :: j <= i ==> Net(text, j, i, '[', ']') <= BracketsTo(text, i).0
    ensures exists j: nat :: j <= i && Net(text, j, i, '[', ']') == BracketsTo(text, i).0
  {
    if i == 0 {
      assert Net(text, 0, 0, '[', ']') == 0;
    } else {
      OpenIsMost(text, i - 1);
      var j: nat :| j <= i - 1 && Net(text, j, i - 1, '[', ']') == BracketsTo(text, i - 1).0;
      assert Net(text, j, i, '[', ']') == BracketsTo(text, i - 1).0 + Weight(text, i - 1, '[', ']');
      assert Net(text, i, i, '[', ']') == 0;
      forall k: nat | k <= i ensures Net(text, k, i, '[', ']') <= BracketsTo(text, i).0 {
      }
    }
  }

  /** An unescaped `]` with an unescaped `[` before it that nothing in between closes. */
  ghost predicate ClosesLabel(text: string, k: nat) {
    k < |text| && text[k] == ']' && !Escaped(text, k) && exists j: nat :: j < k && Net(text, j, k, '[', ']') > 0
  }

  /** These are the brackets that close a label. */
  lemma {:induction false} LabelsExactly(text: string, i: nat, k: nat)
    requires i <= |text|
    ensures k in BracketsTo(text, i).1 <==> k < i && ClosesLabel(text, k)
  {
    if i > 0 {
      LabelsExactly(text, i - 1, k);
      OpenIsMost(text, i - 1);
      if k == i - 1 {
        var j: nat :| j <= k && Net(text, j, k, '[', ']') == BracketsTo(text, k).0;
        assert Net(text, k, k, '[', ']') == 0;
      }
    }
  }

  // ---- parentheses

  /** No title and no angle bracket begins here. */
  predicate Plain(text: string, k: nat)
    requires k < |text|
  {
    && !((IsQuote(text[k]) || text[k] == '(') && SpaceBefore(text, k))
    && !(text[k] == '<' && k > 0 && text[k - 1] == '(')
  }

  function Depth(text: string, j: nat, i: nat): int
    requires i <= |text|
  {
    Net(text, j, i, '(', ')')
  }

  predicate Opens(text: string, o: nat) {
    o < |text| && text[o] == '(' && !Escaped(text, o)
  }

  /** The parenthesis at `o` is open up to `i`. */
  predicate StaysOpen(text: string, o: nat, i: nat)
    requires i <= |text|
  {
    o < i && Opens(text, o) && forall m: nat :: o < m <= i ==> Depth(text, o, m) > 0
  }

  /** The parentheses at `o` and `c` belong together: all between them are balanced. */
  predicate Matches(text: string, o: nat, c: nat) {
    c < |text| && StaysOpen(text, o, c) && Depth(text, o, c + 1) == 0
  }

  /** No context is being read, and none was of a link on the line that begins at `a`. */
  ghost predicate Contextless(s: Scan, a: nat) {
    && s.angle.None? && s.quote.None? && s.title.None? && (forall o <- s.contexts :: o < a)
    && (forall o <- s.angleBy :: o < a) && (forall o <- s.quoteBy :: o < a) && (forall o <- s.titleBy :: o < a)
  }

  predicate From(openings: seq<nat>, a: nat) {
    forall o <- openings :: a <= o
  }

  /** What a plain character does. */
  ghost predicate PlainMove(s: Scan, n: Scan, i: nat, weight: int) {
    if weight == 1 then n.openings == s.openings + [i] && n.closures == s.closures
    else if weight == -1 && s.openings != [] then
      && n.openings == s.openings[..|s.openings| - 1]
      && n.closures == s.closures[s.openings[|s.openings| - 1] := i]
    else n.openings == s.openings && n.closures == s.closures
  }

  lemma NoPhase(text: string, i: nat, s: Scan, a: nat)
    requires i < |text| && Stacks(text, i, s) && Contextless(s, a) && From(s.openings, a)
    ensures Lookup(s.contexts, Last(s.active)).None?
  {
    assert s.active != [] ==> s.active[|s.active| - 1] in s.active;
  }

  lemma PlainClose(s: Scan, i: nat, a: nat)
    requires s.openings != [] && Contextless(s, a) && From(s.openings, a)
    ensures Contextless(Close(s, i), a) && PlainMove(s, Close(s, i), i, -1)
  {
    assert s.openings[|s.openings| - 1] in s.openings;
  }

  lemma NoAngle(text: string, i: nat, s: Scan)
    requires i < |text| && Plain(text, i) && text[i] == '<' && Stacks(text, i, s)
    ensures i == 0 || Last(s.openings) != Some(i - 1)
  {
    assert s.openings != [] ==> s.openings[|s.openings| - 1] in s.openings;
  }

  lemma PlainOpen(text: string, i: nat, s: Scan, a: nat)
    requires i < |text| && Plain(text, i) && text[i] == '(' && Contextless(s, a)
    ensures Contextless(InText(text, i, s), a) && PlainMove(s, InText(text, i, s), i, 1)
  {
  }

  lemma PlainOther(text: string, i: nat, s: Scan, a: nat)
    requires i < |text| && Plain(text, i) && text[i] != '(' && text[i] != ')' && Stacks(text, i, s)
    ensures InText(text, i, s) == s
  {
    if text[i] == '<' {
      NoAngle(text, i, s);
    }
  }

  lemma PlainAct(text: string, i: nat, s: Scan, a: nat)
    requires i < |text| && Plain(text, i) && a <= i && Stacks(text, i, s) && Contextless(s, a) && From(s.openings, a)
    ensures Contextless(InText(text, i, s), a)
    ensures PlainMove(s, InText(text, i, s), i, if text[i] == '(' then 1 else if text[i] == ')' then -1 else 0)
  {
    if text[i] == '(' {
      PlainOpen(text, i, s, a);
    } else if text[i] != ')' {
      PlainOther(text, i, s, a);
    } else if s.openings != [] {
      PlainClose(s, i, a);
    }
  }

  lemma PlainNext(text: string, i: nat, s: Scan, a: nat, proven: Option<set<nat>>)
    requires i < |text| && text[i] != '\n' && Plain(text, i) && a <= i && Stacks(text, i, s) && Contextless(s, a) && From(s.openings, a)
    ensures Contextless(Next(text, i, s, proven), a) && PlainMove(s, Next(text, i, s, proven), i, Weight(text, i, '(', ')'))
  {
    NoPhase(text, i, s, a);
    if !s.escaped && text[i] != '\\' {
      PlainAct(text, i, s, a);
    }
  }

  // ---- the pairs of a plain line

  /** The stack and the pairs of the line from `a` up to `i`. */
  ghost predicate Balanced(text: string, a: nat, i: nat, s: Scan)
    requires i <= |text|
  {
    && From(s.openings, a)
    && (forall k {:trigger s.openings[k]} :: 0 <= k < |s.openings| ==>
          StaysOpen(text, s.openings[k], i) && Depth(text, s.openings[k], i) == |s.openings| - k)
    && (forall o: nat :: a <= o < i && Opens(text, o) && o !in s.openings ==>
          o in s.closures && s.closures[o] < i && Matches(text, o, s.closures[o]))
  }

  lemma StaysOneMore(text: string, o: nat, i: nat)
    requires i < |text| && StaysOpen(text, o, i) && Depth(text, o, i + 1) > 0
    ensures StaysOpen(text, o, i + 1)
  {
  }

  lemma BalancedOpens(text: string, a: nat, i: nat, s: Scan, n: Scan)
    requires a <= i < |text| && Balanced(text, a, i, s) && Weight(text, i, '(', ')') == 1 && PlainMove(s, n, i, 1)
    ensures Balanced(text, a, i + 1, n)
  {
    assert Depth(text, i, i) == 0 && Depth(text, i, i + 1) == 1;
    forall k | 0 <= k < |n.openings|
      ensures StaysOpen(text, n.openings[k], i + 1) && Depth(text, n.openings[k], i + 1) == |n.openings| - k
    {
      if k < |s.openings| {
        assert n.openings[k] == s.openings[k];
        StaysOneMore(text, s.openings[k], i);
      }
    }
    assert n.openings[|s.openings|] == i;
    assert forall o <- s.openings :: o in n.openings;
  }

  lemma TopGoes(stack: seq<nat>)
    requires stack != []
    ensures forall o <- stack :: o == stack[|stack| - 1] || o in stack[..|stack| - 1]
    ensures forall o <- stack[..|stack| - 1] :: o in stack
  {
    assert stack == stack[..|stack| - 1] + [stack[|stack| - 1]];
  }

  lemma BalancedCloses(text: string, a: nat, i: nat, s: Scan, n: Scan)
    requires a <= i < |text| && Balanced(text, a, i, s) && Increasing(s.openings, i)
    requires Weight(text, i, '(', ')') == -1 && PlainMove(s, n, i, -1)
    ensures Balanced(text, a, i + 1, n)
  {
    if s.openings != [] {
      var top := s.openings[|s.openings| - 1];
      assert Matches(text, top, i);
      forall k | 0 <= k < |n.openings|
        ensures StaysOpen(text, n.openings[k], i + 1) && Depth(text, n.openings[k], i + 1) == |n.openings| - k
      {
        assert n.openings[k] == s.openings[k];
        StaysOneMore(text, s.openings[k], i);
      }
      TopGoes(s.openings);
      assert forall o <- n.openings :: o in s.openings;
    }
  }

  lemma BalancedStays(text: string, a: nat, i: nat, s: Scan, n: Scan)
    requires a <= i < |text| && Balanced(text, a, i, s) && Weight(text, i, '(', ')') == 0 && PlainMove(s, n, i, 0)
    ensures Balanced(text, a, i + 1, n)
  {
    forall k | 0 <= k < |n.openings|
      ensures StaysOpen(text, n.openings[k], i + 1) && Depth(text, n.openings[k], i + 1) == |n.openings| - k
    {
      assert n.openings[k] == s.openings[k];
      StaysOneMore(text, s.openings[k], i);
    }
  }

  lemma BalancedNext(text: string, a: nat, i: nat, s: Scan, n: Scan)
    requires a <= i < |text| && Balanced(text, a, i, s) && Increasing(s.openings, i)
    requires PlainMove(s, n, i, Weight(text, i, '(', ')'))
    ensures Balanced(text, a, i + 1, n)
  {
    if Weight(text, i, '(', ')') == 1 {
      BalancedOpens(text, a, i, s, n);
    } else if Weight(text, i, '(', ')') == -1 {
      BalancedCloses(text, a, i, s, n);
    } else {
      BalancedStays(text, a, i, s, n);
    }
  }

  // ---- lines

  /** `text[a..b]` is a line. */
  predicate IsLine(text: string, a: nat, b: nat) {
    a <= b <= |text| && (a == 0 || text[a - 1] == '\n') && (b == |text| || text[b] == '\n') && SameLine(text, a, b)
  }

  predicate PlainTo(text: string, a: nat, i: nat)
    requires i <= |text|
  {
    forall k: nat :: a <= k < i ==> Plain(text, k)
  }

  predicate KeysBelow(s: Scan, i: nat) {
    forall o <- s.contexts :: o < i
  }

  lemma ActiveBelow(text: string, i: nat, s: Scan)
    requires i <= |text| && Stacks(text, i, s)
    ensures s.active != [] ==> s.active[|s.active| - 1] < i
  {
  }

  lemma KeysAtQuote(text: string, i: nat, s: Scan)
    requires i < |text| && Stacks(text, i, s) && KeysBelow(s, i) && IsQuote(text[i])
    ensures KeysBelow(InText(text, i, s), i + 1)
  {
    ActiveBelow(text, i, s);
  }

  lemma KeysAtOpening(text: string, i: nat, s: Scan)
    requires i < |text| && Stacks(text, i, s) && KeysBelow(s, i) && text[i] == '('
    ensures KeysBelow(InText(text, i, s), i + 1)
  {
    ActiveBelow(text, i, s);
  }

  lemma KeysElsewhere(text: string, i: nat, s: Scan)
    requires i < |text| && KeysBelow(s, i) && !IsQuote(text[i]) && text[i] != '('
    ensures KeysBelow(InText(text, i, s), i + 1)
  {
  }

  lemma KeysInText(text: string, i: nat, s: Scan)
    requires i < |text| && Stacks(text, i, s) && KeysBelow(s, i)
    ensures KeysBelow(InText(text, i, s), i + 1)
  {
    if IsQuote(text[i]) {
      KeysAtQuote(text, i, s);
    } else if text[i] == '(' {
      KeysAtOpening(text, i, s);
    } else {
      KeysElsewhere(text, i, s);
    }
  }

  lemma KeysSpoilt(text: string, i: nat, s: Scan)
    requires i < |text| && Stacks(text, i, s) && KeysBelow(s, i)
    ensures KeysBelow(SpoilByText(text, i, s), i) && KeysBelow(SpoilByEscape(text, i, s), i)
  {
    ActiveBelow(text, i, s);
  }

  lemma KeysInAngle(text: string, i: nat, s: Scan, proven: Option<set<nat>>)
    requires i < |text| && Stacks(text, i, s) && Current(text, s) && KeysBelow(s, i) && s.angle.Some?
    ensures KeysBelow(InAngle(text, i, s, proven), i + 1)
  {
    ActiveBelow(text, i, s);
  }

  lemma KeysInQuote(text: string, i: nat, s: Scan, proven: Option<set<nat>>)
    requires i < |text| && Stacks(text, i, s) && Current(text, s) && KeysBelow(s, i) && s.quote.Some?
    ensures KeysBelow(InQuote(text, i, s, proven), i + 1)
  {
    ActiveBelow(text, i, s);
  }

  lemma KeysInTitle(text: string, i: nat, s: Scan, proven: Option<set<nat>>)
    requires i < |text| && Stacks(text, i, s) && Current(text, s) && KeysBelow(s, i) && s.title.Some?
    ensures KeysBelow(InTitle(text, i, s, proven), i + 1)
  {
    ActiveBelow(text, i, s);
  }

  lemma KeysAct(text: string, i: nat, s: Scan, proven: Option<set<nat>>)
    requires i < |text| && Stacks(text, i, s) && Current(text, s) && KeysBelow(s, i)
    ensures KeysBelow(Act(text, i, s, proven), i + 1)
  {
    if s.angle.Some? {
      KeysInAngle(text, i, s, proven);
    } else if s.quote.Some? {
      KeysInQuote(text, i, s, proven);
    } else if s.title.Some? {
      KeysInTitle(text, i, s, proven);
    } else {
      KeysSpoilt(text, i, s);
      SpoiltStacks(text, i, s);
      KeysInText(text, i, SpoilByText(text, i, s));
    }
  }

  lemma KeysNext(text: string, i: nat, s: Scan, proven: Option<set<nat>>)
    requires i < |text| && Stacks(text, i, s) && Current(text, s) && KeysBelow(s, i)
    ensures KeysBelow(Next(text, i, s, proven), i + 1)
  {
    if text[i] != '\n' && (s.escaped || text[i] == '\\') {
      KeysSpoilt(text, i, s);
    } else if text[i] != '\n' {
      KeysAct(text, i, s, proven);
    }
  }

  lemma SpoiltStacks(text: string, i: nat, s: Scan)
    requires i < |text| && Stacks(text, i, s)
    ensures Stacks(text, i, SpoilByText(text, i, s))
  {
  }

  /** Contexts are kept for parentheses read so far. */
  lemma {:induction false} ScanKeys(text: string, i: nat, proven: Option<set<nat>>)
    requires i <= |text|
    ensures KeysBelow(ScanTo(text, i, proven), i)
  {
    if i > 0 {
      ScanKeys(text, i - 1, proven);
      ScanValid(text, i - 1, proven);
      KeysNext(text, i - 1, ScanTo(text, i - 1, proven), proven);
    }
  }

  /** A line begins with no parenthesis open and no context read. */
  lemma LineBegins(text: string, a: nat, proven: Option<set<nat>>)
    requires a <= |text| && (a == 0 || text[a - 1] == '\n')
    ensures var s := ScanTo(text, a, proven); Contextless(s, a) && s.openings == []
  {
    if a > 0 {
      ScanKeys(text, a - 1, proven);
      ScanValid(text, a - 1, proven);
    }
  }

  /** On a plain line the scanner's stack and pairs are those of the balance. */
  lemma {:induction false} LineUpTo(text: string, a: nat, i: nat, proven: Option<set<nat>>)
    requires a <= i <= |text| && (a == 0 || text[a - 1] == '\n') && SameLine(text, a, i) && PlainTo(text, a, i)
    ensures Contextless(ScanTo(text, i, proven), a) && Balanced(text, a, i, ScanTo(text, i, proven))
    decreases i
  {
    if i == a {
      LineBegins(text, a, proven);
    } else {
      LineUpTo(text, a, i - 1, proven);
      ScanValid(text, i - 1, proven);
      LineOneMore(text, a, i - 1, ScanTo(text, i - 1, proven), ScanTo(text, i, proven), proven);
    }
  }

  lemma LineOneMore(text: string, a: nat, i: nat, s: Scan, n: Scan, proven: Option<set<nat>>)
    requires a <= i < |text| && text[i] != '\n' && Plain(text, i) && Stacks(text, i, s) && n == Next(text, i, s, proven)
    requires Contextless(s, a) && Balanced(text, a, i, s)
    ensures Contextless(n, a) && Balanced(text, a, i + 1, n)
  {
    PlainNext(text, i, s, a, proven);
    BalancedNext(text, a, i, s, n);
  }

  predicate PairKept(s: Scan, n: Scan, o: nat) {
    (o in n.closures <==> o in s.closures) && (o in s.closures ==> n.closures[o] == s.closures[o])
  }

  lemma PairAtClose(s: Scan, i: nat, o: nat)
    requires s.openings != [] && Last(s.openings) != Some(o)
    ensures PairKept(s, Close(s, i), o)
  {
  }

  lemma NoPairAtQuote(text: string, i: nat, s: Scan)
    requires i < |text| && IsQuote(text[i])
    ensures InText(text, i, s).closures == s.closures
  {
  }

  lemma NoPairAtOpening(text: string, i: nat, s: Scan)
    requires i < |text| && text[i] == '('
    ensures InText(text, i, s).closures == s.closures
  {
    assert OpenLink(s, i).closures == s.closures;
    assert !IsQuote(text[i]);
  }

  lemma NoPairInText(text: string, i: nat, s: Scan)
    requires i < |text| && text[i] != ')'
    ensures InText(text, i, s).closures == s.closures
  {
    if IsQuote(text[i]) {
      NoPairAtQuote(text, i, s);
    } else if text[i] == '(' {
      NoPairAtOpening(text, i, s);
    }
  }

  lemma PairInText(text: string, i: nat, s: Scan, o: nat)
    requires i < |text| && Last(s.openings) != Some(o)
    ensures PairKept(s, InText(text, i, s), o)
  {
    if text[i] != ')' {
      NoPairInText(text, i, s);
    } else if s.openings != [] {
      PairAtClose(s, i, o);
    }
  }

  lemma PairInTitle(text: string, i: nat, s: Scan, proven: Option<set<nat>>, o: nat)
    requires i < |text| && Last(s.openings) != Some(o) && s.title.Some?
    ensures PairKept(s, InTitle(text, i, s, proven), o)
  {
  }

  lemma NoPairInAngle(text: string, i: nat, s: Scan, proven: Option<set<nat>>)
    requires i < |text| && s.angle.Some?
    ensures InAngle(text, i, s, proven).closures == s.closures
  {
    if text[i] == '(' {
      NoPairAtNested(text, i, s, proven);
    }
  }

  lemma NoPairAtNested(text: string, i: nat, s: Scan, proven: Option<set<nat>>)
    requires i < |text| && s.angle.Some? && text[i] == '('
    ensures InAngle(text, i, s, proven).closures == s.closures
  {
  }

  lemma NoPairInQuote(text: string, i: nat, s: Scan, proven: Option<set<nat>>)
    requires i < |text| && s.quote.Some?
    ensures InQuote(text, i, s, proven).closures == s.closures
  {
  }

  lemma NoPairSpoilt(text: string, i: nat, s: Scan)
    requires i < |text|
    ensures SpoilByText(text, i, s).closures == s.closures && SpoilByText(text, i, s).openings == s.openings
    ensures SpoilByEscape(text, i, s).closures == s.closures
  {
  }

  lemma PairInAct(text: string, i: nat, s: Scan, proven: Option<set<nat>>, o: nat)
    requires i < |text| && Last(s.openings) != Some(o)
    ensures PairKept(s, Act(text, i, s, proven), o)
  {
    if s.angle.Some? {
      NoPairInAngle(text, i, s, proven);
    } else if s.quote.Some? {
      NoPairInQuote(text, i, s, proven);
    } else if s.title.Some? {
      PairInTitle(text, i, s, proven, o);
    } else {
      NoPairSpoilt(text, i, s);
      PairInText(text, i, SpoilByText(text, i, s), o);
    }
  }

  /** Only the top of the stack is ever paired. */
  lemma PairsAtTop(text: string, i: nat, s: Scan, proven: Option<set<nat>>, o: nat)
    requires i < |text| && Last(s.openings) != Some(o)
    ensures PairKept(s, Next(text, i, s, proven), o)
  {
    if text[i] != '\n' {
      if s.escaped || text[i] == '\\' {
        NoPairSpoilt(text, i, s);
      } else {
        PairInAct(text, i, s, proven, o);
      }
    }
  }

  lemma PairAtLineEnd(text: string, i: nat, s: Scan, proven: Option<set<nat>>, o: nat)
    requires i < |text| && text[i] == '\n'
    ensures PairKept(s, Next(text, i, s, proven), o)
  {
  }

  lemma PairKeptTwice(s: Scan, m: Scan, n: Scan, o: nat)
    requires PairKept(s, m, o) && PairKept(m, n, o)
    ensures PairKept(s, n, o)
  {
  }

  lemma BehindLine(text: string, b: nat, i: nat, s: Scan, o: nat)
    requires b < i <= |text| && text[b] == '\n' && o < b && Stacks(text, i, s)
    ensures Last(s.openings) != Some(o)
  {
    assert s.openings != [] ==> s.openings[|s.openings| - 1] in s.openings;
  }

  lemma PairBehindLine(text: string, b: nat, i: nat, s: Scan, n: Scan, proven: Option<set<nat>>, o: nat)
    requires b <= i < |text| && text[b] == '\n' && o < b && Stacks(text, i, s) && n == Next(text, i, s, proven)
    ensures PairKept(s, n, o)
  {
    if b < i {
      BehindLine(text, b, i, s, o);
      PairsAtTop(text, i, s, proven, o);
    } else {
      PairAtLineEnd(text, i, s, proven, o);
    }
  }

  lemma {:induction false} PairKeptAlong(at: nat -> Scan, i: nat, j: nat, o: nat)
    requires i <= j && forall k: nat :: i <= k < j ==> PairKept(at(k), at(k + 1), o)
    ensures PairKept(at(i), at(j), o)
    decreases j
  {
    if i < j {
      PairKeptAlong(at, i, j - 1, o);
      assert PairKept(at(j - 1), at(j - 1 + 1), o);
      PairKeptTwice(at(i), at(j - 1), at(j), o);
    }
  }

  /** Behind its line a parenthesis is paired as it was. */
  lemma PairsStay(text: string, a: nat, b: nat, proven: Option<set<nat>>, o: nat)
    requires IsLine(text, a, b) && o < b
    ensures PairKept(ScanTo(text, b, proven), ScanTo(text, |text|, proven), o)
  {
    var at := ScanOf(text, proven);
    forall k: nat | b <= k < |text| ensures PairKept(at(k), at(k + 1), o) {
      ScanValid(text, k, proven);
      PairBehindLine(text, b, k, ScanTo(text, k, proven), ScanTo(text, k + 1, proven), proven, o);
    }
    PairKeptAlong(at, b, |text|, o);
  }

  lemma MatchesOnce(text: string, o: nat, c: nat, d: nat)
    requires Matches(text, o, c) && Matches(text, o, d)
    ensures c == d
  {
  }

  /** On a plain line the scanner pairs exactly the parentheses that belong together. */
  lemma PlainPairs(text: string, a: nat, b: nat, o: nat, c: nat)
    requires IsLine(text, a, b) && PlainTo(text, a, b) && a <= o < b
    ensures var closures := Scanned(text).closures; o in closures && closures[o] == c <==> c < b && Matches(text, o, c)
  {
    var proven := Some(ScanTo(text, |text|, None).valid);
    var s := ScanTo(text, b, proven);
    LineUpTo(text, a, b, proven);
    PairsStay(text, a, b, proven, o);
    ScanValid(text, b, proven);
    PairsOfLine(text, a, b, s, o, c);
  }

  lemma PairsOfLine(text: string, a: nat, b: nat, s: Scan, o: nat, c: nat)
    requires a <= o < b <= |text| && Balanced(text, a, b, s) && Pairs(text, b, s)
    ensures o in s.closures && s.closures[o] == c <==> c < b && Matches(text, o, c)
  {
    if o in s.openings {
      var k: nat :| k < |s.openings| && s.openings[k] == o;
      assert StaysOpen(text, o, b);
    } else if Opens(text, o) && c < b && Matches(text, o, c) {
      MatchesOnce(text, o, c, s.closures[o]);
    }
  }

  // ---- links

  lemma NoTitleSyntax(text: string, start: nat, c: nat)
    requires start <= c <= |text| && PlainTo(text, start, c)
    ensures !HasTitleSyntax(text[start..c])
  {
    var value := text[start..c];
    forall i: nat | i < |value| ensures !TitleSyntaxAt(value, i) {
      if i + 1 < |value| {
        assert Plain(text, start + i + 1);
        assert value[i] == text[start + i] && value[i + 1] == text[start + i + 1];
      }
    }
  }

  ghost predicate IsClosed(text: string, opening: nat, b: nat) {
    exists c: nat :: c < b && Matches(text, opening, c)
  }

  lemma PlainCloses(text: string, a: nat, b: nat, opening: nat)
    requires IsLine(text, a, b) && PlainTo(text, a, b) && a <= opening < b
    ensures opening in Scanned(text).closures <==> IsClosed(text, opening, b)
    ensures opening in Scanned(text).closures ==> opening < Scanned(text).closures[opening] < b
  {
    var closures := Scanned(text).closures;
    if opening in closures {
      PlainPairs(text, a, b, opening, closures[opening]);
    }
    if c: nat :| c < b && Matches(text, opening, c) {
      PlainPairs(text, a, b, opening, c);
    }
  }

  /** A link on a plain line to a drive. */
  ghost predicate PlainLink(text: string, o: nat, b: nat) {
    && o + 2 < |text| && text[o + 1] == '(' && ClosesLabel(text, o) && DriveAt(text, o + 2) && IsClosed(text, o + 1, b)
  }

  /** On a plain line exactly the links to a drive can be rewritten, whose brackets and parentheses are balanced. */
  lemma PlainRewritable(text: string, a: nat, b: nat, o: nat)
    requires IsLine(text, a, b) && PlainTo(text, a, b) && a <= o && o + 1 < b
    ensures RewritableAt(text)(o) <==> PlainLink(text, o, b)
  {
    LabelsExactly(text, |text|, o);
    PlainCloses(text, a, b, o + 1);
    var closures := Scanned(text).closures;
    if o + 1 in closures {
      NoTitleSyntax(text, o + 2, closures[o + 1]);
      assert o + 2 < b ==> Plain(text, o + 2);
      PlainDecides(text, o, BracketsTo(text, |text|).1, closures, Scanned(text).valid);
    }
  }

  lemma PlainDecides(text: string, o: nat, labels: set<nat>, closures: map<nat, nat>, valid: set<nat>)
    requires o + 1 in closures && o + 2 <= closures[o + 1] < |text| && !HasTitleSyntax(text[o + 2..closures[o + 1]])
    requires o + 2 < closures[o + 1] ==> Plain(text, o + 2)
    ensures Rewritable(text, o, labels, closures, valid) <==>
            text[o] == ']' && text[o + 1] == '(' && o in labels && DriveAt(text, o + 2)
  {
  }

  // ---- links with a quoted title

  lemma ClosedIsNotTop(text: string, i: nat, s: Scan, o: nat)
    requires i <= |text| && Pairs(text, i, s) && o in s.closures
    ensures Last(s.openings) != Some(o)
  {
    assert s.openings != [] ==> s.openings[|s.openings| - 1] in s.openings;
    assert IsPair(text, o, s.closures[o], i);
  }

  /** What is paired stays so, and what is valid. */
  predicate Keeps(s: Scan, n: Scan, o: nat) {
    o in s.closures && o in s.valid ==> PairKept(s, n, o) && o in n.valid
  }

  lemma ValidAtClose(s: Scan, i: nat)
    requires s.openings != []
    ensures s.valid <= Close(s, i).valid
  {
  }

  lemma ValidInText(text: string, i: nat, s: Scan)
    requires i < |text|
    ensures s.valid <= InText(text, i, s).valid
  {
    if text[i] == ')' && s.openings != [] {
      ValidAtClose(s, i);
    } else if IsQuote(text[i]) {
      ValidAtQuote(text, i, s);
    }
  }

  lemma ValidAtQuote(text: string, i: nat, s: Scan)
    requires i < |text| && IsQuote(text[i])
    ensures InText(text, i, s).valid == s.valid
  {
  }

  lemma ValidInContext(text: string, i: nat, s: Scan, proven: Option<set<nat>>)
    requires i < |text|
    ensures s.quote.Some? ==> InQuote(text, i, s, proven).valid == s.valid
    ensures s.title.Some? ==> InTitle(text, i, s, proven).valid == s.valid
  {
  }

  lemma ValidInAngle(text: string, i: nat, s: Scan, proven: Option<set<nat>>)
    requires i < |text|
    ensures s.angle.Some? ==> InAngle(text, i, s, proven).valid == s.valid
    ensures SpoilByText(text, i, s).valid == s.valid && SpoilByEscape(text, i, s).valid == s.valid
  {
  }

  lemma ValidGrows(text: string, i: nat, s: Scan, proven: Option<set<nat>>)
    requires i < |text|
    ensures s.valid <= Next(text, i, s, proven).valid
  {
    ValidInAngle(text, i, s, proven);
    ValidInContext(text, i, s, proven);
    ValidInText(text, i, SpoilByText(text, i, s));
  }

  lemma KeepsStep(text: string, i: nat, s: Scan, n: Scan, proven: Option<set<nat>>, o: nat)
    requires i < |text| && Pairs(text, i, s) && n == Next(text, i, s, proven)
    ensures Keeps(s, n, o)
  {
    if o in s.closures {
      ClosedIsNotTop(text, i, s, o);
      PairsAtTop(text, i, s, proven, o);
      ValidGrows(text, i, s, proven);
    }
  }

  lemma KeepsTwice(s: Scan, m: Scan, n: Scan, o: nat)
    requires Keeps(s, m, o) && Keeps(m, n, o)
    ensures Keeps(s, n, o)
  {
  }

  lemma {:induction false} KeepsAlong(at: nat -> Scan, i: nat, j: nat, o: nat)
    requires i <= j && forall k: nat :: i <= k < j ==> Keeps(at(k), at(k + 1), o)
    ensures Keeps(at(i), at(j), o)
    decreases j
  {
    if i < j {
      KeepsAlong(at, i, j - 1, o);
      assert Keeps(at(j - 1), at(j - 1 + 1), o);
      KeepsTwice(at(i), at(j - 1), at(j), o);
    }
  }

  lemma ValidStays(text: string, i: nat, proven: Option<set<nat>>, o: nat)
    requires i <= |text|
    ensures Keeps(ScanTo(text, i, proven), ScanTo(text, |text|, proven), o)
  {
    var at := ScanOf(text, proven);
    forall k: nat | i <= k < |text| ensures Keeps(at(k), at(k + 1), o) {
      ScanValid(text, k, proven);
      KeepsStep(text, k, ScanTo(text, k, proven), ScanTo(text, k + 1, proven), proven, o);
    }
    KeepsAlong(at, i, |text|, o);
  }

  /** A quoted title from `q` to `e` that ends the link whose parenthesis is at `o`, all plain before it. */
  ghost predicate Titled(text: string, a: nat, o: nat, q: nat, e: nat) {
    && (a == 0 || (a <= |text| && text[a - 1] == '\n')) && a <= o < q < e && e + 1 < |text| && SameLine(text, a, e + 2)
    && PlainTo(text, a, q) && OpensLink(text, o) && StaysOpen(text, o, q) && Depth(text, o, q) == 1
    && IsQuote(text[q]) && SpaceBefore(text, q) && text[e] == text[q] && !Escaped(text, e) && text[e + 1] == ')'
    && forall k :: q < k < e && text[k] == text[q] ==> Escaped(text, k)
  }

  /** The link is the innermost one. */
  lemma TitledIsTop(text: string, a: nat, q: nat, s: Scan, o: nat)
    requires q <= |text| && Stacks(text, q, s) && Balanced(text, a, q, s) && a <= o < q
    requires OpensLink(text, o) && StaysOpen(text, o, q) && Depth(text, o, q) == 1
    ensures Last(s.openings) == Some(o) && Last(s.active) == Some(o)
  {
    assert o in s.openings;
    var k: nat :| k < |s.openings| && s.openings[k] == o;
    assert o in s.active;
    LastIsMost(s.openings, s.active, q, o);
  }

  lemma LastIsMost(openings: seq<nat>, active: seq<nat>, q: nat, o: nat)
    requires Increasing(openings, q) && Increasing(active, q) && (forall x <- active :: x in openings)
    requires Last(openings) == Some(o) && o in active
    ensures Last(active) == Some(o)
  {
    var last := active[|active| - 1];
    assert last in active;
    var i: nat :| i < |openings| && openings[i] == last;
    var j: nat :| j < |active| && active[j] == o;
  }

  /** The state inside the title. */
  function Inside(s: Scan, o: nat, delimiter: char): Scan {
    s.(contexts := s.contexts[o := InsideQuote], quote := Some(Quote(delimiter, o)))
  }

  lemma TitleBegins(text: string, q: nat, s: Scan, o: nat, proven: Option<set<nat>>)
    requires q < |text| && IsQuote(text[q]) && SpaceBefore(text, q) && !s.escaped
    requires s.angle.None? && s.quote.None? && s.title.None? && o !in s.contexts && Last(s.active) == Some(o)
    ensures Next(text, q, s, proven) == Inside(s, o, text[q])
  {
  }

  predicate Closed(proven: Option<set<nat>>, o: nat) {
    proven.None? || o in proven.value
  }

  lemma TitleGoesOn(text: string, k: nat, s: Scan, o: nat, delimiter: char, proven: Option<set<nat>>)
    requires k < |text| && text[k] != '\n' && Closed(proven, o) && (text[k] == delimiter ==> s.escaped) && IsQuote(delimiter)
    requires s.angle.None? && s.quote == Some(Quote(delimiter, o)) && Last(s.active) == Some(o) && Lookup(s.contexts, Some(o)) == Some(InsideQuote)
    ensures Next(text, k, s, proven) == s.(escaped := !s.escaped && text[k] == '\\')
  {
  }

  lemma {:induction false} TitleLasts(text: string, q: nat, e: nat, k: nat, base: Scan, o: nat, proven: Option<set<nat>>)
    requires q < k <= e < |text| && SameLine(text, q, e) && Closed(proven, o) && IsQuote(text[q])
    requires forall j :: q < j < e && text[j] == text[q] ==> Escaped(text, j)
    requires ScanTo(text, q + 1, proven) == base && !base.escaped
    requires base.angle.None? && base.quote == Some(Quote(text[q], o)) && Last(base.active) == Some(o)
    requires Lookup(base.contexts, Some(o)) == Some(InsideQuote)
    ensures ScanTo(text, k, proven) == base.(escaped := Escaped(text, k))
    decreases k
  {
    if k > q + 1 {
      TitleLasts(text, q, e, k - 1, base, o, proven);
      TitleGoesOn(text, k - 1, ScanTo(text, k - 1, proven), o, text[q], proven);
    }
  }

  lemma TitleEnds(text: string, e: nat, s: Scan, o: nat, proven: Option<set<nat>>)
    requires e < |text| && IsQuote(text[e]) && !s.escaped && s.angle.None? && s.quote == Some(Quote(text[e], o))
    requires Last(s.active) == Some(o) && Lookup(s.contexts, Some(o)) == Some(InsideQuote)
    ensures Next(text, e, s, proven) == s.(quote := None, contexts := s.contexts[o := AfterTitle])
  {
  }

  lemma LinkEnds(text: string, c: nat, s: Scan, o: nat, proven: Option<set<nat>>)
    requires c < |text| && text[c] == ')' && !s.escaped && s.angle.None? && s.quote.None? && s.title.None?
    requires Last(s.active) == Some(o) && Last(s.openings) == Some(o) && Lookup(s.contexts, Some(o)) == Some(AfterTitle)
    ensures PairedValid(Next(text, c, s, proven), o, c)
  {
  }

  lemma LinkEndsAt(text: string, c: nat, s: Scan, o: nat, proven: Option<set<nat>>)
    requires c < |text| && text[c] == ')' && s == ScanTo(text, c, proven)
    requires !s.escaped && s.angle.None? && s.quote.None? && s.title.None?
    requires Last(s.active) == Some(o) && Last(s.openings) == Some(o) && Lookup(s.contexts, Some(o)) == Some(AfterTitle)
    ensures PairedValid(ScanTo(text, c + 1, proven), o, c)
  {
    LinkEnds(text, c, s, o, proven);
  }

  /** The parenthesis at `o` is paired with the one at `c`, in a valid context. */
  predicate PairedValid(s: Scan, o: nat, c: nat) {
    o in s.closures && s.closures[o] == c && o in s.valid
  }

  lemma KeepsPaired(s: Scan, n: Scan, o: nat, c: nat)
    requires PairedValid(s, o, c) && Keeps(s, n, o)
    ensures PairedValid(n, o, c)
  {
  }

  lemma PairedStays(text: string, i: nat, proven: Option<set<nat>>, o: nat, c: nat)
    requires i <= |text| && PairedValid(ScanTo(text, i, proven), o, c)
    ensures PairedValid(ScanTo(text, |text|, proven), o, c)
  {
    ValidStays(text, i, proven, o);
    KeepsPaired(ScanTo(text, i, proven), ScanTo(text, |text|, proven), o, c);
  }

  /** The title of link `o` is being read, and nothing else is open. */
  predicate ReadsTitle(s: Scan, o: nat, delimiter: char) {
    && !s.escaped && s.angle.None? && s.title.None? && s.quote == Some(Quote(delimiter, o))
    && Last(s.active) == Some(o) && Last(s.openings) == Some(o) && Lookup(s.contexts, Some(o)) == Some(InsideQuote)
  }

  lemma TitledOpens(text: string, a: nat, o: nat, q: nat, e: nat, proven: Option<set<nat>>)
    requires Titled(text, a, o, q, e)
    ensures ReadsTitle(ScanTo(text, q + 1, proven), o, text[q])
  {
    var s := ScanTo(text, q, proven);
    LineUpTo(text, a, q, proven);
    ScanValid(text, q, proven);
    TitledIsTop(text, a, q, s, o);
    TitleBegins(text, q, s, o, proven);
  }

  lemma TitledEnds(text: string, e: nat, base: Scan, s: Scan, o: nat, proven: Option<set<nat>>)
    requires e + 1 < |text| && IsQuote(text[e]) && !Escaped(text, e) && text[e + 1] == ')'
    requires ReadsTitle(base, o, text[e]) && s == base.(escaped := Escaped(text, e)) && s == ScanTo(text, e, proven)
    ensures PairedValid(ScanTo(text, |text|, proven), o, e + 1)
  {
    TitleEnds(text, e, s, o, proven);
    LinkEndsAt(text, e + 1, s.(quote := None, contexts := s.contexts[o := AfterTitle]), o, proven);
    PairedStays(text, e + 2, proven, o, e + 1);
  }

  /** The scanner pairs the link's parenthesis with the one behind the title, and calls its context valid. */
  lemma TitledCloses(text: string, a: nat, o: nat, q: nat, e: nat, proven: Option<set<nat>>)
    requires Titled(text, a, o, q, e) && Closed(proven, o)
    ensures PairedValid(ScanTo(text, |text|, proven), o, e + 1)
  {
    var base := ScanTo(text, q + 1, proven);
    TitledOpens(text, a, o, q, e, proven);
    TitleLasts(text, q, e, e, base, o, proven);
    TitledEnds(text, e, base, ScanTo(text, e, proven), o, proven);
  }

  lemma TitledPaired(text: string, a: nat, o: nat, q: nat, e: nat)
    requires Titled(text, a, o, q, e)
    ensures PairedValid(Scanned(text), o, e + 1)
  {
    TitledCloses(text, a, o, q, e, None);
    TitledCloses(text, a, o, q, e, Some(ScanTo(text, |text|, None).valid));
  }

  /** The first space of those right before `r`. */
  function SpacesStart(value: string, r: nat): (k: nat)
    requires r <= |value|
    ensures k <= r && (forall j :: k <= j < r ==> Text.IsSpace(value[j])) && (k > 0 ==> !Text.IsSpace(value[k - 1]))
  {
    if r > 0 && Text.IsSpace(value[r - 1]) then SpacesStart(value, r - 1) else r
  }

  /** A value that ends in a quoted title from `r` on. */
  predicate EndsInTitle(value: string, r: nat) {
    && 0 < r < |value| - 1 && Text.IsSpace(value[r - 1]) && !Text.IsSpace(value[0]) && IsQuote(value[r]) && value[|value| - 1] == value[r]
    && IsTitleText(value, r, |value|)
    && (forall j :: 0 <= j < r ==> !IsLineEnd(value[j]))
    && (forall j :: 0 < j < r && Text.IsSpace(value[j - 1]) ==> !IsQuote(value[j]) && value[j] != '(')
  }

  lemma SpacesEndAt(value: string, k: nat, r: nat)
    requires k <= r < |value| && (forall j :: k <= j < r ==> Text.IsSpace(value[j])) && !Text.IsSpace(value[r])
    ensures SpacesEnd(value, k) == r
  {
  }

  lemma NoTitleAt(value: string, r: nat, j: nat)
    requires EndsInTitle(value, r) && j < SpacesStart(value, r)
    ensures !TitleAt(value, j)
  {
    if Text.IsSpace(value[j]) {
      var p := SpacesEnd(value, j);
      assert p < SpacesStart(value, r) by {
        assert !Text.IsSpace(value[SpacesStart(value, r) - 1]);
      }
      assert Text.IsSpace(value[p - 1]);
    }
  }

  /** The title splits off with the spaces before it. */
  lemma TitleSplits(value: string, r: nat)
    requires EndsInTitle(value, r)
    ensures SplitsAt(value, SpacesStart(value, r))
  {
    var k := SpacesStart(value, r);
    SpacesEndAt(value, k, r);
    assert Trimmed(value) == |value|;
    forall j: nat | j < k ensures !Stops(value, j) {
      NoTitleAt(value, r, j);
    }
  }

  lemma {:induction false} EscapedBehind(text: string, p: nat)
    requires p <= |text| && Escaped(text, p)
    ensures p > 0 && text[p - 1] == '\\'
  {
  }

  lemma TitledValue(text: string, a: nat, o: nat, q: nat, e: nat)
    requires Titled(text, a, o, q, e) && DriveAt(text, o + 1) && forall k :: o < k < q ==> !IsLineEnd(text[k])
    ensures EndsInTitle(text[o + 1..e + 1], q - o - 1)
  {
    var value, r := text[o + 1..e + 1], q - o - 1;
    forall p {:trigger Behind(value, p, '\\')} | r < p < |value| - 1 && value[p] == value[r] ensures p > r + 1 && Behind(value, p, '\\') {
      EscapedBehind(text, o + 1 + p);
      assert value[p - 1] == text[o + p];
    }
    forall j | 0 < j < r && Text.IsSpace(value[j - 1]) ensures !IsQuote(value[j]) && value[j] != '(' {
      assert Plain(text, o + 1 + j);
      assert value[j - 1] == text[o + j];
    }
  }

  /** A link with a quoted title, all plain before it, can be rewritten exactly when its label closes and it goes to a
      drive. */
  lemma TitledRewritable(text: string, a: nat, o: nat, q: nat, e: nat)
    requires Titled(text, a, o, q, e) && forall k :: o < k < q ==> !IsLineEnd(text[k])
    ensures RewritableAt(text)(o - 1) <==> ClosesLabel(text, o - 1) && DriveAt(text, o + 1)
  {
    TitledPaired(text, a, o, q, e);
    LabelsExactly(text, |text|, o - 1);
    assert Plain(text, o + 1);
    if DriveAt(text, o + 1) {
      TitledValue(text, a, o, q, e);
      TitleSplits(text[o + 1..e + 1], q - o - 1);
    }
    TitledDecides(text, o, e, BracketsTo(text, |text|).1, Scanned(text).closures, Scanned(text).valid);
  }

  lemma TitledDecides(text: string, o: nat, e: nat, labels: set<nat>, closures: map<nat, nat>, valid: set<nat>)
    requires 0 < o <= e && e + 1 < |text| && OpensLink(text, o) && Plain(text, o + 1) && o in closures && closures[o] == e + 1 && o in valid
    requires DriveAt(text, o + 1) ==> Splits(text[o + 1..e + 1])
    ensures Rewritable(text, o - 1, labels, closures, valid) <==> o - 1 in labels && DriveAt(text, o + 1)
  {
  }
}
