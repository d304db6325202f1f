/** The two-pass parenthesis scanner (packages/protocol/src/markdown.ts:327-617).

    `Next` is the effect of one character on the scanner's stacks, maps and modes; the class
    `ParenthesisPass` is the loop itself.  A link opening is a `(` right after `]`.  While the destination in
    angle brackets, a quoted title or a parenthesised title of a link is being read, a link nested in it may
    suspend that context until its own parenthesis closes. */
module MarkdownScan {
  import opened Wrappers
  import Text

  datatype Phase = AfterDestination | AfterTitle | InsideAngle | Invalid | InsideTitle | InsideQuote
  datatype Quote = Quote(delimiter: char, opening: nat)
  datatype Title = Title(link: nat, opening: nat)

  datatype Scan = Scan(
    active: seq<nat>,               // activeLinkOpenings
    closures: map<nat, nat>,
    openings: seq<nat>,
    angleBy: map<nat, nat>,         // suspendedAngleByLinkOpening
    titleBy: map<nat, Title>,       // suspendedParenthesizedByLinkOpening
    quoteBy: map<nat, Quote>,       // suspendedQuoteByLinkOpening
    contexts: map<nat, Phase>,      // targetContextStates
    valid: set<nat>,                // validContextOpenings
    angle: Option<nat>,             // angleDestinationOpening
    escaped: bool,
    title: Option<Title>,           // parenthesizedTitle
    quote: Option<Quote>)           // quotedTitle

  /** The context a link is read in. */
  datatype Context = Plain | Angle(opening: nat) | Quoted(quote: Quote) | Titled(title: Title)

  const EMPTY := Scan([], map[], [], map[], map[], map[], map[], {}, None, false, None, None)

  predicate IsQuote(c: char) {
    c == '"' || c == '\''
  }

  predicate SpaceBefore(text: string, i: nat)
    requires i <= |text|
  {
    i > 0 && Text.IsSpace(text[i - 1])
  }

  /** A parenthesis that opens a link target. */
  predicate OpensLink(text: string, i: nat)
    requires i < |text|
  {
    text[i] == '(' && i > 0 && text[i - 1] == ']'
  }

  function Last(s: seq<nat>): (r: Option<nat>) {
    if s == [] then None else Some(s[|s| - 1])
  }

  function Lookup<V>(m: map<nat, V>, key: Option<nat>): Option<V> {
    if key.Some? && key.value in m then Some(m[key.value]) else None
  }

  // ---- one character

  predicate IsAfter(phase: Option<Phase>) {
    phase == Some(AfterDestination) || phase == Some(AfterTitle)
  }

  function Spoil(s: Scan, opening: nat): Scan {
    s.(contexts := s.contexts[opening := Invalid])
  }

  /** An escape after the destination or the title spoils the context of the innermost link. */
  function SpoilByEscape(text: string, i: nat, s: Scan): Scan
    requires i < |text|
  {
    if (s.escaped || text[i] == '\\') && IsAfter(Lookup(s.contexts, Last(s.active))) then Spoil(s, Last(s.active).value) else s
  }

  /** So does anything but a space, the closing parenthesis or the start of a title. */
  function SpoilByText(text: string, i: nat, s: Scan): Scan
    requires i < |text|
  {
    var phase := Lookup(s.contexts, Last(s.active));
    if !IsAfter(phase) then s
    else
      var outerClose := text[i] == ')' && Last(s.openings) == Last(s.active);
      var titleStart := phase == Some(AfterDestination) && (IsQuote(text[i]) || text[i] == '(') && SpaceBefore(text, i);
      if Text.IsSpace(text[i]) || outerClose || titleStart then s else Spoil(s, Last(s.active).value)
  }

  /** Whether the second pass keeps a link nested in this context closed: the first pass found the context valid.
      The first pass opens none. */
  predicate Shut(proven: Option<set<nat>>, opening: nat) {
    proven.None? || opening in proven.value
  }

  function OpenLink(s: Scan, i: nat): Scan {
    s.(active := s.active + [i], openings := s.openings + [i])
  }

  function InAngle(text: string, i: nat, s: Scan, proven: Option<set<nat>>): Scan
    requires i < |text| && s.angle.Some?
  {
    var o := s.angle.value;
    var phase := Lookup(s.contexts, Some(o));
    if text[i] == '<' && phase.Some? then Spoil(s, o)
    else if text[i] == '>' then
      s.(angle := None, contexts := if phase == Some(Invalid) then s.contexts else s.contexts[o := AfterDestination])
    else if OpensLink(text, i) && !Shut(proven, o) then
      OpenLink(s, i).(angleBy := s.angleBy[i := o], angle := None)
    else s
  }

  function InQuote(text: string, i: nat, s: Scan, proven: Option<set<nat>>): Scan
    requires i < |text| && s.quote.Some?
  {
    var quote := s.quote.value;
    if text[i] == quote.delimiter then s.(quote := None, contexts := s.contexts[quote.opening := AfterTitle])
    else if OpensLink(text, i) && !Shut(proven, quote.opening) then
      OpenLink(s, i).(quoteBy := s.quoteBy[i := quote], quote := None)
    else s
  }

  function InTitle(text: string, i: nat, s: Scan, proven: Option<set<nat>>): Scan
    requires i < |text| && s.title.Some?
  {
    var title := s.title.value;
    if text[i] == ')' then
      if s.openings == [] then s
      else
        var top := s.openings[|s.openings| - 1];
        var popped := s.(openings := s.openings[..|s.openings| - 1]);
        if top != title.opening then popped
        else popped.(closures := s.closures[top := i], title := None, contexts := s.contexts[title.link := AfterTitle])
    else if OpensLink(text, i) && !Shut(proven, title.link) then
      OpenLink(s, i).(titleBy := s.titleBy[i := title], title := None)
    else s
  }

  /** The top of the stack is closed by `i`. */
  function Pop(s: Scan, i: nat): Scan
    requires s.openings != []
  {
    var o := s.openings[|s.openings| - 1];
    s.(openings := s.openings[..|s.openings| - 1],
       closures := s.closures[o := i],
       valid := if IsAfter(Lookup(s.contexts, Some(o))) then s.valid + {o} else s.valid,
       active := if Last(s.active) == Some(o) then s.active[..|s.active| - 1] else s.active)
  }

  /** The context that the link `o` suspended is read again. */
  function Restore(s: Scan, o: nat): Scan {
    s.(angle := if o in s.angleBy then Some(s.angleBy[o]) else s.angle,
       quote := if o in s.quoteBy then Some(s.quoteBy[o]) else s.quote,
       title := if o in s.titleBy then Some(s.titleBy[o]) else s.title)
  }

  function Close(s: Scan, i: nat): Scan
    requires s.openings != []
  {
    Restore(Pop(s, i), s.openings[|s.openings| - 1])
  }

  function InText(text: string, i: nat, s: Scan): Scan
    requires i < |text|
  {
    var c, link := text[i], Last(s.active);
    var phase := Lookup(s.contexts, link);
    if IsQuote(c) && link.Some? && SpaceBefore(text, i) then
      if phase.Some? && phase != Some(AfterDestination) then s
      else s.(contexts := s.contexts[link.value := InsideQuote], quote := Some(Quote(c, link.value)))
    else if c == '(' && link.Some? && SpaceBefore(text, i) && (phase.None? || phase == Some(AfterDestination)) then
      s.(contexts := s.contexts[link.value := InsideTitle], title := Some(Title(link.value, i)), openings := s.openings + [i])
    else if c == '(' then
      if OpensLink(text, i) then OpenLink(s, i) else s.(openings := s.openings + [i])
    else if c == '<' && i >= 2 && Last(s.openings) == Some(i - 1) && text[i - 2] == ']' then
      s.(contexts := s.contexts[i - 1 := InsideAngle], angle := Some(i - 1))
    else if c == ')' && s.openings != [] then Close(s, i)
    else s
  }

  function NewLine(s: Scan): Scan {
    s.(active := [], angle := None, escaped := false, openings := [], title := None, quote := None)
  }

  /** An unescaped character, in the context being read. */
  function Act(text: string, i: nat, s: Scan, proven: Option<set<nat>>): Scan
    requires i < |text|
  {
    if s.angle.Some? then InAngle(text, i, s, proven)
    else if s.quote.Some? then InQuote(text, i, s, proven)
    else if s.title.Some? then InTitle(text, i, s, proven)
    else InText(text, i, SpoilByText(text, i, s))
  }

  function Next(text: string, i: nat, s: Scan, proven: Option<set<nat>>): Scan
    requires i < |text|
  {
    if text[i] == '\n' then NewLine(s)
    else if s.escaped then SpoilByEscape(text, i, s).(escaped := false)
    else if text[i] == '\\' then SpoilByEscape(text, i, s).(escaped := true)
    else Act(text, i, s, proven)
  }

  /** The scanner before character `i`. */
  function ScanTo(text: string, i: nat, proven: Option<set<nat>>): Scan
    requires i <= |text|
  {
    if i == 0 then EMPTY else Next(text, i - 1, ScanTo(text, i - 1, proven), proven)
  }

  // ---- what holds before every character

  /** After an odd number of backslashes. */
  predicate Escaped(text: string, i: nat)
    requires i <= |text|
  {
    i > 0 && text[i - 1] == '\\' && !Escaped(text, i - 1)
  }

  predicate SameLine(text: string, from: nat, to: nat)
    requires to <= |text|
  {
    forall k :: from <= k < to ==> text[k] != '\n'
  }

  predicate Increasing(s: seq<nat>, bound: nat) {
    && (forall j, k :: 0 <= j < k < |s| ==> s[j] < s[k])
    && (forall k :: 0 <= k < |s| ==> s[k] < bound)
  }

  /** An unescaped opening parenthesis on the line of `i`. */
  predicate IsOpening(text: string, o: nat, i: nat)
    requires i <= |text|
  {
    o < i && text[o] == '(' && !Escaped(text, o) && SameLine(text, o, i)
  }

  ghost predicate Stacks(text: string, i: nat, s: Scan)
    requires i <= |text|
  {
    && s.escaped == Escaped(text, i)
    && Increasing(s.openings, i) && Increasing(s.active, i)
    && (forall o <- s.openings :: IsOpening(text, o, i))
    && (forall a <- s.active :: a in s.openings && OpensLink(text, a))
    && (forall o <- s.openings :: OpensLink(text, o) ==> o in s.active)
  }

  /** A recorded pair: both parentheses unescaped, on one line. */
  predicate IsPair(text: string, o: nat, c: nat, i: nat)
    requires i <= |text|
  {
    o < c < i && IsOpening(text, o, c) && text[c] == ')' && !Escaped(text, c)
  }

  /** The pairs do not cross each other, nor can an opening that is still open cross one later. */
  ghost predicate Pairs(text: string, i: nat, s: Scan)
    requires i <= |text|
  {
    && (forall o <- s.closures :: IsPair(text, o, s.closures[o], i))
    && (forall o, p :: o in s.closures && p in s.closures && o < p ==> s.closures[o] < p || s.closures[p] < s.closures[o])
    && (forall o, p :: o in s.closures && p in s.openings ==> p < o || s.closures[o] < p)
    && s.valid <= s.closures.Keys
  }

  /** At most one context is being read, it is the one of the innermost link, and the opening of a
      parenthesised title or an angle destination is the top of the stack. */
  ghost predicate Current(text: string, s: Scan) {
    && (s.angle.Some? ==> s.quote.None? && s.title.None? && Last(s.openings) == s.angle && Last(s.active) == s.angle)
    && (s.quote.Some? ==> s.title.None? && Last(s.active) == Some(s.quote.value.opening) && IsQuote(s.quote.value.delimiter))
    && (s.title.Some? ==> IsTitle(text, s.title.value) && Last(s.openings) == Some(s.title.value.opening)
                          && Last(s.active) == Some(s.title.value.link))
  }

  predicate IsTitle(text: string, title: Title) {
    title.opening < |text| && SpaceBefore(text, title.opening)
  }

  /** Below every element of the stack that `kept` knows lies what `kept` says. */
  ghost predicate Under<V>(stack: seq<nat>, kept: map<nat, V>, below: V -> nat) {
    forall k {:trigger kept[stack[k]]} :: 0 <= k < |stack| && stack[k] in kept ==> k > 0 && stack[k - 1] == below(kept[stack[k]])
  }

  const SAME := (o: nat) => o
  const QUOTED := (quote: Quote) => quote.opening
  const TITLE := (title: Title) => title.opening
  const TITLED := (title: Title) => title.link

  predicate IsSuspended(s: Scan, a: nat) {
    a in s.angleBy || a in s.quoteBy || a in s.titleBy
  }

  /** Each link suspends one context, which waits right below it. */
  ghost predicate Suspended(text: string, i: nat, s: Scan) {
    && s.angleBy.Keys !! s.quoteBy.Keys && s.angleBy.Keys !! s.titleBy.Keys && s.quoteBy.Keys !! s.titleBy.Keys
    && (forall a <- s.angleBy :: a < i) && (forall a <- s.quoteBy :: a < i) && (forall a <- s.titleBy :: a < i)
    && (forall a: nat :: IsSuspended(s, a) && a in s.openings ==> a in s.active)
    && (forall a <- s.titleBy :: IsTitle(text, s.titleBy[a])) && (forall a <- s.quoteBy :: IsQuote(s.quoteBy[a].delimiter))
    && Under(s.openings, s.angleBy, SAME) && Under(s.openings, s.titleBy, TITLE)
    && Under(s.active, s.angleBy, SAME) && Under(s.active, s.quoteBy, QUOTED) && Under(s.active, s.titleBy, TITLED)
  }

  ghost predicate Valid(text: string, i: nat, s: Scan)
    requires i <= |text|
  {
    Stacks(text, i, s) && Pairs(text, i, s) && Current(text, s) && Suspended(text, i, s)
  }

  // ---- every character keeps it

  /** A character that is neither a line break nor escaped, where the scanner is about to act. */
  predicate Acts(text: string, i: nat, s: Scan)
    requires i < |text|
  {
    text[i] != '\n' && text[i] != '\\' && !s.escaped
  }

  /** The stacks, the pairs and the suspended contexts stay as they are, one character on. */
  lemma StayValid(text: string, i: nat, s: Scan, n: Scan)
    requires i < |text| && Valid(text, i, s) && text[i] != '\n' && Current(text, n)
    requires n == s.(contexts := n.contexts, angle := n.angle, title := n.title, quote := n.quote, escaped := Escaped(text, i + 1))
    ensures Valid(text, i + 1, n)
  {
  }

  /** Nothing happens, or the context being read ends. */
  lemma EndValid(text: string, i: nat, s: Scan, n: Scan, ends: bool)
    requires i < |text| && Valid(text, i, s) && Acts(text, i, s)
    requires n == s.(contexts := n.contexts, angle := if ends then None else s.angle,
                     title := if ends then None else s.title, quote := if ends then None else s.quote)
    ensures Valid(text, i + 1, n)
  {
    StayValid(text, i, s, n);
  }

  /** An opening parenthesis goes on the stacks. */
  lemma OpenStacks(text: string, i: nat, s: Scan, n: Scan)
    requires i < |text| && Valid(text, i, s) && Acts(text, i, s) && text[i] == '('
    requires n == (if OpensLink(text, i) then OpenLink(s, i) else s.(openings := s.openings + [i])).(
                    angleBy := n.angleBy, quoteBy := n.quoteBy, titleBy := n.titleBy,
                    contexts := n.contexts, angle := n.angle, title := n.title, quote := n.quote)
    ensures Stacks(text, i + 1, n) && Pairs(text, i + 1, n)
  {
    assert i in n.openings;
    assert OpensLink(text, i) ==> i in n.active;
  }

  /** A link opens and suspends the context being read, if any. */
  function Nested(s: Scan, i: nat): Scan {
    OpenLink(s, i).(
      angleBy := if s.angle.Some? then s.angleBy[i := s.angle.value] else s.angleBy,
      quoteBy := if s.quote.Some? then s.quoteBy[i := s.quote.value] else s.quoteBy,
      titleBy := if s.title.Some? then s.titleBy[i := s.title.value] else s.titleBy,
      angle := None, quote := None, title := None)
  }

  lemma NestValid(text: string, i: nat, s: Scan)
    requires i < |text| && Valid(text, i, s) && Acts(text, i, s) && OpensLink(text, i)
    ensures Valid(text, i + 1, Nested(s, i))
  {
    OpenStacks(text, i, s, Nested(s, i));
    NestSuspended(text, i, s, Nested(s, i));
  }

  lemma NestUnder(text: string, i: nat, s: Scan, n: Scan)
    requires i < |text| && Suspended(text, i, s) && Current(text, s) && Increasing(s.openings, i) && Increasing(s.active, i)
    requires n == Nested(s, i)
    ensures Under(n.openings, n.angleBy, SAME) && Under(n.openings, n.titleBy, TITLE)
    ensures Under(n.active, n.angleBy, SAME) && Under(n.active, n.quoteBy, QUOTED) && Under(n.active, n.titleBy, TITLED)
  {
    UnderPush(s.openings, i, s.angleBy, s.angle, SAME);
    UnderPush(s.active, i, s.angleBy, s.angle, SAME);
    UnderPush(s.openings, i, s.titleBy, s.title, TITLE);
    UnderPush(s.active, i, s.titleBy, s.title, TITLED);
    UnderPush(s.active, i, s.quoteBy, s.quote, QUOTED);
  }

  /** The new link suspends at most one context, and no other link is `i`. */
  lemma NestKeys(text: string, i: nat, s: Scan, n: Scan)
    requires i < |text| && Suspended(text, i, s) && Current(text, s) && n == Nested(s, i)
    ensures n.angleBy.Keys !! n.quoteBy.Keys && n.angleBy.Keys !! n.titleBy.Keys && n.quoteBy.Keys !! n.titleBy.Keys
    ensures (forall a <- n.angleBy :: a < i + 1) && (forall a <- n.quoteBy :: a < i + 1) && (forall a <- n.titleBy :: a < i + 1)
    ensures (forall a <- n.titleBy :: IsTitle(text, n.titleBy[a])) && (forall a <- n.quoteBy :: IsQuote(n.quoteBy[a].delimiter))
  {
  }

  lemma NestSuspended(text: string, i: nat, s: Scan, n: Scan)
    requires i < |text| && Suspended(text, i, s) && Current(text, s) && Increasing(s.openings, i) && Increasing(s.active, i)
    requires n == Nested(s, i)
    ensures Suspended(text, i + 1, n)
  {
    NestUnder(text, i, s, n);
    NestKeys(text, i, s, n);
    assert i in n.active;
    forall a: nat | IsSuspended(n, a) && a in n.openings ensures a in n.active {
      if a != i {
        assert IsSuspended(s, a) && a in s.openings;
      }
    }
  }

  lemma UnderPush<V>(stack: seq<nat>, i: nat, kept: map<nat, V>, item: Option<V>, below: V -> nat)
    requires Under(stack, kept, below) && Increasing(stack, i) && (forall a <- kept :: a < i)
    requires item.Some? ==> Last(stack) == Some(below(item.value))
    ensures Under(stack + [i], if item.Some? then kept[i := item.value] else kept, below)
  {
  }

  /** The innermost link is the top of the stack if the top is a link at all. */
  lemma TopLink(text: string, i: nat, s: Scan, o: nat)
    requires i <= |text| && Stacks(text, i, s) && Last(s.openings) == Some(o) && o in s.active
    ensures Last(s.active) == Some(o)
  {
    var last := s.active[|s.active| - 1];
    assert last in s.active && last in s.openings;
    var j :| 0 <= j < |s.active| && s.active[j] == o;
    var k :| 0 <= k < |s.openings| && s.openings[k] == last;
  }

  /** The top of the stack is closed; `n` has lost it, and the link it was, if it was one. */
  ghost predicate Popped(s: Scan, n: Scan, o: nat) {
    && Last(s.openings) == Some(o) && n.openings == s.openings[..|s.openings| - 1]
    && n.active == if Last(s.active) == Some(o) then s.active[..|s.active| - 1] else s.active
  }

  lemma PopActive(text: string, i: nat, s: Scan, n: Scan, o: nat, a: nat)
    requires i < |text| && Stacks(text, i, s) && Popped(s, n, o)
    ensures a in n.active ==> a in n.openings && OpensLink(text, a)
    ensures a in n.openings && OpensLink(text, a) ==> a in n.active
  {
    NotBelowItself(s.openings, i);
    if o in s.active {
      TopLink(text, i, s, o);
      NotBelowItself(s.active, i);
    }
    if a in n.active {
      assert a in s.active && a != o;
      var k :| 0 <= k < |s.openings| && s.openings[k] == a;
      assert n.openings[k] == a;
    }
  }

  lemma PopStacks(text: string, i: nat, s: Scan, n: Scan, o: nat)
    requires i < |text| && Stacks(text, i, s) && Acts(text, i, s) && Popped(s, n, o) && !n.escaped
    ensures Stacks(text, i + 1, n)
  {
    forall a: nat
      ensures a in n.active ==> a in n.openings && OpensLink(text, a)
      ensures a in n.openings && OpensLink(text, a) ==> a in n.active
    {
      PopActive(text, i, s, n, o, a);
    }
    forall p | p in n.openings ensures IsOpening(text, p, i + 1) {
      assert p in s.openings;
    }
  }

  lemma PopPairs(text: string, i: nat, s: Scan, n: Scan, o: nat)
    requires i < |text| && Stacks(text, i, s) && Pairs(text, i, s) && Acts(text, i, s) && text[i] == ')'
    requires Popped(s, n, o) && n.closures == s.closures[o := i] && s.valid <= n.valid <= s.valid + {o}
    ensures Pairs(text, i + 1, n)
  {
    assert o in s.openings;
    assert IsPair(text, o, i, i + 1);
    forall p | p in n.openings ensures p in s.openings && p < o {
    }
  }

  /** An active opening that stays open stays active when another is popped. */
  lemma ActiveStays(active: seq<nat>, after: seq<nat>, o: nat, a: nat)
    requires a in active && after == (if Last(active) == Some(o) then active[..|active| - 1] else active) && a != o
    ensures a in after
  {
    var k :| 0 <= k < |active| && active[k] == a;
    assert Last(active) == Some(o) ==> after[k] == a;
  }

  lemma PopSuspended(text: string, i: nat, s: Scan, n: Scan, o: nat)
    requires i < |text| && Stacks(text, i, s) && Suspended(text, i, s) && Popped(s, n, o)
    requires n.angleBy == s.angleBy && n.quoteBy == s.quoteBy && n.titleBy == s.titleBy
    ensures Suspended(text, i + 1, n)
  {
    NotBelowItself(s.openings, i);
    forall a: nat | IsSuspended(n, a) && a in n.openings ensures a in n.active {
      assert a in s.openings && IsSuspended(s, a);
      ActiveStays(s.active, n.active, o, a);
    }
  }

  lemma NotBelowItself(stack: seq<nat>, i: nat)
    requires stack != [] && Increasing(stack, i)
    ensures stack[|stack| - 1] !in stack[..|stack| - 1]
  {
  }

  predicate InPlainText(s: Scan) {
    s.angle.None? && s.quote.None? && s.title.None?
  }

  /** Below the top of the stack that `kept` knows lies what `kept` says. */
  lemma UnderTop<V>(stack: seq<nat>, kept: map<nat, V>, below: V -> nat)
    requires Under(stack, kept, below) && stack != [] && stack[|stack| - 1] in kept
    ensures Last(stack[..|stack| - 1]) == Some(below(kept[stack[|stack| - 1]]))
  {
  }

  /** The link that is closed is the innermost one if it suspends a context, and suspends only one. */
  lemma SuspendedTop(text: string, i: nat, s: Scan, o: nat)
    requires i < |text| && Stacks(text, i, s) && Suspended(text, i, s) && Last(s.openings) == Some(o) && IsSuspended(s, o)
    ensures Last(s.active) == Some(o)
    ensures o in s.angleBy ==> o !in s.quoteBy && o !in s.titleBy
    ensures o in s.quoteBy ==> o !in s.titleBy
  {
    assert o in s.openings;
    TopLink(text, i, s, o);
  }

  /** Closing a link brings back exactly the context it suspended. */
  lemma CloseRestores(text: string, i: nat, s: Scan)
    requires i < |text| && Stacks(text, i, s) && Suspended(text, i, s) && InPlainText(s) && s.openings != []
    ensures Current(text, Close(s, i))
  {
    var o := s.openings[|s.openings| - 1];
    if IsSuspended(s, o) {
      SuspendedTop(text, i, s, o);
      if o in s.angleBy {
        UnderTop(s.openings, s.angleBy, SAME);
        UnderTop(s.active, s.angleBy, SAME);
      } else if o in s.quoteBy {
        UnderTop(s.active, s.quoteBy, QUOTED);
      } else {
        UnderTop(s.openings, s.titleBy, TITLE);
        UnderTop(s.active, s.titleBy, TITLED);
      }
    }
  }

  lemma CloseValid(text: string, i: nat, s: Scan)
    requires i < |text| && Valid(text, i, s) && Acts(text, i, s) && InPlainText(s) && text[i] == ')' && s.openings != []
    ensures Valid(text, i + 1, Close(s, i))
  {
    var o, n := s.openings[|s.openings| - 1], Close(s, i);
    PopStacks(text, i, s, n, o);
    PopPairs(text, i, s, n, o);
    PopSuspended(text, i, s, n, o);
    CloseRestores(text, i, s);
  }

  /** What a character does inside an angle destination: it opens a nested link, ends it, or spoils its context. */
  lemma InAngleSteps(text: string, i: nat, s: Scan, proven: Option<set<nat>>)
    requires i < |text| && Current(text, s) && s.angle.Some?
    ensures var n := InAngle(text, i, s, proven);
            if OpensLink(text, i) && !Shut(proven, s.angle.value) then n == Nested(s, i)
            else n == s.(contexts := n.contexts, angle := if text[i] == '>' then None else s.angle)
  {
  }

  lemma InAngleValid(text: string, i: nat, s: Scan, proven: Option<set<nat>>)
    requires i < |text| && Valid(text, i, s) && Acts(text, i, s) && s.angle.Some?
    ensures Valid(text, i + 1, InAngle(text, i, s, proven))
  {
    InAngleSteps(text, i, s, proven);
    if OpensLink(text, i) && !Shut(proven, s.angle.value) {
      NestValid(text, i, s);
    } else {
      EndValid(text, i, s, InAngle(text, i, s, proven), text[i] == '>');
    }
  }

  lemma InQuoteValid(text: string, i: nat, s: Scan, proven: Option<set<nat>>)
    requires i < |text| && Valid(text, i, s) && Acts(text, i, s) && s.angle.None? && s.quote.Some?
    ensures Valid(text, i + 1, InQuote(text, i, s, proven))
  {
    if OpensLink(text, i) && !Shut(proven, s.quote.value.opening) && text[i] != s.quote.value.delimiter {
      NestValid(text, i, s);
      assert InQuote(text, i, s, proven) == Nested(s, i);
    } else {
      EndValid(text, i, s, InQuote(text, i, s, proven), text[i] == s.quote.value.delimiter);
    }
  }

  /** A parenthesised title that is closed: its opening is no link. */
  lemma EndTitleValid(text: string, i: nat, s: Scan, n: Scan)
    requires i < |text| && Valid(text, i, s) && Acts(text, i, s) && s.angle.None? && s.quote.None? && s.title.Some? && text[i] == ')'
    requires n == s.(openings := s.openings[..|s.openings| - 1], closures := s.closures[s.title.value.opening := i],
                     title := None, contexts := n.contexts)
    ensures Valid(text, i + 1, n)
  {
    var o := s.title.value.opening;
    assert o !in s.active;
    assert Last(s.active) != Some(o) by {
      assert s.active[|s.active| - 1] in s.active;
    }
    PopStacks(text, i, s, n, o);
    PopPairs(text, i, s, n, o);
    PopSuspended(text, i, s, n, o);
  }

  /** What a character does inside a title: it ends it, opens a nested link, or nothing. */
  lemma InTitleSteps(text: string, i: nat, s: Scan, proven: Option<set<nat>>)
    requires i < |text| && Current(text, s) && s.angle.None? && s.quote.None? && s.title.Some?
    ensures var n := InTitle(text, i, s, proven);
            if text[i] == ')' then
              s.openings != [] && n == s.(openings := s.openings[..|s.openings| - 1],
                                          closures := s.closures[s.title.value.opening := i], title := None, contexts := n.contexts)
            else if OpensLink(text, i) && !Shut(proven, s.title.value.link) then n == Nested(s, i)
            else n == s
  {
  }

  lemma InTitleValid(text: string, i: nat, s: Scan, proven: Option<set<nat>>)
    requires i < |text| && Valid(text, i, s) && Acts(text, i, s) && s.angle.None? && s.quote.None? && s.title.Some?
    ensures Valid(text, i + 1, InTitle(text, i, s, proven))
  {
    InTitleSteps(text, i, s, proven);
    if text[i] == ')' {
      EndTitleValid(text, i, s, InTitle(text, i, s, proven));
    } else if OpensLink(text, i) && !Shut(proven, s.title.value.link) {
      NestValid(text, i, s);
    } else {
      EndValid(text, i, s, s, false);
    }
  }

  /** An opening parenthesis that is no link: plain, or the start of a title. */
  lemma PushValid(text: string, i: nat, s: Scan, n: Scan)
    requires i < |text| && Valid(text, i, s) && Acts(text, i, s) && text[i] == '(' && !OpensLink(text, i) && Current(text, n)
    requires n == s.(openings := s.openings + [i], contexts := n.contexts, title := n.title)
    ensures Valid(text, i + 1, n)
  {
    OpenStacks(text, i, s, n);
    UnderPush(s.openings, i, s.angleBy, None, SAME);
    UnderPush(s.openings, i, s.titleBy, None, TITLE);
    forall a: nat | IsSuspended(n, a) && a in n.openings ensures a in n.active {
      assert IsSuspended(s, a) && a != i;
    }
  }

  lemma AngleStartValid(text: string, i: nat, s: Scan, n: Scan)
    requires 2 <= i < |text| && Valid(text, i, s) && Acts(text, i, s) && InPlainText(s)
    requires Last(s.openings) == Some(i - 1) && text[i - 2] == ']'
    requires n == s.(contexts := s.contexts[i - 1 := InsideAngle], angle := Some(i - 1))
    ensures Valid(text, i + 1, n)
  {
    assert i - 1 in s.openings && OpensLink(text, i - 1);
    TopLink(text, i, s, i - 1);
    StayValid(text, i, s, n);
  }

  lemma LinkOpens(text: string, i: nat, s: Scan)
    requires i < |text| && InPlainText(s) && OpensLink(text, i)
    ensures InText(text, i, s) == Nested(s, i)
  {
  }

  lemma ParenthesisPushes(text: string, i: nat, s: Scan)
    requires i < |text| && InPlainText(s) && text[i] == '(' && !OpensLink(text, i)
    ensures var n := InText(text, i, s);
            n == s.(openings := s.openings + [i], contexts := n.contexts, title := n.title) && Current(text, n)
  {
  }

  lemma ParenthesisValid(text: string, i: nat, s: Scan)
    requires i < |text| && Valid(text, i, s) && Acts(text, i, s) && InPlainText(s) && text[i] == '('
    ensures Valid(text, i + 1, InText(text, i, s))
  {
    if OpensLink(text, i) {
      LinkOpens(text, i, s);
      NestValid(text, i, s);
    } else {
      ParenthesisPushes(text, i, s);
      PushValid(text, i, s, InText(text, i, s));
    }
  }

  /** What a character that is no parenthesis does: it may start a quoted title or an angle destination. */
  lemma WordSteps(text: string, i: nat, s: Scan)
    requires i < |text| && InPlainText(s) && text[i] != '(' && (text[i] == ')' ==> s.openings == [])
    ensures var n := InText(text, i, s);
            if n.angle.Some? then
              && 2 <= i && Last(s.openings) == Some(i - 1) && text[i - 2] == ']'
              && n == s.(contexts := s.contexts[i - 1 := InsideAngle], angle := Some(i - 1))
            else n == s.(contexts := n.contexts, quote := n.quote) && Current(text, n)
  {
    if IsQuote(text[i]) {
      QuoteStarts(text, i, s);
    }
  }

  lemma QuoteStarts(text: string, i: nat, s: Scan)
    requires i < |text| && InPlainText(s) && IsQuote(text[i])
    ensures var n := InText(text, i, s); n == s.(contexts := n.contexts, quote := n.quote) && Current(text, n)
  {
  }

  lemma WordValid(text: string, i: nat, s: Scan)
    requires i < |text| && Valid(text, i, s) && Acts(text, i, s) && InPlainText(s)
    requires text[i] != '(' && (text[i] == ')' ==> s.openings == [])
    ensures Valid(text, i + 1, InText(text, i, s))
  {
    var n := InText(text, i, s);
    WordSteps(text, i, s);
    if n.angle.Some? {
      AngleStartValid(text, i, s, n);
    } else {
      StayValid(text, i, s, n);
    }
  }

  lemma InTextValid(text: string, i: nat, s: Scan)
    requires i < |text| && Valid(text, i, s) && Acts(text, i, s) && InPlainText(s)
    ensures Valid(text, i + 1, InText(text, i, s))
  {
    if text[i] == '(' {
      ParenthesisValid(text, i, s);
    } else {
      OtherTextValid(text, i, s, InText(text, i, s));
    }
  }

  lemma OtherTextValid(text: string, i: nat, s: Scan, n: Scan)
    requires i < |text| && Valid(text, i, s) && Acts(text, i, s) && InPlainText(s) && text[i] != '('
    requires n == InText(text, i, s)
    ensures Valid(text, i + 1, n)
  {
    if text[i] == ')' && s.openings != [] {
      assert n == Close(s, i);
      CloseValid(text, i, s);
    } else {
      WordValid(text, i, s);
    }
  }

  lemma NewLineValid(text: string, i: nat, s: Scan)
    requires i < |text| && Valid(text, i, s) && text[i] == '\n'
    ensures Valid(text, i + 1, NewLine(s))
  {
  }

  /** What the scanner knows of the contexts does not matter here. */
  lemma SpoilValid(text: string, i: nat, s: Scan, o: nat)
    requires i <= |text| && Valid(text, i, s)
    ensures Valid(text, i, Spoil(s, o))
  {
  }

  lemma SpoilsValid(text: string, i: nat, s: Scan)
    requires i < |text| && Valid(text, i, s)
    ensures Valid(text, i, SpoilByEscape(text, i, s)) && Valid(text, i, SpoilByText(text, i, s))
  {
    if Last(s.active).Some? {
      SpoilValid(text, i, s, Last(s.active).value);
    }
  }

  lemma ActValid(text: string, i: nat, s: Scan, proven: Option<set<nat>>)
    requires i < |text| && Valid(text, i, s) && Acts(text, i, s)
    ensures Valid(text, i + 1, Act(text, i, s, proven))
  {
    if s.angle.Some? {
      InAngleValid(text, i, s, proven);
    } else if s.quote.Some? {
      InQuoteValid(text, i, s, proven);
    } else if s.title.Some? {
      InTitleValid(text, i, s, proven);
    } else {
      SpoilsValid(text, i, s);
      InTextValid(text, i, SpoilByText(text, i, s));
    }
  }

  lemma NextValid(text: string, i: nat, s: Scan, proven: Option<set<nat>>)
    requires i < |text| && Valid(text, i, s)
    ensures Valid(text, i + 1, Next(text, i, s, proven))
  {
    if text[i] == '\n' {
      NewLineValid(text, i, s);
    } else if !Acts(text, i, s) {
      SpoilsValid(text, i, s);
      StayValid(text, i, SpoilByEscape(text, i, s), Next(text, i, s, proven));
    } else {
      ActValid(text, i, s, proven);
    }
  }

  lemma EmptyValid(text: string)
    ensures Valid(text, 0, EMPTY)
  {
  }

  lemma StepValid(text: string, i: nat, s: Scan, n: Scan, proven: Option<set<nat>>)
    requires 0 < i <= |text| && Valid(text, i - 1, s) && n == Next(text, i - 1, s, proven)
    ensures Valid(text, i, n)
  {
    NextValid(text, i - 1, s, proven);
  }

  lemma {:induction false} ScanValid(text: string, i: nat, proven: Option<set<nat>>)
    requires i <= |text|
    ensures Valid(text, i, ScanTo(text, i, proven))
  {
    if i == 0 {
      EmptyValid(text);
    } else {
      ScanValid(text, i - 1, proven);
      StepValid(text, i, ScanTo(text, i - 1, proven), ScanTo(text, i, proven), proven);
    }
  }

  // ---- what the scanner promises

  function ContextOf(s: Scan): Context {
    if s.angle.Some? then Angle(s.angle.value)
    else if s.quote.Some? then Quoted(s.quote.value)
    else if s.title.Some? then Titled(s.title.value)
    else Plain
  }

  predicate OneContext(s: Scan) {
    (s.angle.Some? ==> s.quote.None? && s.title.None?) && (s.quote.Some? ==> s.title.None?)
  }

  /** At most one context is being read; and while it is a parenthesised title, its opening is the top of the
      stack, so the branch in which the popped parenthesis is another one is never taken. */
  lemma TitleIsTop(text: string, i: nat, proven: Option<set<nat>>)
    requires i <= |text|
    ensures var s := ScanTo(text, i, proven);
            OneContext(s) && (s.title.Some? ==> Last(s.openings) == Some(s.title.value.opening))
  {
    ScanValid(text, i, proven);
  }

  /** A character on which the scanner does not act moves nothing but at a line break, where all is dropped. */
  lemma NextIdle(text: string, i: nat, s: Scan, proven: Option<set<nat>>)
    requires i < |text| && !Acts(text, i, s)
    ensures var n := Next(text, i, s, proven);
            && n.closures == s.closures && n.angleBy == s.angleBy && n.quoteBy == s.quoteBy && n.titleBy == s.titleBy
            && (n.active == s.active || n.active == [])
  {
  }

  /** The context the link `a` interrupted. */
  function SuspendedContext(s: Scan, a: nat): Context
    requires IsSuspended(s, a)
  {
    if a in s.angleBy then Angle(s.angleBy[a]) else if a in s.quoteBy then Quoted(s.quoteBy[a]) else Titled(s.titleBy[a])
  }

  /** Once suspended, a context is remembered. */
  ghost predicate Remembered(s: Scan, n: Scan, a: nat) {
    IsSuspended(s, a) ==> IsSuspended(n, a) && SuspendedContext(n, a) == SuspendedContext(s, a)
  }

  predicate SameSuspended(s: Scan, n: Scan) {
    n.angleBy == s.angleBy && n.quoteBy == s.quoteBy && n.titleBy == s.titleBy
  }

  lemma OpeningStays(text: string, i: nat, s: Scan)
    requires i < |text| && text[i] == '('
    ensures SameSuspended(s, InText(text, i, s)) && InText(text, i, s).closures == s.closures
  {
    if OpensLink(text, i) {
    } else if Last(s.active).Some? && SpaceBefore(text, i) {
    } else {
    }
  }

  lemma WordStays(text: string, i: nat, s: Scan)
    requires i < |text| && text[i] != '(' && !(text[i] == ')' && s.openings != [])
    ensures SameSuspended(s, InText(text, i, s)) && InText(text, i, s).closures == s.closures
  {
    if IsQuote(text[i]) && Last(s.active).Some? && SpaceBefore(text, i) {
    } else {
    }
  }

  /** In plain text nothing but a closing parenthesis closes, and nothing is suspended. */
  lemma TextStays(text: string, i: nat, s: Scan)
    requires i < |text| && !(text[i] == ')' && s.openings != [])
    ensures SameSuspended(s, InText(text, i, s)) && InText(text, i, s).closures == s.closures
  {
    if text[i] == '(' {
      OpeningStays(text, i, s);
    } else {
      WordStays(text, i, s);
    }
  }

  lemma TextRemembers(text: string, i: nat, s: Scan, a: nat)
    requires i < |text|
    ensures Remembered(s, InText(text, i, s), a)
  {
    if text[i] == ')' && s.openings != [] {
      assert InText(text, i, s) == Close(s, i);
    } else {
      TextStays(text, i, s);
    }
  }

  lemma AngleRemembers(text: string, i: nat, s: Scan, proven: Option<set<nat>>, a: nat)
    requires a < i < |text| && s.angle.Some? && OneContext(s)
    ensures Remembered(s, InAngle(text, i, s, proven), a)
  {
  }

  lemma QuoteRemembers(text: string, i: nat, s: Scan, proven: Option<set<nat>>, a: nat)
    requires a < i < |text| && s.quote.Some? && OneContext(s)
    ensures Remembered(s, InQuote(text, i, s, proven), a)
  {
  }

  lemma TitleRemembers(text: string, i: nat, s: Scan, proven: Option<set<nat>>, a: nat)
    requires a < i < |text| && s.title.Some? && OneContext(s)
    ensures Remembered(s, InTitle(text, i, s, proven), a)
  {
  }

  lemma ContextRemembers(text: string, i: nat, s: Scan, proven: Option<set<nat>>, a: nat)
    requires a < i < |text| && ContextOf(s) != Plain && OneContext(s)
    ensures Remembered(s, Act(text, i, s, proven), a)
  {
    if s.angle.Some? {
      AngleRemembers(text, i, s, proven, a);
    } else if s.quote.Some? {
      QuoteRemembers(text, i, s, proven, a);
    } else {
      TitleRemembers(text, i, s, proven, a);
    }
  }

  lemma NextRemembers(text: string, i: nat, s: Scan, proven: Option<set<nat>>, a: nat)
    requires a < i < |text| && OneContext(s)
    ensures Remembered(s, Next(text, i, s, proven), a)
  {
    if !Acts(text, i, s) {
      NextIdle(text, i, s, proven);
    } else if ContextOf(s) == Plain {
      TextRemembers(text, i, SpoilByText(text, i, s), a);
    } else {
      ContextRemembers(text, i, s, proven, a);
    }
  }

  lemma ScanRemembers(text: string, i: nat, proven: Option<set<nat>>, a: nat)
    requires a < i < |text|
    ensures Remembered(ScanTo(text, i, proven), ScanTo(text, i + 1, proven), a)
  {
    TitleIsTop(text, i, proven);
    NextRemembers(text, i, ScanTo(text, i, proven), proven, a);
  }

  lemma RememberedTwice(s: Scan, n: Scan, m: Scan, a: nat)
    requires Remembered(s, n, a) && Remembered(n, m, a)
    ensures Remembered(s, m, a)
  {
  }

  /** What each step remembers is remembered in the end. */
  lemma {:induction false} RememberedLong(scan: nat -> Scan, i: nat, j: nat, a: nat)
    requires i <= j && forall k: nat :: i <= k < j ==> Remembered(scan(k), scan(k + 1), a)
    ensures Remembered(scan(i), scan(j), a)
    decreases j
  {
    if i < j {
      RememberedLong(scan, i, j - 1, a);
      RememberedTwice(scan(i), scan(j - 1), scan(j), a);
    }
  }

  /** The scanner before each character, and the last one behind the text. */
  function ScanOf(text: string, proven: Option<set<nat>>): nat -> Scan {
    (k: nat) => if k <= |text| then ScanTo(text, k, proven) else EMPTY
  }

  lemma Remembers(text: string, i: nat, j: nat, proven: Option<set<nat>>, a: nat)
    requires a < i <= j <= |text|
    ensures Remembered(ScanTo(text, i, proven), ScanTo(text, j, proven), a)
  {
    var scan := ScanOf(text, proven);
    forall k: nat | i <= k < j ensures Remembered(scan(k), scan(k + 1), a) {
      ScanRemembers(text, k, proven, a);
    }
    RememberedLong(scan, i, j, a);
  }

  /** A link that opens while a context is being read suspends it. */
  lemma SuspendsAt(text: string, i: nat, s: Scan, proven: Option<set<nat>>)
    requires i < |text| && Acts(text, i, s) && i !in s.active && ContextOf(s) != Plain && i in Act(text, i, s, proven).active
    requires Current(text, s) && !IsSuspended(s, i)
    ensures var n := Act(text, i, s, proven); OpensLink(text, i) && IsSuspended(n, i) && SuspendedContext(n, i) == ContextOf(s)
  {
  }

  /** A closed link restores the context it suspended. */
  lemma ClosesAt(text: string, j: nat, t: Scan, o: nat, proven: Option<set<nat>>)
    requires o < j < |text| && Acts(text, j, t) && IsSuspended(t, o) && OpensLink(text, o)
    requires t.angleBy.Keys !! t.quoteBy.Keys && t.angleBy.Keys !! t.titleBy.Keys && t.quoteBy.Keys !! t.titleBy.Keys
    requires Current(text, t) && (o in t.closures ==> t.closures[o] != j)
    requires var n := Act(text, j, t, proven); o in n.closures && n.closures[o] == j
    ensures ContextOf(Act(text, j, t, proven)) == SuspendedContext(t, o)
  {
    if ContextOf(t) == Plain {
      ClosesText(text, j, SpoilByText(text, j, t), o);
    } else {
      ContextCloses(text, j, t, proven);
    }
  }

  /** While a context is read, only a parenthesised title is closed. */
  lemma ContextCloses(text: string, i: nat, s: Scan, proven: Option<set<nat>>)
    requires i < |text| && ContextOf(s) != Plain && Current(text, s)
    ensures var n := Act(text, i, s, proven).closures; n == s.closures || (s.title.Some? && n == s.closures[s.title.value.opening := i])
  {
    if s.angle.Some? {
    } else if s.quote.Some? {
    } else {
    }
  }

  lemma ClosesText(text: string, j: nat, t: Scan, o: nat)
    requires o < j < |text| && IsSuspended(t, o) && InPlainText(t)
    requires t.angleBy.Keys !! t.quoteBy.Keys && t.angleBy.Keys !! t.titleBy.Keys && t.quoteBy.Keys !! t.titleBy.Keys
    requires o in t.closures ==> t.closures[o] != j
    requires var n := InText(text, j, t); o in n.closures && n.closures[o] == j
    ensures ContextOf(InText(text, j, t)) == SuspendedContext(t, o)
  {
    if text[j] == ')' && t.openings != [] {
      assert InText(text, j, t) == Close(t, j);
      CloseContext(t, j, o);
    } else {
      TextStays(text, j, t);
    }
  }

  lemma CloseContext(t: Scan, j: nat, o: nat)
    requires t.openings != [] && IsSuspended(t, o) && InPlainText(t)
    requires t.angleBy.Keys !! t.quoteBy.Keys && t.angleBy.Keys !! t.titleBy.Keys && t.quoteBy.Keys !! t.titleBy.Keys
    requires o in t.closures ==> t.closures[o] != j
    requires o in Close(t, j).closures && Close(t, j).closures[o] == j
    ensures ContextOf(Close(t, j)) == SuspendedContext(t, o)
  {
    assert o == t.openings[|t.openings| - 1];
  }

  /** The context that a nested link interrupts is the one that is read again right after the link's own
      parenthesis has closed, whatever lies between. */
  lemma NestedLinkRestores(text: string, i: nat, j: nat, proven: Option<set<nat>>)
    requires i < j < |text|
    requires ContextOf(ScanTo(text, i, proven)) != Plain && i in ScanTo(text, i + 1, proven).active
    requires var n := ScanTo(text, j + 1, proven).closures; i in n && n[i] == j
    ensures ContextOf(ScanTo(text, j + 1, proven)) == ContextOf(ScanTo(text, i, proven))
  {
    OpensNested(text, i, proven);
    Remembers(text, i + 1, j, proven, i);
    ClosesNested(text, i, j, proven);
  }

  lemma OpensNested(text: string, i: nat, proven: Option<set<nat>>)
    requires i < |text| && ContextOf(ScanTo(text, i, proven)) != Plain && i in ScanTo(text, i + 1, proven).active
    ensures var n := ScanTo(text, i + 1, proven);
            OpensLink(text, i) && IsSuspended(n, i) && SuspendedContext(n, i) == ContextOf(ScanTo(text, i, proven))
  {
    var s := ScanTo(text, i, proven);
    ScanValid(text, i, proven);
    assert i !in s.active && !IsSuspended(s, i);
    if Acts(text, i, s) {
      SuspendsAt(text, i, s, proven);
    } else {
      NextIdle(text, i, s, proven);
    }
  }

  lemma ClosesNested(text: string, o: nat, j: nat, proven: Option<set<nat>>)
    requires o < j < |text| && IsSuspended(ScanTo(text, j, proven), o) && OpensLink(text, o)
    requires var n := ScanTo(text, j + 1, proven).closures; o in n && n[o] == j
    ensures ContextOf(ScanTo(text, j + 1, proven)) == SuspendedContext(ScanTo(text, j, proven), o)
  {
    var t := ScanTo(text, j, proven);
    ScanValid(text, j, proven);
    assert o in t.closures ==> IsPair(text, o, t.closures[o], j);
    if Acts(text, j, t) {
      ClosesAt(text, j, t, o, proven);
    } else {
      NextIdle(text, j, t, proven);
    }
  }

  lemma ScanKeepsQuotes(text: string, i: nat, proven: Option<set<nat>>)
    requires i <= |text|
    ensures var s := ScanTo(text, i, proven); s.quote.Some? ==> IsQuote(s.quote.value.delimiter)
  {
    ScanValid(text, i, proven);
  }

  // ---- the scanner

  class ParenthesisPass {
    var active: seq<nat>
    var closures: map<nat, nat>
    var openings: seq<nat>
    var angleBy: map<nat, nat>
    var titleBy: map<nat, Title>
    var quoteBy: map<nat, Quote>
    var contexts: map<nat, Phase>
    var valid: set<nat>
    var angle: Option<nat>
    var escaped: bool
    var title: Option<Title>
    var quote: Option<Quote>

    function View(): Scan
      reads this
    {
      Scan(active, closures, openings, angleBy, titleBy, quoteBy, contexts, valid, angle, escaped, title, quote)
    }

    constructor ()
      ensures View() == EMPTY
    {
      active, closures, openings, angleBy, titleBy, quoteBy := [], map[], [], map[], map[], map[];
      contexts, valid, angle, escaped, title, quote := map[], {}, None, false, None, None;
    }

    method SpoilInnermost()
      requires active != []
      modifies this`contexts
      ensures View() == Spoil(old(View()), active[|active| - 1])
    {
      contexts := contexts[active[|active| - 1] := Invalid];
    }

    method PushLink(i: nat)
      modifies this`active, this`openings
      ensures View() == OpenLink(old(View()), i)
    {
      active := active + [i];
      openings := openings + [i];
    }

    method ReadAngle(text: string, i: nat, proven: Option<set<nat>>)
      requires i < |text| && angle.Some?
      modifies this
      ensures View() == InAngle(text, i, old(View()), proven)
    {
      var opening := angle.value;
      if text[i] == '<' && opening in contexts {
        contexts := contexts[opening := Invalid];
      }
      if text[i] == '>' {
        angle := None;
        if opening !in contexts || contexts[opening] != Invalid {
          contexts := contexts[opening := AfterDestination];
        }
      }
      if OpensLink(text, i) && !Shut(proven, opening) {
        PushLink(i);
        angleBy := angleBy[i := opening];
        angle := None;
      }
    }

    method ReadQuote(text: string, i: nat, proven: Option<set<nat>>)
      requires i < |text| && quote.Some? && IsQuote(quote.value.delimiter)
      modifies this
      ensures View() == InQuote(text, i, old(View()), proven)
    {
      var suspended := quote.value;
      if text[i] == suspended.delimiter {
        quote := None;
        contexts := contexts[suspended.opening := AfterTitle];
      }
      if OpensLink(text, i) && !Shut(proven, suspended.opening) {
        PushLink(i);
        quoteBy := quoteBy[i := suspended];
        quote := None;
      }
    }

    method ReadTitle(text: string, i: nat, proven: Option<set<nat>>)
      requires i < |text| && title.Some?
      modifies this
      ensures View() == InTitle(text, i, old(View()), proven)
    {
      var suspended := title.value;
      if text[i] == ')' {
        if openings != [] {
          var top := openings[|openings| - 1];
          openings := openings[..|openings| - 1];
          if top == suspended.opening {
            closures := closures[top := i];
            title := None;
            contexts := contexts[suspended.link := AfterTitle];
          }
        }
      } else if OpensLink(text, i) && !Shut(proven, suspended.link) {
        PushLink(i);
        titleBy := titleBy[i := suspended];
        title := None;
      }
    }

    method PopTop(i: nat)
      requires openings != []
      modifies this`openings, this`closures, this`valid, this`active
      ensures View() == Pop(old(View()), i)
    {
      var o := openings[|openings| - 1];
      openings := openings[..|openings| - 1];
      closures := closures[o := i];
      if o in contexts && (contexts[o] == AfterDestination || contexts[o] == AfterTitle) {
        valid := valid + {o};
      }
      if active != [] && active[|active| - 1] == o {
        active := active[..|active| - 1];
      }
    }

    method RestoreContext(o: nat)
      modifies this`angle, this`quote, this`title
      ensures View() == Restore(old(View()), o)
    {
      angle := if o in angleBy then Some(angleBy[o]) else angle;
      quote := if o in quoteBy then Some(quoteBy[o]) else quote;
      title := if o in titleBy then Some(titleBy[o]) else title;
    }

    method CloseTop(i: nat)
      requires openings != []
      modifies this
      ensures View() == Close(old(View()), i)
    {
      var o := openings[|openings| - 1];
      PopTop(i);
      RestoreContext(o);
    }

    method ReadText(text: string, i: nat)
      requires i < |text|
      modifies this
      ensures View() == InText(text, i, old(View()))
    {
      var c, link := text[i], Last(active);
      if IsQuote(c) && link.Some? && SpaceBefore(text, i) {
        if link.value !in contexts || contexts[link.value] == AfterDestination {
          contexts := contexts[link.value := InsideQuote];
          quote := Some(Quote(c, link.value));
        }
        return;
      }
      if c == '(' && link.Some? && SpaceBefore(text, i) {
        if link.value !in contexts || contexts[link.value] == AfterDestination {
          contexts := contexts[link.value := InsideTitle];
          title := Some(Title(link.value, i));
          openings := openings + [i];
          return;
        }
      }
      if c == '(' {
        if OpensLink(text, i) {
          active := active + [i];
        }
        openings := openings + [i];
        return;
      }
      if c == '<' && i >= 2 && Last(openings) == Some(i - 1) && text[i - 2] == ']' {
        contexts := contexts[i - 1 := InsideAngle];
        angle := Some(i - 1);
        return;
      }
      if c == ')' && openings != [] {
        CloseTop(i);
      }
    }

    method Read(text: string, i: nat, proven: Option<set<nat>>)
      requires i < |text| && (quote.Some? ==> IsQuote(quote.value.delimiter))
      modifies this
      ensures View() == Next(text, i, old(View()), proven)
    {
      if text[i] == '\n' {
        active, angle, escaped, openings, title, quote := [], None, false, [], None, None;
      } else {
        SpoilEscaped(text, i);
        if escaped {
          escaped := false;
        } else if text[i] == '\\' {
          escaped := true;
        } else {
          ReadUnescaped(text, i, proven);
        }
      }
    }

    method SpoilEscaped(text: string, i: nat)
      requires i < |text|
      modifies this`contexts
      ensures View() == SpoilByEscape(text, i, old(View()))
    {
      if (escaped || text[i] == '\\') && IsAfter(Lookup(contexts, Last(active))) {
        SpoilInnermost();
      }
    }

    /** The rest of the loop body, in the context being read. */
    method ReadUnescaped(text: string, i: nat, proven: Option<set<nat>>)
      requires i < |text| && (quote.Some? ==> IsQuote(quote.value.delimiter))
      modifies this
      ensures View() == Act(text, i, old(View()), proven)
    {
      if angle.Some? {
        ReadAngle(text, i, proven);
      } else if quote.Some? {
        ReadQuote(text, i, proven);
      } else if title.Some? {
        ReadTitle(text, i, proven);
      } else {
        SpoilUnexpected(text, i);
        ReadText(text, i);
      }
    }

    method SpoilUnexpected(text: string, i: nat)
      requires i < |text|
      modifies this`contexts
      ensures View() == SpoilByText(text, i, old(View()))
    {
      if IsAfter(Lookup(contexts, Last(active))) {
        var afterDestination := contexts[active[|active| - 1]] == AfterDestination;
        var outerClose := text[i] == ')' && Last(openings) == Last(active);
        var titleStart := afterDestination && (IsQuote(text[i]) || text[i] == '(') && SpaceBefore(text, i);
        if !Text.IsSpace(text[i]) && !outerClose && !titleStart {
          SpoilInnermost();
        }
      }
    }

    /** The loop over the characters. */
    method Run(text: string, proven: Option<set<nat>>)
      requires View() == EMPTY
      modifies this
      ensures View() == ScanTo(text, |text|, proven)
    {
      for i := 0 to |text|
        invariant View() == ScanTo(text, i, proven)
      {
        ScanKeepsQuotes(text, i, proven);
        Read(text, i, proven);
      }
    }
  }

  /** What both passes together give: the strict pass proves contexts valid, the second opens the links nested
      in the others. */
  function Scanned(text: string): Scan {
    ScanTo(text, |text|, Some(ScanTo(text, |text|, None).valid))
  }

  /** `collectMarkdownParenthesisClosures`. */
  method CollectClosures(text: string) returns (closures: map<nat, nat>, valid: set<nat>)
    ensures closures == Scanned(text).closures && valid == Scanned(text).valid
    ensures valid <= closures.Keys
    ensures forall o: nat :: o in closures ==> IsPair(text, o, closures[o], |text|)
    ensures forall o: nat, p: nat :: o in closures && p in closures && o < p ==> closures[o] < p || closures[p] < closures[o]
  {
    var strict := new ParenthesisPass();
    strict.Run(text, None);
    var second := new ParenthesisPass();
    second.Run(text, Some(strict.valid));
    closures, valid := second.closures, second.valid;
    ScanValid(text, |text|, Some(strict.valid));
  }
}
