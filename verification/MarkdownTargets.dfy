/** Which link destinations are rewritten, and into what (packages/protocol/src/markdown.ts:285-325, 572-686).

    The regular expressions of the source are spelled out as predicates on positions. */
module MarkdownTargets {
  import opened Wrappers
  import Text
  import opened MarkdownScan

  // ---- titles

  /** What `.` does not match. */
  predicate IsLineEnd(c: char) {
    c == '\n' || c == '\r' || 0x2028 <= c as int <= 0x2029
  }

  predicate AllSpace(s: string) {
    forall k :: 0 <= k < |s| ==> Text.IsSpace(s[k])
  }

  /** The first position from `i` that is not a space. */
  function SpacesEnd(s: string, i: nat): (e: nat)
    requires i <= |s|
    ensures i <= e <= |s| && (forall k :: i <= k < e ==> Text.IsSpace(s[k])) && (e < |s| ==> !Text.IsSpace(s[e]))
    decreases |s| - i
  {
    if i < |s| && Text.IsSpace(s[i]) then SpacesEnd(s, i + 1) else i
  }

  /** The length without the spaces at the end. */
  function Trimmed(s: string): (e: nat)
    ensures e <= |s| && (forall k :: e <= k < |s| ==> Text.IsSpace(s[k])) && (e > 0 ==> !Text.IsSpace(s[e - 1]))
  {
    if s != "" && Text.IsSpace(s[|s| - 1]) then Trimmed(s[..|s| - 1]) else |s|
  }

  predicate Behind(s: string, p: nat, c: char)
    requires p < |s|
  {
    p > 0 && s[p - 1] == c
  }

  /** `"(?:\\.|[^"])*"` and its two relatives: inside quotes every quote is behind a backslash. */
  predicate IsTitleText(s: string, b: nat, e: nat)
    requires e <= |s|
  {
    b + 2 <= e &&
    if s[b] == '(' then s[e - 1] == ')' && forall p :: b < p < e - 1 ==> s[p] != ')'
    else IsQuote(s[b]) && s[e - 1] == s[b] && forall p {:trigger Behind(s, p, '\\')} :: b < p < e - 1 && s[p] == s[b] ==> p > b + 1 && Behind(s, p, '\\')
  }

  /** `\s+`, a title and spaces, from `k` to the end. */
  predicate TitleAt(value: string, k: nat) {
    && k < |value| && Text.IsSpace(value[k])
    && SpacesEnd(value, k) < Trimmed(value) && IsTitleText(value, SpacesEnd(value, k), Trimmed(value))
  }

  /** The lazy `(.*?)`: the first title, with no line end before it. */
  function FirstTitle(value: string, k: nat): (r: Option<nat>)
    requires k <= |value|
    ensures r.Some? ==> k <= r.value && TitleAt(value, r.value)
    ensures r.Some? ==> forall j {:trigger TitleAt(value, j)} :: k <= j < r.value ==> !TitleAt(value, j)
    ensures r.Some? ==> forall j {:trigger IsLineEnd(value[j])} :: k <= j < r.value ==> !IsLineEnd(value[j])
    ensures r.None? ==> forall j {:trigger TitleAt(value, j)} :: k <= j < |value| && TitleAt(value, j) ==>
                          exists i :: k <= i < j && IsLineEnd(value[i])
    decreases |value| - k
  {
    if TitleAt(value, k) then Some(k)
    else if k == |value| || IsLineEnd(value[k]) then None
    else FirstTitle(value, k + 1)
  }

  /** `splitRawMarkdownTarget`: where the target ends and where the title behind it ends; equal without a title. */
  function SplitRaw(value: string): (r: (nat, nat))
    ensures r.0 <= r.1 <= |value| && (r.0 == r.1 ==> r.0 == |value|)
    ensures r.0 < r.1 ==> r.0 > 0 && TitleAt(value, r.0) && r.1 == Trimmed(value)
    ensures forall k :: r.1 <= k < |value| ==> Text.IsSpace(value[k])
  {
    match FirstTitle(value, 0)
    case None => (|value|, |value|)
    case Some(k) => if k == 0 then (|value|, |value|) else (k, Trimmed(value))
  }

  /** No title and no line end from `k` to `p`. */
  predicate NoTitleBefore(value: string, k: nat, p: nat) {
    forall j: nat :: k <= j < p ==> !Stops(value, j)
  }

  predicate Stops(value: string, j: nat) {
    j < |value| && (TitleAt(value, j) || IsLineEnd(value[j]))
  }

  /** The first title, on the first line. */
  predicate FirstTitleAt(value: string, k: nat) {
    k < |value| && TitleAt(value, k) && NoTitleBefore(value, 0, k)
  }

  lemma NoTitleStep(value: string, k: nat, p: nat)
    requires k < p
    ensures NoTitleBefore(value, k, p) <==> !Stops(value, k) && NoTitleBefore(value, k + 1, p)
  {
    if !Stops(value, k) && NoTitleBefore(value, k + 1, p) {
      forall j: nat | k <= j < p ensures !Stops(value, j) {
        assert j == k || k + 1 <= j;
      }
    }
  }

  lemma {:induction false} FirstTitleExactly(value: string, k: nat, p: nat)
    requires k <= p < |value|
    ensures FirstTitle(value, k) == Some(p) <==> TitleAt(value, p) && NoTitleBefore(value, k, p)
    decreases p - k
  {
    if k < p {
      NoTitleStep(value, k, p);
      if !Stops(value, k) {
        FirstTitleExactly(value, k + 1, p);
      }
    }
  }

  predicate SplitsAt(value: string, k: nat) {
    0 < k && FirstTitleAt(value, k)
  }

  /** A title splits off behind a target that is not empty, and is the first one. */
  lemma SplitExactly(value: string, k: nat)
    ensures SplitsAt(value, k) <==> SplitRaw(value) == (k, Trimmed(value)) && k < Trimmed(value)
  {
    if 0 < k < |value| {
      FirstTitleExactly(value, 0, k);
    }
  }

  ghost predicate Splits(value: string) {
    exists k: nat :: SplitsAt(value, k)
  }

  lemma SplitsSomewhere(value: string)
    ensures SplitRaw(value).0 < SplitRaw(value).1 <==> Splits(value)
    ensures SplitRaw(value).0 == SplitRaw(value).1 ==> SplitRaw(value) == (|value|, |value|)
  {
    SplitExactly(value, SplitRaw(value).0);
    if k: nat :| SplitsAt(value, k) {
      SplitExactly(value, k);
    }
  }

  predicate TitleSyntaxAt(value: string, i: nat) {
    i + 1 < |value| && Text.IsSpace(value[i]) && (IsQuote(value[i + 1]) || value[i + 1] == '(')
  }

  /** `/\s+["'(]/`. */
  predicate HasTitleSyntax(value: string) {
    exists i: nat :: i < |value| && TitleSyntaxAt(value, i)
  }

  /** What may stand between `>` and the closing parenthesis. */
  predicate IsLinkTitle(suffix: string) {
    AllSpace(suffix) || (SpacesEnd(suffix, 0) < Trimmed(suffix) && IsTitleText(suffix, SpacesEnd(suffix, 0), Trimmed(suffix)))
  }

  /** `/^[A-Za-z]:\\/` from `i`. */
  predicate DriveAt(text: string, i: nat) {
    i + 2 < |text| && ('A' <= text[i] <= 'Z' || 'a' <= text[i] <= 'z') && text[i + 1] == ':' && text[i + 2] == '\\'
  }

  // ---- link labels

  /** The unescaped brackets open before `i`, and those closed. */
  function BracketsTo(text: string, i: nat): (r: (nat, set<nat>))
    requires i <= |text|
  {
    if i == 0 then (0, {})
    else
      var (open, closed) := BracketsTo(text, i - 1);
      if Escaped(text, i - 1) then (open, closed)
      else if text[i - 1] == '[' then (open + 1, closed)
      else if text[i - 1] == ']' && open > 0 then (open - 1, closed + {i - 1})
      else (open, closed)
  }

  /** `collectMarkdownLinkClosingBrackets`. */
  method CollectClosingBrackets(text: string) returns (closing: set<nat>)
    ensures closing == BracketsTo(text, |text|).1
  {
    closing := {};
    var openings: seq<nat> := [];
    var backslashRun := 0;
    for i := 0 to |text|
      invariant (|openings|, closing) == BracketsTo(text, i)
      invariant backslashRun % 2 == 1 <==> Escaped(text, i)
    {
      if text[i] == '\\' {
        backslashRun := backslashRun + 1;
      } else {
        var escaped := backslashRun % 2 == 1;
        backslashRun := 0;
        if !escaped {
          if text[i] == '[' {
            openings := openings + [i];
          } else if text[i] == ']' && |openings| > 0 {
            openings := openings[..|openings| - 1];
            closing := closing + {i};
          }
        }
      }
    }
  }

  /** `isMarkdownCharacterEscaped`: an odd number of backslashes. */
  method IsEscaped(text: string, index: nat) returns (escaped: bool)
    requires index <= |text|
    ensures escaped <==> Escaped(text, index)
  {
    var count := 0;
    var cursor: nat := index;
    while cursor > 0 && text[cursor - 1] == '\\'
      invariant 0 <= cursor <= index
      invariant Escaped(text, index) <==> (if count % 2 == 0 then Escaped(text, cursor) else !Escaped(text, cursor))
    {
      cursor := cursor - 1;
      count := count + 1;
    }
    escaped := count % 2 == 1;
  }

  // ---- edits

  /** A destination to rewrite: `text[start..end]` from behind `](` to behind the closing parenthesis, in it the
      target `text[from..to]`, the rest `text[to..rest]` of an angle destination that is dropped, and the title
      `text[title..titleEnd]`. */
  datatype Edit = Edit(start: nat, from: nat, to: nat, rest: nat, title: nat, titleEnd: nat, end: nat)

  function Slashed(s: string): (r: string)
    ensures |r| == |s| && forall k :: 0 <= k < |s| ==> r[k] == if s[k] == '\\' then '/' else s[k]
  {
    if s == "" then "" else [if s[0] == '\\' then '/' else s[0]] + Slashed(s[1..])
  }

  function Replacement(text: string, e: Edit): string
    requires e.from <= e.to <= |text| && e.title <= e.titleEnd <= |text|
  {
    "</" + Slashed(text[e.from..e.to]) + ">" + text[e.title..e.titleEnd] + ")"
  }

  /** An edit on one line, in a link, its parts in order: `<target rest>title)` or `target title spaces)`. */
  predicate Fits(text: string, e: Edit) {
    && 2 <= e.start <= e.from < e.to <= e.rest <= e.title <= e.titleEnd < e.end <= |text|
    && text[e.start - 2] == ']' && text[e.start - 1] == '(' && text[e.end - 1] == ')' && SameLine(text, e.start, e.end)
    && DriveAt(text, e.from)
    && if e.from > e.start then
         && e.from == e.start + 1 && text[e.start] == '<' && text[e.rest] == '>' && e.title == e.rest + 1 && e.titleEnd == e.end - 1
         && (e.to < e.rest ==> Text.IsSpace(text[e.to]))
       else
         && e.from == e.start && e.to == e.rest == e.title && (forall k :: e.titleEnd <= k < e.end - 1 ==> Text.IsSpace(text[k]))
         && (e.title < e.titleEnd ==> Text.IsSpace(text[e.title])) && (e.title == e.titleEnd ==> e.titleEnd == e.end - 1)
  }

  /** The pairs of parentheses an edit relies on. */
  ghost predicate Paired(text: string, closures: map<nat, nat>) {
    forall o: nat :: o in closures ==> IsPair(text, o, closures[o], |text|)
  }

  /** The first of `<` and `>` in a range, if it is a `>`. */
  function AngleEnd(text: string, i: nat, end: nat): (r: Option<nat>)
    requires i <= end <= |text|
    ensures r.Some? ==> i <= r.value < end && text[r.value] == '>' && forall k :: i <= k < r.value ==> text[k] != '<' && text[k] != '>'
    decreases end - i
  {
    if i == end || text[i] == '<' then None
    else if text[i] == '>' then Some(i)
    else AngleEnd(text, i + 1, end)
  }

  /** The search loop of `findAngleMarkdownTargetBounds`. */
  method FindAngleEnd(text: string, start: nat, closing: nat) returns (end: Option<nat>)
    requires start <= closing <= |text|
    ensures end == AngleEnd(text, start, closing)
  {
    for i := start to closing
      invariant AngleEnd(text, i, closing) == AngleEnd(text, start, closing)
    {
      if text[i] == '<' {
        return None;
      }
      if text[i] == '>' {
        return Some(i);
      }
    }
    end := None;
  }

  predicate LinkBounds(text: string, start: nat, c: nat) {
    2 <= start <= c < |text| && text[start - 2] == ']' && text[start - 1] == '(' && text[c] == ')' && SameLine(text, start - 1, c)
  }

  /** Where the target of the destination `text[from..end]` ends. */
  function TargetEnd(text: string, from: nat, end: nat): (to: nat)
    requires from <= end <= |text|
    ensures from <= to <= end
  {
    from + SplitRaw(text[from..end]).0
  }

  /** The edit of an angle destination that ends at `end`. */
  function AngleEditTo(text: string, start: nat, end: nat, c: nat): Edit
    requires start + 1 <= end < c < |text|
  {
    Edit(start, start + 1, TargetEnd(text, start + 1, end), end, end + 1, c, c + 1)
  }

  function RawEditTo(text: string, start: nat, c: nat): Edit
    requires start <= c < |text|
  {
    var (to, titleEnd) := SplitRaw(text[start..c]);
    Edit(start, start, start + to, start + to, start + to, start + titleEnd, c + 1)
  }

  function AngleEdit(text: string, start: nat, c: nat): (r: Option<Edit>)
    requires LinkBounds(text, start, c) && text[start] == '<'
  {
    var end := AngleEnd(text, start + 1, c);
    if end.None? then None
    else if IsLinkTitle(text[end.value + 1..c]) then Some(AngleEditTo(text, start, end.value, c)) else None
  }

  function RawEdit(text: string, start: nat, c: nat, contextValid: bool): (r: Option<Edit>)
    requires LinkBounds(text, start, c)
  {
    var e := RawEditTo(text, start, c);
    if HasTitleSyntax(text[start..c]) && (e.title == e.titleEnd || !contextValid) then None else Some(e)
  }

  /** What the loop body does with the `](` at `o`. */
  function EditAt(text: string, o: nat, labels: set<nat>, closures: map<nat, nat>, valid: set<nat>): (r: Option<Edit>)
    requires o + 1 < |text| && text[o] == ']' && text[o + 1] == '(' && Paired(text, closures)
  {
    var start, angle := o + 2, o + 2 < |text| && text[o + 2] == '<';
    if o !in labels || !DriveAt(text, if angle then start + 1 else start) || o + 1 !in closures then None
    else
      assert IsPair(text, o + 1, closures[o + 1], |text|);
      if angle then AngleEdit(text, start, closures[o + 1]) else RawEdit(text, start, closures[o + 1], o + 1 in valid)
  }

  lemma DriveIsNoTitle(value: string)
    requires DriveAt(value, 0)
    ensures SplitRaw(value).0 >= 3
  {
  }

  lemma AngleFits(text: string, start: nat, c: nat)
    requires LinkBounds(text, start, c) && text[start] == '<' && DriveAt(text, start + 1)
    ensures var e := AngleEdit(text, start, c); e.Some? ==> Fits(text, e.value) && e.value.start == start
  {
    var end := AngleEnd(text, start + 1, c);
    if end.Some? {
      assert end.value >= start + 4 by {
        assert text[end.value] == '>';
      }
      var value := text[start + 1..end.value];
      DriveIsNoTitle(value);
      assert SplitRaw(value).0 < |value| ==> text[start + 1 + SplitRaw(value).0] == value[SplitRaw(value).0];
    }
  }

  lemma RawFits(text: string, start: nat, c: nat, contextValid: bool)
    requires LinkBounds(text, start, c) && DriveAt(text, start)
    ensures var e := RawEdit(text, start, c, contextValid); e.Some? ==> Fits(text, e.value) && e.value.start == start
  {
    assert c >= start + 3;
    var value := text[start..c];
    DriveIsNoTitle(value);
    var (to, titleEnd) := SplitRaw(value);
    forall k | start + titleEnd <= k < c ensures Text.IsSpace(text[k]) {
      assert text[k] == value[k - start];
    }
    assert to < titleEnd ==> text[start + to] == value[to];
  }

  /** What is rewritten fits the text. */
  lemma EditFits(text: string, o: nat, labels: set<nat>, closures: map<nat, nat>, valid: set<nat>)
    requires o + 1 < |text| && text[o] == ']' && text[o + 1] == '(' && Paired(text, closures)
    ensures var e := EditAt(text, o, labels, closures, valid); e.Some? ==> Fits(text, e.value) && e.value.start == o + 2
  {
    if EditAt(text, o, labels, closures, valid).Some? {
      assert IsPair(text, o + 1, closures[o + 1], |text|);
      if text[o + 2] == '<' {
        AngleFits(text, o + 2, closures[o + 1]);
      } else {
        RawFits(text, o + 2, closures[o + 1], o + 1 in valid);
      }
    }
  }

  /** `text.indexOf("](", from)`; the length of the text if there is none. */
  function IndexOf(text: string, from: nat): (o: nat)
    requires from <= |text|
    ensures from <= o <= |text| && (o < |text| ==> o + 1 < |text| && text[o] == ']' && text[o + 1] == '(')
    decreases |text| - from
  {
    if from + 1 >= |text| then |text|
    else if text[from] == ']' && text[from + 1] == '(' then from
    else IndexOf(text, from + 1)
  }

  /** The edits of the main loop from `from` on. */
  function Edits(text: string, from: nat, labels: set<nat>, closures: map<nat, nat>, valid: set<nat>): seq<Edit>
    requires from <= |text| && Paired(text, closures)
    decreases |text| - from
  {
    var o := IndexOf(text, from);
    if o == |text| then []
    else
      EditFits(text, o, labels, closures, valid);
      match EditAt(text, o, labels, closures, valid)
      case None => Edits(text, o + 2, labels, closures, valid)
      case Some(e) => [e] + Edits(text, e.end, labels, closures, valid)
  }

  /** Edits that fit, one after the other. */
  ghost predicate FitFrom(text: string, from: nat, edits: seq<Edit>)
    requires from <= |text|
    decreases |edits|
  {
    edits == [] || (from + 2 <= edits[0].start && Fits(text, edits[0]) && FitFrom(text, edits[0].end, edits[1..]))
  }

  lemma {:induction false} FitLater(text: string, from: nat, later: nat, edits: seq<Edit>)
    requires from <= later <= |text| && FitFrom(text, later, edits)
    ensures FitFrom(text, from, edits)
  {
  }

  lemma {:induction false} EditsFit(text: string, from: nat, labels: set<nat>, closures: map<nat, nat>, valid: set<nat>)
    requires from <= |text| && Paired(text, closures)
    ensures FitFrom(text, from, Edits(text, from, labels, closures, valid))
    decreases |text| - from
  {
    var o := IndexOf(text, from);
    if o < |text| {
      EditFits(text, o, labels, closures, valid);
      match EditAt(text, o, labels, closures, valid) {
        case None =>
          EditsFit(text, o + 2, labels, closures, valid);
          FitLater(text, from, o + 2, Edits(text, o + 2, labels, closures, valid));
        case Some(e) =>
          EditsFit(text, e.end, labels, closures, valid);
          assert ([e] + Edits(text, e.end, labels, closures, valid))[1..] == Edits(text, e.end, labels, closures, valid);
      }
    }
  }

  /** Edits one after the other within the text. */
  predicate Ordered(text: string, from: nat, edits: seq<Edit>)
    decreases |edits|
  {
    from <= |text| && (edits == [] || (from <= edits[0].start && InOrder(text, edits[0]) && Ordered(text, edits[0].end, edits[1..])))
  }

  predicate InOrder(text: string, e: Edit) {
    e.start <= e.from <= e.to <= e.rest <= e.title <= e.titleEnd <= e.end <= |text|
  }

  lemma {:induction false} FitOrdered(text: string, from: nat, edits: seq<Edit>)
    requires from <= |text| && FitFrom(text, from, edits)
    ensures Ordered(text, from, edits)
    decreases |edits|
  {
    if edits != [] {
      FitOrdered(text, edits[0].end, edits[1..]);
    }
  }

  lemma EditsOrdered(text: string, from: nat, labels: set<nat>, closures: map<nat, nat>, valid: set<nat>)
    requires from <= |text| && Paired(text, closures)
    ensures Ordered(text, from, Edits(text, from, labels, closures, valid))
  {
    EditsFit(text, from, labels, closures, valid);
    FitOrdered(text, from, Edits(text, from, labels, closures, valid));
  }

  /** The text from `from` on with the edits made. */
  function Apply(text: string, from: nat, edits: seq<Edit>): string
    requires Ordered(text, from, edits)
    decreases |edits|
  {
    if edits == [] then text[from..]
    else text[from..edits[0].start] + Replacement(text, edits[0]) + Apply(text, edits[0].end, edits[1..])
  }

  lemma ScanPaired(text: string)
    ensures Paired(text, Scanned(text).closures)
  {
    ScanValid(text, |text|, Some(ScanTo(text, |text|, None).valid));
  }

  /** The edits `normalizeWindowsMarkdownTargetsInText` makes. */
  function AllEdits(text: string): (edits: seq<Edit>)
    ensures Ordered(text, 0, edits)
  {
    ScanPaired(text);
    EditsOrdered(text, 0, BracketsTo(text, |text|).1, Scanned(text).closures, Scanned(text).valid);
    Edits(text, 0, BracketsTo(text, |text|).1, Scanned(text).closures, Scanned(text).valid)
  }

  /** Each edit rewrites a link destination on one line, and they do not overlap. */
  lemma AllEditsFit(text: string)
    ensures FitFrom(text, 0, AllEdits(text))
  {
    ScanPaired(text);
    EditsFit(text, 0, BracketsTo(text, |text|).1, Scanned(text).closures, Scanned(text).valid);
  }

  // ---- which destinations the loop rewrites

  predicate StartsAt(edits: seq<Edit>, o: nat) {
    exists e <- edits :: e.start == o + 2
  }

  /** Of the destinations that can be edited, none from `from` on encloses the one at `o`. */
  ghost predicate OutermostEdit(at: nat -> Option<Edit>, closures: map<nat, nat>, from: nat, o: nat) {
    at(o).Some? && forall p: nat :: from <= p < o && at(p).Some? ==> p + 1 in closures && closures[p + 1] < o
  }

  /** The main loop from `from` on, in terms of what its body does with the link at a position. */
  ghost predicate LoopStep(at: nat -> Option<Edit>, next: nat -> nat, edits: nat -> seq<Edit>, n: nat, from: nat) {
    var first := next(from);
    && from <= first <= n && (forall p: nat :: from <= p < first ==> at(p).None?) && (forall e <- edits(from) :: from + 2 <= e.start)
    && if first == n then edits(from) == [] && forall p: nat :: n <= p ==> at(p).None?
       else if at(first).None? then first + 2 <= n && at(first + 1).None? && edits(from) == edits(first + 2)
       else edits(from) == [at(first).value] + edits(at(first).value.end)
  }

  /** Every edit ends with its pair of parentheses. */
  ghost predicate Placed(at: nat -> Option<Edit>, closures: map<nat, nat>, n: nat) {
    forall o: nat :: at(o).Some? ==>
      && o + 1 in closures && o < closures[o + 1] < n
      && at(o).value.start == o + 2 && at(o).value.end == closures[o + 1] + 1
  }

  ghost predicate Nested(at: nat -> Option<Edit>, closures: map<nat, nat>) {
    forall o: nat, p: nat :: at(o).Some? && at(p).Some? && o + 1 in closures && o < p <= closures[o + 1] ==>
      p + 1 in closures && closures[p + 1] < closures[o + 1]
  }

  ghost predicate IsLoop(at: nat -> Option<Edit>, closures: map<nat, nat>, next: nat -> nat, edits: nat -> seq<Edit>, n: nat) {
    Placed(at, closures, n) && forall f: nat :: f <= n ==> LoopStep(at, next, edits, n, f)
  }

  lemma StartsFirst(e: Edit, rest: seq<Edit>, o: nat)
    ensures StartsAt([e] + rest, o) <==> e.start == o + 2 || StartsAt(rest, o)
  {
  }

  /** Such a loop rewrites exactly the outermost of the destinations that can be edited. */
  lemma {:induction false} LoopRewrites(at: nat -> Option<Edit>, closures: map<nat, nat>, next: nat -> nat, edits: nat -> seq<Edit>,
                                        n: nat, from: nat, o: nat)
    requires IsLoop(at, closures, next, edits, n) && Nested(at, closures)
    requires from <= o && from <= n
    ensures StartsAt(edits(from), o) <==> OutermostEdit(at, closures, from, o)
    decreases n - from
  {
    var first := next(from);
    assert LoopStep(at, next, edits, n, from);
    if first == n {
    } else if at(first).None? {
      assert LoopStep(at, next, edits, n, first + 2);
      if first + 2 <= o {
        LoopRewrites(at, closures, next, edits, n, first + 2, o);
      }
      Skips(at, closures, edits(first + 2), from, first + 2, o);
    } else {
      var behind := closures[first + 1] + 1;
      assert LoopStep(at, next, edits, n, behind);
      if behind <= o {
        LoopRewrites(at, closures, next, edits, n, behind, o);
      }
      Takes(at, closures, edits(behind), n, from, first, o);
    }
  }

  /** Each of its edits is that of a link. */
  lemma {:induction false} LoopYields(at: nat -> Option<Edit>, closures: map<nat, nat>, next: nat -> nat, edits: nat -> seq<Edit>,
                                      n: nat, from: nat, e: Edit)
    requires IsLoop(at, closures, next, edits, n) && from <= n && e in edits(from)
    ensures 2 <= e.start && at(e.start - 2) == Some(e)
    decreases n - from
  {
    var first := next(from);
    assert LoopStep(at, next, edits, n, from);
    if at(first).None? {
      LoopYields(at, closures, next, edits, n, first + 2, e);
    } else if at(first) != Some(e) {
      LoopYields(at, closures, next, edits, n, at(first).value.end, e);
    }
  }

  lemma Skips(at: nat -> Option<Edit>, closures: map<nat, nat>, rest: seq<Edit>, from: nat, next: nat, o: nat)
    requires from <= o && from <= next && (forall p: nat :: from <= p < next ==> at(p).None?) && forall e <- rest :: next + 2 <= e.start
    requires next <= o ==> (StartsAt(rest, o) <==> OutermostEdit(at, closures, next, o))
    ensures StartsAt(rest, o) <==> OutermostEdit(at, closures, from, o)
  {
  }

  lemma Takes(at: nat -> Option<Edit>, closures: map<nat, nat>, rest: seq<Edit>, n: nat, from: nat, first: nat, o: nat)
    requires Placed(at, closures, n) && Nested(at, closures) && from <= o && from <= first
    requires at(first).Some? && forall p: nat :: from <= p < first ==> at(p).None?
    requires var behind := closures[first + 1] + 1;
             && (forall e <- rest :: behind + 2 <= e.start)
             && (behind <= o ==> (StartsAt(rest, o) <==> OutermostEdit(at, closures, behind, o)))
    ensures StartsAt([at(first).value] + rest, o) <==> OutermostEdit(at, closures, from, o)
  {
    StartsFirst(at(first).value, rest, o);
  }

  /** Pairs are disjoint or nested. */
  predicate NonCrossing(closures: map<nat, nat>) {
    forall o, p :: o in closures && p in closures && o < p ==> closures[o] < p || closures[p] < closures[o]
  }

  lemma {:induction false} IndexOfFirst(text: string, from: nat, k: nat)
    requires from <= |text| && from <= k < IndexOf(text, from)
    ensures !(k + 1 < |text| && text[k] == ']' && text[k + 1] == '(')
    decreases |text| - from
  {
    if from < k {
      IndexOfFirst(text, from + 1, k);
    }
  }

  lemma {:induction false} StartsBehind(text: string, from: nat, edits: seq<Edit>)
    requires from <= |text| && FitFrom(text, from, edits)
    ensures forall e <- edits :: from + 2 <= e.start
    decreases |edits|
  {
    if edits != [] {
      StartsBehind(text, edits[0].end, edits[1..]);
      assert forall e :: e in edits <==> e == edits[0] || e in edits[1..];
    }
  }

  predicate LinkAt(text: string, o: nat) {
    o + 1 < |text| && text[o] == ']' && text[o + 1] == '('
  }

  ghost function AtOf(text: string, labels: set<nat>, closures: map<nat, nat>, valid: set<nat>): nat -> Option<Edit> {
    (o: nat) => if Paired(text, closures) && LinkAt(text, o) then EditAt(text, o, labels, closures, valid) else None
  }

  function NextAt(text: string): nat -> nat {
    (from: nat) => if from <= |text| then IndexOf(text, from) else |text|
  }

  ghost function EditsFrom(text: string, labels: set<nat>, closures: map<nat, nat>, valid: set<nat>): nat -> seq<Edit> {
    (from: nat) => if from <= |text| && Paired(text, closures) then Edits(text, from, labels, closures, valid) else []
  }

  lemma EditPlaced(text: string, o: nat, labels: set<nat>, closures: map<nat, nat>, valid: set<nat>)
    requires Paired(text, closures) && LinkAt(text, o) && EditAt(text, o, labels, closures, valid).Some?
    ensures o + 1 in closures && o + 1 < closures[o + 1] < |text| && text[closures[o + 1]] == ')'
    ensures EditAt(text, o, labels, closures, valid).value.end == closures[o + 1] + 1
  {
    assert IsPair(text, o + 1, closures[o + 1], |text|);
  }

  lemma AllPlaced(text: string, labels: set<nat>, closures: map<nat, nat>, valid: set<nat>)
    requires Paired(text, closures)
    ensures Placed(AtOf(text, labels, closures, valid), closures, |text|)
  {
    forall o: nat | LinkAt(text, o) && EditAt(text, o, labels, closures, valid).Some?
      ensures o + 1 in closures && o < closures[o + 1] < |text|
      ensures EditAt(text, o, labels, closures, valid).value.start == o + 2
      ensures EditAt(text, o, labels, closures, valid).value.end == closures[o + 1] + 1
    {
      EditPlaced(text, o, labels, closures, valid);
      EditFits(text, o, labels, closures, valid);
    }
  }

  /** What opens inside a pair ends in it. */
  lemma NestedEnds(text: string, closures: map<nat, nat>, o: nat, p: nat)
    requires NonCrossing(closures) && o + 1 in closures && p + 1 in closures && o < p <= closures[o + 1] < |text|
    requires text[closures[o + 1]] == ')' && text[p] == ']'
    ensures closures[p + 1] < closures[o + 1]
  {
  }

  /** An edit is that of a bracket, and ends with the parenthesis its own is paired with. */
  ghost predicate Bracketed(text: string, at: nat -> Option<Edit>, closures: map<nat, nat>) {
    forall o: nat :: at(o).Some? ==>
      o + 1 in closures && o < closures[o + 1] < |text| && text[o] == ']' && text[closures[o + 1]] == ')'
  }

  lemma NestedByPlace(text: string, at: nat -> Option<Edit>, closures: map<nat, nat>)
    requires Bracketed(text, at, closures) && NonCrossing(closures)
    ensures Nested(at, closures)
  {
    forall o: nat, p: nat | at(o).Some? && at(p).Some? && o + 1 in closures && o < p <= closures[o + 1]
      ensures p + 1 in closures && closures[p + 1] < closures[o + 1]
    {
      NestedEnds(text, closures, o, p);
    }
  }

  lemma AllNested(text: string, labels: set<nat>, closures: map<nat, nat>, valid: set<nat>)
    requires Paired(text, closures) && NonCrossing(closures)
    ensures Nested(AtOf(text, labels, closures, valid), closures)
  {
    var at := AtOf(text, labels, closures, valid);
    forall o: nat | at(o).Some?
      ensures o + 1 in closures && o < closures[o + 1] < |text| && text[o] == ']' && text[closures[o + 1]] == ')'
    {
      EditPlaced(text, o, labels, closures, valid);
    }
    NestedByPlace(text, at, closures);
  }

  lemma NothingBefore(text: string, from: nat, labels: set<nat>, closures: map<nat, nat>, valid: set<nat>)
    requires from <= |text|
    ensures forall p: nat :: from <= p < IndexOf(text, from) ==> AtOf(text, labels, closures, valid)(p).None?
  {
    forall p: nat | from <= p < IndexOf(text, from) ensures !LinkAt(text, p) {
      IndexOfFirst(text, from, p);
    }
  }

  lemma StartsBehindFrom(text: string, from: nat, labels: set<nat>, closures: map<nat, nat>, valid: set<nat>)
    requires Paired(text, closures) && from <= |text|
    ensures forall e <- EditsFrom(text, labels, closures, valid)(from) :: from + 2 <= e.start
  {
    EditsFit(text, from, labels, closures, valid);
    StartsBehind(text, from, Edits(text, from, labels, closures, valid));
  }

  lemma TakesOrSkips(text: string, from: nat, labels: set<nat>, closures: map<nat, nat>, valid: set<nat>, o: nat, e: Option<Edit>)
    requires Paired(text, closures) && from <= |text| && o == IndexOf(text, from) && o < |text|
    requires AtOf(text, labels, closures, valid)(o) == e
    ensures var edits := EditsFrom(text, labels, closures, valid);
            if e.None? then edits(from) == edits(o + 2) else edits(from) == [e.value] + edits(e.value.end)
  {
    EditsAt(text, from, labels, closures, valid, o, e);
  }

  lemma NoLinkInside(text: string, o: nat, labels: set<nat>, closures: map<nat, nat>, valid: set<nat>)
    requires LinkAt(text, o)
    ensures AtOf(text, labels, closures, valid)(o + 1).None?
  {
  }

  lemma NoLinkBehind(text: string, labels: set<nat>, closures: map<nat, nat>, valid: set<nat>)
    ensures forall p: nat :: |text| <= p ==> AtOf(text, labels, closures, valid)(p).None?
  {
  }

  lemma FormsStep(at: nat -> Option<Edit>, next: nat -> nat, edits: nat -> seq<Edit>, n: nat, from: nat, first: nat)
    requires next(from) == first && from <= first <= n
    requires (forall p: nat :: from <= p < first ==> at(p).None?) && forall e <- edits(from) :: from + 2 <= e.start
    requires first == n ==> edits(from) == [] && forall p: nat :: n <= p ==> at(p).None?
    requires first < n ==> first + 2 <= n && at(first + 1).None?
    requires first < n ==> if at(first).None? then edits(from) == edits(first + 2)
                           else edits(from) == [at(first).value] + edits(at(first).value.end)
    ensures LoopStep(at, next, edits, n, from)
  {
  }

  lemma IsLoopStep(text: string, from: nat, labels: set<nat>, closures: map<nat, nat>, valid: set<nat>)
    requires Paired(text, closures) && from <= |text|
    ensures LoopStep(AtOf(text, labels, closures, valid), NextAt(text), EditsFrom(text, labels, closures, valid), |text|, from)
  {
    var first, at, edits := IndexOf(text, from), AtOf(text, labels, closures, valid), EditsFrom(text, labels, closures, valid);
    NothingBefore(text, from, labels, closures, valid);
    StartsBehindFrom(text, from, labels, closures, valid);
    if first == |text| {
      NoLinkBehind(text, labels, closures, valid);
    } else {
      NoLinkInside(text, first, labels, closures, valid);
      TakesOrSkips(text, from, labels, closures, valid, first, at(first));
    }
    FormsStep(at, NextAt(text), edits, |text|, from, first);
  }

  /** The main loop is such a loop. */
  lemma MainLoop(text: string, labels: set<nat>, closures: map<nat, nat>, valid: set<nat>)
    requires Paired(text, closures)
    ensures IsLoop(AtOf(text, labels, closures, valid), closures, NextAt(text), EditsFrom(text, labels, closures, valid), |text|)
  {
    AllPlaced(text, labels, closures, valid);
    forall f: nat | f <= |text|
      ensures LoopStep(AtOf(text, labels, closures, valid), NextAt(text), EditsFrom(text, labels, closures, valid), |text|, f)
    {
      IsLoopStep(text, f, labels, closures, valid);
    }
  }

  lemma ScanNonCrossing(text: string)
    ensures NonCrossing(Scanned(text).closures)
  {
    ScanValid(text, |text|, Some(ScanTo(text, |text|, None).valid));
  }

  /** A raw destination `text[start..c]` to a drive: nothing in it looks like a title, or a title splits off and the
      scanner found the context valid. */
  ghost predicate RawRewritable(text: string, start: nat, c: nat, contextValid: bool)
    requires start <= c <= |text|
  {
    && DriveAt(text, start)
    && (HasTitleSyntax(text[start..c]) ==> contextValid && Splits(text[start..c]))
  }

  /** The first of `<` and `>` from `from` on is the `>` at `p`. */
  predicate AngleEndsAt(text: string, from: nat, p: nat) {
    from <= p < |text| && text[p] == '>' && forall k :: from <= k < p ==> text[k] != '<' && text[k] != '>'
  }

  /** The angle destination from `from` on ends at `p`, and only a title or spaces follow up to `c`. */
  predicate AngleClosed(text: string, from: nat, c: nat, p: nat) {
    p < c <= |text| && AngleEndsAt(text, from, p) && IsLinkTitle(text[p + 1..c])
  }

  ghost predicate AngleCloses(text: string, from: nat, c: nat) {
    exists p: nat :: AngleClosed(text, from, c, p)
  }

  /** A link destination that can be rewritten: its `]` closes a link label, the scanner pairs its parenthesis, a drive
      follows, and its title, if any, is well formed. */
  ghost predicate Rewritable(text: string, o: nat, labels: set<nat>, closures: map<nat, nat>, valid: set<nat>) {
    && o + 2 < |text| && text[o] == ']' && text[o + 1] == '('
    && o in labels && o + 1 in closures && o + 2 <= closures[o + 1] < |text|
    && if text[o + 2] == '<' then DriveAt(text, o + 3) && AngleCloses(text, o + 3, closures[o + 1])
       else RawRewritable(text, o + 2, closures[o + 1], o + 1 in valid)
  }

  lemma {:induction false} AngleEndExactly(text: string, i: nat, end: nat, p: nat)
    requires i <= end <= |text|
    ensures p < end && AngleEndsAt(text, i, p) <==> AngleEnd(text, i, end) == Some(p)
    decreases end - i
  {
    if i < end && text[i] != '<' && text[i] != '>' {
      AngleEndExactly(text, i + 1, end, p);
    }
  }

  lemma RawExactly(text: string, start: nat, c: nat, contextValid: bool)
    requires LinkBounds(text, start, c)
    ensures DriveAt(text, start) && RawEdit(text, start, c, contextValid).Some? <==> RawRewritable(text, start, c, contextValid)
  {
    SplitsSomewhere(text[start..c]);
  }

  /** The end the search loop finds closes the destination. */
  predicate FoundCloses(text: string, from: nat, c: nat)
    requires from <= c <= |text|
  {
    var end := AngleEnd(text, from, c);
    end.Some? && IsLinkTitle(text[end.value + 1..c])
  }

  lemma ClosedIsFound(text: string, from: nat, c: nat, p: nat)
    requires from <= c <= |text| && AngleClosed(text, from, c, p)
    ensures FoundCloses(text, from, c)
  {
    AngleEndExactly(text, from, c, p);
  }

  lemma FoundIsClosed(text: string, from: nat, c: nat)
    requires from <= c <= |text| && FoundCloses(text, from, c)
    ensures AngleCloses(text, from, c)
  {
    var p := AngleEnd(text, from, c).value;
    AngleEndExactly(text, from, c, p);
    assert AngleClosed(text, from, c, p);
  }

  lemma FoundClosesExactly(text: string, from: nat, c: nat, closes: bool)
    requires from <= c <= |text| && closes == FoundCloses(text, from, c)
    ensures closes <==> AngleCloses(text, from, c)
  {
    if closes {
      FoundIsClosed(text, from, c);
    } else if p: nat :| AngleClosed(text, from, c, p) {
      ClosedIsFound(text, from, c, p);
    }
  }

  lemma AngleEditSome(text: string, start: nat, c: nat, some: bool)
    requires LinkBounds(text, start, c) && text[start] == '<' && some == AngleEdit(text, start, c).Some?
    ensures start + 1 <= c && (some <==> FoundCloses(text, start + 1, c))
  {
  }

  lemma AngleExactly(text: string, start: nat, c: nat, some: bool)
    requires LinkBounds(text, start, c) && text[start] == '<' && some == AngleEdit(text, start, c).Some?
    ensures some <==> AngleCloses(text, start + 1, c)
  {
    AngleEditSome(text, start, c, some);
    FoundClosesExactly(text, start + 1, c, some);
  }

  /** These are the destinations the loop body rewrites. */
  lemma EditsExactly(text: string, o: nat, labels: set<nat>, closures: map<nat, nat>, valid: set<nat>)
    requires Paired(text, closures)
    ensures AtOf(text, labels, closures, valid)(o).Some? <==> Rewritable(text, o, labels, closures, valid)
  {
    if o + 1 in closures {
      assert IsPair(text, o + 1, closures[o + 1], |text|);
      if LinkAt(text, o) && o + 2 < |text| {
        if text[o + 2] == '<' {
          AngleExactly(text, o + 2, closures[o + 1], AngleEdit(text, o + 2, closures[o + 1]).Some?);
        } else {
          RawExactly(text, o + 2, closures[o + 1], o + 1 in valid);
        }
      }
    }
  }

  ghost function RewritableAt(text: string): nat -> bool {
    (o: nat) => Rewritable(text, o, BracketsTo(text, |text|).1, Scanned(text).closures, Scanned(text).valid)
  }

  /** A link destination that is rewritten: no other that can be rewritten encloses it. */
  ghost predicate Rewrites(text: string, o: nat) {
    Outermost(RewritableAt(text), Scanned(text).closures, o)
  }

  ghost predicate Outermost(can: nat -> bool, closures: map<nat, nat>, o: nat) {
    can(o) && forall p: nat :: p < o && can(p) ==> p + 1 in closures && closures[p + 1] < o
  }

  lemma SameOutermost(at: nat -> Option<Edit>, can: nat -> bool, closures: map<nat, nat>, o: nat)
    requires forall p: nat :: at(p).Some? <==> can(p)
    ensures OutermostEdit(at, closures, 0, o) <==> Outermost(can, closures, o)
  {
  }

  /** The edits are at exactly these positions. */
  lemma AllEditsExactly(text: string, o: nat)
    ensures StartsAt(AllEdits(text), o) <==> Rewrites(text, o)
  {
    var labels, closures, valid := BracketsTo(text, |text|).1, Scanned(text).closures, Scanned(text).valid;
    var at, edits := AtOf(text, labels, closures, valid), EditsFrom(text, labels, closures, valid);
    ScanPaired(text);
    ScanNonCrossing(text);
    MainLoop(text, labels, closures, valid);
    AllNested(text, labels, closures, valid);
    LoopRewrites(at, closures, NextAt(text), edits, |text|, 0, o);
    forall p: nat ensures at(p).Some? <==> RewritableAt(text)(p) {
      EditsExactly(text, p, labels, closures, valid);
    }
    SameOutermost(at, RewritableAt(text), closures, o);
  }

  // ---- what is written in their place

  /** The target of a destination ends where its first title splits off, or with it. */
  ghost predicate Cut(value: string, to: nat) {
    SplitsAt(value, to) || (to == |value| && !Splits(value))
  }

  lemma CutExactly(value: string)
    ensures Cut(value, SplitRaw(value).0)
    ensures SplitRaw(value).1 == if SplitRaw(value).0 < |value| then Trimmed(value) else |value|
  {
    SplitsSomewhere(value);
    SplitExactly(value, SplitRaw(value).0);
  }

  /** The parts of an edited destination between `start` and its closing parenthesis at `c`: behind a `<` the target up
      to a title inside the brackets, and all that follows them; else the target, and the title behind it. */
  ghost predicate Parts(text: string, start: nat, c: nat, e: Edit)
    requires start < c < |text|
  {
    && e.start == start && e.end == c + 1
    && if text[start] == '<' then
         && e.from == start + 1 && e.from <= e.to <= e.rest < c && AngleEndsAt(text, e.from, e.rest)
         && Cut(text[e.from..e.rest], e.to - e.from) && e.title == e.rest + 1 && e.titleEnd == c
       else
         && e.from == start <= e.to == e.rest == e.title && e.to <= e.titleEnd <= c && Cut(text[start..c], e.to - start)
         && e.titleEnd == if e.to < c then start + Trimmed(text[start..c]) else c
  }

  lemma RawParts(text: string, start: nat, c: nat)
    requires start < c < |text| && text[start] != '<'
    ensures Parts(text, start, c, RawEditTo(text, start, c))
  {
    CutExactly(text[start..c]);
  }

  lemma AngleParts(text: string, start: nat, c: nat, end: nat)
    requires start < end < c < |text| && text[start] == '<' && AngleEndsAt(text, start + 1, end)
    ensures Parts(text, start, c, AngleEditTo(text, start, end, c))
  {
    var e, inner := AngleEditTo(text, start, end, c), text[start + 1..end];
    assert e.from == start + 1 && e.rest == end && e.to == start + 1 + SplitRaw(inner).0;
    assert Cut(text[e.from..e.rest], e.to - e.from) by {
      CutExactly(inner);
    }
  }

  ghost predicate HasParts(text: string, closures: map<nat, nat>, e: Edit) {
    && 2 <= e.start && e.start - 1 in closures && e.start < closures[e.start - 1] < |text|
    && Parts(text, e.start, closures[e.start - 1], e)
  }

  lemma EditParts(text: string, o: nat, labels: set<nat>, closures: map<nat, nat>, valid: set<nat>, e: Edit)
    requires Paired(text, closures) && LinkAt(text, o) && EditAt(text, o, labels, closures, valid) == Some(e)
    ensures o + 1 in closures && o + 2 < closures[o + 1] < |text| && Parts(text, o + 2, closures[o + 1], e)
  {
    EditPlaced(text, o, labels, closures, valid);
    var c := closures[o + 1];
    assert o + 2 < c;
    if text[o + 2] == '<' {
      AngleParts(text, o + 2, c, AngleEnd(text, o + 3, c).value);
    } else {
      RawParts(text, o + 2, c);
    }
  }

  lemma PartsFit(text: string, closures: map<nat, nat>, o: nat, e: Edit)
    requires o + 1 in closures && o + 2 < closures[o + 1] < |text| && Parts(text, o + 2, closures[o + 1], e)
    ensures HasParts(text, closures, e)
  {
  }

  lemma HasPartsAt(text: string, labels: set<nat>, closures: map<nat, nat>, valid: set<nat>, o: nat, e: Edit)
    requires Paired(text, closures) && AtOf(text, labels, closures, valid)(o) == Some(e)
    ensures HasParts(text, closures, e)
  {
    EditParts(text, o, labels, closures, valid, e);
    PartsFit(text, closures, o, e);
  }

  lemma {:induction false} AppliedAt(text: string, from: nat, edits: seq<Edit>, e: Edit) returns (before: string, after: string)
    requires Ordered(text, from, edits) && e in edits
    ensures InOrder(text, e) && Apply(text, from, edits) == before + Replacement(text, e) + after
    decreases |edits|
  {
    var first, rest := edits[0], edits[1..];
    if e == first {
      before, after := text[from..e.start], Apply(text, e.end, rest);
    } else {
      var inner: string;
      inner, after := AppliedAt(text, first.end, rest, e);
      before := text[from..first.start] + Replacement(text, first) + inner;
      assert before + Replacement(text, e) + after == text[from..first.start] + Replacement(text, first) + Apply(text, first.end, rest);
    }
  }

  /** The output around one edit. */
  predicate AppliesTo(text: string, output: string, e: Edit, before: string, after: string) {
    InOrder(text, e) && output == before + ("</" + Slashed(text[e.from..e.to]) + ">" + text[e.title..e.titleEnd] + ")") + after
  }

  ghost predicate WritesEdit(text: string, output: string, o: nat, c: nat, e: Edit) {
    o + 2 < c < |text| && Parts(text, o + 2, c, e) && exists before, after :: AppliesTo(text, output, e, before, after)
  }

  lemma EditWritten(text: string, closures: map<nat, nat>, edits: seq<Edit>, e: Edit, output: string)
    requires HasParts(text, closures, e) && Ordered(text, 0, edits) && e in edits && output == Apply(text, 0, edits)
    ensures WritesEdit(text, output, e.start - 2, closures[e.start - 1], e)
  {
    var before, after := AppliedAt(text, 0, edits, e);
    assert AppliesTo(text, output, e, before, after);
  }

  ghost predicate Written(text: string, output: string, o: nat, c: nat) {
    exists e :: WritesEdit(text, output, o, c, e)
  }

  /** Each edit is that of the link it begins at. */
  lemma EditIsAt(text: string, labels: set<nat>, closures: map<nat, nat>, valid: set<nat>, e: Edit)
    requires Paired(text, closures) && e in EditsFrom(text, labels, closures, valid)(0)
    ensures 2 <= e.start && AtOf(text, labels, closures, valid)(e.start - 2) == Some(e)
  {
    MainLoop(text, labels, closures, valid);
    LoopYields(AtOf(text, labels, closures, valid), closures, NextAt(text), EditsFrom(text, labels, closures, valid), |text|, 0, e);
  }

  /** A link that is rewritten comes out as a slash and its target with slashes, in angle brackets, and its title. */
  lemma ComesOut(text: string, o: nat)
    requires Rewrites(text, o)
    ensures o + 1 in Scanned(text).closures
    ensures Written(text, Apply(text, 0, AllEdits(text)), o, Scanned(text).closures[o + 1])
  {
    AllEditsExactly(text, o);
    var e :| e in AllEdits(text) && e.start == o + 2;
    ScanPaired(text);
    EditIsAt(text, BracketsTo(text, |text|).1, Scanned(text).closures, Scanned(text).valid, e);
    HasPartsAt(text, BracketsTo(text, |text|).1, Scanned(text).closures, Scanned(text).valid, o, e);
    EditWritten(text, Scanned(text).closures, AllEdits(text), e, Apply(text, 0, AllEdits(text)));
  }

  // ---- the loop

  method ReadAngle(text: string, start: nat, c: nat) returns (e: Option<Edit>)
    requires LinkBounds(text, start, c) && text[start] == '<'
    ensures e == AngleEdit(text, start, c)
  {
    var end := FindAngleEnd(text, start + 1, c);
    if end.None? || !IsLinkTitle(text[end.value + 1..c]) {
      return None;
    }
    e := Some(AngleEditTo(text, start, end.value, c));
  }

  /** The checks of the loop body. */
  method ReadTarget(text: string, o: nat, labels: set<nat>, closures: map<nat, nat>, valid: set<nat>) returns (e: Option<Edit>)
    requires o + 1 < |text| && text[o] == ']' && text[o + 1] == '(' && Paired(text, closures)
    ensures e == EditAt(text, o, labels, closures, valid)
  {
    var start, angle := o + 2, o + 2 < |text| && text[o + 2] == '<';
    if o !in labels || !DriveAt(text, if angle then start + 1 else start) || o + 1 !in closures {
      return None;
    }
    assert IsPair(text, o + 1, closures[o + 1], |text|);
    if angle {
      e := ReadAngle(text, start, closures[o + 1]);
    } else {
      e := RawEdit(text, start, closures[o + 1], o + 1 in valid);
    }
  }

  lemma Associate(a: string, b: string, c: string, d: string)
    ensures a + (b + c + d) == (a + b + c) + d
  {
  }

  /** The loop from where it has written `done` up to `cursor`. */
  function Finish(done: string, text: string, cursor: nat, edits: seq<Edit>): string
    requires Ordered(text, cursor, edits)
    decreases |edits|
  {
    if edits == [] then done + text[cursor..]
    else Finish(done + text[cursor..edits[0].start] + Replacement(text, edits[0]), text, edits[0].end, edits[1..])
  }

  lemma {:induction false} FinishApplies(done: string, text: string, cursor: nat, edits: seq<Edit>)
    requires Ordered(text, cursor, edits)
    ensures Finish(done, text, cursor, edits) == done + Apply(text, cursor, edits)
    decreases |edits|
  {
    if edits != [] {
      var e := edits[0];
      FinishApplies(done + text[cursor..e.start] + Replacement(text, e), text, e.end, edits[1..]);
      Associate(done, text[cursor..e.start], Replacement(text, e), Apply(text, e.end, edits[1..]));
    }
  }

  lemma TakeEdit(text: string, cursor: nat, edits: seq<Edit>, e: Edit, rest: seq<Edit>, done: string)
    requires edits == [e] + rest && Ordered(text, cursor, edits)
    ensures cursor <= e.start && InOrder(text, e) && Ordered(text, e.end, rest)
    ensures Finish(done, text, cursor, edits) == Finish(done + text[cursor..e.start] + Replacement(text, e), text, e.end, rest)
  {
    assert edits[1..] == rest;
  }

  lemma EditEndsBehind(text: string, o: nat, labels: set<nat>, closures: map<nat, nat>, valid: set<nat>)
    requires o + 1 < |text| && text[o] == ']' && text[o + 1] == '(' && Paired(text, closures)
    ensures var e := EditAt(text, o, labels, closures, valid); e.Some? ==> o < e.value.end <= |text|
  {
    EditFits(text, o, labels, closures, valid);
  }

  lemma EditsAt(text: string, from: nat, labels: set<nat>, closures: map<nat, nat>, valid: set<nat>, o: nat, e: Option<Edit>)
    requires from <= |text| && Paired(text, closures) && o == IndexOf(text, from) && o < |text|
    requires e == EditAt(text, o, labels, closures, valid)
    ensures if e.None? then Edits(text, from, labels, closures, valid) == Edits(text, o + 2, labels, closures, valid)
            else o < e.value.end <= |text|
                 && Edits(text, from, labels, closures, valid) == [e.value] + Edits(text, e.value.end, labels, closures, valid)
  {
    EditEndsBehind(text, o, labels, closures, valid);
  }

  /** The loop is on its way to `whole`. */
  ghost predicate OnTheWay(text: string, labels: set<nat>, closures: map<nat, nat>, valid: set<nat>,
                           cursor: nat, searchFrom: nat, done: string, whole: string)
    requires Paired(text, closures)
  {
    && cursor <= searchFrom <= |text| && Ordered(text, cursor, Edits(text, searchFrom, labels, closures, valid))
    && Finish(done, text, cursor, Edits(text, searchFrom, labels, closures, valid)) == whole
  }

  /** One round of the main loop, at the `](` at `o`. */
  method Advance(text: string, labels: set<nat>, closures: map<nat, nat>, valid: set<nat>, o: nat,
                 cursor: nat, searchFrom: nat, done: string, ghost whole: string)
    returns (nextCursor: nat, nextFrom: nat, nextDone: string)
    requires Paired(text, closures) && OnTheWay(text, labels, closures, valid, cursor, searchFrom, done, whole)
    requires o == IndexOf(text, searchFrom) && o < |text|
    ensures searchFrom < nextFrom && OnTheWay(text, labels, closures, valid, nextCursor, nextFrom, nextDone, whole)
  {
    var e := ReadTarget(text, o, labels, closures, valid);
    EditsAt(text, searchFrom, labels, closures, valid, o, e);
    if e.None? {
      return cursor, o + 2, done;
    }
    TakeEdit(text, cursor, Edits(text, searchFrom, labels, closures, valid), e.value,
             Edits(text, e.value.end, labels, closures, valid), done);
    return e.value.end, e.value.end, done + text[cursor..e.value.start] + Replacement(text, e.value);
  }

  /** The main loop. */
  method MakeEdits(text: string, labels: set<nat>, closures: map<nat, nat>, valid: set<nat>) returns (normalized: string)
    requires Paired(text, closures)
    ensures var edits := Edits(text, 0, labels, closures, valid);
            Ordered(text, 0, edits) && normalized == Finish("", text, 0, edits)
  {
    var cursor: nat, searchFrom: nat := 0, 0;
    normalized := "";
    EditsOrdered(text, 0, labels, closures, valid);
    ghost var whole := Finish("", text, 0, Edits(text, 0, labels, closures, valid));
    var o := IndexOf(text, 0);
    while o < |text|
      invariant OnTheWay(text, labels, closures, valid, cursor, searchFrom, normalized, whole) && o == IndexOf(text, searchFrom)
      decreases |text| - searchFrom
    {
      cursor, searchFrom, normalized := Advance(text, labels, closures, valid, o, cursor, searchFrom, normalized, whole);
      o := IndexOf(text, searchFrom);
    }
    normalized := normalized + text[cursor..];
  }

  /** `normalizeWindowsMarkdownTargetsInText`. */
  method NormalizeInText(text: string) returns (normalized: string)
    ensures normalized == Apply(text, 0, AllEdits(text))
  {
    var labels := CollectClosingBrackets(text);
    var closures, valid := CollectClosures(text);
    ScanPaired(text);
    normalized := MakeEdits(text, labels, closures, valid);
    FinishApplies("", text, 0, AllEdits(text));
  }
}
