/** Two texts that do not come out of the rewriting of link targets whole (packages/protocol/src/markdown.ts:572-728):
    one that writes out a token, and one with a title inside the angle brackets of a destination. */
module MarkdownLosses {
  import opened Wrappers
  import Text
  import MarkdownScan
  import opened MarkdownTargets
  import opened MarkdownCode
  import opened MarkdownRewrite
  import MarkdownLines

  // ---- a text with one code span

  lemma {:induction false} NextRunIs(text: string, i: nat, o: nat)
    requires i <= o <= |text| && (forall k :: i <= k < o ==> text[k] != '`') && (o < |text| ==> text[o] == '`')
    ensures NextRun(text, i) == o
    decreases o - i
  {
    if i < o {
      NextRunIs(text, i + 1, o);
    }
  }

  /** A backtick alone. */
  predicate Lone(text: string, o: nat) {
    o < |text| && text[o] == '`' && (o + 1 < |text| ==> text[o + 1] != '`')
  }

  lemma LoneRun(text: string, o: nat)
    requires Lone(text, o)
    ensures RunEnd(text, o) == o + 1
  {
    if o + 1 < |text| {
      assert RunEnd(text, o + 1) == o + 1;
    }
  }

  /** The text has two backticks, an unescaped one at `o` and one at `c`, and something between them. */
  predicate OnlyTicks(text: string, o: nat, c: nat) {
    && o < c < |text| && Lone(text, o) && Lone(text, c) && !MarkdownScan.Escaped(text, o)
    && forall k :: 0 <= k < |text| && k != o && k != c ==> text[k] != '`'
  }

  /** Between two backticks that stand alone lies the only code span. */
  lemma OnlySpan(text: string, o: nat, c: nat)
    requires OnlyTicks(text, o, c)
    ensures Ranges(text, 0) == [Range(o, c + 1)]
  {
    NextRunIs(text, 0, o);
    LoneRun(text, o);
    LoneRun(text, c);
    NextRunIs(text, o + 1, c);
    NextRunIs(text, c + 1, |text|);
    assert ClosingRun(text, o + 1, 1) == c;
    assert Ranges(text, c + 1) == [];
  }

  lemma MaskOne(text: string, o: nat, e: nat)
    requires o <= e <= |text| && Ranges(text, 0) == [Range(o, e)]
    ensures MaskedProse(text) == text[0..o] + (Token(0) + text[e..]) && Spans(text) == [text[o..e]]
  {
    RangesInText(text, 0);
    InTextBounds(text, 0, Ranges(text, 0));
    assert Ranges(text, 0)[1..] == [];
    assert Masked(text, e, [], 1) == text[e..];
    assert Contents(text, []) == [];
  }

  lemma Ticks(before: string, inner: string, after: string, text: string)
    requires '`' !in before && '`' !in inner && '`' !in after && inner != ""
    requires before != "" && before[|before| - 1] != '\\' && text == before + (['`'] + inner + ['`']) + after
    ensures OnlyTicks(text, |before|, |before| + |inner| + 1)
  {
    var o, c := |before|, |before| + |inner| + 1;
    assert text[o] == '`' && text[c] == '`' && text[o + 1] == inner[0] && text[o - 1] == before[o - 1];
    assert c + 1 < |text| ==> text[c + 1] == after[0];
    forall k | 0 <= k < |text| && k != o && k != c ensures text[k] != '`' {
      assert k < o ==> text[k] == before[k];
      assert o < k < c ==> text[k] == inner[k - o - 1];
      assert k > c ==> text[k] == after[k - c - 1];
    }
  }

  lemma Slices(before: string, span: string, after: string)
    ensures var text := before + span + after;
            text[0..|before|] == before && text[|before|..|before| + |span|] == span && text[|before| + |span|..] == after
  {
  }

  /** A text with one code span is masked and its span kept. */
  lemma OneSpan(before: string, inner: string, after: string)
    requires '`' !in before && '`' !in inner && '`' !in after && inner != ""
    requires before != "" && before[|before| - 1] != '\\'
    ensures var text := before + (['`'] + inner + ['`']) + after;
            MaskedProse(text) == before + (Token(0) + after) && Spans(text) == [['`'] + inner + ['`']]
  {
    var span := ['`'] + inner + ['`'];
    var text := before + span + after;
    Ticks(before, inner, after, text);
    OnlySpan(text, |before|, |before| + |inner| + 1);
    Slices(before, span, after);
    MaskOne(text, |before|, |before| + |span|);
  }

  // ---- a token written out

  const WRITTEN: string := PREFIX + "5"

  lemma {:induction false} NoLink(m: string, from: nat)
    requires from <= |m| && ']' !in m
    ensures IndexOf(m, from) == |m|
    decreases |m| - from
  {
    if from + 1 < |m| {
      assert m[from] in m;
      NoLink(m, from + 1);
    }
  }

  lemma NothingEdited(m: string)
    requires ']' !in m
    ensures AllEdits(m) == [] && Apply(m, 0, AllEdits(m)) == m
  {
    NoLink(m, 0);
    assert m[0..] == m;
  }

  /** The written-out prefix takes the first character of the span's token for its own end. */
  lemma WrittenIsToken()
    ensures WRITTEN + [Token(0)[0]] == Token(5) && WRITTEN + Token(0) == Token(5) + Token(0)[1..] && |Token(0)[1..]| <= |PREFIX| + 1
  {
    TokenShape(0, "");
    assert Digits(5) == "5" && Digits(0) == "0";
    assert Token(0) == [Token(0)[0]] + Token(0)[1..];
  }

  lemma {:induction false} ShortReads(s: string, spans: seq<string>)
    requires |s| <= |PREFIX| + 1
    ensures Pieces(s, spans) == Chars(s)
  {
    if s != "" {
      ShortReads(s[1..], spans);
    }
  }

  lemma FifthToken(rest: string)
    ensures TokenLength(Token(5) + rest) == |Token(5)| && FirstNumber(Token(5) + rest) == 5
  {
    TokenShape(5, rest);
    TokenIs(Token(5) + rest, |Token(5)|);
    NumberOfDigits(5);
    DigitsEndIs(Token(5), |PREFIX|, |Token(5)| - 1);
  }

  lemma FifthReads(rest: string, span: string)
    requires |rest| <= |PREFIX| + 1
    ensures Unmask(Token(5) + rest, [span]) == Token(5) + rest
  {
    var w := Token(5) + rest;
    FifthToken(rest);
    PiecesHead(w, [span]);
    HeadOfToken(w, [span]);
    TokenShape(5, rest);
    ShortReads(rest, [span]);
    FlatConcat(Chars(Token(5)), Chars(rest));
    FlatChars(Token(5));
    FlatChars(rest);
  }

  lemma TokenHasNoTick(k: nat)
    ensures '`' !in Token(k) && ']' !in Token(k)
  {
    TokenShape(k, "");
    assert Token(k) + "" == Token(k);
    TokenChars(Token(k), |Token(k)|);
  }

  const WRITTEN_SPAN: string := WRITTEN + "`x`"

  lemma WrittenMasked()
    ensures MaskedProse(WRITTEN_SPAN) == WRITTEN + Token(0) && Spans(WRITTEN_SPAN) == ["`x`"]
  {
    WrittenPlain();
    OneSpan(WRITTEN, "x", "");
    assert WRITTEN + (['`'] + "x" + ['`']) + "" == WRITTEN_SPAN && ['`'] + "x" + ['`'] == "`x`";
    assert WRITTEN + (Token(0) + "") == WRITTEN + Token(0);
  }

  lemma WrittenUnedited()
    ensures var m := WRITTEN + Token(0); AllEdits(m) == [] && Apply(m, 0, AllEdits(m)) == m
  {
    WrittenPlain();
    TokenHasNoTick(0);
    NothingEdited(WRITTEN + Token(0));
  }

  /** Right after a written-out prefix and a digit, the code span is not put back: its token is shown in its place. */
  lemma WrittenTokenLosesSpan()
    ensures Spans(WRITTEN_SPAN) == ["`x`"] && Prose(WRITTEN_SPAN) == WRITTEN + Token(0) && !Legible(WRITTEN_SPAN)
  {
    WrittenMasked();
    WrittenUnedited();
    WrittenIsToken();
    FifthReads(Token(0)[1..], "`x`");
    ReadsBackExactly(WRITTEN_SPAN);
    WrittenDiffers();
  }

  lemma WrittenPlain()
    ensures '`' !in WRITTEN && ']' !in WRITTEN && WRITTEN != "" && WRITTEN[|WRITTEN| - 1] == '5'
  {
    PrefixChars();
    forall c | c in WRITTEN ensures c != '`' && c != ']' {
      var k :| 0 <= k < |WRITTEN| && WRITTEN[k] == c;
      assert k < |PREFIX| ==> WRITTEN[k] == PREFIX[k];
    }
  }

  lemma WrittenDiffers()
    ensures WRITTEN + Token(0) != WRITTEN + "`x`"
  {
    TokenShape(0, "");
    assert (WRITTEN + Token(0))[|WRITTEN|] == Token(0)[0] && (WRITTEN + "`x`")[|WRITTEN|] == '`';
  }

  // ---- a title inside angle brackets

  const OPENING: string := "[a](<C:\\b \""
  const CLOSING: string := "\">)"

  /** A link with a title inside its angle brackets: the title is `t`. */
  function Titled(t: string): string {
    OPENING + (t + CLOSING)
  }

  /** The characters of that link, without its title. */
  lemma TitledChars(t: string)
    ensures var m, p := Titled(t), |t| + 12;
            && |m| == p + 2 && m[..11] == OPENING && m[p - 1] == '"' && m[p] == '>' && m[p + 1] == ')'
            && (forall k :: 11 <= k < p - 1 ==> m[k] == t[k - 11])
  {
    var m := Titled(t);
    assert forall k :: 0 <= k < 3 ==> m[|t| + 11 + k] == CLOSING[k];
    assert forall k :: 0 <= k < |t| ==> m[11 + k] == t[k];
  }

  lemma OpeningChars(m: string)
    requires |m| >= 11 && m[..11] == OPENING
    ensures m[0] == '[' && m[1] == 'a' && m[2] == ']' && m[3] == '(' && m[4] == '<' && m[5] == 'C' && m[6] == ':'
    ensures m[7] == '\\' && m[8] == 'b' && m[9] == ' ' && m[10] == '"'
  {
    assert forall k :: 0 <= k < 11 ==> m[k] == OPENING[k];
  }

  /** A link to a drive with a title inside its angle brackets, which end at `p`. */
  predicate Link(m: string, p: nat) {
    && 12 <= p && |m| == p + 2 && m[..11] == OPENING && m[p - 1] == '"' && m[p] == '>' && m[p + 1] == ')'
    && forall k :: 11 <= k < p - 1 ==> IsTokenChar(m[k])
  }

  const INSIDE: MarkdownScan.Scan :=
    MarkdownScan.Scan([3], map[], [3], map[], map[], map[], map[3 := MarkdownScan.InsideAngle], {}, Some(3), false, None, None)

  lemma EmptyIdle(text: string, i: nat, proven: Option<set<nat>>)
    requires i < |text| && text[i] != '\\' && text[i] != '('
    ensures MarkdownScan.Next(text, i, MarkdownScan.EMPTY, proven) == MarkdownScan.EMPTY
  {
  }

  lemma InsideIdle(text: string, i: nat, s: MarkdownScan.Scan, proven: Option<set<nat>>)
    requires i < |text| && s == INSIDE.(escaped := s.escaped)
    requires text[i] != '\n' && text[i] != '<' && text[i] != '>' && text[i] != '('
    ensures MarkdownScan.Next(text, i, s, proven) == INSIDE.(escaped := !s.escaped && text[i] == '\\')
  {
  }

  lemma OpensInside(m: string, proven: Option<set<nat>>)
    requires |m| >= 11 && m[..11] == OPENING
    ensures MarkdownScan.ScanTo(m, 5, proven) == INSIDE
  {
    OpeningChars(m);
    EmptyIdle(m, 0, proven);
    EmptyIdle(m, 1, proven);
    EmptyIdle(m, 2, proven);
    assert MarkdownScan.ScanTo(m, 1, proven) == MarkdownScan.EMPTY;
    assert MarkdownScan.ScanTo(m, 2, proven) == MarkdownScan.EMPTY;
    assert MarkdownScan.ScanTo(m, 3, proven) == MarkdownScan.EMPTY;
    assert MarkdownScan.ScanTo(m, 4, proven) == MarkdownScan.OpenLink(MarkdownScan.EMPTY, 3);
  }

  lemma LinkIsQuiet(m: string, p: nat, k: nat)
    requires Link(m, p) && 5 <= k < p
    ensures m[k] != '\n' && m[k] != '<' && m[k] != '>' && m[k] != '('
  {
    OpeningChars(m);
  }

  lemma {:induction false} StaysInside(m: string, p: nat, k: nat, proven: Option<set<nat>>)
    requires Link(m, p) && 5 <= k <= p
    ensures MarkdownScan.ScanTo(m, k, proven) == INSIDE.(escaped := MarkdownScan.Escaped(m, k))
  {
    if k == 5 {
      OpeningChars(m);
      OpensInside(m, proven);
    } else {
      StaysInside(m, p, k - 1, proven);
      LinkIsQuiet(m, p, k - 1);
      InsideIdle(m, k - 1, MarkdownScan.ScanTo(m, k - 1, proven), proven);
    }
  }

  const OUTSIDE: MarkdownScan.Scan := INSIDE.(angle := None, contexts := map[3 := MarkdownScan.AfterDestination])

  lemma DestinationEnds(m: string, i: nat, proven: Option<set<nat>>)
    requires i < |m| && m[i] == '>'
    ensures MarkdownScan.Next(m, i, INSIDE, proven) == OUTSIDE
  {
    assert INSIDE.contexts[3 := MarkdownScan.AfterDestination] == map[3 := MarkdownScan.AfterDestination];
  }

  lemma ScanStep(m: string, i: nat, proven: Option<set<nat>>)
    requires i < |m|
    ensures MarkdownScan.ScanTo(m, i + 1, proven) == MarkdownScan.Next(m, i, MarkdownScan.ScanTo(m, i, proven), proven)
  {
  }

  lemma InsideUnescaped(m: string, p: nat, proven: Option<set<nat>>)
    requires Link(m, p)
    ensures MarkdownScan.ScanTo(m, p, proven) == INSIDE
  {
    StaysInside(m, p, p, proven);
    assert !MarkdownScan.Escaped(m, p);
  }

  lemma BehindDestination(m: string, p: nat, proven: Option<set<nat>>)
    requires Link(m, p)
    ensures MarkdownScan.ScanTo(m, p + 1, proven) == OUTSIDE
  {
    InsideUnescaped(m, p, proven);
    DestinationEnds(m, p, proven);
    ScanStep(m, p, proven);
  }

  /** The parenthesis of the link is paired with the last one. */
  lemma LinkCloses(m: string, p: nat, proven: Option<set<nat>>)
    requires Link(m, p)
    ensures MarkdownScan.ScanTo(m, |m|, proven).closures == map[3 := p + 1]
  {
    BehindDestination(m, p, proven);
    LinkEnds(m, p + 1, OUTSIDE, proven);
    ScanStep(m, p + 1, proven);
  }

  lemma LinkEnds(m: string, i: nat, s: MarkdownScan.Scan, proven: Option<set<nat>>)
    requires i < |m| && m[i] == ')'
    requires s == OUTSIDE
    ensures MarkdownScan.Next(m, i, s, proven).closures == map[3 := i]
  {
    assert MarkdownScan.SpoilByText(m, i, s) == s;
  }

  lemma {:induction false} BracketsGrow(text: string, i: nat, j: nat)
    requires i <= j <= |text|
    ensures BracketsTo(text, i).1 <= BracketsTo(text, j).1
  {
    if i < j {
      BracketsGrow(text, i, j - 1);
    }
  }

  lemma LinkLabel(m: string)
    requires |m| >= 11 && m[..11] == OPENING
    ensures 2 in BracketsTo(m, |m|).1
  {
    OpeningChars(m);
    assert BracketsTo(m, 0) == (0, {});
    assert !MarkdownScan.Escaped(m, 0) && !MarkdownScan.Escaped(m, 1) && !MarkdownScan.Escaped(m, 2);
    assert BracketsTo(m, 1) == (1, {});
    assert BracketsTo(m, 2) == (1, {});
    assert BracketsTo(m, 3).1 == {2};
    BracketsGrow(m, 3, |m|);
  }

  lemma {:induction false} AngleEndIs(text: string, i: nat, end: nat, p: nat)
    requires i <= p < end <= |text| && text[p] == '>' && forall k :: i <= k < p ==> text[k] != '<' && text[k] != '>'
    ensures AngleEnd(text, i, end) == Some(p)
    decreases p - i
  {
    if i < p {
      AngleEndIs(text, i + 1, end, p);
    }
  }

  /** A value that ends in a title in double quotes, with no space before the one in front of it. */
  lemma SplitsAt(value: string, k: nat)
    requires 0 < k && k + 3 <= |value| && value[k] == ' ' && value[k + 1] == '"' && value[|value| - 1] == '"'
    requires forall j :: 0 <= j < k ==> !Text.IsSpace(value[j])
    requires forall j :: k + 1 < j < |value| - 1 ==> value[j] != '"'
    ensures SplitRaw(value).0 == k
  {
    assert SpacesEnd(value, k + 1) == k + 1 == SpacesEnd(value, k);
    assert Trimmed(value) == |value|;
    assert TitleAt(value, k);
    assert forall j :: 0 <= j < k ==> !TitleAt(value, j);
    assert forall j :: 0 <= j < k ==> !IsLineEnd(value[j]);
  }

  lemma LinkSplits(m: string, p: nat)
    requires Link(m, p)
    ensures SplitRaw(m[5..p]).0 == 4 && m[5..9] == "C:\\b"
  {
    OpeningChars(m);
    var value := m[5..p];
    assert forall j :: 0 <= j < |value| ==> value[j] == m[5 + j];
    assert |value| == p - 5 && value[|value| - 1] == m[p - 1];
    SplitsAt(value, 4);
  }

  /** The only edit drops the title. */
  lemma LinkEdits(m: string, p: nat)
    requires Link(m, p) && p > 12
    ensures AllEdits(m) == [Edit(4, 5, 9, p, p + 1, p + 1, p + 2)]
  {
    var labels, closures, valid := BracketsTo(m, |m|).1, MarkdownScan.Scanned(m).closures, MarkdownScan.Scanned(m).valid;
    ScanPaired(m);
    OpeningChars(m);
    LinkLabel(m);
    LinkCloses(m, p, Some(MarkdownScan.ScanTo(m, |m|, None).valid));
    assert closures == map[3 := p + 1];
    assert IndexOf(m, 0) == IndexOf(m, 1) == 2;
    LinkEdit(m, p, labels, closures, valid);
    EditsAt(m, 0, labels, closures, valid, 2, Some(Edit(4, 5, 9, p, p + 1, p + 1, p + 2)));
    assert IndexOf(m, |m|) == |m| && Edits(m, |m|, labels, closures, valid) == [];
  }

  lemma LinkEdit(m: string, p: nat, labels: set<nat>, closures: map<nat, nat>, valid: set<nat>)
    requires Link(m, p) && p > 12 && 2 in labels && closures == map[3 := p + 1] && Paired(m, closures)
    ensures m[2] == ']' && m[3] == '(' && EditAt(m, 2, labels, closures, valid) == Some(Edit(4, 5, 9, p, p + 1, p + 1, p + 2))
  {
    OpeningChars(m);
    assert MarkdownScan.IsPair(m, 3, closures[3], |m|);
    forall k | 5 <= k < p ensures m[k] != '<' && m[k] != '>' {
      LinkIsQuiet(m, p, k);
    }
    AngleEndIs(m, 5, p + 1, p);
    LinkSplits(m, p);
    assert m[p + 1..p + 1] == "";
  }

  const BARE: string := "[a](</C:/b>)"

  lemma OneEdit(m: string, e: Edit)
    requires InOrder(m, e)
    ensures Ordered(m, 0, [e]) && Apply(m, 0, [e]) == m[0..e.start] + Replacement(m, e) + m[e.end..]
  {
    assert [e][1..] == [];
  }

  lemma LinkReplaced(m: string, e: Edit)
    requires InOrder(m, e) && m[e.from..e.to] == "C:\\b" && m[e.title..e.titleEnd] == ""
    ensures Replacement(m, e) == "</C:/b>)"
  {
    assert Slashed("C:\\b") == "C:/b";
  }

  lemma LinkBecomesBare(m: string, p: nat)
    requires Link(m, p) && p > 12
    ensures Apply(m, 0, AllEdits(m)) == BARE
  {
    var e := Edit(4, 5, 9, p, p + 1, p + 1, p + 2);
    LinkEdits(m, p);
    LinkSplits(m, p);
    OpeningChars(m);
    LinkReplaced(m, e);
    OneEdit(m, e);
    assert m[0..4] == "[a](" && m[e.end..] == "";
    assert "[a](" + "</C:/b>)" + "" == BARE;
  }

  lemma BareReads(spans: seq<string>)
    ensures Unmask(BARE, spans) == BARE
  {
    assert forall k :: 0 <= k < |BARE| ==> BARE[k] != '\0';
    NulFreePlain(BARE, |spans|, false);
    assert BARE + "" == BARE && Chars(BARE) + [] == Chars(BARE);
    PlainReads(BARE, "", spans);
    FlatChars(BARE);
  }

  const ANGLE_TITLE: string := OPENING + "`x\ny`" + CLOSING

  lemma AngleTitleMasked()
    ensures MaskedProse(ANGLE_TITLE) == Titled(Token(0)) && Spans(ANGLE_TITLE) == ["`x\ny`"]
  {
    assert ['`'] + "x\ny" + ['`'] == "`x\ny`";
    OneSpan(OPENING, "x\ny", CLOSING);
  }

  lemma TokenIsLink()
    ensures Link(Titled(Token(0)), |Token(0)| + 12) && |Token(0)| > 0
  {
    TitledChars(Token(0));
    TokenShape(0, "");
    assert Token(0) + "" == Token(0);
    TokenChars(Token(0), |Token(0)|);
  }

  lemma AngleTitleLegible()
    ensures Legible(ANGLE_TITLE)
  {
    assert forall k :: 0 <= k < |ANGLE_TITLE| ==> ANGLE_TITLE[k] != '\0';
    NulFreeLegible(ANGLE_TITLE);
  }

  lemma AngleTitleLosesLine()
    ensures Text.Count(ANGLE_TITLE, '\n') > 0 && Text.Count(BARE, '\n') == 0
  {
    assert ANGLE_TITLE[13] == '\n';
    Text.CountNone(ANGLE_TITLE, '\n');
    Text.CountNone(BARE, '\n');
  }

  /** A code span of two lines in a title inside angle brackets goes with the title, and with it a line. */
  lemma AngleTitleLost()
    ensures Prose(ANGLE_TITLE) == BARE && Spans(ANGLE_TITLE) == ["`x\ny`"]
    ensures Legible(ANGLE_TITLE) && !MarkdownLines.KeepsLines(Prose, ANGLE_TITLE)
  {
    AngleTitleMasked();
    TokenIsLink();
    LinkBecomesBare(Titled(Token(0)), |Token(0)| + 12);
    BareReads(["`x\ny`"]);
    AngleTitleLegible();
    AngleTitleLosesLine();
  }
}
