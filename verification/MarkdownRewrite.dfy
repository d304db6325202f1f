/** Windows link targets in prose are rewritten around inline code (packages/protocol/src/markdown.ts:619-728):
    what is kept, what changes, and what becomes of code spans and line breaks. */
module MarkdownRewrite {
  import opened Wrappers
  import MarkdownScan
  import Text
  import opened Sequences
  import opened MarkdownTargets
  import opened MarkdownCode

  // ---- cutting a masked text

  /** No token reaches across this position. */
  predicate SafeCut(m: string, j: nat)
    requires j <= |m|
  {
    j == 0 || j == |m| || !IsTokenChar(m[j - 1]) || !IsTokenChar(m[j])
  }

  lemma JoinBefore(a: string, b: string, spans: seq<string>)
    requires b != "" && !IsTokenChar(b[0])
    ensures Pieces(a + b, spans) == Pieces(a, spans) + Pieces(b, spans)
  {
    var c, rest := b[0], b[1..];
    assert a + b == a + [c] + rest && b == "" + [c] + rest;
    PiecesSplit(a, c, rest, spans);
    PiecesSplit("", c, rest, spans);
    Regroup3(Pieces(a, spans), Pieces("", spans), [Char(c)], Pieces(rest, spans));
  }

  lemma JoinAfter(a: string, b: string, spans: seq<string>)
    requires a != "" && !IsTokenChar(a[|a| - 1])
    ensures Pieces(a + b, spans) == Pieces(a, spans) + Pieces(b, spans)
  {
    var c, rest := a[|a| - 1], a[..|a| - 1];
    assert a + b == rest + [c] + b && a == rest + [c] + "";
    PiecesSplit(rest, c, b, spans);
    PiecesSplit(rest, c, "", spans);
    assert Pieces(rest, spans) + [Char(c)] + Pieces("", spans) == Pieces(rest, spans) + [Char(c)];
  }

  lemma Regroup3<T>(a: seq<T>, empty: seq<T>, c: seq<T>, d: seq<T>)
    requires empty == []
    ensures a + (empty + c + d) == a + c + d
  {
  }

  lemma JoinEmpty(a: string, spans: seq<string>)
    ensures Pieces(a + "", spans) == Pieces(a, spans) + Pieces("", spans)
    ensures Pieces("" + a, spans) == Pieces("", spans) + Pieces(a, spans)
  {
    assert a + "" == a == "" + a;
    assert Pieces(a, spans) + [] == Pieces(a, spans) == [] + Pieces(a, spans);
  }

  lemma Cut(m: string, i: nat, j: nat, k: nat, spans: seq<string>)
    requires i <= j <= k <= |m| && SafeCut(m, j)
    ensures Pieces(m[i..k], spans) == Pieces(m[i..j], spans) + Pieces(m[j..k], spans)
  {
    var a, b := m[i..j], m[j..k];
    assert m[i..k] == a + b;
    if a == "" {
      assert a + b == b;
      JoinEmpty(b, spans);
    } else if b == "" {
      assert a + b == a;
      JoinEmpty(a, spans);
    } else if !IsTokenChar(m[j]) {
      JoinBefore(a, b, spans);
    } else {
      JoinAfter(a, b, spans);
    }
  }

  // ---- the pieces of an edit

  /** What an edit replaces: the parts of `<target rest>title)` or `target title spaces)`. */
  function Destination(m: string, e: Edit, spans: seq<string>): seq<Piece>
    requires InOrder(m, e)
  {
    Pieces(m[e.start..e.from], spans) + Pieces(m[e.from..e.to], spans) + Pieces(m[e.to..e.rest], spans) +
    Pieces(m[e.rest..e.title], spans) + Pieces(m[e.title..e.titleEnd], spans) + Pieces(m[e.titleEnd..e.end], spans)
  }

  function SlashedPieces(pieces: seq<Piece>): (r: seq<Piece>)
    ensures |r| == |pieces|
    ensures forall k :: 0 <= k < |pieces| ==> r[k] == if pieces[k] == Char('\\') then Char('/') else pieces[k]
  {
    if pieces == [] then [] else [if pieces[0] == Char('\\') then Char('/') else pieces[0]] + SlashedPieces(pieces[1..])
  }

  /** What it puts there: the target with its backslashes turned, code spans aside, and the title. */
  function Rewritten(m: string, e: Edit, spans: seq<string>): seq<Piece>
    requires InOrder(m, e)
  {
    Chars("</") + SlashedPieces(Pieces(m[e.from..e.to], spans)) + Chars(">") + Pieces(m[e.title..e.titleEnd], spans) + Chars(")")
  }

  function OldPieces(m: string, from: nat, edits: seq<Edit>, spans: seq<string>): seq<Piece>
    requires Ordered(m, from, edits)
    decreases |edits|
  {
    if edits == [] then Pieces(m[from..], spans)
    else Pieces(m[from..edits[0].start], spans) + Destination(m, edits[0], spans) + OldPieces(m, edits[0].end, edits[1..], spans)
  }

  function NewPieces(m: string, from: nat, edits: seq<Edit>, spans: seq<string>): seq<Piece>
    requires Ordered(m, from, edits)
    decreases |edits|
  {
    if edits == [] then Pieces(m[from..], spans)
    else Pieces(m[from..edits[0].start], spans) + Rewritten(m, edits[0], spans) + NewPieces(m, edits[0].end, edits[1..], spans)
  }

  lemma SpaceIsNoTokenChar(c: char)
    requires Text.IsSpace(c)
    ensures !IsTokenChar(c)
  {
  }

  lemma FitsIsSafe(m: string, e: Edit)
    requires Fits(m, e)
    ensures InOrder(m, e) && SafeCut(m, e.start) && SafeCut(m, e.from) && SafeCut(m, e.to) && SafeCut(m, e.rest)
    ensures SafeCut(m, e.title) && SafeCut(m, e.titleEnd) && SafeCut(m, e.end)
  {
    if Text.IsSpace(m[e.to]) { SpaceIsNoTokenChar(m[e.to]); }
    if Text.IsSpace(m[e.titleEnd]) { SpaceIsNoTokenChar(m[e.titleEnd]); }
  }

  /** The destination reads as its parts. */
  lemma DestinationReads(m: string, e: Edit, spans: seq<string>)
    requires Fits(m, e)
    ensures InOrder(m, e) && Pieces(m[e.start..e.end], spans) == Destination(m, e, spans)
  {
    FitsIsSafe(m, e);
    Cut(m, e.start, e.from, e.to, spans);
    Cut(m, e.start, e.to, e.rest, spans);
    Cut(m, e.start, e.rest, e.title, spans);
    Cut(m, e.start, e.title, e.titleEnd, spans);
    Cut(m, e.start, e.titleEnd, e.end, spans);
  }

  lemma SliceToEnd(m: string, i: nat)
    requires i <= |m|
    ensures m[i..|m|] == m[i..]
  {
  }

  lemma OldStep(m: string, from: nat, e: Edit, spans: seq<string>)
    requires from <= e.start && Fits(m, e)
    ensures InOrder(m, e)
    ensures Pieces(m[from..], spans) == Pieces(m[from..e.start], spans) + Destination(m, e, spans) + Pieces(m[e.end..], spans)
  {
    FitsIsSafe(m, e);
    DestinationReads(m, e, spans);
    Cut(m, from, e.start, e.end, spans);
    Cut(m, from, e.end, |m|, spans);
    SliceToEnd(m, from);
    SliceToEnd(m, e.end);
  }

  lemma {:induction false} OldReads(m: string, from: nat, edits: seq<Edit>, spans: seq<string>)
    requires from <= |m| && FitFrom(m, from, edits)
    ensures Ordered(m, from, edits) && Pieces(m[from..], spans) == OldPieces(m, from, edits, spans)
    decreases |edits|
  {
    FitOrdered(m, from, edits);
    if edits != [] {
      OldReads(m, edits[0].end, edits[1..], spans);
      OldStep(m, from, edits[0], spans);
    }
  }

  // ---- the pieces it puts there

  lemma {:induction false} SlashedToken(s: string, n: nat)
    ensures IsToken(Slashed(s), n) <==> IsToken(s, n)
  {
    PrefixChars();
    var t := Slashed(s);
    if |PREFIX| <= |s| {
      forall k | 0 <= k < |PREFIX| ensures t[k] == PREFIX[k] <==> s[k] == PREFIX[k] {
        assert IsTokenChar(PREFIX[k]);
      }
      assert t[..|PREFIX|] == PREFIX <==> forall k :: 0 <= k < |PREFIX| ==> t[k] == PREFIX[k];
      assert s[..|PREFIX|] == PREFIX <==> forall k :: 0 <= k < |PREFIX| ==> s[k] == PREFIX[k];
    }
  }

  lemma SlashedLength(s: string)
    ensures TokenLength(Slashed(s)) == TokenLength(s)
  {
    if TokenLength(s) > 0 {
      TokenHas(s);
      SlashedToken(s, TokenLength(s));
      TokenIs(Slashed(s), TokenLength(s));
    } else if TokenLength(Slashed(s)) > 0 {
      TokenHas(Slashed(s));
      SlashedToken(s, TokenLength(Slashed(s)));
      TokenIs(s, TokenLength(Slashed(s)));
    }
  }

  lemma {:induction false} SlashedText(a: string, b: string)
    ensures Slashed(a + b) == Slashed(a) + Slashed(b)
  {
    if a == "" {
      assert a + b == b;
    } else {
      CutFirst(a, b);
      SlashedText(a[1..], b);
    }
  }

  lemma Halves(a: string, b: string)
    ensures (a + b)[..|a|] == a && (a + b)[|a|..] == b
  {
  }

  lemma SlashedCut(s: string, n: nat)
    requires n <= |s|
    ensures Slashed(s)[..n] == Slashed(s[..n]) && Slashed(s)[n..] == Slashed(s[n..])
  {
    assert s == s[..n] + s[n..];
    SlashedText(s[..n], s[n..]);
    Halves(Slashed(s[..n]), Slashed(s[n..]));
  }

  lemma SlashedIsToken(t: string)
    requires TokenLength(t) == |t| > 0
    ensures Slashed(t) == t
  {
    TokenHas(t);
    TokenChars(t, |t|);
  }

  lemma SlashedConcat(a: seq<Piece>, b: seq<Piece>)
    ensures SlashedPieces(a + b) == SlashedPieces(a) + SlashedPieces(b)
  {
  }

  lemma {:induction false} SlashedChars(s: string)
    requires '\\' !in s
    ensures SlashedPieces(Chars(s)) == Chars(s)
  {
    if s != "" {
      SlashedChars(s[1..]);
    }
  }

  lemma SlashedCode(span: string)
    ensures SlashedPieces([Code(span)]) == [Code(span)]
  {
  }

  lemma SlashedTokenPieces(t: string, spans: seq<string>)
    requires TokenLength(t) == |t| > 0
    ensures SlashedPieces(TokenPieces(t, spans)) == TokenPieces(t, spans)
  {
    TokenHas(t);
    TokenChars(t, |t|);
    var pieces := TokenPieces(t, spans);
    if pieces == Chars(t) {
      SlashedChars(t);
    } else {
      SlashedCode(pieces[0].span);
    }
  }

  lemma SlashedHead(s: string, spans: seq<string>)
    requires s != ""
    ensures var n := HeadLength(s);
            HeadLength(Slashed(s)) == n && Head(Slashed(s)[..n], spans) == SlashedPieces(Head(s[..n], spans))
  {
    var n := HeadLength(s);
    SlashedLength(s);
    SlashedCut(s, n);
    if TokenLength(s) > 0 {
      TokenAlone(s);
      SlashedIsToken(s[..n]);
      SlashedTokenPieces(s[..n], spans);
    }
  }

  /** Turning the backslashes before the spans are put back turns those outside the spans. */
  lemma {:induction false} SlashedReads(s: string, spans: seq<string>)
    ensures Pieces(Slashed(s), spans) == SlashedPieces(Pieces(s, spans))
    decreases |s|
  {
    if s != "" {
      var n := HeadLength(s);
      SlashedHead(s, spans);
      SlashedCut(s, n);
      PiecesHead(s, spans);
      PiecesHead(Slashed(s), spans);
      SlashedReads(s[n..], spans);
      SlashedConcat(Head(s[..n], spans), Pieces(s[n..], spans));
    }
  }

  lemma {:induction false} CharsRead(s: string, spans: seq<string>)
    requires forall k :: 0 <= k < |s| ==> !IsTokenChar(s[k])
    ensures Pieces(s, spans) == Chars(s)
  {
    if s != "" {
      assert s == [s[0]] + s[1..];
      FirstPlain(s[0], s[1..], spans);
      CharsRead(s[1..], spans);
    }
  }

  lemma FirstPlain(c: char, rest: string, spans: seq<string>)
    requires !IsTokenChar(c)
    ensures Pieces([c] + rest, spans) == [Char(c)] + Pieces(rest, spans)
  {
    PiecesSplitEmpty(c, rest, spans);
    assert "" + [c] + rest == [c] + rest;
  }

  lemma PutReads(t: string, title: string, spans: seq<string>)
    ensures Pieces("</" + t + ">" + title + ")", spans)
            == Chars("</") + Pieces(t, spans) + Chars(">") + Pieces(title, spans) + Chars(")")
  {
    JoinAfter("</", t, spans);
    JoinBefore("</" + t, ">", spans);
    JoinAfter("</" + t + ">", title, spans);
    JoinBefore("</" + t + ">" + title, ")", spans);
    CharsRead("</", spans);
    CharsRead(">", spans);
    CharsRead(")", spans);
  }

  lemma ReplacementReads(m: string, e: Edit, spans: seq<string>)
    requires InOrder(m, e)
    ensures Pieces(Replacement(m, e), spans) == Rewritten(m, e, spans)
  {
    PutReads(Slashed(m[e.from..e.to]), m[e.title..e.titleEnd], spans);
    SlashedReads(m[e.from..e.to], spans);
  }

  lemma LastOf(a: string, b: string)
    requires b != ""
    ensures (a + b)[|a + b| - 1] == b[|b| - 1]
  {
  }

  lemma JoinBoth(kept: string, middle: string, after: string, spans: seq<string>)
    requires kept != "" && !IsTokenChar(kept[|kept| - 1]) && middle != "" && !IsTokenChar(middle[|middle| - 1])
    ensures Pieces(kept + middle + after, spans) == Pieces(kept, spans) + Pieces(middle, spans) + Pieces(after, spans)
  {
    LastOf(kept, middle);
    JoinAfter(kept, middle, spans);
    JoinAfter(kept + middle, after, spans);
  }

  lemma ReplacementEnds(m: string, e: Edit)
    requires InOrder(m, e)
    ensures Replacement(m, e) != "" && Replacement(m, e)[|Replacement(m, e)| - 1] == ')'
  {
  }

  lemma NewStep(m: string, from: nat, e: Edit, after: string, spans: seq<string>)
    requires from + 1 <= e.start && Fits(m, e)
    ensures InOrder(m, e)
    ensures Pieces(m[from..e.start] + Replacement(m, e) + after, spans)
            == Pieces(m[from..e.start], spans) + Rewritten(m, e, spans) + Pieces(after, spans)
  {
    var kept := m[from..e.start];
    assert kept[|kept| - 1] == '(' && !IsTokenChar('(') && !IsTokenChar(')');
    ReplacementEnds(m, e);
    ReplacementReads(m, e, spans);
    JoinBoth(kept, Replacement(m, e), after, spans);
  }

  lemma {:induction false} NewReads(m: string, from: nat, edits: seq<Edit>, spans: seq<string>)
    requires from <= |m| && FitFrom(m, from, edits)
    ensures Ordered(m, from, edits) && Pieces(Apply(m, from, edits), spans) == NewPieces(m, from, edits, spans)
    decreases |edits|
  {
    FitOrdered(m, from, edits);
    if edits != [] {
      NewReads(m, edits[0].end, edits[1..], spans);
      NewStep(m, from, edits[0], Apply(m, edits[0].end, edits[1..]), spans);
    }
  }

  // ---- code spans and line breaks

  /** The code spans, in order. */
  function Codes(pieces: seq<Piece>): seq<string> {
    if pieces == [] then [] else (if pieces[0].Code? then [pieces[0].span] else []) + Codes(pieces[1..])
  }

  function Breaks(pieces: seq<Piece>): nat {
    Text.Count(Flat(pieces), '\n')
  }

  lemma {:induction false} CodesConcat(a: seq<Piece>, b: seq<Piece>)
    ensures Codes(a + b) == Codes(a) + Codes(b)
  {
    if a == [] {
      assert a + b == b;
    } else {
      assert (a + b)[0] == a[0] && (a + b)[1..] == a[1..] + b;
      CodesConcat(a[1..], b);
      var first := if a[0].Code? then [a[0].span] else [];
      Associative(first, Codes(a[1..]), Codes(b));
    }
  }

  lemma BreaksConcat(a: seq<Piece>, b: seq<Piece>)
    ensures Breaks(a + b) == Breaks(a) + Breaks(b)
  {
    FlatConcat(a, b);
    Text.CountConcat(Flat(a), Flat(b), '\n');
  }

  lemma {:induction false} CodesSlashed(pieces: seq<Piece>)
    ensures Codes(SlashedPieces(pieces)) == Codes(pieces)
  {
    if pieces != [] {
      CodesSlashed(pieces[1..]);
    }
  }

  lemma {:induction false} BreaksSlashed(pieces: seq<Piece>)
    ensures Breaks(SlashedPieces(pieces)) == Breaks(pieces)
  {
    if pieces != [] {
      BreaksSlashed(pieces[1..]);
      var p := if pieces[0] == Char('\\') then Char('/') else pieces[0];
      Text.CountConcat(Shown(pieces[0]), Flat(pieces[1..]), '\n');
      Text.CountConcat(Shown(p), Flat(SlashedPieces(pieces[1..])), '\n');
    }
  }

  lemma {:induction false} CharsFlat(s: string)
    ensures Flat(Chars(s)) == s && Codes(Chars(s)) == []
  {
    if s != "" {
      CharsFlat(s[1..]);
      assert s == [s[0]] + s[1..];
    }
  }

  lemma CharsBreaks(s: string)
    ensures Breaks(Chars(s)) == 0 <==> '\n' !in s
  {
    CharsFlat(s);
    Text.CountNone(s, '\n');
  }

  /** The punctuation of a destination holds no code span and no line break. */
  lemma PunctuationReads(m: string, i: nat, j: nat, spans: seq<string>)
    requires i <= j <= |m| && MarkdownScan.SameLine(m, i, j) && forall k :: i <= k < j ==> !IsTokenChar(m[k])
    ensures Codes(Pieces(m[i..j], spans)) == [] && Breaks(Pieces(m[i..j], spans)) == 0
  {
    CharsRead(m[i..j], spans);
    CharsFlat(m[i..j]);
    CharsBreaks(m[i..j]);
  }

  /** Code spans and line breaks of `whole` are those of `first` and then those of `second`. */
  ghost predicate Adds(whole: seq<Piece>, first: seq<Piece>, second: seq<Piece>) {
    Codes(whole) == Codes(first) + Codes(second) && Breaks(whole) == Breaks(first) + Breaks(second)
  }

  ghost predicate Silent(pieces: seq<Piece>) {
    Codes(pieces) == [] && Breaks(pieces) == 0
  }

  ghost predicate Alike(a: seq<Piece>, b: seq<Piece>) {
    Codes(a) == Codes(b) && Breaks(a) == Breaks(b)
  }

  lemma Concat(a: seq<Piece>, b: seq<Piece>)
    ensures Adds(a + b, a, b)
  {
    CodesConcat(a, b);
    BreaksConcat(a, b);
  }

  lemma SilentAfter(a: seq<Piece>, b: seq<Piece>)
    requires Silent(b)
    ensures Alike(a + b, a)
  {
    Concat(a, b);
    assert Codes(a) + [] == Codes(a);
  }

  lemma SilentBefore(a: seq<Piece>, b: seq<Piece>)
    requires Silent(a)
    ensures Alike(a + b, b)
  {
    Concat(a, b);
  }

  lemma AlikeConcat(a: seq<Piece>, x: seq<Piece>, b: seq<Piece>, y: seq<Piece>)
    requires Alike(a, x) && Alike(b, y)
    ensures Alike(a + b, x + y)
  {
    Concat(a, b);
    Concat(x, y);
  }

  lemma AlikeTwice(a: seq<Piece>, b: seq<Piece>, c: seq<Piece>)
    requires Alike(a, b) && Alike(b, c)
    ensures Alike(a, c)
  {
  }

  /** Silent pieces between the others do not count. */
  lemma Skips(a: seq<Piece>, silent: seq<Piece>, c: seq<Piece>, x: seq<Piece>)
    requires Silent(silent) && Alike(a, x)
    ensures Alike(a + silent + c, x + c)
  {
    SilentAfter(a, silent);
    AlikeTwice(a + silent, a, x);
    AlikeConcat(a + silent, x, c, c);
  }

  /** The part of an edit that is dropped: a title inside angle brackets. */
  function Dropped(m: string, e: Edit, spans: seq<string>): seq<Piece>
    requires InOrder(m, e)
  {
    Pieces(m[e.to..e.rest], spans)
  }

  lemma EndIsPunctuation(m: string, e: Edit)
    requires Fits(m, e)
    ensures InOrder(m, e) && forall k :: e.titleEnd <= k < e.end ==> !IsTokenChar(m[k])
  {
    forall k | e.titleEnd <= k < e.end ensures !IsTokenChar(m[k]) {
      if k < e.end - 1 { SpaceIsNoTokenChar(m[k]); }
    }
  }

  lemma StartIsPunctuation(m: string, e: Edit)
    requires Fits(m, e)
    ensures InOrder(m, e) && (forall k :: e.start <= k < e.from ==> m[k] != '\n' && !IsTokenChar(m[k]))
    ensures forall k :: e.rest <= k < e.title ==> m[k] != '\n' && !IsTokenChar(m[k])
  {
  }

  lemma FitsPunctuation(m: string, e: Edit, spans: seq<string>)
    requires Fits(m, e)
    ensures InOrder(m, e)
    ensures Silent(Pieces(m[e.start..e.from], spans)) && Silent(Pieces(m[e.rest..e.title], spans))
    ensures Silent(Pieces(m[e.titleEnd..e.end], spans))
  {
    StartIsPunctuation(m, e);
    PunctuationReads(m, e.start, e.from, spans);
    PunctuationReads(m, e.rest, e.title, spans);
    EndIsPunctuation(m, e);
    PunctuationReads(m, e.titleEnd, e.end, spans);
  }

  lemma DestinationHolds(a: seq<Piece>, target: seq<Piece>, dropped: seq<Piece>, d: seq<Piece>, title: seq<Piece>, f: seq<Piece>)
    requires Silent(a) && Silent(d) && Silent(f)
    ensures Alike(a + target + dropped + d + title + f, target + dropped + title)
  {
    SilentBefore(a, target);
    AlikeConcat(a + target, target, dropped, dropped);
    Skips(a + target + dropped, d, title, target + dropped);
    SilentAfter(a + target + dropped + d + title, f);
    AlikeTwice(a + target + dropped + d + title + f, a + target + dropped + d + title, target + dropped + title);
  }

  lemma CharsSilent(s: string)
    requires '\n' !in s
    ensures Silent(Chars(s))
  {
    CharsFlat(s);
    CharsBreaks(s);
  }

  lemma RewrittenHolds(target: seq<Piece>, title: seq<Piece>)
    ensures Alike(Chars("</") + SlashedPieces(target) + Chars(">") + title + Chars(")"), target + title)
  {
    CharsSilent("</");
    CharsSilent(">");
    CharsSilent(")");
    CodesSlashed(target);
    BreaksSlashed(target);
    var t := Chars("</") + SlashedPieces(target);
    SilentBefore(Chars("</"), SlashedPieces(target));
    AlikeTwice(t, SlashedPieces(target), target);
    Skips(t, Chars(">"), title, target);
    SilentAfter(t + Chars(">") + title, Chars(")"));
    AlikeTwice(t + Chars(">") + title + Chars(")"), t + Chars(">") + title, target + title);
  }

  lemma DroppedMiddle(target: seq<Piece>, dropped: seq<Piece>, title: seq<Piece>)
    ensures Breaks(target + title) + Breaks(dropped) == Breaks(target + dropped + title)
    ensures Codes(dropped) == [] ==> Codes(target + title) == Codes(target + dropped + title)
  {
    Concat(target, title);
    Concat(target, dropped);
    Concat(target + dropped, title);
    assert Codes(target) + [] == Codes(target);
  }

  /** An edit loses exactly the spans and line breaks of what it drops. */
  lemma EditLoses(m: string, e: Edit, spans: seq<string>)
    requires Fits(m, e)
    ensures InOrder(m, e)
    ensures Codes(Dropped(m, e, spans)) == [] ==> Codes(Rewritten(m, e, spans)) == Codes(Destination(m, e, spans))
    ensures Breaks(Rewritten(m, e, spans)) + Breaks(Dropped(m, e, spans)) == Breaks(Destination(m, e, spans))
  {
    FitsPunctuation(m, e, spans);
    var target, dropped, title := Pieces(m[e.from..e.to], spans), Pieces(m[e.to..e.rest], spans), Pieces(m[e.title..e.titleEnd], spans);
    DestinationHolds(Pieces(m[e.start..e.from], spans), target, dropped, Pieces(m[e.rest..e.title], spans), title,
                     Pieces(m[e.titleEnd..e.end], spans));
    RewrittenHolds(target, title);
    DroppedMiddle(target, dropped, title);
  }

  /** The line breaks all edits together drop. */
  function Lost(m: string, from: nat, edits: seq<Edit>, spans: seq<string>): nat
    requires Ordered(m, from, edits)
    decreases |edits|
  {
    if edits == [] then 0 else Breaks(Dropped(m, edits[0], spans)) + Lost(m, edits[0].end, edits[1..], spans)
  }

  /** No edit drops anything: no `<...>` destination ends in a title. */
  predicate NothingDropped(edits: seq<Edit>) {
    forall e <- edits :: e.to == e.rest
  }

  lemma EditLosesStep(kept: seq<Piece>, old0: seq<Piece>, old1: seq<Piece>, new0: seq<Piece>, new1: seq<Piece>)
    ensures Breaks(kept + old0 + old1) == Breaks(kept) + Breaks(old0) + Breaks(old1)
    ensures Breaks(kept + new0 + new1) == Breaks(kept) + Breaks(new0) + Breaks(new1)
    ensures Codes(old0) == Codes(new0) && Codes(old1) == Codes(new1) ==> Codes(kept + old0 + old1) == Codes(kept + new0 + new1)
  {
    Concat(kept, old0);
    Concat(kept + old0, old1);
    Concat(kept, new0);
    Concat(kept + new0, new1);
  }

  lemma NothingDroppedHere(m: string, e: Edit, spans: seq<string>)
    requires InOrder(m, e) && e.to == e.rest
    ensures Silent(Dropped(m, e, spans))
  {
    assert m[e.to..e.rest] == "";
    CharsSilent("");
  }

  /** All edits together lose the line breaks they drop; without drops every code span is kept, in order. */
  lemma {:induction false} EditsLose(m: string, from: nat, edits: seq<Edit>, spans: seq<string>)
    requires from <= |m| && FitFrom(m, from, edits)
    ensures Ordered(m, from, edits)
    ensures Breaks(NewPieces(m, from, edits, spans)) + Lost(m, from, edits, spans) == Breaks(OldPieces(m, from, edits, spans))
    ensures NothingDropped(edits) ==> Codes(NewPieces(m, from, edits, spans)) == Codes(OldPieces(m, from, edits, spans))
                                      && Lost(m, from, edits, spans) == 0
    decreases |edits|
  {
    FitOrdered(m, from, edits);
    if edits != [] {
      var e, rest := edits[0], edits[1..];
      EditsLose(m, e.end, rest, spans);
      EditLoses(m, e, spans);
      EditLosesStep(Pieces(m[from..e.start], spans), Destination(m, e, spans), OldPieces(m, e.end, rest, spans),
                    Rewritten(m, e, spans), NewPieces(m, e.end, rest, spans));
      if NothingDropped(edits) {
        assert e in edits && forall d <- rest :: d in edits;
        NothingDroppedHere(m, e, spans);
      }
    }
  }

  // ---- prose

  function MaskedProse(text: string): string {
    RangesInText(text, 0);
    Masked(text, 0, Ranges(text, 0), 0)
  }

  /** The code spans of a text, in order. */
  function Spans(text: string): seq<string> {
    RangesInText(text, 0);
    InTextBounds(text, 0, Ranges(text, 0));
    Contents(text, Ranges(text, 0))
  }

  /** The edits made in a text, as positions in the masked text. */
  function ProseEdits(text: string): seq<Edit> {
    AllEdits(MaskedProse(text))
  }

  /** `normalizeWindowsMarkdownTargetsOutsideInlineCode`. */
  function Prose(text: string): string {
    Unmask(Apply(MaskedProse(text), 0, ProseEdits(text)), Spans(text))
  }

  method NormalizeProse(text: string) returns (normalized: string)
    ensures normalized == Prose(text)
  {
    var masked, spans := MaskCode(text);
    RangesInText(text, 0);
    InTextBounds(text, 0, Ranges(text, 0));
    FinishMasks("", text, 0, Ranges(text, 0), 0);
    FinishSpansCollects([], text, 0, Ranges(text, 0));
    assert "" + Masked(text, 0, Ranges(text, 0), 0) == Masked(text, 0, Ranges(text, 0), 0);
    assert [] + Contents(text, Ranges(text, 0)) == Contents(text, Ranges(text, 0));
    var edited := NormalizeInText(masked);
    normalized := Unmask(edited, spans);
  }

  lemma {:induction false} ReadingIsText(text: string, from: nat, ranges: seq<Range>)
    requires InText(text, from, ranges) && forall r <- ranges :: r.start <= r.end <= |text|
    ensures Flat(Reading(text, from, ranges)) == text[from..]
    ensures Codes(Reading(text, from, ranges)) == Contents(text, ranges)
    decreases |ranges|
  {
    if ranges == [] {
      CharsFlat(text[from..]);
    } else {
      var r, rest := ranges[0], ranges[1..];
      assert forall x <- rest :: x in ranges;
      ReadingIsText(text, r.end, rest);
      ReadingStep(text[from..r.start], text[r.start..r.end], Reading(text, r.end, rest));
      ThreeParts(text, from, r.start, r.end);
    }
  }

  lemma ThreeParts(text: string, a: nat, b: nat, c: nat)
    requires a <= b <= c <= |text|
    ensures text[a..] == text[a..b] + (text[b..c] + text[c..])
  {
  }

  lemma ReadingStep(before: string, span: string, rest: seq<Piece>)
    ensures Flat(Chars(before) + ([Code(span)] + rest)) == before + (span + Flat(rest))
    ensures Codes(Chars(before) + ([Code(span)] + rest)) == [span] + Codes(rest)
  {
    CharsFlat(before);
    FlatConcat(Chars(before), [Code(span)] + rest);
    CodesConcat(Chars(before), [Code(span)] + rest);
    assert ([Code(span)] + rest)[1..] == rest;
  }

  /** Everything outside the code spans of a text is plain: no written-out token is taken for that of a span. */
  predicate Legible(text: string) {
    RangesInText(text, 0);
    AllPlain(text, 0, Ranges(text, 0), |Ranges(text, 0)|)
  }

  lemma SpansAreSpans(text: string)
    ensures AreSpans(Spans(text))
  {
    RangesInText(text, 0);
    InTextBounds(text, 0, Ranges(text, 0));
    RangesAreSpans(text, 0);
    forall span | span in Spans(text) ensures span != "" && span[0] == '`' {
      var i: nat :| i < |Spans(text)| && Spans(text)[i] == span;
      assert Ranges(text, 0)[i] in Ranges(text, 0);
    }
  }

  /** Masking a text and reading it back gives its characters and its code spans exactly when it is legible; and if
      not, it gives another text. */
  lemma ReadsBackExactly(text: string)
    ensures InText(text, 0, Ranges(text, 0))
    ensures Pieces(MaskedProse(text), Spans(text)) == Reading(text, 0, Ranges(text, 0)) <==> Legible(text)
    ensures Unmask(MaskedProse(text), Spans(text)) == text <==> Legible(text)
  {
    var ranges := Ranges(text, 0);
    RangesInText(text, 0);
    InTextBounds(text, 0, ranges);
    SpansAreSpans(text);
    assert forall i :: 0 <= i < |ranges| ==> ranges[i] in ranges;
    MaskedReads(text, 0, ranges, 0, Spans(text));
    ReadingIsText(text, 0, ranges);
    assert text[0..] == text;
  }

  lemma {:induction false} NulFreeAllPlain(text: string, from: nat, ranges: seq<Range>, count: nat)
    requires InText(text, from, ranges) && '\0' !in text
    ensures AllPlain(text, from, ranges, count)
    decreases |ranges|
  {
    NulFreePlain(text[from..], count, false);
    if ranges != [] {
      NulFreePlain(text[from..ranges[0].start], count, true);
      NulFreeAllPlain(text, ranges[0].end, ranges[1..], count);
    }
  }

  /** So every text without a NUL is legible. */
  lemma NulFreeLegible(text: string)
    requires '\0' !in text
    ensures Legible(text)
  {
    RangesInText(text, 0);
    NulFreeAllPlain(text, 0, Ranges(text, 0), |Ranges(text, 0)|);
  }

  lemma MaskedIsRead(text: string)
    requires Legible(text)
    ensures var pieces := Pieces(MaskedProse(text), Spans(text)); Flat(pieces) == text && Codes(pieces) == Spans(text)
  {
    RangesInText(text, 0);
    InTextBounds(text, 0, Ranges(text, 0));
    ReadsBackExactly(text);
    ReadingIsText(text, 0, Ranges(text, 0));
    assert text[0..] == text;
  }

  // ---- titles inside angle brackets

  /** Where the inside of the angle destination `](<...>` at `o` ends. */
  function InsideEnd(m: string, o: nat): (p: Option<nat>)
    ensures p.Some? ==> o + 3 <= p.value < |m|
  {
    if o + 2 < |m| && m[o] == ']' && m[o + 1] == '(' && m[o + 2] == '<' then AngleEnd(m, o + 3, |m|) else None
  }

  /** The title, with the space before it, in which the inside of an angle destination ends; empty if there is none. */
  function InnerTitle(m: string, o: nat): string {
    var p := InsideEnd(m, o);
    if p.Some? then m[TargetEnd(m, o + 3, p.value)..p.value] else ""
  }

  predicate HoldsBreak(title: string, spans: seq<string>) {
    '\n' in Unmask(title, spans)
  }

  /** In a text, its code spans masked, no angle destination ends in a title with a code span of several lines. */
  ghost predicate TitlesOnOneLine(text: string) {
    forall o: nat :: !HoldsBreak(InnerTitle(MaskedProse(text), o), Spans(text))
  }

  /** What an edit drops is the title inside its angle brackets. */
  predicate DropsInner(m: string, e: Edit) {
    InOrder(m, e) && 2 <= e.start && m[e.to..e.rest] == InnerTitle(m, e.start - 2)
  }

  lemma {:induction false} AngleEndFurther(text: string, i: nat, end: nat, further: nat)
    requires i <= end <= further <= |text| && AngleEnd(text, i, end).Some?
    ensures AngleEnd(text, i, further) == AngleEnd(text, i, end)
    decreases end - i
  {
    if i < end && text[i] != '<' && text[i] != '>' {
      AngleEndFurther(text, i + 1, end, further);
    }
  }

  lemma InsideEndFound(m: string, o: nat, c: nat)
    requires LinkBounds(m, o + 2, c) && m[o + 2] == '<' && AngleEnd(m, o + 3, c).Some?
    ensures InsideEnd(m, o) == AngleEnd(m, o + 3, c)
  {
    AngleEndFurther(m, o + 3, c, |m|);
  }

  lemma InnerTitleFound(m: string, o: nat, p: nat)
    requires o + 3 <= p < |m| && InsideEnd(m, o) == Some(p)
    ensures InnerTitle(m, o) == m[TargetEnd(m, o + 3, p)..p]
  {
  }

  lemma AngleEditParts(m: string, start: nat, p: nat, c: nat)
    requires start + 1 <= p < c < |m|
    ensures var e := AngleEditTo(m, start, p, c); e.start == start && e.to == TargetEnd(m, start + 1, p) && e.rest == p
  {
  }

  lemma AngleToDropsInner(m: string, o: nat, p: nat, c: nat)
    requires o + 3 <= p < c < |m| && InsideEnd(m, o) == Some(p) && InOrder(m, AngleEditTo(m, o + 2, p, c))
    ensures DropsInner(m, AngleEditTo(m, o + 2, p, c))
  {
    InnerTitleFound(m, o, p);
    AngleEditParts(m, o + 2, p, c);
    SlicesDropInner(m, o, AngleEditTo(m, o + 2, p, c));
  }

  lemma SlicesDropInner(m: string, o: nat, e: Edit)
    requires InOrder(m, e) && e.start == o + 2 && m[e.to..e.rest] == InnerTitle(m, o)
    ensures DropsInner(m, e)
  {
  }

  lemma AngleDropsInner(m: string, o: nat, c: nat)
    requires LinkBounds(m, o + 2, c) && m[o + 2] == '<'
    ensures var e := AngleEdit(m, o + 2, c); e.Some? && InOrder(m, e.value) ==> DropsInner(m, e.value)
  {
    var e := AngleEdit(m, o + 2, c);
    if e.Some? && InOrder(m, e.value) {
      InsideEndFound(m, o, c);
      AngleToDropsInner(m, o, AngleEnd(m, o + 3, c).value, c);
    }
  }

  lemma RawDropsInner(m: string, o: nat, c: nat, contextValid: bool)
    requires LinkBounds(m, o + 2, c) && m[o + 2] != '<'
    ensures var e := RawEdit(m, o + 2, c, contextValid); e.Some? && InOrder(m, e.value) ==> DropsInner(m, e.value)
  {
  }

  lemma EditDropsInner(m: string, o: nat, labels: set<nat>, closures: map<nat, nat>, valid: set<nat>)
    requires o + 1 < |m| && m[o] == ']' && m[o + 1] == '(' && Paired(m, closures)
    ensures var e := EditAt(m, o, labels, closures, valid); e.Some? ==> DropsInner(m, e.value)
  {
    EditFits(m, o, labels, closures, valid);
    if EditAt(m, o, labels, closures, valid).Some? {
      assert MarkdownScan.IsPair(m, o + 1, closures[o + 1], |m|);
      if m[o + 2] == '<' {
        AngleDropsInner(m, o, closures[o + 1]);
      } else {
        RawDropsInner(m, o, closures[o + 1], o + 1 in valid);
      }
    }
  }

  lemma {:induction false} EditsDropInner(m: string, from: nat, labels: set<nat>, closures: map<nat, nat>, valid: set<nat>)
    requires from <= |m| && Paired(m, closures)
    ensures forall e <- Edits(m, from, labels, closures, valid) :: DropsInner(m, e)
    decreases |m| - from
  {
    var o := IndexOf(m, from);
    if o < |m| {
      var e := EditAt(m, o, labels, closures, valid);
      EditsAt(m, from, labels, closures, valid, o, e);
      EditDropsInner(m, o, labels, closures, valid);
      EditsDropInner(m, if e.None? then o + 2 else e.value.end, labels, closures, valid);
    }
  }

  lemma ProseEditsDropInner(text: string)
    ensures forall e <- ProseEdits(text) :: DropsInner(MaskedProse(text), e)
  {
    var m := MaskedProse(text);
    ScanPaired(m);
    EditsDropInner(m, 0, BracketsTo(m, |m|).1, MarkdownScan.Scanned(m).closures, MarkdownScan.Scanned(m).valid);
  }

  /** Some destination that is rewritten loses a title with a code span of several lines. */
  ghost predicate BreakDropped(text: string) {
    exists o: nat :: Rewrites(MaskedProse(text), o) && HoldsBreak(InnerTitle(MaskedProse(text), o), Spans(text))
  }

  predicate DropsBreak(m: string, e: Edit, spans: seq<string>) {
    2 <= e.start && HoldsBreak(InnerTitle(m, e.start - 2), spans)
  }

  predicate NoneDrops(m: string, edits: seq<Edit>, spans: seq<string>) {
    forall e <- edits :: !DropsBreak(m, e, spans)
  }

  lemma NoneDropsCons(m: string, edits: seq<Edit>, spans: seq<string>)
    requires edits != []
    ensures NoneDrops(m, edits, spans) <==> !DropsBreak(m, edits[0], spans) && NoneDrops(m, edits[1..], spans)
  {
    assert forall x :: x in edits <==> x == edits[0] || x in edits[1..];
  }

  lemma DroppedBreaks(m: string, e: Edit, spans: seq<string>)
    requires DropsInner(m, e)
    ensures Breaks(Dropped(m, e, spans)) == 0 <==> !DropsBreak(m, e, spans)
  {
    var inner := m[e.to..e.rest];
    assert Breaks(Dropped(m, e, spans)) == Text.Count(Unmask(inner, spans), '\n');
    assert DropsBreak(m, e, spans) <==> '\n' in Unmask(inner, spans);
    Text.CountNone(Unmask(inner, spans), '\n');
  }

  lemma {:induction false} LostExactly(m: string, from: nat, edits: seq<Edit>, spans: seq<string>)
    requires Ordered(m, from, edits) && forall e <- edits :: DropsInner(m, e)
    ensures Lost(m, from, edits, spans) == 0 <==> NoneDrops(m, edits, spans)
    decreases |edits|
  {
    if edits != [] {
      assert DropsInner(m, edits[0]);
      NoneDropsCons(m, edits, spans);
      DroppedBreaks(m, edits[0], spans);
      LostExactly(m, edits[0].end, edits[1..], spans);
    }
  }

  /** What happens to a legible text: reading it as pieces, the edits replace destinations, each on one line and none
      overlapping, and touch nothing else; without titles inside angle brackets every code span is kept, in order;
      and the line breaks are all kept exactly when no destination is rewritten without a title that holds one. */
  lemma ProseIsEdited(text: string)
    requires Legible(text)
    ensures var m, spans, edits := MaskedProse(text), Spans(text), ProseEdits(text);
            && FitFrom(m, 0, edits) && Ordered(m, 0, edits)
            && text == Flat(OldPieces(m, 0, edits, spans)) && Codes(OldPieces(m, 0, edits, spans)) == spans
            && Prose(text) == Flat(NewPieces(m, 0, edits, spans))
            && Text.Count(Prose(text), '\n') + Lost(m, 0, edits, spans) == Text.Count(text, '\n')
            && (Text.Count(Prose(text), '\n') == Text.Count(text, '\n') <==> !BreakDropped(text))
            && (NothingDropped(edits) ==> Codes(NewPieces(m, 0, edits, spans)) == spans && Lost(m, 0, edits, spans) == 0)
  {
    var m, spans, edits := MaskedProse(text), Spans(text), ProseEdits(text);
    AllEditsFit(m);
    MaskedIsRead(text);
    assert m[0..] == m;
    OldReads(m, 0, edits, spans);
    NewReads(m, 0, edits, spans);
    EditsLose(m, 0, edits, spans);
    ProseLosesExactly(text);
  }

  lemma ProseLosesExactly(text: string)
    ensures Ordered(MaskedProse(text), 0, ProseEdits(text))
    ensures Lost(MaskedProse(text), 0, ProseEdits(text), Spans(text)) == 0 <==> !BreakDropped(text)
  {
    ProseEditsDropInner(text);
    LostExactly(MaskedProse(text), 0, ProseEdits(text), Spans(text));
    NoneDropsExactly(text);
  }

  lemma NoneDropsExactly(text: string)
    requires forall e <- ProseEdits(text) :: 2 <= e.start
    ensures NoneDrops(MaskedProse(text), ProseEdits(text), Spans(text)) <==> !BreakDropped(text)
  {
    var m, edits := MaskedProse(text), ProseEdits(text);
    forall o: nat ensures Rewrites(m, o) <==> StartsAt(edits, o) {
      AllEditsExactly(m, o);
    }
    forall e | e in edits ensures Rewrites(m, e.start - 2) {
      assert StartsAt(edits, e.start - 2);
    }
  }

  /** So a legible text keeps its lines if the titles inside its angle destinations are on one line. */
  lemma TitlesKeepLines(text: string)
    requires Legible(text) && TitlesOnOneLine(text)
    ensures !BreakDropped(text) && Text.Count(Prose(text), '\n') == Text.Count(text, '\n')
  {
    ProseIsEdited(text);
  }
}
