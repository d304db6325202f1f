/** Which inline code spans are masked (packages/protocol/src/markdown.ts:688-718), said of the runs of backticks in the
    text. */
module MarkdownSpans {
  import MarkdownScan
  import opened MarkdownCode

  /** A run of exactly `n` backticks at `o`. */
  predicate Run(text: string, o: nat, n: nat) {
    && 0 < n && o + n <= |text| && (forall k :: o <= k < o + n ==> text[k] == '`')
    && (o > 0 ==> text[o - 1] != '`') && (o + n < |text| ==> text[o + n] != '`')
  }

  /** No run of backticks goes on across `i`. */
  predicate Edge(text: string, i: nat) {
    0 < i < |text| ==> text[i] != '`' || text[i - 1] != '`'
  }

  lemma {:induction false} RunEndIs(text: string, i: nat)
    requires i <= |text|
    ensures forall k :: i <= k < RunEnd(text, i) ==> text[k] == '`'
    decreases |text| - i
  {
    if i < |text| && text[i] == '`' {
      RunEndIs(text, i + 1);
    }
  }

  lemma {:induction false} NextRunIs(text: string, i: nat)
    requires i <= |text|
    ensures forall k :: i <= k < NextRun(text, i) ==> text[k] != '`'
    decreases |text| - i
  {
    if i < |text| && text[i] != '`' {
      NextRunIs(text, i + 1);
    }
  }

  /** The first run from an edge on. */
  lemma FirstRun(text: string, i: nat)
    requires i <= |text| && Edge(text, i)
    ensures var o := NextRun(text, i);
            && (o < |text| ==> Run(text, o, RunEnd(text, o) - o) && Edge(text, RunEnd(text, o)))
            && forall k: nat, n: nat :: Run(text, k, n) && i <= k < (if o < |text| then RunEnd(text, o) else |text|) ==> k == o
  {
    var o := NextRun(text, i);
    NextRunIs(text, i);
    if o < |text| {
      RunEndIs(text, o);
    }
    forall k: nat, n: nat | Run(text, k, n) && i <= k < (if o < |text| then RunEnd(text, o) else |text|) ensures k == o {
      assert text[k] == '`';
      assert k == 0 || text[k - 1] != '`';
    }
  }

  lemma RunOnce(text: string, o: nat, n: nat, m: nat)
    requires Run(text, o, n) && Run(text, o, m)
    ensures n == m
  {
  }

  predicate NoRun(text: string, from: nat, to: nat, n: nat) {
    forall k: nat :: from <= k < to ==> !Run(text, k, n)
  }

  lemma {:induction false} ClosingIs(text: string, from: nat, n: nat)
    requires from <= |text| && Edge(text, from) && 0 < n
    ensures var c := ClosingRun(text, from, n); NoRun(text, from, c, n) && (c < |text| ==> Run(text, c, n))
    decreases |text| - from
  {
    var c := NextRun(text, from);
    FirstRun(text, from);
    if c < |text| {
      forall k: nat | from <= k < RunEnd(text, c) && Run(text, k, n) ensures k == c && RunEnd(text, c) == c + n {
        RunOnce(text, c, n, RunEnd(text, c) - c);
      }
      if RunEnd(text, c) != c + n {
        ClosingIs(text, RunEnd(text, c), n);
      }
    }
  }

  /** A code span: an unescaped run, and the next run of the same length. */
  predicate IsSpan(text: string, r: Range, n: nat) {
    && r.start + n <= r.end - n && Run(text, r.start, n) && !MarkdownScan.Escaped(text, r.start)
    && Run(text, r.end - n, n) && NoRun(text, r.start + n, r.end - n, n)
  }

  /** An unescaped run that no run of the same length follows. */
  predicate Unclosed(text: string, o: nat, n: nat) {
    Run(text, o, n) && !MarkdownScan.Escaped(text, o) && NoRun(text, o + n, |text|, n)
  }

  predicate Covered(ranges: seq<Range>, k: nat) {
    exists r <- ranges :: r.start <= k < r.end
  }

  /** From `from` up to `k` an unescaped run outside the spans has no end: there the search ends. */
  ghost predicate Abandoned(text: string, ranges: seq<Range>, from: nat, k: nat) {
    exists o: nat, n: nat :: from <= o <= k && Unclosed(text, o, n) && !Covered(ranges, o)
  }

  ghost predicate HasSpan(text: string, r: Range) {
    exists n: nat :: IsSpan(text, r, n)
  }

  /** How the spans from an edge on begin. */
  datatype Opening = NoOpening | Skipped(next: nat) | Stopped(o: nat, n: nat) | Opened(r: Range)

  ghost predicate Begins(text: string, from: nat, opening: Opening) {
    match opening
    case NoOpening => forall k: nat, n: nat :: Run(text, k, n) ==> k < from
    case Skipped(next) =>
      && from < next <= |text| && Edge(text, next)
      && forall k: nat, n: nat :: Run(text, k, n) && from <= k && !MarkdownScan.Escaped(text, k) ==> next <= k
    case Stopped(o, n) =>
      && from <= o && Unclosed(text, o, n)
      && forall k: nat, m: nat :: Run(text, k, m) && from <= k ==> o <= k
    case Opened(r) =>
      && from <= r.start < r.end <= |text| && HasSpan(text, r) && Edge(text, r.end)
      && forall k: nat, m: nat :: Run(text, k, m) && from <= k ==> r.start <= k
  }

  ghost predicate Goes(text: string, ranges: seq<Range>, opening: Opening) {
    match opening
    case NoOpening => ranges == []
    case Skipped(next) => next <= |text| && ranges == Ranges(text, next)
    case Stopped(_, _) => ranges == []
    case Opened(r) => r.end <= |text| && ranges == [r] + Ranges(text, r.end)
  }

  lemma RunBegins(text: string, from: nat, o: nat, e: nat)
    requires from <= o < e <= |text| && Run(text, o, e - o) && Edge(text, e) && !MarkdownScan.Escaped(text, o)
    requires forall k: nat, n: nat :: Run(text, k, n) && from <= k < e ==> k == o
    ensures var c := ClosingRun(text, e, e - o);
            Begins(text, from, if c == |text| then Stopped(o, e - o) else Opened(Range(o, RunEnd(text, c))))
  {
    var c := ClosingRun(text, e, e - o);
    ClosingIs(text, e, e - o);
    FirstIs(text, from, o, e);
    if c < |text| {
      SpanOpens(text, o, e - o, c);
    }
  }

  lemma FirstIs(text: string, from: nat, o: nat, e: nat)
    requires o < e && forall k: nat, n: nat :: Run(text, k, n) && from <= k < e ==> k == o
    ensures forall k: nat, m: nat :: Run(text, k, m) && from <= k ==> o <= k
  {
  }

  lemma SpanOpens(text: string, o: nat, n: nat, c: nat)
    requires Run(text, o, n) && !MarkdownScan.Escaped(text, o) && o + n <= c && Run(text, c, n) && NoRun(text, o + n, c, n)
    ensures RunEnd(text, c) == c + n && HasSpan(text, Range(o, c + n)) && Edge(text, c + n)
  {
    assert IsSpan(text, Range(o, c + n), n);
    RunEndIs(text, c);
  }

  lemma RunGoes(text: string, from: nat, o: nat, e: nat, c: nat)
    requires from <= o < |text| && o == NextRun(text, from) && e == RunEnd(text, o) && c == ClosingRun(text, e, e - o)
    requires !MarkdownScan.Escaped(text, o)
    ensures Ranges(text, from) == if c == |text| then [] else [Range(o, RunEnd(text, c))] + Ranges(text, RunEnd(text, c))
  {
  }

  lemma RunSkipped(text: string, from: nat, o: nat)
    requires from <= o < |text| && o == NextRun(text, from) && MarkdownScan.Escaped(text, o)
    ensures Ranges(text, from) == Ranges(text, RunEnd(text, o))
  {
  }

  lemma RunMissing(text: string, from: nat)
    requires from <= |text| && |text| == NextRun(text, from)
    ensures Ranges(text, from) == []
  {
  }

  /** The spans from an edge on, given how they begin. */
  lemma RangesBegin(text: string, from: nat, ranges: seq<Range>) returns (opening: Opening)
    requires from <= |text| && Edge(text, from) && ranges == Ranges(text, from)
    ensures Begins(text, from, opening) && Goes(text, ranges, opening)
  {
    var o := NextRun(text, from);
    FirstRun(text, from);
    if o == |text| {
      opening := NoOpening;
      RunMissing(text, from);
    } else if MarkdownScan.Escaped(text, o) {
      opening := Skipped(RunEnd(text, o));
      RunSkipped(text, from, o);
    } else {
      opening := RunOpens(text, from, ranges, o, RunEnd(text, o));
    }
  }

  lemma RunOpens(text: string, from: nat, ranges: seq<Range>, o: nat, e: nat) returns (opening: Opening)
    requires from <= o < e <= |text| && o == NextRun(text, from) && e == RunEnd(text, o) && ranges == Ranges(text, from)
    requires Run(text, o, e - o) && Edge(text, e) && !MarkdownScan.Escaped(text, o)
    requires forall k: nat, n: nat :: Run(text, k, n) && from <= k < e ==> k == o
    ensures Begins(text, from, opening) && Goes(text, ranges, opening)
  {
    var c := ClosingRun(text, e, e - o);
    RunBegins(text, from, o, e);
    RunGoes(text, from, o, e, c);
    opening := if c == |text| then Stopped(o, e - o) else Opened(Range(o, RunEnd(text, c)));
  }

  /** What is masked are code spans. */
  lemma {:induction false} RangesAreCodeSpans(text: string, from: nat)
    requires from <= |text| && Edge(text, from)
    ensures forall r <- Ranges(text, from) :: HasSpan(text, r)
    decreases |text| - from
  {
    var opening := RangesBegin(text, from, Ranges(text, from));
    match opening
    case Skipped(next) => RangesAreCodeSpans(text, next);
    case Opened(r) => RangesAreCodeSpans(text, r.end);
    case _ =>
  }

  lemma CoveredCons(r: Range, rest: seq<Range>, k: nat)
    ensures Covered([r] + rest, k) <==> r.start <= k < r.end || Covered(rest, k)
  {
    assert forall x :: x in [r] + rest <==> x == r || x in rest;
  }

  lemma AbandonedAt(text: string, from: nat, o: nat, n: nat, k: nat)
    requires from <= o <= k && Unclosed(text, o, n)
    ensures Abandoned(text, [], from, k)
  {
    assert !Covered([], o);
  }

  lemma AbandonedLater(text: string, ranges: seq<Range>, from: nat, later: nat, k: nat)
    requires Abandoned(text, ranges, later, k) && from <= later
    ensures Abandoned(text, ranges, from, k)
  {
  }

  lemma AbandonedBehind(text: string, r: Range, rest: seq<Range>, from: nat, k: nat)
    requires Abandoned(text, rest, r.end, k) && from <= r.end
    ensures Abandoned(text, [r] + rest, from, k)
  {
    var o: nat, n: nat :| r.end <= o <= k && Unclosed(text, o, n) && !Covered(rest, o);
    CoveredCons(r, rest, o);
  }

  /** And every unescaped run outside them lies where the search has ended. */
  lemma {:induction false} RangesAreAll(text: string, from: nat, k: nat, m: nat)
    requires from <= |text| && Edge(text, from) && from <= k && Run(text, k, m) && !MarkdownScan.Escaped(text, k)
    requires !Covered(Ranges(text, from), k)
    ensures Abandoned(text, Ranges(text, from), from, k)
    decreases |text| - from
  {
    var opening := RangesBegin(text, from, Ranges(text, from));
    match opening
    case NoOpening =>
    case Skipped(next) =>
      RangesAreAll(text, next, k, m);
      AbandonedLater(text, Ranges(text, from), from, next, k);
    case Stopped(o, n) => AbandonedAt(text, from, o, n, k);
    case Opened(r) =>
      CoveredCons(r, Ranges(text, r.end), k);
      RangesAreAll(text, r.end, k, m);
      AbandonedBehind(text, r, Ranges(text, r.end), from, k);
  }

  /** What is masked are code spans: an unescaped run of backticks up to the next of the same length.  And an unescaped run
      lies in one, unless the search has ended before, at a run that has no end. */
  lemma SpansExactly(text: string)
    ensures forall r <- Ranges(text, 0) :: HasSpan(text, r)
    ensures forall k: nat, m: nat :: Run(text, k, m) && !MarkdownScan.Escaped(text, k) ==>
              Covered(Ranges(text, 0), k) || Abandoned(text, Ranges(text, 0), 0, k)
  {
    RangesAreCodeSpans(text, 0);
    forall k: nat, m: nat | Run(text, k, m) && !MarkdownScan.Escaped(text, k) && !Covered(Ranges(text, 0), k)
      ensures Abandoned(text, Ranges(text, 0), 0, k)
    {
      RangesAreAll(text, 0, k, m);
    }
  }
}
